/** What the timing rules buy: a rule from a command to itself at distance `k` with value `v` lets a node
    see at most `k` of those commands in any window of `v` cycles. */
module TimingWindows {
  import opened TimingHistory

  // Every issue in the history was allowed, at node `p`, by the history before it.
  ghost predicate LegalAt(spec: Spec, p: Path, h: seq<Event>)
    requires spec.Valid() && |p| <= |spec.timing|
  {
    h == [] ||
    var e, before := h[|h| - 1], h[..|h| - 1];
    && LegalAt(spec, p, before) && e.cmd < spec.numCmds
    && (IsTarget(p, e.addr) && |p| - 1 <= spec.scope[e.cmd] ==> NodeAllows(spec, p, e.cmd, before, e.clk))
  }

  function CountIn(times: seq<nat>, lo: int, hi: int): nat {
    if times == [] then 0 else
      CountIn(times[..|times| - 1], lo, hi) + if lo <= times[|times| - 1] < hi then 1 else 0
  }

  lemma {:induction false} CountAtMostLength(times: seq<nat>, lo: int, hi: int, k: nat)
    requires forall i | 0 <= i < |times| - k :: times[i] < lo
    ensures CountIn(times, lo, hi) <= k
    decreases |times|
  {
    if times != [] {
      CountAtMostLength(times[..|times| - 1], lo, hi, if k == 0 then 0 else k - 1);
    }
  }

  predicate Spaced(times: seq<nat>, k: nat, v: int) {
    forall i | 0 <= i < |times| - k :: times[i] + v <= times[i + k]
  }

  lemma {:induction false} SpacedCount(times: seq<nat>, k: nat, v: int, lo: int)
    requires Sorted(times) && Spaced(times, k, v)
    ensures CountIn(times, lo, lo + v) <= k
    decreases |times|
  {
    if times != [] {
      var last, init := times[|times| - 1], times[..|times| - 1];
      if lo <= last < lo + v {
        forall i | 0 <= i < |times| - k ensures times[i] < lo {
          assert times[i] + v <= times[i + k] <= last;
        }
        CountAtMostLength(times, lo, lo + v, k);
      } else {
        SpacedCount(init, k, v, lo);
      }
    }
  }

  lemma {:induction false} LegalIsSpaced(spec: Spec, p: Path, c: nat, r: nat, h: seq<Event>)
    requires spec.Valid() && |p| <= |spec.timing| && c < spec.numCmds && |p| - 1 <= spec.scope[c]
    requires r < |spec.timing[|p| - 1][c]| && spec.timing[|p| - 1][c][r].cmd == c && !spec.timing[|p| - 1][c][r].sibling
    requires LegalAt(spec, p, h)
    ensures Spaced(Issues(p, c, h), spec.timing[|p| - 1][c][r].dist, spec.timing[|p| - 1][c][r].val)
    decreases |h|
  {
    if h != [] {
      var e, init := h[|h| - 1], h[..|h| - 1];
      LegalIsSpaced(spec, p, c, r, init);
      var t, before := spec.timing[|p| - 1][c][r], Issues(p, c, init);
      assert spec.ValidEntry(t);
      if e.cmd == c && IsTarget(p, e.addr) {
        assert NodeAllows(spec, p, c, init, e.clk);
        assert RowAllows(t, before, SiblingIssues(p, c, init), e.clk);
      }
    }
  }

  /** Activation windows: on every run of accepted commands, at most `dist` issues of a command fall in
      any `val` cycles at a node whose table holds that self-rule. */
  lemma WindowBound(spec: Spec, p: Path, c: nat, r: nat, h: seq<Event>, lo: int)
    requires spec.Valid() && |p| <= |spec.timing| && c < spec.numCmds && |p| - 1 <= spec.scope[c]
    requires r < |spec.timing[|p| - 1][c]| && spec.timing[|p| - 1][c][r].cmd == c && !spec.timing[|p| - 1][c][r].sibling
    requires LegalAt(spec, p, h) && Chronological(h)
    ensures var t := spec.timing[|p| - 1][c][r]; CountIn(Issues(p, c, h), lo, lo + t.val) <= t.dist
  {
    var t, times := spec.timing[|p| - 1][c][r], Issues(p, c, h);
    assert spec.ValidEntry(t);
    LegalIsSpaced(spec, p, c, r, h);
    IssuesSorted(p, c, h, if h == [] then 0 else h[|h| - 1].clk);
    SpacedCount(times, t.dist, t.val, lo);
  }

  // --- Spacings between two commands. ---

  // Between a command `c` at the node and any later `q` there are at least `v` cycles.
  ghost predicate Apart(p: Path, c: nat, q: nat, v: int, h: seq<Event>) {
    forall i, j | 0 <= i < j < |h| && IsAt(h[i], c, p) && IsAt(h[j], q, p) :: h[i].clk + v <= h[j].clk
  }

  // The same when the first of them was at a sibling of the node.
  ghost predicate ApartFromSiblings(p: Path, c: nat, q: nat, v: int, h: seq<Event>) {
    forall i, j | 0 <= i < j < |h| && IsBeside(h[i], c, p) && IsAt(h[j], q, p) :: h[i].clk + v <= h[j].clk
  }

  predicate IsAt(e: Event, c: nat, p: Path) { e.cmd == c && IsTarget(p, e.addr) }

  predicate IsBeside(e: Event, c: nat, p: Path) { e.cmd == c && IsSibling(p, e.addr) }

  // The most recent issue is no earlier than any other.
  lemma {:induction false} LastIssue(p: Path, c: nat, h: seq<Event>, i: nat)
    requires Chronological(h) && i < |h| && IsAt(h[i], c, p)
    ensures var own := Issues(p, c, h); |own| > 0 && h[i].clk <= own[|own| - 1]
  {
    var n := |h| - 1;
    if i < n {
      if h[n].cmd == c && IsTarget(p, h[n].addr) {
        NotBefore(h, i);
      } else {
        LastIssue(p, c, h[..n], i);
      }
    }
  }

  lemma {:induction false} NotBefore(h: seq<Event>, i: nat)
    requires Chronological(h) && i < |h|
    ensures h[i].clk <= h[|h| - 1].clk
  {
    if i < |h| - 1 { NotBefore(h[..|h| - 1], i); }
  }

  lemma {:induction false} SiblingIssued(p: Path, c: nat, h: seq<Event>, i: nat) returns (k: nat)
    requires i < |h| && IsBeside(h[i], c, p)
    ensures k < |SiblingIssues(p, c, h)| && SiblingIssues(p, c, h)[k] == h[i].clk
  {
    var n := |h| - 1;
    if i < n {
      k := SiblingIssued(p, c, h[..n], i);
    } else {
      k := |SiblingIssues(p, c, h)| - 1;
    }
  }

  /** A rule of distance one keeps its two commands apart on every run of accepted commands, provided the second one
      is checked as far down as the node. */
  lemma {:induction false} RuleKeepsApart(spec: Spec, p: Path, c: nat, r: nat, h: seq<Event>)
    requires spec.Valid() && |p| <= |spec.timing| && c < spec.numCmds && r < |spec.timing[|p| - 1][c]|
    requires var t := spec.timing[|p| - 1][c][r]; t.dist == 1 && |p| - 1 <= spec.scope[t.cmd]
    requires LegalAt(spec, p, h) && Chronological(h)
    ensures var t := spec.timing[|p| - 1][c][r];
            if t.sibling then ApartFromSiblings(p, c, t.cmd, t.val, h) else Apart(p, c, t.cmd, t.val, h)
    decreases |h|
  {
    if h != [] {
      var n, t := |h| - 1, spec.timing[|p| - 1][c][r];
      var e, before := h[n], h[..n];
      RuleKeepsApart(spec, p, c, r, before);
      if IsAt(e, t.cmd, p) {
        assert NodeAllows(spec, p, t.cmd, before, e.clk);
        assert RowAllows(t, Issues(p, c, before), SiblingIssues(p, c, before), e.clk);
      }
      forall i, j | 0 <= i < j < |h| && IsAt(h[j], t.cmd, p)
        ensures !t.sibling && IsAt(h[i], c, p) ==> h[i].clk + t.val <= h[j].clk
        ensures t.sibling && IsBeside(h[i], c, p) ==> h[i].clk + t.val <= h[j].clk
      {
        assert h[i] == before[i];
        if j < n {
          assert h[j] == before[j];
        } else if !t.sibling && IsAt(h[i], c, p) {
          LastIssue(p, c, before, i);
        } else if t.sibling && IsBeside(h[i], c, p) {
          var k := SiblingIssued(p, c, before, i);
        }
      }
    }
  }
}
