/** The DRAM timing rules, stated over the full history of issued commands.

    A standard (DDR4, GDDR5, DSARP) fills in a table: for each level of the tree and each command, the
    list of later commands it delays, by how many cycles, counted from its `dist`-th most recent issue,
    and whether the delay applies to the addressed node or to its siblings.

    Nodes are named by their path of ids from the channel down. */
module TimingHistory {

  datatype Entry = Entry(cmd: nat, dist: int, val: int, sibling: bool)

  datatype Spec = Spec(numCmds: nat, timing: seq<seq<seq<Entry>>>, scope: seq<nat>) {
    predicate Valid() {
      && |scope| == numCmds
      && (forall l | 0 <= l < |timing| :: |timing[l]| == numCmds)
      && (forall l, c, k | 0 <= l < |timing| && 0 <= c < numCmds && 0 <= k < |timing[l][c]| ::
            ValidEntry(timing[l][c][k]))
    }

    predicate ValidEntry(t: Entry) {
      t.cmd < numCmds && t.dist >= 1 && (t.sibling ==> t.dist == 1)
    }
  }

  datatype Event = Event(cmd: nat, addr: seq<int>, clk: nat)

  type Path = p: seq<int> | |p| > 0 witness [0]

  // A command is aimed at every node whose path is a prefix of its address ...
  predicate IsTarget(p: Path, addr: seq<int>) { p <= addr }

  // ... and the other children of the parent of such a node are that node's siblings.
  predicate IsSibling(p: Path, addr: seq<int>) {
    |p| <= |addr| && p[..|p| - 1] <= addr && p[|p| - 1] != addr[|p| - 1]
  }

  // The clocks, oldest first, at which `c` was issued to node `p`.
  function Issues(p: Path, c: nat, h: seq<Event>): seq<nat> {
    if h == [] then [] else
      var e := h[|h| - 1];
      Issues(p, c, h[..|h| - 1]) + if e.cmd == c && IsTarget(p, e.addr) then [e.clk] else []
  }

  // The clocks, oldest first, at which `c` was issued to a sibling of node `p`.
  function SiblingIssues(p: Path, c: nat, h: seq<Event>): seq<nat> {
    if h == [] then [] else
      var e := h[|h| - 1];
      SiblingIssues(p, c, h[..|h| - 1]) + if e.cmd == c && IsSibling(p, e.addr) then [e.clk] else []
  }

  // What one table row demands of node `p` for its command to issue at `clk`.
  predicate RowAllows(t: Entry, own: seq<nat>, siblings: seq<nat>, clk: int) {
    if t.sibling then forall k | 0 <= k < |siblings| :: siblings[k] + t.val <= clk
    else 1 <= t.dist <= |own| ==> own[|own| - t.dist] + t.val <= clk
  }

  predicate RowsAllow(row: seq<Entry>, q: nat, own: seq<nat>, siblings: seq<nat>, clk: int) {
    forall k | 0 <= k < |row| && row[k].cmd == q :: RowAllows(row[k], own, siblings, clk)
  }

  // The naive checker at one node: every table row of that level, against the whole history.
  ghost predicate NodeAllows(spec: Spec, p: Path, q: nat, h: seq<Event>, clk: int)
    requires spec.Valid() && |p| <= |spec.timing|
  {
    forall c | 0 <= c < spec.numCmds ::
      RowsAllow(spec.timing[|p| - 1][c], q, Issues(p, c, h), SiblingIssues(p, c, h), clk)
  }

  // Clocks never decrease.
  predicate Chronological(h: seq<Event>) {
    |h| < 2 || (Chronological(h[..|h| - 1]) && h[|h| - 2].clk <= h[|h| - 1].clk)
  }

  // --- The index kept by the tree: a window of recent issues and one earliest clock per command. ---

  function Max(a: int, b: int): int { if a >= b then a else b }

  // The constructor's history length: the largest distance in a row of the table.
  function MaxDist(row: seq<Entry>): nat {
    if row == [] then 0 else Max(MaxDist(row[..|row| - 1]), row[|row| - 1].dist)
  }

  lemma MaxDistBounds(row: seq<Entry>, k: nat)
    requires k < |row|
    ensures row[k].dist <= MaxDist(row)
  {
    if k < |row| - 1 { MaxDistBounds(row[..|row| - 1], k); }
  }

  // Newest first, padded with -1.
  function Window(times: seq<nat>, d: nat): (w: seq<int>)
    ensures |w| == d
  {
    seq(d, k requires 0 <= k < d => if k < |times| then times[|times| - 1 - k] as int else -1)
  }

  // Pushing a new issue on the front and dropping the oldest entry keeps the window up to date.
  lemma WindowPush(times: seq<nat>, now: nat, d: nat)
    ensures Window(times + [now], d) == if d == 0 then [] else [now] + Window(times, d)[..d - 1]
  {}

  // Raises the earliest clock of `q` by the rows that apply to the addressed node.
  function RaiseOwn(base: int, row: seq<Entry>, q: nat, w: seq<int>): int
    requires forall k | 0 <= k < |row| :: 1 <= row[k].dist && (!row[k].sibling ==> row[k].dist <= |w|)
  {
    if row == [] then base else
      var t := row[|row| - 1];
      var r := RaiseOwn(base, row[..|row| - 1], q, w);
      if !t.sibling && t.cmd == q && w[t.dist - 1] >= 0 then Max(r, w[t.dist - 1] + t.val) else r
  }

  // Raises the earliest clock of `q` by the rows that apply to a sibling of the addressed node.
  function RaiseSibling(base: int, row: seq<Entry>, q: nat, clk: nat): int {
    if row == [] then base else
      var t := row[|row| - 1];
      var r := RaiseSibling(base, row[..|row| - 1], q, clk);
      if t.sibling && t.cmd == q then Max(r, clk + t.val) else r
  }

  predicate Covers(row: seq<Entry>, d: nat) {
    forall k | 0 <= k < |row| :: 1 <= row[k].dist <= d
  }

  lemma MaxDistCovers(spec: Spec, l: nat, c: nat)
    requires spec.Valid() && l < |spec.timing| && c < spec.numCmds
    ensures Covers(spec.timing[l][c], MaxDist(spec.timing[l][c]))
  {
    var row := spec.timing[l][c];
    forall k | 0 <= k < |row| ensures 1 <= row[k].dist <= MaxDist(row) {
      assert spec.ValidEntry(row[k]);
      MaxDistBounds(row, k);
    }
  }

  // The earliest clock of command `q` at node `p` after history `h`.
  function Earliest(spec: Spec, p: Path, q: nat, h: seq<Event>): int
    requires spec.Valid() && |p| <= |spec.timing|
    decreases |h|
  {
    if h == [] then -1 else
      var e := h[|h| - 1];
      var before := Earliest(spec, p, q, h[..|h| - 1]);
      if e.cmd >= spec.numCmds then before else
      var row := spec.timing[|p| - 1][e.cmd];
      if IsTarget(p, e.addr) then
        MaxDistCovers(spec, |p| - 1, e.cmd);
        RaiseOwn(before, row, q, Window(Issues(p, e.cmd, h), MaxDist(row)))
      else if IsSibling(p, e.addr) then RaiseSibling(before, row, q, e.clk)
      else before
  }

  // What an event does to the registers of a node it addresses.
  lemma TargetEvent(spec: Spec, p: Path, h: seq<Event>, e: Event)
    requires spec.Valid() && |p| <= |spec.timing| && e.cmd < spec.numCmds && IsTarget(p, e.addr)
    ensures var row := spec.timing[|p| - 1][e.cmd];
            var w := Window(Issues(p, e.cmd, h) + [e.clk], MaxDist(row));
            && Covers(row, |w|)
            && (forall c | 0 <= c < spec.numCmds ::
                  Earliest(spec, p, c, h + [e]) == RaiseOwn(Earliest(spec, p, c, h), row, c, w))
    ensures forall c :: Issues(p, c, h + [e]) == Issues(p, c, h) + if c == e.cmd then [e.clk] else []
  {
    assert (h + [e])[..|h|] == h;
    MaxDistCovers(spec, |p| - 1, e.cmd);
  }

  // --- The index answers as the naive checker does. ---

  lemma {:induction false} RaiseOwnBound(base: int, row: seq<Entry>, q: nat, w: seq<int>, x: int)
    requires forall k | 0 <= k < |row| :: 1 <= row[k].dist && (!row[k].sibling ==> row[k].dist <= |w|)
    ensures RaiseOwn(base, row, q, w) <= x <==>
            base <= x && forall k | 0 <= k < |row| ::
              !row[k].sibling && row[k].cmd == q && w[row[k].dist - 1] >= 0 ==> w[row[k].dist - 1] + row[k].val <= x
  {
    if row != [] {
      var init := row[..|row| - 1];
      RaiseOwnBound(base, init, q, w, x);
      assert forall k | 0 <= k < |init| :: row[k] == init[k];
    }
  }

  lemma {:induction false} RaiseSiblingBound(base: int, row: seq<Entry>, q: nat, clk: nat, x: int)
    ensures RaiseSibling(base, row, q, clk) <= x <==>
            base <= x && forall k | 0 <= k < |row| :: row[k].sibling && row[k].cmd == q ==> clk + row[k].val <= x
  {
    if row != [] {
      var init := row[..|row| - 1];
      RaiseSiblingBound(base, init, q, clk, x);
      assert forall k | 0 <= k < |init| :: row[k] == init[k];
    }
  }

  predicate Sorted(s: seq<nat>) {
    forall i, j | 0 <= i < j < |s| :: s[i] <= s[j]
  }

  lemma {:induction false} IssuesSorted(p: Path, c: nat, h: seq<Event>, bound: nat)
    requires Chronological(h) && (h != [] ==> h[|h| - 1].clk <= bound)
    ensures Sorted(Issues(p, c, h))
    ensures forall i | 0 <= i < |Issues(p, c, h)| :: Issues(p, c, h)[i] <= bound
  {
    if h != [] {
      IssuesSorted(p, c, h[..|h| - 1], h[|h| - 1].clk);
    }
  }

  /** At one node, the earliest clock kept by the tree is at most `clk` exactly when every rule of the
      table, read against the full history, allows the command at `clk`. */
  lemma {:induction false} EarliestIsNaive(spec: Spec, p: Path, q: nat, h: seq<Event>, clk: nat)
    requires spec.Valid() && |p| <= |spec.timing| && Chronological(h)
    ensures Earliest(spec, p, q, h) <= clk <==> NodeAllows(spec, p, q, h, clk)
    decreases |h|
  {
    if h != [] {
      var e, init := h[|h| - 1], h[..|h| - 1];
      EarliestIsNaive(spec, p, q, init, clk);
      if e.cmd < spec.numCmds && IsTarget(p, e.addr) {
        OwnStep(spec, p, q, h, clk);
      } else if e.cmd < spec.numCmds && IsSibling(p, e.addr) {
        SiblingStep(spec, p, q, h, clk);
      } else {
        assert forall c | 0 <= c < spec.numCmds ::
          Issues(p, c, h) == Issues(p, c, init) && SiblingIssues(p, c, h) == SiblingIssues(p, c, init);
      }
    }
  }

  lemma OwnStep(spec: Spec, p: Path, q: nat, h: seq<Event>, clk: nat)
    requires spec.Valid() && |p| <= |spec.timing| && Chronological(h) && h != []
    requires h[|h| - 1].cmd < spec.numCmds && IsTarget(p, h[|h| - 1].addr)
    requires Earliest(spec, p, q, h[..|h| - 1]) <= clk <==> NodeAllows(spec, p, q, h[..|h| - 1], clk)
    ensures Earliest(spec, p, q, h) <= clk <==> NodeAllows(spec, p, q, h, clk)
  {
    var e, init := h[|h| - 1], h[..|h| - 1];
    var row, own := spec.timing[|p| - 1][e.cmd], Issues(p, e.cmd, h);
    MaxDistCovers(spec, |p| - 1, e.cmd);
    RaiseOwnBound(Earliest(spec, p, q, init), row, q, Window(own, MaxDist(row)), clk);
    IssuesSorted(p, e.cmd, h, e.clk);
    NewIssue(row, q, Issues(p, e.cmd, init), e.clk, SiblingIssues(p, e.cmd, h), clk);
    forall c | 0 <= c < spec.numCmds
      ensures SiblingIssues(p, c, h) == SiblingIssues(p, c, init)
      ensures c != e.cmd ==> Issues(p, c, h) == Issues(p, c, init)
    {}
  }

  // Because clocks never decrease, a new issue only tightens what the older ones demanded.
  lemma NewIssue(row: seq<Entry>, q: nat, before: seq<nat>, now: nat, siblings: seq<nat>, clk: nat)
    requires Covers(row, MaxDist(row)) && Sorted(before + [now])
    ensures var own := before + [now];
            var w := Window(own, MaxDist(row));
            RowsAllow(row, q, own, siblings, clk) <==>
            RowsAllow(row, q, before, siblings, clk) &&
            forall k | 0 <= k < |row| ::
              !row[k].sibling && row[k].cmd == q && w[row[k].dist - 1] >= 0 ==> w[row[k].dist - 1] + row[k].val <= clk
  {
    var own := before + [now];
    var w := Window(own, MaxDist(row));
    forall k | 0 <= k < |row| && row[k].cmd == q
      ensures RowAllows(row[k], own, siblings, clk) <==>
              RowAllows(row[k], before, siblings, clk) &&
              (!row[k].sibling && w[row[k].dist - 1] >= 0 ==> w[row[k].dist - 1] + row[k].val <= clk)
    {
      hide Window, MaxDist, RowAllows;
      NewIssueEntry(row[k], before, now, siblings, clk, MaxDist(row));
    }
  }

  // The same for one row: the issue `dist` back is now one later, or has only now come to be.
  lemma NewIssueEntry(t: Entry, before: seq<nat>, now: nat, siblings: seq<nat>, clk: nat, n: nat)
    requires Sorted(before + [now]) && 1 <= t.dist <= n
    ensures var own := before + [now];
            var w := Window(own, n);
            |w| == n && (RowAllows(t, own, siblings, clk) <==>
                         RowAllows(t, before, siblings, clk) &&
                         (!t.sibling && w[t.dist - 1] >= 0 ==> w[t.dist - 1] + t.val <= clk))
  {
    var own, d := before + [now], t.dist;
    if !t.sibling && d <= |own| {
      assert Window(own, n)[d - 1] == own[|own| - d];
      if d <= |before| {
        assert before[|before| - d] == own[|own| - d - 1] <= own[|own| - d];
      }
    }
  }

  lemma SiblingStep(spec: Spec, p: Path, q: nat, h: seq<Event>, clk: nat)
    requires spec.Valid() && |p| <= |spec.timing| && h != []
    requires h[|h| - 1].cmd < spec.numCmds && IsSibling(p, h[|h| - 1].addr)
    requires Earliest(spec, p, q, h[..|h| - 1]) <= clk <==> NodeAllows(spec, p, q, h[..|h| - 1], clk)
    ensures Earliest(spec, p, q, h) <= clk <==> NodeAllows(spec, p, q, h, clk)
  {
    var e, init := h[|h| - 1], h[..|h| - 1];
    var row := spec.timing[|p| - 1][e.cmd];
    RaiseSiblingBound(Earliest(spec, p, q, init), row, q, e.clk, clk);
    NewSiblingIssue(row, q, Issues(p, e.cmd, h), SiblingIssues(p, e.cmd, init), e.clk, clk);
    forall c | 0 <= c < spec.numCmds
      ensures Issues(p, c, h) == Issues(p, c, init)
      ensures c != e.cmd ==> SiblingIssues(p, c, h) == SiblingIssues(p, c, init)
    {}
  }

  lemma NewSiblingIssue(row: seq<Entry>, q: nat, own: seq<nat>, before: seq<nat>, now: nat, clk: nat)
    ensures RowsAllow(row, q, own, before + [now], clk) <==>
            RowsAllow(row, q, own, before, clk) &&
            forall k | 0 <= k < |row| :: row[k].sibling && row[k].cmd == q ==> now + row[k].val <= clk
  {
    var all := before + [now];
    forall k | 0 <= k < |row| && row[k].cmd == q
      ensures RowAllows(row[k], own, all, clk) <==>
              RowAllows(row[k], own, before, clk) && (row[k].sibling ==> now + row[k].val <= clk)
    {
      assert all[|before|] == now;
      assert forall i | 0 <= i < |before| :: before[i] == all[i];
    }
  }
}
