/** The counters of requests in service: one running count and two accumulated sums per node of the tree. */
module ServingCounters {
  import opened TimingHistory

  // A request starts (+1) or finishes (-1) being served on the nodes of its address.
  datatype Change = Change(addr: seq<int>, delta: int, clk: nat)

  // What a node keeps; `begin` is the clock of its last change and `since` that at which it last became active.
  datatype Counter = Counter(cur: int, begin: int, since: int, requests: int, active: int)

  const IDLE := Counter(0, -1, -1, 0, 0)

  // One change at a node, statement by statement.
  function Step(c: Counter, delta: int, clk: int): Counter {
    var summed := if c.begin != -1 && c.cur > 0
                  then c.(requests := c.requests + (clk - c.begin) * c.cur,
                      active := c.active + (clk - c.begin)) else c;
    var d := summed.(begin := clk, cur := c.cur + delta);
    if delta == 1 && d.cur == 1 then d.(since := clk)
    else if d.cur == 0 then d.(active := d.active + (clk - d.begin))
    else d
  }

  // The counter of node `p` after the changes of `h`.
  function CounterOf(p: Path, h: seq<Change>): Counter {
    if h == [] then IDLE else
      var e := h[|h| - 1];
      var c := CounterOf(p, h[..|h| - 1]);
      if IsTarget(p, e.addr) then Step(c, e.delta, e.clk) else c
  }

  // --- The meaning, cycle by cycle. ---

  // The requests in service at node `p` in cycle `t`: those started and not finished by then.
  function At(p: Path, h: seq<Change>, t: int): int {
    if h == [] then 0 else
      var e := h[|h| - 1];
      At(p, h[..|h| - 1], t) + if IsTarget(p, e.addr) && e.clk <= t then e.delta else 0
  }

  // The requests in service now.
  function Net(p: Path, h: seq<Change>): int {
    if h == [] then 0 else
      var e := h[|h| - 1];
      Net(p, h[..|h| - 1]) + if IsTarget(p, e.addr) then e.delta else 0
  }

  // Summed over the cycles before `t`.
  function RequestCycles(p: Path, h: seq<Change>, t: int): int
    decreases t
  {
    if t <= 0 then 0 else RequestCycles(p, h, t - 1) + At(p, h, t - 1)
  }

  // The cycles before `t` with a request in service.
  function ActiveCycles(p: Path, h: seq<Change>, t: int): int
    decreases t
  {
    if t <= 0 then 0 else ActiveCycles(p, h, t - 1) + if At(p, h, t - 1) > 0 then 1 else 0
  }

  predicate Timely(h: seq<Change>) {
    |h| < 2 || (Timely(h[..|h| - 1]) && h[|h| - 2].clk <= h[|h| - 1].clk)
  }

  // At no time had more requests finished than started, at node `p`; every change is by one.
  predicate Balanced(p: Path, h: seq<Change>) {
    h == [] || (Balanced(p, h[..|h| - 1]) && Net(p, h) >= 0 && (h[|h| - 1].delta == 1 || h[|h| - 1].delta == -1))
  }

  function LastChange(h: seq<Change>): int {
    if h == [] then -1 else h[|h| - 1].clk
  }

  // From the last change on, the count of a cycle is the present one.
  lemma {:induction false} Settled(p: Path, h: seq<Change>, t: int)
    requires Timely(h) && LastChange(h) <= t
    ensures At(p, h, t) == Net(p, h)
  {
    if h != [] { Settled(p, h[..|h| - 1], t); }
  }

  // The changes off the node, and those at the node after a cycle, do not matter to that cycle.
  lemma {:induction false} SettledFrom(p: Path, h: seq<Change>, t: int)
    requires Timely(h) && CounterOf(p, h).begin <= t
    ensures At(p, h, t) == Net(p, h)
  {
    if h != [] {
      var e := h[|h| - 1];
      if IsTarget(p, e.addr) { Settled(p, h, t); } else { SettledFrom(p, h[..|h| - 1], t); }
    }
  }

  lemma {:induction false} BeginBounds(p: Path, h: seq<Change>)
    requires Timely(h)
    ensures -1 <= CounterOf(p, h).begin <= LastChange(h) && (CounterOf(p, h).begin == -1 ==> Net(p, h) == 0)
  {
    if h != [] { BeginBounds(p, h[..|h| - 1]); }
  }

  // One more change does not alter the cycles before it, nor those of a node that it is not aimed at.
  lemma {:induction false} SumsKeep(p: Path, h: seq<Change>, e: Change, t: int)
    requires t <= e.clk || !IsTarget(p, e.addr)
    ensures RequestCycles(p, h + [e], t) == RequestCycles(p, h, t)
        && ActiveCycles(p, h + [e], t) == ActiveCycles(p, h, t)
    decreases t
  {
    if t > 0 {
      SumsKeep(p, h, e, t - 1);
      assert (h + [e])[..|h|] == h;
    }
  }

  // Over a stretch without changes the sums grow by its length.
  lemma {:induction false} SumsGrow(p: Path, h: seq<Change>, from: int, till: int)
    requires Timely(h) && CounterOf(p, h).begin <= from && 0 <= from <= till
    ensures RequestCycles(p, h, till) == RequestCycles(p, h, from) + (till - from) * Net(p, h)
    ensures ActiveCycles(p, h, till) == ActiveCycles(p, h, from) + if Net(p, h) > 0 then till - from else 0
    decreases till - from
  {
    if from < till {
      SumsGrow(p, h, from, till - 1);
      SettledFrom(p, h, till - 1);
      assert (till - from) * Net(p, h) == (till - 1 - from) * Net(p, h) + Net(p, h);
    }
  }

  lemma {:induction false} CountIsNet(p: Path, h: seq<Change>)
    requires Timely(h) && Balanced(p, h)
    ensures var c := CounterOf(p, h); c.cur == Net(p, h) >= 0 && (c.cur > 0 ==> c.begin != -1 && c.since != -1)
  {
    if h != [] {
      CountIsNet(p, h[..|h| - 1]);
      BeginBounds(p, h[..|h| - 1]);
    }
  }

  /** At every change the two accumulated sums are the per-cycle sums up to that clock, and the running count is
      the number of requests started and not finished; a node in service has been marked as active. */
  lemma {:induction false} CountersAreSums(p: Path, h: seq<Change>)
    requires Timely(h) && Balanced(p, h)
    ensures var c := CounterOf(p, h);
            && c.cur == Net(p, h) >= 0 && (c.cur > 0 ==> c.since != -1)
            && c.requests == RequestCycles(p, h, c.begin) && c.active == ActiveCycles(p, h, c.begin)
  {
    CountIsNet(p, h);
    if h != [] {
      var n := |h| - 1;
      var was, e := h[..n], h[n];
      assert h == was + [e];
      CountersAreSums(p, was);
      CountIsNet(p, was);
      BeginBounds(p, was);
      var c := CounterOf(p, was);
      if IsTarget(p, e.addr) {
        SumsKeep(p, was, e, e.clk);
        if c.begin == -1 {
          SumsGrow(p, was, 0, e.clk);
          assert Net(p, was) == 0 && c.requests == c.active == 0;
        } else {
          SumsGrow(p, was, c.begin, e.clk);
        }
        StepSums(c, e, RequestCycles(p, h, e.clk), ActiveCycles(p, h, e.clk));
      } else {
        SumsKeep(p, was, e, c.begin);
      }
    }
  }

  // What a change adds to the sums.
  lemma StepSums(c: Counter, e: Change, requests: int, active: int)
    requires c.cur >= 0 && (c.begin == -1 ==> c.cur == 0)
    requires requests == c.requests + if c.cur > 0 then (e.clk - c.begin) * c.cur else 0
    requires active == c.active + if c.cur > 0 then e.clk - c.begin else 0
    ensures var c' := Step(c, e.delta, e.clk); c'.begin == e.clk && c'.requests == requests && c'.active == active
  {}

  // The count after one more change, and whether it may be made.
  lemma OneMoreChange(p: Path, h: seq<Change>, e: Change)
    ensures CounterOf(p, h + [e]) == if IsTarget(p, e.addr) then Step(CounterOf(p, h), e.delta, e.clk)
        else CounterOf(p, h)
    ensures Net(p, h + [e]) == Net(p, h) + if IsTarget(p, e.addr) then e.delta else 0
    ensures Balanced(p, h) && Net(p, h + [e]) >= 0 && (e.delta == 1 || e.delta == -1) ==> Balanced(p, h + [e])
    ensures Timely(h) && LastChange(h) <= e.clk ==> Timely(h + [e])
  {
    assert (h + [e])[..|h|] == h;
  }
}
