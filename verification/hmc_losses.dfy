/** How many tags a link can lose: a bound on every run, and a run that reaches it. */
module HmcLosses {
  import opened BitArithmetic
  import A = HmcAddress
  import opened Places
  import opened HmcStages
  import opened HmcTags
  import opened HmcSystem
  import opened HmcMemory
  import opened HmcRuns

  // A tag is lost only while this many packets, each with a tag of its own, wait at the link.
  function Reserve(c: Config): nat {
    if c.payload < LINK_BUFFER then LINK_BUFFER - c.payload else 0
  }

  /** The most tags that a link can lose. */
  function MostLost(c: Config): nat {
    if c.maxTags > Reserve(c) then c.maxTags - Reserve(c) else 0
  }

  // --- The bound. ---

  // The unanswered requests of a link, as a set.
  ghost function LiveIds(stage: seq<Stage>, meta: seq<Packet>, s: nat): (ids: set<int>)
    requires |stage| == |meta|
    ensures |ids| == InFlight(stage, meta, s) && forall k :: k in ids <==> 0 <= k && Live(stage, meta, k, s)
  {
    if stage == [] then {} else
      var n := |stage| - 1;
      LiveIds(stage[..n], meta[..n], s) + if stage[n] != Done && meta[n].slid == s then {n} else {}
  }

  /** The packets that wait at a link are unanswered requests of it, each another one. */
  lemma QueuedAreLive(c: Config, st: State, s: nat)
    requires Inv(c, st) && s < c.links
    ensures |st.links[s].input| <= InFlight(st.stage, st.meta, s)
  {
    var l := st.links[s];
    assert LinkOk(l, s, st.stage, st.meta);
    var ids: seq<int> := PacketIds(l.input);
    Count(ids);
    forall x | x in ids ensures x in LiveIds(st.stage, st.meta, s) {
      var i :| 0 <= i < |ids| && ids[i] == x;
      assert l.input[i].slid == s && st.stage[x] == Arriving(s);
    }
    SubsetCount(Elements(ids), LiveIds(st.stage, st.meta, s));
  }

  lemma LossStep(c: Config, m: A.Map, st: State, step: Step, s: nat)
    requires Cube(c, m, st) && s < c.links && |st.lost[s]| <= MostLost(c)
    ensures |After(c, m, st, step).lost[s]| <= MostLost(c)
  {
    hide Inv, After;
    InvShape(c, st);
    StepKeeps(c, m, st, step, s);
    if Loses(c, m, st, step, s) {
      QueuedAreLive(c, st, s);
      TagBalance(c, st, s);
    }
  }

  lemma {:induction false} LossBoundFrom(c: Config, m: A.Map, st: State, steps: seq<Step>, s: nat)
    requires Cube(c, m, st) && s < c.links && |st.lost[s]| <= MostLost(c)
    ensures |Run(c, m, st, steps).lost[s]| <= MostLost(c)
  {
    hide Inv, After;
    if steps != [] {
      LossBoundFrom(c, m, st, steps[..|steps| - 1], s);
      LossStep(c, m, Run(c, m, st, steps[..|steps| - 1]), steps[|steps| - 1], s);
    }
  }

  /** On every run of a new cube, a link keeps at least 32 less the payload of its tags, if it has that many. */
  lemma LossBound(c: Config, m: A.Map, steps: seq<Step>, s: nat)
    requires Cube(c, m, New(c)) && s < c.links
    ensures |Run(c, m, New(c), steps).lost[s]| <= MostLost(c)
  {
    LossBoundFrom(c, m, New(c), steps, s);
  }

  // --- A run that reaches it: reads until a write no longer fits, and then writes. ---

  function Sends(n: nat, write: bool, address: int): (steps: seq<Step>)
    ensures |steps| == n && forall i | 0 <= i < n :: steps[i] == Send(write, address)
  {
    seq(n, i => Send(write, address))
  }

  lemma RunStep(c: Config, m: A.Map, st: State, steps: seq<Step>, step: Step)
    requires Cube(c, m, st)
    ensures Run(c, m, st, steps + [step]) == After(c, m, Run(c, m, st, steps), step)
  {
    assert (steps + [step])[..|steps|] == steps;
  }

  // What a link holds after so many accepted and so many refused requests.
  ghost predicate Filled(c: Config, st: State, s: nat, queued: nat, gone: nat)
    requires Shape(c, st) && s < c.links
  {
    && |st.links[s].input| == queued && |st.lost[s]| == gone && |st.pools[s]| + queued + gone == c.maxTags
  }

  lemma {:induction false} Reads(c: Config, m: A.Map, address: int, n: nat)
    requires Cube(c, m, New(c)) && n <= Reserve(c) && n <= c.maxTags
    ensures Shape(c, Run(c, m, New(c), Sends(n, false, address)))
    ensures Filled(c, Run(c, m, New(c), Sends(n, false, address)), LinkOf(c, m, address), n, 0)
  {
    hide Inv, Cube, Run, LinkOf;
    if n == 0 {
      RunNone(c, m, New(c));
      assert Sends(n, false, address) == [];
    } else {
      Reads(c, m, address, n - 1);
      var was := Run(c, m, New(c), Sends(n - 1, false, address));
      assert Sends(n, false, address) == Sends(n - 1, false, address) + [Send(false, address)];
      RunStep(c, m, New(c), Sends(n - 1, false, address), Send(false, address));
      RunShape(c, m, New(c), Sends(n - 1, false, address));
      SendFits(c, m, was, false, address);
    }
  }

  lemma RunNone(c: Config, m: A.Map, st: State)
    requires Cube(c, m, st)
    ensures Run(c, m, st, []) == st
  {}

  lemma RunShape(c: Config, m: A.Map, st: State, steps: seq<Step>)
    requires Cube(c, m, st)
    ensures Cube(c, m, Run(c, m, st, steps)) && Shape(c, Run(c, m, st, steps))
  {}

  // A request that finds a tag, with or without space.
  lemma SendFits(c: Config, m: A.Map, st: State, write: bool, address: int)
    requires Cube(c, m, st) && Shape(c, st) && st.pools[LinkOf(c, m, address)] != []
    ensures var s, next := LinkOf(c, m, address), After(c, m, st, Send(write, address));
            && Shape(c, next) && |next.pools[s]| == |st.pools[s]| - 1
            && if (if write then 1 + c.payload else 1) > LINK_BUFFER - |st.links[s].input|
               then next.links == st.links && |next.lost[s]| == |st.lost[s]| + 1
               else |next.links[s].input| == |st.links[s].input| + 1 && next.lost == st.lost
  {
    hide Inv, LinkOf;
  }

  lemma {:induction false} Writes(c: Config, m: A.Map, address: int, n: nat)
    requires Cube(c, m, New(c)) && Reserve(c) + n <= c.maxTags
    ensures var steps := Sends(Reserve(c), false, address) + Sends(n, true, address);
            && Shape(c, Run(c, m, New(c), steps))
            && Filled(c, Run(c, m, New(c), steps), LinkOf(c, m, address), Reserve(c), n)
  {
    hide Inv, Cube, Run, LinkOf;
    var first := Sends(Reserve(c), false, address);
    if n == 0 {
      Reads(c, m, address, Reserve(c));
      assert first + Sends(n, true, address) == first;
    } else {
      Writes(c, m, address, n - 1);
      var init := first + Sends(n - 1, true, address);
      assert first + Sends(n, true, address) == init + [Send(true, address)];
      RunStep(c, m, New(c), init, Send(true, address));
      RunShape(c, m, New(c), init);
      SendFits(c, m, Run(c, m, New(c), init), true, address);
    }
  }

  function WorstSteps(c: Config, address: int): (steps: seq<Step>)
    ensures Sound(c, steps)
  {
    if c.maxTags <= Reserve(c) then []
    else Sends(Reserve(c), false, address) + Sends(c.maxTags - Reserve(c), true, address)
  }

  /** The bound is reached. */
  lemma WorstLoss(c: Config, m: A.Map, address: int)
    requires Cube(c, m, New(c))
    ensures Shape(c, Run(c, m, New(c), WorstSteps(c, address)))
    ensures |Run(c, m, New(c), WorstSteps(c, address)).lost[LinkOf(c, m, address)]| == MostLost(c)
  {
    hide Inv, Run, LinkOf;
    RunShape(c, m, New(c), WorstSteps(c, address));
    if c.maxTags <= Reserve(c) {
      RunNone(c, m, New(c));
    } else {
      Writes(c, m, address, c.maxTags - Reserve(c));
    }
  }

  ghost predicate LosesSome(c: Config, m: A.Map, steps: seq<Step>, s: nat)
    requires Cube(c, m, New(c)) && s < c.links
  {
    Run(c, m, New(c), steps).lost[s] != []
  }

  ghost predicate LosesAll(c: Config, m: A.Map, steps: seq<Step>, s: nat)
    requires Cube(c, m, New(c)) && s < c.links
  {
    |Run(c, m, New(c), steps).lost[s]| == c.maxTags
  }

  /** Which cubes lose tags, and which lose them all. Some run loses a tag of a link exactly when the link has more
      tags than packets that must wait; it can lose every tag exactly when a write never fits into the buffer. */
  lemma WhenLost(c: Config, m: A.Map, address: int)
    requires Cube(c, m, New(c)) && c.maxTags > 0
    ensures (exists steps :: LosesSome(c, m, steps, LinkOf(c, m, address))) <==> c.maxTags > Reserve(c)
    ensures (exists steps :: LosesAll(c, m, steps, LinkOf(c, m, address))) <==> c.payload >= LINK_BUFFER
  {
    hide Inv, Run, LinkOf;
    var s := LinkOf(c, m, address);
    WorstLoss(c, m, address);
    if c.maxTags > Reserve(c) { assert LosesSome(c, m, WorstSteps(c, address), s); }
    if c.payload >= LINK_BUFFER { assert LosesAll(c, m, WorstSteps(c, address), s); }
    forall steps
      ensures LosesSome(c, m, steps, s) ==> c.maxTags > Reserve(c)
      ensures LosesAll(c, m, steps, s) ==> c.payload >= LINK_BUFFER
    {
      RunShape(c, m, New(c), steps);
      LossBound(c, m, steps, s);
    }
  }

  lemma {:induction false} RunOn(c: Config, m: A.Map, st: State, steps: seq<Step>, more: seq<Step>)
    requires Cube(c, m, st)
    ensures Run(c, m, st, steps + more) == Run(c, m, Run(c, m, st, steps), more)
    decreases |more|
  {
    hide Inv, After;
    if more == [] {
      assert steps + more == steps;
    } else {
      var n := |more| - 1;
      RunOn(c, m, st, steps, more[..n]);
      assert steps + more == (steps + more[..n]) + [more[n]] && more == more[..n] + [more[n]];
      RunStep(c, m, st, steps + more[..n], more[n]);
      RunStep(c, m, Run(c, m, st, steps), more[..n], more[n]);
    }
  }

  /** Where a write never fits, writes alone starve a link: at every later point of every run its pool is empty, none
      of its requests is under way, and it accepts nothing. */
  lemma Starved(c: Config, m: A.Map, address: int, more: seq<Step>)
    requires Cube(c, m, New(c)) && c.payload >= LINK_BUFFER
    ensures var s, r := LinkOf(c, m, address), Run(c, m, New(c), WorstSteps(c, address) + more);
            && Shape(c, r) && r.pools[s] == [] && InFlight(r.stage, r.meta, s) == 0
            && forall write, a | LinkOf(c, m, a) == s :: After(c, m, r, Send(write, a)) == r
  {
    hide Inv, Run, LinkOf;
    var s, st := LinkOf(c, m, address), Run(c, m, New(c), WorstSteps(c, address));
    WorstLoss(c, m, address);
    RunOn(c, m, New(c), WorstSteps(c, address), more);
    LostForever(c, m, st, more, s);
    var r := Run(c, m, st, more);
    InvShape(c, r);
    TagBalance(c, r, s);
  }

  // --- A cube as it is configured: 4 links, 32 vaults, 2048 tags a link, packets of up to 17 flits. ---

  const CONFIGURED := Config(4, 32, 2048, 32, 8, 16, 21, 4)

  const CONFIGURED_MAP := A.Map(A.RoCoBaVa, 5, 3, 5, 2, 1, 16, 3)

  lemma ConfiguredCube()
    ensures Cube(CONFIGURED, CONFIGURED_MAP, New(CONFIGURED)) && Pow2(CONFIGURED_MAP.vault) == CONFIGURED.vaults
    ensures LinkOf(CONFIGURED, CONFIGURED_MAP, 0) == 0
  {
    hide Inv;
    NewInv(CONFIGURED);
    assert Pow2(1) == 2 && Pow2(2) == 4 && Pow2(3) == 8 && Pow2(4) == 16;
    hide Pow2;
    var p, q := CONFIGURED_MAP.MaxAddress(), Pow2(CONFIGURED_MAP.tx + CONFIGURED_MAP.block);
    DivSmall(0, p);
    DivMod(0, p);
    DivSmall(0, q);
  }

  /** A lost tag: with sixteen reads waiting at a link a write finds a tag and no space. No run loses more than 2032
      of the link's tags. */
  method LosesTag() returns (mem: Memory, accepted: bool)
    ensures mem.Valid() && mem.c == CONFIGURED && !accepted
    ensures |mem.links| == |mem.lost| == |mem.pools| == 4
    ensures |mem.links[0].input| == 16 && |mem.lost[0]| == 1 && |mem.pools[0]| == 2031
    ensures MostLost(CONFIGURED) == 2032
  {
    hide Inv, Run, LinkOf, Pow2, Cube;
    ConfiguredCube();
    Reads(CONFIGURED, CONFIGURED_MAP, 0, 16);
    mem := Drive(CONFIGURED, CONFIGURED_MAP, Sends(16, false, 0));
    accepted := mem.Send(true, 0);
  }
}
