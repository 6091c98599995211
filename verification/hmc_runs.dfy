/** Whole runs of the cube: what every run keeps, and when a tag is lost. */
module HmcRuns {
  import opened BitArithmetic
  import A = HmcAddress
  import opened HmcStages
  import opened HmcTags
  import opened HmcSystem
  import opened HmcMemory

  // A request from a core, a cycle of the crossbar or of a vault, or a link's first response going to the host.
  datatype Step =
    Send(write: bool, address: int) | Crossbar | Cycle(vault: nat, pick: int, served: bool) | Deliver(link: nat)

  ghost predicate Cube(c: Config, m: A.Map, st: State) {
    c.Valid() && m.Valid() && Pow2(m.vault) == c.vaults && Inv(c, st)
  }

  // The link a request goes to.
  ghost function LinkOf(c: Config, m: A.Map, address: int): (s: nat)
    requires c.Valid() && m.Valid()
    ensures s < c.links
  {
    address % m.MaxAddress() / Pow2(m.tx + m.block) % c.links
  }

  ghost function VaultOf(m: A.Map, address: int): nat
    requires m.Valid()
  {
    m.Fields(address);
    m.Decode(address).vault
  }

  /** A request that finds a tag but no space. */
  ghost predicate Loses(c: Config, m: A.Map, st: State, step: Step, s: nat)
    requires Cube(c, m, st) && s < c.links
  {
    && step.Send? && LinkOf(c, m, step.address) == s && st.pools[s] != []
    && (if step.write then 1 + c.payload else 1) > LINK_BUFFER - |st.links[s].input|
  }

  ghost function After(c: Config, m: A.Map, st: State, step: Step): State
    requires Cube(c, m, st)
  {
    match step
    case Send(write, address) =>
      var s := LinkOf(c, m, address);
      if st.pools[s] == [] then st
      else if Loses(c, m, st, step, s) then AfterLose(c, st, s)
      else
        AfterSend(c, st, Packet(|st.stage|, write, address % m.MaxAddress(), VaultOf(m, address), s, st.pools[s][0]))
    case Crossbar => RouteOut(c, RouteIn(c, st, 0, {}), 0, {})
    case Cycle(v, pick, served) => if v < c.vaults then AfterTick(c, st, v, pick, served) else st
    case Deliver(s) => if s < c.links && st.links[s].output != [] then AfterDeliver(c, st, s) else st
  }

  lemma {:induction false} RouteInKeeps(c: Config, st: State, s: nat, used: set<nat>)
    requires c.Valid() && Inv(c, st)
    ensures Inv(c, RouteIn(c, st, s, used)) && RouteIn(c, st, s, used).lost == st.lost
    decreases c.links - s
  {
    hide Inv, AfterTake, TakeOk;
    InvShape(c, st);
    if s < c.links {
      if st.links[s].input == [] || st.links[s].input[0].vault in used || st.links[s].input[0].vault >= c.vaults {
        RouteInKeeps(c, st, s + 1, used);
      } else {
        var p := st.links[s].input[0];
        TakeInv(c, st, s);
        TakeLost(c, st, s);
        var used' := if TakeOk(c, st.vaults[p.vault], p) then used + {p.vault} else used;
        RouteInKeeps(c, AfterTake(c, st, s), s + 1, used');
      }
    }
  }

  lemma TakeLost(c: Config, st: State, s: nat)
    requires Shape(c, st) && s < c.links && st.links[s].input != [] && st.links[s].input[0].vault < c.vaults
    ensures AfterTake(c, st, s).lost == st.lost
  {}

  lemma {:induction false} RouteOutKeeps(c: Config, st: State, v: nat, used: set<nat>)
    requires Inv(c, st)
    ensures Inv(c, RouteOut(c, st, v, used)) && RouteOut(c, st, v, used).lost == st.lost
    decreases c.vaults - v
  {
    hide Inv, AfterRespond, Flits;
    InvShape(c, st);
    if v < c.vaults {
      if st.vaults[v].responses == [] || st.vaults[v].responses[0].slid in used ||
         st.vaults[v].responses[0].slid >= c.links {
        RouteOutKeeps(c, st, v + 1, used);
      } else {
        var r := st.vaults[v].responses[0];
        if Flits(c, r) <= LINK_BUFFER - |st.links[r.slid].output| {
          RespondInv(c, st, v);
          RespondLost(c, st, v);
          RouteOutKeeps(c, AfterRespond(c, st, v), v + 1, used + {r.slid});
        } else {
          RouteOutKeeps(c, st, v + 1, used);
        }
      }
    }
  }

  lemma RespondLost(c: Config, st: State, v: nat)
    requires Shape(c, st) && v < c.vaults && st.vaults[v].responses != []
    ensures AfterRespond(c, st, v).lost == st.lost
  {}

  /** Every step keeps every request in one place and every tag accounted for; and a tag is lost exactly when a
      request finds a tag but no space. A lost tag never comes back. */
  lemma StepKeeps(c: Config, m: A.Map, st: State, step: Step, s: nat)
    requires Cube(c, m, st) && s < c.links
    ensures Inv(c, After(c, m, st, step))
    ensures After(c, m, st, step).lost[s] == st.lost[s] + if Loses(c, m, st, step, s) then [st.pools[s][0]] else []
  {
    hide Inv, Pow2, RouteIn, RouteOut;
    InvShape(c, st);
    match step
    case Send(write, address) => SendKeeps(c, m, st, step);
    case Crossbar =>
      RouteInKeeps(c, st, 0, {});
      RouteOutKeeps(c, RouteIn(c, st, 0, {}), 0, {});
    case Cycle(v, pick, served) =>
      if v < c.vaults { TickInv(c, st, v, pick, served); }
    case Deliver(l) =>
      if l < c.links && st.links[l].output != [] { DeliverInv(c, st, l); }
  }

  lemma SendKeeps(c: Config, m: A.Map, st: State, step: Step)
    requires Cube(c, m, st) && step.Send?
    ensures Inv(c, After(c, m, st, step))
  {
    hide Inv, Pow2;
    InvShape(c, st);
    var s := LinkOf(c, m, step.address);
    m.Fields(step.address);
    if st.pools[s] != [] {
      if Loses(c, m, st, step, s) {
        LoseInv(c, st, s);
      } else {
        var p := Packet(|st.stage|, step.write, step.address % m.MaxAddress(), VaultOf(m, step.address), s,
                        st.pools[s][0]);
        SendInv(c, st, p);
      }
    }
  }

  ghost function Run(c: Config, m: A.Map, st: State, steps: seq<Step>): (r: State)
    requires Cube(c, m, st)
    ensures Inv(c, r)
  {
    if steps == [] then st else
      var r := Run(c, m, st, steps[..|steps| - 1]);
      StepKeeps(c, m, r, steps[|steps| - 1], 0);
      After(c, m, r, steps[|steps| - 1])
  }

  /** Tags are only ever lost: on every run, what is lost stays lost. */
  lemma {:induction false} LostForever(c: Config, m: A.Map, st: State, steps: seq<Step>, s: nat)
    requires Cube(c, m, st) && s < c.links
    ensures st.lost[s] <= Run(c, m, st, steps).lost[s]
  {
    hide Inv, After;
    InvShape(c, st);
    if steps != [] {
      var init := steps[..|steps| - 1];
      LostForever(c, m, st, init, s);
      StepKeeps(c, m, Run(c, m, st, init), steps[|steps| - 1], s);
    }
  }

  // --- Tokens. ---

  // The responses that wait at the links are no longer than a buffer.
  ghost predicate Short(c: Config, st: State) {
    forall s, i | 0 <= s < |st.links| && 0 <= i < |st.links[s].output| ::
      Flits(c, st.links[s].output[i]) <= LINK_BUFFER
  }

  lemma {:induction false} RouteInShort(c: Config, st: State, s: nat, used: set<nat>)
    requires Shape(c, st) && Short(c, st)
    ensures Short(c, RouteIn(c, st, s, used))
    decreases c.links - s
  {
    hide AfterTake, TakeOk, Short;
    if s < c.links {
      if st.links[s].input == [] || st.links[s].input[0].vault in used || st.links[s].input[0].vault >= c.vaults {
        RouteInShort(c, st, s + 1, used);
      } else {
        var p := st.links[s].input[0];
        TakeShort(c, st, s);
        var used' := if TakeOk(c, st.vaults[p.vault], p) then used + {p.vault} else used;
        RouteInShort(c, AfterTake(c, st, s), s + 1, used');
      }
    }
  }

  lemma TakeShort(c: Config, st: State, s: nat)
    requires Shape(c, st) && s < c.links && st.links[s].input != [] && st.links[s].input[0].vault < c.vaults
    requires Short(c, st)
    ensures Shape(c, AfterTake(c, st, s)) && Short(c, AfterTake(c, st, s))
  {}

  lemma {:induction false} RouteOutShort(c: Config, st: State, v: nat, used: set<nat>)
    requires Shape(c, st) && Short(c, st)
    ensures Short(c, RouteOut(c, st, v, used))
    decreases c.vaults - v
  {
    hide AfterRespond, Flits, Short;
    if v < c.vaults {
      if st.vaults[v].responses == [] || st.vaults[v].responses[0].slid in used ||
         st.vaults[v].responses[0].slid >= c.links {
        RouteOutShort(c, st, v + 1, used);
      } else {
        var r := st.vaults[v].responses[0];
        if Flits(c, r) <= LINK_BUFFER - |st.links[r.slid].output| {
          RespondShort(c, st, v);
          RouteOutShort(c, AfterRespond(c, st, v), v + 1, used + {r.slid});
        } else {
          RouteOutShort(c, st, v + 1, used);
        }
      }
    }
  }

  lemma RespondShort(c: Config, st: State, v: nat)
    requires Shape(c, st) && v < c.vaults && st.vaults[v].responses != [] && Short(c, st)
    requires Flits(c, st.vaults[v].responses[0]) <= LINK_BUFFER
    ensures Shape(c, AfterRespond(c, st, v)) && Short(c, AfterRespond(c, st, v))
  {}

  lemma StepShort(c: Config, m: A.Map, st: State, step: Step)
    requires Cube(c, m, st) && Short(c, st)
    ensures Short(c, After(c, m, st, step))
  {
    hide Inv, RouteIn, RouteOut, LinkOf, Flits;
    InvShape(c, st);
    if step.Crossbar? {
      RouteInShort(c, st, 0, {});
      RouteOutShort(c, RouteIn(c, st, 0, {}), 0, {});
    }
  }

  /** A link's master never lacks tokens for a response: it starts with as many as a buffer holds and gives none away,
      and no response of any run is longer. */
  lemma {:induction false} TokensSuffice(c: Config, m: A.Map, steps: seq<Step>)
    requires Cube(c, m, New(c))
    ensures Short(c, Run(c, m, New(c), steps))
  {
    hide Inv, After;
    if steps != [] {
      TokensSuffice(c, m, steps[..|steps| - 1]);
      StepShort(c, m, Run(c, m, New(c), steps[..|steps| - 1]), steps[|steps| - 1]);
    }
  }

  // --- Runs of the cube itself. ---

  // One step of a cube does to it what `After` says.
  method Perform(mem: Memory, step: Step)
    requires mem.Valid() && (step.Cycle? ==> step.vault < mem.c.vaults) && (step.Deliver? ==> step.link < mem.c.links)
    modifies mem
    ensures mem.Valid() && mem.Now() == After(mem.c, mem.map_, old(mem.Now()), step)
  {
    hide Inv, Pow2, RouteIn, RouteOut, AfterTick, AfterDeliver, AfterSend, AfterLose;
    InvShape(mem.c, mem.Now());
    match step {
      case Send(write, address) => var accepted := mem.Send(write, address);
      case Crossbar => mem.SwitchTick();
      case Cycle(v, pick, served) => mem.VaultTick(v, pick, served);
      case Deliver(s) => mem.LinkSend(s);
    }
  }

  // Every vault and every link that a run speaks of is there.
  predicate Sound(c: Config, steps: seq<Step>) {
    forall i | 0 <= i < |steps| ::
      (steps[i].Cycle? ==> steps[i].vault < c.vaults) && (steps[i].Deliver? ==> steps[i].link < c.links)
  }

  lemma NewInv(c: Config)
    requires c.Valid()
    ensures Inv(c, New(c))
  {
    EmptyInv(c, New(c));
  }

  /** A cube that takes the steps of a run from its construction on ends in the state the run ends in. */
  method Drive(c: Config, m: A.Map, steps: seq<Step>) returns (mem: Memory)
    requires c.Valid() && m.Valid() && Pow2(m.vault) == c.vaults && Sound(c, steps)
    ensures fresh(mem) && mem.Valid() && mem.c == c && mem.map_ == m
    ensures Cube(c, m, New(c)) && mem.Now() == Run(c, m, New(c), steps)
  {
    hide Inv, Pow2, After;
    NewInv(c);
    mem := new Memory(c, m);
    for i := 0 to |steps|
      invariant fresh(mem) && mem.Valid() && mem.c == c && mem.map_ == m && mem.Now() == Run(c, m, New(c), steps[..i])
    {
      Perform(mem, steps[i]);
      assert steps[..i + 1][..i] == steps[..i];
    }
    assert steps[..|steps|] == steps;
  }
}
