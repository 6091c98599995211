/** The cube in operation: the host port, the crossbar, the vault controllers and the links back. */
module HmcMemory {
  import opened BitArithmetic
  import A = HmcAddress
  import opened HmcStages
  import opened HmcMoves
  import opened HmcTags
  import opened HmcSystem

  const LINK_BUFFER := 32

  // --- The crossbar, link by link and vault by vault. ---

  /** From links to vaults: each link offers its first packet; a vault that took one takes no other this cycle. */
  ghost function RouteIn(c: Config, st: State, s: nat, used: set<nat>): (r: State)
    requires Shape(c, st)
    ensures Shape(c, r)
    decreases c.links - s
  {
    if s >= c.links then st
    else if st.links[s].input == [] || st.links[s].input[0].vault in used || st.links[s].input[0].vault >= c.vaults then
      RouteIn(c, st, s + 1, used)
    else
      var p := st.links[s].input[0];
      RouteIn(c, AfterTake(c, st, s), s + 1, if TakeOk(c, st.vaults[p.vault], p) then used + {p.vault} else used)
  }

  /** From vaults to links: each vault offers its first response; a link takes one, if it has space. */
  ghost function RouteOut(c: Config, st: State, v: nat, used: set<nat>): (r: State)
    requires Shape(c, st)
    ensures Shape(c, r)
    decreases c.vaults - v
  {
    if v >= c.vaults then st
    else if st.vaults[v].responses == [] || st.vaults[v].responses[0].slid in used
        || st.vaults[v].responses[0].slid >= c.links then
      RouteOut(c, st, v + 1, used)
    else
      var r := st.vaults[v].responses[0];
      if Flits(c, r) <= LINK_BUFFER - |st.links[r.slid].output| then
        RouteOut(c, AfterRespond(c, st, v), v + 1, used + {r.slid})
      else RouteOut(c, st, v + 1, used)
  }

  // What a vault holds of requests.
  function Load(u: Vault): nat { |u.readq| + |u.writeq| + |u.pending| }

  /** In one cycle a vault takes at most one packet, and none once it is marked as used. */
  lemma {:induction false} OnePacketPerVault(c: Config, st: State, s: nat, used: set<nat>, v: nat)
    requires Shape(c, st) && v < c.vaults
    ensures Load(st.vaults[v]) <= Load(RouteIn(c, st, s, used).vaults[v]) <= Load(st.vaults[v]) + if v in used
        then 0 else 1
    decreases c.links - s
  {
    hide AfterTake, Load, TakeOk;
    if s < c.links {
      if st.links[s].input == [] || st.links[s].input[0].vault in used || st.links[s].input[0].vault >= c.vaults {
        OnePacketPerVault(c, st, s + 1, used, v);
      } else {
        var p := st.links[s].input[0];
        TakeLoad(c, st, s, v);
        OnePacketPerVault(c, AfterTake(c, st, s), s + 1, if TakeOk(c, st.vaults[p.vault], p) then used + {p.vault}
            else used, v);
      }
    }
  }

  lemma TakeLoad(c: Config, st: State, s: nat, v: nat)
    requires Shape(c, st) && s < c.links && st.links[s].input != [] && st.links[s].input[0].vault < c.vaults
        && v < c.vaults
    ensures var p, st' := st.links[s].input[0], AfterTake(c, st, s);
            && Shape(c, st')
            && Load(st'.vaults[v]) == Load(st.vaults[v]) + if v == p.vault && TakeOk(c, st.vaults[v], p) then 1 else 0
  {}

  // No link from `x` up to `s` has a first packet for vault `v` that it would take.
  ghost predicate NoneTaken(c: Config, st: State, x: nat, s: nat, v: nat)
    requires Shape(c, st) && s <= c.links && v < c.vaults
  {
    forall y | x <= y < s && st.links[y].input != [] && st.links[y].input[0].vault == v ::
      !TakeOk(c, st.vaults[v], st.links[y].input[0])
  }

  /** When a link is served in a cycle, told from the state at its start: exactly when the vault of its first packet
      would take that packet and none of a link before it. Otherwise the link keeps all its packets. */
  lemma {:induction false} LinkServed(c: Config, st: State, x: nat, used: set<nat>, s: nat)
    requires c.Valid() && Inv(c, st) && x <= s < c.links && st.links[s].input != []
    ensures var p := st.links[s].input[0];
            && p.vault < c.vaults
            && RouteIn(c, st, x, used).links[s].input ==
               if p.vault !in used && TakeOk(c, st.vaults[p.vault], p) && NoneTaken(c, st, x, s, p.vault)
               then st.links[s].input[1..] else st.links[s].input
    decreases s - x
  {
    hide Inv, AfterTake, TakeOk;
    InvShape(c, st);
    var p := st.links[s].input[0];
    TakeInv(c, st, s);
    if x == s {
      ServedNow(c, st, s, used);
    } else if st.links[x].input == [] || st.links[x].input[0].vault in used || st.links[x].input[0].vault >= c.vaults {
      if st.links[x].input != [] { TakeInv(c, st, x); }
      LinkServed(c, st, x + 1, used, s);
      assert p.vault !in used ==> (NoneTaken(c, st, x, s, p.vault) <==> NoneTaken(c, st, x + 1, s, p.vault));
    } else {
      var q, next := st.links[x].input[0], AfterTake(c, st, x);
      TakeInv(c, st, x);
      TakeOthers(c, st, x, p.vault);
      LinkServed(c, next, x + 1, if TakeOk(c, st.vaults[q.vault], q) then used + {q.vault} else used, s);
    }
  }

  // The link that is looked at now.
  lemma ServedNow(c: Config, st: State, s: nat, used: set<nat>)
    requires c.Valid() && Inv(c, st) && s < c.links && st.links[s].input != []
    ensures var p := st.links[s].input[0];
            && p.vault < c.vaults
            && RouteIn(c, st, s, used).links[s].input ==
               if p.vault !in used && TakeOk(c, st.vaults[p.vault], p)
               then st.links[s].input[1..] else st.links[s].input
  {
    hide Inv, AfterTake, TakeOk;
    InvShape(c, st);
    var p := st.links[s].input[0];
    TakeInv(c, st, s);
    TakeOwn(c, st, s);
    if p.vault in used {
      InputsBehind(c, st, s + 1, used, s);
    } else {
      var used' := if TakeOk(c, st.vaults[p.vault], p) then used + {p.vault} else used;
      InputsBehind(c, AfterTake(c, st, s), s + 1, used', s);
    }
  }

  lemma TakeOwn(c: Config, st: State, s: nat)
    requires Shape(c, st) && s < c.links && st.links[s].input != [] && st.links[s].input[0].vault < c.vaults
    requires st.links[s].input[0].id < |st.stage|
    ensures var p, next := st.links[s].input[0], AfterTake(c, st, s);
            && Shape(c, next)
            && next.links[s].input ==
               if TakeOk(c, st.vaults[p.vault], p) then st.links[s].input[1..] else st.links[s].input
  {}

  // Taking or refusing the first packet of link `x` changes no other link, and no other vault; and a vault that
  // refused it would take the same packets as before.
  lemma TakeOthers(c: Config, st: State, x: nat, v: nat)
    requires Shape(c, st) && x < c.links && v < c.vaults
    requires st.links[x].input != [] && st.links[x].input[0].vault < c.vaults
    ensures var p, next := st.links[x].input[0], AfterTake(c, st, x);
            && Shape(c, next) && (forall y | 0 <= y < c.links && y != x :: next.links[y] == st.links[y])
            && (v != p.vault || !TakeOk(c, st.vaults[p.vault], p) ==>
                  forall q :: TakeOk(c, next.vaults[v], q) <==> TakeOk(c, st.vaults[v], q))
  {}

  lemma {:induction false} InputsBehind(c: Config, st: State, s: nat, used: set<nat>, x: nat)
    requires Shape(c, st) && x < s && x < c.links
    ensures RouteIn(c, st, s, used).links[x] == st.links[x]
    decreases c.links - s
  {
    hide AfterTake, TakeOk;
    if s < c.links {
      if st.links[s].input == [] || st.links[s].input[0].vault in used || st.links[s].input[0].vault >= c.vaults {
        InputsBehind(c, st, s + 1, used, x);
      } else {
        var p := st.links[s].input[0];
        TakeLinks(c, st, s, x);
        InputsBehind(c, AfterTake(c, st, s), s + 1, if TakeOk(c, st.vaults[p.vault], p) then used + {p.vault}
            else used, x);
      }
    }
  }

  lemma TakeLinks(c: Config, st: State, s: nat, x: nat)
    requires Shape(c, st) && s < c.links && st.links[s].input != [] && st.links[s].input[0].vault < c.vaults
        && x < c.links && x != s
    ensures Shape(c, AfterTake(c, st, s)) && AfterTake(c, st, s).links[x] == st.links[x]
  {}

  // Some vault from `v` on offers link `s` a response that fits.
  ghost predicate Offered(c: Config, st: State, v: nat, s: nat)
    requires Shape(c, st) && s < c.links
  {
    exists x | v <= x < c.vaults :: Offers(c, st, x, s)
  }

  ghost predicate Offers(c: Config, st: State, x: nat, s: nat)
    requires Shape(c, st) && s < c.links && x < c.vaults
  {
    && st.vaults[x].responses != [] && st.vaults[x].responses[0].slid == s
    && Flits(c, st.vaults[x].responses[0]) <= LINK_BUFFER - |st.links[s].output|
  }

  /** In one cycle a link takes one response if any vault offers it one that fits, and otherwise none; none either
      once it is marked as used. */
  lemma {:induction false} OneResponsePerLink(c: Config, st: State, v: nat, used: set<nat>, s: nat)
    requires Inv(c, st) && s < c.links
    ensures |RouteOut(c, st, v, used).links[s].output| ==
            |st.links[s].output| + if s !in used && Offered(c, st, v, s) then 1 else 0
    decreases c.vaults - v
  {
    hide Inv, AfterRespond, Offered, Flits;
    InvShape(c, st);
    if v >= c.vaults {
      NoOffer(c, st, v, s);
    } else {
      OfferStep(c, st, v, s);
      if st.vaults[v].responses == [] || st.vaults[v].responses[0].slid in used
          || st.vaults[v].responses[0].slid >= c.links {
        OneResponsePerLink(c, st, v + 1, used, s);
      } else {
        var r := st.vaults[v].responses[0];
        if Flits(c, r) <= LINK_BUFFER - |st.links[r.slid].output| {
          RespondInv(c, st, v);
          RespondEffect(c, st, v, s);
          OneResponsePerLink(c, AfterRespond(c, st, v), v + 1, used + {r.slid}, s);
        } else {
          OneResponsePerLink(c, st, v + 1, used, s);
        }
      }
    }
  }

  lemma OfferStep(c: Config, st: State, v: nat, s: nat)
    requires Shape(c, st) && s < c.links && v < c.vaults
    ensures Offered(c, st, v, s) <==> Offers(c, st, v, s) || Offered(c, st, v + 1, s)
  {}

  lemma NoOffer(c: Config, st: State, v: nat, s: nat)
    requires Shape(c, st) && s < c.links && v >= c.vaults
    ensures !Offered(c, st, v, s)
  {}

  lemma RespondEffect(c: Config, st: State, v: nat, s: nat)
    requires Inv(c, st) && v < c.vaults && st.vaults[v].responses != [] && s < c.links
    ensures var r, next := st.vaults[v].responses[0], AfterRespond(c, st, v);
            && Shape(c, next) && |next.links[s].output| == |st.links[s].output| + (if r.slid == s then 1 else 0)
            && (r.slid != s ==> (Offered(c, next, v + 1, s) <==> Offered(c, st, v + 1, s)))
  {
    RespondInv(c, st, v);
    var next := AfterRespond(c, st, v);
    assert forall x | v < x < c.vaults :: next.vaults[x] == st.vaults[x];
    if st.vaults[v].responses[0].slid != s {
      assert next.links[s] == st.links[s];
      assert forall x | v < x < c.vaults :: Offers(c, next, x, s) <==> Offers(c, st, x, s);
    }
  }

  // A cube before anything has happened: every tag in its pool, numbered from 0.
  ghost function New(c: Config): (st: State)
    ensures Shape(c, st) && st.stage == [] && st.meta == [] && st.answered == [] && st.past == []
    ensures forall v: nat | v < c.vaults :: st.last[v] == NEVER
    ensures forall s: nat | s < c.links ::
              st.links[s] == Link([], []) && st.pools[s] == seq(c.maxTags, i => i) && st.lost[s] == []
    ensures forall v: nat | v < c.vaults :: st.vaults[v] == Vault(0, false, [], [], [], map[], [])
  {
    State(seq(c.links, _ => Link([], [])), seq(c.vaults, _ => Vault(0, false, [], [], [], map[], [])),
          seq(c.links, _ => seq(c.maxTags, i => i)), seq(c.links, _ => []), [], [], [], [], seq(c.vaults, _ => NEVER))
  }

  class Memory {
    const c: Config
    const map_: A.Map
    var links: seq<Link>
    var vaults: seq<Vault>
    var pools: seq<seq<int>>
    // The number of requests accepted, and the id of the next one.
    var count: nat
    ghost var lost: seq<seq<int>>
    ghost var stage: seq<Stage>
    ghost var meta: seq<Packet>
    ghost var answered: seq<Response>
    ghost var past: seq<Past>
    ghost var last: seq<int>

    ghost function Now(): State
      reads this
    {
      State(links, vaults, pools, lost, stage, meta, answered, past, last)
    }

    ghost predicate Valid()
      reads this
    {
      && c.Valid() && map_.Valid() && Pow2(map_.vault) == c.vaults && count == |stage| && Inv(c, Now())
    }

    constructor (c: Config, map_: A.Map)
      requires c.Valid() && map_.Valid() && Pow2(map_.vault) == c.vaults
      ensures this.c == c && this.map_ == map_ && Valid() && count == 0 && Now() == New(c)
    {
      this.c, this.map_ := c, map_;
      links := seq(c.links, _ => Link([], []));
      vaults := seq(c.vaults, _ => Vault(0, false, [], [], [], map[], []));
      pools := seq(c.links, _ => seq(c.maxTags, i => i));
      count := 0;
      lost, stage, meta, answered := seq(c.links, _ => []), [], [], [];
      past, last := [], seq(c.vaults, _ => NEVER);
      new;
      EmptyInv(c, Now());
      assert forall s: nat | s < c.links :: links[s] == New(c).links[s] && pools[s] == New(c).pools[s];
      assert Now() == New(c);
    }

    // The first tag of a pool, or -1.
    method AssignTag(slid: nat) returns (tag: int)
      requires slid < |pools|
      modifies this`pools
      ensures if old(pools)[slid] == [] then tag == -1 && pools == old(pools)
              else tag == old(pools)[slid][0] && pools == old(pools)[slid := old(pools)[slid][1..]]
    {
      if pools[slid] == [] {
        return -1;
      }
      tag := pools[slid][0];
      pools := pools[slid := pools[slid][1..]];
    }

    /** A request from a core. It is accepted exactly when its link has a tag and space. Without a tag nothing
        changes; without space the tag it took is lost, and no id is used up. */
    method Send(write: bool, address: int) returns (accepted: bool)
      requires Valid()
      modifies this
      ensures Valid()
      ensures var addr := address % map_.MaxAddress();
              var slid := addr / Pow2(map_.tx + map_.block) % c.links;
              0 <= slid < c.links
      ensures var addr := address % map_.MaxAddress();
              var slid := addr / Pow2(map_.tx + map_.block) % c.links;
              var flits := if write then 1 + c.payload else 1;
              && (accepted <==> old(pools)[slid] != [] && flits <= LINK_BUFFER - |old(links)[slid].input|)
              && 0 <= map_.Decode(address).vault < c.vaults
              && (accepted ==>
                    Now() == AfterSend(c, old(Now()), Packet(old(count), write, addr, map_.Decode(address).vault,
                        slid, old(pools)[slid][0])))
              && (!accepted ==> Now() == if old(pools)[slid] == [] then old(Now()) else AfterLose(c, old(Now()), slid))
      ensures count == old(count) + if accepted then 1 else 0
    {
      hide Inv, Pow2;
      ghost var was := Now();
      InvShape(c, was);
      var addr := address % map_.MaxAddress();
      var vec := A.AddressVector(map_, address);
      map_.Fields(address);
      var slid := addr / Pow2(map_.tx + map_.block) % c.links;
      var tag := AssignTag(slid);
      NoTag(c, was, slid);
      if tag == -1 {
        return false;
      }
      var p := Packet(count, write, addr, vec.vault, slid, tag);
      var flits := if write then 1 + c.payload else 1;
      if flits <= LINK_BUFFER - |links[slid].input| {
        links := links[slid := links[slid].(input := links[slid].input + [p])];
        count := count + 1;
        stage, meta, past := stage + [Arriving(slid)], meta + [p], past + [NO_PAST];
        SendInv(c, was, p);
        assert Now() == AfterSend(c, was, p);
        return true;
      }
      lost := lost[slid := lost[slid] + [tag]];
      LoseInv(c, was, slid);
      assert Now() == AfterLose(c, was, slid);
      return false;
    }

    /** A cycle of the crossbar: from links to vaults, and then from vaults to links. */
    method SwitchTick()
      requires Valid()
      modifies this
      ensures Valid() && count == old(count)
      ensures Now() == RouteOut(c, RouteIn(c, old(Now()), 0, {}), 0, {})
    {
      hide Inv, RouteIn, RouteOut;
      LinksToVaults();
      VaultsToLinks();
    }

    method LinksToVaults()
      requires Valid()
      modifies this
      ensures Valid() && count == old(count) && Now() == RouteIn(c, old(Now()), 0, {})
    {
      hide Inv;
      InvShape(c, Now());
      ghost var was := Now();
      var usedVaults: set<nat> := {};
      var s := 0;
      while s < c.links
        invariant 0 <= s <= c.links && Inv(c, Now()) && count == |stage| == old(count) && Shape(c, Now())
        invariant RouteIn(c, Now(), s, usedVaults) == RouteIn(c, was, 0, {})
      {
        var l := links[s];
        if l.input != [] {
          var p := l.input[0];
          ghost var before := Now();
          TakeInv(c, before, s);
          if p.vault !in usedVaults {
            var u := vaults[p.vault];
            vaults := vaults[p.vault := TakeVault(c, u, p)];
            if TakeOk(c, u, p) {
              links := links[s := l.(input := l.input[1..])];
              stage, past := stage[p.id := TakeStage(u, p)], past[p.id := Taken(u, p, past[p.id])];
              usedVaults := usedVaults + {p.vault};
            }
            assert Now() == AfterTake(c, before, s);
          }
        }
        s := s + 1;
      }
    }

    method VaultsToLinks()
      requires Valid()
      modifies this
      ensures Valid() && count == old(count) && Now() == RouteOut(c, old(Now()), 0, {})
    {
      hide Inv;
      InvShape(c, Now());
      ghost var was := Now();
      var usedLinks: set<nat> := {};
      var v := 0;
      while v < c.vaults
        invariant 0 <= v <= c.vaults && Inv(c, Now()) && count == |stage| == old(count) && Shape(c, Now())
        invariant RouteOut(c, Now(), v, usedLinks) == RouteOut(c, was, 0, {})
      {
        var u := vaults[v];
        if u.responses != [] {
          var r := u.responses[0];
          ghost var before := Now();
          RespondInv(c, before, v);
          if r.slid !in usedLinks && Flits(c, r) <= LINK_BUFFER - |links[r.slid].output| {
            links := links[r.slid := links[r.slid].(output := links[r.slid].output + [r])];
            vaults := vaults[v := u.(responses := u.responses[1..])];
            stage := stage[r.id := Leaving(r.slid)];
            usedLinks := usedLinks + {r.slid};
            assert Now() == AfterRespond(c, before, v);
          }
        }
        v := v + 1;
      }
    }

    /** A cycle of a vault controller. The scheduler picks a queue position, and `served` says that the command of
        that request is ready and is the one that moves its data; the look-up of the pending request's packet
        always succeeds. The oldest pending request becomes a response in the first cycle it is due, and no other. */
    method VaultTick(v: nat, pick: int, served: bool)
      requires Valid() && v < c.vaults
      modifies this
      ensures Valid() && count == old(count) && Now() == AfterTick(c, old(Now()), v, pick, served)
      ensures AnswersDue(meta, old(vaults)[v], vaults[v])
    {
      hide Inv, AfterFront, AfterServe, Finishes, TickServe, AnswersDue;
      ghost var was := Now();
      InvShape(c, was);
      TickInv(c, was, v, pick, served);
      TickAnswers(c, was, v, pick, served);
      FrontInv(c, was, v);
      InvShape(c, AfterFront(c, was, v));
      InvShape(c, AfterTick(c, was, v, pick, served));
      AnswerPending(v);
      ServePicked(v, pick, served);
    }

    // The clock advances, the oldest pending request is answered if it is due, and the write mode is chosen.
    method AnswerPending(v: nat)
      requires Shape(c, Now()) && v < c.vaults
      requires vaults[v].pending != [] ==>
                 vaults[v].pending[0].id in vaults[v].incoming && vaults[v].pending[0].id < |stage|
      modifies this`vaults, this`stage, this`past, this`last
      ensures Now() == AfterFront(c, old(Now()), v)
    {
      ghost var was := Now();
      var u := vaults[v];
      u := u.(clk := u.clk + 1);
      if u.pending != [] && u.pending[0].depart <= u.clk {
        var q := u.pending[0];
        var p := u.incoming[q.id];
        u := u.(incoming := u.incoming - {q.id});
        u := u.(pending := u.pending[1..], responses := u.responses + [Response(q.id, q.write, p.slid, p.tag)]);
        past := past[q.id := past[q.id].(answeredAt := u.clk, before := last[v])];
        stage, last := stage[q.id := Answering(v)], last[v := u.clk];
      }
      if !u.writeMode {
        if |u.writeq| >= c.queueMax * 4 / 5 || |u.readq| == 0 { u := u.(writeMode := true); }
      } else {
        if |u.writeq| <= c.queueMax / 5 && |u.readq| != 0 { u := u.(writeMode := false); }
      }
      assert u == TickFront(c, was.vaults[v]);
      vaults := vaults[v := u];
    }

    // The picked request is served a burst; with its last one it becomes pending.
    method ServePicked(v: nat, pick: int, served: bool)
      requires Shape(c, Now()) && v < c.vaults
      modifies this`vaults, this`stage, this`past
      ensures Now() == AfterServe(c, old(Now()), v, pick, served)
    {
      var u := vaults[v];
      if 0 <= pick < |Served(u)| && served && Served(u)[pick].id < |stage| {
        ghost var k := Served(u)[pick].id;
        past := past[k := Bursted(u, past[k])];
        if Served(u)[pick].burst == 1 {
          stage := stage[k := Pending(v)];
        }
      }
      vaults := vaults[v := TickServe(c, u, pick, served)];
    }

    /** The master end of a link sends its first response to the host, where its tag goes back to the pool. */
    method LinkSend(s: nat)
      requires Valid() && s < c.links
      modifies this
      ensures Valid() && count == old(count)
      ensures Now() == if old(links)[s].output == [] then old(Now()) else AfterDeliver(c, old(Now()), s)
    {
      hide Inv;
      ghost var was := Now();
      InvShape(c, was);
      if links[s].output != [] {
        DeliverInv(c, was, s);
        var r := links[s].output[0];
        links := links[s := links[s].(output := links[s].output[1..])];
        pools := pools[r.slid := pools[r.slid] + [r.tag]];
        stage, answered := stage[r.id := Done], answered + [r];
        assert Now() == AfterDeliver(c, was, s);
      }
    }
  }

  // Tags are never -1, so that value tells an empty pool.
  lemma NoTag(c: Config, st: State, s: nat)
    requires Inv(c, st) && s < c.links
    ensures st.pools[s] != [] ==> st.pools[s][0] != -1
  {
    assert LinkTags(c.maxTags, st.pools[s], st.lost[s], st.stage, st.meta, s);
    if st.pools[s] != [] { assert st.pools[s][0] in st.pools[s]; }
  }

  lemma EmptyInv(c: Config, st: State)
    requires c.Valid() && Shape(c, st) && st.stage == [] && st.meta == [] && st.answered == []
    requires forall s: nat | s < c.links ::
               st.links[s] == Link([], []) && st.pools[s] == seq(c.maxTags, i => i) && st.lost[s] == []
    requires forall v: nat | v < c.vaults :: st.vaults[v] == Vault(0, false, [], [], [], map[], [])
    ensures Inv(c, st)
  {
    forall s: nat | s < c.links
      ensures LinkOk(st.links[s], s, st.stage, st.meta)
          && LinkTags(c.maxTags, st.pools[s], st.lost[s], st.stage, st.meta, s)
    {}
  }
}
