/** The whole cube as a value: links, vaults and tag pools, with the stage of every request accepted so far. */
module HmcSystem {
  import opened Places
  import opened HmcStages
  import opened HmcMoves
  import opened HmcTags

  datatype State = State(links: seq<Link>, vaults: seq<Vault>, pools: seq<seq<int>>, lost: seq<seq<int>>,
                         stage: seq<Stage>, meta: seq<Packet>, answered: seq<Response>,
                         past: seq<Past>, last: seq<int>)

  ghost predicate VaultOk(c: Config, u: Vault, v: nat, stage: seq<Stage>, meta: seq<Packet>) {
    QueuesOk(c, u, v, stage, meta) && IncomingOk(u, v, stage, meta)
  }

  ghost predicate Shape(c: Config, st: State) {
    && |st.links| == c.links && |st.pools| == c.links && |st.lost| == c.links && |st.vaults| == c.vaults
    && |st.stage| == |st.meta| == |st.past| && |st.last| == c.vaults
  }

  /** Every accepted request is in the one place its stage names, and every tag is accounted for. */
  ghost predicate Inv(c: Config, st: State) {
    && Shape(c, st) && MetaOk(c, st.meta)
    && (forall s: nat | s < c.links :: LinkOk(st.links[s], s, st.stage, st.meta))
    && (forall s: nat | s < c.links :: LinkTags(c.maxTags, st.pools[s], st.lost[s], st.stage, st.meta, s))
    && (forall v: nat | v < c.vaults :: VaultOk(c, st.vaults[v], v, st.stage, st.meta))
    && Holds(ResponseIds(st.answered), st.stage, Done)
    && (forall i | 0 <= i < |st.answered| :: IsAnswer(st.answered[i], st.meta))
  }

  // --- What follows from it. ---

  lemma InvShape(c: Config, st: State)
    requires Inv(c, st)
    ensures Shape(c, st)
  {}

  /** No request is answered twice, and every answer carries its request's own type, link and tag. */
  lemma AnsweredOnce(c: Config, st: State)
    requires Inv(c, st)
    ensures forall i, j | 0 <= i < j < |st.answered| :: st.answered[i].id != st.answered[j].id
    ensures forall k: nat | k < |st.stage| :: st.stage[k] == Done <==> k in ResponseIds(st.answered)
    ensures forall i | 0 <= i < |st.answered| :: IsAnswer(st.answered[i], st.meta)
  {
    forall i, j | 0 <= i < j < |st.answered| ensures st.answered[i].id != st.answered[j].id {
      assert Unlike(ResponseIds(st.answered), i, j);
    }
  }

  // Where an id occurs: the stages of all buffers and queues that list it.
  ghost predicate ListedAt(st: State, k: nat, at: Stage) {
    match at
    case Arriving(s) => s < |st.links| && k in PacketIds(st.links[s].input)
    case Leaving(s) => s < |st.links| && k in ResponseIds(st.links[s].output)
    case Reading(v) => v < |st.vaults| && k in RequestIds(st.vaults[v].readq)
    case Writing(v) => v < |st.vaults| && k in RequestIds(st.vaults[v].writeq)
    case Pending(v) => v < |st.vaults| && k in RequestIds(st.vaults[v].pending)
    case Answering(v) => v < |st.vaults| && k in ResponseIds(st.vaults[v].responses)
    case Done => k in ResponseIds(st.answered)
  }

  /** An id that is listed anywhere was accepted, and is listed in no second place. */
  lemma OnePlace(c: Config, st: State, k: nat, at: Stage)
    requires Inv(c, st) && ListedAt(st, k, at)
    ensures k < |st.stage| && st.stage[k] == at
  {
    match at
    case Arriving(s) => assert LinkOk(st.links[s], s, st.stage, st.meta);
    case Leaving(s) => assert LinkOk(st.links[s], s, st.stage, st.meta);
    case Reading(v) => assert VaultOk(c, st.vaults[v], v, st.stage, st.meta);
    case Writing(v) => assert VaultOk(c, st.vaults[v], v, st.stage, st.meta);
    case Pending(v) => assert VaultOk(c, st.vaults[v], v, st.stage, st.meta);
    case Answering(v) => assert VaultOk(c, st.vaults[v], v, st.stage, st.meta);
    case Done =>
  }

  /** Pool, unanswered requests and lost tags of a link always add up to all its tags; a tag in the pool is
      carried by no unanswered request, and no two unanswered requests of a link carry the same. */
  lemma TagBalance(c: Config, st: State, s: nat)
    requires Inv(c, st) && s < c.links
    ensures |st.pools[s]| + InFlight(st.stage, st.meta, s) + |st.lost[s]| == c.maxTags
    ensures NoRepeats(st.pools[s])
    ensures forall k: nat | Live(st.stage, st.meta, k, s) :: st.meta[k].tag !in st.pools[s]
    ensures forall j: nat, k: nat | Live(st.stage, st.meta, j, s) && Live(st.stage, st.meta, k, s) && j != k ::
              st.meta[j].tag != st.meta[k].tag
  {}

  // --- A link's first packet goes to its vault. ---

  function Forwarded(u: Vault, p: Packet): bool {
    !p.write && exists i | 0 <= i < |u.writeq| :: u.writeq[i].addr == p.addr
  }

  function TakeOk(c: Config, u: Vault, p: Packet): bool {
    if p.write then |u.writeq| != c.queueMax else |u.readq| != c.queueMax
  }

  function TakeStage(u: Vault, p: Packet): Stage {
    if p.write then Writing(p.vault) else if Forwarded(u, p) then Pending(p.vault) else Reading(p.vault)
  }

  /** The vault after it was offered a packet: the packet is noted in any case; a full queue refuses it; a read
      of an address that a queued write will write is pending at once, to be answered one cycle later. */
  function TakeVault(c: Config, u: Vault, p: Packet): Vault {
    var q := Request(p.id, p.write, p.addr, c.burst, u.clk, 0);
    var u1 := u.(incoming := u.incoming[p.id := p]);
    if !TakeOk(c, u, p) then u1
    else if p.write then u1.(writeq := u.writeq + [q])
    else if Forwarded(u, p) then u1.(pending := u.pending + [q.(depart := u.clk + 1)])
    else u1.(readq := u.readq + [q])
  }

  // What is recorded of a packet that a vault takes.
  ghost function Taken(u: Vault, p: Packet, h: Past): Past {
    h.(arrive := u.clk, forwarded := !p.write && exists i | 0 <= i < |u.writeq| :: u.writeq[i].addr == p.addr)
  }

  ghost function AfterTake(c: Config, st: State, s: nat): State
    requires Shape(c, st) && s < c.links && st.links[s].input != [] && st.links[s].input[0].vault < c.vaults
  {
    var l := st.links[s];
    var p := l.input[0];
    var st1 := st.(vaults := st.vaults[p.vault := TakeVault(c, st.vaults[p.vault], p)]);
    if TakeOk(c, st.vaults[p.vault], p) && p.id < |st.stage| then
      st1.(links := st.links[s := l.(input := l.input[1..])],
          stage := st.stage[p.id := TakeStage(st.vaults[p.vault], p)],
          past := st.past[p.id := Taken(st.vaults[p.vault], p, st.past[p.id])])
    else st1
  }

  // The places of one request that moves, from a link to a vault or back.
  lemma OthersKeep(c: Config, st: State, k: nat, to: Stage, s: nat, v: nat)
    requires Inv(c, st) && k < |st.stage| && st.stage[k] != Done
    requires (st.stage[k] == Arriving(s) && AtVault(to, v) && st.meta[k].vault == v)
          || (AtVault(st.stage[k], v) && (AtVault(to, v) || to == Leaving(s)))
              || (st.stage[k] == Leaving(s) && to == Done)
    ensures forall x: nat | x < c.links && x != s :: LinkOk(st.links[x], x, st.stage[k := to], st.meta)
    ensures AtVault(st.stage[k], v) && AtVault(to, v) && s < c.links ==>
        LinkOk(st.links[s], s, st.stage[k := to], st.meta)
    ensures forall x: nat | x < c.vaults && x != v :: VaultOk(c, st.vaults[x], x, st.stage[k := to], st.meta)
  {
    hide Holds, LinkTags, QueuesOk, IsAnswer, IsRequest;
    forall x: nat | x < c.links && (x != s || (AtVault(st.stage[k], v) && AtVault(to, v)))
      ensures LinkOk(st.links[x], x, st.stage[k := to], st.meta)
    {
      LinkFrame(st.links[x], x, st.stage, st.meta, k, to);
    }
    forall x: nat | x < c.vaults && x != v ensures VaultOk(c, st.vaults[x], x, st.stage[k := to], st.meta) {
      assert VaultOk(c, st.vaults[x], x, st.stage, st.meta);
      VaultFrame(c, st.vaults[x], x, st.stage, st.meta, k, to);
    }
  }

  lemma TagsKeep(c: Config, st: State, k: nat, to: Stage)
    requires Inv(c, st) && k < |st.stage| && st.stage[k] != Done && to != Done
    ensures forall s: nat | s < c.links :: LinkTags(c.maxTags, st.pools[s], st.lost[s], st.stage[k := to], st.meta, s)
    ensures Holds(ResponseIds(st.answered), st.stage[k := to], Done)
  {
    forall s: nat | s < c.links ensures LinkTags(c.maxTags, st.pools[s], st.lost[s], st.stage[k := to], st.meta, s) {
      TagsMove(c.maxTags, st.pools[s], st.lost[s], st.stage, st.meta, s, k, to);
    }
    HoldsOther(ResponseIds(st.answered), st.stage, k, Done, to);
  }

  lemma OneVault(c: Config, st: State, v: nat)
    requires Inv(c, st) && v < c.vaults
    ensures VaultOk(c, st.vaults[v], v, st.stage, st.meta)
  {}

  // The first packet of a link is the request it was accepted as.
  lemma ListedInput(c: Config, st: State, s: nat)
    requires Inv(c, st) && s < c.links && st.links[s].input != []
    ensures var p := st.links[s].input[0];
            && LinkOk(st.links[s], s, st.stage, st.meta)
            && p.id < |st.stage| && st.stage[p.id] == Arriving(s) && st.meta[p.id] == p && p.vault < c.vaults
  {
    assert LinkOk(st.links[s], s, st.stage, st.meta);
    InputPop(st.links[s], s, st.stage, st.meta, Done);
  }

  lemma TakeInv(c: Config, st: State, s: nat)
    requires c.Valid() && Inv(c, st) && s < c.links && st.links[s].input != []
    ensures st.links[s].input[0].vault < c.vaults && st.links[s].input[0].id < |st.stage| && Inv(c, AfterTake(c, st, s))
  {
    hide Holds, LinkTags, IsAnswer, VaultOk, LinkOk, TakeOk, TakeStage, TakeVault;
    ListedInput(c, st, s);
    var p := st.links[s].input[0];
    OneVault(c, st, p.vault);
    var u := st.vaults[p.vault];
    if TakeOk(c, u, p) {
      var to := TakeStage(u, p);
      TakeQueues(c, u, p.vault, st.stage, st.meta, p);
      InputPop(st.links[s], s, st.stage, st.meta, to);
      OthersKeep(c, st, p.id, to, s, p.vault);
      TagsKeep(c, st, p.id, to);
    } else {
      RefuseQueues(c, u, p.vault, st.stage, st.meta, p);
    }
  }

  lemma RefuseQueues(c: Config, u: Vault, v: nat, stage: seq<Stage>, meta: seq<Packet>, p: Packet)
    requires VaultOk(c, u, v, stage, meta) && p.id < |stage|
    requires stage[p.id].Arriving? && meta[p.id] == p && p.vault == v && !TakeOk(c, u, p)
    ensures VaultOk(c, TakeVault(c, u, p), v, stage, meta)
  {
    VaultRefuse(c, u, v, stage, meta, p);
  }

  lemma TakeQueues(c: Config, u: Vault, v: nat, stage: seq<Stage>, meta: seq<Packet>, p: Packet)
    requires c.Valid() && VaultOk(c, u, v, stage, meta) && p.id < |stage|
    requires stage[p.id].Arriving? && meta[p.id] == p && p.vault == v && TakeOk(c, u, p)
    ensures AtVault(TakeStage(u, p), v)
    ensures VaultOk(c, TakeVault(c, u, p), v, stage[p.id := TakeStage(u, p)], meta)
  {
    var q := Request(p.id, p.write, p.addr, c.burst, u.clk, if Forwarded(u, p) then u.clk + 1 else 0);
    VaultTake(c, u, v, stage, meta, p, q, TakeStage(u, p), TakeVault(c, u, p));
  }

  // --- A vault's first response goes to its link, and a link's first response to the host. ---

  ghost function AfterRespond(c: Config, st: State, v: nat): State
    requires Shape(c, st) && v < c.vaults && st.vaults[v].responses != []
  {
    var r := st.vaults[v].responses[0];
    if r.slid < c.links && r.id < |st.stage| then
      var l := st.links[r.slid];
      st.(vaults := st.vaults[v := st.vaults[v].(responses := st.vaults[v].responses[1..])],
          links := st.links[r.slid := l.(output := l.output + [r])], stage := st.stage[r.id := Leaving(r.slid)])
    else st
  }

  lemma RespondInv(c: Config, st: State, v: nat)
    requires Inv(c, st) && v < c.vaults && st.vaults[v].responses != []
    ensures var r := st.vaults[v].responses[0];
            r.slid < c.links && r.id < |st.stage| && st.stage[r.id] == Answering(v) && Inv(c, AfterRespond(c, st, v))
  {
    var u := st.vaults[v];
    assert VaultOk(c, u, v, st.stage, st.meta);
    var r := u.responses[0];
    assert IsAnswer(r, st.meta);
    hide Holds, LinkTags, IsAnswer, QueuesOk, IncomingOk;
    VaultRespond(c, u, v, st.stage, st.meta, Leaving(r.slid));
    OutputPush(st.links[r.slid], r.slid, st.stage, st.meta, r);
    OthersKeep(c, st, r.id, Leaving(r.slid), r.slid, v);
    TagsKeep(c, st, r.id, Leaving(r.slid));
  }

  ghost function AfterDeliver(c: Config, st: State, s: nat): State
    requires Shape(c, st) && s < c.links && st.links[s].output != []
  {
    var l := st.links[s];
    var r := l.output[0];
    if r.id < |st.stage| then
      st.(links := st.links[s := l.(output := l.output[1..])], pools := st.pools[s := st.pools[s] + [r.tag]],
          stage := st.stage[r.id := Done], answered := st.answered + [r])
    else st
  }

  lemma DeliverInv(c: Config, st: State, s: nat)
    requires Inv(c, st) && s < c.links && st.links[s].output != []
    ensures var r := st.links[s].output[0];
            r.slid == s && r.id < |st.stage| && st.stage[r.id] == Leaving(s) && Inv(c, AfterDeliver(c, st, s))
  {
    var l := st.links[s];
    assert LinkOk(l, s, st.stage, st.meta);
    var r := l.output[0];
    var k := r.id;
    assert IsAnswer(r, st.meta) && st.meta[k].tag == r.tag && st.meta[k].slid == s;
    OutputPop(l, s, st.stage, st.meta);
    HoldsPush(ResponseIds(st.answered), st.stage, k, Done);
    assert ResponseIds(st.answered + [r]) == ResponseIds(st.answered) + [k];
    hide Holds, LinkOk, LinkTags, IsAnswer, QueuesOk, IncomingOk;
    OthersKeep(c, st, k, Done, s, c.vaults);
    var stage := st.stage[k := Done];
    var pools := st.pools[s := st.pools[s] + [r.tag]];
    forall x: nat | x < c.links ensures LinkTags(c.maxTags, pools[x], st.lost[x], stage, st.meta, x) {
      assert LinkTags(c.maxTags, st.pools[x], st.lost[x], st.stage, st.meta, x);
      if x == s {
        TagsReturn(c.maxTags, st.pools[s], st.lost[s], st.stage, st.meta, k);
      } else {
        TagsMove(c.maxTags, st.pools[x], st.lost[x], st.stage, st.meta, x, k, Done);
      }
    }
  }

  // --- A request is accepted, or refused after it took a tag. ---

  ghost function AfterSend(c: Config, st: State, p: Packet): State
    requires Shape(c, st) && p.slid < c.links && st.pools[p.slid] != []
  {
    var s := p.slid;
    st.(links := st.links[s := st.links[s].(input := st.links[s].input + [p])],
        pools := st.pools[s := st.pools[s][1..]],
        stage := st.stage + [Arriving(s)], meta := st.meta + [p], past := st.past + [NO_PAST])
  }

  lemma SendInv(c: Config, st: State, p: Packet)
    requires Inv(c, st) && p.slid < c.links && p.vault < c.vaults && st.pools[p.slid] != []
    requires p.id == |st.stage| && p.tag == st.pools[p.slid][0]
    ensures Inv(c, AfterSend(c, st, p))
  {
    var s, to := p.slid, Arriving(p.slid);
    var stage, meta := st.stage + [to], st.meta + [p];
    assert st.pools[s][0] in st.pools[s];
    assert LinkTags(c.maxTags, st.pools[s], st.lost[s], st.stage, st.meta, s);
    HoldsNew(ResponseIds(st.answered), st.stage, Done, to);
    NewLinks(c, st, p);
    NewTags(c, st, p);
    NewVaults(c, st, p);
    hide Holds, LinkOk, LinkTags, QueuesOk, IncomingOk;
    assert forall i | 0 <= i < |st.answered| :: IsAnswer(st.answered[i], meta);
  }

  lemma NewLinks(c: Config, st: State, p: Packet)
    requires Inv(c, st) && p.slid < c.links && p.id == |st.stage|
    ensures var links := st.links[p.slid := st.links[p.slid].(input := st.links[p.slid].input + [p])];
            forall s: nat | s < c.links :: LinkOk(links[s], s, st.stage + [Arriving(p.slid)], st.meta + [p])
  {
    hide Holds, LinkTags, QueuesOk, IncomingOk;
    var links := st.links[p.slid := st.links[p.slid].(input := st.links[p.slid].input + [p])];
    forall s: nat | s < c.links ensures LinkOk(links[s], s, st.stage + [Arriving(p.slid)], st.meta + [p]) {
      assert LinkOk(st.links[s], s, st.stage, st.meta);
      HoldsNew(PacketIds(st.links[s].input), st.stage, Arriving(s), Arriving(p.slid));
      HoldsNew(ResponseIds(st.links[s].output), st.stage, Leaving(s), Arriving(p.slid));
      if s == p.slid { assert PacketIds(st.links[s].input + [p]) == PacketIds(st.links[s].input) + [p.id]; }
    }
  }

  lemma NewTags(c: Config, st: State, p: Packet)
    requires Inv(c, st) && p.slid < c.links && st.pools[p.slid] != [] && p.tag == st.pools[p.slid][0]
    ensures var pools := st.pools[p.slid := st.pools[p.slid][1..]];
            forall s: nat | s < c.links :: LinkTags(c.maxTags, pools[s], st.lost[s], st.stage + [Arriving(p.slid)],
                st.meta + [p], s)
  {
    hide Holds, LinkOk, LinkTags, QueuesOk, IncomingOk;
    var pools := st.pools[p.slid := st.pools[p.slid][1..]];
    forall s: nat | s < c.links
      ensures LinkTags(c.maxTags, pools[s], st.lost[s], st.stage + [Arriving(p.slid)], st.meta + [p], s)
    {
      if s == p.slid {
        TagsTake(c.maxTags, st.pools[s], st.lost[s], st.stage, st.meta, p, Arriving(p.slid));
      } else {
        TagsOther(c.maxTags, st.pools[s], st.lost[s], st.stage, st.meta, p, Arriving(p.slid), s);
      }
    }
  }

  lemma NewVaults(c: Config, st: State, p: Packet)
    requires Inv(c, st) && p.id == |st.stage|
    ensures forall v: nat | v < c.vaults :: VaultOk(c, st.vaults[v], v, st.stage + [Arriving(p.slid)], st.meta + [p])
  {
    hide Holds, LinkOk, LinkTags;
    var to := Arriving(p.slid);
    forall v: nat | v < c.vaults ensures VaultOk(c, st.vaults[v], v, st.stage + [to], st.meta + [p]) {
      var u := st.vaults[v];
      assert VaultOk(c, u, v, st.stage, st.meta);
      HoldsNew(RequestIds(u.readq), st.stage, Reading(v), to);
      HoldsNew(RequestIds(u.writeq), st.stage, Writing(v), to);
      HoldsNew(RequestIds(u.pending), st.stage, Pending(v), to);
      HoldsNew(ResponseIds(u.responses), st.stage, Answering(v), to);
    }
  }

  ghost function AfterLose(c: Config, st: State, s: nat): State
    requires Shape(c, st) && s < c.links && st.pools[s] != []
  {
    st.(pools := st.pools[s := st.pools[s][1..]], lost := st.lost[s := st.lost[s] + [st.pools[s][0]]])
  }

  lemma LoseInv(c: Config, st: State, s: nat)
    requires Inv(c, st) && s < c.links && st.pools[s] != []
    ensures Inv(c, AfterLose(c, st, s))
  {
    hide Holds, LinkOk, LinkTags, QueuesOk, IncomingOk;
    TagsLose(c.maxTags, st.pools[s], st.lost[s], st.stage, st.meta, s);
  }

  // --- A cycle of a vault controller. ---

  function Flits(c: Config, r: Response): int {
    if r.write then 1 else 1 + c.payload
  }

  predicate AnswersNow(u: Vault) {
    u.pending != [] && u.pending[0].depart <= u.clk && u.pending[0].id in u.incoming
  }

  // The oldest pending request becomes a response once its time has come.
  function TickAnswer(u: Vault): Vault {
    if AnswersNow(u) then
      var q := u.pending[0];
      var p := u.incoming[q.id];
      u.(pending := u.pending[1..], responses := u.responses + [Response(q.id, q.write, p.slid, p.tag)],
          incoming := u.incoming - {q.id})
    else u
  }

  // Writes are drained from four fifths of the queue down to one fifth, or while there is nothing to read.
  function TickMode(c: Config, u: Vault): bool {
    if !u.writeMode then |u.writeq| >= c.queueMax * 4 / 5 || |u.readq| == 0
    else !(|u.writeq| <= c.queueMax / 5 && |u.readq| != 0)
  }

  // The picked request is served a burst, if its command is ready and is the one that moves its data.
  function TickServe(c: Config, u: Vault, pick: int, served: bool): Vault {
    var qs := if u.writeMode then u.writeq else u.readq;
    if !(0 <= pick < |qs|) || !served then u else
      var q := qs[pick].(burst := qs[pick].burst - 1);
      if q.burst == 0 then
        var done := q.(depart := u.clk + if q.write then c.writeLatency else c.readLatency);
        if u.writeMode then u.(writeq := Without(qs, pick), pending := u.pending + [done])
        else u.(readq := Without(qs, pick), pending := u.pending + [done])
      else if u.writeMode then u.(writeq := qs[pick := q]) else u.(readq := qs[pick := q])
  }

  // The cycle up to serving.
  function TickFront(c: Config, u: Vault): Vault {
    var u1 := TickAnswer(u.(clk := u.clk + 1));
    u1.(writeMode := TickMode(c, u1))
  }

  function Served(u: Vault): seq<Request> { if u.writeMode then u.writeq else u.readq }

  // The picked request is served its last burst.
  predicate Finishes(u: Vault, pick: int, served: bool) {
    0 <= pick < |Served(u)| && served && Served(u)[pick].burst == 1
  }

  ghost function AfterFront(c: Config, st: State, v: nat): State
    requires Shape(c, st) && v < c.vaults
  {
    var u := st.vaults[v].(clk := st.vaults[v].clk + 1);
    var st1 := st.(vaults := st.vaults[v := TickFront(c, st.vaults[v])]);
    if AnswersNow(u) && u.pending[0].id < |st.stage| then
      var k := u.pending[0].id;
      st1.(stage := st.stage[k := Answering(v)], last := st.last[v := u.clk],
          past := st.past[k := st.past[k].(answeredAt := u.clk, before := st.last[v])])
    else st1
  }

  // What is recorded of a request that is served a burst.
  ghost function Bursted(u: Vault, h: Past): Past { h.(bursts := h.bursts + 1, burstAt := u.clk) }

  ghost function AfterServe(c: Config, st: State, v: nat, pick: int, served: bool): State
    requires Shape(c, st) && v < c.vaults
  {
    var u := st.vaults[v];
    var st1 := st.(vaults := st.vaults[v := TickServe(c, u, pick, served)]);
    if served && 0 <= pick < |Served(u)| && Served(u)[pick].id < |st.stage| then
      var k := Served(u)[pick].id;
      st1.(stage := if Finishes(u, pick, served) then st.stage[k := Pending(v)] else st.stage,
          past := st.past[k := Bursted(u, st.past[k])])
    else st1
  }

  // One cycle of vault `v`.
  ghost function AfterTick(c: Config, st: State, v: nat, pick: int, served: bool): State
    requires Shape(c, st) && v < c.vaults
  {
    AfterServe(c, AfterFront(c, st, v), v, pick, served)
  }

  // One vault changed, and one request moved inside it.
  lemma VaultMove(c: Config, st: State, v: nat, u: Vault, k: nat, to: Stage)
    requires Inv(c, st) && v < c.vaults && k < |st.stage| && AtVault(st.stage[k], v) && AtVault(to, v)
    requires VaultOk(c, u, v, st.stage[k := to], st.meta)
    ensures |st.vaults| == c.vaults && Inv(c, st.(vaults := st.vaults[v := u], stage := st.stage[k := to]))
  {
    hide Holds, LinkOk, LinkTags, QueuesOk, IncomingOk;
    OthersKeep(c, st, k, to, c.links, v);
    TagsKeep(c, st, k, to);
  }

  lemma VaultStay(c: Config, st: State, v: nat, u: Vault)
    requires Inv(c, st) && v < c.vaults && VaultOk(c, u, v, st.stage, st.meta)
    ensures |st.vaults| == c.vaults && Inv(c, st.(vaults := st.vaults[v := u]))
  {
    hide Holds, LinkOk, LinkTags, QueuesOk, IncomingOk;
  }

  // The records do not matter to the places.
  lemma RecordsFree(c: Config, st: State, st': State)
    requires Inv(c, st) && |st'.past| == |st.past| && |st'.last| == |st.last|
    requires st' == st.(past := st'.past, last := st'.last)
    ensures Inv(c, st')
  {}

  lemma FrontInv(c: Config, st: State, v: nat)
    requires Inv(c, st) && v < c.vaults
    ensures st.vaults[v].pending != [] ==>
              st.vaults[v].pending[0].id in st.vaults[v].incoming && st.vaults[v].pending[0].id < |st.stage|
    ensures Inv(c, AfterFront(c, st, v))
  {
    var u := st.vaults[v];
    assert VaultOk(c, u, v, st.stage, st.meta);
    hide Inv, VaultOk, TickFront, AnswersNow;
    FrontVault(c, u, v, st.stage, st.meta);
    if AnswersNow(u.(clk := u.clk + 1)) {
      VaultMove(c, st, v, TickFront(c, u), u.pending[0].id, Answering(v));
      var moved := st.(vaults := st.vaults[v := TickFront(c, u)], stage := st.stage[u.pending[0].id := Answering(v)]);
      RecordsFree(c, moved, AfterFront(c, st, v));
    } else {
      VaultStay(c, st, v, TickFront(c, u));
    }
  }

  lemma FrontVault(c: Config, u: Vault, v: nat, stage: seq<Stage>, meta: seq<Packet>)
    requires VaultOk(c, u, v, stage, meta)
    ensures u.pending != [] ==>
              u.pending[0].id in u.incoming && u.pending[0].id < |stage| && stage[u.pending[0].id] == Pending(v)
    ensures AnswersNow(u.(clk := u.clk + 1)) ==> u.pending != []
    ensures var stage' := if AnswersNow(u.(clk := u.clk + 1)) then stage[u.pending[0].id := Answering(v)] else stage;
            VaultOk(c, TickFront(c, u), v, stage', meta)
  {
    hide VaultOk, TickAnswer, TickMode;
    var u0 := u.(clk := u.clk + 1);
    ClockKeeps(c, u, v, stage, meta, u0.clk);
    AnswerVault(c, u0, v, stage, meta);
    var stage' := if AnswersNow(u0) then stage[u.pending[0].id := Answering(v)] else stage;
    ModeKeeps(c, TickAnswer(u0), v, stage', meta, TickMode(c, TickAnswer(u0)));
  }

  lemma AnswerVault(c: Config, u: Vault, v: nat, stage: seq<Stage>, meta: seq<Packet>)
    requires VaultOk(c, u, v, stage, meta)
    ensures u.pending != [] ==>
              u.pending[0].id in u.incoming && u.pending[0].id < |stage| && stage[u.pending[0].id] == Pending(v)
    ensures var stage' := if AnswersNow(u) then stage[u.pending[0].id := Answering(v)] else stage;
            VaultOk(c, TickAnswer(u), v, stage', meta)
  {
    hide Holds, QueuesOk, IncomingOk;
    if u.pending != [] { VaultAnswer(c, u, v, stage, meta); }
  }

  lemma ClockKeeps(c: Config, u: Vault, v: nat, stage: seq<Stage>, meta: seq<Packet>, clk: int)
    requires VaultOk(c, u, v, stage, meta)
    ensures VaultOk(c, u.(clk := clk), v, stage, meta)
  {}

  lemma ModeKeeps(c: Config, u: Vault, v: nat, stage: seq<Stage>, meta: seq<Packet>, mode: bool)
    requires VaultOk(c, u, v, stage, meta)
    ensures VaultOk(c, u.(writeMode := mode), v, stage, meta)
  {}

  lemma ServeInv(c: Config, st: State, v: nat, pick: int, served: bool)
    requires Inv(c, st) && v < c.vaults
    ensures Inv(c, AfterServe(c, st, v, pick, served))
  {
    var u := st.vaults[v];
    assert VaultOk(c, u, v, st.stage, st.meta);
    hide Inv, VaultOk, TickServe;
    if Finishes(u, pick, served) {
      FinishVault(c, u, v, st.stage, st.meta, pick);
      var k := Served(u)[pick].id;
      VaultMove(c, st, v, TickServe(c, u, pick, served), k, Pending(v));
      var moved := st.(vaults := st.vaults[v := TickServe(c, u, pick, served)], stage := st.stage[k := Pending(v)]);
      RecordsFree(c, moved, AfterServe(c, st, v, pick, served));
    } else {
      BurstVault(c, u, v, st.stage, st.meta, pick, served);
      VaultStay(c, st, v, TickServe(c, u, pick, served));
      var stayed := st.(vaults := st.vaults[v := TickServe(c, u, pick, served)]);
      RecordsFree(c, stayed, AfterServe(c, st, v, pick, served));
    }
  }

  lemma FinishVault(c: Config, u: Vault, v: nat, stage: seq<Stage>, meta: seq<Packet>, pick: int)
    requires VaultOk(c, u, v, stage, meta) && Finishes(u, pick, true)
    ensures var k := Served(u)[pick].id;
            && k < |stage| && AtVault(stage[k], v)
            && VaultOk(c, TickServe(c, u, pick, true), v, stage[k := Pending(v)], meta)
  {
    hide Holds, QueuesOk, IncomingOk, TickServe, Without;
    var done := FinishIs(c, u, pick);
    if u.writeMode {
      WriteFinish(c, u, v, stage, meta, pick, done);
    } else {
      ReadFinish(c, u, v, stage, meta, pick, done);
    }
  }

  lemma FinishIs(c: Config, u: Vault, pick: int) returns (done: Request)
    requires Finishes(u, pick, true)
    ensures done.id == Served(u)[pick].id && done.write == Served(u)[pick].write && done.addr == Served(u)[pick].addr
    ensures TickServe(c, u, pick, true) ==
            if u.writeMode then u.(writeq := Without(u.writeq, pick), pending := u.pending + [done])
            else u.(readq := Without(u.readq, pick), pending := u.pending + [done])
  {
    var q := Served(u)[pick].(burst := 0);
    done := q.(depart := u.clk + if q.write then c.writeLatency else c.readLatency);
  }

  lemma BurstVault(c: Config, u: Vault, v: nat, stage: seq<Stage>, meta: seq<Packet>, pick: int, served: bool)
    requires VaultOk(c, u, v, stage, meta) && !Finishes(u, pick, served)
    ensures VaultOk(c, TickServe(c, u, pick, served), v, stage, meta)
  {
    ServedBurst(c, u, v, stage, meta);
    hide Holds, QueuesOk, IncomingOk;
    if 0 <= pick < |Served(u)| && served {
      VaultBurst(c, u, v, stage, meta, u.writeMode, pick, Served(u)[pick].(burst := Served(u)[pick].burst - 1));
    }
  }

  lemma ServedBurst(c: Config, u: Vault, v: nat, stage: seq<Stage>, meta: seq<Packet>)
    requires QueuesOk(c, u, v, stage, meta)
    ensures forall i | 0 <= i < |Served(u)| :: Served(u)[i].burst >= 1
  {}

  lemma TickInv(c: Config, st: State, v: nat, pick: int, served: bool)
    requires Inv(c, st) && v < c.vaults
    ensures Inv(c, AfterTick(c, st, v, pick, served))
  {
    FrontInv(c, st, v);
    ServeInv(c, AfterFront(c, st, v), v, pick, served);
  }

  // What a cycle does to the pending requests and the responses of a vault, told from the vault before it.
  ghost predicate AnswersDue(meta: seq<Packet>, u: Vault, next: Vault) {
    var due := u.pending != [] && u.pending[0].depart <= u.clk + 1;
    && next.clk == u.clk + 1 && u.responses <= next.responses
    && |next.responses| == |u.responses| + (if due then 1 else 0)
    && (due ==> next.responses[|u.responses|].id == u.pending[0].id && IsAnswer(next.responses[|u.responses|], meta))
    && (if due then u.pending[1..] else u.pending) <= next.pending
  }

  /** In a cycle the oldest pending request is answered if it is due, and no other; the rest keep their order. */
  lemma TickAnswers(c: Config, st: State, v: nat, pick: int, served: bool)
    requires Inv(c, st) && v < c.vaults
    ensures AnswersDue(st.meta, st.vaults[v], AfterTick(c, st, v, pick, served).vaults[v])
  {
    hide Inv, AnswersDue, TickFront, TickServe, AnswersNow;
    InvShape(c, st);
    OneVault(c, st, v);
    FrontDue(c, st.vaults[v], v, st.stage, st.meta);
    ServeDue(c, st.meta, st.vaults[v], TickFront(c, st.vaults[v]), pick, served);
  }

  lemma FrontDue(c: Config, u: Vault, v: nat, stage: seq<Stage>, meta: seq<Packet>)
    requires VaultOk(c, u, v, stage, meta)
    ensures AnswersDue(meta, u, TickFront(c, u))
  {
    FrontVault(c, u, v, stage, meta);
    if u.pending != [] { assert IsRequest(u.pending[0], meta); }
  }

  lemma ServeDue(c: Config, meta: seq<Packet>, u: Vault, u1: Vault, pick: int, served: bool)
    requires AnswersDue(meta, u, u1)
    ensures AnswersDue(meta, u, TickServe(c, u1, pick, served))
  {}
}
