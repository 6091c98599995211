/** When a vault answers: every request leaves its queue with its last burst, and is answered in the first cycle of
    its vault in which its latency is over and the answer before it is out. */
module HmcTimes {
  import opened Places
  import opened HmcStages
  import opened HmcMoves
  import opened HmcSystem
  import A = HmcAddress
  import opened BitArithmetic
  import opened HmcMemory
  import opened HmcRuns

  function Max(a: int, b: int): int { if a >= b then a else b }

  function Latency(c: Config, write: bool): int { if write then c.writeLatency else c.readLatency }

  // The clock at which a request left its queue, or was answered by a queued write on arrival.
  function LeftAt(h: Past): int { if h.forwarded then h.arrive else h.burstAt }

  // A forwarded read leaves without a burst, any other request with the last of all its bursts.
  predicate HasLeft(c: Config, write: bool, h: Past) {
    if h.forwarded then !write && h.bursts == 0 else h.bursts == c.burst
  }

  function DepartOf(c: Config, write: bool, h: Past): int {
    if h.forwarded then h.arrive + 1 else h.burstAt + Latency(c, write)
  }

  // The first cycle in which it could be answered: not the one in which it left.
  function ReadyAt(c: Config, write: bool, h: Past): int { Max(DepartOf(c, write, h), LeftAt(h) + 1) }

  // A queued request has been served all bursts but those it still has to be served.
  predicate QueuedOk(c: Config, q: Request, past: seq<Past>) {
    && q.id < |past| && !past[q.id].forwarded && past[q.id].bursts + q.burst == c.burst
    && past[q.id].answeredAt == NEVER && past[q.id].arrive == q.arrive
  }

  predicate PendingOk(c: Config, q: Request, past: seq<Past>, clk: int) {
    && q.id < |past| && HasLeft(c, q.write, past[q.id]) && past[q.id].answeredAt == NEVER
    && q.depart == DepartOf(c, q.write, past[q.id]) && LeftAt(past[q.id]) <= clk
  }

  // The oldest pending request could be answered by now.
  predicate HeadReady(c: Config, u: Vault, past: seq<Past>) {
    && u.pending != [] && u.pending[0].id < |past|
    && ReadyAt(c, u.pending[0].write, past[u.pending[0].id]) <= u.clk
  }

  ghost predicate QueueTimely(c: Config, qs: seq<Request>, past: seq<Past>) {
    forall i | 0 <= i < |qs| :: QueuedOk(c, qs[i], past)
  }

  ghost predicate VaultTimely(c: Config, u: Vault, past: seq<Past>, last: int) {
    && QueueTimely(c, u.readq, past) && QueueTimely(c, u.writeq, past)
    && (forall i | 0 <= i < |u.pending| :: PendingOk(c, u.pending[i], past, u.clk))
    && last <= u.clk
    && (HeadReady(c, u, past) ==> last == u.clk)
  }

  predicate IsOut(st: Stage) { st.Answering? || st.Leaving? || st == Done }

  // An answered request: in the first cycle in which it was ready and the vault's answer before it was out.
  predicate AnsweredOk(c: Config, write: bool, h: Past) {
    HasLeft(c, write, h) && h.answeredAt == Max(ReadyAt(c, write, h), h.before + 1)
  }

  predicate RecordOk(c: Config, st: Stage, p: Packet, h: Past) {
    (st.Arriving? ==> h == NO_PAST) && (IsOut(st) ==> AnsweredOk(c, p.write, h))
  }

  /** Every record fits the place of its request. */
  ghost predicate Timely(c: Config, st: State)
    requires Shape(c, st)
  {
    && (forall v: nat | v < c.vaults :: VaultTimely(c, st.vaults[v], st.past, st.last[v]))
    && (forall k: nat | k < |st.stage| :: RecordOk(c, st.stage[k], st.meta[k], st.past[k]))
  }

  // --- What follows. ---

  /** On-time answers. A request that was answered had been served just its bursts, or been forwarded on arrival; and
      it was answered in the first cycle of its vault that was both after the answer before it and at its departure:
      the latency of its own kind after its last burst (with a latency below one, the next cycle), or one cycle after
      its arrival. */
  lemma AnsweredOnTime(c: Config, st: State, k: nat)
    requires Inv(c, st) && Timely(c, st) && k < |st.stage| && IsOut(st.stage[k])
    ensures var h := st.past[k];
            && (h.forwarded ==> !st.meta[k].write && h.bursts == 0) && (!h.forwarded ==> h.bursts == c.burst)
            && h.answeredAt == Max(h.before + 1,
                 if h.forwarded then h.arrive + 1
                 else h.burstAt + Max(1, if st.meta[k].write then c.writeLatency else c.readLatency))
  {
    assert RecordOk(c, st.stage[k], st.meta[k], st.past[k]);
  }

  /** A request is in a queue for as long as it has not been served all its bursts. From then on it is pending, and
      departs the latency of its own kind after its last burst, or one cycle after its arrival. */
  lemma QueuedUntilServed(c: Config, st: State, v: nat, i: nat)
    requires Inv(c, st) && Timely(c, st) && v < c.vaults
    ensures i < |st.vaults[v].readq| ==>
              var q := st.vaults[v].readq[i]; q.id < |st.past| && st.past[q.id].bursts < c.burst
    ensures i < |st.vaults[v].writeq| ==>
              var q := st.vaults[v].writeq[i]; q.id < |st.past| && st.past[q.id].bursts < c.burst
    ensures i < |st.vaults[v].pending| ==>
              var q := st.vaults[v].pending[i];
              && q.id < |st.past|
              && var h := st.past[q.id];
              && (if h.forwarded then !q.write && q.depart == h.arrive + 1
                  else h.bursts == c.burst
                       && q.depart == h.burstAt + if q.write then c.writeLatency else c.readLatency)
  {
    assert VaultOk(c, st.vaults[v], v, st.stage, st.meta) && VaultTimely(c, st.vaults[v], st.past, st.last[v]);
    if i < |st.vaults[v].readq| { assert QueuedOk(c, st.vaults[v].readq[i], st.past); }
    if i < |st.vaults[v].writeq| { assert QueuedOk(c, st.vaults[v].writeq[i], st.past); }
  }

  // --- Frames. ---

  // The record of a request that is not in the vault does not matter to it.
  lemma VaultFrame(c: Config, u: Vault, v: nat, stage: seq<Stage>, meta: seq<Packet>, past: seq<Past>, past': seq<Past>,
      last: int, k: nat)
    requires QueuesOk(c, u, v, stage, meta) && VaultTimely(c, u, past, last) && |past| <= |past'|
    requires k < |stage| && !InVault(stage[k], v)
    requires forall j | 0 <= j < |past| && j != k :: past'[j] == past[j]
    ensures VaultTimely(c, u, past', last)
  {
    NotListed(u.readq, stage, k, Reading(v));
    NotListed(u.writeq, stage, k, Writing(v));
    NotListed(u.pending, stage, k, Pending(v));
  }

  lemma NotListed(qs: seq<Request>, stage: seq<Stage>, k: nat, st: Stage)
    requires Holds(RequestIds(qs), stage, st) && k < |stage| && stage[k] != st
    ensures forall i | 0 <= i < |qs| :: qs[i].id != k
  {
    forall i | 0 <= i < |qs| ensures qs[i].id != k { assert RequestIds(qs)[i] == qs[i].id; }
  }

  // In its own list a request is listed once.
  lemma ListedOnce(qs: seq<Request>, stage: seq<Stage>, st: Stage, i: nat)
    requires Holds(RequestIds(qs), stage, st) && i < |qs|
    ensures qs[i].id < |stage| && stage[qs[i].id] == st && forall j | 0 <= j < |qs| && j != i :: qs[j].id != qs[i].id
  {
    assert RequestIds(qs)[i] == qs[i].id;
    forall j | 0 <= j < |qs| && j != i ensures qs[j].id != qs[i].id {
      assert if i < j then Unlike(RequestIds(qs), i, j) else Unlike(RequestIds(qs), j, i);
    }
  }

  // --- Steps of one vault. ---

  lemma TakeTimes(c: Config, u: Vault, v: nat, stage: seq<Stage>, meta: seq<Packet>, past: seq<Past>, last: int,
      p: Packet)
    requires QueuesOk(c, u, v, stage, meta) && VaultTimely(c, u, past, last) && |past| == |stage| && p.id < |stage|
    requires stage[p.id].Arriving? && past[p.id] == NO_PAST && TakeOk(c, u, p)
    ensures VaultTimely(c, TakeVault(c, u, p), past[p.id := Taken(u, p, past[p.id])], last)
  {
    var past' := past[p.id := Taken(u, p, past[p.id])];
    VaultFrame(c, u, v, stage, meta, past, past', last, p.id);
  }

  // A refused packet is noted, and nothing else.
  lemma RefuseTimes(c: Config, u: Vault, past: seq<Past>, last: int, p: Packet)
    requires VaultTimely(c, u, past, last) && !TakeOk(c, u, p)
    ensures VaultTimely(c, TakeVault(c, u, p), past, last)
  {}

  lemma FrontTimes(c: Config, u: Vault, v: nat, stage: seq<Stage>, meta: seq<Packet>, past: seq<Past>, last: int)
    requires VaultOk(c, u, v, stage, meta) && VaultTimely(c, u, past, last) && |past| == |stage|
    ensures !AnswersNow(u.(clk := u.clk + 1)) ==> VaultTimely(c, TickFront(c, u), past, last)
    ensures AnswersNow(u.(clk := u.clk + 1)) ==>
              var k, clk := u.pending[0].id, u.clk + 1;
              k < |past| &&
              var h := past[k].(answeredAt := clk, before := last);
              && VaultTimely(c, TickFront(c, u), past[k := h], clk)
              && k < |meta| && AnsweredOk(c, meta[k].write, h)
  {
    var u0 := u.(clk := u.clk + 1);
    if u.pending != [] {
      ListedOnce(u.pending, stage, Pending(v), 0);
      assert PendingOk(c, u.pending[0], past, u.clk) && IsRequest(u.pending[0], meta);
    }
    if AnswersNow(u0) {
      var k := u.pending[0].id;
      var past' := past[k := past[k].(answeredAt := u0.clk, before := last)];
      NotListed(u.readq, stage, k, Reading(v));
      NotListed(u.writeq, stage, k, Writing(v));
      hide VaultOk, QueuesOk, Holds;
      assert forall i | 0 <= i < |u.pending| - 1 :: u.pending[1..][i] == u.pending[i + 1];
      assert TickFront(c, u).pending == u.pending[1..];
    }
  }

  lemma ServeTimes(c: Config, u: Vault, v: nat, stage: seq<Stage>, meta: seq<Packet>, past: seq<Past>, last: int,
      pick: nat)
    requires VaultOk(c, u, v, stage, meta) && VaultTimely(c, u, past, last) && |past| == |stage| && pick < |Served(u)|
    ensures var k := Served(u)[pick].id;
            && k < |past| && stage[k] == (if u.writeMode then Writing(v) else Reading(v))
            && VaultTimely(c, TickServe(c, u, pick, true), past[k := Bursted(u, past[k])], last)
  {
    var qs, at := Served(u), if u.writeMode then Writing(v) else Reading(v);
    ListedOnce(qs, stage, at, pick);
    var k := qs[pick].id;
    QueueBurst(c, u, qs, past, pick);
    NotListed(u.pending, stage, k, Pending(v));
    if u.writeMode { NotListed(u.readq, stage, k, Reading(v)); } else { NotListed(u.writeq, stage, k, Writing(v)); }
    assert QueuedOk(c, qs[pick], past);
    assert IsRequest(qs[pick], meta);
    hide VaultOk, QueuesOk, Holds;
    if !u.writeMode { QueueOther(c, u.writeq, past, k, Bursted(u, past[k])); }
    if u.writeMode { QueueOther(c, u.readq, past, k, Bursted(u, past[k])); }
    hide QueueTimely, IsRequest;
  }

  lemma QueueOther(c: Config, qs: seq<Request>, past: seq<Past>, k: nat, h: Past)
    requires QueueTimely(c, qs, past) && k < |past| && forall i | 0 <= i < |qs| :: qs[i].id != k
    ensures QueueTimely(c, qs, past[k := h])
  {}

  // A burst brings a request nearer to its last one, in the queue or out of it.
  lemma QueueBurst(c: Config, u: Vault, qs: seq<Request>, past: seq<Past>, pick: nat)
    requires QueueTimely(c, qs, past) && pick < |qs|
    requires forall i | 0 <= i < |qs| && i != pick :: qs[i].id != qs[pick].id
    ensures qs[pick].id < |past|
    ensures var past' := past[qs[pick].id := Bursted(u, past[qs[pick].id])];
            && QueueTimely(c, Without(qs, pick), past')
            && QueueTimely(c, qs[pick := qs[pick].(burst := qs[pick].burst - 1)], past')
  {
    assert QueuedOk(c, qs[pick], past);
  }

  // --- Steps of the cube. ---

  // One vault changed, and one request with a place in it or on the way to it.
  lemma MoveTimely(c: Config, st: State, next: State, v: nat, k: nat)
    requires Inv(c, st) && Timely(c, st) && Shape(c, next) && v < c.vaults
    requires k < |st.stage| == |next.stage|
    requires AtVault(st.stage[k], v) || st.stage[k].Arriving?
    requires next.vaults == st.vaults[v := next.vaults[v]] && next.last == st.last[v := next.last[v]]
    requires next.past == st.past[k := next.past[k]] && next.stage == st.stage[k := next.stage[k]]
    requires next.meta == st.meta && VaultTimely(c, next.vaults[v], next.past, next.last[v])
    requires RecordOk(c, next.stage[k], st.meta[k], next.past[k])
    ensures Timely(c, next)
  {
    forall x: nat | x < c.vaults && x != v ensures VaultTimely(c, next.vaults[x], next.past, next.last[x]) {
      assert VaultOk(c, st.vaults[x], x, st.stage, st.meta);
      VaultFrame(c, st.vaults[x], x, st.stage, st.meta, st.past, next.past, st.last[x], k);
    }
  }

  lemma TakeTimely(c: Config, st: State, s: nat)
    requires c.Valid() && Inv(c, st) && Timely(c, st) && s < c.links && st.links[s].input != []
    ensures st.links[s].input[0].vault < c.vaults && Timely(c, AfterTake(c, st, s))
  {
    hide Inv, VaultTimely, TakeVault, LinkOk, QueuesOk, IncomingOk, TakeOk, Taken, VaultOk;
    InvShape(c, st);
    TakeInv(c, st, s);
    ListedInput(c, st, s);
    var p, next := st.links[s].input[0], AfterTake(c, st, s);
    var u, v := st.vaults[p.vault], p.vault;
    assert RecordOk(c, st.stage[p.id], st.meta[p.id], st.past[p.id]);
    OneVault(c, st, v);
    if TakeOk(c, u, p) {
      TakeTimes(c, u, v, st.stage, st.meta, st.past, st.last[v], p);
      MoveTimely(c, st, next, v, p.id);
    } else {
      RefuseTimes(c, u, st.past, st.last[v], p);
    }
  }

  lemma RespondTimely(c: Config, st: State, v: nat)
    requires Inv(c, st) && Timely(c, st) && v < c.vaults && st.vaults[v].responses != []
    ensures Timely(c, AfterRespond(c, st, v))
  {
    RespondInv(c, st, v);
    var next := AfterRespond(c, st, v);
    hide Inv;
    forall x: nat | x < c.vaults ensures VaultTimely(c, next.vaults[x], next.past, next.last[x]) {
      assert VaultTimely(c, st.vaults[x], st.past, st.last[x]);
    }
  }

  lemma DeliverTimely(c: Config, st: State, s: nat)
    requires Inv(c, st) && Timely(c, st) && s < c.links && st.links[s].output != []
    ensures Timely(c, AfterDeliver(c, st, s))
  {
    DeliverInv(c, st, s);
    hide Inv, VaultTimely;
  }

  lemma SendTimely(c: Config, st: State, p: Packet)
    requires Inv(c, st) && Timely(c, st) && p.slid < c.links && st.pools[p.slid] != []
    ensures Timely(c, AfterSend(c, st, p))
  {
    var next := AfterSend(c, st, p);
    forall x: nat | x < c.vaults ensures VaultTimely(c, next.vaults[x], next.past, next.last[x]) {
      assert VaultTimely(c, st.vaults[x], st.past, st.last[x]);
    }
  }

  lemma LoseTimely(c: Config, st: State, s: nat)
    requires Inv(c, st) && Timely(c, st) && s < c.links && st.pools[s] != []
    ensures Timely(c, AfterLose(c, st, s))
  {}

  lemma FrontTimely(c: Config, st: State, v: nat)
    requires Inv(c, st) && Timely(c, st) && v < c.vaults
    ensures Timely(c, AfterFront(c, st, v))
  {
    hide Inv, VaultOk, VaultTimely, TickFront, AnsweredOk;
    InvShape(c, st);
    var u, next := st.vaults[v], AfterFront(c, st, v);
    OneVault(c, st, v);
    FrontTimes(c, u, v, st.stage, st.meta, st.past, st.last[v]);
    ListedPending(c, st, v);
    if AnswersNow(u.(clk := u.clk + 1)) { MoveTimely(c, st, next, v, u.pending[0].id); }
  }

  lemma ListedPending(c: Config, st: State, v: nat)
    requires Inv(c, st) && v < c.vaults
    ensures st.vaults[v].pending != [] ==>
              st.vaults[v].pending[0].id < |st.stage| && st.stage[st.vaults[v].pending[0].id] == Pending(v)
  {
    assert VaultOk(c, st.vaults[v], v, st.stage, st.meta);
    if st.vaults[v].pending != [] { ListedOnce(st.vaults[v].pending, st.stage, Pending(v), 0); }
  }

  lemma ServeTimely(c: Config, st: State, v: nat, pick: int, served: bool)
    requires Inv(c, st) && Timely(c, st) && v < c.vaults
    ensures Timely(c, AfterServe(c, st, v, pick, served))
  {
    hide Inv, VaultOk, VaultTimely, TickServe, Bursted;
    InvShape(c, st);
    var u, next := st.vaults[v], AfterServe(c, st, v, pick, served);
    OneVault(c, st, v);
    if served && 0 <= pick < |Served(u)| {
      ServeTimes(c, u, v, st.stage, st.meta, st.past, st.last[v], pick);
      MoveTimely(c, st, next, v, Served(u)[pick].id);
    } else {
      NotServed(c, u, pick, served);
    }
  }

  lemma NotServed(c: Config, u: Vault, pick: int, served: bool)
    requires !served || !(0 <= pick < |Served(u)|)
    ensures TickServe(c, u, pick, served) == u
  {}

  // --- Runs. ---

  lemma {:induction false} RouteInTimely(c: Config, st: State, s: nat, used: set<nat>)
    requires c.Valid() && Inv(c, st) && Timely(c, st)
    ensures Timely(c, RouteIn(c, st, s, used))
    decreases c.links - s
  {
    hide Inv, Timely, AfterTake, TakeOk;
    InvShape(c, st);
    if s < c.links {
      if st.links[s].input == [] || st.links[s].input[0].vault in used || st.links[s].input[0].vault >= c.vaults {
        RouteInTimely(c, st, s + 1, used);
      } else {
        var p := st.links[s].input[0];
        TakeInv(c, st, s);
        TakeTimely(c, st, s);
        var used' := if TakeOk(c, st.vaults[p.vault], p) then used + {p.vault} else used;
        RouteInTimely(c, AfterTake(c, st, s), s + 1, used');
      }
    }
  }

  lemma {:induction false} RouteOutTimely(c: Config, st: State, v: nat, used: set<nat>)
    requires Inv(c, st) && Timely(c, st)
    ensures Timely(c, RouteOut(c, st, v, used))
    decreases c.vaults - v
  {
    hide Inv, Timely, AfterRespond, Flits;
    InvShape(c, st);
    if v < c.vaults {
      if st.vaults[v].responses == [] || st.vaults[v].responses[0].slid in used ||
         st.vaults[v].responses[0].slid >= c.links {
        RouteOutTimely(c, st, v + 1, used);
      } else {
        var r := st.vaults[v].responses[0];
        if Flits(c, r) <= LINK_BUFFER - |st.links[r.slid].output| {
          RespondInv(c, st, v);
          RespondTimely(c, st, v);
          RouteOutTimely(c, AfterRespond(c, st, v), v + 1, used + {r.slid});
        } else {
          RouteOutTimely(c, st, v + 1, used);
        }
      }
    }
  }

  lemma StepTimely(c: Config, m: A.Map, st: State, step: Step)
    requires Cube(c, m, st) && Timely(c, st)
    ensures Inv(c, After(c, m, st, step)) && Timely(c, After(c, m, st, step))
  {
    hide Inv, Timely, Pow2, RouteIn, RouteOut, AfterFront, AfterServe;
    InvShape(c, st);
    StepKeeps(c, m, st, step, 0);
    match step
    case Send(write, address) =>
      var s := LinkOf(c, m, address);
      if st.pools[s] != [] {
        LoseTimely(c, st, s);
        SendTimely(c, st, Packet(|st.stage|, write, address % m.MaxAddress(), VaultOf(m, address), s, st.pools[s][0]));
      }
    case Crossbar =>
      RouteInTimely(c, st, 0, {});
      RouteInKeeps(c, st, 0, {});
      RouteOutTimely(c, RouteIn(c, st, 0, {}), 0, {});
    case Cycle(v, pick, served) =>
      if v < c.vaults {
        FrontInv(c, st, v);
        FrontTimely(c, st, v);
        ServeTimely(c, AfterFront(c, st, v), v, pick, served);
      }
    case Deliver(s) =>
      if s < c.links && st.links[s].output != [] { DeliverTimely(c, st, s); }
  }

  /** On-time answers on every run of a cube from its construction on, hence of every driven cube. */
  lemma {:induction false} RunTimely(c: Config, m: A.Map, steps: seq<Step>)
    requires Cube(c, m, New(c))
    ensures Inv(c, Run(c, m, New(c), steps)) && Timely(c, Run(c, m, New(c), steps))
  {
    hide Inv, Timely, After;
    if steps == [] {
      NewTimely(c);
    } else {
      RunTimely(c, m, steps[..|steps| - 1]);
      StepTimely(c, m, Run(c, m, New(c), steps[..|steps| - 1]), steps[|steps| - 1]);
    }
  }

  lemma NewTimely(c: Config)
    ensures Timely(c, New(c))
  {}
}
