/** The queues of a memory controller, and what is recorded of every request it accepted. */
module ControllerQueues {
  import opened Places

  datatype Kind = Read | Write | Other

  // `vec` is the address by levels; `first` says that no command was issued on behalf of the request yet.
  datatype Request = Request(id: nat, kind: Kind, addr: int, vec: seq<int>, first: bool, arrive: int, depart: int)

  datatype Config = Config(queueMax: nat, readLatency: nat, writeLatency: nat)

  datatype Queues = Queues(clk: int, writeMode: bool, readq: seq<Request>, writeq: seq<Request>, otherq: seq<Request>,
                           pending: seq<Request>, pendingWrite: seq<Request>)

  datatype Stage = InReadq | InWriteq | InOtherq | InPending | InPendingWrite | Completed

  // A request called back (or, for the others, dropped when its command issued), and when.
  datatype Done = Done(req: Request, at: int)

  /** By request id, in the order of acceptance: where it is, as it arrived, when its data command was issued
      (-1: not yet, or never for a forwarded read), and whether it is being served. */
  datatype Trace = Trace(stage: seq<Stage>, accepted: seq<Request>, issued: seq<int>, live: seq<bool>, done: seq<Done>)

  const NOT_ISSUED := -1

  function Ids(rs: seq<Request>): (ids: seq<nat>)
    ensures |ids| == |rs| && forall i | 0 <= i < |rs| :: ids[i] == rs[i].id
  {
    seq(|rs|, i requires 0 <= i < |rs| => rs[i].id)
  }

  function DoneIds(ds: seq<Done>): (ids: seq<nat>)
    ensures |ids| == |ds| && forall i | 0 <= i < |ds| :: ids[i] == ds[i].req.id
  {
    seq(|ds|, i requires 0 <= i < |ds| => ds[i].req.id)
  }

  function Max(a: int, b: int): int { if a >= b then a else b }

  // --- The partition. ---

  /** Every accepted request is in exactly one queue or pending list, or completed, and there once. */
  ghost predicate Placed(q: Queues, tr: Trace) {
    && Holds(Ids(q.readq), tr.stage, InReadq) && Holds(Ids(q.writeq), tr.stage, InWriteq)
    && Holds(Ids(q.otherq), tr.stage, InOtherq) && Holds(Ids(q.pending), tr.stage, InPending)
    && Holds(Ids(q.pendingWrite), tr.stage, InPendingWrite) && Holds(DoneIds(tr.done), tr.stage, Completed)
  }

  ghost predicate Shape(tr: Trace) {
    |tr.accepted| == |tr.stage| && |tr.issued| == |tr.stage| && |tr.live| == |tr.stage|
  }

  ghost predicate Agrees(r: Request, kind: Kind, tr: Trace) {
    && r.kind == kind && r.id < |tr.accepted| && tr.accepted[r.id].kind == kind && tr.accepted[r.id].addr == r.addr
    && tr.accepted[r.id].vec == r.vec && tr.accepted[r.id].arrive == r.arrive
  }

  ghost predicate AllAgree(rs: seq<Request>, kind: Kind, tr: Trace) {
    forall i | 0 <= i < |rs| :: Agrees(rs[i], kind, tr)
  }

  ghost predicate Faithful(c: Config, q: Queues, tr: Trace) {
    && AllAgree(q.readq, Read, tr) && AllAgree(q.writeq, Write, tr) && AllAgree(q.otherq, Other, tr)
    && AllAgree(q.pending, Read, tr) && AllAgree(q.pendingWrite, Write, tr)
    && (forall i | 0 <= i < |tr.done| :: Agrees(tr.done[i].req, tr.done[i].req.kind, tr))
    && |q.readq| <= c.queueMax && |q.writeq| <= c.queueMax && |q.otherq| <= c.queueMax
  }

  // --- Order and time. ---

  /** A queued read of an address that a queued write will write was accepted before that write. */
  ghost predicate ReadsFirst(q: Queues) {
    forall i, j | 0 <= i < |q.readq| && 0 <= j < |q.writeq| && q.readq[i].addr == q.writeq[j].addr ::
      q.readq[i].id < q.writeq[j].id
  }

  // A read that waits for its latency, or one that a queued write answered.
  ghost predicate ReadDue(c: Config, r: Request, clk: int, tr: Trace) {
    && r.id < |tr.issued|
    && if tr.issued[r.id] == NOT_ISSUED then r.depart == r.arrive + 1
       else r.arrive < tr.issued[r.id] <= clk && r.depart == tr.issued[r.id] + c.readLatency
  }

  // A write that waits for its latency, and will be called back just then (but one cycle on at the earliest).
  ghost predicate WriteDue(c: Config, r: Request, clk: int, tr: Trace) {
    && r.id < |tr.issued| && 0 <= tr.issued[r.id] <= clk
    && r.depart == tr.issued[r.id] + c.writeLatency && tr.issued[r.id] + Max(c.writeLatency, 1) > clk
  }

  ghost predicate Later(tr: Trace, r: Request, s: Request) {
    r.id < |tr.issued| && s.id < |tr.issued| && tr.issued[r.id] < tr.issued[s.id]
  }

  ghost predicate Waiting(rs: seq<Request>, tr: Trace) {
    forall i | 0 <= i < |rs| :: rs[i].id < |tr.issued| && tr.issued[rs[i].id] == NOT_ISSUED
  }

  /** A completed request was not called back before its departure; a write was called back exactly its latency
      after its command, or one cycle after it when the latency is zero. */
  ghost predicate OnTime(c: Config, d: Done, tr: Trace) {
    && (d.req.kind != Other ==> d.at >= d.req.depart) && d.req.id < |tr.issued|
    && (d.req.kind == Write ==> d.at == tr.issued[d.req.id] + Max(c.writeLatency, 1))
    && (d.req.kind == Read ==> ReadDue(c, d.req, d.at, tr))
  }

  // The pending writes were issued one after the other, at most one a cycle.
  ghost predicate WritesDue(c: Config, ws: seq<Request>, clk: int, tr: Trace) {
    && (forall i | 0 <= i < |ws| :: WriteDue(c, ws[i], clk, tr))
    && (forall i, j {:trigger Later(tr, ws[i], ws[j])} | 0 <= i < j < |ws| :: Later(tr, ws[i], ws[j]))
  }

  ghost predicate ReadsDue(c: Config, rs: seq<Request>, clk: int, tr: Trace) {
    forall i | 0 <= i < |rs| :: ReadDue(c, rs[i], clk, tr)
  }

  ghost predicate Arrived(clk: int, tr: Trace) {
    forall k | 0 <= k < |tr.accepted| :: tr.accepted[k].arrive <= clk
  }

  ghost predicate AllOnTime(c: Config, tr: Trace) {
    forall i | 0 <= i < |tr.done| :: OnTime(c, tr.done[i], tr)
  }

  ghost predicate Timed(c: Config, q: Queues, tr: Trace) {
    && 0 <= q.clk && Arrived(q.clk, tr) && Waiting(q.readq, tr) && Waiting(q.writeq, tr)
    && ReadsDue(c, q.pending, q.clk, tr) && WritesDue(c, q.pendingWrite, q.clk, tr) && AllOnTime(c, tr)
  }

  // --- Service. ---

  ghost predicate Started(rs: seq<Request>, tr: Trace) {
    forall i | 0 <= i < |rs| :: rs[i].id < |tr.live| && (tr.live[rs[i].id] <==> !rs[i].first)
  }

  ghost predicate NotLive(rs: seq<Request>, tr: Trace) {
    forall i | 0 <= i < |rs| :: rs[i].id < |tr.live| && !tr.live[rs[i].id]
  }

  /** The requests counted as being served: queued ones on whose behalf a command was issued, and pending reads
      that really accessed a row. That a completed request never is needs a read latency of at least one. */
  ghost predicate Served(c: Config, q: Queues, tr: Trace) {
    && Started(q.readq, tr) && Started(q.writeq, tr) && NotLive(q.otherq, tr) && NotLive(q.pendingWrite, tr)
    && (forall i | 0 <= i < |q.pending| :: q.pending[i].id < |tr.live| && q.pending[i].id < |tr.issued|
          && (tr.live[q.pending[i].id] <==> tr.issued[q.pending[i].id] != NOT_ISSUED))
    && (c.readLatency >= 1 ==>
          forall i | 0 <= i < |tr.done| :: tr.done[i].req.id < |tr.live| && !tr.live[tr.done[i].req.id])
  }

  // --- Where the data of a read comes from. ---

  // Write `w` of the address of read `k` was still queued when the read arrived.
  ghost predicate WasQueued(tr: Trace, w: nat, k: nat)
    requires Shape(tr) && w < |tr.accepted| && k < |tr.accepted|
  {
    && tr.accepted[w].kind == Write && tr.accepted[w].addr == tr.accepted[k].addr
    && (tr.issued[w] == NOT_ISSUED || tr.issued[w] > tr.accepted[k].arrive)
  }

  // Some write that was accepted before read `k` could answer it when it arrived.
  ghost predicate OlderWrite(tr: Trace, k: nat)
    requires Shape(tr) && k < |tr.accepted|
  {
    exists w: nat | w < k :: WasQueued(tr, w, k)
  }

  ghost predicate SourceOk(clk: int, tr: Trace, k: nat)
    requires Shape(tr) && k < |tr.accepted|
  {
    && tr.issued[k] <= clk
    && (tr.accepted[k].kind == Write ==> (tr.issued[k] == NOT_ISSUED <==> tr.stage[k] == InWriteq))
    && (tr.accepted[k].kind == Read ==>
          (OlderWrite(tr, k) <==> tr.stage[k] != InReadq && tr.issued[k] == NOT_ISSUED))
  }

  /** A read has left its queue without a command of its own exactly when a write of its address that was accepted
      before it was still queued at its arrival. */
  ghost predicate Sourced(q: Queues, tr: Trace)
    requires Shape(tr)
  {
    forall k: nat | k < |tr.accepted| :: SourceOk(q.clk, tr, k)
  }

  // --- Reads are called back in turn. ---

  // The clock of the last call back of a read, or -1.
  function LastRead(ds: seq<Done>): int {
    if ds == [] then -1 else
      if ds[|ds| - 1].req.kind == Read then ds[|ds| - 1].at else LastRead(ds[..|ds| - 1])
  }

  // The first cycle in which read `k` could be called back: its latency after its command, or the cycle after its
  // arrival if a queued write answered it; in any case not the cycle in which it joined its list.
  function ReadyAt(c: Config, tr: Trace, k: nat): int
    requires k < |tr.issued| && k < |tr.accepted|
  {
    if tr.issued[k] == NOT_ISSUED then tr.accepted[k].arrive + 1 else tr.issued[k] + Max(c.readLatency, 1)
  }

  ghost predicate InTurn(c: Config, tr: Trace, i: nat)
    requires Shape(tr) && i < |tr.done|
  {
    tr.done[i].req.kind == Read ==>
      && tr.done[i].req.id < |tr.accepted|
      && tr.done[i].at == Max(ReadyAt(c, tr, tr.done[i].req.id), LastRead(tr.done[..i]) + 1)
  }

  /** Every read is called back in the first cycle in which it is ready and the one before it is done; and the oldest
      pending read is overdue only in a cycle that has called back another. */
  ghost predicate Prompt(c: Config, q: Queues, tr: Trace)
    requires Shape(tr)
  {
    && (forall i: nat | i < |tr.done| :: InTurn(c, tr, i)) && LastRead(tr.done) <= q.clk
    && (q.pending != [] ==>
          && q.pending[0].id < |tr.accepted|
          && (ReadyAt(c, tr, q.pending[0].id) <= q.clk ==> LastRead(tr.done) == q.clk))
  }

  ghost predicate Inv(c: Config, q: Queues, tr: Trace) {
    && Shape(tr) && Placed(q, tr) && Faithful(c, q, tr) && ReadsFirst(q) && Timed(c, q, tr) && Served(c, q, tr)
    && Sourced(q, tr) && Prompt(c, q, tr)
  }

  // --- What follows. ---

  /** No request is called back twice; each is completed exactly when it has been; none before its departure,
      and every write exactly its latency after its command, given a latency of at least one. */
  lemma CalledBackOnce(c: Config, q: Queues, tr: Trace)
    requires Inv(c, q, tr)
    ensures forall i, j | 0 <= i < j < |tr.done| :: tr.done[i].req.id != tr.done[j].req.id
    ensures forall k: nat | k < |tr.stage| :: tr.stage[k] == Completed <==> k in DoneIds(tr.done)
    ensures forall i | 0 <= i < |tr.done| && tr.done[i].req.kind != Other :: tr.done[i].at >= tr.done[i].req.depart
    ensures forall i | 0 <= i < |tr.done| && tr.done[i].req.kind == Write ::
              tr.done[i].at == tr.issued[tr.done[i].req.id] + c.writeLatency <==> c.writeLatency >= 1
  {
    forall i, j | 0 <= i < j < |tr.done| ensures tr.done[i].req.id != tr.done[j].req.id {
      assert Unlike(DoneIds(tr.done), i, j);
    }
    assert forall i | 0 <= i < |tr.done| :: OnTime(c, tr.done[i], tr);
  }

  /** Where every read's data comes from. A queued read has no older write of its address to answer it; one that is
      pending or completed was answered by such a write, and issued no command, exactly when there was one. */
  lemma AnswerSource(c: Config, q: Queues, tr: Trace, k: nat)
    requires Inv(c, q, tr) && k < |tr.accepted| && tr.accepted[k].kind == Read
    ensures k in Ids(q.readq) ==> !OlderWrite(tr, k)
    ensures k in Ids(q.pending) || k in DoneIds(tr.done) ==> (tr.issued[k] == NOT_ISSUED <==> OlderWrite(tr, k))
  {
    assert SourceOk(q.clk, tr, k);
  }

  /** Reads are called back one a cycle, in the order in which they became pending, each in its first possible cycle. */
  lemma ReadsInTurn(c: Config, q: Queues, tr: Trace, i: nat)
    requires Inv(c, q, tr) && i < |tr.done| && tr.done[i].req.kind == Read
    ensures var k := tr.done[i].req.id;
            && k < |tr.accepted| && tr.done[i].at == Max(ReadyAt(c, tr, k), LastRead(tr.done[..i]) + 1)
            && (c.readLatency >= 1 ==> ReadyAt(c, tr, k) == tr.done[i].req.depart)
  {
    assert InTurn(c, tr, i) && OnTime(c, tr.done[i], tr);
  }

  // The controller's test on a completed read: more than one cycle between arrival and departure.
  predicate TakenForReal(arrive: int, depart: int) { depart - arrive > 1 }

  /** A forwarded read never passes that test. A read that accessed a row does, unless the read latency is zero
      and its command was issued in the very cycle after its arrival. */
  lemma LatencyTellsForwarding(readLatency: nat, arrive: int, issue: int)
    requires arrive < issue
    ensures !TakenForReal(arrive, arrive + 1)
    ensures TakenForReal(arrive, issue + readLatency) <==> readLatency >= 1 || issue > arrive + 1
  {}
}
