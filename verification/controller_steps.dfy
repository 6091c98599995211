/** The steps of the controller on its queues, and what each keeps. */
module ControllerSteps {
  import opened Places
  import opened ControllerQueues

  // --- A request arrives. ---

  predicate Forwarded(q: Queues, kind: Kind, addr: int) {
    kind == Read && exists i | 0 <= i < |q.writeq| :: q.writeq[i].addr == addr
  }

  function QueueOf(q: Queues, kind: Kind): seq<Request> {
    match kind
    case Read => q.readq
    case Write => q.writeq
    case Other => q.otherq
  }

  /** The queues after an accepted request: a read of an address that a queued write will write is pending at
      once, due one cycle later. */
  function Enqueued(q: Queues, r: Request): Queues {
    match r.kind
    case Read => if Forwarded(q, r.kind, r.addr) then q.(pending := q.pending + [r.(depart := q.clk + 1)])
        else q.(readq := q.readq + [r])
    case Write => q.(writeq := q.writeq + [r])
    case Other => q.(otherq := q.otherq + [r])
  }

  function ArrivalStage(q: Queues, r: Request): Stage {
    match r.kind
    case Read => if Forwarded(q, r.kind, r.addr) then InPending else InReadq
    case Write => InWriteq
    case Other => InOtherq
  }

  ghost function Accepted(tr: Trace, r: Request, st: Stage): Trace {
    tr.(stage := tr.stage + [st], accepted := tr.accepted + [r], issued := tr.issued + [NOT_ISSUED],
        live := tr.live + [false])
  }

  lemma NewId(rs: seq<Request>, tr: Trace, st: Stage, to: Stage, r: Request)
    requires Holds(Ids(rs), tr.stage, st) && r.id == |tr.stage|
    ensures Holds(Ids(if to == st then rs + [r] else rs), tr.stage + [to], st)
  {
    HoldsNew(Ids(rs), tr.stage, st, to);
    if to == st { assert Ids(rs + [r]) == Ids(rs) + [r.id]; }
  }

  lemma EnqueuePlaced(q: Queues, tr: Trace, r: Request)
    requires Placed(q, tr) && r.id == |tr.stage|
    ensures Placed(Enqueued(q, r), Accepted(tr, r, ArrivalStage(q, r)))
  {
    hide Holds;
    var to := ArrivalStage(q, r);
    var p := r.(depart := q.clk + 1);
    NewId(q.readq, tr, InReadq, to, r);
    NewId(q.writeq, tr, InWriteq, to, r);
    NewId(q.otherq, tr, InOtherq, to, r);
    NewId(q.pending, tr, InPending, to, p);
    NewId(q.pendingWrite, tr, InPendingWrite, to, r);
    HoldsNew(DoneIds(tr.done), tr.stage, Completed, to);
  }

  lemma EnqueueFaithful(c: Config, q: Queues, tr: Trace, r: Request)
    requires Shape(tr) && Faithful(c, q, tr) && r.id == |tr.stage| && |QueueOf(q, r.kind)| != c.queueMax
    ensures Faithful(c, Enqueued(q, r), Accepted(tr, r, ArrivalStage(q, r)))
  {
    var st, p := ArrivalStage(q, r), r.(depart := q.clk + 1);
    var tr' := Accepted(tr, r, st);
    AgreeStill(q.readq, Read, tr, r, st, r);
    AgreeStill(q.writeq, Write, tr, r, st, r);
    AgreeStill(q.otherq, Other, tr, r, st, r);
    AgreeStill(q.pending, Read, tr, r, st, p);
    AgreeStill(q.pendingWrite, Write, tr, r, st, r);
    forall i | 0 <= i < |tr.done| ensures Agrees(tr.done[i].req, tr.done[i].req.kind, tr') {}
    hide AllAgree, Agrees;
  }

  // What is recorded of a list is still so after one more request, and of that request as well.
  lemma AgreeStill(rs: seq<Request>, kind: Kind, tr: Trace, r: Request, st: Stage, p: Request)
    requires Shape(tr) && AllAgree(rs, kind, tr) && r.id == |tr.stage| && (p == r || p == r.(depart := p.depart))
    ensures AllAgree(rs, kind, Accepted(tr, r, st))
    ensures r.kind == kind ==> AllAgree(rs + [p], kind, Accepted(tr, r, st))
  {}

  lemma EnqueueTimed(c: Config, q: Queues, tr: Trace, r: Request)
    requires Shape(tr) && Timed(c, q, tr) && r.id == |tr.stage| && r.arrive == q.clk
    ensures Timed(c, Enqueued(q, r), Accepted(tr, r, ArrivalStage(q, r)))
  {
    var tr', q' := Accepted(tr, r, ArrivalStage(q, r)), Enqueued(q, r);
    assert forall i | 0 <= i < |tr.done| :: OnTime(c, tr.done[i], tr);
    forall i, j | 0 <= i < j < |q'.pendingWrite| ensures Later(tr', q'.pendingWrite[i], q'.pendingWrite[j]) {
      assert Later(tr, q.pendingWrite[i], q.pendingWrite[j]);
    }
  }

  lemma EnqueueServed(c: Config, q: Queues, tr: Trace, r: Request)
    requires Shape(tr) && Served(c, q, tr) && r.id == |tr.stage| && r.first
    ensures Served(c, Enqueued(q, r), Accepted(tr, r, ArrivalStage(q, r)))
  {}

  // A write arrives later than every queued read; a read that stays queued finds no write of its address.
  lemma EnqueueReadsFirst(c: Config, q: Queues, tr: Trace, r: Request)
    requires Shape(tr) && ReadsFirst(q) && Faithful(c, q, tr) && r.id == |tr.stage|
    ensures ReadsFirst(Enqueued(q, r))
  {}

  // What was accepted before finds the same older writes.
  lemma OlderKept(tr: Trace, tr': Trace, k: nat)
    requires Shape(tr) && Shape(tr') && k < |tr.accepted| <= |tr'.accepted|
    requires forall j | 0 <= j <= k :: tr'.accepted[j] == tr.accepted[j]
    requires forall j: nat | j < k && tr.accepted[j].kind == Write && tr'.issued[j] != tr.issued[j] ::
               tr.issued[j] == NOT_ISSUED && tr'.issued[j] > tr.accepted[k].arrive
    ensures OlderWrite(tr', k) <==> OlderWrite(tr, k)
  {
    forall w: nat | w < k ensures WasQueued(tr', w, k) <==> WasQueued(tr, w, k) {}
  }

  lemma EnqueueSourced(c: Config, q: Queues, tr: Trace, r: Request)
    requires Shape(tr) && Placed(q, tr) && Faithful(c, q, tr) && Timed(c, q, tr) && Sourced(q, tr)
    requires r.id == |tr.stage| && r.arrive == q.clk
    ensures Shape(Accepted(tr, r, ArrivalStage(q, r)))
    ensures Sourced(Enqueued(q, r), Accepted(tr, r, ArrivalStage(q, r)))
  {
    hide OlderWrite, Timed;
    var tr' := Accepted(tr, r, ArrivalStage(q, r));
    forall k: nat | k < |tr'.accepted| ensures SourceOk(q.clk, tr', k) {
      if k < |tr.accepted| {
        assert SourceOk(q.clk, tr, k);
        OlderKept(tr, tr', k);
      } else {
        NewSource(c, q, tr, r);
      }
    }
  }

  // A read that arrives is forwarded exactly when an older write of its address is queued.
  lemma NewSource(c: Config, q: Queues, tr: Trace, r: Request)
    requires Shape(tr) && Placed(q, tr) && Faithful(c, q, tr) && Timed(c, q, tr) && Sourced(q, tr)
    requires r.id == |tr.stage| && r.arrive == q.clk
    ensures var tr' := Accepted(tr, r, ArrivalStage(q, r));
            Shape(tr') && SourceOk(q.clk, tr', |tr.accepted|)
  {
    var tr', n := Accepted(tr, r, ArrivalStage(q, r)), |tr.accepted|;
    if Forwarded(q, r.kind, r.addr) {
      var i :| 0 <= i < |q.writeq| && q.writeq[i].addr == r.addr;
      assert Agrees(q.writeq[i], Write, tr) && Ids(q.writeq)[i] == q.writeq[i].id;
      assert WasQueued(tr', q.writeq[i].id, n);
    }
    if OlderWrite(tr', n) {
      var w: nat :| w < n && WasQueued(tr', w, n);
      assert SourceOk(q.clk, tr, w);
      var i := Position(q.writeq, tr.stage, InWriteq, w);
      assert Agrees(q.writeq[i], Write, tr);
    }
  }

  lemma Position(rs: seq<Request>, stage: seq<Stage>, st: Stage, k: nat) returns (i: nat)
    requires Holds(Ids(rs), stage, st) && k < |stage| && stage[k] == st
    ensures i < |rs| && rs[i].id == k
  {
    assert k in Ids(rs);
    i :| 0 <= i < |rs| && Ids(rs)[i] == k;
  }

  // What was called back stays in turn as long as its times do.
  lemma TurnKept(c: Config, tr: Trace, tr': Trace, i: nat)
    requires Shape(tr) && Shape(tr') && i < |tr.done| && tr.done <= tr'.done && InTurn(c, tr, i)
    requires |tr.accepted| <= |tr'.accepted| && tr.done[i].req.id < |tr.accepted|
    requires var k := tr.done[i].req.id; tr'.accepted[k] == tr.accepted[k] && tr'.issued[k] == tr.issued[k]
    ensures InTurn(c, tr', i)
  {
    assert tr'.done[..i] == tr.done[..i];
  }

  lemma EnqueuePrompt(c: Config, q: Queues, tr: Trace, r: Request)
    requires Shape(tr) && Faithful(c, q, tr) && Prompt(c, q, tr) && r.id == |tr.stage| && r.arrive == q.clk
    ensures Shape(Accepted(tr, r, ArrivalStage(q, r)))
    ensures Prompt(c, Enqueued(q, r), Accepted(tr, r, ArrivalStage(q, r)))
  {
    var tr' := Accepted(tr, r, ArrivalStage(q, r));
    forall i: nat | i < |tr'.done| ensures InTurn(c, tr', i) {
      assert InTurn(c, tr, i) && Agrees(tr.done[i].req, tr.done[i].req.kind, tr);
      TurnKept(c, tr, tr', i);
    }
  }

  lemma EnqueueInv(c: Config, q: Queues, tr: Trace, r: Request)
    requires Inv(c, q, tr) && r.id == |tr.stage| && r.arrive == q.clk && r.first && |QueueOf(q, r.kind)| != c.queueMax
    ensures Inv(c, Enqueued(q, r), Accepted(tr, r, ArrivalStage(q, r)))
  {
    hide Placed, Faithful, ReadsFirst, Timed, Served, Sourced, Prompt, Enqueued;
    EnqueuePrompt(c, q, tr, r);
    EnqueueSourced(c, q, tr, r);
    EnqueuePlaced(q, tr, r);
    EnqueueFaithful(c, q, tr, r);
    EnqueueTimed(c, q, tr, r);
    EnqueueReadsFirst(c, q, tr, r);
    EnqueueServed(c, q, tr, r);
  }

  // --- The clock advances, and a read and a write that are due are called back. ---

  predicate ReadReady(q: Queues) { q.pending != [] && q.pending[0].depart <= q.clk }

  predicate WriteReady(q: Queues) { q.pendingWrite != [] && q.pendingWrite[0].depart <= q.clk }

  function ReadBack(q: Queues): Queues {
    if ReadReady(q) then q.(pending := q.pending[1..]) else q
  }

  function WriteBack(q: Queues): Queues {
    if WriteReady(q) then q.(pendingWrite := q.pendingWrite[1..]) else q
  }

  // A request is called back; one that counted as being served no longer does.
  ghost function CalledBack(tr: Trace, r: Request, at: int, counted: bool): Trace {
    if r.id < |tr.stage| && r.id < |tr.live| then
      tr.(stage := tr.stage[r.id := Completed], done := tr.done + [Done(r, at)],
          live := if counted then tr.live[r.id := false] else tr.live)
    else tr
  }

  ghost function ReadBackTrace(q: Queues, tr: Trace): Trace {
    if ReadReady(q) then CalledBack(tr, q.pending[0], q.clk,
        TakenForReal(q.pending[0].arrive, q.pending[0].depart)) else tr
  }

  ghost function WriteBackTrace(q: Queues, tr: Trace): Trace {
    if WriteReady(q) then CalledBack(tr, q.pendingWrite[0], q.clk, false) else tr
  }

  lemma OtherIds(rs: seq<Request>, stage: seq<Stage>, k: nat, st: Stage, to: Stage)
    requires Holds(Ids(rs), stage, st) && k < |stage| && stage[k] != st && to != st
    ensures Holds(Ids(rs), stage[k := to], st)
  {
    HoldsOther(Ids(rs), stage, k, st, to);
  }

  lemma PopIds(rs: seq<Request>, stage: seq<Stage>, st: Stage, to: Stage)
    requires Holds(Ids(rs), stage, st) && rs != [] && to != st
    ensures rs[0].id < |stage| && stage[rs[0].id] == st && Holds(Ids(rs[1..]), stage[rs[0].id := to], st)
  {
    var ids := Ids(rs);
    assert ids[0] == rs[0].id;
    HoldsDrop(ids, stage, 0, st, to);
    assert Ids(rs[1..]) == ids[..0] + ids[1..];
  }

  lemma DonePush(ds: seq<Done>, stage: seq<Stage>, d: Done)
    requires Holds(DoneIds(ds), stage, Completed) && d.req.id < |stage| && stage[d.req.id] != Completed
    ensures Holds(DoneIds(ds + [d]), stage[d.req.id := Completed], Completed)
  {
    HoldsPush(DoneIds(ds), stage, d.req.id, Completed);
    assert DoneIds(ds + [d]) == DoneIds(ds) + [d.req.id];
  }

  lemma ReadBackPlaced(q: Queues, tr: Trace)
    requires Shape(tr) && Placed(q, tr)
    ensures Shape(ReadBackTrace(q, tr)) && Placed(ReadBack(q), ReadBackTrace(q, tr))
    ensures ReadReady(q) ==> q.pending[0].id < |tr.stage| && tr.stage[q.pending[0].id] == InPending
  {
    if ReadReady(q) {
      hide Holds;
      var r := q.pending[0];
      PopIds(q.pending, tr.stage, InPending, Completed);
      DonePush(tr.done, tr.stage, Done(r, q.clk));
      OtherIds(q.readq, tr.stage, r.id, InReadq, Completed);
      OtherIds(q.writeq, tr.stage, r.id, InWriteq, Completed);
      OtherIds(q.otherq, tr.stage, r.id, InOtherq, Completed);
      OtherIds(q.pendingWrite, tr.stage, r.id, InPendingWrite, Completed);
    }
  }

  lemma WriteBackPlaced(q: Queues, tr: Trace)
    requires Shape(tr) && Placed(q, tr)
    ensures Shape(WriteBackTrace(q, tr)) && Placed(WriteBack(q), WriteBackTrace(q, tr))
    ensures WriteReady(q) ==> q.pendingWrite[0].id < |tr.stage| && tr.stage[q.pendingWrite[0].id] == InPendingWrite
  {
    if WriteReady(q) {
      hide Holds;
      var r := q.pendingWrite[0];
      PopIds(q.pendingWrite, tr.stage, InPendingWrite, Completed);
      DonePush(tr.done, tr.stage, Done(r, q.clk));
      OtherIds(q.readq, tr.stage, r.id, InReadq, Completed);
      OtherIds(q.writeq, tr.stage, r.id, InWriteq, Completed);
      OtherIds(q.otherq, tr.stage, r.id, InOtherq, Completed);
      OtherIds(q.pending, tr.stage, r.id, InPending, Completed);
    }
  }

  lemma BackFaithful(c: Config, q: Queues, tr: Trace)
    requires Shape(tr) && Faithful(c, q, tr)
    ensures Faithful(c, ReadBack(q), ReadBackTrace(q, tr)) && Faithful(c, WriteBack(q), WriteBackTrace(q, tr))
  {}

  // The issue times are what the deadlines depend on, and a call back does not touch them.
  lemma SameIssued(c: Config, q: Queues, tr: Trace, tr': Trace)
    requires tr'.issued == tr.issued && tr'.accepted == tr.accepted
    ensures Waiting(q.readq, tr) ==> Waiting(q.readq, tr')
    ensures Waiting(q.writeq, tr) ==> Waiting(q.writeq, tr')
    ensures ReadsDue(c, q.pending, q.clk, tr) ==> ReadsDue(c, q.pending, q.clk, tr')
    ensures WritesDue(c, q.pendingWrite, q.clk, tr) ==> WritesDue(c, q.pendingWrite, q.clk, tr')
    ensures Arrived(q.clk, tr) ==> Arrived(q.clk, tr')
    ensures tr'.done == tr.done && AllOnTime(c, tr) ==> AllOnTime(c, tr')
  {
    if WritesDue(c, q.pendingWrite, q.clk, tr) {
      forall i, j | 0 <= i < j < |q.pendingWrite| ensures Later(tr', q.pendingWrite[i], q.pendingWrite[j]) {
        assert Later(tr, q.pendingWrite[i], q.pendingWrite[j]);
      }
    }
    assert forall i | 0 <= i < |tr.done| :: OnTime(c, tr.done[i], tr) ==> OnTime(c, tr.done[i], tr');
  }

  // One cycle later, with the oldest write called back if it is due: exactly on its time.
  lemma WritesTick(c: Config, ws: seq<Request>, clk: int, tr: Trace)
    requires WritesDue(c, ws, clk, tr)
    ensures var due := ws != [] && ws[0].depart <= clk + 1;
            && WritesDue(c, if due then ws[1..] else ws, clk + 1, tr)
            && (due ==> ws[0].id < |tr.issued| && clk + 1 == tr.issued[ws[0].id] + Max(c.writeLatency, 1))
  {
    var due := ws != [] && ws[0].depart <= clk + 1;
    var rest := if due then ws[1..] else ws;
    var d := |ws| - |rest|;
    assert forall i | 0 <= i < |ws| :: WriteDue(c, ws[i], clk, tr);
    forall i | 0 <= i < |rest| ensures WriteDue(c, rest[i], clk + 1, tr) {
      assert rest[i] == ws[i + d];
      assert i + d > 0 ==> Later(tr, ws[0], ws[i + d]);
    }
    forall i, j | 0 <= i < j < |rest| ensures Later(tr, rest[i], rest[j]) {
      assert Later(tr, ws[i + d], ws[j + d]);
    }
  }

  function Clocked(q: Queues): Queues { q.(clk := q.clk + 1) }

  // The first part of a cycle: the clock, then a read, then a write.
  function Front(q: Queues): Queues { WriteBack(ReadBack(Clocked(q))) }

  ghost function FrontTrace(q: Queues, tr: Trace): Trace {
    WriteBackTrace(ReadBack(Clocked(q)), ReadBackTrace(Clocked(q), tr))
  }

  // The first part of a cycle, field by field.
  lemma FrontFields(q: Queues, tr: Trace)
    ensures var q', tr' := Front(q), FrontTrace(q, tr);
            && q'.clk == q.clk + 1 && q'.readq == q.readq && q'.writeq == q.writeq && q'.otherq == q.otherq
            && (q'.pending == q.pending || (q.pending != [] && q'.pending == q.pending[1..]))
            && q'.pendingWrite == (if q.pendingWrite != []
                && q.pendingWrite[0].depart <= q.clk + 1 then q.pendingWrite[1..] else q.pendingWrite)
            && tr'.issued == tr.issued && tr'.accepted == tr.accepted
  {}

  lemma FrontTimed(c: Config, q: Queues, tr: Trace)
    requires Shape(tr) && Placed(q, tr) && Faithful(c, q, tr) && Timed(c, q, tr)
    ensures Timed(c, Front(q), FrontTrace(q, tr))
  {
    DoneOnTime(c, q, tr);
    FrontFields(q, tr);
    hide Front, FrontTrace, Timed;
    FieldsTimed(c, q, tr, Front(q), FrontTrace(q, tr));
  }

  lemma FieldsTimed(c: Config, q: Queues, tr: Trace, q': Queues, tr': Trace)
    requires Timed(c, q, tr) && AllOnTime(c, tr') && tr'.issued == tr.issued && tr'.accepted == tr.accepted
    requires q'.clk == q.clk + 1 && q'.readq == q.readq && q'.writeq == q.writeq
    requires q'.pending == q.pending || (q.pending != [] && q'.pending == q.pending[1..])
    requires q'.pendingWrite == if q.pendingWrite != [] && q.pendingWrite[0].depart <= q.clk + 1
        then q.pendingWrite[1..] else q.pendingWrite
    ensures Timed(c, q', tr')
  {
    ReadsTick(c, q.pending, q.clk, tr);
    WritesTick(c, q.pendingWrite, q.clk, tr);
    hide WriteDue, ReadDue, OnTime, WritesDue, ReadsDue, AllOnTime;
    SameIssued(c, q', tr, tr');
  }

  lemma ReadsTick(c: Config, rs: seq<Request>, clk: int, tr: Trace)
    requires ReadsDue(c, rs, clk, tr)
    ensures ReadsDue(c, rs, clk + 1, tr) && (rs != [] ==> ReadsDue(c, rs[1..], clk + 1, tr))
  {
    forall i | 0 <= i < |rs| ensures ReadDue(c, rs[i], clk + 1, tr) { assert ReadDue(c, rs[i], clk, tr); }
  }

  lemma DoneOnTime(c: Config, q: Queues, tr: Trace)
    requires Shape(tr) && Placed(q, tr) && Faithful(c, q, tr) && Timed(c, q, tr)
    ensures AllOnTime(c, FrontTrace(q, tr))
  {
    var q0 := Clocked(q);
    var tr1 := ReadBackTrace(q0, tr);
    var tr2 := WriteBackTrace(ReadBack(q0), tr1);
    ReadsTick(c, q.pending, q.clk, tr);
    WritesTick(c, q.pendingWrite, q.clk, tr);
    forall i | 0 <= i < |tr2.done| ensures OnTime(c, tr2.done[i], tr2) {
      if i < |tr.done| {
        assert tr2.done[i] == tr.done[i] && OnTime(c, tr.done[i], tr);
      } else if i < |tr1.done| {
        assert tr2.done[i] == Done(q.pending[0], q0.clk) && Agrees(q.pending[0], Read, tr);
      } else {
        assert tr2.done[i] == Done(q.pendingWrite[0], q0.clk) && Agrees(q.pendingWrite[0], Write, tr);
      }
    }
  }

  // A completed read stops counting as served, if it is taken for one that did.
  lemma FrontServed(c: Config, q: Queues, tr: Trace)
    requires Shape(tr) && Placed(q, tr) && Timed(c, q, tr) && Served(c, q, tr)
    ensures Served(c, Front(q), FrontTrace(q, tr))
  {
    var q0 := Clocked(q);
    ReadBackServed(c, q0, tr);
    ReadBackPlaced(q0, tr);
    WriteBackServed(c, ReadBack(q0), ReadBackTrace(q0, tr));
  }

  lemma Unlisted(rs: seq<Request>, stage: seq<Stage>, st: Stage, k: nat)
    requires Holds(Ids(rs), stage, st) && k < |stage| && stage[k] != st
    ensures forall i | 0 <= i < |rs| :: rs[i].id != k
  {
    forall i | 0 <= i < |rs| ensures rs[i].id != k { assert Ids(rs)[i] == rs[i].id; }
  }

  lemma FirstOnly(rs: seq<Request>, stage: seq<Stage>, st: Stage)
    requires Holds(Ids(rs), stage, st) && rs != []
    ensures forall i | 0 < i < |rs| :: rs[i].id != rs[0].id
  {
    forall i | 0 < i < |rs| ensures rs[i].id != rs[0].id { assert Unlike(Ids(rs), 0, i); }
  }

  lemma ReadBackServed(c: Config, q: Queues, tr: Trace)
    requires Shape(tr) && Placed(q, tr) && Served(c, q, tr)
    requires forall i | 0 <= i < |q.pending| :: ReadDue(c, q.pending[i], q.clk - 1, tr)
    ensures Served(c, ReadBack(q), ReadBackTrace(q, tr))
  {
    if ReadReady(q) {
      var r, k := q.pending[0], q.pending[0].id;
      ReadBackPlaced(q, tr);
      Unlisted(q.readq, tr.stage, InReadq, k);
      Unlisted(q.writeq, tr.stage, InWriteq, k);
      Unlisted(q.otherq, tr.stage, InOtherq, k);
      Unlisted(q.pendingWrite, tr.stage, InPendingWrite, k);
      FirstOnly(q.pending, tr.stage, InPending);
      forall i | 0 <= i < |tr.done| ensures tr.done[i].req.id != k { assert DoneIds(tr.done)[i] == tr.done[i].req.id; }
      assert ReadDue(c, r, q.clk - 1, tr);
      hide Holds;
    }
  }

  lemma WriteBackServed(c: Config, q: Queues, tr: Trace)
    requires Shape(tr) && Placed(q, tr) && Served(c, q, tr)
    ensures Served(c, WriteBack(q), WriteBackTrace(q, tr))
  {}

  // A call back moves on a request that has left its queue.
  lemma BackSourced(q: Queues, tr: Trace)
    requires Shape(tr) && Placed(q, tr) && Sourced(q, tr)
    ensures Shape(FrontTrace(q, tr)) && Sourced(Front(q), FrontTrace(q, tr))
  {
    var tr' := FrontTrace(q, tr);
    if q.pending != [] { assert Ids(q.pending)[0] == q.pending[0].id; }
    if q.pendingWrite != [] { assert Ids(q.pendingWrite)[0] == q.pendingWrite[0].id; }
    var clk := Front(q).clk;
    forall k: nat | k < |tr'.accepted| ensures SourceOk(clk, tr', k) {
      assert SourceOk(q.clk, tr, k);
      OlderKept(tr, tr', k);
    }
  }

  lemma FrontPrompt(c: Config, q: Queues, tr: Trace)
    requires Shape(tr) && Placed(q, tr) && Faithful(c, q, tr) && Timed(c, q, tr) && Prompt(c, q, tr)
    ensures Shape(FrontTrace(q, tr)) && Prompt(c, Front(q), FrontTrace(q, tr))
  {
    var q0 := Clocked(q);
    ReadBackPrompt(c, q, tr);
    BackFaithful(c, q0, tr);
    WriteBackPrompt(c, ReadBack(q0), ReadBackTrace(q0, tr));
  }

  // The oldest pending read is called back just if it is ready.
  lemma ReadBackPrompt(c: Config, q: Queues, tr: Trace)
    requires Shape(tr) && Faithful(c, q, tr) && Timed(c, q, tr) && Prompt(c, q, tr)
    ensures var q0 := Clocked(q);
            && Shape(ReadBackTrace(q0, tr)) && Prompt(c, ReadBack(q0), ReadBackTrace(q0, tr))
            && Faithful(c, q0, tr)
  {
    var q0, tr' := Clocked(q), ReadBackTrace(Clocked(q), tr);
    assert Faithful(c, q0, tr);
    forall i: nat | i < |tr.done| ensures InTurn(c, tr', i) {
      assert InTurn(c, tr, i) && Agrees(tr.done[i].req, tr.done[i].req.kind, tr);
      TurnKept(c, tr, tr', i);
    }
    if q.pending != [] {
      var r := q.pending[0];
      assert Agrees(r, Read, tr) && ReadDue(c, r, q.clk, tr);
      assert r.depart <= q0.clk <==> ReadyAt(c, tr, r.id) <= q0.clk;
      if ReadReady(q0) {
        assert tr'.done[..|tr.done|] == tr.done;
        assert InTurn(c, tr', |tr.done|);
      }
      if |q.pending| > 1 { assert Agrees(q.pending[1], Read, tr); }
    }
  }

  // The call back of a write does not change whose turn it is.
  lemma WriteBackPrompt(c: Config, q: Queues, tr: Trace)
    requires Shape(tr) && Faithful(c, q, tr) && Prompt(c, q, tr)
    ensures Shape(WriteBackTrace(q, tr)) && Prompt(c, WriteBack(q), WriteBackTrace(q, tr))
  {
    var tr' := WriteBackTrace(q, tr);
    forall i: nat | i < |tr'.done| ensures InTurn(c, tr', i) {
      if i < |tr.done| {
        assert InTurn(c, tr, i) && Agrees(tr.done[i].req, tr.done[i].req.kind, tr);
        TurnKept(c, tr, tr', i);
      } else {
        assert Agrees(q.pendingWrite[0], Write, tr);
      }
    }
    if WriteReady(q) {
      assert Agrees(q.pendingWrite[0], Write, tr);
      if q.pendingWrite[0].id < |tr.stage| { assert tr'.done[..|tr.done|] == tr.done; }
    }
  }

  lemma FrontInv(c: Config, q: Queues, tr: Trace)
    requires Inv(c, q, tr)
    ensures Inv(c, Front(q), FrontTrace(q, tr)) && CycleStart(Front(q), FrontTrace(q, tr))
  {
    var q0 := Clocked(q);
    FrontStart(c, q, tr);
    BackSourced(q, tr);
    FrontPrompt(c, q, tr);
    hide Holds, Timed, Served, Faithful, ReadsFirst, Sourced, Prompt;
    ReadBackPlaced(q0, tr);
    WriteBackPlaced(ReadBack(q0), ReadBackTrace(q0, tr));
    ClockFaithful(c, q, tr);
    BackFaithful(c, q0, tr);
    BackFaithful(c, ReadBack(q0), ReadBackTrace(q0, tr));
    FrontTimed(c, q, tr);
    FrontReadsFirst(q);
    FrontServed(c, q, tr);
  }

  // Before anything is issued in a cycle: whatever has arrived or was issued did so earlier.
  ghost predicate CycleStart(q: Queues, tr: Trace) {
    && Arrived(q.clk - 1, tr)
    && forall i | 0 <= i < |q.pendingWrite| ::
         q.pendingWrite[i].id < |tr.issued| && tr.issued[q.pendingWrite[i].id] < q.clk
  }

  lemma FrontStart(c: Config, q: Queues, tr: Trace)
    requires Timed(c, q, tr)
    ensures CycleStart(Front(q), FrontTrace(q, tr))
  {
    assert forall i | 0 <= i < |q.pendingWrite| :: WriteDue(c, q.pendingWrite[i], q.clk, tr);
  }

  lemma ClockFaithful(c: Config, q: Queues, tr: Trace)
    requires Faithful(c, q, tr)
    ensures Faithful(c, Clocked(q), tr)
  {}

  lemma FrontReadsFirst(q: Queues)
    requires ReadsFirst(q)
    ensures ReadsFirst(Front(q))
  {}

  // --- Which queue is served, and what serving one of its requests does. ---

  // Writes are drained from four fifths of the queue down to one fifth, or while there is nothing to read.
  function Mode(c: Config, q: Queues): bool {
    if !q.writeMode then |q.writeq| >= c.queueMax * 4 / 5 || |q.readq| == 0
    else !(|q.writeq| <= c.queueMax / 5 && |q.readq| != 0)
  }

  function Chosen(q: Queues): Kind {
    if q.otherq != [] then Other else if q.writeMode then Write else Read
  }

  function Without(rs: seq<Request>, i: nat): (rest: seq<Request>)
    requires i < |rs|
    ensures |rest| == |rs| - 1 && forall j | 0 <= j < |rest| :: rest[j] == rs[if j < i then j else j + 1]
  {
    rs[..i] + rs[i + 1..]
  }

  predicate Picks(q: Queues, pick: int) { 0 <= pick < |QueueOf(q, Chosen(q))| }

  /** A command of the picked request is issued: a first one, some other one, or (`last`) the one that finishes
      the request, which then leaves its queue. */
  function Serve(c: Config, q: Queues, pick: int, last: bool): Queues {
    if !Picks(q, pick) then q else
      var kind := Chosen(q);
      var rs := QueueOf(q, kind);
      var r := rs[pick].(first := false);
      match kind
      case Read => if last then q.(readq := Without(rs, pick),
          pending := q.pending + [r.(depart := q.clk + c.readLatency)])
                   else q.(readq := rs[pick := r])
      case Write => if last then q.(writeq := Without(rs, pick),
          pendingWrite := q.pendingWrite + [r.(depart := q.clk + c.writeLatency)])
                    else q.(writeq := rs[pick := r])
      case Other => if last then q.(otherq := Without(rs, pick)) else q.(otherq := rs[pick := r])
  }

  ghost function ServeTrace(q: Queues, tr: Trace, pick: int, last: bool): Trace {
    if !Picks(q, pick) then tr else
      var kind := Chosen(q);
      var r := QueueOf(q, kind)[pick];
      if r.id >= |tr.stage| || !Shape(tr) then tr else
        var live := if kind == Other || (kind == Write && last) then tr.live[r.id := false] else tr.live[r.id := true];
        if !last then tr.(live := live)
        else match kind
             case Read => tr.(live := live, stage := tr.stage[r.id := InPending], issued := tr.issued[r.id := q.clk])
             case Write => tr.(live := live, stage := tr.stage[r.id := InPendingWrite],
                 issued := tr.issued[r.id := q.clk])
             case Other => tr.(live := live, stage := tr.stage[r.id := Completed],
                 done := tr.done + [Done(r.(first := false), q.clk)])
  }

  ghost function StageOf(kind: Kind): Stage {
    match kind
    case Read => InReadq
    case Write => InWriteq
    case Other => InOtherq
  }

  lemma EraseIds(rs: seq<Request>, stage: seq<Stage>, i: nat, st: Stage, to: Stage)
    requires Holds(Ids(rs), stage, st) && i < |rs| && to != st
    ensures rs[i].id < |stage| && stage[rs[i].id] == st && Holds(Ids(Without(rs, i)), stage[rs[i].id := to], st)
  {
    var ids := Ids(rs);
    assert ids[i] == rs[i].id;
    HoldsDrop(ids, stage, i, st, to);
    assert Ids(Without(rs, i)) == ids[..i] + ids[i + 1..];
  }

  lemma PushIds(rs: seq<Request>, stage: seq<Stage>, r: Request, st: Stage)
    requires Holds(Ids(rs), stage, st) && r.id < |stage| && stage[r.id] != st
    ensures Holds(Ids(rs + [r]), stage[r.id := st], st)
  {
    HoldsPush(Ids(rs), stage, r.id, st);
    assert Ids(rs + [r]) == Ids(rs) + [r.id];
  }

  lemma PickedId(q: Queues, tr: Trace, pick: int)
    requires Placed(q, tr) && Picks(q, pick)
    ensures var r := QueueOf(q, Chosen(q))[pick];
            r.id < |tr.stage| && tr.stage[r.id] == StageOf(Chosen(q))
  {
    var rs := QueueOf(q, Chosen(q));
    assert Ids(rs)[pick] == rs[pick].id;
  }

  lemma ServePlaced(c: Config, q: Queues, tr: Trace, pick: int, last: bool)
    requires Shape(tr) && Placed(q, tr)
    ensures Shape(ServeTrace(q, tr, pick, last)) && Placed(Serve(c, q, pick, last), ServeTrace(q, tr, pick, last))
  {
    if Picks(q, pick) {
      PickedId(q, tr, pick);
      var rs := QueueOf(q, Chosen(q));
      var r := rs[pick].(first := false);
      assert Ids(rs[pick := r]) == Ids(rs);
      if last { LeavesQueue(c, q, tr, pick); }
    }
  }

  lemma LeavesQueue(c: Config, q: Queues, tr: Trace, pick: int)
    requires Shape(tr) && Placed(q, tr) && Picks(q, pick)
    ensures Placed(Serve(c, q, pick, true), ServeTrace(q, tr, pick, true))
  {
    hide Holds;
    var rs := QueueOf(q, Chosen(q));
    var r, k := rs[pick].(first := false), rs[pick].id;
    PickedId(q, tr, pick);
    var to := match Chosen(q) case Read => InPending case Write => InPendingWrite case Other => Completed;
    EraseIds(rs, tr.stage, pick, StageOf(Chosen(q)), to);
    if Chosen(q) != Read { OtherIds(q.readq, tr.stage, k, InReadq, to); }
    if Chosen(q) != Write { OtherIds(q.writeq, tr.stage, k, InWriteq, to); }
    if Chosen(q) != Other { OtherIds(q.otherq, tr.stage, k, InOtherq, to); }
    if Chosen(q) == Read {
      PushIds(q.pending, tr.stage, r.(depart := q.clk + c.readLatency), InPending);
    } else {
      OtherIds(q.pending, tr.stage, k, InPending, to);
    }
    if Chosen(q) == Write {
      PushIds(q.pendingWrite, tr.stage, r.(depart := q.clk + c.writeLatency), InPendingWrite);
    } else {
      OtherIds(q.pendingWrite, tr.stage, k, InPendingWrite, to);
    }
    if Chosen(q) == Other {
      DonePush(tr.done, tr.stage, Done(r, q.clk));
    } else {
      HoldsOther(DoneIds(tr.done), tr.stage, k, Completed, to);
    }
  }

  lemma ServeFaithful(c: Config, q: Queues, tr: Trace, pick: int, last: bool)
    requires Shape(tr) && Faithful(c, q, tr)
    ensures Faithful(c, Serve(c, q, pick, last), ServeTrace(q, tr, pick, last))
  {
    if Picks(q, pick) {
      assert Agrees(QueueOf(q, Chosen(q))[pick], Chosen(q), tr);
      hide Shape;
      assert forall i | 0 <= i < |tr.done| :: Agrees(tr.done[i].req, tr.done[i].req.kind, tr);
    }
  }

  lemma ServeReadsFirst(c: Config, q: Queues, pick: int, last: bool)
    requires ReadsFirst(q)
    ensures ReadsFirst(Serve(c, q, pick, last))
  {}

  lemma ServeTimed(c: Config, q: Queues, tr: Trace, pick: int, last: bool)
    requires Shape(tr) && Placed(q, tr) && Faithful(c, q, tr) && Timed(c, q, tr) && CycleStart(q, tr)
    ensures Timed(c, Serve(c, q, pick, last), ServeTrace(q, tr, pick, last))
  {
    if Picks(q, pick) && last {
      PickedId(q, tr, pick);
      match Chosen(q) {
        case Read => ReadIssued(c, q, tr, pick);
        case Write => WriteIssued(c, q, tr, pick);
        case Other => OtherIssued(c, q, tr, pick);
      }
    } else if Picks(q, pick) {
      PickedId(q, tr, pick);
      SameIssued(c, q, tr, ServeTrace(q, tr, pick, last));
      assert QueueOf(q, Chosen(q))[pick].id < |tr.issued|;
    }
  }

  // Issuing for one request leaves the deadlines of the others alone.
  lemma OthersDue(c: Config, q: Queues, tr: Trace, k: nat, clk: int)
    requires Shape(tr) && Placed(q, tr) && Timed(c, q, tr) && k < |tr.stage|
    requires tr.stage[k] == InReadq || tr.stage[k] == InWriteq
    ensures var tr' := tr.(issued := tr.issued[k := clk]);
            && ReadsDue(c, q.pending, q.clk, tr') && WritesDue(c, q.pendingWrite, q.clk, tr') && AllOnTime(c, tr')
  {
    var tr' := tr.(issued := tr.issued[k := clk]);
    Unlisted(q.pending, tr.stage, InPending, k);
    Unlisted(q.pendingWrite, tr.stage, InPendingWrite, k);
    forall i | 0 <= i < |tr.done| ensures tr.done[i].req.id != k { assert DoneIds(tr.done)[i] == tr.done[i].req.id; }
    hide Holds;
    forall i, j | 0 <= i < j < |q.pendingWrite| ensures Later(tr', q.pendingWrite[i], q.pendingWrite[j]) {
      assert Later(tr, q.pendingWrite[i], q.pendingWrite[j]);
    }
    forall i | 0 <= i < |tr.done| ensures OnTime(c, tr.done[i], tr') { assert OnTime(c, tr.done[i], tr); }
  }

  // The two queues wait for their commands, apart from the one request just issued for.
  lemma StillWaiting(rs: seq<Request>, tr: Trace, pick: nat, st: Stage, clk: int)
    requires Shape(tr) && Holds(Ids(rs), tr.stage, st) && Waiting(rs, tr) && pick < |rs|
    ensures Waiting(Without(rs, pick), tr.(issued := tr.issued[rs[pick].id := clk]))
  {
    var rest := Without(rs, pick);
    forall i | 0 <= i < |rest| ensures rest[i].id != rs[pick].id {
      var o := if i < pick then i else i + 1;
      assert if o < pick then Unlike(Ids(rs), o, pick) else Unlike(Ids(rs), pick, o);
    }
  }

  lemma OtherWaiting(rs: seq<Request>, tr: Trace, k: nat, st: Stage, clk: int)
    requires Shape(tr) && Holds(Ids(rs), tr.stage, st) && Waiting(rs, tr) && k < |tr.stage| && tr.stage[k] != st
    ensures Waiting(rs, tr.(issued := tr.issued[k := clk]))
  {
    Unlisted(rs, tr.stage, st, k);
  }

  lemma SameTimes(c: Config, q: Queues, tr: Trace, tr': Trace)
    requires tr'.issued == tr.issued && tr'.accepted == tr.accepted && tr'.done == tr.done && Timed(c, q, tr)
    ensures Timed(c, q, tr')
  {
    SameIssued(c, q, tr, tr');
  }

  lemma ReadIssued(c: Config, q: Queues, tr: Trace, pick: int)
    requires Shape(tr) && Placed(q, tr) && Faithful(c, q, tr) && Timed(c, q, tr) && CycleStart(q, tr)
    requires Picks(q, pick) && Chosen(q) == Read && q.readq[pick].id < |tr.stage|
        && tr.stage[q.readq[pick].id] == InReadq
    ensures Timed(c, Serve(c, q, pick, true), ServeTrace(q, tr, pick, true))
  {
    var r, k := q.readq[pick], q.readq[pick].id;
    var mid := tr.(issued := tr.issued[k := q.clk]);
    assert Agrees(r, Read, tr);
    OthersDue(c, q, tr, k, q.clk);
    StillWaiting(q.readq, tr, pick, InReadq, q.clk);
    OtherWaiting(q.writeq, tr, k, InWriteq, q.clk);
    hide Holds;
    assert ReadDue(c, r.(first := false, depart := q.clk + c.readLatency), q.clk, mid);
    SameTimes(c, Serve(c, q, pick, true), mid, ServeTrace(q, tr, pick, true));
  }

  lemma WriteIssued(c: Config, q: Queues, tr: Trace, pick: int)
    requires Shape(tr) && Placed(q, tr) && Faithful(c, q, tr) && Timed(c, q, tr) && CycleStart(q, tr)
    requires Picks(q, pick) && Chosen(q) == Write && q.writeq[pick].id < |tr.stage|
        && tr.stage[q.writeq[pick].id] == InWriteq
    ensures Timed(c, Serve(c, q, pick, true), ServeTrace(q, tr, pick, true))
  {
    var k := q.writeq[pick].id;
    var w := q.writeq[pick].(first := false, depart := q.clk + c.writeLatency);
    var mid := tr.(issued := tr.issued[k := q.clk]);
    OthersDue(c, q, tr, k, q.clk);
    StillWaiting(q.writeq, tr, pick, InWriteq, q.clk);
    OtherWaiting(q.readq, tr, k, InReadq, q.clk);
    Unlisted(q.pendingWrite, tr.stage, InPendingWrite, k);
    hide Holds;
    WritePushed(c, q.pendingWrite, mid, w, q.clk);
    SameTimes(c, Serve(c, q, pick, true), mid, ServeTrace(q, tr, pick, true));
  }

  lemma WritePushed(c: Config, ws: seq<Request>, tr: Trace, w: Request, clk: int)
    requires WritesDue(c, ws, clk, tr) && WriteDue(c, w, clk, tr) && tr.issued[w.id] == clk
    requires forall i | 0 <= i < |ws| :: ws[i].id < |tr.issued| && tr.issued[ws[i].id] < clk
    ensures WritesDue(c, ws + [w], clk, tr)
  {
    var all := ws + [w];
    forall i, j | 0 <= i < j < |all| ensures Later(tr, all[i], all[j]) {
      if j < |ws| { assert Later(tr, ws[i], ws[j]); }
    }
  }

  lemma OtherIssued(c: Config, q: Queues, tr: Trace, pick: int)
    requires Shape(tr) && Faithful(c, q, tr) && Timed(c, q, tr)
    requires Picks(q, pick) && Chosen(q) == Other && q.otherq[pick].id < |tr.stage|
    ensures Timed(c, Serve(c, q, pick, true), ServeTrace(q, tr, pick, true))
  {
    var tr' := ServeTrace(q, tr, pick, true);
    assert Agrees(q.otherq[pick], Other, tr);
    SameIssued(c, q, tr, tr');
    forall i | 0 <= i < |tr'.done| ensures OnTime(c, tr'.done[i], tr') {
      assert i < |tr.done| ==> OnTime(c, tr.done[i], tr);
    }
  }

  // The picked request is the only one with its id.
  ghost predicate PickedAlone(q: Queues, tr: Trace, pick: int) {
    Picks(q, pick) &&
    var rs, k := QueueOf(q, Chosen(q)), QueueOf(q, Chosen(q))[pick].id;
    && k < |tr.stage|
    && (forall i | 0 <= i < |rs| && i != pick :: rs[i].id != k)
    && (Chosen(q) != Read ==> forall i | 0 <= i < |q.readq| :: q.readq[i].id != k)
    && (Chosen(q) != Write ==> forall i | 0 <= i < |q.writeq| :: q.writeq[i].id != k)
    && (Chosen(q) != Other ==> forall i | 0 <= i < |q.otherq| :: q.otherq[i].id != k)
    && (forall i | 0 <= i < |q.pending| :: q.pending[i].id != k)
    && (forall i | 0 <= i < |q.pendingWrite| :: q.pendingWrite[i].id != k)
    && (forall i | 0 <= i < |tr.done| :: tr.done[i].req.id != k)
  }

  lemma Alone(q: Queues, tr: Trace, pick: int)
    requires Shape(tr) && Placed(q, tr) && Picks(q, pick)
    ensures PickedAlone(q, tr, pick)
  {
    PickedId(q, tr, pick);
    var rs := QueueOf(q, Chosen(q));
    var k := rs[pick].id;
    OnlyPicked(rs, tr.stage, StageOf(Chosen(q)), pick);
    if Chosen(q) != Read { Unlisted(q.readq, tr.stage, InReadq, k); }
    if Chosen(q) != Write { Unlisted(q.writeq, tr.stage, InWriteq, k); }
    if Chosen(q) != Other { Unlisted(q.otherq, tr.stage, InOtherq, k); }
    Unlisted(q.pending, tr.stage, InPending, k);
    Unlisted(q.pendingWrite, tr.stage, InPendingWrite, k);
    forall i | 0 <= i < |tr.done| ensures tr.done[i].req.id != k { assert DoneIds(tr.done)[i] == tr.done[i].req.id; }
  }

  lemma ServeServed(c: Config, q: Queues, tr: Trace, pick: int, last: bool)
    requires Shape(tr) && Placed(q, tr) && Timed(c, q, tr) && CycleStart(q, tr) && Served(c, q, tr)
    ensures Served(c, Serve(c, q, pick, last), ServeTrace(q, tr, pick, last))
  {
    if Picks(q, pick) {
      Alone(q, tr, pick);
      hide Placed, Timed, CycleStart, Picks;
      match Chosen(q) {
        case Read => ReadServed(c, q, tr, pick, last);
        case Write => WriteServed(c, q, tr, pick, last);
        case Other => OtherServed(c, q, tr, pick, last);
      }
    }
  }

  lemma ReadServed(c: Config, q: Queues, tr: Trace, pick: int, last: bool)
    requires Shape(tr) && 0 <= q.clk && PickedAlone(q, tr, pick) && Served(c, q, tr) && Chosen(q) == Read
    ensures Served(c, Serve(c, q, pick, last), ServeTrace(q, tr, pick, last))
  {}

  lemma WriteServed(c: Config, q: Queues, tr: Trace, pick: int, last: bool)
    requires Shape(tr) && 0 <= q.clk && PickedAlone(q, tr, pick) && Served(c, q, tr) && Chosen(q) == Write
    ensures Served(c, Serve(c, q, pick, last), ServeTrace(q, tr, pick, last))
  {}

  lemma OtherServed(c: Config, q: Queues, tr: Trace, pick: int, last: bool)
    requires Shape(tr) && PickedAlone(q, tr, pick) && Served(c, q, tr) && Chosen(q) == Other
    ensures Served(c, Serve(c, q, pick, last), ServeTrace(q, tr, pick, last))
  {}

  lemma OnlyPicked(rs: seq<Request>, stage: seq<Stage>, st: Stage, pick: nat)
    requires Holds(Ids(rs), stage, st) && pick < |rs|
    ensures forall i | 0 <= i < |rs| && i != pick :: rs[i].id != rs[pick].id
  {
    forall i | 0 <= i < |rs| && i != pick ensures rs[i].id != rs[pick].id {
      assert if i < pick then Unlike(Ids(rs), i, pick) else Unlike(Ids(rs), pick, i);
    }
  }

  // A write issues later than everything that has arrived, and a read that issues had no older write.
  lemma ServeSourced(c: Config, q: Queues, tr: Trace, pick: int, last: bool)
    requires Shape(tr) && Placed(q, tr) && Faithful(c, q, tr) && Timed(c, q, tr) && CycleStart(q, tr) && Sourced(q, tr)
    ensures Shape(ServeTrace(q, tr, pick, last))
    ensures Sourced(Serve(c, q, pick, last), ServeTrace(q, tr, pick, last))
  {
    hide OlderWrite, Timed, Holds;
    var tr' := ServeTrace(q, tr, pick, last);
    if Picks(q, pick) {
      PickedId(q, tr, pick);
      var r := QueueOf(q, Chosen(q))[pick];
      assert Agrees(r, Chosen(q), tr);
      ClockKnown(c, q, tr);
      forall k: nat | k < |tr'.accepted| ensures SourceOk(q.clk, tr', k) {
        assert SourceOk(q.clk, tr, k) && SourceOk(q.clk, tr, r.id);
        OlderKept(tr, tr', k);
      }
    }
  }

  lemma ClockKnown(c: Config, q: Queues, tr: Trace)
    requires Timed(c, q, tr)
    ensures 0 <= q.clk
  {}

  // A read that issues is ready later; the times of those called back do not change.
  lemma ServePrompt(c: Config, q: Queues, tr: Trace, pick: int, last: bool)
    requires Shape(tr) && Placed(q, tr) && Faithful(c, q, tr) && Timed(c, q, tr) && Prompt(c, q, tr)
    ensures Shape(ServeTrace(q, tr, pick, last))
    ensures Prompt(c, Serve(c, q, pick, last), ServeTrace(q, tr, pick, last))
  {
    hide Timed, Holds;
    var tr' := ServeTrace(q, tr, pick, last);
    if Picks(q, pick) {
      PickedId(q, tr, pick);
      ClockKnown(c, q, tr);
      var r := QueueOf(q, Chosen(q))[pick];
      assert Agrees(r, Chosen(q), tr);
      forall i: nat | i < |tr'.done| ensures InTurn(c, tr', i) {
        if i < |tr.done| {
          CompletedStage(q, tr, i);
          assert InTurn(c, tr, i) && Agrees(tr.done[i].req, tr.done[i].req.kind, tr);
          TurnKept(c, tr, tr', i);
        }
      }
      if tr'.done != tr.done { assert tr'.done[..|tr.done|] == tr.done; }
      if q.pending != [] {
        assert Agrees(q.pending[0], Read, tr);
        PendingStage(q, tr);
      }
    }
  }

  lemma CompletedStage(q: Queues, tr: Trace, i: nat)
    requires Placed(q, tr) && i < |tr.done|
    ensures tr.done[i].req.id < |tr.stage| && tr.stage[tr.done[i].req.id] == Completed
  {
    assert DoneIds(tr.done)[i] == tr.done[i].req.id;
  }

  lemma PendingStage(q: Queues, tr: Trace)
    requires Placed(q, tr) && q.pending != []
    ensures q.pending[0].id < |tr.stage| && tr.stage[q.pending[0].id] == InPending
  {
    assert Ids(q.pending)[0] == q.pending[0].id;
  }

  lemma ServeInv(c: Config, q: Queues, tr: Trace, pick: int, last: bool)
    requires Inv(c, q, tr) && CycleStart(q, tr)
    ensures Inv(c, Serve(c, q, pick, last), ServeTrace(q, tr, pick, last))
  {
    hide Placed, Faithful, ReadsFirst, Timed, Served, Sourced, Prompt, Serve, ServeTrace, CycleStart;
    ServePrompt(c, q, tr, pick, last);
    ServeSourced(c, q, tr, pick, last);
    ServePlaced(c, q, tr, pick, last);
    ServeFaithful(c, q, tr, pick, last);
    ServeReadsFirst(c, q, pick, last);
    ServeTimed(c, q, tr, pick, last);
    ServeServed(c, q, tr, pick, last);
  }

  lemma ModeInv(c: Config, q: Queues, tr: Trace, mode: bool)
    requires Inv(c, q, tr) && CycleStart(q, tr)
    ensures Inv(c, q.(writeMode := mode), tr) && CycleStart(q.(writeMode := mode), tr)
  {}

  // --- What being counted means. ---

  // A queued request on whose behalf a command was issued, or a pending read that accessed a row.
  ghost predicate BeingServed(q: Queues, tr: Trace, k: nat) {
    || (exists i | 0 <= i < |q.readq| :: q.readq[i].id == k && !q.readq[i].first)
    || (exists i | 0 <= i < |q.writeq| :: q.writeq[i].id == k && !q.writeq[i].first)
    || (exists i | 0 <= i < |q.pending| :: q.pending[i].id == k && k < |tr.issued| && tr.issued[k] != NOT_ISSUED)
  }

  /** With a read latency of at least one, the requests counted are exactly those being served: started reads and
      writes whose data command is still to come, and reads that accessed a row and are not called back yet. */
  lemma CountedAreServed(c: Config, q: Queues, tr: Trace, k: nat)
    requires Inv(c, q, tr) && k < |tr.stage|
    ensures BeingServed(q, tr, k) ==> tr.live[k]
    ensures c.readLatency >= 1 ==> (tr.live[k] <==> BeingServed(q, tr, k))
  {
    if tr.live[k] {
      match tr.stage[k] {
        case InReadq => var i := Position(q.readq, tr.stage, InReadq, k);
        case InWriteq => var i := Position(q.writeq, tr.stage, InWriteq, k);
        case InOtherq => var i := Position(q.otherq, tr.stage, InOtherq, k);
        case InPending => var i := Position(q.pending, tr.stage, InPending, k);
        case InPendingWrite => var i := Position(q.pendingWrite, tr.stage, InPendingWrite, k);
        case Completed =>
          assert k in DoneIds(tr.done);
          var i :| 0 <= i < |tr.done| && DoneIds(tr.done)[i] == k;
      }
    }
  }
}
