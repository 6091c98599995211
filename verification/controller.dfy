/** The memory controller in operation: requests arrive, a cycle calls back what is due and issues at most one
    command. Which request is picked, and whether its command is ready and the last one, comes from outside. */
module Controller {
  import opened TimingHistory
  import opened ServingCounters
  import opened DramTree
  import opened ControllerQueues
  import opened ControllerSteps
  import opened ControllerService

  class MemoryController {
    const c: Config
    const channel: Dram
    // The level of banks in the tree.
    const bank: nat
    var clk: int
    var writeMode: bool
    var readq: seq<Request>
    var writeq: seq<Request>
    var otherq: seq<Request>
    var pending: seq<Request>
    var pendingWrite: seq<Request>
    // The number of requests accepted, and the id of the next one.
    var count: nat
    ghost var trace: Trace
    ghost var changes: seq<Change>

    function Now(): Queues
      reads this
    {
      Queues(clk, writeMode, readq, writeq, otherq, pending, pendingWrite)
    }

    ghost predicate Valid()
      reads this, channel.nodes`serving
    {
      && Inv(c, Now(), trace) && count == |trace.stage|
      && Counting()
      && forall k | 0 <= k < |trace.accepted| && trace.accepted[k].kind != Other :: channel.Aims(trace.accepted[k].vec)
    }

    constructor (c: Config, channel: Dram, bank: nat)
      requires channel.Tree() && channel.level <= bank + 1 && forall n | n in channel.nodes :: n.serving == IDLE
      ensures this.c == c && this.channel == channel && this.bank == bank && Valid()
      ensures count == 0 && changes == [] && trace == Trace([], [], [], [], [])
      ensures Now() == Queues(0, false, [], [], [], [], [])
    {
      this.c, this.channel, this.bank := c, channel, bank;
      clk, writeMode, readq, writeq, otherq, pending, pendingWrite := 0, false, [], [], [], [], [];
      count, trace, changes := 0, Trace([], [], [], [], []), [];
      new;
      EmptyInv(c, Now(), trace);
    }

    /** A request is accepted exactly when its queue is not full. */
    method Enqueue(kind: Kind, addr: int, vec: seq<int>) returns (accepted: bool)
      requires Valid() && (kind != Other ==> channel.Aims(vec))
      modifies this
      ensures Valid() && changes == old(changes)
      ensures accepted <==> |QueueOf(old(Now()), kind)| != c.queueMax
      ensures accepted ==>
                var r := Request(old(count), kind, addr, vec, true, old(clk), 0);
                && Now() == Enqueued(old(Now()), r) && trace == Accepted(old(trace), r, ArrivalStage(old(Now()), r))
                && count == old(count) + 1
      ensures !accepted ==> Now() == old(Now()) && trace == old(trace) && count == old(count)
    {
      hide Placed, Faithful, ReadsFirst, Timed, Served, CountsAgree, Dram.Tree, Dram.Serves, Dram.Aims;
      var full :=
        match kind
        case Read => |readq| == c.queueMax
        case Write => |writeq| == c.queueMax
        case Other => |otherq| == c.queueMax;
      if full {
        return false;
      }
      var r := Request(count, kind, addr, vec, true, clk, 0);
      ghost var was := Now();
      EnqueueInv(c, was, trace, r);
      NewAgrees(trace.live, trace.accepted, changes, clk, r);
      trace := Accepted(trace, r, ArrivalStage(was, r));
      count := count + 1;
      match kind {
        case Read =>
          readq := readq + [r];
          if exists i | 0 <= i < |writeq| :: writeq[i].addr == addr {
            pending := pending + [r.(depart := clk + 1)];
            readq := readq[..|readq| - 1];
          }
        case Write => writeq := writeq + [r];
        case Other => otherq := otherq + [r];
      }
      assert Now() == Enqueued(was, r);
      return true;
    }

    // The counters of the tree agree with the requests counted as being served.
    ghost predicate Counting()
      reads this, channel.nodes`serving
    {
      && Shape(trace) && 0 <= clk && channel.Tree() && channel.level <= bank + 1 && channel.Serves(changes, bank)
      && CountsAgree(trace.live, trace.accepted, changes, clk)
    }

    // A change at the nodes of an address.
    method CountAlong(vec: seq<int>, delta: int)
      requires channel.Tree() && channel.level <= bank + 1 && channel.Serves(changes, bank) && channel.Aims(vec)
      requires 0 <= clk
      requires forall n | n in channel.nodes && n.path <= vec && n.level <= bank + 1 :: n.Counts(delta)
      modifies channel.nodes`serving
      ensures channel.Serves(changes + [Change(vec, delta, clk)], bank)
    {
      hide Step, Dram.Aims;
      channel.UpdateServingRequests(vec, delta, clk, bank);
      ghost var e := Change(vec, delta, clk);
      forall n | n in channel.nodes && n.level <= bank + 1 ensures n.serving == CounterOf(n.path, changes + [e]) {
        OneMoreChange(n.path, changes, e);
      }
    }

    // Counts an accepted request in or out at the nodes of its address.
    method Serving(vec: seq<int>, delta: int, ghost k: nat)
      requires Counting() && k < |trace.accepted| && trace.accepted[k].vec == vec && channel.Aims(vec)
      requires (delta == 1 && !trace.live[k]) || (delta == -1 && trace.live[k])
      modifies channel.nodes`serving, this`changes, this`trace
      ensures Counting() && changes == old(changes) + [Change(vec, delta, clk)]
      ensures trace == old(trace).(live := old(trace).live[k := delta == 1])
    {
      hide CountsAgree, Step, Dram.Tree, Dram.Serves, Dram.Aims;
      ChangeAllowed(channel, bank, trace.live, trace.accepted, changes, clk, k, delta == 1);
      ChangeAgrees(trace.live, trace.accepted, changes, clk, k, delta == 1);
      CountAlong(vec, delta);
      changes := changes + [Change(vec, delta, clk)];
      trace := trace.(live := trace.live[k := delta == 1]);
    }

    // The clock advances; the oldest pending read and the oldest pending write are called back if they are due.
    method CallBack()
      requires Valid()
      modifies this, channel.nodes`serving
      ensures Valid() && CycleStart(Now(), trace)
      ensures Now() == Front(old(Now())) && trace == FrontTrace(old(Now()), old(trace))
    {
      hide Inv, CountsAgree, Dram.Tree, Dram.Serves, Dram.Aims, Step, FrontTrace, Front, CycleStart, ReadBack,
           ReadBackTrace, WriteBack, WriteBackTrace;
      ghost var q, tr := Now(), trace;
      DueRead(c, q, tr);
      FrontInv(c, q, tr);
      FrontIs(q, tr);
      FrontKeeps(q, tr);
      Advance(trace.live, trace.accepted, changes, clk);
      clk := clk + 1;
      assert Now() == Clocked(q);
      hide Clocked;
      CallBackRead();
      CallBackWrite();
    }

    method CallBackWrite()
      requires Counting() && (pendingWrite != [] ==> pendingWrite[0].id < |trace.stage|)
      modifies this`pendingWrite, this`trace
      ensures Counting() && Now() == WriteBack(old(Now())) && trace == WriteBackTrace(old(Now()), old(trace))
    {
      hide CountsAgree, Dram.Tree, Dram.Serves;
      if pendingWrite != [] && pendingWrite[0].depart <= clk {
        var r := pendingWrite[0];
        trace := trace.(stage := trace.stage[r.id := Completed], done := trace.done + [Done(r, clk)]);
        pendingWrite := pendingWrite[1..];
      }
    }

    method CallBackRead()
      requires Counting()
      requires pending != [] ==>
                 var r := pending[0];
                 && r.id < |trace.stage| && trace.accepted[r.id].vec == r.vec && channel.Aims(r.vec)
                 && (TakenForReal(r.arrive, r.depart) ==> trace.live[r.id])
      modifies this`pending, this`trace, this`changes, channel.nodes`serving
      ensures |trace.stage| == old(|trace.stage|)
      ensures Counting() && Now() == ReadBack(old(Now())) && trace == ReadBackTrace(old(Now()), old(trace))
    {
      hide CountsAgree, Dram.Tree, Dram.Serves, Dram.Aims, Step;
      if pending != [] && pending[0].depart <= clk {
        var r := pending[0];
        if TakenForReal(r.arrive, r.depart) {
          Serving(r.vec, -1, r.id);
        }
        trace := trace.(stage := trace.stage[r.id := Completed], done := trace.done + [Done(r, clk)]);
        pending := pending[1..];
      }
    }

    // The picked request is counted in when its first command issues, and a write out with its last.
    method CountFor(pick: int, last: bool)
      requires Counting() && Picks(Now(), pick)
      requires var r := QueueOf(Now(), Chosen(Now()))[pick];
               && r.id < |trace.accepted| && r.id < |trace.live| && r.kind == Chosen(Now())
               && trace.accepted[r.id].vec == r.vec && (r.kind != Other ==> channel.Aims(r.vec))
               && (if r.kind == Other then !trace.live[r.id] else trace.live[r.id] <==> !r.first)
      modifies this`trace, this`changes, channel.nodes`serving
      ensures Counting()
      ensures trace == old(trace).(live := ServeTrace(old(Now()), old(trace), pick, last).live)
    {
      hide CountsAgree, Dram.Tree, Dram.Serves, Dram.Aims, Step, Mode;
      ghost var tr := trace;
      var kind := Chosen(Now());
      var r := QueueOf(Now(), kind)[pick];
      if r.first && kind != Other {
        Serving(r.vec, 1, r.id);
      }
      if last && kind == Write {
        Serving(r.vec, -1, r.id);
      }
      assert trace.live == ServeTrace(Now(), tr, pick, last).live;
    }

    // The picked request goes on in its queue, or to its pending list when it is finished.
    method MoveOn(pick: int, last: bool)
      requires Picks(Now(), pick)
      modifies this`readq, this`writeq, this`otherq, this`pending, this`pendingWrite
      ensures Now() == Serve(c, old(Now()), pick, last)
    {
      var kind := Chosen(Now());
      var rs := QueueOf(Now(), kind);
      var r := rs[pick].(first := false);
      match kind {
        case Read =>
          readq := if last then Without(rs, pick) else rs[pick := r];
          if last { pending := pending + [r.(depart := clk + c.readLatency)]; }
        case Write =>
          writeq := if last then Without(rs, pick) else rs[pick := r];
          if last { pendingWrite := pendingWrite + [r.(depart := clk + c.writeLatency)]; }
        case Other =>
          otherq := if last then Without(rs, pick) else rs[pick := r];
      }
    }

    // A command is issued on behalf of the picked request.
    method IssueFor(pick: int, last: bool)
      requires Valid() && CycleStart(Now(), trace)
      modifies this, channel.nodes`serving
      ensures Valid() && Now() == Serve(c, old(Now()), pick, last)
          && trace == ServeTrace(old(Now()), old(trace), pick, last)
    {
      hide Inv, CountsAgree, Dram.Tree, Dram.Serves, Dram.Aims, CycleStart, Mode, Serve, ServeTrace;
      ghost var q, tr := Now(), trace;
      ServeInv(c, q, tr, pick, last);
      if !(0 <= pick < |QueueOf(Now(), Chosen(Now()))|) {
        ServeNone(c, q, tr, pick, last);
        return;
      }
      PickedRequest(c, q, tr, pick);
      CountFor(pick, last);
      ServeShape(c, q, tr, pick, last);
      trace := ServeTrace(q, tr, pick, last);
      MoveOn(pick, last);
    }

    // From reads to writes and back.
    method ChooseMode()
      requires Valid() && CycleStart(Now(), trace)
      modifies this`writeMode
      ensures Valid() && CycleStart(Now(), trace)
      ensures Now() == old(Now()).(writeMode := Mode(c, old(Now())))
    {
      hide Inv, Shape, CountsAgree, CycleStart, Dram.Tree, Dram.Serves, Dram.Aims;
      ModeInv(c, Now(), trace, Mode(c, Now()));
      if !writeMode {
        if |writeq| >= c.queueMax * 4 / 5 || |readq| == 0 { writeMode := true; }
      } else {
        if |writeq| <= c.queueMax / 5 && |readq| != 0 { writeMode := false; }
      }
    }

    /** One cycle. `pick` is the position that the scheduler chose in the queue to be served, or -1 when it chose
        none or the command of its choice is not ready; `last` says that the command finishes the request. */
    method Tick(pick: int, last: bool)
      requires Valid()
      modifies this, channel.nodes`serving
      ensures Valid()
      ensures var front := Front(old(Now()));
              var q := front.(writeMode := Mode(c, front));
              && Now() == Serve(c, q, pick, last) && trace ==
                  ServeTrace(q, FrontTrace(old(Now()), old(trace)), pick, last)
      ensures CycleEffect(c, old(Now()), Now(), trace)
    {
      TickEffect(c, Now(), trace, pick, last);
      hide Inv, Shape, CountsAgree, CycleStart, Front, FrontTrace, Serve, ServeTrace, Mode, Dram.Tree, Dram.Serves,
           Dram.Aims, CycleEffect;
      CallBack();
      ChooseMode();
      IssueFor(pick, last);
    }
  }

  lemma FrontIs(q: Queues, tr: Trace)
    ensures Front(q) == WriteBack(ReadBack(Clocked(q)))
    ensures FrontTrace(q, tr) == WriteBackTrace(ReadBack(Clocked(q)), ReadBackTrace(Clocked(q), tr))
  {}

  lemma FrontKeeps(q: Queues, tr: Trace)
    ensures FrontTrace(q, tr).accepted == tr.accepted && |FrontTrace(q, tr).stage| == |tr.stage|
  {}

  lemma EmptyInv(c: Config, q: Queues, tr: Trace)
    requires q == Queues(0, false, [], [], [], [], []) && tr == Trace([], [], [], [], [])
    ensures Inv(c, q, tr)
  {}

  // A read that is called back and taken for one that accessed a row was being counted.
  lemma DueRead(c: Config, q: Queues, tr: Trace)
    requires Inv(c, q, tr)
    ensures 0 <= q.clk && (q.pendingWrite != [] ==> q.pendingWrite[0].id < |tr.stage|)
    ensures q.pending != [] ==>
              var r := q.pending[0];
              && r.id < |tr.stage| && tr.accepted[r.id].vec == r.vec && tr.accepted[r.id].kind == Read
              && (TakenForReal(r.arrive, r.depart) ==> tr.live[r.id])
  {
    if q.pending != [] { assert Agrees(q.pending[0], Read, tr) && ReadDue(c, q.pending[0], q.clk, tr); }
    if q.pendingWrite != [] { assert Agrees(q.pendingWrite[0], Write, tr); }
  }

  lemma Advance(live: seq<bool>, accepted: seq<Request>, h: seq<Change>, clk: int)
    requires |live| == |accepted| && CountsAgree(live, accepted, h, clk)
    ensures CountsAgree(live, accepted, h, clk + 1)
  {}

  // A cycle told from the queues before it: which way the data bus turns, from which queue a request may move on, and
  // that the oldest pending read is called back if it is due.
  ghost predicate CycleEffect(c: Config, q: Queues, after: Queues, tr: Trace) {
    && after.clk == q.clk + 1
    && (after.writeMode <==> |q.readq| == 0 || if q.writeMode then |q.writeq| > c.queueMax / 5
                                               else |q.writeq| >= c.queueMax * 4 / 5)
    && (if q.otherq != [] then after.readq == q.readq && after.writeq == q.writeq
        else if after.writeMode then after.readq == q.readq else after.writeq == q.writeq)
    && (q.pending != [] && q.pending[0].depart <= after.clk ==> Done(q.pending[0], after.clk) in tr.done)
  }

  lemma TickEffect(c: Config, q: Queues, tr: Trace, pick: int, last: bool)
    requires Inv(c, q, tr)
    ensures var front := Front(q).(writeMode := Mode(c, Front(q)));
            CycleEffect(c, q, Serve(c, front, pick, last), ServeTrace(front, FrontTrace(q, tr), pick, last))
  {
    FrontEffect(c, q, tr);
    ServeClock(c, Front(q).(writeMode := Mode(c, Front(q))), pick, last);
    if q.pending != [] && q.pending[0].depart <= q.clk + 1 {
      hide Front, FrontTrace, Mode, Inv, ServeTrace, Serve;
      ServeDone(Front(q).(writeMode := Mode(c, Front(q))), FrontTrace(q, tr), pick, last, |tr.done|);
    }
  }

  lemma FrontEffect(c: Config, q: Queues, tr: Trace)
    requires Inv(c, q, tr)
    ensures var front, tr' := Front(q), FrontTrace(q, tr);
            && front.clk == q.clk + 1 && front.readq == q.readq && front.writeq == q.writeq
            && front.otherq == q.otherq && front.writeMode == q.writeMode
            && (q.pending != [] && q.pending[0].depart <= q.clk + 1 ==>
                  |tr.done| < |tr'.done| && tr'.done[|tr.done|] == Done(q.pending[0], q.clk + 1))
  {
    if q.pending != [] { assert Agrees(q.pending[0], Read, tr); }
  }

  lemma ServeClock(c: Config, q: Queues, pick: int, last: bool)
    ensures var after := Serve(c, q, pick, last);
            && after.clk == q.clk && after.writeMode == q.writeMode
            && (if q.otherq != [] then after.readq == q.readq && after.writeq == q.writeq
                else if q.writeMode then after.readq == q.readq else after.writeq == q.writeq)
  {}

  lemma ServeDone(q: Queues, tr: Trace, pick: int, last: bool, i: nat)
    requires i < |tr.done|
    ensures i < |ServeTrace(q, tr, pick, last).done| && ServeTrace(q, tr, pick, last).done[i] == tr.done[i]
  {}

  lemma ServeNone(c: Config, q: Queues, tr: Trace, pick: int, last: bool)
    requires !Picks(q, pick)
    ensures Serve(c, q, pick, last) == q && ServeTrace(q, tr, pick, last) == tr
  {}

  lemma ServeShape(c: Config, q: Queues, tr: Trace, pick: int, last: bool)
    requires Inv(c, q, tr)
    ensures var tr' := ServeTrace(q, tr, pick, last);
            Shape(tr') && |tr'.stage| == |tr.stage| && tr'.accepted == tr.accepted
  {}

  // The picked request is one that was accepted, and it is being served just if a command was issued for it.
  lemma PickedRequest(c: Config, q: Queues, tr: Trace, pick: int)
    requires Inv(c, q, tr) && Picks(q, pick)
    ensures var r := QueueOf(q, Chosen(q))[pick];
            && r.id < |tr.stage| && r.id < |tr.accepted| && r.id < |tr.live| && 0 <= q.clk
            && tr.accepted[r.id].vec == r.vec && tr.accepted[r.id].kind == Chosen(q) && r.kind == Chosen(q)
            && (if Chosen(q) == Other then !tr.live[r.id] else tr.live[r.id] <==> !r.first)
  {
    assert Agrees(QueueOf(q, Chosen(q))[pick], Chosen(q), tr);
  }

  // --- A count left over. ---

  // One read under way from a new controller: after an idle cycle, after its arrival, after its issue, and after
  // its call back.
  function Idle(): Queues { Queues(1, true, [], [], [], [], []) }

  function OneRead(addr: int, vec: seq<int>): Request { Request(0, Read, addr, vec, true, 1, 0) }

  lemma IdleCycle(c: Config, q: Queues, tr: Trace)
    requires q == Queues(0, false, [], [], [], [], []) && tr == Trace([], [], [], [], [])
    ensures var front := Front(q);
            && Serve(c, front.(writeMode := Mode(c, front)), -1, false) == Idle()
            && ServeTrace(front.(writeMode := Mode(c, front)), FrontTrace(q, tr), -1, false) == tr
  {}

  lemma ReadArrives(tr: Trace, r: Request)
    requires tr == Trace([], [], [], [], []) && r.kind == Read
    ensures Enqueued(Idle(), r) == Idle().(readq := [r])
    ensures Accepted(tr, r, ArrivalStage(Idle(), r)) == Trace([InReadq], [r], [NOT_ISSUED], [false], [])
  {}

  lemma ReadCycle(c: Config, q: Queues, tr: Trace, r: Request)
    requires c.readLatency == 0 && r.id == 0 && r.kind == Read && r.arrive == 1
    requires q == Idle().(readq := [r]) && tr == Trace([InReadq], [r], [NOT_ISSUED], [false], [])
    ensures var front := Front(q);
            && Serve(c, front.(writeMode := Mode(c, front)), 0, true)
               == Queues(2, false, [], [], [], [r.(first := false, depart := 2)], [])
            && ServeTrace(front.(writeMode := Mode(c, front)), FrontTrace(q, tr), 0, true)
               == Trace([InPending], [r], [2], [true], [])
  {
    assert Front(q) == Queues(2, true, [r], [], [], [], []);
    assert Without([r], 0) == [];
  }

  lemma BackCycle(c: Config, q: Queues, tr: Trace, r: Request, back: Request)
    requires r.arrive == 1 && back == r.(first := false, depart := 2) && r.id == 0
    requires q == Queues(2, false, [], [], [], [back], []) && tr == Trace([InPending], [r], [2], [true], [])
    ensures var front := Front(q);
            && Serve(c, front.(writeMode := Mode(c, front)), -1, false) == Queues(3, true, [], [], [], [], [])
            && ServeTrace(front.(writeMode := Mode(c, front)), FrontTrace(q, tr), -1, false)
               == Trace([Completed], [r], [2], [true], [Done(back, 3)])
  {
    assert !TakenForReal(1, 2);
  }

  lemma OneCounted(p: Path, r: Request)
    requires IsTarget(p, r.vec)
    ensures CountLive(p, [true], [r]) == 1
  {
    assert [true][..0] == [] && [r][..0] == [];
  }

  // A new controller in its second cycle, with one read.
  method ReadWaiting(c: Config, channel: Dram, bank: nat, addr: int, vec: seq<int>) returns (m: MemoryController)
    requires channel.Tree() && channel.level <= bank + 1 && forall n | n in channel.nodes :: n.serving == IDLE
    requires c.queueMax >= 1 && channel.Aims(vec)
    modifies channel.nodes`serving
    ensures fresh(m) && m.Valid() && m.c == c && m.channel == channel && m.bank == bank
    ensures m.Now() == Idle().(readq := [OneRead(addr, vec)])
    ensures m.trace == Trace([InReadq], [OneRead(addr, vec)], [NOT_ISSUED], [false], [])
  {
    hide Inv, CountsAgree, Dram.Tree, Dram.Serves, Dram.Aims, Front, FrontTrace, Serve, ServeTrace, Mode, Enqueued,
         Accepted, MemoryController.Counting, ArrivalStage;
    m := new MemoryController(c, channel, bank);
    IdleCycle(c, m.Now(), m.trace);
    m.Tick(-1, false);
    ReadArrives(m.trace, OneRead(addr, vec));
    var accepted := m.Enqueue(Read, addr, vec);
  }

  /** Without a read latency the count can be left over, whatever the size of the queues: a read that arrives after
      an idle cycle and is issued in the next one is called back and completed, and yet stays counted. */
  method LeftOver(c: Config, channel: Dram, bank: nat, addr: int, vec: seq<int>) returns (m: MemoryController)
    requires channel.Tree() && channel.level <= bank + 1 && forall n | n in channel.nodes :: n.serving == IDLE
    requires c.readLatency == 0 && c.queueMax >= 1 && channel.Aims(vec)
    modifies channel.nodes`serving
    ensures m.Valid() && m.channel == channel && m.Now() == Queues(3, true, [], [], [], [], [])
    ensures m.trace.stage == [Completed] && |m.trace.done| == 1 && channel.serving.cur == 1
  {
    assert channel in channel.nodes && IsTarget(channel.path, vec);
    hide Inv, CountsAgree, Dram.Tree, Dram.Serves, Dram.Aims, Front, FrontTrace, Serve, ServeTrace, Mode, IsTarget,
         CountLive;
    ghost var r := OneRead(addr, vec);
    m := ReadWaiting(c, channel, bank, addr, vec);
    ReadCycle(c, m.Now(), m.trace, r);
    m.Tick(0, true);
    BackCycle(c, m.Now(), m.trace, r, r.(first := false, depart := 2));
    m.Tick(-1, false);
    NodeCounts(channel, bank, m.trace.live, m.trace.accepted, m.changes, m.clk, channel);
    OneCounted(channel.path, r);
  }
}
