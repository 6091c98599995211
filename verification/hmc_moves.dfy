/** How the places change when one request moves on. */
module HmcMoves {
  import opened Places
  import opened HmcStages

  // --- A place the move does not concern. ---

  lemma LinkFrame(l: Link, s: nat, stage: seq<Stage>, meta: seq<Packet>, k: nat, to: Stage)
    requires LinkOk(l, s, stage, meta) && k < |stage|
    requires stage[k] != Arriving(s) && stage[k] != Leaving(s) && to != Arriving(s) && to != Leaving(s)
    ensures LinkOk(l, s, stage[k := to], meta)
  {
    HoldsOther(PacketIds(l.input), stage, k, Arriving(s), to);
    HoldsOther(ResponseIds(l.output), stage, k, Leaving(s), to);
  }

  ghost predicate AtVault(st: Stage, v: nat) { InVault(st, v) || st == Answering(v) }

  lemma VaultFrame(c: Config, u: Vault, v: nat, stage: seq<Stage>, meta: seq<Packet>, k: nat, to: Stage)
    requires QueuesOk(c, u, v, stage, meta) && IncomingOk(u, v, stage, meta) && k < |stage|
    requires !AtVault(stage[k], v) && !AtVault(to, v) && k !in u.incoming
    ensures QueuesOk(c, u, v, stage[k := to], meta) && IncomingOk(u, v, stage[k := to], meta)
  {
    HoldsOther(RequestIds(u.readq), stage, k, Reading(v), to);
    HoldsOther(RequestIds(u.writeq), stage, k, Writing(v), to);
    HoldsOther(RequestIds(u.pending), stage, k, Pending(v), to);
    HoldsOther(ResponseIds(u.responses), stage, k, Answering(v), to);
  }

  // --- Links. ---

  lemma InputPop(l: Link, s: nat, stage: seq<Stage>, meta: seq<Packet>, to: Stage)
    requires LinkOk(l, s, stage, meta) && l.input != [] && to != Arriving(s) && to != Leaving(s)
    ensures l.input[0].id < |stage| && stage[l.input[0].id] == Arriving(s)
    ensures LinkOk(l.(input := l.input[1..]), s, stage[l.input[0].id := to], meta)
  {
    var ids, k := PacketIds(l.input), l.input[0].id;
    assert ids[0] == k;
    HoldsDrop(ids, stage, 0, Arriving(s), to);
    assert PacketIds(l.input[1..]) == ids[..0] + ids[1..];
    HoldsOther(ResponseIds(l.output), stage, k, Leaving(s), to);
  }

  lemma OutputPush(l: Link, s: nat, stage: seq<Stage>, meta: seq<Packet>, r: Response)
    requires LinkOk(l, s, stage, meta) && r.id < |stage| && stage[r.id] != Leaving(s) && stage[r.id] != Arriving(s)
    requires IsAnswer(r, meta) && r.slid == s
    ensures LinkOk(l.(output := l.output + [r]), s, stage[r.id := Leaving(s)], meta)
  {
    HoldsPush(ResponseIds(l.output), stage, r.id, Leaving(s));
    assert ResponseIds(l.output + [r]) == ResponseIds(l.output) + [r.id];
    HoldsOther(PacketIds(l.input), stage, r.id, Arriving(s), Leaving(s));
  }

  lemma OutputPop(l: Link, s: nat, stage: seq<Stage>, meta: seq<Packet>)
    requires LinkOk(l, s, stage, meta) && l.output != []
    ensures l.output[0].id < |stage| && stage[l.output[0].id] == Leaving(s)
    ensures LinkOk(l.(output := l.output[1..]), s, stage[l.output[0].id := Done], meta)
  {
    var ids, k := ResponseIds(l.output), l.output[0].id;
    assert ids[0] == k;
    HoldsDrop(ids, stage, 0, Leaving(s), Done);
    assert ResponseIds(l.output[1..]) == ids[..0] + ids[1..];
    HoldsOther(PacketIds(l.input), stage, k, Arriving(s), Done);
  }

  // --- Vaults. ---

  lemma RequestPush(qs: seq<Request>, q: Request)
    ensures RequestIds(qs + [q]) == RequestIds(qs) + [q.id]
  {}

  /** A packet taken in from a link: queued, or for a read that an older write answers, pending at once. */
  lemma VaultTake(c: Config, u: Vault, v: nat, stage: seq<Stage>, meta: seq<Packet>, p: Packet, q: Request,
      to: Stage, u': Vault)
    requires QueuesOk(c, u, v, stage, meta) && IncomingOk(u, v, stage, meta) && p.id < |stage|
    requires stage[p.id].Arriving? && meta[p.id] == p && p.vault == v && q.id == p.id && IsRequest(q, meta)
        && q.burst >= 1
    requires || (to == Reading(v) && !q.write && |u.readq| < c.queueMax
                 && u' == u.(readq := u.readq + [q], incoming := u.incoming[p.id := p]))
             || (to == Writing(v) && q.write && |u.writeq| < c.queueMax
                 && u' == u.(writeq := u.writeq + [q], incoming := u.incoming[p.id := p]))
             || (to == Pending(v) && u' == u.(pending := u.pending + [q], incoming := u.incoming[p.id := p]))
    ensures QueuesOk(c, u', v, stage[p.id := to], meta) && IncomingOk(u', v, stage[p.id := to], meta)
  {
    var k := p.id;
    hide Holds;
    if to == Reading(v) {
      HoldsPush(RequestIds(u.readq), stage, k, to);
      RequestPush(u.readq, q);
    } else {
      HoldsOther(RequestIds(u.readq), stage, k, Reading(v), to);
    }
    if to == Writing(v) {
      HoldsPush(RequestIds(u.writeq), stage, k, to);
      RequestPush(u.writeq, q);
    } else {
      HoldsOther(RequestIds(u.writeq), stage, k, Writing(v), to);
    }
    if to == Pending(v) {
      HoldsPush(RequestIds(u.pending), stage, k, to);
      RequestPush(u.pending, q);
    } else {
      HoldsOther(RequestIds(u.pending), stage, k, Pending(v), to);
    }
    HoldsOther(ResponseIds(u.responses), stage, k, Answering(v), to);
  }

  // A packet refused because its queue is full leaves its entry behind.
  lemma VaultRefuse(c: Config, u: Vault, v: nat, stage: seq<Stage>, meta: seq<Packet>, p: Packet)
    requires QueuesOk(c, u, v, stage, meta) && IncomingOk(u, v, stage, meta)
    requires p.id < |stage| && stage[p.id].Arriving? && meta[p.id] == p && p.vault == v
    ensures var u' := u.(incoming := u.incoming[p.id := p]);
            QueuesOk(c, u', v, stage, meta) && IncomingOk(u', v, stage, meta)
  {}

  function Without(qs: seq<Request>, i: nat): (rest: seq<Request>)
    requires i < |qs|
    ensures |rest| == |qs| - 1 && forall j | 0 <= j < |rest| :: rest[j] == qs[if j < i then j else j + 1]
  {
    qs[..i] + qs[i + 1..]
  }

  lemma QueueErase(qs: seq<Request>, stage: seq<Stage>, i: nat, st: Stage, to: Stage)
    requires Holds(RequestIds(qs), stage, st) && i < |qs| && to != st
    ensures qs[i].id < |stage| && stage[qs[i].id] == st && Holds(RequestIds(Without(qs, i)), stage[qs[i].id := to], st)
  {
    var ids := RequestIds(qs);
    assert ids[i] == qs[i].id;
    HoldsDrop(ids, stage, i, st, to);
    assert RequestIds(Without(qs, i)) == ids[..i] + ids[i + 1..];
  }

  /** The last burst of a read: it leaves its queue and waits for its latency. */
  lemma ReadFinish(c: Config, u: Vault, v: nat, stage: seq<Stage>, meta: seq<Packet>, i: nat, q: Request)
    requires QueuesOk(c, u, v, stage, meta) && IncomingOk(u, v, stage, meta)
    requires i < |u.readq| && q.id == u.readq[i].id && q.write == u.readq[i].write && q.addr == u.readq[i].addr
    ensures var u' := u.(readq := Without(u.readq, i), pending := u.pending + [q]);
            && q.id < |stage| && stage[q.id] == Reading(v)
            && QueuesOk(c, u', v, stage[q.id := Pending(v)], meta) && IncomingOk(u', v, stage[q.id := Pending(v)], meta)
  {
    hide Holds, IsAnswer;
    QueueErase(u.readq, stage, i, Reading(v), Pending(v));
    HoldsOther(RequestIds(u.writeq), stage, q.id, Writing(v), Pending(v));
    HoldsPush(RequestIds(u.pending), stage, q.id, Pending(v));
    RequestPush(u.pending, q);
    HoldsOther(ResponseIds(u.responses), stage, q.id, Answering(v), Pending(v));
    assert IsRequest(u.readq[i], meta);
  }

  // The same for a write.
  lemma WriteFinish(c: Config, u: Vault, v: nat, stage: seq<Stage>, meta: seq<Packet>, i: nat, q: Request)
    requires QueuesOk(c, u, v, stage, meta) && IncomingOk(u, v, stage, meta)
    requires i < |u.writeq| && q.id == u.writeq[i].id && q.write == u.writeq[i].write && q.addr == u.writeq[i].addr
    ensures var u' := u.(writeq := Without(u.writeq, i), pending := u.pending + [q]);
            && q.id < |stage| && stage[q.id] == Writing(v)
            && QueuesOk(c, u', v, stage[q.id := Pending(v)], meta) && IncomingOk(u', v, stage[q.id := Pending(v)], meta)
  {
    hide Holds, IsAnswer;
    QueueErase(u.writeq, stage, i, Writing(v), Pending(v));
    HoldsOther(RequestIds(u.readq), stage, q.id, Reading(v), Pending(v));
    HoldsPush(RequestIds(u.pending), stage, q.id, Pending(v));
    RequestPush(u.pending, q);
    HoldsOther(ResponseIds(u.responses), stage, q.id, Answering(v), Pending(v));
    assert IsRequest(u.writeq[i], meta);
  }

  // One more burst served, not the last.
  lemma VaultBurst(c: Config, u: Vault, v: nat, stage: seq<Stage>, meta: seq<Packet>, write: bool, i: nat, q: Request)
    requires QueuesOk(c, u, v, stage, meta) && IncomingOk(u, v, stage, meta)
    requires var qs := if write then u.writeq else u.readq;
             i < |qs| && q.id == qs[i].id && q.write == qs[i].write && q.addr == qs[i].addr && q.burst >= 1
    ensures var u' := if write then u.(writeq := u.writeq[i := q]) else u.(readq := u.readq[i := q]);
            QueuesOk(c, u', v, stage, meta) && IncomingOk(u', v, stage, meta)
  {
    hide Holds;
    var qs := if write then u.writeq else u.readq;
    assert RequestIds(qs[i := q]) == RequestIds(qs);
  }

  /** The oldest pending request is answered: its entry, which is there, tells link and tag, and is released. */
  lemma VaultAnswer(c: Config, u: Vault, v: nat, stage: seq<Stage>, meta: seq<Packet>)
    requires QueuesOk(c, u, v, stage, meta) && IncomingOk(u, v, stage, meta) && u.pending != []
    ensures var q := u.pending[0];
            && q.id in u.incoming && q.id < |stage| && stage[q.id] == Pending(v)
            && var p := u.incoming[q.id];
            var r := Response(q.id, q.write, p.slid, p.tag);
            var u' := u.(pending := u.pending[1..], responses := u.responses + [r], incoming := u.incoming - {q.id});
            QueuesOk(c, u', v, stage[q.id := Answering(v)], meta)
                && IncomingOk(u', v, stage[q.id := Answering(v)], meta)
  {
    var ids, k := RequestIds(u.pending), u.pending[0].id;
    assert ids[0] == k;
    HoldsDrop(ids, stage, 0, Pending(v), Answering(v));
    assert RequestIds(u.pending[1..]) == ids[..0] + ids[1..];
    assert IsRequest(u.pending[0], meta);
    var p := u.incoming[k];
    var r := Response(k, u.pending[0].write, p.slid, p.tag);
    hide Holds;
    HoldsOther(RequestIds(u.readq), stage, k, Reading(v), Answering(v));
    HoldsOther(RequestIds(u.writeq), stage, k, Writing(v), Answering(v));
    HoldsPush(ResponseIds(u.responses), stage, k, Answering(v));
    assert ResponseIds(u.responses + [r]) == ResponseIds(u.responses) + [k];
  }

  lemma VaultRespond(c: Config, u: Vault, v: nat, stage: seq<Stage>, meta: seq<Packet>, to: Stage)
    requires QueuesOk(c, u, v, stage, meta) && IncomingOk(u, v, stage, meta) && u.responses != [] && to.Leaving?
    ensures var k := u.responses[0].id;
            && k < |stage| && stage[k] == Answering(v)
            && var u' := u.(responses := u.responses[1..]);
            QueuesOk(c, u', v, stage[k := to], meta) && IncomingOk(u', v, stage[k := to], meta)
  {
    var ids, k := ResponseIds(u.responses), u.responses[0].id;
    assert ids[0] == k;
    HoldsDrop(ids, stage, 0, Answering(v), to);
    assert ResponseIds(u.responses[1..]) == ids[..0] + ids[1..];
    hide Holds;
    HoldsOther(RequestIds(u.readq), stage, k, Reading(v), to);
    HoldsOther(RequestIds(u.writeq), stage, k, Writing(v), to);
    HoldsOther(RequestIds(u.pending), stage, k, Pending(v), to);
  }
}
