/** Requests inside a memory cube: the places where one can be, and what each place holds. */
module HmcStages {
  import opened Places

  // A request packet. Its id is the number of requests accepted before it.
  datatype Packet = Packet(id: nat, write: bool, addr: int, vault: nat, slid: nat, tag: int)

  datatype Response = Response(id: nat, write: bool, slid: nat, tag: int)

  // A request in a vault controller, with the bursts that are still to be served.
  datatype Request = Request(id: nat, write: bool, addr: int, burst: int, arrive: int, depart: int)

  // The host end's input and output buffers of a link.
  datatype Link = Link(input: seq<Packet>, output: seq<Response>)

  datatype Vault = Vault(clk: int, writeMode: bool, readq: seq<Request>, writeq: seq<Request>, pending: seq<Request>,
                         incoming: map<nat, Packet>, responses: seq<Response>)

  datatype Config = Config(links: nat, vaults: nat, maxTags: nat, queueMax: nat, burst: int, payload: nat,
                           readLatency: int, writeLatency: int) {
    predicate Valid() { links > 0 && vaults > 0 && burst >= 1 }
  }

  /** The place of an accepted request. Being a function of the id, it is one place only. */
  datatype Stage = Arriving(link: nat) | Reading(vault: nat) | Writing(vault: nat) | Pending(vault: nat)
                 | Answering(vault: nat) | Leaving(link: nat) | Done

  /** What has happened to a request: when its vault took it and whether a queued write of its address answered it;
      how many bursts it was served, the last one when; and when it was answered, after which answer of the vault. */
  datatype Past = Past(arrive: int, forwarded: bool, bursts: nat, burstAt: int, answeredAt: int, before: int)

  const NEVER := -1

  const NO_PAST := Past(NEVER, false, 0, NEVER, NEVER, NEVER)

  function PacketIds(ps: seq<Packet>): (ids: seq<nat>)
    ensures |ids| == |ps| && forall i | 0 <= i < |ps| :: ids[i] == ps[i].id
  {
    seq(|ps|, i requires 0 <= i < |ps| => ps[i].id)
  }

  function ResponseIds(rs: seq<Response>): (ids: seq<nat>)
    ensures |ids| == |rs| && forall i | 0 <= i < |rs| :: ids[i] == rs[i].id
  {
    seq(|rs|, i requires 0 <= i < |rs| => rs[i].id)
  }

  function RequestIds(qs: seq<Request>): (ids: seq<nat>)
    ensures |ids| == |qs| && forall i | 0 <= i < |qs| :: ids[i] == qs[i].id
  {
    seq(|qs|, i requires 0 <= i < |qs| => qs[i].id)
  }

  // --- What a place holds agrees with the requests as they were accepted. ---

  ghost predicate IsRequest(q: Request, meta: seq<Packet>) {
    q.id < |meta| && q.write == meta[q.id].write && q.addr == meta[q.id].addr
  }

  // A response answers its own request: same type, link and tag.
  ghost predicate IsAnswer(r: Response, meta: seq<Packet>) {
    r.id < |meta| && r.write == meta[r.id].write && r.slid == meta[r.id].slid && r.tag == meta[r.id].tag
  }

  ghost predicate LinkOk(l: Link, s: nat, stage: seq<Stage>, meta: seq<Packet>) {
    && Holds(PacketIds(l.input), stage, Arriving(s)) && Holds(ResponseIds(l.output), stage, Leaving(s))
    && (forall i | 0 <= i < |l.input| ::
          l.input[i].id < |meta| && l.input[i] == meta[l.input[i].id] && l.input[i].slid == s)
    && (forall i | 0 <= i < |l.output| :: IsAnswer(l.output[i], meta) && l.output[i].slid == s)
  }

  ghost predicate InVault(st: Stage, v: nat) {
    st == Reading(v) || st == Writing(v) || st == Pending(v)
  }

  ghost predicate QueuesOk(c: Config, u: Vault, v: nat, stage: seq<Stage>, meta: seq<Packet>) {
    && Holds(RequestIds(u.readq), stage, Reading(v)) && Holds(RequestIds(u.writeq), stage, Writing(v))
    && Holds(RequestIds(u.pending), stage, Pending(v)) && Holds(ResponseIds(u.responses), stage, Answering(v))
    && |u.readq| <= c.queueMax && |u.writeq| <= c.queueMax
    && (forall i | 0 <= i < |u.readq| :: IsRequest(u.readq[i], meta) && !u.readq[i].write && u.readq[i].burst >= 1)
    && (forall i | 0 <= i < |u.writeq| :: IsRequest(u.writeq[i], meta) && u.writeq[i].write && u.writeq[i].burst >= 1)
    && (forall i | 0 <= i < |u.pending| :: IsRequest(u.pending[i], meta))
    && (forall i | 0 <= i < |u.responses| :: IsAnswer(u.responses[i], meta))
  }

  /** The entry of a request in the buffer of incoming packets is there for as long as it is queued or pending; at
      other times it can only be there while the packet waits at its link for a queue that was full. */
  ghost predicate IncomingOk(u: Vault, v: nat, stage: seq<Stage>, meta: seq<Packet>) {
    && |stage| == |meta|
    && (forall k: nat | k < |stage| && InVault(stage[k], v) :: k in u.incoming)
    && (forall k | k in u.incoming :: k < |meta| && u.incoming[k] == meta[k]
                                      && (InVault(stage[k], v) || (stage[k].Arriving? && meta[k].vault == v)))
  }

  ghost predicate MetaOk(c: Config, meta: seq<Packet>) {
    forall k | 0 <= k < |meta| :: meta[k].id == k && meta[k].slid < c.links && meta[k].vault < c.vaults
        && 0 <= meta[k].tag < c.maxTags
  }
}
