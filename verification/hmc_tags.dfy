/** The tag pools of the links: no tag is in two places, and none is unaccounted for. */
module HmcTags {
  import opened Places
  import opened HmcStages

  // The requests of a link that have not been answered yet.
  ghost function InFlight(stage: seq<Stage>, meta: seq<Packet>, s: nat): nat
    requires |stage| == |meta|
  {
    if stage == [] then 0 else
      var n := |stage| - 1;
      InFlight(stage[..n], meta[..n], s) + if stage[n] != Done && meta[n].slid == s then 1 else 0
  }

  ghost predicate Live(stage: seq<Stage>, meta: seq<Packet>, k: nat, s: nat)
    requires |stage| == |meta|
  {
    k < |stage| && stage[k] != Done && meta[k].slid == s
  }

  lemma {:induction false} InFlightMove(stage: seq<Stage>, meta: seq<Packet>, s: nat, k: nat, to: Stage)
    requires |stage| == |meta| && k < |stage| && stage[k] != Done
    ensures InFlight(stage[k := to], meta, s) == InFlight(stage, meta, s) - if to == Done && meta[k].slid == s
        then 1 else 0
  {
    var n := |stage| - 1;
    if k == n {
      assert stage[k := to][..n] == stage[..n];
    } else {
      InFlightMove(stage[..n], meta[..n], s, k, to);
      assert stage[k := to][..n] == stage[..n][k := to];
    }
  }

  lemma InFlightNew(stage: seq<Stage>, meta: seq<Packet>, s: nat, p: Packet, st: Stage)
    requires |stage| == |meta| && st != Done
    ensures InFlight(stage + [st], meta + [p], s) == InFlight(stage, meta, s) + if p.slid == s then 1 else 0
  {
    assert (stage + [st])[..|stage|] == stage && (meta + [p])[..|meta|] == meta;
  }

  // The tags that no packet carries: those in the pool and those lost.
  ghost predicate IdleOk(maxTags: nat, pool: seq<int>, lost: seq<int>) {
    && NoRepeats(pool) && NoRepeats(lost)
    && (forall t | t in pool :: t !in lost && 0 <= t < maxTags) && (forall t | t in lost :: 0 <= t < maxTags)
  }

  ghost predicate LiveOk(pool: seq<int>, lost: seq<int>, stage: seq<Stage>, meta: seq<Packet>, s: nat)
    requires |stage| == |meta|
  {
    && (forall k: nat | Live(stage, meta, k, s) :: meta[k].tag !in pool && meta[k].tag !in lost)
    && (forall j: nat, k: nat | Live(stage, meta, j, s) && Live(stage, meta, k, s) && j != k ::
        meta[j].tag != meta[k].tag)
  }

  /** One link: its tags are in the pool, lost, or carried by exactly one unanswered request, and the three
      kinds add up to all tags. */
  ghost predicate LinkTags(maxTags: nat, pool: seq<int>, lost: seq<int>, stage: seq<Stage>, meta: seq<Packet>, s: nat)
    requires |stage| == |meta|
  {
    && IdleOk(maxTags, pool, lost) && LiveOk(pool, lost, stage, meta, s)
    && |pool| + InFlight(stage, meta, s) + |lost| == maxTags
  }

  // A request moves on without being answered.
  lemma TagsMove(maxTags: nat, pool: seq<int>, lost: seq<int>, stage: seq<Stage>, meta: seq<Packet>, s: nat,
      k: nat, to: Stage)
    requires |stage| == |meta| && LinkTags(maxTags, pool, lost, stage, meta, s) && k < |stage| && stage[k] != Done
    requires to != Done || meta[k].slid != s
    ensures LinkTags(maxTags, pool, lost, stage[k := to], meta, s)
  {
    InFlightMove(stage, meta, s, k, to);
    assert forall j: nat :: Live(stage[k := to], meta, j, s) <==> Live(stage, meta, j, s);
  }

  // It is answered: its tag returns to the pool of its link.
  lemma TagsReturn(maxTags: nat, pool: seq<int>, lost: seq<int>, stage: seq<Stage>, meta: seq<Packet>, k: nat)
    requires |stage| == |meta| && k < |stage| && stage[k] != Done && 0 <= meta[k].tag < maxTags
    requires LinkTags(maxTags, pool, lost, stage, meta, meta[k].slid)
    ensures LinkTags(maxTags, pool + [meta[k].tag], lost, stage[k := Done], meta, meta[k].slid)
  {
    var s, t := meta[k].slid, meta[k].tag;
    InFlightMove(stage, meta, s, k, Done);
    assert Live(stage, meta, k, s);
    NoRepeatsPush(pool, t);
    forall j: nat | Live(stage[k := Done], meta, j, s) ensures j != k && Live(stage, meta, j, s) && meta[j].tag != t {}
  }

  // A request is accepted with the first tag of the pool.
  lemma TagsTake(maxTags: nat, pool: seq<int>, lost: seq<int>, stage: seq<Stage>, meta: seq<Packet>,
      p: Packet, st: Stage)
    requires |stage| == |meta| && pool != [] && p.tag == pool[0] && st != Done
    requires LinkTags(maxTags, pool, lost, stage, meta, p.slid)
    ensures LinkTags(maxTags, pool[1..], lost, stage + [st], meta + [p], p.slid)
  {
    NoRepeatsPop(pool);
    InFlightNew(stage, meta, p.slid, p, st);
    forall k: nat | Live(stage + [st], meta + [p], k, p.slid)
      ensures k == |stage| || Live(stage, meta, k, p.slid)
    {}
  }

  // The same for the other links.
  lemma TagsOther(maxTags: nat, pool: seq<int>, lost: seq<int>, stage: seq<Stage>, meta: seq<Packet>, p: Packet,
      st: Stage, s: nat)
    requires |stage| == |meta| && st != Done && p.slid != s && LinkTags(maxTags, pool, lost, stage, meta, s)
    ensures LinkTags(maxTags, pool, lost, stage + [st], meta + [p], s)
  {
    InFlightNew(stage, meta, s, p, st);
    assert forall k: nat :: Live(stage + [st], meta + [p], k, s) <==> Live(stage, meta, k, s);
  }

  // A request refused for lack of space takes its tag with it.
  lemma TagsLose(maxTags: nat, pool: seq<int>, lost: seq<int>, stage: seq<Stage>, meta: seq<Packet>, s: nat)
    requires |stage| == |meta| && pool != [] && LinkTags(maxTags, pool, lost, stage, meta, s)
    ensures LinkTags(maxTags, pool[1..], lost + [pool[0]], stage, meta, s)
  {
    NoRepeatsPop(pool);
    NoRepeatsPush(lost, pool[0]);
  }
}
