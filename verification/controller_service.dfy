/** The requests being served, counted at every node of the tree. */
module ControllerService {
  import opened TimingHistory
  import opened ServingCounters
  import opened DramTree
  import opened ControllerQueues

  // The requests counted as being served that are addressed through node `p`.
  ghost function CountLive(p: Path, live: seq<bool>, accepted: seq<Request>): nat
    requires |live| == |accepted|
  {
    if live == [] then 0 else
      var n := |live| - 1;
      CountLive(p, live[..n], accepted[..n]) + if live[n] && IsTarget(p, accepted[n].vec) then 1 else 0
  }

  lemma {:induction false} CountLiveSet(p: Path, live: seq<bool>, accepted: seq<Request>, k: nat, b: bool)
    requires |live| == |accepted| && k < |live|
    ensures CountLive(p, live[k := b], accepted) ==
            CountLive(p, live, accepted) + if live[k] == b || !IsTarget(p, accepted[k].vec) then 0 else if b
                then 1 else -1
  {
    var n := |live| - 1;
    if k == n {
      assert live[k := b][..n] == live[..n];
    } else {
      CountLiveSet(p, live[..n], accepted[..n], k, b);
      assert live[k := b][..n] == live[..n][k := b];
    }
  }

  lemma CountLiveNew(p: Path, live: seq<bool>, accepted: seq<Request>, r: Request)
    requires |live| == |accepted|
    ensures CountLive(p, live + [false], accepted + [r]) == CountLive(p, live, accepted)
  {
    assert (live + [false])[..|live|] == live && (accepted + [r])[..|accepted|] == accepted;
  }

  /** The changes made so far add up, at every node, to the requests being served through it. */
  ghost predicate CountsAgree(live: seq<bool>, accepted: seq<Request>, h: seq<Change>, clk: int)
    requires |live| == |accepted|
  {
    && Timely(h) && LastChange(h) <= clk
    && forall p: Path :: Balanced(p, h) && Net(p, h) == CountLive(p, live, accepted)
  }

  lemma NewAgrees(live: seq<bool>, accepted: seq<Request>, h: seq<Change>, clk: int, r: Request)
    requires |live| == |accepted| && CountsAgree(live, accepted, h, clk)
    ensures CountsAgree(live + [false], accepted + [r], h, clk)
  {
    forall p: Path ensures Balanced(p, h) && Net(p, h) == CountLive(p, live + [false], accepted + [r]) {
      CountLiveNew(p, live, accepted, r);
    }
  }

  // A request starts or stops being served.
  lemma ChangeAgrees(live: seq<bool>, accepted: seq<Request>, h: seq<Change>, clk: nat, k: nat, b: bool)
    requires |live| == |accepted| && CountsAgree(live, accepted, h, clk) && k < |live| && live[k] != b
    ensures CountsAgree(live[k := b], accepted, h + [Change(accepted[k].vec, if b then 1 else -1, clk)], clk)
  {
    var e := Change(accepted[k].vec, if b then 1 else -1, clk);
    forall p: Path ensures Balanced(p, h + [e]) && Net(p, h + [e]) == CountLive(p, live[k := b], accepted) {
      CountLiveSet(p, live, accepted, k, b);
      OneMoreChange(p, h, e);
    }
    OneMoreChange([0], h, e);
  }

  // Where every counter is what the changes imply, the next change is allowed.
  lemma ChangeAllowed(channel: Dram, bank: nat, live: seq<bool>, accepted: seq<Request>, h: seq<Change>, clk: int,
      k: nat, b: bool)
    requires channel.Tree() && channel.Serves(h, bank) && |live| == |accepted| && CountsAgree(live, accepted, h, clk)
    requires k < |live| && live[k] != b
    ensures forall n | n in channel.nodes && n.path <= accepted[k].vec && n.level <= bank + 1 ::
        n.Counts(if b then 1 else -1)
  {
    forall n | n in channel.nodes && n.path <= accepted[k].vec && n.level <= bank + 1
        ensures n.Counts(if b then 1 else -1) {
      CountersAreSums(n.path, h);
      CountLiveSet(n.path, live, accepted, k, b);
    }
  }

  /** At every node down to the one below the bank: the running count is the number of requests being served
      through it, never negative, and the two sums are the per-cycle sums up to the last change. */
  lemma NodeCounts(channel: Dram, bank: nat, live: seq<bool>, accepted: seq<Request>, h: seq<Change>, clk: int, n: Dram)
    requires channel.Tree() && channel.Serves(h, bank) && |live| == |accepted| && CountsAgree(live, accepted, h, clk)
    requires n in channel.nodes && n.level <= bank + 1
    ensures n.serving.cur == CountLive(n.path, live, accepted) >= 0
    ensures n.serving.requests == RequestCycles(n.path, h, n.serving.begin)
    ensures n.serving.active == ActiveCycles(n.path, h, n.serving.begin)
  {
    CountersAreSums(n.path, h);
  }
}
