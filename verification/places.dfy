/** Places that hold requests: each holds exactly the ids whose stage names it, each once. */
module Places {

  // No element occurs twice.
  ghost predicate NoRepeats(xs: seq<int>) {
    forall i, j {:trigger Unlike(xs, i, j)} | 0 <= i < j < |xs| :: Unlike(xs, i, j)
  }

  ghost predicate Unlike(xs: seq<int>, i: nat, j: nat)
    requires i < |xs| && j < |xs|
  {
    xs[i] != xs[j]
  }

  function Elements(xs: seq<int>): set<int> { set x | x in xs }

  lemma {:induction false} Count(xs: seq<int>)
    requires NoRepeats(xs)
    ensures |Elements(xs)| == |xs|
  {
    if xs == [] {
      assert Elements(xs) == {};
    } else {
      var n := |xs| - 1;
      var rest := xs[..n];
      NoRepeatsPart(xs, 0, n);
      Count(rest);
      assert Elements(xs) == Elements(rest) + {xs[n]};
      forall i | 0 <= i < n ensures rest[i] != xs[n] { assert Unlike(xs, i, n); }
      assert xs[n] !in rest;
    }
  }

  lemma SubsetCount(a: set<int>, b: set<int>)
    requires a <= b
    ensures |a| <= |b|
  {
    assert b == a + (b - a);
  }

  lemma NoRepeatsPush(xs: seq<int>, x: int)
    requires NoRepeats(xs) && x !in xs
    ensures NoRepeats(xs + [x])
  {
    var all := xs + [x];
    forall i, j | 0 <= i < j < |all| ensures Unlike(all, i, j) {
      if j < |xs| { assert Unlike(xs, i, j); }
    }
  }

  lemma NoRepeatsPart(xs: seq<int>, from: nat, until: nat)
    requires NoRepeats(xs) && from <= until <= |xs|
    ensures NoRepeats(xs[from..until])
  {
    var part := xs[from..until];
    forall i, j | 0 <= i < j < |part| ensures Unlike(part, i, j) { assert Unlike(xs, from + i, from + j); }
  }

  lemma NoRepeatsPop(xs: seq<int>)
    requires NoRepeats(xs) && xs != []
    ensures NoRepeats(xs[1..]) && xs[0] !in xs[1..] && forall x :: x in xs <==> x == xs[0] || x in xs[1..]
  {
    NoRepeatsPart(xs, 1, |xs|);
    assert xs[1..|xs|] == xs[1..];
    forall i | 0 <= i < |xs[1..]| ensures xs[1..][i] != xs[0] { assert Unlike(xs, 0, i + 1); }
    assert xs == [xs[0]] + xs[1..];
  }

  ghost predicate Holds<S>(ids: seq<nat>, stage: seq<S>, st: S) {
    && (forall i | 0 <= i < |ids| :: ids[i] < |stage| && stage[ids[i]] == st)
    && (forall k | 0 <= k < |stage| && stage[k] == st :: k in ids)
    && NoRepeats(ids)
  }

  lemma HoldsPush<S>(ids: seq<nat>, stage: seq<S>, k: nat, st: S)
    requires k < |stage| && Holds(ids, stage, st) && stage[k] != st
    ensures Holds(ids + [k], stage[k := st], st)
  {
    var all := ids + [k];
    assert k !in ids;
    NoRepeatsPush(ids, k);
    assert all[|ids|] == k;
    assert forall x | x in ids :: x in all;
  }

  lemma HoldsDrop<S>(ids: seq<nat>, stage: seq<S>, i: nat, st: S, to: S)
    requires Holds(ids, stage, st) && i < |ids| && to != st
    ensures ids[i] < |stage| && Holds(ids[..i] + ids[i + 1..], stage[ids[i] := to], st)
  {
    var rest := ids[..i] + ids[i + 1..];
    forall a, b | 0 <= a < b < |rest| ensures Unlike(rest, a, b) {
      assert Unlike(ids, if a < i then a else a + 1, if b < i then b else b + 1);
    }
    forall a | 0 <= a < |rest| ensures rest[a] != ids[i] && rest[a] < |stage| && stage[rest[a]] == st {
      var o := if a < i then a else a + 1;
      assert rest[a] == ids[o] && (if o < i then Unlike(ids, o, i) else Unlike(ids, i, o));
    }
    forall k | 0 <= k < |stage| && stage[ids[i] := to][k] == st ensures k in rest {
      assert k in ids;
      var o :| 0 <= o < |ids| && ids[o] == k;
      assert rest[if o < i then o else o - 1] == k;
    }
  }

  // Another place does not notice a move.
  lemma HoldsOther<S>(ids: seq<nat>, stage: seq<S>, k: nat, st: S, to: S)
    requires k < |stage| && Holds(ids, stage, st) && stage[k] != st && to != st
    ensures Holds(ids, stage[k := to], st)
  {}

  lemma HoldsNew<S>(ids: seq<nat>, stage: seq<S>, st: S, to: S)
    requires Holds(ids, stage, st)
    ensures to != st ==> Holds(ids, stage + [to], st)
    ensures to == st ==> Holds(ids + [|stage|], stage + [to], st)
  {
    var all := ids + [|stage|];
    if to == st {
      assert |stage| !in ids;
      NoRepeatsPush(ids, |stage|);
      assert all[|ids|] == |stage|;
      assert forall x | x in ids :: x in all;
    }
  }
}
