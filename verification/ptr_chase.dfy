/** The pointer-chase benchmark: a shuffle, a linking loop, and the walk that follows the links. */
module PtrChase {
  import opened BitArithmetic

  const RAND_MAX := 0x7FFF_FFFF

  ghost predicate RandomValues(rands: seq<int>) {
    forall k | 0 <= k < |rands| :: 0 <= rands[k] <= RAND_MAX
  }

  // The distance of the element swapped with the first of the `m` that remain.
  function Pick(r: int, m: int): int
    requires 0 < m
  {
    r / (RAND_MAX / m + 1)
  }

  /** Whatever value was drawn, the swap stays among the `m` remaining elements. */
  lemma PickInRange(r: int, m: int)
    requires 0 < m && 0 <= r <= RAND_MAX
    ensures RAND_MAX / m + 1 > 0 && 0 <= Pick(r, m) < m
  {
    var d := RAND_MAX / m + 1;
    Quotient(RAND_MAX, m);
    Quotient(r, d);
    if Pick(r, m) >= m { MulLe(m, Pick(r, m), d); }
  }

  lemma Quotient(a: int, b: int)
    requires 0 <= a && 0 < b
    ensures 0 <= a / b && a / b * b <= a < (a / b + 1) * b
  {}

  ghost function Swap(s: seq<int>, i: nat, j: nat): seq<int>
    requires i < |s| && j < |s|
  {
    s[i := s[j]][j := s[i]]
  }

  /** The Fisher-Yates shuffle: the swaps from position `i` on. */
  ghost function ShuffleFrom(s: seq<int>, i: nat, rands: seq<int>): seq<int>
    requires |rands| >= |s| && RandomValues(rands)
    decreases |s| - i
  {
    if i + 1 >= |s| then s else
      PickInRange(rands[i], |s| - i);
      ShuffleFrom(Swap(s, i, i + Pick(rands[i], |s| - i)), i + 1, rands)
  }

  lemma ShuffleStep(s: seq<int>, i: nat, rands: seq<int>)
    requires |rands| >= |s| && RandomValues(rands) && i + 1 < |s|
    ensures 0 <= Pick(rands[i], |s| - i) < |s| - i
    ensures ShuffleFrom(s, i, rands) == ShuffleFrom(Swap(s, i, i + Pick(rands[i], |s| - i)), i + 1, rands)
  {
    PickInRange(rands[i], |s| - i);
  }

  lemma {:induction false} ShufflePermutes(s: seq<int>, i: nat, rands: seq<int>)
    requires |rands| >= |s| && RandomValues(rands)
    ensures multiset(ShuffleFrom(s, i, rands)) == multiset(s) && |ShuffleFrom(s, i, rands)| == |s|
    decreases |s| - i
  {
    if i + 1 < |s| {
      PickInRange(rands[i], |s| - i);
      ShufflePermutes(Swap(s, i, i + Pick(rands[i], |s| - i)), i + 1, rands);
    }
  }

  // Nothing is swapped from the last position on.
  lemma ShuffleDone(rands: seq<int>)
    requires RandomValues(rands)
    ensures forall s: seq<int>, i: nat | i + 1 >= |s| && |rands| >= |s| :: ShuffleFrom(s, i, rands) == s
  {}

  // `rands[i]` is the value that the generator returns for the swap at position `i`.
  method Shuffle(a: array<int>, rands: seq<int>)
    requires |rands| >= a.Length && RandomValues(rands)
    modifies a
    ensures a[..] == ShuffleFrom(old(a[..]), 0, rands)
    ensures multiset(a[..]) == multiset(old(a[..]))
  {
    hide ShuffleFrom, Pick;
    var n := a.Length;
    ShuffleDone(rands);
    ShufflePermutes(a[..], 0, rands);
    if n > 1 {
      var i := 0;
      while i < n - 1
        invariant 0 <= i <= n - 1
        invariant ShuffleFrom(a[..], i, rands) == ShuffleFrom(old(a[..]), 0, rands)
      {
        ghost var s := a[..];
        ShuffleStep(s, i, rands);
        var j := i + Pick(rands[i], n - i);
        var t := a[j];
        a[j] := a[i];
        a[i] := t;
        assert a[..] == Swap(s, i, j);
        i := i + 1;
      }
    }
  }

  // --- The cycle. ---

  // Where the walk is after `k` steps from position 0.
  ghost function Walk(res: seq<int>, k: nat): int {
    if k == 0 then 0 else
      var x := Walk(res, k - 1);
      if 0 <= x < |res| then res[x] else x
  }

  /** Every position is reached, and after as many steps as there are positions the walk is back at the start. */
  ghost predicate Hamiltonian(res: seq<int>) {
    && Walk(res, |res|) == 0
    && VisitsAll(res, 0, |res|)
  }

  ghost predicate VisitsAll(res: seq<int>, from: nat, to: nat) {
    forall x | 0 <= x < |res| :: Visits(res, from, to, x)
  }

  // The walk is at `x` at some step from `from` up to `to`.
  ghost predicate Visits(res: seq<int>, from: nat, to: nat, x: int) {
    exists k: nat :: from <= k < to && Walk(res, k) == x
  }

  // The visiting order: all positions, each once, position 0 first.
  ghost predicate Order(order: seq<int>) {
    && 0 < |order| && order[0] == 0
    && (forall k | 0 <= k < |order| :: 0 <= order[k] < |order|)
    && (forall x | 0 <= x < |order| :: x in order)
    && (forall i, j | 0 <= i < j < |order| :: order[i] != order[j])
  }

  ghost predicate Follows(res: seq<int>, order: seq<int>) {
    && |res| == |order| && Order(order)
    && forall k | 0 <= k < |order| :: res[order[k]] == order[if k + 1 < |order| then k + 1 else 0]
  }

  lemma {:induction false} WalkFollows(res: seq<int>, order: seq<int>, k: nat)
    requires Follows(res, order)
    ensures k % |order| < |order| && Walk(res, k) == order[k % |order|]
  {
    var n := |order|;
    if k > 0 {
      WalkFollows(res, order, k - 1);
      NextIndex(k - 1, n);
      StepFollows(res, order, (k - 1) % n);
    } else {
      Remainder(0, 0, n, 0);
    }
  }

  lemma StepFollows(res: seq<int>, order: seq<int>, m: nat)
    requires Follows(res, order) && m < |order|
    ensures 0 <= order[m] < |res| && res[order[m]] == order[if m + 1 < |order| then m + 1 else 0]
  {}

  lemma NextIndex(k: nat, n: nat)
    requires n > 0
    ensures (k + 1) % n == if k % n + 1 < n then k % n + 1 else 0
  {
    var q, r := k / n, k % n;
    assert k == q * n + r;
    if r + 1 < n {
      Remainder(k + 1, q, n, r + 1);
    } else {
      assert k + 1 == (q + 1) * n;
      Remainder(k + 1, q + 1, n, 0);
    }
  }

  lemma Remainder(a: int, q: int, n: int, r: int)
    requires 0 <= r < n && a == q * n + r
    ensures a % n == r
  {
    var d := a / n - q;
    assert d * n == r - a % n;
    if d >= 1 { MulLe(1, d, n); } else if d <= -1 { MulLe(d, -1, n); }
  }

  // Some step of any `n` consecutive ones has a given remainder.
  lemma StepWith(t: nat, n: nat, o: nat) returns (k: nat)
    requires o < n
    ensures t <= k < t + n && k % n == o
  {
    var q, r := t / n, t % n;
    assert t == q * n + r;
    if r <= o {
      k := t + (o - r);
      Remainder(k, q, n, o);
    } else {
      k := t + (o - r) + n;
      assert (q + 1) * n == q * n + n;
      Remainder(k, q + 1, n, o);
    }
  }

  lemma RemaindersDiffer(i: nat, j: nat, n: nat)
    requires i < j < i + n
    ensures i % n != j % n
  {
    if i % n == j % n {
      var d := j / n - i / n;
      assert d * n == j - i;
      if d >= 1 { MulLe(1, d, n); } else { MulLe(d, 0, n); }
    }
  }

  // The window of as many steps as there are positions visits each of them.
  lemma WindowVisits(res: seq<int>, order: seq<int>, t: nat, x: int)
    requires Follows(res, order) && 0 <= x < |res|
    ensures Visits(res, t, t + |res|, x)
  {
    assert x in order;
    var o: nat :| o < |order| && order[o] == x;
    var k := StepWith(t, |order|, o);
    WalkFollows(res, order, k);
  }

  lemma AllVisited(res: seq<int>, order: seq<int>, t: nat)
    requires Follows(res, order)
    ensures VisitsAll(res, t, t + |res|)
  {
    var to := t + |res|;
    forall x | 0 <= x < |res| ensures Visits(res, t, to, x) { WindowVisits(res, order, t, x); }
  }

  lemma FollowsIsHamiltonian(res: seq<int>, order: seq<int>)
    requires Follows(res, order)
    ensures Hamiltonian(res)
  {
    WalkFollows(res, order, |res|);
    Remainder(|res|, 1, |res|, 0);
    AllVisited(res, order, 0);
  }

  /** From any moment on, as many loads as there are lines touch every line, and no line twice. */
  lemma AnyWindow(res: seq<int>, order: seq<int>, t: nat)
    requires Follows(res, order)
    ensures VisitsAll(res, t, t + |res|)
    ensures forall i: nat, j: nat | t <= i < j < t + |res| :: Walk(res, i) != Walk(res, j)
  {
    AllVisited(res, order, t);
    forall i: nat, j: nat | t <= i < j < t + |res| ensures Walk(res, i) != Walk(res, j) {
      WalksDiffer(res, order, i, j);
    }
  }

  lemma WalksDiffer(res: seq<int>, order: seq<int>, i: nat, j: nat)
    requires Follows(res, order) && i < j < i + |res|
    ensures Walk(res, i) != Walk(res, j)
  {
    WalkFollows(res, order, i);
    WalkFollows(res, order, j);
    RemaindersDiffer(i, j, |order|);
  }

  // --- The generator. ---

  // What the shuffled sequence is: a permutation of 1 to n - 1.
  ghost predicate Positions(s: seq<int>, n: nat) {
    && |s| == n - 1
    && (forall k | 0 <= k < |s| :: 0 < s[k] < n)
    && (forall x | 0 < x < n :: x in s)
    && (forall i, j | 0 <= i < j < |s| :: s[i] != s[j])
  }

  lemma PermutedPositions(s: seq<int>, was: seq<int>)
    requires multiset(s) == multiset(was) && forall k | 0 <= k < |was| :: was[k] == k + 1
    ensures Positions(s, |was| + 1)
  {
    assert |multiset(s)| == |s| && |multiset(was)| == |was|;
    forall x | 0 < x < |was| + 1 ensures x in s {
      assert was[x - 1] == x;
      assert x in multiset(s);
    }
    forall k | 0 <= k < |s| ensures 0 < s[k] < |was| + 1 {
      assert s[k] in multiset(was);
    }
    forall i, j | 0 <= i < j < |s| ensures s[i] != s[j] {
      if s[i] == s[j] {
        Twice(s, i, j);
        AtMostOnce(was, s[i]);
      }
    }
  }

  lemma Twice(s: seq<int>, i: nat, j: nat)
    requires i < j < |s| && s[i] == s[j]
    ensures multiset(s)[s[i]] >= 2
  {
    assert s == s[..i] + [s[i]] + s[i + 1..j] + [s[j]] + s[j + 1..];
  }

  lemma {:induction false} AtMostOnce(was: seq<int>, x: int)
    requires forall k | 0 <= k < |was| :: was[k] == k + 1
    ensures multiset(was)[x] <= 1
  {
    if was != [] {
      var n := |was| - 1;
      AtMostOnce(was[..n], x);
      assert was == was[..n] + [was[n]];
    }
  }

  lemma OrderOf(s: seq<int>, n: nat)
    requires n > 0 && Positions(s, n)
    ensures Order([0] + s)
  {
    var order := [0] + s;
    assert forall k | 0 < k < n :: order[k] == s[k - 1];
    forall x | 0 <= x < n ensures x in order {
      if x > 0 {
        assert x in s;
        var k :| 0 <= k < |s| && s[k] == x;
        assert order[k + 1] == x;
      } else {
        assert order[0] == 0;
      }
    }
  }

  // The type of the loop's position: with it every position must be less than 2^31.
  newtype int32 = x: int | -0x8000_0000 <= x < 0x8000_0000

  /** Links the positions in the order of `s`. The last position is never written, so its link is the zero it
      was initialised to; but when there is only one position besides 0, the first round of the loop writes it. */
  method Link(s: array<int>, n: nat) returns (res: array<int>)
    requires 2 <= n <= 0x8000_0000 && s.Length == n - 1 && Positions(s[..], n)
    ensures fresh(res) && res.Length == n
    ensures n >= 3 ==> Follows(res[..], [0] + s[..])
    ensures n == 2 ==> res[..] == [1, 1]
  {
    res := new int[n](_ => 0);
    res[0] := s[0];
    var at := res[0] as int32;
    var j := 0;
    while j < n - 1
      invariant 0 <= j <= n - 1
      invariant at as int == if j == 0 then s[0] else s[j - 1]
      invariant res[0] == s[0] && (j == 1 ==> res[s[0]] == s[0])
      invariant forall k | 1 <= k < j :: res[s[k - 1]] == s[k]
      invariant forall x | 0 < x < n && (forall k | 0 <= k < j - 1 :: s[k] != x)
          && (j == 1 ==> x != s[0]) :: res[x] == 0
    {
      res[at] := s[j];
      at := res[at] as int32;
      j := j + 1;
    }
    if n >= 3 {
      LinkedFollows(res[..], s[..], n);
    }
  }

  // What the loop has linked once it is done.
  lemma LinkedFollows(res: seq<int>, s: seq<int>, n: nat)
    requires n >= 3 && Positions(s, n) && |res| == n && res[0] == s[0] && res[s[n - 2]] == 0
    requires forall k | 1 <= k < n - 1 :: res[s[k - 1]] == s[k]
    ensures Follows(res, [0] + s)
  {
    OrderOf(s, n);
    var order := [0] + s;
    assert forall k | 0 < k < n :: order[k] == s[k - 1];
  }

  // The links of a file of byte offsets.
  function Links(next: seq<int>, line: nat): (res: seq<int>)
    requires 0 < line
    ensures |res| == |next| && forall k | 0 <= k < |next| :: res[k] == next[k] / line
  {
    seq(|next|, k requires 0 <= k < |next| => next[k] / line)
  }

  // The offsets are those of whole lines of the array.
  ghost predicate Offsets(next: seq<int>, line: nat)
    requires 0 < line
  {
    forall k | 0 <= k < |next| :: 0 <= Links(next, line)[k] < |next| && next[k] == Links(next, line)[k] * line
  }

  /** The generator makes one cycle through all positions, whatever random values are drawn, exactly when there
      are at least three positions; with two, position 1 is linked to itself. The file holds byte offsets. */
  method WalkGenerator(n: nat, line: nat, rands: seq<int>) returns (next: array<int>, ghost order: seq<int>)
    requires 2 <= n <= 0x8000_0000 && 0 < line && |rands| >= n - 1 && RandomValues(rands)
    ensures fresh(next) && next.Length == n && Offsets(next[..], line)
    ensures Hamiltonian(Links(next[..], line)) <==> n >= 3
    ensures n >= 3 ==> Follows(Links(next[..], line), order)
  {
    var s := new int[n - 1];
    var j := 1;
    while j < n
      invariant 1 <= j <= n
      invariant forall k | 0 <= k < j - 1 :: s[k] == k + 1
    {
      s[j - 1] := j;
      j := j + 1;
    }
    ghost var was := s[..];
    Shuffle(s, rands);
    PermutedPositions(s[..], was);
    var links := Link(s, n);
    ghost var res := links[..];
    order := [0] + s[..];
    if n == 2 {
      TwoPositions();
    } else {
      FollowsIsHamiltonian(res, order);
      FollowsInRange(res, order);
    }
    next := new int[n];
    j := 0;
    while j < n
      invariant 0 <= j <= n && links[..] == res
      invariant forall k | 0 <= k < j :: next[k] == res[k] * line
    {
      next[j] := links[j] * line;
      j := j + 1;
    }
    LinksAre(next[..], res, line);
  }

  lemma LinksAre(next: seq<int>, res: seq<int>, line: nat)
    requires 0 < line && |next| == |res| && forall k | 0 <= k < |res| :: next[k] == res[k] * line
    ensures Links(next, line) == res
  {
    forall k | 0 <= k < |res| ensures Links(next, line)[k] == res[k] {
      Exact(res[k], line);
    }
  }

  lemma FollowsInRange(res: seq<int>, order: seq<int>)
    requires Follows(res, order)
    ensures forall x | 0 <= x < |res| :: 0 <= res[x] < |res|
  {
    forall x | 0 <= x < |res| ensures 0 <= res[x] < |res| {
      assert x in order;
      var k :| 0 <= k < |order| && order[k] == x;
      assert res[order[k]] == order[if k + 1 < |order| then k + 1 else 0];
    }
  }

  /** With two positions the walk never comes back. */
  lemma TwoPositions()
    ensures !Hamiltonian([1, 1])
  {
    assert Walk([1, 1], 0) == 0 && Walk([1, 1], 1) == 1;
    assert Walk([1, 1], 2) == 1;
  }

  // --- The walk, by byte offsets. ---

  // The offset read by load number `k`: the register starts with the link of line 0.
  ghost function Offset(next: seq<int>, line: nat, k: nat): int
    requires 0 < line
  {
    var x := if k == 0 then 0 else Offset(next, line, k - 1);
    if 0 <= x / line < |next| then next[x / line] else x
  }

  /** Load number `k` takes the register to the line that the walk reaches after `k + 1` steps. */
  lemma {:induction false} OffsetIsWalk(next: seq<int>, line: nat, k: nat)
    requires 0 < line && 0 < |next| && Offsets(next, line)
    ensures Offset(next, line, k) == Walk(Links(next, line), k + 1) * line
    ensures 0 <= Walk(Links(next, line), k) < |next|
  {
    if k > 0 { OffsetIsWalk(next, line, k - 1); }
    Exact(Walk(Links(next, line), k), line);
  }

  lemma Exact(a: int, b: int)
    requires 0 < b
    ensures a * b / b == a
  {
    var d := a * b / b - a;
    assert 0 <= a * b % b < b && a * b == a * b / b * b + a * b % b;
    assert d * b == -(a * b % b);
    if d >= 1 { MulLe(1, d, b); } else if d <= -1 { MulLe(d, -1, b); }
  }

  /** The chase: `iters` rounds of `unroll` loads each. */
  method Chase(next: array<int>, line: nat, iters: nat, unroll: nat) returns (offset: int)
    requires 0 < line && 0 < next.Length && 0 < iters
    requires forall k | 0 <= k < next.Length :: 0 <= next[k] / line < next.Length
    ensures offset == Offset(next[..], line, iters * unroll)
  {
    Exact(0, line);
    offset := next[0];
    var counter := iters;
    while counter != 0
      invariant 0 <= counter <= iters && 0 <= offset / line < next.Length
      invariant offset == Offset(next[..], line, (iters - counter) * unroll)
    {
      var u := 0;
      while u < unroll
        invariant 0 <= u <= unroll && 0 <= offset / line < next.Length
        invariant offset == Offset(next[..], line, (iters - counter) * unroll + u)
      {
        offset := next[offset / line];
        u := u + 1;
      }
      assert (iters - counter + 1) * unroll == (iters - counter) * unroll + unroll;
      counter := counter - 1;
    }
  }

  /** The whole benchmark: after all its loads the register holds the offset of the line that the walk along the
      generated links has reached. */
  method Benchmark(n: nat, line: nat, rands: seq<int>, iters: nat, unroll: nat)
    returns (next: array<int>, offset: int)
    requires 2 <= n <= 0x8000_0000 && 0 < line && |rands| >= n - 1 && RandomValues(rands) && 0 < iters
    ensures next.Length == n && (Hamiltonian(Links(next[..], line)) <==> n >= 3)
    ensures offset == Walk(Links(next[..], line), iters * unroll + 1) * line
  {
    ghost var order;
    next, order := WalkGenerator(n, line, rands);
    assert forall k | 0 <= k < n :: Links(next[..], line)[k] == next[k] / line;
    offset := Chase(next, line, iters, unroll);
    OffsetIsWalk(next[..], line, iters * unroll);
  }
}
