/** Which orders the shuffle can produce: all of them, up to a length that is known exactly. */
module PtrOrders {
  import opened BitArithmetic
  import opened PtrChase

  // The division by which an offset is drawn reaches the last of `m` offsets.
  predicate Spans(m: int)
    requires 0 < m
  {
    (m - 1) * (RAND_MAX / m + 1) <= RAND_MAX
  }

  // The longest sequence of which every order can be drawn.
  const LONGEST := 46409

  // --- Offsets. ---

  ghost predicate CanDraw(m: int, j: int)
    requires 0 < m
  {
    exists r :: 0 <= r <= RAND_MAX && Draws(r, m, j)
  }

  ghost predicate Draws(r: int, m: int, j: int)
    requires 0 < m && 0 <= r <= RAND_MAX
  {
    PickInRange(r, m);
    Pick(r, m) == j
  }

  /** Every one of `m` offsets can be drawn exactly when the last one can. */
  lemma OffsetsDrawn(m: int)
    requires 0 < m
    ensures (forall j | 0 <= j < m :: CanDraw(m, j)) <==> Spans(m)
    ensures CanDraw(m, m - 1) <==> Spans(m)
  {
    var d := RAND_MAX / m + 1;
    Quotient(RAND_MAX, m);
    if Spans(m) {
      forall j | 0 <= j < m ensures CanDraw(m, j) {
        MulLe(j, m - 1, d);
        MulLe(0, j, d);
        DrawnBy(m, j);
        assert Draws(j * d, m, j);
      }
    }
    if CanDraw(m, m - 1) {
      var r :| 0 <= r <= RAND_MAX && Draws(r, m, m - 1);
      Quotient(r, d);
    }
  }

  // The least value that draws offset `j`.
  lemma DrawnBy(m: int, j: int)
    requires 0 < m && 0 <= j < m && j * (RAND_MAX / m + 1) <= RAND_MAX
    ensures RAND_MAX / m + 1 > 0 && 0 <= j * (RAND_MAX / m + 1) && Pick(j * (RAND_MAX / m + 1), m) == j
  {
    Quotient(RAND_MAX, m);
    MulLe(0, j, RAND_MAX / m + 1);
    DivUnique(j * (RAND_MAX / m + 1), RAND_MAX / m + 1, j, 0);
  }

  lemma DivAtLeast(a: int, m: int, k: int)
    requires 0 <= a && 0 < m && k * m <= a
    ensures k <= a / m
  {
    Quotient(a, m);
    if a / m < k { MulLe(a / m + 1, k, m); }
  }

  // With the quotient and the remainder of the division the product is a sum.
  lemma SpansBy(m: int, q: int, r: int)
    requires 0 < m && 0 <= r < m && RAND_MAX == q * m + r
    ensures Spans(m) <==> m - 1 - q <= r
  {
    DivUnique(RAND_MAX, m, q, r);
    assert (m - 1) * (q + 1) == q * m + (m - 1 - q);
  }

  lemma SpansSmall(m: int)
    requires 1 <= m <= 46341
    ensures Spans(m)
  {
    MulLe(m, 46341, m - 1);
    MulLe(m - 1, 46340, 46341);
    DivAtLeast(RAND_MAX, m, m - 1);
    Quotient(RAND_MAX, m);
    SpansBy(m, RAND_MAX / m, RAND_MAX - RAND_MAX / m * m);
  }

  // Beyond the square root the quotient is known for as long as the remainder does not overflow.
  lemma SpansMiddle(x: nat)
    requires x <= 68
    ensures Spans(46341 + x)
  {
    var m, q, square := 46341 + x, 46340 - x, x * x;
    MulLe(0, x, x);
    MulLe(x, 68, x);
    assert q * m == 46340 * 46341 - x - square;
    SpansBy(m, q, 41707 + x + square);
  }

  /** All numbers of elements up to `n` have every offset drawn exactly when `n` is at most 46409. */
  lemma SpansUpTo(n: nat)
    ensures (forall m | 1 <= m <= n :: Spans(m)) <==> n <= LONGEST
  {
    if n <= LONGEST {
      forall m | 1 <= m <= n ensures Spans(m) {
        if m <= 46341 { SpansSmall(m); } else { SpansMiddle(m - 46341); }
      }
    } else {
      SpansBy(46410, 46272, 127);
      assert !Spans(46410);
    }
  }

  // --- Reaching an order. ---

  // The first position from `i` on that holds `x`, or the length.
  function Find(s: seq<int>, i: nat, x: int): (j: nat)
    requires i <= |s|
    ensures i <= j <= |s| && (j < |s| ==> s[j] == x) && forall k | i <= k < j :: s[k] != x
    decreases |s| - i
  {
    if i == |s| || s[i] == x then i else Find(s, i + 1, x)
  }

  // Values that make the shuffle, from position `i` on, put the elements of `t` in place one after the other.
  function ValuesFor(s: seq<int>, i: nat, t: seq<int>): (values: seq<int>)
    requires |s| == |t| && i <= |s|
    ensures |values| == |s| - i
    decreases |s| - i
  {
    if i == |s| then []
    else
      var j := Find(s, i, t[i]);
      if j == |s| then seq(|s| - i, _ => 0)
      else
        [(j - i) * (RAND_MAX / (|s| - i) + 1)] + ValuesFor(Swapped(s, i, j), i + 1, t)
  }

  function Swapped(s: seq<int>, i: nat, j: nat): (u: seq<int>)
    requires i < |s| && j < |s|
    ensures u == Swap(s, i, j) && |u| == |s|
  {
    s[i := s[j]][j := s[i]]
  }

  lemma SwapMultiset(s: seq<int>, i: nat, j: nat)
    requires i < |s| && j < |s|
    ensures multiset(Swap(s, i, j)) == multiset(s)
  {}

  // The element that belongs at `i` is still to come, if all before it are in place.
  lemma StillToCome(s: seq<int>, i: nat, t: seq<int>)
    requires i < |s| == |t| && s[..i] == t[..i] && multiset(s) == multiset(t)
    ensures Find(s, i, t[i]) < |s|
  {
    assert s == s[..i] + s[i..] && t == t[..i] + t[i..];
    assert multiset(s[i..]) == multiset(s) - multiset(s[..i]);
    assert multiset(t[i..]) == multiset(t) - multiset(t[..i]);
    assert t[i..][0] in multiset(t[i..]);
    assert t[i] in s[i..];
  }

  /** The shuffle ends with `t` if it is given those values, provided every offset can be drawn. */
  lemma {:induction false} ReachesFrom(s: seq<int>, i: nat, t: seq<int>, before: seq<int>)
    requires |s| == |t| && i <= |s| && s[..i] == t[..i] && multiset(s) == multiset(t)
    requires |before| == i && RandomValues(before) && |s| <= LONGEST
    ensures RandomValues(before + ValuesFor(s, i, t))
    ensures ShuffleFrom(s, i, before + ValuesFor(s, i, t)) == t
    decreases |s| - i, 1
  {
    if i == |s| {
      assert s == t;
      assert before + [] == before;
    } else {
      StillToCome(s, i, t);
      var j := Find(s, i, t[i]);
      ValueInRange(|s| - i, j - i);
      ReachesStep(s, i, j, t, before, (j - i) * (RAND_MAX / (|s| - i) + 1));
    }
  }

  lemma {:induction false} ReachesStep(s: seq<int>, i: nat, j: nat, t: seq<int>, before: seq<int>, r: int)
    requires i < |s| == |t| && s[..i] == t[..i] && multiset(s) == multiset(t)
    requires |before| == i && RandomValues(before) && |s| <= LONGEST
    requires i <= j < |s| && s[j] == t[i] && 0 <= r <= RAND_MAX && Pick(r, |s| - i) == j - i
    requires ValuesFor(s, i, t) == [r] + ValuesFor(Swapped(s, i, j), i + 1, t)
    ensures RandomValues(before + ValuesFor(s, i, t))
    ensures ShuffleFrom(s, i, before + ValuesFor(s, i, t)) == t
    decreases |s| - i, 0
  {
    hide Pick, ValuesFor, ShuffleFrom;
    var u, now := Swapped(s, i, j), before + [r];
    var rest := ValuesFor(u, i + 1, t);
    SwapMultiset(s, i, j);
    assert u[..i + 1] == s[..i] + [t[i]] == t[..i + 1];
    ReachesFrom(u, i + 1, t, now);
    assert before + ([r] + rest) == now + rest;
    assert (now + rest)[i] == r;
    if i + 1 < |s| {
      ShuffleStep(s, i, now + rest);
    } else {
      ShuffleDone(now + rest);
      assert s == u;
    }
  }

  lemma ValueInRange(m: nat, j: nat)
    requires 0 < m <= LONGEST && j < m
    ensures 0 <= j * (RAND_MAX / m + 1) <= RAND_MAX && Pick(j * (RAND_MAX / m + 1), m) == j
  {
    SpansUpTo(m);
    assert Spans(m);
    Quotient(RAND_MAX, m);
    MulLe(j, m - 1, RAND_MAX / m + 1);
    DrawnBy(m, j);
  }

  /** Every order can be drawn: for any rearrangement of up to 46409 elements there are random values with which the
      shuffle in place ends with just that. */
  method Rearrange(a: array<int>, t: seq<int>) returns (rands: seq<int>)
    requires multiset(a[..]) == multiset(t) && a.Length <= LONGEST
    modifies a
    ensures |rands| == a.Length && RandomValues(rands) && a[..] == t
  {
    assert |multiset(a[..])| == |a[..]| && |multiset(t)| == |t|;
    rands := ValuesFor(a[..], 0, t);
    ReachesFrom(a[..], 0, t, []);
    assert [] + rands == rands;
    Shuffle(a, rands);
  }

  // --- Orders out of reach. ---

  ghost predicate Distinct(s: seq<int>) { forall i, j | 0 <= i < j < |s| :: s[i] != s[j] }

  ghost predicate Drawn(s: seq<int>, t: seq<int>) {
    exists rands :: |rands| == |s| && RandomValues(rands) && ShuffleFrom(s, 0, rands) == t
  }

  // A position, once passed, is not touched again.
  lemma {:induction false} Passed(s: seq<int>, i: nat, rands: seq<int>)
    requires |rands| >= |s| && RandomValues(rands) && i <= |s|
    ensures |ShuffleFrom(s, i, rands)| == |s| && ShuffleFrom(s, i, rands)[..i] == s[..i]
    decreases |s| - i
  {
    if i + 1 < |s| {
      ShuffleStep(s, i, rands);
      var u := Swap(s, i, i + Pick(rands[i], |s| - i));
      Passed(u, i + 1, rands);
      assert ShuffleFrom(s, i, rands)[..i] == ShuffleFrom(u, i + 1, rands)[..i + 1][..i] == u[..i];
    }
  }

  // To end with the first elements where they are and the last one at `k`, the last offset must be drawn there.
  lemma {:induction false} MustDraw(s: seq<int>, i: nat, rands: seq<int>, k: nat)
    requires |rands| == |s| && RandomValues(rands) && Distinct(s) && i <= k && k + 1 < |s|
    requires ShuffleFrom(s, i, rands) == Swap(s, k, |s| - 1)
    ensures CanDraw(|s| - k, |s| - k - 1)
    decreases k - i
  {
    ShuffleStep(s, i, rands);
    var m := |s| - i;
    var off := Pick(rands[i], m);
    var u := Swap(s, i, i + off);
    Passed(u, i + 1, rands);
    assert ShuffleFrom(s, i, rands)[..i + 1][i] == u[i] == s[i + off];
    if i == k {
      assert off == m - 1;
      assert Draws(rands[i], m, m - 1);
    } else {
      assert off == 0 && u == s;
      MustDraw(s, i + 1, rands, k);
    }
  }

  /** All orders of a sequence of distinct elements can be drawn exactly when it has at most 46409. */
  lemma OrdersDrawn(s: seq<int>)
    requires Distinct(s)
    ensures (forall t | multiset(t) == multiset(s) :: Drawn(s, t)) <==> |s| <= LONGEST
  {
    if |s| <= LONGEST {
      forall t | multiset(t) == multiset(s) ensures Drawn(s, t) {
        assert |multiset(s)| == |s| && |multiset(t)| == |t|;
        ReachesFrom(s, 0, t, []);
        assert [] + ValuesFor(s, 0, t) == ValuesFor(s, 0, t);
      }
    } else {
      var k := |s| - 46410;
      var t := Swap(s, k, |s| - 1);
      SwapMultiset(s, k, |s| - 1);
      if Drawn(s, t) {
        var rands :| |rands| == |s| && RandomValues(rands) && ShuffleFrom(s, 0, rands) == t;
        MustDraw(s, 0, rands, k);
        OffsetsDrawn(46410);
        SpansBy(46410, 46272, 127);
        assert false;
      }
    }
  }
}
