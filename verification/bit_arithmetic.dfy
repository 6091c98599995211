/** Shifts and masks as quotients and remainders by powers of two. */
module BitArithmetic {

  function Pow2(n: nat): (p: nat)
    ensures p > 0
  {
    if n == 0 then 1 else 2 * Pow2(n - 1)
  }

  // --- Arithmetic of products and quotients. ---

  lemma {:induction false} MulLe(a: int, b: int, m: nat)
    requires a <= b
    ensures a * m <= b * m
    decreases m
  {
    if m > 0 {
      MulLe(a, b, m - 1);
      assert a * m == a * (m - 1) + a && b * m == b * (m - 1) + b;
    }
  }

  lemma Next(z: int, m: nat)
    ensures (z + 1) * m == z * m + m
  {}

  lemma DivUnique(a: int, m: nat, y: int, r: int)
    requires m > 0 && a == y * m + r && 0 <= r < m
    ensures a / m == y
  {
    var z := a / m;
    Next(z, m);
    Next(y, m);
    assert z * m <= a < (z + 1) * m;
    if z < y {
      MulLe(z + 1, y, m);
    } else if y < z {
      MulLe(y + 1, z, m);
    }
  }

  lemma DivSmall(a: nat, m: nat)
    requires m > 0
    ensures a / m == 0 <==> a < m
  {
    if a < m { DivUnique(a, m, 0, a); }
  }

  lemma DivDiv(a: int, p: nat, q: nat)
    requires p > 0 && q > 0
    ensures p * q > 0 && a / (p * q) == a / p / q
  {
    var x := a / p;
    var y, s := x / q, x % q;
    MulLe(s, q - 1, p);
    MulLe(1, q, p);
    Next(q - 1, p);
    Regroup(y, q, s, p);
    assert x == y * q + s && a == x * p + a % p;
    DivUnique(a, p * q, y, s * p + a % p);
  }

  lemma Regroup(y: int, q: int, s: int, p: int)
    ensures (y * q + s) * p == y * (p * q) + s * p
  {}

  lemma {:induction false} Pow2Adds(m: nat, n: nat)
    ensures Pow2(m + n) == Pow2(m) * Pow2(n)
  {
    if n > 0 {
      Pow2Adds(m, n - 1);
      Double(Pow2(m), Pow2(n - 1));
    }
  }

  lemma Double(x: int, y: int)
    ensures x * (2 * y) == 2 * (x * y)
  {}

  lemma {:induction false} Pow2Mono(m: nat, n: nat)
    requires m <= n
    ensures Pow2(m) <= Pow2(n)
    decreases n - m
  {
    if m < n { Pow2Mono(m + 1, n); }
  }

  lemma Log2Unique(m: nat, n: nat)
    requires Pow2(n) <= Pow2(m) < Pow2(n + 1)
    ensures m == n
  {
    if m < n { Pow2Mono(m + 1, n); }
    if n < m { Pow2Mono(n + 1, m); }
  }

  // The position of the highest bit, found by shifting right until nothing is left.
  method CalcLog2(val: nat) returns (n: nat)
    ensures val == 0 ==> n == 0
    ensures val > 0 ==> Pow2(n) <= val < Pow2(n + 1)
  {
    n := 0;
    var v: nat := val / 2;
    ghost var p: nat := 1;
    while v != 0
      invariant p > 0 && p == Pow2(n) && v >= 0 && ShiftedBy(val, p, v)
      invariant val == 0 ==> n == 0
      decreases v
    {
      ShiftOnce(val, p, v);
      v := v / 2;
      n := n + 1;
      p := 2 * p;
    }
    ShiftedOut(val, p);
  }

  // The value has been shifted right past `p`, and was not yet exhausted before that.
  predicate ShiftedBy(val: nat, p: nat, v: nat)
    requires p > 0
  {
    v == val / (2 * p) && (val > 0 ==> val / p > 0)
  }

  lemma ShiftOnce(val: nat, p: nat, v: nat)
    requires p > 0 && v > 0 && ShiftedBy(val, p, v)
    ensures ShiftedBy(val, 2 * p, v / 2) && val > 0
  {
    if val == 0 { DivSmall(0, 2 * p); }
    DivDiv(val, 2 * p, 2);
    assert 2 * p * 2 == 2 * (2 * p);
  }

  lemma ShiftedOut(val: nat, p: nat)
    requires p > 0 && ShiftedBy(val, p, 0)
    ensures val > 0 ==> p <= val < 2 * p
  {
    DivSmall(val, 2 * p);
    DivSmall(val, p);
  }

  lemma DivMod(a: int, n: nat)
    requires n > 0
    ensures a == a / n * n + a % n
  {}
}
