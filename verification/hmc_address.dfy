/** The bit-sliced address map of the memory cube. */
module HmcAddress {
  import opened BitArithmetic

  // --- A number cut into fields of given widths, lowest first. ---

  function Total(ws: seq<nat>): nat {
    if ws == [] then 0 else ws[0] + Total(ws[1..])
  }

  function Slices(a: int, ws: seq<nat>): (ds: seq<int>)
    ensures |ds| == |ws|
    decreases |ws|
  {
    if ws == [] then [] else [a % Pow2(ws[0])] + Slices(a / Pow2(ws[0]), ws[1..])
  }

  function Join(ds: seq<int>, ws: seq<nat>): int
    requires |ds| == |ws|
  {
    if ws == [] then 0 else ds[0] + Join(ds[1..], ws[1..]) * Pow2(ws[0])
  }

  predicate Fits(ds: seq<int>, ws: seq<nat>) {
    |ds| == |ws| && forall i | 0 <= i < |ws| :: 0 <= ds[i] < Pow2(ws[i])
  }

  lemma {:induction false} JoinOfSlices(a: int, ws: seq<nat>)
    requires 0 <= a < Pow2(Total(ws))
    ensures Fits(Slices(a, ws), ws) && Join(Slices(a, ws), ws) == a
    decreases |ws|
  {
    hide Pow2;
    if ws == [] {
      PowZero();
    } else {
      var p, rest := Pow2(ws[0]), a / Pow2(ws[0]);
      Pow2Adds(ws[0], Total(ws[1..]));
      DivMod(a, p);
      DivBound(a, p, Pow2(Total(ws[1..])));
      JoinOfSlices(rest, ws[1..]);
      assert Slices(a, ws)[1..] == Slices(rest, ws[1..]);
    }
  }

  lemma {:induction false} SlicesOfJoin(ds: seq<int>, ws: seq<nat>)
    requires Fits(ds, ws)
    ensures 0 <= Join(ds, ws) < Pow2(Total(ws)) && Slices(Join(ds, ws), ws) == ds
  {
    hide Pow2;
    if ws == [] {
      PowZero();
    } else {
      var p, rest := Pow2(ws[0]), Join(ds[1..], ws[1..]);
      SlicesOfJoin(ds[1..], ws[1..]);
      Pow2Adds(ws[0], Total(ws[1..]));
      DivUnique(Join(ds, ws), p, rest, ds[0]);
      DivMod(Join(ds, ws), p);
      JoinBound(rest, ds[0], p, Pow2(Total(ws[1..])));
      assert ds == [ds[0]] + ds[1..];
    }
  }

  lemma PowZero()
    ensures Pow2(0) == 1
  {}

  lemma DivBound(a: int, p: nat, q: nat)
    requires p > 0 && 0 <= a < p * q
    ensures 0 <= a / p < q
  {
    DivMod(a, p);
    if a / p >= q { MulLe(q, a / p, p); }
    if a / p < 0 { MulLe(a / p, -1, p); }
  }

  lemma JoinBound(x: int, d: int, p: nat, q: nat)
    requires 0 <= d < p && 0 <= x < q
    ensures 0 <= d + x * p < p * q
  {
    MulLe(x + 1, q, p);
    MulLe(0, x, p);
  }

  // One more in a field is as much more as the fields below it hold.
  lemma {:induction false} JoinStep(ds: seq<int>, ws: seq<nat>, i: nat)
    requires |ds| == |ws| && i < |ws|
    ensures Join(ds[i := ds[i] + 1], ws) == Join(ds, ws) + Pow2(Total(ws[..i]))
  {
    hide Pow2;
    var us := ds[i := ds[i] + 1];
    if i == 0 {
      PowZero();
      assert us[1..] == ds[1..] && Total(ws[..0]) == 0;
    } else {
      var p, rest := Pow2(ws[0]), Join(ds[1..], ws[1..]);
      JoinStep(ds[1..], ws[1..], i - 1);
      assert us[1..] == ds[1..][i - 1 := ds[1..][i - 1] + 1];
      assert ws[..i][1..] == ws[1..][..i - 1];
      Pow2Adds(ws[0], Total(ws[1..][..i - 1]));
      Spread(rest, Pow2(Total(ws[1..][..i - 1])), p);
    }
  }

  lemma {:induction false} TotalPush(ws: seq<nat>, i: nat)
    requires i < |ws|
    ensures Total(ws[..0]) == 0 && Total(ws[..i + 1]) == Total(ws[..i]) + ws[i]
    decreases i
  {
    if i > 0 {
      TotalPush(ws[1..], i - 1);
      assert ws[..i + 1][1..] == ws[1..][..i] && ws[..i][1..] == ws[1..][..i - 1];
    }
  }

  lemma NextBlock(a: int, p: nat)
    requires p > 0
    ensures (a + p) / p == a / p + 1 && (a + p) % p == a % p
    ensures (a + 1) % p != 0 ==> (a + 1) / p == a / p && (a + 1) % p == a % p + 1
  {
    DivMod(a, p);
    Next(a / p, p);
    DivUnique(a + p, p, a / p + 1, a % p);
    DivMod(a + p, p);
    if a % p + 1 < p {
      DivUnique(a + 1, p, a / p, a % p + 1);
    } else {
      DivUnique(a + 1, p, a / p + 1, 0);
    }
    DivMod(a + 1, p);
  }

  lemma Spread(a: int, b: int, p: int)
    ensures (a + b) * p == a * p + p * b
  {}

  // --- The map. ---

  datatype Addressing = RoCoBaVa | RoBaCoVa | RoCoBaBgVa

  datatype Vector = Vector(vault: int, group: int, bank: int, row: int, column: int)

  /** Field widths in bits: `tx` of a transaction, `block` of the low part of the column, `column` of all of it. */
  datatype Map = Map(addressing: Addressing, tx: nat, block: nat, vault: nat, group: nat, bank: nat, row: nat,
      column: nat) {
    predicate Valid() { block <= column }

    function Widths(): (ws: seq<nat>)
      requires Valid()
      ensures |ws| == 6
    {
      match addressing
      case RoCoBaVa => [block, vault, bank, group, column - block, row]
      case RoBaCoVa => [block, vault, column - block, bank, group, row]
      case RoCoBaBgVa => [block, vault, group, bank, column - block, row]
    }

    function MaxAddress(): (p: nat)
      requires Valid()
      ensures p > 0
    {
      Pow2(tx + Total(Widths()))
    }

    predicate InRange(v: Vector) {
      && 0 <= v.vault < Pow2(vault) && 0 <= v.group < Pow2(group) && 0 <= v.bank < Pow2(bank)
      && 0 <= v.row < Pow2(row) && 0 <= v.column < Pow2(column)
    }

    // The two parts of the column do not overlap, so their bitwise or is their sum.
    function ToVector(ds: seq<int>): Vector
      requires |ds| == 6
    {
      match addressing
      case RoCoBaVa => Vector(ds[1], ds[3], ds[2], ds[5], ds[0] + ds[4] * Pow2(block))
      case RoBaCoVa => Vector(ds[1], ds[4], ds[3], ds[5], ds[0] + ds[2] * Pow2(block))
      case RoCoBaBgVa => Vector(ds[1], ds[2], ds[3], ds[5], ds[0] + ds[4] * Pow2(block))
    }

    function FromVector(v: Vector): (ds: seq<int>)
      ensures |ds| == 6
    {
      var low, high := v.column % Pow2(block), v.column / Pow2(block);
      match addressing
      case RoCoBaVa => [low, v.vault, v.bank, v.group, high, v.row]
      case RoBaCoVa => [low, v.vault, high, v.bank, v.group, v.row]
      case RoCoBaBgVa => [low, v.vault, v.group, v.bank, high, v.row]
    }

    // The coordinates of an address: high bits cleared, the transaction offset dropped, then field by field.
    function Decode(addr: int): Vector
      requires Valid()
    {
      ToVector(Slices(addr % MaxAddress() / Pow2(tx), Widths()))
    }

    function Encode(v: Vector): int
      requires Valid()
    {
      Join(FromVector(v), Widths()) * Pow2(tx)
    }

    lemma VectorOfFields(ds: seq<int>)
      requires Valid() && Fits(ds, Widths())
      ensures InRange(ToVector(ds)) && FromVector(ToVector(ds)) == ds
    {
      hide Pow2;
      Pow2Adds(block, column - block);
      assert forall i | 0 <= i < 6 :: 0 <= ds[i] < Pow2(Widths()[i]);
      var high := match addressing case RoCoBaVa => ds[4] case RoBaCoVa => ds[2] case RoCoBaBgVa => ds[4];
      assert 0 <= ds[0] < Pow2(block) && 0 <= high < Pow2(column - block);
      JoinBound(high, ds[0], Pow2(block), Pow2(column - block));
      DivUnique(ds[0] + high * Pow2(block), Pow2(block), high, ds[0]);
      DivMod(ds[0] + high * Pow2(block), Pow2(block));
    }

    lemma FieldsOfVector(v: Vector)
      requires Valid() && InRange(v)
      ensures Fits(FromVector(v), Widths()) && ToVector(FromVector(v)) == v
    {
      hide Pow2;
      Pow2Adds(block, column - block);
      DivBound(v.column, Pow2(block), Pow2(column - block));
      DivMod(v.column, Pow2(block));
    }

    /** Every transaction address below the maximum is recovered from its coordinates, which are in range. */
    lemma DecodeThenEncode(addr: int)
      requires Valid() && 0 <= addr < MaxAddress() && addr % Pow2(tx) == 0
      ensures InRange(Decode(addr)) && Encode(Decode(addr)) == addr
    {
      hide Pow2, Slices, Join, Total, Widths, ToVector, FromVector;
      var a := addr / Pow2(tx);
      Below(addr, MaxAddress());
      Pow2Adds(tx, Total(Widths()));
      DivBound(addr, Pow2(tx), Pow2(Total(Widths())));
      JoinOfSlices(a, Widths());
      VectorOfFields(Slices(a, Widths()));
      DivMod(addr, Pow2(tx));
    }

    /** All coordinates in range are reached, by a transaction address below the maximum. */
    lemma EncodeThenDecode(v: Vector)
      requires Valid() && InRange(v)
      ensures 0 <= Encode(v) < MaxAddress() && Encode(v) % Pow2(tx) == 0 && Decode(Encode(v)) == v
    {
      hide Pow2, Slices, Join, Total, Widths, ToVector, FromVector;
      FieldsOfVector(v);
      SlicesOfJoin(FromVector(v), Widths());
      var a := Join(FromVector(v), Widths());
      Pow2Adds(tx, Total(Widths()));
      JoinBound(a, 0, Pow2(tx), Pow2(Total(Widths())));
      DivUnique(a * Pow2(tx), Pow2(tx), a, 0);
      DivMod(a * Pow2(tx), Pow2(tx));
      Below(Encode(v), MaxAddress());
    }

    /** Two addresses share their coordinates exactly when they are in the same transaction. */
    lemma SameCoordinates(x: int, y: int)
      requires Valid()
      ensures Decode(x) == Decode(y) <==> x % MaxAddress() / Pow2(tx) == y % MaxAddress() / Pow2(tx)
    {
      hide Pow2, Slices, Join, Total, Widths, ToVector, FromVector;
      Fields(x);
      Fields(y);
    }

    // The field at position `i` stepped by one, and its distance in addresses.
    lemma FieldStep(v: Vector, u: Vector, i: nat, bits: nat)
      requires Valid() && i < 6 && FromVector(u) == FromVector(v)[i := FromVector(v)[i] + 1]
      requires bits == Total(Widths()[..i])
      ensures Encode(u) == Encode(v) + Pow2(tx + bits)
    {
      JoinStep(FromVector(v), Widths(), i);
      Pow2Adds(tx, bits);
      Spread(Join(FromVector(v), Widths()), Pow2(bits), Pow2(tx));
    }

    // The bits below each field, in the order of the addressing type.
    lemma Offsets()
      requires Valid()
      ensures var ws := Widths();
              && Total(ws[..0]) == 0 && Total(ws[..1]) == ws[0] && Total(ws[..2]) == ws[0] + ws[1]
              && Total(ws[..3]) == ws[0] + ws[1] + ws[2] && Total(ws[..4]) == ws[0] + ws[1] + ws[2] + ws[3]
              && Total(ws[..5]) == ws[0] + ws[1] + ws[2] + ws[3] + ws[4]
    {
      var ws := Widths();
      TotalPush(ws, 0);
      TotalPush(ws, 1);
      TotalPush(ws, 2);
      TotalPush(ws, 3);
      TotalPush(ws, 4);
    }

    // A step in the high part of the column, and one in the low part.
    lemma ColumnParts(v: Vector)
      requires Valid()
      ensures (v.column + Pow2(block)) / Pow2(block) == v.column / Pow2(block) + 1
      ensures (v.column + Pow2(block)) % Pow2(block) == v.column % Pow2(block)
      ensures (v.column + 1) % Pow2(block) != 0 ==>
                && (v.column + 1) / Pow2(block) == v.column / Pow2(block)
                && (v.column + 1) % Pow2(block) == v.column % Pow2(block) + 1
    {
      hide Pow2;
      NextBlock(v.column, Pow2(block));
    }

    lemma StridesBelow(v: Vector)
      requires Valid()
      ensures (v.column + 1) % Pow2(block) != 0 ==> Encode(v.(column := v.column + 1)) == Encode(v) + Pow2(tx)
      ensures Encode(v.(vault := v.vault + 1)) == Encode(v) + Pow2(tx + block)
      ensures Encode(v.(row := v.row + 1)) == Encode(v) + Pow2(tx + vault + group + bank + column)
    {
      Offsets();
      ColumnParts(v);
      hide Pow2, Total, Encode;
      if (v.column + 1) % Pow2(block) != 0 { FieldStep(v, v.(column := v.column + 1), 0, 0); }
      FieldStep(v, v.(vault := v.vault + 1), 1, block);
      FieldStep(v, v.(row := v.row + 1), 5, vault + group + bank + column);
    }

    lemma StridesBankFirst(v: Vector)
      requires Valid() && addressing == RoCoBaVa
      ensures Encode(v.(bank := v.bank + 1)) == Encode(v) + Pow2(tx + block + vault)
      ensures Encode(v.(group := v.group + 1)) == Encode(v) + Pow2(tx + block + vault + bank)
      ensures Encode(v.(column := v.column + Pow2(block))) == Encode(v) + Pow2(tx + block + vault + bank + group)
    {
      Offsets();
      ColumnParts(v);
      hide Pow2, Total, Encode;
      FieldStep(v, v.(bank := v.bank + 1), 2, block + vault);
      FieldStep(v, v.(group := v.group + 1), 3, block + vault + bank);
      FieldStep(v, v.(column := v.column + Pow2(block)), 4, block + vault + bank + group);
    }

    lemma StridesColumnFirst(v: Vector)
      requires Valid() && addressing == RoBaCoVa
      ensures Encode(v.(column := v.column + Pow2(block))) == Encode(v) + Pow2(tx + block + vault)
      ensures Encode(v.(bank := v.bank + 1)) == Encode(v) + Pow2(tx + vault + column)
      ensures Encode(v.(group := v.group + 1)) == Encode(v) + Pow2(tx + vault + column + bank)
    {
      Offsets();
      ColumnParts(v);
      hide Pow2, Total, Encode;
      FieldStep(v, v.(column := v.column + Pow2(block)), 2, block + vault);
      FieldStep(v, v.(bank := v.bank + 1), 3, vault + column);
      FieldStep(v, v.(group := v.group + 1), 4, vault + column + bank);
    }

    lemma StridesGroupFirst(v: Vector)
      requires Valid() && addressing == RoCoBaBgVa
      ensures Encode(v.(group := v.group + 1)) == Encode(v) + Pow2(tx + block + vault)
      ensures Encode(v.(bank := v.bank + 1)) == Encode(v) + Pow2(tx + block + vault + group)
      ensures Encode(v.(column := v.column + Pow2(block))) == Encode(v) + Pow2(tx + block + vault + bank + group)
    {
      Offsets();
      ColumnParts(v);
      hide Pow2, Total, Encode;
      FieldStep(v, v.(group := v.group + 1), 2, block + vault);
      FieldStep(v, v.(bank := v.bank + 1), 3, block + vault + group);
      FieldStep(v, v.(column := v.column + Pow2(block)), 4, block + vault + bank + group);
    }

    /** Where consecutive addresses go. Transactions step through the low part of the column first, and blocks through
        the vaults, whatever the addressing type; what comes next tells the types apart. */
    lemma Strides(v: Vector)
      requires Valid()
      ensures (v.column + 1) % Pow2(block) != 0 ==> Encode(v.(column := v.column + 1)) == Encode(v) + Pow2(tx)
      ensures Encode(v.(vault := v.vault + 1)) == Encode(v) + Pow2(tx + block)
      ensures addressing == RoCoBaVa ==>
                && Encode(v.(bank := v.bank + 1)) == Encode(v) + Pow2(tx + block + vault)
                && Encode(v.(group := v.group + 1)) == Encode(v) + Pow2(tx + block + vault + bank)
                && Encode(v.(column := v.column + Pow2(block))) == Encode(v) + Pow2(tx + block + vault + bank + group)
      ensures addressing == RoBaCoVa ==>
                && Encode(v.(column := v.column + Pow2(block))) == Encode(v) + Pow2(tx + block + vault)
                && Encode(v.(bank := v.bank + 1)) == Encode(v) + Pow2(tx + vault + column)
                && Encode(v.(group := v.group + 1)) == Encode(v) + Pow2(tx + vault + column + bank)
      ensures addressing == RoCoBaBgVa ==>
                && Encode(v.(group := v.group + 1)) == Encode(v) + Pow2(tx + block + vault)
                && Encode(v.(bank := v.bank + 1)) == Encode(v) + Pow2(tx + block + vault + group)
                && Encode(v.(column := v.column + Pow2(block))) == Encode(v) + Pow2(tx + block + vault + bank + group)
      ensures Encode(v.(row := v.row + 1)) == Encode(v) + Pow2(tx + vault + group + bank + column)
    {
      hide Pow2, Encode;
      StridesBelow(v);
      match addressing
      case RoCoBaVa => StridesBankFirst(v);
      case RoBaCoVa => StridesColumnFirst(v);
      case RoCoBaBgVa => StridesGroupFirst(v);
    }

    lemma Fields(x: int)
      requires Valid()
      ensures InRange(Decode(x)) && Join(FromVector(Decode(x)), Widths()) == x % MaxAddress() / Pow2(tx)
    {
      hide Pow2, Slices, Join, Total, Widths, ToVector, FromVector;
      var m := x % MaxAddress();
      Pow2Adds(tx, Total(Widths()));
      DivBound(m, Pow2(tx), Pow2(Total(Widths())));
      JoinOfSlices(m / Pow2(tx), Widths());
      VectorOfFields(Slices(m / Pow2(tx), Widths()));
    }
  }

  lemma Below(a: int, m: nat)
    requires 0 <= a < m
    ensures a % m == a
  {
    DivSmall(a, m);
    DivMod(a, m);
  }

  // Takes the lowest bits off an address.
  method SliceLowerBits(addr: int, bits: nat) returns (low: int, rest: int)
    ensures low == addr % Pow2(bits) && rest == addr / Pow2(bits)
  {
    low := addr % Pow2(bits);
    rest := addr / Pow2(bits);
  }

  /** The slicing of an incoming address, in the order of its addressing type, is the map. */
  method AddressVector(m: Map, address: int) returns (v: Vector)
    requires m.Valid()
    ensures v == m.Decode(address)
  {
    hide Pow2, Slices;
    var addr := address % m.MaxAddress() / Pow2(m.tx);
    ghost var ws := m.Widths();
    SlicesOfSix(addr, ws);
    var column, vault, bank, group, high, row;
    column, addr := SliceLowerBits(addr, m.block);
    vault, addr := SliceLowerBits(addr, m.vault);
    match m.addressing {
      case RoCoBaVa =>
        bank, addr := SliceLowerBits(addr, m.bank);
        group, addr := SliceLowerBits(addr, m.group);
        high, addr := SliceLowerBits(addr, m.column - m.block);
      case RoBaCoVa =>
        high, addr := SliceLowerBits(addr, m.column - m.block);
        bank, addr := SliceLowerBits(addr, m.bank);
        group, addr := SliceLowerBits(addr, m.group);
      case RoCoBaBgVa =>
        group, addr := SliceLowerBits(addr, m.group);
        bank, addr := SliceLowerBits(addr, m.bank);
        high, addr := SliceLowerBits(addr, m.column - m.block);
    }
    column := column + high * Pow2(m.block);
    row, addr := SliceLowerBits(addr, m.row);
    v := Vector(vault, group, bank, row, column);
  }

  lemma SlicesOfSix(a: int, ws: seq<nat>)
    requires |ws| == 6
    ensures var ds := Slices(a, ws);
            var a1 := a / Pow2(ws[0]);
            var a2 := a1 / Pow2(ws[1]);
            var a3 := a2 / Pow2(ws[2]);
            var a4 := a3 / Pow2(ws[3]);
            var a5 := a4 / Pow2(ws[4]);
            && ds[0] == a % Pow2(ws[0]) && ds[1] == a1 % Pow2(ws[1]) && ds[2] == a2 % Pow2(ws[2])
            && ds[3] == a3 % Pow2(ws[3]) && ds[4] == a4 % Pow2(ws[4]) && ds[5] == a5 % Pow2(ws[5])
  {
    hide Pow2;
    var w1, w2, w3, w4, w5 := ws[1..], ws[2..], ws[3..], ws[4..], ws[5..];
    assert w1[1..] == w2 && w2[1..] == w3 && w3[1..] == w4 && w4[1..] == w5;
    var a1 := a / Pow2(ws[0]);
    var a2 := a1 / Pow2(ws[1]);
    var a3 := a2 / Pow2(ws[2]);
    var a4 := a3 / Pow2(ws[3]);
    var a5 := a4 / Pow2(ws[4]);
    assert Slices(a, ws) == [a % Pow2(ws[0])] + Slices(a1, w1);
    assert Slices(a1, w1) == [a1 % Pow2(ws[1])] + Slices(a2, w2);
    assert Slices(a2, w2) == [a2 % Pow2(ws[2])] + Slices(a3, w3);
    assert Slices(a3, w3) == [a3 % Pow2(ws[3])] + Slices(a4, w4);
    assert Slices(a4, w4) == [a4 % Pow2(ws[4])] + Slices(a5, w5);
  }
}
