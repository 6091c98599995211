/** How a cache cuts an address into offset, set index and tag. */
module CacheAddress {

  import opened BitArithmetic

  datatype Geometry = Geometry(assoc: nat, indexOffset: nat, tagOffset: nat, mshrNum: nat) {
    predicate Valid() { indexOffset <= tagOffset && assoc > 0 }

    function Sets(): (n: nat)
      requires Valid()
      ensures n > 0
    {
      Pow2(tagOffset - indexOffset)
    }

    // The shift by the index offset and the mask of as many bits as there are sets.
    function Index(addr: int): int
      requires Valid()
    {
      (addr / Pow2(indexOffset)) % Sets()
    }

    function Tag(addr: int): int { addr / Pow2(tagOffset) }

    // The address with its offset bits cleared.
    function Align(addr: int): int { addr - addr % Pow2(indexOffset) }

    // The number of the block an address falls in.
    function Block(addr: int): int { addr / Pow2(indexOffset) }

    lemma TagOfBlock(addr: int)
      requires Valid()
      ensures Index(addr) == Block(addr) % Sets() && Tag(addr) == Block(addr) / Sets()
    {
      Pow2Adds(indexOffset, tagOffset - indexOffset);
      DivDiv(addr, Pow2(indexOffset), Sets());
    }

    /** Two addresses align to the same line address exactly when they agree on index and tag. */
    lemma AlignIsIndexAndTag(a: int, b: int)
      requires Valid()
      ensures Align(a) == Align(b) <==> Index(a) == Index(b) && Tag(a) == Tag(b)
      ensures Align(a) == Align(b) <==> Block(a) == Block(b)
    {
      TagOfBlock(a);
      TagOfBlock(b);
      AlignedBlock(a, Pow2(indexOffset));
      AlignedBlock(b, Pow2(indexOffset));
      DivMod(Block(a), Sets());
      DivMod(Block(b), Sets());
    }
  }

  lemma AlignedBlock(a: int, p: nat)
    requires p > 0
    ensures (a - a % p) / p == a / p && a - a % p == a / p * p
  {
    DivUnique(a - a % p, p, a / p, 0);
  }

  /** The geometry of a cache whose size, associativity and block size are powers of two, with the 32-bit mask of its
      set index. The sets hold the whole size, and the mask is the one that the tag offset goes with, exactly when the
      size is at least one full set. Below that there is no set, and the mask wraps to all ones. */
  method MakeGeometry(size: nat, assoc: nat, blockSize: nat, mshrNum: nat, ghost s: nat, ghost a: nat, ghost b: nat)
    returns (g: Geometry, mask: int)
    requires size == Pow2(s) && assoc == Pow2(a) && blockSize == Pow2(b) && size < 0x8000_0000
    ensures g.Valid() && g.assoc == assoc && g.mshrNum == mshrNum && Pow2(g.indexOffset) == blockSize
    ensures mask == g.Sets() - 1 <==> blockSize * assoc <= size
    ensures g.Sets() * (blockSize * assoc) == size <==> blockSize * assoc <= size
    ensures blockSize * assoc > size ==> mask == 0xFFFF_FFFF && g.tagOffset == g.indexOffset
  {
    MulLe(1, blockSize, assoc);
    var full: nat := blockSize * assoc;
    DivNat(size, full);
    var blockNum := size / full;
    mask := (blockNum - 1) % 0x1_0000_0000;
    var indexOffset := CalcLog2(blockSize);
    var setBits := CalcLog2(blockNum);
    hide Pow2;
    Log2Unique(b, indexOffset);
    if full <= size { WholeSets(s, a, b, setBits); } else { NoSets(size, full); }
    g := Geometry(assoc, indexOffset, setBits + indexOffset, mshrNum);
  }

  lemma DivNat(a: nat, m: nat)
    requires m > 0
    ensures 0 <= a / m
  {}

  // A size of at least one full set is a whole number of sets.
  lemma WholeSets(s: nat, a: nat, b: nat, setBits: nat)
    requires Pow2(b) * Pow2(a) <= Pow2(s) < 0x8000_0000
    requires var blockNum := Pow2(s) / (Pow2(b) * Pow2(a)); Pow2(setBits) <= blockNum < Pow2(setBits + 1)
    ensures var blockNum := Pow2(s) / (Pow2(b) * Pow2(a));
            && blockNum == Pow2(setBits) && blockNum * (Pow2(b) * Pow2(a)) == Pow2(s)
            && (blockNum - 1) % 0x1_0000_0000 == blockNum - 1
  {
    hide Pow2;
    SetCount(s, a, b);
    Log2Unique(s - b - a, setBits);
    MaskFits(Pow2(setBits), Pow2(b) * Pow2(a), Pow2(s));
  }

  lemma NoSets(size: nat, full: nat)
    requires size < full
    ensures size / full == 0 && (size / full - 1) % 0x1_0000_0000 == 0xFFFF_FFFF && Pow2(0) == 1
  {
    DivSmall(size, full);
  }

  lemma MaskFits(sets: nat, full: nat, size: nat)
    requires 0 < sets && 0 < full && sets == size / full && size < 0x8000_0000
    ensures (sets - 1) % 0x1_0000_0000 == sets - 1
  {
    DivMod(size, full);
    MulLe(1, full, sets);
  }

  lemma SetCount(s: nat, a: nat, b: nat)
    requires Pow2(b) * Pow2(a) <= Pow2(s)
    ensures b + a <= s
    ensures Pow2(b) * Pow2(a) > 0 && Pow2(s) / (Pow2(b) * Pow2(a)) == Pow2(s - b - a)
    ensures Pow2(s - b - a) * (Pow2(b) * Pow2(a)) == Pow2(s)
  {
    Pow2Adds(b, a);
    if s < b + a { Pow2Mono(s + 1, b + a); }
    Pow2Adds(s - b - a, b + a);
    DivUnique(Pow2(s), Pow2(b + a), Pow2(s - b - a), 0);
  }
}
