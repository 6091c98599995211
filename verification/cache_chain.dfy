/** When a miss is taken by every cache it is sent on to, all the way down. */
module CacheChain {
  import opened CacheAddress
  import opened CacheLines
  import opened CacheLevel
  import opened CacheTree
  import opened CacheUnlock
  import opened CacheEffects

  /** Every cache from here down to the first that hits or merges has a free miss register and room. */
  predicate ChainAccepts(w: Wiring, cs: seq<Cache>, c: nat, addr: int)
    requires w.Valid() && |cs| == |w.geo| && c < |cs|
    decreases |w.geo| - c
  {
    || Hits(w, cs, c, addr)
    || Merges(w, cs, c, addr)
    || (&& |cs[c].mshr| < w.geo[c].mshrNum && HasRoom(w, cs, c, addr)
        && (w.lower[c] == -1 || ChainAccepts(w, cs, w.lower[c], addr)))
  }

  // Who answers an access: a cache that has the block, a miss under way, or memory; or nobody does.
  datatype Answer = Answered | Awaited | Missed | Refused

  /** Told from the state before: the first cache from here down that hits or merges decides, if every cache before it
      takes the miss; if none does, the miss goes to memory. */
  function AnswerOf(w: Wiring, cs: seq<Cache>, c: nat, addr: int): Answer
    requires w.Valid() && |cs| == |w.geo| && c < |cs|
    decreases |w.geo| - c
  {
    if Hits(w, cs, c, addr) then Answered
    else if Merges(w, cs, c, addr) then Awaited
    else if |cs[c].mshr| >= w.geo[c].mshrNum || !HasRoom(w, cs, c, addr) then Refused
    else if w.lower[c] == -1 then Missed
    else AnswerOf(w, cs, w.lower[c], addr)
  }

  lemma {:induction false} RefusedMeaning(w: Wiring, cs: seq<Cache>, c: nat, addr: int)
    requires w.Valid() && |cs| == |w.geo| && c < |cs|
    ensures ChainAccepts(w, cs, c, addr) <==> AnswerOf(w, cs, c, addr) != Refused
    decreases |w.geo| - c
  {
    hide Hits, Merges, HasRoom;
    if w.lower[c] != -1 { RefusedMeaning(w, cs, w.lower[c], addr); }
  }

  // A cache that takes a miss and sends it on.
  predicate Passes(w: Wiring, cs: seq<Cache>, x: nat, addr: int)
    requires w.Valid() && |cs| == |w.geo| && x < |cs|
  {
    !Hits(w, cs, x, addr) && !Merges(w, cs, x, addr) && |cs[x].mshr| < w.geo[x].mshrNum && HasRoom(w, cs, x, addr)
  }

  // Every cache from `c` down to just above `d` does.
  ghost predicate PassesTo(w: Wiring, cs: seq<Cache>, c: nat, d: nat, addr: int)
    requires w.Valid() && |cs| == |w.geo| && c < |cs| && d < |cs|
  {
    w.Above(c, d) && forall x: nat | x < |cs| && w.Above(c, x) && x < d :: Passes(w, cs, x, addr)
  }

  /** The answer without the recursion: there is one cache that decides, the first on the way down that does not pass
      the miss on; and if all do, memory answers. */
  lemma {:induction false} WhoAnswers(w: Wiring, cs: seq<Cache>, c: nat, addr: int) returns (d: nat)
    requires w.Valid() && |cs| == |w.geo| && c < |cs|
    ensures d < |cs| && PassesTo(w, cs, c, d, addr)
    ensures AnswerOf(w, cs, c, addr) == Answered <==> Hits(w, cs, d, addr)
    ensures AnswerOf(w, cs, c, addr) == Awaited <==> !Hits(w, cs, d, addr) && Merges(w, cs, d, addr)
    ensures AnswerOf(w, cs, c, addr) == Missed <==> Passes(w, cs, d, addr) && w.lower[d] == -1
    ensures Passes(w, cs, d, addr) ==> w.lower[d] == -1
    decreases |w.geo| - c
  {
    hide Hits, Merges, HasRoom;
    if !Passes(w, cs, c, addr) || w.lower[c] == -1 {
      d := c;
      forall x: nat | x < |cs| && w.Above(c, x) ensures c <= x { w.AboveLe(c, x); }
    } else {
      d := WhoAnswers(w, cs, w.lower[c], addr);
    }
  }

  // Which case of an access it is, told from the view.
  lemma SendCase(w: Wiring, cs: seq<Cache>, unused: nat, c: nat, addr: int)
    requires w.Valid() && AllOk(w, cs, unused) && c < |cs|
    ensures var b, v := w.Block(addr), ViewOf(w, cs);
            && (Hits(w, cs, c, addr) <==> v(c, b).Some? && !Locked(v, c, b))
            && (Merges(w, cs, c, addr) <==> Locked(v, c, b))
            && |cs[c].mshr| <= w.geo[c].mshrNum
            && (AllSetsLocked(w.geo[c], SetAt(cs[c], w.geo[c].Index(addr))) ==> !HasRoom(w, cs, c, addr))
  {
    Seen(w, cs, unused, c, addr);
    assert CacheOk(w.geo[c], cs[c], unused);
    MshrIffLocked(w.geo[c], cs[c], addr, unused);
  }

  // A block of the same set that is held here and that no cache from here up has locked.
  ghost predicate Spare(w: Wiring, v: View, c: nat, addr: int, z: int)
    requires w.Valid() && c < |w.geo|
  {
    z % w.geo[c].Sets() == w.geo[c].Index(addr) && v(c, z).Some? && UnlockedAbove(w, v, c, z)
  }

  /** There is room for a block exactly when its set is not full or holds a block locked nowhere from here up. */
  lemma RoomMeaning(w: Wiring, cs: seq<Cache>, unused: nat, c: nat, addr: int)
    requires w.Valid() && AllOk(w, cs, unused) && c < |cs| && ViewOf(w, cs)(c, w.Block(addr)) == None
    requires forall z | z != w.Block(addr) :: PairsAbove(w, ViewOf(w, cs), c, z)
    ensures HasRoom(w, cs, c, addr) <==>
            || |SetAt(cs[c], w.geo[c].Index(addr))| < w.geo[c].assoc
            || exists z :: Spare(w, ViewOf(w, cs), c, addr, z)
  {
    hide PairsAbove, UnlockedAbove, MshrOk, Evictable;
    var v, g, idx := ViewOf(w, cs), w.geo[c], w.geo[c].Index(addr);
    var ls := SetAt(cs[c], idx);
    assert CacheOk(g, cs[c], unused) && SetOk(g, idx, ls, unused);
    var k := FindVictim(w, cs, c, ls);
    if k < |ls| {
      var z := w.Block(ls[k].addr);
      Seen(w, cs, unused, c, ls[k].addr);
      FoundAt(ls, k);
      VictimUnlocked(w, cs, unused, c, idx, k);
      g.TagOfBlock(ls[k].addr);
      assert Spare(w, v, c, addr, z);
    }
    if z :| Spare(w, v, c, addr, z) {
      var i := SpareLine(w, cs, unused, c, addr, z);
      assert k <= i;
    }
  }

  lemma SpareLine(w: Wiring, cs: seq<Cache>, unused: nat, c: nat, addr: int, z: int) returns (i: nat)
    requires w.Valid() && AllOk(w, cs, unused) && c < |cs|
    requires Spare(w, ViewOf(w, cs), c, addr, z) && PairsAbove(w, ViewOf(w, cs), c, z)
    ensures i < |SetAt(cs[c], w.geo[c].Index(addr))|
    ensures Evictable(w, cs, c, SetAt(cs[c], w.geo[c].Index(addr))[i])
  {
    var v, g, idx := ViewOf(w, cs), w.geo[c], w.geo[c].Index(addr);
    var ls := SetAt(cs[c], idx);
    assert CacheOk(g, cs[c], unused) && SetOk(g, idx, ls, unused);
    i := FindTag(ls, z / g.Sets());
    BlockPlace(g, ls[i].addr, z);
    assert w.Above(c, c) && !Locked(v, c, z);
    HigherUnlockMeaning(w, cs, unused, c, 0, ls[i].addr);
    forall j: nat, x: nat | j < |w.higher[c]| && x < |w.geo| && w.Above(x, w.higher[c][j]) ensures !Locked(v, x, z) {
      w.AboveOnce(x, c, j, j);
    }
  }

  /** Two states in which every cache below `c` decides alike about a miss on block `b`. */
  ghost predicate Alike(w: Wiring, cs: seq<Cache>, cs': seq<Cache>, c: nat, b: int)
    requires w.Valid() && |cs| == |w.geo|
  {
    && |cs'| == |cs|
    && (forall x: nat, z | z != b :: Locked(ViewOf(w, cs'), x, z) <==> Locked(ViewOf(w, cs), x, z))
    && (forall x: nat, z | c < x :: ViewOf(w, cs')(x, z).Some? <==> ViewOf(w, cs)(x, z).Some?)
    && (forall x: nat | c < x :: ViewOf(w, cs')(x, b) == ViewOf(w, cs)(x, b))
    && forall x: nat | c < x < |cs| :: SameSizes(cs[x], cs'[x])
  }

  ghost predicate SameSizes(c: Cache, c': Cache) {
    |c'.mshr| == |c.mshr| && forall idx :: |SetAt(c', idx)| == |SetAt(c, idx)|
  }

  lemma AlikeRoom(w: Wiring, cs: seq<Cache>, cs': seq<Cache>, unused: nat, unused': nat, c: nat, d: nat, addr: int)
    requires w.Valid() && AllOk(w, cs, unused) && AllOk(w, cs', unused') && c < d < |cs|
    requires Alike(w, cs, cs', c, w.Block(addr)) && ViewOf(w, cs)(d, w.Block(addr)) == None
    requires forall z | z != w.Block(addr) :: PairsAbove(w, ViewOf(w, cs), d, z) && PairsAbove(w, ViewOf(w, cs'), d, z)
    ensures HasRoom(w, cs, d, addr) <==> HasRoom(w, cs', d, addr)
  {
    hide PairsAbove, CacheOk, FindVictim, HasRoom;
    RoomMeaning(w, cs, unused, d, addr);
    RoomMeaning(w, cs', unused', d, addr);
    var v, v' := ViewOf(w, cs), ViewOf(w, cs');
    assert SameSizes(cs[d], cs'[d]);
    forall z ensures Spare(w, v, d, addr, z) <==> Spare(w, v', d, addr, z) {
      if z != w.Block(addr) {
        assert forall x: nat :: Locked(v', x, z) <==> Locked(v, x, z);
      }
    }
  }

  // The caches further down decide alike.
  lemma {:induction false} ChainSame(w: Wiring, cs: seq<Cache>, cs': seq<Cache>, unused: nat, unused': nat, c: nat,
      d: nat, addr: int)
    requires w.Valid() && AllOk(w, cs, unused) && AllOk(w, cs', unused') && c < d < |cs|
    requires Alike(w, cs, cs', c, w.Block(addr))
    requires forall x: nat, z | x < |w.geo| && z != w.Block(addr) ::
               PairOk(w, ViewOf(w, cs), x, z) && PairOk(w, ViewOf(w, cs'), x, z)
    ensures ChainAccepts(w, cs, d, addr) <==> ChainAccepts(w, cs', d, addr)
    ensures AnswerOf(w, cs, d, addr) == AnswerOf(w, cs', d, addr)
    decreases |w.geo| - d
  {
    hide CacheOk, HasRoom, Hits, Merges, PairOk;
    SendCase(w, cs, unused, d, addr);
    SendCase(w, cs', unused', d, addr);
    assert SameSizes(cs[d], cs'[d]);
    if ViewOf(w, cs)(d, w.Block(addr)) == None {
      AlikeRoom(w, cs, cs', unused, unused', c, d, addr);
    }
    if w.lower[d] != -1 { ChainSame(w, cs, cs', unused, unused', c, w.lower[d], addr); }
  }

  // An eviction from `c` changes nothing for the caches below but the order of one set.
  lemma EvictedAlike(w: Wiring, cs: seq<Cache>, cs': seq<Cache>, unused: nat, c: nat, idx: int, k: nat, b: int)
    requires w.Valid() && AllOk(w, cs, unused) && c < |cs| && k < |SetAt(cs[c], idx)|
    requires var z := w.Block(SetAt(cs[c], idx)[k].addr);
             && Evicts(w, cs, cs', c, idx, k, unused) && Evicted(w, ViewOf(w, cs), ViewOf(w, cs'), c, z)
             && z != b && UnlockedAbove(w, ViewOf(w, cs), c, z) && PairOk(w, ViewOf(w, cs), c, z)
             && ViewOf(w, cs)(c, z).Some?
    ensures Alike(w, cs, cs', c, b)
  {
    hide DirtyAbove, CacheOk, ViewOf, Touched, StatusIn;
    var l, v, v' := SetAt(cs[c], idx)[k], ViewOf(w, cs), ViewOf(w, cs');
    var z := w.Block(l.addr);
    assert w.Above(c, c);
    forall x: nat, y ensures Locked(v', x, y) <==> Locked(v, x, y) {
      if y == z && x < |w.geo| && w.Above(x, c) { assert !Locked(v, x, z); }
    }
    forall x: nat, y | c < x ensures v'(x, y).Some? <==> v(x, y).Some? {
      if x < |w.geo| && w.Above(x, c) { w.AboveLe(x, c); }
    }
    forall x: nat | c < x < |cs| ensures SameSizes(cs[x], cs'[x]) && v'(x, b) == v(x, b) {
      if w.Above(x, c) { w.AboveLe(x, c); }
      if x == w.lower[c] { TouchSizes(w, cs, unused, x, l.addr, Dirty(v, x, z) || DirtyAbove(w, v, c, z)); }
    }
  }

  lemma TouchSizes(w: Wiring, cs: seq<Cache>, unused: nat, x: nat, addr: int, dirty: bool)
    requires w.Valid() && AllOk(w, cs, unused) && x < |cs|
    ensures SameSizes(cs[x], Touched(w.geo[x], cs[x], addr, unused, dirty))
  {}

  // So does a line appended to a set of `c`.
  lemma InsertedAlike(w: Wiring, cs: seq<Cache>, mid: seq<Cache>, c: nat, c': Cache, b: int, s: Option<Status>)
    requires w.Valid() && |cs| == |w.geo| && c < |cs| && Alike(w, cs, mid, c, b)
    requires One(ViewOf(w, mid), ViewOf(w, mid[c := c']), c, b, s)
    ensures Alike(w, cs, mid[c := c'], c, b)
  {
    forall x: nat | c < x < |cs| ensures SameSizes(cs[x], mid[c := c'][x]) {
      assert SameSizes(cs[x], mid[x]);
    }
  }

  // With something missing below `hole`, inclusion does not hold.
  lemma MissingBreaks(w: Wiring, v: View, c: nat, hole: int, b: int)
    requires w.Valid() && c < |w.geo| && MissingBelow(w, v, c, hole, b) && Pairs(w, v, hole, b)
    ensures Pairs(w, v, -1, b) <==> hole == -1
  {
    if hole != -1 { assert !PairOk(w, v, hole, b); }
  }
}
