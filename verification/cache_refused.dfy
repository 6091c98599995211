/** A run in which a lower cache refuses a miss, and inclusion is lost. */
module CacheRefused {
  import opened BitArithmetic
  import opened CacheAddress
  import opened CacheLines
  import opened CacheLevel
  import opened CacheTree
  import opened CacheUnlock
  import opened CacheChain
  import opened CacheSystems

  // Two levels of two sets of one line, the lower one with a single miss register.
  function TwoLevels(): Wiring {
    Wiring(0, [Geometry(1, 0, 1, 2), Geometry(1, 0, 1, 1)], [1, -1], [[], [0]])
  }

  lemma TwoLevelsGeometry(c: nat, addr: int)
    requires c < 2
    ensures var g := TwoLevels().geo[c];
            g.Valid() && g.Index(addr) == addr % 2 && g.Tag(addr) == addr / 2
                && g.Block(addr) == TwoLevels().Block(addr) == addr
  {
    assert Pow2(0) == 1 && Pow2(1) == 2;
  }

  lemma TwoLevelsValid()
    ensures TwoLevels().Valid()
  {
    hide Pow2;
    assert TwoLevels().geo[0].Valid() && TwoLevels().geo[1].Valid();
    assert TwoLevels().higher[1][0] == 0;
  }

  // Caches of which the upper one is empty and the lower one is fetching block 0.
  ghost predicate FetchingZero(cs: seq<Cache>) {
    && |cs| == 2 && cs[0] == Cache(map[], []) && SetAt(cs[1], 1) == []
    && exists node: nat :: cs[1].mshr == [Mshr(0, node)]
  }

  lemma TwoLevelsEmpty(cs: seq<Cache>)
    requires TwoLevels().Valid() && cs == seq(2, _ => Cache(map[], []))
    ensures var w := TwoLevels(); WillAccept(w, cs, 1, 0) && !Hits(w, cs, 1, 0) && !Merges(w, cs, 1, 0)
  {
    hide Wiring.Valid, Geometry.Index, Geometry.Tag;
  }

  lemma TwoLevelsFetched(cs: seq<Cache>, cs': seq<Cache>)
    requires TwoLevels().Valid() && cs == seq(2, _ => Cache(map[], []))
        && Fetched(TwoLevels(), cs, cs', 1, Request(false, 0))
    ensures FetchingZero(cs')
  {
    hide Wiring.Valid, Geometry.Tag, Geometry.Index;
    TwoLevelsGeometry(1, 0);
    assert SetAt(cs[1], 0) == [] && cs[1].mshr == [];
    assert SetAt(cs'[1], 1) == SetAt(cs[1], 1);
    var node: nat :| cs'[1].mshr == cs[1].mshr + [Mshr(0, node)];
    assert cs'[1].mshr == [Mshr(0, node)];
  }

  // The upper cache has room for block 1, and the lower one no miss register.
  lemma TwoLevelsUpper(cs: seq<Cache>)
    requires TwoLevels().Valid() && FetchingZero(cs)
    ensures !Hits(TwoLevels(), cs, 0, 1) && !Merges(TwoLevels(), cs, 0, 1)
    ensures HasRoom(TwoLevels(), cs, 0, 1) && |cs[0].mshr| == 0
  {
    hide Wiring.Valid, Geometry.Valid, Geometry.Tag, Geometry.Index, Geometry.Block, FindVictim;
  }

  lemma TwoLevelsLower(cs: seq<Cache>)
    requires TwoLevels().Valid() && FetchingZero(cs)
    ensures var w := TwoLevels(); !Hits(w, cs, 1, 1) && !Merges(w, cs, 1, 1) && |cs[1].mshr| == 1
  {
    hide Wiring.Valid, Geometry.Valid, Geometry.Tag, Geometry.Index, Geometry.Block;
    TwoLevelsGeometry(1, 1);
    TwoLevelsGeometry(1, 0);
    var node: nat :| cs[1].mshr == [Mshr(0, node)];
    assert SetAt(cs[1], TwoLevels().geo[1].Index(1)) == [];
    assert cs[1].mshr[0].addr == 0;
  }

  lemma TwoLevelsRefuse(cs: seq<Cache>)
    requires TwoLevels().Valid() && FetchingZero(cs)
    ensures WillAccept(TwoLevels(), cs, 0, 1) && !ChainAccepts(TwoLevels(), cs, 0, 1)
  {
    hide Wiring.Valid, Geometry.Valid, Hits, Merges, HasRoom;
    TwoLevelsUpper(cs);
    TwoLevelsLower(cs);
    assert !ChainAccepts(TwoLevels(), cs, 1, 1);
  }

  /** A refused miss: while the only miss register of the lower cache is in use, the upper cache still accepts
      a read of another block, and is left waiting for a block that the lower cache never fetches. */
  method RefusedBelow() returns (s: CacheSystem, accepted: bool, ghost hole: int)
    ensures accepted && hole == 0 && s.w == TwoLevels() && s.w.Valid() && |s.caches| == 2
    ensures Locked(s.V(), 0, 1) && s.V()(1, 1) == None && !Pairs(s.w, s.V(), -1, 1)
  {
    hide Wiring.Valid, Geometry.Valid, Geometry.Tag, Geometry.Index, Geometry.Block, Pairs, Accounted, CacheOk,
         ViewOf, Fetched, Hits, Merges, WillAccept, ChainAccepts, FetchingZero, Waits;
    TwoLevelsValid();
    TwoLevelsGeometry(0, 0);
    TwoLevelsGeometry(0, 1);
    s := new CacheSystem(TwoLevels());
    ghost var empty := s.caches;
    TwoLevelsEmpty(empty);
    accepted, hole := s.Send(1, Request(false, 0), -1);
    TwoLevelsFetched(empty, s.caches);
    TwoLevelsRefuse(s.caches);
    NothingMissing(s.w, s.V(), 0, 1);
    accepted, hole := s.Send(0, Request(false, 1), -1);
  }
}
