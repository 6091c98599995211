/** What back-invalidation, eviction and completion do to a whole tree of caches. */
module CacheEffects {
  import opened CacheAddress
  import opened CacheLines
  import opened CacheLevel
  import opened CacheTree
  import opened CacheUnlock

  // A set created, empty, when it was not there.
  function WithSet(g: Geometry, c: Cache, addr: int): Cache
    requires g.Valid()
  {
    if g.Index(addr) in c.lines then c else PutSet(c, g.Index(addr), [])
  }

  // The line of an address erased, if there is one.
  function Dropped(g: Geometry, c: Cache, addr: int): Cache
    requires g.Valid()
  {
    var ls := SetAt(c, g.Index(addr));
    var k := FindTag(ls, g.Tag(addr));
    if k < |ls| then PutSet(c, g.Index(addr), Erase(ls, k)) else c
  }

  // One cache after its line was dropped: it may also have gained an empty set.
  ghost predicate Drops(g: Geometry, c: Cache, c': Cache, addr: int)
    requires g.Valid()
  {
    c' == Dropped(g, c, addr) || (c' == WithSet(g, c, addr) && StatusIn(g, c, g.Block(addr)) == None)
  }

  lemma WithSetOk(g: Geometry, c: Cache, addr: int, unused: nat)
    requires g.Valid() && CacheOk(g, c, unused)
    ensures CacheOk(g, WithSet(g, c, addr), unused)
    ensures forall x :: StatusIn(g, WithSet(g, c, addr), x) == StatusIn(g, c, x)
    ensures forall idx :: SetAt(WithSet(g, c, addr), idx) == SetAt(c, idx)
  {
    var c' := WithSet(g, c, addr);
    assert forall idx :: SetAt(c', idx) == SetAt(c, idx);
    forall i | 0 <= i < |c'.mshr| ensures PointsTo(g, c', c'.mshr[i]) {
      assert PointsTo(g, c, c.mshr[i]);
    }
    forall idx | idx in c'.lines ensures SetOk(g, idx, c'.lines[idx], unused) {
      assert idx in c.lines ==> SetOk(g, idx, c.lines[idx], unused);
    }
  }

  lemma DropsOk(g: Geometry, c: Cache, c': Cache, addr: int, unused: nat)
    requires g.Valid() && CacheOk(g, c, unused) && Drops(g, c, c', addr)
    requires StatusIn(g, c, g.Block(addr)).Some? ==> !StatusIn(g, c, g.Block(addr)).value.locked
    ensures CacheOk(g, c', unused) && OneStatus(g, c, c', g.Block(addr), None)
  {
    StatusAt(g, c, addr);
    var ls := SetAt(c, g.Index(addr));
    var k := FindTag(ls, g.Tag(addr));
    if k < |ls| && c' == Dropped(g, c, addr) {
      RemoveOk(g, c, addr, unused, k);
    } else {
      WithSetOk(g, c, addr, unused);
    }
  }

  // Reached from `c` through one of the first `i` caches above it.
  ghost predicate Within(w: Wiring, x: nat, c: nat, i: nat)
    requires w.Valid() && x < |w.geo| && c < |w.geo| && i <= |w.higher[c]|
  {
    exists j: nat | j < i :: w.Above(x, w.higher[c][j])
  }

  lemma WithinAll(w: Wiring, x: nat, c: nat)
    requires w.Valid() && x < |w.geo| && c < |w.geo|
    ensures Within(w, x, c, |w.higher[c]|) <==> w.Above(x, c) && x != c
  {
    if w.Above(x, c) && x != c { var j := w.AboveStep(x, c); }
    if Within(w, x, c, |w.higher[c]|) {
      var j: nat :| j < |w.higher[c]| && w.Above(x, w.higher[c][j]);
      w.AboveOnce(x, c, j, j);
    }
  }

  lemma WithinAbove(w: Wiring, x: nat, c: nat, i: nat)
    requires w.Valid() && x < |w.geo| && c < |w.geo| && i <= |w.higher[c]| && Within(w, x, c, i)
    ensures w.Above(x, c) && x != c
  {
    var j: nat :| j < i && w.Above(x, w.higher[c][j]);
    w.AboveOnce(x, c, j, j);
  }

  lemma WithinNext(w: Wiring, x: nat, c: nat, i: nat)
    requires w.Valid() && x < |w.geo| && c < |w.geo| && i < |w.higher[c]|
    ensures Within(w, x, c, i + 1) <==> Within(w, x, c, i) || w.Above(x, w.higher[c][i])
    ensures w.Above(x, w.higher[c][i]) ==> !Within(w, x, c, i) && w.Above(x, c) && x != c
    ensures Within(w, x, c, i) ==> w.Above(x, c) && x != c
  {
    if w.Above(x, w.higher[c][i]) {
      w.AboveOnce(x, c, i, i);
      if Within(w, x, c, i) {
        var j: nat :| j < i && w.Above(x, w.higher[c][j]);
        w.AboveOnce(x, c, i, j);
      }
    }
    if Within(w, x, c, i) {
      var j: nat :| j < i && w.Above(x, w.higher[c][j]);
      w.AboveOnce(x, c, j, j);
    }
  }

  // The line of `addr` is gone from the caches reached through the first `i` above `c`, which itself is now `self`.
  ghost predicate DropsWithin(w: Wiring, cs: seq<Cache>, cs': seq<Cache>, c: nat, i: nat, addr: int, self: Cache)
    requires w.Valid() && |cs| == |w.geo| && c < |cs| && i <= |w.higher[c]|
  {
    && |cs'| == |cs| && cs'[c] == self
    && forall x: nat | x < |cs| && x != c ::
         if Within(w, x, c, i) then Drops(w.geo[x], cs[x], cs'[x], addr) else cs'[x] == cs[x]
  }

  ghost predicate DropsAbove(w: Wiring, cs: seq<Cache>, cs': seq<Cache>, c: nat, addr: int)
    requires w.Valid() && |cs| == |w.geo| && c < |cs|
  {
    && |cs'| == |cs|
    && forall x: nat | x < |cs| ::
         if w.Above(x, c) then Drops(w.geo[x], cs[x], cs'[x], addr) else cs'[x] == cs[x]
  }

  lemma DropsStep(w: Wiring, cs: seq<Cache>, was: seq<Cache>, cs': seq<Cache>, c: nat, i: nat, addr: int, self: Cache)
    requires w.Valid() && |cs| == |w.geo| && c < |cs| && i < |w.higher[c]|
    requires DropsWithin(w, cs, was, c, i, addr, self) && DropsAbove(w, was, cs', w.higher[c][i], addr)
    ensures DropsWithin(w, cs, cs', c, i + 1, addr, self)
  {
    WithinNext(w, c, c, i);
    forall x: nat | x < |cs| && x != c
      ensures if Within(w, x, c, i + 1) then Drops(w.geo[x], cs[x], cs'[x], addr) else cs'[x] == cs[x]
    {
      WithinNext(w, x, c, i);
    }
  }

  lemma DropsAll(w: Wiring, cs: seq<Cache>, cs': seq<Cache>, c: nat, addr: int, self: Cache)
    requires w.Valid() && |cs| == |w.geo| && c < |cs| && DropsWithin(w, cs, cs', c, |w.higher[c]|, addr, self)
    ensures forall x: nat | x < |cs| && x != c ::
              if w.Above(x, c) then Drops(w.geo[x], cs[x], cs'[x], addr) else cs'[x] == cs[x]
    ensures Drops(w.geo[c], cs[c], self, addr) ==> DropsAbove(w, cs, cs', c, addr)
  {
    forall x: nat | x < |cs| && x != c
      ensures if w.Above(x, c) then Drops(w.geo[x], cs[x], cs'[x], addr) else cs'[x] == cs[x]
    {
      WithinAll(w, x, c);
    }
  }

  ghost predicate AgreeAbove(w: Wiring, v: View, v': View, c: nat, b: int)
    requires w.Valid() && c < |w.geo|
  {
    forall x: nat | x < |w.geo| && w.Above(x, c) :: v(x, b) == v'(x, b)
  }

  lemma Agree(w: Wiring, v: View, v': View, c: nat, b: int)
    requires w.Valid() && c < |w.geo| && AgreeAbove(w, v, v', c, b)
    ensures DirtyAbove(w, v, c, b) <==> DirtyAbove(w, v', c, b)
    ensures UnlockedAbove(w, v, c, b) ==> UnlockedAbove(w, v', c, b)
    ensures PairsAbove(w, v, c, b) ==> PairsAbove(w, v', c, b)
  {
    if DirtyAbove(w, v, c, b) {
      var x: nat :| x < |w.geo| && w.Above(x, c) && Dirty(v, x, b);
      assert Dirty(v', x, b);
    }
    if DirtyAbove(w, v', c, b) {
      var x: nat :| x < |w.geo| && w.Above(x, c) && Dirty(v', x, b);
      assert Dirty(v, x, b);
    }
    if UnlockedAbove(w, v, c, b) {
      forall x: nat | x < |w.geo| && w.Above(x, c) ensures !Locked(v', x, b) { assert !Locked(v, x, b); }
    }
    if PairsAbove(w, v, c, b) {
      forall x: nat | x < |w.geo| && x != c && w.Above(x, c) ensures PairOk(w, v', x, b) {
        assert PairOk(w, v, x, b) && w.Above(w.lower[x], c);
      }
    }
  }

  // Part of the way through, the next subtree to be invalidated is still as it was.
  lemma NextIntact(w: Wiring, cs: seq<Cache>, cs': seq<Cache>, c: nat, i: nat, addr: int, self: Cache)
    requires w.Valid() && |cs| == |w.geo| && c < |cs| && i < |w.higher[c]|
    requires DropsWithin(w, cs, cs', c, i, addr, self)
    ensures AgreeAbove(w, ViewOf(w, cs), ViewOf(w, cs'), w.higher[c][i], w.Block(addr))
  {
    forall x: nat | x < |w.geo| && w.Above(x, w.higher[c][i])
      ensures ViewOf(w, cs)(x, w.Block(addr)) == ViewOf(w, cs')(x, w.Block(addr))
    {
      WithinNext(w, x, c, i);
    }
  }

  lemma DropsWithinOk(w: Wiring, cs: seq<Cache>, cs': seq<Cache>, unused: nat, c: nat, i: nat, addr: int, self: Cache)
    requires w.Valid() && AllOk(w, cs, unused) && c < |cs| && i <= |w.higher[c]|
    requires DropsWithin(w, cs, cs', c, i, addr, self) && CacheOk(w.geo[c], self, unused)
    requires UnlockedAbove(w, ViewOf(w, cs), c, w.Block(addr))
    ensures AllOk(w, cs', unused)
  {
    forall x: nat | x < |cs'| ensures CacheOk(w.geo[x], cs'[x], unused) {
      if x != c {
        assert CacheOk(w.geo[x], cs[x], unused);
        if Within(w, x, c, i) {
          WithinAbove(w, x, c, i);
          assert !Locked(ViewOf(w, cs), x, w.Block(addr));
          DropsOk(w.geo[x], cs[x], cs'[x], addr, unused);
        }
      }
    }
  }

  lemma DropsAboveOk(w: Wiring, cs: seq<Cache>, cs': seq<Cache>, unused: nat, c: nat, addr: int)
    requires w.Valid() && AllOk(w, cs, unused) && c < |cs|
    requires DropsAbove(w, cs, cs', c, addr) && UnlockedAbove(w, ViewOf(w, cs), c, w.Block(addr))
    ensures AllOk(w, cs', unused)
    ensures Cleared(w, ViewOf(w, cs), ViewOf(w, cs'), c, w.Block(addr))
  {
    forall x: nat | x < |cs| && w.Above(x, c)
      ensures CacheOk(w.geo[x], cs'[x], unused) && OneStatus(w.geo[x], cs[x], cs'[x], w.Block(addr), None)
    {
      assert !Locked(ViewOf(w, cs), x, w.Block(addr)) && CacheOk(w.geo[x], cs[x], unused);
      DropsOk(w.geo[x], cs[x], cs'[x], addr, unused);
    }
  }

  // Dirty somewhere above `c`, through one of the first `i` caches above it.
  ghost predicate DirtyWithin(w: Wiring, v: View, c: nat, i: nat, b: int)
    requires w.Valid() && c < |w.geo| && i <= |w.higher[c]|
  {
    exists j: nat | j < i :: DirtyAbove(w, v, w.higher[c][j], b)
  }

  lemma DirtyWithinAll(w: Wiring, v: View, c: nat, b: int)
    requires w.Valid() && c < |w.geo|
    ensures DirtyAbove(w, v, c, b) <==> Dirty(v, c, b) || DirtyWithin(w, v, c, |w.higher[c]|, b)
  {
    if DirtyAbove(w, v, c, b) {
      var x: nat :| x < |w.geo| && w.Above(x, c) && Dirty(v, x, b);
      if x != c { var j := w.AboveStep(x, c); assert DirtyAbove(w, v, w.higher[c][j], b); }
    }
    if Dirty(v, c, b) { assert w.Above(c, c); }
    if DirtyWithin(w, v, c, |w.higher[c]|, b) {
      var j: nat :| j < |w.higher[c]| && DirtyAbove(w, v, w.higher[c][j], b);
      var x: nat :| x < |w.geo| && w.Above(x, w.higher[c][j]) && Dirty(v, x, b);
      w.AboveOnce(x, c, j, j);
    }
  }

  // --- A whole eviction: the line of `l`, at `k` in its set of cache `c`. ---

  /** The caches after an eviction: the victim is erased here, its copies above are dropped, and the cache
      below has it as most recently used line, dirty if it or any of those copies was. */
  ghost predicate Evicts(w: Wiring, cs: seq<Cache>, cs': seq<Cache>, c: nat, idx: int, k: nat, node: nat)
    requires w.Valid() && |cs| == |w.geo| && c < |cs| && k < |SetAt(cs[c], idx)|
  {
    var l := SetAt(cs[c], idx)[k];
    var b := w.Block(l.addr);
    && |cs'| == |cs| && cs'[c] == PutSet(cs[c], idx, Erase(SetAt(cs[c], idx), k))
    && forall x: nat | x < |cs| && x != c ::
         if w.Above(x, c) then Drops(w.geo[x], cs[x], cs'[x], l.addr)
         else cs'[x] == if x == w.lower[c]
           then Touched(w.geo[x], cs[x], l.addr, node, Dirty(ViewOf(w, cs), x, b) || DirtyAbove(w, ViewOf(w, cs), c, b))
           else cs[x]
  }

  // The three steps of an eviction together: above, below, and here.
  lemma EvictsSteps(w: Wiring, cs: seq<Cache>, mid: seq<Cache>, cs': seq<Cache>, c: nat, idx: int, k: nat, node: nat,
      dirty: bool)
    requires w.Valid() && |cs| == |w.geo| && c < |cs| && k < |SetAt(cs[c], idx)|
    requires dirty == DirtyAbove(w, ViewOf(w, cs), c, w.Block(SetAt(cs[c], idx)[k].addr))
    requires DropsWithin(w, cs, mid, c, |w.higher[c]|, SetAt(cs[c], idx)[k].addr, cs[c])
    requires var addr := SetAt(cs[c], idx)[k].addr;
             var d, self := w.lower[c], PutSet(cs[c], idx, Erase(SetAt(cs[c], idx), k));
             cs' == if d == -1 then mid[c := self] else
               mid[d := Touched(w.geo[d], mid[d], addr, node,
                                dirty || Dirty(ViewOf(w, mid), d, w.Block(addr)))][c := self]
    ensures Evicts(w, cs, cs', c, idx, k, node)
  {
    DropsAll(w, cs, mid, c, SetAt(cs[c], idx)[k].addr, cs[c]);
    if w.lower[c] != -1 && w.Above(w.lower[c], c) { w.AboveLe(w.lower[c], c); }
  }

  lemma EvictsOk(w: Wiring, cs: seq<Cache>, cs': seq<Cache>, unused: nat, c: nat, idx: int, k: nat)
    requires w.Valid() && AllOk(w, cs, unused) && c < |cs| && k < |SetAt(cs[c], idx)|
    requires Evicts(w, cs, cs', c, idx, k, unused)
    requires var l := SetAt(cs[c], idx)[k];
             && Evictable(w, cs, c, l) && PairsAbove(w, ViewOf(w, cs), c, w.Block(l.addr))
             && PairOk(w, ViewOf(w, cs), c, w.Block(l.addr))
    ensures AllOk(w, cs', if w.lower[c] == -1 then unused else unused + 1)
    ensures Evicted(w, ViewOf(w, cs), ViewOf(w, cs'), c, w.Block(SetAt(cs[c], idx)[k].addr))
  {
    var b := w.Block(SetAt(cs[c], idx)[k].addr);
    VictimUnlocked(w, cs, unused, c, idx, k);
    forall x: nat | x < |cs|
      ensures CacheOk(w.geo[x], cs'[x], if w.lower[c] == -1 then unused else unused + 1)
      ensures EvictedOne(w, cs, cs', c, b, x)
    {
      EvictsOne(w, cs, cs', unused, c, idx, k, x);
    }
    EvictedPointwise(w, cs, cs', c, b);
  }

  // What an eviction does to the block in one cache.
  ghost predicate EvictedOne(w: Wiring, cs: seq<Cache>, cs': seq<Cache>, c: nat, b: int, x: nat)
    requires w.Valid() && |cs| == |w.geo| && |cs'| == |cs| && c < |cs| && x < |cs|
  {
    var v := ViewOf(w, cs);
    if w.Above(x, c) then OneStatus(w.geo[x], cs[x], cs'[x], b, None)
    else if x == w.lower[c] then OneStatus(w.geo[x], cs[x], cs'[x], b,
        Some(Status(false, Dirty(v, x, b) || DirtyAbove(w, v, c, b))))
    else cs'[x] == cs[x]
  }

  lemma EvictsOne(w: Wiring, cs: seq<Cache>, cs': seq<Cache>, unused: nat, c: nat, idx: int, k: nat, x: nat)
    requires w.Valid() && AllOk(w, cs, unused) && c < |cs| && k < |SetAt(cs[c], idx)| && x < |cs|
    requires Evicts(w, cs, cs', c, idx, k, unused)
    requires var l := SetAt(cs[c], idx)[k];
             && w.geo[c].Index(l.addr) == idx && FindTag(SetAt(cs[c], idx), l.tag) == k && l.tag == w.geo[c].Tag(l.addr)
             && !l.locked && UnlockedAbove(w, ViewOf(w, cs), c, w.Block(l.addr))
             && PairOk(w, ViewOf(w, cs), c, w.Block(l.addr))
             && ViewOf(w, cs)(c, w.Block(l.addr)).Some?
    ensures CacheOk(w.geo[x], cs'[x], if w.lower[c] == -1 then unused else unused + 1)
    ensures EvictedOne(w, cs, cs', c, w.Block(SetAt(cs[c], idx)[k].addr), x)
  {
    hide SetsOk, MshrOk, OneStatus, Dropped, Touched, DirtyAbove, FindTag;
    var l, v := SetAt(cs[c], idx)[k], ViewOf(w, cs);
    var b := w.Block(l.addr);
    assert CacheOk(w.geo[x], cs[x], unused);
    assert w.Above(c, c) && !Locked(v, c, b);
    if x == c {
      RemoveOk(w.geo[c], cs[c], l.addr, unused, k);
      CacheOkGrows(w.geo[x], cs'[x], unused, unused + 1);
    } else if w.Above(x, c) {
      assert !Locked(v, x, b);
      DropsOk(w.geo[x], cs[x], cs'[x], l.addr, unused);
      CacheOkGrows(w.geo[x], cs'[x], unused, unused + 1);
    } else if x == w.lower[c] {
      TouchOk(w.geo[x], cs[x], l.addr, unused, Dirty(v, x, b) || DirtyAbove(w, v, c, b));
    } else {
      CacheOkGrows(w.geo[x], cs'[x], unused, unused + 1);
    }
  }

  lemma EvictedPointwise(w: Wiring, cs: seq<Cache>, cs': seq<Cache>, c: nat, b: int)
    requires w.Valid() && |cs| == |w.geo| && |cs'| == |cs| && c < |cs|
    requires forall x: nat | x < |cs| :: EvictedOne(w, cs, cs', c, b, x)
    ensures Evicted(w, ViewOf(w, cs), ViewOf(w, cs'), c, b)
  {
    forall x: nat, z
      ensures ViewOf(w, cs')(x, z) ==
        if z == b && x < |w.geo| && w.Above(x, c) then None
        else if z == b && x == w.lower[c] then Some(Status(false, Dirty(ViewOf(w, cs), x, b)
            || DirtyAbove(w, ViewOf(w, cs), c, b)))
        else ViewOf(w, cs)(x, z)
    {
      assert x < |cs| ==> EvictedOne(w, cs, cs', c, b, x);
    }
  }

  lemma CacheOkGrows(g: Geometry, c: Cache, unused: nat, unused': nat)
    requires g.Valid() && CacheOk(g, c, unused) && unused <= unused'
    ensures CacheOk(g, c, unused')
  {
    forall idx | idx in c.lines ensures SetOk(g, idx, c.lines[idx], unused') {
      assert SetOk(g, idx, c.lines[idx], unused);
    }
  }

  // --- Completion of a fetch, from a cache up. ---

  ghost predicate CompletesAbove(w: Wiring, cs: seq<Cache>, cs': seq<Cache>, c: nat, addr: int)
    requires w.Valid() && |cs| == |w.geo| && c < |cs|
  {
    && |cs'| == |cs|
    && forall x: nat | x < |cs| :: cs'[x] == if w.Above(x, c) then Completed(w.geo[x], cs[x], addr) else cs[x]
  }

  // The same part of the way: `c` itself and what is reached through the first `i` caches above it.
  ghost predicate CompletesWithin(w: Wiring, cs: seq<Cache>, cs': seq<Cache>, c: nat, i: nat, addr: int)
    requires w.Valid() && |cs| == |w.geo| && c < |cs| && i <= |w.higher[c]|
  {
    && |cs'| == |cs|
    && forall x: nat | x < |cs| ::
         cs'[x] == if x == c || Within(w, x, c, i) then Completed(w.geo[x], cs[x], addr) else cs[x]
  }

  lemma CompletesStep(w: Wiring, cs: seq<Cache>, was: seq<Cache>, cs': seq<Cache>, c: nat, i: nat, addr: int)
    requires w.Valid() && |cs| == |w.geo| && c < |cs| && i < |w.higher[c]|
    requires CompletesWithin(w, cs, was, c, i, addr) && CompletesAbove(w, was, cs', w.higher[c][i], addr)
    ensures CompletesWithin(w, cs, cs', c, i + 1, addr)
  {
    forall x: nat | x < |cs|
      ensures cs'[x] == if x == c || Within(w, x, c, i + 1) then Completed(w.geo[x], cs[x], addr) else cs[x]
    {
      WithinNext(w, x, c, i);
    }
  }

  lemma CompletesAll(w: Wiring, cs: seq<Cache>, cs': seq<Cache>, c: nat, addr: int)
    requires w.Valid() && |cs| == |w.geo| && c < |cs| && CompletesWithin(w, cs, cs', c, |w.higher[c]|, addr)
    ensures CompletesAbove(w, cs, cs', c, addr)
  {
    forall x: nat | x < |cs| ensures cs'[x] == if w.Above(x, c) then Completed(w.geo[x], cs[x], addr) else cs[x] {
      WithinAll(w, x, c);
    }
  }

  lemma CompletesWithinOk(w: Wiring, cs: seq<Cache>, cs': seq<Cache>, unused: nat, c: nat, i: nat, addr: int)
    requires w.Valid() && AllOk(w, cs, unused) && c < |cs| && i <= |w.higher[c]|
        && CompletesWithin(w, cs, cs', c, i, addr)
    ensures AllOk(w, cs', unused)
  {
    forall x: nat | x < |cs'| ensures CacheOk(w.geo[x], cs'[x], unused) {
      assert CacheOk(w.geo[x], cs[x], unused);
      CompletedOk(w.geo[x], cs[x], addr, unused);
    }
  }

  // Block `b` is unlocked in `c` and above.
  ghost predicate Freed(w: Wiring, v: View, v': View, c: nat, b: int)
    requires w.Valid() && c < |w.geo|
  {
    forall x: nat, z :: v'(x, z) == if z == b && x < |w.geo| && w.Above(x, c) then Free(v(x, z)) else v(x, z)
  }

  lemma CompletesView(w: Wiring, cs: seq<Cache>, cs': seq<Cache>, unused: nat, c: nat, addr: int)
    requires w.Valid() && AllOk(w, cs, unused) && c < |cs| && CompletesAbove(w, cs, cs', c, addr)
    ensures AllOk(w, cs', unused) && Freed(w, ViewOf(w, cs), ViewOf(w, cs'), c, w.Block(addr))
  {
    forall x: nat | x < |cs|
      ensures CacheOk(w.geo[x], cs'[x], unused)
      ensures w.Above(x, c) ==>
        OneStatus(w.geo[x], cs[x], cs'[x], w.Block(addr), Free(StatusIn(w.geo[x], cs[x], w.Block(addr))))
    {
      assert CacheOk(w.geo[x], cs[x], unused);
      CompletedOk(w.geo[x], cs[x], addr, unused);
    }
  }

  lemma FreedKeeps(w: Wiring, v: View, v': View, c: nat, b: int, log: seq<Event>)
    requires w.Valid() && c < |w.geo| && Freed(w, v, v', c, b) && Pairs(w, v, -1, b) && Accounted(w, v, log)
    requires w.lower[c] != -1 ==> !Locked(v, w.lower[c], b)
    ensures Pairs(w, v', -1, b) && Accounted(w, v', log)
  {
    forall x: nat, z | x < |w.geo| ensures PairOk(w, v', x, z) {
      assert PairOk(w, v, x, z);
    }
    forall r: nat, z ensures DirtyIn(w, v', r, z) <==> DirtyIn(w, v, r, z) {
      if DirtyIn(w, v, r, z) {
        var x: nat :| x < |w.geo| && w.Root(x) == r && Dirty(v, x, z);
        assert Dirty(v', x, z);
      }
      if DirtyIn(w, v', r, z) {
        var x: nat :| x < |w.geo| && w.Root(x) == r && Dirty(v', x, z);
        assert Dirty(v, x, z);
      }
    }
  }
}
