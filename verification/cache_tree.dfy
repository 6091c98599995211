/** Caches wired into trees, the last level at the roots, seen as what each cache holds of each block. */
module CacheTree {
  import opened BitArithmetic
  import opened CacheAddress
  import opened CacheLines
  import opened CacheLevel

  /** For every cache its geometry, the cache below it (-1 at the last level) and the caches above it. All
      caches have the same block size. A first-level cache has no caches above it. */
  datatype Wiring = Wiring(offset: nat, geo: seq<Geometry>, lower: seq<int>, higher: seq<seq<nat>>) {
    ghost predicate Valid() {
      && |lower| == |geo| && |higher| == |geo|
      && (forall c | 0 <= c < |geo| :: geo[c].Valid() && geo[c].indexOffset == offset)
      && (forall c | 0 <= c < |geo| :: lower[c] == -1 || c < lower[c] < |geo|)
      && (forall c, i | 0 <= c < |geo| && 0 <= i < |higher[c]| :: higher[c][i] < c && lower[higher[c][i]] == c)
      && (forall c, i, j {:trigger Apart(c, i, j)} | 0 <= c < |geo| && 0 <= i < j < |higher[c]| :: Apart(c, i, j))
      && (forall h | 0 <= h < |geo| && lower[h] != -1 :: h in higher[lower[h]])
    }

    ghost predicate Apart(c: nat, i: nat, j: nat)
      requires c < |higher| && i < |higher[c]| && j < |higher[c]|
    {
      higher[c][i] != higher[c][j]
    }

    function Block(addr: int): int { addr / Pow2(offset) }

    // `x` is `c`, or is reached from it going up.
    ghost predicate Above(x: nat, c: nat)
      requires Valid() && x < |geo| && c < |geo|
      decreases |geo| - x
    {
      x == c || (lower[x] != -1 && Above(lower[x], c))
    }

    ghost function Root(x: nat): (r: nat)
      requires Valid() && x < |geo|
      ensures r < |geo| && lower[r] == -1
      decreases |geo| - x
    {
      if lower[x] == -1 then x else Root(lower[x])
    }

    lemma {:induction false} AboveLe(x: nat, c: nat)
      requires Valid() && x < |geo| && c < |geo| && Above(x, c)
      ensures x <= c && Root(x) == Root(c)
      decreases |geo| - x
    {
      if x != c { AboveLe(lower[x], c); }
    }

    lemma {:induction false} AboveTrans(x: nat, c: nat, d: nat)
      requires Valid() && x < |geo| && c < |geo| && d < |geo| && Above(x, c) && Above(c, d)
      ensures Above(x, d)
      decreases |geo| - x
    {
      if x != c { AboveTrans(lower[x], c, d); }
    }

    lemma {:induction false} AboveRoot(x: nat)
      requires Valid() && x < |geo|
      ensures Above(x, Root(x))
      decreases |geo| - x
    {
      if lower[x] != -1 { AboveRoot(lower[x]); }
    }

    lemma {:induction false} AboveChain(x: nat, h: nat, k: nat)
      requires Valid() && x < |geo| && h < |geo| && k < |geo| && Above(x, h) && Above(x, k) && h <= k
      ensures Above(h, k)
      decreases |geo| - x
    {
      if x != h {
        AboveLe(x, h);
        AboveChain(lower[x], h, k);
      }
    }

    // Going up from a cache means going up into exactly one of the caches above it.
    lemma {:induction false} AboveStep(x: nat, c: nat) returns (i: nat)
      requires Valid() && x < |geo| && c < |geo| && Above(x, c) && x != c
      ensures i < |higher[c]| && Above(x, higher[c][i])
      decreases |geo| - x
    {
      if lower[x] == c {
        i :| 0 <= i < |higher[c]| && higher[c][i] == x;
      } else {
        i := AboveStep(lower[x], c);
      }
    }

    lemma AboveOnce(x: nat, c: nat, i: nat, j: nat)
      requires Valid() && x < |geo| && c < |geo| && i < |higher[c]| && j < |higher[c]|
      requires Above(x, higher[c][i]) && Above(x, higher[c][j])
      ensures i == j && Above(x, c) && x != c
    {
      var h, k := higher[c][i], higher[c][j];
      assert (i < j ==> Apart(c, i, j)) && (j < i ==> Apart(c, j, i));
      AboveLe(x, h);
      assert Above(h, c);
      AboveTrans(x, h, c);
      if h < k {
        AboveChain(x, h, k);
        AboveLe(c, k);
      } else if k < h {
        AboveChain(x, k, h);
        AboveLe(c, h);
      }
    }
  }

  // What cache `x` holds of block `b`.
  type View = (nat, int) -> Option<Status>

  ghost function ViewOf(w: Wiring, cs: seq<Cache>): View
    requires w.Valid() && |cs| == |w.geo|
  {
    (x: nat, b: int) => if x < |w.geo| then StatusIn(w.geo[x], cs[x], b) else None
  }

  ghost predicate Locked(v: View, x: nat, b: int) { v(x, b).Some? && v(x, b).value.locked }

  ghost predicate Dirty(v: View, x: nat, b: int) { v(x, b).Some? && v(x, b).value.dirty }

  /** A line is also in the cache below, and when it is locked there it is locked here. */
  ghost predicate PairOk(w: Wiring, v: View, x: nat, b: int)
    requires w.Valid() && x < |w.geo|
  {
    w.lower[x] != -1 && v(x, b).Some? ==>
      v(w.lower[x], b).Some? && (Locked(v, w.lower[x], b) ==> Locked(v, x, b))
  }

  // Inclusion and lock order everywhere, except perhaps for block `bx` in cache `hx` while it is being fetched.
  ghost predicate Pairs(w: Wiring, v: View, hx: int, bx: int)
    requires w.Valid()
  {
    forall x: nat, b | x < |w.geo| && !(x == hx && b == bx) :: PairOk(w, v, x, b)
  }

  // A cache from `c` down that waits for the block while the cache below does not have it (-1: there is none).
  ghost predicate MissingBelow(w: Wiring, v: View, c: nat, hole: int, b: int)
    requires w.Valid() && c < |w.geo|
  {
    hole == -1 ||
    (0 <= hole < |w.geo| && w.Above(c, hole) && w.lower[hole] != -1 && Locked(v, hole, b)
        && v(w.lower[hole], b) == None)
  }

  // The same for one block, in the caches above `c`.
  ghost predicate PairsAbove(w: Wiring, v: View, c: nat, b: int)
    requires w.Valid() && c < |w.geo|
  {
    forall x: nat | x < |w.geo| && x != c && w.Above(x, c) :: PairOk(w, v, x, b)
  }

  // A block absent from a cache is absent from the caches above.
  lemma {:induction false} AbsentAbove(w: Wiring, v: View, x: nat, c: nat, b: int)
    requires w.Valid() && x < |w.geo| && c < |w.geo| && w.Above(x, c) && PairsAbove(w, v, c, b) && v(c, b) == None
    ensures v(x, b) == None
    decreases |w.geo| - x
  {
    if x != c {
      AbsentAbove(w, v, w.lower[x], c, b);
      assert PairOk(w, v, x, b);
    }
  }

  lemma PairsAboveUp(w: Wiring, v: View, c: nat, i: nat, b: int)
    requires w.Valid() && c < |w.geo| && PairsAbove(w, v, c, b) && i < |w.higher[c]|
    ensures PairsAbove(w, v, w.higher[c][i], b)
  {
    forall x: nat | x < |w.geo| && w.Above(x, w.higher[c][i]) ensures w.Above(x, c) && x != c {
      w.AboveOnce(x, c, i, i);
    }
  }

  // --- Steps on the view. ---

  ghost predicate One(v: View, v': View, c: nat, b: int, s: Option<Status>) {
    forall x: nat, z :: v'(x, z) == if x == c && z == b then s else v(x, z)
  }

  lemma PutView(w: Wiring, cs: seq<Cache>, c: nat, c': Cache, b: int, s: Option<Status>)
    requires w.Valid() && |cs| == |w.geo| && c < |cs| && OneStatus(w.geo[c], cs[c], c', b, s)
    ensures One(ViewOf(w, cs), ViewOf(w, cs[c := c']), c, b, s)
  {}

  // Block `b` leaves `c` and all caches above it.
  ghost predicate Cleared(w: Wiring, v: View, v': View, c: nat, b: int)
    requires w.Valid() && c < |w.geo|
  {
    forall x: nat, z :: v'(x, z) == if z == b && x < |w.geo| && w.Above(x, c) then None else v(x, z)
  }

  ghost predicate UnlockedAbove(w: Wiring, v: View, c: nat, b: int)
    requires w.Valid() && c < |w.geo|
  {
    forall x: nat | x < |w.geo| && w.Above(x, c) :: !Locked(v, x, b)
  }

  ghost predicate DirtyAbove(w: Wiring, v: View, c: nat, b: int)
    requires w.Valid() && c < |w.geo|
  {
    exists x: nat | x < |w.geo| && w.Above(x, c) :: Dirty(v, x, b)
  }

  // --- What has been stored and written back. ---

  datatype Request = Request(write: bool, addr: int)

  // A store into the tree of a root, or a request of its last-level cache to memory.
  datatype Event = Store(root: nat, block: int) | Wait(root: nat, block: int, req: Request)

  // The requests that were ever appended to the wait list.
  ghost function Waits(log: seq<Event>): seq<Request> {
    if log == [] then [] else
      Waits(log[..|log| - 1]) + if log[|log| - 1].Wait? then [log[|log| - 1].req] else []
  }

  // The reads among them.
  ghost function Reads(ws: seq<Request>): seq<Request> {
    if ws == [] then [] else
      Reads(ws[..|ws| - 1]) + if ws[|ws| - 1].write then [] else [ws[|ws| - 1]]
  }

  lemma ReadsGrow(ws: seq<Request>, r: Request)
    ensures Reads(ws + [r]) == Reads(ws) + if r.write then [] else [r]
  {
    assert (ws + [r])[..|ws|] == ws;
  }

  // The stores, in order.
  ghost function Stores(log: seq<Event>): seq<(nat, int)> {
    if log == [] then [] else
      Stores(log[..|log| - 1]) + if log[|log| - 1].Store? then [(log[|log| - 1].root, log[|log| - 1].block)] else []
  }

  // Block `b` has been stored to since its tree last wrote it to memory.
  ghost predicate Owed(log: seq<Event>, r: nat, b: int) {
    if log == [] then false else
      match log[|log| - 1]
      case Store(r', b') => (r' == r && b' == b) || Owed(log[..|log| - 1], r, b)
      case Wait(r', b', req) => !(r' == r && b' == b && req.write) && Owed(log[..|log| - 1], r, b)
  }

  lemma LogGrows(log: seq<Event>, e: Event)
    ensures Waits(log + [e]) == Waits(log) + if e.Wait? then [e.req] else []
    ensures Stores(log + [e]) == Stores(log) + if e.Store? then [(e.root, e.block)] else []
    ensures forall r, b :: Owed(log + [e], r, b) ==
              if e.Store? then (e.root == r && e.block == b) || Owed(log, r, b)
              else !(e.root == r && e.block == b && e.req.write) && Owed(log, r, b)
  {
    assert (log + [e])[..|log|] == log;
  }

  ghost predicate DirtyIn(w: Wiring, v: View, r: nat, b: int)
    requires w.Valid()
  {
    exists x: nat | x < |w.geo| && w.Root(x) == r :: Dirty(v, x, b)
  }

  // Every request to memory is for its block, and every write of a block was owed.
  ghost predicate Justified(w: Wiring, log: seq<Event>) {
    log == [] ||
    var e, before := log[|log| - 1], log[..|log| - 1];
    && Justified(w, before)
    && (e.Wait? ==> w.Block(e.req.addr) == e.block && (e.req.write ==> Owed(before, e.root, e.block)))
  }

  lemma JustifiedGrows(w: Wiring, log: seq<Event>, e: Event)
    requires Justified(w, log)
    requires e.Wait? ==> w.Block(e.req.addr) == e.block && (e.req.write ==> Owed(log, e.root, e.block))
    ensures Justified(w, log + [e])
  {
    assert (log + [e])[..|log|] == log;
  }

  /** No store is lost and none is invented: a block is dirty in some cache of a tree exactly when it was
      stored to since the last write of it that the tree put on the wait list; and no other block was written. */
  ghost predicate Accounted(w: Wiring, v: View, log: seq<Event>)
    requires w.Valid()
  {
    Justified(w, log) && forall r: nat, b :: DirtyIn(w, v, r, b) <==> Owed(log, r, b)
  }

  // --- Eviction: clear the block from here up, and merge its dirtiness into the cache below. ---

  ghost predicate Evicted(w: Wiring, v: View, v': View, c: nat, b: int)
    requires w.Valid() && c < |w.geo|
  {
    forall x: nat, z :: v'(x, z) ==
      if z == b && x < |w.geo| && w.Above(x, c) then None
      else if z == b && x == w.lower[c] then Some(Status(false, Dirty(v, x, b) || DirtyAbove(w, v, c, b)))
      else v(x, z)
  }

  lemma EvictedPairs(w: Wiring, v: View, v': View, c: nat, b: int, hx: int, bx: int)
    requires w.Valid() && c < |w.geo| && Pairs(w, v, hx, bx) && b != bx && v(c, b).Some? && UnlockedAbove(w, v, c, b)
    requires Evicted(w, v, v', c, b)
    ensures Pairs(w, v', hx, bx)
  {
    forall x: nat, z | x < |w.geo| && !(x == hx && z == bx) ensures PairOk(w, v', x, z) {
      assert PairOk(w, v, x, z) && PairOk(w, v, c, b);
      if z == b && w.lower[c] != -1 {
        w.AboveLe(c, w.lower[c]);
        if w.Above(w.lower[c], c) { w.AboveLe(w.lower[c], c); }
      }
    }
  }

  lemma EvictedDirty(w: Wiring, v: View, v': View, c: nat, b: int, r: nat, z: int)
    requires w.Valid() && c < |w.geo| && Evicted(w, v, v', c, b)
    requires w.lower[c] != -1 ==> v(w.lower[c], b).Some?
    ensures DirtyIn(w, v', r, z) <==> DirtyIn(w, v, r, z) && !(w.lower[c] == -1 && r == c && z == b)
  {
    if w.lower[c] != -1 {
      if w.Above(w.lower[c], c) { w.AboveLe(w.lower[c], c); }
    }
    if DirtyIn(w, v, r, z) {
      var x: nat :| x < |w.geo| && w.Root(x) == r && Dirty(v, x, z);
      if z == b && w.Above(x, c) {
        w.AboveLe(x, c);
        if w.lower[c] != -1 { assert Dirty(v', w.lower[c], z) && w.Root(w.lower[c]) == r; }
      } else {
        assert Dirty(v', x, z);
        if w.lower[c] == -1 && r == c { w.AboveRoot(x); }
      }
    }
    if DirtyIn(w, v', r, z) {
      var x: nat :| x < |w.geo| && w.Root(x) == r && Dirty(v', x, z);
      if z == b && x == w.lower[c] && !Dirty(v, x, b) {
        var y: nat :| y < |w.geo| && w.Above(y, c) && Dirty(v, y, b);
        w.AboveLe(y, c);
        assert w.Root(y) == r;
      } else {
        assert Dirty(v, x, z);
      }
      if z == b && w.lower[c] == -1 && r == c { w.AboveRoot(x); }
    }
  }

  // --- One line changed. ---

  lemma OneDirty(w: Wiring, v: View, v': View, c: nat, b: int, s: Option<Status>, r: nat, z: int)
    requires w.Valid() && c < |w.geo| && One(v, v', c, b, s)
    requires Dirty(v, c, b) ==> s.Some? && s.value.dirty
    ensures DirtyIn(w, v', r, z) <==> DirtyIn(w, v, r, z) || (r == w.Root(c) && z == b && s.Some? && s.value.dirty)
  {
    if DirtyIn(w, v, r, z) {
      var x: nat :| x < |w.geo| && w.Root(x) == r && Dirty(v, x, z);
      assert Dirty(v', x, z);
    }
    if DirtyIn(w, v', r, z) {
      var x: nat :| x < |w.geo| && w.Root(x) == r && Dirty(v', x, z);
      assert (x == c && z == b) || Dirty(v, x, z);
    }
    if r == w.Root(c) && z == b && s.Some? && s.value.dirty { assert Dirty(v', c, z); }
  }

  lemma StoreAccounted(w: Wiring, v: View, v': View, c: nat, b: int, s: Status, log: seq<Event>, write: bool)
    requires w.Valid() && c < |w.geo| && Accounted(w, v, log) && One(v, v', c, b, Some(s))
    requires s.dirty == (Dirty(v, c, b) || write)
    ensures Accounted(w, v', if write then log + [Store(w.Root(c), b)] else log)
  {
    if write {
      LogGrows(log, Store(w.Root(c), b));
      JustifiedGrows(w, log, Store(w.Root(c), b));
    }
    forall r: nat, z ensures DirtyIn(w, v', r, z) <==> DirtyIn(w, v, r, z) || (write && r == w.Root(c) && z == b) {
      OneDirty(w, v, v', c, b, Some(s), r, z);
      if Dirty(v, c, b) { assert DirtyIn(w, v, w.Root(c), b); }
    }
  }

  // The log after the eviction of block `b` from cache `c`.
  ghost function EvictLog(w: Wiring, v: View, c: nat, b: int, addr: int, log: seq<Event>): seq<Event>
    requires w.Valid() && c < |w.geo|
  {
    if w.lower[c] == -1 && DirtyAbove(w, v, c, b) then log + [Wait(c, b, Request(true, addr))] else log
  }

  lemma EvictedAccounted(w: Wiring, v: View, v': View, c: nat, b: int, addr: int, log: seq<Event>)
    requires w.Valid() && c < |w.geo| && Accounted(w, v, log) && Evicted(w, v, v', c, b) && b == w.Block(addr)
    requires w.lower[c] != -1 ==> v(w.lower[c], b).Some?
    ensures Accounted(w, v', EvictLog(w, v, c, b, addr, log))
  {
    LogGrows(log, Wait(c, b, Request(true, addr)));
    if w.lower[c] == -1 && DirtyAbove(w, v, c, b) {
      var x: nat :| x < |w.geo| && w.Above(x, c) && Dirty(v, x, b);
      w.AboveLe(x, c);
      assert DirtyIn(w, v, c, b);
      JustifiedGrows(w, log, Wait(c, b, Request(true, addr)));
    }
    forall r: nat, z ensures DirtyIn(w, v', r, z) <==> Owed(EvictLog(w, v, c, b, addr, log), r, z) {
      EvictedDirty(w, v, v', c, b, r, z);
      if w.lower[c] == -1 && DirtyIn(w, v, c, b) {
        var x: nat :| x < |w.geo| && w.Root(x) == c && Dirty(v, x, b);
        w.AboveRoot(x);
      }
    }
  }

  // A line changed without changing whether it is locked, when the cache above may be waiting for it.
  lemma FillPairs(w: Wiring, v: View, v': View, c: nat, b: int, s: Status, hx: int)
    requires w.Valid() && c < |w.geo| && Pairs(w, v, hx, b) && One(v, v', c, b, Some(s))
    requires hx == -1 || (0 <= hx < |w.geo| && w.lower[hx] == c && Locked(v, hx, b))
    requires v(c, b).Some? && s.locked == v(c, b).value.locked
    ensures Pairs(w, v', -1, b)
  {
    forall x: nat, z | x < |w.geo| ensures PairOk(w, v', x, z) {
      assert !(x == hx && z == b) ==> PairOk(w, v, x, z);
    }
  }

  // A new locked line: now it is this cache that waits for the one below.
  lemma InsertPairs(w: Wiring, v: View, v': View, c: nat, b: int, dirty: bool, hx: int)
    requires w.Valid() && c < |w.geo| && Pairs(w, v, hx, b) && One(v, v', c, b, Some(Status(true, dirty)))
    requires hx == -1 || (0 <= hx < |w.geo| && w.lower[hx] == c && Locked(v, hx, b))
    requires v(c, b) == None
    ensures Pairs(w, v', if w.lower[c] == -1 then -1 else c, b)
  {
    forall x: nat, z | x < |w.geo| && !(x == c && z == b) ensures PairOk(w, v', x, z) {
      assert !(x == hx && z == b) ==> PairOk(w, v, x, z);
    }
    assert w.lower[c] == -1 ==> PairOk(w, v', c, b);
  }

  lemma SameView(w: Wiring, v: View, v': View, hx: int, bx: int, log: seq<Event>)
    requires w.Valid() && (forall x: nat, z :: v'(x, z) == v(x, z)) && Pairs(w, v, hx, bx) && Accounted(w, v, log)
    ensures Pairs(w, v', hx, bx) && Accounted(w, v', log)
  {
    forall x: nat, z | x < |w.geo| && !(x == hx && z == bx) ensures PairOk(w, v', x, z) {
      assert PairOk(w, v, x, z);
    }
    forall r: nat, z ensures DirtyIn(w, v', r, z) <==> DirtyIn(w, v, r, z) {
      if DirtyIn(w, v, r, z) {
        var x: nat :| x < |w.geo| && w.Root(x) == r && Dirty(v, x, z);
        assert Dirty(v', x, z);
      }
      if DirtyIn(w, v', r, z) {
        var x: nat :| x < |w.geo| && w.Root(x) == r && Dirty(v', x, z);
        assert Dirty(v, x, z);
      }
    }
  }

  // A read request to memory settles no store.
  lemma WaitKeeps(w: Wiring, v: View, c: nat, b: int, addr: int, log: seq<Event>)
    requires w.Valid() && Accounted(w, v, log) && b == w.Block(addr)
    ensures var log' := log + [Wait(c, b, Request(false, addr))];
            && Accounted(w, v, log') && Waits(log') == Waits(log) + [Request(false, addr)]
            && Stores(log') == Stores(log)
  {
    LogGrows(log, Wait(c, b, Request(false, addr)));
    JustifiedGrows(w, log, Wait(c, b, Request(false, addr)));
  }

  // With nothing missing, it does not matter for which block nothing is missing.
  lemma NothingMissing(w: Wiring, v: View, b: int, b': int)
    requires w.Valid() && Pairs(w, v, -1, b)
    ensures Pairs(w, v, -1, b')
  {
    forall x: nat, z | x < |w.geo| ensures PairOk(w, v, x, z) {
      assert PairOk(w, v, x, z) || (x == -1 && z == b);
    }
  }
}
