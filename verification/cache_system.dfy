/** The cache system: misses, hits, evictions and completions over a tree of inclusive write-back caches. */
module CacheSystems {
  import opened CacheAddress
  import opened CacheLines
  import opened CacheLevel
  import opened CacheTree
  import opened CacheUnlock
  import opened CacheEffects
  import opened CacheChain

  class CacheSystem {
    const w: Wiring
    var caches: seq<Cache>
    // All requests ever sent to memory, and all hits ever answered: the tick that takes them off is left out.
    var waitList: seq<Request>
    var hitList: seq<Request>
    // The next list node to be allocated.
    var unused: nat
    ghost var log: seq<Event>

    ghost function V(): View
      requires w.Valid() && |caches| == |w.geo|
      reads this
    {
      ViewOf(w, caches)
    }

    /** What every operation keeps, with block `bx` of cache `hx` perhaps still missing below (-1: nothing missing). */
    ghost predicate Valid(hx: int, bx: int)
      reads this
    {
      && w.Valid() && AllOk(w, caches, unused)
      && Pairs(w, V(), hx, bx) && Accounted(w, V(), log) && waitList == Waits(log)
    }

    constructor (w: Wiring)
      requires w.Valid()
      ensures this.w == w && Valid(-1, 0) && waitList == [] && hitList == [] && log == []
      ensures caches == seq(|w.geo|, _ => Cache(map[], []))
      ensures forall x: nat, b :: V()(x, b) == None
    {
      this.w := w;
      caches := seq(|w.geo|, _ => Cache(map[], []));
      waitList, hitList, unused, log := [], [], 0, [];
    }

    // Removes a line from this cache and from the caches above, and tells whether any copy was dirty.
    method Invalidate(c: nat, addr: int) returns (dirty: bool)
      requires w.Valid() && AllOk(w, caches, unused) && c < |caches|
      requires PairsAbove(w, V(), c, w.Block(addr)) && UnlockedAbove(w, V(), c, w.Block(addr))
      modifies this`caches
      ensures DropsAbove(w, old(caches), caches, c, addr)
      ensures AllOk(w, caches, unused) && Cleared(w, old(V()), V(), c, w.Block(addr))
      ensures dirty <==> DirtyAbove(w, old(V()), c, w.Block(addr))
      decreases c
    {
      ghost var was, v := caches, V();
      var g := w.geo[c];
      Seen(w, caches, unused, c, addr);
      assert CacheOk(g, was[c], unused);
      WithSetOk(g, caches[c], addr, unused);
      caches := caches[c := WithSet(g, caches[c], addr)];
      var ls := SetAt(caches[c], g.Index(addr));
      var k := FindTag(ls, g.Tag(addr));
      if k == |ls| {
        ClearedAlready(w, was, caches, unused, c, addr);
        return false;
      }
      var line := ls[k];
      assert !line.locked by { assert w.Above(c, c) && !Locked(v, c, w.Block(addr)); }
      caches := caches[c := PutSet(caches[c], g.Index(addr), Erase(ls, k))];
      ghost var self := caches[c];
      assert self == Dropped(g, was[c], addr);
      DropsOk(g, was[c], self, addr, unused);
      dirty := false;
      var i := 0;
      while i < |w.higher[c]|
        invariant 0 <= i <= |w.higher[c]|
        invariant DropsWithin(w, was, caches, c, i, addr, self)
        invariant dirty <==> (i > 0 && line.dirty) || DirtyWithin(w, v, c, i, w.Block(addr))
      {
        ghost var mid := caches;
        NextReady(w, was, caches, unused, c, i, addr, self);
        var result := Invalidate(w.higher[c][i], addr);
        DropsStep(w, was, mid, caches, c, i, addr, self);
        dirty := dirty || line.dirty || result;
        i := i + 1;
      }
      if |w.higher[c]| == 0 {
        dirty := line.dirty;
      }
      DropsAll(w, was, caches, c, addr, self);
      DropsAboveOk(w, was, caches, unused, c, addr);
      DirtyWithinAll(w, v, c, w.Block(addr));
    }

    // Takes back a line evicted from above: it becomes the most recently used, and dirty if either copy was.
    method EvictLine(c: nat, addr: int, dirty: bool)
      requires w.Valid() && AllOk(w, caches, unused) && c < |caches|
      requires V()(c, w.Block(addr)).Some? && !Locked(V(), c, w.Block(addr))
      modifies this`caches, this`unused
      ensures AllOk(w, caches, unused)
      ensures unused == old(unused) + 1
      ensures caches == old(caches)[c := Touched(w.geo[c], old(caches)[c], addr, old(unused),
                                         dirty || Dirty(old(V()), c, w.Block(addr)))]
      ensures One(old(V()), V(), c, w.Block(addr), Some(Status(false, dirty || Dirty(old(V()), c, w.Block(addr)))))
    {
      var g := w.geo[c];
      Seen(w, caches, unused, c, addr);
      assert CacheOk(g, caches[c], unused);
      assert g.Index(addr) in caches[c].lines;
      var ls := caches[c].lines[g.Index(addr)];
      var k := FindTag(ls, g.Tag(addr));
      assert k < |ls|;
      TouchOk(g, caches[c], addr, unused, dirty || ls[k].dirty);
      PutView(w, caches, c, Touched(g, caches[c], addr, unused, dirty || ls[k].dirty), w.Block(addr),
          Some(Status(false, dirty || ls[k].dirty)));
      Grow(w, caches, unused, unused + 1);
      ls := ls + [Line(unused, addr, g.Tag(addr), false, dirty || ls[k].dirty)];
      caches := caches[c := PutSet(caches[c], g.Index(addr), Erase(ls, k))];
      unused := unused + 1;
    }

    // Hands a victim's dirtiness to the cache below, or a dirty victim of the last level to memory.
    method PassDown(c: nat, addr: int, dirty: bool)
      requires w.Valid() && AllOk(w, caches, unused) && c < |caches|
      requires w.lower[c] != -1 ==> V()(w.lower[c], w.Block(addr)).Some? && !Locked(V(), w.lower[c], w.Block(addr))
      modifies this`caches, this`unused, this`waitList, this`log
      ensures w.lower[c] == -1 ==> caches == old(caches) && unused == old(unused)
      ensures w.lower[c] != -1 ==>
                var d := w.lower[c];
                && unused == old(unused) + 1
                && caches == old(caches)[d := Touched(w.geo[d], old(caches)[d], addr, old(unused),
                                                   dirty || Dirty(old(V()), d, w.Block(addr)))]
      ensures if w.lower[c] == -1 && dirty
              then waitList == old(waitList) + [Request(true, addr)]
                  && log == old(log) + [Wait(c, w.Block(addr), Request(true, addr))]
              else waitList == old(waitList) && log == old(log)
    {
      if w.lower[c] != -1 {
        EvictLine(w.lower[c], addr, dirty);
      } else if dirty {
        waitList := waitList + [Request(true, addr)];
        log := log + [Wait(c, w.Block(addr), Request(true, addr))];
      }
    }

    // Evicts a line that is unlocked at every level: dropped above, then merged into the cache below or,
    // at the last level, written back if any copy was dirty.
    method Evict(c: nat, idx: int, victim: nat)
      requires w.Valid() && AllOk(w, caches, unused) && c < |caches|
      requires var ls := SetAt(caches[c], idx);
               var k := FindNode(ls, victim);
               && k < |ls| && Evictable(w, caches, c, ls[k])
               && PairsAbove(w, V(), c, w.Block(ls[k].addr)) && PairOk(w, V(), c, w.Block(ls[k].addr))
      modifies this`caches, this`unused, this`waitList, this`log
      ensures unused == if w.lower[c] == -1 then old(unused) else old(unused) + 1
      ensures var k := FindNode(SetAt(old(caches)[c], idx), victim);
              Evicts(w, old(caches), caches, c, idx, k, old(unused))
      ensures var l := SetAt(old(caches)[c], idx)[FindNode(SetAt(old(caches)[c], idx), victim)];
              && log == EvictLog(w, old(V()), c, w.Block(l.addr), l.addr, old(log))
              && waitList == old(waitList) + if w.lower[c] == -1 && DirtyAbove(w, old(V()), c, w.Block(l.addr))
                  then [Request(true, l.addr)] else []
    {
      hide UnlockedAbove, PairsAbove, DirtyAbove, ViewOf, Touched, Wiring.Block;
      ghost var was, v, self, node := caches, V(), caches[c], unused;
      var k := FindNode(SetAt(caches[c], idx), victim);
      var line := SetAt(caches[c], idx)[k];
      var addr := line.addr;
      var dirty := line.dirty;
      VictimUnlocked(w, caches, unused, c, idx, k);
      assert CacheOk(w.geo[c], self, unused);
      var i := 0;
      while i < |w.higher[c]|
        invariant 0 <= i <= |w.higher[c]|
        invariant DropsWithin(w, was, caches, c, i, addr, self)
        invariant dirty <==> line.dirty || DirtyWithin(w, v, c, i, w.Block(addr))
        modifies this`caches
      {
        ghost var mid := caches;
        NextReady(w, was, caches, unused, c, i, addr, self);
        var result := Invalidate(w.higher[c][i], addr);
        DropsStep(w, was, mid, caches, c, i, addr, self);
        dirty := dirty || result || line.dirty;
        i := i + 1;
      }
      assert dirty <==> DirtyAbove(w, v, c, w.Block(addr)) by { DirtyWithinAll(w, v, c, w.Block(addr)); }
      ghost var mid := caches;
      BelowReady(w, was, mid, unused, c, idx, k);
      PassDown(c, addr, dirty);
      var ls := SetAt(caches[c], idx);
      caches := caches[c := PutSet(caches[c], idx, Erase(ls, FindNode(ls, victim)))];
      EvictsSteps(w, was, mid, caches, c, idx, k, node, dirty);
    }

    // Makes room in a full set; fails when no victim is unlocked at every level.
    method MakeRoom(c: nat, addr: int, ghost hx: int) returns (ok: bool)
      requires Valid(hx, w.Block(addr)) && c < |caches| && V()(c, w.Block(addr)) == None
      modifies this`caches, this`unused, this`waitList, this`log
      ensures Valid(hx, w.Block(addr)) && Stores(log) == Stores(old(log))
      ensures ok <==> HasRoom(w, old(caches), c, addr)
      ensures old(waitList) <= waitList && Reads(waitList) == Reads(old(waitList))
      ensures if ok then Roomy(w, old(caches), caches, c, w.geo[c].Index(addr))
          && Alike(w, old(caches), caches, c, w.Block(addr))
              else caches == old(caches) && unused == old(unused) && log == old(log)
      ensures forall x: nat :: V()(x, w.Block(addr)) == old(V())(x, w.Block(addr))
    {
      hide Pairs, Accounted, CacheOk, ViewOf, Waits, Stores, Wiring.Block, Geometry.Index, Geometry.Tag;
      var g, idx := w.geo[c], w.geo[c].Index(addr);
      var ls := SetAt(caches[c], idx);
      Seen(w, caches, unused, c, addr);
      assert FindTag(ls, g.Tag(addr)) == |ls|;
      if |ls| < g.assoc {
        return true;
      }
      var victim := FindVictim(w, caches, c, ls);
      if victim == |ls| {
        return false;
      }
      VictimReady(w, caches, unused, c, idx, victim, addr, hx);
      ghost var was, node, l, log0 := caches, unused, ls[victim], log;
      LogGrows(log, Wait(c, w.Block(l.addr), Request(true, l.addr)));
      ReadsGrow(waitList, Request(true, l.addr));
      Evict(c, idx, ls[victim].node);
      EvictedState(w, was, caches, node, c, idx, victim, addr, hx, log0);
      return true;
    }

    // Appends a locked line to a set that has room, or in which room can be made.
    method AllocateLine(c: nat, addr: int, ghost hx: int) returns (newline: Option<nat>, ghost mid: seq<Cache>)
      requires Valid(hx, w.Block(addr)) && c < |caches| && V()(c, w.Block(addr)) == None
      modifies this`caches, this`unused, this`waitList, this`log
      ensures newline.Some? <==> HasRoom(w, old(caches), c, addr)
      ensures newline == None ==> caches == old(caches) && unused == old(unused) && log == old(log)
      ensures newline.Some? ==>
                && unused == newline.value + 1 && AllOk(w, mid, newline.value)
                && Roomy(w, old(caches), mid, c, w.geo[c].Index(addr)) && Alike(w, old(caches), mid, c, w.Block(addr))
                && caches == mid[c := PutSet(mid[c], w.geo[c].Index(addr),
                     SetAt(mid[c], w.geo[c].Index(addr)) + [Line(newline.value, addr, w.geo[c].Tag(addr),
                         true, false)])]
                && Pairs(w, ViewOf(w, mid), hx, w.Block(addr)) && Accounted(w, ViewOf(w, mid), log)
                && forall x: nat :: ViewOf(w, mid)(x, w.Block(addr)) == old(V())(x, w.Block(addr))
      ensures waitList == Waits(log) && Stores(log) == Stores(old(log))
      ensures old(waitList) <= waitList && Reads(waitList) == Reads(old(waitList))
    {
      var ok := MakeRoom(c, addr, hx);
      mid := caches;
      if !ok {
        return None, mid;
      }
      var g, idx := w.geo[c], w.geo[c].Index(addr);
      newline := Some(unused);
      var line := Line(unused, addr, g.Tag(addr), true, false);
      caches := caches[c := PutSet(caches[c], idx, SetAt(caches[c], idx) + [line])];
      unused := unused + 1;
    }

    // A hit: the line becomes the most recently used, and dirty on a write.
    method Hit(c: nat, req: Request, ghost hx: int)
      requires Valid(hx, w.Block(req.addr)) && c < |caches|
      requires hx == -1 || (0 <= hx < |w.geo| && w.lower[hx] == c && Locked(V(), hx, w.Block(req.addr)))
      requires V()(c, w.Block(req.addr)).Some? && !Locked(V(), c, w.Block(req.addr))
      modifies this
      ensures Valid(-1, w.Block(req.addr)) && One(old(V()), V(), c, w.Block(req.addr),
          Some(Status(false, Dirty(old(V()), c, w.Block(req.addr)) || req.write)))
      ensures caches == old(caches)[c := Touched(w.geo[c], old(caches)[c], req.addr, old(unused),
          Dirty(old(V()), c, w.Block(req.addr)) || req.write)]
      ensures hitList == old(hitList) + [req] && waitList == old(waitList)
      ensures Stores(log) == Stores(old(log)) + if req.write then [(w.Root(c), w.Block(req.addr))] else []
    {
      ghost var was, node, log0 := caches, unused, log;
      EvictLine(c, req.addr, req.write);
      hitList := hitList + [req];
      log := Stored(w, c, req, log);
      Seen(w, was, node, c, req.addr);
      assert CacheOk(w.geo[c], was[c], node);
      TouchOk(w.geo[c], was[c], req.addr, node, Dirty(ViewOf(w, was), c, w.Block(req.addr)) || req.write);
      Replaced(w, was, c, caches[c], node, unused, false, req, hx, log0);
    }

    // A miss on a block that is already being fetched: at most its dirty bit changes.
    method Merge(c: nat, req: Request, ghost hx: int)
      requires Valid(hx, w.Block(req.addr)) && c < |caches|
      requires hx == -1 || (0 <= hx < |w.geo| && w.lower[hx] == c && Locked(V(), hx, w.Block(req.addr)))
      requires HitMshr(w.geo[c], caches[c].mshr, req.addr) < |caches[c].mshr|
      modifies this`caches, this`log
      ensures Valid(-1, w.Block(req.addr)) && One(old(V()), V(), c, w.Block(req.addr),
          Some(Status(true, Dirty(old(V()), c, w.Block(req.addr)) || req.write)))
      ensures caches == old(caches)[c := Filled(w.geo[c], old(caches)[c],
                HitMshr(w.geo[c], old(caches)[c].mshr, req.addr), true,
                Dirty(old(V()), c, w.Block(req.addr)) || req.write)]
      ensures Stores(log) == Stores(old(log)) + if req.write then [(w.Root(c), w.Block(req.addr))] else []
    {
      hide Pairs, Accounted, CacheOk, ViewOf, Waits, Stores, Wiring.Block, Geometry.Index, Geometry.Tag;
      ghost var was, log0, d := caches, log, Dirty(V(), c, w.Block(req.addr)) || req.write;
      var g := w.geo[c];
      MergeReady(w, caches, unused, c, req.addr, d);
      var m := caches[c].mshr[HitMshr(g, caches[c].mshr, req.addr)];
      var ls := SetAt(caches[c], g.Index(m.addr));
      var k := FindNode(ls, m.node);
      caches := caches[c := PutSet(caches[c], g.Index(m.addr), ls[k := ls[k].(dirty := req.write || ls[k].dirty)])];
      log := Stored(w, c, req, log);
      assert ls[k].(dirty := req.write || ls[k].dirty) == ls[k].(locked := true, dirty := d);
      Replaced(w, was, c, caches[c], unused, unused, true, req, hx, log0);
    }

    // A new miss: a locked line is allocated and gets a miss register.
    method Fetch(c: nat, req: Request, ghost hx: int) returns (ok: bool)
      requires Valid(hx, w.Block(req.addr)) && c < |caches|
      requires hx == -1 || (0 <= hx < |w.geo| && w.lower[hx] == c && Locked(V(), hx, w.Block(req.addr)))
      requires V()(c, w.Block(req.addr)) == None && |caches[c].mshr| < w.geo[c].mshrNum
      modifies this`caches, this`unused, this`waitList, this`log
      ensures ok <==> HasRoom(w, old(caches), c, req.addr)
      ensures old(waitList) <= waitList && Reads(waitList) == Reads(old(waitList))
      ensures !ok ==> caches == old(caches) && log == old(log) && unused == old(unused) && waitList == old(waitList)
      ensures ok ==>
                && Valid(if w.lower[c] == -1 then -1 else c, w.Block(req.addr))
                && Fetched(w, old(caches), caches, c, req) && Alike(w, old(caches), caches, c, w.Block(req.addr))
                && V()(c, w.Block(req.addr)) == Some(Status(true, req.write))
                && Stores(log) == Stores(old(log)) + if req.write then [(w.Root(c), w.Block(req.addr))] else []
      ensures forall x: nat | x != c :: V()(x, w.Block(req.addr)) == old(V())(x, w.Block(req.addr))
    {
      hide Pairs, Accounted, CacheOk, FindVictim, HasRoom, Fetched, Roomy, ViewOf, Waits, Stores, Reads, Alike,
           Wiring.Block, Geometry.Index, Geometry.Tag;
      ghost var b, was := w.Block(req.addr), caches;
      var g := w.geo[c];
      var newline;
      ghost var mid;
      newline, mid := AllocateLine(c, req.addr, hx);
      if newline == None {
        return false;
      }
      NewLine(w, was, mid, caches[c], newline.value, c, req, hx, log);
      var ls := SetAt(caches[c], g.Index(req.addr));
      var k := FindNode(ls, newline.value);
      caches := caches[c := PutSet(caches[c], g.Index(req.addr), ls[k := ls[k].(dirty := req.write)])
                              .(mshr := caches[c].mshr + [Mshr(req.addr, newline.value)])];
      assert caches == mid[c := Inserted(g, mid[c], req.addr, newline.value, req.write)];
      InsertedAlike(w, was, mid, c, caches[c], b, Some(Status(true, req.write)));
      log := Stored(w, c, req, log);
      return true;
    }

    /** An access. It is accepted exactly when it hits, merges with a miss under way, or finds a miss register and
        room. It is answered by the first cache of the chain that has the block, by a miss under way, or by one read
        to memory, told from the state before. Whether the cache below took the miss that was sent on to it is not
        looked at: inclusion holds afterwards exactly when every cache of the chain accepts. Otherwise everything but
        inclusion of this block still holds, and the block is missing below the cache `hole` (-1: nowhere). */
    method Send(c: nat, req: Request, ghost hx: int) returns (accepted: bool, ghost hole: int)
      requires Valid(hx, w.Block(req.addr)) && c < |caches|
      requires hx == -1 || (0 <= hx < |w.geo| && w.lower[hx] == c && Locked(V(), hx, w.Block(req.addr)))
      modifies this
      ensures accepted <==> WillAccept(w, old(caches), c, req.addr)
      ensures accepted && hole == -1 <==> ChainAccepts(w, old(caches), c, req.addr)
      ensures hitList == old(hitList) + if AnswerOf(w, old(caches), c, req.addr) == Answered then
          [Request(req.write && Hits(w, old(caches), c, req.addr), req.addr)] else []
      ensures old(waitList) <= waitList
      ensures Reads(waitList) == Reads(old(waitList)) +
                if AnswerOf(w, old(caches), c, req.addr) == Missed then [Request(false, req.addr)] else []
      ensures Valid(if accepted then hole else hx, w.Block(req.addr))
      ensures !accepted ==>
                && V()(c, w.Block(req.addr)) == None
                && caches == old(caches)[c := WithSet(w.geo[c], old(caches)[c], req.addr)]
                && waitList == old(waitList) && hitList == old(hitList) && log == old(log)
      ensures accepted ==>
                && V()(c, w.Block(req.addr)).Some?
                && MissingBelow(w, V(), c, hole, w.Block(req.addr))
                && (Pairs(w, V(), -1, w.Block(req.addr)) <==> ChainAccepts(w, old(caches), c, req.addr))
                && Stores(log) == Stores(old(log)) + if req.write then [(w.Root(c), w.Block(req.addr))] else []
      ensures forall x: nat | x < c :: V()(x, w.Block(req.addr)) == old(V())(x, w.Block(req.addr))
      ensures Hits(w, old(caches), c, req.addr) ==>
                && caches == old(caches)[c := Touched(w.geo[c], old(caches)[c], req.addr, old(unused),
                     Dirty(old(V()), c, w.Block(req.addr)) || req.write)]
                && hitList == old(hitList) + [req] && waitList == old(waitList)
      ensures Merges(w, old(caches), c, req.addr) ==>
                && caches == old(caches)[c := Filled(w.geo[c], old(caches)[c],
                     HitMshr(w.geo[c], old(caches)[c].mshr, req.addr), true,
                     Dirty(old(V()), c, w.Block(req.addr)) || req.write)]
                && hitList == old(hitList) && waitList == old(waitList)
      ensures accepted && !Hits(w, old(caches), c, req.addr) && !Merges(w, old(caches), c, req.addr) &&
              w.lower[c] == -1 ==>
                && Fetched(w, old(caches), caches, c, req) && hitList == old(hitList)
                && 0 < |waitList| && waitList[|waitList| - 1] == Request(false, req.addr)
      decreases |w.geo| - c, 2
    {
      hide Pairs, Accounted, CacheOk, ViewOf, Waits, Stores, Fetched, Touched, Filled, FindVictim, Wiring.Block,
           Geometry.Index, Geometry.Tag, Reads;
      var g := w.geo[c];
      SendCase(w, caches, unused, c, req.addr);
      var ls := SetAt(caches[c], g.Index(req.addr));
      var k := FindTag(ls, g.Tag(req.addr));
      if k < |ls| && !ls[k].locked {
        Hit(c, req, hx);
        return true, -1;
      }
      if HitMshr(g, caches[c].mshr, req.addr) < |caches[c].mshr| {
        Merge(c, req, hx);
        return true, -1;
      }
      accepted, hole := Miss(c, req, hx);
      if accepted { MissingBreaks(w, V(), c, hole, w.Block(req.addr)); }
    }

    // A miss on a block that is not being fetched: it is taken and sent on, or refused.
    method Miss(c: nat, req: Request, ghost hx: int) returns (accepted: bool, ghost hole: int)
      requires Valid(hx, w.Block(req.addr)) && c < |caches| && V()(c, w.Block(req.addr)) == None
      requires hx == -1 || (0 <= hx < |w.geo| && w.lower[hx] == c && Locked(V(), hx, w.Block(req.addr)))
      modifies this
      ensures accepted <==> |old(caches)[c].mshr| < w.geo[c].mshrNum && HasRoom(w, old(caches), c, req.addr)
      ensures hitList == old(hitList) + if AnswerOf(w, old(caches), c, req.addr) == Answered then
          [Request(false, req.addr)] else []
      ensures old(waitList) <= waitList
      ensures Reads(waitList) == Reads(old(waitList)) +
                if AnswerOf(w, old(caches), c, req.addr) == Missed then [Request(false, req.addr)] else []
      ensures Valid(if accepted then hole else hx, w.Block(req.addr))
      ensures !accepted ==>
                && hole == hx && V()(c, w.Block(req.addr)) == None
                && caches == old(caches)[c := WithSet(w.geo[c], old(caches)[c], req.addr)]
                && waitList == old(waitList) && hitList == old(hitList) && log == old(log)
      ensures accepted ==>
                && V()(c, w.Block(req.addr)).Some? && MissingBelow(w, V(), c, hole, w.Block(req.addr))
                && (hole == -1 <==> w.lower[c] == -1 || ChainAccepts(w, old(caches), w.lower[c], req.addr))
                && Stores(log) == Stores(old(log)) + if req.write then [(w.Root(c), w.Block(req.addr))] else []
      ensures forall x: nat | x < c :: V()(x, w.Block(req.addr)) == old(V())(x, w.Block(req.addr))
      ensures accepted && w.lower[c] == -1 ==>
                && Fetched(w, old(caches), caches, c, req) && hitList == old(hitList)
                && 0 < |waitList| && waitList[|waitList| - 1] == Request(false, req.addr)
      decreases |w.geo| - c, 1
    {
      hide Pairs, Accounted, CacheOk, ViewOf, Waits, Stores, Fetched, Touched, Filled, FindVictim, Wiring.Block,
           Geometry.Index, Geometry.Tag, ChainAccepts, Reads, Hits, Merges;
      ghost var was, node := caches, unused;
      var g := w.geo[c];
      SendCase(w, caches, unused, c, req.addr);
      accepted := false;
      if |caches[c].mshr| != g.mshrNum && !AllSetsLocked(g, SetAt(caches[c], g.Index(req.addr))) {
        accepted := Fetch(c, req, hx);
      }
      if !accepted {
        Refuse(c, req.addr, hx);
        return false, hx;
      }
      if w.lower[c] != -1 {
        ChainKept(w, was, caches, node, unused, c, req.addr, hx);
      }
      hole := Forward(c, req);
    }

    // A refused access leaves behind at most an empty set.
    method Refuse(c: nat, addr: int, ghost hx: int)
      requires Valid(hx, w.Block(addr)) && c < |caches|
      modifies this`caches
      ensures Valid(hx, w.Block(addr)) && caches == old(caches)[c := WithSet(w.geo[c], old(caches)[c], addr)]
      ensures forall x: nat, z :: V()(x, z) == old(V())(x, z)
    {
      WithSetState(w, caches, unused, c, addr, hx, log);
      caches := caches[c := WithSet(w.geo[c], caches[c], addr)];
    }

    // Sends a new miss on to the cache below or, from the last level, to memory.
    method Forward(c: nat, req: Request) returns (ghost hole: int)
      requires w.Valid() && c < |w.geo| && Valid(if w.lower[c] == -1 then -1 else c, w.Block(req.addr))
      requires Locked(V(), c, w.Block(req.addr))
      modifies this
      ensures Valid(hole, w.Block(req.addr)) && Stores(log) == Stores(old(log))
      ensures MissingBelow(w, V(), c, hole, w.Block(req.addr))
      ensures hole == -1 <==> w.lower[c] == -1 || ChainAccepts(w, old(caches), w.lower[c], req.addr)
      ensures hitList == old(hitList) +
                if w.lower[c] != -1 && AnswerOf(w, old(caches), w.lower[c], req.addr) == Answered
                then [Request(false, req.addr)] else []
      ensures old(waitList) <= waitList
      ensures Reads(waitList) == Reads(old(waitList)) +
                if w.lower[c] == -1 || AnswerOf(w, old(caches), w.lower[c], req.addr) == Missed
                then [Request(false, req.addr)] else []
      ensures forall x: nat | x <= c :: V()(x, w.Block(req.addr)) == old(V())(x, w.Block(req.addr))
      ensures w.lower[c] == -1 ==>
                caches == old(caches) && hitList == old(hitList)
                    && waitList == old(waitList) + [Request(false, req.addr)]
      decreases |w.geo| - c, 0
    {
      hole := -1;
      if w.lower[c] != -1 {
        ghost var below;
        var taken;
        taken, below := Send(w.lower[c], Request(false, req.addr), c);
        hole := if taken then below else c;
      } else {
        WaitKeeps(w, V(), c, w.Block(req.addr), req.addr, log);
        ReadsGrow(waitList, Request(false, req.addr));
        waitList := waitList + [Request(false, req.addr)];
        log := log + [Wait(c, w.Block(req.addr), Request(false, req.addr))];
      }
    }

    // Memory has answered: the miss register for the block is released and its line unlocked, here and above.
    method Callback(c: nat, addr: int)
      requires w.Valid() && AllOk(w, caches, unused) && c < |caches|
      modifies this`caches
      ensures CompletesAbove(w, old(caches), caches, c, addr) && AllOk(w, caches, unused)
      ensures forall x: nat | x < |caches| && w.Above(x, c) :: !Locked(V(), x, w.Block(addr))
      ensures old(Valid(-1, w.Block(addr))) && (w.lower[c] != -1 ==> !Locked(old(V()), w.lower[c], w.Block(addr))) ==>
                Valid(-1, w.Block(addr))
      decreases c
    {
      hide Pairs, Accounted, CacheOk, ViewOf, Wiring.Block, Geometry.Index, Geometry.Tag;
      ghost var was := caches;
      var g := w.geo[c];
      CompletedReady(w, caches, unused, c, addr);
      var it := HitMshr(g, caches[c].mshr, addr);
      if it < |caches[c].mshr| {
        var idx, node := g.Index(caches[c].mshr[it].addr), caches[c].mshr[it].node;
        var ls := SetAt(caches[c], idx);
        var k := FindNode(ls, node);
        caches := caches[c := PutSet(caches[c], idx, ls[k := ls[k].(locked := false)])
                                .(mshr := caches[c].mshr[..it] + caches[c].mshr[it + 1..])];
      }
      assert caches[c] == Completed(g, was[c], addr);
      var i := 0;
      while i < |w.higher[c]|
        invariant 0 <= i <= |w.higher[c]|
        invariant CompletesWithin(w, was, caches, c, i, addr)
      {
        ghost var mid := caches;
        CompletesWithinOk(w, was, caches, unused, c, i, addr);
        Callback(w.higher[c][i], addr);
        CompletesStep(w, was, mid, caches, c, i, addr);
        i := i + 1;
      }
      CompletesAll(w, was, caches, c, addr);
      CompletesView(w, was, caches, unused, c, addr);
      FreedUnlocks(w, ViewOf(w, was), ViewOf(w, caches), c, w.Block(addr), log);
    }
  }

  // Once the caches above are done, the cache below still holds the victim's block, unlocked.
  lemma BelowReady(w: Wiring, was: seq<Cache>, mid: seq<Cache>, unused: nat, c: nat, idx: int, k: nat)
    requires w.Valid() && AllOk(w, was, unused) && c < |was| && k < |SetAt(was[c], idx)|
    requires var l := SetAt(was[c], idx)[k];
             && Evictable(w, was, c, l) && DropsWithin(w, was, mid, c, |w.higher[c]|, l.addr, was[c])
             && PairsAbove(w, ViewOf(w, was), c, w.Block(l.addr)) && PairOk(w, ViewOf(w, was), c, w.Block(l.addr))
    ensures AllOk(w, mid, unused) && mid[c] == was[c]
    ensures var b := w.Block(SetAt(was[c], idx)[k].addr);
            w.lower[c] != -1 ==>
              ViewOf(w, mid)(w.lower[c], b).Some? && !Locked(ViewOf(w, mid), w.lower[c], b)
                  && mid[w.lower[c]] == was[w.lower[c]]
  {
    var addr := SetAt(was[c], idx)[k].addr;
    VictimUnlocked(w, was, unused, c, idx, k);
    assert CacheOk(w.geo[c], was[c], unused);
    DropsWithinOk(w, was, mid, unused, c, |w.higher[c]|, addr, was[c]);
    DropsAll(w, was, mid, c, addr, was[c]);
    if w.lower[c] != -1 && w.Above(w.lower[c], c) { w.AboveLe(w.lower[c], c); }
  }

  // A new miss in `c` does not change what the caches below do with it.
  lemma ChainKept(w: Wiring, cs: seq<Cache>, cs': seq<Cache>, unused: nat, unused': nat, c: nat, addr: int, hx: int)
    requires w.Valid() && AllOk(w, cs, unused) && AllOk(w, cs', unused') && c < |cs| && w.lower[c] != -1
    requires Alike(w, cs, cs', c, w.Block(addr))
    requires Pairs(w, ViewOf(w, cs), hx, w.Block(addr)) && Pairs(w, ViewOf(w, cs'), c, w.Block(addr))
    ensures ChainAccepts(w, cs, w.lower[c], addr) <==> ChainAccepts(w, cs', w.lower[c], addr)
    ensures AnswerOf(w, cs, w.lower[c], addr) == AnswerOf(w, cs', w.lower[c], addr)
  {
    hide Alike, CacheOk, PairOk, ViewOf, ChainAccepts, AnswerOf;
    ChainSame(w, cs, cs', unused, unused', c, w.lower[c], addr);
  }

  lemma Grow(w: Wiring, cs: seq<Cache>, unused: nat, unused': nat)
    requires w.Valid() && AllOk(w, cs, unused) && unused <= unused'
    ensures AllOk(w, cs, unused')
  {
    forall x | 0 <= x < |cs| ensures CacheOk(w.geo[x], cs[x], unused') {
      CacheOkGrows(w.geo[x], cs[x], unused, unused');
    }
  }

  // A cache without the line: by inclusion the caches above do not have it either.
  lemma ClearedAlready(w: Wiring, was: seq<Cache>, cs: seq<Cache>, unused: nat, c: nat, addr: int)
    requires w.Valid() && AllOk(w, was, unused) && c < |was|
    requires cs == was[c := WithSet(w.geo[c], was[c], addr)]
    requires PairsAbove(w, ViewOf(w, was), c, w.Block(addr)) && ViewOf(w, was)(c, w.Block(addr)) == None
    ensures DropsAbove(w, was, cs, c, addr) && !DirtyAbove(w, ViewOf(w, was), c, w.Block(addr))
    ensures AllOk(w, cs, unused) && Cleared(w, ViewOf(w, was), ViewOf(w, cs), c, w.Block(addr))
  {
    forall x: nat | x < |was| && w.Above(x, c)
      ensures ViewOf(w, was)(x, w.Block(addr)) == None && Drops(w.geo[x], was[x], cs[x], addr)
    {
      AbsentAbove(w, ViewOf(w, was), x, c, w.Block(addr));
      if x != c { Seen(w, was, unused, x, addr); }
    }
    DropsAboveOk(w, was, cs, unused, c, addr);
  }

  lemma NextReady(w: Wiring, was: seq<Cache>, cs: seq<Cache>, unused: nat, c: nat, i: nat, addr: int, self: Cache)
    requires w.Valid() && AllOk(w, was, unused) && c < |was| && i < |w.higher[c]|
    requires DropsWithin(w, was, cs, c, i, addr, self) && CacheOk(w.geo[c], self, unused)
    requires PairsAbove(w, ViewOf(w, was), c, w.Block(addr)) && UnlockedAbove(w, ViewOf(w, was), c, w.Block(addr))
    ensures var h, b := w.higher[c][i], w.Block(addr);
            && AllOk(w, cs, unused)
            && PairsAbove(w, ViewOf(w, cs), h, b) && UnlockedAbove(w, ViewOf(w, cs), h, b)
            && (DirtyWithin(w, ViewOf(w, was), c, i + 1, b) <==>
                DirtyWithin(w, ViewOf(w, was), c, i, b) || DirtyAbove(w, ViewOf(w, cs), h, b))
  {
    var h, b := w.higher[c][i], w.Block(addr);
    DropsWithinOk(w, was, cs, unused, c, i, addr, self);
    NextIntact(w, was, cs, c, i, addr, self);
    PairsAboveUp(w, ViewOf(w, was), c, i, b);
    forall x: nat | x < |w.geo| && w.Above(x, h) ensures w.Above(x, c) { w.AboveOnce(x, c, i, i); }
    Agree(w, ViewOf(w, was), ViewOf(w, cs), h, b);
  }

  // The set of a cache after room was made in it: the first evictable line is gone if it was full.
  ghost predicate Roomy(w: Wiring, cs: seq<Cache>, mid: seq<Cache>, c: nat, idx: int)
    requires w.Valid() && |cs| == |w.geo| && c < |cs|
  {
    var ls := SetAt(cs[c], idx);
    var k := FindVictim(w, cs, c, ls);
    && |mid| == |cs| && mid[c].mshr == cs[c].mshr && |SetAt(mid[c], idx)| < w.geo[c].assoc
    && (|ls| < w.geo[c].assoc ==> mid == cs)
    && (|ls| >= w.geo[c].assoc ==> k < |ls| && mid[c] == PutSet(cs[c], idx, Erase(ls, k)))
  }

  // A victim is another block than the one being fetched, so inclusion and lock order hold for it.
  lemma VictimReady(w: Wiring, cs: seq<Cache>, unused: nat, c: nat, idx: int, k: nat, addr: int, hx: int)
    requires w.Valid() && AllOk(w, cs, unused) && c < |cs| && k < |SetAt(cs[c], idx)|
    requires Evictable(w, cs, c, SetAt(cs[c], idx)[k])
    requires Pairs(w, ViewOf(w, cs), hx, w.Block(addr)) && ViewOf(w, cs)(c, w.Block(addr)) == None
    ensures var l := SetAt(cs[c], idx)[k];
            && FindNode(SetAt(cs[c], idx), l.node) == k && w.Block(l.addr) != w.Block(addr)
            && PairsAbove(w, ViewOf(w, cs), c, w.Block(l.addr)) && PairOk(w, ViewOf(w, cs), c, w.Block(l.addr))
            && ViewOf(w, cs)(c, w.Block(l.addr)).Some? && UnlockedAbove(w, ViewOf(w, cs), c, w.Block(l.addr))
  {
    var l, g := SetAt(cs[c], idx)[k], w.geo[c];
    assert CacheOk(g, cs[c], unused) && SetOk(g, idx, SetAt(cs[c], idx), unused);
    FoundAt(SetAt(cs[c], idx), k);
    Seen(w, cs, unused, c, l.addr);
    VictimUnlocked(w, cs, unused, c, idx, k);
  }

  // Everything the eviction of one victim keeps.
  lemma EvictedState(w: Wiring, cs: seq<Cache>, cs': seq<Cache>, unused: nat, c: nat, idx: int, k: nat, addr: int,
      hx: int, log: seq<Event>)
    requires w.Valid() && AllOk(w, cs, unused) && c < |cs| && k < |SetAt(cs[c], idx)|
    requires Evictable(w, cs, c, SetAt(cs[c], idx)[k]) && Evicts(w, cs, cs', c, idx, k, unused)
    requires Pairs(w, ViewOf(w, cs), hx, w.Block(addr)) && ViewOf(w, cs)(c, w.Block(addr)) == None
    requires Accounted(w, ViewOf(w, cs), log)
    ensures AllOk(w, cs', if w.lower[c] == -1 then unused else unused + 1) && |SetAt(cs'[c], idx)| < w.geo[c].assoc
    ensures Pairs(w, ViewOf(w, cs'), hx, w.Block(addr))
    ensures var l := SetAt(cs[c], idx)[k];
            Accounted(w, ViewOf(w, cs'), EvictLog(w, ViewOf(w, cs), c, w.Block(l.addr), l.addr, log))
    ensures forall x: nat :: ViewOf(w, cs')(x, w.Block(addr)) == ViewOf(w, cs)(x, w.Block(addr))
    ensures Alike(w, cs, cs', c, w.Block(addr))
  {
    var l, v := SetAt(cs[c], idx)[k], ViewOf(w, cs);
    VictimReady(w, cs, unused, c, idx, k, addr, hx);
    assert CacheOk(w.geo[c], cs[c], unused) && SetOk(w.geo[c], idx, SetAt(cs[c], idx), unused);
    EvictsOk(w, cs, cs', unused, c, idx, k);
    EvictedAlike(w, cs, cs', unused, c, idx, k, w.Block(addr));
    EvictedPairs(w, v, ViewOf(w, cs'), c, w.Block(l.addr), hx, w.Block(addr));
    EvictedAccounted(w, v, ViewOf(w, cs'), c, w.Block(l.addr), l.addr, log);
  }

  ghost function Stored(w: Wiring, c: nat, req: Request, log: seq<Event>): seq<Event>
    requires w.Valid() && c < |w.geo|
  {
    if req.write then log + [Store(w.Root(c), w.Block(req.addr))] else log
  }

  // One line of `c` changed for an access: what that means for every level.
  lemma Replaced(w: Wiring, cs: seq<Cache>, c: nat, c': Cache, unused: nat, unused': nat, locked: bool, req: Request,
      hx: int, log: seq<Event>)
    requires w.Valid() && AllOk(w, cs, unused) && c < |cs| && unused <= unused' && CacheOk(w.geo[c], c', unused')
    requires Pairs(w, ViewOf(w, cs), hx, w.Block(req.addr)) && Accounted(w, ViewOf(w, cs), log)
    requires hx == -1 || (0 <= hx < |w.geo| && w.lower[hx] == c && Locked(ViewOf(w, cs), hx, w.Block(req.addr)))
    requires OneStatus(w.geo[c], cs[c], c', w.Block(req.addr),
        Some(Status(locked, Dirty(ViewOf(w, cs), c, w.Block(req.addr)) || req.write)))
    ensures var b, v, v' := w.Block(req.addr), ViewOf(w, cs), ViewOf(w, cs[c := c']);
            && AllOk(w, cs[c := c'], unused') && Accounted(w, v', Stored(w, c, req, log))
            && One(v, v', c, b, Some(Status(locked, Dirty(v, c, b) || req.write)))
            && Waits(Stored(w, c, req, log)) == Waits(log)
            && Stores(Stored(w, c, req, log)) == Stores(log) + (if req.write then [(w.Root(c), b)] else [])
            && (v(c, b).Some? && locked == v(c, b).value.locked ==> Pairs(w, v', -1, b))
            && (v(c, b) == None && locked ==> Pairs(w, v', if w.lower[c] == -1 then -1 else c, b))
  {
    var b, v, v' := w.Block(req.addr), ViewOf(w, cs), ViewOf(w, cs[c := c']);
    var s := Status(locked, Dirty(v, c, b) || req.write);
    PutView(w, cs, c, c', b, Some(s));
    StoreAccounted(w, v, v', c, b, s, log, req.write);
    LogGrows(log, Store(w.Root(c), b));
    Grow(w, cs, unused, unused');
    if v(c, b).Some? && locked == v(c, b).value.locked { FillPairs(w, v, v', c, b, s, hx); }
    if v(c, b) == None && locked { InsertPairs(w, v, v', c, b, s.dirty, hx); }
  }

  lemma MergeReady(w: Wiring, cs: seq<Cache>, unused: nat, c: nat, addr: int, dirty: bool)
    requires w.Valid() && AllOk(w, cs, unused) && c < |cs| && HitMshr(w.geo[c], cs[c].mshr, addr) < |cs[c].mshr|
    ensures var g, b, i := w.geo[c], w.Block(addr), HitMshr(w.geo[c], cs[c].mshr, addr);
            var ls := SetAt(cs[c], g.Index(cs[c].mshr[i].addr));
            var k := FindNode(ls, cs[c].mshr[i].node);
            && Locked(ViewOf(w, cs), c, b)
            && k < |ls| && ls[k].locked && (ls[k].dirty <==> Dirty(ViewOf(w, cs), c, b))
            && CacheOk(g, Filled(g, cs[c], i, true, dirty), unused)
            && OneStatus(g, cs[c], Filled(g, cs[c], i, true, dirty), b, Some(Status(true, dirty)))
  {
    var g := w.geo[c];
    assert CacheOk(g, cs[c], unused);
    var m := cs[c].mshr[HitMshr(g, cs[c].mshr, addr)];
    var k := Pointee(g, cs[c], m, unused);
    StatusAt(g, cs[c], m.addr);
    MergeOk(g, cs[c], addr, unused, dirty);
  }

  // The caches after a miss register was given to a new line.
  ghost predicate Fetched(w: Wiring, cs: seq<Cache>, cs': seq<Cache>, c: nat, req: Request)
    requires w.Valid() && |cs| == |w.geo| && c < |cs|
  {
    var idx := w.geo[c].Index(req.addr);
    var ls := SetAt(cs[c], idx);
    var k := FindVictim(w, cs, c, ls);
    && |cs'| == |cs| && (|ls| < w.geo[c].assoc || k < |ls|)
    && var room := if |ls| < w.geo[c].assoc then ls else Erase(ls, k);
    exists node: nat ::
      && SetAt(cs'[c], idx) == room + [Line(node, req.addr, w.geo[c].Tag(req.addr), true, req.write)]
      && cs'[c].mshr == cs[c].mshr + [Mshr(req.addr, node)]
      && (forall i | i != idx :: SetAt(cs'[c], i) == SetAt(cs[c], i))
      && (|ls| < w.geo[c].assoc ==> forall x | 0 <= x < |cs| && x != c :: cs'[x] == cs[x])
  }

  lemma FetchedBy(w: Wiring, cs: seq<Cache>, mid: seq<Cache>, c: nat, req: Request, node: nat)
    requires w.Valid() && |cs| == |w.geo| && c < |cs| && Roomy(w, cs, mid, c, w.geo[c].Index(req.addr))
    ensures Fetched(w, cs, mid[c := Inserted(w.geo[c], mid[c], req.addr, node, req.write)], c, req)
  {}

  lemma NewLine(w: Wiring, was: seq<Cache>, mid: seq<Cache>, c1: Cache, node: nat, c: nat, req: Request, hx: int,
      log: seq<Event>)
    requires w.Valid() && |was| == |w.geo| && c < |was| && AllOk(w, mid, node)
    requires Roomy(w, was, mid, c, w.geo[c].Index(req.addr)) && |mid[c].mshr| < w.geo[c].mshrNum
    requires Pairs(w, ViewOf(w, mid), hx, w.Block(req.addr)) && Accounted(w, ViewOf(w, mid), log)
    requires hx == -1 || (0 <= hx < |w.geo| && w.lower[hx] == c && Locked(ViewOf(w, mid), hx, w.Block(req.addr)))
    requires ViewOf(w, mid)(c, w.Block(req.addr)) == None
    requires c1 == PutSet(mid[c], w.geo[c].Index(req.addr),
                     SetAt(mid[c], w.geo[c].Index(req.addr)) + [Line(node, req.addr, w.geo[c].Tag(req.addr),
                         true, false)])
    ensures var b, g := w.Block(req.addr), w.geo[c];
            var c' := Inserted(g, mid[c], req.addr, node, req.write);
            var cs, ls := mid[c := c'], SetAt(c1, g.Index(req.addr));
            var k := FindNode(ls, node);
            && k < |ls|
            && PutSet(c1, g.Index(req.addr), ls[k := ls[k].(dirty := req.write)])
                 .(mshr := c1.mshr + [Mshr(req.addr, node)]) == c'
            && AllOk(w, cs, node + 1) && Accounted(w, ViewOf(w, cs), Stored(w, c, req, log))
            && Pairs(w, ViewOf(w, cs), if w.lower[c] == -1 then -1 else c, b)
            && Fetched(w, was, cs, c, req)
            && One(ViewOf(w, mid), ViewOf(w, cs), c, b, Some(Status(true, req.write)))
            && Waits(Stored(w, c, req, log)) == Waits(log)
            && Stores(Stored(w, c, req, log)) == Stores(log) + (if req.write then [(w.Root(c), b)] else [])
  {
    var g := w.geo[c];
    assert CacheOk(g, mid[c], node);
    InsertOk(g, mid[c], req.addr, node, req.write);
    Replaced(w, mid, c, Inserted(g, mid[c], req.addr, node, req.write), node, node + 1, true, req, hx, log);
    FetchedBy(w, was, mid, c, req, node);
    MarkNew(g, mid[c], c1, req.addr, node, req.write);
  }

  // Setting the dirty bit of the line just appended, and registering it.
  lemma MarkNew(g: Geometry, c: Cache, c1: Cache, addr: int, node: nat, dirty: bool)
    requires g.Valid() && CacheOk(g, c, node)
    requires c1 == PutSet(c, g.Index(addr), SetAt(c, g.Index(addr)) + [Line(node, addr, g.Tag(addr), true, false)])
    ensures var ls := SetAt(c1, g.Index(addr));
            var k := FindNode(ls, node);
            && k < |ls|
            && PutSet(c1, g.Index(addr), ls[k := ls[k].(dirty := dirty)]).(mshr := c1.mshr + [Mshr(addr, node)])
               == Inserted(g, c, addr, node, dirty)
  {
    var was, idx := SetAt(c, g.Index(addr)), g.Index(addr);
    var ls := SetAt(c1, idx);
    assert idx in c.lines ==> SetOk(g, idx, was, node);
    assert ls[|was|].node == node;
    var k := FindNode(ls, node);
    assert forall i | 0 <= i < |was| :: ls[i] == was[i];
    assert k == |was|;
    assert ls[k := ls[k].(dirty := dirty)] == was + [Line(node, addr, g.Tag(addr), true, dirty)];
  }

  lemma WithSetState(w: Wiring, cs: seq<Cache>, unused: nat, c: nat, addr: int, hx: int, log: seq<Event>)
    requires w.Valid() && AllOk(w, cs, unused) && c < |cs| && Accounted(w, ViewOf(w, cs), log)
    requires Pairs(w, ViewOf(w, cs), hx, w.Block(addr))
    ensures var cs' := cs[c := WithSet(w.geo[c], cs[c], addr)];
            && AllOk(w, cs', unused) && (forall x: nat, z :: ViewOf(w, cs')(x, z) == ViewOf(w, cs)(x, z))
            && Accounted(w, ViewOf(w, cs'), log) && Pairs(w, ViewOf(w, cs'), hx, w.Block(addr))
  {
    assert CacheOk(w.geo[c], cs[c], unused);
    WithSetOk(w.geo[c], cs[c], addr, unused);
    SameView(w, ViewOf(w, cs), ViewOf(w, cs[c := WithSet(w.geo[c], cs[c], addr)]), hx, w.Block(addr), log);
  }

  // A miss register's list iterator is live.
  lemma CompletedReady(w: Wiring, cs: seq<Cache>, unused: nat, c: nat, addr: int)
    requires w.Valid() && AllOk(w, cs, unused) && c < |cs|
    ensures var g, i := w.geo[c], HitMshr(w.geo[c], cs[c].mshr, addr);
            i < |cs[c].mshr| ==>
              var ls := SetAt(cs[c], g.Index(cs[c].mshr[i].addr));
              FindNode(ls, cs[c].mshr[i].node) < |ls|
  {
    assert CacheOk(w.geo[c], cs[c], unused);
    if HitMshr(w.geo[c], cs[c].mshr, addr) < |cs[c].mshr| { ReleaseOk(w.geo[c], cs[c], addr, unused); }
  }

  lemma FreedUnlocks(w: Wiring, v: View, v': View, c: nat, b: int, log: seq<Event>)
    requires w.Valid() && c < |w.geo| && Freed(w, v, v', c, b)
    ensures forall x: nat | x < |w.geo| && w.Above(x, c) :: !Locked(v', x, b)
    ensures Pairs(w, v, -1, b) && Accounted(w, v, log) && (w.lower[c] != -1 ==> !Locked(v, w.lower[c], b)) ==>
              Pairs(w, v', -1, b) && Accounted(w, v', log)
  {
    if Pairs(w, v, -1, b) && Accounted(w, v, log) && (w.lower[c] != -1 ==> !Locked(v, w.lower[c], b)) {
      FreedKeeps(w, v, v', c, b, log);
    }
  }
}
