/** The stack property of the replacement: what a set holds is settled by which blocks were touched last. */
module CacheLru {
  import opened CacheAddress
  import opened CacheLines
  import opened CacheLevel
  import opened CacheTree
  import opened CacheUnlock
  import opened CacheSystems
  import opened Places

  // --- One set, as the tags it holds in replacement order. ---

  function Tags(ls: seq<Line>): (ts: seq<int>)
    ensures |ts| == |ls| && forall k | 0 <= k < |ls| :: ts[k] == ls[k].tag
  {
    seq(|ls|, k requires 0 <= k < |ls| => ls[k].tag)
  }

  // The distinct tags touched since `t` was last touched.
  function Since(trace: seq<int>, t: int): set<int> {
    if trace == [] || trace[|trace| - 1] == t then {} else Since(trace[..|trace| - 1], t) + {trace[|trace| - 1]}
  }

  /** A set after a trace of touches: each tag is followed by just those touched since it, and the tags that
      are no longer there have had all of the present ones touched after them. */
  ghost predicate Fits(assoc: nat, ts: seq<int>, trace: seq<int>) {
    && |ts| <= assoc && NoRepeats(ts)
    && (forall k | 0 <= k < |ts| :: ts[k] in trace && Since(trace, ts[k]) == Elements(ts[k + 1..]))
    && (forall t | t in trace && t !in ts :: |ts| == assoc && Elements(ts) <= Since(trace, t))
  }

  /** The stack theorem for one set: a tag is present exactly when it was touched before and fewer than `assoc`
      distinct others were touched since. */
  lemma PresentIff(assoc: nat, ts: seq<int>, trace: seq<int>, t: int)
    requires Fits(assoc, ts, trace)
    ensures t in ts <==> t in trace && |Since(trace, t)| < assoc
  {
    hide Since, Elements, NoRepeats;
    if t in ts {
      var k :| 0 <= k < |ts| && ts[k] == t;
      CountAfter(ts, k);
    } else if t in trace {
      Count(ts);
      SubsetCount(Elements(ts), Since(trace, t));
    }
  }

  lemma CountAfter(ts: seq<int>, k: nat)
    requires NoRepeats(ts) && k < |ts|
    ensures |Elements(ts[k + 1..])| == |ts| - k - 1
  {
    NoRepeatsPart(ts, k + 1, |ts|);
    assert ts[k + 1..|ts|] == ts[k + 1..];
    Count(ts[k + 1..]);
  }

  // --- The three ways a touch changes the set. ---

  lemma Touch(trace: seq<int>, x: int, t: int)
    ensures Since(trace + [x], t) == if x == t then {} else Since(trace, t) + {x}
    ensures t in trace + [x] <==> t in trace || t == x
  {
    assert (trace + [x])[..|trace|] == trace;
  }

  function Moved(ts: seq<int>, k: nat): (us: seq<int>)
    requires k < |ts|
    ensures |us| == |ts| && forall i | 0 <= i < |ts| :: us[i] == ts[From(|ts|, k, i)]
  {
    ts[..k] + ts[k + 1..] + [ts[k]]
  }

  // Where the `i`-th element was before element `k` was moved to the end.
  function From(n: nat, k: nat, i: nat): (f: nat)
    requires k < n && i < n
    ensures f < n
  {
    if i < k then i else if i < n - 1 then i + 1 else k
  }

  lemma MovedSame(ts: seq<int>, k: nat)
    requires NoRepeats(ts) && k < |ts|
    ensures NoRepeats(Moved(ts, k)) && Elements(Moved(ts, k)) == Elements(ts)
    ensures forall t :: t in Moved(ts, k) <==> t in ts
  {
    var us, n := Moved(ts, k), |ts|;
    forall i, j | 0 <= i < j < n ensures Unlike(us, i, j) {
      var a, b := From(n, k, i), From(n, k, j);
      assert if a < b then Unlike(ts, a, b) else Unlike(ts, b, a);
    }
    assert us + [] == ts[..k] + ts[k + 1..] + [ts[k]] && ts == ts[..k] + [ts[k]] + ts[k + 1..];
  }

  lemma TouchPresent(assoc: nat, ts: seq<int>, trace: seq<int>, k: nat)
    requires Fits(assoc, ts, trace) && k < |ts|
    ensures Fits(assoc, Moved(ts, k), trace + [ts[k]])
  {
    var x, n, us := ts[k], |ts|, Moved(ts, k);
    MovedSame(ts, k);
    forall j | 0 <= j < n ensures us[j] in trace + [x] && Since(trace + [x], us[j]) == Elements(us[j + 1..]) {
      Touch(trace, x, us[j]);
      if j < n - 1 {
        MovedTail(ts, k, j);
        assert Unlike(us, j, n - 1);
      }
    }
    forall t | t in trace + [x] && t !in us ensures |us| == assoc && Elements(us) <= Since(trace + [x], t) {
      Touch(trace, x, t);
    }
  }

  // What follows an element once `ts[k]` was moved to the end.
  lemma MovedTail(ts: seq<int>, k: nat, j: nat)
    requires k < |ts| && j < |ts| - 1
    ensures Elements(Moved(ts, k)[j + 1..]) == Elements(ts[From(|ts|, k, j) + 1..]) + {ts[k]}
  {
    var us, i := Moved(ts, k), From(|ts|, k, j);
    if j < k {
      assert us[j + 1..] == ts[j + 1..k] + ts[k + 1..] + [ts[k]];
      assert ts[i + 1..] == ts[j + 1..k] + [ts[k]] + ts[k + 1..];
    } else {
      assert us[j + 1..] == ts[i + 1..] + [ts[k]];
    }
  }

  lemma TouchAbsent(assoc: nat, ts: seq<int>, trace: seq<int>, x: int)
    requires Fits(assoc, ts, trace) && x !in ts && assoc > 0
    ensures Fits(assoc, ts[if |ts| < assoc then 0 else 1..] + [x], trace + [x])
  {
    hide Since, Elements, NoRepeats;
    var d := if |ts| < assoc then 0 else 1;
    var us := ts[d..] + [x];
    Pushed(ts, d, x);
    forall j | 0 <= j < |us| ensures us[j] in trace + [x] && Since(trace + [x], us[j]) == Elements(us[j + 1..]) {
      StillFollowed(ts, trace, d, x, j);
    }
    forall t | t in trace + [x] && t !in us ensures |us| == assoc && Elements(us) <= Since(trace + [x], t) {
      Gone(assoc, ts, trace, d, x, t);
    }
  }

  lemma StillFollowed(ts: seq<int>, trace: seq<int>, d: nat, x: int, j: nat)
    requires d <= |ts| && j <= |ts| - d && x !in ts
    requires forall k | 0 <= k < |ts| :: ts[k] in trace && Since(trace, ts[k]) == Elements(ts[k + 1..])
    ensures var us := ts[d..] + [x];
            us[j] in trace + [x] && Since(trace + [x], us[j]) == Elements(us[j + 1..])
  {
    var us := ts[d..] + [x];
    Touch(trace, x, us[j]);
    if j < |ts| - d {
      assert us[j] == ts[j + d];
      assert us[j + 1..] == ts[j + d + 1..] + [x];
      PushElements(ts[j + d + 1..], x);
    }
  }

  lemma Gone(assoc: nat, ts: seq<int>, trace: seq<int>, d: nat, x: int, t: int)
    requires Fits(assoc, ts, trace) && x !in ts && assoc > 0 && d == if |ts| < assoc then 0 else 1
    requires t in trace + [x] && t !in ts[d..] + [x]
    ensures |ts[d..] + [x]| == assoc && Elements(ts[d..] + [x]) <= Since(trace + [x], t)
  {
    Touch(trace, x, t);
    Pushed(ts, d, x);
    assert t in ts ==> t == ts[0];
  }

  lemma PushElements(ts: seq<int>, x: int)
    ensures Elements(ts + [x]) == Elements(ts) + {x}
  {}

  // Dropping the first `d` and appending a new element.
  lemma Pushed(ts: seq<int>, d: nat, x: int)
    requires NoRepeats(ts) && x !in ts && d <= |ts|
    ensures NoRepeats(ts[d..] + [x]) && Elements(ts[d..] + [x]) == Elements(ts[d..]) + {x}
    ensures Elements(ts[d..]) <= Elements(ts) && (d == 1 ==> Elements(ts) == Elements(ts[1..]) + {ts[0]})
    ensures d == 1 ==> forall t | t in ts && t !in ts[d..] :: t == ts[0]
  {
    var us := ts[d..] + [x];
    forall i, j | 0 <= i < j < |us| ensures Unlike(us, i, j) {
      if j < |us| - 1 { assert Unlike(ts, i + d, j + d); }
    }
    if d == 1 { assert ts == [ts[0]] + ts[1..]; }
  }

  // --- The trace of one set, out of the trace of addresses. ---

  function SetTrace(g: Geometry, trace: seq<int>, idx: int): seq<int>
    requires g.Valid()
  {
    if trace == [] then [] else
      var addr := trace[|trace| - 1];
      SetTrace(g, trace[..|trace| - 1], idx) + if g.Index(addr) == idx then [g.Tag(addr)] else []
  }

  lemma SetTraceGrows(g: Geometry, trace: seq<int>, addr: int, idx: int)
    requires g.Valid()
    ensures SetTrace(g, trace + [addr], idx) == SetTrace(g, trace, idx) + if g.Index(addr) == idx
        then [g.Tag(addr)] else []
  {
    assert (trace + [addr])[..|trace|] == trace;
  }

  // No miss is outstanding, and every set fits the trace so far.
  ghost predicate Settled(g: Geometry, c: Cache, trace: seq<int>)
    requires g.Valid()
  {
    c.mshr == [] && forall idx :: Fits(g.assoc, Tags(SetAt(c, idx)), SetTrace(g, trace, idx))
  }

  lemma SettledStep(g: Geometry, c: Cache, c': Cache, trace: seq<int>, addr: int)
    requires g.Valid() && Settled(g, c, trace) && c'.mshr == []
    requires forall idx | idx != g.Index(addr) :: Tags(SetAt(c', idx)) == Tags(SetAt(c, idx))
    requires Fits(g.assoc, Tags(SetAt(c', g.Index(addr))), SetTrace(g, trace, g.Index(addr)) + [g.Tag(addr)])
    ensures Settled(g, c', trace + [addr])
  {
    forall idx ensures Fits(g.assoc, Tags(SetAt(c', idx)), SetTrace(g, trace + [addr], idx)) {
      SetTraceGrows(g, trace, addr, idx);
      assert idx != g.Index(addr) ==> SetTrace(g, trace + [addr], idx) == SetTrace(g, trace, idx);
    }
  }

  // With no miss outstanding nothing is locked, so every access is accepted.
  lemma QuietCase(w: Wiring, cs: seq<Cache>, unused: nat, c: nat, addr: int)
    requires w.Valid() && AllOk(w, cs, unused) && c < |cs| && cs[c].mshr == [] && w.higher[c] == []
        && w.geo[c].mshrNum > 0
    ensures var ls := SetAt(cs[c], w.geo[c].Index(addr));
            && (Hits(w, cs, c, addr) <==> w.geo[c].Tag(addr) in Tags(ls)) && !Merges(w, cs, c, addr)
            && WillAccept(w, cs, c, addr) && (|ls| >= w.geo[c].assoc ==> FindVictim(w, cs, c, ls) == 0)
  {
    var g, idx := w.geo[c], w.geo[c].Index(addr);
    var ls := SetAt(cs[c], idx);
    Seen(w, cs, unused, c, addr);
    assert CacheOk(g, cs[c], unused) && SetOk(g, idx, ls, unused);
    forall k | 0 <= k < |ls| ensures !ls[k].locked {
      Seen(w, cs, unused, c, ls[k].addr);
      FoundAt(ls, k);
      assert ls[k].locked ==> Owned(g, cs[c].mshr, w.Block(ls[k].addr));
    }
    var k := FindTag(ls, g.Tag(addr));
    if k < |ls| { assert Tags(ls)[k] == g.Tag(addr); }
  }

  lemma HitTags(g: Geometry, c: Cache, addr: int, node: nat, dirty: bool)
    requires g.Valid() && g.Tag(addr) in Tags(SetAt(c, g.Index(addr)))
    ensures var c', ls := Touched(g, c, addr, node, dirty), SetAt(c, g.Index(addr));
            var k := FindTag(ls, g.Tag(addr));
            && k < |ls| && Tags(SetAt(c', g.Index(addr))) == Moved(Tags(ls), k) && c'.mshr == c.mshr
            && forall idx | idx != g.Index(addr) :: SetAt(c', idx) == SetAt(c, idx)
  {
    hide Geometry.Index, Geometry.Tag, Geometry.Valid;
    var ls, l := SetAt(c, g.Index(addr)), Line(node, addr, g.Tag(addr), false, dirty);
    var k := FindTag(ls, g.Tag(addr));
    MovedTags(ls, k, l);
  }

  lemma MovedTags(ls: seq<Line>, k: nat, l: Line)
    requires k < |ls| && l.tag == ls[k].tag
    ensures Tags(Erase(ls + [l], k)) == Moved(Tags(ls), k)
  {
    var us := Erase(ls + [l], k);
    assert forall i | 0 <= i < |us| :: us[i] == (ls + [l])[if i < k then i else i + 1];
  }

  // A fetch followed at once by its completion.
  lemma MissTags(w: Wiring, cs: seq<Cache>, cs': seq<Cache>, c: nat, req: Request)
    requires w.Valid() && |cs| == |w.geo| && c < |cs| && cs[c].mshr == [] && Fetched(w, cs, cs', c, req)
    requires var ls := SetAt(cs[c], w.geo[c].Index(req.addr));
             |ls| >= w.geo[c].assoc ==> FindVictim(w, cs, c, ls) == 0
    ensures var g, ls := w.geo[c], SetAt(cs[c], w.geo[c].Index(req.addr));
            var c'' := Completed(g, cs'[c], req.addr);
            && Tags(SetAt(c'', g.Index(req.addr))) == Tags(ls)[if |ls| < g.assoc then 0 else 1..] + [g.Tag(req.addr)]
            && c''.mshr == [] && forall idx | idx != g.Index(req.addr) :: SetAt(c'', idx) == SetAt(cs[c], idx)
  {
    hide Geometry.Index, Geometry.Tag, Geometry.Valid, FindVictim, FindTag;
    var g, idx := w.geo[c], w.geo[c].Index(req.addr);
    var ls, c' := SetAt(cs[c], idx), cs'[c];
    var room := if |ls| < g.assoc then ls else Erase(ls, 0);
    var node: nat :|
      && SetAt(c', idx) == room + [Line(node, req.addr, g.Tag(req.addr), true, req.write)]
      && c'.mshr == [] + [Mshr(req.addr, node)];
    assert c'.mshr[0] == Mshr(req.addr, node) && HitMshr(g, c'.mshr, req.addr) == 0;
    assert Tags(SetAt(c', idx)) == Tags(ls)[if |ls| < g.assoc then 0 else 1..] + [g.Tag(req.addr)];
  }

  // The block of an address was touched before, and since then fewer than `assoc` others of its set.
  ghost predicate Reused(g: Geometry, trace: seq<int>, addr: int)
    requires g.Valid()
  {
    var since := SetTrace(g, trace, g.Index(addr));
    g.Tag(addr) in since && |Since(since, g.Tag(addr))| < g.assoc
  }

  /** The LRU stack theorem, kept by every access to a last-level cache without caches above it whose fills
      return before the next access: it hits exactly when the block was touched before and fewer than `assoc`
      distinct other blocks of its set were touched since. */
  method Access(s: CacheSystem, c: nat, req: Request, ghost trace: seq<int>) returns (hit: bool)
    requires s.Valid(-1, s.w.Block(req.addr)) && c < |s.caches|
    requires s.w.lower[c] == -1 && s.w.higher[c] == [] && s.w.geo[c].mshrNum > 0
    requires Settled(s.w.geo[c], s.caches[c], trace)
    modifies s
    ensures s.Valid(-1, s.w.Block(req.addr)) && Settled(s.w.geo[c], s.caches[c], trace + [req.addr])
    ensures hit <==> Reused(s.w.geo[c], trace, req.addr)
  {
    hide Fits, Pairs, Accounted, CacheOk, ViewOf, Waits, Stores, Fetched, Touched, Completed, Tags, Since, SetTrace,
         Hits, Merges, WillAccept, FindVictim, Wiring.Block, Geometry.Index, Geometry.Tag;
    ghost var was, node, g := s.caches, s.unused, s.w.geo[c];
    ghost var idx := g.Index(req.addr);
    ghost var ls := SetAt(s.caches[c], idx);
    QuietCase(s.w, s.caches, s.unused, c, req.addr);
    PresentIff(g.assoc, Tags(ls), SetTrace(g, trace, idx), g.Tag(req.addr));
    var before := |s.hitList|;
    var accepted;
    ghost var hole;
    accepted, hole := s.Send(c, req, -1);
    hit := |s.hitList| > before;
    if hit {
      HitTags(g, was[c], req.addr, node, Dirty(ViewOf(s.w, was), c, s.w.Block(req.addr)) || req.write);
      TouchPresent(g.assoc, Tags(ls), SetTrace(g, trace, idx), FindTag(ls, g.Tag(req.addr)));
    } else {
      MissTags(s.w, was, s.caches, c, req);
      TouchAbsent(g.assoc, Tags(ls), SetTrace(g, trace, idx), g.Tag(req.addr));
      s.Callback(c, req.addr);
    }
    SettledStep(g, was[c], s.caches[c], trace, req.addr);
  }

  lemma SettledEmpty(g: Geometry)
    requires g.Valid()
    ensures Settled(g, Cache(map[], []), [])
  {}

  function Addresses(reqs: seq<Request>): (addrs: seq<int>)
    ensures |addrs| == |reqs| && forall k | 0 <= k < |reqs| :: addrs[k] == reqs[k].addr
  {
    seq(|reqs|, k requires 0 <= k < |reqs| => reqs[k].addr)
  }

  lemma TakeOneMore(xs: seq<int>, k: nat)
    requires k < |xs|
    ensures xs[..k + 1] == xs[..k] + [xs[k]]
  {}

  /** A whole run of one cache, from empty: every request hits exactly when its block is among the `assoc` blocks
      of its set that were touched last. */
  method Replay(w: Wiring, c: nat, reqs: seq<Request>) returns (hits: seq<bool>)
    requires w.Valid() && c < |w.geo| && w.lower[c] == -1 && w.higher[c] == [] && w.geo[c].mshrNum > 0
    ensures |hits| == |reqs|
    ensures forall k | 0 <= k < |reqs| :: hits[k] <==> Reused(w.geo[c], Addresses(reqs)[..k], reqs[k].addr)
  {
    assert w.geo[c].Valid() && |w.lower| == |w.higher| == |w.geo|;
    hide Wiring.Valid, Geometry.Valid, Wiring.Block, Settled, Reused, Pairs, Accounted, CacheOk, ViewOf, Waits,
         Addresses;
    var s := new CacheSystem(w);
    SettledEmpty(w.geo[c]);
    ghost var addrs := Addresses(reqs);
    hits := [];
    for i := 0 to |reqs|
      invariant s.w == w && s.Valid(-1, 0) && |s.caches| == |w.geo|
      invariant |hits| == i && Settled(w.geo[c], s.caches[c], addrs[..i])
      invariant forall k | 0 <= k < i :: hits[k] <==> Reused(w.geo[c], addrs[..k], addrs[k])
    {
      NothingMissing(w, s.V(), 0, w.Block(reqs[i].addr));
      var hit := Access(s, c, reqs[i], addrs[..i]);
      TakeOneMore(addrs, i);
      NothingMissing(w, s.V(), w.Block(reqs[i].addr), 0);
      hits := hits + [hit];
    }
  }
}
