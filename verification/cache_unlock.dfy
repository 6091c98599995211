/** The recursive unlock check that keeps locked lines from being back-invalidated, and the choice of victim. */
module CacheUnlock {
  import opened CacheAddress
  import opened CacheLines
  import opened CacheLevel
  import opened CacheTree

  ghost predicate AllOk(w: Wiring, cs: seq<Cache>, unused: nat)
    requires w.Valid()
  {
    |cs| == |w.geo| && forall x | 0 <= x < |cs| :: CacheOk(w.geo[x], cs[x], unused)
  }

  // Whether the line of `addr` is unlocked in this cache and in every cache above that holds it.
  function CheckUnlock(w: Wiring, cs: seq<Cache>, c: nat, addr: int): bool
    requires w.Valid() && |cs| == |w.geo| && c < |cs|
    decreases c, |w.higher[c]| + 1
  {
    var ls := SetAt(cs[c], w.geo[c].Index(addr));
    var k := FindTag(ls, w.geo[c].Tag(addr));
    if k == |ls| then true else !ls[k].locked && HigherUnlock(w, cs, c, 0, ls[k].addr)
  }

  function HigherUnlock(w: Wiring, cs: seq<Cache>, c: nat, i: nat, addr: int): bool
    requires w.Valid() && |cs| == |w.geo| && c < |cs| && i <= |w.higher[c]|
    decreases c, |w.higher[c]| - i
  {
    i == |w.higher[c]| || (CheckUnlock(w, cs, w.higher[c][i], addr) && HigherUnlock(w, cs, c, i + 1, addr))
  }

  // What a lookup in a set says about the view.
  lemma Seen(w: Wiring, cs: seq<Cache>, unused: nat, c: nat, addr: int)
    requires w.Valid() && AllOk(w, cs, unused) && c < |cs|
    ensures var ls := SetAt(cs[c], w.geo[c].Index(addr));
            var k := FindTag(ls, w.geo[c].Tag(addr));
            && Distinct(ls) && ViewOf(w, cs)(c, w.Block(addr)) == Lookup(ls, w.geo[c].Tag(addr))
            && (ViewOf(w, cs)(c, w.Block(addr)) == None <==> k == |ls|)
            && (k < |ls| ==> w.Block(ls[k].addr) == w.Block(addr))
  {
    var g := w.geo[c];
    var ls := SetAt(cs[c], g.Index(addr));
    assert CacheOk(g, cs[c], unused);
    assert SetOk(g, g.Index(addr), ls, unused);
    StatusAt(g, cs[c], addr);
    var k := FindTag(ls, g.Tag(addr));
    if k < |ls| { g.AlignIsIndexAndTag(ls[k].addr, addr); }
  }

  /** The check succeeds exactly when no cache from here up holds the block locked. */
  lemma {:induction false} CheckUnlockMeaning(w: Wiring, cs: seq<Cache>, unused: nat, c: nat, addr: int)
    requires w.Valid() && AllOk(w, cs, unused) && c < |cs| && PairsAbove(w, ViewOf(w, cs), c, w.Block(addr))
    ensures CheckUnlock(w, cs, c, addr) <==> UnlockedAbove(w, ViewOf(w, cs), c, w.Block(addr))
    decreases c, |w.higher[c]| + 1
  {
    var v, b := ViewOf(w, cs), w.Block(addr);
    Seen(w, cs, unused, c, addr);
    var ls := SetAt(cs[c], w.geo[c].Index(addr));
    var k := FindTag(ls, w.geo[c].Tag(addr));
    if k == |ls| {
      forall x: nat | x < |w.geo| && w.Above(x, c) ensures !Locked(v, x, b) { AbsentAbove(w, v, x, c, b); }
    } else {
      HigherUnlockMeaning(w, cs, unused, c, 0, ls[k].addr);
      assert w.Above(c, c);
      if CheckUnlock(w, cs, c, addr) {
        forall x: nat | x < |w.geo| && w.Above(x, c) ensures !Locked(v, x, b) {
          if x != c { var i := w.AboveStep(x, c); assert UnlockedAbove(w, v, w.higher[c][i], b); }
        }
      } else if !ls[k].locked {
        var i: nat :| i < |w.higher[c]| && !UnlockedAbove(w, v, w.higher[c][i], b);
        var x: nat :| x < |w.geo| && w.Above(x, w.higher[c][i]) && Locked(v, x, b);
        w.AboveOnce(x, c, i, i);
      }
    }
  }

  lemma {:induction false} HigherUnlockMeaning(w: Wiring, cs: seq<Cache>, unused: nat, c: nat, i: nat, addr: int)
    requires w.Valid() && AllOk(w, cs, unused) && c < |cs| && PairsAbove(w, ViewOf(w, cs), c, w.Block(addr))
    requires i <= |w.higher[c]|
    ensures HigherUnlock(w, cs, c, i, addr) <==>
            forall j: nat | i <= j < |w.higher[c]| :: UnlockedAbove(w, ViewOf(w, cs), w.higher[c][j], w.Block(addr))
    decreases c, |w.higher[c]| - i
  {
    hide PairsAbove, UnlockedAbove, CacheOk, CheckUnlock;
    if i < |w.higher[c]| {
      PairsAboveUp(w, ViewOf(w, cs), c, i, w.Block(addr));
      CheckUnlockMeaning(w, cs, unused, w.higher[c][i], addr);
      HigherUnlockMeaning(w, cs, unused, c, i + 1, addr);
    }
  }

  // A line that may be evicted.
  predicate Evictable(w: Wiring, cs: seq<Cache>, c: nat, l: Line)
    requires w.Valid() && |cs| == |w.geo| && c < |cs|
  {
    !l.locked && HigherUnlock(w, cs, c, 0, l.addr)
  }

  // The least recently used line that is unlocked at every level, or the length of the list.
  function FindVictim(w: Wiring, cs: seq<Cache>, c: nat, ls: seq<Line>): (k: nat)
    requires w.Valid() && |cs| == |w.geo| && c < |cs|
    ensures k <= |ls| && (k < |ls| ==> Evictable(w, cs, c, ls[k]))
    ensures forall i | 0 <= i < k :: !Evictable(w, cs, c, ls[i])
  {
    if ls == [] then 0 else if Evictable(w, cs, c, ls[0]) then 0 else 1 + FindVictim(w, cs, c, ls[1..])
  }

  // A free line in the set of an address, or one that may be evicted.
  predicate HasRoom(w: Wiring, cs: seq<Cache>, c: nat, addr: int)
    requires w.Valid() && |cs| == |w.geo| && c < |cs|
  {
    var ls := SetAt(cs[c], w.geo[c].Index(addr));
    |ls| < w.geo[c].assoc || FindVictim(w, cs, c, ls) < |ls|
  }

  // The block is there and valid.
  predicate Hits(w: Wiring, cs: seq<Cache>, c: nat, addr: int)
    requires w.Valid() && |cs| == |w.geo| && c < |cs|
  {
    var ls := SetAt(cs[c], w.geo[c].Index(addr));
    var k := FindTag(ls, w.geo[c].Tag(addr));
    k < |ls| && !ls[k].locked
  }

  // The block is already being fetched.
  predicate Merges(w: Wiring, cs: seq<Cache>, c: nat, addr: int)
    requires w.Valid() && |cs| == |w.geo| && c < |cs|
  {
    HitMshr(w.geo[c], cs[c].mshr, addr) < |cs[c].mshr|
  }

  /** What a cache takes: a hit, a miss on a block already being fetched, or a miss that finds a free miss
      register and either a free line or a line unlocked at every level. */
  predicate WillAccept(w: Wiring, cs: seq<Cache>, c: nat, addr: int)
    requires w.Valid() && |cs| == |w.geo| && c < |cs|
  {
    Hits(w, cs, c, addr) || Merges(w, cs, c, addr) || (|cs[c].mshr| < w.geo[c].mshrNum && HasRoom(w, cs, c, addr))
  }

  // A victim's block is unlocked from its cache up.
  lemma VictimUnlocked(w: Wiring, cs: seq<Cache>, unused: nat, c: nat, idx: int, k: nat)
    requires w.Valid() && AllOk(w, cs, unused) && c < |cs| && k < |SetAt(cs[c], idx)|
    requires Evictable(w, cs, c, SetAt(cs[c], idx)[k])
    requires PairsAbove(w, ViewOf(w, cs), c, w.Block(SetAt(cs[c], idx)[k].addr))
    ensures var l := SetAt(cs[c], idx)[k];
            && w.geo[c].Index(l.addr) == idx && FindTag(SetAt(cs[c], idx), l.tag) == k && l.tag == w.geo[c].Tag(l.addr)
            && UnlockedAbove(w, ViewOf(w, cs), c, w.Block(l.addr))
            && ViewOf(w, cs)(c, w.Block(l.addr)) == Some(Status(false, l.dirty))
  {
    var l, g := SetAt(cs[c], idx)[k], w.geo[c];
    assert CacheOk(g, cs[c], unused) && SetOk(g, idx, SetAt(cs[c], idx), unused);
    Seen(w, cs, unused, c, l.addr);
    FoundAt(SetAt(cs[c], idx), k);
    HigherUnlockMeaning(w, cs, unused, c, 0, l.addr);
    forall x: nat | x < |w.geo| && w.Above(x, c) ensures !Locked(ViewOf(w, cs), x, w.Block(l.addr)) {
      if x != c { var i := w.AboveStep(x, c); assert UnlockedAbove(w, ViewOf(w, cs), w.higher[c][i], w.Block(l.addr)); }
    }
  }
}
