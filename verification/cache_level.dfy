/** One cache of the hierarchy: its sets and its miss registers (MSHR entries). */
module CacheLevel {
  import opened BitArithmetic
  import opened CacheAddress
  import opened CacheLines

  // A miss register: the address of the miss and the list node of the line it fills.
  datatype Mshr = Mshr(addr: int, node: nat)

  datatype Cache = Cache(lines: map<int, seq<Line>>, mshr: seq<Mshr>)

  function SetAt(c: Cache, idx: int): seq<Line> {
    if idx in c.lines then c.lines[idx] else []
  }

  function PutSet(c: Cache, idx: int, ls: seq<Line>): Cache {
    c.(lines := c.lines[idx := ls])
  }

  // What the cache holds of a block.
  function StatusIn(g: Geometry, c: Cache, b: int): Option<Status>
    requires g.Valid()
  {
    Lookup(SetAt(c, b % g.Sets()), b / g.Sets())
  }

  // Every line sits in the set of its address under the tag of its address; tags and nodes are unique.
  predicate SetOk(g: Geometry, idx: int, ls: seq<Line>, unused: nat)
    requires g.Valid()
  {
    && Distinct(ls) && |ls| <= g.assoc
    && forall k | 0 <= k < |ls| :: ls[k].node < unused && g.Index(ls[k].addr) == idx && ls[k].tag == g.Tag(ls[k].addr)
  }

  predicate SetsOk(g: Geometry, c: Cache, unused: nat)
    requires g.Valid()
  {
    forall idx | idx in c.lines :: SetOk(g, idx, c.lines[idx], unused)
  }

  // The iterator of a miss register points to a locked line with the tag of its address.
  ghost predicate PointsTo(g: Geometry, c: Cache, m: Mshr)
    requires g.Valid()
  {
    HasLocked(SetAt(c, g.Index(m.addr)), m.node, g.Tag(m.addr))
  }

  ghost predicate Owned(g: Geometry, ms: seq<Mshr>, b: int) {
    exists i | 0 <= i < |ms| :: g.Block(ms[i].addr) == b
  }

  /** Miss registers and locked lines correspond one to one. */
  ghost predicate MshrOk(g: Geometry, c: Cache)
    requires g.Valid()
  {
    && |c.mshr| <= g.mshrNum
    && (forall i | 0 <= i < |c.mshr| :: PointsTo(g, c, c.mshr[i]))
    && (forall i, j | 0 <= i < j < |c.mshr| :: g.Block(c.mshr[i].addr) != g.Block(c.mshr[j].addr))
    && (forall b :: StatusIn(g, c, b).Some? && StatusIn(g, c, b).value.locked ==> Owned(g, c.mshr, b))
  }

  ghost predicate CacheOk(g: Geometry, c: Cache, unused: nat)
    requires g.Valid()
  {
    SetsOk(g, c, unused) && MshrOk(g, c)
  }

  // The first miss register whose line address is that of `addr`, or their number.
  function HitMshr(g: Geometry, ms: seq<Mshr>, addr: int): (i: nat)
    requires g.Valid()
    ensures i <= |ms|
    ensures i < |ms| ==> g.Block(ms[i].addr) == g.Block(addr)
    ensures forall j | 0 <= j < i :: g.Block(ms[j].addr) != g.Block(addr)
  {
    if ms == [] then 0 else
      g.AlignIsIndexAndTag(ms[0].addr, addr);
      if g.Align(ms[0].addr) == g.Align(addr) then 0 else 1 + HitMshr(g, ms[1..], addr)
  }

  function AllSetsLocked(g: Geometry, ls: seq<Line>): bool {
    |ls| >= g.assoc && forall k | 0 <= k < |ls| :: ls[k].locked
  }

  // --- Where a block is looked up. ---

  lemma BlockPlace(g: Geometry, addr: int, b: int)
    requires g.Valid()
    ensures b == g.Block(addr) <==> b % g.Sets() == g.Index(addr) && b / g.Sets() == g.Tag(addr)
  {
    g.TagOfBlock(addr);
    DivMod(b, g.Sets());
    DivMod(g.Block(addr), g.Sets());
  }

  // The status of a block after the set of some address was replaced.
  lemma PutStatus(g: Geometry, c: Cache, addr: int, ls: seq<Line>, b: int)
    requires g.Valid()
    ensures StatusIn(g, PutSet(c, g.Index(addr), ls), b) ==
            if b == g.Block(addr) then Lookup(ls, g.Tag(addr))
            else if b % g.Sets() == g.Index(addr) then Lookup(ls, b / g.Sets())
            else StatusIn(g, c, b)
  {
    BlockPlace(g, addr, b);
  }

  lemma StatusAt(g: Geometry, c: Cache, addr: int)
    requires g.Valid()
    ensures StatusIn(g, c, g.Block(addr)) == Lookup(SetAt(c, g.Index(addr)), g.Tag(addr))
  {
    BlockPlace(g, addr, g.Block(addr));
  }

  /** A block holds a miss register exactly when its line is locked. */
  lemma MshrIffLocked(g: Geometry, c: Cache, addr: int, unused: nat)
    requires g.Valid() && CacheOk(g, c, unused)
    ensures HitMshr(g, c.mshr, addr) < |c.mshr| <==>
            StatusIn(g, c, g.Block(addr)).Some? && StatusIn(g, c, g.Block(addr)).value.locked
  {
    var i := HitMshr(g, c.mshr, addr);
    StatusAt(g, c, addr);
    if i < |c.mshr| {
      var m := c.mshr[i];
      g.AlignIsIndexAndTag(m.addr, addr);
      var k := Pointee(g, c, m, unused);
    } else {
      var s := StatusIn(g, c, g.Block(addr));
      assert s.Some? && s.value.locked ==> Owned(g, c.mshr, g.Block(addr));
    }
  }

  // The line a miss register points to is the one its tag finds.
  lemma Pointee(g: Geometry, c: Cache, m: Mshr, unused: nat) returns (k: nat)
    requires g.Valid() && SetsOk(g, c, unused) && PointsTo(g, c, m)
    ensures var ls := SetAt(c, g.Index(m.addr));
            && k < |ls| && ls[k].node == m.node && ls[k].tag == g.Tag(m.addr) && ls[k].locked && Distinct(ls)
            && g.Index(m.addr) in c.lines && FindNode(ls, m.node) == k && FindTag(ls, g.Tag(m.addr)) == k
            && Lookup(ls, g.Tag(m.addr)) == Some(Status(true, ls[k].dirty))
  {
    var ls := SetAt(c, g.Index(m.addr));
    k :| 0 <= k < |ls| && ls[k].node == m.node && ls[k].tag == g.Tag(m.addr) && ls[k].locked;
    FoundAt(ls, k);
  }

  // --- What each operation on one set does to the cache. ---

  ghost predicate OneStatus(g: Geometry, c: Cache, c': Cache, b: int, s: Option<Status>)
    requires g.Valid()
  {
    forall x :: StatusIn(g, c', x) == if x == b then s else StatusIn(g, c, x)
  }

  // Replacing a set by an edited one.
  lemma PutOk(g: Geometry, c: Cache, addr: int, ls: seq<Line>, s: Option<Status>, unused: nat, unused': nat)
    requires g.Valid() && CacheOk(g, c, unused) && unused <= unused' && SetOk(g, g.Index(addr), ls, unused')
    requires Edited(SetAt(c, g.Index(addr)), ls, g.Tag(addr), s)
    requires s.Some? && s.value.locked ==> Owned(g, c.mshr, g.Block(addr))
    ensures CacheOk(g, PutSet(c, g.Index(addr), ls), unused')
    ensures OneStatus(g, c, PutSet(c, g.Index(addr), ls), g.Block(addr), s)
  {
    var c' := PutSet(c, g.Index(addr), ls);
    PutOne(g, c, addr, ls, s);
    forall i | 0 <= i < |c.mshr| ensures PointsTo(g, c', c.mshr[i]) {
      assert PointsTo(g, c, c.mshr[i]);
    }
    PutSets(g, c, c', g.Index(addr), ls, unused, unused');
  }

  lemma PutSets(g: Geometry, c: Cache, c': Cache, at: int, ls: seq<Line>, unused: nat, unused': nat)
    requires g.Valid() && SetsOk(g, c, unused) && unused <= unused' && SetOk(g, at, ls, unused')
    requires c'.lines == c.lines[at := ls]
    ensures SetsOk(g, c', unused')
  {
    forall idx | idx in c'.lines ensures SetOk(g, idx, c'.lines[idx], unused') {
      assert idx != at ==> SetOk(g, idx, c.lines[idx], unused);
    }
  }

  lemma PutOne(g: Geometry, c: Cache, addr: int, ls: seq<Line>, s: Option<Status>)
    requires g.Valid()
    requires forall t :: Lookup(ls, t) == if t == g.Tag(addr) then s else Lookup(SetAt(c, g.Index(addr)), t)
    ensures OneStatus(g, c, PutSet(c, g.Index(addr), ls), g.Block(addr), s)
  {
    forall x ensures StatusIn(g, PutSet(c, g.Index(addr), ls), x) == if x == g.Block(addr) then s
        else StatusIn(g, c, x) {
      PutStatus(g, c, addr, ls, x);
      BlockPlace(g, addr, x);
    }
  }

  /** A line moved to the most-recently-used end, unlocked, as on a hit or a write-back from above. */
  function Touched(g: Geometry, c: Cache, addr: int, node: nat, dirty: bool): Cache
    requires g.Valid()
  {
    var ls := SetAt(c, g.Index(addr));
    var k := FindTag(ls, g.Tag(addr));
    if k == |ls| then c else
      PutSet(c, g.Index(addr), Erase(ls + [Line(node, addr, g.Tag(addr), false, dirty)], k))
  }

  lemma TouchOk(g: Geometry, c: Cache, addr: int, unused: nat, dirty: bool)
    requires g.Valid() && CacheOk(g, c, unused)
    requires StatusIn(g, c, g.Block(addr)).Some? && !StatusIn(g, c, g.Block(addr)).value.locked
    ensures FindTag(SetAt(c, g.Index(addr)), g.Tag(addr)) < |SetAt(c, g.Index(addr))|
    ensures CacheOk(g, Touched(g, c, addr, unused, dirty), unused + 1)
    ensures OneStatus(g, c, Touched(g, c, addr, unused, dirty), g.Block(addr), Some(Status(false, dirty)))
  {
    StatusAt(g, c, addr);
    var idx := g.Index(addr);
    var ls, l := SetAt(c, idx), Line(unused, addr, g.Tag(addr), false, dirty);
    var k := FindTag(ls, g.Tag(addr));
    assert SetOk(g, idx, ls, unused);
    TouchSet(g, idx, ls, k, l, unused);
    PutOk(g, c, addr, Erase(ls + [l], k), Some(Status(false, dirty)), unused, unused + 1);
  }

  lemma TouchSet(g: Geometry, idx: int, ls: seq<Line>, k: nat, l: Line, unused: nat)
    requires g.Valid() && SetOk(g, idx, ls, unused) && k < |ls| && !ls[k].locked
    requires l.node == unused && l.tag == ls[k].tag && g.Index(l.addr) == idx && l.tag == g.Tag(l.addr)
    ensures SetOk(g, idx, Erase(ls + [l], k), unused + 1)
    ensures Edited(ls, Erase(ls + [l], k), l.tag, Some(Status(l.locked, l.dirty)))
  {
    MoveEdits(ls, k, l);
    var es := Erase(ls, k);
    assert forall i | 0 <= i < |es| :: es[i] == ls[if i < k then i else i + 1];
    assert forall i | 0 <= i < |es| + 1 :: (es + [l])[i] == if i < |es| then es[i] else l;
  }

  lemma RemoveOk(g: Geometry, c: Cache, addr: int, unused: nat, k: nat)
    requires g.Valid() && CacheOk(g, c, unused) && k ==
        FindTag(SetAt(c, g.Index(addr)), g.Tag(addr)) < |SetAt(c, g.Index(addr))|
    requires !SetAt(c, g.Index(addr))[k].locked
    ensures var c' := PutSet(c, g.Index(addr), Erase(SetAt(c, g.Index(addr)), k));
            CacheOk(g, c', unused) && OneStatus(g, c, c', g.Block(addr), None)
  {
    var ls := SetAt(c, g.Index(addr));
    var es := Erase(ls, k);
    assert SetOk(g, g.Index(addr), ls, unused);
    EraseEdits(ls, k);
    assert forall i | 0 <= i < |es| :: es[i] == ls[if i < k then i else i + 1];
    PutOk(g, c, addr, es, None, unused, unused);
  }

  // A new locked line at the most-recently-used end, with its miss register.
  function Inserted(g: Geometry, c: Cache, addr: int, node: nat, dirty: bool): Cache
    requires g.Valid()
  {
    var ls := SetAt(c, g.Index(addr)) + [Line(node, addr, g.Tag(addr), true, dirty)];
    PutSet(c, g.Index(addr), ls).(mshr := c.mshr + [Mshr(addr, node)])
  }

  lemma InsertOk(g: Geometry, c: Cache, addr: int, unused: nat, dirty: bool)
    requires g.Valid() && CacheOk(g, c, unused) && StatusIn(g, c, g.Block(addr)) == None
    requires |SetAt(c, g.Index(addr))| < g.assoc && |c.mshr| < g.mshrNum
    ensures CacheOk(g, Inserted(g, c, addr, unused, dirty), unused + 1)
    ensures OneStatus(g, c, Inserted(g, c, addr, unused, dirty), g.Block(addr), Some(Status(true, dirty)))
  {
    var l := Line(unused, addr, g.Tag(addr), true, dirty);
    var c' := Inserted(g, c, addr, unused, dirty);
    InsertSet(g, c, addr, unused, l);
    InsertStatus(g, c, addr, unused, dirty);
    PutSets(g, c, c', g.Index(addr), SetAt(c, g.Index(addr)) + [l], unused, unused + 1);
    InsertPoints(g, c, addr, unused, dirty);
    forall x | StatusIn(g, c', x).Some? && StatusIn(g, c', x).value.locked ensures Owned(g, c'.mshr, x) {
      OwnedGrows(g, c.mshr, Mshr(addr, unused), x);
    }
  }

  lemma InsertSet(g: Geometry, c: Cache, addr: int, unused: nat, l: Line)
    requires g.Valid() && SetsOk(g, c, unused) && StatusIn(g, c, g.Block(addr)) == None
    requires |SetAt(c, g.Index(addr))| < g.assoc && l.node == unused && l.addr == addr && l.tag == g.Tag(addr)
    ensures New(SetAt(c, g.Index(addr)), l) && Distinct(SetAt(c, g.Index(addr)))
    ensures SetOk(g, g.Index(addr), SetAt(c, g.Index(addr)) + [l], unused + 1)
  {
    StatusAt(g, c, addr);
    var ls := SetAt(c, g.Index(addr));
    assert SetOk(g, g.Index(addr), ls, unused);
    LookupNone(ls, g.Tag(addr));
    PushDistinct(ls, l);
    assert forall i | 0 <= i < |ls + [l]| :: (ls + [l])[i] == if i < |ls| then ls[i] else l;
  }

  lemma InsertStatus(g: Geometry, c: Cache, addr: int, unused: nat, dirty: bool)
    requires g.Valid() && SetsOk(g, c, unused) && StatusIn(g, c, g.Block(addr)) == None
    requires |SetAt(c, g.Index(addr))| < g.assoc
    ensures OneStatus(g, c, Inserted(g, c, addr, unused, dirty), g.Block(addr), Some(Status(true, dirty)))
  {
    var ls, l := SetAt(c, g.Index(addr)), Line(unused, addr, g.Tag(addr), true, dirty);
    InsertSet(g, c, addr, unused, l);
    PushEdits(ls, l);
    PutOne(g, c, addr, ls + [l], Some(Status(true, dirty)));
    SameLines(g, PutSet(c, g.Index(addr), ls + [l]), Inserted(g, c, addr, unused, dirty));
  }

  lemma SameLines(g: Geometry, c: Cache, c': Cache)
    requires g.Valid() && c.lines == c'.lines
    ensures forall x :: StatusIn(g, c', x) == StatusIn(g, c, x)
  {}

  lemma InsertPoints(g: Geometry, c: Cache, addr: int, unused: nat, dirty: bool)
    requires g.Valid() && CacheOk(g, c, unused) && StatusIn(g, c, g.Block(addr)) == None
    ensures var c' := Inserted(g, c, addr, unused, dirty);
            && (forall i | 0 <= i < |c'.mshr| :: PointsTo(g, c', c'.mshr[i]))
            && (forall i, j | 0 <= i < j < |c'.mshr| :: g.Block(c'.mshr[i].addr) != g.Block(c'.mshr[j].addr))
  {
    var c' := Inserted(g, c, addr, unused, dirty);
    var ls, l := SetAt(c, g.Index(addr)), Line(unused, addr, g.Tag(addr), true, dirty);
    forall i | 0 <= i < |c'.mshr|
      ensures PointsTo(g, c', c'.mshr[i]) && (i < |c.mshr| ==> g.Block(c'.mshr[i].addr) != g.Block(addr))
    {
      var m := c'.mshr[i];
      if i < |c.mshr| {
        assert m == c.mshr[i];
        StatusOfMshr(g, c, m, unused);
        if g.Index(m.addr) == g.Index(addr) { PushKeeps(ls, l, m.node, g.Tag(m.addr)); }
      } else {
        PushKeeps(ls, l, m.node, g.Tag(m.addr));
      }
    }
  }

  // The block of a miss register is present and locked.
  lemma StatusOfMshr(g: Geometry, c: Cache, m: Mshr, unused: nat)
    requires g.Valid() && SetsOk(g, c, unused) && PointsTo(g, c, m)
    ensures StatusIn(g, c, g.Block(m.addr)).Some? && StatusIn(g, c, g.Block(m.addr)).value.locked
  {
    var k := Pointee(g, c, m, unused);
    StatusAt(g, c, m.addr);
  }

  lemma OwnedGrows(g: Geometry, ms: seq<Mshr>, m: Mshr, x: int)
    requires Owned(g, ms, x) || x == g.Block(m.addr)
    ensures Owned(g, ms + [m], x)
  {
    var all := ms + [m];
    assert all[|ms|] == m;
    if Owned(g, ms, x) {
      var i :| 0 <= i < |ms| && g.Block(ms[i].addr) == x;
      assert all[i] == ms[i];
    }
  }

  // The line a miss register points to, changed in place.
  function Filled(g: Geometry, c: Cache, i: nat, locked: bool, dirty: bool): Cache
    requires g.Valid() && i < |c.mshr|
  {
    var idx := g.Index(c.mshr[i].addr);
    var ls := SetAt(c, idx);
    var k := FindNode(ls, c.mshr[i].node);
    if k == |ls| then c else PutSet(c, idx, ls[k := ls[k].(locked := locked, dirty := dirty)])
  }

  lemma MergeOk(g: Geometry, c: Cache, addr: int, unused: nat, dirty: bool)
    requires g.Valid() && CacheOk(g, c, unused) && HitMshr(g, c.mshr, addr) < |c.mshr|
    ensures var i := HitMshr(g, c.mshr, addr);
            var ls := SetAt(c, g.Index(c.mshr[i].addr));
            && FindNode(ls, c.mshr[i].node) < |ls|
            && CacheOk(g, Filled(g, c, i, true, dirty), unused)
            && OneStatus(g, c, Filled(g, c, i, true, dirty), g.Block(addr), Some(Status(true, dirty)))
  {
    var m := c.mshr[HitMshr(g, c.mshr, addr)];
    var idx := g.Index(m.addr);
    var k := Pointee(g, c, m, unused);
    var ls := SetAt(c, idx);
    assert SetOk(g, idx, ls, unused);
    var us := ls[k := ls[k].(locked := true, dirty := dirty)];
    LockSet(g, idx, ls, k, dirty, unused);
    assert Owned(g, c.mshr, g.Block(m.addr));
    PutOk(g, c, m.addr, us, Some(Status(true, dirty)), unused, unused);
  }

  lemma LockSet(g: Geometry, idx: int, ls: seq<Line>, k: nat, dirty: bool, unused: nat)
    requires g.Valid() && SetOk(g, idx, ls, unused) && k < |ls|
    ensures var us := ls[k := ls[k].(locked := true, dirty := dirty)];
            SetOk(g, idx, us, unused) && Edited(ls, us, ls[k].tag, Some(Status(true, dirty)))
  {
    UpdateEdits(ls, k, ls[k].(locked := true, dirty := dirty));
  }

  // The miss register is released and its line unlocked.
  function Released(g: Geometry, c: Cache, i: nat): Cache
    requires g.Valid() && i < |c.mshr|
  {
    var ls := SetAt(c, g.Index(c.mshr[i].addr));
    var k := FindNode(ls, c.mshr[i].node);
    Filled(g, c, i, false, k < |ls| && ls[k].dirty).(mshr := c.mshr[..i] + c.mshr[i + 1..])
  }

  lemma ReleaseOk(g: Geometry, c: Cache, addr: int, unused: nat)
    requires g.Valid() && CacheOk(g, c, unused) && HitMshr(g, c.mshr, addr) < |c.mshr|
    ensures var i := HitMshr(g, c.mshr, addr);
            var s := StatusIn(g, c, g.Block(addr));
            && FindNode(SetAt(c, g.Index(c.mshr[i].addr)), c.mshr[i].node) < |SetAt(c, g.Index(c.mshr[i].addr))|
            && s.Some? && s.value.locked
            && CacheOk(g, Released(g, c, i), unused)
            && OneStatus(g, c, Released(g, c, i), g.Block(addr), Some(Status(false, s.value.dirty)))
  {
    var i := HitMshr(g, c.mshr, addr);
    var m := c.mshr[i];
    var k := Pointee(g, c, m, unused);
    ReleaseSet(g, c, i, k, unused);
    var us := SetAt(c, g.Index(m.addr))[k := SetAt(c, g.Index(m.addr))[k].(locked := false)];
    PutSets(g, c, Released(g, c, i), g.Index(m.addr), us, unused, unused);
    ReleasePoints(g, c, i, k, unused);
    var c' := Released(g, c, i);
    forall x | StatusIn(g, c', x).Some? && StatusIn(g, c', x).value.locked ensures Owned(g, c'.mshr, x) {
      OwnedWithout(g, c.mshr, i, x);
    }
  }

  lemma ReleaseSet(g: Geometry, c: Cache, i: nat, k: nat, unused: nat)
    requires g.Valid() && CacheOk(g, c, unused) && i < |c.mshr|
    requires k == FindNode(SetAt(c, g.Index(c.mshr[i].addr)), c.mshr[i].node) < |SetAt(c, g.Index(c.mshr[i].addr))|
    ensures var ls := SetAt(c, g.Index(c.mshr[i].addr));
            SetOk(g, g.Index(c.mshr[i].addr), ls[k := ls[k].(locked := false)], unused)
    ensures var b := g.Block(c.mshr[i].addr);
            var s := StatusIn(g, c, b);
            s.Some? && s.value.locked && OneStatus(g, c, Released(g, c, i), b, Some(Status(false, s.value.dirty)))
  {
    var m := c.mshr[i];
    var ls := SetAt(c, g.Index(m.addr));
    var k' := Pointee(g, c, m, unused);
    assert SetOk(g, g.Index(m.addr), ls, unused);
    UnlockSet(g, g.Index(m.addr), ls, k, unused);
    StatusAt(g, c, m.addr);
    var us := ls[k := ls[k].(locked := false)];
    PutOne(g, c, m.addr, us, Some(Status(false, ls[k].dirty)));
    SameLines(g, PutSet(c, g.Index(m.addr), us), Released(g, c, i));
  }

  lemma UnlockSet(g: Geometry, idx: int, ls: seq<Line>, k: nat, unused: nat)
    requires g.Valid() && SetOk(g, idx, ls, unused) && k < |ls|
    ensures var us := ls[k := ls[k].(locked := false)];
            && SetOk(g, idx, us, unused)
            && forall t :: Lookup(us, t) == if t == ls[k].tag then Some(Status(false, ls[k].dirty)) else Lookup(ls, t)
  {
    var l := ls[k].(locked := false);
    UpdateEdits(ls, k, l);
    var us := ls[k := l];
    forall t ensures Lookup(us, t) == if t == l.tag then Some(Status(false, l.dirty)) else Lookup(ls, t) {
      UpdateLookup(ls, k, l, t);
    }
  }

  lemma ReleasePoints(g: Geometry, c: Cache, i: nat, k: nat, unused: nat)
    requires g.Valid() && CacheOk(g, c, unused) && i < |c.mshr|
    requires k == FindNode(SetAt(c, g.Index(c.mshr[i].addr)), c.mshr[i].node) < |SetAt(c, g.Index(c.mshr[i].addr))|
    ensures var c' := Released(g, c, i);
            && (forall j | 0 <= j < |c'.mshr| :: PointsTo(g, c', c'.mshr[j]))
            && (forall j, j' | 0 <= j < j' < |c'.mshr| :: g.Block(c'.mshr[j].addr) != g.Block(c'.mshr[j'].addr))
  {
    hide Geometry.Index, Geometry.Tag, FindNode, SetsOk, PointsTo;
    var c' := Released(g, c, i);
    assert forall j | 0 <= j < |c'.mshr| :: c'.mshr[j] == c.mshr[if j < i then j else j + 1];
    forall j | 0 <= j < |c'.mshr| ensures PointsTo(g, c', c'.mshr[j]) {
      StillPoints(g, c, i, if j < i then j else j + 1, k, unused);
    }
  }

  lemma StillPoints(g: Geometry, c: Cache, i: nat, j: nat, k: nat, unused: nat)
    requires g.Valid() && CacheOk(g, c, unused) && i < |c.mshr| && j < |c.mshr| && i != j
    requires k == FindNode(SetAt(c, g.Index(c.mshr[i].addr)), c.mshr[i].node) < |SetAt(c, g.Index(c.mshr[i].addr))|
    ensures PointsTo(g, Released(g, c, i), c.mshr[j])
  {
    var m, n := c.mshr[i], c.mshr[j];
    var ls := SetAt(c, g.Index(m.addr));
    var k' := Pointee(g, c, m, unused);
    assert PointsTo(g, c, n) && g.Block(n.addr) != g.Block(m.addr);
    if g.Index(n.addr) == g.Index(m.addr) {
      g.AlignIsIndexAndTag(n.addr, m.addr);
      UpdateKeeps(ls, k, ls[k].(locked := false), n.node, g.Tag(n.addr));
    }
  }

  lemma OwnedWithout(g: Geometry, ms: seq<Mshr>, i: nat, x: int)
    requires i < |ms| && Owned(g, ms, x) && g.Block(ms[i].addr) != x
    ensures Owned(g, ms[..i] + ms[i + 1..], x)
  {
    var j :| 0 <= j < |ms| && g.Block(ms[j].addr) == x;
    assert (ms[..i] + ms[i + 1..])[if j < i then j else j - 1] == ms[j];
  }

  // The cache once memory has answered for an address.
  function Completed(g: Geometry, c: Cache, addr: int): Cache
    requires g.Valid()
  {
    var i := HitMshr(g, c.mshr, addr);
    if i < |c.mshr| then Released(g, c, i) else c
  }

  // A present block, now unlocked.
  function Free(s: Option<Status>): Option<Status> {
    match s
    case None => None
    case Some(t) => Some(Status(false, t.dirty))
  }

  /** After a completion the block has no miss register and is not locked, and nothing else changed. */
  lemma CompletedOk(g: Geometry, c: Cache, addr: int, unused: nat)
    requires g.Valid() && CacheOk(g, c, unused)
    ensures var c' := Completed(g, c, addr);
            && CacheOk(g, c', unused) && OneStatus(g, c, c', g.Block(addr), Free(StatusIn(g, c, g.Block(addr))))
            && HitMshr(g, c'.mshr, addr) == |c'.mshr|
  {
    var c' := Completed(g, c, addr);
    MshrIffLocked(g, c, addr, unused);
    if HitMshr(g, c.mshr, addr) < |c.mshr| {
      ReleaseOk(g, c, addr, unused);
    }
    MshrIffLocked(g, c', addr, unused);
  }
}
