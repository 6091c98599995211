/** One set of a cache: a list of lines in least-recently-used order, searched by tag.

    A list iterator is modelled by the identity of the list node it points to, so that an iterator can
    outlive changes elsewhere in the list, and can dangle when its node is erased. */
module CacheLines {

  datatype Option<+T> = None | Some(value: T)

  datatype Line = Line(node: nat, addr: int, tag: int, locked: bool, dirty: bool)

  // What matters of a line to the other levels.
  datatype Status = Status(locked: bool, dirty: bool)

  // The position of the first line with this tag, or the length of the list.
  function FindTag(ls: seq<Line>, tag: int): (k: nat)
    ensures k <= |ls|
    ensures k < |ls| ==> ls[k].tag == tag
    ensures forall i | 0 <= i < k :: ls[i].tag != tag
  {
    if ls == [] then 0 else if ls[0].tag == tag then 0 else 1 + FindTag(ls[1..], tag)
  }

  // The position of a list node, or the length of the list when it is no longer there.
  function FindNode(ls: seq<Line>, node: nat): (k: nat)
    ensures k <= |ls|
    ensures k < |ls| ==> ls[k].node == node
    ensures forall i | 0 <= i < k :: ls[i].node != node
  {
    if ls == [] then 0 else if ls[0].node == node then 0 else 1 + FindNode(ls[1..], node)
  }

  function Lookup(ls: seq<Line>, tag: int): Option<Status> {
    var k := FindTag(ls, tag);
    if k < |ls| then Some(Status(ls[k].locked, ls[k].dirty)) else None
  }

  function Erase(ls: seq<Line>, k: nat): seq<Line>
    requires k < |ls|
  {
    ls[..k] + ls[k + 1..]
  }

  predicate Differ(ls: seq<Line>, i: nat, j: nat)
    requires i < |ls| && j < |ls|
  {
    ls[i].tag != ls[j].tag && ls[i].node != ls[j].node
  }

  // No two lines of a set share a tag or a list node.
  predicate Distinct(ls: seq<Line>) {
    forall i, j {:trigger Differ(ls, i, j)} | 0 <= i < j < |ls| :: Differ(ls, i, j)
  }

  lemma FoundAt(ls: seq<Line>, k: nat)
    requires Distinct(ls) && k < |ls|
    ensures FindTag(ls, ls[k].tag) == k && FindNode(ls, ls[k].node) == k
    ensures Lookup(ls, ls[k].tag) == Some(Status(ls[k].locked, ls[k].dirty))
  {
    var i, j := FindTag(ls, ls[k].tag), FindNode(ls, ls[k].node);
    assert i < k ==> Differ(ls, i, k);
    assert j < k ==> Differ(ls, j, k);
  }

  lemma LookupNone(ls: seq<Line>, tag: int)
    ensures Lookup(ls, tag) == None <==> forall k | 0 <= k < |ls| :: ls[k].tag != tag
  {
    if FindTag(ls, tag) < |ls| { assert ls[FindTag(ls, tag)].tag == tag; }
  }

  // A lookup is settled by any line with the tag, or by there being none.
  lemma LookupIs(ls: seq<Line>, tag: int, k: nat)
    requires Distinct(ls) && k < |ls| && ls[k].tag == tag
    ensures Lookup(ls, tag) == Some(Status(ls[k].locked, ls[k].dirty))
  {
    FoundAt(ls, k);
  }

  lemma EraseDistinct(ls: seq<Line>, k: nat)
    requires Distinct(ls) && k < |ls|
    ensures Distinct(Erase(ls, k))
  {
    var es := Erase(ls, k);
    forall i, j | 0 <= i < j < |es| ensures Differ(es, i, j) {
      assert Differ(ls, if i < k then i else i + 1, if j < k then j else j + 1);
    }
  }

  lemma EraseLookup(ls: seq<Line>, k: nat, tag: int)
    requires Distinct(ls) && k < |ls|
    ensures Lookup(Erase(ls, k), tag) == if tag == ls[k].tag then None else Lookup(ls, tag)
  {
    var es := Erase(ls, k);
    EraseDistinct(ls, k);
    assert forall i | 0 <= i < |es| :: es[i] == ls[if i < k then i else i + 1];
    var j := FindTag(ls, tag);
    if j < |ls| && j != k {
      assert es[if j < k then j else j - 1] == ls[j];
      LookupIs(es, tag, if j < k then j else j - 1);
      FoundAt(ls, k);
    } else {
      forall i | 0 <= i < |es| ensures es[i].tag != tag {
        FoundAt(ls, if i < k then i else i + 1);
      }
      LookupNone(es, tag);
    }
  }

  // A line that is new to the list.
  predicate New(ls: seq<Line>, l: Line) {
    forall i | 0 <= i < |ls| :: ls[i].tag != l.tag && ls[i].node != l.node
  }

  lemma PushDistinct(ls: seq<Line>, l: Line)
    requires Distinct(ls) && New(ls, l)
    ensures Distinct(ls + [l])
  {
    var ps := ls + [l];
    forall i, j | 0 <= i < j < |ps| ensures Differ(ps, i, j) {
      if j < |ls| { assert Differ(ls, i, j); }
    }
  }

  lemma PushLookup(ls: seq<Line>, l: Line, tag: int)
    requires Distinct(ls) && New(ls, l)
    ensures Lookup(ls + [l], tag) == if tag == l.tag then Some(Status(l.locked, l.dirty)) else Lookup(ls, tag)
  {
    var ps := ls + [l];
    PushDistinct(ls, l);
    if tag == l.tag {
      assert ps[|ls|] == l;
      LookupIs(ps, tag, |ls|);
    } else {
      var i, j := FindTag(ps, tag), FindTag(ls, tag);
      if j < |ls| {
        assert ps[j] == ls[j];
        LookupIs(ps, tag, j);
      }
    }
  }

  lemma UpdateDistinct(ls: seq<Line>, k: nat, l: Line)
    requires Distinct(ls) && k < |ls| && l.tag == ls[k].tag && l.node == ls[k].node
    ensures Distinct(ls[k := l])
  {
    var us := ls[k := l];
    forall i, j | 0 <= i < j < |us| ensures Differ(us, i, j) {
      assert Differ(ls, i, j);
    }
  }

  lemma UpdateLookup(ls: seq<Line>, k: nat, l: Line, tag: int)
    requires Distinct(ls) && k < |ls| && l.tag == ls[k].tag && l.node == ls[k].node
    ensures Lookup(ls[k := l], tag) == if tag == l.tag then Some(Status(l.locked, l.dirty)) else Lookup(ls, tag)
  {
    var us := ls[k := l];
    UpdateDistinct(ls, k, l);
    var j := FindTag(ls, tag);
    if tag == l.tag {
      LookupIs(us, tag, k);
    } else if j < |ls| {
      LookupIs(us, tag, j);
    } else {
      assert forall i | 0 <= i < |us| :: us[i].tag == ls[i].tag;
      LookupNone(us, tag);
    }
  }

  // Every locked line is still there, under its node and tag.
  ghost predicate KeepsLocked(was: seq<Line>, ls: seq<Line>) {
    forall j | 0 <= j < |was| && was[j].locked :: HasLocked(ls, was[j].node, was[j].tag)
  }

  ghost predicate HasLocked(ls: seq<Line>, node: nat, tag: int) {
    exists k | 0 <= k < |ls| :: ls[k].node == node && ls[k].tag == tag && ls[k].locked
  }

  // The list after an edit: what every lookup finds, and that no locked line was lost.
  ghost predicate Edited(was: seq<Line>, ls: seq<Line>, tag: int, s: Option<Status>) {
    && Distinct(ls) && KeepsLocked(was, ls)
    && forall t :: Lookup(ls, t) == if t == tag then s else Lookup(was, t)
  }

  lemma EraseEdits(ls: seq<Line>, k: nat)
    requires Distinct(ls) && k < |ls| && !ls[k].locked
    ensures Edited(ls, Erase(ls, k), ls[k].tag, None)
  {
    var es := Erase(ls, k);
    forall t ensures Lookup(es, t) == if t == ls[k].tag then None else Lookup(ls, t) { EraseLookup(ls, k, t); }
    EraseDistinct(ls, k);
    forall j | 0 <= j < |ls| && ls[j].locked ensures HasLocked(es, ls[j].node, ls[j].tag) {
      assert es[if j < k then j else j - 1] == ls[j];
    }
  }

  lemma PushEdits(ls: seq<Line>, l: Line)
    requires Distinct(ls) && New(ls, l)
    ensures Edited(ls, ls + [l], l.tag, Some(Status(l.locked, l.dirty)))
  {
    var ps := ls + [l];
    forall t
      ensures Lookup(ps, t) == if t == l.tag then Some(Status(l.locked, l.dirty)) else Lookup(ls, t)
    {
      PushLookup(ls, l, t);
    }
    PushDistinct(ls, l);
    forall j | 0 <= j < |ls| && ls[j].locked ensures HasLocked(ps, ls[j].node, ls[j].tag) {
      assert ps[j] == ls[j];
    }
  }

  // Push a fresh copy on the most-recently-used end, then erase the old line.
  lemma MoveEdits(ls: seq<Line>, k: nat, l: Line)
    requires Distinct(ls) && k < |ls| && !ls[k].locked && l.tag == ls[k].tag
    requires forall i | 0 <= i < |ls| :: ls[i].node != l.node
    ensures Erase(ls + [l], k) == Erase(ls, k) + [l]
    ensures Edited(ls, Erase(ls + [l], k), l.tag, Some(Status(l.locked, l.dirty)))
  {
    var es := Erase(ls, k);
    EraseEdits(ls, k);
    assert Erase(ls + [l], k) == es + [l];
    forall i | 0 <= i < |es| ensures es[i].tag != l.tag && es[i].node != l.node {
      var j := if i < k then i else i + 1;
      assert es[i] == ls[j] && if j < k then Differ(ls, j, k) else Differ(ls, k, j);
    }
    PushEdits(es, l);
    forall j | 0 <= j < |ls| && ls[j].locked ensures HasLocked(es + [l], ls[j].node, ls[j].tag) {
      assert (es + [l])[if j < k then j else j - 1] == ls[j];
    }
  }

  lemma UpdateEdits(ls: seq<Line>, k: nat, l: Line)
    requires Distinct(ls) && k < |ls| && l.tag == ls[k].tag && l.node == ls[k].node
    ensures Distinct(ls[k := l])
    ensures forall t :: Lookup(ls[k := l], t) == if t == l.tag then Some(Status(l.locked, l.dirty)) else Lookup(ls, t)
    ensures l.locked || !ls[k].locked ==> Edited(ls, ls[k := l], l.tag, Some(Status(l.locked, l.dirty)))
  {
    var us := ls[k := l];
    forall t
      ensures Lookup(us, t) == if t == l.tag then Some(Status(l.locked, l.dirty)) else Lookup(ls, t)
    {
      UpdateLookup(ls, k, l, t);
    }
    UpdateDistinct(ls, k, l);
    if l.locked || !ls[k].locked {
      forall j | 0 <= j < |ls| && ls[j].locked ensures HasLocked(us, ls[j].node, ls[j].tag) {
        assert us[j].node == ls[j].node;
      }
    }
  }

  // Changing one line leaves the locked lines with other tags alone.
  lemma UpdateKeeps(ls: seq<Line>, k: nat, l: Line, node: nat, tag: int)
    requires k < |ls| && ls[k].tag != tag && HasLocked(ls, node, tag)
    ensures HasLocked(ls[k := l], node, tag)
  {
    var j :| 0 <= j < |ls| && ls[j].node == node && ls[j].tag == tag && ls[j].locked;
    assert ls[k := l][j] == ls[j];
  }

  lemma PushKeeps(ls: seq<Line>, l: Line, node: nat, tag: int)
    requires HasLocked(ls, node, tag) || (l.node == node && l.tag == tag && l.locked)
    ensures HasLocked(ls + [l], node, tag)
  {
    var ps := ls + [l];
    assert ps[|ls|] == l;
    if HasLocked(ls, node, tag) {
      var j :| 0 <= j < |ls| && ls[j].node == node && ls[j].tag == tag && ls[j].locked;
      assert ps[j] == ls[j];
    }
  }
}
