/** The physical page allocator: a random first try, then a circular search for a free page. */
module HmcPages {
  import opened BitArithmetic

  const PAGE := 4096
  const FREE := -1

  function CountFree(s: seq<int>): (n: nat)
    ensures n <= |s|
  {
    if s == [] then 0 else CountFree(s[..|s| - 1]) + if s[|s| - 1] == FREE then 1 else 0
  }

  lemma {:induction false} CountZero(s: seq<int>)
    ensures CountFree(s) == 0 <==> forall k | 0 <= k < |s| :: s[k] != FREE
  {
    if s != [] {
      var n := |s| - 1;
      CountZero(s[..n]);
      assert forall k | 0 <= k < n :: s[..n][k] == s[k];
      if CountFree(s[..n]) != 0 {
        var k :| 0 <= k < n && s[..n][k] == FREE;
        assert s[k] == FREE;
      }
    }
  }

  lemma {:induction false} CountTaken(s: seq<int>, k: nat, x: int)
    requires k < |s| && s[k] == FREE
    ensures CountFree(s[k := x]) == CountFree(s) - if x == FREE then 0 else 1
  {
    var n := |s| - 1;
    if k == n {
      assert s[k := x][..n] == s[..n];
    } else {
      CountTaken(s[..n], k, x);
      assert s[k := x][..n] == s[..n][k := x];
    }
  }

  // The page `d` places after `start`, going round.
  function Around(start: nat, d: nat, n: nat): (k: nat)
    requires start < n && d < n
    ensures k < n
  {
    if start + d < n then start + d else start + d - n
  }

  // No two pages of the cores share a physical page.
  ghost predicate Injective(m: map<(int, int), int>) {
    forall t, u | t in m && u in m && t != u :: m[t] != m[u]
  }

  lemma {:induction false} InjectiveCount(m: map<(int, int), int>, s: set<int>)
    requires Injective(m) && forall t | t in m :: m[t] in s
    ensures |m| <= |s|
    decreases |s|
  {
    if m != map[] {
      var t :| t in m;
      var rest := map u | u in m && u != t :: m[u];
      assert m == rest[t := m[t]];
      InjectiveCount(rest, s - {m[t]});
    }
  }

  function Below(n: nat): (s: set<int>)
    ensures |s| == n && forall k :: k in s <==> 0 <= k < n
  {
    if n == 0 then {} else Below(n - 1) + {n - 1}
  }

  // The pigeonhole principle: more pages than physical ones cannot all be apart.
  lemma Pigeonhole(m: map<(int, int), int>, n: nat)
    requires Injective(m) && forall t | t in m :: 0 <= m[t] < n
    ensures |m| <= n
  {
    InjectiveCount(m, Below(n));
  }

  // One more page leaves them apart if it gets a physical page of its own, and only then.
  lemma InjectiveGrows(m: map<(int, int), int>, t: (int, int), page: int)
    requires t !in m
    ensures Injective(m[t := page]) <==> Injective(m) && forall u | u in m :: m[u] != page
  {
    var m' := m[t := page];
    if Injective(m') {
      forall u, v | u in m && v in m && u != v ensures m[u] != m[v] { assert m'[u] != m'[v]; }
      forall u | u in m ensures m[u] != page { assert m'[u] != m'[t]; }
    }
  }

  class PageTable {
    const pages: array<int>
    var remaining: int
    // From core and virtual page number to physical page.
    var translation: map<(int, int), int>

    /** Physical pages are kept apart exactly as long as there are no more virtual pages than physical ones. */
    ghost predicate Valid()
      reads this, pages
    {
      && 0 < pages.Length && remaining == CountFree(pages[..])
      && (forall t | t in translation :: 0 <= translation[t] < pages.Length && pages[translation[t]] != FREE)
      && remaining == (if |translation| <= pages.Length then pages.Length - |translation| else 0)
      && (Injective(translation) <==> |translation| <= pages.Length)
    }

    constructor (maxAddress: nat)
      requires maxAddress >= PAGE
      ensures Valid() && pages.Length == maxAddress / PAGE && remaining == pages.Length && translation == map[]
      ensures fresh(pages)
    {
      pages := new int[maxAddress / PAGE](_ => FREE);
      remaining := maxAddress / PAGE;
      translation := map[];
      new;
      AllFree(pages[..]);
    }

    // Searches on from an assigned page until a free one is found or the search is back where it started.
    method Probe(start: nat) returns (page: nat)
      requires start < pages.Length
      ensures page < pages.Length
      ensures if CountFree(pages[..]) > 0 then FirstFree(pages[..], start, page) else page == start
    {
      CountZero(pages[..]);
      page := start;
      if pages[page] == FREE {
        FoundFree(pages[..], start, 0);
        return;
      }
      ghost var d: nat := 1;
      page := (page + 1) % pages.Length;
      RoundTrip(start, start, pages.Length);
      while page != start && pages[page] != FREE
        invariant 1 <= d <= pages.Length && page < pages.Length
        invariant page == if d < pages.Length then Around(start, d, pages.Length) else start
        invariant forall e: nat | e < d && e < pages.Length :: pages[Around(start, e, pages.Length)] != FREE
        decreases pages.Length - d
      {
        RoundTrip(start, page, pages.Length);
        page := (page + 1) % pages.Length;
        d := d + 1;
      }
      if page == start {
        forall k | 0 <= k < pages.Length ensures pages[k] != FREE {
          var e := if k >= start then k - start else k - start + pages.Length;
          assert Around(start, e, pages.Length) == k;
        }
      } else {
        FoundFree(pages[..], start, d);
      }
    }

    /** Translates an address. A page that is new gets the first free page from a random start; only when no page
        is free is one given out a second time. The offset in the page is kept. */
    method Translate(addr: int, coreid: int, random: nat) returns (physical: int)
      requires Valid()
      modifies this, pages
      ensures var target := (coreid, addr / PAGE);
              && target in translation && physical == translation[target] * PAGE + addr % PAGE
              && physical / PAGE == translation[target] && physical % PAGE == addr % PAGE
              && (forall t | t in old(translation) :: t in translation && translation[t] == old(translation)[t])
              && (forall t | t in translation :: t in old(translation) || t == target)
      ensures (coreid, addr / PAGE) in old(translation) ==> unchanged(this) && pages[..] == old(pages[..])
      ensures var target := (coreid, addr / PAGE);
              target !in old(translation) ==>
                if old(remaining) == 0 then translation[target] == random % pages.Length && pages[..] == old(pages[..])
                else FirstFree(old(pages[..]), random % pages.Length, translation[target])
                     && pages[..] == old(pages[..])[translation[target] := coreid]
      ensures Injective(translation) <==>
                old(Injective(translation)) && ((coreid, addr / PAGE) in old(translation) || old(remaining) > 0)
      ensures Valid() <==> coreid != FREE || (coreid, addr / PAGE) in old(translation) || old(remaining) == 0
    {
      hide Injective, FirstFree;
      var target := (coreid, addr / PAGE);
      if target !in translation {
        var page := random % pages.Length;
        ghost var before := translation;
        if remaining == 0 {
          CountZero(pages[..]);
          assert pages[page] != FREE;
          translation := translation[target := page];
        } else {
          page := Probe(page);
          assert pages[page] == FREE;
          CountTaken(pages[..], page, coreid);
          ghost var was := pages[..];
          translation := translation[target := page];
          pages[page] := coreid;
          InjectiveGrows(before, target, page);
          assert pages[..] == was[page := coreid];
          remaining := remaining - 1;
        }
      }
      if Injective(translation) { Pigeonhole(translation, pages.Length); }
      DivUnique(translation[target] * PAGE + addr % PAGE, PAGE, translation[target], addr % PAGE);
      physical := translation[target] * PAGE + addr % PAGE;
    }
  }

  // The first free page from `start` on, going round.
  ghost predicate FirstFree(s: seq<int>, start: nat, page: int) {
    && start < |s| && 0 <= page < |s| && s[page] == FREE
    && exists d: nat | d < |s| ::
      page == Around(start, d, |s|) && forall e: nat | e < d :: s[Around(start, e, |s|)] != FREE
  }

  lemma FoundFree(s: seq<int>, start: nat, d: nat)
    requires start < |s| && d < |s| && s[Around(start, d, |s|)] == FREE
    requires forall e: nat | e < d :: s[Around(start, e, |s|)] != FREE
    ensures FirstFree(s, start, Around(start, d, |s|)) && CountFree(s) > 0
  {
    CountZero(s);
  }

  lemma {:induction false} AllFree(s: seq<int>)
    requires forall k | 0 <= k < |s| :: s[k] == FREE
    ensures CountFree(s) == |s|
  {
    if s != [] { AllFree(s[..|s| - 1]); }
  }

  lemma RoundTrip(start: nat, page: nat, n: nat)
    requires start < n && page < n
    ensures (page + 1) % n == if page + 1 < n then page + 1 else 0
  {
    if page + 1 < n { DivSmall(page + 1, n); DivMod(page + 1, n); } else { DivUnique(n, n, 1, 0); DivMod(n, n); }
  }
}
