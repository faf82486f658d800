/**
 Keyset paging on bare ids: pages of n ids under a moving bound, taken from one set or from a set that
 changes between the pages.
 */
module Keyset {
  import opened Wrappers
  import opened DescendingOrder

  function Take<T>(s: seq<T>, n: nat): seq<T>
  {
    if |s| <= n then s else s[..n]
  }

  ghost function PageOf(s: set<int>, bound: int, n: nat): seq<int>
  {
    Take(Below(s, bound), n)
  }

  /** The bound of the next page: the last id of this one, if ids remain beyond it. */
  ghost function NextOf(s: set<int>, bound: int, n: nat): Option<int>
    requires n >= 1
  {
    if |Below(s, bound)| > n then Some(Below(s, bound)[n - 1]) else None
  }

  /** The next bound is at least n lower, and the rest of the list is what lies under it. */
  lemma NextPageContinues(s: set<int>, bound: int, n: nat)
    requires n >= 1 && NextOf(s, bound, n).Some?
    ensures var next := NextOf(s, bound, n).value;
            && 1 <= next <= bound - n && next in s
            && Below(s, next) == Below(s, bound)[n..]
            && |PageOf(s, bound, n)| == n && PageOf(s, bound, n)[n - 1] == next
  {
    var next := NextOf(s, bound, n).value;
    RestIsBelow(s, bound, n - 1);
    DropsWithPosition(s, bound, n - 1);
    assert next in Below(s, bound);
    BelowContains(s, bound, next);
  }

  function Concat(pages: seq<seq<int>>): seq<int>
  {
    if pages == [] then [] else pages[0] + Concat(pages[1..])
  }

  lemma ConcatCons(page: seq<int>, rest: seq<seq<int>>)
    ensures Concat([page] + rest) == page + Concat(rest)
  {
    assert ([page] + rest)[1..] == rest;
  }

  // ---------------------------------------------------------------- one set

  ghost function Walk(s: set<int>, bound: int, n: nat): (pages: seq<seq<int>>)
    requires n >= 1
    ensures |pages| >= 1
    decreases |Below(s, bound)|
  {
    if NextOf(s, bound, n).None? then [PageOf(s, bound, n)]
    else
      NextPageContinues(s, bound, n);
      [PageOf(s, bound, n)] + Walk(s, NextOf(s, bound, n).value, n)
  }

  /** Pages needed for so many rows, n a page; one even for nothing. */
  function PagesFor(rows: nat, n: nat): nat
    requires n >= 1
  {
    if rows <= n then 1 else 1 + PagesFor(rows - n, n)
  }

  /** It is the ceiling of rows / n, and at least one: enough pages, and not one too many. */
  lemma {:induction false} PagesForIsCeiling(rows: nat, n: nat)
    requires n >= 1
    ensures 1 <= PagesFor(rows, n) && rows <= PagesFor(rows, n) * n
    ensures PagesFor(rows, n) > 1 ==> (PagesFor(rows, n) - 1) * n < rows
    decreases rows
  {
    if rows > n {
      PagesForIsCeiling(rows - n, n);
      OneFactorLess(PagesFor(rows, n), n);
      OneFactorLess(PagesFor(rows, n) - 1, n);
    }
  }

  lemma OneFactorLess(k: int, n: nat)
    ensures k * n == (k - 1) * n + n
  {
  }

  lemma WalkGoesOn(s: set<int>, bound: int, n: nat)
    requires n >= 1 && NextOf(s, bound, n).Some?
    ensures var ids, next := Below(s, bound), NextOf(s, bound, n).value;
            && Walk(s, bound, n) == [ids[..n]] + Walk(s, next, n)
            && Below(s, next) == ids[n..]
  {
    NextPageContinues(s, bound, n);
  }

  /** Walking the pages of one set lists it, in the fewest pages. */
  lemma {:induction false} WalkListsAll(s: set<int>, bound: int, n: nat)
    requires n >= 1
    ensures Concat(Walk(s, bound, n)) == Below(s, bound)
    ensures |Walk(s, bound, n)| == PagesFor(|Below(s, bound)|, n)
    decreases |Below(s, bound)|
  {
    var ids := Below(s, bound);
    if |ids| <= n {
      WalkEnds(s, bound, n);
    } else {
      var next := NextOf(s, bound, n).value;
      WalkGoesOn(s, bound, n);
      WalkListsAll(s, next, n);
      OneMorePage(ids, n, Walk(s, next, n));
    }
  }

  lemma WalkEnds(s: set<int>, bound: int, n: nat)
    requires n >= 1 && |Below(s, bound)| <= n
    ensures Walk(s, bound, n) == [Below(s, bound)] && Concat(Walk(s, bound, n)) == Below(s, bound)
  {
    var ids := Below(s, bound);
    ConcatCons(ids, []);
    assert [ids] + [] == [ids] && ids + [] == ids;
  }

  lemma OneMorePage(ids: seq<int>, n: nat, rest: seq<seq<int>>)
    requires 1 <= n < |ids| && Concat(rest) == ids[n..] && |rest| == PagesFor(|ids[n..]|, n)
    ensures Concat([ids[..n]] + rest) == ids && |[ids[..n]] + rest| == PagesFor(|ids|, n)
  {
    ConcatCons(ids[..n], rest);
    assert ids[..n] + ids[n..] == ids;
  }

  // ---------------------------------------------------------------- a changing set

  /** Pages read so far, and whether the last of them said it was the last. */
  datatype Trail = Trail(pages: seq<seq<int>>, finished: bool)

  ghost function Browse(sets: seq<set<int>>, bound: int, n: nat): Trail
    requires n >= 1
    decreases |sets|
  {
    if sets == [] then Trail([], false)
    else
      var page := PageOf(sets[0], bound, n);
      match NextOf(sets[0], bound, n)
      case None => Trail([page], true)
      case Some(next) =>
        var rest := Browse(sets[1..], next, n);
        Trail([page] + rest.pages, rest.finished)
  }

  lemma {:induction false} PageDescends(s: set<int>, bound: int, n: nat)
    ensures Descends(PageOf(s, bound, n))
    ensures forall i :: 0 <= i < |PageOf(s, bound, n)| ==> 1 <= PageOf(s, bound, n)[i] < bound
  {
    BelowDescends(s, bound);
  }

  lemma DescendsOver(a: seq<int>, b: seq<int>, mid: int)
    requires Descends(a) && Descends(b)
    requires forall i :: 0 <= i < |a| ==> a[i] >= mid
    requires forall i :: 0 <= i < |b| ==> b[i] < mid
    ensures Descends(a + b)
  {
  }

  /** However the set changes, no id comes twice and the order stays descending. */
  lemma {:induction false} BrowseDescends(sets: seq<set<int>>, bound: int, n: nat)
    requires n >= 1
    ensures Descends(Concat(Browse(sets, bound, n).pages))
    ensures forall i :: 0 <= i < |Concat(Browse(sets, bound, n).pages)| ==>
              1 <= Concat(Browse(sets, bound, n).pages)[i] < bound
    decreases |sets|
  {
    if sets != [] {
      var page := PageOf(sets[0], bound, n);
      PageDescends(sets[0], bound, n);
      if NextOf(sets[0], bound, n).None? {
        ConcatCons(page, []);
        assert [page] + [] == [page] && page + [] == page;
      } else {
        NextPageContinues(sets[0], bound, n);
        var next := NextOf(sets[0], bound, n).value;
        BrowseDescends(sets[1..], next, n);
        var rest := Browse(sets[1..], next, n).pages;
        ConcatCons(page, rest);
        DescendsOver(page, Concat(rest), next);
      }
    }
  }

  ghost predicate InFirst(sets: seq<set<int>>, k: nat, id: int) {
    forall i :: 0 <= i < k && i < |sets| ==> id in sets[i]
  }

  lemma InFirstOfTail(sets: seq<set<int>>, k: nat, id: int)
    requires sets != [] && InFirst(sets, k + 1, id)
    ensures id in sets[0] && InFirst(sets[1..], k, id)
  {
    assert forall i :: 0 <= i < |sets[1..]| ==> sets[1..][i] == sets[i + 1];
  }

  /** A listed id is on the page or under the next bound. */
  lemma OnPageOrBeyond(s: set<int>, bound: int, n: nat, id: int)
    requires n >= 1 && id in s && 1 <= id < bound
    ensures id in PageOf(s, bound, n) || (NextOf(s, bound, n).Some? && id < NextOf(s, bound, n).value)
  {
    var ids := Below(s, bound);
    BelowContains(s, bound, id);
    if NextOf(s, bound, n).Some? {
      NextPageContinues(s, bound, n);
      assert ids == ids[..n] + ids[n..];
      if id !in PageOf(s, bound, n) {
        assert id in ids[n..];
        BelowContains(s, NextOf(s, bound, n).value, id);
      }
    }
  }

  /** An id that is in the set at every page read is on one of the pages. */
  lemma {:induction false} BrowseMissesNothing(sets: seq<set<int>>, bound: int, n: nat, id: int)
    requires n >= 1 && Browse(sets, bound, n).finished && 1 <= id < bound
    requires InFirst(sets, |Browse(sets, bound, n).pages|, id)
    ensures id in Concat(Browse(sets, bound, n).pages)
    decreases |sets|
  {
    var page := PageOf(sets[0], bound, n);
    var next := NextOf(sets[0], bound, n);
    var rest := if next.None? then [] else Browse(sets[1..], next.value, n).pages;
    assert Browse(sets, bound, n).pages == [page] + rest;
    ConcatCons(page, rest);
    InFirstOfTail(sets, |rest|, id);
    OnPageOrBeyond(sets[0], bound, n, id);
    if id !in page {
      BrowseMissesNothing(sets[1..], next.value, n, id);
    }
  }

  /** Every id on the i-th page was in the set that page was read from. */
  lemma {:induction false} BrowseInventsNothing(sets: seq<set<int>>, bound: int, n: nat, i: nat)
    requires n >= 1 && i < |Browse(sets, bound, n).pages|
    ensures i < |sets|
    ensures forall id :: id in Browse(sets, bound, n).pages[i] ==> id in sets[i]
    decreases |sets|
  {
    if i == 0 {
      forall id | id in PageOf(sets[0], bound, n) ensures id in sets[0] {
        assert id in Below(sets[0], bound);
        BelowContains(sets[0], bound, id);
      }
    } else {
      BrowseInventsNothing(sets[1..], NextOf(sets[0], bound, n).value, n, i - 1);
    }
  }

  /** The bound is the termination measure: every further page lowers it by at least n. */
  lemma {:induction false} BrowseEnds(sets: seq<set<int>>, bound: int, n: nat)
    requires n >= 1 && |sets| >= 1 && (|sets| - 1) * n >= bound - 1
    ensures Browse(sets, bound, n).finished
    decreases |sets|
  {
    if NextOf(sets[0], bound, n).Some? {
      NextPageContinues(sets[0], bound, n);
      var next := NextOf(sets[0], bound, n).value;
      OneFactorLess(|sets| - 1, n);
      if |sets| == 1 {
        assert false;
      }
      BrowseEnds(sets[1..], next, n);
    }
  }
}
