/**
 Keyset pagination: one page of a user's links in descending id order, with the hexadecimal id of its
 last item as the cursor of the next page, and what following the cursors yields.
 */
module Pagination {
  import opened Wrappers
  import opened Codec
  import opened UrlTable
  import opened DescendingOrder
  import Keyset

  /** The search condition on a row; an absent search keeps everything. */
  type Search = Url -> bool

  const EVERYTHING: Search := (u: Url) => true

  datatype UrlsPage = UrlsPage(urls: seq<Url>, nextCursor: Option<string>)

  ghost predicate Stored(rows: Rows) {
    forall id :: id in rows ==> 1 <= id <= MAX_I64 && rows[id].id == id
  }

  lemma InvIsStored(db: Db)
    requires Inv(db)
    ensures Stored(db.rows)
  {
    forall id | id in db.rows ensures 1 <= id <= MAX_I64 && db.rows[id].id == id {
      assert RowFits(db, id);
    }
  }

  // ---------------------------------------------------------------- one page

  function Clamp(limit: int): nat
  {
    if limit < 1 then 1 else if limit > 100 then 100 else limit
  }

  ghost function Selected(rows: Rows, user: UserId, search: Search): set<int>
  {
    set id | id in rows && rows[id].user == user && search(rows[id])
  }

  function Bound(cursor: Option<int>): int
  {
    match cursor case Some(c) => c case None => MAX_I64 + 1
  }

  /** The ids the query would return without its LIMIT. */
  ghost function Listing(rows: Rows, user: UserId, cursor: Option<int>, search: Search): seq<int>
  {
    Below(Selected(rows, user, search), Bound(cursor))
  }

  ghost function RowsOf(rows: Rows, ids: seq<int>): seq<Url>
    requires forall i :: 0 <= i < |ids| ==> ids[i] in rows
  {
    seq(|ids|, i requires 0 <= i < |ids| => rows[ids[i]])
  }

  function IdsOf(urls: seq<Url>): seq<int>
  {
    seq(|urls|, i requires 0 <= i < |urls| => urls[i].id)
  }

  lemma ListingIsStored(rows: Rows, user: UserId, cursor: Option<int>, search: Search)
    ensures forall i :: 0 <= i < |Listing(rows, user, cursor, search)| ==>
              Listing(rows, user, cursor, search)[i] in Selected(rows, user, search)
  {
    var ids := Listing(rows, user, cursor, search);
    forall i | 0 <= i < |ids| ensures ids[i] in Selected(rows, user, search) {
      var x := ids[i];
      assert x in ids;
      BelowContains(Selected(rows, user, search), Bound(cursor), x);
    }
  }

  /** The query itself: the selected rows in descending order, cut off by the LIMIT. */
  ghost function Query(rows: Rows, user: UserId, cursor: Option<int>, limit: nat, search: Search): seq<Url>
  {
    ListingIsStored(rows, user, cursor, search);
    RowsOf(rows, Keyset.Take(Listing(rows, user, cursor, search), limit))
  }

  /** One more row than asked for tells whether there is a next page; it is not returned. */
  ghost function GetUrlsPage(rows: Rows, user: UserId, cursor: Option<int>, limit: int, search: Search): UrlsPage
    requires Stored(rows)
  {
    var n := Clamp(limit);
    var fetched := Query(rows, user, cursor, n + 1, search);
    var hasNext := |fetched| > n;
    var urls := if hasNext then fetched[..|fetched| - 1] else fetched;
    ListingIsStored(rows, user, cursor, search);
    UrlsPage(urls, if hasNext then Some(PrintHex(urls[|urls| - 1].id)) else None)
  }

  /** The id a cursor parameter stands for. */
  function CursorOf(param: Option<string>): Option<int>
  {
    match DecodeCursor(param)
    case FromId(id) => Some(id)
    case FirstPage => None
    case InvalidCursor => None
  }

  function FollowUp(page: UrlsPage): Option<int>
  {
    CursorOf(page.nextCursor)
  }

  datatype Response = Ok(page: UrlsPage) | BadRequest

  /** The handler: a cursor parameter that cannot be decoded is a 400. */
  ghost function GetAllUrls(rows: Rows, user: UserId, param: Option<string>, limit: int, search: Search): Response
    requires Stored(rows)
  {
    match DecodeCursor(param)
    case FirstPage => Ok(GetUrlsPage(rows, user, None, limit, search))
    case FromId(id) => Ok(GetUrlsPage(rows, user, Some(id), limit, search))
    case InvalidCursor => BadRequest
  }

  /** The rows of a page are the first of the listing, unaltered. */
  lemma PageRows(rows: Rows, user: UserId, cursor: Option<int>, limit: int, search: Search)
    requires Stored(rows)
    ensures var ids := Keyset.Take(Listing(rows, user, cursor, search), Clamp(limit));
            (forall i :: 0 <= i < |ids| ==> ids[i] in Selected(rows, user, search))
            && GetUrlsPage(rows, user, cursor, limit, search).urls == RowsOf(rows, ids)
            && IdsOf(GetUrlsPage(rows, user, cursor, limit, search).urls) == ids
  {
    ListingIsStored(rows, user, cursor, search);
    var ids, n := Listing(rows, user, cursor, search), Clamp(limit);
    IdsOfRows(rows, Keyset.Take(ids, n));
    if |ids| > n {
      assert Keyset.Take(ids, n + 1)[..n] == Keyset.Take(ids, n);
      FirstRows(rows, Keyset.Take(ids, n + 1), n);
    }
  }

  lemma FirstRows(rows: Rows, ids: seq<int>, n: nat)
    requires n <= |ids| && forall i :: 0 <= i < |ids| ==> ids[i] in rows
    ensures RowsOf(rows, ids)[..n] == RowsOf(rows, ids[..n])
  {
  }

  lemma IdsOfRows(rows: Rows, ids: seq<int>)
    requires Stored(rows) && forall i :: 0 <= i < |ids| ==> ids[i] in rows
    ensures IdsOf(RowsOf(rows, ids)) == ids
  {
    var urls := RowsOf(rows, ids);
    forall i | 0 <= i < |ids| ensures IdsOf(urls)[i] == ids[i] {
      assert ids[i] in rows && urls[i] == rows[ids[i]];
    }
    assert |IdsOf(urls)| == |ids|;
  }

  /** The cursor of a page decodes to the id of its last row, and is there exactly when rows remain. */
  lemma PageCursor(rows: Rows, user: UserId, cursor: Option<int>, limit: int, search: Search)
    requires Stored(rows)
    ensures var page := GetUrlsPage(rows, user, cursor, limit, search);
            && FollowUp(page) == Keyset.NextOf(Selected(rows, user, search), Bound(cursor), Clamp(limit))
            && page.nextCursor.Some? == FollowUp(page).Some?
  {
    PageRows(rows, user, cursor, limit, search);
    var ids, n := Listing(rows, user, cursor, search), Clamp(limit);
    var page := GetUrlsPage(rows, user, cursor, limit, search);
    assert |Query(rows, user, cursor, n + 1, search)| == |Keyset.Take(ids, n + 1)|;
    if |ids| > n {
      assert page.nextCursor == Some(PrintHex(ids[n - 1]));
      CursorRoundTrip(ids[n - 1]);
    } else {
      assert page.nextCursor == None;
    }
  }

  /** What a page is, in terms of bare ids. */
  lemma PageIsAPrefix(rows: Rows, user: UserId, cursor: Option<int>, limit: int, search: Search)
    requires Stored(rows)
    ensures var page, s, n := GetUrlsPage(rows, user, cursor, limit, search), Selected(rows, user, search), Clamp(limit);
            && IdsOf(page.urls) == Keyset.PageOf(s, Bound(cursor), n)
            && FollowUp(page) == Keyset.NextOf(s, Bound(cursor), n)
            && page.nextCursor.Some? == FollowUp(page).Some?
  {
    PageRows(rows, user, cursor, limit, search);
    PageCursor(rows, user, cursor, limit, search);
  }

  // ---------------------------------------------------------------- all pages of a fixed table

  /** The pages a client gets that starts with this parameter and sends back each cursor it is given; a 400 ends it. */
  ghost function Walk(rows: Rows, user: UserId, param: Option<string>, limit: int, search: Search): (pages: seq<UrlsPage>)
    requires Stored(rows)
    decreases |Listing(rows, user, CursorOf(param), search)|
  {
    match GetAllUrls(rows, user, param, limit, search)
    case BadRequest => []
    case Ok(page) =>
      PageIsAPrefix(rows, user, CursorOf(param), limit, search);
      if page.nextCursor.None? then [page]
      else
        Keyset.NextPageContinues(Selected(rows, user, search), Bound(CursorOf(param)), Clamp(limit));
        [page] + Walk(rows, user, page.nextCursor, limit, search)
  }

  function PagesOfIds(pages: seq<UrlsPage>): seq<seq<int>>
  {
    if pages == [] then [] else [IdsOf(pages[0].urls)] + PagesOfIds(pages[1..])
  }

  lemma PagesOfIdsCons(page: UrlsPage, rest: seq<UrlsPage>)
    ensures PagesOfIds([page] + rest) == [IdsOf(page.urls)] + PagesOfIds(rest)
  {
    assert ([page] + rest)[1..] == rest;
  }

  lemma {:induction false} PagesOfIdsAt(pages: seq<UrlsPage>, i: nat)
    requires i < |pages|
    ensures i < |PagesOfIds(pages)| && PagesOfIds(pages)[i] == IdsOf(pages[i].urls)
    decreases |pages|
  {
    if i > 0 {
      PagesOfIdsAt(pages[1..], i - 1);
    }
  }

  /** A cursor of a page is accepted when it is sent back. */
  lemma CursorIsAccepted(rows: Rows, user: UserId, cursor: Option<int>, limit: int, search: Search)
    requires Stored(rows)
    ensures var page := GetUrlsPage(rows, user, cursor, limit, search);
            page.nextCursor.Some? ==> DecodeCursor(page.nextCursor).FromId?
  {
    PageCursor(rows, user, cursor, limit, search);
  }

  lemma {:induction false} WalkIsKeyset(rows: Rows, user: UserId, param: Option<string>, limit: int, search: Search)
    requires Stored(rows) && DecodeCursor(param) != InvalidCursor
    ensures PagesOfIds(Walk(rows, user, param, limit, search))
            == Keyset.Walk(Selected(rows, user, search), Bound(CursorOf(param)), Clamp(limit))
    ensures |PagesOfIds(Walk(rows, user, param, limit, search))| == |Walk(rows, user, param, limit, search)|
    decreases |Listing(rows, user, CursorOf(param), search)|
  {
    var page := GetUrlsPage(rows, user, CursorOf(param), limit, search);
    PageIsAPrefix(rows, user, CursorOf(param), limit, search);
    if page.nextCursor.None? {
      PagesOfIdsCons(page, []);
      assert [page] + [] == [page];
    } else {
      CursorIsAccepted(rows, user, CursorOf(param), limit, search);
      WalkGoesOn(rows, user, param, limit, search);
      WalkIsKeyset(rows, user, page.nextCursor, limit, search);
      PagesOfIdsCons(page, Walk(rows, user, page.nextCursor, limit, search));
    }
  }

  lemma WalkGoesOn(rows: Rows, user: UserId, param: Option<string>, limit: int, search: Search)
    requires Stored(rows) && DecodeCursor(param) != InvalidCursor
    ensures var page := GetUrlsPage(rows, user, CursorOf(param), limit, search);
            var s, n := Selected(rows, user, search), Clamp(limit);
            page.nextCursor.Some? ==>
              && |Listing(rows, user, FollowUp(page), search)| < |Listing(rows, user, CursorOf(param), search)|
              && Walk(rows, user, param, limit, search) == [page] + Walk(rows, user, page.nextCursor, limit, search)
              && Keyset.Walk(s, Bound(CursorOf(param)), n) == [IdsOf(page.urls)] + Keyset.Walk(s, Bound(FollowUp(page)), n)
  {
    PageIsAPrefix(rows, user, CursorOf(param), limit, search);
    var page := GetUrlsPage(rows, user, CursorOf(param), limit, search);
    if page.nextCursor.Some? {
      Keyset.NextPageContinues(Selected(rows, user, search), Bound(CursorOf(param)), Clamp(limit));
    }
  }

  lemma AllSelected(rows: Rows, user: UserId, search: Search)
    requires Stored(rows)
    ensures Enumerates(Below(Selected(rows, user, search), MAX_I64 + 1), Selected(rows, user, search))
    ensures |Below(Selected(rows, user, search), MAX_I64 + 1)| == |Selected(rows, user, search)|
  {
    var s := Selected(rows, user, search);
    BelowEnumerates(s, MAX_I64 + 1);
    BelowCounts(s, MAX_I64 + 1);
    assert Under(s, MAX_I64 + 1) == s;
  }

  /** The pages of a client that begins without a cursor and follows the cursors over a fixed table. */
  ghost predicate Walked(rows: Rows, user: UserId, limit: int, search: Search, pages: seq<UrlsPage>) {
    Stored(rows) && pages == Walk(rows, user, None, limit, search)
  }

  /**
   Following the cursors from the first page over a fixed table lists the user's matching rows, each
   once, newest first, in as many pages as they need at the clamped limit.
   */
  lemma {:induction false} WholeListing(rows: Rows, user: UserId, limit: int, search: Search, pages: seq<UrlsPage>)
    requires Walked(rows, user, limit, search, pages)
    ensures var ids := Keyset.Concat(PagesOfIds(pages));
            && Descends(ids)
            && (forall id :: id in ids <==> id in rows && rows[id].user == user && search(rows[id]))
            && |pages| == Keyset.PagesFor(|ids|, Clamp(limit))
  {
    SomeCursors();
    WalkIsKeyset(rows, user, None, limit, search);
    Keyset.WalkListsAll(Selected(rows, user, search), MAX_I64 + 1, Clamp(limit));
    AllSelected(rows, user, search);
  }

  // ---------------------------------------------------------------- pages while the table changes

  ghost predicate AllStored(tables: seq<Rows>) {
    forall i :: 0 <= i < |tables| ==> Stored(tables[i])
  }

  /** Pages fetched one after the other, each from the table as it is at that moment; a 400 ends it. */
  ghost function Browse(tables: seq<Rows>, user: UserId, param: Option<string>, limit: int, search: Search): seq<UrlsPage>
    requires AllStored(tables)
    decreases |tables|
  {
    if tables == [] then []
    else
      match GetAllUrls(tables[0], user, param, limit, search)
      case BadRequest => []
      case Ok(page) =>
        [page] + if page.nextCursor.None? then [] else Browse(tables[1..], user, page.nextCursor, limit, search)
  }

  ghost predicate Finished(pages: seq<UrlsPage>)
  {
    pages != [] && pages[|pages| - 1].nextCursor.None?
  }

  ghost function Selections(tables: seq<Rows>, user: UserId, search: Search): (sets: seq<set<int>>)
    ensures |sets| == |tables|
    ensures forall i :: 0 <= i < |tables| ==> sets[i] == Selected(tables[i], user, search)
  {
    if tables == [] then [] else [Selected(tables[0], user, search)] + Selections(tables[1..], user, search)
  }

  lemma BrowseGoesOn(tables: seq<Rows>, user: UserId, param: Option<string>, limit: int, search: Search)
    requires AllStored(tables) && tables != [] && DecodeCursor(param) != InvalidCursor
    ensures var page := GetUrlsPage(tables[0], user, CursorOf(param), limit, search);
            Browse(tables, user, param, limit, search)
            == [page] + if page.nextCursor.None? then [] else Browse(tables[1..], user, page.nextCursor, limit, search)
  {
  }

  lemma TrailGoesOn(sets: seq<set<int>>, bound: int, n: nat)
    requires n >= 1 && sets != []
    ensures var trail, next := Keyset.Browse(sets, bound, n), Keyset.NextOf(sets[0], bound, n);
            var ids := Keyset.PageOf(sets[0], bound, n);
            if next.None? then trail == Keyset.Trail([ids], true)
            else
              var rest := Keyset.Browse(sets[1..], next.value, n);
              trail == Keyset.Trail([ids] + rest.pages, rest.finished)
  {
  }

  lemma {:induction false} BrowseIsKeyset(tables: seq<Rows>, user: UserId, param: Option<string>, limit: int, search: Search)
    requires AllStored(tables) && DecodeCursor(param) != InvalidCursor
    ensures var pages := Browse(tables, user, param, limit, search);
            var trail := Keyset.Browse(Selections(tables, user, search), Bound(CursorOf(param)), Clamp(limit));
            PagesOfIds(pages) == trail.pages && |pages| == |trail.pages| && Finished(pages) == trail.finished
    decreases |tables|
  {
    if tables != [] {
      var page := GetUrlsPage(tables[0], user, CursorOf(param), limit, search);
      var sets := Selections(tables, user, search);
      PageIsAPrefix(tables[0], user, CursorOf(param), limit, search);
      BrowseGoesOn(tables, user, param, limit, search);
      TrailGoesOn(sets, Bound(CursorOf(param)), Clamp(limit));
      assert sets[1..] == Selections(tables[1..], user, search);
      if page.nextCursor.None? {
        PagesOfIdsCons(page, []);
        assert [page] + [] == [page];
      } else {
        var rest := Browse(tables[1..], user, page.nextCursor, limit, search);
        CursorIsAccepted(tables[0], user, CursorOf(param), limit, search);
        BrowseIsKeyset(tables[1..], user, page.nextCursor, limit, search);
        PagesOfIdsCons(page, rest);
        FinishedLater(page, rest);
      }
    }
  }

  lemma FinishedLater(page: UrlsPage, rest: seq<UrlsPage>)
    requires page.nextCursor.Some?
    ensures Finished([page] + rest) == Finished(rest)
  {
  }

  /** The pages of a client that begins without a cursor and follows the cursors while the table changes. */
  ghost predicate Browsed(tables: seq<Rows>, user: UserId, limit: int, search: Search, pages: seq<UrlsPage>) {
    AllStored(tables) && pages == Browse(tables, user, None, limit, search)
  }

  /** However rows come and go between the pages, no link is returned twice and the newest come first. */
  lemma {:induction false} NoDuplicates(tables: seq<Rows>, user: UserId, limit: int, search: Search, pages: seq<UrlsPage>)
    requires Browsed(tables, user, limit, search, pages)
    ensures Descends(Keyset.Concat(PagesOfIds(pages)))
  {
    SomeCursors();
    BrowseIsKeyset(tables, user, None, limit, search);
    Keyset.BrowseDescends(Selections(tables, user, search), MAX_I64 + 1, Clamp(limit));
  }

  /** Once the cursors have run out, every link that matched at each of the page calls has been returned. */
  lemma {:induction false} NothingMissed(tables: seq<Rows>, user: UserId, limit: int, search: Search,
                                         pages: seq<UrlsPage>, id: int)
    requires Browsed(tables, user, limit, search, pages) && Finished(pages)
    requires forall i :: 0 <= i < |pages| && i < |tables| ==>
               id in tables[i] && tables[i][id].user == user && search(tables[i][id])
    ensures id in Keyset.Concat(PagesOfIds(pages))
  {
    SomeCursors();
    BrowseIsKeyset(tables, user, None, limit, search);
    var sets := Selections(tables, user, search);
    assert id in Selected(tables[0], user, search);
    Keyset.BrowseMissesNothing(sets, MAX_I64 + 1, Clamp(limit), id);
  }

  /** What is on the i-th page matched in the table it was read from. */
  lemma {:induction false} NothingInvented(tables: seq<Rows>, user: UserId, limit: int, search: Search,
                                           pages: seq<UrlsPage>, i: nat, id: int)
    requires Browsed(tables, user, limit, search, pages)
    requires i < |pages| && id in IdsOf(pages[i].urls)
    ensures i < |tables| && id in tables[i] && tables[i][id].user == user && search(tables[i][id])
  {
    PagesOfIdsAt(pages, i);
    SomeCursors();
    BrowseIsKeyset(tables, user, None, limit, search);
    Keyset.BrowseInventsNothing(Selections(tables, user, search), MAX_I64 + 1, Clamp(limit), i);
  }

  /**
   The cursors run out: with ids up to `highest` in the first table, after at most
   2 + (highest - 1) / limit calls, whatever is inserted meanwhile.
   */
  lemma {:induction false} BrowsingEnds(tables: seq<Rows>, user: UserId, limit: int, search: Search,
                                        pages: seq<UrlsPage>, highest: int)
    requires Browsed(tables, user, limit, search, pages) && EnoughCalls(|tables|, Clamp(limit), highest)
    requires forall id :: id in tables[0] ==> id <= highest
    ensures Finished(pages)
  {
    var sets := Selections(tables, user, search);
    assert forall id :: id in sets[0] ==> id in tables[0];
    TrailEnds(sets, MAX_I64 + 1, Clamp(limit), highest);
    SomeCursors();
    BrowseIsKeyset(tables, user, None, limit, search);
  }

  /** So many calls cover ids up to the highest at n a page. */
  ghost predicate EnoughCalls(calls: nat, n: nat, highest: int) {
    calls >= 2 && (calls - 2) * n >= highest - 1
  }

  lemma TrailEnds(sets: seq<set<int>>, bound: int, n: nat, highest: int)
    requires n >= 1 && EnoughCalls(|sets|, n, highest)
    requires forall id :: id in sets[0] ==> id <= highest
    ensures Keyset.Browse(sets, bound, n).finished
  {
    var next := Keyset.NextOf(sets[0], bound, n);
    if next.Some? {
      Keyset.NextPageContinues(sets[0], bound, n);
      OneCallLess(sets[1..], |sets|, n, highest, next.value);
      Keyset.BrowseEnds(sets[1..], next.value, n);
    }
    FinishedLikeRest(sets, bound, n);
  }

  lemma OneCallLess(rest: seq<set<int>>, calls: nat, n: nat, highest: int, bound: int)
    requires EnoughCalls(calls, n, highest) && |rest| == calls - 1 && bound <= highest
    ensures |rest| >= 1 && (|rest| - 1) * n >= bound - 1
  {
    assert |rest| - 1 == calls - 2;
  }

  lemma FinishedLikeRest(sets: seq<set<int>>, bound: int, n: nat)
    requires n >= 1 && sets != []
    ensures var next := Keyset.NextOf(sets[0], bound, n);
            Keyset.Browse(sets, bound, n).finished
            == (next.None? || Keyset.Browse(sets[1..], next.value, n).finished)
  {
    TrailGoesOn(sets, bound, n);
  }
}
