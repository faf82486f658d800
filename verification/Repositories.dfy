/**
 The two implementations of the repository trait: the SQL one and the in-memory one of the unit tests.
 Each updates its own table in place and is proved against a function of the table.
 */
module Repositories {
  import opened Wrappers
  import opened Codec
  import opened UrlTable
  import opened DescendingOrder
  import opened Pagination
  import Keyset

  /** At most one row per link and user, every row under its own id. */
  ghost predicate OneRowPerKey(rows: Rows) {
    && (forall id :: id in rows ==> rows[id].id == id)
    && forall i, j :: i in rows && j in rows && SameKey(rows[i], rows[j].original, rows[j].user) ==> i == j
  }

  lemma FoundIsTheRow(rows: Rows, id: int, original: string, user: UserId)
    requires OneRowPerKey(rows) && id in rows && SameKey(rows[id], original, user)
    ensures Find(rows, original, user) == Some(rows[id])
  {
    var found := Find(rows, original, user);
    if found.Some? {
      var other :| other in rows && rows[other] == found.value && SameKey(rows[other], original, user);
    }
  }

  // ---------------------------------------------------------------- deleting

  datatype Deletion = Deletion(rows: Rows, code: Option<string>)

  /** Only the owner deletes; what is gone is named by its short code. */
  function WithoutUrl(rows: Rows, id: int, user: UserId): Deletion
  {
    if id in rows && rows[id].user == user then Deletion(rows - {id}, rows[id].code) else Deletion(rows, None)
  }

  /** It is the statement of the table, which deletes exactly for the owner; the code is that of the row. */
  lemma DeletionIsTheStatement(db: Db, id: int, user: UserId)
    requires Inv(db)
    ensures Enabled(db, Delete(id, user)) <==> id in db.rows && db.rows[id].user == user
    ensures WithoutUrl(db.rows, id, user).rows
            == if Enabled(db, Delete(id, user)) then Apply(db, Delete(id, user)).rows else db.rows
    ensures WithoutUrl(db.rows, id, user).code
            == if id in db.rows && IsI64(id) && db.rows[id].user == user then Some(CodeOf(id)) else None
  {
    if id in db.rows {
      assert UrlTable.RowFits(db, id);
    }
  }

  // ---------------------------------------------------------------- the SQL repository

  class PgUrlRepo {
    var rows: Rows
    var nextId: int

    constructor ()
      ensures rows == map[] && nextId == 1
    {
      rows, nextId := map[], 1;
    }

    /** Select, then reactivate, refuse, or insert in a transaction that gives the row its code. */
    method AddShortenUrl(request: Request, now: Time) returns (outcome: Outcome)
      requires OneRowPerKey(rows) && (nextId <= MAX_I64 ==> IsI64(nextId))
      modifies this
      ensures Shortened(rows, nextId, outcome) == Shorten(old(rows), old(nextId), request, now)
    {
      if exists id :: id in rows && SameKey(rows[id], request.original, request.user) {
        var id :| id in rows && SameKey(rows[id], request.original, request.user);
        FoundIsTheRow(rows, id, request.original, request.user);
        var existing := rows[id];
        if existing.expires.Some? {
          if existing.expires.value < now {
            var reactivated := existing.(expires := request.expires);
            rows := rows[existing.id := reactivated];
            return Reactivated(reactivated);
          }
          return Refused;
        }
      }
      if nextId > MAX_I64 {
        return Failed;
      }
      var urlId := nextId;
      nextId := nextId + 1;
      if exists id :: id in rows && SameKey(rows[id], request.original, request.user) {
        return Refused;
      }
      var inserted := Url(urlId, None, request.original, request.user, 0, request.expires);
      var shortCode := CodeOf(urlId);
      var url := inserted.(code := Some(shortCode));
      rows := rows[urlId := url];
      outcome := Created(url);
    }

    /** Fetch one row more than the clamped limit; when it is there, pop it and hand out a cursor. */
    method GetUrlsPage(user: UserId, cursor: Option<int>, limit: int, search: Search) returns (page: UrlsPage)
      requires Stored(rows)
      ensures page == Pagination.GetUrlsPage(rows, user, cursor, limit, search)
    {
      var limit' := Clamp(limit);
      var urls := ListUrls(rows, user, cursor, search);
      if |urls| > limit' + 1 {
        FirstHeld(rows, urls, limit' + 1);
        urls := urls[..limit' + 1];
      }
      assert IdsOf(urls) == Keyset.Take(Listing(rows, user, cursor, search), limit' + 1);
      HeldRows(rows, urls);
      assert urls == Query(rows, user, cursor, limit' + 1, search);
      var hasNext := |urls| > limit';
      if hasNext {
        urls := urls[..|urls| - 1];
      }
      var nextCursor := None;
      if hasNext && urls != [] {
        nextCursor := Some(PrintHex(urls[|urls| - 1].id));
      }
      page := UrlsPage(urls, nextCursor);
    }

    method DeleteUrl(id: int, user: UserId) returns (code: Option<string>)
      modifies this`rows
      ensures Deletion(rows, code) == WithoutUrl(old(rows), id, user)
      ensures code == if id in old(rows) && old(rows)[id].user == user then old(rows)[id].code else None
      ensures forall other :: other in rows <==> other in old(rows) && (other != id || old(rows)[id].user != user)
      ensures forall other :: other in rows ==> rows[other] == old(rows)[other]
    {
      code := None;
      if id in rows && rows[id].user == user {
        code := rows[id].code;
        rows := rows - {id};
      }
    }
  }

  // ---------------------------------------------------------------- the in-memory repository

  /** The atomic counter wraps around at the end of the 64-bit range. */
  function NextCounter(id: int): int
  {
    if id == MAX_I64 then MIN_I64 else id + 1
  }

  ghost function MockShorten(rows: Rows, nextId: int, r: Request, now: Time): Shortened
    requires IsI64(nextId)
  {
    var found := Find(rows, r.original, r.user);
    if found.Some? then
      if found.value.expires.Some? && found.value.expires.value < now then
        var row := found.value.(expires := r.expires);
        Shortened(rows[row.id := row], nextId, Reactivated(row))
      else Shortened(rows, nextId, Refused)
    else
      var url := Url(nextId, Some(CodeOf(nextId)), r.original, r.user, 0, r.expires);
      Shortened(rows[nextId := url], NextCounter(nextId), Created(url))
  }

  // ---------------------------------------------------------------- what a call promises

  /** The row is for this link and user, and its expiry is past. */
  predicate Expired(row: Url, now: Time) {
    row.expires.Some? && row.expires.value < now
  }

  predicate RowFor(row: Url, r: Request) {
    row.original == r.original && row.user == r.user
  }

  /**
   A link the user already has is given the new expiry if it has expired, and else refused with nothing
   changed, whether it expires later or never; a new one is stored as requested under the next id.
   */
  lemma ShortenKeepsItsPromise(rows: Rows, nextId: int, r: Request, now: Time)
    requires OneRowPerKey(rows) && IsI64(nextId)
    ensures var done := Shorten(rows, nextId, r, now);
            && (forall id :: id in rows && RowFor(rows[id], r) ==>
                  var row := rows[id].(expires := r.expires);
                  if Expired(rows[id], now) then done.outcome == Reactivated(row) && done.rows == rows[id := row]
                  else done.outcome == Refused && done.rows == rows)
            && ((forall id :: id in rows ==> !RowFor(rows[id], r)) ==>
                  var url := Url(nextId, Some(CodeOf(nextId)), r.original, r.user, 0, r.expires);
                  done.outcome == Created(url) && done.rows == rows[nextId := url])
  {
    forall id | id in rows && RowFor(rows[id], r) ensures Find(rows, r.original, r.user) == Some(rows[id]) {
      FoundIsTheRow(rows, id, r.original, r.user);
    }
  }

  /** The in-memory repository promises the same. */
  lemma MockShortenKeepsItsPromise(rows: Rows, nextId: int, r: Request, now: Time)
    requires OneRowPerKey(rows) && IsI64(nextId)
    ensures var done := MockShorten(rows, nextId, r, now);
            && (forall id :: id in rows && RowFor(rows[id], r) ==>
                  var row := rows[id].(expires := r.expires);
                  if Expired(rows[id], now) then done.outcome == Reactivated(row) && done.rows == rows[id := row]
                  else done.outcome == Refused && done.rows == rows)
            && ((forall id :: id in rows ==> !RowFor(rows[id], r)) ==>
                  var url := Url(nextId, Some(CodeOf(nextId)), r.original, r.user, 0, r.expires);
                  done.outcome == Created(url) && done.rows == rows[nextId := url])
  {
    forall id | id in rows && RowFor(rows[id], r) ensures Find(rows, r.original, r.user) == Some(rows[id]) {
      FoundIsTheRow(rows, id, r.original, r.user);
    }
  }

  // ---------------------------------------------------------------- the in-memory repository at work

  /** The in-memory page: the limit is taken as it is, and a negative one truncates nothing. */
  ghost function MockPage(rows: Rows, user: UserId, cursor: Option<int>, limit: int): UrlsPage
    requires Stored(rows)
  {
    ListingIsStored(rows, user, cursor, EVERYTHING);
    var ids := Listing(rows, user, cursor, EVERYTHING);
    var kept := if limit < 0 then ids else Keyset.Take(ids, limit);
    UrlsPage(RowsOf(rows, kept),
             if |ids| > limit && kept != [] then Some(PrintHex(kept[|kept| - 1])) else None)
  }

  class MockUrlRepo {
    var urls: Rows
    var nextId: int

    constructor ()
      ensures urls == map[] && nextId == 1
    {
      urls, nextId := map[], 1;
    }

    method AddShortenUrl(request: Request, now: Time) returns (outcome: Outcome)
      requires OneRowPerKey(urls) && IsI64(nextId)
      modifies this
      ensures Shortened(urls, nextId, outcome) == MockShorten(old(urls), old(nextId), request, now)
    {
      if exists id :: id in urls && SameKey(urls[id], request.original, request.user) {
        var id :| id in urls && SameKey(urls[id], request.original, request.user);
        FoundIsTheRow(urls, id, request.original, request.user);
        var existing := urls[id];
        if existing.expires.Some? && existing.expires.value < now {
          var updated := existing.(expires := request.expires);
          urls := urls[updated.id := updated];
          return Reactivated(updated);
        }
        return Refused;
      }
      var id := nextId;
      nextId := NextCounter(nextId);
      var url := Url(id, Some(CodeOf(id)), request.original, request.user, 0, request.expires);
      urls := urls[id := url];
      outcome := Created(url);
    }

    method DeleteUrl(id: int, user: UserId) returns (code: Option<string>)
      modifies this`urls
      ensures Deletion(urls, code) == WithoutUrl(old(urls), id, user)
      ensures code == if id in old(urls) && old(urls)[id].user == user then old(urls)[id].code else None
      ensures forall other :: other in urls <==> other in old(urls) && (other != id || old(urls)[id].user != user)
      ensures forall other :: other in urls ==> urls[other] == old(urls)[other]
    {
      if id in urls && urls[id].user == user {
        code := urls[id].code;
        urls := urls - {id};
        return;
      }
      code := None;
    }

    /** Collect, sort, filter, truncate; the search is not looked at. */
    method GetUrlsPage(user: UserId, cursor: Option<int>, limit: int) returns (page: UrlsPage)
      requires Stored(urls)
      ensures page == MockPage(urls, user, cursor, limit)
    {
      var filtered := ListUrls(urls, user, cursor, EVERYTHING);
      ghost var ids := Listing(urls, user, cursor, EVERYTHING);
      var hasNext := |filtered| > limit;
      if 0 <= limit < |filtered| {
        FirstHeld(urls, filtered, limit);
        filtered := filtered[..limit];
      }
      MockPageHolds(urls, user, cursor, limit, filtered);
      var nextCursor := None;
      if hasNext && filtered != [] {
        nextCursor := Some(PrintHex(filtered[|filtered| - 1].id));
      }
      page := UrlsPage(filtered, nextCursor);
    }
  }

  /** The user's matching rows under the cursor, newest first. */
  method ListUrls(rows: Rows, user: UserId, cursor: Option<int>, search: Search) returns (filtered: seq<Url>)
    requires Stored(rows)
    ensures IdsOf(filtered) == Listing(rows, user, cursor, search) && Holds(filtered, rows)
  {
    var collected := Collect(rows, user, search);
    var userUrls := SortNewestFirst(collected);
    forall u ensures u in userUrls <==> u in collected {
      assert u in multiset(userUrls) <==> u in multiset(collected);
    }
    filtered := if cursor.Some? then FilterBelow(userUrls, cursor.value) else userUrls;
    FilteredIsListing(rows, user, cursor, search, userUrls, filtered);
  }

  lemma MockPageHolds(rows: Rows, user: UserId, cursor: Option<int>, limit: int, kept: seq<Url>)
    requires Stored(rows) && Holds(kept, rows)
    requires var ids := Listing(rows, user, cursor, EVERYTHING);
             IdsOf(kept) == if limit < 0 then ids else Keyset.Take(ids, limit)
    ensures forall i :: 0 <= i < |kept| ==> IsI64(kept[i].id)
    ensures MockPage(rows, user, cursor, limit)
            == UrlsPage(kept, if |Listing(rows, user, cursor, EVERYTHING)| > limit && kept != []
                              then Some(PrintHex(kept[|kept| - 1].id)) else None)
  {
    HeldRows(rows, kept);
    assert |IdsOf(kept)| == |kept|;
    assert kept != [] ==> IdsOf(kept)[|kept| - 1] == kept[|kept| - 1].id;
  }

  lemma FirstHeld(rows: Rows, v: seq<Url>, n: nat)
    requires Holds(v, rows) && n <= |v|
    ensures Holds(v[..n], rows) && IdsOf(v[..n]) == IdsOf(v)[..n]
  {
  }

  lemma HeldRows(rows: Rows, v: seq<Url>)
    requires Holds(v, rows)
    ensures RowsOf(rows, IdsOf(v)) == v
  {
  }

  // ---------------------------------------------------------------- the vector operations of the in-memory page

  ghost predicate Holds(v: seq<Url>, rows: Rows) {
    forall i :: 0 <= i < |v| ==> v[i].id in rows && rows[v[i].id] == v[i]
  }

  ghost predicate NewestFirst(v: seq<Url>) {
    forall i, j :: 0 <= i < j < |v| ==> v[i].id > v[j].id
  }

  ghost predicate DistinctIds(v: seq<Url>) {
    forall i, j :: 0 <= i < j < |v| ==> v[i].id != v[j].id
  }

  method AnyKey<K, V>(m: map<K, V>) returns (k: K)
    requires m != map[]
    ensures k in m
  {
    k :| k in m;
  }

  /** The user's matching rows, in whatever order the map yields them. */
  method Collect(rows: Rows, user: UserId, search: Search) returns (v: seq<Url>)
    requires Stored(rows)
    ensures Holds(v, rows)
    ensures DistinctIds(v)
    ensures forall u :: u in v <==> u.id in rows && rows[u.id] == u && u.user == user && search(u)
  {
    v := [];
    var rest := rows;
    while rest != map[]
      invariant rest.Keys <= rows.Keys && forall id :: id in rest ==> rest[id] == rows[id]
      invariant Holds(v, rows)
      invariant forall i :: 0 <= i < |v| ==> v[i].id !in rest
      invariant DistinctIds(v)
      invariant forall u :: u in v <==> u.id in rows && u.id !in rest && rows[u.id] == u && u.user == user && search(u)
      decreases rest
    {
      var id := AnyKey(rest);
      if rest[id].user == user && search(rest[id]) {
        v := v + [rest[id]];
      }
      rest := rest - {id};
    }
  }

  method InsertNewestFirst(sorted: seq<Url>, u: Url) returns (sorted': seq<Url>)
    requires NewestFirst(sorted) && forall i :: 0 <= i < |sorted| ==> sorted[i].id != u.id
    ensures NewestFirst(sorted') && multiset(sorted') == multiset(sorted) + multiset{u}
  {
    var k := 0;
    while k < |sorted| && sorted[k].id > u.id
      invariant 0 <= k <= |sorted|
      invariant forall j :: 0 <= j < k ==> sorted[j].id > u.id
    {
      k := k + 1;
    }
    InsertedInPlace(sorted, k, u);
    sorted' := sorted[..k] + [u] + sorted[k..];
  }

  /** Sorting by descending id keeps the elements; with distinct ids the order becomes strict. */
  method SortNewestFirst(v: seq<Url>) returns (sorted: seq<Url>)
    requires DistinctIds(v)
    ensures multiset(sorted) == multiset(v) && NewestFirst(sorted)
  {
    sorted := [];
    var i := 0;
    while i < |v|
      invariant 0 <= i <= |v|
      invariant multiset(sorted) == multiset(v[..i]) && NewestFirst(sorted)
    {
      forall j | 0 <= j < |sorted| ensures sorted[j].id != v[i].id {
        NotYetSorted(v, i, sorted, sorted[j]);
      }
      assert v[..i + 1] == v[..i] + [v[i]];
      sorted := InsertNewestFirst(sorted, v[i]);
      i := i + 1;
    }
    assert v[..|v|] == v;
  }

  lemma NotYetSorted(v: seq<Url>, i: nat, sorted: seq<Url>, u: Url)
    requires DistinctIds(v) && i < |v| && multiset(sorted) == multiset(v[..i]) && u in sorted
    ensures u.id != v[i].id
  {
    assert u in multiset(v[..i]);
    assert u in v[..i];
  }

  lemma InsertedInPlace(s: seq<Url>, k: nat, u: Url)
    requires k <= |s| && NewestFirst(s)
    requires forall j :: 0 <= j < k ==> s[j].id > u.id
    requires k < |s| ==> s[k].id < u.id
    ensures NewestFirst(s[..k] + [u] + s[k..])
    ensures multiset(s[..k] + [u] + s[k..]) == multiset(s) + multiset{u}
  {
    assert s == s[..k] + s[k..];
  }

  function FilterBelow(v: seq<Url>, cursor: int): seq<Url>
  {
    if v == [] then []
    else (if v[0].id < cursor then [v[0]] else []) + FilterBelow(v[1..], cursor)
  }

  lemma {:induction false} FilterKeepsOrder(v: seq<Url>, cursor: int)
    requires NewestFirst(v)
    ensures NewestFirst(FilterBelow(v, cursor))
    ensures forall u :: u in FilterBelow(v, cursor) <==> u in v && u.id < cursor
    decreases |v|
  {
    if v != [] {
      assert v == [v[0]] + v[1..];
      FilterKeepsOrder(v[1..], cursor);
      var rest := FilterBelow(v[1..], cursor);
      forall i | 0 <= i < |rest| ensures rest[i].id < v[0].id {
        var u := rest[i];
        assert u in rest;
        var j :| 0 <= j < |v[1..]| && v[1..][j] == u;
        assert v[j + 1] == u;
      }
    }
  }

  /** Collecting, sorting and filtering give the rows of the descending listing under the cursor. */
  lemma FilteredIsListing(rows: Rows, user: UserId, cursor: Option<int>, search: Search, sorted: seq<Url>, filtered: seq<Url>)
    requires Stored(rows) && NewestFirst(sorted)
    requires forall u :: u in sorted <==> u.id in rows && rows[u.id] == u && u.user == user && search(u)
    requires filtered == if cursor.Some? then FilterBelow(sorted, cursor.value) else sorted
    ensures IdsOf(filtered) == Listing(rows, user, cursor, search)
    ensures Holds(filtered, rows)
  {
    if cursor.Some? {
      FilterKeepsOrder(sorted, cursor.value);
    }
    var ids := IdsOf(filtered);
    var s := Selected(rows, user, search);
    forall i | 0 <= i < |filtered| ensures filtered[i].id in rows && rows[filtered[i].id] == filtered[i] {
      var u := filtered[i];
      assert u in filtered;
    }
    forall x ensures x in ids <==> x in Under(s, Bound(cursor)) {
      if x in ids {
        var i :| 0 <= i < |ids| && ids[i] == x;
        var u := filtered[i];
        assert u in filtered && u in sorted;
      }
      if x in Under(s, Bound(cursor)) {
        var u := rows[x];
        assert u in sorted && u in filtered;
        var i :| 0 <= i < |filtered| && filtered[i] == u;
        assert ids[i] == x;
      }
    }
    assert Enumerates(ids, Under(s, Bound(cursor)));
    BelowEnumerates(s, Bound(cursor));
    DescendingUnique(ids, Below(s, Bound(cursor)), Under(s, Bound(cursor)));
  }
}
