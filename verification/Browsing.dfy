/**
 Browsing while the service runs: the tables that the pages are read from are those along one schedule of
 creations, reactivations, deletions and clicks.
 */
module Browsing {
  import opened Wrappers
  import opened Codec
  import opened UrlTable
  import opened DescendingOrder
  import opened Pagination
  import Keyset

  /** The search looks at the link and its code only. */
  ghost predicate ReadsTextOnly(search: Search) {
    forall u: Url, v: Url :: u.original == v.original && u.code == v.code ==> search(u) == search(v)
  }

  /** Stretches of the run, one before each page call. */
  ghost predicate LegalStretches(db: Db, stretches: seq<seq<Step>>)
    decreases |stretches|
  {
    stretches == [] || (LegalFrom(db, stretches[0]) && LegalStretches(After(db, stretches[0]), stretches[1..]))
  }

  /** The table each page call meets. */
  ghost function Tables(db: Db, stretches: seq<seq<Step>>): (tables: seq<Rows>)
    requires LegalStretches(db, stretches)
    ensures |tables| == |stretches|
    decreases |stretches|
  {
    if stretches == [] then []
    else
      var db' := After(db, stretches[0]);
      [db'.rows] + Tables(db', stretches[1..])
  }

  lemma {:induction false} TablesAreStored(db: Db, stretches: seq<seq<Step>>)
    requires Inv(db) && LegalStretches(db, stretches)
    ensures AllStored(Tables(db, stretches))
    decreases |stretches|
  {
    if stretches != [] {
      var db' := After(db, stretches[0]);
      Reachable(db, stretches[0]);
      InvIsStored(db');
      TablesAreStored(db', stretches[1..]);
      var rest := Tables(db', stretches[1..]);
      forall i | 0 <= i < |stretches| ensures Stored(Tables(db, stretches)[i]) {
        if i > 0 {
          assert Tables(db, stretches)[i] == rest[i - 1];
        }
      }
    }
  }

  /** A row keeps its link, its owner and its code for as long as it is there. */
  lemma RowIsItsOwners(db: Db, id: int)
    requires Inv(db) && id in db.rows
    ensures id in db.owners && IsI64(id) && db.rows[id].code == Some(CodeOf(id))
    ensures db.rows[id].original == db.owners[id].original && db.rows[id].user == db.owners[id].user
  {
    assert RowFits(db, id);
  }

  /** Gone once, gone for the rest of the run. */
  lemma {:induction false} GoneStaysGone(db: Db, stretches: seq<seq<Step>>, id: int, i: nat)
    requires Inv(db) && LegalStretches(db, stretches) && i < |stretches|
    requires id in db.owners && id !in db.rows
    ensures id !in Tables(db, stretches)[i]
    decreases |stretches|
  {
    var db' := After(db, stretches[0]);
    OwnersOverRun(db, stretches[0], id);
    Reachable(db, stretches[0]);
    if i > 0 {
      GoneStaysGone(db', stretches[1..], id, i - 1);
    }
  }

  /** A link that is there now and at a later page call is there, and matches alike, at the calls between. */
  lemma {:induction false} ThereInBetween(db: Db, stretches: seq<seq<Step>>, user: UserId, search: Search,
                                          id: int, i: nat, last: nat)
    requires Inv(db) && LegalStretches(db, stretches) && i <= last < |stretches| && ReadsTextOnly(search)
    requires id in db.rows && id in Tables(db, stretches)[last]
    ensures id in Tables(db, stretches)[i]
    ensures id in Selected(Tables(db, stretches)[i], user, search) <==> id in Selected(db.rows, user, search)
    decreases |stretches|
  {
    var db' := After(db, stretches[0]);
    Reachable(db, stretches[0]);
    RowIsItsOwners(db, id);
    OwnersOverRun(db, stretches[0], id);
    if id !in db'.rows {
      if last > 0 {
        GoneStaysGone(db', stretches[1..], id, last - 1);
      }
      assert false;
    } else {
      RowIsItsOwners(db', id);
      assert search(db'.rows[id]) == search(db.rows[id]);
      if i > 0 {
        ThereInBetween(db', stretches[1..], user, search, id, i - 1, last - 1);
      }
    }
  }

  /** A client never gets more pages than it makes calls. */
  lemma {:induction false} OnePagePerCall(tables: seq<Rows>, user: UserId, param: Option<string>, limit: int, search: Search)
    requires AllStored(tables)
    ensures |Browse(tables, user, param, limit, search)| <= |tables|
    decreases |tables|
  {
    if tables != [] {
      var response := GetAllUrls(tables[0], user, param, limit, search);
      if response.Ok? && response.page.nextCursor.Some? {
        OnePagePerCall(tables[1..], user, response.page.nextCursor, limit, search);
      }
    }
  }

  /** The pages of a client that starts browsing in this table, the run going on before each call. */
  ghost predicate BrowsedRun(db: Db, stretches: seq<seq<Step>>, user: UserId, limit: int, search: Search, pages: seq<UrlsPage>) {
    Inv(db) && LegalStretches(db, stretches) && Browsed(Tables(db, stretches), user, limit, search, pages)
  }

  /**
   Stability. Whatever the service does while the pages are read, no link comes twice, and once the
   cursors have run out, every link that matched when browsing began and is still there at the last
   call has come.
   */
  lemma {:induction false} BrowsingIsStable(db: Db, stretches: seq<seq<Step>>, user: UserId, limit: int, search: Search,
                                            pages: seq<UrlsPage>, id: int)
    requires BrowsedRun(db, stretches, user, limit, search, pages) && Finished(pages) && ReadsTextOnly(search)
    requires id in db.rows && db.rows[id].user == user && search(db.rows[id])
    requires |pages| <= |stretches| ==> id in Tables(db, stretches)[|pages| - 1]
    ensures Descends(Keyset.Concat(PagesOfIds(pages)))
    ensures id in Keyset.Concat(PagesOfIds(pages))
  {
    var tables := Tables(db, stretches);
    OnePagePerCall(tables, user, None, limit, search);
    NoDuplicates(tables, user, limit, search, pages);
    forall i | 0 <= i < |pages| && i < |tables|
      ensures id in tables[i] && tables[i][id].user == user && search(tables[i][id])
    {
      ThereInBetween(db, stretches, user, search, id, i, |pages| - 1);
    }
    NothingMissed(tables, user, limit, search, pages, id);
  }
}
