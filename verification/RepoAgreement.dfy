/**
 The two repositories agree. On one table they return the same pages for the limits the service
 allows; over any sequence of calls they give the same outcomes up to an order-preserving renaming of
 ids, since only the SQL one uses up an id for a refused link.
 */
module RepoAgreement {
  import opened Wrappers
  import opened Codec
  import opened UrlTable
  import opened DescendingOrder
  import opened Pagination
  import opened Repositories
  import Keyset

  // ---------------------------------------------------------------- the same table

  lemma PagesAgree(rows: Rows, user: UserId, cursor: Option<int>, limit: int)
    requires Stored(rows) && 1 <= limit <= 100
    ensures MockPage(rows, user, cursor, limit) == GetUrlsPage(rows, user, cursor, limit, EVERYTHING)
  {
    PageRows(rows, user, cursor, limit, EVERYTHING);
  }

  ghost predicate AgreeAt(limit: int) {
    forall rows: Rows, user, cursor :: Stored(rows) ==>
      MockPage(rows, user, cursor, limit) == GetUrlsPage(rows, user, cursor, limit, EVERYTHING)
  }

  /** A table of one user's links with ids 1 to n. */
  function Filled(n: nat): Rows
  {
    map id: int | 1 <= id <= n :: Url(id, None, "", 0, 0, None)
  }

  lemma {:induction false} FilledBelow(n: nat, bound: int)
    ensures |Below(Selected(Filled(n), 0, EVERYTHING), bound)|
            == if bound <= 1 then 0 else if bound <= n then bound - 1 else n
    decreases bound
  {
    if bound > 1 {
      FilledBelow(n, bound - 1);
    }
  }

  lemma FilledListing(n: nat)
    requires n <= MAX_I64
    ensures Stored(Filled(n)) && |Listing(Filled(n), 0, None, EVERYTHING)| == n
  {
    FilledBelow(n, MAX_I64 + 1);
  }

  /** Outside the range some page differs: the in-memory repository does not clamp. */
  lemma PagesDiffer(limit: int)
    requires limit < 1 || limit > 100
    ensures exists rows: Rows, user, cursor :: Stored(rows)
              && MockPage(rows, user, cursor, limit) != GetUrlsPage(rows, user, cursor, limit, EVERYTHING)
  {
    var rows := Filled(if limit < 1 then 1 else 101);
    FilledListing(if limit < 1 then 1 else 101);
    PageRows(rows, 0, None, limit, EVERYTHING);
    PageCursor(rows, 0, None, limit, EVERYTHING);
    var page, mock := GetUrlsPage(rows, 0, None, limit, EVERYTHING), MockPage(rows, 0, None, limit);
    if limit < 0 {
      assert page.nextCursor.None? && mock.nextCursor.Some?;
    } else {
      assert |mock.urls| == (if limit == 0 then 0 else 101);
      assert |page.urls| == (if limit == 0 then 1 else 100);
    }
    assert mock != page;
  }

  /** The pages agree on every table exactly for the limits from 1 to 100. */
  lemma PagesAgreeExactly(limit: int)
    ensures AgreeAt(limit) <==> 1 <= limit <= 100
  {
    if 1 <= limit <= 100 {
      forall rows: Rows, user, cursor | Stored(rows)
        ensures MockPage(rows, user, cursor, limit) == GetUrlsPage(rows, user, cursor, limit, EVERYTHING)
      {
        PagesAgree(rows, user, cursor, limit);
      }
    } else {
      PagesDiffer(limit);
    }
  }

  // ---------------------------------------------------------------- twin tables

  /** The two repositories after the same calls, and the ids that correspond, deleted ones included. */
  datatype Twins = Twins(pg: Rows, pgNext: int, mock: Rows, mockNext: int, renaming: map<int, int>)

  const FRESH: Twins := Twins(map[], 1, map[], 1, map[])

  /** The same link under another id. */
  ghost predicate SameLink(u: Url, v: Url) {
    u.original == v.original && u.user == v.user && u.clicks == v.clicks && u.expires == v.expires
  }

  ghost predicate Increasing(f: map<int, int>) {
    forall i, j :: i in f && j in f && i < j ==> f[i] < f[j]
  }

  ghost predicate RowFits(rows: Rows, id: int) {
    id in rows && rows[id].id == id && IsI64(id) && rows[id].code == Some(CodeOf(id))
  }

  ghost predicate Renamed(t: Twins) {
    && Increasing(t.renaming)
    && (forall id :: id in t.renaming ==> 1 <= id < t.pgNext && 1 <= t.renaming[id] < t.mockNext)
    && (forall id :: id in t.pg ==> id in t.renaming)
    && (forall m :: m in t.mock ==> exists id :: id in t.renaming && t.renaming[id] == m)
    && (forall id :: id in t.renaming ==> (id in t.pg <==> t.renaming[id] in t.mock))
    && (forall id :: id in t.renaming && id in t.pg ==> SameLink(t.pg[id], t.mock[t.renaming[id]]))
  }

  ghost predicate Related(t: Twins) {
    && 1 <= t.mockNext <= t.pgNext <= MAX_I64
    && Renamed(t)
    && OneRowPerKey(t.pg) && OneRowPerKey(t.mock)
    && (forall id :: id in t.pg ==> RowFits(t.pg, id))
    && (forall id :: id in t.mock ==> RowFits(t.mock, id))
  }

  datatype Operation =
    | ShortenOp(request: Request, now: Time)
    | DeleteOp(pgId: int, mockId: int, user: UserId)

  /** Calls may be compared while ids last, and deletions when they name corresponding rows. */
  ghost predicate Comparable(t: Twins, op: Operation) {
    match op
    case ShortenOp(_, _) => t.pgNext < MAX_I64
    case DeleteOp(p, m, _) =>
      if p in t.renaming then t.renaming[p] == m else forall id :: id in t.renaming ==> t.renaming[id] != m
  }

  ghost function Step(t: Twins, op: Operation): Twins
    requires Related(t) && Comparable(t, op)
  {
    match op
    case ShortenOp(r, now) =>
      var p, m := Shorten(t.pg, t.pgNext, r, now), MockShorten(t.mock, t.mockNext, r, now);
      Twins(p.rows, p.nextId, m.rows, m.nextId,
            if p.outcome.Created? then t.renaming[t.pgNext := t.mockNext] else t.renaming)
    case DeleteOp(p, m, user) =>
      t.(pg := WithoutUrl(t.pg, p, user).rows, mock := WithoutUrl(t.mock, m, user).rows)
  }

  ghost predicate SameOutcome(f: map<int, int>, p: Outcome, m: Outcome) {
    match (p, m)
    case (Created(u), Created(v)) => u.id in f && f[u.id] == v.id && SameLink(u, v)
    case (Reactivated(u), Reactivated(v)) => u.id in f && f[u.id] == v.id && SameLink(u, v)
    case (Refused, Refused) => true
    case _ => false
  }

  /** What the callers see is the same up to the renaming: outcomes, and codes of corresponding ids. */
  ghost predicate SameAnswers(f: map<int, int>, t: Twins, op: Operation)
    requires Related(t) && Comparable(t, op)
  {
    match op
    case ShortenOp(r, now) =>
      SameOutcome(f, Shorten(t.pg, t.pgNext, r, now).outcome,
                  MockShorten(t.mock, t.mockNext, r, now).outcome)
    case DeleteOp(p, m, user) =>
      var c, d := WithoutUrl(t.pg, p, user).code, WithoutUrl(t.mock, m, user).code;
      if c.Some? then
        p in f && f[p] == m && IsI64(p) && IsI64(m) && c == Some(CodeOf(p)) && d == Some(CodeOf(m))
      else d.None?
  }

  lemma InMock(t: Twins, m: int) returns (id: int)
    requires Renamed(t) && m in t.mock
    ensures id in t.renaming && t.renaming[id] == m && id in t.pg && SameLink(t.pg[id], t.mock[m])
  {
    id :| id in t.renaming && t.renaming[id] == m;
  }

  lemma RenamedApart(t: Twins, i: int, j: int)
    requires Renamed(t) && i in t.renaming && j in t.renaming && t.renaming[i] == t.renaming[j]
    ensures i == j
  {
  }

  /** A link is in one table if and only if it is in the other, under the corresponding id. */
  lemma FindsCorrespond(t: Twins, original: string, user: UserId)
    requires Related(t)
    ensures var p, m := Find(t.pg, original, user), Find(t.mock, original, user);
            if p.Some? then
              && m.Some? && p.value.id in t.pg && t.pg[p.value.id] == p.value
              && p.value.id in t.renaming && t.renaming[p.value.id] == m.value.id
              && m.value.id in t.mock && t.mock[m.value.id] == m.value && SameLink(p.value, m.value)
            else m.None?
  {
    var p, m := Find(t.pg, original, user), Find(t.mock, original, user);
    if p.Some? {
      var id :| id in t.pg && t.pg[id] == p.value && SameKey(t.pg[id], original, user);
      assert RowFits(t.pg, id);
      FoundIsTheRow(t.mock, t.renaming[id], original, user);
      assert RowFits(t.mock, t.renaming[id]);
    } else if m.Some? {
      var id :| id in t.mock && t.mock[id] == m.value && SameKey(t.mock[id], original, user);
      var id' := InMock(t, id);
      assert SameKey(t.pg[id'], original, user);
      assert false;
    }
  }

  lemma ReactivationKeepsRelated(t: Twins, id: int, expires: Option<Time>)
    requires Related(t) && id in t.pg
    ensures var m := t.renaming[id];
            m in t.mock
            && Related(t.(pg := t.pg[id := t.pg[id].(expires := expires)],
                          mock := t.mock[m := t.mock[m].(expires := expires)]))
  {
    var m := t.renaming[id];
    var t' := t.(pg := t.pg[id := t.pg[id].(expires := expires)], mock := t.mock[m := t.mock[m].(expires := expires)]);
    forall i | i in t'.pg ensures RowFits(t'.pg, i) {
      assert RowFits(t.pg, i);
    }
    forall i | i in t'.mock ensures RowFits(t'.mock, i) {
      assert RowFits(t.mock, i);
    }
    forall i | i in t'.renaming && i in t'.pg ensures SameLink(t'.pg[i], t'.mock[t'.renaming[i]]) {
      assert SameLink(t.pg[i], t.mock[t.renaming[i]]);
      if t.renaming[i] == m {
        RenamedApart(t, i, id);
      }
    }
    assert Renamed(t');
  }

  /** Both repositories after creating the same link. */
  ghost function BothCreate(t: Twins, r: Request): Twins
    requires Related(t) && t.pgNext < MAX_I64
  {
    Twins(t.pg[t.pgNext := Url(t.pgNext, Some(CodeOf(t.pgNext)), r.original, r.user, 0, r.expires)],
          t.pgNext + 1,
          t.mock[t.mockNext := Url(t.mockNext, Some(CodeOf(t.mockNext)), r.original, r.user, 0, r.expires)],
          t.mockNext + 1,
          t.renaming[t.pgNext := t.mockNext])
  }

  lemma FreshIds(t: Twins)
    requires Related(t)
    ensures t.pgNext !in t.renaming && t.pgNext !in t.pg && t.mockNext !in t.mock
  {
    if t.mockNext in t.mock {
      var id := InMock(t, t.mockNext);
      assert false;
    }
  }

  lemma OneMorePair(f: map<int, int>, i: int, m: int, pgNext: int, mockNext: int)
    requires Increasing(f) && forall id :: id in f ==> 1 <= id < pgNext && 1 <= f[id] < mockNext
    requires 1 <= i == pgNext && 1 <= m == mockNext
    ensures var f' := f[i := m];
            Increasing(f') && forall id :: id in f' ==> 1 <= id < pgNext + 1 && 1 <= f'[id] < mockNext + 1
  {
  }

  lemma CreationKeepsRenamed(t: Twins, r: Request)
    requires Related(t) && t.pgNext < MAX_I64
    ensures Renamed(BothCreate(t, r))
  {
    FreshIds(t);
    OneMorePair(t.renaming, t.pgNext, t.mockNext, t.pgNext, t.mockNext);
    var t' := BothCreate(t, r);
    forall m | m in t'.mock ensures exists id :: id in t'.renaming && t'.renaming[id] == m {
      if m in t.mock {
        var id := InMock(t, m);
        assert id in t'.renaming && t'.renaming[id] == m;
      } else {
        assert t'.renaming[t.pgNext] == m;
      }
    }
    forall id | id in t'.renaming
      ensures (id in t'.pg <==> t'.renaming[id] in t'.mock)
              && (id in t'.pg ==> SameLink(t'.pg[id], t'.mock[t'.renaming[id]]))
    {
      if id in t.renaming {
        assert id in t.pg <==> t.renaming[id] in t.mock;
      }
    }
  }

  lemma OneMoreRow(rows: Rows, u: Url)
    requires OneRowPerKey(rows) && u.id !in rows
    requires forall id :: id in rows ==> !SameKey(rows[id], u.original, u.user)
    ensures OneRowPerKey(rows[u.id := u])
  {
  }

  lemma CreationKeepsRelated(t: Twins, r: Request)
    requires Related(t) && t.pgNext < MAX_I64
    requires Find(t.pg, r.original, r.user).None? && Find(t.mock, r.original, r.user).None?
    ensures Related(BothCreate(t, r))
  {
    var t' := BothCreate(t, r);
    CreationKeepsRenamed(t, r);
    FreshIds(t);
    OneMoreRow(t.pg, t'.pg[t.pgNext]);
    OneMoreRow(t.mock, t'.mock[t.mockNext]);
    forall i | i in t'.pg ensures RowFits(t'.pg, i) {
      if i in t.pg {
        assert RowFits(t.pg, i);
      }
    }
    forall i | i in t'.mock ensures RowFits(t'.mock, i) {
      if i in t.mock {
        assert RowFits(t.mock, i);
      }
    }
  }

  lemma DeletionKeepsRelated(t: Twins, p: int, m: int, user: UserId)
    requires Related(t) && Comparable(t, DeleteOp(p, m, user))
    ensures Related(Step(t, DeleteOp(p, m, user)))
    ensures SameAnswers(t.renaming, t, DeleteOp(p, m, user))
  {
    var t' := Step(t, DeleteOp(p, m, user));
    if m in t.mock {
      var id := InMock(t, m);
      RenamedApart(t, id, if p in t.renaming then p else id);
    }
    if p in t.pg {
      assert RowFits(t.pg, p) && RowFits(t.mock, m) && SameLink(t.pg[p], t.mock[m]);
    }
    forall i | i in t'.pg ensures RowFits(t'.pg, i) {
      assert RowFits(t.pg, i);
    }
    forall i | i in t'.mock ensures RowFits(t'.mock, i) {
      assert RowFits(t.mock, i);
    }
    forall i | i in t'.renaming ensures i in t'.pg <==> t'.renaming[i] in t'.mock {
      if p in t.renaming && t.renaming[i] == m {
        RenamedApart(t, i, p);
      }
    }
    assert Renamed(t');
  }

  lemma ShortenAgrees(t: Twins, r: Request, now: Time)
    requires Related(t) && t.pgNext < MAX_I64
    ensures Related(Step(t, ShortenOp(r, now)))
    ensures SameAnswers(Step(t, ShortenOp(r, now)).renaming, t, ShortenOp(r, now))
  {
    FindsCorrespond(t, r.original, r.user);
    var found := Find(t.pg, r.original, r.user);
    if found.None? {
      CreationKeepsRelated(t, r);
      assert Step(t, ShortenOp(r, now)) == BothCreate(t, r);
    } else if found.value.expires.Some? && found.value.expires.value < now {
      ReactivationKeepsRelated(t, found.value.id, r.expires);
    }
  }

  /** Every comparable call gives both callers the same answer and leaves the tables corresponding. */
  lemma StepAgrees(t: Twins, op: Operation)
    requires Related(t) && Comparable(t, op)
    ensures Related(Step(t, op)) && SameAnswers(Step(t, op).renaming, t, op)
  {
    match op
    case ShortenOp(r, now) => ShortenAgrees(t, r, now);
    case DeleteOp(p, m, user) => DeletionKeepsRelated(t, p, m, user);
  }

  ghost predicate Extends(f: map<int, int>, g: map<int, int>) {
    forall id :: id in f ==> id in g && g[id] == f[id]
  }

  /** Corresponding ids go on corresponding. */
  lemma RenamingGrows(t: Twins, op: Operation)
    requires Related(t) && Comparable(t, op)
    ensures Extends(t.renaming, Step(t, op).renaming)
  {
    FreshIds(t);
  }

  lemma AnswersLast(f: map<int, int>, g: map<int, int>, t: Twins, op: Operation)
    requires Related(t) && Comparable(t, op) && SameAnswers(f, t, op) && Extends(f, g)
    ensures SameAnswers(g, t, op)
  {
  }

  ghost predicate ComparableRun(t: Twins, ops: seq<Operation>)
    requires Related(t)
    decreases |ops|
  {
    if ops == [] then true
    else
      Comparable(t, ops[0]) &&
      (StepAgrees(t, ops[0]); ComparableRun(Step(t, ops[0]), ops[1..]))
  }

  /** All answers of the run correspond under the one renaming. */
  ghost predicate AnswersAgree(f: map<int, int>, t: Twins, ops: seq<Operation>)
    requires Related(t) && ComparableRun(t, ops)
    decreases |ops|
  {
    if ops == [] then true
    else
      StepAgrees(t, ops[0]);
      SameAnswers(f, t, ops[0]) && AnswersAgree(f, Step(t, ops[0]), ops[1..])
  }

  ghost function AfterRun(t: Twins, ops: seq<Operation>): Twins
    requires Related(t) && ComparableRun(t, ops)
    decreases |ops|
  {
    if ops == [] then t
    else
      StepAgrees(t, ops[0]);
      AfterRun(Step(t, ops[0]), ops[1..])
  }

  lemma {:induction false} RunAgrees(t: Twins, ops: seq<Operation>)
    requires Related(t) && ComparableRun(t, ops)
    ensures Related(AfterRun(t, ops)) && Extends(t.renaming, AfterRun(t, ops).renaming)
    ensures AnswersAgree(AfterRun(t, ops).renaming, t, ops)
    decreases |ops|
  {
    if ops != [] {
      StepAgrees(t, ops[0]);
      RenamingGrows(t, ops[0]);
      var t1 := Step(t, ops[0]);
      RunAgrees(t1, ops[1..]);
      AnswersLast(t1.renaming, AfterRun(t, ops).renaming, t, ops[0]);
    }
  }

  /**
   From two empty repositories, any run of comparable calls gets the same answers from both, up to one
   order-preserving renaming of ids for the whole run, and leaves tables that correspond under it.
   */
  lemma RepositoriesAgree(ops: seq<Operation>)
    ensures Related(FRESH)
    ensures ComparableRun(FRESH, ops) ==>
              var end := AfterRun(FRESH, ops);
              Increasing(end.renaming) && AnswersAgree(end.renaming, FRESH, ops) && Related(end)
  {
    if ComparableRun(FRESH, ops) {
      RunAgrees(FRESH, ops);
    }
  }

  // ---------------------------------------------------------------- corresponding pages

  ghost function Rename(f: map<int, int>, ids: seq<int>): seq<int>
    requires forall i :: 0 <= i < |ids| ==> ids[i] in f
  {
    seq(|ids|, i requires 0 <= i < |ids| => f[ids[i]])
  }

  /** A cursor and its counterpart. */
  ghost predicate SameCursor(t: Twins, c: Option<int>, d: Option<int>) {
    match (c, d)
    case (None, None) => true
    case (Some(i), Some(j)) => i in t.renaming && t.renaming[i] == j
    case _ => false
  }

  lemma RelatedIsStored(t: Twins)
    requires Related(t)
    ensures Stored(t.pg) && Stored(t.mock)
  {
    forall m | m in t.mock ensures 1 <= m <= MAX_I64 && t.mock[m].id == m {
      var id := InMock(t, m);
      assert RowFits(t.mock, m);
    }
  }

  lemma RenamedIsListed(t: Twins, user: UserId, c: Option<int>, d: Option<int>, m: int)
    requires Related(t) && SameCursor(t, c, d)
    requires var ids := Listing(t.pg, user, c, EVERYTHING);
             (forall i :: 0 <= i < |ids| ==> ids[i] in t.renaming) && m in Rename(t.renaming, ids)
    ensures m in Under(Selected(t.mock, user, EVERYTHING), Bound(d))
  {
    var ids := Listing(t.pg, user, c, EVERYTHING);
    var i :| 0 <= i < |ids| && t.renaming[ids[i]] == m;
    var id := ids[i];
    assert id in ids;
    BelowEnumerates(Selected(t.pg, user, EVERYTHING), Bound(c));
    BoundsCorrespond(t, c, d, id);
    RelatedIsStored(t);
    assert SameLink(t.pg[id], t.mock[m]);
  }

  lemma ListedIsRenamed(t: Twins, user: UserId, c: Option<int>, d: Option<int>, m: int)
    requires Related(t) && Stored(t.pg) && SameCursor(t, c, d)
    requires m in Under(Selected(t.mock, user, EVERYTHING), Bound(d))
    requires var ids := Listing(t.pg, user, c, EVERYTHING); forall i :: 0 <= i < |ids| ==> ids[i] in t.renaming
    ensures m in Rename(t.renaming, Listing(t.pg, user, c, EVERYTHING))
  {
    var ids := Listing(t.pg, user, c, EVERYTHING);
    var id := InMock(t, m);
    BoundsCorrespond(t, c, d, id);
    BelowContains(Selected(t.pg, user, EVERYTHING), Bound(c), id);
    assert id in ids;
    var i :| 0 <= i < |ids| && ids[i] == id;
    assert Rename(t.renaming, ids)[i] == m;
  }

  /** The listing of the one table is the renamed listing of the other. */
  lemma ListingsCorrespond(t: Twins, user: UserId, c: Option<int>, d: Option<int>)
    requires Related(t) && Stored(t.pg) && Stored(t.mock) && SameCursor(t, c, d)
    ensures var ids := Listing(t.pg, user, c, EVERYTHING);
            (forall i :: 0 <= i < |ids| ==> ids[i] in t.renaming)
            && Listing(t.mock, user, d, EVERYTHING) == Rename(t.renaming, ids)
  {
    var s, s' := Selected(t.pg, user, EVERYTHING), Selected(t.mock, user, EVERYTHING);
    var ids := Listing(t.pg, user, c, EVERYTHING);
    ListingIsStored(t.pg, user, c, EVERYTHING);
    BelowEnumerates(s, Bound(c));
    BelowEnumerates(s', Bound(d));
    var renamed := Rename(t.renaming, ids);
    forall m ensures m in renamed <==> m in Under(s', Bound(d)) {
      if m in renamed {
        RenamedIsListed(t, user, c, d, m);
      }
      if m in Under(s', Bound(d)) {
        ListedIsRenamed(t, user, c, d, m);
      }
    }
    assert Descends(renamed);
    DescendingUnique(renamed, Below(s', Bound(d)), Under(s', Bound(d)));
  }

  lemma BoundsCorrespond(t: Twins, c: Option<int>, d: Option<int>, id: int)
    requires Related(t) && SameCursor(t, c, d) && id in t.renaming
    ensures id < Bound(c) <==> t.renaming[id] < Bound(d)
  {
    if c.Some? && t.renaming[id] == t.renaming[c.value] {
      RenamedApart(t, id, c.value);
    }
  }

  /** The counterparts of the first rows are the first rows of the counterpart. */
  lemma PagesOfIdsCorrespond(t: Twins, user: UserId, c: Option<int>, d: Option<int>, n: nat)
    requires Related(t) && Stored(t.pg) && Stored(t.mock) && SameCursor(t, c, d) && n >= 1
    ensures var ids := Keyset.PageOf(Selected(t.pg, user, EVERYTHING), Bound(c), n);
            (forall i :: 0 <= i < |ids| ==> ids[i] in t.renaming)
            && Keyset.PageOf(Selected(t.mock, user, EVERYTHING), Bound(d), n) == Rename(t.renaming, ids)
    ensures SameCursor(t, Keyset.NextOf(Selected(t.pg, user, EVERYTHING), Bound(c), n),
                       Keyset.NextOf(Selected(t.mock, user, EVERYTHING), Bound(d), n))
  {
    ListingsCorrespond(t, user, c, d);
  }

  /** The rows of a page, found by their ids. */
  ghost predicate SamePage(t: Twins, p: UrlsPage, m: UrlsPage) {
    && |p.urls| == |m.urls|
    && (forall i :: 0 <= i < |p.urls| ==>
          p.urls[i].id in t.renaming && t.renaming[p.urls[i].id] == m.urls[i].id && SameLink(p.urls[i], m.urls[i]))
    && SameCursor(t, FollowUp(p), FollowUp(m))
  }

  lemma RowsCorrespond(t: Twins, v: seq<Url>, w: seq<Url>)
    requires Related(t)
    requires forall i :: 0 <= i < |v| ==> v[i].id in t.pg && t.pg[v[i].id] == v[i]
    requires forall i :: 0 <= i < |w| ==> w[i].id in t.mock && t.mock[w[i].id] == w[i]
    requires forall i :: 0 <= i < |IdsOf(v)| ==> IdsOf(v)[i] in t.renaming
    requires IdsOf(w) == Rename(t.renaming, IdsOf(v))
    ensures |v| == |w|
    ensures forall i :: 0 <= i < |v| ==> v[i].id in t.renaming && t.renaming[v[i].id] == w[i].id && SameLink(v[i], w[i])
  {
    forall i | 0 <= i < |v|
      ensures v[i].id in t.renaming && t.renaming[v[i].id] == w[i].id && SameLink(v[i], w[i])
    {
      assert IdsOf(v)[i] == v[i].id && IdsOf(w)[i] == w[i].id;
      assert SameLink(t.pg[v[i].id], t.mock[w[i].id]);
    }
  }

  lemma PageHolds(rows: Rows, user: UserId, cursor: Option<int>, limit: int, search: Search)
    requires Stored(rows)
    ensures var urls := GetUrlsPage(rows, user, cursor, limit, search).urls;
            forall i :: 0 <= i < |urls| ==> urls[i].id in rows && rows[urls[i].id] == urls[i]
  {
    PageRows(rows, user, cursor, limit, search);
  }

  /**
   Pages correspond too: at a limit from 1 to 100 and corresponding cursors, both repositories return
   corresponding links in the same order, and corresponding cursors to go on with.
   */
  lemma PagesCorrespond(t: Twins, user: UserId, c: Option<int>, d: Option<int>, limit: int)
    requires Related(t) && SameCursor(t, c, d) && 1 <= limit <= 100
    ensures Stored(t.pg) && Stored(t.mock)
    ensures SamePage(t, GetUrlsPage(t.pg, user, c, limit, EVERYTHING), MockPage(t.mock, user, d, limit))
  {
    RelatedIsStored(t);
    PagesAgree(t.mock, user, d, limit);
    PagesOfIdsCorrespond(t, user, c, d, limit);
    PageIsAPrefix(t.pg, user, c, limit, EVERYTHING);
    PageIsAPrefix(t.mock, user, d, limit, EVERYTHING);
    PageHolds(t.pg, user, c, limit, EVERYTHING);
    PageHolds(t.mock, user, d, limit, EVERYTHING);
    RowsCorrespond(t, GetUrlsPage(t.pg, user, c, limit, EVERYTHING).urls,
                   GetUrlsPage(t.mock, user, d, limit, EVERYTHING).urls);
  }
}
