/**
 The urls table and the many-statement creation of a short link. Callers run their SELECT, INSERT,
 code UPDATE, COMMIT and reactivating UPDATE interleaved with each other and with deletions.
 */
module UrlTable {
  import opened Wrappers
  import opened Codec

  type UserId = int
  type Time = int

  datatype Url = Url(
    id: int,
    code: Option<string>,
    original: string,
    user: UserId,
    clicks: nat,
    expires: Option<Time>)

  type Rows = map<int, Url>

  datatype Request = Request(original: string, user: UserId, expires: Option<Time>)

  datatype Outcome = Created(url: Url) | Reactivated(url: Url) | Refused | Failed

  /** How far a call of add_shorten_url is; the uncommitted row lives in its transaction. */
  datatype Progress =
    | Selecting
    | Reactivating(id: int)
    | Drawing
    | Inserting(id: int)
    | Coding(row: Url)
    | Committing(row: Url)
    | Returned(outcome: Outcome)

  datatype Call = Call(request: Request, progress: Progress)

  /** What an id was created for. */
  datatype Owner = Owner(original: string, user: UserId)

  /** Committed rows, the id sequence, the calls in progress, and the history of committed ids. */
  datatype Db = Db(rows: Rows, nextId: int, calls: map<nat, Call>, owners: map<int, Owner>)

  const INITIAL: Db := Db(map[], 1, map[], map[])

  predicate SameKey(row: Url, original: string, user: UserId) {
    row.original == original && row.user == user
  }

  ghost function Find(rows: Rows, original: string, user: UserId): (found: Option<Url>)
    ensures found.Some? ==> exists id :: id in rows && rows[id] == found.value && SameKey(rows[id], original, user)
    ensures found.None? ==> forall id :: id in rows ==> !SameKey(rows[id], original, user)
  {
    if exists id :: id in rows && SameKey(rows[id], original, user) then
      var id :| id in rows && SameKey(rows[id], original, user);
      Some(rows[id])
    else None
  }

  // ---------------------------------------------------------------- uncommitted rows

  predicate InTransaction(p: Progress) {
    p.Coding? || p.Committing?
  }

  predicate HoldsId(p: Progress) {
    p.Inserting? || InTransaction(p)
  }

  function HeldId(p: Progress): int
    requires HoldsId(p)
  {
    if p.Inserting? then p.id else p.row.id
  }

  /** Another transaction holds an uncommitted row with this key: the INSERT waits for it. */
  ghost predicate KeyLocked(db: Db, k: nat, original: string, user: UserId) {
    exists j :: j in db.calls && j != k && InTransaction(db.calls[j].progress)
                && SameKey(db.calls[j].progress.row, original, user)
  }

  /** Some other row, committed or not, already has the code. */
  ghost predicate CodeTaken(db: Db, k: nat, code: string) {
    || (exists id :: id in db.rows && db.rows[id].code == Some(code))
    || (exists j :: j in db.calls && j != k && InTransaction(db.calls[j].progress)
                    && db.calls[j].progress.row.code == Some(code))
  }

  // ---------------------------------------------------------------- steps

  datatype Step =
    | Begin(k: nat, request: Request)
    | Select(k: nat, now: Time)
    | Reactivate(k: nat)
    | Draw(k: nat)
    | Insert(k: nat)
    | SetCode(k: nat)
    | Commit(k: nat)
    | Abort(k: nat)
    | Forget(k: nat)
    | Delete(id: int, user: UserId)
    | Wipe(owner: UserId)
    | AddClicks(id: int, delta: nat)

  ghost predicate At(db: Db, k: nat, p: Progress -> bool) {
    k in db.calls && p(db.calls[k].progress)
  }

  ghost predicate Enabled(db: Db, step: Step) {
    match step
    case Begin(k, _) => k !in db.calls
    case Select(k, _) => At(db, k, (p: Progress) => p.Selecting?)
    case Reactivate(k) => At(db, k, (p: Progress) => p.Reactivating?)
    case Draw(k) => At(db, k, (p: Progress) => p.Drawing?)
    case Insert(k) =>
      At(db, k, (p: Progress) => p.Inserting?)
      && !KeyLocked(db, k, db.calls[k].request.original, db.calls[k].request.user)
    case SetCode(k) => At(db, k, (p: Progress) => p.Coding?)
    case Commit(k) => At(db, k, (p: Progress) => p.Committing?)
    case Abort(k) => At(db, k, (p: Progress) => !p.Returned?)
    case Forget(k) => At(db, k, (p: Progress) => p.Returned?)
    case Delete(id, user) => id in db.rows && db.rows[id].user == user
    case Wipe(_) => true
    case AddClicks(id, _) => id in db.rows
  }

  function Advance(db: Db, k: nat, p: Progress): Db
    requires k in db.calls
  {
    db.(calls := db.calls[k := db.calls[k].(progress := p)])
  }

  /** The SELECT: only a row with an expiry settles the call here, one without is left to the INSERT. */
  ghost function AfterSelect(rows: Rows, request: Request, now: Time): Progress
  {
    match Find(rows, request.original, request.user)
    case Some(row) =>
      if row.expires.Some? then
        if row.expires.value < now then Reactivating(row.id) else Returned(Refused)
      else Drawing
    case None => Drawing
  }

  ghost function Apply(db: Db, step: Step): Db
    requires Enabled(db, step)
  {
    match step
    case Begin(k, request) => db.(calls := db.calls[k := Call(request, Selecting)])
    case Select(k, now) => Advance(db, k, AfterSelect(db.rows, db.calls[k].request, now))
    case Reactivate(k) =>
      var id := db.calls[k].progress.id;
      if id in db.rows then
        var row := db.rows[id].(expires := db.calls[k].request.expires);
        Advance(db.(rows := db.rows[id := row]), k, Returned(Reactivated(row)))
      else Advance(db, k, Returned(Failed))
    case Draw(k) =>
      if db.nextId <= MAX_I64 then Advance(db.(nextId := db.nextId + 1), k, Inserting(db.nextId))
      else Advance(db, k, Returned(Failed))
    case Insert(k) =>
      var r := db.calls[k].request;
      if Find(db.rows, r.original, r.user).Some? then Advance(db, k, Returned(Refused))
      else Advance(db, k, Coding(Url(db.calls[k].progress.id, None, r.original, r.user, 0, r.expires)))
    case SetCode(k) =>
      var row := db.calls[k].progress.row;
      if !IsI64(row.id) || CodeTaken(db, k, CodeOf(row.id)) then Advance(db, k, Returned(Failed))
      else Advance(db, k, Committing(row.(code := Some(CodeOf(row.id)))))
    case Commit(k) =>
      var row := db.calls[k].progress.row;
      Advance(db.(rows := db.rows[row.id := row],
                  owners := db.owners[row.id := Owner(row.original, row.user)]), k, Returned(Created(row)))
    case Abort(k) => Advance(db, k, Returned(Failed))
    case Forget(k) => db.(calls := db.calls - {k})
    case Delete(id, _) => db.(rows := db.rows - {id})
    case Wipe(owner) => db.(rows := map id | id in db.rows && db.rows[id].user != owner :: db.rows[id])
    case AddClicks(id, delta) =>
      db.(rows := db.rows[id := db.rows[id].(clicks := db.rows[id].clicks + delta)])
  }

  ghost predicate Next(db: Db, db': Db) {
    exists step :: Enabled(db, step) && db' == Apply(db, step)
  }

  // ---------------------------------------------------------------- the invariant

  ghost predicate RowFits(db: Db, id: int) {
    && id in db.rows && id in db.owners && IsI64(id)
    && db.rows[id].id == id
    && db.rows[id].code == Some(CodeOf(id))
    && SameKey(db.rows[id], db.owners[id].original, db.owners[id].user)
  }

  ghost predicate CallFits(db: Db, k: nat) {
    k in db.calls &&
    var p, r := db.calls[k].progress, db.calls[k].request;
    && (HoldsId(p) ==> 1 <= HeldId(p) < db.nextId && IsI64(HeldId(p)) && HeldId(p) !in db.owners)
    && (InTransaction(p) ==> SameKey(p.row, r.original, r.user) && p.row.expires == r.expires && p.row.clicks == 0)
    && (p.Coding? ==> p.row.code == None)
    && (p.Committing? ==> p.row.code == Some(CodeOf(p.row.id)))
    && (p.Reactivating? ==> p.id in db.owners && db.owners[p.id] == Owner(r.original, r.user))
  }

  /** At most one committed row per key, and no uncommitted row beside it or beside another one. */
  ghost predicate KeysUnique(db: Db) {
    && (forall i, j :: i in db.rows && j in db.rows && i != j ==>
          !SameKey(db.rows[i], db.rows[j].original, db.rows[j].user))
    && (forall k, id :: k in db.calls && InTransaction(db.calls[k].progress) && id in db.rows ==>
          !SameKey(db.rows[id], db.calls[k].progress.row.original, db.calls[k].progress.row.user))
    && (forall j, k :: j in db.calls && k in db.calls && j != k
                       && InTransaction(db.calls[j].progress) && InTransaction(db.calls[k].progress) ==>
          !SameKey(db.calls[j].progress.row, db.calls[k].progress.row.original, db.calls[k].progress.row.user))
  }

  ghost predicate IdsUnique(db: Db) {
    forall j, k :: j in db.calls && k in db.calls && j != k
                   && HoldsId(db.calls[j].progress) && HoldsId(db.calls[k].progress) ==>
      HeldId(db.calls[j].progress) != HeldId(db.calls[k].progress)
  }

  ghost predicate Inv(db: Db) {
    && 1 <= db.nextId <= MAX_I64 + 1
    && (forall id :: id in db.owners ==> 1 <= id < db.nextId)
    && (forall id :: id in db.rows ==> RowFits(db, id))
    && (forall k :: k in db.calls ==> CallFits(db, k))
    && KeysUnique(db)
    && IdsUnique(db)
  }

  /** The code UPDATE inside a transaction never meets the uniqueness constraint. */
  lemma CodeNeverTaken(db: Db, k: nat)
    requires Inv(db) && k in db.calls && db.calls[k].progress.Coding?
    ensures IsI64(db.calls[k].progress.row.id) && !CodeTaken(db, k, CodeOf(db.calls[k].progress.row.id))
  {
    assert CallFits(db, k);
    var id := db.calls[k].progress.row.id;
    forall i | i in db.rows && db.rows[i].code == Some(CodeOf(id)) ensures false {
      assert RowFits(db, i);
      CodeOfInjective(i, id);
    }
    forall j | j in db.calls && j != k && InTransaction(db.calls[j].progress)
               && db.calls[j].progress.row.code == Some(CodeOf(id)) ensures false {
      assert CallFits(db, j);
      CodeOfInjective(db.calls[j].progress.row.id, id);
    }
  }

  // ---------------------------------------------------------------- preservation

  /** Moving one call along keeps everything said about the others. */
  lemma AdvanceKeepsInv(db: Db, k: nat, p: Progress)
    requires Inv(db) && k in db.calls
    requires CallFits(Advance(db, k, p), k)
    requires HoldsId(p) ==> HoldsId(db.calls[k].progress) && HeldId(p) == HeldId(db.calls[k].progress)
    requires InTransaction(p) && !InTransaction(db.calls[k].progress) ==>
               !KeyLocked(db, k, p.row.original, p.row.user)
               && Find(db.rows, p.row.original, p.row.user).None?
    ensures Inv(Advance(db, k, p))
  {
    var db' := Advance(db, k, p);
    forall j | j in db'.calls ensures CallFits(db', j) {
      assert CallFits(db, j);
    }
    forall id | id in db'.rows ensures RowFits(db', id) {
      assert RowFits(db, id);
    }
    assert CallFits(db, k);
  }

  lemma DrawKeepsInv(db: Db, k: nat)
    requires Inv(db) && Enabled(db, Draw(k)) && db.nextId <= MAX_I64
    ensures Inv(Apply(db, Draw(k)))
  {
    var db' := Apply(db, Draw(k));
    forall j | j in db'.calls ensures CallFits(db', j) {
      assert CallFits(db, j);
    }
    forall id | id in db'.rows ensures RowFits(db', id) {
      assert RowFits(db, id);
    }
  }

  lemma CommitKeepsInv(db: Db, k: nat)
    requires Inv(db) && Enabled(db, Commit(k))
    ensures Inv(Apply(db, Commit(k)))
  {
    var db' := Apply(db, Commit(k));
    assert CallFits(db, k);
    forall j | j in db'.calls ensures CallFits(db', j) {
      assert CallFits(db, j);
    }
    forall id | id in db'.rows ensures RowFits(db', id) {
      if id in db.rows {
        assert RowFits(db, id);
      }
    }
  }

  lemma ReactivateKeepsInv(db: Db, k: nat)
    requires Inv(db) && Enabled(db, Reactivate(k)) && db.calls[k].progress.id in db.rows
    ensures Inv(Apply(db, Reactivate(k)))
  {
    var db' := Apply(db, Reactivate(k));
    forall j | j in db'.calls ensures CallFits(db', j) {
      assert CallFits(db, j);
    }
    forall id | id in db'.rows ensures RowFits(db', id) {
      assert RowFits(db, id);
    }
  }

  /** Deleting rows, counting clicks: the rows that stay keep key and code. */
  lemma RowChangeKeepsInv(db: Db, rows: Rows)
    requires Inv(db) && rows.Keys <= db.rows.Keys
    requires forall id :: id in rows ==> rows[id] == db.rows[id].(clicks := rows[id].clicks)
    ensures Inv(db.(rows := rows))
  {
    var db' := db.(rows := rows);
    forall j | j in db'.calls ensures CallFits(db', j) {
      assert CallFits(db, j);
    }
    forall id | id in db'.rows ensures RowFits(db', id) {
      assert RowFits(db, id);
    }
  }

  lemma CallSetKeepsInv(db: Db, calls: map<nat, Call>)
    requires Inv(db)
    requires forall k :: k in calls ==> (k in db.calls && calls[k] == db.calls[k]) || calls[k].progress.Selecting?
    ensures Inv(db.(calls := calls))
  {
    var db' := db.(calls := calls);
    forall j | j in db'.calls ensures CallFits(db', j) {
      if !calls[j].progress.Selecting? {
        assert CallFits(db, j);
      }
    }
    forall id | id in db'.rows ensures RowFits(db', id) {
      assert RowFits(db, id);
    }
  }

  lemma SelectKeepsInv(db: Db, k: nat, now: Time)
    requires Inv(db) && Enabled(db, Select(k, now))
    ensures Inv(Apply(db, Select(k, now)))
  {
    var r := db.calls[k].request;
    var found := Find(db.rows, r.original, r.user);
    if found.Some? {
      var id :| id in db.rows && db.rows[id] == found.value && SameKey(db.rows[id], r.original, r.user);
      assert RowFits(db, id);
    }
    AdvanceKeepsInv(db, k, AfterSelect(db.rows, r, now));
  }

  lemma InsertKeepsInv(db: Db, k: nat)
    requires Inv(db) && Enabled(db, Insert(k))
    ensures Inv(Apply(db, Insert(k)))
  {
    assert CallFits(db, k);
    var r := db.calls[k].request;
    if Find(db.rows, r.original, r.user).Some? {
      AdvanceKeepsInv(db, k, Returned(Refused));
    } else {
      AdvanceKeepsInv(db, k, Coding(Url(db.calls[k].progress.id, None, r.original, r.user, 0, r.expires)));
    }
  }

  lemma SetCodeKeepsInv(db: Db, k: nat)
    requires Inv(db) && Enabled(db, SetCode(k))
    ensures Inv(Apply(db, SetCode(k)))
    ensures Apply(db, SetCode(k)).calls[k].progress.Committing?
  {
    assert CallFits(db, k);
    CodeNeverTaken(db, k);
    var row := db.calls[k].progress.row;
    AdvanceKeepsInv(db, k, Committing(row.(code := Some(CodeOf(row.id)))));
  }

  lemma StepKeepsInv(db: Db, step: Step)
    requires Inv(db) && Enabled(db, step)
    ensures Inv(Apply(db, step))
  {
    match step
    case Begin(k, request) => CallSetKeepsInv(db, db.calls[k := Call(request, Selecting)]);
    case Select(k, now) => SelectKeepsInv(db, k, now);
    case Reactivate(k) =>
      if db.calls[k].progress.id in db.rows {
        ReactivateKeepsInv(db, k);
      } else {
        AdvanceKeepsInv(db, k, Returned(Failed));
      }
    case Draw(k) =>
      if db.nextId <= MAX_I64 {
        DrawKeepsInv(db, k);
      } else {
        AdvanceKeepsInv(db, k, Returned(Failed));
      }
    case Insert(k) => InsertKeepsInv(db, k);
    case SetCode(k) => SetCodeKeepsInv(db, k);
    case Commit(k) => CommitKeepsInv(db, k);
    case Abort(k) => AdvanceKeepsInv(db, k, Returned(Failed));
    case Forget(k) => CallSetKeepsInv(db, db.calls - {k});
    case Delete(id, _) => RowChangeKeepsInv(db, db.rows - {id});
    case Wipe(owner) => RowChangeKeepsInv(db, Apply(db, step).rows);
    case AddClicks(id, delta) => RowChangeKeepsInv(db, Apply(db, step).rows);
  }

  // ---------------------------------------------------------------- runs

  ghost predicate LegalFrom(db: Db, steps: seq<Step>)
    decreases |steps|
  {
    steps == [] || (Enabled(db, steps[0]) && LegalFrom(Apply(db, steps[0]), steps[1..]))
  }

  ghost function After(db: Db, steps: seq<Step>): Db
    requires LegalFrom(db, steps)
    decreases |steps|
  {
    if steps == [] then db else After(Apply(db, steps[0]), steps[1..])
  }

  lemma InitiallyInv()
    ensures Inv(INITIAL)
  {
  }

  lemma {:induction false} Reachable(db: Db, steps: seq<Step>)
    requires Inv(db) && LegalFrom(db, steps)
    ensures Inv(After(db, steps))
    decreases |steps|
  {
    if steps != [] {
      StepKeepsInv(db, steps[0]);
      Reachable(Apply(db, steps[0]), steps[1..]);
    }
  }

  /** The schedule may be taken from the empty table, and leads here. */
  ghost predicate LeadsTo(steps: seq<Step>, db: Db) {
    LegalFrom(INITIAL, steps) && After(INITIAL, steps) == db
  }

  lemma {:induction false} ReachedKeepsInv(steps: seq<Step>, db: Db)
    requires LeadsTo(steps, db)
    ensures Inv(db)
  {
    InitiallyInv();
    Reachable(INITIAL, steps);
  }

  /**
   The table after any interleaving: one row per link and user, every committed row under the code of
   its own id, one row per code, and codes of one to eleven characters.
   */
  lemma {:induction false} TableIsSound(steps: seq<Step>, db: Db, i: int, j: int)
    requires LeadsTo(steps, db) && i in db.rows && j in db.rows
    ensures var rows := db.rows;
            && (SameKey(rows[i], rows[j].original, rows[j].user) <==> i == j)
            && (rows[i].code == rows[j].code <==> i == j)
            && 1 <= i <= MAX_I64 && rows[i].id == i && rows[i].code == Some(CodeOf(i))
            && 1 <= |rows[i].code.value| <= 11
  {
    ReachedKeepsInv(steps, db);
    assert RowFits(db, i) && RowFits(db, j);
    if db.rows[i].code == db.rows[j].code {
      CodeOfInjective(i, j);
    }
    ShortCodeLength(i);
  }

  /** No transaction ever fails on its code: setting it always succeeds. */
  lemma {:induction false} SettingCodeSucceeds(steps: seq<Step>, db: Db, k: nat)
    requires LeadsTo(steps, db) && Enabled(db, SetCode(k))
    ensures Apply(db, SetCode(k)).calls[k].progress.Committing?
  {
    ReachedKeepsInv(steps, db);
    SetCodeKeepsInv(db, k);
  }

  /** A committed id keeps its owner for ever, even when its row is deleted. */
  lemma OwnersAreForever(db: Db, step: Step)
    requires Inv(db) && Enabled(db, step)
    ensures forall id :: id in db.owners ==> id in Apply(db, step).owners && Apply(db, step).owners[id] == db.owners[id]
    ensures forall id :: id in Apply(db, step).rows && id !in db.rows ==> id !in db.owners
  {
    if step.Commit? {
      assert CallFits(db, step.k);
    }
  }

  /** What a committed id was created for never changes, and a deleted row does not come back. */
  lemma {:induction false} OwnersOverRun(db: Db, steps: seq<Step>, id: int)
    requires Inv(db) && LegalFrom(db, steps) && id in db.owners
    ensures id in After(db, steps).owners && After(db, steps).owners[id] == db.owners[id]
    ensures id !in db.rows ==> id !in After(db, steps).rows
    decreases |steps|
  {
    if steps != [] {
      OwnersAreForever(db, steps[0]);
      StepKeepsInv(db, steps[0]);
      OwnersOverRun(Apply(db, steps[0]), steps[1..], id);
    }
  }

  /** Ids and codes are not reused: once a row is gone, no later row has its id or its code. */
  lemma {:induction false} CodesAreNotReused(before: seq<Step>, db: Db, steps: seq<Step>, id: int, other: int)
    requires LeadsTo(before, db) && LegalFrom(db, steps)
    requires id in db.owners && id !in db.rows && IsI64(id)
    requires other in After(db, steps).rows
    ensures other != id && After(db, steps).rows[other].code != Some(CodeOf(id))
  {
    ReachedKeepsInv(before, db);
    OwnersOverRun(db, steps, id);
    Reachable(db, steps);
    assert RowFits(After(db, steps), other);
    if CodeOf(other) == CodeOf(id) {
      CodeOfInjective(other, id);
    }
  }

  // ---------------------------------------------------------------- a call on its own

  /** Rows, sequence and outcome after one call of add_shorten_url. */
  datatype Shortened = Shortened(rows: Rows, nextId: int, outcome: Outcome)

  /**
   What a call amounts to when nothing interferes. A link that exists without expiry is refused only
   by the INSERT, after an id has been drawn for it.
   */
  ghost function Shorten(rows: Rows, nextId: int, r: Request, now: Time): Shortened
    requires nextId <= MAX_I64 ==> IsI64(nextId)
  {
    var found := Find(rows, r.original, r.user);
    if found.Some? && found.value.expires.Some? then
      if found.value.expires.value < now then
        var row := found.value.(expires := r.expires);
        Shortened(rows[row.id := row], nextId, Reactivated(row))
      else Shortened(rows, nextId, Refused)
    else if nextId > MAX_I64 then Shortened(rows, nextId, Failed)
    else if found.Some? then Shortened(rows, nextId + 1, Refused)
    else
      var url := Url(nextId, Some(CodeOf(nextId)), r.original, r.user, 0, r.expires);
      Shortened(rows[nextId := url], nextId + 1, Created(url))
  }

  /** The steps the call takes from its SELECT on. */
  ghost function CallSteps(db: Db, k: nat, now: Time): seq<Step>
    requires k in db.calls
  {
    match AfterSelect(db.rows, db.calls[k].request, now)
    case Reactivating(_) => [Select(k, now), Reactivate(k)]
    case Drawing =>
      if db.nextId > MAX_I64 then [Select(k, now), Draw(k)]
      else if Find(db.rows, db.calls[k].request.original, db.calls[k].request.user).Some? then
        [Select(k, now), Draw(k), Insert(k)]
      else [Select(k, now), Draw(k), Insert(k), SetCode(k), Commit(k)]
    case _ => [Select(k, now)]
  }

  lemma AfterCons(db: Db, first: Step, rest: seq<Step>)
    requires Enabled(db, first) && LegalFrom(Apply(db, first), rest)
    ensures LegalFrom(db, [first] + rest) && After(db, [first] + rest) == After(Apply(db, first), rest)
  {
    assert ([first] + rest)[1..] == rest;
  }

  lemma AfterTwo(db: Db, first: Step, second: Step)
    requires Enabled(db, first) && Enabled(Apply(db, first), second)
    ensures LegalFrom(db, [first, second]) && After(db, [first, second]) == Apply(Apply(db, first), second)
  {
    var mid := Apply(db, first);
    AfterCons(mid, second, []);
    assert [second] + [] == [second] && [first] + [second] == [first, second];
    AfterCons(db, first, [second]);
  }

  /** Without a conflict, drawing and inserting leave an uncommitted row under the drawn id. */
  lemma InsertionOnItsOwn(db: Db, k: nat)
    requires k in db.calls && db.calls[k].progress.Drawing? && db.nextId <= MAX_I64
    requires forall j :: j in db.calls && j != k ==> !InTransaction(db.calls[j].progress)
    requires Find(db.rows, db.calls[k].request.original, db.calls[k].request.user).None?
    ensures Enabled(db, Draw(k)) && Enabled(Apply(db, Draw(k)), Insert(k))
    ensures var r := db.calls[k].request;
            Apply(Apply(db, Draw(k)), Insert(k))
            == Advance(Advance(db.(nextId := db.nextId + 1), k, Inserting(db.nextId)), k,
                       Coding(Url(db.nextId, None, r.original, r.user, 0, r.expires)))
  {
  }

  /** Setting the code and committing publish that row. */
  lemma CommitOnItsOwn(db: Db, k: nat)
    requires Inv(db) && k in db.calls && db.calls[k].progress.Coding?
    ensures var steps, row := [SetCode(k), Commit(k)], db.calls[k].progress.row;
            var url := row.(code := Some(CodeOf(row.id)));
            && LegalFrom(db, steps)
            && After(db, steps).rows == db.rows[url.id := url]
            && After(db, steps).nextId == db.nextId
            && k in After(db, steps).calls
            && After(db, steps).calls[k].progress == Returned(Created(url))
  {
    CodeNeverTaken(db, k);
    AfterTwo(db, SetCode(k), Commit(k));
  }

  /** A transaction that meets no conflict: draw, insert, set the code, commit. */
  lemma CreationOnItsOwn(db: Db, k: nat)
    requires Inv(db) && k in db.calls && db.calls[k].progress.Drawing? && db.nextId <= MAX_I64
    requires forall j :: j in db.calls && j != k ==> !InTransaction(db.calls[j].progress)
    requires Find(db.rows, db.calls[k].request.original, db.calls[k].request.user).None?
    ensures var steps := [Draw(k), Insert(k), SetCode(k), Commit(k)];
            var r, id := db.calls[k].request, db.nextId;
            var url := Url(id, Some(CodeOf(id)), r.original, r.user, 0, r.expires);
            && LegalFrom(db, steps)
            && After(db, steps).rows == db.rows[id := url]
            && After(db, steps).nextId == id + 1
            && k in After(db, steps).calls
            && After(db, steps).calls[k].progress == Returned(Created(url))
  {
    var last := [SetCode(k), Commit(k)];
    InsertionOnItsOwn(db, k);
    var d1 := Apply(db, Draw(k));
    var d2 := Apply(d1, Insert(k));
    assert Inv(d2) by {
      StepKeepsInv(db, Draw(k));
      StepKeepsInv(d1, Insert(k));
    }
    CommitOnItsOwn(d2, k);
    AfterCons(d1, Insert(k), last);
    AfterCons(db, Draw(k), [Insert(k)] + last);
    assert [Draw(k)] + ([Insert(k)] + last) == [Draw(k), Insert(k), SetCode(k), Commit(k)];
  }

  /** Run without interference, the statements of a call have the effect and outcome of Shorten. */
  lemma CallOnItsOwn(db: Db, k: nat, now: Time)
    requires Inv(db) && k in db.calls && db.calls[k].progress.Selecting?
    requires forall j :: j in db.calls && j != k ==> !InTransaction(db.calls[j].progress)
    ensures var steps := CallSteps(db, k, now);
            var done := Shorten(db.rows, db.nextId, db.calls[k].request, now);
            && LegalFrom(db, steps)
            && After(db, steps).rows == done.rows && After(db, steps).nextId == done.nextId
            && k in After(db, steps).calls
            && After(db, steps).calls[k].progress == Returned(done.outcome)
  {
    var r := db.calls[k].request;
    var found := Find(db.rows, r.original, r.user);
    var d1 := Apply(db, Select(k, now));
    SelectKeepsInv(db, k, now);
    if found.Some? {
      var id :| id in db.rows && db.rows[id] == found.value && SameKey(db.rows[id], r.original, r.user);
      assert RowFits(db, id);
    }
    var rest := CallSteps(db, k, now)[1..];
    assert CallSteps(db, k, now) == [Select(k, now)] + rest;
    if d1.calls[k].progress.Reactivating? {
      assert rest == [Reactivate(k)] + [];
      AfterCons(d1, Reactivate(k), []);
    } else if d1.calls[k].progress.Drawing? {
      if db.nextId > MAX_I64 {
        assert rest == [Draw(k)] + [];
        AfterCons(d1, Draw(k), []);
      } else if found.Some? {
        var d2 := Apply(d1, Draw(k));
        AfterCons(d2, Insert(k), []);
        assert [Insert(k)] + [] == [Insert(k)];
        AfterCons(d1, Draw(k), [Insert(k)]);
        assert rest == [Draw(k)] + [Insert(k)];
      } else {
        CreationOnItsOwn(d1, k);
        assert rest == [Draw(k), Insert(k), SetCode(k), Commit(k)];
      }
    }
    AfterCons(db, Select(k, now), rest);
  }
}
