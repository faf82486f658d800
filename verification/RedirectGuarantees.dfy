/**
 What the redirect path guarantees over every schedule: redirects go to the URL a code was created for,
 and are served only so long after the expiry of the link.
 */
module RedirectGuarantees {
  import opened Wrappers
  import opened Codec
  import opened RedirectCache
  import UrlTable

  // ---------------------------------------------------------------- coherence

  /** The link the code was created for, by the history of the table. */
  ghost predicate AssignedTo(db: UrlTable.Db, code: string, url: string) {
    exists id :: id in db.owners && IsI64(id) && CodeOf(id) == code && db.owners[id].original == url
  }

  lemma OneUrlPerCode(db: UrlTable.Db, code: string, u: string, v: string)
    requires AssignedTo(db, code, u) && AssignedTo(db, code, v)
    ensures u == v
  {
    var i :| i in db.owners && IsI64(i) && CodeOf(i) == code && db.owners[i].original == u;
    var j :| j in db.owners && IsI64(j) && CodeOf(j) == code && db.owners[j].original == v;
    CodeOfInjective(i, j);
  }

  ghost predicate TableFits(db: UrlTable.Db, rows: Rows) {
    forall id :: id in rows ==>
      id in db.owners && IsI64(id) && rows[id].code == Some(CodeOf(id)) && rows[id].original == db.owners[id].original
  }

  ghost predicate ValueFits(db: UrlTable.Db, code: string, value: Value) {
    value.Found? ==> AssignedTo(db, code, value.url)
  }

  ghost predicate TablesFit(s: World) {
    && UrlTable.Inv(s.db)
    && s.replica < |s.history| && s.history[|s.history| - 1] == s.db.rows
    && (forall i :: 0 <= i < |s.history| ==> TableFits(s.db, s.history[i]))
  }

  ghost predicate RedisFits(db: UrlTable.Db, redis: map<string, RedisEntry>) {
    forall code :: code in redis ==> AssignedTo(db, code, redis[code].url)
  }

  ghost predicate L1Fits(db: UrlTable.Db, l1: map<Slot, L1Entry>) {
    forall slot :: slot in l1 ==> ValueFits(db, slot.1, l1[slot].lookup.value)
  }

  ghost predicate LoadsFit(db: UrlTable.Db, loads: map<Slot, Load>) {
    forall slot :: slot in loads && loads[slot].Resolved? ==> ValueFits(db, slot.1, loads[slot].lookup.value)
  }

  ghost predicate WritesFit(db: UrlTable.Db, writes: multiset<Write>) {
    forall w :: w in writes ==> AssignedTo(db, w.code, w.url)
  }

  ghost predicate CachesFit(db: UrlTable.Db, s: World) {
    RedisFits(db, s.redis) && L1Fits(db, s.l1) && LoadsFit(db, s.loads) && WritesFit(db, s.writes)
  }

  /** Everything that could answer for a code names the URL it was created for. */
  ghost predicate Coherent(s: World) {
    TablesFit(s) && CachesFit(s.db, s)
  }

  lemma AssignmentsLast(db: UrlTable.Db, t: UrlTable.Step)
    requires UrlTable.Inv(db) && UrlTable.Enabled(db, t)
    ensures forall code, url :: AssignedTo(db, code, url) ==> AssignedTo(UrlTable.Apply(db, t), code, url)
    ensures forall rows: Rows :: TableFits(db, rows) ==> TableFits(UrlTable.Apply(db, t), rows)
  {
    var db' := UrlTable.Apply(db, t);
    UrlTable.OwnersAreForever(db, t);
    forall code, url | AssignedTo(db, code, url) ensures AssignedTo(db', code, url) {
      var id :| id in db.owners && IsI64(id) && CodeOf(id) == code && db.owners[id].original == url;
      assert id in db'.owners;
    }
  }

  lemma CommittedRowsFit(db: UrlTable.Db)
    requires UrlTable.Inv(db)
    ensures TableFits(db, db.rows)
  {
    forall id | id in db.rows
      ensures id in db.owners && IsI64(id) && db.rows[id].code == Some(CodeOf(id))
              && db.rows[id].original == db.owners[id].original
    {
      assert UrlTable.RowFits(db, id);
    }
  }

  lemma TableStepKeepsCoherent(s: World, t: UrlTable.Step)
    requires Coherent(s) && Enabled(s, TableStep(t))
    ensures Coherent(Apply(s, TableStep(t)))
  {
    UrlTable.StepKeepsInv(s.db, t);
    AssignmentsLast(s.db, t);
    CommittedRowsFit(UrlTable.Apply(s.db, t));
  }

  lemma RowIsAssigned(s: World, code: string)
    requires TablesFit(s) && RowFor(s.history[s.replica], code).Some?
    ensures AssignedTo(s.db, code, RowFor(s.history[s.replica], code).value.original)
  {
    var rows := s.history[s.replica];
    var id :| HasRow(rows, id, code) && rows[id] == RowFor(rows, code).value;
  }

  lemma TableAnswerKeepsCaches(s: World, slot: Slot, db: UrlTable.Db)
    requires CachesFit(db, s) && Enabled(s, TableAnswers(slot))
    requires var row := RowFor(s.history[s.replica], slot.1);
             row.Some? ==> AssignedTo(db, slot.1, row.value.original)
    ensures CachesFit(db, AfterTable(s, slot))
  {
  }

  lemma RedisAnswerKeepsCaches(s: World, slot: Slot, db: UrlTable.Db)
    requires CachesFit(db, s) && Enabled(s, RedisAnswers(slot))
    ensures CachesFit(db, AfterRedis(s, slot))
  {
  }

  lemma FinishKeepsCaches(s: World, slot: Slot, db: UrlTable.Db)
    requires CachesFit(db, s) && Enabled(s, FinishLoad(slot))
    ensures CachesFit(db, Apply(s, FinishLoad(slot)))
  {
  }

  lemma WriteKeepsCaches(s: World, w: Write, db: UrlTable.Db)
    requires CachesFit(db, s) && Enabled(s, RunWrite(w))
    ensures CachesFit(db, Apply(s, RunWrite(w)))
  {
    assert AssignedTo(db, w.code, w.url);
  }

  /** Steps that only pass time, start or abandon loads, or take entries away. */
  lemma QuietStepKeepsCaches(s: World, s': World, db: UrlTable.Db)
    requires CachesFit(db, s)
    requires forall code :: code in s'.redis ==> code in s.redis && s'.redis[code] == s.redis[code]
    requires forall slot :: slot in s'.l1 ==> slot in s.l1 && s'.l1[slot] == s.l1[slot]
    requires forall slot :: slot in s'.loads && s'.loads[slot].Resolved? ==> slot in s.loads && s'.loads[slot] == s.loads[slot]
    requires s'.writes <= s.writes
    ensures CachesFit(db, s')
  {
    forall w | w in s'.writes ensures AssignedTo(db, w.code, w.url) {
      assert w in s.writes;
    }
  }

  lemma CacheStepKeepsCaches(s: World, step: Step, db: UrlTable.Db)
    requires CachesFit(db, s) && Enabled(s, step) && !step.TableStep? && !step.TableAnswers?
    ensures CachesFit(db, Apply(s, step))
  {
    if step.RedisAnswers? {
      RedisAnswerKeepsCaches(s, step.slot, db);
    } else if step.FinishLoad? {
      FinishKeepsCaches(s, step.slot, db);
    } else if step.RunWrite? {
      WriteKeepsCaches(s, step.write, db);
    } else {
      QuietStepKeepsCaches(s, Apply(s, step), db);
    }
  }

  /** Only table steps touch the table; the replica moves along its history. */
  lemma CacheStepKeepsTables(s: World, step: Step)
    requires TablesFit(s) && Enabled(s, step) && !step.TableStep?
    ensures TablesFit(Apply(s, step)) && Apply(s, step).db == s.db
  {
    var s' := Apply(s, step);
    assert s'.db == s.db && s'.history == s.history && s'.replica < |s.history|;
  }

  lemma StepKeepsCoherent(s: World, step: Step)
    requires Coherent(s) && Enabled(s, step)
    ensures Coherent(Apply(s, step))
  {
    if step.TableStep? {
      TableStepKeepsCoherent(s, step.step);
    } else {
      CacheStepKeepsTables(s, step);
      if step.TableAnswers? {
        if RowFor(s.history[s.replica], step.slot.1).Some? {
          RowIsAssigned(s, step.slot.1);
        }
        TableAnswerKeepsCaches(s, step.slot, s.db);
      } else {
        CacheStepKeepsCaches(s, step, s.db);
      }
    }
  }

  // ---------------------------------------------------------------- expiry

  /** Some committed version of the row with this code had this expiry. */
  ghost predicate Held(history: seq<Rows>, code: string, expires: Option<Time>) {
    exists i, id :: 0 <= i < |history| && HasRow(history[i], id, code) && history[i][id].expires == expires
  }

  ghost predicate RedisTimely(history: seq<Rows>, redis: map<string, RedisEntry>) {
    forall code :: code in redis ==>
      && Held(history, code, redis[code].source)
      && (redis[code].source.Some? <==> redis[code].deadline.Some?)
      && (redis[code].source.Some? ==> redis[code].deadline.value < redis[code].source.value + SECOND)
  }

  /** A lookup that carries no expiry was read from Redis less than a second past its source. */
  ghost predicate LookupTimely(history: seq<Rows>, code: string, l: Lookup) {
    l.value.Found? ==>
      && Held(history, code, l.source)
      && (l.value.expires.Some? ==> l.source == l.value.expires)
      && (l.value.expires.None? && l.source.Some? ==> l.readAt < l.source.value + SECOND)
  }

  ghost predicate L1Timely(history: seq<Rows>, l1: map<Slot, L1Entry>, now: Time) {
    forall slot :: slot in l1 ==>
      LookupTimely(history, slot.1, l1[slot].lookup) && l1[slot].lookup.readAt <= l1[slot].insertedAt <= now
  }

  ghost predicate LoadsTimely(history: seq<Rows>, loads: map<Slot, Load>, now: Time) {
    forall slot :: slot in loads && loads[slot].Resolved? ==>
      LookupTimely(history, slot.1, loads[slot].lookup) && loads[slot].lookup.readAt <= now
  }

  ghost predicate WritesTimely(history: seq<Rows>, writes: multiset<Write>) {
    forall w :: w in writes ==> Held(history, w.code, w.expires)
  }

  ghost predicate Timely(s: World) {
    && RedisTimely(s.history, s.redis) && L1Timely(s.history, s.l1, s.now)
    && LoadsTimely(s.history, s.loads, s.now) && WritesTimely(s.history, s.writes)
  }

  /** Truncating both ends to whole seconds keeps a key less than one second past the expiry. */
  lemma TtlOvershoot(expires: Time, now: Time)
    ensures expires - SECOND < now + TtlSeconds(expires, now) * SECOND < expires + SECOND
  {
  }

  lemma HeldLonger(history: seq<Rows>, rows: Rows)
    ensures forall code, e :: Held(history, code, e) ==> Held(history + [rows], code, e)
  {
    forall code, e | Held(history, code, e) ensures Held(history + [rows], code, e) {
      var i, id :| 0 <= i < |history| && HasRow(history[i], id, code) && history[i][id].expires == e;
      assert (history + [rows])[i] == history[i];
    }
  }

  lemma WriteKeepsTimely(s: World, w: Write)
    requires Timely(s) && Enabled(s, RunWrite(w))
    ensures Timely(Apply(s, RunWrite(w)))
  {
    if w.expires.Some? {
      TtlOvershoot(w.expires.value, s.now);
    }
    assert RedisTimely(s.history, AfterWrite(s.redis, w, s.now));
  }

  lemma TableAnswerKeepsTimely(s: World, slot: Slot)
    requires Timely(s) && Enabled(s, TableAnswers(slot))
    ensures Timely(AfterTable(s, slot))
  {
    var row := RowFor(s.history[s.replica], slot.1);
    if row.Some? {
      var id :| HasRow(s.history[s.replica], id, slot.1) && s.history[s.replica][id] == row.value;
      assert Held(s.history, slot.1, row.value.expires);
    }
  }

  lemma RedisAnswerKeepsTimely(s: World, slot: Slot)
    requires Timely(s) && Enabled(s, RedisAnswers(slot))
    ensures Timely(AfterRedis(s, slot))
  {
  }

  lemma TableStepKeepsTimely(s: World, t: UrlTable.Step)
    requires Timely(s) && Enabled(s, TableStep(t))
    ensures Timely(Apply(s, TableStep(t)))
  {
    HeldLonger(s.history, UrlTable.Apply(s.db, t).rows);
  }

  lemma StepKeepsTimely(s: World, step: Step)
    requires Timely(s) && Enabled(s, step)
    ensures Timely(Apply(s, step))
  {
    match step
    case TableStep(t) => TableStepKeepsTimely(s, t);
    case TableAnswers(slot) => TableAnswerKeepsTimely(s, slot);
    case RedisAnswers(slot) => RedisAnswerKeepsTimely(s, slot);
    case RunWrite(w) => WriteKeepsTimely(s, w);
    case _ =>
  }

  // ---------------------------------------------------------------- runs

  ghost predicate Inv(s: World) {
    Coherent(s) && Timely(s)
  }

  lemma InitiallyInv()
    ensures Inv(INITIAL)
  {
  }

  lemma {:induction false} Reachable(s: World, steps: seq<Step>)
    requires Inv(s) && LegalFrom(s, steps)
    ensures Inv(After(s, steps))
    decreases |steps|
  {
    if steps != [] {
      StepKeepsCoherent(s, steps[0]);
      StepKeepsTimely(s, steps[0]);
      Reachable(Apply(s, steps[0]), steps[1..]);
    }
  }

  /**
   Coherence. After any schedule from the empty system, a redirect served for a code by any pod goes to
   the one URL the code was created for.
   */
  lemma RedirectsGoToTheAssignedUrl(steps: seq<Step>, slot: Slot, url: string)
    requires LegalFrom(INITIAL, steps) && Answers(After(INITIAL, steps), slot, RedirectTo(url))
    ensures AssignedTo(After(INITIAL, steps).db, slot.1, url)
    ensures forall other :: AssignedTo(After(INITIAL, steps).db, slot.1, other) ==> other == url
  {
    InitiallyInv();
    Reachable(INITIAL, steps);
    forall other | AssignedTo(After(INITIAL, steps).db, slot.1, other) ensures other == url {
      OneUrlPerCode(After(INITIAL, steps).db, slot.1, url, other);
    }
  }

  /**
   Bounded staleness. A redirect stems from a version of the row; if that had an expiry e, one loaded
   from the table is not served after e, and one that came through Redis is served before e plus one
   second of truncation, three seconds in the pod, and the time the pod took to store the answer.
   */
  lemma RedirectsExpire(steps: seq<Step>, slot: Slot, url: string)
    requires LegalFrom(INITIAL, steps) && Answers(After(INITIAL, steps), slot, RedirectTo(url))
    ensures var s := After(INITIAL, steps);
            var entry := s.l1[slot];
            var source := entry.lookup.source;
            && Held(s.history, slot.1, source)
            && (source.Some? ==>
                  if entry.lookup.value.expires.Some? then s.now <= source.value
                  else s.now < source.value + SECOND + L1_TTL + (entry.insertedAt - entry.lookup.readAt))
  {
    InitiallyInv();
    Reachable(INITIAL, steps);
  }
}
