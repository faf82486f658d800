/**
 The handlers of one pod, updating its cache and Redis in place. A request that is not interleaved with
 others goes through a schedule of the redirect protocol, and answers what that schedule leads to.
 */
module RedirectHandler {
  import opened Wrappers
  import opened Codec
  import opened RedirectCache
  import opened RedirectGuarantees
  import opened DeletionBound
  import UrlTable

  datatype Status = TemporaryRedirect(url: string) | Gone410 | NotFound404 | Unavailable503

  /** What the repository answers from the replica. */
  datatype Reply = Row(original: string, expires: Option<Time>) | NoRow | Unreachable

  ghost predicate CodesUnique(rows: Rows) {
    forall i, j :: i in rows && j in rows && rows[i].code.Some? && rows[i].code == rows[j].code ==> i == j
  }

  lemma RowIsFound(rows: Rows, id: int, code: string)
    requires CodesUnique(rows) && HasRow(rows, id, code)
    ensures RowFor(rows, code) == Some(rows[id])
  {
    var found := RowFor(rows, code);
    assert found.Some?;
    var other :| HasRow(rows, other, code) && rows[other] == found.value;
  }

  // ---------------------------------------------------------------- a request as a schedule

  /** From the request to the entry it is answered from, if it gets one. */
  ghost function LookupSteps(s: World, slot: Slot, redisUp: bool, tableUp: bool): seq<Step> {
    if LiveInL1(s.l1, slot, s.now) then []
    else if redisUp && LiveInRedis(s.redis, slot.1, s.now) then
      [StartLoad(slot), RedisAnswers(slot), FinishLoad(slot)]
    else
      [StartLoad(slot), if redisUp then RedisAnswers(slot) else RedisFails(slot)]
      + if tableUp then [TableAnswers(slot), FinishLoad(slot)] else [TableFails(slot)]
  }

  /** The world after the lookup: the entry stored, and the background write spawned. */
  ghost function AfterLookup(s: World, slot: Slot, redisUp: bool, tableUp: bool): World
    requires slot !in s.loads && s.replica < |s.history|
  {
    if LiveInL1(s.l1, slot, s.now) then s
    else if redisUp && LiveInRedis(s.redis, slot.1, s.now) then
      var entry := s.redis[slot.1];
      s.(l1 := s.l1[slot := L1Entry(Lookup(Found(entry.url, None), entry.source, s.now), s.now)])
    else if !tableUp then s
    else
      match RowFor(s.history[s.replica], slot.1)
      case Some(row) =>
        s.(l1 := s.l1[slot := L1Entry(Lookup(Found(row.original, row.expires), row.expires, s.now), s.now)],
           writes := s.writes + multiset{Write(slot.1, row.original, row.expires)})
      case None => s.(l1 := s.l1[slot := L1Entry(Lookup(Missing, None, s.now), s.now)])
  }

  lemma Cons(s: World, first: Step, rest: seq<Step>)
    requires Enabled(s, first) && LegalFrom(Apply(s, first), rest)
    ensures LegalFrom(s, [first] + rest) && After(s, [first] + rest) == After(Apply(s, first), rest)
  {
    assert ([first] + rest)[1..] == rest;
  }

  lemma One(s: World, step: Step)
    requires Enabled(s, step)
    ensures LegalFrom(s, [step]) && After(s, [step]) == Apply(s, step)
  {
    Cons(s, step, []);
    assert [step] + [] == [step];
  }

  lemma Two(s: World, first: Step, second: Step)
    requires Enabled(s, first) && Enabled(Apply(s, first), second)
    ensures LegalFrom(s, [first, second]) && After(s, [first, second]) == Apply(Apply(s, first), second)
  {
    One(Apply(s, first), second);
    Cons(s, first, [second]);
    assert [first] + [second] == [first, second];
  }

  lemma {:induction false} Both(s: World, front: seq<Step>, rest: seq<Step>)
    requires LegalFrom(s, front) && LegalFrom(After(s, front), rest)
    ensures LegalFrom(s, front + rest) && After(s, front + rest) == After(After(s, front), rest)
    decreases |front|
  {
    if front == [] {
      assert front + rest == rest;
    } else {
      Both(Apply(s, front[0]), front[1..], rest);
      assert (front + rest)[1..] == front[1..] + rest && (front + rest)[0] == front[0];
    }
  }

  lemma Append(s: World, front: seq<Step>, last: Step)
    requires LegalFrom(s, front) && Enabled(After(s, front), last)
    ensures LegalFrom(s, front + [last]) && After(s, front + [last]) == Apply(After(s, front), last)
  {
    One(After(s, front), last);
    Both(s, front, [last]);
  }

  /** Asking the table: the row cached and its write spawned, the miss cached, or the load given up. */
  lemma AskingTheTable(s: World, slot: Slot, tableUp: bool)
    requires slot in s.loads && s.loads[slot] == AskingTable && s.replica < |s.history|
    requires !LiveInL1(s.l1, slot, s.now)
    ensures var steps := if tableUp then [TableAnswers(slot), FinishLoad(slot)] else [TableFails(slot)];
            LegalFrom(s, steps)
            && After(s, steps) == AfterLookup(s.(loads := s.loads - {slot}), slot, false, tableUp)
  {
    if tableUp {
      Two(s, TableAnswers(slot), FinishLoad(slot));
      assert s.loads[slot := Resolved(Apply(s, TableAnswers(slot)).loads[slot].lookup)] - {slot} == s.loads - {slot};
    } else {
      One(s, TableFails(slot));
    }
  }

  lemma RedisHitIsASchedule(s: World, slot: Slot)
    requires slot !in s.loads && !LiveInL1(s.l1, slot, s.now) && LiveInRedis(s.redis, slot.1, s.now)
    ensures var steps, entry := [StartLoad(slot), RedisAnswers(slot), FinishLoad(slot)], s.redis[slot.1];
            LegalFrom(s, steps)
            && After(s, steps)
               == s.(l1 := s.l1[slot := L1Entry(Lookup(Found(entry.url, None), entry.source, s.now), s.now)])
  {
    var s1 := Apply(s, StartLoad(slot));
    Two(s1, RedisAnswers(slot), FinishLoad(slot));
    Cons(s, StartLoad(slot), [RedisAnswers(slot), FinishLoad(slot)]);
    assert [StartLoad(slot)] + [RedisAnswers(slot), FinishLoad(slot)] == [StartLoad(slot), RedisAnswers(slot), FinishLoad(slot)];
    assert Apply(s1, RedisAnswers(slot)).loads - {slot} == s.loads;
  }

  lemma RedisMissIsASchedule(s: World, slot: Slot, redisUp: bool, tableUp: bool)
    requires slot !in s.loads && s.replica < |s.history|
    requires !LiveInL1(s.l1, slot, s.now) && !(redisUp && LiveInRedis(s.redis, slot.1, s.now))
    ensures LegalFrom(s, LookupSteps(s, slot, redisUp, tableUp))
    ensures After(s, LookupSteps(s, slot, redisUp, tableUp)) == AfterLookup(s, slot, false, tableUp)
  {
    var miss := if redisUp then RedisAnswers(slot) else RedisFails(slot);
    var rest := if tableUp then [TableAnswers(slot), FinishLoad(slot)] else [TableFails(slot)];
    var s1 := Apply(s, StartLoad(slot));
    var s2 := Apply(s1, miss);
    assert s2 == s.(loads := s.loads[slot := AskingTable]) && s2.loads - {slot} == s.loads;
    AskingTheTable(s2, slot, tableUp);
    Cons(s1, miss, rest);
    Cons(s, StartLoad(slot), [miss] + rest);
    assert [StartLoad(slot)] + ([miss] + rest) == LookupSteps(s, slot, redisUp, tableUp);
  }

  /** A request on its own is a legal schedule, and this is where it leads. */
  lemma LookupIsASchedule(s: World, slot: Slot, redisUp: bool, tableUp: bool)
    requires slot !in s.loads && s.replica < |s.history|
    ensures LegalFrom(s, LookupSteps(s, slot, redisUp, tableUp))
    ensures After(s, LookupSteps(s, slot, redisUp, tableUp)) == AfterLookup(s, slot, redisUp, tableUp)
  {
    if !LiveInL1(s.l1, slot, s.now) {
      if redisUp && LiveInRedis(s.redis, slot.1, s.now) {
        RedisHitIsASchedule(s, slot);
      } else {
        RedisMissIsASchedule(s, slot, redisUp, tableUp);
      }
    }
  }

  /** The status for the entry the lookup left; without one the table could not be asked. */
  ghost function StatusOf(s: World, slot: Slot): Status {
    if !LiveInL1(s.l1, slot, s.now) then Unavailable503
    else
      match Answer(s.l1[slot].lookup.value, s.now)
      case RedirectTo(url) => TemporaryRedirect(url)
      case Gone => Gone410
      case NotFound => NotFound404
  }

  /** A request on its own; an answer of 410 also drops the entry. */
  ghost function RequestSteps(s: World, slot: Slot, redisUp: bool, tableUp: bool): seq<Step>
    requires slot !in s.loads && s.replica < |s.history|
  {
    LookupSteps(s, slot, redisUp, tableUp)
    + if StatusOf(AfterLookup(s, slot, redisUp, tableUp), slot).Gone410? then [EvictL1(slot)] else []
  }

  ghost function AfterRequest(s: World, slot: Slot, redisUp: bool, tableUp: bool): World
    requires slot !in s.loads && s.replica < |s.history|
  {
    var s1 := AfterLookup(s, slot, redisUp, tableUp);
    if StatusOf(s1, slot).Gone410? then s1.(l1 := s1.l1 - {slot}) else s1
  }

  lemma RequestIsASchedule(s: World, slot: Slot, redisUp: bool, tableUp: bool)
    requires slot !in s.loads && s.replica < |s.history|
    ensures LegalFrom(s, RequestSteps(s, slot, redisUp, tableUp))
    ensures After(s, RequestSteps(s, slot, redisUp, tableUp)) == AfterRequest(s, slot, redisUp, tableUp)
  {
    LookupIsASchedule(s, slot, redisUp, tableUp);
    var steps := LookupSteps(s, slot, redisUp, tableUp);
    if StatusOf(AfterLookup(s, slot, redisUp, tableUp), slot).Gone410? {
      Append(s, steps, EvictL1(slot));
    } else {
      assert steps + [] == steps;
    }
  }

  // ---------------------------------------------------------------- what a request is answered

  /**
   On a pod and a Redis that hold nothing of the code, with the replica up to date, the answer is that of
   the table: the link's URL until its expiry, 410 after it, 404 for no such code.
   */
  lemma ColdRequestReadsTheTable(s: World, slot: Slot, redisUp: bool)
    requires Inv(s) && slot !in s.loads && s.replica == |s.history| - 1
    requires !LiveInL1(s.l1, slot, s.now) && !LiveInRedis(s.redis, slot.1, s.now)
    ensures var status, rows := StatusOf(AfterLookup(s, slot, redisUp, true), slot), s.db.rows;
            && (forall id :: HasRow(rows, id, slot.1) ==>
                  status == if rows[id].expires.Some? && rows[id].expires.value < s.now then Gone410
                            else TemporaryRedirect(rows[id].original))
            && (status == NotFound404 <==> forall id :: !HasRow(rows, id, slot.1))
  {
    var rows := s.db.rows;
    assert s.history[s.replica] == rows;
    CommittedCodesUnique(s.db);
    forall id | HasRow(rows, id, slot.1) ensures RowFor(rows, slot.1) == Some(rows[id]) {
      RowIsFound(rows, id, slot.1);
    }
    ColdStatus(s, slot, redisUp);
  }

  lemma ColdStatus(s: World, slot: Slot, redisUp: bool)
    requires slot !in s.loads && s.replica < |s.history|
    requires !LiveInL1(s.l1, slot, s.now) && !LiveInRedis(s.redis, slot.1, s.now)
    ensures var row := RowFor(s.history[s.replica], slot.1);
            StatusOf(AfterLookup(s, slot, redisUp, true), slot)
            == if row.None? then NotFound404
               else if row.value.expires.Some? && row.value.expires.value < s.now then Gone410
               else TemporaryRedirect(row.value.original)
  {
  }

  lemma CommittedCodesUnique(db: UrlTable.Db)
    requires UrlTable.Inv(db)
    ensures CodesUnique(db.rows)
  {
    var rows := db.rows;
    forall i, j | i in rows && j in rows && rows[i].code.Some? && rows[i].code == rows[j].code ensures i == j {
      assert UrlTable.RowFits(db, i) && UrlTable.RowFits(db, j);
      CodeOfInjective(i, j);
    }
  }

  /** A pod without the replica answers 503 exactly for the codes neither its cache nor Redis holds. */
  lemma OutageHitsColdCodesOnly(s: World, slot: Slot, redisUp: bool)
    requires slot !in s.loads && s.replica < |s.history|
    ensures StatusOf(AfterLookup(s, slot, redisUp, false), slot).Unavailable503?
            <==> !LiveInL1(s.l1, slot, s.now) && !(redisUp && LiveInRedis(s.redis, slot.1, s.now))
  {
  }

  // ---------------------------------------------------------------- a deletion as a schedule

  ghost function DeletionSteps(s: World, id: int, user: UrlTable.UserId, redisUp: bool): seq<Step> {
    if id in s.db.rows && s.db.rows[id].user == user && s.db.rows[id].code.Some? then
      [TableStep(UrlTable.Delete(id, user))] + if redisUp then [EvictRedis(s.db.rows[id].code.value)] else []
    else []
  }

  /** The row gone from the table, its code from Redis if that could be reached, and nothing else. */
  ghost function AfterDeletion(s: World, id: int, code: string, redisUp: bool): World {
    var rows := s.db.rows - {id};
    s.(db := s.db.(rows := rows), history := s.history + [rows],
       redis := if redisUp then s.redis - {code} else s.redis)
  }

  lemma DeletionIsASchedule(s: World, id: int, user: UrlTable.UserId, redisUp: bool)
    requires id in s.db.rows && s.db.rows[id].user == user && s.db.rows[id].code.Some?
    ensures var steps := DeletionSteps(s, id, user, redisUp);
            LegalFrom(s, steps) && After(s, steps) == AfterDeletion(s, id, s.db.rows[id].code.value, redisUp)
  {
    var delete := TableStep(UrlTable.Delete(id, user));
    if redisUp {
      Two(s, delete, EvictRedis(s.db.rows[id].code.value));
      assert DeletionSteps(s, id, user, redisUp) == [delete, EvictRedis(s.db.rows[id].code.value)];
    } else {
      One(s, delete);
      assert DeletionSteps(s, id, user, redisUp) == [delete];
    }
  }

  ghost function CaughtUp(s: World): World {
    if s.history == [] then s else s.(replica := |s.history| - 1)
  }

  /**
   What the delete handler achieves: once the replica has followed, the deletion is final if and only if
   Redis does not hold the link (its DEL has seen to that if it succeeded), no background write is
   pending that would bring it back, and no load has already resolved to it.
   */
  lemma HandledDeletionIsQuiet(s: World, id: int, redisUp: bool)
    requires Inv(s) && id in s.db.rows && IsI64(id)
    ensures Quiet(CaughtUp(AfterDeletion(s, id, CodeOf(id), redisUp)), id)
            <==> (redisUp || !LiveInRedis(s.redis, CodeOf(id), s.now))
                 && NoWriteLeft(s, CodeOf(id)) && NoLoadResolved(s, CodeOf(id))
  {
    assert UrlTable.RowFits(s.db, id);
    var s1 := CaughtUp(AfterDeletion(s, id, CodeOf(id), redisUp));
    assert s1.history[s1.replica] == s.db.rows - {id};
    QuietOnceCaughtUp(s, s1, id);
  }

  lemma QuietOnceCaughtUp(s: World, s1: World, id: int)
    requires Deleted(s1, id) && s1.replica == |s1.history| - 1 && id !in s1.history[s1.replica]
    requires s1.now == s.now && s1.writes == s.writes && s1.loads == s.loads
    ensures Quiet(s1, id) <==>
            !LiveInRedis(s1.redis, CodeOf(id), s.now) && NoWriteLeft(s, CodeOf(id)) && NoLoadResolved(s, CodeOf(id))
  {
    assert ReplicaCaughtUp(s1, id);
  }

  /**
   So that is when it is final: with a pod that has nothing of the code, some schedule answers with
   anything but 404 three seconds later or more if and only if one of these is left.
   */
  lemma HandledDeletionIsFinal(s: World, id: int, redisUp: bool, pod: nat)
    requires Inv(s) && id in s.db.rows && IsI64(id) && Idle(s, (pod, CodeOf(id)))
    ensures Resurfaces(CaughtUp(AfterDeletion(s, id, CodeOf(id), redisUp)), CodeOf(id), s.now + L1_TTL)
            <==> (!redisUp && LiveInRedis(s.redis, CodeOf(id), s.now))
                 || !NoWriteLeft(s, CodeOf(id)) || !NoLoadResolved(s, CodeOf(id))
  {
    assert UrlTable.RowFits(s.db, id);
    var user := s.db.rows[id].user;
    var s1 := AfterDeletion(s, id, CodeOf(id), redisUp);
    DeletionIsASchedule(s, id, user, redisUp);
    Reachable(s, DeletionSteps(s, id, user, redisUp));
    One(s1, Replicate(|s1.history| - 1));
    Reachable(s1, [Replicate(|s1.history| - 1)]);
    assert CaughtUp(s1) == Apply(s1, Replicate(|s1.history| - 1));
    HandledDeletionIsQuiet(s, id, redisUp);
    DeletionIsFinalExactlyWhenQuiet(CaughtUp(s1), id, pod);
  }

  /**
   Any request for the code three seconds after a quiet deletion or later, on any pod: 404, or 503 if the
   table cannot be asked and the pod holds no answer.
   */
  lemma {:induction false} RequestsAfterQuietDeletion(s: World, steps: seq<Step>, id: int, slot: Slot, redisUp: bool, tableUp: bool)
    requires Inv(s) && Quiet(s, id) && LegalFrom(s, steps) && slot.1 == CodeOf(id)
    requires After(s, steps).now >= s.now + L1_TTL && slot !in After(s, steps).loads
    ensures var s' := After(s, steps);
            s'.replica < |s'.history|
            && StatusOf(AfterLookup(s', slot, redisUp, tableUp), slot)
               == if tableUp || LiveInL1(s'.l1, slot, s'.now) then NotFound404 else Unavailable503
  {
    var s' := After(s, steps);
    QuietOverRun(s, steps, id, s.now);
    Reachable(s, steps);
    QuietRequest(s', id, slot, redisUp, tableUp, s.now);
  }

  lemma QuietRequest(s: World, id: int, slot: Slot, redisUp: bool, tableUp: bool, d: Time)
    requires TablesFit(s) && Quiet(s, id) && HeldSince(s, CodeOf(id), d) && s.now >= d + L1_TTL
    requires slot.1 == CodeOf(id) && slot !in s.loads
    ensures StatusOf(AfterLookup(s, slot, redisUp, tableUp), slot)
            == if tableUp || LiveInL1(s.l1, slot, s.now) then NotFound404 else Unavailable503
  {
    NoRowForDeleted(s, id, s.replica);
    if !tableUp {
      OutageHitsColdCodesOnly(s, slot, redisUp);
    }
  }

  // ---------------------------------------------------------------- the handlers

  datatype DeleteStatus = NoContent204 | DeletedNotFound404 | DeletionFailed500

  /** One pod, with the Redis it shares with the others. */
  class Pod {
    const name: nat
    var l1: map<string, L1Entry>
    var redis: map<string, RedisEntry>
    /** Background tasks: Redis writes and click events. */
    var writes: multiset<Write>
    var clicks: multiset<string>

    /** The pod's state is its share of the world. */
    ghost predicate Mirrors(s: World)
      reads this
    {
      && redis == s.redis && writes == s.writes
      && (forall code :: code in l1 <==> (name, code) in s.l1)
      && (forall code :: code in l1 ==> l1[code] == s.l1[(name, code)])
    }

    constructor (name: nat)
      ensures this.name == name && Mirrors(INITIAL) && clicks == multiset{}
    {
      this.name := name;
      l1, redis, writes, clicks := map[], map[], multiset{}, multiset{};
    }

    ghost predicate Replies(s: World, code: string, reply: Reply)
      requires s.replica < |s.history|
    {
      var row := RowFor(s.history[s.replica], code);
      reply.Unreachable? || reply == if row.Some? then Row(row.value.original, row.value.expires) else NoRow
    }

    /** Ask Redis, then the replica; a row found there is also sent to Redis in the background. */
    method Load(code: string, now: Time, redisUp: bool, reply: Reply) returns (loaded: Option<Lookup>)
      modifies this`writes
      ensures if redisUp && LiveInRedis(redis, code, now) then
                loaded == Some(Lookup(Found(redis[code].url, None), redis[code].source, now))
                && writes == old(writes)
              else if reply.Row? then
                loaded == Some(Lookup(Found(reply.original, reply.expires), reply.expires, now))
                && writes == old(writes) + multiset{Write(code, reply.original, reply.expires)}
              else writes == old(writes) && loaded == if reply.NoRow? then Some(Lookup(Missing, None, now)) else None
    {
      if redisUp && LiveInRedis(redis, code, now) {
        return Some(Lookup(Found(redis[code].url, None), redis[code].source, now));
      }
      if reply.Unreachable? {
        return None;
      }
      if reply.NoRow? {
        return Some(Lookup(Missing, None, now));
      }
      writes := writes + multiset{Write(code, reply.original, reply.expires)};
      return Some(Lookup(Found(reply.original, reply.expires), reply.expires, now));
    }

    /** A live entry of the pod's cache, or a load stored in it. */
    method TryGetWith(code: string, now: Time, redisUp: bool, reply: Reply, ghost s: World)
      returns (got: Option<Lookup>)
      requires Mirrors(s) && now == s.now && s.replica < |s.history| && (name, code) !in s.loads
      requires Replies(s, code, reply)
      modifies this`l1, this`writes
      ensures var s1 := AfterLookup(s, (name, code), redisUp, !reply.Unreachable?);
              && Mirrors(s1)
              && (got.Some? <==> LiveInL1(s1.l1, (name, code), now))
              && (got.Some? ==> s1.l1[(name, code)].lookup == got.value)
    {
      if code in l1 && now < l1[code].insertedAt + L1_TTL {
        return Some(l1[code].lookup);
      }
      got := Load(code, now, redisUp, reply);
      if got.Some? {
        l1 := l1[code := L1Entry(got.value, now)];
      }
    }

    /**
     Answer from the pod's cache, filling it from Redis or the replica; an expired link is dropped and
     gone, and every redirect publishes one click. RequestIsASchedule says that the new state is one the
     protocol leads to.
     */
    method GetOriginalUrl(code: string, now: Time, redisUp: bool, reply: Reply, ghost s: World)
      returns (status: Status)
      requires Mirrors(s) && now == s.now && s.replica < |s.history| && (name, code) !in s.loads
      requires Replies(s, code, reply)
      modifies this
      ensures var slot, tableUp := (name, code), !reply.Unreachable?;
              && Mirrors(AfterRequest(s, slot, redisUp, tableUp))
              && status == StatusOf(AfterLookup(s, slot, redisUp, tableUp), slot)
      ensures clicks == if status.TemporaryRedirect? then old(clicks) + multiset{code} else old(clicks)
    {
      var got := TryGetWith(code, now, redisUp, reply, s);
      ghost var s1 := AfterLookup(s, (name, code), redisUp, !reply.Unreachable?);
      assert s1.now == now && Mirrors(s1);
      if got.None? {
        return Unavailable503;
      }
      var value := got.value.value;
      if value.Missing? {
        return NotFound404;
      }
      if value.expires.Some? && value.expires.value < now {
        l1 := l1 - {code};
        return Gone410;
      }
      clicks := clicks + multiset{code};
      return TemporaryRedirect(value.url);
    }

    /** Evict Redis for a deleted link; the pod's own cache is left as it is. */
    method DeleteUrl(deletion: Option<Option<string>>, redisUp: bool,
                     id: int, user: UrlTable.UserId, ghost s: World)
      returns (status: DeleteStatus)
      requires Mirrors(s) && Inv(s)
      requires deletion.Some? ==>
                 deletion.value == if id in s.db.rows && s.db.rows[id].user == user then s.db.rows[id].code else None
      modifies this`redis
      ensures deletion.None? ==> status.DeletionFailed500? && Mirrors(s)
      ensures deletion.Some? ==>
                && LegalFrom(s, DeletionSteps(s, id, user, redisUp))
                && Mirrors(After(s, DeletionSteps(s, id, user, redisUp)))
                && status == if id in s.db.rows && s.db.rows[id].user == user then NoContent204 else DeletedNotFound404
    {
      if deletion.None? {
        return DeletionFailed500;
      }
      ghost var known := id in s.db.rows && s.db.rows[id].user == user;
      if known {
        assert UrlTable.RowFits(s.db, id);
        DeletionIsASchedule(s, id, user, redisUp);
      }
      if deletion.value.None? {
        return DeletedNotFound404;
      }
      if redisUp {
        redis := redis - {deletion.value.value};
      }
      return NoContent204;
    }
  }

  /** Whatever a request of a reachable world is redirected to is what the code was created for. */
  lemma LookupFindsAssigned(s: World, slot: Slot, redisUp: bool, tableUp: bool)
    requires slot !in s.loads && s.replica < |s.history|
    ensures var status := StatusOf(AfterLookup(s, slot, redisUp, tableUp), slot);
            Inv(s) && status.TemporaryRedirect? ==> AssignedTo(s.db, slot.1, status.url)
  {
    if Inv(s) {
      LookupIsASchedule(s, slot, redisUp, tableUp);
      Reachable(s, LookupSteps(s, slot, redisUp, tableUp));
      LiveEntryIsAssigned(AfterLookup(s, slot, redisUp, tableUp), slot);
    }
  }

  lemma LiveEntryIsAssigned(s: World, slot: Slot)
    requires Inv(s)
    ensures StatusOf(s, slot).TemporaryRedirect? ==> AssignedTo(s.db, slot.1, StatusOf(s, slot).url)
  {
  }
}
