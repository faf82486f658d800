/**
 When a deleted link stops redirecting. The condition is exact: three seconds after a deletion every
 answer is a 404 in every schedule if and only if nothing that still names the link is left behind in
 Redis, in a pending background write, in a resolved load, or on the way to the replica.
 */
module DeletionBound {
  import opened Wrappers
  import opened Codec
  import opened RedirectCache
  import opened RedirectGuarantees
  import UrlTable

  /** The row of a created link is gone from the primary. */
  ghost predicate Deleted(s: World, id: int) {
    IsI64(id) && id in s.db.owners && id !in s.db.rows
  }

  /** The write would still put a key into Redis. */
  predicate Effective(w: Write, now: Time) {
    w.expires.Some? ==> TtlSeconds(w.expires.value, now) > 0
  }

  ghost predicate ReplicaCaughtUp(s: World, id: int) {
    forall i :: s.replica <= i < |s.history| ==> id !in s.history[i]
  }

  ghost predicate NoWriteLeft(s: World, code: string) {
    forall w :: w in s.writes && w.code == code ==> !Effective(w, s.now)
  }

  ghost predicate NoLoadResolved(s: World, code: string) {
    forall slot: Slot :: slot in s.loads && slot.1 == code && s.loads[slot].Resolved? ==>
      s.loads[slot].lookup.value.Missing?
  }

  /** Nothing outside the pods' own caches names the link any more. */
  ghost predicate Quiet(s: World, id: int) {
    && Deleted(s, id)
    && ReplicaCaughtUp(s, id)
    && !LiveInRedis(s.redis, CodeOf(id), s.now)
    && NoWriteLeft(s, CodeOf(id))
    && NoLoadResolved(s, CodeOf(id))
  }

  /** Pods hold the link, if at all, since time d or earlier. */
  ghost predicate HeldSince(s: World, code: string, d: Time) {
    forall slot: Slot :: slot in s.l1 && slot.1 == code && s.l1[slot].lookup.value.Found? ==>
      s.l1[slot].insertedAt <= d
  }

  // ---------------------------------------------------------------- quiet stays quiet

  lemma TtlShrinks(e: Time, now: Time, later: Time)
    requires now <= later
    ensures TtlSeconds(e, later) <= TtlSeconds(e, now)
  {
  }

  lemma NoRowForDeleted(s: World, id: int, i: nat)
    requires TablesFit(s) && IsI64(id) && i < |s.history| && id !in s.history[i]
    ensures RowFor(s.history[i], CodeOf(id)).None?
  {
    var rows := s.history[i];
    if RowFor(rows, CodeOf(id)).Some? {
      var j :| HasRow(rows, j, CodeOf(id)) && rows[j] == RowFor(rows, CodeOf(id)).value;
      CodeOfInjective(j, id);
      assert false;
    }
  }

  lemma TableStepKeepsQuiet(s: World, t: UrlTable.Step, id: int)
    requires Coherent(s) && Quiet(s, id) && Enabled(s, TableStep(t))
    ensures Quiet(Apply(s, TableStep(t)), id)
  {
    UrlTable.OwnersAreForever(s.db, t);
    var s' := Apply(s, TableStep(t));
    assert id !in s'.db.rows;
    forall i | s'.replica <= i < |s'.history| ensures id !in s'.history[i] {
      if i < |s.history| {
        assert s'.history[i] == s.history[i];
      }
    }
  }

  lemma PassKeepsQuiet(s: World, duration: nat, id: int)
    requires Quiet(s, id)
    ensures Quiet(s.(now := s.now + duration), id)
  {
    forall w | w in s.writes && w.code == CodeOf(id) ensures !Effective(w, s.now + duration) {
      TtlShrinks(w.expires.value, s.now, s.now + duration);
    }
  }

  lemma RedisAnswerKeepsQuiet(s: World, slot: Slot, id: int)
    requires Quiet(s, id) && Enabled(s, RedisAnswers(slot))
    ensures Quiet(AfterRedis(s, slot), id)
  {
  }

  lemma TableAnswerKeepsQuiet(s: World, slot: Slot, id: int)
    requires TablesFit(s) && Quiet(s, id) && Enabled(s, TableAnswers(slot))
    ensures Quiet(AfterTable(s, slot), id)
  {
    NoRowForDeleted(s, id, s.replica);
    var s' := AfterTable(s, slot);
    assert NoWriteLeft(s', CodeOf(id));
    assert NoLoadResolved(s', CodeOf(id));
  }

  lemma WriteStepKeepsQuiet(s: World, step: Step, id: int)
    requires Quiet(s, id) && Enabled(s, step)
    requires step.RunWrite? || step.DropWrite?
    ensures Quiet(Apply(s, step), id)
  {
    var w := step.write;
    var s' := Apply(s, step);
    assert forall v :: v in s'.writes ==> v in s.writes;
    if w.code == CodeOf(id) {
      assert !Effective(w, s.now);
    }
  }

  lemma CacheStepKeepsQuiet(s: World, step: Step, id: int)
    requires TablesFit(s) && Quiet(s, id) && Enabled(s, step) && !step.TableStep? && !step.Pass?
    ensures Quiet(Apply(s, step), id)
  {
    if step.RedisAnswers? {
      RedisAnswerKeepsQuiet(s, step.slot, id);
    } else if step.TableAnswers? {
      TableAnswerKeepsQuiet(s, step.slot, id);
    } else if step.RunWrite? || step.DropWrite? {
      WriteStepKeepsQuiet(s, step, id);
    } else {
      QuietInLess(s, Apply(s, step), id);
    }
  }

  lemma StepKeepsQuiet(s: World, step: Step, id: int)
    requires Coherent(s) && Quiet(s, id) && Enabled(s, step)
    ensures Quiet(Apply(s, step), id)
  {
    if step.TableStep? {
      TableStepKeepsQuiet(s, step.step, id);
    } else if step.Pass? {
      PassKeepsQuiet(s, step.duration, id);
    } else {
      CacheStepKeepsQuiet(s, step, id);
    }
  }

  /** Replication, and steps that start, abandon, finish or evict: nothing new names the link. */
  lemma QuietInLess(s: World, s': World, id: int)
    requires Quiet(s, id)
    requires s'.now == s.now && s'.db == s.db && s'.history == s.history && s'.replica >= s.replica && s'.writes == s.writes
    requires forall code :: code in s'.redis ==> code in s.redis && s'.redis[code] == s.redis[code]
    requires forall slot :: slot in s'.loads && s'.loads[slot].Resolved? ==> slot in s.loads && s'.loads[slot] == s.loads[slot]
    ensures Quiet(s', id)
  {
  }

  lemma StepKeepsHeldSince(s: World, step: Step, id: int, d: Time)
    requires Quiet(s, id) && HeldSince(s, CodeOf(id), d) && Enabled(s, step)
    ensures HeldSince(Apply(s, step), CodeOf(id), d)
  {
  }

  lemma {:induction false} QuietOverRun(s: World, steps: seq<Step>, id: int, d: Time)
    requires Coherent(s) && Quiet(s, id) && HeldSince(s, CodeOf(id), d) && LegalFrom(s, steps)
    ensures Quiet(After(s, steps), id) && HeldSince(After(s, steps), CodeOf(id), d)
    decreases |steps|
  {
    if steps != [] {
      StepKeepsCoherent(s, steps[0]);
      StepKeepsQuiet(s, steps[0], id);
      StepKeepsHeldSince(s, steps[0], id, d);
      QuietOverRun(Apply(s, steps[0]), steps[1..], id, d);
    }
  }

  /** Whatever happens after a quiet deletion, from three seconds on every pod answers 404. */
  lemma {:induction false} QuietDeletionIsFinal(s: World, steps: seq<Step>, id: int, slot: Slot, response: Response)
    requires Inv(s) && Quiet(s, id) && LegalFrom(s, steps)
    requires After(s, steps).now >= s.now + 3_000_000_000
    requires slot.1 == CodeOf(id) && Answers(After(s, steps), slot, response)
    ensures response == NotFound
  {
    QuietOverRun(s, steps, id, s.now);
  }

  // ---------------------------------------------------------------- anything left resurfaces

  /** Some schedule from here answers for the code, three seconds later or more, with something else than 404. */
  ghost predicate Resurfaces(s: World, code: string, notBefore: Time) {
    exists steps, slot: Slot, response ::
      LegalFrom(s, steps) && After(s, steps).now >= notBefore && slot.1 == code
      && Answers(After(s, steps), slot, response) && response != NotFound
  }

  lemma FirstStep(s: World, step: Step, code: string, notBefore: Time)
    requires Enabled(s, step) && Resurfaces(Apply(s, step), code, notBefore)
    ensures Resurfaces(s, code, notBefore)
  {
    var s1 := Apply(s, step);
    var rest, slot: Slot, response :|
      LegalFrom(s1, rest) && After(s1, rest).now >= notBefore && slot.1 == code
      && Answers(After(s1, rest), slot, response) && response != NotFound;
    var steps := [step] + rest;
    assert steps[1..] == rest;
    assert LegalFrom(s, steps) && After(s, steps) == After(s1, rest);
  }

  lemma AnsweringResurfaces(s: World, slot: Slot, notBefore: Time)
    requires LiveInL1(s.l1, slot, s.now) && s.l1[slot].lookup.value.Found? && s.now >= notBefore
    ensures Resurfaces(s, slot.1, notBefore)
  {
    var response := Answer(s.l1[slot].lookup.value, s.now);
    assert LegalFrom(s, []) && After(s, []) == s;
    assert Answers(After(s, []), slot, response) && response != NotFound;
  }

  lemma LoadResurfaces(s: World, slot: Slot)
    requires slot in s.loads && s.loads[slot].Resolved? && s.loads[slot].lookup.value.Found?
    ensures Resurfaces(s, slot.1, s.now + L1_TTL)
  {
    var s1 := Apply(s, Pass(L1_TTL));
    var s2 := Apply(s1, FinishLoad(slot));
    AnsweringResurfaces(s2, slot, s.now + L1_TTL);
    FirstStep(s1, FinishLoad(slot), slot.1, s.now + L1_TTL);
    FirstStep(s, Pass(L1_TTL), slot.1, s.now + L1_TTL);
  }

  ghost predicate Idle(s: World, slot: Slot) {
    slot !in s.loads && slot !in s.l1
  }

  lemma RedisResurfaces(s: World, slot: Slot)
    requires Idle(s, slot) && LiveInRedis(s.redis, slot.1, s.now)
    ensures Resurfaces(s, slot.1, s.now + L1_TTL)
  {
    var s1 := Apply(s, StartLoad(slot));
    var s2 := Apply(s1, RedisAnswers(slot));
    LoadResurfaces(s2, slot);
    FirstStep(s1, RedisAnswers(slot), slot.1, s.now + L1_TTL);
    FirstStep(s, StartLoad(slot), slot.1, s.now + L1_TTL);
  }

  lemma WriteResurfaces(s: World, slot: Slot, w: Write)
    requires Idle(s, slot) && w in s.writes && w.code == slot.1 && Effective(w, s.now)
    ensures Resurfaces(s, slot.1, s.now + L1_TTL)
  {
    var s1 := Apply(s, RunWrite(w));
    assert LiveInRedis(s1.redis, slot.1, s1.now);
    RedisResurfaces(s1, slot);
    FirstStep(s, RunWrite(w), slot.1, s.now + L1_TTL);
  }

  lemma ReplicaResurfaces(s: World, slot: Slot, id: int, i: nat)
    requires Idle(s, slot) && TablesFit(s) && IsI64(id) && slot.1 == CodeOf(id)
    requires s.replica <= i < |s.history| && id in s.history[i] && !LiveInRedis(s.redis, slot.1, s.now)
    ensures Resurfaces(s, slot.1, s.now + L1_TTL)
  {
    assert HasRow(s.history[i], id, slot.1);
    var s1 := Apply(s, Replicate(i));
    var s2 := Apply(s1, StartLoad(slot));
    var s3 := Apply(s2, RedisAnswers(slot));
    var s4 := Apply(s3, TableAnswers(slot));
    assert RowFor(s.history[i], slot.1).Some?;
    LoadResurfaces(s4, slot);
    FirstStep(s3, TableAnswers(slot), slot.1, s.now + L1_TTL);
    FirstStep(s2, RedisAnswers(slot), slot.1, s.now + L1_TTL);
    FirstStep(s1, StartLoad(slot), slot.1, s.now + L1_TTL);
    FirstStep(s, Replicate(i), slot.1, s.now + L1_TTL);
  }

  /**
   The deletion bound, exactly. In a reachable world without the row, and with a pod that has nothing
   of the code, the link can be answered with anything but 404 three seconds later or more if and only
   if the deletion was not quiet.
   */
  lemma DeletionIsFinalExactlyWhenQuiet(s: World, id: int, pod: nat)
    requires Inv(s) && Deleted(s, id) && Idle(s, (pod, CodeOf(id)))
    ensures Resurfaces(s, CodeOf(id), s.now + L1_TTL) <==> !Quiet(s, id)
  {
    var code := CodeOf(id);
    if Resurfaces(s, code, s.now + L1_TTL) && Quiet(s, id) {
      var steps, slot: Slot, response :|
        LegalFrom(s, steps) && After(s, steps).now >= s.now + L1_TTL && slot.1 == code
        && Answers(After(s, steps), slot, response) && response != NotFound;
      QuietDeletionIsFinal(s, steps, id, slot, response);
      assert false;
    }
    if !Quiet(s, id) {
      LeftoverResurfaces(s, id, (pod, code));
    }
  }

  lemma LeftoverResurfaces(s: World, id: int, slot: Slot)
    requires Inv(s) && Deleted(s, id) && !Quiet(s, id) && slot.1 == CodeOf(id) && Idle(s, slot)
    ensures Resurfaces(s, slot.1, s.now + L1_TTL)
  {
    var code := slot.1;
    if LiveInRedis(s.redis, code, s.now) {
      RedisResurfaces(s, slot);
    } else if !ReplicaCaughtUp(s, id) {
      var i :| s.replica <= i < |s.history| && id in s.history[i];
      ReplicaResurfaces(s, slot, id, i);
    } else if !NoWriteLeft(s, code) {
      var w :| w in s.writes && w.code == code && Effective(w, s.now);
      WriteResurfaces(s, slot, w);
    } else {
      assert !NoLoadResolved(s, code);
      var other: Slot :| other in s.loads && other.1 == code && s.loads[other].Resolved?
                         && s.loads[other].lookup.value.Found?;
      LoadResurfaces(s, other);
    }
  }
}
