/**
 From when on a created link is found, the dual of the deletion bound. While the row stays, no answer is
 a 404 from three seconds on, in every schedule, if and only if the replica will not be read without the
 row any more and no load has already resolved to a miss.
 */
module CreationBound {
  import opened Wrappers
  import opened Codec
  import opened RedirectCache
  import opened RedirectGuarantees
  import opened DeletionBound
  import opened RedirectHandler
  import UrlTable

  ghost predicate ReplicaHolds(s: World, id: int) {
    forall i :: s.replica <= i < |s.history| ==> id in s.history[i]
  }

  ghost predicate NoMissResolved(s: World, code: string) {
    forall slot: Slot :: slot in s.loads && slot.1 == code && s.loads[slot].Resolved? ==>
      s.loads[slot].lookup.value.Found?
  }

  /** Nothing outside the pods' own caches says any more that there is no such link. */
  ghost predicate Visible(s: World, id: int) {
    IsI64(id) && id in s.db.rows && ReplicaHolds(s, id) && NoMissResolved(s, CodeOf(id))
  }

  /** Pods hold a miss of the code, if at all, since time d or earlier. */
  ghost predicate MissedSince(s: World, code: string, d: Time) {
    forall slot: Slot :: slot in s.l1 && slot.1 == code && s.l1[slot].lookup.value.Missing? ==>
      s.l1[slot].insertedAt <= d
  }

  /** The row is not deleted along the schedule. */
  ghost predicate RowStays(s: World, steps: seq<Step>, id: int)
    requires LegalFrom(s, steps)
    decreases |steps|
  {
    id in s.db.rows && (steps == [] || RowStays(Apply(s, steps[0]), steps[1..], id))
  }

  // ---------------------------------------------------------------- visible stays visible

  lemma RowForCreated(s: World, id: int, i: nat)
    requires TablesFit(s) && IsI64(id) && i < |s.history| && id in s.history[i]
    ensures RowFor(s.history[i], CodeOf(id)).Some?
  {
    assert HasRow(s.history[i], id, CodeOf(id));
  }

  lemma TableStepKeepsVisible(s: World, t: UrlTable.Step, id: int)
    requires Visible(s, id) && Enabled(s, TableStep(t)) && id in Apply(s, TableStep(t)).db.rows
    ensures Visible(Apply(s, TableStep(t)), id)
  {
    var s' := Apply(s, TableStep(t));
    forall i | s'.replica <= i < |s'.history| ensures id in s'.history[i] {
      if i < |s.history| {
        assert s'.history[i] == s.history[i];
      }
    }
  }

  lemma RedisAnswerKeepsVisible(s: World, slot: Slot, id: int)
    requires Visible(s, id) && Enabled(s, RedisAnswers(slot))
    ensures Visible(AfterRedis(s, slot), id)
  {
  }

  lemma TableAnswerKeepsVisible(s: World, slot: Slot, id: int)
    requires TablesFit(s) && Visible(s, id) && Enabled(s, TableAnswers(slot))
    ensures Visible(AfterTable(s, slot), id)
  {
    RowForCreated(s, id, s.replica);
  }

  /** Replication, time, and steps that start, abandon, finish, write or evict: no new miss. */
  lemma VisibleInLess(s: World, s': World, id: int)
    requires Visible(s, id)
    requires s'.db == s.db && s'.history == s.history && s'.replica >= s.replica
    requires forall slot :: slot in s'.loads && s'.loads[slot].Resolved? ==> slot in s.loads && s'.loads[slot] == s.loads[slot]
    ensures Visible(s', id)
  {
  }

  lemma StepKeepsVisible(s: World, step: Step, id: int)
    requires TablesFit(s) && Visible(s, id) && Enabled(s, step) && id in Apply(s, step).db.rows
    ensures Visible(Apply(s, step), id)
  {
    if step.TableStep? {
      TableStepKeepsVisible(s, step.step, id);
    } else if step.RedisAnswers? {
      RedisAnswerKeepsVisible(s, step.slot, id);
    } else if step.TableAnswers? {
      TableAnswerKeepsVisible(s, step.slot, id);
    } else {
      VisibleInLess(s, Apply(s, step), id);
    }
  }

  lemma StepKeepsMissedSince(s: World, step: Step, id: int, d: Time)
    requires Visible(s, id) && MissedSince(s, CodeOf(id), d) && Enabled(s, step)
    ensures MissedSince(Apply(s, step), CodeOf(id), d)
  {
  }

  lemma {:induction false} VisibleOverRun(s: World, steps: seq<Step>, id: int, d: Time)
    requires Coherent(s) && Visible(s, id) && MissedSince(s, CodeOf(id), d)
    requires LegalFrom(s, steps) && RowStays(s, steps, id)
    ensures Visible(After(s, steps), id) && MissedSince(After(s, steps), CodeOf(id), d)
    decreases |steps|
  {
    if steps != [] {
      assert RowStays(Apply(s, steps[0]), steps[1..], id);
      StepKeepsCoherent(s, steps[0]);
      StepKeepsVisible(s, steps[0], id);
      StepKeepsMissedSince(s, steps[0], id, d);
      VisibleOverRun(Apply(s, steps[0]), steps[1..], id, d);
    }
  }

  /** Once a link is visible, from three seconds on and for as long as it is not deleted, no pod answers 404. */
  lemma {:induction false} CreatedLinkIsFound(s: World, steps: seq<Step>, id: int, slot: Slot, response: Response)
    requires Inv(s) && Visible(s, id) && LegalFrom(s, steps) && RowStays(s, steps, id)
    requires After(s, steps).now >= s.now + L1_TTL
    requires slot.1 == CodeOf(id) && Answers(After(s, steps), slot, response)
    ensures response != NotFound
  {
    VisibleOverRun(s, steps, id, s.now);
  }

  // ---------------------------------------------------------------- a miss left behind comes back

  /** Some schedule from here keeps the row, and answers the code with 404 three seconds later or more. */
  ghost predicate Vanishes(s: World, id: int, notBefore: Time) {
    IsI64(id) && exists steps, slot: Slot ::
      LegalFrom(s, steps) && RowStays(s, steps, id) && After(s, steps).now >= notBefore && slot.1 == CodeOf(id)
      && Answers(After(s, steps), slot, NotFound)
  }

  lemma FirstKeeps(s: World, step: Step, id: int, notBefore: Time)
    requires id in s.db.rows && Enabled(s, step) && Vanishes(Apply(s, step), id, notBefore)
    ensures Vanishes(s, id, notBefore)
  {
    var s1 := Apply(s, step);
    var rest, slot: Slot :|
      LegalFrom(s1, rest) && RowStays(s1, rest, id) && After(s1, rest).now >= notBefore && slot.1 == CodeOf(id)
      && Answers(After(s1, rest), slot, NotFound);
    var steps := [step] + rest;
    assert steps[1..] == rest;
    assert LegalFrom(s, steps) && After(s, steps) == After(s1, rest) && RowStays(s, steps, id);
  }

  lemma MissAnswers(s: World, slot: Slot, id: int, notBefore: Time)
    requires IsI64(id) && id in s.db.rows && slot.1 == CodeOf(id) && s.now >= notBefore
    requires LiveInL1(s.l1, slot, s.now) && s.l1[slot].lookup.value.Missing?
    ensures Vanishes(s, id, notBefore)
  {
    assert LegalFrom(s, []) && After(s, []) == s && RowStays(s, [], id);
    assert Answers(After(s, []), slot, NotFound);
  }

  lemma MissReturns(s: World, slot: Slot, id: int)
    requires IsI64(id) && id in s.db.rows && slot.1 == CodeOf(id)
    requires slot in s.loads && s.loads[slot].Resolved? && s.loads[slot].lookup.value.Missing?
    ensures Vanishes(s, id, s.now + L1_TTL)
  {
    var s1 := Apply(s, Pass(L1_TTL));
    var s2 := Apply(s1, FinishLoad(slot));
    MissAnswers(s2, slot, id, s.now + L1_TTL);
    FirstKeeps(s1, FinishLoad(slot), id, s.now + L1_TTL);
    FirstKeeps(s, Pass(L1_TTL), id, s.now + L1_TTL);
  }

  /** A replica behind the creation answers with a miss when Redis cannot be asked. */
  lemma LaggingReplicaMisses(s: World, slot: Slot, id: int, i: nat)
    requires TablesFit(s) && IsI64(id) && id in s.db.rows && slot.1 == CodeOf(id) && Idle(s, slot)
    requires s.replica <= i < |s.history| && id !in s.history[i]
    ensures Vanishes(s, id, s.now + L1_TTL)
  {
    var s1 := Apply(s, Replicate(i));
    var s2 := Apply(s1, StartLoad(slot));
    var s3 := Apply(s2, RedisFails(slot));
    var s4 := Apply(s3, TableAnswers(slot));
    NoRowForDeleted(s, id, i);
    MissReturns(s4, slot, id);
    FirstKeeps(s3, TableAnswers(slot), id, s.now + L1_TTL);
    FirstKeeps(s2, RedisFails(slot), id, s.now + L1_TTL);
    FirstKeeps(s1, StartLoad(slot), id, s.now + L1_TTL);
    FirstKeeps(s, Replicate(i), id, s.now + L1_TTL);
  }

  /** With a pod that has nothing of the code: a 404 three seconds later or more is possible exactly until the link is visible. */
  lemma CreatedLinkIsFoundExactlyWhenVisible(s: World, id: int, pod: nat)
    requires Inv(s) && id in s.db.rows && IsI64(id) && Idle(s, (pod, CodeOf(id)))
    ensures Vanishes(s, id, s.now + L1_TTL) <==> !Visible(s, id)
  {
    var code := CodeOf(id);
    if Vanishes(s, id, s.now + L1_TTL) && Visible(s, id) {
      var steps, slot: Slot :|
        LegalFrom(s, steps) && RowStays(s, steps, id) && After(s, steps).now >= s.now + L1_TTL && slot.1 == code
        && Answers(After(s, steps), slot, NotFound);
      CreatedLinkIsFound(s, steps, id, slot, NotFound);
      assert false;
    }
    if !ReplicaHolds(s, id) {
      var i :| s.replica <= i < |s.history| && id !in s.history[i];
      LaggingReplicaMisses(s, (pod, code), id, i);
    } else if !NoMissResolved(s, code) {
      var slot: Slot :| slot in s.loads && slot.1 == code && s.loads[slot].Resolved?
                        && s.loads[slot].lookup.value.Missing?;
      MissReturns(s, slot, id);
    }
  }
}
