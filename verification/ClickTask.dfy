/**
 The spawned click task: the mutable variables of the select loop, updated in place. The methods are
 proved against the steps of the click protocol, whatever the broker and the table do meanwhile.
 */
module ClickTask {
  import opened Wrappers
  import opened ClickCounts
  import opened ClickProtocol
  import opened ClickGuarantees
  import opened Digits

  /** Steps of the broker and the table, which go on while the task is suspended. */
  predicate Outside(step: Step) {
    step.Publish? || step.Deliver? || step.InsertRow? || step.DeleteRow?
  }

  /** A flush: what goes on until the database answers, the answer, and what goes on until the broker is told. */
  datatype Attempt = Attempt(writing: seq<Step>, dbUp: bool, settling: seq<Step>)

  /** What the select picks, and how the flush goes should one follow. */
  datatype Arm = DeliveryArm(attempt: Attempt) | TickArm(attempt: Attempt)

  /** One iteration: what goes on until the select fires, and the arm it picks. */
  datatype Turn = Turn(waiting: seq<Step>, arm: Arm)

  ghost predicate Meanwhile(s: World, steps: seq<Step>) {
    LegalFrom(s, steps) && forall i :: 0 <= i < |steps| ==> Outside(steps[i])
  }

  lemma {:induction false} MeanwhileKeepsLoop(s: World, steps: seq<Step>)
    requires Meanwhile(s, steps)
    ensures After(s, steps).loop == s.loop
    decreases |steps|
  {
    if steps != [] {
      assert Outside(steps[0]);
      assert forall i :: 0 <= i < |steps| - 1 ==> steps[1..][i] == steps[i + 1];
      MeanwhileKeepsLoop(Apply(s, steps[0]), steps[1..]);
    }
  }

  ghost function Written(s: World, dbUp: bool): World {
    if dbUp then CommitBatch(s) else FailBatch(s)
  }

  ghost function Settled(s: World, dbUp: bool): World {
    if dbUp then AckBatch(s) else NackBatch(s)
  }

  ghost predicate Possible(s: World, a: Attempt) {
    Meanwhile(s, a.writing) && Meanwhile(Written(After(s, a.writing), a.dbUp), a.settling)
  }

  ghost function AfterAttempt(s: World, a: Attempt): World
    requires Possible(s, a)
  {
    Settled(After(Written(After(s, a.writing), a.dbUp), a.settling), a.dbUp)
  }

  ghost function AttemptSteps(a: Attempt): seq<Step> {
    a.writing + ([if a.dbUp then FlushCommits else FlushFails] + (a.settling + [if a.dbUp then Ack else Nack]))
  }

  lemma AttemptIsASchedule(s: World, a: Attempt)
    requires s.loop.phase == Flushing && Possible(s, a)
    ensures LegalFrom(s, AttemptSteps(a)) && After(s, AttemptSteps(a)) == AfterAttempt(s, a)
    ensures AfterAttempt(s, a).loop.phase == Selecting
  {
    var write, settle := if a.dbUp then FlushCommits else FlushFails, if a.dbUp then Ack else Nack;
    var s1 := After(s, a.writing);
    MeanwhileKeepsLoop(s, a.writing);
    var s2 := Written(s1, a.dbUp);
    var s3 := After(s2, a.settling);
    MeanwhileKeepsLoop(s2, a.settling);
    AfterThen(s3, settle, []);
    assert [settle] + [] == [settle];
    AfterBoth(s2, a.settling, [settle]);
    AfterThen(s1, write, a.settling + [settle]);
    AfterBoth(s, a.writing, [write] + (a.settling + [settle]));
  }

  /** The world once the arm has been picked: the delivery taken, or the timer noticed. */
  ghost function Picked(s: World, arm: Arm): World {
    if arm.DeliveryArm? then (if s.broker.buffered == [] then s else TakeDelivery(s))
    else if s.loop.batch != map[] then s.(loop := s.loop.(phase := Flushing))
    else s
  }

  ghost predicate PossibleArm(s: World, arm: Arm) {
    s.loop.phase == Selecting && (Picked(s, arm).loop.phase == Flushing ==> Possible(Picked(s, arm), arm.attempt))
  }

  ghost function AfterArm(s: World, arm: Arm): World
    requires PossibleArm(s, arm)
  {
    if Picked(s, arm).loop.phase == Flushing then AfterAttempt(Picked(s, arm), arm.attempt) else Picked(s, arm)
  }

  /** The steps one arm goes through. */
  ghost function ArmSteps(s: World, arm: Arm): seq<Step> {
    (if arm.TickArm? then [Tick] else if s.broker.buffered == [] then [] else [Take])
    + if Picked(s, arm).loop.phase == Flushing then AttemptSteps(arm.attempt) else []
  }

  /** The select loop never gets stuck: each arm is a legal schedule back to selecting. */
  lemma ArmIsASchedule(s: World, arm: Arm)
    requires PossibleArm(s, arm)
    ensures LegalFrom(s, ArmSteps(s, arm)) && After(s, ArmSteps(s, arm)) == AfterArm(s, arm)
    ensures AfterArm(s, arm).loop.phase == Selecting
  {
    var rest := if Picked(s, arm).loop.phase == Flushing then AttemptSteps(arm.attempt) else [];
    if rest != [] {
      AttemptIsASchedule(Picked(s, arm), arm.attempt);
    }
    if arm.TickArm? {
      AfterThen(s, Tick, rest);
    } else if s.broker.buffered != [] {
      AfterThen(s, Take, rest);
    } else {
      assert ArmSteps(s, arm) == [];
    }
  }

  /** Turns that can be taken one after the other. */
  ghost predicate PossibleTurns(s: World, turns: seq<Turn>)
    decreases |turns|
  {
    turns == [] ||
    (Meanwhile(s, turns[0].waiting) && PossibleArm(After(s, turns[0].waiting), turns[0].arm)
     && PossibleTurns(AfterTurn(s, turns[0]), turns[1..]))
  }

  ghost function AfterTurn(s: World, turn: Turn): World
    requires Meanwhile(s, turn.waiting) && PossibleArm(After(s, turn.waiting), turn.arm)
  {
    AfterArm(After(s, turn.waiting), turn.arm)
  }

  ghost function AfterTurns(s: World, turns: seq<Turn>): World
    requires PossibleTurns(s, turns)
    decreases |turns|
  {
    if turns == [] then s else AfterTurns(AfterTurn(s, turns[0]), turns[1..])
  }

  lemma TurnIsASchedule(s: World, turn: Turn)
    requires Meanwhile(s, turn.waiting) && PossibleArm(After(s, turn.waiting), turn.arm)
    ensures var steps := turn.waiting + ArmSteps(After(s, turn.waiting), turn.arm);
            LegalFrom(s, steps) && After(s, steps) == AfterTurn(s, turn)
  {
    var s1 := After(s, turn.waiting);
    ArmIsASchedule(s1, turn.arm);
    AfterBoth(s, turn.waiting, ArmSteps(s1, turn.arm));
  }

  // ---------------------------------------------------------------- the statement

  /** The delta the statement joins to a code, if any pair carries it. */
  function DeltaFor(codes: seq<string>, deltas: seq<nat>, code: string): nat
    requires |codes| == |deltas|
    decreases |codes|
  {
    if codes == [] then 0
    else if codes[0] == code then deltas[0]
    else DeltaFor(codes[1..], deltas[1..], code)
  }

  lemma {:induction false} DeltaOfMissing(codes: seq<string>, deltas: seq<nat>, code: string)
    requires |codes| == |deltas| && code !in codes
    ensures DeltaFor(codes, deltas, code) == 0
    decreases |codes|
  {
    if codes != [] {
      DeltaOfMissing(codes[1..], deltas[1..], code);
    }
  }

  lemma {:induction false} DeltaOfListed(codes: seq<string>, deltas: seq<nat>, i: nat)
    requires |codes| == |deltas| && i < |codes| && Distinct(codes)
    ensures DeltaFor(codes, deltas, codes[i]) == deltas[i]
    decreases |codes|
  {
    if i > 0 {
      assert codes[0] != codes[i];
      DeltaOfListed(codes[1..], deltas[1..], i - 1);
    }
  }

  method IncrementClickCounts(counts: map<string, nat>, batch: Batch) returns (counts': map<string, nat>)
    ensures counts' == AddBatch(counts, batch)
  {
    var codes, deltas := Unzip(batch);
    counts' := map c | c in counts :: counts[c] + DeltaFor(codes, deltas, c);
    forall c | c in counts ensures DeltaFor(codes, deltas, c) == Get(batch, c) {
      if c in batch {
        var i :| 0 <= i < |codes| && codes[i] == c;
        DeltaOfListed(codes, deltas, i);
      } else {
        DeltaOfMissing(codes, deltas, c);
      }
    }
  }

  method BackoffDelay(failures: nat) returns (delay: nat)
    ensures delay == if failures == 0 then 3 else if failures == 1 then 9 else 27
    ensures delay == BackoffSeconds(failures)
  {
    BackoffInNumbers(failures);
    delay := Pow(3, (if failures < 2 then failures else 2) + 1);
  }

  // ---------------------------------------------------------------- the task

  class Task {
    var batch: Batch
    var totalClicks: nat
    var lastDeliveryTag: Option<nat>
    var consecutiveFailures: nat

    // What the task talks to.
    var channel: Broker
    var counts: map<string, nat>

    // History of the run.
    ghost var ledger: Ledger
    ghost var backoffs: seq<nat>

    constructor ()
      ensures View() == INITIAL
    {
      batch, totalClicks, lastDeliveryTag, consecutiveFailures := map[], 0, None, 0;
      channel, counts := Broker({}, multiset{}, [], [], 1, []), map[];
      ledger, backoffs := Ledger(multiset{}, multiset{}, multiset{}, {}), [];
    }

    ghost function View(): World
      reads this
    {
      InPhase(Selecting)
    }

    ghost function InPhase(phase: Phase): World
      reads this
    {
      World(Loop(batch, totalClicks, lastDeliveryTag, consecutiveFailures, phase, backoffs), channel, counts, ledger)
    }

    /** The task is suspended in this phase while the broker and the table go on. */
    method Suspend(steps: seq<Step>, ghost phase: Phase)
      requires Meanwhile(InPhase(phase), steps)
      modifies this`channel, this`counts, this`ledger
      ensures InPhase(phase) == After(old(InPhase(phase)), steps)
    {
      for i := 0 to |steps|
        invariant LegalFrom(InPhase(phase), steps[i..])
        invariant After(InPhase(phase), steps[i..]) == After(old(InPhase(phase)), steps)
      {
        ghost var before := InPhase(phase);
        assert Outside(steps[i]) && steps[i..][0] == steps[i] && steps[i..][1..] == steps[i + 1..];
        Happen(steps[i], phase);
      }
    }

    method Happen(step: Step, ghost phase: Phase)
      requires Outside(step) && Enabled(InPhase(phase), step)
      modifies this`channel, this`counts, this`ledger
      ensures InPhase(phase) == Apply(old(InPhase(phase)), step)
    {
      if step.Publish? {
        channel := channel.(published := channel.published + {step.event}, ready := channel.ready + multiset{step.event});
      } else if step.Deliver? {
        channel := channel.(ready := channel.ready - multiset{step.event}, nextTag := channel.nextTag + 1,
                            buffered := channel.buffered + [Delivery(channel.nextTag, step.event)]);
      } else if step.InsertRow? {
        counts := counts[step.code := 0];
      } else {
        counts := counts - {step.code};
        ledger := ledger.(lost := ledger.lost + {step.code});
      }
    }

    /** Writes the batch; acknowledges and clears on success, sleeps and requeues on failure, keeping the batch. */
    method Flush(attempt: Attempt) returns (slept: nat)
      requires Possible(InPhase(Flushing), attempt)
      modifies this
      ensures View() == AfterAttempt(old(InPhase(Flushing)), attempt)
      ensures slept == if attempt.dbUp then 0 else BackoffSeconds(old(consecutiveFailures))
    {
      slept := 0;
      MeanwhileKeepsLoop(InPhase(Flushing), attempt.writing);
      Suspend(attempt.writing, Flushing);
      if attempt.dbUp {
        Succeed(attempt.settling);
      } else {
        slept := Fail(attempt.settling);
      }
    }

    method Succeed(settling: seq<Step>)
      requires Meanwhile(CommitBatch(InPhase(Flushing)), settling)
      modifies this
      ensures View() == AckBatch(After(CommitBatch(old(InPhase(Flushing))), settling))
    {
      ghost var before := InPhase(Flushing);
      ledger := ledger.(flushed := ledger.flushed + Bag(batch), lost := ledger.lost + (batch.Keys - counts.Keys));
      counts := IncrementClickCounts(counts, batch);
      consecutiveFailures, backoffs := 0, [];
      assert InPhase(Acking) == CommitBatch(before);
      Suspend(settling, Acking);
      if lastDeliveryTag.Some? {
        channel := AckUpTo(channel, lastDeliveryTag.value);
        lastDeliveryTag := None;
      }
      batch := map[];
      totalClicks := 0;
    }

    method Fail(settling: seq<Step>) returns (slept: nat)
      requires Meanwhile(FailBatch(InPhase(Flushing)), settling)
      modifies this
      ensures View() == NackBatch(After(FailBatch(old(InPhase(Flushing))), settling))
      ensures slept == BackoffSeconds(old(consecutiveFailures))
    {
      ghost var before := InPhase(Flushing);
      slept := BackoffDelay(consecutiveFailures);
      backoffs := backoffs + [slept];
      consecutiveFailures := consecutiveFailures + 1;
      assert InPhase(BackingOff) == FailBatch(before);
      Suspend(settling, BackingOff);
      if lastDeliveryTag.Some? {
        ledger := ledger.(requeued := ledger.requeued + Clicks(Events(UpTo(channel.handled, lastDeliveryTag.value))));
        channel := NackUpTo(channel, lastDeliveryTag.value);
        lastDeliveryTag := None;
      }
    }

    /** The arm of the stream: nothing to do when it yields no delivery. */
    method OnDelivery(attempt: Attempt) returns (slept: nat)
      requires PossibleArm(View(), DeliveryArm(attempt))
      modifies this
      ensures View() == AfterArm(old(View()), DeliveryArm(attempt))
    {
      slept := 0;
      if channel.buffered == [] {
        return;
      }
      ghost var before := View();
      var delivery := channel.buffered[0];
      channel := channel.(handled := channel.handled + [delivery], buffered := channel.buffered[1..]);
      if delivery.event.code.Some? {
        var shortCode := delivery.event.code.value;
        batch := batch[shortCode := Get(batch, shortCode) + 1];
        totalClicks := totalClicks + 1;
        lastDeliveryTag := Some(delivery.tag);
        if totalClicks >= FLUSH_AT {
          assert InPhase(Flushing) == TakeDelivery(before);
          slept := Flush(attempt);
        }
      }
    }

    /** The arm of the timer. */
    method OnTick(attempt: Attempt) returns (slept: nat)
      requires PossibleArm(View(), TickArm(attempt))
      modifies this
      ensures View() == AfterArm(old(View()), TickArm(attempt))
    {
      slept := 0;
      if batch != map[] {
        slept := Flush(attempt);
      }
    }

    /** The body of the loop: wait for the select to fire, then run the arm it picked. */
    method Iterate(turn: Turn) returns (slept: nat)
      requires Meanwhile(View(), turn.waiting) && PossibleArm(After(View(), turn.waiting), turn.arm)
      modifies this
      ensures View() == AfterTurn(old(View()), turn)
    {
      Suspend(turn.waiting, Selecting);
      match turn.arm {
        case DeliveryArm(attempt) => slept := OnDelivery(attempt);
        case TickArm(attempt) => slept := OnTick(attempt);
      }
    }

    /**
     The loop, for any arms the select picks and whatever the broker and the table do in between: the
     run is one of the protocol's, and its invariant holds.
     */
    method Run(turns: seq<Turn>)
      requires Inv(View()) && PossibleTurns(View(), turns)
      modifies this
      ensures View() == AfterTurns(old(View()), turns)
      ensures Inv(View())
      ensures totalClicks == |Bag(batch)| <= 16 + consecutiveFailures
    {
      for i := 0 to |turns|
        invariant Inv(View()) && PossibleTurns(View(), turns[i..])
        invariant AfterTurns(View(), turns[i..]) == AfterTurns(old(View()), turns)
      {
        ghost var here := View();
        assert turns[i..][0] == turns[i] && turns[i..][1..] == turns[i + 1..];
        TurnKeepsInv(here, turns[i]);
        var _ := Iterate(turns[i]);
      }
    }
  }

  lemma TurnKeepsInv(s: World, turn: Turn)
    requires Inv(s) && Meanwhile(s, turn.waiting) && PossibleArm(After(s, turn.waiting), turn.arm)
    ensures Inv(AfterTurn(s, turn))
  {
    TurnIsASchedule(s, turn);
    ScheduleKeepsInv(s, turn.waiting + ArmSteps(After(s, turn.waiting), turn.arm));
  }

  ghost function TurnsSteps(s: World, turns: seq<Turn>): seq<Step>
    requires PossibleTurns(s, turns)
    decreases |turns|
  {
    if turns == [] then []
    else
      turns[0].waiting + ArmSteps(After(s, turns[0].waiting), turns[0].arm)
      + TurnsSteps(AfterTurn(s, turns[0]), turns[1..])
  }

  /** All turns together are one legal schedule, so whatever holds of every schedule holds of the loop. */
  lemma {:induction false} TurnsAreASchedule(s: World, turns: seq<Turn>)
    requires PossibleTurns(s, turns)
    ensures LegalFrom(s, TurnsSteps(s, turns)) && After(s, TurnsSteps(s, turns)) == AfterTurns(s, turns)
    decreases |turns|
  {
    if turns != [] {
      var s1 := AfterTurn(s, turns[0]);
      TurnIsASchedule(s, turns[0]);
      TurnsAreASchedule(s1, turns[1..]);
      AfterBoth(s, turns[0].waiting + ArmSteps(After(s, turns[0].waiting), turns[0].arm), TurnsSteps(s1, turns[1..]));
    }
  }
}
