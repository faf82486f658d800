/**
 How far clicks are counted exactly once: how many more are flushed than acknowledged over any schedule,
 when there are none, and a schedule that counts one click twice.
 */
module ClickExactness {
  import opened Wrappers
  import opened ClickCounts
  import opened ClickProtocol
  import opened ClickGuarantees

  // ---------------------------------------------------------------- counting twice

  /**
   The clicks of a code that a step leaves flushed but not acknowledged: at an Ack those that the batch
   holds beyond the outstanding ones (their messages are back in the queue), and at a crash between
   flush and Ack the whole batch.
   */
  ghost function CountedTwice(s: World, step: Step, code: string): nat {
    var held, outstanding := Get(s.loop.batch, code), Outstanding(s.broker)[code];
    if step == Ack && held > outstanding then held - outstanding
    else if step == Crash && s.loop.phase == Acking then held
    else 0
  }

  /** No step of the schedule leaves a click of the code behind. */
  ghost predicate NeverTwice(s: World, steps: seq<Step>, code: string)
    requires LegalFrom(s, steps)
    decreases |steps|
  {
    steps == [] || (CountedTwice(s, steps[0], code) == 0 && NeverTwice(Apply(s, steps[0]), steps[1..], code))
  }

  ghost function TotalTwice(s: World, steps: seq<Step>, code: string): nat
    requires LegalFrom(s, steps)
    decreases |steps|
  {
    if steps == [] then 0 else CountedTwice(s, steps[0], code) + TotalTwice(Apply(s, steps[0]), steps[1..], code)
  }

  /** Flushed but not acknowledged, leaving aside the batch that is about to be. */
  ghost function Excess(s: World, code: string): int {
    s.ledger.flushed[code] - Clicks(s.broker.acked)[code]
    - (if s.loop.phase == Acking then Get(s.loop.batch, code) else 0)
  }

  lemma StepAddsTwice(s: World, step: Step, code: string)
    requires ChannelInv(s) && Outstanding(s.broker) <= Bag(s.loop.batch) && Enabled(s, step)
    ensures Excess(Apply(s, step), code) == Excess(s, code) + CountedTwice(s, step, code)
  {
    if step == Ack {
      AckKeepsChannel(s);
      assert Outstanding(s.broker)[code] <= Bag(s.loop.batch)[code];
      AckAddsTwice(s, code);
    } else if step == Take {
      TakingCounts(s);
    } else if step == FlushCommits {
      BagCounts(s.loop.batch);
    } else {
      OtherStepsAdd(s, step, code);
    }
  }

  lemma OtherStepsAdd(s: World, step: Step, code: string)
    requires Enabled(s, step) && step != Ack && step != Take && step != FlushCommits
    ensures Excess(Apply(s, step), code) == Excess(s, code) + CountedTwice(s, step, code)
  {
  }

  lemma AckAddsTwice(s: World, code: string)
    requires s.loop.phase == Acking && Outstanding(s.broker)[code] <= Bag(s.loop.batch)[code]
    requires Clicks(AckBatch(s).broker.acked) == Clicks(s.broker.acked) + Outstanding(s.broker)
    ensures Excess(AckBatch(s), code) == Excess(s, code) + CountedTwice(s, Ack, code)
  {
    BagCounts(s.loop.batch);
    assert (Clicks(s.broker.acked) + Outstanding(s.broker))[code]
        == Clicks(s.broker.acked)[code] + Outstanding(s.broker)[code];
  }

  lemma {:induction false} RunAddsTwice(s: World, steps: seq<Step>, code: string)
    requires Inv(s) && LegalFrom(s, steps)
    ensures Excess(After(s, steps), code) == Excess(s, code) + TotalTwice(s, steps, code)
    ensures TotalTwice(s, steps, code) == 0 <==> NeverTwice(s, steps, code)
    decreases |steps|
  {
    if steps != [] {
      StepAddsTwice(s, steps[0], code);
      StepKeepsInv(s, steps[0]);
      RunAddsTwice(Apply(s, steps[0]), steps[1..], code);
    }
  }

  /** Between iterations, clicks are flushed as often as they were acknowledged and counted twice together. */
  lemma {:induction false} FlushedIsAckedAndTwice(steps: seq<Step>, s: World, code: string)
    requires LeadsTo(steps, s) && s.loop.phase == Selecting
    ensures s.ledger.flushed[code] == |AckedClicks(s, code)| + TotalTwice(INITIAL, steps, code)
    ensures code in s.counts && RowStays(INITIAL, steps, code) ==>
              s.counts[code] == |AckedClicks(s, code)| + TotalTwice(INITIAL, steps, code)
  {
    LostExactly(INITIAL, steps, code);
    InitiallyInv();
    RunAddsTwice(INITIAL, steps, code);
    Reachable(steps, s);
    AckedAtMostOnce(s);
  }

  /**
   Between iterations, a code is flushed exactly as often as acknowledged if and only if at every Ack
   of the schedule the batch held no more clicks of it than were outstanding, and no crash fell between
   a flush with clicks of it and the Ack.
   */
  lemma {:induction false} ExactIffNothingCountedTwice(steps: seq<Step>, s: World, code: string)
    requires LeadsTo(steps, s) && s.loop.phase == Selecting
    ensures s.ledger.flushed[code] == |AckedClicks(s, code)| <==> NeverTwice(INITIAL, steps, code)
  {
    FlushedIsAckedAndTwice(steps, s, code);
    InitiallyInv();
    RunAddsTwice(INITIAL, steps, code);
  }

  /** In particular if nothing was given back at all. */
  lemma {:induction false} ExactIfNothingRequeued(steps: seq<Step>, s: World, code: string)
    requires LeadsTo(steps, s) && s.loop.phase == Selecting && s.ledger.requeued[code] == 0
    ensures s.ledger.flushed[code] == |AckedClicks(s, code)|
  {
    ClickLedgerBalances(steps, s, code);
    Reachable(steps, s);
    AckedAtMostOnce(s);
    assert Clicks(s.broker.acked)[code] <= s.ledger.flushed[code];
    assert Outstanding(s.broker)[code] <= Bag(s.loop.batch)[code];
  }

  ghost predicate Clean(steps: seq<Step>) {
    forall i :: 0 <= i < |steps| ==> steps[i] != FlushFails && steps[i] != Crash
  }

  ghost predicate NothingRequeued(s: World) {
    s.ledger.requeued == multiset{} && s.loop.phase != BackingOff && s.loop.failures == 0
  }

  lemma CleanStepRequeuesNothing(s: World, step: Step)
    requires NothingRequeued(s) && Enabled(s, step) && step != FlushFails && step != Crash
    ensures NothingRequeued(Apply(s, step))
  {
  }

  lemma {:induction false} CleanRunsRequeueNothing(s: World, steps: seq<Step>)
    requires NothingRequeued(s) && LegalFrom(s, steps) && Clean(steps)
    ensures NothingRequeued(After(s, steps))
    decreases |steps|
  {
    if steps != [] {
      CleanStepRequeuesNothing(s, steps[0]);
      assert forall i :: 0 <= i < |steps| - 1 ==> steps[1..][i] == steps[i + 1];
      CleanRunsRequeueNothing(Apply(s, steps[0]), steps[1..]);
    }
  }

  /** With no failed flush and no crash, rows present throughout count exactly the acknowledged clicks. */
  lemma {:induction false} CleanRunsCountExactly(steps: seq<Step>, s: World, code: string)
    requires LeadsTo(steps, s) && Clean(steps) && s.loop.phase == Selecting
    ensures s.ledger.flushed[code] == |AckedClicks(s, code)|
    ensures code in s.counts && RowStays(INITIAL, steps, code) ==> s.counts[code] == |AckedClicks(s, code)|
  {
    LostExactly(INITIAL, steps, code);
    CleanRunsRequeueNothing(INITIAL, steps);
    ExactIfNothingRequeued(steps, s, code);
    Reachable(steps, s);
  }

  // ---------------------------------------------------------------- a run that counts twice

  /** A row, one click of it, a flush that fails, the redelivery into the kept batch, and a flush that commits. */
  ghost function Recount(e: Event): seq<Step>
    requires e.code.Some?
  {
    [InsertRow(e.code.value), Publish(e), Deliver(e)] + [Take, Tick] + [FlushFails, Nack]
    + [Deliver(e)] + [Take, Tick] + [FlushCommits, Ack]
  }

  /** One click on its way: the loop, what it holds of the click, the deliveries, and what was given back. */
  ghost function OneClick(e: Event, l: Loop, ready: multiset<Event>, handled: seq<Delivery>, buffered: seq<Delivery>,
                          nextTag: nat, requeued: multiset<string>): World
    requires e.code.Some?
  {
    World(l, Broker({e}, ready, handled, buffered, nextTag, []), map[e.code.value := 0],
          Ledger(multiset{}, multiset{}, requeued, {}))
  }

  lemma {:induction false} TwoSteps(s: World, first: Step, second: Step)
    requires Enabled(s, first) && Enabled(Apply(s, first), second)
    ensures LegalFrom(s, [first, second]) && After(s, [first, second]) == Apply(Apply(s, first), second)
  {
    AfterThen(Apply(s, first), second, []);
    AfterThen(s, first, [second]);
    assert [second] + [] == [second] && [first] + [second] == [first, second];
  }

  lemma Started(e: Event)
    requires e.code.Some?
    ensures var steps := [InsertRow(e.code.value), Publish(e), Deliver(e)];
            LegalFrom(INITIAL, steps)
            && After(INITIAL, steps) == OneClick(e, FRESH_LOOP, multiset{}, [], [Delivery(1, e)], 2, multiset{})
  {
    var s1 := Apply(INITIAL, InsertRow(e.code.value));
    TwoSteps(s1, Publish(e), Deliver(e));
    AfterThen(INITIAL, InsertRow(e.code.value), [Publish(e), Deliver(e)]);
    assert [InsertRow(e.code.value)] + [Publish(e), Deliver(e)] == [InsertRow(e.code.value), Publish(e), Deliver(e)];
    assert multiset{e} - multiset{e} == multiset{};
  }

  lemma TakenAndTicked(e: Event, l: Loop, tag: nat, requeued: multiset<string>)
    requires e.code.Some? && l.phase == Selecting && l.totalClicks + 1 < FLUSH_AT
    ensures var batch := l.batch[e.code.value := Get(l.batch, e.code.value) + 1];
            var s := OneClick(e, l, multiset{}, [], [Delivery(tag, e)], tag + 1, requeued);
            && LegalFrom(s, [Take, Tick])
            && After(s, [Take, Tick])
               == OneClick(e, l.(batch := batch, totalClicks := l.totalClicks + 1, lastTag := Some(tag), phase := Flushing),
                           multiset{}, [Delivery(tag, e)], [], tag + 1, requeued)
  {
    var s := OneClick(e, l, multiset{}, [], [Delivery(tag, e)], tag + 1, requeued);
    var s1 := Apply(s, Take);
    assert s1.broker.handled == [Delivery(tag, e)] && s1.broker.buffered == [];
    assert s1.loop.batch[e.code.value] > 0;
    TwoSteps(s, Take, Tick);
  }

  lemma OneCovered(d: Delivery, tag: nat, code: string)
    requires d.tag <= tag && d.event.code == Some(code)
    ensures UpTo([d], tag) == [d] && Beyond([d], tag) == [] && UpTo([], tag) == [] && Beyond([], tag) == []
    ensures Events([d]) == [d.event] && Events([]) == [] && Clicks([d.event]) == multiset{code}
  {
    assert [d][1..] == [] && [d.event][1..] == [];
  }

  lemma FailedAndBack(e: Event, l: Loop)
    requires e.code.Some? && l.phase == Flushing && l.lastTag == Some(1)
    ensures var s := OneClick(e, l, multiset{}, [Delivery(1, e)], [], 2, multiset{});
            && LegalFrom(s, [FlushFails, Nack])
            && After(s, [FlushFails, Nack])
               == OneClick(e, FailBatch(s).loop.(lastTag := None, phase := Selecting), multiset{e}, [], [], 2,
                           multiset{e.code.value})
  {
    var s := OneClick(e, l, multiset{}, [Delivery(1, e)], [], 2, multiset{});
    OneCovered(Delivery(1, e), 1, e.code.value);
    TwoSteps(s, FlushFails, Nack);
  }

  /** The click comes back while the batch still holds it. */
  ghost function Kept(e: Event): Loop
    requires e.code.Some?
  {
    Loop(map[e.code.value := 1], 1, None, 1, Selecting, [BackoffSeconds(0)])
  }

  lemma GoesOn(front: seq<Step>, s: World, steps: seq<Step>, s': World)
    requires LeadsTo(front, s) && LegalFrom(s, steps) && After(s, steps) == s'
    ensures LeadsTo(front + steps, s')
  {
    AfterBoth(INITIAL, front, steps);
  }

  lemma ToFailure(e: Event)
    requires e.code.Some?
    ensures LeadsTo([InsertRow(e.code.value), Publish(e), Deliver(e)] + [Take, Tick] + [FlushFails, Nack],
                    OneClick(e, Kept(e), multiset{e}, [], [], 2, multiset{e.code.value}))
  {
    var first := [InsertRow(e.code.value), Publish(e), Deliver(e)];
    var l := Loop(map[e.code.value := 1], 1, Some(1), 0, Flushing, []);
    Started(e);
    TakenAndTicked(e, FRESH_LOOP, 1, multiset{});
    GoesOn(first, OneClick(e, FRESH_LOOP, multiset{}, [], [Delivery(1, e)], 2, multiset{}),
           [Take, Tick], OneClick(e, l, multiset{}, [Delivery(1, e)], [], 2, multiset{}));
    FailedAndBack(e, l);
    GoesOn(first + [Take, Tick], OneClick(e, l, multiset{}, [Delivery(1, e)], [], 2, multiset{}),
           [FlushFails, Nack], OneClick(e, Kept(e), multiset{e}, [], [], 2, multiset{e.code.value}));
  }

  lemma ToSecondFlush(e: Event)
    requires e.code.Some?
    ensures LeadsTo([InsertRow(e.code.value), Publish(e), Deliver(e)] + [Take, Tick] + [FlushFails, Nack]
                    + [Deliver(e)] + [Take, Tick],
                    OneClick(e, Loop(map[e.code.value := 2], 2, Some(2), 1, Flushing, [BackoffSeconds(0)]),
                             multiset{}, [Delivery(2, e)], [], 3, multiset{e.code.value}))
  {
    var front := [InsertRow(e.code.value), Publish(e), Deliver(e)] + [Take, Tick] + [FlushFails, Nack];
    var l := Loop(map[e.code.value := 2], 2, Some(2), 1, Flushing, [BackoffSeconds(0)]);
    var back := OneClick(e, Kept(e), multiset{e}, [], [], 2, multiset{e.code.value});
    var again := OneClick(e, Kept(e), multiset{}, [], [Delivery(2, e)], 3, multiset{e.code.value});
    ToFailure(e);
    AfterThen(back, Deliver(e), []);
    assert [Deliver(e)] + [] == [Deliver(e)] && multiset{e} - multiset{e} == multiset{};
    GoesOn(front, back, [Deliver(e)], again);
    TakenAndTicked(e, Kept(e), 2, multiset{e.code.value});
    GoesOn(front + [Deliver(e)], again, [Take, Tick],
           OneClick(e, l, multiset{}, [Delivery(2, e)], [], 3, multiset{e.code.value}));
  }

  lemma CommittedAndAcked(e: Event, l: Loop, requeued: multiset<string>)
    requires e.code.Some? && l.phase == Flushing && l.lastTag == Some(2) && l.batch == map[e.code.value := 2]
    ensures var s := OneClick(e, l, multiset{}, [Delivery(2, e)], [], 3, requeued);
            && LegalFrom(s, [FlushCommits, Ack])
            && var s' := After(s, [FlushCommits, Ack]);
               && s'.loop.phase == Selecting && s'.counts == map[e.code.value := 2]
               && s'.ledger.flushed[e.code.value] == 2
               && s'.broker.published == {e} && s'.broker.acked == [e]
  {
    var s := OneClick(e, l, multiset{}, [Delivery(2, e)], [], 3, requeued);
    BagCounts(l.batch);
    OneCovered(Delivery(2, e), 2, e.code.value);
    TwoSteps(s, FlushCommits, Ack);
    assert CommitBatch(s).ledger.flushed == multiset{} + Bag(l.batch);
  }

  /** Exactly-once fails: this run flushes and stores two clicks where one was published and acknowledged. */
  lemma OneClickCountedTwice(e: Event) returns (s: World)
    requires e.code.Some?
    ensures LeadsTo(Recount(e), s) && s.loop.phase == Selecting
    ensures s.counts == map[e.code.value := 2] && s.ledger.flushed[e.code.value] == 2
    ensures s.broker.published == {e} && s.broker.acked == [e]
    ensures |AckedClicks(s, e.code.value)| == 1
  {
    ToSecondFlush(e);
    var l := Loop(map[e.code.value := 2], 2, Some(2), 1, Flushing, [BackoffSeconds(0)]);
    var flushing := OneClick(e, l, multiset{}, [Delivery(2, e)], [], 3, multiset{e.code.value});
    CommittedAndAcked(e, l, multiset{e.code.value});
    s := After(flushing, [FlushCommits, Ack]);
    GoesOn(Recount(e)[..10], flushing, [FlushCommits, Ack], s);
    assert Recount(e) == Recount(e)[..10] + [FlushCommits, Ack];
    assert AckedClicks(s, e.code.value) == {e};
  }
}
