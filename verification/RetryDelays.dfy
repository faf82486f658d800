/**
 How long a failed deletion event waits: when the head of a delay queue can leave it, and what the delays
 add up to when the broker and the consumer lose no time.
 */
module RetryDelays {
  import opened Wrappers
  import opened RetryProtocol
  import opened RetryGuarantees

  /** The delay queues hold their messages for 3000, 9000 and 27000 milliseconds, and no other queue does. */
  lemma HeadLeavesExactly(s: World, q: Queue)
    requires At(s, q) != []
    ensures Enabled(s, Expire(q)) <==>
              || (q == Retry3 && s.now >= At(s, q)[0].since + 3000)
              || (q == Retry9 && s.now >= At(s, q)[0].since + 9000)
              || (q == Retry27 && s.now >= At(s, q)[0].since + 27000)
  {
  }

  // ---------------------------------------------------------------- no time lost

  /** Every message of the queue has this long to go at least. */
  ghost predicate NoneDue(entries: seq<Entry>, ttl: nat, now: nat) {
    forall i :: 0 <= i < |entries| ==> now <= entries[i].since + ttl
  }

  /** Time passes only while nothing waits for the consumer, and up to the next message that is due. */
  ghost predicate LosesNoTime(s: World, step: Step) {
    step.Pass? && step.milliseconds > 0 ==>
      && s.main == [] && s.inbox == []
      && NoneDue(s.retry3, 3000, s.now + step.milliseconds)
      && NoneDue(s.retry9, 9000, s.now + step.milliseconds)
      && NoneDue(s.retry27, 27000, s.now + step.milliseconds)
  }

  ghost predicate Prompt(s: World, steps: seq<Step>)
    requires LegalFrom(s, steps)
    decreases |steps|
  {
    steps == [] || (LosesNoTime(s, steps[0]) && Prompt(Apply(s, steps[0]), steps[1..]))
  }

  type Births = map<nat, nat>

  /** The message entered its queue exactly this long after its event was published. */
  ghost predicate OnTime(born: Births, entry: Entry, waited: nat) {
    entry.message.event in born && entry.since == born[entry.message.event] + waited
  }

  ghost predicate AllOnTime(born: Births, entries: seq<Entry>, waited: nat) {
    forall i :: 0 <= i < |entries| ==> OnTime(born, entries[i], waited)
  }

  /** Milliseconds an event has waited when it is handled with this counter. */
  function WaitedBy(count: int): nat {
    if count <= 0 then 0 else if count == 1 then 3000 else if count == 2 then 12000 else 39000
  }

  ghost predicate Arrives(born: Births, entry: Entry, now: nat) {
    OnTime(born, entry, WaitedBy(RetryCount(entry.message))) && entry.since == now
  }

  /** What is in the main queue or at the consumer has only just come. */
  ghost predicate JustCome(born: Births, entries: seq<Entry>, now: nat) {
    forall i :: 0 <= i < |entries| ==> Arrives(born, entries[i], now)
  }

  /** A delay queue whose messages came on time, and are not overdue. */
  ghost predicate Holding(born: Births, entries: seq<Entry>, waited: nat, ttl: nat, now: nat) {
    AllOnTime(born, entries, waited) && NoneDue(entries, ttl, now)
  }

  ghost predicate PromptInv(s: World) {
    && JustCome(s.born, s.main, s.now) && JustCome(s.born, s.inbox, s.now)
    && Holding(s.born, s.retry3, 0, 3000, s.now) && Holding(s.born, s.retry9, 3000, 9000, s.now)
    && Holding(s.born, s.retry27, 12000, 27000, s.now)
    && AllOnTime(s.born, s.deadLetters, 39000)
  }

  lemma OneMoreHolding(born: Births, entries: seq<Entry>, entry: Entry, waited: nat, ttl: nat, now: nat)
    requires Holding(born, entries, waited, ttl, now) && OnTime(born, entry, waited) && entry.since == now
    ensures Holding(born, entries + [entry], waited, ttl, now)
  {
  }

  lemma OneMoreJustCome(born: Births, entries: seq<Entry>, entry: Entry, now: nat)
    requires JustCome(born, entries, now) && Arrives(born, entry, now)
    ensures JustCome(born, entries + [entry], now)
  {
  }

  lemma HeadReturns(s: World, q: Queue, waited: nat, ttl: nat, count: int)
    requires Enabled(s, Expire(q)) && TimeToLive(q) == Some(ttl) && Holding(s.born, At(s, q), waited, ttl, s.now)
    requires RetryCount(At(s, q)[0].message) == count && WaitedBy(count) == waited + ttl
    ensures Arrives(s.born, Entry(At(s, q)[0].message, s.now), s.now)
    ensures Holding(s.born, At(s, q)[1..], waited, ttl, s.now)
  {
    assert OnTime(s.born, At(s, q)[0], waited);
  }

  lemma ExpireKeepsPrompt(s: World, q: Queue)
    requires CarriedInv(s) && PromptInv(s) && Enabled(s, Expire(q))
    ensures PromptInv(DeadLetter(s, q))
  {
    HeadLeavesExactly(s, q);
    assert RetryCount(At(s, q)[0].message) == if q == Retry3 then 1 else if q == Retry9 then 2 else 3;
    if q == Retry3 {
      HeadReturns(s, Retry3, 0, 3000, 1);
    } else if q == Retry9 {
      HeadReturns(s, Retry9, 3000, 9000, 2);
    } else {
      HeadReturns(s, Retry27, 12000, 27000, 3);
    }
    OneMoreJustCome(s.born, s.main, Entry(At(s, q)[0].message, s.now), s.now);
  }

  lemma ProcessKeepsPrompt(s: World, dbUp: bool)
    requires HeadFits(s) && PromptInv(s) && Enabled(s, Process(dbUp))
    ensures PromptInv(TakeUp(s, dbUp))
  {
    var m := s.inbox[0].message;
    if m.payload.UserDeleted? && !dbUp {
      FailureForwards(s);
      ForwardingKeepsContent(m);
      assert Arrives(s.born, s.inbox[0], s.now);
      var sent := Entry(Forwarded(m), s.now);
      assert OnTime(s.born, sent, WaitedBy(RetryCount(m)));
      if RetryCount(m) == 0 {
        OneMoreHolding(s.born, s.retry3, sent, 0, 3000, s.now);
      } else if RetryCount(m) == 1 {
        OneMoreHolding(s.born, s.retry9, sent, 3000, 9000, s.now);
      } else if RetryCount(m) == 2 {
        OneMoreHolding(s.born, s.retry27, sent, 12000, 27000, s.now);
      }
    }
  }

  lemma BirthKeepsPrompt(s: World, born: Births)
    requires PromptInv(s) && forall e :: e in s.born ==> e in born && born[e] == s.born[e]
    ensures PromptInv(s.(born := born))
  {
    forall entry, waited | OnTime(s.born, entry, waited) ensures OnTime(born, entry, waited) {
    }
  }

  lemma PublishKeepsPrompt(s: World, m: Message)
    requires s.born.Keys == s.published.Keys && PromptInv(s) && Enabled(s, Publish(m))
    ensures PromptInv(Apply(s, Publish(m)))
  {
    var born := s.born[m.event := s.now];
    BirthKeepsPrompt(s, born);
    assert RetryCount(m) == 0;
    OneMoreJustCome(born, s.main, Entry(m, s.now), s.now);
  }

  lemma PassKeepsPrompt(s: World, ms: nat)
    requires PromptInv(s) && LosesNoTime(s, Pass(ms))
    ensures PromptInv(s.(now := s.now + ms))
  {
  }

  lemma MovingKeepsPrompt(s: World, step: Step)
    requires PromptInv(s) && Enabled(s, step)
    requires step.Deliver? || step.Ack? || step.Crash?
    ensures PromptInv(Apply(s, step))
  {
    if step.Deliver? {
      assert Arrives(s.born, s.main[0], s.now);
      OneMoreJustCome(s.born, s.inbox, s.main[0], s.now);
    }
  }

  lemma StepKeepsPrompt(s: World, step: Step)
    requires Inv(s) && PromptInv(s) && Enabled(s, step) && LosesNoTime(s, step)
    ensures PromptInv(Apply(s, step))
  {
    if step.Expire? {
      ExpireKeepsPrompt(s, step.queue);
    } else if step.Process? {
      CarriedHead(s);
      ProcessKeepsPrompt(s, step.dbUp);
    } else if step.Publish? {
      PublishKeepsPrompt(s, step.message);
    } else if step.Pass? {
      PassKeepsPrompt(s, step.milliseconds);
    } else {
      MovingKeepsPrompt(s, step);
    }
  }

  lemma {:induction false} PromptRunsKeepTime(s: World, steps: seq<Step>)
    requires Inv(s) && PromptInv(s) && LegalFrom(s, steps) && Prompt(s, steps)
    ensures PromptInv(After(s, steps))
    decreases |steps|
  {
    if steps != [] {
      StepKeepsPrompt(s, steps[0]);
      StepKeepsInv(s, steps[0]);
      PromptRunsKeepTime(Apply(s, steps[0]), steps[1..]);
    }
  }

  /**
   With no time lost, failed events enter the 9 second queue 3 seconds, the 27 second queue 12 seconds and
   the dead-letter queue exactly 39 seconds after they were published.
   */
  lemma {:induction false} PromptDelays(steps: seq<Step>, s: World, i: nat)
    requires LeadsTo(steps, s) && Prompt(INITIAL, steps)
    ensures i < |s.retry3| ==> OnTime(s.born, s.retry3[i], 0)
    ensures i < |s.retry9| ==> OnTime(s.born, s.retry9[i], 3000)
    ensures i < |s.retry27| ==> OnTime(s.born, s.retry27[i], 12000)
    ensures i < |s.deadLetters| ==> OnTime(s.born, s.deadLetters[i], 39000)
  {
    InitiallyInv();
    PromptRunsKeepTime(INITIAL, steps);
  }

  // ---------------------------------------------------------------- a run to the dead-letter queue

  /** One event, published at time zero and taken up so often, here or there. */
  function OneEvent(m: Message, now: nat, taken: nat): World {
    INITIAL.(now := now, published := map[m.event := m], born := map[m.event := 0],
             attempts := if taken == 0 then map[] else map[m.event := taken])
  }

  /** Delivered, failed and acknowledged. */
  const ATTEMPT: seq<Step> := [Deliver] + ([Process(false)] + ([Ack] + []))

  lemma FailedAttempt(m: Message, published: Message, now: nat, taken: nat)
    requires m.event == published.event && m.payload.UserDeleted? && 0 <= RetryCount(m) <= 3
    ensures var s := OneEvent(published, now, taken).(main := [Entry(m, now)]);
            var failed := OneEvent(published, now, taken + 1);
            var sent := [Entry(Forwarded(m), now)];
            && LegalFrom(s, ATTEMPT)
            && After(s, ATTEMPT)
               == match RetryCount(m)
                  case 0 => failed.(retry3 := sent)
                  case 1 => failed.(retry9 := sent)
                  case 2 => failed.(retry27 := sent)
                  case _ => failed.(deadLetters := sent)
  {
    var s := OneEvent(published, now, taken).(main := [Entry(m, now)]);
    var s1 := OneEvent(published, now, taken).(inbox := [Entry(m, now)]);
    assert [Entry(m, now)][1..] == [] && [] + [Entry(m, now)] == [Entry(m, now)];
    assert Apply(s, Deliver) == s1;
    FailureForwards(s1);
    assert Bump(s1.attempts, m.event) == map[m.event := taken + 1];
    FailedAndAcked(s1);
    AfterThen(s, Deliver, [Process(false)] + ([Ack] + []));
  }

  lemma FailedAndAcked(s: World)
    requires Enabled(s, Process(false)) && s.inbox[0].message.payload.UserDeleted?
    ensures LegalFrom(s, [Process(false)] + ([Ack] + []))
    ensures After(s, [Process(false)] + ([Ack] + [])) == TakeUp(s, false).(inbox := s.inbox[1..], stage := Waiting)
  {
    TakeUpRecords(s, false);
    var s1 := TakeUp(s, false);
    assert Acknowledge(s1) == s1.(inbox := s.inbox[1..], stage := Waiting);
    AfterThen(s1, Ack, []);
    AfterThen(s, Process(false), [Ack] + []);
  }

  /** The wait in a delay queue, and the return. */
  ghost function Wait(ttl: nat, q: Queue): seq<Step> {
    [Pass(ttl)] + ([Expire(q)] + [])
  }

  lemma Waits(m: Message, published: Message, now: nat, taken: nat, ttl: nat, q: Queue)
    requires (q == Retry3 && ttl == 3000) || (q == Retry9 && ttl == 9000) || (q == Retry27 && ttl == 27000)
    ensures var s := Put(OneEvent(published, now, taken), q, [Entry(m, now)]);
            && LegalFrom(s, Wait(ttl, q))
            && After(s, Wait(ttl, q)) == OneEvent(published, now + ttl, taken).(main := [Entry(m, now + ttl)])
  {
    var s := Put(OneEvent(published, now, taken), q, [Entry(m, now)]);
    var s1 := s.(now := now + ttl);
    assert At(s1, q) == [Entry(m, now)];
    HeadLeavesExactly(s1, q);
    assert [Entry(m, now)][1..] == [] && [] + [Entry(m, now + ttl)] == [Entry(m, now + ttl)];
    AfterThen(s1, Expire(q), []);
    AfterThen(s, Pass(ttl), [Expire(q)] + []);
  }

  lemma GoesOn(front: seq<Step>, s: World, steps: seq<Step>, s': World)
    requires LeadsTo(front, s) && LegalFrom(s, steps) && After(s, steps) == s'
    ensures LeadsTo(front + steps, s')
  {
    AfterBoth(INITIAL, front, steps);
  }

  /** Failing four times, an event is a dead letter 39 seconds after it was published. */
  lemma ThirtyNineSeconds(m: Message) returns (steps: seq<Step>, s: World)
    requires m.payload.UserDeleted? && StringHeaders(m)
    ensures LeadsTo(steps, s) && s.now == 39000
    ensures |s.deadLetters| == 1 && s.deadLetters[0].message.event == m.event && s.deadLetters[0].since == 39000
  {
    assert RetryCount(m) == 0;
    var m1 := Forwarded(m);
    ForwardingKeepsContent(m);
    var m2 := Forwarded(m1);
    ForwardingKeepsContent(m1);
    var m3 := Forwarded(m2);
    ForwardingKeepsContent(m2);
    ForwardingKeepsContent(m3);
    var start := [Publish(m)] + [];
    var s0 := OneEvent(m, 0, 0).(main := [Entry(m, 0)]);
    assert [] + [Entry(m, 0)] == [Entry(m, 0)];
    AfterThen(INITIAL, Publish(m), []);
    assert LeadsTo(start, s0);
    var front1 := Leg(start, m, m, 0, 0, 3000, Retry3);
    var front2 := Leg(front1, m1, m, 3000, 1, 9000, Retry9);
    var front3 := Leg(front2, m2, m, 12000, 2, 27000, Retry27);
    FailedAttempt(m3, m, 39000, 3);
    s := OneEvent(m, 39000, 4).(deadLetters := [Entry(Forwarded(m3), 39000)]);
    GoesOn(front3, OneEvent(m, 39000, 3).(main := [Entry(m3, 39000)]), ATTEMPT, s);
    steps := front3 + ATTEMPT;
  }

  /** A failed attempt and the wait after it. */
  lemma Leg(front: seq<Step>, m: Message, published: Message, now: nat, taken: nat, ttl: nat, q: Queue)
    returns (steps: seq<Step>)
    requires m.event == published.event && m.payload.UserDeleted?
    requires LeadsTo(front, OneEvent(published, now, taken).(main := [Entry(m, now)]))
    requires (q == Retry3 && ttl == 3000 && RetryCount(m) == 0) || (q == Retry9 && ttl == 9000 && RetryCount(m) == 1)
             || (q == Retry27 && ttl == 27000 && RetryCount(m) == 2)
    ensures LeadsTo(steps, OneEvent(published, now + ttl, taken + 1).(main := [Entry(Forwarded(m), now + ttl)]))
  {
    var s := OneEvent(published, now, taken).(main := [Entry(m, now)]);
    var held := Put(OneEvent(published, now, taken + 1), q, [Entry(Forwarded(m), now)]);
    FailedAttempt(m, published, now, taken);
    GoesOn(front, s, ATTEMPT, held);
    Waits(Forwarded(m), published, now, taken + 1, ttl, q);
    GoesOn(front + ATTEMPT, held, Wait(ttl, q),
           OneEvent(published, now + ttl, taken + 1).(main := [Entry(Forwarded(m), now + ttl)]));
    steps := front + ATTEMPT + Wait(ttl, q);
  }
}
