/**
 What the retry protocol guarantees over every schedule: where each event is, what it carries, how
 long it has waited, and that it settles after a bounded number of moves.
 */
module RetryGuarantees {
  import opened Wrappers
  import opened Digits
  import opened RetryProtocol

  // ---------------------------------------------------------------- queue names

  lemma QueueNames()
    ensures NameOf(Retry3) == "user_deleted_retry_3s"
    ensures NameOf(Retry9) == "user_deleted_retry_9s"
    ensures NameOf(Retry27) == "user_deleted_retry_27s"
    ensures NameOf(Main) == "user_deleted_queue" && NameOf(DeadLetters) == "user_deleted_dlq"
  {
    assert ToDigits(3, 10) == [3];
    assert ToDigits(9, 10) == [9];
    assert ToDigits(27, 10) == [2, 7];
    assert Decimal(3) == "3" && Decimal(9) == "9" && Decimal(27) == "27";
  }

  /** The computed name is that of a declared queue, the one of the route, exactly when the counter is not negative. */
  lemma TargetIsDeclared(count: int)
    ensures TargetName(count).Some? <==> count >= 0
    ensures count >= 0 ==> Resolve(TargetName(count).value) == Route(count) && Route(count).Some?
    ensures count < 0 ==> Route(count).None?
  {
    QueueNames();
    assert Pow(3, 1) == 3 && Pow(3, 2) == 9 && Pow(3, 3) == 27;
    assert NameOf(Retry3)[|NameOf(Retry3)| - 2] == '3';
    assert NameOf(Retry9)[|NameOf(Retry9)| - 2] == '9';
    assert |NameOf(Main)| == 18 && |NameOf(Retry3)| == 21 && |NameOf(Retry27)| == 22 && |NameOf(DeadLetters)| == 16;
  }

  // ---------------------------------------------------------------- what every message carries

  /** Milliseconds spent in delay queues by the time the counter is r. */
  function Waited(r: nat): nat
  {
    if r == 0 then 0 else Waited(r - 1) + 1000 * Pow(3, r)
  }

  lemma {:induction false} WaitedClosedForm(r: nat)
    ensures 2 * Waited(r) == 1000 * (Pow(3, r + 1) - 3)
    decreases r
  {
    if r == 0 {
      assert Pow(3, 1) == 3;
    } else {
      WaitedClosedForm(r - 1);
      assert Pow(3, r + 1) == 3 * Pow(3, r);
    }
  }

  /** The events as published, and when. */
  datatype Origin = Origin(published: map<nat, Message>, born: map<nat, nat>)

  function OriginOf(s: World): Origin {
    Origin(s.published, s.born)
  }

  /** A copy carries the payload and the application headers of the event it was published as. */
  ghost predicate Faithful(o: Origin, entry: Entry) {
    var m := entry.message;
    && m.event in o.published && m.event in o.born
    && m.payload == o.published[m.event].payload
    && ApplicationHeaders(m) == ApplicationHeaders(o.published[m.event])
  }

  ghost predicate PendingEntry(o: Origin, entry: Entry, now: nat) {
    && Faithful(o, entry)
    && 0 <= RetryCount(entry.message) <= 3
    && o.born[entry.message.event] + Waited(RetryCount(entry.message)) <= entry.since <= now
  }

  ghost predicate Pending(o: Origin, entries: seq<Entry>, now: nat) {
    forall i :: 0 <= i < |entries| ==> PendingEntry(o, entries[i], now)
  }

  /** A well-formed message with the given counter that has waited at least so long. */
  ghost predicate HeldEntry(o: Origin, entry: Entry, count: nat, waited: nat, now: nat) {
    && Faithful(o, entry) && entry.message.payload.UserDeleted?
    && RetryCount(entry.message) == count
    && o.born[entry.message.event] + waited <= entry.since <= now
  }

  ghost predicate Held(o: Origin, entries: seq<Entry>, count: nat, waited: nat, now: nat) {
    forall i :: 0 <= i < |entries| ==> HeldEntry(o, entries[i], count, waited, now)
  }

  ghost predicate Finished(o: Origin, entries: seq<Entry>, wellFormed: bool) {
    forall i :: 0 <= i < |entries| ==>
      Faithful(o, entries[i]) && entries[i].message.payload.UserDeleted? == wellFormed
  }

  ghost predicate StageFits(s: World) {
    s.stage != Waiting ==>
      s.inbox != [] && s.inbox[0].message.payload.UserDeleted? == (s.stage != Dropped)
  }

  ghost predicate CarriedInv(s: World) {
    var o := OriginOf(s);
    && StageFits(s)
    && Pending(o, s.main, s.now) && Pending(o, s.inbox, s.now)
    && Held(o, s.retry3, 1, Waited(0), s.now) && Held(o, s.retry9, 2, Waited(1), s.now) && Held(o, s.retry27, 3, Waited(2), s.now)
    && Held(o, s.deadLetters, 3, Waited(3), s.now)
    && Finished(o, s.settled, true) && Finished(o, s.discarded, false)
    && s.born.Keys == s.published.Keys
  }

  /** Forwarding touches the counter and nothing else. */
  lemma ForwardingKeepsContent(m: Message)
    requires 0 <= RetryCount(m) <= 3
    ensures Forwarded(m).event == m.event && Forwarded(m).payload == m.payload
    ensures ApplicationHeaders(Forwarded(m)) == ApplicationHeaders(m)
    ensures RetryCount(Forwarded(m)) == if RetryCount(m) == 3 then 3 else RetryCount(m) + 1
    ensures RetryCount(m) == 3 ==> Forwarded(m) == m
    ensures RetryCount(m) < 3 ==>
              Forwarded(m).headers == Some(HeadersOf(m)["x-retry-count" := LongInt(RetryCount(m) + 1)])
  {
    if RetryCount(m) < 3 {
      assert ApplicationHeaders(WithCount(m, RetryCount(m) + 1)) == ApplicationHeaders(m);
    }
  }

  lemma WaitedValues()
    ensures Waited(0) == 0 && Waited(1) == 3000 && Waited(2) == 12000 && Waited(3) == 39000
  {
    assert Pow(3, 1) == 3 && Pow(3, 2) == 9 && Pow(3, 3) == 27;
  }

  /** Where a failed message goes, in full. */
  lemma FailureForwards(s: World)
    requires s.inbox != [] && 0 <= RetryCount(s.inbox[0].message) <= 3 && s.inbox[0].message.payload.UserDeleted?
    ensures var m := s.inbox[0].message;
            var s1 := s.(attempts := Bump(s.attempts, m.event), stage := Republished);
            var sent := [Entry(Forwarded(m), s.now)];
            TakeUp(s, false) ==
            match RetryCount(m)
            case 0 => s1.(retry3 := s.retry3 + sent)
            case 1 => s1.(retry9 := s.retry9 + sent)
            case 2 => s1.(retry27 := s.retry27 + sent)
            case _ => s1.(deadLetters := s.deadLetters + sent)
  {
  }

  lemma ProcessKeepsCarried(s: World, dbUp: bool)
    requires CarriedInv(s) && Enabled(s, Process(dbUp))
    ensures CarriedInv(TakeUp(s, dbUp))
  {
    var entry := s.inbox[0];
    var m := entry.message;
    assert PendingEntry(OriginOf(s), entry, s.now);
    if m.payload.UserDeleted? && !dbUp {
      FailureForwards(s);
      ForwardingKeepsContent(m);
      WaitedValues();
      var sent := Entry(Forwarded(m), s.now);
      assert Faithful(OriginOf(s), sent);
      assert HeldEntry(OriginOf(s), sent, RetryCount(sent.message), Waited(RetryCount(m)), s.now);
    }
  }

  lemma ExpireKeepsCarried(s: World, q: Queue)
    requires CarriedInv(s) && Enabled(s, Expire(q))
    ensures CarriedInv(DeadLetter(s, q))
  {
    WaitedValues();
    var entry := At(s, q)[0];
    assert Faithful(OriginOf(s), entry);
    assert PendingEntry(OriginOf(s), Entry(entry.message, s.now), s.now);
  }

  lemma PublishKeepsCarried(s: World, m: Message)
    requires CarriedInv(s) && Enabled(s, Publish(m))
    ensures CarriedInv(Apply(s, Publish(m)))
  {
    assert RetryCount(m) == 0;
    var s' := Apply(s, Publish(m));
    assert PendingEntry(OriginOf(s'), Entry(m, s.now), s.now);
    forall entry: Entry | Faithful(OriginOf(s), entry)
      ensures Faithful(OriginOf(s'), entry) && s'.born[entry.message.event] == s.born[entry.message.event]
    {
    }
  }

  lemma CrashKeepsCarried(s: World)
    requires CarriedInv(s)
    ensures CarriedInv(CrashConsumer(s))
  {
  }

  lemma PassKeepsCarried(s: World, ms: nat)
    requires CarriedInv(s)
    ensures CarriedInv(s.(now := s.now + ms))
  {
    assert forall entry: Entry :: PendingEntry(OriginOf(s), entry, s.now) ==>
        PendingEntry(OriginOf(s), entry, s.now + ms);
    assert forall entry: Entry, count: nat, waited: nat :: HeldEntry(OriginOf(s), entry, count, waited, s.now) ==>
        HeldEntry(OriginOf(s), entry, count, waited, s.now + ms);
  }

  lemma StepKeepsCarried(s: World, step: Step)
    requires CarriedInv(s) && Enabled(s, step)
    ensures CarriedInv(Apply(s, step))
  {
    match step
    case Publish(m) => PublishKeepsCarried(s, m);
    case Process(dbUp) => ProcessKeepsCarried(s, dbUp);
    case Expire(q) => ExpireKeepsCarried(s, q);
    case Crash => CrashKeepsCarried(s);
    case Pass(ms) => PassKeepsCarried(s, ms);
    case _ =>
  }

  // ---------------------------------------------------------------- where every event is

  function Copies(entries: seq<Entry>, e: nat): nat
  {
    if entries == [] then 0
    else (if entries[0].message.event == e then 1 else 0) + Copies(entries[1..], e)
  }

  lemma {:induction false} CopiesOfConcat(a: seq<Entry>, b: seq<Entry>, e: nat)
    ensures Copies(a + b, e) == Copies(a, e) + Copies(b, e)
    decreases |a|
  {
    if a == [] {
      assert a + b == b;
    } else {
      assert (a + b)[1..] == a[1..] + b;
      CopiesOfConcat(a[1..], b, e);
    }
  }

  lemma CopiesOfOne(entry: Entry, e: nat)
    ensures Copies([entry], e) == if entry.message.event == e then 1 else 0
  {
    assert [entry][1..] == [];
  }

  lemma {:induction false} NoCopies(entries: seq<Entry>, e: nat)
    requires Copies(entries, e) == 0
    ensures forall i :: 0 <= i < |entries| ==> entries[i].message.event != e
    decreases |entries|
  {
    if entries != [] {
      NoCopies(entries[1..], e);
      assert forall i :: 1 <= i < |entries| ==> entries[i] == entries[1..][i - 1];
    }
  }

  /** The deliveries still to be decided: a republished one already lives on elsewhere. */
  function LiveInbox(s: World): seq<Entry>
  {
    if s.stage == Republished && s.inbox != [] then s.inbox[1..] else s.inbox
  }

  /** All the places an event can be: queues, consumer, settled, discarded. */
  function Places(s: World, e: nat): nat
  {
    Copies(s.main, e) + Copies(s.retry3, e) + Copies(s.retry9, e) + Copies(s.retry27, e)
    + Copies(s.deadLetters, e) + Copies(LiveInbox(s), e) + Copies(s.settled, e) + Copies(s.discarded, e)
  }

  ghost predicate PlacedInv(s: World) {
    forall e :: Places(s, e) == (if e in s.published then 1 else 0) + s.repeats[e]
  }

  lemma Appended(a: seq<Entry>, entry: Entry, e: nat)
    ensures Copies(a + [entry], e) == Copies(a, e) + if entry.message.event == e then 1 else 0
  {
    CopiesOfConcat(a, [entry], e);
    CopiesOfOne(entry, e);
  }

  /** What the placing of events needs to know about the delivery being handled. */
  ghost predicate HeadFits(s: World) {
    StageFits(s) && (s.inbox != [] ==> 0 <= RetryCount(s.inbox[0].message) <= 3)
  }

  lemma CarriedHead(s: World)
    requires CarriedInv(s)
    ensures HeadFits(s)
  {
    if s.inbox != [] {
      assert PendingEntry(OriginOf(s), s.inbox[0], s.now);
    }
  }

  lemma PlacesAfterProcess(s: World, dbUp: bool, e: nat)
    requires HeadFits(s) && Enabled(s, Process(dbUp))
    ensures Places(TakeUp(s, dbUp), e) == Places(s, e)
    ensures TakeUp(s, dbUp).published == s.published && TakeUp(s, dbUp).repeats == s.repeats
  {
    var m := s.inbox[0].message;
    if m.payload.UserDeleted? && !dbUp {
      FailureForwards(s);
      ForwardingKeepsContent(m);
      PlacesAfterForwarding(s, TakeUp(s, false), Entry(Forwarded(m), s.now), e);
    }
  }

  /** The forwarded message takes the place of the delivery that no longer counts. */
  lemma PlacesAfterForwarding(s: World, s': World, sent: Entry, e: nat)
    requires s.inbox != [] && s.stage != Republished && s'.stage == Republished
    requires sent.message.event == s.inbox[0].message.event
    requires s'.inbox == s.inbox && s'.main == s.main && s'.settled == s.settled && s'.discarded == s.discarded
    requires s' == s.(attempts := s'.attempts, stage := Republished, retry3 := s.retry3 + [sent])
             || s' == s.(attempts := s'.attempts, stage := Republished, retry9 := s.retry9 + [sent])
             || s' == s.(attempts := s'.attempts, stage := Republished, retry27 := s.retry27 + [sent])
             || s' == s.(attempts := s'.attempts, stage := Republished, deadLetters := s.deadLetters + [sent])
    ensures Places(s', e) == Places(s, e)
  {
    Appended(s.retry3, sent, e);
    Appended(s.retry9, sent, e);
    Appended(s.retry27, sent, e);
    Appended(s.deadLetters, sent, e);
  }

  lemma PlacesAfterAck(s: World, e: nat)
    requires HeadFits(s) && Enabled(s, Ack)
    ensures Places(Acknowledge(s), e) == Places(s, e)
  {
    Appended(s.settled, s.inbox[0], e);
    Appended(s.discarded, s.inbox[0], e);
  }

  lemma PlacesAfterExpire(s: World, q: Queue, e: nat)
    requires Enabled(s, Expire(q))
    ensures Places(DeadLetter(s, q), e) == Places(s, e)
  {
    Appended(s.main, Entry(At(s, q)[0].message, s.now), e);
  }

  lemma PlacesAfterDeliver(s: World, e: nat)
    requires HeadFits(s) && Enabled(s, Deliver)
    ensures Places(Apply(s, Deliver), e) == Places(s, e)
  {
    if s.stage == Republished {
      assert (s.inbox + [s.main[0]])[1..] == s.inbox[1..] + [s.main[0]];
    }
    Appended(LiveInbox(s), s.main[0], e);
  }

  lemma PlacesAfterCrash(s: World, e: nat)
    requires HeadFits(s)
    ensures Places(CrashConsumer(s), e) == Places(s, e) + (CrashConsumer(s).repeats[e] - s.repeats[e])
  {
    CopiesOfConcat(s.inbox, s.main, e);
  }

  lemma ProcessKeepsPlaced(s: World, dbUp: bool)
    requires HeadFits(s) && PlacedInv(s) && Enabled(s, Process(dbUp))
    ensures PlacedInv(TakeUp(s, dbUp))
  {
    forall e ensures Places(TakeUp(s, dbUp), e) == (if e in s.published then 1 else 0) + TakeUp(s, dbUp).repeats[e] {
      assert Places(s, e) == (if e in s.published then 1 else 0) + s.repeats[e];
      PlacesAfterProcess(s, dbUp, e);
    }
  }

  lemma AckKeepsPlaced(s: World)
    requires HeadFits(s) && PlacedInv(s) && Enabled(s, Ack)
    ensures PlacedInv(Acknowledge(s))
  {
    forall e ensures Places(Acknowledge(s), e) == (if e in s.published then 1 else 0) + Acknowledge(s).repeats[e] {
      assert Places(s, e) == (if e in s.published then 1 else 0) + s.repeats[e];
      PlacesAfterAck(s, e);
    }
  }

  lemma ExpireKeepsPlaced(s: World, q: Queue)
    requires PlacedInv(s) && Enabled(s, Expire(q))
    ensures PlacedInv(DeadLetter(s, q))
  {
    forall e ensures Places(DeadLetter(s, q), e) == (if e in s.published then 1 else 0) + DeadLetter(s, q).repeats[e] {
      assert Places(s, e) == (if e in s.published then 1 else 0) + s.repeats[e];
      PlacesAfterExpire(s, q, e);
    }
  }

  lemma DeliverKeepsPlaced(s: World)
    requires HeadFits(s) && PlacedInv(s) && Enabled(s, Deliver)
    ensures PlacedInv(Apply(s, Deliver))
  {
    forall e ensures Places(Apply(s, Deliver), e) == (if e in s.published then 1 else 0) + Apply(s, Deliver).repeats[e] {
      assert Places(s, e) == (if e in s.published then 1 else 0) + s.repeats[e];
      PlacesAfterDeliver(s, e);
    }
  }

  lemma CrashKeepsPlaced(s: World)
    requires HeadFits(s) && PlacedInv(s)
    ensures PlacedInv(CrashConsumer(s))
  {
    forall e ensures Places(CrashConsumer(s), e) == (if e in s.published then 1 else 0) + CrashConsumer(s).repeats[e] {
      assert Places(s, e) == (if e in s.published then 1 else 0) + s.repeats[e];
      PlacesAfterCrash(s, e);
    }
  }

  lemma PublishKeepsPlaced(s: World, m: Message)
    requires PlacedInv(s) && Enabled(s, Publish(m))
    ensures PlacedInv(Apply(s, Publish(m)))
  {
    var s' := Apply(s, Publish(m));
    forall e ensures Places(s', e) == (if e in s'.published then 1 else 0) + s'.repeats[e] {
      assert Places(s, e) == (if e in s.published then 1 else 0) + s.repeats[e];
      Appended(s.main, Entry(m, s.now), e);
    }
  }

  lemma PassKeepsPlaced(s: World, ms: nat)
    requires PlacedInv(s)
    ensures PlacedInv(s.(now := s.now + ms))
  {
    forall e ensures Places(s.(now := s.now + ms), e) == (if e in s.published then 1 else 0) + s.repeats[e] {
      assert Places(s, e) == (if e in s.published then 1 else 0) + s.repeats[e];
    }
  }

  lemma StepKeepsPlaced(s: World, step: Step)
    requires HeadFits(s) && PlacedInv(s) && Enabled(s, step)
    ensures PlacedInv(Apply(s, step))
  {
    match step
    case Publish(m) => PublishKeepsPlaced(s, m);
    case Deliver => DeliverKeepsPlaced(s);
    case Expire(q) => ExpireKeepsPlaced(s, q);
    case Process(dbUp) => ProcessKeepsPlaced(s, dbUp);
    case Ack => AckKeepsPlaced(s);
    case Crash => CrashKeepsPlaced(s);
    case Pass(ms) => PassKeepsPlaced(s, ms);
  }

  // ---------------------------------------------------------------- how often an event is taken up

  function Attempts(s: World, e: nat): nat
  {
    if e in s.attempts then s.attempts[e] else 0
  }

  ghost predicate Tried(s: World, entries: seq<Entry>, count: nat) {
    forall i :: 0 <= i < |entries| ==> Attempts(s, entries[i].message.event) == count
  }

  ghost predicate TriedByCounter(s: World, entries: seq<Entry>) {
    forall i :: 0 <= i < |entries| ==>
      Attempts(s, entries[i].message.event) == RetryCount(entries[i].message)
  }

  /** The deliveries not decided yet. */
  function Undecided(s: World): seq<Entry>
  {
    if s.stage == Waiting || s.inbox == [] then s.inbox else s.inbox[1..]
  }

  ghost predicate AttemptsFit(s: World) {
    && TriedByCounter(s, s.main)
    && TriedByCounter(s, Undecided(s))
    && Tried(s, s.retry3, 1) && Tried(s, s.retry9, 2) && Tried(s, s.retry27, 3) && Tried(s, s.deadLetters, 4)
    && (forall e :: e in s.attempts ==> s.attempts[e] <= 4 && e in s.published)
  }

  /** Without crashes the counter header counts the attempts. */
  ghost predicate AttemptInv(s: World) {
    s.crashes == 0 ==> s.repeats == multiset{} && AttemptsFit(s)
  }

  ghost predicate Without(entries: seq<Entry>, e: nat) {
    forall i :: 0 <= i < |entries| ==> entries[i].message.event != e
  }

  /** No copy of the delivery being handled is anywhere else. */
  ghost predicate HeadIsUnique(s: World)
    requires s.inbox != []
  {
    var e := s.inbox[0].message.event;
    && Without(s.main, e) && Without(s.inbox[1..], e) && Without(s.deadLetters, e)
    && Without(s.retry3, e) && Without(s.retry9, e) && Without(s.retry27, e)
  }

  lemma OnePlaceMakesUnique(s: World)
    requires s.stage == Waiting && s.inbox != []
    requires Places(s, s.inbox[0].message.event) == 1
    ensures HeadIsUnique(s)
  {
    var e := s.inbox[0].message.event;
    assert Copies(s.inbox, e) == 1 + Copies(s.inbox[1..], e);
    NoCopies(s.inbox[1..], e);
    NoCopies(s.main, e);
    NoCopies(s.retry3, e);
    NoCopies(s.retry9, e);
    NoCopies(s.retry27, e);
    NoCopies(s.deadLetters, e);
  }

  lemma OthersKeepAttempts(s: World, s': World, event: nat, entries: seq<Entry>, count: nat)
    requires Without(entries, event) && s'.attempts == Bump(s.attempts, event)
    ensures TriedByCounter(s, entries) ==> TriedByCounter(s', entries)
    ensures Tried(s, entries, count) ==> Tried(s', entries, count)
  {
  }

  /** Counting the attempt on the delivery being handled, before anything is forwarded. */
  lemma BumpKeepsAttempts(s: World, stage: Stage)
    requires s.stage == Waiting && stage != Waiting && s.inbox != []
    requires HeadIsUnique(s) && AttemptsFit(s)
    requires s.inbox[0].message.event in s.published && 0 <= RetryCount(s.inbox[0].message) <= 3
    ensures var m := s.inbox[0].message;
            var s' := s.(attempts := Bump(s.attempts, m.event), stage := stage);
            AttemptsFit(s') && Attempts(s', m.event) == RetryCount(m) + 1
  {
    var m := s.inbox[0].message;
    var s' := s.(attempts := Bump(s.attempts, m.event), stage := stage);
    OthersKeepAttempts(s, s', m.event, s.main, 0);
    OthersKeepAttempts(s, s', m.event, s.inbox[1..], 0);
    OthersKeepAttempts(s, s', m.event, s.retry3, 1);
    OthersKeepAttempts(s, s', m.event, s.retry9, 2);
    OthersKeepAttempts(s, s', m.event, s.retry27, 3);
    OthersKeepAttempts(s, s', m.event, s.deadLetters, 4);
    assert Attempts(s, m.event) == RetryCount(m);
    assert TriedByCounter(s', Undecided(s')) by {
      assert Undecided(s') == s.inbox[1..];
      assert TriedByCounter(s, s.inbox[1..]);
    }
  }

  /** A failed attempt forwards a copy whose counter is the number of attempts, or a dead letter. */
  lemma FailureKeepsAttempts(s: World)
    requires s.stage == Waiting && s.inbox != [] && s.inbox[0].message.payload.UserDeleted?
    requires HeadIsUnique(s) && AttemptsFit(s)
    requires s.inbox[0].message.event in s.published && 0 <= RetryCount(s.inbox[0].message) <= 3
    ensures AttemptsFit(TakeUp(s, false))
  {
    var m := s.inbox[0].message;
    BumpKeepsAttempts(s, Republished);
    FailureForwards(s);
    ForwardingKeepsContent(m);
    var s1 := s.(attempts := Bump(s.attempts, m.event), stage := Republished);
    assert Undecided(TakeUp(s, false)) == Undecided(s1);
  }

  lemma ProcessKeepsAttempts(s: World, dbUp: bool)
    requires HeadFits(s) && AttemptInv(s) && Enabled(s, Process(dbUp))
    requires s.crashes == 0 ==> HeadIsUnique(s)
    requires s.inbox[0].message.event in s.published
    ensures AttemptInv(TakeUp(s, dbUp))
  {
    if s.crashes == 0 {
      var m := s.inbox[0].message;
      if m.payload.UserDeleted? && !dbUp {
        FailureForwards(s);
        FailureKeepsAttempts(s);
      } else {
        BumpKeepsAttempts(s, if m.payload.UserDeleted? then Wiped else Dropped);
      }
    }
  }

  lemma ExpireKeepsAttempts(s: World, q: Queue)
    requires CarriedInv(s) && AttemptInv(s) && Enabled(s, Expire(q))
    ensures AttemptInv(DeadLetter(s, q))
  {
    if s.crashes == 0 {
      var entry := At(s, q)[0];
      assert Attempts(s, entry.message.event) == RetryCount(entry.message);
    }
  }

  lemma PublishKeepsAttempts(s: World, m: Message)
    requires AttemptInv(s) && Enabled(s, Publish(m))
    ensures AttemptInv(Apply(s, Publish(m)))
  {
    assert RetryCount(m) == 0;
    if s.crashes == 0 {
      assert m.event !in s.attempts;
    }
  }

  lemma DeliverKeepsAttempts(s: World)
    requires StageFits(s) && AttemptInv(s) && Enabled(s, Deliver)
    ensures AttemptInv(Apply(s, Deliver))
  {
    if s.stage != Waiting {
      assert (s.inbox + [s.main[0]])[1..] == s.inbox[1..] + [s.main[0]];
    }
    assert Undecided(Apply(s, Deliver)) == Undecided(s) + [s.main[0]];
  }

  lemma AckKeepsAttempts(s: World)
    requires AttemptInv(s) && Enabled(s, Ack)
    ensures AttemptInv(Acknowledge(s))
  {
    assert Undecided(Acknowledge(s)) == Undecided(s);
    SameAttempts(s, Acknowledge(s));
  }

  lemma SameAttempts(s: World, s': World)
    requires AttemptInv(s) && Undecided(s') == Undecided(s)
    requires s'.main == s.main && s'.retry3 == s.retry3 && s'.retry9 == s.retry9 && s'.retry27 == s.retry27
    requires s'.deadLetters == s.deadLetters && s'.attempts == s.attempts && s'.published == s.published
    requires s'.crashes == s.crashes && s'.repeats == s.repeats
    ensures AttemptInv(s')
  {
  }

  lemma PassKeepsAttempts(s: World, ms: nat)
    requires AttemptInv(s)
    ensures AttemptInv(s.(now := s.now + ms))
  {
    assert Undecided(s.(now := s.now + ms)) == Undecided(s);
  }

  lemma PlacedHead(s: World)
    requires CarriedInv(s) && PlacedInv(s) && s.inbox != [] && s.stage == Waiting
    requires s.crashes == 0 ==> s.repeats == multiset{}
    ensures s.inbox[0].message.event in s.published
    ensures s.crashes == 0 ==> HeadIsUnique(s)
  {
    assert PendingEntry(OriginOf(s), s.inbox[0], s.now);
    if s.crashes == 0 {
      assert Places(s, s.inbox[0].message.event) == 1;
      OnePlaceMakesUnique(s);
    }
  }

  lemma BrokerStepKeepsAttempts(s: World, step: Step)
    requires CarriedInv(s) && AttemptInv(s) && Enabled(s, step)
    requires step.Publish? || step.Deliver? || step.Expire? || step.Pass?
    ensures AttemptInv(Apply(s, step))
  {
    if step.Publish? {
      PublishKeepsAttempts(s, step.message);
    } else if step.Deliver? {
      DeliverKeepsAttempts(s);
    } else if step.Expire? {
      ExpireKeepsAttempts(s, step.queue);
    } else {
      PassKeepsAttempts(s, step.milliseconds);
    }
  }

  lemma ProcessStepKeepsAttempts(s: World, dbUp: bool)
    requires CarriedInv(s) && PlacedInv(s) && AttemptInv(s) && Enabled(s, Process(dbUp))
    ensures AttemptInv(TakeUp(s, dbUp))
  {
    CarriedHead(s);
    PlacedHead(s);
    ProcessKeepsAttempts(s, dbUp);
  }

  lemma StepKeepsAttempts(s: World, step: Step)
    requires CarriedInv(s) && PlacedInv(s) && AttemptInv(s) && Enabled(s, step)
    ensures AttemptInv(Apply(s, step))
  {
    match step
    case Process(dbUp) => ProcessStepKeepsAttempts(s, dbUp);
    case Ack => AckKeepsAttempts(s);
    case Crash => assert CrashConsumer(s).crashes > 0;
    case _ => BrokerStepKeepsAttempts(s, step);
  }

  // ---------------------------------------------------------------- runs

  ghost predicate Inv(s: World) {
    CarriedInv(s) && PlacedInv(s) && AttemptInv(s)
  }

  lemma StepKeepsInv(s: World, step: Step)
    requires Inv(s) && Enabled(s, step)
    ensures Inv(Apply(s, step))
  {
    StepKeepsCarried(s, step);
    CarriedHead(s);
    StepKeepsPlaced(s, step);
    StepKeepsAttempts(s, step);
  }

  lemma InitiallyInv()
    ensures Inv(INITIAL)
  {
  }

  lemma {:induction false} ScheduleKeepsInv(s: World, steps: seq<Step>)
    requires Inv(s) && LegalFrom(s, steps)
    ensures Inv(After(s, steps))
    decreases |steps|
  {
    if steps != [] {
      StepKeepsInv(s, steps[0]);
      ScheduleKeepsInv(Apply(s, steps[0]), steps[1..]);
    }
  }

  /** The schedule may be taken from the empty system, and leads here. */
  ghost predicate LeadsTo(steps: seq<Step>, s: World) {
    LegalFrom(INITIAL, steps) && After(INITIAL, steps) == s
  }

  lemma {:induction false} Reachable(steps: seq<Step>, s: World)
    requires LeadsTo(steps, s)
    ensures Inv(s)
  {
    InitiallyInv();
    ScheduleKeepsInv(INITIAL, steps);
  }

  // ---------------------------------------------------------------- what the schedule did

  /** Crashes that fell between a republication of the event and its acknowledgement. */
  ghost function Repeats(s: World, steps: seq<Step>, e: nat): nat
    requires LegalFrom(s, steps)
    decreases |steps|
  {
    if steps == [] then 0
    else
      (if steps[0] == Crash && s.stage == Republished && s.inbox != [] && s.inbox[0].message.event == e then 1 else 0)
      + Repeats(Apply(s, steps[0]), steps[1..], e)
  }

  /** How often the event was taken up. */
  ghost function Taken(s: World, steps: seq<Step>, e: nat): nat
    requires LegalFrom(s, steps)
    decreases |steps|
  {
    if steps == [] then 0
    else
      (if steps[0].Process? && s.inbox[0].message.event == e then 1 else 0)
      + Taken(Apply(s, steps[0]), steps[1..], e)
  }

  lemma StepRecords(s: World, step: Step, e: nat)
    requires Enabled(s, step)
    ensures Apply(s, step).repeats[e]
            == s.repeats[e] + if step == Crash && s.stage == Republished && s.inbox != [] && s.inbox[0].message.event == e
                              then 1 else 0
    ensures Attempts(Apply(s, step), e)
            == Attempts(s, e) + if step.Process? && s.inbox[0].message.event == e then 1 else 0
    ensures Apply(s, step).crashes == s.crashes + if step == Crash then 1 else 0
  {
    if step.Process? {
      TakeUpRecords(s, step.dbUp);
    } else if step.Ack? {
      AckRecords(s);
    } else if step.Expire? {
      ExpireRecords(s, step.queue);
    }
  }

  lemma TakeUpRecords(s: World, dbUp: bool)
    requires s.inbox != []
    ensures var s' := TakeUp(s, dbUp);
            && s'.repeats == s.repeats && s'.crashes == s.crashes && s'.inbox == s.inbox
            && s'.attempts == Bump(s.attempts, s.inbox[0].message.event)
            && (s.inbox[0].message.payload.UserDeleted? && !dbUp ==> s'.stage == Republished)
  {
  }

  lemma AckRecords(s: World)
    requires s.inbox != []
    ensures var s' := Acknowledge(s);
            s'.repeats == s.repeats && s'.crashes == s.crashes && s'.attempts == s.attempts
  {
  }

  lemma ExpireRecords(s: World, q: Queue)
    requires At(s, q) != []
    ensures var s' := DeadLetter(s, q);
            s'.repeats == s.repeats && s'.crashes == s.crashes && s'.attempts == s.attempts
  {
  }

  lemma {:induction false} RunRecords(s: World, steps: seq<Step>, e: nat)
    requires LegalFrom(s, steps)
    ensures After(s, steps).repeats[e] == s.repeats[e] + Repeats(s, steps, e)
    ensures Attempts(After(s, steps), e) == Attempts(s, e) + Taken(s, steps, e)
    ensures After(s, steps).crashes == s.crashes <==> Crash !in steps
    ensures After(s, steps).crashes >= s.crashes
    decreases |steps|
  {
    if steps != [] {
      StepRecords(s, steps[0], e);
      assert steps == [steps[0]] + steps[1..];
      RunRecords(Apply(s, steps[0]), steps[1..], e);
    }
  }

  /**
   Conservation. A published event is in exactly one place, plus one more for every crash that fell
   between a republication of it and the acknowledgement; without crashes, in exactly one.
   */
  lemma {:induction false} EventsAreConserved(steps: seq<Step>, s: World, e: nat)
    requires LeadsTo(steps, s) && e in s.published
    ensures Places(s, e) == 1 + Repeats(INITIAL, steps, e)
    ensures Crash !in steps ==> Places(s, e) == 1
  {
    Reachable(steps, s);
    RunRecords(INITIAL, steps, e);
  }

  /**
   Content. A copy in a delay queue carries the counter of that queue, a dead letter carries three;
   both have the payload and application headers they were published with, and a dead letter has
   spent at least thirty-nine seconds on its way.
   */
  lemma {:induction false} QueuesHoldWhatTheySay(steps: seq<Step>, s: World, q: Queue, i: nat)
    requires LeadsTo(steps, s) && i < |At(s, q)|
    ensures var entry := At(s, q)[i];
            && Faithful(OriginOf(s), entry)
            && (q == Retry3 ==> RetryCount(entry.message) == 1)
            && (q == Retry9 ==> RetryCount(entry.message) == 2)
            && (q == Retry27 ==> RetryCount(entry.message) == 3)
            && (q == Main ==> 0 <= RetryCount(entry.message) <= 3
                              && entry.since >= s.born[entry.message.event] + Waited(RetryCount(entry.message)))
            && (q == DeadLetters ==> RetryCount(entry.message) == 3
                                     && entry.since >= s.born[entry.message.event] + 39000)
  {
    Reachable(steps, s);
    WaitedValues();
    var entry := At(s, q)[i];
    if q == Main {
      assert PendingEntry(OriginOf(s), entry, s.now);
    }
  }

  /** Only well-formed events settle, only malformed ones are discarded, and neither was altered. */
  lemma {:induction false} OutcomesFitThePayload(steps: seq<Step>, s: World, i: nat)
    requires LeadsTo(steps, s)
    ensures i < |s.settled| ==>
              Faithful(OriginOf(s), s.settled[i])
              && s.settled[i].message.payload.UserDeleted?
    ensures i < |s.discarded| ==>
              Faithful(OriginOf(s), s.discarded[i])
              && s.discarded[i].message.payload.Malformed?
  {
    Reachable(steps, s);
  }

  /** Without crashes no event is taken up more than four times. */
  lemma {:induction false} AtMostFourAttempts(steps: seq<Step>, s: World, e: nat)
    requires LeadsTo(steps, s) && Crash !in steps
    ensures Taken(INITIAL, steps, e) <= 4
  {
    Reachable(steps, s);
    RunRecords(INITIAL, steps, e);
  }
}
