/**
 The click consumer against its broker channel and the urls table, as a state machine whose steps
 are the stretches between two awaits. Every step of the loop may be interleaved with publishing,
 delivering, row creation, row deletion and a crash of the process.
 */
module ClickProtocol {
  import opened Wrappers
  import opened ClickCounts
  import opened Digits

  /** A click event. The payload is the short code, or bytes that are not valid UTF-8. */
  datatype Event = Event(id: nat, code: Option<string>)

  datatype Delivery = Delivery(tag: nat, event: Event)

  /**
   The queue and the one consuming channel. `handled` are the unacknowledged deliveries the loop has
   taken from its stream, `buffered` those still waiting in it; there is no prefetch limit.
   */
  datatype Broker = Broker(
    published: set<Event>,
    ready: multiset<Event>,
    handled: seq<Delivery>,
    buffered: seq<Delivery>,
    nextTag: nat,
    acked: seq<Event>)

  /** Where the loop is suspended. */
  datatype Phase = Selecting | Flushing | Acking | BackingOff

  datatype Loop = Loop(
    batch: Batch,
    totalClicks: nat,
    lastTag: Option<nat>,
    failures: nat,
    phase: Phase,
    backoffs: seq<nat>)

  /**
   History. `flushed` are the clicks committed by all flushes, `dropped` those that crashes took out
   of memory, `requeued` the handled clicks given back to the queue, and `lost` the codes that some
   flush carried while they had no row, or whose row was deleted.
   */
  datatype Ledger = Ledger(
    flushed: multiset<string>,
    dropped: multiset<string>,
    requeued: multiset<string>,
    lost: set<string>)

  datatype World = World(loop: Loop, broker: Broker, counts: map<string, nat>, ledger: Ledger)

  const FLUSH_AT: nat := 17

  const FRESH_LOOP: Loop := Loop(map[], 0, None, 0, Selecting, [])

  const INITIAL: World := World(
    FRESH_LOOP,
    Broker({}, multiset{}, [], [], 1, []),
    map[],
    Ledger(multiset{}, multiset{}, multiset{}, {}))

  // ---------------------------------------------------------------- broker

  function Clicks(events: seq<Event>): multiset<string>
  {
    if events == [] then multiset{}
    else (if events[0].code.Some? then multiset{events[0].code.value} else multiset{}) + Clicks(events[1..])
  }

  function Events(ds: seq<Delivery>): (es: seq<Event>)
    ensures |es| == |ds|
  {
    seq(|ds|, i requires 0 <= i < |ds| => ds[i].event)
  }

  /** The deliveries a cumulative acknowledgement covers: up to and including the tag. */
  function UpTo(ds: seq<Delivery>, tag: nat): seq<Delivery>
  {
    if ds == [] then []
    else (if ds[0].tag <= tag then [ds[0]] else []) + UpTo(ds[1..], tag)
  }

  function Beyond(ds: seq<Delivery>, tag: nat): seq<Delivery>
  {
    if ds == [] then []
    else (if ds[0].tag <= tag then [] else [ds[0]]) + Beyond(ds[1..], tag)
  }

  function AckUpTo(b: Broker, tag: nat): Broker
  {
    b.(handled := Beyond(b.handled, tag), buffered := Beyond(b.buffered, tag),
       acked := b.acked + Events(UpTo(b.handled, tag)) + Events(UpTo(b.buffered, tag)))
  }

  function NackUpTo(b: Broker, tag: nat): Broker
  {
    b.(handled := Beyond(b.handled, tag), buffered := Beyond(b.buffered, tag),
       ready := b.ready + multiset(Events(UpTo(b.handled, tag))) + multiset(Events(UpTo(b.buffered, tag))))
  }

  // ---------------------------------------------------------------- steps

  datatype Step =
    | Publish(event: Event)
    | Deliver(event: Event)
    | InsertRow(code: string)
    | DeleteRow(code: string)
    | Take
    | Tick
    | FlushCommits
    | FlushFails
    | Ack
    | Nack
    | Crash

  ghost predicate Enabled(s: World, step: Step) {
    match step
    case Publish(e) => forall p :: p in s.broker.published ==> p.id != e.id
    case Deliver(e) => e in s.broker.ready
    case InsertRow(c) => c !in s.counts
    case DeleteRow(c) => c in s.counts
    case Take => s.loop.phase == Selecting && s.broker.buffered != []
    case Tick => s.loop.phase == Selecting
    case FlushCommits => s.loop.phase == Flushing
    case FlushFails => s.loop.phase == Flushing
    case Ack => s.loop.phase == Acking
    case Nack => s.loop.phase == BackingOff
    case Crash => true
  }

  /** Seconds slept before the n-th retry of a failure streak, counting from zero. */
  function BackoffSeconds(failures: nat): nat
  {
    Pow(3, (if failures < 2 then failures else 2) + 1)
  }

  ghost function TakeDelivery(s: World): World
    requires s.broker.buffered != []
  {
    var d := s.broker.buffered[0];
    var broker := s.broker.(handled := s.broker.handled + [d], buffered := s.broker.buffered[1..]);
    match d.event.code
    case None => s.(broker := broker)
    case Some(code) =>
      var total := s.loop.totalClicks + 1;
      s.(broker := broker,
         loop := s.loop.(
           batch := s.loop.batch[code := Get(s.loop.batch, code) + 1],
           totalClicks := total,
           lastTag := Some(d.tag),
           phase := if total >= FLUSH_AT then Flushing else Selecting))
  }

  ghost function CommitBatch(s: World): World
  {
    s.(counts := AddBatch(s.counts, s.loop.batch),
       loop := s.loop.(failures := 0, backoffs := [], phase := Acking),
       ledger := s.ledger.(flushed := s.ledger.flushed + Bag(s.loop.batch),
                           lost := s.ledger.lost + (s.loop.batch.Keys - s.counts.Keys)))
  }

  ghost function FailBatch(s: World): World
  {
    s.(loop := s.loop.(failures := s.loop.failures + 1, phase := BackingOff,
                       backoffs := s.loop.backoffs + [BackoffSeconds(s.loop.failures)]))
  }

  ghost function AckBatch(s: World): World
  {
    s.(broker := if s.loop.lastTag.Some? then AckUpTo(s.broker, s.loop.lastTag.value) else s.broker,
       loop := s.loop.(batch := map[], totalClicks := 0, lastTag := None, phase := Selecting))
  }

  ghost function NackBatch(s: World): World
  {
    if s.loop.lastTag.Some? then
      s.(broker := NackUpTo(s.broker, s.loop.lastTag.value),
         loop := s.loop.(lastTag := None, phase := Selecting),
         ledger := s.ledger.(requeued := s.ledger.requeued + Clicks(Events(UpTo(s.broker.handled, s.loop.lastTag.value)))))
    else
      s.(loop := s.loop.(phase := Selecting))
  }

  /** The process dies: the channel closes, every unacknowledged delivery returns, memory is gone. */
  ghost function CrashProcess(s: World): World
  {
    s.(broker := s.broker.(
         ready := s.broker.ready + multiset(Events(s.broker.handled)) + multiset(Events(s.broker.buffered)),
         handled := [], buffered := [], nextTag := 1),
       loop := FRESH_LOOP,
       ledger := s.ledger.(dropped := s.ledger.dropped + Unflushed(s),
                           requeued := s.ledger.requeued + Clicks(Events(s.broker.handled))))
  }

  /** The clicks in memory that no commit has written yet. */
  ghost function Unflushed(s: World): multiset<string>
  {
    if s.loop.phase == Acking then multiset{} else Bag(s.loop.batch)
  }

  ghost function Apply(s: World, step: Step): World
    requires Enabled(s, step)
  {
    match step
    case Publish(e) =>
      s.(broker := s.broker.(published := s.broker.published + {e}, ready := s.broker.ready + multiset{e}))
    case Deliver(e) =>
      s.(broker := s.broker.(ready := s.broker.ready - multiset{e}, nextTag := s.broker.nextTag + 1,
                             buffered := s.broker.buffered + [Delivery(s.broker.nextTag, e)]))
    case InsertRow(c) => s.(counts := s.counts[c := 0])
    case DeleteRow(c) => s.(counts := s.counts - {c}, ledger := s.ledger.(lost := s.ledger.lost + {c}))
    case Take => TakeDelivery(s)
    case Tick => if s.loop.batch != map[] then s.(loop := s.loop.(phase := Flushing)) else s
    case FlushCommits => CommitBatch(s)
    case FlushFails => FailBatch(s)
    case Ack => AckBatch(s)
    case Nack => NackBatch(s)
    case Crash => CrashProcess(s)
  }

  // ---------------------------------------------------------------- schedules

  /** A schedule whose every step is enabled where it is taken. */
  ghost predicate LegalFrom(s: World, steps: seq<Step>)
    decreases |steps|
  {
    steps == [] || (Enabled(s, steps[0]) && LegalFrom(Apply(s, steps[0]), steps[1..]))
  }

  ghost function After(s: World, steps: seq<Step>): World
    requires LegalFrom(s, steps)
    decreases |steps|
  {
    if steps == [] then s else After(Apply(s, steps[0]), steps[1..])
  }

  lemma AfterThen(s: World, first: Step, rest: seq<Step>)
    requires Enabled(s, first) && LegalFrom(Apply(s, first), rest)
    ensures LegalFrom(s, [first] + rest) && After(s, [first] + rest) == After(Apply(s, first), rest)
  {
    assert ([first] + rest)[1..] == rest;
  }

  lemma HeadApart<T>(front: seq<T>, rest: seq<T>)
    requires front != []
    ensures [front[0]] + (front[1..] + rest) == front + rest
  {
  }

  lemma NothingInFront<T>(rest: seq<T>)
    ensures [] + rest == rest
  {
  }

  lemma Peel(s: World, steps: seq<Step>)
    requires steps != [] && LegalFrom(s, steps)
    ensures Enabled(s, steps[0]) && LegalFrom(Apply(s, steps[0]), steps[1..])
    ensures After(s, steps) == After(Apply(s, steps[0]), steps[1..])
  {
  }

  lemma {:induction false} AfterBoth(s: World, front: seq<Step>, rest: seq<Step>)
    requires LegalFrom(s, front) && LegalFrom(After(s, front), rest)
    ensures LegalFrom(s, front + rest) && After(s, front + rest) == After(After(s, front), rest)
    decreases |front|
  {
    if front == [] {
      NothingInFront(rest);
    } else {
      Peel(s, front);
      AfterBoth(Apply(s, front[0]), front[1..], rest);
      AfterThen(s, front[0], front[1..] + rest);
      HeadApart(front, rest);
    }
  }
}
