/**
 The retry protocol of user-deleted events: main queue, three delay queues that dead-letter back to
 it, and a dead-letter queue, hopped by a counter header. One step is a stretch between two awaits of
 the consumer, a broker move, the passing of time, or a crash.
 */
module RetryProtocol {
  import opened Wrappers
  import opened Digits

  const RETRY_HEADER := "x-retry-count"
  const MAX_RETRIES := 3

  datatype HeaderValue = LongInt(n: int) | LongString(s: string)

  type Headers = map<string, HeaderValue>

  /** The JSON of a deleted user, or bytes that do not parse as such. */
  datatype Payload = UserDeleted(userId: int) | Malformed(bytes: string)

  /** `event` is the identity of the published event, which the broker does not see. */
  datatype Message = Message(event: nat, payload: Payload, headers: Option<Headers>)

  /** A message and the time in milliseconds at which it entered the queue it is in. */
  datatype Entry = Entry(message: Message, since: nat)

  // ---------------------------------------------------------------- the counter header

  function HeadersOf(m: Message): Headers
  {
    match m.headers case Some(h) => h case None => map[]
  }

  /** The counter, if the header is there with an integer value; zero otherwise. */
  function RetryCount(m: Message): int
  {
    if RETRY_HEADER in HeadersOf(m) && HeadersOf(m)[RETRY_HEADER].LongInt?
    then HeadersOf(m)[RETRY_HEADER].n else 0
  }

  function WithCount(m: Message, count: int): Message
  {
    m.(headers := Some(HeadersOf(m)[RETRY_HEADER := LongInt(count)]))
  }

  /** The headers the protocol does not own. */
  function ApplicationHeaders(m: Message): Headers
  {
    HeadersOf(m) - {RETRY_HEADER}
  }

  // ---------------------------------------------------------------- topology

  datatype Queue = Main | Retry3 | Retry9 | Retry27 | DeadLetters

  function Decimal(n: nat): string
  {
    var ds := ToDigits(n, 10);
    seq(|ds|, i requires 0 <= i < |ds| && ds[i] < 10 => ('0' as int + ds[i]) as char)
  }

  function RetryQueueName(delaySeconds: nat): string
  {
    "user_deleted_retry_" + Decimal(delaySeconds) + "s"
  }

  function NameOf(q: Queue): string
  {
    match q
    case Main => "user_deleted_queue"
    case Retry3 => RetryQueueName(3)
    case Retry9 => RetryQueueName(9)
    case Retry27 => RetryQueueName(27)
    case DeadLetters => "user_deleted_dlq"
  }

  /** The default exchange routes to the queue of that name; other names are unroutable. */
  function Resolve(name: string): Option<Queue>
  {
    if name == NameOf(Main) then Some(Main)
    else if name == NameOf(Retry3) then Some(Retry3)
    else if name == NameOf(Retry9) then Some(Retry9)
    else if name == NameOf(Retry27) then Some(Retry27)
    else if name == NameOf(DeadLetters) then Some(DeadLetters)
    else None
  }

  /** Message time-to-live in milliseconds of the queues that dead-letter to the main queue. */
  function TimeToLive(q: Queue): Option<nat>
  {
    match q
    case Retry3 => Some(3 * 1000)
    case Retry9 => Some(9 * 1000)
    case Retry27 => Some(27 * 1000)
    case _ => None
  }

  /** The name computed for a failed message; a negative counter has no power to take. */
  function TargetName(count: int): Option<string>
  {
    if count >= MAX_RETRIES then Some("user_deleted_dlq")
    else if count >= 0 then Some(RetryQueueName(Pow(3, count + 1)))
    else None
  }

  /** The queue a failed message moves to; TargetIsDeclared ties it to the computed name. */
  function Route(count: int): Option<Queue>
  {
    if count >= MAX_RETRIES then Some(DeadLetters)
    else if count == 0 then Some(Retry3)
    else if count == 1 then Some(Retry9)
    else if count == 2 then Some(Retry27)
    else None
  }

  /** What is published for a failed message: dead letters unchanged, retries with the next count. */
  function Forwarded(m: Message): Message
  {
    if RetryCount(m) >= MAX_RETRIES then m else WithCount(m, RetryCount(m) + 1)
  }

  // ---------------------------------------------------------------- worlds

  /** How far the consumer is with the first delivery of its inbox. */
  datatype Stage = Waiting | Wiped | Dropped | Republished

  /**
   `inbox` are the unacknowledged deliveries. History: `settled` and `discarded` by acknowledgement,
   what was published and when, how often each event was taken up, how often a crash fell between its
   republication and the acknowledgement, and the number of crashes.
   */
  datatype World = World(
    now: nat,
    main: seq<Entry>,
    retry3: seq<Entry>,
    retry9: seq<Entry>,
    retry27: seq<Entry>,
    deadLetters: seq<Entry>,
    inbox: seq<Entry>,
    stage: Stage,
    settled: seq<Entry>,
    discarded: seq<Entry>,
    published: map<nat, Message>,
    born: map<nat, nat>,
    attempts: map<nat, nat>,
    repeats: multiset<nat>,
    crashes: nat)

  const INITIAL: World :=
    World(0, [], [], [], [], [], [], Waiting, [], [], map[], map[], map[], multiset{}, 0)

  function At(s: World, q: Queue): seq<Entry>
  {
    match q
    case Main => s.main
    case Retry3 => s.retry3
    case Retry9 => s.retry9
    case Retry27 => s.retry27
    case DeadLetters => s.deadLetters
  }

  function Put(s: World, q: Queue, entries: seq<Entry>): World
  {
    match q
    case Main => s.(main := entries)
    case Retry3 => s.(retry3 := entries)
    case Retry9 => s.(retry9 := entries)
    case Retry27 => s.(retry27 := entries)
    case DeadLetters => s.(deadLetters := entries)
  }

  /** Publishing is accepted by the broker; a message without a queue is gone. */
  function BasicPublish(s: World, target: Option<Queue>, m: Message): World
  {
    match target
    case Some(q) => Put(s, q, At(s, q) + [Entry(m, s.now)])
    case None => s
  }

  // ---------------------------------------------------------------- steps

  datatype Step =
    | Publish(message: Message)
    | Deliver
    | Expire(queue: Queue)
    | Process(dbUp: bool)
    | Ack
    | Pass(milliseconds: nat)
    | Crash

  /** Publishers attach tracing headers only, and those are strings. */
  predicate StringHeaders(m: Message) {
    forall k :: k in HeadersOf(m) ==> HeadersOf(m)[k].LongString?
  }

  predicate Enabled(s: World, step: Step) {
    match step
    case Publish(m) => m.event !in s.published && StringHeaders(m)
    case Deliver => s.main != []
    case Expire(q) =>
      TimeToLive(q).Some? && At(s, q) != [] && s.now >= At(s, q)[0].since + TimeToLive(q).value
    case Process(_) => s.stage == Waiting && s.inbox != []
    case Ack => s.stage != Waiting && s.inbox != []
    case Pass(_) => true
    case Crash => true
  }

  function Bump(attempts: map<nat, nat>, event: nat): map<nat, nat>
  {
    attempts[event := (if event in attempts then attempts[event] else 0) + 1]
  }

  /** One iteration of the consumer up to the acknowledgement. */
  function TakeUp(s: World, dbUp: bool): World
    requires s.inbox != []
  {
    var m := s.inbox[0].message;
    var s1 := s.(attempts := Bump(s.attempts, m.event));
    match m.payload
    case Malformed(_) => s1.(stage := Dropped)
    case UserDeleted(_) =>
      if dbUp then s1.(stage := Wiped)
      else BasicPublish(s1, Route(RetryCount(m)), Forwarded(m)).(stage := Republished)
  }

  function Acknowledge(s: World): World
    requires s.inbox != []
  {
    var s1 := s.(inbox := s.inbox[1..], stage := Waiting);
    match s.stage
    case Wiped => s1.(settled := s.settled + [s.inbox[0]])
    case Dropped => s1.(discarded := s.discarded + [s.inbox[0]])
    case _ => s1
  }

  /** Unacknowledged deliveries return to the head of their queue. */
  function CrashConsumer(s: World): World
  {
    s.(main := s.inbox + s.main, inbox := [], stage := Waiting, crashes := s.crashes + 1,
       repeats := if s.stage == Republished && s.inbox != [] then s.repeats + multiset{s.inbox[0].message.event}
                  else s.repeats)
  }

  function DeadLetter(s: World, q: Queue): World
    requires At(s, q) != []
  {
    var s1 := Put(s, q, At(s, q)[1..]);
    s1.(main := s1.main + [Entry(At(s, q)[0].message, s.now)])
  }

  function Apply(s: World, step: Step): World
    requires Enabled(s, step)
  {
    match step
    case Publish(m) =>
      s.(main := s.main + [Entry(m, s.now)],
         published := s.published[m.event := m], born := s.born[m.event := s.now])
    case Deliver => s.(main := s.main[1..], inbox := s.inbox + [s.main[0]])
    case Expire(q) => DeadLetter(s, q)
    case Process(dbUp) => TakeUp(s, dbUp)
    case Ack => Acknowledge(s)
    case Pass(ms) => s.(now := s.now + ms)
    case Crash => CrashConsumer(s)
  }

  // ---------------------------------------------------------------- schedules

  /** A schedule whose every step is enabled where it is taken. */
  predicate LegalFrom(s: World, steps: seq<Step>)
    decreases |steps|
  {
    steps == [] || (Enabled(s, steps[0]) && LegalFrom(Apply(s, steps[0]), steps[1..]))
  }

  function After(s: World, steps: seq<Step>): World
    requires LegalFrom(s, steps)
    decreases |steps|
  {
    if steps == [] then s else After(Apply(s, steps[0]), steps[1..])
  }

  lemma AfterThen(s: World, first: Step, rest: seq<Step>)
    requires Enabled(s, first) && LegalFrom(Apply(s, first), rest)
    ensures LegalFrom(s, [first] + rest) && After(s, [first] + rest) == After(Apply(s, first), rest)
  {
    assert ([first] + rest)[1..] == rest;
  }

  lemma {:induction false} AfterBoth(s: World, front: seq<Step>, rest: seq<Step>)
    requires LegalFrom(s, front) && LegalFrom(After(s, front), rest)
    ensures LegalFrom(s, front + rest) && After(s, front + rest) == After(After(s, front), rest)
    decreases |front|
  {
    if front == [] {
      assert front + rest == rest;
    } else {
      AfterBoth(Apply(s, front[0]), front[1..], rest);
      assert (front + rest)[1..] == front[1..] + rest && (front + rest)[0] == front[0];
    }
  }
}
