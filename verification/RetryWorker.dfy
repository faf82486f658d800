/**
 The spawned consumer of user-deleted events: the loop over its deliveries, with the header, the
 delay and the queue name computed as text. It is proved against the steps of the retry protocol.
 */
module RetryWorker {
  import opened Wrappers
  import opened Digits
  import opened RetryProtocol
  import opened RetryGuarantees

  /** Publishing on the default exchange, where the routing key is a queue name. */
  function PublishTo(s: World, routingKey: string, m: Message): World
  {
    BasicPublish(s, Resolve(routingKey), m)
  }

  ghost predicate CountNotNegative(m: Message) {
    RetryCount(m) >= 0
  }

  /** What the failure branch publishes, and where. */
  method Reroute(s: World, m: Message) returns (s': World)
    requires CountNotNegative(m)
    ensures s' == BasicPublish(s, Route(RetryCount(m)), Forwarded(m))
  {
    var retryCount := 0;
    if m.headers.Some? && RETRY_HEADER in m.headers.value && m.headers.value[RETRY_HEADER].LongInt? {
      retryCount := m.headers.value[RETRY_HEADER].n;
    }
    TargetIsDeclared(retryCount);
    if retryCount >= MAX_RETRIES {
      s' := PublishTo(s, "user_deleted_dlq", m);
    } else {
      var delaySecs := Pow(3, retryCount + 1);
      var targetQueue := RetryQueueName(delaySecs);
      var headers := if m.headers.Some? then m.headers.value else map[];
      headers := headers[RETRY_HEADER := LongInt(retryCount + 1)];
      s' := PublishTo(s, targetQueue, m.(headers := Some(headers)));
    }
  }

  // ---------------------------------------------------------------- one delivery

  /** Steps of the broker and the clock, which go on while the consumer is suspended. */
  predicate Outside(step: Step) {
    step.Publish? || step.Deliver? || step.Expire? || step.Pass?
  }

  /** One iteration: what goes on until a delivery is there and after it is dealt with, and the database's answer. */
  datatype Round = Round(waiting: seq<Step>, dbUp: bool, settling: seq<Step>)

  predicate Meanwhile(s: World, steps: seq<Step>) {
    LegalFrom(s, steps) && forall i :: 0 <= i < |steps| ==> Outside(steps[i])
  }

  lemma {:induction false} MeanwhileKeepsHead(s: World, steps: seq<Step>)
    requires Meanwhile(s, steps)
    ensures After(s, steps).stage == s.stage && |After(s, steps).inbox| >= |s.inbox|
    ensures s.inbox != [] ==> After(s, steps).inbox[0] == s.inbox[0]
    decreases |steps|
  {
    if steps != [] {
      assert Outside(steps[0]);
      assert forall i :: 0 <= i < |steps| - 1 ==> steps[1..][i] == steps[i + 1];
      MeanwhileKeepsHead(Apply(s, steps[0]), steps[1..]);
    }
  }

  ghost predicate PossibleDelivery(s: World, dbUp: bool, settling: seq<Step>) {
    Enabled(s, Process(dbUp)) && Meanwhile(TakeUp(s, dbUp), settling)
  }

  /** The world after the delivery has been taken up and acknowledged. */
  ghost function AfterDelivery(s: World, dbUp: bool, settling: seq<Step>): World
    requires PossibleDelivery(s, dbUp, settling)
  {
    MeanwhileKeepsHead(TakeUp(s, dbUp), settling);
    Acknowledge(After(TakeUp(s, dbUp), settling))
  }

  /** One delivery: wipe the user's rows, reroute on failure, discard what does not parse; then acknowledge. */
  method HandleDelivery(s: World, dbUp: bool, settling: seq<Step>) returns (s': World)
    requires PossibleDelivery(s, dbUp, settling) && CountNotNegative(s.inbox[0].message)
    ensures s' == AfterDelivery(s, dbUp, settling)
  {
    var m := s.inbox[0].message;
    s' := s.(attempts := Bump(s.attempts, m.event));
    match m.payload {
      case UserDeleted(_) =>
        if dbUp {
          s' := s'.(stage := Wiped);
        } else {
          s' := Reroute(s', m);
          s' := s'.(stage := Republished);
        }
      case Malformed(_) =>
        s' := s'.(stage := Dropped);
    }
    MeanwhileKeepsHead(s', settling);
    s' := After(s', settling);
    if s'.stage == Wiped {
      s' := s'.(settled := s'.settled + [s'.inbox[0]]);
    } else if s'.stage == Dropped {
      s' := s'.(discarded := s'.discarded + [s'.inbox[0]]);
    }
    s' := s'.(inbox := s'.inbox[1..], stage := Waiting);
  }

  // ---------------------------------------------------------------- the loop

  ghost predicate PossibleRounds(s: World, rounds: seq<Round>)
    decreases |rounds|
  {
    rounds == [] ||
    (Meanwhile(s, rounds[0].waiting)
     && PossibleDelivery(After(s, rounds[0].waiting), rounds[0].dbUp, rounds[0].settling)
     && PossibleRounds(AfterRound(s, rounds[0]), rounds[1..]))
  }

  ghost function AfterRound(s: World, r: Round): World
    requires Meanwhile(s, r.waiting) && PossibleDelivery(After(s, r.waiting), r.dbUp, r.settling)
  {
    AfterDelivery(After(s, r.waiting), r.dbUp, r.settling)
  }

  ghost function AfterRounds(s: World, rounds: seq<Round>): World
    requires PossibleRounds(s, rounds)
    decreases |rounds|
  {
    if rounds == [] then s else AfterRounds(AfterRound(s, rounds[0]), rounds[1..])
  }

  /** The loop: it waits for a delivery, deals with it, and waits again, whatever arrives meanwhile. */
  method Consume(s: World, rounds: seq<Round>) returns (s': World)
    requires Inv(s) && PossibleRounds(s, rounds)
    ensures s' == AfterRounds(s, rounds)
    ensures Inv(s')
  {
    s' := s;
    for i := 0 to |rounds|
      invariant Inv(s') && PossibleRounds(s', rounds[i..])
      invariant AfterRounds(s', rounds[i..]) == AfterRounds(s, rounds)
    {
      assert rounds[i..][0] == rounds[i] && rounds[i..][1..] == rounds[i + 1..];
      s' := HandleNext(s', rounds[i]);
    }
  }

  /** The body of the loop: wait for the next delivery and deal with it. */
  method HandleNext(s: World, r: Round) returns (s': World)
    requires Inv(s) && Meanwhile(s, r.waiting) && PossibleDelivery(After(s, r.waiting), r.dbUp, r.settling)
    ensures s' == AfterRound(s, r) && Inv(s')
  {
    RoundKeepsInv(s, r);
    ScheduleKeepsInv(s, r.waiting);
    s' := After(s, r.waiting);
    HeadCount(s');
    s' := HandleDelivery(s', r.dbUp, r.settling);
  }

  lemma HeadCount(s: World)
    requires CarriedInv(s) && s.inbox != []
    ensures CountNotNegative(s.inbox[0].message)
  {
    assert PendingEntry(OriginOf(s), s.inbox[0], s.now);
  }

  ghost function RoundSteps(r: Round): seq<Step> {
    r.waiting + ([Process(r.dbUp)] + (r.settling + ([Ack] + [])))
  }

  /** One iteration is a legal schedule of the protocol. */
  lemma RoundIsASchedule(s: World, r: Round)
    requires Meanwhile(s, r.waiting) && PossibleDelivery(After(s, r.waiting), r.dbUp, r.settling)
    ensures LegalFrom(s, RoundSteps(r)) && After(s, RoundSteps(r)) == AfterRound(s, r)
  {
    var s1 := After(s, r.waiting);
    var s2 := TakeUp(s1, r.dbUp);
    MeanwhileKeepsHead(s2, r.settling);
    var s3 := After(s2, r.settling);
    AfterThen(s3, Ack, []);
    AfterBoth(s2, r.settling, [Ack] + []);
    AfterThen(s1, Process(r.dbUp), r.settling + ([Ack] + []));
    AfterBoth(s, r.waiting, [Process(r.dbUp)] + (r.settling + ([Ack] + [])));
  }

  lemma RoundKeepsInv(s: World, r: Round)
    requires Inv(s) && Meanwhile(s, r.waiting) && PossibleDelivery(After(s, r.waiting), r.dbUp, r.settling)
    ensures Inv(AfterRound(s, r))
  {
    RoundIsASchedule(s, r);
    ScheduleKeepsInv(s, RoundSteps(r));
  }

  ghost function RoundsSteps(rounds: seq<Round>): seq<Step> {
    if rounds == [] then [] else RoundSteps(rounds[0]) + RoundsSteps(rounds[1..])
  }

  /** All iterations together are one legal schedule, so whatever holds of every schedule holds of the loop. */
  lemma {:induction false} ConsumingIsASchedule(s: World, rounds: seq<Round>)
    requires PossibleRounds(s, rounds)
    ensures LegalFrom(s, RoundsSteps(rounds)) && After(s, RoundsSteps(rounds)) == AfterRounds(s, rounds)
    decreases |rounds|
  {
    if rounds != [] {
      var s1 := AfterRound(s, rounds[0]);
      RoundIsASchedule(s, rounds[0]);
      ConsumingIsASchedule(s1, rounds[1..]);
      AfterBoth(s, RoundSteps(rounds[0]), RoundsSteps(rounds[1..]));
    }
  }
}
