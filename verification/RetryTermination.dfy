/**
 Every published event reaches the end of the retry protocol: a measure of the moves left decreases
 with every move, and whatever is in flight can move.
 */
module RetryTermination {
  import opened Wrappers
  import opened RetryProtocol
  import opened RetryGuarantees

  /** Moves still possible for a message, given the extra moves of the place it is in. */
  function Weight(entries: seq<Entry>, extra: nat): nat
  {
    if entries == [] then 0
    else (if RetryCount(entries[0].message) <= 4 then 5 * (4 - RetryCount(entries[0].message)) else 0) + extra
         + Weight(entries[1..], extra)
  }

  lemma {:induction false} WeightOfConcat(a: seq<Entry>, b: seq<Entry>, extra: nat)
    ensures Weight(a + b, extra) == Weight(a, extra) + Weight(b, extra)
    decreases |a|
  {
    if a == [] {
      assert a + b == b;
    } else {
      assert (a + b)[1..] == a[1..] + b;
      WeightOfConcat(a[1..], b, extra);
    }
  }

  lemma WeightAppended(a: seq<Entry>, entry: Entry, extra: nat)
    requires 0 <= RetryCount(entry.message) <= 4
    ensures Weight(a + [entry], extra) == Weight(a, extra) + 5 * (4 - RetryCount(entry.message)) + extra
  {
    WeightOfConcat(a, [entry], extra);
    assert [entry][1..] == [];
  }

  /** A decided delivery has its acknowledgement left. */
  function InboxWeight(s: World): nat
  {
    if s.stage == Waiting || s.inbox == [] then Weight(s.inbox, 0) else 1 + Weight(s.inbox[1..], 0)
  }

  function WorkLeft(s: World): nat
  {
    Weight(s.retry3, 2) + Weight(s.retry9, 2) + Weight(s.retry27, 2) + Weight(s.main, 1) + InboxWeight(s)
  }

  predicate IsMove(step: Step) {
    step.Deliver? || step.Expire? || step.Process? || step.Ack?
  }

  lemma ProcessUsesWork(s: World, dbUp: bool)
    requires HeadFits(s) && Enabled(s, Process(dbUp))
    ensures WorkLeft(TakeUp(s, dbUp)) < WorkLeft(s)
  {
    var m := s.inbox[0].message;
    assert Weight(s.inbox, 0) == 5 * (4 - RetryCount(m)) + Weight(s.inbox[1..], 0);
    if m.payload.UserDeleted? && !dbUp {
      FailureForwards(s);
      ForwardingKeepsContent(m);
      var sent := Entry(Forwarded(m), s.now);
      WeightAppended(s.retry3, sent, 2);
      WeightAppended(s.retry9, sent, 2);
      WeightAppended(s.retry27, sent, 2);
    }
  }

  lemma DeliverUsesWork(s: World)
    requires HeadFits(s) && Enabled(s, Deliver) && 0 <= RetryCount(s.main[0].message) <= 3
    ensures WorkLeft(Apply(s, Deliver)) < WorkLeft(s)
  {
    if s.stage == Waiting {
      WeightAppended(s.inbox, s.main[0], 0);
    } else {
      assert (s.inbox + [s.main[0]])[1..] == s.inbox[1..] + [s.main[0]];
      WeightAppended(s.inbox[1..], s.main[0], 0);
    }
  }

  lemma ExpireUsesWork(s: World, q: Queue)
    requires Enabled(s, Expire(q)) && 0 <= RetryCount(At(s, q)[0].message) <= 3
    ensures WorkLeft(DeadLetter(s, q)) < WorkLeft(s)
  {
    WeightAppended(s.main, Entry(At(s, q)[0].message, s.now), 1);
  }

  lemma AckUsesWork(s: World)
    requires Enabled(s, Ack)
    ensures WorkLeft(Acknowledge(s)) < WorkLeft(s)
  {
  }

  lemma PublishAddsWork(s: World, m: Message)
    requires Enabled(s, Publish(m))
    ensures WorkLeft(Apply(s, Publish(m))) == WorkLeft(s) + 21
  {
    assert RetryCount(m) == 0;
    WeightAppended(s.main, Entry(m, s.now), 1);
  }

  lemma OnlyPublishPublishes(s: World, step: Step)
    requires Enabled(s, step) && !step.Publish?
    ensures Apply(s, step).published == s.published
  {
  }

  /** Every move of the broker or the consumer uses up work; only publishing adds some. */
  lemma MovesUseWork(s: World, step: Step)
    requires CarriedInv(s) && Enabled(s, step) && step != Crash
    ensures IsMove(step) ==> WorkLeft(Apply(s, step)) < WorkLeft(s)
    ensures step.Pass? ==> WorkLeft(Apply(s, step)) == WorkLeft(s)
    ensures step.Publish? ==> WorkLeft(Apply(s, step)) == WorkLeft(s) + 21
  {
    CarriedHead(s);
    match step
    case Publish(m) => PublishAddsWork(s, m);
    case Deliver =>
      assert PendingEntry(OriginOf(s), s.main[0], s.now);
      DeliverUsesWork(s);
    case Expire(q) =>
      assert 1 <= RetryCount(At(s, q)[0].message) <= 3;
      ExpireUsesWork(s, q);
    case Process(dbUp) => ProcessUsesWork(s, dbUp);
    case Ack => AckUsesWork(s);
    case Pass(_) =>
  }

  ghost function Moves(steps: seq<Step>): nat
  {
    if steps == [] then 0 else (if IsMove(steps[0]) then 1 else 0) + Moves(steps[1..])
  }

  lemma OneMoreKey<K, V>(m: map<K, V>, k: K, v: V)
    requires k !in m
    ensures |m[k := v]| == |m| + 1
  {
    assert m[k := v].Keys == m.Keys + {k};
  }

  lemma {:induction false} MovesUseUpWork(s: World, steps: seq<Step>)
    requires Inv(s) && LegalFrom(s, steps) && Crash !in steps
    ensures Moves(steps) + WorkLeft(After(s, steps)) + 21 * |s.published|
            <= WorkLeft(s) + 21 * |After(s, steps).published|
    decreases |steps|
  {
    if steps != [] {
      var step, s1 := steps[0], Apply(s, steps[0]);
      StepKeepsInv(s, step);
      MovesUseWork(s, step);
      MovesUseUpWork(s1, steps[1..]);
      if step.Publish? {
        OneMoreKey(s.published, step.message.event, step.message);
      } else {
        OnlyPublishPublishes(s, step);
      }
    }
  }

  /** Termination: without crashes, a schedule makes at most twenty-one moves per published event. */
  lemma {:induction false} MovesAreBounded(steps: seq<Step>, s: World)
    requires LeadsTo(steps, s) && Crash !in steps
    ensures Moves(steps) + WorkLeft(s) <= 21 * |s.published|
  {
    InitiallyInv();
    MovesUseUpWork(INITIAL, steps);
  }

  lemma {:induction false} WeightOfPending(entries: seq<Entry>, extra: nat)
    requires forall i :: 0 <= i < |entries| ==> RetryCount(entries[i].message) <= 3
    ensures Weight(entries, extra) == 0 <==> entries == []
    decreases |entries|
  {
    if entries != [] {
      WeightOfPending(entries[1..], extra);
    }
  }

  /** A message in a delay queue can leave it after at most twenty-seven seconds. */
  lemma DelayEnds(s: World, q: Queue)
    requires CarriedInv(s) && TimeToLive(q).Some? && At(s, q) != []
    ensures Enabled(s.(now := s.now + 27000), Expire(q))
  {
    assert At(s, q)[0].since <= s.now;
  }

  lemma CountsWithinWeight(s: World)
    requires CarriedInv(s)
    ensures Weight(s.main, 1) == 0 <==> s.main == []
    ensures Weight(s.inbox, 0) == 0 <==> s.inbox == []
    ensures Weight(s.retry3, 2) == 0 <==> s.retry3 == []
    ensures Weight(s.retry9, 2) == 0 <==> s.retry9 == []
    ensures Weight(s.retry27, 2) == 0 <==> s.retry27 == []
  {
    forall entry | entry in s.main || entry in s.inbox ensures RetryCount(entry.message) <= 3 {
      assert PendingEntry(OriginOf(s), entry, s.now);
    }
    WeightOfPending(s.main, 1);
    WeightOfPending(s.inbox, 0);
    WeightOfPending(s.retry3, 2);
    WeightOfPending(s.retry9, 2);
    WeightOfPending(s.retry27, 2);
  }

  /** Something in flight has a move, at the latest when the longest delay is over. */
  lemma InFlightMoves(s: World)
    requires CarriedInv(s)
    requires s.main != [] || s.inbox != [] || s.retry3 != [] || s.retry9 != [] || s.retry27 != []
    ensures exists step :: IsMove(step) && Enabled(s.(now := s.now + 27000), step)
  {
    var later := s.(now := s.now + 27000);
    if s.main != [] {
      assert IsMove(Deliver) && Enabled(later, Deliver);
    } else if s.inbox != [] {
      var step := if s.stage == Waiting then Process(true) else Ack;
      assert IsMove(step) && Enabled(later, step);
    } else {
      var q := if s.retry3 != [] then Retry3 else if s.retry9 != [] then Retry9 else Retry27;
      DelayEnds(s, q);
      assert IsMove(Expire(q)) && Enabled(later, Expire(q));
    }
  }

  lemma WorkOrRest(s: World)
    requires CarriedInv(s)
    ensures if WorkLeft(s) == 0
            then s.main == s.inbox == s.retry3 == s.retry9 == s.retry27 == []
            else s.main != [] || s.inbox != [] || s.retry3 != [] || s.retry9 != [] || s.retry27 != []
  {
    CountsWithinWeight(s);
  }

  /**
   Progress: unless every event is settled, discarded or dead-lettered, some move becomes possible
   after waiting at most twenty-seven seconds. When no work is left, nothing is in flight.
   */
  lemma {:induction false} SomethingCanMove(steps: seq<Step>, s: World)
    requires LeadsTo(steps, s)
    ensures if WorkLeft(s) == 0
            then s.main == s.inbox == s.retry3 == s.retry9 == s.retry27 == []
            else exists step :: IsMove(step) && Enabled(s.(now := s.now + 27000), step)
  {
    assert CarriedInv(s) by {
      Reachable(steps, s);
    }
    WorkOrRest(s);
    if WorkLeft(s) > 0 {
      InFlightMoves(s);
    }
  }
}
