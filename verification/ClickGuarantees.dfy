/**
 What the click protocol guarantees in every reachable world: the exact ledger of clicks, no loss of
 acknowledged clicks, and the bound on the clicks held in memory.
 */
module ClickGuarantees {
  import opened Wrappers
  import opened Digits
  import opened ClickCounts
  import opened ClickProtocol

  // ---------------------------------------------------------------- the invariant

  /** Tags follow delivery order: handled before buffered before the next one. */
  ghost predicate InTagOrder(b: Broker) {
    && (forall i, j :: 0 <= i < |b.handled| && 0 <= j < |b.buffered| ==> b.handled[i].tag < b.buffered[j].tag)
    && (forall i, j :: 0 <= i < j < |b.buffered| ==> b.buffered[i].tag < b.buffered[j].tag)
    && (forall i :: 0 <= i < |b.handled| ==> b.handled[i].tag < b.nextTag)
    && (forall j :: 0 <= j < |b.buffered| ==> b.buffered[j].tag < b.nextTag)
  }

  /** The remembered tag covers every handled, unacknowledged click and nothing still buffered. */
  ghost predicate TagCovers(s: World) {
    && (s.loop.lastTag.Some? ==>
          s.loop.lastTag.value < s.broker.nextTag
          && forall j :: 0 <= j < |s.broker.buffered| ==> s.loop.lastTag.value < s.broker.buffered[j].tag)
    && (forall i :: 0 <= i < |s.broker.handled| && s.broker.handled[i].event.code.Some? ==>
          s.loop.lastTag.Some? && s.broker.handled[i].tag <= s.loop.lastTag.value)
  }

  ghost function Outstanding(b: Broker): multiset<string> {
    Clicks(Events(b.handled))
  }

  /** Every published event is queued, delivered, or acknowledged, and it is so exactly once. */
  ghost predicate EventsConserved(b: Broker) {
    multiset(b.published)
    == b.ready + multiset(Events(b.handled)) + multiset(Events(b.buffered)) + multiset(b.acked)
  }

  /** The clicks of every handled, unacknowledged delivery are in the batch, which is flushed before they are acknowledged. */
  ghost predicate Backed(s: World) {
    && Outstanding(s.broker) <= Bag(s.loop.batch)
    && Clicks(s.broker.acked) + (if s.loop.phase == Acking then Outstanding(s.broker) else multiset{}) <= s.ledger.flushed
  }

  /** The click ledger balances. */
  ghost predicate Balanced(s: World) {
    s.ledger.flushed + Unflushed(s) + s.ledger.dropped
    == Clicks(s.broker.acked) + Outstanding(s.broker) + s.ledger.requeued
  }

  /** Rows present at every flush hold exactly what was flushed for them. */
  ghost predicate Stored(s: World) {
    forall c :: c !in s.ledger.lost ==>
      s.ledger.flushed[c] == if c in s.counts then s.counts[c] else 0
  }

  ghost predicate InMemoryBounded(l: Loop) {
    && l.totalClicks == |Bag(l.batch)|
    && (forall code :: code in l.batch ==> l.batch[code] > 0)
    && match l.phase
       case Selecting => l.totalClicks <= FLUSH_AT - 1 + l.failures
       case Flushing => l.totalClicks <= FLUSH_AT + l.failures
       case BackingOff => l.totalClicks <= FLUSH_AT - 1 + l.failures
       case Acking => true
  }

  /** The sleeps of the current failure streak, in order. */
  ghost predicate StreakBacksOff(l: Loop) {
    && |l.backoffs| == l.failures
    && forall i :: 0 <= i < |l.backoffs| ==> l.backoffs[i] == BackoffSeconds(i)
  }

  ghost predicate ChannelInv(s: World) {
    InTagOrder(s.broker) && TagCovers(s) && EventsConserved(s.broker)
  }

  ghost predicate LedgerInv(s: World) {
    Backed(s) && Balanced(s) && Stored(s)
  }

  ghost predicate LoopInv(l: Loop) {
    InMemoryBounded(l) && StreakBacksOff(l)
  }

  ghost predicate Inv(s: World) {
    ChannelInv(s) && LedgerInv(s) && LoopInv(s.loop)
  }

  // ---------------------------------------------------------------- counting clicks in deliveries

  lemma {:induction false} ClicksOfConcat(a: seq<Event>, b: seq<Event>)
    ensures Clicks(a + b) == Clicks(a) + Clicks(b)
    decreases |a|
  {
    if a == [] {
      assert a + b == b;
    } else {
      assert (a + b)[1..] == a[1..] + b;
      ClicksOfConcat(a[1..], b);
    }
  }

  lemma EventsOfConcat(a: seq<Delivery>, b: seq<Delivery>)
    ensures Events(a + b) == Events(a) + Events(b)
    ensures Clicks(Events(a + b)) == Clicks(Events(a)) + Clicks(Events(b))
  {
    assert Events(a + b) == Events(a) + Events(b);
    ClicksOfConcat(Events(a), Events(b));
  }

  lemma Regroup<T>(x: multiset<T>, u: multiset<T>, v: multiset<T>, r: multiset<T>)
    requires r == u + v
    ensures x + r == (x + u) + v
    ensures x + r == u + (x + v)
  {
  }

  /** A cumulative acknowledgement splits the deliveries in two. */
  lemma {:induction false} AckSplits(ds: seq<Delivery>, tag: nat)
    ensures multiset(Events(ds)) == multiset(Events(UpTo(ds, tag))) + multiset(Events(Beyond(ds, tag)))
    ensures Clicks(Events(ds)) == Clicks(Events(UpTo(ds, tag))) + Clicks(Events(Beyond(ds, tag)))
    decreases |ds|
  {
    if ds == [] {
      assert Events([]) == [];
    } else {
      AckSplits(ds[1..], tag);
      OneMoreSplit(ds[0], ds[1..], UpTo(ds[1..], tag), Beyond(ds[1..], tag));
      FirstGoesToASide(ds, tag);
    }
  }

  lemma FirstGoesToASide(ds: seq<Delivery>, tag: nat)
    requires ds != []
    ensures ds == [ds[0]] + ds[1..]
    ensures UpTo(ds, tag) == if ds[0].tag <= tag then [ds[0]] + UpTo(ds[1..], tag) else UpTo(ds[1..], tag)
    ensures Beyond(ds, tag) == if ds[0].tag <= tag then Beyond(ds[1..], tag) else [ds[0]] + Beyond(ds[1..], tag)
  {
  }

  /** One more delivery may go to either side. */
  lemma OneMoreSplit(d: Delivery, rest: seq<Delivery>, u: seq<Delivery>, v: seq<Delivery>)
    requires multiset(Events(rest)) == multiset(Events(u)) + multiset(Events(v))
    requires Clicks(Events(rest)) == Clicks(Events(u)) + Clicks(Events(v))
    ensures multiset(Events([d] + rest)) == multiset(Events([d] + u)) + multiset(Events(v))
    ensures multiset(Events([d] + rest)) == multiset(Events(u)) + multiset(Events([d] + v))
    ensures Clicks(Events([d] + rest)) == Clicks(Events([d] + u)) + Clicks(Events(v))
    ensures Clicks(Events([d] + rest)) == Clicks(Events(u)) + Clicks(Events([d] + v))
  {
    EventsOfConcat([d], rest);
    EventsOfConcat([d], u);
    EventsOfConcat([d], v);
    Regroup(multiset(Events([d])), multiset(Events(u)), multiset(Events(v)), multiset(Events(rest)));
    Regroup(Clicks(Events([d])), Clicks(Events(u)), Clicks(Events(v)), Clicks(Events(rest)));
  }

  lemma {:induction false} BeyondIsPart(ds: seq<Delivery>, tag: nat)
    ensures forall i :: 0 <= i < |Beyond(ds, tag)| ==> Beyond(ds, tag)[i] in ds && Beyond(ds, tag)[i].tag > tag
    decreases |ds|
  {
    if ds != [] {
      BeyondIsPart(ds[1..], tag);
    }
  }

  lemma {:induction false} AllBeyond(ds: seq<Delivery>, tag: nat)
    requires forall i :: 0 <= i < |ds| ==> ds[i].tag > tag
    ensures UpTo(ds, tag) == [] && Beyond(ds, tag) == ds
    decreases |ds|
  {
    if ds != [] {
      AllBeyond(ds[1..], tag);
    }
  }

  lemma {:induction false} NoClicks(ds: seq<Delivery>)
    requires forall i :: 0 <= i < |ds| ==> ds[i].event.code.None?
    ensures Clicks(Events(ds)) == multiset{}
    decreases |ds|
  {
    if ds != [] {
      assert Events(ds)[1..] == Events(ds[1..]);
      NoClicks(ds[1..]);
    }
  }

  /**
   Settling the remembered tag leaves the buffered deliveries alone and every handled click settled:
   what stays outstanding is malformed.
   */
  lemma SettlingTag(s: World)
    requires InTagOrder(s.broker) && TagCovers(s) && s.loop.lastTag.Some?
    ensures var t := s.loop.lastTag.value;
            && UpTo(s.broker.buffered, t) == [] && Beyond(s.broker.buffered, t) == s.broker.buffered
            && multiset(Events(s.broker.handled))
               == multiset(Events(UpTo(s.broker.handled, t))) + multiset(Events(Beyond(s.broker.handled, t)))
            && Clicks(Events(UpTo(s.broker.handled, t))) == Outstanding(s.broker)
            && Clicks(Events(Beyond(s.broker.handled, t))) == multiset{}
    ensures var kept := Beyond(s.broker.handled, s.loop.lastTag.value);
            forall i :: 0 <= i < |kept| ==> kept[i] in s.broker.handled && kept[i].event.code.None?
  {
    var t := s.loop.lastTag.value;
    AllBeyond(s.broker.buffered, t);
    AckSplits(s.broker.handled, t);
    BeyondIsPart(s.broker.handled, t);
    NoClicks(Beyond(s.broker.handled, t));
  }

  lemma NothingOutstanding(s: World)
    requires TagCovers(s) && s.loop.lastTag.None?
    ensures Outstanding(s.broker) == multiset{}
  {
    NoClicks(s.broker.handled);
  }

  // ---------------------------------------------------------------- preservation

  lemma TakingMovesOne(b: Broker)
    requires b.buffered != []
    ensures multiset(Events(b.buffered)) == multiset{b.buffered[0].event} + multiset(Events(b.buffered[1..]))
    ensures multiset(Events(b.handled + [b.buffered[0]])) == multiset(Events(b.handled)) + multiset{b.buffered[0].event}
    ensures Clicks(Events(b.handled + [b.buffered[0]]))
            == Outstanding(b) + match b.buffered[0].event.code
                                case Some(c) => multiset{c}
                                case None => multiset{}
  {
    var d := b.buffered[0];
    assert b.buffered == [d] + b.buffered[1..];
    EventsOfConcat([d], b.buffered[1..]);
    EventsOfConcat(b.handled, [d]);
    assert Events([d]) == [d.event];
    assert [d.event][1..] == [];
  }

  lemma TakeKeepsChannel(s: World)
    requires ChannelInv(s) && s.broker.buffered != []
    ensures ChannelInv(TakeDelivery(s))
  {
    var b, b' := s.broker, TakeDelivery(s).broker;
    TakingMovesOne(b);
    assert InTagOrder(b');
    assert TagCovers(TakeDelivery(s));
    Transfer(b.ready, multiset(Events(b.handled)), multiset(Events(b.buffered[1..])), multiset(b.acked),
             multiset{b.buffered[0].event});
  }

  lemma Transfer<T>(r: multiset<T>, h: multiset<T>, u: multiset<T>, a: multiset<T>, x: multiset<T>)
    ensures r + h + (x + u) + a == r + (h + x) + u + a
    ensures (r + x) + h + u + a == r + (h + x) + u + a
    ensures r + (h + x) + u + a == r + h + u + (a + x)
  {
  }

  lemma BothGrow<T>(f: multiset<T>, b: multiset<T>, d: multiset<T>, a: multiset<T>, o: multiset<T>, r: multiset<T>,
                    x: multiset<T>)
    requires f + b + d == a + o + r
    ensures f + (b + x) + d == a + (o + x) + r
  {
    assert f + (b + x) + d == (f + b + d) + x;
    assert a + (o + x) + r == (a + o + r) + x;
  }

  /** What taking a delivery does to the clicks on either side of the ledger. */
  lemma TakingCounts(s: World)
    requires Enabled(s, Take)
    ensures var s', code := TakeDelivery(s), s.broker.buffered[0].event.code;
            var taken := if code.Some? then multiset{code.value} else multiset{};
            && Bag(s'.loop.batch) == Bag(s.loop.batch) + taken
            && Outstanding(s'.broker) == Outstanding(s.broker) + taken
            && s'.ledger == s.ledger && s'.counts == s.counts && s'.broker.acked == s.broker.acked
            && s'.loop.phase in {Selecting, Flushing}
  {
    TakingMovesOne(s.broker);
    var code := s.broker.buffered[0].event.code;
    if code.Some? {
      BagOfOneMore(s.loop.batch, code.value);
    }
  }

  lemma MoreOnBothSides(s: World, s': World, taken: multiset<string>)
    requires LedgerInv(s) && s.loop.phase != Acking && s'.loop.phase != Acking
    requires s'.ledger == s.ledger && s'.counts == s.counts && s'.broker.acked == s.broker.acked
    requires Bag(s'.loop.batch) == Bag(s.loop.batch) + taken
    requires Outstanding(s'.broker) == Outstanding(s.broker) + taken
    ensures LedgerInv(s')
  {
    BothGrow(s.ledger.flushed, Bag(s.loop.batch), s.ledger.dropped,
             Clicks(s.broker.acked), Outstanding(s.broker), s.ledger.requeued, taken);
    assert Stored(s');
  }

  lemma TakeKeepsLedger(s: World)
    requires LedgerInv(s) && Enabled(s, Take)
    ensures LedgerInv(TakeDelivery(s))
  {
    TakingCounts(s);
    var code := s.broker.buffered[0].event.code;
    MoreOnBothSides(s, TakeDelivery(s), if code.Some? then multiset{code.value} else multiset{});
  }

  lemma TakeKeepsLoop(s: World)
    requires LoopInv(s.loop) && Enabled(s, Take)
    ensures LoopInv(TakeDelivery(s).loop)
  {
    TakingCounts(s);
  }

  lemma TakeKeepsInv(s: World)
    requires Inv(s) && Enabled(s, Take)
    ensures Inv(TakeDelivery(s))
  {
    TakeKeepsChannel(s);
    TakeKeepsLedger(s);
    TakeKeepsLoop(s);
  }

  lemma CommitKeepsInv(s: World)
    requires Inv(s) && Enabled(s, FlushCommits)
    ensures Inv(CommitBatch(s))
  {
    BagCounts(s.loop.batch);
  }

  lemma AckKeepsChannel(s: World)
    requires ChannelInv(s) && s.loop.phase == Acking
    ensures ChannelInv(AckBatch(s))
    ensures Outstanding(AckBatch(s).broker) == multiset{}
    ensures Clicks(AckBatch(s).broker.acked) == Clicks(s.broker.acked) + Outstanding(s.broker)
  {
    if s.loop.lastTag.Some? {
      SettlingTag(s);
      AckSettles(s.broker, s.loop.lastTag.value);
      assert InTagOrder(AckBatch(s).broker);
      assert TagCovers(AckBatch(s));
    } else {
      NothingOutstanding(s);
    }
  }

  /** What an acknowledgement takes from the deliveries is acknowledged. */
  lemma AckSettles(b: Broker, t: nat)
    requires EventsConserved(b) && UpTo(b.buffered, t) == [] && Beyond(b.buffered, t) == b.buffered
    requires multiset(Events(b.handled)) == multiset(Events(UpTo(b.handled, t))) + multiset(Events(Beyond(b.handled, t)))
    ensures EventsConserved(AckUpTo(b, t))
    ensures Clicks(AckUpTo(b, t).acked) == Clicks(b.acked) + Clicks(Events(UpTo(b.handled, t)))
  {
    var covered := Events(UpTo(b.handled, t));
    assert AckUpTo(b, t).acked == b.acked + covered;
    ClicksOfConcat(b.acked, covered);
    Transfer(b.ready, multiset(Events(Beyond(b.handled, t))), multiset(Events(b.buffered)), multiset(b.acked),
             multiset(covered));
    assert multiset(b.acked + covered) == multiset(b.acked) + multiset(covered);
    Commute(multiset(covered), multiset(Events(Beyond(b.handled, t))));
  }

  lemma Commute<T>(x: multiset<T>, y: multiset<T>)
    ensures x + y == y + x
  {
  }

  lemma AckKeepsInv(s: World)
    requires Inv(s) && Enabled(s, Ack)
    ensures Inv(AckBatch(s))
  {
    AckKeepsChannel(s);
    assert Bag(map[]) == multiset{};
  }

  lemma NackKeepsChannel(s: World)
    requires ChannelInv(s) && s.loop.phase == BackingOff
    ensures ChannelInv(NackBatch(s))
    ensures Outstanding(NackBatch(s).broker) == multiset{}
    ensures NackBatch(s).ledger.requeued == s.ledger.requeued + Outstanding(s.broker)
  {
    if s.loop.lastTag.Some? {
      SettlingTag(s);
      NackReturns(s.broker, s.loop.lastTag.value);
      assert InTagOrder(NackBatch(s).broker);
      assert TagCovers(NackBatch(s));
    } else {
      NothingOutstanding(s);
    }
  }

  /** What a negative acknowledgement takes from the deliveries goes back to the queue. */
  lemma NackReturns(b: Broker, t: nat)
    requires EventsConserved(b) && UpTo(b.buffered, t) == [] && Beyond(b.buffered, t) == b.buffered
    requires multiset(Events(b.handled)) == multiset(Events(UpTo(b.handled, t))) + multiset(Events(Beyond(b.handled, t)))
    ensures EventsConserved(NackUpTo(b, t))
  {
    assert Events([]) == [];
    Transfer(b.ready, multiset(Events(Beyond(b.handled, t))), multiset(Events(b.buffered)), multiset(b.acked),
             multiset(Events(UpTo(b.handled, t))));
    Commute(multiset(Events(UpTo(b.handled, t))), multiset(Events(Beyond(b.handled, t))));
  }

  lemma NackKeepsInv(s: World)
    requires Inv(s) && Enabled(s, Nack)
    ensures Inv(NackBatch(s))
  {
    NackKeepsChannel(s);
    Requeued(Clicks(s.broker.acked), Outstanding(s.broker), s.ledger.requeued);
  }

  lemma Requeued<T>(a: multiset<T>, o: multiset<T>, r: multiset<T>)
    ensures a + o + r == a + multiset{} + (r + o)
  {
  }

  lemma CrashKeepsInv(s: World)
    requires Inv(s)
    ensures Inv(CrashProcess(s))
  {
    assert Bag(map[]) == multiset{};
    assert Events([]) == [] && Clicks([]) == multiset{};
    Requeued(Clicks(s.broker.acked), Outstanding(s.broker), s.ledger.requeued);
    Requeued(s.ledger.flushed, Unflushed(s), s.ledger.dropped);
  }

  lemma DeliverKeepsInv(s: World, e: Event)
    requires Inv(s) && Enabled(s, Deliver(e))
    ensures Inv(Apply(s, Deliver(e)))
  {
    DeliverKeepsChannel(s, e);
    var s' := Apply(s, Deliver(e));
    assert s'.loop == s.loop && s'.ledger == s.ledger && s'.counts == s.counts;
    assert s'.broker.handled == s.broker.handled && s'.broker.acked == s.broker.acked;
  }

  lemma Moved<T>(p: multiset<T>, r: multiset<T>, h: multiset<T>, u: multiset<T>, a: multiset<T>, x: multiset<T>)
    requires x <= r && p == r + h + u + a
    ensures p == (r - x) + h + (u + x) + a
  {
  }

  lemma DeliverKeepsChannel(s: World, e: Event)
    requires ChannelInv(s) && Enabled(s, Deliver(e))
    ensures ChannelInv(Apply(s, Deliver(e)))
  {
    var b, s' := s.broker, Apply(s, Deliver(e));
    var d := Delivery(b.nextTag, e);
    assert s'.broker.buffered == b.buffered + [d];
    assert Events(b.buffered + [d]) == Events(b.buffered) + [e];
    Moved(multiset(b.published), b.ready, multiset(Events(b.handled)), multiset(Events(b.buffered)),
          multiset(b.acked), multiset{e});
    assert EventsConserved(s'.broker);
    assert InTagOrder(s'.broker);
    assert TagCovers(s');
  }

  lemma PublishKeepsInv(s: World, e: Event)
    requires Inv(s) && Enabled(s, Publish(e))
    ensures Inv(Apply(s, Publish(e)))
  {
    assert e !in s.broker.published;
    assert multiset(s.broker.published + {e}) == multiset(s.broker.published) + multiset{e};
  }

  lemma StepKeepsInv(s: World, step: Step)
    requires Inv(s) && Enabled(s, step)
    ensures Inv(Apply(s, step))
  {
    match step
    case Publish(e) => PublishKeepsInv(s, e);
    case Deliver(e) => DeliverKeepsInv(s, e);
    case Take => TakeKeepsInv(s);
    case FlushCommits => CommitKeepsInv(s);
    case Ack => AckKeepsInv(s);
    case Nack => NackKeepsInv(s);
    case Crash => CrashKeepsInv(s);
    case _ =>
  }

  // ---------------------------------------------------------------- runs

  lemma InitiallyInv()
    ensures Inv(INITIAL)
  {
    assert Bag(map[]) == multiset{};
  }

  lemma {:induction false} ScheduleKeepsInv(s: World, steps: seq<Step>)
    requires Inv(s) && LegalFrom(s, steps)
    ensures Inv(After(s, steps))
    decreases |steps|
  {
    if steps != [] {
      StepKeepsInv(s, steps[0]);
      ScheduleKeepsInv(Apply(s, steps[0]), steps[1..]);
    }
  }

  /** The schedule may be taken from the empty system, and leads here. */
  ghost predicate LeadsTo(steps: seq<Step>, s: World) {
    LegalFrom(INITIAL, steps) && After(INITIAL, steps) == s
  }

  lemma {:induction false} Reachable(steps: seq<Step>, s: World)
    requires LeadsTo(steps, s)
    ensures Inv(s)
  {
    InitiallyInv();
    ScheduleKeepsInv(INITIAL, steps);
  }

  /** The distinct well-formed clicks of a code that have been acknowledged to the broker. */
  ghost function AckedClicks(s: World, code: string): set<Event> {
    set e | e in s.broker.acked && e.code == Some(code)
  }

  lemma {:induction false} CountDistinct(events: seq<Event>, code: string)
    requires forall e :: multiset(events)[e] <= 1
    ensures |set e | e in events && e.code == Some(code)| == Clicks(events)[code]
    decreases |events|
  {
    if events != [] {
      var e, rest := events[0], events[1..];
      assert events == [e] + rest;
      assert multiset(events)[e] == 1 + multiset(rest)[e];
      assert forall x :: multiset(rest)[x] <= multiset(events)[x];
      CountDistinct(rest, code);
      var here, there := set x | x in events && x.code == Some(code), set x | x in rest && x.code == Some(code);
      if e.code == Some(code) {
        assert here == there + {e} && e !in there;
      } else {
        assert here == there;
      }
    }
  }

  lemma AckedAtMostOnce(s: World)
    requires Inv(s)
    ensures forall e :: multiset(s.broker.acked)[e] <= 1
    ensures forall code :: |AckedClicks(s, code)| == Clicks(s.broker.acked)[code]
  {
    forall e ensures multiset(s.broker.acked)[e] <= 1 {
      assert multiset(s.broker.published)[e] <= 1;
      assert multiset(s.broker.published)[e] >= multiset(s.broker.acked)[e];
    }
    forall code ensures |AckedClicks(s, code)| == Clicks(s.broker.acked)[code] {
      CountDistinct(s.broker.acked, code);
    }
  }

  /**
   No acknowledged click is lost. After any schedule of publishing, failed flushes, requeues, crashes
   and table changes, a row that was there at every flush of its code counts at least the distinct
   well-formed clicks acknowledged for it.
   */
  lemma {:induction false} NoClickIsLost(steps: seq<Step>, s: World, code: string)
    requires LeadsTo(steps, s)
    ensures code in s.counts && RowStays(INITIAL, steps, code) ==> s.counts[code] >= |AckedClicks(s, code)|
  {
    Reachable(steps, s);
    LostExactly(INITIAL, steps, code);
    AckedAtMostOnce(s);
    assert Clicks(s.broker.acked)[code] <= s.ledger.flushed[code];
  }

  /** Every published event is queued, waiting in the channel, handled, or acknowledged: never two of them. */
  lemma {:induction false} EachEventIsInOnePlace(steps: seq<Step>, s: World, e: Event)
    requires LeadsTo(steps, s) && e in s.broker.published
    ensures var b := s.broker;
            b.ready[e] + multiset(Events(b.handled))[e] + multiset(Events(b.buffered))[e] + multiset(b.acked)[e] == 1
  {
    Reachable(steps, s);
    assert multiset(s.broker.published)[e] == 1;
  }

  /**
   The exact ledger, per code and over all runs: what was flushed, is still in memory or fell to a
   crash is what was acknowledged, is outstanding or was requeued after having been counted.
   */
  lemma {:induction false} ClickLedgerBalances(steps: seq<Step>, s: World, code: string)
    requires LeadsTo(steps, s)
    ensures s.ledger.flushed[code] + Unflushed(s)[code] + s.ledger.dropped[code]
            == |AckedClicks(s, code)| + Outstanding(s.broker)[code] + s.ledger.requeued[code]
    ensures s.loop.totalClicks == |Bag(s.loop.batch)|
  {
    Reachable(steps, s);
    AckedAtMostOnce(s);
    assert (s.ledger.flushed + Unflushed(s) + s.ledger.dropped)[code]
        == (Clicks(s.broker.acked) + Outstanding(s.broker) + s.ledger.requeued)[code];
  }

  /** Three seconds after the first failure of a streak, nine after the second, twenty-seven from then on. */
  lemma BackoffInNumbers(n: nat)
    ensures BackoffSeconds(n) == if n == 0 then 3 else if n == 1 then 9 else 27
  {
    assert Pow(3, 1) == 3 && Pow(3, 2) == 9 && Pow(3, 3) == 27;
  }

  /**
   Backpressure. Between iterations at most sixteen clicks plus one per consecutive failure are in
   memory, so fewer than seventeen after a successful flush.
   */
  lemma {:induction false} MemoryIsBounded(steps: seq<Step>, s: World)
    requires LeadsTo(steps, s) && s.loop.phase == Selecting
    ensures |Bag(s.loop.batch)| <= 16 + s.loop.failures
    ensures s.loop.failures == 0 ==> |Bag(s.loop.batch)| < 17
  {
    Reachable(steps, s);
  }

  /** The stream arm waits for the seventeenth click: a delivery starts a flush exactly if it is a click that makes seventeen. */
  lemma FlushesAtSeventeen(steps: seq<Step>, s: World)
    requires LeadsTo(steps, s) && Enabled(s, Take)
    ensures TakeDelivery(s).loop.phase == Flushing
            <==> s.broker.buffered[0].event.code.Some? && |Bag(s.loop.batch)| + 1 >= 17
    ensures TakeDelivery(s).loop.phase == Flushing ==> |Bag(TakeDelivery(s).loop.batch)| >= 17
  {
    Reachable(steps, s);
    TakingCounts(s);
  }

  /** The timer starts a flush exactly if there is a click to flush. */
  lemma TimerFlushesWhatThereIs(steps: seq<Step>, s: World)
    requires LeadsTo(steps, s) && Enabled(s, Tick)
    ensures Apply(s, Tick).loop.phase == Flushing <==> s.loop.totalClicks > 0
  {
    Reachable(steps, s);
    if s.loop.batch != map[] {
      BagCounts(s.loop.batch);
      var code :| code in s.loop.batch;
      assert code in Bag(s.loop.batch);
    } else {
      assert Bag(s.loop.batch) == multiset{};
    }
  }

  /** The sleeps of the current failure streak, in seconds. */
  lemma {:induction false} SleepsOfAStreak(steps: seq<Step>, s: World)
    requires LeadsTo(steps, s)
    ensures |s.loop.backoffs| == s.loop.failures
    ensures forall i :: 0 <= i < |s.loop.backoffs| ==>
              s.loop.backoffs[i] == if i == 0 then 3 else if i == 1 then 9 else 27
  {
    Reachable(steps, s);
    forall i | 0 <= i < |s.loop.backoffs|
      ensures s.loop.backoffs[i] == if i == 0 then 3 else if i == 1 then 9 else 27
    {
      BackoffInNumbers(i);
    }
  }

  // ---------------------------------------------------------------- rows present at every flush

  /** The step counts a click of the code that no row takes, or deletes the row. */
  ghost predicate LosesRow(s: World, step: Step, code: string) {
    (step == FlushCommits && code in s.loop.batch && code !in s.counts) || step == DeleteRow(code)
  }

  /** The row of the code was there at every flush that carried it, and was not deleted. */
  ghost predicate RowStays(s: World, steps: seq<Step>, code: string)
    requires LegalFrom(s, steps)
    decreases |steps|
  {
    steps == [] || (!LosesRow(s, steps[0], code) && RowStays(Apply(s, steps[0]), steps[1..], code))
  }

  lemma {:induction false} LostExactly(s: World, steps: seq<Step>, code: string)
    requires LegalFrom(s, steps)
    ensures code !in After(s, steps).ledger.lost <==> code !in s.ledger.lost && RowStays(s, steps, code)
    decreases |steps|
  {
    if steps != [] {
      LostByStep(s, steps[0], code);
      LostExactly(Apply(s, steps[0]), steps[1..], code);
    }
  }

  lemma LostByStep(s: World, step: Step, code: string)
    requires Enabled(s, step)
    ensures code in Apply(s, step).ledger.lost <==> code in s.ledger.lost || LosesRow(s, step, code)
  {
  }
}
