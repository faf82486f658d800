/**
 What handling a user-deleted event does to the urls table and to Redis: one DELETE that returns the codes
 of the user's rows, then one DEL for each. The queues are those of the retry protocol; rows come and go,
 and redirects write codes into Redis, in between.
 */
module UserWipe {
  import opened Wrappers
  import Queues = RetryProtocol
  import RetryGuarantees

  /**
   `rows` are the owners of the codes in the table, `pending` the codes the DELETE returned whose DEL has
   not been sent. History: every code there ever was, and the event by which a code was wiped.
   */
  datatype World = World(
    queues: Queues.World,
    rows: map<string, int>,
    redis: set<string>,
    pending: seq<string>,
    used: set<string>,
    wiped: map<string, nat>)

  const INITIAL: World := World(Queues.INITIAL, map[], {}, [], {}, map[])

  // ---------------------------------------------------------------- steps

  /** Cache is a background write for a row that was read at some time; Drop an expiry or somebody else's DEL. */
  datatype Step =
    | Carry(step: Queues.Step)
    | Wipe(codes: seq<string>)
    | Evict(answered: bool)
    | Create(code: string, owner: int)
    | Remove(code: string)
    | Cache(code: string)
    | Drop(code: string)

  predicate Distinct(codes: seq<string>) {
    forall i, j :: 0 <= i < j < |codes| ==> codes[i] != codes[j]
  }

  /** The rows the statement deletes, in whatever order it returns them. */
  ghost predicate ListsRowsOf(rows: map<string, int>, owner: int, codes: seq<string>) {
    Distinct(codes) && forall code :: code in codes <==> code in rows && rows[code] == owner
  }

  /** The delivery at hand is a deletion that the database goes on to carry out. */
  predicate Wipes(q: Queues.World, step: Queues.Step) {
    step == Queues.Process(true) && q.inbox != [] && q.inbox[0].message.payload.UserDeleted?
  }

  ghost predicate Enabled(s: World, step: Step) {
    match step
    case Carry(q) =>
      Queues.Enabled(s.queues, q) && !Wipes(s.queues, q) && (q == Queues.Ack ==> s.pending == [])
    case Wipe(codes) =>
      && Queues.Enabled(s.queues, Queues.Process(true)) && Wipes(s.queues, Queues.Process(true))
      && ListsRowsOf(s.rows, s.queues.inbox[0].message.payload.userId, codes)
    case Evict(_) => s.pending != []
    case Create(code, _) => code !in s.used
    case Remove(code) => code in s.rows
    case Cache(code) => code in s.used
    case Drop(_) => true
  }

  ghost function Apply(s: World, step: Step): World
    requires Enabled(s, step)
  {
    match step
    case Carry(q) =>
      s.(queues := Queues.Apply(s.queues, q), pending := if q == Queues.Crash then [] else s.pending)
    case Wipe(codes) =>
      var event := s.queues.inbox[0].message.event;
      s.(queues := Queues.Apply(s.queues, Queues.Process(true)),
         rows := map code | code in s.rows && code !in codes :: s.rows[code],
         pending := codes,
         wiped := map code | code in s.wiped.Keys + (set c | c in codes) ::
                    if code in s.wiped then s.wiped[code] else event)
    case Evict(answered) =>
      s.(pending := s.pending[1..], redis := if answered then s.redis - {s.pending[0]} else s.redis)
    case Create(code, owner) => s.(rows := s.rows[code := owner], used := s.used + {code})
    case Remove(code) => s.(rows := s.rows - {code})
    case Cache(code) => s.(redis := s.redis + {code})
    case Drop(code) => s.(redis := s.redis - {code})
  }

  ghost predicate LegalFrom(s: World, steps: seq<Step>)
    decreases |steps|
  {
    steps == [] || (Enabled(s, steps[0]) && LegalFrom(Apply(s, steps[0]), steps[1..]))
  }

  ghost function After(s: World, steps: seq<Step>): World
    requires LegalFrom(s, steps)
    decreases |steps|
  {
    if steps == [] then s else After(Apply(s, steps[0]), steps[1..])
  }

  // ---------------------------------------------------------------- the invariant

  /** Codes are wiped once, and only while they are being evicted is the delivery held up. */
  predicate Inv(s: World) {
    && Distinct(s.pending) && (forall code :: code in s.pending ==> code in s.wiped)
    && (forall code :: code in s.rows ==> code in s.used && code !in s.wiped)
    && (forall code :: code in s.wiped ==> code in s.used)
    && (forall code :: code in s.redis ==> code in s.used)
    && (s.pending != [] ==> s.queues.stage == Queues.Wiped && s.queues.inbox != [])
  }

  lemma WipeKeepsInv(s: World, codes: seq<string>)
    requires Inv(s) && Enabled(s, Wipe(codes))
    ensures Inv(Apply(s, Wipe(codes)))
  {
  }

  lemma StepKeepsInv(s: World, step: Step)
    requires Inv(s) && Enabled(s, step)
    ensures Inv(Apply(s, step))
  {
    if step.Wipe? {
      WipeKeepsInv(s, step.codes);
    } else if step.Evict? {
      assert forall code :: code in s.pending[1..] ==> code in s.pending;
    } else if step.Carry? && s.pending != [] && step.step != Queues.Crash {
      assert Apply(s, step).queues.stage == s.queues.stage;
    }
  }

  /** A wipe takes every row of the user, and each of their codes is then up for eviction. */
  lemma WipeTakesAllRows(s: World, codes: seq<string>, code: string)
    requires Inv(s) && Enabled(s, Wipe(codes))
    ensures var s', user := Apply(s, Wipe(codes)), s.queues.inbox[0].message.payload.userId;
            && (code in s'.rows <==> code in s.rows && s.rows[code] != user)
            && (code in s'.pending <==> code in s.rows && s.rows[code] == user)
            && (code in s'.pending ==> s'.wiped[code] == s.queues.inbox[0].message.event)
  {
  }

  // ---------------------------------------------------------------- codes left in Redis

  /** The code of a wiped row that Redis holds and no DEL is coming for. */
  predicate Stray(s: World, code: string) {
    code in s.wiped && code !in s.pending && code in s.redis
  }

  /**
   What leaves a code behind: its DEL fails, the consumer dies before sending it, or a background write
   puts it into Redis after it was evicted.
   */
  predicate Slips(s: World, step: Step, code: string) {
    match step
    case Evict(answered) => s.pending != [] && s.pending[0] == code && !answered && code in s.redis
    case Carry(q) => q == Queues.Crash && code in s.pending && code in s.redis
    case Cache(c) => c == code && code in s.wiped && code !in s.pending
    case _ => false
  }

  lemma EvictedOnce(codes: seq<string>, code: string)
    requires Distinct(codes) && codes != []
    ensures code in codes[1..] <==> code in codes && code != codes[0]
  {
    if code in codes && code != codes[0] {
      var i :| 0 <= i < |codes| && codes[i] == code;
      assert codes[1..][i - 1] == code;
    }
  }

  /** One step: a code is stray after it if it slips, or was stray and is not dropped. */
  lemma StepStrays(s: World, step: Step, code: string)
    requires Inv(s) && Enabled(s, step)
    ensures Stray(Apply(s, step), code) <==> Slips(s, step, code) || (Stray(s, code) && step != Drop(code))
  {
    if step.Evict? {
      EvictedOnce(s.pending, code);
    } else if step.Wipe? {
      assert code in step.codes ==> code in s.rows && code !in s.wiped;
    }
  }

  predicate NeverDropped(steps: seq<Step>, code: string) {
    Drop(code) !in steps
  }

  /** Some step of the schedule lets the code slip, and it is not dropped from Redis after that. */
  ghost predicate LeftBehind(s: World, steps: seq<Step>, code: string)
    requires LegalFrom(s, steps)
    decreases |steps|
  {
    steps != [] &&
    ((Slips(s, steps[0], code) && NeverDropped(steps[1..], code))
     || LeftBehind(Apply(s, steps[0]), steps[1..], code))
  }

  lemma {:induction false} RunStrays(s: World, steps: seq<Step>, code: string)
    requires Inv(s) && LegalFrom(s, steps)
    ensures Inv(After(s, steps))
    ensures Stray(After(s, steps), code) <==>
            LeftBehind(s, steps, code) || (Stray(s, code) && NeverDropped(steps, code))
    decreases |steps|
  {
    if steps != [] {
      StepStrays(s, steps[0], code);
      StepKeepsInv(s, steps[0]);
      RunStrays(Apply(s, steps[0]), steps[1..], code);
      assert NeverDropped(steps, code) <==> steps[0] != Drop(code) && NeverDropped(steps[1..], code) by {
        assert steps == [steps[0]] + steps[1..];
      }
    }
  }

  /** The schedule may be taken from the empty system, and leads here. */
  ghost predicate LeadsTo(steps: seq<Step>, s: World) {
    LegalFrom(INITIAL, steps) && After(INITIAL, steps) == s
  }

  /**
   When a user's deletion event is acknowledged, Redis still holds the code of a wiped row if and only if
   its DEL failed, the consumer died before sending it, or a write came after it, and nothing else has
   dropped the code since.
   */
  lemma {:induction false} WipedCodeStaysExactlyWhenLeftBehind(steps: seq<Step>, s: World, code: string)
    requires LeadsTo(steps, s) && Enabled(s, Carry(Queues.Ack)) && code in s.wiped
    ensures code in s.redis <==> LeftBehind(INITIAL, steps, code)
  {
    RunStrays(INITIAL, steps, code);
  }

  ghost predicate NeverSlips(s: World, steps: seq<Step>, code: string)
    requires LegalFrom(s, steps)
    decreases |steps|
  {
    steps == [] || (!Slips(s, steps[0], code) && NeverSlips(Apply(s, steps[0]), steps[1..], code))
  }

  lemma {:induction false} NothingLeftBehind(s: World, steps: seq<Step>, code: string)
    requires LegalFrom(s, steps) && NeverSlips(s, steps, code)
    ensures !LeftBehind(s, steps, code)
    decreases |steps|
  {
    if steps != [] {
      NothingLeftBehind(Apply(s, steps[0]), steps[1..], code);
    }
  }

  /** A code that never slips is gone from Redis whenever no eviction of it is under way. */
  lemma {:induction false} CleanWipesLeaveNothing(steps: seq<Step>, s: World, code: string)
    requires LeadsTo(steps, s) && NeverSlips(INITIAL, steps, code) && code in s.wiped && code !in s.pending
    ensures code !in s.redis
  {
    RunStrays(INITIAL, steps, code);
    NothingLeftBehind(INITIAL, steps, code);
  }

  // ---------------------------------------------------------------- a crash that loses an eviction

  lemma Then(s: World, first: Step, rest: seq<Step>)
    requires Enabled(s, first) && LegalFrom(Apply(s, first), rest)
    ensures LegalFrom(s, [first] + rest) && After(s, [first] + rest) == After(Apply(s, first), rest)
  {
    assert ([first] + rest)[1..] == rest;
  }

  ghost function CrashRun(m: Queues.Message, code: string): seq<Step>
    requires m.payload.UserDeleted?
  {
    [Create(code, m.payload.userId)] + ([Cache(code)] + ([Carry(Queues.Publish(m))] + ([Carry(Queues.Deliver)]
    + ([Wipe([code])] + ([Carry(Queues.Crash)] + ([Carry(Queues.Deliver)] + ([Wipe([])] + ([Carry(Queues.Ack)] + []))))))))
  }

  /** The queues after the event was published, and after the crash gave it back. */
  function InMain(m: Queues.Message, attempts: map<nat, nat>, crashes: nat): Queues.World {
    Queues.INITIAL.(main := [Queues.Entry(m, 0)], published := map[m.event := m], born := map[m.event := 0],
                    attempts := attempts, crashes := crashes)
  }

  function InInbox(m: Queues.Message, attempts: map<nat, nat>, crashes: nat): Queues.World {
    InMain(m, attempts, crashes).(main := [], inbox := [Queues.Entry(m, 0)])
  }

  lemma DeliveredFirst(m: Queues.Message, attempts: map<nat, nat>, crashes: nat)
    ensures var q := InMain(m, attempts, crashes);
            Queues.Enabled(q, Queues.Deliver) && Queues.Apply(q, Queues.Deliver) == InInbox(m, attempts, crashes)
  {
    assert [Queues.Entry(m, 0)][1..] == [] && [] + [Queues.Entry(m, 0)] == [Queues.Entry(m, 0)];
  }

  function Settled(m: Queues.Message): Queues.World {
    Queues.INITIAL.(settled := [Queues.Entry(m, 0)], published := map[m.event := m], born := map[m.event := 0],
                    attempts := map[m.event := 2], crashes := 1)
  }

  /** A DELETE that finds no rows. */
  lemma WipeOfNothing(s: World)
    requires s.rows == map[] && s.queues.stage == Queues.Waiting && Wipes(s.queues, Queues.Process(true))
    ensures Enabled(s, Wipe([])) && Apply(s, Wipe([])) == s.(queues := Queues.TakeUp(s.queues, true), pending := [])
  {
    var s' := Apply(s, Wipe([]));
    assert s'.rows == map[] && s'.wiped == s.wiped;
  }

  /** From the crash on: the event comes back, its DELETE finds no rows, and nothing is evicted. */
  lemma Redelivered(m: Queues.Message, code: string)
    requires m.payload.UserDeleted?
    ensures var s := World(InMain(m, map[m.event := 1], 1), map[], {code}, [], {code}, map[code := m.event]);
            var steps := [Carry(Queues.Deliver)] + ([Wipe([])] + ([Carry(Queues.Ack)] + []));
            && LegalFrom(s, steps)
            && After(s, steps) == World(Settled(m), map[], {code}, [], {code}, map[code := m.event])
  {
    var s := World(InMain(m, map[m.event := 1], 1), map[], {code}, [], {code}, map[code := m.event]);
    var s1 := s.(queues := InInbox(m, map[m.event := 1], 1));
    DeliveredFirst(m, map[m.event := 1], 1);
    var s2 := s1.(queues := InInbox(m, map[m.event := 2], 1).(stage := Queues.Wiped));
    WipeOfNothing(s1);
    assert Queues.Bump(map[m.event := 1], m.event) == map[m.event := 2];
    assert Queues.Acknowledge(s2.queues) == Settled(m);
    Then(s2, Carry(Queues.Ack), []);
    Then(s1, Wipe([]), [Carry(Queues.Ack)] + []);
    Then(s, Carry(Queues.Deliver), [Wipe([])] + ([Carry(Queues.Ack)] + []));
  }

  /** Up to the crash: the row is wiped, and its code has not been evicted. */
  lemma UpToCrash(m: Queues.Message, code: string, rest: seq<Step>)
    requires m.payload.UserDeleted?
    requires LegalFrom(World(InMain(m, map[m.event := 1], 1), map[], {code}, [], {code}, map[code := m.event]), rest)
    ensures var s := World(InMain(m, map[], 0), map[code := m.payload.userId], {code}, [], {code}, map[]);
            var steps := [Carry(Queues.Deliver)] + ([Wipe([code])] + ([Carry(Queues.Crash)] + rest));
            && LegalFrom(s, steps)
            && After(s, steps)
               == After(World(InMain(m, map[m.event := 1], 1), map[], {code}, [], {code}, map[code := m.event]), rest)
  {
    var s := World(InMain(m, map[], 0), map[code := m.payload.userId], {code}, [], {code}, map[]);
    var s1 := s.(queues := InInbox(m, map[], 0));
    DeliveredFirst(m, map[], 0);
    assert code in [code];
    var s2 := Apply(s1, Wipe([code]));
    assert s2.rows == map[] && s2.wiped == map[code := m.event] && s2.pending == [code];
    var s3 := Apply(s2, Carry(Queues.Crash));
    assert s3.queues.main == [Queues.Entry(m, 0)];
    assert s3 == World(InMain(m, map[m.event := 1], 1), map[], {code}, [], {code}, map[code := m.event]);
    Then(s2, Carry(Queues.Crash), rest);
    Then(s1, Wipe([code]), [Carry(Queues.Crash)] + rest);
    Then(s, Carry(Queues.Deliver), [Wipe([code])] + ([Carry(Queues.Crash)] + rest));
  }

  /**
   A settled deletion can leave a code in Redis: the consumer dies between the DELETE and the DEL, and the
   redelivered DELETE returns no codes any more. Every queue is empty, so nothing will come to evict it.
   */
  lemma CrashLosesTheEviction(m: Queues.Message, code: string)
    requires m.payload.UserDeleted? && Queues.StringHeaders(m)
    ensures LegalFrom(INITIAL, CrashRun(m, code))
    ensures var s := After(INITIAL, CrashRun(m, code));
            && s.queues.settled == [Queues.Entry(m, 0)] && s.queues.main == s.queues.inbox == []
            && s.rows == map[] && s.pending == [] && Stray(s, code)
  {
    var s1 := Apply(INITIAL, Create(code, m.payload.userId));
    var s2 := Apply(s1, Cache(code));
    var s3 := Apply(s2, Carry(Queues.Publish(m)));
    assert s3 == World(InMain(m, map[], 0), map[code := m.payload.userId], {code}, [], {code}, map[]);
    var last := [Carry(Queues.Deliver)] + ([Wipe([])] + ([Carry(Queues.Ack)] + []));
    Redelivered(m, code);
    UpToCrash(m, code, last);
    var middle := [Carry(Queues.Deliver)] + ([Wipe([code])] + ([Carry(Queues.Crash)] + last));
    Then(s2, Carry(Queues.Publish(m)), middle);
    Then(s1, Cache(code), [Carry(Queues.Publish(m))] + middle);
    Then(INITIAL, Create(code, m.payload.userId), [Cache(code)] + ([Carry(Queues.Publish(m))] + middle));
  }

  // ---------------------------------------------------------------- the queues alone

  /** What the schedule does to the queues. */
  ghost function OnQueues(steps: seq<Step>): seq<Queues.Step> {
    if steps == [] then []
    else
      (match steps[0]
       case Carry(q) => [q]
       case Wipe(_) => [Queues.Process(true)]
       case _ => []) + OnQueues(steps[1..])
  }

  /** It is a schedule of the retry protocol, so all that protocol guarantees holds here too. */
  lemma {:induction false} QueuesFollowTheProtocol(s: World, steps: seq<Step>)
    requires LegalFrom(s, steps)
    ensures Queues.LegalFrom(s.queues, OnQueues(steps))
    ensures Queues.After(s.queues, OnQueues(steps)) == After(s, steps).queues
    decreases |steps|
  {
    if steps != [] {
      QueuesFollowTheProtocol(Apply(s, steps[0]), steps[1..]);
      var rest := OnQueues(steps[1..]);
      if steps[0].Carry? {
        Queues.AfterThen(s.queues, steps[0].step, rest);
      } else if steps[0].Wipe? {
        Queues.AfterThen(s.queues, Queues.Process(true), rest);
      } else {
        assert OnQueues(steps) == [] + rest == rest;
      }
    }
  }

  lemma {:induction false} QueuesKeepTheirInvariant(steps: seq<Step>, s: World)
    requires LeadsTo(steps, s)
    ensures RetryGuarantees.Inv(s.queues)
  {
    QueuesFollowTheProtocol(INITIAL, steps);
    RetryGuarantees.Reachable(OnQueues(steps), s.queues);
  }

  // ---------------------------------------------------------------- the loop over the codes

  ghost function Evictions(answers: seq<bool>): seq<Step> {
    if answers == [] then [] else [Evict(answers[0])] + Evictions(answers[1..])
  }

  /** Some DEL of the code was answered. */
  ghost predicate Evicted(codes: seq<string>, answers: seq<bool>, code: string)
    requires |codes| == |answers|
  {
    exists i :: 0 <= i < |codes| && codes[i] == code && answers[i]
  }

  /** One DEL after the other, whether or not Redis answers; these are the protocol's evictions. */
  method EvictCodes(redis: set<string>, codes: seq<string>, answers: seq<bool>, ghost s: World)
    returns (redis': set<string>)
    requires |answers| == |codes| && s.redis == redis && s.pending == codes
    ensures LegalFrom(s, Evictions(answers))
    ensures After(s, Evictions(answers)) == s.(redis := redis', pending := [])
    ensures forall code :: code in redis' <==> code in redis && !Evicted(codes, answers, code)
  {
    redis' := redis;
    for i := 0 to |codes|
      invariant forall code :: code in redis' <==> code in redis && !Evicted(codes[..i], answers[..i], code)
      invariant LegalFrom(s.(redis := redis', pending := codes[i..]), Evictions(answers[i..])) ==>
                  LegalFrom(s, Evictions(answers))
                  && After(s, Evictions(answers))
                     == After(s.(redis := redis', pending := codes[i..]), Evictions(answers[i..]))
    {
      ghost var before := s.(redis := redis', pending := codes[i..]);
      if answers[i] {
        redis' := redis' - {codes[i]};
      }
      assert answers[i..][1..] == answers[i + 1..] && codes[i..][1..] == codes[i + 1..];
      ghost var after := s.(redis := redis', pending := codes[i + 1..]);
      assert Apply(before, Evict(answers[i])) == after;
      if LegalFrom(after, Evictions(answers[i + 1..])) {
        Then(before, Evict(answers[i]), Evictions(answers[i + 1..]));
      }
      OneMoreEvicted(codes, answers, i);
    }
    assert codes[..|codes|] == codes && answers[..|codes|] == answers;
  }

  lemma OneMoreEvicted(codes: seq<string>, answers: seq<bool>, i: nat)
    requires |codes| == |answers| && i < |codes|
    ensures forall code :: Evicted(codes[..i + 1], answers[..i + 1], code) <==>
              Evicted(codes[..i], answers[..i], code) || (codes[i] == code && answers[i])
  {
    forall code
      ensures Evicted(codes[..i + 1], answers[..i + 1], code) <==>
                Evicted(codes[..i], answers[..i], code) || (codes[i] == code && answers[i])
    {
      EvictedWithin(codes, answers, i + 1, code);
      EvictedWithin(codes, answers, i, code);
    }
  }

  lemma EvictedWithin(codes: seq<string>, answers: seq<bool>, n: nat, code: string)
    requires |codes| == |answers| && n <= |codes|
    ensures Evicted(codes[..n], answers[..n], code) <==> exists i :: 0 <= i < n && codes[i] == code && answers[i]
  {
    if Evicted(codes[..n], answers[..n], code) {
      var i :| 0 <= i < n && codes[..n][i] == code && answers[..n][i];
      assert codes[i] == code && answers[i];
    }
    if i :| 0 <= i < n && codes[i] == code && answers[i] {
      assert codes[..n][i] == code && answers[..n][i];
    }
  }
}
