/**
 How long cached values serve: a key written to Redis from its write to within a second of the expiry, and
 redirects never later than four seconds after it, when pods store what they are told at once.
 */
module RedisKeys {
  import opened Wrappers
  import opened Codec
  import opened RedirectCache
  import opened RedirectGuarantees
  import opened RedirectHandler
  import UrlTable

  // ---------------------------------------------------------------- the life of a key

  /** Nobody writes or evicts the key of this code in the step. */
  ghost predicate LeavesKey(step: Step, code: string) {
    (step.RunWrite? ==> step.write.code != code) && (step.EvictRedis? ==> step.code != code)
  }

  ghost predicate KeyLeftAlone(steps: seq<Step>, code: string) {
    forall i :: 0 <= i < |steps| ==> LeavesKey(steps[i], code)
  }

  lemma {:induction false} KeyStays(s: World, steps: seq<Step>, code: string)
    requires LegalFrom(s, steps) && KeyLeftAlone(steps, code)
    ensures code in After(s, steps).redis <==> code in s.redis
    ensures code in s.redis ==> After(s, steps).redis[code] == s.redis[code]
    ensures After(s, steps).now >= s.now
    decreases |steps|
  {
    if steps != [] {
      KeyStaysAtOnce(s, steps[0], code);
      assert LeavesKey(steps[0], code);
      assert forall i :: 0 <= i < |steps| - 1 ==> steps[1..][i] == steps[i + 1];
      KeyStays(Apply(s, steps[0]), steps[1..], code);
    }
  }

  lemma KeyStaysAtOnce(s: World, step: Step, code: string)
    requires Enabled(s, step) && LeavesKey(step, code)
    ensures code in Apply(s, step).redis <==> code in s.redis
    ensures code in s.redis ==> Apply(s, step).redis[code] == s.redis[code]
    ensures Apply(s, step).now >= s.now
  {
  }

  /**
   A background write for a link that expires a second from now or later keeps its URL in Redis from then
   on until at most a second before the expiry, and less than a second beyond it; times are in nanoseconds.
   */
  lemma {:induction false} WrittenKeyLives(s: World, w: Write, steps: seq<Step>)
    requires Enabled(s, RunWrite(w)) && w.expires.Some? && w.expires.value >= s.now + 1_000_000_000
    requires LegalFrom(Apply(s, RunWrite(w)), steps) && KeyLeftAlone(steps, w.code)
    ensures var s' := After(Apply(s, RunWrite(w)), steps);
            && (s'.now <= w.expires.value - 1_000_000_000 ==>
                  LiveInRedis(s'.redis, w.code, s'.now) && s'.redis[w.code].url == w.url)
            && (s'.now >= w.expires.value + 1_000_000_000 ==> !LiveInRedis(s'.redis, w.code, s'.now))
  {
    TtlOvershoot(w.expires.value, s.now);
    KeyStays(Apply(s, RunWrite(w)), steps, w.code);
  }

  /** A link without expiry is written to stay. */
  lemma {:induction false} LastingKeyLives(s: World, w: Write, steps: seq<Step>)
    requires Enabled(s, RunWrite(w)) && w.expires.None?
    requires LegalFrom(Apply(s, RunWrite(w)), steps) && KeyLeftAlone(steps, w.code)
    ensures var s' := After(Apply(s, RunWrite(w)), steps);
            LiveInRedis(s'.redis, w.code, s'.now) && s'.redis[w.code].url == w.url
  {
    KeyStays(Apply(s, RunWrite(w)), steps, w.code);
  }

  /** A link that has expired already, to the second, is not written at all. */
  lemma LateWriteIsDropped(s: World, w: Write)
    requires Enabled(s, RunWrite(w)) && w.expires.Some? && w.expires.value <= s.now
    ensures Apply(s, RunWrite(w)).redis == s.redis
  {
  }

  /**
   So while the key lives, a pod that holds nothing of the code redirects to its URL, whether or not the
   replica can be asked.
   */
  lemma LiveKeyRedirects(s: World, slot: Slot, tableUp: bool)
    requires slot !in s.loads && s.replica < |s.history|
    requires !LiveInL1(s.l1, slot, s.now) && LiveInRedis(s.redis, slot.1, s.now)
    ensures StatusOf(AfterLookup(s, slot, true, tableUp), slot) == TemporaryRedirect(s.redis[slot.1].url)
  {
  }

  /** Requests of other pods are redirected from the write to within a second of the expiry, with the replica down. */
  lemma {:induction false} WrittenLinkSurvivesOutage(s: World, w: Write, steps: seq<Step>, slot: Slot)
    requires Inv(s) && Enabled(s, RunWrite(w)) && slot.1 == w.code
    requires w.expires.Some? ==> w.expires.value >= s.now + 1_000_000_000
    requires LegalFrom(Apply(s, RunWrite(w)), steps) && KeyLeftAlone(steps, w.code)
    requires var s' := After(Apply(s, RunWrite(w)), steps);
             && slot !in s'.loads && !LiveInL1(s'.l1, slot, s'.now)
             && (w.expires.Some? ==> s'.now <= w.expires.value - 1_000_000_000)
    ensures var s' := After(Apply(s, RunWrite(w)), steps);
            s'.replica < |s'.history|
            && StatusOf(AfterLookup(s', slot, true, false), slot) == TemporaryRedirect(w.url)
  {
    var s1 := Apply(s, RunWrite(w));
    var s' := After(s1, steps);
    StepKeepsCoherent(s, RunWrite(w));
    StepKeepsTimely(s, RunWrite(w));
    Reachable(s1, steps);
    if w.expires.Some? {
      WrittenKeyLives(s, w, steps);
    } else {
      LastingKeyLives(s, w, steps);
    }
    LiveKeyRedirects(s', slot, false);
  }

  // ---------------------------------------------------------------- four seconds at the most

  /** Time passes only while no pod has an answer it has not stored yet. */
  ghost predicate StoresAtOnce(s: World, step: Step) {
    step.Pass? && step.duration > 0 ==> forall slot :: slot in s.loads ==> !s.loads[slot].Resolved?
  }

  ghost predicate Prompt(s: World, steps: seq<Step>)
    requires LegalFrom(s, steps)
    decreases |steps|
  {
    steps == [] || (StoresAtOnce(s, steps[0]) && Prompt(Apply(s, steps[0]), steps[1..]))
  }

  ghost predicate PromptInv(s: World) {
    && (forall slot :: slot in s.loads && s.loads[slot].Resolved? ==> s.loads[slot].lookup.readAt == s.now)
    && (forall slot :: slot in s.l1 ==> s.l1[slot].lookup.readAt == s.l1[slot].insertedAt)
  }

  lemma StepKeepsPrompt(s: World, step: Step)
    requires PromptInv(s) && Enabled(s, step) && StoresAtOnce(s, step)
    ensures PromptInv(Apply(s, step))
  {
  }

  lemma {:induction false} PromptRuns(s: World, steps: seq<Step>)
    requires PromptInv(s) && LegalFrom(s, steps) && Prompt(s, steps)
    ensures PromptInv(After(s, steps))
    decreases |steps|
  {
    if steps != [] {
      StepKeepsPrompt(s, steps[0]);
      PromptRuns(Apply(s, steps[0]), steps[1..]);
    }
  }

  /**
   Bounded staleness in numbers. If pods store what they are told at once, a redirect for a link that was
   read with an expiry is served less than four seconds after it.
   */
  lemma {:induction false} RedirectsEndInFourSeconds(steps: seq<Step>, slot: Slot, url: string)
    requires LegalFrom(INITIAL, steps) && Prompt(INITIAL, steps)
    requires Answers(After(INITIAL, steps), slot, RedirectTo(url))
    ensures var s := After(INITIAL, steps);
            exists expires :: Held(s.history, slot.1, expires)
                              && (expires.Some? ==> s.now < expires.value + 4_000_000_000)
  {
    RedirectsExpire(steps, slot, url);
    PromptRuns(INITIAL, steps);
  }

  // ---------------------------------------------------------------- after a 410

  lemma GoneEntryGoes(s: World, slot: Slot, redisUp: bool, tableUp: bool)
    requires slot !in s.loads && s.replica < |s.history|
    requires StatusOf(AfterLookup(s, slot, redisUp, tableUp), slot) == Gone410
    ensures slot !in AfterRequest(s, slot, redisUp, tableUp).l1
    ensures forall other :: other != slot && other in s.l1 ==>
              other in AfterRequest(s, slot, redisUp, tableUp).l1
              && AfterRequest(s, slot, redisUp, tableUp).l1[other] == s.l1[other]
  {
    OthersStay(s, slot, redisUp, tableUp);
  }

  lemma OthersStay(s: World, slot: Slot, redisUp: bool, tableUp: bool)
    requires slot !in s.loads && s.replica < |s.history|
    ensures forall other :: other != slot && other in s.l1 ==>
              other in AfterLookup(s, slot, redisUp, tableUp).l1
              && AfterLookup(s, slot, redisUp, tableUp).l1[other] == s.l1[other]
  {
  }

  /**
   A pod forgets a link it has answered with 410, and only that: if the link has been reactivated and the
   replica has followed, the pod's next request is redirected, without waiting for the entry to run out.
   */
  lemma GoneIsForgotten(s: World, slot: Slot, redisUp: bool, tableUp: bool, later: World, id: int)
    requires slot !in s.loads && s.replica < |s.history|
    requires StatusOf(AfterLookup(s, slot, redisUp, tableUp), slot) == Gone410
    requires Inv(later) && later.l1 == AfterRequest(s, slot, redisUp, tableUp).l1 && slot !in later.loads
    requires later.replica == |later.history| - 1 && !LiveInRedis(later.redis, slot.1, later.now)
    requires HasRow(later.db.rows, id, slot.1)
    requires later.db.rows[id].expires.Some? ==> later.db.rows[id].expires.value >= later.now
    ensures StatusOf(AfterLookup(later, slot, redisUp, true), slot) == TemporaryRedirect(later.db.rows[id].original)
    ensures forall other :: other != slot && other in s.l1 ==> other in later.l1 && later.l1[other] == s.l1[other]
  {
    GoneEntryGoes(s, slot, redisUp, tableUp);
    ColdRequestReadsTheTable(later, slot, redisUp);
  }
}
