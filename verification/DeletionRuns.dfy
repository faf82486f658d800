/**
 Runs from the empty system that show the deletion bound at work: one in which the delete handler has
 done all it can and the link comes back, and runs in which a pod redirects for almost three seconds.
 */
module DeletionRuns {
  import opened Wrappers
  import opened Codec
  import opened RedirectCache
  import opened RedirectGuarantees
  import opened DeletionBound
  import opened RedirectHandler
  import UrlTable

  /** The schedule may be taken from the empty system, and leads here. */
  ghost predicate LeadsTo(steps: seq<Step>, s: World) {
    LegalFrom(INITIAL, steps) && After(INITIAL, steps) == s
  }

  lemma GoesOn(front: seq<Step>, s: World, steps: seq<Step>, s': World)
    requires LeadsTo(front, s) && LegalFrom(s, steps) && After(s, steps) == s'
    ensures LeadsTo(front + steps, s')
  {
    Both(INITIAL, front, steps);
  }

  // ---------------------------------------------------------------- a created link

  ghost function Lifted(steps: seq<UrlTable.Step>): seq<Step> {
    if steps == [] then [] else [TableStep(steps[0])] + Lifted(steps[1..])
  }

  /** Statements of the table are steps of the whole, which leave the caches alone. */
  lemma {:induction false} LiftedRun(s: World, steps: seq<UrlTable.Step>)
    requires UrlTable.LegalFrom(s.db, steps) && s.history != [] && s.history[|s.history| - 1] == s.db.rows
    ensures LegalFrom(s, Lifted(steps))
    ensures var s' := After(s, Lifted(steps));
            && s'.history != [] && |s'.history| >= |s.history|
            && s'.history[|s'.history| - 1] == s'.db.rows
            && s' == s.(db := UrlTable.After(s.db, steps), history := s'.history)
    decreases |steps|
  {
    if steps != [] {
      LiftedRun(Apply(s, TableStep(steps[0])), steps[1..]);
      Cons(s, TableStep(steps[0]), Lifted(steps[1..]));
    }
  }

  ghost predicate NothingCached(s: World) {
    s.redis == map[] && s.l1 == map[] && s.loads == map[] && s.writes == multiset{} && s.now == 0
  }

  /** A world with one link without expiry, which the replica holds too, and empty caches. */
  ghost predicate JustCreated(s: World, url: string) {
    && Inv(s) && NothingCached(s) && s.replica == |s.history| - 1
    && 1 in s.db.rows && s.db.rows[1].original == url && s.db.rows[1].expires == None
    && s.db.rows[1].code == Some(CodeOf(1))
  }

  lemma Creation(url: string) returns (steps: seq<Step>, s: World)
    ensures LeadsTo(steps, s) && JustCreated(s, url)
  {
    var request := UrlTable.Request(url, 0, None);
    var begin := UrlTable.Begin(0, request);
    var db := UrlTable.Apply(UrlTable.INITIAL, begin);
    UrlTable.InitiallyInv();
    UrlTable.StepKeepsInv(UrlTable.INITIAL, begin);
    UrlTable.CallOnItsOwn(db, 0, 0);
    var table := [begin] + UrlTable.CallSteps(db, 0, 0);
    UrlTable.AfterCons(UrlTable.INITIAL, begin, UrlTable.CallSteps(db, 0, 0));
    LiftedRun(INITIAL, table);
    var s1 := After(INITIAL, Lifted(table));
    var follow := Replicate(|s1.history| - 1);
    One(s1, follow);
    s := Apply(s1, follow);
    GoesOn(Lifted(table), s1, [follow], s);
    steps := Lifted(table) + [follow];
    InitiallyInv();
    Reachable(INITIAL, steps);
  }

  // ---------------------------------------------------------------- a load of it, and its deletion

  /** The link loaded by pod 0, its background write pending. */
  ghost function Loaded(s: World, url: string): World {
    s.(l1 := map[(0, CodeOf(1)) := L1Entry(Lookup(Found(url, None), None, 0), 0)],
       writes := multiset{Write(CodeOf(1), url, None)})
  }

  lemma LoadIt(s: World, url: string)
    requires JustCreated(s, url)
    ensures var steps := LookupSteps(s, (0, CodeOf(1)), true, true);
            LegalFrom(s, steps) && After(s, steps) == Loaded(s, url)
  {
    var slot: Slot := (0, CodeOf(1));
    LookupIsASchedule(s, slot, true, true);
    CommittedCodesUnique(s.db);
    RowIsFound(s.db.rows, 1, CodeOf(1));
    assert s.history[s.replica] == s.db.rows;
  }

  lemma DeleteIt(s: World)
    requires 1 in s.db.rows && s.db.rows[1].code == Some(CodeOf(1))
    ensures var s1 := AfterDeletion(s, 1, CodeOf(1), true);
            var steps := DeletionSteps(s, 1, s.db.rows[1].user, true) + [Replicate(|s1.history| - 1)];
            s.replica < |s.history| ==> LegalFrom(s, steps) && After(s, steps) == CaughtUp(s1)
  {
    if s.replica < |s.history| {
      var s1 := AfterDeletion(s, 1, CodeOf(1), true);
      DeletionIsASchedule(s, 1, s.db.rows[1].user, true);
      Append(s, DeletionSteps(s, 1, s.db.rows[1].user, true), Replicate(|s1.history| - 1));
    }
  }

  /**
   The deletion bound fails: the row is deleted, the DEL has succeeded and the replica has caught up, but
   the write of an earlier load is still pending, and some schedule redirects three seconds later or more.
   */
  lemma DeletedLinkComesBack(url: string) returns (steps: seq<Step>, s: World)
    ensures LeadsTo(steps, s) && Deleted(s, 1) && !Quiet(s, 1)
    ensures CodeOf(1) !in s.redis && s.replica == |s.history| - 1 && s.loads == map[]
    ensures Resurfaces(s, CodeOf(1), s.now + L1_TTL)
  {
    var front, s0 := Creation(url);
    var s1 := Loaded(s0, url);
    LoadIt(s0, url);
    GoesOn(front, s0, LookupSteps(s0, (0, CodeOf(1)), true, true), s1);
    var middle := front + LookupSteps(s0, (0, CodeOf(1)), true, true);
    s := CaughtUp(AfterDeletion(s1, 1, CodeOf(1), true));
    var last := DeletionSteps(s1, 1, s1.db.rows[1].user, true) + [Replicate(|s.history| - 1)];
    DeleteIt(s1);
    GoesOn(middle, s1, last, s);
    steps := middle + last;
    InitiallyInv();
    Reachable(INITIAL, middle);
    Reachable(INITIAL, steps);
    assert Write(CodeOf(1), url, None) in s.writes;
    assert UrlTable.RowFits(s1.db, 1);
    DeletionIsFinalExactlyWhenQuiet(s, 1, 1);
  }

  /** The write of the load run before the deletion. */
  lemma RunIt(s: World, url: string)
    requires JustCreated(s, url)
    ensures var s1, w := Loaded(s, url), Write(CodeOf(1), url, None);
            LegalFrom(s1, [RunWrite(w)])
            && After(s1, [RunWrite(w)])
               == s1.(redis := map[CodeOf(1) := RedisEntry(url, None, None)], writes := multiset{})
  {
    var s1, w := Loaded(s, url), Write(CodeOf(1), url, None);
    One(s1, RunWrite(w));
    assert multiset{w} - multiset{w} == multiset{};
  }

  /**
   Three seconds (in nanoseconds) are needed: a quiet deletion can be followed by a redirect from a pod's own cache at any
   time short of them. Evicting Redis does not reach the pods.
   */
  lemma PodsRedirectUntilThen(url: string, wait: nat) returns (steps: seq<Step>, s: World)
    requires wait < 3_000_000_000
    ensures LeadsTo(steps, s) && Quiet(s, 1)
    ensures Enabled(s, Pass(wait)) && Answers(Apply(s, Pass(wait)), (0, CodeOf(1)), RedirectTo(url))
  {
    var front, s0 := Creation(url);
    var s1 := Loaded(s0, url);
    LoadIt(s0, url);
    GoesOn(front, s0, LookupSteps(s0, (0, CodeOf(1)), true, true), s1);
    var middle := front + LookupSteps(s0, (0, CodeOf(1)), true, true);
    var s2 := s1.(redis := map[CodeOf(1) := RedisEntry(url, None, None)], writes := multiset{});
    RunIt(s0, url);
    GoesOn(middle, s1, [RunWrite(Write(CodeOf(1), url, None))], s2);
    var most := middle + [RunWrite(Write(CodeOf(1), url, None))];
    s := CaughtUp(AfterDeletion(s2, 1, CodeOf(1), true));
    var last := DeletionSteps(s2, 1, s2.db.rows[1].user, true) + [Replicate(|s.history| - 1)];
    DeleteIt(s2);
    GoesOn(most, s2, last, s);
    steps := most + last;
    InitiallyInv();
    Reachable(INITIAL, most);
    HandledDeletionIsQuiet(s2, 1, true);
  }
}
