/**
 What becomes of a row while it is there: who may delete it, and what may change its clicks and its expiry.
 A link is reactivated only when its caller has seen it expired, but by then another caller may have
 reactivated it.
 */
module Reactivation {
  import opened Wrappers
  import opened Codec
  import opened UrlTable

  /** A row goes when its owner deletes it or all rows of its owner are wiped, and never otherwise. */
  lemma RowsGoByTheirOwner(db: Db, step: Step, id: int)
    requires Enabled(db, step) && id in db.rows
    ensures id !in Apply(db, step).rows <==>
              step == Delete(id, db.rows[id].user) || step == Wipe(db.rows[id].user)
  {
  }

  /** The step is the UPDATE that reactivates this row. */
  ghost predicate Reactivates(db: Db, step: Step, id: int) {
    step.Reactivate? && step.k in db.calls && db.calls[step.k].progress == Reactivating(id)
  }

  /** Counting adds to the clicks, reactivating sets the expiry that was asked for, and nothing else changes a row. */
  lemma RowsChangeBy(db: Db, step: Step, id: int)
    requires Inv(db) && Enabled(db, step) && id in db.rows && id in Apply(db, step).rows
    ensures var row, row' := db.rows[id], Apply(db, step).rows[id];
            && row' == row.(clicks := row'.clicks, expires := row'.expires)
            && row'.clicks == row.clicks + (if step.AddClicks? && step.id == id then step.delta else 0)
            && row'.expires == if Reactivates(db, step, id) then db.calls[step.k].request.expires else row.expires
  {
    assert RowFits(db, id);
    if step.Commit? {
      OwnersAreForever(db, step);
      assert CallFits(db, step.k);
    } else if step.Reactivate? {
      assert CallFits(db, step.k);
    }
  }

  /** No other call reactivates the row along the schedule. */
  ghost predicate LeftAlone(db: Db, steps: seq<Step>, id: int)
    requires LegalFrom(db, steps)
    decreases |steps|
  {
    steps == [] || (!Reactivates(db, steps[0], id) && LeftAlone(Apply(db, steps[0]), steps[1..], id))
  }

  lemma {:induction false} ExpiryStays(db: Db, steps: seq<Step>, id: int)
    requires Inv(db) && LegalFrom(db, steps) && LeftAlone(db, steps, id) && id in db.rows
    requires id in After(db, steps).rows
    ensures After(db, steps).rows[id].expires == db.rows[id].expires
    decreases |steps|
  {
    if steps != [] {
      var db1 := Apply(db, steps[0]);
      StepKeepsInv(db, steps[0]);
      if id !in db1.rows {
        assert RowFits(db, id);
        OwnersAreForever(db, steps[0]);
        OwnersOverRun(db1, steps[1..], id);
        assert false;
      } else {
        RowsChangeBy(db, steps[0], id);
        ExpiryStays(db1, steps[1..], id);
      }
    }
  }

  /**
   A caller goes on to reactivate a row only if that had expired when it looked; and that is still the
   expiry it overwrites, if no other caller has reactivated the row since.
   */
  lemma {:induction false} ReactivationHitsWhatWasSeen(db: Db, k: nat, now: Time, steps: seq<Step>, id: int)
    requires Inv(db) && Enabled(db, Select(k, now)) && Apply(db, Select(k, now)).calls[k].progress == Reactivating(id)
    requires LegalFrom(Apply(db, Select(k, now)), steps)
    ensures id in db.rows && db.rows[id].expires.Some? && db.rows[id].expires.value < now
    ensures db.rows[id].original == db.calls[k].request.original && db.rows[id].user == db.calls[k].request.user
    ensures var later := After(Apply(db, Select(k, now)), steps);
            LeftAlone(Apply(db, Select(k, now)), steps, id) && id in later.rows ==>
              later.rows[id].expires == db.rows[id].expires
  {
    var r := db.calls[k].request;
    var found := Find(db.rows, r.original, r.user);
    var i :| i in db.rows && db.rows[i] == found.value && SameKey(db.rows[i], r.original, r.user);
    assert RowFits(db, i);
    var db1 := Apply(db, Select(k, now));
    StepKeepsInv(db, Select(k, now));
    if LeftAlone(db1, steps, id) && id in After(db1, steps).rows {
      ExpiryStays(db1, steps, id);
    }
  }

  // ---------------------------------------------------------------- a live link reactivated

  ghost predicate OneLink(db: Db, url: string, expires: Time) {
    && Inv(db) && 1 in db.rows && db.rows.Keys == {1} && db.calls.Keys == {0}
    && db.rows[1].original == url && db.rows[1].user == 0 && db.rows[1].id == 1
    && db.rows[1].expires == Some(expires)
  }

  lemma LinkThatExpires(url: string, expires: Time) returns (steps: seq<Step>, db: Db)
    ensures LeadsTo(steps, db) && OneLink(db, url, expires)
  {
    var begin := Begin(0, Request(url, 0, Some(expires)));
    var db0 := Apply(INITIAL, begin);
    InitiallyInv();
    StepKeepsInv(INITIAL, begin);
    CallOnItsOwn(db0, 0, 0);
    AfterCons(INITIAL, begin, CallSteps(db0, 0, 0));
    steps := [begin] + CallSteps(db0, 0, 0);
    db := After(INITIAL, steps);
    Reachable(INITIAL, steps);
    assert db.calls.Keys == {0} by {
      CallsOfOne(db0, CallSteps(db0, 0, 0));
    }
  }

  /** Steps of a call that is already there neither add calls nor take them away. */
  lemma {:induction false} CallsOfOne(db: Db, steps: seq<Step>)
    requires LegalFrom(db, steps)
    requires forall i :: 0 <= i < |steps| ==> !steps[i].Begin? && !steps[i].Forget?
    ensures After(db, steps).calls.Keys == db.calls.Keys
    decreases |steps|
  {
    if steps != [] {
      assert !steps[0].Begin? && !steps[0].Forget?;
      assert Apply(db, steps[0]).calls.Keys == db.calls.Keys;
      assert forall i :: 0 <= i < |steps| - 1 ==> steps[1..][i] == steps[i + 1];
      CallsOfOne(Apply(db, steps[0]), steps[1..]);
    }
  }

  /** Two callers have looked at the same expired row. */
  ghost function BothLooked(db: Db, first: Request, second: Request): Db {
    db.(calls := db.calls[1 := Call(first, Reactivating(1))][2 := Call(second, Reactivating(1))])
  }

  lemma LookTwice(db: Db, first: Request, second: Request, now: Time)
    requires OneLink(db, first.original, 0) && first.user == 0 && now > 0
    requires second.original == first.original && second.user == 0
    ensures var steps := [Begin(1, first)] + ([Select(1, now)] + ([Begin(2, second)] + ([Select(2, now)] + [])));
            LegalFrom(db, steps) && After(db, steps) == BothLooked(db, first, second)
  {
    var db1 := Apply(db, Begin(1, first));
    SeesTheLink(db, first);
    var db2 := Apply(db1, Select(1, now));
    var db3 := Apply(db2, Begin(2, second));
    SeesTheLink(db, second);
    var db4 := Apply(db3, Select(2, now));
    assert db4 == BothLooked(db, first, second);
    AfterCons(db3, Select(2, now), []);
    AfterCons(db2, Begin(2, second), [Select(2, now)] + []);
    AfterCons(db1, Select(1, now), [Begin(2, second)] + ([Select(2, now)] + []));
    AfterCons(db, Begin(1, first), [Select(1, now)] + ([Begin(2, second)] + ([Select(2, now)] + [])));
  }

  lemma SeesTheLink(db: Db, r: Request)
    requires OneLink(db, r.original, 0) && r.user == 0
    ensures Find(db.rows, r.original, r.user) == Some(db.rows[1])
  {
    var found := Find(db.rows, r.original, r.user);
    assert SameKey(db.rows[1], r.original, r.user);
    var i :| i in db.rows && db.rows[i] == found.value && SameKey(db.rows[i], r.original, r.user);
    assert i == 1;
  }

  lemma {:induction false} Both(db: Db, front: seq<Step>, rest: seq<Step>)
    requires LegalFrom(db, front) && LegalFrom(After(db, front), rest)
    ensures LegalFrom(db, front + rest) && After(db, front + rest) == After(After(db, front), rest)
    decreases |front|
  {
    if front == [] {
      assert front + rest == rest;
    } else {
      Both(Apply(db, front[0]), front[1..], rest);
      assert (front + rest)[1..] == front[1..] + rest && (front + rest)[0] == front[0];
    }
  }

  /**
   A live link can lose its expiry to a second reactivation: both callers have seen it expired at time
   ten, the first makes it live until the time it asked for, and the second overwrites that. Both are told
   that they reactivated the link.
   */
  lemma LiveLinkReactivated(url: string, until: Time, later: Option<Time>) returns (steps: seq<Step>, db: Db, db': Db)
    requires until > 10
    ensures LeadsTo(steps, db) && Enabled(db, Reactivate(2)) && db' == Apply(db, Reactivate(2))
    ensures 1 in db.rows && db.rows[1].original == url && db.rows[1].expires == Some(until)
    ensures 1 in db'.rows && db'.rows[1].expires == later
    ensures 1 in db.calls && db.calls[1].progress == Returned(Reactivated(db.rows[1]))
    ensures 2 in db'.calls && db'.calls[2].progress == Returned(Reactivated(db'.rows[1]))
  {
    var front, db0 := LinkThatExpires(url, 0);
    var first, second := Request(url, 0, Some(until)), Request(url, 0, later);
    var look := [Begin(1, first)] + ([Select(1, 10)] + ([Begin(2, second)] + ([Select(2, 10)] + [])));
    LookTwice(db0, first, second, 10);
    Both(INITIAL, front, look);
    var seen := BothLooked(db0, first, second);
    AfterCons(seen, Reactivate(1), []);
    Both(INITIAL, front + look, [Reactivate(1)] + []);
    steps := front + look + ([Reactivate(1)] + []);
    db := After(INITIAL, steps);
    db' := Apply(db, Reactivate(2));
  }
}
