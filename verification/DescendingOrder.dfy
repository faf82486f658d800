/** Sets of positive ids listed from the largest to the smallest, as ORDER BY url_id DESC does. */
module DescendingOrder {

  ghost predicate Descends(ids: seq<int>) {
    forall i, j :: 0 <= i < j < |ids| ==> ids[i] > ids[j]
  }

  ghost predicate Enumerates(ids: seq<int>, s: set<int>) {
    Descends(ids) && forall x :: x in ids <==> x in s
  }

  /** The ids of s under the bound, largest first. */
  ghost function Below(s: set<int>, bound: int): (ids: seq<int>)
    ensures forall i :: 0 <= i < |ids| ==> 1 <= ids[i] < bound
    decreases bound
  {
    if bound <= 1 then []
    else (if bound - 1 in s then [bound - 1] else []) + Below(s, bound - 1)
  }

  ghost function Under(s: set<int>, bound: int): set<int> {
    set x | x in s && 1 <= x < bound
  }

  lemma {:induction false} BelowDescends(s: set<int>, bound: int)
    ensures Descends(Below(s, bound))
    decreases bound
  {
    if bound > 1 {
      BelowDescends(s, bound - 1);
    }
  }

  lemma {:induction false} BelowContains(s: set<int>, bound: int, x: int)
    ensures x in Below(s, bound) <==> x in s && 1 <= x < bound
    decreases bound
  {
    if bound > 1 {
      BelowContains(s, bound - 1, x);
    }
  }

  lemma BelowEnumerates(s: set<int>, bound: int)
    ensures Enumerates(Below(s, bound), Under(s, bound))
  {
    BelowDescends(s, bound);
    forall x ensures x in Below(s, bound) <==> x in Under(s, bound) {
      BelowContains(s, bound, x);
    }
  }

  lemma {:induction false} BelowCounts(s: set<int>, bound: int)
    ensures |Below(s, bound)| == |Under(s, bound)|
    decreases bound
  {
    if bound <= 1 {
      assert Under(s, bound) == {};
    } else {
      BelowCounts(s, bound - 1);
      if bound - 1 in s {
        assert Under(s, bound) == Under(s, bound - 1) + {bound - 1};
      } else {
        assert Under(s, bound) == Under(s, bound - 1);
      }
    }
  }

  lemma PastTheFirst(first: int, rest: seq<int>, k: nat)
    requires k < |rest| + 1
    ensures ([first] + rest)[k + 1..] == rest[k..]
    ensures ([first] + rest)[k] == if k > 0 then rest[k - 1] else first
  {
  }

  /** Keyset: what follows an id in the list is what lies under it. */
  lemma {:induction false} RestIsBelow(s: set<int>, bound: int, k: nat)
    requires k < |Below(s, bound)|
    ensures Below(s, bound)[k + 1..] == Below(s, Below(s, bound)[k])
    decreases bound
  {
    if bound > 1 {
      if bound - 1 in s {
        PastTheFirst(bound - 1, Below(s, bound - 1), k);
        if k > 0 {
          RestIsBelow(s, bound - 1, k - 1);
        }
      } else {
        assert Below(s, bound) == Below(s, bound - 1);
        RestIsBelow(s, bound - 1, k);
      }
    }
  }

  /** An id k places down the list is at least k + 1 under the bound. */
  lemma {:induction false} DropsWithPosition(s: set<int>, bound: int, k: nat)
    requires k < |Below(s, bound)|
    ensures Below(s, bound)[k] <= bound - 1 - k
    decreases bound
  {
    if bound > 1 {
      if bound - 1 in s {
        if k > 0 {
          DropsWithPosition(s, bound - 1, k - 1);
        }
      } else {
        DropsWithPosition(s, bound - 1, k);
      }
    }
  }

  lemma HeadIn(ids: seq<int>, s: set<int>)
    requires Enumerates(ids, s) && ids != []
    ensures ids[0] in s && forall x :: x in s ==> x <= ids[0]
  {
    var h := ids[0];
    assert h in ids;
    assert h in s;
    forall x | x in s ensures x <= h {
      assert x in ids;
      var i :| 0 <= i < |ids| && ids[i] == x;
    }
  }

  lemma TailEnumerates(ids: seq<int>, s: set<int>)
    requires Enumerates(ids, s) && ids != []
    ensures Enumerates(ids[1..], s - {ids[0]})
  {
    var h, t := ids[0], ids[1..];
    assert ids == [h] + t;
    forall x ensures x in t <==> x in s - {h} {
      if x in t {
        var i :| 0 <= i < |t| && t[i] == x;
        assert ids[i + 1] == x && ids[0] > ids[i + 1];
        assert x in ids && x in s;
      }
      if x in s && x != h {
        assert x in ids;
      }
    }
  }

  /** There is only one way to list a set in descending order. */
  lemma {:induction false} DescendingUnique(a: seq<int>, b: seq<int>, s: set<int>)
    requires Enumerates(a, s) && Enumerates(b, s)
    ensures a == b
    decreases |a|
  {
    if a != [] {
      HeadIn(a, s);
      var h := a[0];
      assert h in s;
      assert h in b;
    }
    if b != [] {
      HeadIn(b, s);
      var h := b[0];
      assert h in s;
      assert h in a;
    }
    if a != [] {
      TailEnumerates(a, s);
      TailEnumerates(b, s);
      DescendingUnique(a[1..], b[1..], s - {a[0]});
      assert a == [a[0]] + a[1..] && b == [b[0]] + b[1..];
    }
  }
}
