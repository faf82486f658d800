/**
 Positional number notation in an arbitrary base, most significant digit first and
 without leading zeros. Both text codecs of the URL service (base 62 short codes and
 hexadecimal cursors) are spelled with these digits.
 */
module Digits {

  function Pow(b: nat, k: nat): nat
  {
    if k == 0 then 1 else b * Pow(b, k - 1)
  }

  ghost predicate DigitsUnder(ds: seq<nat>, b: nat) {
    forall i :: 0 <= i < |ds| ==> ds[i] < b
  }

  function ToDigits(n: nat, b: nat): (ds: seq<nat>)
    requires b >= 2
    ensures |ds| >= 1 && DigitsUnder(ds, b)
  {
    if n < b then [n]
    else
      QuotientSmaller(n, b);
      ToDigits(n / b, b) + [n % b]
  }

  lemma QuotientSmaller(n: nat, b: nat)
    requires 2 <= b <= n
    ensures 1 <= n / b < n
  {
    var q := n / b;
    assert n == q * b + n % b;
    assert q * (b - 2) >= 0 && q * b == q * (b - 2) + 2 * q;
  }

  function FromDigits(ds: seq<nat>, b: nat): nat
  {
    if ds == [] then 0 else FromDigits(ds[..|ds| - 1], b) * b + ds[|ds| - 1]
  }

  /** Canonical notation: at least one digit, and no leading zero unless it is the only digit. */
  ghost predicate Canonical(ds: seq<nat>) {
    |ds| >= 1 && (ds[0] == 0 ==> |ds| == 1)
  }

  lemma ReadsLast(front: seq<nat>, d: nat, b: nat)
    ensures FromDigits(front + [d], b) == FromDigits(front, b) * b + d
  {
    assert (front + [d])[..|front|] == front;
  }

  lemma QuotientTimesBase(n: nat, b: nat)
    requires b >= 2
    ensures (n / b) * b + n % b == n
  {
  }

  lemma {:induction false} ReadsBack(n: nat, b: nat)
    requires b >= 2
    ensures FromDigits(ToDigits(n, b), b) == n
    decreases n
  {
    if n < b {
      ReadsLast([], n, b);
      assert [] + [n] == [n];
    } else {
      QuotientSmaller(n, b);
      var q, r := n / b, n % b;
      ReadsBack(q, b);
      ReadsLast(ToDigits(q, b), r, b);
      QuotientTimesBase(n, b);
    }
  }

  lemma {:induction false} WrittenCanonically(n: nat, b: nat)
    requires b >= 2
    ensures Canonical(ToDigits(n, b))
    ensures ToDigits(n, b)[0] == 0 <==> n == 0
    decreases n
  {
    if n >= b {
      WrittenCanonically(n / b, b);
      assert n / b > 0;
    }
  }

  lemma {:induction false} PositiveWithoutLeadingZero(ds: seq<nat>, b: nat)
    requires b >= 2 && |ds| >= 1 && ds[0] != 0
    ensures FromDigits(ds, b) >= 1
    decreases |ds|
  {
    if |ds| > 1 {
      PositiveWithoutLeadingZero(ds[..|ds| - 1], b);
      assert FromDigits(ds[..|ds| - 1], b) * b >= 1 * b;
    }
  }

  lemma Monotone(x: nat, y: nat, b: nat)
    requires x <= y
    ensures x * b <= y * b
  {
  }

  lemma QuotientRemainder(v: nat, d: nat, b: nat)
    requires d < b
    ensures (v * b + d) / b == v && (v * b + d) % b == d
  {
    var q := (v * b + d) / b;
    assert q * b <= v * b + d < (q + 1) * b;
    assert (v + 1) * b == v * b + b;
    if q < v {
      Monotone(q + 1, v, b);
      assert false;
    }
    if q > v {
      Monotone(v + 1, q, b);
      assert false;
    }
  }

  /** The notation is a bijection: canonical digits are the ones written for their value. */
  lemma {:induction false} WritesBack(ds: seq<nat>, b: nat)
    requires b >= 2 && Canonical(ds) && DigitsUnder(ds, b)
    ensures ToDigits(FromDigits(ds, b), b) == ds
    decreases |ds|
  {
    var front, last := ds[..|ds| - 1], ds[|ds| - 1];
    ReadsLast(front, last, b);
    assert ds == front + [last];
    if |ds| == 1 {
      assert front == [];
      assert FromDigits(front, b) == 0;
    } else {
      WritesBack(front, b);
      PositiveWithoutLeadingZero(front, b);
      var v := FromDigits(front, b);
      QuotientRemainder(v, last, b);
      Monotone(1, v, b);
      assert ToDigits(v * b + last, b) == ToDigits(v, b) + [last];
    }
  }

  /** A value below b^k takes at most k digits. */
  lemma {:induction false} DigitCount(n: nat, b: nat, k: nat)
    requires b >= 2 && k >= 1 && n < Pow(b, k)
    ensures |ToDigits(n, b)| <= k
    decreases k
  {
    if n >= b {
      assert Pow(b, k) == b * Pow(b, k - 1);
      if k == 1 {
        assert false;
      }
      if n / b >= Pow(b, k - 1) {
        Monotone(Pow(b, k - 1), n / b, b);
        assert false;
      }
      DigitCount(n / b, b, k - 1);
    }
  }
}
