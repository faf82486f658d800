/**
 The two text codecs of the URL service: short codes, which are row ids in base 62, and page
 cursors, which are row ids printed in hexadecimal and read back as signed 64-bit integers.
 */
module Codec {
  import opened Wrappers
  import opened Digits

  const MAX_I64: int := 0x7FFF_FFFF_FFFF_FFFF
  const MIN_I64: int := -0x8000_0000_0000_0000
  const TWO_64: int := 0x1_0000_0000_0000_0000

  predicate IsI64(n: int) {
    MIN_I64 <= n <= MAX_I64
  }

  // ---------------------------------------------------------------- short codes

  function Char62(d: nat): char
    requires d < 62
  {
    if d < 10 then ('0' as int + d) as char
    else if d < 36 then ('A' as int + d - 10) as char
    else ('a' as int + d - 36) as char
  }

  function Value62(c: char): (d: Option<nat>)
    ensures d.Some? ==> d.value < 62 && Char62(d.value) == c
  {
    if '0' <= c <= '9' then Some(c as int - '0' as int)
    else if 'A' <= c <= 'Z' then Some(c as int - 'A' as int + 10)
    else if 'a' <= c <= 'z' then Some(c as int - 'a' as int + 36)
    else None
  }

  function Base62(n: nat): string
  {
    var ds := ToDigits(n, 62);
    seq(|ds|, i requires 0 <= i < |ds| && ds[i] < 62 => Char62(ds[i]))
  }

  /** The number a base-62 text denotes; texts with a foreign character denote none. */
  function Unbase62(s: string): Option<nat>
  {
    if s != [] && forall i :: 0 <= i < |s| ==> Value62(s[i]).Some? then
      Some(FromDigits(seq(|s|, i requires 0 <= i < |s| && Value62(s[i]).Some? => Value62(s[i]).value), 62))
    else
      None
  }

  lemma Char62ReadsBack(d: nat)
    requires d < 62
    ensures Value62(Char62(d)) == Some(d)
  {
  }

  lemma ShortCodeDecodes(n: nat)
    ensures Unbase62(Base62(n)) == Some(n)
  {
    var ds, s := ToDigits(n, 62), Base62(n);
    forall i | 0 <= i < |s| ensures Value62(s[i]) == Some(ds[i]) {
      Char62ReadsBack(ds[i]);
    }
    assert seq(|s|, i requires 0 <= i < |s| && Value62(s[i]).Some? => Value62(s[i]).value) == ds;
    ReadsBack(n, 62);
  }

  /** Distinct ids have distinct short codes. */
  lemma ShortCodeInjective(m: nat, n: nat)
    requires Base62(m) == Base62(n)
    ensures m == n
  {
    ShortCodeDecodes(m);
    ShortCodeDecodes(n);
  }

  const TWO_128: int := 0x1_0000_0000_0000_0000_0000_0000_0000_0000

  /** The short code of a row id: the id as an unsigned 128-bit number, in base 62. */
  function CodeOf(id: int): string
    requires IsI64(id)
  {
    Base62(if id < 0 then id + TWO_128 else id)
  }

  lemma CodeOfInjective(i: int, j: int)
    requires IsI64(i) && IsI64(j) && CodeOf(i) == CodeOf(j)
    ensures i == j
  {
    ShortCodeInjective(if i < 0 then i + TWO_128 else i, if j < 0 then j + TWO_128 else j);
  }

  /** Every text that denotes n without a leading zero is the short code of n. */
  lemma ShortCodeUnique(s: string, n: nat)
    requires Unbase62(s) == Some(n) && (s[0] == '0' ==> |s| == 1)
    ensures Base62(n) == s
  {
    var ds := seq(|s|, i requires 0 <= i < |s| && Value62(s[i]).Some? => Value62(s[i]).value);
    assert forall i :: 0 <= i < |ds| ==> Char62(ds[i]) == s[i];
    WritesBack(ds, 62);
  }

  lemma Pow62Eleven()
    ensures Pow(62, 11) > MAX_I64
  {
    assert Pow(62, 1) == 62;
    assert Pow(62, 3) == 238328;
    assert Pow(62, 5) == 916132832;
    assert Pow(62, 7) == 3521614606208;
    assert Pow(62, 9) == 13537086546263552;
    assert Pow(62, 11) == 52036560683837093888;
  }

  /** Short codes of 64-bit ids are one to eleven characters long. */
  lemma ShortCodeLength(n: nat)
    requires n <= MAX_I64
    ensures 1 <= |Base62(n)| <= 11
  {
    Pow62Eleven();
    DigitCount(n, 62, 11);
  }

  lemma ShortCodeOfOne()
    ensures Base62(1) == "1"
  {
  }

  // ---------------------------------------------------------------- hexadecimal cursors

  function HexChar(d: nat): char
    requires d < 16
  {
    if d < 10 then ('0' as int + d) as char else ('a' as int + d - 10) as char
  }

  /** Both letter cases are read, only lower case is written. */
  function HexValue(c: char): (d: Option<nat>)
    ensures d.Some? ==> d.value < 16
  {
    if '0' <= c <= '9' then Some(c as int - '0' as int)
    else if 'a' <= c <= 'f' then Some(c as int - 'a' as int + 10)
    else if 'A' <= c <= 'F' then Some(c as int - 'A' as int + 10)
    else None
  }

  /** Lower-hex formatting of a signed 64-bit integer: negative numbers print their two's complement. */
  function PrintHex(id: int): (s: string)
    requires IsI64(id)
    ensures s != []
  {
    var ds := ToDigits(if id < 0 then id + TWO_64 else id, 16);
    seq(|ds|, i requires 0 <= i < |ds| && ds[i] < 16 => HexChar(ds[i]))
  }

  /** The digit loop of radix parsing: every multiplication and addition is overflow-checked. */
  function Accumulate(s: string, acc: int, positive: bool): Option<int>
  {
    if s == [] then Some(acc)
    else if !IsI64(acc * 16) || HexValue(s[0]).None? then None
    else
      var next := if positive then acc * 16 + HexValue(s[0]).value else acc * 16 - HexValue(s[0]).value;
      if IsI64(next) then Accumulate(s[1..], next, positive) else None
  }

  /** Radix-16 parsing of a signed 64-bit integer, with an optional sign. */
  function ParseHex(s: string): Option<int>
  {
    if s == "" || s == "+" || s == "-" then None
    else if s[0] == '+' then Accumulate(s[1..], 0, true)
    else if s[0] == '-' then Accumulate(s[1..], 0, false)
    else Accumulate(s, 0, true)
  }

  datatype CursorParam = FirstPage | FromId(id: int) | InvalidCursor

  /** The cursor query parameter: absent and empty mean the first page, malformed text is a 400. */
  function DecodeCursor(param: Option<string>): CursorParam
  {
    match param
    case None => FirstPage
    case Some(hex) =>
      if hex == "" then FirstPage
      else match ParseHex(hex)
           case Some(id) => FromId(id)
           case None => InvalidCursor
  }

  ghost predicate AllHex(s: string) {
    forall i :: 0 <= i < |s| ==> HexValue(s[i]).Some?
  }

  ghost function HexDigits(s: string): (ds: seq<nat>)
    requires AllHex(s)
    ensures |ds| == |s|
  {
    seq(|s|, i requires 0 <= i < |s| && HexValue(s[i]).Some? => HexValue(s[i]).value)
  }

  /** Reads digits from the left, starting from a value already read. */
  ghost function Horner(acc: nat, ds: seq<nat>): nat
    decreases |ds|
  {
    if ds == [] then acc else Horner(acc * 16 + ds[0], ds[1..])
  }

  lemma {:induction false} HornerGrows(acc: nat, ds: seq<nat>)
    ensures Horner(acc, ds) >= acc
    decreases |ds|
  {
    if ds != [] {
      HornerGrows(acc * 16 + ds[0], ds[1..]);
    }
  }

  lemma {:induction false} HornerLast(acc: nat, ds: seq<nat>, d: nat)
    ensures Horner(acc, ds + [d]) == Horner(acc, ds) * 16 + d
    decreases |ds|
  {
    if ds == [] {
      assert ([] + [d])[1..] == [];
      assert Horner(acc * 16 + d, []) == acc * 16 + d;
    } else {
      assert (ds + [d])[1..] == ds[1..] + [d];
      HornerLast(acc * 16 + ds[0], ds[1..], d);
    }
  }

  lemma {:induction false} HornerIsPositional(ds: seq<nat>)
    ensures Horner(0, ds) == FromDigits(ds, 16)
    decreases |ds|
  {
    if ds != [] {
      var front := ds[..|ds| - 1];
      assert ds == front + [ds[|ds| - 1]];
      HornerLast(0, front, ds[|ds| - 1]);
      HornerIsPositional(front);
    }
  }

  function Signed(positive: bool, magnitude: nat): int
  {
    if positive then magnitude else -(magnitude as int)
  }

  /** The checked loop fails exactly on a foreign character or when the final number leaves the 64-bit range. */
  lemma {:induction false} AccumulateExact(s: string, acc: nat, positive: bool)
    requires IsI64(Signed(positive, acc))
    ensures Accumulate(s, Signed(positive, acc), positive) ==
            if AllHex(s) && IsI64(Signed(positive, Horner(acc, HexDigits(s))))
            then Some(Signed(positive, Horner(acc, HexDigits(s)))) else None
    decreases |s|
  {
    if s != [] {
      var v := HexValue(s[0]);
      if v.Some? {
        var next := acc * 16 + v.value;
        if AllHex(s) {
          assert HexDigits(s)[1..] == HexDigits(s[1..]);
          HornerGrows(next, HexDigits(s[1..]));
        }
        if AllHex(s[1..]) {
          assert AllHex(s);
        }
        if IsI64(Signed(positive, next)) {
          AccumulateExact(s[1..], next, positive);
        }
      }
    }
  }

  /** The unsigned part of a signed text. */
  ghost function Magnitude(s: string): string
  {
    if s != [] && (s[0] == '+' || s[0] == '-') then s[1..] else s
  }

  /**
   What the parser accepts, and what it returns: at least one digit, only hexadecimal digits after
   the optional sign, and a denoted number that fits the 64-bit range.
   */
  lemma ParseHexExact(s: string, v: int)
    ensures ParseHex(s) == Some(v) <==>
            Magnitude(s) != [] && AllHex(Magnitude(s)) && IsI64(v)
            && v == Signed(s[0] != '-', FromDigits(HexDigits(Magnitude(s)), 16))
  {
    var m := Magnitude(s);
    if m != [] {
      AccumulateExact(m, 0, s[0] != '-');
      if AllHex(m) {
        HornerIsPositional(HexDigits(m));
      }
    }
  }

  /** Sixteen digits, written in lower case and read in either. */
  lemma HexAlphabet(d: nat, c: char)
    requires d < 16
    ensures HexChar(d) == "0123456789abcdef"[d]
    ensures HexValue("0123456789abcdef"[d]) == Some(d) && HexValue("0123456789ABCDEF"[d]) == Some(d)
    ensures HexValue(c).Some? <==> '0' <= c <= '9' || 'a' <= c <= 'f' || 'A' <= c <= 'F'
  {
  }

  /** The text is an optional sign and hexadecimal digits that denote this 64-bit number. */
  ghost predicate Denotes(s: string, v: int) {
    Magnitude(s) != [] && AllHex(Magnitude(s)) && IsI64(v)
    && v == Signed(s[0] != '-', FromDigits(HexDigits(Magnitude(s)), 16))
  }

  /**
   The cursor parameter, for every request: the first page exactly if it is absent or empty, an id exactly
   if the text denotes it, and a 400 exactly if there is text that denotes no 64-bit number.
   */
  lemma DecodeCursorExact(param: Option<string>, v: int)
    ensures DecodeCursor(param) == FirstPage <==> param == None || param == Some("")
    ensures DecodeCursor(param) == FromId(v) <==> param.Some? && param.value != "" && Denotes(param.value, v)
    ensures DecodeCursor(param) == InvalidCursor <==>
              param.Some? && param.value != "" && forall id :: !Denotes(param.value, id)
  {
    if param.Some? {
      forall id ensures ParseHex(param.value) == Some(id) <==> Denotes(param.value, id) {
        ParseHexExact(param.value, id);
      }
      var parsed := ParseHex(param.value);
      if parsed.Some? {
        assert Denotes(param.value, parsed.value);
      }
    }
  }

  /** A few parameters, by hand. */
  lemma SomeCursors()
    ensures DecodeCursor(None) == FirstPage && DecodeCursor(Some("")) == FirstPage
    ensures DecodeCursor(Some("1a")) == FromId(26) && DecodeCursor(Some("+1A")) == FromId(26)
    ensures DecodeCursor(Some("-1")) == FromId(-1)
    ensures DecodeCursor(Some("-")) == InvalidCursor && DecodeCursor(Some("g")) == InvalidCursor
  {
    assert "1a"[1..] == "a" && "a"[1..] == "" && "+1A"[1..] == "1A" && "1A"[1..] == "A" && "A"[1..] == "";
    assert "-1"[1..] == "1" && "1"[1..] == "" && "g"[1..] == "";
    assert Accumulate("a", 1, true) == Some(26) && Accumulate("A", 1, true) == Some(26);
    assert Accumulate("1a", 0, true) == Some(26) && Accumulate("1A", 0, true) == Some(26);
    assert Accumulate("1", 0, false) == Some(-1);
  }

  lemma HexCharReadsBack(d: nat)
    requires d < 16
    ensures HexValue(HexChar(d)) == Some(d)
  {
  }

  /**
   The cursor round trip. A printed id decodes to the same id exactly when it is not negative:
   a negative id prints sixteen digits that no longer fit the signed range and is answered with 400.
   */
  lemma CursorRoundTrip(id: int)
    requires IsI64(id)
    ensures DecodeCursor(Some(PrintHex(id))) == FromId(id) <==> id >= 0
    ensures id < 0 ==> DecodeCursor(Some(PrintHex(id))) == InvalidCursor
  {
    var n := if id < 0 then id + TWO_64 else id;
    var ds, s := ToDigits(n, 16), PrintHex(id);
    forall i | 0 <= i < |s| ensures HexValue(s[i]) == Some(ds[i]) {
      HexCharReadsBack(ds[i]);
    }
    assert Magnitude(s) == s by {
      assert HexValue(s[0]).Some?;
    }
    assert HexDigits(s) == ds;
    ReadsBack(n, 16);
    ParseHexExact(s, n);
    if id < 0 {
      if ParseHex(s).Some? {
        ParseHexExact(s, ParseHex(s).value);
        assert false;
      }
    }
  }
}
