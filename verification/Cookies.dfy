/**
 The Cookie header: names and values written out with any padding, between semicolons, and read back.
 Every header is such a writing, so this says what the parser returns for each of them.
 */
module Cookies {
  import opened Wrappers

  // ---------------------------------------------------------------- strings

  /** The characters of Unicode's White_Space property. */
  predicate Blank(c: char) {
    || '\U{9}' <= c <= '\U{D}' || c == ' ' || c == '\U{85}' || c == '\U{A0}' || c == '\U{1680}'
    || '\U{2000}' <= c <= '\U{200A}' || c == '\U{2028}' || c == '\U{2029}' || c == '\U{202F}'
    || c == '\U{205F}' || c == '\U{3000}'
  }

  predicate AllBlank(s: string) {
    forall i :: 0 <= i < |s| ==> Blank(s[i])
  }

  predicate Trimmed(s: string) {
    s == "" || (!Blank(s[0]) && !Blank(s[|s| - 1]))
  }

  predicate Without(s: string, c: char) {
    forall i :: 0 <= i < |s| ==> s[i] != c
  }

  function TrimStart(s: string): string {
    if s != "" && Blank(s[0]) then TrimStart(s[1..]) else s
  }

  function TrimEnd(s: string): string {
    if s != "" && Blank(s[|s| - 1]) then TrimEnd(s[..|s| - 1]) else s
  }

  function Trim(s: string): string {
    TrimEnd(TrimStart(s))
  }

  /** The pieces between separators; always at least one. */
  function Split(s: string, separator: char): (pieces: seq<string>)
    ensures |pieces| >= 1
  {
    if s == "" then [""]
    else
      var rest := Split(s[1..], separator);
      if s[0] == separator then [""] + rest else [[s[0]] + rest[0]] + rest[1..]
  }

  /** What comes before and after the first separator. */
  function SplitOnce(s: string, separator: char): Option<(string, string)> {
    if s == "" then None
    else if s[0] == separator then Some(("", s[1..]))
    else
      match SplitOnce(s[1..], separator)
      case Some(parts) => Some(([s[0]] + parts.0, parts.1))
      case None => None
  }

  // ---------------------------------------------------------------- the parser

  /** The value of the piece, if it is a pair with this name. */
  function ValueIn(piece: string, name: string): Option<string> {
    match SplitOnce(Trim(piece), '=')
    case Some(parts) => if Trim(parts.0) == name then Some(Trim(parts.1)) else None
    case None => None
  }

  function FindMap(pieces: seq<string>, name: string): Option<string> {
    if pieces == [] then None
    else if ValueIn(pieces[0], name).Some? then ValueIn(pieces[0], name)
    else FindMap(pieces[1..], name)
  }

  function ParseCookie(header: string, name: string): Option<string> {
    FindMap(Split(header, ';'), name)
  }

  // ---------------------------------------------------------------- headers as they are written

  /** A name and a value with the padding around them, or a piece that is no pair. */
  datatype Item =
    | Pair(before: string, name: string, afterName: string, beforeValue: string, value: string, after: string)
    | Junk(text: string)

  predicate WellFormed(item: Item) {
    match item
    case Pair(before, name, afterName, beforeValue, value, after) =>
      && AllBlank(before) && AllBlank(afterName) && AllBlank(beforeValue) && AllBlank(after)
      && Trimmed(name) && Without(name, ';') && Without(name, '=')
      && Trimmed(value) && Without(value, ';')
    case Junk(text) => Without(text, ';') && Without(text, '=')
  }

  function Render(item: Item): string {
    match item
    case Pair(before, name, afterName, beforeValue, value, after) =>
      (before + name + afterName) + "=" + (beforeValue + value + after)
    case Junk(text) => text
  }

  function Header(items: seq<Item>): string
    requires |items| >= 1
  {
    if |items| == 1 then Render(items[0]) else Render(items[0]) + ";" + Header(items[1..])
  }

  /** The first value bound to the name. */
  function Bound(items: seq<Item>, name: string): Option<string> {
    if items == [] then None
    else if items[0].Pair? && items[0].name == name then Some(items[0].value)
    else Bound(items[1..], name)
  }

  // ---------------------------------------------------------------- trimming

  lemma {:induction false} TrimStartSkips(blank: string, s: string)
    requires AllBlank(blank)
    ensures TrimStart(blank + s) == TrimStart(s)
  {
    if blank == "" {
      assert blank + s == s;
    } else {
      assert (blank + s)[1..] == blank[1..] + s;
      TrimStartSkips(blank[1..], s);
    }
  }

  lemma {:induction false} TrimEndSkips(s: string, blank: string)
    requires AllBlank(blank)
    ensures TrimEnd(s + blank) == TrimEnd(s)
  {
    if blank == "" {
      assert s + blank == s;
    } else {
      assert (s + blank)[..|s + blank| - 1] == s + blank[..|blank| - 1];
      TrimEndSkips(s, blank[..|blank| - 1]);
    }
  }

  lemma TrimPadded(before: string, s: string, after: string)
    requires AllBlank(before) && Trimmed(s) && AllBlank(after)
    ensures Trim(before + s + after) == s
  {
    assert before + s + after == before + (s + after);
    TrimStartSkips(before, s + after);
    if s == "" {
      TrimStartSkips(after, "");
      assert after + "" == after && s + after == after;
    } else {
      assert TrimStart(s + after) == s + after;
      TrimEndSkips(s, after);
    }
  }

  /** Trimming works on either side of a character that is not blank. */
  lemma {:induction false} TrimStartStops(s: string, c: char, rest: string)
    requires !Blank(c)
    ensures TrimStart(s + [c] + rest) == TrimStart(s) + [c] + rest
  {
    if s != "" && Blank(s[0]) {
      assert (s + [c] + rest)[1..] == s[1..] + [c] + rest;
      TrimStartStops(s[1..], c, rest);
    }
  }

  lemma {:induction false} TrimEndStops(s: string, c: char, rest: string)
    requires !Blank(c)
    ensures TrimEnd(s + [c] + rest) == s + [c] + TrimEnd(rest)
  {
    if rest != "" && Blank(rest[|rest| - 1]) {
      var whole := s + [c] + rest;
      assert whole[..|whole| - 1] == s + [c] + rest[..|rest| - 1];
      TrimEndStops(s, c, rest[..|rest| - 1]);
    }
  }

  /** How many characters are trimmed from the front. */
  lemma {:induction false} TrimStartIsSuffix(s: string) returns (n: nat)
    ensures n <= |s| && TrimStart(s) == s[n..] && AllBlank(s[..n])
    ensures n < |s| ==> !Blank(s[n])
  {
    if s != "" && Blank(s[0]) {
      var m := TrimStartIsSuffix(s[1..]);
      n := m + 1;
      assert s[1..][m..] == s[n..];
      assert s[..n] == [s[0]] + s[1..][..m];
    } else {
      n := 0;
      assert s[0..] == s;
    }
  }

  lemma WithoutTheLast(s: string, n: nat)
    requires n < |s|
    ensures s[..|s| - 1][..n] == s[..n] && s[n..] == s[..|s| - 1][n..] + [s[|s| - 1]]
  {
  }

  /** How many characters are left when the end is trimmed. */
  lemma {:induction false} TrimEndIsPrefix(s: string) returns (n: nat)
    ensures n <= |s| && TrimEnd(s) == s[..n] && AllBlank(s[n..])
    ensures n > 0 ==> !Blank(s[n - 1])
  {
    if s != "" && Blank(s[|s| - 1]) {
      var front := s[..|s| - 1];
      n := TrimEndIsPrefix(front);
      WithoutTheLast(s, n);
    } else {
      n := |s|;
      assert s[..n] == s;
    }
  }

  /** Any string is a trimmed one between blanks. */
  lemma Padding(s: string) returns (before: string, middle: string, after: string)
    ensures s == before + middle + after && AllBlank(before) && Trimmed(middle) && AllBlank(after)
  {
    var n := TrimStartIsSuffix(s);
    var m := TrimEndIsPrefix(s[n..]);
    before, middle, after := s[..n], s[n..][..m], s[n..][m..];
    assert middle + after == s[n..];
    assert before + middle + after == before + (middle + after);
  }

  // ---------------------------------------------------------------- splitting

  lemma {:induction false} SplitOnceAtFirst(s: string, separator: char, rest: string)
    requires Without(s, separator)
    ensures SplitOnce(s + [separator] + rest, separator) == Some((s, rest))
  {
    var whole := s + [separator] + rest;
    if s == "" {
      assert whole[1..] == rest;
    } else {
      assert whole[1..] == s[1..] + [separator] + rest;
      SplitOnceAtFirst(s[1..], separator, rest);
      assert [s[0]] + s[1..] == s;
    }
  }

  lemma {:induction false} NothingToSplit(s: string, separator: char)
    requires Without(s, separator)
    ensures SplitOnce(s, separator) == None && Split(s, separator) == [s]
  {
    if s != "" {
      NothingToSplit(s[1..], separator);
      assert [s[0]] + s[1..] == s;
    }
  }

  lemma {:induction false} SplitAtFirst(s: string, separator: char, rest: string)
    requires Without(s, separator)
    ensures Split(s + [separator] + rest, separator) == [s] + Split(rest, separator)
  {
    var whole := s + [separator] + rest;
    if s == "" {
      assert whole[1..] == rest;
    } else {
      assert whole[1..] == s[1..] + [separator] + rest;
      SplitAtFirst(s[1..], separator, rest);
      assert [s[0]] + s[1..] == s;
    }
  }

  /** Any string has its first separator, or none. */
  lemma {:induction false} FirstSeparator(s: string, separator: char) returns (at: nat)
    ensures at <= |s| && Without(s[..at], separator)
    ensures at < |s| ==> s[at] == separator && s == s[..at] + [separator] + s[at + 1..]
  {
    if s == "" || s[0] == separator {
      at := 0;
    } else {
      var n := FirstSeparator(s[1..], separator);
      at := n + 1;
      forall i | 0 <= i < at ensures s[..at][i] != separator {
        if i > 0 {
          assert s[..at][i] == s[1..][..n][i - 1];
        }
      }
    }
  }

  // ---------------------------------------------------------------- one piece

  lemma PairIsRead(item: Item, name: string)
    requires item.Pair? && WellFormed(item)
    ensures ValueIn(Render(item), name) == if item.name == name then Some(item.value) else None
  {
    var left, right := item.before + item.name + item.afterName, item.beforeValue + item.value + item.after;
    TrimStartStops(left, '=', right);
    TrimEndStops(TrimStart(left), '=', right);
    var start, end := TrimStart(left), TrimEnd(right);
    assert Trim(Render(item)) == start + "=" + end;
    NameSide(item.before, item.name, item.afterName);
    ValueSide(item.beforeValue, item.value, item.after);
    SplitOnceAtFirst(start, '=', end);
  }

  lemma NameSide(before: string, name: string, after: string)
    requires AllBlank(before) && AllBlank(after) && Trimmed(name) && Without(name, '=')
    ensures Without(TrimStart(before + name + after), '=') && Trim(TrimStart(before + name + after)) == name
  {
    assert before + name + after == before + (name + after);
    TrimStartSkips(before, name + after);
    if name == "" {
      assert name + after == after + "";
      TrimStartSkips(after, "");
    } else {
      assert TrimStart(name + after) == name + after;
      assert "" + name + after == name + after;
      TrimPadded("", name, after);
    }
  }

  lemma ValueSide(before: string, value: string, after: string)
    requires AllBlank(before) && AllBlank(after) && Trimmed(value)
    ensures Trim(TrimEnd(before + value + after)) == value
  {
    TrimEndSkips(before + value, after);
    if value == "" {
      assert before + value == "" + before;
      TrimEndSkips("", before);
    } else {
      assert TrimEnd(before + value) == before + value;
      assert before + value + "" == before + value;
      TrimPadded(before, value, "");
    }
  }

  lemma JunkIsSkipped(text: string, name: string)
    requires Without(text, '=')
    ensures ValueIn(text, name) == None
  {
    var n := TrimStartIsSuffix(text);
    var m := TrimEndIsPrefix(text[n..]);
    assert Trim(text) == text[n..][..m];
    NothingToSplit(Trim(text), '=');
  }

  // ---------------------------------------------------------------- the header

  lemma RenderWithoutSemicolon(item: Item)
    requires WellFormed(item)
    ensures Without(Render(item), ';')
  {
  }

  lemma PieceIsRead(item: Item, name: string)
    requires WellFormed(item)
    ensures ValueIn(Render(item), name)
            == if item.Pair? && item.name == name then Some(item.value) else None
  {
    if item.Pair? {
      PairIsRead(item, name);
    } else {
      JunkIsSkipped(item.text, name);
    }
  }

  lemma FindInOne(piece: string, name: string)
    ensures FindMap([piece], name) == ValueIn(piece, name)
  {
    assert [piece][1..] == [];
  }

  /** Reading inverts writing: the first value bound to the name, past everything that is no pair. */
  lemma {:induction false} ParsingInvertsWriting(items: seq<Item>, name: string)
    requires |items| >= 1 && forall i :: 0 <= i < |items| ==> WellFormed(items[i])
    ensures ParseCookie(Header(items), name) == Bound(items, name)
  {
    var first := Render(items[0]);
    RenderWithoutSemicolon(items[0]);
    PieceIsRead(items[0], name);
    if |items| == 1 {
      NothingToSplit(first, ';');
      FindInOne(first, name);
      assert items[1..] == [];
    } else {
      var rest := Header(items[1..]);
      SplitAtFirst(first, ';', rest);
      assert Split(Header(items), ';') == [first] + Split(rest, ';');
      assert ([first] + Split(rest, ';'))[1..] == Split(rest, ';');
      ParsingInvertsWriting(items[1..], name);
    }
  }

  lemma PieceIsAnItem(piece: string) returns (item: Item)
    requires Without(piece, ';')
    ensures WellFormed(item) && Render(item) == piece
  {
    var at := FirstSeparator(piece, '=');
    if at == |piece| {
      assert piece[..at] == piece;
      item := Junk(piece);
    } else {
      var left, right := piece[..at], piece[at + 1..];
      var before, name, afterName := Padding(left);
      var beforeValue, value, after := Padding(right);
      item := Pair(before, name, afterName, beforeValue, value, after);
      assert forall i :: 0 <= i < |name| ==> name[i] == left[|before| + i];
      assert forall i :: 0 <= i < |value| ==> value[i] == right[|beforeValue| + i];
      assert Render(item) == left + "=" + right;
    }
  }

  /** Every header is written that way, so the parser's answer is known for all of them. */
  lemma {:induction false} EveryHeaderIsWritten(header: string) returns (items: seq<Item>)
    ensures |items| >= 1 && (forall i :: 0 <= i < |items| ==> WellFormed(items[i]))
    ensures Header(items) == header
    ensures forall name :: ParseCookie(header, name) == Bound(items, name)
    decreases |header|
  {
    var at := FirstSeparator(header, ';');
    var item := PieceIsAnItem(header[..at]);
    if at == |header| {
      assert header[..at] == header;
      items := [item];
    } else {
      var rest := EveryHeaderIsWritten(header[at + 1..]);
      items := [item] + rest;
      assert items[1..] == rest;
    }
    forall name ensures ParseCookie(header, name) == Bound(items, name) {
      ParsingInvertsWriting(items, name);
    }
  }

  // ---------------------------------------------------------------- what a browser sends

  /** One pair as section 4.2.1 of RFC 6265 writes it, after the first with a space in front. */
  function Plain(name: string, value: string, first: bool): Item {
    Pair(if first then "" else " ", name, "", "", value, "")
  }

  function Items(pairs: seq<(string, string)>, first: bool): seq<Item> {
    if pairs == [] then [] else [Plain(pairs[0].0, pairs[0].1, first)] + Items(pairs[1..], false)
  }

  function CookieString(pairs: seq<(string, string)>): string {
    if pairs == [] then ""
    else if |pairs| == 1 then pairs[0].0 + "=" + pairs[0].1
    else pairs[0].0 + "=" + pairs[0].1 + "; " + CookieString(pairs[1..])
  }

  function FirstValue(pairs: seq<(string, string)>, name: string): Option<string> {
    if pairs == [] then None
    else if pairs[0].0 == name then Some(pairs[0].1)
    else FirstValue(pairs[1..], name)
  }

  predicate Sendable(pair: (string, string)) {
    Trimmed(pair.0) && Without(pair.0, ';') && Without(pair.0, '=') && Trimmed(pair.1) && Without(pair.1, ';')
  }

  lemma PlainIsWellFormed(pair: (string, string), first: bool)
    requires Sendable(pair)
    ensures WellFormed(Plain(pair.0, pair.1, first))
    ensures Render(Plain(pair.0, pair.1, first)) == (if first then "" else " ") + (pair.0 + "=" + pair.1)
  {
    Unpadded(if first then "" else " ", pair.0, pair.1);
  }

  lemma Unpadded(before: string, name: string, value: string)
    ensures (before + name + "") + "=" + ("" + value + "") == before + (name + "=" + value)
  {
    var left, right := before + name, "" + value;
    assert left + "" == left && right + "" == right && right == value;
  }

  lemma {:induction false} ItemsOfPairs(pairs: seq<(string, string)>, first: bool, name: string)
    requires |pairs| >= 1 && forall i :: 0 <= i < |pairs| ==> Sendable(pairs[i])
    ensures var items := Items(pairs, first);
            && |items| == |pairs| && (forall i :: 0 <= i < |items| ==> WellFormed(items[i]))
            && Header(items) == (if first then "" else " ") + CookieString(pairs)
            && Bound(items, name) == FirstValue(pairs, name)
  {
    var item, rest := Plain(pairs[0].0, pairs[0].1, first), Items(pairs[1..], false);
    var items := [item] + rest;
    assert Items(pairs, first) == items && items[1..] == rest;
    PlainIsWellFormed(pairs[0], first);
    if |pairs| == 1 {
      assert rest == [];
    } else {
      ItemsOfPairs(pairs[1..], false, name);
      SeparatorHasASpace(pairs[0].0 + "=" + pairs[0].1, if first then "" else " ", CookieString(pairs[1..]));
    }
  }

  lemma SeparatorHasASpace(pair: string, before: string, rest: string)
    ensures (before + pair) + ";" + (" " + rest) == before + (pair + "; " + rest)
  {
  }

  /** A cookie string gives back the first value sent for each name, and nothing for the others. */
  lemma SentCookiesAreRead(pairs: seq<(string, string)>, name: string)
    requires forall i :: 0 <= i < |pairs| ==> Sendable(pairs[i])
    ensures ParseCookie(CookieString(pairs), name) == FirstValue(pairs, name)
  {
    if pairs == [] {
      JunkIsSkipped("", name);
      FindInOne("", name);
    } else {
      ItemsOfPairs(pairs, true, name);
      ParsingInvertsWriting(Items(pairs, true), name);
      assert "" + CookieString(pairs) == CookieString(pairs);
    }
  }

  /** Tabs, line ends, spaces and no-break spaces are trimmed, and no printing character is. */
  lemma BlankCharacters(c: char)
    ensures Blank('\t') && Blank('\n') && Blank('\r') && Blank(' ') && Blank('\U{A0}') && Blank('\U{3000}')
    ensures '!' <= c <= '~' ==> !Blank(c)
  {
  }

  /** So a padded pair is read for what it is. */
  lemma PaddedPair()
    ensures ValueIn("\ta\U{A0}= 1\n", "a") == Some("1")
  {
    var item := Pair("\t", "a", "\U{A0}", " ", "1", "\n");
    assert Render(item) == "\ta\U{A0}= 1\n";
    PairIsRead(item, "a");
  }
}
