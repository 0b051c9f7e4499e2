/** What the writer of JSON text writes, and the parser reads. */
module JsonReads {
  import opened Bytes
  import opened Values
  import opened Events
  import opened Json
  import opened JsonWriter
  import opened JsonParser
  import RoundTrip

  type Parser = Json.Parser

  // ---- texts that are taken as a whole ----

  ghost predicate Takes(p: Parser, s: Bytes, q: Parser, es: seq<Event>, lexer: Lexer) {
    Valid(p) && Valid(q) && Run(p, s, lexer) == Outcome(Fine, q, es, |s|)
  }

  lemma TakesThen(p: Parser, a: Bytes, q: Parser, x: seq<Event>, b: Bytes, r: Parser, y: seq<Event>, lexer: Lexer)
    requires Takes(p, a, q, x, lexer) && Takes(q, b, r, y, lexer)
    ensures Takes(p, a + b, r, x + y, lexer)
  {
    hide Run;
    hide Valid;
    RunThen(p, a, b, lexer);
  }

  lemma QuietThen(p: Parser, a: Bytes, q: Parser, b: Bytes, r: Parser, es: seq<Event>, lexer: Lexer)
    requires Takes(p, a, q, [], lexer) && Takes(q, b, r, es, lexer)
    ensures Takes(p, a + b, r, es, lexer)
  {
    hide Takes;
    TakesThen(p, a, q, [], b, r, es, lexer);
    assert [] + es == es;
  }

  lemma TakesNone(p: Parser, lexer: Lexer)
    requires Valid(p)
    ensures Takes(p, [], p, [], lexer)
  {
    hide Valid;
    RunNone(p, lexer);
  }

  lemma TakesOne(p: Parser, c: Byte, q: Parser, es: seq<Event>, lexer: Lexer)
    requires Valid(p) && At(p, c, lexer) == Next(q, es)
    ensures Takes(p, [c], q, es, lexer)
  {
    hide At;
    hide Valid;
    hide Run;
    RunFirst(p, [c], lexer);
    OnwardIs(p, At(p, c, lexer), [], lexer);
    RunNone(q, lexer);
    assert [c][1..] == [] && es + [] == es;
  }

  /** What goes wrong behind a text that was taken, or in front of more. */
  lemma FailsThen(p: Parser, a: Bytes, q: Parser, es: seq<Event>, b: Bytes, rest: Bytes, lexer: Lexer)
    requires Takes(p, a, q, es, lexer) && Run(q, b, lexer).err != Fine
    ensures Run(p, a + b + rest, lexer).err == Run(q, b, lexer).err
  {
    hide Run;
    hide Valid;
    RunThen(p, a, b, lexer);
    RunThen(p, a + b, rest, lexer);
  }

  lemma AtAgain(p: Parser, c: Byte, q: Parser, lexer: Lexer)
    requires Valid(p) && Once(p, c, lexer) == Again(q, [])
    ensures Valid(q) && At(p, c, lexer) == At(q, c, lexer)
  {
    hide At;
    hide Once;
    hide Valid;
    hide Json.Rank;
    AtOnce(p, c, lexer);
    ToldNothing(At(q, c, lexer));
  }

  lemma AtNext(p: Parser, c: Byte, q: Parser, es: seq<Event>, lexer: Lexer)
    requires Valid(p) && Once(p, c, lexer) == Next(q, es)
    ensures Valid(q) && At(p, c, lexer) == Next(q, es)
  {
    hide At;
    hide Once;
    hide Valid;
    hide Json.Rank;
    AtOnce(p, c, lexer);
  }

  /** Parsers that do the same at the first character do the same. */
  lemma SameOn(p: Parser, q: Parser, s: Bytes, lexer: Lexer)
    requires Valid(p) && Valid(q) && |s| > 0 && At(p, s[0], lexer) == At(q, s[0], lexer)
    ensures Run(p, s, lexer).err == Run(q, s, lexer).err
    ensures forall r, es :: Takes(q, s, r, es, lexer) ==> Takes(p, s, r, es, lexer)
  {
    hide At;
    hide Valid;
    hide Run;
    RunFirst(p, s, lexer);
    RunFirst(q, s, lexer);
    var m := At(p, s[0], lexer);
    OnwardIs(p, m, s[1..], lexer);
    OnwardIs(q, m, s[1..], lexer);
  }

  /** Neither space nor the begin of a comment. */
  predicate Solid(c: Byte) { !IsSpace(c) && c != SLASH }

  lemma SpaceEnds(p: Parser, c: Byte, lexer: Lexer)
    requires Valid(p) && p.top.state == EatWhitespace && Solid(c)
    ensures Valid(To(p, p.top.saved)) && At(p, c, lexer) == At(To(p, p.top.saved), c, lexer)
  {
    hide At;
    AtAgain(p, c, To(p, p.top.saved), lexer);
  }

  // ---- strings ----

  predicate InText(s: State) { s == String || s == ObjField }

  lemma ByteTaken(p: Parser, c: Byte, lexer: Lexer) returns (q: Parser)
    requires Valid(p) && InText(p.top.state) && c != 0
    ensures Takes(p, EscapeOf(c), q, [], lexer)
    ensures q.below == p.below && q.top.state == p.top.state && q.str == p.str + [c]
  {
    if EscapeOf(c) == [c] {
      q := Append(p, [c]);
      PlainTaken(p, c, lexer);
    } else {
      var r := p.(top := Rec(StringEscape, p.top.state));
      BackslashTaken(p, lexer);
      if EscapeOf(c)[1] == 0x75 {
        q := ControlTaken(r, c, lexer);
      } else {
        q := LetterTaken(r, c, lexer);
      }
      assert EscapeOf(c) == [BACKSLASH] + EscapeOf(c)[1..];
      QuietThen(p, [BACKSLASH], r, EscapeOf(c)[1..], q, [], lexer);
    }
  }

  lemma PlainTaken(p: Parser, c: Byte, lexer: Lexer)
    requires Valid(p) && InText(p.top.state) && c != QUOTE && c != BACKSLASH
    ensures Takes(p, [c], Append(p, [c]), [], lexer)
  {
    hide At;
    hide Takes;
    AtNext(p, c, Append(p, [c]), [], lexer);
    TakesOne(p, c, Append(p, [c]), [], lexer);
  }

  lemma BackslashTaken(p: Parser, lexer: Lexer)
    requires Valid(p) && InText(p.top.state)
    ensures Takes(p, [BACKSLASH], p.(top := Rec(StringEscape, p.top.state)), [], lexer)
  {
    hide At;
    hide Takes;
    var q := p.(top := Rec(StringEscape, p.top.state));
    AtNext(p, BACKSLASH, q, [], lexer);
    TakesOne(p, BACKSLASH, q, [], lexer);
  }

  predicate InEscape(p: Parser, state: State) { p.top.state == state && InText(p.top.saved) }

  lemma LetterTaken(p: Parser, c: Byte, lexer: Lexer) returns (q: Parser)
    requires Valid(p) && InEscape(p, StringEscape) && |EscapeOf(c)| == 2
    ensures Takes(p, EscapeOf(c)[1..], q, [], lexer)
    ensures q.below == p.below && q.top.state == p.top.saved && q.str == p.str + [c]
  {
    hide At;
    hide Takes;
    var letter := EscapeOf(c)[1];
    assert EscapeOf(c)[1..] == [letter] && Escaped(letter) == Just(c);
    q := To(Append(p, [c]), p.top.saved);
    AtNext(p, letter, q, [], lexer);
    TakesOne(p, letter, q, [], lexer);
  }

  lemma HexTaken(p: Parser, d: nat, lexer: Lexer) returns (q: Parser)
    requires Valid(p) && InEscape(p, EscapeUnicode) && p.strPos < 3 && d < 16
    ensures Takes(p, [UpperHex(d)], q, [], lexer)
    ensures q == p.(ucsChar := p.ucsChar + d * Weight(p.strPos), strPos := p.strPos + 1)
  {
    hide At;
    hide Takes;
    hide Weight;
    var c := UpperHex(d);
    assert IsHexDigit(c) && HexDigit(c) == d;
    q := p.(ucsChar := p.ucsChar + d * Weight(p.strPos), strPos := p.strPos + 1);
    AtNext(p, c, q, [], lexer);
    TakesOne(p, c, q, [], lexer);
  }

  lemma LastHexTaken(p: Parser, d: nat, lexer: Lexer) returns (q: Parser)
    requires Valid(p) && InEscape(p, EscapeUnicode) && p.strPos == 3 && d < 16 && 0 < p.ucsChar + d < 0x80
    ensures Takes(p, [UpperHex(d)], q, [], lexer)
    ensures q.below == p.below && q.top.state == p.top.saved && q.str == p.str + [p.ucsChar + d]
  {
    hide At;
    hide Takes;
    var c := UpperHex(d);
    assert IsHexDigit(c) && HexDigit(c) == d;
    var n := p.ucsChar + d;
    assert Utf8(n) == [n];
    q := To(Append(p.(ucsChar := n, strPos := 4), [n]), p.top.saved);
    AtNext(p, c, q, [], lexer);
    TakesOne(p, c, q, [], lexer);
  }

  /** Four digits of a control character. */
  lemma ControlTaken(p: Parser, c: Byte, lexer: Lexer) returns (q: Parser)
    requires Valid(p) && InEscape(p, StringEscape) && 0 < c < 0x20 && |EscapeOf(c)| == 6
    ensures Takes(p, EscapeOf(c)[1..], q, [], lexer)
    ensures q.below == p.below && q.top.state == p.top.saved && q.str == p.str + [c]
  {
    hide Takes;
    hide Once;
    hide At;
    hide Valid;
    var q0 := EscapeBegun(p, lexer);
    TakesValid(p, [0x75], q0, [], lexer);
    var q1 := HexTaken(q0, 0, lexer);
    TakesValid(q0, [ZERO], q1, [], lexer);
    var q2 := HexTaken(q1, 0, lexer);
    TakesValid(q1, [ZERO], q2, [], lexer);
    var q3 := HexTaken(q2, c / 16, lexer);
    TakesValid(q2, [UpperHex(c / 16)], q3, [], lexer);
    q := LastHexTaken(q3, c % 16, lexer);
    QuietThen(q2, [UpperHex(c / 16)], q3, [UpperHex(c % 16)], q, [], lexer);
    QuietThen(q1, [ZERO], q2, [UpperHex(c / 16)] + [UpperHex(c % 16)], q, [], lexer);
    QuietThen(q0, [ZERO], q1, [ZERO] + ([UpperHex(c / 16)] + [UpperHex(c % 16)]), q, [], lexer);
    QuietThen(p, [0x75], q0, [ZERO] + ([ZERO] + ([UpperHex(c / 16)] + [UpperHex(c % 16)])), q, [], lexer);
    assert EscapeOf(c)[1..] == [0x75] + ([ZERO] + ([ZERO] + ([UpperHex(c / 16)] + [UpperHex(c % 16)])));
  }

  lemma TakesValid(p: Parser, s: Bytes, q: Parser, es: seq<Event>, lexer: Lexer)
    requires Takes(p, s, q, es, lexer)
    ensures Valid(p) && Valid(q)
  {
  }

  lemma EscapeBegun(p: Parser, lexer: Lexer) returns (q: Parser)
    requires Valid(p) && InEscape(p, StringEscape)
    ensures Takes(p, [0x75], q, [], lexer) && q == To(p, EscapeUnicode).(ucsChar := 0, strPos := 0)
  {
    hide At;
    hide Takes;
    q := To(p, EscapeUnicode).(ucsChar := 0, strPos := 0);
    AtNext(p, 0x75, q, [], lexer);
    TakesOne(p, 0x75, q, [], lexer);
  }

  lemma {:induction false} TextTaken(s: Bytes, p: Parser, lexer: Lexer) returns (q: Parser)
    requires Valid(p) && InText(p.top.state) && NulFree(s)
    ensures Takes(p, EscapedText(s), q, [], lexer)
    ensures q.below == p.below && q.top.state == p.top.state && q.str == p.str + s
    decreases |s|
  {
    hide Takes;
    hide Valid;
    hide EscapeOf;
    if |s| == 0 {
      q := p;
      TakesNone(p, lexer);
      assert p.str + s == p.str;
    } else {
      var n := |s| - 1;
      assert s[n] in s;
      var r := TextTaken(s[..n], p, lexer);
      TakesValid(p, EscapedText(s[..n]), r, [], lexer);
      q := ByteTaken(r, s[n], lexer);
      QuietThen(p, EscapedText(s[..n]), r, EscapeOf(s[n]), q, [], lexer);
      assert s == s[..n] + [s[n]];
      assert p.str + s[..n] + [s[n]] == p.str + s;
    }
  }

  /** A string behind its first quote, with the last. */
  lemma TextEnds(s: Bytes, p: Parser, after: State, e: Event, lexer: Lexer) returns (q: Parser)
    requires Valid(p) && p.str == [] && NulFree(s)
    requires (p.top.state == String && after == Finish && e == StringValue(s)) || (p.top.state == ObjField && after == ObjFieldEnd && e == PropName(s))
    ensures Takes(p, EscapedText(s) + [QUOTE], q, [e], lexer)
    ensures q.below == p.below && q.top == Rec(EatWhitespace, after)
  {
    hide At;
    hide Takes;
    var r := TextTaken(s, p, lexer);
    assert [] + s == s;
    TakesValid(p, EscapedText(s), r, [], lexer);
    q := Then(r, after);
    AtNext(r, QUOTE, q, [e], lexer);
    TakesOne(r, QUOTE, q, [e], lexer);
    QuietThen(p, EscapedText(s), r, [QUOTE], q, [e], lexer);
  }

  // ---- the end of a value ----

  const ENDED := Rec(EatWhitespace, Finish)

  /** A value has been read, but that the end of a number is not known yet, and its event is pending. */
  ghost predicate Ended(p: Parser, below: seq<Rec>, pending: seq<Event>) {
    && Valid(p) && p.below == below
    && (p.top == ENDED || (p.top.state == Number && !p.isDecimal && ToInt64(p.str).1 == |p.str|))
    && pending == if p.top == ENDED then [] else [IntValue(ToInt64(p.str).0)]
  }

  /** What cannot belong to a value before it. */
  predicate Closes(c: Byte) { c == COMMA || c == RBRACKET || c == RBRACE || c == 0 }

  lemma EndsAt(p: Parser, below: seq<Rec>, pending: seq<Event>, c: Byte, lexer: Lexer)
    requires Ended(p, below, pending) && Closes(c)
    ensures Valid(p.(top := Rec(Finish, Finish)))
    ensures At(p, c, lexer) == Told(pending, At(p.(top := Rec(Finish, Finish)), c, lexer))
  {
    hide At;
    hide ToInt64;
    var q := p.(top := ENDED);
    assert Valid(q);
    SpaceEnds(q, c, lexer);
    if p.top.state == Number {
      AtOnce(p, c, lexer);
      assert Once(p, c, lexer) == Again(q, pending);
    } else {
      assert q == p;
      ToldNothing(At(q, c, lexer));
    }
  }

  /** Behind the last value. */
  lemma EndsText(p: Parser, pending: seq<Event>, lexer: Lexer)
    requires Ended(p, [], pending)
    ensures Run(p, [0], lexer) == Outcome(Fine, p.(top := Rec(Finish, Finish)), pending, 0)
  {
    hide At;
    hide Run;
    EndsAt(p, [], pending, 0, lexer);
    var q := p.(top := Rec(Finish, Finish));
    assert Once(q, 0, lexer) == Stop(q, []);
    AtOnce(q, 0, lexer);
    RunFirst(p, [0], lexer);
    OnwardIs(p, At(p, 0, lexer), [], lexer);
    assert pending + [] == pending;
  }

  /** What a container does at the separator behind a member, or at its end. */
  function StateBehind(r: Rec, c: Byte): State {
    if c != COMMA then Finish else if r.state == ArraySep then Array else ObjFieldStart
  }

  function Closing(c: Byte): seq<Event> {
    if c == COMMA then [] else if c == RBRACKET then [EndArray] else [EndObject]
  }

  predicate Expected(r: Rec, c: Byte) {
    (r.state == ArraySep && (c == COMMA || c == RBRACKET)) || (r == Rec(EatWhitespace, ObjSep) && (c == COMMA || c == RBRACE))
  }

  lemma MemberEnds(p: Parser, below: seq<Rec>, r: Rec, pending: seq<Event>, c: Byte, lexer: Lexer) returns (q: Parser)
    requires Ended(p, below + [r], pending) && Expected(r, c)
    ensures Takes(p, [c], q, pending + Closing(c), lexer)
    ensures q.below == below && q.top == Rec(EatWhitespace, StateBehind(r, c))
  {
    hide At;
    hide Takes;
    hide ToInt64;
    EndsAt(p, below + [r], pending, c, lexer);
    var p1 := p.(top := Rec(Finish, Finish));
    var p2 := p.(below := below, top := r);
    assert (below + [r])[..|below|] == below;
    AtAgain(p1, c, p2, lexer);
    q := Then(p2, StateBehind(r, c));
    SeparatorTaken(p2, c, lexer);
    TakesOne(p, c, q, pending + Closing(c), lexer);
  }

  lemma SeparatorTaken(p: Parser, c: Byte, lexer: Lexer)
    requires Valid(p) && Expected(p.top, c)
    ensures At(p, c, lexer) == Next(Then(p, StateBehind(p.top, c)), Closing(c))
  {
    hide At;
    var q := Then(p, StateBehind(p.top, c));
    if p.top.state == ArraySep {
      AtNext(p, c, q, Closing(c), lexer);
    } else {
      SpaceEnds(p, c, lexer);
      AtNext(To(p, ObjSep), c, q, Closing(c), lexer);
    }
  }

  // ---- numbers ----

  predicate AllDigits(s: Bytes) { forall i :: 0 <= i < |s| ==> IsDigit(s[i]) }

  lemma {:induction false} NatDigits(n: nat)
    ensures var s := NatText(n); |s| > 0 && AllDigits(s) && (s[0] == ZERO ==> n == 0) && DigitsValue(s, 10) == n
  {
    if n >= 10 {
      NatDigits(n / 10);
      var s := NatText(n / 10);
      assert NatText(n)[..|s|] == s;
    }
  }

  lemma {:induction false} DigitsAll(s: Bytes, i: nat)
    requires i <= |s| && AllDigits(s[i..])
    ensures DigitsEnd(s, i, 10) == |s|
    decreases |s| - i
  {
    if i < |s| {
      assert s[i..][0] == s[i];
      assert s[i + 1..] == s[i..][1..];
      DigitsAll(s, i + 1);
    }
  }

  function Abs(i: int): nat { if i < 0 then -i else i }

  predicate Integral(s: Bytes) { forall i :: 0 <= i < |s| ==> IsDigit(s[i]) || s[i] == MINUS }

  lemma IntTextIntegral(i: int)
    ensures |IntText(i)| > 0 && Integral(IntText(i))
  {
    hide NatText;
    NatDigits(Abs(i));
    var s := NatText(Abs(i));
    assert forall k :: 0 <= k < |IntText(i)| ==> IntText(i)[k] == MINUS || IntText(i)[k] in s;
  }

  /** A number is read as what it was written for. */
  lemma IntComesBack(i: Int64)
    ensures ToInt64(IntText(i)) == (i, |IntText(i)|)
  {
    hide NatText;
    hide DigitsValue;
    hide DigitsEnd;
    var n := Abs(i);
    var start := if i < 0 then 1 else 0;
    var s := IntText(i);
    NatDigits(n);
    assert s[start..] == NatText(n);
    if i == 0 {
      ZeroText();
    } else {
      assert s[start] == NatText(n)[0] != ZERO;
      DigitsAll(s, start);
      assert s[start..|s|] == NatText(n);
    }
  }

  lemma ZeroText()
    ensures NatText(0) == [ZERO] && DigitsEnd([ZERO], 0, 8) == 1 && DigitsValue([ZERO], 8) == 0
  {
    assert [ZERO][..0] == [];
    assert DigitsEnd([ZERO], 1, 8) == 1;
  }

  lemma {:induction false} DigitsTaken(s: Bytes, p: Parser, lexer: Lexer)
    requires Valid(p) && p.top.state == Number && !p.isDecimal && Integral(s)
    ensures Takes(p, s, Append(p, s), [], lexer)
    decreases |s|
  {
    hide At;
    hide Takes;
    if |s| == 0 {
      TakesNone(p, lexer);
      assert p.str + s == p.str;
    } else {
      var q := Append(p, s[..1]);
      assert s[..1] == [s[0]];
      AtNext(p, s[0], q, [], lexer);
      TakesOne(p, s[0], q, [], lexer);
      DigitsTaken(s[1..], q, lexer);
      QuietThen(p, [s[0]], q, s[1..], Append(q, s[1..]), [], lexer);
      assert s == [s[0]] + s[1..];
      assert p.str + s == p.str + s[..1] + s[1..];
    }
  }

  lemma IntTaken(i: Int64, p: Parser, lexer: Lexer) returns (q: Parser)
    requires Valid(p) && p.top == FRESH
    ensures Takes(p, IntText(i), q, [], lexer) && Ended(q, p.below, [IntValue(i)])
  {
    hide At;
    hide Takes;
    hide ToInt64;
    hide IntText;
    hide InNumber;
    var s := IntText(i);
    IntTextIntegral(i);
    IntComesBack(i);
    var r := p.(top := Rec(Number, Start), str := [], isDecimal := false);
    SpaceEnds(p, s[0], lexer);
    AtAgain(To(p, Start), s[0], r, lexer);
    DigitsTaken(s, r, lexer);
    SameOn(p, r, s, lexer);
    q := Append(r, s);
    assert q.str == s;
    TakesValid(r, s, q, [], lexer);
  }

  // ---- null, true and false ----

  lemma {:induction false} LettersTaken(p: Parser, text: Bytes, e: Event, lexer: Lexer) returns (q: Parser)
    requires Valid(p) && p.strPos < |text|
    requires (p.top.state == InNull && text == NULL_TEXT && e == NullValue)
      || (p.top.state == InBool && text == Matched(p) && e == BoolValue(p.matchTrue))
    ensures Takes(p, text[p.strPos..], q, [e], lexer) && q.below == p.below && q.top == ENDED
    decreases |text| - p.strPos
  {
    hide At;
    hide Takes;
    var c := text[p.strPos];
    var r := p.(strPos := p.strPos + 1);
    if r.strPos == |text| {
      q := Then(r, Finish);
      assert text[p.strPos..] == [c];
      AtNext(p, c, q, [e], lexer);
      TakesOne(p, c, q, [e], lexer);
    } else {
      AtNext(p, c, r, [], lexer);
      TakesOne(p, c, r, [], lexer);
      q := LettersTaken(r, text, e, lexer);
      QuietThen(p, [c], r, text[r.strPos..], q, [e], lexer);
      assert text[p.strPos..] == [c] + text[r.strPos..];
    }
  }

  lemma NullTaken(p: Parser, lexer: Lexer) returns (q: Parser)
    requires Valid(p) && p.top == FRESH
    ensures Takes(p, NULL_TEXT, q, [NullValue], lexer) && Ended(q, p.below, [])
  {
    hide At;
    hide Takes;
    var r := p.(top := Rec(InNull, Start), strPos := 0);
    SpaceEnds(p, NULL_TEXT[0], lexer);
    AtAgain(To(p, Start), NULL_TEXT[0], r, lexer);
    q := LettersTaken(r, NULL_TEXT, NullValue, lexer);
    assert NULL_TEXT[0..] == NULL_TEXT;
    SameOn(p, r, NULL_TEXT, lexer);
    TakesValid(p, NULL_TEXT, q, [NullValue], lexer);
  }

  lemma BoolTaken(b: bool, p: Parser, lexer: Lexer) returns (q: Parser)
    requires Valid(p) && p.top == FRESH
    ensures Takes(p, if b then TRUE_TEXT else FALSE_TEXT, q, [BoolValue(b)], lexer) && Ended(q, p.below, [])
  {
    hide At;
    hide Takes;
    var text := if b then TRUE_TEXT else FALSE_TEXT;
    var r := p.(top := Rec(InBool, Start), strPos := 0, matchTrue := b);
    SpaceEnds(p, text[0], lexer);
    AtAgain(To(p, Start), text[0], r, lexer);
    q := LettersTaken(r, text, BoolValue(b), lexer);
    assert text[0..] == text;
    SameOn(p, r, text, lexer);
    TakesValid(p, text, q, [BoolValue(b)], lexer);
  }

  lemma StringTaken(s: Bytes, p: Parser, lexer: Lexer) returns (q: Parser)
    requires Valid(p) && p.top == FRESH && NulFree(s)
    ensures Takes(p, StringText(s), q, [StringValue(s)], lexer) && Ended(q, p.below, [])
  {
    hide At;
    hide Takes;
    hide EscapedText;
    var r := p.(top := Rec(String, Start), str := []);
    SpaceEnds(p, QUOTE, lexer);
    AtNext(To(p, Start), QUOTE, r, [], lexer);
    TakesOne(p, QUOTE, r, [], lexer);
    q := TextEnds(s, r, Finish, StringValue(s), lexer);
    QuietThen(p, [QUOTE], r, EscapedText(s) + [QUOTE], q, [StringValue(s)], lexer);
    assert StringText(s) == [QUOTE] + (EscapedText(s) + [QUOTE]);
    TakesValid(p, StringText(s), q, [StringValue(s)], lexer);
  }

  // ---- containers ----

  /** How many containers with members stand inside each other. */
  function Depth(v: Value): nat {
    match v
    case Obj(p) => DepthProps(p)
    case Arr(p) => DepthItems(p)
    case _ => 0
  }

  /** The depth of an object of these properties. */
  function DepthProps(p: Props): nat {
    match p
    case NoProps => 0
    case Prop(_, v, rest) => Larger(1 + Depth(v), DepthProps(rest))
  }

  function DepthItems(p: Items): nat {
    match p
    case NoItems => 0
    case Item(v, rest) => Larger(1 + Depth(v), DepthItems(rest))
  }

  function Larger(a: nat, b: nat): nat { if a < b then b else a }

  /** The events of a value that are told when its text has been taken, and the one that may be pending. */
  function Heard(v: Value): seq<Event> { if v.Int? then [] else Visit(v) }

  function Pending(v: Value): seq<Event> { if v.Int? then Visit(v) else [] }

  lemma HeardThenPending(v: Value)
    ensures Heard(v) + Pending(v) == Visit(v)
  {
  }

  /** The begin of a text of a value: nothing that is passed over, and no end of an array. */
  lemma TextBegins(v: Value)
    requires DecimalFree(v)
    ensures |JsonText(v)| > 0 && Solid(JsonText(v)[0]) && JsonText(v)[0] != RBRACKET
  {
    hide EscapedText;
    hide PropsText;
    hide ItemsText;
    hide IntText;
    if v.Int? {
      IntTextIntegral(v.i);
    }
  }

  predicate Member(p: Parser) { p.top == Rec(EatWhitespace, Array) || p.top == Rec(EatWhitespace, ObjValue) }

  /** The record of the container, and the parser for its member. */
  function Waits(p: Parser): Rec { if p.top.saved == Array then Rec(ArraySep, Array) else Rec(EatWhitespace, ObjSep) }

  function Inner(p: Parser): Parser { p.(below := p.below + [Waits(p)], top := FRESH) }

  lemma MemberBegins(p: Parser, s: Bytes, lexer: Lexer)
    requires Valid(p) && Member(p) && |s| > 0 && Solid(s[0]) && s[0] != RBRACKET
    ensures |p.below| >= MAX_DEPTH - 1 ==> Run(p, s, lexer).err == TooDeep
    ensures |p.below| < MAX_DEPTH - 1 ==> Valid(Inner(p)) && Run(p, s, lexer).err == Run(Inner(p), s, lexer).err
    ensures |p.below| < MAX_DEPTH - 1 ==> forall r, es :: Takes(Inner(p), s, r, es, lexer) ==> Takes(p, s, r, es, lexer)
  {
    hide At;
    hide Takes;
    var q := To(p, p.top.saved);
    SpaceEnds(p, s[0], lexer);
    if |p.below| >= MAX_DEPTH - 1 {
      hide Run;
      AtOnce(q, s[0], lexer);
      RunFirst(p, s, lexer);
      OnwardIs(p, At(p, s[0], lexer), s[1..], lexer);
    } else {
      AtAgain(q, s[0], Inner(p), lexer);
      SameOn(p, Inner(p), s, lexer);
    }
  }

  predicate Writable(v: Value) { DecimalFree(v) && NoNul(v) }

  /** A value is taken, however deep the parser is, as long as its containers go no deeper than there is room for. */
  lemma {:induction false} ValueTaken(v: Value, p: Parser, lexer: Lexer) returns (q: Parser)
    requires Writable(v) && Valid(p) && p.top == FRESH && |p.below| + Depth(v) < MAX_DEPTH
    ensures Takes(p, JsonText(v), q, Heard(v), lexer) && Ended(q, p.below, Pending(v))
    decreases v
  {
    hide Takes;
    hide Ended;
    hide Valid;
    match v
    case Obj(ps) =>
      var r := OpenTaken(p, BeginObject, lexer);
      q := PropsTaken(ps, r, lexer);
      TakesThen(p, [LBRACE], r, [BeginObject], PropsText(ps) + [RBRACE], q, VisitProps(ps) + [EndObject], lexer);
      BytesGrouped([LBRACE], PropsText(ps), [RBRACE]);
      Grouped([BeginObject], VisitProps(ps), [EndObject]);
    case Arr(ps) =>
      var r := OpenTaken(p, BeginArray, lexer);
      q := ItemsTaken(ps, r, lexer);
      TakesThen(p, [LBRACKET], r, [BeginArray], ItemsText(ps) + [RBRACKET], q, VisitItems(ps) + [EndArray], lexer);
      BytesGrouped([LBRACKET], ItemsText(ps), [RBRACKET]);
      Grouped([BeginArray], VisitItems(ps), [EndArray]);
    case Undefined => q := NullTaken(p, lexer);
    case Null => q := NullTaken(p, lexer);
    case Bool(b) => q := BoolTaken(b, p, lexer);
    case Int(i) => q := IntTaken(i, p, lexer);
    case Str(s) => q := StringTaken(s, p, lexer);
  }

  lemma OpenTaken(p: Parser, e: Event, lexer: Lexer) returns (q: Parser)
    requires Valid(p) && p.top == FRESH && (e.BeginObject? || e.BeginArray?)
    ensures Takes(p, [if e.BeginObject? then LBRACE else LBRACKET], q, [e], lexer) && Valid(q)
    ensures q.below == p.below && q.top == Rec(EatWhitespace, if e.BeginObject? then ObjFieldStart else Array)
  {
    hide At;
    hide Takes;
    var c := if e.BeginObject? then LBRACE else LBRACKET;
    SpaceEnds(p, c, lexer);
    q := Then(p, if e.BeginObject? then ObjFieldStart else Array);
    AtNext(To(p, Start), c, q, [e], lexer);
    TakesOne(p, c, q, [e], lexer);
  }

  lemma CloseTaken(p: Parser, e: Event, lexer: Lexer) returns (q: Parser)
    requires Valid(p) && ((p.top == Rec(EatWhitespace, ObjFieldStart) && e.EndObject?) || (p.top == Rec(EatWhitespace, Array) && e.EndArray?))
    ensures Takes(p, [if e.EndObject? then RBRACE else RBRACKET], q, [e], lexer) && Ended(q, p.below, [])
  {
    hide At;
    hide Takes;
    var c := if e.EndObject? then RBRACE else RBRACKET;
    SpaceEnds(p, c, lexer);
    q := Then(p, Finish);
    AtNext(To(p, p.top.saved), c, q, [e], lexer);
    TakesOne(p, c, q, [e], lexer);
  }

  /** The name of a property, up to its value. */
  lemma NameTaken(name: Bytes, p: Parser, lexer: Lexer) returns (q: Parser)
    requires Valid(p) && p.top == Rec(EatWhitespace, ObjFieldStart) && NulFree(name)
    ensures Takes(p, StringText(name) + [COLON], q, [PropName(name)], lexer) && Valid(q)
    ensures q.below == p.below && q.top == Rec(EatWhitespace, ObjValue)
  {
    hide At;
    hide Takes;
    hide EscapedText;
    var e := PropName(name);
    var r := To(p, ObjFieldStart).(top := Rec(ObjField, ObjFieldStart), str := []);
    SpaceEnds(p, QUOTE, lexer);
    AtNext(To(p, ObjFieldStart), QUOTE, r, [], lexer);
    TakesOne(p, QUOTE, r, [], lexer);
    var t := TextEnds(name, r, ObjFieldEnd, e, lexer);
    TakesValid(r, EscapedText(name) + [QUOTE], t, [e], lexer);
    QuietThen(p, [QUOTE], r, EscapedText(name) + [QUOTE], t, [e], lexer);
    assert StringText(name) == [QUOTE] + (EscapedText(name) + [QUOTE]);
    q := Then(t, ObjValue);
    SpaceEnds(t, COLON, lexer);
    AtNext(To(t, ObjFieldEnd), COLON, q, [], lexer);
    TakesOne(t, COLON, q, [], lexer);
    TakesThen(p, StringText(name), t, [e], [COLON], q, [], lexer);
    assert [e] + [] == [e];
  }

  /** A member of a container, and what follows it. */
  lemma MemberTaken(v: Value, p: Parser, q: Parser, c: Byte, lexer: Lexer) returns (r: Parser)
    requires Valid(p) && Member(p) && |p.below| < MAX_DEPTH - 1 && DecimalFree(v) && Valid(Inner(p))
    requires Takes(Inner(p), JsonText(v), q, Heard(v), lexer) && Ended(q, p.below + [Waits(p)], Pending(v))
    requires Expected(Waits(p), c)
    ensures Takes(p, JsonText(v) + [c], r, Visit(v) + Closing(c), lexer) && Valid(r)
    ensures r.below == p.below && r.top == Rec(EatWhitespace, StateBehind(Waits(p), c))
  {
    hide Takes;
    hide Ended;
    hide Valid;
    hide JsonText;
    hide Visit;
    TextBegins(v);
    MemberBegins(p, JsonText(v), lexer);
    r := MemberEnds(q, p.below, Waits(p), Pending(v), c, lexer);
    TakesThen(p, JsonText(v), q, Heard(v), [c], r, Pending(v) + Closing(c), lexer);
    TakesValid(q, [c], r, Pending(v) + Closing(c), lexer);
    HeardThenPending(v);
    Grouped(Heard(v), Pending(v), Closing(c));
  }

  lemma InnerValid(p: Parser)
    requires Valid(p) && Member(p) && |p.below| < MAX_DEPTH - 1
    ensures Valid(Inner(p))
  {
  }

  lemma EndedValid(p: Parser)
    requires Valid(p) && p.top == ENDED
    ensures Ended(p, p.below, [])
  {
  }

  lemma {:induction false} ItemsTaken(ps: Items, p: Parser, lexer: Lexer) returns (q: Parser)
    requires DecimalFreeItems(ps) && NoNulItems(ps) && Valid(p) && p.top == Rec(EatWhitespace, Array) && |p.below| + DepthItems(ps) < MAX_DEPTH
    ensures Takes(p, ItemsText(ps) + [RBRACKET], q, VisitItems(ps) + [EndArray], lexer) && Ended(q, p.below, [])
    decreases ps
  {
    hide Takes;
    hide Ended;
    hide Valid;
    hide JsonText;
    hide Visit;
    match ps
    case NoItems =>
      q := CloseTaken(p, EndArray, lexer);
      assert [] + [RBRACKET] == [RBRACKET] && [] + [EndArray] == [EndArray];
    case Item(v, rest) =>
      InnerValid(p);
      var r := ValueTaken(v, Inner(p), lexer);
      if rest.NoItems? {
        q := MemberTaken(v, p, r, RBRACKET, lexer);
        EndedValid(q);
        assert JsonText(v) + [] == JsonText(v) && Visit(v) + [] == Visit(v);
      } else {
        var t := MemberTaken(v, p, r, COMMA, lexer);
        q := ItemsTaken(rest, t, lexer);
        TakesThen(p, JsonText(v) + [COMMA], t, Visit(v) + [], ItemsText(rest) + [RBRACKET], q, VisitItems(rest) + [EndArray], lexer);
        assert Visit(v) + [] == Visit(v);
        Grouped(Visit(v), VisitItems(rest), [EndArray]);
        FourGrouped(JsonText(v), [COMMA], ItemsText(rest), [RBRACKET]);
      }
  }

  lemma FourGrouped(a: Bytes, b: Bytes, c: Bytes, d: Bytes)
    ensures (a + b) + (c + d) == (a + (b + c)) + d
  {
  }

  lemma {:induction false} PropsTaken(ps: Props, p: Parser, lexer: Lexer) returns (q: Parser)
    requires DecimalFreeProps(ps) && NoNulProps(ps) && Valid(p) && p.top == Rec(EatWhitespace, ObjFieldStart) && |p.below| + DepthProps(ps) < MAX_DEPTH
    ensures Takes(p, PropsText(ps) + [RBRACE], q, VisitProps(ps) + [EndObject], lexer) && Ended(q, p.below, [])
    decreases ps
  {
    hide Takes;
    hide Ended;
    hide Valid;
    hide JsonText;
    hide Visit;
    hide StringText;
    match ps
    case NoProps =>
      q := CloseTaken(p, EndObject, lexer);
      assert [] + [RBRACE] == [RBRACE] && [] + [EndObject] == [EndObject];
    case Prop(name, v, rest) =>
      var n := NameTaken(name, p, lexer);
      InnerValid(n);
      var r := ValueTaken(v, Inner(n), lexer);
      var head := StringText(name) + [COLON];
      if rest.NoProps? {
        q := MemberTaken(v, n, r, RBRACE, lexer);
        EndedValid(q);
        TakesThen(p, head, n, [PropName(name)], JsonText(v) + [RBRACE], q, Visit(v) + [EndObject], lexer);
        assert VisitProps(ps) == [PropName(name)] + Visit(v);
        assert PropsText(ps) == head + JsonText(v);
        Grouped([PropName(name)], Visit(v), [EndObject]);
        BytesGrouped(head, JsonText(v), [RBRACE]);
      } else {
        var t := MemberTaken(v, n, r, COMMA, lexer);
        TakesThen(p, head, n, [PropName(name)], JsonText(v) + [COMMA], t, Visit(v) + [], lexer);
        q := PropsTaken(rest, t, lexer);
        TakesThen(p, head + (JsonText(v) + [COMMA]), t, [PropName(name)] + (Visit(v) + []), PropsText(rest) + [RBRACE], q, VisitProps(rest) + [EndObject], lexer);
        PropEvents(name, v, rest);
        PropBytes(head, JsonText(v), PropsText(rest));
      }
  }

  lemma PropEvents(name: Bytes, v: Value, rest: Props)
    ensures ([PropName(name)] + (Visit(v) + [])) + (VisitProps(rest) + [EndObject]) == VisitProps(Prop(name, v, rest)) + [EndObject]
  {
    hide Visit;
  }

  lemma PropBytes(head: Bytes, text: Bytes, rest: Bytes)
    ensures (head + (text + [COMMA])) + (rest + [RBRACE]) == (head + text + ([COMMA] + rest)) + [RBRACE]
  {
  }

  // ---- too deep ----

  /** Containers that go deeper than there is room for are refused. */
  lemma {:induction false} ValueTooDeep(v: Value, p: Parser, rest: Bytes, lexer: Lexer)
    requires Writable(v) && Valid(p) && p.top == FRESH && |p.below| + Depth(v) >= MAX_DEPTH
    ensures Run(p, JsonText(v) + rest, lexer).err == TooDeep
    decreases v, 1
  {
    hide Takes;
    hide Run;
    hide Valid;
    match v
    case Obj(ps) =>
      var r := OpenTaken(p, BeginObject, lexer);
      PropsTooDeep(ps, r, [RBRACE] + rest, lexer);
      FailsThen(p, [LBRACE], r, [BeginObject], PropsText(ps) + ([RBRACE] + rest), [], lexer);
      DeepBytes([LBRACE], PropsText(ps), [RBRACE], rest);
    case Arr(ps) =>
      var r := OpenTaken(p, BeginArray, lexer);
      ItemsTooDeep(ps, r, [RBRACKET] + rest, lexer);
      FailsThen(p, [LBRACKET], r, [BeginArray], ItemsText(ps) + ([RBRACKET] + rest), [], lexer);
      DeepBytes([LBRACKET], ItemsText(ps), [RBRACKET], rest);
    case _ => RoomLeft(p);
  }

  lemma RoomLeft(p: Parser)
    requires Valid(p)
    ensures |p.below| < MAX_DEPTH
  {
  }

  lemma DeepBytes(a: Bytes, b: Bytes, c: Bytes, d: Bytes)
    ensures a + (b + (c + d)) + [] == (a + b + c) + d
  {
  }

  /** The first member is too deep itself, or one behind it. */
  lemma {:induction false} ItemsTooDeep(ps: Items, p: Parser, more: Bytes, lexer: Lexer)
    requires DecimalFreeItems(ps) && NoNulItems(ps) && Valid(p) && p.top == Rec(EatWhitespace, Array) && |p.below| + DepthItems(ps) >= MAX_DEPTH
    ensures Run(p, ItemsText(ps) + more, lexer).err == TooDeep
    decreases ps, 0
  {
    hide Takes;
    hide Run;
    hide Valid;
    hide JsonText;
    hide Visit;
    hide Ended;
    RoomLeft(p);
    var v, rest := ps.val, ps.rest;
    if |p.below| + 1 + Depth(v) >= MAX_DEPTH {
      var behind := (if rest.NoItems? then [] else [COMMA] + ItemsText(rest)) + more;
      MemberTooDeep(v, p, behind, lexer);
      BytesGrouped(JsonText(v), if rest.NoItems? then [] else [COMMA] + ItemsText(rest), more);
    } else {
      InnerValid(p);
      var r := ValueTaken(v, Inner(p), lexer);
      var t := MemberTaken(v, p, r, COMMA, lexer);
      ItemsTooDeep(rest, t, more, lexer);
      FailsThen(p, JsonText(v) + [COMMA], t, Visit(v) + [], ItemsText(rest) + more, [], lexer);
      assert (JsonText(v) + [COMMA]) + (ItemsText(rest) + more) + [] == (JsonText(v) + ([COMMA] + ItemsText(rest))) + more;
    }
  }

  lemma {:induction false} MemberTooDeep(v: Value, p: Parser, more: Bytes, lexer: Lexer)
    requires Writable(v) && Valid(p) && Member(p) && |p.below| + 1 + Depth(v) >= MAX_DEPTH
    ensures Run(p, JsonText(v) + more, lexer).err == TooDeep
    decreases v, 2
  {
    hide Run;
    hide Takes;
    hide JsonText;
    TextBegins(v);
    MemberBegins(p, JsonText(v) + more, lexer);
    if |p.below| < MAX_DEPTH - 1 {
      ValueTooDeep(v, Inner(p), more, lexer);
    }
  }

  lemma {:induction false} PropsTooDeep(ps: Props, p: Parser, more: Bytes, lexer: Lexer)
    requires DecimalFreeProps(ps) && NoNulProps(ps) && Valid(p) && p.top == Rec(EatWhitespace, ObjFieldStart) && |p.below| + DepthProps(ps) >= MAX_DEPTH
    ensures Run(p, PropsText(ps) + more, lexer).err == TooDeep
    decreases ps, 0
  {
    hide Takes;
    hide Run;
    hide Valid;
    hide JsonText;
    hide Visit;
    hide Ended;
    hide StringText;
    RoomLeft(p);
    var v, rest := ps.val, ps.rest;
    var head := StringText(ps.name) + [COLON];
    var n := NameTaken(ps.name, p, lexer);
    if |p.below| + 1 + Depth(v) >= MAX_DEPTH {
      var behind := (if rest.NoProps? then [] else [COMMA] + PropsText(rest)) + more;
      MemberTooDeep(v, n, behind, lexer);
      FailsThen(p, head, n, [PropName(ps.name)], JsonText(v) + behind, [], lexer);
      DeepBytes(head, JsonText(v), if rest.NoProps? then [] else [COMMA] + PropsText(rest), more);
    } else {
      InnerValid(n);
      var r := ValueTaken(v, Inner(n), lexer);
      var t := MemberTaken(v, n, r, COMMA, lexer);
      PropsTooDeep(rest, t, more, lexer);
      TakesThen(p, head, n, [PropName(ps.name)], JsonText(v) + [COMMA], t, Visit(v) + [], lexer);
      FailsThen(p, head + (JsonText(v) + [COMMA]), t, [PropName(ps.name)] + (Visit(v) + []), PropsText(rest) + more, [], lexer);
      PropMore(head, JsonText(v), PropsText(rest), more);
    }
  }

  lemma PropMore(head: Bytes, text: Bytes, rest: Bytes, more: Bytes)
    ensures (head + (text + [COMMA])) + (rest + more) + [] == (head + text + ([COMMA] + rest)) + more
  {
  }

  // ---- no NUL is told ----

  /** What may follow keeps the text that is being read free of NULs. */
  ghost predicate TellsClean(m: Move, c: Byte) {
    RoundTrip.TextsNulFree(m.events) && (m.Again? || m.Stop? || (m.Next? && c != 0) ==> NulFree(m.next.str))
  }

  lemma OnceClean(p: Parser, c: Byte, lexer: Lexer)
    requires Valid(p) && NulFree(p.str)
    ensures TellsClean(Once(p, c, lexer), c)
  {
    hide AtUnicode;
    hide AtNumber;
    hide AtLetter;
    hide AtStart;
    if p.top.state == EscapeUnicode {
      UnicodeClean(p, c);
    } else if p.top.state == Number {
      NumberClean(p, c, lexer);
    } else if p.top.state == InNull || p.top.state == InBool || p.top.state == Start {
      WordClean(p, c, lexer);
    }
  }

  lemma UnicodeClean(p: Parser, c: Byte)
    requires Valid(p) && p.top.state == EscapeUnicode && NulFree(p.str)
    ensures TellsClean(AtUnicode(p, c), c)
  {
    hide HexDigit;
    if IsHexDigit(c) {
      UnicodeInside(p, c);
    }
  }

  lemma NumberClean(p: Parser, c: Byte, lexer: Lexer)
    requires NulFree(p.str)
    ensures TellsClean(AtNumber(p, c, lexer), c)
  {
    hide ToInt64;
  }

  lemma WordClean(p: Parser, c: Byte, lexer: Lexer)
    requires Valid(p) && NulFree(p.str) && (p.top.state == InNull || p.top.state == InBool || p.top.state == Start)
    ensures TellsClean(Once(p, c, lexer), c)
  {
  }

  lemma {:induction false} AtClean(p: Parser, c: Byte, lexer: Lexer)
    requires Valid(p) && NulFree(p.str)
    ensures TellsClean(At(p, c, lexer), c)
    decreases Json.Rank(p, c)
  {
    hide Once;
    hide At;
    hide Valid;
    hide Json.Rank;
    OnceClean(p, c, lexer);
    AtOnce(p, c, lexer);
    var m := Once(p, c, lexer);
    if m.Again? {
      AtClean(m.next, c, lexer);
      RoundTrip.NulFreeConcat(m.events, At(m.next, c, lexer).events);
    }
  }

  lemma {:induction false} RunClean(p: Parser, s: Bytes, lexer: Lexer)
    requires Valid(p) && NulFree(p.str) && NulFree(s)
    ensures RoundTrip.TextsNulFree(Run(p, s, lexer).events) && NulFree(Run(p, s, lexer).next.str)
    decreases |s|
  {
    hide At;
    hide Valid;
    hide Run;
    hide RoundTrip.TextsNulFree;
    if |s| == 0 {
      RunNone(p, lexer);
      assert RoundTrip.TextsNulFree([]) by { NoTexts(); }
    } else {
      RunFirst(p, s, lexer);
      AtClean(p, s[0], lexer);
      var m := At(p, s[0], lexer);
      OnwardIs(p, m, s[1..], lexer);
      assert s[0] in s;
      if m.Next? {
        RunClean(m.next, s[1..], lexer);
        RoundTrip.NulFreeConcat(m.events, Run(m.next, s[1..], lexer).events);
      }
    }
  }

  lemma NoTexts()
    ensures RoundTrip.TextsNulFree([])
  {
  }

  /** The text of a value has no NUL, whatever its strings hold. */
  lemma {:induction false} JsonTextNulFree(v: Value)
    requires DecimalFree(v)
    ensures NulFree(JsonText(v))
    decreases v
  {
    hide EscapedText;
    hide IntText;
    match v
    case Obj(p) => PropsTextNulFree(p);
    case Arr(p) => ItemsTextNulFree(p);
    case Str(s) => EscapedNulFree(s);
    case Int(i) => IntTextIntegral(i);
    case _ =>
  }

  lemma {:induction false} EscapedNulFree(s: Bytes)
    ensures NulFree(EscapedText(s))
  {
    if |s| > 0 {
      EscapedNulFree(s[..|s| - 1]);
    }
  }

  lemma {:induction false} PropsTextNulFree(p: Props)
    requires DecimalFreeProps(p)
    ensures NulFree(PropsText(p))
    decreases p
  {
    hide EscapedText;
    hide JsonText;
    if p.Prop? {
      EscapedNulFree(p.name);
      JsonTextNulFree(p.val);
      PropsTextNulFree(p.rest);
    }
  }

  lemma {:induction false} ItemsTextNulFree(p: Items)
    requires DecimalFreeItems(p)
    ensures NulFree(ItemsText(p))
    decreases p
  {
    hide JsonText;
    if p.Item? {
      JsonTextNulFree(p.val);
      ItemsTextNulFree(p.rest);
    }
  }

  lemma ParsedClean(text: Bytes, lexer: Lexer)
    requires NulFree(text)
    ensures RoundTrip.TextsNulFree(Parsed(text, lexer).1)
  {
    hide At;
    hide Run;
    hide RoundTrip.TextsNulFree;
    BegunValid();
    RunClean(BEGUN, text, lexer);
    var first := Run(BEGUN, text, lexer);
    EndClean(first.next, lexer);
    RoundTrip.NulFreeConcat(first.events, Run(first.next, [0], lexer).events);
  }

  lemma EndClean(p: Parser, lexer: Lexer)
    requires Valid(p) && NulFree(p.str)
    ensures RoundTrip.TextsNulFree(Run(p, [0], lexer).events)
  {
    hide At;
    hide Valid;
    hide Run;
    RunFirst(p, [0], lexer);
    AtClean(p, 0, lexer);
    var m := At(p, 0, lexer);
    OnwardIs(p, m, [], lexer);
    if m.Next? {
      RunNone(m.next, lexer);
      assert m.events + [] == m.events;
    }
  }

  // ---- the round trip ----

  /**
   * The text of a value without decimals is read as the value's events exactly when no string has a NUL
   * and the value is not too deep.
   */
  lemma JsonRoundTrip(v: Value, lexer: Lexer)
    requires DecimalFree(v)
    ensures Parsed(JsonText(v), lexer) == (Fine, Visit(v)) <==> NoNul(v) && Depth(v) <= 31
    ensures NoNul(v) && Depth(v) >= 32 ==> Parsed(JsonText(v), lexer).0 == TooDeep
  {
    hide Run;
    hide JsonText;
    hide Visit;
    hide RoundTrip.TextsNulFree;
    BegunValid();
    if !NoNul(v) {
      JsonTextNulFree(v);
      ParsedClean(JsonText(v), lexer);
      RoundTrip.VisitNulFree(v);
    } else if Depth(v) < MAX_DEPTH {
      var q := ValueTaken(v, BEGUN, lexer);
      EndsText(q, Pending(v), lexer);
      HeardThenPending(v);
    } else {
      ValueTooDeep(v, BEGUN, [], lexer);
      assert JsonText(v) + [] == JsonText(v);
    }
  }
}
