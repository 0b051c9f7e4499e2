/** What the escapes of a string are read as, and the space and the comments that are passed over. */
module JsonEscapes {
  import opened Bytes
  import opened Values
  import opened Events
  import opened Json
  import opened JsonReads

  // ---- characters as bytes ----

  /** The table of section 3 of RFC 3629, up to three bytes: the bits of a character, and the range each length is for. */
  function CharOf(s: Bytes): Maybe<nat> {
    if |s| == 1 && s[0] / 128 == 0 then Just(s[0] as nat)
    else if |s| == 2 && s[0] / 32 == 6 && s[1] / 64 == 2 then
      var a: int, b: int := s[0] % 32, s[1] % 64;
      var n := a * 64 + b;
      if 0x80 <= n <= 0x7FF then Just(n) else Nothing
    else if |s| == 3 && s[0] / 16 == 14 && s[1] / 64 == 2 && s[2] / 64 == 2 then
      var a: int, b: int, c: int := s[0] % 16, s[1] % 64, s[2] % 64;
      var n := a * 4096 + b * 64 + c;
      if 0x800 <= n <= 0xFFFF then Just(n) else Nothing
    else Nothing
  }

  /** A number below 0x10000 is written as the bytes that the table has for it, and these are the only ones. */
  lemma CharsRead(n: nat, s: Bytes)
    requires n < 0x10000
    ensures CharOf(s) == Just(n) <==> s == Utf8(n)
  {
    if n < 0x80 {
      assert Utf8(n) == [n];
    } else if n < 0x800 {
      TwoBytes(n);
    } else {
      ThreeBytes(n);
    }
    if CharOf(s) == Just(n) {
      OnlyBytes(n, s);
    }
  }

  lemma TwoBytes(n: nat)
    requires 0x80 <= n < 0x800
    ensures CharOf(Utf8(n)) == Just(n)
  {
    var a, b := n / 64, n % 64;
    Div32(6, a);
    Div64(2, b);
    assert Utf8(n) == [6 * 32 + a, 2 * 64 + b];
  }

  lemma ThreeBytes(n: nat)
    requires 0x800 <= n < 0x10000
    ensures CharOf(Utf8(n)) == Just(n)
  {
    var a, b, c := n / 4096, n / 64 % 64, n % 64;
    Div16(14, a);
    Div64(2, b);
    Div64(2, c);
    assert n / 64 / 64 == n / 4096;
    assert Utf8(n) == [14 * 16 + a, 2 * 64 + b, 2 * 64 + c];
  }

  lemma Div64(q: int, r: int)
    requires 0 <= r < 64
    ensures (64 * q + r) / 64 == q && (64 * q + r) % 64 == r
  {
  }

  lemma Div32(q: int, r: int)
    requires 0 <= r < 32
    ensures (32 * q + r) / 32 == q && (32 * q + r) % 32 == r
  {
  }

  lemma Div16(q: int, r: int)
    requires 0 <= r < 16
    ensures (16 * q + r) / 16 == q && (16 * q + r) % 16 == r
  {
  }

  lemma OnlyBytes(n: nat, s: Bytes)
    requires n < 0x10000 && CharOf(s) == Just(n)
    ensures s == Utf8(n)
  {
    if |s| == 2 {
      var a: int, b: int := s[0] % 32, s[1] % 64;
      Div64(a, b);
      assert s[0] == 0xC0 + a && s[1] == 0x80 + b;
    } else if |s| == 3 {
      var a: int, b: int, c: int := s[0] % 16, s[1] % 64, s[2] % 64;
      assert n == 64 * (64 * a + b) + c;
      Div64(64 * a + b, c);
      Div64(a, b);
      assert n / 4096 == n / 64 / 64;
      assert s[0] == 0xE0 + a && s[1] == 0x80 + b && s[2] == 0x80 + c;
    }
  }

  /** Half of a pair that stands for one character above 0xFFFF, which section 3 does not allow in bytes of its own. */
  predicate HalfOfPair(n: nat) { 0xD800 <= n <= 0xDFFF }

  // ---- four digits ----

  /** A hexadecimal digit, with letters in either case. */
  function HexValue(c: Byte): Maybe<nat> {
    if 0x30 <= c < 0x3A then Just(c as nat - 0x30)
    else if 0x41 <= c < 0x47 then Just(10 + (c as nat - 0x41))
    else if 0x61 <= c < 0x67 then Just(10 + (c as nat - 0x61))
    else Nothing
  }

  lemma HexIs(c: Byte)
    ensures IsHexDigit(c) <==> HexValue(c).Just?
    ensures IsHexDigit(c) ==> HexDigit(c) == HexValue(c).val < 16
  {
  }

  /** The number some digits make, if all of them are digits. */
  function HexNumber(digits: Bytes): Maybe<nat> {
    if |digits| == 0 then Just(0)
    else
      var n, d := HexNumber(digits[..|digits| - 1]), HexValue(digits[|digits| - 1]);
      if n.Nothing? || d.Nothing? then Nothing else Just(16 * n.val + d.val)
  }

  /** The parser behind some of the four digits. */
  ghost predicate Reading(q: Parser, p: Parser, digits: Bytes) {
    && Valid(q) && q.top.state == EscapeUnicode && q.top.saved == p.top.state && q.below == p.below && q.str == p.str
    && |digits| < 4 && q.strPos == |digits|
    && HexNumber(digits).Just? && HexNumber(digits).val < Power(|digits|) && q.ucsChar == HexNumber(digits).val * Power(4 - |digits|)
  }

  /** Powers of sixteen. */
  function Power(i: nat): nat { if i == 0 then 1 else if i == 1 then 16 else if i == 2 then 256 else if i == 3 then 4096 else 65536 }

  lemma NumberMore(digits: Bytes, c: Byte)
    requires HexNumber(digits).Just?
    ensures HexNumber(digits + [c]) == if HexValue(c).Just? then Just(16 * HexNumber(digits).val + HexValue(c).val) else Nothing
  {
    assert (digits + [c])[..|digits|] == digits;
  }

  lemma PlacesAdd(n: nat, d: nat, i: nat)
    requires i < 4 && n < Power(i) && d < 16
    ensures n * Power(4 - i) + d * Weight(i) == (16 * n + d) * Power(3 - i) && 16 * n + d < Power(i + 1)
  {
    if i == 0 {
      assert n == 0;
    } else if i == 1 {
      assert n * 4096 + d * 256 == (16 * n + d) * 256;
    } else if i == 2 {
      assert n * 256 + d * 16 == (16 * n + d) * 16;
    } else {
      assert n * 16 + d == 16 * n + d;
    }
  }

  lemma DigitTaken(p: Parser, digits: Bytes, q: Parser, c: Byte, lexer: Lexer) returns (r: Parser)
    requires InText(p.top.state) && Reading(q, p, digits) && |digits| < 3 && HexValue(c).Just?
    ensures Takes(q, [c], r, [], lexer) && Reading(r, p, digits + [c])
  {
    hide At;
    hide Takes;
    hide Weight;
    hide Power;
    hide HexNumber;
    HexIs(c);
    NumberMore(digits, c);
    PlacesAdd(HexNumber(digits).val, HexValue(c).val, |digits|);
    r := q.(ucsChar := q.ucsChar + HexDigit(c) * Weight(q.strPos), strPos := q.strPos + 1);
    AtNext(q, c, r, [], lexer);
    TakesOne(q, c, r, [], lexer);
  }

  /** The last digit: the bytes of the character join the text, unless it is NUL. */
  lemma LastDigit(p: Parser, digits: Bytes, q: Parser, c: Byte, lexer: Lexer) returns (r: Parser)
    requires InText(p.top.state) && Reading(q, p, digits) && |digits| == 3 && HexValue(c).Just?
    ensures var n := HexNumber(digits + [c]).val;
      n < 0x10000 && if n == 0 then Run(q, [c], lexer).err == BadEscape
      else Takes(q, [c], r, [], lexer) && r.below == p.below && r.top.state == p.top.state && r.str == p.str + Utf8(n)
  {
    hide At;
    hide Takes;
    hide HexNumber;
    hide Utf8;
    HexIs(c);
    NumberMore(digits, c);
    PlacesAdd(HexNumber(digits).val, HexValue(c).val, 3);
    var n := HexNumber(digits + [c]).val;
    UnicodeInside(q, c);
    r := To(Append(q.(ucsChar := n, strPos := 4), if 0 < n < 0x10000 then Utf8(n) else []), q.top.saved);
    if n == 0 {
      Refused(q, c, lexer);
    } else {
      AtNext(q, c, r, [], lexer);
      TakesOne(q, c, r, [], lexer);
    }
  }

  lemma Refused(q: Parser, c: Byte, lexer: Lexer)
    requires Valid(q) && Once(q, c, lexer) == Fail(BadEscape, [])
    ensures Run(q, [c], lexer).err == BadEscape
  {
    hide At;
    hide Once;
    hide Run;
    AtOnce(q, c, lexer);
    RunFirst(q, [c], lexer);
    OnwardIs(q, At(q, c, lexer), [], lexer);
  }

  lemma NoDigit(p: Parser, digits: Bytes, q: Parser, c: Byte, lexer: Lexer)
    requires Reading(q, p, digits) && HexValue(c).Nothing?
    ensures Run(q, [c], lexer).err == BadEscape
  {
    hide HexNumber;
    hide Power;
    HexIs(c);
    Refused(q, c, lexer);
  }

  /** The digits one after another, as far as there are digits. */
  lemma {:induction false} DigitsTaken(p: Parser, digits: Bytes, done: Bytes, q: Parser, lexer: Lexer) returns (r: Parser)
    requires InText(p.top.state) && |done| < 4 && |done| + |digits| == 4 && Reading(q, p, done)
    ensures var n := HexNumber(done + digits);
      if n.Just? && n.val > 0 then
        && n.val < 0x10000 && Takes(q, digits, r, [], lexer)
        && r.below == p.below && r.top.state == p.top.state && r.str == p.str + Utf8(n.val)
      else Run(q, digits, lexer).err == BadEscape
    decreases |digits|
  {
    hide Takes;
    hide Run;
    hide Reading;
    hide Utf8;
    hide HexNumber;
    hide HexValue;
    var c, rest := digits[0], digits[1..];
    assert digits == [c] + rest && done + digits == done + [c] + rest;
    r := q;
    if HexValue(c).Nothing? {
      NoDigit(p, done, q, c, lexer);
      NotANumber(done, c, rest);
      RunThen(q, [c], rest, lexer) by { ReadingValid(q, p, done); }
    } else if |done| == 3 {
      assert digits == [c];
      r := LastDigit(p, done, q, c, lexer);
      StillNumber(done, c, p, q);
    } else {
      var s := DigitTaken(p, done, q, c, lexer);
      assert done + [c] + rest == done + digits;
      r := DigitsTaken(p, rest, done + [c], s, lexer);
      var n := HexNumber(done + digits);
      if n.Just? && n.val > 0 {
        QuietThen(q, [c], s, rest, r, [], lexer);
      } else {
        FailsThen(q, [c], s, [], rest, [], lexer);
        assert [c] + rest + [] == digits;
      }
    }
  }

  lemma ReadingValid(q: Parser, p: Parser, digits: Bytes)
    requires Reading(q, p, digits)
    ensures Valid(q)
  {
  }

  lemma StillNumber(digits: Bytes, c: Byte, p: Parser, q: Parser)
    requires Reading(q, p, digits) && HexValue(c).Just?
    ensures HexNumber(digits + [c]).Just?
  {
    NumberMore(digits, c);
  }

  lemma {:induction false} NotANumber(done: Bytes, c: Byte, rest: Bytes)
    requires HexValue(c).Nothing?
    ensures HexNumber(done + [c] + rest).Nothing?
    decreases |rest|
  {
    var all := done + [c] + rest;
    if |rest| == 0 {
      assert all[|all| - 1] == c;
    } else {
      NotANumber(done, c, rest[..|rest| - 1]);
      assert all[..|all| - 1] == done + [c] + rest[..|rest| - 1];
    }
  }

  /**
   * In a string, a backslash, a `u` and four more bytes are read as the bytes of the character whose number the
   * four make in hexadecimal digits, whatever their case; if not all are digits, or all are zero, they are refused.
   */
  lemma UnicodeEscape(p: Parser, digits: Bytes, lexer: Lexer) returns (r: Parser)
    requires Valid(p) && InText(p.top.state) && |digits| == 4
    ensures var text, n := [BACKSLASH, 0x75] + digits, HexNumber(digits);
      if n.Just? && n.val > 0 then
        && n.val < 0x10000 && Takes(p, text, r, [], lexer)
        && r.below == p.below && r.top.state == p.top.state && r.str == p.str + Utf8(n.val) && CharOf(Utf8(n.val)) == n
      else Run(p, text, lexer).err == BadEscape
  {
    hide Takes;
    hide Run;
    hide Utf8;
    hide CharOf;
    hide HexNumber;
    var q := p.(top := Rec(StringEscape, p.top.state));
    BackslashTaken(p, lexer);
    TakesValid(p, [BACKSLASH], q, [], lexer);
    var s := EscapeBegun(q, lexer);
    QuietThen(p, [BACKSLASH], q, [0x75], s, [], lexer);
    TakesValid(q, [0x75], s, [], lexer);
    NoneRead(p, s);
    r := DigitsTaken(p, digits, [], s, lexer);
    assert [] + digits == digits && [BACKSLASH] + [0x75] == [BACKSLASH, 0x75];
    var n := HexNumber(digits);
    if n.Just? && n.val > 0 {
      QuietThen(p, [BACKSLASH, 0x75], s, digits, r, [], lexer);
      CharsRead(n.val, Utf8(n.val));
    } else {
      FailsThen(p, [BACKSLASH, 0x75], s, [], digits, [], lexer);
      assert [BACKSLASH, 0x75] + digits + [] == [BACKSLASH, 0x75] + digits;
    }
  }

  lemma NoneRead(p: Parser, q: Parser)
    requires Valid(q) && q.top == Rec(EscapeUnicode, p.top.state) && q.below == p.below && q.str == p.str && q.strPos == 0 && q.ucsChar == 0
    ensures Reading(q, p, [])
  {
  }

  /** The two halves of a pair are not joined into the one character they stand for: each is given three bytes of its own. */
  lemma HalvesStayApart(p: Parser, high: Bytes, low: Bytes, lexer: Lexer) returns (r: Parser)
    requires Valid(p) && InText(p.top.state) && |high| == 4 && |low| == 4
    requires HexNumber(high).Just? && HalfOfPair(HexNumber(high).val) && HexNumber(low).Just? && HalfOfPair(HexNumber(low).val)
    ensures Takes(p, [BACKSLASH, 0x75] + high + ([BACKSLASH, 0x75] + low), r, [], lexer)
    ensures r.str == p.str + Utf8(HexNumber(high).val) + Utf8(HexNumber(low).val)
    ensures |Utf8(HexNumber(high).val)| == 3 && |Utf8(HexNumber(low).val)| == 3
  {
    hide Takes;
    hide Run;
    hide HexNumber;
    var q := UnicodeEscape(p, high, lexer);
    TakesValid(p, [BACKSLASH, 0x75] + high, q, [], lexer);
    r := UnicodeEscape(q, low, lexer);
    QuietThen(p, [BACKSLASH, 0x75] + high, q, [BACKSLASH, 0x75] + low, r, [], lexer);
  }

  // ---- the other escapes ----

  /** What the letters of section 7 of RFC 8259 stand for. */
  const LETTERS: map<Byte, Byte> := map[
    0x22 := 0x22, 0x5C := 0x5C, 0x2F := 0x2F, 0x62 := 0x08, 0x66 := 0x0C, 0x6E := 0x0A, 0x72 := 0x0D, 0x74 := 0x09]

  /** A backslash and one of these are read as the byte it stands for, and any other but a `u` is refused. */
  lemma LetterEscape(p: Parser, c: Byte, lexer: Lexer) returns (r: Parser)
    requires Valid(p) && InText(p.top.state) && c != 0x75
    ensures if c in LETTERS then
        Takes(p, [BACKSLASH, c], r, [], lexer) && r.below == p.below && r.top.state == p.top.state && r.str == p.str + [LETTERS[c]]
      else Run(p, [BACKSLASH, c], lexer).err == BadEscape
  {
    hide Takes;
    hide Run;
    hide At;
    var q := p.(top := Rec(StringEscape, p.top.state));
    BackslashTaken(p, lexer);
    assert [BACKSLASH] + [c] == [BACKSLASH, c] && [BACKSLASH, c] + [] == [BACKSLASH, c];
    TakesValid(p, [BACKSLASH], q, [], lexer);
    r := p;
    if c in LETTERS {
      r := To(Append(q, [LETTERS[c]]), p.top.state);
      AtNext(q, c, r, [], lexer);
      TakesOne(q, c, r, [], lexer);
      QuietThen(p, [BACKSLASH], q, [c], r, [], lexer);
    } else {
      Refused(q, c, lexer);
      FailsThen(p, [BACKSLASH], q, [], [c], [], lexer);
    }
  }

  // ---- space and comments ----

  predicate Spaces(s: Bytes) {
    forall i :: 0 <= i < |s| ==> s[i] in {0x20, 0x09, 0x0A, 0x0B, 0x0C, 0x0D}
  }

  /** A comment up to its first end mark, or up to the end of its line. */
  predicate CommentText(s: Bytes) {
    || (|s| >= 4 && s[..2] == [SLASH, STAR] && s[|s| - 2..] == [STAR, SLASH]
        && forall i :: 2 <= i < |s| - 2 ==> !(s[i] == STAR && s[i + 1] == SLASH))
    || (|s| >= 3 && s[..2] == [SLASH, SLASH] && s[|s| - 1] == NEWLINE && forall i :: 2 <= i < |s| - 1 ==> s[i] != NEWLINE)
  }

  /** Between the parts of a text. */
  predicate Between(p: Parser) { Valid(p) && p.top.state == EatWhitespace }

  lemma {:induction false} SpacesPassed(p: Parser, s: Bytes, lexer: Lexer)
    requires Between(p) && Spaces(s)
    ensures Takes(p, s, p, [], lexer)
    decreases |s|
  {
    hide At;
    hide Takes;
    if |s| == 0 {
      TakesNone(p, lexer);
    } else {
      AtNext(p, s[0], p, [], lexer);
      TakesOne(p, s[0], p, [], lexer);
      SpacesPassed(p, s[1..], lexer);
      QuietThen(p, [s[0]], p, s[1..], p, [], lexer);
      assert s == [s[0]] + s[1..];
    }
  }

  /** Inside a comment, behind a star or not. */
  lemma {:induction false} CommentRead(p: Parser, s: Bytes, lexer: Lexer)
    requires Valid(p) && (p.top.state == Comment || p.top.state == CommentEnd) && |s| > 0
    requires p.top.state == Comment ==> |s| >= 2 && s[|s| - 2] == STAR
    requires s[|s| - 1] == SLASH && forall i :: 0 <= i < |s| - 2 ==> !(s[i] == STAR && s[i + 1] == SLASH)
    requires p.top.state == CommentEnd && |s| > 1 ==> s[|s| - 2] == STAR && s[0] != SLASH
    ensures Takes(p, s, To(p, EatWhitespace), [], lexer)
    decreases |s|
  {
    hide Takes;
    var c, rest := s[0], s[1..];
    assert s == [c] + rest;
    var q := InsideComment(p, c, lexer);
    if |s| > 1 {
      forall i | 0 <= i < |rest| - 2 ensures !(rest[i] == STAR && rest[i + 1] == SLASH) {
        assert rest[i] == s[i + 1] && rest[i + 1] == s[i + 2];
      }
      assert rest[|rest| - 1] == SLASH;
      assert |rest| > 1 ==> rest[|rest| - 2] == s[|s| - 2];
      if q.top.state == CommentEnd && |rest| > 1 {
        assert !(s[0] == STAR && s[1] == SLASH);
      }
      CommentRead(q, rest, lexer);
      QuietThen(p, [c], q, rest, To(p, EatWhitespace), [], lexer);
    } else {
      assert s == [c];
    }
  }

  lemma InsideComment(p: Parser, c: Byte, lexer: Lexer) returns (q: Parser)
    requires Valid(p) && (p.top.state == Comment || p.top.state == CommentEnd)
    ensures q == To(p, if p.top.state == CommentEnd && c == SLASH then EatWhitespace else if c == STAR then CommentEnd else Comment)
    ensures Takes(p, [c], q, [], lexer) && Valid(q)
  {
    hide At;
    hide Takes;
    q := To(p, if p.top.state == CommentEnd && c == SLASH then EatWhitespace else if c == STAR then CommentEnd else Comment);
    if p.top.state == CommentEnd && c != SLASH {
      AtAgain(p, c, To(p, Comment), lexer);
      AtNext(To(p, Comment), c, q, [], lexer);
    } else {
      AtNext(p, c, q, [], lexer);
    }
    TakesOne(p, c, q, [], lexer);
  }

  lemma {:induction false} LineRead(p: Parser, s: Bytes, lexer: Lexer)
    requires Valid(p) && p.top.state == CommentEol && |s| > 0 && s[|s| - 1] == NEWLINE
    requires forall i :: 0 <= i < |s| - 1 ==> s[i] != NEWLINE
    ensures Takes(p, s, To(p, EatWhitespace), [], lexer)
    decreases |s|
  {
    hide At;
    hide Takes;
    var q := if |s| == 1 then To(p, EatWhitespace) else p;
    AtNext(p, s[0], q, [], lexer);
    TakesOne(p, s[0], q, [], lexer);
    assert s == [s[0]] + s[1..];
    if |s| > 1 {
      LineRead(p, s[1..], lexer);
      QuietThen(p, [s[0]], p, s[1..], To(p, EatWhitespace), [], lexer);
    } else {
      assert s == [s[0]];
    }
  }

  lemma CommentPassed(p: Parser, s: Bytes, lexer: Lexer)
    requires Between(p) && CommentText(s)
    ensures Takes(p, s, p, [], lexer)
  {
    hide At;
    hide Takes;
    var begun := To(p, CommentStart);
    AtNext(p, SLASH, begun, [], lexer);
    TakesOne(p, SLASH, begun, [], lexer);
    var mark, rest := s[1], s[2..];
    assert s == [SLASH] + [mark] + rest;
    var inside := To(p, if mark == STAR then Comment else CommentEol);
    AtNext(begun, mark, inside, [], lexer);
    TakesOne(begun, mark, inside, [], lexer);
    QuietThen(p, [SLASH], begun, [mark], inside, [], lexer);
    assert To(inside, EatWhitespace) == p;
    if mark == STAR {
      assert rest[|rest| - 2] == s[|s| - 2] && rest[|rest| - 1] == s[|s| - 1];
      forall i | 0 <= i < |rest| - 2 ensures !(rest[i] == STAR && rest[i + 1] == SLASH) {
        assert rest[i] == s[i + 2] && rest[i + 1] == s[i + 3];
      }
      CommentRead(inside, rest, lexer);
    } else {
      LineRead(inside, rest, lexer);
    }
    QuietThen(p, [SLASH] + [mark], inside, rest, p, [], lexer);
  }

  /** Pieces of space and comments between the parts of a text are passed over: the rest is read as without them. */
  lemma {:induction false} BlankPassed(p: Parser, pieces: seq<Bytes>, rest: Bytes, lexer: Lexer)
    requires Between(p) && forall i :: 0 <= i < |pieces| ==> Spaces(pieces[i]) || CommentText(pieces[i])
    ensures var with, without := Run(p, Joined(pieces) + rest, lexer), Run(p, rest, lexer);
      with.err == without.err && with.next == without.next && with.events == without.events
    decreases |pieces|
  {
    hide Run;
    hide Valid;
    if |pieces| == 0 {
      assert [] + rest == rest;
    } else {
      var more := Joined(pieces[1..]) + rest;
      if Spaces(pieces[0]) {
        SpacesPassed(p, pieces[0], lexer);
      } else {
        CommentPassed(p, pieces[0], lexer);
      }
      hide Spaces;
      hide CommentText;
      RunThen(p, pieces[0], more, lexer);
      assert Joined(pieces) + rest == pieces[0] + more;
      BlankPassed(p, pieces[1..], rest, lexer);
      assert [] + Run(p, more, lexer).events == Run(p, more, lexer).events;
    }
  }
}
