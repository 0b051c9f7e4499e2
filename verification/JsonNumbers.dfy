/** What the digits of a number in JSON text are read as. */
module JsonNumbers {
  import opened Bytes
  import opened Values
  import opened Events
  import opened Json
  import opened JsonWriter
  import opened JsonReads

  /** A number as 64 bits can hold it: the nearest one. */
  function Nearest(n: int): Int64 {
    if n < -0x8000_0000_0000_0000 then -0x8000_0000_0000_0000 else if 0x7FFF_FFFF_FFFF_FFFF < n then 0x7FFF_FFFF_FFFF_FFFF else n
  }

  function Signed(negative: bool, digits: Bytes): Bytes { if negative then [MINUS] + digits else digits }

  function Meant(negative: bool, n: int): int { if negative then -n else n }

  /** A number written in eights. */
  function OctText(n: nat): Bytes { if n < 8 then [ZERO + n] else OctText(n / 8) + [ZERO + n % 8] }

  /** A number of whatever size is read as the nearest one that 64 bits hold. */
  lemma DecimalRead(n: nat, negative: bool)
    requires n > 0
    ensures var s := Signed(negative, NatText(n)); ToInt64(s) == (Nearest(Meant(negative, n)), |s|)
  {
    hide NatText;
    hide DigitsValue;
    hide DigitsEnd;
    var s, start := Signed(negative, NatText(n)), if negative then 1 else 0;
    NatDigits(n);
    assert s[start..] == NatText(n);
    assert s[start] == NatText(n)[0] != ZERO;
    DigitsAll(s, start);
    assert s[start..|s|] == NatText(n);
  }

  lemma {:induction false} OctDigits(n: nat)
    ensures var s := OctText(n); |s| > 0 && (forall i :: 0 <= i < |s| ==> 0x30 <= s[i] < 0x38) && DigitsValue(s, 8) == n
  {
    if n >= 8 {
      OctDigits(n / 8);
      var s := OctText(n / 8);
      assert OctText(n)[..|s|] == s;
    } else {
      assert [ZERO + n][..0] == [];
    }
  }

  lemma {:induction false} OctEnd(s: Bytes, i: nat)
    requires i <= |s| && forall k :: i <= k < |s| ==> 0x30 <= s[k] < 0x38
    ensures DigitsEnd(s, i, 8) == |s|
    decreases |s| - i
  {
    if i < |s| {
      OctEnd(s, i + 1);
    }
  }

  /** A zero in front does not change the value of digits. */
  lemma {:induction false} ZeroFront(s: Bytes, base: nat)
    ensures DigitsValue([ZERO] + s, base) == DigitsValue(s, base)
    decreases |s|
  {
    var all := [ZERO] + s;
    if |s| == 0 {
      assert all[..0] == [];
      assert DigitsValue([], base) == 0;
    } else {
      ZeroFront(s[..|s| - 1], base);
      assert all[..|all| - 1] == [ZERO] + s[..|s| - 1];
    }
  }

  /** Behind a zero, digits are read in eights. */
  lemma OctalRead(n: nat, negative: bool)
    ensures var s := Signed(negative, [ZERO] + OctText(n)); ToInt64(s) == (Nearest(Meant(negative, n)), |s|)
  {
    hide OctText;
    hide DigitsValue;
    hide DigitsEnd;
    var digits := [ZERO] + OctText(n);
    var s, start := Signed(negative, digits), if negative then 1 else 0;
    OctDigits(n);
    ZeroFront(OctText(n), 8);
    assert s[start..] == digits;
    forall k | start <= k < |s| ensures 0x30 <= s[k] < 0x38 {
      assert s[k] == digits[k - start];
    }
    OctEnd(s, start);
    assert s[start..|s|] == digits;
  }

  lemma {:induction false} StopsAt(s: Bytes, i: nat, k: nat, base: nat)
    requires i <= k < |s| && !(0x30 <= s[k] < 0x30 + base)
    ensures DigitsEnd(s, i, base) <= k
    decreases |s| - i
  {
    if i < k {
      StopsAt(s, i + 1, k, base);
    }
  }

  /** So a number that begins with a zero and has an eight or a nine is not read to its end, and is refused. */
  lemma NotOctal(s: Bytes, k: nat)
    requires |s| > 0 && s[0] == ZERO && k < |s| && 0x38 <= s[k] <= 0x39
    ensures ToInt64(s).1 < |s|
  {
    hide DigitsValue;
    StopsAt(s, 0, k, 8);
  }

  // ---- where a number ends, and what is made of it ----

  /** Digits, signs, a point and the letters of an exponent. */
  predicate NumberChar(c: Byte) { 0x30 <= c <= 0x39 || c in [0x2B, 0x2D, 0x2E, 0x45, 0x65] }

  predicate Numeric(s: Bytes) { forall c :: c in s ==> NumberChar(c) }

  /** A point or an exponent makes it a decimal number. */
  predicate DecimalText(s: Bytes) { 0x2E in s || 0x45 in s || 0x65 in s }

  lemma {:induction false} CharsTaken(s: Bytes, p: Parser, lexer: Lexer)
    requires Valid(p) && p.top.state == Number && Numeric(s)
    ensures Takes(p, s, Append(p, s).(isDecimal := p.isDecimal || DecimalText(s)), [], lexer)
    decreases |s|
  {
    hide At;
    hide Takes;
    hide Valid;
    if |s| == 0 {
      TakesNone(p, lexer);
      assert p.str + s == p.str && Append(p, s) == p;
    } else {
      var q := Append(p, [s[0]]).(isDecimal := p.isDecimal || DecimalText([s[0]]));
      assert s[0] in s;
      AtNext(p, s[0], q, [], lexer);
      TakesOne(p, s[0], q, [], lexer);
      CharsTaken(s[1..], q, lexer);
      assert s == [s[0]] + s[1..];
      assert DecimalText(s) == (DecimalText([s[0]]) || DecimalText(s[1..]));
      assert p.str + s == p.str + [s[0]] + s[1..];
      QuietThen(p, [s[0]], q, s[1..], Append(q, s[1..]).(isDecimal := q.isDecimal || DecimalText(s[1..])), [], lexer);
    }
  }

  /** What a number is told as, if it is told. */
  function ToldAs(s: Bytes, lexer: Lexer): Maybe<Event> {
    if !DecimalText(s) then Just(IntValue(ToInt64(s).0))
    else if lexer(s).Just? then Just(DecimalValue(lexer(s).val))
    else Nothing
  }

  /**
   * All characters that can stand in a number are taken; with a point or an exponent among them they are read as
   * a decimal number, else as an integer, which is told even if it is then refused for not being read to its end.
   */
  lemma NumberRead(s: Bytes, c: Byte, p: Parser, lexer: Lexer)
    requires Valid(p) && p.top == FRESH && |s| > 0 && Numeric(s) && (0x30 <= s[0] <= 0x39 || s[0] == 0x2D) && !NumberChar(c)
    ensures var o, number := Run(p, s + [c], lexer), ToldAs(s, lexer);
      if number.Nothing? then o.err == BadDecimal && o.events == []
      else |o.events| > 0 && o.events[0] == number.val && (!DecimalText(s) && ToInt64(s).1 < |s| ==> o.err == BadInt)
  {
    hide At;
    hide Takes;
    hide ToInt64;
    hide Run;
    hide DecimalText;
    hide Numeric;
    var r := p.(top := Rec(Number, Start), str := [], isDecimal := false);
    SpaceEnds(p, s[0], lexer);
    AtAgain(To(p, Start), s[0], r, lexer);
    CharsTaken(s, r, lexer);
    SameOn(p, r, s, lexer);
    var q := Append(r, s).(isDecimal := DecimalText(s));
    assert q.str == s;
    TakesValid(p, s, q, [], lexer);
    NumberEnds(q, c, lexer);
    TakenThen(p, s, q, [c], lexer);
  }

  lemma TakenThen(p: Parser, a: Bytes, q: Parser, b: Bytes, lexer: Lexer)
    requires Takes(p, a, q, [], lexer)
    ensures Run(p, a + b, lexer).err == Run(q, b, lexer).err && Run(p, a + b, lexer).events == Run(q, b, lexer).events
  {
    hide Run;
    hide Valid;
    RunThen(p, a, b, lexer);
    assert [] + Run(q, b, lexer).events == Run(q, b, lexer).events;
  }

  lemma NumberEnds(q: Parser, c: Byte, lexer: Lexer)
    requires Valid(q) && q.top.state == Number && !NumberChar(c) && q.isDecimal == DecimalText(q.str)
    ensures var o, number := Run(q, [c], lexer), ToldAs(q.str, lexer);
      if number.Nothing? then o.err == BadDecimal && o.events == []
      else |o.events| > 0 && o.events[0] == number.val && (!DecimalText(q.str) && ToInt64(q.str).1 < |q.str| ==> o.err == BadInt)
  {
    hide At;
    hide ToInt64;
    hide Run;
    hide DecimalText;
    AtOnce(q, c, lexer);
    RunFirst(q, [c], lexer);
    OnwardIs(q, At(q, c, lexer), [], lexer);
  }
}
