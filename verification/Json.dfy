/** The parser of JSON text: what it does at a character, over a text, and over a text that comes in chunks. */
module Json {
  import opened Bytes
  import opened Values
  import opened Events

  const QUOTE: Byte := 0x22
  const STAR: Byte := 0x2A
  const PLUS: Byte := 0x2B
  const COMMA: Byte := 0x2C
  const MINUS: Byte := 0x2D
  const POINT: Byte := 0x2E
  const SLASH: Byte := 0x2F
  const ZERO: Byte := 0x30
  const COLON: Byte := 0x3A
  const LBRACKET: Byte := 0x5B
  const BACKSLASH: Byte := 0x5C
  const RBRACKET: Byte := 0x5D
  const LBRACE: Byte := 0x7B
  const RBRACE: Byte := 0x7D
  const NEWLINE: Byte := 0x0A

  /** The letters of `null`, `true` and `false`. */
  const NULL_TEXT: Bytes := [0x6E, 0x75, 0x6C, 0x6C]
  const TRUE_TEXT: Bytes := [0x74, 0x72, 0x75, 0x65]
  const FALSE_TEXT: Bytes := [0x66, 0x61, 0x6C, 0x73, 0x65]

  const MAX_DEPTH := 32

  predicate IsSpace(c: Byte) { c == 0x20 || 0x09 <= c <= 0x0D }

  predicate IsDigit(c: Byte) { 0x30 <= c <= 0x39 }

  predicate IsHexDigit(c: Byte) { IsDigit(c) || 0x41 <= c <= 0x46 || 0x61 <= c <= 0x66 }

  function HexDigit(c: Byte): (n: nat)
    ensures IsHexDigit(c) ==> n < 16
  {
    if c <= 0x39 then (if c < 0x30 then 0 else c - 0x30) else c % 8 + 9
  }

  // ---- numbers ----

  /** The end of the digits of a base from a place on. */
  function DigitsEnd(s: Bytes, i: nat, base: nat): (j: nat)
    requires i <= |s|
    ensures i <= j <= |s|
    decreases |s| - i
  {
    if i < |s| && 0x30 <= s[i] < 0x30 + base then DigitsEnd(s, i + 1, base) else i
  }

  function DigitsValue(s: Bytes, base: nat): int {
    if |s| == 0 then 0 else base * DigitsValue(s[..|s| - 1], base) + s[|s| - 1] - 0x30
  }

  function Saturated(n: int): Int64 {
    if n > 0x7FFF_FFFF_FFFF_FFFF then 0x7FFF_FFFF_FFFF_FFFF else if n < -0x8000_0000_0000_0000 then -0x8000_0000_0000_0000 else n
  }

  /** As the C library reads an integer of whatever base: a number, and where it ends; digits behind a zero are octal. */
  function ToInt64(s: Bytes): (r: (Int64, nat))
    ensures r.1 <= |s|
  {
    var start := if |s| > 0 && (s[0] == MINUS || s[0] == PLUS) then 1 else 0;
    var base := if start < |s| && s[start] == ZERO then 8 else 10;
    var end := DigitsEnd(s, start, base);
    var n := DigitsValue(s[start..end], base);
    if end == start then (0, 0) else (Saturated(if s[0] == MINUS then -n else n), end)
  }

  /** How a decimal number is read is not looked into: a representation, or none. */
  type Lexer = Bytes -> Maybe<Int64>

  // ---- the state of the parser ----

  datatype State =
    | EatWhitespace | Start | Finish | InNull | CommentStart | Comment | CommentEol | CommentEnd | String | StringEscape
    | EscapeUnicode | InBool | Number | Array | ArraySep | ObjFieldStart | ObjField | ObjFieldEnd | ObjValue | ObjSep

  datatype Rec = Rec(state: State, saved: State)

  const FRESH := Rec(EatWhitespace, Start)

  /** The records of the containers around and of the value being read, and what is kept of the text. */
  datatype Parser = Parser(below: seq<Rec>, top: Rec, str: Bytes, strPos: nat, ucsChar: nat, matchTrue: bool, isDecimal: bool)

  const BEGUN := Parser([], FRESH, [], 0, 0, false, false)

  datatype JsonError =
    | Fine | Unexpected | BadNull | BadComment | BadEscape | BadBool | BadInt | BadDecimal | BadArray | BadPropName
    | BadValueSep | TooDeep | Eof

  /** What is done at a character: the same character again, the next one, nothing any more, or an error. */
  datatype Move =
    | Again(next: Parser, events: seq<Event>)
    | Next(next: Parser, events: seq<Event>)
    | Stop(next: Parser, events: seq<Event>)
    | Fail(err: JsonError, events: seq<Event>)

  function To(p: Parser, state: State): Parser { p.(top := p.top.(state := state)) }

  function Then(p: Parser, state: State): Parser { p.(top := Rec(EatWhitespace, state)) }

  function Append(p: Parser, s: Bytes): Parser { p.(str := p.str + s) }

  function Pushed(p: Parser): Parser { p.(below := p.below + [p.top], top := FRESH) }

  function Push(p: Parser): Move { if |p.below| >= MAX_DEPTH - 1 then Fail(TooDeep, []) else Again(Pushed(p), []) }

  /** The letters of an escape, as they are and as they stand for. */
  function Escaped(c: Byte): Maybe<Byte> {
    if c == QUOTE || c == BACKSLASH || c == SLASH then Just(c)
    else if c == 0x62 then Just(8)
    else if c == 0x6E then Just(10)
    else if c == 0x72 then Just(13)
    else if c == 0x74 then Just(9)
    else if c == 0x66 then Just(12)
    else Nothing
  }

  /** The bytes of a character below 0x10000. */
  function Utf8(n: nat): Bytes
    requires n < 0x10000
  {
    if n < 0x80 then [n]
    else if n < 0x800 then [0xC0 + n / 64, 0x80 + n % 64]
    else [0xE0 + n / 4096, 0x80 + n / 64 % 64, 0x80 + n % 64]
  }

  function Matched(p: Parser): Bytes { if p.matchTrue then TRUE_TEXT else FALSE_TEXT }

  predicate InNumber(c: Byte) { IsDigit(c) || c == POINT || c == 0x65 || c == 0x45 || c == PLUS || c == MINUS }

  /** The places in texts that are read letter by letter are inside them. */
  predicate Inside(p: Parser) {
    && (p.top.state == InNull ==> p.strPos < |NULL_TEXT|) && (p.top.state == InBool ==> p.strPos < |Matched(p)|)
    && (p.top.state == EscapeUnicode ==> p.strPos < 4 && p.ucsChar + 16 * Weight(p.strPos) <= 0x10000)
  }

  /** What a hexadecimal digit counts at its place. */
  function Weight(i: nat): nat { if i == 0 then 4096 else if i == 1 then 256 else if i == 2 then 16 else 1 }

  function AtStart(p: Parser, c: Byte): Move {
    if c == LBRACE then Next(Then(p, ObjFieldStart), [BeginObject])
    else if c == LBRACKET then Next(Then(p, Array), [BeginArray])
    else if c == NULL_TEXT[0] then Again(To(p, InNull).(strPos := 0), [])
    else if c == QUOTE then Next(To(p, String).(str := []), [])
    else if c == TRUE_TEXT[0] || c == FALSE_TEXT[0] then Again(To(p, InBool).(strPos := 0, matchTrue := c == TRUE_TEXT[0]), [])
    else if IsDigit(c) || c == MINUS then Again(To(p, Number).(str := [], isDecimal := false), [])
    else if c == 0 then Next(p, [])
    else Fail(Unexpected, [])
  }

  /** A letter of a text that stands for a value. */
  function AtLetter(p: Parser, c: Byte, text: Bytes, value: Event, err: JsonError): Move
    requires p.strPos < |text|
  {
    if c != text[p.strPos] then Fail(err, [])
    else
      var q := p.(strPos := p.strPos + 1);
      if q.strPos == |text| then Next(Then(q, Finish), [value]) else Next(q, [])
  }

  function AtUnicode(p: Parser, c: Byte): Move
    requires p.top.state == EscapeUnicode && Inside(p)
  {
    if !IsHexDigit(c) then Fail(BadEscape, [])
    else
      var q := p.(ucsChar := p.ucsChar + HexDigit(c) * Weight(p.strPos), strPos := p.strPos + 1);
      if q.strPos < 4 then Next(q, [])
      else if q.ucsChar == 0 then Fail(BadEscape, [])
      else (UnicodeInside(p, c); Next(To(Append(q, Utf8(q.ucsChar)), q.top.saved), []))
  }

  lemma UnicodeInside(p: Parser, c: Byte)
    requires p.top.state == EscapeUnicode && Inside(p) && IsHexDigit(c)
    ensures var n := p.ucsChar + HexDigit(c) * Weight(p.strPos);
      if p.strPos < 3 then n + 16 * Weight(p.strPos + 1) <= 0x10000 else n < 0x10000
  {
    hide HexDigit;
    var d := HexDigit(c);
    if p.strPos == 0 { assert d * Weight(0) == 4096 * d; }
    else if p.strPos == 1 { assert d * Weight(1) == 256 * d; }
    else if p.strPos == 2 { assert d * Weight(2) == 16 * d; }
    else { assert d * Weight(3) == d; }
  }

  function AtNumber(p: Parser, c: Byte, lexer: Lexer): Move {
    if InNumber(c) then Next(Append(p, [c]).(isDecimal := p.isDecimal || c == POINT || c == 0x65 || c == 0x45), [])
    else if p.isDecimal then
      var d := lexer(p.str);
      if d.Nothing? then Fail(BadDecimal, []) else Again(Then(p, Finish), [DecimalValue(d.val)])
    else
      var (i, end) := ToInt64(p.str);
      if end != |p.str| then Fail(BadInt, [IntValue(i)]) else Again(Then(p, Finish), [IntValue(i)])
  }

  /** The switch over the states, once. */
  function Once(p: Parser, c: Byte, lexer: Lexer): Move
    requires Inside(p)
  {
    match p.top.state
    case EatWhitespace =>
      if IsSpace(c) then Next(p, []) else if c == SLASH then Next(To(p, CommentStart), []) else Again(To(p, p.top.saved), [])
    case Start => AtStart(p, c)
    case Finish =>
      if |p.below| == 0 then Stop(p, [])
      else
        var n := |p.below| - 1;
        Again(p.(below := p.below[..n], top := p.below[n]), [])
    case InNull => AtLetter(p, c, NULL_TEXT, NullValue, BadNull)
    case CommentStart =>
      if c == STAR then Next(To(p, Comment), []) else if c == SLASH then Next(To(p, CommentEol), []) else Fail(BadComment, [])
    case Comment => Next(if c == STAR then To(p, CommentEnd) else p, [])
    case CommentEol => Next(if c == NEWLINE then To(p, EatWhitespace) else p, [])
    case CommentEnd => if c == SLASH then Next(To(p, EatWhitespace), []) else Again(To(p, Comment), [])
    case String =>
      if c == QUOTE then Next(Then(p, Finish), [StringValue(p.str)])
      else if c == BACKSLASH then Next(p.(top := Rec(StringEscape, String)), [])
      else Next(Append(p, [c]), [])
    case StringEscape =>
      if c == 0x75 then Next(To(p, EscapeUnicode).(ucsChar := 0, strPos := 0), [])
      else if Escaped(c).Nothing? then Fail(BadEscape, [])
      else Next(To(Append(p, [Escaped(c).val]), p.top.saved), [])
    case EscapeUnicode => AtUnicode(p, c)
    case InBool => AtLetter(p, c, Matched(p), BoolValue(p.matchTrue), BadBool)
    case Number => AtNumber(p, c, lexer)
    case Array => if c == RBRACKET then Next(Then(p, Finish), [EndArray]) else Push(To(p, ArraySep))
    case ArraySep =>
      if c == RBRACKET then Next(Then(p, Finish), [EndArray])
      else if c == COMMA then Next(Then(p, Array), [])
      else Fail(BadArray, [])
    case ObjFieldStart =>
      if c == RBRACE then Next(Then(p, Finish), [EndObject])
      else if c == QUOTE then Next(To(p, ObjField).(str := []), [])
      else Fail(BadPropName, [])
    case ObjField =>
      if c == QUOTE then Next(Then(p, ObjFieldEnd), [PropName(p.str)])
      else if c == BACKSLASH then Next(p.(top := Rec(StringEscape, ObjField)), [])
      else Next(Append(p, [c]), [])
    case ObjFieldEnd => if c == COLON then Next(Then(p, ObjValue), []) else Fail(BadPropName, [])
    case ObjValue => Push(Then(p, ObjSep))
    case ObjSep =>
      if c == RBRACE then Next(Then(p, Finish), [EndObject])
      else if c == COMMA then Next(Then(p, ObjFieldStart), [])
      else Fail(BadValueSep, [])
  }

  // ---- what every character keeps ----

  /** A container around waits for what separates its members. */
  predicate Waiting(r: Rec) { r.state == ArraySep || r == Rec(EatWhitespace, ObjSep) }

  /** What is gone back to behind space, comments and escapes. */
  predicate Saved(r: Rec) {
    match r.state
    case EatWhitespace => Resumed(r.saved)
    case CommentStart => Resumed(r.saved)
    case Comment => Resumed(r.saved)
    case CommentEol => Resumed(r.saved)
    case CommentEnd => Resumed(r.saved)
    case StringEscape => r.saved == String || r.saved == ObjField
    case EscapeUnicode => r.saved == String || r.saved == ObjField
    case _ => true
  }

  predicate Resumed(s: State) {
    s == Start || s == Finish || s == Array || s == ObjFieldStart || s == ObjFieldEnd || s == ObjValue || s == ObjSep
  }

  predicate Valid(p: Parser) {
    && |p.below| < MAX_DEPTH && (forall i :: 0 <= i < |p.below| ==> Waiting(p.below[i])) && Saved(p.top) && Inside(p)
  }

  ghost predicate Kept(m: Move) { if m.Fail? then m.err != Fine else Valid(m.next) }

  lemma OnceKeeps(p: Parser, c: Byte, lexer: Lexer)
    requires Valid(p)
    ensures Kept(Once(p, c, lexer))
  {
    hide AtStart;
    hide AtLetter;
    hide AtUnicode;
    hide AtNumber;
    hide Kept;
    match p.top.state
    case Start => StartKeeps(p, c);
    case Finish => FinishKeeps(p, c, lexer);
    case InNull => LetterKeeps(p, c, NULL_TEXT, NullValue, BadNull);
    case StringEscape => EscapeKeeps(p, c, lexer);
    case EscapeUnicode => UnicodeKeeps(p, c);
    case InBool => LetterKeeps(p, c, Matched(p), BoolValue(p.matchTrue), BadBool);
    case Number => NumberKeeps(p, c, lexer);
    case Array => MemberKeeps(p, c, lexer);
    case ObjValue => MemberKeeps(p, c, lexer);
    case String => TextKeeps(p, c, lexer);
    case ObjField => TextKeeps(p, c, lexer);
    case EatWhitespace | CommentStart | Comment | CommentEol | CommentEnd => CommentKeeps(p, c, lexer);
    case _ => ContainerKeeps(p, c, lexer);
  }

  lemma StartKeeps(p: Parser, c: Byte)
    requires Valid(p)
    ensures Kept(AtStart(p, c))
  {
  }

  lemma FinishKeeps(p: Parser, c: Byte, lexer: Lexer)
    requires Valid(p) && p.top.state == Finish
    ensures Kept(Once(p, c, lexer))
  {
  }

  lemma LetterKeeps(p: Parser, c: Byte, text: Bytes, value: Event, err: JsonError)
    requires Valid(p) && p.strPos < |text| && err != Fine && ((p.top.state == InNull && text == NULL_TEXT) || (p.top.state == InBool && text == Matched(p)))
    ensures Kept(AtLetter(p, c, text, value, err))
  {
  }

  lemma EscapeKeeps(p: Parser, c: Byte, lexer: Lexer)
    requires Valid(p) && p.top.state == StringEscape
    ensures Kept(Once(p, c, lexer))
  {
  }

  lemma UnicodeKeeps(p: Parser, c: Byte)
    requires Valid(p) && p.top.state == EscapeUnicode
    ensures Kept(AtUnicode(p, c))
  {
    hide Utf8;
    hide HexDigit;
    if IsHexDigit(c) {
      UnicodeInside(p, c);
    }
  }

  lemma NumberKeeps(p: Parser, c: Byte, lexer: Lexer)
    requires Valid(p) && p.top.state == Number
    ensures Kept(AtNumber(p, c, lexer))
  {
    hide ToInt64;
  }

  lemma PushKeeps(p: Parser)
    requires |p.below| < MAX_DEPTH && (forall i :: 0 <= i < |p.below| ==> Waiting(p.below[i])) && Waiting(p.top)
    ensures Kept(Push(p))
  {
  }

  predicate InComment(s: State) { s == EatWhitespace || s == CommentStart || s == Comment || s == CommentEol || s == CommentEnd }

  predicate InContainer(s: State) {
    s == Array || s == ArraySep || s == ObjFieldStart || s == ObjFieldEnd || s == ObjValue || s == ObjSep
  }

  lemma CommentKeeps(p: Parser, c: Byte, lexer: Lexer)
    requires Valid(p) && InComment(p.top.state)
    ensures Kept(Once(p, c, lexer))
  {
    hide AtStart;
    hide AtLetter;
    hide AtUnicode;
    hide AtNumber;
    hide Escaped;
    hide Weight;
    hide IsSpace;
    hide Resumed;
    ResumedStates();
  }

  lemma TextKeeps(p: Parser, c: Byte, lexer: Lexer)
    requires Valid(p) && (p.top.state == String || p.top.state == ObjField)
    ensures Kept(Once(p, c, lexer))
  {
    hide AtStart;
    hide AtLetter;
    hide AtUnicode;
    hide AtNumber;
    hide Escaped;
    hide Weight;
  }

  lemma ContainerKeeps(p: Parser, c: Byte, lexer: Lexer)
    requires Valid(p) && InContainer(p.top.state) && p.top.state != Array && p.top.state != ObjValue
    ensures Kept(Once(p, c, lexer))
  {
    hide AtStart;
    hide AtLetter;
    hide AtUnicode;
    hide AtNumber;
    hide Escaped;
    hide Push;
    hide Weight;
    hide Resumed;
    ResumedStates();
  }

  lemma MemberKeeps(p: Parser, c: Byte, lexer: Lexer)
    requires Valid(p) && (p.top.state == Array || p.top.state == ObjValue)
    ensures Kept(Once(p, c, lexer))
  {
    hide AtStart;
    hide AtLetter;
    hide AtUnicode;
    hide AtNumber;
    hide Escaped;
    hide Push;
    hide Weight;
    hide Resumed;
    ResumedStates();
    PushKeeps(if p.top.state == Array then To(p, ArraySep) else Then(p, ObjSep));
  }

  lemma ResumedStates()
    ensures Resumed(Start) && Resumed(Finish) && Resumed(Array) && Resumed(ObjFieldStart) && Resumed(ObjFieldEnd)
    ensures Resumed(ObjValue) && Resumed(ObjSep)
    ensures forall s :: Resumed(s) ==> s != InNull && s != InBool && s != EscapeUnicode && s != StringEscape && !InComment(s)
  {
  }

  /** How often the same character may be looked at again. */
  function Rank(p: Parser, c: Byte): nat { RankOf(p.top.state, p.top.saved, c) }

  function RankOf(s: State, saved: State, c: Byte): nat {
    match s
    case EatWhitespace => if IsSpace(c) || c == SLASH then 0 else 1 + Resuming(saved)
    case Number => if InNumber(c) then 0 else 6
    case CommentEnd => 1
    case _ => Resuming(s)
  }

  function Resuming(s: State): nat {
    match s
    case Start => 1
    case Finish => 3
    case Array => 4
    case ObjValue => 4
    case _ => 0
  }

  lemma AgainLess(p: Parser, c: Byte, lexer: Lexer)
    requires Valid(p) && Once(p, c, lexer).Again?
    ensures Valid(Once(p, c, lexer).next) && Rank(Once(p, c, lexer).next, c) < Rank(p, c)
  {
    OnceKeeps(p, c, lexer);
    hide Valid;
    var next := Once(p, c, lexer).next;
    AgainTo(p, c, lexer);
    hide Once;
  }

  /** Where the same character is looked at again, and in which state then. */
  lemma AgainTo(p: Parser, c: Byte, lexer: Lexer)
    requires Valid(p) && Once(p, c, lexer).Again?
    ensures var next := Once(p, c, lexer).next.top;
      match p.top.state
      case EatWhitespace => !IsSpace(c) && c != SLASH && next == Rec(p.top.saved, p.top.saved)
      case Start => next.state == InNull || next.state == InBool || (next.state == Number && InNumber(c))
      case Finish => Waiting(next)
      case CommentEnd => next.state == Comment
      case Number => !InNumber(c) && next == Rec(EatWhitespace, Finish)
      case Array => next == FRESH
      case ObjValue => next == FRESH
      case _ => false
  {
    hide Utf8;
    hide HexDigit;
    hide Escaped;
    hide ToInt64;
    hide Weight;
  }

  /** What is done at a character in the end. */
  function At(p: Parser, c: Byte, lexer: Lexer): (m: Move)
    requires Valid(p)
    ensures !m.Again?
    decreases Rank(p, c)
  {
    var m := Once(p, c, lexer);
    if m.Again? then (AgainLess(p, c, lexer); Told(m.events, At(m.next, c, lexer))) else m
  }

  /** Events that were told before. */
  function Told(events: seq<Event>, m: Move): Move {
    match m
    case Again(p, es) => Again(p, events + es)
    case Next(p, es) => Next(p, events + es)
    case Stop(p, es) => Stop(p, events + es)
    case Fail(err, es) => Fail(err, events + es)
  }

  lemma AtOnce(p: Parser, c: Byte, lexer: Lexer)
    requires Valid(p)
    ensures Inside(p) && Kept(Once(p, c, lexer))
    ensures var m := Once(p, c, lexer);
      if m.Again? then Valid(m.next) && Rank(m.next, c) < Rank(p, c) && At(p, c, lexer) == Told(m.events, At(m.next, c, lexer))
      else At(p, c, lexer) == m
  {
    hide Once;
    hide Rank;
    OnceKeeps(p, c, lexer);
    if Once(p, c, lexer).Again? {
      AgainLess(p, c, lexer);
    }
  }

  lemma {:induction false} AtKeeps(p: Parser, c: Byte, lexer: Lexer)
    requires Valid(p)
    ensures Kept(At(p, c, lexer))
    decreases Rank(p, c)
  {
    OnceKeeps(p, c, lexer);
    if Once(p, c, lexer).Again? {
      AgainLess(p, c, lexer);
      AtKeeps(Once(p, c, lexer).next, c, lexer);
    }
  }

  // ---- a text, and a text in chunks ----

  /** Where the parser is at the end of a text, what it told, and how much of the text it took. */
  datatype Outcome = Outcome(err: JsonError, next: Parser, events: seq<Event>, used: nat)

  function Run(p: Parser, s: Bytes, lexer: Lexer): (o: Outcome)
    requires Valid(p)
    ensures o.used <= |s| && Valid(o.next)
    decreases |s|
  {
    if |s| == 0 then Outcome(Fine, p, [], 0)
    else
      AtKeeps(p, s[0], lexer);
      match At(p, s[0], lexer)
      case Next(q, es) =>
        var o := Run(q, s[1..], lexer);
        Outcome(o.err, o.next, es + o.events, 1 + o.used)
      case Stop(q, es) => Outcome(Fine, q, es, 0)
      case Fail(err, es) => Outcome(err, p, es, 0)
  }

  lemma RunNone(p: Parser, lexer: Lexer)
    requires Valid(p)
    ensures Run(p, [], lexer) == Outcome(Fine, p, [], 0)
  {
  }

  /** What is behind a move over the rest of a text. */
  function Onward(p: Parser, m: Move, rest: Bytes, lexer: Lexer): Outcome
    requires Valid(p) && (m.Fail? || Valid(m.next))
  {
    match m
    case Fail(err, es) => Outcome(err, p, es, 0)
    case Next(q, es) => Behind(Outcome(Fine, q, es, 1), 1, Run(q, rest, lexer))
    case _ => Outcome(Fine, m.next, m.events, 0)
  }

  lemma OnwardIs(p: Parser, m: Move, rest: Bytes, lexer: Lexer)
    requires Valid(p) && Kept(m) && !m.Again?
    ensures m.Next? ==> Onward(p, m, rest, lexer) == Behind(Outcome(Fine, m.next, m.events, 1), 1, Run(m.next, rest, lexer))
    ensures m.Fail? ==> Onward(p, m, rest, lexer) == Outcome(m.err, p, m.events, 0)
    ensures m.Stop? ==> Onward(p, m, rest, lexer) == Outcome(Fine, m.next, m.events, 0)
  {
  }

  /** One character of a text, and the others. */
  lemma RunFirst(p: Parser, s: Bytes, lexer: Lexer)
    requires Valid(p) && |s| > 0
    ensures Kept(At(p, s[0], lexer)) && !At(p, s[0], lexer).Again?
    ensures Run(p, s, lexer) == Onward(p, At(p, s[0], lexer), s[1..], lexer)
  {
    hide At;
    AtKeeps(p, s[0], lexer);
  }

  /** A text behind another; what follows is not looked at when the parser has stopped before. */
  lemma {:induction false} RunThen(p: Parser, a: Bytes, b: Bytes, lexer: Lexer)
    requires Valid(p)
    ensures var first := Run(p, a, lexer);
      Run(p, a + b, lexer) == if first.err != Fine || first.used < |a| then first else Behind(first, |a|, Run(first.next, b, lexer))
    decreases |a|
  {
    hide At;
    if |a| == 0 {
      assert a + b == b;
      var o := Run(p, b, lexer);
      assert [] + o.events == o.events;
    } else {
      AtKeeps(p, a[0], lexer);
      var m := At(p, a[0], lexer);
      assert (a + b)[1..] == a[1..] + b;
      if m.Next? {
        RunThen(m.next, a[1..], b, lexer);
        var first := Run(m.next, a[1..], lexer);
        var second := Run(first.next, b, lexer);
        Grouped(m.events, first.events, second.events);
      }
    }
  }

  lemma Grouped(a: seq<Event>, b: seq<Event>, c: seq<Event>)
    ensures a + (b + c) == (a + b) + c
  {
  }

  function Behind(first: Outcome, used: nat, second: Outcome): Outcome {
    Outcome(second.err, second.next, first.events + second.events, used + second.used)
  }

  /** A parser that has stopped stays where it is. */
  lemma StaysStopped(p: Parser, s: Bytes, lexer: Lexer)
    requires Valid(p) && p.top.state == Finish && p.below == []
    ensures Run(p, s, lexer) == Outcome(Fine, p, [], 0)
  {
  }

  lemma {:induction false} StoppedEarly(p: Parser, s: Bytes, lexer: Lexer)
    requires Valid(p) && Run(p, s, lexer).err == Fine && Run(p, s, lexer).used < |s|
    ensures var q := Run(p, s, lexer).next; q.top.state == Finish && q.below == []
    decreases |s|
  {
    AtKeeps(p, s[0], lexer);
    var m := At(p, s[0], lexer);
    if m.Next? {
      StoppedEarly(m.next, s[1..], lexer);
    } else {
      StopsAtEnd(p, s[0], lexer);
    }
  }

  lemma {:induction false} StopsAtEnd(p: Parser, c: Byte, lexer: Lexer)
    requires Valid(p) && At(p, c, lexer).Stop?
    ensures var q := At(p, c, lexer).next; q.top.state == Finish && q.below == []
    decreases Rank(p, c)
  {
    var m := Once(p, c, lexer);
    if m.Again? {
      AgainLess(p, c, lexer);
      StopsAtEnd(m.next, c, lexer);
    }
  }

  /** What comes of chunks, one after another, until there is an error. */
  datatype Progress = Progress(err: JsonError, next: Parser, events: seq<Event>)

  function Made(o: Outcome): Progress { Progress(o.err, o.next, o.events) }

  function RunChunks(p: Parser, chunks: seq<Bytes>, lexer: Lexer): Progress
    requires Valid(p)
    decreases |chunks|
  {
    if |chunks| == 0 then Progress(Fine, p, [])
    else
      var first := Run(p, chunks[0], lexer);
      if first.err != Fine then Made(first)
      else
        var rest := RunChunks(first.next, chunks[1..], lexer);
        Progress(rest.err, rest.next, first.events + rest.events)
  }

  function Joined(chunks: seq<Bytes>): Bytes { if |chunks| == 0 then [] else chunks[0] + Joined(chunks[1..]) }

  lemma {:induction false} ChunksStopped(p: Parser, chunks: seq<Bytes>, lexer: Lexer)
    requires Valid(p) && p.top.state == Finish && p.below == []
    ensures RunChunks(p, chunks, lexer) == Progress(Fine, p, [])
    decreases |chunks|
  {
    if |chunks| > 0 {
      StaysStopped(p, chunks[0], lexer);
      ChunksStopped(p, chunks[1..], lexer);
    }
  }

  /** However a text is cut into chunks, the same is told, with the same error, and the parser is in the same state. */
  lemma {:induction false} ChunksAgree(p: Parser, chunks: seq<Bytes>, lexer: Lexer)
    requires Valid(p)
    ensures RunChunks(p, chunks, lexer) == Made(Run(p, Joined(chunks), lexer))
    decreases |chunks|
  {
    if |chunks| > 0 {
      var rest := Joined(chunks[1..]);
      var first := Run(p, chunks[0], lexer);
      RunThen(p, chunks[0], rest, lexer);
      if first.err == Fine {
        if first.used < |chunks[0]| {
          StoppedEarly(p, chunks[0], lexer);
          ChunksStopped(first.next, chunks[1..], lexer);
          assert first.events + [] == first.events;
        } else {
          ChunksAgree(first.next, chunks[1..], lexer);
        }
      }
    }
  }
}
