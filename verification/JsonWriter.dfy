/** The writer of JSON text: a visitor that puts a comma where one is due. */
module JsonWriter {
  import opened Bytes
  import opened Values
  import opened Events
  import opened Json

  // ---- the text of a value ----

  function UpperHex(n: nat): Byte
    requires n < 16
  {
    if n < 10 then 0x30 + n else 0x37 + n
  }

  /** A byte of a string: escaped when it is a control character, a quote or a backslash. */
  function EscapeOf(c: Byte): (s: Bytes)
    ensures |s| > 0
  {
    if c == 0x08 then [BACKSLASH, 0x62]
    else if c == 0x09 then [BACKSLASH, 0x74]
    else if c == 0x0A then [BACKSLASH, 0x6E]
    else if c == 0x0C then [BACKSLASH, 0x66]
    else if c == 0x0D then [BACKSLASH, 0x72]
    else if c < 0x20 then [BACKSLASH, 0x75, ZERO, ZERO, UpperHex(c / 16), UpperHex(c % 16)]
    else if c == QUOTE || c == BACKSLASH then [BACKSLASH, c]
    else [c]
  }

  function EscapedText(s: Bytes): Bytes {
    if |s| == 0 then [] else EscapedText(s[..|s| - 1]) + EscapeOf(s[|s| - 1])
  }

  function StringText(s: Bytes): Bytes { [QUOTE] + EscapedText(s) + [QUOTE] }

  function NatText(n: nat): Bytes { if n < 10 then [ZERO + n] else NatText(n / 10) + [ZERO + n % 10] }

  function IntText(i: int): Bytes { if i < 0 then [MINUS] + NatText(-i) else NatText(i) }

  function JsonText(v: Value): Bytes
    requires DecimalFree(v)
  {
    match v
    case Undefined => NULL_TEXT
    case Null => NULL_TEXT
    case Bool(b) => if b then TRUE_TEXT else FALSE_TEXT
    case Int(i) => IntText(i)
    case Dec(_) => []
    case Str(s) => StringText(s)
    case Obj(p) => [LBRACE] + PropsText(p) + [RBRACE]
    case Arr(p) => [LBRACKET] + ItemsText(p) + [RBRACKET]
  }

  function PropsText(p: Props): Bytes
    requires DecimalFreeProps(p)
  {
    match p
    case NoProps => []
    case Prop(name, v, rest) =>
      StringText(name) + [COLON] + JsonText(v) + if rest.NoProps? then [] else [COMMA] + PropsText(rest)
  }

  function ItemsText(p: Items): Bytes
    requires DecimalFreeItems(p)
  {
    match p
    case NoItems => []
    case Item(v, rest) => JsonText(v) + if rest.NoItems? then [] else [COMMA] + ItemsText(rest)
  }

  predicate DecimalFree(v: Value) {
    match v
    case Dec(_) => false
    case Obj(p) => DecimalFreeProps(p)
    case Arr(p) => DecimalFreeItems(p)
    case _ => true
  }

  predicate DecimalFreeProps(p: Props) { p.Prop? ==> DecimalFree(p.val) && DecimalFreeProps(p.rest) }

  predicate DecimalFreeItems(p: Items) { p.Item? ==> DecimalFree(p.val) && DecimalFreeItems(p.rest) }

  // ---- no control character stands in a text ----

  predicate NoControls(s: Bytes) { forall i :: 0 <= i < |s| ==> s[i] >= 0x20 }

  predicate Special(c: Byte) { c < 0x20 || c == 0x22 || c == 0x5C }

  lemma EscapeClean(c: Byte)
    ensures NoControls(EscapeOf(c)) && if Special(c) then |EscapeOf(c)| >= 2 && EscapeOf(c)[0] == 0x5C else EscapeOf(c) == [c]
  {
  }

  /** Just control characters, quotes and backslashes are escaped, and no escape has a control character. */
  lemma {:induction false} EscapedClean(s: Bytes)
    ensures NoControls(EscapedText(s)) && |EscapedText(s)| >= |s|
    ensures if forall c :: c in s ==> !Special(c) then EscapedText(s) == s else |EscapedText(s)| > |s|
  {
    hide EscapeOf;
    if |s| > 0 {
      var n := |s| - 1;
      EscapedClean(s[..n]);
      EscapeClean(s[n]);
      assert s == s[..n] + [s[n]];
      hide Special;
      assert forall c :: c in s <==> c in s[..n] || c == s[n];
    }
  }

  lemma {:induction false} NatClean(n: nat)
    ensures NoControls(NatText(n))
  {
    if n >= 10 {
      NatClean(n / 10);
    }
  }

  lemma CleanBoth(a: Bytes, b: Bytes)
    requires NoControls(a) && NoControls(b)
    ensures NoControls(a + b)
  {
  }

  lemma CleanWithin(open: Byte, s: Bytes, close: Byte)
    requires NoControls(s) && open >= 0x20 && close >= 0x20
    ensures NoControls([open] + s + [close])
  {
    CleanBoth([open], s);
    CleanBoth([open] + s, [close]);
  }

  /** No control character stands in the text of a value. */
  lemma {:induction false} TextClean(v: Value)
    requires DecimalFree(v)
    ensures NoControls(JsonText(v))
  {
    match v
    case Int(i) =>
      var n: int := i;
      NatClean(if n < 0 then -n else n);
    case Str(s) => StringClean(s);
    case Obj(p) =>
      PropsClean(p);
      CleanWithin(LBRACE, PropsText(p), RBRACE);
    case Arr(p) =>
      ItemsClean(p);
      CleanWithin(LBRACKET, ItemsText(p), RBRACKET);
    case _ =>
  }

  lemma StringClean(s: Bytes)
    ensures NoControls(StringText(s))
  {
    EscapedClean(s);
    CleanWithin(QUOTE, EscapedText(s), QUOTE);
  }

  lemma {:induction false} PropsClean(p: Props)
    requires DecimalFreeProps(p)
    ensures NoControls(PropsText(p))
  {
    match p
    case NoProps =>
    case Prop(name, v, rest) =>
      hide JsonText;
      StringClean(name);
      TextClean(v);
      PropsClean(rest);
      var more := if rest.NoProps? then [] else [COMMA] + PropsText(rest);
      CleanBoth([COMMA], PropsText(rest));
      CleanBoth(StringText(name), [COLON]);
      CleanBoth(StringText(name) + [COLON], JsonText(v));
      CleanBoth(StringText(name) + [COLON] + JsonText(v), more);
      hide StringText;
      hide NoControls;
  }

  lemma {:induction false} ItemsClean(p: Items)
    requires DecimalFreeItems(p)
    ensures NoControls(ItemsText(p))
  {
    match p
    case NoItems =>
    case Item(v, rest) =>
      hide JsonText;
      TextClean(v);
      ItemsClean(rest);
      var more := if rest.NoItems? then [] else [COMMA] + ItemsText(rest);
      CleanBoth([COMMA], ItemsText(rest));
      CleanBoth(JsonText(v), more);
      hide NoControls;
  }

  // ---- the text of events ----

  function Comma(due: bool): Bytes { if due then [COMMA] else [] }

  /** What is written for an event, and whether a comma is due behind it. */
  function Spelled(e: Event, due: bool): Bytes {
    match e
    case BeginObject => Comma(due) + [LBRACE]
    case EndObject => [RBRACE]
    case BeginArray => Comma(due) + [LBRACKET]
    case EndArray => [RBRACKET]
    case PropName(s) => Comma(due) + StringText(s) + [COLON]
    case NullValue => Comma(due) + NULL_TEXT
    case BoolValue(b) => Comma(due) + if b then TRUE_TEXT else FALSE_TEXT
    case IntValue(i) => Comma(due) + IntText(i)
    case DecimalValue(_) => []
    case StringValue(s) => Comma(due) + StringText(s)
  }

  predicate Due(e: Event) { !e.BeginObject? && !e.BeginArray? && !e.PropName? }

  function SpelledAll(es: seq<Event>, due: bool): Bytes {
    if |es| == 0 then [] else Spelled(es[0], due) + SpelledAll(es[1..], Due(es[0]))
  }

  function DueAfter(es: seq<Event>, due: bool): bool { if |es| == 0 then due else Due(es[|es| - 1]) }

  lemma {:induction false} SpelledThen(a: seq<Event>, b: seq<Event>, due: bool)
    ensures SpelledAll(a + b, due) == SpelledAll(a, due) + SpelledAll(b, DueAfter(a, due))
    decreases |a|
  {
    hide Spelled;
    hide SpelledAll;
    hide Due;
    if |a| == 0 {
      assert a + b == b;
      EmptySpelled(due);
    } else {
      SpelledThen(a[1..], b, Due(a[0]));
      assert (a + b)[1..] == a[1..] + b;
      SpelledFirst(a, due);
      SpelledFirst(a + b, due);
      BytesGrouped(Spelled(a[0], due), SpelledAll(a[1..], Due(a[0])), SpelledAll(b, DueAfter(a, due)));
    }
  }

  lemma SpelledFirst(es: seq<Event>, due: bool)
    requires |es| > 0
    ensures SpelledAll(es, due) == Spelled(es[0], due) + SpelledAll(es[1..], Due(es[0]))
  {
  }

  lemma BytesGrouped(a: Bytes, b: Bytes, c: Bytes)
    ensures a + (b + c) == (a + b) + c
  {
  }

  lemma SpelledOne(e: Event, due: bool)
    ensures SpelledAll([e], due) == Spelled(e, due)
  {
    assert [e][1..] == [];
  }

  /** The events of a value are written as its text, behind a comma if one is due. */
  lemma {:induction false} ValueSpelled(v: Value, due: bool)
    requires DecimalFree(v)
    ensures SpelledAll(Visit(v), due) == Comma(due) + JsonText(v) && DueAfter(Visit(v), due)
    decreases v
  {
    hide SpelledAll;
    match v
    case Obj(p) =>
      PropsSpelled(p, false);
      Enclosed(BeginObject, VisitProps(p), EndObject, due, PropsText(p));
    case Arr(p) =>
      ItemsSpelled(p, false);
      Enclosed(BeginArray, VisitItems(p), EndArray, due, ItemsText(p));
    case Dec(_) =>
    case Undefined => SpelledOne(NullValue, due);
    case Null => SpelledOne(NullValue, due);
    case Bool(b) => SpelledOne(BoolValue(b), due);
    case Int(i) => SpelledOne(IntValue(i), due);
    case Str(s) => SpelledOne(StringValue(s), due);
  }

  lemma Enclosed(open: Event, inner: seq<Event>, close: Event, due: bool, text: Bytes)
    requires (open.BeginObject? && close.EndObject?) || (open.BeginArray? && close.EndArray?)
    requires SpelledAll(inner, false) == text
    ensures SpelledAll([open] + inner + [close], due)
      == Comma(due) + ([if open.BeginObject? then LBRACE else LBRACKET] + text + [if open.BeginObject? then RBRACE else RBRACKET])
    ensures DueAfter([open] + inner + [close], due)
  {
    hide SpelledAll;
    SpelledOne(open, due);
    SpelledThen([open], inner, due);
    SpelledThen([open] + inner, [close], due);
    SpelledOne(close, DueAfter([open] + inner, due));
  }

  lemma {:induction false} PropsSpelled(p: Props, due: bool)
    requires DecimalFreeProps(p)
    ensures SpelledAll(VisitProps(p), due) == if p.NoProps? then [] else Comma(due) + PropsText(p)
    decreases p
  {
    match p
    case NoProps =>
    case Prop(name, v, rest) =>
      ValueSpelled(v, false);
      PropsSpelled(rest, true);
      PropSpelled(name, v, rest, due);
  }

  lemma PropSpelled(name: Bytes, v: Value, rest: Props, due: bool)
    requires DecimalFree(v) && DecimalFreeProps(rest)
    requires SpelledAll(Visit(v), false) == [] + JsonText(v) && DueAfter(Visit(v), false)
    requires SpelledAll(VisitProps(rest), true) == if rest.NoProps? then [] else Comma(true) + PropsText(rest)
    ensures SpelledAll(VisitProps(Prop(name, v, rest)), due) == Comma(due) + PropsText(Prop(name, v, rest))
  {
    hide SpelledAll;
    hide JsonText;
    hide StringText;
    hide Visit;
    SpelledOne(PropName(name), due);
    SpelledThen([PropName(name)], Visit(v), due);
    SpelledThen([PropName(name)] + Visit(v), VisitProps(rest), due);
    assert DueAfter([PropName(name)] + Visit(v), due);
    PartsGrouped(Comma(due), StringText(name), [COLON], JsonText(v), if rest.NoProps? then [] else [COMMA] + PropsText(rest));
  }

  lemma PartsGrouped(a: Bytes, b: Bytes, c: Bytes, d: Bytes, e: Bytes)
    ensures (a + b + c) + ([] + d) + e == a + (b + c + d + e)
  {
  }

  lemma {:induction false} ItemsSpelled(p: Items, due: bool)
    requires DecimalFreeItems(p)
    ensures SpelledAll(VisitItems(p), due) == if p.NoItems? then [] else Comma(due) + ItemsText(p)
    decreases p
  {
    match p
    case NoItems =>
    case Item(v, rest) =>
      hide SpelledAll;
      hide JsonText;
      ValueSpelled(v, due);
      SpelledThen(Visit(v), VisitItems(rest), due);
      ItemsSpelled(rest, true);
      BytesGrouped(Comma(due), JsonText(v), if rest.NoItems? then [] else [COMMA] + ItemsText(rest));
      EmptySpelled(true);
  }

  lemma EmptySpelled(due: bool)
    ensures SpelledAll([], due) == []
  {
  }

  /** One byte more: escaped, or joined to the run. */
  lemma EscapedMore(val: Bytes, from: nat, cur: nat, str: Bytes, before: Bytes)
    requires from <= cur < |val| && str + val[from..cur] == before + EscapedText(val[..cur])
    ensures str + val[from..cur] + EscapeOf(val[cur]) == before + EscapedText(val[..cur + 1])
    ensures !(val[cur] < 0x20 || val[cur] == QUOTE || val[cur] == BACKSLASH) ==>
      str + val[from..cur + 1] == before + EscapedText(val[..cur + 1])
  {
    assert val[..cur + 1][..cur] == val[..cur];
    assert val[from..cur + 1] == val[from..cur] + [val[cur]];
    assert !(val[cur] < 0x20 || val[cur] == QUOTE || val[cur] == BACKSLASH) ==> EscapeOf(val[cur]) == [val[cur]];
    hide EscapeOf;
    BytesGrouped(before, EscapedText(val[..cur]), EscapeOf(val[cur]));
    BytesGrouped(str, val[from..cur], [val[cur]]);
  }

  // ---- the writer as it runs ----

  class Writer {
    var str: Bytes
    var commaDue: bool

    constructor ()
      ensures str == [] && !commaDue
    {
      str, commaDue := [], false;
    }

    method WriteComma()
      modifies this
      ensures str == old(str) + Comma(old(commaDue)) && commaDue
    {
      if commaDue {
        str := str + [COMMA];
      } else {
        commaDue := true;
      }
    }

    /** Runs of bytes that need no escape are appended at once. */
    method WriteString(val: Bytes)
      modifies `str
      ensures str == old(str) + StringText(val)
    {
      hide EscapeOf;
      str := str + [QUOTE];
      ghost var before := str;
      var from, cur := 0, 0;
      assert val[..0] == [] && before + [] == before;
      while cur < |val|
        invariant from <= cur <= |val| && str + val[from..cur] == before + EscapedText(val[..cur])
      {
        var c := val[cur];
        EscapedMore(val, from, cur, str, before);
        if c < 0x20 || c == QUOTE || c == BACKSLASH {
          str := str + val[from..cur];
          from := cur + 1;
          str := str + EscapeOf(c);
          assert val[from..cur + 1] == [];
        }
        cur := cur + 1;
      }
      assert val[..cur] == val;
      str := str + val[from..cur];
      str := str + [QUOTE];
    }

    method Take(e: Event)
      requires !e.DecimalValue?
      modifies this
      ensures str == old(str) + Spelled(e, old(commaDue)) && commaDue == Due(e)
    {
      hide StringText;
      hide IntText;
      hide Comma;
      if !e.EndObject? && !e.EndArray? {
        WriteComma();
      }
      match e {
        case BeginObject => str := str + [LBRACE];
        case EndObject => str := str + [RBRACE];
        case BeginArray => str := str + [LBRACKET];
        case EndArray => str := str + [RBRACKET];
        case PropName(s) =>
          WriteString(s);
          str := str + [COLON];
        case NullValue => str := str + NULL_TEXT;
        case BoolValue(b) => str := str + if b then TRUE_TEXT else FALSE_TEXT;
        case IntValue(i) => str := str + IntText(i);
        case StringValue(s) => WriteString(s);
      }
      commaDue := Due(e);
    }
  }

  method ToJson(v: Value) returns (text: Bytes)
    requires DecimalFree(v)
    ensures text == JsonText(v)
  {
    hide Spelled;
    hide JsonText;
    hide Visit;
    var writer := new Writer();
    var events := Visit(v);
    NoDecimals(v);
    ValueSpelled(v, false);
    assert events[0..] == events && [] + JsonText(v) == JsonText(v);
    for i := 0 to |events|
      invariant writer.str + SpelledAll(events[i..], writer.commaDue) == JsonText(v)
    {
      assert events[i..][0] == events[i] && events[i..][1..] == events[i + 1..];
      ghost var str, e, rest := writer.str, Spelled(events[i], writer.commaDue), SpelledAll(events[i + 1..], Due(events[i]));
      BytesGrouped(str, e, rest);
      writer.Take(events[i]);
    }
    text := writer.str;
  }

  lemma {:induction false} NoDecimals(v: Value)
    requires DecimalFree(v)
    ensures forall e :: e in Visit(v) ==> !e.DecimalValue?
  {
    match v
    case Obj(p) => NoDecimalProps(p);
    case Arr(p) => NoDecimalItems(p);
    case _ =>
  }

  lemma {:induction false} NoDecimalProps(p: Props)
    requires DecimalFreeProps(p)
    ensures forall e :: e in VisitProps(p) ==> !e.DecimalValue?
  {
    if p.Prop? {
      NoDecimals(p.val);
      NoDecimalProps(p.rest);
    }
  }

  lemma {:induction false} NoDecimalItems(p: Items)
    requires DecimalFreeItems(p)
    ensures forall e :: e in VisitItems(p) ==> !e.DecimalValue?
  {
    if p.Item? {
      NoDecimals(p.val);
      NoDecimalItems(p.rest);
    }
  }
}
