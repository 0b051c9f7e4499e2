/** The events a value is visited as, and the bytes a writer spells them with. */
module Events {
  import opened Bytes
  import opened Values

  datatype Event =
    | BeginObject
    | EndObject
    | BeginArray
    | EndArray
    | PropName(name: Bytes)
    | NullValue
    | BoolValue(b: bool)
    | IntValue(i: Int64)
    | DecimalValue(rep: Int64)
    | StringValue(s: Bytes)

  /** The events of a visit. */
  function Visit(v: Value): (es: seq<Event>)
    ensures |es| > 0
  {
    match v
    case Undefined => [NullValue]
    case Null => [NullValue]
    case Obj(p) => [BeginObject] + VisitProps(p) + [EndObject]
    case Arr(p) => [BeginArray] + VisitItems(p) + [EndArray]
    case Str(s) => [StringValue(s)]
    case Bool(b) => [BoolValue(b)]
    case Dec(r) => [DecimalValue(r)]
    case Int(i) => [IntValue(i)]
  }

  function VisitProps(p: Props): seq<Event> {
    match p
    case NoProps => []
    case Prop(name, v, rest) => [PropName(name)] + Visit(v) + VisitProps(rest)
  }

  function VisitItems(p: Items): seq<Event> {
    match p
    case NoItems => []
    case Item(v, rest) => Visit(v) + VisitItems(rest)
  }

  // ---- spelling ----

  /** A token; zero stands for none. */
  const NO_TOKEN: Byte := 0

  predicate HasText(e: Event) { e.PropName? || e.StringValue? }

  function Text(e: Event): Bytes
    requires HasText(e)
  {
    if e.PropName? then e.name else e.s
  }

  function Word(e: Event, token: Byte): (w: Bytes)
    ensures |w| > 0
  {
    match e
    case BeginObject => [OBJECT_BEGIN]
    case EndObject => [OBJECT_END]
    case BeginArray => [ARRAY_BEGIN]
    case EndArray => [OBJECT_END]
    case PropName(s) => if token != NO_TOKEN then [token] else StringBytes(s)
    case NullValue => [NULL_VALUE]
    case BoolValue(b) => [if b then TRUE_VALUE else FALSE_VALUE]
    case IntValue(i) => IntBytes(i)
    case DecimalValue(r) => DecimalBytes(r)
    case StringValue(s) => if token != NO_TOKEN then [token] else StringBytes(s)
  }

  function Flat(words: seq<Bytes>): Bytes {
    if |words| == 0 then [] else words[0] + Flat(words[1..])
  }

  function Words(es: seq<Event>, tokens: seq<Byte>): (words: seq<Bytes>)
    requires |es| == |tokens|
  {
    seq(|es|, i requires 0 <= i < |es| => Word(es[i], tokens[i]))
  }

  /** The bytes of a run of events, each with its token or none. */
  function Spell(es: seq<Event>, tokens: seq<Byte>): Bytes
    requires |es| == |tokens|
  {
    Flat(Words(es, tokens))
  }

  function None(n: nat): (tokens: seq<Byte>)
    ensures |tokens| == n
  {
    seq(n, i => NO_TOKEN)
  }

  /** The name of a token, from a table of the names in the order of their tokens. */
  predicate Names(table: seq<Bytes>, token: Byte, s: Bytes) {
    TOKEN_START <= token < TOKEN_START + |table| && table[token - TOKEN_START] == s
  }

  /** Every token stands for the text of its event, as the C library sees it. */
  ghost predicate Sound(es: seq<Event>, tokens: seq<Byte>, table: seq<Bytes>) {
    && |es| == |tokens|
    && forall i :: 0 <= i < |es| && tokens[i] != NO_TOKEN ==> HasText(es[i]) && Names(table, tokens[i], CStr(Text(es[i])))
  }

  /** A table that only grows keeps every token sound. */
  lemma SoundLater(es: seq<Event>, tokens: seq<Byte>, table: seq<Bytes>, later: seq<Bytes>)
    requires Sound(es, tokens, table) && table <= later
    ensures Sound(es, tokens, later)
  {
  }

  lemma {:induction false} FlatConcat(a: seq<Bytes>, b: seq<Bytes>)
    ensures Flat(a + b) == Flat(a) + Flat(b)
  {
    if |a| == 0 {
      assert a + b == b;
    } else {
      FlatConcat(a[1..], b);
      assert (a + b)[1..] == a[1..] + b;
      var first, x, y := a[0], Flat(a[1..]), Flat(b);
      assert first + (x + y) == (first + x) + y;
    }
  }

  lemma SpellConcat(a: seq<Event>, s: seq<Byte>, b: seq<Event>, t: seq<Byte>)
    requires |a| == |s| && |b| == |t|
    ensures Spell(a + b, s + t) == Spell(a, s) + Spell(b, t)
  {
    hide Word;
    hide Flat;
    FlatConcat(Words(a, s), Words(b, t));
    assert Words(a + b, s + t) == Words(a, s) + Words(b, t);
  }

  lemma SpellOne(e: Event, token: Byte)
    ensures Spell([e], [token]) == Word(e, token)
  {
    hide Word;
    var w := Word(e, token);
    assert Words([e], [token]) == [w];
    assert Flat([w]) == w + Flat([]) == w;
  }

  lemma SpellFirst(es: seq<Event>, tokens: seq<Byte>)
    requires |es| == |tokens| > 0
    ensures Spell(es, tokens) == Word(es[0], tokens[0]) + Spell(es[1..], tokens[1..])
  {
    hide Word;
    assert Words(es, tokens)[1..] == Words(es[1..], tokens[1..]);
  }

  // ---- without tokens, the spelling is the encoding ----

  lemma NoneConcat(n: nat, m: nat)
    ensures None(n + m) == None(n) + None(m)
  {
  }

  lemma PlainSpellConcat(a: seq<Event>, b: seq<Event>)
    ensures Spell(a + b, None(|a| + |b|)) == Spell(a, None(|a|)) + Spell(b, None(|b|))
  {
    hide Spell;
    NoneConcat(|a|, |b|);
    SpellConcat(a, None(|a|), b, None(|b|));
  }

  lemma PlainSpellOne(e: Event)
    ensures Spell([e], None(1)) == Word(e, NO_TOKEN)
  {
    hide Word;
    assert None(1) == [NO_TOKEN];
    SpellOne(e, NO_TOKEN);
  }

  lemma {:induction false} PlainSpelling(v: Value)
    ensures Spell(Visit(v), None(|Visit(v)|)) == Encode(v)
  {
    hide Spell;
    match v
    case Obj(p) =>
      PropsSpelling(p);
      PlainSpellOne(BeginObject);
      PlainSpellConcat([BeginObject], VisitProps(p) + [EndObject]);
      assert [BeginObject] + VisitProps(p) + [EndObject] == [BeginObject] + (VisitProps(p) + [EndObject]);
    case Arr(p) =>
      ItemsSpelling(p);
      PlainSpellOne(BeginArray);
      PlainSpellConcat([BeginArray], VisitItems(p) + [EndArray]);
      assert [BeginArray] + VisitItems(p) + [EndArray] == [BeginArray] + (VisitItems(p) + [EndArray]);
    case _ => PlainSpellOne(Visit(v)[0]);
  }

  lemma FirstProp(p: Props, tail: seq<Event>)
    requires p.Prop? && tail == VisitProps(p.rest) + [EndObject]
    ensures VisitProps(p) + [EndObject] == [PropName(p.name)] + (Visit(p.val) + tail)
  {
  }

  lemma {:induction false} PropsSpelling(p: Props)
    ensures Spell(VisitProps(p) + [EndObject], None(|VisitProps(p)| + 1)) == EncodeProps(p)
  {
    hide Spell;
    match p
    case NoProps =>
      assert VisitProps(p) + [EndObject] == [EndObject];
      PlainSpellOne(EndObject);
    case Prop(name, v, rest) =>
      var tail := VisitProps(rest) + [EndObject];
      FirstProp(p, tail);
      PlainSpelling(v);
      PropsSpelling(rest);
      PlainSpellConcat(Visit(v), tail);
      PlainSpellOne(PropName(name));
      PlainSpellConcat([PropName(name)], Visit(v) + tail);
  }

  lemma {:induction false} ItemsSpelling(p: Items)
    ensures Spell(VisitItems(p) + [EndArray], None(|VisitItems(p)| + 1)) == EncodeItems(p)
  {
    hide Spell;
    match p
    case NoItems =>
      assert VisitItems(p) + [EndArray] == [EndArray];
      PlainSpellOne(EndArray);
    case Item(v, rest) =>
      PlainSpelling(v);
      ItemsSpelling(rest);
      var tail := VisitItems(rest) + [EndArray];
      PlainSpellConcat(Visit(v), tail);
      assert VisitItems(p) + [EndArray] == Visit(v) + tail;
  }
}
