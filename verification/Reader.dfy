/** The reader: a decoder with a stack of states that hands each event to a visitor. */
module Reader {
  import opened Bytes
  import opened Values
  import opened Events

  datatype State = InValue | InObject | InArray

  datatype ReadError = Fine | UnexpectedEof | UnexpectedMarker | InvalidToken

  /** The names of the tokens a reader was given, if any. */
  datatype Naming = Unnamed | Named(table: seq<Bytes>)

  // ---- numbers and strings ----

  datatype Piece<T> = Short | Piece(val: T, used: nat)

  function Number(s: Bytes, w: nat): Piece<nat> {
    if |s| < w then Short else Piece(FromBigEndian(s[..w]), w)
  }

  /** The number of bytes before the first NUL. */
  function StringLength(s: Bytes): (n: nat)
    ensures n <= |s| && NulFree(s[..n]) && (n < |s| ==> s[n] == 0)
  {
    if |s| == 0 || s[0] == 0 then 0 else
      var n := 1 + StringLength(s[1..]);
      assert s[..n] == [s[0]] + s[1..][..n - 1];
      n
  }

  function StringPiece(s: Bytes): Piece<Bytes> {
    var n := StringLength(s);
    if n == |s| then Short else Piece(s[..n], n + 1)
  }

  // ---- one word ----

  /** What reading one word yields: an event or none, the number of bytes used and the state left. */
  datatype Step = Failed(err: ReadError) | Step(event: seq<Event>, used: nat, stack: seq<State>, skip: bool)

  function Yields(event: Event, used: nat, stack: seq<State>, skip: bool): Step {
    Step([event], 1 + used, stack, skip)
  }

  function ReadInt(marker: Byte, s: Bytes): Piece<Int64>
    requires ZERO_INT <= marker <= INT64 || marker == NEGATIVE_INT
  {
    if marker == ZERO_INT then Piece(0, 0)
    else if marker == UINT8 then Narrow(Number(s, 1))
    else if marker == UINT16 then Narrow(Number(s, 2))
    else if marker == UINT32 then Narrow(Number(s, 4))
    else SignedNumber(s)
  }

  function Narrow(p: Piece<nat>): Piece<Int64> {
    if p.Short? then Short else Piece(if p.val < 0x1_0000_0000 then p.val else 0, p.used)
  }

  function SignedNumber(s: Bytes): Piece<Int64> {
    if |s| < 8 then Short else (PowersOf256(); Piece(Signed64(FromBigEndian(s[..8])), 8))
  }

  /** A text, or why there is none. */
  datatype Reading = NoText(err: ReadError) | Text(text: Bytes, used: nat)

  /** A text behind its marker, or the name of a token; what is neither is a token only where there is a table. */
  function ReadText(marker: Byte, s: Bytes, names: Naming): (r: Reading)
    ensures r.Text? ==> r.used <= |s|
    ensures r.NoText? ==> r.err != Fine
  {
    if marker == STRING_VALUE then
      var p := StringPiece(s);
      if p.Short? then NoText(UnexpectedEof) else Text(p.val, p.used)
    else if names.Unnamed? then NoText(UnexpectedMarker)
    else if TOKEN_START <= marker < TOKEN_START + |names.table| then Text(names.table[marker - TOKEN_START], 0)
    else NoText(InvalidToken)
  }

  /** A decimal or an integer behind its marker. */
  function ReadNumber(marker: Byte, s: Bytes, below: seq<State>, skip: bool): (step: Step)
    requires NEGATIVE_DECIMAL <= marker <= INT64
    ensures step.Failed? ==> step.err != Fine
    ensures step.Step? ==> step.used <= |s| + 1
  {
    if marker == NEGATIVE_DECIMAL || marker == POSITIVE_DECIMAL then
      var p := SignedNumber(s);
      if p.Short? then Failed(UnexpectedEof) else Yields(DecimalValue(p.val), p.used, below, skip)
    else
      var p := ReadInt(marker, s);
      if p.Short? then Failed(UnexpectedEof) else Yields(IntValue(p.val), p.used, below, skip)
  }

  /** A value, from its marker and the bytes behind it, leaving the states below it. */
  function ReadValue(marker: Byte, s: Bytes, below: seq<State>, skip: bool, names: Naming): (step: Step)
    ensures step.Failed? ==> step.err != Fine
    ensures step.Step? ==> 0 < step.used <= |s| + 1
  {
    if marker == OBJECT_BEGIN then Step(if skip then [] else [BeginObject], 1, below + [InObject], false)
    else if marker == ARRAY_BEGIN then Yields(BeginArray, 0, below + [InArray], skip)
    else if marker == NULL_VALUE then Yields(NullValue, 0, below, skip)
    else if marker == TRUE_VALUE then Yields(BoolValue(true), 0, below, skip)
    else if marker == FALSE_VALUE then Yields(BoolValue(false), 0, below, skip)
    else if NEGATIVE_DECIMAL <= marker <= INT64 then ReadNumber(marker, s, below, skip)
    else if marker == EXTENSION then
      var p := Number(s, 4);
      if p.Short? || |s| < 4 + p.val then Failed(UnexpectedEof) else Step([], 5 + p.val, below, skip)
    else
      var r := ReadText(marker, s, names);
      if r.NoText? then Failed(r.err) else Yields(StringValue(r.text), r.used, below, skip)
  }

  function ReadProp(marker: Byte, s: Bytes, stack: seq<State>, skip: bool, names: Naming): (step: Step)
    ensures step.Failed? ==> step.err != Fine
    ensures step.Step? ==> 0 < step.used <= |s| + 1
  {
    var r := ReadText(marker, s, names);
    if r.NoText? then Failed(r.err) else Yields(PropName(r.text), r.used, stack + [InValue], skip)
  }

  /** The word that begins with a marker, in a state. */
  function ReadMarked(marker: Byte, s: Bytes, stack: seq<State>, skip: bool, names: Naming): (step: Step)
    requires |stack| > 0
    ensures step.Step? ==> 0 < step.used <= |s| + 1
  {
    var top, below := stack[|stack| - 1], stack[..|stack| - 1];
    if top.InValue? then ReadValue(marker, s, below, skip, names)
    else if marker == OBJECT_END then Yields(if top.InObject? then EndObject else EndArray, 0, below, skip)
    else if top.InObject? then ReadProp(marker, s, stack, skip, names)
    else ReadValue(marker, s, stack, skip, names)
  }

  /** The next word of a string; a reader with no state expects a value. */
  function ReadWord(s: Bytes, stack: seq<State>, skip: bool, names: Naming): (step: Step)
    ensures step.Step? ==> 0 < step.used <= |s|
  {
    if |s| == 0 then Failed(UnexpectedEof)
    else ReadMarked(s[0], s[1..], if |stack| == 0 then [InValue] else stack, skip, names)
  }

  // ---- many words ----

  /** The events reported, and the bytes left when the reading ended. */
  datatype Outcome = Outcome(err: ReadError, events: seq<Event>, rest: Bytes)

  function Then(step: Step, o: Outcome): Outcome
    requires step.Step?
  {
    Outcome(o.err, step.event + o.events, o.rest)
  }

  /** Word after word until no state is left. */
  function ReadObject(s: Bytes, stack: seq<State>, skip: bool, names: Naming): Outcome
    decreases |s|
  {
    var step := ReadWord(s, stack, skip, names);
    if step.Failed? then Outcome(step.err, [], s)
    else if |step.stack| == 0 then Outcome(Fine, step.event, s[step.used..])
    else Then(step, ReadObject(s[step.used..], step.stack, step.skip, names))
  }

  /** Word after word until no byte is left. */
  function ReadAll(s: Bytes, stack: seq<State>, skip: bool, names: Naming): Outcome
    decreases |s|
  {
    if |s| == 0 then Outcome(Fine, [], [])
    else
      var step := ReadWord(s, stack, skip, names);
      if step.Failed? then Outcome(step.err, [], s)
      else Then(step, ReadAll(s[step.used..], step.stack, step.skip, names))
  }

  // ---- the states along a run of events ----

  predicate StartsValue(e: Event) { !e.EndObject? && !e.EndArray? && !e.PropName? }

  predicate Accepts(stack: seq<State>, e: Event) {
    |stack| > 0 &&
    match stack[|stack| - 1]
    case InValue => StartsValue(e)
    case InObject => e.PropName? || e.EndObject?
    case InArray => StartsValue(e) || e.EndArray?
  }

  function Pushed(e: Event): seq<State> {
    if e.BeginObject? then [InObject] else if e.BeginArray? then [InArray] else []
  }

  function After(stack: seq<State>, e: Event): seq<State>
    requires Accepts(stack, e)
  {
    var below := stack[..|stack| - 1];
    if e.PropName? then stack + [InValue]
    else if e.EndObject? || e.EndArray? then below
    else if stack[|stack| - 1].InValue? then below + Pushed(e)
    else stack + Pushed(e)
  }

  predicate AcceptsAll(stack: seq<State>, es: seq<Event>)
    decreases |es|
  {
    |es| > 0 ==> Accepts(stack, es[0]) && AcceptsAll(After(stack, es[0]), es[1..])
  }

  function AfterAll(stack: seq<State>, es: seq<Event>): seq<State>
    requires AcceptsAll(stack, es)
    decreases |es|
  {
    if |es| == 0 then stack else AfterAll(After(stack, es[0]), es[1..])
  }

  lemma {:induction false} RunConcat(stack: seq<State>, a: seq<Event>, b: seq<Event>)
    requires AcceptsAll(stack, a) && AcceptsAll(AfterAll(stack, a), b)
    ensures AcceptsAll(stack, a + b)
    ensures AfterAll(stack, a + b) == AfterAll(AfterAll(stack, a), b)
    decreases |a|
  {
    if |a| == 0 {
      assert a + b == b;
    } else {
      RunConcat(After(stack, a[0]), a[1..], b);
      assert (a + b)[1..] == a[1..] + b;
    }
  }

  /** The state a value leaves. */
  function Rest(stack: seq<State>): seq<State>
    requires |stack| > 0
  {
    if stack[|stack| - 1].InValue? then stack[..|stack| - 1] else stack
  }

  lemma RunOne(stack: seq<State>, e: Event)
    requires Accepts(stack, e)
    ensures AcceptsAll(stack, [e]) && AfterAll(stack, [e]) == After(stack, e)
  {
    assert [e][1..] == [];
  }

  lemma ContainerRuns(stack: seq<State>, open: Event, inner: seq<Event>, close: Event, inside: seq<State>)
    requires |stack| > 0 && !stack[|stack| - 1].InObject?
    requires (open.BeginObject? && close.EndObject?) || (open.BeginArray? && close.EndArray?)
    requires inside == Rest(stack) + Pushed(open)
    requires AcceptsAll(inside, inner) && AfterAll(inside, inner) == inside
    ensures AcceptsAll(stack, [open] + inner + [close])
    ensures AfterAll(stack, [open] + inner + [close]) == Rest(stack)
  {
    hide AcceptsAll;
    hide AfterAll;
    RunOne(stack, open);
    RunOne(inside, close);
    RunConcat(stack, [open], inner);
    RunConcat(stack, [open] + inner, [close]);
  }

  lemma {:induction false} VisitRuns(v: Value, stack: seq<State>)
    requires |stack| > 0 && !stack[|stack| - 1].InObject?
    ensures AcceptsAll(stack, Visit(v)) && AfterAll(stack, Visit(v)) == Rest(stack)
  {
    match v
    case Obj(p) =>
      VisitPropsRuns(p, Rest(stack) + [InObject]);
      ContainerRuns(stack, BeginObject, VisitProps(p), EndObject, Rest(stack) + [InObject]);
    case Arr(p) =>
      VisitItemsRuns(p, Rest(stack) + [InArray]);
      ContainerRuns(stack, BeginArray, VisitItems(p), EndArray, Rest(stack) + [InArray]);
    case _ =>
  }

  lemma {:induction false} VisitPropsRuns(p: Props, stack: seq<State>)
    requires |stack| > 0 && stack[|stack| - 1].InObject?
    ensures AcceptsAll(stack, VisitProps(p)) && AfterAll(stack, VisitProps(p)) == stack
  {
    match p
    case NoProps =>
    case Prop(name, v, rest) =>
      hide AcceptsAll;
      hide AfterAll;
      hide Visit;
      var inside := stack + [InValue];
      assert inside[..|inside| - 1] == stack;
      RunOne(stack, PropName(name));
      VisitRuns(v, inside);
      VisitPropsRuns(rest, stack);
      RunConcat(stack, [PropName(name)], Visit(v));
      RunConcat(stack, [PropName(name)] + Visit(v), VisitProps(rest));
  }

  lemma {:induction false} VisitItemsRuns(p: Items, stack: seq<State>)
    requires |stack| > 0 && stack[|stack| - 1].InArray?
    ensures AcceptsAll(stack, VisitItems(p)) && AfterAll(stack, VisitItems(p)) == stack
  {
    match p
    case NoItems =>
    case Item(v, rest) =>
      VisitRuns(v, stack);
      VisitItemsRuns(rest, stack);
      RunConcat(stack, Visit(v), VisitItems(rest));
  }
}
