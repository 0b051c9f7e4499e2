/** Objects from JSON text: whatever the text, its events are balanced, so that they can be built from. */
module JsonObjects {
  import opened Bytes
  import opened Values
  import opened Events
  import opened Json
  import opened JsonWriter
  import opened JsonParser
  import opened JsonReads
  import Builder
  import RoundTrip

  /** Inside a container whose end is still to come. */
  predicate Holds(r: Rec) {
    match r.state
    case EatWhitespace => InContainer(r.saved)
    case CommentStart => InContainer(r.saved)
    case Comment => InContainer(r.saved)
    case CommentEol => InContainer(r.saved)
    case CommentEnd => InContainer(r.saved)
    case StringEscape => r.saved == ObjField
    case EscapeUnicode => r.saved == ObjField
    case _ => InContainer(r.state) || r.state == ObjField
  }

  /** How many containers the parser is in. */
  function Open(p: Json.Parser): nat { |p.below| + if Holds(p.top) then 1 else 0 }

  // ---- what a character does to the open containers ----

  /** No event, or one that the open containers allow. */
  ghost predicate Moves(open: nat, m: Move) {
    if m.events == [] then m.Fail? || Open(m.next) == open
    else |m.events| == 1 && Builder.Opened(open, m.events[0]) >= 0 && (m.Fail? || Open(m.next) == Builder.Opened(open, m.events[0]))
  }

  lemma OnceMoves(p: Json.Parser, c: Byte, lexer: Lexer)
    requires Valid(p)
    ensures Moves(Open(p), Once(p, c, lexer))
  {
    hide AtStart;
    hide AtLetter;
    hide AtUnicode;
    hide AtNumber;
    hide Moves;
    hide Holds;
    match p.top.state
    case Start => StartMoves(p, c, lexer);
    case Finish => FinishMoves(p, c, lexer);
    case InNull => LetterMoves(p, c, lexer);
    case InBool => LetterMoves(p, c, lexer);
    case EscapeUnicode => EscapeMoves(p, c, lexer);
    case StringEscape => EscapeMoves(p, c, lexer);
    case Number => NumberMoves(p, c, lexer);
    case String => TextMoves(p, c, lexer);
    case ObjField => TextMoves(p, c, lexer);
    case EatWhitespace | CommentStart | Comment | CommentEol | CommentEnd => CommentMoves(p, c, lexer);
    case _ => ContainerMoves(p, c, lexer);
  }

  lemma StartMoves(p: Json.Parser, c: Byte, lexer: Lexer)
    requires Valid(p) && p.top.state == Start
    ensures Moves(Open(p), Once(p, c, lexer))
  {
  }

  lemma FinishMoves(p: Json.Parser, c: Byte, lexer: Lexer)
    requires Valid(p) && p.top.state == Finish
    ensures Moves(Open(p), Once(p, c, lexer))
  {
  }

  lemma LetterMoves(p: Json.Parser, c: Byte, lexer: Lexer)
    requires Valid(p) && (p.top.state == InNull || p.top.state == InBool)
    ensures Moves(Open(p), Once(p, c, lexer))
  {
  }

  lemma EscapeMoves(p: Json.Parser, c: Byte, lexer: Lexer)
    requires Valid(p) && (p.top.state == StringEscape || p.top.state == EscapeUnicode)
    ensures Moves(Open(p), Once(p, c, lexer))
  {
    hide Weight;
    hide Utf8;
    hide HexDigit;
    hide Escaped;
  }

  lemma NumberMoves(p: Json.Parser, c: Byte, lexer: Lexer)
    requires Valid(p) && p.top.state == Number
    ensures Moves(Open(p), Once(p, c, lexer))
  {
    hide ToInt64;
  }

  lemma TextMoves(p: Json.Parser, c: Byte, lexer: Lexer)
    requires Valid(p) && (p.top.state == String || p.top.state == ObjField)
    ensures Moves(Open(p), Once(p, c, lexer))
  {
    hide Weight;
  }

  lemma CommentMoves(p: Json.Parser, c: Byte, lexer: Lexer)
    requires Valid(p) && InComment(p.top.state)
    ensures Moves(Open(p), Once(p, c, lexer))
  {
    hide IsSpace;
  }

  lemma ContainerMoves(p: Json.Parser, c: Byte, lexer: Lexer)
    requires Valid(p) && InContainer(p.top.state)
    ensures Moves(Open(p), Once(p, c, lexer))
  {
  }

  // ---- what a text does to them ----

  /** Events that may follow when some containers are open, and the containers open behind them. */
  predicate Leads(open: nat, es: seq<Event>, end: nat)
    decreases |es|
  {
    if |es| == 0 then end == open else Builder.Opened(open, es[0]) >= 0 && Leads(Builder.Opened(open, es[0]), es[1..], end)
  }

  lemma {:induction false} LeadsThen(a: nat, x: seq<Event>, b: nat, y: seq<Event>, c: nat)
    requires Leads(a, x, b) && Leads(b, y, c)
    ensures Leads(a, x + y, c)
    decreases |x|
  {
    if |x| == 0 {
      assert x + y == y;
    } else {
      LeadsThen(Builder.Opened(a, x[0]), x[1..], b, y, c);
      assert (x + y)[1..] == x[1..] + y;
    }
  }

  lemma MovesLead(open: nat, m: Move)
    requires Moves(open, m)
    ensures if m.Fail? then exists end :: Leads(open, m.events, end) else Leads(open, m.events, Open(m.next))
  {
    if m.events == [] {
      assert Leads(open, m.events, open);
    } else {
      assert m.events[1..] == [];
      assert Leads(open, m.events, Builder.Opened(open, m.events[0]));
    }
  }

  /** The containers open behind some events. */
  ghost predicate Allowed(open: nat, err: JsonError, next: Json.Parser, es: seq<Event>) {
    if err == Fine then Leads(open, es, Open(next)) else exists end :: Leads(open, es, end)
  }

  ghost predicate MoveAllowed(open: nat, m: Move) {
    if m.Fail? then exists end :: Leads(open, m.events, end) else Leads(open, m.events, Open(m.next))
  }

  lemma {:induction false} AtAllowed(p: Json.Parser, c: Byte, lexer: Lexer)
    requires Valid(p)
    ensures MoveAllowed(Open(p), At(p, c, lexer))
    decreases Json.Rank(p, c)
  {
    hide Once;
    hide At;
    hide Valid;
    hide Json.Rank;
    hide Leads;
    hide Open;
    hide Moves;
    OnceMoves(p, c, lexer);
    AtOnce(p, c, lexer);
    var m := Once(p, c, lexer);
    MovesLead(Open(p), m);
    if m.Again? {
      AtAllowed(m.next, c, lexer);
      var n := At(m.next, c, lexer);
      if n.Fail? {
        var end :| Leads(Open(m.next), n.events, end);
        LeadsThen(Open(p), m.events, Open(m.next), n.events, end);
      } else {
        LeadsThen(Open(p), m.events, Open(m.next), n.events, Open(n.next));
      }
    }
  }

  lemma LeadsNone(open: nat)
    ensures Leads(open, [], open)
  {
  }

  lemma {:induction false} RunAllowed(p: Json.Parser, s: Bytes, lexer: Lexer)
    requires Valid(p)
    ensures var o := Run(p, s, lexer); Allowed(Open(p), o.err, o.next, o.events)
    decreases |s|
  {
    hide At;
    hide Valid;
    hide Run;
    hide Leads;
    hide Open;
    if |s| == 0 {
      RunNone(p, lexer);
      LeadsNone(Open(p));
    } else {
      RunFirst(p, s, lexer);
      AtAllowed(p, s[0], lexer);
      var m := At(p, s[0], lexer);
      OnwardIs(p, m, s[1..], lexer);
      if m.Next? {
        RunAllowed(m.next, s[1..], lexer);
        var o := Run(m.next, s[1..], lexer);
        AllowedThen(Open(p), m.events, m.next, o.err, o.next, o.events);
      }
    }
  }

  lemma AllowedThen(open: nat, es: seq<Event>, p: Json.Parser, err: JsonError, next: Json.Parser, more: seq<Event>)
    requires Leads(open, es, Open(p)) && Allowed(Open(p), err, next, more)
    ensures Allowed(open, err, next, es + more)
  {
    hide Leads;
    hide Open;
    if err == Fine {
      LeadsThen(open, es, Open(p), more, Open(next));
    } else {
      var end :| Leads(Open(p), more, end);
      LeadsThen(open, es, Open(p), more, end);
    }
  }

  /** Whatever the text, no container is closed that was not opened, and none is left open if there is no error. */
  lemma ParsedBalanced(text: Bytes, lexer: Lexer)
    ensures Builder.Balanced(0, Parsed(text, lexer).1)
    ensures Parsed(text, lexer).0 == Fine ==> Leads(0, Parsed(text, lexer).1, 0)
  {
    hide At;
    hide Run;
    hide Leads;
    BegunValid();
    RunAllowed(BEGUN, text, lexer);
    var first := Run(BEGUN, text, lexer);
    RunAllowed(first.next, [0], lexer);
    var last := Run(first.next, [0], lexer);
    if first.err == Fine {
      AllowedThen(0, first.events, first.next, last.err, last.next, last.events);
    }
    var end :| Leads(0, Parsed(text, lexer).1, end);
    LeadsBalanced(0, Parsed(text, lexer).1, end);
  }

  lemma {:induction false} LeadsBalanced(open: nat, es: seq<Event>, end: nat)
    requires Leads(open, es, end)
    ensures Builder.Balanced(open, es)
    decreases |es|
  {
    if |es| > 0 {
      LeadsBalanced(Builder.Opened(open, es[0]), es[1..], end);
    }
  }

  // ---- objects ----

  /** Reading a text into an empty builder yields a value. */
  predicate Reads(text: Bytes, lexer: Lexer, v: Value) {
    var (err, es) := Parsed(text, lexer);
    err == Fine && Builder.Sane(RoundTrip.EMPTY) && Builder.Balanced(0, es) && Builder.TakeAll(RoundTrip.EMPTY, es).obj == v
  }

  /** The text of a value is read, whatever the order of its names, as what its visit builds. */
  lemma JsonRebuilt(v: Value, lexer: Lexer)
    requires DecimalFree(v) && NoNul(v) && Depth(v) < MAX_DEPTH
    ensures Reads(JsonText(v), lexer, Builder.Rebuilt(v))
  {
    hide Parsed;
    JsonRoundTrip(v, lexer);
    Builder.VisitBuilds(v, RoundTrip.EMPTY);
  }

  /**
   * The text of a value without decimals is read as the value, with null for every undefined, exactly
   * when no string has a NUL and the value is not too deep.
   */
  lemma JsonObjectRoundTrip(v: Value, lexer: Lexer)
    requires DecimalFree(v) && Sorted(v)
    ensures Reads(JsonText(v), lexer, Norm(v)) <==> NoNul(v) && Depth(v) <= 31
  {
    hide Parsed;
    hide RoundTrip.TextsNulFree;
    hide RoundTrip.CleanBuilding;
    JsonRoundTrip(v, lexer);
    if NoNul(v) && Depth(v) < MAX_DEPTH {
      JsonRebuilt(v, lexer);
      Builder.SortedRebuilt(v);
    }
    if Reads(JsonText(v), lexer, Norm(v)) {
      JsonTextNulFree(v);
      ParsedClean(JsonText(v), lexer);
      BuiltNulFree(Parsed(JsonText(v), lexer).1);
      RoundTrip.NormNulFree(v);
    }
  }

  lemma BuiltNulFree(es: seq<Event>)
    requires Builder.Sane(RoundTrip.EMPTY) && Builder.Balanced(0, es) && RoundTrip.TextsNulFree(es)
    ensures NoNul(Builder.TakeAll(RoundTrip.EMPTY, es).obj)
  {
    RoundTrip.BuiltClean(RoundTrip.EMPTY, es);
  }

  method FromJson(text: Bytes, lexer: Lexer) returns (err: JsonError, v: Value)
    ensures err == Parsed(text, lexer).0
    ensures err == Fine ==> Reads(text, lexer, v)
  {
    hide Parsed;
    var builder := new Builder.ObjectBuilder();
    var events;
    err, events := Parse(text, lexer);
    ParsedBalanced(text, lexer);
    assert events[0..] == events;
    for i := 0 to |events|
      invariant builder.Valid() && Builder.Balanced(|builder.stack|, events[i..])
      invariant Builder.TakeAll(builder.State(), events[i..]) == Builder.TakeAll(RoundTrip.EMPTY, events)
    {
      assert events[i..][0] == events[i] && events[i..][1..] == events[i + 1..];
      builder.Visit(events[i]);
    }
    v := builder.obj;
  }
}
