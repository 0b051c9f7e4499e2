/** The parser of JSON text as it runs, and its answers for whole texts. */
module JsonParser {
  import opened Bytes
  import opened Values
  import opened Events
  import opened Json

  class Parser {
    const lexer: Lexer
    const stack: array<Rec>
    var depth: nat
    var str: Bytes
    var strPos: nat
    var ucsChar: nat
    var matchTrue: bool
    var isDecimal: bool
    /** What the visitor was told. */
    var told: seq<Event>

    ghost predicate Placed()
      reads this
    {
      stack.Length == MAX_DEPTH && depth < MAX_DEPTH
    }

    ghost function Now(): Json.Parser
      requires Placed()
      reads this, stack
    {
      Json.Parser(stack[..depth], stack[depth], str, strPos, ucsChar, matchTrue, isDecimal)
    }

    ghost predicate Valid()
      reads this, stack
    {
      Placed() && Json.Valid(Now())
    }

    /** What was told and where the parser is, after a move from some events on. */
    ghost predicate Did(m: Move, before: seq<Event>, again: bool, stop: bool, err: JsonError)
      reads this, stack
    {
      && Placed() && told == before + m.events
      && if m.Fail? then err == m.err else err == Fine && again == m.Again? && stop == m.Stop? && Now() == m.next
    }

    constructor (decimals: Lexer)
      ensures Valid() && fresh(stack) && Now() == BEGUN && told == [] && lexer == decimals
    {
      lexer := decimals;
      stack := new Rec[MAX_DEPTH](_ => FRESH);
      depth, str, strPos, ucsChar, matchTrue, isDecimal, told := 0, [], 0, 0, false, false, [];
    }

    method SetState(state: State)
      requires Placed()
      modifies stack
      ensures Placed() && Now() == To(old(Now()), state)
    {
      stack[depth] := stack[depth].(state := state);
    }

    method SetSaved(saved: State, state: State)
      requires Placed()
      modifies stack
      ensures Placed() && Now() == old(Now()).(top := Rec(state, saved))
    {
      stack[depth] := Rec(state, saved);
    }

    method Tell(e: Event)
      modifies `told
      ensures told == old(told) + [e]
    {
      told := told + [e];
    }

    method PushRec() returns (err: JsonError)
      requires Placed()
      modifies `depth, stack
      ensures Placed() && told == old(told)
      ensures match Push(old(Now()))
        case Again(q, _) => err == Fine && Now() == q
        case Fail(e, _) => err == e
        case _ => false
    {
      if depth >= MAX_DEPTH - 1 {
        return TooDeep;
      }
      depth := depth + 1;
      stack[depth] := FRESH;
      err := Fine;
    }

    method SwitchStart(c: Byte) returns (again: bool, stop: bool, err: JsonError)
      requires Placed()
      modifies this, stack
      ensures Did(AtStart(old(Now()), c), old(told), again, stop, err)
    {
      again, stop, err := false, false, Fine;
      if c == LBRACE {
        SetSaved(ObjFieldStart, EatWhitespace);
        Tell(BeginObject);
      } else if c == LBRACKET {
        SetSaved(Array, EatWhitespace);
        Tell(BeginArray);
      } else if c == NULL_TEXT[0] {
        SetState(InNull);
        strPos, again := 0, true;
      } else if c == QUOTE {
        SetState(String);
        str := [];
      } else if c == TRUE_TEXT[0] || c == FALSE_TEXT[0] {
        SetState(InBool);
        strPos, matchTrue, again := 0, c == TRUE_TEXT[0], true;
      } else if IsDigit(c) || c == MINUS {
        SetState(Number);
        str, isDecimal, again := [], false, true;
      } else if c != 0 {
        err := Unexpected;
      }
    }

    method SwitchLetter(c: Byte, text: Bytes, value: Event, error: JsonError) returns (err: JsonError)
      requires Placed() && strPos < |text|
      modifies this, stack
      ensures Did(AtLetter(old(Now()), c, text, value, error), old(told), false, false, err)
    {
      err := Fine;
      if c != text[strPos] {
        return error;
      }
      strPos := strPos + 1;
      if strPos == |text| {
        Tell(value);
        SetSaved(Finish, EatWhitespace);
      }
    }

    method SwitchUnicode(c: Byte) returns (err: JsonError)
      requires Valid() && stack[depth].state == EscapeUnicode
      modifies this, stack
      ensures Did(AtUnicode(old(Now()), c), old(told), false, false, err)
    {
      err := Fine;
      if !IsHexDigit(c) {
        return BadEscape;
      }
      UnicodeInside(Now(), c);
      ucsChar := ucsChar + HexDigit(c) * Weight(strPos);
      strPos := strPos + 1;
      if strPos == 4 {
        if ucsChar == 0 {
          return BadEscape;
        }
        str := str + Utf8(ucsChar);
        SetState(stack[depth].saved);
      }
    }

    method SwitchNumber(c: Byte) returns (again: bool, err: JsonError)
      requires Placed()
      modifies this, stack
      ensures Did(AtNumber(old(Now()), c, lexer), old(told), again, false, err)
    {
      again, err := false, Fine;
      if InNumber(c) {
        if c == POINT || c == 0x65 || c == 0x45 {
          isDecimal := true;
        }
        str := str + [c];
        return;
      }
      if isDecimal {
        var d := lexer(str);
        if d.Nothing? {
          return again, BadDecimal;
        }
        Tell(DecimalValue(d.val));
      } else {
        var (i, end) := ToInt64(str);
        Tell(IntValue(i));
        if end != |str| {
          return again, BadInt;
        }
      }
      SetSaved(Finish, EatWhitespace);
      again := true;
    }

    method SwitchText(c: Byte, state: State, after: State, value: Event) returns (err: JsonError)
      requires Placed()
      modifies this, stack
      ensures Did(
        if c == QUOTE then Next(Json.Then(old(Now()), after), [value])
        else if c == BACKSLASH then Next(old(Now()).(top := Rec(StringEscape, state)), [])
        else Next(Append(old(Now()), [c]), []), old(told), false, false, err)
    {
      err := Fine;
      if c == QUOTE {
        Tell(value);
        SetSaved(after, EatWhitespace);
      } else if c == BACKSLASH {
        SetSaved(state, StringEscape);
      } else {
        str := str + [c];
      }
    }

    /** Behind a member of a container: its end, or a separator. */
    method SwitchSep(c: Byte, close: Byte, event: Event, next: State, error: JsonError) returns (err: JsonError)
      requires Placed()
      modifies this, stack
      ensures Did(
        if c == close then Next(Json.Then(old(Now()), Finish), [event])
        else if c == COMMA then Next(Json.Then(old(Now()), next), [])
        else Fail(error, []), old(told), false, false, err)
    {
      err := Fine;
      if c == close {
        Tell(event);
        SetSaved(Finish, EatWhitespace);
      } else if c == COMMA {
        SetSaved(next, EatWhitespace);
      } else {
        err := error;
      }
    }

    method SwitchComment(c: Byte) returns (again: bool, err: JsonError)
      requires Valid() && InComment(stack[depth].state)
      modifies this, stack
      ensures Did(Once(old(Now()), c, lexer), old(told), again, false, err)
    {
      again, err := false, Fine;
      match stack[depth].state
      case EatWhitespace =>
        if IsSpace(c) {
        } else if c == SLASH {
          SetState(CommentStart);
        } else {
          SetState(stack[depth].saved);
          again := true;
        }
      case CommentStart =>
        if c == STAR {
          SetState(Comment);
        } else if c == SLASH {
          SetState(CommentEol);
        } else {
          err := BadComment;
        }
      case Comment =>
        if c == STAR {
          SetState(CommentEnd);
        }
      case CommentEol =>
        if c == NEWLINE {
          SetState(EatWhitespace);
        }
      case CommentEnd =>
        if c == SLASH {
          SetState(EatWhitespace);
        } else {
          SetState(Comment);
          again := true;
        }
    }

    method SwitchContainer(c: Byte) returns (again: bool, err: JsonError)
      requires Valid() && InContainer(stack[depth].state)
      modifies this, stack
      ensures Did(Once(old(Now()), c, lexer), old(told), again, false, err)
    {
      again, err := false, Fine;
      match stack[depth].state
      case Array =>
        if c == RBRACKET {
          Tell(EndArray);
          SetSaved(Finish, EatWhitespace);
        } else {
          SetState(ArraySep);
          err := PushRec();
          again := true;
        }
      case ArraySep => err := SwitchSep(c, RBRACKET, EndArray, Array, BadArray);
      case ObjFieldStart =>
        if c == RBRACE {
          Tell(EndObject);
          SetSaved(Finish, EatWhitespace);
        } else if c == QUOTE {
          str := [];
          SetState(ObjField);
        } else {
          err := BadPropName;
        }
      case ObjFieldEnd =>
        if c == COLON {
          SetSaved(ObjValue, EatWhitespace);
        } else {
          err := BadPropName;
        }
      case ObjValue =>
        SetSaved(ObjSep, EatWhitespace);
        err := PushRec();
        again := true;
      case ObjSep => err := SwitchSep(c, RBRACE, EndObject, ObjFieldStart, BadValueSep);
    }

    /** The switch, for one character, once. */
    method Switch(c: Byte) returns (again: bool, stop: bool, err: JsonError)
      requires Valid()
      modifies this, stack
      ensures Did(Once(old(Now()), c, lexer), old(told), again, stop, err)
    {
      again, stop, err := false, false, Fine;
      match stack[depth].state
      case Start => again, stop, err := SwitchStart(c);
      case Finish =>
        if depth == 0 {
          stop := true;
        } else {
          depth := depth - 1;
          again := true;
        }
      case InNull => err := SwitchLetter(c, NULL_TEXT, NullValue, BadNull);
      case String => err := SwitchText(c, String, Finish, StringValue(str));
      case StringEscape =>
        if c == 0x75 {
          ucsChar, strPos := 0, 0;
          SetState(EscapeUnicode);
        } else if Escaped(c).Nothing? {
          err := BadEscape;
        } else {
          str := str + [Escaped(c).val];
          SetState(stack[depth].saved);
        }
      case EscapeUnicode => err := SwitchUnicode(c);
      case InBool => err := SwitchLetter(c, if matchTrue then TRUE_TEXT else FALSE_TEXT, BoolValue(matchTrue), BadBool);
      case Number => again, err := SwitchNumber(c);
      case ObjField => err := SwitchText(c, ObjField, ObjFieldEnd, PropName(str));
      case EatWhitespace | CommentStart | Comment | CommentEol | CommentEnd => again, err := SwitchComment(c);
      case _ => again, err := SwitchContainer(c);
    }

    /** One character, until it is taken, or nothing more is. */
    method Take(c: Byte) returns (stop: bool, err: JsonError)
      requires Valid()
      modifies this, stack
      ensures Did(At(old(Now()), c, lexer), old(told), false, stop, err) && (err == Fine ==> Valid())
    {
      hide Once;
      hide At;
      hide Json.Rank;
      hide Json.Valid;
      ghost var p, before, seen := Now(), told, [];
      var again := true;
      stop, err := false, Fine;
      AtKeeps(p, c, lexer);
      ToldNothing(At(p, c, lexer));
      while again
        invariant err == Fine && Placed() && told == before + seen
        invariant again ==> Json.Valid(Now()) && !stop && At(p, c, lexer) == Told(seen, At(Now(), c, lexer))
        invariant !again ==> Did(At(p, c, lexer), before, false, stop, err)
        decreases if again then 1 + Json.Rank(Now(), c) else 0
      {
        AtOnce(Now(), c, lexer);
        ghost var m := Once(Now(), c, lexer);
        if m.Again? {
          ToldTwice(seen, m.events, At(m.next, c, lexer));
        }
        Grouped(before, seen, m.events);
        seen := seen + m.events;
        again, stop, err := Switch(c);
        if err != Fine {
          return;
        }
      }
    }

    /** A chunk: the parser goes on from where the one before left it. */
    method ParseChunk(chars: Bytes) returns (err: JsonError, used: nat)
      requires Valid()
      modifies this, stack
      ensures var o := Run(old(Now()), chars, lexer);
        err == o.err && told == old(told) + o.events && (err == Fine ==> Valid() && Now() == o.next && used == o.used)
    {
      hide At;
      hide Run;
      hide Json.Valid;
      hide Onward;
      used := 0;
      err := Fine;
      ghost var p, before, seen := Now(), told, [];
      assert chars[0..] == chars;
      PassedNone(Run(p, chars, lexer));
      while used < |chars|
        invariant used <= |chars| && Valid() && told == before + seen && err == Fine
        invariant Run(p, chars, lexer) == Passed(seen, used, Run(Now(), chars[used..], lexer))
      {
        ghost var q := Now();
        RunFirst(q, chars[used..], lexer);
        OnwardIs(q, At(q, chars[used], lexer), chars[used + 1..], lexer);
        assert chars[used..][0] == chars[used] && chars[used..][1..] == chars[used + 1..];
        ghost var m := At(q, chars[used], lexer);
        Grouped(before, seen, m.events);
        var stop;
        stop, err := Take(chars[used]);
        if err != Fine || stop {
          return;
        }
        PassedOne(seen, m, used, Run(Now(), chars[used + 1..], lexer));
        seen := seen + m.events;
        used := used + 1;
      }
      RunNone(Now(), lexer);
      assert chars[used..] == [] && seen + [] == seen;
    }

    function Finished(): bool
      requires Placed()
      reads this, stack
    {
      stack[depth].state == Finish && depth == 0
    }
  }

  lemma ToldNothing(m: Move)
    ensures Told([], m) == m
  {
    assert [] + m.events == m.events;
  }

  lemma ToldTwice(a: seq<Event>, b: seq<Event>, m: Move)
    ensures Told(a, Told(b, m)) == Told(a + b, m)
  {
    Grouped(a, b, m.events);
  }

  /** An outcome behind events told and characters used. */
  function Passed(events: seq<Event>, used: nat, o: Outcome): Outcome { Outcome(o.err, o.next, events + o.events, used + o.used) }

  lemma PassedNone(o: Outcome)
    ensures Passed([], 0, o) == o
  {
    assert [] + o.events == o.events;
  }

  lemma PassedOne(a: seq<Event>, m: Move, used: nat, o: Outcome)
    requires m.Next?
    ensures Passed(a, used, Behind(Outcome(Fine, m.next, m.events, 1), 1, o)) == Passed(a + m.events, used + 1, o)
  {
    Grouped(a, m.events, o.events);
  }

  /** What a whole text is read as: the events, or the error, which may be that it ends too soon. */
  function Parsed(text: Bytes, lexer: Lexer): (JsonError, seq<Event>) {
    BegunValid();
    var first := Run(BEGUN, text, lexer);
    if first.err != Fine then (first.err, first.events)
    else
      var last := Run(first.next, [0], lexer);
      var events := first.events + last.events;
      if last.err != Fine then (last.err, events)
      else if last.next.top.state == Finish && last.next.below == [] then (Fine, events)
      else (Eof, events)
  }

  lemma BegunValid()
    ensures Json.Valid(BEGUN)
  {
  }

  method Parse(text: Bytes, lexer: Lexer) returns (err: JsonError, events: seq<Event>)
    ensures (err, events) == Parsed(text, lexer)
  {
    BegunValid();
    var parser := new Parser(lexer);
    var used;
    ghost var first := Run(BEGUN, text, lexer);
    err, used := parser.ParseChunk(text);
    assert [] + first.events == first.events;
    if err != Fine {
      return err, parser.told;
    }
    err, used := parser.ParseChunk([0]);
    if err == Fine && !parser.Finished() {
      err := Eof;
    }
    events := parser.told;
  }
}
