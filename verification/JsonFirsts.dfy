/** Which characters the parser goes on with where a value, a name or a separator is due, and what it says of the others. */
module JsonFirsts {
  import opened Bytes
  import opened Values
  import opened Events
  import opened Json
  import opened JsonReads

  /** The characters a value begins with; a NUL is passed over. */
  predicate BeginsValue(c: Byte) {
    c in [0x00, 0x22, 0x2D, 0x5B, 0x66, 0x6E, 0x74, 0x7B] || 0x30 <= c <= 0x39
  }

  /** What may come: a list can be closed behind its last comma, and so can an object. */
  predicate MayCome(s: State, c: Byte) {
    match s
    case Start => BeginsValue(c)
    case Array => BeginsValue(c) || c == 0x5D
    case ArraySep => c == 0x2C || c == 0x5D
    case ObjFieldStart => c == 0x22 || c == 0x7D
    case ObjFieldEnd => c == 0x3A
    case ObjValue => BeginsValue(c)
    case ObjSep => c == 0x2C || c == 0x7D
    case _ => true
  }

  predicate Decides(s: State) { Begins(s) || s == ArraySep || s == ObjFieldStart || s == ObjFieldEnd || s == ObjSep }

  predicate Begins(s: State) { s == Start || s == Array || s == ObjValue }

  /** A container more is one too many. */
  predicate Full(p: Parser, c: Byte) { |p.below| == 31 && (p.top.state == ObjValue || (p.top.state == Array && c != 0x5D)) }

  function Complaint(s: State): JsonError {
    match s
    case ArraySep => BadArray
    case ObjFieldStart => BadPropName
    case ObjFieldEnd => BadPropName
    case ObjSep => BadValueSep
    case _ => Unexpected
  }

  /** Just what may come is gone on with, and the error says what was due. */
  lemma FirstsExactly(p: Parser, c: Byte, lexer: Lexer)
    requires Valid(p) && Decides(p.top.state) && Solid(c)
    ensures match At(p, c, lexer)
      case Fail(err, events) => events == [] && if Full(p, c) then err == TooDeep else !MayCome(p.top.state, c) && err == Complaint(p.top.state)
      case _ => !Full(p, c) && MayCome(p.top.state, c)
  {
    hide At;
    if p.top.state == Start {
      ValueFirsts(p, c, lexer);
    } else if (p.top.state == Array && c != RBRACKET) || p.top.state == ObjValue {
      MemberFirsts(p, c, lexer);
    } else {
      AtOnce(p, c, lexer);
    }
  }

  lemma ValueFirsts(p: Parser, c: Byte, lexer: Lexer)
    requires Valid(p) && p.top.state == Start
    ensures if BeginsValue(c) then !At(p, c, lexer).Fail? else At(p, c, lexer) == Fail(Unexpected, [])
  {
    hide At;
    AtOnce(p, c, lexer);
    var m := Once(p, c, lexer);
    if m.Again? {
      AtOnce(m.next, c, lexer);
    }
  }

  lemma MemberFirsts(p: Parser, c: Byte, lexer: Lexer)
    requires Valid(p) && Solid(c) && ((p.top.state == Array && c != RBRACKET) || p.top.state == ObjValue)
    ensures if |p.below| == 31 then At(p, c, lexer) == Fail(TooDeep, [])
      else if BeginsValue(c) then !At(p, c, lexer).Fail? else At(p, c, lexer) == Fail(Unexpected, [])
  {
    hide At;
    AtOnce(p, c, lexer);
    var m := Once(p, c, lexer);
    if m.Again? {
      AtOnce(m.next, c, lexer);
      var q := Once(m.next, c, lexer).next;
      assert q == To(m.next, Start);
      ValueFirsts(q, c, lexer);
    }
  }
}
