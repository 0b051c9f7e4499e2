/** The key ranges of a query: what a clause becomes, and how a page cuts it. */
module Plan {
  import opened Bytes
  import opened Values
  import opened ValueOrder
  import opened Keys

  datatype Op = NoOp | Eq | NotEq | Less | LessEq | Greater | GreaterEq | Prefix

  datatype Clause = Clause(lowerOp: Op, lowerVal: Value, upperOp: Op, upperVal: Value)

  /** A clause of one value, as a query can hold it: bounds only where they may stand. */
  predicate FormedOne(c: Clause) {
    match c.lowerOp
    case NoOp => c.lowerVal == Undefined && (c.upperOp.Less? || c.upperOp.LessEq?) && Plain(c.upperVal)
    case Eq => Plain(c.lowerVal) && c.upperOp.NoOp?
    case NotEq => Plain(c.lowerVal) && c.upperOp.NoOp?
    case Prefix => Plain(c.lowerVal) && c.upperOp.NoOp?
    case Greater => Plain(c.lowerVal) && UpperFormed(c)
    case GreaterEq => Plain(c.lowerVal) && UpperFormed(c)
    case _ => false
  }

  predicate UpperFormed(c: Clause) {
    c.upperOp.NoOp? || ((c.upperOp.Less? || c.upperOp.LessEq?) && Plain(c.upperVal))
  }

  /** The key without its terminator. */
  function Unterminated(key: Bytes): Bytes {
    if |key| > 0 && key[|key| - 1] == 0 then key[..|key| - 1] else key
  }

  /** A value begins with another if its key does, but for the terminator, and is not below it. */
  predicate BeginsWith(v: Value, c: Value) { Unterminated(Encode(c)) <= Encode(v) && Compare(v, c) >= 0 }

  /** What a clause of one value says of a value, in the order of values. */
  predicate AcceptsOne(c: Clause, v: Value) {
    && (match c.lowerOp
        case Eq => Compare(v, c.lowerVal) == 0
        case NotEq => Compare(v, c.lowerVal) != 0
        case Greater => Compare(v, c.lowerVal) > 0
        case GreaterEq => Compare(v, c.lowerVal) >= 0
        case Prefix => BeginsWith(v, c.lowerVal)
        case _ => true)
    && (match c.upperOp
        case Less => Compare(v, c.upperVal) < 0
        case LessEq => Compare(v, c.upperVal) <= 0
        case _ => true)
  }

  // ---- clauses of lists ----

  function Elements(p: Items): seq<Value> { if p.NoItems? then [] else [p.val] + Elements(p.rest) }

  /** The values of a bound: an array is a list of them. */
  function Listed(v: Value): seq<Value> { if v.Arr? then Elements(v.items) else [v] }

  /** The clause for one value of its list. */
  function One(c: Clause, v: Value): Clause { c.(lowerVal := v) }

  /** A list stands only for alternatives of an equality or of a prefix. */
  predicate Formed(c: Clause) {
    && (c.lowerVal.Arr? ==> (c.lowerOp.Eq? || c.lowerOp.Prefix?) && c.upperOp.NoOp?)
    && (c.upperVal.Arr? ==> c.upperOp.NoOp?)
    && forall e :: e in Listed(c.lowerVal) ==> FormedOne(One(c, e))
  }

  /** A clause accepts what it accepts for one value of its list. */
  predicate Accepts(c: Clause, v: Value) {
    exists e :: e in Listed(c.lowerVal) && AcceptsOne(One(c, e), v)
  }

  // ---- the ranges of a clause of one value ----

  function UpperBound(upperKey: Bytes, prefix: Bytes, op: Op): Bytes {
    if op.NoOp? then Increment(prefix) else if op.LessEq? then Increment(upperKey) else upperKey
  }

  /** The ranges behind fixed leading values, before the page. */
  function Ranges(lowerKey: Bytes, upperKey: Bytes, prefix: Bytes, lowerOp: Op, upperOp: Op): seq<Range> {
    match lowerOp
    case Eq => [Range(lowerKey, Increment(prefix), 0)]
    case NotEq => [Range(prefix, lowerKey, 0), Range(Increment(lowerKey), Increment(prefix), 0)]
    case Prefix => [Range(lowerKey, Increment(Unterminated(prefix)), 0)]
    case Greater => [Range(Increment(lowerKey), UpperBound(upperKey, prefix, upperOp), 0)]
    case _ => [Range(lowerKey, UpperBound(upperKey, prefix, upperOp), 0)]
  }

  predicate InSome(ranges: seq<Range>, key: Bytes) {
    exists i :: 0 <= i < |ranges| && Contains(ranges[i], key)
  }

  // ---- a key against a bound ----

  /** A value's place in the order of values is its key's place around the bound made of another value. */
  lemma KeyAgainst(p: Bytes, v: Value, rest: Bytes, c: Value, key: Bytes, bound: Bytes)
    requires Plain(v) && Plain(c) && key == p + Encode(v) + rest && bound == p + Encode(c)
    ensures Lex(key, bound) >= 0 <==> Compare(v, c) >= 0
    ensures bound <= key <==> Compare(v, c) == 0
    ensures Increment(bound) != []
    ensures Lex(key, Increment(bound)) < 0 <==> Compare(v, c) <= 0
  {
    EncodingAgrees(v, c);
    var s, t := Encode(v) + rest, Encode(c);
    assert key == p + s;
    LexPrefix(p, s, t);
    if Compare(v, c) == 0 {
      LexExtended(t, rest);
      LexFlip(t, s);
    } else if Compare(v, c) < 0 {
      UnderExtended(Encode(v), t, rest, []);
      assert t + [] == t;
      UnderIsBelow(s, t);
      UnderAfter(p, s, t);
      PrefixNotUnder2(bound, key);
    } else {
      UnderExtended(t, Encode(v), [], rest);
      assert t + [] == t;
      UnderIsBelow(t, s);
      UnderAfter(p, t, s);
      PrefixNotUnder2(bound, key);
    }
    EncodingNotMax(c);
    assert bound[|p|] == Encode(c)[0];
    NoIncrement(bound);
    IncrementAbove(bound, key);
  }

  lemma PrefixNotUnder2(a: Bytes, b: Bytes)
    requires Under(a, b) || Under(b, a)
    ensures !(a <= b)
  {
    if a <= b {
      PrefixNotUnder(a, b);
    }
  }

  lemma EncodingNotMax(v: Value)
    ensures |Encode(v)| > 0 && Encode(v)[0] < BYTE_MAX
  {
  }

  /** The keys behind leading values are those from the values up to their increment. */
  lemma KeyBehind(p: Bytes, key: Bytes)
    ensures p <= key <==> Lex(key, p) >= 0 && (Increment(p) == [] || Lex(key, Increment(p)) < 0)
  {
    PrefixRange(p, key, 0);
    if p == [] {
      assert Lex(key, []) == |key|;
    }
  }

  // ---- the ranges hold exactly the keys the clause accepts ----

  predicate BoundsOf(c: Clause, p: Bytes, lowerKey: Bytes, upperKey: Bytes, prefix: Bytes) {
    && lowerKey == p + Encode(c.lowerVal)
    && upperKey == p + Encode(if c.upperOp.NoOp? then c.lowerVal else c.upperVal)
    && prefix == (if c.lowerOp.Eq? || c.lowerOp.Prefix? then lowerKey else p)
  }

  lemma UpperMeans(c: Clause, p: Bytes, upperKey: Bytes, v: Value, rest: Bytes, key: Bytes)
    requires FormedOne(c) && (c.lowerOp.NoOp? || c.lowerOp.Greater? || c.lowerOp.GreaterEq?)
    requires Plain(v) && key == p + Encode(v) + rest
    requires upperKey == p + Encode(if c.upperOp.NoOp? then c.lowerVal else c.upperVal)
    ensures var u := UpperBound(upperKey, p, c.upperOp);
      (u == [] || Lex(key, u) < 0) <==> AcceptsOne(c.(lowerOp := NoOp), v)
  {
    if c.upperOp.NoOp? {
      assert p <= key;
      KeyBehind(p, key);
    } else {
      KeyAgainst(p, v, rest, c.upperVal, key, upperKey);
      assert |upperKey| > 0;
    }
  }

  lemma StemOf(p: Bytes, v: Value)
    ensures Unterminated(p + Encode(v)) == p + Unterminated(Encode(v))
    ensures var u := Unterminated(Encode(v)); |u| > 0 && u[0] < BYTE_MAX && (Encode(v) == u || Encode(v) == u + [0])
  {
    EncodingStarts(v);
    EncodingNotMax(v);
  }

  lemma PrefixMeans(c: Value, v: Value, p: Bytes, rest: Bytes, key: Bytes, group: nat)
    requires Plain(c) && Plain(v) && key == p + Encode(v) + rest
    ensures var lowerKey := p + Encode(c);
      Contains(Range(lowerKey, Increment(Unterminated(lowerKey)), group), key) <==> BeginsWith(v, c)
  {
    hide Encode;
    hide Unterminated;
    hide Compare;
    hide Increment;
    hide Lex;
    var lowerKey := p + Encode(c);
    var stem := p + Unterminated(Encode(c));
    StemOf(p, c);
    KeyAgainst(p, v, rest, c, key, lowerKey);
    PrefixRange(stem, key, group);
    StemBegins(c, v, p, rest, key);
    StemLonger(p, Encode(c), stem, lowerKey);
    if Lex(key, lowerKey) >= 0 {
      AtLeastStem(stem, lowerKey, key);
    }
  }

  lemma StemLonger(p: Bytes, e: Bytes, stem: Bytes, lowerKey: Bytes)
    requires lowerKey == p + e && |e| > 0 && stem == p + Unterminated(e)
    ensures lowerKey != [] && (lowerKey == stem || lowerKey == stem + [0])
  {
  }

  lemma AtLeastStem(stem: Bytes, lowerKey: Bytes, key: Bytes)
    requires (lowerKey == stem || lowerKey == stem + [0]) && Lex(key, lowerKey) >= 0
    ensures Lex(key, stem) >= 0
  {
    LexExtended(stem, [0]);
    LexZero(stem, stem);
    LexFlip(key, lowerKey);
    LexTrans(stem, lowerKey, key);
    LexFlip(stem, key);
  }

  lemma StemBegins(c: Value, v: Value, p: Bytes, rest: Bytes, key: Bytes)
    requires Plain(c) && Plain(v) && key == p + Encode(v) + rest
    ensures p + Unterminated(Encode(c)) <= key <==> Unterminated(Encode(c)) <= Encode(v)
  {
    StemOf(p, c);
    hide Unterminated;
    hide Encode;
    var u, e := Unterminated(Encode(c)), Encode(v);
    if p + u <= key {
      assert key == p + (e + rest);
      assert key[|p|..] == e + rest;
      assert u <= e + rest;
      if |e| < |u| {
        assert e <= u;
        PrefixFree(v, c);
        assert false;
      }
    }
    if u <= e {
      assert p + u <= p + e;
    }
  }

  /** A string begins with another as strings do. */
  lemma StringBegins(s: Bytes, v: Value)
    requires NulFree(s) && Plain(v)
    ensures BeginsWith(v, Str(s)) <==> v.Str? && s <= v.s
  {
    EncodingStarts(v);
    assert Unterminated(StringBytes(s)) == [STRING_VALUE] + s;
    if v.Str? {
      AboveString(s, v.s);
    }
  }

  lemma AboveString(s: Bytes, t: Bytes)
    requires NulFree(s) && NulFree(t)
    ensures [STRING_VALUE] + s <= StringBytes(t) <==> s <= t
    ensures s <= t ==> Compare(Str(t), Str(s)) >= 0
  {
    if [STRING_VALUE] + s <= StringBytes(t) {
      var behind := t + [0];
      assert StringBytes(t)[1..] == behind && ([STRING_VALUE] + s)[1..] == s;
      assert s <= behind;
      BeginsString(s, t);
    }
    if s <= t {
      CStrPlain(s);
      CStrPlain(t);
      assert t == s + t[|s|..];
      LexExtended(s, t[|s|..]);
      LexFlip(s, t);
    }
  }

  lemma BeginsString(s: Bytes, t: Bytes)
    requires NulFree(s) && s <= t + [0]
    ensures s <= t
  {
    assert (t + [0])[|t|] == 0;
    assert forall i :: 0 <= i < |s| ==> s[i] == (t + [0])[i];
  }

  /** A number is no string, and is not refused: one whose last byte is a zero accepts others. */
  lemma NumberBegins()
    ensures BeginsWith(Int(511), Int(256)) && !BeginsWith(Int(512), Int(256))
    ensures forall v :: Plain(v) && BeginsWith(v, Int(257)) ==> v == Int(257)
  {
    hide Encode;
    NumberCodes();
    assert Unterminated([UINT16, 1, 0]) == [UINT16, 1] && Unterminated([UINT16, 1, 1]) == [UINT16, 1, 1];
    assert [UINT16, 1] <= [UINT16, 1, 255] && [UINT16, 1][1] != [UINT16, 2, 0][1];
    forall v | Plain(v) && BeginsWith(v, Int(257)) ensures v == Int(257) {
      PrefixFree(Int(257), v);
    }
  }

  lemma NumberCodes()
    ensures Encode(Int(256)) == [UINT16, 1, 0] && Encode(Int(257)) == [UINT16, 1, 1]
    ensures Encode(Int(511)) == [UINT16, 1, 255] && Encode(Int(512)) == [UINT16, 2, 0]
  {
    Numbers16(1, 0);
    Numbers16(1, 1);
    Numbers16(1, 255);
    Numbers16(2, 0);
  }

  lemma Numbers16(a: Byte, b: Byte)
    ensures BigEndian(256 * a + b, 2) == [a, b]
  {
    assert BigEndian(a, 1) == [a];
  }

  /** Of the keys behind the leading values, the ranges of a clause hold those whose next value it accepts. */
  lemma RangesMean(c: Clause, p: Bytes, lowerKey: Bytes, upperKey: Bytes, prefix: Bytes, v: Value, rest: Bytes, key: Bytes)
    requires FormedOne(c) && BoundsOf(c, p, lowerKey, upperKey, prefix)
    requires Plain(v) && key == p + Encode(v) + rest
    ensures InSome(Ranges(lowerKey, upperKey, prefix, c.lowerOp, c.upperOp), key) <==> AcceptsOne(c, v)
  {
    if c.lowerOp.Prefix? {
      hide Lex;
      hide Increment;
      hide Compare;
      hide Unterminated;
      hide Encode;
      PrefixMeans(c.lowerVal, v, p, rest, key, 0);
      InOne(Ranges(lowerKey, upperKey, prefix, c.lowerOp, c.upperOp), key);
    } else if c.lowerOp.Eq? || c.lowerOp.NotEq? {
      EqualRangesMean(c, p, lowerKey, upperKey, prefix, v, rest, key);
    } else {
      BoundedRangesMean(c, p, lowerKey, upperKey, prefix, v, rest, key);
    }
  }

  lemma EqualRangesMean(c: Clause, p: Bytes, lowerKey: Bytes, upperKey: Bytes, prefix: Bytes, v: Value, rest: Bytes, key: Bytes)
    requires FormedOne(c) && BoundsOf(c, p, lowerKey, upperKey, prefix) && (c.lowerOp.Eq? || c.lowerOp.NotEq?)
    requires Plain(v) && key == p + Encode(v) + rest
    ensures InSome(Ranges(lowerKey, upperKey, prefix, c.lowerOp, c.upperOp), key) <==> AcceptsOne(c, v)
  {
    hide Lex;
    hide Increment;
    hide Compare;
    hide Unterminated;
    hide Encode;
    var ranges := Ranges(lowerKey, upperKey, prefix, c.lowerOp, c.upperOp);
    KeyAgainst(p, v, rest, c.lowerVal, key, lowerKey);
    if c.lowerOp.Eq? {
      PrefixRange(lowerKey, key, 0);
      InOne(ranges, key);
    } else {
      EncodingNotMax(c.lowerVal);
      assert p <= key;
      KeyBehind(p, key);
      InTwo(ranges, key);
    }
  }

  lemma BoundedRangesMean(c: Clause, p: Bytes, lowerKey: Bytes, upperKey: Bytes, prefix: Bytes, v: Value, rest: Bytes, key: Bytes)
    requires FormedOne(c) && BoundsOf(c, p, lowerKey, upperKey, prefix) && !(c.lowerOp.Eq? || c.lowerOp.NotEq? || c.lowerOp.Prefix?)
    requires Plain(v) && key == p + Encode(v) + rest
    ensures InSome(Ranges(lowerKey, upperKey, prefix, c.lowerOp, c.upperOp), key) <==> AcceptsOne(c, v)
  {
    hide Lex;
    hide Increment;
    hide Compare;
    hide Unterminated;
    hide Encode;
    UpperMeans(c, p, upperKey, v, rest, key);
    InOne(Ranges(lowerKey, upperKey, prefix, c.lowerOp, c.upperOp), key);
    if c.lowerOp.NoOp? {
      LeastValue(p, v, rest, key);
    } else {
      KeyAgainst(p, v, rest, c.lowerVal, key, lowerKey);
    }
  }

  lemma InOne(ranges: seq<Range>, key: Bytes)
    requires |ranges| == 1
    ensures InSome(ranges, key) <==> Contains(ranges[0], key)
  {
  }

  lemma InTwo(ranges: seq<Range>, key: Bytes)
    requires |ranges| == 2
    ensures InSome(ranges, key) <==> Contains(ranges[0], key) || Contains(ranges[1], key)
  {
  }

  /** The encoding of an undefined value is below every value. */
  lemma LeastValue(p: Bytes, v: Value, rest: Bytes, key: Bytes)
    requires key == p + Encode(v) + rest
    ensures Lex(key, p + Encode(Undefined)) >= 0
  {
    EncodingStarts(v);
    var tail := Encode(v) + rest;
    assert key == p + tail;
    LexPrefix(p, tail, Encode(Undefined));
  }

  /** The ranges hold no key that does not begin with the leading values. */
  lemma RangesStay(c: Clause, p: Bytes, lowerKey: Bytes, upperKey: Bytes, prefix: Bytes, key: Bytes)
    requires FormedOne(c) && BoundsOf(c, p, lowerKey, upperKey, prefix)
    requires InSome(Ranges(lowerKey, upperKey, prefix, c.lowerOp, c.upperOp), key)
    ensures p <= key
  {
    hide Ranges;
    hide Within;
    var ranges := Ranges(lowerKey, upperKey, prefix, c.lowerOp, c.upperOp);
    var i :| 0 <= i < |ranges| && Contains(ranges[i], key);
    BoundsStay(c, p, lowerKey, upperKey, prefix);
    WithinStays(ranges[i], p, key);
  }

  lemma WithinStays(r: Range, p: Bytes, key: Bytes)
    requires Within(r, p) && Contains(r, key)
    ensures p <= key
  {
    if r.lower == [] {
      LexZero(p, []);
    } else {
      LexFlip(r.lower, key);
      LexTrans(p, r.lower, key);
    }
    LexFlip(p, key);
    if Increment(p) != [] {
      LexTrans(key, r.upper, Increment(p));
    }
    KeyBehind(p, key);
  }

  /** The bounds of every range lie between the leading values and their increment. */
  predicate Within(r: Range, p: Bytes) {
    && Lex(p, r.lower) <= 0 && (r.upper == [] || Lex(p, r.upper) <= 0)
    && (Increment(p) != [] ==> r.upper != [] && Lex(r.upper, Increment(p)) <= 0 && Lex(r.lower, Increment(p)) <= 0)
  }

  lemma ExtendedWithin(p: Bytes, e: Bytes)
    requires |e| > 0 && e[0] < BYTE_MAX
    ensures Lex(p, p + e) <= 0 && Lex(p, Increment(p + e)) <= 0 && p + e != [] && Increment(p + e) != []
    ensures Increment(p) != [] ==> Lex(p + e, Increment(p)) <= 0 && Lex(Increment(p + e), Increment(p)) <= 0
  {
    NoIncrement(e);
    IncrementTail(p, e);
    LexExtended(p, e);
    LexExtended(p, Increment(e));
    if Increment(p) != [] {
      IncrementAbove(p, p + e);
      IncrementAbove(p, p + Increment(e));
    }
  }

  lemma BoundsStay(c: Clause, p: Bytes, lowerKey: Bytes, upperKey: Bytes, prefix: Bytes)
    requires FormedOne(c) && BoundsOf(c, p, lowerKey, upperKey, prefix)
    ensures var ranges := Ranges(lowerKey, upperKey, prefix, c.lowerOp, c.upperOp);
      forall i :: 0 <= i < |ranges| ==> Within(ranges[i], p)
  {
    hide Lex;
    hide Increment;
    hide Encode;
    LexZero(p, p);
    LexZero(Increment(p), Increment(p));
    EncodingNotMax(c.lowerVal);
    ExtendedWithin(p, Encode(c.lowerVal));
    var upper := if c.upperOp.NoOp? then c.lowerVal else c.upperVal;
    EncodingNotMax(upper);
    ExtendedWithin(p, Encode(upper));
    if c.lowerOp.Prefix? {
      StemOf(p, c.lowerVal);
      ExtendedWithin(p, Unterminated(Encode(c.lowerVal)));
    }
    if Increment(p) != [] {
      IncrementAbove(p, p);
    }
  }
}
