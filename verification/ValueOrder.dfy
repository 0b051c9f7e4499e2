/** The byte order of the encodings is the order of the values. */
module ValueOrder {
  import opened Bytes
  import opened Values

  /** The strings compare as `c` says, whatever follows them. */
  predicate Agrees(c: int, s: Bytes, t: Bytes) {
    if c < 0 then Under(s, t) else if c > 0 then Under(t, s) else s == t
  }

  lemma AgreesThen(c: int, s: Bytes, t: Bytes, c': int, s': Bytes, t': Bytes)
    requires Agrees(c, s, t) && Agrees(c', s', t')
    ensures Agrees(if c != 0 then c else c', s + s', t + t')
  {
    if c < 0 { UnderExtended(s, t, s', t'); }
    if c > 0 { UnderExtended(t, s, t', s'); }
    if c == 0 && c' < 0 { UnderAfter(s, s', t'); }
    if c == 0 && c' > 0 { UnderAfter(s, t', s'); }
  }

  lemma AgreesAfter(p: Bytes, c: int, s: Bytes, t: Bytes)
    requires Agrees(c, s, t)
    ensures Agrees(c, p + s, p + t)
  {
    AgreesThen(0, p, p, c, s, t);
  }

  lemma CStrPlain(s: Bytes)
    requires NulFree(s)
    ensures CStr(s) == s
  {
  }

  lemma StringsAgree(s: Bytes, t: Bytes)
    requires NulFree(s) && NulFree(t)
    ensures Agrees(StrCmp(s, t), s + [0], t + [0])
    ensures Agrees(StrCmp(s, t), StringBytes(s), StringBytes(t))
    ensures StrCmp(s, t) == 0 ==> s == t
  {
    CStrPlain(s);
    CStrPlain(t);
    TerminatedAgree(s, t);
    LexZero(s, t);
    AgreesAfter([STRING_VALUE], StrCmp(s, t), s + [0], t + [0]);
    assert [STRING_VALUE] + (s + [0]) == StringBytes(s) && [STRING_VALUE] + (t + [0]) == StringBytes(t);
  }

  lemma TerminatedAgree(s: Bytes, t: Bytes)
    requires NulFree(s) && NulFree(t)
    ensures Agrees(Lex(s, t), s + [0], t + [0])
  {
    if |s| > 0 && |t| > 0 && s[0] == t[0] {
      TerminatedAgree(s[1..], t[1..]);
      AgreesAfter([s[0]], Lex(s, t), s[1..] + [0], t[1..] + [0]);
      assert [s[0]] + (s[1..] + [0]) == s + [0] && [t[0]] + (t[1..] + [0]) == t + [0];
    }
  }

  lemma NumbersAgree(n: nat, m: nat, w: nat)
    requires n < Pow256(w) && m < Pow256(w)
    ensures Agrees(Comp(n, m), BigEndian(n, w), BigEndian(m, w))
  {
    if n < m { BigEndianOrder(n, m, w); }
    if m < n { BigEndianOrder(m, n, w); }
  }

  lemma IntsAgree(i: Int64, j: Int64)
    ensures Agrees(Comp(i, j), IntBytes(i), IntBytes(j))
  {
    PowersOf256();
    if IntBytes(i)[0] == IntBytes(j)[0] {
      var w := |IntBytes(i)| - 1;
      if i != 0 {
        NumbersAgree(Unsigned64(i), Unsigned64(j), w);
        AgreesAfter([IntBytes(i)[0]], Comp(i, j), BigEndian(Unsigned64(i), w), BigEndian(Unsigned64(j), w));
      }
    }
  }

  /** An integer that is not negative takes the fewest bytes of none, one, two, four or eight behind its marker. */
  lemma LeastWidth(i: Int64)
    ensures |IntBytes(i)| == 1 <==> i == 0
    ensures |IntBytes(i)| <= 2 <==> 0 <= i < 0x100
    ensures |IntBytes(i)| <= 3 <==> 0 <= i < 0x1_0000
    ensures |IntBytes(i)| <= 5 <==> 0 <= i < 0x1_0000_0000
    ensures |IntBytes(i)| <= 9
  {
  }

  /** One value of each kind, byte by byte. */
  lemma Marked()
    ensures Encode(Obj(Prop([0x61], Null, NoProps))) == [2, 4, 0x61, 0, 1, 0]
    ensures Encode(Arr(Item(Bool(false), Item(Bool(true), NoItems)))) == [3, 5, 6, 0]
    ensures Encode(Int(0)) == [10] && Encode(Int(7)) == [11, 7] && Encode(Int(300)) == [12, 1, 44]
    ensures Encode(Int(0x1_0000))[0] == 13 && Encode(Int(0x1_0000_0000))[0] == 14 && Encode(Int(-2))[0] == 9
    ensures Encode(Dec(5))[0] == 8 && Encode(Dec(-1))[0] == 7
  {
  }


  lemma DecimalsAgree(r: Int64, q: Int64)
    ensures Agrees(Comp(r, q), DecimalBytes(r), DecimalBytes(q))
  {
    PowersOf256();
    if (r < 0) == (q < 0) {
      NumbersAgree(Unsigned64(r), Unsigned64(q), 8);
      AgreesAfter([DecimalBytes(r)[0]], Comp(r, q), BigEndian(Unsigned64(r), 8), BigEndian(Unsigned64(q), 8));
    }
  }

  lemma EncodingStarts(v: Value)
    ensures |Encode(v)| > 0 && Encode(v)[0] > 0
  {
  }

  /** Values of different types are told apart by their first byte. */
  lemma TypesAgree(a: Value, b: Value)
    requires Rank(a) < Rank(b) && !a.Undefined?
    ensures Under(Encode(a), Encode(b))
  {
  }

  lemma {:induction false} EncodingAgrees(a: Value, b: Value)
    requires Plain(a) && Plain(b)
    ensures Agrees(Compare(a, b), Encode(a), Encode(b))
    ensures Compare(a, b) == 0 ==> a == b
  {
    if Rank(a) < Rank(b) {
      TypesAgree(a, b);
    } else if Rank(b) < Rank(a) {
      TypesAgree(b, a);
    } else {
      match a
      case Null =>
      case Obj(p) =>
        PropsAgree(p, b.props);
        AgreesAfter([OBJECT_BEGIN], CompareProps(p, b.props), EncodeProps(p), EncodeProps(b.props));
      case Arr(p) =>
        ItemsAgree(p, b.items);
        AgreesAfter([ARRAY_BEGIN], CompareItems(p, b.items), EncodeItems(p), EncodeItems(b.items));
      case Str(s) => StringsAgree(s, b.s);
      case Bool(_) =>
      case Dec(r) => DecimalsAgree(r, b.rep);
      case Int(i) => IntsAgree(i, b.i);
    }
  }

  lemma {:induction false} ItemsAgree(p: Items, q: Items)
    requires PlainItems(p) && PlainItems(q)
    ensures Agrees(CompareItems(p, q), EncodeItems(p), EncodeItems(q))
    ensures CompareItems(p, q) == 0 ==> p == q
  {
    if p.Item? { EncodingStarts(p.val); }
    if q.Item? { EncodingStarts(q.val); }
    if p.Item? && q.Item? {
      EncodingAgrees(p.val, q.val);
      ItemsAgree(p.rest, q.rest);
      AgreesThen(Compare(p.val, q.val), Encode(p.val), Encode(q.val),
                 CompareItems(p.rest, q.rest), EncodeItems(p.rest), EncodeItems(q.rest));
    }
  }

  lemma {:induction false} PropsAgree(p: Props, q: Props)
    requires PlainProps(p) && PlainProps(q)
    ensures Agrees(CompareProps(p, q), EncodeProps(p), EncodeProps(q))
    ensures CompareProps(p, q) == 0 ==> p == q
  {
    if p.Prop? && q.Prop? {
      StringsAgree(p.name, q.name);
      EncodingAgrees(p.val, q.val);
      PropsAgree(p.rest, q.rest);
      var n, c := StrCmp(p.name, q.name), Compare(p.val, q.val);
      AgreesThen(c, Encode(p.val), Encode(q.val), CompareProps(p.rest, q.rest), EncodeProps(p.rest), EncodeProps(q.rest));
      AgreesThen(n, StringBytes(p.name), StringBytes(q.name), if c != 0 then c else CompareProps(p.rest, q.rest),
                 Encode(p.val) + EncodeProps(p.rest), Encode(q.val) + EncodeProps(q.rest));
    }
  }

  // ---- what follows for keys ----

  /** Comparing two encodings byte by byte gives the comparison of the values. */
  lemma OrderEmbedding(a: Value, b: Value)
    requires Plain(a) && Plain(b)
    ensures Sign(Lex(Encode(a), Encode(b))) == Sign(Compare(a, b))
  {
    EncodingAgrees(a, b);
    LexZero(Encode(a), Encode(b));
    if Compare(a, b) < 0 { UnderIsBelow(Encode(a), Encode(b)); }
    if Compare(a, b) > 0 { UnderIsBelow(Encode(b), Encode(a)); }
  }

  /** No encoding begins another one. */
  lemma PrefixFree(a: Value, b: Value)
    requires Plain(a) && Plain(b) && Encode(a) <= Encode(b)
    ensures a == b
  {
    EncodingAgrees(a, b);
    PrefixNotUnder(Encode(a), Encode(b));
  }

  // ---- both conditions are needed ----

  /** Every value that holds an undefined is told from the same value with nulls by the
      comparison, but not by the encoding. */
  lemma {:induction false} UndefinedBreaksOrder(v: Value)
    requires !Defined(v)
    ensures Compare(v, Norm(v)) < 0 && Encode(v) == Encode(Norm(v))
  {
    NormEncodes(v);
    match v
    case Undefined =>
    case Obj(p) => UndefinedProps(p);
    case Arr(p) => UndefinedItems(p);
  }

  lemma {:induction false} UndefinedItems(p: Items)
    requires !DefinedItems(p)
    ensures CompareItems(p, NormItems(p)) < 0
  {
    if Defined(p.val) {
      DefinedIsNorm(p.val);
      CompareSelf(p.val);
      UndefinedItems(p.rest);
    } else {
      UndefinedBreaksOrder(p.val);
    }
  }

  lemma {:induction false} UndefinedProps(p: Props)
    requires !DefinedProps(p)
    ensures CompareProps(p, NormProps(p)) < 0
  {
    LexZero(CStr(p.name), CStr(p.name));
    if Defined(p.val) {
      DefinedIsNorm(p.val);
      CompareSelf(p.val);
      UndefinedProps(p.rest);
    } else {
      UndefinedBreaksOrder(p.val);
    }
  }

  lemma NormEncodes(v: Value)
    ensures Encode(Norm(v)) == Encode(v)
  {
    match v
    case Obj(p) => NormEncodesProps(p);
    case Arr(p) => NormEncodesItems(p);
    case _ =>
  }

  lemma NormEncodesItems(p: Items)
    ensures EncodeItems(NormItems(p)) == EncodeItems(p)
  {
    if p.Item? { NormEncodes(p.val); NormEncodesItems(p.rest); }
  }

  lemma NormEncodesProps(p: Props)
    ensures EncodeProps(NormProps(p)) == EncodeProps(p)
  {
    if p.Prop? { NormEncodes(p.val); NormEncodesProps(p.rest); }
  }

  lemma DefinedIsNorm(v: Value)
    requires Defined(v)
    ensures Norm(v) == v
  {
    match v
    case Obj(p) => DefinedIsNormProps(p);
    case Arr(p) => DefinedIsNormItems(p);
    case _ =>
  }

  lemma DefinedIsNormItems(p: Items)
    requires DefinedItems(p)
    ensures NormItems(p) == p
  {
    if p.Item? { DefinedIsNorm(p.val); DefinedIsNormItems(p.rest); }
  }

  lemma DefinedIsNormProps(p: Props)
    requires DefinedProps(p)
    ensures NormProps(p) == p
  {
    if p.Prop? { DefinedIsNorm(p.val); DefinedIsNormProps(p.rest); }
  }

  lemma CompareSelf(v: Value)
    ensures Compare(v, v) == 0
  {
    match v
    case Obj(p) => ComparePropsSelf(p);
    case Arr(p) => CompareItemsSelf(p);
    case Str(s) => LexZero(CStr(s), CStr(s));
    case _ =>
  }

  lemma CompareItemsSelf(p: Items)
    ensures CompareItems(p, p) == 0
  {
    if p.Item? { CompareSelf(p.val); CompareItemsSelf(p.rest); }
  }

  lemma ComparePropsSelf(p: Props)
    ensures CompareProps(p, p) == 0
  {
    if p.Prop? { LexZero(CStr(p.name), CStr(p.name)); CompareSelf(p.val); ComparePropsSelf(p.rest); }
  }

  /** Every value that holds a NUL inside a string compares equal to the value with its strings
      cut there, but has another, longer encoding. */
  lemma NulBreaksOrder(v: Value)
    ensures Compare(v, Cut(v)) == 0
    ensures |Encode(Cut(v))| <= |Encode(v)|
    ensures !NoNul(v) ==> |Encode(Cut(v))| < |Encode(v)|
  {
    match v
    case Obj(p) => NulProps(p);
    case Arr(p) => NulItems(p);
    case Str(s) => CutString(s);
    case _ =>
  }

  lemma NulItems(p: Items)
    ensures CompareItems(p, CutItems(p)) == 0 && |EncodeItems(CutItems(p))| <= |EncodeItems(p)|
    ensures !NoNulItems(p) ==> |EncodeItems(CutItems(p))| < |EncodeItems(p)|
  {
    if p.Item? { NulBreaksOrder(p.val); NulItems(p.rest); }
  }

  lemma NulProps(p: Props)
    ensures CompareProps(p, CutProps(p)) == 0 && |EncodeProps(CutProps(p))| <= |EncodeProps(p)|
    ensures !NoNulProps(p) ==> |EncodeProps(CutProps(p))| < |EncodeProps(p)|
  {
    if p.Prop? { CutString(p.name); NulBreaksOrder(p.val); NulProps(p.rest); }
  }

  lemma CutString(s: Bytes)
    ensures StrCmp(s, CStr(s)) == 0 && |CStr(s)| <= |s| && (!NulFree(s) ==> |CStr(s)| < |s|)
  {
    CStrNulFree(s);
    CStrPlain(CStr(s));
    LexZero(CStr(s), CStr(s));
  }

  lemma CStrNulFree(s: Bytes)
    ensures NulFree(CStr(s)) && |CStr(s)| <= |s| && (!NulFree(s) ==> |CStr(s)| < |s|)
  {
  }

  lemma PlainParts(v: Value)
    ensures Plain(v) <==> Defined(v) && NoNul(v)
  {
    match v
    case Obj(p) => PlainPropsParts(p);
    case Arr(p) => PlainItemsParts(p);
    case _ =>
  }

  lemma PlainItemsParts(p: Items)
    ensures PlainItems(p) <==> DefinedItems(p) && NoNulItems(p)
  {
    if p.Item? { PlainParts(p.val); PlainItemsParts(p.rest); }
  }

  lemma PlainPropsParts(p: Props)
    ensures PlainProps(p) <==> DefinedProps(p) && NoNulProps(p)
  {
    if p.Prop? { PlainParts(p.val); PlainPropsParts(p.rest); }
  }

  /** The bytes of `v` and `w` compare as the values do. */
  predicate OrderKept(v: Value, w: Value) {
    Sign(Lex(Encode(v), Encode(w))) == Sign(Compare(v, w))
  }

  /** A value is plain exactly when the encoding keeps its order against every plain value and
      against its own two normal forms. */
  lemma PlainExactly(v: Value)
    ensures Plain(v) <==> OrderKept(v, Norm(v)) && OrderKept(v, Cut(v)) && forall w | Plain(w) :: OrderKept(v, w)
  {
    PlainParts(v);
    if Plain(v) {
      DefinedIsNorm(v);
      NulBreaksOrder(v);
      CutIsSame(v);
      forall w | Plain(w) ensures OrderKept(v, w) { OrderEmbedding(v, w); }
      OrderEmbedding(v, v);
    } else if !Defined(v) {
      UndefinedBreaksOrder(v);
      LexZero(Encode(v), Encode(Norm(v)));
    } else {
      NulBreaksOrder(v);
      LexZero(Encode(v), Encode(Cut(v)));
    }
  }

  lemma CutIsSame(v: Value)
    requires NoNul(v)
    ensures Cut(v) == v
  {
    match v
    case Obj(p) => CutPropsSame(p);
    case Arr(p) => CutItemsSame(p);
    case Str(s) => CStrPlain(s);
    case _ =>
  }

  lemma CutItemsSame(p: Items)
    requires NoNulItems(p)
    ensures CutItems(p) == p
  {
    if p.Item? { CutIsSame(p.val); CutItemsSame(p.rest); }
  }

  lemma CutPropsSame(p: Props)
    requires NoNulProps(p)
    ensures CutProps(p) == p
  {
    if p.Prop? { CStrPlain(p.name); CutIsSame(p.val); CutPropsSame(p.rest); }
  }
}
