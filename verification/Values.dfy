/** The object store's values, their order, and the byte keys they are written as. */
module Values {
  import opened Bytes

  datatype Maybe<T> = Nothing | Just(val: T)

  type Int64 = i: int | -0x8000_0000_0000_0000 <= i < 0x8000_0000_0000_0000

  datatype Value =
    | Undefined
    | Null
    | Obj(props: Props)
    | Arr(items: Items)
    | Str(s: Bytes)
    | Bool(b: bool)
    | Dec(rep: Int64)
    | Int(i: Int64)

  /** The properties of an object in the order of its sorted map. */
  datatype Props = NoProps | Prop(name: Bytes, val: Value, rest: Props)

  datatype Items = NoItems | Item(val: Value, rest: Items)

  // ---- the order of values ----

  /** The place of a value's type in the order of types. */
  function Rank(v: Value): nat {
    match v
    case Undefined => 0
    case Null => 1
    case Obj(_) => 2
    case Arr(_) => 3
    case Str(_) => 4
    case Bool(_) => 5
    case Dec(_) => 6
    case Int(_) => 7
  }

  /** A string as the C library sees it: up to its first NUL. */
  function CStr(s: Bytes): Bytes {
    if |s| == 0 || s[0] == 0 then [] else [s[0]] + CStr(s[1..])
  }

  function StrCmp(s: Bytes, t: Bytes): int { Lex(CStr(s), CStr(t)) }

  function Comp(a: int, b: int): int { if a < b then -1 else if b < a then 1 else 0 }

  function Compare(a: Value, b: Value): int {
    if Rank(a) != Rank(b) then Rank(a) - Rank(b)
    else match a
      case Undefined => 0
      case Null => 0
      case Obj(p) => CompareProps(p, b.props)
      case Arr(p) => CompareItems(p, b.items)
      case Str(s) => StrCmp(s, b.s)
      case Bool(x) => (if x then 1 else 0) - (if b.b then 1 else 0)
      case Dec(r) => Comp(r, b.rep)
      case Int(i) => Comp(i, b.i)
  }

  function CompareItems(p: Items, q: Items): int {
    if p.NoItems? then if q.NoItems? then 0 else -1
    else if q.NoItems? then 1
    else
      var c := Compare(p.val, q.val);
      if c != 0 then c else CompareItems(p.rest, q.rest)
  }

  /** Node by node: first the names, then the values. */
  function CompareProps(p: Props, q: Props): int {
    if p.NoProps? then if q.NoProps? then 0 else -1
    else if q.NoProps? then 1
    else
      var n := StrCmp(p.name, q.name);
      var c := if n != 0 then n else Compare(p.val, q.val);
      if c != 0 then c else CompareProps(p.rest, q.rest)
  }

  // ---- the encoding ----

  const OBJECT_END: Byte := 0
  const NULL_VALUE: Byte := 1
  const OBJECT_BEGIN: Byte := 2
  const ARRAY_BEGIN: Byte := 3
  const STRING_VALUE: Byte := 4
  const FALSE_VALUE: Byte := 5
  const TRUE_VALUE: Byte := 6
  const NEGATIVE_DECIMAL: Byte := 7
  const POSITIVE_DECIMAL: Byte := 8
  const NEGATIVE_INT: Byte := 9
  const ZERO_INT: Byte := 10
  const UINT8: Byte := 11
  const UINT16: Byte := 12
  const UINT32: Byte := 13
  const INT64: Byte := 14
  const EXTENSION: Byte := 15
  const TOKEN_START: Byte := 32

  /** Two's complement. */
  function Unsigned64(i: Int64): nat { if i < 0 then i + 0x1_0000_0000_0000_0000 else i }

  function Signed64(n: nat): Int64
    requires n < 0x1_0000_0000_0000_0000
  {
    if n < 0x8000_0000_0000_0000 then n else n - 0x1_0000_0000_0000_0000
  }

  function IntBytes(i: Int64): Bytes {
    if i < 0 then [NEGATIVE_INT] + BigEndian(Unsigned64(i), 8)
    else if i == 0 then [ZERO_INT]
    else if i <= 0xFF then [UINT8] + BigEndian(i, 1)
    else if i <= 0xFFFF then [UINT16] + BigEndian(i, 2)
    else if i <= 0xFFFF_FFFF then [UINT32] + BigEndian(i, 4)
    else [INT64] + BigEndian(Unsigned64(i), 8)
  }

  function DecimalBytes(rep: Int64): Bytes {
    [if rep < 0 then NEGATIVE_DECIMAL else POSITIVE_DECIMAL] + BigEndian(Unsigned64(rep), 8)
  }

  function StringBytes(s: Bytes): Bytes { [STRING_VALUE] + s + [0] }

  function Encode(v: Value): Bytes {
    match v
    case Undefined => [NULL_VALUE]
    case Null => [NULL_VALUE]
    case Obj(p) => [OBJECT_BEGIN] + EncodeProps(p)
    case Arr(p) => [ARRAY_BEGIN] + EncodeItems(p)
    case Str(s) => StringBytes(s)
    case Bool(b) => [if b then TRUE_VALUE else FALSE_VALUE]
    case Dec(r) => DecimalBytes(r)
    case Int(i) => IntBytes(i)
  }

  function EncodeItems(p: Items): Bytes {
    match p
    case NoItems => [OBJECT_END]
    case Item(v, rest) => Encode(v) + EncodeItems(rest)
  }

  function EncodeProps(p: Props): Bytes {
    match p
    case NoProps => [OBJECT_END]
    case Prop(name, v, rest) => StringBytes(name) + (Encode(v) + EncodeProps(rest))
  }

  // ---- what a value may hold ----

  predicate NulFree(s: Bytes) { 0 !in s }

  /** No undefined value and no NUL inside a string, at any depth. */
  predicate Plain(v: Value) {
    match v
    case Undefined => false
    case Obj(p) => PlainProps(p)
    case Arr(p) => PlainItems(p)
    case Str(s) => NulFree(s)
    case _ => true
  }

  predicate PlainItems(p: Items) {
    p.Item? ==> Plain(p.val) && PlainItems(p.rest)
  }

  predicate PlainProps(p: Props) {
    p.Prop? ==> NulFree(p.name) && Plain(p.val) && PlainProps(p.rest)
  }

  /** The properties of every object are in the order of their names. */
  predicate Sorted(v: Value) {
    match v
    case Obj(p) => SortedProps(p)
    case Arr(p) => SortedItems(p)
    case _ => true
  }

  predicate SortedItems(p: Items) { p.Item? ==> Sorted(p.val) && SortedItems(p.rest) }

  predicate SortedProps(p: Props) {
    p.Prop? ==> (p.rest.Prop? ==> StrCmp(p.name, p.rest.name) < 0) && Sorted(p.val) && SortedProps(p.rest)
  }

  predicate Defined(v: Value) {
    match v
    case Undefined => false
    case Obj(p) => DefinedProps(p)
    case Arr(p) => DefinedItems(p)
    case _ => true
  }

  predicate DefinedItems(p: Items) { p.Item? ==> Defined(p.val) && DefinedItems(p.rest) }

  predicate DefinedProps(p: Props) { p.Prop? ==> Defined(p.val) && DefinedProps(p.rest) }

  predicate NoNul(v: Value) {
    match v
    case Obj(p) => NoNulProps(p)
    case Arr(p) => NoNulItems(p)
    case Str(s) => NulFree(s)
    case _ => true
  }

  predicate NoNulItems(p: Items) { p.Item? ==> NoNul(p.val) && NoNulItems(p.rest) }

  predicate NoNulProps(p: Props) { p.Prop? ==> NulFree(p.name) && NoNul(p.val) && NoNulProps(p.rest) }

  /** The value with every undefined replaced by null. */
  function Norm(v: Value): Value {
    match v
    case Undefined => Null
    case Obj(p) => Obj(NormProps(p))
    case Arr(p) => Arr(NormItems(p))
    case _ => v
  }

  function NormItems(p: Items): Items {
    match p
    case NoItems => NoItems
    case Item(v, rest) => Item(Norm(v), NormItems(rest))
  }

  function NormProps(p: Props): Props {
    match p
    case NoProps => NoProps
    case Prop(name, v, rest) => Prop(name, Norm(v), NormProps(rest))
  }

  /** The value with every string cut at its first NUL. */
  function Cut(v: Value): Value {
    match v
    case Obj(p) => Obj(CutProps(p))
    case Arr(p) => Arr(CutItems(p))
    case Str(s) => Str(CStr(s))
    case _ => v
  }

  function CutItems(p: Items): Items {
    match p
    case NoItems => NoItems
    case Item(v, rest) => Item(Cut(v), CutItems(rest))
  }

  function CutProps(p: Props): Props {
    match p
    case NoProps => NoProps
    case Prop(name, v, rest) => Prop(CStr(name), Cut(v), CutProps(rest))
  }
}
