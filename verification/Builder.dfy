/** The builder: a visitor that rebuilds the value its events come from. */
module Builder {
  import opened Bytes
  import opened Values
  import opened Events

  // ---- containers ----

  /** A property joins its map, in the order of names; an equal name is replaced. */
  function PutProp(p: Props, name: Bytes, val: Value): Props {
    match p
    case NoProps => Prop(name, val, NoProps)
    case Prop(n, v, rest) =>
      var c := StrCmp(name, n);
      if c < 0 then Prop(name, val, p) else if c == 0 then Prop(name, val, rest) else Prop(n, v, PutProp(rest, name, val))
  }

  function PushItem(p: Items, val: Value): Items {
    match p
    case NoItems => Item(val, NoItems)
    case Item(v, rest) => Item(v, PushItem(rest, val))
  }

  // ---- what the builder holds ----

  datatype Frame = Frame(obj: Value, name: Bytes)

  /** The containers begun, innermost last, each with the name it is to be put under. */
  datatype Building = Building(frames: seq<Frame>, obj: Value, name: Bytes)

  predicate Sane(b: Building) {
    forall i :: 0 <= i < |b.frames| ==> b.frames[i].obj.Obj? || b.frames[i].obj.Arr?
  }

  function Added(obj: Value, name: Bytes, val: Value): Value
    requires obj.Obj? || obj.Arr?
  {
    if obj.Obj? then Obj(PutProp(obj.props, name, val)) else Arr(PushItem(obj.items, val))
  }

  /** A whole value goes into the innermost container, or is the result. */
  function Place(b: Building, val: Value): (b': Building)
    requires Sane(b)
    ensures Sane(b')
  {
    if |b.frames| == 0 then b.(obj := val)
    else
      var top := b.frames[|b.frames| - 1];
      b.(frames := b.frames[..|b.frames| - 1] + [top.(obj := Added(top.obj, b.name, val))])
  }

  function Push(b: Building, empty: Value): (b': Building)
    requires Sane(b) && (empty.Obj? || empty.Arr?)
    ensures Sane(b')
  {
    b.(frames := b.frames + [Frame(empty, b.name)])
  }

  function Pop(b: Building): (b': Building)
    requires Sane(b) && |b.frames| > 0
    ensures Sane(b')
  {
    var top := b.frames[|b.frames| - 1];
    Place(Building(b.frames[..|b.frames| - 1], b.obj, top.name), top.obj)
  }

  /** The containers open before an event can be taken, and behind it. */
  function Opened(open: nat, e: Event): int {
    if e.BeginObject? || e.BeginArray? then open + 1 else if e.EndObject? || e.EndArray? then open - 1 else open
  }

  function Take(b: Building, e: Event): (b': Building)
    requires Sane(b) && Opened(|b.frames|, e) >= 0
    ensures Sane(b') && |b'.frames| == Opened(|b.frames|, e)
  {
    match e
    case BeginObject => Push(b, Obj(NoProps))
    case EndObject => Pop(b)
    case BeginArray => Push(b, Arr(NoItems))
    case EndArray => Pop(b)
    case PropName(n) => b.(name := n)
    case NullValue => Place(b, Null)
    case BoolValue(x) => Place(b, Bool(x))
    case IntValue(i) => Place(b, Int(i))
    case DecimalValue(r) => Place(b, Dec(r))
    case StringValue(s) => Place(b, Str(s))
  }

  predicate Balanced(open: nat, es: seq<Event>)
    decreases |es|
  {
    |es| > 0 ==> Opened(open, es[0]) >= 0 && Balanced(Opened(open, es[0]), es[1..])
  }

  function TakeAll(b: Building, es: seq<Event>): (b': Building)
    requires Sane(b) && Balanced(|b.frames|, es)
    ensures Sane(b')
    decreases |es|
  {
    if |es| == 0 then b else TakeAll(Take(b, es[0]), es[1..])
  }

  lemma {:induction false} TakeConcat(b: Building, x: seq<Event>, y: seq<Event>)
    requires Sane(b) && Balanced(|b.frames|, x) && Balanced(|TakeAll(b, x).frames|, y)
    ensures Balanced(|b.frames|, x + y) && TakeAll(b, x + y) == TakeAll(TakeAll(b, x), y)
    decreases |x|
  {
    hide Take;
    hide Opened;
    hide Sane;
    if |x| == 0 {
      assert x + y == y;
    } else {
      TakeConcat(Take(b, x[0]), x[1..], y);
      assert (x + y)[1..] == x[1..] + y;
    }
  }

  // ---- a visit rebuilds the value ----

  /** What the visit of a value builds: its properties are put one after another into a sorted map. */
  function Rebuilt(v: Value): Value {
    match v
    case Undefined => Null
    case Obj(p) => Obj(PutAll(NoProps, p))
    case Arr(p) => Arr(PushAll(NoItems, p))
    case _ => v
  }

  function PutAll(acc: Props, p: Props): Props
    decreases p
  {
    match p
    case NoProps => acc
    case Prop(name, v, rest) => PutAll(PutProp(acc, name, Rebuilt(v)), rest)
  }

  function PushAll(acc: Items, p: Items): Items
    decreases p
  {
    match p
    case NoItems => acc
    case Item(v, rest) => PushAll(PushItem(acc, Rebuilt(v)), rest)
  }

  function LastName(p: Props, name: Bytes): Bytes {
    match p
    case NoProps => name
    case Prop(n, _, rest) => LastName(rest, n)
  }

  /** The builder with another value as its innermost container. */
  function WithTop(b: Building, obj: Value, name: Bytes): Building
    requires |b.frames| > 0
  {
    var n := |b.frames| - 1;
    Building(b.frames[..n] + [Frame(obj, b.frames[n].name)], b.obj, name)
  }

  function Top(b: Building): Value
    requires |b.frames| > 0
  {
    b.frames[|b.frames| - 1].obj
  }

  predicate Builds(b: Building, es: seq<Event>, b': Building) {
    Sane(b) && Balanced(|b.frames|, es) && TakeAll(b, es) == b'
  }

  lemma BuildsThen(b: Building, x: seq<Event>, b1: Building, y: seq<Event>, b2: Building)
    requires Builds(b, x, b1) && Builds(b1, y, b2)
    ensures Builds(b, x + y, b2)
  {
    TakeConcat(b, x, y);
  }

  lemma BuildsOne(b: Building, e: Event)
    requires Sane(b) && Opened(|b.frames|, e) >= 0
    ensures Builds(b, [e], Take(b, e))
  {
    assert [e][1..] == [];
  }

  lemma BuildsContainer(b: Building, open: Event, inner: seq<Event>, close: Event, empty: Value, full: Value, name: Bytes)
    requires Sane(b) && (empty.Obj? || empty.Arr?) && (full.Obj? || full.Arr?)
    requires (open.BeginObject? && empty == Obj(NoProps)) || (open.BeginArray? && empty == Arr(NoItems))
    requires close.EndObject? || close.EndArray?
    requires Builds(Push(b, empty), inner, WithTop(Push(b, empty), full, name))
    ensures Builds(b, [open] + inner + [close], Place(b, full))
  {
    var pushed := Push(b, empty);
    var filled := WithTop(pushed, full, name);
    BuildsOne(b, open);
    BuildsThen(b, [open], pushed, inner, filled);
    assert filled.frames[..|b.frames|] == b.frames && Building(b.frames, b.obj, b.name) == b;
    BuildsOne(filled, close);
    BuildsThen(b, [open] + inner, filled, [close], Place(b, full));
  }

  lemma {:induction false} VisitBuilds(v: Value, b: Building)
    requires Sane(b)
    ensures Builds(b, Visit(v), Place(b, Rebuilt(v)))
  {
    match v
    case Obj(p) =>
      var pushed := Push(b, Obj(NoProps));
      PropsBuild(p, NoProps, pushed);
      BuildsContainer(b, BeginObject, VisitProps(p), EndObject, Obj(NoProps), Obj(PutAll(NoProps, p)), LastName(p, pushed.name));
    case Arr(p) =>
      var pushed := Push(b, Arr(NoItems));
      ItemsBuild(p, NoItems, pushed);
      BuildsContainer(b, BeginArray, VisitItems(p), EndArray, Arr(NoItems), Arr(PushAll(NoItems, p)), pushed.name);
    case _ => BuildsOne(b, Visit(v)[0]);
  }

  lemma {:induction false} PropsBuild(p: Props, acc: Props, b: Building)
    requires Sane(b) && |b.frames| > 0 && Top(b) == Obj(acc)
    ensures Builds(b, VisitProps(p), WithTop(b, Obj(PutAll(acc, p)), LastName(p, b.name)))
  {
    match p
    case NoProps => assert WithTop(b, Top(b), b.name) == b;
    case Prop(name, v, rest) =>
      var named := b.(name := name);
      BuildsOne(b, PropName(name));
      VisitBuilds(v, named);
      var placed := Place(named, Rebuilt(v));
      BuildsThen(b, [PropName(name)], named, Visit(v), placed);
      PropsBuild(rest, PutProp(acc, name, Rebuilt(v)), placed);
      var done := WithTop(b, Obj(PutAll(acc, p)), LastName(p, b.name));
      assert WithTop(placed, Obj(PutAll(acc, p)), LastName(rest, name)) == done;
      BuildsThen(b, [PropName(name)] + Visit(v), placed, VisitProps(rest), done);
  }

  lemma {:induction false} ItemsBuild(p: Items, acc: Items, b: Building)
    requires Sane(b) && |b.frames| > 0 && Top(b) == Arr(acc)
    ensures Builds(b, VisitItems(p), WithTop(b, Arr(PushAll(acc, p)), b.name))
  {
    match p
    case NoItems => assert WithTop(b, Top(b), b.name) == b;
    case Item(v, rest) =>
      VisitBuilds(v, b);
      var placed := Place(b, Rebuilt(v));
      ItemsBuild(rest, PushItem(acc, Rebuilt(v)), placed);
      var done := WithTop(b, Arr(PushAll(acc, p)), b.name);
      assert WithTop(placed, Arr(PushAll(acc, p)), b.name) == done;
      BuildsThen(b, Visit(v), placed, VisitItems(rest), done);
  }

  // ---- of equal names the last one is kept, and the names ascend ----

  /** The last property of a name. */
  function LastOf(p: Props, name: Bytes): Maybe<(Bytes, Value)> {
    match p
    case NoProps => Nothing
    case Prop(n, v, rest) =>
      if LastOf(rest, name).Just? then LastOf(rest, name) else if CStr(n) == CStr(name) then Just((n, v)) else Nothing
  }

  /** The names of a map, each below the next. */
  predicate Ascends(p: Props) {
    p.Prop? ==> (p.rest.Prop? ==> StrCmp(p.name, p.rest.name) < 0) && Ascends(p.rest)
  }

  /** A property is put in its place, and in place of one of the same name. */
  lemma {:induction false} PutMeans(p: Props, name: Bytes, val: Value, other: Bytes)
    requires Ascends(p)
    ensures Ascends(PutProp(p, name, val)) && PutProp(p, name, val).Prop?
    ensures PutProp(p, name, val).name == if p.NoProps? || StrCmp(name, p.name) <= 0 then name else p.name
    ensures LastOf(PutProp(p, name, val), other) == if CStr(other) == CStr(name) then Just((name, val)) else LastOf(p, other)
  {
    if p.Prop? {
      LexZero(CStr(name), CStr(p.name));
      LexFlip(CStr(name), CStr(p.name));
      PutMeans(p.rest, name, val, other);
      if StrCmp(name, p.name) <= 0 {
        NotAbove(p, name);
      }
    }
  }

  /** A name below the first is none of a map, and one that equals the first is none of the rest. */
  lemma {:induction false} NotAbove(p: Props, name: Bytes)
    requires Ascends(p) && p.Prop? && StrCmp(name, p.name) <= 0
    ensures LastOf(p.rest, name) == Nothing && (StrCmp(name, p.name) < 0 ==> LastOf(p, name) == Nothing)
    ensures p.rest.Prop? ==> StrCmp(name, p.rest.name) < 0
  {
    LexZero(CStr(name), CStr(p.name));
    if p.rest.Prop? {
      if StrCmp(name, p.name) < 0 {
        LexTrans(CStr(name), CStr(p.name), CStr(p.rest.name));
      }
      NotAbove(p.rest, name);
    }
  }

  /** Properties put into a map: of each name the last one is there, rebuilt, or else the one that was there. */
  lemma {:induction false} PutAllMeans(acc: Props, p: Props, name: Bytes)
    requires Ascends(acc)
    ensures Ascends(PutAll(acc, p))
    ensures LastOf(PutAll(acc, p), name) ==
      match LastOf(p, name) case Nothing => LastOf(acc, name) case Just((n, v)) => Just((n, Rebuilt(v)))
    decreases p
  {
    match p
    case NoProps =>
    case Prop(n, v, rest) =>
      PutMeans(acc, n, Rebuilt(v), name);
      PutAllMeans(PutProp(acc, n, Rebuilt(v)), rest, name);
  }

  // ---- sorted properties are put at the end ----

  function Joined(a: Props, p: Props): Props {
    match a
    case NoProps => p
    case Prop(n, v, rest) => Prop(n, v, Joined(rest, p))
  }

  predicate AllBelow(a: Props, name: Bytes) {
    a.Prop? ==> StrCmp(a.name, name) < 0 && AllBelow(a.rest, name)
  }

  lemma {:induction false} BelowLater(a: Props, name: Bytes, later: Bytes)
    requires AllBelow(a, name) && StrCmp(name, later) < 0
    ensures AllBelow(a, later)
  {
    if a.Prop? {
      LexTrans(CStr(a.name), CStr(name), CStr(later));
      BelowLater(a.rest, name, later);
    }
  }

  lemma {:induction false} PutPropAppends(a: Props, name: Bytes, val: Value)
    requires AllBelow(a, name)
    ensures PutProp(a, name, val) == Joined(a, Prop(name, val, NoProps))
  {
    if a.Prop? {
      LexFlip(CStr(a.name), CStr(name));
      PutPropAppends(a.rest, name, val);
    }
  }

  lemma {:induction false} JoinedBelow(a: Props, p: Props, name: Bytes)
    ensures AllBelow(Joined(a, p), name) <==> AllBelow(a, name) && AllBelow(p, name)
  {
    if a.Prop? {
      JoinedBelow(a.rest, p, name);
    }
  }

  lemma {:induction false} JoinedAssoc(a: Props, name: Bytes, val: Value, p: Props)
    ensures Joined(Joined(a, Prop(name, val, NoProps)), p) == Joined(a, Prop(name, val, p))
  {
    if a.Prop? {
      JoinedAssoc(a.rest, name, val, p);
    }
  }

  /** What is sorted is rebuilt as it is, with null for undefined. */
  lemma {:induction false} SortedRebuilt(v: Value)
    requires Sorted(v)
    ensures Rebuilt(v) == Norm(v)
  {
    match v
    case Obj(p) => SortedPutAll(NoProps, p);
    case Arr(p) => PushAllAppends(NoItems, p);
    case _ =>
  }

  lemma {:induction false} SortedPutAll(acc: Props, p: Props)
    requires SortedProps(p) && (p.Prop? ==> AllBelow(acc, p.name))
    ensures PutAll(acc, p) == Joined(acc, NormProps(p))
    decreases p
  {
    match p
    case NoProps => JoinedNone(acc);
    case Prop(name, v, rest) =>
      SortedRebuilt(v);
      PutPropAppends(acc, name, Norm(v));
      var more := Joined(acc, Prop(name, Norm(v), NoProps));
      if rest.Prop? {
        BelowLater(acc, name, rest.name);
        JoinedBelow(acc, Prop(name, Norm(v), NoProps), rest.name);
      }
      SortedPutAll(more, rest);
      JoinedAssoc(acc, name, Norm(v), NormProps(rest));
  }

  lemma {:induction false} JoinedNone(a: Props)
    ensures Joined(a, NoProps) == a
  {
    if a.Prop? {
      JoinedNone(a.rest);
    }
  }

  function Followed(a: Items, p: Items): Items {
    match a
    case NoItems => p
    case Item(v, rest) => Item(v, Followed(rest, p))
  }

  lemma {:induction false} PushItemAppends(a: Items, val: Value, p: Items)
    ensures Followed(PushItem(a, val), p) == Followed(a, Item(val, p))
  {
    if a.Item? {
      PushItemAppends(a.rest, val, p);
    }
  }

  lemma {:induction false} PushAllAppends(acc: Items, p: Items)
    requires SortedItems(p)
    ensures PushAll(acc, p) == Followed(acc, NormItems(p))
    decreases p
  {
    match p
    case NoItems => FollowedNone(acc);
    case Item(v, rest) =>
      SortedRebuilt(v);
      PushAllAppends(PushItem(acc, Norm(v)), rest);
      PushItemAppends(acc, Norm(v), NormItems(rest));
  }

  lemma {:induction false} FollowedNone(a: Items)
    ensures Followed(a, NoItems) == a
  {
    if a.Item? {
      FollowedNone(a.rest);
    }
  }

  // ---- the builder as it runs ----

  class ObjectBuilder {
    var stack: seq<Frame>
    var obj: Value
    var propName: Bytes

    function State(): Building
      reads this
    {
      Building(stack, obj, propName)
    }

    ghost predicate Valid()
      reads this
    {
      Sane(State())
    }

    constructor ()
      ensures Valid() && State() == Building([], Undefined, [])
    {
      stack, obj, propName := [], Undefined, [];
    }

    method Reset()
      modifies this
      ensures Valid() && State() == Building([], Undefined, [])
    {
      stack, obj, propName := [], Undefined, [];
    }

    /** A value joins the innermost container. */
    method PlaceValue(val: Value)
      requires Valid()
      modifies this
      ensures Valid() && State() == Place(old(State()), val)
    {
      if |stack| == 0 {
        obj := val;
      } else {
        var top := stack[|stack| - 1];
        if top.obj.Obj? {
          top := top.(obj := Obj(PutProp(top.obj.props, propName, val)));
        } else {
          top := top.(obj := Arr(PushItem(top.obj.items, val)));
        }
        stack := stack[..|stack| - 1] + [top];
      }
    }

    method PopFrame()
      requires Valid() && |stack| > 0
      modifies this
      ensures Valid() && State() == Pop(old(State()))
    {
      var rec := stack[|stack| - 1];
      propName := rec.name;
      stack := stack[..|stack| - 1];
      PlaceValue(rec.obj);
    }

    /** One event of a visit. */
    method Visit(e: Event)
      requires Valid() && Opened(|stack|, e) >= 0
      modifies this
      ensures Valid() && State() == Take(old(State()), e)
    {
      match e
      case BeginObject => stack := stack + [Frame(Obj(NoProps), propName)];
      case EndObject => PopFrame();
      case BeginArray => stack := stack + [Frame(Arr(NoItems), propName)];
      case EndArray => PopFrame();
      case PropName(name) => propName := name;
      case NullValue => PlaceValue(Null);
      case BoolValue(val) => PlaceValue(Bool(val));
      case IntValue(val) => PlaceValue(Int(val));
      case DecimalValue(val) => PlaceValue(Dec(val));
      case StringValue(val) => PlaceValue(Str(val));
    }
  }
}
