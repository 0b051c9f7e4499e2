/** Writing a value and reading it back. */
module RoundTrip {
  import opened Bytes
  import opened Values
  import opened Events
  import opened Builder
  import opened Reader
  import opened ReadBack
  import ObjectReader

  const EMPTY := Building([], Undefined, [])

  /** Reading a string of bytes into an empty builder yields a value. */
  predicate Decodes(data: Bytes, names: Naming, v: Value) {
    var o := ReadAll(data, [], false, names);
    o.err == Fine && Sane(EMPTY) && Balanced(0, o.events) && TakeAll(EMPTY, o.events).obj == v
  }

  // ---- texts without a NUL are readable ----

  predicate TextsNulFree(es: seq<Event>) {
    forall i :: 0 <= i < |es| && HasText(es[i]) ==> NulFree(Events.Text(es[i]))
  }

  lemma NulFreeIsItself(s: Bytes)
    requires NulFree(s)
    ensures CStr(s) == s
  {
  }

  lemma {:induction false} SoundIsReadable(es: seq<Event>, tokens: seq<Byte>, table: seq<Bytes>, names: Naming)
    requires TextsNulFree(es) && Sound(es, tokens, table)
    requires names.Named? || table == []
    requires names.Named? ==> table <= names.table
    ensures AllReadable(es, tokens, names)
    decreases |es|
  {
    if |es| > 0 {
      if tokens[0] != NO_TOKEN {
        NulFreeIsItself(Events.Text(es[0]));
      }
      SoundIsReadable(es[1..], tokens[1..], table, names);
    }
  }

  lemma {:induction false} VisitNulFree(v: Value)
    ensures TextsNulFree(Visit(v)) <==> NoNul(v)
  {
    match v
    case Obj(p) => VisitPropsNulFree(p); Enclosed(BeginObject, VisitProps(p), EndObject);
    case Arr(p) => VisitItemsNulFree(p); Enclosed(BeginArray, VisitItems(p), EndArray);
    case _ => assert Visit(v) == [Visit(v)[0]];
  }

  lemma Enclosed(open: Event, inner: seq<Event>, close: Event)
    requires !HasText(open) && !HasText(close)
    ensures TextsNulFree([open] + inner + [close]) <==> TextsNulFree(inner)
  {
    NulFreeConcat([open], inner);
    NulFreeConcat([open] + inner, [close]);
  }

  lemma NulFreeConcat(a: seq<Event>, b: seq<Event>)
    ensures TextsNulFree(a + b) <==> TextsNulFree(a) && TextsNulFree(b)
  {
    if TextsNulFree(a + b) {
      forall i | 0 <= i < |a| && HasText(a[i]) ensures NulFree(Events.Text(a[i])) {
        assert (a + b)[i] == a[i];
      }
      forall i | 0 <= i < |b| && HasText(b[i]) ensures NulFree(Events.Text(b[i])) {
        assert (a + b)[|a| + i] == b[i];
      }
    }
  }

  lemma {:induction false} VisitPropsNulFree(p: Props)
    ensures TextsNulFree(VisitProps(p)) <==> NoNulProps(p)
  {
    match p
    case NoProps =>
    case Prop(name, v, rest) =>
      VisitNulFree(v);
      VisitPropsNulFree(rest);
      NulFreeConcat([PropName(name)], Visit(v));
      NulFreeConcat([PropName(name)] + Visit(v), VisitProps(rest));
      assert TextsNulFree([PropName(name)]) <==> NulFree(name) by {
        assert [PropName(name)][0] == PropName(name);
      }
  }

  lemma {:induction false} VisitItemsNulFree(p: Items)
    ensures TextsNulFree(VisitItems(p)) <==> NoNulItems(p)
  {
    match p
    case NoItems =>
    case Item(v, rest) =>
      VisitNulFree(v);
      VisitItemsNulFree(rest);
      NulFreeConcat(Visit(v), VisitItems(rest));
  }

  // ---- the round trip ----

  /**
   * A value written with tokens is read back, whatever names the table has gained since. What comes
   * back is the value with null for every undefined.
   */
  lemma TokenRoundTrip(v: Value, tokens: seq<Byte>, table: seq<Bytes>, names: Naming)
    requires NoNul(v) && Sorted(v) && Sound(Visit(v), tokens, table)
    requires names.Named? || table == []
    requires names.Named? ==> table <= names.table
    ensures Decodes(Spell(Visit(v), tokens), names, Norm(v))
  {
    var es := Visit(v);
    VisitNulFree(v);
    SoundIsReadable(es, tokens, table, names);
    VisitRuns(v, [InValue]);
    AllReads(es, tokens, [InValue], false, names);
    ShownPlainly(es);
    ReadFromNothing(Spell(es, tokens), false, names);
    VisitBuilds(v, EMPTY);
    SortedRebuilt(v);
  }

  /** A reader with no state expects a value. */
  lemma ReadFromNothing(s: Bytes, skip: bool, names: Naming)
    ensures ReadAll(s, [], skip, names) == ReadAll(s, [InValue], skip, names)
    ensures ReadObject(s, [], skip, names) == ReadObject(s, [InValue], skip, names)
  {
    assert ReadWord(s, [], skip, names) == ReadWord(s, [InValue], skip, names);
  }

  /** One object is read off the front of a buffer and the rest is left, even when its beginning is to be skipped. */
  lemma ObjectRoundTrip(v: Value, tokens: seq<Byte>, table: seq<Bytes>, names: Naming, skip: bool, rest: Bytes)
    requires NoNul(v) && Sound(Visit(v), tokens, table)
    requires names.Named? || table == []
    requires names.Named? ==> table <= names.table
    ensures ReadObject(Spell(Visit(v), tokens) + rest, [], skip, names) == Outcome(Fine, AllShown(Visit(v), skip), rest)
    ensures !skip ==> AllShown(Visit(v), skip) == Visit(v)
    ensures skip && v.Obj? ==> AllShown(Visit(v), skip) == Visit(v)[1..]
  {
    var es := Visit(v);
    VisitNulFree(v);
    SoundIsReadable(es, tokens, table, names);
    VisitRuns(v, [InValue]);
    ObjectReads(es, tokens, [InValue], skip, names, rest);
    ReadFromNothing(Spell(es, tokens) + rest, skip, names);
    if v.Obj? {
      ShownPlainly(es[1..]);
    }
    ShownPlainly(es);
  }

  /** The end of an object some properties of which are there already. */
  lemma RestBuilds(b: Building, acc: Props, p: Props)
    requires Sane(b) && |b.frames| == 1 && Top(b) == Obj(acc)
    ensures Builds(b, VisitProps(p) + [Event.EndObject], Building([], Obj(PutAll(acc, p)), b.frames[0].name))
  {
    var filled := WithTop(b, Obj(PutAll(acc, p)), LastName(p, b.name));
    PropsBuild(p, acc, b);
    BuildsOne(filled, Event.EndObject);
    BuildsThen(b, VisitProps(p), filled, [Event.EndObject], Take(filled, Event.EndObject));
  }

  /** Properties are told to a builder that has begun an object. */
  method TellProps(visitor: ObjectBuilder, p: Props)
    requires visitor.Valid() && |visitor.stack| > 0 && Top(visitor.State()).Obj?
    modifies visitor
    ensures visitor.Valid()
    ensures visitor.State() == WithTop(old(visitor.State()), Obj(PutAll(Top(old(visitor.State())).props, p)), LastName(p, old(visitor.State()).name))
  {
    var events := VisitProps(p);
    PropsBuild(p, Top(visitor.State()).props, visitor.State());
    ghost var told := WithTop(visitor.State(), Obj(PutAll(Top(visitor.State()).props, p)), LastName(p, visitor.State().name));
    assert events[0..] == events;
    for i := 0 to |events|
      invariant visitor.Valid() && Balanced(|visitor.stack|, events[i..]) && TakeAll(visitor.State(), events[i..]) == told
    {
      assert events[i..][0] == events[i] && events[i..][1..] == events[i + 1..];
      visitor.Visit(events[i]);
    }
  }

  /** The property of a name is the object's, or else the header's. */
  predicate IsOverlaid(header: Props, p: Props, built: Props, name: Bytes) {
    var kept := if LastOf(p, name).Just? then LastOf(p, name) else LastOf(header, name);
    LastOf(built, name) == match kept case Nothing => Nothing case Just((n, val)) => Just((n, Rebuilt(val)))
  }

  lemma Overlaid(header: Props, p: Props)
    ensures var built := PutAll(PutAll(NoProps, header), p);
      Ascends(built) && forall name :: IsOverlaid(header, p, built, name)
  {
    var built := PutAll(PutAll(NoProps, header), p);
    PutAllMeans(NoProps, header, []);
    PutAllMeans(PutAll(NoProps, header), p, []);
    forall name ensures IsOverlaid(header, p, built, name) {
      PutAllMeans(NoProps, header, name);
      PutAllMeans(PutAll(NoProps, header), p, name);
    }
  }

  /** The properties of a header are told before those of the object, whose own beginning is skipped. */
  method ReadBehindHeader(reader: ObjectReader.ObjectReader, header: Props, ghost v: Value, ghost tokens: seq<Byte>,
                          ghost table: seq<Bytes>, ghost rest: Bytes) returns (err: ReadError, obj: Value)
    requires reader.Valid() && reader.stack == [] && v.Obj? && NoNul(v)
    requires Sound(Visit(v), tokens, table) && reader.reader.Left() == Spell(Visit(v), tokens) + rest
    requires reader.Names().Named? || table == []
    requires reader.Names().Named? ==> table <= reader.Names().table
    modifies reader, reader.reader
    ensures reader.Valid() && err == Fine && reader.reader.Left() == rest
    ensures obj == Obj(PutAll(PutAll(NoProps, header), v.props))
    ensures Ascends(obj.props) && forall name :: IsOverlaid(header, v.props, obj.props, name)
  {
    hide ReadObject;
    hide ReadWord;
    hide IsOverlaid;
    hide LastOf;
    hide Ascends;
    ghost var names := reader.Names();
    ObjectRoundTrip(v, tokens, table, names, true, rest);
    reader.SkipBeginObj();
    var builder := new ObjectBuilder();
    builder.Visit(Event.BeginObject);
    TellProps(builder, header);
    ghost var told := builder.State();
    RestBuilds(told, PutAll(NoProps, header), v.props);
    assert Visit(v)[1..] == VisitProps(v.props) + [Event.EndObject];
    err := reader.NextObject(builder);
    obj := builder.obj;
    Overlaid(header, v.props);
  }

  /** An object cut short never reads as one object. */
  lemma CutNoticed(v: Value, tokens: seq<Byte>, table: seq<Bytes>, names: Naming, n: nat)
    requires NoNul(v) && Sound(Visit(v), tokens, table)
    requires names.Named? || table == []
    requires names.Named? ==> table <= names.table
    requires n < |Spell(Visit(v), tokens)|
    ensures ReadObject(Spell(Visit(v), tokens)[..n], [], false, names).err == UnexpectedEof
    ensures ReadAll(Spell(Visit(v), tokens)[..n], [], false, names).err
      == if Boundary(Visit(v), tokens, n) then Fine else UnexpectedEof
  {
    var es := Visit(v);
    VisitNulFree(v);
    SoundIsReadable(es, tokens, table, names);
    VisitRuns(v, [InValue]);
    ObjectCut(es, tokens, n, [InValue], false, names);
    AllCut(es, tokens, n, [InValue], false, names);
    ReadFromNothing(Spell(es, tokens)[..n], false, names);
  }

  // ---- what is read has no NUL ----

  predicate NamesNulFree(names: Naming) {
    names.Named? ==> forall i :: 0 <= i < |names.table| ==> NulFree(names.table[i])
  }

  lemma WordNulFree(s: Bytes, stack: seq<State>, skip: bool, names: Naming)
    requires NamesNulFree(names)
    ensures var step := ReadWord(s, stack, skip, names); step.Step? ==> TextsNulFree(step.event)
  {
  }

  lemma {:induction false} ReadNulFree(s: Bytes, stack: seq<State>, skip: bool, names: Naming)
    requires NamesNulFree(names)
    ensures TextsNulFree(ReadAll(s, stack, skip, names).events)
    decreases |s|
  {
    hide ReadMarked;
    if |s| > 0 {
      var step := ReadWord(s, stack, skip, names);
      WordNulFree(s, stack, skip, names);
      if step.Step? {
        ReadNulFree(s[step.used..], step.stack, step.skip, names);
        NulFreeConcat(step.event, ReadAll(s[step.used..], step.stack, step.skip, names).events);
      }
    }
  }

  predicate CleanBuilding(b: Building) {
    NoNul(b.obj) && NulFree(b.name) && forall i :: 0 <= i < |b.frames| ==> NoNul(b.frames[i].obj) && NulFree(b.frames[i].name)
  }

  lemma {:induction false} PutPropClean(p: Props, name: Bytes, val: Value)
    requires NoNulProps(p) && NulFree(name) && NoNul(val)
    ensures NoNulProps(PutProp(p, name, val))
  {
    if p.Prop? {
      PutPropClean(p.rest, name, val);
    }
  }

  lemma {:induction false} PushItemClean(p: Items, val: Value)
    requires NoNulItems(p) && NoNul(val)
    ensures NoNulItems(PushItem(p, val))
  {
    if p.Item? {
      PushItemClean(p.rest, val);
    }
  }

  lemma PlaceClean(b: Building, val: Value)
    requires Sane(b) && CleanBuilding(b) && NoNul(val)
    ensures CleanBuilding(Place(b, val))
  {
    if |b.frames| > 0 {
      var top := b.frames[|b.frames| - 1].obj;
      if top.Obj? {
        PutPropClean(top.props, b.name, val);
      } else {
        PushItemClean(top.items, val);
      }
    }
  }

  lemma TakeClean(b: Building, e: Event)
    requires Sane(b) && Opened(|b.frames|, e) >= 0 && CleanBuilding(b) && (HasText(e) ==> NulFree(Events.Text(e)))
    ensures CleanBuilding(Take(b, e))
  {
    match e
    case BeginObject =>
    case BeginArray =>
    case EndObject => PopClean(b);
    case EndArray => PopClean(b);
    case PropName(_) =>
    case NullValue => PlaceClean(b, Null);
    case BoolValue(x) => PlaceClean(b, Bool(x));
    case IntValue(i) => PlaceClean(b, Int(i));
    case DecimalValue(r) => PlaceClean(b, Dec(r));
    case StringValue(s) => PlaceClean(b, Str(s));
  }

  lemma PopClean(b: Building)
    requires Sane(b) && |b.frames| > 0 && CleanBuilding(b)
    ensures CleanBuilding(Pop(b))
  {
    var top := b.frames[|b.frames| - 1];
    PlaceClean(Building(b.frames[..|b.frames| - 1], b.obj, top.name), top.obj);
  }

  lemma {:induction false} BuiltClean(b: Building, es: seq<Event>)
    requires Sane(b) && Balanced(|b.frames|, es) && CleanBuilding(b) && TextsNulFree(es)
    ensures CleanBuilding(TakeAll(b, es))
    decreases |es|
  {
    if |es| > 0 {
      TakeClean(b, es[0]);
      BuiltClean(Take(b, es[0]), es[1..]);
    }
  }

  lemma {:induction false} NormNulFree(v: Value)
    ensures NoNul(Norm(v)) <==> NoNul(v)
  {
    match v
    case Obj(p) => NormPropsNulFree(p);
    case Arr(p) => NormItemsNulFree(p);
    case _ =>
  }

  lemma {:induction false} NormPropsNulFree(p: Props)
    ensures NoNulProps(NormProps(p)) <==> NoNulProps(p)
  {
    if p.Prop? {
      NormNulFree(p.val);
      NormPropsNulFree(p.rest);
    }
  }

  lemma {:induction false} NormItemsNulFree(p: Items)
    ensures NoNulItems(NormItems(p)) <==> NoNulItems(p)
  {
    if p.Item? {
      NormNulFree(p.val);
      NormItemsNulFree(p.rest);
    }
  }

  /** The encoding of a value decodes to the value exactly when no text in it has a NUL. */
  lemma RoundTripExactly(v: Value)
    requires Sorted(v)
    ensures Decodes(Encode(v), Unnamed, Norm(v)) <==> NoNul(v)
  {
    if NoNul(v) {
      var es := Visit(v);
      PlainSpelling(v);
      TokenRoundTrip(v, Events.None(|es|), [], Unnamed);
    }
    if Decodes(Encode(v), Unnamed, Norm(v)) {
      var o := ReadAll(Encode(v), [], false, Unnamed);
      ReadNulFree(Encode(v), [], false, Unnamed);
      BuiltClean(EMPTY, o.events);
      NormNulFree(v);
    }
  }

  method FromBytes(data: Bytes) returns (err: ReadError, v: Value)
    ensures err == ReadAll(data, [], false, Unnamed).err
    ensures err == Fine ==> Decodes(data, Unnamed, v)
  {
    var builder := new ObjectBuilder();
    var reader := new ObjectReader.ObjectReader(data, null);
    err := reader.ReadToEnd(builder);
    v := builder.obj;
  }
}
