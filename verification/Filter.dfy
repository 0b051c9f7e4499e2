/** The streaming projection: what it makes of the events of a value, against a recursive one. */
module Filter {
  import opened Bytes
  import opened Values
  import opened Events

  /** A name of the selection; one without children selects all there is below it. */
  datatype Node = Node(name: Bytes, children: seq<Node>)

  /** A container being visited: its place in the selection, what of it is still included, and whether it has been begun. */
  datatype State = State(node: Maybe<Node>, child: nat, count: nat, included: bool, isArray: bool)

  datatype Filter = Filter(stack: seq<State>, state: State, next: Maybe<Node>, out: seq<Event>)

  const SIZE_MAX := 0xFFFF_FFFF_FFFF_FFFF

  function Fresh(root: Node): Filter {
    Filter([], State(Just(root), 0, 0, true, false), Just(root), [])
  }

  // ---- beginning the parents ----

  /** The events that begin a container inside another. */
  function Header(s: State, inArray: bool): seq<Event>
    requires s.node.Just?
  {
    (if inArray then [] else [PropName(s.node.val.name)]) + [if s.isArray then BeginArray else BeginObject]
  }

  /** The containers that are not begun have places, and are inside containers. */
  predicate Rooted(all: seq<State>) {
    |all| > 0 && all[0].included && forall i :: 0 <= i < |all| && !all[i].included ==> all[i].node.Just?
  }

  function Headers(all: seq<State>): seq<Event>
    requires Rooted(all)
  {
    var n := |all| - 1;
    if n == 0 then []
    else Headers(all[..n]) + if all[n].included then [] else Header(all[n], all[n - 1].isArray)
  }

  function Begun(all: seq<State>): (b: seq<State>)
    ensures |b| == |all| && forall i :: 0 <= i < |all| ==> b[i] == all[i].(included := true)
  {
    seq(|all|, i requires 0 <= i < |all| => all[i].(included := true))
  }

  function All(f: Filter): seq<State> { f.stack + [f.state] }

  /** All containers around are begun. */
  function Opened(f: Filter): Filter
    requires Rooted(All(f))
  {
    Filter(Begun(f.stack), f.state.(included := true), f.next, f.out + Headers(All(f)))
  }

  // ---- one event ----

  /** The first child from a place on that is not before a name. */
  function Skip(children: seq<Node>, i: nat, name: Bytes): (j: nat)
    requires i <= |children|
    ensures i <= j <= |children|
    ensures forall k :: i <= k < j ==> StrCmp(children[k].name, name) < 0
    ensures j < |children| ==> StrCmp(children[j].name, name) >= 0
    decreases |children| - i
  {
    if i == |children| || StrCmp(children[i].name, name) >= 0 then i else Skip(children, i + 1, name)
  }

  predicate ChildPlaced(f: Filter) { f.state.node.Just? ==> f.state.child <= |f.state.node.val.children| }

  /** The place of a property in the selection. */
  function Named(f: Filter, name: Bytes): (g: Filter)
    requires ChildPlaced(f)
  {
    if f.state.node.Nothing? then f.(next := Nothing)
    else
      var children := f.state.node.val.children;
      var j := Skip(children, f.state.child, name);
      if j < |children| && StrCmp(children[j].name, name) == 0 then
        if |children[j].children| == 0 then f.(state := f.state.(child := j, count := 1), next := Nothing)
        else f.(state := f.state.(child := j, count := 0), next := Just(children[j]))
      else f.(state := f.state.(child := j, count := 0), next := Nothing)
  }

  /** The headers depend on the containers, not on how far they are gone through. */
  lemma SameHeaders(stack: seq<State>, s: State, t: State)
    requires Rooted(stack + [s]) && t.included == s.included && t.node == s.node && t.isArray == s.isArray
    ensures Rooted(stack + [t]) && Headers(stack + [t]) == Headers(stack + [s])
  {
    var a, b := stack + [s], stack + [t];
    assert b[..|stack|] == stack == a[..|stack|];
    forall i | 0 <= i < |b| ensures b[i].included == a[i].included && b[i].node == a[i].node {
      assert i < |stack| ==> b[i] == a[i];
    }
  }

  lemma NamedRooted(f: Filter, name: Bytes)
    requires ChildPlaced(f) && Rooted(All(f))
    ensures Rooted(All(Named(f, name))) && Headers(All(Named(f, name))) == Headers(All(f))
  {
    SameHeaders(f.stack, f.state, Named(f, name).state);
  }

  predicate Placed(f: Filter) { Rooted(All(f)) && ChildPlaced(f) }

  /** A name that is let through is in a container that is begun or can be. */
  predicate Nameable(f: Filter, name: Bytes) {
    ChildPlaced(f) && (Named(f, name).state.count > 0 && !f.state.included ==> Rooted(All(f)))
  }

  function OnName(f: Filter, name: Bytes): Filter
    requires Nameable(f, name)
  {
    var g := Named(f, name);
    if g.state.count == 0 then g
    else
      var h := if g.state.included then g else (NamedRooted(f, name); Opened(g));
      h.(out := h.out + [PropName(name)])
  }

  function OnValue(f: Filter, e: Event): Filter {
    if f.state.count == 0 then f else f.(state := f.state.(count := f.state.count - 1), out := f.out + [e])
  }

  function OnBegin(f: Filter, e: Event): Filter {
    var included := f.state.count > 0 || f.stack == [];
    Filter(f.stack + [f.state], State(f.next, 0, if f.state.count >= 1 then SIZE_MAX else f.state.count, included, e.BeginArray?),
           f.next, if included then f.out + [e] else f.out)
  }

  function OnEnd(f: Filter, e: Event): Filter
    requires |f.stack| > 0
  {
    var n := |f.stack| - 1;
    var s := f.stack[n];
    Filter(f.stack[..n], if s.count > 0 then s.(count := s.count - 1) else s, f.state.node, if f.state.included then f.out + [e] else f.out)
  }

  predicate Ready(f: Filter, e: Event) {
    match e
    case PropName(name) => Nameable(f, name)
    case EndObject => |f.stack| > 0
    case EndArray => |f.stack| > 0
    case _ => true
  }

  function On(f: Filter, e: Event): Filter
    requires Ready(f, e)
  {
    match e
    case PropName(name) => OnName(f, name)
    case BeginObject => OnBegin(f, e)
    case BeginArray => OnBegin(f, e)
    case EndObject => OnEnd(f, e)
    case EndArray => OnEnd(f, e)
    case _ => OnValue(f, e)
  }

  /** A run of events leads from one state to another. */
  ghost predicate Runs(f: Filter, es: seq<Event>, f': Filter)
    decreases |es|
  {
    if |es| == 0 then f == f' else Ready(f, es[0]) && Runs(On(f, es[0]), es[1..], f')
  }

  lemma {:induction false} RunsThen(f: Filter, a: seq<Event>, g: Filter, b: seq<Event>, h: Filter)
    requires Runs(f, a, g) && Runs(g, b, h)
    ensures Runs(f, a + b, h)
    decreases |a|
  {
    if |a| == 0 {
      assert a + b == b;
    } else {
      RunsThen(On(f, a[0]), a[1..], g, b, h);
      assert (a + b)[1..] == a[1..] + b;
    }
  }

  lemma RunsOne(f: Filter, e: Event)
    requires Ready(f, e)
    ensures Runs(f, [e], On(f, e))
  {
    assert [e][1..] == [];
  }

  lemma {:induction false} OneRun(f: Filter, es: seq<Event>, g: Filter, h: Filter)
    requires Runs(f, es, g) && Runs(f, es, h)
    ensures g == h
    decreases |es|
  {
    if |es| > 0 {
      OneRun(On(f, es[0]), es[1..], g, h);
    }
  }

  // ---- the projection ----

  function Find(children: seq<Node>, name: Bytes): Maybe<Node> {
    if |children| == 0 then Nothing
    else if StrCmp(children[0].name, name) == 0 then Just(children[0])
    else Find(children[1..], name)
  }

  /** What a selection leaves of a value below a property that it goes into: nothing at all, or a part. */
  function Project(v: Value, n: Node): Maybe<Value>
    decreases v
  {
    match v
    case Obj(p) =>
      var kept := ProjectProps(p, n);
      if kept.NoProps? then Nothing else Just(Obj(kept))
    case Arr(p) =>
      var kept := ProjectItems(p, n);
      if kept.NoItems? then Nothing else Just(Arr(kept))
    case _ => Nothing
  }

  function ProjectProps(p: Props, n: Node): Props
    decreases p
  {
    match p
    case NoProps => NoProps
    case Prop(name, v, rest) =>
      var child := Find(n.children, name);
      var kept := if child.Nothing? then Nothing else if |child.val.children| == 0 then Just(v) else Project(v, child.val);
      if kept.Nothing? then ProjectProps(rest, n)
      else Prop(if |child.val.children| == 0 then name else child.val.name, kept.val, ProjectProps(rest, n))
  }

  function ProjectItems(p: Items, n: Node): Items
    decreases p
  {
    match p
    case NoItems => NoItems
    case Item(v, rest) =>
      var kept := Project(v, n);
      if kept.Nothing? then ProjectItems(rest, n) else Item(kept.val, ProjectItems(rest, n))
  }

  /** The whole value: its outermost container is always there. */
  function ProjectRoot(v: Value, root: Node): Maybe<Value> {
    match v
    case Obj(p) => Just(Obj(ProjectProps(p, root)))
    case Arr(p) => Just(Arr(ProjectItems(p, root)))
    case _ => Nothing
  }

  /** What the filter leaves: it looks for each name from where it found the one before, and not behind a greater one. */
  function Scan(v: Value, n: Node): Maybe<Value>
    decreases v
  {
    match v
    case Obj(p) =>
      var kept := ScanProps(p, n, 0);
      if kept.NoProps? then Nothing else Just(Obj(kept))
    case Arr(p) =>
      var kept := ScanItems(p, n);
      if kept.NoItems? then Nothing else Just(Arr(kept))
    case _ => Nothing
  }

  function ScanProps(p: Props, n: Node, i: nat): Props
    requires i <= |n.children|
    decreases p
  {
    match p
    case NoProps => NoProps
    case Prop(name, v, rest) =>
      var j := Skip(n.children, i, name);
      var here := j < |n.children| && StrCmp(n.children[j].name, name) == 0;
      var kept := if !here then Nothing else if |n.children[j].children| == 0 then Just(v) else Scan(v, n.children[j]);
      if kept.Nothing? then ScanProps(rest, n, j)
      else Prop(if |n.children[j].children| == 0 then name else n.children[j].name, kept.val, ScanProps(rest, n, j))
  }

  function ScanItems(p: Items, n: Node): Items
    decreases p
  {
    match p
    case NoItems => NoItems
    case Item(v, rest) =>
      var kept := Scan(v, n);
      if kept.Nothing? then ScanItems(rest, n) else Item(kept.val, ScanItems(rest, n))
  }

  function ScanRoot(v: Value, root: Node): Maybe<Value> {
    match v
    case Obj(p) => Just(Obj(ScanProps(p, root, 0)))
    case Arr(p) => Just(Arr(ScanItems(p, root)))
    case _ => Nothing
  }

  /** The children of every place are in the order of their names. */
  predicate SortedNode(n: Node) {
    && (forall i, j :: 0 <= i < j < |n.children| ==> StrCmp(n.children[i].name, n.children[j].name) < 0)
    && (forall i :: 0 <= i < |n.children| ==> SortedNode(n.children[i]))
  }

  function CountProps(p: Props): nat { if p.NoProps? then 0 else 1 + CountProps(p.rest) }

  function CountItems(p: Items): nat { if p.NoItems? then 0 else 1 + CountItems(p.rest) }

  /** No container has more members than a size can count. */
  predicate Countable(v: Value) {
    match v
    case Obj(p) => CountProps(p) < SIZE_MAX && CountableProps(p)
    case Arr(p) => CountItems(p) < SIZE_MAX && CountableItems(p)
    case _ => true
  }

  predicate CountableProps(p: Props) { p.Prop? ==> Countable(p.val) && CountableProps(p.rest) }

  predicate CountableItems(p: Items) { p.Item? ==> Countable(p.val) && CountableItems(p.rest) }

  // ---- a part that is included whole ----

  /** More was let through, and the count fell by what it counts. */
  function Passed(f: Filter, es: seq<Event>, n: nat): Filter
    requires n <= f.state.count
  {
    f.(state := f.state.(count := f.state.count - n), next := Nothing, out := f.out + es)
  }

  /** Inside a part that is selected whole: begun, and with no place in the selection. */
  predicate Whole(f: Filter) { Placed(f) && f.state.included && f.state.count > 0 }

  lemma {:induction false} WholeValue(v: Value, f: Filter)
    requires Whole(f) && |f.stack| > 0 && f.next == Nothing && Countable(v)
    ensures Runs(f, Visit(v), Passed(f, Visit(v), 1))
  {
    match v
    case Obj(p) =>
      var g := OnBegin(f, BeginObject);
      RunsOne(f, BeginObject);
      BegunPlaced(f, BeginObject);
      WholeProps(p, g);
      WholeEnds(f, BeginObject, VisitProps(p), CountProps(p), EndObject);
    case Arr(p) =>
      var g := OnBegin(f, BeginArray);
      RunsOne(f, BeginArray);
      BegunPlaced(f, BeginArray);
      WholeItems(p, g);
      WholeEnds(f, BeginArray, VisitItems(p), CountItems(p), EndArray);
    case _ => RunsOne(f, Visit(v)[0]);
  }

  lemma BegunPlaced(f: Filter, e: Event)
    requires Rooted(All(f)) && (f.state.count > 0 || f.stack == [] || f.next.Just?)
    ensures Placed(OnBegin(f, e))
  {
    var g := OnBegin(f, e);
    assert All(g)[..|All(f)|] == All(f);
    assert forall i :: 0 <= i < |All(f)| ==> All(g)[i] == All(f)[i];
  }

  lemma WholeEnds(f: Filter, open: Event, inner: seq<Event>, n: nat, close: Event)
    requires Whole(f) && |f.stack| > 0 && f.next == Nothing && n < SIZE_MAX
    requires (open.BeginObject? && close.EndObject?) || (open.BeginArray? && close.EndArray?)
    requires Runs(OnBegin(f, open), inner, Passed(OnBegin(f, open), inner, n))
    ensures Runs(f, [open] + inner + [close], Passed(f, [open] + inner + [close], 1))
  {
    var g := OnBegin(f, open);
    var h := Passed(g, inner, n);
    WholeEnded(f, open, inner, n, close);
    RunsOne(f, open);
    RunsOne(h, close);
    assert g == On(f, open);
    hide Runs;
    hide On;
    hide OnBegin;
    hide Passed;
    RunsThen(f, [open], g, inner, h);
    RunsThen(f, [open] + inner, h, [close], On(h, close));
  }

  lemma WholeEnded(f: Filter, open: Event, inner: seq<Event>, n: nat, close: Event)
    requires Whole(f) && |f.stack| > 0 && f.next == Nothing && n < SIZE_MAX
    requires (open.BeginObject? && close.EndObject?) || (open.BeginArray? && close.EndArray?)
    ensures On(Passed(OnBegin(f, open), inner, n), close) == Passed(f, [open] + inner + [close], 1)
  {
    var h := Passed(OnBegin(f, open), inner, n);
    assert h.stack[..|f.stack|] == f.stack;
    assert f.out + ([open] + inner + [close]) == f.out + [open] + inner + [close];
  }

  /** Passing on is passing both. */
  lemma PassedTwice(f: Filter, a: seq<Event>, n: nat, b: seq<Event>, m: nat)
    requires n + m <= f.state.count
    ensures Passed(Passed(f, a, n), b, m) == Passed(f, a + b, n + m)
  {
    assert f.out + (a + b) == f.out + a + b;
  }

  lemma PassedNone(f: Filter)
    requires f.next == Nothing
    ensures Passed(f, [], 0) == f
  {
    assert f.out + [] == f.out;
  }

  /** Inside a container that is included whole. */
  predicate Inside(g: Filter, members: nat) {
    Placed(g) && g.state.included && g.state.count > members && g.state.node == Nothing && g.next == Nothing && |g.stack| > 0
  }

  lemma {:induction false} WholeProps(p: Props, g: Filter)
    requires Inside(g, CountProps(p)) && CountableProps(p)
    ensures Runs(g, VisitProps(p), Passed(g, VisitProps(p), CountProps(p)))
  {
    match p
    case NoProps => PassedNone(g);
    case Prop(name, v, rest) =>
      var n, es := CountProps(rest), [PropName(name)] + Visit(v);
      WholeName(g, name);
      var named := Passed(g, [PropName(name)], 0);
      StillPlaced(g, named);
      WholeValue(v, named);
      PassedTwice(g, [PropName(name)], 0, Visit(v), 1);
      var passed := Passed(g, es, 1);
      StillPlaced(g, passed);
      assert Inside(passed, n);
      hide Runs;
      hide Passed;
      hide Inside;
      RunsThen(g, [PropName(name)], named, Visit(v), passed);
      WholeProps(rest, passed);
      PassedTwice(g, es, 1, VisitProps(rest), n);
      RunsThen(g, es, passed, VisitProps(rest), Passed(passed, VisitProps(rest), n));
  }

  lemma WholeName(g: Filter, name: Bytes)
    requires Inside(g, 0)
    ensures Runs(g, [PropName(name)], Passed(g, [PropName(name)], 0))
  {
    RunsOne(g, PropName(name));
  }

  lemma {:induction false} WholeItems(p: Items, g: Filter)
    requires Inside(g, CountItems(p)) && CountableItems(p)
    ensures Runs(g, VisitItems(p), Passed(g, VisitItems(p), CountItems(p)))
  {
    match p
    case NoItems => PassedNone(g);
    case Item(v, rest) =>
      var n := CountItems(rest);
      WholeValue(v, g);
      var passed := Passed(g, Visit(v), 1);
      StillPlaced(g, passed);
      assert Inside(passed, n);
      hide Runs;
      hide Passed;
      hide Inside;
      WholeItems(rest, passed);
      PassedTwice(g, Visit(v), 1, VisitItems(rest), n);
      RunsThen(g, Visit(v), passed, VisitItems(rest), Passed(passed, VisitItems(rest), n));
  }

  /** What was let through does not change where the containers are. */
  lemma StillPlaced(f: Filter, g: Filter)
    requires Placed(f) && g.stack == f.stack && g.state.node == f.state.node && g.state.included == f.state.included
    requires g.state.node.Just? ==> g.state.child <= |g.state.node.val.children|
    ensures Placed(g)
  {
    var a, b := All(f), All(g);
    forall i | 0 <= i < |b| ensures b[i].included == a[i].included && b[i].node == a[i].node {
      assert i < |f.stack| ==> b[i] == a[i];
    }
  }

  // ---- a part that is left out ----

  lemma {:induction false} SkippedValue(v: Value, f: Filter)
    requires f.state.count == 0 && |f.stack| > 0 && f.next == Nothing
    ensures Runs(f, Visit(v), f)
  {
    match v
    case Obj(p) =>
      SkippedProps(p, OnBegin(f, BeginObject));
      SkippedEnds(f, BeginObject, VisitProps(p), EndObject);
    case Arr(p) =>
      SkippedItems(p, OnBegin(f, BeginArray));
      SkippedEnds(f, BeginArray, VisitItems(p), EndArray);
    case _ => RunsOne(f, Visit(v)[0]);
  }

  lemma SkippedEnds(f: Filter, open: Event, inner: seq<Event>, close: Event)
    requires f.state.count == 0 && |f.stack| > 0 && f.next == Nothing
    requires (open.BeginObject? && close.EndObject?) || (open.BeginArray? && close.EndArray?)
    requires Runs(OnBegin(f, open), inner, OnBegin(f, open))
    ensures Runs(f, [open] + inner + [close], f)
  {
    var g := OnBegin(f, open);
    RunsOne(f, open);
    RunsThen(f, [open], g, inner, g);
    RunsOne(g, close);
    RunsThen(f, [open] + inner, g, [close], On(g, close));
    assert g.stack[..|f.stack|] == f.stack;
  }

  lemma {:induction false} SkippedProps(p: Props, g: Filter)
    requires g.state.count == 0 && |g.stack| > 0 && g.next == Nothing && g.state.node == Nothing
    ensures Runs(g, VisitProps(p), g)
  {
    match p
    case NoProps =>
    case Prop(name, v, rest) =>
      RunsOne(g, PropName(name));
      SkippedValue(v, g);
      RunsThen(g, [PropName(name)], g, Visit(v), g);
      SkippedProps(rest, g);
      RunsThen(g, [PropName(name)] + Visit(v), g, VisitProps(rest), g);
  }

  lemma {:induction false} SkippedItems(p: Items, g: Filter)
    requires g.state.count == 0 && |g.stack| > 0 && g.next == Nothing
    ensures Runs(g, VisitItems(p), g)
  {
    match p
    case NoItems =>
    case Item(v, rest) =>
      SkippedValue(v, g);
      SkippedItems(rest, g);
      RunsThen(g, Visit(v), g, VisitItems(rest), g);
  }

  // ---- a part the selection goes into ----

  /** A container is begun only inside begun ones. */
  predicate Closed(all: seq<State>) {
    forall i, j :: 0 <= i < j < |all| && all[j].included ==> all[i].included
  }

  /** Events let through, with the containers around them begun if there are any. */
  function Emit(f: Filter, es: seq<Event>): Filter
    requires Rooted(All(f))
  {
    if |es| == 0 then f
    else
      var g := if f.state.included then f else Opened(f);
      g.(out := g.out + es)
  }

  function Moved(f: Filter, child: nat, next: Maybe<Node>): Filter {
    f.(state := f.state.(child := child), next := next)
  }

  lemma {:induction false} AllBegun(all: seq<State>)
    requires Rooted(all) && Closed(all) && all[|all| - 1].included
    ensures Headers(all) == [] && Begun(all) == all
  {
    var n := |all| - 1;
    if n > 0 {
      AllBegun(all[..n]);
    }
    forall i | 0 <= i < |all| ensures Begun(all)[i] == all[i] {
      assert i < n ==> all[i].included;
    }
  }

  lemma OpenedPlaced(f: Filter)
    requires Rooted(All(f))
    ensures Rooted(All(Opened(f))) && Closed(All(Opened(f)))
  {
    var b := All(Opened(f));
    forall i | 0 <= i < |b| ensures b[i].included {
      assert i < |f.stack| ==> b[i] == Begun(f.stack)[i];
    }
  }

  lemma EmitPlaced(f: Filter, es: seq<Event>, child: nat, next: Maybe<Node>)
    requires Rooted(All(f)) && Closed(All(f))
    ensures var g := Moved(Emit(f, es), child, next); Rooted(All(g)) && Closed(All(g))
  {
    var e := Emit(f, es);
    if |es| > 0 && !f.state.included {
      OpenedPlaced(f);
      assert All(e) == All(Opened(f));
    } else {
      assert All(e) == All(f);
    }
    var a, b := All(e), All(Moved(e, child, next));
    forall i | 0 <= i < |b| ensures b[i].included == a[i].included && b[i].node == a[i].node {
      assert i < |e.stack| ==> b[i] == a[i];
    }
  }

  lemma MovedHeaders(f: Filter, child: nat, next: Maybe<Node>)
    requires Rooted(All(f))
    ensures Rooted(All(Moved(f, child, next))) && Headers(All(Moved(f, child, next))) == Headers(All(f))
  {
    SameHeaders(f.stack, f.state, Moved(f, child, next).state);
  }

  /** Letting through twice is letting through at once. */
  lemma EmitTwice(f: Filter, a: seq<Event>, child: nat, next: Maybe<Node>, b: seq<Event>, child': nat, next': Maybe<Node>)
    requires Rooted(All(f)) && Closed(All(f))
    ensures Rooted(All(Moved(Emit(f, a), child, next)))
    ensures Moved(Emit(Moved(Emit(f, a), child, next), b), child', next') == Moved(Emit(f, a + b), child', next')
  {
    EmitPlaced(f, a, child, next);
    if |a| == 0 {
      assert a + b == b;
      MovedHeaders(f, child, next);
    } else if |b| == 0 {
      assert a + b == a;
    } else {
      var g := if f.state.included then f else Opened(f);
      assert g.out + a + b == g.out + (a + b);
    }
  }

  /** The headers of the containers around, and of one more inside them. */
  lemma HeadersInside(f: Filter, s: State)
    requires Rooted(All(f)) && Closed(All(f)) && s.node.Just? && !s.included
    ensures var all := All(f) + [s];
      Rooted(all) && Closed(all)
      && Headers(all) == (if f.state.included then [] else Headers(All(f))) + Header(s, f.state.isArray)
  {
    var all := All(f) + [s];
    assert all[..|all| - 1] == All(f);
    if f.state.included {
      AllBegun(All(f));
    }
  }

  // ---- finding a property's place by moving on ----

  lemma {:induction false} FindPlace(children: seq<Node>, name: Bytes, j: nat)
    requires j <= |children|
    requires forall i :: 0 <= i < j ==> StrCmp(children[i].name, name) < 0
    requires forall i :: j < i < |children| ==> StrCmp(children[i].name, name) > 0
    requires j < |children| ==> StrCmp(children[j].name, name) >= 0
    ensures Find(children, name) == if j < |children| && StrCmp(children[j].name, name) == 0 then Just(children[j]) else Nothing
    decreases |children|
  {
    if j > 0 {
      FindPlace(children[1..], name, j - 1);
    } else if |children| > 0 && StrCmp(children[0].name, name) != 0 {
      NoneFound(children, name);
    }
  }

  lemma {:induction false} NoneFound(children: seq<Node>, name: Bytes)
    requires forall i :: 0 <= i < |children| ==> StrCmp(children[i].name, name) != 0
    ensures Find(children, name) == Nothing
  {
    if |children| > 0 {
      NoneFound(children[1..], name);
    }
  }

  lemma SkipFinds(n: Node, child: nat, name: Bytes)
    requires SortedNode(n) && child <= |n.children|
    requires forall i :: 0 <= i < child ==> StrCmp(n.children[i].name, name) < 0
    ensures var j := Skip(n.children, child, name);
      Find(n.children, name) == if j < |n.children| && StrCmp(n.children[j].name, name) == 0 then Just(n.children[j]) else Nothing
  {
    var j := Skip(n.children, child, name);
    forall i | j < i < |n.children| ensures StrCmp(n.children[i].name, name) > 0 {
      StrCmpAbove(n.children[j].name, n.children[i].name, name);
    }
    FindPlace(n.children, name, j);
  }

  lemma StrCmpAbove(a: Bytes, b: Bytes, name: Bytes)
    requires StrCmp(a, b) < 0 && StrCmp(a, name) >= 0
    ensures StrCmp(b, name) > 0
  {
    LexFlip(CStr(a), CStr(name));
    LexFlip(CStr(b), CStr(name));
    LexTrans(CStr(name), CStr(a), CStr(b));
  }

  lemma StrCmpBelow(a: Bytes, name: Bytes, later: Bytes)
    requires StrCmp(a, name) < 0 && StrCmp(name, later) < 0
    ensures StrCmp(a, later) < 0
  {
    LexTrans(CStr(a), CStr(name), CStr(later));
  }

  // ---- the part is what the scan leaves ----

  /** In the middle of a container of the selection, with nothing let through of the next value yet. */
  predicate Within(f: Filter) {
    Placed(f) && Closed(All(f)) && |f.stack| > 0 && f.state.count == 0
  }

  function NameOf(f: Filter, n: Node): seq<Event> { if f.state.isArray then [] else [PropName(n.name)] }

  /** What a value becomes when the selection goes into it: nothing, or its part. */
  function Part(f: Filter, v: Value, n: Node): Filter
    requires Rooted(All(f))
  {
    var kept := Scan(v, n);
    if kept.Nothing? then f else Emit(f, NameOf(f, n) + Visit(kept.val))
  }

  lemma {:induction false} ScansValue(v: Value, f: Filter, n: Node)
    requires Within(f) && f.next == Just(n) && Countable(v)
    ensures Runs(f, Visit(v), Part(f, v, n))
    decreases v, 0, 0
  {
    match v
    case Obj(p) => ScansObject(p, f, n);
    case Arr(p) => ScansArray(p, f, n);
    case _ => RunsOne(f, Visit(v)[0]);
  }

  lemma {:induction false} ScansObject(p: Props, f: Filter, n: Node)
    requires Within(f) && f.next == Just(n) && CountableProps(p)
    ensures Runs(f, Visit(Obj(p)), Part(f, Obj(p), n))
    decreases p, 1
  {
    hide Runs;
    hide Emit;
    hide Moved;
    hide OnBegin;
    InsideWithin(f, BeginObject, n);
    var child, next := ScansProps(p, OnBegin(f, BeginObject), n);
    ScansEnd(f, n, BeginObject, VisitProps(p), VisitProps(ScanProps(p, n, 0)), child, next, EndObject);
    VisitEmpty(ScanProps(p, n, 0));
  }

  lemma {:induction false} ScansArray(p: Items, f: Filter, n: Node)
    requires Within(f) && f.next == Just(n) && CountableItems(p)
    ensures Runs(f, Visit(Arr(p)), Part(f, Arr(p), n))
    decreases p, 1
  {
    hide Runs;
    hide Emit;
    hide Moved;
    hide OnBegin;
    InsideWithin(f, BeginArray, n);
    ScansItems(p, OnBegin(f, BeginArray), n);
    ScansEnd(f, n, BeginArray, VisitItems(p), VisitItems(ScanItems(p, n)), 0, Just(n), EndArray);
    ItemsEmpty(ScanItems(p, n));
  }

  /** What is let through of one property, looked for from a place on. */
  function KeptProp(name: Bytes, v: Value, n: Node, i: nat): seq<Event>
    requires i <= |n.children|
  {
    var j := Skip(n.children, i, name);
    if j == |n.children| || StrCmp(n.children[j].name, name) != 0 then []
    else if |n.children[j].children| == 0 then [PropName(name)] + Visit(v)
    else
      var kept := Scan(v, n.children[j]);
      if kept.Nothing? then [] else [PropName(n.children[j].name)] + Visit(kept.val)
  }

  lemma KeptProps(p: Props, n: Node, i: nat)
    requires p.Prop? && i <= |n.children|
    ensures VisitProps(ScanProps(p, n, i)) == KeptProp(p.name, p.val, n, i) + VisitProps(ScanProps(p.rest, n, Skip(n.children, i, p.name)))
  {
    var more := VisitProps(ScanProps(p.rest, n, Skip(n.children, i, p.name)));
    assert [] + more == more;
  }

  lemma {:induction false} ScansProps(p: Props, g: Filter, n: Node) returns (child: nat, next: Maybe<Node>)
    requires Within(g) && g.state.node == Just(n) && !g.state.isArray && CountableProps(p)
    ensures Runs(g, VisitProps(p), Moved(Emit(g, VisitProps(ScanProps(p, n, g.state.child))), child, next))
    decreases p, 0
  {
    match p
    case NoProps => return g.state.child, g.next;
    case Prop(name, v, rest) =>
      var at, after := ScansProp(name, v, g, n);
      var one := KeptProp(name, v, n, g.state.child);
      var h := Moved(Emit(g, one), at, after);
      child, next := ScansProps(rest, h, n);
      KeptProps(p, n, g.state.child);
      var more := VisitProps(ScanProps(rest, n, at));
      EmitTwice(g, one, at, after, more, child, next);
      hide Runs;
      hide Emit;
      hide Moved;
      RunsThen(g, [PropName(name)] + Visit(v), h, VisitProps(rest), Moved(Emit(h, more), child, next));
  }

  /** One property: let through whole, in part, or not at all. */
  lemma {:induction false} ScansProp(name: Bytes, v: Value, g: Filter, n: Node) returns (child: nat, next: Maybe<Node>)
    requires Within(g) && g.state.node == Just(n) && !g.state.isArray && Countable(v)
    ensures child == Skip(n.children, g.state.child, name)
    ensures var h := Moved(Emit(g, KeptProp(name, v, n, g.state.child)), child, next);
      Runs(g, [PropName(name)] + Visit(v), h) && Within(h) && h.state.node == Just(n) && !h.state.isArray && h.state.child == child
    decreases v, 1
  {
    child := Skip(n.children, g.state.child, name);
    next := Nothing;
    if child < |n.children| && StrCmp(n.children[child].name, name) == 0 {
      if |n.children[child].children| == 0 {
        LeafProp(name, v, g, n, child);
      } else {
        next := Just(n.children[child]);
        InnerProp(name, v, g, n, child);
      }
    } else {
      OtherProp(name, v, g, n, child);
    }
    hide Emit;
    hide Runs;
    EmitWithin(g, KeptProp(name, v, n, g.state.child), child, next);
  }

  /** A property the selection goes into. */
  lemma {:induction false} InnerProp(name: Bytes, v: Value, g: Filter, n: Node, j: nat)
    requires Within(g) && g.state.node == Just(n) && !g.state.isArray && Countable(v)
    requires g.state.child <= |n.children| && j == Skip(n.children, g.state.child, name) < |n.children|
    requires StrCmp(n.children[j].name, name) == 0 && |n.children[j].children| > 0
    ensures Runs(g, [PropName(name)] + Visit(v), Moved(Emit(g, KeptProp(name, v, n, g.state.child)), j, Just(n.children[j])))
    decreases v, 0, 1
  {
    var c := n.children[j];
    var named := Moved(g, j, Just(c));
    RunsOne(g, PropName(name));
    assert On(g, PropName(name)) == named;
    EmitWithin(g, [], j, Just(c));
    PartMoved(g, v, c, j, Just(c), KeptProp(name, v, n, g.state.child));
    hide Runs;
    hide On;
    hide Emit;
    ScansValue(v, named, c);
    RunsThen(g, [PropName(name)], named, Visit(v), Part(named, v, c));
  }

  /** A property that is not selected. */
  lemma OtherProp(name: Bytes, v: Value, g: Filter, n: Node, j: nat)
    requires Within(g) && g.state.node == Just(n) && g.state.child <= |n.children|
    requires j == Skip(n.children, g.state.child, name) && (j < |n.children| ==> StrCmp(n.children[j].name, name) != 0)
    ensures Runs(g, [PropName(name)] + Visit(v), Moved(Emit(g, KeptProp(name, v, n, g.state.child)), j, Nothing))
  {
    var named := Moved(g, j, Nothing);
    RunsOne(g, PropName(name));
    SkippedValue(v, named);
    RunsThen(g, [PropName(name)], named, Visit(v), named);
  }

  lemma EmitWithin(g: Filter, es: seq<Event>, child: nat, next: Maybe<Node>)
    requires Within(g) && (g.state.node.Just? ==> child <= |g.state.node.val.children|)
    ensures var h := Moved(Emit(g, es), child, next);
      Within(h) && h.state.node == g.state.node && h.state.isArray == g.state.isArray && h.state.child == child && h.next == next
  {
    EmitPlaced(g, es, child, next);
  }

  function WithCount(f: Filter, n: nat): Filter { f.(state := f.state.(count := n)) }

  /** A property that is selected whole. */
  lemma LeafProp(name: Bytes, v: Value, g: Filter, n: Node, j: nat)
    requires Within(g) && g.state.node == Just(n) && g.state.child <= |n.children| && Countable(v)
    requires j == Skip(n.children, g.state.child, name) < |n.children|
    requires StrCmp(n.children[j].name, name) == 0 && |n.children[j].children| == 0
    ensures Runs(g, [PropName(name)] + Visit(v), Moved(Emit(g, [PropName(name)] + Visit(v)), j, Nothing))
  {
    LeafWhole(name, g, n, j);
    LeafNamed(name, g, n, j);
    LeafPassed(g, [PropName(name)], Visit(v), j);
    RunsOne(g, PropName(name));
    var named := On(g, PropName(name));
    WholeValue(v, named);
    hide Runs;
    hide On;
    hide Emit;
    hide Moved;
    hide Passed;
    RunsThen(g, [PropName(name)], named, Visit(v), Passed(named, Visit(v), 1));
  }

  lemma LeafNamed(name: Bytes, g: Filter, n: Node, j: nat)
    requires Within(g) && g.state.node == Just(n) && g.state.child <= |n.children|
    requires j == Skip(n.children, g.state.child, name) < |n.children|
    requires StrCmp(n.children[j].name, name) == 0 && |n.children[j].children| == 0
    ensures Ready(g, PropName(name)) && On(g, PropName(name)) == WithCount(Moved(Emit(g, [PropName(name)]), j, Nothing), 1)
    ensures On(g, PropName(name)).next == Nothing && |On(g, PropName(name)).stack| > 0
  {
    NamedRooted(g, name);
  }

  lemma LeafPassed(g: Filter, a: seq<Event>, b: seq<Event>, j: nat)
    requires Within(g) && |a| > 0
    ensures Passed(WithCount(Moved(Emit(g, a), j, Nothing), 1), b, 1) == Moved(Emit(g, a + b), j, Nothing)
  {
    var h := if g.state.included then g else Opened(g);
    assert h.out + a + b == h.out + (a + b);
  }

  lemma LeafWhole(name: Bytes, g: Filter, n: Node, j: nat)
    requires Within(g) && g.state.node == Just(n) && g.state.child <= |n.children|
    requires j == Skip(n.children, g.state.child, name) < |n.children|
    requires StrCmp(n.children[j].name, name) == 0 && |n.children[j].children| == 0
    ensures Ready(g, PropName(name)) && Whole(On(g, PropName(name)))
  {
    NamedRooted(g, name);
    var named := Named(g, name);
    if g.state.included {
      StillPlaced(g, On(g, PropName(name)));
    } else {
      OpenedPlaced(named);
      assert All(On(g, PropName(name))) == All(Opened(named));
    }
  }

  lemma PartMoved(g: Filter, v: Value, c: Node, j: nat, next: Maybe<Node>, es: seq<Event>)
    requires Within(g) && !g.state.isArray && (g.state.node.Just? ==> j <= |g.state.node.val.children|)
    requires es == (var kept := Scan(v, c); if kept.Nothing? then [] else [PropName(c.name)] + Visit(kept.val))
    ensures Rooted(All(Moved(g, j, next))) && Part(Moved(g, j, next), v, c) == Moved(Emit(g, es), j, next)
  {
    MovedHeaders(g, j, next);
  }

  lemma {:induction false} ScansItems(p: Items, g: Filter, n: Node)
    requires Within(g) && g.state.isArray && g.next == Just(n) && CountableItems(p)
    ensures Runs(g, VisitItems(p), Moved(Emit(g, VisitItems(ScanItems(p, n))), g.state.child, g.next))
    decreases p, 0
  {
    match p
    case NoItems =>
    case Item(v, rest) =>
      ScansValue(v, g, n);
      var h := Part(g, v, n);
      var kept := Scan(v, n);
      var one := if kept.Nothing? then [] else Visit(kept.val);
      assert h == Moved(Emit(g, one), g.state.child, g.next) by {
        assert [] + one == one;
      }
      EmitWithin(g, one, g.state.child, g.next);
      ScansItems(rest, h, n);
      var more := VisitItems(ScanItems(rest, n));
      EmitTwice(g, one, g.state.child, g.next, more, g.state.child, g.next);
      assert one + more == VisitItems(ScanItems(p, n)) by {
        assert [] + more == more;
      }
      hide Runs;
      hide Emit;
      hide Moved;
      RunsThen(g, Visit(v), h, VisitItems(rest), Moved(Emit(h, more), g.state.child, g.next));
  }

  lemma VisitEmpty(p: Props)
    ensures VisitProps(p) == [] <==> p.NoProps?
  {
  }

  lemma ItemsEmpty(p: Items)
    ensures VisitItems(p) == [] <==> p.NoItems?
  {
  }

  lemma InsideWithin(f: Filter, open: Event, n: Node)
    requires Within(f) && f.next == Just(n) && (open.BeginObject? || open.BeginArray?)
    ensures var g := OnBegin(f, open);
      && Within(g) && g.state == State(Just(n), 0, 0, false, open.BeginArray?) && g.next == Just(n) && g.out == f.out
      && Ready(f, open) && On(f, open) == g
  {
    var g := OnBegin(f, open);
    HeadersInside(f, g.state);
  }

  /** The end of a container: gone without a trace, or begun, filled and ended. */
  lemma ScansEnd(f: Filter, n: Node, open: Event, inner: seq<Event>, kept: seq<Event>, child: nat, next: Maybe<Node>, close: Event)
    requires Within(f) && f.next == Just(n)
    requires (open.BeginObject? && close.EndObject?) || (open.BeginArray? && close.EndArray?)
    requires Rooted(All(OnBegin(f, open))) && Runs(OnBegin(f, open), inner, Moved(Emit(OnBegin(f, open), kept), child, next))
    ensures Runs(f, [open] + inner + [close], if kept == [] then f else Emit(f, NameOf(f, n) + ([open] + kept + [close])))
  {
    var g := OnBegin(f, open);
    var h := Moved(Emit(g, kept), child, next);
    RunsOne(f, open);
    RunsThen(f, [open], g, inner, h);
    EndedPart(f, n, open, kept, child, next, close);
    RunsOne(h, close);
    RunsThen(f, [open] + inner, h, [close], On(h, close));
  }

  lemma EndedPart(f: Filter, n: Node, open: Event, kept: seq<Event>, child: nat, next: Maybe<Node>, close: Event)
    requires Within(f) && f.next == Just(n)
    requires (open.BeginObject? && close.EndObject?) || (open.BeginArray? && close.EndArray?)
    requires Rooted(All(OnBegin(f, open)))
    ensures var h := Moved(Emit(OnBegin(f, open), kept), child, next);
      Ready(h, close) && On(h, close) == if kept == [] then f else Emit(f, NameOf(f, n) + ([open] + kept + [close]))
  {
    InsideWithin(f, open, n);
    if kept == [] {
      assert OnBegin(f, open).stack[..|f.stack|] == f.stack;
    } else {
      BegunAround(f);
      HeadersInside(f, OnBegin(f, open).state);
      var heads := if f.state.included then [] else Headers(All(f));
      hide Headers;
      hide Rooted;
      OutOfPart(f.out, heads, NameOf(f, n), open, kept, close);
    }
  }

  lemma BegunAround(f: Filter)
    requires Rooted(All(f)) && Closed(All(f))
    ensures var b := Begun(All(f));
      b[..|f.stack|] == (if f.state.included then f.stack else Begun(f.stack)) && b[|f.stack|] == f.state.(included := true)
  {
    if f.state.included {
      AllBegun(All(f));
    }
  }

  lemma OutOfPart(out: seq<Event>, heads: seq<Event>, name: seq<Event>, open: Event, kept: seq<Event>, close: Event)
    ensures out + (heads + (name + [open])) + kept + [close] == out + heads + (name + ([open] + kept + [close]))
    ensures out + [] == out
  {
  }

  // ---- the whole value ----

  lemma BeganRoot(root: Node, open: Event)
    requires open.BeginObject? || open.BeginArray?
    ensures var g := OnBegin(Fresh(root), open);
      Within(g) && g.state == State(Just(root), 0, 0, true, open.BeginArray?) && g.next == Just(root) && g.out == [open] && |g.stack| == 1
  {
  }

  lemma EndedRoot(root: Node, open: Event, kept: seq<Event>, child: nat, next: Maybe<Node>, close: Event)
    requires (open.BeginObject? && close.EndObject?) || (open.BeginArray? && close.EndArray?)
    ensures Rooted(All(OnBegin(Fresh(root), open)))
    ensures On(Moved(Emit(OnBegin(Fresh(root), open), kept), child, next), close).out == [open] + kept + [close]
  {
    BeganRoot(root, open);
    assert [open] + [] == [open];
  }

  /** What comes out of the filter for a value, whatever the selection, is the visit of what the scan leaves. */
  lemma FilterScans(v: Value, root: Node) returns (f: Filter)
    requires Countable(v)
    ensures Runs(Fresh(root), Visit(v), f)
    ensures var kept := ScanRoot(v, root); f.out == if kept.Nothing? then [] else Visit(kept.val)
  {
    match v
    case Obj(p) =>
      var g := OnBegin(Fresh(root), BeginObject);
      BeganRoot(root, BeginObject);
      var child, next := ScansProps(p, g, root);
      f := RootRuns(root, BeginObject, VisitProps(p), VisitProps(ScanProps(p, root, 0)), child, next, EndObject);
    case Arr(p) =>
      var g := OnBegin(Fresh(root), BeginArray);
      BeganRoot(root, BeginArray);
      ScansItems(p, g, root);
      f := RootRuns(root, BeginArray, VisitItems(p), VisitItems(ScanItems(p, root)), 0, Just(root), EndArray);
    case _ =>
      RunsOne(Fresh(root), Visit(v)[0]);
      f := On(Fresh(root), Visit(v)[0]);
  }

  lemma RootRuns(root: Node, open: Event, inner: seq<Event>, kept: seq<Event>, child: nat, next: Maybe<Node>, close: Event) returns (f: Filter)
    requires (open.BeginObject? && close.EndObject?) || (open.BeginArray? && close.EndArray?)
    requires Rooted(All(OnBegin(Fresh(root), open)))
    requires Runs(OnBegin(Fresh(root), open), inner, Moved(Emit(OnBegin(Fresh(root), open), kept), child, next))
    ensures Runs(Fresh(root), [open] + inner + [close], f) && f.out == [open] + kept + [close]
  {
    var g := OnBegin(Fresh(root), open);
    var h := Moved(Emit(g, kept), child, next);
    BeganRoot(root, open);
    EndedRoot(root, open, kept, child, next, close);
    RunsOne(Fresh(root), open);
    RunsThen(Fresh(root), [open], g, inner, h);
    RunsOne(h, close);
    f := On(h, close);
    RunsThen(Fresh(root), [open] + inner, h, [close], f);
  }

  // ---- in order, that is the projection ----

  lemma {:induction false} ScanProjects(v: Value, n: Node)
    requires SortedNode(n) && Sorted(v)
    ensures Scan(v, n) == Project(v, n)
    decreases v
  {
    match v
    case Obj(p) => ScanProjectsProps(p, n, 0);
    case Arr(p) => ScanProjectsItems(p, n);
    case _ =>
  }

  predicate ChildrenBefore(n: Node, child: nat, name: Bytes) {
    child <= |n.children| && forall i :: 0 <= i < child ==> StrCmp(n.children[i].name, name) < 0
  }

  lemma {:induction false} ScanProjectsProps(p: Props, n: Node, i: nat)
    requires SortedNode(n) && SortedProps(p) && i <= |n.children| && (p.Prop? ==> ChildrenBefore(n, i, p.name))
    ensures ScanProps(p, n, i) == ProjectProps(p, n)
    decreases p
  {
    match p
    case NoProps =>
    case Prop(name, v, rest) =>
      var j := Skip(n.children, i, name);
      SkipFinds(n, i, name);
      if j < |n.children| {
        ScanProjects(v, n.children[j]);
      }
      if rest.Prop? {
        forall k | 0 <= k < j ensures StrCmp(n.children[k].name, rest.name) < 0 {
          StrCmpBelow(n.children[k].name, name, rest.name);
        }
      }
      ScanProjectsProps(rest, n, j);
  }

  lemma {:induction false} ScanProjectsItems(p: Items, n: Node)
    requires SortedNode(n) && SortedItems(p)
    ensures ScanItems(p, n) == ProjectItems(p, n)
    decreases p
  {
    match p
    case NoItems =>
    case Item(v, rest) =>
      ScanProjects(v, n);
      ScanProjectsItems(rest, n);
  }

  /** What comes out of the filter for a value is the visit of its projection. */
  lemma FilterProjects(v: Value, root: Node) returns (f: Filter)
    requires SortedNode(root) && Sorted(v) && Countable(v)
    ensures Runs(Fresh(root), Visit(v), f)
    ensures var kept := ProjectRoot(v, root); f.out == if kept.Nothing? then [] else Visit(kept.val)
  {
    f := FilterScans(v, root);
    RootProjects(v, root);
  }

  lemma RootProjects(v: Value, root: Node)
    requires SortedNode(root) && Sorted(v)
    ensures ScanRoot(v, root) == ProjectRoot(v, root)
  {
    match v
    case Obj(p) => ScanProjectsProps(p, root, 0);
    case Arr(p) => ScanProjectsItems(p, root);
    case _ =>
  }

  // ---- the filter as it runs ----

  /** The headers of the first containers. */
  ghost function HeadersTo(all: seq<State>, i: nat): seq<Event>
    requires Rooted(all) && i <= |all|
  {
    if i == 0 then [] else (RootedPrefix(all, i); Headers(all[..i]))
  }

  lemma RootedPrefix(all: seq<State>, i: nat)
    requires Rooted(all) && 0 < i <= |all|
    ensures Rooted(all[..i])
  {
  }

  lemma OneHeader(all: seq<State>, i: nat, start: seq<Event>)
    requires Rooted(all) && i < |all|
    ensures i == 0 ==> all[i].included
    ensures !all[i].included ==> i > 0 && all[i].node.Just?
    ensures start + HeadersTo(all, i + 1)
      == start + HeadersTo(all, i) + if all[i].included then [] else Header(all[i], all[i - 1].isArray)
  {
    RootedPrefix(all, i + 1);
    var some := all[..i + 1];
    assert some[..i] == all[..i] && some[i] == all[i];
    if i > 0 {
      assert some[i - 1] == all[i - 1];
    } else {
      assert start + [] == start;
    }
  }

  class ObjectFilter {
    var stack: seq<State>
    var state: State
    var nextNode: Maybe<Node>
    /** What the visitor behind the filter was told. */
    var told: seq<Event>

    function Abstract(): Filter
      reads this
    {
      Filter(stack, state, nextNode, told)
    }

    constructor (root: Node)
      ensures Abstract() == Fresh(root)
    {
      stack, state, nextNode, told := [], State(Just(root), 0, 0, true, false), Just(root), [];
    }

    /** Begins one container: by its name, unless it is in an array. */
    method Include(s: State, inArray: bool)
      requires s.node.Just?
      modifies `told
      ensures told == old(told) + Header(s, inArray)
    {
      if !inArray {
        told := told + [PropName(s.node.val.name)];
      }
      told := told + [if s.isArray then BeginArray else BeginObject];
    }

    /** Begins the containers around that are not begun, from the outermost in. */
    method IncludeParents()
      requires Rooted(All(Abstract())) && !state.included
      modifies this
      ensures Abstract() == Opened(old(Abstract()))
    {
      hide Headers;
      hide Header;
      ghost var all, was, start := All(Abstract()), stack, told;
      assert |stack| > 0;
      assert start + HeadersTo(all, 0) == start;
      var i := 0;
      while i < |stack|
        invariant 0 <= i <= |stack| == |was| && state == old(state) && nextNode == old(nextNode)
        invariant forall j :: 0 <= j < |was| ==> stack[j] == if j < i then was[j].(included := true) else was[j]
        invariant told == start + HeadersTo(all, i)
      {
        OneHeader(all, i, start);
        assert all[i] == was[i] && (i > 0 ==> all[i - 1] == was[i - 1]);
        if !stack[i].included {
          Include(stack[i], stack[i - 1].isArray);
          stack := stack[i := stack[i].(included := true)];
        }
        i := i + 1;
      }
      OneHeader(all, i, start);
      assert all[..i + 1] == all && stack == Begun(was);
      Include(state, stack[|stack| - 1].isArray);
      state := state.(included := true);
    }

    /** Moves on to the child of a name, if there is one. */
    method OnPropName(name: Bytes)
      requires Nameable(Abstract(), name)
      modifies this
      ensures Abstract() == OnName(old(Abstract()), name)
    {
      ghost var f := Abstract();
      nextNode := Nothing;
      if state.node.Just? {
        var children := state.node.val.children;
        while true
          invariant f.state.child <= state.child <= |children| && state == f.state.(child := state.child)
          invariant nextNode == Nothing && stack == f.stack && told == f.out
          invariant Skip(children, state.child, name) == Skip(children, f.state.child, name)
          decreases |children| - state.child
        {
          var comp := 1;
          if state.child != |children| {
            comp := StrCmp(children[state.child].name, name);
          }
          if comp == 0 {
            if |children[state.child].children| == 0 {
              state := state.(count := 1);
            } else {
              state := state.(count := 0);
              nextNode := Just(children[state.child]);
            }
            break;
          } else if comp > 0 {
            state := state.(count := 0);
            break;
          }
          state := state.(child := state.child + 1);
        }
      }
      assert Abstract() == Named(f, name);
      if state.count > 0 {
        if !state.included {
          NamedRooted(f, name);
          IncludeParents();
        }
        told := told + [PropName(name)];
      }
    }

    method OnBeginning(isArray: bool, e: Event)
      requires e == if isArray then BeginArray else BeginObject
      modifies this
      ensures Abstract() == OnBegin(old(Abstract()), e)
    {
      stack := stack + [state];
      var included := state.count > 0 || |stack| == 1;
      state := State(nextNode, 0, if state.count >= 1 then SIZE_MAX else state.count, included, isArray);
      if included {
        told := told + [e];
      }
    }

    method OnEnding(e: Event)
      requires |stack| > 0
      modifies this
      ensures Abstract() == OnEnd(old(Abstract()), e)
    {
      if state.included {
        told := told + [e];
      }
      nextNode := state.node;
      state := stack[|stack| - 1];
      stack := stack[..|stack| - 1];
      if state.count > 0 {
        state := state.(count := state.count - 1);
      }
    }

    method OnScalar(e: Event)
      modifies this
      ensures Abstract() == OnValue(old(Abstract()), e)
    {
      if state.count > 0 {
        state := state.(count := state.count - 1);
        told := told + [e];
      }
    }

    method Take(e: Event)
      requires Ready(Abstract(), e)
      modifies this
      ensures Abstract() == On(old(Abstract()), e)
    {
      match e
      case PropName(name) => OnPropName(name);
      case BeginObject => OnBeginning(false, e);
      case BeginArray => OnBeginning(true, e);
      case EndObject => OnEnding(e);
      case EndArray => OnEnding(e);
      case _ => OnScalar(e);
    }
  }

  /** The events of a value through a filter. */
  method FilterValue(v: Value, root: Node) returns (told: seq<Event>)
    requires Countable(v)
    ensures var kept := ScanRoot(v, root); told == if kept.Nothing? then [] else Visit(kept.val)
    ensures SortedNode(root) && Sorted(v) ==>
      (var kept := ProjectRoot(v, root); told == if kept.Nothing? then [] else Visit(kept.val))
  {
    var filter := new ObjectFilter(root);
    ghost var end := FilterScans(v, root);
    if SortedNode(root) && Sorted(v) {
      ghost var same := FilterProjects(v, root);
      OneRun(Fresh(root), Visit(v), end, same);
    }
    var events := Visit(v);
    assert events[0..] == events;
    for i := 0 to |events|
      invariant Runs(filter.Abstract(), events[i..], end)
    {
      assert events[i..][0] == events[i] && events[i..][1..] == events[i + 1..];
      filter.Take(events[i]);
    }
    told := filter.told;
  }
}
