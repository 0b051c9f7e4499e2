/** The selection of a filter: a tree of names, made from dotted property paths. */
module Selection {
  import opened Bytes
  import opened Values
  import opened ValueOrder
  import opened Filter
  import E = Events

  const DOT: Byte := 46

  type Path = seq<Bytes>

  // ---- splitting ----

  function IndexOf(s: Bytes, c: Byte, i: nat): (n: nat)
    requires i <= |s|
    ensures i <= n <= |s| && (n < |s| ==> s[n] == c) && forall k :: i <= k < n ==> s[k] != c
    decreases |s| - i
  {
    if i == |s| || s[i] == c then i else IndexOf(s, c, i + 1)
  }

  /** The parts between separators, from a place on; empty parts are left out. */
  function Parts(s: Bytes, i: nat): Path
    requires i <= |s|
    decreases |s| - i
  {
    var n := IndexOf(s, DOT, i);
    (if n > i then [s[i..n]] else []) + if n < |s| then Parts(s, n + 1) else []
  }

  lemma PartsDefined(s: Bytes, i: nat, n: nat)
    requires i <= |s| && n == IndexOf(s, DOT, i)
    ensures Parts(s, i) == (if n > i then [s[i..n]] else []) + if n < |s| then Parts(s, n + 1) else []
  {
  }

  lemma PartsStep(parts: Path, s: Bytes, start: nat, idx: nat)
    requires start <= |s| && idx == IndexOf(s, DOT, start)
    ensures parts + Parts(s, start)
      == (if idx > start then parts + [s[start..idx]] else parts) + if idx < |s| then Parts(s, idx + 1) else []
  {
    var rest := if idx < |s| then Parts(s, idx + 1) else [];
    var first := if idx > start then [s[start..idx]] else [];
    PartsDefined(s, start, idx);
    hide Parts;
    assert Parts(s, start) == first + rest;
    PartsGrouped(parts, first, rest);
  }

  lemma PartsGrouped(parts: Path, first: Path, rest: Path)
    ensures parts + (first + rest) == (parts + first) + rest && parts + [] == parts
  {
  }

  lemma PartsEnd(parts: Path, s: Bytes)
    ensures Parts(s, |s|) == [] && parts + [] == parts && [] + parts == parts
  {
  }

  /** A separator ends a part, and nothing else does; no part is empty. */
  lemma PartsCut(a: Bytes, b: Bytes)
    ensures Parts(a + [DOT] + b, 0) == Parts(a, 0) + Parts(b, 0)
    ensures DOT !in a ==> Parts(a, 0) == if |a| == 0 then [] else [a]
  {
    hide Parts;
    hide IndexOf;
    PartsBefore(a, b, 0);
    PartsBehind(a + [DOT], b, 0);
    if DOT !in a {
      FoundAt(a, 0, |a|);
      PartsDefined(a, 0, |a|);
      assert a[0..|a|] == a;
    }
  }

  lemma FoundAt(s: Bytes, i: nat, n: nat)
    requires i <= n <= |s| && (n < |s| ==> s[n] == DOT) && forall k :: i <= k < n ==> s[k] != DOT
    ensures IndexOf(s, DOT, i) == n
  {
  }

  /** What is before a separator is split as if that were the end. */
  lemma {:induction false} PartsBefore(a: Bytes, b: Bytes, i: nat)
    requires i <= |a|
    ensures Parts(a + [DOT] + b, i) == Parts(a, i) + Parts(a + [DOT] + b, |a| + 1)
    decreases |a| - i
  {
    hide Parts;
    hide IndexOf;
    var s := a + [DOT] + b;
    var n := IndexOf(a, DOT, i);
    SameBefore(a, b, s, i, n);
    PartsDefined(a, i, n);
    PartsDefined(s, i, n);
    var first := if n > i then [a[i..n]] else [];
    if n < |a| {
      PartsBefore(a, b, n + 1);
      Grouped(first, Parts(a, n + 1), Parts(s, |a| + 1));
    } else {
      assert first + [] == first;
    }
  }

  lemma SameBefore(a: Bytes, b: Bytes, s: Bytes, i: nat, n: nat)
    requires s == a + [DOT] + b && i <= n <= |a| && (n < |a| ==> a[n] == DOT) && forall k :: i <= k < n ==> a[k] != DOT
    ensures IndexOf(s, DOT, i) == n && s[i..n] == a[i..n]
  {
    FoundAt(s, i, n);
  }

  lemma Grouped(x: Path, y: Path, z: Path)
    ensures x + (y + z) == (x + y) + z
  {
  }

  /** Where the text begins does not matter. */
  lemma {:induction false} PartsBehind(before: Bytes, s: Bytes, i: nat)
    requires i <= |s|
    ensures Parts(before + s, |before| + i) == Parts(s, i)
    decreases |s| - i
  {
    hide Parts;
    hide IndexOf;
    var n := IndexOf(s, DOT, i);
    SameBehind(before, s, before + s, i, n);
    PartsDefined(s, i, n);
    PartsDefined(before + s, |before| + i, |before| + n);
    if n < |s| {
      PartsBehind(before, s, n + 1);
    }
  }

  lemma SameBehind(before: Bytes, s: Bytes, all: Bytes, i: nat, n: nat)
    requires all == before + s && i <= n <= |s| && (n < |s| ==> s[n] == DOT) && forall k :: i <= k < n ==> s[k] != DOT
    ensures IndexOf(all, DOT, |before| + i) == |before| + n && all[|before| + i..|before| + n] == s[i..n]
  {
    assert forall k :: |before| <= k < |all| ==> all[k] == s[k - |before|];
    FoundAt(all, |before| + i, |before| + n);
  }

  method Split(s: Bytes) returns (parts: Path)
    ensures parts == Parts(s, 0)
  {
    hide Parts;
    parts := [];
    var idx, idxStart := 0, 0;
    PartsEnd(Parts(s, 0), s);
    while true
      invariant idx == idxStart <= |s| && parts + Parts(s, idx) == Parts(s, 0)
      decreases |s| - idx
    {
      idx := IndexOf(s, DOT, idx);
      PartsStep(parts, s, idxStart, idx);
      if idx > idxStart {
        parts := parts + [s[idxStart..idx]];
      }
      PartsEnd(parts, s);
      if idx == |s| {
        return;
      }
      idx := idx + 1;
      idxStart := idx;
      if idx >= |s| {
        return;
      }
    }
  }

  // ---- paths and their order ----

  /** Names of properties: not empty, and of characters above the separator. */
  predicate Proper(p: Path) {
    forall i :: 0 <= i < |p| ==> ProperName(p[i])
  }

  predicate ProperName(s: Bytes) { |s| > 0 && forall k :: 0 <= k < |s| ==> s[k] > DOT }

  function Dotted(p: Path): Bytes {
    if |p| == 0 then [] else if |p| == 1 then p[0] else p[0] + ([DOT] + Dotted(p[1..]))
  }

  /** Name by name; a path is above those it goes on from. */
  predicate Below(p: Path, q: Path) {
    |q| > 0 && (|p| == 0 || Lex(p[0], q[0]) < 0 || (p[0] == q[0] && Below(p[1..], q[1..])))
  }

  /** A name followed by the separator or by nothing is below one that is above it, whatever follows that. */
  lemma NamesDecide(a: Bytes, x: Bytes, b: Bytes, y: Bytes)
    requires ProperName(a) && ProperName(b) && (x == [] || x[0] == DOT) && (y == [] || y[0] == DOT) && Lex(a, b) > 0
    ensures Lex(a + x, b + y) > 0
  {
    LexFlip(a, b);
    UnderOrPrefix(a, b);
    if Under(b, a) {
      UnderExtended(b, a, y, x);
      UnderIsBelow(b + y, a + x);
    } else if Under(a, b) {
      UnderIsBelow(a, b);
    } else if b <= a {
      LongerName(a, x, b, y, a[|b|..]);
    } else {
      assert b == a + b[|a|..];
      LexExtended(a, b[|a|..]);
    }
  }

  lemma LongerName(a: Bytes, x: Bytes, b: Bytes, y: Bytes, t: Bytes)
    requires ProperName(a) && a == b + t && Lex(a, b) > 0 && (y == [] || y[0] == DOT)
    ensures Lex(a + x, b + y) > 0
  {
    LexZero(b, b);
    assert b + [] == b;
    assert |t| > 0 && t[0] == a[|b|] > DOT;
    assert a + x == b + (t + x);
    LexPrefix(b, t + x, y);
    assert (t + x)[0] == t[0];
  }

  /** The order of the dotted strings is the order of the paths. */
  lemma {:induction false} DottedOrder(p: Path, q: Path)
    requires Proper(p) && Proper(q) && |p| > 0 && |q| > 0 && Lex(Dotted(p), Dotted(q)) < 0
    ensures Below(p, q)
    decreases |p|
  {
    var x := if |p| == 1 then [] else [DOT] + Dotted(p[1..]);
    var y := if |q| == 1 then [] else [DOT] + Dotted(q[1..]);
    assert Dotted(p) == p[0] + x && Dotted(q) == q[0] + y;
    LexZero(p[0], q[0]);
    if Lex(p[0], q[0]) > 0 {
      NamesDecide(p[0], x, q[0], y);
    } else if p[0] == q[0] {
      LexPrefix(p[0], x, y);
      if |p| > 1 && |q| > 1 {
        LexPrefix([DOT], Dotted(p[1..]), Dotted(q[1..]));
        DottedOrder(p[1..], q[1..]);
      }
    }
  }

  lemma {:induction false} PrefixBelow(r: Path, p: Path, q: Path)
    requires r <= p && Below(p, q)
    ensures Below(r, q)
    decreases |r|
  {
    if |r| > 0 {
      if p[0] == q[0] && Below(p[1..], q[1..]) {
        assert r[1..] <= p[1..];
        PrefixBelow(r[1..], p[1..], q[1..]);
      }
    }
  }

  /** The first part ends where its name does. */
  lemma FirstPart(before: Bytes, name: Bytes, rest: Bytes, s: Bytes)
    requires ProperName(name) && s == before + (name + rest) && (rest == [] || rest[0] == DOT)
    ensures var end := |before| + |name|;
      IndexOf(s, DOT, |before|) == end && s[|before|..end] == name && end == |s| - |rest|
  {
    var end := |before| + |name|;
    assert forall k :: |before| <= k < end ==> s[k] == name[k - |before|];
    assert rest != [] ==> s[end] == rest[0];
  }

  /** What splitting yields from a place where a name begins. */
  lemma PartsFrom(s: Bytes, i: nat, end: nat, name: Bytes)
    requires i < end <= |s| && IndexOf(s, DOT, i) == end && s[i..end] == name
    ensures Parts(s, i) == [name] + if end < |s| then Parts(s, end + 1) else []
  {
    hide IndexOf;
    PartsDefined(s, i, end);
  }

  /** Splitting a dotted path gives the path. */
  lemma {:induction false} PartsOfDotted(p: Path, before: Bytes, s: Bytes)
    requires Proper(p) && |p| > 0 && s == before + Dotted(p)
    ensures Parts(s, |before|) == p
    decreases |p|
  {
    hide Parts;
    hide IndexOf;
    var name, rest := p[0], p[1..];
    var end := |before| + |name|;
    assert p == [name] + rest;
    if |p| == 1 {
      assert name + [] == name;
      FirstPart(before, name, [], s);
      PartsFrom(s, |before|, end, name);
    } else {
      var more, next := Dotted(rest), before + name + [DOT];
      FirstPart(before, name, [DOT] + more, s);
      PartsFrom(s, |before|, end, name);
      DottedFrom(before, name, more, s, next);
      hide Dotted;
      PartsOfDotted(rest, next, s);
    }
  }

  lemma DottedFrom(before: Bytes, name: Bytes, more: Bytes, s: Bytes, next: Bytes)
    requires s == before + (name + ([DOT] + more)) && next == before + name + [DOT]
    ensures s == next + more
  {
  }

  // ---- the tree ----

  /** The place of a child of a name. */
  function ChildOf(children: seq<Node>, name: Bytes): (i: nat)
    ensures i <= |children| && (i < |children| ==> children[i].name == name)
    ensures forall k :: 0 <= k < i ==> children[k].name != name
  {
    if |children| == 0 || children[0].name == name then 0 else
      var i := 1 + ChildOf(children[1..], name);
      assert forall k :: 1 <= k < i ==> children[1..][k - 1] == children[k];
      i
  }

  /** A path goes down the names that are there, adds those that are not, and stops where all is selected already. */
  function Insert(n: Node, q: Path): Node
    decreases |q|
  {
    if |q| == 0 then n
    else
      var i := ChildOf(n.children, q[0]);
      if i == |n.children| then n.(children := n.children + [Insert(Node(q[0], []), q[1..])])
      else if |n.children[i].children| == 0 then n
      else n.(children := n.children[i := Insert(n.children[i], q[1..])])
  }

  method Init(selectProps: seq<Bytes>) returns (root: Node)
    ensures root == InsertAll(seq(|selectProps|, i requires 0 <= i < |selectProps| => Parts(selectProps[i], 0)))
  {
    root := Node([], []);
    ghost var paths := seq(|selectProps|, i requires 0 <= i < |selectProps| => Parts(selectProps[i], 0));
    for k := 0 to |selectProps|
      invariant root == InsertAll(paths[..k])
    {
      var parts := Split(selectProps[k]);
      assert paths[..k + 1][..k] == paths[..k];
      root := Insert(root, parts);
    }
    assert paths[..|selectProps|] == paths;
  }

  function InsertAll(paths: seq<Path>): Node {
    if |paths| == 0 then Node([], []) else Insert(InsertAll(paths[..|paths| - 1]), paths[|paths| - 1])
  }

  // ---- what is selected ----

  /** A path is selected when its names lead to a place without children. */
  predicate Selects(n: Node, path: Path)
    decreases |path|
  {
    |path| > 0 &&
    var i := ChildOf(n.children, path[0]);
    i < |n.children| && (|n.children[i].children| == 0 || Selects(n.children[i], path[1..]))
  }

  predicate SortedTree(n: Node) {
    && (forall i, j :: 0 <= i < j < |n.children| ==> Lex(n.children[i].name, n.children[j].name) < 0)
    && (forall i :: 0 <= i < |n.children| ==> ProperName(n.children[i].name) && SortedTree(n.children[i]))
  }

  /** The last path of the tree. */
  function Last(n: Node): Path {
    if |n.children| == 0 then []
    else
      var child := n.children[|n.children| - 1];
      [child.name] + Last(child)
  }

  predicate After(n: Node, q: Path) { Last(n) == q || Below(Last(n), q) }

  lemma NotAChild(children: seq<Node>, name: Bytes)
    requires forall k :: 0 <= k < |children| ==> children[k].name != name
    ensures ChildOf(children, name) == |children|
  {
  }

  lemma ChildIs(children: seq<Node>, i: nat)
    requires i < |children| && forall k :: 0 <= k < i ==> children[k].name != children[i].name
    ensures ChildOf(children, children[i].name) == i
  {
  }

  /** A chain of names is the only path of a new place. */
  lemma {:induction false} ChainSelects(name: Bytes, q: Path, path: Path)
    requires Proper(q) && ProperName(name)
    ensures var n := Insert(Node(name, []), q);
      && n.name == name && SortedTree(n) && Last(n) == q
      && (|n.children| == 0 <==> q == [])
      && (q != [] ==> (Selects(n, path) <==> q <= path))
    decreases |q|
  {
    if |q| > 0 {
      NotAChild([], q[0]);
      var child := Insert(Node(q[0], []), q[1..]);
      assert [] + [child] == [child];
      var n := Insert(Node(name, []), q);
      assert n == Node(name, [child]);
      ChainSelects(q[0], q[1..], if |path| > 0 then path[1..] else []);
      hide Insert;
      assert SortedTree(n);
      hide SortedTree;
      FirstOfPath(q, path);
      if |path| > 0 {
        if path[0] == q[0] {
          ChildIs(n.children, 0);
        } else {
          NotAChild(n.children, path[0]);
        }
      }
    }
  }

  /** Paths in order keep the tree in order, and add themselves to what is selected. */
  lemma {:induction false} InsertSelects(n: Node, q: Path, path: Path)
    requires SortedTree(n) && Proper(q) && |q| > 0 && After(n, q)
    ensures var m := Insert(n, q);
      && m.name == n.name && SortedTree(m) && Last(m) <= q && |m.children| > 0
      && (Selects(m, path) <==> Selects(n, path) || q <= path)
    decreases |q|
  {
    var last := |n.children| - 1;
    if last >= 0 && n.children[last].name == q[0] {
      InsertBelow(n, q, path, last);
    } else {
      forall k | 0 <= k < |n.children| ensures Lex(n.children[k].name, q[0]) < 0 && n.children[k].name != q[0] {
        if k < last {
          LexTrans(n.children[k].name, n.children[last].name, q[0]);
        }
        LexZero(n.children[k].name, q[0]);
      }
      NotAChild(n.children, q[0]);
      ChainSelects(q[0], q[1..], if |path| > 0 then path[1..] else []);
      InsertBehind(n, q, path, Insert(Node(q[0], []), q[1..]));
    }
  }

  /** A new place behind all others. */
  lemma InsertBehind(n: Node, q: Path, path: Path, child: Node)
    requires SortedTree(n) && |q| > 0 && ProperName(q[0]) && child.name == q[0] && SortedTree(child) && Last(child) == q[1..]
    requires forall k :: 0 <= k < |n.children| ==> Lex(n.children[k].name, q[0]) < 0 && n.children[k].name != q[0]
    requires |child.children| == 0 <==> q[1..] == []
    requires |path| > 0 && q[1..] != [] ==> (Selects(child, path[1..]) <==> q[1..] <= path[1..])
    ensures var m := n.(children := n.children + [child]);
      SortedTree(m) && Last(m) == q && (Selects(m, path) <==> Selects(n, path) || q <= path)
  {
    var m := n.(children := n.children + [child]);
    SortedBehind(n, child, q);
    FirstOfPath(q, path);
    hide Last;
    hide SortedTree;
    if |path| > 0 {
      if path[0] == q[0] {
        assert m.children[|n.children|] == child;
        ChildIs(m.children, |n.children|);
        NotAChild(n.children, q[0]);
      } else {
        MoreChildren(n.children, child, path[0]);
      }
    }
  }

  lemma SortedBehind(n: Node, child: Node, q: Path)
    requires SortedTree(n) && |q| > 0 && ProperName(q[0]) && child.name == q[0] && SortedTree(child) && Last(child) == q[1..]
    requires forall k :: 0 <= k < |n.children| ==> Lex(n.children[k].name, q[0]) < 0
    ensures var m := n.(children := n.children + [child]);
      SortedTree(m) && Last(m) == q && m.children[..|n.children|] == n.children
  {
    hide Lex;
    hide ProperName;
    hide Last;
    hide SortedTree;
    var m := n.(children := n.children + [child]);
    LastOfMore(n, child);
    assert q == [q[0]] + q[1..];
    SortedMore(n, child);
  }

  lemma SortedMore(n: Node, child: Node)
    requires SortedTree(n) && ProperName(child.name) && SortedTree(child)
    requires forall k :: 0 <= k < |n.children| ==> Lex(n.children[k].name, child.name) < 0
    ensures SortedTree(n.(children := n.children + [child]))
  {
    hide Lex;
    hide ProperName;
    var m := n.(children := n.children + [child]);
    forall i | 0 <= i < |m.children| ensures ProperName(m.children[i].name) && SortedTree(m.children[i]) {
      assert i < |n.children| ==> m.children[i] == n.children[i];
    }
  }

  lemma LastOfMore(n: Node, child: Node)
    ensures Last(n.(children := n.children + [child])) == [child.name] + Last(child)
  {
    assert n.(children := n.children + [child]).children[|n.children|] == child;
  }

  lemma MoreChildren(children: seq<Node>, child: Node, name: Bytes)
    requires child.name != name
    ensures var i := ChildOf(children, name); var j := ChildOf(children + [child], name);
      if i < |children| then j == i else j == |children| + 1
  {
    var more := children + [child];
    var i := ChildOf(children, name);
    if i < |children| {
      assert more[i] == children[i];
      ChildIs(more, i);
    } else {
      NotAChild(more, name);
    }
  }

  lemma AfterBelow(n: Node, q: Path, child: Node)
    requires |n.children| > 0 && child == n.children[|n.children| - 1] && |q| > 0 && child.name == q[0] && After(n, q)
    ensures After(child, q[1..])
    ensures |child.children| > 0 ==> |q[1..]| > 0
  {
    LexZero(q[0], q[0]);
    var r := Last(n);
    assert r == [q[0]] + Last(child);
    assert r[0] == q[0] && r[1..] == Last(child);
  }

  /** Into the last place: nothing more if it is selected whole, else one path more in it. */
  lemma {:induction false} InsertBelow(n: Node, q: Path, path: Path, last: nat)
    requires SortedTree(n) && Proper(q) && |q| > 0 && After(n, q)
    requires last == |n.children| - 1 && n.children[last].name == q[0]
    ensures var m := Insert(n, q);
      && m.name == n.name && SortedTree(m) && Last(m) <= q && |m.children| > 0
      && (Selects(m, path) <==> Selects(n, path) || q <= path)
    decreases |q|, 0
  {
    var child, rest := n.children[last], q[1..];
    var tail := if |path| > 0 then path[1..] else [];
    LastIsChild(n, last);
    AfterBelow(n, q, child);
    FirstOfPath(q, path);
    if |child.children| > 0 {
      assert Proper(rest);
      InsertSelects(child, rest, tail);
      assert Insert(n, q) == n.(children := n.children[last := Insert(child, rest)]);
      hide Insert;
      ReplacedLast(n, last, Insert(child, rest), path);
      hide SortedTree;
      assert [q[0]] + Last(Insert(child, rest)) <= [q[0]] + rest;
    } else {
      assert Last(n) == [q[0]] + [];
      assert q <= path ==> Selects(n, path);
    }
  }

  lemma FirstOfPath(q: Path, path: Path)
    requires |q| > 0
    ensures q == [q[0]] + q[1..]
    ensures |path| > 0 ==> (q <= path <==> q[0] == path[0] && q[1..] <= path[1..])
  {
    if |path| > 0 {
      assert path == [path[0]] + path[1..];
    }
  }

  lemma ReplacedLast(n: Node, last: nat, child: Node, path: Path)
    requires SortedTree(n) && last == |n.children| - 1 && child.name == n.children[last].name && SortedTree(child)
    requires |child.children| > 0 && |n.children[last].children| > 0
    ensures var m := n.(children := n.children[last := child]);
      && SortedTree(m) && Last(m) == [child.name] + Last(child)
      && (|path| == 0 || path[0] != child.name ==> (Selects(m, path) <==> Selects(n, path)))
      && (|path| > 0 && path[0] == child.name ==> (Selects(m, path) <==> Selects(child, path[1..])))
    ensures |path| > 0 && path[0] == child.name ==> (Selects(n, path) <==> Selects(n.children[last], path[1..]))
  {
    hide Lex;
    hide ProperName;
    var m := n.(children := n.children[last := child]);
    assert forall k :: 0 <= k < last ==> m.children[k] == n.children[k];
    assert SortedTree(m);
    LastIsChild(n, last);
    hide SortedTree;
    if |path| > 0 {
      SameNames(n.children, m.children, path[0]);
    }
  }

  lemma LastIsChild(n: Node, last: nat)
    requires SortedTree(n) && last == |n.children| - 1
    ensures ChildOf(n.children, n.children[last].name) == last
  {
    forall k | 0 <= k < last ensures n.children[k].name != n.children[last].name {
      LexZero(n.children[k].name, n.children[last].name);
    }
    ChildIs(n.children, last);
  }

  lemma SameNames(a: seq<Node>, b: seq<Node>, name: Bytes)
    requires |a| == |b| && forall k :: 0 <= k < |a| ==> a[k].name == b[k].name
    ensures ChildOf(a, name) == ChildOf(b, name)
  {
    var i := ChildOf(a, name);
    if i < |a| {
      ChildIs(b, i);
    } else {
      NotAChild(b, name);
    }
  }

  // ---- the tree of a set of paths ----

  predicate Selection(paths: seq<Path>) {
    && (forall i :: 0 <= i < |paths| ==> Proper(paths[i]) && |paths[i]| > 0)
    && (forall i :: 0 < i < |paths| ==> Below(paths[i - 1], paths[i]))
  }

  lemma EmptyTree(q: Path, path: Path)
    requires |q| > 0
    ensures SortedTree(Node([], [])) && After(Node([], []), q) && !Selects(Node([], []), path)
  {
  }

  /** Some path of a selection leads to another or is that one. */
  predicate SomeBegins(paths: seq<Path>, path: Path) {
    exists i :: 0 <= i < |paths| && paths[i] <= path
  }

  lemma SomeBeginsMore(paths: seq<Path>, q: Path, path: Path)
    ensures SomeBegins(paths + [q], path) <==> SomeBegins(paths, path) || q <= path
  {
    var all := paths + [q];
    assert all[|paths|] == q;
    if i :| 0 <= i < |paths| && paths[i] <= path {
      assert all[i] <= path;
    }
  }

  /** What the tree of some paths selects is what goes on from one of them. */
  lemma {:induction false} TreeSelects(paths: seq<Path>, path: Path)
    requires Selection(paths)
    ensures SortedTree(InsertAll(paths)) && (|paths| > 0 ==> Last(InsertAll(paths)) <= paths[|paths| - 1])
    ensures Selects(InsertAll(paths), path) <==> SomeBegins(paths, path)
    decreases |paths|
  {
    if |paths| == 0 {
      EmptyTree([[]], path);
    } else {
      hide Insert;
      hide SortedTree;
      hide Selects;
      hide Below;
      hide Last;
      hide SomeBegins;
      var n := |paths| - 1;
      var fewer, q := paths[..n], paths[n];
      assert paths == fewer + [q];
      TreeSelects(fewer, path);
      SomeBeginsMore(fewer, q, path);
      TreeFollows(fewer, q, path);
      InsertSelects(InsertAll(fewer), q, path);
    }
  }

  lemma TreeFollows(fewer: seq<Path>, q: Path, path: Path)
    requires Selection(fewer + [q]) && SortedTree(InsertAll(fewer))
    requires |fewer| > 0 ==> Last(InsertAll(fewer)) <= fewer[|fewer| - 1]
    ensures Proper(q) && |q| > 0 && After(InsertAll(fewer), q)
  {
    var n, all := |fewer|, fewer + [q];
    assert all[n] == q;
    if n > 0 {
      assert all[n - 1] == fewer[n - 1];
      PrefixBelow(Last(InsertAll(fewer)), fewer[n - 1], q);
    } else {
      EmptyTree(q, path);
    }
  }

  lemma {:induction false} TreeIsSorted(n: Node)
    requires SortedTree(n)
    ensures SortedNode(n)
  {
    forall i | 0 <= i < |n.children| ensures SortedNode(n.children[i]) && CStr(n.children[i].name) == n.children[i].name {
      TreeIsSorted(n.children[i]);
      CStrPlain(n.children[i].name);
    }
  }

  /**
   * From a set of dotted strings, in the order the set is iterated in, to the tree: it is in the order
   * the filter needs, and selects what goes on from a path of the set.
   */
  lemma SelectionSelects(strings: seq<Bytes>, paths: seq<Path>, path: Path)
    requires |strings| == |paths| && Ascending(strings)
    requires forall i :: 0 <= i < |paths| ==> Proper(paths[i]) && |paths[i]| > 0 && strings[i] == Dotted(paths[i])
    ensures var root := InsertAll(seq(|strings|, i requires 0 <= i < |strings| => Parts(strings[i], 0)));
      SortedNode(root) && (Selects(root, path) <==> SomeBegins(paths, path))
  {
    var split := seq(|strings|, i requires 0 <= i < |strings| => Parts(strings[i], 0));
    forall i | 0 <= i < |paths| ensures split[i] == paths[i] {
      assert [] + Dotted(paths[i]) == Dotted(paths[i]);
      PartsOfDotted(paths[i], [], strings[i]);
    }
    assert split == paths;
    forall i | 0 < i < |paths| ensures Below(paths[i - 1], paths[i]) {
      assert Lex(strings[i - 1], strings[i]) < 0;
      DottedOrder(paths[i - 1], paths[i]);
    }
    TreeSelects(paths, path);
    TreeIsSorted(InsertAll(paths));
  }

  // ---- names below the separator ----

  const OUT_OF_ORDER := Node([], [Node([97, 45], []), Node([97], [Node([98], [])])])

  /** With a name that has a character below the separator, the dotted strings come in another order than the names. */
  lemma OrderBroken()
    ensures var strings: seq<Bytes> := [[97, 45], [97, 46, 98]];
      Ascending(strings) && InsertAll([Parts(strings[0], 0), Parts(strings[1], 0)]) == OUT_OF_ORDER
    ensures Selects(OUT_OF_ORDER, [[97], [98]]) && !SortedNode(OUT_OF_ORDER)
  {
    var a: Bytes, b: Bytes := [97, 45], [97, 46, 98];
    assert Lex(a, b) < 0 by {
      assert a[1..] == [45] && b[1..] == [46, 98];
    }
    PartsOfDash(a, b);
    TreeOfDash(a);
    PathInDash();
    DashAbove();
    hide Parts;
    hide InsertAll;
    hide Selects;
  }

  lemma TreeOfDash(a: Bytes)
    requires a == [97, 45]
    ensures InsertAll([[a], [[97], [98]]]) == OUT_OF_ORDER
  {
    var p: Path, q: Path := [a], [[97], [98]];
    var one := Node([], [Node(a, [])]);
    NotAChild([], a);
    assert [] + [Node(a, [])] == [Node(a, [])];
    assert Insert(Node([], []), p) == one;
    NotAChild(one.children, q[0]);
    assert q[1..] == [[98]];
    ChainOfOne([97], [98]);
    assert one.children + [Node([97], [Node([98], [])])] == OUT_OF_ORDER.children;
    assert Insert(one, q) == OUT_OF_ORDER;
    hide Insert;
    assert [p, q][..1] == [p] && [p][..0] == [];
    assert InsertAll([p]) == one;
  }

  lemma PathInDash()
    ensures Selects(OUT_OF_ORDER, [[97], [98]])
  {
    var path: Path := [[97], [98]];
    assert path[1..] == [[98]];
    ChildIs(OUT_OF_ORDER.children, 1);
    ChildIs(OUT_OF_ORDER.children[1].children, 0);
    assert Selects(OUT_OF_ORDER.children[1], path[1..]);
  }

  lemma DashAbove()
    ensures StrCmp([97, 45], [97]) > 0
  {
    var a: Bytes := [97, 45];
    assert a[1..] == [45] && a[1..][1..] == [];
    assert CStr(a) == [97] + CStr([45]) && CStr([45]) == [45] + CStr([]);
    assert CStr(a) == [97, 45];
    LexExtended([97], [45]);
    assert [97] + [45] == [97, 45];
    LexFlip([97], [97, 45]);
  }

  lemma ChainOfOne(name: Bytes, only: Bytes)
    ensures Insert(Node(name, []), [only]) == Node(name, [Node(only, [])])
  {
    NotAChild([], only);
    assert [] + [Node(only, [])] == [Node(only, [])];
    assert [only][1..] == [];
  }

  lemma PartsOfDash(a: Bytes, b: Bytes)
    requires a == [97, 45] && b == [97, 46, 98]
    ensures Parts(a, 0) == [a] && Parts(b, 0) == [[97], [98]]
  {
    assert IndexOf(a, DOT, 0) == 2 && a[0..2] == a;
    assert [a] + [] == [a];
    assert IndexOf(b, DOT, 2) == 3 && b[2..3] == [98];
    assert [b[2..3]] + [] == [b[2..3]];
    assert IndexOf(b, DOT, 0) == 1 && b[0..1] == [97];
    assert [[97]] + [[98]] == [[97], [98]];
  }

  // ---- exactly the trees in order are filtered by rightly ----

  /** What the visitor is told of what is left of a value. */
  function Told(kept: Maybe<Value>): seq<E.Event> { if kept.Nothing? then [] else E.Visit(kept.val) }

  /** Names that are told apart, at every place. */
  predicate Apart(n: Node) {
    && (forall i :: 0 <= i < |n.children| ==> NulFree(n.children[i].name) && Apart(n.children[i]))
    && (forall i, j :: 0 <= i < j < |n.children| ==> n.children[i].name != n.children[j].name)
  }

  /** Paths of names without NULs, in whatever order, make such a tree. */
  lemma {:induction false} InsertApart(n: Node, q: Path)
    requires Apart(n) && forall i :: 0 <= i < |q| ==> NulFree(q[i])
    ensures Apart(Insert(n, q)) && Insert(n, q).name == n.name
    decreases |q|
  {
    if |q| > 0 {
      var i := ChildOf(n.children, q[0]);
      if i == |n.children| {
        InsertApart(Node(q[0], []), q[1..]);
      } else if |n.children[i].children| > 0 {
        InsertApart(n.children[i], q[1..]);
      }
    }
  }

  lemma {:induction false} TreeApart(paths: seq<Path>)
    requires forall k, i :: 0 <= k < |paths| && 0 <= i < |paths[k]| ==> NulFree(paths[k][i])
    ensures Apart(InsertAll(paths))
  {
    if |paths| > 0 {
      TreeApart(paths[..|paths| - 1]);
      InsertApart(InsertAll(paths[..|paths| - 1]), paths[|paths| - 1]);
    }
  }

  lemma NamesApart(a: Bytes, b: Bytes)
    requires NulFree(a) && NulFree(b)
    ensures StrCmp(a, b) == 0 <==> a == b
    ensures StrCmp(a, b) > 0 <==> StrCmp(b, a) < 0
  {
    CStrPlain(a);
    CStrPlain(b);
    LexZero(a, b);
    LexFlip(a, b);
  }

  lemma {:induction false} FindsIt(children: seq<Node>, i: nat)
    requires i < |children| && forall k :: 0 <= k < |children| ==> NulFree(children[k].name)
    requires forall k, l :: 0 <= k < l < |children| ==> children[k].name != children[l].name
    ensures Find(children, children[i].name) == Just(children[i])
    decreases |children|
  {
    NamesApart(children[0].name, children[i].name);
    if i > 0 {
      assert children[1..][i - 1] == children[i];
      FindsIt(children[1..], i - 1);
    }
  }

  /** A value of which something is selected. */
  function Selected(n: Node): Value
    decreases n
  {
    if |n.children| == 0 then Null else Obj(Prop(n.children[0].name, Selected(n.children[0]), NoProps))
  }

  lemma {:induction false} SelectedKept(n: Node)
    requires Apart(n)
    ensures Sorted(Selected(n)) && Countable(Selected(n)) && (|n.children| > 0 ==> Project(Selected(n), n).Just?)
  {
    if |n.children| > 0 {
      SelectedKept(n.children[0]);
      FindsIt(n.children, 0);
    }
  }

  /** A name that stands behind a greater one is passed over. */
  lemma PassedOver(n: Node, i: nat, j: nat)
    requires Apart(n) && i < j < |n.children| && StrCmp(n.children[i].name, n.children[j].name) > 0
    ensures var k := Skip(n.children, 0, n.children[j].name);
      k < |n.children| && StrCmp(n.children[k].name, n.children[j].name) != 0
  {
    var k := Skip(n.children, 0, n.children[j].name);
    assert k <= i;
    NamesApart(n.children[k].name, n.children[j].name);
  }

  lemma SkipTo(n: Node, i: nat)
    requires i < |n.children| && forall k :: 0 <= k < i ==> StrCmp(n.children[k].name, n.children[i].name) < 0
    requires NulFree(n.children[i].name)
    ensures Skip(n.children, 0, n.children[i].name) == i && StrCmp(n.children[i].name, n.children[i].name) == 0
  {
    NamesApart(n.children[i].name, n.children[i].name);
  }

  function One(name: Bytes, v: Value): Props { Prop(name, v, NoProps) }

  /** A property that is selected and passed over. */
  ghost predicate Lost(n: Node, name: Bytes, v: Value) {
    Sorted(v) && Countable(v) && ScanProps(One(name, v), n, 0) == NoProps && ProjectProps(One(name, v), n) != NoProps
  }

  lemma OneLost(name: Bytes, v: Value, n: Node, c: Node)
    requires var k := Skip(n.children, 0, name);
      k < |n.children| && (StrCmp(n.children[k].name, name) != 0 || (n.children[k] == c && |c.children| > 0 && Scan(v, c) == Nothing))
    requires Find(n.children, name) == Just(c) && (|c.children| == 0 || Project(v, c).Just?) && Sorted(v) && Countable(v)
    ensures Lost(n, name, v)
  {
    hide StrCmp;
    assert Prop(name, v, NoProps) == One(name, v);
    assert ScanProps(Prop(name, v, NoProps), n, 0) == NoProps;
    assert ProjectProps(Prop(name, v, NoProps), n) != NoProps;
  }

  lemma LostBehind(n: Node, i: nat, j: nat)
    requires Apart(n) && i < j < |n.children| && StrCmp(n.children[i].name, n.children[j].name) >= 0
    ensures Lost(n, n.children[j].name, Selected(n.children[j]))
  {
    hide Lost;
    hide Selected;
    hide StrCmp;
    NamesApart(n.children[i].name, n.children[j].name);
    PassedOver(n, i, j);
    FindsIt(n.children, j);
    SelectedKept(n.children[j]);
    OneLost(n.children[j].name, Selected(n.children[j]), n, n.children[j]);
  }

  lemma LostBelow(n: Node, i: nat, name: Bytes, v: Value)
    requires Apart(n) && i < |n.children| && |n.children[i].children| > 0 && Lost(n.children[i], name, v)
    requires forall k :: 0 <= k < i ==> StrCmp(n.children[k].name, n.children[i].name) < 0
    ensures Lost(n, n.children[i].name, Obj(One(name, v)))
  {
    hide Lost;
    hide StrCmp;
    FindsIt(n.children, i);
    SkipTo(n, i);
    LostInside(n.children[i], name, v);
    OneLost(n.children[i].name, Obj(One(name, v)), n, n.children[i]);
  }

  lemma LostInside(c: Node, name: Bytes, v: Value)
    requires Lost(c, name, v)
    ensures var inner := Obj(One(name, v));
      Scan(inner, c) == Nothing && Project(inner, c).Just? && Sorted(inner) && Countable(inner)
  {
  }

  /** In a tree out of order there is such a property. */
  lemma {:induction false} PropertyLost(n: Node) returns (name: Bytes, v: Value)
    requires Apart(n) && !SortedNode(n)
    ensures Lost(n, name, v)
    decreases n
  {
    hide Lost;
    hide StrCmp;
    if i, j :| 0 <= i < j < |n.children| && StrCmp(n.children[i].name, n.children[j].name) >= 0 {
      LostBehind(n, i, j);
      name, v := n.children[j].name, Selected(n.children[j]);
    } else {
      var i :| 0 <= i < |n.children| && !SortedNode(n.children[i]);
      var inner, value := PropertyLost(n.children[i]);
      LostBelow(n, i, inner, value);
      name, v := n.children[i].name, Obj(One(inner, value));
    }
  }

  lemma LostTold(name: Bytes, v: Value, root: Node)
    requires ScanProps(One(name, v), root, 0) == NoProps && ProjectProps(One(name, v), root) != NoProps
    ensures Told(ScanRoot(Obj(One(name, v)), root)) != Told(ProjectRoot(Obj(One(name, v)), root))
  {
    VisitEmpty(ProjectProps(One(name, v), root));
    assert |E.Visit(Obj(NoProps))| == 2;
    assert |E.Visit(Obj(ProjectProps(One(name, v), root)))| == 2 + |E.VisitProps(ProjectProps(One(name, v), root))|;
  }

  /** What the filter tells is the projection of every value, exactly when the tree is in order. */
  lemma ProjectsExactly(root: Node)
    requires Apart(root)
    ensures SortedNode(root) <==> forall v :: Sorted(v) && Countable(v) ==> Told(ScanRoot(v, root)) == Told(ProjectRoot(v, root))
  {
    if SortedNode(root) {
      forall v | Sorted(v) && Countable(v) ensures Told(ScanRoot(v, root)) == Told(ProjectRoot(v, root)) {
        RootProjects(v, root);
      }
    } else {
      var name, v := PropertyLost(root);
      LostTold(name, v, root);
      assert Sorted(Obj(One(name, v))) && Countable(Obj(One(name, v)));
    }
  }

  /** So it is for the tree of any paths of names without NULs. */
  lemma SelectionExactly(paths: seq<Path>)
    requires forall k, i :: 0 <= k < |paths| && 0 <= i < |paths[k]| ==> NulFree(paths[k][i])
    ensures var root := InsertAll(paths);
      SortedNode(root) <==> forall v :: Sorted(v) && Countable(v) ==> Told(ScanRoot(v, root)) == Told(ProjectRoot(v, root))
  {
    TreeApart(paths);
    ProjectsExactly(InsertAll(paths));
  }

  /** The tree above is not in order, and a property that it selects is lost. */
  lemma SelectedDropped()
    ensures var v := Obj(One([97], Obj(One([98], Null))));
      Told(ScanRoot(v, OUT_OF_ORDER)) == [E.BeginObject, E.EndObject] && ProjectRoot(v, OUT_OF_ORDER) == Just(v)
  {
    DashAbove();
    var a, b := OUT_OF_ORDER.children[0], OUT_OF_ORDER.children[1];
    assert Skip(OUT_OF_ORDER.children, 0, [97]) == 0;
    FindsIt(OUT_OF_ORDER.children, 1);
    FindsIt(b.children, 0);
    assert ProjectProps(One([98], Null), b) == One([98], Null);
  }
}
