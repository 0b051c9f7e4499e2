/** Shapes: trees of nodes, and trees with one subtree cut out.  The loops of `put` and
    `del` walk down such a hole; everything they need to know about the rest of the tree
    is a property of the context around it. */
module RbZipper {
  import opened RbShape

  datatype Tree = Leaf | Bin(n: Node, c: Color, l: Tree, r: Tree)

  /** The path from the hole up to the root.  `d` says which child of `n` the hole is,
      `sib` is the other child. */
  datatype Ctx = Top | Down(n: Node, c: Color, d: bool, sib: Tree, up: Ctx)

  /** A key, or one of the two ends of the key order. */
  datatype Bound = Below | At(k: int) | Above

  ghost predicate Lt(a: Bound, b: Bound) {
    match (a, b)
    case (At(x), At(y)) => x < y
    case (Below, Below) => false
    case (Above, _) => false
    case (_, Below) => false
    case _ => true
  }

  ghost function Root(t: Tree): Node? { if t.Leaf? then null else t.n }

  ghost predicate RedRoot(t: Tree) { t.Bin? && t.c == Red }

  /** A node whose child on side `d` is `x` and whose other child is `y`. */
  ghost function Mk(n: Node, c: Color, d: bool, x: Tree, y: Tree): Tree {
    if d then Bin(n, c, y, x) else Bin(n, c, x, y)
  }

  ghost function Sub(t: Tree, d: bool): Tree
    requires t.Bin?
  {
    if d then t.r else t.l
  }

  ghost function Nodes(t: Tree): set<Node> {
    if t.Leaf? then {} else Nodes(t.l) + {t.n} + Nodes(t.r)
  }

  ghost function CtxNodes(x: Ctx): set<Node> {
    if x.Top? then {} else CtxNodes(x.up) + {x.n} + Nodes(x.sib)
  }

  /** The nodes on the path itself. */
  ghost function Spine(x: Ctx): set<Node> {
    if x.Top? then {} else Spine(x.up) + {x.n}
  }

  ghost function Plug(x: Ctx, t: Tree): Tree {
    match x
    case Top => t
    case Down(n, c, d, sib, up) => Plug(up, Mk(n, c, d, t, sib))
  }

  /** The node the hole hangs from: the dummy head when the hole is the whole tree. */
  ghost function Holder(x: Ctx, head: Node): Node { if x.Top? then head else x.n }

  ghost function Side(x: Ctx): bool { x.Top? || x.d }

  // ---- what the cells hold ----

  ghost predicate Rep(h: Heap, t: Tree, par: Node?) {
    match t
    case Leaf => true
    case Bin(n, c, l, r) =>
      n in h && h[n] == Cell(c, par, Root(l), Root(r)) && Rep(h, l, n) && Rep(h, r, n)
  }

  ghost predicate RepCtx(h: Heap, x: Ctx, hole: Node?, head: Node) {
    match x
    case Top => head in h && h[head].parent == null && h[head].left == null && h[head].right == hole
    case Down(n, c, d, sib, up) =>
      && n in h
      && h[n] == Cell(c, Holder(up, head), if d then Root(sib) else hole, if d then hole else Root(sib))
      && Rep(h, sib, n)
      && RepCtx(h, up, n, head)
  }

  // ---- search order ----

  ghost predicate Bst(t: Tree, lo: Bound, hi: Bound) {
    match t
    case Leaf => true
    case Bin(n, _, l, r) =>
      Lt(lo, At(n.key)) && Lt(At(n.key), hi) && Bst(l, lo, At(n.key)) && Bst(r, At(n.key), hi)
  }

  ghost function Lo(x: Ctx): Bound {
    match x
    case Top => Below
    case Down(n, _, d, _, up) => if d then At(n.key) else Lo(up)
  }

  ghost function Hi(x: Ctx): Bound {
    match x
    case Top => Above
    case Down(n, _, d, _, up) => if d then Hi(up) else At(n.key)
  }

  ghost predicate BstCtx(x: Ctx) {
    match x
    case Top => true
    case Down(n, _, d, sib, up) =>
      && Lt(Lo(up), At(n.key)) && Lt(At(n.key), Hi(up))
      && (if d then Bst(sib, Lo(up), At(n.key)) else Bst(sib, At(n.key), Hi(up)))
      && BstCtx(up)
  }

  // ---- colours ----

  /** No red node has a red child, and every path down has `k` black nodes. */
  ghost predicate Rb(t: Tree, k: int) {
    match t
    case Leaf => k == 0
    case Bin(_, Black, l, r) => k > 0 && Rb(l, k - 1) && Rb(r, k - 1)
    case Bin(_, Red, l, r) => !RedRoot(l) && !RedRoot(r) && Rb(l, k) && Rb(r, k)
  }

  /** A subtree of black height `k`, with a red root if `red`, may fill the hole. */
  ghost predicate RbCtx(x: Ctx, k: int, red: bool) {
    match x
    case Top => true
    case Down(_, c, _, sib, up) =>
      && Rb(sib, k)
      && (c == Red ==> !red && !RedRoot(sib))
      && RbCtx(up, if c == Black then k + 1 else k, c == Red)
  }

  ghost predicate Proper(t: Tree) {
    Bst(t, Below, Above) && !RedRoot(t) && exists k :: Rb(t, k)
  }

  lemma IsProper(t: Tree, k: int)
    requires Bst(t, Below, Above) && !RedRoot(t) && Rb(t, k)
    ensures Proper(t)
  {
  }

  /** The nodes of `nodes` whose key is another one. */
  ghost function Without(nodes: set<Node>, key: int): set<Node> {
    set n | n in nodes && n.key != key
  }

  // ---- keys and distinctness ----

  lemma KeysInside(t: Tree, lo: Bound, hi: Bound)
    requires Bst(t, lo, hi)
    ensures forall n <- Nodes(t) :: Lt(lo, At(n.key)) && Lt(At(n.key), hi)
  {
  }

  lemma KeysOutside(x: Ctx)
    requires BstCtx(x)
    ensures Lo(x) == Below || Lo(x).At?
    ensures Hi(x) == Above || Hi(x).At?
    ensures forall n <- CtxNodes(x) :: !(Lt(Lo(x), At(n.key)) && Lt(At(n.key), Hi(x)))
  {
    if x.Down? {
      KeysOutside(x.up);
      if x.d { KeysInside(x.sib, Lo(x.up), At(x.n.key)); } else { KeysInside(x.sib, At(x.n.key), Hi(x.up)); }
    }
  }

  lemma BstWiden(t: Tree, lo: Bound, hi: Bound, lo': Bound, hi': Bound)
    requires Bst(t, lo, hi) && (lo == lo' || Lt(lo', lo)) && (hi == hi' || Lt(hi, hi'))
    ensures Bst(t, lo', hi')
  {
  }

  /** In a search tree no node occurs twice. */
  lemma Apart(t: Tree, lo: Bound, hi: Bound)
    requires Bst(t, lo, hi) && t.Bin?
    ensures t.n !in Nodes(t.l) && t.n !in Nodes(t.r) && Nodes(t.l) !! Nodes(t.r)
  {
    KeysInside(t.l, lo, At(t.n.key));
    KeysInside(t.r, At(t.n.key), hi);
  }

  lemma ApartSubs(t: Tree, lo: Bound, hi: Bound)
    requires Bst(t, lo, hi) && t.Bin?
    ensures {t.n} !! Nodes(t.l) !! Nodes(t.r)
    ensures t.l.Bin? ==> t.l.n !in Nodes(t.l.l) && t.l.n !in Nodes(t.l.r)
    ensures t.r.Bin? ==> t.r.n !in Nodes(t.r.l) && t.r.n !in Nodes(t.r.r)
  {
    Apart(t, lo, hi);
    if t.l.Bin? { Apart(t.l, lo, At(t.n.key)); }
    if t.r.Bin? { Apart(t.r, At(t.n.key), hi); }
  }

  lemma ApartCtx(x: Ctx)
    requires BstCtx(x) && x.Down?
    ensures x.n !in CtxNodes(x.up) && x.n !in Nodes(x.sib) && Nodes(x.sib) !! CtxNodes(x.up)
    ensures x.sib.Bin? ==> x.sib.n !in Nodes(x.sib.l) && x.sib.n !in Nodes(x.sib.r) && Nodes(x.sib.l) !! Nodes(x.sib.r)
  {
    KeysOutside(x.up);
    if x.d {
      KeysInside(x.sib, Lo(x.up), At(x.n.key));
      if x.sib.Bin? { Apart(x.sib, Lo(x.up), At(x.n.key)); }
    } else {
      KeysInside(x.sib, At(x.n.key), Hi(x.up));
      if x.sib.Bin? { Apart(x.sib, At(x.n.key), Hi(x.up)); }
    }
  }

  lemma ApartHole(x: Ctx, t: Tree)
    requires BstCtx(x) && Bst(t, Lo(x), Hi(x))
    ensures CtxNodes(x) !! Nodes(t)
  {
    KeysOutside(x);
    KeysInside(t, Lo(x), Hi(x));
  }

  // ---- framing ----

  ghost predicate Kept(h: Heap, h': Heap, nodes: set<Node>) {
    forall n <- nodes :: n in h && n in h' && h'[n] == h[n]
  }

  lemma KeptOutside(h: Heap, h': Heap, touched: set<Node>, nodes: set<Node>)
    requires Touched(h, h', touched) && nodes !! touched && nodes <= h.Keys
    ensures Kept(h, h', nodes)
  {
  }

  lemma TouchedTwice(h: Heap, h1: Heap, h2: Heap, s1: set<Node>, s2: set<Node>)
    requires Touched(h, h1, s1) && Touched(h1, h2, s2)
    ensures Touched(h, h2, s1 + s2)
  {
  }

  lemma RepSame(h: Heap, h': Heap, t: Tree, par: Node?)
    requires Rep(h, t, par)
    requires Kept(h, h', Nodes(t))
    ensures Rep(h', t, par)
  {
    if t.Bin? {
      RepSame(h, h', t.l, t.n);
      RepSame(h, h', t.r, t.n);
    }
  }

  /** Only the root's parent link changes. */
  lemma RepMoved(h: Heap, h': Heap, t: Tree, par: Node?, par': Node?)
    requires Rep(h, t, par)
    requires t.Bin? ==> t.n !in Nodes(t.l) && t.n !in Nodes(t.r)
    requires Kept(h, h', Nodes(t) - Only(Root(t)))
    requires t.Bin? ==> t.n in h' && h'[t.n] == h[t.n].(parent := par')
    ensures Rep(h', t, par')
  {
    if t.Bin? {
      RepSame(h, h', t.l, t.n);
      RepSame(h, h', t.r, t.n);
    }
  }

  lemma RepCtxSame(h: Heap, h': Heap, x: Ctx, hole: Node?, head: Node)
    requires RepCtx(h, x, hole, head)
    requires Kept(h, h', CtxNodes(x) + {head})
    ensures RepCtx(h', x, hole, head)
  {
    if x.Down? {
      RepSame(h, h', x.sib, x.n);
      RepCtxSame(h, h', x.up, x.n, head);
    }
  }

  /** The context stays, except that its hole is filled from a node `hole'`. */
  lemma RepCtxRefilled(h: Heap, h': Heap, x: Ctx, hole: Node?, hole': Node?, head: Node)
    requires RepCtx(h, x, hole, head) && BstCtx(x) && head !in CtxNodes(x)
    requires Kept(h, h', CtxNodes(x) + {head} - {Holder(x, head)})
    requires Holder(x, head) in h && Holder(x, head) in h'
    requires h'[Holder(x, head)] == h[Holder(x, head)].WithChild(Side(x), hole')
    ensures RepCtx(h', x, hole', head)
  {
    if x.Down? {
      ApartCtx(x);
      RepSame(h, h', x.sib, x.n);
      RepCtxSame(h, h', x.up, x.n, head);
    }
  }

  lemma MkNodes(n: Node, c: Color, d: bool, x: Tree, y: Tree)
    ensures Nodes(Mk(n, c, d, x, y)) == {n} + Nodes(x) + Nodes(y)
  {
  }

  lemma MkRep(h: Heap, n: Node, c: Color, d: bool, x: Tree, y: Tree, par: Node?)
    requires n in h && h[n].color == c && h[n].parent == par && h[n].Child(d) == Root(x) && h[n].Child(!d) == Root(y)
    requires Rep(h, x, n) && Rep(h, y, n)
    ensures Rep(h, Mk(n, c, d, x, y), par)
  {
  }

  lemma MkRepCtx(h: Heap, n: Node, c: Color, d: bool, sib: Tree, up: Ctx, hole: Node?, head: Node)
    requires n in h && h[n].color == c && h[n].parent == Holder(up, head) && h[n].Child(d) == hole && h[n].Child(!d) == Root(sib)
    requires Rep(h, sib, n) && RepCtx(h, up, n, head)
    ensures RepCtx(h, Down(n, c, d, sib, up), hole, head)
  {
  }

  lemma RepDomain(h: Heap, t: Tree, par: Node?)
    requires Rep(h, t, par)
    ensures Nodes(t) <= h.Keys
  {
  }

  lemma RepCtxDomain(h: Heap, x: Ctx, hole: Node?, head: Node)
    requires RepCtx(h, x, hole, head)
    ensures CtxNodes(x) + {head} <= h.Keys
  {
    if x.Down? {
      RepDomain(h, x.sib, x.n);
    }
  }

  /** The holder's left child is the hole exactly when the hole is on its left side. */
  lemma HolderSide(h: Heap, x: Ctx, n: Node, head: Node)
    requires RepCtx(h, x, n, head) && n !in CtxNodes(x)
    ensures Holder(x, head) in h
    ensures (h[Holder(x, head)].left != n) == Side(x) && (h[Holder(x, head)].right == n) == Side(x)
  {
    if x.Down? {
      assert Only(Root(x.sib)) <= Nodes(x.sib);
    }
  }

  // ---- filling the hole ----

  lemma PlugNodes(x: Ctx, t: Tree)
    ensures Nodes(Plug(x, t)) == CtxNodes(x) + Nodes(t)
  {
  }

  lemma PlugRep(h: Heap, x: Ctx, t: Tree, head: Node)
    requires RepCtx(h, x, Root(t), head) && Rep(h, t, Holder(x, head))
    ensures Rep(h, Plug(x, t), head)
    ensures head in h && h[head].right == Root(Plug(x, t))
  {
    if x.Down? {
      PlugRep(h, x.up, Mk(x.n, x.c, x.d, t, x.sib), head);
    }
  }

  lemma PlugBst(x: Ctx, t: Tree)
    requires BstCtx(x) && Bst(t, Lo(x), Hi(x))
    ensures Bst(Plug(x, t), Below, Above)
  {
  }

  /** The black height of the whole tree whose hole has black height `k`. */
  ghost function HeightAbove(x: Ctx, k: int): int {
    if x.Top? then k else HeightAbove(x.up, if x.c == Black then k + 1 else k)
  }

  lemma PlugRb(x: Ctx, t: Tree, k: int)
    requires Rb(t, k) && RbCtx(x, k, RedRoot(t)) && k >= 0
    ensures Rb(Plug(x, t), HeightAbove(x, k))
  {
    if x.Down? {
      var t' := Mk(x.n, x.c, x.d, t, x.sib);
      var k' := if x.c == Black then k + 1 else k;
      assert Rb(t', k');
      assert RbCtx(x.up, k', RedRoot(t'));
      PlugRb(x.up, t', k');
    }
  }

  lemma RbCtxWeaken(x: Ctx, k: int)
    requires RbCtx(x, k, true)
    ensures RbCtx(x, k, false)
  {
  }

  lemma RbHeight(t: Tree, k: int)
    requires Rb(t, k)
    ensures k >= 0
  {
  }

  // ---- a hole, what is around it and what fills it ----

  ghost predicate Shape(h: Heap, x: Ctx, t: Tree, head: Node) {
    RepCtx(h, x, Root(t), head) && Rep(h, t, Holder(x, head))
  }

  ghost predicate Ordered(x: Ctx, t: Tree) {
    BstCtx(x) && Bst(t, Lo(x), Hi(x))
  }

  ghost function AllNodes(x: Ctx, t: Tree): set<Node> { CtxNodes(x) + Nodes(t) }

  ghost predicate Zip(h: Heap, x: Ctx, t: Tree, head: Node) {
    Shape(h, x, t, head) && Ordered(x, t) && head !in AllNodes(x, t)
  }

  ghost predicate ZipRb(x: Ctx, t: Tree, k: int) {
    RbCtx(x, k, RedRoot(t)) && Rb(t, k)
  }

  /** The context of the child on side `d` of the tree `t` filling the hole. */
  ghost function Into(x: Ctx, t: Tree, d: bool): Ctx
    requires t.Bin?
  {
    Down(t.n, t.c, d, Sub(t, !d), x)
  }

  lemma Descend(h: Heap, x: Ctx, t: Tree, head: Node, d: bool)
    requires Zip(h, x, t, head) && t.Bin?
    ensures Zip(h, Into(x, t, d), Sub(t, d), head)
    ensures AllNodes(Into(x, t, d), Sub(t, d)) == AllNodes(x, t)
  {
  }

  lemma DescendRb(x: Ctx, t: Tree, k: int, d: bool) returns (k': int)
    requires ZipRb(x, t, k) && t.Bin?
    ensures ZipRb(Into(x, t, d), Sub(t, d), k')
  {
    k' := if t.c == Black then k - 1 else k;
  }

  /** All that is known to be distinct two levels up from the hole. */
  lemma ApartTwo(x: Ctx, t: Tree)
    requires Ordered(x, t) && x.Down? && x.up.Down?
    ensures {x.n} !! {x.up.n} !! Nodes(x.sib) !! Nodes(x.up.sib) !! CtxNodes(x.up.up) !! Nodes(t)
    ensures BstCtx(x.up) && BstCtx(x.up.up)
    ensures CtxNodes(x) == {x.n} + {x.up.n} + Nodes(x.sib) + Nodes(x.up.sib) + CtxNodes(x.up.up)
  {
    ApartHole(x, t);
    ApartCtx(x);
    ApartCtx(x.up);
  }
}
