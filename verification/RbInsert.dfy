/** The steps of the top-down insertion, each as a move from one hole to the next. */
module RbInsert {
  import opened RbShape
  import opened RbZipper

  // ---- colour flip ----

  ghost predicate CanFlip(t: Tree) {
    t.Bin? && RedRoot(t.l) && RedRoot(t.r)
  }

  ghost function Flip(t: Tree): (t': Tree)
    requires CanFlip(t)
  {
    Bin(t.n, Red, t.l.(c := Black), t.r.(c := Black))
  }

  ghost predicate IsFlipped(h: Heap, h': Heap, t: Tree)
    requires CanFlip(t)
  {
    && {t.n, t.l.n, t.r.n} <= h.Keys
    && Touched(h, h', {t.n, t.l.n, t.r.n})
    && h'[t.n] == h[t.n].(color := Red)
    && h'[t.l.n] == h[t.l.n].(color := Black)
    && h'[t.r.n] == h[t.r.n].(color := Black)
  }

  lemma Repainted(h: Heap, h': Heap, t: Tree, par: Node?, c: Color)
    requires Rep(h, t, par) && t.Bin? && t.n !in Nodes(t.l) && t.n !in Nodes(t.r)
    requires Kept(h, h', Nodes(t) - {t.n}) && t.n in h' && h'[t.n] == h[t.n].(color := c)
    ensures Rep(h', t.(c := c), par)
  {
    RepSame(h, h', t.l, t.n);
    RepSame(h, h', t.r, t.n);
  }

  lemma FlipZip(h: Heap, h': Heap, x: Ctx, t: Tree, head: Node)
    requires Zip(h, x, t, head) && CanFlip(t) && IsFlipped(h, h', t)
    ensures Zip(h', x, Flip(t), head)
    ensures AllNodes(x, Flip(t)) == AllNodes(x, t)
  {
    ApartHole(x, t);
    Apart(t, Lo(x), Hi(x));
    RepDomain(h, t, Holder(x, head));
    RepCtxDomain(h, x, t.n, head);
    Apart(t.l, Lo(x), At(t.n.key));
    Apart(t.r, At(t.n.key), Hi(x));
    RepCtxSame(h, h', x, t.n, head);
    Repainted(h, h', t.l, t.n, Black);
    Repainted(h, h', t.r, t.n, Black);
    assert Nodes(t.l.(c := Black)) == Nodes(t.l) && Nodes(t.r.(c := Black)) == Nodes(t.r);
  }

  // ---- rotations that repair a red node below a red node ----

  /** The hole hangs from a red node `x.n` below the black node `x.up.n`. */
  ghost predicate UnderRed(x: Ctx) {
    x.Down? && x.c == Red && x.up.Down? && x.up.c == Black
  }

  /** After the single rotation the red parent is black and the grandparent is its other child. */
  ghost function SingleCtx(x: Ctx): (x': Ctx)
    requires UnderRed(x)
  {
    Down(x.n, Black, x.d, Mk(x.up.n, Red, x.d, x.sib, x.up.sib), x.up.up)
  }

  /** The cells after the single rotation and the relinking of the holder. */
  ghost predicate SingleCells(h: Heap, h': Heap, x: Ctx, top: Node)
    requires UnderRed(x)
  {
    var d, p, g, s := x.d, x.n, x.up.n, Root(x.sib);
    && {p, g, top} + Only(s) <= h.Keys
    && Touched(h, h', {p, g, top} + Only(s))
    && h'[g] == h[g].WithChild(d, s).(color := Red, parent := p)
    && h'[p] == h[p].WithChild(!d, g).(color := Black, parent := top)
    && (s != null ==> h'[s] == h[s].(parent := g))
    && h'[top] == h[top].WithChild(Side(x.up.up), p)
  }

  lemma SingleMoves(h: Heap, h1: Heap, h': Heap, x: Ctx, t: Tree, head: Node)
    requires Zip(h, x, t, head) && UnderRed(x) && x.up.d == x.d
    requires IsRotated(h, h1, x.up.n, !x.d) && IsLinked(h1, h', Holder(x.up.up, head), Side(x.up.up), x.n)
    ensures SingleCells(h, h', x, Holder(x.up.up, head))
  {
    ApartTwo(x, t);
    assert RepCtx(h, x.up, x.n, head);
  }

  /** Above the grandparent only the place where the hole hung changes. */
  lemma AboveKept(h: Heap, h': Heap, x: Ctx, t: Tree, head: Node, n: Node)
    requires Zip(h, x, t, head) && x.Down? && x.up.Down?
    requires Touched(h, h', {x.n, x.up.n, Holder(x.up.up, head)} + Nodes(x.sib) + Nodes(t))
    requires var top := Holder(x.up.up, head);
            top in h && top in h' && h'[top] == h[top].WithChild(Side(x.up.up), n)
    ensures RepCtx(h', x.up.up, n, head) && Rep(h', x.up.sib, x.up.n)
  {
    var up := x.up.up;
    var touched := {x.n, x.up.n, Holder(up, head)} + Nodes(x.sib) + Nodes(t);
    ApartTwo(x, t);
    assert RepCtx(h, x.up, x.n, head);
    assert Holder(up, head) in CtxNodes(up) + {head};
    RepCtxDomain(h, up, x.up.n, head);
    RepDomain(h, x.up.sib, x.up.n);
    KeptOutside(h, h', touched, Nodes(x.up.sib));
    RepSame(h, h', x.up.sib, x.up.n);
    KeptOutside(h, h', touched, CtxNodes(up) + {head} - {Holder(up, head)});
    RepCtxRefilled(h, h', up, x.up.n, n, head);
  }

  lemma SingleShape(h: Heap, h': Heap, x: Ctx, t: Tree, head: Node)
    requires Zip(h, x, t, head) && UnderRed(x) && x.up.d == x.d && SingleCells(h, h', x, Holder(x.up.up, head))
    ensures Shape(h', SingleCtx(x), t, head)
  {
    var d, p, g, up := x.d, x.n, x.up.n, x.up.up;
    ApartTwo(x, t);
    ApartCtx(x);
    assert RepCtx(h, x.up, p, head);
    assert Only(Root(x.sib)) <= Nodes(x.sib) && Holder(up, head) in CtxNodes(up) + {head};
    RepDomain(h, t, p);
    RepDomain(h, x.sib, p);
    AboveKept(h, h', x, t, head, p);
    KeptOutside(h, h', {p, g, Holder(up, head)} + Only(Root(x.sib)), Nodes(t));
    RepSame(h, h', t, p);
    RepMoved(h, h', x.sib, p, g);
    MkRep(h', g, Red, d, x.sib, x.up.sib, p);
    MkRepCtx(h', p, Black, d, Mk(g, Red, d, x.sib, x.up.sib), up, Root(t), head);
  }

  lemma SingleOrder(x: Ctx, t: Tree)
    requires Ordered(x, t) && UnderRed(x) && x.up.d == x.d
    ensures Ordered(SingleCtx(x), t)
    ensures AllNodes(SingleCtx(x), t) == AllNodes(x, t)
  {
    ApartTwo(x, t);
    assert Lo(x.up) == (if x.d then At(x.up.n.key) else Lo(x.up.up));
    assert Hi(x.up) == (if x.d then Hi(x.up.up) else At(x.up.n.key));
  }

  lemma SingleRb(x: Ctx, t: Tree, k: int)
    requires UnderRed(x) && !RedRoot(x.up.sib) && RedRoot(t) && Rb(t, k) && RbCtx(x, k, false)
    ensures ZipRb(SingleCtx(x), t, k)
  {
    assert RbCtx(x.up, k, true);
  }

  ghost function DoubleTree(x: Ctx, t: Tree): (t': Tree)
    requires UnderRed(x) && t.Bin?
  {
    var e := x.up.d;
    Mk(t.n, Black, e, Mk(x.n, Red, e, x.sib, Sub(t, e)), Mk(x.up.n, Red, e, Sub(t, !e), x.up.sib))
  }

  ghost predicate DoubleCells(h: Heap, h': Heap, x: Ctx, t: Tree, top: Node)
    requires UnderRed(x) && t.Bin?
  {
    var e, p, g, q := x.up.d, x.n, x.up.n, t.n;
    var u, v := Root(Sub(t, e)), Root(Sub(t, !e));
    && {p, g, q, top} + Only(u) + Only(v) <= h.Keys
    && Touched(h, h', {p, g, q, top} + Only(u) + Only(v))
    && h'[q] == Cell(Black, top, null, null).WithChild(e, p).WithChild(!e, g)
    && h'[p] == h[p].WithChild(!e, u).(color := Red, parent := q)
    && h'[g] == h[g].WithChild(e, v).(color := Red, parent := q)
    && (u != null ==> h'[u] == h[u].(parent := p))
    && (v != null ==> h'[v] == h[v].(parent := g))
    && h'[top] == h[top].WithChild(Side(x.up.up), q)
  }

  /** The pointers around the hole that the double rotation follows. */
  ghost predicate DoublePointers(h: Heap, x: Ctx, t: Tree, top: Node)
    requires UnderRed(x) && t.Bin?
  {
    var e, p, g, q := x.up.d, x.n, x.up.n, t.n;
    var u, v := Root(Sub(t, e)), Root(Sub(t, !e));
    && {p, g, q, top} + Only(u) + Only(v) <= h.Keys
    && h[g].Child(e) == p && h[p].Child(!e) == q && h[q].Child(e) == u && h[q].Child(!e) == v
    && p != g && p != q && g != q && top !in {p, g, q} + Only(u) + Only(v)
    && u !in {p, g, q} && v !in {p, g, q} && (u != null ==> u != v)
  }

  lemma DoubleMoves(h: Heap, h1: Heap, h': Heap, x: Ctx, t: Tree, top: Node)
    requires UnderRed(x) && t.Bin? && DoublePointers(h, x, t, top)
    requires IsRotatedDouble(h, h1, x.up.n, !x.up.d) && IsLinked(h1, h', top, Side(x.up.up), t.n)
    ensures DoubleCells(h, h', x, t, top)
  {
    var u, v := Root(Sub(t, x.up.d)), Root(Sub(t, !x.up.d));
    TouchedTwice(h, h1, h', {x.up.n, x.n, t.n} + Only(v) + Only(u), {top, t.n});
  }

  /** The double rotation on loose pieces: `s1` and `a` end up below `p`, `b` and `s2` below `g`. */
  lemma DoubleAssembled(h: Heap, h': Heap, e: bool, p: Node, g: Node, q: Node, top: Node, s1: Tree, a: Tree, b: Tree, s2: Tree)
    returns (t: Tree)
    requires Rep(h, s1, p) && Rep(h, s2, g) && Rep(h, a, q) && Rep(h, b, q)
    requires Nodes(s1) !! {p, g, q, top} + Only(Root(a)) + Only(Root(b))
    requires Nodes(s2) !! {p, g, q, top} + Only(Root(a)) + Only(Root(b))
    requires Nodes(a) !! {p, g, q, top} + Only(Root(b))
    requires Nodes(b) !! {p, g, q, top} + Only(Root(a))
    requires a.Bin? ==> a.n !in Nodes(a.l) && a.n !in Nodes(a.r)
    requires b.Bin? ==> b.n !in Nodes(b.l) && b.n !in Nodes(b.r)
    requires {p, g} <= h.Keys && h[p].Child(e) == Root(s1) && h[g].Child(!e) == Root(s2)
    requires Touched(h, h', {p, g, q, top} + Only(Root(a)) + Only(Root(b)))
    requires q in h && h'[q] == Cell(Black, top, null, null).WithChild(e, p).WithChild(!e, g)
    requires h'[p] == h[p].WithChild(!e, Root(a)).(color := Red, parent := q)
    requires h'[g] == h[g].WithChild(e, Root(b)).(color := Red, parent := q)
    requires a.Bin? ==> a.n in h && h'[a.n] == h[a.n].(parent := p)
    requires b.Bin? ==> b.n in h && h'[b.n] == h[b.n].(parent := g)
    ensures t == Mk(q, Black, e, Mk(p, Red, e, s1, a), Mk(g, Red, e, b, s2))
    ensures Rep(h', t, top)
  {
    var touched := {p, g, q, top} + Only(Root(a)) + Only(Root(b));
    RepDomain(h, s1, p);
    RepDomain(h, s2, g);
    RepDomain(h, a, q);
    RepDomain(h, b, q);
    KeptOutside(h, h', touched, Nodes(s1));
    RepSame(h, h', s1, p);
    KeptOutside(h, h', touched, Nodes(s2));
    RepSame(h, h', s2, g);
    KeptOutside(h, h', touched, Nodes(a) - Only(Root(a)));
    RepMoved(h, h', a, q, p);
    KeptOutside(h, h', touched, Nodes(b) - Only(Root(b)));
    RepMoved(h, h', b, q, g);
    MkRep(h', p, Red, e, s1, a, q);
    MkRep(h', g, Red, e, b, s2, q);
    var t1, t2 := Mk(p, Red, e, s1, a), Mk(g, Red, e, b, s2);
    t := Mk(q, Black, e, t1, t2);
    MkRep(h', q, Black, e, t1, t2, top);
  }

  lemma DoubleApart(x: Ctx, t: Tree, head: Node)
    requires Ordered(x, t) && head !in AllNodes(x, t) && UnderRed(x) && t.Bin?
    ensures {x.n, x.up.n, t.n, Holder(x.up.up, head)} !! Nodes(x.sib) !! Nodes(x.up.sib) !! Nodes(t.l) !! Nodes(t.r)
  {
    ApartTwo(x, t);
    ApartSubs(t, Lo(x), Hi(x));
    assert Nodes(t) == Nodes(t.l) + {t.n} + Nodes(t.r);
    assert Holder(x.up.up, head) in CtxNodes(x.up.up) + {head};
  }

  lemma DoubleBelow(h: Heap, h': Heap, x: Ctx, t: Tree, head: Node, t': Tree)
    requires Zip(h, x, t, head) && UnderRed(x) && x.up.d != x.d && t.Bin?
    requires DoubleCells(h, h', x, t, Holder(x.up.up, head)) && t' == DoubleTree(x, t)
    ensures Rep(h', t', Holder(x.up.up, head))
  {
    var e := x.up.d;
    DoubleApart(x, t, head);
    ApartSubs(t, Lo(x), Hi(x));
    assert RepCtx(h, x.up, x.n, head);
    assert Rep(h, t.l, t.n) && Rep(h, t.r, t.n);
    assert Only(Root(t.l)) <= Nodes(t.l) && Only(Root(t.r)) <= Nodes(t.r);
    var t'' := DoubleAssembled(h, h', e, x.n, x.up.n, t.n, Holder(x.up.up, head), x.sib, Sub(t, e), Sub(t, !e), x.up.sib);
  }

  lemma DoubleShape(h: Heap, h': Heap, x: Ctx, t: Tree, head: Node, t': Tree)
    requires Zip(h, x, t, head) && UnderRed(x) && x.up.d != x.d && t.Bin?
    requires DoubleCells(h, h', x, t, Holder(x.up.up, head)) && t' == DoubleTree(x, t)
    ensures Shape(h', x.up.up, t', head)
  {
    assert Only(Root(t.l)) <= Nodes(t) && Only(Root(t.r)) <= Nodes(t);
    AboveKept(h, h', x, t, head, t.n);
    DoubleBelow(h, h', x, t, head, t');
  }

  lemma DoubleOrder(x: Ctx, t: Tree)
    requires Ordered(x, t) && UnderRed(x) && x.up.d != x.d && t.Bin?
    ensures Ordered(x.up.up, DoubleTree(x, t))
    ensures AllNodes(x.up.up, DoubleTree(x, t)) == AllNodes(x, t)
  {
    ApartTwo(x, t);
    assert Lo(x.up) == (if x.up.d then At(x.up.n.key) else Lo(x.up.up));
    assert Hi(x.up) == (if x.up.d then Hi(x.up.up) else At(x.up.n.key));
    MkNodes(x.n, Red, x.up.d, x.sib, Sub(t, x.up.d));
    MkNodes(x.up.n, Red, x.up.d, Sub(t, !x.up.d), x.up.sib);
  }

  lemma DoubleRb(x: Ctx, t: Tree, k: int)
    requires UnderRed(x) && !RedRoot(x.up.sib) && RedRoot(t) && Rb(t, k) && RbCtx(x, k, false)
    ensures ZipRb(x.up.up, DoubleTree(x, t), k + 1)
  {
    assert RbCtx(x.up, k, true);
  }

  /** What the rotations demand of the cells holds at such a hole. */
  lemma RotationsApply(h: Heap, x: Ctx, t: Tree, head: Node)
    requires Zip(h, x, t, head) && UnderRed(x) && t.Bin?
    ensures x.up.n in h && h[x.up.n].Child(x.up.d) == x.n
    ensures x.up.d == x.d ==> CanRotate(h, x.up.n, !x.up.d)
    ensures x.up.d != x.d ==> CanRotateDouble(h, x.up.n, !x.up.d) && DoublePointers(h, x, t, Holder(x.up.up, head))
    ensures Holder(x.up.up, head) in h && (h[Holder(x.up.up, head)].right == x.up.n) == Side(x.up.up)
    ensures Holder(x.up.up, head) !in {x.n, x.up.n} && Holder(x.up.up, head) != t.n
    ensures x.n in h && h[x.n].Child(x.d) == t.n && (h[x.n].Child(!x.d) != t.n)
  {
    ApartTwo(x, t);
    Apart(t, Lo(x), Hi(x));
    assert RepCtx(h, x.up, x.n, head);
    RepDomain(h, t, x.n);
    RepDomain(h, x.sib, x.n);
    RepCtxDomain(h, x.up.up, x.up.n, head);
    HolderSide(h, x.up.up, x.up.n, head);
  }

  lemma SingleDone(h: Heap, h1: Heap, h': Heap, x: Ctx, t: Tree, k: int, head: Node, x': Ctx)
    requires Zip(h, x, t, head) && UnderRed(x) && x.up.d == x.d && !RedRoot(x.up.sib)
    requires RedRoot(t) && Rb(t, k) && RbCtx(x, k, false) && x' == SingleCtx(x)
    requires IsRotated(h, h1, x.up.n, !x.d) && IsLinked(h1, h', Holder(x.up.up, head), Side(x.up.up), x.n)
    ensures Zip(h', x', t, head) && AllNodes(x', t) == AllNodes(x, t) && ZipRb(x', t, k)
    ensures Touched(h, h', AllNodes(x, t) + {head})
  {
    SingleMoves(h, h1, h', x, t, head);
    SingleShape(h, h', x, t, head);
    SingleOrder(x, t);
    SingleRb(x, t, k);
    ApartTwo(x, t);
    assert Holder(x.up.up, head) in CtxNodes(x.up.up) + {head} && Only(Root(x.sib)) <= Nodes(x.sib);
  }

  lemma DoubleDone(h: Heap, h1: Heap, h': Heap, x: Ctx, t: Tree, k: int, head: Node, t': Tree)
    requires Zip(h, x, t, head) && UnderRed(x) && x.up.d != x.d && !RedRoot(x.up.sib)
    requires RedRoot(t) && Rb(t, k) && RbCtx(x, k, false) && t' == DoubleTree(x, t)
    requires IsRotatedDouble(h, h1, x.up.n, !x.up.d) && IsLinked(h1, h', Holder(x.up.up, head), Side(x.up.up), t.n)
    ensures Zip(h', x.up.up, t', head) && AllNodes(x.up.up, t') == AllNodes(x, t) && ZipRb(x.up.up, t', k + 1)
    ensures Touched(h, h', AllNodes(x, t) + {head})
  {
    RotationsApply(h, x, t, head);
    DoubleMoves(h, h1, h', x, t, Holder(x.up.up, head));
    DoubleShape(h, h', x, t, head, t');
    DoubleOrder(x, t);
    DoubleRb(x, t, k);
    ApartTwo(x, t);
    assert Holder(x.up.up, head) in CtxNodes(x.up.up) + {head} && Only(Root(t.l)) + Only(Root(t.r)) <= Nodes(t);
  }

  // ---- the helper pointers of the loop ----

  ghost function Size(t: Tree): nat { if t.Leaf? then 0 else Size(t.l) + 1 + Size(t.r) }

  ghost predicate Calm(t: Tree) { t.Bin? && t.c == Black && !RedRoot(t.l) && !RedRoot(t.r) }

  ghost predicate Within(x: Ctx, key: int) { Lt(Lo(x), At(key)) && Lt(At(key), Hi(x)) }

  /** `p` is the parent of the hole on side `dir`. */
  ghost predicate ParentOk(x: Ctx, p: Node?, dir: bool) {
    if x.Top? then p == null else p == x.n && dir == x.d
  }

  /** `g` is the grandparent, reached from it on side `last`. */
  ghost predicate GrandOk(x: Ctx, g: Node?, last: bool) {
    if x.Down? && x.up.Down? then g == x.up.n && last == x.up.d else g == null
  }

  /** `t` is the parent of the grandparent. */
  ghost predicate GreatOk(x: Ctx, t: Node, head: Node) {
    t == if x.Down? && x.up.Down? then Holder(x.up.up, head) else head
  }

  /** How much of the three helper pointers can be trusted at the top of the loop.  After a
      single rotation `t` is stale for one round, after a double one both `t` and `g` are for
      two; until they are right again nothing below can be red under red. */
  datatype Phase = Settled | Calming | Landing

  ghost predicate Helpers(ph: Phase, x: Ctx, f: Tree, t: Node, g: Node?, p: Node?, last: bool, dir: bool, key: int, head: Node) {
    && ParentOk(x, p, dir) && (g == null ==> t == head)
    && match ph
       case Settled =>
         && GrandOk(x, g, last) && GreatOk(x, t, head)
         && (x.Top? ==> f.Bin? && f.c == Black)
         && (x.Down? ==> !(RedRoot(f) && RedRoot(x.sib)))
         && (x.Down? && x.c == Red ==> x.up.Down? && !RedRoot(x.up.sib))
       case Calming => GrandOk(x, g, last) && Calm(f)
       case Landing =>
         && x.Down? && x.c == Black && g != null && RedRoot(f)
         && f.n.key != key && Calm(Sub(f, f.n.key < key))
  }

  ghost function Fuel(ph: Phase, f: Tree, key: int): nat {
    if ph == Landing && f.Bin? then Size(Sub(f, f.n.key < key)) + 1 else Size(f)
  }

  /** After the flip and the repair: what the next round will find. */
  ghost predicate Ready(ph: Phase, x: Ctx, f: Tree, t: Node, g: Node?, p: Node?, last: bool, dir: bool, key: int, head: Node) {
    && f.Bin? && (g == null ==> t == head)
    && match ph
       case Settled =>
         && ParentOk(x, p, dir) && GrandOk(x, g, last)
         && !(RedRoot(f.l) && RedRoot(f.r))
         && (f.c == Red ==> x.Down? && !RedRoot(x.sib))
       case Calming =>
         ParentOk(x, p, dir) && (x.Top? ==> g == null) && (f.n.key != key ==> Calm(Sub(f, f.n.key < key)))
       case Landing =>
         && p != null && f.c == Black && RedRoot(f.l) && RedRoot(f.r)
         && (f.n.key != key ==>
               var f' := Sub(f, f.n.key < key);
               f'.n.key != key && Calm(Sub(f', f'.n.key < key)))
  }

  lemma NextRound(ph: Phase, x: Ctx, f: Tree, t: Node, g: Node?, p: Node?, last: bool, dir: bool, key: int, head: Node)
    requires Ready(ph, x, f, t, g, p, last, dir, key, head) && f.n.key != key && Ordered(x, f) && Within(x, key)
    ensures var d := f.n.key < key;
            && Helpers(ph, Into(x, f, d), Sub(f, d), if g == null then t else g, p, f.n, dir, d, key, head)
            && Within(Into(x, f, d), key)
  {
  }

  lemma SettledStays(x: Ctx, f: Tree, k: int, t: Node, g: Node?, p: Node?, last: bool, dir: bool, key: int, head: Node)
    requires Helpers(Settled, x, f, t, g, p, last, dir, key, head) && f.Bin? && !CanFlip(f) && ZipRb(x, f, k)
    ensures Ready(Settled, x, f, t, g, p, last, dir, key, head)
  {
  }

  lemma CalmingEnds(x: Ctx, f: Tree, t: Node, g: Node?, p: Node?, last: bool, dir: bool, key: int, head: Node)
    requires Helpers(Calming, x, f, t, g, p, last, dir, key, head)
    ensures !CanFlip(f) && !RedRoot(f) && Ready(Settled, x, f, t, g, p, last, dir, key, head)
  {
  }

  lemma LandingEnds(x: Ctx, f: Tree, k: int, t: Node, g: Node?, p: Node?, last: bool, dir: bool, key: int, head: Node)
    requires Helpers(Landing, x, f, t, g, p, last, dir, key, head) && ZipRb(x, f, k)
    ensures !CanFlip(f) && Ready(Calming, x, f, t, g, p, last, dir, key, head)
  {
  }

  lemma FlippedReady(x: Ctx, f: Tree, k: int, t: Node, g: Node?, p: Node?, last: bool, dir: bool, key: int, head: Node)
    requires CanFlip(f) && ParentOk(x, p, dir) && (x.Top? ==> g == null) && (g == null ==> t == head) && Rb(f, k)
    ensures Ready(Calming, x, Flip(f), t, g, p, last, dir, key, head)
    ensures Size(Flip(f)) == Size(f) && Calm(Flip(f).l) && Calm(Flip(f).r)
  {
    assert Rb(f.l, k - 1) && Rb(f.r, k - 1);
  }

  lemma DoubleReady(x: Ctx, f: Tree, k: int, t: Node, g: Node?, p: Node, last: bool, dir: bool, key: int, head: Node)
    requires UnderRed(x) && x.up.d != x.d && Ordered(x, f) && Within(x, key)
    requires f.Bin? && Calm(f.l) && Calm(f.r) && g != null
    ensures Ready(Landing, x.up.up, DoubleTree(x, f), t, g, p, last, dir, key, head)
    ensures Within(x.up.up, key)
    ensures var f' := DoubleTree(x, f);
            f.n.key != key ==> Fuel(Landing, Sub(f', f.n.key < key), key) < Size(f)
  {
    var f' := DoubleTree(x, f);
    assert f.l.Bin? && f.r.Bin? && Size(f.l) > 0 && Size(f.r) > 0;
    assert BstCtx(x.up);
    assert Lo(x.up) == (if x.up.d then At(x.up.n.key) else Lo(x.up.up));
    assert Hi(x.up) == (if x.up.d then Hi(x.up.up) else At(x.up.n.key));
    if f.n.key != key {
      var f'' := Sub(f', f.n.key < key);
      assert f'' == if (f.n.key < key) == x.up.d then Mk(x.n, Red, x.up.d, x.sib, Sub(f, x.up.d))
                    else Mk(x.up.n, Red, x.up.d, Sub(f, !x.up.d), x.up.sib);
    }
  }

  /** One round of the loop as a function: the flip, and the repair of what it may cause. */
  ghost function Turned(f: Tree): Tree { if CanFlip(f) then Flip(f) else f }

  ghost predicate Clash(x: Ctx, f: Tree) { RedRoot(f) && x.Down? && x.c == Red }

  ghost predicate Repaired(x: Ctx, f: Tree, x': Ctx, f': Tree) {
    if Clash(x, f) then
      UnderRed(x) && f.Bin? && if x.up.d == x.d then x' == SingleCtx(x) && f' == f else x' == x.up.up && f' == DoubleTree(x, f)
    else x' == x && f' == f
  }

  ghost function NextPhase(ph: Phase, x: Ctx, f: Tree): Phase {
    if CanFlip(f) then if x.Down? && x.c == Red && x.up.Down? && x.up.d != x.d then Landing else Calming
    else if ph == Landing then Calming else Settled
  }

  /** A clash only happens while all helper pointers are right, and below a black grandparent. */
  lemma ClashIsRepairable(ph: Phase, x: Ctx, f: Tree, k: int, t: Node, g: Node?, p: Node?, last: bool, dir: bool, key: int, head: Node)
    requires Helpers(ph, x, f, t, g, p, last, dir, key, head) && ZipRb(x, f, k)
    requires CanFlip(f) || f.Leaf?
    ensures ph == Settled
    ensures x.Down? && x.c == Red ==> UnderRed(x) && !RedRoot(x.up.sib)
    ensures GrandOk(x, g, last) && GreatOk(x, t, head)
  {
    if x.Down? && x.up.Down? {
      assert RbCtx(x.up, if x.c == Black then k + 1 else k, x.c == Red);
    }
  }

  lemma NoClash(x: Ctx, f: Tree, k: int)
    requires ZipRb(x, f, k)
    ensures !Clash(x, f)
  {
  }

  lemma RoundReady(ph: Phase, x: Ctx, f: Tree, k: int, x': Ctx, f': Tree,
                   t: Node, g: Node?, p: Node?, last: bool, dir: bool, key: int, head: Node)
    requires Helpers(ph, x, f, t, g, p, last, dir, key, head) && ZipRb(x, f, k) && Ordered(x, f) && Within(x, key)
    requires f.Bin? && Repaired(x, Turned(f), x', f')
    ensures Ready(NextPhase(ph, x, f), x', f', t, g, p, last, dir, key, head) && Within(x', key)
    ensures f'.n == f.n
    ensures f.n.key != key ==> Fuel(NextPhase(ph, x, f), Sub(f', f.n.key < key), key) < Fuel(ph, f, key)
  {
    if CanFlip(f) {
      ClashIsRepairable(ph, x, f, k, t, g, p, last, dir, key, head);
      FlippedReady(x, f, k, t, g, p, last, dir, key, head);
      if x.Down? && x.c == Red && x.up.d != x.d {
        FlipOrder(x, f);
        DoubleReady(x, Flip(f), k, t, g, p, last, dir, key, head);
      }
    } else {
      NoClash(x, f, k);
      match ph
      case Settled => SettledStays(x, f, k, t, g, p, last, dir, key, head);
      case Calming => CalmingEnds(x, f, t, g, p, last, dir, key, head);
      case Landing => LandingEnds(x, f, k, t, g, p, last, dir, key, head);
    }
  }

  lemma FlipOrder(x: Ctx, f: Tree)
    requires CanFlip(f) && Ordered(x, f)
    ensures Ordered(x, Flip(f))
  {
    assert Bst(f.l, Lo(x), At(f.n.key)) && Bst(f.r, At(f.n.key), Hi(x));
  }

  // ---- the replaced and the new node ----

  lemma ReplaceShape(h: Heap, h': Heap, x: Ctx, f: Tree, head: Node, node: Node)
    requires Zip(h, x, f, head) && f.Bin? && node !in AllNodes(x, f) + {head}
    requires IsReplaced(h, h', f.n, node)
    ensures Shape(h', x, f.(n := node), head)
  {
    ApartHole(x, f);
    ApartSubs(f, Lo(x), Hi(x));
    RepCtxDomain(h, x, f.n, head);
    RepDomain(h, f, Holder(x, head));
    RepMoved(h, h', f.l, f.n, node);
    RepMoved(h, h', f.r, f.n, node);
    HolderSide(h, x, f.n, head);
    RepCtxRefilled(h, h', x, f.n, node, head);
  }

  lemma ReplaceApplies(h: Heap, x: Ctx, f: Tree, head: Node, node: Node)
    requires Zip(h, x, f, head) && f.Bin? && node in h && node !in AllNodes(x, f) + {head}
    ensures CanReplace(h, f.n, node)
  {
    ApartHole(x, f);
    Apart(f, Lo(x), Hi(x));
    RepCtxDomain(h, x, f.n, head);
    RepDomain(h, f, Holder(x, head));
    assert Only(Root(f.l)) <= Nodes(f.l) && Only(Root(f.r)) <= Nodes(f.r);
  }

  lemma ReplaceOrder(x: Ctx, f: Tree, node: Node)
    requires Ordered(x, f) && f.Bin? && f.n.key == node.key
    ensures Ordered(x, f.(n := node))
    ensures Nodes(f.(n := node)) == Nodes(f) - {f.n} + {node}
  {
    Apart(f, Lo(x), Hi(x));
  }

  lemma InsertShape(h: Heap, h': Heap, x: Ctx, head: Node, node: Node)
    requires Zip(h, x, Leaf, head) && x.Down? && node !in CtxNodes(x) + {head}
    requires IsLinked(h, h', x.n, x.d, node) && h[node] == Cell(Red, null, null, null)
    requires Within(x, node.key)
    ensures Zip(h', x, Bin(node, Red, Leaf, Leaf), head)
  {
    RepCtxDomain(h, x, null, head);
    RepCtxRefilled(h, h', x, null, node, head);
  }

  // ---- hanging the tree from the dummy head, and taking it down ----

  lemma Mounted(h: Heap, h': Heap, t: Tree, head: Node)
    requires Rep(h, t, null) && Proper(t) && t.Bin? && head !in Nodes(t)
    requires Kept(h, h', Nodes(t) - {t.n}) && t.n in h' && h'[t.n] == h[t.n].(parent := head)
    requires head in h' && h'[head].parent == null && h'[head].left == null && h'[head].right == t.n
    ensures Zip(h', Top, t, head) && AllNodes(Top, t) == Nodes(t)
  {
    Apart(t, Below, Above);
    RepMoved(h, h', t, null, head);
  }

  lemma Whole(h: Heap, x: Ctx, f: Tree, k: int, head: Node)
    requires Zip(h, x, f, head) && ZipRb(x, f, k)
    ensures var t := Plug(x, f);
            && Rep(h, t, head) && head in h && h[head].right == Root(t) && Bst(t, Below, Above) && (f.Bin? ==> t.Bin?)
            && Rb(t, HeightAbove(x, k)) && Nodes(t) == AllNodes(x, f)
  {
    PlugRep(h, x, f, head);
    PlugBst(x, f);
    RbHeight(f, k);
    PlugRb(x, f, k);
    PlugNodes(x, f);
  }

  lemma Blackened(h: Heap, h': Heap, t: Tree, head: Node, k: int)
    requires Rep(h, t, head) && t.Bin? && Bst(t, Below, Above) && Rb(t, k) && head !in Nodes(t)
    requires Kept(h, h', Nodes(t) - {t.n}) && t.n in h' && h'[t.n] == h[t.n].(parent := null, color := Black)
    ensures Rep(h', t.(c := Black), null) && Proper(t.(c := Black)) && Nodes(t.(c := Black)) == Nodes(t)
  {
    Apart(t, Below, Above);
    RepSame(h, h', t.l, t.n);
    RepSame(h, h', t.r, t.n);
    RbHeight(t, k);
    assert Rb(t.(c := Black), if t.c == Red then k + 1 else k);
  }

  /** The key looked for is nowhere outside the hole. */
  lemma NotAround(x: Ctx, key: int)
    requires BstCtx(x) && Within(x, key)
    ensures forall n <- CtxNodes(x) :: n.key != key
  {
    KeysOutside(x);
  }

  lemma OnlyHere(x: Ctx, f: Tree)
    requires Ordered(x, f) && f.Bin?
    ensures forall n <- AllNodes(x, f) :: n.key == f.n.key ==> n == f.n
  {
    KeysOutside(x);
    KeysInside(f.l, Lo(x), At(f.n.key));
    KeysInside(f.r, At(f.n.key), Hi(x));
  }

  // ---- the pieces of one round, put together ----

  /** What the cells of the hole's node and of its children show. */
  lemma CellsAt(h: Heap, x: Ctx, f: Tree, head: Node)
    requires Zip(h, x, f, head) && f.Bin?
    ensures f.n in h && h[f.n] == Cell(f.c, Holder(x, head), Root(f.l), Root(f.r))
    ensures f.l.Bin? ==> f.l.n in h && h[f.l.n].color == f.l.c && f.l.n in Nodes(f) && f.l.n != f.n && f.l.n != Root(f.r)
    ensures f.r.Bin? ==> f.r.n in h && h[f.r.n].color == f.r.c && f.r.n in Nodes(f) && f.r.n != f.n
  {
    Apart(f, Lo(x), Hi(x));
    assert Rep(h, f.l, f.n) && Rep(h, f.r, f.n);
  }

  lemma FlipDone(h: Heap, h': Heap, x: Ctx, f: Tree, k: int, head: Node, f': Tree)
    requires Zip(h, x, f, head) && ZipRb(x, f, k) && CanFlip(f) && IsFlipped(h, h', f) && f' == Flip(f)
    ensures Zip(h', x, f', head) && AllNodes(x, f') == AllNodes(x, f) && Rb(f', k) && RbCtx(x, k, false)
    ensures Touched(h, h', AllNodes(x, f))
  {
    FlipZip(h, h', x, f, head);
    CellsAt(h, x, f, head);
    assert Rb(f.l, k - 1) && Rb(f.r, k - 1);
  }

  lemma ReplaceDone(h: Heap, h': Heap, x: Ctx, f: Tree, k: int, head: Node, node: Node, f': Tree)
    requires Zip(h, x, f, head) && ZipRb(x, f, k) && f.Bin? && f.n.key == node.key && node !in AllNodes(x, f) + {head}
    requires IsReplaced(h, h', f.n, node) && f' == f.(n := node)
    ensures Zip(h', x, f', head) && ZipRb(x, f', k)
    ensures AllNodes(x, f') == Without(AllNodes(x, f), node.key) + {node}
    ensures |AllNodes(x, f')| == |AllNodes(x, f)|
  {
    ReplaceShape(h, h', x, f, head, node);
    ReplaceOrder(x, f, node);
    ReplaceNodes(x, f, node, f');
  }

  lemma ReplaceNodes(x: Ctx, f: Tree, node: Node, f': Tree)
    requires Ordered(x, f) && f.Bin? && f.n.key == node.key && node !in AllNodes(x, f) && f' == f.(n := node)
    ensures AllNodes(x, f') == Without(AllNodes(x, f), node.key) + {node}
    ensures |AllNodes(x, f')| == |AllNodes(x, f)|
  {
    hide Ordered;
    hide Without;
    OnlyHere(x, f);
    OrderedApart(x, f);
    ReplaceOrder(x, f, node);
    assert f.n in Nodes(f);
    Swapped(AllNodes(x, f), f.n, node);
    SwappedBeside(CtxNodes(x), Nodes(f), f.n, node);
  }

  lemma OrderedApart(x: Ctx, f: Tree)
    requires Ordered(x, f)
    ensures CtxNodes(x) !! Nodes(f)
  {
    ApartHole(x, f);
  }

  lemma Swapped(all: set<Node>, was: Node, node: Node)
    requires was in all && node !in all && was.key == node.key && forall n <- all :: n.key == was.key ==> n == was
    ensures all - {was} + {node} == Without(all, node.key) + {node} && |all - {was} + {node}| == |all|
  {
  }

  lemma SwappedBeside(others: set<Node>, some: set<Node>, was: Node, node: Node)
    requires others !! some && was in some
    ensures others + (some - {was} + {node}) == others + some - {was} + {node}
  {
  }

  lemma InsertDone(h: Heap, h': Heap, x: Ctx, head: Node, node: Node, f': Tree)
    requires Zip(h, x, Leaf, head) && x.Down? && node !in CtxNodes(x) + {head}
    requires IsLinked(h, h', x.n, x.d, node) && h[node] == Cell(Red, null, null, null)
    requires Within(x, node.key) && f' == Bin(node, Red, Leaf, Leaf)
    ensures Zip(h', x, f', head)
    ensures AllNodes(x, f') == Without(AllNodes(x, Leaf), node.key) + {node}
    ensures |AllNodes(x, f')| == |AllNodes(x, Leaf)| + 1
  {
    InsertShape(h, h', x, head, node);
    NotAround(x, node.key);
    assert AllNodes(x, f') == AllNodes(x, Leaf) + {node};
  }

  lemma StepDown(h: Heap, ph: Phase, x: Ctx, f: Tree, k: int,
                 t: Node, g: Node?, p: Node?, last: bool, dir: bool, key: int, head: Node)
    returns (x': Ctx, f': Tree, k': int)
    requires Zip(h, x, f, head) && ZipRb(x, f, k) && Within(x, key)
    requires Ready(ph, x, f, t, g, p, last, dir, key, head) && f.n.key != key
    ensures Zip(h, x', f', head) && ZipRb(x', f', k') && Within(x', key)
    ensures AllNodes(x', f') == AllNodes(x, f)
    ensures f' == Sub(f, f.n.key < key) && f.n in h && h[f.n].Child(f.n.key < key) == Root(f')
    ensures Helpers(ph, x', f', if g == null then t else g, p, f.n, dir, f.n.key < key, key, head)
  {
    var d := f.n.key < key;
    NextRound(ph, x, f, t, g, p, last, dir, key, head);
    Descend(h, x, f, head, d);
    k' := DescendRb(x, f, k, d);
    x', f' := Into(x, f, d), Sub(f, d);
  }
}
