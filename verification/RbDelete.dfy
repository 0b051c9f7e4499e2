/** The steps of the top-down deletion.  The loop keeps a hole whose holder is `q`; on the way
    down it sees to it that `q` is red, or that the child it is about to enter is. */
module RbDelete {
  import opened RbShape
  import opened RbZipper
  import opened RbInsert

  /** The hole hangs from a black node with a red other child: that child is turned above it. */
  ghost function TurnCtx(x: Ctx): (x': Ctx)
    requires x.Down? && x.sib.Bin?
  {
    Down(x.n, Red, x.d, Sub(x.sib, x.d), Down(x.sib.n, Black, x.d, Sub(x.sib, !x.d), x.up))
  }

  ghost predicate TurnCells(h: Heap, h': Heap, x: Ctx, top: Node)
    requires x.Down? && x.sib.Bin?
  {
    var d, q, m, a := x.d, x.n, x.sib.n, Root(Sub(x.sib, x.d));
    && {q, m, top} + Only(a) <= h.Keys
    && Touched(h, h', {q, m, top} + Only(a))
    && h'[q] == h[q].WithChild(!d, a).(color := Red, parent := m)
    && h'[m] == h[m].WithChild(d, q).(color := Black, parent := top)
    && (a != null ==> h'[a] == h[a].(parent := q))
    && h'[top] == h[top].WithChild(Side(x.up), m)
  }

  lemma TurnApplies(h: Heap, x: Ctx, t: Tree, head: Node)
    requires Zip(h, x, t, head) && x.Down? && x.sib.Bin?
    ensures x.n in h && h[x.n].Child(!x.d) == x.sib.n && CanRotate(h, x.n, x.d)
    ensures x.sib.n in h && h[x.sib.n].Child(x.d) == Root(Sub(x.sib, x.d))
    ensures Holder(x.up, head) in h && Holder(x.up, head) !in {x.n, x.sib.n} + Only(Root(Sub(x.sib, x.d)))
  {
    ApartCtx(x);
    assert Rep(h, x.sib, x.n);
    RepDomain(h, x.sib, x.n);
    RepCtxDomain(h, x.up, x.n, head);
    assert Only(Root(x.sib.l)) <= Nodes(x.sib.l) && Only(Root(x.sib.r)) <= Nodes(x.sib.r);
    assert Holder(x.up, head) in CtxNodes(x.up) + {head};
  }

  lemma TurnMoves(h: Heap, h1: Heap, h': Heap, x: Ctx, t: Tree, head: Node)
    requires Zip(h, x, t, head) && x.Down? && x.sib.Bin?
    requires IsRotated(h, h1, x.n, x.d) && IsLinked(h1, h', Holder(x.up, head), Side(x.up), x.sib.n)
    ensures TurnCells(h, h', x, Holder(x.up, head))
  {
    TurnApplies(h, x, t, head);
    TouchedTwice(h, h1, h', {x.n, x.sib.n} + Only(Root(Sub(x.sib, x.d))), {Holder(x.up, head), x.sib.n});
  }

  lemma TurnParts(h: Heap, h': Heap, x: Ctx, t: Tree, head: Node)
    requires Zip(h, x, t, head) && x.Down? && x.sib.Bin? && TurnCells(h, h', x, Holder(x.up, head))
    ensures Rep(h', t, x.n) && Rep(h', Sub(x.sib, !x.d), x.sib.n) && Rep(h', Sub(x.sib, x.d), x.n)
  {
    var q, m, a, b := x.n, x.sib.n, Sub(x.sib, x.d), Sub(x.sib, !x.d);
    ApartHole(x, t);
    ApartCtx(x);
    TurnSubs(x);
    assert Rep(h, a, m) && Rep(h, b, m);
    RepDomain(h, x.sib, q);
    RepDomain(h, t, q);
    RepSame(h, h', t, q);
    RepSame(h, h', b, m);
    RepMoved(h, h', a, m, q);
  }

  lemma TurnAbove(h: Heap, h': Heap, x: Ctx, t: Tree, head: Node)
    requires Zip(h, x, t, head) && x.Down? && x.sib.Bin? && TurnCells(h, h', x, Holder(x.up, head))
    ensures RepCtx(h', x.up, x.sib.n, head)
  {
    ApartCtx(x);
    RepCtxDomain(h, x.up, x.n, head);
    assert Only(Root(Sub(x.sib, x.d))) <= Nodes(x.sib);
    RepCtxRefilled(h, h', x.up, x.n, x.sib.n, head);
  }

  lemma TurnShape(h: Heap, h': Heap, x: Ctx, t: Tree, head: Node, x': Ctx)
    requires Zip(h, x, t, head) && x.Down? && x.sib.Bin? && TurnCells(h, h', x, Holder(x.up, head)) && x' == TurnCtx(x)
    ensures Shape(h', x', t, head)
  {
    TurnParts(h, h', x, t, head);
    TurnAbove(h, h', x, t, head);
    assert RepCtx(h', x'.up, x.n, head);
  }

  lemma TurnSubs(x: Ctx)
    requires BstCtx(x) && x.Down? && x.sib.Bin?
    ensures x.sib.l.Bin? ==> x.sib.l.n !in Nodes(x.sib.l.l) && x.sib.l.n !in Nodes(x.sib.l.r)
    ensures x.sib.r.Bin? ==> x.sib.r.n !in Nodes(x.sib.r.l) && x.sib.r.n !in Nodes(x.sib.r.r)
  {
    if x.d { ApartSubs(x.sib, Lo(x.up), At(x.n.key)); } else { ApartSubs(x.sib, At(x.n.key), Hi(x.up)); }
  }

  lemma TurnOrder(x: Ctx, t: Tree, x': Ctx)
    requires Ordered(x, t) && x.Down? && x.sib.Bin? && x' == TurnCtx(x)
    ensures Ordered(x', t) && AllNodes(x', t) == AllNodes(x, t)
    ensures Lo(x') == Lo(x) && Hi(x') == Hi(x) && Spine(x) <= Spine(x')
  {
    assert CtxNodes(x'.up) == CtxNodes(x.up) + {x.sib.n} + Nodes(Sub(x.sib, !x.d));
    assert Spine(x'.up) == Spine(x.up) + {x.sib.n};
    assert BstCtx(x'.up);
  }

  lemma TurnRb(x: Ctx, t: Tree, k: int, x': Ctx)
    requires ZipRb(x, t, k) && x.Down? && x.c == Black && RedRoot(x.sib) && !RedRoot(t) && x' == TurnCtx(x)
    ensures ZipRb(x', t, k)
  {
    assert RbCtx(x'.up, k, true);
  }

  // ---- the hole hangs from a black node with two black children ----

  /** The hole's holder `q` has a parent `p` whose other child `s` is not empty. */
  ghost predicate Pushable(x: Ctx) {
    x.Down? && x.up.Down? && x.up.sib.Bin?
  }

  /** `q` and its sibling turn red, the parent black. */
  ghost function SinkCtx(x: Ctx): (x': Ctx)
    requires Pushable(x)
  {
    x.(c := Red, up := x.up.(c := Black, sib := x.up.sib.(c := Red)))
  }

  ghost predicate SinkCells(h: Heap, h': Heap, x: Ctx)
    requires Pushable(x)
  {
    var q, p, s := x.n, x.up.n, x.up.sib.n;
    && {q, p, s} <= h.Keys && Touched(h, h', {q, p, s})
    && h'[q] == h[q].(color := Red) && h'[p] == h[p].(color := Black) && h'[s] == h[s].(color := Red)
  }

  lemma SinkShape(h: Heap, h': Heap, x: Ctx, t: Tree, head: Node, x': Ctx)
    requires Zip(h, x, t, head) && Pushable(x) && SinkCells(h, h', x) && x' == SinkCtx(x)
    ensures Shape(h', x', t, head)
  {
    var q, p, s := x.n, x.up.n, x.up.sib;
    ApartTwo(x, t);
    ApartCtx(x.up);
    assert RepCtx(h, x.up, q, head);
    RepDomain(h, t, q);
    RepDomain(h, x.sib, q);
    RepDomain(h, s, p);
    RepCtxDomain(h, x.up.up, p, head);
    RepSame(h, h', t, q);
    RepSame(h, h', x.sib, q);
    Repainted(h, h', s, p, Red);
    RepCtxSame(h, h', x.up.up, p, head);
    assert RepCtx(h', x'.up, q, head);
  }

  lemma BstRecolor(t: Tree, lo: Bound, hi: Bound, c: Color)
    requires Bst(t, lo, hi) && t.Bin?
    ensures Bst(t.(c := c), lo, hi)
  {
  }

  lemma SinkOrder(x: Ctx, t: Tree, x': Ctx)
    requires Ordered(x, t) && Pushable(x) && x' == SinkCtx(x)
    ensures Ordered(x', t) && AllNodes(x', t) == AllNodes(x, t)
    ensures Lo(x') == Lo(x) && Hi(x') == Hi(x) && Spine(x) <= Spine(x')
  {
    assert Nodes(x'.up.sib) == Nodes(x.up.sib);
    assert CtxNodes(x'.up) == CtxNodes(x.up) && Spine(x'.up) == Spine(x.up);
    assert Lo(x'.up) == Lo(x.up) && Hi(x'.up) == Hi(x.up);
    assert BstCtx(x.up);
    BstRecolor(x.up.sib, if x.up.d then Lo(x.up.up) else At(x.up.n.key), if x.up.d then At(x.up.n.key) else Hi(x.up.up), Red);
    assert BstCtx(x'.up);
  }

  /** A black parent is only possible at the root, where one black node less on every path does no harm. */
  ghost predicate Loose(x: Ctx) {
    Pushable(x) && x.c == Black && x.up.sib.c == Black && (x.up.c == Red || x.up.up.Top?)
  }

  lemma SinkRb(x: Ctx, t: Tree, k: int, x': Ctx)
    requires ZipRb(x, t, k) && Loose(x) && !RedRoot(x.sib) && !RedRoot(t)
    requires !RedRoot(x.up.sib.l) && !RedRoot(x.up.sib.r) && x' == SinkCtx(x)
    ensures ZipRb(x', t, k)
  {
    assert RbCtx(x.up, k + 1, false);
    if x.up.c == Red { RbCtxWeaken(x.up.up, k + 1); }
    assert RbCtx(x'.up, k, true);
  }

  /** The red outer child of the sibling makes room for a single rotation at the parent. */
  ghost function LiftCtx(x: Ctx): (x': Ctx)
    requires Pushable(x) && Sub(x.up.sib, !x.up.d).Bin?
  {
    var e, s := x.up.d, x.up.sib;
    x.(c := Red, up := Down(x.up.n, Black, e, Sub(s, e), Down(s.n, Red, e, Sub(s, !e).(c := Black), x.up.up)))
  }

  ghost predicate LiftCells(h: Heap, h': Heap, x: Ctx, top: Node)
    requires Pushable(x) && Sub(x.up.sib, !x.up.d).Bin?
  {
    var e, q, p, s, a, z := x.up.d, x.n, x.up.n, x.up.sib.n, Root(Sub(x.up.sib, x.up.d)), Sub(x.up.sib, !x.up.d).n;
    && {q, p, s, z, top} + Only(a) <= h.Keys
    && Touched(h, h', {q, p, s, z, top} + Only(a))
    && h'[q] == h[q].(color := Red)
    && h'[p] == h[p].WithChild(!e, a).(color := Black, parent := s)
    && h'[s] == h[s].WithChild(e, p).(color := Red, parent := top)
    && h'[z] == h[z].(color := Black)
    && (a != null ==> h'[a] == h[a].(parent := p))
    && h'[top] == h[top].WithChild(Side(x.up.up), s)
  }

  /** Nothing changes but the holder, its parent, the parent's holder and the sibling's subtree. */
  ghost predicate PushTouched(h: Heap, h': Heap, x: Ctx, top: Node)
    requires Pushable(x)
  {
    Touched(h, h', {x.n, x.up.n, top} + Nodes(x.up.sib))
  }

  lemma PushBelow(h: Heap, h': Heap, x: Ctx, t: Tree, head: Node)
    requires Zip(h, x, t, head) && Pushable(x) && PushTouched(h, h', x, Holder(x.up.up, head))
    ensures Rep(h', t, x.n) && Rep(h', x.sib, x.n)
  {
    var touched := {x.n, x.up.n, Holder(x.up.up, head)} + Nodes(x.up.sib);
    ApartTwo(x, t);
    ApartCtx(x);
    ApartHole(x, t);
    assert Holder(x.up.up, head) in CtxNodes(x.up.up) + {head};
    RepDomain(h, t, x.n);
    RepDomain(h, x.sib, x.n);
    KeptOutside(h, h', touched, Nodes(t));
    KeptOutside(h, h', touched, Nodes(x.sib));
    RepSame(h, h', t, x.n);
    RepSame(h, h', x.sib, x.n);
  }

  lemma PushAbove(h: Heap, h': Heap, x: Ctx, t: Tree, head: Node, n: Node)
    requires Zip(h, x, t, head) && Pushable(x) && PushTouched(h, h', x, Holder(x.up.up, head))
    requires var top := Holder(x.up.up, head);
            top in h && top in h' && h'[top] == h[top].WithChild(Side(x.up.up), n)
    ensures RepCtx(h', x.up.up, n, head)
  {
    var up := x.up.up;
    var touched := {x.n, x.up.n, Holder(up, head)} + Nodes(x.up.sib);
    ApartTwo(x, t);
    assert RepCtx(h, x.up, x.n, head);
    RepCtxDomain(h, up, x.up.n, head);
    KeptOutside(h, h', touched, CtxNodes(up) + {head} - {Holder(up, head)});
    RepCtxRefilled(h, h', up, x.up.n, n, head);
  }

  lemma LiftParts(h: Heap, h': Heap, x: Ctx, t: Tree, head: Node)
    requires Zip(h, x, t, head) && Pushable(x) && Sub(x.up.sib, !x.up.d).Bin?
    requires LiftCells(h, h', x, Holder(x.up.up, head))
    ensures var e, s := x.up.d, x.up.sib;
            Rep(h', Sub(s, e), x.up.n) && var z' := Sub(s, !e).(c := Black); Rep(h', z', s.n)
  {
    var e, q, p, s := x.up.d, x.n, x.up.n, x.up.sib;
    ApartTwo(x, t);
    ApartCtx(x.up);
    TurnSubs(x.up);
    assert RepCtx(h, x.up, q, head);
    assert Rep(h, s.l, s.n) && Rep(h, s.r, s.n);
    RepDomain(h, s, p);
    RepMoved(h, h', Sub(s, e), s.n, p);
    Repainted(h, h', Sub(s, !e), s.n, Black);
  }

  lemma LiftShape(h: Heap, h': Heap, x: Ctx, t: Tree, head: Node, x': Ctx)
    requires Zip(h, x, t, head) && Pushable(x) && Sub(x.up.sib, !x.up.d).Bin?
    requires LiftCells(h, h', x, Holder(x.up.up, head)) && x' == LiftCtx(x)
    ensures Shape(h', x', t, head)
  {
    assert RepCtx(h, x.up, x.n, head);
    ApartTwo(x, t);
    LiftParts(h, h', x, t, head);
    assert Sub(x.up.sib, !x.up.d).n in Nodes(x.up.sib) && Only(Root(Sub(x.up.sib, x.up.d))) <= Nodes(x.up.sib);
    PushBelow(h, h', x, t, head);
    PushAbove(h, h', x, t, head, x.up.sib.n);
    assert RepCtx(h', x'.up.up, x.up.n, head);
    assert RepCtx(h', x'.up, x.n, head);
  }

  lemma LiftOrder(x: Ctx, t: Tree, x': Ctx)
    requires Ordered(x, t) && Pushable(x) && Sub(x.up.sib, !x.up.d).Bin? && x' == LiftCtx(x)
    ensures Ordered(x', t) && AllNodes(x', t) == AllNodes(x, t)
    ensures Lo(x') == Lo(x) && Hi(x') == Hi(x) && Spine(x) <= Spine(x')
  {
    var e, s := x.up.d, x.up.sib;
    var z := Sub(s, !e);
    assert BstCtx(x.up);
    assert Bst(s, if e then Lo(x.up.up) else At(x.up.n.key), if e then At(x.up.n.key) else Hi(x.up.up));
    assert Bst(z, if e then Lo(x.up.up) else At(s.n.key), if e then At(s.n.key) else Hi(x.up.up));
    BstRecolor(z, if e then Lo(x.up.up) else At(s.n.key), if e then At(s.n.key) else Hi(x.up.up), Black);
    assert Nodes(z.(c := Black)) == Nodes(z);
    assert CtxNodes(x'.up.up) == CtxNodes(x.up.up) + {s.n} + Nodes(z);
    assert CtxNodes(x'.up) == CtxNodes(x.up);
    assert Spine(x'.up.up) == Spine(x.up.up) + {s.n};
    assert Spine(x'.up) == Spine(x.up) + {s.n};
    assert BstCtx(x'.up.up);
    assert BstCtx(x'.up);
  }

  lemma LiftRb(x: Ctx, t: Tree, k: int, x': Ctx)
    requires ZipRb(x, t, k) && Loose(x) && !RedRoot(x.sib) && !RedRoot(t)
    requires RedRoot(Sub(x.up.sib, !x.up.d)) && x' == LiftCtx(x)
    ensures ZipRb(x', t, k)
  {
    assert RbCtx(x.up, k + 1, false);
    assert Rb(x.up.sib.l, k) && Rb(x.up.sib.r, k);
    assert RbCtx(x'.up.up, k + 1, false);
    assert RbCtx(x'.up, k, true);
  }

  /** The red inner child of the sibling goes above the parent by a double rotation. */
  ghost function HoistCtx(x: Ctx): (x': Ctx)
    requires Pushable(x) && Sub(x.up.sib, x.up.d).Bin?
  {
    var e, s := x.up.d, x.up.sib;
    var r := Sub(s, e);
    x.(c := Red, up := Down(x.up.n, Black, e, Sub(r, e), Down(r.n, Red, e, Mk(s.n, Black, e, Sub(r, !e), Sub(s, !e)), x.up.up)))
  }

  ghost predicate HoistCells(h: Heap, h': Heap, x: Ctx, top: Node)
    requires Pushable(x) && Sub(x.up.sib, x.up.d).Bin?
  {
    var e, q, p, s, r := x.up.d, x.n, x.up.n, x.up.sib.n, Sub(x.up.sib, x.up.d);
    var u, v := Root(Sub(r, e)), Root(Sub(r, !e));
    && {q, p, s, r.n, top} + Only(u) + Only(v) <= h.Keys
    && Touched(h, h', {q, p, s, r.n, top} + Only(u) + Only(v))
    && h'[q] == h[q].(color := Red)
    && h'[r.n] == Cell(Red, top, null, null).WithChild(e, p).WithChild(!e, s)
    && h'[p] == h[p].WithChild(!e, u).(color := Black, parent := r.n)
    && h'[s] == h[s].WithChild(e, v).(color := Black, parent := r.n)
    && (u != null ==> h'[u] == h[u].(parent := p))
    && (v != null ==> h'[v] == h[v].(parent := s))
    && h'[top] == h[top].WithChild(Side(x.up.up), r.n)
  }

  lemma HoistTouches(h: Heap, h': Heap, x: Ctx, top: Node)
    requires Pushable(x) && Sub(x.up.sib, x.up.d).Bin? && HoistCells(h, h', x, top)
    ensures PushTouched(h, h', x, top)
  {
    var r := Sub(x.up.sib, x.up.d);
    assert Only(Root(r.l)) <= Nodes(r) && Only(Root(r.r)) <= Nodes(r) && r.n in Nodes(r) && Nodes(r) <= Nodes(x.up.sib);
  }

  /** The sibling's three subtrees, as loose pieces: `u` moves below `p`, `v` stays below `s`. */
  lemma HoistPieces(h: Heap, h': Heap, p: Node, s: Node, r: Node, u: Tree, v: Tree, w: Tree, others: set<Node>)
    requires Rep(h, u, r) && Rep(h, v, r) && Rep(h, w, s)
    requires Touched(h, h', others + {s, r} + Only(Root(u)) + Only(Root(v)))
    requires others + {s, r} !! Nodes(u) && others + {s, r} !! Nodes(v) && others + {s, r} !! Nodes(w)
    requires Nodes(u) !! Nodes(v) && Nodes(u) !! Nodes(w) && Nodes(v) !! Nodes(w)
    requires u.Bin? ==> u.n !in Nodes(u.l) && u.n !in Nodes(u.r) && u.n in h && h'[u.n] == h[u.n].(parent := p)
    requires v.Bin? ==> v.n !in Nodes(v.l) && v.n !in Nodes(v.r) && v.n in h && h'[v.n] == h[v.n].(parent := s)
    ensures Rep(h', u, p) && Rep(h', v, s) && Rep(h', w, s)
  {
    RepDomain(h, u, r);
    RepDomain(h, v, r);
    RepDomain(h, w, s);
    RepMoved(h, h', u, r, p);
    RepMoved(h, h', v, r, s);
    RepSame(h, h', w, s);
  }

  lemma HoistApart(x: Ctx, t: Tree, head: Node)
    requires Ordered(x, t) && head !in AllNodes(x, t) && Pushable(x) && Sub(x.up.sib, x.up.d).Bin?
    ensures var s := x.up.sib;
            var r := Sub(s, x.up.d);
            {x.n, x.up.n, Holder(x.up.up, head), s.n, r.n} !! Nodes(r.l) !! Nodes(r.r) !! Nodes(Sub(s, !x.up.d))
  {
    var s := x.up.sib;
    var r := Sub(s, x.up.d);
    ApartTwo(x, t);
    ApartCtx(x.up);
    HoistSubs(x.up);
    assert Nodes(s) == Nodes(r) + {s.n} + Nodes(Sub(s, !x.up.d)) && Nodes(r) == Nodes(r.l) + {r.n} + Nodes(r.r);
    assert Holder(x.up.up, head) in CtxNodes(x.up.up) + {head};
  }

  lemma HoistParts(h: Heap, h': Heap, x: Ctx, t: Tree, head: Node)
    requires Zip(h, x, t, head) && Pushable(x) && Sub(x.up.sib, x.up.d).Bin?
    requires HoistCells(h, h', x, Holder(x.up.up, head))
    ensures var e, s := x.up.d, x.up.sib;
            var r := Sub(s, e);
            Rep(h', Sub(r, e), x.up.n) && Rep(h', Sub(r, !e), s.n) && Rep(h', Sub(s, !e), s.n)
  {
    var e, s := x.up.d, x.up.sib;
    var r := Sub(s, e);
    assert BstCtx(x.up);
    HoistSubs(x.up);
    HoistApart(x, t, head);
    assert RepCtx(h, x.up, x.n, head);
    assert Rep(h, s.l, s.n) && Rep(h, s.r, s.n);
    assert Rep(h, r.l, r.n) && Rep(h, r.r, r.n);
    HoistPieces(h, h', x.up.n, s.n, r.n, Sub(r, e), Sub(r, !e), Sub(s, !e), {x.n, x.up.n, Holder(x.up.up, head)});
  }

  /** Nothing occurs twice two levels into the sibling. */
  lemma HoistSubs(x: Ctx)
    requires BstCtx(x) && x.Down? && x.sib.Bin? && Sub(x.sib, x.d).Bin?
    ensures var r := Sub(x.sib, x.d);
            && {r.n} !! Nodes(r.l) !! Nodes(r.r)
            && (r.l.Bin? ==> r.l.n !in Nodes(r.l.l) && r.l.n !in Nodes(r.l.r))
            && (r.r.Bin? ==> r.r.n !in Nodes(r.r.l) && r.r.n !in Nodes(r.r.r))
  {
    var r := Sub(x.sib, x.d);
    if x.d {
      assert Bst(r, At(x.sib.n.key), At(x.n.key));
      ApartSubs(r, At(x.sib.n.key), At(x.n.key));
    } else {
      assert Bst(r, At(x.n.key), At(x.sib.n.key));
      ApartSubs(r, At(x.n.key), At(x.sib.n.key));
    }
  }

  lemma HoistShape(h: Heap, h': Heap, x: Ctx, t: Tree, head: Node, x': Ctx)
    requires Zip(h, x, t, head) && Pushable(x) && Sub(x.up.sib, x.up.d).Bin?
    requires HoistCells(h, h', x, Holder(x.up.up, head)) && x' == HoistCtx(x)
    ensures Shape(h', x', t, head)
  {
    var e, s := x.up.d, x.up.sib;
    assert RepCtx(h, x.up, x.n, head);
    assert Rep(h, s, x.up.n);
    ApartTwo(x, t);
    HoistParts(h, h', x, t, head);
    HoistTouches(h, h', x, Holder(x.up.up, head));
    PushBelow(h, h', x, t, head);
    PushAbove(h, h', x, t, head, Sub(s, e).n);
    MkRep(h', s.n, Black, e, Sub(Sub(s, e), !e), Sub(s, !e), Sub(s, e).n);
    assert RepCtx(h', x'.up.up, x.up.n, head);
    assert RepCtx(h', x'.up, x.n, head);
  }

  lemma HoistOrder(x: Ctx, t: Tree, x': Ctx)
    requires Ordered(x, t) && Pushable(x) && Sub(x.up.sib, x.up.d).Bin? && x' == HoistCtx(x)
    ensures Ordered(x', t) && AllNodes(x', t) == AllNodes(x, t)
    ensures Lo(x') == Lo(x) && Hi(x') == Hi(x) && Spine(x) <= Spine(x')
  {
    var e, s := x.up.d, x.up.sib;
    var r := Sub(s, e);
    assert BstCtx(x.up);
    assert Bst(s, if e then Lo(x.up.up) else At(x.up.n.key), if e then At(x.up.n.key) else Hi(x.up.up));
    assert Bst(r, if e then At(s.n.key) else At(x.up.n.key), if e then At(x.up.n.key) else At(s.n.key));
    MkNodes(s.n, Black, e, Sub(r, !e), Sub(s, !e));
    assert Nodes(s) == Nodes(r) + {s.n} + Nodes(Sub(s, !e));
    assert Nodes(r) == Nodes(Sub(r, e)) + {r.n} + Nodes(Sub(r, !e));
    assert CtxNodes(x'.up.up) == CtxNodes(x.up.up) + {r.n} + {s.n} + Nodes(Sub(r, !e)) + Nodes(Sub(s, !e));
    assert CtxNodes(x'.up) == CtxNodes(x.up);
    assert Spine(x'.up.up) == Spine(x.up.up) + {r.n};
    assert Spine(x'.up) == Spine(x.up) + {r.n};
    assert BstCtx(x'.up.up);
    assert BstCtx(x'.up);
  }

  lemma HoistRb(x: Ctx, t: Tree, k: int, x': Ctx)
    requires ZipRb(x, t, k) && Loose(x) && !RedRoot(x.sib) && !RedRoot(t)
    requires RedRoot(Sub(x.up.sib, x.up.d)) && x' == HoistCtx(x)
    ensures ZipRb(x', t, k)
  {
    assert RbCtx(x.up, k + 1, false);
    assert Rb(x.up.sib.l, k) && Rb(x.up.sib.r, k);
    assert Rb(Sub(x.up.sib, x.up.d).l, k) && Rb(Sub(x.up.sib, x.up.d).r, k);
    assert Rb(x'.up.up.sib, k + 1);
    assert RbCtx(x'.up.up, k + 1, false);
    assert RbCtx(x'.up, k, true);
  }

  // ---- from the pointer primitives to the cells ----

  /** `q` and `n` turn red, the two children of `n` black. */
  ghost predicate IsRecolored(h: Heap, h': Heap, q: Node, n: Node) {
    && q in h && n in h && h[n].left != null && h[n].right != null
    && var l: Node, r: Node := h[n].left, h[n].right;
       && {l, r} <= h.Keys && l != r && q != l && q != r && n != l && n != r && n != q
       && Touched(h, h', {q, n, l, r})
       && h'[q] == h[q].(color := Red) && h'[n] == h[n].(color := Red)
       && h'[l] == h[l].(color := Black) && h'[r] == h[r].(color := Black)
  }

  /** The pointers that a rotation at the hole's grandparent follows. */
  ghost predicate PushPointers(h: Heap, x: Ctx, top: Node)
    requires Pushable(x)
  {
    var e, q, p, s := x.up.d, x.n, x.up.n, x.up.sib;
    && {q, p, s.n, top} + Only(Root(s.l)) + Only(Root(s.r)) <= h.Keys
    && h[p].Child(!e) == s.n && h[p].Child(e) == q && h[s.n].left == Root(s.l) && h[s.n].right == Root(s.r)
    && p != q && p != s.n && q != s.n && top !in {q, p, s.n} + Only(Root(s.l)) + Only(Root(s.r))
    && {q, p, s.n} !! Only(Root(s.l)) + Only(Root(s.r)) && Only(Root(s.l)) !! Only(Root(s.r))
    && (h[top].right == p) == Side(x.up.up)
  }

  lemma PushPointersHold(h: Heap, x: Ctx, t: Tree, head: Node)
    requires Zip(h, x, t, head) && Pushable(x)
    ensures PushPointers(h, x, Holder(x.up.up, head))
  {
    var s := x.up.sib;
    ApartTwo(x, t);
    ApartCtx(x.up);
    assert RepCtx(h, x.up, x.n, head);
    RepDomain(h, s, x.up.n);
    RepCtxDomain(h, x.up.up, x.up.n, head);
    HolderSide(h, x.up.up, x.up.n, head);
    assert Only(Root(s.l)) <= Nodes(s.l) && Only(Root(s.r)) <= Nodes(s.r);
    assert Holder(x.up.up, head) in CtxNodes(x.up.up) + {head};
  }

  lemma LiftMoves(h: Heap, h1: Heap, h2: Heap, h': Heap, x: Ctx, top: Node)
    requires Pushable(x) && Sub(x.up.sib, !x.up.d).Bin? && PushPointers(h, x, top)
    requires IsRotated(h, h1, x.up.n, x.up.d) && IsLinked(h1, h2, top, Side(x.up.up), x.up.sib.n)
    requires IsRecolored(h2, h', x.n, x.up.sib.n)
    ensures LiftCells(h, h', x, top)
  {
    var e, q, p, s, a, z := x.up.d, x.n, x.up.n, x.up.sib.n, Root(Sub(x.up.sib, x.up.d)), Sub(x.up.sib, !x.up.d).n;
    TouchedTwice(h, h1, h2, {p, s} + Only(a), {top, s});
    TouchedTwice(h, h2, h', {p, s} + Only(a) + {top, s}, {q, s, p, z});
    assert h2[s].Child(e) == p && h2[s].Child(!e) == z;
  }

  /** The same for the two levels that a double rotation reaches. */
  ghost predicate HoistPointers(h: Heap, x: Ctx, top: Node)
    requires Pushable(x) && Sub(x.up.sib, x.up.d).Bin?
  {
    var e, q, p, s := x.up.d, x.n, x.up.n, x.up.sib;
    var r := Sub(s, e);
    var u, v := Root(Sub(r, e)), Root(Sub(r, !e));
    && PushPointers(h, x, top)
    && Only(u) + Only(v) <= h.Keys && h[r.n].Child(e) == u && h[r.n].Child(!e) == v
    && {q, p, s.n, r.n, top} !! Only(u) + Only(v) && Only(u) !! Only(v)
  }

  lemma HoistPointersHold(h: Heap, x: Ctx, t: Tree, head: Node)
    requires Zip(h, x, t, head) && Pushable(x) && Sub(x.up.sib, x.up.d).Bin?
    ensures HoistPointers(h, x, Holder(x.up.up, head))
  {
    var s := x.up.sib;
    var r := Sub(s, x.up.d);
    PushPointersHold(h, x, t, head);
    HoistApart(x, t, head);
    assert RepCtx(h, x.up, x.n, head);
    assert Rep(h, s, x.up.n);
    assert Rep(h, r, s.n);
    RepDomain(h, r, s.n);
    assert Only(Root(r.l)) <= Nodes(r.l) && Only(Root(r.r)) <= Nodes(r.r);
  }

  /** The cells before the recolouring. */
  ghost predicate HoistLinks(h: Heap, h': Heap, x: Ctx, top: Node)
    requires Pushable(x) && Sub(x.up.sib, x.up.d).Bin?
  {
    var e, q, p, s, r := x.up.d, x.n, x.up.n, x.up.sib.n, Sub(x.up.sib, x.up.d);
    var u, v := Root(Sub(r, e)), Root(Sub(r, !e));
    && {q, p, s, r.n, top} + Only(u) + Only(v) <= h.Keys
    && Touched(h, h', {p, s, r.n, top} + Only(u) + Only(v))
    && h'[r.n] == Cell(Black, top, null, null).WithChild(e, p).WithChild(!e, s)
    && h'[p] == h[p].WithChild(!e, u).(color := Red, parent := r.n)
    && h'[s] == h[s].WithChild(e, v).(color := Red, parent := r.n)
    && (u != null ==> h'[u] == h[u].(parent := p))
    && (v != null ==> h'[v] == h[v].(parent := s))
    && h'[top] == h[top].WithChild(Side(x.up.up), r.n)
  }

  lemma HoistLinked(h: Heap, h1: Heap, h2: Heap, x: Ctx, top: Node)
    requires Pushable(x) && Sub(x.up.sib, x.up.d).Bin? && HoistPointers(h, x, top)
    requires IsRotatedDouble(h, h1, x.up.n, x.up.d) && IsLinked(h1, h2, top, Side(x.up.up), Sub(x.up.sib, x.up.d).n)
    ensures HoistLinks(h, h2, x, top)
  {
    var e, p, s, r := x.up.d, x.up.n, x.up.sib.n, Sub(x.up.sib, x.up.d);
    TouchedTwice(h, h1, h2, {p, s, r.n} + Only(Root(Sub(r, e))) + Only(Root(Sub(r, !e))), {top, r.n});
  }

  lemma HoistApplies(h: Heap, x: Ctx, top: Node)
    requires Pushable(x) && Sub(x.up.sib, x.up.d).Bin? && HoistPointers(h, x, top)
    ensures CanRotateDouble(h, x.up.n, x.up.d)
    ensures h[h[x.up.n].Child(!x.up.d)].Child(x.up.d) == Sub(x.up.sib, x.up.d).n
  {
  }

  lemma HoistRecolors(h: Heap, h2: Heap, x: Ctx, top: Node)
    requires Pushable(x) && Sub(x.up.sib, x.up.d).Bin? && HoistPointers(h, x, top) && HoistLinks(h, h2, x, top)
    ensures var e, r := x.up.d, Sub(x.up.sib, x.up.d).n;
            h2[r].Child(e) == x.up.n && h2[r].Child(!e) == x.up.sib.n && r != x.n && r != x.up.n && r != x.up.sib.n
            && x.n != x.up.n && x.n != x.up.sib.n && x.up.n != x.up.sib.n
  {
  }

  lemma HoistMoves(h: Heap, h2: Heap, h': Heap, x: Ctx, top: Node)
    requires Pushable(x) && Sub(x.up.sib, x.up.d).Bin? && HoistPointers(h, x, top)
    requires HoistLinks(h, h2, x, top) && IsRecolored(h2, h', x.n, Sub(x.up.sib, x.up.d).n)
    ensures HoistCells(h, h', x, top)
  {
    var e, q, p, s := x.up.d, x.n, x.up.n, x.up.sib.n;
    var r := Sub(x.up.sib, e);
    TouchedTwice(h, h2, h', {p, s, r.n, top} + Only(Root(Sub(r, e))) + Only(Root(Sub(r, !e))), {q, r.n, p, s});
    assert h2[r.n].Child(e) == p && h2[r.n].Child(!e) == s;
  }

  // ---- one round of the loop ----

  /** The holder is red, or the child to be entered is; or the holder is the root and all there is is black. */
  ghost predicate Pushed(x: Ctx, t: Tree) {
    x.Top? || x.c == Red || RedRoot(t) || (x.up.Top? && !RedRoot(x.sib))
  }

  /** The same one step further down, before the push. */
  ghost predicate Entered(x: Ctx) {
    x.Down? && (x.c == Red || x.up.Top? || x.up.c == Red || (x.up.up.Top? && !RedRoot(x.up.sib)))
  }

  ghost predicate SameSearch(x: Ctx, x': Ctx, t: Tree)
    requires x.Down?
  {
    && x'.Down? && x'.n == x.n && x'.d == x.d && Lo(x') == Lo(x) && Hi(x') == Hi(x) && Spine(x) <= Spine(x')
    && AllNodes(x', t) == AllNodes(x, t)
  }

  lemma TurnDone(h: Heap, h1: Heap, h': Heap, x: Ctx, t: Tree, k: int, head: Node, x': Ctx)
    requires Zip(h, x, t, head) && ZipRb(x, t, k) && x.Down? && x.c == Black && RedRoot(x.sib) && !RedRoot(t)
    requires IsRotated(h, h1, x.n, x.d) && IsLinked(h1, h', Holder(x.up, head), Side(x.up), x.sib.n) && x' == TurnCtx(x)
    ensures Zip(h', x', t, head) && ZipRb(x', t, k) && SameSearch(x, x', t)
    ensures Touched(h, h', AllNodes(x, t) + {head})
  {
    TurnMoves(h, h1, h', x, t, head);
    TurnShape(h, h', x, t, head, x');
    TurnOrder(x, t, x');
    TurnRb(x, t, k, x');
    assert Only(Root(Sub(x.sib, x.d))) <= Nodes(x.sib) && Holder(x.up, head) in CtxNodes(x.up) + {head};
  }

  lemma SinkDone(h: Heap, h': Heap, x: Ctx, t: Tree, k: int, head: Node, x': Ctx)
    requires Zip(h, x, t, head) && ZipRb(x, t, k) && Loose(x) && !RedRoot(x.sib) && !RedRoot(t)
    requires !RedRoot(x.up.sib.l) && !RedRoot(x.up.sib.r)
    requires SinkCells(h, h', x) && x' == SinkCtx(x)
    ensures Zip(h', x', t, head) && ZipRb(x', t, k) && SameSearch(x, x', t)
    ensures Touched(h, h', AllNodes(x, t) + {head})
  {
    SinkShape(h, h', x, t, head, x');
    SinkOrder(x, t, x');
    SinkRb(x, t, k, x');
    ApartTwo(x, t);
  }

  lemma LiftDone(h: Heap, h1: Heap, h2: Heap, h': Heap, x: Ctx, t: Tree, k: int, head: Node, x': Ctx)
    requires Zip(h, x, t, head) && ZipRb(x, t, k) && Loose(x) && !RedRoot(x.sib) && !RedRoot(t)
    requires RedRoot(Sub(x.up.sib, !x.up.d)) && x' == LiftCtx(x)
    requires IsRotated(h, h1, x.up.n, x.up.d) && IsLinked(h1, h2, Holder(x.up.up, head), Side(x.up.up), x.up.sib.n)
    requires IsRecolored(h2, h', x.n, x.up.sib.n)
    ensures Zip(h', x', t, head) && ZipRb(x', t, k) && SameSearch(x, x', t)
    ensures Touched(h, h', AllNodes(x, t) + {head})
  {
    PushPointersHold(h, x, t, head);
    LiftMoves(h, h1, h2, h', x, Holder(x.up.up, head));
    LiftShape(h, h', x, t, head, x');
    LiftOrder(x, t, x');
    LiftRb(x, t, k, x');
    ApartTwo(x, t);
    assert Sub(x.up.sib, !x.up.d).n in Nodes(x.up.sib) && Only(Root(Sub(x.up.sib, x.up.d))) <= Nodes(x.up.sib);
    assert Holder(x.up.up, head) in CtxNodes(x.up.up) + {head};
  }

  lemma HoistDone(h: Heap, h1: Heap, h2: Heap, h': Heap, x: Ctx, t: Tree, k: int, head: Node, x': Ctx)
    requires Zip(h, x, t, head) && ZipRb(x, t, k) && Loose(x) && !RedRoot(x.sib) && !RedRoot(t)
    requires RedRoot(Sub(x.up.sib, x.up.d)) && x' == HoistCtx(x)
    requires IsRotatedDouble(h, h1, x.up.n, x.up.d)
    requires IsLinked(h1, h2, Holder(x.up.up, head), Side(x.up.up), Sub(x.up.sib, x.up.d).n)
    requires IsRecolored(h2, h', x.n, Sub(x.up.sib, x.up.d).n)
    ensures Zip(h', x', t, head) && ZipRb(x', t, k) && SameSearch(x, x', t)
    ensures Touched(h, h', AllNodes(x, t) + {head})
  {
    HoistPointersHold(h, x, t, head);
    HoistLinked(h, h1, h2, x, Holder(x.up.up, head));
    HoistMoves(h, h2, h', x, Holder(x.up.up, head));
    HoistShape(h, h', x, t, head, x');
    HoistOrder(x, t, x');
    HoistRb(x, t, k, x');
    HoistTouches(h, h', x, Holder(x.up.up, head));
    ApartTwo(x, t);
    assert Holder(x.up.up, head) in CtxNodes(x.up.up) + {head};
  }

  /** Below a black holder that is not the root, the sibling of the holder is a black node. */
  lemma SiblingThere(x: Ctx, t: Tree, k: int)
    requires ZipRb(x, t, k) && Entered(x) && x.c == Black && x.up.Down?
    ensures Loose(x)
  {
    RbHeight(t, k);
    assert RbCtx(x.up, k + 1, false);
  }

  // ---- the way down, with the search ----

  /** All keys still in reach are below `key` or equal to it, and `f` is the node found. */
  ghost predicate Found(x: Ctx, f: Node?, key: int) {
    && Lt(Lo(x), At(key))
    && if f == null then Lt(At(key), Hi(x)) else f.key == key && f in Spine(x) && Hi(x) == At(key)
  }

  lemma FoundDescends(x: Ctx, t: Tree, f: Node?, key: int)
    requires Found(x, f, key) && t.Bin? && Ordered(x, t)
    ensures Found(Into(x, t, t.n.key < key), if t.n.key == key then t.n else f, key)
    ensures f != null ==> t.n.key < key
  {
  }

  lemma FoundStays(x: Ctx, x': Ctx, t: Tree, f: Node?, key: int)
    requires x.Down? && SameSearch(x, x', t) && Found(x, f, key)
    ensures Found(x', f, key)
  {
  }

  /** At the bottom the holder is a red leaf, or the root and the only node. */
  lemma BottomIsLeaf(x: Ctx, k: int)
    requires x.Down? && ZipRb(x, Leaf, k) && Pushed(x, Leaf)
    ensures x.sib == Leaf && RbCtx(x.up, 0, false)
  {
    if x.c == Red { RbCtxWeaken(x.up, 0); }
  }

  lemma PushedEnters(x: Ctx, t: Tree, k: int, d: bool)
    requires Pushed(x, t) && ZipRb(x, t, k) && t.Bin?
    ensures Entered(Into(x, t, d))
  {
  }

  /** The colours and links around the holder, as the loop reads them. */
  lemma HolderCells(h: Heap, x: Ctx, t: Tree, head: Node)
    requires Zip(h, x, t, head) && x.Down?
    ensures x.n in h && h[x.n].color == x.c && h[x.n].Child(x.d) == Root(t) && h[x.n].Child(!x.d) == Root(x.sib)
    ensures t.Bin? ==> t.n in h && h[t.n].color == t.c
    ensures x.sib.Bin? ==> x.sib.n in h && h[x.sib.n].color == x.sib.c
    ensures Holder(x.up, head) in h
    ensures x.up.Top? ==> h[head].left == null
    ensures x.up.Down? ==> h[x.up.n].Child(!x.up.d) == Root(x.up.sib) && h[x.up.n].color == x.up.c
  {
    assert RepCtx(h, x.up, x.n, head);
    RepCtxDomain(h, x.up, x.n, head);
  }

  lemma SiblingCells(h: Heap, x: Ctx, t: Tree, head: Node)
    requires Zip(h, x, t, head) && Pushable(x)
    ensures var s := x.up.sib;
            && s.n in h && h[s.n].color == s.c && h[s.n].left == Root(s.l) && h[s.n].right == Root(s.r)
            && (s.l.Bin? ==> s.l.n in h && h[s.l.n].color == s.l.c)
            && (s.r.Bin? ==> s.r.n in h && h[s.r.n].color == s.r.c)
  {
    assert RepCtx(h, x.up, x.n, head);
    assert Rep(h, x.up.sib.l, x.up.sib.n) && Rep(h, x.up.sib.r, x.up.sib.n);
  }

  /** The loop enters the child on the key's side. */
  lemma Enter(h: Heap, x: Ctx, t: Tree, k: int, head: Node, f: Node?, key: int) returns (x': Ctx, t': Tree, k': int)
    requires Zip(h, x, t, head) && ZipRb(x, t, k) && t.Bin? && Pushed(x, t) && Found(x, f, key)
    ensures var d := t.n.key < key; x' == Into(x, t, d) && t' == Sub(t, d) && Size(t') < Size(t)
    ensures Zip(h, x', t', head) && ZipRb(x', t', k') && AllNodes(x', t') == AllNodes(x, t)
    ensures Entered(x') && Found(x', if t.n.key == key then t.n else f, key)
  {
    var d := t.n.key < key;
    x', t' := Into(x, t, d), Sub(t, d);
    FoundDescends(x, t, f, key);
    Descend(h, x, t, head, d);
    k' := DescendRb(x, t, k, d);
    PushedEnters(x, t, k, d);
  }

  lemma Pushing(h: Heap, x: Ctx, x': Ctx, t: Tree, head: Node, f: Node?, key: int)
    requires x.Down? && SameSearch(x, x', t) && Found(x, f, key) && Zip(h, x', t, head)
    ensures Found(x', f, key) && x'.n in h && h[x'.n].Child(x'.d) == Root(t)
  {
    FoundStays(x, x', t, f, key);
    HolderCells(h, x', t, head);
  }
}
