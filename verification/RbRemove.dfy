/** The end of a deletion: the node `q` at the bottom takes the place of the node `f` that
    holds the key, and `q`'s own place is given up. */
module RbRemove {
  import opened RbShape
  import opened RbZipper

  ghost function Subst(x: Ctx, f: Node, q: Node): Ctx {
    match x
    case Top => Top
    case Down(n, c, d, sib, up) => if n == f then x.(n := q) else x.(up := Subst(up, f, q))
  }

  /** Pointers to `f` become pointers to `q`, and the old pointer to `q` is cleared. */
  ghost function Renamed(n: Node?, f: Node, q: Node): Node? { if n == f then q else if n == q then null else n }

  ghost function RenamedCell(c: Cell, f: Node, q: Node): Cell {
    Cell(c.color, Renamed(c.parent, f, q), Renamed(c.left, f, q), Renamed(c.right, f, q))
  }

  lemma RepRenamed(h: Heap, h': Heap, t: Tree, par: Node, f: Node, q: Node)
    requires Rep(h, t, par) && f !in Nodes(t) && q !in Nodes(t) && par != q
    requires forall n <- Nodes(t) :: n in h && n in h' && h'[n] == RenamedCell(h[n], f, q)
    ensures Rep(h', t, Renamed(par, f, q))
  {
    if t.Bin? {
      RepRenamed(h, h', t.l, t.n, f, q);
      RepRenamed(h, h', t.r, t.n, f, q);
    }
  }

  ghost predicate AllRenamed(h: Heap, h': Heap, nodes: set<Node>, f: Node, q: Node) {
    forall n <- nodes :: n in h && n in h' && h'[n] == RenamedCell(h[n], f, q)
  }

  lemma SpineInCtx(x: Ctx)
    ensures Spine(x) <= CtxNodes(x)
  {
  }

  lemma SubstHolder(x: Ctx, head: Node, f: Node, q: Node)
    requires q !in CtxNodes(x) && head != f && head != q
    ensures Holder(Subst(x, f, q), head) == Renamed(Holder(x, head), f, q)
  {
  }

  lemma SubstRep(h: Heap, h': Heap, x: Ctx, hole: Node, head: Node, f: Node, q: Node)
    requires RepCtx(h, x, hole, head) && BstCtx(x) && q !in CtxNodes(x) && head !in CtxNodes(x) + {f, q}
    requires f in Spine(x) || f !in CtxNodes(x)
    requires AllRenamed(h, h', CtxNodes(x) + {head} - {f}, f, q)
    requires f in Spine(x) ==> f in h && q in h' && h'[q] == RenamedCell(h[f], f, q)
    ensures RepCtx(h', Subst(x, f, q), Renamed(hole, f, q), head)
  {
    hide Rep;
    if x.Down? {
      ApartCtx(x);
      SpineInCtx(x.up);
      SpineInCtx(x);
      assert Only(Root(x.sib)) <= Nodes(x.sib);
      RepRenamed(h, h', x.sib, x.n, f, q);
      SubstRep(h, h', x.up, x.n, head, f, q);
      SubstHolder(x.up, head, f, q);
      if x.n == f {
        SubstNone(x.up, f, q);
        MkRepCtx(h', q, x.c, x.d, x.sib, x.up, Renamed(hole, f, q), head);
      } else {
        MkRepCtx(h', x.n, x.c, x.d, x.sib, Subst(x.up, f, q), Renamed(hole, f, q), head);
      }
    }
  }

  lemma SubstNone(x: Ctx, f: Node, q: Node)
    requires f !in Spine(x)
    ensures Subst(x, f, q) == x
  {
  }

  lemma SubstNodes(x: Ctx, f: Node, q: Node)
    requires BstCtx(x) && f in Spine(x)
    ensures CtxNodes(Subst(x, f, q)) == CtxNodes(x) - {f} + {q}
  {
    ApartCtx(x);
    SpineInCtx(x.up);
    if x.n != f { SubstNodes(x.up, f, q); }
  }

  lemma SubstRb(x: Ctx, f: Node, q: Node, k: int, red: bool)
    requires RbCtx(x, k, red)
    ensures RbCtx(Subst(x, f, q), k, red)
  {
  }

  /** `f` is the first node above the hole's keys, and `q` is below `f` and above all that is left of the hole. */
  lemma SubstOrder(x: Ctx, f: Node, q: Node)
    requires BstCtx(x) && f in Spine(x) && Hi(x) == At(f.key) && Lt(Lo(x), At(q.key)) && q.key < f.key
    ensures BstCtx(Subst(x, f, q)) && Lo(Subst(x, f, q)) == Lo(x) && Hi(Subst(x, f, q)) == At(q.key)
  {
    KeysOutside(x.up);
    SpineInCtx(x.up);
    if x.n == f {
      BstWiden(x.sib, At(f.key), Hi(x.up), At(q.key), Hi(x.up));
    } else {
      SubstOrder(x.up, f, q);
    }
  }

  // ---- the pointer changes are that renaming ----

  /** Parent and child pointers of `n` agree with those of the nodes they lead to. */
  ghost predicate Mutual(h: Heap, n: Node) {
    && n in h
    && (h[n].left != null ==> h[n].left in h && h[h[n].left].parent == n)
    && (h[n].right != null ==> h[n].right in h && h[h[n].right].parent == n)
    && (h[n].parent != null ==> h[n].parent in h && (h[h[n].parent].left == n || h[h[n].parent].right == n))
  }

  lemma MutualTree(h: Heap, t: Tree, par: Node)
    requires Rep(h, t, par) && par in h && (t.Bin? ==> h[par].left == t.n || h[par].right == t.n)
    ensures forall n <- Nodes(t) :: Mutual(h, n)
  {
    if t.Bin? {
      MutualTree(h, t.l, t.n);
      MutualTree(h, t.r, t.n);
    }
  }

  lemma MutualCtx(h: Heap, x: Ctx, hole: Node, head: Node)
    requires RepCtx(h, x, hole, head) && hole in h && h[hole].parent == Holder(x, head)
    ensures forall n <- CtxNodes(x) + {head} :: Mutual(h, n)
  {
    if x.Down? {
      RepCtxDomain(h, x.up, x.n, head);
      MutualTree(h, x.sib, x.n);
      MutualCtx(h, x.up, x.n, head);
      assert h[x.n].parent == Holder(x.up, head);
      assert x.up.Top? ==> h[head].right == x.n;
    }
  }

  /** The leaf `q` in the hole, with `f` somewhere above it. */
  ghost predicate LeafBelow(h: Heap, x: Ctx, q: Node, f: Node, head: Node) {
    && RepCtx(h, x, q, head) && BstCtx(x) && head !in CtxNodes(x) && q !in CtxNodes(x) + {head} && f in Spine(x)
    && q in h && h[q].parent == Holder(x, head) && h[q].left == null && h[q].right == null
  }

  /** What the cell of a node on the path shows. */
  lemma FrameParts(h: Heap, x: Ctx, hole: Node, f: Node, head: Node)
    requires RepCtx(h, x, hole, head) && BstCtx(x) && f in Spine(x) && head !in CtxNodes(x) + {hole} && hole !in CtxNodes(x)
    ensures f in h && h[f].parent != null && h[f].parent in CtxNodes(x) + {head} && h[f].parent != f
    ensures h[f].left != f && h[f].right != f && h[f].left in CtxNodes(x) + {hole, null} && h[f].right in CtxNodes(x) + {hole, null}
    ensures h[f].left != null ==> h[f].left != h[f].right && h[f].left != h[f].parent
    ensures h[f].right != null ==> h[f].right != h[f].parent
    ensures h[f].parent != Holder(x, head)
    ensures h[f].parent in h && (h[h[f].parent].left == f) != (h[h[f].parent].right == f)
  {
    ApartCtx(x);
    SpineInCtx(x.up);
    assert Only(Root(x.sib)) <= Nodes(x.sib);
    if x.n == f {
      HolderSide(h, x.up, f, head);
    } else {
      FrameParts(h, x.up, x.n, f, head);
    }
  }

  /** The pointers around `f` and around the leaf `q` below `p` that the removal follows. */
  ghost predicate RemovePointers(h: Heap, f: Node, q: Node, p: Node) {
    && CanReplace(h, f, q) && f != q && p != q && p in h
    && h[q].parent == p && h[q].left == null && h[q].right == null
    && (h[p].left == q) != (h[p].right == q)
    && h[f].parent != p && (h[h[f].parent].left == f) != (h[h[f].parent].right == f)
  }

  lemma OneRenamed(h: Heap, h1: Heap, h2: Heap, f: Node, q: Node, p: Node, side: bool, n: Node)
    requires RemovePointers(h, f, q, p) && IsReplaced(h, h1, f, q)
    requires side == (h1[p].right == q) && IsLinked(h1, h2, p, side, null)
    requires Mutual(h, n) && Mutual(h, f) && Mutual(h, p) && n != f && n != q
    ensures h2[n] == RenamedCell(h[n], f, q)
  {
    var l := if h[f].left == q then null else h[f].left;
    var r := if h[f].right == q then null else h[f].right;
    if n == h[f].parent {
      assert h2[n] == h1[n];
    } else if n == p {
      assert h1[n].left == h[n].left && h1[n].right == h[n].right;
    } else if n == l || n == r {
      assert h2[n] == h1[n];
    } else {
      assert h2[n] == h1[n] == h[n];
    }
  }

  lemma TopRenamed(h: Heap, h1: Heap, h2: Heap, f: Node, q: Node, p: Node, side: bool)
    requires RemovePointers(h, f, q, p) && IsReplaced(h, h1, f, q)
    requires side == (h1[p].right == q) && IsLinked(h1, h2, p, side, null)
    requires Mutual(h, f)
    ensures q in h2 && h2[q] == RenamedCell(h[f], f, q)
  {
  }

  lemma RemovePointersHold(h: Heap, x: Ctx, q: Node, f: Node, head: Node)
    requires LeafBelow(h, x, q, f, head)
    ensures RemovePointers(h, f, q, Holder(x, head)) && f in CtxNodes(x)
    ensures forall n <- CtxNodes(x) + {head} :: Mutual(h, n)
  {
    SpineInCtx(x);
    MutualCtx(h, x, q, head);
    FrameParts(h, x, q, f, head);
    HolderSide(h, x, q, head);
  }

  lemma RemoveCells(h: Heap, h1: Heap, h2: Heap, x: Ctx, q: Node, f: Node, head: Node, side: bool)
    requires LeafBelow(h, x, q, f, head) && IsReplaced(h, h1, f, q)
    requires Holder(x, head) in h1 && side == (h1[Holder(x, head)].right == q) && IsLinked(h1, h2, Holder(x, head), side, null)
    ensures f in CtxNodes(x) && f in h && q in h2 && h2[q] == RenamedCell(h[f], f, q)
    ensures AllRenamed(h, h2, CtxNodes(x) + {head} - {f}, f, q)
  {
    var p := Holder(x, head);
    RemovePointersHold(h, x, q, f, head);
    RepCtxDomain(h, x, q, head);
    TopRenamed(h, h1, h2, f, q, p, side);
    forall n | n in CtxNodes(x) + {head} - {f}
      ensures n in h && n in h2 && h2[n] == RenamedCell(h[n], f, q)
    {
      OneRenamed(h, h1, h2, f, q, p, side, n);
    }
  }

  /** `f` and the hole's holder `q` are two nodes: `q` moves to the place of `f`. */
  lemma MoveShape(h: Heap, h1: Heap, h2: Heap, x: Ctx, q: Node, f: Node, head: Node, side: bool, x': Ctx)
    requires LeafBelow(h, x, q, f, head) && IsReplaced(h, h1, f, q)
    requires Holder(x, head) in h1 && side == (h1[Holder(x, head)].right == q) && IsLinked(h1, h2, Holder(x, head), side, null)
    requires x' == Subst(x, f, q) && f != head
    ensures RepCtx(h2, x', null, head)
  {
    RemoveCells(h, h1, h2, x, q, f, head, side);
    SubstRep(h, h2, x, q, head, f, q);
  }

  /** The holder itself has the key: it is only unhooked. */
  lemma UnhookDone(h: Heap, h1: Heap, h2: Heap, x: Ctx, q: Node, head: Node, side: bool)
    requires RepCtx(h, x, q, head) && BstCtx(x) && head !in CtxNodes(x) && q !in CtxNodes(x) + {head}
    requires q in h && h[q].parent == Holder(x, head) && h[q].left == null && h[q].right == null
    requires IsReplaced(h, h1, q, q)
    requires Holder(x, head) in h1 && side == (h1[Holder(x, head)].right == q) && IsLinked(h1, h2, Holder(x, head), side, null)
    ensures RepCtx(h2, x, null, head)
  {
    HolderSide(h, x, q, head);
    RepCtxDomain(h, x, q, head);
    RepCtxRefilled(h, h2, x, q, null, head);
  }

  // ---- the end of the deletion ----

  ghost function Removed(x: Ctx, f: Node): Ctx
    requires x.Down?
  {
    if f == x.n then x.up else Subst(x.up, f, x.n)
  }

  ghost predicate Bottom(h: Heap, x: Ctx, f: Node, head: Node, key: int) {
    && x.Down? && x.sib == Leaf && Zip(h, x, Leaf, head) && RbCtx(x.up, 0, false)
    && f.key == key && f in Spine(x) && Hi(x) == At(key)
  }

  lemma BottomCells(h: Heap, x: Ctx, f: Node, head: Node, key: int)
    requires Bottom(h, x, f, head, key)
    ensures var q, p := x.n, Holder(x.up, head);
            && q in h && h[q] == Cell(x.c, p, null, null)
            && RepCtx(h, x.up, q, head) && BstCtx(x.up) && head !in CtxNodes(x.up) && q !in CtxNodes(x.up) + {head}
            && f in h && f in CtxNodes(x) && CanReplace(h, f, q) && p in h && p != q
            && (f != q ==> LeafBelow(h, x.up, q, f, head) && Hi(x.up) == At(f.key) && q.key < f.key && f != head)
  {
    var q := x.n;
    ApartCtx(x);
    SpineInCtx(x);
    SpineInCtx(x.up);
    KeysOutside(x.up);
    RepCtxDomain(h, x, null, head);
    assert h[q] == Cell(x.c, Holder(x.up, head), null, null);
    assert RepCtx(h, x.up, q, head);
    if f != q {
      RemovePointersHold(h, x.up, q, f, head);
    }
  }

  lemma RemoveSelf(h: Heap, h1: Heap, h2: Heap, x: Ctx, f: Node, head: Node, key: int, side: bool)
    requires Bottom(h, x, f, head, key) && f == x.n && IsReplaced(h, h1, f, f)
    requires Holder(x.up, head) in h1 && side == (h1[Holder(x.up, head)].right == f)
    requires IsLinked(h1, h2, Holder(x.up, head), side, null)
    ensures RepCtx(h2, x.up, null, head) && BstCtx(x.up) && head !in CtxNodes(x.up) && CtxNodes(x.up) == CtxNodes(x) - {f}
  {
    BottomCells(h, x, f, head, key);
    ApartCtx(x);
    UnhookDone(h, h1, h2, x.up, f, head, side);
  }

  lemma RemoveOther(h: Heap, h1: Heap, h2: Heap, x: Ctx, f: Node, head: Node, key: int, side: bool, x': Ctx)
    requires Bottom(h, x, f, head, key) && f != x.n && IsReplaced(h, h1, f, x.n) && x' == Subst(x.up, f, x.n)
    requires Holder(x.up, head) in h1 && side == (h1[Holder(x.up, head)].right == x.n)
    requires IsLinked(h1, h2, Holder(x.up, head), side, null)
    ensures RepCtx(h2, x', null, head) && CtxNodes(x') == CtxNodes(x) - {f}
  {
    BottomCells(h, x, f, head, key);
    ApartCtx(x);
    MoveShape(h, h1, h2, x.up, x.n, f, head, side, x');
    SubstNodes(x.up, f, x.n);
  }

  lemma RemoveDone(h: Heap, h1: Heap, h2: Heap, x: Ctx, f: Node, head: Node, key: int, side: bool, x': Ctx)
    requires Bottom(h, x, f, head, key) && IsReplaced(h, h1, f, x.n) && x' == Removed(x, f)
    requires Holder(x.up, head) in h1 && side == (h1[Holder(x.up, head)].right == x.n)
    requires IsLinked(h1, h2, Holder(x.up, head), side, null)
    ensures Zip(h2, x', Leaf, head) && RbCtx(x', 0, false) && CtxNodes(x') == CtxNodes(x) - {f}
  {
    if f == x.n {
      RemoveSelf(h, h1, h2, x, f, head, key, side);
    } else {
      RemoveOther(h, h1, h2, x, f, head, key, side, x');
      BottomCells(h, x, f, head, key);
      SubstOrder(x.up, f, x.n);
      SubstRb(x.up, f, x.n, 0, false);
    }
  }

  lemma KeysUnique(t: Tree, lo: Bound, hi: Bound)
    requires Bst(t, lo, hi)
    ensures forall n, m :: n in Nodes(t) && m in Nodes(t) && n.key == m.key ==> n == m
  {
    if t.Bin? {
      KeysUnique(t.l, lo, At(t.n.key));
      KeysUnique(t.r, At(t.n.key), hi);
      KeysInside(t.l, lo, At(t.n.key));
      KeysInside(t.r, At(t.n.key), hi);
    }
  }

  /** The removed node is the only one with its key. */
  lemma WithoutOne(x: Ctx, f: Node)
    requires BstCtx(x) && f in CtxNodes(x)
    ensures Without(AllNodes(x, Leaf), f.key) == CtxNodes(x) - {f}
  {
    PlugBst(x, Leaf);
    PlugNodes(x, Leaf);
    KeysUnique(Plug(x, Leaf), Below, Above);
  }
}
