/** The pointer work of one round of the deletion, on the real nodes. */
module RbDeleteSteps {
  import opened RbShape
  import opened RbZipper
  import opened RbInsert
  import opened RbDelete
  import opened RbRemove

  method Recolor(q: Node, r: Node, ghost nodes: set<Node>)
    requires {q, r} <= nodes && r.left != null && r.right != null && r.left in nodes && r.right in nodes
    requires r.left != r.right && q != r && q != r.left && q != r.right && r != r.left && r != r.right
    modifies nodes
    ensures IsRecolored(old(Snap(nodes)), Snap(nodes), q, r)
  {
    ghost var h := Snap(nodes);
    assert h[r] == r.Now();
    r.SetColor(Red, nodes);
    q.SetColor(Red, nodes);
    r.left.SetColor(Black, nodes);
    r.right.SetColor(Black, nodes);
  }

  method DelSink(p: Node, q: Node, s: Node, head: Node, ghost nodes: set<Node>, ghost x: Ctx, ghost b: Tree, ghost k: int)
    returns (ghost x': Ctx)
    requires Zip(Snap(nodes), x, b, head) && ZipRb(x, b, k) && AllNodes(x, b) + {head} <= nodes
    requires Loose(x) && !RedRoot(x.sib) && !RedRoot(b) && !RedRoot(x.up.sib.l) && !RedRoot(x.up.sib.r)
    requires q == x.n && p == x.up.n && s == x.up.sib.n
    modifies nodes
    ensures Zip(Snap(nodes), x', b, head) && ZipRb(x', b, k) && SameSearch(x, x', b) && x'.c == Red
    ensures x'.up.Down? && x'.up.n == p
  {
    hide Zip;
    hide ZipRb;
    hide SameSearch;
    ghost var h := Snap(nodes);
    PushPointersHold(h, x, b, head);
    p.SetColor(Black, nodes);
    s.SetColor(Red, nodes);
    q.SetColor(Red, nodes);
    x' := SinkCtx(x);
    SinkDone(h, Snap(nodes), x, b, k, head, x');
  }

  method DelHoist(g: Node, p: Node, q: Node, dir2: bool, last: bool, head: Node, ghost nodes: set<Node>,
                  ghost x: Ctx, ghost b: Tree, ghost k: int)
    returns (ghost x': Ctx)
    requires Zip(Snap(nodes), x, b, head) && ZipRb(x, b, k) && AllNodes(x, b) + {head} <= nodes
    requires Loose(x) && !RedRoot(x.sib) && !RedRoot(b) && RedRoot(Sub(x.up.sib, x.up.d))
    requires q == x.n && p == x.up.n && last == x.up.d && g == Holder(x.up.up, head) && dir2 == Side(x.up.up)
    modifies nodes
    ensures Zip(Snap(nodes), x', b, head) && ZipRb(x', b, k) && SameSearch(x, x', b) && x'.c == Red
    ensures x'.up.Down? && x'.up.n == p
  {
    hide Zip;
    hide ZipRb;
    hide SameSearch;
    ghost var h := Snap(nodes);
    HoistPointersHold(h, x, b, head);
    HoistApplies(h, x, g);
    var r := p.RotateDouble(last, nodes);
    ghost var h1 := Snap(nodes);
    g.SetChild(dir2, r, nodes);
    ghost var h2 := Snap(nodes);
    HoistLinked(h, h1, h2, x, g);
    HoistRecolors(h, h2, x, g);
    assert h2[r] == r.Now();
    Recolor(q, r, nodes);
    x' := HoistCtx(x);
    HoistDone(h, h1, h2, Snap(nodes), x, b, k, head, x');
  }

  method DelLift(g: Node, p: Node, q: Node, dir2: bool, last: bool, head: Node, ghost nodes: set<Node>,
                 ghost x: Ctx, ghost b: Tree, ghost k: int)
    returns (ghost x': Ctx)
    requires Zip(Snap(nodes), x, b, head) && ZipRb(x, b, k) && AllNodes(x, b) + {head} <= nodes
    requires Loose(x) && !RedRoot(x.sib) && !RedRoot(b) && RedRoot(Sub(x.up.sib, !x.up.d))
    requires q == x.n && p == x.up.n && last == x.up.d && g == Holder(x.up.up, head) && dir2 == Side(x.up.up)
    modifies nodes
    ensures Zip(Snap(nodes), x', b, head) && ZipRb(x', b, k) && SameSearch(x, x', b) && x'.c == Red
    ensures x'.up.Down? && x'.up.n == p
  {
    hide Zip;
    hide ZipRb;
    hide SameSearch;
    ghost var h := Snap(nodes);
    PushPointersHold(h, x, b, head);
    assert h[p] == p.Now();
    var r := p.Rotate(last, nodes);
    ghost var h1 := Snap(nodes);
    g.SetChild(dir2, r, nodes);
    ghost var h2 := Snap(nodes);
    assert h2[r] == r.Now();
    Recolor(q, r, nodes);
    x' := LiftCtx(x);
    LiftDone(h, h1, h2, Snap(nodes), x, b, k, head, x');
  }

  /** The black holder has two black children: a red one is taken from its parent or its sibling. */
  method DelBorrow(g: Node?, p: Node, q: Node, s: Node, last: bool, head: Node, ghost nodes: set<Node>,
                   ghost x: Ctx, ghost b: Tree, ghost k: int)
    returns (ghost x': Ctx)
    requires Zip(Snap(nodes), x, b, head) && ZipRb(x, b, k) && AllNodes(x, b) + {head} <= nodes
    requires Loose(x) && !RedRoot(x.sib) && !RedRoot(b)
    requires q == x.n && p == x.up.n && last == x.up.d && s == x.up.sib.n && g == Holder(x.up.up, head)
    modifies nodes
    ensures Zip(Snap(nodes), x', b, head) && ZipRb(x', b, k) && SameSearch(x, x', b) && x'.c == Red
    ensures x'.up.Down? && x'.up.n == p
  {
    ghost var h := Snap(nodes);
    SiblingCells(h, x, b, head);
    assert h[s] == s.Now();
    assert s.left != null ==> h[s.left] == s.left.Now();
    assert s.right != null ==> h[s.right] == s.right.Now();
    if !IsRed(s.Child(!last)) && !IsRed(s.Child(last)) {
      x' := DelSink(p, q, s, head, nodes, x, b, k);
    } else {
      PushPointersHold(h, x, b, head);
      assert h[g] == g.Now();
      var dir2 := g.right == p;
      if IsRed(s.Child(last)) {
        x' := DelHoist(g, p, q, dir2, last, head, nodes, x, b, k);
      } else if IsRed(s.Child(!last)) {
        x' := DelLift(g, p, q, dir2, last, head, nodes, x, b, k);
      }
    }
  }

  /** The black holder has a red other child, which is turned above it. */
  method DelTurn(p: Node, q: Node, last: bool, dir: bool, head: Node, ghost nodes: set<Node>,
                 ghost x: Ctx, ghost b: Tree, ghost k: int)
    returns (p': Node, ghost x': Ctx)
    requires Zip(Snap(nodes), x, b, head) && ZipRb(x, b, k) && AllNodes(x, b) + {head} <= nodes
    requires x.Down? && x.c == Black && RedRoot(x.sib) && !RedRoot(b)
    requires q == x.n && dir == x.d && p == Holder(x.up, head) && last == Side(x.up)
    modifies nodes
    ensures Zip(Snap(nodes), x', b, head) && ZipRb(x', b, k) && SameSearch(x, x', b) && x'.c == Red
    ensures p' == Holder(x'.up, head)
  {
    ghost var h := Snap(nodes);
    TurnApplies(h, x, b, head);
    assert h[q] == q.Now();
    var r := q.Rotate(dir, nodes);
    ghost var h1 := Snap(nodes);
    p.SetChild(last, r, nodes);
    x' := TurnCtx(x);
    assert Snap(nodes)[p] == p.Now();
    p' := p.Child(last);
    TurnDone(h, h1, Snap(nodes), x, b, k, head, x');
  }

  /** One push: sees to it that the holder of the hole is red, or that the hole's own root is. */
  method DelPush(g: Node?, p: Node, q: Node, last: bool, dir: bool, head: Node, ghost nodes: set<Node>,
                 ghost x: Ctx, ghost b: Tree, ghost k: int)
    returns (p': Node, ghost x': Ctx)
    requires Zip(Snap(nodes), x, b, head) && ZipRb(x, b, k) && AllNodes(x, b) + {head} <= nodes
    requires Entered(x) && q == x.n && dir == x.d && p == Holder(x.up, head) && last == Side(x.up)
    requires x.up.Down? ==> g == Holder(x.up.up, head)
    modifies nodes
    ensures Zip(Snap(nodes), x', b, head) && ZipRb(x', b, k) && SameSearch(x, x', b) && Pushed(x', b)
    ensures p' == Holder(x'.up, head)
  {
    p', x' := p, x;
    ghost var h := Snap(nodes);
    HolderCells(h, x, b, head);
    assert h[q] == q.Now();
    assert q.Child(dir) != null ==> h[q.Child(dir)] == q.Child(dir).Now();
    assert q.Child(!dir) != null ==> h[q.Child(!dir)] == q.Child(!dir).Now();
    if !IsRed(q) && !IsRed(q.Child(dir)) {
      if IsRed(q.Child(!dir)) {
        p', x' := DelTurn(p, q, last, dir, head, nodes, x, b, k);
      } else if !IsRed(q.Child(!dir)) {
        assert h[p] == p.Now();
        if x.up.Down? { SiblingThere(x, b, k); }
        var s := p.Child(!last);
        if s != null {
          x' := DelBorrow(g, p, q, s, last, head, nodes, x, b, k);
        }
      }
    }
  }

  /** The node at the bottom takes the place of the found one. */
  method DelRemove(f: Node, p: Node, q: Node, head: Node, key: int, ghost nodes: set<Node>, ghost x: Ctx) returns (ghost x': Ctx)
    requires Bottom(Snap(nodes), x, f, head, key) && CtxNodes(x) + {head} <= nodes && q == x.n && p == Holder(x.up, head)
    modifies nodes
    ensures Zip(Snap(nodes), x', Leaf, head) && RbCtx(x', 0, false) && CtxNodes(x') == CtxNodes(x) - {f}
    ensures Without(AllNodes(x, Leaf), key) == CtxNodes(x')
  {
    ghost var h := Snap(nodes);
    BottomCells(h, x, f, head, key);
    WithoutOne(x, f);
    assert h[q] == q.Now();
    var c := q.Child(q.left == null);
    f.Replace(q, nodes);
    ghost var h1 := Snap(nodes);
    assert h1[p] == p.Now();
    var side := p.right == q;
    p.SetChild(side, c, nodes);
    x' := Removed(x, f);
    RemoveDone(h, h1, Snap(nodes), x, f, head, key, side, x');
  }

  /** The loop of `Del`: from the dummy head down to a leaf `q` whose parent is `p`. */
  method DelBelow(head: Node, key: int, ghost nodes: set<Node>, ghost start: Tree)
    returns (f: Node?, p: Node, q: Node, ghost x: Ctx, ghost k: int)
    requires nodes == Nodes(start) + {head} && Zip(Snap(nodes), Top, start, head)
    requires Proper(start) && start.Bin?
    modifies nodes
    ensures Zip(Snap(nodes), x, Leaf, head) && ZipRb(x, Leaf, k) && AllNodes(x, Leaf) == Nodes(start)
    ensures x.Down? && x.sib == Leaf && q == x.n && p == Holder(x.up, head) && Found(x, f, key)
    ensures RbCtx(x.up, 0, false)
  {
    var g: Node?;
    ghost var b := start;
    q, p, g, f, x := head, head, null, null, Top;
    k :| Rb(start, k);
    var dir := true;
    assert Snap(nodes)[q] == q.Now();
    while q.Child(dir) != null
      invariant q == Holder(x, head) && dir == Side(x) && (x.Down? ==> p == Holder(x.up, head)) && (x.Top? ==> b.Bin? && b.c == Black)
      invariant q.Child(dir) == Root(b)
      invariant Zip(Snap(nodes), x, b, head) && ZipRb(x, b, k) && AllNodes(x, b) == Nodes(start)
      invariant Pushed(x, b) && Found(x, f, key)
      decreases Size(b)
    {
      var last := dir;
      // update helpers
      g, p := p, q;
      q := q.Child(dir);
      ghost var f0 := f;
      // save found node
      if q.key == key {
        f := q;
      }
      // push the red node down
      dir := q.key < key;
      ghost var x1, b1, k1 := Enter(Snap(nodes), x, b, k, head, f0, key);
      p, x := DelPush(g, p, q, last, dir, head, nodes, x1, b1, k1);
      Pushing(Snap(nodes), x1, x, b1, head, f, key);
      b, k := b1, k1;
      assert Snap(nodes)[q] == q.Now();
    }
    BottomIsLeaf(x, k);
  }
}
