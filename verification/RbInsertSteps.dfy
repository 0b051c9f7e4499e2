/** The pointer work of one round of the insertion, on the real nodes. */
module RbInsertSteps {
  import opened RbShape
  import opened RbZipper
  import opened RbInsert

  /** The colour flip on the way down. */
  method PutFlip(q: Node, head: Node, ghost nodes: set<Node>, ghost x: Ctx, ghost f: Tree, ghost k: int)
    returns (ghost f': Tree)
    requires Zip(Snap(nodes), x, f, head) && AllNodes(x, f) + {head} <= nodes && f.Bin? && f.n == q && ZipRb(x, f, k)
    modifies nodes
    ensures f' == Turned(f) && Zip(Snap(nodes), x, f', head) && AllNodes(x, f') == AllNodes(x, f)
    ensures Rb(f', k) && RbCtx(x, k, false)
    ensures Touched(old(Snap(nodes)), Snap(nodes), AllNodes(x, f))
  {
    f' := f;
    ghost var h := Snap(nodes);
    CellsAt(h, x, f, head);
    assert h[q] == q.Now();
    assert q.left != null ==> h[q.left] == q.left.Now();
    assert q.right != null ==> h[q.right] == q.right.Now();
    if IsRed(q.left) && IsRed(q.right) {
      q.SetColor(Red, nodes);
      q.left.SetColor(Black, nodes);
      q.right.SetColor(Black, nodes);
      f' := Flip(f);
      FlipDone(h, Snap(nodes), x, f, k, head, f');
    }
  }

  /** The repair of a red node below a red parent, if there is one. */
  method PutRepair(t: Node, g: Node?, p: Node?, q: Node, last: bool, head: Node, ghost nodes: set<Node>,
                   ghost x: Ctx, ghost f: Tree, ghost k: int)
    returns (ghost x': Ctx, ghost f': Tree, ghost k': int)
    requires Zip(Snap(nodes), x, f, head) && AllNodes(x, f) + {head} <= nodes && f.Bin? && f.n == q
    requires Rb(f, k) && RbCtx(x, k, false) && ParentOk(x, p, x.Down? && x.d)
    requires RedRoot(f) && x.Down? && x.c == Red ==>
               UnderRed(x) && !RedRoot(x.up.sib) && GrandOk(x, g, last) && GreatOk(x, t, head)
    modifies nodes
    ensures Zip(Snap(nodes), x', f', head) && AllNodes(x', f') == AllNodes(x, f) && ZipRb(x', f', k')
    ensures f'.Bin?
    ensures if RedRoot(f) && x.Down? && x.c == Red then
              if x.up.d == x.d then x' == SingleCtx(x) && f' == f else x' == x.up.up && f' == DoubleTree(x, f)
            else x' == x && f' == f
    ensures Touched(old(Snap(nodes)), Snap(nodes), AllNodes(x, f) + {head})
  {
    x', f', k' := x, f, k;
    ghost var h := Snap(nodes);
    assert h[q] == q.Now();
    if IsRed(q) && IsRed(p) {
      assert h[p] == p.Now();
      RotationsApply(h, x, f, head);
      assert h[t] == t.Now();
      var dir2 := t.right == g;
      if q == p.Child(last) {
        var r := g.Rotate(!last, nodes);
        ghost var h1 := Snap(nodes);
        t.SetChild(dir2, r, nodes);
        x' := SingleCtx(x);
        SingleDone(h, h1, Snap(nodes), x, f, k, head, x');
      } else {
        var r := g.RotateDouble(!last, nodes);
        ghost var h1 := Snap(nodes);
        t.SetChild(dir2, r, nodes);
        x', f', k' := x.up.up, DoubleTree(x, f), k + 1;
        DoubleDone(h, h1, Snap(nodes), x, f, k, head, f');
      }
    }
  }

  /** The colour flip of one round and the repair it may need. */
  method PutTurn(t: Node, g: Node?, p: Node?, q: Node, last: bool, dir: bool, key: int, head: Node, ghost nodes: set<Node>,
                 ghost ph: Phase, ghost x: Ctx, ghost f: Tree, ghost k: int)
    returns (ghost x': Ctx, ghost f': Tree, ghost k': int)
    requires Zip(Snap(nodes), x, f, head) && ZipRb(x, f, k) && f.Bin? && f.n == q && Within(x, key)
    requires AllNodes(x, f) + {head} <= nodes && Helpers(ph, x, f, t, g, p, last, dir, key, head)
    modifies nodes
    ensures Zip(Snap(nodes), x', f', head) && ZipRb(x', f', k') && AllNodes(x', f') == AllNodes(x, f)
    ensures Ready(NextPhase(ph, x, f), x', f', t, g, p, last, dir, key, head) && Within(x', key) && f'.n == q
    ensures q.key != key ==> Fuel(NextPhase(ph, x, f), Sub(f', q.key < key), key) < Fuel(ph, f, key)
    ensures Touched(old(Snap(nodes)), Snap(nodes), AllNodes(x, f) + {head})
  {
    ghost var f1 := PutFlip(q, head, nodes, x, f, k);
    if CanFlip(f) {
      ClashIsRepairable(ph, x, f, k, t, g, p, last, dir, key, head);
    } else {
      NoClash(x, f, k);
    }
    x', f', k' := PutRepair(t, g, p, q, last, head, nodes, x, f1, k);
    RoundReady(ph, x, f, k, x', f', t, g, p, last, dir, key, head);
  }

  /** The new node goes in at the bottom of the search path. */
  method PutBottom(t: Node, g: Node?, p: Node?, last: bool, dir: bool, node: Node, head: Node, ghost nodes: set<Node>,
                   ghost ph: Phase, ghost x: Ctx, ghost f: Tree, ghost k: int)
    returns (ghost x': Ctx, ghost f': Tree, ghost k': int)
    requires Zip(Snap(nodes), x, f, head) && ZipRb(x, f, k) && f.Leaf? && Within(x, node.key)
    requires AllNodes(x, f) + {head, node} <= nodes && node !in AllNodes(x, f) + {head}
    requires Helpers(ph, x, f, t, g, p, last, dir, node.key, head) && node.Now() == Cell(Red, null, null, null)
    modifies nodes
    ensures f'.Bin? && Zip(Snap(nodes), x', f', head) && ZipRb(x', f', k')
    ensures AllNodes(x', f') == Without(AllNodes(x, f), node.key) + {node}
    ensures |AllNodes(x', f')| == |AllNodes(x, f)| + 1
  {
    ghost var h := Snap(nodes);
    assert h[node] == node.Now();
    ClashIsRepairable(ph, x, f, k, t, g, p, last, dir, node.key, head);
    p.SetChild(dir, node, nodes);
    f' := Bin(node, Red, Leaf, Leaf);
    InsertDone(h, Snap(nodes), x, head, node, f');
    x', f', k' := PutRepair(t, g, p, node, last, head, nodes, x, f', k);
  }

  /** The key is already there: the new node takes the place of the old one. */
  method PutReplace(q: Node, node: Node, head: Node, ghost nodes: set<Node>, ghost x: Ctx, ghost f: Tree, ghost k: int)
    returns (ghost x': Ctx, ghost f': Tree, ghost k': int)
    requires Zip(Snap(nodes), x, f, head) && f.Bin? && f.n == q && ZipRb(x, f, k) && q.key == node.key
    requires AllNodes(x, f) + {head, node} <= nodes && node !in AllNodes(x, f) + {head}
    modifies nodes
    ensures x' == x && k' == k && f'.Bin? && Zip(Snap(nodes), x', f', head) && ZipRb(x', f', k')
    ensures AllNodes(x', f') == Without(AllNodes(x, f), node.key) + {node}
    ensures |AllNodes(x', f')| == |AllNodes(x, f)|
  {
    ghost var h := Snap(nodes);
    ReplaceApplies(h, x, f, head, node);
    q.Replace(node, nodes);
    x', f', k' := x, f.(n := node), k;
    ReplaceDone(h, Snap(nodes), x, f, k, head, node, f');
  }

  /** One round: the flip and the repair, then the end if the key is found, else one step down. */
  method PutRound(t: Node, g: Node?, p: Node?, q: Node, last: bool, dir: bool, node: Node, head: Node, ghost nodes: set<Node>,
                  ghost ph: Phase, ghost x: Ctx, ghost f: Tree, ghost k: int)
    returns (found: bool, ghost x': Ctx, ghost f': Tree, ghost k': int)
    requires Zip(Snap(nodes), x, f, head) && ZipRb(x, f, k) && f.Bin? && f.n == q && Within(x, node.key)
    requires Helpers(ph, x, f, t, g, p, last, dir, node.key, head) && node.Now() == Cell(Red, null, null, null)
    requires AllNodes(x, f) + {head, node} <= nodes && node !in AllNodes(x, f) + {head}
    modifies nodes
    ensures Zip(Snap(nodes), x', f', head) && ZipRb(x', f', k')
    ensures found ==> f'.Bin? && AllNodes(x', f') == Without(AllNodes(x, f), node.key) + {node}
    ensures found ==> |AllNodes(x', f')| == |AllNodes(x, f)|
    ensures !found ==> AllNodes(x', f') == AllNodes(x, f) && Within(x', node.key) && node.Now() == old(node.Now())
    ensures !found ==> q.Child(q.key < node.key) == Root(f')
    ensures var ph' := NextPhase(ph, x, f);
            !found ==> Helpers(ph', x', f', if g == null then t else g, p, q, dir, q.key < node.key, node.key, head)
                       && Fuel(ph', f', node.key) < Fuel(ph, f, node.key)
  {
    ghost var h := Snap(nodes);
    assert h[node] == node.Now();
    x', f', k' := PutTurn(t, g, p, q, last, dir, node.key, head, nodes, ph, x, f, k);
    assert Snap(nodes)[node] == node.Now() && Snap(nodes)[q] == q.Now();
    found := q.key == node.key;
    if found {
      x', f', k' := PutReplace(q, node, head, nodes, x', f', k');
    } else {
      x', f', k' := StepDown(Snap(nodes), NextPhase(ph, x, f), x', f', k', t, g, p, last, dir, node.key, head);
    }
  }

  /** The loop of `Put`, from the dummy head down to the place of the new node. */
  method PutBelow(root: Node, head: Node, node: Node, ghost nodes: set<Node>, ghost start: Tree)
    returns (grown: bool, ghost x: Ctx, ghost f: Tree, ghost k: int)
    requires nodes == Nodes(start) + {head, node} && head != node && node !in Nodes(start)
    requires Zip(Snap(nodes), Top, start, head) && Proper(start)
    requires start.Bin? && root == start.n && node.Now() == Cell(Red, null, null, null)
    modifies nodes
    ensures f.Bin? && Zip(Snap(nodes), x, f, head) && ZipRb(x, f, k)
    ensures AllNodes(x, f) == Without(Nodes(start), node.key) + {node}
    ensures |AllNodes(x, f)| == |Nodes(start)| + if grown then 1 else 0
  {
    var t: Node, g: Node?, p: Node?, q: Node? := head, null, null, root;
    var last, dir := false, false;
    x, f := Top, start;
    k :| Rb(start, k);
    ghost var ph := Settled;
    while true
      invariant q == Root(f) && Zip(Snap(nodes), x, f, head) && ZipRb(x, f, k)
      invariant AllNodes(x, f) == Nodes(start) && Within(x, node.key)
      invariant Helpers(ph, x, f, t, g, p, last, dir, node.key, head)
      invariant node.Now() == Cell(Red, null, null, null)
      decreases Fuel(ph, f, node.key)
    {
      ghost var x0, f0 := x, f;
      if q == null {
        x, f, k := PutBottom(t, g, p, last, dir, node, head, nodes, ph, x, f, k);
        return true, x, f, k;
      }
      var found;
      found, x, f, k := PutRound(t, g, p, q, last, dir, node, head, nodes, ph, x, f, k);
      if found {
        return false, x, f, k;
      }
      ph := NextPhase(ph, x0, f0);
      // update helpers
      last := dir;
      dir := q.key < node.key;
      if g != null {
        t := g;
      }
      g, p := p, q;
      q := q.Child(dir);
    }
  }
}
