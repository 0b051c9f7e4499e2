/** Nodes of the red-black tree with their pointer primitives.

    A node's fields are rewritten in place.  The proofs look at them through a snapshot: a
    finite map from nodes to cells.  Each primitive says cell by cell what it changes, so
    every argument about a rewritten pointer becomes a statement about two snapshots. */
module RbShape {

  datatype Color = Black | Red

  /** What a node's mutable fields hold. */
  datatype Cell = Cell(color: Color, parent: Node?, left: Node?, right: Node?) {
    ghost function Child(d: bool): Node? { if d then right else left }
    ghost function WithChild(d: bool, n: Node?): Cell { if d then this.(right := n) else this.(left := n) }
  }

  type Heap = map<Node, Cell>

  ghost function Snap(nodes: set<Node>): (h: Heap)
    reads nodes
  {
    map n | n in nodes :: n.Now()
  }

  predicate IsRed(n: Node?)
    reads n
  {
    n != null && n.color == Red
  }

  /** `d` is the direction: left is false, right is true. */
  class Node {
    const key: int
    var color: Color
    var parent: Node?
    var left: Node?
    var right: Node?

    constructor (key: int)
      ensures this.key == key && Now() == Cell(Red, null, null, null)
    {
      this.key := key;
      color, parent, left, right := Red, null, null, null;
    }

    ghost function Now(): Cell
      reads this
    {
      Cell(color, parent, left, right)
    }

    function Child(d: bool): (n: Node?)
      reads this
      ensures n == Now().Child(d)
    {
      if d then right else left
    }

    method SetChild(d: bool, node: Node?, ghost nodes: set<Node>)
      requires node != this
      requires this in nodes && (node != null ==> node in nodes)
      modifies nodes
      ensures IsLinked(old(Snap(nodes)), Snap(nodes), this, d, node)
    {
      if d {
        right := node;
      } else {
        left := node;
      }
      if node != null {
        node.parent := this;
      }
    }

    method Rotate(d: bool, ghost nodes: set<Node>) returns (save: Node)
      requires this in nodes && CanRotate(Snap(nodes), this, d)
      modifies nodes
      ensures save == old(Child(!d))
      ensures IsRotated(old(Snap(nodes)), Snap(nodes), this, d)
    {
      ghost var h := Snap(nodes);
      assert h[this] == Now();
      save := Child(!d);
      assert h[save] == save.Now();
      SetChild(!d, save.Child(d), nodes);
      ghost var h1 := Snap(nodes);
      save.SetChild(d, this, nodes);
      ghost var h2 := Snap(nodes);
      SetColor(Red, nodes);
      save.SetColor(Black, nodes);
      RotateSteps(h, h1, h2, Snap(nodes), this, d);
    }

    method RotateDouble(d: bool, ghost nodes: set<Node>) returns (save: Node)
      requires this in nodes && CanRotateDouble(Snap(nodes), this, d)
      modifies nodes
      ensures save == old(Snap(nodes)[Snap(nodes)[this].Child(!d)].Child(d))
      ensures IsRotatedDouble(old(Snap(nodes)), Snap(nodes), this, d)
    {
      ghost var h := Snap(nodes);
      assert h[this] == Now();
      var middle := Child(!d).Rotate(!d, nodes);
      ghost var h1 := Snap(nodes);
      SetChild(!d, middle, nodes);
      ghost var h2 := Snap(nodes);
      DoubleStart(h, h1, h2, this, d);
      save := Rotate(d, nodes);
      DoubleEnd(h, h1, h2, Snap(nodes), this, d);
    }

    /** Puts `node` where this node is: same children, colour and parent link. */
    method Replace(node: Node, ghost nodes: set<Node>)
      requires this in nodes && node in nodes && CanReplace(Snap(nodes), this, node)
      modifies nodes
      ensures IsReplaced(old(Snap(nodes)), Snap(nodes), this, node)
    {
      ghost var h := Snap(nodes);
      assert h[this] == Now();
      node.SetChild(false, if left == node then null else left, nodes);
      ghost var h1 := Snap(nodes);
      assert h1[this] == Now();
      node.SetChild(true, if right == node then null else right, nodes);
      ghost var h2 := Snap(nodes);
      assert h2[this] == Now();
      node.SetColor(color, nodes);
      ghost var h3 := Snap(nodes);
      assert h3[this] == Now();
      ReplaceChildren(h, h1, h2, h3, this, node);
      if parent != null {
        assert h3[parent] == parent.Now();
        if parent.left == this {
          parent.SetChild(false, node, nodes);
          ReplaceEnd(h, h3, Snap(nodes), this, node, false);
        } else {
          parent.SetChild(true, node, nodes);
          ReplaceEnd(h, h3, Snap(nodes), this, node, true);
        }
      }
    }

    /** The root has no parent and is black. */
    method Detach(ghost nodes: set<Node>)
      requires this in nodes
      modifies nodes
      ensures Snap(nodes) == old(Snap(nodes))[this := old(Snap(nodes))[this].(parent := null, color := Black)]
    {
      parent := null;
      color := Black;
    }

    method SetColor(c: Color, ghost nodes: set<Node>)
      requires this in nodes
      modifies nodes
      ensures Snap(nodes) == old(Snap(nodes))[this := old(Snap(nodes))[this].(color := c)]
    {
      color := c;
    }
  }

  // ---- what the primitives change ----

  /** Only the cells of `nodes` may differ. */
  ghost predicate Touched(h: Heap, h': Heap, nodes: set<Node>) {
    h'.Keys == h.Keys && forall n <- h :: n !in nodes ==> h'[n] == h[n]
  }

  ghost function Only(n: Node?): set<Node> { if n == null then {} else {n} }

  ghost predicate IsLinked(h: Heap, h': Heap, x: Node, d: bool, y: Node?) {
    && x in h && (y != null ==> y in h && y != x)
    && Touched(h, h', {x} + Only(y))
    && h'[x] == h[x].WithChild(d, y)
    && (y != null ==> h'[y] == h[y].(parent := x))
  }

  ghost predicate CanRotate(h: Heap, x: Node, d: bool) {
    && x in h
    && var y := h[x].Child(!d);
       && y != null && y != x && y in h
       && var z := h[y].Child(d);
          z != null ==> z in h && z != x && z != y
  }

  ghost predicate IsRotated(h: Heap, h': Heap, x: Node, d: bool) {
    && CanRotate(h, x, d)
    && var y: Node := h[x].Child(!d);
       var z := h[y].Child(d);
       && Touched(h, h', {x, y} + Only(z))
       && h'[x] == h[x].WithChild(!d, z).(color := Red, parent := y)
       && h'[y] == h[y].WithChild(d, x).(color := Black)
       && (z != null ==> h'[z] == h[z].(parent := x))
  }

  /** `x`, its child `y`, the child `z` of that one and both children of `z` are five nodes. */
  ghost predicate CanRotateDouble(h: Heap, x: Node, d: bool) {
    && x in h
    && var y := h[x].Child(!d);
       && y != null && y != x && y in h
       && var z := h[y].Child(d);
          && z != null && z != x && z != y && z in h
          && var u := h[z].Child(d);
             var v := h[z].Child(!d);
             && (u != null ==> u in h && u != x && u != y && u != z)
             && (v != null ==> v in h && v != x && v != y && v != z && v != u)
  }

  ghost predicate IsRotatedDouble(h: Heap, h': Heap, x: Node, d: bool) {
    && CanRotateDouble(h, x, d)
    && var y: Node := h[x].Child(!d);
       var z: Node := h[y].Child(d);
       var u, v := h[z].Child(d), h[z].Child(!d);
       && Touched(h, h', {x, y, z} + Only(u) + Only(v))
       && h'[x] == h[x].WithChild(!d, u).(color := Red, parent := z)
       && h'[y] == h[y].WithChild(d, v).(color := Red, parent := z)
       && h'[z] == Cell(Black, x, null, null).WithChild(d, x).WithChild(!d, y)
       && (u != null ==> h'[u] == h[u].(parent := x))
       && (v != null ==> h'[v] == h[v].(parent := y))
  }

  /** `x` hangs from another node, and `y` is detached, is `x` itself or hangs below `x`. */
  ghost predicate CanReplace(h: Heap, x: Node, y: Node) {
    && x in h && y in h
    && (h[x].left != null ==> h[x].left in h && h[x].left != x && h[x].left != h[x].right)
    && (h[x].right != null ==> h[x].right in h && h[x].right != x)
    && h[x].parent != null && h[x].parent in h && h[x].parent != y && h[x].parent != x
    && h[x].parent != h[x].left && h[x].parent != h[x].right
  }

  ghost predicate IsReplaced(h: Heap, h': Heap, x: Node, y: Node) {
    && CanReplace(h, x, y)
    && var l := if h[x].left == y then null else h[x].left;
       var r := if h[x].right == y then null else h[x].right;
       var p: Node := h[x].parent;
       && Touched(h, h', {y, p} + Only(l) + Only(r))
       && h'[y] == Cell(h[x].color, p, l, r)
       && h'[p] == h[p].WithChild(h[p].left != x, y)
       && (l != null ==> h'[l] == h[l].(parent := y))
       && (r != null ==> h'[r] == h[r].(parent := y))
  }

  ghost predicate ChildrenMoved(h: Heap, h3: Heap, x: Node, y: Node)
    requires CanReplace(h, x, y)
  {
    var l := if h[x].left == y then null else h[x].left;
    var r := if h[x].right == y then null else h[x].right;
    && Touched(h, h3, {y} + Only(l) + Only(r))
    && h3[y].color == h[x].color && h3[y].left == l && h3[y].right == r
    && (x == y ==> h3[y].parent == h[x].parent)
    && (l != null ==> h3[l] == h[l].(parent := y))
    && (r != null ==> h3[r] == h[r].(parent := y))
  }

  lemma ReplaceEnd(h: Heap, h3: Heap, h4: Heap, x: Node, y: Node, side: bool)
    requires CanReplace(h, x, y) && h3.Keys == h.Keys && ChildrenMoved(h, h3, x, y)
    requires h[x].parent != null && h3[h[x].parent] == h[h[x].parent] && side == (h[h[x].parent].left != x)
    requires IsLinked(h3, h4, h[x].parent, side, y)
    ensures IsReplaced(h, h4, x, y)
  {
  }

  lemma ReplaceChildren(h: Heap, h1: Heap, h2: Heap, h3: Heap, x: Node, y: Node)
    requires CanReplace(h, x, y)
    requires IsLinked(h, h1, y, false, if h[x].left == y then null else h[x].left)
    requires IsLinked(h1, h2, y, true, if h1[x].right == y then null else h1[x].right)
    requires h3 == h2[y := h2[y].(color := h2[x].color)]
    ensures h3.Keys == h.Keys && h3[x].parent == h[x].parent && h3[h[x].parent] == h[h[x].parent]
    ensures ChildrenMoved(h, h3, x, y)
  {
    var l := if h[x].left == y then null else h[x].left;
    var r := if h[x].right == y then null else h[x].right;
    assert h1[x].right == h[x].right;
    assert h2[x].color == h[x].color;
  }

  lemma RotateSteps(h: Heap, h1: Heap, h2: Heap, h3: Heap, x: Node, d: bool)
    requires CanRotate(h, x, d)
    requires var y: Node := h[x].Child(!d);
            && IsLinked(h, h1, x, !d, h[y].Child(d)) && IsLinked(h1, h2, y, d, x)
            && h3 == h2[x := h2[x].(color := Red)][y := h2[y].(color := Black)]
    ensures IsRotated(h, h3, x, d)
  {
  }

  lemma DoubleStart(h: Heap, h1: Heap, h2: Heap, x: Node, d: bool)
    requires CanRotateDouble(h, x, d)
    requires IsRotated(h, h1, h[x].Child(!d), !d)
    requires IsLinked(h1, h2, x, !d, h[h[x].Child(!d)].Child(d))
    ensures CanRotate(h2, x, d)
    ensures h2[x].Child(!d) == h[h[x].Child(!d)].Child(d)
  {
  }

  lemma DoubleEnd(h: Heap, h1: Heap, h2: Heap, h3: Heap, x: Node, d: bool)
    requires CanRotateDouble(h, x, d)
    requires IsRotated(h, h1, h[x].Child(!d), !d)
    requires IsLinked(h1, h2, x, !d, h[h[x].Child(!d)].Child(d))
    requires IsRotated(h2, h3, x, d)
    ensures IsRotatedDouble(h, h3, x, d)
  {
    var y: Node := h[x].Child(!d);
    var z: Node := h[y].Child(d);
    var u, v := h[z].Child(d), h[z].Child(!d);
    assert h2[z].Child(d) == u;
  }
}
