/** The red-black tree with its one-pass insertion and deletion.

    A key is an integer: its place in the total order that the comparison virtuals of the
    container define.  A node object stands for the payload it carries. */
module RbTree {
  import opened RbShape
  import opened RbZipper
  import opened RbInsert
  import opened RbDelete
  import opened RbRemove
  import opened RbInsertSteps
  import opened RbDeleteSteps

  class Tree {
    var root: Node?
    var size: nat
    ghost var elems: set<Node>
    ghost var shape: RbZipper.Tree

    /** Search order, colours, parent links and size, over the whole tree. */
    ghost predicate Valid()
      reads this, elems
    {
      && elems == Nodes(shape) && size == |elems| && root == Root(shape)
      && Rep(Snap(elems), shape, null) && Proper(shape)
    }

    constructor ()
      ensures Valid() && elems == {}
    {
      root, size, elems, shape := null, 0, {}, Leaf;
      new;
      IsProper(Leaf, 0);
    }

    /** Adds a node, taking the place of the node that has the same key if there is one. */
    method Put(node: Node)
      requires Valid() && node !in elems && node.Now() == Cell(Red, null, null, null)
      modifies this, elems, node
      ensures Valid()
      ensures elems == Without(old(elems), node.key) + {node}
    {
      if size == 0 {
        assert Without(elems, node.key) == {};
        PutFirst(node);
      } else {
        var head := new Node(0);
        PutUnder(head, node);
      }
    }

    method PutUnder(head: Node, node: Node)
      requires Valid() && node !in elems && node.Now() == Cell(Red, null, null, null)
      requires size > 0 && head !in elems && head != node && head.Now() == Cell(Red, null, null, null)
      modifies this, elems, node, head
      ensures Valid()
      ensures elems == Without(old(elems), node.key) + {node}
    {
      ghost var nodes := elems + {head, node};
      var grown, x, f, k := PutMounted(head, node, nodes);
      Unmount(head, nodes, x, f, k, if grown then size + 1 else size);
    }

    method PutMounted(head: Node, node: Node, ghost nodes: set<Node>)
      returns (grown: bool, ghost x: Ctx, ghost f: RbZipper.Tree, ghost k: int)
      requires Valid() && node !in elems && node.Now() == Cell(Red, null, null, null) && nodes == elems + {head, node}
      requires size > 0 && head !in elems && head != node && head.Now() == Cell(Red, null, null, null)
      modifies nodes
      ensures f.Bin? && Zip(Snap(nodes), x, f, head) && ZipRb(x, f, k)
      ensures AllNodes(x, f) == Without(elems, node.key) + {node}
      ensures |AllNodes(x, f)| == size + if grown then 1 else 0
    {
      assert shape.Bin?;
      Mount(head, nodes);
      grown, x, f, k := PutBelow(root, head, node, nodes, shape);
    }

    /** Hangs the tree from the dummy head. */
    method Mount(head: Node, ghost nodes: set<Node>)
      requires Valid() && elems + {head} <= nodes && head !in elems && shape.Bin? && head.Now() == Cell(Red, null, null, null)
      modifies nodes
      ensures Zip(Snap(nodes), Top, shape, head) && Nodes(shape) == elems
      ensures forall n <- nodes :: n !in elems + {head} ==> n.Now() == old(n.Now())
    {
      ghost var h0 := Snap(elems);
      head.SetChild(true, root, nodes);
      Mounted(h0, Snap(nodes), shape, head);
    }

    method PutFirst(node: Node)
      requires node.Now() == Cell(Red, null, null, null)
      modifies this, node
      ensures Valid() && elems == {node}
    {
      root, size, elems := node, 1, {node};
      root.color := Black;
      shape := Bin(node, Black, Leaf, Leaf);
      IsProper(shape, 1);
    }

    method Unmount(head: Node, ghost nodes: set<Node>, ghost x: Ctx, ghost f: RbZipper.Tree, ghost k: int, count: nat)
      requires Zip(Snap(nodes), x, f, head) && ZipRb(x, f, k) && AllNodes(x, f) + {head} <= nodes
      requires f.Bin? && count == |AllNodes(x, f)|
      modifies this, nodes
      ensures Valid() && elems == AllNodes(x, f)
    {
      Whole(Snap(nodes), x, f, k, head);
      assert head.Now() == Snap(nodes)[head];
      Crown(head, nodes, Plug(x, f), HeightAbove(x, k), count);
    }

    /** The dummy head is let go: what hangs from it becomes the tree, with a black root. */
    method Crown(head: Node, ghost nodes: set<Node>, ghost t: RbZipper.Tree, ghost k: int, count: nat)
      requires Rep(Snap(nodes), t, head) && t.Bin? && Bst(t, Below, Above) && Rb(t, k) && count == |Nodes(t)|
      requires Nodes(t) + {head} <= nodes && head !in Nodes(t) && head.right == t.n
      modifies this, nodes
      ensures Valid() && elems == Nodes(t)
    {
      ghost var h := Snap(nodes);
      ghost var t' := t.(c := Black);
      var q := head.right;
      q.Detach(nodes);
      Blackened(h, Snap(nodes), t, head, k);
      RepSame(Snap(nodes), Snap(Nodes(t')), t', null);
      Adopt(q, count, t');
    }

    method Adopt(q: Node?, count: nat, ghost t: RbZipper.Tree)
      requires Rep(Snap(Nodes(t)), t, null) && Proper(t) && q == Root(t) && count == |Nodes(t)|
      modifies this
      ensures Valid() && elems == Nodes(t)
    {
      root, size := q, count;
      shape, elems := t, Nodes(t);
    }

    /** Removes the node that has the key, if there is one. */
    method Del(key: int) returns (found: bool)
      requires Valid()
      modifies this, elems
      ensures Valid()
      ensures elems == Without(old(elems), key)
      ensures found <==> exists n :: n in old(elems) && n.key == key
    {
      if size == 0 {
        return false;
      }
      var head := new Node(0);
      found := DelUnder(head, key);
    }

    method DelUnder(head: Node, key: int) returns (found: bool)
      requires Valid() && size > 0 && head !in elems && head.Now() == Cell(Red, null, null, null)
      modifies this, elems, head
      ensures Valid()
      ensures elems == Without(old(elems), key)
      ensures found <==> exists n :: n in old(elems) && n.key == key
    {
      ghost var nodes := elems + {head};
      assert shape.Bin?;
      Mount(head, nodes);
      var f, p, q, x, k := DelBelow(head, key, nodes, shape);
      found := DelFinish(f, p, q, head, key, nodes, x, k);
    }

    method DelFinish(f: Node?, p: Node, q: Node, head: Node, key: int, ghost nodes: set<Node>, ghost x: Ctx, ghost k: int)
      returns (found: bool)
      requires Zip(Snap(nodes), x, Leaf, head) && ZipRb(x, Leaf, k) && CtxNodes(x) + {head} <= nodes
      requires x.Down? && x.sib == Leaf && q == x.n && p == Holder(x.up, head) && Found(x, f, key) && RbCtx(x.up, 0, false)
      requires size == |CtxNodes(x)|
      modifies this, nodes
      ensures Valid() && elems == Without(CtxNodes(x), key)
      ensures found <==> exists n :: n in CtxNodes(x) && n.key == key
    {
      SpineInCtx(x);
      found := f != null;
      if f != null {
        DelTaken(f, p, q, head, key, nodes, x);
      } else {
        NotAround(x, key);
        Shrink(head, nodes, x, k, size);
      }
    }

    method DelTaken(f: Node, p: Node, q: Node, head: Node, key: int, ghost nodes: set<Node>, ghost x: Ctx)
      requires Bottom(Snap(nodes), x, f, head, key) && CtxNodes(x) + {head} <= nodes
      requires q == x.n && p == Holder(x.up, head) && size == |CtxNodes(x)|
      modifies this, nodes
      ensures Valid() && elems == Without(CtxNodes(x), key)
    {
      SpineInCtx(x);
      ghost var x' := DelRemove(f, p, q, head, key, nodes, x);
      assert AllNodes(x, Leaf) == CtxNodes(x);
      Shrink(head, nodes, x', 0, size - 1);
    }

    /** The dummy head is let go after a deletion, which may have left nothing. */
    method Shrink(head: Node, ghost nodes: set<Node>, ghost x: Ctx, ghost k: int, count: nat)
      requires Zip(Snap(nodes), x, Leaf, head) && ZipRb(x, Leaf, k) && CtxNodes(x) + {head} <= nodes
      requires count == |CtxNodes(x)|
      modifies this, nodes
      ensures Valid() && elems == CtxNodes(x)
    {
      Whole(Snap(nodes), x, Leaf, k, head);
      ghost var t := Plug(x, Leaf);
      assert head.Now() == Snap(nodes)[head];
      if head.right != null {
        Crown(head, nodes, t, HeightAbove(x, k), count);
      } else {
        IsProper(Leaf, 0);
        Adopt(null, 0, Leaf);
      }
    }

  }
}
