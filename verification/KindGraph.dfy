/** The graph of kinds: edges up to the kinds extended, and their mirror edges down. */
module KindGraph {

  datatype Links = Links(supers: seq<Kind>, subs: seq<Kind>, rank: nat)

  type Graph = map<Kind, Links>

  ghost function Snap(kinds: set<Kind>): (g: Graph)
    reads kinds
    ensures g.Keys == kinds && forall k :: k in kinds ==> g[k] == Links(k.supers, k.subs, k.rank)
  {
    map k | k in kinds :: Links(k.supers, k.subs, k.rank)
  }

  // ---- shape ----

  ghost predicate Closed(g: Graph) {
    && (forall a :: a in g ==> forall b :: b in g[a].supers ==> b in g)
    && (forall a :: a in g ==> forall b :: b in g[a].subs ==> b in g)
  }

  function Count(kinds: seq<Kind>, k: Kind): nat { multiset(kinds)[k] }

  /** As often as one kind extends another, the other has it as a sub-kind. */
  ghost predicate Mirrored(g: Graph) {
    forall a, b :: a in g && b in g ==> Count(g[a].supers, b) == Count(g[b].subs, a)
  }

  /** Every edge goes to a smaller number, so there is no cycle. */
  ghost predicate Acyclic(g: Graph) {
    forall a :: a in g ==> forall b :: b in g[a].supers ==> b in g && g[b].rank < g[a].rank
  }

  /** One kind extends another, in any number of steps. */
  ghost predicate Reaches(g: Graph, a: Kind, b: Kind)
    requires Acyclic(g) && a in g
    decreases g[a].rank
  {
    a == b || exists s :: s in g[a].supers && Reaches(g, s, b)
  }

  ghost predicate Above(g: Graph, a: Kind, b: Kind) { Acyclic(g) && a in g && Reaches(g, a, b) }

  lemma {:induction false} ReachesThrough(g: Graph, a: Kind, b: Kind, c: Kind)
    requires Acyclic(g) && a in g && b in g && Reaches(g, a, b) && Reaches(g, b, c)
    ensures Reaches(g, a, c)
    decreases g[a].rank
  {
    if a != b {
      var s :| s in g[a].supers && Reaches(g, s, b);
      ReachesThrough(g, s, b, c);
    }
  }

  lemma ReachesSuper(g: Graph, a: Kind, s: Kind)
    requires Acyclic(g) && a in g && s in g[a].supers
    ensures Reaches(g, a, s)
  {
    assert Reaches(g, s, s);
  }

  // ---- one edge more ----

  /** What the ranks become when a kind is linked to another: the kinds that reach it rise. */
  ghost function Lifted(g: Graph, a: Kind, b: Kind, x: Kind): nat
    requires Acyclic(g) && a in g && b in g && x in g
  {
    g[x].rank + if Reaches(g, x, a) then g[b].rank + 1 else 0
  }

  /** The graph with an edge from one kind to another. */
  ghost predicate Linked(g: Graph, a: Kind, b: Kind, h: Graph) {
    && Acyclic(g) && a in g && b in g && h.Keys == g.Keys
    && (forall x :: x in g ==> h[x] == Links(if x == a then g[a].supers + [b] else g[x].supers,
                                            if x == b then g[b].subs + [a] else g[x].subs, Lifted(g, a, b, x)))
  }

  lemma CountMore(kinds: seq<Kind>, k: Kind, x: Kind)
    ensures Count(kinds + [k], x) == Count(kinds, x) + if x == k then 1 else 0
  {
  }

  /** An edge more is one more in both lists. */
  lemma LinkCounts(g: Graph, a: Kind, b: Kind, h: Graph, x: Kind, y: Kind)
    requires Linked(g, a, b, h) && x in g && y in g
    ensures Count(h[x].supers, y) - Count(g[x].supers, y) == Count(h[y].subs, x) - Count(g[y].subs, x)
  {
    hide Lifted;
    hide Count;
    CountMore(g[a].supers, b, y);
    CountMore(g[b].subs, a, x);
  }

  lemma LinkClosed(g: Graph, a: Kind, b: Kind, h: Graph)
    requires Closed(g) && Linked(g, a, b, h)
    ensures Closed(h)
  {
    hide Lifted;
  }

  lemma LinkMirrored(g: Graph, a: Kind, b: Kind, h: Graph)
    requires Linked(g, a, b, h)
    ensures Mirrored(h) <==> Mirrored(g)
  {
    hide Count;
    hide Linked;
    LinkedKeys(g, a, b, h);
    forall x, y | x in g && y in g
      ensures Count(h[x].supers, y) == Count(h[y].subs, x) <==> Count(g[x].supers, y) == Count(g[y].subs, x)
    {
      LinkCounts(g, a, b, h, x, y);
    }
  }

  lemma LinkedKeys(g: Graph, a: Kind, b: Kind, h: Graph)
    requires Linked(g, a, b, h)
    ensures h.Keys == g.Keys
  {
  }

  /** A kind that reaches the linked one through an edge rises with it. */
  lemma LiftedEdge(g: Graph, a: Kind, b: Kind, x: Kind, y: Kind)
    requires Acyclic(g) && a in g && b in g && x in g && y in g[x].supers
    ensures Lifted(g, a, b, y) < Lifted(g, a, b, x)
  {
    if Reaches(g, y, a) {
      assert Reaches(g, x, a);
    }
  }

  /** An edge to a kind that does not reach back. */
  lemma LinkAcyclic(g: Graph, a: Kind, b: Kind, h: Graph)
    requires Linked(g, a, b, h) && !Reaches(g, b, a)
    ensures Acyclic(h)
  {
    assert Lifted(g, a, b, b) < Lifted(g, a, b, a) by {
      assert Reaches(g, a, a);
    }
    hide Lifted;
    hide Reaches;
    forall x | x in h ensures forall y :: y in h[x].supers ==> y in h && h[y].rank < h[x].rank {
      forall y | y in h[x].supers ensures y in h && h[y].rank < h[x].rank {
        if y in g[x].supers {
          LiftedEdge(g, a, b, x, y);
        }
      }
    }
  }

  // ---- one edge less ----

  /** A sequence without one occurrence of a kind. */
  predicate Removed(before: seq<Kind>, k: Kind, after: seq<Kind>) {
    exists i :: 0 <= i < |before| && before[i] == k && after == before[..i] + before[i + 1..]
  }

  lemma RemovedCounts(before: seq<Kind>, k: Kind, after: seq<Kind>)
    requires Removed(before, k, after)
    ensures multiset(before) == multiset(after) + multiset{k}
    ensures forall x :: Count(after, x) == Count(before, x) - if x == k then 1 else 0
    ensures forall x :: x in after ==> x in before
  {
    var i :| 0 <= i < |before| && before[i] == k && after == before[..i] + before[i + 1..];
    assert before == before[..i] + [k] + before[i + 1..];
  }

  // ---- a kind without edges ----

  /** The graph with all edges of one kind gone. */
  ghost predicate Cleared(g: Graph, k: Kind, h: Graph) {
    && h.Keys == g.Keys && k in g && h[k].supers == [] && h[k].subs == []
    && (forall a :: a in g ==> h[a].rank == g[a].rank)
    && (forall a, b :: a in g && b in g && a != k && b != k ==> Count(h[a].supers, b) == Count(g[a].supers, b))
    && (forall a, b :: a in g && b in g && a != k && b != k ==> Count(h[a].subs, b) == Count(g[a].subs, b))
    && (forall a :: a in g ==> k !in h[a].supers && k !in h[a].subs)
    && (forall a :: a in g ==> forall b :: b in h[a].supers ==> b in g[a].supers)
    && (forall a :: a in g ==> forall b :: b in h[a].subs ==> b in g[a].subs)
  }

  lemma ClearMirrored(g: Graph, k: Kind, h: Graph)
    requires Mirrored(g) && Cleared(g, k, h)
    ensures Mirrored(h)
  {
    hide Mirrored;
    hide Cleared;
    hide Count;
    ClearedKeys(g, k, h);
    forall a, b | a in h && b in h ensures Count(h[a].supers, b) == Count(h[b].subs, a) {
      ClearedAt(g, k, h, a, b);
      MirroredAt(g, a, b);
    }
    MirroredFrom(h);
  }

  lemma ClearedKeys(g: Graph, k: Kind, h: Graph)
    requires Cleared(g, k, h)
    ensures h.Keys == g.Keys
  {
  }

  /** Edges to or from the kind are gone, the others are as often there as they were. */
  lemma ClearedAt(g: Graph, k: Kind, h: Graph, a: Kind, b: Kind)
    requires Cleared(g, k, h) && a in g && b in g
    ensures a in h && b in h
    ensures Count(h[a].supers, b) == (if a == k || b == k then 0 else Count(g[a].supers, b))
    ensures Count(h[b].subs, a) == (if a == k || b == k then 0 else Count(g[b].subs, a))
  {
    assert k !in h[a].supers && k !in h[b].subs;
  }

  lemma MirroredAt(g: Graph, a: Kind, b: Kind)
    requires Mirrored(g) && a in g && b in g
    ensures Count(g[a].supers, b) == Count(g[b].subs, a)
  {
  }

  lemma MirroredFrom(g: Graph)
    requires forall a, b :: a in g && b in g ==> Count(g[a].supers, b) == Count(g[b].subs, a)
    ensures Mirrored(g)
  {
  }

  lemma ClearKeeps(g: Graph, k: Kind, h: Graph)
    requires Closed(g) && Mirrored(g) && Acyclic(g) && Cleared(g, k, h)
    ensures Closed(h) && Mirrored(h) && Acyclic(h)
  {
    hide Mirrored;
    ClearMirrored(g, k, h);
    ClearShape(g, k, h);
    hide Cleared;
  }

  lemma ClearShape(g: Graph, k: Kind, h: Graph)
    requires Closed(g) && Acyclic(g) && Cleared(g, k, h)
    ensures Closed(h) && Acyclic(h)
  {
    hide Count;
  }

  // ---- the root ----

  const ROOT := "Object:1"

  /** A kind is below the root only if it extends nothing else. */
  ghost predicate RootAlone(g: Graph) { forall a :: a in g ==> AloneIn(g[a].supers) }

  ghost predicate AloneIn(supers: seq<Kind>) {
    forall i :: 0 <= i < |supers| && supers[i].id == ROOT ==> |supers| == 1
  }

  ghost predicate UniqueIds(kinds: set<Kind>) {
    forall a, b :: a in kinds && b in kinds && a.id == b.id ==> a == b
  }

  ghost predicate Shape(g: Graph) { Closed(g) && Acyclic(g) && UniqueIds(g.Keys) }

  ghost predicate Inv(g: Graph) { Shape(g) && Mirrored(g) && RootAlone(g) }

  predicate RootFirst(supers: seq<Kind>) { |supers| > 0 && supers[0].id == ROOT }

  /** Edges of a kind that is not reached make no difference. */
  lemma {:induction false} SameReached(g: Graph, h: Graph, x: Kind, a: Kind, b: Kind)
    requires Acyclic(g) && Acyclic(h) && h.Keys == g.Keys && a in g && !Reaches(g, a, x)
    requires forall k :: k in g && k != x ==> h[k].supers == g[k].supers
    ensures Reaches(h, a, b) <==> Reaches(g, a, b)
    decreases g[a].rank
  {
    assert a != x;
    forall s | s in g[a].supers ensures Reaches(h, s, b) <==> Reaches(g, s, b) {
      SameReached(g, h, x, s, b);
    }
  }

  lemma SameAbove(g: Graph, h: Graph, x: Kind, a: Kind)
    requires Inv(g) && Inv(h) && h.Keys == g.Keys && a in g && !Above(g, a, x)
    requires forall k :: k in g && k != x ==> h[k].supers == g[k].supers
    ensures forall b :: Above(h, a, b) <==> Above(g, a, b)
  {
    forall b ensures Above(h, a, b) <==> Above(g, a, b) {
      SameReached(g, h, x, a, b);
    }
  }

  /** A kind that another extends does not reach it. */
  lemma {:induction false} ReachedBelow(g: Graph, a: Kind, b: Kind)
    requires Acyclic(g) && a in g && Reaches(g, a, b)
    ensures b in g && g[b].rank <= g[a].rank
    decreases g[a].rank
  {
    if a != b {
      var s :| s in g[a].supers && Reaches(g, s, b);
      ReachedBelow(g, s, b);
    }
  }

  /** With fewer edges up, a kind reaches no more. */
  lemma {:induction false} FewerReaches(g: Graph, h: Graph, a: Kind, b: Kind)
    requires Acyclic(g) && Acyclic(h) && h.Keys == g.Keys && a in g
    requires forall x :: x in g ==> h[x].rank == g[x].rank && forall y :: y in h[x].supers ==> y in g[x].supers
    requires Reaches(h, a, b)
    ensures Reaches(g, a, b)
    decreases g[a].rank
  {
    if a != b {
      var s :| s in h[a].supers && Reaches(h, s, b);
      FewerReaches(g, h, s, b);
    }
  }

  /** The list of a kind whose first entry is the root emptied, and only the root told. */
  ghost predicate Unrooted(g: Graph, a: Kind, root: Kind, h: Graph) {
    && a in g && root in g && a != root && h.Keys == g.Keys
    && |g[a].supers| > 0 && g[a].supers[0] == root && Removed(g[root].subs, a, h[root].subs)
    && (forall x :: x in g ==> h[x].rank == g[x].rank)
    && (forall x :: x in g ==> h[x].supers == if x == a then [] else g[x].supers)
    && (forall x :: x in g && x != root ==> h[x].subs == g[x].subs)
  }

  lemma UnrootCounts(g: Graph, a: Kind, root: Kind, h: Graph, x: Kind, y: Kind)
    requires Unrooted(g, a, root, h) && x in g && y in g && Count(g[x].supers, y) == Count(g[y].subs, x)
    requires g[a].supers == [root]
    ensures Count(h[x].supers, y) == Count(h[y].subs, x)
  {
    hide Removed;
    RemovedCounts(g[root].subs, a, h[root].subs);
    assert Count([root], y) == if y == root then 1 else 0;
    assert Count([], y) == 0;
  }

  lemma MoreCounted(kinds: seq<Kind>)
    requires |kinds| > 1
    ensures Count(kinds, kinds[1]) > if kinds[1] == kinds[0] then 1 else 0
  {
    assert kinds == [kinds[0], kinds[1]] + kinds[2..];
  }

  /** What stands behind the root keeps the kind below it. */
  lemma UnrootForgets(g: Graph, a: Kind, root: Kind, h: Graph)
    requires Closed(g) && Mirrored(g) && Unrooted(g, a, root, h) && |g[a].supers| > 1
    ensures !Mirrored(h)
  {
    hide Removed;
    var second := g[a].supers[1];
    assert second in g[a].supers;
    MoreCounted(g[a].supers);
    RemovedCounts(g[root].subs, a, h[root].subs);
    MirroredAt(g, a, second);
    assert Count(h[a].supers, second) < Count(h[second].subs, a);
  }

  /** Such a step keeps the mirror exactly when the root stood there alone. */
  lemma UnrootMirrors(g: Graph, a: Kind, root: Kind, h: Graph)
    requires Closed(g) && Mirrored(g) && Unrooted(g, a, root, h)
    ensures Mirrored(h) <==> |g[a].supers| == 1
  {
    hide Closed;
    hide Mirrored;
    hide Count;
    hide Removed;
    if |g[a].supers| == 1 {
      assert g[a].supers == [root];
      forall x, y | x in h && y in h ensures Count(h[x].supers, y) == Count(h[y].subs, x) {
        MirroredAt(g, x, y);
        UnrootCounts(g, a, root, h, x, y);
      }
      MirroredFrom(h);
    } else {
      UnrootForgets(g, a, root, h);
    }
  }

  lemma UnrootClosed(g: Graph, a: Kind, root: Kind, h: Graph)
    requires Closed(g) && Acyclic(g) && Unrooted(g, a, root, h)
    ensures Closed(h) && Acyclic(h) && h.Keys == g.Keys
  {
    hide Removed;
    RemovedCounts(g[root].subs, a, h[root].subs);
  }

  lemma HasSub(g: Graph, a: Kind, b: Kind)
    requires Closed(g) && Mirrored(g) && Acyclic(g) && a in g && b in g[a].supers
    ensures b in g && a in g[b].subs && a != b
  {
    assert Count(g[a].supers, b) == Count(g[b].subs, a);
  }

  /** A kind reaches another by its identifier. */
  lemma ReachesById(g: Graph, a: Kind, b: Kind)
    requires UniqueIds(g.Keys) && Acyclic(g) && a in g && b in g
    ensures (exists k :: k in g.Keys && k.id == b.id && Reaches(g, a, k)) <==> Reaches(g, a, b)
  {
  }

  lemma SupersLinked(g: Graph, a: Kind, b: Kind, h: Graph)
    requires Linked(g, a, b, h)
    ensures h.Keys == g.Keys && forall x :: x in g ==> h[x].supers == if x == a then g[a].supers + [b] else g[x].supers
    ensures a != b ==> h[a].subs == g[a].subs
  {
    hide Lifted;
  }

  lemma NotItself(g: Graph, a: Kind, b: Kind)
    requires Acyclic(g) && a in g && !Reaches(g, a, b)
    ensures a != b
  {
  }

  lemma NotYetReached(g: Graph, a: Kind, root: Kind, h: Graph, b: Kind)
    requires Acyclic(g) && Acyclic(h) && Unrooted(g, a, root, h) && b in g && !Reaches(g, b, a)
    ensures !Reaches(h, b, a)
  {
    if Reaches(h, b, a) {
      FewerReaches(g, h, b, a);
    }
  }

  /** A link to another kind leaves nothing next to the root. */
  lemma RootStaysAlone(g: Graph, a: Kind, b: Kind, h: Graph)
    requires Inv(g) && h.Keys == g.Keys && a in g && (b.id == ROOT ==> g[a].supers == [])
    requires forall x :: x in g && x != a ==> h[x].supers == g[x].supers
    requires h[a].supers == (if RootFirst(g[a].supers) then [] else g[a].supers) + [b]
    ensures RootAlone(h)
  {
    hide Closed;
    hide Mirrored;
    hide Acyclic;
    hide UniqueIds;
    hide RootAlone;
    forall x | x in h ensures AloneIn(h[x].supers) {
      RootAloneAt(g, x);
      if x == a {
        AloneMore(g[a].supers, b);
      }
    }
    RootAloneFrom(h);
  }

  lemma RootAloneAt(g: Graph, a: Kind)
    requires RootAlone(g) && a in g
    ensures AloneIn(g[a].supers)
  {
  }

  lemma RootAloneFrom(g: Graph)
    requires forall a :: a in g ==> AloneIn(g[a].supers)
    ensures RootAlone(g)
  {
  }

  lemma AloneMore(supers: seq<Kind>, b: Kind)
    requires AloneIn(supers) && (b.id == ROOT ==> supers == [])
    ensures AloneIn((if RootFirst(supers) then [] else supers) + [b])
  {
  }

  lemma FewerCounts(a: seq<Kind>, b: seq<Kind>)
    requires forall x :: x in multiset(a) ==> Count(a, x) <= Count(b, x)
    ensures |a| <= |b|
  {
    assert multiset(a) <= multiset(b);
    assert multiset(b) == multiset(a) + (multiset(b) - multiset(a));
    assert |multiset(a)| == |a| && |multiset(b)| == |b|;
  }

  /** Taking edges away leaves nothing next to the root that was not there. */
  lemma ClearRootAlone(g: Graph, k: Kind, h: Graph)
    requires RootAlone(g) && Cleared(g, k, h) && Closed(g)
    ensures RootAlone(h)
  {
    forall a | a in h ensures forall i :: 0 <= i < |h[a].supers| && h[a].supers[i].id == ROOT ==> |h[a].supers| == 1 {
      forall i | 0 <= i < |h[a].supers| && h[a].supers[i].id == ROOT ensures |h[a].supers| == 1 {
        var root := h[a].supers[i];
        assert root in h[a].supers && root in g[a].supers;
        var j :| 0 <= j < |g[a].supers| && g[a].supers[j] == root;
        assert |g[a].supers| == 1;
        forall x | x in multiset(h[a].supers) ensures Count(h[a].supers, x) <= Count(g[a].supers, x) {
          assert x in h[a].supers;
        }
        FewerCounts(h[a].supers, g[a].supers);
      }
    }
  }

  /** Nobody reaches a kind that has no kind below it. */
  lemma {:induction false} NoneBelow(g: Graph, a: Kind, b: Kind)
    requires Mirrored(g) && Acyclic(g) && a in g && b in g && g[b].subs == []
    ensures Reaches(g, a, b) <==> a == b
    decreases g[a].rank
  {
    assert Count(g[a].supers, b) == Count(g[b].subs, a);
    if a != b {
      forall s | s in g[a].supers ensures !Reaches(g, s, b) {
        NoneBelow(g, s, b);
      }
    }
  }

  // ---- leaving the kinds above and below ----

  /** A kind has left the lists of some kinds above it, once for each time it stands there. */
  ghost predicate LeavingUp(g: Graph, k: Kind, left: seq<Kind>, h: Graph) {
    && h.Keys == g.Keys && k in g
    && (forall a :: a in g ==> h[a].rank == g[a].rank && h[a].supers == g[a].supers)
    && (forall a :: a in g ==> forall b :: b in g && b != k ==> Count(h[a].subs, b) == Count(g[a].subs, b))
    && (forall a :: a in g ==> Count(h[a].subs, k) == Count(g[a].subs, k) - Count(left, a))
    && (forall a :: a in g ==> forall b :: b in h[a].subs ==> b in g[a].subs)
  }

  ghost predicate LeftUp(g: Graph, k: Kind, h: Graph) {
    && h.Keys == g.Keys && k in g && h[k].supers == []
    && (forall a :: a in g ==> h[a].rank == g[a].rank)
    && (forall a :: a in g && a != k ==> h[a].supers == g[a].supers)
    && (forall a :: a in g ==> forall b :: b in g && b != k ==> Count(h[a].subs, b) == Count(g[a].subs, b))
    && (forall a :: a in g ==> Count(h[a].subs, k) == 0)
    && (forall a :: a in g ==> forall b :: b in h[a].subs ==> b in g[a].subs)
  }

  lemma NoneLeftYet(g: Graph, k: Kind)
    requires k in g
    ensures LeavingUp(g, k, [], g)
  {
  }

  lemma LeavingSame(g: Graph, k: Kind, left: seq<Kind>, h: Graph)
    requires LeavingUp(g, k, left, h)
    ensures h.Keys == g.Keys && h[k].supers == g[k].supers
  {
  }

  lemma LeavesUp(g: Graph, k: Kind, left: seq<Kind>, other: Kind, h: Graph, h': Graph)
    requires LeavingUp(g, k, left, h) && other in g && h'.Keys == g.Keys && Removed(h[other].subs, k, h'[other].subs)
    requires forall a :: a in g ==> h'[a].rank == h[a].rank && h'[a].supers == h[a].supers
    requires forall a :: a in g && a != other ==> h'[a].subs == h[a].subs
    ensures LeavingUp(g, k, left + [other], h')
  {
    RemovedCounts(h[other].subs, k, h'[other].subs);
    forall a | a in g ensures Count(h'[a].subs, k) == Count(g[a].subs, k) - Count(left + [other], a) {
      CountMore(left, other, a);
    }
  }

  lemma CountAt(kinds: seq<Kind>, i: nat)
    requires i < |kinds|
    ensures Count(kinds, kinds[i]) > Count(kinds[..i], kinds[i])
  {
    assert kinds == kinds[..i] + [kinds[i]] + kinds[i + 1..];
  }

  /** A kind still to be left still has this one below it. */
  lemma StillSub(g: Graph, k: Kind, i: nat, h: Graph)
    requires Closed(g) && Mirrored(g) && k in g && i < |g[k].supers| && LeavingUp(g, k, g[k].supers[..i], h)
    ensures g[k].supers[i] in g && k in h[g[k].supers[i]].subs
  {
    var other := g[k].supers[i];
    hide Mirrored;
    assert other in g[k].supers;
    MirroredAt(g, k, other);
    CountAt(g[k].supers, i);
  }

  lemma LeftAll(g: Graph, k: Kind, h: Graph, h': Graph)
    requires Mirrored(g) && k in g && LeavingUp(g, k, g[k].supers, h) && h'.Keys == g.Keys
    requires forall a :: a in g ==> h'[a] == if a == k then h[k].(supers := []) else h[a]
    ensures LeftUp(g, k, h')
  {
    hide Mirrored;
    hide Count;
    forall a | a in g ensures Count(h'[a].subs, k) == 0 {
      MirroredAt(g, k, a);
    }
  }

  /** The kinds below one kind have it above them. */
  ghost predicate MirroredDown(g: Graph, k: Kind) {
    k in g && forall a :: a in g ==> Count(g[a].supers, k) == Count(g[k].subs, a)
  }

  lemma StillMirrored(g: Graph, k: Kind, h: Graph)
    requires Closed(g) && Mirrored(g) && Acyclic(g) && LeftUp(g, k, h)
    ensures Closed(h) && MirroredDown(h, k)
  {
    hide Mirrored;
    assert k !in g[k].supers;
    forall a | a in h ensures Count(h[a].supers, k) == Count(h[k].subs, a) {
      MirroredAt(g, a, k);
      MirroredAt(g, k, k);
    }
  }

  /** A kind has left the lists of some kinds below it, once for each time it stands there. */
  ghost predicate LeavingDown(g: Graph, k: Kind, left: seq<Kind>, h: Graph) {
    && h.Keys == g.Keys && k in g
    && (forall a :: a in g ==> h[a].rank == g[a].rank && h[a].subs == g[a].subs)
    && (forall a :: a in g ==> forall b :: b in g && b != k ==> Count(h[a].supers, b) == Count(g[a].supers, b))
    && (forall a :: a in g ==> Count(h[a].supers, k) == Count(g[a].supers, k) - Count(left, a))
    && (forall a :: a in g ==> forall b :: b in h[a].supers ==> b in g[a].supers)
    && (forall a :: a in g && |g[a].supers| == 0 ==> h[a].supers == [])
  }

  ghost predicate LeftDown(g: Graph, k: Kind, h: Graph) {
    && h.Keys == g.Keys && k in g && h[k].subs == []
    && (forall a :: a in g ==> h[a].rank == g[a].rank)
    && (forall a :: a in g && a != k ==> h[a].subs == g[a].subs)
    && (forall a :: a in g ==> forall b :: b in g && b != k ==> Count(h[a].supers, b) == Count(g[a].supers, b))
    && (forall a :: a in g ==> Count(h[a].supers, k) == 0)
    && (forall a :: a in g ==> forall b :: b in h[a].supers ==> b in g[a].supers)
    && (forall a :: a in g && |g[a].supers| == 0 ==> h[a].supers == [])
  }

  lemma NoneDownYet(g: Graph, k: Kind)
    requires k in g
    ensures LeavingDown(g, k, [], g)
  {
  }

  lemma LeavesDown(g: Graph, k: Kind, left: seq<Kind>, other: Kind, h: Graph, h': Graph)
    requires LeavingDown(g, k, left, h) && other in g && h'.Keys == g.Keys && Removed(h[other].supers, k, h'[other].supers)
    requires forall a :: a in g ==> h'[a].rank == h[a].rank && h'[a].subs == h[a].subs
    requires forall a :: a in g && a != other ==> h'[a].supers == h[a].supers
    ensures LeavingDown(g, k, left + [other], h')
  {
    RemovedCounts(h[other].supers, k, h'[other].supers);
    forall a | a in g ensures Count(h'[a].supers, k) == Count(g[a].supers, k) - Count(left + [other], a) {
      CountMore(left, other, a);
    }
  }

  lemma StillSuper(g: Graph, k: Kind, i: nat, h: Graph)
    requires Closed(g) && MirroredDown(g, k) && i < |g[k].subs| && LeavingDown(g, k, g[k].subs[..i], h)
    ensures g[k].subs[i] in g && k in h[g[k].subs[i]].supers && h.Keys == g.Keys
  {
    var other := g[k].subs[i];
    assert other in g[k].subs;
    assert Count(g[other].supers, k) == Count(g[k].subs, other);
    CountAt(g[k].subs, i);
  }

  lemma DownAll(g: Graph, k: Kind, h: Graph, h': Graph)
    requires MirroredDown(g, k) && LeavingDown(g, k, g[k].subs, h) && h'.Keys == g.Keys
    requires forall a :: a in g ==> h'[a] == if a == k then h[k].(subs := []) else h[a]
    ensures LeftDown(g, k, h')
  {
  }

  lemma BothLeft(g: Graph, k: Kind, mid: Graph, h: Graph)
    requires LeftUp(g, k, mid) && LeftDown(mid, k, h)
    ensures Cleared(g, k, h)
  {
    forall a | a in g ensures k !in h[a].supers && k !in h[a].subs {
      assert Count(h[a].supers, k) == 0;
      assert a != k ==> Count(mid[a].subs, k) == 0;
    }
  }

  // ---- visiting the kinds above ----

  /** Kinds are seen once, and those that are no longer open have had all kinds above them seen. */
  ghost predicate Seen(g: Graph, visited: seq<Kind>, open: set<Kind>) {
    && (forall i, j :: 0 <= i < j < |visited| ==> visited[i] != visited[j])
    && (forall k :: k in visited ==> k in g)
    && (forall k :: k in open ==> k in visited)
    && (forall k :: k in visited && k !in open ==> forall s :: s in g[k].supers ==> s in visited)
  }

  /** Every kind seen is updated or still open. */
  ghost predicate Balanced(visited: seq<Kind>, updated: seq<Kind>, open: set<Kind>) {
    multiset(visited) == multiset(updated) + multiset(open)
  }

  lemma Opened(visited: seq<Kind>, updated: seq<Kind>, open: set<Kind>, k: Kind)
    requires Balanced(visited, updated, open) && k !in open
    ensures Balanced(visited + [k], updated, open + {k})
  {
    assert multiset(open + {k}) == multiset(open) + multiset{k};
  }

  lemma Updated(visited: seq<Kind>, updated: seq<Kind>, open: set<Kind>, k: Kind)
    requires Balanced(visited, updated, open + {k}) && k !in open
    ensures Balanced(visited, updated + [k], open)
  {
    assert multiset(open + {k}) == multiset(open) + multiset{k};
  }

  /** The kinds seen since are ones that a kind reaches. */
  ghost predicate NewReached(g: Graph, a: Kind, before: seq<Kind>, after: seq<Kind>)
    requires Acyclic(g) && a in g
  {
    forall k :: k in after ==> k in before || Reaches(g, a, k)
  }

  lemma SeenOpened(g: Graph, visited: seq<Kind>, open: set<Kind>, k: Kind)
    requires Acyclic(g) && Seen(g, visited, open) && k in g && k !in visited
    ensures Seen(g, visited + [k], open + {k}) && k !in open
    ensures NewReached(g, k, visited, visited + [k])
  {
  }

  lemma SeenClosed(g: Graph, visited: seq<Kind>, open: set<Kind>, k: Kind)
    requires Seen(g, visited, open + {k}) && k in g && forall i :: 0 <= i < |g[k].supers| ==> g[k].supers[i] in visited
    ensures Seen(g, visited, open)
  {
    forall a, s | a in visited && a !in open && s in g[a].supers ensures s in visited {
      if a == k {
        var i :| 0 <= i < |g[k].supers| && g[k].supers[i] == s;
      }
    }
  }

  lemma NoneSeen(g: Graph)
    ensures Seen(g, [], {})
  {
  }

  lemma SuperInside(g: Graph, a: Kind, i: nat)
    requires Closed(g) && Acyclic(g) && a in g && i < |g[a].supers|
    ensures g[a].supers[i] in g && g[a].supers[i] in g[a].supers && g[g[a].supers[i]].rank < g[a].rank
  {
  }

  lemma ReachedThrough(g: Graph, a: Kind, s: Kind, first: seq<Kind>, before: seq<Kind>, after: seq<Kind>)
    requires Acyclic(g) && a in g && s in g && s in g[a].supers && first + [a] <= before && before + [s] <= after
    requires NewReached(g, a, first, before) && NewReached(g, s, before, after)
    requires forall k :: k in after ==> k in g
    ensures first + [a] <= after && NewReached(g, a, first, after) && s in after
    ensures forall k :: k in before ==> k in after
  {
    assert after[|before|] == s && before == after[..|before|];
    forall k | k in after ensures k in first || Reaches(g, a, k) {
      if k !in before {
        ReachesSuper(g, a, s);
        ReachesThrough(g, a, s, k);
      }
    }
  }

  lemma SeenInside(g: Graph, visited: seq<Kind>, open: set<Kind>)
    requires Seen(g, visited, open)
    ensures forall k :: k in visited ==> k in g
    ensures forall k :: k in open ==> k in visited
  {
  }

  /** Kinds seen once and updated as often as seen are updated once each. */
  lemma UpdatedOnce(g: Graph, visited: seq<Kind>, updated: seq<Kind>)
    requires Seen(g, visited, {}) && Balanced(visited, updated, {})
    ensures forall k :: k in updated <==> k in visited
    ensures forall k :: k in updated ==> Count(updated, k) == 1
  {
    SeenOnce(g, visited);
    hide Seen;
    assert multiset(visited) == multiset(updated);
    forall k ensures k in updated <==> k in visited {
      assert k in multiset(updated) <==> k in multiset(visited);
    }
  }

  lemma SeenOnce(g: Graph, visited: seq<Kind>)
    requires Seen(g, visited, {})
    ensures forall k :: k in visited ==> Count(visited, k) == 1
  {
    DistinctOnce(visited);
  }

  lemma {:induction false} DistinctOnce(kinds: seq<Kind>)
    requires forall i, j :: 0 <= i < j < |kinds| ==> kinds[i] != kinds[j]
    ensures forall k :: k in kinds ==> Count(kinds, k) == 1
  {
    if |kinds| > 0 {
      var n := |kinds| - 1;
      DistinctOnce(kinds[..n]);
      assert kinds == kinds[..n] + [kinds[n]];
      assert kinds[n] !in kinds[..n];
    }
  }

  /** When nothing is open any more, all kinds above have been seen. */
  lemma {:induction false} AllSeen(g: Graph, visited: seq<Kind>, a: Kind, b: Kind)
    requires Acyclic(g) && Seen(g, visited, {}) && a in visited && Reaches(g, a, b)
    ensures b in visited
    decreases if a in g then g[a].rank else 0
  {
    if a != b {
      var s :| s in g[a].supers && Reaches(g, s, b);
      AllSeen(g, visited, s, b);
    }
  }

  // ---- the kinds named ----

  ghost predicate Known(known: map<string, Kind>, kinds: set<Kind>) {
    forall id :: id in known ==> known[id] in kinds && known[id].id == id
  }

  /** The kinds of some names, without a kind itself. */
  function NamedKinds(known: map<string, Kind>, ids: seq<string>, self: Kind): seq<Kind> {
    if |ids| == 0 then []
    else
      var n := |ids| - 1;
      NamedKinds(known, ids[..n], self) + if ids[n] in known && known[ids[n]] != self then [known[ids[n]]] else []
  }

  /** The kinds a kind is to extend: those it names, else the root unless that extends it. */
  ghost function SupersOf(known: map<string, Kind>, g: Graph, ids: seq<string>, self: Kind): seq<Kind> {
    var named := NamedKinds(known, ids, self);
    if named == [] && ROOT in known && !Above(g, known[ROOT], self) then [known[ROOT]] else named
  }

  /** The edge of a kind to the root does not tell whether the root extends the kind. */
  lemma RootAbove(g: Graph, a: Kind, root: Kind, h: Graph)
    requires Inv(g) && Inv(h) && h.Keys == g.Keys && a in g && root in g
    requires if Above(g, root, a) then h == g else forall k :: k in g && k != a ==> h[k].supers == g[k].supers
    ensures Above(h, root, a) <==> Above(g, root, a)
  {
    if !Above(g, root, a) {
      SameAbove(g, h, a, root);
    }
  }

  lemma {:induction false} NamedNotRoot(known: map<string, Kind>, ids: seq<string>, self: Kind)
    requires ROOT !in ids && forall id :: id in known ==> known[id].id == id
    ensures forall i :: 0 <= i < |NamedKinds(known, ids, self)| ==> NamedKinds(known, ids, self)[i].id != ROOT
  {
    if |ids| > 0 {
      NamedNotRoot(known, ids[..|ids| - 1], self);
    }
  }

  lemma AlreadyThere(g: Graph, a: Kind, b: Kind)
    requires Inv(g) && a in g && b in g && g[b].subs == []
    ensures Above(g, a, b) <==> a == b
  {
    NoneBelow(g, a, b);
  }

  lemma SelfAbove(g: Graph, a: Kind)
    requires Inv(g) && a in g
    ensures Above(g, a, a)
  {
  }

  lemma NoneExtends(g: Graph, a: Kind)
    requires Inv(g) && a in g && g[a].subs == []
    ensures forall k :: k in g ==> a !in g[k].supers
  {
    forall k | k in g ensures a !in g[k].supers {
      assert Count(g[k].supers, a) == Count(g[a].subs, k);
    }
  }

  /**
   * Of the kinds named, those not among the rest have this one above them unless they are above it;
   * the others do not have it above them.
   */
  ghost predicate BelowSoFar(g: Graph, a: Kind, known: map<string, Kind>, named: set<Kind>, rest: set<string>, h: Graph) {
    && h.Keys == g.Keys && a in g && (forall id :: id in known ==> known[id] in g && known[id].id == id)
    && (forall k :: k in g ==> (Above(h, a, k) <==> Above(g, a, k)))
    && (forall k :: k in h && a in h[k].supers ==> k in named && !Above(g, a, k) && k.id in known && k.id !in rest)
    && (forall id :: id in known && id !in rest && known[id] in named && !Above(g, a, known[id]) ==> a in h[known[id]].supers)
  }

  lemma NoneBelowYet(g: Graph, a: Kind, known: map<string, Kind>, named: set<Kind>)
    requires Inv(g) && a in g && g[a].subs == [] && Known(known, g.Keys)
    ensures BelowSoFar(g, a, known, named, known.Keys, g)
  {
    NoneExtends(g, a);
  }

  lemma BelowNext(g: Graph, a: Kind, known: map<string, Kind>, named: set<Kind>, rest: set<string>, id: string,
                  h: Graph, h': Graph)
    requires Inv(h) && Inv(h') && BelowSoFar(g, a, known, named, rest, h) && id in rest && id in known && h'.Keys == h.Keys
    requires
      if known[id] !in named || Above(h, a, known[id]) then h' == h
      else a in h'[known[id]].supers && forall k :: k in h && k != known[id] ==> h'[k].supers == h[k].supers
    ensures BelowSoFar(g, a, known, named, rest - {id}, h')
  {
    hide Inv;
    hide BelowSoFar;
    if known[id] in named && !Above(h, a, known[id]) {
      BelowMore(g, a, known, named, rest, id, h, h');
    } else {
      BelowSame(g, a, known, named, rest, id, h);
    }
  }

  lemma BelowSame(g: Graph, a: Kind, known: map<string, Kind>, named: set<Kind>, rest: set<string>, id: string, h: Graph)
    requires BelowSoFar(g, a, known, named, rest, h) && id in rest && id in known
    requires known[id] !in named || Above(h, a, known[id])
    ensures BelowSoFar(g, a, known, named, rest - {id}, h)
  {
    hide Above;
  }

  lemma BelowMore(g: Graph, a: Kind, known: map<string, Kind>, named: set<Kind>, rest: set<string>, id: string,
                  h: Graph, h': Graph)
    requires Inv(h) && Inv(h') && BelowSoFar(g, a, known, named, rest, h) && id in rest && id in known && h'.Keys == h.Keys
    requires known[id] in named && !Above(h, a, known[id])
    requires a in h'[known[id]].supers && forall k :: k in h && k != known[id] ==> h'[k].supers == h[k].supers
    ensures BelowSoFar(g, a, known, named, rest - {id}, h')
  {
    hide Inv;
    SameAbove(h, h', known[id], a);
    hide Above;
    forall k | k in h' && a in h'[k].supers
      ensures k in named && !Above(g, a, k) && k.id in known && k.id !in rest - {id}
    {
      assert k == known[id] || a in h[k].supers;
    }
  }

  lemma AllBelow(g: Graph, a: Kind, known: map<string, Kind>, named: set<Kind>, h: Graph)
    requires BelowSoFar(g, a, known, named, {}, h) && forall k :: k in named ==> k.id in known && known[k.id] == k
    ensures forall k :: k in h ==> (a in h[k].supers <==> k in named && !Above(h, a, k))
  {
    hide Above;
  }

  /** With one edge more up from a kind that had none, it has none of the kinds below it above it. */
  lemma StillBelow(g: Graph, a: Kind, h: Graph, named: set<Kind>)
    requires Inv(h) && h.Keys == g.Keys && a in g
    requires forall k :: k in g && k != a ==> h[k].supers == g[k].supers
    requires Inv(g) && forall k :: k in g ==> (a in g[k].supers <==> k in named && !Above(g, a, k))
    requires h == g || g[a].supers == []
    ensures forall k :: k in h ==> (a in h[k].supers <==> k in named && !Above(h, a, k))
  {
    forall k | k in h ensures a in h[k].supers <==> k in named && !Above(h, a, k) {
      if a in h[k].supers && Above(h, a, k) {
        ReachedBelow(h, a, k);
      }
      if k == a {
        SelfAbove(h, a);
      } else if g[a].supers == [] {
        assert !Above(g, a, k);
      }
    }
  }

  // ---- kinds come and go ----

  lemma OneMore(g: Graph, k: Kind, h: Graph)
    requires Inv(g) && k !in g && h.Keys == g.Keys + {k} && h[k].supers == [] && h[k].subs == []
    requires forall a :: a in g ==> h[a] == g[a] && a.id != k.id
    ensures Inv(h)
  {
    forall a, b | a in h && b in h ensures Count(h[a].supers, b) == Count(h[b].subs, a) {
      OneMoreCounts(g, k, h, a, b);
    }
    OneMoreShape(g, k, h);
    hide Closed;
    hide Acyclic;
    hide RootAlone;
    hide UniqueIds;
    hide Count;
  }

  lemma OneMoreCounts(g: Graph, k: Kind, h: Graph, a: Kind, b: Kind)
    requires Closed(g) && Mirrored(g) && k !in g && h.Keys == g.Keys + {k} && h[k].supers == [] && h[k].subs == []
    requires forall x :: x in g ==> h[x] == g[x]
    requires a in h && b in h
    ensures Count(h[a].supers, b) == Count(h[b].subs, a)
  {
    assert a in g ==> k !in g[a].supers && k !in g[a].subs;
    assert b in g ==> k !in g[b].supers && k !in g[b].subs;
  }

  lemma OneMoreShape(g: Graph, k: Kind, h: Graph)
    requires Inv(g) && k !in g && h.Keys == g.Keys + {k} && h[k].supers == [] && h[k].subs == []
    requires forall a :: a in g ==> h[a] == g[a] && a.id != k.id
    ensures Closed(h) && Acyclic(h) && RootAlone(h) && UniqueIds(h.Keys)
  {
    hide Mirrored;
  }

  lemma OneLess(g: Graph, k: Kind, h: Graph)
    requires Inv(g) && k in g && g[k].supers == [] && g[k].subs == [] && h.Keys == g.Keys - {k}
    requires forall a :: a in h ==> h[a] == g[a]
    ensures Inv(h)
  {
    forall a | a in h ensures k !in h[a].supers && k !in h[a].subs {
      assert Count(g[a].supers, k) == Count(g[k].subs, a);
      assert Count(g[k].supers, a) == Count(g[a].subs, k);
    }
  }

  // ---- a kind as it runs ----

  class Kind {
    const id: string
    var superIds: seq<string>
    var supers: seq<Kind>
    var subs: seq<Kind>
    /** Above the numbers of all kinds this one extends: what shows that there is no cycle. */
    ghost var rank: nat

    constructor (kindId: string)
      ensures id == kindId && superIds == [] && supers == [] && subs == []
    {
      id, superIds, supers, subs := kindId, [], [], [];
    }

    /** This kind has the identifier, or one it extends has. */
    method Extends(target: string, ghost kinds: set<Kind>) returns (found: bool)
      requires this in kinds && Closed(Snap(kinds)) && Acyclic(Snap(kinds))
      ensures found <==> exists k :: k in kinds && k.id == target && Reaches(Snap(kinds), this, k)
      decreases rank
    {
      ghost var g := Snap(kinds);
      if id == target {
        assert Reaches(g, this, this);
        return true;
      }
      for i := 0 to |supers|
        invariant forall j, k :: 0 <= j < i && k in kinds && k.id == target ==> !Reaches(g, supers[j], k)
      {
        assert supers[i] in g[this].supers;
        found := supers[i].Extends(target, kinds);
        if found {
          ghost var k :| k in kinds && k.id == target && Reaches(g, supers[i], k);
          assert Reaches(g, this, k);
          return;
        }
      }
      found := false;
    }

    /** The first occurrence of a kind leaves the list below this one. */
    method RemoveSub(kind: Kind)
      requires kind in subs
      modifies `subs
      ensures Removed(old(subs), kind, subs)
    {
      var idx := FindKind(subs, kind);
      subs := subs[..idx] + subs[idx + 1..];
    }

    method RemoveSuper(kind: Kind)
      requires kind in supers
      modifies `supers
      ensures Removed(old(supers), kind, supers)
    {
      var idx := FindKind(supers, kind);
      supers := supers[..idx] + supers[idx + 1..];
    }

    /**
     * Extends one kind more, unless that kind extends this one; a kind that has the root first is no
     * longer directly below the root.  What stands behind the root is forgotten then, and not told.
     */
    method AddSuper(kind: Kind, ghost kinds: set<Kind>)
      requires this in kinds && kind in kinds && Shape(Snap(kinds)) && Mirrored(Snap(kinds))
      modifies kinds
      ensures Shape(Snap(kinds)) && forall k :: k in kinds ==> k.superIds == old(k.superIds)
      ensures Mirrored(Snap(kinds)) <==> old(Above(Snap(kinds), kind, this) || !RootFirst(supers) || |supers| == 1)
      ensures old(Above(Snap(kinds), kind, this)) ==> forall k :: k in kinds ==> unchanged(k)
      ensures !old(Above(Snap(kinds), kind, this)) ==> supers == (if old(RootFirst(supers)) then [] else old(supers)) + [kind]
      ensures subs == old(subs) && forall k :: k in kinds && k != this ==> k.supers == old(k.supers)
    {
      hide Closed;
      hide Mirrored;
      hide Acyclic;
      hide Reaches;
      hide Count;
      hide Linked;
      hide UniqueIds;
      hide Unrooted;
      ghost var g := Snap(kinds);
      ReachesById(g, kind, this);
      var cycle := kind.Extends(id, kinds);
      if cycle {
        return;
      }
      if |supers| > 0 && supers[0].id == ROOT {
        var root := supers[0];
        assert root in g[this].supers;
        HasSub(g, this, root);
        Unroot(root, kinds);
        NotYetReached(g, this, root, Snap(kinds), kind);
      }
      NotItself(Snap(kinds), kind, this);
      ghost var mid := Snap(kinds);
      Link(kind, kinds);
      SupersLinked(mid, this, kind, Snap(kinds));
    }

    /** Extends one kind more while the root stands nowhere beside another kind. */
    method Extend(kind: Kind, ghost kinds: set<Kind>)
      requires this in kinds && kind in kinds && Inv(Snap(kinds))
      requires kind.id == ROOT ==> supers == []
      modifies kinds
      ensures Inv(Snap(kinds)) && forall k :: k in kinds ==> k.superIds == old(k.superIds)
      ensures old(Above(Snap(kinds), kind, this)) ==> forall k :: k in kinds ==> unchanged(k)
      ensures !old(Above(Snap(kinds), kind, this)) ==> supers == (if old(RootFirst(supers)) then [] else old(supers)) + [kind]
      ensures subs == old(subs) && forall k :: k in kinds && k != this ==> k.supers == old(k.supers)
    {
      hide Shape;
      hide Mirrored;
      hide Above;
      hide RootAlone;
      ghost var g := Snap(kinds);
      RootAloneAt(g, this);
      AddSuper(kind, kinds);
      if Above(g, kind, this) {
        assert Snap(kinds) == g;
      } else {
        RootStaysAlone(g, this, kind, Snap(kinds));
      }
    }

    /** Empties the list that has the root first. */
    method Unroot(root: Kind, ghost kinds: set<Kind>)
      requires this in kinds && Closed(Snap(kinds)) && Mirrored(Snap(kinds)) && Acyclic(Snap(kinds))
      requires |supers| > 0 && supers[0] == root
      modifies this`supers, root`subs
      ensures Closed(Snap(kinds)) && Acyclic(Snap(kinds)) && (Mirrored(Snap(kinds)) <==> old(|supers| == 1))
      ensures Unrooted(old(Snap(kinds)), this, root, Snap(kinds))
      ensures supers == [] && forall k :: k in kinds && k != this ==> k.supers == old(k.supers)
    {
      hide Closed;
      hide Mirrored;
      hide Acyclic;
      hide Removed;
      ghost var g := Snap(kinds);
      assert root in g[this].supers;
      HasSub(g, this, root);
      root.RemoveSub(this);
      supers := [];
      assert Removed(g[root].subs, this, Snap(kinds)[root].subs);
      UnrootClosed(g, this, root, Snap(kinds));
      UnrootMirrors(g, this, root, Snap(kinds));
    }

    /** The two edges that link this kind to another. */
    method Link(kind: Kind, ghost kinds: set<Kind>)
      requires this in kinds && kind in kinds && Closed(Snap(kinds)) && Acyclic(Snap(kinds))
      requires !Reaches(Snap(kinds), kind, this)
      modifies kinds
      ensures Closed(Snap(kinds)) && Acyclic(Snap(kinds)) && (Mirrored(Snap(kinds)) <==> old(Mirrored(Snap(kinds))))
      ensures Linked(old(Snap(kinds)), this, kind, Snap(kinds)) && forall k :: k in kinds ==> k.superIds == old(k.superIds)
    {
      hide Closed;
      hide Mirrored;
      hide Acyclic;
      hide Reaches;
      hide Lifted;
      hide Count;
      ghost var g := Snap(kinds);
      supers := supers + [kind];
      kind.subs := kind.subs + [this];
      forall k | k in kinds {
        k.rank := Lifted(g, this, kind, k);
      }
      LinkClosed(g, this, kind, Snap(kinds));
      LinkMirrored(g, this, kind, Snap(kinds));
      LinkAcyclic(g, this, kind, Snap(kinds));
    }

    /** Takes away all edges of this kind, up and down. */
    method ClearSupers(ghost kinds: set<Kind>)
      requires this in kinds && Closed(Snap(kinds)) && Mirrored(Snap(kinds)) && Acyclic(Snap(kinds))
      modifies kinds
      ensures Closed(Snap(kinds)) && Mirrored(Snap(kinds)) && Acyclic(Snap(kinds))
      ensures Cleared(old(Snap(kinds)), this, Snap(kinds)) && forall k :: k in kinds ==> k.superIds == old(k.superIds)
    {
      hide Acyclic;
      hide Closed;
      hide Mirrored;
      hide LeftUp;
      hide LeftDown;
      hide Cleared;
      ghost var g := Snap(kinds);
      LeaveSupers(kinds);
      ghost var mid := Snap(kinds);
      StillMirrored(g, this, mid);
      LeaveSubs(kinds);
      BothLeft(g, this, mid, Snap(kinds));
      ClearKeeps(g, this, Snap(kinds));
    }

    /** This kind leaves the lists of the kinds above it. */
    method LeaveSupers(ghost kinds: set<Kind>)
      requires this in kinds && Closed(Snap(kinds)) && Mirrored(Snap(kinds))
      modifies kinds
      ensures LeftUp(old(Snap(kinds)), this, Snap(kinds)) && forall k :: k in kinds ==> k.superIds == old(k.superIds)
    {
      hide LeftUp;
      hide Closed;
      hide Mirrored;
      hide Count;
      hide Removed;
      hide LeavingUp;
      ghost var g := Snap(kinds);
      NoneLeftYet(g, this);
      LeavingSame(g, this, [], g);
      for i := 0 to |supers|
        invariant supers == old(supers) && forall k :: k in kinds ==> k.superIds == old(k.superIds)
        invariant LeavingUp(g, this, supers[..i], Snap(kinds))
      {
        var other := supers[i];
        ghost var h := Snap(kinds);
        StillSub(g, this, i, h);
        assert supers[..i + 1] == supers[..i] + [other];
        LeavingSame(g, this, supers[..i], h);
        other.RemoveSub(this);
        LeavesUp(g, this, supers[..i], other, h, Snap(kinds));
      }
      assert supers[..|supers|] == supers;
      ghost var h := Snap(kinds);
      supers := [];
      LeftAll(g, this, h, Snap(kinds));
    }

    /** This kind leaves the lists of the kinds below it. */
    method LeaveSubs(ghost kinds: set<Kind>)
      requires this in kinds && Closed(Snap(kinds)) && MirroredDown(Snap(kinds), this)
      modifies kinds
      ensures LeftDown(old(Snap(kinds)), this, Snap(kinds)) && forall k :: k in kinds ==> k.superIds == old(k.superIds)
    {
      hide LeftDown;
      hide Closed;
      hide MirroredDown;
      hide Count;
      hide Removed;
      hide LeavingDown;
      ghost var g := Snap(kinds);
      NoneDownYet(g, this);
      for i := 0 to |subs|
        invariant subs == old(subs) && forall k :: k in kinds ==> k.superIds == old(k.superIds)
        invariant LeavingDown(g, this, subs[..i], Snap(kinds))
      {
        var other := subs[i];
        ghost var h := Snap(kinds);
        StillSuper(g, this, i, h);
        assert subs[..i + 1] == subs[..i] + [other];
        other.RemoveSuper(this);
        LeavesDown(g, this, subs[..i], other, h, Snap(kinds));
      }
      assert subs[..|subs|] == subs;
      ghost var h := Snap(kinds);
      subs := [];
      DownAll(g, this, h, Snap(kinds));
    }

    /**
     * Makes this kind extend the kinds named, as far as they are known, and makes the kinds that name
     * it extend it unless it extends them; a kind that extends nothing else extends the root.
     */
    method UpdateSupers(known: map<string, Kind>, ids: seq<string>, ghost kinds: set<Kind>)
      requires this in kinds && Inv(Snap(kinds)) && Known(known, kinds)
      requires ROOT !in ids && forall k :: k in kinds ==> ROOT !in k.superIds
      modifies kinds
      ensures Inv(Snap(kinds)) && superIds == ids && forall k :: k in kinds && k != this ==> k.superIds == old(k.superIds)
      ensures supers == SupersOf(known, Snap(kinds), ids, this)
      ensures forall k :: k in kinds ==>
        (this in k.supers <==> k.id in known && known[k.id] == k && id in k.superIds && !Above(Snap(kinds), this, k))
    {
      hide Inv;
      hide Cleared;
      hide Above;
      ghost var was := Snap(kinds);
      superIds := ids;
      assert Snap(kinds) == was;
      Clear(kinds);
      AddNamed(known, kinds);
      ghost var named := set k | k in kinds && k.id in known && known[k.id] == k && id in k.superIds;
      AddBelow(known, named, kinds);
      hide Known;
      AddRoot(known, named, kinds);
    }

    /** A kind that extends nothing else extends the root, unless the root extends it. */
    method AddRoot(known: map<string, Kind>, ghost named: set<Kind>, ghost kinds: set<Kind>)
      requires this in kinds && Inv(Snap(kinds)) && Known(known, kinds)
      requires forall k :: k in kinds ==> (this in k.supers <==> k in named && !Above(Snap(kinds), this, k))
      modifies kinds
      ensures Inv(Snap(kinds)) && forall k :: k in kinds ==> k.superIds == old(k.superIds)
      ensures supers == if old(supers) == [] && ROOT in known && !Above(Snap(kinds), known[ROOT], this) then [known[ROOT]] else old(supers)
      ensures forall k :: k in kinds ==> (this in k.supers <==> k in named && !Above(Snap(kinds), this, k))
    {
      hide Inv;
      hide Above;
      if |supers| == 0 && ROOT in known {
        ghost var mid := Snap(kinds);
        Extend(known[ROOT], kinds);
        if Above(mid, known[ROOT], this) {
          assert Snap(kinds) == mid;
        }
        RootAbove(mid, this, known[ROOT], Snap(kinds));
        StillBelow(mid, this, Snap(kinds), named);
      }
    }

    /** Looks for the kinds this one names. */
    method AddNamed(known: map<string, Kind>, ghost kinds: set<Kind>)
      requires this in kinds && Inv(Snap(kinds)) && Known(known, kinds) && ROOT !in superIds && supers == [] && subs == []
      modifies kinds
      ensures Inv(Snap(kinds)) && supers == NamedKinds(known, superIds, this) && subs == []
      ensures forall k :: k in kinds ==> k.superIds == old(k.superIds)
    {
      hide Inv;
      hide Above;
      for i := 0 to |superIds|
        invariant forall k :: k in kinds ==> k.superIds == old(k.superIds)
        invariant Inv(Snap(kinds)) && subs == [] && supers == NamedKinds(known, superIds[..i], this)
      {
        assert superIds[..i + 1][..i] == superIds[..i];
        NamedNotRoot(known, superIds[..i], this);
        if superIds[i] in known {
          AlreadyThere(Snap(kinds), known[superIds[i]], this);
          Extend(known[superIds[i]], kinds);
        }
      }
      assert superIds[..|superIds|] == superIds;
    }

    /** Looks for the kinds that name this one, in any order. */
    method AddBelow(known: map<string, Kind>, ghost named: set<Kind>, ghost kinds: set<Kind>)
      requires this in kinds && Inv(Snap(kinds)) && Known(known, kinds) && subs == []
      requires named == set k | k in kinds && k.id in known && known[k.id] == k && id in k.superIds
      requires forall k :: k in kinds ==> ROOT !in k.superIds
      modifies kinds
      ensures Inv(Snap(kinds)) && supers == old(supers) && forall k :: k in kinds ==> k.superIds == old(k.superIds)
      ensures forall k :: k in kinds ==> (this in k.supers <==> k in named && !Above(Snap(kinds), this, k))
    {
      hide Inv;
      hide Above;
      hide BelowSoFar;
      ghost var g := Snap(kinds);
      NoneBelowYet(g, this, known, named);
      var rest := known.Keys;
      while rest != {}
        invariant Inv(Snap(kinds)) && supers == old(supers) && rest <= known.Keys
        invariant forall k :: k in kinds ==> k.superIds == old(k.superIds)
        invariant BelowSoFar(g, this, known, named, rest, Snap(kinds))
        decreases |rest|
      {
        var key :| key in rest;
        var other := known[key];
        ghost var h := Snap(kinds);
        if id in other.superIds {
          SelfAbove(h, this);
          other.Extend(this, kinds);
          if Above(h, this, other) {
            assert Snap(kinds) == h;
          }
        }
        BelowNext(g, this, known, named, rest, key, h, Snap(kinds));
        rest := rest - {key};
      }
      AllBelow(g, this, known, named, Snap(kinds));
    }

    method Clear(ghost kinds: set<Kind>)
      requires this in kinds && Inv(Snap(kinds))
      modifies kinds
      ensures Inv(Snap(kinds)) && supers == [] && subs == [] && forall k :: k in kinds ==> k.superIds == old(k.superIds)
      ensures Cleared(old(Snap(kinds)), this, Snap(kinds))
    {
      ghost var g := Snap(kinds);
      hide Closed;
      hide Mirrored;
      hide Acyclic;
      hide RootAlone;
      ClearSupers(kinds);
      ClearRootAlone(g, this, Snap(kinds));
    }

    /**
     * Updates the indexes of this kind and of those it extends, each of them once: the kinds on the
     * list were seen before, and those just begun are still open.
     */
    method UpdateIndexes(visited: seq<Kind>, updated: seq<Kind>, ghost open: set<Kind>, ghost kinds: set<Kind>)
      returns (visited': seq<Kind>, updated': seq<Kind>)
      requires this in kinds && Closed(Snap(kinds)) && Acyclic(Snap(kinds)) && this !in visited
      requires Seen(Snap(kinds), visited, open) && Balanced(visited, updated, open)
      ensures Seen(Snap(kinds), visited', open) && Balanced(visited', updated', open)
      ensures visited + [this] <= visited' && NewReached(Snap(kinds), this, visited, visited')
      decreases rank
    {
      hide Seen;
      hide Closed;
      hide Acyclic;
      hide Reaches;
      hide NewReached;
      hide Balanced;
      ghost var g := Snap(kinds);
      visited' := visited + [this];
      updated' := updated;
      ghost var inside := open + {this};
      SeenInside(g, visited, open);
      SeenOpened(g, visited, open, this);
      Opened(visited, updated, open, this);
      for i := 0 to |supers|
        invariant Seen(g, visited', inside) && Balanced(visited', updated', inside)
        invariant visited + [this] <= visited' && NewReached(g, this, visited, visited')
        invariant forall j :: 0 <= j < i ==> supers[j] in visited'
      {
        SuperInside(g, this, i);
        if supers[i] !in visited' {
          ghost var before := visited';
          visited', updated' := supers[i].UpdateIndexes(visited', updated', inside, kinds);
          SeenInside(g, visited', inside);
          ReachedThrough(g, this, supers[i], visited, before, visited');
        }
      }
      Updated(visited', updated', open, this);
      updated' := updated' + [this];
      SeenClosed(g, visited', open, this);
    }

    /** An object of this kind changes: every kind it belongs to updates its indexes, and each once. */
    method Update(ghost kinds: set<Kind>) returns (updated: seq<Kind>)
      requires this in kinds && Closed(Snap(kinds)) && Acyclic(Snap(kinds))
      ensures forall k :: k in updated <==> k in kinds && Reaches(Snap(kinds), this, k)
      ensures forall k :: k in updated ==> Count(updated, k) == 1
    {
      hide Seen;
      hide Closed;
      hide Reaches;
      hide Count;
      ghost var g := Snap(kinds);
      var visited;
      NoneSeen(g);
      visited, updated := UpdateIndexes([], [], {}, kinds);
      UpdatedOnce(g, visited, updated);
      SeenInside(g, visited, {});
      assert visited[0] == this;
      forall k | k in kinds && Reaches(g, this, k) ensures k in visited {
        AllSeen(g, visited, this, k);
      }
    }
  }

  method FindKind(kinds: seq<Kind>, kind: Kind) returns (idx: nat)
    requires kind in kinds
    ensures idx < |kinds| && kinds[idx] == kind && kind !in kinds[..idx]
  {
    idx := 0;
    while kinds[idx] != kind
      invariant idx < |kinds| && kind !in kinds[..idx]
      decreases |kinds| - idx
    {
      idx := idx + 1;
    }
  }

  // ---- the root among other kinds ----

  lemma NothingAbove(g: Graph, k: Kind, a: Kind)
    requires k in g && g[k].supers == [] && k != a
    ensures !Above(g, k, a)
  {
  }

  /** Of three kinds extended, one removed leaves the other two. */
  lemma TwoLeft(g: Graph, b: Kind, h: Graph, a: Kind, root: Kind)
    requires Cleared(g, b, h) && Closed(g) && a in g && a != b && root in g && root != b && g[a].supers == [b, root, root]
    ensures h[a].supers == [root, root]
  {
    var left := h[a].supers;
    assert Count(g[a].supers, root) == 2;
    assert Count(left, root) == 2;
    assert b !in left && forall x :: x in left ==> x in g[a].supers;
    AllOne(left, root);
    assert left[0] in left && left[1] in left;
  }

  lemma {:induction false} AllOne(kinds: seq<Kind>, k: Kind)
    requires forall x :: x in kinds ==> x == k
    ensures |kinds| == Count(kinds, k)
  {
    if |kinds| > 0 {
      assert kinds == [kinds[0]] + kinds[1..] && kinds[0] in kinds;
      assert forall x :: x in kinds[1..] ==> x in kinds;
      AllOne(kinds[1..], k);
    }
  }

  /**
   * A kind that names the root behind another kind, and names it twice: when the other kind goes and
   * the kind is to extend one more, the root still has it below, though it no longer extends the root.
   * The calls are those that making `b`, the root and `a`, taking `b` away and making `c` come down to.
   */
  method RootForgotten() returns (a: Kind, b: Kind, c: Kind, root: Kind, ghost kinds: set<Kind>)
    ensures Shape(Snap(kinds)) && !Mirrored(Snap(kinds)) && kinds == {a, b, c, root} && a.supers == [c]
    ensures root.id == ROOT && a.superIds == [b.id, ROOT, ROOT, c.id] && b.superIds == c.superIds == root.superIds == []
  {
    hide Shape;
    hide Mirrored;
    hide Above;
    a := new Kind("a");
    b := new Kind("b");
    c := new Kind("c");
    root := new Kind(ROOT);
    a.superIds := [b.id, ROOT, ROOT, c.id];
    kinds := {a, b, c, root};
    NoEdges(Snap(kinds));
    ExtendsThree(a, b, root, kinds);
    RemoveFirst(a, b, c, root, kinds);
    NothingAbove(Snap(kinds), c, a);
    a.AddSuper(c, kinds);
  }

  method ExtendsThree(a: Kind, b: Kind, root: Kind, ghost kinds: set<Kind>)
    requires a in kinds && b in kinds && root in kinds && a != b && root != a && root != b && b.id != ROOT
    requires Shape(Snap(kinds)) && Mirrored(Snap(kinds)) && forall k :: k in kinds ==> k.supers == []
    modifies kinds
    ensures Shape(Snap(kinds)) && Mirrored(Snap(kinds)) && a.supers == [b, root, root]
    ensures forall k :: k in kinds && k != a ==> k.supers == []
    ensures forall k :: k in kinds ==> k.superIds == old(k.superIds)
  {
    hide Shape;
    hide Mirrored;
    hide Above;
    NothingAbove(Snap(kinds), b, a);
    a.AddSuper(b, kinds);
    NothingAbove(Snap(kinds), root, a);
    a.AddSuper(root, kinds);
    NothingAbove(Snap(kinds), root, a);
    a.AddSuper(root, kinds);
  }

  method RemoveFirst(a: Kind, b: Kind, c: Kind, root: Kind, ghost kinds: set<Kind>)
    requires a in kinds && b in kinds && c in kinds && root in kinds && a != b && root != b && a.supers == [b, root, root]
    requires Shape(Snap(kinds)) && Mirrored(Snap(kinds)) && c.supers == []
    modifies kinds
    ensures Shape(Snap(kinds)) && Mirrored(Snap(kinds)) && a.supers == [root, root] && c.supers == []
    ensures forall k :: k in kinds ==> k.superIds == old(k.superIds)
  {
    hide Closed;
    hide Mirrored;
    hide Acyclic;
    hide Cleared;
    hide UniqueIds;
    ghost var g := Snap(kinds);
    b.ClearSupers(kinds);
    TwoLeft(g, b, Snap(kinds), a, root);
    OthersCleared(g, b, Snap(kinds), c);
  }

  lemma NoEdges(g: Graph)
    requires UniqueIds(g.Keys) && forall k :: k in g ==> g[k].supers == [] && g[k].subs == []
    ensures Shape(g) && Mirrored(g)
  {
  }

  lemma OthersCleared(g: Graph, k: Kind, h: Graph, a: Kind)
    requires Cleared(g, k, h) && a in g && g[a].supers == []
    ensures h.Keys == g.Keys && h[a].supers == []
  {
    assert forall b :: b in h[a].supers ==> b in g[a].supers;
    if |h[a].supers| > 0 {
      FirstIn(h[a].supers);
    }
  }

  lemma FirstIn(kinds: seq<Kind>)
    requires |kinds| > 0
    ensures kinds[0] in kinds
  {
  }

  // ---- the kinds of a database ----

  /** All kinds are known, by their identifiers. */
  ghost predicate Registered(known: map<string, Kind>, kinds: set<Kind>) {
    Known(known, kinds) && forall k :: k in kinds ==> k.id in known && known[k.id] == k
  }

  lemma RegisteredAt(known: map<string, Kind>, kinds: set<Kind>, id: string)
    requires Registered(known, kinds) && id in known
    ensures known[id] in kinds && known[id].id == id && Known(known, kinds)
  {
  }

  lemma RegisteredAll(known: map<string, Kind>, kinds: set<Kind>)
    requires Registered(known, kinds)
    ensures forall id :: id in known ==> known[id] in kinds && known[id].id == id
  {
  }

  lemma RegisteredMore(known: map<string, Kind>, kinds: set<Kind>, kind: Kind)
    requires Registered(known, kinds) && kind.id !in known
    ensures Known(known, kinds + {kind}) && Registered(known[kind.id := kind], kinds + {kind})
    ensures kind !in kinds && forall k :: k in kinds ==> k.id != kind.id
  {
  }

  lemma RegisteredLess(known: map<string, Kind>, kinds: set<Kind>, kind: Kind)
    requires Registered(known, kinds) && kind in kinds
    ensures Registered(known - {kind.id}, kinds - {kind})
  {
  }

  class KindEngine {
    var kinds: map<string, Kind>
    ghost var all: set<Kind>

    ghost predicate Valid()
      reads this, all
    {
      Registered(kinds, all) && Inv(Snap(all)) && forall k :: k in all ==> ROOT !in k.superIds
    }

    constructor ()
      ensures Valid() && kinds == map[]
    {
      kinds, all := map[], {};
      new;
      assert Snap(all) == map[];
    }

    /** A kind is made, or made anew, with the kinds it names above it. */
    method PutKind(id: string, superIds: seq<string>)
      requires Valid() && ROOT !in superIds
      modifies this, all
      ensures Valid() && kinds.Keys == old(kinds.Keys) + {id} && kinds[id].superIds == superIds
      ensures forall other :: other in old(kinds) ==> kinds[other] == old(kinds[other])
      ensures kinds[id].supers == SupersOf(old(kinds), Snap(all), superIds, kinds[id])
      ensures forall other :: other in old(kinds) ==>
        (kinds[id] in kinds[other].supers <==> id in kinds[other].superIds && !Above(Snap(all), kinds[id], kinds[other]))
    {
      hide Inv;
      hide SupersOf;
      hide Above;
      hide Registered;
      if id in kinds {
        RegisteredAt(kinds, all, id);
        kinds[id].UpdateSupers(kinds, superIds, all);
      } else {
        AddKind(id, superIds);
      }
      RegisteredAll(old(kinds), old(all));
    }

    /** A kind is made: it looks for others among the kinds known before it. */
    method AddKind(id: string, superIds: seq<string>)
      requires Valid() && ROOT !in superIds && id !in kinds
      modifies this, all
      ensures Valid() && id in kinds && fresh(kinds[id]) && kinds == old(kinds)[id := kinds[id]] && kinds[id].superIds == superIds
      ensures kinds[id].supers == SupersOf(old(kinds), Snap(all), superIds, kinds[id])
      ensures forall k :: k in old(all) ==>
        (kinds[id] in k.supers <==> k.id in old(kinds) && old(kinds)[k.id] == k && id in k.superIds && !Above(Snap(all), kinds[id], k))
    {
      hide Inv;
      hide Snap;
      hide SupersOf;
      hide Above;
      hide Registered;
      var kind := new Kind(id);
      RegisteredMore(kinds, all, kind);
      OneMore(Snap(all), kind, Snap(all + {kind}));
      all := all + {kind};
      var known := kinds;
      kinds := kinds[id := kind];
      kind.UpdateSupers(known, superIds, all);
    }

    /** A kind goes, with its edges. */
    method DelKind(id: string)
      requires Valid()
      modifies this, all
      ensures Valid() && kinds == old(kinds) - {id}
    {
      hide Inv;
      hide Snap;
      hide Cleared;
      hide Registered;
      if id in kinds {
        var kind := kinds[id];
        RegisteredAt(kinds, all, id);
        kind.Clear(all);
        OneLess(Snap(all), kind, Snap(all - {kind}));
        RegisteredLess(kinds, all, kind);
        all := all - {kind};
        kinds := kinds - {id};
      }
    }
  }
}
