/** The hash table: buckets that grow, a list through all nodes, and nodes shared until one owner writes. */
module HashTable {
  import opened HashLists

  const FILL_FACTOR := 2
  const INITIAL_SIZE := 8

  /** The nodes of one or more tables. */
  class Impl {
    const hash: string -> nat
    var buckets: array<Node?>
    var begin: Node?
    var size: nat
    var refcount: nat
    ghost var order: seq<Node>
    ghost var chains: seq<seq<Node>>
    ghost var nodes: set<Node>

    ghost predicate Valid()
      reads `buckets, `begin, `size, `order, `chains, `nodes, buckets, nodes
    {
      && nodes == Members(order) && size == |order| <= FILL_FACTOR * buckets.Length
      && Listed(Snap(nodes), order, begin) && KeysApart(order)
      && Hung(hash, Snap(nodes), chains, buckets[..], order)
    }

    ghost function Repr(): set<object>
      reads this
    {
      {this, buckets} + nodes
    }

    ghost function Contents(): map<string, int>
      requires nodes == Members(order)
      reads `order, `nodes, nodes
    {
      MapOf(EntriesOf(Snap(nodes), order))
    }

    /** With some buckets, and no nodes. */
    constructor (hash: string -> nat, numBuckets: nat)
      requires numBuckets > 0
      ensures Valid() && order == [] && nodes == {} && this.hash == hash && buckets.Length == numBuckets && refcount == 1
      ensures fresh(buckets) && Contents() == map[]
    {
      this.hash := hash;
      buckets := new Node?[numBuckets](_ => null);
      begin, size, refcount := null, 0, 1;
      order, chains, nodes := [], seq(numBuckets, _ => []), {};
    }

    /** A node goes to the front of the chain of a bucket. */
    method Insert(idx: nat, node: Node)
      requires idx < buckets.Length
      modifies buckets, node`bucketNext
      ensures buckets[..] == old(buckets[..])[idx := node] && node.bucketNext == old(buckets[idx])
    {
      node.bucketNext := buckets[idx];
      buckets[idx] := node;
    }

    /** A node leaves the chain of a bucket: the cell that points at it points at the next one. */
    method Remove(idx: nat, node: Node, ghost j: nat)
      requires idx < buckets.Length == |chains| && Chain(Snap(nodes), chains[idx], buckets[idx])
      requires j < |chains[idx]| && chains[idx][j] == node
      modifies buckets, nodes`bucketNext
      ensures buckets[..] == old(buckets[..])[idx := if j == 0 then At(chains[idx], 1) else old(buckets[idx])]
      ensures Unchained(old(Snap(nodes)), chains[idx], j, Snap(nodes))
    {
      ghost var chain := chains[idx];
      ghost var k := 0;
      var before: Node?, here := null, buckets[idx];
      while here != node
        invariant k <= j && here == chain[k] && before == At(chain, k - 1) && (k == 0 <==> before == null)
        decreases j - k
      {
        before, here, k := here, here.bucketNext, k + 1;
      }
      assert k == j && node.bucketNext == At(chain, j + 1);
      if before == null {
        buckets[idx] := node.bucketNext;
      } else {
        before.bucketNext := node.bucketNext;
      }
      node.bucketNext := null;
    }

    /** A node with a new key goes to the front of its bucket and of the list. */
    method Put(node: Node, idx: nat)
      requires Valid() && node !in nodes && size < FILL_FACTOR * buckets.Length && idx == Bucket(hash, node.key, buckets.Length)
      requires forall n :: n in nodes ==> n.key != node.key
      modifies this`begin, this`size, this`order, this`nodes, this`chains, buckets
      modifies nodes`iterRef, node`bucketNext, node`iterNext, node`iterRef
      ensures Valid() && order == [node] + old(order) && nodes == old(nodes) + {node}
      ensures Contents() == old(Contents())[node.key := node.val]
    {
      hide Snap;
      hide Listed;
      hide Hung;
      hide Bucket;
      hide KeysApart;
      hide MapOf;
      ghost var was := Snap(nodes);
      KeysMore(order, node);
      PutInBucket(node, idx);
      ghost var h := Snap(nodes + {node});
      PutInList(node);
      HungSame(hash, h, chains, buckets[..], order, Snap(nodes));
      MapWith(was, old(order), node, Snap(nodes));
    }

    method PutInBucket(node: Node, idx: nat)
      requires nodes == Members(order) && Listed(Snap(nodes), order, begin) && Hung(hash, Snap(nodes), chains, buckets[..], order)
      requires node !in nodes && idx == Bucket(hash, node.key, buckets.Length)
      modifies this`chains, buckets, node`bucketNext
      ensures Listed(Snap(nodes), order, begin) && Hung(hash, Snap(nodes + {node}), chains, buckets[..], [node] + order)
    {
      hide Snap;
      hide Listed;
      hide Hung;
      hide Bucket;
      ghost var h := Snap(nodes);
      HungSizes(hash, h, chains, buckets[..], order);
      Insert(idx, node);
      chains := chains[idx := [node] + chains[idx]];
      ListedSame(h, order, begin, Snap(nodes));
      HungMore(hash, h, old(chains), old(buckets[..]), order, node, idx, Snap(nodes + {node}), [node] + order);
    }

    method PutInList(node: Node)
      requires nodes == Members(order) && node !in nodes && size == |order| && Listed(Snap(nodes), order, begin)
      modifies this`begin, this`size, this`order, this`nodes, nodes`iterRef, node`iterRef, node`iterNext
      ensures nodes == old(nodes) + {node} && nodes == Members(order) && order == [node] + old(order) && size == |order|
      ensures Listed(Snap(nodes), order, begin)
    {
      hide Snap;
      hide Listed;
      hide Distinct;
      hide At;
      ghost var h := Snap(nodes);
      ListedBegin(h, order, begin);
      if begin != null {
        begin.iterRef := NextCell(node);
      }
      node.iterNext := begin;
      node.iterRef := BeginCell;
      begin := node;
      size := size + 1;
      order, nodes := [node] + order, nodes + {node};
      ListedFirst(h, old(order), old(begin), node, Snap(nodes));
    }

    /** Takes out the node of a bucket that has a key. */
    method Del(node: Node, idx: nat, ghost i: nat)
      requires Valid() && i < |order| && order[i] == node && idx == Bucket(hash, node.key, buckets.Length)
      modifies this`begin, this`size, this`order, this`nodes, this`chains, buckets
      modifies nodes`bucketNext, nodes`iterNext, nodes`iterRef
      ensures Valid() && order == Less(old(order), i) && nodes == old(nodes) - {node}
      ensures Contents() == old(Contents()) - {node.key}
    {
      hide Listed;
      hide Hung;
      hide Bucket;
      hide KeysApart;
      hide Less;
      hide MapOf;
      ghost var h := Snap(nodes);
      KeysLess(order, i);
      DelFromBucket(node, idx, i);
      DelFromList(node, i);
      assert forall n :: n in order ==> n in nodes;
      MapWithout(h, old(order), i, Snap(nodes));
    }

    method DelFromBucket(node: Node, idx: nat, ghost i: nat)
      requires nodes == Members(order) && Listed(Snap(nodes), order, begin) && Hung(hash, Snap(nodes), chains, buckets[..], order)
      requires i < |order| && order[i] == node && idx == Bucket(hash, node.key, buckets.Length)
      modifies this`chains, buckets, nodes`bucketNext
      ensures Listed(Snap(nodes), order, begin) && Hung(hash, Snap(nodes), chains, buckets[..], Less(order, i))
    {
      hide Listed;
      hide Hung;
      hide Bucket;
      hide Chain;
      hide Less;
      hide At;
      hide Unchained;
      ghost var h := Snap(nodes);
      HungSizes(hash, h, chains, buckets[..], order);
      ghost var j := InChain(hash, h, chains, buckets[..], order, node, idx);
      Remove(idx, node, j);
      UnchainedKeeps(hash, h, chains, old(buckets[..]), order, begin, i, idx, j, Snap(nodes), buckets[idx]);
      chains := chains[idx := Less(chains[idx], j)];
    }

    method DelFromList(node: Node, ghost i: nat)
      requires nodes == Members(order) && size == |order| && Listed(Snap(nodes), order, begin) && i < |order| && order[i] == node
      requires Hung(hash, Snap(nodes), chains, buckets[..], Less(order, i))
      modifies this`begin, this`size, this`order, this`nodes, nodes`iterRef, nodes`iterNext
      ensures nodes == old(nodes) - {node} && nodes == Members(order) && order == Less(old(order), i) && size == |order|
      ensures Listed(Snap(nodes), order, begin) && Hung(hash, Snap(nodes), chains, buckets[..], order)
    {
      hide Listed;
      hide Hung;
      hide Less;
      hide Members;
      hide Skipped;
      ghost var h := Snap(nodes);
      LessMembers(h, order, begin, i);
      Skip(node, i);
      SkippedKeeps(h, order, old(begin), i, Snap(nodes), begin);
      ghost var h' := Snap(nodes);
      size := size - 1;
      order, nodes := Less(order, i), nodes - {node};
      ListedSame(h', order, begin, Snap(nodes));
      HungSame(hash, h, chains, buckets[..], order, Snap(nodes));
    }

    /** The cell that points at a node points at the next one. */
    method Skip(node: Node, ghost i: nat)
      requires Listed(Snap(nodes), order, begin) && i < |order| && order[i] == node
      modifies this`begin, nodes`iterRef, nodes`iterNext
      ensures Skipped(old(Snap(nodes)), old(begin), node, Snap(nodes), begin)
    {
      hide Snap;
      hide Listed;
      hide Distinct;
      ListedAround(Snap(nodes), order, begin, i);
      match node.iterRef {
        case BeginCell => begin := node.iterNext;
        case NextCell(before) => before.iterNext := node.iterNext;
      }
      if node.iterNext != null {
        node.iterNext.iterRef := node.iterRef;
      }
    }

    /** The node of a key, and its bucket. */
    method Find(key: string) returns (node: Node?, idx: nat)
      requires Valid()
      ensures buckets.Length > 0 && idx == Bucket(hash, key, buckets.Length)
      ensures node != null ==> node in nodes && node.key == key
      ensures node == null ==> forall n :: n in nodes ==> n.key != key
    {
      hide Listed;
      hide Bucket;
      hide KeysApart;
      hide Hung;
      hide Distinct;
      hide Chain;
      ghost var h := Snap(nodes);
      HungSizes(hash, h, chains, buckets[..], order);
      idx := Bucket(hash, key, buckets.Length);
      ghost var chain := chains[idx];
      InBucket(hash, h, chains, buckets[..], order, key, idx);
      ChainBegin(h, chain, buckets[idx]);
      node := buckets[idx];
      ghost var j := 0;
      while node != null
        invariant j <= |chain| && node == At(chain, j) && forall k :: 0 <= k < j ==> chain[k].key != key
        decreases |chain| - j
      {
        ChainAt(h, chain, buckets[idx], j);
        if node.key == key {
          return;
        }
        node, j := node.bucketNext, j + 1;
      }
      forall n | n in nodes ensures n.key != key {
        assert n.key == key ==> n in chain;
      }
    }

    /** New buckets, with all nodes in those of their keys. */
    method Realloc(numBuckets: nat)
      requires Valid() && size <= FILL_FACTOR * numBuckets && numBuckets > 0
      modifies this`buckets, this`chains, nodes`bucketNext
      ensures Valid() && fresh(buckets) && buckets.Length == numBuckets && Contents() == old(Contents())
    {
      hide Listed;
      hide Bucket;
      hide KeysApart;
      hide Hung;
      hide Distinct;
      hide ListedAt;
      hide MapOf;
      ghost var was := Snap(nodes);
      buckets := new Node?[numBuckets](_ => null);
      chains := seq(numBuckets, _ => []);
      NoneHung(hash, Snap(nodes), chains, buckets[..]);
      RehangAll();
      EntriesSame(was, order, Snap(nodes));
    }

    /** All nodes of the list go to their new buckets. */
    method RehangAll()
      requires nodes == Members(order) && Listed(Snap(nodes), order, begin) && Hung(hash, Snap(nodes), chains, buckets[..], [])
      modifies this`chains, buckets, nodes`bucketNext
      ensures Listed(Snap(nodes), order, begin) && Hung(hash, Snap(nodes), chains, buckets[..], order)
    {
      hide Listed;
      hide Bucket;
      hide Hung;
      hide Distinct;
      hide ListedAt;
      ListedBegin(Snap(nodes), order, begin);
      var node := begin;
      ghost var i := 0;
      while node != null
        invariant i <= |order| && node == At(order, i)
        invariant Listed(Snap(nodes), order, begin) && Hung(hash, Snap(nodes), chains, buckets[..], order[..i])
        decreases |order| - i
      {
        ListedAround(Snap(nodes), order, begin, i);
        Rehang(node, i);
        node, i := node.iterNext, i + 1;
      }
      assert order[..i] == order;
    }

    /** The next node of the list goes to its new bucket. */
    method Rehang(node: Node, ghost i: nat)
      requires i < |order| && order[i] == node && Distinct(order)
      requires nodes == Members(order) && Listed(Snap(nodes), order, begin) && Hung(hash, Snap(nodes), chains, buckets[..], order[..i])
      modifies this`chains, buckets, node`bucketNext
      ensures Listed(Snap(nodes), order, begin) && Hung(hash, Snap(nodes), chains, buckets[..], order[..i + 1])
    {
      hide Snap;
      hide Listed;
      hide Bucket;
      hide Hung;
      hide Distinct;
      ghost var h := Snap(nodes);
      HungSizes(hash, h, chains, buckets[..], order[..i]);
      ListedNext(order, i);
      node.bucketNext := null;
      var idx := Bucket(hash, node.key, buckets.Length);
      Insert(idx, node);
      ListedSame(h, order, begin, Snap(nodes));
      HungMore(hash, h, chains, old(buckets[..]), order[..i], node, idx, Snap(nodes), order[..i + 1]);
      chains := chains[idx := [node] + chains[idx]];
    }
  
    /** Another value for a key. */
    method SetValue(node: Node, val: int)
      requires Valid() && node in nodes
      modifies node`val
      ensures Valid() && Contents() == old(Contents())[node.key := val]
    {
      hide Listed;
      hide Hung;
      hide KeysApart;
      hide MapOf;
      ghost var h := Snap(nodes);
      ghost var i :| 0 <= i < |order| && order[i] == node;
      node.val := val;
      ListedSame(h, order, begin, Snap(nodes));
      HungSame(hash, h, chains, buckets[..], order, Snap(nodes));
      MapSet(h, order, i, Snap(nodes));
    }

    /** The nodes are the entries of the map. */
    lemma NodesAre(key: string)
      requires Valid()
      ensures nodes == Members(order) && (key in Contents() <==> exists n :: n in nodes && n.key == key)
      ensures forall n :: n in nodes && n.key == key ==> key in Contents() && Contents()[key] == n.val
    {
      hide Listed;
      hide Hung;
      hide MapOf;
      hide KeysApart;
      MapKeys(Snap(nodes), order, key);
    }

    lemma SizeIs()
      requires Valid()
      ensures nodes == Members(order) && size == |Contents()| <= FILL_FACTOR * buckets.Length && buckets.Length > 0
    {
      EntriesApart(Snap(nodes), order);
      MapSize(EntriesOf(Snap(nodes), order));
    }

    /** A map of the same size with the entries of all nodes is the same. */
    lemma AllIn(other: map<string, int>)
      requires Valid() && |Contents()| == |other|
      requires forall k :: 0 <= k < |order| ==> order[k].key in other && other[order[k].key] == order[k].val
      ensures Contents() == other
    {
      forall key | key in Contents() ensures key in other && other[key] == Contents()[key] {
        NodesAre(key);
        var n :| n in nodes && n.key == key;
        var k :| 0 <= k < |order| && order[k] == n;
      }
      SameMaps(Contents(), other);
    }

    lemma Holds(node: Node)
      requires Valid() && node in nodes
      ensures nodes == Members(order) && node.key in Contents() && Contents()[node.key] == node.val
    {
      NodesAre(node.key);
    }

    lemma PlaceOf(node: Node) returns (i: nat)
      requires Valid() && node in nodes
      ensures i < |order| && order[i] == node
    {
      i :| 0 <= i < |order| && order[i] == node;
    }

    lemma ValidFacts()
      requires Valid()
      ensures nodes == Members(order) && size == |order| <= FILL_FACTOR * buckets.Length && buckets.Length > 0
      ensures Listed(Snap(nodes), order, begin) && KeysApart(order)
      ensures forall n :: n in nodes <==> n in order
    {
    }

    /** So far, this has the last entries of another table, the first of them last. */
    ghost predicate Mirrors(other: seq<Node>, i: nat)
      requires i <= |other|
      reads nodes, other, this
    {
      |order| == i && nodes == Members(order) &&
      forall k :: 0 <= k < i ==> order[k].key == other[i - 1 - k].key && order[k].val == other[i - 1 - k].val
    }

    /** The same keys and values on nodes of their own, which are listed in the other order. */
    method Clone() returns (copy: Impl)
      requires Valid()
      ensures copy.Valid() && fresh(copy.Repr()) && copy.hash == hash && copy.refcount == 1 && copy.Contents() == Contents()
    {
      hide Valid;
      hide Listed;
      hide ListedAt;
      hide Distinct;
      hide KeysApart;
      hide MapOf;
      hide Mirrors;
      ValidFacts();
      ListedBegin(Snap(nodes), order, begin);
      copy := new Impl(hash, buckets.Length);
      NoneMirrored(copy);
      var node := begin;
      ghost var i := 0;
      while node != null
        invariant i <= |order| && node == At(order, i) && copy.hash == hash && copy.buckets.Length == buckets.Length
        invariant copy.Valid() && fresh(copy.Repr()) && copy.refcount == 1 && copy.Mirrors(order, i)
        decreases |order| - i
      {
        ListedAround(Snap(nodes), order, begin, i);
        CloneNode(copy, node, i);
        node, i := node.iterNext, i + 1;
      }
      MirrorsAll(copy);
    }

    lemma NoneMirrored(copy: Impl)
      requires copy.Valid() && copy.order == []
      ensures copy.Mirrors(order, 0)
    {
    }

    /** The copy gets a node for the next one of the list. */
    method CloneNode(copy: Impl, node: Node, ghost i: nat)
      requires this != copy && nodes == Members(order) && |order| <= FILL_FACTOR * copy.buckets.Length && KeysApart(order)
      requires i < |order| && order[i] == node && copy.hash == hash && copy.Valid() && copy.Mirrors(order, i)
      requires forall n :: n in order ==> n !in copy.nodes
      modifies copy`begin, copy`size, copy`order, copy`nodes, copy`chains, copy.buckets, copy.nodes`iterRef
      ensures copy.Valid() && copy.Mirrors(order, i + 1) && fresh(copy.nodes - old(copy.nodes))
    {
      hide Valid;
      hide Listed;
      hide KeysApart;
      copy.ValidFacts();
      NotMirrored(copy, i);
      var mine := new Node(node.key, node.val);
      ghost var was := copy.order;
      copy.Put(mine, Bucket(hash, node.key, copy.buckets.Length));
      copy.ValidFacts();
      MirrorsMore(copy, was, mine, i);
    }

    lemma NotMirrored(copy: Impl, i: nat)
      requires i < |order| && KeysApart(order) && copy.Mirrors(order, i)
      ensures |copy.order| == i && forall n :: n in copy.order ==> n.key != order[i].key
    {
      forall n | n in copy.order ensures n.key != order[i].key {
        var k :| 0 <= k < i && copy.order[k] == n;
      }
    }

    lemma MirrorsMore(copy: Impl, was: seq<Node>, mine: Node, i: nat)
      requires i < |order| && |was| == i && copy.order == [mine] + was && copy.nodes == Members(copy.order)
      requires mine.key == order[i].key && mine.val == order[i].val
      requires forall k :: 0 <= k < i ==> was[k].key == order[i - 1 - k].key && was[k].val == order[i - 1 - k].val
      ensures copy.Mirrors(order, i + 1)
    {
    }

    lemma MirrorsAll(copy: Impl)
      requires Valid() && copy.Valid() && copy.Mirrors(order, |order|)
      ensures copy.Contents() == Contents()
    {
      hide Valid;
      hide Listed;
      hide MapOf;
      hide Apart;
      hide KeysApart;
      ValidFacts();
      copy.ValidFacts();
      var a, b := EntriesOf(Snap(nodes), order), EntriesOf(Snap(copy.nodes), copy.order);
      EntriesApart(Snap(nodes), order);
      MapReversed(a, b);
    }
  }

  function Max(a: nat, b: nat): nat { if a > b then a else b }

  /** A map of its own to its user, though its nodes may be those of other tables too. */
  class Table {
    const hash: string -> nat
    var impl: Impl?

    ghost function Repr(): set<object>
      reads this, impl
    {
      if impl == null then {} else impl.Repr()
    }

    ghost function Owned(): set<Impl>
      reads this
    {
      if impl == null then {} else {impl}
    }

    ghost predicate Valid()
      reads this, impl, Repr()
    {
      impl != null ==> impl.hash == hash && impl.refcount > 0 && impl.Valid()
    }

    ghost function Contents(): map<string, int>
      requires Valid()
      reads this, impl, Repr()
    {
      if impl == null then map[] else impl.Contents()
    }

    /** The nodes are those of other tables too. */
    ghost predicate Shared()
      reads this, impl
    {
      impl != null && impl.refcount > 1
    }

    constructor (hash: string -> nat)
      ensures Valid() && Contents() == map[] && this.hash == hash
    {
      this.hash, impl := hash, null;
    }

    function Size(): nat
      reads this, impl
    {
      if impl == null then 0 else impl.size
    }

    /** A table with the same nodes. */
    constructor Copy(other: Table)
      requires other.Valid()
      modifies other.Owned()`refcount
      ensures Valid() && hash == other.hash && impl == other.impl && Contents() == old(other.Contents())
      ensures other.Valid() && other.Contents() == old(other.Contents()) && (impl != null ==> Shared())
    {
      hash, impl := other.hash, other.impl;
      new;
      if impl != null {
        impl.refcount := impl.refcount + 1;
      }
    }

    /** The nodes become those of this table alone. */
    method EnsureWritable()
      requires Valid()
      modifies this`impl, Owned()`refcount
      ensures Valid() && Contents() == old(Contents()) && !Shared() && (impl == null <==> old(impl == null))
      ensures !old(Shared()) ==> impl == old(impl) && (impl != null ==> unchanged(impl))
      ensures old(Shared()) ==> fresh(Repr()) && old(impl).Valid() && old(impl).Contents() == old(Contents())
      ensures old(Shared()) ==> old(impl).refcount == old(impl.refcount) - 1
    {
      hide Impl.Valid;
      hide Impl.Contents;
      hide MapOf;
      if impl != null && impl.refcount > 1 {
        var mine := impl.Clone();
        impl.refcount := impl.refcount - 1;
        impl := mine;
      }
    }

    method Get(key: string) returns (found: bool, val: int)
      requires Valid()
      ensures found <==> key in Contents()
      ensures found ==> val == Contents()[key]
    {
      hide Impl.Valid;
      hide Impl.Contents;
      hide MapOf;
      SizeIs();
      if impl == null || impl.size == 0 {
        return false, 0;
      }
      impl.NodesAre(key);
      var node, _ := impl.Find(key);
      if node == null {
        return false, 0;
      }
      return true, node.val;
    }

    lemma SizeIs()
      requires Valid()
      ensures Size() == |Contents()|
    {
      if impl != null {
        impl.SizeIs();
      }
    }

    /** A key gets a value: that of its node changes, or there is a node more. */
    method Put(key: string, val: int)
      requires Valid()
      modifies this, Repr()
      ensures Valid() && Contents() == old(Contents())[key := val] && !Shared()
      ensures old(Shared()) ==> old(impl).Valid() && old(impl).Contents() == old(Contents()) && old(impl).refcount == old(impl.refcount) - 1
    {
      hide Impl.Valid;
      hide Impl.Contents;
      hide MapOf;
      EnsureWritable();
      SizeIs();
      var node: Node?, idx := null, 0;
      if impl != null && impl.size > 0 {
        impl.NodesAre(key);
        node, idx := impl.Find(key);
      }
      if node != null {
        impl.SetValue(node, val);
      } else {
        PutNew(key, val, idx);
      }
    }

    /** Puts a new key in, after there are buckets enough. */
    method PutNew(key: string, val: int, idx: nat)
      requires Valid() && !Shared() && key !in Contents()
      requires Size() > 0 ==> impl.buckets.Length > 0 && idx == Bucket(hash, key, impl.buckets.Length)
      modifies this`impl, Repr()
      ensures Valid() && !Shared() && Contents() == old(Contents())[key := val]
      ensures impl == old(impl) || fresh(impl)
    {
      hide Impl.Valid;
      hide Impl.Contents;
      hide MapOf;
      if impl != null {
        impl.SizeIs();
      }
      var numBuckets, at := 0, idx;
      if Size() > 0 {
        numBuckets := impl.buckets.Length;
      }
      if Size() >= numBuckets * FILL_FACTOR {
        Realloc(Max(INITIAL_SIZE, numBuckets * 2));
        at := Bucket(hash, key, impl.buckets.Length);
      }
      impl.NodesAre(key);
      impl.SizeIs();
      var node := new Node(key, val);
      impl.Put(node, at);
    }

    method Realloc(numBuckets: nat)
      requires Valid() && !Shared() && Size() <= FILL_FACTOR * numBuckets && numBuckets > 0
      modifies this`impl, Repr()
      ensures Valid() && !Shared() && Contents() == old(Contents()) && impl != null && impl.buckets.Length == numBuckets
      ensures Size() == old(Size()) && fresh(Repr() - old(Repr()))
    {
      hide Impl.Valid;
      hide Impl.Contents;
      hide MapOf;
      if impl == null {
        impl := new Impl(hash, numBuckets);
      } else {
        impl.Realloc(numBuckets);
      }
    }

    /** A key and its value go. */
    method Del(key: string) returns (found: bool)
      requires Valid()
      modifies this, Repr()
      ensures Valid() && Contents() == old(Contents()) - {key} && !Shared() && (found <==> key in old(Contents()))
      ensures old(Shared()) ==> old(impl).Valid() && old(impl).Contents() == old(Contents()) && old(impl).refcount == old(impl.refcount) - 1
    {
      hide Impl.Valid;
      hide Impl.Contents;
      hide MapOf;
      EnsureWritable();
      found := DelOwn(key);
    }

    method DelOwn(key: string) returns (found: bool)
      requires Valid() && !Shared()
      modifies Repr()
      ensures Valid() && Contents() == old(Contents()) - {key} && !Shared() && (found <==> key in old(Contents()))
    {
      hide Impl.Valid;
      hide Impl.Contents;
      hide MapOf;
      SizeIs();
      if impl == null || impl.size == 0 {
        return false;
      }
      impl.NodesAre(key);
      var node, idx := impl.Find(key);
      found := node != null;
      if node != null {
        ghost var i := impl.PlaceOf(node);
        impl.Del(node, idx, i);
      }
    }

    /** The nodes are let go. */
    method Clear()
      requires Valid()
      modifies this`impl, Owned()`refcount
      ensures Valid() && Contents() == map[] && (old(Shared()) ==> old(impl).refcount == old(impl.refcount) - 1)
    {
      if impl != null {
        impl.refcount := impl.refcount - 1;
      }
      impl := null;
    }

    /** Two tables of one size are the same when each key of the one has its value in the other. */
    method Equals(other: Table) returns (equal: bool)
      requires Valid() && other.Valid()
      ensures equal <==> Contents() == other.Contents()
    {
      hide Impl.Valid;
      hide Impl.Contents;
      hide MapOf;
      SizeIs();
      other.SizeIs();
      if Size() != other.Size() {
        return false;
      }
      if impl == other.impl {
        return true;
      }
      if impl == null || other.impl == null {
        return true;
      }
      equal := EqualNodes(other);
    }

    method EqualNodes(other: Table) returns (equal: bool)
      requires Valid() && other.Valid() && impl != null && other.impl != null && |Contents()| == |other.Contents()|
      ensures equal <==> Contents() == other.Contents()
    {
      hide Impl.Valid;
      hide Impl.Contents;
      hide MapOf;
      hide Listed;
      hide KeysApart;
      hide Distinct;
      hide ListedAt;
      hide Members;
      ghost var order, theirs := impl.order, other.Contents();
      impl.ValidFacts();
      ListedBegin(Snap(impl.nodes), order, impl.begin);
      var node := impl.begin;
      ghost var i := 0;
      while node != null
        invariant i <= |order| && node == At(order, i)
        invariant forall k :: 0 <= k < i ==> order[k].key in theirs && theirs[order[k].key] == order[k].val
        decreases |order| - i
      {
        ListedAround(Snap(impl.nodes), order, impl.begin, i);
        impl.Holds(node);
        var found, val := other.Get(node.key);
        if !found || val != node.val {
          return false;
        }
        node, i := node.iterNext, i + 1;
      }
      impl.AllIn(theirs);
      equal := true;
    }
  }

  lemma SameMaps(a: map<string, int>, b: map<string, int>)
    requires |a| == |b| && forall key :: key in a ==> key in b && b[key] == a[key]
    ensures a == b
  {
    assert a.Keys <= b.Keys;
    if exists key :: key in b && key !in a {
      var key :| key in b && key !in a;
      assert a.Keys <= b.Keys - {key};
      FewerKeys(a.Keys, b.Keys - {key});
    }
  }

  lemma {:induction false} FewerKeys(a: set<string>, b: set<string>)
    requires a <= b
    ensures |a| <= |b|
    decreases a
  {
    if a != {} {
      var key :| key in a;
      FewerKeys(a - {key}, b - {key});
    }
  }

  /** A copy keeps what the table had when one of them changes, though they had the same nodes. */
  method CopyKeeps(table: Table, key: string, val: int) returns (copy: Table)
    requires table.Valid()
    modifies table, table.Repr()
    ensures table.Valid() && table.Contents() == old(table.Contents())[key := val]
    ensures copy.Valid() && copy.Contents() == old(table.Contents())
  {
    hide Impl.Valid;
    hide Impl.Contents;
    copy := new Table.Copy(table);
    table.Put(key, val);
  }
}
