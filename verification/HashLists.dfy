/** The lists that run through the nodes of a hash table: one chain a bucket, and one through them all.

    What the nodes hold is seen through a snapshot, a map from nodes to cells, so that what an
    operation does to the lists is a statement about two snapshots. */
module HashLists {

  /** The cell that points at a node: that of the table, or that of the node before it. */
  datatype Ref = NoCell | BeginCell | NextCell(node: Node)

  datatype Cell = Cell(val: int, bucketNext: Node?, iterNext: Node?, iterRef: Ref)

  type Heap = map<Node, Cell>

  class Node {
    const key: string
    var val: int
    var bucketNext: Node?
    var iterNext: Node?
    var iterRef: Ref

    constructor (key: string, val: int)
      ensures this.key == key && this.val == val && Now() == Cell(val, null, null, NoCell)
    {
      this.key, this.val := key, val;
      bucketNext, iterNext, iterRef := null, null, NoCell;
    }

    ghost function Now(): Cell
      reads this
    {
      Cell(val, bucketNext, iterNext, iterRef)
    }
  }

  ghost function Snap(nodes: set<Node>): (h: Heap)
    reads nodes
    ensures h.Keys == nodes && forall n :: n in nodes ==> h[n] == n.Now()
  {
    map n | n in nodes :: n.Now()
  }

  ghost function At(s: seq<Node>, i: int): Node? { if 0 <= i < |s| then s[i] else null }

  ghost function Members(s: seq<Node>): set<Node> { set n | n in s }

  // ---- the list through all nodes ----

  ghost predicate Distinct(s: seq<Node>) { forall i, j :: 0 <= i < j < |s| ==> s[i] != s[j] }

  /** The cell that points at a node of the list. */
  ghost function RefAt(order: seq<Node>, i: nat): Ref
    requires i <= |order|
  {
    if i == 0 then BeginCell else NextCell(order[i - 1])
  }

  /** A node points at the next one, and knows the cell that points at it. */
  ghost predicate ListedAt(h: Heap, order: seq<Node>, i: nat)
    requires i < |order|
  {
    order[i] in h && h[order[i]].iterNext == At(order, i + 1) && h[order[i]].iterRef == RefAt(order, i)
  }

  ghost predicate Listed(h: Heap, order: seq<Node>, begin: Node?) {
    begin == At(order, 0) && Distinct(order) && forall i :: 0 <= i < |order| ==> ListedAt(h, order, i)
  }

  lemma ListedBegin(h: Heap, order: seq<Node>, begin: Node?)
    requires Listed(h, order, begin)
    ensures begin == At(order, 0) && (begin != null ==> begin in order) && Distinct(order)
  {
  }

  /** A node of the list and those around it. */
  lemma ListedAround(h: Heap, order: seq<Node>, begin: Node?, i: nat)
    requires Listed(h, order, begin) && i < |order|
    ensures begin == At(order, 0) && Distinct(order) && order[i] in h
    ensures h[order[i]].iterNext == At(order, i + 1) && h[order[i]].iterRef == RefAt(order, i)
    ensures i > 0 ==> order[i - 1] != order[i]
    ensures i > 0 ==> order[i - 1] in h
    ensures i + 1 < |order| ==> order[i + 1] in h && order[i + 1] != order[i] && (i > 0 ==> order[i + 1] != order[i - 1])
  {
    assert ListedAt(h, order, i);
    assert i > 0 ==> ListedAt(h, order, i - 1);
    assert i + 1 < |order| ==> ListedAt(h, order, i + 1);
  }

  /** A node comes first. */
  lemma ListedFirst(h: Heap, order: seq<Node>, begin: Node?, node: Node, h': Heap)
    requires Listed(h, order, begin) && node !in order && h'.Keys == h.Keys + {node}
    requires h'[node].iterNext == begin && h'[node].iterRef == BeginCell
    requires forall n :: n in h && n != node ==>
      h'[n].iterNext == h[n].iterNext && h'[n].iterRef == if n == begin then NextCell(node) else h[n].iterRef
    ensures Listed(h', [node] + order, node)
  {
    var order' := [node] + order;
    forall i | 0 <= i < |order'| ensures ListedAt(h', order', i) {
      if i > 0 {
        assert order'[i] == order[i - 1] && ListedAt(h, order, i - 1);
      } else if |order| > 0 {
        assert ListedAt(h, order, 0);
      }
    }
  }

  /** A sequence without the element at some place. */
  function Less<T>(s: seq<T>, i: nat): seq<T>
    requires i < |s|
  {
    s[..i] + s[i + 1..]
  }

  lemma LessDistinct(s: seq<Node>, i: nat)
    requires i < |s| && Distinct(s)
    ensures Distinct(Less(s, i)) && forall n :: n in Less(s, i) <==> n in s && n != s[i]
  {
    var t := Less(s, i);
    assert forall k :: 0 <= k < |t| ==> t[k] == s[if k < i then k else k + 1];
    assert s == s[..i] + [s[i]] + s[i + 1..];
  }

  /** What taking a node out does to another one: the cell that pointed at it points at the next one. */
  ghost predicate Unlinked(h: Heap, node: Node, n: Node, h': Heap) {
    && n in h && n in h' && node in h
    && h'[n].iterNext == (if h[node].iterRef == NextCell(n) then h[node].iterNext else h[n].iterNext)
    && h'[n].iterRef == (if n == h[node].iterNext then h[node].iterRef else h[n].iterRef)
  }

  lemma UnlinkedBefore(h: Heap, order: seq<Node>, i: nat, h': Heap, j: nat)
    requires Distinct(order) && j < i < |order| && ListedAt(h, order, i) && ListedAt(h, order, j)
    requires Unlinked(h, order[i], order[j], h')
    ensures ListedAt(h', Less(order, i), j)
  {
    assert order[j] != At(order, i + 1);
    assert order[j] == order[i - 1] <==> j == i - 1;
  }

  lemma UnlinkedBehind(h: Heap, order: seq<Node>, i: nat, h': Heap, j: nat)
    requires Distinct(order) && i <= j < |order| - 1 && ListedAt(h, order, i) && ListedAt(h, order, j + 1)
    requires Unlinked(h, order[i], order[j + 1], h')
    ensures ListedAt(h', Less(order, i), j)
  {
    var less := Less(order, i);
    assert less[j] == order[j + 1] && At(less, j + 1) == At(order, j + 2);
    assert i > 0 ==> order[j + 1] != order[i - 1];
    assert order[j + 1] == order[i + 1] <==> j == i;
    assert j > i ==> less[j - 1] == order[j];
  }

  /** A node is taken out: the cell that pointed at it points at the next one. */
  lemma ListedLess(h: Heap, order: seq<Node>, begin: Node?, i: nat, h': Heap, begin': Node?)
    requires Listed(h, order, begin) && i < |order|
    requires begin' == if i == 0 then At(order, 1) else begin
    requires forall n :: n in order && n != order[i] ==> Unlinked(h, order[i], n, h')
    ensures Listed(h', Less(order, i), begin')
  {
    LessDistinct(order, i);
    forall j | 0 <= j < |order| - 1 ensures ListedAt(h', Less(order, i), j) {
      if j < i {
        assert order[j] in order && order[j] != order[i];
        UnlinkedBefore(h, order, i, h', j);
      } else {
        assert order[j + 1] in order && order[j + 1] != order[i];
        UnlinkedBehind(h, order, i, h', j);
      }
    }
    hide Unlinked;
    hide ListedAt;
  }

  lemma LessMembers(h: Heap, order: seq<Node>, begin: Node?, i: nat)
    requires Listed(h, order, begin) && i < |order|
    ensures Members(Less(order, i)) == Members(order) - {order[i]} && |Less(order, i)| == |order| - 1
    ensures forall n :: n in Less(order, i) ==> n in order && n in h && n != order[i]
    ensures h.Keys == Members(order) ==> forall n :: n in Less(order, i) ==> n in h.Keys - {order[i]}
  {
    LessDistinct(order, i);
    ListedMembers(h, order, begin);
  }

  /** The statements that take a node out of the list. */
  ghost predicate Skipped(h: Heap, begin: Node?, node: Node, h': Heap, begin': Node?) {
    && h'.Keys == h.Keys && node in h
    && begin' == (if h[node].iterRef.BeginCell? then h[node].iterNext else begin)
    && forall n :: n in h && n != node ==> Unlinked(h, node, n, h')
  }

  lemma SkippedKeeps(h: Heap, order: seq<Node>, begin: Node?, i: nat, h': Heap, begin': Node?)
    requires Listed(h, order, begin) && i < |order| && Skipped(h, begin, order[i], h', begin')
    ensures Listed(h', Less(order, i), begin')
  {
    ListedMembers(h, order, begin);
    assert ListedAt(h, order, i);
    hide Unlinked;
    ListedLess(h, order, begin, i, h', begin');
  }

  lemma ListedSame(h: Heap, order: seq<Node>, begin: Node?, h': Heap)
    requires Listed(h, order, begin)
    requires forall n :: n in order ==> n in h && n in h' && h'[n].iterNext == h[n].iterNext && h'[n].iterRef == h[n].iterRef
    ensures Listed(h', order, begin)
  {
    forall i | 0 <= i < |order| ensures ListedAt(h', order, i) {
      assert ListedAt(h, order, i) && order[i] in order;
    }
  }

  // ---- the chains ----

  ghost predicate Chain(h: Heap, chain: seq<Node>, first: Node?) {
    && first == At(chain, 0) && Distinct(chain)
    && forall j :: 0 <= j < |chain| ==> chain[j] in h && h[chain[j]].bucketNext == At(chain, j + 1)
  }

  ghost predicate Chained(h: Heap, chains: seq<seq<Node>>, firsts: seq<Node?>) {
    |chains| == |firsts| && forall b :: 0 <= b < |chains| ==> Chain(h, chains[b], firsts[b])
  }

  lemma ChainSame(h: Heap, chain: seq<Node>, first: Node?, h': Heap)
    requires Chain(h, chain, first) && forall n :: n in chain ==> n in h' && h'[n].bucketNext == h[n].bucketNext
    ensures Chain(h', chain, first)
  {
  }

  lemma ChainFirst(h: Heap, chain: seq<Node>, first: Node?, node: Node, h': Heap)
    requires Chain(h, chain, first) && node !in chain && node in h' && h'[node].bucketNext == first
    requires forall n :: n in chain ==> n in h' && h'[n].bucketNext == h[n].bucketNext
    ensures Chain(h', [node] + chain, node)
  {
    var chain' := [node] + chain;
    forall j | 0 <= j < |chain'| ensures chain'[j] in h' && h'[chain'[j]].bucketNext == At(chain', j + 1) {
      if j > 0 {
        assert chain'[j] == chain[j - 1];
      }
    }
  }

  lemma ChainLess(h: Heap, chain: seq<Node>, first: Node?, i: nat, h': Heap, first': Node?)
    requires Chain(h, chain, first) && i < |chain|
    requires first' == if i == 0 then At(chain, 1) else first
    requires forall n :: n in chain && n != chain[i] ==>
      n in h' && h'[n].bucketNext == if i > 0 && n == chain[i - 1] then At(chain, i + 1) else h[n].bucketNext
    ensures Chain(h', Less(chain, i), first')
  {
    var chain' := Less(chain, i);
    LessDistinct(chain, i);
    forall j | 0 <= j < |chain'| ensures chain'[j] in h' && h'[chain'[j]].bucketNext == At(chain', j + 1) {
      assert chain'[j] == chain[if j < i then j else j + 1];
    }
  }

  /** Only the chain of one bucket changes. */
  lemma ChainedBut(h: Heap, chains: seq<seq<Node>>, firsts: seq<Node?>, h': Heap, b: nat, chain: seq<Node>, first: Node?)
    requires Chained(h, chains, firsts) && b < |chains| && Chain(h', chain, first)
    requires forall c, n :: 0 <= c < |chains| && c != b && n in chains[c] ==> n in h' && h'[n].bucketNext == h[n].bucketNext
    ensures Chained(h', chains[b := chain], firsts[b := first])
  {
    forall c | 0 <= c < |chains| && c != b ensures Chain(h', chains[c], firsts[c]) {
      ChainSame(h, chains[c], firsts[c], h');
    }
  }

  // ---- each node in the bucket of its key ----

  function Bucket(hash: string -> nat, key: string, n: nat): (b: nat)
    requires n > 0
    ensures b < n
  {
    hash(key) % n
  }

  ghost predicate Placed(hash: string -> nat, chains: seq<seq<Node>>, order: seq<Node>) {
    && |chains| > 0
    && (forall b, n :: 0 <= b < |chains| && n in chains[b] ==> n in order && Bucket(hash, n.key, |chains|) == b)
    && (forall n :: n in order ==> n in chains[Bucket(hash, n.key, |chains|)])
  }

  lemma PlacedMore(hash: string -> nat, chains: seq<seq<Node>>, order: seq<Node>, node: Node, b: nat, order': seq<Node>)
    requires Placed(hash, chains, order) && b == Bucket(hash, node.key, |chains|)
    requires forall n :: n in order' <==> n in order || n == node
    ensures Placed(hash, chains[b := [node] + chains[b]], order')
  {
    var chains' := chains[b := [node] + chains[b]];
    forall c, n | 0 <= c < |chains'| && n in chains'[c] ensures n in order' && Bucket(hash, n.key, |chains'|) == c {
      assert n == node || n in chains[c];
    }
  }

  lemma PlacedLess(hash: string -> nat, chains: seq<seq<Node>>, order: seq<Node>, node: Node, b: nat, i: nat, j: nat)
    requires Placed(hash, chains, order) && i < |order| && node == order[i] && b == Bucket(hash, node.key, |chains|)
    requires j < |chains[b]| && chains[b][j] == node
    requires Distinct(order) && Distinct(chains[b])
    ensures Placed(hash, chains[b := Less(chains[b], j)], Less(order, i))
  {
    var chain' := Less(chains[b], j);
    var chains', order' := chains[b := chain'], Less(order, i);
    LessDistinct(order, i);
    LessDistinct(chains[b], j);
    assert |chains'| == |chains|;
    forall c, n | 0 <= c < |chains'| && n in chains'[c] ensures n in order' && Bucket(hash, n.key, |chains'|) == c {
      assert n in chains[c];
      assert Bucket(hash, n.key, |chains|) == c && n != node;
    }
    forall n | n in order' ensures n in chains'[Bucket(hash, n.key, |chains'|)] {
      assert n in order && n != node;
      assert n in chains[Bucket(hash, n.key, |chains|)];
    }
  }

  ghost predicate Hung(hash: string -> nat, h: Heap, chains: seq<seq<Node>>, firsts: seq<Node?>, order: seq<Node>) {
    Chained(h, chains, firsts) && Placed(hash, chains, order)
  }

  lemma HungSizes(hash: string -> nat, h: Heap, chains: seq<seq<Node>>, firsts: seq<Node?>, order: seq<Node>)
    requires Hung(hash, h, chains, firsts, order)
    ensures |chains| == |firsts| > 0
  {
  }

  /** The nodes of the other chains are others. */
  lemma OtherChains(hash: string -> nat, chains: seq<seq<Node>>, order: seq<Node>, b: nat)
    requires Placed(hash, chains, order) && b < |chains|
    ensures forall n :: n in chains[b] ==> n in order
    ensures forall c, n :: 0 <= c < |chains| && c != b && n in chains[c] ==> n in order && n !in chains[b]
  {
    hide Bucket;
  }

  lemma HungMore(hash: string -> nat, h: Heap, chains: seq<seq<Node>>, firsts: seq<Node?>, order: seq<Node>, node: Node, b: nat,
                 h': Heap, order': seq<Node>)
    requires Hung(hash, h, chains, firsts, order) && |chains| == |firsts| > b
    requires b == Bucket(hash, node.key, |chains|) && node !in order && node in h' && h'[node].bucketNext == firsts[b]
    requires forall n :: n in order ==> n in h' && n in h && h'[n].bucketNext == h[n].bucketNext
    requires forall n :: n in order' <==> n in order || n == node
    ensures Hung(hash, h', chains[b := [node] + chains[b]], firsts[b := node], order')
  {
    hide Bucket;
    hide Chain;
    hide Placed;
    OtherChains(hash, chains, order, b);
    PlacedMore(hash, chains, order, node, b, order');
    ChainFirst(h, chains[b], firsts[b], node, h');
    ChainedBut(h, chains, firsts, h', b, [node] + chains[b], node);
  }

  lemma HungLess(hash: string -> nat, h: Heap, chains: seq<seq<Node>>, firsts: seq<Node?>, order: seq<Node>, i: nat, b: nat, j: nat,
                 h': Heap, first: Node?)
    requires Hung(hash, h, chains, firsts, order) && i < |order| && b < |chains| == |firsts| && j < |chains[b]|
    requires chains[b][j] == order[i] && b == Bucket(hash, order[i].key, |chains|)
    requires Distinct(order) && first == if j == 0 then At(chains[b], 1) else firsts[b]
    requires forall n :: n in order && n != order[i] ==>
      n in h' && n in h && (h'[n].bucketNext == if j > 0 && n == chains[b][j - 1] then At(chains[b], j + 1) else h[n].bucketNext)
    ensures Hung(hash, h', chains[b := Less(chains[b], j)], firsts[b := first], Less(order, i))
  {
    hide Bucket;
    hide Placed;
    hide Chain;
    hide At;
    hide Distinct;
    hide Less;
    ChainDistinct(h, chains[b], firsts[b]);
    OtherChains(hash, chains, order, b);
    assert order[i] in chains[b];
    PlacedLess(hash, chains, order, order[i], b, i, j);
    ChainLess(h, chains[b], firsts[b], j, h', first);
    forall c, n | 0 <= c < |chains| && c != b && n in chains[c] ensures n in h' && h'[n].bucketNext == h[n].bucketNext {
      assert n in order && n != order[i];
    }
    ChainedBut(h, chains, firsts, h', b, Less(chains[b], j), first);
  }

  /** What taking a node out of a chain does to the others. */
  ghost predicate Unchained(h: Heap, chain: seq<Node>, j: nat, h': Heap)
    requires j < |chain|
  {
    && h'.Keys == h.Keys
    && (forall n :: n in h ==> h'[n] == h[n].(bucketNext := h'[n].bucketNext))
    && (forall n :: n in h && n != chain[j] ==>
      h'[n].bucketNext == if j > 0 && n == chain[j - 1] then At(chain, j + 1) else h[n].bucketNext)
  }

  lemma UnchainedKeeps(hash: string -> nat, h: Heap, chains: seq<seq<Node>>, firsts: seq<Node?>, order: seq<Node>, begin: Node?,
                       i: nat, b: nat, j: nat, h': Heap, first: Node?)
    requires Listed(h, order, begin) && Hung(hash, h, chains, firsts, order) && i < |order| && b < |chains| == |firsts|
    requires j < |chains[b]| && chains[b][j] == order[i] && b == Bucket(hash, order[i].key, |chains|)
    requires Unchained(h, chains[b], j, h') && first == if j == 0 then At(chains[b], 1) else firsts[b]
    ensures Listed(h', order, begin) && Hung(hash, h', chains[b := Less(chains[b], j)], firsts[b := first], Less(order, i))
  {
    ListedMembers(h, order, begin);
    hide Hung;
    hide Bucket;
    hide Less;
    ListedSame(h, order, begin, h');
    hide Listed;
    hide At;
    HungLess(hash, h, chains, firsts, order, i, b, j, h', first);
  }

  lemma ListedMembers(h: Heap, order: seq<Node>, begin: Node?)
    requires Listed(h, order, begin)
    ensures Distinct(order) && forall n :: n in order ==> n in h
  {
    forall n | n in order ensures n in h {
      var i :| 0 <= i < |order| && order[i] == n;
      assert ListedAt(h, order, i);
    }
  }

  lemma HungSame(hash: string -> nat, h: Heap, chains: seq<seq<Node>>, firsts: seq<Node?>, order: seq<Node>, h': Heap)
    requires Hung(hash, h, chains, firsts, order) && forall n :: n in order ==> n in h' && n in h && h'[n].bucketNext == h[n].bucketNext
    ensures Hung(hash, h', chains, firsts, order)
  {
    forall b | 0 <= b < |chains| ensures Chain(h', chains[b], firsts[b]) {
      OtherChains(hash, chains, order, b);
      ChainSame(h, chains[b], firsts[b], h');
    }
    hide Chain;
  }

  lemma ChainDistinct(h: Heap, chain: seq<Node>, first: Node?)
    requires Chain(h, chain, first)
    ensures Distinct(chain)
  {
  }

  /** A node is in the chain of its bucket. */
  lemma InChain(hash: string -> nat, h: Heap, chains: seq<seq<Node>>, firsts: seq<Node?>, order: seq<Node>, node: Node, b: nat)
    returns (j: nat)
    requires Hung(hash, h, chains, firsts, order) && |chains| == |firsts| > 0 && node in order && b == Bucket(hash, node.key, |chains|)
    ensures j < |chains[b]| && chains[b][j] == node && Chain(h, chains[b], firsts[b])
  {
    assert node in chains[b];
    j :| 0 <= j < |chains[b]| && chains[b][j] == node;
  }

  /** The nodes of a key are in the chain of its bucket. */
  lemma InBucket(hash: string -> nat, h: Heap, chains: seq<seq<Node>>, firsts: seq<Node?>, order: seq<Node>, key: string, b: nat)
    requires Hung(hash, h, chains, firsts, order) && |chains| == |firsts| > 0 && b == Bucket(hash, key, |chains|)
    ensures forall n :: n in order && n.key == key ==> n in chains[b]
    ensures Chain(h, chains[b], firsts[b]) && forall n :: n in chains[b] ==> n in order && n in h
  {
    hide Bucket;
    hide Chain;
    OtherChains(hash, chains, order, b);
    ChainMembers(h, chains[b], firsts[b]);
    forall n | n in order && n.key == key ensures n in chains[b] {
      assert n in chains[Bucket(hash, n.key, |chains|)];
    }
  }

  lemma ChainAt(h: Heap, chain: seq<Node>, first: Node?, j: nat)
    requires Chain(h, chain, first) && j < |chain|
    ensures chain[j] in h && h[chain[j]].bucketNext == At(chain, j + 1) && chain[j] in chain
  {
  }

  lemma ChainBegin(h: Heap, chain: seq<Node>, first: Node?)
    requires Chain(h, chain, first)
    ensures first == At(chain, 0)
  {
  }

  lemma ChainMembers(h: Heap, chain: seq<Node>, first: Node?)
    requires Chain(h, chain, first)
    ensures forall n :: n in chain ==> n in h
  {
    forall n | n in chain ensures n in h {
      var j :| 0 <= j < |chain| && chain[j] == n;
    }
  }

  lemma NoneHung(hash: string -> nat, h: Heap, chains: seq<seq<Node>>, firsts: seq<Node?>)
    requires |chains| == |firsts| > 0 && forall b :: 0 <= b < |chains| ==> chains[b] == [] && firsts[b] == null
    ensures Hung(hash, h, chains, firsts, [])
  {
  }

  lemma ListedNext(order: seq<Node>, i: nat)
    requires i < |order| && Distinct(order)
    ensures order[i] !in order[..i] && forall n :: n in order[..i + 1] <==> n in order[..i] || n == order[i]
  {
    assert order[..i + 1] == order[..i] + [order[i]];
  }

  // ---- entries ----

  type Entries = seq<(string, int)>

  ghost function EntriesOf(h: Heap, order: seq<Node>): Entries
    requires forall n :: n in order ==> n in h
  {
    seq(|order|, i requires 0 <= i < |order| => (order[i].key, h[order[i]].val))
  }

  ghost predicate KeysApart(order: seq<Node>) {
    forall i, j :: 0 <= i < j < |order| ==> order[i].key != order[j].key
  }

  lemma KeysMore(order: seq<Node>, node: Node)
    requires KeysApart(order) && forall n :: n in order ==> n.key != node.key
    ensures KeysApart([node] + order)
  {
  }

  lemma KeysLess(order: seq<Node>, i: nat)
    requires KeysApart(order) && i < |order|
    ensures KeysApart(Less(order, i)) && |Less(order, i)| == |order| - 1
  {
    assert forall j :: 0 <= j < |order| - 1 ==> Less(order, i)[j] == order[if j < i then j else j + 1];
  }

  /** The keys and values, as a map. */
  function MapOf(entries: Entries): map<string, int> {
    if |entries| == 0 then map[] else MapOf(entries[1..])[entries[0].0 := entries[0].1]
  }

  ghost predicate Apart(entries: Entries) {
    forall i, j :: 0 <= i < j < |entries| ==> entries[i].0 != entries[j].0
  }

  /** A map has the entries it was made of, and no others. */
  lemma {:induction false} MapHas(entries: Entries, key: string)
    requires Apart(entries)
    ensures key in MapOf(entries) <==> exists i :: 0 <= i < |entries| && entries[i].0 == key
    ensures forall i :: 0 <= i < |entries| && entries[i].0 == key ==> key in MapOf(entries) && MapOf(entries)[key] == entries[i].1
  {
    if |entries| > 0 {
      var rest := entries[1..];
      MapHas(rest, key);
      forall i | 0 <= i < |entries| && entries[i].0 == key ensures key in MapOf(entries) && MapOf(entries)[key] == entries[i].1 {
        if i > 0 {
          assert rest[i - 1] == entries[i] && entries[0].0 != key;
        }
      }
      if key in MapOf(rest) {
        var j :| 0 <= j < |rest| && rest[j].0 == key;
        assert entries[j + 1].0 == key;
      }
    }
  }

  /** Entries with the same members make the same map. */
  lemma MapSame(a: Entries, b: Entries)
    requires Apart(a) && Apart(b) && forall e :: e in a <==> e in b
    ensures MapOf(a) == MapOf(b)
  {
    forall key ensures key in MapOf(a) <==> key in MapOf(b)
      ensures key in MapOf(a) ==> MapOf(a)[key] == MapOf(b)[key]
    {
      MapHas(a, key);
      MapHas(b, key);
      if key in MapOf(a) {
        var i :| 0 <= i < |a| && a[i].0 == key;
        assert a[i] in b;
        var j :| 0 <= j < |b| && b[j] == a[i];
      }
      if key in MapOf(b) {
        var i :| 0 <= i < |b| && b[i].0 == key;
        assert b[i] in a;
      }
    }
  }

  lemma {:induction false} MapSize(entries: Entries)
    requires Apart(entries)
    ensures |MapOf(entries)| == |entries|
  {
    if |entries| > 0 {
      MapSize(entries[1..]);
      MapHas(entries[1..], entries[0].0);
      var rest := MapOf(entries[1..]);
      assert entries[0].0 !in rest;
      assert MapOf(entries).Keys == rest.Keys + {entries[0].0};
      assert |MapOf(entries).Keys| == |rest.Keys| + 1;
    }
  }

  lemma PutMinus(m: map<string, int>, key: string, val: int, other: string)
    ensures key !in m ==> m[key := val] - {key} == m
    ensures key != other ==> (m - {other})[key := val] == m[key := val] - {other}
  {
  }

  lemma {:induction false} MapLess(entries: Entries, i: nat)
    requires Apart(entries) && i < |entries|
    ensures MapOf(Less(entries, i)) == MapOf(entries) - {entries[i].0}
  {
    var less, rest := Less(entries, i), entries[1..];
    PutMinus(MapOf(rest), entries[0].0, entries[0].1, entries[i].0);
    if i == 0 {
      assert less == rest;
      MapHas(rest, entries[0].0);
    } else {
      MapLess(rest, i - 1);
      assert less[1..] == Less(rest, i - 1) && less[0] == entries[0] && rest[i - 1] == entries[i];
    }
  }

  lemma {:induction false} MapChanged(entries: Entries, i: nat, val: int)
    requires Apart(entries) && i < |entries|
    ensures Apart(entries[i := (entries[i].0, val)])
    ensures MapOf(entries[i := (entries[i].0, val)]) == MapOf(entries)[entries[i].0 := val]
  {
    var key := entries[i].0;
    var changed := entries[i := (key, val)];
    if i > 0 {
      MapChanged(entries[1..], i - 1, val);
      assert changed[1..] == entries[1..][i - 1 := (key, val)];
      assert entries[0].0 != key;
    } else {
      assert changed[1..] == entries[1..];
    }
  }

  // ---- entries of lists ----

  lemma EntriesApart(h: Heap, order: seq<Node>)
    requires KeysApart(order) && forall n :: n in order ==> n in h
    ensures Apart(EntriesOf(h, order))
  {
  }

  /** The same values make the same entries. */
  lemma EntriesSame(h: Heap, order: seq<Node>, h': Heap)
    requires forall n :: n in order ==> n in h && n in h' && h'[n].val == h[n].val
    ensures EntriesOf(h', order) == EntriesOf(h, order)
  {
  }

  /** A node in front adds its key to the map. */
  lemma MapWith(h: Heap, order: seq<Node>, node: Node, h': Heap)
    requires forall n :: n in order ==> n in h && n in h' && h'[n].val == h[n].val
    requires node in h'
    ensures MapOf(EntriesOf(h', [node] + order)) == MapOf(EntriesOf(h, order))[node.key := h'[node].val]
  {
    assert EntriesOf(h', [node] + order)[1..] == EntriesOf(h, order);
  }

  /** Without a node the map is without its key. */
  lemma MapWithout(h: Heap, order: seq<Node>, i: nat, h': Heap)
    requires KeysApart(order) && i < |order|
    requires forall n :: n in order ==> n in h
    requires forall n :: n in Less(order, i) ==> n in h' && n in h && h'[n].val == h[n].val
    ensures MapOf(EntriesOf(h', Less(order, i))) == MapOf(EntriesOf(h, order)) - {order[i].key}
  {
    EntriesApart(h, order);
    MapLess(EntriesOf(h, order), i);
    forall j | 0 <= j < |order| - 1 ensures EntriesOf(h', Less(order, i))[j] == Less(EntriesOf(h, order), i)[j] {
      assert Less(order, i)[j] in Less(order, i);
    }
    assert EntriesOf(h', Less(order, i)) == Less(EntriesOf(h, order), i);
  }

  /** With another value the map has that value under its key. */
  lemma MapSet(h: Heap, order: seq<Node>, i: nat, h': Heap)
    requires KeysApart(order) && i < |order|
    requires forall n :: n in order ==> n in h && n in h' && (n != order[i] ==> h'[n].val == h[n].val)
    ensures MapOf(EntriesOf(h', order)) == MapOf(EntriesOf(h, order))[order[i].key := h'[order[i]].val]
  {
    EntriesApart(h, order);
    MapChanged(EntriesOf(h, order), i, h'[order[i]].val);
    assert EntriesOf(h', order) == EntriesOf(h, order)[i := (order[i].key, h'[order[i]].val)];
  }

  /** The map has the keys of the nodes, with their values. */
  lemma MapKeys(h: Heap, order: seq<Node>, key: string)
    requires KeysApart(order) && forall n :: n in order ==> n in h
    ensures key in MapOf(EntriesOf(h, order)) <==> exists n :: n in order && n.key == key
    ensures forall n :: n in order && n.key == key ==>
      key in MapOf(EntriesOf(h, order)) && MapOf(EntriesOf(h, order))[key] == h[n].val
  {
    var entries := EntriesOf(h, order);
    EntriesApart(h, order);
    MapHas(entries, key);
    hide MapOf;
    forall n | n in order && n.key == key ensures key in MapOf(entries) && MapOf(entries)[key] == h[n].val {
      var i :| 0 <= i < |order| && order[i] == n;
      assert entries[i].0 == key;
    }
    if key in MapOf(entries) {
      var i :| 0 <= i < |entries| && entries[i].0 == key;
      assert order[i] in order && order[i].key == key;
    }
  }

  /** Entries in the other order make the same map. */
  lemma MapReversed(a: Entries, b: Entries)
    requires Apart(a) && |b| == |a| && forall k :: 0 <= k < |a| ==> b[k] == a[|a| - 1 - k]
    ensures MapOf(b) == MapOf(a)
  {
    forall e ensures e in a <==> e in b {
      if e in a {
        var k :| 0 <= k < |a| && a[k] == e;
        assert b[|a| - 1 - k] == e;
      }
    }
    MapSame(a, b);
  }
}
