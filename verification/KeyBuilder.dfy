/** The key builder: every concatenation of one value from each of its sets. */
module KeyBuilder {
  import opened Bytes

  /** The values pushed for one property, in ascending order. */
  type Level = seq<Bytes>

  // ---- the product, by choices and by recursion ----

  predicate IsChoice(stack: seq<Level>, c: seq<nat>) {
    |c| == |stack| && forall i :: 0 <= i < |c| ==> c[i] < |stack[i]|
  }

  function Joined(stack: seq<Level>, c: seq<nat>): Bytes
    requires IsChoice(stack, c)
  {
    if |stack| == 0 then [] else stack[0][c[0]] + Joined(stack[1..], c[1..])
  }

  ghost predicate IsProduct(stack: seq<Level>, keys: set<Bytes>) {
    forall k :: k in keys <==> exists c :: IsChoice(stack, c) && Joined(stack, c) == k
  }

  ghost function Prefixed(v: Bytes, rest: set<Bytes>): set<Bytes> {
    set k | k in rest :: v + k
  }

  ghost function PrefixedAll(vals: Level, rest: set<Bytes>): set<Bytes> {
    if |vals| == 0 then {} else PrefixedAll(vals[..|vals| - 1], rest) + Prefixed(vals[|vals| - 1], rest)
  }

  ghost function Product(stack: seq<Level>): set<Bytes> {
    if |stack| == 0 then {[]} else PrefixedAll(stack[0], Product(stack[1..]))
  }

  lemma {:induction false} PrefixedAllHas(vals: Level, rest: set<Bytes>, k: Bytes)
    ensures k in PrefixedAll(vals, rest) <==> exists i :: 0 <= i < |vals| && k in Prefixed(vals[i], rest)
  {
    if |vals| > 0 {
      var n := |vals| - 1;
      PrefixedAllHas(vals[..n], rest, k);
      if i :| 0 <= i < n && k in Prefixed(vals[..n][i], rest) {
        assert k in Prefixed(vals[i], rest);
      }
      if i :| 0 <= i < |vals| && k in Prefixed(vals[i], rest) {
        assert i < n ==> k in Prefixed(vals[..n][i], rest);
      }
    }
  }

  /** The recursive product is what the choices yield. */
  lemma {:induction false} ProductIsProduct(stack: seq<Level>)
    ensures IsProduct(stack, Product(stack))
  {
    if |stack| == 0 {
      assert IsChoice(stack, []) && Joined(stack, []) == [];
    } else {
      var rest := Product(stack[1..]);
      ProductIsProduct(stack[1..]);
      forall k ensures k in Product(stack) <==> exists c :: IsChoice(stack, c) && Joined(stack, c) == k {
        PrefixedAllHas(stack[0], rest, k);
        if i :| 0 <= i < |stack[0]| && k in Prefixed(stack[0][i], rest) {
          var tail :| tail in rest && stack[0][i] + tail == k;
          var c :| IsChoice(stack[1..], c) && Joined(stack[1..], c) == tail;
          var all := [i] + c;
          assert all[1..] == c;
          assert IsChoice(stack, all) && Joined(stack, all) == k;
        }
        if c :| IsChoice(stack, c) && Joined(stack, c) == k {
          assert IsChoice(stack[1..], c[1..]) && Joined(stack[1..], c[1..]) in rest;
          assert k in Prefixed(stack[0][c[0]], rest);
        }
      }
    }
  }

  /** Two products of the same levels are the same set. */
  lemma OneProduct(stack: seq<Level>, keys: set<Bytes>)
    requires IsProduct(stack, keys)
    ensures keys == Product(stack)
  {
    ProductIsProduct(stack);
  }

  // ---- how many there are ----

  /** No value begins another, and none occurs twice. */
  predicate PrefixFreeLevel(vals: Level) {
    forall i, j :: 0 <= i < |vals| && 0 <= j < |vals| && i != j ==> !(vals[i] <= vals[j])
  }

  function Count(stack: seq<Level>): nat {
    if |stack| == 0 then 1 else |stack[0]| * Count(stack[1..])
  }

  lemma {:induction false} PrefixedCount(v: Bytes, rest: set<Bytes>)
    ensures |Prefixed(v, rest)| == |rest|
  {
    if rest != {} {
      var k :| k in rest;
      PrefixedCount(v, rest - {k});
      assert v + k !in Prefixed(v, rest - {k}) by {
        forall m | m in rest - {k} ensures v + m != v + k {
          assert (v + m)[|v|..] == m && (v + k)[|v|..] == k;
        }
      }
      assert Prefixed(v, rest) == Prefixed(v, rest - {k}) + {v + k};
    }
  }

  /** What begins with a value does not begin with one that differs from it. */
  lemma PrefixedApart(v: Bytes, w: Bytes, rest: set<Bytes>, k: Bytes)
    requires !(v <= w) && !(w <= v) && k in Prefixed(v, rest)
    ensures k !in Prefixed(w, rest)
  {
    var d :| 0 <= d < |v| && d < |w| && v[d] != w[d];
    var m :| m in rest && v + m == k;
    assert k[d] == v[d];
    forall m' | m' in rest ensures w + m' != k {
      assert (w + m')[d] == w[d];
    }
  }

  lemma PrefixedAllApart(vals: Level, rest: set<Bytes>, w: Bytes)
    requires forall i :: 0 <= i < |vals| ==> !(vals[i] <= w) && !(w <= vals[i])
    ensures PrefixedAll(vals, rest) !! Prefixed(w, rest)
  {
    forall k | k in PrefixedAll(vals, rest) ensures k !in Prefixed(w, rest) {
      PrefixedAllHas(vals, rest, k);
      var i :| 0 <= i < |vals| && k in Prefixed(vals[i], rest);
      PrefixedApart(vals[i], w, rest, k);
    }
  }

  lemma {:induction false} PrefixedAllCount(vals: Level, rest: set<Bytes>)
    requires PrefixFreeLevel(vals)
    ensures |PrefixedAll(vals, rest)| == |vals| * |rest|
    decreases |vals|
  {
    if |vals| > 0 {
      var n, r := |vals| - 1, |rest|;
      PrefixedAllCount(vals[..n], rest);
      PrefixedCount(vals[n], rest);
      PrefixedAllApart(vals[..n], rest, vals[n]);
      hide Prefixed;
      assert |PrefixedAll(vals[..n], rest) + Prefixed(vals[n], rest)| == n * r + r;
      assert n * r + r == (n + 1) * r;
    }
  }

  /** When no value begins another of its level, no two combinations make the same key. */
  lemma {:induction false} ProductCount(stack: seq<Level>, keys: set<Bytes>)
    requires IsProduct(stack, keys) && forall i :: 0 <= i < |stack| ==> PrefixFreeLevel(stack[i])
    ensures |keys| == Count(stack)
    decreases |stack|
  {
    OneProduct(stack, keys);
    if |stack| > 0 {
      ProductIsProduct(stack[1..]);
      ProductCount(stack[1..], Product(stack[1..]));
      PrefixedAllCount(stack[0], Product(stack[1..]));
    }
  }

  // ---- the odometer ----

  /** The choice differs first at a place up to `pos`, where it is smaller. */
  predicate Before(c: seq<nat>, iters: seq<nat>, pos: int) {
    |c| == |iters| && exists j :: 0 <= j <= pos && j < |c| && SamePrefix(c, iters, j) && c[j] < iters[j]
  }

  predicate SamePrefix(c: seq<nat>, iters: seq<nat>, j: int) {
    |c| == |iters| && j <= |c| && forall i :: 0 <= i < j ==> c[i] == iters[i]
  }

  /** The odometer has passed exactly the keys of the choices before it. */
  ghost predicate Passed(stack: seq<Level>, iters: seq<nat>, pos: int, keys: set<Bytes>) {
    && (forall c :: IsChoice(stack, c) && Before(c, iters, pos) ==> Joined(stack, c) in keys)
    && (forall k :: k in keys ==> exists c :: IsChoice(stack, c) && Before(c, iters, pos) && Joined(stack, c) == k)
  }

  predicate OnStack(stack: seq<Level>, iters: seq<nat>, pos: int) {
    && |iters| == |stack| && 0 <= pos < |stack|
    && (forall i :: 0 <= i < pos ==> iters[i] < |stack[i]|)
    && iters[pos] <= |stack[pos]|
    && (forall i :: pos < i < |stack| ==> iters[i] == 0)
  }

  lemma PassedAll(stack: seq<Level>, iters: seq<nat>, keys: set<Bytes>)
    requires OnStack(stack, iters, 0) && iters[0] == |stack[0]| && Passed(stack, iters, 0, keys)
    ensures IsProduct(stack, keys)
  {
    forall c | IsChoice(stack, c) ensures Before(c, iters, 0) {
      assert SamePrefix(c, iters, 0);
    }
  }

  lemma NothingPassed(stack: seq<Level>, iters: seq<nat>)
    requires OnStack(stack, iters, 0) && iters[0] == 0
    ensures Passed(stack, iters, 0, {})
  {
  }

  lemma BeforePop(c: seq<nat>, iters: seq<nat>, pos: int, iters': seq<nat>)
    requires |c| == |iters| && 0 < pos < |iters| && c[pos] < iters[pos]
    requires iters' == iters[pos := 0][pos - 1 := iters[pos - 1] + 1]
    ensures Before(c, iters, pos) <==> Before(c, iters', pos - 1)
  {
    if Before(c, iters, pos) {
      var j :| 0 <= j <= pos && j < |c| && SamePrefix(c, iters, j) && c[j] < iters[j];
      var j' := if j == pos then pos - 1 else j;
      assert SamePrefix(c, iters', j') && c[j'] < iters'[j'];
    }
    if Before(c, iters', pos - 1) {
      var j :| 0 <= j <= pos - 1 && j < |c| && SamePrefix(c, iters', j) && c[j] < iters'[j];
      var j' := if c[j] == iters[j] then pos else j;
      assert SamePrefix(c, iters, j') && c[j'] < iters[j'];
    }
  }

  lemma BeforeNext(c: seq<nat>, iters: seq<nat>, pos: int, iters': seq<nat>)
    requires |c| == |iters| && pos == |iters| - 1 >= 0
    requires iters' == iters[pos := iters[pos] + 1]
    ensures Before(c, iters', pos) <==> Before(c, iters, pos) || c == iters
  {
    if Before(c, iters', pos) {
      var j :| 0 <= j <= pos && j < |c| && SamePrefix(c, iters', j) && c[j] < iters'[j];
      assert SamePrefix(c, iters, j);
      assert c[j] < iters[j] || c == iters;
    }
    if Before(c, iters, pos) {
      var j :| 0 <= j <= pos && j < |c| && SamePrefix(c, iters, j) && c[j] < iters[j];
      assert SamePrefix(c, iters', j) && c[j] < iters'[j];
    }
    if c == iters {
      assert SamePrefix(c, iters', pos) && c[pos] < iters'[pos];
    }
  }

  /** Going up a level: what has passed is what the level below had passed in full. */
  lemma PopPasses(stack: seq<Level>, iters: seq<nat>, pos: int, keys: set<Bytes>, iters': seq<nat>)
    requires OnStack(stack, iters, pos) && pos > 0 && iters[pos] == |stack[pos]| && Passed(stack, iters, pos, keys)
    requires iters' == iters[pos := 0][pos - 1 := iters[pos - 1] + 1]
    ensures OnStack(stack, iters', pos - 1) && Passed(stack, iters', pos - 1, keys)
  {
    hide Joined;
    forall c | IsChoice(stack, c) ensures Before(c, iters, pos) <==> Before(c, iters', pos - 1) {
      BeforePop(c, iters, pos, iters');
    }
    hide Before;
  }

  /** Going down a level: nothing is before its first value. */
  lemma PushPasses(stack: seq<Level>, iters: seq<nat>, pos: int, keys: set<Bytes>)
    requires OnStack(stack, iters, pos) && pos + 1 < |stack| && iters[pos] < |stack[pos]| && Passed(stack, iters, pos, keys)
    ensures OnStack(stack, iters, pos + 1) && Passed(stack, iters, pos + 1, keys)
  {
    hide Joined;
    forall c | IsChoice(stack, c) ensures Before(c, iters, pos) <==> Before(c, iters, pos + 1) {
      if Before(c, iters, pos + 1) {
        var j :| 0 <= j <= pos + 1 && j < |c| && SamePrefix(c, iters, j) && c[j] < iters[j];
        assert j <= pos;
      }
    }
  }

  lemma KeyPasses(stack: seq<Level>, iters: seq<nat>, pos: int, keys: set<Bytes>, iters': seq<nat>)
    requires OnStack(stack, iters, pos) && pos == |stack| - 1 && iters[pos] < |stack[pos]| && Passed(stack, iters, pos, keys)
    requires iters' == iters[pos := iters[pos] + 1]
    ensures IsChoice(stack, iters)
    ensures OnStack(stack, iters', pos) && Passed(stack, iters', pos, keys + {Joined(stack, iters)})
  {
    hide Joined;
    hide Before;
    forall c | IsChoice(stack, c) ensures Before(c, iters', pos) <==> Before(c, iters, pos) || c == iters {
      BeforeNext(c, iters, pos, iters');
    }
    assert Before(iters, iters', pos);
  }

  // ---- it stops ----

  /** The value of a level as a digit: nothing, or one more than its iterator. */
  function Digit(iters: seq<nat>, pos: int, i: nat): nat
    requires i < |iters|
  {
    if i <= pos then iters[i] + 1 else 0
  }

  function Radix(stack: seq<Level>, i: nat): nat
    requires i <= |stack|
    decreases |stack| - i
  {
    if i == |stack| then 1 else (|stack[i]| + 2) * Radix(stack, i + 1)
  }

  /** The odometer as a number. */
  function Reading(stack: seq<Level>, iters: seq<nat>, pos: int, i: nat): nat
    requires |iters| == |stack| && i <= |stack|
    decreases |stack| - i
  {
    if i == |stack| then 0 else Digit(iters, pos, i) * Radix(stack, i + 1) + Reading(stack, iters, pos, i + 1)
  }

  lemma {:induction false} ReadingBound(stack: seq<Level>, iters: seq<nat>, pos: int, i: nat)
    requires OnStack(stack, iters, pos) && i <= |stack|
    ensures Reading(stack, iters, pos, i) < Radix(stack, i)
    decreases |stack| - i
  {
    if i < |stack| {
      ReadingBound(stack, iters, pos, i + 1);
      var d, r := Digit(iters, pos, i), Radix(stack, i + 1);
      assert d <= |stack[i]| + 1;
      assert d * r + r == (d + 1) * r;
      Times(d + 1, |stack[i]| + 2, r);
    }
  }

  lemma Times(a: nat, b: nat, r: nat)
    requires a <= b
    ensures a * r <= b * r
  {
    assert b * r == a * r + (b - a) * r;
  }

  /** The first digit that differs decides. */
  lemma {:induction false} ReadingGrows(stack: seq<Level>, iters: seq<nat>, pos: int, iters': seq<nat>, pos': int, j: nat, i: nat)
    requires OnStack(stack, iters, pos) && OnStack(stack, iters', pos') && i <= j < |stack|
    requires forall k :: 0 <= k < j ==> Digit(iters, pos, k) == Digit(iters', pos', k)
    requires Digit(iters, pos, j) < Digit(iters', pos', j)
    ensures Reading(stack, iters, pos, i) < Reading(stack, iters', pos', i)
    decreases j - i
  {
    var d, d', r := Digit(iters, pos, i), Digit(iters', pos', i), Radix(stack, i + 1);
    hide Digit;
    if i == j {
      ReadingBound(stack, iters, pos, i + 1);
      hide OnStack;
      hide Radix;
      Carry(d, d', r, Reading(stack, iters, pos, i + 1), Reading(stack, iters', pos', i + 1));
    } else {
      ReadingGrows(stack, iters, pos, iters', pos', j, i + 1);
      hide OnStack;
      hide Radix;
      assert d == d';
    }
  }

  lemma Carry(d: nat, d': nat, r: nat, x: nat, y: nat)
    requires d < d' && x < r
    ensures d * r + x < d' * r + y
  {
    assert d * r + r == (d + 1) * r;
    Times(d + 1, d', r);
  }

  class Builder {
    var stack: seq<Level>
    var iters: seq<nat>

    constructor ()
      ensures stack == []
    {
      stack, iters := [], [];
    }

    method Push(vals: Level)
      requires Ascending(vals)
      modifies this
      ensures stack == old(stack) + [vals]
    {
      stack, iters := stack + [vals], iters + [0];
    }

    /** The key of the values the iterators stand at. */
    method Key() returns (key: Bytes)
      requires IsChoice(stack, iters)
      ensures key == Joined(stack, iters)
    {
      key := [];
      for i := 0 to |stack|
        invariant key + Joined(stack[i..], iters[i..]) == Joined(stack, iters)
      {
        assert stack[i..][1..] == stack[i + 1..] && iters[i..][1..] == iters[i + 1..];
        key := key + stack[i][iters[i]];
      }
    }

    /** All combinations, without recursion; none at all when nothing was pushed. */
    method Keys() returns (keys: set<Bytes>)
      modifies `iters
      ensures |stack| == 0 ==> keys == {}
      ensures |stack| > 0 ==> IsProduct(stack, keys)
    {
      hide Passed;
      hide Radix;
      hide Reading;
      keys := {};
      if |stack| == 0 {
        return;
      }
      iters := seq(|stack|, i => 0);
      var pos, last := 0, |stack| - 1;
      NothingPassed(stack, iters);
      while true
        invariant OnStack(stack, iters, pos) && Passed(stack, iters, pos, keys)
        decreases Radix(stack, 0) - Reading(stack, iters, pos, 0)
      {
        ReadingBound(stack, iters, pos, 0);
        ghost var was, at := iters, pos;
        if iters[pos] == |stack[pos]| {
          if pos == 0 {
            break;
          }
          iters := iters[pos := 0];
          pos := pos - 1;
          iters := iters[pos := iters[pos] + 1];
          PopPasses(stack, was, at, keys, iters);
        } else if pos == last {
          KeyPasses(stack, was, pos, keys, iters[pos := iters[pos] + 1]);
          var key := Key();
          keys := keys + {key};
          iters := iters[pos := iters[pos] + 1];
        } else {
          PushPasses(stack, iters, pos, keys);
          pos := pos + 1;
        }
        ReadingGrows(stack, was, at, iters, pos, pos, 0);
      }
      PassedAll(stack, iters, keys);
    }
  }
}
