/** Sets of keys, and the order they are iterated in. */
module KeySets {
  import opened Bytes

  ghost function Elems(keys: seq<Bytes>): set<Bytes> { set k | k in keys }

  lemma {:induction false} LeastKey(keys: set<Bytes>) returns (least: Bytes)
    requires keys != {}
    ensures least in keys && forall k :: k in keys ==> Lex(least, k) <= 0
  {
    var some :| some in keys;
    if keys == {some} {
      LexZero(some, some);
      return some;
    }
    var other := LeastKey(keys - {some});
    LexFlip(some, other);
    LexZero(some, some);
    least := if Lex(some, other) < 0 then some else other;
    forall k | k in keys ensures Lex(least, k) <= 0 {
      if least == some && k != some {
        LexTrans(some, other, k);
      }
    }
  }

  ghost predicate AllBelow(s: seq<Bytes>, key: Bytes) {
    forall i :: 0 <= i < |s| ==> Lex(s[i], key) < 0
  }

  lemma ElemsMore(s: seq<Bytes>, key: Bytes)
    ensures Elems(s + [key]) == Elems(s) + {key}
  {
  }

  lemma AscendingMore(s: seq<Bytes>, key: Bytes)
    requires Ascending(s) && AllBelow(s, key)
    ensures Ascending(s + [key])
    ensures forall k :: Lex(key, k) < 0 ==> AllBelow(s + [key], k)
  {
    forall k | Lex(key, k) < 0 ensures AllBelow(s + [key], k) {
      BelowToo(s, key, k);
    }
  }

  lemma BelowToo(s: seq<Bytes>, key: Bytes, k: Bytes)
    requires AllBelow(s, key) && Lex(key, k) < 0
    ensures AllBelow(s, k)
  {
    forall i | 0 <= i < |s| ensures Lex(s[i], k) < 0 {
      LexTrans(s[i], key, k);
    }
  }

  /** The keys of a set in the order they are iterated in. */
  method InOrder(keys: set<Bytes>) returns (s: seq<Bytes>)
    ensures Ascending(s) && Elems(s) == keys
  {
    hide Lex;
    hide Ascending;
    s := [];
    var rest := keys;
    EmptyInOrder();
    while rest != {}
      invariant rest <= keys && Ascending(s) && Elems(s) == keys - rest
      invariant forall k :: k in rest ==> AllBelow(s, k)
      decreases |rest|
    {
      ghost var least := LeastKey(rest);
      var key: Bytes :| key in rest && forall k :: k in rest ==> Lex(key, k) <= 0;
      forall k | k in rest && k != key ensures AllBelow(s + [key], k) {
        LexZero(key, k);
        AscendingMore(s, key);
      }
      AscendingMore(s, key);
      ElemsMore(s, key);
      hide AllBelow;
      s, rest := s + [key], rest - {key};
    }
  }

  lemma EmptyInOrder()
    ensures Ascending([]) && Elems([]) == {}
    ensures forall k :: AllBelow([], k)
  {
  }

  function KeySet(keys: seq<Bytes>): (s: set<Bytes>)
    ensures s == Elems(keys)
  {
    set k | k in keys
  }

  lemma NotBefore(keys: seq<Bytes>, i: nat)
    requires Ascending(keys) && i < |keys|
    ensures keys[i] !in keys[..i]
  {
    forall j | 0 <= j < i ensures keys[..i][j] != keys[i] {
      LexZero(keys[i], keys[i]);
    }
  }

  /** There is one order to iterate in. */
  lemma {:induction false} OneOrder(a: seq<Bytes>, b: seq<Bytes>)
    requires Ascending(a) && Ascending(b) && Elems(a) == Elems(b)
    ensures a == b
    decreases |a|
  {
    NoElems(a);
    NoElems(b);
    if |a| > 0 {
      FirstOfBoth(a, b);
      RestOf(a);
      RestOf(b);
      OneOrder(a[1..], b[1..]);
    }
  }

  lemma NoElems(s: seq<Bytes>)
    ensures Elems(s) == {} <==> s == []
  {
    if |s| > 0 {
      assert s[0] in Elems(s);
    }
  }

  lemma FirstOfBoth(a: seq<Bytes>, b: seq<Bytes>)
    requires Ascending(a) && Ascending(b) && Elems(a) == Elems(b) && |a| > 0 && |b| > 0
    ensures a[0] == b[0]
  {
    assert a[0] in Elems(b) && b[0] in Elems(a);
    var i :| 0 <= i < |b| && b[i] == a[0];
    var j :| 0 <= j < |a| && a[j] == b[0];
    if i > 0 && j > 0 {
      LexFlip(a[0], b[0]);
    }
  }

  lemma RestOf(a: seq<Bytes>)
    requires Ascending(a) && |a| > 0
    ensures Ascending(a[1..]) && Elems(a[1..]) == Elems(a) - {a[0]}
  {
    LexZero(a[0], a[0]);
    assert a == [a[0]] + a[1..];
    forall k | k in Elems(a[1..]) ensures k != a[0] {
      var i :| 0 <= i < |a| - 1 && a[1..][i] == k;
      assert a[i + 1] == k;
    }
  }
}
