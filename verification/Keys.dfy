/** Index keys: the least string above all that begin with a key, and ranges of keys. */
module Keys {
  import opened Bytes

  const BYTE_MAX: Byte := 0xFF

  /** The last byte that can grow grows, and what is behind it goes; nothing is left when none can. */
  function Increment(k: Bytes): Bytes {
    if |k| == 0 then []
    else
      var n := |k| - 1;
      if k[n] < BYTE_MAX then k[..n] + [k[n] + 1] else Increment(k[..n])
  }

  datatype Range = Range(lower: Bytes, upper: Bytes, group: nat)

  /** An empty bound is no bound. */
  predicate Contains(r: Range, key: Bytes) {
    (r.lower == [] || Lex(key, r.lower) >= 0) && (r.upper == [] || Lex(key, r.upper) < 0)
  }

  predicate ContainsRange(r: Range, inner: Range) {
    Contains(r, inner.lower) && (r.upper == [] || Lex(inner.upper, r.upper) <= 0)
  }

  /** The key as the database holds it: a vector that is changed in place. */
  class Key {
    var vec: Bytes

    constructor (bytes: Bytes)
      ensures vec == bytes
    {
      vec := bytes;
    }

    method IncrementKey()
      modifies this
      ensures vec == Increment(old(vec))
    {
      var iter := |vec|;
      while iter > 0
        invariant iter == |vec| && Increment(vec) == Increment(old(vec))
        decreases iter
      {
        iter := iter - 1;
        if vec[iter] < BYTE_MAX {
          vec := vec[iter := vec[iter] + 1];
          return;
        }
        vec := vec[..iter];
      }
    }
  }

  // ---- the range of a prefix ----

  lemma {:induction false} IncrementFront(k: Bytes)
    requires |k| > 0
    ensures Increment(k) == var tail := Increment(k[1..]);
      if tail != [] then [k[0]] + tail else if k[0] < BYTE_MAX then [k[0] + 1] else []
  {
    var n := |k| - 1;
    if n > 0 {
      assert k[1..][..n - 1] == k[..n][1..];
      if k[n] == BYTE_MAX {
        IncrementFront(k[..n]);
      } else {
        assert k[..n] == [k[0]] + k[..n][1..];
      }
    } else {
      assert k[..0] == [] && k[1..] == [];
    }
  }

  /**
   * The keys from `k` up to its increment are those that begin with `k`: also for a `k` of nothing
   * but the greatest byte, and for the empty one.
   */
  lemma {:induction false} PrefixRange(k: Bytes, key: Bytes, group: nat)
    ensures Contains(Range(k, Increment(k), group), key) <==> k <= key
  {
    if |k| > 0 {
      IncrementFront(k);
      if |key| > 0 && key[0] == k[0] {
        PrefixRange(k[1..], key[1..], group);
        assert key == [key[0]] + key[1..] && k == [k[0]] + k[1..];
        var u := Increment(k);
        if Increment(k[1..]) != [] {
          assert u[1..] == Increment(k[1..]);
        }
      } else if |key| > 0 && key[0] > k[0] && Increment(k) != [] {
        assert Lex(key, Increment(k)) >= 0;
      }
    }
  }

  /** The increment is above everything that begins with the key, and the least such. */
  lemma IncrementAbove(k: Bytes, key: Bytes)
    requires Increment(k) != []
    ensures Lex(key, Increment(k)) < 0 <==> Lex(key, k) < 0 || k <= key
    ensures Lex(k, Increment(k)) < 0
  {
    PrefixRange(k, key, 0);
    PrefixRange(k, k, 0);
    if Lex(key, k) < 0 {
      LexTrans(key, k, Increment(k));
    }
  }

  /** Where the tail can be incremented, the rest stays. */
  lemma {:induction false} IncrementTail(p: Bytes, e: Bytes)
    requires Increment(e) != []
    ensures Increment(p + e) == p + Increment(e)
  {
    var n := |e| - 1;
    assert (p + e)[..|p| + n] == p + e[..n];
    if e[n] == BYTE_MAX {
      IncrementTail(p, e[..n]);
    }
  }

  /** There is no increment exactly when every byte is the greatest. */
  lemma {:induction false} NoIncrement(k: Bytes)
    ensures Increment(k) == [] <==> forall i :: 0 <= i < |k| ==> k[i] == BYTE_MAX
  {
    if |k| > 0 {
      var n := |k| - 1;
      if k[n] == BYTE_MAX {
        NoIncrement(k[..n]);
        if Increment(k) == [] {
          forall i | 0 <= i < |k| ensures k[i] == BYTE_MAX {
            assert i < n ==> k[..n][i] == BYTE_MAX;
          }
        }
      }
    }
  }
}
