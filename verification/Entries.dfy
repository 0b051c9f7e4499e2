/** The entries of an index: the key of the index and of a value for each of its properties. */
module Entries {
  import opened Bytes
  import opened Values
  import opened ValueOrder
  import opened KeyBuilder

  function Suffix(vals: seq<Value>): Bytes {
    if |vals| == 0 then [] else Encode(vals[0]) + Suffix(vals[1..])
  }

  /** The entry of an object in an index: the index, then a value for each property. */
  function EntryKey(id: Value, vals: seq<Value>): Bytes { Encode(id) + Suffix(vals) }

  predicate AllPlain(vals: seq<Value>) {
    forall i :: 0 <= i < |vals| ==> Plain(vals[i])
  }

  /** Keys begin with other keys only if their values do. */
  lemma {:induction false} SuffixBegins(vals: seq<Value>, some: seq<Value>)
    requires AllPlain(vals) && AllPlain(some) && |some| <= |vals|
    ensures Suffix(some) <= Suffix(vals) <==> some <= vals
    decreases |some|
  {
    if |some| > 0 {
      var a, b, x, y := Encode(vals[0]), Encode(some[0]), Suffix(vals[1..]), Suffix(some[1..]);
      SuffixBegins(vals[1..], some[1..]);
      assert vals == [vals[0]] + vals[1..] && some == [some[0]] + some[1..];
      if Suffix(some) <= Suffix(vals) {
        EitherBegins(a, x, b, y);
        if a <= b { PrefixFree(vals[0], some[0]); } else { PrefixFree(some[0], vals[0]); }
        assert (a + x)[|a|..] == x && (b + y)[|b|..] == y;
        assert y <= x;
      }
      if some <= vals {
        assert some[1..] <= vals[1..];
        assert a + y <= a + x;
      }
    }
  }

  lemma EitherBegins(a: Bytes, x: Bytes, b: Bytes, y: Bytes)
    requires b + y <= a + x
    ensures a <= b || b <= a
  {
    assert forall i :: 0 <= i < |b| ==> (b + y)[i] == b[i];
    assert forall i :: 0 <= i < |a| ==> (a + x)[i] == a[i];
  }

  lemma {:induction false} SuffixConcat(a: seq<Value>, b: seq<Value>)
    ensures Suffix(a + b) == Suffix(a) + Suffix(b)
    decreases |a|
  {
    if |a| == 0 {
      assert a + b == b;
    } else {
      SuffixConcat(a[1..], b);
      assert (a + b)[1..] == a[1..] + b;
    }
  }

  lemma EntrySplits(id: Value, vals: seq<Value>, n: nat)
    requires n < |vals|
    ensures EntryKey(id, vals) == EntryKey(id, vals[..n]) + Encode(vals[n]) + Suffix(vals[n + 1..])
    ensures EntryKey(id, vals) == EntryKey(id, vals[..n]) + (Encode(vals[n]) + Suffix(vals[n + 1..]))
  {
    SuffixConcat(vals[..n], vals[n..]);
    assert vals == vals[..n] + vals[n..] && vals[n..][1..] == vals[n + 1..];
    hide Encode;
    Regrouped(Encode(id), Suffix(vals[..n]), Encode(vals[n]), Suffix(vals[n + 1..]));
  }

  lemma Regrouped(i: Bytes, x: Bytes, y: Bytes, z: Bytes)
    ensures i + (x + (y + z)) == i + x + y + z && i + (x + (y + z)) == (i + x) + (y + z)
  {
  }

  lemma EntryBegins(id: Value, vals: seq<Value>, some: seq<Value>)
    requires Plain(id) && AllPlain(vals) && AllPlain(some) && |some| <= |vals|
    ensures EntryKey(id, some) <= EntryKey(id, vals) <==> some <= vals
  {
    SuffixBegins([id] + vals, [id] + some);
    assert ([id] + vals)[1..] == vals && ([id] + some)[1..] == some;
    if some <= vals {
      assert [id] + some <= [id] + vals;
    }
    if [id] + some <= [id] + vals {
      assert ([id] + vals)[1..][..|some|] == ([id] + some)[1..];
    }
  }

  /** Entries that agree before a property are in the order of their values there. */
  lemma EntryOrder(id: Value, a: seq<Value>, b: seq<Value>, n: nat)
    requires AllPlain(a) && AllPlain(b) && n < |a| && n < |b| && a[..n] == b[..n]
    requires Lex(EntryKey(id, a), EntryKey(id, b)) <= 0
    ensures Compare(a[n], b[n]) <= 0
  {
    EntrySplits(id, a, n);
    EntrySplits(id, b, n);
    var p := EntryKey(id, a[..n]);
    EncodingAgrees(a[n], b[n]);
    hide Encode;
    hide Suffix;
    var s, t := Encode(a[n]) + Suffix(a[n + 1..]), Encode(b[n]) + Suffix(b[n + 1..]);
    hide EntryKey;
    hide Compare;
    LexPrefix(p, s, t);
    if Compare(a[n], b[n]) > 0 {
      UnderExtended(Encode(b[n]), Encode(a[n]), Suffix(b[n + 1..]), Suffix(a[n + 1..]));
      UnderIsBelow(t, s);
    }
  }

  // ---- entries by the choices of a key builder ----

  ghost predicate IsLevel(vals: Level) {
    Ascending(vals) && forall k :: k in vals ==> exists v :: Plain(v) && Encode(v) == k
  }

  /** A choice of keys is the encoding of a choice of values. */
  lemma {:induction false} ChosenValues(stack: seq<Level>, c: seq<nat>) returns (vals: seq<Value>)
    requires IsChoice(stack, c) && forall i :: 0 <= i < |stack| ==> IsLevel(stack[i])
    ensures |vals| == |stack| && AllPlain(vals) && Suffix(vals) == Joined(stack, c)
    ensures forall i :: 0 <= i < |vals| ==> Encode(vals[i]) == stack[i][c[i]]
    decreases |stack|
  {
    if |stack| == 0 {
      return [];
    }
    var more := ChosenValues(stack[1..], c[1..]);
    assert stack[0][c[0]] in stack[0];
    var v :| Plain(v) && Encode(v) == stack[0][c[0]];
    vals := [v] + more;
    assert vals[1..] == more;
    forall i | 0 <= i < |vals| ensures Encode(vals[i]) == stack[i][c[i]] {
      assert i > 0 ==> vals[i] == more[i - 1] && stack[1..][i - 1] == stack[i] && c[1..][i - 1] == c[i];
    }
  }

  lemma {:induction false} ValuesChosen(stack: seq<Level>, vals: seq<Value>) returns (c: seq<nat>)
    requires |vals| == |stack| && forall i :: 0 <= i < |stack| ==> Encode(vals[i]) in stack[i]
    ensures IsChoice(stack, c) && Joined(stack, c) == Suffix(vals)
    decreases |stack|
  {
    if |stack| == 0 {
      return [];
    }
    assert Encode(vals[0]) in stack[0];
    var first :| 0 <= first < |stack[0]| && stack[0][first] == Encode(vals[0]);
    forall i | 0 <= i < |stack| - 1 ensures Encode(vals[1..][i]) in stack[1..][i] {
      assert Encode(vals[i + 1]) in stack[i + 1];
    }
    var more := ValuesChosen(stack[1..], vals[1..]);
    c := [first] + more;
    assert c[1..] == more;
  }
}
