/** The values of the clauses of a query in order, and the choices of one value for each leading clause. */
module Lists {
  import opened Bytes
  import opened Values
  import opened ValueOrder
  import opened Keys
  import opened KeySets
  import opened KeyBuilder
  import opened Entries
  import opened Plan

  // ---- the values of a list, in the order of their keys ----

  predicate Rising(s: seq<Value>) {
    forall i, j :: 0 <= i < j < |s| ==> Lex(Encode(s[i]), Encode(s[j])) < 0
  }

  /** A value joins the others at its place, if no other has its key. */
  function PutVal(s: seq<Value>, v: Value): seq<Value> {
    if |s| == 0 then [v]
    else
      var c := Lex(Encode(v), Encode(s[0]));
      if c < 0 then [v] + s else if c == 0 then s else [s[0]] + PutVal(s[1..], v)
  }

  function Sorted(vals: seq<Value>): seq<Value> {
    if |vals| == 0 then [] else PutVal(Sorted(vals[..|vals| - 1]), vals[|vals| - 1])
  }

  /** The values of a clause, each once, in order. */
  function ValuesOf(v: Value): seq<Value> { Sorted(Listed(v)) }

  function Codes(vals: seq<Value>): (level: Level)
    ensures |level| == |vals|
  {
    seq(|vals|, i requires 0 <= i < |vals| => Encode(vals[i]))
  }

  lemma {:induction false} PutRises(s: seq<Value>, v: Value)
    requires AllPlain(s) && Plain(v) && Rising(s)
    ensures Rising(PutVal(s, v)) && forall w :: w in PutVal(s, v) <==> w in s || w == v
    decreases |s|
  {
    hide Encode;
    hide Lex;
    hide Plain;
    if |s| > 0 {
      var c := Lex(Encode(v), Encode(s[0]));
      LexFlip(Encode(v), Encode(s[0]));
      LexZero(Encode(v), Encode(s[0]));
      assert s == [s[0]] + s[1..];
      if c < 0 {
        forall j | 0 < j < |s| ensures Lex(Encode(v), Encode(s[j])) < 0 {
          LexTrans(Encode(v), Encode(s[0]), Encode(s[j]));
        }
      } else if c > 0 {
        PutRises(s[1..], v);
        RisesBehind(s, v, PutVal(s[1..], v));
      } else {
        PrefixFree(v, s[0]);
      }
    }
  }

  lemma RisesBehind(s: seq<Value>, v: Value, more: seq<Value>)
    requires |s| > 0 && Rising(s) && Rising(more) && Lex(Encode(s[0]), Encode(v)) < 0
    requires forall w :: w in more <==> w in s[1..] || w == v
    ensures Rising([s[0]] + more)
  {
    hide Encode;
    hide Lex;
    forall j | 0 <= j < |more| ensures Lex(Encode(s[0]), Encode(more[j])) < 0 {
      assert more[j] in more;
      if more[j] != v {
        var i :| 0 <= i < |s| - 1 && s[1..][i] == more[j];
        assert s[i + 1] == more[j];
      }
    }
  }

  /** The values of a list in order: the same, each once. */
  lemma {:induction false} SortedRises(vals: seq<Value>)
    requires AllPlain(vals)
    ensures Rising(Sorted(vals)) && AllPlain(Sorted(vals)) && forall w :: w in Sorted(vals) <==> w in vals
    decreases |vals|
  {
    hide Plain;
    if |vals| > 0 {
      var n := |vals| - 1;
      SortedRises(vals[..n]);
      PutRises(Sorted(vals[..n]), vals[n]);
      assert vals == vals[..n] + [vals[n]];
      InPlain(Sorted(vals), vals);
    }
  }

  lemma InPlain(some: seq<Value>, vals: seq<Value>)
    requires AllPlain(vals) && forall w :: w in some ==> w in vals
    ensures AllPlain(some)
  {
    forall i | 0 <= i < |some| ensures Plain(some[i]) {
      assert some[i] in some;
    }
  }

  /** A value that is no list stands alone. */
  lemma SingleValue(v: Value)
    requires !v.Arr?
    ensures Listed(v) == [v] && ValuesOf(v) == [v]
  {
    hide Encode;
    hide Lex;
    assert [v][..0] == [] && Sorted([]) == [] && PutVal([], v) == [v];
    assert Sorted([v]) == PutVal(Sorted([v][..0]), v);
  }

  lemma ValuesRise(c: Clause)
    requires Formed(c) && (c.lowerOp.Eq? || c.lowerOp.Prefix?)
    ensures AllPlain(ValuesOf(c.lowerVal)) && Rising(ValuesOf(c.lowerVal))
    ensures forall w :: w in ValuesOf(c.lowerVal) <==> w in Listed(c.lowerVal)
  {
    forall i | 0 <= i < |Listed(c.lowerVal)| ensures Plain(Listed(c.lowerVal)[i]) {
      assert FormedOne(One(c, Listed(c.lowerVal)[i]));
    }
    SortedRises(Listed(c.lowerVal));
  }

  ghost function CodeSet(vals: seq<Value>): set<Bytes> { set w | w in vals :: Encode(w) }

  /** What is pushed for a bound: a key for each value of its list. */
  method LevelOf(v: Value) returns (level: Level)
    requires AllPlain(Listed(v)) || !v.Arr?
    ensures level == Codes(ValuesOf(v)) && Ascending(level)
  {
    hide Encode;
    var keys: set<Bytes> := {};
    var vals := Listed(v);
    for i := 0 to |vals|
      invariant keys == CodeSet(vals[..i])
    {
      assert vals[..i + 1] == vals[..i] + [vals[i]];
      CodesMore(vals[..i], vals[i]);
      keys := keys + {Encode(vals[i])};
    }
    assert vals[..|vals|] == vals;
    level := InOrder(keys);
    CodesInOrder(v);
    OneOrder(level, Codes(ValuesOf(v)));
  }

  lemma CodesInOrder(v: Value)
    requires AllPlain(Listed(v)) || !v.Arr?
    ensures Ascending(Codes(ValuesOf(v))) && Elems(Codes(ValuesOf(v))) == CodeSet(Listed(v))
  {
    hide Encode;
    hide Lex;
    var codes, vals := Codes(ValuesOf(v)), ValuesOf(v);
    if v.Arr? {
      SortedRises(Listed(v));
    } else {
      SingleValue(v);
    }
    assert forall i, j :: 0 <= i < j < |codes| ==> Lex(Encode(vals[i]), Encode(vals[j])) < 0;
    forall w | w in Listed(v) ensures Encode(w) in codes {
      assert w in vals;
      var i :| 0 <= i < |vals| && vals[i] == w;
      assert codes[i] == Encode(w);
    }
    forall k | k in Elems(codes) ensures k in CodeSet(Listed(v)) {
      var i :| 0 <= i < |codes| && codes[i] == k;
      assert vals[i] in vals;
    }
  }

  lemma CodesMore(vals: seq<Value>, v: Value)
    ensures CodeSet(vals + [v]) == CodeSet(vals) + {Encode(v)}
  {
  }

  // ---- the choices of one value for each leading clause ----

  function Extended(f: seq<Value>, vals: seq<Value>): seq<seq<Value>> {
    seq(|vals|, i requires 0 <= i < |vals| => f + [vals[i]])
  }

  function ExtendAll(fs: seq<seq<Value>>, vals: seq<Value>): seq<seq<Value>> {
    if |fs| == 0 then [] else Extended(fs[0], vals) + ExtendAll(fs[1..], vals)
  }

  /** One value of each list, in the order of the keys they make. */
  function Choices(lists: seq<seq<Value>>): seq<seq<Value>> {
    if |lists| == 0 then [[]] else ExtendAll(Choices(lists[..|lists| - 1]), lists[|lists| - 1])
  }

  lemma {:induction false} ExtendAllHas(fs: seq<seq<Value>>, vals: seq<Value>, f: seq<Value>)
    ensures f in ExtendAll(fs, vals) <==> |f| > 0 && f[..|f| - 1] in fs && f[|f| - 1] in vals
    decreases |fs|
  {
    if |fs| > 0 {
      ExtendAllHas(fs[1..], vals, f);
      assert fs == [fs[0]] + fs[1..];
      if f in Extended(fs[0], vals) {
        var i :| 0 <= i < |vals| && f == fs[0] + [vals[i]];
        assert f[..|f| - 1] == fs[0];
      }
      if |f| > 0 && f[..|f| - 1] == fs[0] && f[|f| - 1] in vals {
        var i :| 0 <= i < |vals| && vals[i] == f[|f| - 1];
        assert f == fs[0] + [vals[i]] == Extended(fs[0], vals)[i];
      }
    }
  }

  lemma {:induction false} ChoicesHave(lists: seq<seq<Value>>, f: seq<Value>)
    ensures f in Choices(lists) <==> |f| == |lists| && forall i :: 0 <= i < |lists| ==> f[i] in lists[i]
    decreases |lists|
  {
    if |lists| > 0 {
      var n := |lists| - 1;
      ExtendAllHas(Choices(lists[..n]), lists[n], f);
      if |f| > 0 {
        ChoicesHave(lists[..n], f[..|f| - 1]);
      }
    } else if |f| == 0 {
      assert f == [];
    }
  }

  /** One choice stands before another: its key is under that of the other. */
  predicate Earlier(f: seq<Value>, g: seq<Value>) { |f| == |g| && Under(Suffix(f), Suffix(g)) }

  predicate InLine(fs: seq<seq<Value>>) {
    forall i, j :: 0 <= i < j < |fs| ==> Earlier(fs[i], fs[j])
  }

  lemma ExtendedEarlier(f: seq<Value>, g: seq<Value>, v: Value, w: Value)
    requires Earlier(f, g)
    ensures Earlier(f + [v], g + [w])
  {
    SuffixConcat(f, [v]);
    SuffixConcat(g, [w]);
    UnderExtended(Suffix(f), Suffix(g), Suffix([v]), Suffix([w]));
  }

  lemma LastEarlier(f: seq<Value>, v: Value, w: Value)
    requires Plain(v) && Plain(w) && Lex(Encode(v), Encode(w)) < 0
    ensures Earlier(f + [v], f + [w])
  {
    hide Lex;
    SuffixConcat(f, [v]);
    SuffixConcat(f, [w]);
    SuffixOne(v);
    SuffixOne(w);
    CodesApart(v, w);
    UnderAfter(Suffix(f), Encode(v), Encode(w));
  }

  lemma SuffixOne(v: Value)
    ensures Suffix([v]) == Encode(v)
  {
    assert [v][1..] == [];
  }

  /** No code of a plain value begins another, so that the lower is under the other. */
  lemma CodesApart(v: Value, w: Value)
    requires Plain(v) && Plain(w) && Lex(Encode(v), Encode(w)) < 0
    ensures Under(Encode(v), Encode(w))
  {
    LexZero(Encode(v), Encode(w));
    UnderOrPrefix(Encode(v), Encode(w));
    if Under(Encode(w), Encode(v)) {
      UnderIsBelow(Encode(w), Encode(v));
    }
    if Encode(v) <= Encode(w) {
      PrefixFree(v, w);
    }
    if Encode(w) <= Encode(v) {
      PrefixFree(w, v);
    }
  }

  lemma {:induction false} ExtendAllInLine(fs: seq<seq<Value>>, vals: seq<Value>)
    requires InLine(fs) && (|vals| <= 1 || (AllPlain(vals) && Rising(vals)))
    ensures InLine(ExtendAll(fs, vals))
    decreases |fs|
  {
    hide Earlier;
    hide Lex;
    hide Encode;
    hide Plain;
    if |fs| > 0 {
      var first, more := Extended(fs[0], vals), ExtendAll(fs[1..], vals);
      ExtendAllInLine(fs[1..], vals);
      forall i, j | 0 <= i < j < |first| ensures Earlier(first[i], first[j]) {
        LastEarlier(fs[0], vals[i], vals[j]);
      }
      forall i, j | 0 <= i < |first| && 0 <= j < |more| ensures Earlier(first[i], more[j]) {
        var g := more[j];
        assert g in more;
        ExtendAllHas(fs[1..], vals, g);
        var k :| 0 <= k < |fs| - 1 && fs[1..][k] == g[..|g| - 1];
        assert fs[k + 1] == fs[1..][k];
        ExtendedEarlier(fs[0], g[..|g| - 1], vals[i], g[|g| - 1]);
        assert g == g[..|g| - 1] + [g[|g| - 1]];
      }
    }
  }

  /** Lists that are in order, and of plain values unless they have one value only. */
  ghost predicate Orderly(lists: seq<seq<Value>>) {
    forall i :: 0 <= i < |lists| ==> |lists[i]| <= 1 || (AllPlain(lists[i]) && Rising(lists[i]))
  }

  /** The choices come in the order of their keys. */
  lemma {:induction false} ChoicesInLine(lists: seq<seq<Value>>)
    requires Orderly(lists)
    ensures InLine(Choices(lists))
    decreases |lists|
  {
    if |lists| > 0 {
      var n := |lists| - 1;
      ChoicesInLine(lists[..n]);
      ExtendAllInLine(Choices(lists[..n]), lists[n]);
    }
  }

  // ---- their keys, as the key builder makes them ----

  /** The keys of some choices behind that of an index. */
  function Keyed(id: Value, fs: seq<seq<Value>>): (keys: seq<Bytes>)
    ensures |keys| == |fs|
  {
    seq(|fs|, i requires 0 <= i < |fs| => EntryKey(id, fs[i]))
  }

  /** What is pushed for an index and for lists of values. */
  function Pushed(id: Value, lists: seq<seq<Value>>): (stack: seq<Level>)
    ensures |stack| == |lists| + 1
  {
    [[Encode(id)]] + seq(|lists|, i requires 0 <= i < |lists| => Codes(lists[i]))
  }

  function Picked(lists: seq<seq<Value>>, c: seq<nat>): (f: seq<Value>)
    requires |c| == |lists| && forall i :: 0 <= i < |c| ==> c[i] < |lists[i]|
    ensures |f| == |lists|
  {
    seq(|lists|, i requires 0 <= i < |lists| => lists[i][c[i]])
  }

  lemma {:induction false} JoinedCodes(stack: seq<Level>, lists: seq<seq<Value>>, c: seq<nat>)
    requires |stack| == |lists| == |c| && forall i :: 0 <= i < |lists| ==> stack[i] == Codes(lists[i])
    requires IsChoice(stack, c)
    ensures forall i :: 0 <= i < |c| ==> c[i] < |lists[i]|
    ensures Joined(stack, c) == Suffix(Picked(lists, c))
    decreases |stack|
  {
    hide Encode;
    assert forall i :: 0 <= i < |c| ==> |stack[i]| == |lists[i]|;
    if |stack| > 0 {
      JoinedCodes(stack[1..], lists[1..], c[1..]);
      assert Picked(lists, c)[1..] == Picked(lists[1..], c[1..]);
      assert stack[0][c[0]] == Encode(lists[0][c[0]]);
    }
  }

  lemma PushedChoice(id: Value, lists: seq<seq<Value>>, c: seq<nat>) returns (f: seq<Value>)
    requires IsChoice(Pushed(id, lists), c)
    ensures f in Choices(lists) && Joined(Pushed(id, lists), c) == EntryKey(id, f)
  {
    hide Encode;
    var stack := Pushed(id, lists);
    var all := [[id]] + lists;
    assert |stack[0]| == 1 && stack[0] == Codes([id]);
    JoinedCodes(stack, all, c);
    var g := Picked(all, c);
    f := g[1..];
    assert g[0] == id;
    forall i | 0 <= i < |lists| ensures f[i] in lists[i] {
      assert f[i] == all[i + 1][c[i + 1]];
    }
    ChoicesHave(lists, f);
  }

  lemma ChoicePushed(id: Value, lists: seq<seq<Value>>, f: seq<Value>) returns (c: seq<nat>)
    requires f in Choices(lists)
    ensures IsChoice(Pushed(id, lists), c) && Joined(Pushed(id, lists), c) == EntryKey(id, f)
  {
    hide Encode;
    ChoicesHave(lists, f);
    var stack, all := Pushed(id, lists), [id] + f;
    forall i | 0 <= i < |stack| ensures Encode(all[i]) in stack[i] {
      if i > 0 {
        var j :| 0 <= j < |lists[i - 1]| && lists[i - 1][j] == f[i - 1];
        assert stack[i] == Codes(lists[i - 1]) && stack[i][j] == Encode(f[i - 1]);
      }
    }
    c := ValuesChosen(stack, all);
    assert all[1..] == f;
  }

  /** The keys of the choices, in the order they are iterated in. */
  lemma KeysInOrder(id: Value, lists: seq<seq<Value>>, keys: set<Bytes>, s: seq<Bytes>)
    requires Orderly(lists)
    requires IsProduct(Pushed(id, lists), keys) && Ascending(s) && Elems(s) == keys
    ensures s == Keyed(id, Choices(lists))
  {
    hide Encode;
    hide Lex;
    hide Pushed;
    hide Joined;
    hide EntryKey;
    var fs, all := Choices(lists), Keyed(id, Choices(lists));
    ChoicesInLine(lists);
    KeyedAscend(id, fs);
    forall k | k in Elems(all) ensures k in keys {
      var i :| 0 <= i < |all| && all[i] == k;
      assert fs[i] in fs;
      var c := ChoicePushed(id, lists, fs[i]);
    }
    forall k | k in keys ensures k in Elems(all) {
      var c :| IsChoice(Pushed(id, lists), c) && Joined(Pushed(id, lists), c) == k;
      var f := PushedChoice(id, lists, c);
      var i :| 0 <= i < |fs| && fs[i] == f;
      assert all[i] == k;
    }
    OneOrder(s, all);
  }

  lemma KeyedAscend(id: Value, fs: seq<seq<Value>>)
    requires InLine(fs)
    ensures Ascending(Keyed(id, fs))
    ensures forall i, j :: 0 <= i < j < |fs| ==> Under(EntryKey(id, fs[i]), EntryKey(id, fs[j]))
  {
    hide Encode;
    hide Suffix;
    hide Lex;
    hide Under;
    forall i, j | 0 <= i < j < |fs|
      ensures Under(EntryKey(id, fs[i]), EntryKey(id, fs[j])) && Lex(EntryKey(id, fs[i]), EntryKey(id, fs[j])) < 0
    {
      UnderAfter(Encode(id), Suffix(fs[i]), Suffix(fs[j]));
      UnderIsBelow(EntryKey(id, fs[i]), EntryKey(id, fs[j]));
    }
  }
}
