/** The ranges of a whole query: the entries in them are those that meet every clause. */
module QueryRanges {
  import opened Bytes
  import opened Values
  import opened ValueOrder
  import opened Keys
  import opened KeySets
  import opened KeyBuilder
  import opened Entries
  import opened Plan
  import opened PlanPage
  import opened Lists
  import opened PlanLists
  import opened IndexPlan

  // ---- the ranges ----

  /** The values of each of the first clauses. */
  function Leads(props: seq<string>, where: map<string, Clause>, n: nat): (lists: seq<seq<Value>>)
    requires n <= |props| && forall i :: 0 <= i < n ==> props[i] in where
    ensures |lists| == n
  {
    seq(n, i requires 0 <= i < n => ValuesOf(where[props[i]].lowerVal))
  }

  /** The ranges of the last clause behind each choice of values for the others; without clauses, the whole index. */
  function RangesOf(id: Value, props: seq<string>, where: map<string, Clause>): seq<Range>
    requires |where| <= |props| && forall i :: 0 <= i < |where| ==> props[i] in where
  {
    if |where| == 0 then Ranges(Encode(id), Encode(id), Encode(id), Eq, NoOp)
    else
      var n := |where| - 1;
      RangesBehind(Keyed(id, Choices(Leads(props, where, n))), where[props[n]])
  }

  ghost predicate WellFormed(where: map<string, Clause>) {
    forall name :: name in where ==> Formed(where[name])
  }

  ghost predicate Meets(props: seq<string>, where: map<string, Clause>, vals: seq<Value>)
    requires |props| == |vals|
  {
    forall i :: 0 <= i < |props| && props[i] in where ==> Accepts(where[props[i]], vals[i])
  }

  // ---- an entry is in the ranges exactly when it meets the clauses ----

  lemma EqualIsSame(v: Value, c: Value)
    requires Plain(v) && Plain(c)
    ensures Compare(v, c) == 0 <==> v == c
  {
    EncodingAgrees(v, c);
    if v == c && Compare(v, c) != 0 {
      PrefixNotUnder(Encode(v), Encode(c));
    }
  }

  /** An equality accepts the values of its list. */
  lemma EqualAccepts(c: Clause, v: Value)
    requires Formed(c) && c.lowerOp.Eq? && Plain(v)
    ensures Accepts(c, v) <==> v in ValuesOf(c.lowerVal)
  {
    hide Compare;
    hide Plain;
    hide ValuesOf;
    ValuesRise(c);
    forall e | e in Listed(c.lowerVal) ensures AcceptsOne(One(c, e), v) <==> v == e {
      assert FormedOne(One(c, e));
      EqualIsSame(v, e);
    }
    if v in Listed(c.lowerVal) {
      assert AcceptsOne(One(c, v), v);
    }
  }

  /** The first clauses accept the choices of their values. */
  lemma LeadsAccept(props: seq<string>, where: map<string, Clause>, n: nat, vals: seq<Value>)
    requires Leading(props, where, 0) && WellFormed(where) && n < |where| && n <= |vals| && AllPlain(vals)
    ensures vals[..n] in Choices(Leads(props, where, n)) <==> forall i :: 0 <= i < n ==> Accepts(where[props[i]], vals[i])
  {
    hide Accepts;
    hide Formed;
    hide ValuesOf;
    ChoicesHave(Leads(props, where, n), vals[..n]);
    forall i | 0 <= i < n ensures Accepts(where[props[i]], vals[i]) <==> vals[i] in ValuesOf(where[props[i]].lowerVal) {
      EqualAccepts(where[props[i]], vals[i]);
    }
  }

  lemma OnlyLeading(props: seq<string>, where: map<string, Clause>, i: nat)
    requires Distinct(props) && Leading(props, where, 0) && i < |props| && props[i] in where
    ensures i < |where|
  {
    LeadingIsAll(props, where, 0);
    var j :| 0 <= j < |where| && props[..|where|][j] == props[i];
    assert props[j] == props[i];
  }

  /** Values meet all clauses exactly if they begin with a choice for the others and the last one accepts what follows. */
  lemma ChoiceMeets(props: seq<string>, where: map<string, Clause>, vals: seq<Value>)
    requires Distinct(props) && Leading(props, where, 0) && WellFormed(where) && |props| == |vals| && AllPlain(vals) && |where| > 0
    ensures var n := |where| - 1;
      Meets(props, where, vals) <==> vals[..n] in Choices(Leads(props, where, n)) && Accepts(where[props[n]], vals[n])
  {
    hide Accepts;
    hide Choices;
    hide Formed;
    var n := |where| - 1;
    LeadsAccept(props, where, n, vals);
    forall i | 0 <= i < |props| && props[i] in where ensures i <= n {
      OnlyLeading(props, where, i);
    }
  }

  lemma ChoicesPlain(props: seq<string>, where: map<string, Clause>, n: nat, f: seq<Value>)
    requires Leading(props, where, 0) && WellFormed(where) && n < |where| && f in Choices(Leads(props, where, n))
    ensures |f| == n && AllPlain(f)
  {
    hide ValuesOf;
    hide Formed;
    ChoicesHave(Leads(props, where, n), f);
    forall i | 0 <= i < n ensures Plain(f[i]) {
      ValuesRise(where[props[i]]);
      assert f[i] in ValuesOf(where[props[i]].lowerVal);
      var j :| 0 <= j < |ValuesOf(where[props[i]].lowerVal)| && ValuesOf(where[props[i]].lowerVal)[j] == f[i];
    }
  }

  /** Of the entries of an index, the ranges of a query hold those that meet all its clauses. */
  lemma RangesMeet(id: Value, props: seq<string>, where: map<string, Clause>, vals: seq<Value>)
    requires Plain(id) && Distinct(props) && Leading(props, where, 0) && WellFormed(where)
    requires |vals| == |props| && AllPlain(vals)
    ensures InSome(RangesOf(id, props, where), EntryKey(id, vals)) <==> Meets(props, where, vals)
  {
    hide InSome;
    if |where| == 0 {
      PrefixRange(Encode(id), EntryKey(id, vals), 0);
      InOne(RangesOf(id, props, where), EntryKey(id, vals));
    } else {
      var n := |where| - 1;
      ChoiceMeets(props, where, vals);
      ClauseMeets(id, Choices(Leads(props, where, n)), where[props[n]], vals, n) by {
        forall f | f in Choices(Leads(props, where, n)) ensures |f| == n && AllPlain(f) {
          ChoicesPlain(props, where, n, f);
        }
      }
    }
  }

  lemma ClauseMeets(id: Value, fs: seq<seq<Value>>, c: Clause, vals: seq<Value>, n: nat)
    requires Plain(id) && AllPlain(vals) && n < |vals| && Formed(c) && forall f :: f in fs ==> |f| == n && AllPlain(f)
    ensures InSome(RangesBehind(Keyed(id, fs), c), EntryKey(id, vals)) <==> vals[..n] in fs && Accepts(c, vals[n])
  {
    hide InSome;
    hide Accepts;
    hide Formed;
    hide EntryKey;
    hide ClauseRanges;
    hide Plain;
    hide Encode;
    var ps, key := Keyed(id, fs), EntryKey(id, vals);
    InBehind(ps, c, key);
    EntrySplits(id, vals, n);
    ListMeans(c, EntryKey(id, vals[..n]), vals[n], Suffix(vals[n + 1..]), key);
    if p :| p in ps && InSome(ClauseRanges(c, p), key) {
      var i :| 0 <= i < |ps| && ps[i] == p;
      assert fs[i] in fs;
      ListStays(c, p, key);
      EntryBegins(id, vals, fs[i]);
      assert fs[i] == vals[..n];
    }
    if vals[..n] in fs {
      var i :| 0 <= i < |fs| && fs[i] == vals[..n];
      assert ps[i] in ps;
    }
  }

  // ---- entries that meet the clauses stand together ----

  lemma BetweenContained(r: Range, a: Bytes, b: Bytes, c: Bytes)
    requires Contains(r, a) && Contains(r, c) && Lex(a, b) <= 0 && Lex(b, c) <= 0
    ensures Contains(r, b)
  {
    LexFlip(a, r.lower);
    LexFlip(b, r.lower);
    if Lex(a, r.lower) >= 0 {
      LexTrans(r.lower, a, b);
    }
    if Lex(c, r.upper) < 0 {
      LexTrans(b, c, r.upper);
    }
  }

  /** Entries that begin with the same values have only such entries between them. */
  lemma SameBetween(id: Value, a: seq<Value>, b: seq<Value>, c: seq<Value>, n: nat)
    requires Plain(id) && |a| == |b| == |c| && n <= |a| && AllPlain(a) && AllPlain(b) && AllPlain(c) && a[..n] == c[..n]
    requires Lex(EntryKey(id, a), EntryKey(id, b)) <= 0 && Lex(EntryKey(id, b), EntryKey(id, c)) <= 0
    ensures b[..n] == a[..n]
  {
    hide EntryKey;
    var f := a[..n];
    var p := EntryKey(id, f);
    EntryBegins(id, a, f);
    EntryBegins(id, b, f);
    EntryBegins(id, c, f);
    PrefixRange(p, EntryKey(id, a), 0);
    PrefixRange(p, EntryKey(id, b), 0);
    PrefixRange(p, EntryKey(id, c), 0);
    BetweenContained(Range(p, Increment(p), 0), EntryKey(id, a), EntryKey(id, b), EntryKey(id, c));
  }

  /** The value a clause rules out on its own. */
  predicate RuledOut(c: Clause, v: Value) { c.lowerOp.NotEq? && Compare(v, c.lowerVal) == 0 }

  /** Between values of one property that a clause of one value accepts are only such values, but for one that is ruled out on its own. */
  lemma OneTogether(id: Value, c: Clause, a: seq<Value>, b: seq<Value>, d: seq<Value>, n: nat)
    requires Plain(id) && FormedOne(c) && |a| == |b| == |d| && n < |a| && AllPlain(a) && AllPlain(b) && AllPlain(d)
    requires a[..n] == b[..n] == d[..n] && AcceptsOne(c, a[n]) && AcceptsOne(c, d[n])
    requires Lex(EntryKey(id, a), EntryKey(id, b)) <= 0 && Lex(EntryKey(id, b), EntryKey(id, d)) <= 0
    ensures AcceptsOne(c, b[n]) <==> !RuledOut(c, b[n])
  {
    hide EntryKey;
    hide Compare;
    hide Plain;
    hide Encode;
    if !c.lowerOp.NotEq? {
      hide AcceptsOne;
      hide FormedOne;
      var p := EntryKey(id, a[..n]);
      var ranges := OneRanges(c, p);
      assert |ranges| == 1;
      hide Ranges;
      InOneRange(id, c, a, n);
      InOneRange(id, c, b, n);
      InOneRange(id, c, d, n);
      InOne(ranges, EntryKey(id, a));
      InOne(ranges, EntryKey(id, b));
      InOne(ranges, EntryKey(id, d));
      BetweenContained(ranges[0], EntryKey(id, a), EntryKey(id, b), EntryKey(id, d));
    }
  }

  lemma InOneRange(id: Value, c: Clause, vals: seq<Value>, n: nat)
    requires FormedOne(c) && n < |vals| && AllPlain(vals)
    ensures InSome(OneRanges(c, EntryKey(id, vals[..n])), EntryKey(id, vals)) <==> AcceptsOne(c, vals[n])
  {
    hide Ranges;
    hide AcceptsOne;
    hide FormedOne;
    hide Encode;
    hide EntryKey;
    var p := EntryKey(id, vals[..n]);
    var lower := p + Encode(c.lowerVal);
    EntrySplits(id, vals, n);
    RangesMean(c, p, lower, p + Encode(Upper(c)), if c.lowerOp.Eq? || c.lowerOp.Prefix? then lower else p, vals[n], Suffix(vals[n + 1..]), EntryKey(id, vals));
  }

  /** Entries that meet the clauses by the same choice: the same values for the leading ones, and for the last one the same of its list. */
  ghost predicate SameChoice(props: seq<string>, where: map<string, Clause>, a: seq<Value>, b: seq<Value>)
    requires |where| <= |props| == |a| == |b| && forall i :: 0 <= i < |where| ==> props[i] in where
  {
    |where| > 0 ==>
      var n := |where| - 1;
      var c := where[props[n]];
      a[..n] == b[..n] && exists e :: e in Listed(c.lowerVal) && AcceptsOne(One(c, e), a[n]) && AcceptsOne(One(c, e), b[n])
  }

  /** Between entries of one choice are only entries that meet the clauses, but for a value that is ruled out on its own. */
  lemma AnswerTogether(id: Value, props: seq<string>, where: map<string, Clause>, a: seq<Value>, b: seq<Value>, c: seq<Value>)
    requires Plain(id) && Distinct(props) && Leading(props, where, 0) && WellFormed(where)
    requires |a| == |b| == |c| == |props| && AllPlain(a) && AllPlain(b) && AllPlain(c)
    requires Meets(props, where, a) && Meets(props, where, c) && SameChoice(props, where, a, c)
    requires Lex(EntryKey(id, a), EntryKey(id, b)) <= 0 && Lex(EntryKey(id, b), EntryKey(id, c)) <= 0
    ensures Meets(props, where, b) <==> |where| == 0 || !RuledOut(where[props[|where| - 1]], b[|where| - 1])
  {
    hide EntryKey;
    hide Compare;
    hide AcceptsOne;
    hide FormedOne;
    hide Choices;
    if |where| > 0 {
      var n := |where| - 1;
      var last := where[props[n]];
      SameBetween(id, a, b, c, n);
      ChoiceMeets(props, where, a);
      ChoiceMeets(props, where, b);
      var e :| e in Listed(last.lowerVal) && AcceptsOne(One(last, e), a[n]) && AcceptsOne(One(last, e), c[n]);
      OneTogether(id, One(last, e), a, b, c, n);
      if !last.lowerVal.Arr? {
        SingleAccepts(last, b[n]);
      } else {
        assert !RuledOut(last, b[n]) && !RuledOut(One(last, e), b[n]);
      }
    }
  }

  lemma SingleAccepts(c: Clause, v: Value)
    requires !c.lowerVal.Arr?
    ensures Accepts(c, v) <==> AcceptsOne(c, v)
    ensures forall e :: e in Listed(c.lowerVal) ==> One(c, e) == c
  {
    assert One(c, c.lowerVal) == c && c.lowerVal in Listed(c.lowerVal);
  }

  /** Without lists there is only one choice: the answer stands together. */
  lemma NoLists(props: seq<string>, where: map<string, Clause>, a: seq<Value>, b: seq<Value>)
    requires Distinct(props) && Leading(props, where, 0) && WellFormed(where) && |a| == |b| == |props| && AllPlain(a) && AllPlain(b)
    requires forall i :: 0 <= i < |where| ==> !where[props[i]].lowerVal.Arr?
    requires Meets(props, where, a) && Meets(props, where, b)
    ensures SameChoice(props, where, a, b)
  {
    hide AcceptsOne;
    if |where| > 0 {
      var n := |where| - 1;
      forall i | 0 <= i < n ensures a[i] == b[i] {
        SingleEqual(where[props[i]], a[i]);
        SingleEqual(where[props[i]], b[i]);
      }
      var last := where[props[n]];
      SingleAccepts(last, a[n]);
      SingleAccepts(last, b[n]);
      assert last.lowerVal in Listed(last.lowerVal) && One(last, last.lowerVal) == last;
    }
  }

  /** An equality of one value. */
  predicate Single(c: Clause) { c.lowerOp.Eq? && !c.lowerVal.Arr? }

  lemma SingleEqual(c: Clause, v: Value)
    requires Formed(c) && Single(c) && Plain(v)
    ensures Accepts(c, v) <==> v == c.lowerVal
  {
    EqualAccepts(c, v);
    SingleValue(c.lowerVal);
  }

  // ---- the order of the answer ----

  /** The property an answer is ordered by: one with only equalities of one value before it, up to the one behind all clauses. */
  predicate OrderedAt(props: seq<string>, where: map<string, Clause>, at: nat)
    requires |where| <= |props| && forall i :: 0 <= i < |where| ==> props[i] in where
  {
    at < |props| && at <= |where| && forall i :: 0 <= i < at ==> Single(where[props[i]])
  }

  /** Entries that meet the clauses come in the order of that property. */
  lemma AnswerOrdered(id: Value, props: seq<string>, where: map<string, Clause>, a: seq<Value>, b: seq<Value>, at: nat)
    requires Distinct(props) && Leading(props, where, 0) && WellFormed(where)
    requires |a| == |props| && AllPlain(a) && Meets(props, where, a)
    requires |b| == |props| && AllPlain(b) && Meets(props, where, b)
    requires OrderedAt(props, where, at) && Lex(EntryKey(id, a), EntryKey(id, b)) <= 0
    ensures Compare(a[at], b[at]) <= 0
  {
    hide Accepts;
    hide Formed;
    hide Compare;
    hide Lex;
    hide EntryKey;
    forall i | 0 <= i < at ensures a[i] == b[i] {
      SingleEqual(where[props[i]], a[i]);
      SingleEqual(where[props[i]], b[i]);
    }
    assert a[..at] == b[..at];
    EntryOrder(id, a, b, at);
  }
}
