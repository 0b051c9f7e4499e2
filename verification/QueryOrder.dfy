/** The order a query asks for: when the answer comes in it, and the check that refuses a query whose answer would not. */
module QueryOrder {
  import opened Bytes
  import opened Values
  import opened ValueOrder
  import opened Keys
  import opened Entries
  import opened Plan
  import opened IndexPlan
  import opened QueryRanges

  // ---- the check of a query ----

  /** A clause that is no equality of one value has its entries in the order of its own property. */
  predicate DefinesOrder(c: Clause) { !c.lowerOp.Eq? || c.lowerVal.Arr? }

  /** An order asked for is that of every clause that defines one. */
  ghost predicate ValidFind(q: Query) {
    forall name :: name in q.where && DefinesOrder(q.where[name]) ==> q.order == "" || q.order == name
  }

  /** With an order asked for, every clause but that of this order is an equality of one value. */
  method ValidateFind(q: Query) returns (ok: bool)
    ensures ok <==> ValidFind(q)
    ensures ok <==> q.order == "" || forall name :: name in q.where && name != q.order ==> q.where[name].lowerOp.Eq? && !q.where[name].lowerVal.Arr?
  {
    var rest := q.where.Keys;
    while rest != {}
      invariant rest <= q.where.Keys
      invariant forall name :: name in q.where.Keys - rest && DefinesOrder(q.where[name]) ==> q.order == "" || q.order == name
      decreases |rest|
    {
      var name :| name in rest;
      if DefinesOrder(q.where[name]) && q.order != "" && q.order != name {
        return false;
      }
      rest := rest - {name};
    }
    return true;
  }

  // ---- where the order is among the properties ----

  /** The property an accepted query is to be ordered by has a clause, or comes right behind those that have. */
  lemma OrderPlace(props: seq<string>, includeDeleted: bool, q: Query) returns (at: nat)
    requires Distinct(props) && (includeDeleted ==> |props| > 0 && props[0] == DEL)
    requires Answerable(props, includeDeleted, q) && q.order != ""
    ensures var pinned := Pinned(includeDeleted, q.where);
      && Leading(props, pinned, 0) && at < |props| && props[at] == q.order && at <= |pinned|
      && (at == |pinned| ==> at == Skipped(includeDeleted, q.where) + |q.where|)
  {
    var skip, pinned := Skipped(includeDeleted, q.where), Pinned(includeDeleted, q.where);
    PinnedLeads(props, includeDeleted, q.where);
    PinnedCount(includeDeleted, q.where);
    if |q.where| > 0 && q.order in q.where {
      LeadingIsAll(props, pinned, 0);
      assert q.order in pinned;
      assert q.order in props[0..|pinned|];
      at :| 0 <= at < |pinned| && props[0..|pinned|][at] == q.order;
    } else {
      at := skip + |q.where|;
    }
  }

  lemma PinnedCount(includeDeleted: bool, where: map<string, Clause>)
    ensures |Pinned(includeDeleted, where)| == Skipped(includeDeleted, where) + |where|
  {
    if includeDeleted && DEL !in where {
      assert Pinned(includeDeleted, where).Keys == where.Keys + {DEL};
    }
  }

  /** A query an index answers and the check lets pass is answered in the order it asks for. */
  lemma AcceptedOrder(props: seq<string>, includeDeleted: bool, q: Query) returns (at: nat)
    requires Distinct(props) && (includeDeleted ==> |props| > 0 && props[0] == DEL)
    requires Answerable(props, includeDeleted, q) && ValidFind(q) && q.order != ""
    ensures var pinned := Pinned(includeDeleted, q.where);
      && Leading(props, pinned, 0) && at < |props| && props[at] == q.order && OrderedAt(props, pinned, at)
  {
    at := OrderPlace(props, includeDeleted, q);
    var pinned := Pinned(includeDeleted, q.where);
    forall i | 0 <= i < at ensures Single(pinned[props[i]]) {
      var name := props[i];
      assert name in pinned && name != q.order;
      assert name in q.where ==> !DefinesOrder(q.where[name]);
    }
  }

  // ---- exactly when the answer comes in order ----

  /** The values of an entry that meets the clauses. */
  ghost predicate Met(props: seq<string>, where: map<string, Clause>, vals: seq<Value>) {
    |vals| == |props| && AllPlain(vals) && Meets(props, where, vals)
  }

  /** Whatever the entries are, those that meet the clauses come in the order of a property. */
  ghost predicate AlwaysOrdered(id: Value, props: seq<string>, where: map<string, Clause>, at: nat)
    requires at < |props|
  {
    forall a: seq<Value>, b: seq<Value> :: Met(props, where, a) && Met(props, where, b) && Lex(EntryKey(id, a), EntryKey(id, b)) <= 0
      ==> Compare(a[at], b[at]) <= 0
  }

  ghost predicate TwoValues(c: Clause) {
    exists v, w :: Plain(v) && Plain(w) && Accepts(c, v) && Accepts(c, w) && Compare(v, w) < 0
  }

  lemma CompareBoth(v: Value, w: Value)
    requires Plain(v) && Plain(w)
    ensures v == w || Compare(v, w) < 0 || Compare(w, v) < 0
  {
    EncodingAgrees(v, w);
    EncodingAgrees(w, v);
    if Compare(v, w) == 0 {
      PrefixFree(v, w);
    } else if Compare(v, w) > 0 && Compare(w, v) > 0 {
      UnderIsBelow(Encode(v), Encode(w));
      UnderIsBelow(Encode(w), Encode(v));
    } else if Compare(v, w) > 0 && Compare(w, v) == 0 {
      PrefixFree(w, v);
    }
  }

  lemma CompareFlip(v: Value, w: Value)
    requires Plain(v) && Plain(w) && Compare(v, w) < 0
    ensures Compare(w, v) > 0
  {
    EncodingAgrees(v, w);
    EncodingAgrees(w, v);
    UnderIsBelow(Encode(v), Encode(w));
    if Compare(w, v) < 0 {
      UnderIsBelow(Encode(w), Encode(v));
    } else if Compare(w, v) == 0 {
      LexZero(Encode(v), Encode(w));
    }
  }

  /** A clause that accepts no value, such as one of an empty list. */
  ghost predicate NoValue(c: Clause) {
    forall v :: Plain(v) ==> !Accepts(c, v)
  }

  lemma MetAccepted(props: seq<string>, where: map<string, Clause>, i: nat, vals: seq<Value>)
    requires Leading(props, where, 0) && i < |where|
    ensures Met(props, where, vals) ==> !NoValue(where[props[i]])
  {
    hide Accepts;
    if Met(props, where, vals) {
      var v := vals[i];
      assert Plain(v) && Accepts(where[props[i]], v);
    }
  }

  lemma OneValue(c: Clause, v: Value, w: Value)
    requires !TwoValues(c) && Plain(v) && Plain(w) && Accepts(c, v) && Accepts(c, w)
    ensures v == w
  {
    CompareBoth(v, w);
  }

  /** Entries that agree before a place are in the order of their values there. */
  lemma BelowAt(id: Value, a: seq<Value>, b: seq<Value>, n: nat)
    requires n < |a| && n < |b| && a[..n] == b[..n] && Plain(a[n]) && Plain(b[n]) && Compare(a[n], b[n]) < 0
    ensures Lex(EntryKey(id, a), EntryKey(id, b)) < 0
  {
    hide Encode;
    hide Suffix;
    hide EntryKey;
    hide Compare;
    hide Lex;
    hide Under;
    EntrySplits(id, a, n);
    EntrySplits(id, b, n);
    EncodingAgrees(a[n], b[n]);
    UnderExtended(Encode(a[n]), Encode(b[n]), Suffix(a[n + 1..]), Suffix(b[n + 1..]));
    UnderAfter(EntryKey(id, a[..n]), Encode(a[n]) + Suffix(a[n + 1..]), Encode(b[n]) + Suffix(b[n + 1..]));
    UnderIsBelow(EntryKey(id, a), EntryKey(id, b));
  }

  /** The answer comes in order where all clauses before accept one value at most, or the one there does. */
  lemma StaysOrdered(id: Value, props: seq<string>, where: map<string, Clause>, at: nat, a: seq<Value>, b: seq<Value>)
    requires Leading(props, where, 0) && at < |props| && at <= |where| && Met(props, where, a) && Met(props, where, b)
    requires (forall i :: 0 <= i < at ==> !TwoValues(where[props[i]])) || (at < |where| && !TwoValues(where[props[at]]))
    requires Lex(EntryKey(id, a), EntryKey(id, b)) <= 0
    ensures Compare(a[at], b[at]) <= 0
  {
    hide Lex;
    hide EntryKey;
    hide Compare;
    hide TwoValues;
    hide Accepts;
    if at < |where| && !TwoValues(where[props[at]]) {
      OneValue(where[props[at]], a[at], b[at]);
      EqualIsSame(a[at], b[at]);
    } else {
      forall i | 0 <= i < at ensures a[i] == b[i] {
        OneValue(where[props[i]], a[i], b[i]);
      }
      assert a[..at] == b[..at];
      EntryOrder(id, a, b, at);
    }
  }

  /** Some values that the first clauses accept. */
  lemma {:induction false} SomeValues(props: seq<string>, where: map<string, Clause>, n: nat) returns (vals: seq<Value>)
    requires n <= |props| && forall i :: 0 <= i < n ==> props[i] in where && !NoValue(where[props[i]])
    ensures |vals| == n && AllPlain(vals) && forall i :: 0 <= i < n ==> Accepts(where[props[i]], vals[i])
  {
    hide Accepts;
    hide Plain;
    vals := [];
    if n > 0 {
      var fewer := SomeValues(props, where, n - 1);
      assert !NoValue(where[props[n - 1]]);
      var v :| Plain(v) && Accepts(where[props[n - 1]], v);
      vals := fewer + [v];
    }
  }

  lemma SomeRow(props: seq<string>, where: map<string, Clause>) returns (row: seq<Value>)
    requires Distinct(props) && Leading(props, where, 0) && forall i :: 0 <= i < |where| ==> !NoValue(where[props[i]])
    ensures Met(props, where, row)
  {
    hide Accepts;
    var vals := SomeValues(props, where, |where|);
    row := vals + seq(|props| - |where|, _ => Null);
    forall i | 0 <= i < |props| && props[i] in where ensures Accepts(where[props[i]], row[i]) {
      OnlyLeading(props, where, i);
    }
  }

  /** Another value for one property: one that its clause accepts, if it has one. */
  lemma OtherValue(props: seq<string>, where: map<string, Clause>, row: seq<Value>, i: nat, v: Value)
    requires Distinct(props) && Leading(props, where, 0) && Met(props, where, row) && i < |props| && Plain(v)
    requires i < |where| ==> Accepts(where[props[i]], v)
    ensures Met(props, where, row[i := v])
  {
    hide Accepts;
    hide Plain;
    forall k | 0 <= k < |props| && props[k] in where ensures Accepts(where[props[k]], row[i := v][k]) {
      OnlyLeading(props, where, k);
    }
  }

  /** With two values for a clause, and two for a property behind it, there are entries out of order. */
  lemma NotOrdered(id: Value, props: seq<string>, where: map<string, Clause>, row: seq<Value>, i: nat, v: Value, w: Value, at: nat, x: Value, y: Value)
    requires Distinct(props) && Leading(props, where, 0) && Met(props, where, row) && i < at < |props| && i < |where|
    requires Plain(v) && Plain(w) && Compare(v, w) < 0 && Accepts(where[props[i]], v) && Accepts(where[props[i]], w)
    requires Plain(x) && Plain(y) && Compare(x, y) < 0 && (at < |where| ==> Accepts(where[props[at]], x) && Accepts(where[props[at]], y))
    ensures !AlwaysOrdered(id, props, where, at)
  {
    hide Lex;
    hide EntryKey;
    hide Accepts;
    hide Compare;
    hide Plain;
    var a, b := row[i := v][at := y], row[i := w][at := x];
    OtherValue(props, where, row, i, v);
    OtherValue(props, where, row[i := v], at, y);
    OtherValue(props, where, row, i, w);
    OtherValue(props, where, row[i := w], at, x);
    assert a[..i] == b[..i];
    BelowAt(id, a, b, i);
    CompareFlip(x, y);
  }

  /**
   * The answer always comes in the order of a property, up to the one behind all clauses, exactly if every
   * clause before it accepts one value at most, or its own clause does, or some clause accepts none.
   */
  lemma OrderedExactly(id: Value, props: seq<string>, where: map<string, Clause>, at: nat)
    requires Distinct(props) && Leading(props, where, 0) && at < |props| && at <= |where|
    ensures AlwaysOrdered(id, props, where, at) <==>
      || (forall i :: 0 <= i < at ==> !TwoValues(where[props[i]]))
      || (at < |where| && !TwoValues(where[props[at]]))
      || (exists i :: 0 <= i < |where| && NoValue(where[props[i]]))
  {
    hide Lex;
    hide EntryKey;
    hide Accepts;
    hide Compare;
    if (forall i :: 0 <= i < at ==> !TwoValues(where[props[i]])) || (at < |where| && !TwoValues(where[props[at]])) {
      hide TwoValues;
      hide Met;
      forall a: seq<Value>, b: seq<Value> |
        Met(props, where, a) && Met(props, where, b) && Lex(EntryKey(id, a), EntryKey(id, b)) <= 0
        ensures Compare(a[at], b[at]) <= 0
      {
        StaysOrdered(id, props, where, at, a, b);
      }
    } else if exists i :: 0 <= i < |where| && NoValue(where[props[i]]) {
      hide TwoValues;
      var i :| 0 <= i < |where| && NoValue(where[props[i]]);
      forall a ensures !Met(props, where, a) {
        MetAccepted(props, where, i, a);
      }
    } else {
      Disordered(id, props, where, at);
    }
  }

  lemma Disordered(id: Value, props: seq<string>, where: map<string, Clause>, at: nat)
    requires Distinct(props) && Leading(props, where, 0) && at < |props| && at <= |where|
    requires exists i :: 0 <= i < at && TwoValues(where[props[i]])
    requires at < |where| ==> TwoValues(where[props[at]])
    requires forall i :: 0 <= i < |where| ==> !NoValue(where[props[i]])
    ensures !AlwaysOrdered(id, props, where, at)
  {
    hide Lex;
    hide EntryKey;
    hide Accepts;
    hide NoValue;
    hide Met;
    var row := SomeRow(props, where);
    var i :| 0 <= i < at && TwoValues(where[props[i]]);
    var v, w :| Plain(v) && Plain(w) && Accepts(where[props[i]], v) && Accepts(where[props[i]], w) && Compare(v, w) < 0;
    var x, y := Null, Int(1);
    assert Plain(x) && Plain(y) && Compare(x, y) < 0;
    if at < |where| {
      var c := where[props[at]];
      x, y :| Plain(x) && Plain(y) && Accepts(c, x) && Accepts(c, y) && Compare(x, y) < 0;
    }
    NotOrdered(id, props, where, row, i, v, w, at, x, y);
  }

  /** Without the check an index takes such queries: one of an inequality, and one of a list. */
  lemma CheckNeeded(c: Clause) returns (props: seq<string>, q: Query)
    requires c == Clause(Greater, Bool(false), NoOp, Undefined) || c == Clause(Eq, Arr(Item(Int(0), Item(Int(1), NoItems))), NoOp, Undefined)
    ensures q.where == map["a" := c] && Distinct(props) && WellFormed(q.where) && Answerable(props, false, q) && !ValidFind(q)
    ensures Leading(props, q.where, 0) && |q.where| == 1 && |props| > 1 && props[1] == q.order
    ensures forall id :: !AlwaysOrdered(id, props, q.where, 1)
  {
    hide AlwaysOrdered;
    hide TwoValues;
    hide NoValue;
    hide Formed;
    hide Accepts;
    props, q := ["a", "b", ID], Query(map["a" := c], "b", false, []);
    assert q.where.Keys == {"a"};
    assert |q.where| == 1 && DefinesOrder(q.where["a"]);
    ZeroAndOne(c);
    forall id ensures !AlwaysOrdered(id, props, q.where, 1) {
      BehindTwo(id, props, q.where, c);
    }
  }

  lemma BehindTwo(id: Value, props: seq<string>, where: map<string, Clause>, c: Clause)
    requires Distinct(props) && |props| > 1 && where == map[props[0] := c] && Leading(props, where, 0) && TwoValues(c) && !NoValue(c)
    ensures !AlwaysOrdered(id, props, where, 1)
  {
    hide TwoValues;
    hide NoValue;
    hide AlwaysOrdered;
    assert where.Keys == {props[0]} && |where| == 1;
    OrderedExactly(id, props, where, 1);
  }

  lemma ZeroAndOne(c: Clause)
    requires c == Clause(Greater, Bool(false), NoOp, Undefined) || c == Clause(Eq, Arr(Item(Int(0), Item(Int(1), NoItems))), NoOp, Undefined)
    ensures Formed(c) && Accepts(c, Int(0)) && Accepts(c, Int(1)) && TwoValues(c) && !NoValue(c)
  {
    var zero, one := Int(0), Int(1);
    if c.lowerVal.Arr? {
      assert Elements(NoItems) == [];
      assert Elements(Item(one, NoItems)) == [one];
      assert Listed(c.lowerVal) == [zero, one];
      assert zero in Listed(c.lowerVal) && one in Listed(c.lowerVal);
      assert AcceptsOne(One(c, zero), zero) && AcceptsOne(One(c, one), one);
    } else {
      SingleAccepts(c, zero);
      SingleAccepts(c, one);
    }
    assert Plain(zero) && Plain(one) && Compare(zero, one) < 0;
  }
}
