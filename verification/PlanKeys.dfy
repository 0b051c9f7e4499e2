/** The plan of a query as it is built: sets of keys for its bounds, and the ranges made of them. */
module PlanKeys {
  import opened Bytes
  import opened Values
  import opened ValueOrder
  import opened Keys
  import opened KeySets
  import opened KeyBuilder
  import opened Entries
  import opened Plan
  import opened PlanPage
  import opened Lists
  import opened PlanLists
  import opened IndexPlan
  import opened QueryRanges

  // ---- the sets of keys ----

  lemma ChoicesMore(lists: seq<seq<Value>>, last: seq<Value>)
    ensures Choices(lists + [last]) == ExtendAll(Choices(lists), last)
  {
    assert (lists + [last])[..|lists|] == lists;
  }

  /** A key for each choice in the lower set, the upper set and the set of prefixes. */
  lemma {:induction false} RangesPaired(id: Value, fs: seq<seq<Value>>, c: Clause, lowers: seq<Bytes>, uppers: seq<Bytes>, prefixes: seq<Bytes>)
    requires !(c.lowerOp.Eq? || c.lowerOp.Prefix?) && !c.lowerVal.Arr?
    requires lowers == Keyed(id, ExtendAll(fs, [c.lowerVal])) && uppers == Keyed(id, ExtendAll(fs, [Upper(c)]))
    requires prefixes == Keyed(id, fs)
    ensures |lowers| == |uppers| == |prefixes|
    ensures KeyRanges(lowers, uppers, prefixes, c.lowerOp, c.upperOp) == RangesBehind(prefixes, c)
    decreases |fs|
  {
    hide Ranges;
    hide Encode;
    hide EntryKey;
    if |fs| > 0 {
      var p := EntryKey(id, fs[0]);
      ExtendedByOne(id, fs, c.lowerVal);
      ExtendedByOne(id, fs, Upper(c));
      SingleRanges(c, p);
      assert prefixes[1..] == Keyed(id, fs[1..]);
      RangesPaired(id, fs[1..], c, lowers[1..], uppers[1..], prefixes[1..]);
    }
  }

  lemma ExtendedByOne(id: Value, fs: seq<seq<Value>>, v: Value)
    requires |fs| > 0
    ensures var keys := Keyed(id, ExtendAll(fs, [v]));
      |keys| > 0 && keys[0] == EntryKey(id, fs[0]) + Encode(v) && keys[1..] == Keyed(id, ExtendAll(fs[1..], [v]))
  {
    hide Encode;
    var f, more := fs[0], ExtendAll(fs[1..], [v]);
    assert ExtendAll(fs, [v]) == [f + [v]] + more;
    EntryMore(id, f, v);
  }

  lemma EntryMore(id: Value, f: seq<Value>, v: Value)
    ensures EntryKey(id, f + [v]) == EntryKey(id, f) + Encode(v)
  {
    hide Encode;
    SuffixConcat(f, [v]);
    SuffixOne(v);
    assert Encode(id) + (Suffix(f) + Encode(v)) == Encode(id) + Suffix(f) + Encode(v);
  }

  lemma {:induction false} KeyRangesThen(a: seq<Bytes>, b: seq<Bytes>, lowerOp: Op, upperOp: Op)
    ensures KeyRanges(a + b, a + b, a + b, lowerOp, upperOp)
      == KeyRanges(a, a, a, lowerOp, upperOp) + KeyRanges(b, b, b, lowerOp, upperOp)
    decreases |a|
  {
    hide Ranges;
    if |a| == 0 {
      assert a + b == b;
    } else {
      KeyRangesThen(a[1..], b, lowerOp, upperOp);
      assert (a + b)[1..] == a[1..] + b;
    }
  }

  /** One set of keys for all bounds of an equality or of a prefix. */
  lemma {:induction false} RangesOfOneSet(id: Value, fs: seq<seq<Value>>, c: Clause, keys: seq<Bytes>)
    requires (c.lowerOp.Eq? || c.lowerOp.Prefix?) && c.upperOp.NoOp?
    requires keys == Keyed(id, ExtendAll(fs, ValuesOf(c.lowerVal)))
    ensures KeyRanges(keys, keys, keys, c.lowerOp, c.upperOp) == RangesBehind(Keyed(id, fs), c)
    decreases |fs|
  {
    hide Ranges;
    hide Encode;
    hide EntryKey;
    hide ValuesOf;
    if |fs| > 0 {
      var vals := ValuesOf(c.lowerVal);
      var first, more := Keyed(id, Extended(fs[0], vals)), Keyed(id, ExtendAll(fs[1..], vals));
      assert keys == first + more;
      KeyRangesThen(first, more, c.lowerOp, c.upperOp);
      RangesOfOneKey(id, fs[0], c, vals, first);
      RangesOfOneSet(id, fs[1..], c, more);
      assert Keyed(id, fs)[1..] == Keyed(id, fs[1..]);
    }
  }

  lemma {:induction false} RangesOfOneKey(id: Value, f: seq<Value>, c: Clause, vals: seq<Value>, keys: seq<Bytes>)
    requires (c.lowerOp.Eq? || c.lowerOp.Prefix?) && c.upperOp.NoOp? && keys == Keyed(id, Extended(f, vals))
    ensures KeyRanges(keys, keys, keys, c.lowerOp, c.upperOp) == EachRanges(c, EntryKey(id, f), vals)
    decreases |vals|
  {
    hide Ranges;
    hide Encode;
    hide EntryKey;
    if |vals| > 0 {
      EntryMore(id, f, vals[0]);
      assert keys[1..] == Keyed(id, Extended(f, vals[1..]));
      RangesOfOneKey(id, f, c, vals[1..], keys[1..]);
    }
  }

  // ---- what is built of some lists and a last clause ----

  predicate OneSet(op: Op) { op.Eq? || op.Prefix? }

  /** The keys pushed so far, or the empty one if there is none. */
  ghost predicate PrefixSet(stack: seq<Level>, prefixKeys: set<Bytes>) {
    (prefixKeys != {} && IsProduct(stack, prefixKeys)) || (prefixKeys == {[]} && IsProduct(stack, {}))
  }

  /** The levels of the two builders, and the set of prefixes of an open clause. */
  ghost predicate Sets(id: Value, lists: seq<seq<Value>>, c: Clause, lower: seq<Level>, upper: seq<Level>, prefixKeys: set<Bytes>) {
    && lower == Pushed(id, lists + [ValuesOf(c.lowerVal)]) && upper == Pushed(id, lists + [ValuesOf(Upper(c))])
    && (OneSet(c.lowerOp) ==> prefixKeys == {})
    && (!OneSet(c.lowerOp) ==> PrefixSet(Pushed(id, lists), prefixKeys))
  }

  /** The keys of a builder, gone through. */
  ghost predicate Iterated(stack: seq<Level>, keys: seq<Bytes>) { Ascending(keys) && IsProduct(stack, Elems(keys)) }

  ghost predicate PrefixesOf(prefixKeys: set<Bytes>, lowers: seq<Bytes>, prefixes: seq<Bytes>) {
    Ascending(prefixes) && Elems(prefixes) == if prefixKeys == {} then Elems(lowers) else prefixKeys
  }

  lemma IteratedKeys(id: Value, lists: seq<seq<Value>>, keys: seq<Bytes>)
    requires Orderly(lists) && Iterated(Pushed(id, lists), keys)
    ensures keys == Keyed(id, Choices(lists))
  {
    KeysInOrder(id, lists, Elems(keys), keys);
  }

  lemma OrderlyMore(lists: seq<seq<Value>>, c: Clause, v: Value)
    requires Orderly(lists) && Formed(c) && (v == c.lowerVal || !v.Arr?)
    ensures Orderly(lists + [ValuesOf(v)])
  {
    hide Plain;
    hide Rising;
    hide ValuesOf;
    hide FormedOne;
    if v.Arr? {
      ValuesRise(c);
    } else {
      SingleValue(v);
    }
  }

  lemma BoundSet(id: Value, lists: seq<seq<Value>>, c: Clause, v: Value, stack: seq<Level>, keys: seq<Bytes>)
    requires Orderly(lists) && Formed(c) && (v == c.lowerVal || !v.Arr?)
    requires stack == Pushed(id, lists + [ValuesOf(v)]) && Iterated(stack, keys)
    ensures keys == Keyed(id, ExtendAll(Choices(lists), ValuesOf(v)))
  {
    hide Orderly;
    hide Formed;
    hide ValuesOf;
    hide Pushed;
    hide Iterated;
    hide Choices;
    hide ExtendAll;
    hide Keyed;
    OrderlyMore(lists, c, v);
    IteratedKeys(id, lists + [ValuesOf(v)], keys);
    ChoicesMore(lists, ValuesOf(v));
  }

  lemma OneSetBounds(c: Clause)
    requires Formed(c) && OneSet(c.lowerOp)
    ensures c.upperOp == NoOp && Upper(c) == c.lowerVal
  {
    if !c.lowerVal.Arr? {
      SingleFormed(c);
    }
  }

  lemma OpenBounds(c: Clause)
    requires Formed(c) && !OneSet(c.lowerOp)
    ensures !c.lowerVal.Arr? && !Upper(c).Arr? && ValuesOf(c.lowerVal) == [c.lowerVal] && ValuesOf(Upper(c)) == [Upper(c)]
  {
    SingleValue(c.lowerVal);
    SingleValue(Upper(c));
  }

  /** The set of prefixes is that of the choices, if there are any. */
  lemma PrefixesAre(id: Value, lists: seq<seq<Value>>, prefixKeys: set<Bytes>, prefixes: seq<Bytes>)
    requires Orderly(lists) && PrefixSet(Pushed(id, lists), prefixKeys) && Ascending(prefixes) && Elems(prefixes) == prefixKeys
    ensures |prefixes| > 0 && (Choices(lists) != [] ==> prefixes == Keyed(id, Choices(lists)))
  {
    hide IsProduct;
    hide Ascending;
    hide Elems;
    hide Pushed;
    hide Choices;
    hide Keyed;
    NoElems(prefixes);
    if IsProduct(Pushed(id, lists), {}) {
      NoneInOrder();
      KeysInOrder(id, lists, {}, []);
      KeyedCount(id, Choices(lists));
    } else {
      KeysInOrder(id, lists, prefixKeys, prefixes);
    }
  }

  lemma NoneInOrder()
    ensures Ascending([]) && Elems([]) == {}
  {
  }

  lemma KeyedCount(id: Value, fs: seq<seq<Value>>)
    ensures |Keyed(id, fs)| == |fs|
  {
  }

  lemma KeyedNotEmpty(id: Value, fs: seq<seq<Value>>)
    ensures forall i :: 0 <= i < |fs| ==> Keyed(id, fs)[i] != []
  {
    EncodingStarts(id);
  }

  lemma NothingOpen(lowers: seq<Bytes>, uppers: seq<Bytes>, prefixes: seq<Bytes>, c: Clause, ps: seq<Bytes>)
    requires lowers == uppers == ps == []
    ensures KeyRanges(lowers, uppers, prefixes, c.lowerOp, c.upperOp) == RangesBehind(ps, c) == []
  {
  }

  lemma OpenPaired(id: Value, fs: seq<seq<Value>>, c: Clause, lowers: seq<Bytes>, uppers: seq<Bytes>, prefixes: seq<Bytes>)
    requires !OneSet(c.lowerOp) && !c.lowerVal.Arr?
    requires lowers == Keyed(id, ExtendAll(fs, [c.lowerVal])) && uppers == Keyed(id, ExtendAll(fs, [Upper(c)]))
    requires fs != [] ==> prefixes == Keyed(id, fs)
    ensures |lowers| == |uppers| == |fs| <= |prefixes|
    ensures KeyRanges(lowers, uppers, prefixes, c.lowerOp, c.upperOp) == RangesBehind(Keyed(id, fs), c)
  {
    RangesPaired(id, fs, c, lowers, uppers, Keyed(id, fs));
    if fs == [] {
      NothingOpen(lowers, uppers, prefixes, c, Keyed(id, fs));
    }
  }

  lemma OneSetBuilt(id: Value, lists: seq<seq<Value>>, c: Clause, lower: seq<Level>, upper: seq<Level>, prefixKeys: set<Bytes>,
                    lowers: seq<Bytes>, uppers: seq<Bytes>, prefixes: seq<Bytes>)
    requires Orderly(lists) && Formed(c) && Sets(id, lists, c, lower, upper, prefixKeys) && OneSet(c.lowerOp)
    requires Iterated(lower, lowers) && Iterated(upper, uppers) && PrefixesOf(prefixKeys, lowers, prefixes)
    ensures lowers == uppers == prefixes && forall i :: 0 <= i < |prefixes| ==> prefixes[i] != []
    ensures KeyRanges(lowers, lowers, lowers, c.lowerOp, c.upperOp) == RangesBehind(Keyed(id, Choices(lists)), c)
  {
    hide Orderly;
    hide Formed;
    hide ValuesOf;
    hide Pushed;
    hide Iterated;
    hide Choices;
    hide ExtendAll;
    hide Keyed;
    hide KeyRanges;
    hide RangesBehind;
    hide PrefixSet;
    hide Ascending;
    hide Elems;
    OneSetBounds(c);
    BoundSet(id, lists, c, c.lowerVal, lower, lowers);
    BoundSet(id, lists, c, c.lowerVal, upper, uppers);
    SamePrefixes(lower, lowers, prefixes);
    OneSetPaired(id, Choices(lists), c, lowers);
  }

  lemma OpenSets(id: Value, lists: seq<seq<Value>>, c: Clause, lower: seq<Level>, upper: seq<Level>, prefixKeys: set<Bytes>,
                    lowers: seq<Bytes>, uppers: seq<Bytes>, prefixes: seq<Bytes>)
    requires Orderly(lists) && Formed(c) && Sets(id, lists, c, lower, upper, prefixKeys) && !OneSet(c.lowerOp)
    requires Iterated(lower, lowers) && Iterated(upper, uppers) && PrefixesOf(prefixKeys, lowers, prefixes)
    ensures !c.lowerVal.Arr? && lowers == Keyed(id, ExtendAll(Choices(lists), [c.lowerVal]))
    ensures uppers == Keyed(id, ExtendAll(Choices(lists), [Upper(c)]))
    ensures |prefixes| > 0 && (Choices(lists) != [] ==> prefixes == Keyed(id, Choices(lists)))
  {
    hide Orderly;
    hide Formed;
    hide ValuesOf;
    hide Pushed;
    hide Iterated;
    hide Choices;
    hide ExtendAll;
    hide Keyed;
    hide KeyRanges;
    hide RangesBehind;
    hide PrefixSet;
    hide Ascending;
    hide Elems;
    OpenBounds(c);
    BoundSet(id, lists, c, c.lowerVal, lower, lowers);
    BoundSet(id, lists, c, Upper(c), upper, uppers);
    OpenPrefixes(lists, id, prefixKeys);
    PrefixesAre(id, lists, prefixKeys, prefixes);
  }

  lemma OpenBuilt(id: Value, lists: seq<seq<Value>>, c: Clause, lower: seq<Level>, upper: seq<Level>, prefixKeys: set<Bytes>,
                    lowers: seq<Bytes>, uppers: seq<Bytes>, prefixes: seq<Bytes>)
    requires Orderly(lists) && Formed(c) && Sets(id, lists, c, lower, upper, prefixKeys) && !OneSet(c.lowerOp)
    requires Iterated(lower, lowers) && Iterated(upper, uppers) && PrefixesOf(prefixKeys, lowers, prefixes)
    ensures |lowers| == |uppers| == |Choices(lists)| <= |prefixes| && |prefixes| > 0 && (Choices(lists) != [] ==> |prefixes| == |lowers|)
    ensures KeyRanges(lowers, uppers, prefixes, c.lowerOp, c.upperOp) == RangesBehind(Keyed(id, Choices(lists)), c)
  {
    hide Orderly;
    hide Formed;
    hide ValuesOf;
    hide Pushed;
    hide Iterated;
    hide Choices;
    hide ExtendAll;
    hide Keyed;
    hide KeyRanges;
    hide RangesBehind;
    hide PrefixSet;
    hide Ascending;
    hide Elems;
    hide Sets;
    hide PrefixesOf;
    OpenSets(id, lists, c, lower, upper, prefixKeys, lowers, uppers, prefixes);
    KeyedCount(id, Choices(lists));
    OpenPaired(id, Choices(lists), c, lowers, uppers, prefixes);
  }

  /** The ranges made of the three sets are those of the last clause behind each choice for the others. */
  lemma RangesBuilt(id: Value, lists: seq<seq<Value>>, c: Clause, lower: seq<Level>, upper: seq<Level>, prefixKeys: set<Bytes>,
                    lowers: seq<Bytes>, uppers: seq<Bytes>, prefixes: seq<Bytes>)
    requires Orderly(lists) && Formed(c) && Sets(id, lists, c, lower, upper, prefixKeys)
    requires Iterated(lower, lowers) && Iterated(upper, uppers) && PrefixesOf(prefixKeys, lowers, prefixes)
    ensures |lowers| <= |uppers| && |lowers| <= |prefixes|
    ensures c.lowerOp.Prefix? ==> forall i :: 0 <= i < |prefixes| ==> prefixes[i] != []
    ensures KeyRanges(lowers, uppers, prefixes, c.lowerOp, c.upperOp) == RangesBehind(Keyed(id, Choices(lists)), c)
  {
    hide Orderly;
    hide Formed;
    hide ValuesOf;
    hide Pushed;
    hide Iterated;
    hide Choices;
    hide ExtendAll;
    hide Keyed;
    hide KeyRanges;
    hide RangesBehind;
    hide PrefixSet;
    hide Sets;
    hide PrefixesOf;
    hide Ascending;
    hide Elems;
    if OneSet(c.lowerOp) {
      OneSetBuilt(id, lists, c, lower, upper, prefixKeys, lowers, uppers, prefixes);
    } else {
      OpenBuilt(id, lists, c, lower, upper, prefixKeys, lowers, uppers, prefixes);
    }
  }

  lemma OneSetPaired(id: Value, fs: seq<seq<Value>>, c: Clause, keys: seq<Bytes>)
    requires OneSet(c.lowerOp) && c.upperOp == NoOp && keys == Keyed(id, ExtendAll(fs, ValuesOf(c.lowerVal)))
    ensures forall i :: 0 <= i < |keys| ==> keys[i] != []
    ensures KeyRanges(keys, keys, keys, c.lowerOp, c.upperOp) == RangesBehind(Keyed(id, fs), c)
  {
    RangesOfOneSet(id, fs, c, keys);
    KeyedNotEmpty(id, ExtendAll(fs, ValuesOf(c.lowerVal)));
  }

  lemma SamePrefixes(stack: seq<Level>, lowers: seq<Bytes>, prefixes: seq<Bytes>)
    requires Iterated(stack, lowers) && PrefixesOf({}, lowers, prefixes)
    ensures prefixes == lowers
  {
    OneOrder(lowers, prefixes);
  }

  lemma OpenPrefixes(lists: seq<seq<Value>>, id: Value, prefixKeys: set<Bytes>)
    requires PrefixSet(Pushed(id, lists), prefixKeys)
    ensures prefixKeys != {}
  {
  }

  // ---- how many keys the sets have ----

  lemma {:induction false} NoChoices(lists: seq<seq<Value>>)
    ensures Choices(lists) == [] <==> exists i :: 0 <= i < |lists| && lists[i] == []
    decreases |lists|
  {
    if |lists| > 0 {
      var n := |lists| - 1;
      NoChoices(lists[..n]);
      NoneExtended(Choices(lists[..n]), lists[n]);
      if i :| 0 <= i < n && lists[..n][i] == [] {
        assert lists[i] == [];
      }
      if i :| 0 <= i < |lists| && lists[i] == [] {
        assert i < n ==> lists[..n][i] == [];
      }
    }
  }

  lemma {:induction false} NoneExtended(fs: seq<seq<Value>>, vals: seq<Value>)
    ensures ExtendAll(fs, vals) == [] <==> fs == [] || vals == []
    decreases |fs|
  {
    if |fs| > 0 {
      NoneExtended(fs[1..], vals);
    }
  }

  /**
   * The three sets have a key for each other, as is assumed when they are gone through, exactly unless
   * the last clause is open and a list before it is empty: then the empty key stands alone.
   */
  lemma SizesAgree(id: Value, lists: seq<seq<Value>>, c: Clause, lower: seq<Level>, upper: seq<Level>, prefixKeys: set<Bytes>,
                   lowers: seq<Bytes>, uppers: seq<Bytes>, prefixes: seq<Bytes>)
    requires Orderly(lists) && Formed(c) && Sets(id, lists, c, lower, upper, prefixKeys)
    requires Iterated(lower, lowers) && Iterated(upper, uppers) && PrefixesOf(prefixKeys, lowers, prefixes)
    ensures |lowers| == |uppers| == |prefixes| <==> OneSet(c.lowerOp) || forall i :: 0 <= i < |lists| ==> lists[i] != []
  {
    hide Orderly;
    hide Formed;
    hide ValuesOf;
    hide Pushed;
    hide Iterated;
    hide Choices;
    hide ExtendAll;
    hide Keyed;
    hide KeyRanges;
    hide RangesBehind;
    hide PrefixSet;
    hide Ascending;
    hide Elems;
    hide Sets;
    hide PrefixesOf;
    NoChoices(lists);
    if OneSet(c.lowerOp) {
      OneSetBuilt(id, lists, c, lower, upper, prefixKeys, lowers, uppers, prefixes);
    } else {
      OpenBuilt(id, lists, c, lower, upper, prefixKeys, lowers, uppers, prefixes);
    }
  }

  // ---- the plan of a query ----

  method InitPlan(index: IndexProps, q: Query) returns (plan: QueryPlan)
    requires index.Valid() && Leading(index.propNames, Pinned(index.includeDeleted, q.where), 0)
    requires WellFormed(Pinned(index.includeDeleted, q.where))
    ensures fresh(plan) && plan.page == q.page && plan.desc == q.desc
    ensures var all := AddedAll([], RangesOf(index.id, index.propNames, Pinned(index.includeDeleted, q.where)), q.page, q.desc);
      plan.ranges == if q.desc then Reversed(all) else all
  {
    var where := q.where;
    if index.includeDeleted && DEL !in where {
      where := where[DEL := NOT_DELETED];
    }
    plan := new QueryPlan(q.page, q.desc);
    BuildRanges(plan, index, where);
    if q.desc {
      plan.ranges := Reversed(plan.ranges);
    }
  }

  function Reversed<T>(s: seq<T>): (r: seq<T>)
    ensures |r| == |s| && forall i :: 0 <= i < |s| ==> r[i] == s[|s| - 1 - i]
  {
    if |s| == 0 then [] else Reversed(s[1..]) + [s[0]]
  }

  /** The values of a bound become a level of a key builder: those of its list, or the one. */
  method PushVal(builder: Builder, val: Value)
    requires AllPlain(Listed(val)) || !val.Arr?
    modifies builder
    ensures builder.stack == old(builder.stack) + [Codes(ValuesOf(val))]
  {
    var level := LevelOf(val);
    builder.Push(level);
  }

  lemma PushedMore(id: Value, lists: seq<seq<Value>>, vals: seq<Value>)
    ensures Pushed(id, lists) + [Codes(vals)] == Pushed(id, lists + [vals])
  {
  }

  lemma LeadsMore(props: seq<string>, where: map<string, Clause>, n: nat)
    requires n < |props| && forall i :: 0 <= i <= n ==> props[i] in where
    ensures Leads(props, where, n + 1) == Leads(props, where, n) + [ValuesOf(where[props[n]].lowerVal)]
  {
  }

  lemma BoundsPlain(c: Clause)
    requires Formed(c)
    ensures AllPlain(Listed(c.lowerVal)) || !c.lowerVal.Arr?
    ensures !c.upperOp.NoOp? ==> !c.upperVal.Arr?
  {
    if c.lowerVal.Arr? {
      forall i | 0 <= i < |Listed(c.lowerVal)| ensures Plain(Listed(c.lowerVal)[i]) {
        assert FormedOne(One(c, Listed(c.lowerVal)[i]));
      }
    }
  }

  lemma LeadsOrderly(props: seq<string>, where: map<string, Clause>, n: nat)
    requires Leading(props, where, 0) && WellFormed(where) && n < |where|
    ensures Orderly(Leads(props, where, n))
  {
    hide Plain;
    hide Rising;
    hide ValuesOf;
    hide Formed;
    forall i | 0 <= i < n ensures AllPlain(ValuesOf(where[props[i]].lowerVal)) && Rising(ValuesOf(where[props[i]].lowerVal)) {
      ValuesRise(where[props[i]]);
    }
  }

  /** What the two builders and the set of prefixes hold after some clauses, and after the last one. */
  ghost predicate Built(id: Value, props: seq<string>, where: map<string, Clause>, i: nat,
                        lower: seq<Level>, upper: seq<Level>, prefixKeys: set<Bytes>, lowerOp: Op, upperOp: Op)
    requires |where| <= |props| && forall i :: 0 <= i < |where| ==> props[i] in where
  {
    if 0 < i == |where| then
      var c := where[props[i - 1]];
      Sets(id, Leads(props, where, i - 1), c, lower, upper, prefixKeys) && lowerOp == c.lowerOp && upperOp == c.upperOp
    else i <= |where| && lower == upper == Pushed(id, Leads(props, where, i)) && prefixKeys == {} && lowerOp == Eq && upperOp == NoOp
  }

  lemma BuiltNone(id: Value, props: seq<string>, where: map<string, Clause>)
    requires !id.Arr? && Leading(props, where, 0)
    ensures Built(id, props, where, 0, [Codes(ValuesOf(id))], [Codes(ValuesOf(id))], {}, Eq, NoOp)
  {
    hide Encode;
    SingleValue(id);
    assert Codes([id]) == [Encode(id)];
    assert Pushed(id, []) == [Codes(ValuesOf(id))];
    assert Leads(props, where, 0) == [];
  }

  lemma BuiltSoFar(id: Value, props: seq<string>, where: map<string, Clause>, i: nat,
                   lower: seq<Level>, upper: seq<Level>, prefixKeys: set<Bytes>, lowerOp: Op, upperOp: Op)
    requires Leading(props, where, 0) && i < |where| && Built(id, props, where, i, lower, upper, prefixKeys, lowerOp, upperOp)
    ensures lower == upper == Pushed(id, Leads(props, where, i)) && prefixKeys == {} && |lower| > 0
  {
  }

  lemma BuiltMore(id: Value, props: seq<string>, where: map<string, Clause>, i: nat, stack: seq<Level>, prefixKeys: set<Bytes>)
    requires Leading(props, where, 0) && WellFormed(where) && i < |where| && stack == Pushed(id, Leads(props, where, i))
    requires if OneSet(where[props[i]].lowerOp) then prefixKeys == {} else PrefixSet(stack, prefixKeys)
    ensures var c := where[props[i]];
      Built(id, props, where, i + 1, stack + [Codes(ValuesOf(c.lowerVal))], stack + [Codes(ValuesOf(Upper(c)))], prefixKeys,
            c.lowerOp, c.upperOp)
  {
    hide Codes;
    hide ValuesOf;
    hide PrefixSet;
    hide Pushed;
    var c := where[props[i]];
    PushedMore(id, Leads(props, where, i), ValuesOf(c.lowerVal));
    PushedMore(id, Leads(props, where, i), ValuesOf(Upper(c)));
    LeadsMore(props, where, i);
    if i < |where| - 1 {
      OneSetBounds(c);
    }
  }

  /** A plan without clauses has the range of the whole index. */
  lemma WholeIndex(id: Value, stack: seq<Level>, lowers: seq<Bytes>, uppers: seq<Bytes>, prefixes: seq<Bytes>)
    requires stack == Pushed(id, []) && Iterated(stack, lowers) && Iterated(stack, uppers) && PrefixesOf({}, lowers, prefixes)
    ensures lowers == uppers == prefixes == [Encode(id)]
    ensures KeyRanges(lowers, uppers, prefixes, Eq, NoOp) == Ranges(Encode(id), Encode(id), Encode(id), Eq, NoOp)
  {
    hide Iterated;
    hide Encode;
    hide Ranges;
    hide Pushed;
    IteratedKeys(id, [], lowers);
    IteratedKeys(id, [], uppers);
    SamePrefixes(stack, lowers, prefixes);
    assert EntryKey(id, []) == Encode(id);
    assert Keyed(id, [[]]) == [Encode(id)];
    assert [Encode(id)][1..] == [];
    assert Ranges(Encode(id), Encode(id), Encode(id), Eq, NoOp) + [] == Ranges(Encode(id), Encode(id), Encode(id), Eq, NoOp);
  }

  lemma RangesOfQuery(id: Value, props: seq<string>, where: map<string, Clause>, lower: seq<Level>, upper: seq<Level>, prefixKeys: set<Bytes>,
                      lowerOp: Op, upperOp: Op, lowers: seq<Bytes>, uppers: seq<Bytes>, prefixes: seq<Bytes>)
    requires Leading(props, where, 0) && WellFormed(where) && Built(id, props, where, |where|, lower, upper, prefixKeys, lowerOp, upperOp)
    requires Iterated(lower, lowers) && Iterated(upper, uppers) && PrefixesOf(prefixKeys, lowers, prefixes)
    ensures |lowers| <= |uppers| && |lowers| <= |prefixes|
    ensures lowerOp.Prefix? ==> forall i :: 0 <= i < |prefixes| ==> prefixes[i] != []
    ensures KeyRanges(lowers, uppers, prefixes, lowerOp, upperOp) == RangesOf(id, props, where)
  {
    hide Sets;
    hide Iterated;
    hide PrefixesOf;
    hide KeyRanges;
    hide RangesBehind;
    hide Ranges;
    hide Pushed;
    hide Encode;
    hide Formed;
    hide Orderly;
    hide Keyed;
    hide Choices;
    if |where| == 0 {
      assert Leads(props, where, 0) == [];
      WholeIndex(id, lower, lowers, uppers, prefixes);
    } else {
      var n := |where| - 1;
      LeadsOrderly(props, where, n);
      RangesBuilt(id, Leads(props, where, n), where[props[n]], lower, upper, prefixKeys, lowers, uppers, prefixes);
    }
  }

  lemma BuiltLevels(id: Value, props: seq<string>, where: map<string, Clause>, lower: seq<Level>, upper: seq<Level>, prefixKeys: set<Bytes>,
                    lowerOp: Op, upperOp: Op)
    requires Leading(props, where, 0) && Built(id, props, where, |where|, lower, upper, prefixKeys, lowerOp, upperOp)
    ensures |lower| > 0 && |upper| > 0
  {
    hide ValuesOf;
    hide PrefixSet;
  }

  /** Pushes the bounds of each clause in the order of the properties, up to the first without one. */
  method BuildRanges(plan: QueryPlan, index: IndexProps, where: map<string, Clause>)
    requires index.Valid() && Leading(index.propNames, where, 0) && WellFormed(where)
    modifies plan
    ensures plan.ranges == AddedAll(old(plan.ranges), RangesOf(index.id, index.propNames, where), plan.page, plan.desc)
  {
    hide AddedAll;
    hide Ranges;
    hide Built;
    hide Codes;
    hide ValuesOf;
    hide RangesOf;
    hide IsProduct;
    hide Formed;
    hide KeyRanges;
    var props := index.propNames;
    var lowerBuilder := new Builder();
    var upperBuilder := new Builder();
    var prefixKeys: set<Bytes> := {};
    var lowerOp, upperOp := Eq, NoOp;
    PushVal(lowerBuilder, index.id);
    PushVal(upperBuilder, index.id);
    assert [] + [Codes(ValuesOf(index.id))] == [Codes(ValuesOf(index.id))];
    BuiltNone(index.id, props, where);
    LeadingIsAll(props, where, 0);
    var i := 0;
    while i < |props| && props[i] in where
      invariant 0 <= i <= |where| && plan.ranges == old(plan.ranges) && fresh(lowerBuilder) && fresh(upperBuilder) && lowerBuilder != upperBuilder
      invariant Built(index.id, props, where, i, lowerBuilder.stack, upperBuilder.stack, prefixKeys, lowerOp, upperOp)
      decreases |props| - i
    {
      OnlyLeading(props, where, i);
      BuiltSoFar(index.id, props, where, i, lowerBuilder.stack, upperBuilder.stack, prefixKeys, lowerOp, upperOp);
      var clause := where[props[i]];
      ghost var stack := lowerBuilder.stack;
      if !clause.lowerOp.Eq? && !clause.lowerOp.Prefix? {
        prefixKeys := lowerBuilder.Keys();
        if prefixKeys == {} {
          prefixKeys := {[]};
        }
      }
      BoundsPlain(clause);
      BuiltMore(index.id, props, where, i, stack, prefixKeys);
      PushVal(lowerBuilder, clause.lowerVal);
      PushVal(upperBuilder, if clause.upperOp.NoOp? then clause.lowerVal else clause.upperVal);
      lowerOp, upperOp := clause.lowerOp, clause.upperOp;
      i := i + 1;
    }
    assert i == |where|;
    BuiltLevels(index.id, props, where, lowerBuilder.stack, upperBuilder.stack, prefixKeys, lowerOp, upperOp);
    var lowerKeys := lowerBuilder.Keys();
    var upperKeys := upperBuilder.Keys();
    ghost var built := prefixKeys;
    if prefixKeys == {} {
      prefixKeys := lowerKeys;
    }
    var lowers := InOrder(lowerKeys);
    var uppers := InOrder(upperKeys);
    var prefixes := InOrder(prefixKeys);
    RangesOfQuery(index.id, props, where, lowerBuilder.stack, upperBuilder.stack, built, lowerOp, upperOp, lowers, uppers, prefixes);
    plan.RangesFromKeySets(lowers, uppers, prefixes, lowerOp, upperOp);
  }
}
