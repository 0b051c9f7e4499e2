/** From objects to answers: what a query finds in an index that has followed the objects. */
module Answers {
  import opened Bytes
  import opened Values
  import opened ValueOrder
  import opened Keys
  import opened KeyBuilder
  import opened KeySets
  import opened Entries
  import opened Plan
  import opened PlanPage
  import opened IndexPlan
  import opened QueryRanges
  import opened QueryOrder
  import opened Scan
  import opened Paging
  import U = IndexUpdate

  // ---- the keys of an object, by its values ----

  /** One value of an object for each property of an index. */
  ghost predicate HasValues(props: U.Extractors, d: U.Doc, vals: seq<Value>) {
    |vals| == |props| && AllPlain(vals) && forall i :: 0 <= i < |props| ==> Encode(vals[i]) in props[i](d)
  }

  lemma ValuesAreKey(id: Value, props: U.Extractors, d: U.Doc, vals: seq<Value>)
    requires HasValues(props, d, vals)
    ensures EntryKey(id, vals) in U.KeysOf(id, props, d)
  {
    var stack, all := U.Levels(id, props, d), [id] + vals;
    forall i | 0 <= i < |stack| ensures Encode(all[i]) in stack[i] {
      if i > 0 {
        assert all[i] == vals[i - 1] && stack[i] == props[i - 1](d);
      }
    }
    var c := ValuesChosen(stack, all);
    ProductIsProduct(stack);
    assert all[1..] == vals;
  }

  lemma KeyHasValues(id: Value, props: U.Extractors, idIndex: nat, d: U.Doc, k: Bytes) returns (vals: seq<Value>)
    requires Plain(id) && U.Extracts(props, idIndex) && k in U.KeysOf(id, props, d)
    ensures HasValues(props, d, vals) && EntryKey(id, vals) == k
  {
    var stack := U.Levels(id, props, d);
    U.LevelsAreLevels(id, props, d);
    ProductIsProduct(stack);
    var c :| IsChoice(stack, c) && Joined(stack, c) == k;
    var all := ChosenValues(stack, c);
    vals := all[1..];
    forall i | 0 <= i < |props| ensures Encode(vals[i]) in props[i](d) {
      assert vals[i] == all[i + 1] && stack[i + 1] == props[i](d);
    }
    assert Encode(all[0]) == stack[0][c[0]] == Encode(id);
  }

  // ---- what a query finds ----

  /** An object that is included has values that meet every clause of the query, and this is their entry. */
  ghost predicate Matches(index: U.Index, q: Query, k: Bytes)
    requires index.Defined()
    reads index, index.def
  {
    exists i, vals :: Matching(index, q, i, vals) && k == EntryKey(index.id, vals)
  }

  ghost predicate Matching(index: U.Index, q: Query, i: Value, vals: seq<Value>)
    requires index.Defined()
    reads index, index.def
  {
    && i in index.docs && (index.includeDeleted || !index.docs[i].deleted) && HasValues(index.props, index.docs[i], vals)
    && Meets(index.def.propNames, Pinned(index.includeDeleted, q.where), vals)
  }

  /** The index follows its objects, and says that it answers the query. */
  ghost predicate Ready(index: U.Index, keys: seq<Bytes>, q: Query)
    reads index, index.def
  {
    && index.Valid() && index.Defined() && Ascending(keys) && Elems(keys) == index.entries
    && (index.includeDeleted ==> index.def.propNames[0] == DEL)
    && Answerable(index.def.propNames, index.includeDeleted, q) && WellFormed(Pinned(index.includeDeleted, q.where))
  }

  ghost function RequestOf(index: U.Index, q: Query): Request
    reads index, index.def
  {
    Request(index.id, index.def.propNames, Pinned(index.includeDeleted, q.where), q.desc)
  }

  lemma ReadyLeads(index: U.Index, keys: seq<Bytes>, q: Query)
    requires Ready(index, keys, q)
    ensures Leading(index.def.propNames, Pinned(index.includeDeleted, q.where), 0) && Sound(Store(keys, {}), RequestOf(index, q))
  {
    PinnedLeads(index.def.propNames, index.includeDeleted, q.where);
    IndexFit(index, keys);
  }

  /** On a page of the answer are the entries of the objects that match, and no others. */
  lemma AnswerMatches(index: U.Index, keys: seq<Bytes>, q: Query, page: Bytes, k: Bytes)
    requires Ready(index, keys, q)
    ensures Leading(index.def.propNames, Pinned(index.includeDeleted, q.where), 0)
    ensures k in PageAnswer(Store(keys, {}), RequestOf(index, q), page) <==> Matches(index, q, k) && OnPage(page, q.desc, k)
  {
    ReadyLeads(index, keys, q);
    var names, where := index.def.propNames, Pinned(index.includeDeleted, q.where);
    var wanted := Wanted(keys, PlannedRanges(index.id, names, where, page, q.desc), q.desc, 0);
    AllPresent(wanted);
    assert PageAnswer(Store(keys, {}), RequestOf(index, q), page) == wanted;
    if k in wanted {
      WantedHas(keys, PlannedRanges(index.id, names, where, page, q.desc), q.desc, 0, k);
      var i, vals := EntryOf(index, keys, k);
      QueryWants(keys, index.id, names, where, page, q.desc, vals);
      assert Matching(index, q, i, vals);
    }
    if Matches(index, q, k) && OnPage(page, q.desc, k) {
      var i, vals :| Matching(index, q, i, vals) && k == EntryKey(index.id, vals);
      ValuesAreKey(index.id, index.props, index.docs[i], vals);
      assert k in Elems(keys);
      QueryWants(keys, index.id, names, where, page, q.desc, vals);
    }
  }

  /** The extractor of the mark of deletion, where an index has deleted objects, yields that mark. */
  ghost predicate YieldsMark(index: U.Index)
    reads index
  {
    index.includeDeleted ==> |index.props| > 0 && forall d: U.Doc :: index.props[0](d) == [Encode(Bool(d.deleted))]
  }

  lemma MarkMet(index: U.Index, keys: seq<Bytes>, q: Query, i: Value, vals: seq<Value>)
    requires Ready(index, keys, q) && YieldsMark(index) && DEL !in q.where && Matching(index, q, i, vals)
    ensures !index.docs[i].deleted
  {
    hide Compare;
    hide Answerable;
    if index.includeDeleted {
      var mark := Bool(index.docs[i].deleted);
      assert Encode(vals[0]) in index.props[0](index.docs[i]);
      PrefixFree(vals[0], mark);
      assert Accepts(NOT_DELETED, vals[0]);
      SingleAccepts(NOT_DELETED, mark);
      EqualIsSame(mark, Bool(false));
    }
  }

  /** A query without a clause on the mark of deletion finds no deleted object, whether the index has them or not. */
  lemma DeletedNotFound(index: U.Index, keys: seq<Bytes>, q: Query, page: Bytes, k: Bytes, j: Value)
    requires Ready(index, keys, q) && YieldsMark(index) && DEL !in q.where && j in index.docs && index.docs[j].deleted
    ensures Leading(index.def.propNames, Pinned(index.includeDeleted, q.where), 0)
    ensures k in PageAnswer(Store(keys, {}), RequestOf(index, q), page) ==> k !in U.KeysOf(index.id, index.props, index.docs[j])
  {
    hide U.KeysOf;
    hide Answerable;
    AnswerMatches(index, keys, q, page, k);
    if Matches(index, q, k) {
      var i, vals :| Matching(index, q, i, vals) && k == EntryKey(index.id, vals);
      MarkMet(index, keys, q, i, vals);
      ValuesAreKey(index.id, index.props, index.docs[i], vals);
      U.KeysApart(index.id, index.props, index.idIndex, index.docs[i], index.docs[j]);
    }
  }

  /** An object as a query means it: one that meets the clauses it has, and not deleted unless it has one on the mark. */
  ghost predicate Meant(index: U.Index, q: Query, i: Value, vals: seq<Value>)
    requires index.Defined()
    reads index, index.def
  {
    && i in index.docs && HasValues(index.props, index.docs[i], vals) && Meets(index.def.propNames, q.where, vals)
    && if DEL in q.where && index.includeDeleted then true else !index.docs[i].deleted
  }

  /** On a page of the answer are the entries of the objects the query means, and no others. */
  lemma FoundExactly(index: U.Index, keys: seq<Bytes>, q: Query, page: Bytes, k: Bytes)
    requires Ready(index, keys, q) && YieldsMark(index)
    ensures Leading(index.def.propNames, Pinned(index.includeDeleted, q.where), 0)
    ensures k in PageAnswer(Store(keys, {}), RequestOf(index, q), page) <==>
      OnPage(page, q.desc, k) && exists i, vals :: Meant(index, q, i, vals) && k == EntryKey(index.id, vals)
  {
    hide Answerable;
    hide EntryKey;
    AnswerMatches(index, keys, q, page, k);
    if Matches(index, q, k) {
      var i, vals :| Matching(index, q, i, vals) && k == EntryKey(index.id, vals);
      MeantMatches(index, keys, q, i, vals);
    }
    if i, vals :| Meant(index, q, i, vals) && k == EntryKey(index.id, vals) {
      MeantMatches(index, keys, q, i, vals);
    }
  }

  lemma MeantMatches(index: U.Index, keys: seq<Bytes>, q: Query, i: Value, vals: seq<Value>)
    requires Ready(index, keys, q) && YieldsMark(index)
    ensures Matching(index, q, i, vals) <==> Meant(index, q, i, vals)
  {
    hide Accepts;
    hide Encode;
    hide Answerable;
    if Matching(index, q, i, vals) && DEL !in q.where {
      MarkMet(index, keys, q, i, vals);
    }
    if Meant(index, q, i, vals) && DEL !in q.where && index.includeDeleted {
      assert Encode(vals[0]) in index.props[0](index.docs[i]);
      PrefixFree(vals[0], Bool(false));
      NotDeletedAccepts();
    }
  }

  lemma NotDeletedAccepts()
    ensures Accepts(NOT_DELETED, Bool(false))
  {
    SingleAccepts(NOT_DELETED, Bool(false));
    EqualIsSame(Bool(false), Bool(false));
  }

  lemma {:induction false} AllPresent(keys: seq<Bytes>)
    ensures Present(keys, {}) == keys
  {
    if |keys| > 0 {
      AllPresent(keys[1..]);
    }
  }

  /** An entry is that of an object that is included. */
  lemma EntryOf(index: U.Index, keys: seq<Bytes>, k: Bytes) returns (i: Value, vals: seq<Value>)
    requires index.Valid() && Elems(keys) == index.entries && k in keys
    ensures i in index.docs && (index.includeDeleted || !index.docs[i].deleted) && HasValues(index.props, index.docs[i], vals)
    ensures EntryKey(index.id, vals) == k
  {
    assert k in Elems(keys);
    i :| i in index.docs && (index.includeDeleted || !index.docs[i].deleted) && k in U.KeysOf(index.id, index.props, index.docs[i]);
    vals := KeyHasValues(index.id, index.props, index.idIndex, index.docs[i], k);
  }

  // ---- in which order ----

  predicate InScanOrder(keys: seq<Bytes>, desc: bool) {
    forall i, j :: 0 <= i < j < |keys| ==> if desc then Lex(keys[j], keys[i]) < 0 else Lex(keys[i], keys[j]) < 0
  }

  lemma {:induction false} WantedInOrder(keys: seq<Bytes>, ranges: seq<Range>, desc: bool, p: int)
    requires Ascending(keys) && 0 <= p <= |keys|
    ensures InScanOrder(Wanted(keys, ranges, desc, p), desc)
    decreases |keys| - p
  {
    hide InSome;
    hide Lex;
    if p < |keys| {
      var rest := Wanted(keys, ranges, desc, p + 1);
      WantedInOrder(keys, ranges, desc, p + 1);
      forall j | 0 <= j < |rest|
        ensures if desc then Lex(rest[j], At(keys, desc, p)) < 0 else Lex(At(keys, desc, p), rest[j]) < 0
      {
        WantedHas(keys, ranges, desc, p + 1, rest[j]);
        var q :| p + 1 <= q < |keys| && At(keys, desc, q) == rest[j];
      }
    }
  }

  /** Each entry comes once, in the order of the scan. */
  lemma AnswerOnce(index: U.Index, keys: seq<Bytes>, q: Query, page: Bytes)
    requires Ready(index, keys, q)
    ensures Leading(index.def.propNames, Pinned(index.includeDeleted, q.where), 0)
    ensures InScanOrder(PageAnswer(Store(keys, {}), RequestOf(index, q), page), q.desc)
  {
    ReadyLeads(index, keys, q);
    var where := Pinned(index.includeDeleted, q.where);
    var ranges := PlannedRanges(index.id, index.def.propNames, where, page, q.desc);
    AllPresent(Wanted(keys, ranges, q.desc, 0));
    WantedInOrder(keys, ranges, q.desc, 0);
  }

  /** An entry at some place of the answer. */
  ghost predicate Found(index: U.Index, keys: seq<Bytes>, q: Query, page: Bytes, i: nat, vals: seq<Value>)
    reads index, index.def
  {
    Leading(index.def.propNames, Pinned(index.includeDeleted, q.where), 0) &&
    var answer := PageAnswer(Store(keys, {}), RequestOf(index, q), page);
    i < |answer| && answer[i] == EntryKey(index.id, vals) && |vals| == |index.def.propNames| && AllPlain(vals)
  }

  /** Where the query is accepted and has passed the check, its entries come in the order of the property it asks for. */
  lemma AnswerInOrder(index: U.Index, keys: seq<Bytes>, q: Query, page: Bytes, i: nat, a: seq<Value>, j: nat, b: seq<Value>)
    returns (at: nat)
    requires Ready(index, keys, q) && ValidFind(q) && q.order != ""
    requires Found(index, keys, q, page, i, a) && Found(index, keys, q, page, j, b) && i < j
    ensures at < |index.def.propNames| && index.def.propNames[at] == q.order
    ensures if q.desc then Compare(b[at], a[at]) <= 0 else Compare(a[at], b[at]) <= 0
  {
    hide Lex;
    hide Compare;
    hide EntryKey;
    AnswerOnce(index, keys, q, page);
    var names, where := index.def.propNames, Pinned(index.includeDeleted, q.where);
    at := AcceptedOrder(names, index.includeDeleted, q);
    FoundMeets(index, keys, q, page, i, a);
    FoundMeets(index, keys, q, page, j, b);
    if q.desc {
      AnswerOrdered(index.id, names, where, b, a, at);
    } else {
      AnswerOrdered(index.id, names, where, a, b, at);
    }
  }

  lemma FoundMeets(index: U.Index, keys: seq<Bytes>, q: Query, page: Bytes, i: nat, vals: seq<Value>)
    requires Ready(index, keys, q) && Found(index, keys, q, page, i, vals)
    ensures Meets(index.def.propNames, Pinned(index.includeDeleted, q.where), vals)
  {
    ReadyLeads(index, keys, q);
    var names, where := index.def.propNames, Pinned(index.includeDeleted, q.where);
    var ranges := PlannedRanges(index.id, names, where, page, q.desc);
    AllPresent(Wanted(keys, ranges, q.desc, 0));
    WantedHas(keys, ranges, q.desc, 0, EntryKey(index.id, vals));
    QueryWants(keys, index.id, names, where, page, q.desc, vals);
  }

  /** Read page by page, with whatever limit, that is the answer. */
  lemma AnswerPaged(index: U.Index, keys: seq<Bytes>, q: Query, limit: nat, n: nat)
    requires Ready(index, keys, q) && limit > 0
    ensures Leading(index.def.propNames, Pinned(index.includeDeleted, q.where), 0)
    ensures var store, r := Store(keys, {}), RequestOf(index, q);
      n > |PageAnswer(store, r, [])| ==> Pages(store, r, limit, [], n) == PageAnswer(store, r, [])
  {
    ReadyLeads(index, keys, q);
    if n > |PageAnswer(Store(keys, {}), RequestOf(index, q), [])| {
      PagesConcat(Store(keys, {}), RequestOf(index, q), limit, [], n);
    }
  }
}
