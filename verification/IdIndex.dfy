/** The index of identifiers: it takes the query of no clause and no order, and finds each object once. */
module IdIndex {
  import opened Bytes
  import opened Values
  import opened ValueOrder
  import opened KeyBuilder
  import opened KeySets
  import opened Entries
  import opened Plan
  import opened IndexPlan
  import opened QueryRanges
  import opened Scan
  import opened Paging
  import opened Answers
  import U = IndexUpdate

  /** The index every kind begins with, and the same without deleted objects. */
  method BuiltinTakes(id: Int64, includeDeleted: bool, desc: bool, page: Bytes, ready: bool) returns (names: seq<string>, answer: bool)
    ensures names == if includeDeleted then ["_del", "_id"] else ["_id"]
    ensures answer == ready
  {
    var index := new IndexProps(id, includeDeleted);
    var ok := index.AddProp(ID, false);
    var idIndex;
    ok, idIndex := index.AddBuiltinProps();
    names := index.propNames;
    answer := index.CanAnswer(Query(map[], "", desc, page), ready);
  }

  // ---- one entry for each object ----

  /** The identifier's extractor yields just that, the mark's just the mark, and any other some keys of values. */
  ghost predicate Extracting(names: seq<string>, props: U.Extractors) {
    && |props| == |names|
    && (forall i, d: U.Doc :: 0 <= i < |props| ==> IsLevel(props[i](d)))
    && (forall i, d: U.Doc :: 0 <= i < |props| && names[i] == ID && Plain(d.id) ==> props[i](d) == [Encode(d.id)])
    && (forall i, d: U.Doc :: 0 <= i < |props| && names[i] == DEL ==> props[i](d) == [Encode(Bool(d.deleted))])
  }

  /** Whatever the objects are, an index of these properties has one entry for each. */
  ghost predicate OneEntry(id: Value, names: seq<string>) {
    forall props: U.Extractors, d: U.Doc :: Extracting(names, props) && Plain(d.id) ==> |U.KeysOf(id, props, d)| == 1
  }

  /** A query of no clause and no order is taken exactly by an index that has one entry for each object, the identifier last. */
  lemma IdIndexExactly(id: Value, names: seq<string>, includeDeleted: bool, q: Query)
    requires Distinct(names) && ID in names && q.where == map[] && q.order == ""
    ensures Answerable(names, includeDeleted, q) <==> OneEntry(id, names) && names[|names| - 1] == ID
  {
    hide U.KeysOf;
    hide Extracting;
    if forall name :: name in names ==> name == ID || name == DEL {
      forall props: U.Extractors, d: U.Doc | Extracting(names, props) && Plain(d.id) ensures |U.KeysOf(id, props, d)| == 1 {
        RowIsKey(id, names, props, d);
      }
      AtMostTwo(names);
    } else {
      var i :| 0 <= i < |names| && names[i] != ID && names[i] != DEL;
      var props, d := NoneOf(id, names, i);
    }
  }

  lemma AtMostTwo(names: seq<string>)
    requires Distinct(names) && ID in names && forall name :: name in names ==> name == ID || name == DEL
    ensures names[|names| - 1] == ID <==> names == [ID] || names == [DEL, ID]
  {
    assert |names| > 0 && names[0] in names;
    if |names| > 1 {
      assert names[1] in names && names[0] != names[1];
    }
    if |names| > 2 {
      assert names[2] in names && names[0] != names[2] && names[1] != names[2];
    }
  }

  /** The values of an object's entry. */
  function Row(names: seq<string>, d: U.Doc): seq<Value> {
    seq(|names|, i requires 0 <= i < |names| => if names[i] == ID then d.id else Bool(d.deleted))
  }

  lemma RowIsKey(id: Value, names: seq<string>, props: U.Extractors, d: U.Doc)
    requires Extracting(names, props) && Plain(d.id) && forall name :: name in names ==> name == ID || name == DEL
    ensures U.KeysOf(id, props, d) == {EntryKey(id, Row(names, d))}
  {
    var stack, all := U.Levels(id, props, d), [id] + Row(names, d);
    forall i | 0 <= i < |stack| ensures stack[i] == [Encode(all[i])] {
      if i > 0 {
        assert stack[i] == props[i - 1](d) && names[i - 1] in names;
      }
    }
    OneChoice(stack, all);
    assert all[1..] == Row(names, d);
  }

  /** Of one key for each property there is one combination. */
  lemma {:induction false} OneChoice(stack: seq<Level>, vals: seq<Value>)
    requires |vals| == |stack| && forall i :: 0 <= i < |stack| ==> stack[i] == [Encode(vals[i])]
    ensures Product(stack) == {Suffix(vals)}
    decreases |stack|
  {
    hide Encode;
    if |stack| > 0 {
      OneChoice(stack[1..], vals[1..]);
      var key, rest := Encode(vals[0]), Product(stack[1..]);
      assert stack[0][..0] == [];
      assert PrefixedAll(stack[0], rest) == Prefixed(key, rest);
    }
  }

  /** An object without some property that has no default has no entry. */
  lemma NoneOf(id: Value, names: seq<string>, i: nat) returns (props: U.Extractors, d: U.Doc)
    requires i < |names| && names[i] != ID && names[i] != DEL
    ensures Extracting(names, props) && Plain(d.id) && |U.KeysOf(id, props, d)| != 1
  {
    props, d := Lacking(names), U.Doc(Int(0), false, Null);
    forall k, e: U.Doc | 0 <= k < |names| && Plain(e.id) ensures props[k](e) == Extracted(names[k], e) {
    }
    forall k, e: U.Doc | 0 <= k < |names| ensures IsLevel(props[k](e)) {
      ExtractedLevel(names[k], e);
    }
    var stack := U.Levels(id, props, d);
    assert stack[i + 1] == [];
    NoChoice(stack, i + 1);
  }

  function Extracted(name: string, d: U.Doc): Level {
    if name == ID && Plain(d.id) then [Encode(d.id)] else if name == DEL then [Encode(Bool(d.deleted))] else []
  }

  lemma ExtractedLevel(name: string, d: U.Doc)
    ensures IsLevel(Extracted(name, d))
  {
    hide Encode;
    assert Plain(Bool(d.deleted));
  }

  function Lacking(names: seq<string>): U.Extractors {
    seq(|names|, i requires 0 <= i < |names| => (d: U.Doc) => Extracted(names[i], d))
  }

  lemma {:induction false} NoChoice(stack: seq<Level>, i: nat)
    requires i < |stack| && stack[i] == []
    ensures Product(stack) == {}
  {
    if i > 0 {
      NoChoice(stack[1..], i - 1);
      NothingPrefixed(stack[0]);
    }
  }

  lemma {:induction false} NothingPrefixed(vals: Level)
    ensures PrefixedAll(vals, {}) == {}
  {
    if |vals| > 0 {
      NothingPrefixed(vals[..|vals| - 1]);
    }
  }

  // ---- what the query of no clause finds ----

  /** The objects that are not deleted. */
  ghost function Living(index: U.Index): set<Value>
    reads index
  {
    set i | i in index.docs && !index.docs[i].deleted
  }

  ghost function EntryOfDoc(id: Value, names: seq<string>, docs: map<Value, U.Doc>, i: Value): Bytes
    requires i in docs
  {
    EntryKey(id, Row(names, docs[i]))
  }

  /** Every object that is not deleted is found, each by one entry, and nothing else is. */
  lemma FindsEach(index: U.Index, keys: seq<Bytes>, q: Query)
    requires Ready(index, keys, q) && q.where == map[] && q.order == "" && Extracting(index.def.propNames, index.props)
    ensures Leading(index.def.propNames, Pinned(index.includeDeleted, q.where), 0)
    ensures var answer := PageAnswer(Store(keys, {}), RequestOf(index, q), []);
      && |answer| == |Living(index)|
      && forall i :: i in Living(index) ==> EntryOfDoc(index.id, index.def.propNames, index.docs, i) in answer
  {
    hide EntryKey;
    hide Answerable;
    hide Extracting;
    hide U.KeysOf;
    hide InScanOrder;
    TakesBoth(index.def.propNames, index.includeDeleted, q);
    ReadyLeads(index, keys, q);
    AnswerOnce(index, keys, q, []);
    var answer := PageAnswer(Store(keys, {}), RequestOf(index, q), []);
    var id, names, docs := index.id, index.def.propNames, index.docs;
    forall k ensures k in answer <==> exists i :: i in Living(index) && EntryOfDoc(id, names, docs, i) == k {
      FoundIsLiving(index, keys, q, k);
    }
    hide Ready;
    assert forall i :: i in Living(index) ==> EntryOfDoc(id, names, docs, i) in answer;
    var found := set i | i in Living(index) :: EntryOfDoc(id, names, docs, i);
    assert Elems(answer) == found;
    OnceCounted(answer, q.desc);
    forall i, j | i in Living(index) && j in Living(index) && i != j
      ensures EntryOfDoc(id, names, docs, i) != EntryOfDoc(id, names, docs, j)
    {
      EntriesApart(index, i, j);
    }
    AsMany(id, names, docs, Living(index));
  }

  lemma FoundIsLiving(index: U.Index, keys: seq<Bytes>, q: Query, k: Bytes)
    requires Ready(index, keys, q) && q.where == map[] && q.order == "" && Extracting(index.def.propNames, index.props)
    requires Leading(index.def.propNames, Pinned(index.includeDeleted, q.where), 0)
    ensures k in PageAnswer(Store(keys, {}), RequestOf(index, q), []) <==>
      exists i :: i in Living(index) && EntryOfDoc(index.id, index.def.propNames, index.docs, i) == k
  {
    hide EntryKey;
    hide U.KeysOf;
    AnswerMatches(index, keys, q, [], k);
    if Matches(index, q, k) {
      var i, vals :| Matching(index, q, i, vals) && k == EntryKey(index.id, vals);
      MarkMet(index, keys, q, i, vals);
      TakesBoth(index.def.propNames, index.includeDeleted, q);
      ValuesAreRow(index.def.propNames, index.props, index.docs[i], vals);
      assert i in Living(index);
    }
    if i :| i in Living(index) && EntryOfDoc(index.id, index.def.propNames, index.docs, i) == k {
      LivingMatches(index, keys, q, i);
    }
  }

  lemma TakesBoth(names: seq<string>, includeDeleted: bool, q: Query)
    requires Answerable(names, includeDeleted, q) && q.where == map[] && q.order == ""
    ensures forall name :: name in names ==> name == ID || name == DEL
  {
  }

  /** With the extractors of the identifier and the mark an entry has just their values. */
  lemma ValuesAreRow(names: seq<string>, props: U.Extractors, d: U.Doc, vals: seq<Value>)
    requires Extracting(names, props) && Plain(d.id) && HasValues(props, d, vals)
    requires forall name :: name in names ==> name == ID || name == DEL
    ensures vals == Row(names, d)
  {
    hide Encode;
    forall i | 0 <= i < |vals| ensures vals[i] == Row(names, d)[i] {
      assert names[i] in names && Encode(vals[i]) in props[i](d);
      PrefixFree(vals[i], Row(names, d)[i]);
    }
  }

  lemma LivingMatches(index: U.Index, keys: seq<Bytes>, q: Query, i: Value)
    requires Ready(index, keys, q) && q.where == map[] && q.order == "" && Extracting(index.def.propNames, index.props)
    requires i in Living(index)
    ensures Matches(index, q, EntryOfDoc(index.id, index.def.propNames, index.docs, i))
  {
    hide EntryKey;
    hide Compare;
    hide Encode;
    hide U.KeysOf;
    hide Leading;
    var names, d := index.def.propNames, index.docs[i];
    TakesBoth(names, index.includeDeleted, q);
    var vals := Row(names, d);
    forall j | 0 <= j < |names| ensures Plain(vals[j]) && Encode(vals[j]) in index.props[j](d) {
      assert names[j] in names;
    }
    forall j | 0 <= j < |names| && names[j] in Pinned(index.includeDeleted, q.where)
      ensures Accepts(Pinned(index.includeDeleted, q.where)[names[j]], vals[j])
    {
      SingleAccepts(NOT_DELETED, Bool(false));
      EqualIsSame(Bool(false), Bool(false));
    }
    assert Matching(index, q, i, vals);
  }

  lemma EntriesApart(index: U.Index, i: Value, j: Value)
    requires index.Valid() && i in index.docs && j in index.docs && i != j && Extracting(index.def.propNames, index.props)
    requires forall name :: name in index.def.propNames ==> name == ID || name == DEL
    ensures var names := index.def.propNames; EntryOfDoc(index.id, names, index.docs, i) != EntryOfDoc(index.id, names, index.docs, j)
  {
    hide EntryKey;
    hide U.KeysOf;
    RowIsKey(index.id, index.def.propNames, index.props, index.docs[i]);
    RowIsKey(index.id, index.def.propNames, index.props, index.docs[j]);
    U.KeysApart(index.id, index.props, index.idIndex, index.docs[i], index.docs[j]);
  }

  lemma {:induction false} OnceCounted(keys: seq<Bytes>, desc: bool)
    requires InScanOrder(keys, desc)
    ensures |Elems(keys)| == |keys|
  {
    if |keys| > 0 {
      var n := |keys| - 1;
      OnceCounted(keys[..n], desc);
      assert keys == keys[..n] + [keys[n]];
      ElemsMore(keys[..n], keys[n]);
      LexZero(keys[n], keys[n]);
    }
  }

  lemma {:induction false} AsMany(id: Value, names: seq<string>, docs: map<Value, U.Doc>, some: set<Value>)
    requires some <= docs.Keys
    requires forall i, j :: i in some && j in some && i != j ==> EntryOfDoc(id, names, docs, i) != EntryOfDoc(id, names, docs, j)
    ensures |set i | i in some :: EntryOfDoc(id, names, docs, i)| == |some|
  {
    hide EntryOfDoc;
    if some != {} {
      var i :| i in some;
      var fewer := some - {i};
      AsMany(id, names, docs, fewer);
      assert (set j | j in some :: EntryOfDoc(id, names, docs, j)) == (set j | j in fewer :: EntryOfDoc(id, names, docs, j)) + {EntryOfDoc(id, names, docs, i)};
    }
  }

  /**
   * An index on the mark alone whose extractor has no default: an object without the mark has no key, and
   * yet the query of no clause is taken. It finds nothing at all.
   */
  lemma MarkMissing(index: U.Index, keys: seq<Bytes>, q: Query)
    requires index.Valid() && index.Defined() && Ascending(keys) && Elems(keys) == index.entries
    requires index.def.propNames == [DEL, ID] && q.where == map[] && q.order == ""
    requires forall e: U.Doc :: index.props[0](e) == if e.deleted then [Encode(Bool(true))] else []
    ensures Ready(index, keys, q)
    ensures Leading(index.def.propNames, Pinned(index.includeDeleted, q.where), 0)
    ensures PageAnswer(Store(keys, {}), RequestOf(index, q), []) == []
  {
    hide U.KeysOf;
    assert WellFormed(Pinned(index.includeDeleted, q.where));
    var answer := PageAnswer(Store(keys, {}), RequestOf(index, q), []);
    if |answer| > 0 {
      var k := answer[0];
      AnswerMatches(index, keys, q, [], k);
      var i, vals :| Matching(index, q, i, vals) && k == EntryKey(index.id, vals);
      MarkFails(index, keys, q, i, vals);
    }
  }

  lemma MarkFails(index: U.Index, keys: seq<Bytes>, q: Query, i: Value, vals: seq<Value>)
    requires Ready(index, keys, q) && index.def.propNames == [DEL, ID] && q.where == map[]
    requires forall e: U.Doc :: index.props[0](e) == if e.deleted then [Encode(Bool(true))] else []
    ensures !Matching(index, q, i, vals)
  {
    hide Encode;
    hide Compare;
    if Matching(index, q, i, vals) {
      assert Encode(vals[0]) in index.props[0](index.docs[i]);
      PrefixFree(vals[0], Bool(true));
      assert index.includeDeleted;
      SingleAccepts(NOT_DELETED, vals[0]);
      EqualIsSame(vals[0], Bool(false));
    }
  }
}
