/** The entries of an index follow the objects they are made from. */
module IndexUpdate {
  import opened Bytes
  import opened Values
  import opened ValueOrder
  import opened KeyBuilder
  import opened IndexPlan
  import opened KeySets
  import opened Entries

  // ---- the keys of one set that are not in another ----

  /** What a pass over both sequences has found of the difference before a place. */
  ghost predicate Diffed(a: seq<Bytes>, b: seq<Bytes>, node: nat, diff: seq<Bytes>)
    requires node <= |a|
  {
    Ascending(diff) && Elems(diff) == Elems(a[..node]) - Elems(b) && (node < |a| ==> AllBelow(diff, a[node]))
  }

  lemma MinusOne(e: set<Bytes>, x: Bytes, b: set<Bytes>)
    ensures x in b ==> e + {x} - b == e - b
    ensures x !in b ==> e + {x} - b == e - b + {x}
  {
  }

  lemma DiffedMore(a: seq<Bytes>, b: seq<Bytes>, node: nat, diff: seq<Bytes>, diff': seq<Bytes>)
    requires Ascending(a) && node < |a| && Diffed(a, b, node, diff)
    requires diff' == if a[node] in Elems(b) then diff else diff + [a[node]]
    ensures Diffed(a, b, node + 1, diff')
  {
    assert a[..node + 1] == a[..node] + [a[node]];
    ElemsMore(a[..node], a[node]);
    ElemsMore(diff, a[node]);
    AscendingMore(diff, a[node]);
    if node + 1 < |a| {
      BelowToo(diff, a[node], a[node + 1]);
    }
    hide Elems;
    hide Ascending;
    hide AllBelow;
    MinusOne(Elems(a[..node]), a[node], Elems(b));
  }

  /** The keys of one set that are not in another, by one pass over both. */
  method Diff(a: seq<Bytes>, b: seq<Bytes>) returns (diff: seq<Bytes>)
    requires Ascending(a) && Ascending(b)
    ensures Ascending(diff) && Elems(diff) == Elems(a) - Elems(b)
  {
    hide Ascending;
    hide AllBelow;
    hide Lex;
    diff := [];
    var node, compNode := 0, 0;
    NoneDiffed(a, b);
    while node != |a|
      invariant 0 <= node <= |a| && 0 <= compNode <= |b|
      invariant Diffed(a, b, node, diff)
      invariant node < |a| ==> AllBelow(b[..compNode], a[node])
      decreases |a| - node + |b| - compNode
    {
      var comp := if compNode < |b| then Lex(a[node], b[compNode]) else -1;
      NotAmong(a[node], b, compNode, comp);
      ghost var before := diff;
      if comp < 0 {
        diff := diff + [a[node]];
      }
      if comp <= 0 {
        DiffedMore(a, b, node, before, diff);
      }
      if comp >= 0 {
        compNode := compNode + 1;
      }
      if comp <= 0 {
        NodePassed(a, b, node, compNode);
        node := node + 1;
      }
    }
    assert a[..node] == a;
  }

  lemma NoneDiffed(a: seq<Bytes>, b: seq<Bytes>)
    ensures Diffed(a, b, 0, [])
    ensures |a| > 0 ==> AllBelow(b[..0], a[0])
  {
    EmptyInOrder();
  }

  /** Where the comparison is below, the key is not among the others; where it is equal, it is. */
  lemma NotAmong(key: Bytes, b: seq<Bytes>, at: nat, comp: int)
    requires Ascending(b) && at <= |b| && AllBelow(b[..at], key)
    requires comp == if at < |b| then Lex(key, b[at]) else -1
    ensures comp < 0 ==> key !in Elems(b)
    ensures comp == 0 ==> key in Elems(b)
    ensures comp > 0 ==> AllBelow(b[..at + 1], key)
    ensures comp == 0 ==> forall k :: Lex(key, k) < 0 ==> AllBelow(b[..at + 1], k)
  {
    LexZero(key, key);
    if comp < 0 {
      forall i | 0 <= i < |b| ensures b[i] != key {
        assert i < at ==> b[..at][i] == b[i];
        if i > at { LexTrans(key, b[at], b[i]); }
      }
    } else {
      assert b[..at + 1] == b[..at] + [b[at]];
      LexFlip(key, b[at]);
      if comp == 0 {
        LexZero(key, b[at]);
        forall k | Lex(key, k) < 0 ensures AllBelow(b[..at + 1], k) {
          BelowToo(b[..at], key, k);
        }
      }
    }
  }

  lemma NodePassed(a: seq<Bytes>, b: seq<Bytes>, node: nat, at: nat)
    requires Ascending(a) && node < |a| && at <= |b|
    requires AllBelow(b[..at], a[node]) || forall k :: Lex(a[node], k) < 0 ==> AllBelow(b[..at], k)
    ensures node + 1 < |a| ==> AllBelow(b[..at], a[node + 1])
  {
    if node + 1 < |a| && AllBelow(b[..at], a[node]) {
      BelowToo(b[..at], a[node], a[node + 1]);
    }
  }

  // ---- the keys of an object ----

  /** An object: its identifier, its mark of deletion and the rest. */
  datatype Doc = Doc(id: Value, deleted: bool, body: Value)

  /** What the properties of an index take out of an object, each in ascending order. */
  type Extractors = seq<Doc -> Level>

  /** Extractors yield the keys of values, and the one for the identifier yields just that. */
  ghost predicate Extracts(props: Extractors, idIndex: nat) {
    && idIndex < |props|
    && (forall i, d: Doc :: 0 <= i < |props| ==> IsLevel(props[i](d)))
    && (forall d: Doc :: Plain(d.id) ==> props[idIndex](d) == [Encode(d.id)])
  }

  function Levels(id: Value, props: Extractors, d: Doc): seq<Level> {
    [[Encode(id)]] + seq(|props|, i requires 0 <= i < |props| => props[i](d))
  }

  ghost function KeysOf(id: Value, props: Extractors, d: Doc): set<Bytes> { Product(Levels(id, props, d)) }

  lemma LevelsAreLevels(id: Value, props: Extractors, d: Doc)
    requires Plain(id) && forall i :: 0 <= i < |props| ==> IsLevel(props[i](d))
    ensures forall i :: 0 <= i < |props| + 1 ==> IsLevel(Levels(id, props, d)[i])
  {
    assert Encode(id) in [Encode(id)];
    forall k | k in [Encode(id)] ensures exists v :: Plain(v) && Encode(v) == k {
      assert Encode(id) == k;
    }
  }

  /** A key of an object has the object's identifier in its place. */
  lemma KeyHoldsId(id: Value, props: Extractors, idIndex: nat, d: Doc, k: Bytes) returns (vals: seq<Value>)
    requires Plain(id) && Plain(d.id) && Extracts(props, idIndex) && k in KeysOf(id, props, d)
    ensures |vals| == |props| + 1 && AllPlain(vals) && Suffix(vals) == k && vals[idIndex + 1] == d.id && vals[0] == id
  {
    var stack := Levels(id, props, d);
    LevelsAreLevels(id, props, d);
    ProductIsProduct(stack);
    var c :| IsChoice(stack, c) && Joined(stack, c) == k;
    vals := ChosenValues(stack, c);
    assert stack[idIndex + 1] == [Encode(d.id)];
    assert Encode(vals[idIndex + 1]) == Encode(d.id);
    PrefixFree(vals[idIndex + 1], d.id);
    assert stack[0] == [Encode(id)];
    assert Encode(vals[0]) == Encode(id);
    PrefixFree(vals[0], id);
  }

  /** Objects with different identifiers share no key. */
  lemma KeysApart(id: Value, props: Extractors, idIndex: nat, d: Doc, e: Doc)
    requires Plain(id) && Plain(d.id) && Plain(e.id) && Extracts(props, idIndex) && d.id != e.id
    ensures KeysOf(id, props, d) !! KeysOf(id, props, e)
  {
    forall k | k in KeysOf(id, props, d) ensures k !in KeysOf(id, props, e) {
      if k in KeysOf(id, props, e) {
        var x := KeyHoldsId(id, props, idIndex, d, k);
        var y := KeyHoldsId(id, props, idIndex, e, k);
        SuffixBegins(x, y);
      }
    }
  }

  /** How many of the first keys are not among some. */
  ghost function Missed(keys: seq<Bytes>, i: nat, some: set<Bytes>): nat
    requires i <= |keys|
  {
    |Elems(keys[..i]) - some|
  }

  lemma NoneDeleted(keys: seq<Bytes>, some: set<Bytes>)
    ensures Elems(keys[..0]) == {} && Missed(keys, 0, some) == 0
  {
    assert Elems(keys[..0]) - some == {};
  }

  lemma OneDeleted(keys: seq<Bytes>, i: nat, some: set<Bytes>)
    requires Ascending(keys) && i < |keys|
    ensures Elems(keys[..i + 1]) == Elems(keys[..i]) + {keys[i]} && keys[i] !in Elems(keys[..i])
    ensures Missed(keys, i + 1, some) == Missed(keys, i, some) + if keys[i] in some then 0 else 1
  {
    assert keys[..i + 1] == keys[..i] + [keys[i]];
    ElemsMore(keys[..i], keys[i]);
    NotBefore(keys, i);
    var before := Elems(keys[..i]);
    assert keys[i] !in before;
    hide Elems;
    MinusOne(before, keys[i], some);
  }

  lemma NotAll(keys: seq<Bytes>, i: nat, some: set<Bytes>)
    requires i < |keys| && keys[i] !in some
    ensures !(Elems(keys) <= some)
  {
    assert keys[i] in Elems(keys);
  }

  // ---- the index ----

  class Index {
    /** The names of its properties, and what takes their values out of an object. */
    const def: IndexProps
    const id: Value
    const props: Extractors
    const idIndex: nat
    const includeDeleted: bool
    /** The storage's ordered set of keys. */
    var entries: set<Bytes>
    var delMisses: nat
    /** The objects as they were last updated. */
    ghost var docs: map<Value, Doc>

    ghost predicate Valid()
      reads this
    {
      Plain(id) && Extracts(props, idIndex) && Holds(docs, entries)
    }

    /** There is an extractor for every property, that of the identifier in its place. */
    ghost predicate Defined()
      reads def
    {
      && def.Valid() && def.id == id && def.includeDeleted == includeDeleted
      && |def.propNames| == |props| && idIndex < |props| && def.propNames[idIndex] == ID
    }

    /** The keys are those of the objects that are included, and no others. */
    ghost predicate Holds(objs: map<Value, Doc>, keys: set<Bytes>) {
      && (forall i :: i in objs ==> objs[i].id == i && Plain(i))
      && (forall i :: i in objs && (includeDeleted || !objs[i].deleted) ==> KeysOf(id, props, objs[i]) <= keys)
      && (forall k :: k in keys ==> exists i :: i in objs && (includeDeleted || !objs[i].deleted) && k in KeysOf(id, props, objs[i]))
    }

    constructor (definition: IndexProps, extractors: Extractors, idPlace: nat)
      requires Plain(definition.id) && Extracts(extractors, idPlace)
      requires definition.Valid() && |definition.propNames| == |extractors| && definition.propNames[idPlace] == ID
      ensures Valid() && Defined() && docs == map[] && entries == {} && def == definition
    {
      def, id, props, idIndex := definition, definition.id, extractors, idPlace;
      includeDeleted := definition.includeDeleted;
      entries, delMisses, docs := {}, 0, map[];
    }

    /** Deleted objects are in an index only if it says so. */
    predicate IncludeObj(obj: Maybe<Doc>) {
      if obj.Nothing? then false else if includeDeleted then true else !obj.val.deleted
    }

    method GetKeys(obj: Doc) returns (keys: seq<Bytes>)
      requires Plain(id) && Extracts(props, idIndex)
      ensures Ascending(keys) && Elems(keys) == KeysOf(id, props, obj)
    {
      var builder := new Builder();
      builder.Push([Encode(id)]);
      for i := 0 to |props|
        invariant builder.stack == Levels(id, props, obj)[..i + 1] && fresh(builder)
      {
        assert IsLevel(props[i](obj));
        builder.Push(props[i](obj));
      }
      assert builder.stack == Levels(id, props, obj);
      var set1 := builder.Keys();
      OneProduct(Levels(id, props, obj), set1);
      keys := InOrder(set1);
    }

    method InsertKeys(keys: seq<Bytes>)
      modifies `entries
      ensures entries == old(entries) + Elems(keys)
    {
      for i := 0 to |keys|
        invariant entries == old(entries) + Elems(keys[..i])
      {
        assert keys[..i + 1] == keys[..i] + [keys[i]];
        entries := entries + {keys[i]};
      }
      assert keys[..|keys|] == keys;
    }

    /** A key that is not there is a miss, and an error unless the deletion is forced. */
    method DelKeys(keys: seq<Bytes>, forceDel: bool) returns (ok: bool)
      requires Ascending(keys)
      modifies `entries, `delMisses
      ensures ok <==> forceDel || Elems(keys) <= old(entries)
      ensures ok ==> entries == old(entries) - Elems(keys)
      ensures delMisses == old(delMisses) + if ok then Missed(keys, |keys|, old(entries)) else 1
      ensures Elems(keys) <= old(entries) ==> delMisses == old(delMisses)
    {
      hide Elems;
      hide Missed;
      hide Ascending;
      NoneDeleted(keys, entries);
      for i := 0 to |keys|
        invariant entries == old(entries) - Elems(keys[..i])
        invariant forceDel || Elems(keys[..i]) <= old(entries)
        invariant delMisses == old(delMisses) + Missed(keys, i, old(entries))
        invariant Missed(keys, i, old(entries)) == 0 <==> Elems(keys[..i]) <= old(entries)
      {
        OneDeleted(keys, i, old(entries));
        if keys[i] !in entries {
          delMisses := delMisses + 1;
          if !forceDel {
            NotAll(keys, i, old(entries));
            return false;
          }
        }
        entries := entries - {keys[i]};
      }
      assert keys[..|keys|] == keys;
      return true;
    }

    /** Puts the keys of the new version and takes out those of the old one that are not among them. */
    method Update(newObj: Maybe<Doc>, oldObj: Maybe<Doc>, forceDel: bool) returns (ok: bool, notified: set<Bytes>)
      requires Valid() && (newObj.Just? || oldObj.Just?)
      requires newObj.Just? && oldObj.Just? ==> newObj.val.id == oldObj.val.id
      requires newObj.Just? ==> Plain(newObj.val.id) && (oldObj.Nothing? ==> newObj.val.id !in docs)
      requires oldObj.Just? ==> oldObj.val.id in docs && docs[oldObj.val.id] == oldObj.val
      modifies this
      ensures Valid() && ok && delMisses == old(delMisses)
      ensures docs == if newObj.Just? then old(docs)[newObj.val.id := newObj.val] else old(docs) - {oldObj.val.id}
      ensures forall i :: i in docs ==>
        if includeDeleted || !docs[i].deleted then KeysOf(id, props, docs[i]) <= entries else KeysOf(id, props, docs[i]) !! entries
      ensures forall k :: k in entries ==>
        exists i :: i in docs && (includeDeleted || !docs[i].deleted) && k in KeysOf(id, props, docs[i])
      ensures entries == old(entries) - MaybeKeys(oldObj) + MaybeKeys(newObj)
      ensures notified == MaybeKeys(oldObj) + MaybeKeys(newObj)
    {
      hide KeysOf;
      hide Elems;
      hide Missed;
      hide Ascending;
      hide Extracts;
      var includeOld, includeNew := IncludeObj(oldObj), IncludeObj(newObj);
      ok, notified := true, {};
      OldKeysThere(oldObj);
      if includeNew && !includeOld {
        var newKeys := GetKeys(newObj.val);
        InsertKeys(newKeys);
        notified := KeySet(newKeys);
      } else if includeOld && !includeNew {
        var oldKeys := GetKeys(oldObj.val);
        ok := DelKeys(oldKeys, forceDel);
        notified := KeySet(oldKeys);
      } else if includeNew && includeOld {
        var newKeys := GetKeys(newObj.val);
        var oldKeys := GetKeys(oldObj.val);
        var keysToPut := Diff(newKeys, oldKeys);
        var keysToDel := Diff(oldKeys, newKeys);
        InsertKeys(keysToPut);
        ok := DelKeys(keysToDel, forceDel);
        notified := KeySet(newKeys) + KeySet(oldKeys);
      }
      ghost var before := old(docs);
      docs := if newObj.Just? then docs[newObj.val.id := newObj.val] else docs - {oldObj.val.id};
      StillValid(before, old(entries), newObj, oldObj);
      EntriesAre();
    }

    /** The keys of an object are in the index if it is not deleted or the index has deleted ones too, and else none of them is. */
    lemma EntriesAre()
      requires Valid()
      ensures forall i :: i in docs ==>
        if includeDeleted || !docs[i].deleted then KeysOf(id, props, docs[i]) <= entries else KeysOf(id, props, docs[i]) !! entries
    {
      hide KeysOf;
      hide Extracts;
      forall i | i in docs && !includeDeleted && docs[i].deleted ensures KeysOf(id, props, docs[i]) !! entries {
        forall k | k in entries ensures k !in KeysOf(id, props, docs[i]) {
          var j :| j in docs && (includeDeleted || !docs[j].deleted) && k in KeysOf(id, props, docs[j]);
          KeysApart(id, props, idIndex, docs[i], docs[j]);
        }
      }
    }

    ghost function MaybeKeys(obj: Maybe<Doc>): set<Bytes> {
      if obj.Just? && (includeDeleted || !obj.val.deleted) then KeysOf(id, props, obj.val) else {}
    }

    lemma OldKeysThere(oldObj: Maybe<Doc>)
      requires Valid() && (oldObj.Just? ==> oldObj.val.id in docs && docs[oldObj.val.id] == oldObj.val)
      ensures MaybeKeys(oldObj) <= entries
    {
    }

    /** Taking out the keys of one object leaves those of all others. */
    lemma StillValid(before: map<Value, Doc>, was: set<Bytes>, newObj: Maybe<Doc>, oldObj: Maybe<Doc>)
      requires Plain(id) && Extracts(props, idIndex) && (newObj.Just? || oldObj.Just?)
      requires newObj.Just? && oldObj.Just? ==> newObj.val.id == oldObj.val.id
      requires newObj.Just? ==> Plain(newObj.val.id) && (oldObj.Nothing? ==> newObj.val.id !in before)
      requires oldObj.Just? ==> oldObj.val.id in before && before[oldObj.val.id] == oldObj.val
      requires Holds(before, was) && entries == was - MaybeKeys(oldObj) + MaybeKeys(newObj)
      requires docs == if newObj.Just? then before[newObj.val.id := newObj.val] else before - {oldObj.val.id}
      ensures Holds(docs, entries)
    {
      var it := if newObj.Just? then newObj.val.id else oldObj.val.id;
      forall i | i in docs && (includeDeleted || !docs[i].deleted) ensures KeysOf(id, props, docs[i]) <= entries {
        if i != it && oldObj.Just? {
          KeysApart(id, props, idIndex, before[i], oldObj.val);
        }
      }
      forall k | k in entries ensures exists i :: i in docs && (includeDeleted || !docs[i].deleted) && k in KeysOf(id, props, docs[i]) {
        if k in MaybeKeys(newObj) {
          assert it in docs;
        } else {
          var i :| i in before && (includeDeleted || !before[i].deleted) && k in KeysOf(id, props, before[i]);
          assert i != it;
          assert i in docs;
        }
      }
    }
  }
}
