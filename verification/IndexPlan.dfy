/** Which queries an index answers, and the ranges it answers them with. */
module IndexPlan {
  import opened Bytes
  import opened Values
  import opened ValueOrder
  import opened Keys
  import opened Plan
  import opened PlanPage
  import KeyBuilder

  const ID := "_id"
  const DEL := "_del"

  /** The places of a name, if it is there. */
  predicate Distinct(names: seq<string>) {
    forall i, j :: 0 <= i < j < |names| ==> names[i] != names[j]
  }

  datatype Query = Query(where: map<string, Clause>, order: string, desc: bool, page: Bytes)

  const NOT_DELETED := Clause(Eq, Bool(false), NoOp, Undefined)

  // ---- which queries an index answers ----

  /** The clauses are on the properties from `skip` on, and all but the last are equalities. */
  ghost predicate Leading(props: seq<string>, where: map<string, Clause>, skip: nat) {
    && skip + |where| <= |props|
    && (forall i :: skip <= i < skip + |where| ==> props[i] in where)
    && (forall i :: skip <= i < skip + |where| - 1 ==> where[props[i]].lowerOp.Eq?)
  }

  predicate IsIdIndex(props: seq<string>) { props == [ID] || props == [DEL, ID] }

  function Skipped(includeDeleted: bool, where: map<string, Clause>): nat {
    if includeDeleted && DEL !in where then 1 else 0
  }

  ghost predicate Answerable(props: seq<string>, includeDeleted: bool, q: Query) {
    var skip := Skipped(includeDeleted, q.where);
    if |q.where| == 0 then if q.order == "" then IsIdIndex(props) else skip < |props| && props[skip] == q.order
    else
      && Leading(props, q.where, skip)
      && (q.order == "" || q.order in q.where || (skip + |q.where| < |props| && props[skip + |q.where|] == q.order))
  }

  /** Where the names of the clauses are the leading properties, each once, there is no other clause. */
  lemma LeadingIsAll(props: seq<string>, where: map<string, Clause>, skip: nat)
    requires Distinct(props) && Leading(props, where, skip)
    ensures forall name :: name in where ==> name in props[skip..skip + |where|]
  {
    var some := props[skip..skip + |where|];
    DistinctCount(some);
    Covers(NameSet(some), where.Keys);
  }

  ghost function NameSet(names: seq<string>): set<string> { set name | name in names }

  lemma Covers(a: set<string>, b: set<string>)
    requires a <= b && |a| == |b|
    ensures a == b
  {
    assert b == a + (b - a);
  }

  lemma {:induction false} DistinctCount(names: seq<string>)
    requires Distinct(names)
    ensures |NameSet(names)| == |names|
  {
    if |names| > 0 {
      var fewer := names[..|names| - 1];
      DistinctCount(fewer);
      var last := names[|names| - 1];
      assert names == fewer + [last] && last !in fewer;
      assert NameSet(names) == NameSet(fewer) + {last};
    }
  }

  /**
   * A query with clauses is taken exactly if they are on the leading properties, behind the mark of deletion
   * where the index has it and the query does not, all but the last are equalities, and the order asked
   * for is none, that of a clause, or that of the next property.
   */
  lemma TakenExactly(props: seq<string>, includeDeleted: bool, q: Query, first: nat, n: nat)
    requires Distinct(props) && |q.where| > 0
    requires first == (if includeDeleted && DEL !in q.where then 1 else 0) && n == first + |q.where|
    ensures Answerable(props, includeDeleted, q) <==>
      && n <= |props| && (forall name :: name in q.where <==> name in props[first..n])
      && (forall i :: first <= i < n - 1 ==> q.where[props[i]].lowerOp.Eq?)
      && (q.order == "" || q.order in q.where || (n < |props| && props[n] == q.order))
  {
    hide Distinct;
    hide Leading;
    LeadingExactly(props, q.where, first, n);
  }

  lemma LeadingExactly(props: seq<string>, where: map<string, Clause>, first: nat, n: nat)
    requires Distinct(props) && n == first + |where|
    ensures Leading(props, where, first) <==>
      && n <= |props| && (forall name :: name in where <==> name in props[first..n])
      && (forall i :: first <= i < n - 1 ==> where[props[i]].lowerOp.Eq?)
  {
    if n <= |props| {
      assert forall i :: first <= i < n ==> props[i] == props[first..n][i - first];
    }
    if Leading(props, where, first) {
      LeadingIsAll(props, where, first);
    }
    hide Distinct;
  }

  // ---- the clauses with deleted objects kept out ----

  function Pinned(includeDeleted: bool, where: map<string, Clause>): map<string, Clause> {
    if includeDeleted && DEL !in where then where[DEL := NOT_DELETED] else where
  }

  lemma PinnedLeads(props: seq<string>, includeDeleted: bool, where: map<string, Clause>)
    requires Distinct(props) && (includeDeleted ==> |props| > 0 && props[0] == DEL)
    requires Leading(props, where, Skipped(includeDeleted, where))
    ensures Leading(props, Pinned(includeDeleted, where), 0)
  {
    var pinned := Pinned(includeDeleted, where);
    if includeDeleted && DEL !in where {
      assert pinned.Keys == where.Keys + {DEL};
      assert |pinned| == |where| + 1;
    }
  }

  /** The properties of an index, in the order of its keys. */
  class IndexProps {
    var propNames: seq<string>
    const includeDeleted: bool
    /** The number the index was given. */
    const id: Value

    ghost predicate Valid()
      reads this
    {
      Distinct(propNames) && id.Int?
    }

    constructor (indexId: Int64, incDel: bool)
      ensures Valid() && propNames == [] && id == Int(indexId) && includeDeleted == incDel
    {
      propNames, id, includeDeleted := [], Int(indexId), incDel;
    }

    /** A repeated property is refused. */
    method AddProp(name: string, pushFront: bool) returns (ok: bool)
      requires Valid()
      modifies this
      ensures Valid() && ok == (name !in old(propNames))
      ensures propNames == if !ok then old(propNames) else if pushFront then [name] + old(propNames) else old(propNames) + [name]
    {
      if name in propNames {
        return false;
      }
      propNames := if pushFront then [name] + propNames else propNames + [name];
      return true;
    }

    /** Every index ends up with the identifier, and one that keeps deleted objects begins with their mark. */
    method AddBuiltinProps() returns (ok: bool, idIndex: nat)
      requires Valid() && |propNames| > 0
      modifies this
      ensures Valid()
      ensures ok <==> !includeDeleted || DEL !in old(propNames) || old(propNames)[0] == DEL
      ensures ok ==> ID in propNames && (includeDeleted ==> propNames[0] == DEL)
      ensures ok ==> 0 < idIndex <= |propNames| && propNames[idIndex - 1] == ID
      ensures propNames == (if ok && includeDeleted && old(propNames)[0] != DEL then [DEL] else [])
        + old(propNames) + (if ID in old(propNames) then [] else [ID])
    {
      hide Distinct;
      idIndex := 0;
      if ID !in propNames {
        ok := AddProp(ID, false);
      }
      if includeDeleted && propNames[0] != DEL {
        ok := AddProp(DEL, true);
        if !ok {
          return;
        }
      }
      ok := true;
      var i := 0;
      while propNames[i] != ID
        invariant 0 <= i < |propNames| && ID in propNames[i..]
        decreases |propNames| - i
      {
        i := i + 1;
      }
      idIndex := i + 1;
    }

    /** The clauses must be on the leading properties, without a gap and with only the last an inequality. */
    method CanAnswer(q: Query, ready: bool) returns (answer: bool)
      requires Valid() && |propNames| > 0 && (includeDeleted ==> |propNames| > 1 && propNames[0] == DEL)
      ensures answer <==> ready && Answerable(propNames, includeDeleted, q)
    {
      if !ready {
        return false;
      }
      var numQueryProps := |q.where|;
      if numQueryProps > |propNames| {
        return false;
      }
      var pos := 0;
      if includeDeleted && DEL !in q.where {
        pos := pos + 1;
      }
      if numQueryProps == 0 {
        return if q.order == "" then IsIdIndex(propNames) else propNames[pos] == q.order;
      }
      ghost var skip := pos;
      while pos != |propNames|
        invariant skip <= pos <= |propNames| && 0 < numQueryProps && pos - skip == |q.where| - numQueryProps
        invariant forall i :: skip <= i < pos ==> propNames[i] in q.where && q.where[propNames[i]].lowerOp.Eq?
        decreases |propNames| - pos
      {
        numQueryProps := numQueryProps - 1;
        if propNames[pos] !in q.where {
          return false;
        }
        if numQueryProps > 0 && !q.where[propNames[pos]].lowerOp.Eq? {
          return false;
        }
        if numQueryProps == 0 {
          if q.order != "" && q.order !in q.where {
            var next := pos + 1;
            if next == |propNames| || propNames[next] != q.order {
              return false;
            }
          }
          return true;
        }
        pos := pos + 1;
      }
      return false;
    }
  }
}
