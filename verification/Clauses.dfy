/** How a query comes by its clauses: one operation after another, some of which are refused. */
module Clauses {
  import opened Bytes
  import opened Values
  import opened Plan
  import opened IndexPlan
  import opened QueryRanges
  import opened QueryOrder

  datatype QueryError = ArrayValue | OpCombo

  datatype Added = Clauses(where: map<string, Clause>) | Refused(err: QueryError)

  const NO_CLAUSE := Clause(NoOp, Undefined, NoOp, Undefined)

  predicate SetsUpper(op: Op) { op.Less? || op.LessEq? }

  /** An upper or a lower bound more, unless there is one already. */
  function Bounded(c: Clause, op: Op, val: Value): Maybe<Clause> {
    if SetsUpper(op) then if c.upperOp.NoOp? then Just(c.(upperOp := op, upperVal := val)) else Nothing
    else if c.lowerOp.NoOp? then Just(c.(lowerOp := op, lowerVal := val))
    else Nothing
  }

  /** Two operations on one property can only be a lower and an upper bound. */
  function Updated(c: Clause, op: Op, val: Value): Maybe<Clause> {
    if SetsUpper(op) then if c.lowerOp.NoOp? || c.lowerOp.Greater? || c.lowerOp.GreaterEq? then Bounded(c, op, val) else Nothing
    else if op.Greater? || op.GreaterEq? then if c.upperOp.NoOp? || SetsUpper(c.upperOp) then Bounded(c, op, val) else Nothing
    else Nothing
  }

  function WithClause(where: map<string, Clause>, name: string, op: Op, val: Value): Added
    requires !op.NoOp?
  {
    if val.Arr? && !op.Eq? && !op.Prefix? then Refused(ArrayValue)
    else
      var c := if name in where then Updated(where[name], op, val) else Bounded(NO_CLAUSE, op, val);
      if c.Nothing? then Refused(OpCombo) else Clauses(where[name := c.val])
  }

  /** Values with a place in the order of keys. */
  predicate Fit(val: Value) {
    forall v :: v in Listed(val) ==> Plain(v)
  }

  /** Whatever operations are added, the clauses are such as a plan can be made of. */
  lemma AddingKeepsFormed(where: map<string, Clause>, name: string, op: Op, val: Value)
    requires WellFormed(where) && !op.NoOp? && Fit(val)
    ensures var added := WithClause(where, name, op, val); added.Clauses? ==> WellFormed(added.where)
  {
    hide Plain;
    var c := if name in where then Updated(where[name], op, val) else Bounded(NO_CLAUSE, op, val);
    if c.Just? && !(val.Arr? && !op.Eq? && !op.Prefix?) {
      BoundedFormed(if name in where then where[name] else NO_CLAUSE, op, val, c.val);
    }
  }

  lemma BoundedFormed(c: Clause, op: Op, val: Value, d: Clause)
    requires !op.NoOp? && Fit(val) && (val.Arr? ==> op.Eq? || op.Prefix?)
    requires (Formed(c) && Updated(c, op, val) == Just(d)) || (c == NO_CLAUSE && Bounded(c, op, val) == Just(d))
    ensures Formed(d)
  {
    hide Plain;
    if SetsUpper(op) {
      assert val in Listed(val);
      assert c.lowerVal in Listed(c.lowerVal) || c.lowerVal.Arr?;
      assert c != NO_CLAUSE ==> !c.lowerVal.Arr? ==> FormedOne(One(c, c.lowerVal));
    } else {
      assert c != NO_CLAUSE ==> c.lowerVal in Listed(c.lowerVal) || c.lowerVal.Arr?;
    }
  }

  /** And every such clause comes of one operation, or of two: its lower bound and then its upper one. */
  lemma FormedIsAdded(where: map<string, Clause>, name: string, c: Clause) returns (first: map<string, Clause>)
    requires Formed(c) && name !in where && (c.upperOp.NoOp? ==> c.upperVal == Undefined)
    ensures if c.lowerOp.NoOp? then first == where else WithClause(where, name, c.lowerOp, c.lowerVal) == Clauses(first)
    ensures if c.upperOp.NoOp? then first == where[name := c] else WithClause(first, name, c.upperOp, c.upperVal) == Clauses(where[name := c])
  {
    hide Plain;
    if !c.lowerVal.Arr? {
      assert c.lowerVal in Listed(c.lowerVal) && FormedOne(One(c, c.lowerVal));
    }
    first := if c.lowerOp.NoOp? then where else where[name := Clause(c.lowerOp, c.lowerVal, NoOp, Undefined)];
    assert first[name := c] == where[name := c];
    EmptyList(c);
  }

  lemma EmptyList(c: Clause)
    requires Formed(c)
    ensures !c.lowerOp.Less? && !c.lowerOp.LessEq? && (c.lowerOp.NoOp? ==> c.lowerVal == Undefined && !c.upperOp.NoOp?)
    ensures !c.upperOp.NoOp? ==> SetsUpper(c.upperOp) && (c.lowerOp.NoOp? || c.lowerOp.Greater? || c.lowerOp.GreaterEq?)
  {
    if !c.lowerVal.Arr? {
      assert c.lowerVal in Listed(c.lowerVal) && One(c, c.lowerVal) == c;
    }
  }

  // ---- what an operation more means ----

  /** What an operation says of a value, by the values of its list. */
  predicate Says(op: Op, val: Value, v: Value) {
    exists e :: e in Listed(val) && match op
      case NoOp => true
      case Eq => Compare(v, e) == 0
      case NotEq => Compare(v, e) != 0
      case Less => Compare(v, e) < 0
      case LessEq => Compare(v, e) <= 0
      case Greater => Compare(v, e) > 0
      case GreaterEq => Compare(v, e) >= 0
      case Prefix => BeginsWith(v, e)
  }

  /** Two operations on one property are a lower and an upper bound, in either order. */
  predicate Both(c: Clause, op: Op) {
    || ((c.lowerOp.Greater? || c.lowerOp.GreaterEq?) && c.upperOp.NoOp? && (op.Less? || op.LessEq?))
    || (c.lowerOp.NoOp? && (c.upperOp.Less? || c.upperOp.LessEq?) && (op.Greater? || op.GreaterEq?))
  }

  /** An added operation is met together with those before it; it is refused exactly where it cannot be added. */
  lemma AddedMeans(where: map<string, Clause>, name: string, op: Op, val: Value)
    requires WellFormed(where) && !op.NoOp? && Fit(val)
    ensures match WithClause(where, name, op, val)
      case Clauses(more) =>
        && (val.Arr? ==> op.Eq? || op.Prefix?) && (name in where ==> Both(where[name], op))
        && more.Keys == where.Keys + {name} && (forall n :: n in where && n != name ==> more[n] == where[n])
        && forall v :: Accepts(more[name], v) <==> (name in where ==> Accepts(where[name], v)) && Says(op, val, v)
      case Refused(ArrayValue) => val.Arr? && !op.Eq? && !op.Prefix?
      case Refused(OpCombo) => (val.Arr? ==> op.Eq? || op.Prefix?) && name in where && !Both(where[name], op)
  {
    hide Compare;
    hide BeginsWith;
    if name in where {
      EmptyList(where[name]);
    }
    var added := WithClause(where, name, op, val);
    if added.Clauses? {
      forall v ensures Accepts(added.where[name], v) <==> (name in where ==> Accepts(where[name], v)) && Says(op, val, v) {
        if name in where {
          BoundMeans(where[name], op, val, added.where[name], v);
        } else {
          FirstMeans(op, val, v);
        }
      }
    }
  }

  lemma FirstMeans(op: Op, val: Value, v: Value)
    requires !op.NoOp? && (val.Arr? ==> op.Eq? || op.Prefix?)
    ensures Accepts(Bounded(NO_CLAUSE, op, val).val, v) <==> Says(op, val, v)
  {
    hide Compare;
    hide BeginsWith;
    var c := Bounded(NO_CLAUSE, op, val).val;
    if SetsUpper(op) {
      SingleAccepts(c, v);
      assert Listed(val) == [val] && val in Listed(val);
    } else {
      assert forall e :: e in Listed(val) ==> One(c, e) == Clause(op, e, NoOp, Undefined);
    }
  }

  lemma BoundMeans(c: Clause, op: Op, val: Value, d: Clause, v: Value)
    requires Formed(c) && !op.NoOp? && !val.Arr? && Both(c, op) && Updated(c, op, val) == Just(d)
    ensures Accepts(d, v) <==> Accepts(c, v) && Says(op, val, v)
  {
    hide Compare;
    hide BeginsWith;
    EmptyList(c);
    assert !c.lowerVal.Arr?;
    SingleAccepts(c, v);
    SingleAccepts(d, v);
    assert Listed(val) == [val] && val in Listed(val);
  }

  // ---- the clauses of a query as they are added ----

  class WhereClauses {
    var clauses: map<string, Clause>

    constructor ()
      ensures clauses == map[]
    {
      clauses := map[];
    }

    method AddClause(name: string, op: Op, val: Value) returns (err: Maybe<QueryError>)
      requires !op.NoOp?
      modifies this
      ensures match WithClause(old(clauses), name, op, val)
        case Clauses(where) => err == Nothing && clauses == where
        case Refused(e) => err == Just(e) && clauses == old(clauses)
    {
      if val.Arr? && !op.Eq? && !op.Prefix? {
        return Just(ArrayValue);
      }
      if name !in clauses {
        if SetsUpper(op) {
          clauses := clauses[name := NO_CLAUSE.(upperOp := op, upperVal := val)];
        } else {
          clauses := clauses[name := NO_CLAUSE.(lowerOp := op, lowerVal := val)];
        }
        return Nothing;
      }
      err := UpdateClause(name, op, val);
    }

    method UpdateClause(name: string, op: Op, val: Value) returns (err: Maybe<QueryError>)
      requires !op.NoOp? && name in clauses
      modifies this
      ensures match Updated(old(clauses)[name], op, val)
        case Just(c) => err == Nothing && clauses == old(clauses)[name := c]
        case Nothing => err == Just(OpCombo) && clauses == old(clauses)
    {
      var c := clauses[name];
      if SetsUpper(op) {
        if (!c.lowerOp.NoOp? && !c.lowerOp.Greater? && !c.lowerOp.GreaterEq?) || !c.upperOp.NoOp? {
          return Just(OpCombo);
        }
        clauses := clauses[name := c.(upperOp := op, upperVal := val)];
      } else if op.Greater? || op.GreaterEq? {
        if (!c.upperOp.NoOp? && !SetsUpper(c.upperOp)) || !c.lowerOp.NoOp? {
          return Just(OpCombo);
        }
        clauses := clauses[name := c.(lowerOp := op, lowerVal := val)];
      } else {
        return Just(OpCombo);
      }
      err := Nothing;
    }

    /** Both marks of deletion are asked for. */
    method IncludeDeleted() returns (err: Maybe<QueryError>)
      modifies this
      ensures match WithClause(old(clauses), DEL, Eq, EITHER)
        case Clauses(where) => err == Nothing && clauses == where
        case Refused(e) => err == Just(e) && clauses == old(clauses)
    {
      err := AddClause(DEL, Eq, EITHER);
    }
  }

  const EITHER := Arr(Item(Bool(false), Item(Bool(true), NoItems)))

  /** With deleted objects included, whatever their mark, an order by another property is refused. */
  lemma DeletedUnordered(where: map<string, Clause>, order: string, desc: bool, page: Bytes)
    requires DEL !in where
    ensures var q := Query(where[DEL := Clause(Eq, EITHER, NoOp, Undefined)], order, desc, page);
      && WithClause(where, DEL, Eq, EITHER) == Clauses(q.where)
      && (forall b :: Accepts(q.where[DEL], Bool(b)))
      && (order != "" && order != DEL ==> !ValidFind(q))
  {
    var c := Clause(Eq, EITHER, NoOp, Undefined);
    var q := Query(where[DEL := c], order, desc, page);
    assert DEL in q.where && DefinesOrder(q.where[DEL]);
    assert Elements(NoItems) == [];
    assert Elements(Item(Bool(true), NoItems)) == [Bool(true)];
    assert Listed(EITHER) == [Bool(false), Bool(true)];
    forall b: bool ensures Accepts(c, Bool(b)) {
      assert Bool(b) in Listed(c.lowerVal) && AcceptsOne(One(c, Bool(b)), Bool(b));
    }
  }
}
