/** The cursor over an index: many ranges, one pass, a limit and a page to go on from. */
module Scan {
  import opened Bytes
  import opened Keys
  import opened Plan
  import opened PlanPage

  // ---- the index in scan direction ----

  /** The key at a place, counted in scan direction. */
  function At(keys: seq<Bytes>, desc: bool, p: int): Bytes
    requires 0 <= p < |keys|
  {
    if desc then keys[|keys| - 1 - p] else keys[p]
  }

  /** On or behind the bound a scan begins at. */
  predicate Near(r: Range, desc: bool, key: Bytes) {
    if desc then r.upper == [] || Lex(key, r.upper) < 0 else r.lower == [] || Lex(key, r.lower) >= 0
  }

  /** Before the bound a scan ends at. */
  predicate Far(r: Range, desc: bool, key: Bytes) {
    if desc then r.lower == [] || Lex(key, r.lower) >= 0 else r.upper == [] || Lex(key, r.upper) < 0
  }

  /** The bounds the scans begin at never go back; only the first may be missing where it is the greatest. */
  predicate Monotone(ranges: seq<Range>, desc: bool) {
    forall i, j :: 0 <= i < j < |ranges| ==>
      if desc then ranges[j].upper != [] && (ranges[i].upper == [] || Lex(ranges[j].upper, ranges[i].upper) <= 0)
      else Lex(ranges[i].lower, ranges[j].lower) <= 0
  }

  lemma ScanOrder(keys: seq<Bytes>, desc: bool, r: Range, p: int, q: int)
    requires Ascending(keys) && 0 <= p <= q < |keys|
    ensures Near(r, desc, At(keys, desc, p)) ==> Near(r, desc, At(keys, desc, q))
    ensures Far(r, desc, At(keys, desc, q)) ==> Far(r, desc, At(keys, desc, p))
  {
    if p < q {
      var a, b := At(keys, desc, p), At(keys, desc, q);
      Bounded(if desc then b else a, if desc then a else b, r.lower);
      Bounded(if desc then b else a, if desc then a else b, r.upper);
    }
  }

  lemma Bounded(a: Bytes, b: Bytes, bound: Bytes)
    requires Lex(a, b) < 0
    ensures Lex(a, bound) >= 0 ==> Lex(b, bound) >= 0
    ensures Lex(b, bound) < 0 ==> Lex(a, bound) < 0
  {
    LexFlip(a, bound);
    LexFlip(b, bound);
    if Lex(a, bound) >= 0 {
      LexTrans(bound, a, b);
    }
  }

  lemma NearEarlier(ranges: seq<Range>, desc: bool, i: int, j: int, key: Bytes)
    requires Monotone(ranges, desc) && 0 <= i <= j < |ranges| && Near(ranges[j], desc, key)
    ensures Near(ranges[i], desc, key)
  {
    if i < j {
      if desc {
        if ranges[i].upper != [] {
          LexTrans(key, ranges[j].upper, ranges[i].upper);
        }
      } else if ranges[i].lower != [] {
        LexFlip(ranges[j].lower, key);
        LexFlip(ranges[i].lower, key);
        if ranges[j].lower == [] {
          LexZero(ranges[i].lower, []);
        } else {
          LexTrans(ranges[i].lower, ranges[j].lower, key);
        }
      }
    }
  }

  // ---- the answer ----

  /** The keys in some range, from a place on, in scan direction. */
  function Wanted(keys: seq<Bytes>, ranges: seq<Range>, desc: bool, p: int): seq<Bytes>
    requires 0 <= p <= |keys|
    decreases |keys| - p
  {
    if p == |keys| then []
    else (if InSome(ranges, At(keys, desc, p)) then [At(keys, desc, p)] else []) + Wanted(keys, ranges, desc, p + 1)
  }

  /** No key from one place up to another is in a range. */
  predicate Gap(keys: seq<Bytes>, ranges: seq<Range>, desc: bool, p: int, q: int)
    requires 0 <= p <= q <= |keys|
  {
    forall k :: p <= k < q ==> !InSome(ranges, At(keys, desc, k))
  }

  lemma {:induction false} GapSkipped(keys: seq<Bytes>, ranges: seq<Range>, desc: bool, p: int, q: int)
    requires 0 <= p <= q <= |keys| && Gap(keys, ranges, desc, p, q)
    ensures Wanted(keys, ranges, desc, p) == Wanted(keys, ranges, desc, q)
    decreases q - p
  {
    if p < q {
      GapSkipped(keys, ranges, desc, p + 1, q);
      assert !InSome(ranges, At(keys, desc, p));
    }
  }

  /** The first ranges hold nothing from a place on. */
  predicate Over(keys: seq<Bytes>, ranges: seq<Range>, desc: bool, iter: int, p: int)
    requires 0 <= iter <= |ranges| && 0 <= p <= |keys|
  {
    forall k, i :: p <= k < |keys| && 0 <= i < iter ==> !Contains(ranges[i], At(keys, desc, k))
  }

  /** Every range from `iter` on begins behind the keys between two places. */
  predicate Ahead(keys: seq<Bytes>, ranges: seq<Range>, desc: bool, iter: int, p: int, q: int)
    requires 0 <= iter <= |ranges| && 0 <= p <= q <= |keys|
  {
    forall k, i :: p <= k < q && iter <= i < |ranges| ==> !Near(ranges[i], desc, At(keys, desc, k))
  }

  lemma NothingBetween(keys: seq<Bytes>, ranges: seq<Range>, desc: bool, iter: int, p: int, q: int)
    requires 0 <= iter <= |ranges| && 0 <= p <= q <= |keys|
    requires Over(keys, ranges, desc, iter, p) && Ahead(keys, ranges, desc, iter, p, q)
    ensures Gap(keys, ranges, desc, p, q)
  {
  }

  /** Where the range at hand has not begun, no later one has. */
  lemma NotBegun(keys: seq<Bytes>, ranges: seq<Range>, desc: bool, iter: int, p: int, q: int)
    requires Monotone(ranges, desc) && 0 <= iter < |ranges| && 0 <= p <= q <= |keys|
    requires forall k :: p <= k < q ==> !Near(ranges[iter], desc, At(keys, desc, k))
    ensures Ahead(keys, ranges, desc, iter, p, q)
  {
    forall k, i | p <= k < q && iter <= i < |ranges| ensures !Near(ranges[i], desc, At(keys, desc, k)) {
      if Near(ranges[i], desc, At(keys, desc, k)) {
        NearEarlier(ranges, desc, iter, i, At(keys, desc, k));
      }
    }
  }

  /** A range left at a place holds nothing from there on. */
  lemma RangeOver(keys: seq<Bytes>, ranges: seq<Range>, desc: bool, iter: int, p: int)
    requires Ascending(keys) && 0 <= iter < |ranges| && 0 <= p < |keys|
    requires Over(keys, ranges, desc, iter, p) && !Far(ranges[iter], desc, At(keys, desc, p))
    ensures Over(keys, ranges, desc, iter + 1, p)
  {
    forall k | p <= k < |keys| ensures !Contains(ranges[iter], At(keys, desc, k)) {
      ScanOrder(keys, desc, ranges[iter], p, k);
    }
  }

  lemma InRange(ranges: seq<Range>, desc: bool, i: int, key: Bytes)
    requires 0 <= i < |ranges| && Near(ranges[i], desc, key) && Far(ranges[i], desc, key)
    ensures InSome(ranges, key)
  {
    assert Contains(ranges[i], key);
  }

  /** The group of a key is that of the first range it is in. */
  predicate Grouped(ranges: seq<Range>, key: Bytes, group: nat) {
    exists i :: 0 <= i < |ranges| && Contains(ranges[i], key) && group == ranges[i].group
      && forall j :: 0 <= j < i ==> !Contains(ranges[j], key)
  }

  lemma FirstHolds(keys: seq<Bytes>, ranges: seq<Range>, desc: bool, iter: nat, front: nat, p: nat)
    requires iter < |ranges| && front <= p < |keys| && Over(keys, ranges, desc, iter, front)
    requires Near(ranges[iter], desc, At(keys, desc, p)) && Far(ranges[iter], desc, At(keys, desc, p))
    ensures Grouped(ranges, At(keys, desc, p), ranges[iter].group)
  {
    assert Contains(ranges[iter], At(keys, desc, p));
  }

  lemma NothingLeft(keys: seq<Bytes>, ranges: seq<Range>, desc: bool, p: int)
    requires 0 <= p <= |keys| && Over(keys, ranges, desc, |ranges|, p)
    ensures Gap(keys, ranges, desc, p, |keys|)
  {
  }

  /** The keys whose object is there. */
  function Present(keys: seq<Bytes>, missing: set<Bytes>): seq<Bytes> {
    if |keys| == 0 then []
    else (if keys[0] in missing then [] else [keys[0]]) + Present(keys[1..], missing)
  }

  /** What a query is to return from a place on. */
  function Answer(keys: seq<Bytes>, ranges: seq<Range>, desc: bool, missing: set<Bytes>, p: int): seq<Bytes>
    requires 0 <= p <= |keys|
  {
    Present(Wanted(keys, ranges, desc, p), missing)
  }

  lemma AnswerSteps(keys: seq<Bytes>, ranges: seq<Range>, desc: bool, missing: set<Bytes>, p: int, q: int)
    requires 0 <= p < q <= |keys| && Gap(keys, ranges, desc, p, q - 1) && InSome(ranges, At(keys, desc, q - 1))
    ensures Answer(keys, ranges, desc, missing, p)
      == (if At(keys, desc, q - 1) in missing then [] else [At(keys, desc, q - 1)]) + Answer(keys, ranges, desc, missing, q)
  {
    var key := At(keys, desc, q - 1);
    GapSkipped(keys, ranges, desc, p, q - 1);
    var more := Wanted(keys, ranges, desc, q);
    assert Wanted(keys, ranges, desc, q - 1) == [key] + more;
    assert ([key] + more)[1..] == more;
  }

  lemma AnswerEnds(keys: seq<Bytes>, ranges: seq<Range>, desc: bool, missing: set<Bytes>, p: int)
    requires 0 <= p <= |keys| && Gap(keys, ranges, desc, p, |keys|)
    ensures Answer(keys, ranges, desc, missing, p) == []
  {
    GapSkipped(keys, ranges, desc, p, |keys|);
  }

  lemma CountsOne(returned: seq<Bytes>, before: seq<Bytes>, key: Bytes, after: seq<Bytes>, lost: bool)
    requires before == (if lost then [] else [key]) + after
    ensures returned + before == (if lost then returned else returned + [key]) + after
  {
  }

  /** The key the next page begins at: behind the last one, or below it when descending. */
  function PageKey(desc: bool, last: Bytes): Bytes { if desc then last else Increment(last) }

  // ---- the cursor ----

  datatype State = StateSeek | StateNext

  class IsamQuery {
    const keys: seq<Bytes>
    const ranges: seq<Range>
    const desc: bool
    var limit: nat
    /** The keys whose object is gone. */
    const missing: set<Bytes>

    var state: State
    var iter: nat
    var count: nat
    /** The place of the storage cursor in scan direction, and the key it stands at; none before the first step. */
    var pos: nat
    var keyData: Bytes
    var endKey: Bytes
    /** The first place not passed yet, and the keys returned. */
    ghost var front: nat
    ghost var returned: seq<Bytes>

    ghost predicate Valid()
      reads this
    {
      && Ascending(keys) && [] !in keys && Monotone(ranges, desc)
      && iter <= |ranges| && front <= |keys|
      && Over(keys, ranges, desc, iter, front)
      && (iter < |ranges| ==>
        if state.StateNext? then front > 0 && Standing(front - 1) && Near(ranges[iter], desc, keyData)
        else if keyData == [] then front == 0 && iter == 0
        else iter > 0 && Standing(front))
    }

    ghost predicate Standing(p: nat)
      reads this
    {
      p < |keys| && pos == p && keyData == At(keys, desc, p)
    }

    constructor (index: seq<Bytes>, plan: seq<Range>, descending: bool, most: nat, gone: set<Bytes>)
      requires Ascending(index) && [] !in index && Monotone(plan, descending)
      ensures Valid() && keys == index && ranges == plan && desc == descending && limit == most && missing == gone
      ensures front == 0 && count == 0 && returned == [] && Counted()
    {
      hide Answer;
      keys, ranges, desc, limit, missing := index, plan, descending, most, gone;
      state, iter, count, pos, keyData, endKey, front, returned := StateSeek, 0, 0, 0, [], [], 0, [];
      new;
      assert [] + Answer(keys, ranges, desc, missing, 0) == Answer(keys, ranges, desc, missing, 0);
    }

    /** What was returned, and what is still to come, is the answer; at the limit the page is known. */
    ghost predicate Counted()
      reads this
    {
      && front <= |keys| && count == |returned| <= limit
      && returned + Answer(keys, ranges, desc, missing, front) == Answer(keys, ranges, desc, missing, 0)
      && (count > 0 ==> LastIs(returned[count - 1]))
      && (count == limit > 0 ==> endKey == PageKey(desc, returned[count - 1]))
    }

    /** The last key returned is a wanted one, and what is behind it is still to come. */
    ghost predicate LastIs(key: Bytes)
      reads this
    {
      exists p :: 0 <= p < front <= |keys| && At(keys, desc, p) == key && InSome(ranges, key)
        && Answer(keys, ranges, desc, missing, p + 1) == Answer(keys, ranges, desc, missing, front)
    }

    predicate LimitEnforced()
      reads this
    {
      count >= limit
    }

    /** The storage's seek: the first key on or behind a bound. */
    method SeekImpl(key: Bytes, r: Range) returns (found: bool)
      requires key == (if desc then r.upper else r.lower) && Ascending(keys)
      modifies `pos, `keyData
      ensures found ==> Standing(pos) && Near(r, desc, keyData)
      ensures forall k :: 0 <= k < (if found then pos else |keys|) ==> !Near(r, desc, At(keys, desc, k))
      ensures !found ==> keyData == old(keyData)
    {
      var p := 0;
      while p < |keys| && !(key == [] || (Lex(At(keys, desc, p), key) < 0) == desc)
        invariant 0 <= p <= |keys|
        invariant forall k :: 0 <= k < p ==> !Near(r, desc, At(keys, desc, k))
      {
        p := p + 1;
      }
      pos := p;
      found := p < |keys|;
      if found {
        keyData := At(keys, desc, p);
      }
    }

    /** The storage's step to the next key. */
    method NextImpl() returns (found: bool)
      requires Standing(pos)
      modifies `pos, `keyData
      ensures pos == old(pos) + 1 && found == (pos < |keys|)
      ensures found ==> Standing(pos)
    {
      pos := pos + 1;
      found := pos < |keys|;
      if found {
        keyData := At(keys, desc, pos);
      }
    }

    /** Still before the end of the range. */
    predicate Match(): (m: bool)
      requires iter < |ranges|
      reads this
      ensures m == Far(ranges[iter], desc, keyData)
    {
      var key := if desc then ranges[iter].lower else ranges[iter].upper;
      if key == [] then true else (Lex(keyData, key) >= 0) == desc
    }

    /** A current key that is already in the range is kept. */
    method Seek() returns (found: bool)
      requires Valid() && state.StateSeek? && iter < |ranges|
      modifies `state, `pos, `keyData
      ensures state.StateNext?
      ensures found ==> Standing(pos) && front <= pos && Near(ranges[iter], desc, keyData) && Gap(keys, ranges, desc, front, pos)
      ensures !found ==> Gap(keys, ranges, desc, front, |keys|)
    {
      var r := ranges[iter];
      var key := if desc then r.upper else r.lower;
      assert keyData != [] ==> Standing(front) && keyData == At(keys, desc, front);
      assert keyData != [] && desc ==> ranges[0].upper == [] || Lex(r.upper, ranges[0].upper) <= 0;
      state := StateNext;
      if |keyData| > 0 {
        if (Lex(keyData, key) < 0) == desc {
          LexZero([], keyData);
          return true;
        }
      }
      ghost var current := keyData;
      assert current != [] ==> !Near(r, desc, At(keys, desc, front));
      found := SeekImpl(key, r);
      if found && pos < front {
        ScanOrder(keys, desc, r, pos, front);
      }
      ghost var to := if found then pos else |keys|;
      NotBegun(keys, ranges, desc, iter, front, to);
      NothingBetween(keys, ranges, desc, iter, front, to);
    }

    /** Seeks or steps, as the state says. */
    method Step() returns (found: bool)
      requires Valid() && iter < |ranges|
      modifies `state, `pos, `keyData
      ensures found ==> Standing(pos) && front <= pos && Near(ranges[iter], desc, keyData) && Gap(keys, ranges, desc, front, pos)
      ensures !found ==> Gap(keys, ranges, desc, front, |keys|)
      ensures state.StateNext?
    {
      if state.StateSeek? {
        found := Seek();
      } else {
        found := NextImpl();
        if found {
          ScanOrder(keys, desc, ranges[iter], front - 1, front);
        }
      }
    }

    /** The next key of the answer, if the limit allows one and there is one. */
    method GetKey() returns (found: bool, group: nat)
      requires Valid()
      modifies `state, `iter, `pos, `keyData, `front
      ensures Valid()
      ensures found ==> !LimitEnforced() && old(front) < front && keyData == At(keys, desc, front - 1)
      ensures found ==> Gap(keys, ranges, desc, old(front), front - 1) && InSome(ranges, keyData) && Grouped(ranges, keyData, group)
      ensures !found && !LimitEnforced() ==> front == |keys| && Gap(keys, ranges, desc, old(front), |keys|)
      ensures LimitEnforced() ==> front == old(front)
    {
      hide Near;
      hide Far;
      hide InSome;
      hide Grouped;
      hide Contains;
      hide Lex;
      hide Monotone;
      hide Ascending;
      found, group := false, 0;
      while iter != |ranges| && !LimitEnforced()
        invariant Valid() && old(front) <= front && Gap(keys, ranges, desc, old(front), front)
        invariant LimitEnforced() ==> front == old(front)
        decreases |ranges| - iter
      {
        var keyFound := Step();
        if !keyFound {
          iter := |ranges|;
          front := |keys|;
          return;
        }
        if Match() {
          InRange(ranges, desc, iter, keyData);
          FirstHolds(keys, ranges, desc, iter, front, pos);
          group := ranges[iter].group;
          found := true;
          front := pos + 1;
          return;
        }
        RangeOver(keys, ranges, desc, iter, pos);
        state := StateSeek;
        front := pos;
        iter := iter + 1;
      }
      if !LimitEnforced() {
        NothingLeft(keys, ranges, desc, front);
        front := |keys|;
      }
    }

    method SaveEndKey()
      modifies `endKey
      ensures endKey == PageKey(desc, keyData)
    {
      var key := new Key(keyData);
      if !desc {
        key.IncrementKey();
      }
      endKey := key.vec;
    }

    method IncrementCount()
      modifies `count, `endKey
      ensures count == old(count) + 1
      ensures endKey == if LimitEnforced() then PageKey(desc, keyData) else old(endKey)
    {
      count := count + 1;
      if LimitEnforced() {
        SaveEndKey();
      }
    }

    /** One key; it fails on a key without its object, which does not count. */
    method GetImpl() returns (lost: bool, found: bool)
      requires Valid() && Counted()
      modifies `state, `iter, `pos, `keyData, `front, `count, `endKey, `returned
      ensures Valid() && Counted() && old(front) <= front
      ensures lost ==> keyData in missing && returned == old(returned) && old(front) < front
      ensures !lost && found ==> keyData !in missing && returned == old(returned) + [keyData] && old(front) < front
      ensures !lost && !found ==> returned == old(returned) && (LimitEnforced() || Answer(keys, ranges, desc, missing, front) == [])
    {
      hide Answer;
      hide At;
      hide Gap;
      hide InSome;
      hide Over;
      var group;
      ghost var start := front;
      found, group := GetKey();
      if found {
        AnswerSteps(keys, ranges, desc, missing, start, front);
        CountsOne(returned, Answer(keys, ranges, desc, missing, start), keyData, Answer(keys, ranges, desc, missing, front), keyData in missing);
        if keyData in missing {
          return true, false;
        }
        IncrementCount();
        returned := returned + [keyData];
        return false, true;
      }
      if !LimitEnforced() {
        AnswerEnds(keys, ranges, desc, missing, start);
        AnswerEnds(keys, ranges, desc, missing, front);
      }
      return false, false;
    }

    /** The next object there is; keys without one are passed over. */
    method Get() returns (found: bool, key: Bytes)
      requires Valid() && Counted()
      modifies `state, `iter, `pos, `keyData, `front, `count, `endKey, `returned
      ensures Valid() && Counted()
      ensures found ==> returned == old(returned) + [key]
      ensures !found ==> returned == old(returned) && (LimitEnforced() || returned == Answer(keys, ranges, desc, missing, 0))
    {
      while true
        invariant Valid() && Counted() && returned == old(returned)
        decreases |keys| - front
      {
        var lost;
        lost, found := GetImpl();
        if !lost {
          key := keyData;
          return;
        }
      }
    }

    /** The number of objects there are, whatever the limit was. */
    method Count() returns (countOut: nat)
      requires Valid() && Counted() && count == 0 == front
      modifies this
      ensures countOut == Min(|Answer(keys, ranges, desc, missing, 0)|, 0xFFFF_FFFF)
    {
      limit := 0xFFFF_FFFF;
      var found := true;
      while found
        invariant Valid() && Counted() && limit == 0xFFFF_FFFF
        invariant !found ==> LimitEnforced() || Answer(keys, ranges, desc, missing, front) == []
        decreases |keys| - front, found
      {
        var lost;
        lost, found := GetImpl();
        if lost {
          found := true;
        }
      }
      countOut := count;
    }

    /** Where to go on, if the limit was reached. */
    method NextPage() returns (page: Bytes)
      requires Valid() && Counted()
      ensures page == if LimitEnforced() then endKey else []
    {
      page := if LimitEnforced() then endKey else [];
    }
  }
}
