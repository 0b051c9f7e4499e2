/** The ranges of a plan: cut at the page, laid one behind the other. */
module PlanPage {
  import opened Bytes
  import opened Keys
  import opened Plan
  import opened Values

  // ---- the page ----

  /** The keys a page still has to return: from its key on, or below it when descending. */
  predicate OnPage(page: Bytes, desc: bool, key: Bytes) {
    page == [] || (if desc then Lex(key, page) < 0 else Lex(key, page) >= 0)
  }

  /** A range that is over before the page begins is left out. */
  predicate OffPage(r: Range, page: Bytes, desc: bool) {
    page != [] && if desc then r.lower != [] && Lex(page, r.lower) <= 0 else r.upper != [] && Lex(page, r.upper) > 0
  }

  function Clipped(r: Range, page: Bytes, desc: bool): Range {
    if page == [] then r
    else if desc then if r.upper == [] || Lex(page, r.upper) < 0 then r.(upper := page) else r
    else if r.lower == [] || Lex(page, r.lower) >= 0 then r.(lower := page) else r
  }

  function Added(ranges: seq<Range>, r: Range, page: Bytes, desc: bool): seq<Range> {
    var clipped := Clipped(r, page, desc);
    if OffPage(r, page, desc) then ranges
    else if |ranges| > 0 && ContainsRange(ranges[|ranges| - 1], clipped) then ranges
    else ranges + [clipped]
  }

  function AddedAll(ranges: seq<Range>, more: seq<Range>, page: Bytes, desc: bool): seq<Range>
    decreases |more|
  {
    if |more| == 0 then ranges else AddedAll(Added(ranges, more[0], page, desc), more[1..], page, desc)
  }

  /** A range leaves on the page what it had there, and nothing else. */
  lemma ClippedMeans(r: Range, page: Bytes, desc: bool, key: Bytes)
    ensures OffPage(r, page, desc) ==> !(Contains(r, key) && OnPage(page, desc, key))
    ensures !OffPage(r, page, desc) ==> (Contains(Clipped(r, page, desc), key) <==> Contains(r, key) && OnPage(page, desc, key))
  {
    if page != [] {
      LexFlip(key, page);
      LexFlip(page, r.lower);
      LexFlip(page, r.upper);
      LexFlip(key, r.upper);
      LexFlip(key, r.lower);
      if desc {
        if Lex(page, r.lower) <= 0 && Lex(r.lower, key) <= 0 { LexTrans(page, r.lower, key); }
        if Lex(key, r.upper) <= 0 && Lex(r.upper, page) <= 0 { LexTrans(key, r.upper, page); }
        if Lex(key, page) <= 0 && Lex(page, r.upper) <= 0 { LexTrans(key, page, r.upper); }
      } else {
        if Lex(key, r.upper) <= 0 && Lex(r.upper, page) <= 0 { LexTrans(key, r.upper, page); }
        if Lex(page, r.lower) <= 0 && Lex(r.lower, key) <= 0 { LexTrans(page, r.lower, key); }
        if Lex(r.lower, page) <= 0 && Lex(page, key) <= 0 { LexTrans(r.lower, page, key); }
      }
    }
  }

  // ---- when a range is dropped for lying inside the one before ----

  /** An unbounded range is taken to lie inside a bounded one that holds its lower key. */
  predicate Lossy(ranges: seq<Range>, clipped: Range) {
    |ranges| > 0 && clipped.upper == [] && ranges[|ranges| - 1].upper != [] && Contains(ranges[|ranges| - 1], clipped.lower)
  }

  lemma InsideMeans(r: Range, inner: Range, key: Bytes)
    requires ContainsRange(r, inner) && (inner.upper != [] || r.upper == []) && Contains(inner, key)
    ensures Contains(r, key)
  {
    LexFlip(inner.lower, key);
    LexFlip(r.lower, inner.lower);
    LexFlip(r.lower, key);
    if inner.lower == [] {
      assert r.lower == [] || Lex([], r.lower) < 0;
    } else if r.lower != [] {
      LexTrans(r.lower, inner.lower, key);
    }
    if r.upper != [] {
      LexTrans(key, inner.upper, r.upper);
    }
  }

  lemma InSomeMore(ranges: seq<Range>, r: Range, key: Bytes)
    ensures InSome(ranges + [r], key) <==> InSome(ranges, key) || Contains(r, key)
  {
    if Contains(r, key) {
      assert (ranges + [r])[|ranges|] == r;
    }
    if i :| 0 <= i < |ranges| && Contains(ranges[i], key) {
      assert (ranges + [r])[i] == ranges[i];
    }
  }

  /** Adding a range adds its keys on the page, unless it is dropped though it goes on for ever. */
  lemma AddedMeans(ranges: seq<Range>, r: Range, page: Bytes, desc: bool, key: Bytes)
    requires !OffPage(r, page, desc) ==> !Lossy(ranges, Clipped(r, page, desc))
    ensures InSome(Added(ranges, r, page, desc), key) <==> InSome(ranges, key) || (Contains(r, key) && OnPage(page, desc, key))
  {
    var clipped := Clipped(r, page, desc);
    ClippedMeans(r, page, desc, key);
    InSomeMore(ranges, clipped, key);
    if |ranges| > 0 && ContainsRange(ranges[|ranges| - 1], clipped) && Contains(clipped, key) && !OffPage(r, page, desc) {
      InsideMeans(ranges[|ranges| - 1], clipped, key);
    }
  }

  // ---- ranges laid one behind the other ----

  predicate Behind(r: Range, s: Range) {
    && r.upper != [] && Lex(r.upper, s.lower) <= 0 && Lex(r.lower, s.lower) <= 0
    && (s.upper == [] || Lex(r.upper, s.upper) <= 0)
  }

  predicate Laid(ranges: seq<Range>) {
    forall i, j :: 0 <= i < j < |ranges| ==> Behind(ranges[i], ranges[j])
  }

  predicate UpTo(ranges: seq<Range>, top: Bytes) {
    forall i :: 0 <= i < |ranges| ==> ranges[i].upper != [] && Lex(ranges[i].upper, top) <= 0 && Lex(ranges[i].lower, top) <= 0
  }

  predicate From(r: Range, top: Bytes) {
    Lex(top, r.lower) <= 0 && (r.upper == [] || Lex(top, r.upper) <= 0)
  }

  lemma ClippedFrom(r: Range, page: Bytes, desc: bool, top: Bytes)
    requires From(r, top) && !OffPage(r, page, desc)
    ensures From(Clipped(r, page, desc), top)
    ensures r.upper != [] ==> forall t :: UpTo([r], t) ==> UpTo([Clipped(r, page, desc)], t)
  {
    if page != [] {
      LexFlip(page, r.lower);
      LexFlip(page, r.upper);
      var clipped := Clipped(r, page, desc);
      if desc {
        if r.lower == [] { LexZero(top, []); LexZero([], page); } else { LexTrans(top, r.lower, page); }
        forall t | r.upper != [] && UpTo([r], t) ensures UpTo([clipped], t) {
          if clipped.upper == page { LexTrans(page, r.upper, t); }
          assert [r][0] == r;
        }
      } else {
        if Lex(r.lower, page) <= 0 { LexTrans(top, r.lower, page); }
        forall t | r.upper != [] && UpTo([r], t) ensures UpTo([clipped], t) {
          assert [r][0] == r;
          if clipped.lower == page { LexTrans(page, r.upper, t); }
        }
      }
    }
  }

  lemma LaidMore(ranges: seq<Range>, top: Bytes, r: Range)
    requires Laid(ranges) && UpTo(ranges, top) && From(r, top)
    ensures Laid(ranges + [r])
    ensures !Lossy(ranges, r)
    ensures |ranges| > 0 ==> !Contains(ranges[|ranges| - 1], r.lower)
  {
    forall i | 0 <= i < |ranges| ensures Behind(ranges[i], r) && !Contains(ranges[i], r.lower) {
      LexTrans(ranges[i].upper, top, r.lower);
      LexTrans(ranges[i].lower, top, r.lower);
      LexFlip(ranges[i].upper, r.lower);
      if r.upper != [] {
        LexTrans(ranges[i].upper, top, r.upper);
      }
    }
  }

  /** A range from the top on is added whole and loses nothing. */
  lemma AddedLaid(ranges: seq<Range>, top: Bytes, r: Range, page: Bytes, desc: bool)
    requires Laid(ranges) && UpTo(ranges, top) && From(r, top)
    ensures Laid(Added(ranges, r, page, desc))
    ensures forall key :: InSome(Added(ranges, r, page, desc), key) <==> InSome(ranges, key) || (Contains(r, key) && OnPage(page, desc, key))
    ensures forall t :: Lex(top, t) <= 0 && UpTo([r], t) ==> UpTo(Added(ranges, r, page, desc), t)
  {
    if !OffPage(r, page, desc) {
      ClippedFrom(r, page, desc, top);
      LaidMore(ranges, top, Clipped(r, page, desc));
    }
    forall key ensures InSome(Added(ranges, r, page, desc), key) <==> InSome(ranges, key) || (Contains(r, key) && OnPage(page, desc, key)) {
      AddedMeans(ranges, r, page, desc, key);
    }
    forall t | Lex(top, t) <= 0 && UpTo([r], t) ensures UpTo(Added(ranges, r, page, desc), t) {
      forall i | 0 <= i < |ranges| ensures Lex(ranges[i].upper, t) <= 0 && Lex(ranges[i].lower, t) <= 0 {
        LexTrans(ranges[i].upper, top, t);
        LexTrans(ranges[i].lower, top, t);
      }
      assert [r][0] == r;
      if !OffPage(r, page, desc) {
        var clipped := Clipped(r, page, desc);
        assert UpTo([clipped], t);
        assert [clipped][0] == clipped;
      }
    }
  }

  // ---- the ranges of a clause, behind those of smaller leading values ----

  /** What adding some ranges makes of the ranges so far. */
  ghost predicate AddsUp(ranges: seq<Range>, more: seq<Range>, page: Bytes, desc: bool, all: seq<Range>) {
    && Laid(all)
    && forall key :: InSome(all, key) <==> InSome(ranges, key) || (InSome(more, key) && OnPage(page, desc, key))
  }

  lemma AddsUpOne(ranges: seq<Range>, top: Bytes, r: Range, page: Bytes, desc: bool)
    requires Laid(ranges) && UpTo(ranges, top) && From(r, top)
    ensures AddedAll(ranges, [r], page, desc) == Added(ranges, r, page, desc)
    ensures AddsUp(ranges, [r], page, desc, Added(ranges, r, page, desc))
  {
    AddedLaid(ranges, top, r, page, desc);
    assert [r][1..] == [];
    forall key ensures InSome([r], key) <==> Contains(r, key) {
      InOne([r], key);
    }
  }

  lemma AddsUpTwo(ranges: seq<Range>, top: Bytes, r: Range, mid: Bytes, s: Range, page: Bytes, desc: bool)
    requires Laid(ranges) && UpTo(ranges, top) && From(r, top) && UpTo([r], mid) && Lex(top, mid) <= 0 && From(s, mid)
    ensures AddsUp(ranges, [r, s], page, desc, AddedAll(ranges, [r, s], page, desc))
    ensures forall t :: Lex(mid, t) <= 0 && UpTo([s], t) ==> UpTo(AddedAll(ranges, [r, s], page, desc), t)
  {
    hide Added;
    hide InSome;
    hide Contains;
    hide Laid;
    hide UpTo;
    hide From;
    hide Lex;
    hide OnPage;
    var first := Added(ranges, r, page, desc);
    AddedLaid(ranges, top, r, page, desc);
    AddedLaid(first, mid, s, page, desc);
    AddsUpOne(first, mid, s, page, desc);
    assert [r, s][1..] == [s];
    forall key ensures InSome([r, s], key) <==> Contains(r, key) || Contains(s, key) {
      InTwo([r, s], key);
    }
  }

  lemma WithinFrom(r: Range, p: Bytes, top: Bytes)
    requires Within(r, p) && Lex(top, p) <= 0
    ensures From(r, top) && (Increment(p) != [] ==> UpTo([r], Increment(p)))
  {
    LexTrans(top, p, r.lower);
    if r.upper != [] {
      LexTrans(top, p, r.upper);
    }
  }

  lemma NotEqBounds(p: Bytes, e: Bytes, lowerKey: Bytes)
    requires lowerKey == p + e && |e| > 0 && e[0] < BYTE_MAX
    ensures UpTo([Range(p, lowerKey, 0)], lowerKey)
    ensures From(Range(Increment(lowerKey), Increment(p), 0), lowerKey)
    ensures Lex(p, lowerKey) <= 0 && (Increment(p) != [] ==> Lex(lowerKey, Increment(p)) <= 0)
  {
    ExtendedWithin(p, e);
    LexZero(lowerKey, lowerKey);
    IncrementAbove(lowerKey, lowerKey);
  }

  lemma ClauseAdded(c: Clause, p: Bytes, lowerKey: Bytes, upperKey: Bytes, prefix: Bytes, ranges: seq<Range>, top: Bytes, page: Bytes, desc: bool)
    requires FormedOne(c) && BoundsOf(c, p, lowerKey, upperKey, prefix)
    requires Laid(ranges) && UpTo(ranges, top) && Lex(top, p) <= 0
    ensures var more := Ranges(lowerKey, upperKey, prefix, c.lowerOp, c.upperOp);
      var all := AddedAll(ranges, more, page, desc);
      AddsUp(ranges, more, page, desc, all) && (Increment(p) != [] ==> UpTo(all, Increment(p)))
  {
    hide Added;
    hide Contains;
    hide OnPage;
    hide Lex;
    hide Laid;
    hide Encode;
    hide Increment;
    var more := Ranges(lowerKey, upperKey, prefix, c.lowerOp, c.upperOp);
    BoundsStay(c, p, lowerKey, upperKey, prefix);
    WithinFrom(more[0], p, top);
    if Increment(p) != [] {
      IncrementAbove(p, p);
      LexTrans(top, p, Increment(p));
    }
    if c.lowerOp.NotEq? {
      EncodingNotMax(c.lowerVal);
      NotEqBounds(p, Encode(c.lowerVal), lowerKey);
      LexTrans(top, p, lowerKey);
      AddsUpTwo(ranges, top, more[0], lowerKey, more[1], page, desc);
    } else {
      assert more == [more[0]];
      AddedLaid(ranges, top, more[0], page, desc);
      AddsUpOne(ranges, top, more[0], page, desc);
    }
  }

  // ---- the plan as it is built ----

  lemma AddedByOne(ranges: seq<Range>, more: seq<Range>, page: Bytes, desc: bool)
    ensures |more| == 1 ==> AddedAll(ranges, more, page, desc) == Added(ranges, more[0], page, desc)
    ensures |more| == 2 ==> AddedAll(ranges, more, page, desc) == Added(Added(ranges, more[0], page, desc), more[1], page, desc)
    decreases |more|
  {
    if |more| == 2 {
      AddedByOne(Added(ranges, more[0], page, desc), more[1..], page, desc);
    }
  }

  lemma {:induction false} AddedAllThen(ranges: seq<Range>, a: seq<Range>, b: seq<Range>, page: Bytes, desc: bool)
    ensures AddedAll(ranges, a + b, page, desc) == AddedAll(AddedAll(ranges, a, page, desc), b, page, desc)
    decreases |a|
  {
    hide Added;
    if |a| == 0 {
      assert a + b == b;
    } else {
      AddedAllThen(Added(ranges, a[0], page, desc), a[1..], b, page, desc);
      assert (a + b)[1..] == a[1..] + b;
    }
  }

  lemma AddedNone(ranges: seq<Range>, page: Bytes, desc: bool)
    ensures AddedAll(ranges, [], page, desc) == ranges
  {
  }

  /** The ranges of key after key. */
  function KeyRanges(lowers: seq<Bytes>, uppers: seq<Bytes>, prefixes: seq<Bytes>, lowerOp: Op, upperOp: Op): seq<Range>
    requires |lowers| <= |uppers| && |lowers| <= |prefixes|
  {
    if |lowers| == 0 then []
    else Ranges(lowers[0], uppers[0], prefixes[0], lowerOp, upperOp) + KeyRanges(lowers[1..], uppers[1..], prefixes[1..], lowerOp, upperOp)
  }

  class QueryPlan {
    var ranges: seq<Range>
    const page: Bytes
    const desc: bool

    constructor (pageKey: Bytes, descending: bool)
      ensures ranges == [] && page == pageKey && desc == descending
    {
      ranges, page, desc := [], pageKey, descending;
    }

    /** Cuts a range at the page, and leaves it out if it is off the page or inside the one before. */
    method AddRange(lowerKey: Bytes, upperKey: Bytes)
      modifies this
      ensures ranges == Added(old(ranges), Range(lowerKey, upperKey, 0), page, desc)
    {
      var range := Range(lowerKey, upperKey, 0);
      if page != [] {
        var ub := if desc then range.lower else range.upper;
        if ub != [] && (Lex(page, ub) <= 0) == desc {
          return;
        }
        var lb := if desc then range.upper else range.lower;
        if lb == [] || (Lex(page, lb) < 0) == desc {
          range := if desc then range.(upper := page) else range.(lower := page);
        }
      }
      if |ranges| > 0 && ContainsRange(ranges[|ranges| - 1], range) {
        return;
      }
      ranges := ranges + [range];
    }

    /** The ranges of the last clause; a plan without clauses has the bounds of an equality. */
    method RangesFromKeys(lower: Bytes, upper: Bytes, prefixKey: Bytes, lowerOp: Op, upperOp: Op)
      requires lowerOp.Prefix? ==> prefixKey != []
      modifies this
      ensures ranges == AddedAll(old(ranges), Ranges(lower, upper, prefixKey, lowerOp, upperOp), page, desc)
    {
      hide AddedAll;
      hide Added;
      AddedByOne(ranges, Ranges(lower, upper, prefixKey, lowerOp, upperOp), page, desc);
      var lowerKey := new Key(lower);
      var upperKey := new Key(upper);
      var prefix := new Key(prefixKey);
      if upperOp.NoOp? {
        upperKey := new Key(prefix.vec);
        upperKey.IncrementKey();
      } else if upperOp.LessEq? {
        upperKey.IncrementKey();
      }
      match lowerOp
      case Eq =>
        prefix.IncrementKey();
        AddRange(lowerKey.vec, prefix.vec);
      case Prefix =>
        if prefix.vec[|prefix.vec| - 1] == 0 {
          prefix := new Key(prefix.vec[..|prefix.vec| - 1]);
        }
        prefix.IncrementKey();
        AddRange(lowerKey.vec, prefix.vec);
      case NotEq =>
        AddRange(prefix.vec, lowerKey.vec);
        lowerKey.IncrementKey();
        prefix.IncrementKey();
        AddRange(lowerKey.vec, prefix.vec);
      case Greater =>
        lowerKey.IncrementKey();
        AddRange(lowerKey.vec, upperKey.vec);
      case _ =>
        AddRange(lowerKey.vec, upperKey.vec);
    }

    /** One key of each set after the other. */
    method RangesFromKeySets(lowers: seq<Bytes>, uppers: seq<Bytes>, prefixes: seq<Bytes>, lowerOp: Op, upperOp: Op)
      requires |lowers| <= |uppers| && |lowers| <= |prefixes|
      requires lowerOp.Prefix? ==> forall i :: 0 <= i < |prefixes| ==> prefixes[i] != []
      modifies this
      ensures ranges == AddedAll(old(ranges), KeyRanges(lowers, uppers, prefixes, lowerOp, upperOp), page, desc)
    {
      hide AddedAll;
      hide Ranges;
      ghost var all := AddedAll(ranges, KeyRanges(lowers, uppers, prefixes, lowerOp, upperOp), page, desc);
      assert lowers[0..] == lowers && uppers[0..] == uppers && prefixes[0..] == prefixes;
      for i := 0 to |lowers|
        invariant AddedAll(ranges, KeyRanges(lowers[i..], uppers[i..], prefixes[i..], lowerOp, upperOp), page, desc) == all
      {
        assert lowers[i..][1..] == lowers[i + 1..] && uppers[i..][1..] == uppers[i + 1..] && prefixes[i..][1..] == prefixes[i + 1..];
        ghost var more := Ranges(lowers[i], uppers[i], prefixes[i], lowerOp, upperOp);
        AddedAllThen(ranges, more, KeyRanges(lowers[i + 1..], uppers[i + 1..], prefixes[i + 1..], lowerOp, upperOp), page, desc);
        RangesFromKeys(lowers[i], uppers[i], prefixes[i], lowerOp, upperOp);
      }
      AddedNone(ranges, page, desc);
    }
  }
}
