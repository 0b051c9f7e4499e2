/** The ranges of a clause of a list, behind one choice of leading values after another, and what a plan keeps of them. */
module PlanLists {
  import opened Bytes
  import opened Values
  import opened ValueOrder
  import opened Keys
  import opened Entries
  import opened Plan
  import opened PlanPage
  import opened Lists

  // ---- the ranges ----

  function Upper(c: Clause): Value { if c.upperOp.NoOp? then c.lowerVal else c.upperVal }

  /** The ranges of a clause of one value behind some leading values. */
  function OneRanges(c: Clause, p: Bytes): seq<Range> {
    var lower := p + Encode(c.lowerVal);
    Ranges(lower, p + Encode(Upper(c)), if c.lowerOp.Eq? || c.lowerOp.Prefix? then lower else p, c.lowerOp, c.upperOp)
  }

  function EachRanges(c: Clause, p: Bytes, vals: seq<Value>): seq<Range> {
    if |vals| == 0 then [] else OneRanges(One(c, vals[0]), p) + EachRanges(c, p, vals[1..])
  }

  /** Those for each value of its list. */
  function ClauseRanges(c: Clause, p: Bytes): seq<Range> { EachRanges(c, p, ValuesOf(c.lowerVal)) }

  /** Those behind each of some leading values. */
  function RangesBehind(ps: seq<Bytes>, c: Clause): seq<Range> {
    if |ps| == 0 then [] else ClauseRanges(c, ps[0]) + RangesBehind(ps[1..], c)
  }

  // ---- one sequence of ranges behind another ----

  lemma InEither(a: seq<Range>, b: seq<Range>, key: Bytes)
    ensures InSome(a + b, key) <==> InSome(a, key) || InSome(b, key)
  {
    hide Contains;
    if i :| 0 <= i < |a| && Contains(a[i], key) {
      assert (a + b)[i] == a[i];
    }
    if i :| 0 <= i < |b| && Contains(b[i], key) {
      assert (a + b)[|a| + i] == b[i];
    }
  }

  lemma AddsUpThen(ranges: seq<Range>, a: seq<Range>, some: seq<Range>, b: seq<Range>, all: seq<Range>, page: Bytes, desc: bool)
    requires AddsUp(ranges, a, page, desc, some) && AddsUp(some, b, page, desc, all)
    ensures AddsUp(ranges, a + b, page, desc, all)
  {
    hide InSome;
    hide OnPage;
    hide Laid;
    forall key ensures InSome(a + b, key) <==> InSome(a, key) || InSome(b, key) {
      InEither(a, b, key);
    }
  }

  lemma AddsUpNone(ranges: seq<Range>, page: Bytes, desc: bool)
    requires Laid(ranges)
    ensures AddsUp(ranges, [], page, desc, ranges)
  {
  }

  lemma UpToMore(ranges: seq<Range>, top: Bytes, more: Bytes)
    requires UpTo(ranges, top) && Lex(top, more) <= 0
    ensures UpTo(ranges, more)
  {
    forall i | 0 <= i < |ranges| ensures Lex(ranges[i].upper, more) <= 0 && Lex(ranges[i].lower, more) <= 0 {
      LexTrans(ranges[i].upper, top, more);
      LexTrans(ranges[i].lower, top, more);
    }
  }

  /** What is under a key stays under it with its increment. */
  lemma UnderIncrement(a: Bytes, b: Bytes)
    requires Under(a, b) && Increment(a) != []
    ensures Lex(Increment(a), b) <= 0
  {
    UnderIsBelow(a, b);
    IncrementAbove(a, b);
    if a <= b {
      PrefixNotUnder(a, b);
    }
    LexFlip(Increment(a), b);
  }

  // ---- a list of an equality ----

  lemma {:induction false} EqualsAdded(c: Clause, p: Bytes, vals: seq<Value>, ranges: seq<Range>, top: Bytes, page: Bytes, desc: bool)
    requires c.lowerOp.Eq? && c.upperOp.NoOp? && AllPlain(vals) && Rising(vals) && Increment(p) != []
    requires Laid(ranges) && UpTo(ranges, top) && Lex(top, Increment(p)) <= 0
    requires |vals| > 0 ==> Lex(top, p + Encode(vals[0])) <= 0
    ensures var all := AddedAll(ranges, EachRanges(c, p, vals), page, desc);
      AddsUp(ranges, EachRanges(c, p, vals), page, desc, all) && UpTo(all, Increment(p))
    decreases |vals|
  {
    hide Added;
    hide Laid;
    hide UpTo;
    hide Lex;
    hide Encode;
    hide Increment;
    hide InSome;
    hide Plain;
    hide Rising;
    if |vals| == 0 {
      AddsUpNone(ranges, page, desc);
      UpToMore(ranges, top, Increment(p));
    } else {
      var key := p + Encode(vals[0]);
      var r := Range(key, Increment(key), 0);
      var some := AddedAll(ranges, [r], page, desc);
      assert OneRanges(One(c, vals[0]), p) == [r];
      AllPlainBehind(vals);
      EqualAdded(p, vals[0], ranges, top, r, page, desc);
      if |vals| > 1 {
        RisingBehind(p, vals);
      }
      RisingTail(vals);
      EqualsAdded(c, p, vals[1..], some, Increment(key), page, desc);
      AddedAllThen(ranges, [r], EachRanges(c, p, vals[1..]), page, desc);
      AddsUpThen(ranges, [r], some, EachRanges(c, p, vals[1..]), AddedAll(some, EachRanges(c, p, vals[1..]), page, desc), page, desc);
    }
  }

  lemma AllPlainBehind(vals: seq<Value>)
    requires AllPlain(vals) && |vals| > 0
    ensures Plain(vals[0]) && AllPlain(vals[1..]) && (|vals| > 1 ==> Plain(vals[1]))
  {
  }

  lemma RisingTail(vals: seq<Value>)
    requires Rising(vals) && |vals| > 0
    ensures Rising(vals[1..])
  {
  }

  /** The increment of one key does not reach the next. */
  lemma RisingBehind(p: Bytes, vals: seq<Value>)
    requires AllPlain(vals) && Rising(vals) && |vals| > 1
    ensures Increment(p + Encode(vals[0])) != [] && Lex(Increment(p + Encode(vals[0])), p + Encode(vals[1])) <= 0
  {
    hide Lex;
    hide Encode;
    hide Plain;
    EncodingNotMax(vals[0]);
    ExtendedWithin(p, Encode(vals[0]));
    CodesApart(vals[0], vals[1]);
    UnderAfter(p, Encode(vals[0]), Encode(vals[1]));
    UnderIncrement(p + Encode(vals[0]), p + Encode(vals[1]));
  }

  lemma EqualAdded(p: Bytes, v: Value, ranges: seq<Range>, top: Bytes, r: Range, page: Bytes, desc: bool)
    requires r == Range(p + Encode(v), Increment(p + Encode(v)), 0)
    requires Laid(ranges) && UpTo(ranges, top) && Lex(top, p + Encode(v)) <= 0 && Increment(p) != []
    ensures var all := AddedAll(ranges, [r], page, desc);
      AddsUp(ranges, [r], page, desc, all) && UpTo(all, Increment(p + Encode(v))) && Lex(Increment(p + Encode(v)), Increment(p)) <= 0
  {
    hide Added;
    hide Laid;
    hide Lex;
    hide Encode;
    hide Increment;
    hide InSome;
    var key := p + Encode(v);
    EncodingNotMax(v);
    ExtendedWithin(p, Encode(v));
    IncrementAbove(key, key);
    LexZero(Increment(key), Increment(key));
    LexTrans(top, key, Increment(key));
    AddedLaid(ranges, top, r, page, desc);
    AddsUpOne(ranges, top, r, page, desc);
  }

  // ---- a list of a prefix: ranges that lie inside others are left out ----

  /** A range that is not empty and lies inside another. */
  predicate Inside(s: Range, r: Range) {
    && s.lower != [] && s.upper != [] && Lex(s.lower, s.upper) < 0
    && Lex(r.lower, s.lower) <= 0 && Lex(s.upper, r.upper) <= 0
  }

  /** Of a range inside the one last added nothing comes in between: it is off the page, or inside still when both are cut. */
  ghost predicate Swallows(ranges: seq<Range>, r: Range, page: Bytes, desc: bool) {
    forall s :: Inside(s, r) ==>
      OffPage(s, page, desc) || (|ranges| > 0 && ContainsRange(ranges[|ranges| - 1], Clipped(s, page, desc)))
  }

  /** Or the page begins where the range ends. */
  predicate PageBehind(r: Range, page: Bytes, desc: bool) { page != [] && !desc && page == r.upper }

  /** When the page begins where a range ends, of one inside it nothing is left. */
  lemma NothingLeft(s: Range, r: Range, page: Bytes, desc: bool)
    requires Inside(s, r) && PageBehind(r, page, desc)
    ensures OffPage(s, page, desc) || Clipped(s, page, desc) == Range(page, page, s.group)
  {
    LexFlip(s.upper, page);
    LexZero(s.upper, page);
    LexFlip(s.lower, page);
  }

  lemma ClippedInside(s: Range, r: Range, page: Bytes, desc: bool)
    requires Inside(s, r) && r.lower != [] && r.upper != [] && !PageBehind(r, page, desc)
    ensures OffPage(r, page, desc) ==> OffPage(s, page, desc)
    ensures !OffPage(s, page, desc) ==> ContainsRange(Clipped(r, page, desc), Clipped(s, page, desc))
  {
    if page == [] {
      PlainlyInside(s, r);
    } else if desc {
      BelowPageInside(s, r, page);
    } else {
      FromPageInside(s, r, page);
    }
  }

  lemma PlainlyInside(s: Range, r: Range)
    requires Inside(s, r) && r.lower != [] && r.upper != []
    ensures ContainsRange(r, s)
  {
    LexFlip(r.lower, s.lower);
    LexTrans(s.lower, s.upper, r.upper);
  }

  lemma BelowPageInside(s: Range, r: Range, page: Bytes)
    requires Inside(s, r) && r.lower != [] && r.upper != [] && page != []
    ensures OffPage(r, page, true) ==> OffPage(s, page, true)
    ensures !OffPage(s, page, true) ==> ContainsRange(Clipped(r, page, true), Clipped(s, page, true))
  {
    LexFlip(r.lower, s.lower);
    LexFlip(page, s.lower);
    LexFlip(page, s.upper);
    LexFlip(page, r.upper);
    LexZero(page, page);
    LexTrans(s.lower, s.upper, r.upper);
    if Lex(page, r.lower) <= 0 {
      LexTrans(page, r.lower, s.lower);
    }
    if Lex(page, r.upper) < 0 {
      if Lex(s.upper, page) <= 0 { LexZero(s.upper, page); }
    } else {
      LexTrans(s.upper, r.upper, page);
    }
  }

  lemma FromPageInside(s: Range, r: Range, page: Bytes)
    requires Inside(s, r) && r.lower != [] && r.upper != [] && page != [] && page != r.upper
    ensures OffPage(r, page, false) ==> OffPage(s, page, false)
    ensures !OffPage(s, page, false) ==> ContainsRange(Clipped(r, page, false), Clipped(s, page, false))
  {
    LexFlip(r.lower, s.lower);
    LexFlip(page, s.lower);
    LexFlip(page, r.lower);
    LexFlip(page, s.upper);
    LexFlip(page, r.upper);
    LexZero(page, page);
    LexZero(page, r.upper);
    LexTrans(s.lower, s.upper, r.upper);
    if Lex(page, r.upper) > 0 {
      LexTrans(s.upper, r.upper, page);
    }
    if Lex(page, s.lower) >= 0 {
      LexTrans(r.lower, s.lower, page);
    }
  }

  /** A range added at the top swallows all that lies inside it, on whatever page. */
  lemma AddedSwallows(ranges: seq<Range>, top: Bytes, r: Range, page: Bytes, desc: bool)
    requires Laid(ranges) && UpTo(ranges, top) && From(r, top) && r.lower != [] && r.upper != [] && !PageBehind(r, page, desc)
    ensures Swallows(Added(ranges, r, page, desc), r, page, desc)
  {
    hide Lex;
    hide Inside;
    hide Laid;
    hide UpTo;
    hide Clipped;
    if !OffPage(r, page, desc) {
      ClippedFrom(r, page, desc, top);
      LaidMore(ranges, top, Clipped(r, page, desc));
      hide OffPage;
      hide From;
      NotContained(ranges, Clipped(r, page, desc));
      assert Added(ranges, r, page, desc) == ranges + [Clipped(r, page, desc)];
    }
    hide OffPage;
    hide Added;
    hide ContainsRange;
    forall s | Inside(s, r)
      ensures OffPage(s, page, desc)
        || (|Added(ranges, r, page, desc)| > 0 && ContainsRange(Added(ranges, r, page, desc)[|Added(ranges, r, page, desc)| - 1], Clipped(s, page, desc)))
    {
      ClippedInside(s, r, page, desc);
    }
  }

  lemma NotContained(ranges: seq<Range>, r: Range)
    requires |ranges| > 0 ==> !Contains(ranges[|ranges| - 1], r.lower)
    ensures |ranges| > 0 ==> !ContainsRange(ranges[|ranges| - 1], r)
  {
  }

  /** A range inside the one last added changes nothing, or adds an empty range behind it. */
  lemma SwallowedAdded(ranges: seq<Range>, s: Range, r: Range, page: Bytes, desc: bool)
    requires Laid(ranges) && UpTo(ranges, r.upper) && Inside(s, r) && r.upper != []
    requires Swallows(ranges, r, page, desc) || PageBehind(r, page, desc)
    ensures var all := AddedAll(ranges, [s], page, desc);
      AddsUp(ranges, [s], page, desc, all) && UpTo(all, r.upper) && (Swallows(all, r, page, desc) || PageBehind(r, page, desc))
  {
    hide Lex;
    hide Laid;
    hide UpTo;
    hide InSome;
    var all := Added(ranges, s, page, desc);
    AddedByOne(ranges, [s], page, desc);
    SwallowedLaid(ranges, s, r, page, desc);
    hide Added;
    hide Swallows;
    forall key ensures InSome(all, key) <==> InSome(ranges, key) || (InSome([s], key) && OnPage(page, desc, key)) {
      AddedMeans(ranges, s, page, desc, key);
      InOne([s], key);
    }
  }

  lemma SwallowedLaid(ranges: seq<Range>, s: Range, r: Range, page: Bytes, desc: bool)
    requires Laid(ranges) && UpTo(ranges, r.upper) && Inside(s, r) && r.upper != []
    requires Swallows(ranges, r, page, desc) || PageBehind(r, page, desc)
    ensures var all := Added(ranges, s, page, desc);
      Laid(all) && UpTo(all, r.upper) && (Swallows(all, r, page, desc) || PageBehind(r, page, desc))
  {
    hide Lex;
    hide Laid;
    if PageBehind(r, page, desc) {
      NothingLeft(s, r, page, desc);
      if !OffPage(s, page, desc) {
        LexZero(page, page);
        hide UpTo;
        hide OffPage;
        var cut := Clipped(s, page, desc);
        LaidMore(ranges, page, cut);
        UpToOne(ranges, cut, page);
      }
    } else {
      hide UpTo;
      assert OffPage(s, page, desc) || ContainsRange(ranges[|ranges| - 1], Clipped(s, page, desc));
      hide OffPage;
      hide Clipped;
      hide ContainsRange;
      assert Added(ranges, s, page, desc) == ranges;
    }
  }

  lemma UpToOne(ranges: seq<Range>, r: Range, top: Bytes)
    requires UpTo(ranges, top) && r.upper == r.lower == top != []
    ensures UpTo(ranges + [r], top)
  {
    LexZero(top, top);
  }

  // ---- prefixes one after another ----

  function Stem(p: Bytes, v: Value): Bytes { p + Unterminated(Encode(v)) }

  function PrefixOf(p: Bytes, v: Value): Range { Range(p + Encode(v), Increment(Stem(p, v)), 0) }

  lemma PrefixOne(c: Clause, p: Bytes, v: Value)
    requires c.lowerOp.Prefix? && c.upperOp.NoOp?
    ensures OneRanges(One(c, v), p) == [PrefixOf(p, v)]
  {
    hide Encode;
    hide Unterminated;
    hide Increment;
    StemOf(p, v);
  }

  lemma PrefixBounds(p: Bytes, v: Value)
    requires Increment(p) != []
    ensures var r := PrefixOf(p, v);
      && r.lower != [] && r.upper != [] && Lex(Stem(p, v), r.lower) <= 0 && Lex(r.lower, r.upper) < 0 && Lex(r.upper, Increment(p)) <= 0
      && Increment(Stem(p, v)) == r.upper
  {
    hide Lex;
    hide Increment;
    hide Encode;
    hide Unterminated;
    var stem := Stem(p, v);
    StemOf(p, v);
    ExtendedWithin(p, Unterminated(Encode(v)));
    StemLonger(p, Encode(v), stem, p + Encode(v));
    LexExtended(stem, [0]);
    LexZero(stem, stem);
    IncrementAbove(stem, p + Encode(v));
  }

  /** A value whose stem begins that of a later one: its range holds the later one's. */
  lemma PrefixInside(p: Bytes, v: Value, w: Value)
    requires Increment(p) != [] && Unterminated(Encode(v)) <= Unterminated(Encode(w)) && Lex(Encode(v), Encode(w)) <= 0
    ensures Inside(PrefixOf(p, w), PrefixOf(p, v))
  {
    hide Lex;
    hide Increment;
    hide Encode;
    hide Unterminated;
    PrefixBounds(p, v);
    PrefixBounds(p, w);
    var stem, more := Stem(p, v), Unterminated(Encode(w))[|Unterminated(Encode(v))|..];
    assert Unterminated(Encode(w)) == Unterminated(Encode(v)) + more;
    assert Stem(p, w) == stem + more;
    LexPrefix(p, Encode(v), Encode(w));
    UpperInside(stem, more);
  }

  lemma UpperInside(stem: Bytes, more: Bytes)
    requires Increment(stem) != [] && Increment(stem + more) != []
    ensures Lex(Increment(stem + more), Increment(stem)) <= 0
  {
    if |more| == 0 {
      assert stem + more == stem;
      LexZero(Increment(stem), Increment(stem));
    } else if Increment(more) != [] {
      IncrementTail(stem, more);
      IncrementAbove(stem, stem + Increment(more));
    } else {
      NoTail(stem, more);
      LexZero(Increment(stem), Increment(stem));
    }
  }

  lemma {:induction false} NoTail(stem: Bytes, more: Bytes)
    requires Increment(more) == []
    ensures Increment(stem + more) == Increment(stem)
    decreases |more|
  {
    if |more| == 0 {
      assert stem + more == stem;
    } else {
      var n := |more| - 1;
      NoIncrement(more);
      NoIncrement(more[..n]);
      assert (stem + more)[..|stem| + n] == stem + more[..n];
      NoTail(stem, more[..n]);
    }
  }

  /** Prefixes neither of which begins the other: the ranges are one behind the other. */
  lemma PrefixBehind(p: Bytes, v: Value, w: Value)
    requires Increment(p) != [] && Plain(v) && Plain(w) && !(Unterminated(Encode(v)) <= Unterminated(Encode(w))) && Lex(Encode(v), Encode(w)) < 0
    ensures Lex(PrefixOf(p, v).upper, PrefixOf(p, w).lower) <= 0
  {
    hide Lex;
    hide Increment;
    hide Encode;
    hide Unterminated;
    StemsApart(v, w);
    UnderAfter(p, Unterminated(Encode(v)), Unterminated(Encode(w)));
    PrefixBounds(p, v);
    PrefixBounds(p, w);
    UnderIncrement(Stem(p, v), Stem(p, w));
    LexTrans(PrefixOf(p, v).upper, Stem(p, w), PrefixOf(p, w).lower);
  }

  lemma StemsApart(v: Value, w: Value)
    requires Plain(v) && Plain(w) && !(Unterminated(Encode(v)) <= Unterminated(Encode(w))) && Lex(Encode(v), Encode(w)) < 0
    ensures Under(Unterminated(Encode(v)), Unterminated(Encode(w)))
  {
    hide Lex;
    hide Encode;
    CodesApart(v, w);
    EncodingNotMax(v);
    EncodingNotMax(w);
    UnderStems(Encode(v), Encode(w));
  }

  /** Of a list of two such prefixes only the range of the first is kept, in either direction. */
  lemma SecondDropped(p: Bytes, v: Value, w: Value, desc: bool)
    requires Increment(p) != [] && Unterminated(Encode(v)) <= Unterminated(Encode(w)) && Lex(Encode(v), Encode(w)) <= 0
    ensures AddedAll([], [PrefixOf(p, v), PrefixOf(p, w)], [], desc) == [PrefixOf(p, v)]
  {
    hide Lex;
    hide Increment;
    hide Encode;
    hide Unterminated;
    PrefixInside(p, v, w);
    PrefixBounds(p, v);
    PlainlyInside(PrefixOf(p, w), PrefixOf(p, v));
    AddedByOne([], [PrefixOf(p, v), PrefixOf(p, w)], [], desc);
  }

  /** What is under a string at some byte is so still without the terminators, unless nothing more is left of it. */
  lemma {:induction false} UnderStems(a: Bytes, b: Bytes)
    requires Under(a, b)
    ensures Unterminated(a) <= Unterminated(b) || Under(Unterminated(a), Unterminated(b))
  {
    if a[0] == b[0] && |a| > 1 && |b| > 1 {
      UnderStems(a[1..], b[1..]);
      assert Unterminated(a) == [a[0]] + Unterminated(a[1..]) && Unterminated(b) == [b[0]] + Unterminated(b[1..]);
      UnderMore(a[0], Unterminated(a[1..]), Unterminated(b[1..]));
    }
  }

  lemma UnderMore(x: Byte, a: Bytes, b: Bytes)
    ensures Under(a, b) ==> Under([x] + a, [x] + b)
    ensures a <= b ==> [x] + a <= [x] + b
  {
    assert ([x] + a)[1..] == a && ([x] + b)[1..] == b;
  }

  /** What of the ranges so far the next prefix is behind, or inside. */
  ghost predicate Rooted(p: Bytes, root: Maybe<Value>, vals: seq<Value>, ranges: seq<Range>, top: Bytes, page: Bytes, desc: bool) {
    match root
    case Nothing => |vals| > 0 ==> Lex(top, p + Encode(vals[0])) <= 0
    case Just(v) =>
      && Plain(v) && top == PrefixOf(p, v).upper
      && (Swallows(ranges, PrefixOf(p, v), page, desc) || PageBehind(PrefixOf(p, v), page, desc))
      && (|vals| > 0 ==> Lex(Encode(v), Encode(vals[0])) < 0)
  }

  lemma {:induction false} PrefixesAdded(c: Clause, p: Bytes, vals: seq<Value>, root: Maybe<Value>, ranges: seq<Range>, top: Bytes, page: Bytes, desc: bool)
    requires c.lowerOp.Prefix? && c.upperOp.NoOp? && AllPlain(vals) && Rising(vals) && Increment(p) != []
    requires Laid(ranges) && UpTo(ranges, top) && Lex(top, Increment(p)) <= 0
    requires Rooted(p, root, vals, ranges, top, page, desc)
    ensures var all := AddedAll(ranges, EachRanges(c, p, vals), page, desc);
      AddsUp(ranges, EachRanges(c, p, vals), page, desc, all) && UpTo(all, Increment(p))
    decreases |vals|
  {
    hide Added;
    hide Laid;
    hide UpTo;
    hide Lex;
    hide Encode;
    hide Increment;
    hide InSome;
    hide Plain;
    hide Rising;
    hide Rooted;
    hide PrefixOf;
    if |vals| == 0 {
      AddsUpNone(ranges, page, desc);
      UpToMore(ranges, top, Increment(p));
    } else {
      var r, rest := PrefixOf(p, vals[0]), vals[1..];
      var some := AddedAll(ranges, [r], page, desc);
      PrefixOne(c, p, vals[0]);
      AllPlainBehind(vals);
      RisingTail(vals);
      var root', top' := PrefixAdded(p, vals, root, ranges, top, page, desc);
      PrefixesAdded(c, p, rest, root', some, top', page, desc);
      AddedAllThen(ranges, [r], EachRanges(c, p, rest), page, desc);
      AddsUpThen(ranges, [r], some, EachRanges(c, p, rest), AddedAll(some, EachRanges(c, p, rest), page, desc), page, desc);
    }
  }

  lemma PrefixAdded(p: Bytes, vals: seq<Value>, root: Maybe<Value>, ranges: seq<Range>, top: Bytes, page: Bytes, desc: bool)
    returns (root': Maybe<Value>, top': Bytes)
    requires |vals| > 0 && AllPlain(vals) && Rising(vals) && Increment(p) != []
    requires Laid(ranges) && UpTo(ranges, top) && Lex(top, Increment(p)) <= 0
    requires Rooted(p, root, vals, ranges, top, page, desc)
    ensures var r := PrefixOf(p, vals[0]);
      var all := AddedAll(ranges, [r], page, desc);
      && AddsUp(ranges, [r], page, desc, all) && UpTo(all, top') && Lex(top', Increment(p)) <= 0
      && Rooted(p, root', vals[1..], all, top', page, desc)
  {
    hide Added;
    hide AddedAll;
    hide Laid;
    hide UpTo;
    hide Lex;
    hide Increment;
    hide InSome;
    hide Encode;
    hide Unterminated;
    hide Plain;
    hide Swallows;
    hide PageBehind;
    var v := vals[0];
    var r := PrefixOf(p, v);
    AllPlainBehind(vals);
    PrefixBounds(p, v);
    assert |vals| > 1 ==> vals[1..][0] == vals[1] && Lex(Encode(v), Encode(vals[1])) < 0;
    if root.Just? && Unterminated(Encode(root.val)) <= Unterminated(Encode(v)) {
      root', top' := root, top;
      PrefixInside(p, root.val, v);
      PrefixBounds(p, root.val);
      SwallowedAdded(ranges, r, PrefixOf(p, root.val), page, desc);
      if |vals| > 1 {
        LexTrans(Encode(root.val), Encode(v), Encode(vals[1]));
      }
    } else {
      root', top' := Just(v), r.upper;
      if root.Just? {
        PrefixBehind(p, root.val, v);
      }
      RootAdded(ranges, top, r, page, desc);
    }
  }

  lemma RootAdded(ranges: seq<Range>, top: Bytes, r: Range, page: Bytes, desc: bool)
    requires Laid(ranges) && UpTo(ranges, top) && Lex(top, r.lower) <= 0 && Lex(r.lower, r.upper) < 0 && r.lower != [] && r.upper != []
    ensures var all := AddedAll(ranges, [r], page, desc);
      AddsUp(ranges, [r], page, desc, all) && UpTo(all, r.upper) && (Swallows(all, r, page, desc) || PageBehind(r, page, desc))
  {
    hide Added;
    hide AddedAll;
    hide Laid;
    hide Lex;
    hide InSome;
    hide Swallows;
    hide AddsUp;
    LexTrans(top, r.lower, r.upper);
    LexZero(r.upper, r.upper);
    AddsUpOne(ranges, top, r, page, desc);
    AddedLaid(ranges, top, r, page, desc);
    if !PageBehind(r, page, desc) {
      AddedSwallows(ranges, top, r, page, desc);
    }
  }

  // ---- the ranges of a clause, behind one key and behind many ----

  lemma SingleRanges(c: Clause, p: Bytes)
    requires !c.lowerVal.Arr?
    ensures ClauseRanges(c, p) == OneRanges(c, p)
  {
    hide Ranges;
    hide Encode;
    SingleValue(c.lowerVal);
    assert One(c, c.lowerVal) == c && [c.lowerVal][1..] == [];
    hide OneRanges;
    assert EachRanges(c, p, [c.lowerVal]) == OneRanges(c, p) + [] == OneRanges(c, p);
  }

  /** Behind a key that is not below the ranges so far, the ranges of a clause are added without loss, in the order one pass needs. */
  lemma ListAdded(c: Clause, p: Bytes, ranges: seq<Range>, top: Bytes, page: Bytes, desc: bool)
    requires Formed(c) && Increment(p) != [] && Laid(ranges) && UpTo(ranges, top) && Lex(top, p) <= 0
    ensures var all := AddedAll(ranges, ClauseRanges(c, p), page, desc);
      AddsUp(ranges, ClauseRanges(c, p), page, desc, all) && UpTo(all, Increment(p))
  {
    hide AddedAll;
    hide AddsUp;
    hide Laid;
    hide UpTo;
    hide Lex;
    hide Encode;
    hide Increment;
    hide Rising;
    hide Plain;
    hide Ranges;
    if !c.lowerVal.Arr? {
      SingleRanges(c, p);
      SingleFormed(c);
      var lower := p + Encode(c.lowerVal);
      ClauseAdded(c, p, lower, p + Encode(Upper(c)), if c.lowerOp.Eq? || c.lowerOp.Prefix? then lower else p, ranges, top, page, desc);
    } else {
      var vals := ValuesOf(c.lowerVal);
      ValuesRise(c);
      TopBelow(p, top);
      if c.lowerOp.Eq? {
        if |vals| > 0 {
          TopBehind(p, vals[0], top);
        }
        EqualsAdded(c, p, vals, ranges, top, page, desc);
      } else {
        if |vals| > 0 {
          TopBehind(p, vals[0], top);
        }
        PrefixesAdded(c, p, vals, Nothing, ranges, top, page, desc);
      }
    }
  }

  lemma SingleFormed(c: Clause)
    requires Formed(c) && !c.lowerVal.Arr?
    ensures FormedOne(c)
  {
    assert c.lowerVal in Listed(c.lowerVal);
    assert One(c, c.lowerVal) == c;
  }

  lemma TopBelow(p: Bytes, top: Bytes)
    requires Increment(p) != [] && Lex(top, p) <= 0
    ensures Lex(top, Increment(p)) <= 0
  {
    hide Lex;
    IncrementAbove(p, p);
    LexTrans(top, p, Increment(p));
  }

  lemma TopBehind(p: Bytes, v: Value, top: Bytes)
    requires Lex(top, p) <= 0
    ensures Lex(top, p + Encode(v)) <= 0
  {
    hide Lex;
    hide Encode;
    EncodingNotMax(v);
    ExtendedWithin(p, Encode(v));
    LexTrans(top, p, p + Encode(v));
  }

  /** Keys each under the next ones. */
  predicate Rows(ps: seq<Bytes>) {
    && (forall i, j :: 0 <= i < j < |ps| ==> Under(ps[i], ps[j]))
    && (forall i :: 0 <= i < |ps| ==> Increment(ps[i]) != [])
  }

  lemma RowsTail(ps: seq<Bytes>)
    requires Rows(ps) && |ps| > 0
    ensures Rows(ps[1..]) && Increment(ps[0]) != [] && (|ps| > 1 ==> ps[1..][0] == ps[1] && Under(ps[0], ps[1]))
  {
  }

  /** So it is behind one key after another. */
  lemma {:induction false} BehindAdded(c: Clause, ps: seq<Bytes>, ranges: seq<Range>, top: Bytes, page: Bytes, desc: bool)
    requires Formed(c) && Rows(ps) && Laid(ranges) && UpTo(ranges, top) && (|ps| > 0 ==> Lex(top, ps[0]) <= 0)
    ensures AddsUp(ranges, RangesBehind(ps, c), page, desc, AddedAll(ranges, RangesBehind(ps, c), page, desc))
    decreases |ps|
  {
    hide Added;
    hide Laid;
    hide UpTo;
    hide Lex;
    hide Increment;
    hide InSome;
    hide ClauseRanges;
    hide Formed;
    hide Rows;
    if |ps| == 0 {
      AddsUpNone(ranges, page, desc);
    } else {
      var more, rest := ClauseRanges(c, ps[0]), RangesBehind(ps[1..], c);
      var some := AddedAll(ranges, more, page, desc);
      RowsTail(ps);
      ListAdded(c, ps[0], ranges, top, page, desc);
      if |ps| > 1 {
        UnderIncrement(ps[0], ps[1]);
      }
      BehindAdded(c, ps[1..], some, Increment(ps[0]), page, desc);
      AddedAllThen(ranges, more, rest, page, desc);
      AddsUpThen(ranges, more, some, rest, AddedAll(some, rest, page, desc), page, desc);
    }
  }

  // ---- what is in the ranges ----

  lemma {:induction false} InEach(c: Clause, p: Bytes, vals: seq<Value>, key: Bytes)
    ensures InSome(EachRanges(c, p, vals), key) <==> exists e :: e in vals && InSome(OneRanges(One(c, e), p), key)
    decreases |vals|
  {
    hide InSome;
    hide OneRanges;
    if |vals| > 0 {
      InEach(c, p, vals[1..], key);
      InEither(OneRanges(One(c, vals[0]), p), EachRanges(c, p, vals[1..]), key);
      assert vals == [vals[0]] + vals[1..];
    } else {
      InNone(key);
    }
  }

  lemma InNone(key: Bytes)
    ensures !InSome([], key)
  {
  }

  lemma {:induction false} InBehind(ps: seq<Bytes>, c: Clause, key: Bytes)
    ensures InSome(RangesBehind(ps, c), key) <==> exists p :: p in ps && InSome(ClauseRanges(c, p), key)
    decreases |ps|
  {
    hide InSome;
    hide ClauseRanges;
    if |ps| > 0 {
      InBehind(ps[1..], c, key);
      InEither(ClauseRanges(c, ps[0]), RangesBehind(ps[1..], c), key);
      assert ps == [ps[0]] + ps[1..];
    } else {
      InNone(key);
    }
  }

  /** Of the keys behind some leading values, the ranges of a clause hold those whose next value it accepts for one of its list. */
  lemma ListMeans(c: Clause, p: Bytes, v: Value, rest: Bytes, key: Bytes)
    requires Formed(c) && Plain(v) && key == p + Encode(v) + rest
    ensures InSome(ClauseRanges(c, p), key) <==> Accepts(c, v)
  {
    hide InSome;
    hide Ranges;
    hide Encode;
    hide AcceptsOne;
    hide FormedOne;
    hide Plain;
    hide ValuesOf;
    InEach(c, p, ValuesOf(c.lowerVal), key);
    SameValues(c);
    forall e | e in Listed(c.lowerVal) ensures InSome(OneRanges(One(c, e), p), key) <==> AcceptsOne(One(c, e), v) {
      var o := One(c, e);
      var lower := p + Encode(o.lowerVal);
      RangesMean(o, p, lower, p + Encode(Upper(o)), if o.lowerOp.Eq? || o.lowerOp.Prefix? then lower else p, v, rest, key);
    }
    if InSome(ClauseRanges(c, p), key) {
      var e :| e in ValuesOf(c.lowerVal) && InSome(OneRanges(One(c, e), p), key);
      assert e in Listed(c.lowerVal) && AcceptsOne(One(c, e), v);
    }
    if Accepts(c, v) {
      var e :| e in Listed(c.lowerVal) && AcceptsOne(One(c, e), v);
      assert e in ValuesOf(c.lowerVal) && InSome(OneRanges(One(c, e), p), key);
    }
  }

  lemma SameValues(c: Clause)
    requires Formed(c)
    ensures forall e :: e in ValuesOf(c.lowerVal) <==> e in Listed(c.lowerVal)
  {
    if c.lowerVal.Arr? {
      ValuesRise(c);
    } else {
      SingleValue(c.lowerVal);
    }
  }

  /** None of them holds a key that does not begin with those values. */
  lemma ListStays(c: Clause, p: Bytes, key: Bytes)
    requires Formed(c) && InSome(ClauseRanges(c, p), key)
    ensures p <= key
  {
    hide InSome;
    hide Ranges;
    hide Encode;
    hide FormedOne;
    hide ValuesOf;
    InEach(c, p, ValuesOf(c.lowerVal), key);
    SameValues(c);
    var e :| e in ValuesOf(c.lowerVal) && InSome(OneRanges(One(c, e), p), key);
    var o := One(c, e);
    var lower := p + Encode(o.lowerVal);
    RangesStay(o, p, lower, p + Encode(Upper(o)), if o.lowerOp.Eq? || o.lowerOp.Prefix? then lower else p, key);
  }
}
