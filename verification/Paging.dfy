/** Queries read page by page. */
module Paging {
  import opened Bytes
  import opened Values
  import opened Keys
  import opened KeySets
  import opened Entries
  import opened Plan
  import opened PlanPage
  import opened Lists
  import opened PlanLists
  import opened IndexPlan
  import opened QueryRanges
  import opened PlanKeys
  import opened Scan
  import IndexUpdate

  // ---- a plan is fit to be scanned ----

  /** The ranges hold the keys of some ranges that are on a page. */
  ghost predicate CutAt(ranges: seq<Range>, base: seq<Range>, page: Bytes, desc: bool) {
    forall key :: InSome(ranges, key) <==> InSome(base, key) && OnPage(page, desc, key)
  }

  lemma LaidIsMonotone(ranges: seq<Range>, desc: bool)
    requires Laid(ranges)
    ensures Monotone(if desc then Reversed(ranges) else ranges, desc)
  {
    hide Lex;
    hide Reversed;
    var scanned := if desc then Reversed(ranges) else ranges;
    forall i, j | 0 <= i < j < |scanned|
      ensures if desc then scanned[j].upper != [] && (scanned[i].upper == [] || Lex(scanned[j].upper, scanned[i].upper) <= 0)
              else Lex(scanned[i].lower, scanned[j].lower) <= 0
    {
      LaidAt(ranges, if desc then |ranges| - 1 - j else i, if desc then |ranges| - 1 - i else j);
    }
    hide Laid;
  }

  lemma LaidAt(ranges: seq<Range>, i: nat, j: nat)
    requires Laid(ranges) && i < j < |ranges|
    ensures Lex(ranges[i].lower, ranges[j].lower) <= 0 && ranges[i].upper != []
    ensures ranges[j].upper == [] || Lex(ranges[i].upper, ranges[j].upper) <= 0
  {
    assert Behind(ranges[i], ranges[j]);
  }

  lemma ReversedHas(ranges: seq<Range>, key: Bytes)
    ensures InSome(Reversed(ranges), key) <==> InSome(ranges, key)
  {
    var back := Reversed(ranges);
    if i :| 0 <= i < |ranges| && Contains(ranges[i], key) {
      assert back[|ranges| - 1 - i] == ranges[i];
    }
    if i :| 0 <= i < |back| && Contains(back[i], key) {
      assert ranges[|ranges| - 1 - i] == back[i];
    }
  }

  function PlannedRanges(id: Value, props: seq<string>, where: map<string, Clause>, page: Bytes, desc: bool): seq<Range>
    requires |where| <= |props| && forall i :: 0 <= i < |where| ==> props[i] in where
  {
    var all := AddedAll([], RangesOf(id, props, where), page, desc);
    if desc then Reversed(all) else all
  }

  lemma NoRanges()
    ensures Laid([]) && UpTo([], []) && forall p :: Lex([], p) <= 0
  {
    forall p ensures Lex([], p) <= 0 {
      LexExtended([], p);
      assert [] + p == p;
    }
  }

  /** The keys of the choices for the leading clauses are each under the next ones. */
  lemma EntryRows(id: Value, props: seq<string>, where: map<string, Clause>, n: nat)
    requires Leading(props, where, 0) && WellFormed(where) && n < |where|
    ensures Rows(Keyed(id, Choices(Leads(props, where, n))))
  {
    hide Under;
    hide Encode;
    hide Increment;
    hide Choices;
    hide Orderly;
    var fs := Choices(Leads(props, where, n));
    LeadsOrderly(props, where, n);
    ChoicesInLine(Leads(props, where, n));
    KeyedAscend(id, fs);
    forall i | 0 <= i < |fs| ensures Increment(Keyed(id, fs)[i]) != [] {
      EntryIncrement(id, fs[i]);
    }
  }

  lemma EntryIncrement(id: Value, vals: seq<Value>)
    ensures Increment(EntryKey(id, vals)) != []
  {
    hide Encode;
    EncodingNotMax(id);
    assert EntryKey(id, vals)[0] == Encode(id)[0];
    NoIncrement(EntryKey(id, vals));
  }

  /** The plan of a query can be scanned in one pass, and holds the keys of its clauses that are on the page. */
  lemma PlanFits(id: Value, props: seq<string>, where: map<string, Clause>, page: Bytes, desc: bool)
    requires Plain(id) && Leading(props, where, 0) && WellFormed(where)
    ensures var ranges := PlannedRanges(id, props, where, page, desc);
      Monotone(ranges, desc) && CutAt(ranges, RangesOf(id, props, where), page, desc)
  {
    var base := RangesOf(id, props, where);
    var all := AddedAll([], base, page, desc);
    if |where| == 0 {
      var c := Clause(Eq, id, NoOp, Undefined);
      assert [] + Encode(id) == Encode(id);
      ClauseAdded(c, [], Encode(id), Encode(id), Encode(id), [], [], page, desc);
    } else {
      var n := |where| - 1;
      EntryRows(id, props, where, n);
      NoRanges();
      BehindAdded(where[props[n]], Keyed(id, Choices(Leads(props, where, n))), [], [], page, desc);
    }
    assert AddsUp([], base, page, desc, all);
    LaidIsMonotone(all, desc);
    forall key ensures InSome(Reversed(all), key) <==> InSome(all, key) {
      ReversedHas(all, key);
    }
  }

  // ---- an entry is in the answer exactly when it meets the clauses ----

  lemma {:induction false} WantedHas(keys: seq<Bytes>, ranges: seq<Range>, desc: bool, p: int, key: Bytes)
    requires 0 <= p <= |keys|
    ensures key in Wanted(keys, ranges, desc, p) <==> InSome(ranges, key) && exists q :: p <= q < |keys| && At(keys, desc, q) == key
    decreases |keys| - p
  {
    if p < |keys| {
      WantedHas(keys, ranges, desc, p + 1, key);
      assert At(keys, desc, p) == key ==> exists q :: p <= q < |keys| && At(keys, desc, q) == key;
    }
  }

  lemma LeadingShape(props: seq<string>, where: map<string, Clause>)
    requires Leading(props, where, 0)
    ensures |where| <= |props| && forall i :: 0 <= i < |where| ==> props[i] in where
  {
  }

  /** From the clauses of a query to the entries it wants. */
  lemma QueryWants(keys: seq<Bytes>, id: Value, props: seq<string>, where: map<string, Clause>, page: Bytes, desc: bool, vals: seq<Value>)
    requires Plain(id) && Distinct(props) && Leading(props, where, 0) && WellFormed(where)
    requires |vals| == |props| && AllPlain(vals) && EntryKey(id, vals) in keys
    ensures EntryKey(id, vals) in Wanted(keys, PlannedRanges(id, props, where, page, desc), desc, 0)
      <==> Meets(props, where, vals) && OnPage(page, desc, EntryKey(id, vals))
  {
    hide PlannedRanges;
    hide RangesOf;
    hide EntryKey;
    hide Meets;
    hide Wanted;
    hide Leading;
    hide WellFormed;
    hide InSome;
    hide OnPage;
    var key := EntryKey(id, vals);
    LeadingShape(props, where);
    PlanFits(id, props, where, page, desc);
    RangesMeet(id, props, where, vals);
    WantedHas(keys, PlannedRanges(id, props, where, page, desc), desc, 0, key);
    var i :| 0 <= i < |keys| && keys[i] == key;
    assert At(keys, desc, if desc then |keys| - 1 - i else i) == key;
  }

  // ---- the next page goes on where the last one stopped ----

  /** No key begins another. */
  predicate PrefixFreeKeys(keys: seq<Bytes>) {
    forall i, j :: 0 <= i < |keys| && 0 <= j < |keys| && i != j ==> !(keys[i] <= keys[j])
  }

  /** The page that begins behind a key holds the keys behind it in scan direction. */
  lemma PageIsBehind(keys: seq<Bytes>, desc: bool, f: int, q: int)
    requires Ascending(keys) && PrefixFreeKeys(keys) && 0 <= f < |keys| && 0 <= q < |keys|
    requires PageKey(desc, At(keys, desc, f)) != []
    ensures OnPage(PageKey(desc, At(keys, desc, f)), desc, At(keys, desc, q)) <==> q > f
  {
    var last, key := At(keys, desc, f), At(keys, desc, q);
    LexFlip(key, last);
    LexZero(last, last);
    if !desc {
      IncrementAbove(last, key);
      assert q != f ==> !(last <= key);
      assert q == f ==> last <= key;
    }
  }

  lemma OnPageLater(keys: seq<Bytes>, desc: bool, page: Bytes, p: int, q: int)
    requires Ascending(keys) && 0 <= p <= q < |keys| && OnPage(page, desc, At(keys, desc, p))
    ensures OnPage(page, desc, At(keys, desc, q))
  {
    if p < q && page != [] {
      Bounded(if desc then At(keys, desc, q) else At(keys, desc, p), if desc then At(keys, desc, p) else At(keys, desc, q), page);
    }
  }

  lemma {:induction false} SameWanted(keys: seq<Bytes>, a: seq<Range>, b: seq<Range>, desc: bool, p: int)
    requires 0 <= p <= |keys| && forall q :: p <= q < |keys| ==> (InSome(a, At(keys, desc, q)) <==> InSome(b, At(keys, desc, q)))
    ensures Wanted(keys, a, desc, p) == Wanted(keys, b, desc, p)
    decreases |keys| - p
  {
    if p < |keys| {
      SameWanted(keys, a, b, desc, p + 1);
    }
  }

  /** The next page's answer is what this one's leaves behind its last key. */
  lemma NextPageAnswers(keys: seq<Bytes>, base: seq<Range>, page: Bytes, ranges: seq<Range>, next: seq<Range>, desc: bool,
                        missing: set<Bytes>, f: int)
    requires Ascending(keys) && PrefixFreeKeys(keys) && 0 <= f < |keys|
    requires CutAt(ranges, base, page, desc) && InSome(ranges, At(keys, desc, f))
    requires PageKey(desc, At(keys, desc, f)) != [] && CutAt(next, base, PageKey(desc, At(keys, desc, f)), desc)
    ensures Answer(keys, next, desc, missing, 0) == Answer(keys, ranges, desc, missing, f + 1)
  {
    hide InSome;
    hide Lex;
    hide OnPage;
    hide PageKey;
    hide Ascending;
    hide PrefixFreeKeys;
    hide At;
    hide Wanted;
    forall q | 0 <= q < |keys| ensures InSome(next, At(keys, desc, q)) <==> q > f && InSome(ranges, At(keys, desc, q)) {
      PageIsBehind(keys, desc, f, q);
      if q > f {
        OnPageLater(keys, desc, page, f, q);
      }
    }
    GapSkipped(keys, next, desc, 0, f + 1);
    SameWanted(keys, next, ranges, desc, f + 1);
  }

  /** What a cursor that has come to its end returned is the page of its ranges. */
  lemma CursorReadsPage(query: IsamQuery, base: seq<Range>, page: Bytes, next: seq<Range>)
    requires query.Valid() && query.Counted() && query.LimitEnforced() && query.limit > 0
    requires PrefixFreeKeys(query.keys) && query.endKey != []
    requires CutAt(query.ranges, base, page, query.desc) && CutAt(next, base, query.endKey, query.desc)
    ensures Answer(query.keys, query.ranges, query.desc, query.missing, 0)
      == query.returned + Answer(query.keys, next, query.desc, query.missing, 0)
  {
    var last := query.returned[query.count - 1];
    assert query.LastIs(last);
    var p :| 0 <= p < query.front <= |query.keys| && At(query.keys, query.desc, p) == last && InSome(query.ranges, last)
      && Answer(query.keys, query.ranges, query.desc, query.missing, p + 1) == Answer(query.keys, query.ranges, query.desc, query.missing, query.front);
    NextPageAnswers(query.keys, base, page, query.ranges, next, query.desc, query.missing, p);
  }

  // ---- page after page ----

  /** A store: an index whose entries are read, and the keys whose objects are gone. */
  datatype Store = Store(keys: seq<Bytes>, missing: set<Bytes>)

  datatype Request = Request(id: Value, props: seq<string>, where: map<string, Clause>, desc: bool)

  ghost predicate Sound(store: Store, r: Request) {
    && Ascending(store.keys) && PrefixFreeKeys(store.keys) && (forall k :: k in store.keys ==> Increment(k) != [])
    && Plain(r.id) && Leading(r.props, r.where, 0) && WellFormed(r.where)
  }

  ghost function PageAnswer(store: Store, r: Request, page: Bytes): seq<Bytes>
    requires Leading(r.props, r.where, 0)
  {
    Answer(store.keys, PlannedRanges(r.id, r.props, r.where, page, r.desc), r.desc, store.missing, 0)
  }

  /** The keys of one page after another, each begun where the one before says. */
  ghost function Pages(store: Store, r: Request, limit: nat, page: Bytes, n: nat): seq<Bytes>
    requires limit > 0 && Leading(r.props, r.where, 0)
    decreases n
  {
    if n == 0 then []
    else
      var a := PageAnswer(store, r, page);
      if |a| < limit then a else a[..limit] + Pages(store, r, limit, PageKey(r.desc, a[limit - 1]), n - 1)
  }

  lemma SomeAnswer(keys: seq<Bytes>, ranges: seq<Range>, desc: bool, missing: set<Bytes>, p: int)
    requires 0 <= p <= |keys| && Answer(keys, ranges, desc, missing, p) != []
    ensures p < |keys|
  {
  }

  /** The place of a key of the answer; what is behind it is the rest of the answer. */
  lemma {:induction false} AnswerPlace(keys: seq<Bytes>, ranges: seq<Range>, desc: bool, missing: set<Bytes>, p: int, i: nat)
    returns (f: int, before: seq<Bytes>)
    requires 0 <= p <= |keys| && i < |Answer(keys, ranges, desc, missing, p)|
    ensures p <= f < |keys| && InSome(ranges, At(keys, desc, f)) && |before| == i
    ensures Answer(keys, ranges, desc, missing, p) == before + ([At(keys, desc, f)] + Answer(keys, ranges, desc, missing, f + 1))
    decreases |keys| - p
  {
    SomeAnswer(keys, ranges, desc, missing, p);
    hide Answer;
    hide At;
    var key := At(keys, desc, p);
    if !InSome(ranges, key) {
      NotInAnswer(keys, ranges, desc, missing, p);
      f, before := AnswerPlace(keys, ranges, desc, missing, p + 1, i);
    } else {
      hide InSome;
      AnswerSteps(keys, ranges, desc, missing, p, p + 1);
      var rest := Answer(keys, ranges, desc, missing, p + 1);
      if key in missing {
        assert [] + rest == rest;
        f, before := AnswerPlace(keys, ranges, desc, missing, p + 1, i);
      } else if i == 0 {
        f, before := p, [];
        assert [] + ([key] + rest) == [key] + rest;
      } else {
        var more;
        f, more := AnswerPlace(keys, ranges, desc, missing, p + 1, i - 1);
        before := [key] + more;
        Assoc(key, more, [At(keys, desc, f)] + Answer(keys, ranges, desc, missing, f + 1));
      }
    }
  }

  lemma NotInAnswer(keys: seq<Bytes>, ranges: seq<Range>, desc: bool, missing: set<Bytes>, p: int)
    requires 0 <= p < |keys| && !InSome(ranges, At(keys, desc, p))
    ensures Answer(keys, ranges, desc, missing, p) == Answer(keys, ranges, desc, missing, p + 1)
  {
    GapSkipped(keys, ranges, desc, p, p + 1);
  }

  lemma Assoc(key: Bytes, more: seq<Bytes>, rest: seq<Bytes>)
    ensures [key] + (more + rest) == ([key] + more) + rest
  {
  }

  /** With any limit the pages together are the whole answer, none twice and none left out. */
  lemma {:induction false} PagesConcat(store: Store, r: Request, limit: nat, page: Bytes, n: nat)
    requires limit > 0 && Sound(store, r) && n > |PageAnswer(store, r, page)|
    ensures Pages(store, r, limit, page, n) == PageAnswer(store, r, page)
    decreases n
  {
    hide Answer;
    hide PlannedRanges;
    hide WellFormed;
    hide PrefixFreeKeys;
    hide Ascending;
    hide CutAt;
    hide InSome;
    var a := PageAnswer(store, r, page);
    if |a| >= limit {
      var ranges := PlannedRanges(r.id, r.props, r.where, page, r.desc);
      var f, before := AnswerPlace(store.keys, ranges, r.desc, store.missing, 0, limit - 1);
      var last := At(store.keys, r.desc, f);
      assert a[limit - 1] == last && a[limit..] == Answer(store.keys, ranges, r.desc, store.missing, f + 1);
      assert last in store.keys;
      LastNotEmpty(store.keys, r.desc, last);
      var next := PageKey(r.desc, last);
      PlanFits(r.id, r.props, r.where, page, r.desc);
      PlanFits(r.id, r.props, r.where, next, r.desc);
      NextPageAnswers(store.keys, RangesOf(r.id, r.props, r.where), page, ranges,
                      PlannedRanges(r.id, r.props, r.where, next, r.desc), r.desc, store.missing, f);
      assert PageAnswer(store, r, next) == a[limit..];
      PagesConcat(store, r, limit, next, n - 1);
    }
  }

  lemma LastNotEmpty(keys: seq<Bytes>, desc: bool, last: Bytes)
    requires last in keys && Increment(last) != []
    ensures PageKey(desc, last) != []
  {
  }

  // ---- entries are such keys ----

  /** No entry of an index begins another entry, of this index or another, and every entry has an increment. */
  lemma EntriesPrefixFree(a: Value, x: seq<Value>, b: Value, y: seq<Value>)
    requires Plain(a) && Plain(b) && AllPlain(x) && AllPlain(y) && (a == b ==> |x| == |y|)
    requires EntryKey(a, x) <= EntryKey(b, y)
    ensures a == b && x == y
    ensures Increment(EntryKey(a, x)) != []
  {
    EncodingNotMax(a);
    NoIncrement(EntryKey(a, x));
    assert EntryKey(a, x)[0] == Encode(a)[0];
    var s, t := [a] + x, [b] + y;
    assert s[1..] == x && t[1..] == y;
    assert Suffix(s) == EntryKey(a, x) && Suffix(t) == EntryKey(b, y);
    ShorterBegins(s, t);
    assert s[0] == t[0];
    ShorterSame(s, t);
  }

  /** Of two keys one of which begins the other, the one of fewer values begins the other as values. */
  lemma ShorterBegins(s: seq<Value>, t: seq<Value>)
    requires AllPlain(s) && AllPlain(t) && Suffix(s) <= Suffix(t)
    ensures if |s| <= |t| then s <= t else t == s[..|t|]
  {
    hide Suffix;
    var least := if |s| <= |t| then s else s[..|t|];
    SuffixBegins(s, least);
    SuffixBegins(t, least);
    var begun, whole := Suffix(least), Suffix(s);
    assert begun <= whole <= Suffix(t);
  }

  lemma ShorterSame(s: seq<Value>, t: seq<Value>)
    requires |s| == |t| && s <= t
    ensures s == t
  {
  }

  lemma KeyIsEntry(index: IndexUpdate.Index, keys: seq<Bytes>, k: Bytes) returns (vals: seq<Value>)
    requires index.Valid() && Elems(keys) == index.entries && k in keys
    ensures |vals| == |index.props| && AllPlain(vals) && EntryKey(index.id, vals) == k
  {
    assert k in Elems(keys);
    var i :| i in index.docs && (index.includeDeleted || !index.docs[i].deleted)
      && k in IndexUpdate.KeysOf(index.id, index.props, index.docs[i]);
    var all := IndexUpdate.KeyHoldsId(index.id, index.props, index.idIndex, index.docs[i], k);
    vals := all[1..];
  }

  /** The keys of an index are fit to be paged through. */
  lemma IndexFit(index: IndexUpdate.Index, keys: seq<Bytes>)
    requires index.Valid() && Ascending(keys) && Elems(keys) == index.entries
    ensures PrefixFreeKeys(keys) && forall k :: k in keys ==> Increment(k) != []
  {
    forall k | k in keys ensures Increment(k) != [] {
      var x := KeyIsEntry(index, keys, k);
      EntriesPrefixFree(index.id, x, index.id, x);
    }
    forall i, j | 0 <= i < |keys| && 0 <= j < |keys| && i != j ensures !(keys[i] <= keys[j]) {
      var x := KeyIsEntry(index, keys, keys[i]);
      var y := KeyIsEntry(index, keys, keys[j]);
      LexZero(keys[i], keys[j]);
      if keys[i] <= keys[j] {
        EntriesPrefixFree(index.id, x, index.id, y);
      }
    }
  }
}
