/** Which names get tokens, and which texts are written with them. */
module TokenUse {
  import opened Bytes
  import opened Values
  import opened Events
  import opened Tokens

  // ---- the table ----

  /** The table when the names of some events have asked for tokens, one after another. */
  function GrownBy(table: seq<Bytes>, es: seq<Event>): seq<Bytes> {
    if |es| == 0 then table
    else
      var n := |es| - 1;
      var before := GrownBy(table, es[..n]);
      if es[n].PropName? then Grown(before, CStr(es[n].name)) else before
  }

  /** The copy of the table a writer looks names up in, if it had the whole table to begin with. */
  function CopyAfter(table: seq<Bytes>, es: seq<Event>): seq<Bytes> {
    if |es| == 0 then table
    else
      var n := |es| - 1;
      var copy, before := CopyAfter(table, es[..n]), GrownBy(table, es[..n]);
      if !es[n].PropName? || CStr(es[n].name) in copy then copy
      else if Known(before, CStr(es[n].name)) then []
      else before + [CStr(es[n].name)]
  }

  /** The first place of a name. */
  function Place(table: seq<Bytes>, s: Bytes): (i: nat)
    requires s in table
    ensures i < |table| && table[i] == s && s !in table[..i]
  {
    if table[0] == s then 0
    else
      var i := 1 + Place(table[1..], s);
      assert table[..i] == [table[0]] + table[1..][..i - 1];
      i
  }

  predicate Fits(table: seq<Bytes>) { |table| <= TOKEN_LIMIT - TOKEN_START }

  /** The token of a name in a table, or none. */
  function TokenIn(table: seq<Bytes>, s: Bytes): Byte
    requires Fits(table)
  {
    if s in table then TOKEN_START + Place(table, s) else NO_TOKEN
  }

  lemma {:induction false} GrownFits(table: seq<Bytes>, es: seq<Event>)
    requires Fits(table)
    ensures Fits(GrownBy(table, es)) && Fits(CopyAfter(table, es)) && table <= GrownBy(table, es)
    decreases |es|
  {
    if |es| > 0 {
      GrownFits(table, es[..|es| - 1]);
    }
  }

  /** The token the last event is written with: a name that of the table it joined, a string that of the copy. */
  function LastToken(table: seq<Bytes>, es: seq<Event>): Byte
    requires Fits(table) && |es| > 0
  {
    var n := |es| - 1;
    GrownFits(table, es);
    GrownFits(table, es[..n]);
    if es[n].PropName? then TokenIn(GrownBy(table, es), CStr(es[n].name))
    else if es[n].StringValue? then TokenIn(CopyAfter(table, es[..n]), CStr(es[n].s))
    else NO_TOKEN
  }

  /** The tokens some events are written with, from a table on. */
  function TokensOf(table: seq<Bytes>, es: seq<Event>): (tokens: seq<Byte>)
    requires Fits(table)
    ensures |tokens| == |es|
  {
    if |es| == 0 then [] else TokensOf(table, es[..|es| - 1]) + [LastToken(table, es)]
  }

  lemma GrownMore(table: seq<Bytes>, es: seq<Event>, e: Event)
    ensures GrownBy(table, es + [e]) == if e.PropName? then Grown(GrownBy(table, es), CStr(e.name)) else GrownBy(table, es)
  {
    assert (es + [e])[..|es|] == es;
  }

  lemma TokensMore(table: seq<Bytes>, es: seq<Event>, e: Event)
    requires Fits(table)
    ensures TokensOf(table, es + [e]) == TokensOf(table, es) + [LastToken(table, es + [e])]
  {
    assert (es + [e])[..|es|] == es;
  }

  // ---- what comes of it ----

  lemma {:induction false} GrownThen(table: seq<Bytes>, a: seq<Event>, b: seq<Event>)
    ensures GrownBy(table, a + b) == GrownBy(GrownBy(table, a), b)
    decreases |b|
  {
    if |b| == 0 {
      assert a + b == a;
    } else {
      var n := |b| - 1;
      GrownThen(table, a, b[..n]);
      GrownMore(table, a + b[..n], b[n]);
      assert a + b == (a + b[..n]) + [b[n]];
    }
  }

  lemma {:induction false} GrownOn(table: seq<Bytes>, es: seq<Event>)
    ensures table <= GrownBy(table, es)
    decreases |es|
  {
    if |es| > 0 {
      GrownOn(table, es[..|es| - 1]);
    }
  }

  /** A table that is full, or has a name, stays so. */
  lemma KnownOn(table: seq<Bytes>, es: seq<Event>, s: Bytes)
    requires Fits(table) && Known(table, s)
    ensures s in GrownBy(table, es) <==> s in table
    ensures Known(GrownBy(table, es), s)
  {
    GrownFits(table, es);
    if s !in table {
      assert GrownBy(table, es) == table;
    }
  }

  lemma Split(es: seq<Event>, i: nat)
    requires i <= |es|
    ensures es == es[..i] + es[i..]
  {
  }

  /** Every name is in the table afterwards, unless that is full. */
  lemma {:induction false} NamesJoin(table: seq<Bytes>, es: seq<Event>)
    requires Fits(table)
    ensures forall i :: 0 <= i < |es| && es[i].PropName? ==> Known(GrownBy(table, es), CStr(es[i].name))
    decreases |es|
  {
    if |es| > 0 {
      var n := |es| - 1;
      NamesJoin(table, es[..n]);
      GrownFits(table, es[..n]);
      GrownFits(table, es);
      KnownLater(GrownBy(table, es[..n]), GrownBy(table, es));
      forall i | 0 <= i < |es| && es[i].PropName? ensures Known(GrownBy(table, es), CStr(es[i].name)) {
        assert i < n ==> es[..n][i] == es[i];
      }
    }
  }

  /** What has joined the table is the name of some event, and each only once. */
  lemma {:induction false} OnlyNamesJoin(table: seq<Bytes>, es: seq<Event>, k: nat) returns (i: nat)
    requires |table| <= k < |GrownBy(table, es)|
    ensures i < |es| && es[i].PropName? && CStr(es[i].name) == GrownBy(table, es)[k]
    ensures GrownBy(table, es)[k] !in GrownBy(table, es)[..k]
    decreases |es|
  {
    var n := |es| - 1;
    var before, after := GrownBy(table, es[..n]), GrownBy(table, es);
    if k < |before| {
      i := OnlyNamesJoin(table, es[..n], k);
      assert after[..k] == before[..k];
    } else {
      i := n;
      assert after[..k] == before;
    }
  }

  /** A name has found the table full. */
  predicate Refused(table: seq<Bytes>, es: seq<Event>) {
    exists i :: 0 <= i < |es| && es[i].PropName? && CStr(es[i].name) !in GrownBy(table, es)
  }

  /** The copy is the whole table until a name finds that full, and is empty from then on. */
  lemma {:induction false} CopyWhole(table: seq<Bytes>, es: seq<Event>)
    requires Fits(table)
    ensures CopyAfter(table, es) == if Refused(table, es) then [] else GrownBy(table, es)
    decreases |es|
  {
    if |es| > 0 {
      var n := |es| - 1;
      CopyWhole(table, es[..n]);
      NamesJoin(table, es[..n]);
      RefusedMore(table, es);
      GrownFits(table, es[..n]);
    }
  }

  lemma RefusedMore(table: seq<Bytes>, es: seq<Event>)
    requires Fits(table) && |es| > 0
    ensures var n := |es| - 1;
      Refused(table, es) <==> Refused(table, es[..n]) || (es[n].PropName? && CStr(es[n].name) !in GrownBy(table, es))
  {
    var n := |es| - 1;
    var before, after := GrownBy(table, es[..n]), GrownBy(table, es);
    NamesJoin(table, es[..n]);
    forall i | 0 <= i < n && es[i].PropName? ensures CStr(es[i].name) in after <==> CStr(es[i].name) in before {
      assert es[..n][i] == es[i];
      assert Known(before, CStr(es[i].name));
      GrownFits(table, es[..n]);
    }
    if Refused(table, es[..n]) {
      var i :| 0 <= i < n && es[..n][i].PropName? && CStr(es[..n][i].name) !in before;
      assert es[i].PropName? && CStr(es[i].name) !in after;
    }
    if i :| 0 <= i < n && es[i].PropName? && CStr(es[i].name) !in after {
      assert es[..n][i].PropName? && CStr(es[..n][i].name) !in before;
    }
  }

  lemma {:induction false} TokensAt(table: seq<Bytes>, es: seq<Event>, i: nat)
    requires Fits(table) && i < |es|
    ensures TokensOf(table, es)[i] == LastToken(table, es[..i + 1])
    decreases |es|
  {
    var n := |es| - 1;
    if i < n {
      TokensAt(table, es[..n], i);
      assert es[..n][..i + 1] == es[..i + 1];
    } else {
      assert es[..i + 1] == es;
    }
  }

  /** A name is written with a token exactly if it is in the table afterwards, where it is unless the table is full. */
  lemma NamesTakeTokens(table: seq<Bytes>, es: seq<Event>, i: nat)
    requires Fits(table) && i < |es| && es[i].PropName?
    ensures var s, after := CStr(es[i].name), GrownBy(table, es);
      (TokensOf(table, es)[i] != NO_TOKEN <==> s in after) && (s in after || |after| == 223)
    ensures TokensOf(table, es)[i] != NO_TOKEN ==> Names(GrownBy(table, es), TokensOf(table, es)[i], CStr(es[i].name))
  {
    TokensAt(table, es, i);
    var some := es[..i + 1];
    assert some[i] == es[i];
    NamesJoin(table, some);
    GrownFits(table, some);
    KnownOn(GrownBy(table, some), es[i + 1..], CStr(es[i].name));
    Split(es, i + 1);
    GrownThen(table, some, es[i + 1..]);
    GrownOn(GrownBy(table, some), es[i + 1..]);
  }

  /** A string is written with a token exactly if it is in the table by then and no name has found that full. */
  lemma StringsTakeTokens(table: seq<Bytes>, es: seq<Event>, i: nat)
    requires Fits(table) && i < |es| && es[i].StringValue?
    ensures TokensOf(table, es)[i] != NO_TOKEN <==> CStr(es[i].s) in GrownBy(table, es[..i]) && !Refused(table, es[..i])
    ensures TokensOf(table, es)[i] != NO_TOKEN ==> Names(GrownBy(table, es), TokensOf(table, es)[i], CStr(es[i].s))
  {
    TokensAt(table, es, i);
    assert es[..i + 1][..i] == es[..i] && es[..i + 1][i] == es[i];
    CopyWhole(table, es[..i]);
    GrownFits(table, es[..i]);
    Split(es, i);
    GrownThen(table, es[..i], es[i..]);
    GrownOn(GrownBy(table, es[..i]), es[i..]);
  }

  // ---- one event more ----

  predicate NoneTwice(table: seq<Bytes>) {
    forall i, j :: 0 <= i < j < |table| ==> table[i] != table[j]
  }

  lemma PlaceIs(table: seq<Bytes>, i: nat, s: Bytes)
    requires NoneTwice(table) && i < |table| && table[i] == s
    ensures Place(table, s) == i
  {
  }

  /** A token that names a text in a table is that of every table the text is in and that goes on from it or to it. */
  lemma TokenIs(some: seq<Bytes>, table: seq<Bytes>, token: Byte, s: Bytes)
    requires NoneTwice(table) && Fits(table) && some <= table && s in some && Names(table, token, s)
    ensures TokenIn(some, s) == token
  {
    var i := Place(some, s);
    assert table[i] == s;
    PlaceIs(table, i, s);
    PlaceIs(table, token - TOKEN_START, s);
  }

  /** The tokens, the table and the copy are those of the events so far. */
  ghost predicate Exact(base: seq<Bytes>, es: seq<Event>, tokens: seq<Byte>, table: seq<Bytes>, copy: seq<Bytes>) {
    Fits(base) && tokens == TokensOf(base, es) && table == GrownBy(base, es) && copy == CopyAfter(base, es)
  }

  lemma NothingTaken(base: seq<Bytes>)
    requires Fits(base)
    ensures Exact(base, [], [], base, base)
  {
  }

  lemma PlainTaken(base: seq<Bytes>, es: seq<Event>, tokens: seq<Byte>, table: seq<Bytes>, copy: seq<Bytes>, e: Event)
    requires Exact(base, es, tokens, table, copy) && !HasText(e)
    ensures Exact(base, es + [e], tokens + [NO_TOKEN], table, copy)
  {
    assert (es + [e])[..|es|] == es;
  }

  lemma NameTaken(base: seq<Bytes>, es: seq<Event>, tokens: seq<Byte>, table: seq<Bytes>, copy: seq<Bytes>, e: Event,
                  token: Byte, table': seq<Bytes>, copy': seq<Bytes>)
    requires Exact(base, es, tokens, table, copy) && e.PropName? && copy <= table
    requires table' == Grown(table, CStr(e.name)) && NoneTwice(table') && Fits(table')
    requires copy' == if CStr(e.name) in copy then copy else if Known(table, CStr(e.name)) then [] else table'
    requires (token != NO_TOKEN <==> CStr(e.name) in table') && (token != NO_TOKEN ==> Names(table', token, CStr(e.name)))
    ensures Exact(base, es + [e], tokens + [token], table', copy')
  {
    assert (es + [e])[..|es|] == es;
    GrownMore(base, es, e);
    if token != NO_TOKEN {
      TokenIs(table', table', token, CStr(e.name));
    }
  }

  lemma StringTaken(base: seq<Bytes>, es: seq<Event>, tokens: seq<Byte>, table: seq<Bytes>, copy: seq<Bytes>, e: Event, token: Byte)
    requires Exact(base, es, tokens, table, copy) && e.StringValue? && copy <= table && NoneTwice(table) && Fits(table)
    requires (token != NO_TOKEN <==> CStr(e.s) in copy) && (token != NO_TOKEN ==> Names(table, token, CStr(e.s)))
    ensures Exact(base, es + [e], tokens + [token], table, copy)
  {
    assert (es + [e])[..|es|] == es;
    if token != NO_TOKEN {
      TokenIs(copy, table, token, CStr(e.s));
    }
  }
}
