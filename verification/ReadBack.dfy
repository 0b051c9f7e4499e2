/** What is written is read back, and what is cut short is noticed. */
module ReadBack {
  import opened Bytes
  import opened Values
  import opened Events
  import opened Reader

  // ---- pieces ----

  lemma {:induction false} StringLengthIs(s: Bytes, rest: Bytes)
    requires NulFree(s)
    ensures StringLength(s + [0] + rest) == |s|
    decreases |s|
  {
    if |s| > 0 {
      StringLengthIs(s[1..], rest);
      assert (s + [0] + rest)[1..] == s[1..] + [0] + rest;
    }
  }

  lemma StringReads(s: Bytes, rest: Bytes, all: Bytes)
    requires NulFree(s) && all == s + [0] + rest
    ensures StringPiece(all) == Piece(s, |s| + 1)
  {
    StringLengthIs(s, rest);
    assert all[..|s|] == s;
  }

  lemma {:induction false} StringCut(s: Bytes)
    requires NulFree(s)
    ensures StringPiece(s).Short?
    decreases |s|
  {
    if |s| > 0 {
      StringCut(s[1..]);
    }
  }

  lemma NumberReads(n: nat, w: nat, rest: Bytes)
    requires n < Pow256(w)
    ensures Number(BigEndian(n, w) + rest, w) == Piece(n, w)
  {
    BigEndianReads(n, w);
    assert (BigEndian(n, w) + rest)[..w] == BigEndian(n, w);
  }

  lemma SignedReads(i: Int64, rest: Bytes)
    ensures SignedNumber(BigEndian(Unsigned64(i), 8) + rest) == Piece(i, 8)
  {
    PowersOf256();
    NumberReads(Unsigned64(i), 8, rest);
  }

  lemma IntReads(i: Int64, rest: Bytes)
    ensures var w := IntBytes(i); NEGATIVE_INT <= w[0] <= INT64 && ReadInt(w[0], w[1..] + rest) == Piece(i, |w| - 1)
  {
    PowersOf256();
    if i < 0 || i > 0xFFFF_FFFF {
      SignedReads(i, rest);
      assert IntBytes(i)[1..] == BigEndian(Unsigned64(i), 8);
    } else if i > 0xFFFF {
      NumberReads(i, 4, rest);
      assert IntBytes(i)[1..] == BigEndian(i, 4);
    } else if i > 0xFF {
      NumberReads(i, 2, rest);
      assert IntBytes(i)[1..] == BigEndian(i, 2);
    } else if i > 0 {
      NumberReads(i, 1, rest);
      assert IntBytes(i)[1..] == BigEndian(i, 1);
    }
  }

  // ---- words ----

  /** Text without a NUL, and a token only where a table names that text. */
  predicate Readable(e: Event, token: Byte, names: Naming) {
    && (HasText(e) ==> NulFree(Events.Text(e)))
    && (token != NO_TOKEN ==> HasText(e) && names.Named? && Names(names.table, token, Events.Text(e)))
  }

  /** The events a visitor sees: a reader told to skip one does not report the beginning of the first object. */
  function Shown(e: Event, skip: bool): seq<Event> { if skip && e.BeginObject? then [] else [e] }

  lemma ScalarReads(e: Event, token: Byte, below: seq<State>, skip: bool, names: Naming, rest: Bytes)
    requires StartsValue(e) && !HasText(e) && Readable(e, token, names)
    ensures var w := Word(e, token);
      ReadValue(w[0], w[1..] + rest, below, skip, names) == Step(Shown(e, skip), |w|, below + Pushed(e), skip && !e.BeginObject?)
  {
    match e
    case IntValue(i) => IntReads(i, rest); assert below + [] == below;
    case DecimalValue(r) =>
      SignedReads(r, rest);
      assert DecimalBytes(r)[1..] == BigEndian(Unsigned64(r), 8) && below + [] == below;
    case BoolValue(_) => assert below + [] == below;
    case NullValue => assert below + [] == below;
    case BeginObject =>
    case BeginArray =>
  }

  lemma TextReads(e: Event, token: Byte, names: Naming, rest: Bytes)
    requires HasText(e) && Readable(e, token, names)
    ensures var w := Word(e, token); ReadText(w[0], w[1..] + rest, names) == Text(Events.Text(e), |w| - 1)
    ensures var m := Word(e, token)[0]; m == STRING_VALUE || m >= TOKEN_START
  {
    if token == NO_TOKEN {
      var w := Word(e, token);
      var s := Events.Text(e);
      assert w[1..] + rest == s + [0] + rest;
      StringReads(s, rest, w[1..] + rest);
    }
  }

  /** Where the states allow an event, its word reads as that event, whatever follows. */
  lemma WordReads(e: Event, token: Byte, stack: seq<State>, skip: bool, names: Naming, rest: Bytes)
    requires Accepts(stack, e) && Readable(e, token, names)
    ensures var w := Word(e, token);
      ReadWord(w + rest, stack, skip, names) == Step(Shown(e, skip), |w|, After(stack, e), skip && !e.BeginObject?)
  {
    var w := Word(e, token);
    assert (w + rest)[0] == w[0] && (w + rest)[1..] == w[1..] + rest;
    if HasText(e) {
      TextReads(e, token, names, rest);
      assert stack[..|stack| - 1] + [] == stack[..|stack| - 1] && stack + [] == stack;
    } else if StartsValue(e) {
      ScalarReads(e, token, if stack[|stack| - 1].InValue? then stack[..|stack| - 1] else stack, skip, names, rest);
      WordNotEnd(e, token);
    }
  }

  lemma WordNotEnd(e: Event, token: Byte)
    requires StartsValue(e) || e.PropName?
    ensures Word(e, token)[0] != OBJECT_END
  {
  }

  // ---- runs of words ----

  predicate AllReadable(es: seq<Event>, tokens: seq<Byte>, names: Naming) {
    |es| == |tokens| && (|es| > 0 ==> Readable(es[0], tokens[0], names) && AllReadable(es[1..], tokens[1..], names))
  }

  function AllShown(es: seq<Event>, skip: bool): seq<Event> {
    if |es| == 0 then [] else Shown(es[0], skip) + AllShown(es[1..], skip && !es[0].BeginObject?)
  }

  lemma ShownPlainly(es: seq<Event>)
    ensures AllShown(es, false) == es
  {
  }

  /** The first word of a run is read and the run goes on behind it. */
  lemma FirstWordReads(es: seq<Event>, tokens: seq<Byte>, stack: seq<State>, skip: bool, names: Naming, rest: Bytes)
    requires |es| > 0 && AcceptsAll(stack, es) && AllReadable(es, tokens, names)
    ensures var s := Spell(es, tokens) + rest;
      var step := ReadWord(s, stack, skip, names);
      && step == Step(Shown(es[0], skip), |Word(es[0], tokens[0])|, After(stack, es[0]), skip && !es[0].BeginObject?)
      && s[step.used..] == Spell(es[1..], tokens[1..]) + rest
  {
    hide ReadWord;
    hide Word;
    hide Accepts;
    hide After;
    hide Readable;
    var w := Word(es[0], tokens[0]);
    SpellFirst(es, tokens);
    var tail := Spell(es[1..], tokens[1..]) + rest;
    assert Spell(es, tokens) + rest == w + tail;
    WordReads(es[0], tokens[0], stack, skip, names, tail);
    assert (w + tail)[|w|..] == tail;
  }

  /** A run that leaves no state reads as one object, and what follows is left alone. */
  lemma {:induction false} ObjectReads(es: seq<Event>, tokens: seq<Byte>, stack: seq<State>, skip: bool, names: Naming, rest: Bytes)
    requires |es| > 0 && AcceptsAll(stack, es) && AllReadable(es, tokens, names) && AfterAll(stack, es) == []
    ensures ReadObject(Spell(es, tokens) + rest, stack, skip, names) == Outcome(Fine, AllShown(es, skip), rest)
    decreases |es|
  {
    hide ReadWord;
    hide Word;
    hide Readable;
    FirstWordReads(es, tokens, stack, skip, names, rest);
    if |es| == 1 {
      assert Spell(es[1..], tokens[1..]) + rest == rest;
      assert AllShown(es, skip) == Shown(es[0], skip);
    } else {
      assert After(stack, es[0]) != [];
      ObjectReads(es[1..], tokens[1..], After(stack, es[0]), skip && !es[0].BeginObject?, names, rest);
    }
  }

  lemma {:induction false} AllReads(es: seq<Event>, tokens: seq<Byte>, stack: seq<State>, skip: bool, names: Naming)
    requires AcceptsAll(stack, es) && AllReadable(es, tokens, names)
    ensures ReadAll(Spell(es, tokens), stack, skip, names) == Outcome(Fine, AllShown(es, skip), [])
    decreases |es|
  {
    hide ReadMarked;
    hide Word;
    hide Readable;
    if |es| > 0 {
      assert Spell(es, tokens) + [] == Spell(es, tokens) && Spell(es[1..], tokens[1..]) + [] == Spell(es[1..], tokens[1..]);
      FirstWordReads(es, tokens, stack, skip, names, []);
      AllReads(es[1..], tokens[1..], After(stack, es[0]), skip && !es[0].BeginObject?, names);
    }
  }

  // ---- words cut short ----

  lemma WordCut(e: Event, token: Byte, n: nat, stack: seq<State>, skip: bool, names: Naming)
    requires Accepts(stack, e) && Readable(e, token, names) && n < |Word(e, token)|
    ensures ReadWord(Word(e, token)[..n], stack, skip, names) == Failed(UnexpectedEof)
  {
    var w := Word(e, token);
    if n > 0 {
      var s := w[..n];
      assert s[0] == w[0] && s[1..] == w[1..n];
      WordNotEndCut(e, token, n);
      if HasText(e) {
        assert s[1..] == Events.Text(e)[..n - 1];
        StringCut(s[1..]);
      }
    }
  }

  lemma WordNotEndCut(e: Event, token: Byte, n: nat)
    requires 0 < n < |Word(e, token)|
    ensures e.IntValue? || e.DecimalValue? || (HasText(e) && token == NO_TOKEN)
    ensures e.IntValue? ==> var w := Word(e, token); UINT8 <= w[0] <= INT64 || w[0] == NEGATIVE_INT
  {
  }

  lemma CutInside(es: seq<Event>, tokens: seq<Byte>, n: nat, stack: seq<State>, skip: bool, names: Naming)
    requires |es| > 0 && AcceptsAll(stack, es) && AllReadable(es, tokens, names) && n <= |Spell(es, tokens)|
    requires n < |Word(es[0], tokens[0])|
    ensures ReadWord(Spell(es, tokens)[..n], stack, skip, names) == Failed(UnexpectedEof)
  {
    hide ReadWord;
    hide Word;
    hide Readable;
    SpellFirst(es, tokens);
    assert Spell(es, tokens)[..n] == Word(es[0], tokens[0])[..n];
    WordCut(es[0], tokens[0], n, stack, skip, names);
  }

  lemma CutBehind(es: seq<Event>, tokens: seq<Byte>, n: nat, stack: seq<State>, skip: bool, names: Naming)
    requires |es| > 0 && AcceptsAll(stack, es) && AllReadable(es, tokens, names)
    requires |Word(es[0], tokens[0])| <= n <= |Spell(es, tokens)|
    ensures var w := Word(es[0], tokens[0]);
      var step := ReadWord(Spell(es, tokens)[..n], stack, skip, names);
      && step == Step(Shown(es[0], skip), |w|, After(stack, es[0]), skip && !es[0].BeginObject?)
      && n - |w| <= |Spell(es[1..], tokens[1..])|
      && Spell(es, tokens)[..n][|w|..] == Spell(es[1..], tokens[1..])[..n - |w|]
  {
    hide ReadWord;
    hide Word;
    hide Readable;
    var w := Word(es[0], tokens[0]);
    SpellFirst(es, tokens);
    var tail := Spell(es[1..], tokens[1..])[..n - |w|];
    assert Spell(es, tokens)[..n] == w + tail;
    WordReads(es[0], tokens[0], stack, skip, names, tail);
  }

  /** An object cut short is always noticed by the reading of one object. */
  lemma {:induction false} ObjectCut(es: seq<Event>, tokens: seq<Byte>, n: nat, stack: seq<State>, skip: bool, names: Naming)
    requires |es| > 0 && AcceptsAll(stack, es) && AllReadable(es, tokens, names) && AfterAll(stack, es) == []
    requires n < |Spell(es, tokens)|
    ensures ReadObject(Spell(es, tokens)[..n], stack, skip, names).err == UnexpectedEof
    decreases |es|
  {
    hide ReadWord;
    hide Word;
    hide Readable;
    hide After;
    var w := Word(es[0], tokens[0]);
    if n < |w| {
      CutInside(es, tokens, n, stack, skip, names);
    } else {
      CutBehind(es, tokens, n, stack, skip, names);
      SpellFirst(es, tokens);
      assert n - |w| < |Spell(es[1..], tokens[1..])|;
      assert |es| > 1;
      ObjectCut(es[1..], tokens[1..], n - |w|, After(stack, es[0]), skip && !es[0].BeginObject?, names);
    }
  }

  /** The number of bytes is that of a number of whole words. */
  predicate Boundary(es: seq<Event>, tokens: seq<Byte>, n: nat)
    requires |es| == |tokens|
  {
    n == 0 || (|es| > 0 && |Word(es[0], tokens[0])| <= n && Boundary(es[1..], tokens[1..], n - |Word(es[0], tokens[0])|))
  }

  lemma SomeSpelled(es: seq<Event>, tokens: seq<Byte>)
    requires |es| == |tokens|
    ensures |Spell(es, tokens)| > 0 ==> |es| > 0
  {
  }

  /** Reading to the end notices a cut inside a word and only that. */
  lemma {:induction false} AllCut(es: seq<Event>, tokens: seq<Byte>, n: nat, stack: seq<State>, skip: bool, names: Naming)
    requires AcceptsAll(stack, es) && AllReadable(es, tokens, names) && n <= |Spell(es, tokens)|
    ensures ReadAll(Spell(es, tokens)[..n], stack, skip, names).err == if Boundary(es, tokens, n) then Fine else UnexpectedEof
    decreases |es|
  {
    hide ReadWord;
    hide Word;
    hide Readable;
    hide Spell;
    hide Accepts;
    hide After;
    SomeSpelled(es, tokens);
    if n > 0 {
      var w := Word(es[0], tokens[0]);
      if n < |w| {
        CutInside(es, tokens, n, stack, skip, names);
      } else {
        CutBehind(es, tokens, n, stack, skip, names);
        AllCut(es[1..], tokens[1..], n - |w|, After(stack, es[0]), skip && !es[0].BeginObject?, names);
      }
    }
  }
}
