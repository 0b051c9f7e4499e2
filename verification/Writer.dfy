/** The writer: a visitor that appends the spelling of each event to a buffer. */
module Writer {
  import opened Bytes
  import opened Values
  import opened Events
  import opened Tokens
  import opened TokenUse

  lemma SpellMore(es: seq<Event>, tokens: seq<Byte>, e: Event, token: Byte)
    requires |es| == |tokens|
    ensures Spell(es + [e], tokens + [token]) == Spell(es, tokens) + Word(e, token)
  {
    SpellConcat(es, tokens, [e], [token]);
    SpellOne(e, token);
  }

  /** What is logged, and what is still to come. */
  predicate PropsLeft(all: seq<Event>, log: seq<Event>, p: Props) { all == log + VisitProps(p) }

  predicate ItemsLeft(all: seq<Event>, log: seq<Event>, p: Items) { all == log + VisitItems(p) }

  lemma PropVisited(all: seq<Event>, log: seq<Event>, p: Props)
    requires PropsLeft(all, log, p) && p.Prop?
    ensures PropsLeft(all, (log + [Event.PropName(p.name)]) + Visit(p.val), p.rest)
  {
  }

  lemma ItemVisited(all: seq<Event>, log: seq<Event>, p: Items)
    requires ItemsLeft(all, log, p) && p.Item?
    ensures ItemsLeft(all, log + Visit(p.val), p.rest)
  {
  }

  lemma PropsDone(all: seq<Event>, log: seq<Event>, before: seq<Event>, props: Props)
    requires PropsLeft(all, log, NoProps) && PropsLeft(all, before + [Event.BeginObject], props)
    ensures log + [Event.EndObject] == before + Visit(Obj(props))
  {
    assert log == before + [Event.BeginObject] + VisitProps(props);
    assert Visit(Obj(props)) == [Event.BeginObject] + VisitProps(props) + [Event.EndObject];
  }

  lemma ItemsDone(all: seq<Event>, log: seq<Event>, before: seq<Event>, items: Items)
    requires ItemsLeft(all, log, NoItems) && ItemsLeft(all, before + [Event.BeginArray], items)
    ensures log + [Event.EndArray] == before + Visit(Arr(items))
  {
    assert log == before + [Event.BeginArray] + VisitItems(items);
    assert Visit(Arr(items)) == [Event.BeginArray] + VisitItems(items) + [Event.EndArray];
  }

  /** Without a table there are no tokens. */
  lemma NoTokens(es: seq<Event>, tokens: seq<Byte>)
    requires Sound(es, tokens, [])
    ensures tokens == None(|es|)
  {
    forall i | 0 <= i < |es| ensures tokens[i] == NO_TOKEN {
    }
  }

  /** Every name has a token exactly if it is in the table, where it is unless that is full. */
  ghost predicate NamesUsed(es: seq<Event>, tokens: seq<Byte>, table: seq<Bytes>) {
    && |es| == |tokens|
    && forall i :: 0 <= i < |es| && es[i].PropName? ==>
      (tokens[i] != NO_TOKEN <==> CStr(es[i].name) in table) && Known(table, CStr(es[i].name))
  }

  lemma NamesUsedLater(es: seq<Event>, tokens: seq<Byte>, table: seq<Bytes>, later: seq<Bytes>)
    requires NamesUsed(es, tokens, table) && table <= later && |later| <= TOKEN_LIMIT - TOKEN_START
    ensures NamesUsed(es, tokens, later)
  {
    KnownLater(table, later);
  }

  lemma NamesUsedMore(es: seq<Event>, tokens: seq<Byte>, table: seq<Bytes>, e: Event, token: Byte)
    requires NamesUsed(es, tokens, table)
    requires e.PropName? ==> (token != NO_TOKEN <==> CStr(e.name) in table) && Known(table, CStr(e.name))
    ensures NamesUsed(es + [e], tokens + [token], table)
  {
  }

  lemma TextWord(e: Event, token: Byte)
    requires HasText(e)
    ensures Word(e, token) == if token != NO_TOKEN then [token] else StringBytes(Text(e))
  {
  }

  class ObjectWriter {
    var buf: Bytes
    var tokenSet: TokenSet?
    /** The events taken, and the token each was written with. */
    ghost var log: seq<Event>
    ghost var tokens: seq<Byte>
    /** The names that had tokens to begin with. */
    ghost var base: seq<Bytes>

    ghost function Repr(): set<object>
      reads this
    {
      if tokenSet == null then {this} else {this, tokenSet, tokenSet.shared}
    }

    ghost function Table(): seq<Bytes>
      reads Repr()
    {
      if tokenSet == null then [] else tokenSet.shared.tokenVec
    }

    ghost predicate Valid()
      reads Repr()
    {
      && Sound(log, tokens, Table())
      && buf == Spell(log, tokens)
      && (tokenSet != null ==> tokenSet.Valid() && NamesUsed(log, tokens, Table()))
    }

    /** How many writes of names the store has refused. */
    ghost function Failed(): nat
      reads Repr()
    {
      if tokenSet == null then 0 else tokenSet.shared.failed
    }

    /** The writer alone has used the table and its copy, which was the whole table to begin with. */
    ghost predicate Alone()
      reads Repr()
    {
      tokenSet == null || Exact(base, log, tokens, Table(), tokenSet.tokenVec)
    }

    /** The store holds the names that have tokens. */
    ghost predicate Stored()
      reads Repr()
    {
      tokenSet == null || tokenSet.shared.Settled()
    }

    constructor (ts: TokenSet?)
      requires ts != null ==> ts.Valid()
      ensures Valid() && tokenSet == ts && log == [] && buf == [] && base == Table()
      ensures ts != null && ts.tokenVec == ts.shared.tokenVec ==> Alone()
    {
      buf, tokenSet, log, tokens := [], ts, [], [];
      base := if ts == null then [] else ts.shared.tokenVec;
      if ts != null {
        NothingTaken(ts.shared.tokenVec);
      }
    }

    method Reset()
      modifies this
      ensures Valid() && tokenSet == null && log == [] && buf == []
    {
      buf, tokenSet, log, tokens, base := [], null, [], [], [];
    }

    /** The word of an event joins the buffer. */
    method Write(word: Bytes, ghost e: Event, ghost token: Byte)
      requires Valid() && word == Word(e, token)
      requires token != NO_TOKEN ==> HasText(e) && Names(Table(), token, CStr(Text(e)))
      requires tokenSet != null && e.PropName? ==> (token != NO_TOKEN <==> CStr(e.name) in Table()) && Known(Table(), CStr(e.name))
      modifies this
      ensures Valid() && tokenSet == old(tokenSet) && base == old(base)
      ensures log == old(log) + [e] && tokens == old(tokens) + [token] && buf == old(buf) + word
    {
      SpellMore(log, tokens, e, token);
      if tokenSet != null {
        NamesUsedMore(log, tokens, Table(), e, token);
      }
      buf := buf + word;
      log, tokens := log + [e], tokens + [token];
    }

    /** An event without a text is written in one way only. */
    method WritePlain(word: Bytes, ghost e: Event)
      requires Valid() && !HasText(e) && word == Word(e, NO_TOKEN)
      modifies this
      ensures Valid() && tokenSet == old(tokenSet) && base == old(base) && log == old(log) + [e]
      ensures (old(Alone()) ==> Alone()) && (old(Stored()) ==> Stored()) && Table() == old(Table())
    {
      if tokenSet != null && Alone() {
        PlainTaken(base, log, tokens, Table(), tokenSet.tokenVec, e);
      }
      Write(word, e, NO_TOKEN);
    }

    method BeginObject()
      requires Valid()
      modifies this
      ensures Valid() && tokenSet == old(tokenSet) && base == old(base) && log == old(log) + [Event.BeginObject]
      ensures (old(Alone()) ==> Alone()) && (old(Stored()) ==> Stored()) && Table() == old(Table())
    {
      WritePlain([OBJECT_BEGIN], Event.BeginObject);
    }

    method EndObject()
      requires Valid()
      modifies this
      ensures Valid() && tokenSet == old(tokenSet) && base == old(base) && log == old(log) + [Event.EndObject]
      ensures (old(Alone()) ==> Alone()) && (old(Stored()) ==> Stored()) && Table() == old(Table())
    {
      WritePlain([OBJECT_END], Event.EndObject);
    }

    method BeginArray()
      requires Valid()
      modifies this
      ensures Valid() && tokenSet == old(tokenSet) && base == old(base) && log == old(log) + [Event.BeginArray]
      ensures (old(Alone()) ==> Alone()) && (old(Stored()) ==> Stored()) && Table() == old(Table())
    {
      WritePlain([ARRAY_BEGIN], Event.BeginArray);
    }

    method EndArray()
      requires Valid()
      modifies this
      ensures Valid() && tokenSet == old(tokenSet) && base == old(base) && log == old(log) + [Event.EndArray]
      ensures (old(Alone()) ==> Alone()) && (old(Stored()) ==> Stored()) && Table() == old(Table())
    {
      WritePlain([OBJECT_END], Event.EndArray);
    }

    method NullValue()
      requires Valid()
      modifies this
      ensures Valid() && tokenSet == old(tokenSet) && base == old(base) && log == old(log) + [Event.NullValue]
      ensures (old(Alone()) ==> Alone()) && (old(Stored()) ==> Stored()) && Table() == old(Table())
    {
      WritePlain([NULL_VALUE], Event.NullValue);
    }

    method BoolValue(val: bool)
      requires Valid()
      modifies this
      ensures Valid() && tokenSet == old(tokenSet) && base == old(base) && log == old(log) + [Event.BoolValue(val)]
      ensures (old(Alone()) ==> Alone()) && (old(Stored()) ==> Stored()) && Table() == old(Table())
    {
      WritePlain([if val then TRUE_VALUE else FALSE_VALUE], Event.BoolValue(val));
    }

    method IntValue(val: Int64)
      requires Valid()
      modifies this
      ensures Valid() && tokenSet == old(tokenSet) && base == old(base) && log == old(log) + [Event.IntValue(val)]
      ensures (old(Alone()) ==> Alone()) && (old(Stored()) ==> Stored()) && Table() == old(Table())
    {
      WritePlain(IntBytes(val), Event.IntValue(val));
    }

    method DecimalValue(val: Int64)
      requires Valid()
      modifies this
      ensures Valid() && tokenSet == old(tokenSet) && base == old(base) && log == old(log) + [Event.DecimalValue(val)]
      ensures (old(Alone()) ==> Alone()) && (old(Stored()) ==> Stored()) && Table() == old(Table())
    {
      WritePlain(DecimalBytes(val), Event.DecimalValue(val));
    }

    /** Looks a text up, and asks for a token if it is that of a name. */
    method LookUp(val: Bytes, addToken: bool, ghost e: Event) returns (err: TokenError, token: Byte)
      requires Valid() && tokenSet != null && e == if addToken then Event.PropName(val) else Event.StringValue(val)
      modifies tokenSet, tokenSet.shared
      ensures Valid() && (old(Stored()) ==> Stored())
      ensures err != Fine ==> addToken && Table() == old(Table())
      ensures Failed() == old(Failed()) + if err == Fine then 0 else 1
      ensures err == Fine ==> Table() == if addToken then Grown(old(Table()), CStr(val)) else old(Table())
      ensures token != NO_TOKEN ==> Names(Table(), token, CStr(val))
      ensures err == Fine && addToken ==> (token != NO_TOKEN <==> CStr(val) in Table()) && Known(Table(), CStr(val))
      ensures err == Fine && old(Alone()) ==> Exact(base, log + [e], tokens + [token], Table(), tokenSet.tokenVec)
    {
      hide Sound;
      hide NamesUsed;
      hide Exact;
      hide Spell;
      ghost var table, copy := Table(), tokenSet.tokenVec;
      err, token := tokenSet.TokenFromString(val, addToken);
      SharedFits();
      SoundLater(log, tokens, table, Table());
      NamesUsedLater(log, tokens, table, Table());
      if err == Fine && Exact(base, log, tokens, table, copy) {
        if addToken {
          NameTaken(base, log, tokens, table, copy, e, token, Table(), tokenSet.tokenVec);
        } else {
          StringTaken(base, log, tokens, table, copy, e, token);
        }
      }
    }

    lemma SharedFits()
      requires tokenSet != null && tokenSet.Valid()
      ensures Fits(Table()) && NoneTwice(Table())
    {
      TableBijection(tokenSet.shared.tokens, tokenSet.shared.tokenVec);
    }

    /** A name asks for a token and may get a new one; a string only looks for one. */
    method WriteString(val: Bytes, addToken: bool) returns (err: TokenError)
      requires Valid()
      modifies Repr()
      ensures Valid() && tokenSet == old(tokenSet) && base == old(base) && (old(Stored()) ==> Stored())
      ensures err == Fine ==> log == old(log) + [if addToken then Event.PropName(val) else Event.StringValue(val)]
      ensures err == Fine ==> Table() == if tokenSet != null && addToken then Grown(old(Table()), CStr(val)) else old(Table())
      ensures err != Fine ==> tokenSet != null && addToken && log == old(log) && Table() == old(Table())
      ensures Failed() == old(Failed()) + if err == Fine then 0 else 1
      ensures err == Fine && old(Alone()) ==> Alone()
    {
      hide Word;
      hide StringBytes;
      hide CStr;
      hide Known;
      hide Grown;
      hide Names;
      hide Sound;
      hide NamesUsed;
      hide Exact;
      hide Spell;
      ghost var e := if addToken then Event.PropName(val) else Event.StringValue(val);
      err := Fine;
      if tokenSet != null {
        var token;
        err, token := LookUp(val, addToken, e);
        if err != Fine {
          return;
        }
        if token != NO_TOKEN {
          TextWord(e, token);
          Write([token], e, token);
          return;
        }
      }
      TextWord(e, NO_TOKEN);
      Write(StringBytes(val), e, NO_TOKEN);
    }

    /** The table when some events have been written. */
    ghost function After(table: seq<Bytes>, es: seq<Event>): seq<Bytes>
      reads `tokenSet
    {
      if tokenSet == null then table else GrownBy(table, es)
    }

    lemma AfterMore(table: seq<Bytes>, es: seq<Event>, more: seq<Event>)
      ensures After(table, es + more) == After(After(table, es), more) && table <= After(table, es)
    {
      GrownThen(table, es, more);
      GrownOn(table, es);
    }

    lemma AfterOne(table: seq<Bytes>, e: Event)
      ensures After(table, [e]) == if tokenSet != null && e.PropName? then Grown(table, CStr(e.name)) else table
    {
      GrownMore(table, [], e);
      assert [] + [e] == [e];
    }

    /** A visit of a value, event by event. */
    method Visit(v: Value) returns (err: TokenError)
      requires Valid()
      modifies Repr()
      ensures Valid() && tokenSet == old(tokenSet) && base == old(base) && old(Table()) <= Table() && (old(Stored()) ==> Stored())
      ensures err == Fine ==> log == old(log) + Events.Visit(v) && Table() == After(old(Table()), Events.Visit(v))
      ensures err == Fine && old(Alone()) ==> Alone()
      ensures Failed() == old(Failed()) + if err == Fine then 0 else 1
      ensures tokenSet == null ==> err == Fine
      decreases v, 1
    {
      hide Sound;
      hide NamesUsed;
      hide Exact;
      hide Spell;
      hide GrownBy;
      err := Fine;
      if !v.Obj? && !v.Arr? {
        AfterOne(Table(), Events.Visit(v)[0]);
      }
      match v
      case Undefined => NullValue();
      case Null => NullValue();
      case Bool(b) => BoolValue(b);
      case Int(i) => IntValue(i);
      case Dec(r) => DecimalValue(r);
      case Str(s) => err := WriteString(s, false);
      case Obj(_) => err := VisitObject(v);
      case Arr(_) => err := VisitArray(v);
    }

    method VisitObject(v: Value) returns (err: TokenError)
      requires Valid() && v.Obj?
      modifies Repr()
      ensures Valid() && tokenSet == old(tokenSet) && base == old(base) && old(Table()) <= Table() && (old(Stored()) ==> Stored())
      ensures err == Fine ==> log == old(log) + Events.Visit(v) && Table() == After(old(Table()), Events.Visit(v))
      ensures err == Fine && old(Alone()) ==> Alone()
      ensures Failed() == old(Failed()) + if err == Fine then 0 else 1
      ensures tokenSet == null ==> err == Fine
      decreases v, 0
    {
      hide ObjectWriter.Valid;
      hide ObjectWriter.Alone;
      hide ObjectWriter.Stored;
      hide ObjectWriter.After;
      hide Events.Visit;
      hide Grown;
      hide CStr;
      hide Sound;
      hide NamesUsed;
      hide Exact;
      hide Spell;
      hide GrownBy;
      BeginObject();
      var p := v.props;
      ghost var all, table, told := log + VisitProps(p), Table(), [Event.BeginObject];
      AfterOne(table, Event.BeginObject);
      while p.Prop?
        invariant Valid() && tokenSet == old(tokenSet) && base == old(base) && (old(Stored()) ==> Stored()) && (old(Alone()) ==> Alone())
        invariant Failed() == old(Failed())
        invariant PropsLeft(all, log, p) && log == old(log) + told && Table() == After(table, told)
        invariant v decreases to p
        decreases p
      {
        PropVisited(all, log, p);
        AfterMore(table, told, [Event.PropName(p.name)]);
        AfterOne(Table(), Event.PropName(p.name));
        err := WriteString(p.name, true);
        if err != Fine {
          return;
        }
        told := told + [Event.PropName(p.name)];
        AfterMore(table, told, Events.Visit(p.val));
        err := Visit(p.val);
        if err != Fine {
          return;
        }
        told := told + Events.Visit(p.val);
        p := p.rest;
      }
      PropsDone(all, log, old(log), v.props);
      AfterMore(table, told, [Event.EndObject]);
      AfterOne(Table(), Event.EndObject);
      EndObject();
      SameTold(old(log), told + [Event.EndObject], Events.Visit(v));
      err := Fine;
    }

    method VisitArray(v: Value) returns (err: TokenError)
      requires Valid() && v.Arr?
      modifies Repr()
      ensures Valid() && tokenSet == old(tokenSet) && base == old(base) && old(Table()) <= Table() && (old(Stored()) ==> Stored())
      ensures err == Fine ==> log == old(log) + Events.Visit(v) && Table() == After(old(Table()), Events.Visit(v))
      ensures err == Fine && old(Alone()) ==> Alone()
      ensures Failed() == old(Failed()) + if err == Fine then 0 else 1
      ensures tokenSet == null ==> err == Fine
      decreases v, 0
    {
      hide ObjectWriter.Valid;
      hide ObjectWriter.Alone;
      hide ObjectWriter.Stored;
      hide ObjectWriter.After;
      hide Events.Visit;
      hide Grown;
      hide CStr;
      hide Sound;
      hide NamesUsed;
      hide Exact;
      hide Spell;
      hide GrownBy;
      BeginArray();
      var p := v.items;
      ghost var all, table, told := log + VisitItems(p), Table(), [Event.BeginArray];
      AfterOne(table, Event.BeginArray);
      while p.Item?
        invariant Valid() && tokenSet == old(tokenSet) && base == old(base) && (old(Stored()) ==> Stored()) && (old(Alone()) ==> Alone())
        invariant Failed() == old(Failed())
        invariant ItemsLeft(all, log, p) && log == old(log) + told && Table() == After(table, told)
        invariant v decreases to p
        decreases p
      {
        ItemVisited(all, log, p);
        AfterMore(table, told, Events.Visit(p.val));
        err := Visit(p.val);
        if err != Fine {
          return;
        }
        told := told + Events.Visit(p.val);
        p := p.rest;
      }
      ItemsDone(all, log, old(log), v.items);
      AfterMore(table, told, [Event.EndArray]);
      AfterOne(Table(), Event.EndArray);
      EndArray();
      SameTold(old(log), told + [Event.EndArray], Events.Visit(v));
      err := Fine;
    }
  }

  lemma SameTold(before: seq<Event>, a: seq<Event>, b: seq<Event>)
    requires before + a == before + b
    ensures a == b
  {
    assert a == (before + a)[|before|..] && b == (before + b)[|before|..];
  }

  method ToBytes(v: Value) returns (bytes: Bytes)
    ensures bytes == Encode(v)
  {
    var writer := new ObjectWriter(null);
    var _ := writer.Visit(v);
    bytes := writer.buf;
    NoTokens(writer.log, writer.tokens);
    assert writer.log == Visit(v);
    PlainSpelling(v);
  }
}
