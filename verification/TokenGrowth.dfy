/** Objects stored with the tokens of their kind, and read back when the table of tokens has changed. */
module TokenGrowth {
  import opened Bytes
  import opened Values
  import opened Events
  import opened Tokens
  import opened TokenUse
  import opened Builder
  import opened Reader
  import opened RoundTrip
  import W = Writer
  import R = ObjectReader

  /** Bytes that spell a value with tokens of a table. */
  ghost predicate Written(bytes: Bytes, v: Value, table: seq<Bytes>) {
    exists tokens :: Sound(Visit(v), tokens, table) && bytes == Spell(Visit(v), tokens)
  }

  /** Writes an object with the tokens of its kind; its names get tokens while there are some left. */
  method Store(v: Value, kind: KindState) returns (err: TokenError, bytes: Bytes)
    requires kind.Settled()
    modifies kind
    ensures kind.Settled() && old(kind.tokenVec) <= kind.tokenVec
    ensures err == TokenError.Fine <==> kind.failed == old(kind.failed)
    ensures err == TokenError.Fine ==> Written(bytes, v, kind.tokenVec) && kind.tokenVec == GrownBy(old(kind.tokenVec), Visit(v))
    ensures err == TokenError.Fine ==>
      Fits(old(kind.tokenVec)) && bytes == Spell(Visit(v), TokensOf(old(kind.tokenVec), Visit(v)))
  {
    hide GrownBy;
    hide CopyAfter;
    hide TokensOf;
    var names := new TokenSet(kind);
    var writer := new W.ObjectWriter(names);
    err := writer.Visit(v);
    bytes := writer.buf;
    assert [] + Visit(v) == Visit(v);
  }

  /** Reads an object with the tokens its kind has now. */
  method Fetch(bytes: Bytes, kind: KindState) returns (err: ReadError, v: Value)
    requires kind.Valid()
    ensures forall was, table :: NoNul(was) && Sorted(was) && table <= kind.tokenVec && Written(bytes, was, table) ==>
      err == ReadError.Fine && v == Norm(was)
  {
    var names := new TokenSet(kind);
    var builder := new ObjectBuilder();
    var reader := new R.ObjectReader(bytes, names);
    err := reader.ReadToEnd(builder);
    v := builder.obj;
    forall was, table | NoNul(was) && Sorted(was) && table <= kind.tokenVec && Written(bytes, was, table)
      ensures err == ReadError.Fine && v == Norm(was)
    {
      var tokens :| Sound(Visit(was), tokens, table) && bytes == Spell(Visit(was), tokens);
      TokenRoundTrip(was, tokens, table, Named(kind.tokenVec));
    }
  }

  /** The kind is opened again: it reads the names its store holds, and adds those of its schema. */
  method Reopen(kind: KindState, strings: seq<Bytes>) returns (err: TokenError, later: KindState)
    requires kind.Settled()
    ensures fresh(later) && (err == TokenError.Fine ==> later.Settled() && kind.tokenVec <= later.tokenVec)
    ensures err == if later.failed == 0 then TokenError.Fine else StoreFailed
  {
    later := new KindState(kind.saved);
    TableBijection(kind.tokens, kind.tokenVec);
    TableInRange(kind.tokens, kind.tokenVec);
    err := later.InitTokens(strings);
    if err == TokenError.Fine {
      TableGoesOn(kind.tokens, kind.tokenVec, later.tokens, later.tokenVec);
    }
  }

  lemma TableInRange(tokens: map<Bytes, int>, names: seq<Bytes>)
    requires Table(tokens, names) && TOKEN_START + |names| <= TOKEN_LIMIT
    ensures InRange(tokens)
  {
    TableBijection(tokens, names);
    forall s | s in tokens ensures TOKEN_START <= tokens[s] < TOKEN_START + |names| {
      var i :| 0 <= i < |names| && names[i] == s;
    }
  }

  /** Other names take tokens, to the last one. */
  method TakeTokens(kind: KindState, names: seq<Bytes>)
    requires kind.Settled()
    modifies kind
    ensures kind.Settled() && old(kind.tokenVec) <= kind.tokenVec
  {
    for i := 0 to |names|
      invariant kind.Settled() && old(kind.tokenVec) <= kind.tokenVec
    {
      var _, _, _, _ := kind.AddProp(names[i], true);
    }
  }

  /**
   * What is stored comes back, when other names have taken tokens since, to the last one, and the kind
   * has been opened again with more names in its schema.
   */
  method StoredComesBack(v: Value, kind: KindState, others: seq<Bytes>, strings: seq<Bytes>)
    returns (stored: TokenError, reopened: TokenError, read: ReadError, back: Value)
    requires kind.Settled() && NoNul(v) && Sorted(v)
    modifies kind
    ensures kind.Settled() && (stored == TokenError.Fine && reopened == TokenError.Fine ==> read == ReadError.Fine && back == Norm(v))
  {
    var bytes;
    stored, bytes := Store(v, kind);
    ghost var table := kind.tokenVec;
    TakeTokens(kind, others);
    var later;
    reopened, later := Reopen(kind, strings);
    read, back := ReadError.Fine, v;
    if stored == TokenError.Fine && reopened == TokenError.Fine {
      read, back := Fetch(bytes, later);
      assert table <= later.tokenVec;
    }
  }
}
