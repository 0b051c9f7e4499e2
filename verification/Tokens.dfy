/** The tokens of a kind's property names: the table they share, and a local copy of it. */
module Tokens {
  import opened Bytes
  import opened Values
  import opened Events

  const TOKEN_LIMIT := 0xFF

  datatype TokenError = Fine | InvalidToken | StoreFailed

  /** The map gives each name of the table the token of its place, and knows no other name. */
  ghost predicate Table(tokens: map<Bytes, int>, names: seq<Bytes>) {
    && (forall i :: 0 <= i < |names| ==> names[i] in tokens && tokens[names[i]] == TOKEN_START + i)
    && (forall s :: s in tokens ==> s in names)
  }

  ghost predicate Injective(tokens: map<Bytes, int>) {
    forall s, t :: s in tokens && t in tokens && tokens[s] == tokens[t] ==> s == t
  }

  ghost predicate InRange(tokens: map<Bytes, int>) {
    forall s :: s in tokens ==> TOKEN_START <= tokens[s] < TOKEN_LIMIT && tokens[s] < TOKEN_START + |tokens|
  }

  /** The names and the tokens are each other's inverse. */
  lemma TableBijection(tokens: map<Bytes, int>, names: seq<Bytes>)
    requires Table(tokens, names)
    ensures Injective(tokens)
    ensures forall i, j :: 0 <= i < j < |names| ==> names[i] != names[j]
    ensures |names| == |tokens|
  {
    TablePlaces(names, tokens.Keys);
  }

  lemma {:induction false} TablePlaces(names: seq<Bytes>, keys: set<Bytes>)
    requires forall i, j :: 0 <= i < j < |names| ==> names[i] != names[j]
    requires forall s :: s in keys <==> s in names
    ensures |names| == |keys|
  {
    if |names| > 0 {
      var last := names[|names| - 1];
      TablePlaces(names[..|names| - 1], keys - {last});
    }
  }

  // ---- distinct tokens within the count fill the table ----

  ghost function Below(n: nat): (s: set<int>)
    ensures |s| == n
    ensures forall x :: x in s <==> 0 <= x < n
  {
    if n == 0 then {} else Below(n - 1) + {n - 1}
  }

  /** Distinct numbers below a bound number at most the bound, and exactly the bound when none is left out. */
  lemma Pigeonhole(s: set<int>, n: nat)
    requires s <= Below(n)
    ensures |s| <= n
    ensures |s| == n ==> s == Below(n)
  {
    var rest := Below(n) - s;
    assert Below(n) == s + rest;
    if |s| == n {
      assert |rest| == 0;
      assert s + rest == s;
    }
  }

  ghost function Places(keys: set<Bytes>, tokens: map<Bytes, int>): set<int>
    requires keys <= tokens.Keys
  {
    set s | s in keys :: tokens[s] - TOKEN_START
  }

  lemma {:induction false} PlacesCount(keys: set<Bytes>, tokens: map<Bytes, int>)
    requires keys <= tokens.Keys && Injective(tokens)
    ensures |Places(keys, tokens)| == |keys|
  {
    if keys != {} {
      var s :| s in keys;
      PlacesCount(keys - {s}, tokens);
      assert Places(keys, tokens) == Places(keys - {s}, tokens) + {tokens[s] - TOKEN_START};
    }
  }

  lemma EveryPlaceTaken(tokens: map<Bytes, int>)
    requires InRange(tokens) && Injective(tokens)
    ensures |tokens| <= TOKEN_LIMIT - TOKEN_START
    ensures forall i :: 0 <= i < |tokens| ==> i in Places(tokens.Keys, tokens)
  {
    PlacesCount(tokens.Keys, tokens);
    Pigeonhole(Places(tokens.Keys, tokens), |tokens|);
    if |tokens| > 0 {
      assert |tokens| - 1 in Places(tokens.Keys, tokens);
    }
  }

  /** The names read so far have tokens the table has room for; distinct tokens keep their names. */
  ghost predicate Read(tokens: map<Bytes, int>, names: seq<Bytes>, done: set<Bytes>, maxToken: int) {
    && done <= tokens.Keys && |names| == |tokens|
    && (forall s :: s in done ==> TOKEN_START <= tokens[s] < TOKEN_START + |names| && tokens[s] <= maxToken)
    && (Injective(tokens) ==> forall s :: s in done ==> names[tokens[s] - TOKEN_START] == s)
    && 0 <= maxToken < TOKEN_LIMIT
    && (maxToken != 0 ==> exists s :: s in done && tokens[s] == maxToken)
  }

  lemma ReadOne(tokens: map<Bytes, int>, names: seq<Bytes>, done: set<Bytes>, max: int, key: Bytes, names': seq<Bytes>, max': int)
    requires Read(tokens, names, done, max) && key in tokens && key !in done
    requires TOKEN_START <= tokens[key] < TOKEN_LIMIT && tokens[key] - TOKEN_START < |names|
    requires names' == names[tokens[key] - TOKEN_START := key] && max' == (if tokens[key] > max then tokens[key] else max)
    ensures Read(tokens, names', done + {key}, max')
  {
    if max' == max && max != 0 {
      var s :| s in done && tokens[s] == max;
      assert s in done + {key};
    } else {
      assert key in done + {key};
    }
  }

  lemma ReadAll(tokens: map<Bytes, int>, names: seq<Bytes>, done: set<Bytes>, max: int, next: int)
    requires Read(tokens, names, done, max) && done == tokens.Keys
    requires next == if max > 0 then max + 1 else TOKEN_START
    ensures InRange(tokens) && TOKEN_START <= next <= TOKEN_LIMIT
    ensures (Table(tokens, names) && next == TOKEN_START + |names| <= TOKEN_LIMIT) <==> Injective(tokens)
  {
    if Injective(tokens) {
      EveryPlaceTaken(tokens);
      forall i | 0 <= i < |names| ensures names[i] in tokens && tokens[names[i]] == TOKEN_START + i {
        assert i in Places(tokens.Keys, tokens);
      }
      if |names| > 0 {
        assert names[|names| - 1] in tokens;
      } else {
        assert tokens.Keys == {};
      }
    } else if Table(tokens, names) {
      TableBijection(tokens, names);
    }
  }

  ghost predicate Extends(before: map<Bytes, int>, after: map<Bytes, int>) {
    forall s :: s in before ==> s in after && after[s] == before[s]
  }

  /** A table with the names of another under the same tokens goes on from it. */
  lemma TableGoesOn(before: map<Bytes, int>, names: seq<Bytes>, after: map<Bytes, int>, later: seq<Bytes>)
    requires Table(before, names) && Table(after, later) && Extends(before, after)
    ensures names <= later
  {
    forall i | 0 <= i < |names| ensures i < |later| && later[i] == names[i] {
      assert names[i] in after && after[names[i]] == TOKEN_START + i;
      var j :| 0 <= j < |later| && later[j] == names[i];
      assert after[later[j]] == TOKEN_START + j;
    }
    if |names| > 0 {
      assert later[|names| - 1] == names[|names| - 1];
    }
    assert names == later[..|names|];
  }

  /** The name has a token, or there is none left to give. */
  predicate Known(names: seq<Bytes>, s: Bytes) { s in names || |names| == TOKEN_LIMIT - TOKEN_START }

  /** The table with a name more, if the name is new and there is a token left. */
  function Grown(names: seq<Bytes>, s: Bytes): seq<Bytes> { if Known(names, s) then names else names + [s] }

  lemma KnownLater(names: seq<Bytes>, later: seq<Bytes>)
    requires names <= later && |later| <= TOKEN_LIMIT - TOKEN_START
    ensures forall s :: Known(names, s) ==> Known(later, s)
  {
  }

  // ---- the state of a kind ----

  class KindState {
    /** What the store holds. */
    var saved: map<Bytes, int>
    var tokens: map<Bytes, int>
    var tokenVec: seq<Bytes>
    var nextToken: int
    /** How many writes the store has refused. */
    var failed: nat

    ghost predicate Valid()
      reads this
    {
      && Table(tokens, tokenVec)
      && nextToken == TOKEN_START + |tokenVec| <= TOKEN_LIMIT
    }

    /** The store holds what is known here. */
    ghost predicate Settled()
      reads this
    {
      Valid() && saved == tokens
    }

    constructor (stored: map<Bytes, int>)
      ensures Valid() && saved == stored && tokenVec == [] && failed == 0
    {
      saved, tokens, tokenVec, nextToken, failed := stored, map[], [], TOKEN_START, 0;
    }

    /** The store takes the names or fails. */
    method WriteTokens(obj: map<Bytes, int>) returns (ok: bool)
      modifies `saved, `failed
      ensures saved == if ok then obj else old(saved)
      ensures failed == old(failed) + if ok then 0 else 1
    {
      ok := *;
      if ok {
        saved := obj;
      } else {
        failed := failed + 1;
      }
    }

    /** Tokens can be given, though perhaps not in the order of the names. */
    ghost predicate Bounded()
      reads this
    {
      (forall s :: s in tokens ==> TOKEN_START <= tokens[s] < TOKEN_LIMIT) && TOKEN_START <= nextToken <= TOKEN_LIMIT
    }

    lemma ValidBounded()
      requires Valid()
      ensures Bounded()
    {
      forall s | s in tokens ensures TOKEN_START <= tokens[s] < TOKEN_LIMIT {
        var i :| 0 <= i < |tokenVec| && tokenVec[i] == s;
      }
    }

    /**
     * Finds a name's token or gives the name the next one. The copies handed back are empty unless
     * a token was given.
     */
    method AddPropImpl(name: Bytes, write: bool) returns (err: TokenError, token: Byte, vecOut: seq<Bytes>, tokensOut: map<Bytes, int>)
      requires Bounded()
      modifies this
      ensures Bounded() && (err == Fine || (err == StoreFailed && write && token == NO_TOKEN))
      ensures err != Fine || name in old(tokens) || old(nextToken) == TOKEN_LIMIT ==>
        unchanged(`saved, `tokens, `tokenVec, `nextToken) && vecOut == [] && tokensOut == map[]
      ensures failed == old(failed) + if err == Fine then 0 else 1
      ensures name in old(tokens) ==> err == Fine && token == tokens[name]
      ensures name !in old(tokens) && old(nextToken) == TOKEN_LIMIT ==> err == Fine && token == NO_TOKEN
      ensures name !in old(tokens) && old(nextToken) < TOKEN_LIMIT && err == Fine ==>
        && token == old(nextToken) && nextToken == old(nextToken) + 1 && tokens == old(tokens)[name := token]
        && tokenVec == old(tokenVec) + [name] && vecOut == tokenVec && tokensOut == tokens
        && saved == if write then tokens else old(saved)
    {
      token, vecOut, tokensOut := NO_TOKEN, [], map[];
      if name in tokens {
        return Fine, tokens[name], vecOut, tokensOut;
      }
      if nextToken < TOKEN_LIMIT {
        var obj, vec := tokens[name := nextToken], tokenVec + [name];
        if write {
          var ok := WriteTokens(obj);
          if !ok {
            return StoreFailed, token, vecOut, tokensOut;
          }
        }
        tokens, tokenVec := obj, vec;
        token := nextToken;
        nextToken := nextToken + 1;
        vecOut, tokensOut := tokenVec, tokens;
      }
      return Fine, token, vecOut, tokensOut;
    }

    /** With a table of tokens, that keeps it. */
    method AddProp(name: Bytes, write: bool) returns (err: TokenError, token: Byte, vecOut: seq<Bytes>, tokensOut: map<Bytes, int>)
      requires Valid()
      modifies this
      ensures Valid()
      ensures err != Fine ==> err == StoreFailed && write && token == NO_TOKEN && unchanged(`saved, `tokens, `tokenVec, `nextToken)
      ensures failed == old(failed) + if err == Fine then 0 else 1
      ensures err == Fine ==> old(tokenVec) <= tokenVec && Known(tokenVec, name)
      ensures err == Fine ==> if name in tokenVec then Names(tokenVec, token, name) else token == NO_TOKEN
      ensures old(Known(tokenVec, name)) ==> err == Fine && unchanged(`saved, `tokens, `tokenVec, `nextToken) && vecOut == [] && tokensOut == map[]
      ensures !old(Known(tokenVec, name)) && err == Fine ==>
        tokenVec == old(tokenVec) + [name] && vecOut == tokenVec && tokensOut == tokens
      ensures !old(Known(tokenVec, name)) && err == Fine && write ==> saved == tokens
      ensures !write ==> saved == old(saved)
      ensures old(Settled()) && write ==> Settled()
    {
      ValidBounded();
      err, token, vecOut, tokensOut := AddPropImpl(name, write);
    }

    /** Reads the stored names back in, in any order. */
    method Load() returns (err: TokenError)
      requires Valid() && tokenVec == []
      modifies this
      ensures saved == old(saved) && failed == old(failed)
      ensures err == if InRange(saved) then Fine else InvalidToken
      ensures err == Fine ==> tokens == saved && Bounded() && (Valid() <==> Injective(saved))
    {
      hide Table;
      hide Injective;
      tokens := saved;
      tokenVec := seq(|tokens|, i => []);
      var maxToken, rest := 0, tokens.Keys;
      ghost var done := {};
      while rest != {}
        invariant rest <= tokens.Keys && done == tokens.Keys - rest
        invariant tokens == saved == old(saved) && nextToken == TOKEN_START && failed == old(failed)
        invariant Read(tokens, tokenVec, done, maxToken)
      {
        var key :| key in rest;
        var value := tokens[key];
        if value < TOKEN_START || value >= TOKEN_LIMIT || value - TOKEN_START >= |tokenVec| {
          return InvalidToken;
        }
        ghost var names, max := tokenVec, maxToken;
        if value > maxToken {
          maxToken := value;
        }
        tokenVec := tokenVec[value - TOKEN_START := key];
        ReadOne(tokens, names, done, max, key, tokenVec, maxToken);
        rest, done := rest - {key}, done + {key};
      }
      if maxToken > 0 {
        nextToken := maxToken + 1;
      }
      ReadAll(tokens, tokenVec, done, maxToken, nextToken);
      return Fine;
    }

    /**
     * The names of the schema join the stored ones, which keep their tokens. What comes of it is a table
     * exactly if the stored names had different tokens.
     */
    method InitTokens(strings: seq<Bytes>) returns (err: TokenError)
      requires Valid() && tokenVec == []
      modifies this
      ensures err == InvalidToken <==> !InRange(old(saved))
      ensures failed == old(failed) + if err == StoreFailed then 1 else 0
      ensures err == Fine ==> saved == tokens && Extends(old(saved), tokens) && (Settled() <==> Injective(old(saved)))
      ensures err == Fine && Injective(old(saved)) ==> forall s :: s in strings ==> Known(tokenVec, s)
      ensures err == Fine && Injective(old(saved)) ==> forall s :: s in tokenVec ==> s in old(saved) || s in strings
    {
      err := Load();
      if err != Fine {
        return;
      }
      ghost var loaded := tokens;
      var updated := AddStrings(strings);
      StillShared(loaded, tokens, tokenVec);
      if updated {
        var ok := WriteTokens(tokens);
        if !ok {
          return StoreFailed;
        }
      }
    }

    method AddStrings(strings: seq<Bytes>) returns (updated: bool)
      requires Bounded()
      modifies this
      ensures Bounded() && saved == old(saved) && failed == old(failed) && Extends(old(tokens), tokens) && (!updated ==> tokens == old(tokens))
      ensures old(Valid()) ==> Valid() && old(tokenVec) <= tokenVec
      ensures old(Valid()) ==> forall s :: s in strings ==> Known(tokenVec, s)
      ensures forall s :: s in tokenVec ==> s in old(tokenVec) || s in strings
    {
      updated := false;
      for i := 0 to |strings|
        invariant Bounded() && saved == old(saved) && failed == old(failed) && Extends(old(tokens), tokens) && (!updated ==> tokens == old(tokens))
        invariant old(Valid()) ==> Valid() && old(tokenVec) <= tokenVec
        invariant old(Valid()) ==> forall j :: 0 <= j < i ==> Known(tokenVec, strings[j])
        invariant forall s :: s in tokenVec ==> s in old(tokenVec) || s in strings
      {
        ghost var before := tokenVec;
        if strings[i] !in tokens {
          updated := true;
          var e, _, _, _ := AddPropImpl(strings[i], false);
        }
        if old(Valid()) {
          KnownLater(before, tokenVec);
        }
      }
    }
  }

  /** Names that share a token go on sharing it. */
  lemma StillShared(before: map<Bytes, int>, after: map<Bytes, int>, names: seq<Bytes>)
    requires Extends(before, after)
    ensures Table(after, names) ==> Injective(before)
  {
    if Table(after, names) {
      TableBijection(after, names);
    }
  }

  // ---- a local copy of the table ----

  class TokenSet {
    const shared: KindState
    var tokenVec: seq<Bytes>
    var obj: map<Bytes, int>

    ghost predicate Valid()
      reads this, shared
    {
      shared.Valid() && tokenVec <= shared.tokenVec && Table(obj, tokenVec)
    }

    constructor (sharedSet: KindState)
      requires sharedSet.Valid()
      ensures Valid() && shared == sharedSet && tokenVec == shared.tokenVec
    {
      shared, tokenVec, obj := sharedSet, sharedSet.tokenVec, sharedSet.tokens;
    }

    /**
     * The local copy is taken afresh from what adding a token hands back, which is nothing when the
     * shared table had the name already or is full.
     */
    method TokenFromString(str: Bytes, add: bool) returns (err: TokenError, token: Byte)
      requires Valid()
      modifies this, shared
      ensures Valid() && old(shared.tokenVec) <= shared.tokenVec
      ensures token != NO_TOKEN ==> err == Fine && Names(shared.tokenVec, token, CStr(str))
      ensures old(CStr(str) in tokenVec) ==> err == Fine && token != NO_TOKEN && unchanged(this) && unchanged(shared)
      ensures !old(CStr(str) in tokenVec) && !add ==> err == Fine && token == NO_TOKEN && unchanged(this) && unchanged(shared)
      ensures !old(CStr(str) in tokenVec) && add && err == Fine ==>
        && (token == NO_TOKEN <==> CStr(str) !in shared.tokenVec) && Known(shared.tokenVec, CStr(str))
        && tokenVec == if old(Known(shared.tokenVec, CStr(str))) then [] else shared.tokenVec
      ensures add && err == Fine ==> shared.tokenVec == Grown(old(shared.tokenVec), CStr(str))
      ensures err != Fine ==> err == StoreFailed && add && unchanged(this) && shared.tokenVec == old(shared.tokenVec)
      ensures shared.failed == old(shared.failed) + if err == Fine then 0 else 1
      ensures old(shared.Settled()) ==> shared.Settled()
    {
      err, token := Fine, NO_TOKEN;
      if CStr(str) in obj {
        token := obj[CStr(str)];
      } else if add {
        var updatedVec, updatedObj;
        err, token, updatedVec, updatedObj := shared.AddProp(CStr(str), true);
        if err != Fine {
          return;
        }
        tokenVec, obj := updatedVec, updatedObj;
      }
    }

    method StringFromToken(token: Byte) returns (err: TokenError, name: Bytes)
      requires Valid()
      ensures err == Fine <==> TOKEN_START <= token < TOKEN_START + |tokenVec|
      ensures err == Fine ==> Names(tokenVec, token, name) && Names(shared.tokenVec, token, name)
      ensures err == Fine || err == InvalidToken
    {
      if token < TOKEN_START || token - TOKEN_START >= |tokenVec| {
        return InvalidToken, [];
      }
      return Fine, tokenVec[token - TOKEN_START];
    }
  }
}
