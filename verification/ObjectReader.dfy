/** The decoder as it runs: a position in a buffer and a stack of states. */
module ObjectReader {
  import opened Bytes
  import opened Values
  import opened Events
  import opened Reader
  import Tokens
  import opened Builder

  function Shift(b: Byte, unit: int): int { (b as int) * unit }

  lemma Numbers(s: Bytes)
    ensures |s| == 1 ==> FromBigEndian(s) == s[0]
    ensures |s| == 2 ==> FromBigEndian(s) == s[1] + Shift(s[0], 0x100)
    ensures |s| == 4 ==> FromBigEndian(s) == s[3] + Shift(s[2], 0x100) + Shift(s[1], 0x1_0000) + Shift(s[0], 0x100_0000)
  {
    if |s| == 4 {
      Numbers(s[..2]);
      assert s[..3][..2] == s[..2];
      assert FromBigEndian(s[..3]) == 256 * FromBigEndian(s[..2]) + s[2];
    } else if |s| == 2 {
      Numbers(s[..1]);
    } else if |s| == 1 {
      assert FromBigEndian(s[..0]) == 0;
    }
  }

  lemma LongNumbers(s: Bytes)
    requires |s| == 8
    ensures FromBigEndian(s) == s[7] + Shift(s[6], 0x100) + Shift(s[5], 0x1_0000) + Shift(s[4], 0x100_0000)
      + Shift(s[3], 0x1_0000_0000) + Shift(s[2], 0x100_0000_0000) + Shift(s[1], 0x1_0000_0000_0000) + Shift(s[0], 0x100_0000_0000_0000)
  {
    Numbers(s[..4]);
    assert s[..7][..6] == s[..6] && s[..6][..5] == s[..5] && s[..5][..4] == s[..4];
    assert FromBigEndian(s[..5]) == 256 * FromBigEndian(s[..4]) + s[4];
    assert FromBigEndian(s[..6]) == 256 * FromBigEndian(s[..5]) + s[5];
    assert FromBigEndian(s[..7]) == 256 * FromBigEndian(s[..6]) + s[6];
  }

  class DataReader {
    var data: Bytes
    var pos: nat

    predicate Valid()
      reads this
    {
      pos <= |data|
    }

    function Left(): Bytes
      requires Valid()
      reads this
    {
      data[pos..]
    }

    constructor (bytes: Bytes)
      ensures Valid() && Left() == bytes
    {
      data, pos := bytes, 0;
    }

    method ReadUInt8() returns (err: ReadError, val: Byte)
      requires Valid()
      modifies `pos
      ensures Valid() && err == if |old(Left())| == 0 then UnexpectedEof else Fine
      ensures err == Fine ==> val == old(Left())[0] && Left() == old(Left())[1..]
    {
      if |data| - pos < 1 {
        return UnexpectedEof, 0;
      }
      err, val, pos := Fine, data[pos], pos + 1;
    }

    method ReadUInt16() returns (err: ReadError, val: nat)
      requires Valid()
      modifies `pos
      ensures Valid() && err == if Number(old(Left()), 2).Short? then UnexpectedEof else Fine
      ensures err == Fine ==> val == Number(old(Left()), 2).val < 0x1_0000 && Left() == old(Left())[2..]
    {
      if |data| - pos < 2 {
        return UnexpectedEof, 0;
      }
      Numbers(Left()[..2]);
      err, val, pos := Fine, data[pos + 1] + Shift(data[pos], 0x100), pos + 2;
    }

    method ReadUInt32() returns (err: ReadError, val: nat)
      requires Valid()
      modifies `pos
      ensures Valid() && err == if Number(old(Left()), 4).Short? then UnexpectedEof else Fine
      ensures err == Fine ==> val == Number(old(Left()), 4).val < 0x1_0000_0000 && Left() == old(Left())[4..]
    {
      if |data| - pos < 4 {
        return UnexpectedEof, 0;
      }
      Numbers(Left()[..4]);
      err, val, pos := Fine, data[pos + 3] + Shift(data[pos + 2], 0x100) + Shift(data[pos + 1], 0x1_0000) + Shift(data[pos], 0x100_0000), pos + 4;
    }

    method ReadInt64() returns (err: ReadError, val: Int64)
      requires Valid()
      modifies `pos
      ensures Valid() && err == if SignedNumber(old(Left())).Short? then UnexpectedEof else Fine
      ensures err == Fine ==> val == SignedNumber(old(Left())).val && Left() == old(Left())[8..]
    {
      if |data| - pos < 8 {
        return UnexpectedEof, 0;
      }
      LongNumbers(Left()[..8]);
      PowersOf256();
      var word := data[pos + 7] + Shift(data[pos + 6], 0x100) + Shift(data[pos + 5], 0x1_0000) + Shift(data[pos + 4], 0x100_0000)
        + Shift(data[pos + 3], 0x1_0000_0000) + Shift(data[pos + 2], 0x100_0000_0000) + Shift(data[pos + 1], 0x1_0000_0000_0000)
        + Shift(data[pos], 0x100_0000_0000_0000);
      err, val, pos := Fine, Signed64(word), pos + 8;
    }

    method Skip(len: nat) returns (err: ReadError)
      requires Valid()
      modifies `pos
      ensures Valid() && err == if |old(Left())| < len then UnexpectedEof else Fine
      ensures err == Fine ==> Left() == old(Left())[len..]
    {
      if |data| - pos < len {
        return UnexpectedEof;
      }
      err, pos := Fine, pos + len;
    }
  }

  // ---- the reader and its visitor keep step ----

  function Opens(stack: seq<State>): nat {
    if |stack| == 0 then 0 else Opens(stack[..|stack| - 1]) + if stack[|stack| - 1].InValue? then 0 else 1
  }

  /** A container whose beginning is to be skipped has begun for the visitor alone. */
  predicate InStep(stack: seq<State>, skip: bool, open: nat) {
    open == Opens(stack) + if skip then 1 else 0
  }

  lemma OpensMore(stack: seq<State>, s: State)
    ensures Opens(stack + [s]) == Opens(stack) + if s.InValue? then 0 else 1
  {
    assert (stack + [s])[..|stack|] == stack;
  }

  /** A step tells at most one event, one the visitor can take, and both stay in step. */
  predicate KeepsStep(step: Step, open: nat) {
    && (step.Step? ==> |step.event| <= 1 && Balanced(open, step.event))
    && (step.Step? ==> InStep(step.stack, step.skip, if |step.event| == 0 then open else Opened(open, step.event[0])))
  }

  lemma TellsInStep(e: Event, used: nat, stack: seq<State>, skip: bool, open: nat)
    requires Opened(open, e) >= 0 && InStep(stack, skip, Opened(open, e))
    ensures KeepsStep(Yields(e, used, stack, skip), open)
  {
    assert [e][1..] == [];
  }

  /** A value that is no container leaves the states below it, and opens and closes nothing. */
  lemma ScalarTells(marker: Byte, s: Bytes, below: seq<State>, skip: bool, names: Naming)
    requires marker != OBJECT_BEGIN && marker != ARRAY_BEGIN
    ensures var step := ReadValue(marker, s, below, skip, names);
      && (step.Step? ==> step.stack == below && step.skip == skip)
      && (step.Step? && step.event != [] ==> Opened(1, step.event[0]) == 1)
      && (step.Step? && step.event != [] ==> step == Yields(step.event[0], step.used - 1, below, skip))
  {
  }

  lemma ValueInStep(marker: Byte, s: Bytes, below: seq<State>, skip: bool, names: Naming, open: nat)
    requires InStep(below, skip, open)
    ensures KeepsStep(ReadValue(marker, s, below, skip, names), open)
  {
    hide ReadNumber;
    hide ReadText;
    if marker == OBJECT_BEGIN {
      OpensMore(below, InObject);
      if !skip {
        TellsInStep(BeginObject, 0, below + [InObject], false, open);
      }
    } else if marker == ARRAY_BEGIN {
      OpensMore(below, InArray);
      TellsInStep(BeginArray, 0, below + [InArray], skip, open);
    } else {
      hide ReadValue;
      ScalarTells(marker, s, below, skip, names);
      var step := ReadValue(marker, s, below, skip, names);
      if step.Step? && step.event != [] {
        TellsInStep(step.event[0], step.used - 1, below, skip, open);
      }
    }
  }

  lemma MarkedInStep(marker: Byte, s: Bytes, stack: seq<State>, skip: bool, names: Naming, open: nat)
    requires |stack| > 0 && InStep(stack, skip, open)
    ensures KeepsStep(ReadMarked(marker, s, stack, skip, names), open)
  {
    hide ReadValue;
    var top, below := stack[|stack| - 1], stack[..|stack| - 1];
    if top.InValue? {
      ValueInStep(marker, s, below, skip, names, open);
    } else if marker == OBJECT_END {
      TellsInStep(if top.InObject? then EndObject else EndArray, 0, below, skip, open);
    } else if top.InArray? {
      ValueInStep(marker, s, stack, skip, names, open);
    } else {
      OpensMore(stack, InValue);
      var r := ReadText(marker, s, names);
      if r.Text? {
        TellsInStep(PropName(r.text), r.used, stack + [InValue], skip, open);
      }
    }
  }

  lemma WordInStep(s: Bytes, stack: seq<State>, skip: bool, names: Naming, open: nat)
    requires InStep(stack, skip, open)
    ensures KeepsStep(ReadWord(s, stack, skip, names), open)
  {
    hide KeepsStep;
    if |s| > 0 {
      var states := if |stack| == 0 then [InValue] else stack;
      OpensMore([], InValue);
      assert [] + [InValue] == [InValue];
      MarkedInStep(s[0], s[1..], states, skip, names, open);
    } else {
      NothingInStep(open);
    }
  }

  lemma NothingInStep(open: nat)
    ensures KeepsStep(Failed(UnexpectedEof), open)
  {
  }

  /** An outcome behind events already told. */
  function More(told: seq<Event>, o: Outcome): Outcome { Outcome(o.err, told + o.events, o.rest) }

  lemma ToldMore(told: seq<Event>, step: Step, o: Outcome, told': seq<Event>)
    requires step.Step? && told' == told + step.event
    ensures More(told', o) == More(told, Then(step, o))
  {
    assert told' + o.events == told + (step.event + o.events);
  }

  lemma ToldAll(told: seq<Event>, err: ReadError, rest: Bytes)
    ensures More(told, Outcome(err, [], rest)) == Outcome(err, told, rest)
  {
  }

  class ObjectReader {
    const reader: DataReader
    var stack: seq<State>
    var skipBegin: bool
    var tokenSet: Tokens.TokenSet?

    ghost function SetRepr(): set<object>
      reads this
    {
      if tokenSet == null then {} else {tokenSet, tokenSet.shared}
    }

    ghost predicate Valid()
      reads this, reader, SetRepr()
    {
      reader.Valid() && (tokenSet != null ==> tokenSet.Valid())
    }

    ghost function Names(): Naming
      reads this, SetRepr()
    {
      if tokenSet == null then Unnamed else Named(tokenSet.tokenVec)
    }

    constructor (data: Bytes, ts: Tokens.TokenSet?)
      requires ts != null ==> ts.Valid()
      ensures Valid() && fresh(reader) && reader.Left() == data && stack == [] && !skipBegin && tokenSet == ts
    {
      reader := new DataReader(data);
      stack, skipBegin, tokenSet := [], false, ts;
    }

    /** The state reached is the one of a step that has used `read` bytes already. */
    twostate predicate Took(step: Step, read: nat, err: ReadError, event: seq<Event>)
      requires old(reader.Valid()) && reader.Valid()
      reads this, reader
    {
      && tokenSet == old(tokenSet)
      && if step.Failed? then err == step.err != Fine && event == []
         else
           && err == Fine && event == step.event && stack == step.stack && skipBegin == step.skip
           && read <= step.used <= read + |old(reader.Left())| && reader.Left() == old(reader.Left())[step.used - read..]
    }

    method SkipBeginObj()
      requires Valid()
      modifies `skipBegin
      ensures Valid() && skipBegin
    {
      skipBegin := true;
    }

    /** Looks for the NUL and steps over it. */
    method ReadString() returns (err: ReadError, str: Bytes)
      requires reader.Valid()
      modifies reader`pos
      ensures reader.Valid()
      ensures var p := StringPiece(old(reader.Left()));
        if p.Short? then err == UnexpectedEof
        else err == Fine && str == p.val && p.used <= |old(reader.Left())| && reader.Left() == old(reader.Left())[p.used..]
    {
      var left := reader.Left();
      var n := 0;
      while true
        invariant 0 <= n <= |left| && StringLength(left) == n + StringLength(left[n..])
        decreases |left| - n
      {
        if n == |left| {
          return UnexpectedEof, [];
        }
        if left[n] == 0 {
          break;
        }
        assert left[n..][1..] == left[n + 1..];
        n := n + 1;
      }
      str := left[..n];
      err := reader.Skip(n + 1);
    }

    method ReadIntValue(marker: Byte) returns (err: ReadError, val: Int64)
      requires reader.Valid() && (ZERO_INT <= marker <= INT64 || marker == NEGATIVE_INT)
      modifies reader`pos
      ensures reader.Valid()
      ensures var p := ReadInt(marker, old(reader.Left()));
        if p.Short? then err == UnexpectedEof
        else err == Fine && val == p.val && p.used <= |old(reader.Left())| && reader.Left() == old(reader.Left())[p.used..]
    {
      err, val := Fine, 0;
      PowersOf256();
      if marker == ZERO_INT {
      } else if marker == UINT8 {
        var byte;
        err, byte := reader.ReadUInt8();
        Numbers(old(reader.Left())[..if err == Fine then 1 else 0]);
        val := byte;
      } else if marker == UINT16 {
        var word;
        err, word := reader.ReadUInt16();
        val := if err == Fine then word else 0;
      } else if marker == UINT32 {
        var word;
        err, word := reader.ReadUInt32();
        val := if err == Fine then word else 0;
      } else {
        err, val := reader.ReadInt64();
      }
    }

    method ReadDecimal() returns (err: ReadError, val: Int64)
      requires reader.Valid()
      modifies reader`pos
      ensures reader.Valid()
      ensures var p := SignedNumber(old(reader.Left()));
        if p.Short? then err == UnexpectedEof
        else err == Fine && val == p.val && p.used <= |old(reader.Left())| && reader.Left() == old(reader.Left())[p.used..]
    {
      err, val := reader.ReadInt64();
    }

    /** The size and the bytes of an extension are stepped over. */
    method ReadExtension() returns (err: ReadError)
      requires reader.Valid()
      modifies reader`pos
      ensures reader.Valid()
      ensures var p := Number(old(reader.Left()), 4);
        if p.Short? || |old(reader.Left())| < 4 + p.val then err == UnexpectedEof
        else err == Fine && reader.Left() == old(reader.Left())[4 + p.val..]
    {
      var extSize;
      err, extSize := reader.ReadUInt32();
      if err == Fine {
        err := reader.Skip(extSize);
      }
    }

    method TakeText(marker: Byte) returns (err: ReadError, str: Bytes)
      requires Valid()
      modifies reader`pos
      ensures Valid()
      ensures var r := ReadText(marker, old(reader.Left()), Names());
        if r.NoText? then err == r.err
        else err == Fine && str == r.text && reader.Left() == old(reader.Left())[r.used..]
    {
      if marker == STRING_VALUE {
        err, str := ReadString();
      } else if tokenSet == null {
        err, str := UnexpectedMarker, [];
      } else {
        var e;
        e, str := tokenSet.StringFromToken(marker);
        err := if e == Tokens.Fine then Fine else InvalidToken;
      }
    }

    method TakeNumber(marker: Byte) returns (err: ReadError, event: seq<Event>)
      requires Valid() && NEGATIVE_DECIMAL <= marker <= INT64
      modifies reader`pos
      ensures Valid()
      ensures Took(ReadNumber(marker, old(reader.Left()), old(stack), old(skipBegin)), 1, err, event)
    {
      var val;
      if marker == NEGATIVE_DECIMAL || marker == POSITIVE_DECIMAL {
        err, val := ReadDecimal();
        event := if err == Fine then [DecimalValue(val)] else [];
      } else {
        err, val := ReadIntValue(marker);
        event := if err == Fine then [IntValue(val)] else [];
      }
    }

    /** A value, once its state is gone from the stack. */
    method TakeValue(marker: Byte) returns (err: ReadError, event: seq<Event>)
      requires Valid()
      modifies this, reader`pos
      ensures Valid()
      ensures Took(ReadValue(marker, old(reader.Left()), old(stack), old(skipBegin), old(Names())), 1, err, event)
    {
      err, event := Fine, [];
      if marker == OBJECT_BEGIN {
        stack := stack + [InObject];
        if !skipBegin {
          event := [BeginObject];
        } else {
          skipBegin := false;
        }
      } else if marker == ARRAY_BEGIN {
        stack := stack + [InArray];
        event := [BeginArray];
      } else if marker == NULL_VALUE {
        event := [NullValue];
      } else if marker == TRUE_VALUE {
        event := [BoolValue(true)];
      } else if marker == FALSE_VALUE {
        event := [BoolValue(false)];
      } else if NEGATIVE_DECIMAL <= marker <= INT64 {
        err, event := TakeNumber(marker);
      } else if marker == EXTENSION {
        err := ReadExtension();
      } else {
        var str;
        err, str := TakeText(marker);
        event := if err == Fine then [StringValue(str)] else [];
      }
    }

    method TakeProp(marker: Byte) returns (err: ReadError, event: seq<Event>)
      requires Valid()
      modifies this, reader`pos
      ensures Valid()
      ensures Took(ReadProp(marker, old(reader.Left()), old(stack), old(skipBegin), old(Names())), 1, err, event)
    {
      var str;
      err, str := TakeText(marker);
      if err != Fine {
        return err, [];
      }
      event := [PropName(str)];
      stack := stack + [InValue];
    }

    /** The step of the innermost state; an array that sees a value pushes a state for it and does the step again. */
    method Dispatch(marker: Byte) returns (err: ReadError, event: seq<Event>)
      requires Valid() && |stack| > 0
      modifies this, reader`pos
      ensures Valid()
      ensures Took(ReadMarked(marker, old(reader.Left()), old(stack), old(skipBegin), old(Names())), 1, err, event)
      decreases stack[|stack| - 1].InArray?
    {
      match stack[|stack| - 1]
      case InValue =>
        stack := stack[..|stack| - 1];
        err, event := TakeValue(marker);
      case InObject =>
        if marker == OBJECT_END {
          err, event := Fine, [EndObject];
          stack := stack[..|stack| - 1];
        } else {
          err, event := TakeProp(marker);
        }
      case InArray =>
        if marker == OBJECT_END {
          err, event := Fine, [EndArray];
          stack := stack[..|stack| - 1];
        } else {
          ghost var below := stack;
          stack := stack + [InValue];
          assert stack[..|stack| - 1] == below;
          err, event := Dispatch(marker);
        }
    }

    /** One word: the event it stands for, if it stands for one. */
    method NextWord() returns (err: ReadError, event: seq<Event>)
      requires Valid()
      modifies this, reader`pos
      ensures Valid()
      ensures Took(ReadWord(old(reader.Left()), old(stack), old(skipBegin), old(Names())), 0, err, event)
    {
      if |stack| == 0 {
        stack := [InValue];
      }
      var marker;
      err, marker := reader.ReadUInt8();
      if err != Fine {
        return err, [];
      }
      err, event := Dispatch(marker);
    }

    /** One word, told to a visitor that has as many containers open as the reader. */
    method Next(visitor: ObjectBuilder) returns (err: ReadError)
      requires Valid() && visitor.Valid() && InStep(stack, skipBegin, |visitor.stack|)
      modifies this, reader`pos, visitor
      ensures Valid() && visitor.Valid() && tokenSet == old(tokenSet)
      ensures var step := ReadWord(old(reader.Left()), old(stack), old(skipBegin), old(Names()));
        if step.Failed? then err == step.err != Fine && visitor.State() == old(visitor.State())
        else
          && Took(step, 0, err, step.event)
          && Builds(old(visitor.State()), step.event, visitor.State())
          && InStep(stack, skipBegin, |visitor.stack|)
    {
      hide ReadMarked;
      WordInStep(reader.Left(), stack, skipBegin, Names(), |visitor.stack|);
      var event;
      err, event := NextWord();
      if err == Fine && |event| > 0 {
        BuildsOne(visitor.State(), event[0]);
        visitor.Visit(event[0]);
        assert event == [event[0]];
      }
    }

    /** Tells a visitor the words of one object. */
    method NextObject(visitor: ObjectBuilder) returns (err: ReadError)
      requires Valid() && visitor.Valid() && InStep(stack, skipBegin, |visitor.stack|)
      modifies this, reader`pos, visitor
      ensures Valid() && visitor.Valid() && tokenSet == old(tokenSet)
      ensures var o := ReadObject(old(reader.Left()), old(stack), old(skipBegin), old(Names()));
        && err == o.err && Builds(old(visitor.State()), o.events, visitor.State())
        && (err == Fine ==> reader.Left() == o.rest && stack == [])
    {
      hide ReadMarked;
      ghost var names, told := Names(), [];
      while true
        invariant Valid() && visitor.Valid() && InStep(stack, skipBegin, |visitor.stack|)
        invariant tokenSet == old(tokenSet) && Names() == names
        invariant Builds(old(visitor.State()), told, visitor.State())
        invariant More(told, ReadObject(reader.Left(), stack, skipBegin, names))
          == ReadObject(old(reader.Left()), old(stack), old(skipBegin), names)
        decreases |reader.Left()|
      {
        ghost var b, left := visitor.State(), reader.Left();
        ghost var step := ReadWord(left, stack, skipBegin, names);
        err := Next(visitor);
        if err != Fine {
          ToldAll(told, err, left);
          return;
        }
        BuildsThen(old(visitor.State()), told, b, step.event, visitor.State());
        ghost var before := told;
        told := told + step.event;
        if |stack| == 0 {
          return;
        }
        ToldMore(before, step, ReadObject(reader.Left(), stack, skipBegin, names), told);
      }
    }

    /** Tells a visitor all words there are. */
    method ReadToEnd(visitor: ObjectBuilder) returns (err: ReadError)
      requires Valid() && visitor.Valid() && InStep(stack, skipBegin, |visitor.stack|)
      modifies this, reader`pos, visitor
      ensures Valid() && visitor.Valid() && tokenSet == old(tokenSet)
      ensures var o := ReadAll(old(reader.Left()), old(stack), old(skipBegin), old(Names()));
        && err == o.err && Builds(old(visitor.State()), o.events, visitor.State())
    {
      hide ReadMarked;
      ghost var names, told := Names(), [];
      while |reader.data| > reader.pos
        invariant Valid() && visitor.Valid() && InStep(stack, skipBegin, |visitor.stack|)
        invariant tokenSet == old(tokenSet) && Names() == names
        invariant Builds(old(visitor.State()), told, visitor.State())
        invariant More(told, ReadAll(reader.Left(), stack, skipBegin, names))
          == ReadAll(old(reader.Left()), old(stack), old(skipBegin), names)
        decreases |reader.Left()|
      {
        ghost var b, left := visitor.State(), reader.Left();
        ghost var step := ReadWord(left, stack, skipBegin, names);
        err := Next(visitor);
        if err != Fine {
          ToldAll(told, err, left);
          return;
        }
        BuildsThen(old(visitor.State()), told, b, step.event, visitor.State());
        ghost var before := told;
        told := told + step.event;
        ToldMore(before, step, ReadAll(reader.Left(), stack, skipBegin, names), told);
      }
      ToldAll(told, Fine, []);
      err := Fine;
    }
  }
}
