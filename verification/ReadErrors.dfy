/** Exactly which bytes the reader refuses, and why. */
module ReadErrors {
  import opened Bytes
  import opened Reader

  /** Where no state is left a value is due. */
  function Due(stack: seq<State>): State { if |stack| == 0 then InValue else stack[|stack| - 1] }

  /** A marker of an integer or a decimal, and the bytes that belong behind it. */
  function Digits(marker: Byte): nat {
    match marker
    case 7 => 8
    case 8 => 8
    case 9 => 8
    case 11 => 1
    case 12 => 2
    case 13 => 4
    case 14 => 8
    case _ => 0
  }

  /** The buffer ends before the word that begins with a marker does. */
  predicate CutShort(marker: Byte, s: Bytes, due: State) {
    (marker == 4 && 0 !in s) || (!due.InObject? && (|s| < Digits(marker) || (marker == 15 && !Whole(s))))
  }

  /** An extension: four bytes tell its size. */
  predicate Whole(s: Bytes) { |s| >= 4 && |s| - 4 >= FromBigEndian(s[..4]) }

  /** No marker of what is due: a token, or nothing. */
  predicate Foreign(marker: Byte, due: State) {
    match due
    case InValue => marker == 0 || marker > 15
    case InObject => marker != 0 && marker != 4
    case InArray => marker > 15
  }

  predicate IsToken(marker: Byte, names: Naming) { names.Named? && 32 <= marker < 32 + |names.table| }

  lemma StringEnds(s: Bytes)
    ensures StringPiece(s).Short? <==> 0 !in s
  {
    var n := StringLength(s);
    if n == |s| {
      assert s[..n] == s;
    } else {
      assert s[n] in s;
    }
  }

  /** The error is the one whose condition holds; the conditions exclude each other. */
  predicate RightError(step: Step, marker: Byte, s: Bytes, due: State, names: Naming) {
    match step
    case Failed(UnexpectedEof) => CutShort(marker, s, due) && !Foreign(marker, due)
    case Failed(UnexpectedMarker) => Foreign(marker, due) && names.Unnamed?
    case Failed(InvalidToken) => Foreign(marker, due) && names.Named? && !IsToken(marker, names)
    case Failed(Fine) => false
    case Step(_, _, _, _) => !CutShort(marker, s, due) && (Foreign(marker, due) ==> IsToken(marker, names))
  }

  lemma ValueRefused(marker: Byte, s: Bytes, below: seq<State>, skip: bool, names: Naming)
    ensures RightError(ReadValue(marker, s, below, skip, names), marker, s, InValue, names)
  {
    hide StringLength;
    hide StringPiece;
    hide FromBigEndian;
    StringEnds(s);
  }

  lemma PropRefused(marker: Byte, s: Bytes, stack: seq<State>, skip: bool, names: Naming)
    requires marker != 0
    ensures RightError(ReadProp(marker, s, stack, skip, names), marker, s, InObject, names)
  {
    hide StringLength;
    hide StringPiece;
    StringEnds(s);
  }

  lemma InArrayToo(step: Step, marker: Byte, s: Bytes, names: Naming)
    requires marker != 0 && RightError(step, marker, s, InValue, names)
    ensures RightError(step, marker, s, InArray, names)
  {
  }

  /** Each error has its condition, and without one there is a word. */
  lemma RefusedExactly(s: Bytes, stack: seq<State>, skip: bool, names: Naming)
    ensures if |s| == 0 then ReadWord(s, stack, skip, names) == Failed(UnexpectedEof)
      else RightError(ReadWord(s, stack, skip, names), s[0], s[1..], Due(stack), names)
  {
    hide ReadValue;
    hide ReadProp;
    hide RightError;
    if |s| > 0 {
      var marker, rest, states := s[0], s[1..], if |stack| == 0 then [InValue] else stack;
      var below := states[..|states| - 1];
      if Due(stack).InValue? {
        ValueRefused(marker, rest, below, skip, names);
      } else if marker == 0 {
        EndTaken(marker, rest, states, skip, names);
      } else if Due(stack).InObject? {
        PropRefused(marker, rest, states, skip, names);
      } else {
        ValueRefused(marker, rest, states, skip, names);
        InArrayToo(ReadValue(marker, rest, states, skip, names), marker, rest, names);
      }
    }
  }

  lemma EndTaken(marker: Byte, s: Bytes, stack: seq<State>, skip: bool, names: Naming)
    requires |stack| > 0 && !Due(stack).InValue? && marker == 0
    ensures RightError(ReadMarked(marker, s, stack, skip, names), marker, s, Due(stack), names)
  {
  }

  /** What a reader of another version may have written is passed over without an event. */
  lemma ExtensionPassed(s: Bytes, stack: seq<State>, skip: bool, names: Naming)
    requires |s| > 0 && s[0] == 15 && !Due(stack).InObject? && Whole(s[1..])
    ensures ReadWord(s, stack, skip, names) ==
      Step([], 5 + FromBigEndian(s[1..5]), if |stack| > 0 && Due(stack).InValue? then stack[..|stack| - 1] else stack, skip)
  {
    assert s[1..][..4] == s[1..5];
  }
}
