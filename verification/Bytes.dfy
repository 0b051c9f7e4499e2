/** Byte strings and their order. */
module Bytes {

  type Byte = b: int | 0 <= b < 256
  type Bytes = seq<Byte>

  function Min(a: int, b: int): int { if a < b then a else b }

  /** Positive, zero or negative as the first string is above, equal to or below the second. */
  function Lex(a: Bytes, b: Bytes): int {
    if |a| == 0 || |b| == 0 then |a| - |b|
    else if a[0] != b[0] then a[0] - b[0]
    else Lex(a[1..], b[1..])
  }

  function Sign(n: int): int { if n < 0 then -1 else if n > 0 then 1 else 0 }

  /** The loop of the key comparison. */
  method LexicalCompare(data1: Bytes, data2: Bytes) returns (r: int)
    ensures r == Lex(data1, data2)
  {
    var i := 0;
    while i != Min(|data1|, |data2|)
      invariant 0 <= i <= Min(|data1|, |data2|)
      invariant Lex(data1, data2) == Lex(data1[i..], data2[i..])
    {
      if data1[i] != data2[i] {
        var x: int, y: int := data1[i], data2[i];
        return x - y;
      }
      assert data1[i..][1..] == data1[i + 1..] && data2[i..][1..] == data2[i + 1..];
      i := i + 1;
    }
    return |data1| - |data2|;
  }

  // ---- the order is total ----

  lemma LexZero(a: Bytes, b: Bytes)
    ensures Lex(a, b) == 0 <==> a == b
  {
    if |a| > 0 && |b| > 0 && a[0] == b[0] {
      LexZero(a[1..], b[1..]);
      assert a == [a[0]] + a[1..] && b == [b[0]] + b[1..];
    }
  }

  lemma LexFlip(a: Bytes, b: Bytes)
    ensures Lex(b, a) == -Lex(a, b)
  {
  }

  lemma LexTrans(a: Bytes, b: Bytes, c: Bytes)
    requires Lex(a, b) <= 0 && Lex(b, c) <= 0
    ensures Lex(a, c) <= 0
    ensures Lex(a, b) < 0 || Lex(b, c) < 0 ==> Lex(a, c) < 0
  {
    if |a| > 0 && |b| > 0 && |c| > 0 && a[0] == b[0] == c[0] {
      LexTrans(a[1..], b[1..], c[1..]);
    }
  }

  lemma LexPrefix(p: Bytes, a: Bytes, b: Bytes)
    ensures Lex(p + a, p + b) == Lex(a, b)
  {
    if |p| == 0 {
      assert p + a == a && p + b == b;
    } else {
      assert (p + a)[1..] == p[1..] + a && (p + b)[1..] == p[1..] + b;
      LexPrefix(p[1..], a, b);
    }
  }

  lemma LexExtended(a: Bytes, x: Bytes)
    ensures Lex(a, a + x) == -|x|
  {
    assert a + [] == a;
    LexPrefix(a, [], x);
  }

  /** In ascending order, without repetition. */
  predicate Ascending(keys: seq<Bytes>) {
    forall i, j :: 0 <= i < j < |keys| ==> Lex(keys[i], keys[j]) < 0
  }

  // ---- below at a byte both have ----

  /** `a` is below `b` at the first byte where they differ, and both have that byte. */
  predicate Under(a: Bytes, b: Bytes) {
    |a| > 0 && |b| > 0 && (a[0] < b[0] || (a[0] == b[0] && Under(a[1..], b[1..])))
  }

  lemma PrefixNotUnder(a: Bytes, b: Bytes)
    requires a <= b
    ensures !Under(a, b) && !Under(b, a)
  {
    if |a| > 0 {
      assert a[1..] <= b[1..];
      PrefixNotUnder(a[1..], b[1..]);
    }
  }

  lemma UnderIsBelow(a: Bytes, b: Bytes)
    requires Under(a, b)
    ensures Lex(a, b) < 0 && Lex(b, a) > 0
  {
    if a[0] == b[0] {
      UnderIsBelow(a[1..], b[1..]);
    }
  }

  /** What follows does not matter. */
  lemma UnderExtended(a: Bytes, b: Bytes, x: Bytes, y: Bytes)
    requires Under(a, b)
    ensures Under(a + x, b + y)
  {
    if a[0] == b[0] {
      UnderExtended(a[1..], b[1..], x, y);
      assert (a + x)[1..] == a[1..] + x && (b + y)[1..] == b[1..] + y;
    }
  }

  lemma UnderAfter(p: Bytes, a: Bytes, b: Bytes)
    requires Under(a, b)
    ensures Under(p + a, p + b)
  {
    if |p| == 0 {
      assert p + a == a && p + b == b;
    } else {
      UnderAfter(p[1..], a, b);
      assert (p + a)[1..] == p[1..] + a && (p + b)[1..] == p[1..] + b;
    }
  }

  /** Two strings are the same, one is under the other, or one begins the other. */
  lemma UnderOrPrefix(a: Bytes, b: Bytes)
    ensures Under(a, b) || Under(b, a) || a <= b || b <= a
  {
    if |a| > 0 && |b| > 0 && a[0] == b[0] {
      UnderOrPrefix(a[1..], b[1..]);
      assert a == [a[0]] + a[1..] && b == [b[0]] + b[1..];
    }
  }

  // ---- big-endian numbers ----

  function Pow256(w: nat): nat { if w == 0 then 1 else 256 * Pow256(w - 1) }

  lemma PowersOf256()
    ensures Pow256(1) == 0x100 && Pow256(2) == 0x1_0000 && Pow256(4) == 0x1_0000_0000 && Pow256(8) == 0x1_0000_0000_0000_0000
  {
    assert Pow256(4) == 256 * (256 * (256 * (256 * Pow256(0))));
    assert Pow256(8) == 256 * (256 * (256 * (256 * Pow256(4))));
  }

  function BigEndian(n: nat, w: nat): (s: Bytes)
    ensures |s| == w
  {
    if w == 0 then [] else BigEndian(n / 256, w - 1) + [n % 256]
  }

  function FromBigEndian(s: Bytes): (n: nat)
    ensures n < Pow256(|s|)
  {
    if |s| == 0 then 0 else 256 * FromBigEndian(s[..|s| - 1]) + s[|s| - 1]
  }

  lemma BigEndianReads(n: nat, w: nat)
    requires n < Pow256(w)
    ensures FromBigEndian(BigEndian(n, w)) == n
  {
    if w > 0 {
      BigEndianReads(n / 256, w - 1);
      assert BigEndian(n, w)[..w - 1] == BigEndian(n / 256, w - 1);
    }
  }

  lemma BigEndianOrder(n: nat, m: nat, w: nat)
    requires n < m < Pow256(w)
    ensures Under(BigEndian(n, w), BigEndian(m, w))
  {
    if n / 256 < m / 256 {
      BigEndianOrder(n / 256, m / 256, w - 1);
      UnderExtended(BigEndian(n / 256, w - 1), BigEndian(m / 256, w - 1), [n % 256], [m % 256]);
    } else {
      assert n / 256 == m / 256;
      UnderAfter(BigEndian(n / 256, w - 1), [n % 256], [m % 256]);
    }
  }
}
