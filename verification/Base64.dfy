/** Bytes as text: six bits a character, in an alphabet that keeps the order of the bytes or in that of MIME. */
module Base64 {
  import opened Bytes
  import V = Values
  import ValueOrder

  type Sextet = b: Byte | b < 64

  const NO_VALUE: Byte := 255

  /** The character of each sextet, and the sextet of each character or that there is none. */
  datatype Alphabet = Alphabet(chars: string, vals: seq<Byte>)

  /** Some characters from one on. */
  function Run(first: char, n: nat): (s: string)
    requires first as int + n <= 128
  {
    seq(n, i requires 0 <= i < n => (first as int + i) as char)
  }

  function Count(first: Byte, n: nat): seq<Byte>
    requires first + n <= 256
  {
    seq(n, i requires 0 <= i < n => first + i)
  }

  function Gap(n: nat): seq<Byte> { seq(n, _ => NO_VALUE) }

  /** The characters of this alphabet ascend. */
  const ORDERED := Alphabet(
    "+" + Run('0', 10) + Run('A', 26) + "_" + Run('a', 26),
    Gap(43) + [0] + Gap(4) + Count(1, 10) + Gap(7) + Count(11, 26) + Gap(4) + [37] + Gap(1) + Count(38, 26))

  const MIME := Alphabet(
    Run('A', 26) + Run('a', 26) + Run('0', 10) + "+/",
    Gap(43) + [62] + Gap(3) + [63] + Count(52, 10) + Gap(7) + Count(0, 26) + Gap(6) + Count(26, 26))

  /** The second table undoes the first, and no character is the padding. */
  predicate Sound(t: Alphabet) {
    && |t.chars| == 64 && |t.vals| == 123
    && (forall i :: 0 <= i < 64 ==> t.chars[i] as int < |t.vals| && t.vals[t.chars[i] as int] == i && t.chars[i] != '=')
    && (forall c :: 0 <= c < |t.vals| && t.vals[c] != NO_VALUE ==> t.vals[c] < 64)
  }

  /** The first table undoes the second. */
  predicate Inverse(t: Alphabet)
    requires Sound(t)
  {
    forall c :: 0 <= c < |t.vals| && t.vals[c] != NO_VALUE ==> t.chars[t.vals[c]] as int == c
  }

  function OrderedCode(i: Sextet): int {
    if i == 0 then 43 else if i <= 10 then 47 + i else if i <= 36 then 54 + i else if i == 37 then 95 else 59 + i
  }

  lemma OrderedCodes()
    ensures |ORDERED.chars| == 64 && |ORDERED.vals| == 123
    ensures forall i: Sextet :: ORDERED.chars[i] as int == OrderedCode(i)
  {
  }

  lemma OrderedSound()
    ensures Sound(ORDERED) && Inverse(ORDERED)
  {
    OrderedCodes();
    forall i | 0 <= i < 64 ensures ORDERED.vals[OrderedCode(i)] == i {
    }
    forall c | 0 <= c < 123 && ORDERED.vals[c] != NO_VALUE ensures ORDERED.vals[c] < 64 && OrderedCode(ORDERED.vals[c]) == c {
    }
  }

  lemma SoundSize(t: Alphabet)
    requires Sound(t)
    ensures |t.chars| == 64 && |t.vals| == 123
  {
  }

  /** Table 1 of RFC 4648: capitals, small letters, digits, plus and slash. */
  function MimeCode(i: Sextet): int {
    if i < 26 then 65 + i else if i < 52 then 71 + i else if i < 62 then i - 4 else if i == 62 then 43 else 47
  }

  lemma MimeCodes()
    ensures |MIME.chars| == 64 && forall i: Sextet :: MIME.chars[i] as int == MimeCode(i)
  {
  }

  lemma MimeSound()
    ensures Sound(MIME) && Inverse(MIME)
  {
  }

  // ---- numbers made of digits ----

  lemma Div4(q: int, r: int)
    requires 0 <= r < 4
    ensures (4 * q + r) / 4 == q && (4 * q + r) % 4 == r
  {
  }

  lemma Div16(q: int, r: int)
    requires 0 <= r < 16
    ensures (16 * q + r) / 16 == q && (16 * q + r) % 16 == r
  {
  }

  lemma Div64(q: int, r: int)
    requires 0 <= r < 64
    ensures (64 * q + r) / 64 == q && (64 * q + r) % 64 == r
  {
  }

  lemma Div256(q: int, r: int)
    requires 0 <= r < 256
    ensures (256 * q + r) / 256 == q && (256 * q + r) % 256 == r
  {
  }

  lemma Div4096(q: int, r: int)
    requires 0 <= r < 4096
    ensures (4096 * q + r) / 4096 == q
  {
  }

  lemma Div65536(q: int, r: int)
    requires 0 <= r < 65536
    ensures (65536 * q + r) / 65536 == q
  {
  }

  lemma Div262144(q: int, r: int)
    requires 0 <= r < 262144
    ensures (262144 * q + r) / 262144 == q
  {
  }

  // ---- sextets of bytes, bytes of sextets ----

  /** The byte there, or zero behind the end. */
  function ByteAt(s: Bytes, i: nat): Byte { if i < |s| then s[i] else 0 }

  /** The sextets of three bytes: that many sixes of bits from the start of them. */
  function SextetAt(s: Bytes, group: nat, r: nat): Sextet {
    var i := 3 * group;
    match r
    case 0 => ByteAt(s, i) / 4
    case 1 => ByteAt(s, i) % 4 * 16 + ByteAt(s, i + 1) / 16
    case 2 => ByteAt(s, i + 1) % 16 * 4 + ByteAt(s, i + 2) / 64
    case _ => ByteAt(s, i + 2) % 64
  }

  /** As many sextets as the bytes have bits in. */
  function Sextets(s: Bytes): (x: seq<Sextet>) {
    seq((4 * |s| + 2) / 3, k requires 0 <= k => SextetAt(s, k / 4, k % 4))
  }

  function OctetAt(x: seq<Sextet>, group: nat, r: nat): Byte
    requires 4 * group + r + 1 < |x| && r < 3
  {
    var hi: int, lo: int := x[4 * group + r], x[4 * group + r + 1];
    match r
    case 0 => hi * 4 + lo / 16
    case 1 => hi % 16 * 16 + lo / 4
    case _ => hi % 4 * 64 + lo
  }

  lemma OctetInside(n: nat, i: nat)
    requires i < n * 3 / 4
    ensures 4 * (i / 3) + i % 3 + 1 < n
  {
  }

  /** As many bytes as the sextets are full of. */
  function Octets(x: seq<Sextet>): Bytes {
    seq(|x| * 3 / 4, i requires 0 <= i < |x| * 3 / 4 => (OctetInside(|x|, i); OctetAt(x, i / 3, i % 3)))
  }

  lemma SextetThere(s: Bytes, group: nat, r: nat)
    requires r < 4 && 4 * group + r < |Sextets(s)|
    ensures Sextets(s)[4 * group + r] == SextetAt(s, group, r)
  {
    assert (4 * group + r) / 4 == group && (4 * group + r) % 4 == r;
  }

  lemma OctetsOfSextets(s: Bytes)
    ensures Octets(Sextets(s)) == s
  {
    var x := Sextets(s);
    assert |x| * 3 / 4 == |s|;
    forall i | 0 <= i < |s| ensures Octets(x)[i] == s[i] {
      OctetInside(|x|, i);
      OctetOfSextets(s, i / 3, i % 3);
    }
  }

  lemma OctetOfSextets(s: Bytes, group: nat, r: nat)
    requires r < 3 && 3 * group + r < |s| && 4 * group + r + 1 < |Sextets(s)|
    ensures OctetAt(Sextets(s), group, r) == s[3 * group + r]
  {
    SextetThere(s, group, r);
    SextetThere(s, group, r + 1);
    hide Sextets;
    OctetOfGroup(s, group, r, SextetAt(s, group, r), SextetAt(s, group, r + 1));
    hide SextetAt;
  }

  /** What two neighbouring sextets of three bytes have of one of the bytes. */
  lemma OctetOfGroup(s: Bytes, group: nat, r: nat, hi: int, lo: int)
    requires r < 3 && 3 * group + r < |s| && hi == SextetAt(s, group, r) && lo == SextetAt(s, group, r + 1)
    ensures s[3 * group + r] == (match r case 0 => hi * 4 + lo / 16 case 1 => hi % 16 * 16 + lo / 4 case _ => hi % 4 * 64 + lo)
  {
    if r == 0 {
      FirstOctet(s[3 * group], ByteAt(s, 3 * group + 1));
    } else if r == 1 {
      SecondOctet(s[3 * group], s[3 * group + 1], ByteAt(s, 3 * group + 2));
    } else {
      ThirdOctet(s[3 * group + 1], s[3 * group + 2]);
    }
  }

  lemma FirstOctet(a: Byte, b: Byte)
    ensures a / 4 * 4 + (a % 4 * 16 + b / 16) / 16 == a
  {
    Div16(a % 4, b / 16);
  }

  lemma SecondOctet(a: Byte, b: Byte, c: Byte)
    ensures (a % 4 * 16 + b / 16) % 16 * 16 + (b % 16 * 4 + c / 64) / 4 == b
  {
    Div16(a % 4, b / 16);
    Div4(b % 16, c / 64);
  }

  lemma ThirdOctet(b: Byte, c: Byte)
    ensures (b % 16 * 4 + c / 64) % 4 * 64 + c % 64 == c
  {
    Div4(b % 16, c / 64);
  }

  // ---- text ----

  function Chars(t: Alphabet, x: seq<Sextet>): string
    requires Sound(t)
  {
    seq(|x|, k requires 0 <= k < |x| => t.chars[x[k]])
  }

  function Padding(n: nat): string {
    match n % 3
    case 0 => ""
    case 1 => "=="
    case _ => "="
  }

  function Encode(t: Alphabet, s: Bytes, pad: bool): string
    requires Sound(t)
  {
    Chars(t, Sextets(s)) + if pad then Padding(|s|) else ""
  }

  function WithoutPad(text: string): string {
    if |text| > 0 && text[|text| - 1] == '=' then text[..|text| - 1] else text
  }

  /** The text without one or two pads at the end. */
  function Trim(text: string): string { WithoutPad(WithoutPad(text)) }

  predicate Valued(t: Alphabet, text: string) {
    forall i :: 0 <= i < |text| ==> text[i] as int < |t.vals| && t.vals[text[i] as int] != NO_VALUE
  }

  function Values(t: Alphabet, text: string): seq<Sextet>
    requires Sound(t) && Valued(t, text)
  {
    seq(|text|, i requires 0 <= i < |text| => t.vals[text[i] as int])
  }

  datatype Decoding = Bad | Good(bytes: Bytes)

  /** No bytes are had from text with another character in it, or with one character over. */
  function Decode(t: Alphabet, text: string): Decoding
    requires Sound(t)
  {
    var trimmed := Trim(text);
    if Valued(t, trimmed) && |trimmed| % 4 != 1 then Good(Octets(Values(t, trimmed))) else Bad
  }

  /** A text behind which there are at most two pads. */
  predicate PadsBehind(text: string, n: nat) {
    n <= |text| <= n + 2 && forall i :: n <= i < |text| ==> text[i] == '='
  }

  predicate Lettered(t: Alphabet, text: string) { forall c :: c in text ==> c in t.chars }

  /** Just texts of the alphabet's characters are decoded, but for one or two pads behind, and not with one character over. */
  lemma DecodedExactly(t: Alphabet, text: string)
    requires Sound(t) && Inverse(t)
    ensures Decode(t, text).Good? <==> exists n: nat :: PadsBehind(text, n) && Lettered(t, text[..n]) && n % 4 != 1
  {
    hide Octets;
    hide Inverse;
    var trimmed := Trim(text);
    var n := |trimmed|;
    ValuedLettered(t, trimmed);
    TrimmedPads(text);
    if m: nat :| PadsBehind(text, m) && Lettered(t, text[..m]) && m % 4 != 1 {
      NoPadLeft(t, text, m);
    }
  }

  lemma ValuedLettered(t: Alphabet, text: string)
    requires Sound(t) && Inverse(t)
    ensures Valued(t, text) <==> Lettered(t, text)
  {
    if Valued(t, text) {
      forall c | c in text ensures c in t.chars {
        assert t.chars[t.vals[c as int]] as int == c as int;
      }
    }
    if Lettered(t, text) {
      forall i | 0 <= i < |text| ensures text[i] as int < |t.vals| && t.vals[text[i] as int] != NO_VALUE {
        assert text[i] in t.chars;
      }
    }
  }

  lemma TrimmedPads(text: string)
    ensures PadsBehind(text, |Trim(text)|) && Trim(text) == text[..|Trim(text)|]
  {
  }

  lemma NoPadLeft(t: Alphabet, text: string, m: nat)
    requires Sound(t) && PadsBehind(text, m) && Lettered(t, text[..m])
    ensures Trim(text) == text[..m]
  {
    if m > 0 {
      assert text[..m][m - 1] in text[..m];
      assert text[m - 1] != '=';
    }
  }

  /** What was encoded is decoded, with padding or without. */
  lemma DecodesEncoded(t: Alphabet, s: Bytes, pad: bool)
    requires Sound(t)
    ensures Decode(t, Encode(t, s, pad)) == Good(s)
  {
    var x := Sextets(s);
    TrimsEncoded(t, s, pad);
    CharsValued(t, x);
    OctetsOfSextets(s);
    NoneOver(s);
    assert |Chars(t, x)| == |x|;
    hide Sextets;
    hide Octets;
    hide Trim;
    hide Sound;
    hide Encode;
    hide Chars;
    hide Valued;
    hide Values;
  }

  lemma NoneOver(s: Bytes)
    ensures |Sextets(s)| % 4 != 1
  {
    ThirdsOver(|s| / 3, |s| % 3);
    Div4(|s| / 3, if |s| % 3 == 0 then 0 else |s| % 3 + 1);
  }

  lemma TrimsEncoded(t: Alphabet, s: Bytes, pad: bool)
    requires Sound(t)
    ensures Trim(Encode(t, s, pad)) == Chars(t, Sextets(s))
  {
    CharsValued(t, Sextets(s));
    TrimsPadding(Chars(t, Sextets(s)), if pad then Padding(|s|) else "");
    hide Sextets;
    hide Trim;
    hide Sound;
  }

  lemma CharsValued(t: Alphabet, x: seq<Sextet>)
    requires Sound(t)
    ensures Valued(t, Chars(t, x)) && Values(t, Chars(t, x)) == x
    ensures forall i :: 0 <= i < |x| ==> Chars(t, x)[i] != '='
  {
    var chars := Chars(t, x);
    forall i | 0 <= i < |chars|
      ensures chars[i] != '=' && chars[i] as int < |t.vals| && t.vals[chars[i] as int] == x[i] && t.vals[chars[i] as int] != NO_VALUE
    {
      CharValued(t, x[i]);
    }
    hide Sound;
  }

  lemma CharValued(t: Alphabet, b: Sextet)
    requires Sound(t)
    ensures t.chars[b] as int < |t.vals| && t.vals[t.chars[b] as int] == b && t.chars[b] != '='
  {
  }

  lemma TrimsPadding(chars: string, padding: string)
    requires forall i :: 0 <= i < |chars| ==> chars[i] != '='
    requires padding in {"", "=", "=="}
    ensures Trim(chars + padding) == chars
  {
    var text := chars + padding;
    if padding == "==" {
      assert text[..|text| - 1] == chars + "=";
      assert (chars + "=")[..|chars|] == chars;
    } else if padding == "=" {
      assert text[..|text| - 1] == chars;
    } else {
      assert text == chars;
    }
  }

  // ---- into a buffer ----

  datatype Outcome = InsufficientBuf | InvalidBase64Data | Done(size: nat)

  function EncodedLenMax(srcSize: nat): nat { (srcSize + 2) / 3 * 4 }

  function DecodedSizeMax(encodedLen: nat): nat { (encodedLen + 3) / 4 * 3 }

  lemma EncodedLength(t: Alphabet, s: Bytes, pad: bool)
    requires Sound(t)
    ensures EncodedLenMax(|s|) - 2 <= |Encode(t, s, pad)| <= EncodedLenMax(|s|)
    ensures pad || |s| % 3 == 0 ==> |Encode(t, s, pad)| == EncodedLenMax(|s|)
  {
    assert |Encode(t, s, pad)| == (4 * |s| + 2) / 3 + if pad then |Padding(|s|)| else 0;
    ThirdsOver(|s| / 3, |s| % 3);
    hide Encode;
  }

  lemma ThirdsOver(q: nat, r: nat)
    requires r < 3
    ensures (3 * q + r + 2) / 3 == (if r == 0 then q else q + 1)
    ensures (4 * (3 * q + r) + 2) / 3 == 4 * q + (if r == 0 then 0 else r + 1)
  {
  }

  /** Three bytes taken as one number. */
  function Chunk(a: int, b: int, c: int): int { a * 65536 + b * 256 + c }

  /** One of the four sextets of such a number. */
  function Part(chunk: int, k: nat): Sextet
    requires 0 <= chunk < 16777216
  {
    match k
    case 0 => chunk / 262144
    case 1 => chunk / 4096 % 64
    case 2 => chunk / 64 % 64
    case _ => chunk % 64
  }

  lemma ChunkSextets(a: Byte, b: Byte, c: Byte)
    ensures var chunk := Chunk(a, b, c);
      && 0 <= chunk < 16777216 && chunk / 262144 == a / 4 && chunk / 4096 % 64 == a % 4 * 16 + b / 16
      && chunk / 64 % 64 == b % 16 * 4 + c / 64 && chunk % 64 == c % 64
  {
    DigitsOfChunk(a / 4, a % 4, b / 16, b % 16, c / 64, c % 64);
    hide Chunk;
  }

  lemma DigitsOfChunk(a1: int, a0: int, b1: int, b0: int, c1: int, c0: int)
    requires 0 <= a1 < 64 && 0 <= a0 < 4 && 0 <= b1 < 16 && 0 <= b0 < 16 && 0 <= c1 < 4 && 0 <= c0 < 64
    ensures var chunk := Chunk(4 * a1 + a0, 16 * b1 + b0, 64 * c1 + c0);
      && 0 <= chunk < 16777216 && chunk / 262144 == a1 && chunk / 4096 % 64 == a0 * 16 + b1
      && chunk / 64 % 64 == b0 * 4 + c1 && chunk % 64 == c0
  {
    Div262144(a1, 65536 * a0 + 4096 * b1 + 256 * b0 + 64 * c1 + c0);
    Div4096(64 * a1 + 16 * a0 + b1, 256 * b0 + 64 * c1 + c0);
    Div64(a1, 16 * a0 + b1);
    Div64(4096 * a1 + 1024 * a0 + 64 * b1 + 4 * b0 + c1, c0);
    Div64(64 * a1 + 16 * a0 + b1, 4 * b0 + c1);
  }

  lemma CharThere(t: Alphabet, s: Bytes, pad: bool, group: nat, r: nat)
    requires Sound(t) && r < 4 && 4 * group + r < |Sextets(s)|
    ensures 4 * group + r < |Encode(t, s, pad)| && Encode(t, s, pad)[4 * group + r] == t.chars[SextetAt(s, group, r)]
  {
    SextetThere(s, group, r);
    hide SextetAt;
    hide Sextets;
  }

  /** So much of some text has been put into the buffer. */
  ghost predicate Written<T>(buf: seq<T>, was: seq<T>, text: seq<T>, dest: nat) {
    |buf| == |was| && dest <= |text| <= |was| && buf[..dest] == text[..dest] && buf[dest..] == was[dest..]
  }

  method Put<T>(bufOut: array<T>, dest: nat, c: T, ghost was: seq<T>, ghost text: seq<T>) returns (dest': nat)
    requires Written(bufOut[..], was, text, dest) && dest < |text| && text[dest] == c
    modifies bufOut
    ensures dest' == dest + 1 && Written(bufOut[..], was, text, dest')
  {
    bufOut[dest] := c;
    dest' := dest + 1;
    assert bufOut[..][..dest'] == text[..dest] + [c];
  }

  lemma AllWritten<T>(buf: seq<T>, was: seq<T>, text: seq<T>)
    requires Written(buf, was, text, |text|)
    ensures |text| <= |was| && buf == text + was[|text|..]
  {
    assert buf == buf[..|text|] + buf[|text|..];
  }

  /** The text behind that of whole threes. */
  lemma TextOver(t: Alphabet, s: Bytes, pad: bool, group: nat)
    requires Sound(t) && 3 * group <= |s| < 3 * group + 3
    ensures var text, over := Encode(t, s, pad), |s| - 3 * group;
      && |text| == 4 * group + (if over == 0 then 0 else if pad then 4 else over + 1)
      && (over == 1 && pad ==> text[4 * group + 2] == '=') && (over != 0 && pad ==> text[4 * group + 3] == '=')
  {
    assert |s| % 3 == |s| - 3 * group;
    assert |Sextets(s)| == (4 * |s| + 2) / 3;
    hide Sextets;
  }

  method EncodeImpl(t: Alphabet, src: Bytes, bufOut: array<char>, pad: bool) returns (r: Outcome)
    requires Sound(t)
    modifies bufOut
    ensures bufOut.Length < EncodedLenMax(|src|) ==> r == InsufficientBuf && bufOut[..] == old(bufOut[..])
    ensures var text := Encode(t, src, pad);
      bufOut.Length >= EncodedLenMax(|src|) ==>
        r == Done(|text|) && |text| <= bufOut.Length && bufOut[..] == text + old(bufOut[..])[|text|..]
  {
    var maxOut := EncodedLenMax(|src|);
    if bufOut.Length < maxOut {
      return InsufficientBuf;
    }
    ghost var text, was := Encode(t, src, pad), bufOut[..];
    EncodedLength(t, src, pad);
    hide Encode;
    hide Sextets;
    hide Written;
    hide Chunk;
    hide Part;
    hide Sound;
    SoundSize(t);
    var pos, dest := 0, 0;
    ghost var group := 0;
    NoneWritten(was, text);
    while |src| - pos > 2
      invariant pos == 3 * group <= |src| && dest == 4 * group && Written(bufOut[..], was, text, dest)
    {
      var chunk := Chunk(src[pos], src[pos + 1], src[pos + 2]);
      CharsThere(t, src, pad, group, chunk);
      dest := Put(bufOut, dest, t.chars[Part(chunk, 0)], was, text);
      dest := Put(bufOut, dest, t.chars[Part(chunk, 1)], was, text);
      dest := Put(bufOut, dest, t.chars[Part(chunk, 2)], was, text);
      dest := Put(bufOut, dest, t.chars[Part(chunk, 3)], was, text);
      pos, group := pos + 3, group + 1;
    }
    dest := EncodeRest(t, src, bufOut, pad, pos, dest, group, was);
    AllWritten(bufOut[..], was, text);
    r := Done(dest);
  }

  /** The bytes left when less than three are. */
  method EncodeRest(t: Alphabet, src: Bytes, bufOut: array<char>, pad: bool, pos: nat, dest: nat, ghost group: nat, ghost was: string)
    returns (dest': nat)
    requires Sound(t) && pos == 3 * group <= |src| < pos + 3 && dest == 4 * group
    requires Written(bufOut[..], was, Encode(t, src, pad), dest)
    modifies bufOut
    ensures dest' == |Encode(t, src, pad)| && Written(bufOut[..], was, Encode(t, src, pad), dest')
  {
    ghost var text := Encode(t, src, pad);
    SoundSize(t);
    TextOver(t, src, pad, group);
    hide Encode;
    hide Sextets;
    hide Written;
    hide Chunk;
    hide Part;
    hide Sound;
    dest' := dest;
    if |src| - pos == 2 {
      var chunk := Chunk(src[pos], src[pos + 1], 0);
      CharsThere(t, src, pad, group, chunk);
      dest' := Put(bufOut, dest', t.chars[Part(chunk, 0)], was, text);
      dest' := Put(bufOut, dest', t.chars[Part(chunk, 1)], was, text);
      dest' := Put(bufOut, dest', t.chars[Part(chunk, 2)], was, text);
      if pad {
        dest' := Put(bufOut, dest', '=', was, text);
      }
    } else if |src| - pos == 1 {
      var chunk := Chunk(src[pos], 0, 0);
      CharsThere(t, src, pad, group, chunk);
      dest' := Put(bufOut, dest', t.chars[Part(chunk, 0)], was, text);
      dest' := Put(bufOut, dest', t.chars[Part(chunk, 1)], was, text);
      if pad {
        dest' := Put(bufOut, dest', '=', was, text);
        dest' := Put(bufOut, dest', '=', was, text);
      }
    }
  }

  lemma NoneWritten<T>(was: seq<T>, text: seq<T>)
    requires |text| <= |was|
    ensures Written(was, was, text, 0)
  {
  }

  /** The characters of the next three bytes, or of those left, are those of the chunk they make. */
  lemma CharsThere(t: Alphabet, s: Bytes, pad: bool, group: nat, chunk: int)
    requires Sound(t) && 3 * group < |s|
    requires chunk == Chunk(s[3 * group], ByteAt(s, 3 * group + 1), ByteAt(s, 3 * group + 2))
    ensures 0 <= chunk < 16777216
    ensures var text, left := Encode(t, s, pad), |s| - 3 * group;
      && (4 * group + 1 < |text| && text[4 * group] == t.chars[Part(chunk, 0)] && text[4 * group + 1] == t.chars[Part(chunk, 1)])
      && (left > 1 ==> 4 * group + 2 < |text| && text[4 * group + 2] == t.chars[Part(chunk, 2)])
      && (left > 2 ==> 4 * group + 3 < |text| && text[4 * group + 3] == t.chars[Part(chunk, 3)])
  {
    ChunkThere(s, group, chunk);
    SextetsLeft(s, group);
    hide Encode;
    hide Sextets;
    hide SextetAt;
    hide Sound;
    hide Chunk;
    hide Part;
    SoundSize(t);
    CharThere(t, s, pad, group, 0);
    CharThere(t, s, pad, group, 1);
    if |s| - 3 * group > 1 {
      CharThere(t, s, pad, group, 2);
    }
    if |s| - 3 * group > 2 {
      CharThere(t, s, pad, group, 3);
    }
  }

  lemma ChunkThere(s: Bytes, group: nat, chunk: int)
    requires 3 * group < |s| && chunk == Chunk(s[3 * group], ByteAt(s, 3 * group + 1), ByteAt(s, 3 * group + 2))
    ensures 0 <= chunk < 16777216
    ensures SextetAt(s, group, 0) == Part(chunk, 0) && SextetAt(s, group, 1) == Part(chunk, 1)
    ensures SextetAt(s, group, 2) == Part(chunk, 2) && SextetAt(s, group, 3) == Part(chunk, 3)
  {
    ChunkSextets(s[3 * group], ByteAt(s, 3 * group + 1), ByteAt(s, 3 * group + 2));
    hide Chunk;
  }

  lemma SextetsLeft(s: Bytes, group: nat)
    requires 3 * group < |s|
    ensures var left := |s| - 3 * group;
      |Sextets(s)| >= 4 * group + 2 && (left > 1 ==> |Sextets(s)| >= 4 * group + 3) && (left > 2 ==> |Sextets(s)| >= 4 * group + 4)
  {
  }

  // ---- out of a buffer ----

  /** Up to four sextets taken as one number. */
  function Gathered(y: seq<Sextet>): int
    requires |y| <= 4
  {
    (if |y| > 0 then y[0] * 262144 else 0) + (if |y| > 1 then y[1] * 4096 else 0)
      + (if |y| > 2 then y[2] * 64 else 0) + (if |y| > 3 then y[3] as int else 0)
  }

  /** The bytes in such a number, one less than the sextets it was gathered from. */
  function Scattered(n: nat, chunk: int): Bytes
    requires 0 <= chunk < 16777216
  {
    match n
    case 2 => [chunk / 65536]
    case 3 => [chunk / 65536, chunk / 256 % 256]
    case 4 => [chunk / 65536, chunk / 256 % 256, chunk % 256]
    case _ => []
  }

  lemma GatheredOctets(y: seq<Sextet>)
    requires |y| <= 4 && |y| != 1
    ensures 0 <= Gathered(y) < 16777216 && Octets(y) == Scattered(|y|, Gathered(y))
  {
    if |y| > 0 {
      var a: int, b: int := y[0], y[1];
      var c: int, d: int := if |y| > 2 then y[2] else 0, if |y| > 3 then y[3] else 0;
      GatheredOver(a, b, c, d);
      FewOctets(y);
      hide Octets;
    }
  }

  lemma FewOctets(y: seq<Sextet>)
    requires 2 <= |y| <= 4
    ensures |Octets(y)| == |y| - 1 && forall j :: 0 <= j < |y| - 1 ==> Octets(y)[j] == OctetAt(y, 0, j)
  {
  }

  lemma GatheredOver(a: int, b: int, c: int, d: int)
    requires 0 <= a < 64 && 0 <= b < 64 && 0 <= c < 64 && 0 <= d < 64
    ensures var chunk := a * 262144 + b * 4096 + c * 64 + d;
      && 0 <= chunk < 16777216 && chunk / 65536 == a * 4 + b / 16
      && chunk / 256 % 256 == b % 16 * 16 + c / 4 && chunk % 256 == c % 4 * 64 + d
  {
    DigitsGathered(a, b / 16, b % 16, c / 4, c % 4, d);
  }

  lemma DigitsGathered(a: int, b1: int, b0: int, c1: int, c0: int, d: int)
    requires 0 <= a < 64 && 0 <= b1 < 4 && 0 <= b0 < 16 && 0 <= c1 < 16 && 0 <= c0 < 4 && 0 <= d < 64
    ensures var chunk := a * 262144 + (16 * b1 + b0) * 4096 + (4 * c1 + c0) * 64 + d;
      && 0 <= chunk < 16777216 && chunk / 65536 == a * 4 + b1
      && chunk / 256 % 256 == b0 * 16 + c1 && chunk % 256 == c0 * 64 + d
  {
    Div65536(4 * a + b1, 4096 * b0 + 256 * c1 + 64 * c0 + d);
    Div256(1024 * a + 256 * b1 + 16 * b0 + c1, 64 * c0 + d);
    Div256(4 * a + b1, 16 * b0 + c1);
  }

  /** Whole fours of sextets are decoded by themselves. */
  lemma OctetsOver(x: seq<Sextet>, y: seq<Sextet>)
    requires |x| % 4 == 0
    ensures Octets(x + y) == Octets(x) + Octets(y)
  {
    var n := |x| / 4;
    assert |x + y| * 3 / 4 == 3 * n + |y| * 3 / 4;
    forall i | 0 <= i < |x + y| * 3 / 4 ensures Octets(x + y)[i] == (Octets(x) + Octets(y))[i] {
      OctetInside(|x + y|, i);
      if i < 3 * n {
        OctetInside(|x|, i);
      } else {
        OctetInside(|y|, i - 3 * n);
        OctetBehind(x, y, i);
      }
    }
  }

  lemma OctetBehind(x: seq<Sextet>, y: seq<Sextet>, i: nat)
    requires |x| % 4 == 0 && |x| / 4 * 3 <= i < |x| / 4 * 3 + |y| * 3 / 4
    requires 4 * (i / 3) + i % 3 + 1 < |x + y|
    ensures var k := i - |x| / 4 * 3;
      4 * (k / 3) + k % 3 + 1 < |y| && OctetAt(x + y, i / 3, i % 3) == OctetAt(y, k / 3, k % 3)
  {
    var n := |x| / 4;
    var k := i - 3 * n;
    OctetInside(|y|, k);
    assert k / 3 == i / 3 - n && k % 3 == i % 3;
  }

  lemma ValuesMore(t: Alphabet, text: string, i: nat)
    requires Sound(t) && i < |text| && Valued(t, text[..i]) && text[i] as int < 123 && t.vals[text[i] as int] != NO_VALUE
    ensures Valued(t, text[..i + 1]) && t.vals[text[i] as int] < 64
    ensures Values(t, text[..i + 1]) == Values(t, text[..i]) + [t.vals[text[i] as int]]
  {
    assert text[..i + 1] == text[..i] + [text[i]];
  }

  /** What the last sextets lack of three bytes. */
  function Lacking(n: nat): nat { match n % 4 case 2 => 2 case 3 => 1 case _ => 0 }

  lemma FullBytes(n: nat)
    requires n % 4 != 1
    ensures n * 3 / 4 == (n + 3) / 4 * 3 - Lacking(n)
  {
    var q := n / 4;
    assert n == 4 * q + n % 4;
  }

  /** What is said to have been written: less than the most there can be by what the last sextets lack. */
  function SizeTold(text: string): int { DecodedSizeMax(|text|) - Lacking(|Trim(text)|) }

  /** It is what was written exactly when the pads do not begin another four characters. */
  lemma SizeToldExactly(t: Alphabet, text: string)
    requires Sound(t) && Decode(t, text).Good?
    ensures SizeTold(text) == |Decode(t, text).bytes| <==> (|text| + 3) / 4 == (|Trim(text)| + 3) / 4
  {
    var n := |Trim(text)|;
    assert |Decode(t, text).bytes| == n * 3 / 4;
    hide Decode;
    hide Trim;
    FullBytes(n);
    hide Lacking;
  }

  /** So it is for what was encoded. */
  lemma SizeToldEncoded(t: Alphabet, s: Bytes, pad: bool)
    requires Sound(t)
    ensures SizeTold(Encode(t, s, pad)) == |s|
  {
    var text := Encode(t, s, pad);
    DecodesEncoded(t, s, pad);
    EncodedLength(t, s, pad);
    SizeToldExactly(t, text);
    TrimsEncoded(t, s, pad);
    hide Decode;
    hide Trim;
    hide Encode;
    hide SizeTold;
    SameFours(|s|, |text|);
  }

  /** It is not for whole threes of bytes with a pad behind them, which none is called for. */
  lemma SizeMistold(t: Alphabet, s: Bytes)
    requires Sound(t) && |s| % 3 == 0
    ensures var text := Encode(t, s, false) + "="; Decode(t, text) == Good(s) && SizeTold(text) == |s| + 3
  {
    hide Sound;
    hide Valued;
    hide Values;
    hide Octets;
    hide Sextets;
    var chars, n := Chars(t, Sextets(s)), |s| / 3;
    CharsValued(t, Sextets(s));
    OctetsOfSextets(s);
    SextetsOfThrees(s, n);
    assert Encode(t, s, false) == chars;
    TrimsPadding(chars, "=");
    Div4(n, 0);
    Div4(n + 1, 0);
  }

  lemma SextetsOfThrees(s: Bytes, n: nat)
    requires |s| == 3 * n
    ensures |Sextets(s)| == 4 * n
  {
  }

  lemma SameFours(n: nat, len: nat)
    requires (n + 2) / 3 * 4 - 2 <= len <= (n + 2) / 3 * 4
    requires n % 3 == 0 ==> len == (n + 2) / 3 * 4
    ensures (len + 3) / 4 == ((4 * n + 2) / 3 + 3) / 4
  {
    var q, r := n / 3, n % 3;
    assert n == 3 * q + r;
    ThirdsOver(q, r);
    FoursOver(q, r, len);
  }

  lemma FoursOver(q: nat, r: nat, len: int)
    requires r < 3 && if r == 0 then len == 4 * q else 4 * q + 2 <= len <= 4 * q + 4
    ensures (len + 3) / 4 == (4 * q + (if r == 0 then 0 else r + 1) + 3) / 4
  {
  }

  /** Of the characters read so far, whole fours are in the buffer and the others in the number. */
  ghost predicate Reading(buf: Bytes, was: Bytes, x: seq<Sextet>, dest: nat, chunk: int) {
    var whole := |x| / 4 * 4;
    && |buf| == |was| && dest == |x| / 4 * 3 <= |buf|
    && buf[..dest] == Octets(x[..whole]) && buf[dest..] == was[dest..]
    && (|x| % 4 != 0 ==> chunk == Gathered(x[whole..]))
  }

  lemma NothingRead(was: Bytes)
    ensures Reading(was, was, [], 0, 0)
  {
  }

  lemma OneMoreRead(buf: Bytes, was: Bytes, x: seq<Sextet>, dest: nat, chunk: int, b: Sextet)
    requires Reading(buf, was, x, dest, chunk) && |x| % 4 < 3
    ensures Reading(buf, was, x + [b], dest,
      match |x| % 4 case 0 => b * 262144 case 1 => chunk + b * 4096 case _ => chunk + b * 64)
  {
    var whole := |x| / 4 * 4;
    assert (|x| + 1) / 4 == |x| / 4 && (|x| + 1) % 4 == |x| % 4 + 1;
    assert (x + [b])[..whole] == x[..whole];
    assert (x + [b])[whole..] == x[whole..] + [b];
    hide Octets;
  }

  lemma ChunkRead(buf: Bytes, was: Bytes, x: seq<Sextet>, dest: nat, chunk: int)
    requires Reading(buf, was, x, dest, chunk)
    ensures dest == |x| / 4 * 3 && |buf| == |was|
    ensures |x| % 4 != 0 ==> 0 <= chunk <= 16777216 - 64
  {
  }

  lemma FourOctets(x: seq<Sextet>, b: Sextet, n: nat, chunk: int)
    requires |x| == 4 * n + 3 && chunk == Gathered(x[4 * n..]) && 0 <= chunk + b < 16777216
    ensures |x + [b]| == 4 * n + 4 && Octets(x + [b]) == Octets(x[..4 * n]) + Scattered(4, chunk + b)
  {
    hide Octets;
    hide Scattered;
    hide Gathered;
    var y := x[4 * n..] + [b];
    GatheredMore(x[4 * n..], b);
    GatheredOctets(y);
    OctetsOver(x[..4 * n], y);
    assert x + [b] == x[..4 * n] + y;
  }

  lemma GatheredMore(y: seq<Sextet>, b: Sextet)
    requires |y| == 3
    ensures Gathered(y + [b]) == Gathered(y) + b
  {
  }

  lemma FourRead(buf: Bytes, was: Bytes, x: seq<Sextet>, dest: nat, chunk: int, b: Sextet, buf': Bytes)
    requires Reading(buf, was, x, dest, chunk) && |x| % 4 == 3 && dest + 3 <= |buf| && 0 <= chunk + b < 16777216
    requires buf' == buf[..dest] + Scattered(4, chunk + b) + buf[dest + 3..]
    ensures Reading(buf', was, x + [b], dest + 3, chunk + b)
  {
    var n := |x| / 4;
    FourOctets(x, b, n, chunk);
    assert |Scattered(4, chunk + b)| == 3;
    hide Octets;
    hide Gathered;
    hide Scattered;
    assert (x + [b])[..4 * n + 4] == x + [b];
    assert buf'[dest + 3..] == was[dest + 3..];
  }

  lemma RestRead(buf: Bytes, was: Bytes, x: seq<Sextet>, dest: nat, chunk: int, n: nat, buf': Bytes)
    requires Reading(buf, was, x, dest, chunk) && n == |x| % 4 != 1 && |x| * 3 / 4 <= |buf|
    requires if n == 0 then buf' == buf
      else dest + n - 1 <= |buf| && 0 <= chunk < 16777216 && buf' == buf[..dest] + Scattered(n, chunk) + buf[dest + n - 1..]
    ensures |Octets(x)| <= |was| && buf' == Octets(x) + was[|Octets(x)|..]
  {
    var whole := |x| / 4 * 4;
    var y := x[whole..];
    assert |y| == n;
    assert x[..whole] + y == x;
    OctetsOver(x[..whole], y);
    GatheredOctets(y);
    hide Octets;
    hide Gathered;
    assert n != 0 ==> |Scattered(n, chunk)| == n - 1;
    assert n == 0 ==> Octets(y) == [];
    hide Scattered;
    assert buf == buf[..dest] + buf[dest..];
  }

  /** Writes the bytes in a number. */
  method Emit(bufOut: array<Byte>, dest: nat, n: nat, chunk: int)
    requires 2 <= n <= 4 && 0 <= chunk < 16777216 && dest + n - 1 <= bufOut.Length
    modifies bufOut
    ensures bufOut[..] == old(bufOut[..dest]) + Scattered(n, chunk) + old(bufOut[dest + n - 1..])
  {
    bufOut[dest] := chunk / 65536;
    if n > 2 {
      bufOut[dest + 1] := chunk / 256 % 256;
    }
    if n > 3 {
      bufOut[dest + 2] := chunk % 256;
    }
  }

  method DecodeImpl(t: Alphabet, src: string, bufOut: array<Byte>) returns (r: Outcome)
    requires Sound(t)
    modifies bufOut
    ensures bufOut.Length < DecodedSizeMax(|src|) ==> r == InsufficientBuf && bufOut[..] == old(bufOut[..])
    ensures bufOut.Length >= DecodedSizeMax(|src|) ==>
      match Decode(t, src)
      case Bad => r == InvalidBase64Data
      case Good(bytes) => r == Done(SizeTold(src)) && |bytes| <= bufOut.Length && bufOut[..] == bytes + old(bufOut[..])[|bytes|..]
  {
    if bufOut.Length < DecodedSizeMax(|src|) {
      return InsufficientBuf;
    }
    var srcLen := |src|;
    for i := 0 to 2
      invariant 0 <= srcLen <= |src| && src[..srcLen] == if i == 0 then src else if i == 1 then WithoutPad(src) else Trim(src)
    {
      if srcLen > 0 && src[srcLen - 1] == '=' {
        assert src[..srcLen][..srcLen - 1] == src[..srcLen - 1];
        srcLen := srcLen - 1;
      }
    }
    r := DecodeTrimmed(t, src, srcLen, bufOut);
  }

  /** What is left when the pads are not looked at. */
  method DecodeTrimmed(t: Alphabet, src: string, srcLen: nat, bufOut: array<Byte>) returns (r: Outcome)
    requires Sound(t) && srcLen <= |src| && src[..srcLen] == Trim(src) && bufOut.Length >= DecodedSizeMax(|src|)
    modifies bufOut
    ensures match Decode(t, src)
      case Bad => r == InvalidBase64Data
      case Good(bytes) => r == Done(SizeTold(src)) && |bytes| <= bufOut.Length && bufOut[..] == bytes + old(bufOut[..])[|bytes|..]
  {
    hide Trim;
    hide Reading;
    hide Octets;
    hide Scattered;
    ghost var was, x := bufOut[..], [];
    assert Valued(t, src[..0]) && x == Values(t, src[..0]);
    NothingRead(was);
    SoundSize(t);
    hide Sound;
    var chunk, dest := 0, 0;
    for i := 0 to srcLen
      invariant Valued(t, src[..i]) && x == Values(t, src[..i]) && Reading(bufOut[..], was, x, dest, chunk)
    {
      var c := src[i] as int;
      if c >= |t.vals| || t.vals[c] == NO_VALUE {
        assert src[..srcLen][i] == src[i];
        return InvalidBase64Data;
      }
      ValuesMore(t, src, i);
      var b: int := t.vals[c];
      ghost var buf := bufOut[..];
      ChunkRead(buf, was, x, dest, chunk);
      if i % 4 == 3 {
        chunk := chunk + b;
        Emit(bufOut, dest, 4, chunk);
        FourRead(buf, was, x, dest, chunk - b, b, bufOut[..]);
        dest := dest + 3;
      } else {
        OneMoreRead(buf, was, x, dest, chunk, b);
        chunk := match i % 4 case 0 => b * 262144 case 1 => chunk + b * 4096 case _ => chunk + b * 64;
      }
      x := x + [b];
    }
    r := DecodeRest(bufOut, srcLen, DecodedSizeMax(|src|), chunk, dest, was, x);
  }

  /** The sextets left when less than four are. */
  method DecodeRest(bufOut: array<Byte>, srcLen: nat, sizeMax: int, chunk: int, dest: nat, ghost was: Bytes, ghost x: seq<Sextet>)
    returns (r: Outcome)
    requires |x| == srcLen && srcLen * 3 / 4 <= bufOut.Length && sizeMax >= Lacking(srcLen)
    requires Reading(bufOut[..], was, x, dest, chunk)
    modifies bufOut
    ensures srcLen % 4 == 1 ==> r == InvalidBase64Data
    ensures srcLen % 4 != 1 ==>
      r == Done(sizeMax - Lacking(srcLen)) && |Octets(x)| <= |was| && bufOut[..] == Octets(x) + was[|Octets(x)|..]
  {
    hide Reading;
    hide Octets;
    hide Scattered;
    var sizeOut := sizeMax;
    ghost var buf := bufOut[..];
    ChunkRead(buf, was, x, dest, chunk);
    match srcLen % 4 {
      case 0 =>
      case 2 =>
        Emit(bufOut, dest, 2, chunk);
        sizeOut := sizeOut - 2;
      case 3 =>
        Emit(bufOut, dest, 3, chunk);
        sizeOut := sizeOut - 1;
      case _ =>
        return InvalidBase64Data;
    }
    RestRead(buf, was, x, dest, chunk, srcLen % 4, bufOut[..]);
    r := Done(sizeOut);
  }

  // ---- order ----

  predicate Ascii(text: string) { forall i :: 0 <= i < |text| ==> text[i] as int < 128 }

  function Codes(text: string): (s: Bytes)
    requires Ascii(text)
  {
    seq(|text|, i requires 0 <= i < |text| => text[i] as int)
  }

  /** What decides between two strings: the first place where they differ, or that one ends. */
  lemma {:induction false} FirstDifference(a: Bytes, b: Bytes) returns (i: nat)
    ensures i <= |a| && i <= |b| && a[..i] == b[..i] && (i < |a| && i < |b| ==> a[i] != b[i])
    ensures Lex(a, b) == if i < |a| && i < |b| then a[i] - b[i] else |a| - |b|
  {
    if |a| == 0 || |b| == 0 || a[0] != b[0] {
      i := 0;
    } else {
      var j := FirstDifference(a[1..], b[1..]);
      i := j + 1;
      assert a[..i] == [a[0]] + a[1..][..j] && b[..i] == [b[0]] + b[1..][..j];
    }
  }

  lemma {:induction false} LexAt(a: Bytes, b: Bytes, i: nat)
    requires i <= |a| && i <= |b| && a[..i] == b[..i]
    requires i < |a| && i < |b| ==> a[i] != b[i]
    ensures Lex(a, b) == if i < |a| && i < |b| then a[i] - b[i] else |a| - |b|
  {
    if i == |a| {
      assert b == a + b[i..];
      LexExtended(a, b[i..]);
    } else if i == |b| {
      assert a == b + a[i..];
      LexExtended(b, a[i..]);
      LexFlip(b, a);
    } else {
      assert a == a[..i] + a[i..] && b == a[..i] + b[i..];
      LexPrefix(a[..i], a[i..], b[i..]);
    }
  }

  /** The sextets before those of the first byte that differs are the same. */
  lemma SameSextets(a: Bytes, b: Bytes, i: nat, k: nat)
    requires i <= |a| && i <= |b| && a[..i] == b[..i] && 8 * i >= 6 * (k + 1)
    ensures SextetAt(a, k / 4, k % 4) == SextetAt(b, k / 4, k % 4)
  {
    assert forall j :: 0 <= j < i ==> ByteAt(a, j) == ByteAt(b, j) by {
      assert forall j :: 0 <= j < i ==> a[..i][j] == a[j] && b[..i][j] == b[j];
    }
    assert k == 4 * (k / 4) + k % 4;
    assert k % 4 == 0 ==> 3 * (k / 4) < i;
    assert k % 4 == 1 ==> 3 * (k / 4) + 1 < i;
    assert k % 4 >= 2 ==> 3 * (k / 4) + 2 < i;
  }

  /** The byte that differs shows in the sextet it begins in, or in the next one. */
  lemma DifferentSextets(a: Bytes, b: Bytes, i: nat)
    requires i <= |a| && i <= |b| && a[..i] == b[..i] && ByteAt(a, i) <= ByteAt(b, i)
    ensures SextetAt(a, i / 3, i % 3) <= SextetAt(b, i / 3, i % 3)
    ensures ByteAt(a, i) < ByteAt(b, i) && SextetAt(a, i / 3, i % 3) == SextetAt(b, i / 3, i % 3) ==>
      SextetAt(a, i / 3, i % 3 + 1) < SextetAt(b, i / 3, i % 3 + 1)
  {
    assert forall j :: 0 <= j < i ==> ByteAt(a, j) == ByteAt(b, j) by {
      assert forall j :: 0 <= j < i ==> a[..i][j] == a[j] && b[..i][j] == b[j];
    }
    assert i == 3 * (i / 3) + i % 3;
    if i % 3 == 0 {
    } else if i % 3 == 1 {
      assert ByteAt(a, i - 1) == ByteAt(b, i - 1);
    } else {
      assert ByteAt(a, i - 1) == ByteAt(b, i - 1);
    }
  }

  /** The sextets of two byte strings are the same up to some place. */
  lemma SextetsUpTo(a: Bytes, b: Bytes, i: nat, n: nat)
    requires i <= |a| && i <= |b| && a[..i] == b[..i] && 6 * n <= 8 * i
    ensures n <= |Sextets(a)| && n <= |Sextets(b)| && Sextets(a)[..n] == Sextets(b)[..n]
  {
    forall k | 0 <= k < n ensures Sextets(a)[k] == Sextets(b)[k] {
      SameSextets(a, b, i, k);
    }
  }

  lemma SizesOver(g: nat, r: nat, n: nat)
    requires r < 3 && 3 * g + r <= n
    ensures if 3 * g + r < n then 4 * g + r + 1 < (4 * n + 2) / 3
            else (4 * n + 2) / 3 == 4 * g + (if r == 0 then 0 else r + 1)
  {
  }

  lemma Third(i: nat, g: nat, r: nat)
    requires i == 3 * g + r && r < 3
    ensures i / 3 == g && i % 3 == r
  {
  }

  lemma FirstByte(a: Bytes, b: Bytes, i: nat)
    requires i <= |a| && i < |b| && (i < |a| ==> a[i] < b[i])
    ensures ByteAt(a, i) <= ByteAt(b, i) && (i < |a| ==> ByteAt(a, i) < ByteAt(b, i))
  {
  }

  lemma Sized(s: Bytes, g: nat, r: nat)
    requires r < 3 && 3 * g + r <= |s|
    ensures if 3 * g + r < |s| then 4 * g + r + 1 < |Sextets(s)| else |Sextets(s)| == 4 * g + (if r == 0 then 0 else r + 1)
  {
    SizesOver(g, r, |s|);
  }

  /** The first sextets that differ decide as the first bytes that differ do. */
  lemma SextetsAgree(a: Bytes, b: Bytes, i: nat, g: nat, r: nat)
    requires i <= |a| && i < |b| && a[..i] == b[..i] && (i < |a| ==> a[i] < b[i]) && i == 3 * g + r && r < 3
    ensures Lex(Sextets(a), Sextets(b)) < 0
  {
    hide Sextets;
    hide SextetAt;
    hide ByteAt;
    hide Lex;
    var k := 4 * g + r;
    var x, y := Sextets(a), Sextets(b);
    SextetsUpTo(a, b, i, k);
    Third(i, g, r);
    FirstByte(a, b, i);
    DifferentSextets(a, b, i);
    Sized(a, g, r);
    Sized(b, g, r);
    SextetThere(b, g, r);
    if k == |x| {
      LexAt(x, y, k);
    } else {
      SextetThere(a, g, r);
      if i < |a| && x[k] == y[k] {
        SextetThere(a, g, r + 1);
        SextetThere(b, g, r + 1);
      }
      LexSoon(x, y, k);
    }
  }

  /** Two strings the same up to some place differ there or at the next one. */
  lemma LexSoon(x: Bytes, y: Bytes, k: nat)
    requires k < |x| && k + 1 < |y| && x[..k] == y[..k] && x[k] <= y[k]
    requires x[k] == y[k] && k + 1 < |x| ==> x[k + 1] < y[k + 1]
    ensures Lex(x, y) < 0
  {
    if x[k] != y[k] {
      LexAt(x, y, k);
    } else {
      assert x[..k + 1] == x[..k] + [x[k]] && y[..k + 1] == y[..k] + [y[k]];
      LexAt(x, y, k + 1);
    }
  }

  lemma SextetsOrder(a: Bytes, b: Bytes)
    ensures Sign(Lex(Sextets(a), Sextets(b))) == Sign(Lex(a, b))
  {
    var i := FirstDifference(a, b);
    hide Sextets;
    if i == |a| == |b| {
      assert a == a[..i] && b == b[..i];
      LexZero(a, b);
      LexZero(Sextets(a), Sextets(b));
    } else if i < |b| && (i < |a| ==> a[i] < b[i]) {
      SextetsAgree(a, b, i, i / 3, i % 3);
    } else {
      SextetsAgree(b, a, i, i / 3, i % 3);
      LexFlip(Sextets(a), Sextets(b));
    }
  }

  lemma CharsOrder(x: seq<Sextet>, y: seq<Sextet>)
    requires Sound(ORDERED)
    ensures Ascii(Chars(ORDERED, x)) && Ascii(Chars(ORDERED, y))
    ensures Sign(Lex(Codes(Chars(ORDERED, x)), Codes(Chars(ORDERED, y)))) == Sign(Lex(x, y))
  {
    var p, q := Chars(ORDERED, x), Chars(ORDERED, y);
    OrderedCodes();
    hide ORDERED;
    var i := FirstDifference(x, y);
    assert Codes(p)[..i] == Codes(q)[..i] by {
      assert forall k :: 0 <= k < i ==> x[..i][k] == x[k] && y[..i][k] == y[k];
    }
    LexAt(Codes(p), Codes(q), i);
  }

  /** Without padding, the characters are in the order of the bytes. */
  lemma EncodingOrder(a: Bytes, b: Bytes)
    requires Sound(ORDERED)
    ensures var p, q := Encode(ORDERED, a, false), Encode(ORDERED, b, false);
      Ascii(p) && Ascii(q) && Sign(Lex(Codes(p), Codes(q))) == Sign(Lex(a, b))
  {
    SextetsOrder(a, b);
    CharsOrder(Sextets(a), Sextets(b));
    hide ORDERED;
    hide Sextets;
    assert Encode(ORDERED, a, false) == Chars(ORDERED, Sextets(a)) && Encode(ORDERED, b, false) == Chars(ORDERED, Sextets(b));
  }

  /** The texts of two values, which are not padded, are in the order of the values. */
  lemma ValueTexts(a: V.Value, b: V.Value)
    requires V.Plain(a) && V.Plain(b)
    ensures var p, q := Encode(ORDERED, V.Encode(a), false), Encode(ORDERED, V.Encode(b), false);
      Ascii(p) && Ascii(q) && Sign(Lex(Codes(p), Codes(q))) == Sign(V.Compare(a, b))
  {
    OrderedSound();
    hide ORDERED;
    EncodingOrder(V.Encode(a), V.Encode(b));
    ValueOrder.OrderEmbedding(a, b);
  }

  /** The pad of some bytes stands where more bytes have a character below it. */
  predicate PadAbove(a: Bytes, b: Bytes) {
    var x, y := Sextets(a), Sextets(b);
    |a| % 3 != 0 && x < y && y[|x|] <= 10
  }

  /** The codes of the characters of some bytes, and of the pads behind them. */
  lemma CodesThere(s: Bytes)
    requires Sound(ORDERED)
    ensures var p, x := Encode(ORDERED, s, true), Sextets(s);
      && Ascii(p) && |Codes(p)| == |x| + |Padding(|s|)|
      && (forall k :: 0 <= k < |x| ==> Codes(p)[k] == OrderedCode(x[k]))
      && (forall k :: |x| <= k < |p| ==> Codes(p)[k] == 61)
  {
    OrderedCodes();
    hide ORDERED;
    hide Sextets;
  }

  lemma PaddedPrefix(a: Bytes, b: Bytes)
    requires Sound(ORDERED) && Sextets(a) < Sextets(b)
    ensures var p, q := Encode(ORDERED, a, true), Encode(ORDERED, b, true);
      Ascii(p) && Ascii(q) && Lex(Codes(p), Codes(q)) != 0 && (Lex(Codes(p), Codes(q)) < 0 <==> !PadAbove(a, b))
  {
    var x, y, n := Sextets(a), Sextets(b), |Sextets(a)|;
    CodesThere(a);
    CodesThere(b);
    var p, q := Codes(Encode(ORDERED, a, true)), Codes(Encode(ORDERED, b, true));
    assert x == y[..n];
    hide Encode;
    hide Codes;
    hide Sextets;
    assert x == x[..n];
    SamePrefix(x, y, p, q, n);
    LexAt(p, q, n);
  }

  lemma PaddedDiffer(a: Bytes, b: Bytes, i: nat)
    requires Sound(ORDERED) && i < |Sextets(a)| && i < |Sextets(b)| && Sextets(a)[..i] == Sextets(b)[..i]
    requires Sextets(a)[i] != Sextets(b)[i]
    ensures var p, q := Encode(ORDERED, a, true), Encode(ORDERED, b, true);
      Ascii(p) && Ascii(q) && Sign(Lex(Codes(p), Codes(q))) == Sign(Lex(Sextets(a), Sextets(b)))
    ensures !PadAbove(a, b)
  {
    var x, y := Sextets(a), Sextets(b);
    hide Lex;
    CodesThere(a);
    CodesThere(b);
    hide Encode;
    hide Codes;
    hide Sextets;
    hide Padding;
    var p, q := Codes(Encode(ORDERED, a, true)), Codes(Encode(ORDERED, b, true));
    SamePrefix(x, y, p, q, i);
    LexAt(p, q, i);
    LexAt(x, y, i);
    NotPrefix(x, y, i);
  }

  lemma NotPrefix(x: seq<Sextet>, y: seq<Sextet>, i: nat)
    requires i < |x| && i < |y| && x[i] != y[i]
    ensures !(x <= y)
  {
  }

  lemma SamePrefix(x: seq<Sextet>, y: seq<Sextet>, p: Bytes, q: Bytes, n: nat)
    requires n <= |x| <= |p| && n <= |y| <= |q| && x[..n] == y[..n]
    requires forall k :: 0 <= k < |x| ==> p[k] == OrderedCode(x[k])
    requires forall k :: 0 <= k < |y| ==> q[k] == OrderedCode(y[k])
    ensures p[..n] == q[..n]
  {
    assert forall k :: 0 <= k < n ==> x[..n][k] == x[k] && y[..n][k] == y[k];
  }

  /** With padding the order is kept exactly when no pad stands above a character. */
  lemma PaddedOrder(a: Bytes, b: Bytes)
    requires Sound(ORDERED)
    ensures var p, q := Encode(ORDERED, a, true), Encode(ORDERED, b, true);
      Ascii(p) && Ascii(q) && (Sign(Lex(Codes(p), Codes(q))) == Sign(Lex(a, b)) <==> !PadAbove(a, b) && !PadAbove(b, a))
  {
    var x, y := Sextets(a), Sextets(b);
    SextetsOrder(a, b);
    SextetsOrder(b, a);
    var i := FirstDifference(x, y);
    hide ORDERED;
    hide Sextets;
    hide Encode;
    if i < |x| && i < |y| {
      PaddedDiffer(a, b, i);
      PaddedDiffer(b, a, i);
    } else if i < |y| {
      assert x == y[..i];
      PaddedPrefix(a, b);
      LexAt(x, y, i);
    } else if i < |x| {
      assert y == x[..i];
      PaddedPrefix(b, a);
      LexAt(x, y, i);
      LexFlip(Codes(Encode(ORDERED, b, true)), Codes(Encode(ORDERED, a, true)));
    } else {
      assert x == x[..i] && y == y[..i];
      LexZero(x, y);
      LexZero(a, b);
      PaddedSame(a);
    }
  }

  lemma PaddedSame(a: Bytes)
    requires Sound(ORDERED)
    ensures var p := Encode(ORDERED, a, true); Ascii(p) && Lex(Codes(p), Codes(p)) == 0
  {
    OrderedCodes();
    hide ORDERED;
    hide Sextets;
    LexZero(Codes(Encode(ORDERED, a, true)), Codes(Encode(ORDERED, a, true)));
  }

  /** Such bytes: one byte, and the same with a zero behind it. */
  lemma PadAboveZero(s: Bytes, g: nat)
    requires |s| == 3 * g + 1
    ensures PadAbove(s, s + [0])
  {
    var x, y, n := Sextets(s), Sextets(s + [0]), 4 * g + 2;
    assert |x| == n && |y| == n + 1;
    SextetsUpTo(s, s + [0], |s|, n - 1);
    hide Sextets;
    hide SextetAt;
    SextetThere(s, g, 1);
    SextetThere(s + [0], g, 1);
    SextetThere(s + [0], g, 2);
    ZeroBehind(s, g);
    assert x == x[..n - 1] + [x[n - 1]] && y[..n] == y[..n - 1] + [y[n - 1]];
  }

  lemma ZeroBehind(s: Bytes, g: nat)
    requires |s| == 3 * g + 1
    ensures SextetAt(s + [0], g, 1) == SextetAt(s, g, 1) && SextetAt(s + [0], g, 2) == 0
  {
  }
}
