/** MD5 as sections 3.1 to 3.5 of RFC 1321 define it, on byte strings. */
module Md5Spec {

  import opened LibTypes

  type Word = bv32

  /** The four-word buffer (A, B, C, D) of section 3.3. */
  datatype Digester = Digester(a: Word, b: Word, c: Word, d: Word)

  const INITIAL := Digester(0x67452301, 0xefcdab89, 0x98badcfe, 0x10325476)

  // ---------- section 2: words and bytes, low-order byte first ----------

  function WordOf(b0: Byte, b1: Byte, b2: Byte, b3: Byte): Word {
    (b0 as Word) | ((b1 as Word) << 8) | ((b2 as Word) << 16) | ((b3 as Word) << 24)
  }

  function BytesOf(w: Word): (s: seq<Byte>)
    ensures |s| == 4
  {
    [(w & 0xff) as Byte, ((w >> 8) & 0xff) as Byte, ((w >> 16) & 0xff) as Byte, ((w >> 24) & 0xff) as Byte]
  }

  function Words(s: seq<Byte>): (ws: seq<Word>)
    ensures |ws| == |s| / 4
  {
    if |s| < 4 then [] else [WordOf(s[0], s[1], s[2], s[3])] + Words(s[4..])
  }

  function Bytes(ws: seq<Word>): (s: seq<Byte>)
    ensures |s| == 4 * |ws|
  {
    if ws == [] then [] else BytesOf(ws[0]) + Bytes(ws[1..])
  }

  lemma WordOfBytes(w: Word)
    ensures var s := BytesOf(w); WordOf(s[0], s[1], s[2], s[3]) == w
  {
  }

  lemma BytesOfWord(b0: Byte, b1: Byte, b2: Byte, b3: Byte)
    ensures BytesOf(WordOf(b0, b1, b2, b3)) == [b0, b1, b2, b3]
  {
  }

  /** Encode and Decode are inverse to each other. */
  lemma {:induction false} WordsOfBytes(ws: seq<Word>)
    ensures Words(Bytes(ws)) == ws
  {
    if ws != [] {
      WordOfBytes(ws[0]);
      hide BytesOf, WordOf;
      var s := Bytes(ws);
      assert s[4..] == Bytes(ws[1..]);
      WordsOfBytes(ws[1..]);
    }
  }

  lemma {:induction false} BytesOfWords(s: seq<Byte>)
    requires |s| % 4 == 0
    ensures Bytes(Words(s)) == s
  {
    if s != [] {
      BytesOfWord(s[0], s[1], s[2], s[3]);
      hide BytesOf, WordOf;
      BytesOfWords(s[4..]);
      assert Words(s)[1..] == Words(s[4..]);
    }
  }

  // ---------- section 3.4: the 64 operations ----------

  function F(x: Word, y: Word, z: Word): Word { (x & y) | (!x & z) }
  function G(x: Word, y: Word, z: Word): Word { (x & z) | (y & !z) }
  function H(x: Word, y: Word, z: Word): Word { x ^ y ^ z }
  function I(x: Word, y: Word, z: Word): Word { y ^ (x | !z) }

  function RotateLeft(x: Word, n: Word): Word
    requires 0 < n < 32
  {
    (x << n) | (x >> (32 - n))
  }

  function RotateRight(x: Word, n: Word): Word
    requires 0 < n < 32
  {
    (x >> n) | (x << (32 - n))
  }

  function Mix(i: nat, x: Word, y: Word, z: Word): Word {
    if i < 16 then F(x, y, z) else if i < 32 then G(x, y, z) else if i < 48 then H(x, y, z) else I(x, y, z)
  }

  /** The word of the block that operation `i` uses. */
  function Index(i: nat): (k: nat)
    ensures k < 16
  {
    if i < 16 then i else if i < 32 then (5 * i + 1) % 16 else if i < 48 then (3 * i + 5) % 16 else (7 * i) % 16
  }

  function Shift(i: nat): (s: Word)
    ensures 0 < s < 32
  {
    var r := i % 4;
    if i < 16 then (if r == 0 then 7 else if r == 1 then 12 else if r == 2 then 17 else 22)
    else if i < 32 then (if r == 0 then 5 else if r == 1 then 9 else if r == 2 then 14 else 20)
    else if i < 48 then (if r == 0 then 4 else if r == 1 then 11 else if r == 2 then 16 else 23)
    else (if r == 0 then 6 else if r == 1 then 10 else if r == 2 then 15 else 21)
  }

  /** The table T, whose element i + 1 is the integer part of 4294967296 times abs(sin(i + 1)). */
  function T(i: nat): Word
    requires i < 64
  {
    if i < 16 then T1(i) else if i < 32 then T2(i) else if i < 48 then T3(i) else T4(i)
  }

  function T1(i: nat): Word
    requires 0 <= i < 16
  {
    match i
    case 0 => 0xd76aa478 case 1 => 0xe8c7b756 case 2 => 0x242070db case 3 => 0xc1bdceee
    case 4 => 0xf57c0faf case 5 => 0x4787c62a case 6 => 0xa8304613 case 7 => 0xfd469501
    case 8 => 0x698098d8 case 9 => 0x8b44f7af case 10 => 0xffff5bb1 case 11 => 0x895cd7be
    case 12 => 0x6b901122 case 13 => 0xfd987193 case 14 => 0xa679438e case _ => 0x49b40821
  }

  function T2(i: nat): Word
    requires 16 <= i < 32
  {
    match i
    case 16 => 0xf61e2562 case 17 => 0xc040b340 case 18 => 0x265e5a51 case 19 => 0xe9b6c7aa
    case 20 => 0xd62f105d case 21 => 0x2441453 case 22 => 0xd8a1e681 case 23 => 0xe7d3fbc8
    case 24 => 0x21e1cde6 case 25 => 0xc33707d6 case 26 => 0xf4d50d87 case 27 => 0x455a14ed
    case 28 => 0xa9e3e905 case 29 => 0xfcefa3f8 case 30 => 0x676f02d9 case _ => 0x8d2a4c8a
  }

  function T3(i: nat): Word
    requires 32 <= i < 48
  {
    match i
    case 32 => 0xfffa3942 case 33 => 0x8771f681 case 34 => 0x6d9d6122 case 35 => 0xfde5380c
    case 36 => 0xa4beea44 case 37 => 0x4bdecfa9 case 38 => 0xf6bb4b60 case 39 => 0xbebfbc70
    case 40 => 0x289b7ec6 case 41 => 0xeaa127fa case 42 => 0xd4ef3085 case 43 => 0x4881d05
    case 44 => 0xd9d4d039 case 45 => 0xe6db99e5 case 46 => 0x1fa27cf8 case _ => 0xc4ac5665
  }

  function T4(i: nat): Word
    requires 48 <= i < 64
  {
    match i
    case 48 => 0xf4292244 case 49 => 0x432aff97 case 50 => 0xab9423a7 case 51 => 0xfc93a039
    case 52 => 0x655b59c3 case 53 => 0x8f0ccc92 case 54 => 0xffeff47d case 55 => 0x85845dd1
    case 56 => 0x6fa87e4f case 57 => 0xfe2ce6e0 case 58 => 0xa3014314 case 59 => 0x4e0811a1
    case 60 => 0xf7537e82 case 61 => 0xbd3af235 case 62 => 0x2ad7d2bb case _ => 0xeb86d391
  }

  function Sum(a: Word, f: Word, x: Word, t: Word): Word { a + f + x + t }
  function Plus(a: Word, b: Word): Word { a + b }

  /** Operation `i`: a = b + ((a + f(b, c, d) + X[k] + T[i]) <<< s), after which the four words change roles. */
  function Step(i: nat, st: Digester, x: seq<Word>): Digester
    requires i < 64 && |x| == 16
  {
    Digester(st.d, Plus(st.b, RotateLeft(Sum(st.a, Mix(i, st.b, st.c, st.d), x[Index(i)], T(i)), Shift(i))), st.b, st.c)
  }

  /** Operations `from` to `from + n - 1` in order. */
  function Steps(st: Digester, x: seq<Word>, from: nat, n: nat): Digester
    requires from + n <= 64 && |x| == 16
    decreases n
  {
    if n == 0 then st else Steps(Step(from, st, x), x, from + 1, n - 1)
  }

  function Compress(st: Digester, block: seq<Byte>): Digester
    requires |block| == 64
  {
    var r := Steps(st, Words(block), 0, 64);
    Digester(Plus(st.a, r.a), Plus(st.b, r.b), Plus(st.c, r.c), Plus(st.d, r.d))
  }

  // ---------- sections 3.1, 3.2 and 3.5 ----------

  /** All complete 64-byte blocks of a string, in order. */
  function Fold(st: Digester, s: seq<Byte>): Digester
    decreases |s|
  {
    if |s| < 64 then st else Fold(Compress(st, s[..64]), s[64..])
  }

  /** The number of padding bytes that brings a length to 56 modulo 64; at least one. */
  function PadLength(n: nat): (p: nat)
    ensures 1 <= p <= 64 && (n + p) % 64 == 56
  {
    1 + (55 - n) % 64
  }

  function Padding(p: nat): (s: seq<Byte>)
    requires p > 0
    ensures |s| == p
  {
    [0x80] + seq(p - 1, _ => 0)
  }

  function ToWord(n: nat): Word
    requires n < 0x1_0000_0000
  {
    n as Word
  }

  /** The length in bits modulo 2 to the 64, as two words, the low-order word first. */
  function LengthBytes(n: nat): (s: seq<Byte>)
    ensures |s| == 8
  {
    var bits := 8 * n % 0x1_0000_0000_0000_0000;
    Bytes([ToWord(bits % 0x1_0000_0000), ToWord(bits / 0x1_0000_0000)])
  }

  function Padded(m: seq<Byte>): seq<Byte> {
    m + Padding(PadLength(|m|)) + LengthBytes(|m|)
  }

  lemma PaddedIsWhole(m: seq<Byte>)
    ensures |Padded(m)| % 64 == 0
  {
    hide PadLength, Padding, LengthBytes;
    assert |Padded(m)| == |m| + PadLength(|m|) + 8;
  }

  function Digest(m: seq<Byte>): (s: seq<Byte>)
    ensures |s| == 16
  {
    var r := Fold(INITIAL, Padded(m));
    Bytes([r.a, r.b, r.c, r.d])
  }
}
