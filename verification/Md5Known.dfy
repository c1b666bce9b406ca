/** What pins the building blocks of Md5Spec from outside: bitwise laws of the auxiliary functions and the rotation, and
    the digest of "abc" from the test suite of RFC 1321, appendix A.5, computed operation by operation. */
module Md5Known {
  import opened LibTypes
  import opened Md5Spec
  import opened Md5Transform
  import opened Md5

  // ---------- section 3.4: the auxiliary functions ----------

  /** F chooses: where a bit of x is set the bit of y, elsewhere the bit of z. */
  lemma FChooses(x: Word, y: Word, z: Word)
    ensures F(x, y, z) & x == y & x && F(x, y, z) & !x == z & !x
  {
  }

  /** G chooses by its third argument. */
  lemma GChooses(x: Word, y: Word, z: Word)
    ensures G(x, y, z) & z == x & z && G(x, y, z) & !z == y & !z
  {
  }

  /** H is a parity: two equal arguments cancel, and one inverted argument inverts it. */
  lemma HIsParity(x: Word, y: Word, z: Word)
    ensures H(x, x, z) == z && H(x, y, x) == y && H(x, y, y) == x
    ensures H(!x, y, z) == !H(x, y, z)
  {
  }

  /** I is the complement of y where z has no bits, and a parity of x and y where it has all. */
  lemma IAtTheEnds(x: Word, y: Word)
    ensures I(x, y, 0) == !y && I(x, y, 0xffff_ffff) == x ^ y
  {
  }

  /** The top `n` bits of a word go to the bottom, and the others move up by `n`. */
  lemma RotationMoves(x: Word, n: Word)
    requires 0 < n < 32
    ensures RotateLeft(x, n) & ((1 << n) - 1) == x >> (32 - n)
    ensures RotateLeft(x, n) >> n == (x << n) >> n
  {
  }

  // ---------- the digest of "abc" ----------

  const ABC: seq<Byte> := [0x61, 0x62, 0x63]

  /** "abc" padded, as the sixteen words of its only block. */
  function Block(): (x: seq<Word>)
    ensures |x| == 16
  {
    [0x80636261, 0x0, 0x0, 0x0, 0x0, 0x0, 0x0, 0x0,
     0x0, 0x0, 0x0, 0x0, 0x0, 0x0, 0x18, 0x0]
  }

  lemma BlockWords()
    ensures Block()[0] == 0x80636261 && Block()[14] == 0x18
    ensures forall i :: 0 < i < 16 && i != 14 ==> Block()[i] == 0
  {
  }

  lemma BytesOfTwo(a: Word, b: Word)
    ensures Bytes([a, b]) == BytesOf(a) + BytesOf(b)
  {
    hide BytesOf;
    var ws := [a, b];
    assert ws[1..] == [b] && ws[1..][1..] == [];
  }

  lemma BytesOfFour(a: Word, b: Word, c: Word, d: Word)
    ensures Bytes([a, b, c, d]) == BytesOf(a) + BytesOf(b) + BytesOf(c) + BytesOf(d)
  {
    hide BytesOf;
    var ws := [a, b, c, d];
    assert ws[1..] == [b, c, d] && ws[2..] == [c, d];
    assert ws[1..][1..] == ws[2..];
    BytesOfTwo(c, d);
  }

  lemma BytesOf24()
    ensures BytesOf(24) == [0x18, 0, 0, 0] && BytesOf(0) == [0, 0, 0, 0]
    ensures ToWord(24) == 24 && ToWord(0) == 0
  {
  }

  lemma LengthOfAbc()
    ensures LengthBytes(3) == [0x18, 0, 0, 0, 0, 0, 0, 0]
  {
    hide BytesOf, ToWord, Bytes;
    BytesOf24();
    BytesOfTwo(24, 0);
  }

  lemma PaddedAbc()
    ensures var s := Padded(ABC);
      && |s| == 64 && s[..4] == [0x61, 0x62, 0x63, 0x80]
      && (forall i :: 4 <= i < 64 ==> s[i] == if i == 56 then 0x18 else 0)
  {
    LengthOfAbc();
    hide LengthBytes;
    assert PadLength(3) == 53;
    hide PadLength;
  }

  lemma {:induction false} WordsAt(s: seq<Byte>, i: nat)
    requires 4 * i + 4 <= |s|
    ensures Words(s)[i] == WordOf(s[4 * i], s[4 * i + 1], s[4 * i + 2], s[4 * i + 3])
  {
    hide WordOf;
    if i > 0 {
      WordsAt(s[4..], i - 1);
    }
  }

  lemma WordsOfAbc()
    ensures |Padded(ABC)| == 64 && Words(Padded(ABC)) == Block()
  {
    hide Padded, Words, Block;
    PaddedAbc();
    BlockWords();
    var s := Padded(ABC);
    assert WordOf(0x61, 0x62, 0x63, 0x80) == 0x80636261;
    assert WordOf(0x18, 0, 0, 0) == 0x18 && WordOf(0, 0, 0, 0) == 0;
    hide WordOf;
    assert s[0] == s[..4][0] && s[1] == s[..4][1] && s[2] == s[..4][2] && s[3] == s[..4][3];
    forall i | 0 <= i < 16
      ensures Words(s)[i] == Block()[i]
    {
      WordsAt(s, i);
    }
  }

  lemma Operations1()
    ensures Steps(Digester(0x67452301, 0xefcdab89, 0x98badcfe, 0x10325476), Block(), 0, 4)
         == Digester(0xd6d117b4, 0x7ad956f2, 0x2f6fbd72, 0x344a8432)
  {
    hide Block, T, Index, Shift;
    BlockWords();
    Table1();
    assert Step(0, Digester(0x67452301, 0xefcdab89, 0x98badcfe, 0x10325476), Block())
        == Digester(0x10325476, 0xd6d117b4, 0xefcdab89, 0x98badcfe);
    assert Step(1, Digester(0x10325476, 0xd6d117b4, 0xefcdab89, 0x98badcfe), Block())
        == Digester(0x98badcfe, 0x344a8432, 0xd6d117b4, 0xefcdab89);
    assert Step(2, Digester(0x98badcfe, 0x344a8432, 0xd6d117b4, 0xefcdab89), Block())
        == Digester(0xefcdab89, 0x2f6fbd72, 0x344a8432, 0xd6d117b4);
    assert Step(3, Digester(0xefcdab89, 0x2f6fbd72, 0x344a8432, 0xd6d117b4), Block())
        == Digester(0xd6d117b4, 0x7ad956f2, 0x2f6fbd72, 0x344a8432);
  }

  lemma Operations5()
    ensures Steps(Digester(0xd6d117b4, 0x7ad956f2, 0x2f6fbd72, 0x344a8432), Block(), 4, 4)
         == Digester(0xc73741ef, 0x928d99f6, 0x207dc67b, 0x8bac3051)
  {
    hide Block, T, Index, Shift;
    BlockWords();
    Table1();
    assert Step(4, Digester(0xd6d117b4, 0x7ad956f2, 0x2f6fbd72, 0x344a8432), Block())
        == Digester(0x344a8432, 0xc73741ef, 0x7ad956f2, 0x2f6fbd72);
    assert Step(5, Digester(0x344a8432, 0xc73741ef, 0x7ad956f2, 0x2f6fbd72), Block())
        == Digester(0x2f6fbd72, 0x8bac3051, 0xc73741ef, 0x7ad956f2);
    assert Step(6, Digester(0x2f6fbd72, 0x8bac3051, 0xc73741ef, 0x7ad956f2), Block())
        == Digester(0x7ad956f2, 0x207dc67b, 0x8bac3051, 0xc73741ef);
    assert Step(7, Digester(0x7ad956f2, 0x207dc67b, 0x8bac3051, 0xc73741ef), Block())
        == Digester(0xc73741ef, 0x928d99f6, 0x207dc67b, 0x8bac3051);
  }

  lemma Operations9()
    ensures Steps(Digester(0xc73741ef, 0x928d99f6, 0x207dc67b, 0x8bac3051), Block(), 8, 4)
         == Digester(0x854b3712, 0x5ed49596, 0x3020401c, 0x74e2f284)
  {
    hide Block, T, Index, Shift;
    BlockWords();
    Table1();
    assert Step(8, Digester(0xc73741ef, 0x928d99f6, 0x207dc67b, 0x8bac3051), Block())
        == Digester(0x8bac3051, 0x854b3712, 0x928d99f6, 0x207dc67b);
    assert Step(9, Digester(0x8bac3051, 0x854b3712, 0x928d99f6, 0x207dc67b), Block())
        == Digester(0x207dc67b, 0x74e2f284, 0x854b3712, 0x928d99f6);
    assert Step(10, Digester(0x207dc67b, 0x74e2f284, 0x854b3712, 0x928d99f6), Block())
        == Digester(0x928d99f6, 0x3020401c, 0x74e2f284, 0x854b3712);
    assert Step(11, Digester(0x928d99f6, 0x3020401c, 0x74e2f284, 0x854b3712), Block())
        == Digester(0x854b3712, 0x5ed49596, 0x3020401c, 0x74e2f284);
  }

  lemma Operations13()
    ensures Steps(Digester(0x854b3712, 0x5ed49596, 0x3020401c, 0x74e2f284), Block(), 12, 4)
         == Digester(0xdda9b9a6, 0x72aff2e0, 0xe396856b, 0xa1051895)
  {
    hide Block, T, Index, Shift;
    BlockWords();
    Table1();
    assert Step(12, Digester(0x854b3712, 0x5ed49596, 0x3020401c, 0x74e2f284), Block())
        == Digester(0x74e2f284, 0xdda9b9a6, 0x5ed49596, 0x3020401c);
    assert Step(13, Digester(0x74e2f284, 0xdda9b9a6, 0x5ed49596, 0x3020401c), Block())
        == Digester(0x3020401c, 0xa1051895, 0xdda9b9a6, 0x5ed49596);
    assert Step(14, Digester(0x3020401c, 0xa1051895, 0xdda9b9a6, 0x5ed49596), Block())
        == Digester(0x5ed49596, 0xe396856b, 0xa1051895, 0xdda9b9a6);
    assert Step(15, Digester(0x5ed49596, 0xe396856b, 0xa1051895, 0xdda9b9a6), Block())
        == Digester(0xdda9b9a6, 0x72aff2e0, 0xe396856b, 0xa1051895);
  }

  lemma Operations17()
    ensures Steps(Digester(0xdda9b9a6, 0x72aff2e0, 0xe396856b, 0xa1051895), Block(), 16, 4)
         == Digester(0x3e9e9126, 0xb5b204e4, 0xe25e1652, 0x4a1d804e)
  {
    hide Block, T, Index, Shift;
    BlockWords();
    Table2();
    assert Step(16, Digester(0xdda9b9a6, 0x72aff2e0, 0xe396856b, 0xa1051895), Block())
        == Digester(0xa1051895, 0x3e9e9126, 0x72aff2e0, 0xe396856b);
    assert Step(17, Digester(0xa1051895, 0x3e9e9126, 0x72aff2e0, 0xe396856b), Block())
        == Digester(0xe396856b, 0x4a1d804e, 0x3e9e9126, 0x72aff2e0);
    assert Step(18, Digester(0xe396856b, 0x4a1d804e, 0x3e9e9126, 0x72aff2e0), Block())
        == Digester(0x72aff2e0, 0xe25e1652, 0x4a1d804e, 0x3e9e9126);
    assert Step(19, Digester(0x72aff2e0, 0xe25e1652, 0x4a1d804e, 0x3e9e9126), Block())
        == Digester(0x3e9e9126, 0xb5b204e4, 0xe25e1652, 0x4a1d804e);
  }

  lemma Operations21()
    ensures Steps(Digester(0x3e9e9126, 0xb5b204e4, 0xe25e1652, 0x4a1d804e), Block(), 20, 4)
         == Digester(0x59a8ffda, 0x47092c07, 0xabfc7920, 0x6d002f1e)
  {
    hide Block, T, Index, Shift;
    BlockWords();
    Table2();
    assert Step(20, Digester(0x3e9e9126, 0xb5b204e4, 0xe25e1652, 0x4a1d804e), Block())
        == Digester(0x4a1d804e, 0x59a8ffda, 0xb5b204e4, 0xe25e1652);
    assert Step(21, Digester(0x4a1d804e, 0x59a8ffda, 0xb5b204e4, 0xe25e1652), Block())
        == Digester(0xe25e1652, 0x6d002f1e, 0x59a8ffda, 0xb5b204e4);
    assert Step(22, Digester(0xe25e1652, 0x6d002f1e, 0x59a8ffda, 0xb5b204e4), Block())
        == Digester(0xb5b204e4, 0xabfc7920, 0x6d002f1e, 0x59a8ffda);
    assert Step(23, Digester(0xb5b204e4, 0xabfc7920, 0x6d002f1e, 0x59a8ffda), Block())
        == Digester(0x59a8ffda, 0x47092c07, 0xabfc7920, 0x6d002f1e);
  }

  lemma Operations25()
    ensures Steps(Digester(0x59a8ffda, 0x47092c07, 0xabfc7920, 0x6d002f1e), Block(), 24, 4)
         == Digester(0xb7f268cf, 0x786acb8f, 0xfe1623b1, 0x09388eff)
  {
    hide Block, T, Index, Shift;
    BlockWords();
    Table2();
    assert Step(24, Digester(0x59a8ffda, 0x47092c07, 0xabfc7920, 0x6d002f1e), Block())
        == Digester(0x6d002f1e, 0xb7f268cf, 0x47092c07, 0xabfc7920);
    assert Step(25, Digester(0x6d002f1e, 0xb7f268cf, 0x47092c07, 0xabfc7920), Block())
        == Digester(0xabfc7920, 0x09388eff, 0xb7f268cf, 0x47092c07);
    assert Step(26, Digester(0xabfc7920, 0x09388eff, 0xb7f268cf, 0x47092c07), Block())
        == Digester(0x47092c07, 0xfe1623b1, 0x09388eff, 0xb7f268cf);
    assert Step(27, Digester(0x47092c07, 0xfe1623b1, 0x09388eff, 0xb7f268cf), Block())
        == Digester(0xb7f268cf, 0x786acb8f, 0xfe1623b1, 0x09388eff);
  }

  lemma Operations29()
    ensures Steps(Digester(0xb7f268cf, 0x786acb8f, 0xfe1623b1, 0x09388eff), Block(), 28, 4)
         == Digester(0x790a77fb, 0x726342d3, 0xa62884aa, 0x9f47e4f8)
  {
    hide Block, T, Index, Shift;
    BlockWords();
    Table2();
    assert Step(28, Digester(0xb7f268cf, 0x786acb8f, 0xfe1623b1, 0x09388eff), Block())
        == Digester(0x09388eff, 0x790a77fb, 0x786acb8f, 0xfe1623b1);
    assert Step(29, Digester(0x09388eff, 0x790a77fb, 0x786acb8f, 0xfe1623b1), Block())
        == Digester(0xfe1623b1, 0x9f47e4f8, 0x790a77fb, 0x786acb8f);
    assert Step(30, Digester(0xfe1623b1, 0x9f47e4f8, 0x790a77fb, 0x786acb8f), Block())
        == Digester(0x786acb8f, 0xa62884aa, 0x9f47e4f8, 0x790a77fb);
    assert Step(31, Digester(0x786acb8f, 0xa62884aa, 0x9f47e4f8, 0x790a77fb), Block())
        == Digester(0x790a77fb, 0x726342d3, 0xa62884aa, 0x9f47e4f8);
  }

  lemma Operations33()
    ensures Steps(Digester(0x790a77fb, 0x726342d3, 0xa62884aa, 0x9f47e4f8), Block(), 32, 4)
         == Digester(0xb3707ebf, 0x3b0875c7, 0x8d212ff5, 0x60127b2e)
  {
    hide Block, T, Index, Shift;
    BlockWords();
    Table3();
    assert Step(32, Digester(0x790a77fb, 0x726342d3, 0xa62884aa, 0x9f47e4f8), Block())
        == Digester(0x9f47e4f8, 0xb3707ebf, 0x726342d3, 0xa62884aa);
    assert Step(33, Digester(0x9f47e4f8, 0xb3707ebf, 0x726342d3, 0xa62884aa), Block())
        == Digester(0xa62884aa, 0x60127b2e, 0xb3707ebf, 0x726342d3);
    assert Step(34, Digester(0xa62884aa, 0x60127b2e, 0xb3707ebf, 0x726342d3), Block())
        == Digester(0x726342d3, 0x8d212ff5, 0x60127b2e, 0xb3707ebf);
    assert Step(35, Digester(0x726342d3, 0x8d212ff5, 0x60127b2e, 0xb3707ebf), Block())
        == Digester(0xb3707ebf, 0x3b0875c7, 0x8d212ff5, 0x60127b2e);
  }

  lemma Operations37()
    ensures Steps(Digester(0xb3707ebf, 0x3b0875c7, 0x8d212ff5, 0x60127b2e), Block(), 36, 4)
         == Digester(0x21b117b9, 0x5a2f5ea5, 0x3575227e, 0x6e7429d5)
  {
    hide Block, T, Index, Shift;
    BlockWords();
    Table3();
    assert Step(36, Digester(0xb3707ebf, 0x3b0875c7, 0x8d212ff5, 0x60127b2e), Block())
        == Digester(0x60127b2e, 0x21b117b9, 0x3b0875c7, 0x8d212ff5);
    assert Step(37, Digester(0x60127b2e, 0x21b117b9, 0x3b0875c7, 0x8d212ff5), Block())
        == Digester(0x8d212ff5, 0x6e7429d5, 0x21b117b9, 0x3b0875c7);
    assert Step(38, Digester(0x8d212ff5, 0x6e7429d5, 0x21b117b9, 0x3b0875c7), Block())
        == Digester(0x3b0875c7, 0x3575227e, 0x6e7429d5, 0x21b117b9);
    assert Step(39, Digester(0x3b0875c7, 0x3575227e, 0x6e7429d5, 0x21b117b9), Block())
        == Digester(0x21b117b9, 0x5a2f5ea5, 0x3575227e, 0x6e7429d5);
  }

  lemma Operations41()
    ensures Steps(Digester(0x21b117b9, 0x5a2f5ea5, 0x3575227e, 0x6e7429d5), Block(), 40, 4)
         == Digester(0x11de1779, 0x4c6124f4, 0x31c465ca, 0xfadcaa38)
  {
    hide Block, T, Index, Shift;
    BlockWords();
    Table3();
    assert Step(40, Digester(0x21b117b9, 0x5a2f5ea5, 0x3575227e, 0x6e7429d5), Block())
        == Digester(0x6e7429d5, 0x11de1779, 0x5a2f5ea5, 0x3575227e);
    assert Step(41, Digester(0x6e7429d5, 0x11de1779, 0x5a2f5ea5, 0x3575227e), Block())
        == Digester(0x3575227e, 0xfadcaa38, 0x11de1779, 0x5a2f5ea5);
    assert Step(42, Digester(0x3575227e, 0xfadcaa38, 0x11de1779, 0x5a2f5ea5), Block())
        == Digester(0x5a2f5ea5, 0x31c465ca, 0xfadcaa38, 0x11de1779);
    assert Step(43, Digester(0x5a2f5ea5, 0x31c465ca, 0xfadcaa38, 0x11de1779), Block())
        == Digester(0x11de1779, 0x4c6124f4, 0x31c465ca, 0xfadcaa38);
  }

  lemma Operations45()
    ensures Steps(Digester(0x11de1779, 0x4c6124f4, 0x31c465ca, 0xfadcaa38), Block(), 44, 4)
         == Digester(0x7f2e507b, 0x7beb9700, 0x8fae6399, 0x99d9679d)
  {
    hide Block, T, Index, Shift;
    BlockWords();
    Table3();
    assert Step(44, Digester(0x11de1779, 0x4c6124f4, 0x31c465ca, 0xfadcaa38), Block())
        == Digester(0xfadcaa38, 0x7f2e507b, 0x4c6124f4, 0x31c465ca);
    assert Step(45, Digester(0xfadcaa38, 0x7f2e507b, 0x4c6124f4, 0x31c465ca), Block())
        == Digester(0x31c465ca, 0x99d9679d, 0x7f2e507b, 0x4c6124f4);
    assert Step(46, Digester(0x31c465ca, 0x99d9679d, 0x7f2e507b, 0x4c6124f4), Block())
        == Digester(0x4c6124f4, 0x8fae6399, 0x99d9679d, 0x7f2e507b);
    assert Step(47, Digester(0x4c6124f4, 0x8fae6399, 0x99d9679d, 0x7f2e507b), Block())
        == Digester(0x7f2e507b, 0x7beb9700, 0x8fae6399, 0x99d9679d);
  }

  lemma Operations49()
    ensures Steps(Digester(0x7f2e507b, 0x7beb9700, 0x8fae6399, 0x99d9679d), Block(), 48, 4)
         == Digester(0x7b201df8, 0x8bf025c4, 0xb298cefd, 0xf4e8e96e)
  {
    hide Block, T, Index, Shift;
    BlockWords();
    Table4();
    assert Step(48, Digester(0x7f2e507b, 0x7beb9700, 0x8fae6399, 0x99d9679d), Block())
        == Digester(0x99d9679d, 0x7b201df8, 0x7beb9700, 0x8fae6399);
    assert Step(49, Digester(0x99d9679d, 0x7b201df8, 0x7beb9700, 0x8fae6399), Block())
        == Digester(0x8fae6399, 0xf4e8e96e, 0x7b201df8, 0x7beb9700);
    assert Step(50, Digester(0x8fae6399, 0xf4e8e96e, 0x7b201df8, 0x7beb9700), Block())
        == Digester(0x7beb9700, 0xb298cefd, 0xf4e8e96e, 0x7b201df8);
    assert Step(51, Digester(0x7beb9700, 0xb298cefd, 0xf4e8e96e, 0x7b201df8), Block())
        == Digester(0x7b201df8, 0x8bf025c4, 0xb298cefd, 0xf4e8e96e);
  }

  lemma Operations53()
    ensures Steps(Digester(0x7b201df8, 0x8bf025c4, 0xb298cefd, 0xf4e8e96e), Block(), 52, 4)
         == Digester(0x06cc5e8a, 0x3bfa2c27, 0x7d632dd0, 0x5b0d97aa)
  {
    hide Block, T, Index, Shift;
    BlockWords();
    Table4();
    assert Step(52, Digester(0x7b201df8, 0x8bf025c4, 0xb298cefd, 0xf4e8e96e), Block())
        == Digester(0xf4e8e96e, 0x06cc5e8a, 0x8bf025c4, 0xb298cefd);
    assert Step(53, Digester(0xf4e8e96e, 0x06cc5e8a, 0x8bf025c4, 0xb298cefd), Block())
        == Digester(0xb298cefd, 0x5b0d97aa, 0x06cc5e8a, 0x8bf025c4);
    assert Step(54, Digester(0xb298cefd, 0x5b0d97aa, 0x06cc5e8a, 0x8bf025c4), Block())
        == Digester(0x8bf025c4, 0x7d632dd0, 0x5b0d97aa, 0x06cc5e8a);
    assert Step(55, Digester(0x8bf025c4, 0x7d632dd0, 0x5b0d97aa, 0x06cc5e8a), Block())
        == Digester(0x06cc5e8a, 0x3bfa2c27, 0x7d632dd0, 0x5b0d97aa);
  }

  lemma Operations57()
    ensures Steps(Digester(0x06cc5e8a, 0x3bfa2c27, 0x7d632dd0, 0x5b0d97aa), Block(), 56, 4)
         == Digester(0x7f81cc35, 0x7327d604, 0x4f9dbe3f, 0x094454ab)
  {
    hide Block, T, Index, Shift;
    BlockWords();
    Table4();
    assert Step(56, Digester(0x06cc5e8a, 0x3bfa2c27, 0x7d632dd0, 0x5b0d97aa), Block())
        == Digester(0x5b0d97aa, 0x7f81cc35, 0x3bfa2c27, 0x7d632dd0);
    assert Step(57, Digester(0x5b0d97aa, 0x7f81cc35, 0x3bfa2c27, 0x7d632dd0), Block())
        == Digester(0x7d632dd0, 0x094454ab, 0x7f81cc35, 0x3bfa2c27);
    assert Step(58, Digester(0x7d632dd0, 0x094454ab, 0x7f81cc35, 0x3bfa2c27), Block())
        == Digester(0x3bfa2c27, 0x4f9dbe3f, 0x094454ab, 0x7f81cc35);
    assert Step(59, Digester(0x3bfa2c27, 0x4f9dbe3f, 0x094454ab, 0x7f81cc35), Block())
        == Digester(0x7f81cc35, 0x7327d604, 0x4f9dbe3f, 0x094454ab);
  }

  lemma Operations61()
    ensures Steps(Digester(0x7f81cc35, 0x7327d604, 0x4f9dbe3f, 0x094454ab), Block(), 60, 4)
         == Digester(0x310ade8f, 0xc08226b3, 0xe484b9d8, 0x624d8cb2)
  {
    hide Block, T, Index, Shift;
    BlockWords();
    Table4();
    assert Step(60, Digester(0x7f81cc35, 0x7327d604, 0x4f9dbe3f, 0x094454ab), Block())
        == Digester(0x094454ab, 0x310ade8f, 0x7327d604, 0x4f9dbe3f);
    assert Step(61, Digester(0x094454ab, 0x310ade8f, 0x7327d604, 0x4f9dbe3f), Block())
        == Digester(0x4f9dbe3f, 0x624d8cb2, 0x310ade8f, 0x7327d604);
    assert Step(62, Digester(0x4f9dbe3f, 0x624d8cb2, 0x310ade8f, 0x7327d604), Block())
        == Digester(0x7327d604, 0xe484b9d8, 0x624d8cb2, 0x310ade8f);
    assert Step(63, Digester(0x7327d604, 0xe484b9d8, 0x624d8cb2, 0x310ade8f), Block())
        == Digester(0x310ade8f, 0xc08226b3, 0xe484b9d8, 0x624d8cb2);
  }

  lemma RoundOfAbc1()
    ensures Steps(Digester(0x67452301, 0xefcdab89, 0x98badcfe, 0x10325476), Block(), 0, 16)
         == Digester(0xdda9b9a6, 0x72aff2e0, 0xe396856b, 0xa1051895)
  {
    hide Steps, Block;
    SixteenSteps(0, Digester(0x67452301, 0xefcdab89, 0x98badcfe, 0x10325476), Block());
    Operations1();
    Operations5();
    Operations9();
    Operations13();
  }

  lemma RoundOfAbc2()
    ensures Steps(Digester(0xdda9b9a6, 0x72aff2e0, 0xe396856b, 0xa1051895), Block(), 16, 16)
         == Digester(0x790a77fb, 0x726342d3, 0xa62884aa, 0x9f47e4f8)
  {
    hide Steps, Block;
    SixteenSteps(16, Digester(0xdda9b9a6, 0x72aff2e0, 0xe396856b, 0xa1051895), Block());
    Operations17();
    Operations21();
    Operations25();
    Operations29();
  }

  lemma RoundOfAbc3()
    ensures Steps(Digester(0x790a77fb, 0x726342d3, 0xa62884aa, 0x9f47e4f8), Block(), 32, 16)
         == Digester(0x7f2e507b, 0x7beb9700, 0x8fae6399, 0x99d9679d)
  {
    hide Steps, Block;
    SixteenSteps(32, Digester(0x790a77fb, 0x726342d3, 0xa62884aa, 0x9f47e4f8), Block());
    Operations33();
    Operations37();
    Operations41();
    Operations45();
  }

  lemma RoundOfAbc4()
    ensures Steps(Digester(0x7f2e507b, 0x7beb9700, 0x8fae6399, 0x99d9679d), Block(), 48, 16)
         == Digester(0x310ade8f, 0xc08226b3, 0xe484b9d8, 0x624d8cb2)
  {
    hide Steps, Block;
    SixteenSteps(48, Digester(0x7f2e507b, 0x7beb9700, 0x8fae6399, 0x99d9679d), Block());
    Operations49();
    Operations53();
    Operations57();
    Operations61();
  }

  lemma CompressAbc()
    ensures |Padded(ABC)| == 64
    ensures Compress(INITIAL, Padded(ABC)) == Digester(0x98500190, 0xb04fd23c, 0x7d3f96d6, 0x727fe128)
  {
    WordsOfAbc();
    hide Steps, Block, Padded, Words;
    FourRounds(INITIAL, Block());
    RoundOfAbc1();
    RoundOfAbc2();
    RoundOfAbc3();
    RoundOfAbc4();
  }

  lemma FoldOne(st: Digester, s: seq<Byte>)
    requires |s| == 64
    ensures Fold(st, s) == Compress(st, s)
  {
    hide Compress;
    assert s[..64] == s && s[64..] == [];
  }

  lemma OutputOfAbc1()
    ensures BytesOf(0x98500190) == [0x90, 0x01, 0x50, 0x98]
  {
  }

  lemma OutputOfAbc2()
    ensures BytesOf(0xb04fd23c) == [0x3c, 0xd2, 0x4f, 0xb0]
  {
  }

  lemma OutputOfAbc3()
    ensures BytesOf(0x7d3f96d6) == [0xd6, 0x96, 0x3f, 0x7d]
  {
  }

  lemma OutputOfAbc4()
    ensures BytesOf(0x727fe128) == [0x28, 0xe1, 0x7f, 0x72]
  {
  }

  /** MD5 ("abc") = 900150983cd24fb0d6963f7d28e17f72. */
  lemma DigestOfAbc()
    ensures Digest(ABC) == [0x90, 0x01, 0x50, 0x98, 0x3c, 0xd2, 0x4f, 0xb0,
                            0xd6, 0x96, 0x3f, 0x7d, 0x28, 0xe1, 0x7f, 0x72]
  {
    hide Fold, Padded, Compress, BytesOf, Bytes;
    CompressAbc();
    FoldOne(INITIAL, Padded(ABC));
    BytesOfFour(0x98500190, 0xb04fd23c, 0x7d3f96d6, 0x727fe128);
    OutputOfAbc1();
    OutputOfAbc2();
    OutputOfAbc3();
    OutputOfAbc4();
  }
}
