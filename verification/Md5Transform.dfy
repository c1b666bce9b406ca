/** The transform of md5.c: 64 unrolled macro steps, proved equal to the table-driven operations, and a bijection. */
module Md5Transform {
  import opened LibTypes
  import opened Md5Spec

  const S11: Word := 7
  const S12: Word := 12
  const S13: Word := 17
  const S14: Word := 22
  const S21: Word := 5
  const S22: Word := 9
  const S23: Word := 14
  const S24: Word := 20
  const S31: Word := 4
  const S32: Word := 11
  const S33: Word := 16
  const S34: Word := 23
  const S41: Word := 6
  const S42: Word := 10
  const S43: Word := 15
  const S44: Word := 21

  // ---------- the macros, md5.c:40-62 ----------

  /** The first line of a macro, a += f + x + ac, and its last, a += b. */
  function AddAll(a: Word, f: Word, x: Word, ac: Word): Word { a + (f + x + ac) }
  function AddOne(a: Word, b: Word): Word { a + b }

  function FF(a: Word, b: Word, c: Word, d: Word, x: Word, s: Word, ac: Word): Word
    requires 0 < s < 32
  {
    AddOne(RotateLeft(AddAll(a, F(b, c, d), x, ac), s), b)
  }

  function GG(a: Word, b: Word, c: Word, d: Word, x: Word, s: Word, ac: Word): Word
    requires 0 < s < 32
  {
    AddOne(RotateLeft(AddAll(a, G(b, c, d), x, ac), s), b)
  }

  function HH(a: Word, b: Word, c: Word, d: Word, x: Word, s: Word, ac: Word): Word
    requires 0 < s < 32
  {
    AddOne(RotateLeft(AddAll(a, H(b, c, d), x, ac), s), b)
  }

  function II(a: Word, b: Word, c: Word, d: Word, x: Word, s: Word, ac: Word): Word
    requires 0 < s < 32
  {
    AddOne(RotateLeft(AddAll(a, I(b, c, d), x, ac), s), b)
  }

  lemma AddAllIsSum(a: Word, f: Word, x: Word, t: Word)
    ensures AddAll(a, f, x, t) == Sum(a, f, x, t)
  {
  }

  lemma AddOneIsPlus(r: Word, b: Word)
    ensures AddOne(r, b) == Plus(b, r)
  {
  }

  /** The macro of the round that operation `i` belongs to. */
  function Macro(i: nat, a: Word, b: Word, c: Word, d: Word, x: Word): Word
    requires i < 64
  {
    if i < 16 then FF(a, b, c, d, x, Shift(i), T(i)) else if i < 32 then GG(a, b, c, d, x, Shift(i), T(i))
    else if i < 48 then HH(a, b, c, d, x, Shift(i), T(i)) else II(a, b, c, d, x, Shift(i), T(i))
  }

  lemma MacroIsStep(i: nat, st: Digester, x: seq<Word>)
    requires i < 64 && |x| == 16
    ensures Step(i, st, x) == Digester(st.d, Macro(i, st.a, st.b, st.c, st.d, x[Index(i)]), st.b, st.c)
  {
    hide F, G, H, I, RotateLeft, T, Shift, Index, Sum, Plus, AddAll, AddOne;
    var f := Mix(i, st.b, st.c, st.d);
    AddAllIsSum(st.a, f, x[Index(i)], T(i));
    AddOneIsPlus(RotateLeft(Sum(st.a, f, x[Index(i)], T(i)), Shift(i)), st.b);
  }

  /** Four macro steps, in which each word is updated once, are four operations. */
  lemma FourSteps(i: nat, st: Digester, x: seq<Word>)
    requires i + 4 <= 64 && |x| == 16
    ensures var a := Macro(i, st.a, st.b, st.c, st.d, x[Index(i)]);
      var d := Macro(i + 1, st.d, a, st.b, st.c, x[Index(i + 1)]);
      var c := Macro(i + 2, st.c, d, a, st.b, x[Index(i + 2)]);
      var b := Macro(i + 3, st.b, c, d, a, x[Index(i + 3)]);
      Steps(st, x, i, 4) == Digester(a, b, c, d)
  {
    var s1 := Step(i, st, x);
    var s2 := Step(i + 1, s1, x);
    var s3 := Step(i + 2, s2, x);
    MacroIsStep(i, st, x);
    MacroIsStep(i + 1, s1, x);
    MacroIsStep(i + 2, s2, x);
    MacroIsStep(i + 3, s3, x);
    hide Macro, Step, Index;
    assert Steps(st, x, i, 4) == Steps(s1, x, i + 1, 3) == Steps(s2, x, i + 2, 2) == Steps(s3, x, i + 3, 1);
    assert Steps(s3, x, i + 3, 1) == Step(i + 3, s3, x);
  }

  lemma {:induction false} StepsSplit(st: Digester, x: seq<Word>, i: nat, m: nat, n: nat)
    requires i + m + n <= 64 && |x| == 16
    ensures Steps(st, x, i, m + n) == Steps(Steps(st, x, i, m), x, i + m, n)
    decreases m
  {
    hide Step;
    if m > 0 {
      StepsSplit(Step(i, st, x), x, i + 1, m - 1, n);
    }
  }

  lemma SixteenSteps(i: nat, st: Digester, x: seq<Word>)
    requires i + 16 <= 64 && |x| == 16
    ensures Steps(st, x, i, 16) ==
      Steps(Steps(Steps(Steps(st, x, i, 4), x, i + 4, 4), x, i + 8, 4), x, i + 12, 4)
  {
    StepsSplit(st, x, i, 4, 12);
    StepsSplit(Steps(st, x, i, 4), x, i + 4, 4, 8);
    StepsSplit(Steps(Steps(st, x, i, 4), x, i + 4, 4), x, i + 8, 4, 4);
    hide Steps;
  }

  lemma Table1()
    ensures Index(0) == 0 && Index(1) == 1 && Index(2) == 2 && Index(3) == 3
    ensures Index(4) == 4 && Index(5) == 5 && Index(6) == 6 && Index(7) == 7
    ensures Index(8) == 8 && Index(9) == 9 && Index(10) == 10 && Index(11) == 11
    ensures Index(12) == 12 && Index(13) == 13 && Index(14) == 14 && Index(15) == 15
    ensures Shift(0) == S11 && Shift(1) == S12 && Shift(2) == S13 && Shift(3) == S14
    ensures Shift(4) == S11 && Shift(5) == S12 && Shift(6) == S13 && Shift(7) == S14
    ensures Shift(8) == S11 && Shift(9) == S12 && Shift(10) == S13 && Shift(11) == S14
    ensures Shift(12) == S11 && Shift(13) == S12 && Shift(14) == S13 && Shift(15) == S14
    ensures T(0) == 0xd76aa478 && T(1) == 0xe8c7b756 && T(2) == 0x242070db && T(3) == 0xc1bdceee
    ensures T(4) == 0xf57c0faf && T(5) == 0x4787c62a && T(6) == 0xa8304613 && T(7) == 0xfd469501
    ensures T(8) == 0x698098d8 && T(9) == 0x8b44f7af && T(10) == 0xffff5bb1 && T(11) == 0x895cd7be
    ensures T(12) == 0x6b901122 && T(13) == 0xfd987193 && T(14) == 0xa679438e && T(15) == 0x49b40821
  {
  }

  /** Round 1, md5.c:166-181. */
  method Round1(a0: Word, b0: Word, c0: Word, d0: Word, x: array<Word>) returns (a: Word, b: Word, c: Word, d: Word)
    requires x.Length == 16
    ensures Digester(a, b, c, d) == Steps(Digester(a0, b0, c0, d0), x[..], 0, 16)
  {
    hide F, G, H, I, RotateLeft, Steps, FF, GG, HH, II, Index, Shift, T;
    Table1();
    ghost var w := x[..];
    a, b, c, d := a0, b0, c0, d0;
    SixteenSteps(0, Digester(a, b, c, d), w);
    FourSteps(0, Digester(a, b, c, d), w);
    a := FF(a, b, c, d, x[0], S11, 0xd76aa478);
    d := FF(d, a, b, c, x[1], S12, 0xe8c7b756);
    c := FF(c, d, a, b, x[2], S13, 0x242070db);
    b := FF(b, c, d, a, x[3], S14, 0xc1bdceee);
    FourSteps(4, Digester(a, b, c, d), w);
    a := FF(a, b, c, d, x[4], S11, 0xf57c0faf);
    d := FF(d, a, b, c, x[5], S12, 0x4787c62a);
    c := FF(c, d, a, b, x[6], S13, 0xa8304613);
    b := FF(b, c, d, a, x[7], S14, 0xfd469501);
    FourSteps(8, Digester(a, b, c, d), w);
    a := FF(a, b, c, d, x[8], S11, 0x698098d8);
    d := FF(d, a, b, c, x[9], S12, 0x8b44f7af);
    c := FF(c, d, a, b, x[10], S13, 0xffff5bb1);
    b := FF(b, c, d, a, x[11], S14, 0x895cd7be);
    FourSteps(12, Digester(a, b, c, d), w);
    a := FF(a, b, c, d, x[12], S11, 0x6b901122);
    d := FF(d, a, b, c, x[13], S12, 0xfd987193);
    c := FF(c, d, a, b, x[14], S13, 0xa679438e);
    b := FF(b, c, d, a, x[15], S14, 0x49b40821);
  }

  lemma Table2()
    ensures Index(16) == 1 && Index(17) == 6 && Index(18) == 11 && Index(19) == 0
    ensures Index(20) == 5 && Index(21) == 10 && Index(22) == 15 && Index(23) == 4
    ensures Index(24) == 9 && Index(25) == 14 && Index(26) == 3 && Index(27) == 8
    ensures Index(28) == 13 && Index(29) == 2 && Index(30) == 7 && Index(31) == 12
    ensures Shift(16) == S21 && Shift(17) == S22 && Shift(18) == S23 && Shift(19) == S24
    ensures Shift(20) == S21 && Shift(21) == S22 && Shift(22) == S23 && Shift(23) == S24
    ensures Shift(24) == S21 && Shift(25) == S22 && Shift(26) == S23 && Shift(27) == S24
    ensures Shift(28) == S21 && Shift(29) == S22 && Shift(30) == S23 && Shift(31) == S24
    ensures T(16) == 0xf61e2562 && T(17) == 0xc040b340 && T(18) == 0x265e5a51 && T(19) == 0xe9b6c7aa
    ensures T(20) == 0xd62f105d && T(21) == 0x2441453 && T(22) == 0xd8a1e681 && T(23) == 0xe7d3fbc8
    ensures T(24) == 0x21e1cde6 && T(25) == 0xc33707d6 && T(26) == 0xf4d50d87 && T(27) == 0x455a14ed
    ensures T(28) == 0xa9e3e905 && T(29) == 0xfcefa3f8 && T(30) == 0x676f02d9 && T(31) == 0x8d2a4c8a
  {
  }

  /** Round 2, md5.c:184-199. */
  method Round2(a0: Word, b0: Word, c0: Word, d0: Word, x: array<Word>) returns (a: Word, b: Word, c: Word, d: Word)
    requires x.Length == 16
    ensures Digester(a, b, c, d) == Steps(Digester(a0, b0, c0, d0), x[..], 16, 16)
  {
    hide F, G, H, I, RotateLeft, Steps, FF, GG, HH, II, Index, Shift, T;
    Table2();
    ghost var w := x[..];
    a, b, c, d := a0, b0, c0, d0;
    SixteenSteps(16, Digester(a, b, c, d), w);
    FourSteps(16, Digester(a, b, c, d), w);
    a := GG(a, b, c, d, x[1], S21, 0xf61e2562);
    d := GG(d, a, b, c, x[6], S22, 0xc040b340);
    c := GG(c, d, a, b, x[11], S23, 0x265e5a51);
    b := GG(b, c, d, a, x[0], S24, 0xe9b6c7aa);
    FourSteps(20, Digester(a, b, c, d), w);
    a := GG(a, b, c, d, x[5], S21, 0xd62f105d);
    d := GG(d, a, b, c, x[10], S22, 0x2441453);
    c := GG(c, d, a, b, x[15], S23, 0xd8a1e681);
    b := GG(b, c, d, a, x[4], S24, 0xe7d3fbc8);
    FourSteps(24, Digester(a, b, c, d), w);
    a := GG(a, b, c, d, x[9], S21, 0x21e1cde6);
    d := GG(d, a, b, c, x[14], S22, 0xc33707d6);
    c := GG(c, d, a, b, x[3], S23, 0xf4d50d87);
    b := GG(b, c, d, a, x[8], S24, 0x455a14ed);
    FourSteps(28, Digester(a, b, c, d), w);
    a := GG(a, b, c, d, x[13], S21, 0xa9e3e905);
    d := GG(d, a, b, c, x[2], S22, 0xfcefa3f8);
    c := GG(c, d, a, b, x[7], S23, 0x676f02d9);
    b := GG(b, c, d, a, x[12], S24, 0x8d2a4c8a);
  }

  lemma Table3()
    ensures Index(32) == 5 && Index(33) == 8 && Index(34) == 11 && Index(35) == 14
    ensures Index(36) == 1 && Index(37) == 4 && Index(38) == 7 && Index(39) == 10
    ensures Index(40) == 13 && Index(41) == 0 && Index(42) == 3 && Index(43) == 6
    ensures Index(44) == 9 && Index(45) == 12 && Index(46) == 15 && Index(47) == 2
    ensures Shift(32) == S31 && Shift(33) == S32 && Shift(34) == S33 && Shift(35) == S34
    ensures Shift(36) == S31 && Shift(37) == S32 && Shift(38) == S33 && Shift(39) == S34
    ensures Shift(40) == S31 && Shift(41) == S32 && Shift(42) == S33 && Shift(43) == S34
    ensures Shift(44) == S31 && Shift(45) == S32 && Shift(46) == S33 && Shift(47) == S34
    ensures T(32) == 0xfffa3942 && T(33) == 0x8771f681 && T(34) == 0x6d9d6122 && T(35) == 0xfde5380c
    ensures T(36) == 0xa4beea44 && T(37) == 0x4bdecfa9 && T(38) == 0xf6bb4b60 && T(39) == 0xbebfbc70
    ensures T(40) == 0x289b7ec6 && T(41) == 0xeaa127fa && T(42) == 0xd4ef3085 && T(43) == 0x4881d05
    ensures T(44) == 0xd9d4d039 && T(45) == 0xe6db99e5 && T(46) == 0x1fa27cf8 && T(47) == 0xc4ac5665
  {
  }

  /** Round 3, md5.c:202-217. */
  method Round3(a0: Word, b0: Word, c0: Word, d0: Word, x: array<Word>) returns (a: Word, b: Word, c: Word, d: Word)
    requires x.Length == 16
    ensures Digester(a, b, c, d) == Steps(Digester(a0, b0, c0, d0), x[..], 32, 16)
  {
    hide F, G, H, I, RotateLeft, Steps, FF, GG, HH, II, Index, Shift, T;
    Table3();
    ghost var w := x[..];
    a, b, c, d := a0, b0, c0, d0;
    SixteenSteps(32, Digester(a, b, c, d), w);
    FourSteps(32, Digester(a, b, c, d), w);
    a := HH(a, b, c, d, x[5], S31, 0xfffa3942);
    d := HH(d, a, b, c, x[8], S32, 0x8771f681);
    c := HH(c, d, a, b, x[11], S33, 0x6d9d6122);
    b := HH(b, c, d, a, x[14], S34, 0xfde5380c);
    FourSteps(36, Digester(a, b, c, d), w);
    a := HH(a, b, c, d, x[1], S31, 0xa4beea44);
    d := HH(d, a, b, c, x[4], S32, 0x4bdecfa9);
    c := HH(c, d, a, b, x[7], S33, 0xf6bb4b60);
    b := HH(b, c, d, a, x[10], S34, 0xbebfbc70);
    FourSteps(40, Digester(a, b, c, d), w);
    a := HH(a, b, c, d, x[13], S31, 0x289b7ec6);
    d := HH(d, a, b, c, x[0], S32, 0xeaa127fa);
    c := HH(c, d, a, b, x[3], S33, 0xd4ef3085);
    b := HH(b, c, d, a, x[6], S34, 0x4881d05);
    FourSteps(44, Digester(a, b, c, d), w);
    a := HH(a, b, c, d, x[9], S31, 0xd9d4d039);
    d := HH(d, a, b, c, x[12], S32, 0xe6db99e5);
    c := HH(c, d, a, b, x[15], S33, 0x1fa27cf8);
    b := HH(b, c, d, a, x[2], S34, 0xc4ac5665);
  }

  lemma Table4()
    ensures Index(48) == 0 && Index(49) == 7 && Index(50) == 14 && Index(51) == 5
    ensures Index(52) == 12 && Index(53) == 3 && Index(54) == 10 && Index(55) == 1
    ensures Index(56) == 8 && Index(57) == 15 && Index(58) == 6 && Index(59) == 13
    ensures Index(60) == 4 && Index(61) == 11 && Index(62) == 2 && Index(63) == 9
    ensures Shift(48) == S41 && Shift(49) == S42 && Shift(50) == S43 && Shift(51) == S44
    ensures Shift(52) == S41 && Shift(53) == S42 && Shift(54) == S43 && Shift(55) == S44
    ensures Shift(56) == S41 && Shift(57) == S42 && Shift(58) == S43 && Shift(59) == S44
    ensures Shift(60) == S41 && Shift(61) == S42 && Shift(62) == S43 && Shift(63) == S44
    ensures T(48) == 0xf4292244 && T(49) == 0x432aff97 && T(50) == 0xab9423a7 && T(51) == 0xfc93a039
    ensures T(52) == 0x655b59c3 && T(53) == 0x8f0ccc92 && T(54) == 0xffeff47d && T(55) == 0x85845dd1
    ensures T(56) == 0x6fa87e4f && T(57) == 0xfe2ce6e0 && T(58) == 0xa3014314 && T(59) == 0x4e0811a1
    ensures T(60) == 0xf7537e82 && T(61) == 0xbd3af235 && T(62) == 0x2ad7d2bb && T(63) == 0xeb86d391
  {
  }

  /** Round 4, md5.c:220-235. */
  method Round4(a0: Word, b0: Word, c0: Word, d0: Word, x: array<Word>) returns (a: Word, b: Word, c: Word, d: Word)
    requires x.Length == 16
    ensures Digester(a, b, c, d) == Steps(Digester(a0, b0, c0, d0), x[..], 48, 16)
  {
    hide F, G, H, I, RotateLeft, Steps, FF, GG, HH, II, Index, Shift, T;
    Table4();
    ghost var w := x[..];
    a, b, c, d := a0, b0, c0, d0;
    SixteenSteps(48, Digester(a, b, c, d), w);
    FourSteps(48, Digester(a, b, c, d), w);
    a := II(a, b, c, d, x[0], S41, 0xf4292244);
    d := II(d, a, b, c, x[7], S42, 0x432aff97);
    c := II(c, d, a, b, x[14], S43, 0xab9423a7);
    b := II(b, c, d, a, x[5], S44, 0xfc93a039);
    FourSteps(52, Digester(a, b, c, d), w);
    a := II(a, b, c, d, x[12], S41, 0x655b59c3);
    d := II(d, a, b, c, x[3], S42, 0x8f0ccc92);
    c := II(c, d, a, b, x[10], S43, 0xffeff47d);
    b := II(b, c, d, a, x[1], S44, 0x85845dd1);
    FourSteps(56, Digester(a, b, c, d), w);
    a := II(a, b, c, d, x[8], S41, 0x6fa87e4f);
    d := II(d, a, b, c, x[15], S42, 0xfe2ce6e0);
    c := II(c, d, a, b, x[6], S43, 0xa3014314);
    b := II(b, c, d, a, x[13], S44, 0x4e0811a1);
    FourSteps(60, Digester(a, b, c, d), w);
    a := II(a, b, c, d, x[4], S41, 0xf7537e82);
    d := II(d, a, b, c, x[11], S42, 0xbd3af235);
    c := II(c, d, a, b, x[2], S43, 0x2ad7d2bb);
    b := II(b, c, d, a, x[9], S44, 0xeb86d391);
  }

  // ---------- the operations undo ----------

  lemma RotateBack1(x: Word, n: Word)
    requires n == 7 || n == 12 || n == 17 || n == 22
    ensures RotateRight(RotateLeft(x, n), n) == x
  {
    if n == 7 {
      assert RotateRight(RotateLeft(x, 7), 7) == x;
    } else if n == 12 {
      assert RotateRight(RotateLeft(x, 12), 12) == x;
    } else if n == 17 {
      assert RotateRight(RotateLeft(x, 17), 17) == x;
    } else {
      assert RotateRight(RotateLeft(x, 22), 22) == x;
    }
  }

  lemma RotateForth1(x: Word, n: Word)
    requires n == 7 || n == 12 || n == 17 || n == 22
    ensures RotateLeft(RotateRight(x, n), n) == x
  {
    if n == 7 {
      assert RotateLeft(RotateRight(x, 7), 7) == x;
    } else if n == 12 {
      assert RotateLeft(RotateRight(x, 12), 12) == x;
    } else if n == 17 {
      assert RotateLeft(RotateRight(x, 17), 17) == x;
    } else {
      assert RotateLeft(RotateRight(x, 22), 22) == x;
    }
  }

  lemma RotateBack2(x: Word, n: Word)
    requires n == 5 || n == 9 || n == 14 || n == 20
    ensures RotateRight(RotateLeft(x, n), n) == x
  {
    if n == 5 {
      assert RotateRight(RotateLeft(x, 5), 5) == x;
    } else if n == 9 {
      assert RotateRight(RotateLeft(x, 9), 9) == x;
    } else if n == 14 {
      assert RotateRight(RotateLeft(x, 14), 14) == x;
    } else {
      assert RotateRight(RotateLeft(x, 20), 20) == x;
    }
  }

  lemma RotateForth2(x: Word, n: Word)
    requires n == 5 || n == 9 || n == 14 || n == 20
    ensures RotateLeft(RotateRight(x, n), n) == x
  {
    if n == 5 {
      assert RotateLeft(RotateRight(x, 5), 5) == x;
    } else if n == 9 {
      assert RotateLeft(RotateRight(x, 9), 9) == x;
    } else if n == 14 {
      assert RotateLeft(RotateRight(x, 14), 14) == x;
    } else {
      assert RotateLeft(RotateRight(x, 20), 20) == x;
    }
  }

  lemma RotateBack3(x: Word, n: Word)
    requires n == 4 || n == 11 || n == 16 || n == 23
    ensures RotateRight(RotateLeft(x, n), n) == x
  {
    if n == 4 {
      assert RotateRight(RotateLeft(x, 4), 4) == x;
    } else if n == 11 {
      assert RotateRight(RotateLeft(x, 11), 11) == x;
    } else if n == 16 {
      assert RotateRight(RotateLeft(x, 16), 16) == x;
    } else {
      assert RotateRight(RotateLeft(x, 23), 23) == x;
    }
  }

  lemma RotateForth3(x: Word, n: Word)
    requires n == 4 || n == 11 || n == 16 || n == 23
    ensures RotateLeft(RotateRight(x, n), n) == x
  {
    if n == 4 {
      assert RotateLeft(RotateRight(x, 4), 4) == x;
    } else if n == 11 {
      assert RotateLeft(RotateRight(x, 11), 11) == x;
    } else if n == 16 {
      assert RotateLeft(RotateRight(x, 16), 16) == x;
    } else {
      assert RotateLeft(RotateRight(x, 23), 23) == x;
    }
  }

  lemma RotateBack4(x: Word, n: Word)
    requires n == 6 || n == 10 || n == 15 || n == 21
    ensures RotateRight(RotateLeft(x, n), n) == x
  {
    if n == 6 {
      assert RotateRight(RotateLeft(x, 6), 6) == x;
    } else if n == 10 {
      assert RotateRight(RotateLeft(x, 10), 10) == x;
    } else if n == 15 {
      assert RotateRight(RotateLeft(x, 15), 15) == x;
    } else {
      assert RotateRight(RotateLeft(x, 21), 21) == x;
    }
  }

  lemma RotateForth4(x: Word, n: Word)
    requires n == 6 || n == 10 || n == 15 || n == 21
    ensures RotateLeft(RotateRight(x, n), n) == x
  {
    if n == 6 {
      assert RotateLeft(RotateRight(x, 6), 6) == x;
    } else if n == 10 {
      assert RotateLeft(RotateRight(x, 10), 10) == x;
    } else if n == 15 {
      assert RotateLeft(RotateRight(x, 15), 15) == x;
    } else {
      assert RotateLeft(RotateRight(x, 21), 21) == x;
    }
  }

  /** Rotating by the amount of operation `i` and back, one round of shift amounts at a time. */
  lemma Rotations(x: Word, i: nat)
    requires i < 64
    ensures RotateRight(RotateLeft(x, Shift(i)), Shift(i)) == x
    ensures RotateLeft(RotateRight(x, Shift(i)), Shift(i)) == x
  {
    hide RotateLeft, RotateRight;
    if i < 16 {
      RotateBack1(x, Shift(i));
      RotateForth1(x, Shift(i));
    } else if i < 32 {
      RotateBack2(x, Shift(i));
      RotateForth2(x, Shift(i));
    } else if i < 48 {
      RotateBack3(x, Shift(i));
      RotateForth3(x, Shift(i));
    } else {
      RotateBack4(x, Shift(i));
      RotateForth4(x, Shift(i));
    }
  }

  function Difference(s: Word, f: Word, x: Word, t: Word): Word { s - t - x - f }
  function Minus(a: Word, b: Word): Word { a - b }

  /** Operation `i` backwards. */
  function Unstep(i: nat, st: Digester, x: seq<Word>): Digester
    requires i < 64 && |x| == 16
  {
    var sum := RotateRight(Minus(st.b, st.c), Shift(i));
    Digester(Difference(sum, Mix(i, st.c, st.d, st.a), x[Index(i)], T(i)), st.c, st.d, st.a)
  }

  lemma SameDifference(p: Word, q: Word, f: Word, x: Word, t: Word)
    requires p == q
    ensures p - t - x - f == q - t - x - f && p + f + x + t == q + f + x + t
  {
  }

  lemma Cancel(a: Word, f: Word, x: Word, t: Word)
    ensures Difference(Sum(a, f, x, t), f, x, t) == a
    ensures Sum(Difference(a, f, x, t), f, x, t) == a
  {
    SameDifference(Sum(a, f, x, t), a + f + x + t, f, x, t);
    SameDifference(Difference(a, f, x, t), a - t - x - f, f, x, t);
  }

  lemma SameShift(p: Word, q: Word, a: Word)
    requires p == q
    ensures p - a == q - a && a + p == a + q
  {
  }

  lemma CancelOne(a: Word, b: Word)
    ensures Minus(Plus(a, b), a) == b && Plus(a, Minus(b, a)) == b
  {
    SameShift(Plus(a, b), a + b, a);
    SameShift(Minus(b, a), b - a, a);
  }

  lemma UnstepStep(i: nat, st: Digester, x: seq<Word>)
    requires i < 64 && |x| == 16
    ensures Unstep(i, Step(i, st, x), x) == st
  {
    hide Mix, T, Shift, Index, RotateLeft, RotateRight, Sum, Plus, Minus, Difference;
    var f := Mix(i, st.b, st.c, st.d);
    var sum := Sum(st.a, f, x[Index(i)], T(i));
    CancelOne(st.b, RotateLeft(sum, Shift(i)));
    Rotations(sum, i);
    Cancel(st.a, f, x[Index(i)], T(i));
  }

  lemma StepUnstep(i: nat, st: Digester, x: seq<Word>)
    requires i < 64 && |x| == 16
    ensures Step(i, Unstep(i, st, x), x) == st
  {
    hide Mix, T, Shift, Index, RotateLeft, RotateRight, Sum, Plus, Minus, Difference;
    var sum := RotateRight(Minus(st.b, st.c), Shift(i));
    Cancel(sum, Mix(i, st.c, st.d, st.a), x[Index(i)], T(i));
    Rotations(Minus(st.b, st.c), i);
    CancelOne(st.c, st.b);
  }

  /** Operations `from + n - 1` down to `from`, backwards. */
  function Unsteps(st: Digester, x: seq<Word>, from: nat, n: nat): Digester
    requires from + n <= 64 && |x| == 16
    decreases n
  {
    if n == 0 then st else Unstep(from, Unsteps(st, x, from + 1, n - 1), x)
  }

  /** For every block the operations before the feed-forward are a bijection on four-word states. */
  lemma {:induction false} StepsInvertible(st: Digester, x: seq<Word>, from: nat, n: nat)
    requires from + n <= 64 && |x| == 16
    ensures Unsteps(Steps(st, x, from, n), x, from, n) == st
    ensures Steps(Unsteps(st, x, from, n), x, from, n) == st
    decreases n
  {
    hide Step, Unstep;
    if n > 0 {
      UnstepStep(from, st, x);
      StepsInvertible(Step(from, st, x), x, from + 1, n - 1);
      StepUnstep(from, Unsteps(st, x, from + 1, n - 1), x);
      StepsInvertible(st, x, from + 1, n - 1);
    }
  }
}
