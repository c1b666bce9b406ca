/** The streaming digest of md5.c on its arrays, proved against Md5Spec for every way of cutting the message. */
module Md5 {
  import opened LibTypes
  import opened Md5Spec
  import opened Md5Transform

  const TWO_64 := 0x1_0000_0000_0000_0000

  // ---------- codecs, md5.c:250-275 ----------

  lemma {:induction false} WordsAppend(s: seq<Byte>, b0: Byte, b1: Byte, b2: Byte, b3: Byte)
    requires |s| % 4 == 0
    ensures Words(s + [b0, b1, b2, b3]) == Words(s) + [WordOf(b0, b1, b2, b3)]
  {
    hide WordOf;
    if s != [] {
      assert (s + [b0, b1, b2, b3])[4..] == s[4..] + [b0, b1, b2, b3];
      WordsAppend(s[4..], b0, b1, b2, b3);
    }
  }

  lemma {:induction false} BytesAppend(ws: seq<Word>, w: Word)
    ensures Bytes(ws + [w]) == Bytes(ws) + BytesOf(w)
  {
    hide BytesOf;
    if ws != [] {
      assert (ws + [w])[1..] == ws[1..] + [w];
      BytesAppend(ws[1..], w);
    }
  }

  lemma EmptyWords(s: seq<Byte>)
    ensures s == [] ==> Words(s) == []
  {
  }

  method Decode(output: array<Word>, input: array<Byte>, off: nat, len: nat)
    requires len % 4 == 0 && off + len <= input.Length && len / 4 <= output.Length
    modifies output
    ensures output[..len / 4] == Words(input[off..off + len])
  {
    hide WordOf, Words;
    var i, j := 0, 0;
    EmptyWords(input[off..off]);
    while j < len
      invariant j == 4 * i && j <= len
      invariant output[..i] == Words(input[off..off + j])
    {
      output[i] := WordOf(input[off + j], input[off + j + 1], input[off + j + 2], input[off + j + 3]);
      WordsAppend(input[off..off + j], input[off + j], input[off + j + 1], input[off + j + 2], input[off + j + 3]);
      assert input[off..off + (j + 4)] ==
        input[off..off + j] + [input[off + j], input[off + j + 1], input[off + j + 2], input[off + j + 3]];
      i, j := i + 1, j + 4;
    }
  }

  /** One round of Encode, md5.c:256-259. */
  method PutWord(output: array<Byte>, j: nat, w: Word)
    requires j + 4 <= output.Length
    modifies output
    ensures output[..] == old(output[..j]) + BytesOf(w) + old(output[j + 4..])
  {
    output[j] := (w & 0xff) as Byte;
    output[j + 1] := ((w >> 8) & 0xff) as Byte;
    output[j + 2] := ((w >> 16) & 0xff) as Byte;
    output[j + 3] := ((w >> 24) & 0xff) as Byte;
  }

  method Encode(output: array<Byte>, input: array<Word>, len: nat)
    requires len % 4 == 0 && len <= output.Length && len / 4 <= input.Length
    modifies output
    ensures output[..len] == Bytes(input[..len / 4])
  {
    hide BytesOf, Bytes;
    var i, j := 0, 0;
    assert output[..j] == Bytes(input[..i]) by { assert input[..0] == []; EmptyBytes(); }
    while j < len
      invariant j == 4 * i && j <= len
      invariant output[..j] == Bytes(input[..i])
    {
      ghost var done, four := output[..j], BytesOf(input[i]);
      PutWord(output, j, input[i]);
      BytesAppend(input[..i], input[i]);
      assert input[..i + 1] == input[..i] + [input[i]];
      assert output[..j + 4] == done + four;
      i, j := i + 1, j + 4;
    }
  }

  method EncodePair(output: array<Byte>, lo: Word, hi: Word)
    requires output.Length == 8
    modifies output
    ensures output[..8] == Bytes([lo, hi])
  {
    hide Bytes;
    var words := new Word[2];
    words[0], words[1] := lo, hi;
    assert words[..8 / 4] == [lo, hi];
    Encode(output, words, 8);
  }

  lemma EmptyBytes()
    ensures Bytes([]) == []
  {
  }

  /** MD5_memcpy, md5.c:278-286. */
  method Copy(output: array<Byte>, to: nat, input: array<Byte>, from: nat, len: nat)
    requires to + len <= output.Length && from + len <= input.Length && output != input
    modifies output
    ensures output[..] == old(output[..to]) + input[from..from + len] + old(output[to + len..])
  {
    var i := 0;
    while i < len
      invariant i <= len
      invariant forall k :: 0 <= k < output.Length ==>
        output[k] == if to <= k < to + i then input[from + (k - to)] else old(output[k])
    {
      output[to + i] := input[from + i];
      i := i + 1;
    }
  }

  // ---------- the transform, md5.c:154-245 ----------

  ghost function StateOf(state: array<Word>): Digester
    requires state.Length == 4
    reads state
  {
    Digester(state[0], state[1], state[2], state[3])
  }

  /** md5.c:165-235. */
  method Rounds(a0: Word, b0: Word, c0: Word, d0: Word, x: array<Word>) returns (a: Word, b: Word, c: Word, d: Word)
    requires x.Length == 16
    ensures Digester(a, b, c, d) == Steps(Digester(a0, b0, c0, d0), x[..], 0, 64)
  {
    hide Steps;
    a, b, c, d := Round1(a0, b0, c0, d0, x);
    a, b, c, d := Round2(a, b, c, d, x);
    a, b, c, d := Round3(a, b, c, d, x);
    a, b, c, d := Round4(a, b, c, d, x);
    FourRounds(Digester(a0, b0, c0, d0), x[..]);
  }

  method Transform(state: array<Word>, block: array<Byte>, off: nat)
    requires state.Length == 4 && off + 64 <= block.Length
    modifies state
    ensures StateOf(state) == Compress(old(StateOf(state)), block[off..off + 64])
  {
    hide Steps, Words, Plus;
    var a, b, c, d := state[0], state[1], state[2], state[3];
    var x := new Word[16];
    Decode(x, block, off, 64);
    assert x[..] == x[..16];
    a, b, c, d := Rounds(a, b, c, d, x);
    state[0] := Plus(state[0], a);
    state[1] := Plus(state[1], b);
    state[2] := Plus(state[2], c);
    state[3] := Plus(state[3], d);
  }

  // ---------- folding over blocks ----------

  lemma {:induction false} FoldAppend(st: Digester, s: seq<Byte>, t: seq<Byte>)
    requires |s| % 64 == 0
    ensures Fold(st, s + t) == Fold(Fold(st, s), t)
    decreases |s|
  {
    hide Compress;
    if s == [] {
      assert s + t == t;
    } else {
      assert (s + t)[..64] == s[..64] && (s + t)[64..] == s[64..] + t;
      FoldAppend(Compress(st, s[..64]), s[64..], t);
    }
  }

  /** One more block. */
  lemma FoldNext(st: Digester, m: seq<Byte>, p: nat)
    requires p % 64 == 0 && p + 64 <= |m|
    ensures Fold(st, m[..p + 64]) == Compress(Fold(st, m[..p]), m[p..p + 64])
  {
    hide Compress;
    var block := m[p..p + 64];
    FoldAppend(st, m[..p], block);
    assert m[..p + 64] == m[..p] + block;
    assert block[..64] == block;
    assert Fold(Compress(Fold(st, m[..p]), block), block[64..]) == Compress(Fold(st, m[..p]), block);
  }

  // ---------- the bit counter, md5.c:91-99 ----------

  /** The hand-carried pair holds 8 times the number of bytes, modulo 2 to the 64. */
  ghost predicate Counts(lo: uint32, hi: uint32, n: nat) {
    lo + TWO_32 * hi == 8 * n % TWO_64
  }

  lemma NothingCounted()
    ensures Counts(0, 0, 0)
  {
  }

  lemma IndexIsRemainder(lo: uint32, hi: uint32, n: nat)
    requires Counts(lo, hi, n)
    ensures lo / 8 % 64 == n % 64
  {
  }

  lemma Boundary(n: nat)
    ensures n % 64 <= n < n - n % 64 + 64 && (n - n % 64) % 64 == 0
  {
  }

  function AddLow(lo: uint32, len: uint32): uint32 {
    (lo + 8 * len % TWO_32) % TWO_32
  }

  function AddHigh(lo: uint32, hi: uint32, len: uint32): uint32 {
    ((hi + if AddLow(lo, len) < 8 * len % TWO_32 then 1 else 0) % TWO_32 + len / 0x2000_0000) % TWO_32
  }

  /** The two shifts of inputLen, by 3 to the left and by 29 to the right, are the words of 8 * inputLen. */
  lemma ShiftParts(len: uint32)
    ensures 8 * len == 8 * len % TWO_32 + TWO_32 * (len / 0x2000_0000)
  {
    var k := len / 0x2000_0000;
    assert 8 * len == 8 * (len - 0x2000_0000 * k) + TWO_32 * k;
  }

  /** The comparison with the addend detects the carry exactly, so the pair goes on counting. */
  lemma CounterAdds(lo: uint32, hi: uint32, n: nat, len: uint32)
    requires Counts(lo, hi, n)
    ensures Counts(AddLow(lo, len), AddHigh(lo, hi, len), n + len)
  {
    var sh, up := 8 * len % TWO_32, len / 0x2000_0000;
    var carry := if AddLow(lo, len) < sh then 1 else 0;
    var k1 := WrapOf(hi, carry);
    var k2 := WrapOf((hi + carry) % TWO_32, up);
    assert AddHigh(lo, hi, len) == hi + carry + up - TWO_32 * (k1 + k2);
    var q := Quotient(lo, hi, n);
    CarryIsExact(lo, len);
    ShiftParts(len);
    hide AddLow, AddHigh, Counts;
    Remainder(AddLow(lo, len), AddHigh(lo, hi, len), n + len, q + k1 + k2);
  }

  lemma Quotient(lo: uint32, hi: uint32, n: nat) returns (q: int)
    requires Counts(lo, hi, n)
    ensures 8 * n == lo + TWO_32 * hi + TWO_64 * q
  {
    q := 8 * n / TWO_64;
  }

  lemma Remainder(lo: uint32, hi: uint32, n: nat, q: int)
    requires 8 * n == lo + TWO_32 * hi + TWO_64 * q
    ensures Counts(lo, hi, n)
  {
    var y, d, r := lo + TWO_32 * hi, 8 * n / TWO_64, 8 * n % TWO_64;
    assert 0 <= y < TWO_64 && y - r == TWO_64 * (d - q);
    assert d - q >= 1 ==> y - r >= TWO_64;
    assert d - q <= -1 ==> y - r <= -TWO_64;
    assert d == q;
  }

  lemma CarryIsExact(lo: uint32, len: uint32)
    ensures var sh, lo' := 8 * len % TWO_32, AddLow(lo, len);
      lo + sh == lo' + TWO_32 * if lo' < sh then 1 else 0
  {
  }

  lemma WrapOf(x: uint32, y: uint32) returns (k: int)
    ensures (x + y) % TWO_32 == x + y - TWO_32 * k
  {
    k := if x + y >= TWO_32 then 1 else 0;
  }

  lemma FourRounds(s: Digester, w: seq<Word>)
    requires |w| == 16
    ensures Steps(s, w, 0, 64) == Steps(Steps(Steps(Steps(s, w, 0, 16), w, 16, 16), w, 32, 16), w, 48, 16)
  {
    StepsSplit(s, w, 0, 16, 48);
    StepsSplit(Steps(s, w, 0, 16), w, 16, 16, 32);
    StepsSplit(Steps(Steps(s, w, 0, 16), w, 16, 16), w, 32, 16, 16);
    hide Steps;
  }

  // ---------- the block loop of MD5Update, md5.c:108 ----------

  /** The values `i` takes, when nothing wraps: the first 64 - index bytes fill the buffer, then whole blocks. */
  function BlockStart(index: nat, k: nat): int {
    64 - index + 64 * k
  }

  /** The guard `i + 63 < inputLen` in 32-bit arithmetic. */
  predicate MachineGuard(i: int, len: uint32) {
    (i + 63) % TWO_32 < len
  }

  lemma GuardDoesNotWrap(index: nat, len: uint32, k: nat)
    requires index < 64 && index + len < TWO_32 && BlockStart(index, k) <= len
    ensures BlockStart(index, k) + 63 < TWO_32
  {
    assert 64 * k <= TWO_32 - 64 - 1 < 64 * 0x3ff_ffff + 64 - 1;
    assert k < 0x3ff_ffff;
  }

  /** The guard admits a block only where a whole block is left if and only if index + inputLen fits 32 bits. Beyond,
      it wraps on the last partial block and the loop reads past the input. */
  lemma GuardIsExact(index: nat, len: uint32)
    requires index < 64 && 64 - index <= len
    ensures (forall k: nat :: BlockStart(index, k) <= len && MachineGuard(BlockStart(index, k), len) ==>
               BlockStart(index, k) + 64 <= len) <==> index + len < TWO_32
  {
    if index + len < TWO_32 {
      forall k: nat | BlockStart(index, k) <= len && MachineGuard(BlockStart(index, k), len)
        ensures BlockStart(index, k) + 64 <= len
      {
        GuardDoesNotWrap(index, len, k);
      }
    } else {
      var i := BlockStart(index, 0x3ff_ffff);
      assert i == TWO_32 - index && i <= len && (i + 63) % TWO_32 == 63 - index;
    }
  }

  /** The value of `i` before round `k` of the loop, in 32-bit arithmetic. */
  function MachineStart(index: nat, k: nat): int
    requires index < 64
  {
    if k == 0 then 64 - index else (MachineStart(index, k - 1) + 64) % TWO_32
  }

  /** Below the bound the machine computes the values that BlockStart gives. */
  lemma {:induction false} MachineIsExact(index: nat, len: uint32, k: nat)
    requires index < 64 && index + len < TWO_32 && BlockStart(index, k) <= len
    ensures MachineStart(index, k) == BlockStart(index, k)
  {
    if k > 0 {
      MachineIsExact(index, len, k - 1);
    }
  }

  /** At or beyond it the values go round and round, and every one of them passes the guard. */
  lemma {:induction false} MachineGoesRound(index: nat, len: uint32, k: nat) returns (m: nat)
    requires index < 64 && index + len >= TWO_32
    ensures 1 <= m <= 0x400_0000 && MachineStart(index, k) == 64 * m - index
    ensures MachineGuard(MachineStart(index, k), len)
  {
    if k == 0 {
      m := 1;
    } else {
      m := MachineGoesRound(index, len, k - 1);
      m := if m == 0x400_0000 then 1 else m + 1;
    }
  }

  /** The block loop of MD5Update ends if and only if index + inputLen fits 32 bits: beyond, after the last partial
      block `i` wraps to where it began. So MD5Update has a result on exactly these inputs. */
  lemma LoopEnds(index: nat, len: uint32)
    requires index < 64 && 64 - index <= len
    ensures (exists k: nat :: !MachineGuard(MachineStart(index, k), len)) <==> index + len < TWO_32
  {
    if index + len < TWO_32 {
      var k := (len - (64 - index)) / 64;
      MachineIsExact(index, len, k);
      GuardDoesNotWrap(index, len, k);
      assert !MachineGuard(MachineStart(index, k), len);
    } else {
      forall k: nat
        ensures MachineGuard(MachineStart(index, k), len)
      {
        var _ := MachineGoesRound(index, len, k);
      }
    }
  }

  lemma SameSlice(all: seq<Byte>, from: nat, tail: seq<Byte>, i: nat)
    requires from <= |all| && all[from..] == tail && i + 64 <= |tail|
    ensures all[from + i..from + i + 64] == tail[i..i + 64]
  {
  }

  /** The bytes buffered behind a block boundary and the ones that follow them make the next block. */
  lemma BlockJoins(m: seq<Byte>, all: seq<Byte>, index: nat)
    requires index <= |m| && index < 64 && m <= all && |m| - index + 64 <= |all|
    ensures var base := |m| - index;
      all[base..base + 64] == m[base..] + all[|m|..base + 64] && all[..base] == m[..base]
  {
    assert all[..|m|] == m;
  }

  // ---------- the context ----------

  class Context {
    const state: array<Word>
    const count: array<uint32>
    const buffer: array<Byte>
    ghost var absorbed: seq<Byte>  // the message so far

    /** State folds every complete block of the message so far, the buffer holds the rest, and the pair counts its
        bits. */
    ghost predicate Holds(m: seq<Byte>)
      reads state, count, buffer
    {
      && state.Length == 4 && count.Length == 2 && buffer.Length == 64
      && StateOf(state) == Fold(INITIAL, m[..|m| - |m| % 64])
      && buffer[..|m| % 64] == m[|m| - |m| % 64..]
      && Counts(count[0], count[1], |m|)
    }

    ghost predicate Valid()
      reads this, state, count, buffer
    {
      Holds(absorbed)
    }

    constructor ()
      ensures state.Length == 4 && count.Length == 2 && buffer.Length == 64
      ensures fresh(state) && fresh(count) && fresh(buffer)
    {
      state := new Word[4];
      count := new uint32[2];
      buffer := new Byte[64];
      absorbed := [];
    }

    /** MD5Init, md5.c:71-79. */
    method Init()
      requires state.Length == 4 && count.Length == 2 && buffer.Length == 64
      modifies this, state, count
      ensures Valid() && absorbed == []
    {
      count[0], count[1] := 0, 0;
      state[0], state[1], state[2], state[3] := 0x67452301, 0xefcdab89, 0x98badcfe, 0x10325476;
      absorbed := [];
      assert Fold(INITIAL, absorbed[..0]) == INITIAL;
      hide Fold, Counts;
      assert Counts(count[0], count[1], 0) by { NothingCounted(); }
    }

    /** MD5Update, md5.c:91-99. */
    method AddBits(len: uint32, ghost n: nat)
      requires count.Length == 2 && Counts(count[0], count[1], n)
      modifies count
      ensures Counts(count[0], count[1], n + len)
    {
      ghost var lo, hi := count[0], count[1];
      CounterAdds(lo, hi, n, len);
      hide Counts;
      var shifted: uint32 := 8 * len % TWO_32;
      count[0] := (count[0] + shifted) % TWO_32;
      if count[0] < shifted {
        count[1] := (count[1] + 1) % TWO_32;
      }
      assert count[0] == AddLow(lo, len);
      assert count[1] == (hi + if AddLow(lo, len) < shifted then 1 else 0) % TWO_32;
      count[1] := (count[1] + len / 0x2000_0000) % TWO_32;
      assert count[1] == AddHigh(lo, hi, len);
    }

    /** MD5Update, md5.c:110: one block, taken from the input. */
    method NextBlock(input: array<Byte>, i: nat, ghost all: seq<Byte>, ghost p: nat)
      requires state.Length == 4 && i + 64 <= input.Length && p % 64 == 0 && p + 64 <= |all|
      requires StateOf(state) == Fold(INITIAL, all[..p]) && all[p..p + 64] == input[i..i + 64]
      modifies state
      ensures StateOf(state) == Fold(INITIAL, all[..p + 64])
    {
      hide Fold, Compress, StateOf;
      FoldNext(INITIAL, all, p);
      Transform(state, input, i);
    }

    /** MD5Update, md5.c:107-111: the whole blocks behind the first. */
    method WholeBlocks(input: array<Byte>, len: uint32, index: nat, ghost all: seq<Byte>, ghost base: nat)
      returns (i: nat)
      requires state.Length == 4 && len <= input.Length && index < 64 && 64 - index <= len && index + len < TWO_32
      requires base % 64 == 0 && |all| == base + index + len && all[base + index..] == input[..len]
      requires StateOf(state) == Fold(INITIAL, all[..base + 64])
      modifies state
      ensures 64 - index <= i <= len < i + 64 && (base + index + i) % 64 == 0
      ensures StateOf(state) == Fold(INITIAL, all[..base + index + i])
    {
      hide Fold, Compress, StateOf;
      ghost var k, p := 0, base + 64;
      i := 64 - index;
      GuardDoesNotWrap(index, len, k);
      while (i + 63) % TWO_32 < len
        invariant i == BlockStart(index, k) <= len && i + 63 < TWO_32
        invariant p == base + index + i <= |all| && p % 64 == 0
        invariant StateOf(state) == Fold(INITIAL, all[..p])
        decreases len - i
      {
        assert i + 63 < len;
        SameSlice(all, base + index, input[..len], i);
        assert input[..len][i..i + 64] == input[i..i + 64];
        NextBlock(input, i, all, p);
        assert i + 64 <= len < TWO_32;
        i := (i + 64) % TWO_32;
        k, p := k + 1, p + 64;
        GuardDoesNotWrap(index, len, k);
      }
    }

    /** The buffer and the state show `all` up to position `p`, a block boundary, and the bytes behind it. */
    ghost predicate ShowsAt(all: seq<Byte>, p: nat)
      requires p <= |all|
      reads state, buffer
    {
      && state.Length == 4 && buffer.Length == 64 && p % 64 == 0 && |all| < p + 64
      && StateOf(state) == Fold(INITIAL, all[..p]) && buffer[..|all| - p] == all[p..]
    }

    /** MD5Update, md5.c:104-105: the input completes the buffered block. */
    method FirstBlock(input: array<Byte>, index: nat, ghost m: seq<Byte>, ghost all: seq<Byte>)
      requires index < 64 && 64 - index <= input.Length && input != buffer
      requires index <= |m| && ShowsAt(m, |m| - index)
      requires m <= all && |m| - index + 64 <= |all| && all[|m|..|m| - index + 64] == input[..64 - index]
      modifies state, buffer
      ensures StateOf(state) == Fold(INITIAL, all[..|m| - index + 64])
    {
      hide Fold, Compress, StateOf;
      ghost var base := |m| - index;
      BlockJoins(m, all, index);
      Copy(buffer, index, input, 0, 64 - index);
      assert buffer[..] == all[base..base + 64];
      FoldNext(INITIAL, all, base);
      assert buffer[0..64] == buffer[..];
      Transform(state, buffer, 0);
    }

    /** MD5Update, md5.c:104-112 and 120: at least one block is completed. */
    method Complete(input: array<Byte>, len: uint32, index: nat, ghost m: seq<Byte>) returns (ghost p: nat)
      requires len <= input.Length && input != buffer
      requires index < 64 && 64 - index <= len && index + len < TWO_32
      requires index <= |m| && ShowsAt(m, |m| - index)
      modifies state, buffer
      ensures p <= |m + input[..len]| && ShowsAt(m + input[..len], p)
    {
      hide Fold, Compress, StateOf;
      ghost var all, base := m + input[..len], |m| - index;
      FirstBlock(input, index, m, all);
      assert all[base + index..] == input[..len];
      var i := WholeBlocks(input, len, index, all, base);
      Copy(buffer, 0, input, i, len - i);
      p := base + index + i;
      assert all[p..] == input[i..len];
    }

    /** MD5Update, md5.c:116 and 120: the bytes fit the buffer. */
    method Keep(input: array<Byte>, len: uint32, index: nat, ghost m: seq<Byte>) returns (ghost p: nat)
      requires len <= input.Length && input != buffer
      requires index < 64 && len < 64 - index
      requires index <= |m| && ShowsAt(m, |m| - index)
      modifies buffer
      ensures p <= |m + input[..len]| && ShowsAt(m + input[..len], p)
    {
      hide Fold, Compress;
      ghost var all, base := m + input[..len], |m| - index;
      Copy(buffer, index, input, 0, len);
      assert all[..base] == m[..base] && all[base..] == m[base..] + input[..len];
      p := base;
    }

    /** MD5Update, md5.c:86-122, on exactly the inputs on which its block loop ends (LoopEnds). */
    method Update(input: array<Byte>, len: uint32)
      requires Valid() && len <= input.Length && input != buffer
      requires |absorbed| % 64 + len < TWO_32
      modifies this, state, count, buffer
      ensures Valid() && absorbed == old(absorbed) + input[..len]
    {
      hide Fold, StateOf, Counts, ShowsAt, Holds;
      ghost var m, p := absorbed, 0;
      HoldsFrom(m);
      var index := count[0] / 8 % 64;
      AddBits(len, |m|);
      if len >= 64 - index {
        p := Complete(input, len, index, m);
      } else {
        p := Keep(input, len, index, m);
      }
      absorbed := m + input[..len];
      HoldsAt(absorbed, p);
    }

    lemma HoldsFrom(m: seq<Byte>)
      requires Holds(m)
      ensures state.Length == 4 && count.Length == 2 && buffer.Length == 64 && Counts(count[0], count[1], |m|)
      ensures var index := count[0] / 8 % 64; index == |m| % 64 && index <= |m| && ShowsAt(m, |m| - index)
    {
      hide Fold, StateOf, Counts;
      IndexIsRemainder(count[0], count[1], |m|);
      Boundary(|m|);
    }

    lemma HoldsAt(m: seq<Byte>, p: nat)
      requires p <= |m| && ShowsAt(m, p) && count.Length == 2 && Counts(count[0], count[1], |m|)
      ensures Holds(m)
    {
      hide Fold, StateOf, Counts;
      assert |m| - |m| % 64 == p;
    }

    /** MD5Final, md5.c:139-141: up to 8 bytes before a block boundary. */
    method AbsorbPadding()
      requires Valid()
      modifies this, state, count, buffer
      ensures Valid() && absorbed == old(absorbed) + Padding(PadLength(|old(absorbed)|))
    {
      hide Fold, Counts, StateOf, Padding, ShowsAt;
      ghost var m := absorbed;
      HoldsFrom(m);
      var index := count[0] / 8 % 64;
      var padLen := if index < 56 then 56 - index else 120 - index;
      PadLengthIs(|m|, padLen);
      var padding := new Byte[64](i => if i == 0 then 0x80 else 0);
      PaddingIs(padding[..], padLen);
      hide Holds;
      Update(padding, padLen);
    }

    /** MD5Final, md5.c:135-144: the length is saved, then padding and length are absorbed. */
    method Pad()
      requires Valid()
      modifies this, state, count, buffer
      ensures Valid() && absorbed == Padded(old(absorbed))
    {
      hide Fold, Counts, StateOf, Padding, ShowsAt, LengthBytes, PadLength;
      ghost var m := absorbed;
      HoldsFrom(m);
      var bits := new Byte[8];
      SaveBits(bits, |m|);
      hide Holds;
      AbsorbPadding();
      Boundary(|absorbed|);
      Update(bits, 8);
    }

    /** MD5Final, md5.c:127-147, up to the zeroising of the context. */
    method Final(digest: array<Byte>)
      requires Valid() && digest.Length >= 16 && digest != buffer
      modifies this, state, count, buffer, digest
      ensures digest[..16] == Digest(old(absorbed))
    {
      hide Fold, Bytes, StateOf, Padded, Holds;
      Pad();
      PaddedIsWhole(old(absorbed));
      WholeState(absorbed);
      StateWords();
      Encode(digest, state, 16);
    }

    /** MD5Final, md5.c:136. */
    method SaveBits(bits: array<Byte>, ghost n: nat)
      requires count.Length == 2 && Counts(count[0], count[1], n) && bits.Length == 8
      modifies bits
      ensures bits[..8] == LengthBytes(n)
    {
      LengthIs(count[0], count[1], n);
      hide ToWord, Bytes, LengthBytes, Counts;
      EncodePair(bits, ToWord(count[0]), ToWord(count[1]));
    }

    lemma WholeState(m: seq<Byte>)
      requires Holds(m) && |m| % 64 == 0
      ensures state.Length == 4 && StateOf(state) == Fold(INITIAL, m)
    {
      hide Fold, StateOf, Counts;
      assert m[..|m|] == m;
    }

    lemma StateWords()
      requires state.Length == 4
      ensures var r := StateOf(state); state[..4] == [r.a, r.b, r.c, r.d]
    {
    }
  }

  lemma LengthIs(lo: uint32, hi: uint32, n: nat)
    requires Counts(lo, hi, n)
    ensures LengthBytes(n) == Bytes([ToWord(lo), ToWord(hi)])
  {
    hide ToWord, Bytes;
    var bits := 8 * n % TWO_64;
    assert bits % TWO_32 == lo && bits / TWO_32 == hi;
  }

  lemma PadLengthIs(n: nat, padLen: int)
    requires padLen == if n % 64 < 56 then 56 - n % 64 else 120 - n % 64
    ensures 1 <= padLen <= 64 && padLen == PadLength(n)
  {
    assert (n + padLen) % 64 == 56;
    assert (n + PadLength(n)) % 64 == 56;
  }

  lemma PaddingIs(s: seq<Byte>, p: nat)
    requires 1 <= p <= 64 && |s| == 64 && forall i :: 0 <= i < 64 ==> s[i] == if i == 0 then 0x80 else 0
    ensures s[..p] == Padding(p)
  {
  }

  // ---------- a whole message in pieces ----------

  function Concat(chunks: seq<seq<Byte>>): seq<Byte> {
    if chunks == [] then [] else Concat(chunks[..|chunks| - 1]) + chunks[|chunks| - 1]
  }

  /** No update makes the block loop wrap; chunks of at most 2 to the 32 minus 64 bytes never do. */
  ghost predicate Digestible(chunks: seq<seq<Byte>>) {
    forall i :: 0 <= i < |chunks| ==> |Concat(chunks[..i])| % 64 + |chunks[i]| < TWO_32
  }

  lemma SmallChunksDigestible(chunks: seq<seq<Byte>>)
    requires forall i :: 0 <= i < |chunks| ==> |chunks[i]| <= TWO_32 - 64
    ensures Digestible(chunks)
  {
  }

  lemma ConcatNext(chunks: seq<seq<Byte>>, i: nat)
    requires i < |chunks|
    ensures Concat(chunks[..i + 1]) == Concat(chunks[..i]) + chunks[i]
  {
    assert chunks[..i + 1][..i] == chunks[..i];
  }

  method Absorb(context: Context, chunk: seq<Byte>)
    requires context.Valid() && |context.absorbed| % 64 + |chunk| < TWO_32
    modifies context, context.state, context.count, context.buffer
    ensures context.Valid() && context.absorbed == old(context.absorbed) + chunk
  {
    hide Context.Holds;
    var input := new Byte[|chunk|](j requires 0 <= j < |chunk| => chunk[j]);
    assert input[..|chunk|] == chunk;
    context.Update(input, |chunk|);
  }

  /** The loop of MDFile (mddriver.c:146-151): however the message is cut, the result is the digest of the whole. */
  method DigestInPieces(chunks: seq<seq<Byte>>) returns (digest: seq<Byte>)
    requires Digestible(chunks)
    ensures digest == Digest(Concat(chunks))
  {
    hide Digest, Context.Holds, Concat;
    var context := new Context();
    context.Init();
    assert Concat(chunks[..0]) == [] by { NoChunks(chunks[..0]); }
    var i := 0;
    while i < |chunks|
      invariant i <= |chunks|
      invariant context.Valid() && context.absorbed == Concat(chunks[..i])
    {
      Absorb(context, chunks[i]);
      ConcatNext(chunks, i);
      i := i + 1;
    }
    var output := new Byte[16];
    assert chunks[..i] == chunks;
    context.Final(output);
    digest := output[..16];
  }

  lemma NoChunks(chunks: seq<seq<Byte>>)
    ensures chunks == [] ==> Concat(chunks) == []
  {
  }
}
