/** The rules of the parallel list that are pure computations: permissions, walking order,
    comparator selection, and the shape on which the bulk delete goes wrong. */
module ListRules {

  datatype Tag = ReadTag | WriteTag | OtherTag

  /** The two counters of a node, ReadPermission and WritePermission. */
  datatype Counters = Counters(read: int, write: int)

  /** The grant test shared by the searches and by GetPermisssion: a tag that is neither read nor write passes. */
  predicate CanGrant(c: Counters, tag: Tag) {
    match tag
    case ReadTag => !(c.write > 0)
    case WriteTag => !(c.read > 0 || c.write > 0)
    case OtherTag => true
  }

  /** The grant test of GetNextNode and GetPreviousNode. */
  predicate IsFreeFor(c: Counters, tag: Tag) {
    match tag
    case ReadTag => c.write == 0
    case WriteTag => c.read == 0 && c.write == 0
    case OtherTag => false
  }

  function WithGrant(c: Counters, tag: Tag): Counters {
    match tag
    case ReadTag => c.(read := c.read + 1)
    case WriteTag => c.(write := c.write + 1)
    case OtherTag => c
  }

  /** The counter that a permission moves is up. */
  predicate Granted(c: Counters, tag: Tag) {
    match tag
    case ReadTag => c.read > 0
    case WriteTag => c.write > 0
    case OtherTag => true
  }

  /** The two forms of the test are one, for the two known tags and counters that are not negative. */
  lemma TestsAgree(c: Counters, tag: Tag)
    requires c.read >= 0 && c.write >= 0 && tag != OtherTag
    ensures CanGrant(c, tag) <==> IsFreeFor(c, tag)
  {
  }

  /** The counters after `n` grants for reading. */
  function AfterReads(c: Counters, n: nat): Counters {
    if n == 0 then c else WithGrant(AfterReads(c, n - 1), ReadTag)
  }

  /** Readers share: however many there are, the next is let in, unless somebody writes. Any of them keeps
      writers out. */
  lemma {:induction false} ReadersShare(c: Counters, n: nat)
    requires c.read == 0
    ensures AfterReads(c, n) == Counters(n, c.write)
    ensures CanGrant(AfterReads(c, n), ReadTag) <==> c.write <= 0
    ensures CanGrant(AfterReads(c, n), WriteTag) <==> n == 0 && c.write <= 0
  {
    if n > 0 {
      ReadersShare(c, n - 1);
    }
  }

  predicate IsHeld(c: Counters) {
    c.read > 0 || c.write > 0
  }

  /** The ring seen from its head walking backwards: head, last, last but one, ... */
  function Mirror<T>(s: seq<T>): (m: seq<T>)
    ensures |m| == |s|
    ensures forall k :: 0 <= k < |s| ==> m[k] == s[if k == 0 then 0 else |s| - k]
  {
    seq(|s|, k requires 0 <= k < |s| => s[if k == 0 then 0 else |s| - k])
  }

  /** Where position `i` of a ring of `n` nodes lies in the mirrored ring. */
  function MirrorIndex(i: nat, n: nat): (k: nat)
    requires i < n
    ensures k < n
  {
    if i == 0 then 0 else n - i
  }

  lemma MirrorTwice<T>(s: seq<T>)
    ensures Mirror(Mirror(s)) == s
    ensures forall i :: 0 <= i < |s| ==> Mirror(s)[MirrorIndex(i, |s|)] == s[i]
  {
  }

  datatype Start = AtHead | AtNode(i: nat)

  /** The nodes GetNextNode tries, in order: the whole ring when it starts from the list handle, otherwise
      every node after the cursor up to but excluding the cursor, which is tried only when it is alone. */
  function Candidates<T>(s: seq<T>, from: Start): seq<T>
    requires from.AtNode? ==> from.i < |s|
  {
    if from.AtHead? || |s| == 1 then s else s[from.i + 1..] + s[..from.i]
  }

  /** The least position holding `true`, or the length if there is none. */
  function FirstTrue(flags: seq<bool>): (k: nat)
    ensures k <= |flags|
    ensures k < |flags| ==> flags[k]
    ensures forall j :: 0 <= j < k ==> !flags[j]
  {
    if flags == [] || flags[0] then 0 else 1 + FirstTrue(flags[1..])
  }

  /** Two neighbouring unheld nodes, the second not the last of the ring, behind a held one. On exactly
      these shapes the bulk delete at list.c:1211 forgets the surviving predecessor. */
  ghost predicate LosesSurvivor(held: seq<bool>) {
    LosesWithin(held, |held| - 1)
  }

  ghost predicate LosesAt(held: seq<bool>, a: int, k: int) {
    0 <= a < k - 1 && k + 1 < |held| && held[a] && !held[k - 1] && !held[k]
  }

  /** The same, with the second unheld node before position `m`. */
  ghost predicate LosesWithin(held: seq<bool>, m: int) {
    exists a, k :: k < m && LosesAt(held, a, k)
  }

  /** The smallest ring on which it happens: held, unheld, unheld, and one more node. */
  lemma SmallestLoss(last: bool, held: seq<bool>)
    ensures LosesSurvivor([true, false, false, last])
    ensures |held| < 4 ==> !LosesSurvivor(held)
  {
    var f := [true, false, false, last];
    assert LosesAt(f, 0, 2);
  }

  // ---------- comparator selection ----------

  datatype Option<+T> = None | Some(value: T)

  /** list.c:347 and list.c:512 call the comparator but, through a comma operator, compare the user data
      pointer with AII_OK; the comparators of the repository are written to have their result compared. */
  datatype Reading = AsWritten | Intended

  predicate Verdict(v: Reading, result: int, userData: nat) {
    match v
    case AsWritten => userData == 0
    case Intended => result == 0
  }

  /** A signed mask shifted right arithmetically `i` times. */
  function Shifted(mask: int, i: nat): int {
    if i == 0 then mask else Shifted(mask, i - 1) / 2
  }

  predicate Selects(mask: int, keyWords: seq<nat>, i: nat)
    requires i < |keyWords|
  {
    Shifted(mask, i) % 2 == 1 && keyWords[i] != 0
  }

  function Pow2(n: nat): (p: nat)
    ensures p > 0
  {
    if n == 0 then 1 else 2 * Pow2(n - 1)
  }

  lemma HalfAgain(a: int, p: nat)
    requires p > 0
    ensures a / p / 2 == a / (2 * p)
  {
    var q := a / p;
    assert a == q * p + a % p;
    var h, r := q / 2, q % 2;
    assert q == 2 * h + r;
    assert a == h * (2 * p) + (r * p + a % p);
    assert 0 <= r * p + a % p < 2 * p by {
      if r == 0 {
        assert r * p == 0;
      } else {
        assert r * p == p;
      }
    }
    QuotientIs(a, 2 * p, h, r * p + a % p);
  }

  lemma QuotientIs(a: int, m: int, q: int, r: int)
    requires 0 <= r < m && a == q * m + r
    ensures a / m == q
  {
    var d := a / m;
    assert (d - q) * m == r - a % m;
    assert d - q >= 1 ==> (d - q) * m >= m;
    assert d - q <= -1 ==> (d - q) * m <= -m;
  }

  lemma {:induction false} ShiftedIs(mask: int, i: nat)
    ensures Shifted(mask, i) == mask / Pow2(i)
  {
    if i > 0 {
      ShiftedIs(mask, i - 1);
      HalfAgain(mask, Pow2(i - 1));
    }
  }

  /** Bit `i` of the mask, of weight two to the `i`, selects comparator `i`. */
  lemma SelectsByBit(mask: int, keyWords: seq<nat>, i: nat)
    requires i < |keyWords|
    ensures Selects(mask, keyWords, i) <==> (mask / Pow2(i)) % 2 == 1 && keyWords[i] != 0
  {
    ShiftedIs(mask, i);
  }

  /** The mask whose bit `i` is set where `chosen[i]` is. */
  function MaskOf(chosen: seq<bool>): nat {
    if chosen == [] then 0 else (if chosen[0] then 1 else 0) + 2 * MaskOf(chosen[1..])
  }

  lemma {:induction false} ShiftedMask(chosen: seq<bool>, i: nat)
    requires i <= |chosen|
    ensures Shifted(MaskOf(chosen), i) == MaskOf(chosen[i..])
  {
    if i > 0 {
      ShiftedMask(chosen, i - 1);
      assert chosen[i - 1..][1..] == chosen[i..];
    } else {
      assert chosen[0..] == chosen;
    }
  }

  /** A mask selects exactly the positions it was made from, keywords permitting. */
  lemma MaskSelects(chosen: seq<bool>, keyWords: seq<nat>, i: nat)
    requires i < |keyWords| && i < |chosen|
    ensures Selects(MaskOf(chosen), keyWords, i) <==> chosen[i] && keyWords[i] != 0
  {
    ShiftedMask(chosen, i);
  }

  /** A single bit selects a single comparator. */
  lemma {:induction false} OneBitSelectsOne(j: nat, keyWords: seq<nat>, i: nat)
    requires i < |keyWords|
    ensures Selects(Pow2(j), keyWords, i) <==> i == j && keyWords[i] != 0
  {
    ShiftedPower(j, i);
  }

  lemma {:induction false} ShiftedPower(j: nat, i: nat)
    ensures Shifted(Pow2(j), i) == if i <= j then Pow2(j - i) else 0
  {
    if i > 0 {
      ShiftedPower(j, i - 1);
    }
  }

  /** A comparison callback: node data and keyword to a status, AII_OK for a match. */
  datatype Comparator = Comparator(run: (nat, nat) -> int)

  /** FindSW accepts a node that passes some selected comparator. */
  ghost predicate PassesSome(v: Reading, cmp: seq<Comparator>, keyWords: seq<nat>, mask: int, userData: nat, data: nat)
    requires |cmp| <= |keyWords|
  {
    exists i :: 0 <= i < |cmp| && Selects(mask, keyWords, i) && Verdict(v, cmp[i].run(data, keyWords[i]), userData)
  }

  function UserDataOf(userData: Option<seq<nat>>, i: nat): nat
    requires userData.Some? ==> i < |userData.value|
  {
    if userData.None? then 0 else userData.value[i]
  }

  /** FindMW accepts a node that passes all selected comparators. */
  ghost predicate PassesAll(v: Reading, cmp: seq<Comparator>, keyWords: seq<nat>, mask: int,
                            userData: Option<seq<nat>>, data: nat)
    requires |cmp| <= |keyWords| && (userData.Some? ==> |cmp| <= |userData.value|)
  {
    forall i :: 0 <= i < |cmp| && Selects(mask, keyWords, i) ==>
      Verdict(v, cmp[i].run(data, keyWords[i]), UserDataOf(userData, i))
  }

  /** What passing some or all selected comparators means, bit by bit and without their names. */
  lemma PassesSomeMeans(v: Reading, cmp: seq<Comparator>, keyWords: seq<nat>, mask: int, userData: nat, data: nat)
    requires |cmp| <= |keyWords|
    ensures PassesSome(v, cmp, keyWords, mask, userData, data) <==>
      exists i :: 0 <= i < |cmp| && (mask / Pow2(i)) % 2 == 1 && keyWords[i] != 0 &&
                  (if v == AsWritten then userData == 0 else cmp[i].run(data, keyWords[i]) == 0)
  {
    forall i | 0 <= i < |cmp|
      ensures Selects(mask, keyWords, i) <==> (mask / Pow2(i)) % 2 == 1 && keyWords[i] != 0
    {
      SelectsByBit(mask, keyWords, i);
    }
    hide Selects, Shifted, Pow2;
    if i :| 0 <= i < |cmp| && (mask / Pow2(i)) % 2 == 1 && keyWords[i] != 0 &&
            (if v == AsWritten then userData == 0 else cmp[i].run(data, keyWords[i]) == 0)
    {
      assert Selects(mask, keyWords, i);
    }
  }

  lemma PassesAllMeans(v: Reading, cmp: seq<Comparator>, keyWords: seq<nat>, mask: int, userData: Option<seq<nat>>,
                       data: nat)
    requires |cmp| <= |keyWords| && (userData.Some? ==> |cmp| <= |userData.value|)
    ensures PassesAll(v, cmp, keyWords, mask, userData, data) <==>
      forall i :: 0 <= i < |cmp| && (mask / Pow2(i)) % 2 == 1 && keyWords[i] != 0 ==>
        if v == AsWritten then userData.Some? ==> userData.value[i] == 0 else cmp[i].run(data, keyWords[i]) == 0
  {
    forall i | 0 <= i < |cmp|
      ensures Selects(mask, keyWords, i) <==> (mask / Pow2(i)) % 2 == 1 && keyWords[i] != 0
    {
      SelectsByBit(mask, keyWords, i);
    }
    hide Selects, Shifted, Pow2;
  }

  ghost predicate SelectsAny(cmp: seq<Comparator>, keyWords: seq<nat>, mask: int)
    requires |cmp| <= |keyWords|
  {
    exists i :: 0 <= i < |cmp| && Selects(mask, keyWords, i)
  }
}
