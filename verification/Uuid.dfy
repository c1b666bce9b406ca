/** UUID v1 packing and ordering, source/utility/uuid/uuid.c, after RFC 4122 (2005) sections 4.1 and 4.2.2. Masks are
    remainders, right shifts are quotients, and the bits set with |= are clear before, so they add. */
module Uuid {
  import opened LibTypes

  /** UUID_T as a value, source/utility/include/uuid.h:6-14. */
  datatype Fields = Fields(
    timeLow: uint32, timeMid: uint16, timeHiAndVersion: uint16,
    clockSeqHiAndReserved: uint8, clockSeqLow: uint8, node: seq<uint8>)

  // ---------- reading the fields back, section 4.1 ----------

  function Timestamp(u: Fields): nat {
    u.timeHiAndVersion % 0x1000 * 0x1_0000_0000_0000 + u.timeMid * 0x1_0000_0000 + u.timeLow
  }

  function ClockSeq(u: Fields): nat {
    u.clockSeqHiAndReserved % 0x40 * 0x100 + u.clockSeqLow
  }

  /** The four most significant bits of the third field, section 4.1.3. */
  function Version(u: Fields): nat {
    u.timeHiAndVersion / 0x1000
  }

  /** The two most significant bits of the clock sequence, section 4.1.1. */
  function Variant(u: Fields): nat {
    u.clockSeqHiAndReserved / 0x40
  }

  /** What a version 1 UUID carries of its inputs: 60 bits of time, 14 of the clock sequence, and the node. */
  predicate Carries(u: Fields, clockSeq: uint16, timestamp: uint64, node: seq<uint8>) {
    && Timestamp(u) == timestamp % 0x1000_0000_0000_0000
    && ClockSeq(u) == clockSeq % 0x4000
    && u.node == node
    && Version(u) == 1 && Variant(u) == 2
  }

  lemma TimeDigits(a: nat, b: uint16, c: uint32, x: nat, y: uint16, z: uint32)
    requires a * 0x1_0000_0000_0000 + b * 0x1_0000_0000 + c == x * 0x1_0000_0000_0000 + y * 0x1_0000_0000 + z
    ensures a == x && b == y && c == z
  {
    assert (a * 0x1_0000 + b) * 0x1_0000_0000 + c == (x * 0x1_0000 + y) * 0x1_0000_0000 + z;
    assert a * 0x1_0000 + b == x * 0x1_0000 + y;
  }

  lemma TimeUnique(u: Fields, v: Fields)
    requires Timestamp(u) == Timestamp(v) && Version(u) == Version(v)
    ensures u.timeLow == v.timeLow && u.timeMid == v.timeMid && u.timeHiAndVersion == v.timeHiAndVersion
  {
    var x, y := u.timeHiAndVersion, v.timeHiAndVersion;
    TimeDigits(x % 0x1000, u.timeMid, u.timeLow, y % 0x1000, v.timeMid, v.timeLow);
    assert x == x / 0x1000 * 0x1000 + x % 0x1000 && y == y / 0x1000 * 0x1000 + y % 0x1000;
  }

  lemma ClockUnique(u: Fields, v: Fields)
    requires ClockSeq(u) == ClockSeq(v) && Variant(u) == Variant(v)
    ensures u.clockSeqHiAndReserved == v.clockSeqHiAndReserved && u.clockSeqLow == v.clockSeqLow
  {
    var x, y := u.clockSeqHiAndReserved, v.clockSeqHiAndReserved;
    assert x == x / 0x40 * 0x40 + x % 0x40 && y == y / 0x40 * 0x40 + y % 0x40;
  }

  /** Two UUIDs are equal if and only if they carry the same: nothing else is in them, and nothing carried is lost. */
  lemma CarriesExactly(u: Fields, c: uint16, t: uint64, n: seq<uint8>, v: Fields, d: uint16, s: uint64, m: seq<uint8>)
    requires Carries(u, c, t, n) && Carries(v, d, s, m)
    ensures u == v <==>
      t % 0x1000_0000_0000_0000 == s % 0x1000_0000_0000_0000 && c % 0x4000 == d % 0x4000 && n == m
  {
    hide Timestamp, ClockSeq, Version, Variant;
    if Timestamp(u) == Timestamp(v) { TimeUnique(u, v); }
    if ClockSeq(u) == ClockSeq(v) { ClockUnique(u, v); }
  }

  /** Sixty bits are the three time fields behind each other. */
  lemma TimeParts(t: uint64)
    ensures t % 0x1000_0000_0000_0000 ==
      t / 0x1_0000_0000_0000 % 0x1000 * 0x1_0000_0000_0000 + t / 0x1_0000_0000 % 0x1_0000 * 0x1_0000_0000
      + t % 0x1_0000_0000
  {
    var q := t / 0x1_0000_0000;
    assert t == q * 0x1_0000_0000 + t % 0x1_0000_0000;
    assert q / 0x1_0000 == t / 0x1_0000_0000_0000;
    var r := q / 0x1_0000;
    assert q == r * 0x1_0000 + q % 0x1_0000;
    assert r == r / 0x1000 * 0x1000 + r % 0x1000;
  }

  lemma ClockParts(c: uint16)
    ensures c % 0x4000 == c % 0x4000 / 0x100 * 0x100 + c % 0x100
  {
  }

  lemma FormatCarries(u: Fields, c: uint16, t: uint64)
    requires u.timeLow == t % 0x1_0000_0000 && u.timeMid == t / 0x1_0000_0000 % 0x1_0000
    requires u.timeHiAndVersion == t / 0x1_0000_0000_0000 % 0x1000 + 0x1000
    requires u.clockSeqHiAndReserved == c % 0x4000 / 0x100 + 0x80 && u.clockSeqLow == c % 0x100
    ensures Carries(u, c, t, u.node)
  {
    SetBits(t / 0x1_0000_0000_0000 % 0x1000, c % 0x4000 / 0x100);
    assert ClockSeq(u) == c % 0x4000 by {
      hide Timestamp, Version, Variant;
      ClockParts(c);
    }
    assert Version(u) == 1 && Variant(u) == 2;
    hide ClockSeq, Version, Variant;
    TimeParts(t);
  }

  /** Setting the four version bits over twelve bits of time, and the variant bits over six of the clock. */
  lemma SetBits(x: nat, y: nat)
    ensures x < 0x1000 ==> (x + 0x1000) % 0x1000 == x && (x + 0x1000) / 0x1000 == 1
    ensures y < 0x40 ==> (y + 0x80) % 0x40 == y && (y + 0x80) / 0x40 == 2
  {
  }

  /** The name space UUID 6ba7b810-9dad-11d1-80b4-00c04fd430c8 of RFC 4122, appendix C, as a version 1 UUID: made at
      tick 0x1d19dad6ba7b810 with clock sequence 0xb4, and what those inputs are formatted to. */
  lemma NameSpaceDns(u: Fields)
    ensures Carries(u, 0xb4, 0x1d1_9dad_6ba7_b810, [0x00, 0xc0, 0x4f, 0xd4, 0x30, 0xc8]) <==>
      u == Fields(0x6ba7_b810, 0x9dad, 0x11d1, 0x80, 0xb4, [0x00, 0xc0, 0x4f, 0xd4, 0x30, 0xc8])
  {
    var node: seq<uint8> := [0x00, 0xc0, 0x4f, 0xd4, 0x30, 0xc8];
    var dns := Fields(0x6ba7_b810, 0x9dad, 0x11d1, 0x80, 0xb4, node);
    assert Carries(dns, 0xb4, 0x1d1_9dad_6ba7_b810, node);
    if Carries(u, 0xb4, 0x1d1_9dad_6ba7_b810, node) {
      CarriesExactly(u, 0xb4, 0x1d1_9dad_6ba7_b810, node, dns, 0xb4, 0x1d1_9dad_6ba7_b810, node);
    }
  }

  // ---------- octets, section 4.1.2 ----------

  function Pow256(n: nat): (p: nat)
    ensures p > 0
  {
    if n == 0 then 1 else 0x100 * Pow256(n - 1)
  }

  /** The number that octets spell, most significant first. */
  function BigEndian(s: seq<uint8>): nat {
    if s == [] then 0 else 0x100 * BigEndian(s[..|s| - 1]) + s[|s| - 1]
  }

  function Octets(x: nat, n: nat): (s: seq<uint8>)
    ensures |s| == n
  {
    if n == 0 then [] else Octets(x / 0x100, n - 1) + [x % 0x100]
  }

  lemma {:induction false} OctetsSpell(x: nat, n: nat)
    requires x < Pow256(n)
    ensures BigEndian(Octets(x, n)) == x
  {
    if n > 0 {
      OctetsSpell(x / 0x100, n - 1);
      assert Octets(x, n)[..n - 1] == Octets(x / 0x100, n - 1);
    }
  }

  lemma LastOctet(s: seq<uint8>)
    ensures s != [] ==> BigEndian(s) == 0x100 * BigEndian(s[..|s| - 1]) + s[|s| - 1]
    ensures s == [] ==> BigEndian(s) == 0
    ensures Pow256(0) == 1 && Pow256(|s| + 1) == 0x100 * Pow256(|s|)
  {
  }

  lemma Distribute(x: nat, p: nat, y: nat)
    ensures 0x100 * (x * p + y) == x * (0x100 * p) + 0x100 * y
  {
  }

  lemma {:induction false} BigEndianJoin(a: seq<uint8>, b: seq<uint8>)
    ensures BigEndian(a + b) == BigEndian(a) * Pow256(|b|) + BigEndian(b)
  {
    hide BigEndian, Pow256;
    LastOctet(b);
    if b == [] {
      assert a + b == a;
    } else {
      var n := |b| - 1;
      BigEndianJoin(a, b[..n]);
      LastOctet(a + b);
      LastOctet(b[..n]);
      assert (a + b)[..|a| + n] == a + b[..n] && (a + b)[|a| + n] == b[n];
      Distribute(BigEndian(a), Pow256(n), BigEndian(b[..n]));
    }
  }

  lemma HigherDigit(i: nat, j: nat, w: nat, x: nat, y: nat)
    requires i < j && x < w
    ensures i * w + x < j * w + y
  {
    assert (i + 1) * w <= j * w;
  }

  /** A number written in `width` octets. */
  datatype Part = Part(value: nat, width: nat)

  function Spell(parts: seq<Part>): seq<uint8> {
    if parts == [] then [] else
      var last := parts[|parts| - 1];
      Spell(parts[..|parts| - 1]) + Octets(last.value, last.width)
  }

  predicate Fit(parts: seq<Part>) {
    forall i :: 0 <= i < |parts| ==> parts[i].value < Pow256(parts[i].width)
  }

  lemma LastPart(a: seq<Part>)
    requires a != [] && Fit(a)
    ensures var n := |a| - 1;
      BigEndian(Spell(a)) == BigEndian(Spell(a[..n])) * Pow256(a[n].width) + a[n].value
  {
    var n := |a| - 1;
    OctetsSpell(a[n].value, a[n].width);
    hide BigEndian, Pow256;
    BigEndianJoin(Spell(a[..n]), Octets(a[n].value, a[n].width));
  }

  /** The first part that differs decides which of two numbers is the smaller. */
  lemma {:induction false} PartDecides(a: seq<Part>, b: seq<Part>, k: nat)
    requires |a| == |b| && (forall i :: 0 <= i < |a| ==> a[i].width == b[i].width) && Fit(a) && Fit(b)
    requires k < |a| && a[..k] == b[..k] && a[k].value < b[k].value
    ensures BigEndian(Spell(a)) < BigEndian(Spell(b))
  {
    hide BigEndian, Spell, Pow256;
    var n := |a| - 1;
    LastPart(a);
    LastPart(b);
    if k < n {
      assert a[..n][..k] == a[..k] && b[..n][..k] == b[..k];
      PartDecides(a[..n], b[..n], k);
      HigherDigit(BigEndian(Spell(a[..n])), BigEndian(Spell(b[..n])), Pow256(a[n].width), a[n].value, b[n].value);
    }
  }

  /** The fields in their order, and the number of octets each takes. */
  function FieldAt(u: Fields, k: nat): nat
    requires k < 5 + |u.node|
  {
    if k == 0 then u.timeLow else if k == 1 then u.timeMid else if k == 2 then u.timeHiAndVersion
    else if k == 3 then u.clockSeqHiAndReserved else if k == 4 then u.clockSeqLow else u.node[k - 5]
  }

  function WidthAt(k: nat): nat {
    if k == 0 then 4 else if k <= 2 then 2 else 1
  }

  function Parts(u: Fields): seq<Part> {
    seq(5 + |u.node|, k requires 0 <= k < 5 + |u.node| => Part(FieldAt(u, k), WidthAt(k)))
  }

  /** A UUID as the number its octets spell in network byte order: 128 bits for a node of 6 octets. */
  function Number(u: Fields): nat {
    BigEndian(Spell(Parts(u)))
  }

  function Order(a: nat, b: nat): int {
    if a < b then -1 else if a == b then 0 else 1
  }

  lemma PartsFit(u: Fields)
    ensures Fit(Parts(u))
  {
    assert Pow256(1) == 0x100;
    assert Pow256(2) == 0x1_0000;
    assert Pow256(3) == 0x100_0000;
    assert Pow256(4) == 0x1_0000_0000;
  }

  /** What the first `k` fields spell. */
  function Leading(u: Fields, k: nat): nat
    requires k <= 5 + |u.node|
  {
    BigEndian(Spell(Parts(u)[..k]))
  }

  /** One more field: what is spelt so far moves up by its width. */
  lemma NextField(u: Fields, k: nat)
    requires k < 5 + |u.node|
    ensures Leading(u, k + 1) ==
      Leading(u, k) * (if k == 0 then 0x1_0000_0000 else if k <= 2 then 0x1_0000 else 0x100) + FieldAt(u, k)
  {
    PartsFit(u);
    var a := Parts(u)[..k + 1];
    assert a[..k] == Parts(u)[..k];
    assert Pow256(1) == 0x100 && Pow256(2) == 0x1_0000;
    assert Pow256(3) == 0x100_0000;
    assert Pow256(4) == 0x1_0000_0000;
    hide BigEndian, Spell, Pow256;
    LastPart(a);
  }

  lemma LeadingEnds(u: Fields)
    ensures Leading(u, 0) == 0 && Leading(u, 5 + |u.node|) == Number(u)
  {
    assert Parts(u)[..0] == [] && Parts(u)[..5 + |u.node|] == Parts(u);
    assert BigEndian(Spell([])) == 0;
    hide BigEndian, Spell, Parts;
  }

  lemma TimeAndClockSum(u: Fields)
    ensures Leading(u, 5) ==
      u.timeLow * 0x1_0000_0000_0000 + u.timeMid * 0x1_0000_0000 + u.timeHiAndVersion * 0x1_0000
      + u.clockSeqHiAndReserved * 0x100 + u.clockSeqLow
  {
    LeadingEnds(u);
    hide Leading;
    NextField(u, 0);
    NextField(u, 1);
    NextField(u, 2);
    NextField(u, 3);
    NextField(u, 4);
  }

  lemma NodeSum(u: Fields)
    requires |u.node| == 6
    ensures var n: seq<nat> := u.node;
      Number(u) == Leading(u, 5) * 0x1_0000_0000_0000 + n[0] * 0x100_0000_0000 + n[1] * 0x1_0000_0000
        + n[2] * 0x100_0000 + n[3] * 0x1_0000 + n[4] * 0x100 + n[5]
  {
    LeadingEnds(u);
    hide Leading, Number;
    NextField(u, 5);
    NextField(u, 6);
    NextField(u, 7);
    NextField(u, 8);
    NextField(u, 9);
    NextField(u, 10);
  }

  /** The 128 bits: every field has the weight that its place in the layout of RFC 4122, section 4.1.2, gives it. */
  lemma NumberSum(u: Fields)
    requires |u.node| == 6
    ensures var n: seq<nat> := u.node;
      Number(u) ==
        u.timeLow * 0x1_0000_0000_0000_0000_0000_0000 + u.timeMid * 0x1_0000_0000_0000_0000_0000
        + u.timeHiAndVersion * 0x1_0000_0000_0000_0000 + u.clockSeqHiAndReserved * 0x100_0000_0000_0000
        + u.clockSeqLow * 0x1_0000_0000_0000 + n[0] * 0x100_0000_0000 + n[1] * 0x1_0000_0000
        + n[2] * 0x100_0000 + n[3] * 0x1_0000 + n[4] * 0x100 + n[5]
  {
    hide Leading, Number;
    TimeAndClockSum(u);
    NodeSum(u);
  }

  lemma FieldDecides(u: Fields, v: Fields, k: nat)
    requires |u.node| == |v.node| && k < 5 + |u.node|
    requires forall j :: 0 <= j < k ==> FieldAt(u, j) == FieldAt(v, j)
    requires FieldAt(u, k) != FieldAt(v, k)
    ensures Order(Number(u), Number(v)) == if FieldAt(u, k) < FieldAt(v, k) then -1 else 1
  {
    PartsFit(u);
    PartsFit(v);
    hide Fit, FieldAt, BigEndian, Spell;
    assert Parts(u)[..k] == Parts(v)[..k];
    if FieldAt(u, k) < FieldAt(v, k) {
      PartDecides(Parts(u), Parts(v), k);
    } else {
      PartDecides(Parts(v), Parts(u), k);
    }
  }

  lemma SameFields(u: Fields, v: Fields)
    requires |u.node| == |v.node| && forall k :: 0 <= k < 5 + |u.node| ==> FieldAt(u, k) == FieldAt(v, k)
    ensures u == v
  {
    assert FieldAt(u, 0) == FieldAt(v, 0) && FieldAt(u, 1) == FieldAt(v, 1) && FieldAt(u, 2) == FieldAt(v, 2);
    assert FieldAt(u, 3) == FieldAt(v, 3) && FieldAt(u, 4) == FieldAt(v, 4);
    forall i | 0 <= i < |u.node|
      ensures u.node[i] == v.node[i]
    {
      assert FieldAt(u, 5 + i) == FieldAt(v, 5 + i);
    }
  }

  lemma {:induction false} FirstDifference(u: Fields, v: Fields, n: nat) returns (k: nat)
    requires |u.node| == |v.node| && n <= 5 + |u.node|
    requires exists j :: 0 <= j < n && FieldAt(u, j) != FieldAt(v, j)
    ensures k < n && FieldAt(u, k) != FieldAt(v, k) && forall j :: 0 <= j < k ==> FieldAt(u, j) == FieldAt(v, j)
  {
    hide FieldAt;
    k := n - 1;
    if exists j :: 0 <= j < n - 1 && FieldAt(u, j) != FieldAt(v, j) {
      k := FirstDifference(u, v, n - 1);
    }
  }

  /** Different UUIDs are different numbers, so the numeric order is a total order of UUIDs. */
  lemma NumberDetermines(u: Fields, v: Fields)
    requires |u.node| == |v.node|
    ensures Number(u) == Number(v) <==> u == v
  {
    hide FieldAt, Number;
    if forall k :: 0 <= k < 5 + |u.node| ==> FieldAt(u, k) == FieldAt(v, k) {
      SameFields(u, v);
    } else {
      var k := FirstDifference(u, v, 5 + |u.node|);
      FieldDecides(u, v, k);
    }
  }

  lemma LowTime(u: Fields)
    ensures Timestamp(u) % 0x1_0000_0000 == u.timeLow
  {
    var k := u.timeHiAndVersion % 0x1000 * 0x1_0000 + u.timeMid;
    assert Timestamp(u) == k * 0x1_0000_0000 + u.timeLow;
  }

  /** Of two UUIDs made in the same 2^32 ticks the earlier is the smaller; otherwise the low word of the time decides,
      so the order is not that of time. */
  lemma LowTimeDecides(u: Fields, v: Fields)
    requires |u.node| == |v.node| && u.timeLow != v.timeLow
    ensures Number(u) < Number(v) <==> Timestamp(u) % 0x1_0000_0000 < Timestamp(v) % 0x1_0000_0000
  {
    FieldDecides(u, v, 0);
    hide Number;
    LowTime(u);
    LowTime(v);
  }

  lemma LexicalIsNotTemporal() returns (u: Fields, v: Fields)
    ensures |u.node| == 6 == |v.node|
    ensures Timestamp(u) < Timestamp(v) && Number(v) < Number(u)
  {
    u := Fields(0xFFFF_FFFF, 0, 0x1000, 0x80, 0, [0, 0, 0, 0, 0, 0]);
    v := Fields(0, 1, 0x1000, 0x80, 0, [0, 0, 0, 0, 0, 0]);
    hide Number;
    LowTimeDecides(v, u);
    LowTime(u);
    LowTime(v);
  }

  // ---------- the structure in memory ----------

  class Uuid {
    var timeLow: uint32
    var timeMid: uint16
    var timeHiAndVersion: uint16
    var clockSeqHiAndReserved: uint8
    var clockSeqLow: uint8
    const node: array<uint8>

    constructor ()
      ensures node.Length == 6 && fresh(node)
    {
      node := new uint8[6];
    }

    ghost function Value(): Fields
      reads this, node
    {
      Fields(timeLow, timeMid, timeHiAndVersion, clockSeqHiAndReserved, clockSeqLow, node[..])
    }

    /** format_uuid_v1. */
    method FormatV1(clockSeq: uint16, timestamp: uint64, nodeID: array<uint8>)
      requires node.Length == 6 == nodeID.Length && node != nodeID
      modifies this, node
      ensures Carries(Value(), clockSeq, timestamp, nodeID[..])
    {
      hide Carries;
      timeLow := timestamp % 0x1_0000_0000;
      timeMid := timestamp / 0x1_0000_0000 % 0x1_0000;
      timeHiAndVersion := timestamp / 0x1_0000_0000_0000 % 0x1000;
      timeHiAndVersion := timeHiAndVersion + 0x1000;
      clockSeqLow := clockSeq % 0x100;
      clockSeqHiAndReserved := clockSeq % 0x4000 / 0x100;
      clockSeqHiAndReserved := clockSeqHiAndReserved + 0x80;
      forall i | 0 <= i < 6 {
        node[i] := nodeID[i];
      }
      assert node[..] == nodeID[..];
      FormatCarries(Value(), clockSeq, timestamp);
    }
  }

  /** uuid_compare. */
  method Compare(u1: Uuid, u2: Uuid) returns (r: int)
    requires u1.node.Length == 6 == u2.node.Length
    ensures r == Order(Number(u1.Value()), Number(u2.Value()))
  {
    ghost var v1, v2 := u1.Value(), u2.Value();
    hide Number;
    if u1.timeLow != u2.timeLow {
      FieldDecides(v1, v2, 0);
      return if u1.timeLow < u2.timeLow then -1 else 1;
    }
    if u1.timeMid != u2.timeMid {
      FieldDecides(v1, v2, 1);
      return if u1.timeMid < u2.timeMid then -1 else 1;
    }
    if u1.timeHiAndVersion != u2.timeHiAndVersion {
      FieldDecides(v1, v2, 2);
      return if u1.timeHiAndVersion < u2.timeHiAndVersion then -1 else 1;
    }
    if u1.clockSeqHiAndReserved != u2.clockSeqHiAndReserved {
      FieldDecides(v1, v2, 3);
      return if u1.clockSeqHiAndReserved < u2.clockSeqHiAndReserved then -1 else 1;
    }
    if u1.clockSeqLow != u2.clockSeqLow {
      FieldDecides(v1, v2, 4);
      return if u1.clockSeqLow < u2.clockSeqLow then -1 else 1;
    }
    for i := 0 to 6
      invariant forall j :: 0 <= j < 5 + i ==> FieldAt(v1, j) == FieldAt(v2, j)
    {
      if u1.node[i] < u2.node[i] {
        FieldDecides(v1, v2, 5 + i);
        return -1;
      }
      if u1.node[i] > u2.node[i] {
        FieldDecides(v1, v2, 5 + i);
        return 1;
      }
    }
    SameFields(v1, v2);
    r := 0;
  }
}
