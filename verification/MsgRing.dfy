/** The byte ring of backup/osi/mgosi.c as a value: its two indices, its size and its cells, with what the queue's
    queries compute from them. The indices run up to and including `length` and are reduced lazily, so two different
    index values can name the same cell. */
module MsgRing {
  import opened LibTypes

  /** MSG_HANDLE_ENTRY without its events and timeouts, backup/include/mgosi.h:36-47. */
  datatype Ring = Ring(head: nat, rear: nat, length: nat, cells: seq<Byte>)

  /** `length` is an unsigned 32-bit number other than 0, and no index passes it. */
  predicate WellFormed(q: Ring) {
    0 < q.length < TWO_32 && |q.cells| == q.length && q.head <= q.length && q.rear <= q.length
  }

  /** What WaitForSingleObject answers, and the answers on which a call returns AII_ERROR. */
  datatype WaitResult = Abandoned | Signalled | TimedOut | Other

  predicate GivesUp(w: WaitResult) {
    w == Abandoned || w == TimedOut
  }

  // ---------- the queries ----------

  predicate RawEmpty(q: Ring) {
    q.head == q.rear
  }

  /** In 32-bit arithmetic: the sum wraps if the index is the largest number there is. */
  predicate Full(q: Ring)
    requires WellFormed(q)
  {
    (q.rear + 1) % TWO_32 % q.length == q.head % q.length
  }

  function Contain(q: Ring): nat
    requires WellFormed(q)
  {
    var rear, head := q.rear % q.length, q.head % q.length;
    if rear >= head then rear - head else q.length - (head - rear)
  }

  function Capacity(q: Ring): nat
    requires WellFormed(q)
  {
    var rear, head := q.rear % q.length, q.head % q.length;
    if rear >= head then q.length - 1 - (rear - head) else head - rear - 1
  }

  /** An index reduced: only `length` itself changes. */
  function Cell(i: nat, length: nat): (c: nat)
    requires i <= length && 0 < length
    ensures c < length
  {
    if i == length then 0 else i
  }

  lemma Reduces(i: nat, length: nat)
    requires i <= length && 0 < length
    ensures i % length == Cell(i, length)
  {
  }

  lemma Queries(q: Ring)
    requires WellFormed(q)
    ensures var head, rear := Cell(q.head, q.length), Cell(q.rear, q.length);
      && Contain(q) == (if head <= rear then rear - head else q.length + rear - head)
      && Capacity(q) == q.length - 1 - Contain(q)
  {
    Reduces(q.head, q.length);
    Reduces(q.rear, q.length);
  }

  /** Whatever the indices, the two amounts add up to one byte less than the buffer. */
  lemma ContainPlusCapacity(q: Ring)
    requires WellFormed(q)
    ensures Contain(q) + Capacity(q) == q.length - 1
  {
    Queries(q);
  }

  lemma PastTheEnd(length: nat)
    requires 1 < length
    ensures (length + 1) % length == 1
  {
    var d, r := (length + 1) / length, (length + 1) % length;
    assert length + 1 == d * length + r;
    assert d >= 2 ==> d * length >= 2 * length;
    assert d <= 0 ==> d * length <= 0;
    assert d == 1;
  }

  lemma NextCell(i: nat, length: nat)
    requires i <= length && 0 < length
    ensures (i + 1) % length == Cell(if Cell(i, length) + 1 == length then 0 else Cell(i, length) + 1, length)
  {
    if i < length {
      Reduces(i + 1, length);
    } else if length > 1 {
      PastTheEnd(length);
    }
  }

  /** is_msg_queue_full is right unless the rear index is the largest 32-bit number and its sum wraps to 0. Then it
      answers whether the queue is empty, which is right only while there are bytes and room for more. */
  lemma FullIsExact(q: Ring)
    requires WellFormed(q)
    ensures Full(q) <==> if q.rear + 1 == TWO_32 then Contain(q) == 0 else Capacity(q) == 0
    ensures (Full(q) <==> Capacity(q) == 0) <==> q.rear + 1 < TWO_32 || (Contain(q) > 0 && Capacity(q) > 0)
  {
    hide Capacity, Contain;
    Queries(q);
    Reduces(q.head, q.length);
    if q.rear + 1 < TWO_32 {
      NextCell(q.rear, q.length);
    }
  }

  /** One index is at 0, the other at `length`: the same cell under two values. */
  predicate Split(q: Ring) {
    (q.head == 0 && q.rear == q.length) || (q.head == q.length && q.rear == 0)
  }

  /** mgIsQEmpty compares the indices as they stand. It is right if and only if they are not split, and then it errs
      by calling an empty queue occupied. */
  lemma RawEmptyIsExact(q: Ring)
    requires WellFormed(q)
    ensures (RawEmpty(q) <==> Contain(q) == 0) <==> !Split(q)
    ensures RawEmpty(q) ==> Contain(q) == 0
  {
    Queries(q);
  }

  /** What the two indices look like between calls: 0 is an index's value only before its first use. */
  predicate AtRest(q: Ring) {
    (q.rear == 0 ==> q.head == 0) && (q.head == 0 ==> q.rear < q.length)
  }

  /** Between calls the queries agree on what empty and, but for that size, on what full means. */
  lemma RestQueriesAgree(q: Ring)
    requires WellFormed(q) && AtRest(q)
    ensures RawEmpty(q) <==> Contents(q) == []
    ensures Full(q) <==> if q.rear + 1 == TWO_32 then Contents(q) == [] else Capacity(q) == 0
    ensures |Contents(q)| == Contain(q) == q.length - 1 - Capacity(q)
  {
    hide Contain, Capacity, Full;
    ContainPlusCapacity(q);
    FullIsExact(q);
    RawEmptyIsExact(q);
  }

  // ---------- what the ring holds ----------

  function Slot(q: Ring, k: nat): (c: nat)
    requires WellFormed(q) && k < q.length
    ensures c < q.length
  {
    var p := Cell(q.head, q.length) + k;
    if p < q.length then p else p - q.length
  }

  /** The unread bytes, oldest first. */
  function Contents(q: Ring): (s: seq<Byte>)
    requires WellFormed(q)
    ensures |s| == Contain(q)
  {
    Queries(q);
    seq(Contain(q), k requires 0 <= k < Contain(q) => q.cells[Slot(q, k)])
  }

  // ---------- the single writes of the two sides ----------

  function NormaliseRear(q: Ring): Ring
    requires WellFormed(q)
  {
    q.(rear := q.rear % q.length)
  }

  function StoreByte(q: Ring, b: Byte): Ring
    requires WellFormed(q) && q.rear < q.length
  {
    q.(cells := q.cells[q.rear := b])
  }

  function PublishRear(q: Ring): Ring {
    q.(rear := q.rear + 1)
  }

  function NormaliseHead(q: Ring): Ring
    requires WellFormed(q)
  {
    q.(head := q.head % q.length)
  }

  function PublishHead(q: Ring): Ring {
    q.(head := q.head + 1)
  }

  lemma NormaliseRearKeeps(q: Ring)
    requires WellFormed(q)
    ensures var r := NormaliseRear(q);
      WellFormed(r) && r.rear == Cell(q.rear, q.length) && Contain(r) == Contain(q) && Contents(r) == Contents(q)
  {
    var r := NormaliseRear(q);
    Reduces(q.rear, q.length);
    Queries(q);
    Queries(r);
    assert forall k :: 0 <= k < Contain(q) ==> Slot(r, k) == Slot(q, k);
  }

  lemma NormaliseHeadKeeps(q: Ring)
    requires WellFormed(q)
    ensures var r := NormaliseHead(q);
      WellFormed(r) && r.head == Cell(q.head, q.length) && Contain(r) == Contain(q) && Contents(r) == Contents(q)
  {
    var r := NormaliseHead(q);
    Reduces(q.head, q.length);
    Queries(q);
    Queries(r);
    assert forall k :: 0 <= k < Contain(q) ==> Slot(r, k) == Slot(q, k);
  }

  /** The cell at the rear index never holds an unread byte. */
  lemma StoreKeeps(q: Ring, b: Byte)
    requires WellFormed(q) && q.rear < q.length
    ensures var r := StoreByte(q, b);
      WellFormed(r) && Contain(r) == Contain(q) && Contents(r) == Contents(q) && r.cells[r.rear] == b
  {
    Queries(q);
    assert forall k :: 0 <= k < Contain(q) ==> Slot(StoreByte(q, b), k) == Slot(q, k) != q.rear;
  }

  lemma PublishAppends(q: Ring)
    requires WellFormed(q) && q.rear < q.length && Capacity(q) > 0
    ensures var r := PublishRear(q);
      WellFormed(r) && Contain(r) == Contain(q) + 1 && Contents(r) == Contents(q) + [q.cells[q.rear]]
  {
    var r := PublishRear(q);
    Queries(q);
    Queries(r);
    assert forall k :: 0 <= k < Contain(q) ==> Slot(r, k) == Slot(q, k);
    assert Slot(r, Contain(q)) == q.rear;
  }

  lemma PublishDrops(q: Ring)
    requires WellFormed(q) && q.head < q.length && Contain(q) > 0
    ensures var r := PublishHead(q);
      && WellFormed(r) && Contain(r) == Contain(q) - 1
      && Contents(q) == [q.cells[q.head]] + Contents(r)
  {
    var r := PublishHead(q);
    Queries(q);
    Queries(r);
    assert Slot(q, 0) == q.head;
    assert forall k :: 0 <= k < Contain(r) ==> Slot(r, k) == Slot(q, k + 1);
  }

  lemma PutRests(q: Ring)
    requires WellFormed(q) && AtRest(q) && Contain(q) < q.length - 1
    ensures AtRest(PublishRear(NormaliseRear(q)))
  {
    Queries(q);
    Reduces(q.rear, q.length);
    hide Contain;
  }

  /** The sender's three writes together append one byte. */
  lemma PutSteps(q: Ring, b: Byte)
    requires WellFormed(q) && AtRest(q) && |Contents(q)| < q.length - 1
    ensures WellFormed(NormaliseRear(q)) && NormaliseRear(q).rear < q.length
    ensures var r := PublishRear(StoreByte(NormaliseRear(q), b));
      WellFormed(r) && AtRest(r) && Contents(r) == Contents(q) + [b]
  {
    PutRests(q);
    NormaliseRearKeeps(q);
    var n := NormaliseRear(q);
    StoreKeeps(n, b);
    var stored := StoreByte(n, b);
    hide Contain, Capacity, NormaliseRear;
    ContainPlusCapacity(stored);
    assert Contain(stored) == |Contents(q)|;
    hide Contents;
    PublishAppends(stored);
  }

  /** The receiver's two writes together drop the oldest byte, the one it read in between. */
  lemma TakeSteps(q: Ring)
    requires WellFormed(q) && AtRest(q) && Contents(q) != []
    ensures WellFormed(NormaliseHead(q)) && NormaliseHead(q).head < q.length
    ensures var r := PublishHead(NormaliseHead(q));
      && WellFormed(r) && AtRest(r)
      && Contents(q) == [NormaliseHead(q).cells[NormaliseHead(q).head]] + Contents(r)
  {
    hide Contain, Capacity, Contents;
    RestQueriesAgree(q);
    NormaliseHeadKeeps(q);
    PublishDrops(NormaliseHead(q));
  }
}
