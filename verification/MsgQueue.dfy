/** The Windows branch of backup/osi/mgosi.c with nobody else at work: the queue object, its queries and whole calls of
    msg_send and msg_receive. What the other side may do meanwhile is the subject of MsgRuns. */
module MsgQueue {
  import opened LibTypes
  import opened MsgRing

  /** Wait number `n` was abandoned or timed out, the ones before it were not; a wait beyond the list times out. */
  predicate GivesUpAfter(waits: seq<WaitResult>, n: nat) {
    && 0 < n <= |waits| + 1
    && (n <= |waits| ==> waits[n - 1] == Abandoned || waits[n - 1] == TimedOut)
    && forall j :: 0 <= j < n - 1 ==> waits[j] == Signalled || waits[j] == Other
  }

  class MsgQueue {
    var headIndex: nat
    var rearIndex: nat
    const msgLength: nat
    const msgBuffer: array<Byte>

    ghost function State(): Ring
      reads this, msgBuffer
    {
      Ring(headIndex, rearIndex, msgLength, msgBuffer[..])
    }

    ghost predicate Valid()
      reads this, msgBuffer
    {
      WellFormed(State()) && AtRest(State())
    }

    ghost function Unread(): seq<Byte>
      requires Valid()
      reads this, msgBuffer
    {
      Contents(State())
    }

    /** msg_queue_create, wherever its signed arithmetic is defined; the size is the result as an unsigned number. It
        is a queue unless that is 0, when every query would divide by it. */
    constructor (maxMSGs: int, maxMsgLength: int)
      requires -0x8000_0000 <= maxMsgLength * maxMSGs < 0x7fff_ffff
      ensures msgLength == msgBuffer.Length == (maxMsgLength * maxMSGs + 1) % TWO_32 && fresh(msgBuffer)
      ensures if maxMsgLength * maxMSGs == -1 then !WellFormed(State()) else Valid() && Unread() == []
    {
      headIndex := 0;
      rearIndex := 0;
      msgLength := (maxMsgLength * maxMSGs + 1) % TWO_32;
      msgBuffer := new Byte[(maxMsgLength * maxMSGs + 1) % TWO_32];
      new;
      hide Contain, Capacity, Full, Contents;
      if msgLength != 0 {
        RestQueriesAgree(State());
      }
    }

    /** mgIsQEmpty: the indices as they stand. */
    method IsEmpty() returns (r: bool)
      requires Valid()
      ensures r <==> Unread() == []
    {
      RestQueriesAgree(State());
      r := headIndex == rearIndex;
    }

    /** is_msg_queue_full; on the one size at which its sum can wrap it answers another question. */
    method IsFull() returns (r: bool)
      requires Valid()
      ensures r <==> if rearIndex + 1 == TWO_32 then Unread() == [] else |Unread()| == msgLength - 1
    {
      RestQueriesAgree(State());
      hide Contain, Capacity, Contents;
      r := (rearIndex + 1) % TWO_32 % msgLength == headIndex % msgLength;
    }

    /** msg_queue_contain; also called in the middle of a message, where only the ring is sure to be well formed. */
    method ContainedBytes() returns (n: nat)
      requires WellFormed(State())
      ensures n == |Contents(State())|
    {
      var rear, head := rearIndex % msgLength, headIndex % msgLength;
      n := if rear >= head then rear - head else msgLength - (head - rear);
    }

    /** msg_queue_capacity. */
    method FreeBytes() returns (n: nat)
      requires WellFormed(State())
      ensures n == msgLength - 1 - |Contents(State())|
    {
      Queries(State());
      var rear, head := rearIndex % msgLength, headIndex % msgLength;
      n := if rear >= head then msgLength - 1 - (rear - head) else head - rear - 1;
    }

    /** One byte goes in, mgosi.c:266-268. */
    method PutByte(b: Byte)
      requires Valid() && |Unread()| < msgLength - 1
      modifies this`rearIndex, msgBuffer
      ensures Valid() && Unread() == old(Unread()) + [b]
      ensures State() == PublishRear(StoreByte(NormaliseRear(old(State())), b))
    {
      ghost var before := State();
      PutSteps(before, b);
      hide Contain, Capacity, Contents;
      rearIndex := rearIndex % msgLength;
      msgBuffer[rearIndex] := b;
      rearIndex := rearIndex + 1;
    }

    /** One byte comes out, mgosi.c:363-366. */
    method TakeByte() returns (b: Byte)
      requires Valid() && Unread() != []
      modifies this`headIndex
      ensures Valid() && old(Unread()) == [b] + Unread()
      ensures State() == PublishHead(NormaliseHead(old(State())))
    {
      TakeSteps(State());
      hide Contain, Capacity, Contents;
      headIndex := headIndex % msgLength;
      b := msgBuffer[headIndex];
      headIndex := headIndex + 1;
    }

    /** msg_send. `waits` are the answers of the waits, timeouts once it runs out. A message goes in whole if it fits
        when the call begins. Otherwise nothing of it does, and the call lasts until the first wait that is abandoned
        or times out; `waited` counts the waits. */
    method Send(buffer: array?<Byte>, n: nat, waits: seq<WaitResult>) returns (ok: bool, ghost waited: nat)
      requires Valid() && (buffer != null ==> n <= buffer.Length && buffer != msgBuffer)
      modifies this`rearIndex, msgBuffer
      ensures Valid()
      ensures if ok || buffer == null then waited == 0 else GivesUpAfter(waits, waited)
      ensures ok <==> buffer != null && n <= msgLength - 1 - |old(Unread())|
      ensures Unread() == if ok then old(Unread()) + buffer[..n] else old(Unread())
      ensures !ok ==> State() == old(State())
    {
      hide Contain, Capacity, Contents;
      RestQueriesAgree(State());
      if buffer == null { return false, 0; }
      var len, i, k := n, 0, 0;
      assert buffer[..0] == [];
      while len != 0
        invariant Valid() && i + len == n
        invariant Unread() == old(Unread()) + buffer[..i] && buffer[..n] == old(buffer[..n])
        invariant i == 0 ==> State() == old(State())
        invariant i > 0 ==> n <= msgLength - 1 - |old(Unread())|
        invariant k > 0 ==> n > msgLength - 1 - |old(Unread())|
        invariant forall j :: 0 <= j < k && j < |waits| ==> waits[j] == Signalled || waits[j] == Other
        invariant k <= |waits|
        decreases len, |waits| - k
      {
        var capacity := FreeBytes();
        if capacity < len {
          var w := if k < |waits| then waits[k] else TimedOut;
          k := k + 1;
          if GivesUp(w) { return false, k; }
        } else {
          PutByte(buffer[i]);
          assert buffer[..i + 1] == buffer[..i] + [buffer[i]];
          i, len := i + 1, len - 1;
        }
      }
      ok, waited := true, k;
    }

    /** msg_receive, likewise: all the bytes asked for, in order, or none. */
    method Receive(buffer: array?<Byte>, n: nat, waits: seq<WaitResult>) returns (ok: bool, ghost waited: nat)
      requires Valid() && (buffer != null ==> n <= buffer.Length && buffer != msgBuffer)
      modifies this`headIndex, buffer
      ensures Valid()
      ensures if ok || buffer == null then waited == 0 else GivesUpAfter(waits, waited)
      ensures ok <==> buffer != null && n <= |old(Unread())|
      ensures ok ==> old(Unread()) == buffer[..n] + Unread() && buffer[n..] == old(buffer[n..])
      ensures !ok ==> State() == old(State()) && (buffer != null ==> buffer[..] == old(buffer[..]))
    {
      hide Contain, Capacity, Contents;
      if buffer == null { return false, 0; }
      var len, i, k := n, 0, 0;
      while len != 0
        invariant Valid() && i + len == n
        invariant old(Unread()) == buffer[..i] + Unread() && buffer[i..] == old(buffer[i..])
        invariant i == 0 ==> State() == old(State())
        invariant i > 0 ==> n <= |old(Unread())|
        invariant k > 0 ==> n > |old(Unread())|
        invariant forall j :: 0 <= j < k && j < |waits| ==> waits[j] == Signalled || waits[j] == Other
        invariant k <= |waits|
        decreases len, |waits| - k
      {
        var contain := ContainedBytes();
        if contain < len {
          var w := if k < |waits| then waits[k] else TimedOut;
          k := k + 1;
          if GivesUp(w) { return false, k; }
        } else {
          ghost var was := buffer[..i];
          var b := TakeByte();
          buffer[i] := b;
          assert buffer[..i + 1] == was + [b];
          assert buffer[i + 1..] == old(buffer[i + 1..]);
          i, len := i + 1, len - 1;
        }
      }
      ok, waited := true, k;
    }
  }
}
