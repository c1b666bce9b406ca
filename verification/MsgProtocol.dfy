/** One sender and one receiver on the byte ring of backup/osi/mgosi.c, with no lock. Each read of the other side's
    index and each write to the shared structure is an action of its own, and between two of them the other side may
    do anything. C leaves open whether a byte is stored before the rear index is advanced; here it is. A wait may
    answer whatever it likes. */
module MsgProtocol {
  import opened LibTypes
  import opened MsgRing

  /** Where a call stands: at the loop's test, in its wait, or before one of the writes of its loop body. */
  datatype Phase = Idle | Check | Wait | Normalise | Move | Publish

  /** msg_send of `msg`, of which `i` bytes are in. */
  datatype Sender = Sender(phase: Phase, msg: seq<Byte>, i: nat)

  /** msg_receive of `wanted` bytes, of which `got` are read. */
  datatype Receiver = Receiver(phase: Phase, wanted: nat, got: seq<Byte>)

  /** `accepted` and `delivered` list the messages of the calls that returned AII_OK. */
  datatype System = System(
    ring: Ring, sender: Sender, receiver: Receiver, accepted: seq<seq<Byte>>, delivered: seq<seq<Byte>>)

  datatype Action =
    | BeginSend(msg: seq<Byte>)
    | BeginReceive(wanted: nat)
    | SenderStep(wait: WaitResult)
    | ReceiverStep(wait: WaitResult)

  const RESTING_SENDER := Sender(Idle, [], 0)
  const RESTING_RECEIVER := Receiver(Idle, 0, [])

  predicate Initial(s: System) {
    && WellFormed(s.ring) && s.ring.head == 0 && s.ring.rear == 0
    && s.sender == RESTING_SENDER && s.receiver == RESTING_RECEIVER && s.accepted == [] && s.delivered == []
  }

  /** The action is the next thing that side does. */
  predicate Enabled(s: System, a: Action) {
    match a
    case BeginSend(_) => s.sender.phase == Idle
    case BeginReceive(_) => s.receiver.phase == Idle
    case SenderStep(_) => s.sender.phase != Idle
    case ReceiverStep(_) => s.receiver.phase != Idle
  }

  /** Every index the next steps use is in bounds. */
  predicate InBounds(s: System) {
    && WellFormed(s.ring)
    && s.sender.i <= |s.sender.msg| && |s.receiver.got| <= s.receiver.wanted
    && (s.sender.phase == Move ==> s.sender.i < |s.sender.msg| && s.ring.rear < s.ring.length)
    && (s.receiver.phase == Move ==> |s.receiver.got| < s.receiver.wanted && s.ring.head < s.ring.length)
  }

  /** mgosi.c:225-276. */
  function SenderNext(s: System, w: WaitResult): System
    requires InBounds(s)
  {
    var c := s.sender;
    match c.phase
    case Idle => s
    case Check =>
      if c.i == |c.msg| then s.(sender := RESTING_SENDER, accepted := s.accepted + [c.msg])
      else if Capacity(s.ring) < |c.msg| - c.i then s.(sender := c.(phase := Wait))
      else s.(sender := c.(phase := Normalise))
    case Wait => s.(sender := if GivesUp(w) then RESTING_SENDER else c.(phase := Check))
    case Normalise => s.(ring := NormaliseRear(s.ring), sender := c.(phase := Move))
    case Move => s.(ring := StoreByte(s.ring, c.msg[c.i]), sender := c.(phase := Publish))
    case Publish => s.(ring := PublishRear(s.ring), sender := c.(phase := Check, i := c.i + 1))
  }

  /** mgosi.c:322-373. */
  function ReceiverNext(s: System, w: WaitResult): System
    requires InBounds(s)
  {
    var c := s.receiver;
    match c.phase
    case Idle => s
    case Check =>
      if |c.got| == c.wanted then s.(receiver := RESTING_RECEIVER, delivered := s.delivered + [c.got])
      else if Contain(s.ring) < c.wanted - |c.got| then s.(receiver := c.(phase := Wait))
      else s.(receiver := c.(phase := Normalise))
    case Wait => s.(receiver := if GivesUp(w) then RESTING_RECEIVER else c.(phase := Check))
    case Normalise => s.(ring := NormaliseHead(s.ring), receiver := c.(phase := Move))
    case Move => s.(receiver := c.(phase := Publish, got := c.got + [s.ring.cells[s.ring.head]]))
    case Publish => s.(ring := PublishHead(s.ring), receiver := c.(phase := Check))
  }

  function Apply(s: System, a: Action): System
    requires InBounds(s)
  {
    match a
    case BeginSend(msg) => s.(sender := Sender(Check, msg, 0))
    case BeginReceive(wanted) => s.(receiver := Receiver(Check, wanted, []))
    case SenderStep(w) => SenderNext(s, w)
    case ReceiverStep(w) => ReceiverNext(s, w)
  }

  // ---------- what has gone in and come out ----------

  function Flatten(messages: seq<seq<Byte>>): seq<Byte> {
    if messages == [] then [] else Flatten(messages[..|messages| - 1]) + messages[|messages| - 1]
  }

  function Stored(s: System): seq<Byte>
    requires s.sender.i <= |s.sender.msg|
  {
    Flatten(s.accepted) + s.sender.msg[..s.sender.i]
  }

  function Received(s: System): seq<Byte> {
    Flatten(s.delivered) + s.receiver.got
  }

  /** The bytes nobody has read: a receiver about to advance its index has read the first. */
  function Unread(s: System): seq<Byte>
    requires WellFormed(s.ring)
  {
    if s.receiver.phase == Publish && Contents(s.ring) != [] then Contents(s.ring)[1..] else Contents(s.ring)
  }

  predicate MidWrite(p: Phase) {
    p == Move || p == Publish
  }

  // ---------- the invariant ----------

  /** The room a sender has found stays: the other side only adds to it. */
  ghost predicate SenderFits(s: System)
    requires WellFormed(s.ring)
  {
    var c, q := s.sender, s.ring;
    match c.phase
    case Idle => c == RESTING_SENDER
    case Check => c.i <= |c.msg| && (c.i > 0 ==> |c.msg| < q.length && |c.msg| - c.i <= Capacity(q))
    case Wait => c.i == 0 && c.msg != []
    case Normalise => c.i < |c.msg| < q.length && |c.msg| - c.i <= Capacity(q)
    case Move => c.i < |c.msg| < q.length && |c.msg| - c.i <= Capacity(q) && q.rear < q.length
    case Publish =>
      && c.i < |c.msg| < q.length && |c.msg| - c.i <= Capacity(q) && q.rear < q.length
      && q.cells[q.rear] == c.msg[c.i]
  }

  ghost predicate ReceiverFits(s: System)
    requires WellFormed(s.ring)
  {
    var c, q := s.receiver, s.ring;
    match c.phase
    case Idle => c == RESTING_RECEIVER
    case Check => |c.got| <= c.wanted && (c.got != [] ==> c.wanted < q.length && c.wanted - |c.got| <= |Contents(q)|)
    case Wait => c.got == [] && c.wanted > 0
    case Normalise => |c.got| < c.wanted < q.length && c.wanted - |c.got| <= |Contents(q)|
    case Move => |c.got| < c.wanted < q.length && c.wanted - |c.got| <= |Contents(q)| && q.head < q.length
    case Publish =>
      && 0 < |c.got| <= c.wanted < q.length && c.wanted - |c.got| < |Contents(q)| && q.head < q.length
      && c.got[|c.got| - 1] == Contents(q)[0]
  }

  /** An index is 0 only before its first use, or for a moment inside a write. */
  ghost predicate History(s: System)
    requires s.sender.i <= |s.sender.msg|
  {
    && (|Stored(s)| == 0 ==> s.ring.rear == 0)
    && (s.ring.rear == 0 ==> |Stored(s)| == 0 || MidWrite(s.sender.phase))
    && (|Received(s)| == 0 ==> s.ring.head == 0)
    && (s.ring.head == 0 ==> |Received(s)| == 0 || MidWrite(s.receiver.phase))
  }

  /** No message was longer than the ring. */
  ghost predicate Short(messages: seq<seq<Byte>>, length: nat) {
    forall k :: 0 <= k < |messages| ==> |messages[k]| < length
  }

  ghost predicate Inv(s: System) {
    && WellFormed(s.ring)
    && SenderFits(s)
    && ReceiverFits(s)
    && Stored(s) == Received(s) + Unread(s)
    && History(s)
    && Short(s.accepted, s.ring.length) && Short(s.delivered, s.ring.length)
  }

  lemma InvInBounds(s: System)
    requires Inv(s)
    ensures InBounds(s)
  {
    hide Contents, Capacity, Contain;
  }
}
