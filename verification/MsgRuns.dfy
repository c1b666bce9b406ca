/** Safety of the byte ring over every run of one sender and one receiver. */
module MsgRuns {
  import opened LibTypes
  import opened MsgRing
  import opened MsgProtocol

  // ---------- every action keeps the invariant ----------

  lemma Flattened(messages: seq<seq<Byte>>, m: seq<Byte>)
    ensures Flatten(messages + [m]) == Flatten(messages) + m
  {
    assert (messages + [m])[..|messages|] == messages;
  }

  lemma InitialInv(s: System)
    requires Initial(s)
    ensures Inv(s)
  {
    Queries(s.ring);
  }

  lemma SenderUntouched(s: System, t: System)
    requires WellFormed(s.ring) && WellFormed(t.ring) && SenderFits(s) && t.sender == s.sender
    requires t.ring == s.ring.(head := t.ring.head) && Capacity(s.ring) <= Capacity(t.ring)
    ensures SenderFits(t)
  {
    hide Capacity, WellFormed;
  }

  lemma ReceiverUntouched(s: System, t: System)
    requires WellFormed(s.ring) && WellFormed(t.ring) && ReceiverFits(s) && t.receiver == s.receiver
    requires t.ring.head == s.ring.head && t.ring.length == s.ring.length && Contents(s.ring) <= Contents(t.ring)
    ensures ReceiverFits(t)
  {
    hide Contents, WellFormed;
  }

  lemma BeginSendInv(s: System, msg: seq<Byte>)
    requires Inv(s) && s.sender.phase == Idle
    ensures InBounds(s) && Inv(Apply(s, BeginSend(msg)))
  {
    hide Contents, Capacity, Contain, Flatten;
    InvInBounds(s);
    var t := Apply(s, BeginSend(msg));
    ReceiverUntouched(s, t);
    hide ReceiverFits;
    assert Stored(t) == Stored(s) && Received(t) == Received(s) && Unread(t) == Unread(s);
    hide Stored, Received, Unread;
  }

  lemma BeginReceiveInv(s: System, wanted: nat)
    requires Inv(s) && s.receiver.phase == Idle
    ensures InBounds(s) && Inv(Apply(s, BeginReceive(wanted)))
  {
    hide Contents, Capacity, Contain, Flatten;
    InvInBounds(s);
    var t := Apply(s, BeginReceive(wanted));
    SenderUntouched(s, t);
    hide SenderFits;
    assert Stored(t) == Stored(s) && Received(t) == Received(s) && Unread(t) == Unread(s);
    hide Stored, Received, Unread;
  }

  lemma SenderLoopInv(s: System, w: WaitResult)
    requires Inv(s) && (s.sender.phase == Check || s.sender.phase == Wait)
    ensures InBounds(s) && Inv(SenderNext(s, w))
  {
    hide Contents, Contain, Capacity, Flatten;
    InvInBounds(s);
    var t := SenderNext(s, w);
    ContainPlusCapacity(s.ring);
    ReceiverUntouched(s, t);
    hide ReceiverFits;
    assert Stored(t) == Stored(s) by {
      Flattened(s.accepted, s.sender.msg);
      assert s.sender.msg[..|s.sender.msg|] == s.sender.msg;
    }
    assert Unread(t) == Unread(s) && Received(t) == Received(s);
    hide Stored, Received, Unread, InBounds;
  }

  lemma SenderNormalisesInv(s: System, w: WaitResult)
    requires Inv(s) && s.sender.phase == Normalise
    ensures InBounds(s) && Inv(SenderNext(s, w))
  {
    InvInBounds(s);
    var t := SenderNext(s, w);
    NormaliseRearKeeps(s.ring);
    ContainPlusCapacity(s.ring);
    ContainPlusCapacity(t.ring);
    ReceiverUntouched(s, t);
    assert t.ring.head == s.ring.head && t.ring.length == s.ring.length;
    hide Contents, Contain, Capacity, Flatten, NormaliseRear, ReceiverFits;
  }

  lemma SenderStoresInv(s: System, w: WaitResult)
    requires Inv(s) && s.sender.phase == Move
    ensures InBounds(s) && Inv(SenderNext(s, w))
  {
    hide Contents, Contain, Capacity, Flatten;
    InvInBounds(s);
    var t := SenderNext(s, w);
    StoreKeeps(s.ring, s.sender.msg[s.sender.i]);
    ContainPlusCapacity(s.ring);
    ContainPlusCapacity(t.ring);
    ReceiverUntouched(s, t);
    hide ReceiverFits;
  }

  lemma SenderPublishesInv(s: System, w: WaitResult)
    requires Inv(s) && s.sender.phase == Publish
    ensures InBounds(s) && Inv(SenderNext(s, w))
  {
    hide Contents, Contain, Capacity, Flatten;
    InvInBounds(s);
    var t := SenderNext(s, w);
    PublishAppends(s.ring);
    ContainPlusCapacity(s.ring);
    ContainPlusCapacity(t.ring);
    ReceiverUntouched(s, t);
    var b := s.sender.msg[s.sender.i];
    assert s.sender.msg[..s.sender.i + 1] == s.sender.msg[..s.sender.i] + [b];
    assert Stored(t) == Stored(s) + [b];
    assert Unread(t) == Unread(s) + [b];
    hide ReceiverFits, Stored, Received, Unread;
  }

  lemma ReceiverLoopInv(s: System, w: WaitResult)
    requires Inv(s) && (s.receiver.phase == Check || s.receiver.phase == Wait)
    ensures InBounds(s) && Inv(ReceiverNext(s, w))
  {
    hide Contents, Capacity, Contain, Flatten;
    InvInBounds(s);
    var t := ReceiverNext(s, w);
    ContainPlusCapacity(s.ring);
    SenderUntouched(s, t);
    hide SenderFits;
    assert Received(t) == Received(s) by {
      Flattened(s.delivered, s.receiver.got);
    }
    assert Unread(t) == Unread(s) && Stored(t) == Stored(s);
    hide Stored, Received, Unread, InBounds;
  }

  lemma ReceiverNormalisesInv(s: System, w: WaitResult)
    requires Inv(s) && s.receiver.phase == Normalise
    ensures InBounds(s) && Inv(ReceiverNext(s, w))
  {
    InvInBounds(s);
    var t := ReceiverNext(s, w);
    NormaliseHeadKeeps(s.ring);
    ContainPlusCapacity(s.ring);
    ContainPlusCapacity(t.ring);
    hide Contents, Contain, Capacity, Flatten;
    SenderUntouched(s, t);
    assert t.ring.rear == s.ring.rear && t.ring.length == s.ring.length;
    hide SenderFits, NormaliseHead;
  }

  lemma MovesOne(done: seq<Byte>, got: seq<Byte>, unread: seq<Byte>)
    requires unread != []
    ensures done + got + unread == done + (got + [unread[0]]) + unread[1..]
  {
  }

  lemma ReceiverReadsInv(s: System, w: WaitResult)
    requires Inv(s) && s.receiver.phase == Move
    ensures InBounds(s) && Inv(ReceiverNext(s, w))
  {
    hide Contents, Contain, Capacity, Flatten;
    InvInBounds(s);
    var t := ReceiverNext(s, w);
    PublishDrops(s.ring);
    SenderUntouched(s, t);
    hide SenderFits;
    assert s.ring.cells[s.ring.head] == Contents(s.ring)[0];
    MovesOne(Flatten(s.delivered), s.receiver.got, Contents(s.ring));
    assert Stored(t) == Received(t) + Unread(t);
    hide Unread;
  }

  lemma ReceiverPublishesInv(s: System, w: WaitResult)
    requires Inv(s) && s.receiver.phase == Publish
    ensures InBounds(s) && Inv(ReceiverNext(s, w))
  {
    hide Contents, Contain, Capacity, Flatten;
    InvInBounds(s);
    var t := ReceiverNext(s, w);
    PublishDrops(s.ring);
    ContainPlusCapacity(s.ring);
    ContainPlusCapacity(t.ring);
    SenderUntouched(s, t);
    hide SenderFits;
    assert Contents(s.ring)[1..] == Contents(t.ring);
    assert Unread(t) == Unread(s) && Received(t) == Received(s);
    hide Unread;
  }

  /** Whatever either side does next, every index is in bounds and the invariant stays. */
  lemma StepInv(s: System, a: Action)
    requires Inv(s) && Enabled(s, a)
    ensures InBounds(s) && Inv(Apply(s, a))
  {
    hide Inv, InBounds;
    match a
    case BeginSend(msg) => BeginSendInv(s, msg);
    case BeginReceive(wanted) => BeginReceiveInv(s, wanted);
    case SenderStep(w) =>
      if s.sender.phase == Normalise {
        SenderNormalisesInv(s, w);
      } else if s.sender.phase == Move {
        SenderStoresInv(s, w);
      } else if s.sender.phase == Publish {
        SenderPublishesInv(s, w);
      } else {
        SenderLoopInv(s, w);
      }
    case ReceiverStep(w) =>
      if s.receiver.phase == Normalise {
        ReceiverNormalisesInv(s, w);
      } else if s.receiver.phase == Move {
        ReceiverReadsInv(s, w);
      } else if s.receiver.phase == Publish {
        ReceiverPublishesInv(s, w);
      } else {
        ReceiverLoopInv(s, w);
      }
  }

  // ---------- runs ----------

  /** One action. Were an index out of bounds, anything could follow. */
  ghost predicate IsStep(s: System, a: Action, t: System) {
    Enabled(s, a) && (InBounds(s) ==> t == Apply(s, a))
  }

  /** Any interleaving of the two sides, from a new queue. */
  ghost predicate IsRun(states: seq<System>, acts: seq<Action>) {
    && |states| == |acts| + 1
    && Initial(states[0])
    && forall i :: 0 <= i < |acts| ==> IsStep(states[i], acts[i], states[i + 1])
  }

  lemma {:induction false} RunInv(states: seq<System>, acts: seq<Action>, m: nat)
    requires IsRun(states, acts) && m < |states|
    ensures Inv(states[m])
  {
    hide Inv, Initial, InBounds;
    if m == 0 {
      InitialInv(states[0]);
    } else {
      RunInv(states, acts, m - 1);
      assert IsStep(states[m - 1], acts[m - 1], states[m]);
      StepInv(states[m - 1], acts[m - 1]);
    }
  }

  lemma RunStep(states: seq<System>, acts: seq<Action>, m: nat)
    requires IsRun(states, acts) && m < |acts|
    ensures Inv(states[m]) && Enabled(states[m], acts[m])
    ensures InBounds(states[m]) && states[m + 1] == Apply(states[m], acts[m])
  {
    RunInv(states, acts, m);
    hide Inv, InBounds, Initial, Apply;
    assert IsStep(states[m], acts[m], states[m + 1]);
    StepInv(states[m], acts[m]);
  }

  /** In every state of every run no index is out of bounds, the bytes received are a prefix of the bytes stored, and
      the ring holds the rest in their order: at most one byte less than its size. */
  lemma Fifo(states: seq<System>, acts: seq<Action>, m: nat)
    requires IsRun(states, acts) && m < |states|
    ensures var s := states[m];
      && InBounds(s)
      && Received(s) <= Stored(s) && Stored(s) == Received(s) + Unread(s)
      && |Unread(s)| < s.ring.length
  {
    RunInv(states, acts, m);
    InvInBounds(states[m]);
    ContainPlusCapacity(states[m].ring);
    hide Contents, Contain, Capacity, Flatten;
  }

  // ---------- what one action does to the bytes ----------

  lemma SenderKeepsUnread(s: System, w: WaitResult)
    requires Inv(s)
    ensures InBounds(s) && WellFormed(SenderNext(s, w).ring) && Contents(s.ring) <= Contents(SenderNext(s, w).ring)
  {
    InvInBounds(s);
    var q, c := s.ring, s.sender;
    ContainPlusCapacity(q);
    hide Contents, Contain, Capacity, Flatten, History, Stored, Received, Unread, ReceiverFits;
    match c.phase {
      case Normalise => NormaliseRearKeeps(q);
      case Move => StoreKeeps(q, c.msg[c.i]);
      case Publish => PublishAppends(q);
      case _ =>
    }
  }

  lemma ReceiverDropsOldest(s: System, w: WaitResult)
    requires Inv(s)
    ensures InBounds(s) && WellFormed(ReceiverNext(s, w).ring)
    ensures var rest := Contents(ReceiverNext(s, w).ring);
      rest == Contents(s.ring) ||
        (s.receiver.phase == Publish && Contents(s.ring) == [s.ring.cells[s.ring.head]] + rest)
  {
    InvInBounds(s);
    var q, c := s.ring, s.receiver;
    hide Contents, Contain, Capacity, Flatten, History, Stored, Received, Unread, SenderFits;
    match c.phase {
      case Normalise => NormaliseHeadKeeps(q);
      case Publish => PublishDrops(q);
      case _ =>
    }
  }

  /** No write of the sender touches an unread byte, and the receiver drops the oldest one at a time. */
  lemma UnreadSurvives(s: System, a: Action)
    requires Inv(s) && Enabled(s, a)
    ensures InBounds(s) && WellFormed(Apply(s, a).ring)
    ensures !a.ReceiverStep? ==> Contents(s.ring) <= Contents(Apply(s, a).ring)
    ensures a.ReceiverStep? ==>
      var rest := Contents(Apply(s, a).ring);
      rest == Contents(s.ring) ||
        (s.receiver.phase == Publish && Contents(s.ring) == [s.ring.cells[s.ring.head]] + rest)
  {
    InvInBounds(s);
    hide Inv, InBounds, SenderNext, ReceiverNext, Contents;
    match a
    case SenderStep(w) => SenderKeepsUnread(s, w);
    case ReceiverStep(w) => ReceiverDropsOldest(s, w);
    case _ =>
  }

  lemma SenderAdds(s: System, w: WaitResult)
    requires Inv(s)
    ensures InBounds(s) && SenderNext(s, w).sender.i <= |SenderNext(s, w).sender.msg|
    ensures Stored(SenderNext(s, w)) ==
      if s.sender.phase == Publish then Stored(s) + [s.sender.msg[s.sender.i]] else Stored(s)
  {
    hide Contents, Contain, Capacity, Flatten, History, ReceiverFits, Unread, Received;
    InvInBounds(s);
    var c := s.sender;
    if c.phase == Publish {
      assert c.msg[..c.i + 1] == c.msg[..c.i] + [c.msg[c.i]];
    } else if c.phase == Check && c.i == |c.msg| {
      Flattened(s.accepted, c.msg);
      assert c.msg[..c.i] == c.msg;
    }
  }

  lemma ReceiverAdds(s: System, w: WaitResult)
    requires Inv(s)
    ensures InBounds(s)
    ensures Received(ReceiverNext(s, w)) ==
      if s.receiver.phase == Move then Received(s) + [s.ring.cells[s.ring.head]] else Received(s)
  {
    hide Contents, Contain, Capacity, Flatten, History, SenderFits, Unread, Stored;
    InvInBounds(s);
    var c := s.receiver;
    if c.phase == Check && |c.got| == c.wanted {
      Flattened(s.delivered, c.got);
    }
  }

  /** What has been stored or received stays so: only the two publishing moments add to the accounts, one byte each. */
  lemma NothingTakenBack(s: System, a: Action)
    requires Inv(s) && Enabled(s, a)
    ensures InBounds(s) && Apply(s, a).sender.i <= |Apply(s, a).sender.msg|
    ensures Stored(Apply(s, a)) ==
      if a.SenderStep? && s.sender.phase == Publish then Stored(s) + [s.sender.msg[s.sender.i]] else Stored(s)
    ensures Received(Apply(s, a)) ==
      if a.ReceiverStep? && s.receiver.phase == Move then Received(s) + [s.ring.cells[s.ring.head]] else Received(s)
  {
    InvInBounds(s);
    match a
    case SenderStep(w) => SenderAdds(s, w);
    case ReceiverStep(w) => ReceiverAdds(s, w);
    case _ =>
      hide Contents, Contain, Capacity, Flatten, History, Unread;
  }

  // ---------- all or nothing ----------

  /** A message that is neither whole nor untouched is still being moved. */
  lemma SenderEnds(s: System, w: WaitResult)
    requires Inv(s) && s.sender.phase != Idle
    ensures InBounds(s)
    ensures var t := SenderNext(s, w);
      && (s.sender.phase == Wait ==> s.sender.i == 0)
      && (t.sender.phase == Idle ==>
            && t.sender == RESTING_SENDER && (s.sender.phase == Check || s.sender.phase == Wait)
            && t.accepted == if s.sender.phase == Wait then s.accepted else s.accepted + [s.sender.msg])
  {
    hide Contents, Contain, Capacity, Flatten, History, ReceiverFits, Unread, Received, Stored;
    InvInBounds(s);
  }

  lemma ReceiverEnds(s: System, w: WaitResult)
    requires Inv(s) && s.receiver.phase != Idle
    ensures InBounds(s)
    ensures var t := ReceiverNext(s, w);
      && (s.receiver.phase == Wait ==> s.receiver.got == [])
      && (t.receiver.phase == Idle ==>
            && t.receiver == RESTING_RECEIVER && (s.receiver.phase == Check || s.receiver.phase == Wait)
            && (if s.receiver.phase == Wait then t.delivered == s.delivered
                else t.delivered == s.delivered + [s.receiver.got] && |s.receiver.got| == s.receiver.wanted))
  {
    hide Contents, Contain, Capacity, Flatten, History, SenderFits, Unread, Received, Stored;
    InvInBounds(s);
  }

  lemma RestingStored(s: System)
    requires s.sender == RESTING_SENDER
    ensures Stored(s) == Flatten(s.accepted)
  {
    hide Flatten;
    assert Flatten(s.accepted) + [] == Flatten(s.accepted);
  }

  lemma RestingReceived(s: System)
    requires s.receiver == RESTING_RECEIVER
    ensures Received(s) == Flatten(s.delivered)
  {
    hide Flatten;
    assert Flatten(s.delivered) + [] == Flatten(s.delivered);
  }

  lemma WaitingIsUntouched(s: System)
    requires Inv(s)
    ensures s.sender.i <= |s.sender.msg|
    ensures s.sender.phase == Wait ==> s.sender.i == 0
    ensures s.receiver.phase == Wait ==> s.receiver.got == []
  {
    hide Contents, Contain, Capacity, Flatten, History, Unread, Received, Stored;
  }

  /** A call that waits has moved nothing. So msg_send ends in one of two ways: with AII_OK and its whole message behind
      the messages accepted before, or with AII_ERROR and nothing but those stored. */
  lemma SendAllOrNothing(states: seq<System>, acts: seq<Action>, m: nat)
    requires IsRun(states, acts) && m < |acts|
    requires states[m].sender.phase != Idle && states[m + 1].sender.phase == Idle
    ensures states[m].sender.i <= |states[m].sender.msg| && states[m + 1].sender == RESTING_SENDER
    ensures var s, t := states[m], states[m + 1];
      && (s.sender.phase == Wait ==> s.sender.i == 0)
      && Stored(s) == Stored(t) == Flatten(t.accepted)
      && t.accepted == if s.sender.phase == Wait then s.accepted else s.accepted + [s.sender.msg]
  {
    hide Flatten, Inv, InBounds, Stored, SenderNext;
    RunStep(states, acts, m);
    var s, a := states[m], acts[m];
    WaitingIsUntouched(s);
    NothingTakenBack(s, a);
    SenderEnds(s, a.wait);
    RestingStored(states[m + 1]);
  }

  /** So does msg_receive: with all the bytes it was asked for behind those delivered before, or with none read. */
  lemma ReceiveAllOrNothing(states: seq<System>, acts: seq<Action>, m: nat)
    requires IsRun(states, acts) && m < |acts|
    requires states[m].receiver.phase != Idle && states[m + 1].receiver.phase == Idle
    ensures var s, t := states[m], states[m + 1];
      && (s.receiver.phase == Wait ==> s.receiver.got == [])
      && Received(s) == Received(t) == Flatten(t.delivered)
      && if s.receiver.phase == Wait then t.delivered == s.delivered
         else t.delivered == s.delivered + [s.receiver.got] && |s.receiver.got| == s.receiver.wanted
  {
    hide Flatten, Inv, InBounds, Received, ReceiverNext;
    RunStep(states, acts, m);
    var s, a := states[m], acts[m];
    WaitingIsUntouched(s);
    NothingTakenBack(s, a);
    ReceiverEnds(s, a.wait);
    RestingReceived(states[m + 1]);
  }

  lemma SameCall(s: System, a: Action)
    requires Inv(s) && Enabled(s, a)
    ensures InBounds(s)
    ensures var c, d := s.sender, Apply(s, a).sender;
      c.phase != Idle && d.phase != Idle ==> c.i <= d.i && c.msg == d.msg
    ensures var c, d := s.receiver, Apply(s, a).receiver;
      c.phase != Idle && d.phase != Idle ==> c.got <= d.got && c.wanted == d.wanted
  {
    hide Contents, Contain, Capacity, Flatten, History, Unread, Received, Stored;
    InvInBounds(s);
  }

  /** Within one call the number of bytes moved only grows, so once it is positive the call never waits. */
  lemma {:induction false} SenderNeverWaitsAgain(states: seq<System>, acts: seq<Action>, m: nat, n: nat)
    requires IsRun(states, acts) && m <= n < |states|
    requires forall k :: m <= k <= n ==> states[k].sender.phase != Idle
    ensures states[m].sender.i <= states[n].sender.i && states[m].sender.msg == states[n].sender.msg
    ensures states[m].sender.i > 0 ==> states[n].sender.phase != Wait
    decreases n
  {
    hide Inv, InBounds, Apply, Initial;
    RunInv(states, acts, n);
    WaitingIsUntouched(states[n]);
    if m < n {
      SenderNeverWaitsAgain(states, acts, m, n - 1);
      RunStep(states, acts, n - 1);
      hide IsRun;
      SameCall(states[n - 1], acts[n - 1]);
    }
  }

  lemma {:induction false} ReceiverNeverWaitsAgain(states: seq<System>, acts: seq<Action>, m: nat, n: nat)
    requires IsRun(states, acts) && m <= n < |states|
    requires forall k :: m <= k <= n ==> states[k].receiver.phase != Idle
    ensures states[m].receiver.got <= states[n].receiver.got && states[m].receiver.wanted == states[n].receiver.wanted
    ensures states[m].receiver.got != [] ==> states[n].receiver.phase != Wait
    decreases n
  {
    hide Inv, InBounds, Apply, Initial;
    RunInv(states, acts, n);
    WaitingIsUntouched(states[n]);
    if m < n {
      ReceiverNeverWaitsAgain(states, acts, m, n - 1);
      RunStep(states, acts, n - 1);
      hide IsRun;
      SameCall(states[n - 1], acts[n - 1]);
    }
  }

  // ---------- admission ----------

  /** A call that has passed its first check. */
  predicate Admitted(moved: nat, p: Phase) {
    p != Idle && (moved > 0 || p == Normalise || MidWrite(p))
  }

  /** The first check admits a message if and only if it fits beside the unread bytes, and a request if and only if the
      bytes are there. */
  lemma AdmittedIffFits(s: System, w: WaitResult)
    requires Inv(s)
    ensures InBounds(s)
    ensures s.sender.phase == Check && s.sender.i == 0 && s.sender.msg != [] ==>
      (Admitted(0, SenderNext(s, w).sender.phase) <==> |Contents(s.ring)| + |s.sender.msg| < s.ring.length)
    ensures s.receiver.phase == Check && s.receiver.got == [] && s.receiver.wanted > 0 ==>
      (Admitted(0, ReceiverNext(s, w).receiver.phase) <==> s.receiver.wanted <= |Contents(s.ring)|)
  {
    InvInBounds(s);
    ContainPlusCapacity(s.ring);
    hide Contents, Contain, Capacity, Flatten;
  }

  function Rank(p: Phase): nat {
    match p case Check => 4 case Normalise => 3 case Move => 2 case Publish => 1 case _ => 0
  }

  /** Steps left in an admitted call that has `left` bytes to publish. */
  function WorkLeft(left: nat, p: Phase): nat {
    4 * left + Rank(p)
  }

  /** Steps the sender has left in an admitted call. */
  function ToSend(c: Sender): nat
    requires c.i <= |c.msg|
  {
    WorkLeft(|c.msg| - c.i, c.phase)
  }

  /** Steps the receiver has left; one that is about to advance the head index has read one byte ahead. */
  function ToTake(c: Receiver): nat
    requires |c.got| <= c.wanted
  {
    WorkLeft(c.wanted - |c.got| + if c.phase == Publish then 1 else 0, c.phase)
  }

  /** Each own step of an admitted call ends it with AII_OK or brings it closer to its end, and no step of the other
      side sets it back. */
  lemma SendAdvances(s: System, a: Action)
    requires Inv(s) && Enabled(s, a) && Admitted(s.sender.i, s.sender.phase)
    ensures InBounds(s)
    ensures var c, t := s.sender, Apply(s, a);
      && c.i <= |c.msg| && ToSend(c) > 0
      && if !a.SenderStep? then t.sender == c && t.accepted == s.accepted
         else if t.sender.phase == Idle then t.accepted == s.accepted + [c.msg]
         else && Admitted(t.sender.i, t.sender.phase) && t.accepted == s.accepted && t.sender.msg == c.msg
              && t.sender.i <= |c.msg| && ToSend(t.sender) < ToSend(c)
  {
    hide Contents, Contain, Capacity, Flatten, History, ReceiverFits, Unread, Received, Stored;
    InvInBounds(s);
  }

  lemma ReceiveAdvances(s: System, a: Action)
    requires Inv(s) && Enabled(s, a) && Admitted(|s.receiver.got|, s.receiver.phase)
    ensures InBounds(s)
    ensures var c, t := s.receiver, Apply(s, a);
      && |c.got| <= c.wanted && ToTake(c) > 0
      && if !a.ReceiverStep? then t.receiver == c && t.delivered == s.delivered
         else if t.receiver.phase == Idle then t.delivered == s.delivered + [c.got] && |c.got| == c.wanted
         else && Admitted(|t.receiver.got|, t.receiver.phase) && t.delivered == s.delivered
              && t.receiver.wanted == c.wanted && c.got <= t.receiver.got && |t.receiver.got| <= c.wanted
              && ToTake(t.receiver) < ToTake(c)
  {
    hide Contents, Contain, Capacity, Flatten, History, SenderFits, Unread, Received, Stored;
    InvInBounds(s);
  }

  function SenderSteps(acts: seq<Action>, i: nat, j: nat): nat
    requires i <= j <= |acts|
  {
    if i == j then 0 else SenderSteps(acts, i, j - 1) + if acts[j - 1].SenderStep? then 1 else 0
  }

  function ReceiverSteps(acts: seq<Action>, i: nat, j: nat): nat
    requires i <= j <= |acts|
  {
    if i == j then 0 else ReceiverSteps(acts, i, j - 1) + if acts[j - 1].ReceiverStep? then 1 else 0
  }

  /** Between `i` and `j` the call that is under way at `i` has returned AII_OK. */
  ghost predicate Sent(states: seq<System>, i: nat, j: nat)
    requires i <= j < |states|
  {
    exists m {:trigger states[m]} :: i < m <= j && states[m].sender.phase == Idle
      && states[m].accepted == states[i].accepted + [states[i].sender.msg]
  }

  ghost predicate Delivered(states: seq<System>, i: nat, j: nat)
    requires i <= j < |states|
  {
    exists m {:trigger states[m]} :: i < m <= j && DeliveredBy(states[i], states[m])
  }

  /** The call under way in `s` has handed out what it was asked for, beginning with what it had. */
  ghost predicate DeliveredBy(s: System, t: System) {
    && t.receiver.phase == Idle && |t.delivered| == |s.delivered| + 1 && s.delivered <= t.delivered
    && var got := t.delivered[|s.delivered|]; s.receiver.got <= got && |got| == s.receiver.wanted
  }

  lemma {:induction false} SendAlong(states: seq<System>, acts: seq<Action>, i: nat, j: nat)
    requires IsRun(states, acts) && i <= j < |states| && Admitted(states[i].sender.i, states[i].sender.phase)
    ensures var c, d := states[i].sender, states[j].sender;
      c.i <= |c.msg| && (Sent(states, i, j) ||
        (&& Admitted(d.i, d.phase) && d.msg == c.msg && d.i <= |d.msg| && states[j].accepted == states[i].accepted
         && 0 < ToSend(d) && ToSend(d) + SenderSteps(acts, i, j) <= ToSend(c)))
    decreases j
  {
    hide Inv, InBounds, Apply, Initial, ToSend;
    if i == j {
      RunInv(states, acts, i);
      SendNow(states[i]);
    } else {
      SendAlong(states, acts, i, j - 1);
      if Sent(states, i, j - 1) {
        var m {:trigger states[m]} :| i < m <= j - 1 && states[m].sender.phase == Idle
          && states[m].accepted == states[i].accepted + [states[i].sender.msg];
        assert Sent(states, i, j);
      } else {
        RunStep(states, acts, j - 1);
        hide IsRun;
        SendAdvances(states[j - 1], acts[j - 1]);
        if states[j].sender.phase == Idle {
          assert acts[j - 1].SenderStep?;
          assert Sent(states, i, j);
        } else {
          RunInv(states, acts, j);
          SendNow(states[j]);
        }
      }
    }
  }

  lemma SendNow(s: System)
    requires Inv(s) && Admitted(s.sender.i, s.sender.phase)
    ensures s.sender.i <= |s.sender.msg| && ToSend(s.sender) > 0
  {
    hide Contents, Contain, Capacity, Flatten, History, ReceiverFits, Unread, Received, Stored;
  }

  /** In every run: once a call of msg_send is admitted and the sender has since taken the steps it had left, at most
      four for each byte and one, the call has returned AII_OK, whatever the receiver and the waits did. */
  lemma SendFinishes(states: seq<System>, acts: seq<Action>, i: nat, j: nat)
    requires IsRun(states, acts) && i <= j < |states| && Admitted(states[i].sender.i, states[i].sender.phase)
    ensures states[i].sender.i <= |states[i].sender.msg|
    ensures SenderSteps(acts, i, j) >= ToSend(states[i].sender) ==> Sent(states, i, j)
  {
    SendAlong(states, acts, i, j);
    hide Sent, ToSend, Admitted, IsRun;
  }

  lemma {:induction false} ReceiveAlong(states: seq<System>, acts: seq<Action>, i: nat, j: nat)
    requires IsRun(states, acts) && i <= j < |states| && Admitted(|states[i].receiver.got|, states[i].receiver.phase)
    ensures var c, d := states[i].receiver, states[j].receiver;
      |c.got| <= c.wanted && (Delivered(states, i, j) ||
        (&& Admitted(|d.got|, d.phase) && d.wanted == c.wanted && c.got <= d.got && |d.got| <= d.wanted
         && states[j].delivered == states[i].delivered
         && 0 < ToTake(d) && ToTake(d) + ReceiverSteps(acts, i, j) <= ToTake(c)))
    decreases j
  {
    hide Inv, InBounds, Apply, Initial, ToTake;
    if i == j {
      RunInv(states, acts, i);
      ReceiveNow(states[i]);
    } else {
      ReceiveAlong(states, acts, i, j - 1);
      if Delivered(states, i, j - 1) {
        var m {:trigger states[m]} :| i < m <= j - 1 && DeliveredBy(states[i], states[m]);
        assert Delivered(states, i, j);
      } else {
        RunStep(states, acts, j - 1);
        hide IsRun;
        ReceiveAdvances(states[j - 1], acts[j - 1]);
        if states[j].receiver.phase == Idle {
          assert acts[j - 1].ReceiverStep?;
          assert DeliveredBy(states[i], states[j]);
        } else {
          RunInv(states, acts, j);
          ReceiveNow(states[j]);
        }
      }
    }
  }

  lemma ReceiveNow(s: System)
    requires Inv(s) && Admitted(|s.receiver.got|, s.receiver.phase)
    ensures |s.receiver.got| <= s.receiver.wanted && ToTake(s.receiver) > 0
  {
    hide Contents, Contain, Capacity, Flatten, History, SenderFits, Unread, Received, Stored;
  }

  /** Likewise msg_receive, which then has handed out the bytes it was asked for. */
  lemma ReceiveFinishes(states: seq<System>, acts: seq<Action>, i: nat, j: nat)
    requires IsRun(states, acts) && i <= j < |states| && Admitted(|states[i].receiver.got|, states[i].receiver.phase)
    ensures |states[i].receiver.got| <= states[i].receiver.wanted
    ensures ReceiverSteps(acts, i, j) >= ToTake(states[i].receiver) ==> Delivered(states, i, j)
  {
    ReceiveAlong(states, acts, i, j);
    hide Delivered, ToTake, Admitted, IsRun;
  }

  /** A message longer than the ring's size less one is never begun, let alone accepted. */
  lemma TooLongNeverAccepted(states: seq<System>, acts: seq<Action>, m: nat)
    requires IsRun(states, acts) && m < |states|
    ensures var s := states[m];
      && (|s.sender.msg| >= s.ring.length ==> s.sender.i == 0 && (s.sender.phase == Check || s.sender.phase == Wait))
      && (s.receiver.wanted >= s.ring.length ==>
            s.receiver.got == [] && (s.receiver.phase == Check || s.receiver.phase == Wait))
      && Short(s.accepted, s.ring.length) && Short(s.delivered, s.ring.length)
  {
    RunInv(states, acts, m);
    hide Contents, Contain, Capacity, Flatten, History;
  }

  // ---------- the queries, at any moment ----------

  /** Outside the few steps between reducing an index and advancing it, mgIsQEmpty is right and the two amounts agree
      with it; inside them mgIsQEmpty is wrong exactly while the indices are split. is_msg_queue_full is right exactly
      unless its sum wraps on an empty or full queue. */
  lemma QueriesAgree(states: seq<System>, acts: seq<Action>, m: nat)
    requires IsRun(states, acts) && m < |states|
    ensures var s := states[m];
      && WellFormed(s.ring)
      && Contain(s.ring) + Capacity(s.ring) == s.ring.length - 1
      && ((Full(s.ring) <==> Capacity(s.ring) == 0) <==>
            s.ring.rear + 1 < TWO_32 || (Contain(s.ring) > 0 && Capacity(s.ring) > 0))
      && ((RawEmpty(s.ring) <==> Contain(s.ring) == 0) <==> !Split(s.ring))
      && (!MidWrite(s.sender.phase) && !MidWrite(s.receiver.phase) ==> AtRest(s.ring) && !Split(s.ring))
  {
    var s := states[m];
    RunInv(states, acts, m);
    ContainPlusCapacity(s.ring);
    FullIsExact(s.ring);
    RawEmptyIsExact(s.ring);
    Queries(s.ring);
    hide Contents, Contain, Capacity, Flatten, Full;
  }

  // ---------- the moments the queries go wrong ----------

  function Zeros(n: nat): seq<seq<Byte>> {
    if n == 0 then [] else Zeros(n - 1) + [[0]]
  }

  /** A queue of size `length`, through which one byte after the other is sent and received; state `j` of turn `r`. In
      turn `length` the sender reduces its index while the receiver's still equals the size. */
  function Turn(length: nat, r: nat, j: nat): System
    requires length > 0
  {
    var head := if j < 11 then r else r + 1;
    var rear := if j < 3 then r else if j < 5 then Cell(if r <= length then r else 0, length) else r + 1;
    var sender := match j
      case 0 => RESTING_SENDER
      case 1 => Sender(Check, [0], 0)
      case 2 => Sender(Normalise, [0], 0)
      case 3 => Sender(Move, [0], 0)
      case 4 => Sender(Publish, [0], 0)
      case 5 => Sender(Check, [0], 1)
      case _ => RESTING_SENDER;
    var receiver := match j
      case 7 => Receiver(Check, 1, [])
      case 8 => Receiver(Normalise, 1, [])
      case 9 => Receiver(Move, 1, [])
      case 10 => Receiver(Publish, 1, [0])
      case 11 => Receiver(Check, 1, [0])
      case _ => RESTING_RECEIVER;
    var cells := seq(length, _ => 0);
    System(Ring(head, rear, length, cells), sender, receiver, Zeros(if j < 6 then r else r + 1), Zeros(r))
  }

  function TurnAction(j: nat): Action {
    if j == 0 then BeginSend([0]) else if j == 6 then BeginReceive(1)
    else if j < 6 then SenderStep(Signalled) else ReceiverStep(Signalled)
  }

  lemma StoresZero(length: nat, i: nat)
    requires i < length
    ensures seq(length, _ => 0 as Byte)[i := 0] == seq(length, _ => 0)
  {
  }

  lemma TurnSends(length: nat, r: nat, j: nat)
    requires 2 <= length && ((r < length && j < 6) || (r == length && j < 3))
    ensures IsStep(Turn(length, r, j), TurnAction(j), Turn(length, r, j + 1))
  {
    var s := Turn(length, r, j);
    if InBounds(s) {
      Queries(s.ring);
      Reduces(s.ring.rear, length);
      if j == 3 { StoresZero(length, s.ring.rear); }
      hide Contain, Capacity, Contents;
    }
  }

  lemma TurnReceives(length: nat, r: nat, j: nat)
    requires 2 <= length && r < length && 6 <= j < 12
    ensures IsStep(Turn(length, r, j), TurnAction(j), if j ==
      11 then Turn(length, r + 1, 0) else Turn(length, r, j + 1))
  {
    var s := Turn(length, r, j);
    if InBounds(s) {
      Queries(s.ring);
      Reduces(s.ring.head, length);
      hide Contain, Capacity, Contents;
    }
  }

  lemma TurnSteps(length: nat, k: nat)
    requires 2 <= length && k < 12 * length + 3
    ensures IsStep(Turn(length, k / 12, k % 12), TurnAction(k % 12), Turn(length, (k + 1) / 12, (k + 1) % 12))
  {
    var r, j := k / 12, k % 12;
    hide Turn, IsStep, TurnAction;
    assert r < length || (r == length && j < 3);
    if j < 6 {
      TurnSends(length, r, j);
    } else {
      TurnReceives(length, r, j);
    }
    assert j == 11 ==> (k + 1) / 12 == r + 1 && (k + 1) % 12 == 0;
    assert j < 11 ==> (k + 1) / 12 == r && (k + 1) % 12 == j + 1;
  }

  /** The first `n` actions of the turns. */
  lemma TurnsRun(length: nat, n: nat) returns (states: seq<System>, acts: seq<Action>)
    requires 2 <= length < TWO_32 && n <= 12 * length + 3
    ensures IsRun(states, acts) && |acts| == n
    ensures states[0] == Turn(length, 0, 0) && states[n] == Turn(length, n / 12, n % 12)
  {
    hide IsStep;
    TurnsBegin(length);
    hide Initial, Turn;
    states := seq(n + 1, k requires 0 <= k => Turn(length, k / 12, k % 12));
    acts := seq(n, k requires 0 <= k => TurnAction(k % 12));
    assert states[0] == Turn(length, 0, 0);
    forall k | 0 <= k < n
      ensures IsStep(states[k], acts[k], states[k + 1])
    {
      TurnSteps(length, k);
    }
  }

  lemma TurnsBegin(length: nat)
    requires 2 <= length < TWO_32
    ensures Initial(Turn(length, 0, 0))
  {
  }

  /** On every queue of at least two bytes: a run at whose end an empty queue is reported as occupied. */
  lemma EmptyLooksOccupied(length: nat) returns (states: seq<System>, acts: seq<Action>)
    requires 2 <= length < TWO_32
    ensures IsRun(states, acts) && states[0].ring.length == length
    ensures var s := states[|acts|];
      && WellFormed(s.ring) && s.sender.i <= |s.sender.msg| && Stored(s) == Received(s)
      && Contain(s.ring) == 0 && !RawEmpty(s.ring) && Split(s.ring)
  {
    var n := 12 * length + 3;
    assert n / 12 == length && n % 12 == 3;
    states, acts := TurnsRun(length, n);
    hide IsRun;
    var s := states[n];
    Queries(s.ring);
    hide Contain, Flatten;
    assert s.sender.msg[..s.sender.i] == s.receiver.got == [];
  }

  /** On the largest queue: a run at whose end, between calls, an empty queue is reported as full. */
  lemma EmptyLooksFull() returns (states: seq<System>, acts: seq<Action>)
    ensures IsRun(states, acts)
    ensures var s := states[|acts|];
      && WellFormed(s.ring) && s.sender == RESTING_SENDER && s.receiver == RESTING_RECEIVER
      && Contain(s.ring) == 0 && Full(s.ring)
  {
    var length := TWO_32 - 1;
    var n := 12 * length;
    assert n / 12 == length && n % 12 == 0;
    states, acts := TurnsRun(length, n);
    hide IsRun;
    var s := states[n];
    Queries(s.ring);
    FullIsExact(s.ring);
    hide Contain, Full;
  }

  // ---------- messages ----------

  lemma {:induction false} FlattenLength(a: seq<seq<Byte>>, b: seq<seq<Byte>>)
    requires |a| == |b| && forall k :: 0 <= k < |a| ==> |a[k]| == |b[k]|
    ensures |Flatten(a)| == |Flatten(b)|
  {
    if a != [] {
      FlattenLength(a[..|a| - 1], b[..|b| - 1]);
    }
  }

  lemma {:induction false} FlattenInjective(a: seq<seq<Byte>>, b: seq<seq<Byte>>)
    requires |a| == |b| && (forall k :: 0 <= k < |a| ==> |a[k]| == |b[k]|) && Flatten(a) == Flatten(b)
    ensures a == b
  {
    if a != [] {
      var n := |a| - 1;
      var x, y := a[..n], b[..n];
      FlattenLength(x, y);
      assert Flatten(a) == Flatten(x) + a[n] && Flatten(b) == Flatten(y) + b[n];
      assert Flatten(x) == Flatten(a)[..|Flatten(x)|] == Flatten(y);
      assert a[n] == Flatten(a)[|Flatten(x)|..] == b[n];
      FlattenInjective(x, y);
      assert a == x + [a[n]] && b == y + [b[n]];
    }
  }

  lemma {:induction false} FlattenPrefix(a: seq<seq<Byte>>, n: nat)
    requires n <= |a|
    ensures Flatten(a[..n]) <= Flatten(a)
  {
    if n < |a| {
      FlattenPrefix(a[..|a| - 1], n);
      assert a[..|a| - 1][..n] == a[..n];
    } else {
      assert a[..n] == a;
    }
  }

  /** The ring carries bytes, not messages; but when the receiver asks for the lengths that were sent, in their order,
      it gets the messages that were sent. */
  lemma MessagesArriveWhole(states: seq<System>, acts: seq<Action>, m: nat)
    requires IsRun(states, acts) && m < |states|
    requires |states[m].delivered| <= |states[m].accepted|
    requires forall k :: 0 <= k < |states[m].delivered| ==> |states[m].delivered[k]| == |states[m].accepted[k]|
    ensures states[m].delivered == states[m].accepted[..|states[m].delivered|]
  {
    var s := states[m];
    Fifo(states, acts, m);
    hide Contents, Contain, Capacity, IsRun, Unread, Flatten;
    var sent := s.accepted[..|s.delivered|];
    FlattenPrefix(s.accepted, |s.delivered|);
    FlattenLength(s.delivered, sent);
    assert Flatten(s.delivered) <= Stored(s) && Flatten(sent) <= Stored(s);
    assert Flatten(s.delivered) == Stored(s)[..|Flatten(sent)|] == Flatten(sent);
    FlattenInjective(s.delivered, sent);
  }
}
