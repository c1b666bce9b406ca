/** When a waiting call of the byte ring goes on, when it fails, and when it gets through after all. */
module MsgWaits {
  import opened LibTypes
  import opened MsgRing
  import opened MsgProtocol
  import opened MsgRuns

  // ---------- the answers of a wait ----------

  /** A wait that is abandoned or times out ends msg_send with nothing accepted; any other answer leads back to the test
      of the loop, with the same message and nothing of it stored. */
  lemma SenderWakes(states: seq<System>, acts: seq<Action>, m: nat)
    requires IsRun(states, acts) && m < |acts| && states[m].sender.phase == Wait && acts[m].SenderStep?
    ensures var s, t, w := states[m], states[m + 1], acts[m].wait;
      && t.ring == s.ring && t.receiver == s.receiver && t.accepted == s.accepted && t.delivered == s.delivered
      && (w == Abandoned || w == TimedOut ==> t.sender.phase == Idle)
      && (w == Signalled || w == Other ==> t.sender == Sender(Check, s.sender.msg, 0))
  {
    hide Inv, InBounds, Initial;
    RunStep(states, acts, m);
    WaitingIsUntouched(states[m]);
  }

  lemma ReceiverWakes(states: seq<System>, acts: seq<Action>, m: nat)
    requires IsRun(states, acts) && m < |acts| && states[m].receiver.phase == Wait && acts[m].ReceiverStep?
    ensures var s, t, w := states[m], states[m + 1], acts[m].wait;
      && t.ring == s.ring && t.sender == s.sender && t.accepted == s.accepted && t.delivered == s.delivered
      && (w == Abandoned || w == TimedOut ==> t.receiver.phase == Idle)
      && (w == Signalled || w == Other ==> t.receiver == Receiver(Check, s.receiver.wanted, []))
  {
    hide Inv, InBounds, Initial;
    RunStep(states, acts, m);
    WaitingIsUntouched(states[m]);
  }

  // ---------- the two ends of a call ----------

  lemma OwnStepEnds(s: System, a: Action)
    requires InBounds(s) && Enabled(s, a)
    ensures s.sender.phase != Idle && Apply(s, a).sender.phase == Idle ==> a.SenderStep?
    ensures s.receiver.phase != Idle && Apply(s, a).receiver.phase == Idle ==> a.ReceiverStep?
  {
    hide InBounds;
  }

  /** A call of msg_send that ends with step `m` has returned AII_ERROR, its message not accepted, if and only if that
      step was a wait that was abandoned or timed out. Otherwise its message is accepted. */
  lemma SendFails(states: seq<System>, acts: seq<Action>, m: nat)
    requires IsRun(states, acts) && m < |acts|
    requires states[m].sender.phase != Idle && states[m + 1].sender.phase == Idle
    ensures states[m + 1].accepted == states[m].accepted <==>
      states[m].sender.phase == Wait && (acts[m] == SenderStep(Abandoned) || acts[m] == SenderStep(TimedOut))
    ensures states[m + 1].accepted != states[m].accepted ==>
      states[m + 1].accepted == states[m].accepted + [states[m].sender.msg]
  {
    hide Flatten, Inv, InBounds, Stored, Initial, Apply;
    RunStep(states, acts, m);
    OwnStepEnds(states[m], acts[m]);
    SendAllOrNothing(states, acts, m);
    if states[m].sender.phase == Wait {
      SenderWakes(states, acts, m);
      assert acts[m] == SenderStep(acts[m].wait);
    }
  }

  lemma ReceiveFails(states: seq<System>, acts: seq<Action>, m: nat)
    requires IsRun(states, acts) && m < |acts|
    requires states[m].receiver.phase != Idle && states[m + 1].receiver.phase == Idle
    ensures states[m + 1].delivered == states[m].delivered <==>
      states[m].receiver.phase == Wait && (acts[m] == ReceiverStep(Abandoned) || acts[m] == ReceiverStep(TimedOut))
    ensures states[m + 1].delivered != states[m].delivered ==>
      && states[m + 1].delivered == states[m].delivered + [states[m].receiver.got]
      && |states[m].receiver.got| == states[m].receiver.wanted
  {
    hide Flatten, Inv, InBounds, Received, Initial, Apply;
    RunStep(states, acts, m);
    OwnStepEnds(states[m], acts[m]);
    ReceiveAllOrNothing(states, acts, m);
    if states[m].receiver.phase == Wait {
      ReceiverWakes(states, acts, m);
      assert acts[m] == ReceiverStep(acts[m].wait);
    }
  }

  // ---------- a woken call gets through ----------

  lemma {:induction false} FirstSenderStep(acts: seq<Action>, a: nat, b: nat) returns (j: nat)
    requires a <= b <= |acts| && SenderSteps(acts, a, b) > 0
    ensures a <= j < b && acts[j].SenderStep? && SenderSteps(acts, a, j) == 0
    ensures SenderSteps(acts, a, b) == 1 + SenderSteps(acts, j + 1, b)
  {
    if SenderSteps(acts, a, b - 1) > 0 {
      j := FirstSenderStep(acts, a, b - 1);
    } else {
      j := b - 1;
    }
  }

  lemma {:induction false} FirstReceiverStep(acts: seq<Action>, a: nat, b: nat) returns (j: nat)
    requires a <= b <= |acts| && ReceiverSteps(acts, a, b) > 0
    ensures a <= j < b && acts[j].ReceiverStep? && ReceiverSteps(acts, a, j) == 0
    ensures ReceiverSteps(acts, a, b) == 1 + ReceiverSteps(acts, j + 1, b)
  {
    if ReceiverSteps(acts, a, b - 1) > 0 {
      j := FirstReceiverStep(acts, a, b - 1);
    } else {
      j := b - 1;
    }
  }

  /** While the other side acts, a call stands still. The receiver leaves no less room, the sender no fewer bytes. */
  lemma StandsStill(s: System, a: Action)
    requires Inv(s) && Enabled(s, a)
    ensures InBounds(s) && WellFormed(s.ring) && WellFormed(Apply(s, a).ring)
    ensures Apply(s, a).ring.length == s.ring.length
    ensures s.sender.phase != Idle && !a.SenderStep? ==>
      && Apply(s, a).sender == s.sender && Apply(s, a).accepted == s.accepted
      && |Contents(Apply(s, a).ring)| <= |Contents(s.ring)|
    ensures s.receiver.phase != Idle && !a.ReceiverStep? ==>
      && Apply(s, a).receiver == s.receiver && Apply(s, a).delivered == s.delivered
      && |Contents(s.ring)| <= |Contents(Apply(s, a).ring)|
  {
    UnreadSurvives(s, a);
    NoSideEffects(s, a);
    hide Contents, Inv, Apply;
  }

  lemma NoSideEffects(s: System, a: Action)
    requires InBounds(s) && Enabled(s, a)
    ensures Apply(s, a).ring.length == s.ring.length
    ensures s.sender.phase != Idle && !a.SenderStep? ==>
      && Apply(s, a).sender == s.sender && Apply(s, a).accepted == s.accepted
      && (a.ReceiverStep? || Apply(s, a).ring == s.ring)
    ensures s.receiver.phase != Idle && !a.ReceiverStep? ==>
      && Apply(s, a).receiver == s.receiver && Apply(s, a).delivered == s.delivered
      && (a.SenderStep? || Apply(s, a).ring == s.ring)
  {
    hide InBounds;
  }

  lemma {:induction false} SenderStandsStill(states: seq<System>, acts: seq<Action>, i: nat, j: nat)
    requires IsRun(states, acts) && i <= j <= |acts| && SenderSteps(acts, i, j) == 0 && states[i].sender.phase != Idle
    ensures states[j].sender == states[i].sender && states[j].accepted == states[i].accepted
    ensures WellFormed(states[i].ring) && WellFormed(states[j].ring) && states[j].ring.length == states[i].ring.length
    ensures |Contents(states[j].ring)| <= |Contents(states[i].ring)|
    decreases j
  {
    hide Inv, InBounds, Apply, Initial, Contents, WellFormed;
    RunInv(states, acts, i);
    RingStands(states[i]);
    if i < j {
      SenderStandsStill(states, acts, i, j - 1);
      RunStep(states, acts, j - 1);
      StandsStill(states[j - 1], acts[j - 1]);
    }
  }

  lemma {:induction false} ReceiverStandsStill(states: seq<System>, acts: seq<Action>, i: nat, j: nat)
    requires IsRun(states, acts) && i <= j <= |acts| && ReceiverSteps(acts, i, j) == 0
    requires states[i].receiver.phase != Idle
    ensures states[j].receiver == states[i].receiver && states[j].delivered == states[i].delivered
    ensures WellFormed(states[i].ring) && WellFormed(states[j].ring) && states[j].ring.length == states[i].ring.length
    ensures |Contents(states[i].ring)| <= |Contents(states[j].ring)|
    decreases j
  {
    hide Inv, InBounds, Apply, Initial, Contents, WellFormed;
    RunInv(states, acts, i);
    RingStands(states[i]);
    if i < j {
      ReceiverStandsStill(states, acts, i, j - 1);
      RunStep(states, acts, j - 1);
      StandsStill(states[j - 1], acts[j - 1]);
    }
  }

  lemma RingStands(s: System)
    requires Inv(s)
    ensures WellFormed(s.ring)
  {
  }

  /** A sender at its first test, whose message fits beside the unread bytes, is admitted by its next step. */
  lemma SenderEnters(states: seq<System>, acts: seq<Action>, i: nat, j: nat)
    requires IsRun(states, acts) && i <= j < |acts| && SenderSteps(acts, i, j) == 0 && acts[j].SenderStep?
    requires states[i].sender.phase == Check && states[i].sender.i == 0 && states[i].sender.msg != []
    requires WellFormed(states[i].ring) && |Contents(states[i].ring)| + |states[i].sender.msg| < states[i].ring.length
    ensures states[j + 1].sender == Sender(Normalise, states[i].sender.msg, 0)
    ensures states[j + 1].accepted == states[i].accepted
  {
    SenderStandsStill(states, acts, i, j);
    RunStep(states, acts, j);
    AdmittedIffFits(states[j], acts[j].wait);
    hide Contents, Inv, InBounds, Initial, WellFormed, Capacity;
    assert states[j + 1] == SenderNext(states[j], acts[j].wait);
  }

  lemma ReceiverEnters(states: seq<System>, acts: seq<Action>, i: nat, j: nat)
    requires IsRun(states, acts) && i <= j < |acts| && ReceiverSteps(acts, i, j) == 0 && acts[j].ReceiverStep?
    requires states[i].receiver.phase == Check && states[i].receiver.got == [] && states[i].receiver.wanted > 0
    requires WellFormed(states[i].ring) && states[i].receiver.wanted <= |Contents(states[i].ring)|
    ensures states[j + 1].receiver == Receiver(Normalise, states[i].receiver.wanted, [])
    ensures states[j + 1].delivered == states[i].delivered
  {
    ReceiverStandsStill(states, acts, i, j);
    RunStep(states, acts, j);
    AdmittedIffFits(states[j], acts[j].wait);
    hide Contents, Inv, InBounds, Initial, WellFormed, Contain;
    assert states[j + 1] == ReceiverNext(states[j], acts[j].wait);
  }

  /** A sender that waits, is woken while its message fits, and takes its next steps, returns AII_OK: its message is
      accepted behind what was accepted before, whatever the other side does meanwhile. */
  lemma WokenSenderSends(states: seq<System>, acts: seq<Action>, i: nat, j: nat)
    requires IsRun(states, acts) && i < j <= |acts| && states[i].sender.phase == Wait
    requires acts[i] == SenderStep(Signalled) || acts[i] == SenderStep(Other)
    requires WellFormed(states[i].ring) && |Contents(states[i].ring)| + |states[i].sender.msg| < states[i].ring.length
    requires SenderSteps(acts, i + 1, j) >= 4 * |states[i].sender.msg| + 4
    ensures exists m {:trigger states[m]} ::
      && i < m <= j && states[m].sender.phase == Idle
      && states[m].accepted == states[i].accepted + [states[i].sender.msg]
  {
    hide Inv, InBounds, Initial, Contents, WellFormed, Apply;
    WaitingHasWork(states, acts, i);
    SenderWakes(states, acts, i);
    var k := FirstSenderStep(acts, i + 1, j);
    SenderEnters(states, acts, i + 1, k);
    SendFinishes(states, acts, k + 1, j);
    assert Sent(states, k + 1, j);
    var m {:trigger states[m]} :| k + 1 < m <= j && states[m].sender.phase == Idle
      && states[m].accepted == states[k + 1].accepted + [states[k + 1].sender.msg];
    assert states[m].accepted == states[i].accepted + [states[i].sender.msg];
  }

  lemma WaitingHasWork(states: seq<System>, acts: seq<Action>, m: nat)
    requires IsRun(states, acts) && m < |states|
    ensures states[m].sender.phase == Wait ==> states[m].sender.msg != []
    ensures states[m].receiver.phase == Wait ==> states[m].receiver.wanted > 0
  {
    RunInv(states, acts, m);
    hide IsRun, Contents, Contain, Capacity, Flatten, History, Unread, Received, Stored;
  }

  /** A receiver that waits, is woken while the bytes it wants are there, and takes its next steps, returns AII_OK with
      them. */
  lemma WokenReceiverReceives(states: seq<System>, acts: seq<Action>, i: nat, j: nat)
    requires IsRun(states, acts) && i < j <= |acts| && states[i].receiver.phase == Wait
    requires acts[i] == ReceiverStep(Signalled) || acts[i] == ReceiverStep(Other)
    requires WellFormed(states[i].ring) && states[i].receiver.wanted <= |Contents(states[i].ring)|
    requires ReceiverSteps(acts, i + 1, j) >= 4 * states[i].receiver.wanted + 4
    ensures exists m {:trigger states[m]} ::
      && i < m <= j && states[m].receiver.phase == Idle
      && |states[m].delivered| == |states[i].delivered| + 1 && states[i].delivered <= states[m].delivered
      && |states[m].delivered[|states[i].delivered|]| == states[i].receiver.wanted
  {
    hide Inv, InBounds, Initial, Contents, WellFormed, Apply;
    WaitingHasWork(states, acts, i);
    ReceiverWakes(states, acts, i);
    var k := FirstReceiverStep(acts, i + 1, j);
    ReceiverEnters(states, acts, i + 1, k);
    ReceiveFinishes(states, acts, k + 1, j);
    assert Delivered(states, k + 1, j);
    var m {:trigger states[m]} :| k + 1 < m <= j && DeliveredBy(states[k + 1], states[m]);
    assert |states[m].delivered| == |states[i].delivered| + 1;
  }
}
