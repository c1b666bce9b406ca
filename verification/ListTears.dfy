/** A run in which the bulk delete as written tears the ring: four nodes are inserted, a client reads the first, and
    list.c:1211 loses it as the predecessor of the other three. */
module ListTears {
  import opened Sequences
  import opened ListRules
  import opened ListProtocol
  import opened ListSafety
  import opened ListRuns

  const NOTHING := State([], map[], map[], map[], false)

  /** After `k` insertions at the head, of the nodes 10, 11 and so on. */
  function Inserted(k: nat): State {
    if k == 0 then NOTHING else InsertStep(Inserted(k - 1), 0, 9 + k)
  }

  lemma {:induction false} InsertedIs(k: nat)
    ensures var s := Inserted(k);
      && |s.ring| == k && s.holds == map[] && s.threads == map[] && !s.torn
      && (forall i :: 0 <= i < k ==> s.ring[i] == 9 + k - i)
      && (forall n :: n in s.nodes <==> 10 <= n < 10 + k)
      && (forall n :: n in s.nodes ==> s.nodes[n] == Counters(0, 0))
  {
    if k > 0 {
      InsertedIs(k - 1);
    }
  }

  lemma Inserts(k: nat)
    ensures IsStep(Inserted(k), InsertHead(10 + k), Inserted(k + 1))
  {
    InsertedIs(k);
    hide InsertStep;
  }

  /** GetNextNode from the list handle, without skipping, for reading; the handle is 7. */
  const READ := GetNext(true, 0, true, false, ReadTag, 7)

  /** The client reads the first of the four nodes, 13. */
  function FirstRead(): State {
    InsertedIs(4);
    Take(Inserted(4), Client(7), 13, ReadGrant)
  }

  lemma GetsFirst(s: State)
    requires s.ring != [] && (forall n :: n in s.ring ==> n in s.nodes) && s.nodes[s.ring[0]].write == 0
    ensures GetNextStep(s, AtHead, true, false, ReadTag, 7) == Take(s, Client(7), s.ring[0], ReadGrant)
  {
    var order := WalkOrder(s.ring, AtHead, true);
    assert order == s.ring;
    hide WalkOrder, Take;
    var flags := seq(|order|, i requires 0 <= i < |order| =>
      order[i] in s.nodes && IsFreeFor(s.nodes[order[i]], ReadTag));
    assert flags[0];
    assert FirstTrue(flags) == 0;
    hide FirstTrue;
  }

  lemma Reads()
    ensures IsStep(Inserted(4), READ, FirstRead())
  {
    hide Inserted, GetNextStep, Take;
    InsertedIs(4);
    GetsFirst(Inserted(4));
  }

  lemma HeldFlagAt(s: State, i: nat)
    requires i < |s.ring| && s.ring[i] in s.nodes
    ensures |HeldFlags(s)| == |s.ring| && HeldFlags(s)[i] == IsHeld(s.nodes[s.ring[i]])
  {
    hide IsHeld;
    assert s.ring[i] in HeldNodes(s) <==> IsHeld(s.nodes[s.ring[i]]);
    hide HeldNodes;
  }

  /** Only the first is held: the smallest pattern that loses a survivor. */
  lemma FirstIsHeld()
    ensures HeldFlags(FirstRead()) == [true, false, false, false]
    ensures FirstRead().ring == [13, 12, 11, 10] && !FirstRead().torn && FirstRead().threads == map[]
    ensures forall n :: n in FirstRead().ring ==> n in FirstRead().nodes
  {
    InsertedIs(4);
    hide Inserted;
    var s := FirstRead();
    assert s.ring[0] == 13 && s.ring[1] == 12 && s.ring[2] == 11 && s.ring[3] == 10;
    HeldFlagAt(s, 0);
    HeldFlagAt(s, 1);
    HeldFlagAt(s, 2);
    HeldFlagAt(s, 3);
    hide HeldFlags;
  }

  lemma Deletes()
    ensures IsStep(FirstRead(), DeleteNodes(false), DeleteNodesStep(FirstRead(), false))
    ensures Tears(FirstRead(), DeleteNodes(false)) && DeleteNodesStep(FirstRead(), false).torn
  {
    hide FirstRead, HeldFlags, LosesSurvivor, DeleteNodesStep;
    FirstIsHeld();
    SmallestLoss(false, []);
    TornAfter(FirstRead());
  }

  lemma TornAfter(s: State)
    requires Tears(s, DeleteNodes(false))
    ensures DeleteNodesStep(s, false).torn
  {
    hide LosesSurvivor, HeldFlags, HeldNodes, Keep;
  }

  /** The run: at its end the handle is good, but the only node left has a link to freed memory. */
  lemma BulkDeleteTears() returns (states: seq<State>, acts: seq<Action>)
    ensures IsRun(states, acts) && |acts| == 6 && acts[5] == DeleteNodes(false)
    ensures Tears(states[5], acts[5]) && states[6].torn && !NoSlip(states, acts)
  {
    hide IsStep, Tears, Inserted, FirstRead, DeleteNodesStep;
    Inserts(0);
    Inserts(1);
    Inserts(2);
    Inserts(3);
    Reads();
    Deletes();
    states := [Inserted(0), Inserted(1), Inserted(2), Inserted(3), Inserted(4), FirstRead(),
               DeleteNodesStep(FirstRead(), false)];
    acts := [InsertHead(10), InsertHead(11), InsertHead(12), InsertHead(13), READ, DeleteNodes(false)];
    assert Initial(Inserted(0)) by { StartsEmpty(); }
    assert Slips(states[5], acts[5]);
  }

  lemma StartsEmpty()
    ensures Initial(Inserted(0))
  {
  }
}
