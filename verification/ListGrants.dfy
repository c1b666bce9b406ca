/** Who is let in: in every state of every safe run a permission is refused only where somebody is in the way. */
module ListGrants {
  import opened Sequences
  import opened ListRules
  import opened ListProtocol
  import opened ListSafety
  import opened ListRuns
  import opened ListPins

  /** Somebody holds `n`, by a grant, a pin or a pin left behind, apart from `w`. */
  ghost predicate HeldBeside(s: State, n: NodeId, w: Holder) {
    exists v :: v in s.holds && v != w && s.holds[v].node == n
  }

  ghost predicate HeldBySomebody(s: State, n: NodeId) {
    exists v :: v in s.holds && s.holds[v].node == n
  }

  /** A client may write `n`, or a thread is between the two sections of a delete of `n`. */
  ghost predicate BeingWritten(s: State, n: NodeId) {
    ClientWriters(s, n) != {} || DeletingThreads(s, n) != {}
  }

  // ---------- the counters say who is there ----------

  lemma HeldIsHeld(s: State, n: NodeId)
    requires Core(s) && n in s.nodes
    ensures s.nodes[n].read > 0 || s.nodes[n].write > 0 <==> HeldBySomebody(s, n)
    ensures s.nodes[n].read >= 0 && s.nodes[n].write >= 0
  {
    assert s.nodes[n] == Counters(|ReadHolders(s.holds, n)|, |WriteHolders(s.holds, n)|);
    if !IsHeld(s.nodes[n]) {
      IdleHasNoHolder(s, n);
    } else if s.nodes[n].read > 0 {
      var v :| v in ReadHolders(s.holds, n);
    } else {
      var v :| v in WriteHolders(s.holds, n);
    }
  }

  lemma WrittenIsWritten(s: State, n: NodeId)
    requires Inv(s) && Kinds(s) && n in s.nodes
    ensures s.nodes[n].write > 0 <==> BeingWritten(s, n)
  {
    hide Inv, Kinds, ClientWriters, DeletingThreads;
    WriteParts(s, n);
  }

  /** Without the share of `w` the counters say who else is there. */
  lemma HeldApart(s: State, w: Holder, n: NodeId)
    requires Core(s) && n in s.nodes && w in s.holds && s.holds[w].node == n
    ensures var c := Drop(s, w, n, s.holds[w].kind).nodes[n];
      && (c.read > 0 || c.write > 0 <==> HeldBeside(s, n, w)) && c.read >= 0 && c.write >= 0
  {
    hide RingAllocated, HoldsLinked, Exclusive, Conserved;
    DropCore(s, w);
    var s1 := Drop(s, w, n, s.holds[w].kind);
    HeldIsHeld(s1, n);
    if HeldBeside(s, n, w) {
      var v :| v in s.holds && v != w && s.holds[v].node == n;
      assert v in s1.holds && s1.holds[v].node == n;
    }
    if v :| v in s1.holds && s1.holds[v].node == n {
      assert v in s.holds && v != w && s.holds[v].node == n;
    }
  }

  lemma RunFacts(states: seq<State>, acts: seq<Action>, m: nat)
    requires IsRun(states, acts) && NoSlip(states, acts) && m < |acts|
    ensures Inv(states[m]) && Kinds(states[m]) && IsStep(states[m], acts[m], states[m + 1])
  {
    hide Inv, Kinds, IsStep;
    RunSafe(states, acts);
    RunKinds(states, acts, m);
  }

  // ---------- searches ----------

  /** What a thread that has found its node, and holds it by its pin only, is given. */
  ghost predicate Given(s: State, e: State, t: ThreadId, n: NodeId, tag: Tag, h: HandleId) {
    && (tag == ReadTag ==>
          e.holds == if BeingWritten(s, n) then s.holds - {Thread(t)}
                     else (s.holds - {Thread(t)})[Client(h) := Hold(n, ReadGrant)])
    && (tag == WriteTag ==>
          e.holds == if HeldBeside(s, n, Thread(t)) then s.holds - {Thread(t)}
                     else (s.holds - {Thread(t)})[Client(h) := Hold(n, WriteGrant)])
    && (tag == OtherTag ==> e.holds == s.holds - {Thread(t)})
  }

  lemma GivesByCounters(s: State, t: ThreadId, n: NodeId, tag: Tag, h: HandleId)
    requires Inv(s) && Kinds(s) && n in s.nodes && Thread(t) in s.holds && s.holds[Thread(t)] == Hold(n, Pin)
    ensures Given(s, Goto(TryGrant(Drop(s, Thread(t), n, Pin), Client(h), n, tag), t, Idle), t, n, tag, h)
  {
    hide Kinds, Core, ThreadsAccounted, MemoryOwned, BeingWritten, HeldBeside;
    WrittenIsWritten(s, n);
    HeldApart(s, Thread(t), n);
    assert Drop(s, Thread(t), n, Pin).nodes[n] == Counters(s.nodes[n].read - 1, s.nodes[n].write);
  }

  /** A search that hits is refused reading if and only if a client or a deleting thread writes the node, and writing if
      and only if anybody but its own pin holds it. A delete goes on to its second section under the same condition. */
  lemma SearchIsGiven(states: seq<State>, acts: seq<Action>, m: nat)
    requires IsRun(states, acts) && NoSlip(states, acts) && m < |acts| && acts[m].SearchHit?
    ensures var s, e, t, h := states[m], states[m + 1], acts[m].t, acts[m].h;
      && t in s.threads && s.threads[t].Searching? && t in e.threads
      && var pc := s.threads[t];
         && (!pc.deleting ==> Given(s, e, t, pc.cursor, pc.tag, h) && e.threads[t] == Idle)
         && (pc.deleting ==>
               e.threads[t] == if HeldBeside(s, pc.cursor, Thread(t)) then Idle else Deleting(pc.cursor))
  {
    RunFacts(states, acts, m);
    var s, t, h := states[m], acts[m].t, acts[m].h;
    hide IsRun, NoSlip, Given, Kinds, Core, MemoryOwned, HeldBeside;
    assert Accounted(s.holds, t, s.threads[t]);
    var n := s.threads[t].cursor;
    if s.threads[t].deleting {
      HeldApart(s, Thread(t), n);
      assert Drop(s, Thread(t), n, Pin).nodes[n] == Counters(s.nodes[n].read - 1, s.nodes[n].write);
    } else {
      GivesByCounters(s, t, n, s.threads[t].tag, h);
    }
  }

  /** FindNodeNum asks on the same terms. */
  lemma IndexIsGiven(states: seq<State>, acts: seq<Action>, m: nat)
    requires IsRun(states, acts) && NoSlip(states, acts) && m < |acts| && acts[m].IndexGrant?
    ensures var s, e, t, h := states[m], states[m + 1], acts[m].t, acts[m].h;
      && t in s.threads && s.threads[t].Resolved?
      && Given(s, e, t, s.threads[t].cursor, s.threads[t].tag, h)
  {
    RunFacts(states, acts, m);
    var s, t, h := states[m], acts[m].t, acts[m].h;
    hide IsRun, NoSlip, Given, Kinds, Core, MemoryOwned;
    assert Accounted(s.holds, t, s.threads[t]);
    GivesByCounters(s, t, s.threads[t].cursor, s.threads[t].tag, h);
  }

  // ---------- GetPermisssion ----------

  /** Through a handle that it holds, a client is given another read permission if and only if nobody writes the node,
      itself included; the write permission it is always refused, for it holds the node itself. */
  lemma PermissionIsGiven(states: seq<State>, acts: seq<Action>, m: nat)
    requires IsRun(states, acts) && NoSlip(states, acts) && m < |acts| && acts[m].GetPermission?
    ensures var s, e, h := states[m], states[m + 1], acts[m].h;
      && Client(acts[m].at) in s.holds
      && var n := s.holds[Client(acts[m].at)].node;
         e.holds == if acts[m].tag == ReadTag && !BeingWritten(s, n) then s.holds[Client(h) := Hold(n, ReadGrant)]
                    else s.holds
  {
    RunFacts(states, acts, m);
    var s, a := states[m], acts[m];
    hide IsRun, NoSlip, Kinds, MemoryOwned, ThreadsAccounted, BeingWritten, Core;
    var n := s.holds[Client(a.at)].node;
    HolderCounts(s, Client(a.at));
    WrittenIsWritten(s, n);
    HeldIsHeld(s, n);
  }

  // ---------- GetNextNode and GetPreviousNode ----------

  /** Nobody is in the way of a permission on `n`. */
  ghost predicate Clear(s: State, n: NodeId, tag: Tag) {
    match tag
    case ReadTag => !BeingWritten(s, n)
    case WriteTag => !HeldBySomebody(s, n)
    case OtherTag => false
  }

  lemma FreeIsClear(s: State, n: NodeId, tag: Tag)
    requires Inv(s) && Kinds(s) && n in s.nodes
    ensures IsFreeFor(s.nodes[n], tag) <==> Clear(s, n, tag)
  {
    hide Kinds, Core, MemoryOwned, ThreadsAccounted, BeingWritten, HeldBySomebody;
    WrittenIsWritten(s, n);
    HeldIsHeld(s, n);
  }

  ghost function ClearFlags(s: State, order: seq<NodeId>, tag: Tag): seq<bool> {
    seq(|order|, i requires 0 <= i < |order| => Clear(s, order[i], tag))
  }

  lemma FlagsAreClear(s: State, order: seq<NodeId>, tag: Tag)
    requires Inv(s) && Kinds(s) && forall n :: n in order ==> n in s.nodes
    ensures seq(|order|, i requires 0 <= i < |order| => order[i] in s.nodes && IsFreeFor(s.nodes[order[i]], tag))
         == ClearFlags(s, order, tag)
  {
    hide Inv, Kinds, Clear, IsFreeFor;
    forall i | 0 <= i < |order|
      ensures order[i] in s.nodes && (IsFreeFor(s.nodes[order[i]], tag) <==> Clear(s, order[i], tag))
    {
      assert order[i] in order;
      FreeIsClear(s, order[i], tag);
    }
  }

  /** Position `k` is the first of the walk at which nobody is in the way. */
  ghost predicate FirstClear(s: State, order: seq<NodeId>, k: nat, tag: Tag) {
    && k < |order| && Clear(s, order[k], tag)
    && forall j :: 0 <= j < k ==> !Clear(s, order[j], tag)
  }

  lemma FirstTrueIsFirst(s: State, order: seq<NodeId>, tag: Tag, k: nat)
    ensures FirstClear(s, order, k, tag) <==> k < |order| && FirstTrue(ClearFlags(s, order, tag)) == k
  {
    hide Clear;
    var flags := ClearFlags(s, order, tag);
    assert |flags| == |order| && forall j :: 0 <= j < |order| ==> flags[j] == Clear(s, order[j], tag);
    hide ClearFlags;
    assert FirstTrue(flags) < |flags| ==> flags[FirstTrue(flags)];
    assert forall j :: 0 <= j < FirstTrue(flags) ==> !flags[j];
    hide FirstTrue;
  }

  lemma WalkGives(s: State, from: Start, forward: bool, skip: bool, tag: Tag, h: HandleId)
    requires Inv(s) && Kinds(s) && (from.AtNode? ==> from.i < |s.ring|) && (forall n :: n in s.ring ==> n in s.nodes)
    ensures var order := WalkOrder(s.ring, from, forward);
      var k := FirstTrue(ClearFlags(s, order, tag));
      GetNextStep(s, from, forward, skip, tag, h).holds ==
        if k < |order| && (skip || k == 0) then s.holds[Client(h) := Hold(order[k], GrantKind(tag))] else s.holds
  {
    hide Inv, Kinds, ClearFlags, WalkOrder, FirstTrue, IsFreeFor;
    WalkOrderStaysInRing(s.ring, from, forward);
    FlagsAreClear(s, WalkOrder(s.ring, from, forward), tag);
  }

  /** A walk grants the first of its nodes at which nobody is in the way; without skipping, only its first node. */
  ghost predicate WalkGiven(s: State, e: State, from: Start, forward: bool, skip: bool, tag: Tag, h: HandleId)
    requires from.AtNode? ==> from.i < |s.ring|
  {
    var order := WalkOrder(s.ring, from, forward);
    && (forall k: nat :: FirstClear(s, order, k, tag) && (skip || k == 0) ==>
          e.holds == s.holds[Client(h) := Hold(order[k], if tag == WriteTag then WriteGrant else ReadGrant)])
    && ((forall k :: 0 <= k < |order| && (skip || k == 0) ==> !Clear(s, order[k], tag)) ==> e.holds == s.holds)
  }

  lemma NoneClear(s: State, order: seq<NodeId>, tag: Tag, skip: bool)
    requires forall j :: 0 <= j < |order| && (skip || j == 0) ==> !Clear(s, order[j], tag)
    ensures var k := FirstTrue(ClearFlags(s, order, tag)); !(k < |order| && (skip || k == 0))
  {
    var flags := ClearFlags(s, order, tag);
    assert |flags| == |order| && forall j :: 0 <= j < |order| ==> flags[j] == Clear(s, order[j], tag);
    hide Clear, ClearFlags, FirstTrue;
    var k := FirstTrue(flags);
    assert k < |order| ==> flags[k];
  }

  lemma WalkIs(s: State, from: Start, forward: bool, skip: bool, tag: Tag, h: HandleId)
    requires Inv(s) && Kinds(s) && (from.AtNode? ==> from.i < |s.ring|) && (forall n :: n in s.ring ==> n in s.nodes)
    ensures WalkGiven(s, GetNextStep(s, from, forward, skip, tag, h), from, forward, skip, tag, h)
  {
    hide Inv, Kinds, FirstClear, Clear, ClearFlags, GetNextStep, WalkOrder, FirstTrue;
    var order := WalkOrder(s.ring, from, forward);
    WalkGives(s, from, forward, skip, tag, h);
    forall k: nat | FirstClear(s, order, k, tag)
      ensures k < |order| && FirstTrue(ClearFlags(s, order, tag)) == k
    {
      FirstTrueIsFirst(s, order, tag, k);
    }
    if forall j :: 0 <= j < |order| && (skip || j == 0) ==> !Clear(s, order[j], tag) {
      NoneClear(s, order, tag, skip);
    }
  }

  /** So does every walk of every safe run. */
  lemma WalkIsGiven(states: seq<State>, acts: seq<Action>, m: nat)
    requires IsRun(states, acts) && NoSlip(states, acts) && m < |acts| && acts[m].GetNext?
    ensures var s, e, a := states[m], states[m + 1], acts[m];
      && (a.fromHead || (Client(a.at) in s.holds && s.holds[Client(a.at)].node in s.ring))
      && var from := if a.fromHead then AtHead else AtNode(IndexOf(s.ring, s.holds[Client(a.at)].node));
         WalkGiven(s, e, from, a.forward, a.skip, a.tag, a.h)
  {
    RunFacts(states, acts, m);
    var s, a := states[m], acts[m];
    hide IsRun, NoSlip, Inv, Kinds, WalkGiven, GetNextStep;
    var from := if a.fromHead then AtHead else AtNode(IndexOf(s.ring, s.holds[Client(a.at)].node));
    WalkIs(s, from, a.forward, a.skip, a.tag, a.h);
  }
}
