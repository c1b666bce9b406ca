/** What ReadPermission is made of, over all runs: granted readers, temporary pins, and the pins that FindNodeNum
    leaves behind at list.c:652. */
module ListPins {
  import opened Sequences
  import opened ListRules
  import opened ListProtocol
  import opened ListSafety
  import opened ListRuns

  // ---------- when a pin is lost ----------

  /** The unlocked test at list.c:652 finds the cursor at the head although the loop ended with a pin on it: for index
      0, and for any other index whose node has become the head since. The call fails and keeps the pin. */
  predicate Leaks(s: State, a: Action) {
    && a.IndexCheck? && a.t in s.threads && s.threads[a.t].Counting?
    && AtHeadOf(s, s.threads[a.t].cursor)
  }

  ghost predicate NoneLost(s: State) {
    forall w :: w in s.holds ==> !w.Lost?
  }

  /** The lost pins of `s` are lost in `s'`, on the same nodes, and no others are. What clients newly hold is
      a grant. */
  ghost predicate SameLost(s: State, s': State) {
    && (forall h :: (Lost(h) in s'.holds <==> Lost(h) in s.holds)
          && (Lost(h) in s.holds ==> s'.holds[Lost(h)] == s.holds[Lost(h)]))
    && (forall h :: Client(h) in s'.holds ==>
          (Client(h) in s.holds && s'.holds[Client(h)] == s.holds[Client(h)]) || s'.holds[Client(h)].kind != Pin)
  }

  lemma SearchLosesNone(s: State, a: Action)
    requires Grounded(s) && Enabled(s, a) && (a.StartSearch? || a.SearchMiss? || a.SearchHit?)
    ensures SameLost(s, Apply(s, a))
  {
    hide Successor, CanGrant, Grounded;
  }

  lemma IndexLosesNone(s: State, a: Action)
    requires Grounded(s) && Enabled(s, a) && (a.StartIndex? || a.IndexAdvance? || a.IndexCheck? || a.IndexGrant?)
    requires !Leaks(s, a)
    ensures SameLost(s, Apply(s, a))
  {
    hide Successor, CanGrant, Grounded;
  }

  lemma OthersLoseNone(s: State, a: Action)
    requires Grounded(s) && Enabled(s, a)
    requires !a.StartSearch? && !a.SearchMiss? && !a.SearchHit?
    requires !a.StartIndex? && !a.IndexAdvance? && !a.IndexCheck? && !a.IndexGrant?
    ensures SameLost(s, Apply(s, a))
  {
    hide WalkOrder, FirstTrue, CanGrant, IsFreeFor, InsertAt, RemoveAt, Keep, HeldNodes, HeldFlags, IsHeld;
    hide LosesSurvivor, Grounded;
  }

  lemma StepGrants(s: State, a: Action)
    requires Grounded(s) && Enabled(s, a) && !Leaks(s, a)
    ensures SameLost(s, Apply(s, a))
  {
    hide Grounded, Enabled, Apply, Leaks, SameLost;
    if a.StartSearch? || a.SearchMiss? || a.SearchHit? {
      SearchLosesNone(s, a);
    } else if a.StartIndex? || a.IndexAdvance? || a.IndexCheck? || a.IndexGrant? {
      IndexLosesNone(s, a);
    } else {
      OthersLoseNone(s, a);
    }
  }

  /** No action but a leaking one loses a pin, and a lost pin stays lost. */
  lemma LostPins(s: State, a: Action, h: HandleId)
    requires Grounded(s) && Enabled(s, a)
    ensures Lost(h) in Apply(s, a).holds <==> Lost(h) in s.holds || (Leaks(s, a) && a.IndexCheck? && a.h == h)
    ensures Lost(h) in s.holds ==> Apply(s, a).holds[Lost(h)] == s.holds[Lost(h)]
  {
    hide Grounded;
    if !Leaks(s, a) {
      hide Enabled, Apply, Leaks;
      StepGrants(s, a);
    }
  }

  lemma StepLoses(s: State, a: Action)
    requires Grounded(s) && Enabled(s, a)
    ensures NoneLost(Apply(s, a)) <==> NoneLost(s) && !Leaks(s, a)
  {
    hide Grounded, Enabled, Apply, Leaks;
    forall h
      ensures Lost(h) in Apply(s, a).holds <==> Lost(h) in s.holds || (Leaks(s, a) && a.IndexCheck? && a.h == h)
    {
      LostPins(s, a, h);
    }
    if Leaks(s, a) {
      LeakHasHandle(s, a);
      assert Lost(a.h) in Apply(s, a).holds;
    }
    assert forall w: Holder :: w.Lost? ==> w == Lost(w.h);
  }

  lemma LeakHasHandle(s: State, a: Action)
    requires Leaks(s, a)
    ensures a.IndexCheck?
  {
  }

  /** In every run, under every interleaving, no pin is lost if and only if no call of FindNodeNum leaks one. */
  lemma {:induction false} RunLoses(states: seq<State>, acts: seq<Action>, m: nat)
    requires IsRun(states, acts) && m < |states|
    ensures NoneLost(states[m]) <==> forall i :: 0 <= i < m ==> !Leaks(states[i], acts[i])
  {
    hide NoneLost, Leaks, Grounded, Enabled, Apply;
    if m == 0 {
      NoneAtFirst(states[0]);
    } else {
      RunLoses(states, acts, m - 1);
      assert IsStep(states[m - 1], acts[m - 1], states[m]);
      StepLoses(states[m - 1], acts[m - 1]);
    }
  }

  lemma NoneAtFirst(s: State)
    requires Initial(s)
    ensures NoneLost(s)
  {
  }

  // ---------- the parts of ReadPermission ----------

  ghost function ClientReaders(s: State, n: NodeId): set<Holder> {
    set w | w in s.holds && w.Client? && s.holds[w] == Hold(n, ReadGrant)
  }

  /** The threads that are inside a search or FindNodeNum, with their temporary pin on `n`. */
  function PinnedThreads(s: State, n: NodeId): set<ThreadId> {
    set t | t in s.threads && Pinned(s.threads[t]) && s.threads[t].cursor == n
  }

  ghost function LostOn(s: State, n: NodeId): set<Holder> {
    set w | w in s.holds && w.Lost? && s.holds[w].node == n
  }

  /** Clients hold grants, lost pins are pins. */
  ghost predicate Kinds(s: State) {
    forall w :: w in s.holds ==> (w.Client? ==> s.holds[w].kind != Pin) && (w.Lost? ==> s.holds[w].kind == Pin)
  }

  lemma LeakKinds(s: State, a: Action)
    requires Inv(s) && Kinds(s) && Enabled(s, a) && Grounded(s) && Leaks(s, a)
    ensures Kinds(Apply(s, a))
  {
    hide Grounded, MemoryOwned, Core;
    assert Accounted(s.holds, a.t, s.threads[a.t]);
  }

  lemma StepKinds(s: State, a: Action)
    requires Inv(s) && Kinds(s) && Enabled(s, a) && Grounded(s)
    ensures Kinds(Apply(s, a))
  {
    hide Inv, Grounded, Enabled, Apply, Leaks;
    if Leaks(s, a) {
      LeakKinds(s, a);
    } else {
      StepGrants(s, a);
      forall w | w in Apply(s, a).holds
        ensures w.Client? ==> Apply(s, a).holds[w].kind != Pin
        ensures w.Lost? ==> Apply(s, a).holds[w].kind == Pin
      {
        if w.Client? { assert w == Client(w.h); }
        if w.Lost? { assert w == Lost(w.h); }
      }
    }
  }

  lemma {:induction false} RunKinds(states: seq<State>, acts: seq<Action>, m: nat)
    requires IsRun(states, acts) && NoSlip(states, acts) && m < |states|
    ensures Kinds(states[m])
  {
    hide Grounded, Enabled, Apply, Slips, Inv, Kinds;
    if m == 0 {
      KindsAtFirst(states[0]);
    } else {
      RunKinds(states, acts, m - 1);
      RunSafe(states, acts);
      assert Inv(states[m - 1]);
      assert IsStep(states[m - 1], acts[m - 1], states[m]);
      StepKinds(states[m - 1], acts[m - 1]);
    }
  }

  lemma KindsAtFirst(s: State)
    requires Initial(s)
    ensures Kinds(s)
  {
  }

  ghost function AsHolders(ts: set<ThreadId>): set<Holder> {
    set t | t in ts :: Thread(t)
  }

  lemma {:induction false} AsManyHolders(ts: set<ThreadId>)
    ensures |AsHolders(ts)| == |ts|
  {
    if ts != {} {
      var t :| t in ts;
      AsManyHolders(ts - {t});
      assert AsHolders(ts) == AsHolders(ts - {t}) + {Thread(t)};
    }
  }

  lemma ReadHolderParts(s: State, n: NodeId)
    requires ThreadsAccounted(s.threads, s.holds) && Kinds(s)
    ensures ReadHolders(s.holds, n) == ClientReaders(s, n) + AsHolders(PinnedThreads(s, n)) + LostOn(s, n)
  {
    forall w | w in ReadHolders(s.holds, n) && w.Thread?
      ensures w.t in PinnedThreads(s, n)
    {
      var t := w.t;
      assert if t in s.threads then Accounted(s.holds, t, s.threads[t]) else Thread(t) !in s.holds;
    }
    forall t | t in PinnedThreads(s, n)
      ensures Thread(t) in ReadHolders(s.holds, n)
    {
      assert Accounted(s.holds, t, s.threads[t]);
    }
  }

  /** ReadPermission is the number of granted readers, of pinned threads, and of lost pins. */
  lemma ReadParts(s: State, n: NodeId)
    requires Inv(s) && Kinds(s) && n in s.nodes
    ensures s.nodes[n].read == |ClientReaders(s, n)| + |PinnedThreads(s, n)| + |LostOn(s, n)|
  {
    ReadHolderParts(s, n);
    AsManyHolders(PinnedThreads(s, n));
    assert s.nodes[n] == Counters(|ReadHolders(s.holds, n)|, |WriteHolders(s.holds, n)|);
    hide ReadHolders, WriteHolders, PinnedThreads, Inv, Kinds;
    ThreeParts(ClientReaders(s, n), AsHolders(PinnedThreads(s, n)), LostOn(s, n));
  }

  lemma ThreeParts(a: set<Holder>, b: set<Holder>, c: set<Holder>)
    requires a !! b !! c
    ensures |a + b + c| == |a| + |b| + |c|
  {
  }

  ghost predicate ReadsBalance(s: State) {
    forall n :: n in s.nodes ==> s.nodes[n].read == |ClientReaders(s, n)| + |PinnedThreads(s, n)|
  }

  lemma BalanceIsNoneLost(s: State)
    requires Inv(s) && Kinds(s)
    ensures ReadsBalance(s) <==> NoneLost(s)
  {
    hide Kinds, ThreadsAccounted, MemoryOwned, Exclusive, Conserved, ClientReaders, PinnedThreads;
    forall n | n in s.nodes
      ensures s.nodes[n].read == |ClientReaders(s, n)| + |PinnedThreads(s, n)| + |LostOn(s, n)|
    {
      ReadParts(s, n);
    }
    if w :| w in s.holds && w.Lost? {
      var n := s.holds[w].node;
      assert n in s.nodes && w in LostOn(s, n);
    } else {
      assert forall n :: LostOn(s, n) == {};
    }
  }

  /** Conservation: in a state of a run ReadPermission of every node is the number of its granted readers and pinned
      threads, if and only if no call of FindNodeNum has leaked a pin so far. */
  lemma ReadsBalanceUnlessLeaked(states: seq<State>, acts: seq<Action>, m: nat)
    requires IsRun(states, acts) && NoSlip(states, acts) && m < |states|
    ensures ReadsBalance(states[m]) <==> forall i :: 0 <= i < m ==> !Leaks(states[i], acts[i])
  {
    RunSafe(states, acts);
    RunKinds(states, acts, m);
    RunLoses(states, acts, m);
    hide IsRun, Inv, Kinds, NoneLost, ReadsBalance, Leaks, NoSlip;
    BalanceIsNoneLost(states[m]);
  }

  // ---------- the parts of WritePermission ----------

  ghost function ClientWriters(s: State, n: NodeId): set<Holder> {
    set w | w in s.holds && w.Client? && s.holds[w] == Hold(n, WriteGrant)
  }

  /** The threads between the two sections of a delete of `n`. */
  function DeletingThreads(s: State, n: NodeId): set<ThreadId> {
    set t | t in s.threads && s.threads[t] == Deleting(n)
  }

  lemma WriteHolderParts(s: State, n: NodeId)
    requires ThreadsAccounted(s.threads, s.holds) && Kinds(s)
    ensures WriteHolders(s.holds, n) == ClientWriters(s, n) + AsHolders(DeletingThreads(s, n))
  {
    forall w | w in WriteHolders(s.holds, n) && w.Thread?
      ensures w.t in DeletingThreads(s, n)
    {
      var t := w.t;
      assert if t in s.threads then Accounted(s.holds, t, s.threads[t]) else Thread(t) !in s.holds;
    }
    forall t | t in DeletingThreads(s, n)
      ensures Thread(t) in WriteHolders(s.holds, n)
    {
      assert Accounted(s.holds, t, s.threads[t]);
    }
  }

  lemma AtMostOneWriter(holds: map<Holder, Hold>, n: NodeId)
    requires Exclusive(holds)
    ensures |WriteHolders(holds, n)| <= 1
  {
    var ws := WriteHolders(holds, n);
    if ws != {} {
      var w :| w in ws;
      assert ws == {w};
    }
  }

  /** WritePermission is the number of granted writers and of deleting threads, and there is at most one of either. */
  lemma WriteParts(s: State, n: NodeId)
    requires Inv(s) && Kinds(s) && n in s.nodes
    ensures s.nodes[n].write == |ClientWriters(s, n)| + |DeletingThreads(s, n)|
    ensures 0 <= s.nodes[n].write <= 1
  {
    WriteHolderParts(s, n);
    AsManyHolders(DeletingThreads(s, n));
    AtMostOneWriter(s.holds, n);
    assert s.nodes[n] == Counters(|ReadHolders(s.holds, n)|, |WriteHolders(s.holds, n)|);
    hide ReadHolders, WriteHolders, DeletingThreads, Inv, Kinds;
    ThreeParts(ClientWriters(s, n), AsHolders(DeletingThreads(s, n)), {});
  }

  /** Conservation of the other counter, in every state of every safe run, leaks or not. */
  lemma WritesBalance(states: seq<State>, acts: seq<Action>, m: nat, n: NodeId)
    requires IsRun(states, acts) && NoSlip(states, acts) && m < |states| && n in states[m].nodes
    ensures var s := states[m];
      s.nodes[n].write == |ClientWriters(s, n)| + |DeletingThreads(s, n)| && 0 <= s.nodes[n].write <= 1
  {
    RunSafe(states, acts);
    RunKinds(states, acts, m);
    assert Inv(states[m]);
    hide IsRun, NoSlip, Inv, Kinds;
    WriteParts(states[m], n);
  }

  // ---------- what a lost pin does ----------

  ghost predicate LostAt(s: State, h: HandleId, n: NodeId) {
    Lost(h) in s.holds && s.holds[Lost(h)] == Hold(n, Pin)
  }

  /** A lost pin on `n` is read permission that nobody gives back: the counter is up, whoever else comes and goes. */
  lemma LostIsCounted(s: State, h: HandleId, n: NodeId)
    requires Core(s) && LostAt(s, h, n)
    ensures n in s.ring && n in s.nodes && s.nodes[n].read > 0
  {
    assert s.nodes[n] == Counters(|ReadHolders(s.holds, n)|, |WriteHolders(s.holds, n)|);
    assert Lost(h) in ReadHolders(s.holds, n);
  }

  /** Whoever writes `n` in `s'` has been writing it in `s`. */
  ghost predicate NoNewWriter(holds: map<Holder, Hold>, holds': map<Holder, Hold>, n: NodeId) {
    forall w :: w in holds' && holds'[w] == Hold(n, WriteGrant) ==> w in holds && holds[w] == Hold(n, WriteGrant)
  }

  lemma DeniedToWriters(s: State, w: Holder, m: NodeId, tag: Tag, h: HandleId, n: NodeId)
    requires Core(s) && LostAt(s, h, n) && m in s.nodes
    ensures NoNewWriter(s.holds, TryGrant(s, w, m, tag).holds, n)
  {
    LostIsCounted(s, h, n);
    hide Core;
  }

  lemma SearchAdmitsNoWriter(s: State, t: ThreadId, g: HandleId, h: HandleId, n: NodeId)
    requires t in s.threads && s.threads[t].Searching? && s.threads[t].cursor in s.nodes
    requires Core(s) && LostAt(s, h, n) && Accounted(s.holds, t, s.threads[t])
    ensures NoNewWriter(s.holds, SearchHitStep(s, t, g).holds, n)
  {
    hide RingAllocated, HoldsLinked, Exclusive, Conserved;
    var pc := s.threads[t];
    DropCore(s, Thread(t));
    var s1 := Drop(s, Thread(t), pc.cursor, Pin);
    if pc.deleting {
      DeniedToWriters(s1, Thread(t), pc.cursor, WriteTag, h, n);
    } else {
      DeniedToWriters(s1, Client(g), pc.cursor, pc.tag, h, n);
    }
  }

  lemma IndexAdmitsNoWriter(s: State, t: ThreadId, g: HandleId, h: HandleId, n: NodeId)
    requires t in s.threads && s.threads[t].Resolved? && s.threads[t].cursor in s.nodes
    requires Core(s) && LostAt(s, h, n) && Accounted(s.holds, t, s.threads[t])
    ensures NoNewWriter(s.holds, IndexGrantStep(s, t, g).holds, n)
  {
    hide RingAllocated, HoldsLinked, Exclusive, Conserved;
    var pc := s.threads[t];
    DropCore(s, Thread(t));
    DeniedToWriters(Drop(s, Thread(t), pc.cursor, Pin), Client(g), pc.cursor, pc.tag, h, n);
  }

  lemma WalkAdmitsNoWriter(s: State, from: Start, forward: bool, skip: bool, tag: Tag, g: HandleId, h: HandleId,
                           n: NodeId)
    requires Grounded(s) && Core(s) && LostAt(s, h, n) && (from.AtNode? ==> from.i < |s.ring|)
    ensures NoNewWriter(s.holds, GetNextStep(s, from, forward, skip, tag, g).holds, n)
  {
    LostIsCounted(s, h, n);
    hide Core, WalkOrder;
  }

  /** The actions that give nobody a write permission. */
  predicate GrantsNothing(a: Action) {
    !a.SearchHit? && !a.IndexGrant? && !a.GetPermission? && !a.GetNext?
  }

  lemma ClientsAdmitNoWriter(s: State, a: Action, n: NodeId)
    requires Grounded(s) && Enabled(s, a) && GrantsNothing(a) && !OfThread(a)
    ensures NoNewWriter(s.holds, Apply(s, a).holds, n)
  {
    hide InsertAt, Keep, HeldNodes, HeldFlags, LosesSurvivor, Grounded, IndexOf;
  }

  lemma OthersAdmitNoWriter(s: State, a: Action, n: NodeId)
    requires Grounded(s) && Enabled(s, a) && GrantsNothing(a)
    ensures NoNewWriter(s.holds, Apply(s, a).holds, n)
  {
    hide Grounded;
    if OfThread(a) {
      hide Successor, RemoveAt, IsHeld, IndexOf;
    } else {
      hide Enabled, Apply, NoNewWriter;
      ClientsAdmitNoWriter(s, a, n);
    }
  }

  lemma StepAdmitsNoWriter(s: State, a: Action, h: HandleId, n: NodeId)
    requires Inv(s) && Grounded(s) && Enabled(s, a) && LostAt(s, h, n)
    ensures NoNewWriter(s.holds, Apply(s, a).holds, n)
  {
    hide Core, MemoryOwned, NoNewWriter, LostAt;
    match a {
      case SearchHit(t, g) =>
        assert Accounted(s.holds, t, s.threads[t]);
        SearchAdmitsNoWriter(s, t, g, h, n);
      case IndexGrant(t, g) =>
        assert Accounted(s.holds, t, s.threads[t]);
        IndexAdmitsNoWriter(s, t, g, h, n);
      case GetPermission(at, tag, g) => DeniedToWriters(s, Client(g), s.holds[Client(at)].node, tag, h, n);
      case GetNext(fromHead, at, forward, skip, tag, g) =>
        var from := if fromHead then AtHead else AtNode(IndexOf(s.ring, s.holds[Client(at)].node));
        WalkAdmitsNoWriter(s, from, forward, skip, tag, g, h, n);
      case _ => OthersAdmitNoWriter(s, a, n);
    }
  }

  /** For ever: from the leak on, in every continuation of the run, the node stays linked and allocated with its read
      counter up, and nobody is granted the write permission on it who did not have it. */
  lemma {:induction false} LostForEver(states: seq<State>, acts: seq<Action>, i: nat, j: nat, h: HandleId, n: NodeId)
    requires IsRun(states, acts) && NoSlip(states, acts) && i <= j < |states| && LostAt(states[i], h, n)
    ensures LostAt(states[j], h, n) && NoNewWriter(states[i].holds, states[j].holds, n)
    ensures n in states[j].ring && n in states[j].nodes && states[j].nodes[n].read > 0
    decreases j
  {
    hide Grounded, Enabled, Apply, Slips, Core, MemoryOwned, ThreadsAccounted;
    RunSafe(states, acts);
    assert Inv(states[j]);
    if i < j {
      LostForEver(states, acts, i, j - 1, h, n);
      var s, a := states[j - 1], acts[j - 1];
      assert Inv(s) && IsStep(s, a, states[j]);
      LostPins(s, a, h);
      StepAdmitsNoWriter(s, a, h, n);
    }
    LostIsCounted(states[j], h, n);
  }

  // ---------- a leak that index 0 has no part in ----------

  /** A thread asks for index 1 of a two-node list and stands on that node, pinned; the bulk delete takes the node
      before it; the call fails as if the list had been wrapped, and the node keeps a read count of 1 for nobody. */
  function LeakStage(k: nat): State {
    var zero, one := Counters(0, 0), Counters(1, 0);
    match k
    case 0 => State([], map[], map[], map[1 := Idle], false)
    case 1 => State([10], map[10 := zero], map[], map[1 := Idle], false)
    case 2 => State([11, 10], map[10 := zero, 11 := zero], map[], map[1 := Idle], false)
    case 3 => State([11, 10], map[10 := zero, 11 := one], map[Thread(1) := Hold(11, Pin)],
                    map[1 := Counting(11, 1, ReadTag)], false)
    case 4 => State([11, 10], map[10 := one, 11 := zero], map[Thread(1) := Hold(10, Pin)],
                    map[1 := Counting(10, 0, ReadTag)], false)
    case 5 => State([10], map[10 := one], map[Thread(1) := Hold(10, Pin)], map[1 := Counting(10, 0, ReadTag)], false)
    case _ => State([10], map[10 := one], map[Lost(7) := Hold(10, Pin)], map[1 := Idle], false)
  }

  lemma LeakInserts()
    ensures IsStep(LeakStage(0), InsertHead(10), LeakStage(1))
    ensures IsStep(LeakStage(1), InsertHead(11), LeakStage(2))
  {
  }

  lemma LeakPins()
    ensures IsStep(LeakStage(2), StartIndex(1, 1, ReadTag), LeakStage(3))
  {
  }

  lemma LeakUnpins()
    ensures Drop(LeakStage(3), Thread(1), 11, Pin) == LeakStage(2).(threads := LeakStage(3).threads)
  {
    var zero := Counters(0, 0);
    var nodes := LeakStage(3).nodes;
    assert Bump(nodes[11], Pin, -1) == zero;
    assert nodes[11 := zero] == map[10 := zero, 11 := zero];
  }

  lemma LeakRepins()
    ensures Goto(Take(LeakStage(2), Thread(1), 10, Pin), 1, Counting(10, 0, ReadTag)) == LeakStage(4)
  {
    var nodes := LeakStage(2).nodes;
    assert Bump(nodes[10], Pin, 1) == Counters(1, 0);
    assert nodes[10 := Counters(1, 0)] == LeakStage(4).nodes;
  }

  lemma LeakSuccessor()
    ensures Successor([11, 10], 11) == 10
  {
    var r: seq<NodeId> := [11, 10];
    assert IndexOf(r, 11) == 0;
  }

  lemma LeakAdvanceStep()
    ensures IndexAdvanceStep(LeakStage(3), 1) == LeakStage(4)
  {
    LeakUnpins();
    LeakRepins();
    LeakSuccessor();
    hide Drop, Successor;
  }

  lemma LeakAdvances()
    ensures IsStep(LeakStage(3), IndexAdvance(1), LeakStage(4))
  {
    LeakAdvanceStep();
    hide IndexAdvanceStep;
    assert LeakStage(3).ring[0] == 11;
  }

  lemma LeakHeld()
    ensures HeldNodes(LeakStage(4)) == {10}
    ensures Keep(LeakStage(4).ring, HeldNodes(LeakStage(4))) == [10]
  {
    var r := LeakStage(4).ring;
    assert HeldNodes(LeakStage(4)) == {10};
    assert r[1..] == [10] && r[1..][1..] == [];
  }

  lemma LeakDeletes()
    ensures DeleteNodesStep(LeakStage(4), true) == LeakStage(5)
  {
    LeakHeld();
    hide Keep, HeldNodes, IsHeld, HeldFlags, LosesSurvivor;
    var s := LeakStage(4);
    assert s.ring[0] == 11 && s.ring[1] == 10;
    assert DeleteNodesStep(s, true).ring == [10];
    var nodes := DeleteNodesStep(s, true).nodes;
    assert nodes.Keys == {10} && nodes[10] == Counters(1, 0);
    assert nodes == map[10 := Counters(1, 0)];
    assert !DeleteNodesStep(s, true).torn;
  }

  lemma LeakStageOfTheDelete()
    ensures IsStep(LeakStage(4), DeleteNodes(true), LeakStage(5))
  {
    LeakDeletes();
    hide DeleteNodesStep;
    assert LeakStage(4).ring[1] == 10;
  }

  lemma LeakChecks()
    ensures IsStep(LeakStage(5), IndexCheck(1, 7), LeakStage(6)) && Leaks(LeakStage(5), IndexCheck(1, 7))
  {
  }

  lemma IndexOneLeaks() returns (states: seq<State>, acts: seq<Action>)
    ensures IsRun(states, acts) && NoSlip(states, acts)
    ensures |states| == 7 && acts[2] == StartIndex(1, 1, ReadTag) && |states[2].ring| == 2
    ensures var s := states[6];
      && s.ring == [10] && LostAt(s, 7, 10) && 10 in s.nodes && s.nodes[10] == Counters(1, 0)
      && ClientReaders(s, 10) == {} && PinnedThreads(s, 10) == {}
  {
    hide IsStep;
    LeakInserts();
    LeakPins();
    LeakAdvances();
    LeakStageOfTheDelete();
    LeakChecks();
    states := seq(7, k requires 0 <= k => LeakStage(k));
    acts := [InsertHead(10), InsertHead(11), StartIndex(1, 1, ReadTag), IndexAdvance(1), DeleteNodes(true),
             IndexCheck(1, 7)];
  }
}
