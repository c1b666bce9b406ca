/** Whole runs of ListProtocol: safety, coverage of a traversal, and the work it does. */
module ListRuns {
  import opened Sequences
  import opened ListRules
  import opened ListProtocol
  import opened ListSafety

  /** An empty list and any number of threads, none of them inside a call. */
  ghost predicate Initial(s: State) {
    && s.ring == [] && s.nodes == map[] && s.holds == map[] && !s.torn
    && forall t :: t in s.threads ==> s.threads[t] == Idle
  }

  ghost predicate IsStep(s: State, a: Action, s': State) {
    Grounded(s) && Enabled(s, a) && s' == Apply(s, a)
  }

  ghost predicate IsRun(states: seq<State>, acts: seq<Action>) {
    && |states| == |acts| + 1
    && Initial(states[0])
    && forall i :: 0 <= i < |acts| ==> IsStep(states[i], acts[i], states[i + 1])
  }

  ghost predicate NoSlip(states: seq<State>, acts: seq<Action>)
    requires |states| == |acts| + 1
  {
    forall i :: 0 <= i < |acts| ==> !Slips(states[i], acts[i])
  }

  lemma InitialInv(s: State)
    requires Initial(s)
    ensures Inv(s)
  {
  }

  lemma {:induction false} RunInvUpTo(states: seq<State>, acts: seq<Action>, m: nat)
    requires IsRun(states, acts) && m < |states|
    requires forall i :: 0 <= i < m ==> !Slips(states[i], acts[i])
    ensures forall i :: 0 <= i <= m ==> Inv(states[i])
  {
    hide Inv, Initial, Grounded, Slips;
    if m == 0 {
      InitialInv(states[0]);
    } else {
      RunInvUpTo(states, acts, m - 1);
      assert IsStep(states[m - 1], acts[m - 1], states[m]);
      StepInv(states[m - 1], acts[m - 1]);
    }
  }

  /** In every run, under every interleaving, the invariant holds in all states if and only if no FindNodeNum
      misreads a head that changed in its unpinned window and no bulk delete tears the ring. */
  lemma RunSafe(states: seq<State>, acts: seq<Action>)
    requires IsRun(states, acts)
    ensures (forall i :: 0 <= i < |states| ==> Inv(states[i])) <==> NoSlip(states, acts)
  {
    if NoSlip(states, acts) {
      RunInvUpTo(states, acts, |acts|);
    } else {
      hide Inv, Initial, Grounded, Slips;
      var i :| 0 <= i < |acts| && Slips(states[i], acts[i]);
      assert IsStep(states[i], acts[i], states[i + 1]);
      if Inv(states[i]) {
        StepInv(states[i], acts[i]);
        assert !Inv(states[i + 1]);
      }
    }
  }

  /** What the invariant gives a caller: cursors and granted handles lead to linked nodes, a granted writer is
      alone, and each counter is the number of its holders. */
  lemma NobodyDangles(states: seq<State>, acts: seq<Action>, i: nat, t: ThreadId, h: HandleId)
    requires IsRun(states, acts) && NoSlip(states, acts) && i < |states|
    ensures var s := states[i];
      && (t in s.threads && Pinned(s.threads[t]) ==>
            s.threads[t].cursor in s.ring && s.threads[t].cursor in s.nodes && s.nodes[s.threads[t].cursor].read > 0)
      && (Client(h) in s.holds ==>
            var n := s.holds[Client(h)].node;
            && n in s.ring && n in s.nodes
            && (s.holds[Client(h)].kind == WriteGrant ==> s.nodes[n].write == 1)
            && (s.holds[Client(h)].kind == ReadGrant ==> s.nodes[n].read > 0 && s.nodes[n].write == 0))
  {
    RunSafe(states, acts);
    var s := states[i];
    assert Inv(s);
    if t in s.threads && Pinned(s.threads[t]) {
      assert Accounted(s.holds, t, s.threads[t]);
      HolderCounts(s, Thread(t));
    }
    if Client(h) in s.holds {
      HolderCounts(s, Client(h));
    }
  }

  /** Memory is freed only when it is allocated, unlinked, and nobody's: by the thread that unlinked it
      or, in the bulk delete, while nobody holds it. */
  lemma FreedIsUnused(states: seq<State>, acts: seq<Action>, i: nat, n: NodeId)
    requires IsRun(states, acts) && NoSlip(states, acts) && i < |acts|
    requires n in states[i].nodes && n !in states[i + 1].nodes
    ensures forall w :: w in states[i].holds ==> states[i].holds[w].node != n
    ensures acts[i].DeleteNodes? ||
      (acts[i].Free? && states[i].threads[acts[i].t] == Freeing(n) && n !in states[i].ring)
    ensures forall t :: t in states[i].threads && states[i].threads[t] == Freeing(n) ==> acts[i] == Free(t)
  {
    RunSafe(states, acts);
    assert Inv(states[i]) && IsStep(states[i], acts[i], states[i + 1]);
    var s, a := states[i], acts[i];
    hide IsRun, NoSlip, Grounded, Enabled, Apply;
    OnlyTheseFree(s, a, n);
    hide Exclusive, Conserved, HoldsLinked;
    if a.DeleteNodes? {
      assert Core(s);
      IdleHasNoHolder(s, n);
    } else {
      LinkedHolds(s, n);
    }
  }

  /** Each call of free outside the bulk delete meets a node that is allocated, unlinked and nobody's, and no other
      thread is about to free it: so no memory is freed twice. */
  lemma FreedOnce(states: seq<State>, acts: seq<Action>, i: nat)
    requires IsRun(states, acts) && NoSlip(states, acts) && i < |acts| && acts[i].Free?
    ensures var s, s', t := states[i], states[i + 1], acts[i].t;
      && t in s.threads && s.threads[t].Freeing?
      && var n := s.threads[t].node;
         && n in s.nodes && n !in s.ring && n !in s'.nodes
         && (forall w :: w in s.holds ==> s.holds[w].node != n)
         && (forall u :: u in s'.threads ==> s'.threads[u] != Freeing(n))
  {
    RunSafe(states, acts);
    assert Inv(states[i]) && IsStep(states[i], acts[i], states[i + 1]);
    hide IsRun, NoSlip, Core, ThreadsAccounted;
    LinkedHolds(states[i], states[i].threads[acts[i].t].node);
  }

  lemma LinkedHolds(s: State, n: NodeId)
    requires Inv(s) && n !in s.ring
    ensures forall w :: w in s.holds ==> s.holds[w].node != n
  {
    hide Exclusive, Conserved, RingAllocated, ThreadsAccounted, MemoryOwned;
  }

  lemma OnlyTheseFree(s: State, a: Action, n: NodeId)
    requires Grounded(s) && Enabled(s, a) && n in s.nodes && n !in Apply(s, a).nodes
    ensures a.DeleteNodes? || (a.Free? && s.threads[a.t] == Freeing(n))
    ensures a.DeleteNodes? ==> n in s.ring && !IsHeld(s.nodes[n])
  {
    hide WalkOrder, FirstTrue, Successor, IndexOf, CanGrant, IsFreeFor, InsertAt, RemoveAt, Keep, HeldFlags;
    hide LosesSurvivor;
  }

  // ---------- following one traversal ----------

  /** Thread `t` is inside one search, pinned at its first node in `states[i]` and at its last in `states[j]`. */
  ghost predicate Traversal(states: seq<State>, t: ThreadId, i: nat, j: nat) {
    && i <= j < |states|
    && (forall m :: i <= m <= j ==> t in states[m].threads && states[m].threads[t].Searching?)
    && states[i].ring != []
    && var pc := states[i].threads[t];
       pc.cursor == states[i].ring[0] && pc.index == 0 && pc.seen == [pc.cursor]
  }

  ghost predicate Stayed(states: seq<State>, x: NodeId, i: nat, m: nat)
    requires m < |states|
  {
    forall k :: i <= k <= m ==> x in states[k].ring
  }

  /** All that an action can do to the ring. */
  datatype Edit = Same | Insert(i: nat, n: NodeId) | Remove(i: nat) | KeepOnly(kept: set<NodeId>)

  ghost predicate EditFits(r: seq<NodeId>, e: Edit) {
    match e
    case Insert(i, n) => i <= |r| && n !in r
    case Remove(i) => i < |r|
    case _ => true
  }

  function Edited(r: seq<NodeId>, e: Edit): seq<NodeId>
    requires e.Insert? ==> e.i <= |r|
    requires e.Remove? ==> e.i < |r|
  {
    match e
    case Same => r
    case Insert(i, n) => InsertAt(r, i, n)
    case Remove(i) => RemoveAt(r, i)
    case KeepOnly(kept) => Keep(r, kept)
  }

  predicate IsInsert(a: Action) {
    a.InsertHead? || a.InsertBeside?
  }

  predicate Relinks(a: Action) {
    a.InsertHead? || a.InsertBeside? || a.Unlink? || a.DeleteNodes?
  }

  lemma RingStands(s: State, a: Action)
    requires Grounded(s) && Enabled(s, a) && !Relinks(a)
    ensures Apply(s, a).ring == s.ring
  {
    hide WalkOrder, FirstTrue, Successor, IndexOf, CanGrant, IsFreeFor;
  }

  lemma InsertEdits(s: State, a: Action) returns (e: Edit)
    requires Grounded(s) && Enabled(s, a) && IsInsert(a)
    ensures e.Insert? && EditFits(s.ring, e) && Apply(s, a).ring == Edited(s.ring, e)
  {
    hide InsertAt;
    e := if a.InsertHead? then Insert(0, a.n)
         else Insert(IndexOf(s.ring, s.holds[Client(a.at)].node) + if a.before then 0 else 1, a.n);
  }

  lemma UnlinkEdits(s: State, a: Action) returns (e: Edit)
    requires Inv(s) && Grounded(s) && Enabled(s, a) && a.Unlink?
    ensures !e.Insert? && EditFits(s.ring, e) && Apply(s, a).ring == Edited(s.ring, e)
  {
    hide Inv, RemoveAt;
    var n := s.threads[a.t].node;
    e := if IsHeld(Drop(s, Thread(a.t), n, WriteGrant).nodes[n]) then Same else Remove(IndexOf(s.ring, n));
  }

  lemma StepEdits(s: State, a: Action) returns (e: Edit)
    requires Inv(s) && Grounded(s) && Enabled(s, a)
    ensures EditFits(s.ring, e) && Apply(s, a).ring == Edited(s.ring, e)
    ensures e.Insert? <==> IsInsert(a)
  {
    if !Relinks(a) {
      RingStands(s, a);
      hide Inv, Apply, Grounded, Enabled;
      return Same;
    } else if IsInsert(a) {
      hide Inv, Apply, Grounded, Enabled;
      e := InsertEdits(s, a);
    } else if a.Unlink? {
      hide Inv, Apply, Grounded, Enabled;
      e := UnlinkEdits(s, a);
    } else {
      hide HeldNodes, HeldFlags, Keep, LosesSurvivor, Inv, Grounded, Enabled;
      e := KeepOnly(HeldNodes(s));
    }
  }

  lemma EditKeepsOrder(r: seq<NodeId>, e: Edit)
    requires Distinct(r) && EditFits(r, e)
    ensures SameOrder(r, Edited(r, e))
  {
    match e {
      case Same =>
      case Insert(i, n) => InsertAtOrder(r, i, n);
      case Remove(i) => RemoveAtOrder(r, i);
      case KeepOnly(kept) => KeepKeeps(r, kept);
    }
  }

  /** The nodes from `c` to the end of the ring grow by an insertion at most. */
  lemma EditKeepsDistance(r: seq<NodeId>, e: Edit, c: NodeId)
    requires Distinct(r) && EditFits(r, e) && c in r && c in Edited(r, e)
    ensures |Edited(r, e)| - IndexOf(Edited(r, e), c) <= |r| - IndexOf(r, c) + if e.Insert? then 1 else 0
  {
    match e {
      case Same =>
      case Insert(i, n) => InsertAtIndex(r, i, n, c);
      case Remove(i) => RemoveAtMembers(r, i); RemoveAtIndex(r, i, c);
      case KeepOnly(kept) => KeepKeeps(r, kept);
    }
  }

  predicate ActsFor(a: Action, t: ThreadId) {
    match a
    case StartSearch(u, _, _) => u == t
    case SearchMiss(u) => u == t
    case SearchHit(u, _) => u == t
    case StartIndex(u, _, _) => u == t
    case IndexAdvance(u) => u == t
    case IndexCheck(u, _) => u == t
    case IndexGrant(u, _) => u == t
    case Unlink(u) => u == t
    case Free(u) => u == t
    case _ => false
  }

  predicate OfThread(a: Action) {
    || a.StartSearch? || a.SearchMiss? || a.SearchHit? || a.StartIndex? || a.IndexAdvance? || a.IndexCheck?
    || a.IndexGrant? || a.Unlink? || a.Free?
  }

  lemma ClientsMoveNoThread(s: State, a: Action)
    requires Grounded(s) && Enabled(s, a) && !OfThread(a)
    ensures Apply(s, a).threads == s.threads
  {
    hide WalkOrder, FirstTrue, IndexOf, CanGrant, IsFreeFor, InsertAt, Keep, HeldNodes, HeldFlags, LosesSurvivor;
  }

  lemma OthersStandStill(s: State, a: Action, t: ThreadId)
    requires Grounded(s) && Enabled(s, a) && t in s.threads && !ActsFor(a, t)
    ensures t in Apply(s, a).threads && Apply(s, a).threads[t] == s.threads[t]
  {
    if OfThread(a) {
      hide Successor, IndexOf, CanGrant, RemoveAt, IsHeld, Grounded;
    } else {
      hide Grounded, Enabled, Apply;
      ClientsMoveNoThread(s, a);
    }
  }

  /** A search that goes on searching has stepped to the next node of an unchanged ring. */
  lemma SearcherSteps(s: State, a: Action, t: ThreadId)
    requires Inv(s) && Grounded(s) && Enabled(s, a) && ActsFor(a, t)
    requires t in s.threads && s.threads[t].Searching?
    requires t in Apply(s, a).threads && Apply(s, a).threads[t].Searching?
    ensures var pc, pc', r := s.threads[t], Apply(s, a).threads[t], Apply(s, a).ring;
      && a == SearchMiss(t) && r == s.ring && pc.cursor in r && pc'.cursor in r
      && IndexOf(r, pc'.cursor) == IndexOf(r, pc.cursor) + 1
      && pc'.index == pc.index + 1 && pc'.seen == pc.seen + [pc'.cursor]
  {
    hide ThreadsAccounted, MemoryOwned, Exclusive, Conserved, HoldsLinked;
    var i := IndexOf(s.ring, s.threads[t].cursor);
    if i + 1 < |s.ring| {
      IndexOfAt(s.ring, i + 1);
    }
  }

  /** The comparator has met a node that stayed once if the cursor has reached it, and not yet otherwise. */
  ghost predicate MetOnce(s: State, t: ThreadId, x: NodeId)
    requires t in s.threads && s.threads[t].Searching?
  {
    var pc := s.threads[t];
    && pc.cursor in s.ring && x in s.ring
    && multiset(pc.seen)[x] == if IndexOf(s.ring, x) <= IndexOf(s.ring, pc.cursor) then 1 else 0
  }

  lemma MetOnceOwnStep(s: State, a: Action, t: ThreadId, x: NodeId)
    requires Inv(s) && Grounded(s) && Enabled(s, a) && ActsFor(a, t)
    requires t in s.threads && s.threads[t].Searching? && MetOnce(s, t, x)
    requires t in Apply(s, a).threads && Apply(s, a).threads[t].Searching?
    ensures MetOnce(Apply(s, a), t, x)
  {
    hide Inv, Enabled, Apply, Grounded;
    SearcherSteps(s, a, t);
    var r, c, c' := s.ring, s.threads[t].cursor, Apply(s, a).threads[t].cursor;
    hide IndexOf;
    assert x == c' <==> IndexOf(r, x) == IndexOf(r, c');
  }

  lemma MetOnceElsewhere(s: State, a: Action, t: ThreadId, x: NodeId)
    requires Inv(s) && Grounded(s) && Enabled(s, a) && !ActsFor(a, t)
    requires t in s.threads && s.threads[t].Searching? && MetOnce(s, t, x)
    requires x in Apply(s, a).ring && s.threads[t].cursor in Apply(s, a).ring
    ensures t in Apply(s, a).threads && Apply(s, a).threads[t].Searching? && MetOnce(Apply(s, a), t, x)
  {
    hide Inv, Enabled, Apply, Grounded, IndexOf, EditFits, Edited;
    OthersStandStill(s, a, t);
    var e := StepEdits(s, a);
    EditKeepsOrder(s.ring, e) by { RingDistinct(s); }
  }

  lemma MetOnceStep(s: State, a: Action, t: ThreadId, x: NodeId)
    requires Inv(s) && Grounded(s) && Enabled(s, a) && Inv(Apply(s, a))
    requires t in s.threads && s.threads[t].Searching? && MetOnce(s, t, x)
    requires t in Apply(s, a).threads && Apply(s, a).threads[t].Searching? && x in Apply(s, a).ring
    ensures MetOnce(Apply(s, a), t, x)
  {
    hide Inv, Enabled, Apply, MetOnce, Grounded;
    if ActsFor(a, t) {
      MetOnceOwnStep(s, a, t, x);
    } else {
      OthersStandStill(s, a, t);
      InvGrounded(Apply(s, a));
      CursorLinked(Apply(s, a), t);
      MetOnceElsewhere(s, a, t, x);
    }
  }

  /** No action reorders the nodes that stay. */
  lemma StepKeepsOrder(s: State, a: Action)
    requires Inv(s) && Grounded(s) && Enabled(s, a)
    ensures SameOrder(s.ring, Apply(s, a).ring)
  {
    hide Inv, Enabled, Apply, Grounded, EditFits, Edited, SameOrder;
    var e := StepEdits(s, a);
    EditKeepsOrder(s.ring, e) by { RingDistinct(s); }
  }

  lemma {:induction false} MetOnceAlong(states: seq<State>, acts: seq<Action>, t: ThreadId, i: nat, m: nat, x: NodeId)
    requires IsRun(states, acts) && NoSlip(states, acts)
    requires Traversal(states, t, i, m) && Stayed(states, x, i, m)
    ensures MetOnce(states[m], t, x)
  {
    hide Grounded, Enabled, Apply, Slips, Inv;
    RunSafe(states, acts);
    if m > i {
      MetOnceAlong(states, acts, t, i, m - 1, x);
      assert IsStep(states[m - 1], acts[m - 1], states[m]);
      assert x in states[m].ring && states[m].threads[t].Searching?;
      assert Inv(states[m - 1]) && Inv(states[m]);
      MetOnceStep(states[m - 1], acts[m - 1], t, x);
    } else {
      assert Inv(states[i]);
    }
  }

  /** Coverage: a search that wraps, and so returns AII_ERROR, has compared exactly once every node that was
      linked all the way from its first pin to its last, whatever was inserted or deleted meanwhile. */
  lemma MissedSearchSawAll(states: seq<State>, acts: seq<Action>, t: ThreadId, i: nat, j: nat, x: NodeId)
    requires IsRun(states, acts) && NoSlip(states, acts)
    requires Traversal(states, t, i, j) && j < |acts|
    requires t in states[j + 1].threads && states[j + 1].threads[t].Missed?
    requires Stayed(states, x, i, j)
    ensures multiset(states[j + 1].threads[t].seen)[x] == 1
  {
    MetOnceAlong(states, acts, t, i, j, x);
    RunSafe(states, acts);
    assert Inv(states[j]) && IsStep(states[j], acts[j], states[j + 1]);
    MissedAtTheEnd(states[j], acts[j], t);
  }

  lemma MissedAtTheEnd(s: State, a: Action, t: ThreadId)
    requires Inv(s) && Grounded(s) && Enabled(s, a)
    requires t in s.threads && s.threads[t].Searching?
    requires t in Apply(s, a).threads && Apply(s, a).threads[t].Missed?
    ensures Apply(s, a).threads[t] == Missed(s.threads[t].index + 1, s.threads[t].seen)
    ensures s.threads[t].cursor in s.ring && IndexOf(s.ring, s.threads[t].cursor) == |s.ring| - 1
  {
    hide ThreadsAccounted, MemoryOwned, Exclusive, Conserved, HoldsLinked;
    if !ActsFor(a, t) {
      OthersStandStill(s, a, t);
    }
  }

  function Insertions(acts: seq<Action>, i: nat, m: nat): (r: nat)
    requires i <= m <= |acts|
  {
    if i == m then 0 else Insertions(acts, i, m - 1) + if IsInsert(acts[m - 1]) then 1 else 0
  }

  lemma {:induction false} WorkAlong(states: seq<State>, acts: seq<Action>, t: ThreadId, i: nat, m: nat)
    requires IsRun(states, acts) && NoSlip(states, acts) && Traversal(states, t, i, m)
    ensures var s := states[m];
      && s.threads[t].cursor in s.ring
      && s.threads[t].index + |s.ring| - IndexOf(s.ring, s.threads[t].cursor) <=
        |states[i].ring| + Insertions(acts, i, m)
  {
    hide Grounded, Enabled, Apply, Slips, Inv;
    RunSafe(states, acts);
    if m > i {
      WorkAlong(states, acts, t, i, m - 1);
      var s, a := states[m - 1], acts[m - 1];
      assert IsStep(s, a, states[m]);
      assert Inv(s) && Inv(states[m]);
      InvGrounded(states[m]);
      CursorLinked(states[m], t);
      if ActsFor(a, t) {
        SearcherSteps(s, a, t);
      } else {
        OthersStandStill(s, a, t);
        var e := StepEdits(s, a);
        EditKeepsDistance(s.ring, e, s.threads[t].cursor) by { RingDistinct(s); }
      }
    } else {
      IndexOfAt(states[i].ring, 0) by { assert Inv(states[i]); RingDistinct(states[i]); }
    }
  }

  lemma CursorLinked(s: State, t: ThreadId)
    requires Grounded(s) && t in s.threads && s.threads[t].Searching?
    ensures s.threads[t].cursor in s.ring
  {
  }

  lemma RingDistinct(s: State)
    requires Inv(s)
    ensures Distinct(s.ring)
  {
  }

  /** Work bound: a search advances at most as often as the ring was long at its first pin plus one for every
      node inserted while it ran; `index` counts the advances. */
  lemma SearchWork(states: seq<State>, acts: seq<Action>, t: ThreadId, i: nat, j: nat)
    requires IsRun(states, acts) && NoSlip(states, acts) && Traversal(states, t, i, j)
    ensures states[j].threads[t].index < |states[i].ring| + Insertions(acts, i, j)
    ensures j < |acts| && t in states[j + 1].threads && states[j + 1].threads[t].Missed? ==>
      states[j + 1].threads[t].index <= |states[i].ring| + Insertions(acts, i, j)
  {
    WorkAlong(states, acts, t, i, j);
    if j < |acts| && t in states[j + 1].threads && states[j + 1].threads[t].Missed? {
      RunSafe(states, acts);
      assert Inv(states[j]) && IsStep(states[j], acts[j], states[j + 1]);
      MissedAtTheEnd(states[j], acts[j], t);
    }
  }

  // ---------- the run that goes wrong ----------

  /** One thread asks for index 5 of a one-node list and wraps; another inserts a head; the first goes on
      as if it had found the node, is granted it with ReadPermission 0, and a bulk delete frees it. */
  function Stage(k: nat): State {
    var zero, one := Counters(0, 0), Counters(1, 0);
    match k
    case 0 => State([], map[], map[], map[1 := Idle], false)
    case 1 => State([10], map[10 := zero], map[], map[1 := Idle], false)
    case 2 => State([10], map[10 := one], map[Thread(1) := Hold(10, Pin)], map[1 := Counting(10, 5, ReadTag)], false)
    case 3 => State([10], map[10 := zero], map[], map[1 := Wrapped(10, ReadTag)], false)
    case 4 => State([11, 10], map[10 := zero, 11 := zero], map[], map[1 := Wrapped(10, ReadTag)], false)
    case 5 => State([11, 10], map[10 := zero, 11 := zero], map[], map[1 := Resolved(10, ReadTag)], false)
    case 6 => State([11, 10], map[10 := zero, 11 := zero], map[Client(7) := Hold(10, ReadGrant)], map[1 := Idle], false)
    case _ => State([], map[], map[Client(7) := Hold(10, ReadGrant)], map[1 := Idle], false)
  }

  lemma StagesToThePin()
    ensures IsStep(Stage(0), InsertHead(10), Stage(1))
    ensures IsStep(Stage(1), StartIndex(1, 5, ReadTag), Stage(2))
  {
  }

  lemma StageOfTheWrap()
    ensures IsStep(Stage(2), IndexAdvance(1), Stage(3))
  {
    var s := Drop(Stage(2), Thread(1), 10, Pin);
    assert s.nodes == map[10 := Counters(0, 0)] && s.holds == map[];
    assert IndexAdvanceStep(Stage(2), 1) == Goto(s, 1, Wrapped(10, ReadTag));
  }

  lemma StagesToTheMisread()
    ensures IsStep(Stage(3), InsertHead(11), Stage(4))
    ensures IsStep(Stage(4), IndexCheck(1, 7), Stage(5)) && Misread(Stage(4), IndexCheck(1, 7))
  {
  }

  lemma GrantWithoutPin()
    ensures IndexGrantStep(Stage(5), 1, 7) == Stage(6)
  {
    var nodes := map[10 := Counters(-1, 0), 11 := Counters(0, 0)];
    var s := Stage(5).(nodes := nodes);
    assert Drop(Stage(5), Thread(1), 10, Pin) == s by {
      assert Stage(5).nodes[10 := Counters(-1, 0)] == nodes;
    }
    assert Take(s, Client(7), 10, ReadGrant) == Stage(6).(threads := s.threads) by {
      assert nodes[10 := Counters(0, 0)] == Stage(6).nodes;
    }
  }

  lemma StageOfTheGrant()
    ensures IsStep(Stage(5), IndexGrant(1, 7), Stage(6))
  {
    GrantWithoutPin();
    hide IndexGrantStep;
    assert Stage(5).ring[1] == 10;
  }

  lemma DeleteLeavesNothing()
    ensures DeleteNodesStep(Stage(6), true) == Stage(7)
  {
    assert HeldNodes(Stage(6)) == {};
    assert Keep(Stage(6).ring, {}) == [] by {
      assert Stage(6).ring[1..][1..] == [];
    }
    hide Keep;
  }

  lemma StageOfTheDelete()
    ensures IsStep(Stage(6), DeleteNodes(true), Stage(7))
  {
    DeleteLeavesNothing();
    hide DeleteNodesStep;
  }

  lemma MisreadStrandsAHandle() returns (states: seq<State>, acts: seq<Action>)
    ensures IsRun(states, acts) && !NoSlip(states, acts)
    ensures var s := states[|states| - 1];
      Client(7) in s.holds && s.holds[Client(7)] == Hold(10, ReadGrant) && 10 !in s.nodes
  {
    hide IsStep;
    StagesToThePin();
    StageOfTheWrap();
    StagesToTheMisread();
    StageOfTheGrant();
    StageOfTheDelete();
    states := seq(8, k requires 0 <= k => Stage(k));
    acts := [InsertHead(10), StartIndex(1, 5, ReadTag), IndexAdvance(1), InsertHead(11),
             IndexCheck(1, 7), IndexGrant(1, 7), DeleteNodes(true)];
    assert acts[4] == IndexCheck(1, 7) && states[4] == Stage(4);
  }
}
