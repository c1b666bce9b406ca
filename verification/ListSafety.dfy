/** Safety of every run of ListProtocol: what the counters mean, who may hold what, and that
    no thread ever reaches a node that is not linked. */
module ListSafety {
  import opened Sequences
  import opened ListRules
  import opened ListProtocol

  // ---------- the invariant ----------

  /** The holders behind ReadPermission: granted readers, temporary pins and pins never released. */
  ghost function ReadHolders(holds: map<Holder, Hold>, n: NodeId): set<Holder> {
    set w | w in holds && holds[w].node == n && holds[w].kind != WriteGrant
  }

  ghost function WriteHolders(holds: map<Holder, Hold>, n: NodeId): set<Holder> {
    set w | w in holds && holds[w].node == n && holds[w].kind == WriteGrant
  }

  /** Both counters of every allocated node count exactly their holders. */
  ghost predicate Conserved(nodes: map<NodeId, Counters>, holds: map<Holder, Hold>) {
    forall n :: n in nodes ==> nodes[n] == Counters(|ReadHolders(holds, n)|, |WriteHolders(holds, n)|)
  }

  /** A granted writer excludes every other writer and every granted reader; pins may coexist. */
  ghost predicate Exclusive(holds: map<Holder, Hold>) {
    forall w, v :: (w in holds && v in holds && w != v && holds[w].node == holds[v].node
                    && holds[w].kind == WriteGrant) ==> holds[v].kind == Pin
  }

  ghost predicate HoldsLinked(ring: seq<NodeId>, holds: map<Holder, Hold>) {
    forall w :: w in holds ==> holds[w].node in ring
  }

  ghost predicate RingAllocated(ring: seq<NodeId>, nodes: map<NodeId, Counters>) {
    && Distinct(ring)
    && forall n :: n in ring ==> n in nodes
  }

  ghost predicate Core(s: State) {
    && RingAllocated(s.ring, s.nodes)
    && HoldsLinked(s.ring, s.holds)
    && Exclusive(s.holds)
    && Conserved(s.nodes, s.holds)
  }

  /** What the account says about a thread at `pc`. */
  ghost predicate Accounted(holds: map<Holder, Hold>, t: ThreadId, pc: Pc) {
    if Pinned(pc) then Thread(t) in holds && holds[Thread(t)] == Hold(pc.cursor, Pin)
    else if pc.Deleting? then Thread(t) in holds && holds[Thread(t)] == Hold(pc.node, WriteGrant)
    else Thread(t) !in holds
  }

  ghost predicate ThreadsAccounted(threads: map<ThreadId, Pc>, holds: map<Holder, Hold>) {
    forall t :: if t in threads then Accounted(holds, t, threads[t]) else Thread(t) !in holds
  }

  /** Memory: the allocated nodes are the linked ones and, one each, those a thread is about to free. */
  ghost predicate MemoryOwned(ring: seq<NodeId>, heap: set<NodeId>, threads: map<ThreadId, Pc>) {
    && (forall t :: t in threads && threads[t].Freeing? ==> threads[t].node in heap && threads[t].node !in ring)
    && (forall t, u :: t in threads && u in threads && t != u && threads[t].Freeing? && threads[u].Freeing? ==>
          threads[t].node != threads[u].node)
    && (forall n :: n in heap && n !in ring ==> exists t :: t in threads && threads[t] == Freeing(n))
  }

  ghost predicate Inv(s: State) {
    !s.torn && Core(s) && ThreadsAccounted(s.threads, s.holds) && MemoryOwned(s.ring, s.nodes.Keys, s.threads)
  }

  lemma InvGrounded(s: State)
    requires Inv(s)
    ensures Grounded(s)
  {
    forall t | t in s.threads && (Pinned(s.threads[t]) || s.threads[t].Deleting?)
      ensures Thread(t) in s.holds && s.holds[Thread(t)].node in s.ring
    {
      assert Accounted(s.holds, t, s.threads[t]);
    }
  }

  // ---------- one counter update ----------

  lemma TakeHolders(holds: map<Holder, Hold>, w: Holder, x: Hold, n: NodeId)
    requires w !in holds
    ensures |ReadHolders(holds[w := x], n)| ==
      |ReadHolders(holds, n)| + if x.node == n && x.kind != WriteGrant then 1 else 0
    ensures |WriteHolders(holds[w := x], n)| ==
      |WriteHolders(holds, n)| + if x.node == n && x.kind == WriteGrant then 1 else 0
  {
    var holds' := holds[w := x];
    if x.node == n && x.kind != WriteGrant {
      assert ReadHolders(holds', n) == ReadHolders(holds, n) + {w};
    } else {
      assert ReadHolders(holds', n) == ReadHolders(holds, n);
    }
    if x.node == n && x.kind == WriteGrant {
      assert WriteHolders(holds', n) == WriteHolders(holds, n) + {w};
    } else {
      assert WriteHolders(holds', n) == WriteHolders(holds, n);
    }
  }

  /** Dropping undoes taking. */
  lemma DropHolders(holds: map<Holder, Hold>, w: Holder, n: NodeId)
    requires w in holds
    ensures |ReadHolders(holds - {w}, n)| ==
      |ReadHolders(holds, n)| - if holds[w].node == n && holds[w].kind != WriteGrant then 1 else 0
    ensures |WriteHolders(holds - {w}, n)| ==
      |WriteHolders(holds, n)| - if holds[w].node == n && holds[w].kind == WriteGrant then 1 else 0
  {
    TakeHolders(holds - {w}, w, holds[w], n);
    assert (holds - {w})[w := holds[w]] == holds;
  }

  /** Who may take what: a writer needs an idle node, a reader one without writer, a pin nothing. */
  ghost predicate Admissible(c: Counters, k: Kind) {
    match k
    case Pin => true
    case ReadGrant => c.write == 0
    case WriteGrant => c.read == 0 && c.write == 0
  }

  lemma NoHolders(holds: map<Holder, Hold>, n: NodeId)
    ensures |ReadHolders(holds, n)| == 0 ==> forall v :: v in holds && holds[v].node == n ==>
      holds[v].kind == WriteGrant
    ensures |WriteHolders(holds, n)| == 0 ==> forall v :: v in holds && holds[v].node == n ==>
      holds[v].kind != WriteGrant
  {
    forall v | v in holds && holds[v].node == n
      ensures v in ReadHolders(holds, n) || v in WriteHolders(holds, n)
    {
    }
  }

  lemma TakeExclusive(s: State, w: Holder, n: NodeId, k: Kind)
    requires Core(s) && w !in s.holds && n in s.ring && Admissible(s.nodes[n], k)
    ensures Exclusive(s.holds[w := Hold(n, k)])
  {
    NoHolders(s.holds, n);
    assert s.nodes[n] == Counters(|ReadHolders(s.holds, n)|, |WriteHolders(s.holds, n)|);
  }

  lemma TakeConserved(s: State, w: Holder, n: NodeId, k: Kind)
    requires Conserved(s.nodes, s.holds) && w !in s.holds && n in s.nodes
    ensures Conserved(Take(s, w, n, k).nodes, Take(s, w, n, k).holds)
  {
    forall m | m in s.nodes
      ensures Take(s, w, n, k).nodes[m] ==
        Counters(|ReadHolders(s.holds[w := Hold(n, k)], m)|, |WriteHolders(s.holds[w := Hold(n, k)], m)|)
    {
      TakeHolders(s.holds, w, Hold(n, k), m);
    }
  }

  lemma TakeCore(s: State, w: Holder, n: NodeId, k: Kind)
    requires Core(s) && w !in s.holds && n in s.ring && Admissible(s.nodes[n], k)
    ensures Core(Take(s, w, n, k))
  {
    TakeExclusive(s, w, n, k);
    TakeConserved(s, w, n, k);
  }

  lemma DropCore(s: State, w: Holder)
    requires Core(s) && w in s.holds
    ensures Core(Drop(s, w, s.holds[w].node, s.holds[w].kind))
  {
    var n, k := s.holds[w].node, s.holds[w].kind;
    var s' := Drop(s, w, n, k);
    forall m | m in s'.nodes
      ensures s'.nodes[m] == Counters(|ReadHolders(s'.holds, m)|, |WriteHolders(s'.holds, m)|)
    {
      DropHolders(s.holds, w, m);
    }
  }

  lemma TryGrantCore(s: State, w: Holder, n: NodeId, tag: Tag)
    requires Core(s) && w !in s.holds && n in s.ring
    ensures Core(TryGrant(s, w, n, tag))
  {
    if tag != OtherTag && CanGrant(s.nodes[n], tag) {
      TakeCore(s, w, n, GrantKind(tag));
    }
  }

  /** A node whose two counters are zero has no holder, so removing it strands nobody. */
  lemma IdleHasNoHolder(s: State, n: NodeId)
    requires Core(s) && n in s.nodes && !IsHeld(s.nodes[n])
    ensures forall w :: w in s.holds ==> s.holds[w].node != n
  {
    NoHolders(s.holds, n);
  }

  /** Every holder is in the counter: a writer is the only one of its kind, a reader or a pin makes the other
      positive. */
  lemma HolderCounts(s: State, w: Holder)
    requires Core(s) && w in s.holds
    ensures var n := s.holds[w].node;
      && n in s.ring && n in s.nodes
      && (s.holds[w].kind == WriteGrant ==> s.nodes[n].write == 1)
      && (s.holds[w].kind != WriteGrant ==> s.nodes[n].read > 0)
      && (s.holds[w].kind == ReadGrant ==> s.nodes[n].write == 0)
  {
    var n := s.holds[w].node;
    assert s.nodes[n] == Counters(|ReadHolders(s.holds, n)|, |WriteHolders(s.holds, n)|);
    if s.holds[w].kind == WriteGrant {
      assert WriteHolders(s.holds, n) == {w};
    } else {
      assert w in ReadHolders(s.holds, n);
    }
    if s.holds[w].kind == ReadGrant {
      assert WriteHolders(s.holds, n) == {};
    }
  }

  // ---------- one action ----------

  /** The unpinned window of FindNodeNum: after a wrap the unlocked test at list.c:652 reads a head that
      has changed since, and the call goes on as if it had resolved its index. */
  predicate Misread(s: State, a: Action) {
    a.IndexCheck? && a.t in s.threads && s.threads[a.t].Wrapped? && !AtHeadOf(s, s.threads[a.t].cursor)
  }

  /** The bulk delete as written, on a pattern of held nodes on which line 1211 loses a survivor. */
  ghost predicate Tears(s: State, a: Action) {
    a.DeleteNodes? && !a.keepSurvivor && LosesSurvivor(HeldFlags(s))
  }

  /** The two steps at which the code does not keep the list safe. */
  ghost predicate Slips(s: State, a: Action) {
    Misread(s, a) || Tears(s, a)
  }

  ghost predicate SameThreadHolds(h0: map<Holder, Hold>, h1: map<Holder, Hold>, u: ThreadId) {
    && (Thread(u) in h1 <==> Thread(u) in h0)
    && (Thread(u) in h0 ==> h1[Thread(u)] == h0[Thread(u)])
  }

  /** `s'` differs from `s` in the counters, in the account, and in the program counter of `t`. */
  ghost predicate LocalTo(s: State, s': State, t: ThreadId, pc: Pc) {
    && t in s.threads && !s.threads[t].Freeing? && !pc.Freeing?
    && s'.ring == s.ring && s'.nodes.Keys == s.nodes.Keys && s'.threads == s.threads[t := pc] && s'.torn == s.torn
    && forall u :: u != t ==> SameThreadHolds(s.holds, s'.holds, u)
  }

  lemma LocalThreads(threads: map<ThreadId, Pc>, h0: map<Holder, Hold>, h1: map<Holder, Hold>, t: ThreadId, pc: Pc)
    requires ThreadsAccounted(threads, h0) && t in threads
    requires forall u :: u != t ==> SameThreadHolds(h0, h1, u)
    ensures ThreadsAccounted(threads[t := pc], h1) <==> Accounted(h1, t, pc)
  {
    var threads' := threads[t := pc];
    assert threads'[t] == pc;
    if Accounted(h1, t, pc) {
      forall u
        ensures if u in threads' then Accounted(h1, u, threads'[u]) else Thread(u) !in h1
      {
        assert u != t ==> SameThreadHolds(h0, h1, u);
        assert if u in threads then Accounted(h0, u, threads[u]) else Thread(u) !in h0;
      }
    }
  }

  lemma LocalMemory(ring: seq<NodeId>, heap: set<NodeId>, threads: map<ThreadId, Pc>, t: ThreadId, pc: Pc)
    requires MemoryOwned(ring, heap, threads)
    requires t in threads && !threads[t].Freeing? && !pc.Freeing?
    ensures MemoryOwned(ring, heap, threads[t := pc])
  {
    var threads' := threads[t := pc];
    forall n | n in heap && n !in ring
      ensures exists u :: u in threads' && threads'[u] == Freeing(n)
    {
      var u :| u in threads && threads[u] == Freeing(n);
      assert u in threads' && threads'[u] == Freeing(n);
    }
  }

  lemma LocalStep(s: State, s': State, t: ThreadId, pc: Pc)
    requires Inv(s) && Core(s') && LocalTo(s, s', t, pc)
    ensures Inv(s') <==> Accounted(s'.holds, t, pc)
  {
    LocalThreads(s.threads, s.holds, s'.holds, t, pc);
    LocalMemory(s.ring, s.nodes.Keys, s.threads, t, pc);
  }

  lemma StartSearchInv(s: State, t: ThreadId, tag: Tag, deleting: bool)
    requires Inv(s) && Grounded(s) && Enabled(s, StartSearch(t, tag, deleting))
    ensures Inv(StartSearchStep(s, t, tag, deleting))
  {
    hide RingAllocated, HoldsLinked, Exclusive, Conserved, MemoryOwned;
    var s' := StartSearchStep(s, t, tag, deleting);
    assert Accounted(s.holds, t, s.threads[t]);
    if s.ring != [] {
      TakeCore(s, Thread(t), s.ring[0], Pin);
    }
    LocalStep(s, s', t, s'.threads[t]);
  }

  lemma SearchMissInv(s: State, t: ThreadId)
    requires Inv(s) && Grounded(s) && Enabled(s, SearchMiss(t))
    ensures Inv(SearchMissStep(s, t))
  {
    hide RingAllocated, HoldsLinked, Exclusive, Conserved, MemoryOwned;
    var pc, s' := s.threads[t], SearchMissStep(s, t);
    assert Accounted(s.holds, t, pc);
    DropCore(s, Thread(t));
    var s1 := Drop(s, Thread(t), pc.cursor, Pin);
    var next := Successor(s.ring, pc.cursor);
    if next != s.ring[0] {
      TakeCore(s1, Thread(t), next, Pin);
    }
    LocalStep(s, s', t, s'.threads[t]);
  }

  lemma SearchHitInv(s: State, t: ThreadId, h: HandleId)
    requires Inv(s) && Grounded(s) && Enabled(s, SearchHit(t, h))
    ensures Inv(SearchHitStep(s, t, h))
  {
    hide RingAllocated, HoldsLinked, Exclusive, Conserved, MemoryOwned;
    var pc, s' := s.threads[t], SearchHitStep(s, t, h);
    assert Accounted(s.holds, t, pc);
    DropCore(s, Thread(t));
    var s1 := Drop(s, Thread(t), pc.cursor, Pin);
    if pc.deleting {
      TryGrantCore(s1, Thread(t), pc.cursor, WriteTag);
    } else {
      TryGrantCore(s1, Client(h), pc.cursor, pc.tag);
    }
    LocalStep(s, s', t, s'.threads[t]);
  }

  lemma StartIndexInv(s: State, t: ThreadId, k: nat, tag: Tag)
    requires Inv(s) && Grounded(s) && Enabled(s, StartIndex(t, k, tag))
    ensures Inv(StartIndexStep(s, t, k, tag))
  {
    hide RingAllocated, HoldsLinked, Exclusive, Conserved, MemoryOwned;
    var s' := StartIndexStep(s, t, k, tag);
    assert Accounted(s.holds, t, s.threads[t]);
    if s.ring != [] {
      TakeCore(s, Thread(t), s.ring[0], Pin);
    }
    LocalStep(s, s', t, s'.threads[t]);
  }

  lemma IndexAdvanceInv(s: State, t: ThreadId)
    requires Inv(s) && Grounded(s) && Enabled(s, IndexAdvance(t))
    ensures Inv(IndexAdvanceStep(s, t))
  {
    hide RingAllocated, HoldsLinked, Exclusive, Conserved, MemoryOwned;
    var pc, s' := s.threads[t], IndexAdvanceStep(s, t);
    assert Accounted(s.holds, t, pc);
    DropCore(s, Thread(t));
    var s1 := Drop(s, Thread(t), pc.cursor, Pin);
    var next := Successor(s.ring, pc.cursor);
    if next != s.ring[0] {
      TakeCore(s1, Thread(t), next, Pin);
    }
    LocalStep(s, s', t, s'.threads[t]);
  }

  /** Handing a pin over to another holder leaves both counters of its node as they are. */
  lemma PinHandedOver(s: State, w: Holder, v: Holder)
    requires Core(s) && w in s.holds && s.holds[w].kind == Pin && v !in s.holds
    requires s.holds[w].node in s.ring && s.holds[w].node in s.nodes
    ensures Core(s.(holds := (s.holds - {w})[v := s.holds[w]]))
  {
    hide RingAllocated, HoldsLinked, Exclusive, Conserved;
    DropCore(s, w);
    var n := s.holds[w].node;
    var s1 := Drop(s, w, n, Pin);
    TakeCore(s1, v, n, Pin);
    assert Take(s1, v, n, Pin).nodes == s.nodes;
  }

  lemma IndexCheckInv(s: State, t: ThreadId, h: HandleId)
    requires Inv(s) && Grounded(s) && Enabled(s, IndexCheck(t, h))
    ensures Inv(IndexCheckStep(s, t, h)) <==> !Misread(s, IndexCheck(t, h))
  {
    hide RingAllocated, HoldsLinked, Exclusive, Conserved, MemoryOwned;
    var pc, s' := s.threads[t], IndexCheckStep(s, t, h);
    assert Accounted(s.holds, t, pc);
    if pc.Counting? && AtHeadOf(s, pc.cursor) {
      PinHandedOver(s, Thread(t), Lost(h));
    }
    LocalStep(s, s', t, s'.threads[t]);
  }

  lemma IndexGrantInv(s: State, t: ThreadId, h: HandleId)
    requires Inv(s) && Grounded(s) && Enabled(s, IndexGrant(t, h))
    ensures Inv(IndexGrantStep(s, t, h))
  {
    hide RingAllocated, HoldsLinked, Exclusive, Conserved, MemoryOwned;
    var pc, s' := s.threads[t], IndexGrantStep(s, t, h);
    assert Accounted(s.holds, t, pc);
    DropCore(s, Thread(t));
    TryGrantCore(Drop(s, Thread(t), pc.cursor, Pin), Client(h), pc.cursor, pc.tag);
    LocalStep(s, s', t, s'.threads[t]);
  }

  /** `s'` differs from `s` in the counters and in what clients hold. */
  lemma ClientStep(s: State, s': State)
    requires Inv(s) && Core(s')
    requires s'.ring == s.ring && s'.nodes.Keys == s.nodes.Keys && s'.threads == s.threads && s'.torn == s.torn
    requires forall u :: SameThreadHolds(s.holds, s'.holds, u)
    ensures Inv(s')
  {
    hide RingAllocated, HoldsLinked, Exclusive, Conserved, MemoryOwned;
    forall u
      ensures if u in s'.threads then Accounted(s'.holds, u, s'.threads[u]) else Thread(u) !in s'.holds
    {
      assert SameThreadHolds(s.holds, s'.holds, u);
      assert if u in s.threads then Accounted(s.holds, u, s.threads[u]) else Thread(u) !in s.holds;
    }
  }

  lemma GetPermissionInv(s: State, at: HandleId, tag: Tag, h: HandleId)
    requires Inv(s) && Grounded(s) && Enabled(s, GetPermission(at, tag, h))
    ensures Inv(GetPermissionStep(s, s.holds[Client(at)].node, tag, h))
  {
    hide RingAllocated, HoldsLinked, Exclusive, Conserved, MemoryOwned, ThreadsAccounted;
    TryGrantCore(s, Client(h), s.holds[Client(at)].node, tag);
    ClientStep(s, GetPermissionStep(s, s.holds[Client(at)].node, tag, h));
  }

  lemma ReleaseInv(s: State, h: HandleId)
    requires Inv(s) && Grounded(s) && Enabled(s, Release(h))
    ensures Inv(Apply(s, Release(h)))
  {
    hide RingAllocated, HoldsLinked, Exclusive, Conserved, MemoryOwned, ThreadsAccounted;
    HolderCounts(s, Client(h));
    DropCore(s, Client(h));
    ClientStep(s, Apply(s, Release(h)));
  }

  lemma WalkOrderStaysInRing(ring: seq<NodeId>, from: Start, forward: bool)
    requires from.AtNode? ==> from.i < |ring|
    ensures forall n :: n in WalkOrder(ring, from, forward) ==> n in ring
  {
  }

  lemma GetNextInv(s: State, from: Start, forward: bool, skip: bool, tag: Tag, h: HandleId)
    requires Inv(s) && Grounded(s) && Fresh(s, h) && (from.AtNode? ==> from.i < |s.ring|)
    ensures Inv(GetNextStep(s, from, forward, skip, tag, h))
  {
    hide RingAllocated, HoldsLinked, Exclusive, Conserved, MemoryOwned, ThreadsAccounted;
    var s' := GetNextStep(s, from, forward, skip, tag, h);
    var order := WalkOrder(s.ring, from, forward);
    WalkOrderStaysInRing(s.ring, from, forward);
    if s' != s {
      var k := FirstTrue(seq(|order|, i requires 0 <= i < |order| =>
        order[i] in s.nodes && IsFreeFor(s.nodes[order[i]], tag)));
      TakeCore(s, Client(h), order[k], GrantKind(tag));
    }
    ClientStep(s, s');
  }

  // ---------- actions that change the ring ----------

  lemma InsertCore(s: State, i: nat, n: NodeId)
    requires Core(s) && n !in s.nodes && i <= |s.ring|
    ensures Core(InsertStep(s, i, n))
  {
    InsertAtMembers(s.ring, i, n);
    assert ReadHolders(s.holds, n) == {} && WriteHolders(s.holds, n) == {};
  }

  lemma InsertInv(s: State, i: nat, n: NodeId)
    requires Inv(s) && n !in s.nodes && i <= |s.ring|
    ensures Inv(InsertStep(s, i, n))
  {
    InsertCore(s, i, n);
    InsertAtMembers(s.ring, i, n);
    hide Core;
  }

  lemma RemoveCore(s: State, n: NodeId)
    requires Core(s) && n in s.ring && !IsHeld(s.nodes[n])
    ensures Core(s.(ring := RemoveAt(s.ring, IndexOf(s.ring, n))))
  {
    RemoveAtMembers(s.ring, IndexOf(s.ring, n));
    IdleHasNoHolder(s, n);
    hide Exclusive, Conserved;
  }

  lemma UnlinkMemory(ring: seq<NodeId>, heap: set<NodeId>, threads: map<ThreadId, Pc>, t: ThreadId, n: NodeId)
    requires Distinct(ring) && n in ring && n in heap
    requires MemoryOwned(ring, heap, threads) && t in threads && threads[t] == Deleting(n)
    ensures MemoryOwned(RemoveAt(ring, IndexOf(ring, n)), heap, threads[t := Freeing(n)])
  {
    RemoveAtMembers(ring, IndexOf(ring, n));
    var threads' := threads[t := Freeing(n)];
    forall m | m in heap && m !in RemoveAt(ring, IndexOf(ring, n))
      ensures exists u :: u in threads' && threads'[u] == Freeing(m)
    {
      if m == n {
        assert t in threads' && threads'[t] == Freeing(m);
      } else {
        var u :| u in threads && threads[u] == Freeing(m);
        assert u in threads' && threads'[u] == Freeing(m);
      }
    }
  }

  lemma UnlinkCore(s: State, t: ThreadId, n: NodeId)
    requires Core(s) && n in s.ring && n in s.nodes
    requires Thread(t) in s.holds && s.holds[Thread(t)] == Hold(n, WriteGrant)
    ensures Core(Drop(s, Thread(t), n, WriteGrant))
    ensures var s1 := Drop(s, Thread(t), n, WriteGrant);
      !IsHeld(s1.nodes[n]) ==> Core(s1.(ring := RemoveAt(s.ring, IndexOf(s.ring, n))))
  {
    hide RingAllocated, HoldsLinked, Exclusive, Conserved;
    DropCore(s, Thread(t));
    var s1 := Drop(s, Thread(t), n, WriteGrant);
    if !IsHeld(s1.nodes[n]) {
      RemoveCore(s1, n);
    }
  }

  lemma UnlinkInv(s: State, t: ThreadId)
    requires t in s.threads && s.threads[t].Deleting? && s.threads[t].node in s.ring && s.threads[t].node in s.nodes
    requires Inv(s)
    ensures Inv(UnlinkStep(s, t))
  {
    hide RingAllocated, HoldsLinked, Exclusive, Conserved, MemoryOwned;
    var n, s' := s.threads[t].node, UnlinkStep(s, t);
    assert Accounted(s.holds, t, s.threads[t]);
    UnlinkCore(s, t, n);
    if IsHeld(Drop(s, Thread(t), n, WriteGrant).nodes[n]) {
      LocalStep(s, s', t, Idle);
    } else {
      UnlinkGone(s, t, n, s');
    }
  }

  lemma UnlinkGone(s: State, t: ThreadId, n: NodeId, s': State)
    requires Inv(s) && t in s.threads && s.threads[t] == Deleting(n) && n in s.ring && n in s.nodes
    requires Core(s') && s'.ring == RemoveAt(s.ring, IndexOf(s.ring, n)) && s'.nodes.Keys == s.nodes.Keys
    requires s'.holds == s.holds - {Thread(t)} && s'.threads == s.threads[t := Freeing(n)] && s'.torn == s.torn
    ensures Inv(s')
  {
    hide HoldsLinked, Exclusive, Conserved, MemoryOwned;
    LocalThreads(s.threads, s.holds, s'.holds, t, Freeing(n));
    UnlinkMemory(s.ring, s.nodes.Keys, s.threads, t, n);
  }

  lemma FreeMemory(ring: seq<NodeId>, heap: set<NodeId>, threads: map<ThreadId, Pc>, t: ThreadId)
    requires MemoryOwned(ring, heap, threads) && t in threads && threads[t].Freeing?
    ensures MemoryOwned(ring, heap - {threads[t].node}, threads[t := Idle])
  {
    var threads' := threads[t := Idle];
    forall m | m in heap - {threads[t].node} && m !in ring
      ensures exists u :: u in threads' && threads'[u] == Freeing(m)
    {
      var u :| u in threads && threads[u] == Freeing(m);
      assert u in threads' && threads'[u] == Freeing(m);
    }
  }

  lemma FreeInv(s: State, t: ThreadId)
    requires t in s.threads && s.threads[t].Freeing? && Inv(s)
    ensures Inv(FreeStep(s, t))
  {
    hide HoldsLinked, Exclusive;
    var n, s' := s.threads[t].node, FreeStep(s, t);
    assert Accounted(s.holds, t, s.threads[t]);
    LocalThreads(s.threads, s.holds, s.holds, t, Idle);
    FreeMemory(s.ring, s.nodes.Keys, s.threads, t);
    assert n !in s.ring;
    hide ThreadsAccounted, MemoryOwned;
    assert s'.nodes.Keys == s.nodes.Keys - {n};
  }

  lemma DeleteNodesHolds(s: State, keepSurvivor: bool)
    requires Core(s)
    ensures HoldsLinked(DeleteNodesStep(s, keepSurvivor).ring, s.holds)
  {
    forall w | w in s.holds
      ensures s.holds[w].node in DeleteNodesStep(s, keepSurvivor).ring
    {
      var n := s.holds[w].node;
      assert n in s.ring && n in s.nodes;
      if !IsHeld(s.nodes[n]) {
        IdleHasNoHolder(s, n);
      }
    }
  }

  lemma DeleteNodesMemory(s: State, keepSurvivor: bool)
    requires RingAllocated(s.ring, s.nodes) && MemoryOwned(s.ring, s.nodes.Keys, s.threads)
    ensures MemoryOwned(DeleteNodesStep(s, keepSurvivor).ring, DeleteNodesStep(s, keepSurvivor).nodes.Keys, s.threads)
  {
  }

  /** The bulk delete strands no handle and no cursor; whether it tears the ring is another matter. */
  lemma DeleteNodesInv(s: State, keepSurvivor: bool)
    requires Inv(s) && Grounded(s)
    ensures Inv(DeleteNodesStep(s, keepSurvivor)) <==> !Tears(s, DeleteNodes(keepSurvivor))
  {
    hide Exclusive, ThreadsAccounted;
    DeleteNodesHolds(s, keepSurvivor);
    DeleteNodesMemory(s, keepSurvivor);
    KeepKeeps(s.ring, HeldNodes(s));
    hide HoldsLinked, Keep, MemoryOwned, LosesSurvivor, HeldFlags;
  }

  // ---------- runs ----------

  lemma SearchStepInv(s: State, a: Action)
    requires Inv(s) && Grounded(s) && Enabled(s, a) && (a.StartSearch? || a.SearchMiss? || a.SearchHit?)
    ensures Inv(Apply(s, a))
  {
    hide Core, MemoryOwned, ThreadsAccounted, StartSearchStep, SearchMissStep, SearchHitStep;
    match a {
      case StartSearch(t, tag, deleting) => StartSearchInv(s, t, tag, deleting);
      case SearchMiss(t) => SearchMissInv(s, t);
      case SearchHit(t, h) => SearchHitInv(s, t, h);
    }
  }

  lemma IndexStepInv(s: State, a: Action)
    requires Inv(s) && Grounded(s) && Enabled(s, a)
    requires a.StartIndex? || a.IndexAdvance? || a.IndexCheck? || a.IndexGrant?
    ensures Inv(Apply(s, a)) <==> !Misread(s, a)
  {
    hide Core, MemoryOwned, ThreadsAccounted, StartIndexStep, IndexAdvanceStep, IndexCheckStep, IndexGrantStep;
    match a {
      case StartIndex(t, k, tag) => StartIndexInv(s, t, k, tag);
      case IndexAdvance(t) => IndexAdvanceInv(s, t);
      case IndexCheck(t, h) => IndexCheckInv(s, t, h);
      case IndexGrant(t, h) => IndexGrantInv(s, t, h);
    }
  }

  lemma RingStepInv(s: State, a: Action)
    requires Inv(s) && Grounded(s) && Enabled(s, a)
    requires a.InsertHead? || a.InsertBeside? || a.Unlink? || a.Free? || a.DeleteNodes?
    ensures Inv(Apply(s, a)) <==> !Tears(s, a)
  {
    hide LosesSurvivor, HeldFlags, Core, MemoryOwned, ThreadsAccounted;
    hide InsertStep, UnlinkStep, FreeStep, DeleteNodesStep;
    match a {
      case InsertHead(n) => InsertInv(s, 0, n);
      case InsertBeside(at, before, n) =>
        InsertInv(s, IndexOf(s.ring, s.holds[Client(at)].node) + if before then 0 else 1, n);
      case Unlink(t) => UnlinkInv(s, t);
      case Free(t) => FreeInv(s, t);
      case DeleteNodes(keepSurvivor) => DeleteNodesInv(s, keepSurvivor);
    }
  }

  lemma NextStepInv(s: State, a: Action)
    requires Inv(s) && Grounded(s) && Enabled(s, a) && a.GetNext?
    ensures Inv(Apply(s, a))
  {
    hide Core, MemoryOwned, ThreadsAccounted, GetNextStep;
    var from := if a.fromHead then AtHead else AtNode(IndexOf(s.ring, s.holds[Client(a.at)].node));
    GetNextInv(s, from, a.forward, a.skip, a.tag, a.h);
  }

  /** Any action preserves the invariant, except exactly the misread of FindNodeNum and the tearing bulk delete. */
  lemma StepInv(s: State, a: Action)
    requires Inv(s) && Grounded(s) && Enabled(s, a)
    ensures Inv(Apply(s, a)) <==> !Slips(s, a)
  {
    hide LosesSurvivor, HeldFlags, Core, MemoryOwned, ThreadsAccounted, Grounded;
    match a {
      case StartSearch(_, _, _) => SearchStepInv(s, a);
      case SearchMiss(_) => SearchStepInv(s, a);
      case SearchHit(_, _) => SearchStepInv(s, a);
      case StartIndex(_, _, _) => IndexStepInv(s, a);
      case IndexAdvance(_) => IndexStepInv(s, a);
      case IndexCheck(_, _) => IndexStepInv(s, a);
      case IndexGrant(_, _) => IndexStepInv(s, a);
      case GetPermission(at, tag, h) => GetPermissionInv(s, at, tag, h);
      case Release(h) => ReleaseInv(s, h);
      case GetNext(fromHead, at, forward, skip, tag, h) => NextStepInv(s, a);
      case _ => RingStepInv(s, a);
    }
  }
}
