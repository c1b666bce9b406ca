/** What the other actions of ListProtocol do to ring and counters, in every state of every safe run. */
module ListEffects {
  import opened Sequences
  import opened ListRules
  import opened ListProtocol
  import opened ListSafety
  import opened ListRuns
  import opened ListPins
  import opened ListGrants

  // ---------- insertion ----------

  /** The ring `r` with `n` right before or right behind the node at position `i`. */
  predicate Beside(r: seq<NodeId>, r': seq<NodeId>, i: nat, before: bool, n: NodeId)
    requires i < |r|
  {
    && |r'| == |r| + 1
    && (if before then r'[..i] == r[..i] && r'[i] == n && r'[i + 1..] == r[i..]
        else r'[..i + 1] == r[..i + 1] && r'[i + 1] == n && r'[i + 2..] == r[i + 1..])
  }

  lemma InsertedBeside(r: seq<NodeId>, i: nat, before: bool, n: NodeId)
    requires i < |r|
    ensures Beside(r, InsertAt(r, i + if before then 0 else 1, n), i, before, n)
  {
  }

  lemma InsertedAt(r: seq<NodeId>, i: nat, before: bool, n: NodeId)
    requires Distinct(r) && i < |r|
    ensures Beside(r, InsertAt(r, IndexOf(r, r[i]) + if before then 0 else 1, n), i, before, n)
  {
    hide *;
    IndexOfAt(r, i);
    InsertedBeside(r, i, before, n);
  }

  lemma InsertStepIs(s: State, a: Action)
    requires Grounded(s) && Enabled(s, a) && IsInsert(a)
    ensures var e := Apply(s, a);
      && a.n !in s.nodes && e.nodes == s.nodes[a.n := Counters(0, 0)] && e.holds == s.holds && e.threads == s.threads
      && (a.InsertHead? ==> e.ring == [a.n] + s.ring)
      && (a.InsertBeside? ==>
            && Client(a.at) in s.holds && s.holds[Client(a.at)].node in s.ring
            && e.ring == InsertAt(s.ring, IndexOf(s.ring, s.holds[Client(a.at)].node) + if a.before then 0 else 1, a.n))
  {
    hide Grounded, IndexOf;
  }

  /** A new node stands where it was asked for, with nobody on it; nothing else moves. */
  lemma Inserts(states: seq<State>, acts: seq<Action>, m: nat, i: nat)
    requires IsRun(states, acts) && NoSlip(states, acts) && m < |acts| && IsInsert(acts[m])
    ensures var s, e, a := states[m], states[m + 1], acts[m];
      && a.n !in s.nodes && e.nodes == s.nodes[a.n := Counters(0, 0)] && e.holds == s.holds && e.threads == s.threads
      && (a.InsertHead? ==> e.ring == [a.n] + s.ring)
      && (a.InsertBeside? ==>
            && Client(a.at) in s.holds && s.holds[Client(a.at)].node in s.ring
            && (i < |s.ring| && s.ring[i] == s.holds[Client(a.at)].node ==> Beside(s.ring, e.ring, i, a.before, a.n)))
  {
    hide NoSlip, Kinds, Inv, Distinct, IndexOf, InsertAt, Beside, Grounded, Enabled, Apply;
    RunFacts(states, acts, m);
    var s, a := states[m], acts[m];
    RingDistinct(s);
    InsertStepIs(s, a);
    if a.InsertBeside? && i < |s.ring| && s.ring[i] == s.holds[Client(a.at)].node {
      InsertedAt(s.ring, i, a.before, a.n);
    }
  }

  // ---------- the bulk delete ----------

  /** Exactly the nodes that somebody holds or pins stay, in their order and with their counters; the others are freed,
      and what awaits its own free outside the ring is left alone. */
  lemma Sweeps(states: seq<State>, acts: seq<Action>, m: nat, n: NodeId)
    requires IsRun(states, acts) && NoSlip(states, acts) && m < |acts| && acts[m].DeleteNodes?
    ensures var s, e := states[m], states[m + 1];
      && (n in e.ring <==> n in s.ring && HeldBySomebody(s, n))
      && (n in e.nodes <==> n in s.nodes && (n in s.ring ==> HeldBySomebody(s, n)))
      && (n in e.nodes ==> e.nodes[n] == s.nodes[n])
      && SameOrder(s.ring, e.ring) && Distinct(e.ring)
      && e.holds == s.holds && e.threads == s.threads
  {
    RunFacts(states, acts, m);
    var s, a := states[m], acts[m];
    hide IsRun, NoSlip, Kinds, ThreadsAccounted, MemoryOwned, HoldsLinked, Exclusive, Conserved, HeldBySomebody;
    hide Keep, LosesSurvivor, HeldFlags, SameOrder, Distinct;
    KeepKeeps(s.ring, HeldNodes(s)) by { RingDistinct(s); }
    if n in s.nodes {
      HeldIsHeld(s, n);
    }
  }

  // ---------- the second section of a delete ----------

  /** The node is unlinked if and only if nobody but the deleting thread holds or pins it; otherwise the delete is off
      and the list as it was. Either way the thread's write permission is given back. */
  lemma Unlinks(states: seq<State>, acts: seq<Action>, m: nat, i: nat)
    requires IsRun(states, acts) && NoSlip(states, acts) && m < |acts| && acts[m].Unlink?
    ensures var s, e, t := states[m], states[m + 1], acts[m].t;
      && t in s.threads && s.threads[t].Deleting? && t in e.threads
      && var n := s.threads[t].node;
         && n in s.nodes && e.nodes == s.nodes[n := Counters(s.nodes[n].read, s.nodes[n].write - 1)]
         && e.holds == s.holds - {Thread(t)}
         && (if HeldBeside(s, n, Thread(t)) then e.ring == s.ring && e.threads[t] == Idle
             else e.threads[t] == Freeing(n) && (i < |s.ring| && s.ring[i] == n ==> e.ring == RemoveAt(s.ring, i)))
  {
    RunFacts(states, acts, m);
    var s, t := states[m], acts[m].t;
    RingDistinct(s);
    hide IsRun, NoSlip, Kinds, MemoryOwned, Core, HeldBeside, Distinct, IndexOf, RemoveAt;
    assert Accounted(s.holds, t, s.threads[t]);
    var n := s.threads[t].node;
    assert Core(s) && n in s.ring && n in s.nodes;
    HeldApart(s, Thread(t), n);
    if i < |s.ring| && s.ring[i] == n {
      IndexOfAt(s.ring, i);
    }
  }

  // ---------- ReleasePermission ----------

  /** The client's holding ends, and one counter of its node is one lower. */
  lemma Releases(states: seq<State>, acts: seq<Action>, m: nat)
    requires IsRun(states, acts) && NoSlip(states, acts) && m < |acts| && acts[m].Release?
    ensures var s, e, h := states[m], states[m + 1], acts[m].h;
      && Client(h) in s.holds && e.ring == s.ring && e.threads == s.threads && e.holds == s.holds - {Client(h)}
      && var n := s.holds[Client(h)].node;
         && n in s.nodes
         && var c := s.nodes[n];
            e.nodes == s.nodes[n := if s.holds[Client(h)].kind == WriteGrant then Counters(c.read, c.write - 1)
                                    else Counters(c.read - 1, c.write)]
  {
    RunFacts(states, acts, m);
    hide IsRun, NoSlip, Kinds, ThreadsAccounted, MemoryOwned, Core;
    HolderCounts(states[m], Client(acts[m].h));
  }

  // ---------- the order of a walk ----------

  lemma AheadIs(r: seq<NodeId>, i: nat, j: nat)
    requires i < |r|
    ensures var order, n := Candidates(r, AtNode(i)), |r|;
      && |order| == (if n == 1 then n else n - 1)
      && (j < |order| && n > 1 ==> order[j] == r[if i + 1 + j < n then i + 1 + j else i + 1 + j - n])
  {
  }

  lemma BehindIs(r: seq<NodeId>, i: nat, j: nat)
    requires i < |r|
    ensures var order, n := Candidates(Mirror(r), AtNode(MirrorIndex(i, |r|))), |r|;
      && |order| == (if n == 1 then n else n - 1)
      && (j < |order| && n > 1 ==> order[j] == r[if j + 1 <= i then i - 1 - j else i - 1 - j + n])
  {
    AheadIs(Mirror(r), MirrorIndex(i, |r|), j);
    hide Candidates;
  }

  /** From the list handle: every node in ring order or, backwards, the head and then the others from the last on. */
  lemma WalkFromHead(r: seq<NodeId>, forward: bool, j: nat)
    ensures var order, n := WalkOrder(r, AtHead, forward), |r|;
      |order| == n && (j < n ==> order[j] == r[if forward || j == 0 then j else n - j])
  {
  }

  /** From node `i`: all others in cyclic order, ahead or behind, and node `i` itself only if it is alone. */
  lemma WalkFromNode(r: seq<NodeId>, i: nat, forward: bool, j: nat)
    requires i < |r|
    ensures var order, n := WalkOrder(r, AtNode(i), forward), |r|;
      && |order| == (if n == 1 then n else n - 1)
      && (forward && j < n - 1 ==> order[j] == r[if i + 1 + j < n then i + 1 + j else i + 1 + j - n])
      && (!forward && j < n - 1 ==> order[j] == r[if j + 1 <= i then i - 1 - j else i - 1 - j + n])
  {
    hide Candidates, Mirror;
    if forward {
      AheadIs(r, i, j);
    } else {
      BehindIs(r, i, j);
    }
  }
}
