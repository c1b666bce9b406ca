/** The actions of a search, taken by one thread with nobody else at work, come to what the methods FindSW and FindMW
    promise. */
module ListAlone {
  import opened Sequences
  import opened ListRules
  import opened ListProtocol
  import opened ListSafety
  import opened ListRuns
  import LinkedList
  import ListSearch

  /** `s` with thread `t` inside a search: on node `i`, pinned, the nodes before it compared. */
  function Inside(s: State, t: ThreadId, tag: Tag, deleting: bool, i: nat): State
    requires i < |s.ring| && s.ring[i] in s.nodes
  {
    Goto(Take(s, Thread(t), s.ring[i], Pin), t, Searching(s.ring[i], i, s.ring[..i + 1], tag, deleting))
  }

  /** The thread can begin a search: it is accounted for nothing, and the ring is one of allocated nodes. */
  ghost predicate CanSearch(s: State, t: ThreadId) {
    && t in s.threads && Thread(t) !in s.holds && s.ring != [] && Distinct(s.ring)
    && forall i :: 0 <= i < |s.ring| ==> s.ring[i] in s.nodes
  }

  lemma ReadyCanSearch(s: State, t: ThreadId)
    requires Inv(s) && t in s.threads && Ready(s.threads[t]) && s.ring != []
    ensures CanSearch(s, t)
  {
    hide Exclusive, Conserved, HoldsLinked, MemoryOwned;
    assert Accounted(s.holds, t, s.threads[t]);
  }

  lemma Starts(s: State, t: ThreadId, tag: Tag, deleting: bool)
    requires CanSearch(s, t)
    ensures StartSearchStep(s, t, tag, deleting) == Inside(s, t, if deleting then WriteTag else tag, deleting, 0)
  {
    assert s.ring[..1] == [s.ring[0]];
  }

  /** Giving the pin back undoes it. */
  lemma Unpinned(s: State, t: ThreadId, n: NodeId, pc: Pc)
    requires n in s.nodes && Thread(t) !in s.holds
    ensures Drop(Goto(Take(s, Thread(t), n, Pin), t, pc), Thread(t), n, Pin) == Goto(s, t, pc)
  {
    var taken := Take(s, Thread(t), n, Pin);
    assert taken.nodes[n := s.nodes[n]] == s.nodes;
    assert taken.holds - {Thread(t)} == s.holds;
  }

  lemma NextInRing(r: seq<NodeId>, i: nat)
    requires Distinct(r) && i < |r|
    ensures Successor(r, r[i]) == r[if i + 1 == |r| then 0 else i + 1]
    ensures Successor(r, r[i]) == r[0] <==> i + 1 == |r|
  {
    IndexOfAt(r, i);
    hide IndexOf;
  }

  lemma GoesOn(s: State, t: ThreadId, pc: Pc, pc': Pc)
    ensures Goto(Goto(s, t, pc), t, pc') == Goto(s, t, pc')
  {
    assert s.threads[t := pc][t := pc'] == s.threads[t := pc'];
  }

  lemma TakesOn(s: State, t: ThreadId, pc: Pc, n: NodeId)
    requires n in s.nodes
    ensures Take(Goto(s, t, pc), Thread(t), n, Pin) == Goto(Take(s, Thread(t), n, Pin), t, pc)
  {
  }

  lemma Misses(s: State, t: ThreadId, tag: Tag, deleting: bool, i: nat)
    requires CanSearch(s, t) && i < |s.ring|
    ensures Inside(s, t, tag, deleting, i).threads[t].cursor in s.ring
    ensures SearchMissStep(Inside(s, t, tag, deleting, i), t) ==
      if i + 1 == |s.ring| then Goto(s, t, Missed(i + 1, s.ring)) else Inside(s, t, tag, deleting, i + 1)
  {
    var pc := Searching(s.ring[i], i, s.ring[..i + 1], tag, deleting);
    Unpinned(s, t, s.ring[i], pc);
    NextInRing(s.ring, i);
    hide Drop, Successor, Distinct;
    if i + 1 == |s.ring| {
      assert s.ring[..i + 1] == s.ring;
      GoesOn(s, t, pc, Missed(i + 1, s.ring));
    } else {
      var next := s.ring[i + 1];
      assert s.ring[..i + 2] == s.ring[..i + 1] + [next];
      TakesOn(s, t, pc, next);
      GoesOn(Take(s, Thread(t), next, Pin), t, pc, Searching(next, i + 1, s.ring[..i + 2], tag, deleting));
    }
    hide Goto, Take;
  }

  lemma Hits(s: State, t: ThreadId, tag: Tag, i: nat, h: HandleId)
    requires CanSearch(s, t) && i < |s.ring|
    ensures SearchHitStep(Inside(s, t, tag, false, i), t, h) == Goto(TryGrant(s, Client(h), s.ring[i], tag), t, Idle)
  {
    Unpinned(s, t, s.ring[i], Searching(s.ring[i], i, s.ring[..i + 1], tag, false));
    hide Drop;
  }

  /** A call of FindSW or FindMW that nobody interrupts, from its first section to its last: it begins in `states[0]`,
      and `hits` marks the nodes its comparators accept. */
  ghost predicate Call(states: seq<State>, acts: seq<Action>, t: ThreadId, tag: Tag, hits: seq<bool>, h: HandleId) {
    && |states| == |acts| + 1 && |acts| > 1 && |hits| == |states[0].ring|
    && (forall m :: 0 <= m < |acts| ==> IsStep(states[m], acts[m], states[m + 1]))
    && acts[0] == StartSearch(t, tag, false)
    && (forall m :: 0 < m < |acts| ==> Compares(states[m], acts[m], t, hits, h))
    && (t in states[|acts|].threads ==> !states[|acts|].threads[t].Searching?)
  }

  ghost predicate Compares(s: State, a: Action, t: ThreadId, hits: seq<bool>, h: HandleId) {
    && t in s.threads && s.threads[t].Searching? && s.threads[t].index < |hits|
    && a == if hits[s.threads[t].index] then SearchHit(t, h) else SearchMiss(t)
  }

  lemma {:induction false} StandsAt(states: seq<State>, acts: seq<Action>, t: ThreadId, tag: Tag, hits: seq<bool>,
                                    h: HandleId, m: nat)
    requires Call(states, acts, t, tag, hits, h) && CanSearch(states[0], t) && 0 < m < |acts|
    ensures m <= |hits| && states[m] == Inside(states[0], t, tag, false, m - 1) && m - 1 <= FirstTrue(hits)
  {
    hide Inside, StartSearchStep, SearchMissStep, SearchHitStep, TryGrant, Enabled, Grounded, CanSearch, FirstTrue;
    hide Take;
    var s := states[0];
    if m == 1 {
      assert IsStep(states[0], acts[0], states[1]);
      Starts(s, t, tag, false);
    } else {
      StandsAt(states, acts, t, tag, hits, h, m - 1);
      assert IsStep(states[m - 1], acts[m - 1], states[m]) && Compares(states[m - 1], acts[m - 1], t, hits, h);
      assert Compares(states[m], acts[m], t, hits, h);
      InsideIs(s, t, tag, false, m - 2);
      Hits(s, t, tag, m - 2, h);
      Misses(s, t, tag, false, m - 2);
      FirstTrueAfter(hits, m - 2);
    }
  }

  lemma InsideIs(s: State, t: ThreadId, tag: Tag, deleting: bool, i: nat)
    requires CanSearch(s, t) && i < |s.ring|
    ensures t in Inside(s, t, tag, deleting, i).threads && Inside(s, t, tag, deleting, i).ring == s.ring
    ensures forall n :: n in s.ring ==> n in Inside(s, t, tag, deleting, i).nodes
    ensures Inside(s, t, tag, deleting, i).threads[t] == Searching(s.ring[i], i, s.ring[..i + 1], tag, deleting)
  {
  }

  lemma FirstTrueAfter(flags: seq<bool>, i: nat)
    requires i <= FirstTrue(flags) && i < |flags|
    ensures if flags[i] then FirstTrue(flags) == i else i + 1 <= FirstTrue(flags)
  {
  }

  ghost function CountsOf(s: State): seq<Counters>
    requires forall n :: n in s.ring ==> n in s.nodes
  {
    seq(|s.ring|, i requires 0 <= i < |s.ring| => s.nodes[s.ring[i]])
  }

  /** Where such a call leaves the system if the first node its comparators accept is at position `k`. */
  function Outcome(s: State, t: ThreadId, tag: Tag, h: HandleId, k: nat): State
    requires k < |s.ring| ==> s.ring[k] in s.nodes
  {
    if k < |s.ring| then Goto(TryGrant(s, Client(h), s.ring[k], tag), t, Idle) else Goto(s, t, Missed(k, s.ring))
  }

  /** The section after which the thread is no longer searching. */
  lemma LastSection(s: State, t: ThreadId, tag: Tag, hits: seq<bool>, h: HandleId, i: nat, e: State)
    requires CanSearch(s, t) && |hits| == |s.ring| && i < |s.ring| && i <= FirstTrue(hits)
    requires hits[i] ==> e == Goto(TryGrant(s, Client(h), s.ring[i], tag), t, Idle)
    requires !hits[i] ==>
      e == if i + 1 == |s.ring| then Goto(s, t, Missed(i + 1, s.ring)) else Inside(s, t, tag, false, i + 1)
    requires t in e.threads ==> !e.threads[t].Searching?
    ensures e == Outcome(s, t, tag, h, FirstTrue(hits))
  {
    FirstTrueAfter(hits, i);
    if i + 1 < |s.ring| {
      InsideIs(s, t, tag, false, i + 1);
    }
    hide CanSearch, Inside, TryGrant, FirstTrue, Goto;
  }

  lemma NextSection(p: State, a: Action, e: State, t: ThreadId, hits: seq<bool>, h: HandleId)
    requires IsStep(p, a, e) && Compares(p, a, t, hits, h)
    ensures Grounded(p) && t in p.threads && p.threads[t].Searching? && p.threads[t].index < |hits|
    ensures e == if hits[p.threads[t].index] then SearchHitStep(p, t, h) else SearchMissStep(p, t)
  {
    hide SearchHitStep, SearchMissStep;
  }

  lemma CallEnds(states: seq<State>, acts: seq<Action>, t: ThreadId, tag: Tag, hits: seq<bool>, h: HandleId)
    requires Call(states, acts, t, tag, hits, h) && CanSearch(states[0], t)
    ensures states[|acts|] == Outcome(states[0], t, tag, h, FirstTrue(hits))
  {
    var s, m := states[0], |acts| - 1;
    assert IsStep(states[m], acts[m], states[m + 1]) && Compares(states[m], acts[m], t, hits, h);
    assert |hits| == |s.ring| && (t in states[m + 1].threads ==> !states[m + 1].threads[t].Searching?);
    hide *;
    StandsAt(states, acts, t, tag, hits, h, m);
    NextSection(states[m], acts[m], states[m + 1], t, hits, h);
    InsideIs(s, t, tag, false, m - 1);
    Hits(s, t, tag, m - 1, h);
    Misses(s, t, tag, false, m - 1);
    LastSection(s, t, tag, hits, h, m - 1, states[m + 1]);
  }

  lemma CallHasNodes(states: seq<State>, acts: seq<Action>, t: ThreadId, tag: Tag, hits: seq<bool>, h: HandleId)
    requires Call(states, acts, t, tag, hits, h)
    ensures states[0].ring != []
  {
    hide Enabled, Grounded;
    assert IsStep(states[0], acts[0], states[1]) && Compares(states[1], acts[1], t, hits, h);
  }

  lemma OutcomeCounts(s: State, t: ThreadId, tag: Tag, h: HandleId, k: nat)
    requires CanSearch(s, t) && k <= |s.ring|
    ensures var e := Outcome(s, t, tag, h, k);
      && e.ring == s.ring && (forall n :: n in e.ring ==> n in e.nodes)
      && CountsOf(e) == if k < |s.ring| && CanGrant(CountsOf(s)[k], tag)
                        then CountsOf(s)[k := WithGrant(CountsOf(s)[k], tag)] else CountsOf(s)
  {
    var e := Outcome(s, t, tag, h, k);
    forall i | 0 <= i < |s.ring|
      ensures e.nodes[e.ring[i]] ==
        if i == k && CanGrant(s.nodes[s.ring[k]], tag) then WithGrant(s.nodes[s.ring[k]], tag) else s.nodes[s.ring[i]]
    {
    }
  }

  /** In any state of any safe run, a call that a thread outside every call begins, and nobody interrupts, ends at the
      first node its comparators accept, grants it if its counters allow, and leaves every other counter, the ring and
      all other threads as they were. */
  lemma CallFinds(run: seq<State>, runActs: seq<Action>, i: nat, states: seq<State>, acts: seq<Action>,
                  t: ThreadId, tag: Tag, hits: seq<bool>, h: HandleId)
    requires IsRun(run, runActs) && NoSlip(run, runActs) && i < |run|
    requires Call(states, acts, t, tag, hits, h) && states[0] == run[i]
    requires t in run[i].threads && Ready(run[i].threads[t])
    ensures CanSearch(run[i], t) && states[|acts|] == Outcome(run[i], t, tag, h, FirstTrue(hits))
    ensures var s, e, k := run[i], states[|acts|], FirstTrue(hits);
      && e.ring == s.ring && (forall n :: n in e.ring ==> n in e.nodes)
      && CountsOf(e) == if k < |s.ring| && CanGrant(CountsOf(s)[k], tag)
                        then CountsOf(s)[k := WithGrant(CountsOf(s)[k], tag)] else CountsOf(s)
  {
    RunSafe(run, runActs);
    assert Inv(run[i]);
    CallHasNodes(states, acts, t, tag, hits, h);
    hide IsRun, NoSlip, Inv;
    ReadyCanSearch(run[i], t);
    CallEnds(states, acts, t, tag, hits, h);
    hide Call, CanSearch, Outcome, CountsOf, FirstTrue;
    CallLength(states, acts, t, tag, hits, h);
    OutcomeCounts(run[i], t, tag, h, FirstTrue(hits));
  }

  lemma CallLength(states: seq<State>, acts: seq<Action>, t: ThreadId, tag: Tag, hits: seq<bool>, h: HandleId)
    requires Call(states, acts, t, tag, hits, h)
    ensures |hits| == |states[0].ring|
  {
  }

  /** The methods and the transition system agree: whatever FindSW or FindMW may answer on a list with the counters of
      `s`, it leaves the counters in which the call ends, errs exactly if the call misses, and grants exactly if it
      grants. */
  lemma MethodAgrees(list: LinkedList.List, before: ListSearch.Snapshot, s: State, t: ThreadId, tag: Tag, h: HandleId,
                     k: nat, r: int, out: LinkedList.Node?)
    requires CanSearch(s, t) && before.counts == CountsOf(s) && Client(h) !in s.holds
    requires ListSearch.Found(list, before, k, tag, r, out)
    ensures k <= |s.ring|
    ensures var e := Outcome(s, t, tag, h, k);
      && (forall n :: n in e.ring ==> n in e.nodes)
      && ListSearch.Shows(list, before.(counts := CountsOf(e)))
      && (r == LinkedList.AII_ERROR <==> e.threads[t].Missed?)
      && (tag != OtherTag ==> (r == k && k < |s.ring| <==> Client(h) in e.holds))
  {
    hide ListSearch.Shows;
    assert |CountsOf(s)| == |s.ring|;
    OutcomeCounts(s, t, tag, h, k);
  }
}
