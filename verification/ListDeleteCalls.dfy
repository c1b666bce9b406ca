/** Whole calls of DeleteNodeSW and DeleteNodeMW as uninterrupted sections of one thread, begun in any state of any safe
    run. */
module ListDeleteCalls {
  import opened Sequences
  import opened ListRules
  import opened ListProtocol
  import opened ListSafety
  import opened ListRuns
  import opened ListAlone
  import opened ListCalls

  lemma MayMiss(p: State, t: ThreadId)
    requires t in p.threads && p.threads[t].Searching?
    ensures var a := SearchMiss(t);
      Enabled(p, a) && !Slips(p, a) && (Grounded(p) ==> Apply(p, a) == SearchMissStep(p, t))
  {
    hide SearchMissStep;
  }

  lemma BeginsSearch(s: State, t: ThreadId, tag: Tag)
    requires Inv(s) && CanSearch(s, t) && Ready(s.threads[t])
    ensures Leads(s, [StartSearch(t, tag, true)], Inside(s, t, WriteTag, true, 0))
  {
    Starts(s, t, tag, true);
    hide Inv, Leads, CanSearch, Grounded, StartSearchStep, Inside;
    NoActions(s);
    assert [] + [StartSearch(t, tag, true)] == [StartSearch(t, tag, true)];
    Extends(s, [], s, StartSearch(t, tag, true), Inside(s, t, WriteTag, true, 0));
  }

  lemma MissesOn(s: State, acts: seq<Action>, t: ThreadId, i: nat)
    requires CanSearch(s, t) && i < |s.ring| && Leads(s, acts, Inside(s, t, WriteTag, true, i))
    ensures Leads(s, acts + [SearchMiss(t)],
                  if i + 1 == |s.ring| then Goto(s, t, Missed(i + 1, s.ring)) else Inside(s, t, WriteTag, true, i + 1))
  {
    hide *;
    Allocated(s, t);
    Misses(s, t, WriteTag, true, i);
    InsideIs(s, t, WriteTag, true, i);
    var p := Inside(s, t, WriteTag, true, i);
    MayMiss(p, t);
    Extends(s, acts, p, SearchMiss(t), SearchMissStep(p, t));
  }

  /** The search: `i` misses after the start the thread stands on node `i`. */
  lemma {:induction false} Searches(s: State, t: ThreadId, tag: Tag, i: nat)
    requires Inv(s) && CanSearch(s, t) && Ready(s.threads[t]) && i < |s.ring|
    ensures Leads(s, [StartSearch(t, tag, true)] + Times(i, SearchMiss(t)), Inside(s, t, WriteTag, true, i))
  {
    hide *;
    Allocated(s, t);
    var start, miss := [StartSearch(t, tag, true)], SearchMiss(t);
    if i == 0 {
      OnceMore(start, 0, miss);
      assert start + [] == start;
      BeginsSearch(s, t, tag);
    } else {
      Searches(s, t, tag, i - 1);
      OnceMore(start, i - 1, miss);
      MissesOn(s, start + Times(i - 1, miss), t, i - 1);
    }
  }

  /** The sections of a delete on a list of `n` nodes whose comparators accept node `k` first, or none if `k` is `n`;
      `free` says whether the counters of that node admit a writer. */
  function DeleteSections(t: ThreadId, tag: Tag, h: HandleId, k: nat, n: nat, free: bool): seq<Action> {
    var searched := [StartSearch(t, tag, true)] + Times(k, SearchMiss(t));
    if k >= n then searched
    else if !free then searched + [SearchHit(t, h)]
    else searched + [SearchHit(t, h)] + [Unlink(t)] + [Free(t)]
  }

  /** Where they leave the system. */
  function DeleteOutcome(s: State, t: ThreadId, k: nat): State
    requires k < |s.ring| ==> s.ring[k] in s.nodes
  {
    if s.ring == [] then Goto(s, t, Idle)
    else if k >= |s.ring| then Goto(s, t, Missed(k, s.ring))
    else if IsHeld(s.nodes[s.ring[k]]) then Goto(s, t, Idle)
    else Goto(s.(ring := RemoveAt(s.ring, k), nodes := s.nodes - {s.ring[k]}), t, Idle)
  }

  lemma HitsToDelete(s: State, t: ThreadId, k: nat, h: HandleId)
    requires CanSearch(s, t) && k < |s.ring|
    ensures SearchHitStep(Inside(s, t, WriteTag, true, k), t, h) ==
      if IsHeld(s.nodes[s.ring[k]]) then Goto(s, t, Idle)
      else Goto(Take(s, Thread(t), s.ring[k], WriteGrant), t, Deleting(s.ring[k]))
  {
    var n, pc := s.ring[k], Searching(s.ring[k], k, s.ring[..k + 1], WriteTag, true);
    Unpinned(s, t, n, pc);
    assert Goto(s, t, pc).nodes == s.nodes;
    GoesOn(s, t, pc, Idle);
    GoesOn(Take(s, Thread(t), n, WriteGrant), t, pc, Deleting(n));
    hide Drop, CanSearch;
  }

  lemma MayHit(p: State, t: ThreadId, h: HandleId)
    requires t in p.threads && p.threads[t].Searching? && Fresh(p, h)
    ensures var a := SearchHit(t, h);
      Enabled(p, a) && !Slips(p, a) && (Grounded(p) ==> Apply(p, a) == SearchHitStep(p, t, h))
  {
    hide SearchHitStep;
  }

  lemma InsideFresh(s: State, t: ThreadId, i: nat, h: HandleId)
    requires CanSearch(s, t) && i < |s.ring| && Fresh(s, h)
    ensures Fresh(Inside(s, t, WriteTag, true, i), h) && s.ring[i] in Inside(s, t, WriteTag, true, i).nodes
  {
  }

  lemma Asks(s: State, acts: seq<Action>, t: ThreadId, k: nat, h: HandleId)
    requires CanSearch(s, t) && Fresh(s, h) && k < |s.ring| && Leads(s, acts, Inside(s, t, WriteTag, true, k))
    ensures Leads(s, acts + [SearchHit(t, h)],
                  if IsHeld(s.nodes[s.ring[k]]) then Goto(s, t, Idle)
                  else Goto(Take(s, Thread(t), s.ring[k], WriteGrant), t, Deleting(s.ring[k])))
  {
    hide *;
    Allocated(s, t);
    InsideIs(s, t, WriteTag, true, k);
    InsideFresh(s, t, k, h);
    HitsToDelete(s, t, k, h);
    var p := Inside(s, t, WriteTag, true, k);
    MayHit(p, t, h);
    Extends(s, acts, p, SearchHit(t, h), SearchHitStep(p, t, h));
  }

  lemma Ungranted(s: State, t: ThreadId, n: NodeId, pc: Pc)
    requires n in s.nodes && Thread(t) !in s.holds
    ensures Drop(Goto(Take(s, Thread(t), n, WriteGrant), t, pc), Thread(t), n, WriteGrant) == Goto(s, t, pc)
  {
    var taken := Take(s, Thread(t), n, WriteGrant);
    assert taken.nodes[n := s.nodes[n]] == s.nodes;
    assert taken.holds - {Thread(t)} == s.holds;
  }

  lemma UnlinkIs(s: State, t: ThreadId, k: nat)
    requires CanSearch(s, t) && k < |s.ring| && !IsHeld(s.nodes[s.ring[k]])
    ensures var p := Goto(Take(s, Thread(t), s.ring[k], WriteGrant), t, Deleting(s.ring[k]));
      && t in p.threads && p.threads[t] == Deleting(s.ring[k]) && s.ring[k] in p.ring && s.ring[k] in p.nodes
      && UnlinkStep(p, t) == Goto(s.(ring := RemoveAt(s.ring, k)), t, Freeing(s.ring[k]))
  {
    var n := s.ring[k];
    Ungranted(s, t, n, Deleting(n));
    IndexOfAt(s.ring, k);
    hide Drop, RemoveAt, IndexOf, IsHeld;
    assert s.threads[t := Deleting(n)][t := Freeing(n)] == s.threads[t := Freeing(n)];
  }

  lemma MayUnlink(p: State, t: ThreadId)
    requires t in p.threads && p.threads[t].Deleting?
    ensures var a := Unlink(t);
      Enabled(p, a) && !Slips(p, a) && (Grounded(p) ==> Apply(p, a) == UnlinkStep(p, t))
  {
    hide UnlinkStep;
  }

  lemma Unlinks(s: State, acts: seq<Action>, t: ThreadId, k: nat)
    requires CanSearch(s, t) && k < |s.ring| && !IsHeld(s.nodes[s.ring[k]])
    requires Leads(s, acts, Goto(Take(s, Thread(t), s.ring[k], WriteGrant), t, Deleting(s.ring[k])))
    ensures Leads(s, acts + [Unlink(t)], Goto(s.(ring := RemoveAt(s.ring, k)), t, Freeing(s.ring[k])))
  {
    hide *;
    Allocated(s, t);
    UnlinkIs(s, t, k);
    var p := Goto(Take(s, Thread(t), s.ring[k], WriteGrant), t, Deleting(s.ring[k]));
    MayUnlink(p, t);
    Extends(s, acts, p, Unlink(t), UnlinkStep(p, t));
  }

  lemma Frees(s: State, acts: seq<Action>, t: ThreadId, k: nat)
    requires CanSearch(s, t) && k < |s.ring|
    requires Leads(s, acts, Goto(s.(ring := RemoveAt(s.ring, k)), t, Freeing(s.ring[k])))
    ensures Leads(s, acts + [Free(t)], Goto(s.(ring := RemoveAt(s.ring, k), nodes := s.nodes - {s.ring[k]}), t, Idle))
  {
    hide Leads, Grounded, RemoveAt;
    var n := s.ring[k];
    var p, e := Goto(s.(ring := RemoveAt(s.ring, k)), t, Freeing(n)),
                Goto(s.(ring := RemoveAt(s.ring, k), nodes := s.nodes - {n}), t, Idle);
    assert s.threads[t := Freeing(n)][t := Idle] == s.threads[t := Idle];
    Extends(s, acts, p, Free(t), e);
  }

  lemma NothingToDelete(s: State, t: ThreadId, tag: Tag, h: HandleId)
    requires Inv(s) && t in s.threads && Ready(s.threads[t]) && s.ring == []
    ensures Leads(s, DeleteSections(t, tag, h, 0, 0, false), DeleteOutcome(s, t, 0))
  {
    hide Inv, Leads;
    NoActions(s);
    assert [] + [StartSearch(t, tag, true)] == [StartSearch(t, tag, true)] + Times(0, SearchMiss(t));
    Extends(s, [], s, StartSearch(t, tag, true), Goto(s, t, Idle));
  }

  lemma DeleteSectionsAre(s: State, t: ThreadId, tag: Tag, h: HandleId, k: nat)
    requires s.ring != [] && k <= |s.ring| && forall j :: 0 <= j < |s.ring| ==> s.ring[j] in s.nodes
    ensures var free := k < |s.ring| && !IsHeld(s.nodes[s.ring[k]]);
      var acts, e := DeleteSections(t, tag, h, k, |s.ring|, free), DeleteOutcome(s, t, k);
      var start := [StartSearch(t, tag, true)] + Times(k, SearchMiss(t));
      if k == |s.ring| then acts == start && e == Goto(s, t, Missed(k, s.ring))
      else if !free then acts == start + [SearchHit(t, h)] && e == Goto(s, t, Idle)
      else
        && acts == start + [SearchHit(t, h)] + [Unlink(t)] + [Free(t)]
        && e == Goto(s.(ring := RemoveAt(s.ring, k), nodes := s.nodes - {s.ring[k]}), t, Idle)
  {
    hide Goto, Times, IsHeld, RemoveAt;
  }

  lemma DeleteLeads(s: State, t: ThreadId, tag: Tag, h: HandleId, k: nat)
    requires Inv(s) && CanSearch(s, t) && Ready(s.threads[t]) && Fresh(s, h) && k <= |s.ring|
    ensures k < |s.ring| ==> s.ring[k] in s.nodes
    ensures var free := k < |s.ring| && !IsHeld(s.nodes[s.ring[k]]);
      Leads(s, DeleteSections(t, tag, h, k, |s.ring|, free), DeleteOutcome(s, t, k))
  {
    hide *;
    var n, start, miss := |s.ring|, [StartSearch(t, tag, true)], SearchMiss(t);
    Allocated(s, t);
    DeleteSectionsAre(s, t, tag, h, k);
    if k == n {
      Searches(s, t, tag, n - 1);
      MissesOn(s, start + Times(n - 1, miss), t, n - 1);
      OnceMore(start, n - 1, miss);
    } else {
      var searched := start + Times(k, miss);
      Searches(s, t, tag, k);
      Asks(s, searched, t, k, h);
      if !IsHeld(s.nodes[s.ring[k]]) {
        Unlinks(s, searched + [SearchHit(t, h)], t, k);
        Frees(s, searched + [SearchHit(t, h)] + [Unlink(t)], t, k);
      }
    }
  }

  /** In any state of any safe run: the sections of a delete that nobody interrupts, begun by a thread outside every
      call, whose comparators accept node `k` of the ring first or, if `k` is its length, none. */
  lemma DeleteCallEnds(run: seq<State>, runActs: seq<Action>, i: nat, t: ThreadId, tag: Tag, h: HandleId, k: nat)
    requires IsRun(run, runActs) && NoSlip(run, runActs) && i < |run| && k <= |run[i].ring|
    requires t in run[i].threads && Ready(run[i].threads[t]) && Fresh(run[i], h)
    ensures var s := run[i];
      && (k < |s.ring| ==> s.ring[k] in s.nodes)
      && var free := k < |s.ring| && !IsHeld(s.nodes[s.ring[k]]);
         Leads(s, DeleteSections(t, tag, h, k, |s.ring|, free), DeleteOutcome(s, t, k))
  {
    RunSafe(run, runActs);
    var s := run[i];
    assert Inv(s);
    hide *;
    if s.ring == [] {
      NothingToDelete(s, t, tag, h);
    } else {
      ReadyCanSearch(s, t);
      DeleteLeads(s, t, tag, h, k);
    }
  }

  /** Where it ends: exactly the first accepted node is unlinked and freed, if both its counters are zero; otherwise,
      and on a miss, ring and counters are as they were. Nobody's permission changes. */
  lemma DeleteReaches(s: State, t: ThreadId, k: nat)
    requires k <= |s.ring| && (k < |s.ring| ==> s.ring[k] in s.nodes)
    ensures var e := DeleteOutcome(s, t, k);
      && e.holds == s.holds && e.torn == s.torn
      && (forall u :: u in s.threads && u != t ==> u in e.threads && e.threads[u] == s.threads[u])
      && (e.threads[t].Missed? <==> k == |s.ring| && s.ring != []) && Ready(e.threads[t])
      && if k < |s.ring| && s.nodes[s.ring[k]].read <= 0 && s.nodes[s.ring[k]].write <= 0 then
           e.ring == s.ring[..k] + s.ring[k + 1..] && e.nodes == s.nodes - {s.ring[k]}
         else e.ring == s.ring && e.nodes == s.nodes
  {
  }

  /** The methods DeleteNodeSW and DeleteNodeMW leave the counters in which these sections end. */
  lemma MethodDeletes(s: State, t: ThreadId, k: nat)
    requires Distinct(s.ring) && (forall n :: n in s.ring ==> n in s.nodes) && k <= |s.ring|
    ensures var e := DeleteOutcome(s, t, k);
      && (forall n :: n in e.ring ==> n in e.nodes)
      && CountsOf(e) == if k < |s.ring| && CanGrant(CountsOf(s)[k], WriteTag) then RemoveAt(CountsOf(s), k)
                        else CountsOf(s)
  {
    DeleteReaches(s, t, k);
    var e := DeleteOutcome(s, t, k);
    hide DeleteOutcome;
    if k < |s.ring| && CanGrant(s.nodes[s.ring[k]], WriteTag) {
      RemoveAtMembers(s.ring, k);
      assert e.ring == RemoveAt(s.ring, k);
      assert forall j :: 0 <= j < |e.ring| ==> e.ring[j] == s.ring[if j < k then j else j + 1];
    }
  }
}
