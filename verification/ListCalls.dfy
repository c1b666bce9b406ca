/** Whole calls of FindNodeNum as uninterrupted sections of one thread, begun in any state of any safe run: which node
    they reach and what they leave behind. */
module ListCalls {
  import opened Sequences
  import opened ListRules
  import opened ListProtocol
  import opened ListSafety
  import opened ListRuns
  import opened ListAlone
  import LinkedList
  import ListSearch

  /** Where the actions lead from `s`, one after the other with none between; nowhere if one of them may not happen. */
  ghost function After(s: State, acts: seq<Action>): Option<State> {
    if acts == [] then Some(s)
    else
      var m, a := After(s, acts[..|acts| - 1]), acts[|acts| - 1];
      if m.Some? && Grounded(m.value) && Enabled(m.value, a) then Some(Apply(m.value, a)) else None
  }

  /** They lead to `e`, and the invariant holds there. */
  ghost predicate Leads(s: State, acts: seq<Action>, e: State) {
    After(s, acts) == Some(e) && Inv(e)
  }

  lemma Extends(s: State, acts: seq<Action>, m: State, a: Action, e: State)
    requires Leads(s, acts, m) && Enabled(m, a) && !Slips(m, a)
    requires Grounded(m) ==> e == Apply(m, a)
    ensures Leads(s, acts + [a], e)
  {
    hide Inv, Grounded, Enabled, Apply, Slips;
    InvGrounded(m);
    StepInv(m, a);
    assert (acts + [a])[..|acts|] == acts;
  }

  function Times(n: nat, a: Action): seq<Action> {
    seq(n, _ => a)
  }

  lemma OnceMore(start: seq<Action>, n: nat, a: Action)
    ensures start + Times(n, a) + [a] == start + Times(n + 1, a)
    ensures Times(0, a) == []
  {
  }

  // ---------- FindNodeNum ----------

  /** Inside FindNodeNum: on node `i`, pinned, with `remaining` more steps to go. */
  function Standing(s: State, t: ThreadId, tag: Tag, i: nat, remaining: nat): State
    requires i < |s.ring| && s.ring[i] in s.nodes
  {
    Goto(Take(s, Thread(t), s.ring[i], Pin), t, Counting(s.ring[i], remaining, tag))
  }

  lemma StandingIs(s: State, t: ThreadId, tag: Tag, i: nat, remaining: nat)
    requires CanSearch(s, t) && i < |s.ring|
    ensures var p := Standing(s, t, tag, i, remaining);
      && t in p.threads && p.threads[t] == Counting(s.ring[i], remaining, tag) && p.ring == s.ring
      && s.ring[i] in s.ring && (forall n :: n in p.ring ==> n in p.nodes)
  {
  }

  lemma Steps(s: State, t: ThreadId, tag: Tag, i: nat, remaining: nat)
    requires CanSearch(s, t) && i < |s.ring| && remaining > 0
    ensures var p := Standing(s, t, tag, i, remaining);
      && t in p.threads && p.threads[t].Counting? && p.threads[t].remaining > 0 && p.threads[t].cursor in p.ring
      && (forall n :: n in p.ring ==> n in p.nodes)
      && IndexAdvanceStep(p, t) == if i + 1 == |s.ring| then Goto(s, t, Wrapped(s.ring[0], tag))
                                   else Standing(s, t, tag, i + 1, remaining - 1)
  {
    var pc := Counting(s.ring[i], remaining, tag);
    StandingIs(s, t, tag, i, remaining);
    Unpinned(s, t, s.ring[i], pc);
    NextInRing(s.ring, i);
    hide Drop, Successor, Distinct;
    if i + 1 == |s.ring| {
      GoesOn(s, t, pc, Wrapped(s.ring[0], tag));
    } else {
      var next := s.ring[i + 1];
      TakesOn(s, t, pc, next);
      GoesOn(Take(s, Thread(t), next, Pin), t, pc, Counting(next, remaining - 1, tag));
    }
    hide Goto, Take;
  }

  /** The loop: `i` steps after the start the thread stands on node `i`. */
  lemma {:induction false} Counts(s: State, t: ThreadId, k: nat, tag: Tag, i: nat)
    requires Inv(s) && CanSearch(s, t) && Ready(s.threads[t]) && i <= k && i < |s.ring|
    ensures var acts, e := [StartIndex(t, k, tag)] + Times(i, IndexAdvance(t)), Standing(s, t, tag, i, k - i);
      Leads(s, acts, e)
  {
    hide *;
    Allocated(s, t);
    var start, advance := [StartIndex(t, k, tag)], IndexAdvance(t);
    if i == 0 {
      OnceMore(start, 0, advance);
      assert start + [] == start;
      Begins(s, t, k, tag);
    } else {
      Counts(s, t, k, tag, i - 1);
      OnceMore(start, i - 1, advance);
      StepsOn(s, start + Times(i - 1, advance), t, tag, i - 1, k - i + 1);
    }
  }

  lemma Allocated(s: State, t: ThreadId)
    requires CanSearch(s, t)
    ensures t in s.threads && s.ring != [] && forall j :: 0 <= j < |s.ring| ==> s.ring[j] in s.nodes
  {
  }

  lemma NoActions(s: State)
    requires Inv(s)
    ensures Leads(s, [], s)
  {
  }

  lemma StartsCounting(s: State, t: ThreadId, k: nat, tag: Tag)
    requires CanSearch(s, t) && Ready(s.threads[t])
    ensures StartIndexStep(s, t, k, tag) == Standing(s, t, tag, 0, k)
    ensures Enabled(s, StartIndex(t, k, tag)) && !Slips(s, StartIndex(t, k, tag))
  {
  }

  lemma Begins(s: State, t: ThreadId, k: nat, tag: Tag)
    requires Inv(s) && CanSearch(s, t) && Ready(s.threads[t])
    ensures Leads(s, [StartIndex(t, k, tag)], Standing(s, t, tag, 0, k))
  {
    StartsCounting(s, t, k, tag);
    hide Inv, Standing, Leads, CanSearch, Grounded, Enabled, Slips, StartIndexStep;
    NoActions(s);
    assert [] + [StartIndex(t, k, tag)] == [StartIndex(t, k, tag)];
    Extends(s, [], s, StartIndex(t, k, tag), Standing(s, t, tag, 0, k));
  }

  lemma MayAdvance(p: State, t: ThreadId)
    requires t in p.threads && p.threads[t].Counting? && p.threads[t].remaining > 0
    ensures var a := IndexAdvance(t);
      Enabled(p, a) && !Slips(p, a) && (Grounded(p) ==> Apply(p, a) == IndexAdvanceStep(p, t))
  {
    hide IndexAdvanceStep;
  }

  lemma StepsOn(s: State, acts: seq<Action>, t: ThreadId, tag: Tag, i: nat, remaining: nat)
    requires CanSearch(s, t) && i < |s.ring| && remaining > 0
    requires Leads(s, acts, Standing(s, t, tag, i, remaining))
    ensures var e := if i + 1 == |s.ring| then Goto(s, t, Wrapped(s.ring[0], tag))
                     else Standing(s, t, tag, i + 1, remaining - 1);
      Leads(s, acts + [IndexAdvance(t)], e)
  {
    hide *;
    Allocated(s, t);
    Steps(s, t, tag, i, remaining);
    var p := Standing(s, t, tag, i, remaining);
    MayAdvance(p, t);
    Extends(s, acts, p, IndexAdvance(t), IndexAdvanceStep(p, t));
  }

  /** The sections of a call for index `k` on a list of `n` nodes. */
  function IndexSections(t: ThreadId, k: nat, tag: Tag, h: HandleId, n: nat): seq<Action> {
    if n == 0 then [StartIndex(t, k, tag)]
    else
      var tested := [StartIndex(t, k, tag)] + Times(if k < n then k else n, IndexAdvance(t)) + [IndexCheck(t, h)];
      if 0 < k < n then tested + [IndexGrant(t, h)] else tested
  }

  /** Where they leave the system. */
  function IndexOutcome(s: State, t: ThreadId, k: nat, tag: Tag, h: HandleId): State
    requires k < |s.ring| ==> s.ring[k] in s.nodes
  {
    if k >= |s.ring| then Goto(s, t, Idle)
    else if k == 0 then Goto(Take(s, Lost(h), s.ring[0], Pin), t, Idle)
    else Goto(TryGrant(s, Client(h), s.ring[k], tag), t, Idle)
  }

  lemma NoNodes(s: State, t: ThreadId, k: nat, tag: Tag, h: HandleId)
    requires Inv(s) && t in s.threads && Ready(s.threads[t]) && s.ring == []
    ensures Leads(s, IndexSections(t, k, tag, h, 0), IndexOutcome(s, t, k, tag, h))
  {
    hide Inv, Leads;
    NoActions(s);
    assert [] + [StartIndex(t, k, tag)] == [StartIndex(t, k, tag)];
    Extends(s, [], s, StartIndex(t, k, tag), Goto(s, t, Idle));
  }

  lemma PastTheLast(s: State, acts: seq<Action>, t: ThreadId, tag: Tag, h: HandleId)
    requires CanSearch(s, t) && Fresh(s, h) && Leads(s, acts, Goto(s, t, Wrapped(s.ring[0], tag)))
    ensures Leads(s, acts + [IndexCheck(t, h)], Goto(s, t, Idle))
  {
    hide Leads, Grounded;
    var p := Goto(s, t, Wrapped(s.ring[0], tag));
    GoesOn(s, t, Wrapped(s.ring[0], tag), Idle);
    Extends(s, acts, p, IndexCheck(t, h), Goto(s, t, Idle));
  }

  lemma AtTheHead(s: State, acts: seq<Action>, t: ThreadId, tag: Tag, h: HandleId)
    requires CanSearch(s, t) && Fresh(s, h) && Leads(s, acts, Standing(s, t, tag, 0, 0))
    ensures Leads(s, acts + [IndexCheck(t, h)], Goto(Take(s, Lost(h), s.ring[0], Pin), t, Idle))
  {
    hide Leads, Grounded;
    var p, e := Standing(s, t, tag, 0, 0), Goto(Take(s, Lost(h), s.ring[0], Pin), t, Idle);
    assert IndexCheckStep(p, t, h) == e by {
      assert p.holds - {Thread(t)} == s.holds;
    }
    Extends(s, acts, p, IndexCheck(t, h), e);
  }

  /** The thread has found its node and is about to ask for the permission. */
  function Found(s: State, t: ThreadId, tag: Tag, i: nat): State
    requires i < |s.ring| && s.ring[i] in s.nodes
  {
    Goto(Take(s, Thread(t), s.ring[i], Pin), t, Resolved(s.ring[i], tag))
  }

  lemma Resolves(s: State, acts: seq<Action>, t: ThreadId, tag: Tag, k: nat, h: HandleId)
    requires CanSearch(s, t) && Fresh(s, h) && 0 < k < |s.ring| && Leads(s, acts, Standing(s, t, tag, k, 0))
    ensures Leads(s, acts + [IndexCheck(t, h)], Found(s, t, tag, k))
  {
    hide Leads, Grounded;
    var p := Standing(s, t, tag, k, 0);
    GoesOn(Take(s, Thread(t), s.ring[k], Pin), t, Counting(s.ring[k], 0, tag), Resolved(s.ring[k], tag));
    Extends(s, acts, p, IndexCheck(t, h), Found(s, t, tag, k));
  }

  lemma Grants(s: State, acts: seq<Action>, t: ThreadId, tag: Tag, k: nat, h: HandleId)
    requires CanSearch(s, t) && Fresh(s, h) && k < |s.ring| && Leads(s, acts, Found(s, t, tag, k))
    ensures Leads(s, acts + [IndexGrant(t, h)], Goto(TryGrant(s, Client(h), s.ring[k], tag), t, Idle))
  {
    hide Leads, Grounded;
    var p, pc, n := Found(s, t, tag, k), Resolved(s.ring[k], tag), s.ring[k];
    Unpinned(s, t, n, pc);
    assert TryGrant(Goto(s, t, pc), Client(h), n, tag) == Goto(TryGrant(s, Client(h), n, tag), t, pc);
    GoesOn(TryGrant(s, Client(h), n, tag), t, pc, Idle);
    Extends(s, acts, p, IndexGrant(t, h), Goto(TryGrant(s, Client(h), n, tag), t, Idle));
  }

  lemma SectionsAre(s: State, t: ThreadId, k: nat, tag: Tag, h: HandleId)
    requires s.ring != [] && forall j :: 0 <= j < |s.ring| ==> s.ring[j] in s.nodes
    ensures var acts, e := IndexSections(t, k, tag, h, |s.ring|), IndexOutcome(s, t, k, tag, h);
      var start, advance, check := [StartIndex(t, k, tag)], IndexAdvance(t), IndexCheck(t, h);
      if k >= |s.ring| then acts == start + Times(|s.ring|, advance) + [check] && e == Goto(s, t, Idle)
      else if k == 0 then
        acts == start + Times(0, advance) + [check] && e == Goto(Take(s, Lost(h), s.ring[0], Pin), t, Idle)
      else
        && acts == start + Times(k, advance) + [check] + [IndexGrant(t, h)]
        && e == Goto(TryGrant(s, Client(h), s.ring[k], tag), t, Idle)
  {
    hide Goto, Take, TryGrant, Times;
  }

  lemma SectionsLead(s: State, t: ThreadId, k: nat, tag: Tag, h: HandleId)
    requires Inv(s) && CanSearch(s, t) && Ready(s.threads[t]) && Fresh(s, h)
    ensures k < |s.ring| ==> s.ring[k] in s.nodes
    ensures Leads(s, IndexSections(t, k, tag, h, |s.ring|), IndexOutcome(s, t, k, tag, h))
  {
    hide *;
    var n := |s.ring|;
    Allocated(s, t);
    SectionsAre(s, t, k, tag, h);
    var start, advance := [StartIndex(t, k, tag)], IndexAdvance(t);
    if k >= n {
      Counts(s, t, k, tag, n - 1);
      StepsOn(s, start + Times(n - 1, advance), t, tag, n - 1, k - n + 1);
      OnceMore(start, n - 1, advance);
      PastTheLast(s, start + Times(n, advance), t, tag, h);
    } else {
      Counts(s, t, k, tag, k);
      if k == 0 {
        AtTheHead(s, start + Times(0, advance), t, tag, h);
      } else {
        Resolves(s, start + Times(k, advance), t, tag, k, h);
        Grants(s, start + Times(k, advance) + [IndexCheck(t, h)], t, tag, k, h);
      }
    }
  }

  // ---------- no other sections ----------

  predicate IsIndexAct(a: Action, t: ThreadId, h: HandleId) {
    a == IndexAdvance(t) || a == IndexCheck(t, h) || a == IndexGrant(t, h)
  }

  /** A call of FindNodeNum that nobody interrupts, from its first section to its return. */
  ghost predicate IndexCall(s: State, acts: seq<Action>, e: State, t: ThreadId, k: nat, tag: Tag, h: HandleId) {
    && After(s, acts) == Some(e) && acts != [] && acts[0] == StartIndex(t, k, tag)
    && (forall j :: 0 < j < |acts| ==> IsIndexAct(acts[j], t, h))
    && t in e.threads && e.threads[t].Idle?
  }

  lemma {:induction false} Prefix(s: State, acts: seq<Action>, j: nat)
    requires After(s, acts).Some? && j < |acts|
    ensures After(s, acts[..j]).Some? && After(s, acts[..j + 1]).Some?
    ensures Enabled(After(s, acts[..j]).value, acts[j])
    decreases |acts|
  {
    hide Grounded, Enabled, Apply;
    if j + 1 < |acts| {
      var before := acts[..|acts| - 1];
      Prefix(s, before, j);
      assert before[..j] == acts[..j] && before[..j + 1] == acts[..j + 1];
    } else {
      assert acts[..j + 1] == acts;
    }
  }

  /** A thread inside FindNodeNum has one section to go on with, and outside none. */
  lemma Forced(m: State, a: Action, b: Action, t: ThreadId, h: HandleId)
    requires Enabled(m, a) && IsIndexAct(a, t, h)
    ensures t in m.threads && !m.threads[t].Idle?
    ensures Enabled(m, b) && IsIndexAct(b, t, h) ==> a == b
  {
  }

  lemma {:induction false} SameSections(s: State, acts: seq<Action>, others: seq<Action>, e: State, e': State,
                                        t: ThreadId, k: nat, tag: Tag, h: HandleId, j: nat)
    requires IndexCall(s, acts, e, t, k, tag, h) && IndexCall(s, others, e', t, k, tag, h)
    requires 0 < j <= |acts| && j <= |others|
    ensures acts[..j] == others[..j]
  {
    hide Enabled, IsIndexAct, After;
    if j > 1 {
      SameSections(s, acts, others, e, e', t, k, tag, h, j - 1);
      Prefix(s, acts, j - 1);
      Prefix(s, others, j - 1);
      Forced(After(s, acts[..j - 1]).value, acts[j - 1], others[j - 1], t, h);
    }
  }

  lemma NoLonger(s: State, acts: seq<Action>, others: seq<Action>, e: State, e': State, t: ThreadId, k: nat, tag: Tag,
                 h: HandleId)
    requires IndexCall(s, acts, e, t, k, tag, h) && IndexCall(s, others, e', t, k, tag, h)
    ensures |acts| >= |others|
  {
    if |acts| < |others| {
      var j := |acts|;
      SameSections(s, acts, others, e, e', t, k, tag, h, j);
      hide Enabled, IsIndexAct, After;
      Prefix(s, others, j);
      assert others[..j] == acts[..j] == acts;
      Forced(e, others[j], others[j], t, h);
      assert false;
    }
  }

  lemma OneCall(s: State, acts: seq<Action>, others: seq<Action>, e: State, e': State, t: ThreadId, k: nat, tag: Tag,
                h: HandleId)
    requires IndexCall(s, acts, e, t, k, tag, h) && IndexCall(s, others, e', t, k, tag, h)
    ensures acts == others && e == e'
  {
    NoLonger(s, acts, others, e, e', t, k, tag, h);
    NoLonger(s, others, acts, e', e, t, k, tag, h);
    SameSections(s, acts, others, e, e', t, k, tag, h, |acts|);
    hide Enabled, IsIndexAct, After;
    assert acts[..|acts|] == acts && others[..|acts|] == others;
  }

  lemma LeadsIsCall(s: State, t: ThreadId, k: nat, tag: Tag, h: HandleId)
    requires k < |s.ring| ==> s.ring[k] in s.nodes
    requires Leads(s, IndexSections(t, k, tag, h, |s.ring|), IndexOutcome(s, t, k, tag, h))
    ensures IndexCall(s, IndexSections(t, k, tag, h, |s.ring|), IndexOutcome(s, t, k, tag, h), t, k, tag, h)
  {
    hide Inv, After, Take, TryGrant;
  }

  lemma SectionsCall(s: State, t: ThreadId, k: nat, tag: Tag, h: HandleId)
    requires Inv(s) && t in s.threads && Ready(s.threads[t]) && Fresh(s, h)
    ensures k < |s.ring| ==> s.ring[k] in s.nodes
    ensures IndexCall(s, IndexSections(t, k, tag, h, |s.ring|), IndexOutcome(s, t, k, tag, h), t, k, tag, h)
  {
    hide *;
    if s.ring == [] {
      NoNodes(s, t, k, tag, h);
    } else {
      ReadyCanSearch(s, t);
      Allocated(s, t);
      SectionsLead(s, t, k, tag, h);
    }
    LeadsIsCall(s, t, k, tag, h);
  }

  /** In any state of any safe run: a call of FindNodeNum for index `k`, begun by a thread outside every call and
      interrupted by nobody, takes its sections in one way only and ends in one way only. */
  lemma IndexCallEnds(run: seq<State>, runActs: seq<Action>, i: nat, t: ThreadId, k: nat, tag: Tag, h: HandleId)
    requires IsRun(run, runActs) && NoSlip(run, runActs) && i < |run|
    requires t in run[i].threads && Ready(run[i].threads[t]) && Fresh(run[i], h)
    ensures var s := run[i];
      && (k < |s.ring| ==> s.ring[k] in s.nodes)
      && IndexCall(s, IndexSections(t, k, tag, h, |s.ring|), IndexOutcome(s, t, k, tag, h), t, k, tag, h)
      && forall acts, e :: IndexCall(s, acts, e, t, k, tag, h) ==>
           acts == IndexSections(t, k, tag, h, |s.ring|) && e == IndexOutcome(s, t, k, tag, h)
  {
    RunSafe(run, runActs);
    var s := run[i];
    assert Inv(s);
    hide *;
    SectionsCall(s, t, k, tag, h);
    var sections, outcome := IndexSections(t, k, tag, h, |s.ring|), IndexOutcome(s, t, k, tag, h);
    forall acts, e | IndexCall(s, acts, e, t, k, tag, h)
      ensures acts == sections && e == outcome
    {
      OneCall(s, acts, sections, e, outcome, t, k, tag, h);
    }
  }

  /** Where it ends: the list has not moved. For 0 < k < |ring| the client holds node `k` of the ring if the counters of
      that node allow it, one counter is one higher, and everything else is as it was. Past the end and on a refusal
      all is as it was. For k = 0 the temporary pin stays. */
  lemma IndexReaches(s: State, t: ThreadId, k: nat, tag: Tag, h: HandleId)
    requires k < |s.ring| ==> s.ring[k] in s.nodes
    ensures var e := IndexOutcome(s, t, k, tag, h);
      && e.ring == s.ring && e.torn == s.torn && e.threads == s.threads[t := Idle]
      && (k >= |s.ring| ==> e.nodes == s.nodes && e.holds == s.holds)
      && (k < |s.ring| ==> var n, c := s.ring[k], s.nodes[s.ring[k]];
           if k == 0 then
             e.nodes == s.nodes[n := Counters(c.read + 1, c.write)] && e.holds == s.holds[Lost(h) := Hold(n, Pin)]
           else if tag == ReadTag && c.write <= 0 then
             && e.nodes == s.nodes[n := Counters(c.read + 1, c.write)]
             && e.holds == s.holds[Client(h) := Hold(n, ReadGrant)]
           else if tag == WriteTag && c.read <= 0 && c.write <= 0 then
             && e.nodes == s.nodes[n := Counters(c.read, c.write + 1)]
             && e.holds == s.holds[Client(h) := Hold(n, WriteGrant)]
           else e.nodes == s.nodes && e.holds == s.holds)
  {
  }

  /** The method FindNodeNum leaves the counters in which this call ends, and grants exactly if it grants. */
  lemma MethodCounts(s: State, t: ThreadId, k: nat, tag: Tag, h: HandleId)
    requires Distinct(s.ring) && (forall n :: n in s.ring ==> n in s.nodes) && Fresh(s, h)
    ensures var e, r := IndexOutcome(s, t, k, tag, h), ListSearch.IndexResult(CountsOf(s), k, tag);
      && (forall n :: n in e.ring ==> n in e.nodes)
      && CountsOf(e) == r.counts
      && (tag != OtherTag ==> (Client(h) in e.holds <==> r.status == LinkedList.AII_OK))
  {
    IndexReaches(s, t, k, tag, h);
    hide IndexOutcome;
    var e, r := IndexOutcome(s, t, k, tag, h), ListSearch.IndexResult(CountsOf(s), k, tag);
    forall i | 0 <= i < |s.ring|
      ensures e.nodes[e.ring[i]] == r.counts[i]
    {
      assert k < |s.ring| ==> (s.ring[i] == s.ring[k] <==> i == k);
    }
  }
}
