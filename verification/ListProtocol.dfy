/** The parallel list under any number of threads. Every mutex-protected section of list.c is one
    action; between two actions of a thread any other thread may act. Comparators run outside the
    mutex on a pinned node, so their verdict is the choice between SearchMiss and SearchHit. */
module ListProtocol {
  import opened Sequences
  import opened ListRules

  type NodeId = nat
  type ThreadId = nat
  type HandleId = nat

  /** Who accounts for one unit of a counter. */
  datatype Holder = Thread(t: ThreadId) | Client(h: HandleId) | Lost(h: HandleId)

  datatype Kind = Pin | ReadGrant | WriteGrant

  datatype Hold = Hold(node: NodeId, kind: Kind)

  /** Program counter of a thread, with its local variables CurrentNodePtr, NodeIndex and IndexNum. */
  datatype Pc =
    | Idle
      // FindSW, FindMW, or the search inside DeleteNodeSW and DeleteNodeMW; `seen` lists the compared nodes
    | Searching(cursor: NodeId, index: nat, seen: seq<NodeId>, tag: Tag, deleting: bool)
    | Missed(index: nat, seen: seq<NodeId>)
      // FindNodeNum: stepping, past the last node, and at the final section
    | Counting(cursor: NodeId, remaining: nat, tag: Tag)
    | Wrapped(cursor: NodeId, tag: Tag)
    | Resolved(cursor: NodeId, tag: Tag)
      // between the two sections of a delete, and between unlinking and free
    | Deleting(node: NodeId)
    | Freeing(node: NodeId)

  /** `ring` lists the linked nodes from EntriesList on; `nodes` maps every allocated node to its
      counters; `holds` is an account of the counters that the program itself does not keep; `torn` says
      that a link of the ring leads to freed memory. */
  datatype State = State(
    ring: seq<NodeId>,
    nodes: map<NodeId, Counters>,
    holds: map<Holder, Hold>,
    threads: map<ThreadId, Pc>,
    torn: bool)

  datatype Action =
    | StartSearch(t: ThreadId, tag: Tag, deleting: bool)
    | SearchMiss(t: ThreadId)
    | SearchHit(t: ThreadId, h: HandleId)
    | StartIndex(t: ThreadId, k: nat, tag: Tag)
    | IndexAdvance(t: ThreadId)
    | IndexCheck(t: ThreadId, h: HandleId)
    | IndexGrant(t: ThreadId, h: HandleId)
    | InsertHead(n: NodeId)
    | InsertBeside(at: HandleId, before: bool, n: NodeId)
    | Unlink(t: ThreadId)
    | Free(t: ThreadId)
    | DeleteNodes(keepSurvivor: bool)
    | GetPermission(at: HandleId, tag: Tag, h: HandleId)
    | Release(h: HandleId)
    | GetNext(fromHead: bool, at: HandleId, forward: bool, skip: bool, tag: Tag, h: HandleId)

  predicate Ready(pc: Pc) {
    pc.Idle? || pc.Missed?
  }

  predicate Pinned(pc: Pc) {
    pc.Searching? || pc.Counting? || pc.Resolved?
  }

  // ---------- counter updates ----------

  function Bump(c: Counters, k: Kind, d: int): Counters {
    if k == WriteGrant then c.(write := c.write + d) else c.(read := c.read + d)
  }

  function Take(s: State, w: Holder, n: NodeId, k: Kind): State
    requires n in s.nodes
  {
    s.(holds := s.holds[w := Hold(n, k)], nodes := s.nodes[n := Bump(s.nodes[n], k, 1)])
  }

  function Drop(s: State, w: Holder, n: NodeId, k: Kind): State
    requires n in s.nodes
  {
    s.(holds := s.holds - {w}, nodes := s.nodes[n := Bump(s.nodes[n], k, -1)])
  }

  function Goto(s: State, t: ThreadId, pc: Pc): State {
    s.(threads := s.threads[t := pc])
  }

  function GrantKind(tag: Tag): Kind {
    if tag == WriteTag then WriteGrant else ReadGrant
  }

  /** The final switch of the searches: deny, grant, or neither for an unknown tag. */
  function TryGrant(s: State, w: Holder, n: NodeId, tag: Tag): State
    requires n in s.nodes
  {
    if tag != OtherTag && CanGrant(s.nodes[n], tag) then Take(s, w, n, GrantKind(tag)) else s
  }

  function Successor(ring: seq<NodeId>, n: NodeId): NodeId
    requires n in ring
  {
    var i := IndexOf(ring, n);
    if i + 1 == |ring| then ring[0] else ring[i + 1]
  }

  predicate AtHeadOf(s: State, n: NodeId) {
    s.ring != [] && n == s.ring[0]
  }

  // ---------- the sections ----------

  /** list.c:322-336: pin the first node. */
  function StartSearchStep(s: State, t: ThreadId, tag: Tag, deleting: bool): State
    requires s.ring != [] ==> s.ring[0] in s.nodes
  {
    if s.ring == [] then Goto(s, t, Idle)
    else
      var c := s.ring[0];
      Goto(Take(s, Thread(t), c, Pin), t, Searching(c, 0, [c], if deleting then WriteTag else tag, deleting))
  }

  /** list.c:384-398: no match; release the pin, step, stop at the head or pin the next node. */
  function SearchMissStep(s: State, t: ThreadId): State
    requires t in s.threads && s.threads[t].Searching? && s.threads[t].cursor in s.ring
    requires forall n :: n in s.ring ==> n in s.nodes
  {
    var pc := s.threads[t];
    var s1 := Drop(s, Thread(t), pc.cursor, Pin);
    var next := Successor(s.ring, pc.cursor);
    if next == s.ring[0] then Goto(s1, t, Missed(pc.index + 1, pc.seen))
    else Goto(Take(s1, Thread(t), next, Pin), t, pc.(cursor := next, index := pc.index + 1, seen := pc.seen + [next]))
  }

  /** list.c:349-378: a match; release the pin and ask for the permission. A delete keeps its write
      permission in a handle of its own until the second section (list.c:940-946). */
  function SearchHitStep(s: State, t: ThreadId, h: HandleId): State
    requires t in s.threads && s.threads[t].Searching? && s.threads[t].cursor in s.nodes
  {
    var pc := s.threads[t];
    var s1 := Drop(s, Thread(t), pc.cursor, Pin);
    if pc.deleting then
      Goto(TryGrant(s1, Thread(t), pc.cursor, WriteTag), t,
           if CanGrant(s1.nodes[pc.cursor], WriteTag) then Deleting(pc.cursor) else Idle)
    else
      Goto(TryGrant(s1, Client(h), pc.cursor, pc.tag), t, Idle)
  }

  /** list.c:619-631. */
  function StartIndexStep(s: State, t: ThreadId, k: nat, tag: Tag): State
    requires s.ring != [] ==> s.ring[0] in s.nodes
  {
    if s.ring == [] then Goto(s, t, Idle)
    else Goto(Take(s, Thread(t), s.ring[0], Pin), t, Counting(s.ring[0], k, tag))
  }

  /** list.c:633-650: one round of the loop; a wrap leaves it without a pin. */
  function IndexAdvanceStep(s: State, t: ThreadId): State
    requires t in s.threads && s.threads[t].Counting? && s.threads[t].remaining > 0 && s.threads[t].cursor in s.ring
    requires forall n :: n in s.ring ==> n in s.nodes
  {
    var pc := s.threads[t];
    var s1 := Drop(s, Thread(t), pc.cursor, Pin);
    var next := Successor(s.ring, pc.cursor);
    if next == s.ring[0] then Goto(s1, t, Wrapped(next, pc.tag))
    else Goto(Take(s1, Thread(t), next, Pin), t, pc.(cursor := next, remaining := pc.remaining - 1))
  }

  /** list.c:652-655, read without the mutex: the cursor at the head means failure. After a normal end
      of the loop the pin is then never released; it is accounted for by a Lost holder. */
  function IndexCheckStep(s: State, t: ThreadId, h: HandleId): State
    requires t in s.threads && (s.threads[t].Counting? || s.threads[t].Wrapped?)
  {
    var pc := s.threads[t];
    if !AtHeadOf(s, pc.cursor) then Goto(s, t, Resolved(pc.cursor, pc.tag))
    else if pc.Wrapped? then Goto(s, t, Idle)
    else Goto(s.(holds := (s.holds - {Thread(t)})[Lost(h) := Hold(pc.cursor, Pin)]), t, Idle)
  }

  /** list.c:657-683. */
  function IndexGrantStep(s: State, t: ThreadId, h: HandleId): State
    requires t in s.threads && s.threads[t].Resolved? && s.threads[t].cursor in s.nodes
  {
    var pc := s.threads[t];
    Goto(TryGrant(Drop(s, Thread(t), pc.cursor, Pin), Client(h), pc.cursor, pc.tag), t, Idle)
  }

  function InsertStep(s: State, i: nat, n: NodeId): State
    requires i <= |s.ring|
  {
    s.(ring := InsertAt(s.ring, i, n), nodes := s.nodes[n := Counters(0, 0)])
  }

  /** list.c:826-873. */
  function InsertBesideStep(s: State, at: NodeId, before: bool, n: NodeId): State
    requires at in s.ring
  {
    InsertStep(s, IndexOf(s.ring, at) + if before then 0 else 1, n)
  }

  /** list.c:946-986: give the write permission back, look at the counters again, unlink. */
  function UnlinkStep(s: State, t: ThreadId): State
    requires t in s.threads && s.threads[t].Deleting? && s.threads[t].node in s.ring && s.threads[t].node in s.nodes
  {
    var n := s.threads[t].node;
    var s1 := Drop(s, Thread(t), n, WriteGrant);
    if IsHeld(s1.nodes[n]) then Goto(s1, t, Idle)
    else Goto(s1.(ring := RemoveAt(s.ring, IndexOf(s.ring, n))), t, Freeing(n))
  }

  /** list.c:988-992. */
  function FreeStep(s: State, t: ThreadId): State
    requires t in s.threads && s.threads[t].Freeing?
  {
    Goto(s.(nodes := s.nodes - {s.threads[t].node}), t, Idle)
  }

  function HeldNodes(s: State): set<NodeId> {
    set n | n in s.nodes && IsHeld(s.nodes[n])
  }

  ghost function HeldFlags(s: State): seq<bool> {
    seq(|s.ring|, i requires 0 <= i < |s.ring| => s.ring[i] in HeldNodes(s))
  }

  /** list.c:1154-1218: everything unheld is unlinked and freed inside one section. On the shapes on which
      line 1211 loses a survivor, unless `keepSurvivor`, the ring is torn: see LinkedList.List.DeleteNodes. */
  ghost function DeleteNodesStep(s: State, keepSurvivor: bool): State {
    s.(ring := Keep(s.ring, HeldNodes(s)),
       nodes := map n | n in s.nodes && (n !in s.ring || n in HeldNodes(s)) :: s.nodes[n],
       torn := s.torn || (!keepSurvivor && LosesSurvivor(HeldFlags(s))))
  }

  /** list.c:1413-1441. */
  function GetPermissionStep(s: State, n: NodeId, tag: Tag, h: HandleId): State
    requires n in s.nodes
  {
    TryGrant(s, Client(h), n, tag)
  }

  /** list.c:1314-1332: a counter that is not positive stays. */
  function ReleaseStep(s: State, h: HandleId): State
    requires Client(h) in s.holds && s.holds[Client(h)].node in s.nodes
  {
    var hold := s.holds[Client(h)];
    var c := s.nodes[hold.node];
    if (if hold.kind == WriteGrant then c.write > 0 else c.read > 0) then Drop(s, Client(h), hold.node, hold.kind)
    else s.(holds := s.holds - {Client(h)})
  }

  /** list.c:1544-1624 and 1684-1764: the first node to try, or the first free one when skipping. */
  function GetNextStep(s: State, from: Start, forward: bool, skip: bool, tag: Tag, h: HandleId): State
    requires from.AtNode? ==> from.i < |s.ring|
    requires forall n :: n in s.ring ==> n in s.nodes
  {
    var order := WalkOrder(s.ring, from, forward);
    var k := FirstTrue(seq(|order|, i requires 0 <= i < |order| =>
      order[i] in s.nodes && IsFreeFor(s.nodes[order[i]], tag)));
    if k < |order| && (skip || k == 0) then Take(s, Client(h), order[k], GrantKind(tag)) else s
  }

  function WalkOrder(ring: seq<NodeId>, from: Start, forward: bool): seq<NodeId>
    requires from.AtNode? ==> from.i < |ring|
  {
    if forward then Candidates(ring, from)
    else Candidates(Mirror(ring), if from.AtHead? then from else AtNode(MirrorIndex(from.i, |ring|)))
  }

  // ---------- the transition relation ----------

  predicate Running(s: State, t: ThreadId) {
    t in s.threads
  }

  predicate Owns(s: State, h: HandleId) {
    Client(h) in s.holds && s.holds[Client(h)].node in s.ring
  }

  predicate Fresh(s: State, h: HandleId) {
    Client(h) !in s.holds && Lost(h) !in s.holds
  }

  /** When an action may happen. Clients release only what they hold and pass only granted handles as
      positions; memory is allocated where nothing is allocated, possibly where a freed node was. */
  ghost predicate Enabled(s: State, a: Action) {
    match a
    case StartSearch(t, _, _) => Running(s, t) && Ready(s.threads[t])
    case SearchMiss(t) => Running(s, t) && s.threads[t].Searching?
    case SearchHit(t, h) => Running(s, t) && s.threads[t].Searching? && Fresh(s, h)
    case StartIndex(t, _, _) => Running(s, t) && Ready(s.threads[t])
    case IndexAdvance(t) => Running(s, t) && s.threads[t].Counting? && s.threads[t].remaining > 0
    case IndexCheck(t, h) =>
      && Running(s, t) && Fresh(s, h)
      && (s.threads[t].Wrapped? || (s.threads[t].Counting? && s.threads[t].remaining == 0))
    case IndexGrant(t, h) => Running(s, t) && s.threads[t].Resolved? && Fresh(s, h)
    case InsertHead(n) => n !in s.nodes
    case InsertBeside(at, _, n) => Owns(s, at) && n !in s.nodes
    case Unlink(t) => Running(s, t) && s.threads[t].Deleting?
    case Free(t) => Running(s, t) && s.threads[t].Freeing?
    case DeleteNodes(_) => true
    case GetPermission(at, _, h) => Owns(s, at) && Fresh(s, h)
    case Release(h) => Owns(s, h)
    case GetNext(fromHead, at, _, _, _, h) => s.ring != [] && (fromHead || Owns(s, at)) && Fresh(s, h)
  }

  /** Every pointer a thread is about to follow leads to allocated memory. */
  ghost predicate Grounded(s: State) {
    && !s.torn
    && (forall n :: n in s.ring ==> n in s.nodes)
    && (forall t :: t in s.threads ==> (Pinned(s.threads[t]) ==> s.threads[t].cursor in s.ring))
    && (forall t :: t in s.threads ==> (s.threads[t].Deleting? ==> s.threads[t].node in s.ring))
  }

  ghost function Apply(s: State, a: Action): State
    requires Grounded(s) && Enabled(s, a)
  {
    match a
    case StartSearch(t, tag, deleting) => StartSearchStep(s, t, tag, deleting)
    case SearchMiss(t) => SearchMissStep(s, t)
    case SearchHit(t, h) => SearchHitStep(s, t, h)
    case StartIndex(t, k, tag) => StartIndexStep(s, t, k, tag)
    case IndexAdvance(t) => IndexAdvanceStep(s, t)
    case IndexCheck(t, h) => IndexCheckStep(s, t, h)
    case IndexGrant(t, h) => IndexGrantStep(s, t, h)
    case InsertHead(n) => InsertStep(s, 0, n)
    case InsertBeside(at, before, n) => InsertBesideStep(s, s.holds[Client(at)].node, before, n)
    case Unlink(t) => UnlinkStep(s, t)
    case Free(t) => FreeStep(s, t)
    case DeleteNodes(keepSurvivor) => DeleteNodesStep(s, keepSurvivor)
    case GetPermission(at, tag, h) => GetPermissionStep(s, s.holds[Client(at)].node, tag, h)
    case Release(h) => ReleaseStep(s, h)
    case GetNext(fromHead, at, forward, skip, tag, h) =>
      GetNextStep(s, if fromHead then AtHead else AtNode(IndexOf(s.ring, s.holds[Client(at)].node)),
                  forward, skip, tag, h)
  }
}
