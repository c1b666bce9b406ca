# Verified models of the parallel list, MD5, the byte-ring queue and UUID v1

This project models four components of the repository in Dafny and proves what they are for.

**The parallel-access list** (`source/data_structure/list.c`) is a circular doubly linked ring under one mutex, with a
read and a write counter on every node. Searches do not hold the mutex: they pin a node by raising its read counter,
compare outside the lock, and retake the lock to release the pin and step. It is modelled twice.

- `LinkedList`, `ListSearch`, `ListDelete` and `ListWalk` are the C code as classes and methods over link fields and
  counters, each proved against a sequence: `ring` lists the nodes from `EntriesList` on, and `Valid()` says that the
  links, `EntriesList` and `EntryAmount` describe it. A `Snapshot` adds each node's counters and data, and `Shows` says
  that a list is exactly in that state, so every contract also says what did not change.
- `ListProtocol`, `ListSafety`, `ListRuns` and `ListPins` are the same code as a transition system with any number of
  threads and clients, in which every mutex-protected section is one atomic action. `holds` is an account of who is
  behind every unit of a counter: a granted handle, the temporary pin of a thread, or a pin that nobody will release any
  more. The theorems are about all states of all runs. `ListGrants` says who is let in and who is refused, `ListEffects`
  what the other actions do to ring and counters, and `ListTears` is a run that ends badly.
- `ListAlone`, `ListCalls` and `ListDeleteCalls` relate the two: begun in any state of any safe run and interrupted by
  nobody, the sections of a search, of FindNodeNum and of a delete come to what the methods of the same names promise.
- `ListReadings` and `ListRules` relate the code as written to what its declarations promise.

**MD5** (`source/utility/md5/md5.c`): `Md5Spec` is the algorithm of RFC 1321 sections 3.1 to 3.5 as functions on byte
sequences, `Md5Transform` the unrolled rounds, `Md5` the streaming context with its buffer and hand-carried bit counter.
`Md5Known` pins the specification itself: laws of its auxiliary functions, and a digest published in appendix A.5.

**The byte-ring message queue** (`backup/osi/mgosi.c`, Windows branch): `MsgRing` is the ring as a value with its lazily
reduced indices, `MsgQueue` the object with whole calls, `MsgProtocol` and `MsgRuns` one sender and one receiver
interleaved at the granularity of single index updates and byte moves, without a lock. `MsgWaits` says when a call that
waits goes on, when it fails, and when it gets through after all.

**UUID v1** (`source/utility/uuid/uuid.c`): `Uuid` packs and compares, after RFC 4122 section 4.1.

## Where the code does not do what it promises

The models follow the code. Where it departs from its comments or from the code around it, a parameter selects the
intended reading as well, a concrete input shows the difference, and a lemma says exactly when the two agree.

- list.c:347 and list.c:512 discard the comparator's result through a comma operator and compare the user data pointer
  with `AII_OK` instead. So a search stops at the first node or at none, whatever the data
  (`ListReadings.WrittenSomeIgnoresData`, `ListReadings.WrongNodeFound`, `ListReadings.WrittenSomeIsIntended`, and for
  FindMW `WrittenAllIgnoresData`, `WrongNodeFoundByAll` and `WrittenAllIsIntended`). `Reading` selects the reading; all
  search theorems hold for both.
- list.c:1211 makes the node just freed the predecessor. `LinkedList.List.DeleteNodes` shows that the ring comes out
  well formed if and only if no two neighbouring unheld nodes, the second not the last, lie behind a held one; the
  smallest such list has four nodes (`ListRules.SmallestLoss`). Otherwise a survivor points to freed memory. In the
  transition system this is a torn ring; `ListTears.BulkDeleteTears` is a run that comes to it.
- list.c:652 takes "the cursor is the head" for "the list was wrapped", and reads the head without the mutex.
  - If the loop ended with a pin on the cursor and the cursor is the head, the call fails and keeps its pin. Alone in the
    list this happens for index 0 only (`ListSearch.IndexPromiseKept`); beside other threads it happens for any index
    whose node has become the head (`ListPins.IndexOneLeaks`). In every run ReadPermission is the number of granted
    readers and pinned threads if and only if no call has leaked a pin in this way (`ListPins.ReadsBalanceUnlessLeaked`);
    a node with a leaked pin is never freed and never granted to a new writer again (`ListPins.LostForEver`).
  - If the list was wrapped, the pin has been given back, and a head that changed meanwhile makes FindNodeNum go on with
    an unpinned node. This misread and the tearing bulk delete are the only steps of the system that break the safety
    invariant (`ListSafety.StepInv`), and a run is safe if and only if neither happens (`ListRuns.RunSafe`).
    `ListRuns.MisreadStrandsAHandle` is a run in which a client ends up holding a freed node.
- list.c:453 and list.c:601 refuse an output handle that is still empty, which callers pass; list.c:1027 passes FindMW
  an uninitialised one. `handleEmpty` and `stackWord` are these inputs.
- md5.c:108 computes `i + 63` in 32 bits. If the buffered bytes and the input together reach 2^32, the loop reads past
  its input (`Md5.GuardIsExact`) and never ends, because `i` wraps to where it began (`Md5.LoopEnds`). Below that bound,
  which every input of at most 2^32 - 64 bytes meets, the result is the digest. These are exactly the inputs on which
  MD5Update has a result.
- mgosi.c:92 compares the two indices of the queue without reducing them. Between calls this is right; inside a call it
  is wrong exactly while one index is 0 and the other equals the size (`MsgRuns.QueriesAgree`), and
  `MsgRuns.EmptyLooksOccupied` is a run that comes to this, for every size from 2 on.
- mgosi.c:118 adds one to the rear index in 32 bits. On a queue of 2^32 - 1 bytes, which only arguments with the product
  -2 ask for, the sum can wrap, and is_msg_queue_full then answers whether the queue is empty (`MsgRing.FullIsExact`);
  `MsgRuns.EmptyLooksFull` is a run that comes to this. Arguments with the product -1 make a size of 0, by which every
  query would divide.

## Assumptions

- The mutex makes each of its sections atomic, and client threads release only what they hold and pass only handles they
  hold as positions. Freed node memory may be handed out again.
- A run ends where a link or a cursor about to be followed leads to freed memory: in C anything may follow.
- Comparators are functions of the node data and the keyword.
- The methods of the list and the actions of its transition system are two models of the same lines. Without
  interference they leave the same counters for FindSW and FindMW (`ListAlone.CallFinds`, `ListAlone.MethodAgrees`), for
  FindNodeNum (`ListCalls.IndexCallEnds`, `ListCalls.MethodCounts`) and for the deletes (`ListDeleteCalls.DeleteCallEnds`,
  `ListDeleteCalls.MethodDeletes`). For the actions that are one section each, `ListEffects` and `ListGrants` state the
  effect in the same terms as the contracts of the methods.
- In `LinkedList.List.DeleteNodes` freed memory keeps its content until the sweep is over.
- An aligned 32-bit load or store is atomic. C leaves open whether a byte is stored before the rear index is advanced at
  mgosi.c:268; the model stores it first.
- Inputs that come from outside (time, node address, random clock sequence, the answers of a wait) are parameters.

## Model

| member | source | states |
|---|---|---|
| LinkedList.Node.Grant | source/data_structure/list.c:354-376 | Reading is granted if and only if nobody writes, writing if and only if nobody reads or writes; a grant raises its own counter by one, a refusal changes nothing |
| LinkedList.Node.Release | source/data_structure/list.c:1314-1332 | It undoes a grant: from any counters plus the permission it leads back to those counters, and without a permission to give back it changes nothing |
| ListSearch.GetPermission | source/data_structure/list.c:1413-1441 | AII_OK for reading if and only if WritePermission is not positive, for writing if and only if neither counter is; then one counter of one node of the list is one higher, and nothing else changes |
| ListRules.ReadersShare | source/data_structure/list.c:1413-1441 | However many readers were let in, the next is let in unless somebody writes, and a single one keeps writers out |
| ListRules.TestsAgree | source/data_structure/list.c:1568-1602 | The grant test of the walks is that of the searches, on counters that are not negative |
| ListSearch.ReleasePermission | source/data_structure/list.c:1314-1332 | The list is again in the whole state from which the permission was granted |
| LinkedList.RingWalk | source/data_structure/list.c:739-756 | Following NextNode k times from node i leads to node i + k and from the last back to the head; PreviousNode undoes NextNode |
| LinkedList.LinksDetermineRing | source/data_structure/list.c:739-756 | The links and the head leave no choice of the abstract sequence |
| LinkedList.SpliceBeforeHead | source/data_structure/list.c:831-835 | The four assignments, in their order, make the ring with the node before the head |
| LinkedList.SpliceBefore | source/data_structure/list.c:839-843 | The same before any other node i |
| LinkedList.SpliceAfterRear | source/data_structure/list.c:850-853 | The same behind the last node |
| LinkedList.SpliceAfter | source/data_structure/list.c:857-861 | The same behind any other node i |
| LinkedList.BypassHead | source/data_structure/list.c:973-974 | The two assignments make the ring without its head |
| LinkedList.Bypass | source/data_structure/list.c:980-981 | The two assignments make the ring without node i |
| LinkedList.List.InsertNodeHead | source/data_structure/list.c:702-760 | Null data is refused; otherwise a new node with zero counters is prepended and nothing else moves |
| LinkedList.List.InsertNodeHandle | source/data_structure/list.c:778-877 | Which arguments are errors; otherwise the new node stands right before or right after the given one |
| LinkedList.List.Unlink | source/data_structure/list.c:962-985 | The node leaves the ring, the rest stays in order, also when it was the head or alone |
| LinkedList.List.DeleteNodes | source/data_structure/list.c:1130-1221 | Exactly the held nodes stay, in their order; the calls of free, collected where the code makes them, are for exactly the other nodes, each once and in ring order; the new length is returned; the links are a ring if and only if the predecessor is kept or the held pattern loses no survivor, and otherwise a survivor points to a freed node |
| LinkedList.List.OneRound | source/data_structure/list.c:1188-1214 | One round keeps a held node or unlinks and frees an unheld one that was not freed before, and knows whether a survivor is lost by now |
| LinkedList.SweepOne | source/data_structure/list.c:1162-1215 | How the survivors and the losing pattern grow by one node of the sweep |
| LinkedList.UnheldOne | source/data_structure/list.c:1173-1209 | One more node is freed unless it is held, and it was not freed before |
| ListRules.SmallestLoss | source/data_structure/list.c:1205-1212 | Held, unheld, unheld and one more node is the smallest list on which line 1211 loses a survivor |
| ListDelete.Delete | source/data_structure/list.c:1239-1271 | The result is the number of held nodes; it is AII_OK if and only if no node had a positive counter, and then the list is well formed and empty |
| ListSearch.MatchSome | source/data_structure/list.c:340-382 | The comparator loop accepts a node if and only if some comparator accepts it whose bit in the mask is set and whose keyword is not null |
| ListSearch.MatchAll | source/data_structure/list.c:494-518 | Counting successes against comparisons accepts a node if and only if all comparators accept it whose bits in the mask are set and whose keywords are not null |
| ListRules.SelectsByBit | source/data_structure/list.c:340-382 | Bit i of the mask, of weight two to the i, selects comparator i, keyword permitting, for negative masks too |
| ListRules.MaskSelects | source/data_structure/list.c:340-382 | The mask built from a set of positions selects exactly these |
| ListRules.OneBitSelectsOne | source/data_structure/list.c:340-382 | Two to the j selects comparator j and no other |
| ListRules.PassesSomeMeans | source/data_structure/list.c:340-382 | What FindSW accepts, bit by bit of the mask |
| ListRules.PassesAllMeans | source/data_structure/list.c:494-518 | What FindMW accepts, bit by bit of the mask |
| ListSearch.FoundMeans | source/data_structure/list.c:349-402 | The three answers of a search with their conditions on the counters of the node, and the counter that moves |
| ListSearch.FindSW | source/data_structure/list.c:322-402 | The least matching index is returned with its node; on success exactly one counter is one higher, on a denial or a miss every counter is as before |
| ListSearch.FindMW | source/data_structure/list.c:452-565 | The same for all selected comparators; an empty output handle is refused |
| ListSearch.FindNodeNum | source/data_structure/list.c:601-686 | AII_ERROR for an index outside 1 .. length - 1; otherwise the node at that index, with AII_OK or LIST_PERMISSION_DENY by its counters, of which one is one higher or none; index 0 of a list that is not empty leaves its pin |
| ListSearch.IndexPromiseKept | source/data_structure/list.c:652-655 | With nobody else at work, FindNodeNum does what it is declared to do if and only if the index is not 0 or the list is empty; for runs see ListPins |
| ListReadings.WrittenSomeIgnoresData | source/data_structure/list.c:347 | As written, FindSW stops at the first node or at none, whatever the data |
| ListReadings.WrittenAllIgnoresData | source/data_structure/list.c:512 | As written, FindMW stops at the first node or at none, whatever the data |
| ListReadings.WrittenSomeIsIntended | source/data_structure/list.c:340-382 | FindSW as written finds the least matching node if and only if, called with a selection and null user data, the first node matches, and, called otherwise, none does |
| ListReadings.WrittenAllIsIntended | source/data_structure/list.c:494-533 | The same for FindMW |
| ListReadings.WrongNodeFound | source/data_structure/list.c:344-348 | Searching [1, 2] for 2 stops at the node with 1 |
| ListReadings.WrongNodeFoundByAll | source/data_structure/list.c:506-518 | The same search by FindMW, without user data, stops at the node with 1 |
| ListReadings.EmptySelection | source/data_structure/list.c:344-348 | An empty selection matches nothing in FindSW and the first node in FindMW |
| ListDelete.DeleteNodeSW | source/data_structure/list.c:901-997 | The first matching node is removed and its data handed out if nobody holds it; otherwise the list is untouched and the result says which |
| ListDelete.DeleteNodeMW | source/data_structure/list.c:1019-1115 | The same for all selected comparators, unless the uninitialised handle happens to read as empty |
| ListDelete.DeletedMeans | source/data_structure/list.c:940-996 | AII_OK if and only if both counters of the found node are zero, LIST_PERMISSION_DENY if and only if one is not, and what is left of the list |
| ListWalk.CandidateAt | source/data_structure/list.c:1554-1568 | The positions the loop visits are the nodes behind the cursor in cyclic order, or the whole ring from the head |
| ListWalk.StopAfterLast | source/data_structure/list.c:1621-1624 | The loop meets its stop again after the last candidate and not before |
| ListWalk.Walk | source/data_structure/list.c:1566-1624 | Skipping, the first grantable candidate is granted, and AII_ERROR means none is; without skipping only the first is tried; one counter changes at most |
| ListWalk.WalkMeans | source/data_structure/list.c:1568-1624 | Each answer of a walk with its condition on the counters of the candidates |
| ListWalk.GetNextNode | source/data_structure/list.c:1543-1625 | Walk from the cursor or from the head |
| ListWalk.GetPreviousNode | source/data_structure/list.c:1683-1765 | GetNextNode on the ring read backwards from the same head |
| ListWalk.PreviousSeen | source/data_structure/list.c:1684-1706 | In the mirrored ring the node after the cursor is its predecessor |
| ListRules.MirrorTwice | source/data_structure/list.c:1684-1706 | Mirroring the ring twice gives it back, with the nodes where MirrorIndex says |
| ListSafety.SearchMissInv | source/data_structure/list.c:384-398 | Giving a pin back, stepping and pinning again keeps the invariant whatever happened to the neighbours |
| ListSafety.SearchHitInv | source/data_structure/list.c:349-378 | Turning a pin into a grant, or into a delete's own write permission, keeps the invariant |
| ListSafety.UnlinkInv | source/data_structure/list.c:946-986 | The second section of a delete removes a node nobody holds or pins, and keeps the invariant |
| ListSafety.IdleHasNoHolder | source/data_structure/list.c:955-960 | A node with zero counters has no holder, so unlinking it strands nobody |
| ListSafety.GetNextInv | source/data_structure/list.c:1566-1624 | A walk grants only linked nodes and keeps the invariant |
| ListSafety.IndexCheckInv | source/data_structure/list.c:652-655 | The unlocked test of FindNodeNum keeps the invariant if and only if it does not misread |
| ListSafety.DeleteNodesInv | source/data_structure/list.c:1154-1218 | The bulk delete strands no cursor and no handle; it keeps the invariant if and only if it does not tear the ring |
| ListSafety.StepInv | source/data_structure/list.c:322-398 | Any action of any thread or client keeps the invariant if and only if it is neither that misread nor a bulk delete, as written, on a losing pattern: no link leads to freed memory, counters equal their holders (granted handles, pins of threads, leaked pins), a granted writer is alone but for pins, every cursor and handle is linked, memory is linked or owned by the one thread about to free it |
| ListRuns.RunSafe | source/data_structure/list.c:322-398 | For every run of any number of threads: the invariant holds throughout if and only if no FindNodeNum misreads and no bulk delete tears the ring; what leaked pins do to the counters is in ListPins |
| ListRuns.NobodyDangles | source/data_structure/list.c:946-992 | In every state of such a run each pinned cursor and each granted handle is linked and allocated, a granted writer has the write counter at 1 and no granted reader beside it |
| ListRuns.FreedIsUnused | source/data_structure/list.c:988-992 | Memory is freed only while nobody holds it and only by the thread that unlinked it or by the bulk delete |
| ListRuns.FreedOnce | source/data_structure/list.c:988-992 | Each such free meets a node that is still allocated, unlinked and nobody's, and no other thread will free it: no memory is freed twice |
| ListTears.BulkDeleteTears | source/data_structure/list.c:1205-1212 | A run of four insertions, one read grant and the bulk delete at whose end a link leads to freed memory |
| ListRuns.MissedSearchSawAll | source/data_structure/list.c:322-402 | A search that wraps has compared, exactly once each, every node that stayed linked from its first pin to its last, whatever was inserted or deleted meanwhile |
| ListRuns.MetOnceStep | source/data_structure/list.c:384-398 | The nodes met so far are exactly those not behind the cursor, under every action |
| ListRuns.SearchWork | source/data_structure/list.c:338-399 | A search steps at most as often as the ring was long at its first pin plus the insertions while it ran |
| ListRuns.StepKeepsOrder | source/data_structure/list.c:739-756 | No action of any thread reorders nodes that stay |
| ListRuns.MisreadStrandsAHandle | source/data_structure/list.c:633-665 | A run in which the misread leaves a client with a handle to freed memory |
| ListPins.StepLoses | source/data_structure/list.c:652-655 | A pin is lost by exactly one kind of step: the unlocked test finding a pinned cursor at the head |
| ListPins.RunLoses | source/data_structure/list.c:652-655 | In every run no pin is lost if and only if no call leaks one |
| ListPins.ReadParts | source/data_structure/list.c:334-398 | ReadPermission of every node is the number of its granted readers, pinned threads and lost pins |
| ListPins.ReadsBalanceUnlessLeaked | source/data_structure/list.c:334-398 | In every safe run ReadPermission of every node is the number of its granted readers and pinned threads, if and only if no call has leaked a pin so far |
| ListPins.WritesBalance | source/data_structure/list.c:354-376 | In every state of every safe run WritePermission of every node is the number of its granted writers and of the threads between the two sections of its deletion, and is 0 or 1 |
| ListPins.LostForEver | source/data_structure/list.c:652-655 | In every continuation of a safe run a node with a leaked pin stays linked and allocated with its read counter up, and nobody new is granted its write permission |
| ListPins.IndexOneLeaks | source/data_structure/list.c:633-655 | A safe run in which index 1 of a two-node list fails and its node keeps a read count of 1 for nobody |
| ListAlone.CallFinds | source/data_structure/list.c:322-402 | In any state of a safe run the sections of a search that nobody interrupts, in their order, end at the first node the comparators accept and grant it if its counters allow, or miss after all nodes, and leave everything else as it was |
| ListAlone.MethodAgrees | source/data_structure/list.c:322-402 | Where the method FindSW or FindMW finds position k it leaves the counters, and gives the answer, of the transition system's search that ends at k |
| ListCalls.IndexCallEnds | source/data_structure/list.c:601-686 | In any state of a safe run the sections of FindNodeNum that nobody interrupts are one start, min(k, length) steps, the test and, for 0 < k < length, the request, and no others; they end in one state |
| ListCalls.IndexReaches | source/data_structure/list.c:633-683 | That state: for 0 < k < length the client holds node k of the ring if its counters allow it and only that counter moved; on a refusal and past the end all counters are as before; for k = 0 the pin stays |
| ListCalls.MethodCounts | source/data_structure/list.c:601-686 | The method FindNodeNum leaves the counters of that state and returns AII_OK if and only if the client holds the node there |
| ListDeleteCalls.DeleteCallEnds | source/data_structure/list.c:901-997 | In any state of a safe run the sections of a delete that nobody interrupts, whose comparators accept node k first or none, lead to one state |
| ListDeleteCalls.DeleteReaches | source/data_structure/list.c:940-996 | That state: exactly node k is unlinked and freed if both its counters are zero; otherwise, and on a miss, ring and counters are as they were |
| ListDeleteCalls.MethodDeletes | source/data_structure/list.c:901-997 | The methods DeleteNodeSW and DeleteNodeMW leave the counters of that state |
| ListGrants.SearchIsGiven | source/data_structure/list.c:349-378 | In every safe run a search that hits is refused reading if and only if a client or a deleting thread writes the node, and writing, or the delete, if and only if anything but its own pin holds it |
| ListGrants.IndexIsGiven | source/data_structure/list.c:657-683 | The same for the last section of FindNodeNum |
| ListGrants.PermissionIsGiven | source/data_structure/list.c:1413-1441 | Through a handle that it holds a client gets another read permission if and only if nobody writes the node, and never the write permission |
| ListGrants.WalkIsGiven | source/data_structure/list.c:1566-1624 | In every safe run a walk grants the first node in its order at which nobody is in the way, without skipping only its first node, and otherwise nothing |
| ListEffects.Inserts | source/data_structure/list.c:702-877 | In every run an inserted node stands first, or right before or right behind the given node, with zero counters, and nothing else changes |
| ListEffects.Sweeps | source/data_structure/list.c:1154-1218 | In every safe run the bulk delete keeps exactly the nodes that somebody holds or pins, in their order and with their counters |
| ListEffects.Unlinks | source/data_structure/list.c:946-986 | In every safe run the second section of a delete unlinks its node if and only if nobody else holds or pins it, and gives its permission back either way |
| ListEffects.Releases | source/data_structure/list.c:1314-1332 | In every safe run a release ends that one holding and lowers one counter by one |
| ListEffects.WalkFromHead | source/data_structure/list.c:1554-1624 | The order of a walk from the list handle: all nodes from the head on, ahead or behind |
| ListEffects.WalkFromNode | source/data_structure/list.c:1554-1624 | The order of a walk from a node: all other nodes from the next or the previous one on |
| Md5Spec.WordsOfBytes | source/utility/md5/md5.c:250-275 | Decoding what was encoded gives the words back |
| Md5Spec.BytesOfWords | source/utility/md5/md5.c:250-275 | Encoding what was decoded gives the bytes back |
| Md5Known.FChooses | source/utility/md5/md5.c:28 | F takes the bits of y where x has ones and those of z elsewhere |
| Md5Known.GChooses | source/utility/md5/md5.c:29 | G takes the bits of x where z has ones and those of y elsewhere |
| Md5Known.HIsParity | source/utility/md5/md5.c:30 | H cancels equal arguments and inverts with each argument |
| Md5Known.IAtTheEnds | source/utility/md5/md5.c:31 | I inverts y where z is empty and is a parity where z is full |
| Md5Known.RotationMoves | source/utility/md5/md5.c:34 | The top n bits come out at the bottom, the others move up by n |
| Md5Known.DigestOfAbc | source/utility/md5/md5.c:71-245 | The digest of "abc" is the one that RFC 1321 publishes in appendix A.5, through all 64 operations |
| Md5.Decode | source/utility/md5/md5.c:266-275 | Words are read with the low-order byte first, for any offset and length |
| Md5.Encode | source/utility/md5/md5.c:250-261 | Words are written with the low-order byte first |
| Md5.Copy | source/utility/md5/md5.c:278-286 | The bytes arrive in place and nothing around them changes |
| Md5Transform.FourSteps | source/utility/md5/md5.c:38-62 | Four macros that update each word once are four operations of the table-driven loop, which rotates the words |
| Md5Transform.Round1 | source/utility/md5/md5.c:166-181 | The 16 unrolled lines are operations 1 to 16 of RFC 1321 section 3.4 |
| Md5Transform.Round2 | source/utility/md5/md5.c:184-199 | Operations 17 to 32 |
| Md5Transform.Round3 | source/utility/md5/md5.c:202-217 | Operations 33 to 48 |
| Md5Transform.Round4 | source/utility/md5/md5.c:220-235 | Operations 49 to 64 |
| Md5Transform.StepsInvertible | source/utility/md5/md5.c:166-235 | For every block any stretch of the operations is a bijection on states, with an explicit inverse |
| Md5.Transform | source/utility/md5/md5.c:154-245 | The unrolled transform is the compression function of the RFC for every state and block |
| Md5.CarryIsExact | source/utility/md5/md5.c:94-97 | Comparing the sum with the addend detects the carry exactly |
| Md5.CounterAdds | source/utility/md5/md5.c:94-99 | The pair goes on counting 8 times the bytes modulo 2^64 |
| Md5.IndexIsRemainder | source/utility/md5/md5.c:91 | The index taken from the low word is the length modulo 64, although the counter wraps |
| Md5.GuardIsExact | source/utility/md5/md5.c:108 | The block loop stays within its input if and only if index plus inputLen fits 32 bits |
| Md5.LoopEnds | source/utility/md5/md5.c:108 | The block loop ends if and only if index plus inputLen fits 32 bits |
| Md5.GuardDoesNotWrap | source/utility/md5/md5.c:108 | Under that bound i + 63 never wraps |
| Md5.Context.Init | source/utility/md5/md5.c:71-79 | The context stands for the empty message |
| Md5.Context.Update | source/utility/md5/md5.c:86-122 | On exactly the inputs on which the function returns: the message grows by the input: the state folds all complete blocks, the buffer holds the tail, the pair counts the bits |
| Md5.Context.Final | source/utility/md5/md5.c:127-147 | The digest is that of RFC 1321 on everything absorbed |
| Md5.Context.Pad | source/utility/md5/md5.c:135-144 | Padding and length, absorbed as two more inputs, make the padded message of the RFC |
| Md5.PadLengthIs | source/utility/md5/md5.c:139-140 | padLen is in 1..64 and is the number of bytes that leads to 56 modulo 64 |
| Md5Spec.PaddedIsWhole | source/utility/md5/md5.c:139-144 | Message, padding and length end on a block boundary |
| Md5.DigestInPieces | source/utility/md5/mddriver.c:146-151 | However a message is cut into updates, the result is the digest of the whole |
| Md5.SmallChunksDigestible | source/utility/md5/md5.c:108 | Pieces of at most 2^32 - 64 bytes always meet the bound |
| MsgRing.ContainPlusCapacity | backup/osi/mgosi.c:132-196 | Whatever the indices, contained and free bytes add up to the size less one |
| MsgRing.FullIsExact | backup/osi/mgosi.c:107-118 | is_msg_queue_full says that the capacity is 0, if and only if the rear index is not the largest 32-bit number or there are both bytes and room; there it says that nothing is contained |
| MsgRing.RawEmptyIsExact | backup/osi/mgosi.c:86-93 | The unreduced comparison is right if and only if the indices are not 0 and the size, and it errs to one side only |
| MsgRing.RestQueriesAgree | backup/osi/mgosi.c:86-196 | Between calls empty, contain and capacity agree, and full agrees with them unless its sum wraps |
| MsgRing.StoreKeeps | backup/osi/mgosi.c:266-268 | The cell at the rear index never holds an unread byte |
| MsgRing.PublishAppends | backup/osi/mgosi.c:268 | Advancing the rear index appends the stored byte |
| MsgRing.PublishDrops | backup/osi/mgosi.c:363-366 | Advancing the head index drops exactly the oldest byte |
| MsgQueue.MsgQueue.constructor | backup/osi/mgosi.c:60-62 | Wherever the signed arithmetic is defined, the size is the product plus one as an unsigned number, and unless that is 0 the new queue is well formed and empty |
| MsgQueue.MsgQueue.IsEmpty | backup/osi/mgosi.c:86-93 | True if and only if nothing is unread |
| MsgQueue.MsgQueue.IsFull | backup/osi/mgosi.c:107-118 | True if and only if no byte fits; on the one index at which the sum wraps, if and only if nothing is unread |
| MsgQueue.MsgQueue.ContainedBytes | backup/osi/mgosi.c:132-151 | The number of unread bytes, also in the middle of a message |
| MsgQueue.MsgQueue.FreeBytes | backup/osi/mgosi.c:165-183 | The number of bytes that still fit |
| MsgQueue.MsgQueue.Send | backup/osi/mgosi.c:200-277 | A message goes in whole, behind what is there, if and only if it fits when the call begins; otherwise the queue is untouched and the call ends with the first wait that is abandoned or times out |
| MsgQueue.MsgQueue.Receive | backup/osi/mgosi.c:299-374 | The bytes asked for come out in order if and only if they are there; otherwise neither queue nor buffer is touched and the call ends with the first wait that is abandoned or times out |
| MsgRuns.StepInv | backup/osi/mgosi.c:225-276 | Whatever either side does next, every index is in bounds and the invariant stays |
| MsgRuns.Fifo | backup/osi/mgosi.c:225-373 | In every state of every interleaving the bytes received are a prefix of the bytes stored and the ring holds the rest in order |
| MsgRuns.UnreadSurvives | backup/osi/mgosi.c:266-268 | No step of the sender changes an unread byte; the receiver drops the oldest, one at a time |
| MsgRuns.NothingTakenBack | backup/osi/mgosi.c:266-269 | What was stored or received stays so; only the two moving steps add to it, one byte each |
| MsgRuns.SendAllOrNothing | backup/osi/mgosi.c:225-276 | msg_send ends with its whole message stored or, returning AII_ERROR, with none of it |
| MsgRuns.ReceiveAllOrNothing | backup/osi/mgosi.c:322-373 | msg_receive ends with all the bytes it wanted or, returning AII_ERROR, with none taken |
| MsgRuns.SenderNeverWaitsAgain | backup/osi/mgosi.c:225-276 | Once a call of msg_send has moved a byte it never waits |
| MsgRuns.ReceiverNeverWaitsAgain | backup/osi/mgosi.c:322-373 | Once a call of msg_receive has moved a byte it never waits |
| MsgRuns.AdmittedIffFits | backup/osi/mgosi.c:225-229 | A call gets past its first check if and only if its message fits beside the unread bytes, or the bytes it wants are there |
| MsgRuns.SendFinishes | backup/osi/mgosi.c:225-276 | In every run a call of msg_send past its first check has returned AII_OK, with its message accepted, by the time the sender has taken the steps it had left, whatever the other side and the waits do |
| MsgRuns.ReceiveFinishes | backup/osi/mgosi.c:322-373 | The same for msg_receive, which has then handed out the bytes it was asked for |
| MsgWaits.SenderWakes | backup/osi/mgosi.c:229-258 | A wait that is abandoned or times out ends msg_send with nothing accepted; any other answer leads back to the test with the same message and nothing stored |
| MsgWaits.ReceiverWakes | backup/osi/mgosi.c:326-355 | The same for msg_receive |
| MsgWaits.SendFails | backup/osi/mgosi.c:225-276 | In every run a call of msg_send ends with AII_ERROR if and only if its last step was a wait that was abandoned or timed out; otherwise its message is accepted |
| MsgWaits.ReceiveFails | backup/osi/mgosi.c:322-373 | In every run a call of msg_receive ends with AII_ERROR if and only if its last step was such a wait; otherwise it has all the bytes it wanted |
| MsgWaits.WokenSenderSends | backup/osi/mgosi.c:225-276 | A sender woken while its message fits has returned AII_OK, with its message accepted, after 4 steps a byte and 4 more, whatever the other side does |
| MsgWaits.WokenReceiverReceives | backup/osi/mgosi.c:322-373 | A receiver woken while its bytes are there has returned AII_OK with as many as it wanted, likewise |
| MsgRuns.TooLongNeverAccepted | backup/osi/mgosi.c:225-227 | A message longer than the size less one is never begun |
| MsgRuns.QueriesAgree | backup/osi/mgosi.c:86-196 | At any moment of any run the amounts add up; full is right unless its sum wraps on an empty or a full queue; empty is right except exactly while the indices are split, which needs a side between reducing and advancing its index |
| MsgRuns.EmptyLooksOccupied | backup/osi/mgosi.c:86-92 | For every size from 2 on, a run from a new queue at whose end the empty queue is reported as occupied |
| MsgRuns.EmptyLooksFull | backup/osi/mgosi.c:107-118 | On the largest size, a run at whose end, between calls, the empty queue is reported as full |
| MsgRuns.MessagesArriveWhole | backup/osi/mgosi.c:200-374 | A receiver that asks for the lengths that were sent gets the messages that were sent |
| Uuid.Uuid.FormatV1 | source/utility/uuid/uuid.c:148-165 | Parsing the fields gives back 60 bits of time, 14 of the clock sequence and the node, with version 1 and the variant of RFC 4122 |
| Uuid.CarriesExactly | source/utility/uuid/uuid.c:148-165 | Two formatted UUIDs are equal if and only if timestamp modulo 2^60, clock sequence modulo 2^14 and node are |
| Uuid.NameSpaceDns | source/utility/uuid/uuid.c:148-165 | The name space UUID of RFC 4122, appendix C, and the inputs that are formatted to it |
| Uuid.Compare | source/utility/uuid/uuid.c:220-245 | The result is the order of the two UUIDs as 128-bit numbers in network byte order |
| Uuid.NumberSum | source/utility/uuid/uuid.c:220-245 | The number that is compared, as the sum of the fields times the powers of two of their places |
| Uuid.PartDecides | source/utility/uuid/uuid.c:224-242 | The first part that differs decides the order of two big-endian numbers |
| Uuid.NumberDetermines | source/utility/uuid/uuid.c:220-245 | Equal numbers are equal UUIDs, so the order is total |
| Uuid.LowTimeDecides | source/utility/include/uuid.h:20-25 | UUIDs with different low words of time are ordered by these |
| Uuid.LexicalIsNotTemporal | source/utility/include/uuid.h:20-25 | The order of two UUIDs can be the reverse of their times |

## Left out

- Sockets, mutex, semaphore, thread and task wrappers, and the queue over message-passing calls: thin calls into the
  operating system; the mutex appears only as atomic sections.
- Whether a waiting side of the byte ring is ever woken: the check and the reset of its event are separate, so the code
  does not guarantee it.
- Several senders or several receivers on the byte ring: it has no lock, and its design is one of each.
- UUID timestamps across calls and restarts (get_current_time, uuid_sys_init): clock and file access, and the code does
  not advance its saved time, so it does not decide uniqueness.
- File and configuration tools under backup/tool, mddriver.c but for the loop of MDFile, test mains and build files.
- The VxWorks and Linux branches of mgosi.c: foreign calls or stubs.
- Allocation failure, printed messages, PrintPermission, handle type errors, missing comparator arrays, zeroising of
  memory, and destroying handles.
- The sine formula behind table T of RFC 1321 section 3.4: the table is given by its 64 values.
- Calls on a list while Delete destroys its mutex: list.c:1239-1271 expects to be the last user.
- LinkedList.List.DeleteNodes: what a walk over a ring that lost a survivor does after the freed memory is reused is not
  modelled.
- MsgQueue.MsgQueue.Send: in this sequential model nobody receives during a wait, so a message that does not fit at once
  never does; what happens when somebody does is proved in MsgRuns.
- Md5.Context.Update: inputs on which the block loop never ends (Md5.LoopEnds) have no result.
- Uuid.Uuid.FormatV1: masks, shifts and the setting of clear bits are written as remainders, quotients and sums.
