/** The searches of list.c and the permissions they leave with a client, when no other thread interferes. */
module ListSearch {
  import opened ListRules
  import opened LinkedList

  /** The list as a call finds it: its nodes, their counters and their data. */
  datatype Snapshot = Snapshot(ring: seq<Node>, counts: seq<Counters>, data: seq<nat>) {
    ghost function WithCounts(i: nat, c: Counters): Snapshot
      requires i < |counts|
    {
      this.(counts := counts[i := c])
    }
  }

  ghost predicate NodesShow(s: Snapshot)
    reads s.ring`data, s.ring`readPermission, s.ring`writePermission
  {
    && |s.ring| == |s.counts| == |s.data|
    && forall i {:trigger s.ring[i]} :: 0 <= i < |s.ring| ==>
      s.ring[i].Count() == s.counts[i] && s.ring[i].data == s.data[i]
  }

  ghost predicate Shows(list: List, s: Snapshot)
    reads list, list.ring, s.ring
  {
    list.Valid() && list.ring == s.ring && NodesShow(s)
  }

  // ---------- counters of one node ----------

  lemma OneCountChanged(s: Snapshot, i: nat, c: Counters)
    requires |s.ring| == |s.counts| == |s.data| && i < |s.ring|
    requires forall j {:trigger s.ring[j]} :: 0 <= j < |s.ring| ==>
      s.ring[j].Count() == (if j == i then c else s.counts[j]) && s.ring[j].data == s.data[j]
    ensures NodesShow(s.WithCounts(i, c))
  {
  }

  method AddRead(list: List, node: Node, d: int, ghost s: Snapshot, ghost i: nat)
    requires Shows(list, s) && i < |s.ring| && s.ring[i] == node
    modifies node`readPermission
    ensures |s.counts| == |s.ring| && Shows(list, s.WithCounts(i, s.counts[i].(read := s.counts[i].read + d)))
  {
    node.readPermission := node.readPermission + d;
    OneCountChanged(s, i, s.counts[i].(read := s.counts[i].read + d));
  }

  method GrantAt(list: List, node: Node, tag: Tag, ghost s: Snapshot, ghost i: nat) returns (granted: bool)
    requires Shows(list, s) && i < |s.ring| && s.ring[i] == node
    modifies node`readPermission, node`writePermission
    ensures |s.counts| == |s.ring| && granted == CanGrant(s.counts[i], tag)
    ensures Shows(list, if granted then s.WithCounts(i, WithGrant(s.counts[i], tag)) else s)
  {
    granted := node.Grant(tag);
    if granted {
      OneCountChanged(s, i, WithGrant(s.counts[i], tag));
    }
  }

  lemma SnapshotBack(s: Snapshot, i: nat, c: Counters)
    requires i < |s.counts|
    ensures s.WithCounts(i, c).WithCounts(i, s.counts[i]) == s
  {
    assert s.counts[i := c][i := s.counts[i]] == s.counts;
  }

  /** GetPermisssion, list.c:1413-1441, on a handle of the list. */
  method GetPermission(list: List, node: Node, tag: Tag, ghost s: Snapshot, ghost i: nat) returns (r: int)
    requires Shows(list, s) && i < |s.ring| && s.ring[i] == node
    modifies node`readPermission, node`writePermission
    ensures |s.counts| == |s.ring| && r == if CanGrant(s.counts[i], tag) then AII_OK else LIST_PERMISSION_DENY
    ensures tag == ReadTag ==> (r == AII_OK <==> old(node.writePermission) <= 0)
    ensures tag == WriteTag ==> (r == AII_OK <==> old(node.readPermission) <= 0 && old(node.writePermission) <= 0)
    ensures Shows(list, if r == AII_OK then s.WithCounts(i, WithGrant(s.counts[i], tag)) else s)
  {
    var granted := GrantAt(list, node, tag, s, i);
    r := if granted then AII_OK else LIST_PERMISSION_DENY;
  }

  /** ReleasePermission, list.c:1314-1332: after it the list is in the state `s` from which the permission was granted,
      by GetPermission, a search or a walk. */
  method ReleasePermission(list: List, node: Node, tag: Tag, ghost s: Snapshot, ghost i: nat)
    requires i < |s.ring| == |s.counts| == |s.data| && s.ring[i] == node
    requires (tag == ReadTag ==> s.counts[i].read >= 0) && (tag == WriteTag ==> s.counts[i].write >= 0)
    requires Shows(list, s.WithCounts(i, WithGrant(s.counts[i], tag)))
    modifies node`readPermission, node`writePermission
    ensures Shows(list, s)
  {
    ghost var c := WithGrant(s.counts[i], tag);
    SnapshotBack(s, i, c);
    node.Release(tag);
    OneCountChanged(s.WithCounts(i, c), i, s.counts[i]);
  }

  // ---------- comparing one node ----------

  /** list.c:340-382. */
  method MatchSome(v: Reading, cmp: seq<Comparator>, keyWords: seq<nat>, mask: int, userData: nat, data: nat)
    returns (hit: bool)
    requires |cmp| <= |keyWords|
    ensures hit <==> PassesSome(v, cmp, keyWords, mask, userData, data)
    ensures hit <==>
      exists i :: 0 <= i < |cmp| && (mask / Pow2(i)) % 2 == 1 && keyWords[i] != 0 &&
                  (if v == AsWritten then userData == 0 else cmp[i].run(data, keyWords[i]) == 0)
  {
    PassesSomeMeans(v, cmp, keyWords, mask, userData, data);
    hide Pow2;
    var maskTmp := mask;
    for i := 0 to |cmp|
      invariant maskTmp == Shifted(mask, i)
      invariant forall j :: 0 <= j < i && Selects(mask, keyWords, j) ==>
        !Verdict(v, cmp[j].run(data, keyWords[j]), userData)
    {
      if maskTmp % 2 == 1 && keyWords[i] != 0 {
        assert Selects(mask, keyWords, i);
        if Verdict(v, cmp[i].run(data, keyWords[i]), userData) {
          return true;
        }
      }
      maskTmp := maskTmp / 2;
    }
    return false;
  }

  /** list.c:494-518: as many successes as comparisons. */
  method MatchAll(v: Reading, cmp: seq<Comparator>, keyWords: seq<nat>, mask: int, userData: Option<seq<nat>>,
                  data: nat)
    returns (hit: bool)
    requires |cmp| <= |keyWords| && (userData.Some? ==> |cmp| <= |userData.value|)
    ensures hit <==> PassesAll(v, cmp, keyWords, mask, userData, data)
    ensures hit <==>
      forall i :: 0 <= i < |cmp| && (mask / Pow2(i)) % 2 == 1 && keyWords[i] != 0 ==>
        if v == AsWritten then userData.Some? ==> userData.value[i] == 0 else cmp[i].run(data, keyWords[i]) == 0
  {
    PassesAllMeans(v, cmp, keyWords, mask, userData, data);
    hide Pow2;
    var maskTmp, logi, compareCnt := mask, 0, 0;
    for i := 0 to |cmp|
      invariant maskTmp == Shifted(mask, i) && logi <= compareCnt
      invariant logi == compareCnt <==> forall j :: 0 <= j < i && Selects(mask, keyWords, j) ==>
        Verdict(v, cmp[j].run(data, keyWords[j]), UserDataOf(userData, j))
    {
      if maskTmp % 2 == 1 && keyWords[i] != 0 {
        assert Selects(mask, keyWords, i);
        if Verdict(v, cmp[i].run(data, keyWords[i]), UserDataOf(userData, i)) {
          logi := logi + 1;
        }
        compareCnt := compareCnt + 1;
      }
      maskTmp := maskTmp / 2;
    }
    return logi == compareCnt;
  }

  // ---------- what a search comes to ----------

  /** Position `k` is where the search stops, the length if nothing matched. Apart from the grant all counters are
      as they were. */
  ghost predicate Found(list: List, s: Snapshot, k: nat, tag: Tag, r: int, out: Node?)
    reads list, list.ring, s.ring
  {
    && k <= |s.ring| == |s.counts| == |s.data|
    && out == (if k == |s.ring| then null else s.ring[k])
    && if k == |s.ring| then r == AII_ERROR && Shows(list, s)
       else if !CanGrant(s.counts[k], tag) then r == LIST_PERMISSION_DENY && Shows(list, s)
       else r == k && Shows(list, s.WithCounts(k, WithGrant(s.counts[k], tag)))
  }

  /** The three answers and the counters, without the names of the tests. */
  lemma FoundMeans(list: List, s: Snapshot, k: nat, tag: Tag, r: int, out: Node?)
    requires Found(list, s, k, tag, r, out)
    ensures k <= |s.ring| == |s.counts|
    ensures k == |s.ring| ==> r == AII_ERROR && out == null && Shows(list, s)
    ensures k < |s.ring| ==> var c := s.counts[k];
      && out == s.ring[k]
      && r == (if tag == ReadTag && c.write > 0 then LIST_PERMISSION_DENY
               else if tag == WriteTag && (c.read > 0 || c.write > 0) then LIST_PERMISSION_DENY else k)
      && Shows(list, if r != k || tag == OtherTag then s else s.WithCounts(k,
           if tag == ReadTag then Counters(c.read + 1, c.write) else Counters(c.read, c.write + 1)))
  {
    hide Shows;
    if k < |s.ring| {
      assert s.counts[k := s.counts[k]] == s.counts;
    }
  }

  ghost function FlagsSome(v: Reading, cmp: seq<Comparator>, keyWords: seq<nat>, mask: int, userData: nat,
                           data: seq<nat>): (f: seq<bool>)
    requires |cmp| <= |keyWords|
    ensures |f| == |data|
  {
    seq(|data|, i requires 0 <= i < |data| => PassesSome(v, cmp, keyWords, mask, userData, data[i]))
  }

  ghost function FlagsAll(v: Reading, cmp: seq<Comparator>, keyWords: seq<nat>, mask: int, userData: Option<seq<nat>>,
                          data: seq<nat>): (f: seq<bool>)
    requires |cmp| <= |keyWords| && (userData.Some? ==> |cmp| <= |userData.value|)
    ensures |f| == |data|
  {
    seq(|data|, i requires 0 <= i < |data| => PassesAll(v, cmp, keyWords, mask, userData, data[i]))
  }

  lemma FlagSomeAt(v: Reading, cmp: seq<Comparator>, keyWords: seq<nat>, mask: int, userData: nat, data: seq<nat>,
                   i: nat)
    requires |cmp| <= |keyWords| && i < |data|
    ensures FlagsSome(v, cmp, keyWords, mask, userData, data)[i] ==
      PassesSome(v, cmp, keyWords, mask, userData, data[i])
  {
  }

  lemma FirstTrueFrom(flags: seq<bool>, i: nat)
    requires i <= FirstTrue(flags) && i < |flags|
    ensures flags[i] <==> FirstTrue(flags) == i
  {
  }

  /** One step along the ring; it ends where it meets the head again. */
  lemma NextStep(list: List, i: nat)
    requires list.Valid() && i < |list.ring|
    ensures list.ring[i].nextNode == if i + 1 == |list.ring| then list.entriesList else list.ring[i + 1]
    ensures i + 1 < |list.ring| ==> list.ring[i + 1] != list.entriesList
  {
  }

  /** The search has its temporary pin on node `i` and has changed nothing else. */
  ghost predicate PinnedAt(list: List, s: Snapshot, i: nat, current: Node)
    reads list, list.ring, s.ring
  {
    && i < |s.ring| == |s.counts| == |s.data| && current == s.ring[i]
    && Shows(list, s.WithCounts(i, s.counts[i].(read := s.counts[i].read + 1)))
  }

  method Unpin(list: List, current: Node, ghost s: Snapshot, ghost i: nat)
    requires PinnedAt(list, s, i, current)
    modifies s.ring`readPermission
    ensures Shows(list, s)
  {
    hide NodesShow, Linked;
    ghost var c := s.counts[i].(read := s.counts[i].read + 1);
    SnapshotBack(s, i, c);
    AddRead(list, current, -1, s.WithCounts(i, c), i);
  }

  method Pin(list: List, node: Node, ghost s: Snapshot, ghost i: nat)
    requires Shows(list, s) && i < |s.ring| && s.ring[i] == node
    modifies s.ring`readPermission
    ensures PinnedAt(list, s, i, node)
  {
    assert |s.ring| == |s.counts| == |s.data|;
    AddRead(list, node, 1, s, i);
  }

  /** list.c:334-335: pin the first node. */
  method PinHead(list: List, ghost s: Snapshot) returns (current: Node)
    requires Shows(list, s) && list.entriesList != null
    modifies s.ring`readPermission
    ensures |s.counts| == |s.data| == |s.ring| > 0 && PinnedAt(list, s, 0, current)
  {
    current := list.entriesList;
    Pin(list, current, s, 0);
  }

  /** list.c:384-397: release the pin, step, and pin again unless the list is at its end. */
  method Advance(list: List, current: Node, ghost s: Snapshot, ghost i: nat) returns (next: Node, wrapped: bool)
    requires PinnedAt(list, s, i, current)
    modifies s.ring`readPermission
    ensures |s.data| == |s.counts| && (if wrapped then i + 1 == |s.counts| else i + 1 < |s.counts|)
    ensures if wrapped then Shows(list, s) && next == list.entriesList else PinnedAt(list, s, i + 1, next)
  {
    Unpin(list, current, s, i);
    hide NodesShow, Linked;
    NextStep(list, i);
    next := current.nextNode;
    wrapped := next == list.entriesList;
    if !wrapped {
      Pin(list, next, s, i + 1);
    }
  }

  /** list.c:349-378: release the pin and ask for the permission. */
  method Settle(list: List, current: Node, tag: Tag, ghost s: Snapshot, ghost i: nat) returns (granted: bool)
    requires PinnedAt(list, s, i, current)
    modifies s.ring`readPermission, s.ring`writePermission
    ensures i < |s.counts| == |s.ring| && s.ring[i] == current && granted == CanGrant(s.counts[i], tag)
    ensures Shows(list, if granted then s.WithCounts(i, WithGrant(s.counts[i], tag)) else s)
  {
    Unpin(list, current, s, i);
    hide NodesShow, Linked;
    granted := GrantAt(list, current, tag, s, i);
  }

  method Finish(list: List, current: Node, tag: Tag, index: int, ghost s: Snapshot) returns (r: int, out: Node?)
    requires index >= 0 && PinnedAt(list, s, index, current)
    modifies s.ring`readPermission, s.ring`writePermission
    ensures Found(list, s, index, tag, r, out)
  {
    hide Linked;
    var granted := Settle(list, current, tag, s, index);
    return if granted then index else LIST_PERMISSION_DENY, current;
  }

  lemma NothingFound(list: List, s: Snapshot, tag: Tag)
    requires Shows(list, s)
    ensures Found(list, s, |s.counts|, tag, AII_ERROR, null)
  {
    hide Linked;
  }

  lemma EmptyList(list: List, s: Snapshot, tag: Tag)
    requires Shows(list, s) && list.entriesList == null
    ensures s.counts == [] && s.data == [] && s.ring == [] && Found(list, s, 0, tag, AII_ERROR, null)
  {
    NothingFound(list, s, tag);
  }

  method ExamineSome(list: List, current: Node, v: Reading, cmp: seq<Comparator>, keyWords: seq<nat>, mask: int,
                     userData: nat, ghost s: Snapshot, ghost i: nat)
    returns (hit: bool)
    requires PinnedAt(list, s, i, current) && |cmp| <= |keyWords|
    ensures i < |s.data| && hit == FlagsSome(v, cmp, keyWords, mask, userData, s.data)[i]
  {
    hide PassesSome, Linked;
    hit := MatchSome(v, cmp, keyWords, mask, userData, current.data);
    FlagSomeAt(v, cmp, keyWords, mask, userData, s.data, i);
  }

  /** FindSW, list.c:322-401. */
  method FindSW(list: List, v: Reading, keyWords: seq<nat>, mask: int, userData: nat, tag: Tag, ghost s: Snapshot)
    returns (r: int, out: Node?)
    requires Shows(list, s) && |list.cmpFcnArray| <= |keyWords|
    modifies s.ring`readPermission, s.ring`writePermission
    ensures Found(list, s, FirstTrue(FlagsSome(v, old(list.cmpFcnArray), keyWords, mask, userData, s.data)),
                  tag, r, out)
  {
    hide FirstTrue, FlagsSome, Shows, PinnedAt, Found;
    var cmp := list.cmpFcnArray;
    ghost var flags := FlagsSome(v, cmp, keyWords, mask, userData, s.data);
    if list.entriesList == null {
      EmptyList(list, s, tag);
      return AII_ERROR, null;
    }
    var current := PinHead(list, s);
    var nodeIndex := 0;
    while true
      invariant nodeIndex < |flags| && PinnedAt(list, s, nodeIndex, current)
      invariant nodeIndex <= FirstTrue(flags)
      decreases |flags| - nodeIndex
    {
      var hit := ExamineSome(list, current, v, cmp, keyWords, mask, userData, s, nodeIndex);
      FirstTrueFrom(flags, nodeIndex);
      if hit {
        r, out := Finish(list, current, tag, nodeIndex, s);
        return;
      }
      var wrapped;
      current, wrapped := Advance(list, current, s, nodeIndex);
      nodeIndex := nodeIndex + 1;
      if wrapped {
        NothingFound(list, s, tag);
        return AII_ERROR, null;
      }
    }
  }

  lemma FlagAllAt(v: Reading, cmp: seq<Comparator>, keyWords: seq<nat>, mask: int, userData: Option<seq<nat>>,
                  data: seq<nat>, i: nat)
    requires |cmp| <= |keyWords| && (userData.Some? ==> |cmp| <= |userData.value|) && i < |data|
    ensures FlagsAll(v, cmp, keyWords, mask, userData, data)[i] == PassesAll(v, cmp, keyWords, mask, userData, data[i])
  {
  }

  method ExamineAll(list: List, current: Node, v: Reading, cmp: seq<Comparator>, keyWords: seq<nat>, mask: int,
                    userData: Option<seq<nat>>, ghost s: Snapshot, ghost i: nat) returns (hit: bool)
    requires PinnedAt(list, s, i, current)
    requires |cmp| <= |keyWords| && (userData.Some? ==> |cmp| <= |userData.value|)
    ensures i < |s.data| && hit == FlagsAll(v, cmp, keyWords, mask, userData, s.data)[i]
  {
    hide PassesAll, Linked;
    hit := MatchAll(v, cmp, keyWords, mask, userData, current.data);
    FlagAllAt(v, cmp, keyWords, mask, userData, s.data, i);
  }

  /** FindMW, list.c:452-565; line 453 refuses an output handle that is still empty. */
  method FindMW(list: List, handleEmpty: bool, v: Reading, keyWords: seq<nat>, mask: int, userData: Option<seq<nat>>,
                tag: Tag, ghost s: Snapshot)
    returns (r: int, out: Node?)
    requires Shows(list, s) && |list.cmpFcnArray| <= |keyWords|
    requires userData.Some? ==> |list.cmpFcnArray| <= |userData.value|
    modifies s.ring`readPermission, s.ring`writePermission
    ensures handleEmpty ==> r == AII_ERROR && out == null && Shows(list, s)
    ensures !handleEmpty ==>
      Found(list, s, FirstTrue(FlagsAll(v, old(list.cmpFcnArray), keyWords, mask, userData, s.data)), tag, r, out)
  {
    hide FirstTrue, FlagsAll, Shows, PinnedAt, Found;
    if handleEmpty { return AII_ERROR, null; }
    var cmp := list.cmpFcnArray;
    ghost var flags := FlagsAll(v, cmp, keyWords, mask, userData, s.data);
    if list.entriesList == null {
      EmptyList(list, s, tag);
      return AII_ERROR, null;
    }
    var current := PinHead(list, s);
    var nodeIndex := 0;
    while true
      invariant nodeIndex < |flags| && PinnedAt(list, s, nodeIndex, current)
      invariant nodeIndex <= FirstTrue(flags)
      decreases |flags| - nodeIndex
    {
      var hit := ExamineAll(list, current, v, cmp, keyWords, mask, userData, s, nodeIndex);
      FirstTrueFrom(flags, nodeIndex);
      if hit {
        r, out := Finish(list, current, tag, nodeIndex, s);
        return;
      }
      var wrapped;
      current, wrapped := Advance(list, current, s, nodeIndex);
      nodeIndex := nodeIndex + 1;
      if wrapped {
        NothingFound(list, s, tag);
        return AII_ERROR, null;
      }
    }
  }

  // ---------- searching by index ----------

  datatype Result = Result(status: int, counts: seq<Counters>)

  /** What list.c:581-584 promises for index `k`: the node's permission, or an error past the end. */
  function IndexPromise(counts: seq<Counters>, k: nat, tag: Tag): Result {
    if k >= |counts| then Result(AII_ERROR, counts)
    else if !CanGrant(counts[k], tag) then Result(LIST_PERMISSION_DENY, counts)
    else Result(AII_OK, counts[k := WithGrant(counts[k], tag)])
  }

  /** What list.c:619-685 does: index 0 ends at the test of line 652, and its pin stays. */
  function IndexResult(counts: seq<Counters>, k: nat, tag: Tag): Result {
    if k == 0 && counts != [] then Result(AII_ERROR, counts[0 := counts[0].(read := counts[0].read + 1)])
    else IndexPromise(counts, k, tag)
  }

  /** The promise is kept exactly for the indices other than 0, and on the empty list. */
  lemma IndexPromiseKept(counts: seq<Counters>, k: nat, tag: Tag)
    ensures IndexResult(counts, k, tag) == IndexPromise(counts, k, tag) <==> k != 0 || counts == []
  {
    if k == 0 && counts != [] {
      assert IndexResult(counts, k, tag).counts[0] != counts[0];
    }
  }

  /** list.c:629-650. */
  method StepTo(list: List, indexNum: nat, ghost s: Snapshot) returns (current: Node, ghost wrapped: bool)
    requires Shows(list, s) && list.entriesList != null
    modifies s.ring`readPermission
    ensures |s.ring| == |s.counts| > 0 && (wrapped <==> indexNum >= |s.counts|)
    ensures if wrapped then Shows(list, s) && current == list.entriesList else PinnedAt(list, s, indexNum, current)
  {
    hide Shows, PinnedAt;
    current := PinHead(list, s);
    var remaining := indexNum;
    while remaining > 0
      invariant 0 <= remaining <= indexNum && indexNum - remaining < |s.counts|
      invariant PinnedAt(list, s, indexNum - remaining, current)
    {
      var atEnd;
      current, atEnd := Advance(list, current, s, indexNum - remaining);
      if atEnd {
        return current, true;
      }
      remaining := remaining - 1;
    }
    wrapped := false;
  }

  lemma HeadOnlyAtZero(list: List, s: Snapshot, i: nat, current: Node)
    requires PinnedAt(list, s, i, current)
    ensures current == list.entriesList <==> i == 0
    ensures i < |s.ring| == |s.counts| && current == s.ring[i]
  {
  }

  /** The pin that index 0 leaves behind. */
  lemma PinStays(list: List, s: Snapshot, current: Node, tag: Tag)
    requires PinnedAt(list, s, 0, current)
    ensures Shows(list, s.(counts := IndexResult(s.counts, 0, tag).counts)) && s.counts != []
  {
    hide Linked;
  }

  /** FindNodeNum, list.c:601-685; line 601 refuses an output handle that is still empty. */
  method FindNodeNum(list: List, handleEmpty: bool, indexNum: int, tag: Tag, ghost s: Snapshot)
    returns (r: int, out: Node?)
    requires Shows(list, s)
    modifies s.ring`readPermission, s.ring`writePermission
    ensures handleEmpty || indexNum < 0 ==> r == AII_ERROR && out == null && Shows(list, s)
    ensures !handleEmpty && indexNum >= 0 ==>
      var x := IndexResult(s.counts, indexNum, tag);
      r == x.status && Shows(list, s.(counts := x.counts))
    ensures r == AII_OK || r == LIST_PERMISSION_DENY || r == AII_ERROR
    ensures r == AII_ERROR <==> handleEmpty || indexNum <= 0 || indexNum >= |s.ring|
    ensures !handleEmpty && 0 < indexNum < |s.ring| ==> |s.counts| == |s.ring| && var c := s.counts[indexNum];
      && (tag == ReadTag ==> (r == AII_OK <==> c.write <= 0))
      && (tag == WriteTag ==> (r == AII_OK <==> c.read <= 0 && c.write <= 0))
      && Shows(list, if r != AII_OK || tag == OtherTag then s else s.WithCounts(indexNum,
           if tag == ReadTag then Counters(c.read + 1, c.write) else Counters(c.read, c.write + 1)))
    ensures !handleEmpty && indexNum == 0 && s.ring != [] ==>
      |s.counts| == |s.ring| && Shows(list, s.WithCounts(0, Counters(s.counts[0].read + 1, s.counts[0].write)))
    ensures handleEmpty || indexNum < 0 || indexNum >= |s.ring| ==> Shows(list, s)
    ensures if !handleEmpty && 0 < indexNum < |s.ring| then out == s.ring[indexNum] else out == null
  {
    hide Shows, PinnedAt, Found;
    assert s.(counts := s.counts) == s;
    if handleEmpty || indexNum < 0 { return AII_ERROR, null; }
    if list.entriesList == null {
      EmptyList(list, s, tag);
      return AII_ERROR, null;
    }
    var current, wrapped := StepTo(list, indexNum, s);
    if !wrapped {
      HeadOnlyAtZero(list, s, indexNum, current);
    }
    if current == list.entriesList {
      if !wrapped {
        PinStays(list, s, current, tag);
      }
      return AII_ERROR, null;
    }
    var granted := Settle(list, current, tag, s, indexNum);
    assert s.counts[indexNum := s.counts[indexNum]] == s.counts;
    return if granted then AII_OK else LIST_PERMISSION_DENY, current;
  }
}
