/** The deletes of list.c that search first, and the delete of the whole list. */
module ListDelete {
  import opened Sequences
  import opened ListRules
  import opened LinkedList
  import opened ListSearch

  ghost function Without(s: Snapshot, k: nat): Snapshot
    requires k < |s.ring| == |s.counts| == |s.data|
  {
    Snapshot(RemoveAt(s.ring, k), RemoveAt(s.counts, k), RemoveAt(s.data, k))
  }

  /** list.c:946-996 and list.c:1064-1114: give the write permission back, look again, unlink. */
  method TakeAway(list: List, node: Node, ghost s: Snapshot, ghost k: nat) returns (r: int, data: nat)
    requires k < |s.ring| == |s.counts| == |s.data| && node == s.ring[k] && CanGrant(s.counts[k], WriteTag)
    requires Shows(list, s.WithCounts(k, WithGrant(s.counts[k], WriteTag)))
    modifies list`entriesList, list`entryAmount, list`ring
    modifies s.ring`writePermission, s.ring`nextNode, s.ring`previousNode
    ensures r == AII_OK && data == s.data[k] && Shows(list, Without(s, k))
  {
    hide Linked;
    GiveBack(list, node, s, k);
    assert node.Count() == s.counts[k];
    if node.readPermission > 0 || node.writePermission > 0 {
      assert false;  // list.c:956 finds nobody when no other thread interferes
    }
    data := node.data;
    UnlinkShown(list, node, s, k);
    r := AII_OK;
  }

  method GiveBack(list: List, node: Node, ghost s: Snapshot, ghost k: nat)
    requires k < |s.ring| == |s.counts| == |s.data| && node == s.ring[k]
    requires Shows(list, s.WithCounts(k, WithGrant(s.counts[k], WriteTag)))
    modifies node`writePermission
    ensures Shows(list, s)
  {
    ghost var c := WithGrant(s.counts[k], WriteTag);
    SnapshotBack(s, k, c);
    node.writePermission := node.writePermission - 1;
    OneCountChanged(s.WithCounts(k, c), k, s.counts[k]);
  }

  lemma NodesShowWithout(s: Snapshot, k: nat)
    requires NodesShow(s) && k < |s.ring|
    ensures NodesShow(Without(s, k))
  {
    var t := Without(s, k);
    forall i | 0 <= i < |t.ring|
      ensures t.ring[i].Count() == t.counts[i] && t.ring[i].data == t.data[i]
    {
      var j := if i < k then i else i + 1;
      assert t.ring[i] == s.ring[j] && t.counts[i] == s.counts[j] && t.data[i] == s.data[j];
    }
  }

  method UnlinkShown(list: List, node: Node, ghost s: Snapshot, ghost k: nat)
    requires k < |s.ring| == |s.counts| == |s.data| && node == s.ring[k] && Shows(list, s)
    modifies list`entriesList, list`entryAmount, list`ring
    modifies s.ring`nextNode, s.ring`previousNode
    ensures Shows(list, Without(s, k))
  {
    IndexOfAt(s.ring, k);
    hide Linked, IndexOf, RemoveAt, NodesShow;
    list.Unlink(node);
    NodesShowWithout(s, k);
  }

  /** Position `k` is where the search stopped; nothing but the deleted node changes. */
  ghost predicate Deleted(list: List, s: Snapshot, k: nat, r: int, data: nat)
    reads list, list.ring, s.ring, if k < |s.ring| == |s.counts| == |s.data| then Without(s, k).ring else []
  {
    && k <= |s.ring| == |s.counts| == |s.data|
    && if k == |s.ring| then r == AII_ERROR && Shows(list, s)
       else if !CanGrant(s.counts[k], WriteTag) then r == LIST_PERMISSION_DENY && Shows(list, s)
       else r == AII_OK && data == s.data[k] && Shows(list, Without(s, k))
  }

  /** The three answers, without the name of the test. */
  lemma DeletedMeans(list: List, s: Snapshot, k: nat, r: int, data: nat)
    requires Deleted(list, s, k, r, data)
    ensures k <= |s.ring| == |s.counts| == |s.data|
    ensures r == AII_ERROR <==> k == |s.ring|
    ensures r == LIST_PERMISSION_DENY <==> k < |s.ring| && (s.counts[k].read > 0 || s.counts[k].write > 0)
    ensures r == AII_OK <==> k < |s.ring| && s.counts[k].read <= 0 && s.counts[k].write <= 0
    ensures if r != AII_OK then Shows(list, s)
            else && data == s.data[k]
                 && Shows(list, Snapshot(s.ring[..k] + s.ring[k + 1..], s.counts[..k] + s.counts[k + 1..],
                                         s.data[..k] + s.data[k + 1..]))
  {
    hide Shows;
  }

  /** DeleteNodeSW, list.c:901-997; `data` is what *DelNodeDataPtr is set to. */
  method DeleteNodeSW(list: List, v: Reading, keyWords: seq<nat>, mask: int, userData: nat, ghost s: Snapshot)
    returns (r: int, data: nat)
    requires Shows(list, s) && |list.cmpFcnArray| <= |keyWords|
    modifies list`entriesList, list`entryAmount, list`ring
    modifies s.ring`readPermission, s.ring`writePermission, s.ring`nextNode, s.ring`previousNode
    ensures mask == 0 ==> r == AII_ERROR && Shows(list, s)
    ensures mask != 0 ==>
      Deleted(list, s, FirstTrue(FlagsSome(v, old(list.cmpFcnArray), keyWords, mask, userData, s.data)), r, data)
  {
    data := 0;
    if mask == 0 { return AII_ERROR, 0; }
    hide FirstTrue, FlagsSome;
    ghost var k := FirstTrue(FlagsSome(v, list.cmpFcnArray, keyWords, mask, userData, s.data));
    var node;
    r, node := FindSW(list, v, keyWords, mask, userData, WriteTag, s);
    r, data := AfterFind(list, r, node, s, k);
  }

  /** DeleteNodeMW, list.c:1019-1115; `stackWord` is what the uninitialised handle at list.c:1027 holds. */
  method DeleteNodeMW(list: List, stackWord: nat, v: Reading, keyWords: seq<nat>, mask: int, userData: Option<seq<nat>>,
                      ghost s: Snapshot)
    returns (r: int, data: nat)
    requires Shows(list, s) && |list.cmpFcnArray| <= |keyWords|
    requires userData.Some? ==> |list.cmpFcnArray| <= |userData.value|
    modifies list`entriesList, list`entryAmount, list`ring
    modifies s.ring`readPermission, s.ring`writePermission, s.ring`nextNode, s.ring`previousNode
    ensures mask == 0 || stackWord == 0 ==> r == AII_ERROR && Shows(list, s)
    ensures mask != 0 && stackWord != 0 ==>
      Deleted(list, s, FirstTrue(FlagsAll(v, old(list.cmpFcnArray), keyWords, mask, userData, s.data)), r, data)
  {
    if mask == 0 { return AII_ERROR, 0; }
    hide FirstTrue, FlagsAll;
    ghost var k := FirstTrue(FlagsAll(v, list.cmpFcnArray, keyWords, mask, userData, s.data));
    var node;
    r, node := FindMW(list, stackWord == 0, v, keyWords, mask, userData, WriteTag, s);
    if stackWord == 0 { return r, 0; }
    r, data := AfterFind(list, r, node, s, k);
  }

  method AfterFind(list: List, found: int, node: Node?, ghost s: Snapshot, ghost k: nat) returns (r: int, data: nat)
    requires Found(list, s, k, WriteTag, found, node) && |s.data| == |s.ring|
    modifies list`entriesList, list`entryAmount, list`ring
    modifies s.ring`writePermission, s.ring`nextNode, s.ring`previousNode
    ensures Deleted(list, s, k, r, data)
  {
    hide Linked;
    if found == AII_ERROR || found == LIST_PERMISSION_DENY {
      return found, 0;
    }
    r, data := TakeAway(list, node, s, k);
  }

  /** Delete, list.c:1239-1271: the head goes too when no node is left. */
  method Delete(list: List, keepSurvivor: bool) returns (r: int)
    requires list.Valid() && list.CountsNatural()
    modifies list`entriesList, list`entryAmount, list`ring, list.ring`nextNode, list.ring`previousNode
    ensures r == |Keep(old(list.ring), old(list.Held()))|
    ensures r == AII_OK <==>
      forall x :: x in old(list.ring) ==> !(old(x.readPermission) > 0 || old(x.writePermission) > 0)
    ensures r == AII_OK ==> list.Valid() && list.ring == []
  {
    ghost var ring, held := list.ring, list.Held();
    KeepLength(ring, held);
    var left, _ := list.DeleteNodes(keepSurvivor);
    if left != 0 {
      return left;
    }
    return AII_OK;
  }
}
