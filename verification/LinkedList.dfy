/** The list of list.c as linked nodes in memory, called by one thread at a time. */
module LinkedList {
  import opened Sequences
  import opened ListRules

  const AII_OK := 0
  const AII_ERROR := -1
  const LIST_PERMISSION_DENY := -2

  class Node {
    var data: nat
    var length: int
    var readPermission: int
    var writePermission: int
    var previousNode: Node?
    var nextNode: Node?

    constructor (data: nat, length: int)
      ensures this.data == data && this.length == length && readPermission == 0 && writePermission == 0
    {
      this.data, this.length := data, length;
      readPermission, writePermission := 0, 0;
      previousNode, nextNode := null, null;
    }

    function Count(): Counters
      reads this`readPermission, this`writePermission
    {
      Counters(readPermission, writePermission)
    }

    /** The switch at the end of the searches (list.c:354-376) and in GetPermisssion (list.c:1414-1440). */
    method Grant(tag: Tag) returns (granted: bool)
      modifies `readPermission, `writePermission
      ensures granted == CanGrant(old(Count()), tag)
      ensures Count() == if granted then WithGrant(old(Count()), tag) else old(Count())
      ensures tag == ReadTag ==> (granted <==> old(writePermission) <= 0)
      ensures tag == WriteTag ==> (granted <==> old(readPermission) <= 0 && old(writePermission) <= 0)
      ensures tag == OtherTag ==> granted
      ensures readPermission == old(readPermission) + if granted && tag == ReadTag then 1 else 0
      ensures writePermission == old(writePermission) + if granted && tag == WriteTag then 1 else 0
    {
      match tag {
        case ReadTag =>
          if writePermission > 0 { return false; }
          readPermission := readPermission + 1;
        case WriteTag =>
          if readPermission > 0 || writePermission > 0 { return false; }
          writePermission := writePermission + 1;
        case OtherTag =>
      }
      return true;
    }

    /** The switch in ReleasePermission, list.c:1315-1331: it undoes a grant, and without one does nothing. */
    method Release(tag: Tag)
      modifies `readPermission, `writePermission
      ensures forall c: Counters ::
        old(Count()) == WithGrant(c, tag) && Granted(WithGrant(c, tag), tag) ==> Count() == c
      ensures !Granted(old(Count()), tag) ==> Count() == old(Count())
    {
      match tag {
        case ReadTag =>
          if readPermission > 0 { readPermission := readPermission - 1; }
        case WriteTag =>
          if writePermission > 0 { writePermission := writePermission - 1; }
        case OtherTag =>
      }
    }
  }

  function After(i: nat, n: nat): (j: nat)
    requires i < n
    ensures j < n
  {
    if i + 1 == n then 0 else i + 1
  }

  function Before(i: nat, n: nat): (j: nat)
    requires i < n
    ensures j < n
  {
    if i == 0 then n - 1 else i - 1
  }

  /** `r` is closed under both links, which are each other's inverse. */
  ghost predicate Linked(r: seq<Node>)
    reads r`nextNode, r`previousNode
  {
    && Distinct(r)
    && (forall i {:trigger r[i].nextNode} :: 0 <= i < |r| ==> r[i].nextNode == r[After(i, |r|)])
    && (forall i {:trigger r[i].previousNode} :: 0 <= i < |r| ==> r[i].previousNode == r[Before(i, |r|)])
  }

  /** The links of `r` after `x` was spliced in before position `i`, or after the last node if `i == |r|`. */
  ghost predicate SplicedIn(r: seq<Node>, i: nat, x: Node)
    requires 0 < |r| && i <= |r|
    reads r`nextNode, r`previousNode, x`nextNode, x`previousNode
  {
    var k := if i == |r| then 0 else i;
    && Distinct(r) && x !in r
    && x.nextNode == r[k] && x.previousNode == r[Before(k, |r|)]
    && (forall j {:trigger r[j].nextNode} :: 0 <= j < |r| ==>
          r[j].nextNode == if j == Before(k, |r|) then x else r[After(j, |r|)])
    && (forall j {:trigger r[j].previousNode} :: 0 <= j < |r| ==>
          r[j].previousNode == if j == k then x else r[Before(j, |r|)])
  }

  lemma SplicedInLinks(r: seq<Node>, i: nat, x: Node)
    requires 0 < |r| && i <= |r| && SplicedIn(r, i, x)
    ensures Linked(InsertAt(r, i, x))
    ensures |InsertAt(r, i, x)| == |r| + 1 && InsertAt(r, i, x)[0] == if i == 0 then x else r[0]
  {
    InsertAtMembers(r, i, x);
    var t := InsertAt(r, i, x);
    forall j | 0 <= j < |t|
      ensures t[j].nextNode == t[After(j, |t|)] && t[j].previousNode == t[Before(j, |t|)]
    {
      assert t[j] == if j < i then r[j] else if j == i then x else r[j - 1];
    }
  }

  /** The links of `r` after its node `i` was bypassed. */
  ghost predicate Bypassed(r: seq<Node>, i: nat)
    requires i < |r|
    reads r`nextNode, r`previousNode
  {
    && Distinct(r)
    && (forall j {:trigger r[j].nextNode} :: 0 <= j < |r| && j != i ==>
          r[j].nextNode == r[After(if j == Before(i, |r|) then i else j, |r|)])
    && (forall j {:trigger r[j].previousNode} :: 0 <= j < |r| && j != i ==>
          r[j].previousNode == r[Before(if j == After(i, |r|) then i else j, |r|)])
  }

  lemma BypassedLinks(r: seq<Node>, i: nat)
    requires i < |r| && Bypassed(r, i)
    ensures Linked(RemoveAt(r, i))
    ensures |RemoveAt(r, i)| == |r| - 1
    ensures |r| > 1 ==> RemoveAt(r, i)[0] == r[if i == 0 then 1 else 0]
  {
    RemoveAtMembers(r, i);
    var t := RemoveAt(r, i);
    forall j | 0 <= j < |t|
      ensures t[j].nextNode == t[After(j, |t|)] && t[j].previousNode == t[Before(j, |t|)]
    {
      assert t[j] == r[if j < i then j else j + 1];
    }
  }

  /** list.c:973-974: the two link assignments that take the head out. */
  method BypassHead(node: Node, ghost r: seq<Node>)
    requires Linked(r) && 1 < |r| && r[0] == node
    modifies r`nextNode, r`previousNode
    ensures Linked(RemoveAt(r, 0))
    ensures |RemoveAt(r, 0)| == |r| - 1 && RemoveAt(r, 0)[0] == r[1]
  {
    assert node.previousNode == r[Before(0, |r|)] && node.nextNode == r[After(0, |r|)];
    node.nextNode.previousNode := node.previousNode;
    node.previousNode.nextNode := node.nextNode;
    BypassedLinks(r, 0);
  }

  /** list.c:980-981: the same for any other node, in the other order. */
  method Bypass(node: Node, ghost r: seq<Node>, ghost i: nat)
    requires Linked(r) && 1 < |r| && i < |r| && r[i] == node
    modifies r`nextNode, r`previousNode
    ensures Linked(RemoveAt(r, i))
    ensures |RemoveAt(r, i)| == |r| - 1 && RemoveAt(r, i)[0] == r[if i == 0 then 1 else 0]
  {
    assert node.previousNode == r[Before(i, |r|)] && node.nextNode == r[After(i, |r|)];
    node.previousNode.nextNode := node.nextNode;
    node.nextNode.previousNode := node.previousNode;
    BypassedLinks(r, i);
  }

  /** list.c:745-750 and 831-835: a node goes before the head. */
  method SpliceBeforeHead(x: Node, node: Node, ghost r: seq<Node>, ghost i: nat)
    requires Linked(r) && i < |r| && r[i] == node && x !in r
    modifies x`nextNode, x`previousNode, r`nextNode, r`previousNode
    ensures Linked(InsertAt(r, i, x))
    ensures |InsertAt(r, i, x)| == |r| + 1 && InsertAt(r, i, x)[0] == if i == 0 then x else r[0]
  {
    assert node.previousNode == r[Before(i, |r|)];
    x.previousNode := node.previousNode;
    x.previousNode.nextNode := x;
    x.nextNode := node;
    node.previousNode := x;
    SplicedInLinks(r, i, x);
  }

  /** list.c:839-843: a node goes before another one. */
  method SpliceBefore(x: Node, node: Node, ghost r: seq<Node>, ghost i: nat)
    requires Linked(r) && i < |r| && r[i] == node && x !in r
    modifies x`nextNode, x`previousNode, r`nextNode, r`previousNode
    ensures Linked(InsertAt(r, i, x))
    ensures |InsertAt(r, i, x)| == |r| + 1 && InsertAt(r, i, x)[0] == if i == 0 then x else r[0]
  {
    assert node.previousNode == r[Before(i, |r|)];
    var current := node.previousNode;
    current.nextNode := x;
    x.previousNode := current;
    x.nextNode := node;
    node.previousNode := x;
    SplicedInLinks(r, i, x);
  }

  /** list.c:850-853: a node goes behind the last one. */
  method SpliceAfterRear(x: Node, node: Node, ghost r: seq<Node>, ghost i: nat)
    requires Linked(r) && i < |r| && r[i] == node && x !in r
    modifies x`nextNode, x`previousNode, r`nextNode, r`previousNode
    ensures Linked(InsertAt(r, i + 1, x))
    ensures |InsertAt(r, i + 1, x)| == |r| + 1 && InsertAt(r, i + 1, x)[0] == r[0]
  {
    assert node.nextNode == r[After(i, |r|)];
    x.previousNode := node;
    x.nextNode := node.nextNode;
    x.nextNode.previousNode := x;
    node.nextNode := x;
    SplicedInLinks(r, i + 1, x);
  }

  /** list.c:857-861: a node goes behind another one. */
  method SpliceAfter(x: Node, node: Node, ghost r: seq<Node>, ghost i: nat)
    requires Linked(r) && i < |r| && r[i] == node && x !in r
    modifies x`nextNode, x`previousNode, r`nextNode, r`previousNode
    ensures Linked(InsertAt(r, i + 1, x))
    ensures |InsertAt(r, i + 1, x)| == |r| + 1 && InsertAt(r, i + 1, x)[0] == r[0]
  {
    assert node.nextNode == r[After(i, |r|)];
    var current := node.nextNode;
    node.nextNode := x;
    x.previousNode := node;
    x.nextNode := current;
    current.previousNode := x;
    SplicedInLinks(r, i + 1, x);
  }

  lemma Neighbours(r: seq<Node>, i: nat)
    requires Linked(r) && i < |r|
    ensures r[i].nextNode == r[After(i, |r|)] && r[i].previousNode == r[Before(i, |r|)]
    ensures r[i] == r[0] <==> i == 0
  {
  }

  ghost function Follow(r: seq<Node>, x: Node, k: nat): Node
    requires Linked(r) && x in r
    reads r`nextNode, r`previousNode
  {
    if k == 0 then x else
      var i :| 0 <= i < |r| && r[i] == x;
      assert x.nextNode == r[After(i, |r|)];
      Follow(r, x.nextNode, k - 1)
  }

  /** Following NextNode from the head visits every node once and returns; PreviousNode is its inverse. */
  lemma {:induction false} RingWalk(r: seq<Node>, i: nat, k: nat)
    requires Linked(r) && i < |r| && i + k <= |r|
    ensures Follow(r, r[i], k) == r[if i + k == |r| then 0 else i + k]
    ensures r[i].nextNode != null && r[i].nextNode.previousNode == r[i]
    decreases k
  {
    assert r[After(i, |r|)].previousNode == r[Before(After(i, |r|), |r|)];
    if k > 0 && i + 1 < |r| {
      RingWalk(r, i + 1, k - 1);
    }
  }

  /** The links leave no choice: two rings with the same head are the same sequence. */
  lemma LinksDetermineRing(r: seq<Node>, t: seq<Node>)
    requires Linked(r) && Linked(t) && r != [] && t != [] && r[0] == t[0]
    ensures r == t
  {
    if |r| <= |t| {
      ShorterIsSame(r, t);
    } else {
      ShorterIsSame(t, r);
    }
  }

  lemma ShorterIsSame(r: seq<Node>, t: seq<Node>)
    requires Linked(r) && Linked(t) && r != [] && |r| <= |t| && r[0] == t[0]
    ensures r == t
  {
    SamePrefix(r, t, |r|);
    assert t[|r| - 1].nextNode == r[0];
  }

  lemma {:induction false} SamePrefix(r: seq<Node>, t: seq<Node>, m: nat)
    requires Linked(r) && Linked(t) && r != [] && t != [] && r[0] == t[0] && 0 < m <= |r| <= |t|
    ensures forall i :: 0 <= i < m ==> r[i] == t[i]
  {
    if m > 1 {
      SamePrefix(r, t, m - 1);
      assert r[m - 1] == r[m - 2].nextNode == t[m - 2].nextNode == t[m - 1];
    }
  }

  ghost predicate IsNew(node: Node, length: int, data: nat)
    reads node`data, node`length, node`readPermission, node`writePermission
  {
    node.data == data && node.length == length && node.Count() == Counters(0, 0)
  }

  class List {
    var cmpFcnArray: seq<Comparator>
    var entryAmount: int
    var entriesList: Node?
    ghost var ring: seq<Node>

    /** EntriesList, the links and EntryAmount describe exactly the nodes `r`, in this order. */
    ghost predicate Describes(r: seq<Node>)
      reads `entryAmount, `entriesList, r`nextNode, r`previousNode
    {
      && entryAmount == |r|
      && entriesList == (if r == [] then null else r[0])
      && Linked(r)
    }

    ghost predicate Valid()
      reads `ring, `entryAmount, `entriesList, ring`nextNode, ring`previousNode
    {
      Describes(ring)
    }

    constructor (cmpFcnArray: seq<Comparator>)
      ensures Valid() && ring == [] && this.cmpFcnArray == cmpFcnArray
    {
      this.cmpFcnArray := cmpFcnArray;
      entryAmount, entriesList, ring := 0, null, [];
    }

    // ---------- insertion ----------

    /** list.c:702-760. */
    method InsertNodeHead(length: int, data: nat) returns (status: int, ghost node: Node?)
      requires Valid()
      modifies `entriesList, `entryAmount, `ring, ring`nextNode, ring`previousNode
      ensures Valid()
      ensures data == 0 ==> status == AII_ERROR && ring == old(ring)
      ensures data != 0 ==>
        && status == AII_OK && node != null && IsNew(node, length, data) && fresh(node)
        && ring == InsertAt(old(ring), 0, node)
    {
      if data == 0 { return AII_ERROR, null; }
      var inserted := new Node(data, length);
      var current := entriesList;
      if current == null {
        entriesList := inserted;
        inserted.nextNode, inserted.previousNode := inserted, inserted;
        entryAmount := entryAmount + 1;
        ring := [inserted];
      } else {
        SpliceBeforeHead(inserted, current, ring, 0);
        entriesList := inserted;
        hide Linked, InsertAt;
        entryAmount := entryAmount + 1;
        ring := InsertAt(ring, 0, inserted);
      }
      return AII_OK, inserted;
    }

    /** list.c:828-845. */
    method MountBefore(x: Node, at: Node, ghost i: nat)
      requires Valid() && i < |ring| && ring[i] == at && x !in ring
      modifies `entriesList, `entryAmount, `ring, x`nextNode, x`previousNode, ring`nextNode, ring`previousNode
      ensures Valid() && ring == InsertAt(old(ring), i, x)
    {
      Neighbours(ring, i);
      hide Linked, Distinct, InsertAt;
      if at == entriesList {
        entriesList := x;
        SpliceBeforeHead(x, at, ring, i);
      } else {
        SpliceBefore(x, at, ring, i);
      }
      entryAmount := entryAmount + 1;
      ring := InsertAt(ring, i, x);
    }

    /** list.c:847-863. */
    method MountAfter(x: Node, at: Node, ghost i: nat)
      requires Valid() && i < |ring| && ring[i] == at && x !in ring
      modifies `entryAmount, `ring, x`nextNode, x`previousNode, ring`nextNode, ring`previousNode
      ensures Valid() && ring == InsertAt(old(ring), i + 1, x)
    {
      hide Linked, Distinct, InsertAt;
      if at.nextNode == entriesList {
        SpliceAfterRear(x, at, ring, i);
      } else {
        SpliceAfter(x, at, ring, i);
      }
      entryAmount := entryAmount + 1;
      ring := InsertAt(ring, i + 1, x);
    }

    /** list.c:778-877; `position` 0 is before, 1 is after, anything else is an error. */
    method InsertNodeHandle(at: Node, position: int, length: int, data: nat) returns (status: int, ghost node: Node?)
      requires Valid() && at in ring
      modifies `entriesList, `entryAmount, `ring, ring`nextNode, ring`previousNode
      ensures Valid()
      ensures status == if length < 0 || data == 0 || (position != 0 && position != 1) then AII_ERROR else AII_OK
      ensures status == AII_ERROR ==> ring == old(ring)
      ensures status == AII_OK ==>
        && node != null && IsNew(node, length, data) && fresh(node)
        && ring == InsertAt(old(ring), IndexOf(old(ring), at) + position, node)
    {
      if length < 0 || data == 0 || (position != 0 && position != 1) { return AII_ERROR, null; }
      hide Linked, Distinct, IndexOf, InsertAt;
      var inserted := new Node(data, length);
      ghost var i := IndexOf(ring, at) + position;
      Neighbours(ring, i - position);
      assert IsNew(inserted, length, data);
      hide IsNew;
      if position == 0 {
        MountBefore(inserted, at, i);
      } else {
        MountAfter(inserted, at, i - 1);
      }
      return AII_OK, inserted;
    }

    /** The unlinking shared by list.c:962-985 and list.c:1080-1103. */
    method Unlink(node: Node)
      requires Valid() && node in ring
      modifies `entriesList, `entryAmount, `ring, ring`nextNode, ring`previousNode
      ensures Valid() && ring == RemoveAt(old(ring), IndexOf(old(ring), node))
    {
      ghost var i := IndexOf(ring, node);
      ghost var rest := RemoveAt(ring, i);
      if node == entriesList {
        if node.nextNode == node {
          entriesList := null;
          assert |ring| == 1 && rest == [];
        } else {
          entriesList := node.nextNode;
          BypassHead(node, ring);
        }
      } else {
        Bypass(node, ring, i);
      }
      assert Linked(rest) && entriesList == (if rest == [] then null else rest[0]) && |rest| == |ring| - 1;
      hide Linked, RemoveAt, IndexOf;
      entryAmount := entryAmount - 1;
      ring := rest;
    }

    // ---------- the bulk delete ----------

    /** The survivors `h` and the nodes `rest` not yet looked at, when every link from `rest` on is as it was. */
    ghost predicate Chain(h: seq<Node>, rest: seq<Node>)
      reads `entryAmount, `entriesList, h`nextNode, rest`nextNode, rest`previousNode, h`previousNode
    {
      && rest != [] && Distinct(rest) && (forall x :: x in h ==> x !in rest) && entryAmount == |h| + |rest|
      && (forall j {:trigger rest[j].nextNode} :: 0 <= j < |rest| - 1 ==> rest[j].nextNode == rest[j + 1])
      && (forall j {:trigger rest[j].previousNode} :: 0 < j < |rest| ==> rest[j].previousNode == rest[j - 1])
      && entriesList == (if h == [] then rest[0] else h[0])
      && rest[|rest| - 1].nextNode == entriesList
    }

    lemma DistinctParts(h: seq<Node>, rest: seq<Node>)
      requires Distinct(h + rest)
      ensures Distinct(rest) && forall x :: x in h ==> x !in rest
    {
      var r := h + rest;
      assert forall j :: 0 <= j < |rest| ==> r[|h| + j] == rest[j];
      forall x | x in h ensures x !in rest {
        var i :| 0 <= i < |h| && h[i] == x;
        assert r[i] == x;
      }
      forall i, j | 0 <= i < j < |rest| ensures rest[i] != rest[j] {
        assert r[|h| + i] != r[|h| + j];
      }
    }

    lemma DescribesChain(h: seq<Node>, rest: seq<Node>)
      requires Describes(h + rest) && rest != []
      ensures Chain(h, rest)
      ensures rest[0].previousNode == if h == [] then rest[|rest| - 1] else h[|h| - 1]
      ensures h != [] ==> h[|h| - 1].nextNode == rest[0]
    {
      var r := h + rest;
      DistinctParts(h, rest);
      hide Distinct;
      assert r[|h|] == rest[0] && r[|r| - 1] == rest[|rest| - 1];
      assert h != [] ==> r[0] == h[0] && r[|h| - 1] == h[|h| - 1];
      forall j | 0 <= j < |rest|
        ensures j < |rest| - 1 ==> rest[j].nextNode == rest[j + 1]
        ensures j > 0 ==> rest[j].previousNode == rest[j - 1]
        ensures j == |rest| - 1 ==> rest[j].nextNode == entriesList
      {
        assert r[|h| + j] == rest[j];
        assert j < |rest| - 1 ==> r[|h| + (j + 1)] == rest[j + 1];
        assert j > 0 ==> r[|h| + (j - 1)] == rest[j - 1];
      }
    }

    /** The state of the sweep before it looks at `rest[0]`; `prior` is the node looked at before, and `lost` a
        survivor whose NextNode was freed, out of reach of every later assignment, if there is one. */
    ghost predicate Sweeping(h: seq<Node>, rest: seq<Node>, prior: Node?, previous: Node, keepSurvivor: bool,
                             lost: Node?)
      reads `entryAmount, `entriesList, h`nextNode, rest`nextNode, rest`previousNode, h`previousNode
    {
      && Chain(h, rest)
      && (if h == [] then previous == rest[0] && lost == null
          else prior !in rest && previous == if keepSurvivor then h[|h| - 1] else prior)
      && (lost == null ==> Linked(h + rest))
      && (lost != null ==> lost in h && lost.nextNode !in h + rest && lost != prior && !keepSurvivor
                           && rest[0].previousNode != lost && rest[0].previousNode !in rest)
    }

    /** list.c:1188-1192: a held node stays. */
    lemma Skip(h: seq<Node>, rest: seq<Node>, prior: Node?, previous: Node, keepSurvivor: bool, lost: Node?)
      requires Sweeping(h, rest, prior, previous, keepSurvivor, lost) && |rest| > 1
      ensures Sweeping(h + [rest[0]], rest[1..], rest[0], rest[0], keepSurvivor, lost)
      ensures rest[0].nextNode == rest[1] && rest[1].previousNode == rest[0]
    {
      assert (h + [rest[0]]) + rest[1..] == h + rest;
    }

    lemma StartSweep(rest: seq<Node>, prior: Node?, keepSurvivor: bool)
      requires Describes(rest) && rest != []
      ensures Sweeping([], rest, prior, rest[0], keepSurvivor, null) && rest[0].previousNode == rest[|rest| - 1]
    {
      hide Linked;
      assert [] + rest == rest;
      DescribesChain([], rest);
    }

    /** The memory handed to `free` so far, in the order of the calls; nothing is handed over twice. */
    ghost function Free(freed: seq<Node>, node: Node): seq<Node>
      requires node !in freed
    {
      freed + [node]
    }

    /** list.c:1195-1202: an unheld head goes. */
    method DropHead(current: Node, ghost rest: seq<Node>, ghost prior: Node?, ghost keepSurvivor: bool,
                    ghost freed: seq<Node>)
      returns (ghost freed': seq<Node>)
      requires Sweeping([], rest, prior, current, keepSurvivor, null) && |rest| > 1 && current !in freed
      modifies `entriesList, `entryAmount, rest`nextNode, rest`previousNode
      ensures entriesList == rest[1] && Sweeping([], rest[1..], current, rest[1], keepSurvivor, null)
      ensures rest[1].previousNode == rest[|rest| - 1] && freed' == freed + [current]
    {
      assert [] + rest == rest && RemoveAt(rest, 0) == rest[1..];
      entriesList := current.nextNode;
      BypassHead(current, rest);
      freed' := Free(freed, current);
      hide Linked, RemoveAt, Bypassed;
      entryAmount := entryAmount - 1;
      StartSweep(rest[1..], current, keepSurvivor);
    }

    /** list.c:1207-1208 with the right predecessor, and list.c:1179-1180: a proper removal. */
    lemma TakenOut(h: seq<Node>, rest: seq<Node>)
      requires h != [] && rest != [] && Bypassed(h + rest, |h|)
      ensures Linked(h + rest[1..])
    {
      BypassedLinks(h + rest, |h|);
      assert RemoveAt(h + rest, |h|) == h + rest[1..];
    }

    /** The two assignments of list.c:1207-1208 where the predecessor is the right one. */
    lemma RightNeighbours(h: seq<Node>, rest: seq<Node>)
      requires h != [] && rest != [] && Describes(h + rest)
      ensures var r := h + rest;
        && r[|h|] == rest[0] && r[|h| - 1] == h[|h| - 1] && rest[0].nextNode == r[After(|h|, |r|)]
        && h[|h| - 1].nextNode == rest[0] && rest[0].previousNode == h[|h| - 1]
    {
      DescribesChain(h, rest);
    }

    ghost function NowLost(h: seq<Node>, previous: Node, lost: Node?): Node?
      requires h != []
    {
      if lost == null && previous != h[|h| - 1] then h[|h| - 1] else lost
    }

    /** list.c:1205-1212: an unheld node behind a survivor goes. */
    method DropNormal(previous: Node, current: Node, keepSurvivor: bool, ghost h: seq<Node>, ghost rest: seq<Node>,
                      ghost prior: Node?, ghost lost: Node?, ghost freed: seq<Node>)
      returns (ghost freed': seq<Node>)
      requires Sweeping(h, rest, prior, previous, keepSurvivor, lost) && |rest| > 1 && h != [] && current == rest[0]
      requires current !in freed
      requires lost == null ==> previous == h[|h| - 1] || previous !in h
      modifies `entryAmount, previous`nextNode, rest`previousNode
      ensures Sweeping(h, rest[1..], current, if keepSurvivor then previous else current, keepSurvivor,
                       NowLost(h, previous, lost))
      ensures lost == null && previous != h[|h| - 1] ==> h[|h| - 1].nextNode == current
      ensures lost != null ==> lost.nextNode == old(lost.nextNode)
      ensures current.nextNode == rest[1] && rest[1].previousNode == previous && freed' == freed + [current]
    {
      if lost == null {
        RightNeighbours(h, rest);
      }
      previous.nextNode := current.nextNode;
      current.nextNode.previousNode := previous;
      freed' := Free(freed, current);
      entryAmount := entryAmount - 1;
      if lost == null && previous == h[|h| - 1] {
        TakenOut(h, rest);
      }
    }

    /** list.c:1167-1186: the last node goes if it is unheld. */
    method DropLast(current: Node, ghost all: seq<Node>, ghost h: seq<Node>, ghost rest: seq<Node>,
                    ghost prior: Node?, ghost previous: Node, ghost keepSurvivor: bool, ghost lost: Node?,
                    ghost freed: seq<Node>)
      returns (ghost freed': seq<Node>)
      requires Sweeping(h, rest, prior, previous, keepSurvivor, lost) && rest == [current] && current !in freed
      requires (forall x :: x in h + rest ==> x in all) && current.previousNode in all
      modifies `entriesList, `entryAmount, all`nextNode, all`previousNode
      ensures entryAmount == |h| && freed' == freed + [current]
      ensures lost == null ==> Describes(h)
      ensures lost != null ==> lost.nextNode == old(lost.nextNode)
    {
      assert rest[0] in h + rest && (h != [] ==> h[0] in h + rest && h[0] !in rest);
      if current.nextNode == current {
        freed' := Free(freed, current);
        entriesList := null;
        entryAmount := entryAmount - 1;
      } else {
        if lost == null {
          RightNeighbours(h, rest);
          assert h + rest[1..] == h;
        }
        current.previousNode.nextNode := current.nextNode;
        current.nextNode.previousNode := current.previousNode;
        freed' := Free(freed, current);
        if lost == null {
          TakenOut(h, rest);
        }
        entryAmount := entryAmount - 1;
      }
    }

    ghost function Held(): set<Node>
      reads `ring, ring`readPermission, ring`writePermission
    {
      set x | x in ring && IsHeld(x.Count())
    }

    ghost predicate CountsNatural()
      reads `ring, ring`readPermission, ring`writePermission
    {
      forall x :: x in ring ==> x.readPermission >= 0 && x.writePermission >= 0
    }

    /** The sweep stands at node `k` of the original ring. */
    ghost predicate Reached(orig: seq<Node>, k: nat, held: set<Node>, current: Node, previous: Node,
                            keepSurvivor: bool, lost: Node?)
      requires k <= |orig|
      reads `entryAmount, `entriesList, orig`nextNode, orig`previousNode
      reads Keep(orig[..k], held)`nextNode, Keep(orig[..k], held)`previousNode, orig[k..]`nextNode
      reads orig[k..]`previousNode
    {
      && Distinct(orig) && k < |orig| && current == orig[k]
      && Sweeping(Keep(orig[..k], held), orig[k..], if k == 0 then null else orig[k - 1], previous, keepSurvivor, lost)
      && previous in orig && current.previousNode in orig
      && (lost == null <==> keepSurvivor || !LosesWithin(FlagsOf(orig, held), k))
      && (lost != null ==> lost in orig && lost.nextNode in orig[..k] && lost.nextNode !in held)
    }

    lemma SkipNode(orig: seq<Node>, k: nat, held: set<Node>, current: Node, previous: Node, keepSurvivor: bool,
                   lost: Node?)
      requires k + 1 < |orig| && Reached(orig, k, held, current, previous, keepSurvivor, lost)
      requires current in held
      ensures current.nextNode == orig[k + 1]
      ensures Reached(orig, k + 1, held, orig[k + 1], current, keepSurvivor, lost)
    {
      hide Linked, Keep, LosesWithin, FlagsOf, Sweeping;
      SweepOne(orig, k, held);
      var h, rest := Keep(orig[..k], held), orig[k..];
      assert rest[1..] == orig[k + 1..];
      Skip(h, rest, if k == 0 then null else orig[k - 1], previous, keepSurvivor, lost);
    }

    /** Which kind of deletion is due at an unheld node that is not the last. */
    lemma UnheldNode(orig: seq<Node>, k: nat, held: set<Node>, current: Node, previous: Node, keepSurvivor: bool,
                     lost: Node?)
      requires k + 1 < |orig| && Reached(orig, k, held, current, previous, keepSurvivor, lost)
      requires current !in held
      ensures Keep(orig[..k + 1], held) == Keep(orig[..k], held)
      ensures var h := Keep(orig[..k], held);
        if current == entriesList then h == [] && previous == current && lost == null
        else k > 0 && h != [] && (lost == null ==>
          && (previous == h[|h| - 1] || previous !in h)
          && (previous == h[|h| - 1] <==> keepSurvivor || orig[k - 1] in held))
    {
      SweepOne(orig, k, held);
      hide Linked, LosesWithin, FlagsOf;
      var h := Keep(orig[..k], held);
      assert current == orig[k..][0];
    }

    method HeadNode(ghost orig: seq<Node>, ghost k: nat, ghost held: set<Node>, current: Node, ghost previous: Node,
                    ghost keepSurvivor: bool, ghost lost: Node?, ghost freed: seq<Node>)
      returns (ghost freed': seq<Node>)
      requires k + 1 < |orig| && Reached(orig, k, held, current, previous, keepSurvivor, lost)
      requires current !in held && current == entriesList && current !in freed
      modifies `entriesList, `entryAmount, orig`nextNode, orig`previousNode
      ensures lost == null && entriesList == orig[k + 1] && freed' == freed + [current]
      ensures Reached(orig, k + 1, held, orig[k + 1], orig[k + 1], keepSurvivor, null)
    {
      hide Linked, Keep, LosesWithin, FlagsOf, Sweeping;
      UnheldNode(orig, k, held, current, previous, keepSurvivor, lost);
      SweepOne(orig, k, held);
      ghost var rest := orig[k..];
      assert rest[1..] == orig[k + 1..];
      freed' := DropHead(current, rest, if k == 0 then null else orig[k - 1], keepSurvivor, freed);
    }

    method NormalNode(ghost orig: seq<Node>, ghost k: nat, ghost held: set<Node>, current: Node, previous: Node,
                      keepSurvivor: bool, ghost lost: Node?, ghost freed: seq<Node>)
      returns (ghost lost': Node?, ghost freed': seq<Node>)
      requires k + 1 < |orig| && Reached(orig, k, held, current, previous, keepSurvivor, lost)
      requires current !in held && current != entriesList && current !in freed
      modifies `entryAmount, orig`nextNode, orig`previousNode
      ensures current.nextNode == orig[k + 1] && freed' == freed + [current]
      ensures Reached(orig, k + 1, held, orig[k + 1], if keepSurvivor then previous else current, keepSurvivor, lost')
    {
      hide Linked, Keep, LosesWithin, FlagsOf, Sweeping;
      UnheldNode(orig, k, held, current, previous, keepSurvivor, lost);
      SweepOne(orig, k, held);
      ghost var h, rest := Keep(orig[..k], held), orig[k..];
      assert rest[1..] == orig[k + 1..];
      freed' := DropNormal(previous, current, keepSurvivor, h, rest, orig[k - 1], lost, freed);
      lost' := NowLost(h, previous, lost);
      assert h[|h| - 1] in h && orig[..k + 1] == orig[..k] + [current];
    }

    /** The counters do not change during the sweep. */
    ghost predicate CountsKnown(orig: seq<Node>, held: set<Node>)
      reads orig`readPermission, orig`writePermission
    {
      forall x :: x in orig ==>
        && (x in held <==> x.readPermission > 0 || x.writePermission > 0)
        && x.readPermission >= 0 && x.writePermission >= 0
    }

    /** One round of the loop, list.c:1188-1214. */
    method OneRound(ghost orig: seq<Node>, ghost k: nat, ghost held: set<Node>, current: Node, previous: Node,
                    keepSurvivor: bool, ghost lost: Node?, ghost freed: seq<Node>)
      returns (current': Node, previous': Node, ghost lost': Node?, ghost freed': seq<Node>)
      requires k + 1 < |orig| && Reached(orig, k, held, current, previous, keepSurvivor, lost)
      requires CountsKnown(orig, held) && current == orig[k] && Distinct(orig) && freed == Unheld(orig[..k], held)
      modifies `entriesList, `entryAmount, orig`nextNode, orig`previousNode
      ensures current' == orig[k + 1] && Reached(orig, k + 1, held, current', previous', keepSurvivor, lost')
      ensures CountsKnown(orig, held) && freed' == Unheld(orig[..k + 1], held)
    {
      hide Reached, Unheld, Distinct;
      UnheldOne(orig, k, held);
      lost', freed' := lost, freed;
      if current.readPermission > 0 || current.writePermission > 0 {
        SkipNode(orig, k, held, current, previous, keepSurvivor, lost);
        previous' := current;
        current' := current.nextNode;
      } else if current == entriesList {
        freed' := HeadNode(orig, k, held, current, previous, keepSurvivor, lost, freed);
        current' := entriesList;
        previous' := current';
      } else {
        lost', freed' := NormalNode(orig, k, held, current, previous, keepSurvivor, lost, freed);
        previous' := if keepSurvivor then previous else current;
        current' := current.nextNode;
      }
    }

    lemma FirstNode(orig: seq<Node>, held: set<Node>, keepSurvivor: bool)
      requires Describes(orig) && orig != []
      ensures Reached(orig, 0, held, orig[0], orig[0], keepSurvivor, null)
      ensures Distinct(orig) && entriesList == orig[0] && orig[0].previousNode == orig[|orig| - 1]
    {
      assert orig[..0] == [] && orig[0..] == orig;
      StartSweep(orig, null, keepSurvivor);
    }

    lemma Swept(h: seq<Node>, rest: seq<Node>, prior: Node?, previous: Node, keepSurvivor: bool, lost: Node?)
      requires Sweeping(h, rest, prior, previous, keepSurvivor, lost)
      ensures entryAmount == |h| + |rest|
      ensures lost == null ==> Describes(h + rest)
      ensures lost != null ==> lost in h
    {
      hide Linked;
    }

    lemma NotLinked(r: seq<Node>, x: Node)
      requires x in r && x.nextNode !in r
      ensures !Linked(r)
    {
      var i :| 0 <= i < |r| && r[i] == x;
    }

    /** The last node, and what the whole sweep has come to. */
    method LastNode(ghost orig: seq<Node>, ghost held: set<Node>, current: Node, ghost previous: Node,
                    ghost keepSurvivor: bool, ghost lost: Node?, ghost freed: seq<Node>)
      returns (ghost freed': seq<Node>)
      requires |orig| > 0 && Reached(orig, |orig| - 1, held, current, previous, keepSurvivor, lost)
      requires CountsKnown(orig, held) && freed == Unheld(orig[..|orig| - 1], held)
      modifies `entriesList, `entryAmount, orig`nextNode, orig`previousNode
      ensures entryAmount == |Keep(orig, held)|
      ensures lost == null <==> keepSurvivor || !LosesSurvivor(FlagsOf(orig, held))
      ensures lost == null ==> Describes(Keep(orig, held))
      ensures lost != null ==> lost in Keep(orig, held) && lost.nextNode in orig && lost.nextNode !in held
      ensures lost != null ==> !Linked(Keep(orig, held))
      ensures freed' == Unheld(orig, held)
    {
      ghost var k := |orig| - 1;
      hide Linked, Keep, LosesWithin, FlagsOf, Sweeping, Unheld, Distinct;
      UnheldOne(orig, k, held);
      freed' := freed;
      SweepOne(orig, k, held);
      ghost var h, rest := Keep(orig[..k], held), orig[k..];
      ghost var prior := if k == 0 then null else orig[k - 1];
      assert orig[..k + 1] == orig && rest == [current];
      Swept(h, rest, prior, previous, keepSurvivor, lost);
      if current.readPermission == 0 && current.writePermission == 0 {
        assert Keep(orig, held) == h;
        freed' := DropLast(current, orig, h, rest, prior, previous, keepSurvivor, lost, freed);
      } else {
        assert Keep(orig, held) == h + rest;
      }
      if lost != null {
        NotLinked(Keep(orig, held), lost);
      }
    }

    lemma LastIndex(orig: seq<Node>, k: nat)
      requires Distinct(orig) && k < |orig|
      ensures orig[k] == orig[|orig| - 1] <==> k == |orig| - 1
    {
    }

    /** list.c:1162-1215: the rounds up to the last node. */
    method Sweep(keepSurvivor: bool, ghost orig: seq<Node>, ghost held: set<Node>)
      returns (current: Node, ghost previous: Node, ghost lost: Node?, ghost freed: seq<Node>)
      requires Describes(orig) && orig != [] && CountsKnown(orig, held)
      modifies `entriesList, `entryAmount, orig`nextNode, orig`previousNode
      ensures Reached(orig, |orig| - 1, held, current, previous, keepSurvivor, lost) && CountsKnown(orig, held)
      ensures freed == Unheld(orig[..|orig| - 1], held)
    {
      FirstNode(orig, held, keepSurvivor);
      freed := [];
      assert freed == Unheld(orig[..0], held);
      hide Describes, Linked, Reached, LosesWithin, LosesSurvivor, FlagsOf, Keep, CountsKnown, Distinct, Unheld;
      current := entriesList;
      var last := current.previousNode;
      var prev := current;
      ghost var k := 0;
      lost := null;
      while current != last
        invariant Distinct(orig) && k < |orig| && Reached(orig, k, held, current, prev, keepSurvivor, lost)
        invariant current == orig[k] && last == orig[|orig| - 1] && CountsKnown(orig, held)
        invariant freed == Unheld(orig[..k], held)
        decreases |orig| - k
      {
        LastIndex(orig, k);
        current, prev, lost, freed := OneRound(orig, k, held, current, prev, keepSurvivor, lost, freed);
        k := k + 1;
      }
      LastIndex(orig, k);
      previous := prev;
    }

    method SweepAll(keepSurvivor: bool, ghost orig: seq<Node>, ghost held: set<Node>)
      returns (ghost lost: Node?, ghost freed: seq<Node>)
      requires Describes(orig) && orig != [] && CountsKnown(orig, held)
      modifies `entriesList, `entryAmount, orig`nextNode, orig`previousNode
      ensures entryAmount == |Keep(orig, held)|
      ensures lost == null <==> keepSurvivor || !LosesSurvivor(FlagsOf(orig, held))
      ensures lost == null ==> Describes(Keep(orig, held))
      ensures lost != null ==> lost in Keep(orig, held) && lost.nextNode in orig && lost.nextNode !in held
      ensures lost != null ==> !Linked(Keep(orig, held))
      ensures freed == Unheld(orig, held)
    {
      hide Describes, CountsKnown, Linked, LosesSurvivor, FlagsOf, Keep, Reached, Unheld;
      var current, previous, l, f := Sweep(keepSurvivor, orig, held);
      freed := LastNode(orig, held, current, previous, keepSurvivor, l, f);
      lost := l;
    }

    lemma HeldKnown()
      requires CountsNatural()
      ensures CountsKnown(ring, Held())
    {
    }

    /** list.c:1154-1220. `keepSurvivor` false is line 1211 as written, which makes the freed node the
        predecessor; true leaves the predecessor on the surviving node. `freed` lists the nodes in the order in
        which they are freed; their memory keeps its content. */
    method DeleteNodes(keepSurvivor: bool) returns (left: int, ghost freed: seq<Node>)
      requires Valid() && CountsNatural()
      modifies `entriesList, `entryAmount, `ring, ring`nextNode, ring`previousNode
      ensures ring == Keep(old(ring), old(Held()))
      ensures forall x :: x in ring <==> x in old(ring) && (old(x.readPermission) > 0 || old(x.writePermission) > 0)
      ensures freed == Unheld(old(ring), old(Held())) && Distinct(freed) && SameOrder(old(ring), freed)
      ensures forall x :: x in freed <==> x in old(ring) && !(old(x.readPermission) > 0 || old(x.writePermission) > 0)
      ensures left == entryAmount == |ring|
      ensures Valid() <==> keepSurvivor || !LosesSurvivor(FlagsOf(old(ring), old(Held())))
      ensures !Valid() ==> exists x :: x in ring && x.nextNode in freed
    {
      ghost var orig, held := ring, Held();
      FreedAre(orig, held);
      freed := [];
      if entriesList == null || entryAmount <= 0 {
        return entryAmount, freed;
      }
      HeldKnown();
      hide Held, CountsNatural, CountsKnown, Linked, LosesSurvivor, FlagsOf, Keep, Distinct, SameOrder, Unheld;
      ghost var lost;
      lost, freed := SweepAll(keepSurvivor, orig, held);
      ring := Keep(orig, held);
      left := entryAmount;
      assert lost != null ==> lost in ring && lost.nextNode in freed;
    }
  }

  /** What a sweep of `s` has freed. */
  ghost function Unheld(s: seq<Node>, held: set<Node>): seq<Node> {
    Keep(s, Members(s) - held)
  }

  ghost function Members(s: seq<Node>): set<Node> {
    set x | x in s
  }

  ghost function FlagsOf(s: seq<Node>, held: set<Node>): (f: seq<bool>)
    ensures |f| == |s| && forall i :: 0 <= i < |s| ==> f[i] == (s[i] in held)
  {
    seq(|s|, i requires 0 <= i < |s| => s[i] in held)
  }

  lemma {:induction false} KeepOnlyMembers(s: seq<Node>, a: set<Node>, b: set<Node>)
    requires forall i :: 0 <= i < |s| ==> (s[i] in a <==> s[i] in b)
    ensures Keep(s, a) == Keep(s, b)
  {
    if s != [] {
      KeepOnlyMembers(s[1..], a, b);
    }
  }

  /** One more node is freed unless it is held, and it was not freed before. */
  lemma UnheldOne(orig: seq<Node>, k: nat, held: set<Node>)
    requires Distinct(orig) && k < |orig|
    ensures Unheld(orig[..k + 1], held) == Unheld(orig[..k], held) + if orig[k] in held then [] else [orig[k]]
    ensures orig[k] !in Unheld(orig[..k], held)
  {
    var more := Members(orig[..k + 1]) - held;
    assert orig[..k + 1] == orig[..k] + [orig[k]];
    KeepAppend(orig[..k], orig[k], more);
    KeepOnlyMembers(orig[..k], more, Members(orig[..k]) - held);
  }

  lemma FreedAre(orig: seq<Node>, held: set<Node>)
    requires Distinct(orig)
    ensures var f := Unheld(orig, held);
      Distinct(f) && (forall x :: x in f <==> x in orig && x !in held) && SameOrder(orig, f)
  {
    KeepKeeps(orig, Members(orig) - held);
  }

  /** The survivors after one more node, and what that says about forgetting one. */
  lemma SweepOne(orig: seq<Node>, k: nat, held: set<Node>)
    requires Distinct(orig) && k < |orig|
    ensures Keep(orig[..k + 1], held) == Keep(orig[..k], held) + if orig[k] in held then [orig[k]] else []
    ensures k > 0 && orig[k - 1] in held ==>
      Keep(orig[..k], held) != [] && Keep(orig[..k], held)[|Keep(orig[..k], held)| - 1] == orig[k - 1]
    ensures k + 1 < |orig| ==> (LosesWithin(FlagsOf(orig, held), k + 1) <==>
      LosesWithin(FlagsOf(orig, held), k)
      || (orig[k] !in held && Keep(orig[..k], held) != [] && k > 0 && orig[k - 1] !in held))
  {
    assert orig[..k + 1] == orig[..k] + [orig[k]];
    KeepAppend(orig[..k], orig[k], held);
    if k > 0 {
      assert orig[..k] == orig[..k - 1] + [orig[k - 1]];
      KeepAppend(orig[..k - 1], orig[k - 1], held);
      LosesMore(orig, k, held);
    }
  }

  lemma LosesMore(orig: seq<Node>, k: nat, held: set<Node>)
    requires 0 < k < |orig|
    ensures k + 1 < |orig| ==> (LosesWithin(FlagsOf(orig, held), k + 1) <==>
      LosesWithin(FlagsOf(orig, held), k) || (orig[k] !in held && Keep(orig[..k], held) != [] && orig[k - 1] !in held))
  {
    if k + 1 < |orig| {
      var f := FlagsOf(orig, held);
      SomeHeld(orig, k, held);
      assert f[k] == (orig[k] in held) && f[k - 1] == (orig[k - 1] in held);
      LosesOneMore(f, k);
    }
  }

  lemma SomeHeld(orig: seq<Node>, k: nat, held: set<Node>)
    requires k < |orig|
    ensures Keep(orig[..k], held) != [] <==> exists a :: 0 <= a < k && FlagsOf(orig, held)[a]
  {
    var f, h := FlagsOf(orig, held), Keep(orig[..k], held);
    if h != [] {
      assert h[0] in orig[..k] && h[0] in held;
      var a :| 0 <= a < k && orig[a] == h[0];
      assert f[a];
    }
    if a :| 0 <= a < k && f[a] {
      assert orig[..k][a] in held;
    }
  }

  lemma LosesOneMore(f: seq<bool>, k: nat)
    requires 0 < k && k + 1 < |f|
    ensures LosesWithin(f, k + 1) <==> LosesWithin(f, k) || (!f[k] && !f[k - 1] && exists a :: 0 <= a < k && f[a])
  {
    if LosesWithin(f, k) {
      var a, c :| c < k && LosesAt(f, a, c);
      assert LosesAt(f, a, c);
    } else if LosesWithin(f, k + 1) {
      var a, c :| c < k + 1 && LosesAt(f, a, c);
      assert c == k;
    } else if a :| 0 <= a < k && f[a] {
      assert !LosesAt(f, a, k);
    }
  }
}
