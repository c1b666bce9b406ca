/** GetNextNode and GetPreviousNode of list.c: the same walk on the ring and on its mirror image. */
module ListWalk {
  import opened Sequences
  import opened ListRules
  import opened LinkedList
  import opened ListSearch

  function Wrap(a: nat, j: nat, n: nat): (p: nat)
    requires a < n && j <= n
    ensures p < n
  {
    if a + j < n then a + j else a + j - n
  }

  /** The position tried first, and the one at which the do-while loop stops. */
  function FirstPosition(from: Start, n: nat): (p: nat)
    requires n > 0 && (from.AtNode? ==> from.i < n)
    ensures p < n
  {
    if from.AtHead? then 0 else After(from.i, n)
  }

  function StopPosition(from: Start, n: nat): (p: nat)
    requires n > 0 && (from.AtNode? ==> from.i < n)
    ensures p < n
  {
    if from.AtHead? then 0 else from.i
  }

  function CandidateCount(from: Start, n: nat): nat {
    if from.AtHead? || n == 1 then n else if n == 0 then 0 else n - 1
  }

  /** The loop tries the candidates in order. */
  lemma CandidateAt<T>(s: seq<T>, from: Start, j: nat)
    requires s != [] && (from.AtNode? ==> from.i < |s|) && j < CandidateCount(from, |s|)
    ensures |Candidates(s, from)| == CandidateCount(from, |s|)
    ensures Candidates(s, from)[j] == s[Wrap(FirstPosition(from, |s|), j, |s|)]
  {
  }

  /** It meets its stop again after the last candidate, and not before. */
  lemma StopAfterLast(from: Start, n: nat, j: nat)
    requires n > 0 && (from.AtNode? ==> from.i < n) && 0 < j <= CandidateCount(from, n)
    ensures Wrap(FirstPosition(from, n), j, n) == StopPosition(from, n) <==> j == CandidateCount(from, n)
  {
  }

  /** Which candidates can be granted. */
  ghost function FreeFlags(c: seq<Counters>, tag: Tag): (f: seq<bool>)
    ensures |f| == |c|
  {
    seq(|c|, j requires 0 <= j < |c| => IsFreeFor(c[j], tag))
  }

  /** The ring read in the direction of the walk. */
  function Seen<T>(s: seq<T>, forward: bool): (r: seq<T>)
    ensures |r| == |s|
  {
    if forward then s else Mirror(s)
  }

  method Neighbour(list: List, node: Node, forward: bool, ghost s: Snapshot, ghost r: seq<Node>, ghost i: nat)
    returns (next: Node)
    requires Shows(list, s) && r == Seen(s.ring, forward) && i < |r| && node == r[i]
    ensures next == r[After(i, |r|)]
  {
    if forward {
      next := node.nextNode;
    } else {
      ghost var j := MirrorIndex(i, |r|);
      assert r[i] == s.ring[j];
      assert r[After(i, |r|)] == s.ring[Before(j, |r|)];
      next := node.previousNode;
    }
  }

  method GrantFree(list: List, node: Node, tag: Tag, ghost s: Snapshot)
    requires Shows(list, s) && node in s.ring && tag != OtherTag && |s.counts| == |s.ring|
    modifies node`readPermission, node`writePermission
    ensures var p := IndexOf(s.ring, node); Shows(list, s.WithCounts(p, WithGrant(s.counts[p], tag)))
  {
    ghost var p := IndexOf(s.ring, node);
    if tag == ReadTag {
      node.readPermission := node.readPermission + 1;
    } else {
      node.writePermission := node.writePermission + 1;
    }
    OneCountChanged(s, p, WithGrant(s.counts[p], tag));
  }

  /** Node `p` of the ring as the walk sees it. */
  lemma SeenNode(list: List, s: Snapshot, forward: bool, p: nat)
    requires Shows(list, s) && p < |s.ring| == |s.counts|
    ensures Seen(s.ring, forward)[p] in s.ring
    ensures Seen(s.ring, forward)[p].Count() == Seen(s.counts, forward)[p]
  {
    var q := if forward then p else MirrorIndex(p, |s.ring|);
    assert Seen(s.ring, forward)[p] == s.ring[q] && Seen(s.counts, forward)[p] == s.counts[q] == s.ring[q].Count();
  }

  lemma SeenDistinct<T>(r: seq<T>, forward: bool, p: nat, q: nat)
    requires Distinct(r) && p < |r| && q < |r|
    ensures Seen(r, forward)[p] == Seen(r, forward)[q] <==> p == q
  {
    var p', q' := if forward then p else MirrorIndex(p, |r|), if forward then q else MirrorIndex(q, |r|);
    assert Seen(r, forward)[p] == r[p'] && Seen(r, forward)[q] == r[q'];
    assert p' == q' <==> p == q;
    hide Seen, MirrorIndex;
    assert r[p'] == r[q'] <==> p' == q';
  }

  /** The test of the loop on candidate `j`. */
  lemma CandidateFree(list: List, s: Snapshot, forward: bool, from: Start, j: nat, tag: Tag)
    requires Shows(list, s) && s.ring != [] && |s.counts| == |s.ring| && (from.AtNode? ==> from.i < |s.ring|)
    requires j < CandidateCount(from, |s.ring|)
    ensures |Candidates(Seen(s.ring, forward), from)| == |Candidates(Seen(s.counts, forward), from)|
         == CandidateCount(from, |s.ring|)
    ensures var node := Seen(s.ring, forward)[Wrap(FirstPosition(from, |s.ring|), j, |s.ring|)];
      && node in s.ring && node == Candidates(Seen(s.ring, forward), from)[j]
      && |WalkFlags(s, forward, from, tag)| == CandidateCount(from, |s.ring|)
      && WalkFlags(s, forward, from, tag)[j] == IsFreeFor(node.Count(), tag)
  {
    hide Shows, Candidates, Seen;
    SeenNode(list, s, forward, Wrap(FirstPosition(from, |s.ring|), j, |s.ring|));
    CandidateAt(Seen(s.ring, forward), from, j);
    CandidateAt(Seen(s.counts, forward), from, j);
  }

  ghost function WalkFlags(s: Snapshot, forward: bool, from: Start, tag: Tag): seq<bool>
    requires |s.counts| == |s.ring| && (from.AtNode? ==> from.i < |s.ring|)
  {
    FreeFlags(Candidates(Seen(s.counts, forward), from), tag)
  }

  /** What a walk comes to: the first free candidate when skipping, otherwise only the first candidate; an error exactly
      when the tag is unknown or, skipping, no candidate is free. One counter of one node changes at most. */
  ghost predicate WalkResult(list: List, s: Snapshot, forward: bool, from: Start, skip: int, tag: Tag, r: int,
                             out: Node?)
    requires |s.counts| == |s.ring| && (from.AtNode? ==> from.i < |s.ring|)
    reads list, list.ring, s.ring
  {
    var order, k := Candidates(Seen(s.ring, forward), from), FirstTrue(WalkFlags(s, forward, from, tag));
    if tag == OtherTag || (skip == 1 && k == |order|) then
      r == AII_ERROR && out == null && Shows(list, s)
    else if skip != 1 && k > 0 then
      r == LIST_PERMISSION_DENY && out == null && Shows(list, s)
    else
      && r == AII_OK && k < |order| && out == order[k] && out in s.ring
      && var p := IndexOf(s.ring, out);
         Shows(list, s.WithCounts(p, WithGrant(s.counts[p], tag)))
  }

  /** The answers of a walk over the counters of its candidates, without the name of the test. */
  lemma WalkMeans(list: List, s: Snapshot, forward: bool, from: Start, skip: int, tag: Tag, r: int, out: Node?)
    requires Shows(list, s) || r == AII_OK
    requires s.ring != [] && |s.counts| == |s.ring| && (from.AtNode? ==> from.i < |s.ring|)
    requires WalkResult(list, s, forward, from, skip, tag, r, out)
    ensures r == AII_OK || r == LIST_PERMISSION_DENY || r == AII_ERROR
    ensures tag == OtherTag ==> r == AII_ERROR
    ensures var order, cs := Candidates(Seen(s.ring, forward), from), Candidates(Seen(s.counts, forward), from);
      && |order| == |cs| > 0
      && (tag == ReadTag && skip == 1 ==> (r == AII_OK <==> exists j :: 0 <= j < |cs| && cs[j].write == 0))
      && (tag == WriteTag && skip == 1 ==>
            (r == AII_OK <==> exists j :: 0 <= j < |cs| && cs[j].read == 0 && cs[j].write == 0))
      && (tag == ReadTag && skip != 1 ==> r == if cs[0].write == 0 then AII_OK else LIST_PERMISSION_DENY)
      && (tag == WriteTag && skip != 1 ==>
            r == if cs[0].read == 0 && cs[0].write == 0 then AII_OK else LIST_PERMISSION_DENY)
      && (tag != OtherTag && skip == 1 && r != AII_OK ==> r == AII_ERROR)
  {
    CandidateAt(Seen(s.ring, forward), from, 0);
    CandidateAt(Seen(s.counts, forward), from, 0);
    hide Shows, Candidates, Seen;
    var flags, cs := WalkFlags(s, forward, from, tag), Candidates(Seen(s.counts, forward), from);
    assert forall j :: 0 <= j < |cs| ==> flags[j] == IsFreeFor(cs[j], tag);
    hide FreeFlags, WalkFlags;
    assert forall j :: 0 <= j < FirstTrue(flags) ==> !flags[j];
    hide FirstTrue;
  }

  lemma UnknownTag(list: List, s: Snapshot, forward: bool, from: Start, skip: int, tag: Tag)
    requires Shows(list, s) && |s.counts| == |s.ring| && (from.AtNode? ==> from.i < |s.ring|) && tag == OtherTag
    ensures WalkResult(list, s, forward, from, skip, tag, AII_ERROR, null)
  {
    hide Candidates, FirstTrue, FreeFlags, Seen, Shows, WalkFlags;
  }

  /** Without skipping the first candidate decides. */
  lemma FirstDenied(list: List, s: Snapshot, forward: bool, from: Start, skip: int, tag: Tag)
    requires Shows(list, s) && |s.counts| == |s.ring| && (from.AtNode? ==> from.i < |s.ring|) && tag != OtherTag
    requires skip != 1 && FirstTrue(WalkFlags(s, forward, from, tag)) > 0
    ensures WalkResult(list, s, forward, from, skip, tag, LIST_PERMISSION_DENY, null)
  {
    hide Candidates, FirstTrue, FreeFlags, Seen, Shows, WalkFlags;
  }

  lemma FirstFree(list: List, s: Snapshot, forward: bool, from: Start, skip: int, tag: Tag, j: nat, node: Node)
    requires |s.counts| == |s.ring| && (from.AtNode? ==> from.i < |s.ring|) && tag != OtherTag
    requires FirstTrue(WalkFlags(s, forward, from, tag)) == j && (j > 0 ==> skip == 1)
    requires j < |Candidates(Seen(s.ring, forward), from)| && node == Candidates(Seen(s.ring, forward), from)[j]
    requires node in s.ring
    requires var p := IndexOf(s.ring, node); Shows(list, s.WithCounts(p, WithGrant(s.counts[p], tag)))
    ensures WalkResult(list, s, forward, from, skip, tag, AII_OK, node)
  {
    hide Candidates, FirstTrue, FreeFlags, Seen, Shows, WalkFlags, IndexOf;
  }

  /** One round of the loop, list.c:1568-1619: a result, or the next node to try. */
  method TryOne(list: List, forward: bool, node: Node, skip: int, tag: Tag,
                ghost s: Snapshot, ghost from: Start, ghost j: nat)
    returns (done: bool, r: int, out: Node?)
    requires Shows(list, s) && s.ring != [] && |s.counts| == |s.ring| && (from.AtNode? ==> from.i < |s.ring|)
    requires j < CandidateCount(from, |s.ring|) && j <= FirstTrue(WalkFlags(s, forward, from, tag))
    requires node == Seen(s.ring, forward)[Wrap(FirstPosition(from, |s.ring|), j, |s.ring|)] && (j > 0 ==> skip == 1)
    requires node in s.ring
    modifies node`readPermission, node`writePermission
    ensures done ==> WalkResult(list, s, forward, from, skip, tag, r, out)
    ensures !done ==> Shows(list, s) && j + 1 <= FirstTrue(WalkFlags(s, forward, from, tag)) && skip == 1
  {
    hide Candidates, FirstTrue, FreeFlags, Seen, Shows, Wrap, FirstPosition, IndexOf, WalkFlags, WalkResult;
    CandidateFree(list, s, forward, from, j, tag);
    FirstTrueFrom(WalkFlags(s, forward, from, tag), j);
    done, r, out := true, AII_ERROR, null;
    if tag == OtherTag {
      UnknownTag(list, s, forward, from, skip, tag);
    } else if IsFreeFor(node.Count(), tag) {
      GrantFree(list, node, tag, s);
      FirstFree(list, s, forward, from, skip, tag, j, node);
      r, out := AII_OK, node;
    } else if skip != 1 {
      FirstDenied(list, s, forward, from, skip, tag);
      r := LIST_PERMISSION_DENY;
    } else {
      done := false;
    }
  }

  lemma WrapNext(a: nat, j: nat, n: nat)
    requires a < n && j < n
    ensures After(Wrap(a, j, n), n) == Wrap(a, j + 1, n)
  {
  }

  lemma NoCandidateFree(list: List, s: Snapshot, forward: bool, from: Start, skip: int, tag: Tag)
    requires Shows(list, s) && s.ring != [] && |s.counts| == |s.ring| && (from.AtNode? ==> from.i < |s.ring|)
    requires skip == 1 && FirstTrue(WalkFlags(s, forward, from, tag)) >= CandidateCount(from, |s.ring|)
    ensures WalkResult(list, s, forward, from, skip, tag, AII_ERROR, null)
  {
    CandidateAt(Seen(s.ring, forward), from, 0);
    CandidateAt(Seen(s.counts, forward), from, 0);
    hide Shows, Candidates, Seen;
  }

  lemma WalkStops(list: List, s: Snapshot, forward: bool, from: Start, j: nat)
    requires Shows(list, s) && s.ring != [] && (from.AtNode? ==> from.i < |s.ring|)
    requires 0 < j <= CandidateCount(from, |s.ring|)
    ensures var r, n := Seen(s.ring, forward), |s.ring|;
      r[Wrap(FirstPosition(from, n), j, n)] == r[StopPosition(from, n)] <==> j == CandidateCount(from, n)
  {
    var n := |s.ring|;
    SeenDistinct(s.ring, forward, Wrap(FirstPosition(from, n), j, n), StopPosition(from, n));
    StopAfterLast(from, n, j);
  }

  /** The do-while loop, list.c:1566-1624 forwards and list.c:1706-1764 backwards. */
  method Walk(list: List, forward: bool, stop: Node, first: Node, skip: int, tag: Tag, ghost s: Snapshot,
              ghost from: Start)
    returns (r: int, out: Node?)
    requires Shows(list, s) && s.ring != [] && |s.counts| == |s.ring| && (from.AtNode? ==> from.i < |s.ring|)
    requires first == Seen(s.ring, forward)[FirstPosition(from, |s.ring|)]
    requires stop == Seen(s.ring, forward)[StopPosition(from, |s.ring|)]
    modifies s.ring`readPermission, s.ring`writePermission
    ensures WalkResult(list, s, forward, from, skip, tag, r, out)
  {
    hide Shows, Candidates, Seen, FirstTrue, WalkFlags, WalkResult;
    ghost var j := 0;
    var next, done := first, false;
    while true
      invariant j < CandidateCount(from, |s.ring|) && (j > 0 ==> skip == 1)
      invariant next == Seen(s.ring, forward)[Wrap(FirstPosition(from, |s.ring|), j, |s.ring|)]
      invariant j <= FirstTrue(WalkFlags(s, forward, from, tag)) && Shows(list, s)
      decreases CandidateCount(from, |s.ring|) - j
    {
      CandidateFree(list, s, forward, from, j, tag);
      done, r, out := TryOne(list, forward, next, skip, tag, s, from, j);
      if done {
        return;
      }
      next := Neighbour(list, next, forward, s, Seen(s.ring, forward),
                        Wrap(FirstPosition(from, |s.ring|), j, |s.ring|));
      WrapNext(FirstPosition(from, |s.ring|), j, |s.ring|);
      j := j + 1;
      WalkStops(list, s, forward, from, j);
      if next == stop {
        break;
      }
    }
    NoCandidateFree(list, s, forward, from, skip, tag);
    return AII_ERROR, null;
  }

  /** GetNextNode, list.c:1543-1625; `current` null stands for the list handle. */
  method GetNextNode(list: List, current: Node?, skip: int, tag: Tag, ghost s: Snapshot) returns (r: int, out: Node?)
    requires Shows(list, s) && |s.counts| == |s.ring| && (current != null && s.ring != [] ==> current in s.ring)
    modifies s.ring`readPermission, s.ring`writePermission
    ensures s.ring == [] ==> r == AII_ERROR && out == null && Shows(list, s)
    ensures s.ring != [] ==>
      WalkResult(list, s, true, if current == null then AtHead else AtNode(IndexOf(s.ring, current)), skip, tag, r, out)
  {
    if list.entriesList == null { return AII_ERROR, null; }
    if current == null {
      r, out := Walk(list, true, list.entriesList, list.entriesList, skip, tag, s, AtHead);
    } else {
      r, out := Walk(list, true, current, current.nextNode, skip, tag, s, AtNode(IndexOf(s.ring, current)));
    }
  }

  /** GetPreviousNode, list.c:1683-1765: GetNextNode on the mirrored ring, which has the same head. */
  method GetPreviousNode(list: List, current: Node?, skip: int, tag: Tag, ghost s: Snapshot)
    returns (r: int, out: Node?)
    requires Shows(list, s) && |s.counts| == |s.ring| && (current != null && s.ring != [] ==> current in s.ring)
    modifies s.ring`readPermission, s.ring`writePermission
    ensures s.ring == [] ==> r == AII_ERROR && out == null && Shows(list, s)
    ensures s.ring != [] ==>
      WalkResult(list, s, false,
        if current == null then AtHead else AtNode(MirrorIndex(IndexOf(s.ring, current), |s.ring|)), skip, tag, r, out)
  {
    if list.entriesList == null { return AII_ERROR, null; }
    HeadSeen(list, s, false);
    if current == null {
      hide Shows, Seen, WalkResult;
      r, out := Walk(list, false, list.entriesList, list.entriesList, skip, tag, s, AtHead);
    } else {
      PreviousSeen(list, s, current);
      hide Shows, Seen, WalkResult;
      r, out := Walk(list, false, current, current.previousNode, skip, tag, s,
                     AtNode(MirrorIndex(IndexOf(s.ring, current), |s.ring|)));
    }
  }

  lemma HeadSeen(list: List, s: Snapshot, forward: bool)
    requires Shows(list, s)
    ensures list.entriesList == if s.ring == [] then null else Seen(s.ring, forward)[0]
  {
  }

  /** Walking backwards from a node, the mirror image shows its predecessor next. */
  lemma PreviousSeen(list: List, s: Snapshot, node: Node)
    requires Shows(list, s) && node in s.ring
    ensures var k, n := MirrorIndex(IndexOf(s.ring, node), |s.ring|), |s.ring|;
      Seen(s.ring, false)[k] == node && Seen(s.ring, false)[After(k, n)] == node.previousNode
  {
    var i, n := IndexOf(s.ring, node), |s.ring|;
    var k := MirrorIndex(i, n);
    assert Seen(s.ring, false)[k] == s.ring[MirrorIndex(k, n)] == s.ring[i];
    assert Seen(s.ring, false)[After(k, n)] == s.ring[MirrorIndex(After(k, n), n)] == s.ring[Before(i, n)];
    assert s.ring[i].previousNode == s.ring[Before(i, n)];
  }
}
