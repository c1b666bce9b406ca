/** Sequences without repetition: positions, insertion, removal and the order they keep. */
module Sequences {

  ghost predicate Distinct<T>(s: seq<T>) {
    forall i, j :: 0 <= i < j < |s| ==> s[i] != s[j]
  }

  function IndexOf<T(==)>(s: seq<T>, x: T): (i: nat)
    requires x in s
    ensures i < |s| && s[i] == x
    ensures forall j :: 0 <= j < i ==> s[j] != x
  {
    if s[0] == x then 0 else 1 + IndexOf(s[1..], x)
  }

  function InsertAt<T>(s: seq<T>, i: nat, x: T): seq<T>
    requires i <= |s|
  {
    s[..i] + [x] + s[i..]
  }

  function RemoveAt<T>(s: seq<T>, i: nat): seq<T>
    requires i < |s|
  {
    s[..i] + s[i + 1..]
  }

  /** The elements of `s` that belong to `kept`, in their original order. */
  function Keep<T(==)>(s: seq<T>, kept: set<T>): (r: seq<T>)
    ensures |r| <= |s|
    ensures forall x :: x in r ==> x in s && x in kept
    ensures forall x :: x in s && x in kept ==> x in r
  {
    if s == [] then [] else (if s[0] in kept then [s[0]] else []) + Keep(s[1..], kept)
  }

  /** `s` and `t` agree on the relative order of every two elements they share. */
  ghost predicate SameOrder<T>(s: seq<T>, t: seq<T>) {
    forall x, y :: x in s && y in s && x in t && y in t ==>
      (IndexOf(s, x) <= IndexOf(s, y) <==> IndexOf(t, x) <= IndexOf(t, y))
  }

  lemma IndexOfAt<T>(s: seq<T>, i: nat)
    requires Distinct(s) && i < |s|
    ensures IndexOf(s, s[i]) == i
  {
  }

  lemma InsertAtMembers<T>(s: seq<T>, i: nat, z: T)
    requires Distinct(s) && i <= |s| && z !in s
    ensures Distinct(InsertAt(s, i, z))
    ensures forall x :: x in InsertAt(s, i, z) <==> x == z || x in s
  {
    var t := InsertAt(s, i, z);
    assert forall j :: 0 <= j < |t| ==> t[j] == if j < i then s[j] else if j == i then z else s[j - 1];
    forall x | x in s ensures x in t {
      var k := IndexOf(s, x);
      assert t[if k < i then k else k + 1] == x;
    }
  }

  lemma InsertAtIndex<T>(s: seq<T>, i: nat, z: T, x: T)
    requires Distinct(s) && i <= |s| && z !in s && x in s
    ensures x in InsertAt(s, i, z)
    ensures IndexOf(InsertAt(s, i, z), x) == IndexOf(s, x) + if IndexOf(s, x) < i then 0 else 1
  {
    InsertAtMembers(s, i, z);
    var k := IndexOf(s, x);
    IndexOfAt(InsertAt(s, i, z), if k < i then k else k + 1);
  }

  lemma InsertAtOrder<T>(s: seq<T>, i: nat, z: T)
    requires Distinct(s) && i <= |s| && z !in s
    ensures SameOrder(s, InsertAt(s, i, z))
  {
    forall x | x in s
      ensures x in InsertAt(s, i, z)
      ensures IndexOf(InsertAt(s, i, z), x) == IndexOf(s, x) + if IndexOf(s, x) < i then 0 else 1
    {
      InsertAtIndex(s, i, z, x);
    }
  }

  lemma RemoveAtMembers<T>(s: seq<T>, i: nat)
    requires Distinct(s) && i < |s|
    ensures Distinct(RemoveAt(s, i))
    ensures forall x :: x in RemoveAt(s, i) <==> x in s && x != s[i]
  {
    var t := RemoveAt(s, i);
    assert forall j :: 0 <= j < |t| ==> t[j] == if j < i then s[j] else s[j + 1];
    forall x | x in s && x != s[i] ensures x in t {
      var k := IndexOf(s, x);
      assert t[if k < i then k else k - 1] == x;
    }
  }

  lemma RemoveAtIndex<T>(s: seq<T>, i: nat, x: T)
    requires Distinct(s) && i < |s| && x in s && x != s[i]
    ensures x in RemoveAt(s, i)
    ensures IndexOf(RemoveAt(s, i), x) == IndexOf(s, x) - if IndexOf(s, x) < i then 0 else 1
  {
    RemoveAtMembers(s, i);
    var k := IndexOf(s, x);
    IndexOfAt(RemoveAt(s, i), if k < i then k else k - 1);
  }

  lemma RemoveAtOrder<T>(s: seq<T>, i: nat)
    requires Distinct(s) && i < |s|
    ensures SameOrder(s, RemoveAt(s, i))
  {
    forall x | x in s && x != s[i]
      ensures x in RemoveAt(s, i)
      ensures IndexOf(RemoveAt(s, i), x) == IndexOf(s, x) - if IndexOf(s, x) < i then 0 else 1
    {
      RemoveAtIndex(s, i, x);
    }
    RemoveAtMembers(s, i);
  }

  /** Filtering keeps distinctness and order, and moves no element further from the end. */
  lemma {:induction false} KeepKeeps<T>(s: seq<T>, kept: set<T>)
    requires Distinct(s)
    ensures Distinct(Keep(s, kept))
    ensures SameOrder(s, Keep(s, kept))
    ensures forall x :: x in Keep(s, kept) ==>
      IndexOf(Keep(s, kept), x) <= IndexOf(s, x) && |Keep(s, kept)| - IndexOf(Keep(s, kept), x) <= |s| - IndexOf(s, x)
  {
    if s != [] {
      var tail := s[1..];
      KeepKeeps(tail, kept);
      var r, r' := Keep(s, kept), Keep(tail, kept);
      forall x | x in r && x != s[0]
        ensures x in r' && x in tail && IndexOf(s, x) == 1 + IndexOf(tail, x)
        ensures IndexOf(r, x) == IndexOf(r', x) + if s[0] in kept then 1 else 0
      {
        if s[0] in kept {
          assert r[1..] == r';
        } else {
          assert r == r';
        }
      }
    }
  }

  lemma {:induction false} KeepAppend<T>(s: seq<T>, x: T, kept: set<T>)
    ensures Keep(s + [x], kept) == Keep(s, kept) + if x in kept then [x] else []
  {
    if s != [] {
      assert (s + [x])[1..] == s[1..] + [x];
      KeepAppend(s[1..], x, kept);
    }
  }

  /** A distinct sequence is no longer than its filter exactly when every element is kept. */
  lemma {:induction false} KeepLength<T>(s: seq<T>, kept: set<T>)
    ensures |Keep(s, kept)| == |s| <==> (forall x :: x in s ==> x in kept)
    ensures |Keep(s, kept)| == 0 <==> (forall x :: x in s ==> x !in kept)
  {
    if s != [] {
      KeepLength(s[1..], kept);
    }
  }
}
