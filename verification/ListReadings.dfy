/** What the comma operator at list.c:347 and list.c:512 does to the searches: the comparator runs, but the search
    looks at the user data pointer. `AsWritten` follows the code, `Intended` the declared meaning. */
module ListReadings {
  import opened ListRules
  import opened ListSearch

  ghost predicate AllNull(cmp: seq<Comparator>, keyWords: seq<nat>, mask: int, userData: Option<seq<nat>>)
    requires |cmp| <= |keyWords| && (userData.Some? ==> |cmp| <= |userData.value|)
  {
    forall i :: 0 <= i < |cmp| && Selects(mask, keyWords, i) ==> UserDataOf(userData, i) == 0
  }

  lemma FirstOfConstant(flags: seq<bool>, b: bool)
    requires forall i :: 0 <= i < |flags| ==> flags[i] == b
    ensures FirstTrue(flags) == if b && flags != [] then 0 else |flags|
  {
  }

  /** As written, FindSW stops at the first node or nowhere, whatever the data. */
  lemma WrittenSomeIgnoresData(cmp: seq<Comparator>, keyWords: seq<nat>, mask: int, userData: nat, data: seq<nat>)
    requires |cmp| <= |keyWords|
    ensures FirstTrue(FlagsSome(AsWritten, cmp, keyWords, mask, userData, data)) ==
      if SelectsAny(cmp, keyWords, mask) && userData == 0 && data != [] then 0 else |data|
  {
    FirstOfConstant(FlagsSome(AsWritten, cmp, keyWords, mask, userData, data),
                    SelectsAny(cmp, keyWords, mask) && userData == 0);
  }

  /** As written, FindMW stops at the first node or nowhere, whatever the data. */
  lemma WrittenAllIgnoresData(cmp: seq<Comparator>, keyWords: seq<nat>, mask: int, userData: Option<seq<nat>>,
                              data: seq<nat>)
    requires |cmp| <= |keyWords| && (userData.Some? ==> |cmp| <= |userData.value|)
    ensures FirstTrue(FlagsAll(AsWritten, cmp, keyWords, mask, userData, data)) ==
      if AllNull(cmp, keyWords, mask, userData) && data != [] then 0 else |data|
  {
    FirstOfConstant(FlagsAll(AsWritten, cmp, keyWords, mask, userData, data), AllNull(cmp, keyWords, mask, userData));
  }

  /** FindSW finds what it is declared to find if and only if: called with a selection and null user data, the first
      node is a match; called otherwise, no node is. */
  lemma WrittenSomeIsIntended(cmp: seq<Comparator>, keyWords: seq<nat>, mask: int, userData: nat, data: seq<nat>)
    requires |cmp| <= |keyWords|
    ensures FirstTrue(FlagsSome(AsWritten, cmp, keyWords, mask, userData, data)) ==
            FirstTrue(FlagsSome(Intended, cmp, keyWords, mask, userData, data)) <==>
      if SelectsAny(cmp, keyWords, mask) && userData == 0
      then data != [] ==> PassesSome(Intended, cmp, keyWords, mask, userData, data[0])
      else forall i :: 0 <= i < |data| ==> !PassesSome(Intended, cmp, keyWords, mask, userData, data[i])
  {
    WrittenSomeIgnoresData(cmp, keyWords, mask, userData, data);
    var flags := FlagsSome(Intended, cmp, keyWords, mask, userData, data);
    assert forall i :: 0 <= i < |data| ==> flags[i] == PassesSome(Intended, cmp, keyWords, mask, userData, data[i]);
    hide PassesSome, FlagsSome;
    if FirstTrue(flags) == |data| {
      assert forall i :: 0 <= i < |data| ==> !flags[i];
    }
  }

  lemma WrittenAllIsIntended(cmp: seq<Comparator>, keyWords: seq<nat>, mask: int, userData: Option<seq<nat>>,
                             data: seq<nat>)
    requires |cmp| <= |keyWords| && (userData.Some? ==> |cmp| <= |userData.value|)
    ensures FirstTrue(FlagsAll(AsWritten, cmp, keyWords, mask, userData, data)) ==
            FirstTrue(FlagsAll(Intended, cmp, keyWords, mask, userData, data)) <==>
      if AllNull(cmp, keyWords, mask, userData)
      then data != [] ==> PassesAll(Intended, cmp, keyWords, mask, userData, data[0])
      else forall i :: 0 <= i < |data| ==> !PassesAll(Intended, cmp, keyWords, mask, userData, data[i])
  {
    WrittenAllIgnoresData(cmp, keyWords, mask, userData, data);
    var flags := FlagsAll(Intended, cmp, keyWords, mask, userData, data);
    assert forall i :: 0 <= i < |data| ==> flags[i] == PassesAll(Intended, cmp, keyWords, mask, userData, data[i]);
    hide PassesAll, FlagsAll;
    if FirstTrue(flags) == |data| {
      assert forall i :: 0 <= i < |data| ==> !flags[i];
    }
  }

  /** A two-node list with data 1 and 2, searched for 2 with null user data: the code stops at the node holding 1. */
  lemma WrongNodeFound()
    ensures var cmp := [Comparator((d: nat, w: nat) => if d == w then 0 else -1)];
      && FirstTrue(FlagsSome(AsWritten, cmp, [2], 1, 0, [1, 2])) == 0
      && FirstTrue(FlagsSome(Intended, cmp, [2], 1, 0, [1, 2])) == 1
  {
    var cmp := [Comparator((d: nat, w: nat) => if d == w then 0 else -1)];
    assert Selects(1, [2], 0);
    WrittenSomeIgnoresData(cmp, [2], 1, 0, [1, 2]);
    var flags := FlagsSome(Intended, cmp, [2], 1, 0, [1, 2]);
    assert !flags[0] && flags[1];
  }

  /** The same search by FindMW without user data. */
  lemma WrongNodeFoundByAll()
    ensures var cmp := [Comparator((d: nat, w: nat) => if d == w then 0 else -1)];
      && FirstTrue(FlagsAll(AsWritten, cmp, [2], 1, None, [1, 2])) == 0
      && FirstTrue(FlagsAll(Intended, cmp, [2], 1, None, [1, 2])) == 1
  {
    var cmp := [Comparator((d: nat, w: nat) => if d == w then 0 else -1)];
    assert Selects(1, [2], 0);
    WrittenAllIgnoresData(cmp, [2], 1, None, [1, 2]);
    var flags := FlagsAll(Intended, cmp, [2], 1, None, [1, 2]);
    assert !flags[0] && flags[1];
  }

  /** An empty selection matches nothing in FindSW and the first node in FindMW, in both readings. */
  lemma EmptySelection(v: Reading, cmp: seq<Comparator>, keyWords: seq<nat>, mask: int, userData: nat,
                       userDatas: Option<seq<nat>>, data: seq<nat>)
    requires |cmp| <= |keyWords| && (userDatas.Some? ==> |cmp| <= |userDatas.value|) && !SelectsAny(cmp, keyWords, mask)
    ensures FirstTrue(FlagsSome(v, cmp, keyWords, mask, userData, data)) == |data|
    ensures FirstTrue(FlagsAll(v, cmp, keyWords, mask, userDatas, data)) == 0
  {
    FirstOfConstant(FlagsSome(v, cmp, keyWords, mask, userData, data), false);
    FirstOfConstant(FlagsAll(v, cmp, keyWords, mask, userDatas, data), true);
  }
}
