/** The snapshot of applied migrations: validated and free of repetitions. */
module AppliedStates {
  import opened Sorting
  import opened Keys
  import opened Errors
  import opened GraphBuild

  function AppliedError(code: Code, node: Key): PlanningError {
    PlanningError(HistoryCategory, code, node, EMPTY_KEY, [])
  }

  ghost predicate LeastInvalid(keys: seq<Key>, node: Key) {
    && node in multiset(keys) && !ValidKey(node)
    && forall k :: k in multiset(keys) && !ValidKey(k) ==> !KeyLess(k, node)
  }

  ghost predicate LeastRepeated(keys: seq<Key>, node: Key) {
    multiset(keys)[node] > 1 && forall k :: multiset(keys)[k] > 1 ==> !KeyLess(k, node)
  }

  /** Copies the keys into a set, or reports the least invalid key, or else the least repeated one. */
  method NewAppliedState(keys: seq<Key>) returns (r: Result<set<Key>, PlanningError>)
    ensures r.Success? ==> r.value == Elems(keys) && Distinct(keys) && forall k :: k in keys ==> ValidKey(k)
    ensures r.Failure? ==>
      || (r.error.code == InvalidAppliedState && LeastInvalid(keys, r.error.node))
      || (r.error.code == DuplicateApplied && LeastRepeated(keys, r.error.node) && forall k :: k in keys ==> ValidKey(k))
    ensures r.Failure? ==> r.error == PlanningError(HistoryCategory, r.error.code, r.error.node, EMPTY_KEY, [])
  {
    hide KeyLess, ValidKey, NoInversion, Distinct, RepeatsBefore, Elems;
    var ordered := SortKeys(keys);
    for i := 0 to |ordered|
      invariant forall j :: 0 <= j < i ==> ValidKey(ordered[j])
    {
      if !ValidKey(ordered[i]) {
        FirstInvalidLeast(keys, ordered, i);
        return Failure(AppliedError(InvalidAppliedState, ordered[i]));
      }
    }
    assert forall k :: k in keys ==> k in ordered;
    var n := 1;
    while n < |ordered|
      invariant 1 <= n
      invariant forall j :: 0 < j < n && j < |ordered| ==> ordered[j] != ordered[j - 1]
    {
      if ordered[n] == ordered[n - 1] {
        FirstPairLeastRepeated(keys, ordered, n);
        return Failure(AppliedError(DuplicateApplied, ordered[n]));
      }
      n := n + 1;
    }
    NoPairDistinct(keys, ordered);
    var applied: set<Key> := {};
    OneElem(EMPTY_KEY);
    for i := 0 to |ordered|
      invariant applied == Elems(ordered[..i])
    {
      assert ordered[..i + 1] == ordered[..i] + [ordered[i]];
      ElemsConcat(ordered[..i], [ordered[i]]);
      OneElem(ordered[i]);
      applied := applied + {ordered[i]};
    }
    assert ordered[..|ordered|] == ordered;
    SameElems(keys, ordered);
    r := Success(applied);
  }

  lemma OneElem(k: Key)
    ensures Elems([k]) == {k} && Elems<Key>([]) == {}
  {
  }

  lemma SameElems(keys: seq<Key>, ordered: seq<Key>)
    requires forall k :: k in ordered <==> k in keys
    ensures Elems(ordered) == Elems(keys)
  {
  }

  lemma FirstInvalidLeast(keys: seq<Key>, ordered: seq<Key>, i: nat)
    requires multiset(ordered) == multiset(keys) && NoInversion(KeyLess, ordered) && i < |ordered|
    requires !ValidKey(ordered[i]) && forall j :: 0 <= j < i ==> ValidKey(ordered[j])
    ensures LeastInvalid(keys, ordered[i])
  {
    hide KeyLess, ValidKey;
    KeyOrder();
    assert ordered[i] in multiset(ordered);
    forall k | k in multiset(keys) && !ValidKey(k) ensures !KeyLess(k, ordered[i]) {
      assert k in multiset(ordered);
      var j :| 0 <= j < |ordered| && ordered[j] == k;
    }
  }

  lemma FirstPairLeastRepeated(keys: seq<Key>, ordered: seq<Key>, i: nat)
    requires multiset(ordered) == multiset(keys) && NoInversion(KeyLess, ordered) && 0 < i < |ordered|
    requires ordered[i] == ordered[i - 1] && forall j :: 0 < j < i ==> ordered[j] != ordered[j - 1]
    ensures LeastRepeated(keys, ordered[i])
  {
    hide KeyLess;
    KeyOrder();
    RepeatsMeansCount(ordered, ordered[i]);
    forall k | multiset(keys)[k] > 1 ensures !KeyLess(k, ordered[i]) {
      RepeatsMeansCount(ordered, k);
      var j :| 0 < j < |ordered| && ordered[j] == ordered[j - 1] == k;
    }
  }

  lemma NoPairDistinct(keys: seq<Key>, ordered: seq<Key>)
    requires multiset(ordered) == multiset(keys) && NoInversion(KeyLess, ordered)
    requires forall j :: 0 < j < |ordered| ==> ordered[j] != ordered[j - 1]
    ensures Distinct(keys)
  {
    hide KeyLess, NoInversion;
    NeverRepeatsAscends(ordered);
    KeyOrder();
    AscendingDistinct(ordered);
    DistinctPermutation(ordered, keys);
  }

  lemma AscendingDistinct(s: seq<Key>)
    requires Ascending(s)
    ensures Distinct(s)
  {
    KeyOrder();
  }
}
