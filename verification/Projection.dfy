/** Which migrations make up a historical state, and in which order they are replayed. */
module Projections {
  import opened Keys
  import opened Errors
  import opened Graphs
  import opened Draining
  import opened PlanSpec
  import opened PlanTheory
  import opened Planner

  // ---------------------------------------------------------------- closure unions

  /** The keys of an order that are not done yet. */
  function Fresh(order: seq<Key>, done: seq<Key>): seq<Key> {
    if order == [] then []
    else
      var n := |order| - 1;
      Fresh(order[..n], done) + (if order[n] in done then [] else [order[n]])
  }

  /** The closures of the targets in target order, each key once. */
  ghost function Union(g: Graph, targets: seq<Key>): seq<Key> {
    if targets == [] then []
    else
      var n := |targets| - 1;
      var done := Union(g, targets[..n]);
      done + Fresh(ForwardOrder(g, targets[n], {}), done)
  }

  /** The closures come in target order: more targets only add to the end. */
  lemma UnionGrows(g: Graph, targets: seq<Key>, n: nat)
    requires n <= |targets|
    ensures Union(g, targets[..n]) <= Union(g, targets)
    decreases |targets|
  {
    hide ForwardOrder, Fresh;
    if n < |targets| {
      var m := |targets| - 1;
      UnionGrows(g, targets[..m], n);
      assert targets[..m][..n] == targets[..n];
    } else {
      assert targets[..n] == targets;
    }
  }

  lemma UnionOfOne(g: Graph, target: Key)
    ensures Union(g, [target]) == ForwardOrder(g, target, {})
  {
    hide ForwardOrder, Fresh;
    assert [target][..0] == [];
    FreshAll(ForwardOrder(g, target, {}));
  }

  lemma {:induction false} FreshAll(order: seq<Key>)
    ensures Fresh(order, []) == order
    decreases |order|
  {
    if order != [] {
      FreshAll(order[..|order| - 1]);
      assert order == order[..|order| - 1] + [order[|order| - 1]];
    }
  }

  /** Every key comes after all its parents. */
  ghost predicate ParentsFirst(g: Graph, order: seq<Key>) {
    forall i, p {:trigger p in Next(g.parents, order[i])} ::
      0 <= i < |order| && p in Next(g.parents, order[i]) ==> p in order[..i]
  }

  ghost predicate Covered(g: Graph, targets: seq<Key>, k: Key) {
    k in g.nodes && exists t :: t in targets && Reach(g.parents, t, k)
  }

  lemma ParentsFirstLast(g: Graph, order: seq<Key>, k: Key)
    requires ParentsFirst(g, order) && forall p :: p in Next(g.parents, k) ==> p in order
    ensures ParentsFirst(g, order + [k])
  {
    var more := order + [k];
    forall i, p | 0 <= i < |more| && p in Next(g.parents, more[i]) ensures p in more[..i] {
      if i < |order| {
        assert more[i] == order[i] && more[..i] == order[..i];
      } else {
        assert more[..i] == order;
      }
    }
  }

  lemma ParentsFirstPrefix(g: Graph, order: seq<Key>, n: nat)
    requires ParentsFirst(g, order) && n <= |order|
    ensures ParentsFirst(g, order[..n])
    ensures n < |order| ==> forall p :: p in Next(g.parents, order[n]) ==> p in order[..n]
  {
  }

  lemma {:induction false} FreshMembers(order: seq<Key>, done: seq<Key>)
    ensures forall k :: k in Fresh(order, done) <==> k in order && k !in done
    decreases |order|
  {
    if order != [] {
      var n := |order| - 1;
      FreshMembers(order[..n], done);
      assert order == order[..n] + [order[n]];
    }
  }

  /** Adding the fresh part of a parents-first order keeps parents first and keys unrepeated. */
  lemma {:induction false} FreshKeeps(g: Graph, order: seq<Key>, done: seq<Key>)
    requires ParentsFirst(g, order) && ParentsFirst(g, done) && Distinct(order) && Distinct(done)
    ensures ParentsFirst(g, done + Fresh(order, done)) && Distinct(done + Fresh(order, done))
    decreases |order|
  {
    hide ParentsFirst, Distinct;
    if order == [] {
      assert done + [] == done;
    } else {
      var n := |order| - 1;
      var front, k := order[..n], order[n];
      ParentsFirstPrefix(g, order, n);
      DistinctPrefix(order, n);
      assert order == front + [k];
      DistinctLast(front, k);
      FreshKeeps(g, front, done);
      FreshMembers(front, done);
      if k in done {
        assert done + Fresh(order, done) == done + Fresh(front, done);
      } else {
        var all := done + Fresh(front, done);
        ParentsFirstLast(g, all, k);
        DistinctLast(all, k);
        assert done + Fresh(order, done) == all + [k];
      }
    }
  }

  lemma ClosureGood(g: Graph, target: Key)
    requires Accepted(g)
    ensures var order := ForwardOrder(g, target, {});
      ParentsFirst(g, order) && Distinct(order) && forall k :: k in order <==> k in g.nodes && Reach(g.parents, target, k)
  {
    ForwardValid(g, target, {});
    hide Reach, Drain, Acyclic;
    var order := ForwardOrder(g, target, {});
    forall k ensures k in order <==> k in g.nodes && Reach(g.parents, target, k) {
      assert k in Elems(order) <==> k in order;
    }
    forall i, p | 0 <= i < |order| && p in Next(g.parents, order[i]) ensures p in order[..i] {
      ReachEdge(g.parents, order[i], p);
      ReachTrans(g.parents, target, order[i], p);
    }
  }

  /** A union of closures repeats no key, puts parents first, and holds exactly the targets and their ancestors. */
  lemma {:induction false} UnionGood(g: Graph, targets: seq<Key>)
    requires Accepted(g)
    ensures Distinct(Union(g, targets)) && ParentsFirst(g, Union(g, targets))
    ensures forall k :: k in Union(g, targets) <==> Covered(g, targets, k)
    decreases |targets|
  {
    hide Reach, Accepted, ForwardOrder, ParentsFirst;
    if targets == [] {
      EmptyParentsFirst(g);
    } else {
      var n := |targets| - 1;
      UnionGood(g, targets[..n]);
      ClosureGood(g, targets[n]);
      var done, order := Union(g, targets[..n]), ForwardOrder(g, targets[n], {});
      FreshKeeps(g, order, done);
      FreshMembers(order, done);
      hide Distinct;
      assert targets == targets[..n] + [targets[n]];
    }
  }

  lemma EmptyParentsFirst(g: Graph)
    ensures ParentsFirst(g, [])
  {
  }

  /** Why a target cannot be projected. */
  function TargetFailure(g: Graph, target: Key): Option<PlanningError> {
    if !ValidKey(target) then Some(PlanError(InvalidTarget, target))
    else if target !in g.nodes then Some(PlanError(TargetNotFound, target))
    else None
  }

  ghost predicate FirstFailing(g: Graph, targets: seq<Key>, i: nat, e: PlanningError) {
    && i < |targets| && TargetFailure(g, targets[i]) == Some(e)
    && forall j :: 0 <= j < i ==> TargetFailure(g, targets[j]).None?
  }

  /** Plans each closure on its own from nothing applied, and keeps the steps not seen before. */
  method TargetProjection(g: Graph, targets: seq<Key>) returns (r: Result<seq<PlanStep>, PlanningError>)
    requires Accepted(g)
    ensures r.Success? <==> forall t :: t in targets ==> TargetFailure(g, t).None?
    ensures r.Success? ==> r.value == Steps(Union(g, targets), Forward)
    ensures r.Failure? ==> exists i :: FirstFailing(g, targets, i, r.error)
  {
    hide Accepted, ForwardOrder, Fresh, Union, TargetsPlan, FirstInvalid;
    var seen: set<Key> := {};
    ghost var done: seq<Key> := [];
    var steps: seq<PlanStep> := [];
    NoUnion(g, targets);
    for i := 0 to |targets|
      invariant forall j :: 0 <= j < i ==> TargetFailure(g, targets[j]).None?
      invariant done == Union(g, targets[..i]) && steps == Steps(done, Forward) && seen == Elems(done)
    {
      var closure := Plan(g, {}, [NamedTarget(targets[i])]);
      SingleClosure(g, targets[i]);
      if closure.Failure? {
        assert FirstFailing(g, targets, i, closure.error);
        return Failure(closure.error);
      }
      ghost var order := ForwardOrder(g, targets[i], {});
      ClosureGood(g, targets[i]);
      seen, steps := Merge(seen, steps, closure.value, order, done);
      UnionNext(g, targets, i);
      done := done + Fresh(order, done);
    }
    assert targets[..|targets|] == targets;
    r := Success(steps);
  }

  method Merge(seen0: set<Key>, steps0: seq<PlanStep>, closure: seq<PlanStep>, ghost order: seq<Key>, ghost done: seq<Key>)
    returns (seen: set<Key>, steps: seq<PlanStep>)
    requires closure == Steps(order, Forward) && Distinct(order) && steps0 == Steps(done, Forward) && seen0 == Elems(done)
    ensures steps == Steps(done + Fresh(order, done), Forward) && seen == Elems(done + Fresh(order, done))
  {
    hide Fresh, Distinct, Elems;
    seen, steps := seen0, steps0;
    NothingFresh(order, done);
    for j := 0 to |closure|
      invariant steps == Steps(done + Fresh(order[..j], done), Forward)
      invariant seen == Elems(done + Fresh(order[..j], done))
    {
      var step := closure[j];
      FreshNext(order, done, j);
      if step.key !in seen {
        seen := seen + {step.key};
        StepsAppended(done + Fresh(order[..j], done), step.key);
        steps := steps + [step];
      }
    }
    assert order[..|order|] == order;
  }

  lemma StepsAppended(keys: seq<Key>, k: Key)
    ensures Steps(keys, Forward) + [PlanStep(k, Forward)] == Steps(keys + [k], Forward)
    ensures Elems(keys) + {k} == Elems(keys + [k])
  {
  }

  lemma NothingFresh(order: seq<Key>, done: seq<Key>)
    ensures done + Fresh(order[..0], done) == done
  {
  }

  lemma FreshNext(order: seq<Key>, done: seq<Key>, j: nat)
    requires j < |order| && Distinct(order)
    ensures var before := done + Fresh(order[..j], done);
      && (order[j] in Elems(before) <==> order[j] in done)
      && done + Fresh(order[..j + 1], done) == if order[j] in done then before else before + [order[j]]
  {
    assert order[..j + 1][..j] == order[..j];
    FreshMembers(order[..j], done);
    assert order[j] !in order[..j];
  }

  lemma NoUnion(g: Graph, targets: seq<Key>)
    ensures Union(g, targets[..0]) == [] && Elems<Key>([]) == {} && Steps([], Forward) == []
  {
  }

  lemma UnionNext(g: Graph, targets: seq<Key>, i: nat)
    requires i < |targets|
    ensures var done := Union(g, targets[..i]);
      Union(g, targets[..i + 1]) == done + Fresh(ForwardOrder(g, targets[i], {}), done)
  {
    assert targets[..i + 1][..i] == targets[..i];
  }

  /** Planning one named target from nothing applied: the closure, or why there is none. */
  lemma SingleClosure(g: Graph, target: Key)
    requires Accepted(g)
    ensures var targets := [NamedTarget(target)];
      && Consistent(g, {})
      && (FirstInvalid(targets).Some? <==> !ValidKey(target))
      && (FirstInvalid(targets).Some? ==> FirstInvalid(targets) == TargetFailure(g, target))
      && (FirstInvalid(targets).None? ==>
            TargetsPlan(g, {}, targets) ==
              if TargetFailure(g, target).Some? then Failure(TargetFailure(g, target).value)
              else Success(Steps(ForwardOrder(g, target, {}), Forward)))
  {
    hide Accepted, ForwardOrder;
    var targets := [NamedTarget(target)];
    assert targets[1..] == [];
    if target in g.nodes {
      var steps := Steps(ForwardOrder(g, target, {}), Forward);
      assert steps + [] == steps;
    }
  }

  // ---------------------------------------------------------------- the latest state

  predicate IsAppLeaf(g: Graph, key: Key) {
    forall c :: c in Next(g.children, key) ==> c.app != key.app
  }

  function LeavesIn(g: Graph, nodes: seq<Key>): (r: seq<Key>)
    ensures forall k :: k in r <==> k in nodes && IsAppLeaf(g, k)
  {
    if nodes == [] then []
    else
      var n := |nodes| - 1;
      assert nodes == nodes[..n] + [nodes[n]];
      LeavesIn(g, nodes[..n]) + (if IsAppLeaf(g, nodes[n]) then [nodes[n]] else [])
  }

  method HasSameAppChild(g: Graph, key: Key) returns (found: bool)
    ensures found <==> !IsAppLeaf(g, key)
  {
    var children := Next(g.children, key);
    for j := 0 to |children|
      invariant forall i :: 0 <= i < j ==> children[i].app != key.app
    {
      if children[j].app == key.app {
        return true;
      }
    }
    found := false;
  }

  method AppLeaves(g: Graph) returns (leaves: seq<Key>)
    ensures leaves == LeavesIn(g, g.nodes)
  {
    hide IsAppLeaf;
    leaves := [];
    for i := 0 to |g.nodes|
      invariant leaves == LeavesIn(g, g.nodes[..i])
    {
      assert g.nodes[..i + 1][..i] == g.nodes[..i];
      var hasSameAppChild := HasSameAppChild(g, g.nodes[i]);
      if !hasSameAppChild {
        leaves := leaves + [g.nodes[i]];
      }
    }
    assert g.nodes[..|g.nodes|] == g.nodes;
  }

  ghost function Descendants(g: Graph, key: Key): set<Key> {
    set k | k in g.nodes && Reach(g.parents, k, key)
  }

  /** Every node is, or is needed by, a leaf of its own app. */
  lemma {:induction false} LeafBelow(g: Graph, key: Key) returns (leaf: Key)
    requires Accepted(g) && key in g.nodes
    ensures leaf in g.nodes && IsAppLeaf(g, leaf) && leaf.app == key.app && Reach(g.parents, leaf, key)
    decreases Descendants(g, key)
  {
    hide Reach, Acyclic;
    ReachRefl(g.parents, key);
    if IsAppLeaf(g, key) {
      leaf := key;
    } else {
      var c :| c in Next(g.children, key) && c.app == key.app;
      assert key in Next(g.parents, c);
      ParentUnreached(g, c, key);
      forall k | k in Descendants(g, c) ensures k in Descendants(g, key) {
        ReachEdge(g.parents, c, key);
        ReachTrans(g.parents, k, c, key);
      }
      assert key in Descendants(g, key) && key !in Descendants(g, c);
      leaf := LeafBelow(g, c);
      ReachEdge(g.parents, c, key);
      ReachTrans(g.parents, leaf, c, key);
    }
  }

  /** The latest projection lists every node exactly once, parents first. */
  lemma LatestCoversAll(g: Graph)
    requires Accepted(g)
    ensures var order := Union(g, LeavesIn(g, g.nodes));
      Distinct(order) && ParentsFirst(g, order) && forall k :: k in order <==> k in g.nodes
  {
    hide Reach, Union, ParentsFirst, Accepted;
    var leaves := LeavesIn(g, g.nodes);
    UnionGood(g, leaves);
    forall k | k in g.nodes ensures Covered(g, leaves, k) {
      var leaf := LeafBelow(g, k);
      assert leaf in leaves;
    }
  }

  // ---------------------------------------------------------------- filters

  /** The keys of an order that are in a set. */
  function Filter(order: seq<Key>, kept: set<Key>): seq<Key> {
    if order == [] then []
    else
      var n := |order| - 1;
      Filter(order[..n], kept) + (if order[n] in kept then [order[n]] else [])
  }

  lemma FilterNext(order: seq<Key>, kept: set<Key>, j: nat)
    requires j < |order|
    ensures Filter(order[..j + 1], kept) == Filter(order[..j], kept) + (if order[j] in kept then [order[j]] else [])
  {
    assert order[..j + 1][..j] == order[..j];
  }

  lemma {:induction false} FilterMembers(order: seq<Key>, kept: set<Key>)
    ensures forall k :: k in Filter(order, kept) <==> k in order && k in kept
    ensures Distinct(order) ==> Distinct(Filter(order, kept))
    decreases |order|
  {
    hide Distinct;
    if order == [] {
      assert Filter(order, kept) == order;
    } else {
      var n := |order| - 1;
      FilterMembers(order[..n], kept);
      assert order == order[..n] + [order[n]];
      DistinctLast(order[..n], order[n]);
      DistinctLast(Filter(order[..n], kept), order[n]);
      assert Filter(order[..n], kept) + [] == Filter(order[..n], kept);
    }
  }

  /** Every kept key's parents are kept. */
  ghost predicate KeptClosed(g: Graph, order: seq<Key>, kept: set<Key>) {
    forall k, p :: k in order && k in kept && p in Next(g.parents, k) ==> p in kept
  }

  lemma {:induction false} FilterKeeps(g: Graph, order: seq<Key>, kept: set<Key>)
    requires ParentsFirst(g, order) && KeptClosed(g, order, kept)
    ensures ParentsFirst(g, Filter(order, kept))
    decreases |order|
  {
    hide ParentsFirst;
    if order == [] {
      EmptyParentsFirst(g);
    } else {
      var n := |order| - 1;
      ParentsFirstPrefix(g, order, n);
      FilterKeeps(g, order[..n], kept);
      FilterMembers(order[..n], kept);
      assert order == order[..n] + [order[n]];
      if order[n] in kept {
        ParentsFirstLast(g, Filter(order[..n], kept), order[n]);
      } else {
        assert Filter(order, kept) == Filter(order[..n], kept);
      }
    }
  }

  /** Filtering a parents-first order keeps parents first exactly when no kept key loses a parent. */
  lemma FilterParentsFirst(g: Graph, order: seq<Key>, kept: set<Key>)
    requires ParentsFirst(g, order)
    ensures ParentsFirst(g, Filter(order, kept)) <==> KeptClosed(g, order, kept)
  {
    if KeptClosed(g, order, kept) {
      FilterKeeps(g, order, kept);
    } else {
      hide Filter;
      FilterMembers(order, kept);
      var k, p :| k in order && k in kept && p in Next(g.parents, k) && p !in kept;
      var filtered := Filter(order, kept);
      var i :| 0 <= i < |filtered| && filtered[i] == k;
      assert p !in filtered;
      assert p !in filtered[..i];
    }
  }

  /** Filtering by a consistent applied set keeps parents first. */
  lemma AppliedKeepsParents(g: Graph, order: seq<Key>, applied: set<Key>)
    requires ParentsFirst(g, order) && Consistent(g, applied)
    ensures ParentsFirst(g, Filter(order, applied))
  {
    FilterKeeps(g, order, applied);
  }

  /** A migration strictly between two targets: one target needs it, and it needs another. */
  ghost predicate Between(g: Graph, targets: seq<Key>, x: Key) {
    x !in targets && exists t, s :: t in targets && s in targets && Reach(g.parents, t, x) && Reach(g.parents, x, s)
  }

  lemma BetweenBy(g: Graph, targets: seq<Key>, x: Key, t: Key, s: Key)
    requires x !in targets && t in targets && s in targets && Reach(g.parents, t, x) && Reach(g.parents, x, s)
    ensures Between(g, targets, x)
  {
  }

  /**
   * Removing the explicit targets from their union keeps parents first exactly when no other migration lies strictly
   * between two targets.
   */
  lemma WithoutTargetsParentsFirst(g: Graph, targets: seq<Key>)
    requires Accepted(g) && forall t :: t in targets ==> t in g.nodes
    ensures var order := Union(g, targets);
      ParentsFirst(g, Filter(order, Elems(order) - Elems(targets))) <==> forall x :: !Between(g, targets, x)
  {
    hide Reach, ParentsFirst, Union, Filter, Acyclic, Between;
    var order := Union(g, targets);
    var kept := Elems(order) - Elems(targets);
    UnionGood(g, targets);
    FilterParentsFirst(g, order, kept);
    if KeptClosed(g, order, kept) {
      forall x ensures !Between(g, targets, x) {
        if Between(g, targets, x) {
          BetweenLosesParent(g, targets, order, kept, x);
        }
      }
    } else {
      var k, p :| k in order && k in kept && p in Next(g.parents, k) && p !in kept;
      LostParentBetween(g, targets, order, kept, k, p);
    }
  }

  // The failing input: three migrations in a row, of which the outer two are the targets.
  const FIRST := Key("x", "1")
  const SECOND := Key("x", "2")
  const THIRD := Key("x", "3")
  const CHAIN := Graph(
    [FIRST, SECOND, THIRD],
    map[FIRST := [], SECOND := [FIRST], THIRD := [SECOND]],
    map[FIRST := [SECOND], SECOND := [THIRD], THIRD := []])

  /** Removing the explicit targets does not keep parents first for every accepted graph. */
  lemma TargetsAroundMigration()
    ensures Accepted(CHAIN) && Between(CHAIN, [THIRD, FIRST], SECOND)
    ensures var order := Union(CHAIN, [THIRD, FIRST]);
      !ParentsFirst(CHAIN, Filter(order, Elems(order) - Elems([THIRD, FIRST])))
  {
    ChainAccepted();
    ReachEdge(CHAIN.parents, THIRD, SECOND);
    ReachEdge(CHAIN.parents, SECOND, FIRST);
    hide *;
    BetweenBy(CHAIN, [THIRD, FIRST], SECOND, THIRD, FIRST);
    WithoutTargetsParentsFirst(CHAIN, [THIRD, FIRST]);
  }

  lemma ChainAccepted()
    ensures Accepted(CHAIN)
  {
    ChainWellFormed();
    ChainEdges();
    hide Reach, Next, WellFormed;
    forall a, m | m in Next(CHAIN.parents, a) ensures !Reach(CHAIN.parents, m, a) {
      if Reach(CHAIN.parents, m, a) {
        ClosedReach(CHAIN.parents, if m == FIRST then {FIRST} else {FIRST, SECOND}, m, a);
      }
    }
  }

  lemma ChainEdges()
    ensures forall a, b :: b in Next(CHAIN.parents, a) <==> (a == SECOND && b == FIRST) || (a == THIRD && b == SECOND)
    ensures forall a, b :: b in Next(CHAIN.children, a) <==> (a == FIRST && b == SECOND) || (a == SECOND && b == THIRD)
  {
    assert FIRST.name[0] != SECOND.name[0] && THIRD.name[0] != SECOND.name[0] && THIRD.name[0] != FIRST.name[0];
  }

  lemma ChainWellFormed()
    ensures WellFormed(CHAIN)
  {
    ChainEdges();
    ChainOrdered();
    hide KeyLess;
  }

  lemma ChainOrdered()
    ensures KeyLess(FIRST, SECOND) && KeyLess(SECOND, THIRD) && KeyLess(FIRST, THIRD)
  {
    assert FIRST.name[0] < SECOND.name[0] < THIRD.name[0];
  }

  lemma LostParentBetween(g: Graph, targets: seq<Key>, order: seq<Key>, kept: set<Key>, k: Key, p: Key)
    requires WellFormed(g) && kept == Elems(order) - Elems(targets)
    requires forall x :: x in order <==> Covered(g, targets, x)
    requires k in order && k in kept && p in Next(g.parents, k) && p !in kept
    ensures Between(g, targets, k)
  {
    hide Reach;
    var t :| t in targets && Reach(g.parents, t, k);
    ReachEdge(g.parents, k, p);
    ReachTrans(g.parents, t, k, p);
    assert Covered(g, targets, p);
    BetweenBy(g, targets, k, t, p);
  }

  lemma BetweenLosesParent(g: Graph, targets: seq<Key>, order: seq<Key>, kept: set<Key>, x: Key)
    requires WellFormed(g) && kept == Elems(order) - Elems(targets) && Between(g, targets, x)
    requires forall k :: k in order <==> Covered(g, targets, k)
    requires forall t :: t in targets ==> t in g.nodes
    ensures !KeptClosed(g, order, kept)
  {
    hide Reach;
    var t, s :| t in targets && s in targets && Reach(g.parents, t, x) && Reach(g.parents, x, s);
    if KeptClosed(g, order, kept) {
      NodesReached(g, t, x);
      assert Covered(g, targets, x);
      var closed := set k | k in kept;
      forall a, b | a in closed && b in Next(g.parents, a) ensures b in closed {
        assert a in order;
      }
      ClosedReach(g.parents, closed, x, s);
      assert false;
    }
  }

  lemma NodesReached(g: Graph, a: Key, b: Key)
    requires WellFormed(g) && a in g.nodes && Reach(g.parents, a, b)
    ensures b in g.nodes
  {
    hide Reach;
    ClosedReach(g.parents, Elems(g.nodes), a, b);
  }

  /** In particular when no target is a proper ancestor of another. */
  lemma UnrelatedTargets(g: Graph, targets: seq<Key>)
    requires Accepted(g) && (forall t :: t in targets ==> t in g.nodes)
    requires forall t, s :: t in targets && s in targets && Reach(g.parents, t, s) ==> t == s
    ensures var order := Union(g, targets); ParentsFirst(g, Filter(order, Elems(order) - Elems(targets)))
  {
    hide Reach, ParentsFirst, Union, Filter, Between, Acyclic;
    WithoutTargetsParentsFirst(g, targets);
    forall x ensures !Between(g, targets, x) {
      if Between(g, targets, x) {
        NoneBetween(g, targets, x);
      }
    }
  }

  lemma NoneBetween(g: Graph, targets: seq<Key>, x: Key)
    requires Accepted(g) && Between(g, targets, x)
    ensures exists t, s :: t in targets && s in targets && Reach(g.parents, t, s) && t != s
  {
    hide Reach;
    var t, s :| t in targets && s in targets && Reach(g.parents, t, x) && Reach(g.parents, x, s);
    ReachTrans(g.parents, t, x, s);
    if t == s {
      AcyclicAntisymmetric(g.parents, t, x);
      assert false;
    }
  }

  method WithoutExplicitTargets(steps: seq<PlanStep>, targets: seq<Key>, ghost order: seq<Key>) returns (r: seq<PlanStep>)
    requires steps == Steps(order, Forward)
    ensures r == Steps(Filter(order, Elems(order) - Elems(targets)), Forward)
  {
    hide Filter;
    var excluded: set<Key> := {};
    for i := 0 to |targets|
      invariant excluded == Elems(targets[..i])
    {
      assert targets[..i + 1] == targets[..i] + [targets[i]];
      excluded := excluded + {targets[i]};
    }
    assert targets[..|targets|] == targets;
    ghost var kept := Elems(order) - Elems(targets);
    r := [];
    NothingFiltered(order, kept);
    for j := 0 to |steps|
      invariant r == Steps(Filter(order[..j], kept), Forward)
    {
      FilterNext(order, kept, j);
      if steps[j].key !in excluded {
        StepsAppended(Filter(order[..j], kept), steps[j].key);
        r := r + [steps[j]];
      }
    }
    assert order[..|steps|] == order;
  }

  method OnlyAppliedSteps(steps: seq<PlanStep>, applied: set<Key>, ghost order: seq<Key>) returns (r: seq<PlanStep>)
    requires steps == Steps(order, Forward)
    ensures r == Steps(Filter(order, applied), Forward)
  {
    hide Filter;
    r := [];
    NothingFiltered(order, applied);
    for j := 0 to |steps|
      invariant r == Steps(Filter(order[..j], applied), Forward)
    {
      FilterNext(order, applied, j);
      if steps[j].key in applied {
        StepsAppended(Filter(order[..j], applied), steps[j].key);
        r := r + [steps[j]];
      }
    }
    assert order[..|steps|] == order;
  }

  lemma NothingFiltered(order: seq<Key>, kept: set<Key>)
    ensures Steps(Filter(order[..0], kept), Forward) == []
  {
  }
}
