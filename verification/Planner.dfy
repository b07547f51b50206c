/** The migration planner: closures, greedy orders and target processing over a working applied set. */
module Planner {
  import opened Keys
  import opened Errors
  import opened Graphs
  import opened Draining
  import opened PlanSpec
  import opened PlanTheory

  /** The applied set that a planning call edits in place. */
  class WorkingSet {
    var keys: set<Key>

    constructor (keys: set<Key>)
      ensures this.keys == keys
    {
      this.keys := keys;
    }
  }

  /** The loop state of a depth-first closure from `start` that never enters `stop`. */
  ghost predicate Exploring(adj: Adjacency, nodes: set<Key>, start: Key, stop: set<Key>, seen: set<Key>, stack: seq<Key>) {
    && (forall k :: k in stack ==> k in nodes && Reach(adj, start, k))
    && (forall k :: k in seen ==> k in nodes && k !in stop && Reach(adj, start, k))
    && (start in stop || start in seen || start in stack)
    && (forall k, p :: k in seen && p in Next(adj, k) ==> p in stop || p in seen || p in stack)
  }

  lemma StartExploring(adj: Adjacency, nodes: set<Key>, start: Key, stop: set<Key>)
    requires start in nodes
    ensures Exploring(adj, nodes, start, stop, {}, [start])
  {
    ReachRefl(adj, start);
  }

  lemma SkipExplored(adj: Adjacency, nodes: set<Key>, start: Key, stop: set<Key>, seen: set<Key>, stack: seq<Key>)
    requires stack != [] && Exploring(adj, nodes, start, stop, seen, stack)
    requires stack[|stack| - 1] in stop + seen
    ensures Exploring(adj, nodes, start, stop, seen, stack[..|stack| - 1])
  {
  }

  lemma EnterUnseen(adj: Adjacency, nodes: set<Key>, start: Key, stop: set<Key>, seen: set<Key>, stack: seq<Key>)
    requires stack != [] && Exploring(adj, nodes, start, stop, seen, stack)
    requires forall k, p :: p in Next(adj, k) ==> p in nodes
    requires stack[|stack| - 1] !in stop + seen
    ensures var key := stack[|stack| - 1];
      Exploring(adj, nodes, start, stop, seen + {key}, stack[..|stack| - 1] + Next(adj, key))
  {
    hide Reach;
    var key := stack[|stack| - 1];
    assert stack == stack[..|stack| - 1] + [key];
    forall p | p in Next(adj, key) ensures Reach(adj, start, p) {
      ReachEdge(adj, key, p);
      ReachTrans(adj, start, key, p);
    }
  }

  lemma DoneExploring(adj: Adjacency, nodes: set<Key>, start: Key, stop: set<Key>, seen: set<Key>)
    requires Exploring(adj, nodes, start, stop, seen, []) && ClosedUnder(adj, stop)
    ensures seen == set k | k in nodes && k !in stop && Reach(adj, start, k)
  {
    hide Reach;
    assert ClosedUnder(adj, seen + stop);
    forall k | k in nodes && k !in stop && Reach(adj, start, k) ensures k in seen {
      ClosedReach(adj, seen + stop, start, k);
    }
  }

  /** The depth-first search for the unapplied ancestors of the target. */
  method CollectNeeded(g: Graph, target: Key, applied: set<Key>) returns (candidates: set<Key>)
    requires Accepted(g) && target in g.nodes && Consistent(g, applied)
    ensures candidates == Needed(g, target, applied)
  {
    hide Reach, Acyclic, Exploring, Converse;
    ghost var nodes := Elems(g.nodes);
    candidates := {};
    var stack := [target];
    StartExploring(g.parents, nodes, target, applied);
    while stack != []
      invariant Exploring(g.parents, nodes, target, applied, candidates, stack)
      invariant candidates <= nodes
      decreases nodes - candidates, |stack|
    {
      var key := stack[|stack| - 1];
      if key in applied || key in candidates {
        SkipExplored(g.parents, nodes, target, applied, candidates, stack);
        stack := stack[..|stack| - 1];
        continue;
      }
      StackKnown(g.parents, nodes, target, applied, candidates, stack);
      EnterUnseen(g.parents, nodes, target, applied, candidates, stack);
      assert key in nodes - candidates;
      stack := stack[..|stack| - 1];
      candidates := candidates + {key};
      stack := stack + Next(g.parents, key);
    }
    DoneExploring(g.parents, nodes, target, applied, candidates);
  }

  lemma StackKnown(adj: Adjacency, nodes: set<Key>, start: Key, stop: set<Key>, seen: set<Key>, stack: seq<Key>)
    requires stack != [] && Exploring(adj, nodes, start, stop, seen, stack)
    ensures stack[|stack| - 1] in nodes
  {
  }

  /** The search through children that collects the applied descendants of the seed. */
  method CollectDependents(g: Graph, seed: Key, applied: set<Key>) returns (candidates: set<Key>)
    requires Accepted(g) && seed in g.nodes
    ensures candidates == Dependents(g, seed, applied)
  {
    hide Reach, Acyclic, Exploring, Dependents;
    ghost var nodes := Elems(g.nodes);
    candidates := {};
    var visited := {};
    var stack := [seed];
    StartExploring(g.children, nodes, seed, {});
    while stack != []
      invariant Exploring(g.children, nodes, seed, {}, visited, stack)
      invariant visited <= nodes
      invariant candidates == visited * applied
      decreases nodes - visited, |stack|
    {
      var key := stack[|stack| - 1];
      if key in visited {
        SkipExplored(g.children, nodes, seed, {}, visited, stack);
        stack := stack[..|stack| - 1];
        continue;
      }
      StackKnown(g.children, nodes, seed, {}, visited, stack);
      ChildrenKnown(g);
      EnterUnseen(g.children, nodes, seed, {}, visited, stack);
      assert key in nodes - visited;
      stack := stack[..|stack| - 1];
      visited := visited + {key};
      if key in applied {
        candidates := candidates + {key};
      }
      stack := stack + Next(g.children, key);
    }
    DoneExploring(g.children, nodes, seed, {}, visited);
    DependentsByChildren(g, seed, applied, visited);
  }

  lemma ChildrenKnown(g: Graph)
    requires WellFormed(g)
    ensures forall k, c :: c in Next(g.children, k) ==> c in Elems(g.nodes)
  {
    forall k, c | c in Next(g.children, k) ensures c in g.nodes {
      assert k in Next(g.parents, c);
    }
  }

  lemma DependentsByChildren(g: Graph, seed: Key, applied: set<Key>, visited: set<Key>)
    requires WellFormed(g)
    requires visited == set k | k in Elems(g.nodes) && k !in {} && Reach(g.children, seed, k)
    ensures visited * applied == Dependents(g, seed, applied)
  {
    hide Reach;
    forall k ensures k in visited * applied <==> k in Dependents(g, seed, applied) {
      ConverseReach(g.parents, g.children, k, seed);
    }
  }

  /** The first node, in key order, whose parents are all applied. */
  method FirstForwardReady(g: Graph, candidates: set<Key>, applied: set<Key>) returns (next: Option<Key>)
    requires WellFormed(g) && candidates <= Elems(g.nodes) && candidates !! applied
    requires forall k, p :: k in candidates && p in Next(g.parents, k) ==> p in applied + candidates
    ensures next.Some? ==> LeastReady(g.parents, candidates, next.value)
    ensures next.None? ==> !HasReady(g.parents, candidates)
  {
    hide Converse, KeyLess;
    var i := 0;
    while i < |g.nodes|
      invariant 0 <= i <= |g.nodes|
      invariant forall j :: 0 <= j < i ==> !Ready(g.parents, candidates, g.nodes[j])
    {
      var key := g.nodes[i];
      if key in candidates {
        var parents := Next(g.parents, key);
        var ready, j := true, 0;
        while j < |parents|
          invariant 0 <= j <= |parents|
          invariant ready ==> forall p :: p in parents[..j] ==> p in applied
          invariant !ready ==> exists p :: p in parents && p !in applied
        {
          if parents[j] !in applied {
            assert parents[j] in Next(g.parents, key);
            ready := false;
            break;
          }
          j := j + 1;
        }
        if ready {
          assert parents[..|parents|] == parents;
          FirstIsLeast(g, g.parents, candidates, i);
          return Some(key);
        }
        assert forall p :: p in parents && p !in applied ==> p in applied + candidates;
      }
      i := i + 1;
    }
    NoneIsReady(g, g.parents, candidates);
    return None;
  }

  lemma FirstIsLeast(g: Graph, adj: Adjacency, candidates: set<Key>, i: nat)
    requires Ascending(g.nodes) && candidates <= Elems(g.nodes) && i < |g.nodes|
    requires Ready(adj, candidates, g.nodes[i])
    requires forall j :: 0 <= j < i ==> !Ready(adj, candidates, g.nodes[j])
    ensures LeastReady(adj, candidates, g.nodes[i])
  {
  }

  lemma NoneIsReady(g: Graph, adj: Adjacency, candidates: set<Key>)
    requires candidates <= Elems(g.nodes)
    requires forall j :: 0 <= j < |g.nodes| ==> !Ready(adj, candidates, g.nodes[j])
    ensures !HasReady(adj, candidates)
  {
  }

  /** The first node, in key order, with no candidate among its children. */
  method FirstBackwardReady(g: Graph, candidates: set<Key>) returns (next: Option<Key>)
    requires WellFormed(g) && candidates <= Elems(g.nodes)
    ensures next.Some? ==> LeastReady(g.children, candidates, next.value)
    ensures next.None? ==> !HasReady(g.children, candidates)
  {
    hide Converse, KeyLess;
    var i := 0;
    while i < |g.nodes|
      invariant 0 <= i <= |g.nodes|
      invariant forall j :: 0 <= j < i ==> !Ready(g.children, candidates, g.nodes[j])
    {
      var key := g.nodes[i];
      if key in candidates {
        var children := Next(g.children, key);
        var ready, j := true, 0;
        while j < |children|
          invariant 0 <= j <= |children|
          invariant ready ==> forall c :: c in children[..j] ==> c !in candidates
          invariant !ready ==> exists c :: c in children && c in candidates
        {
          if children[j] in candidates {
            ready := false;
            break;
          }
          j := j + 1;
        }
        if ready {
          assert children[..|children|] == children;
          FirstIsLeast(g, g.children, candidates, i);
          return Some(key);
        }
      }
      i := i + 1;
    }
    NoneIsReady(g, g.children, candidates);
    return None;
  }

  lemma NeededClosed(g: Graph, target: Key, applied: set<Key>)
    requires WellFormed(g)
    ensures forall k, p :: k in Needed(g, target, applied) && p in Next(g.parents, k) ==> p in applied + Needed(g, target, applied)
  {
    hide Reach;
    forall k, p | k in Needed(g, target, applied) && p in Next(g.parents, k)
      ensures p in applied + Needed(g, target, applied)
    {
      ReachEdge(g.parents, k, p);
      ReachTrans(g.parents, target, k, p);
    }
  }

  lemma StepsAppend(keys: seq<Key>, key: Key, direction: Direction)
    ensures Steps(keys + [key], direction) == Steps(keys, direction) + [PlanStep(key, direction)]
  {
  }

  /** Taking the least ready candidate moves it from the drain to what is done. */
  lemma DrainTake(adj: Adjacency, candidates: set<Key>, done: seq<Key>, all: seq<Key>, key: Key)
    requires LeastReady(adj, candidates, key) && done + Drain(adj, candidates) == all
    ensures done + [key] + Drain(adj, candidates - {key}) == all
    ensures key in candidates
  {
    DrainStep(adj, candidates, key);
    assert done + ([key] + Drain(adj, candidates - {key})) == done + [key] + Drain(adj, candidates - {key});
  }

  lemma MarkApplied(before: set<Key>, needed: set<Key>, candidates: set<Key>, key: Key)
    requires key in candidates && candidates <= needed
    ensures before + (needed - candidates) + {key} == before + (needed - (candidates - {key}))
    ensures needed <= before ==> before - (needed - candidates) - {key} == before - (needed - (candidates - {key}))
  {
  }

  /** Plans the missing prerequisites of the target, and the target, marking them applied. */
  method PlanForward(g: Graph, target: Key, working: WorkingSet) returns (steps: seq<PlanStep>)
    requires Accepted(g) && target in g.nodes && Consistent(g, working.keys)
    modifies working
    ensures steps == Steps(ForwardOrder(g, target, old(working.keys)), Forward)
    ensures working.keys == old(working.keys) + Needed(g, target, old(working.keys))
  {
    hide Reach, KeyLess;
    ghost var before, needed := working.keys, Needed(g, target, working.keys);
    var candidates := CollectNeeded(g, target, working.keys);
    NeededClosed(g, target, before);
    assert needed <= Elems(g.nodes) && needed !! before;
    hide Needed, Acyclic, Converse, HasReady, LeastReady, Drain, Steps, Elems;
    ghost var done: seq<Key> := [];
    steps := [];
    while candidates != {}
      invariant candidates <= needed && working.keys == before + (needed - candidates)
      invariant done + Drain(g.parents, candidates) == Drain(g.parents, needed)
      invariant steps == Steps(done, Forward)
      decreases candidates
    {
      var next := FirstForwardReady(g, candidates, working.keys);
      SomeReady(g.parents, candidates);
      if next.None? {
        assert false; // the internal cycle error of the source: an accepted graph never gets here
      }
      var key := next.value;
      DrainTake(g.parents, candidates, done, Drain(g.parents, needed), key);
      MarkApplied(before, needed, candidates, key);
      StepsAppend(done, key, Forward);
      steps := steps + [PlanStep(key, Forward)];
      done := done + [key];
      working.keys := working.keys + {key};
      candidates := candidates - {key};
    }
    DrainEmpty(g.parents);
  }

  /** Plans the removal of the applied dependents of the seed, marking them unapplied. */
  method PlanBackward(g: Graph, seed: Key, working: WorkingSet) returns (steps: seq<PlanStep>)
    requires Accepted(g) && seed in g.nodes
    modifies working
    ensures steps == Steps(BackwardOrder(g, seed, old(working.keys)), Backward)
    ensures working.keys == old(working.keys) - Dependents(g, seed, old(working.keys))
  {
    hide Reach, KeyLess;
    ghost var before, dependents := working.keys, Dependents(g, seed, working.keys);
    var candidates := CollectDependents(g, seed, working.keys);
    ConverseAcyclic(g.parents, g.children);
    assert dependents <= Elems(g.nodes) && dependents <= before;
    hide Dependents, Acyclic, Converse, HasReady, LeastReady, Drain, Steps, Elems;
    ghost var done: seq<Key> := [];
    steps := [];
    while candidates != {}
      invariant candidates <= dependents && working.keys == before - (dependents - candidates)
      invariant done + Drain(g.children, candidates) == Drain(g.children, dependents)
      invariant steps == Steps(done, Backward)
      decreases candidates
    {
      var next := FirstBackwardReady(g, candidates);
      SomeReady(g.children, candidates);
      if next.None? {
        assert false; // the internal cycle error of the source: an accepted graph never gets here
      }
      var key := next.value;
      DrainTake(g.children, candidates, done, Drain(g.children, dependents), key);
      MarkApplied(before, dependents, candidates, key);
      StepsAppend(done, key, Backward);
      steps := steps + [PlanStep(key, Backward)];
      done := done + [key];
      working.keys := working.keys - {key};
      candidates := candidates - {key};
    }
    DrainEmpty(g.children);
  }

  /** An applied node whose parent is not applied. */
  ghost predicate BrokenEdge(g: Graph, applied: set<Key>, child: Key, parent: Key) {
    child in g.nodes && child in applied && parent in Next(g.parents, child) && parent !in applied
  }

  function HistoryError(child: Key, parent: Key): PlanningError {
    PlanningError(HistoryCategory, InconsistentAppliedHistory, child, parent, [])
  }

  /** The error names the least broken edge. */
  ghost predicate LeastBroken(g: Graph, applied: set<Key>, e: PlanningError) {
    && e == PlanningError(HistoryCategory, InconsistentAppliedHistory, e.node, e.related, [])
    && BrokenEdge(g, applied, e.node, e.related)
    && forall c, p :: BrokenEdge(g, applied, c, p) ==>
         KeyLess(e.node, c) || (e.node == c && (e.related == p || KeyLess(e.related, p)))
  }

  method ValidateAppliedHistory(g: Graph, applied: set<Key>) returns (e: Option<PlanningError>)
    requires WellFormed(g)
    ensures e.None? <==> Consistent(g, applied)
    ensures e.Some? ==> LeastBroken(g, applied, e.value)
  {
    hide Converse, KeyLess;
    for i := 0 to |g.nodes|
      invariant forall m, p :: 0 <= m < i ==> !BrokenEdge(g, applied, g.nodes[m], p)
    {
      var child := g.nodes[i];
      if child in applied {
        var parents := Next(g.parents, child);
        for j := 0 to |parents|
          invariant forall n :: 0 <= n < j ==> parents[n] in applied
        {
          if parents[j] !in applied {
            FirstBrokenLeast(g, applied, i, j);
            return Some(HistoryError(child, parents[j]));
          }
        }
      }
    }
    forall c, p | c in applied && p in Next(g.parents, c) ensures p in applied {
      var m :| 0 <= m < |g.nodes| && g.nodes[m] == c;
      assert !BrokenEdge(g, applied, g.nodes[m], p);
    }
    return None;
  }

  lemma FirstBrokenLeast(g: Graph, applied: set<Key>, i: nat, j: nat)
    requires WellFormed(g) && i < |g.nodes| && j < |Next(g.parents, g.nodes[i])|
    requires BrokenEdge(g, applied, g.nodes[i], Next(g.parents, g.nodes[i])[j])
    requires forall m, p :: 0 <= m < i ==> !BrokenEdge(g, applied, g.nodes[m], p)
    requires forall n :: 0 <= n < j ==> Next(g.parents, g.nodes[i])[n] in applied
    ensures LeastBroken(g, applied, HistoryError(g.nodes[i], Next(g.parents, g.nodes[i])[j]))
    ensures !Consistent(g, applied)
  {
    var child, parents := g.nodes[i], Next(g.parents, g.nodes[i]);
    hide Converse;
    forall c, p | BrokenEdge(g, applied, c, p)
      ensures KeyLess(child, c) || (child == c && (parents[j] == p || KeyLess(parents[j], p)))
    {
      var m :| 0 <= m < |g.nodes| && g.nodes[m] == c;
      assert m >= i;
      if m == i {
        var n :| 0 <= n < |parents| && parents[n] == p;
        assert n >= j;
      }
    }
  }

  method HasNoSameAppParent(g: Graph, app: string, key: Key) returns (root: bool)
    ensures root <==> forall p :: p in Next(g.parents, key) ==> p.app != app
  {
    var parents := Next(g.parents, key);
    for j := 0 to |parents|
      invariant forall p :: p in parents[..j] ==> p.app != app
    {
      if parents[j].app == app {
        return false;
      }
    }
    return true;
  }

  lemma {:induction false} AppRootsSplit(g: Graph, app: string, a: seq<Key>, b: seq<Key>)
    ensures AppRootsIn(g, app, a + b) == AppRootsIn(g, app, a) + AppRootsIn(g, app, b)
  {
    hide IsAppRoot;
    if a == [] {
      assert a + b == b;
    } else {
      assert (a + b)[1..] == a[1..] + b;
      AppRootsSplit(g, app, a[1..], b);
    }
  }

  /** The nodes of an app without a parent in the same app, in key order. */
  method AppRoots(g: Graph, app: string) returns (roots: seq<Key>)
    ensures roots == AppRootsIn(g, app, g.nodes)
  {
    roots := [];
    for i := 0 to |g.nodes|
      invariant roots == AppRootsIn(g, app, g.nodes[..i])
    {
      var key := g.nodes[i];
      assert g.nodes[..i + 1] == g.nodes[..i] + [key];
      AppRootsSplit(g, app, g.nodes[..i], [key]);
      if key.app == app {
        var root := HasNoSameAppParent(g, app, key);
        if root {
          roots := roots + [key];
        }
      }
    }
    assert g.nodes[..|g.nodes|] == g.nodes;
  }

  /** Runs the backward planning of the seeds one after the other. */
  method PlanBackwardAll(g: Graph, seeds: seq<Key>, working: WorkingSet) returns (steps: seq<PlanStep>)
    requires Accepted(g) && forall s :: s in seeds ==> s in g.nodes
    modifies working
    ensures steps == Steps(BackwardAll(g, seeds, old(working.keys)), Backward)
    ensures working.keys == After(old(working.keys), steps)
  {
    hide Reach, Acyclic, Converse, Drain, Dependents, KeyLess, WellFormed;
    ghost var done: seq<Key> := [];
    steps := [];
    var i := 0;
    while i < |seeds|
      invariant 0 <= i <= |seeds|
      invariant done + BackwardAll(g, seeds[i..], working.keys) == BackwardAll(g, seeds, old(working.keys))
      invariant steps == Steps(done, Backward) && working.keys == old(working.keys) - Elems(done)
    {
      ghost var now := working.keys;
      var more := PlanBackward(g, seeds[i], working);
      assert seeds[i..][1..] == seeds[i + 1..];
      BackwardValid(g, seeds[i], now);
      StepsConcat(done, BackwardOrder(g, seeds[i], now), Backward);
      RemovedBoth(old(working.keys), done, BackwardOrder(g, seeds[i], now));
      done := done + BackwardOrder(g, seeds[i], now);
      steps := steps + more;
      i := i + 1;
    }
    AfterBackward(old(working.keys), done);
  }

  lemma SeedsKnown(g: Graph, target: Key, seeds: seq<Key>)
    requires WellFormed(g) && forall s :: s in seeds ==> s in Next(g.children, target)
    ensures forall s :: s in seeds ==> s in g.nodes
  {
    ChildrenKnown(g);
    forall s | s in seeds ensures s in g.nodes {
      assert s in Elems(g.nodes);
    }
  }

  /** Plans one target against the working set, and edits the working set to match. */
  method PlanTarget(g: Graph, target: Target, working: WorkingSet) returns (r: Result<seq<PlanStep>, PlanningError>)
    requires Accepted(g) && Consistent(g, working.keys)
    modifies working
    ensures r == TargetPlan(g, old(working.keys), target)
    ensures working.keys == if r.Success? then After(old(working.keys), r.value) else old(working.keys)
    ensures Consistent(g, working.keys)
  {
    ghost var before := working.keys;
    hide Reach, Acyclic, Drain, Consistent, BackwardAll, Needed;
    match target.kind {
      case TargetNamed =>
        if target.key !in g.nodes {
          return Failure(PlanError(TargetNotFound, target.key));
        }
        if target.key !in working.keys {
          var steps := PlanForward(g, target.key, working);
          ForwardValid(g, target.key, before);
          AfterForward(before, ForwardOrder(g, target.key, before));
          r := Success(steps);
        } else {
          var seeds := SameAppChildren(Next(g.children, target.key), target.key.app);
          SeedsKnown(g, target.key, seeds);
          var steps := PlanBackwardAll(g, seeds, working);
          r := Success(steps);
        }
      case TargetZero =>
        var roots := AppRoots(g, target.app);
        var steps := PlanBackwardAll(g, roots, working);
        r := Success(steps);
      case NoTarget =>
        r := Success([]);
    }
    TargetPrefix(g, before, target, |r.value|);
    assert r.value[..|r.value|] == r.value;
  }

  ghost function Then(done: seq<PlanStep>, rest: Result<seq<PlanStep>, PlanningError>): Result<seq<PlanStep>, PlanningError> {
    match rest
    case Failure(e) => Failure(e)
    case Success(steps) => Success(done + steps)
  }

  ghost function FirstInvalid(targets: seq<Target>): Option<PlanningError> {
    if targets == [] then None
    else if ValidateTarget(targets[0]).Some? then ValidateTarget(targets[0])
    else FirstInvalid(targets[1..])
  }

  /** Plans the targets in order: target validation first, then history, then one target after the other. */
  method Plan(g: Graph, applied: set<Key>, targets: seq<Target>) returns (r: Result<seq<PlanStep>, PlanningError>)
    requires Accepted(g)
    ensures FirstInvalid(targets).Some? ==> r == Failure(FirstInvalid(targets).value)
    ensures FirstInvalid(targets).None? && !Consistent(g, applied) ==> r.Failure? && LeastBroken(g, applied, r.error)
    ensures FirstInvalid(targets).None? && Consistent(g, applied) ==> r == TargetsPlan(g, applied, targets)
  {
    var i := 0;
    while i < |targets|
      invariant 0 <= i <= |targets| && FirstInvalid(targets[i..]) == FirstInvalid(targets)
    {
      var invalid := ValidateTarget(targets[i]);
      if invalid.Some? {
        return Failure(invalid.value);
      }
      assert targets[i..][1..] == targets[i + 1..];
      i := i + 1;
    }

    var working := new WorkingSet(applied);
    var broken := ValidateAppliedHistory(g, working.keys);
    if broken.Some? {
      return Failure(broken.value);
    }

    hide Accepted, Consistent, LeastBroken, TargetPlan, After;
    var plan := [];
    i := 0;
    assert targets[0..] == targets;
    ThenNothing(TargetsPlan(g, applied, targets));
    while i < |targets|
      invariant 0 <= i <= |targets| && Consistent(g, working.keys)
      invariant Then(plan, TargetsPlan(g, working.keys, targets[i..])) == TargetsPlan(g, applied, targets)
    {
      var steps := PlanTarget(g, targets[i], working);
      assert targets[i..][1..] == targets[i + 1..];
      if steps.Failure? {
        return steps;
      }
      ThenThen(plan, steps.value, TargetsPlan(g, working.keys, targets[i + 1..]));
      plan := plan + steps.value;
      i := i + 1;
    }
    assert plan + [] == plan;
    return Success(plan);
  }

  lemma ThenNothing(rest: Result<seq<PlanStep>, PlanningError>)
    ensures Then([], rest) == rest
  {
    if rest.Success? {
      assert [] + rest.value == rest.value;
    }
  }

  lemma ThenThen(a: seq<PlanStep>, b: seq<PlanStep>, rest: Result<seq<PlanStep>, PlanningError>)
    ensures Then(a, Then(b, rest)) == Then(a + b, rest)
  {
    if rest.Success? {
      assert a + (b + rest.value) == a + b + rest.value;
    }
  }
}
