/** What plans guarantee: histories stay consistent, and an interrupted plan resumes. */
module PlanTheory {
  import opened Keys
  import opened Errors
  import opened Graphs
  import opened Draining
  import opened PlanSpec

  lemma {:induction false} AfterForward(applied: set<Key>, keys: seq<Key>)
    ensures After(applied, Steps(keys, Forward)) == applied + Elems(keys)
    decreases |keys|
  {
    if keys != [] {
      assert Steps(keys, Forward)[1..] == Steps(keys[1..], Forward);
      AfterForward(applied + {keys[0]}, keys[1..]);
      assert keys == [keys[0]] + keys[1..];
    }
  }

  lemma {:induction false} AfterBackward(applied: set<Key>, keys: seq<Key>)
    ensures After(applied, Steps(keys, Backward)) == applied - Elems(keys)
    decreases |keys|
  {
    if keys != [] {
      assert Steps(keys, Backward)[1..] == Steps(keys[1..], Backward);
      AfterBackward(applied - {keys[0]}, keys[1..]);
      assert keys == [keys[0]] + keys[1..];
    }
  }

  lemma {:induction false} AfterConcat(applied: set<Key>, a: seq<PlanStep>, b: seq<PlanStep>)
    ensures After(applied, a + b) == After(After(applied, a), b)
    decreases |a|
  {
    if a == [] {
      assert a + b == b;
    } else {
      assert (a + b)[1..] == a[1..] + b;
      var next := if a[0].direction == Forward then applied + {a[0].key} else applied - {a[0].key};
      AfterConcat(next, a[1..], b);
    }
  }

  lemma StepsTake(keys: seq<Key>, direction: Direction, n: nat)
    requires n <= |keys|
    ensures Steps(keys, direction)[..n] == Steps(keys[..n], direction)
    ensures Steps(keys, direction)[n..] == Steps(keys[n..], direction)
  {
  }

  lemma StepsConcat(a: seq<Key>, b: seq<Key>, direction: Direction)
    ensures Steps(a + b, direction) == Steps(a, direction) + Steps(b, direction)
  {
  }

  lemma ForwardValid(g: Graph, target: Key, applied: set<Key>)
    requires Accepted(g)
    ensures ValidOrder(g.parents, Needed(g, target, applied), ForwardOrder(g, target, applied))
  {
    DrainValid(g.parents, Needed(g, target, applied));
  }

  lemma BackwardValid(g: Graph, seed: Key, applied: set<Key>)
    requires Accepted(g)
    ensures ValidOrder(g.children, Dependents(g, seed, applied), BackwardOrder(g, seed, applied))
  {
    ConverseAcyclic(g.parents, g.children);
    DrainValid(g.children, Dependents(g, seed, applied));
  }

  /** Every prefix of a forward plan leaves a consistent history. */
  lemma ForwardPrefix(g: Graph, target: Key, applied: set<Key>, n: nat)
    requires Accepted(g) && Consistent(g, applied) && n <= |ForwardOrder(g, target, applied)|
    ensures Consistent(g, applied + Elems(ForwardOrder(g, target, applied)[..n]))
  {
    hide Reach, Acyclic, Drain;
    var order := ForwardOrder(g, target, applied);
    ForwardValid(g, target, applied);
    forall k, p | k in order[..n] && p in Next(g.parents, k) ensures p in applied || p in order[..n] {
      var i :| 0 <= i < n && order[i] == k;
      assert k in Elems(order);
      ReachEdge(g.parents, k, p);
      ReachTrans(g.parents, target, k, p);
      if p !in applied {
        assert p in Needed(g, target, applied);
        assert p in order[..i];
      }
    }
  }

  /** Every prefix of one backward pass leaves a consistent history. */
  lemma BackwardPrefix(g: Graph, seed: Key, applied: set<Key>, n: nat)
    requires Accepted(g) && Consistent(g, applied) && n <= |BackwardOrder(g, seed, applied)|
    ensures Consistent(g, applied - Elems(BackwardOrder(g, seed, applied)[..n]))
  {
    hide Reach, Acyclic, Drain;
    var order := BackwardOrder(g, seed, applied);
    BackwardValid(g, seed, applied);
    forall c, p | c in applied && p in Next(g.parents, c) && p in order[..n] ensures c in order[..n] {
      var i :| 0 <= i < n && order[i] == p;
      assert p in Elems(order);
      ReachStep(g.parents, c, p, seed);
      assert c in Dependents(g, seed, applied);
      assert c in Next(g.children, p);
      assert c in order[..i];
    }
  }

  lemma PrefixOfConcat<T>(a: seq<T>, b: seq<T>, n: nat)
    requires n <= |a + b|
    ensures n <= |a| ==> (a + b)[..n] == a[..n] && (a + b)[n..] == a[n..] + b
    ensures n > |a| ==> (a + b)[..n] == a + b[..n - |a|] && (a + b)[n..] == b[n - |a|..]
  {
  }

  lemma RemovedBoth(applied: set<Key>, a: seq<Key>, b: seq<Key>)
    ensures applied - Elems(a + b) == applied - Elems(a) - Elems(b)
  {
  }

  lemma {:induction false} BackwardAllPrefix(g: Graph, seeds: seq<Key>, applied: set<Key>, n: nat)
    requires Accepted(g) && Consistent(g, applied) && n <= |BackwardAll(g, seeds, applied)|
    ensures Consistent(g, applied - Elems(BackwardAll(g, seeds, applied)[..n]))
    decreases |seeds|
  {
    hide Drain, Consistent, Dependents, Distinct, Accepted, BackwardOrder;
    if seeds == [] {
      assert BackwardAll(g, seeds, applied)[..n] == [];
      assert applied - Elems([]) == applied;
    } else {
      var first := BackwardOrder(g, seeds[0], applied);
      BackwardValid(g, seeds[0], applied);
      var left := applied - Elems(first);
      assert Elems(first) == Dependents(g, seeds[0], applied);
      var rest := BackwardAll(g, seeds[1..], left);
      PrefixOfConcat(first, rest, n);
      hide ValidOrder, Elems;
      if n <= |first| {
        BackwardPrefix(g, seeds[0], applied, n);
      } else {
        BackwardPrefix(g, seeds[0], applied, |first|);
        assert first[..|first|] == first;
        BackwardAllPrefix(g, seeds[1..], left, n - |first|);
        RemovedBoth(applied, first, rest[..n - |first|]);
      }
    }
  }

  /** Every prefix of what one target adds leaves a consistent history. */
  lemma TargetPrefix(g: Graph, applied: set<Key>, target: Target, n: nat)
    requires Accepted(g) && Consistent(g, applied)
    requires TargetPlan(g, applied, target).Success? && n <= |TargetPlan(g, applied, target).value|
    ensures Consistent(g, After(applied, TargetPlan(g, applied, target).value[..n]))
  {
    hide Reach, Acyclic, Drain, Consistent;
    var steps := TargetPlan(g, applied, target).value;
    match target.kind {
      case TargetNamed =>
        if target.key !in applied {
          var order := ForwardOrder(g, target.key, applied);
          StepsTake(order, Forward, n);
          AfterForward(applied, order[..n]);
          ForwardPrefix(g, target.key, applied, n);
        } else {
          var seeds := SameAppChildren(Next(g.children, target.key), target.key.app);
          BackwardStepsPrefix(g, seeds, applied, n);
        }
      case TargetZero =>
        BackwardStepsPrefix(g, AppRootsIn(g, target.app, g.nodes), applied, n);
      case NoTarget =>
    }
  }

  lemma BackwardStepsPrefix(g: Graph, seeds: seq<Key>, applied: set<Key>, n: nat)
    requires Accepted(g) && Consistent(g, applied) && n <= |BackwardAll(g, seeds, applied)|
    ensures Consistent(g, After(applied, Steps(BackwardAll(g, seeds, applied), Backward)[..n]))
  {
    hide Reach, Acyclic, Drain, Consistent;
    var order := BackwardAll(g, seeds, applied);
    StepsTake(order, Backward, n);
    AfterBackward(applied, order[..n]);
    BackwardAllPrefix(g, seeds, applied, n);
  }

  /** History is never broken: after any prefix of any plan, every applied known key has its parents applied. */
  lemma {:induction false} HistoryNeverBroken(g: Graph, applied: set<Key>, targets: seq<Target>, n: nat)
    requires Accepted(g) && Consistent(g, applied)
    requires TargetsPlan(g, applied, targets).Success? && n <= |TargetsPlan(g, applied, targets).value|
    ensures Consistent(g, After(applied, TargetsPlan(g, applied, targets).value[..n]))
    decreases |targets|
  {
    hide Reach, Acyclic, Drain, Consistent, TargetPlan;
    var plan := TargetsPlan(g, applied, targets).value;
    if targets == [] {
      assert plan[..n] == [];
    } else {
      var first := TargetPlan(g, applied, targets[0]).value;
      var rest := TargetsPlan(g, After(applied, first), targets[1..]).value;
      assert plan == first + rest;
      if n <= |first| {
        TargetPrefix(g, applied, targets[0], n);
        assert plan[..n] == first[..n];
      } else {
        TargetPrefix(g, applied, targets[0], |first|);
        assert first[..|first|] == first;
        HistoryNeverBroken(g, After(applied, first), targets[1..], n - |first|);
        assert plan[..n] == first + rest[..n - |first|];
        AfterConcat(applied, first, rest[..n - |first|]);
      }
    }
  }

  /** Nothing in a valid order waits for its last key. */
  lemma NoneWaitsForLast(adj: Adjacency, candidates: set<Key>, order: seq<Key>, c: Key)
    requires ValidOrder(adj, candidates, order) && order != [] && c in candidates
    ensures order[|order| - 1] in candidates && order[|order| - 1] !in Next(adj, c)
  {
  }

  /** The target ends its forward plan. */
  lemma TargetLast(g: Graph, target: Key, applied: set<Key>)
    requires Accepted(g) && Consistent(g, applied) && target in g.nodes && target !in applied
    ensures var order := ForwardOrder(g, target, applied);
      order != [] && order[|order| - 1] == target && target !in order[..|order| - 1]
  {
    hide Reach, Acyclic, Drain;
    var order, needed := ForwardOrder(g, target, applied), Needed(g, target, applied);
    ForwardValid(g, target, applied);
    ReachRefl(g.parents, target);
    assert target in Elems(order);
    var x := order[|order| - 1];
    assert x in Elems(order);
    if x != target {
      var c := ReachLast(g.parents, target, x);
      assert c in needed by {
        assert c in g.nodes;
      }
      NoneWaitsForLast(g.parents, needed, order, c);
    }
  }

  /** An interrupted forward plan resumes with exactly its remaining keys. */
  lemma ForwardResumes(g: Graph, target: Key, applied: set<Key>, n: nat)
    requires Accepted(g) && n <= |ForwardOrder(g, target, applied)|
    ensures ForwardOrder(g, target, applied + Elems(ForwardOrder(g, target, applied)[..n]))
         == ForwardOrder(g, target, applied)[n..]
  {
    hide Reach, Acyclic, Drain;
    var needed, done := Needed(g, target, applied), Elems(ForwardOrder(g, target, applied)[..n]);
    assert Needed(g, target, applied + done) == needed - done;
    DrainResumes(g.parents, needed, n);
  }

  lemma {:induction false} NoDependents(g: Graph, seeds: seq<Key>, applied: set<Key>)
    requires forall s :: s in seeds ==> Dependents(g, s, applied) == {}
    ensures BackwardAll(g, seeds, applied) == []
    decreases |seeds|
  {
    if seeds != [] {
      hide Reach, Drain, Dependents;
      DrainEmpty(g.children);
      assert applied - {} == applied;
      NoDependents(g, seeds[1..], applied);
    }
  }

  /** Nothing applied depends on a child of a key whose forward plan has just ended. */
  lemma CompletedForward(g: Graph, target: Key, applied: set<Key>)
    requires Accepted(g) && Consistent(g, applied) && target in g.nodes && target !in applied
    ensures var done := applied + Elems(ForwardOrder(g, target, applied));
      forall c :: c in Next(g.children, target) ==> Dependents(g, c, done) == {}
  {
    hide Reach, Drain;
    var order := ForwardOrder(g, target, applied);
    var done := applied + Elems(order);
    ForwardValid(g, target, applied);
    ForwardPrefix(g, target, applied, |order|);
    assert order[..|order|] == order;
    forall c | c in Next(g.children, target) ensures Dependents(g, c, done) == {} {
      assert target in Next(g.parents, c);
      ParentUnreached(g, c, target);
      assert c !in applied && c !in Elems(order);
      forall k | k in done ensures !Reach(g.parents, k, c) {
        if Reach(g.parents, k, c) { ClosedReach(g.parents, done, k, c); }
      }
    }
  }

  lemma ParentUnreached(g: Graph, c: Key, p: Key)
    requires Accepted(g) && p in Next(g.parents, c)
    ensures !Reach(g.parents, p, c)
  {
    hide Reach;
    if Reach(g.parents, p, c) {
      ReachStep(g.parents, c, p, c);
      assert false;
    }
  }

  lemma {:induction false} BackwardResumes(g: Graph, seeds: seq<Key>, applied: set<Key>, n: nat)
    requires Accepted(g) && n <= |BackwardAll(g, seeds, applied)|
    ensures BackwardAll(g, seeds, applied - Elems(BackwardAll(g, seeds, applied)[..n]))
         == BackwardAll(g, seeds, applied)[n..]
    decreases |seeds|
  {
    hide Reach, Drain, Acyclic, Converse;
    if seeds == [] {
    } else {
      var first := BackwardOrder(g, seeds[0], applied);
      BackwardValid(g, seeds[0], applied);
      var dependents := Dependents(g, seeds[0], applied);
      assert Elems(first) == dependents;
      var left := applied - dependents;
      var rest := BackwardAll(g, seeds[1..], left);
      PrefixOfConcat(first, rest, n);
      hide ValidOrder;
      if n <= |first| {
        var now := applied - Elems(first[..n]);
        assert Dependents(g, seeds[0], now) == dependents - Elems(first[..n]);
        ConverseAcyclic(g.parents, g.children);
        DrainResumes(g.children, dependents, n);
        PrefixElems(first, n);
        assert now - Dependents(g, seeds[0], now) == left;
      } else {
        var m := n - |first|;
        var now := left - Elems(rest[..m]);
        RemovedBoth(applied, first, rest[..m]);
        assert Dependents(g, seeds[0], now) == {};
        DrainEmpty(g.children);
        assert now - {} == now;
        BackwardResumes(g, seeds[1..], left, m);
      }
    }
  }

  lemma PrefixElems<T>(s: seq<T>, n: nat)
    requires n <= |s|
    ensures Elems(s[..n]) <= Elems(s)
  {
  }

  /** Replanning the same target after the first n steps yields exactly the remaining steps. */
  lemma Resume(g: Graph, applied: set<Key>, target: Target, n: nat)
    requires Accepted(g) && Consistent(g, applied)
    requires TargetPlan(g, applied, target).Success? && n <= |TargetPlan(g, applied, target).value|
    ensures var plan := TargetPlan(g, applied, target).value;
      && Consistent(g, After(applied, plan[..n]))
      && TargetPlan(g, After(applied, plan[..n]), target) == Success(plan[n..])
  {
    hide Reach, Acyclic, Drain, Consistent, BackwardAll;
    TargetPrefix(g, applied, target, n);
    var plan := TargetPlan(g, applied, target).value;
    match target.kind {
      case TargetNamed =>
        if target.key !in applied {
          ResumeForward(g, applied, target.key, n);
        } else {
          var seeds := SameAppChildren(Next(g.children, target.key), target.key.app);
          ResumeBackward(g, seeds, applied, n);
          TargetKept(g, seeds, applied, target.key);
          PrefixElems(BackwardAll(g, seeds, applied), n);
        }
      case TargetZero =>
        ResumeBackward(g, AppRootsIn(g, target.app, g.nodes), applied, n);
      case NoTarget =>
    }
  }

  lemma ResumeForward(g: Graph, applied: set<Key>, target: Key, n: nat)
    requires Accepted(g) && Consistent(g, applied) && target in g.nodes && target !in applied
    requires n <= |ForwardOrder(g, target, applied)|
    ensures var plan := Steps(ForwardOrder(g, target, applied), Forward);
      TargetPlan(g, After(applied, plan[..n]), Target(TargetNamed, target, "")) == Success(plan[n..])
  {
    hide Reach, Acyclic, Drain, Consistent, BackwardAll;
    var order := ForwardOrder(g, target, applied);
    StepsTake(order, Forward, n);
    AfterForward(applied, order[..n]);
    TargetLast(g, target, applied);
    if n < |order| {
      ForwardResumes(g, target, applied, n);
      assert forall k :: k in order[..n] ==> k in order[..|order| - 1];
    } else {
      assert order[..n] == order && order[n..] == [];
      CompletedForward(g, target, applied);
      NoDependents(g, SameAppChildren(Next(g.children, target), target.app), applied + Elems(order));
    }
  }

  lemma ResumeBackward(g: Graph, seeds: seq<Key>, applied: set<Key>, n: nat)
    requires Accepted(g) && n <= |BackwardAll(g, seeds, applied)|
    ensures var plan := Steps(BackwardAll(g, seeds, applied), Backward);
      && After(applied, plan[..n]) == applied - Elems(BackwardAll(g, seeds, applied)[..n])
      && Steps(BackwardAll(g, seeds, After(applied, plan[..n])), Backward) == plan[n..]
  {
    hide Reach, Acyclic, Drain, BackwardAll;
    var order := BackwardAll(g, seeds, applied);
    StepsTake(order, Backward, n);
    AfterBackward(applied, order[..n]);
    BackwardResumes(g, seeds, applied, n);
  }

  /** A rollback removes exactly the applied known keys that depend on, or are, one of its seeds. */
  ghost function Removed(g: Graph, seeds: seq<Key>, applied: set<Key>): set<Key> {
    set k | k in g.nodes && k in applied && exists s :: s in seeds && Reach(g.parents, k, s)
  }

  lemma RemovedStep(g: Graph, seeds: seq<Key>, applied: set<Key>)
    requires seeds != []
    ensures Removed(g, seeds, applied)
         == Dependents(g, seeds[0], applied) + Removed(g, seeds[1..], applied - Dependents(g, seeds[0], applied))
  {
  }

  lemma ChainOrders(adj: Adjacency, a: set<Key>, b: set<Key>, first: seq<Key>, rest: seq<Key>)
    requires ValidOrder(adj, a, first) && ValidOrder(adj, b, rest) && a !! b
    requires forall k, c :: k in a && c in Next(adj, k) ==> c !in b
    ensures ValidOrder(adj, a + b, first + rest)
  {
    ElemsConcat(first, rest);
    forall k | k in first ensures k !in rest {
      assert k in Elems(first);
      assert k in Elems(rest) <==> k in rest;
    }
    DistinctConcat(first, rest);
    var order := first + rest;
    forall i, c | 0 <= i < |order| && c in Next(adj, order[i]) && c in a + b ensures c in order[..i] {
      if i < |first| {
        assert first[i] in Elems(first);
        assert order[..i] == first[..i];
        assert c in a;
      } else {
        var j := i - |first|;
        assert order[..i] == first + rest[..j];
        assert order[i] == rest[j];
        if c in a { assert c in Elems(first); }
      }
    }
  }

  /** The rollback lists every removed key once, children before parents. */
  lemma {:induction false} RollbackExact(g: Graph, seeds: seq<Key>, applied: set<Key>)
    requires Accepted(g)
    ensures ValidOrder(g.children, Removed(g, seeds, applied), BackwardAll(g, seeds, applied))
    decreases |seeds|
  {
    if seeds == [] {
      assert Removed(g, seeds, applied) == {};
      assert Elems(BackwardAll(g, seeds, applied)) == {};
    } else {
      hide Reach, Drain, Acyclic, ValidOrder;
      var a := Dependents(g, seeds[0], applied);
      BackwardValid(g, seeds[0], applied);
      RollbackExact(g, seeds[1..], applied - a);
      RemovedStep(g, seeds, applied);
      var b := Removed(g, seeds[1..], applied - a);
      forall k, c | k in a && c in Next(g.children, k) ensures c !in b {
        assert k in Next(g.parents, c);
        ReachStep(g.parents, c, k, seeds[0]);
      }
      ChainOrders(g.children, a, b, BackwardOrder(g, seeds[0], applied), BackwardAll(g, seeds[1..], applied - a));
    }
  }

  /** A rollback goes seed by seed: first the least order of all that depends on the first one, then the others. */
  lemma RollbackCanonical(g: Graph, seeds: seq<Key>, applied: set<Key>, order: seq<Key>)
    requires Accepted(g) && seeds != [] && ValidOrder(g.children, Dependents(g, seeds[0], applied), order)
    ensures var n, all := |order|, BackwardAll(g, seeds, applied);
      && n <= |all| && ValidOrder(g.children, Dependents(g, seeds[0], applied), all[..n]) && LexLeq(all[..n], order)
      && all[n..] == BackwardAll(g, seeds[1..], applied - Elems(order))
  {
    hide Reach, Drain, Acyclic, LexLeq;
    var a := Dependents(g, seeds[0], applied);
    var first := BackwardOrder(g, seeds[0], applied);
    BackwardValid(g, seeds[0], applied);
    ConverseAcyclic(g.parents, g.children);
    DrainLeast(g.children, a, order);
    SameLength(g.children, a, order, first);
    assert BackwardAll(g, seeds, applied)[..|order|] == first;
  }

  lemma SameLength(adj: Adjacency, a: set<Key>, s: seq<Key>, t: seq<Key>)
    requires ValidOrder(adj, a, s) && ValidOrder(adj, a, t)
    ensures |s| == |t|
  {
    DistinctSize(s);
    DistinctSize(t);
  }

  lemma {:induction false} DistinctSize(s: seq<Key>)
    requires Distinct(s)
    ensures |Elems(s)| == |s|
    decreases |s|
  {
    if s != [] {
      var n := |s| - 1;
      assert s == s[..n] + [s[n]];
      DistinctPrefix(s, n);
      DistinctSize(s[..n]);
      assert Elems(s) == Elems(s[..n]) + {s[n]};
    }
  }

  /** An applied named target keeps itself: none of its rollback's keys is the target. */
  lemma TargetKept(g: Graph, seeds: seq<Key>, applied: set<Key>, target: Key)
    requires Accepted(g) && forall s :: s in seeds ==> s in Next(g.children, target)
    ensures target !in Elems(BackwardAll(g, seeds, applied))
  {
    hide Reach, Drain, Acyclic, BackwardAll;
    RollbackExact(g, seeds, applied);
    forall s | s in seeds ensures !Reach(g.parents, target, s) {
      assert target in Next(g.parents, s);
      ParentUnreached(g, s, target);
    }
  }

  ghost function Ancestors(g: Graph, key: Key): set<Key> {
    set k | k in g.nodes && Reach(g.parents, key, k)
  }

  /** Every node depends on, or is, a root of its app. */
  lemma {:induction false} RootAbove(g: Graph, key: Key) returns (root: Key)
    requires Accepted(g) && key in g.nodes
    ensures root in g.nodes && IsAppRoot(g, key.app, root) && Reach(g.parents, key, root)
    decreases Ancestors(g, key)
  {
    hide Reach, Acyclic;
    ReachRefl(g.parents, key);
    if IsAppRoot(g, key.app, key) {
      root := key;
    } else {
      var p :| p in Next(g.parents, key) && p.app == key.app;
      ParentUnreached(g, key, p);
      forall k | k in Ancestors(g, p) ensures k in Ancestors(g, key) {
        ReachStep(g.parents, key, p, k);
      }
      assert key in Ancestors(g, key) && key !in Ancestors(g, p);
      root := RootAbove(g, p);
      ReachStep(g.parents, key, p, root);
    }
  }

  /** A zero target removes every applied known key of the app, with all that depends on the app's roots. */
  lemma ZeroTargetClears(g: Graph, applied: set<Key>, app: string)
    requires Accepted(g)
    ensures var roots := AppRootsIn(g, app, g.nodes);
      && TargetPlan(g, applied, ZeroTarget(app)) == Success(Steps(BackwardAll(g, roots, applied), Backward))
      && After(applied, TargetPlan(g, applied, ZeroTarget(app)).value) == applied - Removed(g, roots, applied)
      && forall k :: k in g.nodes && k.app == app ==> k !in applied - Removed(g, roots, applied)
  {
    hide Reach, Drain, Acyclic, BackwardAll;
    var roots := AppRootsIn(g, app, g.nodes);
    RollbackExact(g, roots, applied);
    AfterBackward(applied, BackwardAll(g, roots, applied));
    forall k | k in g.nodes && k.app == app && k in applied ensures k in Removed(g, roots, applied) {
      var root := RootAbove(g, k);
      assert root in roots;
    }
  }

  /** An applied named target removes exactly what depends on its same-app children, and stays applied. */
  lemma NamedTargetRollsBack(g: Graph, applied: set<Key>, target: Key)
    requires Accepted(g) && target in g.nodes && target in applied
    ensures var seeds := SameAppChildren(Next(g.children, target), target.app);
      var left := After(applied, TargetPlan(g, applied, NamedTarget(target)).value);
      && TargetPlan(g, applied, NamedTarget(target)) == Success(Steps(BackwardAll(g, seeds, applied), Backward))
      && left == applied - Removed(g, seeds, applied) && target in left
  {
    hide Reach, Drain, Acyclic, BackwardAll;
    var seeds := SameAppChildren(Next(g.children, target), target.app);
    RollbackExact(g, seeds, applied);
    AfterBackward(applied, BackwardAll(g, seeds, applied));
    TargetKept(g, seeds, applied, target);
  }

  /** A forward plan is the least of all orders that list the missing prerequisites once, parents first. */
  lemma ForwardCanonical(g: Graph, applied: set<Key>, target: Key, order: seq<Key>)
    requires Accepted(g) && Consistent(g, applied) && target in g.nodes && target !in applied
    requires ValidOrder(g.parents, Needed(g, target, applied), order)
    ensures var plan := ForwardOrder(g, target, applied);
      && ValidOrder(g.parents, Needed(g, target, applied), plan)
      && plan != [] && plan[|plan| - 1] == target
      && LexLeq(plan, order)
  {
    hide Reach, Drain, Acyclic;
    ForwardValid(g, target, applied);
    TargetLast(g, target, applied);
    DrainLeast(g.parents, Needed(g, target, applied), order);
  }

  /** A named target that is not applied becomes so, with exactly its ancestors, by forward steps alone. */
  lemma NamedTargetApplies(g: Graph, applied: set<Key>, target: Key)
    requires Accepted(g) && target in g.nodes && target !in applied
    ensures var r := TargetPlan(g, applied, NamedTarget(target));
      && r.Success? && After(applied, r.value) == applied + Ancestors(g, target) && target in After(applied, r.value)
      && forall i :: 0 <= i < |r.value| ==> r.value[i].direction == Forward && r.value[i].key !in applied
  {
    ReachRefl(g.parents, target);
    hide Reach, Drain, Acyclic;
    var order := ForwardOrder(g, target, applied);
    ForwardValid(g, target, applied);
    AfterForward(applied, order);
    assert Needed(g, target, applied) + applied == applied + Ancestors(g, target);
    assert forall i :: 0 <= i < |order| ==> order[i] in Elems(order);
  }

  /** Only a named target that is no node has no plan. */
  lemma TargetPlanned(g: Graph, applied: set<Key>, target: Target)
    ensures TargetPlan(g, applied, target).Failure? <==> target.kind == TargetNamed && target.key !in g.nodes
    ensures TargetPlan(g, applied, target).Failure? ==>
      TargetPlan(g, applied, target).error == PlanningError(PlanCategory, TargetNotFound, target.key, EMPTY_KEY, [])
  {
  }

  /** A plan's steps all go one way and are due: forward ones are not applied yet, backward ones are. */
  ghost predicate Due(keys: seq<Key>, d: Direction, applied: set<Key>) {
    (d == Forward && Elems(keys) !! applied) || (d == Backward && Elems(keys) <= applied)
  }

  /** Any plan for one target has one direction and lists known keys once each, all of them due. */
  lemma SingleTargetShape(g: Graph, applied: set<Key>, target: Target)
    requires Accepted(g) && TargetPlan(g, applied, target).Success?
    ensures exists keys, d ::
      Due(keys, d, applied) && Distinct(keys) && Elems(keys) <= Elems(g.nodes) &&
      TargetPlan(g, applied, target).value == Steps(keys, d)
  {
    hide Reach, Drain, Acyclic, BackwardAll;
    match target.kind {
      case TargetNamed =>
        if target.key !in applied {
          ForwardValid(g, target.key, applied);
          assert Elems(ForwardOrder(g, target.key, applied)) <= Elems(g.nodes);
        } else {
          RollbackExact(g, SameAppChildren(Next(g.children, target.key), target.key.app), applied);
          assert Elems(BackwardAll(g, SameAppChildren(Next(g.children, target.key), target.key.app), applied)) <= Elems(g.nodes);
        }
      case TargetZero =>
        RollbackExact(g, AppRootsIn(g, target.app, g.nodes), applied);
        assert Elems(BackwardAll(g, AppRootsIn(g, target.app, g.nodes), applied)) <= Elems(g.nodes);
      case NoTarget =>
        assert TargetPlan(g, applied, target).value == Steps([], Forward) && Due([], Forward, applied);
    }
  }
}
