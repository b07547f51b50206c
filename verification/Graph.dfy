/** The migration dependency graph: reachability, strong components and cycles. */
module Graphs {
  import opened Keys

  type Adjacency = map<Key, seq<Key>>

  /** A lookup that yields the empty list for an absent key, as a Go map does. */
  function Next(adj: Adjacency, key: Key): seq<Key> {
    if key in adj then adj[key] else []
  }

  ghost predicate ReachIn(adj: Adjacency, a: Key, b: Key, steps: nat)
    decreases steps
  {
    if steps == 0 then a == b
    else exists m :: m in Next(adj, a) && ReachIn(adj, m, b, steps - 1)
  }

  /** b is a or is reached from a along edges. */
  ghost predicate Reach(adj: Adjacency, a: Key, b: Key) {
    exists n: nat :: ReachIn(adj, a, b, n)
  }

  /** b is reached from a along at least one edge. */
  ghost predicate ReachPlus(adj: Adjacency, a: Key, b: Key) {
    exists m :: m in Next(adj, a) && Reach(adj, m, b)
  }

  ghost predicate Acyclic(adj: Adjacency) {
    forall a :: !ReachPlus(adj, a, a)
  }

  ghost predicate ClosedUnder(adj: Adjacency, s: set<Key>) {
    forall a, b :: a in s && b in Next(adj, a) ==> b in s
  }

  lemma ReachRefl(adj: Adjacency, a: Key)
    ensures Reach(adj, a, a)
  {
    assert ReachIn(adj, a, a, 0);
  }

  lemma ReachStep(adj: Adjacency, a: Key, m: Key, b: Key)
    requires m in Next(adj, a) && Reach(adj, m, b)
    ensures Reach(adj, a, b) && ReachPlus(adj, a, b)
  {
    var n: nat :| ReachIn(adj, m, b, n);
    assert ReachIn(adj, a, b, n + 1);
  }

  lemma ReachEdge(adj: Adjacency, a: Key, b: Key)
    requires b in Next(adj, a)
    ensures Reach(adj, a, b)
  {
    ReachRefl(adj, b);
    ReachStep(adj, a, b, b);
  }

  lemma {:induction false} ReachInTrans(adj: Adjacency, a: Key, b: Key, c: Key, n: nat, m: nat)
    requires ReachIn(adj, a, b, n) && ReachIn(adj, b, c, m)
    ensures ReachIn(adj, a, c, n + m)
    decreases n
  {
    if n != 0 {
      var x :| x in Next(adj, a) && ReachIn(adj, x, b, n - 1);
      ReachInTrans(adj, x, b, c, n - 1, m);
    }
  }

  lemma ReachTrans(adj: Adjacency, a: Key, b: Key, c: Key)
    requires Reach(adj, a, b) && Reach(adj, b, c)
    ensures Reach(adj, a, c)
  {
    var n: nat :| ReachIn(adj, a, b, n);
    var m: nat :| ReachIn(adj, b, c, m);
    ReachInTrans(adj, a, b, c, n, m);
  }

  /** Every step but the trivial one starts with an edge. */
  lemma ReachSplit(adj: Adjacency, a: Key, b: Key)
    requires Reach(adj, a, b)
    ensures a == b || ReachPlus(adj, a, b)
  {
    var n: nat :| ReachIn(adj, a, b, n);
    if n != 0 {
      var m :| m in Next(adj, a) && ReachIn(adj, m, b, n - 1);
      assert Reach(adj, m, b);
    }
  }

  /** Every step but the trivial one ends with an edge. */
  lemma {:induction false} ReachLastIn(adj: Adjacency, a: Key, b: Key, n: nat) returns (c: Key)
    requires ReachIn(adj, a, b, n) && n > 0
    ensures Reach(adj, a, c) && b in Next(adj, c)
    decreases n
  {
    var m :| m in Next(adj, a) && ReachIn(adj, m, b, n - 1);
    if n == 1 {
      ReachRefl(adj, a);
      c := a;
    } else {
      c := ReachLastIn(adj, m, b, n - 1);
      ReachStep(adj, a, m, c);
    }
  }

  lemma ReachLast(adj: Adjacency, a: Key, b: Key) returns (c: Key)
    requires Reach(adj, a, b) && a != b
    ensures Reach(adj, a, c) && b in Next(adj, c)
  {
    var n: nat :| ReachIn(adj, a, b, n);
    c := ReachLastIn(adj, a, b, n);
  }

  lemma {:induction false} ClosedReachIn(adj: Adjacency, s: set<Key>, a: Key, b: Key, n: nat)
    requires ClosedUnder(adj, s) && a in s && ReachIn(adj, a, b, n)
    ensures b in s
    decreases n
  {
    if n != 0 {
      var m :| m in Next(adj, a) && ReachIn(adj, m, b, n - 1);
      ClosedReachIn(adj, s, m, b, n - 1);
    }
  }

  lemma ClosedReach(adj: Adjacency, s: set<Key>, a: Key, b: Key)
    requires ClosedUnder(adj, s) && a in s && Reach(adj, a, b)
    ensures b in s
  {
    var n: nat :| ReachIn(adj, a, b, n);
    ClosedReachIn(adj, s, a, b, n);
  }

  /** In an acyclic graph mutual reachability is equality. */
  lemma AcyclicAntisymmetric(adj: Adjacency, a: Key, b: Key)
    requires Acyclic(adj) && Reach(adj, a, b) && Reach(adj, b, a)
    ensures a == b
  {
    ReachSplit(adj, a, b);
    if ReachPlus(adj, a, b) {
      var m :| m in Next(adj, a) && Reach(adj, m, b);
      ReachTrans(adj, m, b, a);
      assert ReachPlus(adj, a, a);
    }
  }

  /** The two adjacency maps of a graph are converse to each other. */
  ghost predicate Converse(adj: Adjacency, rev: Adjacency) {
    forall a, b :: b in Next(adj, a) <==> a in Next(rev, b)
  }

  lemma {:induction false} ConverseReachIn(adj: Adjacency, rev: Adjacency, a: Key, b: Key, n: nat)
    requires Converse(adj, rev) && ReachIn(adj, a, b, n)
    ensures Reach(rev, b, a)
    decreases n
  {
    if n == 0 {
      ReachRefl(rev, a);
    } else {
      var m :| m in Next(adj, a) && ReachIn(adj, m, b, n - 1);
      ConverseReachIn(adj, rev, m, b, n - 1);
      ReachEdge(rev, m, a);
      ReachTrans(rev, b, m, a);
    }
  }

  lemma ConverseReach(adj: Adjacency, rev: Adjacency, a: Key, b: Key)
    requires Converse(adj, rev)
    ensures Reach(adj, a, b) <==> Reach(rev, b, a)
  {
    if Reach(adj, a, b) {
      var n: nat :| ReachIn(adj, a, b, n);
      ConverseReachIn(adj, rev, a, b, n);
    }
    if Reach(rev, b, a) {
      assert Converse(rev, adj);
      var n: nat :| ReachIn(rev, b, a, n);
      ConverseReachIn(rev, adj, b, a, n);
    }
  }

  lemma ConverseAcyclic(adj: Adjacency, rev: Adjacency)
    requires Converse(adj, rev) && Acyclic(adj)
    ensures Acyclic(rev)
  {
    forall a ensures !ReachPlus(rev, a, a) {
      forall m | m in Next(rev, a) ensures !Reach(rev, m, a) {
        ConverseReach(adj, rev, a, m);
        assert a in Next(adj, m);
        assert !ReachPlus(adj, a, a);
        if Reach(adj, a, m) {
          ReachEdge(adj, m, a);
          AcyclicAntisymmetric(adj, a, m);
          ReachRefl(adj, a);
        }
      }
    }
  }

  /** The graph value `newPlannerGraph` builds. */
  datatype Graph = Graph(nodes: seq<Key>, parents: Adjacency, children: Adjacency)

  ghost predicate WellFormed(g: Graph) {
    && Ascending(g.nodes)
    && (forall k :: k in g.parents <==> k in g.nodes)
    && (forall k :: k in g.children ==> k in g.nodes)
    && (forall k :: k in g.nodes ==> Ascending(Next(g.parents, k)) && Ascending(Next(g.children, k)))
    && (forall k, p :: p in Next(g.parents, k) ==> p in g.nodes)
    && Converse(g.parents, g.children)
  }

  /** What `newPlannerGraph` accepts. */
  ghost predicate Accepted(g: Graph) {
    WellFormed(g) && Acyclic(g.parents)
  }

  /** The nodes mutually reachable with a node. */
  ghost function Component(g: Graph, x: Key): set<Key> {
    set y | y in g.nodes && Reach(g.parents, x, y) && Reach(g.parents, y, x)
  }

  ghost predicate OnCycle(g: Graph, x: Key) {
    x in g.nodes && ReachPlus(g.parents, x, x)
  }

  lemma ComponentContains(g: Graph, x: Key)
    requires x in g.nodes
    ensures x in Component(g, x)
  {
    ReachRefl(g.parents, x);
  }

  lemma ComponentShared(g: Graph, x: Key, y: Key)
    requires y in Component(g, x) && x in g.nodes
    ensures Component(g, x) == Component(g, y)
  {
    forall z ensures z in Component(g, x) <==> z in Component(g, y) {
      if z in Component(g, x) {
        ReachTrans(g.parents, y, x, z);
        ReachTrans(g.parents, z, x, y);
      }
      if z in Component(g, y) {
        ReachTrans(g.parents, x, y, z);
        ReachTrans(g.parents, z, y, x);
      }
    }
  }

  /** A component lies on a cycle exactly when it has two members or a self edge. */
  lemma CycleMeansComponent(g: Graph, x: Key)
    requires WellFormed(g) && x in g.nodes
    ensures OnCycle(g, x) <==> x in Next(g.parents, x) || exists y :: y in Component(g, x) && y != x
  {
    if OnCycle(g, x) && x !in Next(g.parents, x) {
      var m :| m in Next(g.parents, x) && Reach(g.parents, m, x);
      ReachEdge(g.parents, x, m);
      assert m in Component(g, x);
    }
    if x in Next(g.parents, x) {
      ReachRefl(g.parents, x);
      ReachStep(g.parents, x, x, x);
    }
    if y :| y in Component(g, x) && y != x {
      ReachSplit(g.parents, x, y);
      var m :| m in Next(g.parents, x) && Reach(g.parents, m, y);
      ReachTrans(g.parents, m, y, x);
    }
  }
}
