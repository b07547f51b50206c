/** Tarjan's search for a dependency cycle. */
module CycleSearches {
  import opened Sorting
  import opened Keys
  import opened Graphs

  type Indices = map<Key, nat>

  /** Indices grow along the stack, and `onStack` mirrors it. */
  ghost predicate Numbered(index: nat, indices: Indices, onStack: map<Key, bool>, stack: seq<Key>) {
    && (forall k :: k in indices ==> 1 <= indices[k] <= index)
    && (forall k :: k in stack ==> k in indices)
    && (forall i, j :: 0 <= i < j < |stack| ==> indices[stack[i]] < indices[stack[j]])
    && (forall k :: k in stack <==> k in onStack && onStack[k])
  }

  /** A node whose visit has ended has no unvisited parent. */
  ghost predicate NoneSkipped(adj: Adjacency, indices: Indices, gray: set<Key>) {
    forall b, p :: b in indices && b !in gray && p in Next(adj, b) ==> p in indices
  }

  /** The node reaches an open visit that started no later than its own. */
  ghost predicate Anchored(adj: Adjacency, indices: Indices, gray: set<Key>, y: Key) {
    y in indices && exists x :: x in gray && x in indices && indices[x] <= indices[y] && Reach(adj, y, x)
  }

  /** Open visits reach everything above them; everything on the stack reaches an open visit below it. */
  ghost predicate Linked(adj: Adjacency, indices: Indices, stack: seq<Key>, gray: set<Key>)
    requires forall k :: k in stack ==> k in indices
  {
    && (forall x :: x in gray ==> x in stack)
    && (forall x, y :: x in gray && y in stack && indices[x] <= indices[y] ==> Reach(adj, x, y))
    && (forall y {:trigger Anchored(adj, indices, gray, y)} :: y in stack ==> Anchored(adj, indices, gray, y))
  }

  /** The nodes that were visited and have left the stack. */
  ghost function Settled(indices: Indices, stack: seq<Key>): set<Key> {
    set k | k in indices && k !in stack
  }

  ghost predicate Listed(components: seq<seq<Key>>, x: Key) {
    exists c :: c in components && x in c
  }

  /** The recorded components are exactly the cyclic components among the settled nodes. */
  ghost predicate Recorded(g: Graph, settled: set<Key>, components: seq<seq<Key>>) {
    && (forall c :: c in components ==>
          && c != [] && Ascending(c) && c[0] in settled
          && OnCycle(g, c[0]) && Elems(c) == Component(g, c[0]))
    && (forall x {:trigger Listed(components, x)} :: x in settled && OnCycle(g, x) ==> Listed(components, x))
  }

  lemma PushNumbered(index: nat, indices: Indices, onStack: map<Key, bool>, stack: seq<Key>, node: Key)
    requires Numbered(index, indices, onStack, stack) && node !in indices
    ensures Numbered(index + 1, indices[node := index + 1], onStack[node := true], stack + [node])
    ensures Settled(indices[node := index + 1], stack + [node]) == Settled(indices, stack)
  {
  }

  lemma PushLinked(adj: Adjacency, indices: Indices, indices': Indices, stack: seq<Key>, gray: set<Key>, node: Key)
    requires forall k :: k in stack ==> k in indices
    requires Linked(adj, indices, stack, gray)
    requires node !in indices && indices'.Keys == indices.Keys + {node}
    requires forall k :: k in indices ==> indices'[k] == indices[k] < indices'[node]
    requires forall x :: x in gray ==> Reach(adj, x, node)
    ensures Linked(adj, indices', stack + [node], gray + {node})
  {
    hide Reach, ReachPlus;
    ReachRefl(adj, node);
    assert Anchored(adj, indices', gray + {node}, node);
    forall y | y in stack ensures Anchored(adj, indices', gray + {node}, y) {
      assert Anchored(adj, indices, gray, y);
    }
  }

  lemma AnchorMoves(adj: Adjacency, indices: Indices, gray: set<Key>, node: Key, w: Key, y: Key)
    requires Anchored(adj, indices, gray + {node}, y)
    requires w in gray && w in indices && node in indices && indices[w] < indices[node] && Reach(adj, node, w)
    ensures Anchored(adj, indices, gray, y)
  {
    hide Reach;
    var x :| x in gray + {node} && x in indices && indices[x] <= indices[y] && Reach(adj, y, x);
    if x == node {
      ReachTrans(adj, y, node, w);
    }
  }

  /** A node that reaches below itself can be closed without losing the links. */
  lemma CloseLinked(adj: Adjacency, indices: Indices, stack: seq<Key>, gray: set<Key>, node: Key, z: Key)
    requires forall k :: k in stack ==> k in indices
    requires Linked(adj, indices, stack, gray + {node})
    requires z in stack && node in stack && indices[z] < indices[node] && Reach(adj, node, z)
    ensures Linked(adj, indices, stack, gray)
  {
    hide Reach;
    assert Anchored(adj, indices, gray + {node}, z);
    var w :| w in gray + {node} && w in indices && indices[w] <= indices[z] && Reach(adj, z, w);
    ReachTrans(adj, node, z, w);
    hide Anchored;
    forall y | y in stack ensures Anchored(adj, indices, gray, y) {
      assert Anchored(adj, indices, gray + {node}, y);
      AnchorMoves(adj, indices, gray, node, w, y);
    }
  }

  lemma TopOfStack(indices: Indices, base: seq<Key>, node: Key, above: seq<Key>)
    requires forall k :: k in base + [node] + above ==> k in indices
    requires var s := base + [node] + above; forall i, j :: 0 <= i < j < |s| ==> indices[s[i]] < indices[s[j]]
    ensures forall y :: y in [node] + above ==> y !in base && indices[node] <= indices[y]
  {
    var s := base + [node] + above;
    assert s[|base|] == node;
    forall y | y in [node] + above ensures y !in base && indices[node] <= indices[y] {
      var j :| 0 <= j < |[node] + above| && ([node] + above)[j] == y;
      assert s[|base| + j] == y;
      forall i | 0 <= i < |base| ensures base[i] != y { assert s[i] == base[i]; }
    }
  }

  /** A node that cannot reach below itself tops a complete strong component. */
  lemma TopIsComponent(g: Graph, indices: Indices, base: seq<Key>, node: Key, above: seq<Key>, gray: set<Key>)
    requires WellFormed(g)
    requires forall k :: k in base + [node] + above ==> k in indices
    requires forall k :: k in indices ==> k in g.nodes
    requires var s := base + [node] + above; forall i, j :: 0 <= i < j < |s| ==> indices[s[i]] < indices[s[j]]
    requires Linked(g.parents, indices, base + [node] + above, gray + {node})
    requires forall x :: x in gray ==> x in base && Reach(g.parents, x, node)
    requires NoneSkipped(g.parents, indices, gray)
    requires forall u, v :: (u == node || u in above) && v in Next(g.parents, u) ==> v !in base
    requires ClosedUnder(g.parents, Settled(indices, base + [node] + above))
    ensures Elems([node] + above) == Component(g, node)
    ensures ClosedUnder(g.parents, Settled(indices, base))
  {
    hide Reach, ReachPlus, Linked, NoneSkipped, ClosedUnder, Settled;
    TopOfStack(indices, base, node, above);
    TopSeen(g.parents, indices, base, node, above, gray);
    TopLeavesSettled(g, indices, base, node, above);
    forall y | y in Elems([node] + above) ensures y in Component(g, node) {
      TopInComponent(g, indices, base, node, above, gray, y);
    }
    forall y | y in Component(g, node) ensures y in Elems([node] + above) {
      TopClosed(g, indices, base, node, above, y);
    }
  }

  lemma TopSeen(adj: Adjacency, indices: Indices, base: seq<Key>, node: Key, above: seq<Key>, gray: set<Key>)
    requires forall y :: y in [node] + above ==> y !in base && y in indices
    requires NoneSkipped(adj, indices, gray) && forall x :: x in gray ==> x in base
    ensures forall u, v :: (u == node || u in above) && v in Next(adj, u) ==> v in indices
  {
  }

  lemma TopInComponent(g: Graph, indices: Indices, base: seq<Key>, node: Key, above: seq<Key>, gray: set<Key>, y: Key)
    requires forall k :: k in base + [node] + above ==> k in indices
    requires forall k :: k in indices ==> k in g.nodes
    requires Linked(g.parents, indices, base + [node] + above, gray + {node})
    requires forall x :: x in gray ==> x in base && Reach(g.parents, x, node)
    requires NoneSkipped(g.parents, indices, gray)
    requires y in [node] + above && y !in base && indices[node] <= indices[y]
    ensures y in Component(g, node)
  {
    hide Reach, ReachPlus;
    assert y in base + [node] + above;
    assert Reach(g.parents, node, y);
    assert Anchored(g.parents, indices, gray + {node}, y);
    var x :| x in gray + {node} && x in indices && indices[x] <= indices[y] && Reach(g.parents, y, x);
    if x != node { ReachTrans(g.parents, y, x, node); }
  }

  lemma TopLeavesSettled(g: Graph, indices: Indices, base: seq<Key>, node: Key, above: seq<Key>)
    requires forall k :: k in base + [node] + above ==> k in indices
    requires forall y :: y in [node] + above ==> y !in base
    requires forall u, v :: (u == node || u in above) && v in Next(g.parents, u) ==> v !in base && v in indices
    requires ClosedUnder(g.parents, Settled(indices, base + [node] + above))
    ensures ClosedUnder(g.parents, Settled(indices, base))
  {
    var s := base + [node] + above;
    assert forall k :: k in s <==> k in base || k == node || k in above;
    forall a, b | a in Settled(indices, base) && b in Next(g.parents, a) ensures b in Settled(indices, base) {
      if a !in s {
        assert a in Settled(indices, s);
        assert b in Settled(indices, s);
      }
    }
  }

  lemma TopClosed(g: Graph, indices: Indices, base: seq<Key>, node: Key, above: seq<Key>, y: Key)
    requires ClosedUnder(g.parents, Settled(indices, base))
    requires ClosedUnder(g.parents, Settled(indices, base + [node] + above))
    requires node in indices && node !in base
    requires Reach(g.parents, node, y) && Reach(g.parents, y, node)
    ensures y in [node] + above
  {
    hide Reach, ReachPlus;
    ClosedReach(g.parents, Settled(indices, base), node, y);
    assert node in base + [node] + above;
    if y in Settled(indices, base + [node] + above) {
      ClosedReach(g.parents, Settled(indices, base + [node] + above), y, node);
    }
    assert y in base + [node] + above;
  }

  predicate HasSelfLoop(g: Graph, node: Key) {
    node in Next(g.parents, node)
  }

  lemma CyclicComponent(g: Graph, node: Key, c: seq<Key>)
    requires WellFormed(g) && node in g.nodes
    requires c != [] && Ascending(c) && Elems(c) == Component(g, node)
    ensures |c| > 1 || HasSelfLoop(g, c[0]) <==> OnCycle(g, node)
    ensures OnCycle(g, node) ==> OnCycle(g, c[0]) && Component(g, c[0]) == Component(g, node)
  {
    hide Reach, ReachPlus;
    KeyOrder();
    assert c[0] in Elems(c);
    ComponentContains(g, node);
    ComponentShared(g, node, c[0]);
    CycleMeansComponent(g, node);
    CycleMeansComponent(g, c[0]);
    if |c| > 1 {
      assert c[0] != c[1] && c[1] in Elems(c);
    } else {
      assert forall y :: y in Elems(c) ==> y == c[0];
    }
  }

  lemma RecordComponent(g: Graph, settled: set<Key>, components: seq<seq<Key>>, node: Key, c: seq<Key>)
    requires WellFormed(g) && node in g.nodes
    requires c != [] && Ascending(c) && Elems(c) == Component(g, node)
    requires Recorded(g, settled, components)
    ensures Recorded(g, settled + Component(g, node),
              if |c| > 1 || HasSelfLoop(g, c[0]) then components + [c] else components)
  {
    hide Reach, ReachPlus, WellFormed, KeyLess, Acyclic, Next;
    var cyclic := |c| > 1 || HasSelfLoop(g, c[0]);
    var components' := if cyclic then components + [c] else components;
    CyclicComponent(g, node, c);
    assert c[0] in Elems(c);
    forall x | x in Component(g, node) && OnCycle(g, x) ensures Listed(components', x) {
      ComponentShared(g, node, x);
      CyclicComponent(g, x, c);
      assert c in components' && x in c;
    }
    forall x | x in settled && OnCycle(g, x) ensures Listed(components', x) {
      assert Listed(components, x);
    }
  }

  ghost predicate SubMap(m: map<Key, nat>, m': map<Key, nat>) {
    forall k :: k in m ==> k in m' && m'[k] == m[k]
  }

  /** `low` is the index of a stack node that `node` reaches. */
  ghost predicate LowWitness(adj: Adjacency, indices: Indices, stack: seq<Key>, node: Key, low: nat) {
    exists y :: y in stack && y in indices && indices[y] == low && Reach(adj, node, y)
  }

  /** No edge from `above` enters `base` below `low`. */
  ghost predicate LowBound(adj: Adjacency, indices: Indices, above: seq<Key>, base: seq<Key>, low: nat) {
    forall u, v :: u in above && v in Next(adj, u) && v in base && v in indices ==> low <= indices[v]
  }

  /** The values of the variables the recursive closure shares. */
  datatype Search = Search(
    index: nat, indices: Indices, lowLink: map<Key, nat>,
    onStack: map<Key, bool>, stack: seq<Key>, components: seq<seq<Key>>)

  ghost predicate Inv(g: Graph, s: Search, gray: set<Key>) {
    && Numbered(s.index, s.indices, s.onStack, s.stack)
    && s.indices.Keys <= Elems(g.nodes) && s.lowLink.Keys == s.indices.Keys
    && NoneSkipped(g.parents, s.indices, gray)
    && Linked(g.parents, s.indices, s.stack, gray)
    && ClosedUnder(g.parents, Settled(s.indices, s.stack))
    && Recorded(g, Settled(s.indices, s.stack), s.components)
  }

  /** The loop state of the visit of `node` that started on the stack `base`. */
  ghost predicate Visiting(g: Graph, s: Search, node: Key, gray: set<Key>, base: seq<Key>) {
    && Inv(g, s, gray + {node})
    && |base| < |s.stack| && s.stack[..|base|] == base && s.stack[|base|] == node
    && node in s.indices && node in s.lowLink && s.lowLink[node] <= s.indices[node]
    && LowWitness(g.parents, s.indices, s.stack, node, s.lowLink[node])
    && LowBound(g.parents, s.indices, s.stack[|base| + 1..], base, s.lowLink[node])
  }

  ghost predicate MayVisit(g: Graph, s: Search, node: Key, gray: set<Key>) {
    && WellFormed(g) && Inv(g, s, gray)
    && node in g.nodes && node !in s.indices
    && (forall x :: x in gray ==> Reach(g.parents, x, node))
  }

  /** What the visit of `node` leaves behind. */
  ghost predicate Visited(g: Graph, s: Search, s': Search, node: Key, gray: set<Key>) {
    && Inv(g, s', gray)
    && |s.stack| <= |s'.stack| && s'.stack[..|s.stack|] == s.stack
    && SubMap(s.indices, s'.indices) && SubMap(s.lowLink, s'.lowLink)
    && node in s'.indices && node in s'.lowLink && s.index < s'.indices[node]
    && LowBound(g.parents, s'.indices, s'.stack[|s.stack|..], s.stack, s'.lowLink[node])
    && (if node in s'.stack then LowWitness(g.parents, s'.indices, s.stack, node, s'.lowLink[node])
        else s'.lowLink[node] == s'.indices[node])
  }

  function Opened(s: Search, node: Key): Search {
    Search(s.index + 1, s.indices[node := s.index + 1], s.lowLink[node := s.index + 1],
           s.onStack[node := true], s.stack + [node], s.components)
  }

  lemma OpenedInv(g: Graph, s: Search, node: Key, gray: set<Key>)
    requires MayVisit(g, s, node, gray)
    ensures Inv(g, Opened(s, node), gray + {node})
  {
    hide Reach, Recorded, ClosedUnder, OnCycle, Linked, WellFormed;
    PushNumbered(s.index, s.indices, s.onStack, s.stack, node);
    PushLinked(g.parents, s.indices, Opened(s, node).indices, s.stack, gray, node);
  }

  lemma OpenedVisits(g: Graph, s: Search, node: Key, gray: set<Key>)
    requires MayVisit(g, s, node, gray)
    ensures Visiting(g, Opened(s, node), node, gray, s.stack)
  {
    OpenedInv(g, s, node, gray);
    hide Reach, Inv, WellFormed;
    var s' := Opened(s, node);
    ReachRefl(g.parents, node);
    assert s'.stack[|s.stack|] == node;
    assert s'.stack[|s.stack| + 1..] == [];
  }

  function WithLow(s: Search, node: Key, low: nat): Search {
    s.(lowLink := s.lowLink[node := low])
  }

  function Min(a: nat, b: nat): nat {
    if b < a then b else a
  }

  lemma LowKeepsInv(g: Graph, s: Search, node: Key, low: nat, gray: set<Key>)
    requires Inv(g, s, gray) && node in s.indices
    ensures Inv(g, WithLow(s, node, low), gray)
  {
  }

  /** Lowering the low link to a witnessed index keeps the loop state. */
  lemma LowerLow(g: Graph, s: Search, node: Key, low: nat, gray: set<Key>, base: seq<Key>)
    requires Visiting(g, s, node, gray, base) && low <= s.lowLink[node]
    requires LowWitness(g.parents, s.indices, s.stack, node, low)
    ensures Visiting(g, WithLow(s, node, low), node, gray, base)
  {
  }

  /** The bounds of the nested visit and of the visit so far combine. */
  lemma JoinBounds(adj: Adjacency, indices: Indices, indices': Indices, base: seq<Key>, node: Key,
                   above: seq<Key>, more: seq<Key>, low: nat, low': nat)
    requires SubMap(indices, indices') && (forall k :: k in base ==> k in indices)
    requires LowBound(adj, indices, above, base, low)
    requires LowBound(adj, indices', more, base + [node] + above, low')
    ensures LowBound(adj, indices', above + more, base, Min(low, low'))
  {
  }

  lemma StackIndexed(g: Graph, s: Search, node: Key, gray: set<Key>, base: seq<Key>)
    requires Visiting(g, s, node, gray, base)
    ensures forall k :: k in base ==> k in s.indices
    ensures s.indices[node] <= s.index
  {
  }

  lemma StackGrowth(base: seq<Key>, node: Key, stack: seq<Key>, stack': seq<Key>)
    requires |base| < |stack| <= |stack'|
    requires stack[..|base|] == base && stack[|base|] == node && stack'[..|stack|] == stack
    ensures base + [node] + stack[|base| + 1..] == stack
    ensures stack'[..|base|] == base && stack'[|base|] == node
    ensures stack'[|base| + 1..] == stack[|base| + 1..] + stack'[|stack|..]
  {
  }

  lemma NestedBound(g: Graph, s: Search, t: Search, node: Key, parent: Key, gray: set<Key>, base: seq<Key>)
    requires Visiting(g, s, node, gray, base) && Visited(g, s, t, parent, gray + {node})
    ensures |base| < |t.stack| && t.stack[..|base|] == base && t.stack[|base|] == node
    ensures LowBound(g.parents, t.indices, t.stack[|base| + 1..], base, Min(s.lowLink[node], t.lowLink[parent]))
  {
    StackIndexed(g, s, node, gray, base);
    hide Inv, LowBound, LowWitness, SubMap;
    StackGrowth(base, node, s.stack, t.stack);
    JoinBounds(g.parents, s.indices, t.indices, base, node, s.stack[|base| + 1..], t.stack[|s.stack|..],
               s.lowLink[node], t.lowLink[parent]);
  }

  /** A nested visit keeps the outer loop state once its low link is taken over. */
  lemma AbsorbVisit(g: Graph, s: Search, t: Search, node: Key, parent: Key, gray: set<Key>, base: seq<Key>)
    requires Visiting(g, s, node, gray, base) && Visited(g, s, t, parent, gray + {node})
    requires parent in Next(g.parents, node)
    ensures node in s.lowLink && node in t.lowLink && parent in t.lowLink
    ensures Visiting(g, WithLow(t, node, Min(t.lowLink[node], t.lowLink[parent])), node, gray, base)
    ensures Min(t.lowLink[node], t.lowLink[parent]) <= s.lowLink[node] == t.lowLink[node]
    ensures SubMap(s.indices, t.indices) && parent in t.indices
  {
    hide Inv, LowBound, LowWitness;
    StackIndexed(g, s, node, gray, base);
    NestedBound(g, s, t, node, parent, gray, base);
    NestedWitness(g, s, t, node, parent, gray);
    LowKeepsInv(g, t, node, Min(t.lowLink[node], t.lowLink[parent]), gray + {node});
  }

  lemma NestedWitness(g: Graph, s: Search, t: Search, node: Key, parent: Key, gray: set<Key>)
    requires Visited(g, s, t, parent, gray + {node}) && node in s.lowLink && node in s.indices
    requires LowWitness(g.parents, s.indices, s.stack, node, s.lowLink[node])
    requires s.lowLink[node] <= s.indices[node] <= s.index
    requires parent in Next(g.parents, node)
    ensures LowWitness(g.parents, t.indices, t.stack, node, Min(t.lowLink[node], t.lowLink[parent]))
  {
    hide Inv, LowBound;
    if t.lowLink[parent] < t.lowLink[node] {
      var y :| y in s.stack && y in t.indices && t.indices[y] == t.lowLink[parent] && Reach(g.parents, parent, y);
      ReachStep(g.parents, node, parent, y);
      assert y in t.stack;
    } else {
      var y :| y in s.stack && y in s.indices && s.indices[y] == s.lowLink[node] && Reach(g.parents, node, y);
      assert y in t.stack;
    }
  }

  /** An edge to a node on the stack is taken over directly. */
  lemma AbsorbEdge(g: Graph, s: Search, node: Key, parent: Key, gray: set<Key>, base: seq<Key>)
    requires Visiting(g, s, node, gray, base)
    requires parent in Next(g.parents, node) && parent in s.stack && parent in s.indices
    requires s.indices[parent] < s.lowLink[node]
    ensures Visiting(g, WithLow(s, node, s.indices[parent]), node, gray, base)
  {
    ReachEdge(g.parents, node, parent);
    hide Reach, Inv, LowBound;
    assert LowWitness(g.parents, s.indices, s.stack, node, s.indices[parent]);
    hide Visiting, LowWitness;
    LowerLow(g, s, node, s.indices[parent], gray, base);
  }

  /** All parents of `node` have been followed since its visit began in `s0`. */
  ghost predicate Followed(g: Graph, s0: Search, s: Search, node: Key, gray: set<Key>) {
    && MayVisit(g, s0, node, gray) && Visiting(g, s, node, gray, s0.stack)
    && SubMap(s0.indices, s.indices) && SubMap(s0.lowLink, s.lowLink) && s0.index < s.indices[node]
    && (forall p :: p in Next(g.parents, node) ==> p in s.indices)
    && (forall p :: p in Next(g.parents, node) && p in s0.stack ==> s.lowLink[node] <= s.indices[p])
  }

  lemma FollowedBound(g: Graph, s0: Search, s: Search, node: Key, gray: set<Key>)
    requires Followed(g, s0, s, node, gray)
    ensures s.stack[|s0.stack|..] == [node] + s.stack[|s0.stack| + 1..]
    ensures LowBound(g.parents, s.indices, s.stack[|s0.stack|..], s0.stack, s.lowLink[node])
  {
    hide Inv, MayVisit, LowWitness, SubMap;
    assert s.stack[|s0.stack|..] == [node] + s.stack[|s0.stack| + 1..];
  }

  /** Below `node` the stack holds exactly the smaller indices. */
  lemma BaseIsBelow(g: Graph, s0: Search, s: Search, node: Key, gray: set<Key>, y: Key)
    requires Followed(g, s0, s, node, gray) && y in s.stack
    ensures y in s.indices && (y in s0.stack <==> s.indices[y] < s.indices[node])
  {
    hide Reach, MayVisit, Linked, NoneSkipped, Recorded, ClosedUnder, Settled, LowWitness, LowBound, SubMap, Elems;
    var j :| 0 <= j < |s.stack| && s.stack[j] == y;
    if y in s0.stack {
      var i :| 0 <= i < |s0.stack| && s0.stack[i] == y;
      assert s.stack[i] == y;
    }
    if j < |s0.stack| { assert s0.stack[j] == y; }
  }

  lemma CloseInv(g: Graph, s0: Search, s: Search, node: Key, gray: set<Key>)
    requires Followed(g, s0, s, node, gray) && s.lowLink[node] < s.indices[node]
    ensures Inv(g, s, gray)
  {
    hide Reach, Anchored, Recorded, ClosedUnder, Settled, LowBound, Elems, MayVisit, SubMap;
    var z :| z in s.stack && z in s.indices && s.indices[z] == s.lowLink[node] && Reach(g.parents, node, z);
    assert node in s.stack;
    CloseLinked(g.parents, s.indices, s.stack, gray, node, z);
    hide Linked;
  }

  /** A visit that reached below itself leaves its node on the stack. */
  lemma CloseVisits(g: Graph, s0: Search, s: Search, node: Key, gray: set<Key>)
    requires Followed(g, s0, s, node, gray) && s.lowLink[node] < s.indices[node]
    ensures Visited(g, s0, s, node, gray)
  {
    CloseInv(g, s0, s, node, gray);
    FollowedBound(g, s0, s, node, gray);
    hide Inv, LowBound, MayVisit, SubMap, Reach;
    var z :| z in s.stack && z in s.indices && s.indices[z] == s.lowLink[node] && Reach(g.parents, node, z);
    BaseIsBelow(g, s0, s, node, gray, z);
    assert node in s.stack;
  }

  lemma NothingSkipped(g: Graph, s0: Search, s: Search, node: Key, gray: set<Key>)
    requires Followed(g, s0, s, node, gray)
    ensures NoneSkipped(g.parents, s.indices, gray)
  {
    hide Reach, Linked, Recorded, ClosedUnder, Settled, LowBound, LowWitness, MayVisit, SubMap, Numbered, Elems;
  }

  lemma NoEscape(g: Graph, s0: Search, s: Search, node: Key, gray: set<Key>, u: Key, v: Key)
    requires Followed(g, s0, s, node, gray) && s.lowLink[node] == s.indices[node]
    requires u in s.stack[|s0.stack|..] && v in Next(g.parents, u)
    ensures v !in s0.stack
  {
    FollowedBound(g, s0, s, node, gray);
    hide Reach, MayVisit, SubMap, Inv, LowWitness;
    assert v in s0.stack ==> v in s.stack;
    if v in s.stack {
      BaseIsBelow(g, s0, s, node, gray, v);
    }
  }

  lemma TopIsExact(g: Graph, s0: Search, s: Search, node: Key, gray: set<Key>)
    requires Followed(g, s0, s, node, gray) && s.lowLink[node] == s.indices[node]
    ensures Elems(s.stack[|s0.stack|..]) == Component(g, node)
    ensures ClosedUnder(g.parents, Settled(s.indices, s0.stack))
    ensures Settled(s.indices, s0.stack) == Settled(s.indices, s.stack) + Component(g, node)
  {
    hide Reach, Inv, LowBound, LowWitness, MayVisit, SubMap, WellFormed, Linked, NoneSkipped, ClosedUnder, Settled, Component, Elems, Next;
    var base, top, above := s0.stack, s.stack[|s0.stack|..], s.stack[|s0.stack| + 1..];
    FollowedBound(g, s0, s, node, gray);
    NothingSkipped(g, s0, s, node, gray);
    TopFacts(g, s0, s, node, gray);
    assert s.stack == base + top;
    forall u, v | u in top && v in Next(g.parents, u) ensures v !in base {
      NoEscape(g, s0, s, node, gray, u, v);
    }
    assert base + [node] + above == s.stack;
    TopIsComponent(g, s.indices, base, node, above, gray);
    SettledGrows(s.indices, base, top, s.stack);
  }

  lemma SettledGrows(indices: Indices, base: seq<Key>, top: seq<Key>, stack: seq<Key>)
    requires stack == base + top && (forall k :: k in stack ==> k in indices)
    requires forall k :: k in top ==> k !in base
    ensures Settled(indices, base) == Settled(indices, stack) + Elems(top)
  {
  }

  lemma TopFacts(g: Graph, s0: Search, s: Search, node: Key, gray: set<Key>)
    requires Followed(g, s0, s, node, gray)
    ensures WellFormed(g) && (forall k :: k in s.stack ==> k in s.indices)
    ensures forall k :: k in s.indices ==> k in g.nodes
    ensures forall i, j :: 0 <= i < j < |s.stack| ==> s.indices[s.stack[i]] < s.indices[s.stack[j]]
    ensures Linked(g.parents, s.indices, s.stack, gray + {node})
    ensures forall x :: x in gray ==> x in s0.stack && Reach(g.parents, x, node)
    ensures ClosedUnder(g.parents, Settled(s.indices, s.stack))
    ensures forall k :: k in s.stack[|s0.stack|..] ==> k !in s0.stack
  {
    forall k | k in s.stack[|s0.stack|..] ensures k !in s0.stack {
      var j :| 0 <= j < |s.stack[|s0.stack|..]| && s.stack[|s0.stack|..][j] == k;
      assert s.stack[|s0.stack| + j] == k;
      forall i | 0 <= i < |s0.stack| ensures s0.stack[i] != k { assert s.stack[i] == s0.stack[i]; }
    }
  }
  lemma PopLinked(g: Graph, s0: Search, s: Search, node: Key, gray: set<Key>)
    requires Followed(g, s0, s, node, gray)
    ensures forall k :: k in s0.stack ==> k in s.indices && k in s.stack
    ensures Linked(g.parents, s.indices, s0.stack, gray)
  {
    hide Reach, NoneSkipped, Recorded, ClosedUnder, Settled, LowBound, LowWitness, Elems, WellFormed;
    assert forall k :: k in s0.stack ==> k in s.stack;
    forall y | y in s0.stack ensures Anchored(g.parents, s.indices, gray, y) {
      BaseIsBelow(g, s0, s, node, gray, y);
      assert Anchored(g.parents, s.indices, gray + {node}, y);
    }
    hide Anchored;
  }

  /** The search after the component of `node` was popped down to the stack `base`. */
  ghost predicate Popped(g: Graph, base: seq<Key>, s: Search, s': Search, popped: seq<Key>) {
    && s' == s.(onStack := s'.onStack, stack := base, components := s'.components)
    && (forall k :: k in base <==> k in s'.onStack && s'.onStack[k])
    && |base| <= |s.stack|
    && multiset(popped) == multiset(s.stack[|base|..])
    && s'.components == Record(g, s.components, SortKeys(popped))
  }

  function Record(g: Graph, components: seq<seq<Key>>, c: seq<Key>): seq<seq<Key>> {
    if |c| > 1 || (|c| == 1 && HasSelfLoop(g, c[0])) then components + [c] else components
  }

  lemma PopRecorded(g: Graph, s0: Search, s: Search, s': Search, c: seq<Key>, node: Key, gray: set<Key>)
    requires Followed(g, s0, s, node, gray) && s.lowLink[node] == s.indices[node]
    requires Popped(g, s0.stack, s, s', c)
    ensures Recorded(g, Settled(s.indices, s0.stack), s'.components)
  {
    TopIsExact(g, s0, s, node, gray);
    TopFacts(g, s0, s, node, gray);
    hide Reach, LowBound, LowWitness, SubMap, MayVisit, NoneSkipped, Linked, Numbered, ClosedUnder, Settled, Recorded;
    var top := s.stack[|s0.stack|..];
    forall i, j | 0 <= i < j < |top| ensures top[i] != top[j] {
      assert top[i] == s.stack[|s0.stack| + i] && top[j] == s.stack[|s0.stack| + j];
    }
    SortedTop(g, top, c, node);
    assert node in s.indices;
    hide Visiting, Inv, Followed, Component;
    RecordComponent(g, Settled(s.indices, s.stack), s.components, node, SortKeys(c));
  }

  lemma SortedTop(g: Graph, top: seq<Key>, c: seq<Key>, node: Key)
    requires multiset(c) == multiset(top) && Distinct(top) && Elems(top) == Component(g, node) && node in g.nodes
    ensures Ascending(SortKeys(c)) && Elems(SortKeys(c)) == Component(g, node) && SortKeys(c) != []
  {
    DistinctPermutation(top, SortKeys(c));
    SortedDistinctAscends(SortKeys(c));
    forall k ensures k in SortKeys(c) <==> k in top {
      assert k in SortKeys(c) <==> k in multiset(SortKeys(c));
      assert k in top <==> k in multiset(top);
    }
    ComponentContains(g, node);
    assert node in Elems(top);
  }

  lemma PopVisits(g: Graph, s0: Search, s: Search, s': Search, c: seq<Key>, node: Key, gray: set<Key>)
    requires Followed(g, s0, s, node, gray) && s.lowLink[node] == s.indices[node]
    requires Popped(g, s0.stack, s, s', c)
    ensures Visited(g, s0, s', node, gray)
  {
    PopRecorded(g, s0, s, s', c, node, gray);
    PopLinked(g, s0, s, node, gray);
    TopIsExact(g, s0, s, node, gray);
    NothingSkipped(g, s0, s, node, gray);
    PopNumbered(g, s0, s, s', c, node, gray);
    hide Reach, Numbered, Linked, NoneSkipped, ClosedUnder, Settled, Recorded, MayVisit, SubMap, LowWitness;
  }

  lemma PopNumbered(g: Graph, s0: Search, s: Search, s': Search, c: seq<Key>, node: Key, gray: set<Key>)
    requires Followed(g, s0, s, node, gray) && Popped(g, s0.stack, s, s', c)
    ensures Numbered(s'.index, s'.indices, s'.onStack, s'.stack)
    ensures node !in s'.stack && s'.stack[|s0.stack|..] == []
  {
    hide Reach, LowBound, LowWitness, SubMap, MayVisit, NoneSkipped, Linked, ClosedUnder, Settled, Recorded, WellFormed;
    assert forall i :: 0 <= i < |s0.stack| ==> s0.stack[i] == s.stack[i];
    TopFacts(g, s0, s, node, gray);
    assert s.stack[|s0.stack|..][0] == node;
  }

  ghost predicate ParentsDone(ps: seq<Key>, indices: Indices, base: seq<Key>, low: nat) {
    forall p :: p in ps ==> p in indices && (p in base ==> low <= indices[p])
  }

  lemma ParentsGrow(ps: seq<Key>, i: nat, indices: Indices, indices': Indices, base: seq<Key>, low: nat, low': nat)
    requires i < |ps| && ParentsDone(ps[..i], indices, base, low) && SubMap(indices, indices') && low' <= low
    requires ps[i] in indices' && (ps[i] in base ==> low' <= indices'[ps[i]])
    ensures ParentsDone(ps[..i + 1], indices', base, low')
  {
  }

  lemma SubMapRefl(a: Indices)
    ensures SubMap(a, a)
  {
  }

  lemma SubMapTrans(a: Indices, b: Indices, c: Indices)
    requires SubMap(a, b) && SubMap(b, c)
    ensures SubMap(a, c)
  {
  }

  ghost predicate SameBut(m: Indices, m': Indices, node: Key) {
    forall k :: k in m && k != node ==> k in m' && m'[k] == m[k]
  }

  lemma SameButUpdated(m: Indices, node: Key, low: nat)
    ensures SameBut(m, m[node := low], node)
  {
  }

  lemma SubMapBut(a: Indices, b: Indices, c: Indices, node: Key)
    requires SubMap(a, b) && SameBut(b, c, node) && node !in a
    ensures SubMap(a, c)
  {
  }

  /** The first `i` parents of `node` have been followed since its visit began in `s0`. */
  ghost predicate FollowedTo(g: Graph, s0: Search, s: Search, node: Key, gray: set<Key>, i: nat) {
    && MayVisit(g, s0, node, gray) && Visiting(g, s, node, gray, s0.stack)
    && SubMap(s0.indices, s.indices) && SubMap(s0.lowLink, s.lowLink) && s0.index < s.indices[node]
    && i <= |Next(g.parents, node)| && node in s.lowLink
    && ParentsDone(Next(g.parents, node)[..i], s.indices, s0.stack, s.lowLink[node])
  }

  lemma OpenedFollows(g: Graph, s: Search, node: Key, gray: set<Key>)
    requires MayVisit(g, s, node, gray)
    ensures FollowedTo(g, s, Opened(s, node), node, gray, 0)
  {
    hide Inv, WellFormed, Reach, LowWitness, LowBound, Visiting;
    FreshNode(g, s, node, gray);
    OpenedVisits(g, s, node, gray);
  }

  lemma FollowedAll(g: Graph, s0: Search, s: Search, node: Key, gray: set<Key>)
    requires FollowedTo(g, s0, s, node, gray, |Next(g.parents, node)|)
    ensures Followed(g, s0, s, node, gray)
  {
    hide MayVisit, Visiting, SubMap;
    var ps := Next(g.parents, node);
    assert ps[..|ps|] == ps;
  }

  lemma MayFollow(g: Graph, s0: Search, s: Search, node: Key, gray: set<Key>, i: nat)
    requires FollowedTo(g, s0, s, node, gray, i) && i < |Next(g.parents, node)|
    requires Next(g.parents, node)[i] !in s.indices
    ensures MayVisit(g, s, Next(g.parents, node)[i], gray + {node})
  {
    hide Inv, Reach, SubMap, LowBound, LowWitness;
    var parent := Next(g.parents, node)[i];
    ReachEdge(g.parents, node, parent);
    forall x | x in gray ensures Reach(g.parents, x, parent) {
      ReachTrans(g.parents, x, node, parent);
    }
  }

  lemma FreshNode(g: Graph, s0: Search, node: Key, gray: set<Key>)
    requires MayVisit(g, s0, node, gray)
    ensures node !in s0.lowLink && node !in s0.indices && (forall k :: k in s0.stack ==> k in s0.indices)
  {
  }

  /** The part of a step that the loop invariant needs. */
  lemma FollowNext(g: Graph, s0: Search, s: Search, s': Search, node: Key, gray: set<Key>, i: nat)
    requires FollowedTo(g, s0, s, node, gray, i) && i < |Next(g.parents, node)|
    requires Visiting(g, s', node, gray, s0.stack) && SubMap(s.indices, s'.indices)
    requires SameBut(s.lowLink, s'.lowLink, node)
    requires s'.lowLink[node] <= s.lowLink[node]
    requires var p := Next(g.parents, node)[i];
      p in s'.indices && (p in s0.stack ==> s'.lowLink[node] <= s'.indices[p])
    ensures FollowedTo(g, s0, s', node, gray, i + 1)
  {
    FreshNode(g, s0, node, gray);
    SubMapTrans(s0.indices, s.indices, s'.indices);
    SubMapBut(s0.lowLink, s.lowLink, s'.lowLink, node);
    assert node in s'.lowLink && node in s.indices && s'.indices[node] == s.indices[node];
    hide MayVisit, Visiting, SubMap, SameBut;
    ParentsGrow(Next(g.parents, node), i, s.indices, s'.indices, s0.stack, s.lowLink[node], s'.lowLink[node]);
  }

  lemma FollowVisit(g: Graph, s0: Search, s: Search, t: Search, node: Key, gray: set<Key>, i: nat)
    requires FollowedTo(g, s0, s, node, gray, i) && i < |Next(g.parents, node)|
    requires var parent := Next(g.parents, node)[i]; parent !in s.indices && Visited(g, s, t, parent, gray + {node})
    ensures node in t.lowLink && Next(g.parents, node)[i] in t.lowLink
    ensures var low := Min(t.lowLink[node], t.lowLink[Next(g.parents, node)[i]]);
      FollowedTo(g, s0, WithLow(t, node, low), node, gray, i + 1)
  {
    hide Inv, LowBound, LowWitness, MayVisit, Reach, ParentsDone, Visiting, SubMap, SameBut, Visited;
    var parent := Next(g.parents, node)[i];
    BaseIndexed(g, s0, s, node, gray, i);
    AbsorbVisit(g, s, t, node, parent, gray, s0.stack);
    var s' := WithLow(t, node, Min(t.lowLink[node], t.lowLink[parent]));
    VisitedBut(g, s, t, parent, node, gray + {node}, s'.lowLink[node]);
    FollowNext(g, s0, s, s', node, gray, i);
  }

  lemma VisitedBut(g: Graph, s: Search, t: Search, parent: Key, node: Key, gray: set<Key>, low: nat)
    requires Visited(g, s, t, parent, gray)
    ensures SameBut(s.lowLink, t.lowLink[node := low], node)
  {
  }

  lemma BaseIndexed(g: Graph, s0: Search, s: Search, node: Key, gray: set<Key>, i: nat)
    requires FollowedTo(g, s0, s, node, gray, i)
    ensures forall k :: k in s0.stack ==> k in s.indices
  {
  }

  /** The state after an edge to an already visited parent was examined. */
  function Examined(s: Search, node: Key, parent: Key): Search
    requires node in s.lowLink && parent in s.indices
  {
    if parent in s.onStack && s.onStack[parent] && s.indices[parent] < s.lowLink[node]
    then WithLow(s, node, s.indices[parent]) else s
  }

  lemma FollowEdge(g: Graph, s0: Search, s: Search, node: Key, gray: set<Key>, i: nat)
    requires FollowedTo(g, s0, s, node, gray, i) && i < |Next(g.parents, node)|
    requires Next(g.parents, node)[i] in s.indices && node in s.lowLink
    ensures FollowedTo(g, s0, Examined(s, node, Next(g.parents, node)[i]), node, gray, i + 1)
  {
    hide MayVisit, Visiting, SubMap, ParentsDone, SameBut;
    var parent := Next(g.parents, node)[i];
    StackMirrored(g, s, node, gray, s0.stack);
    if parent in s.stack && s.indices[parent] < s.lowLink[node] {
      AbsorbEdge(g, s, node, parent, gray, s0.stack);
    }
    SubMapRefl(s.indices);
    SameButUpdated(s.lowLink, node, Examined(s, node, parent).lowLink[node]);
    LowUnchanged(s, node);
    FollowNext(g, s0, s, Examined(s, node, parent), node, gray, i);
  }

  lemma StackMirrored(g: Graph, s: Search, node: Key, gray: set<Key>, base: seq<Key>)
    requires Visiting(g, s, node, gray, base)
    ensures forall k :: k in s.stack <==> k in s.onStack && s.onStack[k]
    ensures forall k :: k in base ==> k in s.stack
    ensures Distinct(s.stack)
  {
  }

  lemma NodeNumbered(g: Graph, s0: Search, s: Search, node: Key, gray: set<Key>)
    requires Followed(g, s0, s, node, gray)
    ensures node in s.lowLink && node in s.indices && s.lowLink[node] <= s.indices[node]
    ensures |s0.stack| < |s.stack| && s.stack[..|s0.stack|] == s0.stack && s.stack[|s0.stack|] == node
    ensures forall k :: k in s.stack <==> k in s.onStack && s.onStack[k]
    ensures Distinct(s.stack)
  {
  }

  lemma MeasureDrops(g: Graph, s0: Search, s: Search, node: Key, gray: set<Key>, i: nat)
    requires FollowedTo(g, s0, s, node, gray, i)
    ensures Elems(g.nodes) - s.indices.Keys < Elems(g.nodes) - s0.indices.Keys
  {
  }

  lemma PoppedMultiset(stack: seq<Key>, base: seq<Key>, popped: seq<Key>)
    requires |base| <= |stack| && base == stack[..|base|]
    requires multiset(popped) + multiset(base) == multiset(stack)
    ensures multiset(popped) == multiset(stack[|base|..])
  {
    assert stack == base + stack[|base|..];
    assert multiset(popped) == multiset(popped) + multiset(base) - multiset(base) == multiset(stack[|base|..]);
  }

  lemma LowUnchanged(s: Search, node: Key)
    requires node in s.lowLink
    ensures WithLow(s, node, s.lowLink[node]) == s
  {
  }

  /** The search: the variables shared by the recursive closure. */
  class CycleSearch {
    const g: Graph
    var index: nat
    var indices: Indices
    var lowLink: map<Key, nat>
    var onStack: map<Key, bool>
    var stack: seq<Key>
    var components: seq<seq<Key>>

    constructor (g: Graph)
      ensures this.g == g && Value() == Search(0, map[], map[], map[], [], [])
    {
      this.g := g;
      index, indices, lowLink, onStack, stack, components := 0, map[], map[], map[], [], [];
    }

    ghost function Value(): Search
      reads this
    {
      Search(index, indices, lowLink, onStack, stack, components)
    }

    method Open(node: Key)
      modifies this
      ensures Value() == Opened(old(Value()), node)
    {
      index := index + 1;
      indices := indices[node := index];
      lowLink := lowLink[node := index];
      stack := stack + [node];
      onStack := onStack[node := true];
    }

    /** Pops the stack down to and including `node`. */
    method PopMembers(node: Key, ghost base: seq<Key>) returns (component: seq<Key>)
      requires |base| < |stack| && stack[..|base|] == base && stack[|base|] == node
      requires forall k :: k in stack <==> k in onStack && onStack[k]
      requires Distinct(stack)
      modifies this`stack, this`onStack
      ensures stack == base && |component| == |old(stack)| - |base| > 0
      ensures forall k :: k in stack <==> k in onStack && onStack[k]
      ensures multiset(component) + multiset(base) == multiset(old(stack))
    {
      component := [];
      var more := true;
      while more
        invariant |stack| <= |old(stack)| && stack == old(stack)[..|stack|]
        invariant if more then |base| < |stack| else |base| == |stack|
        invariant |component| == |old(stack)| - |stack|
        invariant multiset(component) + multiset(stack) == multiset(old(stack))
        invariant forall k :: k in stack <==> k in onStack && onStack[k]
        decreases |stack|, more
      {
        var member := stack[|stack| - 1];
        assert stack == stack[..|stack| - 1] + [member];
        stack := stack[..|stack| - 1];
        onStack := onStack[member := false];
        component := component + [member];
        more := member != node;
      }
    }

    /** Records the members of the popped component, in key order, if they form a cycle. */
    method Pop(node: Key, ghost base: seq<Key>) returns (ghost popped: seq<Key>)
      requires |base| < |stack| && stack[..|base|] == base && stack[|base|] == node
      requires forall k :: k in stack <==> k in onStack && onStack[k]
      requires Distinct(stack)
      modifies this
      ensures Popped(g, base, old(Value()), Value(), popped)
    {
      var component := PopMembers(node, base);
      popped := component;
      PoppedMultiset(old(stack), base, popped);
      component := SortKeys(component);
      if |component| > 1 || HasSelfLoop(g, component[0]) {
        components := components + [component];
      }
    }

    method Lower(node: Key, low: nat)
      modifies this`lowLink
      ensures Value() == WithLow(old(Value()), node, low)
    {
      lowLink := lowLink[node := low];
    }

    method Visit(node: Key, ghost gray: set<Key>)
      requires MayVisit(g, Value(), node, gray)
      modifies this
      ensures Visited(g, old(Value()), Value(), node, gray)
      decreases Elems(g.nodes) - indices.Keys, 0
    {
      ghost var s0 := Value();
      OpenedFollows(g, s0, node, gray);
      FreshNode(g, s0, node, gray);
      hide Reach, MayVisit, Visiting, FollowedTo, Followed, Visited, Elems;
      Open(node);
      var i := 0;
      while i < |Next(g.parents, node)|
        invariant 0 <= i <= |Next(g.parents, node)|
        invariant FollowedTo(g, s0, Value(), node, gray, i)
      {
        MeasureDrops(g, s0, Value(), node, gray, i);
        Follow(node, i, gray, s0);
        i := i + 1;
      }
      ghost var s := Value();
      FollowedAll(g, s0, s, node, gray);
      NodeNumbered(g, s0, s, node, gray);
      if lowLink[node] != indices[node] {
        CloseVisits(g, s0, s, node, gray);
        return;
      }
      ghost var popped := Pop(node, s0.stack);
      PopVisits(g, s0, s, Value(), popped, node, gray);
    }

    /** Follows the edge to parent number `i`. */
    method Follow(node: Key, i: nat, ghost gray: set<Key>, ghost s0: Search)
      requires i < |Next(g.parents, node)| && FollowedTo(g, s0, Value(), node, gray, i)
      modifies this
      ensures FollowedTo(g, s0, Value(), node, gray, i + 1)
      decreases Elems(g.nodes) - indices.Keys, 1
    {
      var parent := Next(g.parents, node)[i];
      ghost var s := Value();
      assert node in lowLink;
      hide MayVisit, Visited, Elems, FollowedTo;
      if parent !in indices {
        MayFollow(g, s0, s, node, gray, i);
        Visit(parent, gray + {node});
        ghost var t := Value();
        FollowVisit(g, s0, s, t, node, gray, i);
        LowUnchanged(t, node);
        if lowLink[parent] < lowLink[node] {
          Lower(node, lowLink[parent]);
        }
      } else {
        FollowEdge(g, s0, s, node, gray, i);
        if parent in onStack && onStack[parent] && indices[parent] < lowLink[node] {
          Lower(node, indices[parent]);
        }
      }
    }
  }

  /** Nothing stays on the stack once every visit has ended. */
  lemma StackEmpties(g: Graph, s: Search)
    requires Inv(g, s, {})
    ensures s.stack == []
  {
    hide Reach, Recorded, NoneSkipped, ClosedUnder, Anchored;
    if s.stack != [] {
      AnchorNeedsGray(g.parents, s.indices, s.stack[0]);
      assert false;
    }
  }

  lemma AnchorNeedsGray(adj: Adjacency, indices: Indices, y: Key)
    ensures !Anchored(adj, indices, {}, y)
  {
  }

  lemma StartInv(g: Graph)
    ensures Inv(g, Search(0, map[], map[], map[], [], []), {})
  {
  }

  lemma VisitedFromTop(g: Graph, s: Search, s': Search, node: Key)
    requires MayVisit(g, s, node, {}) && Visited(g, s, s', node, {})
    ensures Inv(g, s', {}) && node in s'.indices && SubMap(s.indices, s'.indices)
  {
  }

  function Head(c: seq<Key>): Key {
    if c == [] then EMPTY_KEY else c[0]
  }

  predicate FirstLess(left: seq<Key>, right: seq<Key>) {
    KeyLess(Head(left), Head(right))
  }

  /** The members, in key order, of the strong component of the least key on any cycle. */
  ghost predicate LeastCycle(g: Graph, members: seq<Key>) {
    && members != [] && Ascending(members)
    && OnCycle(g, members[0]) && Elems(members) == Component(g, members[0])
    && (forall y :: OnCycle(g, y) ==> !KeyLess(y, members[0]))
  }

  lemma AllSettled(g: Graph, s: Search)
    requires Inv(g, s, {}) && forall k :: k in g.nodes ==> k in s.indices
    ensures Recorded(g, Elems(g.nodes), s.components)
  {
    StackEmpties(g, s);
    hide Reach, Numbered, NoneSkipped, ClosedUnder, Linked, Recorded;
    assert Settled(s.indices, s.stack) == Elems(g.nodes);
  }

  lemma NoComponents(g: Graph)
    requires WellFormed(g) && Recorded(g, Elems(g.nodes), [])
    ensures Acyclic(g.parents)
  {
    hide Reach, ReachPlus;
    forall a ensures !ReachPlus(g.parents, a, a) {
      if a in g.nodes {
        assert OnCycle(g, a) ==> Listed([], a);
      } else {
        NoEdges(g, a);
      }
    }
  }

  lemma NoEdges(g: Graph, a: Key)
    requires WellFormed(g) && a !in g.nodes
    ensures !ReachPlus(g.parents, a, a)
  {
  }

  lemma LeastComponent(g: Graph, components: seq<seq<Key>>, sorted: seq<seq<Key>>)
    requires WellFormed(g) && Recorded(g, Elems(g.nodes), components) && components != []
    requires |sorted| == |components| && forall c :: c in sorted <==> c in components
    requires forall i, j :: 0 <= i < j < |sorted| ==> !FirstLess(sorted[j], sorted[i])
    ensures LeastCycle(g, sorted[0]) && !Acyclic(g.parents)
  {
    hide Reach, ReachPlus;
    KeyOrder();
    var members := sorted[0];
    assert members in components;
    forall y | OnCycle(g, y) ensures !KeyLess(y, members[0]) {
      assert Listed(components, y);
      var c :| c in components && y in c;
      var j :| 0 <= j < |sorted| && sorted[j] == c;
      assert j > 0 ==> !FirstLess(sorted[j], members);
      var k :| 0 <= k < |c| && c[k] == y;
      assert y == c[0] || KeyLess(c[0], y);
    }
  }

  /** Empty exactly for an acyclic graph; otherwise the component of the least key on a cycle. */
  method FirstCycleComponent(g: Graph) returns (members: seq<Key>)
    requires WellFormed(g)
    ensures members == [] <==> Acyclic(g.parents)
    ensures members != [] ==> LeastCycle(g, members)
  {
    var search := new CycleSearch(g);
    StartInv(g);
    hide Inv, Visited, Reach, LeastCycle, Acyclic;
    var i := 0;
    while i < |g.nodes|
      invariant 0 <= i <= |g.nodes| && search.g == g
      invariant Inv(g, search.Value(), {})
      invariant forall k :: k in g.nodes[..i] ==> k in search.indices
    {
      var node := g.nodes[i];
      ghost var s := search.Value();
      if node !in search.indices {
        search.Visit(node, {});
        VisitedFromTop(g, s, search.Value(), node);
      }
      assert g.nodes[..i + 1] == g.nodes[..i] + [node];
      i := i + 1;
    }
    assert g.nodes[..i] == g.nodes;
    AllSettled(g, search.Value());
    if search.components == [] {
      NoComponents(g);
      return [];
    }
    KeyOrder();
    hide Recorded;
    var sorted := SortBy(FirstLess, search.components);
    LeastComponent(g, search.components, sorted);
    LeastNonempty(g, sorted[0]);
    return sorted[0];
  }

  lemma LeastNonempty(g: Graph, members: seq<Key>)
    requires LeastCycle(g, members)
    ensures members != []
  {
  }
}
