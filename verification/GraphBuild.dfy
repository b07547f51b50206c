/** Validation of migration definitions and construction of the planner graph. */
module GraphBuild {
  import opened Sorting
  import opened Keys
  import opened Errors
  import opened Graphs
  import opened CycleSearches

  /** Identity and dependency edges of one migration. */
  datatype Definition = Definition(key: Key, dependencies: seq<Key>)

  datatype Edge = Edge(child: Key, parent: Key)

  predicate EdgeLess(left: Edge, right: Edge) {
    if left.child != right.child then KeyLess(left.child, right.child)
    else KeyLess(left.parent, right.parent)
  }

  predicate DefinitionLess(left: Definition, right: Definition) {
    KeyLess(left.key, right.key)
  }

  lemma EdgeOrder()
    ensures StrictWeakOrder(EdgeLess)
    ensures forall a, b :: EdgeLess(a, b) || a == b || EdgeLess(b, a)
  {
    KeyOrder();
  }

  lemma DefinitionOrder()
    ensures StrictWeakOrder(DefinitionLess)
  {
    KeyOrder();
  }

  /** A definition up to the order of its dependencies. */
  datatype Shape = Shape(key: Key, dependencies: multiset<Key>)

  ghost function ShapeOf(d: Definition): Shape {
    Shape(d.key, multiset(d.dependencies))
  }

  ghost function Shapes(definitions: seq<Definition>): multiset<Shape> {
    if definitions == [] then multiset{}
    else multiset{ShapeOf(definitions[0])} + Shapes(definitions[1..])
  }

  ghost predicate Least<T(!new)>(less: (T, T) -> bool, s: iset<T>, x: T) {
    x in s && forall y :: y in s ==> !less(y, x)
  }

  ghost predicate Repeated(shapes: multiset<Shape>, s: Shape) {
    s in shapes && (shapes[s] > 1 || exists t :: t in shapes && t != s && t.key == s.key)
  }

  ghost function InvalidNodes(shapes: multiset<Shape>): iset<Key> {
    iset s | s in shapes && !ValidKey(s.key) :: s.key
  }

  ghost function DuplicateNodes(shapes: multiset<Shape>): iset<Key> {
    iset s | Repeated(shapes, s) :: s.key
  }

  ghost function InvalidEdges(shapes: multiset<Shape>): iset<Edge> {
    iset s, p | s in shapes && p in s.dependencies && !ValidKey(p) :: Edge(s.key, p)
  }

  ghost function DuplicateEdges(shapes: multiset<Shape>): iset<Edge> {
    iset s, p | s in shapes && s.dependencies[p] > 1 :: Edge(s.key, p)
  }

  ghost function MissingEdges(shapes: multiset<Shape>): iset<Edge> {
    iset s, p | s in shapes && p in s.dependencies && !(exists t :: t in shapes && t.key == p) :: Edge(s.key, p)
  }

  /** The graph has one node per shape and exactly the declared edges. */
  ghost predicate GraphOf(shapes: multiset<Shape>, g: Graph) {
    && WellFormed(g)
    && (forall k :: k in g.nodes <==> exists s :: s in shapes && s.key == k)
    && (forall s, p :: s in shapes ==> (p in Next(g.parents, s.key) <==> p in s.dependencies))
    && (forall k :: k in g.children <==> Next(g.children, k) != [])
  }

  function GraphError(code: Code, node: Key, related: Key, members: seq<Key>): PlanningError {
    PlanningError(GraphCategory, code, node, related, members)
  }

  ghost predicate EdgeFailure(r: Result<Graph, PlanningError>, code: Code, edges: iset<Edge>) {
    && r.Failure? && r.error == PlanningError(GraphCategory, code, r.error.node, r.error.related, [])
    && Least(EdgeLess, edges, Edge(r.error.node, r.error.related))
  }

  ghost predicate NodeFailure(r: Result<Graph, PlanningError>, code: Code, nodes: iset<Key>) {
    && r.Failure? && r.error == PlanningError(GraphCategory, code, r.error.node, EMPTY_KEY, [])
    && Least(KeyLess, nodes, r.error.node)
  }

  /** What `newPlannerGraph` yields, told from the unordered definitions alone. */
  ghost predicate Outcome(shapes: multiset<Shape>, r: Result<Graph, PlanningError>) {
    if InvalidNodes(shapes) != iset{} then NodeFailure(r, InvalidNode, InvalidNodes(shapes))
    else if DuplicateNodes(shapes) != iset{} then NodeFailure(r, DuplicateNode, DuplicateNodes(shapes))
    else if InvalidEdges(shapes) != iset{} then EdgeFailure(r, InvalidDependency, InvalidEdges(shapes))
    else if DuplicateEdges(shapes) != iset{} then EdgeFailure(r, DuplicateDependency, DuplicateEdges(shapes))
    else if MissingEdges(shapes) != iset{} then EdgeFailure(r, DependencyNotFound, MissingEdges(shapes))
    else if r.Success? then GraphOf(shapes, r.value) && Acyclic(r.value.parents)
    else CycleFailure(shapes, r.error)
  }

  ghost predicate CycleFailure(shapes: multiset<Shape>, e: PlanningError) {
    exists g :: GraphOf(shapes, g) && LeastCycle(g, e.members) && !Acyclic(g.parents)
      && e == PlanningError(GraphCategory, DependencyCycle, EMPTY_KEY, EMPTY_KEY, e.members)
  }

  lemma GraphUnique(shapes: multiset<Shape>, g: Graph, h: Graph)
    requires GraphOf(shapes, g) && GraphOf(shapes, h)
    ensures g == h
  {
    AscendingUnique(g.nodes, h.nodes);
    forall k | k in g.nodes ensures Next(g.parents, k) == Next(h.parents, k) {
      var s :| s in shapes && s.key == k;
      AscendingUnique(Next(g.parents, k), Next(h.parents, k));
    }
    ParentsDecide(g, h);
  }

  lemma ParentsDecide(g: Graph, h: Graph)
    requires WellFormed(g) && WellFormed(h) && g.nodes == h.nodes
    requires forall k :: k in g.nodes ==> Next(g.parents, k) == Next(h.parents, k)
    requires forall k :: k in g.children <==> Next(g.children, k) != []
    requires forall k :: k in h.children <==> Next(h.children, k) != []
    ensures g == h
  {
    assert g.parents == h.parents;
    forall k ensures Next(g.children, k) == Next(h.children, k) {
      if k in g.nodes {
        forall c ensures c in Next(g.children, k) <==> c in Next(h.children, k) {
          assert c in Next(g.children, k) <==> k in Next(g.parents, c);
          assert c in Next(h.children, k) <==> k in Next(h.parents, c);
        }
        AscendingUnique(Next(g.children, k), Next(h.children, k));
      }
    }
    assert forall k :: k in g.children ==> g.children[k] == Next(g.children, k);
    assert forall k :: k in h.children ==> h.children[k] == Next(h.children, k);
    assert g.children == h.children;
  }

  /** The planner graph, or its error, does not depend on the order of migrations or of dependencies. */
  lemma OutcomeUnique(shapes: multiset<Shape>, r: Result<Graph, PlanningError>, r': Result<Graph, PlanningError>)
    requires Outcome(shapes, r) && Outcome(shapes, r')
    ensures r == r'
  {
    EdgeOrder();
    KeyOrder();
    hide GraphOf, LeastCycle, Acyclic;
    if InvalidNodes(shapes) != iset{} || DuplicateNodes(shapes) != iset{} {
    } else if InvalidEdges(shapes) != iset{} || DuplicateEdges(shapes) != iset{} || MissingEdges(shapes) != iset{} {
    } else {
      BuiltUnique(shapes, r, r');
    }
  }

  lemma BuiltUnique(shapes: multiset<Shape>, r: Result<Graph, PlanningError>, r': Result<Graph, PlanningError>)
    requires if r.Success? then GraphOf(shapes, r.value) && Acyclic(r.value.parents) else CycleFailure(shapes, r.error)
    requires if r'.Success? then GraphOf(shapes, r'.value) && Acyclic(r'.value.parents) else CycleFailure(shapes, r'.error)
    ensures r == r'
  {
    hide GraphOf, LeastCycle, Acyclic;
    var g := if r.Success? then r.value else
      (var g :| GraphOf(shapes, g) && LeastCycle(g, r.error.members) && !Acyclic(g.parents)
         && r.error == GraphError(DependencyCycle, EMPTY_KEY, EMPTY_KEY, r.error.members); g);
    var g' := if r'.Success? then r'.value else
      (var g :| GraphOf(shapes, g) && LeastCycle(g, r'.error.members) && !Acyclic(g.parents)
         && r'.error == GraphError(DependencyCycle, EMPTY_KEY, EMPTY_KEY, r'.error.members); g);
    GraphUnique(shapes, g, g');
    if r.Failure? {
      LeastCycleUnique(g, r.error.members, r'.error.members);
    }
  }

  lemma LeastCycleUnique(g: Graph, m: seq<Key>, m': seq<Key>)
    requires LeastCycle(g, m) && LeastCycle(g, m')
    ensures m == m'
  {
    hide OnCycle, Component;
    KeyOrder();
    assert m[0] == m'[0];
    forall k ensures k in m <==> k in m' {
      assert k in m <==> k in Elems(m);
      assert k in m' <==> k in Elems(m');
    }
    AscendingUnique(m, m');
  }

  ghost predicate Among(definitions: seq<Definition>, s: Shape) {
    exists i :: 0 <= i < |definitions| && ShapeOf(definitions[i]) == s
  }

  lemma {:induction false} ShapesMember(definitions: seq<Definition>, s: Shape)
    ensures s in Shapes(definitions) <==> Among(definitions, s)
  {
    if definitions != [] {
      var rest := definitions[1..];
      ShapesMember(rest, s);
      assert forall i :: 0 <= i < |rest| ==> rest[i] == definitions[i + 1];
      if Among(definitions, s) {
        var i :| 0 <= i < |definitions| && ShapeOf(definitions[i]) == s;
        assert i > 0 ==> ShapeOf(rest[i - 1]) == s;
      }
    }
  }

  lemma {:induction false} ShapesConcat(a: seq<Definition>, b: seq<Definition>)
    ensures Shapes(a + b) == Shapes(a) + Shapes(b)
  {
    if a == [] {
      assert a + b == b;
    } else {
      assert (a + b)[1..] == a[1..] + b;
      ShapesConcat(a[1..], b);
    }
  }

  lemma ShapesAt(b: seq<Definition>, i: nat)
    requires i < |b|
    ensures Shapes(b) == multiset{ShapeOf(b[i])} + Shapes(b[..i] + b[i + 1..])
  {
    hide Shapes;
    var before, after := b[..i], b[i + 1..];
    assert b == before + ([b[i]] + after);
    ShapesConcat(before, [b[i]] + after);
    ShapesCons(b[i], after);
    ShapesConcat(before, after);
  }

  lemma ShapesCons(d: Definition, rest: seq<Definition>)
    ensures Shapes([d] + rest) == multiset{ShapeOf(d)} + Shapes(rest)
  {
  }

  lemma {:induction false} ShapesPermuted(a: seq<Definition>, b: seq<Definition>)
    requires multiset(a) == multiset(b)
    ensures Shapes(a) == Shapes(b)
    decreases |a|
  {
    if a == [] {
      assert |multiset(b)| == 0;
    } else {
      assert a[0] in multiset(b);
      var i :| 0 <= i < |b| && b[i] == a[0];
      RemoveOne(a, b, i);
      ShapesPermuted(a[1..], b[..i] + b[i + 1..]);
      ShapesAt(b, i);
    }
  }

  lemma {:induction false} ShapesPointwise(a: seq<Definition>, b: seq<Definition>)
    requires |a| == |b| && forall i :: 0 <= i < |a| ==> ShapeOf(a[i]) == ShapeOf(b[i])
    ensures Shapes(a) == Shapes(b)
  {
    if a != [] {
      ShapesPointwise(a[1..], b[1..]);
    }
  }

  /** b lists the migrations of a in another order, each with its dependencies in another order. */
  ghost predicate Rearranged(a: seq<Definition>, b: seq<Definition>) {
    exists c: seq<Definition> :: multiset(a) == multiset(c) && |c| == |b|
      && forall i :: 0 <= i < |b| ==> c[i].key == b[i].key && multiset(c[i].dependencies) == multiset(b[i].dependencies)
  }

  lemma OrderIndependent(a: seq<Definition>, b: seq<Definition>, r: Result<Graph, PlanningError>, r': Result<Graph, PlanningError>)
    requires Rearranged(a, b) && Outcome(Shapes(a), r) && Outcome(Shapes(b), r')
    ensures r == r'
  {
    hide Outcome, Shapes;
    var c: seq<Definition> :| multiset(a) == multiset(c) && |c| == |b|
      && forall i :: 0 <= i < |b| ==> c[i].key == b[i].key && multiset(c[i].dependencies) == multiset(b[i].dependencies);
    ShapesPermuted(a, c);
    ShapesPointwise(c, b);
    OutcomeUnique(Shapes(a), r, r');
  }

  predicate KeysAscend(definitions: seq<Definition>) {
    forall i, j :: 0 <= i < j < |definitions| ==> KeyLess(definitions[i].key, definitions[j].key)
  }

  predicate KeysSorted(definitions: seq<Definition>) {
    forall i, j :: 0 <= i < j < |definitions| ==> !KeyLess(definitions[j].key, definitions[i].key)
  }

  /** A key repeats among the shapes exactly when two definitions carry it. */
  lemma {:induction false} RepeatedPair(definitions: seq<Definition>, i: nat, j: nat)
    requires i < j < |definitions| && definitions[i].key == definitions[j].key
    ensures definitions[i].key in DuplicateNodes(Shapes(definitions))
  {
    var s, t := ShapeOf(definitions[i]), ShapeOf(definitions[j]);
    ShapesMember(definitions, s);
    ShapesMember(definitions, t);
    assert definitions == definitions[..j] + ([definitions[j]] + definitions[j + 1..]);
    ShapesConcat(definitions[..j], [definitions[j]] + definitions[j + 1..]);
    ShapesConcat([definitions[j]], definitions[j + 1..]);
    ShapesMember(definitions[..j], s);
    assert ShapeOf(definitions[..j][i]) == s;
    assert Shapes([definitions[j]]) == multiset{t} by {
      assert [definitions[j]][1..] == [];
    }
    assert Repeated(Shapes(definitions), s);
  }

  lemma {:induction false} OneShapeEach(definitions: seq<Definition>, s: Shape)
    requires KeysAscend(definitions)
    ensures Shapes(definitions)[s] <= 1
    ensures forall t :: s in Shapes(definitions) && t in Shapes(definitions) && t.key == s.key ==> t == s
  {
    if definitions != [] {
      var rest := definitions[1..];
      OneShapeEach(rest, s);
      KeyOrder();
      forall t | t in Shapes(rest) ensures KeyLess(definitions[0].key, t.key) {
        ShapesMember(rest, t);
        var i :| 0 <= i < |rest| && ShapeOf(rest[i]) == t;
        assert rest[i] == definitions[i + 1];
      }
    }
  }

  lemma NoDuplicates(definitions: seq<Definition>)
    requires KeysAscend(definitions)
    ensures DuplicateNodes(Shapes(definitions)) == iset{}
  {
    forall s ensures !Repeated(Shapes(definitions), s) {
      OneShapeEach(definitions, s);
    }
  }

  /** The first equal neighbours of the sorted definitions name the least duplicated key. */
  lemma FirstPairLeast(definitions: seq<Definition>, index: nat)
    requires KeysSorted(definitions) && 0 < index < |definitions|
    requires definitions[index].key == definitions[index - 1].key
    requires forall i :: 0 < i < index ==> definitions[i].key != definitions[i - 1].key
    ensures Least(KeyLess, DuplicateNodes(Shapes(definitions)), definitions[index].key)
  {
    hide KeyLess, Shapes, KeysSorted;
    RepeatedPair(definitions, index - 1, index);
    forall s | Repeated(Shapes(definitions), s) ensures !KeyLess(s.key, definitions[index].key) {
      if KeyLess(s.key, definitions[index - 1].key) { RepeatedLater(definitions, index, s); }
    }
  }

  lemma TailAbove(definitions: seq<Definition>, from: nat, t: Shape)
    requires KeysSorted(definitions) && from < |definitions| && t in Shapes(definitions[from..])
    ensures !KeyLess(t.key, definitions[from].key)
  {
    KeyOrder();
    ShapesMember(definitions[from..], t);
    var i :| 0 <= i < |definitions[from..]| && ShapeOf(definitions[from..][i]) == t;
    assert definitions[from..][i] == definitions[from + i];
  }

  lemma RepeatedLater(definitions: seq<Definition>, index: nat, s: Shape)
    requires KeysSorted(definitions) && 0 < index < |definitions|
    requires forall i :: 0 < i < index ==> definitions[i].key != definitions[i - 1].key
    requires KeyLess(s.key, definitions[index - 1].key)
    ensures !Repeated(Shapes(definitions), s)
  {
    var head, tail := definitions[..index - 1], definitions[index - 1..];
    assert definitions == head + tail;
    ShapesConcat(head, tail);
    NeighboursDiffer(definitions, index);
    forall i, j | 0 <= i < j < |head| ensures KeyLess(head[i].key, head[j].key) {
      assert head[i] == definitions[..index][i] && head[j] == definitions[..index][j];
    }
    OneShapeEach(head, s);
    forall t: Shape | t.key == s.key ensures t !in Shapes(tail) {
      if t in Shapes(tail) { TailAbove(definitions, index - 1, t); }
    }
    assert Shapes(tail)[s] == 0;
  }

  lemma {:induction false} NeighboursDiffer(definitions: seq<Definition>, index: nat)
    requires KeysSorted(definitions) && 0 < index <= |definitions|
    requires forall i :: 0 < i < index ==> definitions[i].key != definitions[i - 1].key
    ensures KeysAscend(definitions[..index])
  {
    KeyOrder();
    forall i, j | 0 <= i < j < index ensures KeyLess(definitions[i].key, definitions[j].key) {
      assert definitions[j].key != definitions[j - 1].key;
      assert !KeyLess(definitions[j].key, definitions[j - 1].key);
      assert i == j - 1 || !KeyLess(definitions[j - 1].key, definitions[i].key);
    }
  }

  lemma LeastHead<T(!new)>(less: (T, T) -> bool, s: iset<T>, sorted: seq<T>)
    requires StrictWeakOrder(less) && NoInversion(less, sorted) && sorted != []
    requires forall x :: x in s <==> x in sorted
    ensures Least(less, s, sorted[0])
  {
  }

  ghost predicate InvalidEdgeIn(definitions: seq<Definition>, e: Edge) {
    exists d :: d in definitions && d.key == e.child && e.parent in d.dependencies && !ValidKey(e.parent)
  }

  ghost predicate DuplicateEdgeIn(definitions: seq<Definition>, e: Edge) {
    exists d :: d in definitions && d.key == e.child && multiset(d.dependencies)[e.parent] > 1
  }

  ghost predicate MissingEdgeIn(definitions: seq<Definition>, nodes: set<Key>, e: Edge) {
    exists d :: d in definitions && d.key == e.child && e.parent in d.dependencies && e.parent !in nodes
  }

  lemma InvalidNodesIn(definitions: seq<Definition>, k: Key)
    ensures k in InvalidNodes(Shapes(definitions)) <==> exists d :: d in definitions && d.key == k && !ValidKey(k)
  {
    if k in InvalidNodes(Shapes(definitions)) {
      var s :| s in Shapes(definitions) && !ValidKey(s.key) && s.key == k;
      ShapesMember(definitions, s);
    }
    if d :| d in definitions && d.key == k && !ValidKey(k) {
      ShapesMember(definitions, ShapeOf(d));
    }
  }

  lemma InvalidEdgesIn(definitions: seq<Definition>, e: Edge)
    ensures e in InvalidEdges(Shapes(definitions)) <==> InvalidEdgeIn(definitions, e)
  {
    if e in InvalidEdges(Shapes(definitions)) {
      var s :| s in Shapes(definitions) && s.key == e.child && e.parent in s.dependencies && !ValidKey(e.parent);
      ShapesMember(definitions, s);
    }
    if d :| d in definitions && d.key == e.child && e.parent in d.dependencies && !ValidKey(e.parent) {
      ShapesMember(definitions, ShapeOf(d));
      assert e.parent in ShapeOf(d).dependencies;
    }
  }

  lemma DuplicateEdgesIn(definitions: seq<Definition>, e: Edge)
    ensures e in DuplicateEdges(Shapes(definitions)) <==> DuplicateEdgeIn(definitions, e)
  {
    if e in DuplicateEdges(Shapes(definitions)) {
      var s :| s in Shapes(definitions) && s.key == e.child && s.dependencies[e.parent] > 1;
      ShapesMember(definitions, s);
    }
    if d :| d in definitions && d.key == e.child && multiset(d.dependencies)[e.parent] > 1 {
      ShapesMember(definitions, ShapeOf(d));
      assert ShapeOf(d).dependencies[e.parent] > 1;
    }
  }

  lemma NodesIn(definitions: seq<Definition>, k: Key)
    ensures (exists t :: t in Shapes(definitions) && t.key == k) <==> exists d :: d in definitions && d.key == k
  {
    if t :| t in Shapes(definitions) && t.key == k {
      ShapesMember(definitions, t);
    }
    if d :| d in definitions && d.key == k {
      ShapesMember(definitions, ShapeOf(d));
    }
  }

  lemma MissingEdgesIn(definitions: seq<Definition>, nodes: set<Key>, e: Edge)
    requires forall k :: k in nodes <==> exists d :: d in definitions && d.key == k
    ensures e in MissingEdges(Shapes(definitions)) <==> MissingEdgeIn(definitions, nodes, e)
  {
    NodesIn(definitions, e.parent);
    if e in MissingEdges(Shapes(definitions)) {
      var s :| s in Shapes(definitions) && s.key == e.child && e.parent in s.dependencies;
      ShapesMember(definitions, s);
    }
    if d :| d in definitions && d.key == e.child && e.parent in d.dependencies && e.parent !in nodes {
      ShapesMember(definitions, ShapeOf(d));
      assert e.parent in ShapeOf(d).dependencies;
    }
  }

  method CollectInvalidNodes(definitions: seq<Definition>) returns (invalid: seq<Key>)
    ensures forall k :: k in invalid <==> exists d :: d in definitions && d.key == k && !ValidKey(k)
  {
    invalid := [];
    for i := 0 to |definitions|
      invariant forall k :: k in invalid <==> exists d :: d in definitions[..i] && d.key == k && !ValidKey(k)
    {
      assert definitions[..i + 1] == definitions[..i] + [definitions[i]];
      if !ValidKey(definitions[i].key) {
        invalid := invalid + [definitions[i].key];
      }
    }
    assert definitions[..|definitions|] == definitions;
  }

  function EdgesTo(child: Key, parents: seq<Key>): (edges: seq<Edge>)
    ensures forall e :: e in edges <==> e.child == child && e.parent in parents
  {
    if parents == [] then [] else [Edge(child, parents[0])] + EdgesTo(child, parents[1..])
  }

  method InvalidParents(dependencies: seq<Key>) returns (invalid: seq<Key>)
    ensures forall p :: p in invalid <==> p in dependencies && !ValidKey(p)
  {
    invalid := [];
    for i := 0 to |dependencies|
      invariant forall p :: p in invalid <==> p in dependencies[..i] && !ValidKey(p)
    {
      if !ValidKey(dependencies[i]) {
        invalid := invalid + [dependencies[i]];
      }
    }
  }

  lemma {:induction false} CountPair(s: seq<Key>, i: nat, j: nat)
    requires i < j < |s| && s[i] == s[j]
    ensures multiset(s)[s[i]] > 1
  {
    assert s == s[..j] + [s[j]] + s[j + 1..];
    assert s[..j][i] == s[i];
    assert s[i] in s[..j];
  }

  /** Equal neighbours of a sorted list are exactly its repeated keys. */
  method RepeatedParents(dependencies: seq<Key>) returns (repeated: seq<Key>)
    requires NoInversion(KeyLess, dependencies)
    ensures forall p :: p in repeated <==> multiset(dependencies)[p] > 1
    ensures repeated == [] ==> Ascending(dependencies)
  {
    repeated := [];
    var i := 1;
    while i < |dependencies|
      invariant 1 <= i
      invariant forall p :: p in repeated <==> RepeatsBefore(dependencies, i, p)
    {
      if dependencies[i] == dependencies[i - 1] {
        repeated := repeated + [dependencies[i]];
      }
      i := i + 1;
    }
    assert forall p :: RepeatsBefore(dependencies, i, p) <==> RepeatsBefore(dependencies, |dependencies|, p);
    hide RepeatsBefore, NoInversion;
    forall p ensures p in repeated <==> multiset(dependencies)[p] > 1 {
      RepeatsMeansCount(dependencies, p);
    }
    if repeated == [] {
      NeverRepeatsAscends(dependencies);
    }
  }

  predicate RepeatsBefore(s: seq<Key>, n: int, p: Key) {
    exists j :: 0 < j < n && j < |s| && s[j] == s[j - 1] == p
  }

  lemma NeverRepeatsAscends(s: seq<Key>)
    requires NoInversion(KeyLess, s) && forall p :: !RepeatsBefore(s, |s|, p)
    ensures Ascending(s)
  {
    KeyOrder();
    forall i, j | 0 <= i < j < |s| ensures KeyLess(s[i], s[j]) {
      assert !RepeatsBefore(s, |s|, s[j]);
      assert s[j] != s[j - 1];
      assert !KeyLess(s[j], s[j - 1]);
      assert i == j - 1 || !KeyLess(s[j - 1], s[i]);
    }
  }

  lemma RepeatsMeansCount(s: seq<Key>, p: Key)
    requires NoInversion(KeyLess, s)
    ensures RepeatsBefore(s, |s|, p) <==> multiset(s)[p] > 1
  {
    hide NoInversion, KeyLess;
    if RepeatsBefore(s, |s|, p) {
      var j :| 0 < j < |s| && s[j] == s[j - 1] == p;
      CountPair(s, j - 1, j);
    } else {
      SingleOccurrence(s, p);
    }
  }

  lemma SingleOccurrence(s: seq<Key>, p: Key)
    requires NoInversion(KeyLess, s) && !RepeatsBefore(s, |s|, p)
    ensures multiset(s)[p] <= 1
  {
    KeyOrder();
    if p in s {
      var i :| 0 <= i < |s| && s[i] == p;
      forall j | 0 <= j < |s| && j != i ensures s[j] != p {
        if j < i {
          assert s[i] == s[i - 1] ==> RepeatsBefore(s, |s|, p);
          assert !KeyLess(s[i], s[i - 1]);
          assert j == i - 1 || !KeyLess(s[i - 1], s[j]);
        } else {
          assert s[i + 1] == s[i] ==> RepeatsBefore(s, |s|, p);
          assert !KeyLess(s[i + 1], s[i]);
          assert j == i + 1 || !KeyLess(s[j], s[i + 1]);
        }
      }
      OnlyAt(s, i);
    }
  }

  method MissingParents(dependencies: seq<Key>, nodes: set<Key>) returns (missing: seq<Key>)
    ensures forall p :: p in missing <==> p in dependencies && p !in nodes
  {
    missing := [];
    for i := 0 to |dependencies|
      invariant forall p :: p in missing <==> p in dependencies[..i] && p !in nodes
    {
      if dependencies[i] !in nodes {
        missing := missing + [dependencies[i]];
      }
    }
  }

  /** Sorts every dependency list and collects the invalid and the repeated edges. */
  method CheckEdges(definitions: seq<Definition>) returns (sorted: seq<Definition>, invalid: seq<Edge>, duplicate: seq<Edge>)
    ensures |sorted| == |definitions| && Shapes(sorted) == Shapes(definitions)
    ensures forall i :: 0 <= i < |sorted| ==> sorted[i].key == definitions[i].key
    ensures forall e :: e in invalid <==> InvalidEdgeIn(sorted, e)
    ensures forall e :: e in duplicate <==> DuplicateEdgeIn(sorted, e)
    ensures duplicate == [] ==> forall d :: d in sorted ==> Ascending(d.dependencies)
  {
    sorted, invalid, duplicate := [], [], [];
    for i := 0 to |definitions|
      invariant |sorted| == i
      invariant forall j :: 0 <= j < i ==>
        sorted[j].key == definitions[j].key && multiset(sorted[j].dependencies) == multiset(definitions[j].dependencies)
      invariant forall e :: e in invalid <==> InvalidEdgeIn(sorted, e)
      invariant forall e :: e in duplicate <==> DuplicateEdgeIn(sorted, e)
      invariant duplicate == [] ==> forall d :: d in sorted ==> Ascending(d.dependencies)
    {
      var child, dependencies := definitions[i].key, SortKeys(definitions[i].dependencies);
      var invalidParents := InvalidParents(dependencies);
      var repeated := RepeatedParents(dependencies);
      ExtendEdges(sorted, Definition(child, dependencies));
      sorted := sorted + [Definition(child, dependencies)];
      invalid := invalid + EdgesTo(child, invalidParents);
      duplicate := duplicate + EdgesTo(child, repeated);
      assert repeated != [] ==> Edge(child, repeated[0]) in EdgesTo(child, repeated);
    }
    ShapesPointwise(sorted, definitions);
  }

  lemma ExtendEdges(definitions: seq<Definition>, d: Definition)
    ensures forall e :: InvalidEdgeIn(definitions + [d], e) <==>
              InvalidEdgeIn(definitions, e) || (d.key == e.child && e.parent in d.dependencies && !ValidKey(e.parent))
    ensures forall e :: DuplicateEdgeIn(definitions + [d], e) <==>
              DuplicateEdgeIn(definitions, e) || (d.key == e.child && multiset(d.dependencies)[e.parent] > 1)
    ensures forall nodes, e :: MissingEdgeIn(definitions + [d], nodes, e) <==>
              MissingEdgeIn(definitions, nodes, e) || (d.key == e.child && e.parent in d.dependencies && e.parent !in nodes)
  {
  }

  method CheckParents(definitions: seq<Definition>, nodes: set<Key>) returns (missing: seq<Edge>)
    ensures forall e :: e in missing <==> MissingEdgeIn(definitions, nodes, e)
  {
    missing := [];
    for i := 0 to |definitions|
      invariant forall e :: e in missing <==> MissingEdgeIn(definitions[..i], nodes, e)
    {
      var parents := MissingParents(definitions[i].dependencies, nodes);
      ExtendEdges(definitions[..i], definitions[i]);
      assert definitions[..i + 1] == definitions[..i] + [definitions[i]];
      missing := missing + EdgesTo(definitions[i].key, parents);
    }
    assert definitions[..|definitions|] == definitions;
  }

  ghost predicate Defined(definitions: seq<Definition>, k: Key) {
    exists d :: d in definitions && d.key == k
  }

  ghost predicate ParentsDefined(definitions: seq<Definition>) {
    forall d, p {:trigger d in definitions, p in d.dependencies} ::
      d in definitions && p in d.dependencies ==> Defined(definitions, p)
  }

  ghost predicate EdgeIn(definitions: seq<Definition>, child: Key, parent: Key) {
    exists d :: d in definitions && d.key == child && parent in d.dependencies
  }

  ghost predicate ChildrenOf(definitions: seq<Definition>, children: Adjacency) {
    && (forall p, c :: c in Next(children, p) <==> EdgeIn(definitions, c, p))
    && (forall p :: Ascending(Next(children, p)))
    && (forall p :: p in children <==> Next(children, p) != [])
  }

  method AddChild(children: Adjacency, child: Key, dependencies: seq<Key>) returns (r: Adjacency)
    requires Ascending(dependencies)
    ensures forall p :: Next(r, p) == Next(children, p) + (if p in dependencies then [child] else [])
    ensures forall p :: p in r <==> p in children || p in dependencies
  {
    KeyOrder();
    r := children;
    for i := 0 to |dependencies|
      invariant forall p :: Next(r, p) == Next(children, p) + (if p in dependencies[..i] then [child] else [])
      invariant forall p :: p in r <==> p in children || p in dependencies[..i]
    {
      var parent := dependencies[i];
      assert parent !in dependencies[..i];
      assert dependencies[..i + 1] == dependencies[..i] + [parent];
      r := r[parent := Next(r, parent) + [child]];
    }
  }

  lemma ChildrenGrow(definitions: seq<Definition>, d: Definition, children: Adjacency, children': Adjacency)
    requires ChildrenOf(definitions, children) && KeysAscend(definitions + [d])
    requires forall p :: Next(children', p) == Next(children, p) + (if p in d.dependencies then [d.key] else [])
    requires forall p :: p in children' <==> p in children || p in d.dependencies
    ensures ChildrenOf(definitions + [d], children')
  {
    ListsAscend(definitions, d, children, children');
    EdgesGrow(definitions, d);
    hide EdgeIn, KeysAscend, Ascending, Next;
  }

  lemma ListsAscend(definitions: seq<Definition>, d: Definition, children: Adjacency, children': Adjacency)
    requires ChildrenOf(definitions, children) && KeysAscend(definitions + [d])
    requires forall p :: Next(children', p) == Next(children, p) + (if p in d.dependencies then [d.key] else [])
    ensures forall p :: Ascending(Next(children', p))
  {
    hide EdgeIn, KeysAscend, KeyLess, Next;
    forall p ensures Ascending(Next(children', p)) {
      forall c | c in Next(children, p) ensures KeyLess(c, d.key) {
        KeyBefore(definitions, d, c, p);
      }
      AppendAscends(Next(children, p), d.key);
    }
  }

  lemma AppendAscends(s: seq<Key>, k: Key)
    requires Ascending(s) && forall c :: c in s ==> KeyLess(c, k)
    ensures Ascending(s + []) && Ascending(s + [k])
  {
  }

  lemma EdgesGrow(definitions: seq<Definition>, d: Definition)
    ensures forall c, p :: EdgeIn(definitions + [d], c, p) <==> EdgeIn(definitions, c, p) || (c == d.key && p in d.dependencies)
  {
  }

  lemma KeyBefore(definitions: seq<Definition>, d: Definition, c: Key, p: Key)
    requires KeysAscend(definitions + [d]) && EdgeIn(definitions, c, p)
    ensures KeyLess(c, d.key)
  {
    var e :| e in definitions && e.key == c;
    var j :| 0 <= j < |definitions| && definitions[j] == e;
    assert (definitions + [d])[j] == e && (definitions + [d])[|definitions|] == d;
  }

  lemma SortAscending(s: seq<Key>)
    requires Ascending(s)
    ensures SortKeys(s) == s
  {
    KeyOrder();
    DistinctPermutation(s, SortKeys(s));
    SortedDistinctAscends(SortKeys(s));
    AscendingUnique(s, SortKeys(s));
  }

  /** Sorts every adjacency list in place; they are sorted already. */
  method SortLists(nodes: seq<Key>, adj: Adjacency) returns (r: Adjacency)
    requires forall k :: Ascending(Next(adj, k))
    ensures r == adj
  {
    r := adj;
    for i := 0 to |nodes|
      invariant r == adj
    {
      if nodes[i] in r {
        assert r[nodes[i]] == Next(adj, nodes[i]);
        SortAscending(r[nodes[i]]);
        r := r[nodes[i] := SortKeys(r[nodes[i]])];
      }
    }
  }

  ghost predicate ParentsOf(definitions: seq<Definition>, nodes: seq<Key>, parents: Adjacency) {
    && |nodes| == |definitions| && (forall j :: 0 <= j < |nodes| ==> nodes[j] == definitions[j].key)
    && (forall k :: k in parents <==> k in nodes)
    && (forall d :: d in definitions ==> d.key in parents && parents[d.key] == d.dependencies)
  }

  lemma ParentsGrowBy(definitions: seq<Definition>, d: Definition, nodes: seq<Key>, parents: Adjacency)
    requires ParentsOf(definitions, nodes, parents) && KeysAscend(definitions + [d])
    ensures ParentsOf(definitions + [d], nodes + [d.key], parents[d.key := d.dependencies])
  {
    KeyOrder();
    forall e | e in definitions ensures e.key != d.key {
      var j :| 0 <= j < |definitions| && definitions[j] == e;
      assert (definitions + [d])[j] == e && (definitions + [d])[|definitions|] == d;
    }
  }

  method BuildGraph(definitions: seq<Definition>) returns (g: Graph)
    requires KeysAscend(definitions) && forall d :: d in definitions ==> Ascending(d.dependencies)
    requires ParentsDefined(definitions)
    ensures GraphOf(Shapes(definitions), g)
  {
    var nodes: seq<Key>, parents: Adjacency, children: Adjacency := [], map[], map[];
    for i := 0 to |definitions|
      invariant ParentsOf(definitions[..i], nodes, parents)
      invariant ChildrenOf(definitions[..i], children)
    {
      var d := definitions[i];
      assert definitions[..i + 1] == definitions[..i] + [d];
      ParentsGrowBy(definitions[..i], d, nodes, parents);
      nodes := nodes + [d.key];
      parents := parents[d.key := d.dependencies];
      var children' := AddChild(children, d.key, d.dependencies);
      ChildrenGrow(definitions[..i], d, children, children');
      children := children';
    }
    assert definitions[..|definitions|] == definitions;
    ParentsAscend(definitions, nodes, parents);
    parents := SortLists(nodes, parents);
    children := SortLists(nodes, children);
    g := Graph(nodes, parents, children);
    BuiltGraph(definitions, g);
  }

  lemma ParentsAscend(definitions: seq<Definition>, nodes: seq<Key>, parents: Adjacency)
    requires ParentsOf(definitions, nodes, parents) && forall d :: d in definitions ==> Ascending(d.dependencies)
    ensures forall k :: Ascending(Next(parents, k))
  {
  }

  lemma ParentEdges(definitions: seq<Definition>, nodes: seq<Key>, parents: Adjacency, c: Key, p: Key)
    requires ParentsOf(definitions, nodes, parents)
    ensures p in Next(parents, c) <==> EdgeIn(definitions, c, p)
  {
  }

  lemma BuiltGraph(definitions: seq<Definition>, g: Graph)
    requires KeysAscend(definitions) && forall d :: d in definitions ==> Ascending(d.dependencies)
    requires ParentsDefined(definitions)
    requires ParentsOf(definitions, g.nodes, g.parents) && ChildrenOf(definitions, g.children)
    ensures GraphOf(Shapes(definitions), g)
  {
    hide KeyLess, WellFormed, ParentsOf, KeysAscend, ParentsDefined, EdgeIn, Ascending, Shapes;
    BuiltWellFormed(definitions, g);
    NodeShapes(definitions, g);
    EdgeShapes(definitions, g);
  }

  lemma NodeShapes(definitions: seq<Definition>, g: Graph)
    requires ParentsOf(definitions, g.nodes, g.parents)
    ensures forall k :: k in g.nodes <==> exists s :: s in Shapes(definitions) && s.key == k
  {
    hide Shapes;
    forall k ensures k in g.nodes <==> exists s :: s in Shapes(definitions) && s.key == k {
      hide ParentsOf;
      NodesIn(definitions, k);
      NodeOf(definitions, g, k);
    }
  }

  lemma EdgeShapes(definitions: seq<Definition>, g: Graph)
    requires ParentsOf(definitions, g.nodes, g.parents)
    ensures forall s, p :: s in Shapes(definitions) ==> (p in Next(g.parents, s.key) <==> p in s.dependencies)
  {
    hide Shapes;
    forall s, p | s in Shapes(definitions) ensures p in Next(g.parents, s.key) <==> p in s.dependencies {
      ShapesMember(definitions, s);
      var i :| 0 <= i < |definitions| && ShapeOf(definitions[i]) == s;
      assert definitions[i] in definitions;
    }
  }

  lemma NodeOf(definitions: seq<Definition>, g: Graph, k: Key)
    requires ParentsOf(definitions, g.nodes, g.parents)
    ensures k in g.nodes <==> Defined(definitions, k)
  {
  }

  lemma BuiltWellFormed(definitions: seq<Definition>, g: Graph)
    requires KeysAscend(definitions) && forall d :: d in definitions ==> Ascending(d.dependencies)
    requires ParentsDefined(definitions)
    requires ParentsOf(definitions, g.nodes, g.parents) && ChildrenOf(definitions, g.children)
    ensures WellFormed(g)
  {
    ParentsAscend(definitions, g.nodes, g.parents);
    forall c, p ensures p in Next(g.parents, c) <==> c in Next(g.children, p) {
      ParentEdges(definitions, g.nodes, g.parents, c, p);
    }
    forall c, p | p in Next(g.parents, c) ensures p in g.nodes {
      ParentEdges(definitions, g.nodes, g.parents, c, p);
      NodeOf(definitions, g, p);
    }
    forall p | p in g.children ensures p in g.nodes {
      var c := Next(g.children, p)[0];
      ParentEdges(definitions, g.nodes, g.parents, c, p);
      NodeOf(definitions, g, p);
    }
  }

  /** The first pair of equal neighbours among the sorted definitions, if any. */
  method FindDuplicate(definitions: seq<Definition>) returns (index: nat)
    requires KeysSorted(definitions)
    ensures index == 0 ==> KeysAscend(definitions)
    ensures index > 0 ==> index < |definitions| && Least(KeyLess, DuplicateNodes(Shapes(definitions)), definitions[index].key)
  {
    index := 1;
    while index < |definitions|
      invariant 1 <= index
      invariant forall i :: 0 < i < index && i < |definitions| ==> definitions[i].key != definitions[i - 1].key
    {
      if definitions[index].key == definitions[index - 1].key {
        FirstPairLeast(definitions, index);
        return;
      }
      index := index + 1;
    }
    if definitions != [] {
      NeighboursDiffer(definitions, |definitions|);
      assert definitions[..|definitions|] == definitions;
    }
    return 0;
  }

  /** Validates the definitions and builds the graph, or reports the least offender of the first failing check. */
  method NewPlannerGraph(definitions: seq<Definition>) returns (r: Result<Graph, PlanningError>)
    ensures Outcome(Shapes(definitions), r)
    ensures r.Success? ==> Accepted(r.value)
  {
    hide Repeated, WellFormed, Acyclic, LeastCycle, InvalidEdges, DuplicateEdges, MissingEdges, DuplicateNodes, InvalidNodes;
    KeyOrder();
    ghost var shapes := Shapes(definitions);
    var invalidNodes := CollectInvalidNodes(definitions);
    InvalidNodesListed(definitions, invalidNodes);
    if invalidNodes != [] {
      var sorted := SortKeys(invalidNodes);
      LeastHead(KeyLess, InvalidNodes(shapes), sorted);
      return Failure(GraphError(InvalidNode, sorted[0], EMPTY_KEY, []));
    }

    DefinitionOrder();
    var byKey := SortBy(DefinitionLess, definitions);
    ShapesPermuted(definitions, byKey);
    var duplicate := FindDuplicate(byKey);
    if duplicate != 0 {
      return Failure(GraphError(DuplicateNode, byKey[duplicate].key, EMPTY_KEY, []));
    }
    NoDuplicates(byKey);
    r := CheckAndBuild(byKey);
  }

  lemma InvalidNodesListed(definitions: seq<Definition>, invalid: seq<Key>)
    requires forall k :: k in invalid <==> exists d :: d in definitions && d.key == k && !ValidKey(k)
    ensures forall k :: k in InvalidNodes(Shapes(definitions)) <==> k in invalid
    ensures InvalidNodes(Shapes(definitions)) == iset{} <==> invalid == []
  {
    forall k ensures k in InvalidNodes(Shapes(definitions)) <==> k in invalid {
      InvalidNodesIn(definitions, k);
    }
    EmptyAsSet(invalid, InvalidNodes(Shapes(definitions)));
  }

  lemma EmptyAsSet<T>(s: seq<T>, t: iset<T>)
    requires forall x :: x in t <==> x in s
    ensures t == iset{} <==> s == []
  {
    if s != [] {
      assert s[0] in s;
    }
  }

  /** The edge checks, the construction and the cycle check, on definitions with distinct keys in key order. */
  method CheckAndBuild(definitions: seq<Definition>) returns (r: Result<Graph, PlanningError>)
    requires KeysAscend(definitions)
    requires InvalidNodes(Shapes(definitions)) == iset{} && DuplicateNodes(Shapes(definitions)) == iset{}
    ensures Outcome(Shapes(definitions), r)
    ensures r.Success? ==> Accepted(r.value)
  {
    hide Repeated, WellFormed, Acyclic, LeastCycle, InvalidEdges, DuplicateEdges, MissingEdges, DuplicateNodes, InvalidNodes, Shapes;
    EdgeOrder();
    ghost var shapes := Shapes(definitions);
    var sorted, invalidEdges, duplicateEdges := CheckEdges(definitions);
    EdgesListed(sorted, invalidEdges, duplicateEdges);
    if invalidEdges != [] {
      var edges := SortBy(EdgeLess, invalidEdges);
      LeastHead(EdgeLess, InvalidEdges(shapes), edges);
      return Failure(GraphError(InvalidDependency, edges[0].child, edges[0].parent, []));
    }
    if duplicateEdges != [] {
      var edges := SortBy(EdgeLess, duplicateEdges);
      LeastHead(EdgeLess, DuplicateEdges(shapes), edges);
      return Failure(GraphError(DuplicateDependency, edges[0].child, edges[0].parent, []));
    }

    var nodeSet := set i | 0 <= i < |sorted| :: sorted[i].key;
    assert forall k :: k in nodeSet <==> exists d :: d in sorted && d.key == k;
    var missingEdges := CheckParents(sorted, nodeSet);
    MissingListed(sorted, nodeSet, missingEdges);
    if missingEdges != [] {
      var edges := SortBy(EdgeLess, missingEdges);
      LeastHead(EdgeLess, MissingEdges(shapes), edges);
      return Failure(GraphError(DependencyNotFound, edges[0].child, edges[0].parent, []));
    }

    var g := BuildGraph(sorted);
    assert WellFormed(g);
    var members := FirstCycleComponent(g);
    if members != [] {
      return Failure(GraphError(DependencyCycle, EMPTY_KEY, EMPTY_KEY, members));
    }
    return Success(g);
  }

  lemma EdgesListed(definitions: seq<Definition>, invalid: seq<Edge>, duplicate: seq<Edge>)
    requires forall e :: e in invalid <==> InvalidEdgeIn(definitions, e)
    requires forall e :: e in duplicate <==> DuplicateEdgeIn(definitions, e)
    ensures forall e :: e in InvalidEdges(Shapes(definitions)) <==> e in invalid
    ensures forall e :: e in DuplicateEdges(Shapes(definitions)) <==> e in duplicate
    ensures InvalidEdges(Shapes(definitions)) == iset{} <==> invalid == []
    ensures DuplicateEdges(Shapes(definitions)) == iset{} <==> duplicate == []
  {
    hide InvalidEdgeIn, DuplicateEdgeIn, InvalidEdges, DuplicateEdges, Shapes;
    forall e ensures e in InvalidEdges(Shapes(definitions)) <==> e in invalid {
      InvalidEdgesIn(definitions, e);
    }
    forall e ensures e in DuplicateEdges(Shapes(definitions)) <==> e in duplicate {
      DuplicateEdgesIn(definitions, e);
    }
    EmptyAsSet(invalid, InvalidEdges(Shapes(definitions)));
    EmptyAsSet(duplicate, DuplicateEdges(Shapes(definitions)));
  }

  lemma MissingListed(definitions: seq<Definition>, nodes: set<Key>, missing: seq<Edge>)
    requires forall k :: k in nodes <==> exists d :: d in definitions && d.key == k
    requires forall e :: e in missing <==> MissingEdgeIn(definitions, nodes, e)
    ensures forall e :: e in MissingEdges(Shapes(definitions)) <==> e in missing
    ensures MissingEdges(Shapes(definitions)) == iset{} <==> missing == []
    ensures missing == [] ==> ParentsDefined(definitions)
  {
    hide MissingEdges, Shapes;
    forall e ensures e in MissingEdges(Shapes(definitions)) <==> e in missing {
      MissingEdgesIn(definitions, nodes, e);
    }
    EmptyAsSet(missing, MissingEdges(Shapes(definitions)));
    forall d, p | missing == [] && d in definitions && p in d.dependencies ensures Defined(definitions, p) {
      assert !MissingEdgeIn(definitions, nodes, Edge(d.key, p));
    }
  }
}
