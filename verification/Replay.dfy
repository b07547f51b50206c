/** Replaying migrations from the empty state, and why the order of independent ones does not matter. */
module Replays {
  import opened Keys
  import opened Errors
  import opened Graphs
  import opened PlanSpec
  import opened SchemaIR
  import opened ProjectStates
  import opened Operations
  import opened StateChanges
  import opened Migrations
  import opened Execution
  import opened Planner
  import opened Projections

  // ---------------------------------------------------------------- confluence

  /** The operations of a list of migrations, in order. */
  function AllOperations(migrations: seq<Migration>): seq<Operation> {
    if migrations == [] then [] else migrations[0].operations + AllOperations(migrations[1..])
  }

  /** The fields an operation gives to the model of an app and name. */
  function Given(op: Operation, app: string, name: string): multiset<Field> {
    match op
    case CreateModel(a, model) =>
      if a == app && model.name == name then multiset(FillModel(a, model).fields) else multiset{}
    case AddField(a, modelName, field) => if a == app && modelName == name then multiset{FillField(field)} else multiset{}
    case NilOperation => multiset{}
  }

  function AllGiven(ops: seq<Operation>, app: string, name: string): multiset<Field> {
    if ops == [] then multiset{} else AllGiven(ops[..|ops| - 1], app, name) + Given(ops[|ops| - 1], app, name)
  }

  predicate Creates(op: Operation, app: string, name: string) {
    op.CreateModel? && op.appLabel == app && op.model.name == name
  }

  predicate SameHeader(a: Model, b: Model) {
    a.name == b.name && a.goName == b.goName && a.dbTable == b.dbTable
  }

  /** The same model up to the order of its fields. */
  predicate SameModel(a: Option<Model>, b: Option<Model>) {
    if a.None? || b.None? then a.None? && b.None?
    else SameHeader(a.value, b.value) && multiset(a.value.fields) == multiset(b.value.fields)
  }

  /** What the operations say about the model of an app and name. */
  ghost predicate Described(found: Option<Model>, ops: seq<Operation>, app: string, name: string) {
    && (found.Some? <==> exists op :: op in ops && Creates(op, app, name))
    && (found.None? ==> AllGiven(ops, app, name) == multiset{})
    && (found.Some? ==>
          && multiset(found.value.fields) == AllGiven(ops, app, name)
          && forall op :: op in ops && Creates(op, app, name) ==> SameHeader(FillModel(app, op.model), found.value))
  }

  ghost predicate Describes(s: ProjectState, ops: seq<Operation>) {
    forall app, name :: Described(FindModel(s, app, name), ops, app, name)
  }

  lemma GivenNext(ops: seq<Operation>, op: Operation, app: string, name: string)
    ensures AllGiven(ops + [op], app, name) == AllGiven(ops, app, name) + Given(op, app, name)
  {
    assert (ops + [op])[..|ops|] == ops;
  }

  lemma UntouchedDescribed(found: Option<Model>, ops: seq<Operation>, op: Operation, app: string, name: string)
    requires Described(found, ops, app, name) && !Creates(op, app, name) && Given(op, app, name) == multiset{}
    ensures Described(found, ops + [op], app, name)
  {
    hide FillModel, Given, SameHeader, AllGiven;
    GivenNext(ops, op, app, name);
    assert forall o :: o in ops + [op] && Creates(o, app, name) <==> o in ops && Creates(o, app, name);
  }

  lemma CreatedDescribed(ops: seq<Operation>, app: string, model: Model)
    requires Described(None, ops, app, model.name)
    ensures Described(Some(FillModel(app, model)), ops + [CreateModel(app, model)], app, model.name)
  {
    var op := CreateModel(app, model);
    GivenNext(ops, op, app, model.name);
    hide FillModel, AllGiven;
    assert op in ops + [op] && Creates(op, app, model.name);
    assert forall o :: o in ops + [op] && Creates(o, app, model.name) ==> o == op;
  }

  lemma AddedDescribed(ops: seq<Operation>, app: string, name: string, m: Model, field: Field)
    requires Described(Some(m), ops, app, name)
    ensures Described(Some(m.(fields := m.fields + [FillField(field)])), ops + [AddField(app, name, field)], app, name)
  {
    hide FillModel, FillField, AllGiven;
    var op := AddField(app, name, field);
    GivenNext(ops, op, app, name);
    assert forall o :: o in ops + [op] && Creates(o, app, name) <==> o in ops && Creates(o, app, name);
    var c :| c in ops && Creates(c, app, name);
    assert c in ops + [op];
  }

  /** Each successful operation adds to the state exactly what it gives. */
  lemma OperationDescribed(s: ProjectState, op: Operation, ops: seq<Operation>)
    requires ValidState(s) && StateForward(s, op).Some? && Describes(s, ops)
    ensures ValidState(StateForward(s, op).value) && Describes(StateForward(s, op).value, ops + [op])
  {
    hide ValidState, FindModel, Described, CreateForward, AddForward, FillModel, FillField, ValidModel;
    var t := StateForward(s, op).value;
    var app, name := op.appLabel, if op.CreateModel? then op.model.name else op.modelName;
    if op.CreateModel? {
      CreateForwardChange(s, app, op.model);
      CreatedDescribed(ops, app, op.model);
    } else {
      AddForwardChange(s, app, name, op.field);
      AddedDescribed(ops, app, name, FindModel(s, app, name).value, op.field);
    }
    forall a, n ensures Described(FindModel(t, a, n), ops + [op], a, n) {
      if a != app || n != name {
        UntouchedDescribed(FindModel(s, a, n), ops, op, a, n);
      }
    }
  }

  lemma {:induction false} PreparedDescribed(s: ProjectState, m: Migration, n: nat, ops: seq<Operation>)
    requires n <= |m.operations| && Settled(s) && PreparedFrom(s, m, Forward, n).Success? && Describes(s, ops)
    ensures var t := FinalState(s, PreparedFrom(s, m, Forward, n).value); Settled(t) && Describes(t, ops + m.operations[n..])
    decreases |m.operations| - n
  {
    hide ValidState, Describes, StateForward, StateBackward;
    if n == |m.operations| {
      assert ops + m.operations[n..] == ops;
    } else {
      var op := m.operations[n];
      StepCloned(s, op, Forward);
      OperationDescribed(s, op, ops);
      PreparedDescribed(StateForward(s, op).value, m, n + 1, ops + [op]);
      assert ops + m.operations[n..] == ops + [op] + m.operations[n + 1..];
    }
  }

  lemma MigrationDescribed(s: ProjectState, m: Migration, ops: seq<Operation>)
    requires Settled(s) && PreflightSpec(s, m, Forward).Success? && Describes(s, ops)
    ensures var t := FinalState(s, PreflightSpec(s, m, Forward).value); Settled(t) && Describes(t, ops + m.operations)
  {
    hide ValidState, Describes, PreparedFrom;
    PreparedDescribed(s, m, 0, ops);
    assert m.operations[0..] == m.operations;
  }

  lemma {:induction false} PlanDescribed(s: ProjectState, migrations: seq<Migration>, ops: seq<Operation>)
    requires Settled(s) && PlanState(s, migrations, Forward).Some? && Describes(s, ops)
    ensures var t := PlanState(s, migrations, Forward).value; Settled(t) && Describes(t, ops + AllOperations(migrations))
    decreases |migrations|
  {
    hide ValidState, Describes, PreflightSpec;
    if migrations == [] {
      assert ops + AllOperations(migrations) == ops;
    } else {
      var m := migrations[0];
      MigrationDescribed(s, m, ops);
      PlanDescribed(FinalState(s, PreflightSpec(s, m, Forward).value), migrations[1..], ops + m.operations);
      assert ops + AllOperations(migrations) == ops + m.operations + AllOperations(migrations[1..]);
    }
  }

  lemma EmptyDescribed()
    ensures Settled(EMPTY_STATE) && Describes(EMPTY_STATE, [])
  {
  }

  lemma {:induction false} GivenConcat(a: seq<Operation>, b: seq<Operation>, app: string, name: string)
    ensures AllGiven(a + b, app, name) == AllGiven(a, app, name) + AllGiven(b, app, name)
    decreases |b|
  {
    hide Given;
    if b == [] {
      assert a + b == a;
    } else {
      var n := |b| - 1;
      assert (a + b)[..|a + b| - 1] == a + b[..n];
      GivenConcat(a, b[..n], app, name);
    }
  }

  lemma {:induction false} GivenPermuted(a: seq<Operation>, b: seq<Operation>, app: string, name: string)
    requires multiset(a) == multiset(b)
    ensures AllGiven(a, app, name) == AllGiven(b, app, name)
    decreases |a|
  {
    hide Given, AllGiven;
    if a == [] {
      assert |multiset(b)| == 0;
      assert b == [];
    } else {
      assert a[0] in multiset(b);
      var i :| 0 <= i < |b| && b[i] == a[0];
      RemoveOne(a, b, i);
      GivenPermuted(a[1..], b[..i] + b[i + 1..], app, name);
      assert a == [a[0]] + a[1..];
      assert b == b[..i] + ([b[i]] + b[i + 1..]);
      GivenConcat([a[0]], a[1..], app, name);
      GivenConcat(b[..i], [b[i]] + b[i + 1..], app, name);
      GivenConcat([b[i]], b[i + 1..], app, name);
      GivenConcat(b[..i], b[i + 1..], app, name);
    }
  }

  lemma {:induction false} OperationsConcat(a: seq<Migration>, b: seq<Migration>)
    ensures AllOperations(a + b) == AllOperations(a) + AllOperations(b)
    decreases |a|
  {
    if a == [] {
      assert a + b == b;
    } else {
      assert (a + b)[1..] == a[1..] + b;
      OperationsConcat(a[1..], b);
    }
  }

  lemma {:induction false} OperationsPermuted(a: seq<Migration>, b: seq<Migration>)
    requires multiset(a) == multiset(b)
    ensures multiset(AllOperations(a)) == multiset(AllOperations(b))
    decreases |a|
  {
    hide AllOperations;
    if a == [] {
      assert |multiset(b)| == 0;
      assert b == [];
    } else {
      assert a[0] in multiset(b);
      var i :| 0 <= i < |b| && b[i] == a[0];
      RemoveOne(a, b, i);
      OperationsPermuted(a[1..], b[..i] + b[i + 1..]);
      assert a == [a[0]] + a[1..];
      assert b == b[..i] + ([b[i]] + b[i + 1..]);
      OperationsConcat([a[0]], a[1..]);
      OperationsConcat(b[..i], [b[i]] + b[i + 1..]);
      OperationsConcat([b[i]], b[i + 1..]);
      OperationsConcat(b[..i], b[i + 1..]);
    }
  }

  /** The same apps, models and fields; only model order and field order may differ. */
  ghost predicate SameContents(s: ProjectState, t: ProjectState) {
    s.apps.Keys == t.apps.Keys && forall app, name :: SameModel(FindModel(s, app, name), FindModel(t, app, name))
  }

  lemma DescribedSame(a: Option<Model>, b: Option<Model>, ops: seq<Operation>, more: seq<Operation>, app: string, name: string)
    requires Described(a, ops, app, name) && Described(b, more, app, name) && multiset(ops) == multiset(more)
    ensures SameModel(a, b)
  {
    hide FillModel, AllGiven;
    GivenPermuted(ops, more, app, name);
    assert forall op :: op in ops <==> op in multiset(ops);
    assert forall op :: op in more <==> op in multiset(more);
  }

  lemma AppHasModel(s: ProjectState, app: string) returns (name: string)
    requires ValidState(s)
    ensures app in s.apps ==> FindModel(s, app, name).Some?
    ensures app !in s.apps ==> forall n :: FindModel(s, app, n).None?
  {
    hide ValidModels, Normalized;
    StateModels(s, app);
    name := if ModelsOf(s, app) != [] then ModelsOf(s, app)[0].name else "";
  }

  lemma SameApps(s: ProjectState, t: ProjectState)
    requires ValidState(s) && ValidState(t) && forall app, name :: SameModel(FindModel(s, app, name), FindModel(t, app, name))
    ensures s.apps.Keys == t.apps.Keys
  {
    hide ValidState, FindModel;
    forall app ensures app in s.apps.Keys <==> app in t.apps.Keys {
      var n := AppHasModel(s, app);
      var m := AppHasModel(t, app);
      assert SameModel(FindModel(s, app, n), FindModel(t, app, n));
      assert SameModel(FindModel(s, app, m), FindModel(t, app, m));
    }
  }

  /** Any two orders of the same migrations that both replay lead to the same contents. */
  lemma ReplayConfluent(a: seq<Migration>, b: seq<Migration>)
    requires multiset(a) == multiset(b)
    requires PlanState(EMPTY_STATE, a, Forward).Some? && PlanState(EMPTY_STATE, b, Forward).Some?
    ensures SameContents(PlanState(EMPTY_STATE, a, Forward).value, PlanState(EMPTY_STATE, b, Forward).value)
  {
    hide ValidState, PlanState, Described, SameModel, FindModel;
    EmptyDescribed();
    PlanDescribed(EMPTY_STATE, a, []);
    PlanDescribed(EMPTY_STATE, b, []);
    OperationsPermuted(a, b);
    var s, t := PlanState(EMPTY_STATE, a, Forward).value, PlanState(EMPTY_STATE, b, Forward).value;
    var ops, more := AllOperations(a), AllOperations(b);
    assert [] + ops == ops && [] + more == more;
    forall app, name ensures SameModel(FindModel(s, app, name), FindModel(t, app, name)) {
      DescribedSame(FindModel(s, app, name), FindModel(t, app, name), ops, more, app, name);
    }
    SameApps(s, t);
  }

  // ---------------------------------------------------------------- reconstruction

  /** The state after the migrations of the keys were replayed, or the first that cannot be. */
  function ReplaySpec(definitions: map<Key, Migration>, s: ProjectState, keys: seq<Key>): Result<ProjectState, MigrationError>
    decreases |keys|
  {
    if keys == [] then Success(Clone(s))
    else if keys[0] !in definitions then Failure(Failed(StateCategory, InvalidState, Forward, keys[0], NO_OPERATION))
    else
      match PreflightSpec(s, definitions[keys[0]], Forward)
      case Failure(e) => Failure(e)
      case Success(prepared) => ReplaySpec(definitions, FinalState(s, prepared), keys[1..])
  }

  method Replay(definitions: map<Key, Migration>, steps: seq<PlanStep>, ghost keys: seq<Key>)
    returns (r: Result<ProjectState, MigrationError>)
    requires steps == Steps(keys, Forward)
    ensures r == ReplaySpec(definitions, EMPTY_STATE, keys)
  {
    hide PreflightSpec;
    var state := EMPTY_STATE;
    assert keys[0..] == keys;
    for i := 0 to |steps|
      invariant ReplaySpec(definitions, state, keys[i..]) == ReplaySpec(definitions, EMPTY_STATE, keys)
    {
      assert keys[i..][1..] == keys[i + 1..];
      var key := steps[i].key;
      if key !in definitions {
        return Failure(Failed(StateCategory, InvalidState, Forward, key, NO_OPERATION));
      }
      var prepared, next := Preflight(state, definitions[key], Forward);
      if prepared.Failure? {
        return Failure(prepared.error);
      }
      state := next;
    }
    r := Success(Clone(state));
  }

  /** A replay that fails stops at the first key without definition, or whose migration is refused after those before. */
  lemma {:induction false} ReplayStops(definitions: map<Key, Migration>, s: ProjectState, keys: seq<Key>) returns (i: nat)
    requires ReplaySpec(definitions, s, keys).Failure?
    ensures i < |keys| && ReplaySpec(definitions, s, keys[..i]).Success?
    ensures var e, t := ReplaySpec(definitions, s, keys).error, ReplaySpec(definitions, s, keys[..i]).value;
      if keys[i] !in definitions then e == MigrationError(StateCategory, InvalidState, Forward, keys[i], NO_OPERATION, false)
      else PreflightSpec(t, definitions[keys[i]], Forward) == Failure(e)
    decreases |keys|
  {
    hide PreflightSpec;
    if keys[0] !in definitions || PreflightSpec(s, definitions[keys[0]], Forward).Failure? {
      i := 0;
      assert keys[..0] == [];
      if keys[0] in definitions {
        PreflightCloned(s, definitions[keys[0]], Forward);
      }
    } else {
      var next := FinalState(s, PreflightSpec(s, definitions[keys[0]], Forward).value);
      i := ReplayStops(definitions, next, keys[1..]);
      assert keys[..i + 1][1..] == keys[1..][..i];
      i := i + 1;
    }
  }

  function Defined(definitions: map<Key, Migration>, keys: seq<Key>): (r: seq<Migration>)
    requires forall k :: k in keys ==> k in definitions
    ensures |r| == |keys| && forall i :: 0 <= i < |keys| ==> r[i] == definitions[keys[i]]
  {
    seq(|keys|, i requires 0 <= i < |keys| => definitions[keys[i]])
  }

  /** Replaying defined keys is running their migrations forward. */
  lemma {:induction false} ReplayRuns(definitions: map<Key, Migration>, s: ProjectState, keys: seq<Key>)
    requires forall k :: k in keys ==> k in definitions
    ensures ReplaySpec(definitions, s, keys).Success? <==> PlanState(s, Defined(definitions, keys), Forward).Some?
    ensures ReplaySpec(definitions, s, keys).Success? ==>
      PlanState(s, Defined(definitions, keys), Forward) == Some(ReplaySpec(definitions, s, keys).value)
    decreases |keys|
  {
    hide PreflightSpec;
    if keys != [] {
      var m := definitions[keys[0]];
      assert Defined(definitions, keys)[1..] == Defined(definitions, keys[1..]);
      if PreflightSpec(s, m, Forward).Success? {
        ReplayRuns(definitions, FinalState(s, PreflightSpec(s, m, Forward).value), keys[1..]);
      }
    }
  }

  lemma DefinedTakenOut(definitions: map<Key, Migration>, keys: seq<Key>, i: nat)
    requires i < |keys| && forall k :: k in keys ==> k in definitions
    ensures forall k :: k in keys[..i] + keys[i + 1..] ==> k in definitions
    ensures multiset(Defined(definitions, keys)) ==
      multiset{definitions[keys[i]]} + multiset(Defined(definitions, keys[..i] + keys[i + 1..]))
  {
    var all := Defined(definitions, keys);
    assert Defined(definitions, keys[..i] + keys[i + 1..]) == all[..i] + all[i + 1..];
    TakenOut(all, i);
  }

  /** What is left of a permutation without the first key of the original. */
  lemma HeadTakenOut(definitions: map<Key, Migration>, a: seq<Key>, b: seq<Key>) returns (rest: seq<Key>)
    requires a != [] && multiset(a) == multiset(b) && forall k :: k in a || k in b ==> k in definitions
    ensures multiset(a[1..]) == multiset(rest) && forall k :: k in a[1..] || k in rest ==> k in definitions
    ensures multiset(Defined(definitions, a)) == multiset{definitions[a[0]]} + multiset(Defined(definitions, a[1..]))
    ensures multiset(Defined(definitions, b)) == multiset{definitions[a[0]]} + multiset(Defined(definitions, rest))
  {
    hide Defined;
    assert a[0] in multiset(b);
    var i :| 0 <= i < |b| && b[i] == a[0];
    rest := b[..i] + b[i + 1..];
    RemoveOne(a, b, i);
    assert a[..0] + a[1..] == a[1..];
    DefinedTakenOut(definitions, a, 0);
    DefinedTakenOut(definitions, b, i);
  }

  lemma {:induction false} DefinedPermuted(definitions: map<Key, Migration>, a: seq<Key>, b: seq<Key>)
    requires multiset(a) == multiset(b) && forall k :: k in a || k in b ==> k in definitions
    ensures multiset(Defined(definitions, a)) == multiset(Defined(definitions, b))
    decreases |a|
  {
    hide Defined;
    if a == [] {
      assert |multiset(b)| == 0;
    } else {
      var rest := HeadTakenOut(definitions, a, b);
      DefinedPermuted(definitions, a[1..], rest);
    }
  }

  lemma SameKeysPermute(a: seq<Key>, b: seq<Key>)
    requires Distinct(a) && Distinct(b) && forall k :: k in a <==> k in b
    ensures multiset(a) == multiset(b)
  {
    forall k ensures multiset(a)[k] == multiset(b)[k] {
      if k in a {
        var i :| 0 <= i < |a| && a[i] == k;
        var j :| 0 <= j < |b| && b[j] == k;
        OnlyAt(a, i);
        OnlyAt(b, j);
      }
    }
  }

  datatype StateRequest =
    | EmptyRequest
    | LatestRequest
    | BeforeRequest(targets: seq<Key>)
    | AfterRequest(targets: seq<Key>)
    | AppliedRequest(applied: set<Key>)
    | NoRequest

  datatype StateFailure = Unplannable(planning: PlanningError) | Unreplayable(replaying: MigrationError)

  /** The keys a request replays, in order. */
  ghost function ProjectedKeys(g: Graph, request: StateRequest): seq<Key> {
    match request
    case EmptyRequest => []
    case LatestRequest => Union(g, LeavesIn(g, g.nodes))
    case BeforeRequest(targets) => Filter(Union(g, targets), Elems(Union(g, targets)) - Elems(targets))
    case AfterRequest(targets) => Union(g, targets)
    case AppliedRequest(applied) => Filter(Union(g, LeavesIn(g, g.nodes)), applied)
    case NoRequest => []
  }

  /** The migrations a request asks for. */
  ghost predicate Wanted(g: Graph, request: StateRequest, k: Key) {
    match request
    case EmptyRequest => false
    case LatestRequest => k in g.nodes
    case BeforeRequest(targets) => Covered(g, targets, k) && k !in targets
    case AfterRequest(targets) => Covered(g, targets, k)
    case AppliedRequest(applied) => k in g.nodes && k in applied
    case NoRequest => false
  }

  /** Each wanted migration once, as they stand in some order that puts parents first. */
  ghost predicate Projects(g: Graph, request: StateRequest, keys: seq<Key>) {
    && Distinct(keys) && (forall k :: k in keys <==> Wanted(g, request, k))
    && exists order :: Distinct(order) && ParentsFirst(g, order) && keys == Filter(order, Elems(keys))
  }

  lemma {:induction false} FilterDistinct(order: seq<Key>, kept: set<Key>)
    requires Distinct(order)
    ensures Distinct(Filter(order, kept))
    decreases |order|
  {
    if order != [] {
      var n := |order| - 1;
      DistinctPrefix(order, n);
      FilterDistinct(order[..n], kept);
      FilterMembers(order[..n], kept);
      assert order == order[..n] + [order[n]];
      forall i | 0 <= i < n ensures order[..n][i] != order[n] {
        assert order[i] != order[n];
      }
      DistinctLast(Filter(order[..n], kept), order[n]);
    }
  }

  lemma {:induction false} FilterSame(order: seq<Key>, a: set<Key>, b: set<Key>)
    requires forall k :: k in order ==> (k in a <==> k in b)
    ensures Filter(order, a) == Filter(order, b)
    decreases |order|
  {
    if order != [] {
      FilterSame(order[..|order| - 1], a, b);
    }
  }

  lemma {:induction false} FilterAll(order: seq<Key>, kept: set<Key>)
    requires forall k :: k in order ==> k in kept
    ensures Filter(order, kept) == order
    decreases |order|
  {
    if order != [] {
      FilterAll(order[..|order| - 1], kept);
      assert order == order[..|order| - 1] + [order[|order| - 1]];
    }
  }

  lemma ProjectedPart(g: Graph, request: StateRequest, order: seq<Key>, kept: set<Key>)
    requires Distinct(order) && ParentsFirst(g, order)
    requires forall k :: k in order && k in kept <==> Wanted(g, request, k)
    ensures Projects(g, request, Filter(order, kept))
  {
    hide Wanted, ParentsFirst, Filter, Distinct;
    var keys := Filter(order, kept);
    FilterDistinct(order, kept);
    FilterMembers(order, kept);
    FilterSame(order, kept, Elems(keys));
    assert keys == Filter(order, Elems(keys));
  }

  /** A request that is not refused replays exactly the migrations it asks for, each once. */
  lemma ProjectedExactly(g: Graph, request: StateRequest)
    requires Accepted(g) && Plannable(g, request)
    ensures Projects(g, request, ProjectedKeys(g, request))
  {
    hide Projects, Accepted, Union, Covered, ParentsFirst, Filter, Distinct, Consistent, ValidKey;
    LatestCoversAll(g);
    var latest := Union(g, LeavesIn(g, g.nodes));
    match request {
      case EmptyRequest => NothingProjected(g);
      case LatestRequest =>
        FilterAll(latest, Elems(latest));
        ProjectedPart(g, request, latest, Elems(latest));
      case AppliedRequest(applied) => ProjectedPart(g, request, latest, applied);
      case AfterRequest(targets) =>
        KnownNodes(g, targets);
        UnionGood(g, targets);
        FilterAll(Union(g, targets), Elems(Union(g, targets)));
        ProjectedPart(g, request, Union(g, targets), Elems(Union(g, targets)));
      case BeforeRequest(targets) =>
        KnownNodes(g, targets);
        UnionGood(g, targets);
        ProjectedPart(g, request, Union(g, targets), Elems(Union(g, targets)) - Elems(targets));
    }
  }

  lemma KnownNodes(g: Graph, targets: seq<Key>)
    requires KnownTargets(g, targets)
    ensures forall t :: t in targets ==> t in g.nodes
  {
    forall t | t in targets ensures t in g.nodes {
      var i :| 0 <= i < |targets| && targets[i] == t;
      assert TargetFailure(g, targets[i]).None?;
    }
  }

  lemma NothingProjected(g: Graph)
    ensures Projects(g, EmptyRequest, [])
  {
    assert ParentsFirst(g, []) && Distinct<Key>([]) && Filter([], Elems([])) == [];
  }

  predicate WithTargets(request: StateRequest) {
    request.BeforeRequest? || request.AfterRequest?
  }

  /** Why a request is refused before anything is replayed. */
  ghost predicate Refused(g: Graph, request: StateRequest, e: PlanningError) {
    match request
    case EmptyRequest => false
    case LatestRequest => false
    case AppliedRequest(applied) => !Consistent(g, applied) && LeastBroken(g, applied, e)
    case NoRequest => e == PlanError(InvalidTarget, EMPTY_KEY)
    case BeforeRequest(targets) => TargetsRefused(g, targets, e)
    case AfterRequest(targets) => TargetsRefused(g, targets, e)
  }

  ghost predicate TargetsRefused(g: Graph, targets: seq<Key>, e: PlanningError) {
    if targets == [] then e == PlanError(InvalidTarget, EMPTY_KEY)
    else if exists i: nat :: FirstInvalidTarget(targets, i) then
      exists i: nat :: FirstInvalidTarget(targets, i) && e == PlanError(InvalidTarget, targets[i])
    else exists i :: FirstFailing(g, targets, i, e)
  }

  ghost predicate FirstInvalidTarget(targets: seq<Key>, i: nat) {
    i < |targets| && !ValidKey(targets[i]) && forall j :: 0 <= j < i ==> ValidKey(targets[j])
  }

  /** The requests that reach the replay: known targets, at least one, or a consistent history. */
  ghost predicate Plannable(g: Graph, request: StateRequest) {
    match request
    case EmptyRequest => true
    case LatestRequest => true
    case AppliedRequest(applied) => Consistent(g, applied)
    case NoRequest => false
    case BeforeRequest(targets) => KnownTargets(g, targets)
    case AfterRequest(targets) => KnownTargets(g, targets)
  }

  ghost predicate KnownTargets(g: Graph, targets: seq<Key>) {
    targets != [] && forall i :: 0 <= i < |targets| ==> TargetFailure(g, targets[i]).None?
  }

  lemma PlannableNotRefused(g: Graph, request: StateRequest)
    requires Plannable(g, request)
    ensures forall e :: !Refused(g, request, e)
  {
    hide Consistent, LeastBroken, ValidKey;
    if WithTargets(request) {
      KnownNotRefused(g, request.targets);
    }
  }

  lemma KnownNotRefused(g: Graph, targets: seq<Key>)
    requires KnownTargets(g, targets)
    ensures forall e :: !TargetsRefused(g, targets, e)
  {
    hide ValidKey;
    forall i: nat | i < |targets| ensures ValidKey(targets[i]) {
      assert TargetFailure(g, targets[i]).None?;
    }
  }

  method ValidateTargets(g: Graph, targets: seq<Key>) returns (e: Option<PlanningError>)
    ensures e.Some? ==> TargetsRefused(g, targets, e.value)
    ensures e.None? ==> targets != [] && forall i :: 0 <= i < |targets| ==> ValidKey(targets[i])
  {
    if |targets| == 0 {
      return Some(PlanError(InvalidTarget, EMPTY_KEY));
    }
    for i := 0 to |targets|
      invariant forall j :: 0 <= j < i ==> ValidKey(targets[j])
    {
      var invalid := ValidateTarget(NamedTarget(targets[i]));
      if invalid.Some? {
        assert FirstInvalidTarget(targets, i);
        return invalid;
      }
    }
    e := None;
  }

  method ProjectTargets(g: Graph, targets: seq<Key>) returns (r: Result<seq<PlanStep>, PlanningError>)
    requires Accepted(g)
    ensures r.Failure? ==> TargetsRefused(g, targets, r.error)
    ensures r.Success? ==> r.value == Steps(Union(g, targets), Forward) && KnownTargets(g, targets)
  {
    hide Accepted, Union;
    var invalid := ValidateTargets(g, targets);
    if invalid.Some? {
      return Failure(invalid.value);
    }
    r := TargetProjection(g, targets);
  }

  method FullForwardProjection(g: Graph) returns (steps: seq<PlanStep>)
    requires Accepted(g) && forall k :: k in g.nodes ==> ValidKey(k)
    ensures steps == Steps(Union(g, LeavesIn(g, g.nodes)), Forward)
  {
    hide Accepted, Union;
    var leaves := AppLeaves(g);
    var r := TargetProjection(g, leaves);
    steps := r.value;
  }

  method Replayed(definitions: map<Key, Migration>, steps: seq<PlanStep>, ghost keys: seq<Key>)
    returns (r: Result<ProjectState, StateFailure>)
    requires steps == Steps(keys, Forward)
    ensures r.Success? ==> ReplaySpec(definitions, EMPTY_STATE, keys) == Success(r.value)
    ensures r.Failure? ==>
      r.error.Unreplayable? && ReplaySpec(definitions, EMPTY_STATE, keys) == Failure(r.error.replaying)
  {
    var replayed := Replay(definitions, steps, keys);
    match replayed {
      case Success(state) => r := Success(state);
      case Failure(e) => r := Failure(Unreplayable(e));
    }
  }

  lemma NothingReplayed(definitions: map<Key, Migration>)
    ensures ReplaySpec(definitions, EMPTY_STATE, []) == Success(EMPTY_STATE)
  {
  }

  /** The historical state a request asks for, replayed from the definitions. */
  method Reconstruct(g: Graph, definitions: map<Key, Migration>, request: StateRequest)
    returns (r: Result<ProjectState, StateFailure>)
    requires Accepted(g) && forall k :: k in g.nodes ==> ValidKey(k)
    ensures r.Success? ==> ReplaySpec(definitions, EMPTY_STATE, ProjectedKeys(g, request)) == Success(r.value)
    ensures r.Failure? && r.error.Unplannable? ==> Refused(g, request, r.error.planning)
    ensures r.Failure? && r.error.Unreplayable? ==>
      ReplaySpec(definitions, EMPTY_STATE, ProjectedKeys(g, request)) == Failure(r.error.replaying)
    ensures !(r.Failure? && r.error.Unplannable?) ==>
      exists keys :: Projects(g, request, keys) &&
        ReplaySpec(definitions, EMPTY_STATE, keys) == if r.Success? then Success(r.value) else Failure(r.error.replaying)
    ensures (exists e :: Refused(g, request, e)) <==> r.Failure? && r.error.Unplannable?
    ensures Plannable(g, request) <==> !(r.Failure? && r.error.Unplannable?)
  {
    hide Acyclic, WellFormed, Union, ReplaySpec, Filter, LeastBroken, Consistent, ValidKey, TargetsRefused, KnownTargets, Projects;
    if Plannable(g, request) {
      PlannableNotRefused(g, request);
      ProjectedExactly(g, request);
    }
    match request {
      case EmptyRequest =>
        NothingReplayed(definitions);
        return Success(EMPTY_STATE);
      case NoRequest =>
        return Failure(Unplannable(PlanError(InvalidTarget, EMPTY_KEY)));
      case LatestRequest =>
        var steps := FullForwardProjection(g);
        r := Replayed(definitions, steps, ProjectedKeys(g, request));
      case AppliedRequest(applied) =>
        var broken := ValidateAppliedHistory(g, applied);
        if broken.Some? {
          return Failure(Unplannable(broken.value));
        }
        var steps := FullForwardProjection(g);
        steps := OnlyAppliedSteps(steps, applied, Union(g, LeavesIn(g, g.nodes)));
        r := Replayed(definitions, steps, ProjectedKeys(g, request));
      case BeforeRequest(targets) =>
        var projected := ProjectTargets(g, targets);
        if projected.Failure? {
          return Failure(Unplannable(projected.error));
        }
        var steps := WithoutExplicitTargets(projected.value, targets, Union(g, targets));
        r := Replayed(definitions, steps, ProjectedKeys(g, request));
      case AfterRequest(targets) =>
        var projected := ProjectTargets(g, targets);
        if projected.Failure? {
          return Failure(Unplannable(projected.error));
        }
        r := Replayed(definitions, projected.value, ProjectedKeys(g, request));
    }
  }

  // ---------------------------------------------------------------- what replays agree on

  /** Whatever parts and orders two requests name, if they want the same migrations and both replay, they agree. */
  lemma SameWantsAgree(g: Graph, definitions: map<Key, Migration>, a: StateRequest, b: StateRequest)
    requires Accepted(g) && (forall k :: k in g.nodes ==> k in definitions) && Plannable(g, a) && Plannable(g, b)
    requires forall k :: Wanted(g, a, k) <==> Wanted(g, b, k)
    requires ReplaySpec(definitions, EMPTY_STATE, ProjectedKeys(g, a)).Success?
    requires ReplaySpec(definitions, EMPTY_STATE, ProjectedKeys(g, b)).Success?
    ensures SameContents(
      ReplaySpec(definitions, EMPTY_STATE, ProjectedKeys(g, a)).value, ReplaySpec(definitions, EMPTY_STATE, ProjectedKeys(g, b)).value)
  {
    hide Accepted, ReplaySpec, Distinct, ParentsFirst, Defined, ProjectedKeys, Plannable, Filter;
    ProjectedExactly(g, a);
    ProjectedExactly(g, b);
    WantedNodes(g, a);
    var x, y := ProjectedKeys(g, a), ProjectedKeys(g, b);
    SameKeysPermute(x, y);
    hide Wanted;
    DefinedPermuted(definitions, x, y);
    ReplayRuns(definitions, EMPTY_STATE, x);
    ReplayRuns(definitions, EMPTY_STATE, y);
    ReplayConfluent(Defined(definitions, x), Defined(definitions, y));
  }

  lemma WantedNodes(g: Graph, request: StateRequest)
    ensures forall k :: Wanted(g, request, k) ==> k in g.nodes
  {
  }

  /** The order in which targets are named does not change what is reconstructed before or after them. */
  lemma TargetOrderIrrelevant(g: Graph, definitions: map<Key, Migration>, targets: seq<Key>, others: seq<Key>, before: bool)
    requires Accepted(g) && (forall k :: k in g.nodes ==> k in definitions) && KnownTargets(g, targets) && KnownTargets(g, others)
    requires forall t :: t in targets <==> t in others
    requires var a, b := if before then BeforeRequest(targets) else AfterRequest(targets),
                         if before then BeforeRequest(others) else AfterRequest(others);
      && ReplaySpec(definitions, EMPTY_STATE, ProjectedKeys(g, a)).Success?
      && ReplaySpec(definitions, EMPTY_STATE, ProjectedKeys(g, b)).Success?
    ensures var a, b := if before then BeforeRequest(targets) else AfterRequest(targets),
                        if before then BeforeRequest(others) else AfterRequest(others);
      SameContents(
        ReplaySpec(definitions, EMPTY_STATE, ProjectedKeys(g, a)).value,
        ReplaySpec(definitions, EMPTY_STATE, ProjectedKeys(g, b)).value)
  {
    hide Accepted, ReplaySpec, ProjectedKeys, KnownTargets, SameContents;
    var a := if before then BeforeRequest(targets) else AfterRequest(targets);
    var b := if before then BeforeRequest(others) else AfterRequest(others);
    forall k ensures Wanted(g, a, k) <==> Wanted(g, b, k) {
      assert Covered(g, targets, k) <==> Covered(g, others, k);
    }
    SameWantsAgree(g, definitions, a, b);
  }

  /**
   * The state reconstructed from an applied history has the contents of the state that applying those migrations, in
   * whatever order they were executed, led to.
   */
  lemma HistoryReconstructs(g: Graph, definitions: map<Key, Migration>, executed: seq<Key>, applied: set<Key>)
    requires Accepted(g) && (forall k :: k in g.nodes ==> k in definitions) && Consistent(g, applied)
    requires Distinct(executed) && forall k :: k in executed <==> k in g.nodes && k in applied
    requires PlanState(EMPTY_STATE, Defined(definitions, executed), Forward).Some?
    requires ReplaySpec(definitions, EMPTY_STATE, ProjectedKeys(g, AppliedRequest(applied))).Success?
    ensures SameContents(
      PlanState(EMPTY_STATE, Defined(definitions, executed), Forward).value,
      ReplaySpec(definitions, EMPTY_STATE, ProjectedKeys(g, AppliedRequest(applied))).value)
  {
    hide Accepted, ReplaySpec, Distinct, ParentsFirst, Defined, ProjectedKeys, PlanState, Consistent, Filter;
    var keys := ProjectedKeys(g, AppliedRequest(applied));
    ProjectedExactly(g, AppliedRequest(applied));
    SameKeysPermute(executed, keys);
    DefinedPermuted(definitions, executed, keys);
    ReplayRuns(definitions, EMPTY_STATE, keys);
    ReplayConfluent(Defined(definitions, executed), Defined(definitions, keys));
  }
}
