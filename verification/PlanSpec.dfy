/** Targets, steps, and the reference definition of a plan. */
module PlanSpec {
  import opened Keys
  import opened Errors
  import opened Graphs
  import opened Draining

  /** Directions are strings in the program; only two of them are meaningful. */
  datatype Direction = Forward | Backward | OtherDirection(text: string)

  datatype PlanStep = PlanStep(key: Key, direction: Direction)

  datatype TargetKind = NoTarget | TargetNamed | TargetZero

  datatype Target = Target(kind: TargetKind, key: Key, app: string)

  function NamedTarget(key: Key): Target {
    Target(TargetNamed, key, "")
  }

  function ZeroTarget(app: string): Target {
    Target(TargetZero, EMPTY_KEY, app)
  }

  function Steps(keys: seq<Key>, direction: Direction): (steps: seq<PlanStep>)
    ensures |steps| == |keys|
    ensures forall i :: 0 <= i < |keys| ==> steps[i] == PlanStep(keys[i], direction)
  {
    seq(|keys|, i requires 0 <= i < |keys| => PlanStep(keys[i], direction))
  }

  /** The applied set after a step was executed. */
  function After(applied: set<Key>, steps: seq<PlanStep>): set<Key>
    decreases |steps|
  {
    if steps == [] then applied
    else if steps[0].direction == Forward then After(applied + {steps[0].key}, steps[1..])
    else After(applied - {steps[0].key}, steps[1..])
  }

  /** Every known parent of an applied key is applied. Unknown keys have no parents. */
  ghost predicate Consistent(g: Graph, applied: set<Key>) {
    ClosedUnder(g.parents, applied)
  }

  /** The unapplied ancestors of the target, and the target itself. */
  ghost function Needed(g: Graph, target: Key, applied: set<Key>): set<Key> {
    set k | k in g.nodes && k !in applied && Reach(g.parents, target, k)
  }

  /** The applied descendants of the seed, and the seed itself if it is applied. */
  ghost function Dependents(g: Graph, seed: Key, applied: set<Key>): set<Key> {
    set k | k in g.nodes && k in applied && Reach(g.parents, k, seed)
  }

  ghost function ForwardOrder(g: Graph, target: Key, applied: set<Key>): seq<Key> {
    Drain(g.parents, Needed(g, target, applied))
  }

  ghost function BackwardOrder(g: Graph, seed: Key, applied: set<Key>): seq<Key> {
    Drain(g.children, Dependents(g, seed, applied))
  }

  ghost function BackwardAll(g: Graph, seeds: seq<Key>, applied: set<Key>): seq<Key> {
    if seeds == [] then []
    else
      BackwardOrder(g, seeds[0], applied) +
      BackwardAll(g, seeds[1..], applied - Dependents(g, seeds[0], applied))
  }

  function SameAppChildren(children: seq<Key>, app: string): (r: seq<Key>)
    ensures forall k :: k in r <==> k in children && k.app == app
  {
    if children == [] then []
    else if children[0].app == app then [children[0]] + SameAppChildren(children[1..], app)
    else SameAppChildren(children[1..], app)
  }

  predicate IsAppRoot(g: Graph, app: string, key: Key) {
    key.app == app && forall p :: p in Next(g.parents, key) ==> p.app != app
  }

  function AppRootsIn(g: Graph, app: string, nodes: seq<Key>): (r: seq<Key>)
    ensures forall k :: k in r <==> k in nodes && IsAppRoot(g, app, k)
  {
    if nodes == [] then []
    else if IsAppRoot(g, app, nodes[0]) then [nodes[0]] + AppRootsIn(g, app, nodes[1..])
    else AppRootsIn(g, app, nodes[1..])
  }

  function PlanError(code: Code, node: Key): PlanningError {
    PlanningError(PlanCategory, code, node, EMPTY_KEY, [])
  }

  /** What one target adds to the plan. */
  ghost function TargetPlan(g: Graph, applied: set<Key>, target: Target): Result<seq<PlanStep>, PlanningError> {
    match target.kind
    case TargetNamed =>
      if target.key !in g.nodes then Failure(PlanError(TargetNotFound, target.key))
      else if target.key !in applied then Success(Steps(ForwardOrder(g, target.key, applied), Forward))
      else
        var seeds := SameAppChildren(Next(g.children, target.key), target.key.app);
        Success(Steps(BackwardAll(g, seeds, applied), Backward))
    case TargetZero => Success(Steps(BackwardAll(g, AppRootsIn(g, target.app, g.nodes), applied), Backward))
    case NoTarget => Success([])
  }

  ghost function TargetsPlan(g: Graph, applied: set<Key>, targets: seq<Target>): Result<seq<PlanStep>, PlanningError>
    decreases |targets|
  {
    if targets == [] then Success([])
    else
      match TargetPlan(g, applied, targets[0])
      case Failure(e) => Failure(e)
      case Success(first) =>
        match TargetsPlan(g, After(applied, first), targets[1..])
        case Failure(e) => Failure(e)
        case Success(rest) => Success(first + rest)
  }

  /** The validity check of a target's representation. */
  function ValidateTarget(target: Target): Option<PlanningError> {
    match target.kind
    case TargetNamed =>
      if ValidKey(target.key) && target.app == "" then None
      else Some(PlanError(InvalidTarget, target.key))
    case TargetZero =>
      if target.app != "" && target.key == EMPTY_KEY then None
      else Some(PlanError(InvalidTarget, EMPTY_KEY))
    case NoTarget => Some(PlanError(InvalidTarget, EMPTY_KEY))
  }

  /** A target is valid exactly when it is a named target for a valid key or a zero target for a named app. */
  lemma ValidTargets(target: Target)
    ensures ValidateTarget(target).None? <==>
      || (exists key :: ValidKey(key) && target == NamedTarget(key))
      || (exists app :: app != "" && target == ZeroTarget(app))
    ensures ValidateTarget(target).Some? ==>
      ValidateTarget(target) == Some(PlanningError(
        PlanCategory, InvalidTarget, if target.kind == TargetNamed then target.key else EMPTY_KEY, EMPTY_KEY, []))
  {
    if ValidateTarget(target).None? {
      assert target == if target.kind == TargetNamed then NamedTarget(target.key) else ZeroTarget(target.app);
    }
  }
}
