/** Executing a whole plan: structural checks, a preflight of every step, then one transaction per step. */
module PlanExecution {
  import opened Keys
  import opened Errors
  import opened PlanSpec
  import opened ProjectStates
  import opened Migrations
  import opened Databases
  import opened PlanRuns
  import opened Transactions
  import opened Execution

  datatype PreparedStep = PreparedStep(step: PlanStep, migration: Migration, after: ProjectState)

  function PlanFailed(code: Code, step: PlanStep): MigrationError {
    Failed(ExecutionCategory, code, step.direction, step.key, NO_OPERATION)
  }

  const NO_STEP := PlanStep(EMPTY_KEY, OtherDirection(""))

  // ---------------------------------------------------------------- definitions

  /** Every definition has a valid key, and no two have the same. */
  predicate DefinedOnce(definitions: seq<Migration>) {
    (forall i :: 0 <= i < |definitions| ==> ValidKey(KeyOf(definitions[i]))) && Distinct(KeysOf(definitions))
  }

  function ByKey(definitions: seq<Migration>): (byKey: map<Key, Migration>)
    ensures byKey.Keys == Elems(KeysOf(definitions))
    ensures forall k :: k in byKey ==> KeyOf(byKey[k]) == k
  {
    if definitions == [] then map[]
    else
      var n := |definitions| - 1;
      assert KeysOf(definitions) == KeysOf(definitions[..n]) + [KeyOf(definitions[n])];
      ByKey(definitions[..n])[KeyOf(definitions[n]) := definitions[n]]
  }

  /** With distinct keys, looking a definition's key up finds that definition. */
  lemma {:induction false} DefinitionFound(definitions: seq<Migration>, i: nat)
    requires DefinedOnce(definitions) && i < |definitions|
    ensures KeyOf(definitions[i]) in ByKey(definitions) && ByKey(definitions)[KeyOf(definitions[i])] == definitions[i]
    ensures definitions[i].app != "" && definitions[i].name != ""
    decreases |definitions|
  {
    var n := |definitions| - 1;
    if i < n {
      DefinitionNext(definitions, n);
      assert KeysOf(definitions)[i] != KeysOf(definitions)[n];
      DistinctPrefix(KeysOf(definitions), n);
      assert KeysOf(definitions[..n]) == KeysOf(definitions)[..n];
      DefinitionFound(definitions[..n], i);
    }
  }

  /** The first definition whose key is invalid or already taken, and the error that names it. */
  ghost predicate BadDefinition(definitions: seq<Migration>, e: MigrationError) {
    exists i :: 0 <= i < |definitions| && DefinedOnce(definitions[..i]) && !DefinedOnce(definitions[..i + 1]) &&
      e == PlanFailed(InvalidExecutionPlan, NO_STEP.(key := KeyOf(definitions[i])))
  }

  method CollectDefinitions(definitions: seq<Migration>)
    returns (byKey: map<Key, Migration>, error: Option<MigrationError>)
    ensures error.None? <==> DefinedOnce(definitions)
    ensures error.None? ==> byKey == ByKey(definitions)
    ensures error.Some? ==> BadDefinition(definitions, error.value)
  {
    hide ByKey, DefinedOnce;
    byKey, error := map[], None;
    NoDefinitions();
    assert definitions[..0] == [];
    for i := 0 to |definitions|
      invariant DefinedOnce(definitions[..i]) && byKey == ByKey(definitions[..i])
    {
      var m := definitions[i];
      DefinitionNext(definitions, i);
      if !ValidKey(KeyOf(m)) || KeyOf(m) in byKey {
        if DefinedOnce(definitions) {
          DefinitionPrefix(definitions, i + 1);
        }
        return byKey, Some(PlanFailed(InvalidExecutionPlan, NO_STEP.(key := KeyOf(m))));
      }
      byKey := byKey[KeyOf(m) := m];
    }
    assert definitions[..|definitions|] == definitions;
  }

  lemma NoDefinitions()
    ensures ByKey([]) == map[] && DefinedOnce([])
  {
  }

  lemma DefinitionNext(definitions: seq<Migration>, i: nat)
    requires i < |definitions|
    ensures var m, byKey := definitions[i], ByKey(definitions[..i]);
      && ByKey(definitions[..i + 1]) == byKey[KeyOf(m) := m]
      && (DefinedOnce(definitions[..i + 1]) <==> DefinedOnce(definitions[..i]) && ValidKey(KeyOf(m)) && KeyOf(m) !in byKey)
  {
    var less, more := definitions[..i], definitions[..i + 1];
    assert more[..i] == less && more[i] == definitions[i];
    DistinctLast(KeysOf(less), KeyOf(definitions[i]));
    assert KeysOf(more) == KeysOf(less) + [KeyOf(definitions[i])];
    assert forall j :: 0 <= j < i ==> more[j] == less[j];
    assert KeyOf(definitions[i]) in Elems(KeysOf(less)) <==> KeyOf(definitions[i]) in KeysOf(less);
  }

  lemma DefinitionPrefix(definitions: seq<Migration>, n: nat)
    requires n <= |definitions| && DefinedOnce(definitions)
    ensures DefinedOnce(definitions[..n])
  {
    DistinctPrefix(KeysOf(definitions), n);
    assert KeysOf(definitions[..n]) == KeysOf(definitions)[..n];
    assert forall i :: 0 <= i < n ==> definitions[..n][i] == definitions[i];
  }

  // ---------------------------------------------------------------- steps

  predicate StepDefined(plan: seq<PlanStep>, i: nat, defined: set<Key>)
    requires i < |plan|
  {
    && ValidKey(plan[i].key) && (plan[i].direction == Forward || plan[i].direction == Backward)
    && (forall j :: 0 <= j < i ==> plan[j].key != plan[i].key)
    && plan[i].key in defined
  }

  /** A plan of defined steps, each key once, all in one direction. */
  predicate Executable(plan: seq<PlanStep>, defined: set<Key>) {
    forall i :: 0 <= i < |plan| ==> StepDefined(plan, i, defined) && plan[i].direction == plan[0].direction
  }

  /** A plan is executable exactly if it runs distinct, valid, defined keys, all forward or all backward. */
  lemma ExecutableExactly(plan: seq<PlanStep>, defined: set<Key>)
    ensures Executable(plan, defined) <==>
      && (forall i, j :: 0 <= i < j < |plan| ==> plan[i].key != plan[j].key)
      && (forall i :: 0 <= i < |plan| ==> plan[i].key in defined && plan[i].key.app != "" && plan[i].key.name != "")
      && ((forall i :: 0 <= i < |plan| ==> plan[i].direction == Forward) ||
          (forall i :: 0 <= i < |plan| ==> plan[i].direction == Backward))
  {
    if Executable(plan, defined) {
      forall i, j | 0 <= i < j < |plan| ensures plan[i].key != plan[j].key {
        assert StepDefined(plan, j, defined);
      }
      if plan != [] {
        assert StepDefined(plan, 0, defined);
      }
    }
  }

  lemma ExecutablePrefix(plan: seq<PlanStep>, n: nat, defined: set<Key>)
    requires n < |plan|
    ensures Executable(plan[..n + 1], defined) <==>
      Executable(plan[..n], defined) && StepDefined(plan, n, defined) && plan[n].direction == plan[0].direction
    ensures Executable(plan, defined) ==> Executable(plan[..n + 1], defined)
  {
    assert forall i :: 0 <= i <= n ==> plan[..n + 1][i] == plan[i];
    assert forall i :: 0 <= i < n ==> plan[..n][i] == plan[i];
    assert forall i :: 0 <= i <= n ==> (StepDefined(plan[..n + 1], i, defined) <==> StepDefined(plan, i, defined));
    assert forall i :: 0 <= i < n ==> (StepDefined(plan[..n], i, defined) <==> StepDefined(plan, i, defined));
    hide StepDefined;
    assert n < |plan[..n + 1]|;
  }

  /** The first step that is not defined, repeated or in another direction, and the error that names it. */
  ghost predicate BadStep(plan: seq<PlanStep>, defined: set<Key>, e: MigrationError) {
    exists i :: 0 <= i < |plan| && Executable(plan[..i], defined) && !Executable(plan[..i + 1], defined) &&
      e == PlanFailed(if StepDefined(plan, i, defined) then MixedDirections else InvalidExecutionPlan, plan[i])
  }

  method CheckSteps(plan: seq<PlanStep>, byKey: map<Key, Migration>) returns (error: Option<MigrationError>)
    ensures error.None? <==> Executable(plan, byKey.Keys)
    ensures error.Some? ==> BadStep(plan, byKey.Keys, error.value)
  {
    hide Executable;
    var seen: set<Key> := {};
    var direction: Option<Direction> := None;
    EmptyExecutable(byKey.Keys);
    for i := 0 to |plan|
      invariant Executable(plan[..i], byKey.Keys)
      invariant forall k :: k in seen <==> exists j :: 0 <= j < i && plan[j].key == k
      invariant direction == if i == 0 then None else Some(plan[0].direction)
    {
      var step := plan[i];
      ExecutablePrefix(plan, i, byKey.Keys);
      if !ValidKey(step.key) || (step.direction != Forward && step.direction != Backward)
         || step.key in seen || step.key !in byKey {
        return Some(PlanFailed(InvalidExecutionPlan, step));
      }
      seen := seen + {step.key};
      if direction.None? {
        direction := Some(step.direction);
      } else if step.direction != direction.value {
        return Some(PlanFailed(MixedDirections, step));
      }
    }
    assert plan[..|plan|] == plan;
    error := None;
  }

  lemma EmptyExecutable(defined: set<Key>)
    ensures forall plan: seq<PlanStep> {:trigger Executable(plan, defined)} :: |plan| == 0 ==> Executable(plan, defined)
  {
  }

  // ---------------------------------------------------------------- execution

  predicate Acceptable(definitions: seq<Migration>, plan: seq<PlanStep>) {
    DefinedOnce(definitions) && Executable(plan, ByKey(definitions).Keys)
  }

  /** The migrations a plan runs, in plan order. */
  function Planned(byKey: map<Key, Migration>, plan: seq<PlanStep>): (r: seq<Migration>)
    ensures Executable(plan, byKey.Keys) ==>
      |r| == |plan| && forall i :: 0 <= i < |plan| ==> plan[i].key in byKey && r[i] == byKey[plan[i].key]
  {
    if Executable(plan, byKey.Keys) then
      assert forall i :: 0 <= i < |plan| ==> StepDefined(plan, i, byKey.Keys);
      seq(|plan|, i requires 0 <= i < |plan| => byKey[plan[i].key])
    else []
  }

  function PlanDirection(plan: seq<PlanStep>): Direction {
    if plan == [] then Forward else plan[0].direction
  }

  lemma PlanStateLast(s: ProjectState, migrations: seq<Migration>, direction: Direction)
    requires migrations != []
    ensures var n := |migrations| - 1;
      PlanState(s, migrations, direction) ==
        match PlanState(s, migrations[..n], direction)
        case None => None
        case Some(t) =>
          if PreflightSpec(t, migrations[n], direction).Success? then Some(FinalState(t, PreflightSpec(t, migrations[n], direction).value))
          else None
    decreases |migrations|
  {
    hide PreflightSpec;
    var n := |migrations| - 1;
    if n == 0 {
      assert migrations[..0] == [] && migrations[1..] == [];
      PreflightCloned(s, migrations[0], direction);
      if PreflightSpec(s, migrations[0], direction).Success? {
        FinalCloned(s, migrations[0], direction);
      }
    } else {
      assert migrations[..n][1..] == migrations[1..][..n - 1];
      if PreflightSpec(s, migrations[0], direction).Success? {
        PlanStateLast(FinalState(s, PreflightSpec(s, migrations[0], direction).value), migrations[1..], direction);
      }
    }
  }

  lemma FinalCloned(s: ProjectState, m: Migration, direction: Direction)
    requires PreflightSpec(s, m, direction).Success?
    ensures var t := FinalState(s, PreflightSpec(s, m, direction).value); Clone(t) == t
    ensures FinalState(Clone(s), PreflightSpec(s, m, direction).value) == FinalState(s, PreflightSpec(s, m, direction).value)
  {
    hide PreflightSpec;
  }

  /** What a plan's preflight knows about its first n steps. */
  ghost predicate Prepared(before: ProjectState, migrations: seq<Migration>, direction: Direction, steps: seq<PreparedStep>) {
    && |steps| <= |migrations|
    && forall i :: 0 <= i < |steps| ==>
         && steps[i].migration == migrations[i] && steps[i].step == PlanStep(KeyOf(migrations[i]), direction)
         && PlanState(before, migrations[..i + 1], direction) == Some(steps[i].after)
  }

  /** Step i of a preflight whose calls begin at c is the first that is cancelled or refused, with error e. */
  ghost predicate PreflightStopped(
      verdict: nat -> Verdict, c: nat, before: ProjectState, migrations: seq<Migration>, direction: Direction, i: nat, e: MigrationError)
  {
    && i < |migrations| && Quiet(verdict, c, c + i) && PlanState(before, migrations[..i], direction).Some?
    && if !verdict(c + i).Fine? then e == StepCancelled(migrations[i], direction)
       else
         var r := PreflightSpec(PlanState(before, migrations[..i], direction).value, migrations[i], direction);
         r.Failure? && e == r.error
  }

  ghost predicate PreflightFailed(
      verdict: nat -> Verdict, c: nat, before: ProjectState, migrations: seq<Migration>, direction: Direction, e: MigrationError)
  {
    exists i: nat :: PreflightStopped(verdict, c, before, migrations, direction, i, e)
  }

  function StepCancelled(m: Migration, direction: Direction): MigrationError {
    PlanFailed(OperationFailed, PlanStep(KeyOf(m), direction))
  }

  /** Checks every state transition of a plan before anything runs. */
  method PreflightSteps(w: World, before: ProjectState, byKey: map<Key, Migration>, plan: seq<PlanStep>)
    returns (steps: seq<PreparedStep>, error: Option<MigrationError>)
    requires Executable(plan, byKey.Keys) && forall k :: k in byKey ==> KeyOf(byKey[k]) == k
    modifies w`clock
    ensures error.None? ==>
      && |steps| == |plan| && Prepared(before, Planned(byKey, plan), PlanDirection(plan), steps)
      && PlanState(before, Planned(byKey, plan), PlanDirection(plan)).Some?
      && w.clock == old(w.clock) + |plan| && Quiet(w.verdict, old(w.clock), w.clock)
    ensures error.Some? ==>
      PreflightFailed(w.verdict, old(w.clock), before, Planned(byKey, plan), PlanDirection(plan), error.value)
  {
    hide PreflightSpec, StepDefined, Planned, Clone;
    ghost var migrations, direction, c := Planned(byKey, plan), PlanDirection(plan), w.clock;
    var working := Clone(before);
    steps := [];
    for i := 0 to |plan|
      invariant w.clock == c + i && Quiet(w.verdict, c, w.clock)
      invariant |steps| == i && Prepared(before, migrations, direction, steps)
      invariant PlanState(before, migrations[..i], direction) == Some(working)
    {
      var v := w.Ask();
      if !v.Fine? {
        error := Some(PlanFailed(OperationFailed, plan[i]));
        assert PreflightStopped(w.verdict, c, before, migrations, direction, i, error.value);
        return [], error;
      }
      var m := byKey[plan[i].key];
      PlanStateLast(before, migrations[..i + 1], direction);
      assert migrations[..i + 1][..i] == migrations[..i];
      var r, after := Preflight(working, m, plan[i].direction);
      if r.Failure? {
        error := Some(r.error);
        assert PreflightStopped(w.verdict, c, before, migrations, direction, i, error.value);
        return [], error;
      }
      FinalCloned(working, m, direction);
      steps := steps + [PreparedStep(plan[i], m, Clone(after))];
      working := after;
    }
    assert migrations[..|plan|] == migrations;
    error := None;
  }

  lemma PlanStatePrefix(s: ProjectState, migrations: seq<Migration>, direction: Direction, n: nat)
    requires n <= |migrations|
    ensures PlanState(s, migrations[..n], direction).None? ==> PlanState(s, migrations, direction).None?
    decreases |migrations|
  {
    hide PreflightSpec;
    if n > 0 {
      assert migrations[..n][1..] == migrations[1..][..n - 1];
      if PreflightSpec(s, migrations[0], direction).Success? {
        PlanStatePrefix(FinalState(s, PreflightSpec(s, migrations[0], direction).value), migrations[1..], direction, n - 1);
      }
    }
  }

  /** Where a failed execution stopped: k steps are durable and reported. */
  ghost predicate StoppedAfter(
      k: nat, before: ProjectState, start: Database, migrations: seq<Migration>, direction: Direction, state: ProjectState, durable: Database)
  {
    k < |migrations| && PlanRun(before, start, migrations[..k], direction) == Some(Run(state, durable))
  }

  /** The one step after the k reported ones is durable too, although its commit was reported as failed. */
  ghost predicate StoppedUnreported(
      k: nat, before: ProjectState, start: Database, migrations: seq<Migration>, direction: Direction, state: ProjectState, durable: Database)
  {
    && k < |migrations|
    && PlanRun(before, start, migrations[..k], direction).Some?
    && PlanRun(before, start, migrations[..k], direction).value.state == state
    && PlanRun(before, start, migrations[..k + 1], direction).Some?
    && PlanRun(before, start, migrations[..k + 1], direction).value.database == durable
  }

  /** The calls that running these migrations takes when none fails. */
  function Calls(migrations: seq<Migration>): nat {
    if migrations == [] then 0
    else
      var n := |migrations| - 1;
      Calls(migrations[..n]) + |migrations[n].operations| + 8
  }

  /** Step k of a run whose calls began at c fails with error e; `began` says whether its transaction had begun. */
  ghost predicate StepFailed(
      verdict: nat -> Verdict, c: nat, before: ProjectState, start: Database, migrations: seq<Migration>, direction: Direction,
      k: nat, e: MigrationError, end: nat, began: bool)
  {
    && k < |migrations| && PlanRun(before, start, migrations[..k], direction).Some?
    && var run, at, m := PlanRun(before, start, migrations[..k], direction).value, c + Calls(migrations[..k]), migrations[k];
       && Quiet(verdict, c, at)
       && if !verdict(at).Fine? then !began && e == StepCancelled(m, direction)
          else if began then StartedAndFailed(verdict, at + 1, run.state, run.database, m, direction, e, end)
          else NotStarted(verdict, at + 1, run.state, m, direction, e)
  }

  /**
   * Runs the steps of a prepared plan, one transaction each. A failure at any call leaves a prefix of the plan, and
   * nothing runs after it.
   */
  method RunSteps(w: World, before: ProjectState, steps: seq<PreparedStep>, ghost migrations: seq<Migration>, direction: Direction)
    returns (state: ProjectState, error: Option<MigrationError>, ghost k: nat)
    requires |steps| == |migrations| && Prepared(before, migrations, direction, steps)
    requires forall i :: 0 <= i < |steps| ==> steps[i].step.direction == direction
    modifies w
    ensures error.None? ==>
      && k == |steps| && w.begun == old(w.begun) + k
      && w.clock == old(w.clock) + Calls(migrations) && Quiet(w.verdict, old(w.clock), w.clock)
      && PlanRun(before, old(w.durable), migrations, direction) == Some(Run(state, w.durable))
    ensures error.Some? ==>
      && old(w.begun) + k <= w.begun <= old(w.begun) + k + 1
      && StepFailed(
           w.verdict, old(w.clock), before, old(w.durable), migrations, direction, k, error.value, w.clock,
           w.begun > old(w.begun) + k)
    ensures error.Some? && !Unreported(error.value, w.verdict, w.clock) ==>
      StoppedAfter(k, before, old(w.durable), migrations, direction, state, w.durable)
    ensures error.Some? && Unreported(error.value, w.verdict, w.clock) ==>
      && w.begun == old(w.begun) + k + 1
      && StoppedUnreported(k, before, old(w.durable), migrations, direction, state, w.durable)
    ensures Calm(w.verdict, old(w.clock)) && PlanRun(before, old(w.durable), migrations, direction).Some? ==> error.None?
  {
    hide Effect, PreflightSpec, StoppedAfter, StoppedUnreported, NotStarted, StartedAndFailed, Calls;
    state := Clone(before);
    ghost var start, c := w.durable, w.clock;
    NoCalls(migrations);
    k := 0;
    for i := 0 to |steps|
      invariant k == i && w.begun == old(w.begun) + i
      invariant w.clock == c + Calls(migrations[..i]) && Quiet(w.verdict, c, w.clock)
      invariant PlanRun(before, start, migrations[..i], direction) == Some(Run(state, w.durable))
    {
      RunNext(before, start, migrations, direction, i);
      var v := w.Ask();
      if !v.Fine? {
        StoppedHere(i, before, start, migrations, direction, state, w.durable);
        return state, Some(PlanFailed(OperationFailed, steps[i].step)), i;
      }
      ghost var durable := w.durable;
      var _, e := Execute(w, state, steps[i].migration, steps[i].step.direction);
      if e.Some? {
        StoppedHere(i, before, start, migrations, direction, state, durable);
        return state, e, i;
      }
      PlanRunState(before, start, migrations[..i + 1], direction);
      CallsNext(migrations, i);
      state := Clone(steps[i].after);
      k := i + 1;
    }
    assert migrations[..|steps|] == migrations;
    error := None;
  }

  lemma NoCalls(migrations: seq<Migration>)
    ensures Calls(migrations[..0]) == 0
  {
  }

  lemma CallsNext(migrations: seq<Migration>, i: nat)
    requires i < |migrations|
    ensures Calls(migrations[..i + 1]) == Calls(migrations[..i]) + |migrations[i].operations| + 8
  {
    assert migrations[..i + 1][..i] == migrations[..i];
  }

  lemma StoppedHere(
      k: nat, before: ProjectState, start: Database, migrations: seq<Migration>, direction: Direction, state: ProjectState, durable: Database)
    requires k < |migrations| && PlanRun(before, start, migrations[..k], direction) == Some(Run(state, durable))
    ensures StoppedAfter(k, before, start, migrations, direction, state, durable)
    ensures Effect(state, durable, migrations[k], direction).Some? ==>
      StoppedUnreported(
        k, before, start, migrations, direction, state, Effect(state, durable, migrations[k], direction).value.database)
  {
    hide Effect;
    PlanRunLast(before, start, migrations[..k + 1], direction);
    assert migrations[..k + 1][..k] == migrations[..k];
  }

  /** The next step of a run that got this far. */
  lemma RunNext(before: ProjectState, start: Database, migrations: seq<Migration>, direction: Direction, i: nat)
    requires i < |migrations| && PlanRun(before, start, migrations[..i], direction).Some?
    ensures var run := PlanRun(before, start, migrations[..i], direction).value;
      && PlanRun(before, start, migrations[..i + 1], direction) == Effect(run.state, run.database, migrations[i], direction)
      && (PlanRun(before, start, migrations, direction).Some? ==>
            Effect(run.state, run.database, migrations[i], direction).Some?)
  {
    hide Effect;
    PlanRunLast(before, start, migrations[..i + 1], direction);
    assert migrations[..i + 1][..i] == migrations[..i];
    assert migrations[..i + 1] + migrations[i + 1..] == migrations;
    PlanRunConcat(before, start, migrations[..i + 1], migrations[i + 1..], direction);
  }

  /** Running a plan reaches the state its preflight reaches. */
  lemma {:induction false} PlanRunState(s: ProjectState, db: Database, migrations: seq<Migration>, direction: Direction)
    requires PlanRun(s, db, migrations, direction).Some?
    ensures PlanState(s, migrations, direction) == Some(PlanRun(s, db, migrations, direction).value.state)
    ensures var t := PlanRun(s, db, migrations, direction).value.state; Clone(t) == t
    decreases |migrations|
  {
    hide Effect, PreflightSpec;
    if migrations != [] {
      var next := Effect(s, db, migrations[0], direction).value;
      EffectPreflight(s, db, migrations[0], direction);
      PlanRunState(next.state, next.database, migrations[1..], direction);
    }
  }

  /** How a whole execution fails, checks first: begun says how many transactions it began. */
  ghost predicate PlanStopped(
      verdict: nat -> Verdict, c: nat, before: ProjectState, start: Database, definitions: seq<Migration>, plan: seq<PlanStep>,
      k: nat, e: MigrationError, end: nat, begun: nat)
  {
    if !verdict(c).Fine? then begun == 0 && e == PlanFailed(OperationFailed, NO_STEP)
    else if !DefinedOnce(definitions) then begun == 0 && BadDefinition(definitions, e)
    else if !Executable(plan, ByKey(definitions).Keys) then begun == 0 && BadStep(plan, ByKey(definitions).Keys, e)
    else
      var migrations, direction := Planned(ByKey(definitions), plan), PlanDirection(plan);
      || (begun == 0 && PreflightFailed(verdict, c + 1, before, migrations, direction, e))
      || (&& Quiet(verdict, c, c + 1 + |plan|) && PlanState(before, migrations, direction).Some?
          && k <= begun <= k + 1
          && StepFailed(verdict, c + 1 + |plan|, before, start, migrations, direction, k, e, end, begun > k))
  }

  /** A plan's error tells a malformed plan from everything else, and the first from a cancelled start. */
  lemma PlanErrorTells(
      verdict: nat -> Verdict, c: nat, before: ProjectState, start: Database, definitions: seq<Migration>, plan: seq<PlanStep>,
      k: nat, e: MigrationError, end: nat, begun: nat)
    requires PlanStopped(verdict, c, before, start, definitions, plan, k, e, end, begun)
    ensures !verdict(c).Fine? ==>
      e == MigrationError(ExecutionCategory, OperationFailed, OtherDirection(""), EMPTY_KEY, NO_OPERATION, false)
    ensures e.code == InvalidExecutionPlan || e.code == MixedDirections <==>
      verdict(c).Fine? && !Acceptable(definitions, plan)
    ensures e.code == InvalidExecutionPlan || e.code == MixedDirections ==>
      begun == 0 && e.category == ExecutionCategory && e.operationIndex == NO_OPERATION
  {
    hide PreflightSpec, DefinedOnce, Executable, ByKey, Planned, PlanState, PlanRun, Quiet, TransactionFailed, Calls;
    if verdict(c).Fine? && Acceptable(definitions, plan) {
      LaterErrors(verdict, c, before, start, definitions, plan, k, e, end, begun);
    }
  }

  lemma LaterErrors(
      verdict: nat -> Verdict, c: nat, before: ProjectState, start: Database, definitions: seq<Migration>, plan: seq<PlanStep>,
      k: nat, e: MigrationError, end: nat, begun: nat)
    requires PlanStopped(verdict, c, before, start, definitions, plan, k, e, end, begun)
    requires verdict(c).Fine? && Acceptable(definitions, plan)
    ensures e.code != InvalidExecutionPlan && e.code != MixedDirections
  {
    hide PreflightSpec, DefinedOnce, Executable, ByKey, Planned, PlanState, PlanRun, Quiet, TransactionFailed, Calls;
    var migrations, direction := Planned(ByKey(definitions), plan), PlanDirection(plan);
    forall s, m ensures PreflightSpec(s, m, direction).Failure? ==> PreflightSpec(s, m, direction).error.code == InvalidState {
      RefusedState(s, m, direction);
    }
    if StepFailed(verdict, c + 1 + |plan|, before, start, migrations, direction, k, e, end, begun > k) && begun > k {
      var run := PlanRun(before, start, migrations[..k], direction).value;
      var at := c + 1 + |plan| + Calls(migrations[..k]);
      if verdict(at).Fine? {
        ErrorTellsStage(
          verdict, at + 4, run.database, PreparedOf(PreflightSpec(run.state, migrations[k], direction)), migrations[k],
          direction, e, end);
      }
    }
  }

  /** Executes a plan of definitions against the database. */
  method ExecutePlan(w: World, before: ProjectState, definitions: seq<Migration>, plan: seq<PlanStep>)
    returns (state: ProjectState, error: Option<MigrationError>, ghost k: nat)
    modifies w
    ensures error.None? ==> w.verdict(old(w.clock)).Fine?
    ensures error.None? && plan == [] ==> state == Clone(before) && w.durable == old(w.durable) && w.begun == old(w.begun)
    ensures error.None? && plan != [] ==>
      && Acceptable(definitions, plan)
      && w.begun == old(w.begun) + |plan| && Quiet(w.verdict, old(w.clock), w.clock)
      && w.clock == old(w.clock) + 1 + |plan| + Calls(Planned(ByKey(definitions), plan))
      && PlanRun(before, old(w.durable), Planned(ByKey(definitions), plan), PlanDirection(plan)) == Some(Run(state, w.durable))
    ensures error.Some? ==>
      && old(w.begun) <= w.begun
      && PlanStopped(
           w.verdict, old(w.clock), before, old(w.durable), definitions, plan, k, error.value, w.clock, w.begun - old(w.begun))
    ensures error.Some? && w.begun == old(w.begun) ==> k == 0 && state == Clone(before) && w.durable == old(w.durable)
    ensures error.Some? && w.begun > old(w.begun) ==>
      && Acceptable(definitions, plan) && plan != []
      && var migrations, direction := Planned(ByKey(definitions), plan), PlanDirection(plan);
         && (!Unreported(error.value, w.verdict, w.clock) ==>
               StoppedAfter(k, before, old(w.durable), migrations, direction, state, w.durable))
         && (Unreported(error.value, w.verdict, w.clock) ==>
               StoppedUnreported(k, before, old(w.durable), migrations, direction, state, w.durable))
    ensures Calm(w.verdict, old(w.clock)) && Acceptable(definitions, plan) ==>
      PlanRun(before, old(w.durable), Planned(ByKey(definitions), plan), PlanDirection(plan)).Some? ==> error.None?
  {
    hide PreflightSpec, Effect, Executable, DefinedOnce, PlanRun, StoppedAfter, StoppedUnreported, ByKey, Planned;
    hide BadDefinition, BadStep, PreflightFailed, StepFailed, Calls, Unreported;
    k := 0;
    ghost var c, start := w.clock, w.durable;
    var v := w.Ask();
    if !v.Fine? {
      return Clone(before), Some(PlanFailed(OperationFailed, NO_STEP)), 0;
    }
    if |plan| == 0 {
      return Clone(before), None, 0;
    }
    var byKey, e := CollectDefinitions(definitions);
    if e.Some? {
      return Clone(before), e, 0;
    }
    e := CheckSteps(plan, byKey);
    if e.Some? {
      return Clone(before), e, 0;
    }
    ghost var migrations, direction := Planned(byKey, plan), PlanDirection(plan);
    var steps: seq<PreparedStep>;
    steps, e := PreflightSteps(w, before, byKey, plan);
    if e.Some? {
      RunNeedsPreflight(before, start, migrations, direction, w.verdict, c + 1, e.value);
      return Clone(before), e, 0;
    }
    state, error, k := RunSteps(w, before, steps, migrations, PlanDirection(plan));
    StoppedAtStart(before, start, migrations, direction, state, w.durable);
  }

  lemma StoppedAtStart(
      before: ProjectState, start: Database, migrations: seq<Migration>, direction: Direction, state: ProjectState, durable: Database)
    ensures StoppedAfter(0, before, start, migrations, direction, state, durable) ==> state == Clone(before) && durable == start
  {
    if migrations != [] {
      assert migrations[..0] == [];
    }
  }

  /** With no failing call, only a plan that cannot run is stopped by its preflight. */
  lemma RunNeedsPreflight(
      s: ProjectState, db: Database, migrations: seq<Migration>, direction: Direction, verdict: nat -> Verdict, c: nat, e: MigrationError)
    requires PreflightFailed(verdict, c, s, migrations, direction, e)
    ensures Calm(verdict, c) ==> PlanRun(s, db, migrations, direction).None?
  {
    hide PreflightSpec, Effect;
    var i: nat :| PreflightStopped(verdict, c, s, migrations, direction, i, e);
    if Calm(verdict, c) && PlanRun(s, db, migrations, direction).Some? {
      PlanRunState(s, db, migrations, direction);
      PlanStatePrefix(s, migrations, direction, i + 1);
      PlanStateLast(s, migrations[..i + 1], direction);
      assert migrations[..i + 1][..i] == migrations[..i];
    }
  }
}
