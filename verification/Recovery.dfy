/** Planning, execution and a crash together: what is left to do is exactly the rest of the plan. */
module Recovery {
  import opened Keys
  import opened Errors
  import opened Graphs
  import opened PlanSpec
  import opened PlanTheory
  import opened Planner
  import opened ProjectStates
  import opened Migrations
  import opened Databases
  import opened Rendering
  import opened PlanRuns
  import opened Transactions
  import opened Execution
  import opened PlanExecution

  /** The plan for one target is always executable when its nodes are defined. */
  lemma PlannerOutputExecutable(g: Graph, applied: set<Key>, target: Target, defined: set<Key>)
    requires Accepted(g) && TargetPlan(g, applied, target).Success?
    requires forall k :: k in g.nodes ==> ValidKey(k) && k in defined
    ensures Executable(TargetPlan(g, applied, target).value, defined)
  {
    SingleTargetShape(g, applied, target);
    hide TargetPlan, Accepted, ValidKey;
    var plan := TargetPlan(g, applied, target).value;
    var keys, d :| Due(keys, d, applied) && Distinct(keys) && Elems(keys) <= Elems(g.nodes) && plan == Steps(keys, d);
    forall i | 0 <= i < |plan| ensures StepDefined(plan, i, defined) && plan[i].direction == plan[0].direction {
      assert keys[i] in Elems(keys);
    }
  }

  lemma PlannedKeys(byKey: map<Key, Migration>, plan: seq<PlanStep>)
    requires Executable(plan, byKey.Keys) && forall k :: k in byKey ==> KeyOf(byKey[k]) == k
    ensures Steps(KeysOf(Planned(byKey, plan)), PlanDirection(plan)) == plan
  {
  }

  lemma ExecutableRest(plan: seq<PlanStep>, defined: set<Key>, k: nat)
    requires k <= |plan| && Executable(plan, defined)
    ensures Executable(plan[k..], defined)
    ensures k < |plan| ==> PlanDirection(plan[k..]) == PlanDirection(plan)
  {
  }

  lemma DefinedAndExecutable(definitions: seq<Migration>, plan: seq<PlanStep>)
    requires DefinedOnce(definitions) && Executable(plan, ByKey(definitions).Keys)
    ensures Acceptable(definitions, plan)
  {
  }

  lemma PlannedRest(byKey: map<Key, Migration>, plan: seq<PlanStep>, k: nat)
    requires k <= |plan| && Executable(plan, byKey.Keys) && Executable(plan[k..], byKey.Keys)
    ensures Planned(byKey, plan[k..]) == Planned(byKey, plan)[k..]
  {
  }

  /**
   * After the first k steps of a plan became durable, the database still renders the state, planning the same target
   * from the durable records yields exactly the rest, and running that rest ends as the undisturbed plan would have.
   */
  lemma CrashResumes(
      g: Graph, definitions: seq<Migration>, target: Target, s: ProjectState, db: Database, others: map<string, Table>, k: nat)
    requires Accepted(g) && Consistent(g, db.records) && Renders(s, db, others)
    requires DefinedOnce(definitions) && forall key :: key in g.nodes ==> ValidKey(key) && key in ByKey(definitions)
    requires TargetPlan(g, db.records, target).Success?
    requires var plan := TargetPlan(g, db.records, target).value;
      var migrations := Planned(ByKey(definitions), plan);
      k <= |migrations| && PlanRun(s, db, migrations[..k], PlanDirection(plan)).Some?
    ensures var plan, byKey := TargetPlan(g, db.records, target).value, ByKey(definitions);
      var run := PlanRun(s, db, Planned(byKey, plan)[..k], PlanDirection(plan)).value;
      && Acceptable(definitions, plan) && |Planned(byKey, plan)| == |plan|
      && Renders(run.state, run.database, others)
      && run.database.records == After(db.records, plan[..k])
      && Consistent(g, run.database.records)
      && TargetPlan(g, run.database.records, target) == Success(plan[k..])
      && Acceptable(definitions, plan[k..]) && Planned(byKey, plan[k..]) == Planned(byKey, plan)[k..]
      && PlanRun(run.state, run.database, Planned(byKey, plan[k..]), PlanDirection(plan[k..]))
         == PlanRun(s, db, Planned(byKey, plan), PlanDirection(plan))
  {
    hide *;
    PlannerOutputExecutable(g, db.records, target, ByKey(definitions).Keys);
    var plan, byKey := TargetPlan(g, db.records, target).value, ByKey(definitions);
    var migrations, direction := Planned(byKey, plan), PlanDirection(plan);
    var run := PlanRun(s, db, migrations[..k], direction).value;
    PlanRenders(s, db, migrations[..k], direction, others);
    PlannedKeys(byKey, plan);
    assert KeysOf(migrations[..k]) == KeysOf(migrations)[..k];
    StepsTake(KeysOf(migrations), direction, k);
    Resume(g, db.records, target, k);
    ExecutableRest(plan, byKey.Keys, k);
    PlannedRest(byKey, plan, k);
    DefinedAndExecutable(definitions, plan);
    DefinedAndExecutable(definitions, plan[k..]);
    assert migrations[..k] + migrations[k..] == migrations;
    PlanRunConcat(s, db, migrations[..k], migrations[k..], direction);
    if k == |plan| {
      NothingLeft(s, db, migrations[..k], direction);
      assert migrations[k..] == [];
    }
  }

  /** The records never stop a planner's plan: a step runs exactly if its preflight passes and none of its edits is stuck. */
  lemma PlannedStepRuns(
      g: Graph, definitions: seq<Migration>, target: Target, s: ProjectState, db: Database, others: map<string, Table>, k: nat)
    requires Accepted(g) && Consistent(g, db.records) && Renders(s, db, others)
    requires DefinedOnce(definitions) && forall key :: key in g.nodes ==> ValidKey(key) && key in ByKey(definitions)
    requires TargetPlan(g, db.records, target).Success?
    requires var plan := TargetPlan(g, db.records, target).value;
      var migrations := Planned(ByKey(definitions), plan);
      k < |migrations| && PlanRun(s, db, migrations[..k], PlanDirection(plan)).Some?
    ensures var plan := TargetPlan(g, db.records, target).value;
      var migrations, direction := Planned(ByKey(definitions), plan), PlanDirection(plan);
      var run := PlanRun(s, db, migrations[..k], direction).value;
      PlanRun(s, db, migrations[..k + 1], direction).Some? <==>
        && PreflightSpec(run.state, migrations[k], direction).Success?
        && !Stuck(run.database, PreflightSpec(run.state, migrations[k], direction).value, direction, others)
  {
    hide *;
    CrashResumes(g, definitions, target, s, db, others, k);
    var plan := TargetPlan(g, db.records, target).value;
    var migrations, direction := Planned(ByKey(definitions), plan), PlanDirection(plan);
    var run := PlanRun(s, db, migrations[..k], direction).value;
    RunNext(s, db, migrations, direction, k);
    EffectRuns(run.state, run.database, migrations[k], direction, others);
    FirstStepDue(g, run.database.records, target);
    RestFirst(definitions, plan, k);
  }

  /** The first step of a plan is due. */
  lemma FirstStepDue(g: Graph, applied: set<Key>, target: Target)
    requires Accepted(g) && TargetPlan(g, applied, target).Success? && TargetPlan(g, applied, target).value != []
    ensures var step := TargetPlan(g, applied, target).value[0]; step.key in applied <==> step.direction != Forward
  {
    hide *;
    SingleTargetShape(g, applied, target);
    FirstDue(TargetPlan(g, applied, target).value, applied);
  }

  lemma FirstDue(plan: seq<PlanStep>, applied: set<Key>)
    requires plan != [] && exists keys, d :: Due(keys, d, applied) && plan == Steps(keys, d)
    ensures plan[0].key in applied <==> plan[0].direction != Forward
  {
    var keys, d :| Due(keys, d, applied) && plan == Steps(keys, d);
    assert keys[0] in Elems(keys);
  }

  lemma RestFirst(definitions: seq<Migration>, plan: seq<PlanStep>, k: nat)
    requires Acceptable(definitions, plan) && k < |plan|
    ensures |Planned(ByKey(definitions), plan)| == |plan|
    ensures KeyOf(Planned(ByKey(definitions), plan)[k]) == plan[k].key && plan[k].direction == PlanDirection(plan)
  {
    assert StepDefined(plan, k, ByKey(definitions).Keys);
  }

  lemma NothingLeft(s: ProjectState, db: Database, migrations: seq<Migration>, direction: Direction)
    requires PlanRun(s, db, migrations, direction).Some?
    ensures var run := PlanRun(s, db, migrations, direction).value;
      forall d :: PlanRun(run.state, run.database, [], d) == Some(run)
  {
    PlanRunState(s, db, migrations, direction);
    hide Effect;
  }

  // ---------------------------------------------------------------- crash after crash

  /** The first n migrations, and no more, are durable. */
  ghost predicate DoneUpTo(
      n: nat, s: ProjectState, db: Database, migrations: seq<Migration>, direction: Direction, durable: Database)
  {
    && n <= |migrations| && PlanRun(s, db, migrations[..n], direction).Some?
    && PlanRun(s, db, migrations[..n], direction).value.database == durable
  }

  /** The state after migrations that are known to have run. */
  method Reached(s: ProjectState, migrations: seq<Migration>, direction: Direction) returns (t: ProjectState)
    requires PlanState(s, migrations, direction).Some?
    ensures PlanState(s, migrations, direction) == Some(t)
  {
    hide PreflightSpec;
    t := Clone(s);
    for i := 0 to |migrations|
      invariant PlanState(s, migrations[..i], direction) == Some(t)
    {
      PlanStatePrefix(s, migrations, direction, i + 1);
      PlanStateLast(s, migrations[..i + 1], direction);
      assert migrations[..i + 1][..i] == migrations[..i];
      var _, next := Preflight(t, migrations[i], direction);
      t := next;
    }
    assert migrations[..|migrations|] == migrations;
  }

  /** Where the first n migrations are durable and the run of the others stopped, n plus some more are durable. */
  lemma DoneFurther(
      n: nat, k: nat, s: ProjectState, db: Database, migrations: seq<Migration>, direction: Direction, durable: Database)
    requires n <= |migrations| && PlanRun(s, db, migrations[..n], direction).Some?
    requires var run := PlanRun(s, db, migrations[..n], direction).value;
      DoneUpTo(k, run.state, run.database, migrations[n..], direction, durable)
    ensures DoneUpTo(n + k, s, db, migrations, direction, durable)
  {
    hide PlanRun;
    assert migrations[..n + k] == migrations[..n] + migrations[n..][..k];
    PlanRunConcat(s, db, migrations[..n], migrations[n..][..k], direction);
  }

  lemma StoppedDone(
      k: nat, s: ProjectState, db: Database, migrations: seq<Migration>, direction: Direction, state: ProjectState, durable: Database)
    ensures StoppedAfter(k, s, db, migrations, direction, state, durable) ==>
      DoneUpTo(k, s, db, migrations, direction, durable)
    ensures StoppedUnreported(k, s, db, migrations, direction, state, durable) ==>
      DoneUpTo(k + 1, s, db, migrations, direction, durable)
    ensures durable == db ==> DoneUpTo(0, s, db, migrations, direction, durable)
  {
    hide Effect;
    assert migrations[..0] == [];
  }

  /** One execution of a plan: it completes, or the first migrations and no more became durable. */
  method Attempt(w: World, s: ProjectState, definitions: seq<Migration>, plan: seq<PlanStep>, ghost direction: Direction)
    returns (done: bool, state: ProjectState, ghost n: nat)
    requires Acceptable(definitions, plan) && (plan != [] ==> PlanDirection(plan) == direction)
    modifies w
    ensures var migrations := Planned(ByKey(definitions), plan);
      && (done ==> PlanRun(s, old(w.durable), migrations, PlanDirection(plan)) == Some(Run(state, w.durable)))
      && (!done ==> DoneUpTo(n, s, old(w.durable), migrations, direction, w.durable))
      && (Calm(w.verdict, old(w.clock)) && PlanRun(s, old(w.durable), migrations, PlanDirection(plan)).Some? ==> done)
  {
    hide ByKey, DefinedOnce, Executable, PlanRun, Planned, DoneUpTo, StoppedAfter, StoppedUnreported, PlanStopped, Calm;
    ghost var start, migrations := w.durable, Planned(ByKey(definitions), plan);
    ghost var k;
    var error;
    state, error, k := ExecutePlan(w, s, definitions, plan);
    NoMigrations(s, start, migrations);
    StoppedDone(k, s, start, migrations, direction, state, w.durable);
    done := error.None?;
    n := if done || w.begun == old(w.begun) then 0 else if Unreported(error.value, w.verdict, w.clock) then k + 1 else k;
  }

  lemma NoMigrations(s: ProjectState, db: Database, migrations: seq<Migration>)
    ensures migrations == [] ==> forall d :: PlanRun(s, db, migrations, d) == Some(Run(Clone(s), db))
  {
  }

  /** What is still to plan and run when the first n migrations are durable. */
  lemma Remaining(
      g: Graph, definitions: seq<Migration>, target: Target, s: ProjectState, db: Database, others: map<string, Table>,
      n: nat, durable: Database)
    requires Accepted(g) && Consistent(g, db.records) && Renders(s, db, others)
    requires DefinedOnce(definitions) && forall key :: key in g.nodes ==> ValidKey(key) && key in ByKey(definitions)
    requires TargetPlan(g, db.records, target).Success?
    requires var plan := TargetPlan(g, db.records, target).value;
      DoneUpTo(n, s, db, Planned(ByKey(definitions), plan), PlanDirection(plan), durable)
    ensures var plan, byKey := TargetPlan(g, db.records, target).value, ByKey(definitions);
      var migrations, direction := Planned(byKey, plan), PlanDirection(plan);
      && n <= |migrations| == |plan| && Consistent(g, durable.records)
      && TargetPlan(g, durable.records, target) == Success(plan[n..])
      && Acceptable(definitions, plan[n..]) && Planned(byKey, plan[n..]) == migrations[n..]
      && (n < |plan| ==> PlanDirection(plan[n..]) == direction)
      && PlanState(s, migrations[..n], direction).Some?
      && var t := PlanState(s, migrations[..n], direction).value;
         && PlanRun(s, db, migrations[..n], direction) == Some(Run(t, durable))
         && PlanRun(t, durable, migrations[n..], PlanDirection(plan[n..])) == PlanRun(s, db, migrations, direction)
  {
    CrashResumes(g, definitions, target, s, db, others, n);
    hide TargetPlan, Accepted, Consistent, Renders, ByKey, DefinedOnce, PlanRun, Planned;
    var plan := TargetPlan(g, db.records, target).value;
    ExecutableRest(plan, ByKey(definitions).Keys, n);
    PlanRunState(s, db, Planned(ByKey(definitions), plan)[..n], PlanDirection(plan));
  }

  lemma OneTarget(g: Graph, applied: set<Key>, target: Target)
    ensures FirstInvalid([target]) == ValidateTarget(target)
    ensures TargetsPlan(g, applied, [target]) == TargetPlan(g, applied, target)
  {
    hide TargetPlan, ValidateTarget;
    assert [target][1..] == [];
    if TargetPlan(g, applied, target).Success? {
      assert TargetPlan(g, applied, target).value + [] == TargetPlan(g, applied, target).value;
    }
  }

  /**
   * Brings a target about in as many attempts as there are schedules of failures. Each attempt starts from nothing but
   * the durable database: it plans again, recomputes the state of what is done, and executes the rest. Whatever failed
   * before, a single attempt without a failing call ends as the undisturbed plan would have.
   */
  method ExecuteUntilDone(
      schedules: seq<nat -> Verdict>, g: Graph, definitions: seq<Migration>, target: Target, s: ProjectState, db: Database,
      ghost others: map<string, Table>)
    returns (done: bool, state: ProjectState, durable: Database)
    requires Accepted(g) && Consistent(g, db.records) && Renders(s, db, others)
    requires DefinedOnce(definitions) && forall key :: key in g.nodes ==> ValidKey(key) && key in ByKey(definitions)
    requires ValidateTarget(target).None? && TargetPlan(g, db.records, target).Success?
    ensures var plan := TargetPlan(g, db.records, target).value;
      var migrations, direction := Planned(ByKey(definitions), plan), PlanDirection(plan);
      && (done ==> PlanRun(s, db, migrations, direction) == Some(Run(state, durable)))
      && (!done ==> exists n: nat :: DoneUpTo(n, s, db, migrations, direction, durable))
      && (PlanRun(s, db, migrations, direction).Some? && (exists i :: 0 <= i < |schedules| && Calm(schedules[i], 0)) ==> done)
  {
    hide Accepted, Consistent, Renders, DefinedOnce, ByKey, Planned, TargetPlan, PlanRun, Calm, DoneUpTo;
    hide Executable, PlanState, ValidateTarget, FirstInvalid, TargetsPlan;
    OneTarget(g, db.records, target);
    var planned := Plan(g, db.records, [target]);
    var plan, byKey := planned.value, ByKey(definitions);
    var migrations, direction := Planned(byKey, plan), PlanDirection(plan);
    durable, state := db, s;
    ghost var n: nat := 0;
    StoppedDone(0, s, db, migrations, direction, s, db);
    for i := 0 to |schedules|
      invariant DoneUpTo(n, s, db, migrations, direction, durable)
      invariant PlanRun(s, db, migrations, direction).Some? ==> forall j :: 0 <= j < i ==> !Calm(schedules[j], 0)
    {
      Remaining(g, definitions, target, s, db, others, n, durable);
      OneTarget(g, durable.records, target);
      var again := Plan(g, durable.records, [target]);
      var rest := again.value;
      var t := Reached(s, migrations[..|plan| - |rest|], direction);
      var w := new World(schedules[i], durable);
      var finished, after, more := Attempt(w, t, definitions, rest, direction);
      if finished {
        return true, after, w.durable;
      }
      DoneFurther(n, more, s, db, migrations, direction, w.durable);
      n, durable := n + more, w.durable;
    }
    done := false;
  }
}
