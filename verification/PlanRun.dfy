/** What migrations and plans do to a state and a database together when nothing fails. */
module PlanRuns {
  import opened Keys
  import opened Errors
  import opened PlanSpec
  import opened SchemaIR
  import opened ProjectStates
  import opened Operations
  import opened StateChanges
  import opened Migrations
  import opened Databases
  import opened Rendering

  datatype Run = Run(state: ProjectState, database: Database)

  /** The database after the operations of a migration and its record. */
  function Recorded(db: Database, prepared: seq<PreparedOperation>, key: Key, direction: Direction): Option<Database> {
    match DatabaseSteps(db, prepared, direction)
    case None => None
    case Some(edited) => Record(edited, key, direction)
  }

  /** One whole migration: its operations in order, then its record. */
  function Effect(s: ProjectState, db: Database, m: Migration, direction: Direction): Option<Run> {
    match PreflightSpec(s, m, direction)
    case Failure(_) => None
    case Success(prepared) =>
      match Recorded(db, prepared, KeyOf(m), direction)
      case None => None
      case Some(next) => Some(Run(FinalState(s, prepared), next))
  }

  /** Migrations one after the other. */
  function PlanRun(s: ProjectState, db: Database, migrations: seq<Migration>, direction: Direction): Option<Run>
    decreases |migrations|
  {
    if migrations == [] then Some(Run(Clone(s), db))
    else
      match Effect(s, db, migrations[0], direction)
      case None => None
      case Some(next) => PlanRun(next.state, next.database, migrations[1..], direction)
  }

  // ---------------------------------------------------------------- splitting runs

  lemma {:induction false} DatabaseStepsLast(db: Database, prepared: seq<PreparedOperation>, direction: Direction)
    requires prepared != []
    ensures var n := |prepared| - 1;
      DatabaseSteps(db, prepared, direction) ==
        match DatabaseSteps(db, prepared[..n], direction)
        case None => None
        case Some(next) =>
          if DatabaseStep(next, prepared[n], direction).Success? then Some(DatabaseStep(next, prepared[n], direction).value) else None
    decreases |prepared|
  {
    hide DatabaseStep;
    var n := |prepared| - 1;
    if n == 0 {
      assert prepared[..0] == [] && prepared[1..] == [];
    } else if DatabaseStep(db, prepared[0], direction).Success? {
      assert prepared[..n][1..] == prepared[1..][..n - 1];
      DatabaseStepsLast(DatabaseStep(db, prepared[0], direction).value, prepared[1..], direction);
    }
  }

  lemma StepsAt(db: Database, prepared: seq<PreparedOperation>, direction: Direction, i: nat)
    requires i < |prepared| && DatabaseSteps(db, prepared[..i], direction).Some?
    ensures var now := DatabaseSteps(db, prepared[..i], direction).value;
      && (DatabaseStep(now, prepared[i], direction).Success? ==>
            DatabaseSteps(db, prepared[..i + 1], direction) == Some(DatabaseStep(now, prepared[i], direction).value))
      && (DatabaseSteps(db, prepared, direction).Some? ==> DatabaseStep(now, prepared[i], direction).Success?)
  {
    hide DatabaseStep;
    DatabaseStepsLast(db, prepared[..i + 1], direction);
    assert prepared[..i + 1][..i] == prepared[..i];
    if DatabaseSteps(db, prepared, direction).Some? {
      StepsPrefix(db, prepared, direction, i + 1);
    }
  }

  lemma {:induction false} StepsPrefix(db: Database, prepared: seq<PreparedOperation>, direction: Direction, n: nat)
    requires n <= |prepared| && DatabaseSteps(db, prepared, direction).Some?
    ensures DatabaseSteps(db, prepared[..n], direction).Some?
    decreases |prepared|
  {
    hide DatabaseStep;
    if n > 0 {
      assert prepared[..n][1..] == prepared[1..][..n - 1];
      StepsPrefix(DatabaseStep(db, prepared[0], direction).value, prepared[1..], direction, n - 1);
    }
  }

  lemma EffectCloned(s: ProjectState, db: Database, m: Migration, direction: Direction)
    ensures Effect(Clone(s), db, m, direction) == Effect(s, db, m, direction)
  {
    PreflightCloned(s, m, direction);
    hide PreflightSpec, DatabaseSteps, Record;
  }

  lemma {:induction false} PlanRunConcat(s: ProjectState, db: Database, a: seq<Migration>, b: seq<Migration>, direction: Direction)
    ensures PlanRun(s, db, a + b, direction) ==
      match PlanRun(s, db, a, direction)
      case None => None
      case Some(run) => PlanRun(run.state, run.database, b, direction)
    decreases |a|
  {
    hide Effect;
    if a == [] {
      assert a + b == b;
      if b != [] {
        EffectCloned(s, db, b[0], direction);
      }
    } else {
      assert (a + b)[1..] == a[1..] + b;
      match Effect(s, db, a[0], direction) {
        case None =>
        case Some(next) => PlanRunConcat(next.state, next.database, a[1..], b, direction);
      }
    }
  }

  lemma PlanRunLast(s: ProjectState, db: Database, migrations: seq<Migration>, direction: Direction)
    requires migrations != []
    ensures var n := |migrations| - 1;
      PlanRun(s, db, migrations, direction) ==
        match PlanRun(s, db, migrations[..n], direction)
        case None => None
        case Some(run) => Effect(run.state, run.database, migrations[n], direction)
  {
    hide Effect;
    var n := |migrations| - 1;
    assert migrations == migrations[..n] + [migrations[n]];
    PlanRunConcat(s, db, migrations[..n], [migrations[n]], direction);
    assert [migrations[n]][1..] == [];
    match PlanRun(s, db, migrations[..n], direction) {
      case None =>
      case Some(run) => EffectStateCloned(run.state, run.database, migrations[n], direction);
    }
  }

  lemma EffectStateCloned(s: ProjectState, db: Database, m: Migration, direction: Direction)
    ensures Effect(s, db, m, direction).Some? ==>
      Clone(Effect(s, db, m, direction).value.state) == Effect(s, db, m, direction).value.state
  {
    hide PreflightSpec, DatabaseSteps, Record;
  }

  // ---------------------------------------------------------------- tables keep their rows

  /**
   * Every table that stays keeps its rows, a new one is empty; forward, tables stay and columns are only appended;
   * backward, no table appears.
   */
  ghost predicate RowsKept(db: Database, next: Database, direction: Direction) {
    && (forall t :: t in db.tables && t in next.tables ==> next.tables[t].rows == db.tables[t].rows)
    && (forall t :: t in next.tables && t !in db.tables ==> next.tables[t].rows == 0)
    && (direction == Forward ==>
          forall t :: t in db.tables ==> t in next.tables && db.tables[t].columns <= next.tables[t].columns)
    && (direction != Forward ==> next.tables.Keys <= db.tables.Keys)
  }

  lemma StepKeepsRows(db: Database, p: PreparedOperation, direction: Direction)
    ensures DatabaseStep(db, p, direction).Success? ==> RowsKept(db, DatabaseStep(db, p, direction).value, direction)
  {
    hide RenderColumn, RenderColumns, FindModel, FindField;
  }

  lemma {:induction false} StepsKeepRows(db: Database, prepared: seq<PreparedOperation>, direction: Direction)
    ensures DatabaseSteps(db, prepared, direction).Some? ==> RowsKept(db, DatabaseSteps(db, prepared, direction).value, direction)
    decreases |prepared|
  {
    hide DatabaseStep;
    if prepared != [] && DatabaseStep(db, prepared[0], direction).Success? {
      StepKeepsRows(db, prepared[0], direction);
      StepsKeepRows(DatabaseStep(db, prepared[0], direction).value, prepared[1..], direction);
    }
  }

  /** No plan loses or invents a row of a table that stays; a forward plan drops no table and no column. */
  lemma {:induction false} PlanKeepsRows(s: ProjectState, db: Database, migrations: seq<Migration>, direction: Direction)
    requires PlanRun(s, db, migrations, direction).Some?
    ensures RowsKept(db, PlanRun(s, db, migrations, direction).value.database, direction)
    decreases |migrations|
  {
    hide PreflightSpec, DatabaseSteps;
    if migrations != [] {
      var next := Effect(s, db, migrations[0], direction).value;
      StepsKeepRows(db, PreflightSpec(s, migrations[0], direction).value, direction);
      PlanKeepsRows(next.state, next.database, migrations[1..], direction);
    }
  }

  // ---------------------------------------------------------------- rendering is kept

  lemma StepValid(s: ProjectState, op: Operation, direction: Direction)
    requires ValidState(s) && StateStep(s, op, direction).Some?
    ensures ValidState(StateStep(s, op, direction).value)
  {
    hide CreateForward, CreateBackward, AddForward, AddBackward, ValidState, FindModel, Changed, ValidModel;
    match op {
      case CreateModel(app, model) =>
        if direction == Forward { CreateForwardChange(s, app, model); } else { CreateBackwardChange(s, app, model); }
      case AddField(app, modelName, field) =>
        if direction == Forward { AddForwardChange(s, app, modelName, field); }
        else { AddBackwardChange(s, app, modelName, field); }
    }
  }

  lemma RecordsKept(db: Database, p: PreparedOperation, direction: Direction)
    ensures DatabaseStep(db, p, direction).Success? ==> DatabaseStep(db, p, direction).value.records == db.records
  {
  }

  /** An operation runs exactly when it is runnable, and then the new tables render the new state. */
  lemma OperationRuns(s: ProjectState, op: Operation, direction: Direction, index: nat, db: Database, others: map<string, Table>)
    requires ValidState(s) && StateStep(s, op, direction).Some? && Renders(s, db, others)
    ensures var t := StateStep(s, op, direction).value;
      var r := DatabaseStep(db, PreparedOperation(index, op, s, t), direction);
      && (r.Success? <==> Runnable(db, s, op, direction))
      && (r.Success? ==> Renders(t, r.value, others))
  {
    hide CreateForward, CreateBackward, AddForward, AddBackward, ValidState, Renders, DatabaseForward, DatabaseBackward, FindModel;
    match op {
      case CreateModel(app, model) =>
        if direction == Forward { CreateRuns(s, app, model, db, others); } else { DeleteRuns(s, app, model, db, others); }
      case AddField(app, modelName, field) =>
        if direction == Forward { AddRuns(s, app, modelName, field, db, others); }
        else { RemoveRuns(s, app, modelName, field, db, others); }
    }
  }

  lemma {:induction false} PreparedSettled(s: ProjectState, m: Migration, direction: Direction, n: nat)
    requires n <= |m.operations| && Settled(s) && PreparedFrom(s, m, direction, n).Success?
    ensures Settled(FinalState(s, PreparedFrom(s, m, direction, n).value))
    decreases |m.operations| - n
  {
    hide ValidState, StateStep;
    if n < |m.operations| {
      var op := m.operations[OperationIndex(|m.operations|, direction, n)];
      StepCloned(s, op, direction);
      StepValid(s, op, direction);
      PreparedSettled(StateStep(s, op, direction).value, m, direction, n + 1);
    }
  }

  /** A migration's operations: how far they run, and that the tables keep rendering the state. */
  lemma {:induction false} OperationsRender(
      s: ProjectState, m: Migration, direction: Direction, n: nat, db: Database, others: map<string, Table>)
    requires n <= |m.operations| && Settled(s) && Renders(s, db, others)
    requires PreparedFrom(s, m, direction, n).Success?
    ensures var prepared := PreparedFrom(s, m, direction, n).value;
      && Settled(FinalState(s, prepared))
      && match DatabaseSteps(db, prepared, direction)
         case Some(next) =>
           && Renders(FinalState(s, prepared), next, others) && next.records == db.records
           && !Stuck(db, prepared, direction, others)
         case None => Stuck(db, prepared, direction, others)
    decreases |m.operations| - n
  {
    hide ValidState, Renders, StateStep, DatabaseStep, Runnable, Stuck;
    var prepared := PreparedFrom(s, m, direction, n).value;
    PreparedSettled(s, m, direction, n);
    if n == |m.operations| {
      NeverStuck(db, direction, others);
    } else {
      var index := OperationIndex(|m.operations|, direction, n);
      var op := m.operations[index];
      var next := StateStep(s, op, direction).value;
      StepCloned(s, op, direction);
      StepValid(s, op, direction);
      OperationRuns(s, op, direction, index, db, others);
      RecordsKept(db, prepared[0], direction);
      var rest := PreparedFrom(next, m, direction, n + 1).value;
      assert prepared == [PreparedOperation(index, op, s, next)] + rest;
      var r := DatabaseStep(db, prepared[0], direction);
      StuckFirst(db, prepared, direction, others);
      if r.Success? {
        OperationsRender(next, m, direction, n + 1, r.value, others);
      }
    }
  }

  /** Some operation finds a database rendering its state but not fit for it, after those before it ran. */
  ghost predicate Stuck(db: Database, prepared: seq<PreparedOperation>, direction: Direction, others: map<string, Table>) {
    exists i: nat :: StuckAt(db, prepared, direction, i, others)
  }

  lemma NeverStuck(db: Database, direction: Direction, others: map<string, Table>)
    ensures !Stuck(db, [], direction, others)
  {
  }

  /** Operations are stuck at the first one, or at a later one after the first ran. */
  lemma StuckFirst(db: Database, prepared: seq<PreparedOperation>, direction: Direction, others: map<string, Table>)
    requires prepared != [] && Renders(prepared[0].before, db, others)
    requires DatabaseStep(db, prepared[0], direction).Success? <==> Runnable(db, prepared[0].before, prepared[0].op, direction)
    ensures Stuck(db, prepared, direction, others) <==>
      match DatabaseStep(db, prepared[0], direction)
      case Failure(_) => true
      case Success(next) => Stuck(next, prepared[1..], direction, others)
  {
    hide DatabaseStep, Renders, Runnable, StuckAt;
    StuckNow(db, prepared, direction, others);
    if DatabaseStep(db, prepared[0], direction).Success? {
      var next := DatabaseStep(db, prepared[0], direction).value;
      if i: nat :| StuckAt(db, prepared, direction, i, others) {
        if i > 0 {
          StuckLater(db, prepared, direction, i - 1, others);
        }
      }
      if i: nat :| StuckAt(next, prepared[1..], direction, i, others) {
        StuckLater(db, prepared, direction, i, others);
      }
    } else {
      assert StuckAt(db, prepared, direction, 0, others);
    }
  }

  lemma StuckNow(db: Database, prepared: seq<PreparedOperation>, direction: Direction, others: map<string, Table>)
    requires prepared != [] && Renders(prepared[0].before, db, others)
    ensures StuckAt(db, prepared, direction, 0, others) <==> !Runnable(db, prepared[0].before, prepared[0].op, direction)
  {
    hide DatabaseStep, Renders, Runnable;
    assert prepared[..0] == [];
  }

  /** The operations before number i run, and number i finds a database rendering its state but not fit for it. */
  ghost predicate StuckAt(
      db: Database, prepared: seq<PreparedOperation>, direction: Direction, i: nat, others: map<string, Table>)
  {
    && i < |prepared|
    && DatabaseSteps(db, prepared[..i], direction).Some?
    && var now := DatabaseSteps(db, prepared[..i], direction).value;
       && Renders(prepared[i].before, now, others)
       && !Runnable(now, prepared[i].before, prepared[i].op, direction)
  }

  lemma StuckLater(db: Database, prepared: seq<PreparedOperation>, direction: Direction, i: nat, others: map<string, Table>)
    requires prepared != [] && DatabaseStep(db, prepared[0], direction).Success?
    ensures StuckAt(db, prepared, direction, i + 1, others)
       <==> StuckAt(DatabaseStep(db, prepared[0], direction).value, prepared[1..], direction, i, others)
  {
    hide DatabaseStep, Renders, Runnable;
    if i < |prepared| - 1 {
      assert prepared[..i + 1][1..] == prepared[1..][..i];
      assert prepared[..i + 1][0] == prepared[0];
    }
  }

  lemma RendersCloned(s: ProjectState, db: Database, others: map<string, Table>)
    ensures Renders(Clone(s), db, others) <==> Renders(s, db, others)
  {
    assert forall app, name :: FindModel(Clone(s), app, name) == FindModel(s, app, name);
    hide FindModel;
    assert forall a, n, table :: Owner(Clone(s), a, n, table) <==> Owner(s, a, n, table);
    hide Owner;
    assert forall table :: Owned(Clone(s), table) <==> Owned(s, table);
    hide Owned, HasTable;
  }

  /** One migration keeps the tables rendering the state, and moves exactly its own record. */
  lemma EffectRenders(s: ProjectState, db: Database, m: Migration, direction: Direction, others: map<string, Table>)
    requires Renders(s, db, others) && Effect(s, db, m, direction).Some?
    ensures var run := Effect(s, db, m, direction).value;
      && Settled(run.state) && Renders(run.state, run.database, others)
      && run.database.records == (if direction == Forward then db.records + {KeyOf(m)} else db.records - {KeyOf(m)})
      && (KeyOf(m) in db.records <==> direction != Forward)
  {
    RendersCloned(s, db, others);
    PreflightCloned(s, m, direction);
    hide DatabaseSteps, PreparedFrom, Renders, ValidState;
    OperationsRender(Clone(s), m, direction, 0, db, others);
    var prepared := PreflightSpec(s, m, direction).value;
    var edited := DatabaseSteps(db, prepared, direction).value;
    RendersRecords(FinalState(s, prepared), edited, Record(edited, KeyOf(m), direction).value.records, others);
  }

  /** A migration runs exactly if its preflight passes, no operation is stuck, and its record is due. */
  lemma EffectRuns(s: ProjectState, db: Database, m: Migration, direction: Direction, others: map<string, Table>)
    requires Renders(s, db, others)
    ensures Effect(s, db, m, direction).Some? <==>
      && PreflightSpec(s, m, direction).Success?
      && !Stuck(db, PreflightSpec(s, m, direction).value, direction, others)
      && (KeyOf(m) in db.records <==> direction != Forward)
  {
    RendersCloned(s, db, others);
    PreflightCloned(s, m, direction);
    hide DatabaseSteps, PreparedFrom, Renders, ValidState, Stuck;
    if PreflightSpec(s, m, direction).Success? {
      OperationsRender(Clone(s), m, direction, 0, db, others);
    }
  }

  lemma RendersRecords(s: ProjectState, db: Database, records: set<Key>, others: map<string, Table>)
    requires Renders(s, db, others)
    ensures Renders(s, db.(records := records), others)
  {
  }

  function KeysOf(migrations: seq<Migration>): (keys: seq<Key>)
    ensures |keys| == |migrations| && forall i :: 0 <= i < |migrations| ==> keys[i] == KeyOf(migrations[i])
  {
    seq(|migrations|, i requires 0 <= i < |migrations| => KeyOf(migrations[i]))
  }

  /** A whole plan keeps the tables rendering the state, and its records are those the planner predicts. */
  lemma {:induction false} PlanRenders(
      s: ProjectState, db: Database, migrations: seq<Migration>, direction: Direction, others: map<string, Table>)
    requires Renders(s, db, others) && PlanRun(s, db, migrations, direction).Some?
    ensures var run := PlanRun(s, db, migrations, direction).value;
      && Renders(run.state, run.database, others)
      && run.database.records == After(db.records, Steps(KeysOf(migrations), direction))
      && PlanState(s, migrations, direction) == Some(run.state)
    decreases |migrations|
  {
    hide Effect, Renders, PreflightSpec;
    if migrations == [] {
      RendersCloned(s, db, others);
    } else {
      var next := Effect(s, db, migrations[0], direction).value;
      EffectRenders(s, db, migrations[0], direction, others);
      PlanRenders(next.state, next.database, migrations[1..], direction, others);
      EffectPreflight(s, db, migrations[0], direction);
      var steps := Steps(KeysOf(migrations), direction);
      assert steps[1..] == Steps(KeysOf(migrations[1..]), direction);
    }
  }

  lemma EffectPreflight(s: ProjectState, db: Database, m: Migration, direction: Direction)
    requires Effect(s, db, m, direction).Some?
    ensures PreflightSpec(s, m, direction).Success?
    ensures Effect(s, db, m, direction).value.state == FinalState(s, PreflightSpec(s, m, direction).value)
  {
    hide PreflightSpec, DatabaseSteps, Record;
  }
}
