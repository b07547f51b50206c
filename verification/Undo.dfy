/** Unapplying a plan in reverse restores the database it was applied to. */
module Undoing {
  import opened Keys
  import opened Errors
  import opened PlanSpec
  import opened SchemaIR
  import opened ProjectStates
  import opened Operations
  import opened StateChanges
  import opened Migrations
  import opened Databases
  import opened Rendering
  import opened PlanRuns

  lemma TableRestored(db: Database, m: Model)
    requires CreateTable(db, m).Success?
    ensures DropTable(CreateTable(db, m).value, m) == Success(db)
  {
    hide RenderColumns;
    assert CreateTable(db, m).value.tables - {m.dbTable} == db.tables;
  }

  lemma ColumnLast(columns: seq<Column>, c: Column)
    requires ColumnIndex(columns, c.name) == |columns|
    ensures ColumnIndex(columns + [c], c.name) == |columns|
  {
    assert (columns + [c])[|columns|] == c;
    assert forall i :: 0 <= i < |columns| ==> (columns + [c])[i] == columns[i];
  }

  lemma ColumnRestored(db: Database, m: Model, m': Model, f: Field)
    requires AddColumn(db, m, f).Success? && m'.dbTable == m.dbTable && ValidField(f)
    ensures DropColumn(AddColumn(db, m, f).value, m', f) == Success(db)
  {
    ColumnName(f);
    hide ValidField, RenderColumn;
    var table, c := db.tables[m.dbTable], RenderColumn(f).value;
    var next := AddColumn(db, m, f).value;
    ColumnLast(table.columns, c);
    var columns := table.columns + [c];
    assert columns[..|table.columns|] + columns[|table.columns| + 1..] == table.columns;
    assert next.tables[m.dbTable := table] == db.tables;
  }

  /** The backward edits of an operation undo its forward edits. */
  lemma EditUndone(s: ProjectState, op: Operation, db: Database, others: map<string, Table>)
    requires ValidState(s) && StateForward(s, op).Some? && Renders(s, db, others)
    requires DatabaseForward(db, op, s, StateForward(s, op).value).Success?
    ensures DatabaseBackward(DatabaseForward(db, op, s, StateForward(s, op).value).value, op, StateForward(s, op).value) == Success(db)
  {
    match op {
      case CreateModel(app, model) =>
        CreateForwardChange(s, app, model);
        hide CreateForward, FillModel, FindModel, CreateTable, DropTable, Changed, ValidState;
        TableRestored(db, FillModel(app, model));
      case AddField(app, modelName, field) =>
        AddUndoneEdit(s, app, modelName, field, db);
    }
  }

  lemma LastHeld(m: Model, f: Field)
    requires FieldIndex(m.fields, f.name) == |m.fields|
    ensures HoldsField(m.(fields := m.fields + [f]), f)
  {
    FoundLastField(m.fields, f);
  }

  lemma AddUndoneEdit(s: ProjectState, app: string, modelName: string, field: Field, db: Database)
    requires ValidState(s) && AddForward(s, app, modelName, field).Some?
    requires DatabaseForward(db, AddField(app, modelName, field), s, AddForward(s, app, modelName, field).value).Success?
    ensures var op, t := AddField(app, modelName, field), AddForward(s, app, modelName, field).value;
      DatabaseBackward(DatabaseForward(db, op, s, t).value, op, t) == Success(db)
  {
    hide *;
    AddForwardChange(s, app, modelName, field);
    AddEdits(s, app, modelName, field, db);
    var t, m := AddForward(s, app, modelName, field).value, FindModel(s, app, modelName).value;
    var f := FillField(field);
    var m' := m.(fields := m.fields + [f]);
    ValidFieldAt(m', |m.fields|);
    FilledFieldName(field);
    LastHeld(m, f);
    ColumnRestored(db, m, m', f);
    EditOfRemove(AddColumn(db, m, f).value, t, app, modelName, field, m', f);
  }

  /** Along a forward run every prefix of the edits renders the state it leads to. */
  lemma {:induction false} RendersAlong(
      m: Migration, s: ProjectState, prepared: seq<PreparedOperation>, db: Database, others: map<string, Table>, k: nat)
    requires ForwardRun(m, s, prepared, 0) && Renders(s, db, others) && k <= |prepared|
    requires DatabaseSteps(db, prepared, Forward).Some?
    ensures DatabaseSteps(db, prepared[..k], Forward).Some?
    ensures Renders(StateAt(s, prepared, k), DatabaseSteps(db, prepared[..k], Forward).value, others)
    ensures k < |prepared| ==>
      DatabaseStep(DatabaseSteps(db, prepared[..k], Forward).value, prepared[k], Forward).Success? &&
      DatabaseSteps(db, prepared[..k + 1], Forward)
        == Some(DatabaseStep(DatabaseSteps(db, prepared[..k], Forward).value, prepared[k], Forward).value)
  {
    hide DatabaseStep, Renders, ValidState, StateForward, ForwardRun;
    if k == 0 {
      assert prepared[..0] == [];
    } else {
      RendersAlong(m, s, prepared, db, others, k - 1);
      RunStep(m, s, prepared, k - 1);
      var p := prepared[k - 1];
      OperationRuns(p.before, p.op, Forward, p.index, DatabaseSteps(db, prepared[..k - 1], Forward).value, others);
    }
    if k < |prepared| {
      StepsAt(db, prepared, Forward, k);
    }
  }

  lemma RunStep(m: Migration, s: ProjectState, prepared: seq<PreparedOperation>, k: nat)
    requires ForwardRun(m, s, prepared, 0) && k < |prepared|
    ensures k < |m.operations|
    ensures var p := prepared[k];
      && p == PreparedOperation(k, m.operations[k], StateAt(s, prepared, k), StateAt(s, prepared, k + 1))
      && Settled(p.before) && Settled(p.after) && StateForward(p.before, p.op) == Some(p.after)
  {
  }

  /** Running the edits backward from the end of a forward run restores the database. */
  lemma {:induction false} EditsBackAlong(
      m: Migration, s: ProjectState, prepared: seq<PreparedOperation>, db: Database, others: map<string, Table>, n: nat)
    requires ForwardRun(m, s, prepared, 0) && Settled(s) && n <= |prepared| && Renders(s, db, others)
    requires DatabaseSteps(db, prepared, Forward).Some?
    ensures var k := |prepared| - n;
      && |prepared| == |m.operations|
      && DatabaseSteps(db, prepared[..k], Forward).Some?
      && DatabaseSteps(DatabaseSteps(db, prepared[..k], Forward).value,
           PreparedOf(PreparedFrom(StateAt(s, prepared, k), m, Backward, n)), Backward) == Some(db)
    decreases |prepared| - n
  {
    hide ForwardRun, StateForward, StateBackward, ValidState, Renders, DatabaseStep, PreparedFrom;
    RunLength(m, s, prepared);
    BackAlong(m, s, prepared, n);
    RendersAlong(m, s, prepared, db, others, |prepared| - n);
    if n < |prepared| {
      var k := |prepared| - 1 - n;
      RunStep(m, s, prepared, k);
      EditsBackAlong(m, s, prepared, db, others, n + 1);
      RendersAlong(m, s, prepared, db, others, k);
      var now, before := StateAt(s, prepared, k + 1), StateAt(s, prepared, k);
      var dbBefore := DatabaseSteps(db, prepared[..k], Forward).value;
      StepEdits(m, s, prepared, k, dbBefore, others);
      BackStep(m, s, prepared, n);
      BackAlong(m, s, prepared, n + 1);
      var rest := PreparedFrom(before, m, Backward, n + 1).value;
      var first := PreparedOperation(k, m.operations[k], now, before);
      assert ([first] + rest)[1..] == rest;
    } else {
      assert prepared[..0] == [];
      NoneBack(m, s);
    }
  }

  lemma NoneBack(m: Migration, s: ProjectState)
    ensures PreparedFrom(s, m, Backward, |m.operations|) == Success([])
  {
  }

  lemma BackStep(m: Migration, s: ProjectState, prepared: seq<PreparedOperation>, n: nat)
    requires ForwardRun(m, s, prepared, 0) && Settled(s) && n < |prepared| && |prepared| == |m.operations|
    ensures var k := |prepared| - 1 - n;
      var now, before := StateAt(s, prepared, k + 1), StateAt(s, prepared, k);
      PreparedFrom(now, m, Backward, n)
        == Extended([PreparedOperation(k, m.operations[k], now, before)], PreparedFrom(before, m, Backward, n + 1))
  {
    hide ForwardRun, StateForward, StateBackward, ValidState;
    StepBack(m, s, prepared, |prepared| - 1 - n);
  }

  lemma StepEdits(
      m: Migration, s: ProjectState, prepared: seq<PreparedOperation>, k: nat, db: Database, others: map<string, Table>)
    requires ForwardRun(m, s, prepared, 0) && k < |prepared| && Renders(StateAt(s, prepared, k), db, others)
    requires DatabaseStep(db, prepared[k], Forward).Success?
    ensures k < |m.operations|
    ensures DatabaseStep(DatabaseStep(db, prepared[k], Forward).value,
        PreparedOperation(k, m.operations[k], StateAt(s, prepared, k + 1), StateAt(s, prepared, k)), Backward) == Success(db)
  {
    hide ForwardRun, StateForward, ValidState, Renders, DatabaseForward, DatabaseBackward;
    RunStep(m, s, prepared, k);
    EditUndone(prepared[k].before, prepared[k].op, db, others);
  }

  // ---------------------------------------------------------------- migrations and plans

  function WithRecords(db: Database, records: set<Key>): Database {
    db.(records := records)
  }

  lemma StepIgnoresRecords(db: Database, p: PreparedOperation, direction: Direction, records: set<Key>)
    ensures DatabaseStep(WithRecords(db, records), p, direction) ==
      match DatabaseStep(db, p, direction)
      case Failure(e) => Failure(e)
      case Success(next) => Success(WithRecords(next, records))
  {
    hide FindModel, FindField, RenderColumn, RenderColumns, ColumnIndex;
  }

  lemma {:induction false} StepsIgnoreRecords(db: Database, prepared: seq<PreparedOperation>, direction: Direction, records: set<Key>)
    ensures DatabaseSteps(WithRecords(db, records), prepared, direction) ==
      match DatabaseSteps(db, prepared, direction)
      case None => None
      case Some(next) => Some(WithRecords(next, records))
    decreases |prepared|
  {
    hide DatabaseStep, WithRecords;
    if prepared != [] {
      StepIgnoresRecords(db, prepared[0], direction, records);
      if DatabaseStep(db, prepared[0], direction).Success? {
        StepsIgnoreRecords(DatabaseStep(db, prepared[0], direction).value, prepared[1..], direction, records);
      }
    }
  }

  /** Unapplying a migration restores both the state and the database it was applied to. */
  lemma EffectUndone(s: ProjectState, db: Database, m: Migration, others: map<string, Table>)
    requires Renders(s, db, others) && Effect(s, db, m, Forward).Some?
    ensures var run := Effect(s, db, m, Forward).value;
      Effect(run.state, run.database, m, Backward) == Some(Run(Clone(s), db))
  {
    EffectPreflight(s, db, m, Forward);
    EditsUndone(s, db, m, others);
    MigrationUndone(s, m);
    EffectRenders(s, db, m, Forward, others);
    hide PreflightSpec, DatabaseSteps, Renders;
    var prepared := PreflightSpec(s, m, Forward).value;
    var t := FinalState(s, prepared);
    var back := PreflightSpec(t, m, Backward).value;
    var edited := DatabaseSteps(db, prepared, Forward).value;
    var recorded := db.records + {KeyOf(m)};
    StepsIgnoreRecords(edited, back, Backward, recorded);
    assert recorded - {KeyOf(m)} == db.records;
  }

  lemma EditsUndone(s: ProjectState, db: Database, m: Migration, others: map<string, Table>)
    requires Renders(s, db, others) && PreflightSpec(s, m, Forward).Success?
    requires DatabaseSteps(db, PreflightSpec(s, m, Forward).value, Forward).Some?
    ensures var prepared := PreflightSpec(s, m, Forward).value;
      var t, edited := FinalState(s, prepared), DatabaseSteps(db, prepared, Forward).value;
      edited.records == db.records && DatabaseSteps(edited, PreparedOf(PreflightSpec(t, m, Backward)), Backward) == Some(db)
  {
    hide *;
    PreflightCloned(s, m, Forward);
    RendersCloned(s, db, others);
    PreflightSettles(s, m);
    SettledEditsUndone(Clone(s), db, m, others);
  }

  lemma PreflightSettles(s: ProjectState, m: Migration)
    requires PreflightSpec(s, m, Forward).Success?
    ensures Settled(Clone(s))
  {
  }

  lemma SettledEditsUndone(s: ProjectState, db: Database, m: Migration, others: map<string, Table>)
    requires Settled(s) && Renders(s, db, others) && PreflightSpec(s, m, Forward).Success?
    requires DatabaseSteps(db, PreflightSpec(s, m, Forward).value, Forward).Some?
    ensures var prepared := PreflightSpec(s, m, Forward).value;
      var t, edited := FinalState(s, prepared), DatabaseSteps(db, prepared, Forward).value;
      edited.records == db.records && DatabaseSteps(edited, PreparedOf(PreflightSpec(t, m, Backward)), Backward) == Some(db)
  {
    hide DatabaseSteps, PreparedFrom, ForwardRun, Renders, ValidState, DatabaseStep, StateForward, StateBackward;
    var prepared := PreflightSpec(s, m, Forward).value;
    ForwardRuns(s, m, 0);
    FinalOfRun(m, s, prepared);
    EditsBackAlong(m, s, prepared, db, others, 0);
    assert prepared[..|prepared|] == prepared;
    OperationsRender(s, m, Forward, 0, db, others);
  }

  /** Running a plan forward and its migrations backward in reverse restores the state and the database. */
  lemma {:induction false} PlanRunUndone(s: ProjectState, db: Database, migrations: seq<Migration>, others: map<string, Table>)
    requires Renders(s, db, others) && PlanRun(s, db, migrations, Forward).Some?
    ensures var run := PlanRun(s, db, migrations, Forward).value;
      PlanRun(run.state, run.database, Reverse(migrations), Backward) == Some(Run(Clone(s), db))
    decreases |migrations|
  {
    hide Effect, Renders;
    if migrations != [] {
      var m, rest := migrations[0], migrations[1..];
      var next := Effect(s, db, m, Forward).value;
      EffectRenders(s, db, m, Forward, others);
      EffectUndone(s, db, m, others);
      PlanRunUndone(next.state, next.database, rest, others);
      EffectStateCloned(s, db, m, Forward);
      var run := PlanRun(s, db, migrations, Forward).value;
      PlanRunConcat(run.state, run.database, Reverse(rest), [m], Backward);
      assert [m][1..] == [];
    }
  }
}
