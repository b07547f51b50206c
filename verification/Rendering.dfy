/** The tables of a database render a project state; database transitions keep it so. */
module Rendering {
  import opened Errors
  import opened PlanSpec
  import opened SchemaIR
  import opened ProjectStates
  import opened Operations
  import opened StateChanges
  import opened Databases

  ghost predicate Owner(s: ProjectState, app: string, name: string, table: string) {
    FindModel(s, app, name).Some? && FindModel(s, app, name).value.dbTable == table
  }

  ghost predicate Owned(s: ProjectState, table: string) {
    exists app, name :: Owner(s, app, name, table)
  }

  ghost predicate HasTable(db: Database, m: Model) {
    m.dbTable in db.tables && RenderColumns(m.fields) == Some(db.tables[m.dbTable].columns)
  }

  /** Every model has its table, with its columns in order. */
  ghost predicate TablesPresent(s: ProjectState, db: Database) {
    forall app, name :: FindModel(s, app, name).Some? ==> HasTable(db, FindModel(s, app, name).value)
  }

  /** No two models share a table. */
  ghost predicate TablesApart(s: ProjectState) {
    forall a, n, b, o, table :: Owner(s, a, n, table) && Owner(s, b, o, table) ==> a == b && n == o
  }

  /** Every other table is one of those given, unchanged. */
  ghost predicate TablesOfOthers(s: ProjectState, db: Database, others: map<string, Table>) {
    forall table :: (table in db.tables && !Owned(s, table)) <==> table in others
  }

  ghost predicate OthersKept(db: Database, others: map<string, Table>) {
    forall table :: table in others ==> table in db.tables && db.tables[table] == others[table]
  }

  /** The database holds exactly the tables of the state's models, plus the tables of others. */
  ghost predicate Renders(s: ProjectState, db: Database, others: map<string, Table>) {
    TablesPresent(s, db) && TablesApart(s) && TablesOfOthers(s, db, others) && OthersKept(db, others)
  }

  // ---------------------------------------------------------------- columns

  lemma {:induction false} ColumnsRendered(fields: seq<Field>, columns: seq<Column>)
    ensures RenderColumns(fields) == Some(columns) <==>
      |columns| == |fields| && forall i :: 0 <= i < |fields| ==> RenderColumn(fields[i]) == Some(columns[i])
    decreases fields
  {
    if fields != [] {
      var n := |fields| - 1;
      if |columns| == |fields| {
        ColumnsRendered(fields[..n], columns[..n]);
        assert columns == columns[..n] + [columns[n]];
      }
      if RenderColumns(fields[..n]).Some? {
        ColumnsRendered(fields[..n], RenderColumns(fields[..n]).value);
      }
    }
  }

  lemma ColumnName(f: Field)
    ensures RenderColumn(f).Some? ==> RenderColumn(f).value.name == f.column
    ensures RenderColumn(f).Some? && ValidField(f) ==> (RenderColumn(f).value.declaration.AutoKey? <==> f.primaryKey)
    ensures ValidNames(f) && ValidField(f) ==> RenderColumn(f).Some?
  {
  }

  /** A column tells its field's column name, kind, length and nullability. */
  lemma ColumnFaithful(f: Field, h: Field)
    requires ValidField(f) && ValidField(h) && RenderColumn(f).Some? && RenderColumn(f) == RenderColumn(h)
    ensures f.column == h.column && f.kind == h.kind && f.maxLength == h.maxLength && f.nullable == h.nullable
    ensures f.primaryKey == h.primaryKey
  {
  }

  /** A column stores exactly the values of its field: NULL only if nullable, text only up to the length. */
  lemma ColumnAdmits(f: Field, cell: Cell)
    requires ValidNames(f) && ValidField(f)
    ensures RenderColumn(f).Some? && RenderColumn(f).value.name == f.column
    ensures Stores(RenderColumn(f).value.declaration, cell) <==> Admits(f, cell)
    ensures RenderColumn(f).value.declaration.AutoKey? <==> f.primaryKey
  {
  }

  /** Without a default, a field is valid exactly if a column can be declared for it and exactly keys are automatic. */
  lemma FieldValidExactly(f: Field)
    requires f.defaultValue.None? && f.column != ""
    ensures ValidField(f) <==>
      RenderColumn(f).Some? && (f.primaryKey <==> f.kind == AUTO) && (f.kind != CHAR ==> f.maxLength == 0)
  {
  }

  /** A default is valid exactly if it carries one payload, and the field, no key, is valid without it and admits it. */
  lemma DefaultValidExactly(f: Field)
    requires f.defaultValue.Some?
    ensures var value := f.defaultValue.value;
      ValidField(f) <==>
        && ValidField(f.(defaultValue := None)) && !f.primaryKey && Admits(f, DefaultCell(value))
        && (value.kind == SCALAR_STRING || value.kind == SCALAR_BOOLEAN || value.kind == SCALAR_INTEGER)
        && (value.text == "" || value.kind == SCALAR_STRING)
        && (!value.boolean || value.kind == SCALAR_BOOLEAN)
        && (value.integer == 0 || value.kind == SCALAR_INTEGER)
  {
  }

  /** The table of a model has a column for each field, in order, which stores exactly the field's values. */
  lemma TableAdmits(s: ProjectState, db: Database, others: map<string, Table>, app: string, name: string, i: nat, cell: Cell)
    requires ValidState(s) && Renders(s, db, others) && FindModel(s, app, name).Some?
    requires i < |FindModel(s, app, name).value.fields|
    ensures var m := FindModel(s, app, name).value;
      && m.dbTable in db.tables && |db.tables[m.dbTable].columns| == |m.fields|
      && db.tables[m.dbTable].columns[i].name == m.fields[i].column
      && (Stores(db.tables[m.dbTable].columns[i].declaration, cell) <==> Admits(m.fields[i], cell))
  {
    hide Stores, Admits, RenderColumn, RenderColumns, Renders, ValidNames, ValidField;
    TableOf(s, db, others, app, name);
    var m := FindModel(s, app, name).value;
    FoundValid(s, app, name);
    ColumnsRendered(m.fields, db.tables[m.dbTable].columns);
    ColumnAdmits(m.fields[i], cell);
  }

  lemma FoundValid(s: ProjectState, app: string, name: string)
    requires ValidState(s) && FindModel(s, app, name).Some?
    ensures ValidModel(FindModel(s, app, name).value)
  {
    StateModels(s, app);
    hide ValidModel, FilledModels, Normalized;
  }

  /** Two valid models with the same rendered columns agree on every field's database shape, in order. */
  lemma TablesFaithful(m: Model, w: Model)
    requires ValidModel(m) && ValidModel(w) && RenderColumns(m.fields) == RenderColumns(w.fields)
    ensures |m.fields| == |w.fields|
    ensures forall i :: 0 <= i < |m.fields| ==>
      && m.fields[i].column == w.fields[i].column && m.fields[i].kind == w.fields[i].kind
      && m.fields[i].maxLength == w.fields[i].maxLength && m.fields[i].nullable == w.fields[i].nullable
  {
    ModelRendered(m);
    ColumnsRendered(m.fields, RenderColumns(m.fields).value);
    ColumnsRendered(w.fields, RenderColumns(m.fields).value);
    hide RenderColumn, RenderColumns, ValidModel, ValidField;
    forall i | 0 <= i < |m.fields|
      ensures && m.fields[i].column == w.fields[i].column && m.fields[i].kind == w.fields[i].kind
              && m.fields[i].maxLength == w.fields[i].maxLength && m.fields[i].nullable == w.fields[i].nullable
    {
      ValidFieldAt(m, i);
      ValidFieldAt(w, i);
      ColumnFaithful(m.fields[i], w.fields[i]);
    }
  }

  lemma {:induction false} ValidRendered(fields: seq<Field>)
    requires forall i :: 0 <= i < |fields| ==> RenderColumn(fields[i]).Some?
    ensures RenderColumns(fields).Some?
    decreases fields
  {
    hide RenderColumn;
    if fields != [] {
      ValidRendered(fields[..|fields| - 1]);
    }
  }

  lemma ModelRendered(m: Model)
    requires ValidModel(m)
    ensures RenderColumns(m.fields).Some? && m.dbTable != "" && m.fields != []
  {
    hide ValidNames, ValidField, RenderColumn, RenderColumns;
    forall i | 0 <= i < |m.fields| ensures RenderColumn(m.fields[i]).Some? {
      ColumnName(m.fields[i]);
    }
    ValidRendered(m.fields);
  }

  lemma ColumnAt(fields: seq<Field>, columns: seq<Column>, j: nat)
    requires ValidFields(fields) && RenderColumns(fields) == Some(columns) && j < |fields|
    ensures j < |columns| && ColumnIndex(columns, fields[j].column) == j
    ensures columns[j].declaration.AutoKey? <==> fields[j].primaryKey
  {
    ColumnsRendered(fields, columns);
    hide ValidNames, ValidField, RenderColumn, RenderColumns;
    forall i | 0 <= i < |fields| ensures columns[i].name == fields[i].column {
      ColumnName(fields[i]);
    }
    ColumnName(fields[j]);
    assert forall i :: 0 <= i < j ==> FieldsApart(fields[i], fields[j]);
  }

  lemma ColumnNew(fields: seq<Field>, columns: seq<Column>, f: Field)
    requires ValidFields(fields + [f]) && RenderColumns(fields) == Some(columns)
    ensures ColumnIndex(columns, f.column) == |columns| && RenderColumn(f).Some?
    ensures RenderColumns(fields + [f]) == Some(columns + [RenderColumn(f).value])
  {
    var more := fields + [f];
    assert more[|fields|] == f && more[..|fields|] == fields;
    ColumnName(f);
    ColumnsRendered(fields, columns);
    hide ValidNames, ValidField, RenderColumn;
    forall i | 0 <= i < |fields| ensures columns[i].name != f.column {
      ColumnName(fields[i]);
      assert FieldsApart(more[i], more[|fields|]);
    }
  }

  lemma ColumnGone(fields: seq<Field>, columns: seq<Column>, j: nat)
    requires RenderColumns(fields) == Some(columns) && j < |fields|
    ensures j < |columns|
    ensures RenderColumns(fields[..j] + fields[j + 1..]) == Some(columns[..j] + columns[j + 1..])
  {
    hide RenderColumn, RenderColumns;
    ColumnsRendered(fields, columns);
    var fewer, left := fields[..j] + fields[j + 1..], columns[..j] + columns[j + 1..];
    forall i | 0 <= i < |fewer| ensures RenderColumn(fewer[i]) == Some(left[i]) {
      var k := if i < j then i else i + 1;
      assert fewer[i] == fields[k] && left[i] == columns[k];
    }
    ColumnsRendered(fewer, left);
  }

  // ---------------------------------------------------------------- one model changes

  lemma OwnersKept(s: ProjectState, t: ProjectState, app: string, name: string)
    requires Changed(s, t, app, name)
    ensures forall a, n, table :: (a != app || n != name) ==> (Owner(t, a, n, table) <==> Owner(s, a, n, table))
  {
  }

  lemma RendersCreated(s: ProjectState, t: ProjectState, db: Database, app: string, name: string, m: Model, others: map<string, Table>)
    requires Renders(s, db, others) && Changed(s, t, app, name)
    requires FindModel(s, app, name).None? && FindModel(t, app, name) == Some(m)
    requires CreateTable(db, m).Success?
    ensures Renders(t, CreateTable(db, m).value, others)
  {
    hide FindModel, RenderColumns;
    var next := CreateTable(db, m).value;
    OwnersKept(s, t, app, name);
    assert Owner(t, app, name, m.dbTable);
    assert !Owned(s, m.dbTable) by {
      forall a, n ensures !Owner(s, a, n, m.dbTable) {
        assert FindModel(s, a, n).Some? ==> HasTable(db, FindModel(s, a, n).value);
      }
    }
    forall table ensures Owned(t, table) <==> Owned(s, table) || table == m.dbTable {
      if a, n :| Owner(s, a, n, table) { assert Owner(t, a, n, table); }
      if a, n :| Owner(t, a, n, table) { assert (a == app && n == name) || Owner(s, a, n, table); }
    }
    hide Owned;
    assert TablesPresent(t, next) by {
      forall a, n | FindModel(t, a, n).Some? ensures HasTable(next, FindModel(t, a, n).value) {
        if a != app || n != name {
          assert HasTable(db, FindModel(s, a, n).value);
        }
      }
    }
  }

  lemma RendersDropped(s: ProjectState, t: ProjectState, db: Database, app: string, name: string, m: Model, others: map<string, Table>)
    requires Renders(s, db, others) && Changed(s, t, app, name)
    requires FindModel(s, app, name) == Some(m) && FindModel(t, app, name).None?
    ensures DropTable(db, m).Success? && Renders(t, DropTable(db, m).value, others)
  {
    hide FindModel, RenderColumns;
    assert HasTable(db, m);
    var next := DropTable(db, m).value;
    OwnersKept(s, t, app, name);
    assert Owner(s, app, name, m.dbTable);
    forall table ensures Owned(t, table) <==> Owned(s, table) && table != m.dbTable {
      if a, n :| Owner(s, a, n, table) && table != m.dbTable { assert Owner(t, a, n, table); }
      if a, n :| Owner(t, a, n, table) { assert Owner(s, a, n, table); }
    }
    assert Owned(s, m.dbTable);
    hide Owned;
    assert TablesPresent(t, next) by {
      forall a, n | FindModel(t, a, n).Some? ensures HasTable(next, FindModel(t, a, n).value) {
        assert HasTable(db, FindModel(s, a, n).value);
        assert Owner(s, a, n, FindModel(s, a, n).value.dbTable);
      }
    }
  }

  lemma RendersReplaced(
      s: ProjectState, t: ProjectState, db: Database, app: string, name: string, m: Model, m': Model, rows: nat, others: map<string, Table>)
    requires Renders(s, db, others) && Changed(s, t, app, name)
    requires FindModel(s, app, name) == Some(m) && FindModel(t, app, name) == Some(m')
    requires m.dbTable == m'.dbTable && RenderColumns(m'.fields).Some?
    ensures Renders(t, db.(tables := db.tables[m.dbTable := Table(RenderColumns(m'.fields).value, rows)]), others)
  {
    hide FindModel, RenderColumns;
    var next := db.(tables := db.tables[m.dbTable := Table(RenderColumns(m'.fields).value, rows)]);
    OwnersKept(s, t, app, name);
    assert HasTable(db, m);
    assert Owner(s, app, name, m.dbTable) && Owner(t, app, name, m.dbTable);
    forall table ensures Owned(t, table) <==> Owned(s, table) {
      if a, n :| Owner(s, a, n, table) { assert Owner(t, a, n, table); }
      if a, n :| Owner(t, a, n, table) { assert Owner(s, a, n, table); }
    }
    assert Owned(s, m.dbTable);
    hide Owned;
    assert TablesPresent(t, next) by {
      forall a, n | FindModel(t, a, n).Some? ensures HasTable(next, FindModel(t, a, n).value) {
        if a != app || n != name {
          assert HasTable(db, FindModel(s, a, n).value);
          assert Owner(s, a, n, FindModel(s, a, n).value.dbTable);
        }
      }
    }
  }

  // ---------------------------------------------------------------- one operation

  function RowsOf(db: Database, m: Option<Model>): nat {
    if m.Some? && m.value.dbTable in db.tables then db.tables[m.value.dbTable].rows else 0
  }

  /** What a database needs for an operation to run, beyond rendering the state the operation starts in. */
  predicate Runnable(db: Database, before: ProjectState, op: Operation, direction: Direction) {
    match op
    case CreateModel(app, model) =>
      direction == Forward ==> FillModel(app, model).dbTable !in db.tables
    case AddField(app, modelName, field) =>
      if direction == Forward then
        field.defaultValue.None? && (field.nullable || RowsOf(db, FindModel(before, app, modelName)) == 0)
      else !field.primaryKey
    case NilOperation => false
  }

  lemma CreateRuns(s: ProjectState, app: string, model: Model, db: Database, others: map<string, Table>)
    requires ValidState(s) && CreateForward(s, app, model).Some? && Renders(s, db, others)
    ensures var t := CreateForward(s, app, model).value;
      var r := DatabaseForward(db, CreateModel(app, model), s, t);
      && (r.Success? <==> Runnable(db, s, CreateModel(app, model), Forward))
      && (r.Success? ==> Renders(t, r.value, others))
      && (r.Failure? ==> r.error == StatementFailed)
  {
    CreateForwardChange(s, app, model);
    var t, m := CreateForward(s, app, model).value, FillModel(app, model);
    SingleModelFilled(app, model);
    CreateForwardEffect(s, app, model);
    hide CreateForward, FillModel, FindModel, Renders, Changed, ValidState, Normalized, FilledModel, ModelsOf, ValidModel;
    ModelRendered(m);
    if m.dbTable !in db.tables {
      RendersCreated(s, t, db, app, model.name, m, others);
    }
  }

  lemma DeleteRuns(s: ProjectState, app: string, model: Model, db: Database, others: map<string, Table>)
    requires ValidState(s) && CreateBackward(s, app, model).Some? && Renders(s, db, others)
    ensures var t := CreateBackward(s, app, model).value;
      var r := DatabaseBackward(db, CreateModel(app, model), s);
      r.Success? && Runnable(db, s, CreateModel(app, model), Backward) && Renders(t, r.value, others)
  {
    CreateBackwardChange(s, app, model);
    hide CreateBackward, FillModel, FindModel, Renders, Changed, ValidState;
    RendersDropped(s, CreateBackward(s, app, model).value, db, app, model.name, FillModel(app, model), others);
  }

  lemma {:induction false} KeysCounted(fields: seq<Field>, f: Field)
    ensures PrimaryKeys(fields + [f]) == PrimaryKeys(fields) + (if f.primaryKey then 1 else 0)
  {
  }

  /** A field added to a model with a key is no key. */
  lemma AddedFieldShape(m: Model, field: Field)
    requires ValidModel(m) && ValidModel(m.(fields := m.fields + [FillField(field)]))
    requires FieldIndex(m.fields, field.name) == |m.fields|
    ensures !field.primaryKey && RenderColumns(m.fields).Some?
    ensures var f, columns := FillField(field), RenderColumns(m.fields).value;
      && ColumnIndex(columns, f.column) == |columns| && RenderColumn(f).Some?
      && RenderColumns(m.fields + [f]) == Some(columns + [RenderColumn(f).value])
      && FieldIndex(m.fields + [f], field.name) == |m.fields|
  {
    ModelRendered(m);
    KeysCounted(m.fields, FillField(field));
    hide RenderColumns, RenderColumn, ValidFields, PrimaryKeys;
    ColumnNew(m.fields, RenderColumns(m.fields).value, FillField(field));
    FoundLastField(m.fields, FillField(field));
  }

  lemma TableOf(s: ProjectState, db: Database, others: map<string, Table>, app: string, name: string)
    requires Renders(s, db, others) && FindModel(s, app, name).Some?
    ensures HasTable(db, FindModel(s, app, name).value)
  {
  }

  /** On the table of a model, a new column is added at the end or refused as unrepresentable. */
  lemma ColumnAdded(db: Database, m: Model, field: Field)
    requires HasTable(db, m) && ValidModel(m) && ValidModel(m.(fields := m.fields + [FillField(field)]))
    requires FieldIndex(m.fields, field.name) == |m.fields|
    ensures var r := AddColumn(db, m, FillField(field));
      && (r.Success? <==> field.defaultValue.None? && (field.nullable || db.tables[m.dbTable].rows == 0))
      && RenderColumns(m.fields + [FillField(field)]).Some?
      && (r.Success? ==> r.value == db.(tables := db.tables[m.dbTable :=
            Table(RenderColumns(m.fields + [FillField(field)]).value, db.tables[m.dbTable].rows)]))
      && (r.Failure? ==> r.error == Unrepresentable)
  {
    AddedFieldShape(m, field);
    hide ValidModel, RenderColumns, RenderColumn, ColumnIndex, FieldIndex;
  }

  lemma FieldFoundLast(t: ProjectState, app: string, name: string, m: Model, f: Field)
    requires FindModel(t, app, name) == Some(m.(fields := m.fields + [f])) && FieldIndex(m.fields, f.name) == |m.fields|
    ensures FindField(t, app, name, f.name) == Some(f)
  {
    hide FindModel;
    FoundLastField(m.fields, f);
  }

  lemma AddRuns(s: ProjectState, app: string, modelName: string, field: Field, db: Database, others: map<string, Table>)
    requires ValidState(s) && AddForward(s, app, modelName, field).Some? && Renders(s, db, others)
    ensures var t := AddForward(s, app, modelName, field).value;
      var op := AddField(app, modelName, field);
      var r := DatabaseForward(db, op, s, t);
      && (r.Success? <==> Runnable(db, s, op, Forward))
      && (r.Success? ==> Renders(t, r.value, others))
      && (r.Failure? ==> r.error == Unrepresentable)
  {
    hide *;
    AddForwardChange(s, app, modelName, field);
    AddEdits(s, app, modelName, field, db);
    var t, m := AddForward(s, app, modelName, field).value, FindModel(s, app, modelName).value;
    var f := FillField(field);
    TableOf(s, db, others, app, modelName);
    TableRows(db, m);
    ColumnAdded(db, m, field);
    RunnableAddition(db, s, app, modelName, field);
    var r := DatabaseForward(db, AddField(app, modelName, field), s, t);
    if r.Success? {
      RendersReplaced(s, t, db, app, modelName, m, m.(fields := m.fields + [f]), RowsOf(db, Some(m)), others);
    }
  }

  lemma AddEdits(s: ProjectState, app: string, modelName: string, field: Field, db: Database)
    requires ValidState(s) && AddForward(s, app, modelName, field).Some?
    ensures FindModel(s, app, modelName).Some?
    ensures DatabaseForward(db, AddField(app, modelName, field), s, AddForward(s, app, modelName, field).value)
         == AddColumn(db, FindModel(s, app, modelName).value, FillField(field))
  {
    hide *;
    AddForwardChange(s, app, modelName, field);
    var t, m := AddForward(s, app, modelName, field).value, FindModel(s, app, modelName).value;
    FilledFieldName(field);
    FieldFoundLast(t, app, modelName, m, FillField(field));
    EditOfAdd(db, s, t, app, modelName, field, m, FillField(field));
  }

  lemma EditOfAdd(
      db: Database, s: ProjectState, t: ProjectState, app: string, modelName: string, field: Field, m: Model, f: Field)
    requires FindModel(s, app, modelName) == Some(m) && FindField(t, app, modelName, field.name) == Some(f)
    ensures DatabaseForward(db, AddField(app, modelName, field), s, t) == AddColumn(db, m, f)
  {
  }

  /** On the table of a model, dropping a field's column leaves the others in order; a key is never dropped. */
  lemma ColumnDropped(db: Database, m: Model, f: Field)
    requires HasTable(db, m) && ValidModel(m) && HoldsField(m, f)
    ensures var r, fewer := DropColumn(db, m, f), DropField(m, f.name);
      && fewer.dbTable == m.dbTable && RenderColumns(fewer.fields).Some?
      && r == if f.primaryKey then Failure(Unrepresentable)
              else Success(db.(tables := db.tables[m.dbTable := Table(RenderColumns(fewer.fields).value, db.tables[m.dbTable].rows)]))
  {
    hide ValidFields, RenderColumns, RenderColumn, ColumnIndex, FieldIndex, PrimaryKeys;
    var j := FieldIndex(m.fields, f.name);
    var columns := db.tables[m.dbTable].columns;
    ColumnAt(m.fields, columns, j);
    ColumnGone(m.fields, columns, j);
  }

  lemma EditOfRemove(db: Database, s: ProjectState, app: string, modelName: string, field: Field, m: Model, f: Field)
    requires FindModel(s, app, modelName) == Some(m) && HoldsField(m, f) && f.name == field.name
    ensures DatabaseBackward(db, AddField(app, modelName, field), s) == DropColumn(db, m, f)
  {
  }

  lemma RemoveRuns(s: ProjectState, app: string, modelName: string, field: Field, db: Database, others: map<string, Table>)
    requires ValidState(s) && AddBackward(s, app, modelName, field).Some? && Renders(s, db, others)
    ensures var t := AddBackward(s, app, modelName, field).value;
      var r := DatabaseBackward(db, AddField(app, modelName, field), s);
      && (r.Success? <==> Runnable(db, s, AddField(app, modelName, field), Backward))
      && (r.Success? ==> Renders(t, r.value, others))
      && (r.Failure? ==> r.error == Unrepresentable)
  {
    hide *;
    AddBackwardChange(s, app, modelName, field);
    var t, m := AddBackward(s, app, modelName, field).value, FindModel(s, app, modelName).value;
    var f := FillField(field);
    FilledFieldName(field);
    RunnableRemoval(db, s, app, modelName, field);
    TableOf(s, db, others, app, modelName);
    EditOfRemove(db, s, app, modelName, field, m, f);
    ColumnDropped(db, m, f);
    if !field.primaryKey {
      RendersReplaced(s, t, db, app, modelName, m, DropField(m, field.name), RowsOf(db, Some(m)), others);
      TableRows(db, m);
    }
  }

  lemma RunnableAddition(db: Database, s: ProjectState, app: string, modelName: string, field: Field)
    ensures Runnable(db, s, AddField(app, modelName, field), Forward) <==>
      field.defaultValue.None? && (field.nullable || RowsOf(db, FindModel(s, app, modelName)) == 0)
  {
  }

  lemma RunnableRemoval(db: Database, s: ProjectState, app: string, modelName: string, field: Field)
    ensures Runnable(db, s, AddField(app, modelName, field), Backward) <==> !field.primaryKey
  {
  }

  lemma TableRows(db: Database, m: Model)
    requires HasTable(db, m)
    ensures m.dbTable in db.tables && RowsOf(db, Some(m)) == db.tables[m.dbTable].rows
  {
  }
}
