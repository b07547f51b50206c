/** The database as a value: what the schema editor and the recorder do to tables and records. */
module Databases {
  import opened Keys
  import opened Errors
  import opened PlanSpec
  import opened SchemaIR
  import opened ProjectStates
  import opened Operations
  import opened Migrations

  /** The declarations a column can be created with. */
  datatype Declaration = AutoKey | Varchar(maxLength: int, nullable: bool) | NonNullBoolean

  datatype Cell = NullCell | IntegerCell(integer: int) | TextCell(text: string) | BooleanCell(boolean: bool)

  /** What a column of the declaration stores. */
  predicate Stores(d: Declaration, cell: Cell) {
    match d
    case AutoKey => cell.IntegerCell?
    case Varchar(maxLength, nullable) => if cell.NullCell? then nullable else cell.TextCell? && |cell.text| <= maxLength
    case NonNullBoolean => cell.BooleanCell?
  }

  /** The values of a field. */
  predicate Admits(f: Field, cell: Cell) {
    match cell
    case NullCell => f.nullable
    case IntegerCell(_) => f.kind == AUTO
    case TextCell(text) => f.kind == CHAR && |text| <= f.maxLength
    case BooleanCell(_) => f.kind == BOOLEAN
  }

  function DefaultCell(value: ScalarDefault): Cell {
    if value.kind == SCALAR_STRING then TextCell(value.text)
    else if value.kind == SCALAR_BOOLEAN then BooleanCell(value.boolean)
    else IntegerCell(value.integer)
  }

  datatype Column = Column(name: string, declaration: Declaration)

  /** A table keeps its columns in order; of its rows only the number matters here. */
  datatype Table = Table(columns: seq<Column>, rows: nat)

  datatype Database = Database(tables: map<string, Table>, records: set<Key>)

  /** Why an edit is refused: the backend cannot represent it, or the statement itself fails. */
  datatype EditError = Unrepresentable | StatementFailed

  function RenderColumn(f: Field): Option<Column> {
    if f.column == "" then None
    else if f.kind == AUTO then
      if !f.primaryKey || f.nullable then None else Some(Column(f.column, AutoKey))
    else if f.kind == CHAR then
      if f.maxLength <= 0 then None else Some(Column(f.column, Varchar(f.maxLength, f.nullable)))
    else if f.kind == BOOLEAN then
      if f.nullable then None else Some(Column(f.column, NonNullBoolean))
    else None
  }

  function RenderColumns(fields: seq<Field>): Option<seq<Column>> {
    if fields == [] then Some([])
    else
      match (RenderColumns(fields[..|fields| - 1]), RenderColumn(fields[|fields| - 1]))
      case (Some(front), Some(last)) => Some(front + [last])
      case _ => None
  }

  /** The position of a column; the number of columns if there is none of that name. */
  function ColumnIndex(columns: seq<Column>, name: string): (i: nat)
    ensures i <= |columns|
    ensures i < |columns| ==> columns[i].name == name
    ensures forall j :: 0 <= j < i ==> columns[j].name != name
  {
    if columns == [] || columns[0].name == name then 0 else 1 + ColumnIndex(columns[1..], name)
  }

  function CreateTable(db: Database, m: Model): Result<Database, EditError> {
    if m.dbTable == "" || m.fields == [] || RenderColumns(m.fields).None? || m.dbTable in db.tables then
      Failure(StatementFailed)
    else Success(db.(tables := db.tables[m.dbTable := Table(RenderColumns(m.fields).value, 0)]))
  }

  function DropTable(db: Database, m: Model): Result<Database, EditError> {
    if m.dbTable !in db.tables then Failure(StatementFailed)
    else Success(db.(tables := db.tables - {m.dbTable}))
  }

  function AddColumn(db: Database, m: Model, f: Field): Result<Database, EditError> {
    if f.primaryKey || f.defaultValue.Some? then Failure(Unrepresentable)
    else if RenderColumn(f).None? || m.dbTable !in db.tables then Failure(StatementFailed)
    else
      var table := db.tables[m.dbTable];
      if !f.nullable && table.rows > 0 then Failure(Unrepresentable)
      else if ColumnIndex(table.columns, f.column) < |table.columns| then Failure(StatementFailed)
      else Success(db.(tables := db.tables[m.dbTable := table.(columns := table.columns + [RenderColumn(f).value])]))
  }

  function DropColumn(db: Database, m: Model, f: Field): Result<Database, EditError> {
    if f.primaryKey then Failure(Unrepresentable)
    else if m.dbTable !in db.tables then Failure(StatementFailed)
    else
      var table := db.tables[m.dbTable];
      var i := ColumnIndex(table.columns, f.column);
      if i == |table.columns| then Failure(StatementFailed)
      else if table.columns[i].declaration.AutoKey? then Failure(Unrepresentable)
      else Success(db.(tables := db.tables[m.dbTable := table.(columns := table.columns[..i] + table.columns[i + 1..])]))
  }

  /** The database transition of one prepared operation. */
  function DatabaseForward(db: Database, op: Operation, before: ProjectState, after: ProjectState): Result<Database, EditError> {
    match op
    case CreateModel(app, model) =>
      (match FindModel(after, app, model.name)
       case None => Failure(StatementFailed)
       case Some(m) => CreateTable(db, m))
    case AddField(app, modelName, field) =>
      (match (FindModel(before, app, modelName), FindField(after, app, modelName, field.name))
       case (Some(m), Some(f)) => AddColumn(db, m, f)
       case _ => Failure(StatementFailed))
    case NilOperation => Failure(StatementFailed)
  }

  function DatabaseBackward(db: Database, op: Operation, before: ProjectState): Result<Database, EditError> {
    match op
    case CreateModel(app, model) =>
      (match FindModel(before, app, model.name)
       case None => Failure(StatementFailed)
       case Some(m) => DropTable(db, m))
    case AddField(app, modelName, field) =>
      (match (FindModel(before, app, modelName), FindField(before, app, modelName, field.name))
       case (Some(m), Some(f)) => DropColumn(db, m, f)
       case _ => Failure(StatementFailed))
    case NilOperation => Failure(StatementFailed)
  }

  function DatabaseStep(db: Database, p: PreparedOperation, direction: Direction): Result<Database, EditError> {
    if direction == Forward then DatabaseForward(db, p.op, p.before, p.after)
    else DatabaseBackward(db, p.op, p.before)
  }

  function DatabaseSteps(db: Database, prepared: seq<PreparedOperation>, direction: Direction): Option<Database>
    decreases |prepared|
  {
    if prepared == [] then Some(db)
    else
      match DatabaseStep(db, prepared[0], direction)
      case Failure(_) => None
      case Success(next) => DatabaseSteps(next, prepared[1..], direction)
  }

  /** The record of a migration must be absent before it is added and present before it is removed. */
  function Record(db: Database, key: Key, direction: Direction): Option<Database> {
    if !ValidKey(key) then None
    else if direction == Forward then
      if key in db.records then None else Some(db.(records := db.records + {key}))
    else
      if key in db.records then Some(db.(records := db.records - {key})) else None
  }
}
