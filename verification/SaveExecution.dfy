/** Building and running a save plan against a table, and what each kind of save does to the rows. */
module SaveExecution {
  import opened Errors
  import opened SchemaIR
  import opened SqlCompiler
  import opened Saving
  import Databases

  // ---------------------------------------------------------------- the plan

  function AssignmentFor(assignments: seq<Assignment>, reference: FieldRef): Option<Assignment> {
    if assignments == [] then None
    else if assignments[0].field == reference then Some(assignments[0])
    else AssignmentFor(assignments[1..], reference)
  }

  /** The assignments of an insert with an explicit key, in metadata order. */
  function InsertAssignments(fields: seq<Field>, key: Assignment, writable: seq<Assignment>): seq<Assignment> {
    if fields == [] then []
    else
      var n := |fields| - 1;
      InsertAssignments(fields[..n], key, writable) +
      if fields[n].primaryKey then [key]
      else if AssignmentFor(writable, Reference(fields[n])).Some? then [AssignmentFor(writable, Reference(fields[n])).value]
      else []
  }

  method CollectInsertAssignments(metadata: Model, key: Assignment, writable: seq<Assignment>) returns (r: seq<Assignment>)
    ensures r == InsertAssignments(metadata.fields, key, writable)
  {
    hide AssignmentFor;
    var fields := metadata.fields;
    r := [];
    for i := 0 to |fields|
      invariant r == InsertAssignments(fields[..i], key, writable)
    {
      assert fields[..i + 1][..i] == fields[..i];
      if fields[i].primaryKey {
        r := r + [key];
      } else {
        var assignment := AssignmentFor(writable, Reference(fields[i]));
        if assignment.Some? {
          r := r + [assignment.value];
        }
      }
    }
    assert fields[..|fields|] == fields;
  }

  /** The fields a save writes: those of the mask, or every field but the key. */
  function Written(metadata: Model, o: OptionValues): seq<Field> {
    if o.maskSet then FieldsIn(metadata.fields, SelectedNames(Selections(metadata.fields, o)))
    else NonPrimary(metadata.fields)
  }

  function UnwritableName(instance: Instance, fields: seq<Field>): string
    requires !AllWritable(instance, fields)
  {
    if !Writable(instance, fields[0]) then fields[0].name
    else
      assert !AllWritable(instance, fields[1..]) by {
        var i :| 0 <= i < |fields| && !Writable(instance, fields[i]);
        assert fields[1..][i - 1] == fields[i];
      }
      UnwritableName(instance, fields[1..])
  }

  function UpdateOf(instance: Instance, fields: seq<Field>): UpdatePlan
    requires AllWritable(instance, fields)
  {
    UpdatePlan(Assignments(instance, fields), instance.key)
  }

  function InsertOf(metadata: Model, pk: Field, instance: Instance, fields: seq<Field>): seq<Assignment>
    requires AllWritable(instance, fields)
  {
    InsertAssignments(metadata.fields, Assignment(Reference(pk), instance.key), Assignments(instance, fields))
  }

  /** Why a model cannot be saved with these options, checked in this order; None if it can. */
  function SaveRefused(metadata: Model, pk: Field, instance: Instance, options: seq<SaveOption>): Option<SaveError> {
    var o := Folded(options);
    if OptionsError(options).Some? then OptionsError(options)
    else if o.maskSet && FirstFailure(Selections(metadata.fields, o)).Some? then FirstFailure(Selections(metadata.fields, o))
    else if o.maskSet && Written(metadata, o) == [] then None
    else if o.maskSet && o.forceInsert then Some(ForceInsertWithMask)
    else if !MutationValueMatches(pk, instance.key) || instance.key.NullValue? then Some(InvalidKey)
    else if !instance.present && instance.key.IntegerValue? && instance.key.integer != 0 then Some(KeyWithoutPresence)
    else if !AllWritable(instance, Written(metadata, o)) then Some(InvalidValue(UnwritableName(instance, Written(metadata, o))))
    else if !instance.present && (o.forceUpdate || o.maskSet) then Some(UpdateWithoutKey)
    else None
  }

  /** The plan of a save that is not refused. */
  ghost predicate PlanFor(metadata: Model, pk: Field, instance: Instance, options: seq<SaveOption>, plan: SavePlan) {
    var o := Folded(options);
    var fields := Written(metadata, o);
    if o.maskSet && fields == [] then plan == NoOp
    else
      && AllWritable(instance, fields)
      && if !instance.present then plan == InsertOnly(Assignments(instance, fields), true)
         else if o.forceInsert then plan == InsertOnly(InsertOf(metadata, pk, instance, fields), false)
         else if o.forceUpdate || o.maskSet then plan == UpdateOnly(UpdateOf(instance, fields), o.forceUpdate)
         else plan == UpdateOrInsert(UpdateOf(instance, fields), InsertOf(metadata, pk, instance, fields))
  }

  lemma {:induction false} UnwritableFirst(instance: Instance, fields: seq<Field>, i: int)
    requires FirstUnwritable(instance, fields, i)
    ensures !AllWritable(instance, fields) && UnwritableName(instance, fields) == fields[i].name
    decreases |fields|
  {
    hide Writable;
    assert !AllWritable(instance, fields);
    if i > 0 {
      assert fields[..i][0] == fields[0];
      var less, more := fields[1..][..i - 1], fields[..i];
      forall j | 0 <= j < |less| ensures Writable(instance, less[j]) {
        assert less[j] == more[j + 1];
      }
      UnwritableFirst(instance, fields[1..], i - 1);
    }
  }

  lemma MaskHasNoKey(metadata: Model, o: OptionValues)
    requires ValidModel(metadata) && (o.maskSet ==> FirstFailure(Selections(metadata.fields, o)).None?)
    ensures forall f :: f in Written(metadata, o) ==> !f.primaryKey
  {
    hide ValidNames, ValidField, PrimaryKeys;
    if o.maskSet {
      var selections := Selections(metadata.fields, o);
      forall f | f in Written(metadata, o) ensures !f.primaryKey {
        var i :| 0 <= i < |selections| && selections[i].Success? && selections[i].value == f.name;
        var g := SelectedField(metadata, o, i);
        SameName(metadata.fields, f, g);
      }
    }
  }

  lemma SameName(fields: seq<Field>, f: Field, g: Field)
    requires ValidFields(fields) && f in fields && g in fields && f.name == g.name
    ensures f == g
  {
  }

  lemma SelectedField(metadata: Model, o: OptionValues, i: nat) returns (g: Field)
    requires i < |o.typed| + |o.names| && Selections(metadata.fields, o)[i].Success?
    ensures g in metadata.fields && !g.primaryKey && g.name == Selections(metadata.fields, o)[i].value
  {
    hide Writable;
    if i < |o.typed| {
      FoundByIn(metadata.fields, o.typed[i].reference);
      g := FieldBy(metadata.fields, o.typed[i].reference).value;
    } else {
      FoundNamedIn(metadata.fields, o.names[i - |o.typed|]);
      g := FieldNamed(metadata.fields, o.names[i - |o.typed|]).value;
    }
  }

  lemma {:induction false} FoundByIn(fields: seq<Field>, reference: FieldRef)
    ensures FieldBy(fields, reference).Some? ==>
      FieldBy(fields, reference).value in fields && Reference(FieldBy(fields, reference).value) == reference
    decreases |fields|
  {
    if fields != [] { FoundByIn(fields[1..], reference); }
  }

  lemma {:induction false} FoundNamedIn(fields: seq<Field>, name: string)
    ensures FieldNamed(fields, name).Some? ==>
      FieldNamed(fields, name).value in fields && FieldNamed(fields, name).value.name == name
    decreases |fields|
  {
    if fields != [] { FoundNamedIn(fields[1..], name); }
  }

  /** Compiles a model and its options into a plan; nothing is written. */
  method BuildSaveExecutionPlan(metadata: Model, pk: Field, instance: Instance, options: seq<SaveOption>)
    returns (r: Result<SavePlan, SaveError>)
    requires ValidModel(metadata)
    ensures r.Failure? <==> SaveRefused(metadata, pk, instance, options).Some?
    ensures r.Failure? ==> SaveRefused(metadata, pk, instance, options) == Some(r.error)
    ensures r.Success? ==> PlanFor(metadata, pk, instance, options, r.value)
  {
    hide ValidModel, Folded, OptionsError, FirstFailure, FieldsIn, NonPrimary, MutationValueMatches, InsertAssignments, Assignments, UnwritableName;
    var collected := CollectOptions(options);
    if collected.Failure? {
      return Failure(collected.error);
    }
    var o := collected.value;
    var selected := ResolveSaveFields(metadata, o);
    if selected.Failure? {
      return Failure(selected.error);
    }
    if o.maskSet && |selected.value| == 0 {
      return Success(NoOp);
    }
    if o.forceInsert && o.maskSet {
      return Failure(ForceInsertWithMask);
    }
    if !MutationValueMatches(pk, instance.key) || instance.key.NullValue? {
      return Failure(InvalidKey);
    }
    if !instance.present && instance.key.IntegerValue? && instance.key.integer != 0 {
      return Failure(KeyWithoutPresence);
    }
    var fields := selected.value;
    if !o.maskSet {
      fields := NonPrimaryFields(metadata);
    }
    MaskHasNoKey(metadata, o);
    var writable := SaveAssignments(instance, fields);
    if writable.Failure? {
      ghost var i :| FirstUnwritable(instance, fields, i) && writable.error == UnwritableError(fields[i]);
      UnwritableFirst(instance, fields, i);
      return Failure(writable.error);
    }
    if !instance.present {
      if o.forceUpdate || o.maskSet {
        return Failure(UpdateWithoutKey);
      }
      return Success(InsertOnly(writable.value, true));
    }
    var insert := CollectInsertAssignments(metadata, Assignment(Reference(pk), instance.key), writable.value);
    if o.forceInsert {
      return Success(InsertOnly(insert, false));
    }
    var update := UpdatePlan(writable.value, instance.key);
    if o.forceUpdate || o.maskSet {
      return Success(UpdateOnly(update, o.forceUpdate));
    }
    r := Success(UpdateOrInsert(update, insert));
  }

  // ---------------------------------------------------------------- the table

  /** A table of rows by key, and the next key the database generates. */
  datatype Stored = Stored(rows: map<int, Row>, next: int)

  predicate ValidStored(s: Stored) {
    forall k :: k in s.rows ==> k < s.next
  }

  function RowOf(assignments: seq<Assignment>): Row {
    if assignments == [] then map[]
    else
      var last := assignments[|assignments| - 1];
      RowOf(assignments[..|assignments| - 1])[last.field.column := last.value]
  }

  /** An update without assignments is no statement; otherwise the number of rows it affects. */
  function RunUpdate(s: Stored, update: UpdatePlan): Result<(Stored, nat), SaveError> {
    if update.assignments == [] || !update.key.IntegerValue? then Failure(BackendFailed)
    else
      var k := update.key.integer;
      if k in s.rows then Success((s.(rows := s.rows[k := s.rows[k] + RowOf(update.assignments)]), 1))
      else Success((s, 0))
  }

  /** An insert with an explicit key refuses a key in use; one without gets a key never used before. */
  function RunInsert(s: Stored, insert: seq<Assignment>, keyColumn: string): Result<(Stored, int), SaveError> {
    var row := RowOf(insert);
    if keyColumn in row then
      if !row[keyColumn].IntegerValue? then Failure(BackendFailed)
      else
        var k := row[keyColumn].integer;
        if k in s.rows then Failure(DuplicateKey)
        else Success((Stored(s.rows[k := row - {keyColumn}], if k < s.next then s.next else k + 1), k))
    else Success((Stored(s.rows[s.next := row], s.next + 1), s.next))
  }

  /** What a plan does when no call fails: the new table and the generated key to hand out, if any. */
  function RunPlan(s: Stored, plan: SavePlan, keyColumn: string): Result<(Stored, Option<int>), SaveError> {
    match plan
    case NoOp => Success((s, None))
    case InsertOnly(insert, assign) =>
      (match RunInsert(s, insert, keyColumn)
       case Failure(e) => Failure(e)
       case Success((t, id)) => Success((t, if assign then Some(id) else None)))
    case UpdateOnly(update, forced) =>
      (match RunUpdate(s, update)
       case Failure(e) => Failure(e)
       case Success((t, n)) => if n == 1 then Success((t, None)) else Failure(MissingRow(forced)))
    case UpdateOrInsert(update, insert) =>
      match RunUpdate(s, update)
      case Failure(e) => Failure(e)
      case Success((t, n)) =>
        if n == 1 then Success((t, None))
        else
          match RunInsert(t, insert, keyColumn)
          case Failure(e) => Failure(e)
          case Success((u, _)) => Success((u, None))
  }

  /** The backend of one table; each call may fail, and a failed call changes nothing. */
  class Store {
    const keyColumn: string
    const fails: nat -> bool
    var stored: Stored
    var calls: nat

    constructor (keyColumn: string, fails: nat -> bool, stored: Stored)
      ensures this.keyColumn == keyColumn && this.fails == fails && this.stored == stored && calls == 0
    {
      this.keyColumn, this.fails, this.stored, calls := keyColumn, fails, stored, 0;
    }

    method Update(update: UpdatePlan) returns (r: Result<nat, SaveError>)
      modifies this
      ensures calls == old(calls) + 1
      ensures fails(old(calls)) ==> r == Failure(BackendFailed) && stored == old(stored)
      ensures !fails(old(calls)) ==>
        match RunUpdate(old(stored), update)
        case Failure(e) => r == Failure(e) && stored == old(stored)
        case Success((t, n)) => r == Success(n) && stored == t
    {
      calls := calls + 1;
      if fails(calls - 1) {
        return Failure(BackendFailed);
      }
      match RunUpdate(stored, update) {
        case Failure(e) => r := Failure(e);
        case Success((t, n)) =>
          stored := t;
          r := Success(n);
      }
    }

    method Insert(insert: seq<Assignment>) returns (r: Result<int, SaveError>)
      modifies this
      ensures calls == old(calls) + 1
      ensures fails(old(calls)) ==> r == Failure(BackendFailed) && stored == old(stored)
      ensures !fails(old(calls)) ==>
        match RunInsert(old(stored), insert, keyColumn)
        case Failure(e) => r == Failure(e) && stored == old(stored)
        case Success((t, id)) => r == Success(id) && stored == t
    {
      calls := calls + 1;
      if fails(calls - 1) {
        return Failure(BackendFailed);
      }
      match RunInsert(stored, insert, keyColumn) {
        case Failure(e) => r := Failure(e);
        case Success((t, id)) =>
          stored := t;
          r := Success(id);
      }
    }
  }

  /** The caller's model, which a save may give its generated key. */
  class Holder {
    var instance: Instance

    constructor (instance: Instance)
      ensures this.instance == instance
    {
      this.instance := instance;
    }

    method SetPrimaryKey(id: int)
      modifies this
      ensures instance == Keyed(old(instance), id)
    {
      instance := instance.(key := IntegerValue(id), present := true);
    }
  }

  function Keyed(instance: Instance, id: int): Instance {
    instance.(key := IntegerValue(id), present := true)
  }

  /** Runs a plan: on success its whole effect, on failure none. */
  method ExecuteSavePlan(store: Store, holder: Holder, plan: SavePlan) returns (error: Option<SaveError>)
    modifies store, holder
    ensures plan.NoOp? <==> store.calls == old(store.calls)
    ensures plan.NoOp? ==> error.None?
    ensures error.Some? ==> store.stored == old(store.stored) && holder.instance == old(holder.instance)
    ensures error.None? ==>
      match RunPlan(old(store.stored), plan, store.keyColumn)
      case Failure(_) => false
      case Success((t, id)) =>
        && store.stored == t
        && holder.instance == if id.Some? then Keyed(old(holder.instance), id.value) else old(holder.instance)
    ensures (forall i: nat {:trigger store.fails(i)} :: !store.fails(i)) ==>
      match RunPlan(old(store.stored), plan, store.keyColumn)
      case Failure(e) => error == Some(e)
      case Success(_) => error.None?
  {
    hide RunUpdate, RunInsert;
    if plan.NoOp? {
      return None;
    }
    if plan.UpdateOnly? || plan.UpdateOrInsert? {
      RowCounts(store.stored, plan.update);
      var rows := store.Update(plan.update);
      if rows.Failure? {
        return Some(rows.error);
      }
      if rows.value == 1 {
        return None;
      }
      if plan.UpdateOnly? {
        return Some(MissingRow(plan.forced));
      }
    }
    var id := store.Insert(plan.insert);
    if id.Failure? {
      return Some(id.error);
    }
    if plan.InsertOnly? && plan.assignGeneratedKey {
      holder.SetPrimaryKey(id.value);
    }
    error := None;
  }

  lemma RowCounts(s: Stored, update: UpdatePlan)
    ensures RunUpdate(s, update).Success? ==>
      (RunUpdate(s, update).value.1 == 0 ==> RunUpdate(s, update).value.0 == s) && RunUpdate(s, update).value.1 <= 1
  {
  }

  // ---------------------------------------------------------------- what a save does to the rows

  /** A row after the fields were written: their columns hold the model's values, all others are as before. */
  ghost predicate Writes(before: Row, after: Row, instance: Instance, fields: seq<Field>) {
    && (forall f :: f in fields ==> Holds(after, instance, f))
    && (forall c :: (forall f :: f in fields ==> f.column != c) ==>
          (c in after <==> c in before) && (c in before && c in after ==> after[c] == before[c]))
  }

  predicate Holds(row: Row, instance: Instance, f: Field) {
    f.column in row && f.name in instance.values && row[f.column] == instance.values[f.name]
  }

  predicate ColumnsApart(fields: seq<Field>) {
    forall i, j :: 0 <= i < j < |fields| ==> fields[i].column != fields[j].column
  }

  lemma {:induction false} RowHolds(instance: Instance, fields: seq<Field>)
    requires AllWritable(instance, fields) && ColumnsApart(fields)
    ensures forall f :: f in fields ==> Holds(RowOf(Assignments(instance, fields)), instance, f)
    ensures forall c :: c in RowOf(Assignments(instance, fields)) ==> exists f :: f in fields && f.column == c
    decreases |fields|
  {
    if fields != [] {
      var n := |fields| - 1;
      var front, last := fields[..n], fields[n];
      RowHolds(instance, front);
      assert Writable(instance, last);
      assert Assignments(instance, fields)[..n] == Assignments(instance, front);
      assert forall f :: f in fields <==> f in front || f == last;
      assert last in fields;
      assert forall i :: 0 <= i < n ==> front[i].column != last.column;
    }
  }

  lemma OverlayWrites(before: Row, instance: Instance, fields: seq<Field>)
    requires AllWritable(instance, fields) && ColumnsApart(fields)
    ensures Writes(before, before + RowOf(Assignments(instance, fields)), instance, fields)
  {
    RowHolds(instance, fields);
    hide RowOf, AllWritable, ColumnsApart;
  }

  lemma ApartLast(less: seq<Field>, last: Field)
    requires ColumnsApart(less) && forall i :: 0 <= i < |less| ==> less[i].column != last.column
    ensures ColumnsApart(less + [last])
  {
  }

  lemma LastApart(fields: seq<Field>, f: Field)
    requires ValidFields(fields) && fields != [] && f in fields[..|fields| - 1]
    ensures f.column != fields[|fields| - 1].column
  {
  }

  lemma {:induction false} NonPrimaryApart(fields: seq<Field>)
    requires ValidFields(fields)
    ensures ColumnsApart(NonPrimary(fields))
    decreases |fields|
  {
    hide ValidFields, ColumnsApart;
    if fields == [] {
      NoColumns();
    } else {
      var n := |fields| - 1;
      var less, last := NonPrimary(fields[..n]), fields[n];
      FieldsPrefix(fields, n);
      NonPrimaryApart(fields[..n]);
      forall i | 0 <= i < |less| ensures less[i].column != last.column {
        assert less[i] in fields[..n];
        LastApart(fields, less[i]);
      }
      ApartLast(less, last);
      assert less + [] == less;
    }
  }

  lemma NoColumns()
    ensures ColumnsApart([])
  {
  }

  lemma {:induction false} FieldsInApart(fields: seq<Field>, names: set<string>)
    requires ValidFields(fields)
    ensures ColumnsApart(FieldsIn(fields, names))
    decreases |fields|
  {
    hide ValidFields, ColumnsApart;
    if fields == [] {
      NoColumns();
    } else {
      var n := |fields| - 1;
      var less, last := FieldsIn(fields[..n], names), fields[n];
      FieldsPrefix(fields, n);
      FieldsInApart(fields[..n], names);
      forall i | 0 <= i < |less| ensures less[i].column != last.column {
        assert less[i] in fields[..n];
        LastApart(fields, less[i]);
      }
      ApartLast(less, last);
      assert less + [] == less;
    }
  }

  lemma WrittenApart(metadata: Model, o: OptionValues)
    requires ValidModel(metadata)
    ensures ColumnsApart(Written(metadata, o))
  {
    hide ColumnsApart, ValidFields, FieldsIn, NonPrimary, Selections;
    FieldsInApart(metadata.fields, SelectedNames(Selections(metadata.fields, o)));
    NonPrimaryApart(metadata.fields);
  }

  lemma {:induction false} AssignmentFound(instance: Instance, fields: seq<Field>, all: seq<Field>, f: Field)
    requires ValidFields(all) && (forall g :: g in fields ==> g in all) && f in fields && AllWritable(instance, fields)
    ensures Writable(instance, f)
    ensures AssignmentFor(Assignments(instance, fields), Reference(f)) == Some(AssignmentOf(instance, f))
    decreases |fields|
  {
    hide ValidFields, MutationValueMatches;
    assert Writable(instance, f);
    assert Writable(instance, fields[0]);
    assert Assignments(instance, fields)[1..] == Assignments(instance, fields[1..]);
    if Reference(fields[0]) == Reference(f) {
      SameName(all, fields[0], f);
    } else {
      AssignmentFound(instance, fields[1..], all, f);
    }
  }

  lemma KeyApart(fields: seq<Field>, pk: Field, f: Field)
    requires ValidFields(fields) && pk in fields && f in fields && pk.primaryKey && !f.primaryKey
    ensures f.column != pk.column
  {
  }

  ghost predicate HasKey(fields: seq<Field>) {
    exists i :: 0 <= i < |fields| && fields[i].primaryKey
  }

  lemma PrefixWritable(fields: seq<Field>, instance: Instance, n: nat)
    requires n <= |fields| && AllWritable(instance, NonPrimary(fields))
    ensures AllWritable(instance, NonPrimary(fields[..n]))
  {
  }

  lemma NonPrimaryNextRow(fields: seq<Field>, instance: Instance, n: nat)
    requires n < |fields| && AllWritable(instance, NonPrimary(fields)) && !fields[n].primaryKey
    ensures AllWritable(instance, NonPrimary(fields[..n])) && AllWritable(instance, NonPrimary(fields[..n + 1]))
    ensures Writable(instance, fields[n])
    ensures RowOf(Assignments(instance, NonPrimary(fields[..n + 1]))) ==
      RowOf(Assignments(instance, NonPrimary(fields[..n])))[fields[n].column := instance.values[fields[n].name]]
  {
    hide *;
    PrefixWritable(fields, instance, n);
    PrefixWritable(fields, instance, n + 1);
    NonPrimaryNext(fields, n);
    AppendedRow(instance, NonPrimary(fields[..n]), fields[n]);
  }

  lemma AppendedRow(instance: Instance, less: seq<Field>, f: Field)
    requires AllWritable(instance, less) && AllWritable(instance, less + [f])
    ensures Writable(instance, f)
    ensures RowOf(Assignments(instance, less + [f])) == RowOf(Assignments(instance, less))[f.column := instance.values[f.name]]
  {
    hide MutationValueMatches, RowOf;
    assert (less + [f])[|less|] == f;
    assert Assignments(instance, less + [f]) == Assignments(instance, less) + [AssignmentOf(instance, f)];
    RowNext(Assignments(instance, less), AssignmentOf(instance, f));
  }

  lemma InsertNext(fields: seq<Field>, n: nat, key: Assignment, writable: seq<Assignment>)
    requires n < |fields|
    ensures InsertAssignments(fields[..n + 1], key, writable) == InsertAssignments(fields[..n], key, writable) +
      if fields[n].primaryKey then [key]
      else if AssignmentFor(writable, Reference(fields[n])).Some? then [AssignmentFor(writable, Reference(fields[n])).value]
      else []
  {
    assert fields[..n + 1][..n] == fields[..n];
  }

  /** The explicit-key insert writes the key next to the other values. */
  lemma {:induction false} InsertRow(fields: seq<Field>, pk: Field, instance: Instance, n: nat)
    requires ValidFields(fields) && pk in fields && pk.primaryKey && n <= |fields|
    requires AllWritable(instance, NonPrimary(fields))
    ensures AllWritable(instance, NonPrimary(fields[..n]))
    ensures var key := Assignment(Reference(pk), instance.key);
      var row := RowOf(InsertAssignments(fields[..n], key, Assignments(instance, NonPrimary(fields))));
      var rest := RowOf(Assignments(instance, NonPrimary(fields[..n])));
      row == if HasKey(fields[..n]) then rest[pk.column := instance.key] else rest
    decreases n
  {
    hide ValidFields, AssignmentFor, MutationValueMatches, NonPrimary, InsertAssignments, RowOf, HasKey, AllWritable;
    PrefixWritable(fields, instance, n);
    var key, w := Assignment(Reference(pk), instance.key), Assignments(instance, NonPrimary(fields));
    if n == 0 {
      EmptyRows(fields, instance, key, w);
    } else {
      var f := fields[n - 1];
      InsertRow(fields, pk, instance, n - 1);
      HasKeyNext(fields, n - 1);
      InsertNext(fields, n - 1, key, w);
      var before := InsertAssignments(fields[..n - 1], key, w);
      if f.primaryKey {
        RowNext(before, key);
        NonPrimaryNext(fields, n - 1);
        assert NonPrimary(fields[..n - 1]) + [] == NonPrimary(fields[..n - 1]);
      } else {
        NonPrimaryNextRow(fields, instance, n - 1);
        assert f in NonPrimary(fields);
        AssignmentFound(instance, NonPrimary(fields), fields, f);
        KeyApart(fields, pk, f);
        RowNext(before, AssignmentOf(instance, f));
      }
    }
  }

  lemma EmptyRows(fields: seq<Field>, instance: Instance, key: Assignment, w: seq<Assignment>)
    ensures InsertAssignments(fields[..0], key, w) == [] && NonPrimary(fields[..0]) == [] && !HasKey(fields[..0])
    ensures RowOf([]) == map[]
  {
  }

  lemma HasKeyNext(fields: seq<Field>, n: nat)
    requires n < |fields|
    ensures HasKey(fields[..n + 1]) <==> HasKey(fields[..n]) || fields[n].primaryKey
  {
  }

  lemma RowNext(assignments: seq<Assignment>, last: Assignment)
    ensures RowOf(assignments + [last]) == RowOf(assignments)[last.field.column := last.value]
  {
  }

  /** The table after one row was written; every other row is as before. */
  ghost predicate RowWritten(s: Stored, t: Stored, k: int, before: Row, instance: Instance, fields: seq<Field>) {
    && t.rows.Keys == s.rows.Keys + {k}
    && (forall j :: j in s.rows && j != k ==> t.rows[j] == s.rows[j])
    && Writes(before, t.rows[k], instance, fields)
  }

  ghost predicate Saveable(metadata: Model, pk: Field, instance: Instance, options: seq<SaveOption>, plan: SavePlan) {
    && ValidModel(metadata) && pk in metadata.fields && pk.primaryKey && instance.key.IntegerValue?
    && SaveRefused(metadata, pk, instance, options).None? && PlanFor(metadata, pk, instance, options, plan)
  }

  // ---------------------------------------------------------------- what a mask selects

  /** Whether an option of a save names a field: by its reference or by its name. */
  predicate Names(option: SaveOption, f: Field) {
    match option
    case TypedFields(fields) => Bound(Reference(f)) in fields
    case DynamicFields(names) => f.name in names
    case _ => false
  }

  ghost predicate Selected(options: seq<SaveOption>, f: Field) {
    exists option :: option in options && Names(option, f)
  }

  predicate EmptyMask(options: seq<SaveOption>) {
    TypedFields([]) in options || DynamicFields([]) in options
  }

  /** The fields a save writes, from its options alone: those a given mask names, or all but the key. */
  ghost predicate Chosen(metadata: Model, options: seq<SaveOption>, fields: seq<Field>) {
    forall f :: f in fields <==>
      f in metadata.fields && if Given(options, IsMask) then Selected(options, f) else !f.primaryKey
  }

  lemma MaskOption(options: seq<SaveOption>) returns (option: SaveOption)
    requires Given(options, IsMask)
    ensures option in options && IsMask(option)
  {
    var i :| 0 <= i < |options| && IsMask(options[i]);
    option := options[i];
  }

  lemma OptionsFolded(options: seq<SaveOption>)
    requires OptionsError(options).None?
    ensures var o := Folded(options); o.err.None? && (o.maskSet <==> Given(options, IsMask)) && MaskCollected(options, o)
  {
    FoldedMeaning(options);
    FoldedMask(options);
  }

  /** Without an error only one mask is given, so naming a field is being in the collected mask. */
  lemma CollectedNames(options: seq<SaveOption>, f: Field)
    requires OptionsError(options).None? && Given(options, IsMask)
    ensures var o := Folded(options); Selected(options, f) <==> Bound(Reference(f)) in o.typed || f.name in o.names
    ensures var o := Folded(options); EmptyMask(options) <==> o.typed == [] && o.names == []
  {
    OptionsFolded(options);
    hide Folded, OptionsError, Given;
    var option := MaskOption(options);
    assert Names(option, f) ==> Selected(options, f);
  }

  lemma SelectionOf(metadata: Model, o: OptionValues, f: Field)
    requires ValidModel(metadata) && f in metadata.fields && FirstFailure(Selections(metadata.fields, o)).None?
    ensures f.name in SelectedNames(Selections(metadata.fields, o)) <==> Bound(Reference(f)) in o.typed || f.name in o.names
  {
    hide ValidNames, ValidField, PrimaryKeys, FirstFailure;
    var selections := Selections(metadata.fields, o);
    AllSelected(selections);
    if f.name in SelectedNames(selections) {
      var i :| 0 <= i < |selections| && selections[i].Success? && selections[i].value == f.name;
      SelectionNames(metadata, o, i, f);
    }
    if Bound(Reference(f)) in o.typed {
      var i :| 0 <= i < |o.typed| && o.typed[i] == Bound(Reference(f));
      FoundByIn(metadata.fields, Reference(f));
      assert selections[i].Success? && selections[i].value == f.name;
    }
    if f.name in o.names {
      var i :| 0 <= i < |o.names| && o.names[i] == f.name;
      FoundNamedIn(metadata.fields, f.name);
      assert selections[|o.typed| + i].Success? && selections[|o.typed| + i].value == f.name;
    }
  }

  lemma SelectionNames(metadata: Model, o: OptionValues, i: nat, f: Field)
    requires ValidModel(metadata) && f in metadata.fields && i < |o.typed| + |o.names|
    requires Selections(metadata.fields, o)[i] == Success(f.name)
    ensures Bound(Reference(f)) in o.typed || f.name in o.names
  {
    if i < |o.typed| {
      FoundByIn(metadata.fields, o.typed[i].reference);
      var g := FieldBy(metadata.fields, o.typed[i].reference).value;
      hide ValidFields;
      SameName(metadata.fields, f, g);
      assert o.typed[i] == Bound(Reference(f));
    } else {
      FoundNamedIn(metadata.fields, o.names[i - |o.typed|]);
    }
  }

  lemma {:induction false} AllSelected(selections: seq<Result<string, SaveError>>)
    requires FirstFailure(selections).None?
    ensures forall i :: 0 <= i < |selections| ==> selections[i].Success?
    decreases |selections|
  {
    if selections != [] {
      AllSelected(selections[1..]);
      assert forall i :: 1 <= i < |selections| ==> selections[i] == selections[1..][i - 1];
    }
  }

  /** A save that is not refused writes exactly the fields its options choose, and none exactly if its mask is empty. */
  lemma WrittenChosen(metadata: Model, options: seq<SaveOption>)
    requires ValidModel(metadata) && OptionsError(options).None?
    requires Given(options, IsMask) ==> FirstFailure(Selections(metadata.fields, Folded(options))).None?
    ensures Chosen(metadata, options, Written(metadata, Folded(options)))
    ensures Given(options, IsMask) ==> (Written(metadata, Folded(options)) == [] <==> EmptyMask(options))
  {
    hide ValidModel, Given, Folded, OptionsError, FirstFailure, FieldsIn, NonPrimary, Selections, SelectedNames;
    var o := Folded(options);
    OptionsFolded(options);
    if Given(options, IsMask) {
      forall f | f in metadata.fields
        ensures f.name in SelectedNames(Selections(metadata.fields, o)) <==> Selected(options, f) {
        SelectionOf(metadata, o, f);
        CollectedNames(options, f);
      }
      CollectedNames(options, IMPLICIT_ID);
      hide Selected;
      MaskSelects(metadata, o);
    }
  }

  /** A mask with an entry selects a field. */
  lemma MaskSelects(metadata: Model, o: OptionValues)
    requires FirstFailure(Selections(metadata.fields, o)).None?
    ensures var fields := FieldsIn(metadata.fields, SelectedNames(Selections(metadata.fields, o)));
      fields == [] <==> o.typed == [] && o.names == []
  {
    hide FirstFailure;
    var selections := Selections(metadata.fields, o);
    var fields := FieldsIn(metadata.fields, SelectedNames(selections));
    AllSelected(selections);
    if selections != [] {
      var g := SelectedField(metadata, o, 0);
      assert g in fields;
    } else {
      NoneNamed(metadata.fields);
      assert SelectedNames(selections) == {};
    }
  }

  lemma {:induction false} NoneNamed(fields: seq<Field>)
    ensures FieldsIn(fields, {}) == []
    decreases |fields|
  {
    if fields != [] {
      NoneNamed(fields[..|fields| - 1]);
    }
  }

  /** Why a mask entry is refused: no field has that reference or name, or the field is the key. */
  lemma EntryRefused(metadata: Model, o: OptionValues, i: nat)
    requires ValidModel(metadata) && i < |o.typed| + |o.names|
    ensures var r := Selections(metadata.fields, o)[i];
      if i < |o.typed| then
        match o.typed[i]
        case NilField => r == Failure(UnknownField(""))
        case FailingField => r == Failure(FieldFailed)
        case Bound(reference) =>
          && (r == Failure(UnknownField(reference.name)) <==> forall f :: f in metadata.fields ==> Reference(f) != reference)
          && (forall f :: f in metadata.fields && Reference(f) == reference ==>
                r == if f.primaryKey then Failure(KeyInMask(f.name)) else Success(f.name))
      else
        var name := o.names[i - |o.typed|];
        && (r == Failure(UnknownField(name)) <==> forall f :: f in metadata.fields ==> f.name != name)
        && (forall f :: f in metadata.fields && f.name == name ==>
              r == if f.primaryKey then Failure(KeyInMask(f.name)) else Success(f.name))
  {
    hide ValidNames, ValidField, PrimaryKeys;
    if i < |o.typed| {
      if o.typed[i].Bound? {
        FoundByIn(metadata.fields, o.typed[i].reference);
        MissingBy(metadata.fields, o.typed[i].reference);
      }
    } else {
      FoundNamedIn(metadata.fields, o.names[i - |o.typed|]);
      MissingNamed(metadata.fields, o.names[i - |o.typed|]);
    }
  }

  lemma {:induction false} MissingBy(fields: seq<Field>, reference: FieldRef)
    ensures FieldBy(fields, reference).None? ==> forall f :: f in fields ==> Reference(f) != reference
    decreases |fields|
  {
    if fields != [] { MissingBy(fields[1..], reference); }
  }

  lemma {:induction false} MissingNamed(fields: seq<Field>, name: string)
    ensures FieldNamed(fields, name).None? ==> forall f :: f in fields ==> f.name != name
    decreases |fields|
  {
    if fields != [] { MissingNamed(fields[1..], name); }
  }

  // ---------------------------------------------------------------- which saves are refused

  ghost predicate TypedFits(metadata: Model, typed: Typed) {
    typed.Bound? && exists f :: f in metadata.fields && Reference(f) == typed.reference && !f.primaryKey
  }

  ghost predicate NameFits(metadata: Model, name: string) {
    exists f :: f in metadata.fields && f.name == name && !f.primaryKey
  }

  /** Every entry of a mask names a field that is not the key. */
  ghost predicate EntriesFit(metadata: Model, options: seq<SaveOption>) {
    forall option :: option in options ==>
      && (option.TypedFields? ==> forall typed :: typed in option.fields ==> TypedFits(metadata, typed))
      && (option.DynamicFields? ==> forall name :: name in option.names ==> NameFits(metadata, name))
  }

  lemma EntryFits(metadata: Model, o: OptionValues, i: nat)
    requires ValidModel(metadata) && i < |o.typed| + |o.names|
    ensures Selections(metadata.fields, o)[i].Success? <==>
      if i < |o.typed| then TypedFits(metadata, o.typed[i]) else NameFits(metadata, o.names[i - |o.typed|])
  {
    EntryRefused(metadata, o, i);
    hide ValidFields, PrimaryKeys, FieldBy, FieldNamed;
    if Selections(metadata.fields, o)[i].Success? {
      var g := SelectedField(metadata, o, i);
    }
  }

  lemma EntriesAccepted(metadata: Model, options: seq<SaveOption>)
    requires ValidModel(metadata) && OptionsError(options).None? && Given(options, IsMask)
    ensures FirstFailure(Selections(metadata.fields, Folded(options))).None? <==> EntriesFit(metadata, options)
  {
    OptionsFolded(options);
    hide Folded, OptionsError, Given, FirstFailure, ValidModel, TypedFits, NameFits;
    var o, selections := Folded(options), Selections(metadata.fields, Folded(options));
    var option := MaskOption(options);
    forall i | 0 <= i < |selections|
      ensures selections[i].Success? <==>
        if i < |o.typed| then TypedFits(metadata, o.typed[i]) else NameFits(metadata, o.names[i - |o.typed|]) {
      EntryFits(metadata, o, i);
    }
    if FirstFailure(selections).None? {
      AllSelected(selections);
      forall typed | typed in o.typed ensures TypedFits(metadata, typed) {
        var i :| 0 <= i < |o.typed| && o.typed[i] == typed;
        assert selections[i].Success?;
      }
      forall name | name in o.names ensures NameFits(metadata, name) {
        var i :| 0 <= i < |o.names| && o.names[i] == name;
        assert selections[|o.typed| + i].Success?;
      }
    }
    if EntriesFit(metadata, options) {
      NoFailure(selections);
    }
  }

  /** Every field the options choose has a value that can be written. */
  ghost predicate ChosenWritable(metadata: Model, instance: Instance, options: seq<SaveOption>) {
    forall f :: f in metadata.fields && (if Given(options, IsMask) then Selected(options, f) else !f.primaryKey) ==>
      Writable(instance, f)
  }

  lemma WritableChosen(metadata: Model, instance: Instance, options: seq<SaveOption>, fields: seq<Field>)
    requires Chosen(metadata, options, fields)
    ensures AllWritable(instance, fields) <==> ChosenWritable(metadata, instance, options)
  {
    hide Writable, Selected, Given;
    if AllWritable(instance, fields) {
      forall f | f in fields ensures Writable(instance, f) {
        var i :| 0 <= i < |fields| && fields[i] == f;
      }
    }
  }

  lemma NoEntries(metadata: Model, options: seq<SaveOption>)
    requires !Given(options, IsMask)
    ensures EntriesFit(metadata, options)
  {
    MaskGiven(options);
    hide Given;
    assert forall option :: option in options ==> !IsMask(option);
  }

  /** The reasons to refuse a save, in the order they are checked; an empty mask ends the checks after the fourth. */
  ghost predicate Reason(metadata: Model, pk: Field, instance: Instance, options: seq<SaveOption>, i: nat) {
    match i
    case 0 => ZeroOption in options
    case 1 => exists k: nat, e :: FirstFault(options, k, e)
    case 2 => Given(options, IsForceInsert) && Given(options, IsForceUpdate)
    case 3 => !EntriesFit(metadata, options)
    case 4 => !EmptyMask(options) && Given(options, IsMask) && Given(options, IsForceInsert)
    case 5 => !EmptyMask(options) && (instance.key.NullValue? || !MutationValueMatches(pk, instance.key))
    case 6 => !EmptyMask(options) && !instance.present && instance.key.IntegerValue? && instance.key.integer != 0
    case 7 => !EmptyMask(options) && !ChosenWritable(metadata, instance, options)
    case 8 => !EmptyMask(options) && !instance.present && (Given(options, IsMask) || Given(options, IsForceUpdate))
    case _ => false
  }

  /** The reason an error stands for. */
  function ReasonOf(e: SaveError): nat {
    match e
    case ZeroOptionGiven => 0
    case ExclusiveForce => 2
    case UnknownField(_) => 3
    case KeyInMask(_) => 3
    case FieldFailed => 3
    case ForceInsertWithMask => 4
    case InvalidKey => 5
    case KeyWithoutPresence => 6
    case InvalidValue(_) => 7
    case UpdateWithoutKey => 8
    case _ => 1
  }

  /** A save is refused for the first reason there is, and accepted if there is none. */
  lemma RefusedInOrder(metadata: Model, pk: Field, instance: Instance, options: seq<SaveOption>)
    requires ValidModel(metadata)
    ensures var refused := SaveRefused(metadata, pk, instance, options);
      && (refused.None? ==> forall i: nat :: !Reason(metadata, pk, instance, options, i))
      && (refused.Some? ==>
            && Reason(metadata, pk, instance, options, ReasonOf(refused.value))
            && (forall i :: 0 <= i < ReasonOf(refused.value) ==> !Reason(metadata, pk, instance, options, i))
            && (ReasonOf(refused.value) == 1 ==> exists k: nat :: FirstFault(options, k, refused.value)))
  {
    FoldedMeaning(options);
    FoldedFault(options);
    FaultlessOptions(options);
    OptionErrorKinds(options);
    MaskNotGiven(options);
    hide ValidModel, Given, Folded, FirstFailure, FieldsIn, NonPrimary, Selections, SelectedNames;
    hide Writable, MutationValueMatches, Selected, EntriesFit, UnwritableName, EmptyMask, FirstFault;
    if OptionsError(options).None? {
      if Given(options, IsMask) {
        EntriesAccepted(metadata, options);
        EntryErrorKinds(metadata, options);
      } else {
        NoEntries(metadata, options);
      }
      if Given(options, IsMask) ==> FirstFailure(Selections(metadata.fields, Folded(options))).None? {
        WrittenChosen(metadata, options);
        WritableChosen(metadata, instance, options, Written(metadata, Folded(options)));
      }
    }
  }

  lemma FaultlessOptions(options: seq<SaveOption>)
    ensures (exists k: nat, e :: FirstFault(options, k, e)) <==> Folded(options).err.Some?
  {
    FoldedFault(options);
    hide Folded, Fault;
  }

  lemma OptionErrorKinds(options: seq<SaveOption>)
    ensures OptionsError(options).Some? ==>
      match OptionsError(options).value
      case ZeroOptionGiven => ZeroOption in options
      case ExclusiveForce => Folded(options).err.None? && Folded(options).forceInsert && Folded(options).forceUpdate
      case UnknownOptionGiven => Folded(options).err == OptionsError(options)
      case RepeatedMask => Folded(options).err == OptionsError(options)
      case RepeatedForceInsert => Folded(options).err == OptionsError(options)
      case RepeatedForceUpdate => Folded(options).err == OptionsError(options)
      case _ => false
  {
    FoldedFault(options);
    hide Folded;
    if Folded(options).err.Some? {
      var i: nat :| FirstFault(options, i, Folded(options).err.value);
    }
  }

  lemma EntryErrorKinds(metadata: Model, options: seq<SaveOption>)
    ensures var e := FirstFailure(Selections(metadata.fields, Folded(options)));
      e.Some? ==> e.value.UnknownField? || e.value.KeyInMask? || e.value.FieldFailed?
  {
    hide Folded;
    FailureKinds(Selections(metadata.fields, Folded(options)));
  }

  lemma {:induction false} FailureKinds(selections: seq<Result<string, SaveError>>)
    requires forall i :: 0 <= i < |selections| && selections[i].Failure? ==>
      selections[i].error.UnknownField? || selections[i].error.KeyInMask? || selections[i].error.FieldFailed?
    ensures var e := FirstFailure(selections); e.Some? ==> e.value.UnknownField? || e.value.KeyInMask? || e.value.FieldFailed?
    decreases |selections|
  {
    if selections != [] {
      FailureKinds(selections[1..]);
    }
  }

  lemma UpdateWrites(s: Stored, instance: Instance, fields: seq<Field>)
    requires AllWritable(instance, fields) && ColumnsApart(fields) && instance.key.IntegerValue?
    ensures var k, r := instance.key.integer, RunUpdate(s, UpdateOf(instance, fields));
      if fields == [] then r == Failure(BackendFailed)
      else if k in s.rows then r.Success? && r.value.1 == 1 && RowWritten(s, r.value.0, k, s.rows[k], instance, fields)
      else r == Success((s, 0))
  {
    hide AllWritable, ColumnsApart, RowOf, Writes;
    var k := instance.key.integer;
    if fields != [] && k in s.rows {
      OverlayWrites(s.rows[k], instance, fields);
    }
  }

  lemma FreshRowWrites(instance: Instance, fields: seq<Field>)
    requires AllWritable(instance, fields) && ColumnsApart(fields)
    ensures Writes(map[], RowOf(Assignments(instance, fields)), instance, fields)
  {
    hide AllWritable, ColumnsApart, RowOf;
    OverlayWrites(map[], instance, fields);
    var row: Row := map[];
    assert row + RowOf(Assignments(instance, fields)) == RowOf(Assignments(instance, fields));
  }

  lemma KeyNotWritten(metadata: Model, pk: Field, instance: Instance)
    requires ValidModel(metadata) && pk in metadata.fields && pk.primaryKey && AllWritable(instance, NonPrimary(metadata.fields))
    ensures pk.column !in RowOf(Assignments(instance, NonPrimary(metadata.fields)))
  {
    NonPrimaryApart(metadata.fields);
    hide ValidFields, RowOf, PrimaryKeys, AllWritable, ColumnsApart;
    var fields := NonPrimary(metadata.fields);
    RowHolds(instance, fields);
    forall f | f in fields ensures f.column != pk.column {
      KeyApart(metadata.fields, pk, f);
    }
  }

  /** An insert with the model's key: refused if the key is in use, else exactly that row is added. */
  lemma KeyedInsertWrites(s: Stored, metadata: Model, pk: Field, instance: Instance)
    requires ValidModel(metadata) && pk in metadata.fields && pk.primaryKey && instance.key.IntegerValue?
    requires AllWritable(instance, NonPrimary(metadata.fields))
    ensures var fields := NonPrimary(metadata.fields);
      var k, r := instance.key.integer, RunInsert(s, InsertOf(metadata, pk, instance, fields), pk.column);
      if k in s.rows then r == Failure(DuplicateKey)
      else r.Success? && RowWritten(s, r.value.0, k, map[], instance, fields)
  {
    hide ValidFields, RowOf, PrimaryKeys, AllWritable, ColumnsApart, InsertAssignments, Writes, NonPrimary, HasKey;
    var fields := NonPrimary(metadata.fields);
    var row := RowOf(Assignments(instance, fields));
    assert metadata.fields[..|metadata.fields|] == metadata.fields;
    InsertRow(metadata.fields, pk, instance, |metadata.fields|);
    KeyPresent(metadata.fields, pk);
    KeyNotWritten(metadata, pk, instance);
    NonPrimaryApart(metadata.fields);
    FreshRowWrites(instance, fields);
    assert row[pk.column := instance.key] - {pk.column} == row;
  }

  lemma KeyPresent(fields: seq<Field>, pk: Field)
    requires pk in fields && pk.primaryKey
    ensures HasKey(fields)
  {
  }

  /** An insert without a key adds exactly one row, under a key that was not in use. */
  lemma GeneratedInsertWrites(s: Stored, metadata: Model, pk: Field, instance: Instance)
    requires ValidModel(metadata) && pk in metadata.fields && pk.primaryKey && ValidStored(s)
    requires AllWritable(instance, NonPrimary(metadata.fields))
    ensures var fields := NonPrimary(metadata.fields);
      var r := RunInsert(s, Assignments(instance, fields), pk.column);
      && r.Success? && r.value.1 !in s.rows && ValidStored(r.value.0)
      && RowWritten(s, r.value.0, r.value.1, map[], instance, fields)
  {
    hide ValidModel, RowOf, AllWritable, ColumnsApart, Writes, NonPrimary;
    var fields := NonPrimary(metadata.fields);
    KeyNotWritten(metadata, pk, instance);
    ModelFields(metadata);
    NonPrimaryApart(metadata.fields);
    FreshRowWrites(instance, fields);
  }

  lemma ModelFields(m: Model)
    requires ValidModel(m)
    ensures ValidFields(m.fields)
  {
  }

  /** Nothing is planned exactly if the save is given an empty mask. */
  lemma NothingPlanned(metadata: Model, pk: Field, instance: Instance, options: seq<SaveOption>, plan: SavePlan)
    requires ValidModel(metadata) && SaveRefused(metadata, pk, instance, options).None?
    requires PlanFor(metadata, pk, instance, options, plan)
    ensures plan.NoOp? <==> EmptyMask(options)
  {
    FoldedMeaning(options);
    WrittenChosen(metadata, options);
    hide ValidModel, NonPrimary, Given, AllWritable, Folded, FieldsIn, FirstFailure, Selections, OptionsError, Chosen, InsertAssignments;
    MaskNotGiven(options);
  }

  lemma MaskNotGiven(options: seq<SaveOption>)
    ensures EmptyMask(options) ==> Given(options, IsMask)
  {
    MaskGiven(options);
  }

  function CellOf(value: Value): Databases.Cell {
    match value
    case IntegerValue(i) => Databases.IntegerCell(i)
    case StringValue(text) => Databases.TextCell(text)
    case BooleanValue(b) => Databases.BooleanCell(b)
    case _ => Databases.NullCell
  }

  /** A save accepts exactly the values of a field, except that it does not check a text's length. */
  lemma ValueAdmitted(f: Field, value: Value)
    requires ValidField(f)
    ensures MutationValueMatches(f, value) <==>
      !value.UnknownValue? && exists n :: Databases.Admits(f.(maxLength := n), CellOf(value))
    ensures ValueMatches(value, KindOf(f.kind)) <==> MutationValueMatches(f, value) && !value.NullValue?
  {
    var n := if value.StringValue? then |value.text| else 0;
    assert Databases.Admits(f.(maxLength := n), CellOf(value)) <==>
      exists n :: Databases.Admits(f.(maxLength := n), CellOf(value));
  }

  /**
   * A default save of a model with a key is an upsert of that row and nothing else, exactly when the model has a field
   * besides its key; without one it always fails.
   */
  lemma DefaultSaveUpserts(
      s: Stored, metadata: Model, pk: Field, instance: Instance, options: seq<SaveOption>, plan: SavePlan)
    requires Saveable(metadata, pk, instance, options, plan) && instance.present
    requires !Given(options, IsMask) && !Given(options, IsForceInsert) && !Given(options, IsForceUpdate)
    ensures var r, k, fields := RunPlan(s, plan, pk.column), instance.key.integer, NonPrimary(metadata.fields);
      && (r.Success? <==> fields != [])
      && (r.Success? ==>
            r.value.1.None? && RowWritten(s, r.value.0, k, if k in s.rows then s.rows[k] else map[], instance, fields))
  {
    hide ValidModel, RunUpdate, RunInsert, RowWritten, NonPrimary, Given, ColumnsApart, AllWritable, Folded, OptionsError, FieldsIn, InsertAssignments;
    FoldedMeaning(options);
    WrittenApart(metadata, Folded(options));
    UpdateWrites(s, instance, NonPrimary(metadata.fields));
    KeyedInsertWrites(s, metadata, pk, instance);
  }

  const KEY_ONLY := Model("note", "Note", "notes", [IMPLICIT_ID])

  /** The failing input of default saves: a model with nothing but its key, whatever the table holds. */
  lemma KeyOnlySaveFails(s: Stored)
    ensures var instance := Instance(IntegerValue(1), true, map[]);
      exists plan ::
        Saveable(KEY_ONLY, IMPLICIT_ID, instance, [], plan) && RunPlan(s, plan, IMPLICIT_ID.column).Failure?
  {
    var instance := Instance(IntegerValue(1), true, map[]);
    var update := UpdateOf(instance, []);
    var plan := UpdateOrInsert(update, InsertOf(KEY_ONLY, IMPLICIT_ID, instance, []));
    assert KEY_ONLY.fields[..0] == [] && NonPrimary(KEY_ONLY.fields) == [];
    assert ValidModel(KEY_ONLY);
    assert Saveable(KEY_ONLY, IMPLICIT_ID, instance, [], plan);
  }

  /** A forced insert with a key adds that row, exactly when the key is not in use. */
  lemma ForcedInsertAdds(
      s: Stored, metadata: Model, pk: Field, instance: Instance, options: seq<SaveOption>, plan: SavePlan)
    requires Saveable(metadata, pk, instance, options, plan) && instance.present && !plan.NoOp?
    requires Given(options, IsForceInsert)
    ensures var r, k, fields := RunPlan(s, plan, pk.column), instance.key.integer, NonPrimary(metadata.fields);
      && (r.Success? <==> k !in s.rows)
      && (r.Success? ==> r.value.1.None? && RowWritten(s, r.value.0, k, map[], instance, fields))
  {
    hide ValidModel, RunUpdate, RunInsert, RowWritten, NonPrimary, Given, ColumnsApart, AllWritable, Folded, OptionsError, FieldsIn, InsertAssignments;
    FoldedMeaning(options);
    KeyedInsertWrites(s, metadata, pk, instance);
  }

  /** A masked or forced update changes exactly the selected columns of its row, if the row is there and any is selected. */
  lemma UpdateChangesSelected(
      s: Stored, metadata: Model, pk: Field, instance: Instance, options: seq<SaveOption>, plan: SavePlan)
    requires Saveable(metadata, pk, instance, options, plan) && instance.present && !plan.NoOp?
    requires Given(options, IsMask) || Given(options, IsForceUpdate)
    ensures var r, k := RunPlan(s, plan, pk.column), instance.key.integer;
      exists fields ::
        && Chosen(metadata, options, fields)
        && (r.Success? <==> fields != [] && k in s.rows)
        && (r.Success? ==> r.value.1.None? && RowWritten(s, r.value.0, k, s.rows[k], instance, fields))
        && (r.Failure? && fields != [] ==> r.error == MissingRow(Given(options, IsForceUpdate)))
  {
    FoldedMeaning(options);
    WrittenChosen(metadata, options);
    hide ValidModel, RunUpdate, RunInsert, RowWritten, NonPrimary, Given, ColumnsApart, AllWritable, Folded, FieldsIn, InsertAssignments;
    hide Chosen, FirstFailure, Selections, OptionsError;
    assert Chosen(metadata, options, Written(metadata, Folded(options)));
    WrittenApart(metadata, Folded(options));
    UpdateWrites(s, instance, Written(metadata, Folded(options)));
  }

  /** A save without a key adds one row under a fresh key, which it hands out. */
  lemma UnkeyedSaveInserts(
      s: Stored, metadata: Model, pk: Field, instance: Instance, options: seq<SaveOption>, plan: SavePlan)
    requires Saveable(metadata, pk, instance, options, plan) && !instance.present && !plan.NoOp? && ValidStored(s)
    ensures var r, fields := RunPlan(s, plan, pk.column), NonPrimary(metadata.fields);
      && r.Success? && r.value.1.Some? && r.value.1.value !in s.rows
      && RowWritten(s, r.value.0, r.value.1.value, map[], instance, fields)
  {
    hide ValidModel, RunUpdate, RunInsert, RowWritten, NonPrimary, Given, ColumnsApart, AllWritable, Folded, OptionsError, FieldsIn, InsertAssignments, ValidStored;
    GeneratedInsertWrites(s, metadata, pk, instance);
  }

  /** Whatever a plan does, the next generated key stays above every key in use. */
  lemma GeneratedKeysStayFresh(s: Stored, plan: SavePlan, keyColumn: string)
    requires ValidStored(s) && RunPlan(s, plan, keyColumn).Success?
    ensures ValidStored(RunPlan(s, plan, keyColumn).value.0)
  {
    hide RowOf;
  }

  /** Only a model without a key is changed by its save: it is then keyed, its other values as before. */
  lemma KeyAssigned(
      metadata: Model, pk: Field, before: Instance, options: seq<SaveOption>, plan: SavePlan, s: Stored, t: Stored,
      keyColumn: string, after: Instance)
    requires PlanFor(metadata, pk, before, options, plan) && Ran(s, before, plan, keyColumn, t, after)
    ensures before.present ==> after == before
    ensures !before.present && !plan.NoOp? ==> after.present && after.key.IntegerValue? && after.values == before.values
  {
    hide RunInsert, RunUpdate, Written, AllWritable, InsertAssignments, Assignments;
  }

  /** The effect a successful save had. */
  ghost predicate Ran(s: Stored, before: Instance, plan: SavePlan, keyColumn: string, t: Stored, after: Instance) {
    match RunPlan(s, plan, keyColumn)
    case Failure(_) => false
    case Success((u, id)) => t == u && after == if id.Some? then Keyed(before, id.value) else before
  }

  /** Saves a model: refused without any backend call, or its plan is run; a failed save leaves no trace. */
  method Save(store: Store, holder: Holder, metadata: Model, pk: Field, options: seq<SaveOption>) returns (error: Option<SaveError>)
    requires ValidModel(metadata)
    modifies store, holder
    ensures var refused := SaveRefused(metadata, pk, old(holder.instance), options);
      refused.Some? ==> error == refused && store.calls == old(store.calls)
    ensures error.Some? ==> store.stored == old(store.stored) && holder.instance == old(holder.instance)
    ensures SaveRefused(metadata, pk, old(holder.instance), options).None? ==>
      (EmptyMask(options) <==> store.calls == old(store.calls)) && (EmptyMask(options) ==> error.None?)
    ensures error.None? && old(holder.instance).present ==> holder.instance == old(holder.instance)
    ensures error.None? && !old(holder.instance).present && !EmptyMask(options) ==>
      && holder.instance.present && holder.instance.key.IntegerValue?
      && holder.instance.values == old(holder.instance).values
    ensures error.None? && EmptyMask(options) ==> store.stored == old(store.stored) && holder.instance == old(holder.instance)
    ensures error.None? ==>
      exists plan ::
        && PlanFor(metadata, pk, old(holder.instance), options, plan)
        && Ran(old(store.stored), old(holder.instance), plan, store.keyColumn, store.stored, holder.instance)
        && (plan.NoOp? ==> store.calls == old(store.calls))
    ensures SaveRefused(metadata, pk, old(holder.instance), options).None? && (forall i: nat :: !store.fails(i)) ==>
      exists plan ::
        && PlanFor(metadata, pk, old(holder.instance), options, plan)
        && match RunPlan(old(store.stored), plan, store.keyColumn)
           case Failure(e) => error == Some(e)
           case Success(_) => error.None?
  {
    hide ValidModel, PlanFor, SaveRefused, EmptyMask;
    var plan := BuildSaveExecutionPlan(metadata, pk, holder.instance, options);
    if plan.Failure? {
      return Some(plan.error);
    }
    NothingPlanned(metadata, pk, holder.instance, options, plan.value);
    error := ExecuteSavePlan(store, holder, plan.value);
    ghost var chosen := plan.value;
    assert error.None? ==> Ran(old(store.stored), old(holder.instance), chosen, store.keyColumn, store.stored, holder.instance);
    if error.None? {
      KeyAssigned(
        metadata, pk, old(holder.instance), options, chosen, old(store.stored), store.stored, store.keyColumn, holder.instance);
    }
  }
}
