/** Saving one model: options compile into a plan, the plan runs against a table. */
module Saving {
  import opened Errors
  import opened SchemaIR
  import opened SqlCompiler

  type Row = map<string, Value>

  /** A model as its descriptor shows it: key value, key presence, and the other field values by name. */
  datatype Instance = Instance(key: Value, present: bool, values: map<string, Value>)

  datatype Typed = NilField | FailingField | Bound(reference: FieldRef)

  datatype SaveOption =
    | TypedFields(fields: seq<Typed>)
    | DynamicFields(names: seq<string>)
    | ForceInsert
    | ForceUpdate
    | ZeroOption
    | UnknownOption

  datatype SaveError =
    | ZeroOptionGiven | UnknownOptionGiven | RepeatedMask | RepeatedForceInsert | RepeatedForceUpdate
    | ExclusiveForce | ForceInsertWithMask
    | UnknownField(name: string) | FieldFailed | KeyInMask(name: string)
    | InvalidKey | KeyWithoutPresence | InvalidValue(name: string) | UpdateWithoutKey
    | MissingRow(forced: bool) | DuplicateKey | BackendFailed

  datatype Assignment = Assignment(field: FieldRef, value: Value)

  datatype UpdatePlan = UpdatePlan(assignments: seq<Assignment>, key: Value)

  /** What to do: first the update, if any; then, if it found no row or there was none, the insert, if any. */
  datatype SavePlan =
    | NoOp
    | InsertOnly(insert: seq<Assignment>, assignGeneratedKey: bool)
    | UpdateOnly(update: UpdatePlan, forced: bool)
    | UpdateOrInsert(update: UpdatePlan, insert: seq<Assignment>)

  function KindOf(kind: string): FieldKind {
    if kind == AUTO then IntegerKind else if kind == CHAR then StringKind
    else if kind == BOOLEAN then BooleanKind else OtherKind(kind)
  }

  function Reference(f: Field): FieldRef {
    FieldRef(f.name, f.column, KindOf(f.kind), f.nullable)
  }

  predicate MutationValueMatches(f: Field, value: Value) {
    if value.NullValue? then f.nullable
    else
      || (f.kind == AUTO && value.IntegerValue?)
      || (f.kind == CHAR && value.StringValue?)
      || (f.kind == BOOLEAN && value.BooleanValue?)
  }

  // ---------------------------------------------------------------- options

  datatype OptionValues = OptionValues(
    maskSet: bool, typed: seq<Typed>, names: seq<string>, forceInsert: bool, forceUpdate: bool, err: Option<SaveError>)

  const NO_OPTIONS := OptionValues(false, [], [], false, false, None)

  function WithError(o: OptionValues, e: SaveError): OptionValues {
    if o.err.None? then o.(err := Some(e)) else o
  }

  function Masked(o: OptionValues, typed: seq<Typed>, names: seq<string>): OptionValues {
    if o.maskSet then WithError(o, RepeatedMask) else o.(maskSet := true, typed := typed, names := names)
  }

  function Applied(o: OptionValues, option: SaveOption): OptionValues {
    match option
    case TypedFields(fields) => Masked(o, fields, [])
    case DynamicFields(names) => Masked(o, [], names)
    case ForceInsert => (if o.forceInsert then WithError(o, RepeatedForceInsert) else o).(forceInsert := true)
    case ForceUpdate => (if o.forceUpdate then WithError(o, RepeatedForceUpdate) else o).(forceUpdate := true)
    case ZeroOption => o
    case UnknownOption => WithError(o, UnknownOptionGiven)
  }

  function Folded(options: seq<SaveOption>): OptionValues {
    if options == [] then NO_OPTIONS else Applied(Folded(options[..|options| - 1]), options[|options| - 1])
  }

  predicate IsMask(option: SaveOption) {
    option.TypedFields? || option.DynamicFields?
  }

  /** The options being collected, changed in place by each option. */
  class OptionState {
    var maskSet: bool
    var typed: seq<Typed>
    var names: seq<string>
    var forceInsert: bool
    var forceUpdate: bool
    var err: Option<SaveError>

    constructor ()
      ensures Value() == NO_OPTIONS
    {
      maskSet, typed, names, forceInsert, forceUpdate, err := false, [], [], false, false, None;
    }

    function Value(): OptionValues
      reads this
    {
      OptionValues(maskSet, typed, names, forceInsert, forceUpdate, err)
    }

    method SetError(e: SaveError)
      modifies this`err
      ensures Value() == WithError(old(Value()), e)
    {
      if err.None? {
        err := Some(e);
      }
    }

    method SetFieldMask(fields: seq<Typed>, dynamicNames: seq<string>)
      modifies this
      ensures Value() == Masked(old(Value()), fields, dynamicNames)
    {
      if maskSet {
        SetError(RepeatedMask);
        return;
      }
      maskSet, typed, names := true, fields, dynamicNames;
    }

    method Apply(option: SaveOption)
      modifies this
      ensures Value() == Applied(old(Value()), option)
    {
      match option {
        case TypedFields(fields) => SetFieldMask(fields, []);
        case DynamicFields(dynamicNames) => SetFieldMask([], dynamicNames);
        case ForceInsert =>
          if forceInsert {
            SetError(RepeatedForceInsert);
          }
          forceInsert := true;
        case ForceUpdate =>
          if forceUpdate {
            SetError(RepeatedForceUpdate);
          }
          forceUpdate := true;
        case ZeroOption =>
        case UnknownOption => SetError(UnknownOptionGiven);
      }
    }
  }

  /** Why a list of options is refused, if it is: the zero option first, then the first repetition or unknown option. */
  function OptionsError(options: seq<SaveOption>): Option<SaveError> {
    if ZeroOption in options then Some(ZeroOptionGiven)
    else if Folded(options).err.Some? then Folded(options).err
    else if Folded(options).forceInsert && Folded(options).forceUpdate then Some(ExclusiveForce)
    else None
  }

  predicate IsForceInsert(option: SaveOption) {
    option == ForceInsert
  }

  predicate IsForceUpdate(option: SaveOption) {
    option == ForceUpdate
  }

  predicate Given(options: seq<SaveOption>, kind: SaveOption -> bool) {
    exists i :: 0 <= i < |options| && kind(options[i])
  }

  predicate Once(options: seq<SaveOption>, kind: SaveOption -> bool) {
    forall i, j :: 0 <= i < j < |options| ==> !(kind(options[i]) && kind(options[j]))
  }

  lemma OnceLast(front: seq<SaveOption>, last: SaveOption, kind: SaveOption -> bool)
    ensures Once(front + [last], kind) <==> Once(front, kind) && !(kind(last) && Given(front, kind))
    ensures Given(front + [last], kind) <==> Given(front, kind) || kind(last)
  {
    var options := front + [last];
    assert options[|front|] == last;
    assert forall i :: 0 <= i < |front| ==> options[i] == front[i];
  }

  /** Collecting options records which were given, and an error exactly when one repeats or is unknown. */
  lemma {:induction false} FoldedMeaning(options: seq<SaveOption>)
    ensures var o := Folded(options);
      && (o.maskSet <==> Given(options, IsMask))
      && (o.forceInsert <==> Given(options, IsForceInsert)) && (o.forceUpdate <==> Given(options, IsForceUpdate))
      && (o.err.None? <==>
            && UnknownOption !in options && Once(options, IsMask)
            && Once(options, IsForceInsert) && Once(options, IsForceUpdate))
    decreases |options|
  {
    hide Given, Once;
    if options == [] {
      NothingGiven(IsMask);
      NothingGiven(IsForceInsert);
      NothingGiven(IsForceUpdate);
    } else {
      var n := |options| - 1;
      var front, last := options[..n], options[n];
      FoldedMeaning(front);
      assert options == front + [last];
      OnceLast(front, last, IsMask);
      OnceLast(front, last, IsForceInsert);
      OnceLast(front, last, IsForceUpdate);
    }
  }

  /** Without an error the collected mask is the one that was given, and nothing if none was. */
  ghost predicate MaskCollected(options: seq<SaveOption>, o: OptionValues) {
    && (forall fs :: TypedFields(fs) in options ==> o.typed == fs && o.names == [])
    && (forall ns :: DynamicFields(ns) in options ==> o.names == ns && o.typed == [])
    && (!o.maskSet ==> o.typed == [] && o.names == [])
  }

  lemma {:induction false} FoldedMask(options: seq<SaveOption>)
    requires Folded(options).err.None?
    ensures MaskCollected(options, Folded(options))
    decreases |options|
  {
    if options != [] {
      var n := |options| - 1;
      FoldedMask(options[..n]);
      FoldedMeaning(options[..n]);
      MaskGiven(options[..n]);
      assert options == options[..n] + [options[n]];
      MaskApplied(options[..n], Folded(options[..n]), options[n]);
    }
  }

  lemma MaskApplied(front: seq<SaveOption>, o: OptionValues, last: SaveOption)
    requires MaskCollected(front, o) && (o.maskSet <==> Given(front, IsMask)) && Applied(o, last).err.None?
    requires forall p :: p in front && IsMask(p) ==> Given(front, IsMask)
    ensures MaskCollected(front + [last], Applied(o, last))
  {
    hide Given;
    assert forall p :: p in front + [last] <==> p in front || p == last;
  }

  lemma MaskGiven(options: seq<SaveOption>)
    ensures forall o :: o in options && IsMask(o) ==> Given(options, IsMask)
  {
  }

  predicate GivenBefore(options: seq<SaveOption>, kind: SaveOption -> bool, i: nat)
    requires i <= |options|
  {
    exists j :: 0 <= j < i && kind(options[j])
  }

  /** What is wrong with an option by itself, or because a mask or flag was already given. */
  function FaultOf(option: SaveOption, mask: bool, insert: bool, update: bool): Option<SaveError> {
    match option
    case TypedFields(_) => if mask then Some(RepeatedMask) else None
    case DynamicFields(_) => if mask then Some(RepeatedMask) else None
    case ForceInsert => if insert then Some(RepeatedForceInsert) else None
    case ForceUpdate => if update then Some(RepeatedForceUpdate) else None
    case ZeroOption => None
    case UnknownOption => Some(UnknownOptionGiven)
  }

  function Fault(options: seq<SaveOption>, i: nat): Option<SaveError>
    requires i < |options|
  {
    FaultOf(
      options[i], GivenBefore(options, IsMask, i), GivenBefore(options, IsForceInsert, i),
      GivenBefore(options, IsForceUpdate, i))
  }

  ghost predicate FirstFault(options: seq<SaveOption>, i: nat, e: SaveError) {
    && i < |options| && Fault(options, i) == Some(e)
    && forall j :: 0 <= j < i ==> Fault(options, j).None?
  }

  /** The recorded error is that of the first faulty option. */
  lemma {:induction false} FoldedFault(options: seq<SaveOption>)
    ensures Folded(options).err.None? ==> forall i :: 0 <= i < |options| ==> Fault(options, i).None?
    ensures Folded(options).err.Some? ==> exists i: nat :: FirstFault(options, i, Folded(options).err.value)
    decreases |options|
  {
    if options != [] {
      var n := |options| - 1;
      var front := options[..n];
      FoldedFault(front);
      FaultLast(options);
      forall i | 0 <= i < n ensures Fault(front, i) == Fault(options, i) {
        FaultKept(options, n, i);
      }
      hide Folded, Fault;
      if Folded(front).err.Some? {
        var i: nat :| FirstFault(front, i, Folded(front).err.value);
        assert FirstFault(options, i, Folded(options).err.value);
      } else if Folded(options).err.Some? {
        assert FirstFault(options, n, Folded(options).err.value);
      }
    } else {
      NoOptions();
    }
  }

  lemma NoOptions()
    ensures Folded([]).err.None?
  {
  }

  lemma FaultLast(options: seq<SaveOption>)
    requires options != []
    ensures var n := |options| - 1;
      Folded(options).err == if Folded(options[..n]).err.Some? then Folded(options[..n]).err else Fault(options, n)
  {
    hide Given, GivenBefore, Once, FaultOf, Applied;
    var n := |options| - 1;
    FoldedMeaning(options[..n]);
    AppliedFault(Folded(options[..n]), options[n]);
    GivenAll(options, IsMask);
    GivenAll(options, IsForceInsert);
    GivenAll(options, IsForceUpdate);
  }

  lemma AppliedFault(o: OptionValues, option: SaveOption)
    ensures Applied(o, option).err ==
      if o.err.Some? then o.err else FaultOf(option, o.maskSet, o.forceInsert, o.forceUpdate)
  {
  }

  lemma GivenAll(options: seq<SaveOption>, kind: SaveOption -> bool)
    requires options != []
    ensures GivenBefore(options, kind, |options| - 1) <==> Given(options[..|options| - 1], kind)
  {
    var n := |options| - 1;
    assert forall j :: 0 <= j < n ==> options[..n][j] == options[j];
  }

  lemma FaultKept(options: seq<SaveOption>, n: nat, i: nat)
    requires i < n <= |options|
    ensures Fault(options[..n], i) == Fault(options, i)
  {
    assert forall j :: 0 <= j < n ==> options[..n][j] == options[j];
  }

  lemma NothingGiven(kind: SaveOption -> bool)
    ensures Once([], kind) && !Given([], kind)
  {
  }

  method CollectOptions(options: seq<SaveOption>) returns (r: Result<OptionValues, SaveError>)
    ensures r == if OptionsError(options).Some? then Failure(OptionsError(options).value) else Success(Folded(options))
  {
    var state := new OptionState();
    for i := 0 to |options|
      invariant fresh(state) && state.Value() == Folded(options[..i]) && ZeroOption !in options[..i]
    {
      assert options[..i + 1][..i] == options[..i];
      if options[i].ZeroOption? {
        return Failure(ZeroOptionGiven);
      }
      state.Apply(options[i]);
    }
    assert options[..|options|] == options;
    if state.err.Some? {
      return Failure(state.err.value);
    }
    if state.forceInsert && state.forceUpdate {
      return Failure(ExclusiveForce);
    }
    r := Success(state.Value());
  }

  // ---------------------------------------------------------------- the selected fields

  function FieldBy(fields: seq<Field>, reference: FieldRef): Option<Field> {
    if fields == [] then None
    else if Reference(fields[0]) == reference then Some(fields[0])
    else FieldBy(fields[1..], reference)
  }

  function FieldNamed(fields: seq<Field>, name: string): Option<Field> {
    if fields == [] then None
    else if fields[0].name == name then Some(fields[0])
    else FieldNamed(fields[1..], name)
  }

  function Checked(found: Option<Field>, name: string): Result<string, SaveError> {
    if found.None? then Failure(UnknownField(name))
    else if found.value.primaryKey then Failure(KeyInMask(found.value.name))
    else Success(found.value.name)
  }

  /** The name a mask entry selects, or why it selects none. */
  function TypedName(fields: seq<Field>, typed: Typed): Result<string, SaveError> {
    match typed
    case NilField => Failure(UnknownField(""))
    case FailingField => Failure(FieldFailed)
    case Bound(reference) => Checked(FieldBy(fields, reference), reference.name)
  }

  function Selections(fields: seq<Field>, o: OptionValues): (r: seq<Result<string, SaveError>>)
    ensures |r| == |o.typed| + |o.names|
    ensures forall i :: 0 <= i < |o.typed| ==> r[i] == TypedName(fields, o.typed[i])
    ensures forall i :: 0 <= i < |o.names| ==> r[|o.typed| + i] == Checked(FieldNamed(fields, o.names[i]), o.names[i])
  {
    seq(|o.typed|, i requires 0 <= i < |o.typed| => TypedName(fields, o.typed[i])) +
    seq(|o.names|, i requires 0 <= i < |o.names| => Checked(FieldNamed(fields, o.names[i]), o.names[i]))
  }

  function FirstFailure(selections: seq<Result<string, SaveError>>): Option<SaveError> {
    if selections == [] then None
    else if selections[0].Failure? then Some(selections[0].error)
    else FirstFailure(selections[1..])
  }

  /** The fields whose names are selected, in metadata order. */
  function FieldsIn(fields: seq<Field>, names: set<string>): (r: seq<Field>)
    ensures forall f :: f in r <==> f in fields && f.name in names
  {
    if fields == [] then []
    else
      var n := |fields| - 1;
      assert fields == fields[..n] + [fields[n]];
      FieldsIn(fields[..n], names) + (if fields[n].name in names then [fields[n]] else [])
  }

  function SelectedNames(selections: seq<Result<string, SaveError>>): set<string> {
    set i | 0 <= i < |selections| && selections[i].Success? :: selections[i].value
  }

  lemma {:induction false} FirstFailureAt(selections: seq<Result<string, SaveError>>, i: nat)
    requires i < |selections| && forall j :: 0 <= j < i ==> selections[j].Success?
    ensures selections[i].Failure? ==> FirstFailure(selections) == Some(selections[i].error)
    decreases i
  {
    if i > 0 {
      FirstFailureAt(selections[1..], i - 1);
    }
  }

  lemma {:induction false} NoFailure(selections: seq<Result<string, SaveError>>)
    requires forall j :: 0 <= j < |selections| ==> selections[j].Success?
    ensures FirstFailure(selections).None?
    decreases |selections|
  {
    if selections != [] {
      NoFailure(selections[1..]);
    }
  }

  /**
   * Resolves the field mask: the first entry that cannot be selected, or the selected fields in metadata order. Without
   * a mask nothing is selected.
   */
  method ResolveSaveFields(metadata: Model, o: OptionValues) returns (r: Result<seq<Field>, SaveError>)
    ensures var selections := Selections(metadata.fields, o);
      r == if !o.maskSet then Success([])
           else if FirstFailure(selections).Some? then Failure(FirstFailure(selections).value)
           else Success(FieldsIn(metadata.fields, SelectedNames(selections)))
  {
    hide *;
    if !o.maskSet {
      return Success([]);
    }
    var selected := SelectNames(metadata, o);
    if selected.Failure? {
      return Failure(selected.error);
    }
    var fields := SelectFields(metadata, selected.value);
    r := Success(fields);
  }

  method SelectNames(metadata: Model, o: OptionValues) returns (r: Result<set<string>, SaveError>)
    ensures var selections := Selections(metadata.fields, o);
      r == if FirstFailure(selections).Some? then Failure(FirstFailure(selections).value)
           else Success(SelectedNames(selections))
  {
    hide *;
    ghost var selections := Selections(metadata.fields, o);
    var selected: set<string> := {};
    NothingSelected(selections);
    for i := 0 to |o.typed|
      invariant forall j :: 0 <= j < i ==> selections[j].Success?
      invariant selected == SelectedNames(selections[..i])
    {
      var name := TypedName(metadata.fields, o.typed[i]);
      FirstFailureAt(selections, i);
      SelectedNext(selections, i);
      if name.Failure? {
        return Failure(name.error);
      }
      selected := selected + {name.value};
    }
    for i := 0 to |o.names|
      invariant forall j :: 0 <= j < |o.typed| + i ==> selections[j].Success?
      invariant selected == SelectedNames(selections[..|o.typed| + i])
    {
      var name := Checked(FieldNamed(metadata.fields, o.names[i]), o.names[i]);
      FirstFailureAt(selections, |o.typed| + i);
      SelectedNext(selections, |o.typed| + i);
      if name.Failure? {
        return Failure(name.error);
      }
      selected := selected + {name.value};
    }
    NoFailure(selections);
    assert selections[..|selections|] == selections;
    r := Success(selected);
  }

  method SelectFields(metadata: Model, selected: set<string>) returns (fields: seq<Field>)
    ensures fields == FieldsIn(metadata.fields, selected)
  {
    hide FieldsIn;
    fields := [];
    NoFields(metadata.fields, selected);
    for i := 0 to |metadata.fields|
      invariant fields == FieldsIn(metadata.fields[..i], selected)
    {
      FieldsNext(metadata.fields, selected, i);
      if metadata.fields[i].name in selected {
        fields := fields + [metadata.fields[i]];
      }
    }
    assert metadata.fields[..|metadata.fields|] == metadata.fields;
  }

  lemma SelectedNext(selections: seq<Result<string, SaveError>>, i: nat)
    requires i < |selections|
    ensures SelectedNames(selections[..i + 1]) ==
      SelectedNames(selections[..i]) + (if selections[i].Success? then {selections[i].value} else {})
  {
  }

  lemma NothingSelected(selections: seq<Result<string, SaveError>>)
    ensures SelectedNames(selections[..0]) == {}
  {
  }

  lemma NoFields(fields: seq<Field>, names: set<string>)
    ensures FieldsIn(fields[..0], names) == []
  {
  }

  lemma FieldsNext(fields: seq<Field>, names: set<string>, i: nat)
    requires i < |fields|
    ensures FieldsIn(fields[..i + 1], names) == FieldsIn(fields[..i], names) + (if fields[i].name in names then [fields[i]] else [])
  {
    assert fields[..i + 1][..i] == fields[..i];
  }

  function NonPrimary(fields: seq<Field>): (r: seq<Field>)
    ensures forall f :: f in r <==> f in fields && !f.primaryKey
  {
    if fields == [] then []
    else
      var n := |fields| - 1;
      assert fields == fields[..n] + [fields[n]];
      NonPrimary(fields[..n]) + (if fields[n].primaryKey then [] else [fields[n]])
  }

  method NonPrimaryFields(metadata: Model) returns (fields: seq<Field>)
    ensures fields == NonPrimary(metadata.fields)
  {
    hide NonPrimary;
    fields := [];
    NoneOfThem(metadata.fields);
    for i := 0 to |metadata.fields|
      invariant fields == NonPrimary(metadata.fields[..i])
    {
      NonPrimaryNext(metadata.fields, i);
      if !metadata.fields[i].primaryKey {
        fields := fields + [metadata.fields[i]];
      }
    }
    assert metadata.fields[..|metadata.fields|] == metadata.fields;
  }

  lemma NoneOfThem(fields: seq<Field>)
    ensures NonPrimary(fields[..0]) == []
  {
  }

  lemma NonPrimaryNext(fields: seq<Field>, i: nat)
    requires i < |fields|
    ensures NonPrimary(fields[..i + 1]) == NonPrimary(fields[..i]) + (if fields[i].primaryKey then [] else [fields[i]])
  {
    assert fields[..i + 1][..i] == fields[..i];
  }

  // ---------------------------------------------------------------- assignments

  predicate Writable(instance: Instance, f: Field) {
    !f.primaryKey && f.name in instance.values && MutationValueMatches(f, instance.values[f.name])
  }

  function AssignmentOf(instance: Instance, f: Field): Assignment
    requires f.name in instance.values
  {
    Assignment(Reference(f), instance.values[f.name])
  }

  predicate AllWritable(instance: Instance, fields: seq<Field>) {
    forall i :: 0 <= i < |fields| ==> Writable(instance, fields[i])
  }

  /** One assignment for each field, in order. */
  function Assignments(instance: Instance, fields: seq<Field>): (r: seq<Assignment>)
    requires AllWritable(instance, fields)
    ensures |r| == |fields|
    ensures forall i :: 0 <= i < |fields| ==> Writable(instance, fields[i]) && r[i] == AssignmentOf(instance, fields[i])
  {
    seq(|fields|, i requires 0 <= i < |fields| && Writable(instance, fields[i]) => AssignmentOf(instance, fields[i]))
  }

  predicate FirstUnwritable(instance: Instance, fields: seq<Field>, i: int) {
    0 <= i < |fields| && !Writable(instance, fields[i]) && AllWritable(instance, fields[..i])
  }

  function UnwritableError(f: Field): SaveError {
    if f.primaryKey then KeyInMask(f.name) else InvalidValue(f.name)
  }

  method SaveAssignments(instance: Instance, fields: seq<Field>) returns (r: Result<seq<Assignment>, SaveError>)
    ensures r.Success? <==> AllWritable(instance, fields)
    ensures r.Success? ==> r.value == Assignments(instance, fields)
    ensures r.Failure? ==> exists i :: FirstUnwritable(instance, fields, i) && r.error == UnwritableError(fields[i])
  {
    var assignments: seq<Assignment> := [];
    for i := 0 to |fields|
      invariant |assignments| == i
      invariant forall j :: 0 <= j < i ==> Writable(instance, fields[j]) && assignments[j] == AssignmentOf(instance, fields[j])
    {
      var f := fields[i];
      if f.primaryKey {
        assert FirstUnwritable(instance, fields, i);
        return Failure(KeyInMask(f.name));
      }
      if f.name !in instance.values || !MutationValueMatches(f, instance.values[f.name]) {
        assert FirstUnwritable(instance, fields, i);
        return Failure(InvalidValue(f.name));
      }
      assignments := assignments + [AssignmentOf(instance, f)];
    }
    r := Success(assignments);
  }
}
