/** What a state transition changes: the one model it names, and nothing else. */
module StateChanges {
  import opened Errors
  import opened SchemaIR
  import opened ProjectStates
  import opened Operations

  /** Nothing is found differently, except perhaps the model of one app and name. */
  ghost predicate Changed(s: ProjectState, t: ProjectState, app: string, name: string) {
    forall a, n :: (a != app || n != name) ==> FindModel(t, a, n) == FindModel(s, a, n)
  }

  lemma {:induction false} FindAppended(models: seq<Model>, m: Model, name: string)
    ensures FindIn(models + [m], name) ==
      if FindIn(models, name).Some? then FindIn(models, name) else if m.name == name then Some(m) else None
    decreases models
  {
    if models == [] {
      assert (models + [m])[1..] == [];
    } else {
      assert (models + [m])[1..] == models[1..] + [m];
      FindAppended(models[1..], m, name);
    }
  }

  lemma {:induction false} FindReplaced(models: seq<Model>, i: nat, m: Model, name: string)
    requires i < |models| && m.name == models[i].name && ModelIndex(models, m.name) == i
    ensures FindIn(models[i := m], name) == if name == m.name then Some(m) else FindIn(models, name)
    decreases models
  {
    if i == 0 {
      assert models[0 := m][1..] == models[1..];
    } else {
      assert models[i := m][1..] == models[1..][i - 1 := m];
      FindReplaced(models[1..], i - 1, m, name);
    }
  }

  lemma {:induction false} FindOther(models: seq<Model>, gone: string, name: string)
    ensures FindIn(OtherModels(models, gone), name) == if name == gone then None else FindIn(models, name)
    decreases models
  {
    if models != [] {
      FindOther(models[1..], gone, name);
      var rest := OtherModels(models[1..], gone);
      assert ([models[0]] + rest)[1..] == rest;
    }
  }

  lemma ChangedModels(s: ProjectState, t: ProjectState, app: string, name: string)
    requires forall a :: a != app ==> ModelsOf(t, a) == ModelsOf(s, a)
    requires forall n :: n != name ==> FindIn(ModelsOf(t, app), n) == FindIn(ModelsOf(s, app), n)
    ensures Changed(s, t, app, name)
  {
  }

  /** Creating a model makes exactly that model findable, with its defaults filled in. */
  lemma CreateForwardChange(s: ProjectState, app: string, model: Model)
    requires ValidState(s) && CreateForward(s, app, model).Some?
    ensures var t := CreateForward(s, app, model).value;
      && ValidState(t) && Changed(s, t, app, model.name)
      && FindModel(s, app, model.name).None? && FindModel(t, app, model.name) == Some(FillModel(app, model))
  {
    CreateForwardEffect(s, app, model);
    var m := FillModel(app, model);
    assert m.name == model.name;
    hide FillModel, CreateForward, FindIn, SingleModel, Normalized, ValidState;
    var models := ModelsOf(s, app);
    var t := WithModels(s, app, models + [m]);
    WithModelsValid(s, app, models + [m]);
    hide ModelsOf;
    forall n ensures FindIn(models + [m], n) ==
        if FindIn(models, n).Some? then FindIn(models, n) else if m.name == n then Some(m) else None {
      FindAppended(models, m, n);
    }
    ChangedModels(s, t, app, m.name);
  }

  /** Adding a field replaces exactly the model it names. */
  lemma AddForwardChange(s: ProjectState, app: string, modelName: string, field: Field)
    requires ValidState(s) && AddForward(s, app, modelName, field).Some?
    ensures FindModel(s, app, modelName).Some?
    ensures var t, m := AddForward(s, app, modelName, field).value, FindModel(s, app, modelName).value;
      && ValidState(t) && Changed(s, t, app, modelName)
      && FindModel(t, app, modelName) == Some(m.(fields := m.fields + [FillField(field)]))
      && FieldIndex(m.fields, field.name) == |m.fields|
      && ValidModel(m) && ValidModel(m.(fields := m.fields + [FillField(field)]))
  {
    hide ValidModel, FillModel;
    AddForwardEffect(s, app, modelName, field);
    var models := ModelsOf(s, app);
    var i := ModelIndex(models, modelName);
    var m := models[i].(fields := models[i].fields + [FillField(field)]);
    StateModels(s, app);
    assert ValidModels(models[i := m]);
    assert models[i := m][i] == m;
    assert !FieldClashes(models[i].fields, field);
    hide AddForward, Normalized, ValidState, ValidModels, FieldClashes, FillField, Changed;
    ReplacedChange(s, app, i, m);
  }

  /** The model without its first field of that name. */
  function DropField(m: Model, name: string): Model {
    var j := FieldIndex(m.fields, name);
    if j < |m.fields| then m.(fields := m.fields[..j] + m.fields[j + 1..]) else m
  }

  /** The model a field removal leaves: a key is put back if the removed field was the key. */
  function Shrunk(app: string, m: Model, name: string): Model {
    FillModel(app, DropField(m, name))
  }

  ghost predicate HoldsField(m: Model, f: Field) {
    var j := FieldIndex(m.fields, f.name);
    j < |m.fields| && m.fields[j] == f
  }

  lemma {:induction false} OthersFilled(app: string, models: seq<Model>, name: string)
    requires FilledModels(app, models)
    ensures FilledModels(app, OtherModels(models, name))
    decreases models
  {
    hide FilledModel;
    if models != [] {
      OthersFilled(app, models[1..], name);
    }
  }

  lemma NormalizedOthers(s: ProjectState, app: string, name: string)
    requires ValidState(s) && app in s.apps
    ensures var others := OtherModels(s.apps[app].models, name);
      var normalized := Normalize(s.apps[app].(models := others));
      && s.apps[app].models == ModelsOf(s, app)
      && (normalized.Some? ==> normalized == Some(Schema(FORMAT_VERSION, app, others)) && Normalized(normalized.value))
  {
    hide FilledModel, ValidModels, Normalize, Normalized;
    StateModels(s, app);
    OthersFilled(app, ModelsOf(s, app), name);
    NormalizeFilled(app, OtherModels(ModelsOf(s, app), name));
  }

  lemma RemovedChange(s: ProjectState, t: ProjectState, app: string, name: string)
    requires ModelsOf(t, app) == OtherModels(ModelsOf(s, app), name)
    requires forall a :: a != app ==> ModelsOf(t, a) == ModelsOf(s, a)
    ensures Changed(s, t, app, name) && FindModel(t, app, name).None?
  {
    hide ModelsOf;
    forall n ensures FindIn(ModelsOf(t, app), n) == if n == name then None else FindIn(ModelsOf(s, app), n) {
      FindOther(ModelsOf(s, app), name, n);
    }
    ChangedModels(s, t, app, name);
  }

  lemma BackwardValid(s: ProjectState, app: string, model: Model)
    requires ValidState(s) && CreateBackward(s, app, model).Some?
    ensures ValidState(CreateBackward(s, app, model).value)
    ensures FindModel(s, app, model.name) == Some(FillModel(app, model))
  {
    SingleModelFilled(app, model);
    assert FillModel(app, model).name == model.name;
    hide FillModel, SingleModel, Normalize;
    NormalizedOthers(s, app, model.name);
    hide Normalized, OtherModels, FindIn;
  }

  lemma BackwardModels(s: ProjectState, app: string, model: Model)
    requires ValidState(s) && CreateBackward(s, app, model).Some?
    ensures var t := CreateBackward(s, app, model).value;
      && ModelsOf(t, app) == OtherModels(ModelsOf(s, app), model.name)
      && (forall a :: a != app ==> ModelsOf(t, a) == ModelsOf(s, a))
  {
    SingleModelFilled(app, model);
    assert FillModel(app, model).name == model.name;
    hide FillModel, SingleModel, Normalize;
    NormalizedOthers(s, app, model.name);
    hide Normalized, OtherModels, FindIn;
  }

  /** Deleting a model makes exactly that model disappear; it was the one the operation creates. */
  lemma CreateBackwardChange(s: ProjectState, app: string, model: Model)
    requires ValidState(s) && CreateBackward(s, app, model).Some?
    ensures var t := CreateBackward(s, app, model).value;
      && ValidState(t) && Changed(s, t, app, model.name)
      && FindModel(s, app, model.name) == Some(FillModel(app, model)) && FindModel(t, app, model.name).None?
  {
    BackwardValid(s, app, model);
    BackwardModels(s, app, model);
    hide CreateBackward, ModelsOf, OtherModels, FindIn, Changed;
    RemovedChange(s, CreateBackward(s, app, model).value, app, model.name);
  }

  lemma KeptKey(app: string, m: Model, j: nat)
    requires FilledModel(app, m) && j < |m.fields| && m.fields[j].kind != AUTO
    ensures FilledModel(app, m.(fields := m.fields[..j] + m.fields[j + 1..]))
  {
    hide FilledModel;
    FilledFields(app, m);
    var raw := m.(fields := m.fields[..j] + m.fields[j + 1..]);
    var a :| 0 <= a < |m.fields| && m.fields[a].kind == AUTO;
    assert raw.fields[if a < j then a else a - 1].kind == AUTO;
    assert forall k :: 0 <= k < |m.fields| ==> FillField(m.fields[k]) == m.fields[k];
    assert FillFields(raw.fields) == raw.fields;
    FilledFields(app, raw);
  }

  lemma AddBackwardEffect(s: ProjectState, app: string, modelName: string, field: Field)
    requires ValidState(s) && AddBackward(s, app, modelName, field).Some?
    ensures var models := ModelsOf(s, app); var i := ModelIndex(models, modelName);
      && i < |models| && ValidModel(models[i]) && FilledModel(app, models[i])
      && HoldsField(models[i], FillField(field))
      && AddBackward(s, app, modelName, field) == Some(WithModels(s, app, models[i := Shrunk(app, models[i], field.name)]))
      && Normalized(Schema(FORMAT_VERSION, app, models[i := Shrunk(app, models[i], field.name)]))
  {
    hide ValidModel, FillModel, Normalize, Normalized;
    StateModels(s, app);
    var models := ModelsOf(s, app);
    var i := ModelIndex(models, modelName);
    var m := models[i];
    var raw := DropField(m, field.name);
    FillModelIdempotent(app, raw);
    assert FillModel(app, raw).name == modelName by { FilledName(app, raw); }
    hide FilledModel;
    FillReplaced(app, models, i, raw, FillModel(app, raw));
    NormalizeFilled(app, models[i := FillModel(app, raw)]);
  }

  lemma FilledName(app: string, m: Model)
    ensures FillModel(app, m).name == m.name
  {
  }

  lemma ReplacedChange(s: ProjectState, app: string, i: nat, m: Model)
    requires ValidState(s) && i < |ModelsOf(s, app)| && m.name == ModelsOf(s, app)[i].name
    requires ModelIndex(ModelsOf(s, app), m.name) == i
    requires Normalized(Schema(FORMAT_VERSION, app, ModelsOf(s, app)[i := m]))
    ensures var t := WithModels(s, app, ModelsOf(s, app)[i := m]);
      ValidState(t) && Changed(s, t, app, m.name) && FindModel(t, app, m.name) == Some(m)
  {
    hide Normalized, ValidState, FindIn;
    var models := ModelsOf(s, app);
    WithModelsValid(s, app, models[i := m]);
    forall n ensures FindIn(models[i := m], n) == if n == m.name then Some(m) else FindIn(models, n) {
      FindReplaced(models, i, m, n);
    }
    FindReplaced(models, i, m, m.name);
    hide ModelsOf;
    ChangedModels(s, WithModels(s, app, models[i := m]), app, m.name);
  }

  lemma ShrunkName(app: string, m: Model, name: string)
    ensures Shrunk(app, m, name).name == m.name
  {
  }

  lemma ShrunkKept(app: string, m: Model, f: Field)
    requires ValidModel(m) && FilledModel(app, m) && !f.primaryKey && HoldsField(m, f)
    ensures Shrunk(app, m, f.name) == DropField(m, f.name)
  {
    hide FillModel, ValidModel, FieldIndex;
    var j := FieldIndex(m.fields, f.name);
    ValidFieldAt(m, j);
    KeptKey(app, m, j);
  }

  lemma ValidFieldAt(m: Model, j: nat)
    requires ValidModel(m) && j < |m.fields|
    ensures ValidField(m.fields[j]) && (m.fields[j].primaryKey <==> m.fields[j].kind == AUTO)
  {
  }

  lemma FoundAt(s: ProjectState, app: string, name: string)
    ensures var models := ModelsOf(s, app); var i := ModelIndex(models, name);
      i < |models| ==> FindModel(s, app, name) == Some(models[i])
  {
  }

  lemma FilledFieldName(field: Field)
    ensures FillField(field).name == field.name && FillField(field).primaryKey == field.primaryKey
  {
  }

  /** Removing a field replaces exactly the model it names; a field that is no key leaves the others as they were. */
  lemma AddBackwardChange(s: ProjectState, app: string, modelName: string, field: Field)
    requires ValidState(s) && AddBackward(s, app, modelName, field).Some?
    ensures FindModel(s, app, modelName).Some?
    ensures var t, m := AddBackward(s, app, modelName, field).value, FindModel(s, app, modelName).value;
      && ValidState(t) && Changed(s, t, app, modelName)
      && HoldsField(m, FillField(field)) && ValidModel(m)
      && FindModel(t, app, modelName) == Some(Shrunk(app, m, field.name))
      && (!field.primaryKey ==> Shrunk(app, m, field.name) == DropField(m, field.name))
  {
    hide *;
    AddBackwardEffect(s, app, modelName, field);
    var models := ModelsOf(s, app);
    var i := ModelIndex(models, modelName);
    var m := models[i];
    FoundAt(s, app, modelName);
    var f := FillField(field);
    FilledFieldName(field);
    ShrunkName(app, m, field.name);
    ReplacedChange(s, app, i, Shrunk(app, m, field.name));
    if !field.primaryKey {
      ShrunkKept(app, m, f);
    }
  }

  // ---------------------------------------------------------------- exactly when a transition succeeds

  lemma ModelsExtended(models: seq<Model>, m: Model)
    requires ValidModels(models)
    ensures ValidModels(models + [m]) <==> ValidModel(m) && forall x :: x in models ==> ModelsApart(x, m)
  {
    hide ValidModel;
    var more := models + [m];
    assert more[|models|] == m && forall i :: 0 <= i < |models| ==> more[i] == models[i];
    if ValidModels(more) {
      assert forall i :: 0 <= i < |models| ==> ModelsApart(more[i], more[|models|]);
    }
  }

  lemma CreateForwardWorks(s: ProjectState, app: string, model: Model)
    requires ValidState(s)
    ensures CreateForward(s, app, model).Some? <==>
      var m := FillModel(app, model);
      DatabaseIdentifier(app) && ValidModel(m) && forall x :: x in ModelsOf(s, app) ==> ModelsApart(x, m)
  {
    hide FillModel, ValidModel, FilledModel, Normalize, DatabaseIdentifier;
    var m, models := FillModel(app, model), ModelsOf(s, app);
    StateModels(s, app);
    FillModelIdempotent(app, model);
    SingleModelExactly(app, model);
    ModelsExtended(models, m);
    NormalizeFilled(app, models + [m]);
    hide ValidModels, Normalized, ModelsApart;
    var i := ModelIndex(models, m.name);
    if i < |models| {
      assert models[i] in models && !ModelsApart(models[i], m) by { SameNames(models[i], m); }
    }
  }

  /**
   * A model can be created exactly if, with its defaults, it is valid and shares no name or table within its app; it is
   * then the last model of the app, and nothing else changes.
   */
  lemma CreateForwardExactly(s: ProjectState, app: string, model: Model)
    requires ValidState(s)
    ensures CreateForward(s, app, model) ==
      var m := FillModel(app, model);
      if DatabaseIdentifier(app) && ValidModel(m) && (forall x :: x in ModelsOf(s, app) ==> ModelsApart(x, m)) then
        Some(WithModels(s, app, ModelsOf(s, app) + [m]))
      else None
  {
    hide *;
    CreateForwardWorks(s, app, model);
    if CreateForward(s, app, model).Some? {
      CreateForwardEffect(s, app, model);
    }
  }

  lemma SameNames(a: Model, b: Model)
    requires a.name == b.name
    ensures !ModelsApart(a, b)
  {
  }

  lemma SingleModelExactly(app: string, model: Model)
    ensures SingleModel(app, model) ==
      if DatabaseIdentifier(app) && ValidModel(FillModel(app, model)) then Some(FillModel(app, model)) else None
  {
    hide ValidModel, FillModel;
    var filled := FillSchema(Schema(FORMAT_VERSION, app, [model]));
    assert filled.models[0] == FillModel(app, model);
  }

  lemma FieldsExtended(fields: seq<Field>, f: Field)
    requires ValidFields(fields)
    ensures ValidFields(fields + [f]) <==> ValidNames(f) && ValidField(f) && forall x :: x in fields ==> FieldsApart(x, f)
  {
    hide ValidNames, ValidField;
    var more := fields + [f];
    assert more[|fields|] == f && forall i :: 0 <= i < |fields| ==> more[i] == fields[i];
    if ValidFields(more) {
      assert forall i :: 0 <= i < |fields| ==> FieldsApart(more[i], more[|fields|]);
    }
  }

  lemma {:induction false} KeysConcat(a: seq<Field>, b: seq<Field>)
    ensures PrimaryKeys(a + b) == PrimaryKeys(a) + PrimaryKeys(b)
    decreases |b|
  {
    if b == [] {
      assert a + b == a;
    } else {
      var n := |b| - 1;
      assert (a + b)[..|a| + n] == a + b[..n];
      KeysConcat(a, b[..n]);
    }
  }

  lemma OneKey(f: Field)
    ensures PrimaryKeys([f]) == if f.primaryKey then 1 else 0
  {
    assert [f][..0] == [];
  }

  lemma {:induction false} NoKeys(fields: seq<Field>)
    ensures PrimaryKeys(fields) == 0 <==> forall i :: 0 <= i < |fields| ==> !fields[i].primaryKey
    decreases |fields|
  {
    if fields != [] {
      NoKeys(fields[..|fields| - 1]);
    }
  }

  lemma ModelReplacedValid(models: seq<Model>, i: nat, m: Model)
    requires ValidModels(models) && i < |models|
    requires m.name == models[i].name && m.goName == models[i].goName && m.dbTable == models[i].dbTable
    ensures ValidModels(models[i := m]) <==> ValidModel(m)
  {
    hide ValidModel;
    assert models[i := m][i] == m;
  }

  lemma FieldAddedValid(m: Model, f: Field)
    requires ValidModel(m)
    ensures ValidModel(m.(fields := m.fields + [f])) <==>
      ValidNames(f) && ValidField(f) && !f.primaryKey && forall x :: x in m.fields ==> FieldsApart(x, f)
  {
    hide ValidFields, PrimaryKeys;
    FieldsExtended(m.fields, f);
    KeysConcat(m.fields, [f]);
    OneKey(f);
  }

  /** A field that clashes shares a name or column with some field of the model. */
  lemma ClashShares(fields: seq<Field>, field: Field)
    requires FieldClashes(fields, field)
    ensures exists x :: x in fields && !FieldsApart(x, FillField(field))
  {
    var i :| 0 <= i < |fields| && (fields[i].name == field.name || (field.column != "" && fields[i].column == field.column));
    assert fields[i] in fields && !FieldsApart(fields[i], FillField(field));
  }

  /** A field can be added exactly if, with its column filled in, it is valid, no key, and shares no name or column. */
  lemma AddForwardExactly(s: ProjectState, app: string, modelName: string, field: Field)
    requires ValidState(s)
    ensures AddForward(s, app, modelName, field).Some? <==>
      && FindModel(s, app, modelName).Some?
      && var m, f := FindModel(s, app, modelName).value, FillField(field);
         ValidNames(f) && ValidField(f) && !f.primaryKey && forall x :: x in m.fields ==> FieldsApart(x, f)
  {
    hide FillField, FillFields, FillModel, FilledModel, Normalize, Normalized, ValidNames, ValidField, FieldsApart, ValidModel, FieldClashes;
    StateModels(s, app);
    var models := ModelsOf(s, app);
    var i := ModelIndex(models, modelName);
    if i < |models| {
      var m := models[i];
      var raw, next := m.(fields := m.fields + [field]), m.(fields := m.fields + [FillField(field)]);
      FilledFields(app, m);
      FillAppended(app, m, field);
      FilledFields(app, next);
      FillReplaced(app, models, i, raw, next);
      NormalizeFilled(app, models[i := next]);
      ModelReplacedValid(models, i, next);
      ValidAt(models, i);
      FieldAddedValid(m, FillField(field));
      if FieldClashes(m.fields, field) {
        ClashShares(m.fields, field);
      }
      hide ValidModels;
    }
  }

  lemma ValidAt(models: seq<Model>, i: nat)
    requires ValidModels(models) && i < |models|
    ensures ValidModel(models[i])
  {
  }

  lemma {:induction false} OthersFrom(models: seq<Model>, name: string, m: Model)
    ensures m in OtherModels(models, name) ==> m in models
    decreases models
  {
    if models != [] {
      OthersFrom(models[1..], name, m);
    }
  }

  lemma {:induction false} OthersValid(models: seq<Model>, name: string)
    requires ValidModels(models)
    ensures ValidModels(OtherModels(models, name))
    decreases models
  {
    hide ValidModel;
    if models != [] {
      var first, rest := models[0], OtherModels(models[1..], name);
      OthersValid(models[1..], name);
      if first.name != name {
        forall j | 0 <= j < |rest| ensures ModelsApart(first, rest[j]) {
          OthersFrom(models[1..], name, rest[j]);
          var k :| 0 <= k < |models[1..]| && models[1..][k] == rest[j];
          assert ModelsApart(models[0], models[k + 1]);
        }
      }
    }
  }

  lemma FoundDeleted(s: ProjectState, app: string, model: Model)
    requires ValidState(s) && FindModel(s, app, model.name) == Some(FillModel(app, model))
    ensures CreateBackward(s, app, model).Some?
  {
    FilledName(app, model);
    SingleModelExactly(app, model);
    StateModels(s, app);
    hide FillModel, FilledModel, Normalize, Normalized, ValidModel, SingleModel, OtherModels, ModelIndex, ValidModels, ValidState;
    var models := ModelsOf(s, app);
    ValidAt(models, ModelIndex(models, model.name));
    OthersFilled(app, models, model.name);
    OthersValid(models, model.name);
    NormalizeFilled(app, OtherModels(models, model.name));
  }

  /** A model can be deleted exactly if it is there and is the one that the operation creates. */
  lemma CreateBackwardExactly(s: ProjectState, app: string, model: Model)
    requires ValidState(s)
    ensures CreateBackward(s, app, model).Some? <==> FindModel(s, app, model.name) == Some(FillModel(app, model))
  {
    hide *;
    if CreateBackward(s, app, model).Some? {
      BackwardValid(s, app, model);
    }
    if FindModel(s, app, model.name) == Some(FillModel(app, model)) {
      FoundDeleted(s, app, model);
    }
  }

  lemma FieldDropped(m: Model, j: nat)
    requires ValidModel(m) && j < |m.fields|
    ensures var rest := m.fields[..j] + m.fields[j + 1..];
      ValidFields(rest) && PrimaryKeys(rest) == if m.fields[j].primaryKey then 0 else 1
  {
    hide ValidNames, ValidField, PrimaryKeys;
    var f := m.fields[j];
    assert m.fields == m.fields[..j] + ([f] + m.fields[j + 1..]);
    KeysConcat(m.fields[..j], [f] + m.fields[j + 1..]);
    KeysConcat([f], m.fields[j + 1..]);
    KeysConcat(m.fields[..j], m.fields[j + 1..]);
    OneKey(f);
  }

  lemma KeyPutBack(app: string, m: Model, j: nat)
    requires ValidModel(m) && FilledModel(app, m) && j < |m.fields| && m.fields[j].primaryKey
    ensures var rest := m.fields[..j] + m.fields[j + 1..];
      FillModel(app, m.(fields := rest)) == m.(fields := [IMPLICIT_ID] + rest)
  {
    var rest := m.fields[..j] + m.fields[j + 1..];
    FieldDropped(m, j);
    NoKeys(rest);
    FilledFields(app, m);
    KeylessNoAuto(rest);
    hide ValidFields, PrimaryKeys, HasAuto;
    assert forall k :: 0 <= k < |m.fields| ==> FillField(m.fields[k]) == m.fields[k];
    assert FillFields([IMPLICIT_ID] + rest) == [IMPLICIT_ID] + rest;
  }

  lemma KeylessNoAuto(fields: seq<Field>)
    requires ValidFields(fields) && forall i :: 0 <= i < |fields| ==> !fields[i].primaryKey
    ensures !HasAuto(fields)
  {
  }

  lemma FieldsPrefixed(f: Field, rest: seq<Field>)
    requires ValidFields(rest) && ValidNames(f) && ValidField(f)
    ensures ValidFields([f] + rest) <==> forall x :: x in rest ==> FieldsApart(f, x)
  {
    hide ValidNames, ValidField, FieldsApart;
    var more := [f] + rest;
    assert forall i :: 1 <= i < |more| ==> more[i] == rest[i - 1];
    if ValidFields(more) {
      forall x | x in rest ensures FieldsApart(f, x) {
        var i :| 0 <= i < |rest| && rest[i] == x;
        assert more[i + 1] == x && more[0] == f;
      }
    }
  }

  lemma KeyFirstValid(m: Model, rest: seq<Field>)
    requires ValidModel(m) && ValidFields(rest) && PrimaryKeys(rest) == 0
    ensures ValidModel(m.(fields := [IMPLICIT_ID] + rest)) <==> forall x :: x in rest ==> FieldsApart(IMPLICIT_ID, x)
  {
    hide PrimaryKeys, ValidFields, FieldsApart;
    KeysConcat([IMPLICIT_ID], rest);
    OneKey(IMPLICIT_ID);
    FieldsPrefixed(IMPLICIT_ID, rest);
  }

  /** What a model becomes without a field is valid exactly if a key that is put back finds its names free. */
  lemma ShrunkValid(app: string, m: Model, f: Field)
    requires ValidModel(m) && FilledModel(app, m) && HoldsField(m, f)
    ensures ValidModel(Shrunk(app, m, f.name)) <==>
      (f.primaryKey ==> forall x :: x in DropField(m, f.name).fields ==> FieldsApart(IMPLICIT_ID, x))
  {
    hide FillModel, FilledModel, ValidFields, PrimaryKeys, FieldIndex, FieldsApart;
    var j := FieldIndex(m.fields, f.name);
    FieldDropped(m, j);
    if f.primaryKey {
      KeyPutBack(app, m, j);
      KeyFirstValid(m, m.fields[..j] + m.fields[j + 1..]);
    } else {
      ShrunkKept(app, m, f);
      DroppedNotEmpty(m, j);
    }
  }

  lemma DroppedNotEmpty(m: Model, j: nat)
    requires ValidModel(m) && j < |m.fields| && !m.fields[j].primaryKey
    ensures m.fields[..j] + m.fields[j + 1..] != []
  {
    if |m.fields| == 1 {
      assert m.fields == [m.fields[0]];
      OneKey(m.fields[0]);
    }
  }

  /** A field can be removed exactly if it is there as added and, if it was the key, a new key finds its names free. */
  lemma AddBackwardExactly(s: ProjectState, app: string, modelName: string, field: Field)
    requires ValidState(s)
    ensures AddBackward(s, app, modelName, field).Some? <==>
      && FindModel(s, app, modelName).Some?
      && var m := FindModel(s, app, modelName).value;
         && HoldsField(m, FillField(field))
         && (field.primaryKey ==> forall x :: x in DropField(m, field.name).fields ==> FieldsApart(IMPLICIT_ID, x))
  {
    hide FillField, FillModel, FilledModel, Normalize, Normalized, FieldsApart, ValidModel;
    FilledFieldName(field);
    StateModels(s, app);
    var models := ModelsOf(s, app);
    var i := ModelIndex(models, modelName);
    if i < |models| && HoldsField(models[i], FillField(field)) {
      var m := models[i];
      var raw, next := DropField(m, field.name), Shrunk(app, m, field.name);
      FillModelIdempotent(app, raw);
      SameHeaderKept(app, m, field.name);
      FillReplaced(app, models, i, raw, next);
      NormalizeFilled(app, models[i := next]);
      ValidAt(models, i);
      ModelReplacedValid(models, i, next);
      ShrunkValid(app, m, FillField(field));
      hide ValidModels;
    }
  }

  lemma SameHeaderKept(app: string, m: Model, name: string)
    requires FilledModel(app, m)
    ensures var next := Shrunk(app, m, name); next.name == m.name && next.goName == m.goName && next.dbTable == m.dbTable
  {
  }
}
