/** Typed operations: their state transitions in both directions, and how one undoes the other. */
module Operations {
  import opened Errors
  import opened SchemaIR
  import opened ProjectStates

  datatype Operation =
    | CreateModel(appLabel: string, model: Model)
    | AddField(appLabel: string, modelName: string, field: Field)
    | NilOperation

  /** Creates a model that must not exist yet; the app appears with its first model. */
  function CreateForward(s: ProjectState, app: string, model: Model): Option<ProjectState> {
    match SingleModel(app, model)
    case None => None
    case Some(m) =>
      if FindModel(s, app, m.name).Some? then None
      else
        var schema := if app in s.apps then s.apps[app] else Schema(FORMAT_VERSION, app, []);
        match Normalize(schema.(models := schema.models + [m]))
        case None => None
        case Some(normalized) => Some(WithSchema(s, normalized))
  }

  function OtherModels(models: seq<Model>, name: string): seq<Model> {
    if models == [] then []
    else if models[0].name == name then OtherModels(models[1..], name)
    else [models[0]] + OtherModels(models[1..], name)
  }

  /** Removes a model that must equal what the operation created; the app disappears with its last model. */
  function CreateBackward(s: ProjectState, app: string, model: Model): Option<ProjectState> {
    match SingleModel(app, model)
    case None => None
    case Some(want) =>
      match FindModel(s, app, want.name)
      case None => None
      case Some(actual) =>
        if actual != want then None
        else if app !in s.apps then None
        else
          var models := OtherModels(s.apps[app].models, want.name);
          if models == [] then Some(WithoutApp(s, app))
          else
            match Normalize(s.apps[app].(models := models))
            case None => None
            case Some(normalized) => Some(WithSchema(s, normalized))
  }

  predicate FieldClashes(fields: seq<Field>, field: Field) {
    exists i :: 0 <= i < |fields| &&
      (fields[i].name == field.name || (field.column != "" && fields[i].column == field.column))
  }

  /** Appends a field whose name and explicit column are new to the model. */
  function AddForward(s: ProjectState, app: string, modelName: string, field: Field): Option<ProjectState> {
    if app !in s.apps then None
    else
      var schema := s.apps[app];
      var i := ModelIndex(schema.models, modelName);
      if i == |schema.models| || FieldClashes(schema.models[i].fields, field) then None
      else
        var m := schema.models[i];
        match Normalize(schema.(models := schema.models[i := m.(fields := m.fields + [field])]))
        case None => None
        case Some(normalized) => Some(WithSchema(s, normalized))
  }

  /** Removes a field that must equal what the operation added. */
  function AddBackward(s: ProjectState, app: string, modelName: string, field: Field): Option<ProjectState> {
    if app !in s.apps then None
    else
      var schema := s.apps[app];
      var i := ModelIndex(schema.models, modelName);
      if i == |schema.models| then None
      else
        var m := schema.models[i];
        var j := FieldIndex(m.fields, field.name);
        if j == |m.fields| || m.fields[j] != FillField(field) then None
        else
          match Normalize(schema.(models := schema.models[i := m.(fields := m.fields[..j] + m.fields[j + 1..])]))
          case None => None
          case Some(normalized) => Some(WithSchema(s, normalized))
  }

  function StateForward(s: ProjectState, op: Operation): Option<ProjectState> {
    match op
    case CreateModel(app, model) => CreateForward(s, app, model)
    case AddField(app, modelName, field) => AddForward(s, app, modelName, field)
    case NilOperation => None
  }

  function StateBackward(s: ProjectState, op: Operation): Option<ProjectState> {
    match op
    case CreateModel(app, model) => CreateBackward(s, app, model)
    case AddField(app, modelName, field) => AddBackward(s, app, modelName, field)
    case NilOperation => None
  }

  /** The state with the models of one app replaced. */
  function WithModels(s: ProjectState, app: string, models: seq<Model>): ProjectState {
    WithSchema(s, Schema(FORMAT_VERSION, app, models))
  }

  predicate FilledModels(app: string, models: seq<Model>) {
    forall i :: 0 <= i < |models| ==> FilledModel(app, models[i])
  }

  lemma StateModels(s: ProjectState, app: string)
    requires ValidState(s)
    ensures FilledModels(app, ModelsOf(s, app)) && ValidModels(ModelsOf(s, app))
    ensures app in s.apps ==> s.apps[app] == Schema(FORMAT_VERSION, app, ModelsOf(s, app)) && DatabaseIdentifier(app)
    ensures app in s.apps <==> ModelsOf(s, app) != []
  {
  }

  lemma WithModelsValid(s: ProjectState, app: string, models: seq<Model>)
    requires ValidState(s) && Normalized(Schema(FORMAT_VERSION, app, models))
    ensures ValidState(WithModels(s, app, models))
    ensures ModelsOf(WithModels(s, app, models), app) == models
    ensures forall other :: other != app ==> ModelsOf(WithModels(s, app, models), other) == ModelsOf(s, other)
  {
    hide Normalized;
  }

  /** A successful creation appends the filled model to its app. */
  lemma CreateForwardEffect(s: ProjectState, app: string, model: Model)
    requires ValidState(s) && CreateForward(s, app, model).Some?
    ensures var m := FillModel(app, model);
      && SingleModel(app, model) == Some(m) && FindModel(s, app, m.name).None?
      && CreateForward(s, app, model) == Some(WithModels(s, app, ModelsOf(s, app) + [m]))
      && Normalized(Schema(FORMAT_VERSION, app, ModelsOf(s, app) + [m]))
  {
    hide FillModel, ValidModels, Normalized, FilledModel;
    SingleModelFilled(app, model);
    StateModels(s, app);
    NormalizeFilled(app, ModelsOf(s, app) + [FillModel(app, model)]);
  }

  /** A successful addition appends the filled field to its model. */
  lemma AddForwardEffect(s: ProjectState, app: string, modelName: string, field: Field)
    requires ValidState(s) && AddForward(s, app, modelName, field).Some?
    ensures var models := ModelsOf(s, app); var i := ModelIndex(models, modelName);
      && i < |models|
      && var m := models[i].(fields := models[i].fields + [FillField(field)]);
         && AddForward(s, app, modelName, field) == Some(WithModels(s, app, models[i := m]))
         && Normalized(Schema(FORMAT_VERSION, app, models[i := m]))
  {
    hide ValidModels, Normalized, FillFields;
    StateModels(s, app);
    var models := ModelsOf(s, app);
    var i := ModelIndex(models, modelName);
    var raw := models[i].(fields := models[i].fields + [field]);
    var m := models[i].(fields := models[i].fields + [FillField(field)]);
    FilledFields(app, models[i]);
    FillAppended(app, models[i], field);
    FilledFields(app, m);
    hide FillModel, FilledModel;
    FillReplaced(app, models, i, raw, m);
    NormalizeFilled(app, models[i := m]);
  }

  lemma FillAppended(app: string, m: Model, field: Field)
    requires FilledModel(app, m) && HasAuto(m.fields) && FillFields(m.fields) == m.fields
    ensures FillModel(app, m.(fields := m.fields + [field])) == m.(fields := m.fields + [FillField(field)])
    ensures HasAuto(m.fields + [FillField(field)])
    ensures FillFields(m.fields + [FillField(field)]) == m.fields + [FillField(field)]
  {
    var more := m.fields + [field];
    var i :| 0 <= i < |m.fields| && m.fields[i].kind == AUTO;
    assert more[i].kind == AUTO && (m.fields + [FillField(field)])[i].kind == AUTO;
    assert app + "_" + m.name != "";
    assert FillFields(more) == FillFields(m.fields) + [FillField(field)];
  }

  lemma FillReplaced(app: string, models: seq<Model>, i: nat, raw: Model, m: Model)
    requires i < |models| && FilledModels(app, models) && FillModel(app, raw) == m && FilledModel(app, m)
    ensures FilledModels(app, models[i := m])
    ensures FillSchema(Schema(FORMAT_VERSION, app, models[i := raw])) == Schema(FORMAT_VERSION, app, models[i := m])
    ensures Normalize(Schema(FORMAT_VERSION, app, models[i := raw])) == Normalize(Schema(FORMAT_VERSION, app, models[i := m]))
  {
    hide FillModel, ValidSchema;
    var before, after := models[i := raw], models[i := m];
    forall j | 0 <= j < |models| ensures FillModel(app, before[j]) == after[j] {
      assert FilledModel(app, models[j]);
    }
    assert FillModels(app, models[i := raw]) == models[i := m];
    assert FillModels(app, models[i := m]) == models[i := m];
  }

  lemma {:induction false} OthersWithoutLast(models: seq<Model>, m: Model)
    requires forall j :: 0 <= j < |models| ==> models[j].name != m.name
    ensures OtherModels(models + [m], m.name) == models
  {
    if models != [] {
      assert (models + [m])[1..] == models[1..] + [m];
      OthersWithoutLast(models[1..], m);
    } else {
      assert (models + [m])[1..] == [];
    }
  }

  lemma ReplacedApp(s: ProjectState, app: string, models: seq<Model>)
    requires ValidState(s)
    ensures app in s.apps ==> WithModels(WithModels(s, app, models), app, ModelsOf(s, app)) == Clone(s)
    ensures app !in s.apps ==> WithoutApp(WithModels(s, app, models), app) == Clone(s)
  {
    hide Normalized;
    StateModels(s, app);
    var t := WithModels(s, app, models);
    if app in s.apps {
      assert WithModels(t, app, ModelsOf(s, app)).apps == s.apps;
    } else {
      assert WithoutApp(t, app).apps == s.apps;
    }
  }

  /** Undoing a creation restores the state. */
  lemma CreateUndone(s: ProjectState, app: string, model: Model)
    requires ValidState(s) && CreateForward(s, app, model).Some?
    ensures ValidState(CreateForward(s, app, model).value)
    ensures CreateBackward(CreateForward(s, app, model).value, app, model) == Some(Clone(s))
  {
    hide FillModel, ValidModels, FilledModel, ValidModel;
    CreateForwardEffect(s, app, model);
    StateModels(s, app);
    var models, m := ModelsOf(s, app), FillModel(app, model);
    var t := WithModels(s, app, models + [m]);
    WithModelsValid(s, app, models + [m]);
    FoundLast(models, m);
    OthersWithoutLast(models, m);
    ReplacedApp(s, app, models + [m]);
    hide Normalized;
    NormalizeFilled(app, models);
  }

  lemma FoundLast(models: seq<Model>, m: Model)
    requires ModelIndex(models, m.name) == |models|
    ensures ModelIndex(models + [m], m.name) == |models|
    ensures forall j :: 0 <= j < |models| ==> models[j].name != m.name
  {
    var j := ModelIndex(models + [m], m.name);
    assert forall i :: 0 <= i < |models| ==> (models + [m])[i] == models[i];
    assert (models + [m])[|models|] == m;
  }

  /** Undoing a field addition restores the state. */
  lemma AddUndone(s: ProjectState, app: string, modelName: string, field: Field)
    requires ValidState(s) && AddForward(s, app, modelName, field).Some?
    ensures ValidState(AddForward(s, app, modelName, field).value)
    ensures AddBackward(AddForward(s, app, modelName, field).value, app, modelName, field) == Some(Clone(s))
  {
    hide ValidModels, FillFields, ValidFields, FillModel, FilledModel;
    AddForwardEffect(s, app, modelName, field);
    StateModels(s, app);
    var models := ModelsOf(s, app);
    var i := ModelIndex(models, modelName);
    var f := FillField(field);
    var m := models[i].(fields := models[i].fields + [f]);
    WithModelsValid(s, app, models[i := m]);
    assert !FieldClashes(models[i].fields, field);
    FoundReplaced(models, i, m);
    FoundLastField(models[i].fields, f);
    assert m.fields[..|models[i].fields|] + m.fields[|models[i].fields| + 1..] == models[i].fields;
    assert models[i := m][i := models[i]] == models;
    ReplacedApp(s, app, models[i := m]);
    hide Normalized;
    NormalizeFilled(app, models);
  }

  lemma FoundReplaced(models: seq<Model>, i: nat, m: Model)
    requires i < |models| && ModelIndex(models, models[i].name) == i && m.name == models[i].name
    ensures ModelIndex(models[i := m], m.name) == i
  {
  }

  lemma FoundLastField(fields: seq<Field>, f: Field)
    requires forall j :: 0 <= j < |fields| ==> fields[j].name != f.name
    ensures FieldIndex(fields + [f], f.name) == |fields|
  {
    assert (fields + [f])[|fields|] == f;
    assert forall i :: 0 <= i < |fields| ==> (fields + [f])[i] == fields[i];
  }

  /** Every operation's backward transition undoes its forward transition, and keeps states valid. */
  lemma OperationUndone(s: ProjectState, op: Operation)
    requires ValidState(s) && StateForward(s, op).Some?
    ensures ValidState(StateForward(s, op).value)
    ensures StateBackward(StateForward(s, op).value, op) == Some(Clone(s))
  {
    match op {
      case CreateModel(app, model) => CreateUndone(s, app, model);
      case AddField(app, modelName, field) => AddUndone(s, app, modelName, field);
    }
  }
}
