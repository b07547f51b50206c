/** Historical project states: normalized schemas grouped by app. */
module ProjectStates {
  import opened Errors
  import opened SchemaIR

  const STATE_FORMAT_VERSION := 1

  /** A version of zero stands for the current one. */
  datatype ProjectState = ProjectState(version: int, apps: map<string, Schema>)

  const EMPTY_STATE := ProjectState(STATE_FORMAT_VERSION, map[])

  function Clone(s: ProjectState): ProjectState {
    if s.version == 0 then s.(version := STATE_FORMAT_VERSION) else s
  }

  predicate ValidState(s: ProjectState) {
    && Clone(s).version == STATE_FORMAT_VERSION
    && forall app :: app in s.apps ==> s.apps[app].appLabel == app && Normalized(s.apps[app])
  }

  function ModelsOf(s: ProjectState, app: string): seq<Model> {
    if app in s.apps then s.apps[app].models else []
  }

  /** The position of the first model with the name; the number of models if there is none. */
  function ModelIndex(models: seq<Model>, name: string): (i: nat)
    ensures i <= |models|
    ensures i < |models| ==> models[i].name == name
    ensures forall j :: 0 <= j < i ==> models[j].name != name
  {
    if models == [] || models[0].name == name then 0 else 1 + ModelIndex(models[1..], name)
  }

  function FieldIndex(fields: seq<Field>, name: string): (i: nat)
    ensures i <= |fields|
    ensures i < |fields| ==> fields[i].name == name
    ensures forall j :: 0 <= j < i ==> fields[j].name != name
  {
    if fields == [] || fields[0].name == name then 0 else 1 + FieldIndex(fields[1..], name)
  }

  function FindIn(models: seq<Model>, name: string): Option<Model> {
    var i := ModelIndex(models, name);
    if i < |models| then Some(models[i]) else None
  }

  function FindModel(s: ProjectState, app: string, name: string): Option<Model> {
    FindIn(ModelsOf(s, app), name)
  }

  function FindField(s: ProjectState, app: string, modelName: string, name: string): Option<Field> {
    match FindModel(s, app, modelName)
    case None => None
    case Some(m) =>
      var i := FieldIndex(m.fields, name);
      if i < |m.fields| then Some(m.fields[i]) else None
  }

  function WithSchema(s: ProjectState, schema: Schema): ProjectState {
    var next := Clone(s);
    next.(apps := next.apps[schema.appLabel := schema])
  }

  function WithoutApp(s: ProjectState, app: string): ProjectState {
    var next := Clone(s);
    next.(apps := next.apps - {app})
  }

  /** The only versions are 1 and its absence, and both stand for the same states. */
  lemma StateVersions(s: ProjectState)
    ensures ValidState(s) ==> s.version == 0 || s.version == 1
    ensures ValidState(s.(version := 0)) <==> ValidState(s.(version := 1))
    ensures Clone(s.(version := 0)) == s.(version := 1) && (s.version != 0 ==> Clone(s) == s)
  {
  }

  function SingleModel(app: string, model: Model): Option<Model> {
    match Normalize(Schema(FORMAT_VERSION, app, [model]))
    case None => None
    case Some(schema) => Some(schema.models[0])
  }

  lemma SingleModelFilled(app: string, model: Model)
    ensures SingleModel(app, model).Some? ==>
      var m := SingleModel(app, model).value;
      m == FillModel(app, model) && ValidModel(m) && FilledModel(app, m) && DatabaseIdentifier(app)
  {
    FillModelIdempotent(app, model);
    hide FillModel, ValidModel;
  }

  /** A schema of valid, distinct, filled models normalizes to itself. */
  lemma NormalizeFilled(app: string, models: seq<Model>)
    requires forall i :: 0 <= i < |models| ==> FilledModel(app, models[i])
    ensures Normalize(Schema(FORMAT_VERSION, app, models)).Some? ==>
      Normalize(Schema(FORMAT_VERSION, app, models)) == Some(Schema(FORMAT_VERSION, app, models))
    ensures Normalize(Schema(FORMAT_VERSION, app, models)).Some? <==>
      DatabaseIdentifier(app) && models != [] && ValidModels(models)
    ensures Normalize(Schema(FORMAT_VERSION, app, models)).Some? <==> Normalized(Schema(FORMAT_VERSION, app, models))
  {
    hide ValidModels, FillModel;
    assert FillModels(app, models) == models;
  }
}
