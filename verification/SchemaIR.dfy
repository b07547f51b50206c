/** The normalized schema representation: filling defaults in, and what a valid schema is. */
module SchemaIR {
  import opened Errors

  const FORMAT_VERSION := 2

  const AUTO := "auto"
  const CHAR := "char"
  const BOOLEAN := "boolean"

  const SCALAR_STRING := "string"
  const SCALAR_BOOLEAN := "boolean"
  const SCALAR_INTEGER := "integer"

  datatype ScalarDefault = ScalarDefault(kind: string, text: string, boolean: bool, integer: int)

  datatype Field = Field(
    name: string, goName: string, column: string, kind: string,
    primaryKey: bool, nullable: bool, maxLength: int, defaultValue: Option<ScalarDefault>)

  datatype Model = Model(name: string, goName: string, dbTable: string, fields: seq<Field>)

  datatype Schema = Schema(formatVersion: int, appLabel: string, models: seq<Model>)

  const IMPLICIT_ID := Field("id", "ID", "id", AUTO, true, false, 0, None)

  predicate LowerOrUnderscore(c: char) {
    'a' <= c <= 'z' || c == '_'
  }

  predicate Digit(c: char) {
    '0' <= c <= '9'
  }

  predicate Upper(c: char) {
    'A' <= c <= 'Z'
  }

  predicate DatabaseIdentifier(s: string) {
    && s != "" && LowerOrUnderscore(s[0])
    && forall i :: 0 <= i < |s| ==> LowerOrUnderscore(s[i]) || Digit(s[i])
  }

  /** Exported Go identifiers, restricted to ASCII. */
  predicate ExportedIdentifier(s: string) {
    && s != "" && Upper(s[0])
    && forall i :: 0 <= i < |s| ==> LowerOrUnderscore(s[i]) || Digit(s[i]) || Upper(s[i])
  }

  /** Identifiers by their grammar: a lower-case letter or underscore, then letters, underscores and digits. */
  lemma IdentifierGrammar(s: string, c: char)
    ensures !DatabaseIdentifier("")
    ensures DatabaseIdentifier([c]) <==> 'a' <= c <= 'z' || c == '_'
    ensures s != "" ==>
      (DatabaseIdentifier(s + [c]) <==> DatabaseIdentifier(s) && ('a' <= c <= 'z' || c == '_' || '0' <= c <= '9'))
  {
    if s != "" {
      var t := s + [c];
      assert t[|s|] == c && forall i :: 0 <= i < |s| ==> t[i] == s[i];
    }
  }

  /** Exported Go identifiers by their grammar: an upper-case letter, then letters, underscores and digits. */
  lemma ExportedGrammar(s: string, c: char)
    ensures !ExportedIdentifier("")
    ensures ExportedIdentifier([c]) <==> 'A' <= c <= 'Z'
    ensures s != "" ==>
      (ExportedIdentifier(s + [c]) <==>
        ExportedIdentifier(s) && ('a' <= c <= 'z' || 'A' <= c <= 'Z' || c == '_' || '0' <= c <= '9'))
  {
    if s != "" {
      var t := s + [c];
      assert t[|s|] == c && forall i :: 0 <= i < |s| ==> t[i] == s[i];
    }
  }

  lemma JoinedIdentifier(a: string, b: string)
    requires DatabaseIdentifier(a) && DatabaseIdentifier(b)
    ensures DatabaseIdentifier(a + "_" + b)
  {
    var t := a + "_" + b;
    assert forall i :: 0 <= i < |a| ==> t[i] == a[i];
    assert t[|a|] == '_';
    assert forall i :: 0 <= i < |b| ==> t[|a| + 1 + i] == b[i];
  }

  predicate ValidScalar(value: ScalarDefault) {
    if value.kind == SCALAR_STRING then !value.boolean && value.integer == 0
    else if value.kind == SCALAR_BOOLEAN then value.text == "" && value.integer == 0
    else value.kind == SCALAR_INTEGER && value.text == "" && !value.boolean
  }

  predicate ValidField(f: Field) {
    && (f.defaultValue.Some? ==> ValidScalar(f.defaultValue.value))
    && if f.kind == AUTO then
         f.primaryKey && !f.nullable && f.maxLength == 0 && f.defaultValue.None?
       else if f.kind == CHAR then
         && !f.primaryKey && f.maxLength > 0
         && (f.defaultValue.Some? ==>
               f.defaultValue.value.kind == SCALAR_STRING && |f.defaultValue.value.text| <= f.maxLength)
       else
         && f.kind == BOOLEAN && !f.primaryKey && !f.nullable && f.maxLength == 0
         && (f.defaultValue.Some? ==> f.defaultValue.value.kind == SCALAR_BOOLEAN)
  }

  predicate ValidNames(f: Field) {
    DatabaseIdentifier(f.name) && ExportedIdentifier(f.goName) && DatabaseIdentifier(f.column)
  }

  function PrimaryKeys(fields: seq<Field>): nat {
    if fields == [] then 0
    else PrimaryKeys(fields[..|fields| - 1]) + (if fields[|fields| - 1].primaryKey then 1 else 0)
  }

  predicate FieldsApart(a: Field, b: Field) {
    a.name != b.name && a.goName != b.goName && a.column != b.column
  }

  predicate ValidFields(fields: seq<Field>) {
    && (forall i :: 0 <= i < |fields| ==> ValidNames(fields[i]) && ValidField(fields[i]))
    && (forall i, j :: 0 <= i < j < |fields| ==> FieldsApart(fields[i], fields[j]))
  }

  predicate ModelsApart(a: Model, b: Model) {
    a.name != b.name && a.goName != b.goName && a.dbTable != b.dbTable
  }

  predicate ValidModel(m: Model) {
    && DatabaseIdentifier(m.name) && ExportedIdentifier(m.goName) && DatabaseIdentifier(m.dbTable)
    && m.fields != [] && ValidFields(m.fields) && PrimaryKeys(m.fields) == 1
  }

  predicate ValidModels(models: seq<Model>) {
    && (forall i :: 0 <= i < |models| ==> ValidModel(models[i]))
    && (forall i, j :: 0 <= i < j < |models| ==> ModelsApart(models[i], models[j]))
  }

  predicate ValidSchema(s: Schema) {
    s.formatVersion == FORMAT_VERSION && DatabaseIdentifier(s.appLabel) && s.models != [] && ValidModels(s.models)
  }

  predicate HasAuto(fields: seq<Field>) {
    exists i :: 0 <= i < |fields| && fields[i].kind == AUTO
  }

  function FillField(f: Field): Field {
    if f.column == "" then f.(column := f.name) else f
  }

  function FillFields(fields: seq<Field>): (r: seq<Field>)
    ensures |r| == |fields| && forall i :: 0 <= i < |fields| ==> r[i] == FillField(fields[i])
  {
    seq(|fields|, i requires 0 <= i < |fields| => FillField(fields[i]))
  }

  function WithKey(fields: seq<Field>): seq<Field> {
    if HasAuto(fields) then fields else [IMPLICIT_ID] + fields
  }

  function FillModel(app: string, m: Model): Model {
    Model(m.name, m.goName, if m.dbTable == "" then app + "_" + m.name else m.dbTable, FillFields(WithKey(m.fields)))
  }

  function FillModels(app: string, models: seq<Model>): (r: seq<Model>)
    ensures |r| == |models| && forall i :: 0 <= i < |models| ==> r[i] == FillModel(app, models[i])
  {
    seq(|models|, i requires 0 <= i < |models| => FillModel(app, models[i]))
  }

  function FillSchema(s: Schema): Schema {
    Schema(if s.formatVersion == 0 then FORMAT_VERSION else s.formatVersion, s.appLabel, FillModels(s.appLabel, s.models))
  }

  /** Defaults filled in, if the result is valid. */
  function Normalize(s: Schema): Option<Schema> {
    if ValidSchema(FillSchema(s)) then Some(FillSchema(s)) else None
  }

  /** The schemas normalization leaves alone. */
  predicate Normalized(s: Schema) {
    ValidSchema(s) && FillSchema(s) == s
  }

  predicate FilledModel(app: string, m: Model) {
    FillModel(app, m) == m
  }

  /** Left-out names default to valid ones: a table to app_model, a column to its field's name. */
  lemma DefaultsValid(app: string, m: Model, f: Field)
    requires DatabaseIdentifier(app) && DatabaseIdentifier(m.name) && DatabaseIdentifier(f.name)
    ensures m.dbTable == "" || DatabaseIdentifier(m.dbTable) ==> DatabaseIdentifier(FillModel(app, m).dbTable)
    ensures m.dbTable == "" ==> FillModel(app, m).dbTable == app + "_" + m.name
    ensures m.dbTable != "" ==> FillModel(app, m).dbTable == m.dbTable
    ensures f.column == "" || DatabaseIdentifier(f.column) ==> DatabaseIdentifier(FillField(f).column)
    ensures FillField(f) == f.(column := if f.column == "" then f.name else f.column)
  {
    JoinedIdentifier(app, m.name);
    hide DatabaseIdentifier;
  }

  /** A model without an automatic key gets one, named id, in front of its fields. */
  lemma KeyFilled(app: string, m: Model)
    ensures var fields := FillModel(app, m).fields;
      && (exists i :: 0 <= i < |fields| && fields[i].kind == AUTO)
      && (HasAuto(m.fields) ==> |fields| == |m.fields|)
      && (!HasAuto(m.fields) ==>
            && |fields| == |m.fields| + 1
            && fields[0] == Field("id", "ID", "id", AUTO, true, false, 0, None))
  {
    if HasAuto(m.fields) {
      var i :| 0 <= i < |m.fields| && m.fields[i].kind == AUTO;
      assert FillModel(app, m).fields[i].kind == AUTO;
    } else {
      assert FillModel(app, m).fields[0] == IMPLICIT_ID;
    }
  }

  lemma FillFieldsIdempotent(fields: seq<Field>)
    ensures FillFields(FillFields(fields)) == FillFields(fields)
    ensures HasAuto(FillFields(fields)) <==> HasAuto(fields)
  {
  }

  lemma FillModelIdempotent(app: string, m: Model)
    ensures FilledModel(app, FillModel(app, m))
  {
    var fields := WithKey(m.fields);
    FillFieldsIdempotent(fields);
    assert HasAuto(fields) by {
      if !HasAuto(m.fields) { assert fields[0].kind == AUTO; }
    }
    assert app + "_" + m.name != "";
  }

  lemma FillIdempotent(s: Schema)
    ensures FillSchema(FillSchema(s)) == FillSchema(s)
  {
    forall i | 0 <= i < |s.models| ensures FilledModel(s.appLabel, FillModel(s.appLabel, s.models[i])) {
      FillModelIdempotent(s.appLabel, s.models[i]);
    }
    hide FillModel;
    assert FillSchema(FillSchema(s)).models == FillSchema(s).models;
  }

  /** Normalization is idempotent. */
  lemma NormalizeIdempotent(s: Schema)
    ensures Normalize(s).Some? ==> Normalized(Normalize(s).value) && Normalize(Normalize(s).value) == Normalize(s)
    ensures Normalize(s).Some? ==> Normalize(s).value.formatVersion == 2 && (s.formatVersion == 0 || s.formatVersion == 2)
  {
    FillIdempotent(s);
  }

  /** A filled model has its key field and a column for each field. */
  lemma FilledFields(app: string, m: Model)
    ensures FilledModel(app, m) <==> m.dbTable != "" && HasAuto(m.fields) && FillFields(m.fields) == m.fields
  {
  }

  ghost predicate SeenFields(fields: seq<Field>, names: set<string>, goNames: set<string>, columns: set<string>) {
    && (forall x :: x in names <==> exists i :: 0 <= i < |fields| && fields[i].name == x)
    && (forall x :: x in goNames <==> exists i :: 0 <= i < |fields| && fields[i].goName == x)
    && (forall x :: x in columns <==> exists i :: 0 <= i < |fields| && fields[i].column == x)
  }

  lemma SeenOneMore(fields: seq<Field>, f: Field, names: set<string>, goNames: set<string>, columns: set<string>)
    requires SeenFields(fields, names, goNames, columns)
    ensures SeenFields(fields + [f], names + {f.name}, goNames + {f.goName}, columns + {f.column})
  {
    var more := fields + [f];
    assert more[|fields|] == f;
    assert forall i :: 0 <= i < |fields| ==> more[i] == fields[i];
  }

  lemma FieldsGrow(fields: seq<Field>, f: Field, names: set<string>, goNames: set<string>, columns: set<string>)
    requires ValidFields(fields) && SeenFields(fields, names, goNames, columns)
    ensures ValidFields(fields + [f]) <==>
      ValidNames(f) && ValidField(f) && f.name !in names && f.goName !in goNames && f.column !in columns
  {
    hide ValidNames, ValidField;
    var more := fields + [f];
    assert more[|fields|] == f;
    assert forall i :: 0 <= i < |fields| ==> more[i] == fields[i];
    if ValidFields(more) {
      assert forall i :: 0 <= i < |fields| ==> FieldsApart(more[i], more[|fields|]);
    }
  }

  lemma FieldsPrefix(fields: seq<Field>, n: nat)
    requires n <= |fields| && ValidFields(fields)
    ensures ValidFields(fields[..n])
  {
  }

  /** Fills and validates the fields of a model, one after the other, in place. */
  method NormalizeFields(input: seq<Field>) returns (r: Option<seq<Field>>)
    ensures var filled := FillFields(WithKey(input));
      r == if ValidFields(filled) && PrimaryKeys(filled) == 1 then Some(filled) else None
  {
    hide ValidField, ValidNames, ValidFields, SeenFields, PrimaryKeys, WithKey, FillField;
    var hasAuto := false;
    for i := 0 to |input|
      invariant hasAuto <==> exists j :: 0 <= j < i && input[j].kind == AUTO
    {
      if input[i].kind == AUTO {
        hasAuto := true;
        break;
      }
    }
    var fields := if hasAuto then input else [IMPLICIT_ID] + input;
    KeyAdded(input);
    ghost var filled := FillFields(WithKey(input));
    var names: set<string>, goNames: set<string>, columns: set<string> := {}, {}, {};
    var primaryKeys := 0;
    EmptyFields();
    for i := 0 to |fields|
      invariant |fields| == |filled|
      invariant forall j :: 0 <= j < |fields| ==> fields[j] == if j < i then filled[j] else WithKey(input)[j]
      invariant ValidFields(filled[..i]) && SeenFields(filled[..i], names, goNames, columns)
      invariant primaryKeys == PrimaryKeys(filled[..i])
    {
      var field := FillField(fields[i]);
      fields := fields[i := field];
      FieldsNext(filled, i, names, goNames, columns);
      if !ValidNames(field) || field.name in names || field.goName in goNames || field.column in columns || !ValidField(field) {
        PrefixInvalid(filled, i + 1);
        return None;
      }
      names, goNames, columns := names + {field.name}, goNames + {field.goName}, columns + {field.column};
      if field.primaryKey {
        primaryKeys := primaryKeys + 1;
      }
    }
    assert filled[..|filled|] == filled && fields == filled;
    return if primaryKeys != 1 then None else Some(fields);
  }

  lemma EmptyFields()
    ensures ValidFields([]) && SeenFields([], {}, {}, {}) && PrimaryKeys([]) == 0
  {
  }

  lemma KeyAdded(fields: seq<Field>)
    ensures WithKey(fields) == if exists j :: 0 <= j < |fields| && fields[j].kind == AUTO then fields else [IMPLICIT_ID] + fields
  {
  }

  lemma FieldsNext(fields: seq<Field>, i: nat, names: set<string>, goNames: set<string>, columns: set<string>)
    requires i < |fields| && ValidFields(fields[..i]) && SeenFields(fields[..i], names, goNames, columns)
    ensures var f := fields[i];
      && (ValidFields(fields[..i + 1]) <==>
            ValidNames(f) && ValidField(f) && f.name !in names && f.goName !in goNames && f.column !in columns)
      && SeenFields(fields[..i + 1], names + {f.name}, goNames + {f.goName}, columns + {f.column})
      && PrimaryKeys(fields[..i + 1]) == PrimaryKeys(fields[..i]) + (if f.primaryKey then 1 else 0)
  {
    hide ValidField, ValidNames, ValidFields, SeenFields;
    assert fields[..i + 1] == fields[..i] + [fields[i]];
    FieldsGrow(fields[..i], fields[i], names, goNames, columns);
    SeenOneMore(fields[..i], fields[i], names, goNames, columns);
  }

  lemma PrefixInvalid(fields: seq<Field>, n: nat)
    requires n <= |fields| && !ValidFields(fields[..n])
    ensures !ValidFields(fields)
  {
  }

  ghost predicate SeenModels(models: seq<Model>, names: set<string>, goNames: set<string>, tables: set<string>) {
    && (forall x :: x in names <==> exists i :: 0 <= i < |models| && models[i].name == x)
    && (forall x :: x in goNames <==> exists i :: 0 <= i < |models| && models[i].goName == x)
    && (forall x :: x in tables <==> exists i :: 0 <= i < |models| && models[i].dbTable == x)
  }

  lemma SeenModelMore(models: seq<Model>, m: Model, names: set<string>, goNames: set<string>, tables: set<string>)
    requires SeenModels(models, names, goNames, tables)
    ensures SeenModels(models + [m], names + {m.name}, goNames + {m.goName}, tables + {m.dbTable})
  {
    var more := models + [m];
    assert more[|models|] == m;
    assert forall i :: 0 <= i < |models| ==> more[i] == models[i];
  }

  lemma ModelsGrow(models: seq<Model>, m: Model, names: set<string>, goNames: set<string>, tables: set<string>)
    requires ValidModels(models) && SeenModels(models, names, goNames, tables)
    ensures ValidModels(models + [m]) <==>
      ValidModel(m) && m.name !in names && m.goName !in goNames && m.dbTable !in tables
  {
    hide ValidModel;
    var more := models + [m];
    assert more[|models|] == m;
    assert forall i :: 0 <= i < |models| ==> more[i] == models[i];
    if ValidModels(more) {
      assert forall i :: 0 <= i < |models| ==> ModelsApart(more[i], more[|models|]);
    }
  }

  lemma EmptyModels()
    ensures ValidModels([]) && SeenModels([], {}, {}, {})
  {
  }

  lemma ModelPrefixInvalid(models: seq<Model>, n: nat)
    requires n <= |models| && !ValidModels(models[..n])
    ensures !ValidModels(models)
  {
  }

  /** The normalization loop of the program: fills defaults in place and stops at the first violation. */
  method NormalizeSchema(input: Schema) returns (r: Option<Schema>)
    ensures r == Normalize(input)
  {
    hide ValidField, ValidNames, ValidFields, ValidModel, ValidModels, SeenModels, DatabaseIdentifier, ExportedIdentifier, FillModel;
    var schema := input;
    if schema.formatVersion == 0 {
      schema := schema.(formatVersion := FORMAT_VERSION);
    }
    if schema.formatVersion != FORMAT_VERSION || !DatabaseIdentifier(schema.appLabel) || schema.models == [] {
      return None;
    }
    var app := schema.appLabel;
    ghost var filled := FillModels(app, input.models);
    var names: set<string>, goNames: set<string>, tables: set<string> := {}, {}, {};
    var models := schema.models;
    EmptyModels();
    for i := 0 to |models|
      invariant |models| == |filled| && models[..i] == filled[..i]
      invariant forall j :: i <= j < |models| ==> models[j] == input.models[j]
      invariant ValidModels(filled[..i]) && SeenModels(filled[..i], names, goNames, tables)
    {
      var model := models[i];
      assert filled[..i + 1] == filled[..i] + [filled[i]];
      ModelsGrow(filled[..i], filled[i], names, goNames, tables);
      SeenModelMore(filled[..i], filled[i], names, goNames, tables);
      var next := NormalizeModel(app, model);
      if next.None? || next.value.name in names || next.value.goName in goNames || next.value.dbTable in tables {
        ModelPrefixInvalid(filled, i + 1);
        return None;
      }
      names, goNames, tables := names + {next.value.name}, goNames + {next.value.goName}, tables + {next.value.dbTable};
      models := models[i := next.value];
    }
    assert filled[..|filled|] == filled && models[..|filled|] == models;
    return Some(schema.(models := models));
  }

  method NormalizeModel(app: string, input: Model) returns (r: Option<Model>)
    ensures r == if ValidModel(FillModel(app, input)) then Some(FillModel(app, input)) else None
  {
    var model := input;
    if !DatabaseIdentifier(model.name) || !ExportedIdentifier(model.goName) {
      return None;
    }
    if model.dbTable == "" {
      model := model.(dbTable := app + "_" + model.name);
    }
    if !DatabaseIdentifier(model.dbTable) {
      return None;
    }
    hide ValidFields, DatabaseIdentifier, ExportedIdentifier;
    var fields := NormalizeFields(model.fields);
    if fields.None? {
      return None;
    }
    return Some(model.(fields := fields.value));
  }
}
