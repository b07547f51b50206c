/** Printing a query plan as a SELECT statement with placeholders, and reading the plan back from the text. */
module SqlCompiler {
  import opened Errors
  import opened Texts
  import opened Likes

  datatype FieldKind = IntegerKind | StringKind | BooleanKind | OtherKind(text: string)

  datatype FieldRef = FieldRef(name: string, column: string, kind: FieldKind, nullable: bool)

  datatype Value =
    | NullValue
    | IntegerValue(integer: int)
    | StringValue(text: string)
    | BooleanValue(boolean: bool)
    | UnknownValue

  datatype Lookup = Exact | IContains | IsNull | OtherLookup(text: string)

  datatype Condition = Condition(field: FieldRef, lookup: Lookup, value: Value)

  datatype Order = Ascending | Descending | OtherOrder(text: string)

  datatype Ordering = Ordering(field: FieldRef, direction: Order)

  datatype Plan = Plan(
    table: string, columns: seq<FieldRef>, conditions: seq<Condition>, orderings: seq<Ordering>, limit: Option<int>)

  datatype QueryError = InvalidPlan | UnsupportedLookup(field: string, lookup: Lookup)

  datatype Argument = IntegerArgument(integer: int) | TextArgument(text: string) | BooleanArgument(boolean: bool)

  datatype Statement = Statement(text: string, arguments: seq<Argument>)

  datatype Operator = Equals | Like | Null | NotNull

  // ---------------------------------------------------------------- printing

  predicate Quotable(identifier: string) {
    identifier != "" && '\0' !in identifier
  }

  function Quote(identifier: string): string {
    "\"" + ReplaceAll(identifier, '"', "\"\"") + "\""
  }

  predicate ValueMatches(value: Value, kind: FieldKind) {
    || (value.IntegerValue? && kind == IntegerKind)
    || (value.StringValue? && kind == StringKind)
    || (value.BooleanValue? && kind == BooleanKind)
  }

  /** The operator a condition compiles to and its argument, if it has one. */
  function CompileCondition(c: Condition): Result<(Operator, Option<Argument>), QueryError> {
    match c.lookup
    case Exact =>
      if !ValueMatches(c.value, c.field.kind) then Failure(InvalidPlan)
      else
        (match c.value
         case IntegerValue(i) => Success((Equals, Some(IntegerArgument(i))))
         case StringValue(s) => Success((Equals, Some(TextArgument(s))))
         case BooleanValue(b) => Success((Equals, Some(BooleanArgument(b))))
         case _ => Failure(InvalidPlan))
    case IContains =>
      if c.field.kind != StringKind || !c.value.StringValue? then Failure(UnsupportedLookup(c.field.name, c.lookup))
      else Success((Like, Some(TextArgument("%" + EscapeLike(c.value.text) + "%"))))
    case IsNull =>
      if !c.value.BooleanValue? then Failure(UnsupportedLookup(c.field.name, c.lookup))
      else Success((if c.value.boolean then Null else NotNull, None))
    case OtherLookup(_) => Failure(UnsupportedLookup(c.field.name, c.lookup))
  }

  function OperatorText(op: Operator): string {
    match op
    case Equals => " = ?"
    case Like => " LIKE ? ESCAPE '\\'"
    case Null => " IS NULL"
    case NotNull => " IS NOT NULL"
  }

  function OrderText(order: Order): string {
    if order == Ascending then " ASC" else " DESC"
  }

  function OperatorOf(c: Condition): Operator {
    match CompileCondition(c)
    case Success(compiled) => compiled.0
    case Failure(_) => Equals
  }

  function ColumnTexts(columns: seq<FieldRef>): (texts: seq<string>)
    ensures |texts| == |columns| && forall i :: 0 <= i < |columns| ==> texts[i] == Quote(columns[i].column)
  {
    seq(|columns|, i requires 0 <= i < |columns| => Quote(columns[i].column))
  }

  function ConditionTexts(conditions: seq<Condition>): (texts: seq<string>)
    ensures |texts| == |conditions|
    ensures forall i :: 0 <= i < |conditions| ==>
      texts[i] == Quote(conditions[i].field.column) + OperatorText(OperatorOf(conditions[i]))
  {
    seq(|conditions|, i requires 0 <= i < |conditions| =>
      Quote(conditions[i].field.column) + OperatorText(OperatorOf(conditions[i])))
  }

  function OrderingTexts(orderings: seq<Ordering>): (texts: seq<string>)
    ensures |texts| == |orderings|
    ensures forall i :: 0 <= i < |orderings| ==>
      texts[i] == Quote(orderings[i].field.column) + OrderText(orderings[i].direction)
  {
    seq(|orderings|, i requires 0 <= i < |orderings| =>
      Quote(orderings[i].field.column) + OrderText(orderings[i].direction))
  }

  /** The condition arguments in condition order. */
  function ConditionArguments(conditions: seq<Condition>): seq<Argument> {
    if conditions == [] then []
    else
      var n := |conditions| - 1;
      ConditionArguments(conditions[..n]) +
      match CompileCondition(conditions[n])
      case Success((_, Some(argument))) => [argument]
      case _ => []
  }

  function WhereText(plan: Plan): string {
    if plan.conditions == [] then "" else " WHERE " + Join(ConditionTexts(plan.conditions), " AND ")
  }

  function OrderByText(plan: Plan): string {
    if plan.orderings == [] then "" else " ORDER BY " + Join(OrderingTexts(plan.orderings), ", ")
  }

  function LimitText(plan: Plan): string {
    if plan.limit.None? then "" else " LIMIT ?"
  }

  function FromText(plan: Plan): string {
    "SELECT " + Join(ColumnTexts(plan.columns), ", ") + " FROM " + Quote(plan.table)
  }

  function SelectText(plan: Plan): string {
    FromText(plan) + WhereText(plan) + OrderByText(plan) + LimitText(plan)
  }

  function Arguments(plan: Plan): seq<Argument> {
    ConditionArguments(plan.conditions) +
    if plan.limit.None? then [] else [IntegerArgument(plan.limit.value)]
  }

  // ---------------------------------------------------------------- errors

  function NameError(identifier: string): Option<QueryError> {
    if Quotable(identifier) then None else Some(InvalidPlan)
  }

  function ConditionError(columns: seq<FieldRef>, c: Condition): Option<QueryError> {
    if c.field !in columns || !Quotable(c.field.column) then Some(InvalidPlan)
    else
      match CompileCondition(c)
      case Failure(e) => Some(e)
      case Success(_) => None
  }

  function OrderingError(columns: seq<FieldRef>, o: Ordering): Option<QueryError> {
    if o.field !in columns || !Quotable(o.field.column) || o.direction.OtherOrder? then Some(InvalidPlan) else None
  }

  /** The checks of a compilation in the order it makes them. */
  function Checks(plan: Plan): seq<Option<QueryError>> {
    [if plan.table == "" || plan.columns == [] then Some(InvalidPlan) else None] +
    ColumnChecks(plan) + [NameError(plan.table)] + ConditionChecks(plan) + OrderingChecks(plan)
  }

  function ColumnChecks(plan: Plan): (checks: seq<Option<QueryError>>)
    ensures |checks| == |plan.columns|
    ensures forall i :: 0 <= i < |checks| ==> checks[i] == NameError(plan.columns[i].column)
  {
    seq(|plan.columns|, i requires 0 <= i < |plan.columns| => NameError(plan.columns[i].column))
  }

  function ConditionChecks(plan: Plan): (checks: seq<Option<QueryError>>)
    ensures |checks| == |plan.conditions|
    ensures forall i :: 0 <= i < |checks| ==> checks[i] == ConditionError(plan.columns, plan.conditions[i])
  {
    seq(|plan.conditions|, i requires 0 <= i < |plan.conditions| => ConditionError(plan.columns, plan.conditions[i]))
  }

  function OrderingChecks(plan: Plan): (checks: seq<Option<QueryError>>)
    ensures |checks| == |plan.orderings|
    ensures forall i :: 0 <= i < |checks| ==> checks[i] == OrderingError(plan.columns, plan.orderings[i])
  {
    seq(|plan.orderings|, i requires 0 <= i < |plan.orderings| => OrderingError(plan.columns, plan.orderings[i]))
  }

  /** The error of the first check that fails. */
  function First(checks: seq<Option<QueryError>>): Option<QueryError> {
    if checks == [] then None else if checks[0].Some? then checks[0] else First(checks[1..])
  }

  lemma {:induction false} FirstConcat(a: seq<Option<QueryError>>, b: seq<Option<QueryError>>)
    ensures First(a + b) == if First(a).Some? then First(a) else First(b)
    decreases |a|
  {
    if a == [] {
      assert a + b == b;
    } else {
      assert (a + b)[1..] == a[1..] + b;
      FirstConcat(a[1..], b);
    }
  }

  lemma {:induction false} NoneFails(checks: seq<Option<QueryError>>, i: nat)
    requires First(checks).None? && i < |checks|
    ensures checks[i].None?
    decreases |checks|
  {
    if i > 0 {
      NoneFails(checks[1..], i - 1);
    }
  }

  lemma FirstNext(checks: seq<Option<QueryError>>, i: nat)
    requires i < |checks| && First(checks[..i]).None?
    ensures First(checks[..i + 1]) == checks[i]
    ensures checks[i].Some? ==> First(checks) == checks[i]
  {
    assert checks[..i + 1] == checks[..i] + [checks[i]];
    FirstConcat(checks[..i], [checks[i]]);
    assert [checks[i]][1..] == [];
    assert checks == checks[..i + 1] + checks[i + 1..];
    FirstConcat(checks[..i + 1], checks[i + 1..]);
  }

  // ---------------------------------------------------------------- which plans compile

  /** Whether a lookup is defined for the kind of its field and value. */
  predicate ConditionFits(c: Condition) {
    match c.lookup
    case Exact =>
      (match c.field.kind
       case IntegerKind => c.value.IntegerValue?
       case StringKind => c.value.StringValue?
       case BooleanKind => c.value.BooleanValue?
       case OtherKind(_) => false)
    case IContains => c.field.kind == StringKind && c.value.StringValue?
    case IsNull => c.value.BooleanValue?
    case OtherLookup(_) => false
  }

  predicate NamesFit(plan: Plan) {
    && plan.table != "" && '\0' !in plan.table && plan.columns != []
    && forall i :: 0 <= i < |plan.columns| ==> plan.columns[i].column != "" && '\0' !in plan.columns[i].column
  }

  predicate ConditionAllowed(plan: Plan, i: nat)
    requires i < |plan.conditions|
  {
    plan.conditions[i].field in plan.columns && ConditionFits(plan.conditions[i])
  }

  /** The plans that have a statement: usable names, fitting conditions, known directions, and only selected fields. */
  predicate Compilable(plan: Plan) {
    && NamesFit(plan)
    && (forall i :: 0 <= i < |plan.conditions| ==> ConditionAllowed(plan, i))
    && (forall i :: 0 <= i < |plan.orderings| ==>
          plan.orderings[i].field in plan.columns &&
          (plan.orderings[i].direction == Ascending || plan.orderings[i].direction == Descending))
  }

  lemma {:induction false} AllPass(checks: seq<Option<QueryError>>)
    requires forall i :: 0 <= i < |checks| ==> checks[i].None?
    ensures First(checks).None?
    decreases |checks|
  {
    if checks != [] {
      AllPass(checks[1..]);
    }
  }

  lemma {:induction false} FirstOf(checks: seq<Option<QueryError>>) returns (i: nat)
    requires First(checks).Some?
    ensures i < |checks| && checks[i] == First(checks) && forall j :: 0 <= j < i ==> checks[j].None?
    decreases |checks|
  {
    if checks[0].Some? {
      i := 0;
    } else {
      i := FirstOf(checks[1..]);
      i := i + 1;
    }
  }

  lemma SomeFails(checks: seq<Option<QueryError>>)
    ensures First(checks).None? <==> forall i :: 0 <= i < |checks| ==> checks[i].None?
  {
    hide First;
    if First(checks).None? {
      forall i | 0 <= i < |checks| ensures checks[i].None? {
        NoneFails(checks, i);
      }
    } else {
      var i := FirstOf(checks);
    }
    if forall i :: 0 <= i < |checks| ==> checks[i].None? {
      AllPass(checks);
    }
  }

  function Refusal(plan: Plan, i: nat): QueryError
    requires i < |plan.conditions|
  {
    var c := plan.conditions[i];
    if c.field in plan.columns && c.lookup != Exact then UnsupportedLookup(c.field.name, c.lookup) else InvalidPlan
  }

  lemma ConditionPasses(plan: Plan, i: nat)
    requires NamesFit(plan) && i < |plan.conditions|
    ensures ConditionError(plan.columns, plan.conditions[i]).None? <==> ConditionAllowed(plan, i)
    ensures ConditionError(plan.columns, plan.conditions[i]).Some? ==>
      ConditionError(plan.columns, plan.conditions[i]) == Some(Refusal(plan, i))
  {
    hide EscapeLike;
  }

  /** A plan compiles exactly if it is compilable. */
  lemma PlanCompiles(plan: Plan)
    ensures First(Checks(plan)).None? <==> Compilable(plan)
  {
    ChecksInOrder(plan);
    SomeFails(ColumnChecks(plan));
    SomeFails(ConditionChecks(plan));
    SomeFails(OrderingChecks(plan));
    hide First, Checks, ConditionError, ConditionFits, ConditionAllowed;
    if NamesFit(plan) {
      forall i | 0 <= i < |plan.conditions|
        ensures ConditionChecks(plan)[i].None? <==> ConditionAllowed(plan, i) {
        ConditionPasses(plan, i);
      }
      forall i | 0 <= i < |plan.orderings| ensures OrderingChecks(plan)[i].None? <==>
        plan.orderings[i].field in plan.columns &&
        (plan.orderings[i].direction == Ascending || plan.orderings[i].direction == Descending) {
        OrderingPasses(plan, i);
      }
    }
  }

  lemma OrderingPasses(plan: Plan, i: nat)
    requires NamesFit(plan) && i < |plan.orderings|
    ensures OrderingError(plan.columns, plan.orderings[i]).None? <==>
      plan.orderings[i].field in plan.columns &&
      (plan.orderings[i].direction == Ascending || plan.orderings[i].direction == Descending)
  {
  }

  /** Only a lookup that the compiler does not know for its field is reported as unsupported, and the first one is. */
  lemma PlanRefused(plan: Plan)
    requires !Compilable(plan)
    ensures First(Checks(plan)) == Some(InvalidPlan)
         || exists i: nat :: FirstUnsupported(plan, i) && First(Checks(plan)) ==
              Some(UnsupportedLookup(plan.conditions[i].field.name, plan.conditions[i].lookup))
    ensures (exists i: nat :: FirstUnsupported(plan, i)) ==> First(Checks(plan)) != Some(InvalidPlan)
  {
    PlanCompiles(plan);
    ChecksInOrder(plan);
    SomeFails(ColumnChecks(plan));
    hide First, Checks, ConditionError, ConditionFits, ConditionAllowed, Compilable;
    if NamesFit(plan) {
      forall i | 0 <= i < |plan.conditions|
        ensures ConditionChecks(plan)[i].None? <==> ConditionAllowed(plan, i)
        ensures ConditionChecks(plan)[i].Some? ==> ConditionChecks(plan)[i] == Some(Refusal(plan, i))
      {
        ConditionPasses(plan, i);
      }
      SomeFails(ConditionChecks(plan));
      if First(ConditionChecks(plan)).Some? {
        var k := FirstOf(ConditionChecks(plan));
        assert forall i: nat :: FirstUnsupported(plan, i) ==> i == k;
      } else if First(OrderingChecks(plan)).Some? {
        var k := FirstOf(OrderingChecks(plan));
      }
    } else if First(ColumnChecks(plan)).Some? {
      var k := FirstOf(ColumnChecks(plan));
    }
  }

  /** Condition i is the first that is not allowed, and its lookup is one the compiler does not know for its field. */
  ghost predicate FirstUnsupported(plan: Plan, i: nat) {
    && NamesFit(plan) && i < |plan.conditions| && !ConditionAllowed(plan, i)
    && (forall j :: 0 <= j < i ==> ConditionAllowed(plan, j))
    && plan.conditions[i].field in plan.columns && plan.conditions[i].lookup != Exact
  }

  // ---------------------------------------------------------------- the compiler

  lemma JoinNext(texts: seq<string>, i: nat, separator: string)
    requires i < |texts|
    ensures Join(texts[..i + 1], separator) == (if i == 0 then "" else Join(texts[..i], separator) + separator) + texts[i]
  {
    assert texts[..i + 1] == texts[..i] + [texts[i]];
    JoinLast(texts[..i], texts[i], separator);
  }

  /** Joining starts empty and writes a separator before each text but the first. */
  lemma WriteNext(sql: string, texts: seq<string>, i: nat, separator: string)
    requires i < |texts|
    ensures sql + Join(texts[..i + 1], separator) ==
      sql + Join(texts[..i], separator) + (if i > 0 then separator else "") + texts[i]
  {
    JoinNext(texts, i, separator);
  }

  method WriteColumns(plan: Plan, sql: string) returns (text: string, error: Option<QueryError>)
    ensures error == First(ColumnChecks(plan))
    ensures error.None? ==> text == sql + Join(ColumnTexts(plan.columns), ", ")
  {
    hide Join, First, Quote;
    var columns := plan.columns;
    ghost var texts, checks := ColumnTexts(columns), ColumnChecks(plan);
    text := sql;
    NothingJoined(sql, texts, ", ");
    NothingFailed(checks);
    for i := 0 to |columns|
      invariant text == sql + Join(texts[..i], ", ") && First(checks[..i]).None?
    {
      WriteNext(sql, texts, i, ", ");
      FirstNext(checks, i);
      if i > 0 {
        text := text + ", ";
      }
      if !Quotable(columns[i].column) {
        return text, Some(InvalidPlan);
      }
      text := text + Quote(columns[i].column);
    }
    assert texts[..|columns|] == texts && checks[..|columns|] == checks;
    error := None;
  }

  lemma NothingJoined(sql: string, texts: seq<string>, separator: string)
    ensures sql + Join(texts[..0], separator) == sql
  {
  }

  lemma NothingFailed(checks: seq<Option<QueryError>>)
    ensures First(checks[..0]).None?
  {
  }

  method WriteConditions(plan: Plan, sql: string) returns (text: string, arguments: seq<Argument>, error: Option<QueryError>)
    ensures error == First(ConditionChecks(plan))
    ensures error.None? ==> text == sql + Join(ConditionTexts(plan.conditions), " AND ")
    ensures error.None? ==> arguments == ConditionArguments(plan.conditions)
  {
    hide Join, First, Quote, ConditionArguments, CompileCondition, OperatorText;
    var conditions := plan.conditions;
    ghost var texts, checks := ConditionTexts(conditions), ConditionChecks(plan);
    text, arguments := sql, [];
    NothingJoined(sql, texts, " AND ");
    NothingFailed(checks);
    NoArguments(conditions);
    for i := 0 to |conditions|
      invariant text == sql + Join(texts[..i], " AND ") && First(checks[..i]).None?
      invariant arguments == ConditionArguments(conditions[..i])
    {
      WriteNext(sql, texts, i, " AND ");
      FirstNext(checks, i);
      NextArgument(conditions, i);
      var condition := conditions[i];
      if i > 0 {
        text := text + " AND ";
      }
      if condition.field !in plan.columns || !Quotable(condition.field.column) {
        return text, arguments, Some(InvalidPlan);
      }
      var compiled := CompileCondition(condition);
      if compiled.Failure? {
        return text, arguments, Some(compiled.error);
      }
      text := text + (Quote(condition.field.column) + OperatorText(compiled.value.0));
      if compiled.value.1.Some? {
        arguments := arguments + [compiled.value.1.value];
      }
    }
    assert texts[..|conditions|] == texts && checks[..|conditions|] == checks && conditions[..|conditions|] == conditions;
    error := None;
  }

  lemma NoArguments(conditions: seq<Condition>)
    ensures ConditionArguments(conditions[..0]) == []
  {
  }

  lemma NextArgument(conditions: seq<Condition>, i: nat)
    requires i < |conditions|
    ensures ConditionArguments(conditions[..i + 1]) == ConditionArguments(conditions[..i]) +
      match CompileCondition(conditions[i])
      case Success((_, Some(argument))) => [argument]
      case _ => []
  {
    assert conditions[..i + 1][..i] == conditions[..i];
  }

  method WriteOrderings(plan: Plan, sql: string) returns (text: string, error: Option<QueryError>)
    ensures error == First(OrderingChecks(plan))
    ensures error.None? ==> text == sql + Join(OrderingTexts(plan.orderings), ", ")
  {
    hide Join, First, Quote;
    var orderings := plan.orderings;
    ghost var texts, checks := OrderingTexts(orderings), OrderingChecks(plan);
    text := sql;
    NothingJoined(sql, texts, ", ");
    NothingFailed(checks);
    for i := 0 to |orderings|
      invariant text == sql + Join(texts[..i], ", ") && First(checks[..i]).None?
    {
      WriteNext(sql, texts, i, ", ");
      FirstNext(checks, i);
      var ordering := orderings[i];
      if i > 0 {
        text := text + ", ";
      }
      if ordering.field !in plan.columns || !Quotable(ordering.field.column) {
        return text, Some(InvalidPlan);
      }
      if ordering.direction != Ascending && ordering.direction != Descending {
        return text, Some(InvalidPlan);
      }
      text := text + (Quote(ordering.field.column) + (if ordering.direction == Ascending then " ASC" else " DESC"));
    }
    assert texts[..|orderings|] == texts && checks[..|orderings|] == checks;
    error := None;
  }

  /** Compiles a plan: the first failing check's error, or the statement and its arguments. */
  method Compile(plan: Plan) returns (r: Result<Statement, QueryError>)
    ensures r.Success? <==> Compilable(plan)
    ensures r.Failure? <==> First(Checks(plan)).Some?
    ensures r.Failure? ==> First(Checks(plan)) == Some(r.error)
    ensures r.Success? ==> r.value == Statement(SelectText(plan), Arguments(plan))
  {
    hide Join, First, Quote, ConditionArguments, Checks, WhereText, OrderByText, LimitText, Compilable;
    PlanCompiles(plan);
    ChecksInOrder(plan);
    if |plan.table| == 0 || |plan.columns| == 0 {
      return Failure(InvalidPlan);
    }
    var sql, error := WriteColumns(plan, "SELECT ");
    if error.Some? {
      return Failure(error.value);
    }
    if !Quotable(plan.table) {
      return Failure(InvalidPlan);
    }
    sql := sql + " FROM " + Quote(plan.table);
    var arguments: seq<Argument> := [];
    WhereWritten(sql, plan);
    if |plan.conditions| > 0 {
      sql := sql + " WHERE ";
    }
    sql, arguments, error := WriteConditions(plan, sql);
    if error.Some? {
      return Failure(error.value);
    }
    OrderByWritten(sql, plan);
    if |plan.orderings| > 0 {
      sql := sql + " ORDER BY ";
    }
    sql, error := WriteOrderings(plan, sql);
    if error.Some? {
      return Failure(error.value);
    }
    LimitWritten(sql, plan);
    if plan.limit.Some? {
      sql := sql + " LIMIT ?";
      arguments := arguments + [IntegerArgument(plan.limit.value)];
    }
    r := Success(Statement(sql, arguments));
  }

  lemma ChecksInOrder(plan: Plan)
    ensures First(Checks(plan)) ==
      if plan.table == "" || plan.columns == [] then Some(InvalidPlan)
      else if First(ColumnChecks(plan)).Some? then First(ColumnChecks(plan))
      else if !Quotable(plan.table) then Some(InvalidPlan)
      else if First(ConditionChecks(plan)).Some? then First(ConditionChecks(plan))
      else First(OrderingChecks(plan))
  {
    var start := [if plan.table == "" || plan.columns == [] then Some(InvalidPlan) else None];
    var table := [NameError(plan.table)];
    assert start[1..] == [] && table[1..] == [];
    FirstConcat(start + ColumnChecks(plan) + table + ConditionChecks(plan), OrderingChecks(plan));
    FirstConcat(start + ColumnChecks(plan) + table, ConditionChecks(plan));
    FirstConcat(start + ColumnChecks(plan), table);
    FirstConcat(start, ColumnChecks(plan));
  }

  lemma WhereWritten(sql: string, plan: Plan)
    ensures (if |plan.conditions| > 0 then sql + " WHERE " else sql) + Join(ConditionTexts(plan.conditions), " AND ")
         == sql + WhereText(plan)
  {
    var texts := Join(ConditionTexts(plan.conditions), " AND ");
    if plan.conditions == [] {
      assert texts == "";
    } else {
      hide Join;
      Associate(sql, " WHERE ", texts);
    }
  }

  lemma OrderByWritten(sql: string, plan: Plan)
    ensures (if |plan.orderings| > 0 then sql + " ORDER BY " else sql) + Join(OrderingTexts(plan.orderings), ", ")
         == sql + OrderByText(plan)
  {
    var texts := Join(OrderingTexts(plan.orderings), ", ");
    if plan.orderings == [] {
      assert texts == "";
    } else {
      hide Join;
      Associate(sql, " ORDER BY ", texts);
    }
  }

  lemma Associate(a: string, b: string, c: string)
    ensures a + b + c == a + (b + c)
  {
  }

  lemma LimitWritten(sql: string, plan: Plan)
    ensures (if plan.limit.Some? then sql + " LIMIT ?" else sql) == sql + LimitText(plan)
  {
    assert sql + "" == sql;
  }

  predicate AllCompile(conditions: seq<Condition>) {
    forall i :: 0 <= i < |conditions| ==> CompileCondition(conditions[i]).Success?
  }

  lemma CompiledConditions(plan: Plan)
    requires First(Checks(plan)).None?
    ensures AllCompile(plan.conditions)
  {
    ChecksInOrder(plan);
    hide Checks, CompileCondition;
    forall i | 0 <= i < |plan.conditions| ensures CompileCondition(plan.conditions[i]).Success? {
      NoneFails(ConditionChecks(plan), i);
    }
  }
}
