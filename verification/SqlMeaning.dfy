/** What a printed statement selects: reading it back and running it keeps exactly the rows the plan asks for. */
module SqlMeaning {
  import opened Errors
  import opened Likes
  import opened SqlCompiler
  import opened SqlDecoder

  /** Whether a cell meets a condition of the plan. */
  predicate CellMeets(c: Condition, cell: Value)
    requires CompileCondition(c).Success?
  {
    match c.lookup
    case Exact => cell == c.value
    case IContains => cell.StringValue? && ContainsFolded(cell.text, c.value.text)
    case IsNull => cell.NullValue? == c.value.boolean
  }

  /** Whether a cell passes an operator of the statement. */
  predicate CellPasses(op: Operator, argument: Option<Argument>, cell: Value) {
    match op
    case Null => cell.NullValue?
    case NotNull => !cell.NullValue?
    case Equals =>
      argument.Some? &&
      (match argument.value
       case IntegerArgument(i) => cell == IntegerValue(i)
       case TextArgument(s) => cell == StringValue(s)
       case BooleanArgument(b) => cell == BooleanValue(b))
    case Like =>
      argument.Some? && argument.value.TextArgument? && cell.StringValue? && Matches(argument.value.text, cell.text)
  }

  predicate TakesArgument(op: Operator) {
    op == Equals || op == Like
  }

  /** Runs the conditions of a statement on a row; each placeholder takes the next argument. */
  predicate RowPasses(conditions: seq<(string, Operator)>, arguments: seq<Argument>, row: map<string, Value>)
    decreases |conditions|
  {
    if conditions == [] then true
    else
      var (column, op) := conditions[0];
      column in row &&
      if TakesArgument(op) then
        arguments != [] && CellPasses(op, Some(arguments[0]), row[column]) && RowPasses(conditions[1..], arguments[1..], row)
      else CellPasses(op, None, row[column]) && RowPasses(conditions[1..], arguments, row)
  }

  /** A compiled condition keeps its meaning. */
  lemma ConditionMeaning(c: Condition, cell: Value)
    requires CompileCondition(c).Success?
    ensures var compiled := CompileCondition(c).value;
      && (compiled.1.Some? <==> TakesArgument(compiled.0))
      && (CellPasses(compiled.0, compiled.1, cell) <==> CellMeets(c, cell))
  {
    hide Matches, EscapeLike, ContainsFolded;
    if c.lookup.IContains? && cell.StringValue? {
      ContainsMeaning(c.value.text, cell.text);
    }
  }

  lemma {:induction false} ArgumentsFirst(conditions: seq<Condition>)
    requires conditions != []
    ensures ConditionArguments(conditions) ==
      (match CompileCondition(conditions[0])
       case Success((_, Some(argument))) => [argument]
       case _ => []) + ConditionArguments(conditions[1..])
    decreases |conditions|
  {
    hide CompileCondition;
    var n := |conditions| - 1;
    if n == 0 {
      assert conditions[..0] == [] && conditions[1..] == [];
    } else {
      assert conditions[..n][1..] == conditions[1..][..n - 1];
      ArgumentsFirst(conditions[..n]);
    }
  }

  /** The row has a cell for the condition's column, and the cell meets the condition. */
  predicate MeetsAt(c: Condition, row: map<string, Value>)
    requires CompileCondition(c).Success?
  {
    c.field.column in row && CellMeets(c, row[c.field.column])
  }

  predicate MeetsAll(conditions: seq<Condition>, row: map<string, Value>)
    requires AllCompile(conditions)
  {
    forall i :: 0 <= i < |conditions| ==> MeetsAt(conditions[i], row)
  }

  lemma MeetsFirst(conditions: seq<Condition>, row: map<string, Value>)
    requires AllCompile(conditions) && conditions != []
    ensures AllCompile(conditions[1..])
    ensures MeetsAll(conditions, row) <==> MeetsAt(conditions[0], row) && MeetsAll(conditions[1..], row)
  {
    hide CompileCondition, MeetsAt;
    if MeetsAt(conditions[0], row) && MeetsAll(conditions[1..], row) {
      forall i | 0 <= i < |conditions| ensures MeetsAt(conditions[i], row) {
        if i > 0 {
          assert conditions[i] == conditions[1..][i - 1];
        }
      }
    }
  }

  /** The printed conditions, run with the arguments in order, accept exactly the rows that meet all conditions. */
  lemma {:induction false} ConditionsMeaning(conditions: seq<Condition>, more: seq<Argument>, row: map<string, Value>)
    requires AllCompile(conditions)
    ensures RowPasses(ConditionShapes(conditions), ConditionArguments(conditions) + more, row) <==> MeetsAll(conditions, row)
    decreases |conditions|
  {
    hide CompileCondition, CellPasses, CellMeets, ConditionArguments, MeetsAll;
    if conditions == [] {
      NothingToMeet(row);
    } else {
      var c, rest := conditions[0], conditions[1..];
      var arguments := ConditionArguments(conditions) + more;
      assert ConditionShapes(conditions)[1..] == ConditionShapes(rest);
      MeetsFirst(conditions, row);
      ArgumentsFirst(conditions);
      ConditionsMeaning(rest, more, row);
      var compiled := CompileCondition(c).value;
      if c.field.column in row {
        ConditionMeaning(c, row[c.field.column]);
      } else {
        ConditionMeaning(c, NullValue);
      }
      if compiled.1.Some? {
        assert arguments == [compiled.1.value] + (ConditionArguments(rest) + more);
        assert arguments[1..] == ConditionArguments(rest) + more;
      } else {
        assert arguments == ConditionArguments(rest) + more;
      }
    }
  }

  lemma NothingToMeet(row: map<string, Value>)
    ensures AllCompile([]) && MeetsAll([], row)
  {
  }

  /**
   * Reading a compiled statement back and running its conditions with its arguments accepts exactly the rows that meet
   * the plan's conditions; the limit, if there is one, is the last argument.
   */
  lemma SelectMeaning(plan: Plan, row: map<string, Value>)
    requires First(Checks(plan)).None?
    ensures Decode(SelectText(plan)).Some? && AllCompile(plan.conditions)
    ensures var shape := Decode(SelectText(plan)).value;
      && (RowPasses(shape.conditions, Arguments(plan), row) <==> MeetsAll(plan.conditions, row))
      && (shape.limited <==> plan.limit.Some?)
      && (shape.limited ==> Arguments(plan) != [] && Arguments(plan)[|Arguments(plan)| - 1] == IntegerArgument(plan.limit.value))
  {
    hide Checks, First, Decode, SelectText, CompileCondition, RowPasses, MeetsAll, ConditionArguments;
    DecodesCompiled(plan);
    CompiledConditions(plan);
    var more := if plan.limit.None? then [] else [IntegerArgument(plan.limit.value)];
    ConditionsMeaning(plan.conditions, more, row);
  }
}
