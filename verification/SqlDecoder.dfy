/** A reader for the printed SELECT statements: it recovers the plan from the text alone. */
module SqlDecoder {
  import opened Errors
  import opened Texts
  import opened SqlCompiler

  /** What a statement's text says: everything but the argument values. */
  datatype Shape = Shape(
    columns: seq<string>, table: string, conditions: seq<(string, Operator)>, orderings: seq<(string, Order)>, limited: bool)

  datatype Parsed<T> = Parsed(value: T, rest: string)

  function After(s: string, token: string): Option<string> {
    if token <= s then Some(s[|token|..]) else None
  }

  /** A quoted identifier after its opening quote: a doubled quote stands for one, a single quote ends it. */
  function ParseBody(s: string): (r: Option<Parsed<string>>)
    ensures r.Some? ==> |r.value.rest| < |s|
  {
    if s == [] then None
    else if s[0] == '"' then
      if |s| > 1 && s[1] == '"' then
        match ParseBody(s[2..])
        case None => None
        case Some(p) => Some(Parsed(['"'] + p.value, p.rest))
      else Some(Parsed("", s[1..]))
    else
      match ParseBody(s[1..])
      case None => None
      case Some(p) => Some(Parsed([s[0]] + p.value, p.rest))
  }

  function ParseIdentifier(s: string): (r: Option<Parsed<string>>)
    ensures r.Some? ==> |r.value.rest| < |s|
  {
    if s != [] && s[0] == '"' then ParseBody(s[1..]) else None
  }

  function ParseOperator(s: string): (r: Option<Parsed<Operator>>)
    ensures r.Some? ==> |r.value.rest| < |s|
  {
    if " = ?" <= s then Some(Parsed(Equals, s[4..]))
    else if " LIKE ? ESCAPE '\\'" <= s then Some(Parsed(Like, s[18..]))
    else if " IS NULL" <= s then Some(Parsed(Null, s[8..]))
    else if " IS NOT NULL" <= s then Some(Parsed(NotNull, s[12..]))
    else None
  }

  function ParseOrder(s: string): (r: Option<Parsed<Order>>)
    ensures r.Some? ==> |r.value.rest| < |s|
  {
    if " ASC" <= s then Some(Parsed(Ascending, s[4..]))
    else if " DESC" <= s then Some(Parsed(Descending, s[5..]))
    else None
  }

  function ParseColumns(s: string): Option<Parsed<seq<string>>>
    decreases |s|
  {
    match ParseIdentifier(s)
    case None => None
    case Some(p) =>
      match After(p.rest, ", ")
      case None => Some(Parsed([p.value], p.rest))
      case Some(more) =>
        match ParseColumns(more)
        case None => None
        case Some(rest) => Some(Parsed([p.value] + rest.value, rest.rest))
  }

  function ParseConditions(s: string): Option<Parsed<seq<(string, Operator)>>>
    decreases |s|
  {
    match ParseIdentifier(s)
    case None => None
    case Some(p) =>
      match ParseOperator(p.rest)
      case None => None
      case Some(op) =>
        match After(op.rest, " AND ")
        case None => Some(Parsed([(p.value, op.value)], op.rest))
        case Some(more) =>
          match ParseConditions(more)
          case None => None
          case Some(rest) => Some(Parsed([(p.value, op.value)] + rest.value, rest.rest))
  }

  function ParseOrderings(s: string): Option<Parsed<seq<(string, Order)>>>
    decreases |s|
  {
    match ParseIdentifier(s)
    case None => None
    case Some(p) =>
      match ParseOrder(p.rest)
      case None => None
      case Some(order) =>
        match After(order.rest, ", ")
        case None => Some(Parsed([(p.value, order.value)], order.rest))
        case Some(more) =>
          match ParseOrderings(more)
          case None => None
          case Some(rest) => Some(Parsed([(p.value, order.value)] + rest.value, rest.rest))
  }

  function DecodeLimit(
      columns: seq<string>, table: string, conditions: seq<(string, Operator)>, orderings: seq<(string, Order)>, s: string): Option<Shape>
  {
    if s == "" then Some(Shape(columns, table, conditions, orderings, false))
    else if s == " LIMIT ?" then Some(Shape(columns, table, conditions, orderings, true))
    else None
  }

  function DecodeOrderBy(columns: seq<string>, table: string, conditions: seq<(string, Operator)>, s: string): Option<Shape> {
    match After(s, " ORDER BY ")
    case None => DecodeLimit(columns, table, conditions, [], s)
    case Some(list) =>
      match ParseOrderings(list)
      case None => None
      case Some(p) => DecodeLimit(columns, table, conditions, p.value, p.rest)
  }

  function DecodeWhere(columns: seq<string>, table: string, s: string): Option<Shape> {
    match After(s, " WHERE ")
    case None => DecodeOrderBy(columns, table, [], s)
    case Some(list) =>
      match ParseConditions(list)
      case None => None
      case Some(p) => DecodeOrderBy(columns, table, p.value, p.rest)
  }

  function DecodeFrom(columns: seq<string>, s: string): Option<Shape> {
    match After(s, " FROM ")
    case None => None
    case Some(from) =>
      match ParseIdentifier(from)
      case None => None
      case Some(p) => DecodeWhere(columns, p.value, p.rest)
  }

  /** Reads a whole statement. */
  function Decode(s: string): Option<Shape> {
    match After(s, "SELECT ")
    case None => None
    case Some(list) =>
      match ParseColumns(list)
      case None => None
      case Some(p) => DecodeFrom(p.value, p.rest)
  }

  // ---------------------------------------------------------------- what printed plans decode to

  function Names(columns: seq<FieldRef>): (names: seq<string>)
    ensures |names| == |columns| && forall i :: 0 <= i < |columns| ==> names[i] == columns[i].column
  {
    seq(|columns|, i requires 0 <= i < |columns| => columns[i].column)
  }

  function ConditionShapes(conditions: seq<Condition>): (shapes: seq<(string, Operator)>)
    ensures |shapes| == |conditions|
    ensures forall i :: 0 <= i < |conditions| ==> shapes[i] == (conditions[i].field.column, OperatorOf(conditions[i]))
  {
    seq(|conditions|, i requires 0 <= i < |conditions| => (conditions[i].field.column, OperatorOf(conditions[i])))
  }

  function OrderingShapes(orderings: seq<Ordering>): (shapes: seq<(string, Order)>)
    ensures |shapes| == |orderings|
    ensures forall i :: 0 <= i < |orderings| ==> shapes[i] == (orderings[i].field.column, orderings[i].direction)
  {
    seq(|orderings|, i requires 0 <= i < |orderings| => (orderings[i].field.column, orderings[i].direction))
  }

  function ShapeOf(plan: Plan): Shape {
    Shape(Names(plan.columns), plan.table, ConditionShapes(plan.conditions), OrderingShapes(plan.orderings), plan.limit.Some?)
  }

  /** Texts that follow an identifier or a list never continue it. */
  predicate Ends(rest: string) {
    rest == "" || (rest[0] == ' ' && (|rest| > 1 ==> rest[1] != 'A'))
  }

  lemma AfterToken(token: string, rest: string)
    ensures After(token + rest, token) == Some(rest)
  {
  }

  lemma {:induction false} BodyParsed(identifier: string, rest: string)
    requires rest == "" || rest[0] != '"'
    ensures ParseBody(ReplaceAll(identifier, '"', "\"\"") + ("\"" + rest)) == Some(Parsed(identifier, rest))
    decreases |identifier|
  {
    var end := "\"" + rest;
    assert end[1..] == rest;
    if identifier == [] {
      assert ReplaceAll(identifier, '"', "\"\"") + end == end;
    } else {
      var c, more := identifier[0], ReplaceAll(identifier[1..], '"', "\"\"");
      BodyParsed(identifier[1..], rest);
      assert identifier == [c] + identifier[1..];
      var text := (if c == '"' then "\"\"" else [c]) + more + end;
      assert text == (if c == '"' then "\"\"" else [c]) + (more + end);
      if c == '"' {
        assert text[2..] == more + end;
      } else {
        assert text[1..] == more + end;
      }
    }
  }

  /** A quoted identifier reads back as itself, whatever characters it has. */
  lemma IdentifierParsed(identifier: string, rest: string)
    requires rest == "" || rest[0] != '"'
    ensures ParseIdentifier(Quote(identifier) + rest) == Some(Parsed(identifier, rest))
  {
    var body := ReplaceAll(identifier, '"', "\"\"");
    BodyParsed(identifier, rest);
    hide ReplaceAll, ParseBody;
    var text := Quote(identifier) + rest;
    assert text[1..] == body + ("\"" + rest);
  }

  lemma OperatorParsed(op: Operator, rest: string)
    ensures ParseOperator(OperatorText(op) + rest) == Some(Parsed(op, rest))
  {
    var text := OperatorText(op) + rest;
    match op {
      case Equals => assert text[4..] == rest;
      case Like =>
        assert text[1] == 'L' && |OperatorText(op)| == 18 && text[18..] == rest;
        assert OperatorText(op) <= text;
      case Null =>
        assert text[1] == 'I' && text[5] == 'U' && text[8..] == rest;
        assert OperatorText(op) <= text;
      case NotNull =>
        assert text[1] == 'I' && text[5] == 'O' && text[12..] == rest;
        assert OperatorText(op) <= text;
    }
  }

  lemma OrderParsed(order: Order, rest: string)
    requires order == Ascending || order == Descending
    ensures ParseOrder(OrderText(order) + rest) == Some(Parsed(order, rest))
  {
    var text := OrderText(order) + rest;
    if order == Ascending {
      assert text[4..] == rest;
    } else {
      assert text[1] == 'D' && text[5..] == rest && " DESC" <= text;
    }
  }

  lemma JoinFirst(parts: seq<string>, separator: string, rest: string)
    requires parts != []
    ensures Join(parts, separator) + rest ==
      if |parts| == 1 then parts[0] + rest else parts[0] + (separator + (Join(parts[1..], separator) + rest))
  {
  }

  lemma EndsNoToken(rest: string)
    requires Ends(rest)
    ensures After(rest, ", ").None? && After(rest, " AND ").None? && (rest == "" || rest[0] != '"')
  {
  }

  lemma SpacedTexts(op: Operator, order: Order, rest: string)
    ensures (OperatorText(op) + rest)[0] == ' ' && (OrderText(order) + rest)[0] == ' '
  {
  }

  lemma ColumnsUnfold(text: string, name: string, follow: string)
    requires ParseIdentifier(text) == Some(Parsed(name, follow))
    ensures ParseColumns(text) ==
      match After(follow, ", ")
      case None => Some(Parsed([name], follow))
      case Some(more) =>
        match ParseColumns(more)
        case None => None
        case Some(rest) => Some(Parsed([name] + rest.value, rest.rest))
  {
  }

  lemma {:induction false} ColumnsParsed(columns: seq<FieldRef>, rest: string)
    requires columns != [] && Ends(rest)
    ensures ParseColumns(Join(ColumnTexts(columns), ", ") + rest) == Some(Parsed(Names(columns), rest))
    decreases |columns|
  {
    hide ParseColumns, ParseIdentifier, Quote, Join, After;
    var texts := ColumnTexts(columns);
    JoinFirst(texts, ", ", rest);
    EndsNoToken(rest);
    if |columns| == 1 {
      IdentifierParsed(columns[0].column, rest);
      ColumnsUnfold(texts[0] + rest, columns[0].column, rest);
      assert Names(columns) == [columns[0].column];
    } else {
      assert texts[1..] == ColumnTexts(columns[1..]);
      var more := Join(texts[1..], ", ") + rest;
      ColumnsParsed(columns[1..], rest);
      AfterToken(", ", more);
      IdentifierParsed(columns[0].column, ", " + more);
      ColumnsUnfold(texts[0] + (", " + more), columns[0].column, ", " + more);
      assert Names(columns) == [columns[0].column] + Names(columns[1..]);
    }
  }

  lemma ConditionsUnfold(text: string, name: string, op: Operator, follow: string, rest: string)
    requires ParseIdentifier(text) == Some(Parsed(name, follow)) && ParseOperator(follow) == Some(Parsed(op, rest))
    ensures ParseConditions(text) ==
      match After(rest, " AND ")
      case None => Some(Parsed([(name, op)], rest))
      case Some(more) =>
        match ParseConditions(more)
        case None => None
        case Some(later) => Some(Parsed([(name, op)] + later.value, later.rest))
  {
  }

  lemma ConditionParsed(c: Condition, rest: string)
    ensures var text, op := (Quote(c.field.column) + OperatorText(OperatorOf(c))) + rest, OperatorOf(c);
      && ParseIdentifier(text) == Some(Parsed(c.field.column, OperatorText(op) + rest))
      && ParseOperator(OperatorText(op) + rest) == Some(Parsed(op, rest))
  {
    hide ParseIdentifier, ParseOperator, Quote, OperatorText, OperatorOf;
    var op := OperatorOf(c);
    Associate(Quote(c.field.column), OperatorText(op), rest);
    SpacedTexts(op, Ascending, rest);
    IdentifierParsed(c.field.column, OperatorText(op) + rest);
    OperatorParsed(op, rest);
  }

  lemma {:induction false} ConditionsParsed(conditions: seq<Condition>, rest: string)
    requires conditions != [] && Ends(rest)
    ensures ParseConditions(Join(ConditionTexts(conditions), " AND ") + rest) == Some(Parsed(ConditionShapes(conditions), rest))
    decreases |conditions|
  {
    hide ParseConditions, ParseIdentifier, ParseOperator, Quote, Join, After, OperatorOf, OperatorText;
    var texts, c := ConditionTexts(conditions), conditions[0];
    var name, op := c.field.column, OperatorOf(c);
    JoinFirst(texts, " AND ", rest);
    EndsNoToken(rest);
    if |conditions| == 1 {
      ConditionParsed(c, rest);
      ConditionsUnfold(texts[0] + rest, name, op, OperatorText(op) + rest, rest);
      assert ConditionShapes(conditions) == [(name, op)];
    } else {
      assert texts[1..] == ConditionTexts(conditions[1..]);
      var more := Join(texts[1..], " AND ") + rest;
      ConditionsParsed(conditions[1..], rest);
      AfterToken(" AND ", more);
      ConditionParsed(c, " AND " + more);
      ConditionsUnfold(texts[0] + (" AND " + more), name, op, OperatorText(op) + (" AND " + more), " AND " + more);
      assert ConditionShapes(conditions) == [(name, op)] + ConditionShapes(conditions[1..]);
    }
  }

  lemma OrderingsUnfold(text: string, name: string, order: Order, follow: string, rest: string)
    requires ParseIdentifier(text) == Some(Parsed(name, follow)) && ParseOrder(follow) == Some(Parsed(order, rest))
    ensures ParseOrderings(text) ==
      match After(rest, ", ")
      case None => Some(Parsed([(name, order)], rest))
      case Some(more) =>
        match ParseOrderings(more)
        case None => None
        case Some(later) => Some(Parsed([(name, order)] + later.value, later.rest))
  {
  }

  lemma OrderingParsed(o: Ordering, rest: string)
    requires o.direction == Ascending || o.direction == Descending
    ensures var text := (Quote(o.field.column) + OrderText(o.direction)) + rest;
      && ParseIdentifier(text) == Some(Parsed(o.field.column, OrderText(o.direction) + rest))
      && ParseOrder(OrderText(o.direction) + rest) == Some(Parsed(o.direction, rest))
  {
    hide ParseIdentifier, ParseOrder, Quote, OrderText;
    Associate(Quote(o.field.column), OrderText(o.direction), rest);
    SpacedTexts(Equals, o.direction, rest);
    IdentifierParsed(o.field.column, OrderText(o.direction) + rest);
    OrderParsed(o.direction, rest);
  }

  lemma {:induction false} OrderingsParsed(orderings: seq<Ordering>, rest: string)
    requires orderings != [] && Ends(rest)
    requires forall i :: 0 <= i < |orderings| ==> orderings[i].direction == Ascending || orderings[i].direction == Descending
    ensures ParseOrderings(Join(OrderingTexts(orderings), ", ") + rest) == Some(Parsed(OrderingShapes(orderings), rest))
    decreases |orderings|
  {
    hide ParseOrderings, ParseIdentifier, ParseOrder, Quote, Join, After, OrderText;
    var texts, o := OrderingTexts(orderings), orderings[0];
    var name, order := o.field.column, o.direction;
    JoinFirst(texts, ", ", rest);
    EndsNoToken(rest);
    if |orderings| == 1 {
      OrderingParsed(o, rest);
      OrderingsUnfold(texts[0] + rest, name, order, OrderText(order) + rest, rest);
      assert OrderingShapes(orderings) == [(name, order)];
    } else {
      assert texts[1..] == OrderingTexts(orderings[1..]);
      var more := Join(texts[1..], ", ") + rest;
      OrderingsParsed(orderings[1..], rest);
      AfterToken(", ", more);
      OrderingParsed(o, ", " + more);
      OrderingsUnfold(texts[0] + (", " + more), name, order, OrderText(order) + (", " + more), ", " + more);
      assert OrderingShapes(orderings) == [(name, order)] + OrderingShapes(orderings[1..]);
    }
  }

  // ---------------------------------------------------------------- whole statements

  predicate Ordered(plan: Plan) {
    forall i :: 0 <= i < |plan.orderings| ==>
      plan.orderings[i].direction == Ascending || plan.orderings[i].direction == Descending
  }

  lemma TailsEnd(plan: Plan)
    ensures Ends(LimitText(plan)) && Ends(OrderByText(plan) + LimitText(plan))
    ensures Ends(WhereText(plan) + (OrderByText(plan) + LimitText(plan)))
  {
    hide Join;
    var limit := LimitText(plan);
    assert limit != "" ==> limit[1] == 'L';
    var order := OrderByText(plan) + limit;
    assert plan.orderings == [] ==> order == limit;
    assert plan.orderings != [] ==> order[0] == ' ' && order[1] == 'O';
    var tail := WhereText(plan) + order;
    assert plan.conditions == [] ==> tail == order;
    assert plan.conditions != [] ==> tail[0] == ' ' && tail[1] == 'W';
  }

  lemma LimitDecoded(plan: Plan, columns: seq<string>, table: string, conditions: seq<(string, Operator)>, orderings: seq<(string, Order)>)
    ensures DecodeLimit(columns, table, conditions, orderings, LimitText(plan))
         == Some(Shape(columns, table, conditions, orderings, plan.limit.Some?))
  {
  }

  lemma NotOrderBy(plan: Plan)
    ensures After(LimitText(plan), " ORDER BY ").None?
  {
  }

  lemma OrderByDecoded(plan: Plan, columns: seq<string>, table: string, conditions: seq<(string, Operator)>)
    requires Ordered(plan)
    ensures DecodeOrderBy(columns, table, conditions, OrderByText(plan) + LimitText(plan))
         == Some(Shape(columns, table, conditions, OrderingShapes(plan.orderings), plan.limit.Some?))
  {
    hide Join, ParseOrderings, After, LimitText, DecodeLimit;
    var limit := LimitText(plan);
    TailsEnd(plan);
    LimitDecoded(plan, columns, table, conditions, OrderingShapes(plan.orderings));
    if plan.orderings == [] {
      assert OrderByText(plan) + limit == limit;
      NotOrderBy(plan);
      assert OrderingShapes(plan.orderings) == [];
    } else {
      var list := Join(OrderingTexts(plan.orderings), ", ");
      Associate(" ORDER BY ", list, limit);
      AfterToken(" ORDER BY ", list + limit);
      OrderingsParsed(plan.orderings, limit);
    }
  }

  lemma NotWhere(plan: Plan)
    ensures After(OrderByText(plan) + LimitText(plan), " WHERE ").None?
  {
    hide Join;
    assert " WHERE "[1] == 'W';
    var limit := LimitText(plan);
    var order := OrderByText(plan) + limit;
    assert plan.orderings == [] ==> order == limit;
    assert limit != "" ==> limit[1] == 'L';
    assert plan.orderings != [] ==> order[1] == 'O';
  }

  lemma WhereDecoded(plan: Plan, columns: seq<string>, table: string)
    requires Ordered(plan)
    ensures DecodeWhere(columns, table, WhereText(plan) + (OrderByText(plan) + LimitText(plan)))
         == Some(Shape(columns, table, ConditionShapes(plan.conditions), OrderingShapes(plan.orderings), plan.limit.Some?))
  {
    hide Join, ParseConditions, After, LimitText, OrderByText, DecodeOrderBy;
    var tail := OrderByText(plan) + LimitText(plan);
    TailsEnd(plan);
    OrderByDecoded(plan, columns, table, ConditionShapes(plan.conditions));
    if plan.conditions == [] {
      assert WhereText(plan) + tail == tail;
      NotWhere(plan);
      assert ConditionShapes(plan.conditions) == [];
    } else {
      var list := Join(ConditionTexts(plan.conditions), " AND ");
      Associate(" WHERE ", list, tail);
      AfterToken(" WHERE ", list + tail);
      ConditionsParsed(plan.conditions, tail);
    }
  }

  lemma SelectRegrouped(plan: Plan)
    ensures SelectText(plan) ==
      "SELECT " + (Join(ColumnTexts(plan.columns), ", ") +
        (" FROM " + (Quote(plan.table) + (WhereText(plan) + (OrderByText(plan) + LimitText(plan))))))
  {
    hide Join, Quote, WhereText, OrderByText, LimitText;
    var list, table := Join(ColumnTexts(plan.columns), ", "), Quote(plan.table);
    var where, order, limit := WhereText(plan), OrderByText(plan), LimitText(plan);
    Associate(FromText(plan) + where, order, limit);
    Associate(FromText(plan), where, order + limit);
    Associate("SELECT " + list + " FROM ", table, where + (order + limit));
    Associate("SELECT " + list, " FROM ", table + (where + (order + limit)));
    Associate("SELECT ", list, " FROM " + (table + (where + (order + limit))));
  }

  /** Printing then reading recovers the table, the columns, the conditions, the orderings and the limit's presence. */
  lemma DecodesCompiled(plan: Plan)
    requires First(Checks(plan)).None?
    ensures Decode(SelectText(plan)) == Some(ShapeOf(plan))
  {
    hide Join, Quote, WhereText, OrderByText, LimitText, SelectText, ParseColumns, ParseIdentifier, After, First, Checks, DecodeWhere;
    CompiledOrdered(plan);
    SelectRegrouped(plan);
    TailsEnd(plan);
    var list, table := Join(ColumnTexts(plan.columns), ", "), Quote(plan.table);
    var tail := WhereText(plan) + (OrderByText(plan) + LimitText(plan));
    var from := " FROM " + (table + tail);
    AfterToken("SELECT ", list + from);
    FromEnds(table + tail);
    ColumnsParsed(plan.columns, from);
    AfterToken(" FROM ", table + tail);
    EndsNoToken(tail);
    IdentifierParsed(plan.table, tail);
    WhereDecoded(plan, Names(plan.columns), plan.table);
  }

  lemma FromEnds(s: string)
    ensures Ends(" FROM " + s)
  {
  }

  lemma CompiledOrdered(plan: Plan)
    requires First(Checks(plan)).None?
    ensures plan.columns != [] && Ordered(plan)
  {
    ChecksInOrder(plan);
    hide Checks;
    forall i | 0 <= i < |plan.orderings|
      ensures plan.orderings[i].direction == Ascending || plan.orderings[i].direction == Descending
    {
      NoneFails(OrderingChecks(plan), i);
    }
  }
}
