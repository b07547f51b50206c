/** Placeholders of a printed statement: as many as arguments, none of them inside an identifier. */
module SqlPlaceholders {
  import opened Errors
  import opened Texts
  import opened SqlCompiler

  /** Whether a text that starts inside (or outside) double quotes ends inside them. */
  function EndsQuoted(s: string, quoted: bool): bool {
    if s == [] then quoted else EndsQuoted(s[1..], if s[0] == '"' then !quoted else quoted)
  }

  /** The question marks outside double quotes. */
  function Placeholders(s: string, quoted: bool): nat {
    if s == [] then 0
    else if s[0] == '"' then Placeholders(s[1..], !quoted)
    else (if s[0] == '?' && !quoted then 1 else 0) + Placeholders(s[1..], quoted)
  }

  /** A text that holds n placeholders and leaves quoting as it found it. */
  predicate Plain(s: string, n: nat) {
    Placeholders(s, false) == n && !EndsQuoted(s, false)
  }

  lemma {:induction false} CountConcat(a: string, b: string, quoted: bool)
    ensures Placeholders(a + b, quoted) == Placeholders(a, quoted) + Placeholders(b, EndsQuoted(a, quoted))
    ensures EndsQuoted(a + b, quoted) == EndsQuoted(b, EndsQuoted(a, quoted))
    decreases |a|
  {
    if a == [] {
      assert a + b == b;
    } else {
      assert (a + b)[1..] == a[1..] + b;
      CountConcat(a[1..], b, if a[0] == '"' then !quoted else quoted);
    }
  }

  lemma PlainConcat(a: string, m: nat, b: string, n: nat)
    requires Plain(a, m) && Plain(b, n)
    ensures Plain(a + b, m + n)
  {
    hide Placeholders, EndsQuoted;
    CountConcat(a, b, false);
  }

  lemma {:induction false} InsideQuotes(identifier: string)
    ensures var body := ReplaceAll(identifier, '"', "\"\"");
      Placeholders(body, true) == 0 && EndsQuoted(body, true)
    decreases |identifier|
  {
    if identifier != [] {
      var first := if identifier[0] == '"' then "\"\"" else [identifier[0]];
      var rest := ReplaceAll(identifier[1..], '"', "\"\"");
      InsideQuotes(identifier[1..]);
      CountConcat(first, rest, true);
      assert first[1..] == if identifier[0] == '"' then "\"" else [];
    }
  }

  /** Whatever an identifier contains, its quoted form holds no placeholder. */
  lemma QuotePlain(identifier: string)
    ensures Plain(Quote(identifier), 0)
  {
    var body := ReplaceAll(identifier, '"', "\"\"");
    InsideQuotes(identifier);
    hide ReplaceAll;
    CountConcat(body, "\"", true);
    assert Quote(identifier)[1..] == body + "\"";
  }

  /** The letters, spaces and signs of the printed keywords. */
  predicate Keyword(s: string) {
    forall i :: 0 <= i < |s| ==> s[i] != '"' && s[i] != '?'
  }

  lemma {:induction false} KeywordPlain(s: string)
    requires Keyword(s)
    ensures Plain(s, 0)
    decreases |s|
  {
    if s != [] {
      KeywordPlain(s[1..]);
    }
  }

  lemma MarkPlain(before: string, after: string)
    requires Keyword(before) && Keyword(after)
    ensures Plain(before + "?" + after, 1)
  {
    assert Plain("?", 1) by { assert "?"[1..] == ""; }
    KeywordPlain(before);
    KeywordPlain(after);
    PlainConcat(before, 0, "?", 1);
    PlainConcat(before + "?", 1, after, 0);
  }

  function Takes(op: Operator): nat {
    if op == Equals || op == Like then 1 else 0
  }

  lemma OperatorPlain(op: Operator)
    ensures Plain(OperatorText(op), Takes(op))
  {
    match op {
      case Equals =>
        MarkPlain(" = ", "");
        assert OperatorText(op) == " = " + "?" + "";
      case Like =>
        MarkPlain(" LIKE ", " ESCAPE '\\'");
        assert OperatorText(op) == " LIKE " + "?" + " ESCAPE '\\'";
      case Null => KeywordPlain(OperatorText(op));
      case NotNull => KeywordPlain(OperatorText(op));
    }
  }

  function Sum(counts: seq<nat>): nat {
    if counts == [] then 0 else counts[0] + Sum(counts[1..])
  }

  lemma {:induction false} JoinPlain(parts: seq<string>, counts: seq<nat>, separator: string)
    requires |parts| == |counts| && Keyword(separator) && forall i :: 0 <= i < |parts| ==> Plain(parts[i], counts[i])
    ensures Plain(Join(parts, separator), Sum(counts))
    decreases |parts|
  {
    hide Plain, Keyword;
    if parts == [] {
      assert Plain("", 0) by { EmptyPlain(); }
    } else {
      JoinPlain(parts[1..], counts[1..], separator);
      if |parts| > 1 {
        KeywordPlain(separator);
        PlainConcat(parts[0], counts[0], separator, 0);
        PlainConcat(parts[0] + separator, counts[0], Join(parts[1..], separator), Sum(counts[1..]));
      } else {
        assert counts[1..] == [];
      }
    }
  }

  lemma EmptyPlain()
    ensures Plain("", 0)
  {
  }

  lemma {:induction false} SumZeros(counts: seq<nat>)
    requires forall i :: 0 <= i < |counts| ==> counts[i] == 0
    ensures Sum(counts) == 0
    decreases |counts|
  {
    if counts != [] {
      SumZeros(counts[1..]);
    }
  }

  lemma NamesPlain(columns: seq<FieldRef>)
    ensures Plain(Join(ColumnTexts(columns), ", "), 0)
  {
    hide Plain, Quote, Join;
    var counts := seq(|columns|, i => 0);
    forall i | 0 <= i < |columns| ensures Plain(ColumnTexts(columns)[i], counts[i]) {
      QuotePlain(columns[i].column);
    }
    JoinPlain(ColumnTexts(columns), counts, ", ");
    SumZeros(counts);
  }

  lemma OrderingsPlain(orderings: seq<Ordering>)
    ensures Plain(Join(OrderingTexts(orderings), ", "), 0)
  {
    hide Plain, Quote, Join;
    var counts := seq(|orderings|, i => 0);
    forall i | 0 <= i < |orderings| ensures Plain(OrderingTexts(orderings)[i], counts[i]) {
      QuotePlain(orderings[i].field.column);
      KeywordPlain(OrderText(orderings[i].direction));
      PlainConcat(Quote(orderings[i].field.column), 0, OrderText(orderings[i].direction), 0);
    }
    JoinPlain(OrderingTexts(orderings), counts, ", ");
    SumZeros(counts);
  }

  function Taken(conditions: seq<Condition>): (counts: seq<nat>)
    ensures |counts| == |conditions| && forall i :: 0 <= i < |conditions| ==> counts[i] == Takes(OperatorOf(conditions[i]))
  {
    seq(|conditions|, i requires 0 <= i < |conditions| => Takes(OperatorOf(conditions[i])))
  }

  lemma ConditionsPlain(conditions: seq<Condition>)
    ensures Plain(Join(ConditionTexts(conditions), " AND "), Sum(Taken(conditions)))
  {
    hide Plain, Quote, Join, Sum, OperatorText, OperatorOf;
    var texts := ConditionTexts(conditions);
    forall i | 0 <= i < |conditions| ensures Plain(texts[i], Taken(conditions)[i]) {
      var op := OperatorOf(conditions[i]);
      QuotePlain(conditions[i].field.column);
      OperatorPlain(op);
      PlainConcat(Quote(conditions[i].field.column), 0, OperatorText(op), Takes(op));
    }
    JoinPlain(texts, Taken(conditions), " AND ");
  }

  lemma {:induction false} SumLast(counts: seq<nat>, last: nat)
    ensures Sum(counts + [last]) == Sum(counts) + last
    decreases |counts|
  {
    if counts == [] {
      assert counts + [last] == [last] && [last][1..] == [];
    } else {
      assert (counts + [last])[1..] == counts[1..] + [last];
      SumLast(counts[1..], last);
    }
  }

  /** Each placeholder of a condition has its argument. */
  lemma {:induction false} ArgumentsTaken(conditions: seq<Condition>)
    requires AllCompile(conditions)
    ensures |ConditionArguments(conditions)| == Sum(Taken(conditions))
    decreases |conditions|
  {
    hide Sum;
    if conditions == [] {
      NothingTaken();
      assert Taken(conditions) == [];
    } else {
      var n := |conditions| - 1;
      ArgumentsTaken(conditions[..n]);
      assert Taken(conditions) == Taken(conditions[..n]) + [Takes(OperatorOf(conditions[n]))];
      SumLast(Taken(conditions[..n]), Takes(OperatorOf(conditions[n])));
    }
  }

  lemma NothingTaken()
    ensures Sum([]) == 0
  {
  }

  lemma LimitPlain(plan: Plan)
    ensures Plain(LimitText(plan), if plan.limit.Some? then 1 else 0)
  {
    EmptyPlain();
    hide Plain;
    MarkPlain(" LIMIT ", "");
    assert " LIMIT ?" == " LIMIT " + "?" + "";
  }

  lemma FromPlain(plan: Plan)
    ensures Plain(FromText(plan), 0)
  {
    hide Plain, Join, Quote;
    var list := Join(ColumnTexts(plan.columns), ", ");
    KeywordPlain("SELECT ");
    NamesPlain(plan.columns);
    KeywordPlain(" FROM ");
    QuotePlain(plan.table);
    PlainConcat("SELECT ", 0, list, 0);
    PlainConcat("SELECT " + list, 0, " FROM ", 0);
    PlainConcat("SELECT " + list + " FROM ", 0, Quote(plan.table), 0);
  }

  lemma WherePlain(plan: Plan)
    ensures Plain(WhereText(plan), Sum(Taken(plan.conditions)))
  {
    hide Plain, Join;
    if plan.conditions == [] {
      EmptyPlain();
      assert Taken(plan.conditions) == [];
    } else {
      KeywordPlain(" WHERE ");
      ConditionsPlain(plan.conditions);
      PlainConcat(" WHERE ", 0, Join(ConditionTexts(plan.conditions), " AND "), Sum(Taken(plan.conditions)));
    }
  }

  lemma OrderByPlain(plan: Plan)
    ensures Plain(OrderByText(plan), 0)
  {
    hide Plain, Join;
    if plan.orderings == [] {
      EmptyPlain();
    } else {
      KeywordPlain(" ORDER BY ");
      OrderingsPlain(plan.orderings);
      PlainConcat(" ORDER BY ", 0, Join(OrderingTexts(plan.orderings), ", "), 0);
    }
  }

  /** A compiled statement has exactly one placeholder for each argument. */
  lemma PlaceholdersMatch(plan: Plan)
    requires First(Checks(plan)).None?
    ensures Placeholders(SelectText(plan), false) == |Arguments(plan)|
  {
    hide Placeholders, EndsQuoted, FromText, WhereText, OrderByText, LimitText, ConditionArguments, Sum, CompileCondition, Checks;
    CompiledConditions(plan);
    var taken, limit := Sum(Taken(plan.conditions)), if plan.limit.Some? then 1 else 0;
    FromPlain(plan);
    WherePlain(plan);
    OrderByPlain(plan);
    LimitPlain(plan);
    PlainConcat(FromText(plan), 0, WhereText(plan), taken);
    PlainConcat(FromText(plan) + WhereText(plan), taken, OrderByText(plan), 0);
    PlainConcat(FromText(plan) + WhereText(plan) + OrderByText(plan), taken, LimitText(plan), limit);
    ArgumentsTaken(plan.conditions);
  }
}
