/** Migrations as operation sequences: state preflight in both directions and whole-plan inversion. */
module Migrations {
  import opened Keys
  import opened Errors
  import opened PlanSpec
  import opened ProjectStates
  import opened Operations

  datatype Migration = Migration(app: string, name: string, dependencies: seq<Key>, operations: seq<Operation>)

  const NO_OPERATION := -1

  datatype MigrationError =
    MigrationError(category: Category, code: Code, direction: Direction, key: Key, operationIndex: int, rollbackFailed: bool)

  function KeyOf(m: Migration): Key {
    Key(m.app, m.name)
  }

  datatype PreparedOperation =
    PreparedOperation(index: nat, op: Operation, before: ProjectState, after: ProjectState)

  function StateStep(s: ProjectState, op: Operation, direction: Direction): Option<ProjectState> {
    if direction == Forward then StateForward(s, op) else StateBackward(s, op)
  }

  /** Operations run in declaration order forward and in reverse order otherwise. */
  function OperationIndex(count: nat, direction: Direction, n: nat): nat
    requires n < count
  {
    if direction == Forward then n else count - 1 - n
  }

  function StateError(m: Migration, direction: Direction, index: int): MigrationError {
    MigrationError(StateCategory, InvalidState, direction, KeyOf(m), index, false)
  }

  /** The prepared operations from position n on, starting in state s. */
  function PreparedFrom(s: ProjectState, m: Migration, direction: Direction, n: nat): Result<seq<PreparedOperation>, MigrationError>
    requires n <= |m.operations|
    decreases |m.operations| - n
  {
    if n == |m.operations| then Success([])
    else
      var index := OperationIndex(|m.operations|, direction, n);
      var op := m.operations[index];
      if op.NilOperation? || op.appLabel != m.app then Failure(StateError(m, direction, index))
      else
        match StateStep(Clone(s), op, direction)
        case None => Failure(StateError(m, direction, index))
        case Some(next) =>
          match PreparedFrom(next, m, direction, n + 1)
          case Failure(e) => Failure(e)
          case Success(rest) => Success([PreparedOperation(index, op, Clone(s), Clone(next))] + rest)
  }

  function Extended(first: seq<PreparedOperation>, rest: Result<seq<PreparedOperation>, MigrationError>):
    Result<seq<PreparedOperation>, MigrationError>
  {
    match rest
    case Failure(e) => Failure(e)
    case Success(more) => Success(first + more)
  }

  function PreparedOf(r: Result<seq<PreparedOperation>, MigrationError>): seq<PreparedOperation> {
    match r
    case Failure(_) => []
    case Success(prepared) => prepared
  }

  function FinalState(s: ProjectState, prepared: seq<PreparedOperation>): ProjectState {
    if prepared == [] then Clone(s) else Clone(prepared[|prepared| - 1].after)
  }

  /** The pure check of one migration against a state: its prepared operations, or the first error. */
  function PreflightSpec(before: ProjectState, m: Migration, direction: Direction): Result<seq<PreparedOperation>, MigrationError> {
    if !ValidState(before) || m.app == "" || m.name == "" then Failure(StateError(m, direction, NO_OPERATION))
    else PreparedFrom(before, m, direction, 0)
  }

  // ---------------------------------------------------------------- what a preflight finds

  /** The state after the first n operations in running order; None if one of them is refused. */
  function StateAfter(s: ProjectState, m: Migration, direction: Direction, n: nat): Option<ProjectState>
    requires n <= |m.operations|
  {
    if n == 0 then Some(s)
    else
      var op := m.operations[if direction == Forward then n - 1 else |m.operations| - n];
      match StateAfter(s, m, direction, n - 1)
      case None => None
      case Some(t) => if op.NilOperation? || op.appLabel != m.app then None else StateStep(t, op, direction)
  }

  /** Where a preflight stops: the position of the first refused operation. */
  ghost predicate RefusedAt(s: ProjectState, m: Migration, direction: Direction, n: nat, index: int) {
    && n < |m.operations| && StateAfter(s, m, direction, n).Some? && StateAfter(s, m, direction, n + 1).None?
    && index == if direction == Forward then n else |m.operations| - 1 - n
  }

  ghost predicate Stops(s: ProjectState, m: Migration, direction: Direction, index: int) {
    exists n: nat :: RefusedAt(s, m, direction, n, index)
  }

  lemma {:induction false} PreparedFolds(s: ProjectState, m: Migration, direction: Direction, n: nat, t: ProjectState)
    requires n <= |m.operations| && Clone(s) == s && StateAfter(s, m, direction, n) == Some(t) && Clone(t) == t
    ensures PreparedFrom(t, m, direction, n).Failure? ==>
      var e := PreparedFrom(t, m, direction, n).error;
      && Stops(s, m, direction, e.operationIndex)
      && e == MigrationError(StateCategory, InvalidState, direction, KeyOf(m), e.operationIndex, false)
    ensures PreparedFrom(t, m, direction, n).Success? ==>
      var prepared := PreparedFrom(t, m, direction, n).value;
      && |prepared| == |m.operations| - n
      && (forall i :: 0 <= i < |prepared| ==> PreparedAt(s, m, direction, n + i, prepared[i]))
      && StateAfter(s, m, direction, |m.operations|) == Some(FinalState(t, prepared))
    decreases |m.operations| - n
  {
    hide StateStep, PreparedAt;
    if n < |m.operations| {
      var index := OperationIndex(|m.operations|, direction, n);
      var op := m.operations[index];
      if StateAfter(s, m, direction, n + 1).None? {
        assert RefusedAt(s, m, direction, n, index) && Stops(s, m, direction, index);
      } else {
        var next := StateStep(t, op, direction).value;
        StepCloned(t, op, direction);
        PreparedFolds(s, m, direction, n + 1, next);
        PreparedHere(s, m, direction, n, t, next);
        match PreparedFrom(next, m, direction, n + 1) {
          case Failure(_) =>
          case Success(rest) =>
            var prepared := [PreparedOperation(index, op, t, next)] + rest;
            forall i | 0 <= i < |prepared| ensures PreparedAt(s, m, direction, n + i, prepared[i]) {
              if i > 0 {
                assert PreparedAt(s, m, direction, n + 1 + (i - 1), rest[i - 1]);
              }
            }
        }
      }
    }
  }

  /** A prepared operation carries its own index and the states before and after it. */
  ghost predicate PreparedAt(s: ProjectState, m: Migration, direction: Direction, n: nat, p: PreparedOperation) {
    && n < |m.operations| && p.index == (if direction == Forward then n else |m.operations| - 1 - n)
    && p.op == m.operations[p.index]
    && StateAfter(s, m, direction, n) == Some(p.before) && StateAfter(s, m, direction, n + 1) == Some(p.after)
  }

  lemma PreparedHere(s: ProjectState, m: Migration, direction: Direction, n: nat, t: ProjectState, next: ProjectState)
    requires n < |m.operations| && StateAfter(s, m, direction, n) == Some(t)
    requires StateAfter(s, m, direction, n + 1) == Some(next)
    ensures var index := OperationIndex(|m.operations|, direction, n);
      PreparedAt(s, m, direction, n, PreparedOperation(index, m.operations[index], t, next))
  {
  }

  /**
   * A preflight threads the state through all operations in running order. It fails for a state, app or name that is
   * not valid, or at the first refused operation, and the error names the migration and that operation's index.
   */
  lemma PreflightFolds(s: ProjectState, m: Migration, direction: Direction)
    ensures PreflightSpec(s, m, direction).Failure? ==>
      var e := PreflightSpec(s, m, direction).error;
      && e == MigrationError(StateCategory, InvalidState, direction, KeyOf(m), e.operationIndex, false)
      && if ValidState(s) && m.app != "" && m.name != "" then Stops(Clone(s), m, direction, e.operationIndex)
         else e.operationIndex == NO_OPERATION
    ensures PreflightSpec(s, m, direction).Success? ==>
      var prepared := PreflightSpec(s, m, direction).value;
      && ValidState(s) && m.app != "" && m.name != "" && |prepared| == |m.operations|
      && (forall i :: 0 <= i < |prepared| ==> PreparedAt(Clone(s), m, direction, i, prepared[i]))
      && StateAfter(Clone(s), m, direction, |m.operations|) == Some(FinalState(s, prepared))
  {
    PreflightCloned(s, m, direction);
    hide StateStep, PreparedFrom, StateAfter, PreparedAt, Stops;
    NothingRun(Clone(s), m, direction);
    PreparedFolds(Clone(s), m, direction, 0, Clone(s));
  }

  lemma NothingRun(s: ProjectState, m: Migration, direction: Direction)
    ensures StateAfter(s, m, direction, 0) == Some(s)
  {
  }

  lemma StepCloned(s: ProjectState, op: Operation, direction: Direction)
    ensures StateStep(s, op, direction).Some? ==> Clone(StateStep(s, op, direction).value) == StateStep(s, op, direction).value
  {
  }

  ghost predicate Settled(s: ProjectState) {
    Clone(s) == s && ValidState(s)
  }

  /** Prepared operation number i of a forward run. */
  ghost predicate ForwardStep(m: Migration, p: PreparedOperation, i: nat) {
    && i < |m.operations| && p.index == i && p.op == m.operations[i]
    && !p.op.NilOperation? && p.op.appLabel == m.app
    && Settled(p.before) && Settled(p.after) && StateForward(p.before, p.op) == Some(p.after)
  }

  /** The state in which operation number i of a forward run starts; the final state for i past the end. */
  function StateAt(s: ProjectState, prepared: seq<PreparedOperation>, i: nat): ProjectState
    requires i <= |prepared|
  {
    if i == 0 then s else prepared[i - 1].after
  }

  /** A forward run from s: each operation starts where the one before it ended. */
  ghost predicate ForwardRun(m: Migration, s: ProjectState, prepared: seq<PreparedOperation>, n: nat) {
    && |prepared| == |m.operations| - n
    && (forall i :: 0 <= i < |prepared| ==> ForwardStep(m, prepared[i], n + i))
    && (forall i :: 0 <= i < |prepared| ==> prepared[i].before == StateAt(s, prepared, i))
  }

  lemma ForwardRunCons(m: Migration, s: ProjectState, p: PreparedOperation, rest: seq<PreparedOperation>, n: nat)
    requires n < |m.operations| && ForwardStep(m, p, n) && p.before == s && ForwardRun(m, p.after, rest, n + 1)
    ensures ForwardRun(m, s, [p] + rest, n)
  {
    hide ForwardStep;
    var prepared := [p] + rest;
    forall i | 0 <= i < |prepared| ensures ForwardStep(m, prepared[i], n + i) {
      if i > 0 {
        assert ForwardStep(m, rest[i - 1], n + 1 + (i - 1));
      }
    }
    forall i | 0 <= i < |prepared| ensures prepared[i].before == StateAt(s, prepared, i) {
      if i > 0 {
        assert rest[i - 1].before == StateAt(p.after, rest, i - 1);
      }
    }
  }

  lemma {:induction false} ForwardRuns(s: ProjectState, m: Migration, n: nat)
    requires n <= |m.operations| && Settled(s) && PreparedFrom(s, m, Forward, n).Success?
    ensures ForwardRun(m, s, PreparedFrom(s, m, Forward, n).value, n)
    decreases |m.operations| - n
  {
    hide ValidState, StateForward, ForwardRun, StateBackward;
    if n < |m.operations| {
      var op := m.operations[n];
      var next := StateStep(s, op, Forward).value;
      StepCloned(s, op, Forward);
      OperationUndone(s, op);
      ForwardRuns(next, m, n + 1);
      ForwardRunCons(m, s, PreparedOperation(n, op, s, next), PreparedFrom(next, m, Forward, n + 1).value, n);
    } else {
      EmptyForwardRun(m, s);
    }
  }

  lemma EmptyForwardRun(m: Migration, s: ProjectState)
    ensures ForwardRun(m, s, [], |m.operations|)
  {
  }

  lemma StepBack(m: Migration, s: ProjectState, prepared: seq<PreparedOperation>, k: nat)
    requires ForwardRun(m, s, prepared, 0) && k < |prepared|
    ensures var now := StateAt(s, prepared, k + 1);
      && Settled(now) && Settled(StateAt(s, prepared, k))
      && !m.operations[k].NilOperation? && m.operations[k].appLabel == m.app
      && StateBackward(now, m.operations[k]) == Some(StateAt(s, prepared, k))
  {
    hide ValidState, StateForward, StateBackward;
    assert ForwardStep(m, prepared[k], 0 + k);
    assert prepared[k].before == StateAt(s, prepared, k);
    OperationUndone(prepared[k].before, m.operations[k]);
  }

  /** Running backward from the end of a forward run visits its states in reverse. */
  lemma {:induction false} BackAlong(m: Migration, s: ProjectState, prepared: seq<PreparedOperation>, n: nat)
    requires ForwardRun(m, s, prepared, 0) && Settled(s) && n <= |prepared|
    ensures var now := StateAt(s, prepared, |prepared| - n);
      var r := PreparedFrom(now, m, Backward, n);
      r.Success? && FinalState(now, r.value) == s
    decreases |prepared| - n
  {
    hide ForwardRun, StateForward, StateBackward, ValidState;
    RunLength(m, s, prepared);
    if n < |prepared| {
      var k := |prepared| - 1 - n;
      StepBack(m, s, prepared, k);
      BackAlong(m, s, prepared, n + 1);
      var now, before := StateAt(s, prepared, k + 1), StateAt(s, prepared, k);
      var rest := PreparedFrom(before, m, Backward, n + 1).value;
      assert PreparedFrom(now, m, Backward, n) == Success([PreparedOperation(k, m.operations[k], now, before)] + rest);
    }
  }

  lemma RunLength(m: Migration, s: ProjectState, prepared: seq<PreparedOperation>)
    requires ForwardRun(m, s, prepared, 0)
    ensures |prepared| == |m.operations|
  {
  }

  lemma FinalOfRun(m: Migration, s: ProjectState, prepared: seq<PreparedOperation>)
    requires ForwardRun(m, s, prepared, 0) && Settled(s)
    ensures FinalState(s, prepared) == StateAt(s, prepared, |prepared|) && Settled(FinalState(s, prepared))
  {
    hide ValidState, StateForward;
    if prepared != [] {
      assert ForwardStep(m, prepared[|prepared| - 1], |prepared| - 1);
    }
  }

  /** Unapplying a migration restores the state it was applied to. */
  lemma MigrationUndone(s: ProjectState, m: Migration)
    requires PreflightSpec(s, m, Forward).Success?
    ensures var t := FinalState(s, PreflightSpec(s, m, Forward).value);
      && ValidState(t) && Clone(t) == t
      && PreflightSpec(t, m, Backward).Success?
      && FinalState(t, PreflightSpec(t, m, Backward).value) == Clone(s)
  {
    PreflightCloned(s, m, Forward);
    var c := Clone(s);
    var prepared := PreflightSpec(c, m, Forward).value;
    hide StateForward, StateBackward, PreparedFrom, ForwardRun;
    ForwardRuns(c, m, 0);
    FinalOfRun(m, c, prepared);
    BackAlong(m, c, prepared, 0);
    hide ValidState;
  }

  lemma PreflightCloned(s: ProjectState, m: Migration, direction: Direction)
    ensures PreflightSpec(Clone(s), m, direction) == PreflightSpec(s, m, direction)
    ensures PreflightSpec(s, m, direction).Success? ==>
      FinalState(Clone(s), PreflightSpec(s, m, direction).value) == FinalState(s, PreflightSpec(s, m, direction).value)
  {
  }

  /** The state after all migrations of a plan were preflighted in order; None if one is refused. */
  function PlanState(s: ProjectState, migrations: seq<Migration>, direction: Direction): Option<ProjectState>
    decreases |migrations|
  {
    if migrations == [] then Some(Clone(s))
    else
      match PreflightSpec(s, migrations[0], direction)
      case Failure(_) => None
      case Success(prepared) => PlanState(FinalState(s, prepared), migrations[1..], direction)
  }

  function Reverse<T>(s: seq<T>): seq<T> {
    if s == [] then [] else Reverse(s[1..]) + [s[0]]
  }

  lemma {:induction false} PlanStateConcat(s: ProjectState, a: seq<Migration>, b: seq<Migration>, direction: Direction)
    requires PlanState(s, a, direction).Some?
    ensures PlanState(s, a + b, direction) == PlanState(PlanState(s, a, direction).value, b, direction)
    decreases |a|
  {
    hide PreflightSpec;
    if a == [] {
      assert a + b == b;
      PlanStateCloned(s, b, direction);
    } else {
      assert (a + b)[1..] == a[1..] + b;
      PlanStateConcat(FinalState(s, PreflightSpec(s, a[0], direction).value), a[1..], b, direction);
    }
  }

  lemma PlanStateCloned(s: ProjectState, migrations: seq<Migration>, direction: Direction)
    ensures PlanState(Clone(s), migrations, direction) == PlanState(s, migrations, direction)
  {
    if migrations != [] {
      PreflightCloned(s, migrations[0], direction);
    }
  }

  /** A forward sequence of migrations is undone by the reversed sequence run backward. */
  lemma {:induction false} PlanUndone(s: ProjectState, migrations: seq<Migration>)
    requires PlanState(s, migrations, Forward).Some?
    ensures PlanState(PlanState(s, migrations, Forward).value, Reverse(migrations), Backward) == Some(Clone(s))
    decreases |migrations|
  {
    hide PreflightSpec;
    if migrations != [] {
      var m, rest := migrations[0], migrations[1..];
      var next := FinalState(s, PreflightSpec(s, m, Forward).value);
      var t := PlanState(next, rest, Forward).value;
      MigrationUndone(s, m);
      PlanUndone(next, rest);
      PlanStateConcat(t, Reverse(rest), [m], Backward);
      assert [m][1..] == [];
    }
  }
}
