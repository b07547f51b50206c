/** Running migrations against a backend that may fail at any call: each step is one transaction. */
module Execution {
  import opened Keys
  import opened Errors
  import opened PlanSpec
  import opened ProjectStates
  import opened Operations
  import opened Migrations
  import opened Databases
  import opened PlanRuns
  import opened Transactions

  function Failed(category: Category, code: Code, direction: Direction, key: Key, index: int): MigrationError {
    MigrationError(category, code, direction, key, index, false)
  }

  function EditFailed(m: Migration, direction: Direction, index: int, e: EditError): MigrationError {
    if e.Unrepresentable? then Failed(CapabilityCategory, Unsupported, direction, KeyOf(m), index)
    else Failed(ExecutionCategory, OperationFailed, direction, KeyOf(m), index)
  }

  /** Checks the operations of one migration against the state, one after the other. */
  method Preflight(before: ProjectState, m: Migration, direction: Direction)
    returns (r: Result<seq<PreparedOperation>, MigrationError>, after: ProjectState)
    ensures r == PreflightSpec(before, m, direction)
    ensures after == if r.Success? then FinalState(before, r.value) else Clone(before)
  {
    hide StateStep, ValidState;
    if !ValidState(before) || m.app == "" || m.name == "" {
      return Failure(StateError(m, direction, NO_OPERATION)), Clone(before);
    }
    var state := Clone(before);
    var prepared: seq<PreparedOperation> := [];
    PreparedFromCloned(before, m, direction, 0);
    ExtendedNothing(PreparedFrom(state, m, direction, 0));
    for n := 0 to |m.operations|
      invariant state == FinalState(before, prepared)
      invariant PreflightSpec(before, m, direction) == Extended(prepared, PreparedFrom(state, m, direction, n))
    {
      var index := OperationIndex(|m.operations|, direction, n);
      var op := m.operations[index];
      if op.NilOperation? || op.appLabel != m.app {
        return Failure(StateError(m, direction, index)), Clone(before);
      }
      var start := Clone(state);
      var step := StateStep(start, op, direction);
      if step.None? {
        return Failure(StateError(m, direction, index)), Clone(before);
      }
      StepCloned(start, op, direction);
      ghost var rest := PreparedFrom(step.value, m, direction, n + 1);
      ExtendedOnce(prepared, PreparedOperation(index, op, start, Clone(step.value)), rest);
      prepared := prepared + [PreparedOperation(index, op, start, Clone(step.value))];
      state := step.value;
    }
    assert prepared + [] == prepared;
    r, after := Success(prepared), Clone(state);
  }

  lemma ExtendedOnce(first: seq<PreparedOperation>, p: PreparedOperation, rest: Result<seq<PreparedOperation>, MigrationError>)
    ensures Extended(first + [p], rest) == Extended(first, Extended([p], rest))
  {
    if rest.Success? {
      assert first + [p] + rest.value == first + ([p] + rest.value);
    }
  }

  lemma ExtendedNothing(rest: Result<seq<PreparedOperation>, MigrationError>)
    ensures Extended([], rest) == rest
  {
    if rest.Success? {
      assert [] + rest.value == rest.value;
    }
  }

  lemma PreparedFromCloned(s: ProjectState, m: Migration, direction: Direction, n: nat)
    requires n <= |m.operations|
    ensures PreparedFrom(Clone(s), m, direction, n) == PreparedFrom(s, m, direction, n)
  {
  }

  /** Every call from one moment on succeeds. */
  ghost predicate Calm(verdict: nat -> Verdict, from: nat) {
    forall i: nat {:trigger verdict(i)} :: from <= i ==> verdict(i).Fine?
  }

  /** Every call from one moment up to another succeeds. */
  ghost predicate Quiet(verdict: nat -> Verdict, from: nat, to: nat) {
    forall i: nat {:trigger verdict(i)} :: from <= i < to ==> verdict(i).Fine?
  }

  // ---------------------------------------------------------------- how a transaction ends

  /** From call c on, the edits all got through. */
  ghost predicate OperationsRan(
      verdict: nat -> Verdict, c: nat, db: Database, prepared: seq<PreparedOperation>, direction: Direction)
  {
    && Quiet(verdict, c, c + |prepared|) && DatabaseSteps(db, prepared, direction).Some?
  }

  /** Edit number i is the first that did not get through, and e is its error: category, code and operation index. */
  ghost predicate OperationStopped(
      verdict: nat -> Verdict, c: nat, db: Database, prepared: seq<PreparedOperation>, m: Migration, direction: Direction,
      i: nat, e: MigrationError)
  {
    && i < |prepared| && OperationsRan(verdict, c, db, prepared[..i], direction)
    && var refusal := EditRefusal(
         verdict(c + i), DatabaseSteps(db, prepared[..i], direction).value, prepared[i], direction);
       refusal.Some? && e == EditFailed(m, direction, prepared[i].index, refusal.value)
  }

  /** The error after a rollback that took the two calls from `at` on. */
  function RolledBack(e: MigrationError, verdict: nat -> Verdict, at: nat): MigrationError {
    e.(rollbackFailed := !(verdict(at).Fine? && verdict(at + 1).Fine?))
  }

  function RecordError(m: Migration, direction: Direction): MigrationError {
    Failed(RecorderCategory, RecordFailed, direction, KeyOf(m), NO_OPERATION)
  }

  function CommitError(m: Migration, direction: Direction): MigrationError {
    Failed(TransactionCategory, CommitFailed, direction, KeyOf(m), NO_OPERATION)
  }

  /** The edits got through and the record could not be written. */
  ghost predicate RecordStopped(
      verdict: nat -> Verdict, c: nat, db: Database, prepared: seq<PreparedOperation>, m: Migration, direction: Direction)
  {
    && OperationsRan(verdict, c, db, prepared, direction)
    && !(verdict(c + |prepared|).Fine? && Recorded(db, prepared, KeyOf(m), direction).Some?)
  }

  /** The edits and the record got through, so the commit is next. */
  ghost predicate CommitReached(
      verdict: nat -> Verdict, c: nat, db: Database, prepared: seq<PreparedOperation>, m: Migration, direction: Direction)
  {
    && OperationsRan(verdict, c, db, prepared, direction)
    && verdict(c + |prepared|).Fine? && Recorded(db, prepared, KeyOf(m), direction).Some?
  }

  /**
   * How a transaction that began before call c fails, and at which call it ends: at an edit, at the record, cancelled
   * before the commit, or at the commit or the closing after it. Only the last leaves nothing to roll back.
   */
  ghost predicate TransactionFailed(
      verdict: nat -> Verdict, c: nat, db: Database, prepared: seq<PreparedOperation>, m: Migration, direction: Direction,
      e: MigrationError, end: nat)
  {
    var n := c + |prepared|;
    || (exists i: nat, stop: MigrationError ::
          && OperationStopped(verdict, c, db, prepared, m, direction, i, stop)
          && e == RolledBack(stop, verdict, c + i + 1) && end == c + i + 3)
    || (&& RecordStopped(verdict, c, db, prepared, m, direction)
        && e == RolledBack(RecordError(m, direction), verdict, n + 1) && end == n + 3)
    || (&& CommitReached(verdict, c, db, prepared, m, direction) && !verdict(n + 1).Fine?
        && e == RolledBack(CommitError(m, direction), verdict, n + 2) && end == n + 4)
    || (&& CommitReached(verdict, c, db, prepared, m, direction)
        && verdict(n + 1).Fine? && !(verdict(n + 2).Fine? && verdict(n + 3).Fine?)
        && e == CommitError(m, direction) && end == n + 4)
  }

  /** The commit was reported as failed only because the connection could not be closed after it. */
  predicate Unreported(e: MigrationError, verdict: nat -> Verdict, end: nat) {
    e.code == CommitFailed && ClosedLate(verdict, end)
  }

  /** Runs the operations in order, up to the first that fails. */
  method RunOperations(transaction: Transaction, prepared: seq<PreparedOperation>, m: Migration, direction: Direction)
    returns (failure: Option<MigrationError>)
    requires !transaction.done
    modifies transaction`pending, transaction.world`clock
    ensures var verdict, c := transaction.world.verdict, old(transaction.world.clock);
      && (failure.None? ==>
            && OperationsRan(verdict, c, old(transaction.pending), prepared, direction)
            && DatabaseSteps(old(transaction.pending), prepared, direction) == Some(transaction.pending)
            && transaction.world.clock == c + |prepared|)
      && (failure.Some? ==> exists i: nat ::
            && OperationStopped(verdict, c, old(transaction.pending), prepared, m, direction, i, failure.value)
            && transaction.world.clock == c + i + 1)
  {
    hide DatabaseStep;
    ghost var verdict, c, db := transaction.world.verdict, transaction.world.clock, transaction.pending;
    for i := 0 to |prepared|
      invariant transaction.world.clock == c + i
      invariant OperationsRan(verdict, c, db, prepared[..i], direction)
      invariant DatabaseSteps(db, prepared[..i], direction) == Some(transaction.pending)
    {
      StepsAt(db, prepared, direction, i);
      var e := transaction.Edit(prepared[i], direction);
      if e.Some? {
        failure := Some(EditFailed(m, direction, prepared[i].index, e.value));
        assert OperationStopped(verdict, c, db, prepared, m, direction, i, failure.value);
        return;
      }
    }
    assert prepared[..|prepared|] == prepared;
    return None;
  }

  lemma RanQuietly(verdict: nat -> Verdict, c: nat, db: Database, prepared: seq<PreparedOperation>, direction: Direction)
    requires OperationsRan(verdict, c, db, prepared, direction)
    ensures Quiet(verdict, c, c + |prepared|)
  {
  }

  lemma EditStops(
      verdict: nat -> Verdict, c: nat, db: Database, prepared: seq<PreparedOperation>, m: Migration, direction: Direction,
      i: nat, stop: MigrationError)
    requires OperationStopped(verdict, c, db, prepared, m, direction, i, stop)
    ensures stop.code != CommitFailed && !stop.rollbackFailed
    ensures TransactionFailed(verdict, c, db, prepared, m, direction, RolledBack(stop, verdict, c + i + 1), c + i + 3)
  {
  }

  lemma RecordStops(
      verdict: nat -> Verdict, c: nat, db: Database, prepared: seq<PreparedOperation>, m: Migration, direction: Direction)
    requires RecordStopped(verdict, c, db, prepared, m, direction)
    ensures var n := c + |prepared|;
      TransactionFailed(verdict, c, db, prepared, m, direction, RolledBack(RecordError(m, direction), verdict, n + 1), n + 3)
  {
  }

  lemma CommitStops(
      verdict: nat -> Verdict, c: nat, db: Database, prepared: seq<PreparedOperation>, m: Migration, direction: Direction)
    requires CommitReached(verdict, c, db, prepared, m, direction)
    ensures var n, e := c + |prepared|, CommitError(m, direction);
      && (!verdict(n + 1).Fine? ==>
            TransactionFailed(verdict, c, db, prepared, m, direction, RolledBack(e, verdict, n + 2), n + 4))
      && (verdict(n + 1).Fine? && !(verdict(n + 2).Fine? && verdict(n + 3).Fine?) ==>
            TransactionFailed(verdict, c, db, prepared, m, direction, e, n + 4))
      && (verdict(n + 1).Fine? && verdict(n + 2).Fine? && verdict(n + 3).Fine? ==> Quiet(verdict, c, n + 4))
  {
    RanQuietly(verdict, c, db, prepared, direction);
  }

  lemma AfterEdits(db: Database, prepared: seq<PreparedOperation>, key: Key, direction: Direction)
    requires DatabaseSteps(db, prepared, direction).Some?
    ensures Recorded(db, prepared, key, direction) == Record(DatabaseSteps(db, prepared, direction).value, key, direction)
  {
  }

  /** Rolls back after an error, and notes on the error when the rollback fails too. */
  method RollBack(transaction: Transaction, primary: MigrationError) returns (e: MigrationError)
    requires !primary.rollbackFailed
    modifies transaction`done, transaction.world`clock
    ensures old(transaction.done) ==> e == primary && transaction.world.clock == old(transaction.world.clock)
    ensures !old(transaction.done) ==>
      && e == RolledBack(primary, transaction.world.verdict, old(transaction.world.clock))
      && transaction.world.clock == old(transaction.world.clock) + 2
  {
    var ok := transaction.Rollback();
    e := primary.(rollbackFailed := !ok);
  }

  /** Runs a prepared migration in a transaction that has begun. */
  method InTransaction(w: World, prepared: seq<PreparedOperation>, m: Migration, direction: Direction)
    returns (failure: Option<MigrationError>)
    modifies w
    ensures w.begun == old(w.begun)
    ensures failure.None? ==>
      && w.clock == old(w.clock) + |prepared| + 4 && Quiet(w.verdict, old(w.clock), w.clock)
      && Recorded(old(w.durable), prepared, KeyOf(m), direction) == Some(w.durable)
    ensures failure.Some? ==>
      && TransactionFailed(w.verdict, old(w.clock), old(w.durable), prepared, m, direction, failure.value, w.clock)
      && (Unreported(failure.value, w.verdict, w.clock) ==>
            Recorded(old(w.durable), prepared, KeyOf(m), direction) == Some(w.durable))
      && (!Unreported(failure.value, w.verdict, w.clock) ==> w.durable == old(w.durable))
  {
    hide Record, Recorded, DatabaseSteps, OperationsRan, OperationStopped, TransactionFailed, DatabaseStep, EditFailed, Quiet;
    ghost var c, db := w.clock, w.durable;
    var transaction := new Transaction(w);
    failure := RunOperations(transaction, prepared, m, direction);
    if failure.Some? {
      ghost var i: nat :|
        OperationStopped(w.verdict, c, db, prepared, m, direction, i, failure.value) && w.clock == c + i + 1;
      EditStops(w.verdict, c, db, prepared, m, direction, i, failure.value);
      var e := RollBack(transaction, failure.value);
      return Some(e);
    }
    AfterEdits(db, prepared, KeyOf(m), direction);
    var recorded := transaction.WriteRecord(KeyOf(m), direction);
    if !recorded {
      RecordStops(w.verdict, c, db, prepared, m, direction);
      var e := RollBack(transaction, RecordError(m, direction));
      return Some(e);
    }
    CommitStops(w.verdict, c, db, prepared, m, direction);
    var committed := transaction.Commit();
    if !committed {
      var e := RollBack(transaction, CommitError(m, direction));
      return Some(e);
    }
  }

  /** How a migration fails that begins no transaction: its calls start at c. */
  ghost predicate NotStarted(
      verdict: nat -> Verdict, c: nat, before: ProjectState, m: Migration, direction: Direction, e: MigrationError)
  {
    if !verdict(c).Fine? then e == Failed(ExecutionCategory, OperationFailed, direction, KeyOf(m), NO_OPERATION)
    else if PreflightSpec(before, m, direction).Failure? then e == PreflightSpec(before, m, direction).error
    else if !verdict(c + 1).Fine? then e == Failed(ExecutionCategory, OperationFailed, direction, KeyOf(m), NO_OPERATION)
    else !verdict(c + 2).Fine? && e == Failed(TransactionCategory, BeginFailed, direction, KeyOf(m), NO_OPERATION)
  }

  /** How a migration fails whose transaction began: the three calls before it got through. */
  ghost predicate StartedAndFailed(
      verdict: nat -> Verdict, c: nat, before: ProjectState, db: Database, m: Migration, direction: Direction,
      e: MigrationError, end: nat)
  {
    && verdict(c).Fine? && verdict(c + 1).Fine? && verdict(c + 2).Fine?
    && PreflightSpec(before, m, direction).Success?
    && TransactionFailed(verdict, c + 3, db, PreflightSpec(before, m, direction).value, m, direction, e, end)
  }

  /** Applies or unapplies one migration in one transaction. */
  method Execute(w: World, before: ProjectState, m: Migration, direction: Direction)
    returns (state: ProjectState, error: Option<MigrationError>)
    modifies w
    ensures error.None? ==>
      && w.begun == old(w.begun) + 1
      && w.clock == old(w.clock) + |m.operations| + 7 && Quiet(w.verdict, old(w.clock), w.clock)
      && Effect(before, old(w.durable), m, direction) == Some(Run(state, w.durable))
    ensures error.Some? ==> state == Clone(before) && old(w.begun) <= w.begun <= old(w.begun) + 1
    ensures error.Some? && w.begun == old(w.begun) ==>
      && w.durable == old(w.durable) && !Unreported(error.value, w.verdict, w.clock)
      && NotStarted(w.verdict, old(w.clock), before, m, direction, error.value)
    ensures error.Some? && w.begun > old(w.begun) ==>
      && StartedAndFailed(w.verdict, old(w.clock), before, old(w.durable), m, direction, error.value, w.clock)
      && (!Unreported(error.value, w.verdict, w.clock) ==> w.durable == old(w.durable))
      && (Unreported(error.value, w.verdict, w.clock) ==>
            && Effect(before, old(w.durable), m, direction).Some?
            && Effect(before, old(w.durable), m, direction).value.database == w.durable)
    ensures old(w.clock) <= w.clock
    ensures Calm(w.verdict, old(w.clock)) && Effect(before, old(w.durable), m, direction).Some? ==> error.None?
  {
    hide PreflightSpec, Recorded, TransactionFailed, ClosedLate;
    state, error := Clone(before), None;
    ghost var c, start := w.clock, w.durable;
    var v := w.Ask();
    if !v.Fine? {
      return state, Some(Failed(ExecutionCategory, OperationFailed, direction, KeyOf(m), NO_OPERATION));
    }
    var r, after := Preflight(before, m, direction);
    if r.Failure? {
      RefusedState(before, m, direction);
      return state, Some(r.error);
    }
    v := w.Ask();
    if !v.Fine? {
      return state, Some(Failed(ExecutionCategory, OperationFailed, direction, KeyOf(m), NO_OPERATION));
    }
    v := w.Ask();
    if !v.Fine? {
      return state, Some(Failed(TransactionCategory, BeginFailed, direction, KeyOf(m), NO_OPERATION));
    }
    w.begun := w.begun + 1;
    PreparedLength(before, m, direction);
    error := InTransaction(w, r.value, m, direction);
    if error.Some? {
      FailedLater(w.verdict, c + 3, start, r.value, m, direction, error.value, w.clock);
    }
    state := if error.None? then Clone(after) else Clone(before);
  }

  /** Why edit i was refused, told from the call's verdict and the database it found. */
  ghost predicate EditRefused(
      verdict: nat -> Verdict, c: nat, db: Database, prepared: seq<PreparedOperation>, direction: Direction, i: nat, e: EditError)
  {
    && i < |prepared| && OperationsRan(verdict, c, db, prepared[..i], direction)
    && match verdict(c + i)
       case Refused => e == Unrepresentable
       case Broken => e == StatementFailed
       case Fine =>
         DatabaseStep(DatabaseSteps(db, prepared[..i], direction).value, prepared[i], direction) == Failure(e)
  }

  /** The error of a failed transaction tells how far it got: at which edit and why, at the record, or at the commit. */
  lemma ErrorTellsStage(
      verdict: nat -> Verdict, c: nat, db: Database, prepared: seq<PreparedOperation>, m: Migration, direction: Direction,
      e: MigrationError, end: nat)
    requires TransactionFailed(verdict, c, db, prepared, m, direction, e, end)
    ensures e.key == KeyOf(m) && e.direction == direction
    ensures e.category == CapabilityCategory && e.code == Unsupported ==>
      exists i: nat :: EditRefused(verdict, c, db, prepared, direction, i, Unrepresentable) && e.operationIndex == prepared[i].index
    ensures e.category == ExecutionCategory && e.code == OperationFailed ==>
      exists i: nat :: EditRefused(verdict, c, db, prepared, direction, i, StatementFailed) && e.operationIndex == prepared[i].index
    ensures e.category == RecorderCategory && e.code == RecordFailed ==>
      RecordStopped(verdict, c, db, prepared, m, direction) && e.operationIndex == NO_OPERATION
    ensures e.category == TransactionCategory && e.code == CommitFailed ==>
      CommitReached(verdict, c, db, prepared, m, direction) && e.operationIndex == NO_OPERATION
    ensures (e.category, e.code) in {
      (CapabilityCategory, Unsupported), (ExecutionCategory, OperationFailed),
      (RecorderCategory, RecordFailed), (TransactionCategory, CommitFailed)}
  {
    hide DatabaseStep, Record, DatabaseSteps, OperationsRan, RecordStopped, CommitReached;
    forall i: nat, stop | OperationStopped(verdict, c, db, prepared, m, direction, i, stop)
      ensures exists why ::
        && EditRefused(verdict, c, db, prepared, direction, i, why) && stop == EditFailed(m, direction, prepared[i].index, why)
    {
      RefusalSplit(verdict, c, db, prepared, m, direction, i, stop);
    }
  }

  lemma RefusalSplit(
      verdict: nat -> Verdict, c: nat, db: Database, prepared: seq<PreparedOperation>, m: Migration, direction: Direction,
      i: nat, stop: MigrationError)
    requires OperationStopped(verdict, c, db, prepared, m, direction, i, stop)
    ensures exists why ::
      && EditRefused(verdict, c, db, prepared, direction, i, why) && stop == EditFailed(m, direction, prepared[i].index, why)
  {
    hide DatabaseStep, DatabaseSteps;
    var now := DatabaseSteps(db, prepared[..i], direction).value;
    var why := EditRefusal(verdict(c + i), now, prepared[i], direction).value;
    assert EditRefused(verdict, c, db, prepared, direction, i, why);
  }

  /** Every call succeeds but one. */
  function FailingAt(n: nat): nat -> Verdict {
    (i: nat) => if i == n then Broken else Fine
  }

  /**
   * That a failed execution changes nothing is false of the code: let only the closing after the commit fail, and every
   * migration that can run becomes durable although its error is reported and the old state returned.
   */
  method DurableThoughFailed(before: ProjectState, db: Database, m: Migration, direction: Direction)
    returns (w: World, state: ProjectState, error: Option<MigrationError>)
    requires Effect(before, db, m, direction).Some?
    ensures fresh(w) && w.verdict == FailingAt(|m.operations| + 6)
    ensures error == Some(CommitError(m, direction)) && Unreported(error.value, w.verdict, w.clock)
    ensures state == Clone(before) && w.durable == Effect(before, db, m, direction).value.database && w.durable != db
  {
    hide PreflightSpec, Recorded;
    w := new World(FailingAt(|m.operations| + 6), db);
    state, error := Execute(w, before, m, direction);
    assert !w.verdict(|m.operations| + 6).Fine?;
    PreparedLength(before, m, direction);
    LateCloseOnly(w.verdict, 3, db, PreparedOf(PreflightSpec(before, m, direction)), m, direction, error.value, w.clock);
    RecordMoves(db, PreparedOf(PreflightSpec(before, m, direction)), KeyOf(m), direction);
  }

  lemma LateCloseOnly(
      verdict: nat -> Verdict, c: nat, db: Database, prepared: seq<PreparedOperation>, m: Migration, direction: Direction,
      e: MigrationError, end: nat)
    requires Recorded(db, prepared, KeyOf(m), direction).Some? && Quiet(verdict, c, c + |prepared| + 3)
    requires TransactionFailed(verdict, c, db, prepared, m, direction, e, end)
    ensures e == CommitError(m, direction) && end == c + |prepared| + 4
  {
    hide DatabaseStep, Record;
    forall i: nat, stop ensures !OperationStopped(verdict, c, db, prepared, m, direction, i, stop) {
      if OperationStopped(verdict, c, db, prepared, m, direction, i, stop) {
        StepsAt(db, prepared, direction, i);
      }
    }
  }

  lemma {:induction false} StepsKeepRecords(db: Database, prepared: seq<PreparedOperation>, direction: Direction)
    ensures DatabaseSteps(db, prepared, direction).Some? ==> DatabaseSteps(db, prepared, direction).value.records == db.records
    decreases |prepared|
  {
    hide DatabaseStep;
    if prepared != [] && DatabaseStep(db, prepared[0], direction).Success? {
      RecordsKept(db, prepared[0], direction);
      StepsKeepRecords(DatabaseStep(db, prepared[0], direction).value, prepared[1..], direction);
    }
  }

  /** A recorded migration leaves other records than it found. */
  lemma RecordMoves(db: Database, prepared: seq<PreparedOperation>, key: Key, direction: Direction)
    requires Recorded(db, prepared, key, direction).Some?
    ensures Recorded(db, prepared, key, direction).value != db
  {
    hide DatabaseStep;
    StepsKeepRecords(db, prepared, direction);
  }

  lemma FailedLater(
      verdict: nat -> Verdict, c: nat, db: Database, prepared: seq<PreparedOperation>, m: Migration, direction: Direction,
      e: MigrationError, end: nat)
    requires TransactionFailed(verdict, c, db, prepared, m, direction, e, end)
    ensures c < end
    ensures Calm(verdict, c) ==> Recorded(db, prepared, KeyOf(m), direction).None?
  {
    hide DatabaseStep, Record;
    forall i: nat, stop | Calm(verdict, c) && OperationStopped(verdict, c, db, prepared, m, direction, i, stop)
      ensures DatabaseSteps(db, prepared, direction).None?
    {
      StepsAt(db, prepared, direction, i);
    }
  }

  /** A refused state transition is no commit failure. */
  lemma RefusedState(s: ProjectState, m: Migration, direction: Direction)
    ensures PreflightSpec(s, m, direction).Failure? ==>
      PreflightSpec(s, m, direction).error.category == StateCategory && PreflightSpec(s, m, direction).error.code == InvalidState
  {
    if ValidState(s) && m.app != "" && m.name != "" {
      RefusedOperation(s, m, direction, 0);
    }
  }

  lemma RefusedOperation(s: ProjectState, m: Migration, direction: Direction, n: nat)
    requires n <= |m.operations|
    ensures PreparedFrom(s, m, direction, n).Failure? ==>
      && PreparedFrom(s, m, direction, n).error.category == StateCategory
      && PreparedFrom(s, m, direction, n).error.code == InvalidState
    decreases |m.operations| - n
  {
    hide StateStep;
    if n < |m.operations| {
      var op := m.operations[OperationIndex(|m.operations|, direction, n)];
      if !op.NilOperation? && op.appLabel == m.app && StateStep(Clone(s), op, direction).Some? {
        RefusedOperation(StateStep(Clone(s), op, direction).value, m, direction, n + 1);
      }
    }
  }

  /** A preflight prepares every operation. */
  lemma PreparedLength(s: ProjectState, m: Migration, direction: Direction)
    ensures PreflightSpec(s, m, direction).Success? ==> |PreflightSpec(s, m, direction).value| == |m.operations|
  {
    PreparedFromLength(s, m, direction, 0);
  }

  lemma PreparedFromLength(s: ProjectState, m: Migration, direction: Direction, n: nat)
    requires n <= |m.operations|
    ensures PreparedFrom(s, m, direction, n).Success? ==> |PreparedFrom(s, m, direction, n).value| == |m.operations| - n
    decreases |m.operations| - n
  {
    hide StateStep;
    if n < |m.operations| {
      var op := m.operations[OperationIndex(|m.operations|, direction, n)];
      if !op.NilOperation? && op.appLabel == m.app && StateStep(Clone(s), op, direction).Some? {
        PreparedFromLength(StateStep(Clone(s), op, direction).value, m, direction, n + 1);
      }
    }
  }
}
