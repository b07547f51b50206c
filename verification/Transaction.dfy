/** The migration backend: a durable database behind transactions, with a schedule of failures. */
module Transactions {
  import opened Keys
  import opened Errors
  import opened PlanSpec
  import opened Migrations
  import opened Databases

  /** What happens at one backend call or context check: it goes on, fails, or is refused as unrepresentable. */
  datatype Verdict = Fine | Broken | Refused

  /** The database file, and the world's decisions about every call still to come. */
  class World {
    const verdict: nat -> Verdict
    var clock: nat
    var durable: Database
    /** The number of transactions begun so far. */
    ghost var begun: nat

    constructor (verdict: nat -> Verdict, durable: Database)
      ensures this.verdict == verdict && this.durable == durable && clock == 0 && begun == 0
    {
      this.verdict, this.durable := verdict, durable;
      clock, begun := 0, 0;
    }

    method Ask() returns (v: Verdict)
      modifies this`clock
      ensures v == verdict(old(clock)) && clock == old(clock) + 1
    {
      v := verdict(clock);
      clock := clock + 1;
    }
  }

  /** What keeps an edit of an open transaction from happening: the verdict, or the database itself. */
  function EditRefusal(v: Verdict, db: Database, p: PreparedOperation, direction: Direction): Option<EditError> {
    match v
    case Refused => Some(Unrepresentable)
    case Broken => Some(StatementFailed)
    case Fine =>
      match DatabaseStep(db, p, direction)
      case Failure(e) => Some(e)
      case Success(_) => None
  }

  /** The last three calls found the context live, committed, and failed to close the connection. */
  predicate ClosedLate(verdict: nat -> Verdict, clock: nat) {
    clock >= 3 && verdict(clock - 3).Fine? && verdict(clock - 2).Fine? && !verdict(clock - 1).Fine?
  }

  /** One pinned connection and its transaction: edits and records collect in a pending database. */
  class Transaction {
    const world: World
    var pending: Database
    var done: bool

    constructor (world: World)
      ensures this.world == world && pending == world.durable && !done
    {
      this.world, pending, done := world, world.durable, false;
    }

    /** Runs one prepared operation through the schema editor. */
    method Edit(p: PreparedOperation, direction: Direction) returns (error: Option<EditError>)
      modifies this`pending, world`clock
      ensures world.clock == old(world.clock) + 1
      ensures !done ==> error == EditRefusal(world.verdict(old(world.clock)), old(pending), p, direction)
      ensures done ==>
        error == Some(if world.verdict(old(world.clock)).Refused? then Unrepresentable else StatementFailed)
      ensures error.None? ==>
        DatabaseStep(old(pending), p, direction).Success? && pending == DatabaseStep(old(pending), p, direction).value
      ensures error.Some? ==> pending == old(pending)
    {
      var v := world.Ask();
      if v.Refused? {
        return Some(Unrepresentable);
      }
      if v.Broken? || done {
        return Some(StatementFailed);
      }
      match DatabaseStep(pending, p, direction) {
        case Failure(e) =>
          error := Some(e);
        case Success(next) =>
          pending := next;
          error := None;
      }
    }

    /** Adds or removes the record of a migration. */
    method WriteRecord(key: Key, direction: Direction) returns (ok: bool)
      modifies this`pending, world`clock
      ensures world.clock == old(world.clock) + 1
      ensures ok <==> !done && world.verdict(old(world.clock)).Fine? && Record(old(pending), key, direction).Some?
      ensures pending == if ok then Record(old(pending), key, direction).value else old(pending)
    {
      var v := world.Ask();
      if !v.Fine? || done {
        return false;
      }
      match Record(pending, key, direction) {
        case None =>
          ok := false;
        case Some(next) =>
          pending := next;
          ok := true;
      }
    }

    /** Makes the pending database durable, unless the context is cancelled or the commit itself fails. */
    method Commit() returns (ok: bool)
      modifies this`done, world
      ensures world.begun == old(world.begun)
      ensures old(done) || !world.verdict(old(world.clock)).Fine? ==>
        !ok && done == old(done) && world.clock == old(world.clock) + 1 &&
        world.durable == old(world.durable)
      ensures !old(done) && world.verdict(old(world.clock)).Fine? ==>
        var committed, closed := world.verdict(old(world.clock) + 1).Fine?, world.verdict(old(world.clock) + 2).Fine?;
        && done && world.clock == old(world.clock) + 3 && ok == (committed && closed)
        && world.durable == (if committed then pending else old(world.durable))
    {
      var context := world.Ask();
      if done || !context.Fine? {
        return false;
      }
      done := true;
      var commit := world.Ask();
      if commit.Fine? {
        world.durable := pending;
      }
      var close := world.Ask();
      ok := commit.Fine? && close.Fine?;
    }

    /** Gives the pending database up. A transaction that is already resolved is left alone. */
    method Rollback() returns (ok: bool)
      modifies this`done, world`clock
      ensures done
      ensures old(done) ==> ok && world.clock == old(world.clock)
      ensures !old(done) ==>
        && world.clock == old(world.clock) + 2
        && (ok <==> world.verdict(old(world.clock)).Fine? && world.verdict(old(world.clock) + 1).Fine?)
    {
      if done {
        return true;
      }
      done := true;
      var rollback := world.Ask();
      var close := world.Ask();
      ok := rollback.Fine? && close.Fine?;
    }
  }
}
