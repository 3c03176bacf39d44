/**
 * The transaction flag of `Database`: `begin`, `commit` and `rollback` issue
 * `BEGIN TRANSACTION`, `COMMIT` and `ROLLBACK` through `execute` and keep
 * `_isInTransaction` in step with what the database accepted; the
 * destructor rolls back a transaction left open and swallows any failure.
 *
 * `execute` talks to SQLite and is not part of this model: each call is
 * represented by whether it succeeded, supplied by the caller, and the
 * object keeps a log of the statements it issued with their outcomes.
 */
module SqlTransactions {
  import opened Wrappers

  /** The three statements the transaction methods issue. */
  datatype Statement = BeginTransaction | CommitTransaction | RollbackTransaction

  /** One call of `execute`: the statement and whether SQLite accepted it. */
  datatype Executed = Executed(sql: Statement, ok: bool)

  /** The exceptions: `logic_error` for a misplaced call, and the
      `runtime_error` of a failed `execute`. */
  datatype TransactionError = AlreadyInTransaction | NoTransaction | ExecuteFailed(sql: Statement)

  /** Whether a transaction is open according to the log alone: the last
      statement SQLite accepted was `BEGIN TRANSACTION`. */
  function OpenAfter(log: seq<Executed>): bool {
    if log == [] then false
    else if !log[|log| - 1].ok then OpenAfter(log[..|log| - 1])
    else log[|log| - 1].sql == BeginTransaction
  }

  /** The flag and the log of issued statements. */
  datatype State = State(inTransaction: bool, log: seq<Executed>)

  /** The flag agrees with the log. */
  predicate Consistent(s: State) {
    s.inTransaction == OpenAfter(s.log)
  }

  /** The state after a call, and the exception it threw, if any. */
  datatype Outcome = Outcome(state: State, error: Option<TransactionError>)

  /** `begin()` where `BEGIN TRANSACTION` succeeds iff `executeOk`. */
  function BeginOutcome(s: State, executeOk: bool): (o: Outcome)
    ensures s.inTransaction ==> o == Outcome(s, Some(AlreadyInTransaction))
    ensures !s.inTransaction ==> o.state.log == s.log + [Executed(BeginTransaction, executeOk)]
    ensures !s.inTransaction ==> (o.state.inTransaction <==> executeOk) && (o.error.None? <==> executeOk)
    ensures o.error.Some? && !s.inTransaction ==> o.error.value == ExecuteFailed(BeginTransaction)
  {
    if s.inTransaction then Outcome(s, Some(AlreadyInTransaction))
    else
      var log := s.log + [Executed(BeginTransaction, executeOk)];
      if executeOk then Outcome(State(true, log), None)
      else Outcome(State(false, log), Some(ExecuteFailed(BeginTransaction)))
  }

  /** `commit()` where `COMMIT` succeeds iff `executeOk`. */
  function CommitOutcome(s: State, executeOk: bool): (o: Outcome)
    ensures !s.inTransaction ==> o == Outcome(s, Some(NoTransaction))
    ensures s.inTransaction ==> o.state.log == s.log + [Executed(CommitTransaction, executeOk)]
    ensures s.inTransaction ==> (o.state.inTransaction <==> !executeOk) && (o.error.None? <==> executeOk)
    ensures o.error.Some? && s.inTransaction ==> o.error.value == ExecuteFailed(CommitTransaction)
  {
    if !s.inTransaction then Outcome(s, Some(NoTransaction))
    else
      var log := s.log + [Executed(CommitTransaction, executeOk)];
      if executeOk then Outcome(State(false, log), None)
      else Outcome(State(true, log), Some(ExecuteFailed(CommitTransaction)))
  }

  /** `rollback()` where `ROLLBACK` succeeds iff `executeOk`; outside a
      transaction it does nothing. */
  function RollbackOutcome(s: State, executeOk: bool): (o: Outcome)
    ensures !s.inTransaction ==> o == Outcome(s, None)
    ensures s.inTransaction ==> o.state.log == s.log + [Executed(RollbackTransaction, executeOk)]
    ensures s.inTransaction ==> (o.state.inTransaction <==> !executeOk) && (o.error.None? <==> executeOk)
    ensures o.error.Some? ==> o.error.value == ExecuteFailed(RollbackTransaction)
  {
    if !s.inTransaction then Outcome(s, None)
    else
      var log := s.log + [Executed(RollbackTransaction, executeOk)];
      if executeOk then Outcome(State(false, log), None)
      else Outcome(State(true, log), Some(ExecuteFailed(RollbackTransaction)))
  }

  /** `~Database()`: a rollback when a transaction is open, whose failure is
      swallowed. */
  function DestroyOutcome(s: State, executeOk: bool): (o: Outcome)
    ensures o.error.None?
    ensures o.state == RollbackOutcome(s, executeOk).state
  {
    Outcome(RollbackOutcome(s, executeOk).state, None)
  }

  /** Logging one more statement updates the log's view of the flag as that
      statement says. */
  lemma {:induction false} OpenAfterAppend(log: seq<Executed>, e: Executed)
    ensures OpenAfter(log + [e]) == if e.ok then e.sql == BeginTransaction else OpenAfter(log)
  {
    assert (log + [e])[..|log|] == log;
  }

  /** Every call keeps the flag in agreement with the log: it is set exactly
      while the last statement SQLite accepted is `BEGIN TRANSACTION`. */
  lemma CallsKeepConsistent(s: State, executeOk: bool)
    requires Consistent(s)
    ensures Consistent(BeginOutcome(s, executeOk).state)
    ensures Consistent(CommitOutcome(s, executeOk).state)
    ensures Consistent(RollbackOutcome(s, executeOk).state)
    ensures Consistent(DestroyOutcome(s, executeOk).state)
  {
    OpenAfterAppend(s.log, Executed(BeginTransaction, executeOk));
    OpenAfterAppend(s.log, Executed(CommitTransaction, executeOk));
    OpenAfterAppend(s.log, Executed(RollbackTransaction, executeOk));
  }

  /** A rollback that went through leaves nothing to roll back: a second
      call issues no statement and changes nothing. */
  lemma RollbackIdempotent(s: State, executeOk: bool)
    ensures RollbackOutcome(RollbackOutcome(s, true).state, executeOk) == Outcome(RollbackOutcome(s, true).state, None)
  {
  }

  /** A database object: the `_isInTransaction` flag and the statements it
      has issued. */
  class Database {
    var inTransaction: bool
    var log: seq<Executed>

    /** The flag agrees with the issued statements. */
    predicate Valid()
      reads this
    {
      Consistent(State(inTransaction, log))
    }

    /** A newly opened database is not in a transaction. */
    constructor()
      ensures !inTransaction && log == [] && Valid()
    {
      inTransaction := false;
      log := [];
    }

    /** `begin()`. */
    method Begin(executeOk: bool) returns (error: Option<TransactionError>)
      requires Valid()
      modifies this
      ensures Valid()
      ensures Outcome(State(inTransaction, log), error) == BeginOutcome(old(State(inTransaction, log)), executeOk)
    {
      if inTransaction {
        return Some(AlreadyInTransaction);
      }
      OpenAfterAppend(log, Executed(BeginTransaction, executeOk));
      log := log + [Executed(BeginTransaction, executeOk)];
      if !executeOk {
        return Some(ExecuteFailed(BeginTransaction));
      }
      inTransaction := true;
      error := None;
    }

    /** `commit()`. */
    method Commit(executeOk: bool) returns (error: Option<TransactionError>)
      requires Valid()
      modifies this
      ensures Valid()
      ensures Outcome(State(inTransaction, log), error) == CommitOutcome(old(State(inTransaction, log)), executeOk)
    {
      if !inTransaction {
        return Some(NoTransaction);
      }
      OpenAfterAppend(log, Executed(CommitTransaction, executeOk));
      log := log + [Executed(CommitTransaction, executeOk)];
      if !executeOk {
        return Some(ExecuteFailed(CommitTransaction));
      }
      inTransaction := false;
      error := None;
    }

    /** `rollback()`. */
    method Rollback(executeOk: bool) returns (error: Option<TransactionError>)
      requires Valid()
      modifies this
      ensures Valid()
      ensures Outcome(State(inTransaction, log), error) == RollbackOutcome(old(State(inTransaction, log)), executeOk)
    {
      error := None;
      if inTransaction {
        OpenAfterAppend(log, Executed(RollbackTransaction, executeOk));
        log := log + [Executed(RollbackTransaction, executeOk)];
        if !executeOk {
          return Some(ExecuteFailed(RollbackTransaction));
        }
        inTransaction := false;
      }
    }

    /** `~Database()`: roll back an open transaction, ignoring a failure. */
    method Destroy(executeOk: bool)
      requires Valid()
      modifies this
      ensures Valid()
      ensures State(inTransaction, log) == DestroyOutcome(old(State(inTransaction, log)), executeOk).state
    {
      if inTransaction {
        var ignored := Rollback(executeOk);
      }
    }
  }
}
