/** `TransactionService::transfer`: one call of the `transferMoney` stored
    procedure inside a write transaction, under the connection's lock. The
    procedure itself lives in the database; it is the parameter `proc`. */
module Transactions {
  import opened Wrappers
  import opened CText
  import opened DbConnection
  import opened AccountService

  /** The arguments bound to `$1..$4` of `transferMoney`, in that order. */
  datatype TransferCall = TransferCall(from: Int32, to: Int32, amount: real, description: string)

  /** What executing the procedure and committing does: the committed
      tables, a failure of the procedure call, or a failure of `commit()`.
      A failed `commit()` is taken to have left the tables as they were. */
  datatype ProcOutcome = Applied(after: Store) | Raised(message: string) | CommitRaised(message: string)

  type Procedure = (Store, TransferCall) -> ProcOutcome

  /** What `transfer` does to the shared connection, in order. */
  datatype Effect =
    | AcquireLock
    | BeginWrite
    | CallProcedure(call: TransferCall)
    /** A `commit()` that returned. A `commit()` that raised is not recorded
        as a `Commit`: the trace shows only the abort that follows it. */
    | Commit
    /** The write transaction is destroyed unfinished as the exception
        unwinds, which aborts it. */
    | RollBack
    | ReleaseLock

  datatype TransferRun = TransferRun(outcome: Outcome, store: Store, trace: seq<Effect>)

  /** The description used when the caller gives none. */
  const DefaultDescription := "Transfer description..."

  const FailurePrefix := "Transfer failed: "

  /** The lock is taken first and released last, and nowhere else. */
  predicate LockBracketed(trace: seq<Effect>) {
    && |trace| >= 2
    && trace[0] == AcquireLock
    && trace[|trace| - 1] == ReleaseLock
    && forall i :: 0 < i < |trace| - 1 ==> trace[i] != AcquireLock && trace[i] != ReleaseLock
  }

  /** `transfer(from, to, amount, description)`. */
  function Transfer(db: Db, store: Store, proc: Procedure,
                    from: Int32, to: Int32, amount: real, description: string): (r: TransferRun)
    ensures LockBracketed(r.trace)
    // creating the write transaction happens under the lock and, failing, is not wrapped
    ensures !IsConnected(db) ==> r == TransferRun(Fail(NotConnected), store, [AcquireLock, ReleaseLock])
    ensures IsConnected(db) ==> |r.trace| == 5 && r.trace[1] == BeginWrite && r.trace[2] == CallProcedure(TransferCall(from, to, amount, description))
    // commit happens exactly when the call and the commit succeed; otherwise nothing changes
    ensures r.outcome.Pass? <==> Commit in r.trace
    ensures r.outcome.Pass? ==> IsConnected(db) && proc(store, TransferCall(from, to, amount, description)) == Applied(r.store)
    ensures r.outcome.Fail? ==> r.store == store
    ensures IsConnected(db) && proc(store, TransferCall(from, to, amount, description)).Applied?
      ==> r.outcome == Pass && r.store == proc(store, TransferCall(from, to, amount, description)).after
    // failures inside the try block are rethrown with the prefix
    ensures IsConnected(db) && !proc(store, TransferCall(from, to, amount, description)).Applied?
      ==> r.outcome == Fail(FailurePrefix + proc(store, TransferCall(from, to, amount, description)).message)
  {
    match CreateTransaction(db, ReadWrite)
    case Err(e) => TransferRun(Fail(e), store, [AcquireLock, ReleaseLock])
    case Ok(_) =>
      var call := TransferCall(from, to, amount, description);
      match proc(store, call)
      case Applied(after) =>
        TransferRun(Pass, after, [AcquireLock, BeginWrite, CallProcedure(call), Commit, ReleaseLock])
      case Raised(m) =>
        TransferRun(Fail(FailurePrefix + m), store, [AcquireLock, BeginWrite, CallProcedure(call), RollBack, ReleaseLock])
      case CommitRaised(m) =>
        TransferRun(Fail(FailurePrefix + m), store, [AcquireLock, BeginWrite, CallProcedure(call), RollBack, ReleaseLock])
  }

  /** `transfer(from, to, amount)` with the description left to its default. */
  function TransferDefault(db: Db, store: Store, proc: Procedure, from: Int32, to: Int32, amount: real): (r: TransferRun)
    ensures IsConnected(db) ==> |r.trace| > 2 && r.trace[2] == CallProcedure(TransferCall(from, to, amount, "Transfer description..."))
  {
    Transfer(db, store, proc, from, to, amount, DefaultDescription)
  }

  /** The stored procedure's promise for a successful call: the source loses
      `amount`, the target gains it, and no other account row changes. */
  ghost predicate MovesFunds(before: Store, after: Store, call: TransferCall) {
    && HasRow(before, call.from) && HasRow(before, call.to)
    && HasRow(after, call.from) && HasRow(after, call.to)
    && after.accounts[call.from].balance == before.accounts[call.from].balance - call.amount
    && after.accounts[call.to].balance == before.accounts[call.to].balance + call.amount
    && forall id :: id != call.from && id != call.to ==> BalanceOf(after, id) == BalanceOf(before, id)
  }

  /** A successful transfer through a procedure that keeps its promise shows,
      in later balance lookups, the source down by `amount`, the target up by
      it, and every other account as it was. */
  lemma TransferMovesBalances(db: Db, store: Store, proc: Procedure,
                              from: Int32, to: Int32, amount: real, description: string, other: Int32)
    requires from != to
    requires var call := TransferCall(from, to, amount, description);
      proc(store, call).Applied? ==> MovesFunds(store, proc(store, call).after, call)
    requires Transfer(db, store, proc, from, to, amount, description).outcome.Pass?
    ensures var after := Transfer(db, store, proc, from, to, amount, description).store;
      && GetBalance(db, after, from) == Ok(GetBalance(db, store, from).value - amount)
      && GetBalance(db, after, to) == Ok(GetBalance(db, store, to).value + amount)
      && (other != from && other != to ==> GetBalance(db, after, other) == GetBalance(db, store, other))
  {
    var after := Transfer(db, store, proc, from, to, amount, description).store;
    if other != from && other != to {
      assert BalanceOf(after, other) == BalanceOf(store, other);
    }
  }

  /** A failed transfer leaves every balance as it was. */
  lemma FailedTransferKeepsBalances(db: Db, store: Store, proc: Procedure,
                                    from: Int32, to: Int32, amount: real, description: string, id: Int32)
    requires Transfer(db, store, proc, from, to, amount, description).outcome.Fail?
    ensures GetBalance(db, Transfer(db, store, proc, from, to, amount, description).store, id)
         == GetBalance(db, store, id)
  {
  }
}
