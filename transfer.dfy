/**
 * The fund transfer: load the source, check its funds, load the destination, change both
 * balances in memory, write the source, write the destination, and re-credit the source if the
 * second write fails. Nothing wraps the writes in a database transaction, and the amount is not
 * checked to be positive.
 */
module Transfer {
  import opened Wrappers
  import opened Types
  import opened Storage
  import opened Http

  /** What the database does with each of the three updates the transfer can issue, in order. */
  datatype WriteOutcomes = WriteOutcomes(debit: WriteOutcome, credit: WriteOutcome, compensate: WriteOutcome)

  datatype TransferResult = TransferResult(table: Table, run: HandlerRun)

  /** The table after one update that the database accepts or refuses. */
  function Write(t: Table, acc: Account, db: WriteOutcome): Table
  {
    if db.Accepted? then Overwritten(t, acc) else t
  }

  /** The response to a transfer that went through: the request, echoed. */
  function Echo(req: TransferRequest): HandlerRun
  {
    Wrote(Response(StatusOK, TransferEcho(req), None))
  }

  /** The transfer handler over the table: its final table and what it answers. */
  function Transfer(t: Table, body: Option<TransferRequest>, w: WriteOutcomes): (r: TransferResult)
    ensures r.table.Keys == t.Keys
    ensures r.run.Wrote? ==> body.Some? && r.run == Echo(body.value)
    ensures r.run.Wrote? ==> w.debit.Accepted? && w.credit.Accepted?
  {
    match body
    case None => TransferResult(t, Failed(MalformedBody))
    case Some(req) =>
      match FindById(t, req.fromAccount)
      case Failure(e) => TransferResult(t, Failed(e))
      case Success(from) =>
        if from.balance < req.amount then TransferResult(t, Failed(InsufficientFunds))
        else match FindById(t, req.toAccount)
          case Failure(e) => TransferResult(t, Failed(e))
          case Success(to) =>
            var debited := from.(balance := Wrap64(from.balance - req.amount));
            var credited := to.(balance := Wrap64(to.balance + req.amount));
            if w.debit.Refused? then TransferResult(t, Failed(UpdateFailed(w.debit.cause)))
            else
              var t1 := Overwritten(t, debited);
              if w.credit.Refused? then
                var restored := debited.(balance := Wrap64(debited.balance + req.amount));
                TransferResult(Write(t1, restored, w.compensate), Failed(UpdateFailed(w.credit.cause)))
              else TransferResult(Overwritten(t1, credited), Echo(req))
  }

  /** The handler itself, issuing its reads and writes against the store. */
  method HandleTransfer(store: AccountStore, body: Option<TransferRequest>, w: WriteOutcomes) returns (run: HandlerRun)
    requires store.Valid()
    modifies store
    ensures store.Valid() && store.nextId == old(store.nextId)
    ensures TransferResult(store.accounts, run) == Transfer(old(store.accounts), body, w)
  {
    if body.None? {
      return Failed(MalformedBody);
    }
    var req := body.value;
    var fromResult := store.GetAccountByID(req.fromAccount);
    if fromResult.Failure? {
      return Failed(fromResult.error);
    }
    var fromAccount := fromResult.value;
    if fromAccount.balance < req.amount {
      return Failed(InsufficientFunds);
    }
    var toResult := store.GetAccountByID(req.toAccount);
    if toResult.Failure? {
      return Failed(toResult.error);
    }
    var toAccount := toResult.value;

    fromAccount := fromAccount.(balance := Wrap64(fromAccount.balance - req.amount));
    toAccount := toAccount.(balance := Wrap64(toAccount.balance + req.amount));

    var err := store.UpdateAccount(fromAccount, w.debit);
    if err.Some? {
      return Failed(err.value);
    }
    err := store.UpdateAccount(toAccount, w.credit);
    if err.Some? {
      fromAccount := fromAccount.(balance := Wrap64(fromAccount.balance + req.amount));
      var ignored := store.UpdateAccount(fromAccount, w.compensate);
      return Failed(err.value);
    }
    run := Echo(req);
  }

  /** A body that does not decode is refused before the store is touched. */
  lemma MalformedBodyChangesNothing(t: Table, w: WriteOutcomes)
    ensures Transfer(t, None, w) == TransferResult(t, Failed(MalformedBody))
  {
  }

  /** A missing source or destination is reported with the lookup's "not found" error, and no update is issued. */
  lemma MissingAccountChangesNothing(t: Table, req: TransferRequest, w: WriteOutcomes)
    requires req.fromAccount !in t || (t[req.fromAccount].balance >= req.amount && req.toAccount !in t)
    ensures req.fromAccount !in t ==>
      Transfer(t, Some(req), w) == TransferResult(t, Failed(AccountIdNotFound(req.fromAccount)))
    ensures req.fromAccount in t ==>
      Transfer(t, Some(req), w) == TransferResult(t, Failed(AccountIdNotFound(req.toAccount)))
  {
  }

  /** A source balance below the amount is refused with "insufficient funds" before the destination is even loaded. */
  lemma InsufficientFundsChangesNothing(t: Table, req: TransferRequest, w: WriteOutcomes)
    requires req.fromAccount in t && t[req.fromAccount].balance < req.amount
    ensures Transfer(t, Some(req), w) == TransferResult(t, Failed(InsufficientFunds))
  {
  }

  /** A refused first update is reported, the second is never issued, and the table is as before. */
  lemma DebitFailureChangesNothing(t: Table, req: TransferRequest, w: WriteOutcomes)
    requires req.fromAccount in t && req.toAccount in t && t[req.fromAccount].balance >= req.amount
    requires w.debit.Refused?
    ensures Transfer(t, Some(req), w) == TransferResult(t, Failed(UpdateFailed(w.debit.cause)))
  {
  }

  /**
   * A refused second update is reported; when the compensating write goes through, the source is
   * back at its balance and the whole table is as before, even if the source is the destination.
   */
  lemma CreditFailureCompensated(t: Table, req: TransferRequest, w: WriteOutcomes)
    requires WellKeyed(t)
    requires req.fromAccount in t && req.toAccount in t && t[req.fromAccount].balance >= req.amount
    requires w.debit.Accepted? && w.credit.Refused? && w.compensate.Accepted?
    ensures Transfer(t, Some(req), w) == TransferResult(t, Failed(UpdateFailed(w.credit.cause)))
  {
  }

  /**
   * When the compensating write is refused too, the error of the second update is still the one
   * reported (the compensation's own error is dropped). The source row stays debited and every other
   * row, the destination included, is as before. For distinct accounts whose balances do not wrap,
   * the amount is lost from their sum.
   */
  lemma CompensationFailureLosesFunds(t: Table, req: TransferRequest, w: WriteOutcomes)
    requires WellKeyed(t)
    requires req.fromAccount in t && req.toAccount in t && t[req.fromAccount].balance >= req.amount
    requires w.debit.Accepted? && w.credit.Refused? && w.compensate.Refused?
    ensures var r := Transfer(t, Some(req), w);
      && r.run == Failed(UpdateFailed(w.credit.cause))
      && r.table == t[req.fromAccount := t[req.fromAccount].(balance := Wrap64(t[req.fromAccount].balance - req.amount))]
    ensures var r := Transfer(t, Some(req), w);
      req.fromAccount != req.toAccount && -TwoTo63 <= t[req.fromAccount].balance - req.amount < TwoTo63 ==>
        r.table[req.fromAccount].balance + r.table[req.toAccount].balance
        == t[req.fromAccount].balance + t[req.toAccount].balance - req.amount
  {
  }

  /**
   * A transfer between two distinct accounts whose updates both go through: the source is debited,
   * the destination credited (both with int64 wrap-around), the sum of the two is conserved modulo
   * 2^64 and exactly when neither balance wraps, the rest of each row and every other row are untouched,
   * and the request is echoed.
   */
  lemma DistinctTransferConserves(t: Table, req: TransferRequest, w: WriteOutcomes)
    requires WellKeyed(t)
    requires req.fromAccount in t && req.toAccount in t && t[req.fromAccount].balance >= req.amount
    requires req.fromAccount != req.toAccount
    requires w.debit.Accepted? && w.credit.Accepted?
    ensures var r := Transfer(t, Some(req), w);
      && r.run == Echo(req)
      && r.table.Keys == t.Keys
      && r.table[req.fromAccount] == t[req.fromAccount].(balance := Wrap64(t[req.fromAccount].balance - req.amount))
      && r.table[req.toAccount] == t[req.toAccount].(balance := Wrap64(t[req.toAccount].balance + req.amount))
      && (forall k :: k in t && k != req.fromAccount && k != req.toAccount ==> r.table[k] == t[k])
      && (r.table[req.fromAccount].balance + r.table[req.toAccount].balance
          - (t[req.fromAccount].balance + t[req.toAccount].balance)) % TwoTo64 == 0
      && (-TwoTo63 <= t[req.toAccount].balance + req.amount < TwoTo63 && -TwoTo63 <= t[req.fromAccount].balance - req.amount < TwoTo63 ==>
          r.table[req.fromAccount].balance + r.table[req.toAccount].balance
          == t[req.fromAccount].balance + t[req.toAccount].balance)
  {
  }

  /**
   * A transfer from an account to itself loads two copies of the same row; the destination's copy is
   * written last, so the stored balance ends at the original balance plus the amount.
   */
  lemma SelfTransferCredits(t: Table, req: TransferRequest, w: WriteOutcomes)
    requires WellKeyed(t)
    requires req.fromAccount == req.toAccount && req.fromAccount in t
    requires t[req.fromAccount].balance >= req.amount
    requires w.debit.Accepted? && w.credit.Accepted?
    ensures var r := Transfer(t, Some(req), w);
      && r.run == Echo(req)
      && r.table == t[req.fromAccount := t[req.fromAccount].(balance := Wrap64(t[req.fromAccount].balance + req.amount))]
  {
  }

  /**
   * The funds check compares the balance with the amount and nothing else: a negative amount passes
   * it for any source that is not itself below that amount, moves money from the destination to the
   * source, and can leave the destination below zero.
   */
  lemma NegativeAmountPassesCheck(t: Table, req: TransferRequest, w: WriteOutcomes)
    requires WellKeyed(t)
    requires req.amount < 0 && req.fromAccount != req.toAccount
    requires req.fromAccount in t && req.toAccount in t && t[req.fromAccount].balance >= 0
    requires 0 <= t[req.toAccount].balance && t[req.toAccount].balance + req.amount < 0
    requires t[req.fromAccount].balance - req.amount < TwoTo63
    requires w.debit.Accepted? && w.credit.Accepted?
    ensures var r := Transfer(t, Some(req), w);
      && r.run == Echo(req)
      && r.table[req.toAccount].balance == t[req.toAccount].balance + req.amount < 0
      && r.table[req.fromAccount].balance > t[req.fromAccount].balance
  {
  }

  /**
   * The table changes only when the transfer succeeds or when both the second update and its
   * compensation are refused; every other error leaves it exactly as it was.
   */
  lemma ErrorsLeaveTableUnchanged(t: Table, body: Option<TransferRequest>, w: WriteOutcomes)
    requires WellKeyed(t)
    ensures var r := Transfer(t, body, w);
      r.run.Failed? && !(w.debit.Accepted? && w.credit.Refused? && w.compensate.Refused?) ==> r.table == t
  {
  }
}
