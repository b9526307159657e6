// POST /transfers: the request checks that decide whether, and how, money
// moves, and the dispatch to the same- or cross-currency transaction.

module TransferApi {
  import opened Base
  import opened Currency
  import opened DbModel
  import opened DbStore
  import opened Http

  /** The JSON body; ids and amount are decoded into int64 fields. */
  datatype TransferRequest = TransferRequest(
    fromAccountId: int, toAccountId: int, amount: int, currency: string, toUsername: string)

  /**
   * The binding rules: values that fit int64, both ids at least 1, a
   * positive amount, and a currency that, when given, is supported.
   */
  predicate ValidTransferRequest(req: TransferRequest)
  {
    InInt64(req.fromAccountId) && InInt64(req.toAccountId) && InInt64(req.amount) &&
    req.fromAccountId >= 1 && req.toAccountId >= 1 && req.amount > 0 &&
    (req.currency == "" || IsSupportedCurrency(req.currency))
  }

  /** A failed account read: NoRows answers 404, anything else 500. */
  function ReadStatus(err: Error): Status
  {
    if err == NoRows then NotFound else InternalError
  }

  /**
   * Go's float64-to-int64 conversion on amd64: a value outside the int64
   * range becomes the most negative int64.
   */
  function ToInt64(x: int): (r: int64)
    ensures InInt64(x) ==> r == x
    ensures !InInt64(x) ==> r <= 0
  {
    if InInt64(x) then x else MinInt64
  }

  /** What the handler decides before touching the ledger. */
  datatype TransferPlan =
    | Reject(status: Status)
    | Same(arg: TransferTxParams)
    | Cross(fx: TransferTxFXParams)

  /**
   * The decision cascade of createTransfer, given the results of reading
   * the source and the destination account.
   */
  function PlanTransfer(req: TransferRequest, user: string, fromRead: (Account, Option<Error>), toRead: (Account, Option<Error>)): (p: TransferPlan)
    ensures !p.Reject? ==> ValidTransferRequest(req) && fromRead.1.None? && toRead.1.None? && fromRead.0.owner == user
    ensures p.Same? ==> p.arg.amount == req.amount > 0
    ensures p.Cross? ==> p.fx.fromAmount == req.amount > 0 && p.fx.toAmount > 0
  {
    if !ValidTransferRequest(req) then Reject(BadRequest)
    else if fromRead.1.Some? then Reject(ReadStatus(fromRead.1.value))
    else if fromRead.0.owner != user then Reject(Unauthorized)
    else if req.currency != "" && fromRead.0.currency != req.currency then Reject(BadRequest)
    else if toRead.1.Some? then Reject(ReadStatus(toRead.1.value))
    else if req.toUsername != "" && toRead.0.owner != req.toUsername then Reject(BadRequest)
    else if fromRead.0.currency == toRead.0.currency then
      Same(TransferTxParams(req.fromAccountId, req.toAccountId, req.amount))
    else
      var conversion := ConvertAmount(req.amount, fromRead.0.currency, toRead.0.currency);
      var toAmount := ToInt64(conversion.0);
      if !conversion.1 then Reject(BadRequest)
      else if toAmount <= 0 then Reject(BadRequest)
      else Cross(TransferTxFXParams(req.fromAccountId, req.toAccountId, req.amount, toAmount))
  }

  /**
   * Money moves only for a well-formed request whose source the user owns,
   * whose currency (when given) is the source's, whose destination exists
   * and whose recipient name (when given) is the destination's owner. Equal
   * currencies dispatch the request amount unchanged; different ones debit
   * the request amount and credit its positive conversion.
   */
  lemma PlanTransferDispatch(req: TransferRequest, user: string, fromRead: (Account, Option<Error>), toRead: (Account, Option<Error>))
    ensures var p := PlanTransfer(req, user, fromRead, toRead);
      var from, to := fromRead.0, toRead.0;
      var cleared := ValidTransferRequest(req) && fromRead.1.None? && from.owner == user &&
                     (req.currency == "" || req.currency == from.currency) &&
                     toRead.1.None? && (req.toUsername == "" || req.toUsername == to.owner);
      (p.Same? <==> cleared && from.currency == to.currency) &&
      (p.Same? ==> p.arg == TransferTxParams(req.fromAccountId, req.toAccountId, req.amount)) &&
      (p.Cross? ==> cleared && from.currency != to.currency &&
                    IsSupportedCurrency(from.currency) && IsSupportedCurrency(to.currency) &&
                    p.fx.fromAccountId == req.fromAccountId && p.fx.toAccountId == req.toAccountId &&
                    p.fx.fromAmount == req.amount && p.fx.toAmount > 0 &&
                    p.fx.toAmount == ConvertAmount(req.amount, from.currency, to.currency).0) &&
      (p.Reject? && cleared && from.currency != to.currency ==>
         p.status == BadRequest &&
         (!IsSupportedCurrency(from.currency) || !IsSupportedCurrency(to.currency) ||
          ToInt64(ConvertAmount(req.amount, from.currency, to.currency).0) <= 0))
  {
    var from, to := fromRead.0, toRead.0;
    ConvertibleIffSupported(req.amount, from.currency, to.currency);
  }

  /**
   * A missing source answers 404, and a source owned by someone else 401,
   * whatever the destination: both are decided before it is read.
   */
  lemma SourceCheckedFirst(req: TransferRequest, user: string, fromRead: (Account, Option<Error>), toRead: (Account, Option<Error>), otherRead: (Account, Option<Error>))
    requires ValidTransferRequest(req)
    ensures fromRead.1 == Some(NoRows) ==> PlanTransfer(req, user, fromRead, toRead) == Reject(NotFound)
    ensures fromRead.1.None? && fromRead.0.owner != user ==> PlanTransfer(req, user, fromRead, toRead) == Reject(Unauthorized)
    ensures fromRead.1.Some? || fromRead.0.owner != user ==>
              PlanTransfer(req, user, fromRead, toRead) == PlanTransfer(req, user, fromRead, otherRead)
  {
  }

  /** Store failures the handler may meet: on each account read, and in the transaction. */
  datatype TransferFaults = TransferFaults(fromRead: Option<Error>, toRead: Option<Error>, tx: TxFaults)

  /**
   * createTransfer: a rejected request leaves the ledger untouched; a
   * dispatched one answers 200 with the transaction's result when it
   * commits, and 500 (with the ledger untouched) when it does not.
   */
  method CreateTransfer(store: Store, req: TransferRequest, user: string, now: int, faults: TransferFaults)
    returns (resp: Response<TransferTxResult>)
    requires store.Valid()
    modifies store
    ensures store.Valid()
    ensures var plan := PlanTransfer(req, user, old(store.GetAccount(req.fromAccountId, faults.fromRead)),
                                                old(store.GetAccount(req.toAccountId, faults.toRead)));
      (plan.Reject? ==> resp == Fail(plan.status) && store.Tables() == old(store.Tables()) &&
                        store.lockRequests == old(store.lockRequests)) &&
      (!plan.Reject? ==>
         var work := if plan.Same? then SameCurrency(plan.arg) else CrossCurrency(plan.fx);
         var err := TxOutcome(faults.tx, WorkError(old(store.Tables()), MovementOf(work), faults.tx.statements));
         (resp.Ok? <==> err.None?) &&
         (resp.Fail? ==> resp.status == InternalError && store.Tables() == old(store.Tables())) &&
         (resp.Ok? ==>
            store.Tables() == Moved(old(store.Tables()), MovementOf(work), old(store.nextTransferId), old(store.nextEntryId), now) &&
            resp.value == MovedResult(old(store.Tables()), MovementOf(work), old(store.nextTransferId), old(store.nextEntryId), now)))
    ensures old(store.Audited()) ==> store.Audited()
  {
    var plan := PlanTransfer(req, user, store.GetAccount(req.fromAccountId, faults.fromRead),
                                        store.GetAccount(req.toAccountId, faults.toRead));
    if plan.Reject? {
      return Fail(plan.status);
    }
    var result, err;
    if plan.Same? {
      result, err := store.TransferTx(plan.arg, now, faults.tx);
    } else {
      result, err := store.TransferTxFX(plan.fx, now, faults.tx);
    }
    if err.Some? {
      return Fail(InternalError);
    }
    resp := Ok(result);
  }
}
