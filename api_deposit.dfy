// POST /accounts/:id/deposit: existence and ownership checks, then one
// balance increment.

module DepositApi {
  import opened Base
  import opened DbModel
  import opened DbStore
  import opened Http

  /** The URI id and the JSON amount, decoded into int64 fields. */
  datatype DepositRequest = DepositRequest(id: int, amount: int)

  /** The binding rules: an id of at least 1 and a positive amount, both int64. */
  predicate ValidDepositRequest(req: DepositRequest)
  {
    InInt64(req.id) && InInt64(req.amount) && req.id >= 1 && req.amount > 0
  }

  datatype DepositPlan = Refuse(status: Status) | Credit(id: int, amount: int)

  /** The decision cascade of deposit, given the result of reading the account. */
  function PlanDeposit(req: DepositRequest, user: string, read: (Account, Option<Error>)): (p: DepositPlan)
    ensures p.Credit? ==> read.1.None? && read.0.owner == user && p.id == req.id && p.amount == req.amount > 0
    ensures p.Refuse? ==> p.status != InternalError || read.1.Some?
  {
    if !ValidDepositRequest(req) then Refuse(BadRequest)
    else if read.1.Some? then Refuse(if read.1.value == NoRows then NotFound else InternalError)
    else if read.0.owner != user then Refuse(Unauthorized)
    else Credit(req.id, req.amount)
  }

  /**
   * Only the owner's existing account is credited, by the requested
   * positive amount; a missing account answers 404 before ownership is
   * looked at.
   */
  lemma PlanDepositSpec(req: DepositRequest, user: string, read: (Account, Option<Error>))
    ensures var p := PlanDeposit(req, user, read);
      (p.Credit? <==> ValidDepositRequest(req) && read.1.None? && read.0.owner == user) &&
      (p.Credit? ==> p.id == req.id && p.amount == req.amount && p.amount > 0) &&
      (ValidDepositRequest(req) && read.1 == Some(NoRows) ==> p == Refuse(NotFound)) &&
      (ValidDepositRequest(req) && read.1.None? && read.0.owner != user ==> p == Refuse(Unauthorized))
  {
  }

  /**
   * deposit: a refused request changes nothing; a credited one raises
   * exactly that account's balance by the amount, through an increment that
   * writes no entry, and answers with the updated row.
   */
  method Deposit(store: Store, req: DepositRequest, user: string, readFault: Option<Error>, updateFault: Option<Error>)
    returns (resp: Response<Account>)
    requires store.Valid()
    modifies store
    ensures store.Valid()
    ensures store.entries == old(store.entries) && store.transfers == old(store.transfers)
    ensures var plan := PlanDeposit(req, user, old(store.GetAccount(req.id, readFault)));
      (plan.Refuse? ==> resp == Fail(plan.status) && store.accounts == old(store.accounts) &&
                        store.lockRequests == old(store.lockRequests)) &&
      (plan.Credit? ==>
         var err := UpdateError(old(store.accounts), req.id, req.amount, updateFault);
         (resp.Ok? <==> err.None?) &&
         (resp.Fail? ==> resp.status == InternalError && store.accounts == old(store.accounts)) &&
         (resp.Ok? ==> store.accounts == AddToBalance(old(store.accounts), req.id, req.amount) &&
                       resp.value == store.accounts[req.id] &&
                       resp.value.balance == old(store.accounts)[req.id].balance + req.amount))
    ensures resp.Ok? && old(store.Audited()) ==> !store.Audited()
  {
    var plan := PlanDeposit(req, user, store.GetAccount(req.id, readFault));
    if plan.Refuse? {
      return Fail(plan.status);
    }
    var updated, err := store.AddAccountBalance(req.id, req.amount, updateFault);
    if err.Some? {
      return Fail(InternalError);
    }
    resp := Ok(updated);
  }
}
