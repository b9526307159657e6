// The ledger store: the three tables as mutable state, the entity
// operations on them, the account-locking helpers, the transaction
// executor and the two transfer transactions.

module DbStore {
  import opened Base
  import opened DbModel

  // --------------------------------------------------------- query results

  predicate OwnedBy(a: Account, owner: Option<string>) { owner.None? || a.owner == owner.value }

  /** The accounts with an id in [1, n) owned by `owner` (any owner when None), by ascending id. */
  function OrderedAccounts(accounts: map<int, Account>, owner: Option<string>, n: int): seq<Account>
    decreases n
  {
    if n <= 1 then []
    else OrderedAccounts(accounts, owner, n - 1) +
         (if n - 1 in accounts && OwnedBy(accounts[n - 1], owner) then [accounts[n - 1]] else [])
  }

  /** `r` lists exactly the rows of `accounts` with id in [1, n) owned by `owner`, by ascending id. */
  ghost predicate ListsOwned(r: seq<Account>, accounts: map<int, Account>, owner: Option<string>, n: int)
  {
    (forall i :: 0 <= i < |r| ==>
       1 <= r[i].id < n && r[i].id in accounts && accounts[r[i].id] == r[i] && OwnedBy(r[i], owner)) &&
    (forall i, j :: 0 <= i < j < |r| ==> r[i].id < r[j].id) &&
    (forall k :: k in accounts && 1 <= k < n && OwnedBy(accounts[k], owner) ==> accounts[k] in r)
  }

  lemma {:induction false} OrderedAccountsSpec(accounts: map<int, Account>, owner: Option<string>, n: int)
    requires forall k :: k in accounts ==> accounts[k].id == k
    ensures ListsOwned(OrderedAccounts(accounts, owner, n), accounts, owner, n)
  {
    if n > 1 {
      OrderedAccountsSpec(accounts, owner, n - 1);
      var prev := OrderedAccounts(accounts, owner, n - 1);
      var tail := if n - 1 in accounts && OwnedBy(accounts[n - 1], owner) then [accounts[n - 1]] else [];
      var r := prev + tail;
      assert r == OrderedAccounts(accounts, owner, n);
      forall i | 0 <= i < |r|
        ensures 1 <= r[i].id < n && r[i].id in accounts && accounts[r[i].id] == r[i] && OwnedBy(r[i], owner)
      {
        if i < |prev| { assert r[i] == prev[i]; } else { assert r[i] == accounts[n - 1]; }
      }
      forall i, j | 0 <= i < j < |r| ensures r[i].id < r[j].id {
        if j < |prev| { assert r[i] == prev[i] && r[j] == prev[j]; }
        else { assert r[i] == prev[i] && r[j] == accounts[n - 1]; }
      }
    }
  }

  /** The transfers that leave or enter account `id`, in table order. */
  function TransfersTouching(transfers: seq<Transfer>, id: int): (r: seq<Transfer>)
  {
    if transfers == [] then []
    else (if transfers[0].fromAccountId == id || transfers[0].toAccountId == id then [transfers[0]] else [])
         + TransfersTouching(transfers[1..], id)
  }

  lemma {:induction false} TransfersTouchingSpec(transfers: seq<Transfer>, id: int)
    ensures var r := TransfersTouching(transfers, id);
      (forall t :: t in r <==> t in transfers && (t.fromAccountId == id || t.toAccountId == id)) &&
      ((forall i, j :: 0 <= i < j < |transfers| ==> transfers[i].id < transfers[j].id) ==>
         forall i, j :: 0 <= i < j < |r| ==> r[i].id < r[j].id)
  {
    if transfers != [] {
      TransfersTouchingSpec(transfers[1..], id);
      var r := TransfersTouching(transfers, id);
      var rest := TransfersTouching(transfers[1..], id);
      if (forall i, j :: 0 <= i < j < |transfers| ==> transfers[i].id < transfers[j].id) {
        assert forall i, j :: 0 <= i < j < |transfers[1..]| ==> transfers[1..][i].id < transfers[1..][j].id by {
          forall i, j | 0 <= i < j < |transfers[1..]| ensures transfers[1..][i].id < transfers[1..][j].id {
            assert transfers[1..][i] == transfers[i + 1] && transfers[1..][j] == transfers[j + 1];
          }
        }
        forall t | t in rest ensures transfers[0].id < t.id {
          var k :| 0 <= k < |transfers[1..]| && transfers[1..][k] == t;
          assert transfers[k + 1] == t;
        }
      }
    }
  }

  /** LIMIT `limit` OFFSET `offset`: an offset at or past the end gives no rows. */
  function Window<T>(s: seq<T>, limit: nat, offset: nat): (r: seq<T>)
    ensures |r| <= limit
    ensures offset < |s| ==> r == s[offset..if offset + limit < |s| then offset + limit else |s|]
    ensures offset >= |s| ==> r == []
  {
    if offset >= |s| then [] else s[offset..if offset + limit < |s| then offset + limit else |s|]
  }

  // ------------------------------------------------------------------ store

  /**
   * The database behind the store. Ids come from sequences that a rollback
   * does not give back. `lockRequests` lists, in issue order, the account
   * rows this store has asked the database to lock: FOR UPDATE reads and
   * balance updates. `opening` holds each account's opening balance.
   */
  class Store {
    var accounts: map<int, Account>
    var entries: seq<Entry>
    var transfers: seq<Transfer>
    var nextAccountId: int
    var nextEntryId: int
    var nextTransferId: int
    var lockRequests: seq<int>
    ghost var opening: map<int, int>

    /**
     * Keys are ids, ids come from the sequences, balances fit a bigint,
     * entries and transfers name existing accounts (foreign keys), and
     * transfer ids ascend in table order.
     */
    ghost predicate Valid()
      reads this
    {
      1 <= nextAccountId && 1 <= nextEntryId && 1 <= nextTransferId &&
      (forall id :: id in accounts ==> 1 <= id < nextAccountId && accounts[id].id == id && InInt64(accounts[id].balance)) &&
      (forall i :: 0 <= i < |entries| ==> entries[i].accountId in accounts) &&
      (forall i :: 0 <= i < |transfers| ==>
         transfers[i].fromAccountId in accounts && transfers[i].toAccountId in accounts &&
         1 <= transfers[i].id < nextTransferId) &&
      (forall i, j :: 0 <= i < j < |transfers| ==> transfers[i].id < transfers[j].id)
    }

    function Tables(): Tables
      reads this
    {
      DbModel.Tables(accounts, entries, transfers)
    }

    /** Every balance is its opening balance plus the sum of its entries. */
    ghost predicate Audited()
      reads this
    {
      DbModel.Audited(accounts, entries, opening)
    }

    constructor ()
      ensures Valid() && Audited()
      ensures Tables() == DbModel.Tables(map[], [], []) && lockRequests == []
    {
      accounts, entries, transfers := map[], [], [];
      nextAccountId, nextEntryId, nextTransferId := 1, 1, 1;
      lockRequests := [];
      opening := map[];
    }

    // ------------------------------------------------------ account queries

    /** INSERT INTO accounts: the new row has a fresh, nonzero id. */
    method CreateAccount(owner: string, balance: int64, currency: string, now: int, fault: Option<Error>)
      returns (account: Account, err: Option<Error>)
      requires Valid()
      modifies this
      ensures Valid() && err == fault
      ensures err.None? ==> account == Account(old(nextAccountId), owner, balance, currency, now)
      ensures err.None? ==> account.id != 0 && account.id !in old(accounts) && accounts == old(accounts)[account.id := account]
      ensures err.Some? ==> account == ZeroAccount && accounts == old(accounts)
      ensures entries == old(entries) && transfers == old(transfers) && lockRequests == old(lockRequests)
      ensures old(Audited()) ==> Audited()
    {
      if fault.Some? {
        return ZeroAccount, fault;
      }
      account := Account(nextAccountId, owner, balance, currency, now);
      forall i | 0 <= i < |entries| ensures entries[i].accountId != account.id { }
      SumEntriesAbsent(entries, account.id);
      accounts := accounts[account.id := account];
      opening := opening[account.id := balance];
      nextAccountId := nextAccountId + 1;
      err := None;
    }

    /** SELECT ... WHERE id = $1: a missing row is NoRows with an empty account. */
    function GetAccount(id: int, fault: Option<Error>): (r: (Account, Option<Error>))
      reads this
      requires Valid()
      ensures r.1.None? <==> fault.None? && id in accounts
      ensures r.1.None? ==> r.0 == accounts[id] && r.0.id == id
      ensures fault.None? && id !in accounts ==> r.1 == Some(NoRows)
      ensures r.1.Some? ==> r.0 == ZeroAccount
    {
      if fault.Some? then (ZeroAccount, fault)
      else if id !in accounts then (ZeroAccount, Some(NoRows))
      else (accounts[id], None)
    }

    /** UPDATE accounts SET balance = $2: sets the balance, keeps id, owner and currency. */
    method UpdateAccount(id: int, balance: int64, fault: Option<Error>) returns (account: Account, err: Option<Error>)
      requires Valid()
      modifies this`accounts
      ensures Valid()
      ensures err.None? <==> fault.None? && id in old(accounts)
      ensures fault.None? && id !in old(accounts) ==> err == Some(NoRows)
      ensures err.None? ==> account == old(accounts)[id].(balance := balance) && accounts == old(accounts)[id := account]
      ensures err.None? ==> account.id == id && account.owner == old(accounts)[id].owner && account.currency == old(accounts)[id].currency
      ensures err.Some? ==> account == ZeroAccount && accounts == old(accounts)
    {
      if fault.Some? {
        return ZeroAccount, fault;
      }
      if id !in accounts {
        return ZeroAccount, Some(NoRows);
      }
      account := accounts[id].(balance := balance);
      accounts := accounts[id := account];
      err := None;
    }

    /** Whether an entry or a transfer names account `id`. */
    predicate Referenced(id: int)
      reads this
    {
      (exists i :: 0 <= i < |entries| && entries[i].accountId == id) ||
      (exists i :: 0 <= i < |transfers| && (transfers[i].fromAccountId == id || transfers[i].toAccountId == id))
    }

    /**
     * DELETE FROM accounts WHERE id = $1. Deleting a missing row is not an
     * error; deleting a row that entries or transfers name violates their
     * foreign keys. Afterwards the account is not found.
     */
    method DeleteAccount(id: int, fault: Option<Error>) returns (err: Option<Error>)
      requires Valid()
      modifies this`accounts
      ensures Valid()
      ensures err == (if fault.Some? then fault else if id in old(accounts) && Referenced(id) then Some(ForeignKeyViolation) else None)
      ensures err.None? ==> accounts == old(accounts) - {id}
      ensures err.None? ==> GetAccount(id, None) == (ZeroAccount, Some(NoRows))
      ensures err.Some? ==> accounts == old(accounts)
      ensures old(Audited()) ==> Audited()
    {
      if fault.Some? {
        return fault;
      }
      if id in accounts && Referenced(id) {
        return Some(ForeignKeyViolation);
      }
      accounts := accounts - {id};
      err := None;
    }

    /** SELECT ... [WHERE owner = $1] ORDER BY id LIMIT $2 OFFSET $3. */
    function ListAccounts(owner: Option<string>, limit: int, offset: int, fault: Option<Error>): (r: (seq<Account>, Option<Error>))
      reads this
      requires Valid()
      ensures r.1.None? <==> fault.None? && limit >= 0 && offset >= 0
      ensures r.1.Some? ==> r.0 == []
    {
      if fault.Some? then ([], fault)
      else if limit < 0 || offset < 0 then ([], Some(InvalidParameter))
      else (Window(OrderedAccounts(accounts, owner, nextAccountId), limit, offset), None)
    }

    /**
     * A listing holds at most `limit` current rows of the requested owner, by
     * ascending id; the first page of a non-empty selection is non-empty and
     * holds no empty account.
     */
    lemma ListAccountsContract(owner: Option<string>, limit: int, offset: int)
      requires Valid() && limit >= 0 && offset >= 0
      ensures var r := ListAccounts(owner, limit, offset, None).0;
        |r| <= limit &&
        (forall i :: 0 <= i < |r| ==> r[i].id in accounts && accounts[r[i].id] == r[i] && OwnedBy(r[i], owner) && r[i].id != 0) &&
        (forall i, j :: 0 <= i < j < |r| ==> r[i].id < r[j].id) &&
        (offset == 0 && limit >= 1 && (exists k :: k in accounts && OwnedBy(accounts[k], owner)) ==> |r| >= 1)
    {
      var all := OrderedAccounts(accounts, owner, nextAccountId);
      OrderedAccountsSpec(accounts, owner, nextAccountId);
      var r := ListAccounts(owner, limit, offset, None).0;
      if offset < |all| {
        var end := if offset + limit < |all| then offset + limit else |all|;
        assert r == all[offset..end];
        forall i, j | 0 <= i < j < |r| ensures r[i].id < r[j].id {
          assert r[i] == all[offset + i] && r[j] == all[offset + j];
        }
        forall i | 0 <= i < |r| ensures r[i].id in accounts && accounts[r[i].id] == r[i] && OwnedBy(r[i], owner) && r[i].id != 0 {
          assert r[i] == all[offset + i];
        }
      }
      if offset == 0 && limit >= 1 && (exists k :: k in accounts && OwnedBy(accounts[k], owner)) {
        var k :| k in accounts && OwnedBy(accounts[k], owner);
        assert accounts[k] in all;
      }
    }

    /** SELECT FROM transfers WHERE from_account_id = $1 OR to_account_id = $2 ORDER BY id LIMIT $3 OFFSET $4. */
    function ListTransfers(id: int, limit: int, offset: int, fault: Option<Error>): (r: (seq<Transfer>, Option<Error>))
      reads this
      ensures r.1.None? <==> fault.None? && limit >= 0 && offset >= 0
      ensures r.1.Some? ==> r.0 == []
    {
      if fault.Some? then ([], fault)
      else if limit < 0 || offset < 0 then ([], Some(InvalidParameter))
      else (Window(TransfersTouching(transfers, id), limit, offset), None)
    }

    /** A listing holds at most `limit` transfers of the table that touch the account, by ascending id. */
    lemma ListTransfersContract(id: int, limit: int, offset: int)
      requires Valid() && limit >= 0 && offset >= 0
      ensures var r := ListTransfers(id, limit, offset, None).0;
        |r| <= limit &&
        (forall i :: 0 <= i < |r| ==> r[i] in transfers && (r[i].fromAccountId == id || r[i].toAccountId == id)) &&
        (forall i, j :: 0 <= i < j < |r| ==> r[i].id < r[j].id)
    {
      var all := TransfersTouching(transfers, id);
      TransfersTouchingSpec(transfers, id);
      var r := ListTransfers(id, limit, offset, None).0;
      if offset < |all| {
        var end := if offset + limit < |all| then offset + limit else |all|;
        assert r == all[offset..end];
        forall i, j | 0 <= i < j < |r| ensures r[i].id < r[j].id {
          assert r[i] == all[offset + i] && r[j] == all[offset + j];
        }
        forall i | 0 <= i < |r| ensures r[i] in transfers && (r[i].fromAccountId == id || r[i].toAccountId == id) {
          assert r[i] == all[offset + i];
        }
      }
    }

    // ----------------------------------------------- statements of a transfer

    /** UpdateAccountBalance: `balance = balance + delta` on one row, which it locks. */
    method AddAccountBalance(id: int, delta: int, fault: Option<Error>) returns (account: Account, err: Option<Error>)
      requires Valid()
      modifies this`accounts, this`lockRequests
      ensures Valid()
      ensures lockRequests == old(lockRequests) + [id]
      ensures err == UpdateError(old(accounts), id, delta, fault)
      ensures err.None? ==> accounts == AddToBalance(old(accounts), id, delta) && account == accounts[id]
      ensures err.Some? ==> accounts == old(accounts) && account == ZeroAccount
    {
      lockRequests := lockRequests + [id];
      err := UpdateError(accounts, id, delta, fault);
      if err.Some? {
        return ZeroAccount, err;
      }
      accounts := AddToBalance(accounts, id, delta);
      account := accounts[id];
    }

    /** INSERT INTO transfers; both accounts must exist. */
    method CreateTransfer(fromId: int, toId: int, amount: int, now: int, fault: Option<Error>)
      returns (transfer: Transfer, err: Option<Error>)
      requires Valid()
      modifies this`transfers, this`nextTransferId
      ensures Valid()
      ensures err == (if fault.Some? then fault
                      else if fromId !in accounts || toId !in accounts then Some(ForeignKeyViolation)
                      else None)
      ensures err.None? ==> transfer == Transfer(old(nextTransferId), fromId, toId, amount, now) &&
                            transfers == old(transfers) + [transfer] && nextTransferId == old(nextTransferId) + 1
      ensures err.Some? ==> transfer == ZeroTransfer && transfers == old(transfers) && nextTransferId == old(nextTransferId)
    {
      if fault.Some? {
        return ZeroTransfer, fault;
      }
      if fromId !in accounts || toId !in accounts {
        return ZeroTransfer, Some(ForeignKeyViolation);
      }
      transfer := Transfer(nextTransferId, fromId, toId, amount, now);
      transfers := transfers + [transfer];
      nextTransferId := nextTransferId + 1;
      err := None;
    }

    /** INSERT INTO entries; the account must exist. */
    method CreateEntry(accountId: int, amount: int, now: int, fault: Option<Error>) returns (entry: Entry, err: Option<Error>)
      requires Valid()
      modifies this`entries, this`nextEntryId
      ensures Valid()
      ensures err == (if fault.Some? then fault else if accountId !in accounts then Some(ForeignKeyViolation) else None)
      ensures err.None? ==> entry == Entry(old(nextEntryId), accountId, amount, now) &&
                            entries == old(entries) + [entry] && nextEntryId == old(nextEntryId) + 1
      ensures err.Some? ==> entry == ZeroEntry && entries == old(entries) && nextEntryId == old(nextEntryId)
    {
      if fault.Some? {
        return ZeroEntry, fault;
      }
      if accountId !in accounts {
        return ZeroEntry, Some(ForeignKeyViolation);
      }
      entry := Entry(nextEntryId, accountId, amount, now);
      entries := entries + [entry];
      nextEntryId := nextEntryId + 1;
      err := None;
    }

    // ------------------------------------------------------- account locking

    /** SELECT ... FOR UPDATE: reads the row and asks for its lock. */
    method GetAccountForUpdate(id: int, fault: Option<Error>) returns (account: Account, err: Option<Error>)
      requires Valid()
      modifies this`lockRequests
      ensures lockRequests == old(lockRequests) + [id]
      ensures (account, err) == GetAccount(id, fault)
    {
      lockRequests := lockRequests + [id];
      account, err := GetAccount(id, fault).0, GetAccount(id, fault).1;
    }

    /**
     * Locks both accounts, the smaller id first whatever the argument order,
     * and does not ask for the second lock when the first read fails.
     */
    method AddAccountsForUpdate(id1: int, id2: int, fault1: Option<Error>, fault2: Option<Error>)
      returns (account1: Account, account2: Account, err: Option<Error>)
      requires Valid()
      modifies this`lockRequests
      ensures var (lo, hi) := LockOrder(id1, id2);
        var first := GetAccount(lo, fault1);
        account1 == first.0 &&
        (first.1.Some? ==> lockRequests == old(lockRequests) + [lo] && account2 == ZeroAccount && err == first.1) &&
        (first.1.None? ==> lockRequests == old(lockRequests) + [lo, hi] && (account2, err) == GetAccount(hi, fault2))
    {
      var a, b := id1, id2;
      if a > b {
        a, b := b, a;
      }
      account1, err := GetAccountForUpdate(a, fault1);
      account2 := ZeroAccount;
      if err.Some? {
        return;
      }
      account2, err := GetAccountForUpdate(b, fault2);
    }

    // ------------------------------------------------------ the transactions

    /** The two balance updates of a movement, lower account id first, stopping at the first failure. */
    method ApplyUpdates(m: Movement, st: map<Step, Error>) returns (fromAccount: Account, toAccount: Account, err: Option<Error>)
      requires Valid() && m.fromId in accounts && m.toId in accounts
      modifies this`accounts, this`lockRequests
      ensures Valid()
      ensures err == UpdatesError(old(accounts), m, st)
      ensures err.None? ==> accounts == MovedAccounts(old(accounts), m) && (fromAccount, toAccount) == MovedRows(old(accounts), m)
      ensures var u := Updates(m);
        lockRequests == old(lockRequests) +
          (if UpdateError(old(accounts), u[0].0, u[0].1, FaultAt(st, FirstUpdate)).Some? then [u[0].0] else [u[0].0, u[1].0])
    {
      fromAccount, toAccount := ZeroAccount, ZeroAccount;
      if m.fromId < m.toId {
        fromAccount, err := AddAccountBalance(m.fromId, m.debit, FaultAt(st, FirstUpdate));
        if err.Some? {
          return;
        }
        toAccount, err := AddAccountBalance(m.toId, m.credit, FaultAt(st, SecondUpdate));
      } else {
        toAccount, err := AddAccountBalance(m.toId, m.credit, FaultAt(st, FirstUpdate));
        if err.Some? {
          return;
        }
        fromAccount, err := AddAccountBalance(m.fromId, m.debit, FaultAt(st, SecondUpdate));
      }
    }

    /**
     * The body of TransferTx's closure for one movement: insert the transfer,
     * the debit entry and the credit entry, then apply the two balance
     * updates, stopping at the first failure.
     */
    method RunWork(m: Movement, now: int, st: map<Step, Error>) returns (result: TransferTxResult, err: Option<Error>)
      requires Valid()
      modifies this`accounts, this`entries, this`transfers, this`nextEntryId, this`nextTransferId, this`lockRequests
      ensures Valid()
      ensures err == WorkError(old(Tables()), m, st)
      ensures err.None? ==> Tables() == Moved(old(Tables()), m, old(nextTransferId), old(nextEntryId), now)
      ensures err.None? ==> result == MovedResult(old(Tables()), m, old(nextTransferId), old(nextEntryId), now)
      ensures old(nextTransferId) <= nextTransferId && old(nextEntryId) <= nextEntryId
      ensures lockRequests == old(lockRequests) + WorkLocks(old(Tables()), m, st)
    {
      ghost var t0, eid := Tables(), nextEntryId;
      result := ZeroResult;
      var transfer, fromEntry, toEntry, fromAccount, toAccount;
      transfer, err := CreateTransfer(m.fromId, m.toId, m.recorded, now, FaultAt(st, InsertTransfer));
      result := result.(transfer := transfer);
      if err.Some? {
        return;
      }
      fromEntry, err := CreateEntry(m.fromId, m.debit, now, FaultAt(st, InsertFromEntry));
      result := result.(fromEntry := fromEntry);
      if err.Some? {
        return;
      }
      toEntry, err := CreateEntry(m.toId, m.credit, now, FaultAt(st, InsertToEntry));
      result := result.(toEntry := toEntry);
      if err.Some? {
        return;
      }
      assert entries == t0.entries + [Entry(eid, m.fromId, m.debit, now), Entry(eid + 1, m.toId, m.credit, now)];
      fromAccount, toAccount, err := ApplyUpdates(m, st);
      result := result.(fromAccount := fromAccount, toAccount := toAccount);
    }

    /**
     * execTx: begin a transaction, run the unit of work, roll back on its
     * error and commit otherwise. A failed begin runs nothing; a rollback or
     * a failed commit leaves the tables as they were before the call.
     */
    method ExecTx(work: UnitOfWork, now: int, faults: TxFaults) returns (result: TransferTxResult, err: Option<Error>)
      requires Valid()
      modifies this`accounts, this`entries, this`transfers, this`nextEntryId, this`nextTransferId, this`lockRequests
      ensures Valid()
      ensures err == TxOutcome(faults, WorkError(old(Tables()), MovementOf(work), faults.statements))
      ensures err.None? ==>
        Tables() == Moved(old(Tables()), MovementOf(work), old(nextTransferId), old(nextEntryId), now) &&
        result == MovedResult(old(Tables()), MovementOf(work), old(nextTransferId), old(nextEntryId), now)
      ensures err.Some? ==> Tables() == old(Tables())
      ensures faults.begin.Some? ==> result == ZeroResult
      ensures lockRequests == old(lockRequests) +
        (if faults.begin.Some? then [] else WorkLocks(old(Tables()), MovementOf(work), faults.statements))
      ensures old(Audited()) ==> Audited()
    {
      if faults.begin.Some? {
        return ZeroResult, faults.begin;
      }
      var m := MovementOf(work);
      var snapshot := Tables();
      ghost var tid, eid := nextTransferId, nextEntryId;
      result, err := RunWork(m, now, faults.statements);
      if err.Some? {
        // Rollback: none of the transaction's writes survive, whether or not
        // the rollback call itself reports an error.
        accounts, entries, transfers := snapshot.accounts, snapshot.entries, snapshot.transfers;
        if faults.rollback.Some? {
          err := Some(RollbackFailed(err.value, faults.rollback.value));
        }
        return;
      }
      if faults.commit.Some? {
        accounts, entries, transfers := snapshot.accounts, snapshot.entries, snapshot.transfers;
        err := faults.commit;
        return;
      }
      if old(Audited()) {
        MovedKeepsAudit(snapshot, m, tid, eid, now, opening);
      }
    }

    /**
     * TransferTx: one transaction that records the transfer and its two
     * entries and moves `amount` from the source to the destination, or
     * changes nothing and returns the error.
     */
    method TransferTx(arg: TransferTxParams, now: int, faults: TxFaults) returns (result: TransferTxResult, err: Option<Error>)
      requires Valid()
      modifies this`accounts, this`entries, this`transfers, this`nextEntryId, this`nextTransferId, this`lockRequests
      ensures Valid()
      ensures err == TxOutcome(faults, WorkError(old(Tables()), MovementOf(SameCurrency(arg)), faults.statements))
      ensures err.Some? ==> Tables() == old(Tables())
      ensures err.None? ==>
        Tables() == Moved(old(Tables()), MovementOf(SameCurrency(arg)), old(nextTransferId), old(nextEntryId), now) &&
        result == MovedResult(old(Tables()), MovementOf(SameCurrency(arg)), old(nextTransferId), old(nextEntryId), now)
      ensures err.None? ==>
        transfers == old(transfers) + [Transfer(old(nextTransferId), arg.fromAccountId, arg.toAccountId, arg.amount, now)] &&
        entries == old(entries) + [Entry(old(nextEntryId), arg.fromAccountId, Neg64(arg.amount), now),
                                   Entry(old(nextEntryId) + 1, arg.toAccountId, arg.amount, now)] &&
        result.transfer == Transfer(old(nextTransferId), arg.fromAccountId, arg.toAccountId, arg.amount, now) &&
        result.fromEntry == Entry(old(nextEntryId), arg.fromAccountId, Neg64(arg.amount), now) &&
        result.toEntry == Entry(old(nextEntryId) + 1, arg.toAccountId, arg.amount, now) &&
        result.fromAccount == accounts[arg.fromAccountId]
      ensures err.None? && arg.fromAccountId != arg.toAccountId ==>
        accounts == old(accounts)[arg.fromAccountId := old(accounts)[arg.fromAccountId].(balance := old(accounts)[arg.fromAccountId].balance + Neg64(arg.amount))]
                                 [arg.toAccountId := old(accounts)[arg.toAccountId].(balance := old(accounts)[arg.toAccountId].balance + arg.amount)] &&
        result.toAccount == accounts[arg.toAccountId]
      ensures err.None? && arg.fromAccountId == arg.toAccountId ==>
        accounts == old(accounts) &&
        result.toAccount.balance == old(accounts)[arg.toAccountId].balance + arg.amount
      ensures err.None? && arg.amount != MinInt64 ==>
        accounts[arg.fromAccountId].balance + accounts[arg.toAccountId].balance ==
        old(accounts)[arg.fromAccountId].balance + old(accounts)[arg.toAccountId].balance
      ensures lockRequests == old(lockRequests) +
        (if faults.begin.Some? then [] else WorkLocks(old(Tables()), MovementOf(SameCurrency(arg)), faults.statements))
      ensures old(Audited()) ==> Audited()
    {
      ghost var t0, tid, eid := Tables(), nextTransferId, nextEntryId;
      result, err := ExecTx(SameCurrency(arg), now, faults);
      if err.None? {
        WorkSucceedsIff(t0, MovementOf(SameCurrency(arg)), faults.statements);
        TransferTxWrites(t0, arg, tid, eid, now);
        if arg.amount != MinInt64 {
          TransferConservesMoney(t0, arg, tid, eid, now);
        }
      }
    }

    /**
     * TransferTxFX: the same transaction for accounts in different
     * currencies; the source is debited `fromAmount` (the amount recorded on
     * the transfer) and the destination credited `toAmount`.
     */
    method TransferTxFX(arg: TransferTxFXParams, now: int, faults: TxFaults) returns (result: TransferTxResult, err: Option<Error>)
      requires Valid()
      modifies this`accounts, this`entries, this`transfers, this`nextEntryId, this`nextTransferId, this`lockRequests
      ensures Valid()
      ensures err == TxOutcome(faults, WorkError(old(Tables()), MovementOf(CrossCurrency(arg)), faults.statements))
      ensures err.Some? ==> Tables() == old(Tables())
      ensures err.None? ==>
        Tables() == Moved(old(Tables()), MovementOf(CrossCurrency(arg)), old(nextTransferId), old(nextEntryId), now) &&
        result == MovedResult(old(Tables()), MovementOf(CrossCurrency(arg)), old(nextTransferId), old(nextEntryId), now)
      ensures err.None? ==>
        transfers == old(transfers) + [Transfer(old(nextTransferId), arg.fromAccountId, arg.toAccountId, arg.fromAmount, now)] &&
        entries == old(entries) + [Entry(old(nextEntryId), arg.fromAccountId, Neg64(arg.fromAmount), now),
                                   Entry(old(nextEntryId) + 1, arg.toAccountId, arg.toAmount, now)]
      ensures err.None? && arg.fromAccountId != arg.toAccountId ==>
        accounts == old(accounts)[arg.fromAccountId := old(accounts)[arg.fromAccountId].(balance := old(accounts)[arg.fromAccountId].balance + Neg64(arg.fromAmount))]
                                 [arg.toAccountId := old(accounts)[arg.toAccountId].(balance := old(accounts)[arg.toAccountId].balance + arg.toAmount)]
      ensures lockRequests == old(lockRequests) +
        (if faults.begin.Some? then [] else WorkLocks(old(Tables()), MovementOf(CrossCurrency(arg)), faults.statements))
      ensures old(Audited()) ==> Audited()
    {
      ghost var t0, tid, eid := Tables(), nextTransferId, nextEntryId;
      result, err := ExecTx(CrossCurrency(arg), now, faults);
      if err.None? {
        MovedBalances(t0, MovementOf(CrossCurrency(arg)), tid, eid, now);
      }
    }
  }
}
