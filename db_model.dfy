// Rows of the ledger's three tables and the pure rules that govern them:
// the double-entry audit sum, the lock order, and what one transfer
// transaction writes when it succeeds.

module DbModel {
  import opened Base

  /** A row of `accounts`. Balances are minor currency units. */
  datatype Account = Account(id: int, owner: string, balance: int, currency: string, createdAt: int)

  /** A row of `entries`: a signed change to one account's balance. */
  datatype Entry = Entry(id: int, accountId: int, amount: int, createdAt: int)

  /** A row of `transfers`. */
  datatype Transfer = Transfer(id: int, fromAccountId: int, toAccountId: int, amount: int, createdAt: int)

  /** Go's zero values, which the queries return alongside an error. */
  const ZeroAccount: Account := Account(0, "", 0, "", 0)
  const ZeroEntry: Entry := Entry(0, 0, 0, 0)
  const ZeroTransfer: Transfer := Transfer(0, 0, 0, 0, 0)

  /** The errors the store can report. */
  datatype Error =
    | NoRows                                  // sql.ErrNoRows: the row does not exist
    | ForeignKeyViolation                     // a row names, or is named by, a missing/remaining account
    | NumericOutOfRange                       // a bigint balance would leave the int64 range
    | InvalidParameter                        // a negative LIMIT or OFFSET
    | DbFailure(code: nat)                    // any other failure the database or driver reports
    | RollbackFailed(txErr: Error, rbErr: Error)  // "tx err: ..., rb err: ...": both causes kept

  /** The contents of the three tables. */
  datatype Tables = Tables(accounts: map<int, Account>, entries: seq<Entry>, transfers: seq<Transfer>)

  datatype TransferTxParams = TransferTxParams(fromAccountId: int64, toAccountId: int64, amount: int64)

  /** The cross-currency variant: the source is debited `fromAmount`, the destination credited `toAmount`. */
  datatype TransferTxFXParams = TransferTxFXParams(fromAccountId: int64, toAccountId: int64, fromAmount: int64, toAmount: int64)

  datatype TransferTxResult = TransferTxResult(
    transfer: Transfer, fromAccount: Account, toAccount: Account, fromEntry: Entry, toEntry: Entry)

  const ZeroResult: TransferTxResult :=
    TransferTxResult(ZeroTransfer, ZeroAccount, ZeroAccount, ZeroEntry, ZeroEntry)

  /** The units of work handed to the transaction executor (its closures, as data). */
  datatype UnitOfWork = SameCurrency(arg: TransferTxParams) | CrossCurrency(fx: TransferTxFXParams)

  /**
   * What a unit of work writes: a transfer row carrying `recorded`, a `debit`
   * entry and balance change on the source, a `credit` entry and balance
   * change on the destination.
   */
  datatype Movement = Movement(fromId: int, toId: int, recorded: int, debit: int, credit: int)

  function MovementOf(w: UnitOfWork): (m: Movement)
    ensures m.fromId == (if w.SameCurrency? then w.arg.fromAccountId else w.fx.fromAccountId)
    ensures m.toId == (if w.SameCurrency? then w.arg.toAccountId else w.fx.toAccountId)
    ensures w.SameCurrency? ==> m.recorded == m.credit == w.arg.amount
    ensures w.SameCurrency? && w.arg.amount != MinInt64 ==> m.debit == -m.credit
    ensures w.CrossCurrency? ==> m.recorded == w.fx.fromAmount && m.credit == w.fx.toAmount
    ensures w.CrossCurrency? && w.fx.fromAmount != MinInt64 ==> m.debit == -w.fx.fromAmount
  {
    match w
    case SameCurrency(a) => Movement(a.fromAccountId, a.toAccountId, a.amount, Neg64(a.amount), a.amount)
    case CrossCurrency(x) => Movement(x.fromAccountId, x.toAccountId, x.fromAmount, Neg64(x.fromAmount), x.toAmount)
  }

  /** The statements of a transfer transaction, in the order they are issued. */
  datatype Step = InsertTransfer | InsertFromEntry | InsertToEntry | FirstUpdate | SecondUpdate

  /**
   * Failures the database reports during one execTx call: when beginning the
   * transaction, on given statements, on rollback, and on commit.
   */
  datatype TxFaults = TxFaults(
    begin: Option<Error>, statements: map<Step, Error>, rollback: Option<Error>, commit: Option<Error>)

  function FaultAt(statements: map<Step, Error>, s: Step): Option<Error>
  {
    if s in statements then Some(statements[s]) else None
  }

  // ---------------------------------------------------------------- audit sum

  /** The sum of the entry amounts recorded against account `id`. */
  function SumEntries(entries: seq<Entry>, id: int): int
  {
    if entries == [] then 0
    else (if entries[0].accountId == id then entries[0].amount else 0) + SumEntries(entries[1..], id)
  }

  lemma {:induction false} SumEntriesAppend(entries: seq<Entry>, more: seq<Entry>, id: int)
    ensures SumEntries(entries + more, id) == SumEntries(entries, id) + SumEntries(more, id)
  {
    if entries == [] {
      assert entries + more == more;
    } else {
      assert (entries + more)[1..] == entries[1..] + more;
      SumEntriesAppend(entries[1..], more, id);
    }
  }

  /** An account no entry names has an entry sum of zero. */
  lemma {:induction false} SumEntriesAbsent(entries: seq<Entry>, id: int)
    requires forall i :: 0 <= i < |entries| ==> entries[i].accountId != id
    ensures SumEntries(entries, id) == 0
  {
    if entries != [] {
      SumEntriesAbsent(entries[1..], id);
    }
  }

  /**
   * The ledger's consistency invariant: every account's balance is its
   * opening balance plus the sum of its entries.
   */
  ghost predicate Audited(accounts: map<int, Account>, entries: seq<Entry>, opening: map<int, int>)
  {
    forall id :: id in accounts ==> id in opening && accounts[id].balance == opening[id] + SumEntries(entries, id)
  }

  // ------------------------------------------------------------- lock order

  /** addAccountsForUpdate's swap: the smaller id is locked first. */
  function LockOrder(id1: int, id2: int): (r: (int, int))
    ensures r.0 <= r.1
    ensures (r.0 == id1 && r.1 == id2) || (r.0 == id2 && r.1 == id1)
  {
    if id1 > id2 then (id2, id1) else (id1, id2)
  }

  /** The order does not depend on which account is the source. */
  lemma LockOrderSymmetric(id1: int, id2: int)
    ensures LockOrder(id1, id2) == LockOrder(id2, id1)
  {
  }

  /** The row a transaction locks first, and the row it locks second. */
  function FirstLock(pair: (int, int)): int { LockOrder(pair.0, pair.1).0 }
  function SecondLock(pair: (int, int)): int { LockOrder(pair.0, pair.1).1 }

  /** The successor of transaction i in a ring of n. */
  function Next(i: nat, n: nat): nat { if i + 1 == n then 0 else i + 1 }

  /**
   * Transactions `pairs[0..n)` each hold the first row of their lock order
   * and wait for the second, which transaction i+1 (cyclically) holds.
   */
  ghost predicate CircularWait(pairs: seq<(int, int)>)
  {
    |pairs| >= 1 &&
    forall i :: 0 <= i < |pairs| ==> Next(i, |pairs|) < |pairs| && SecondLock(pairs[i]) == FirstLock(pairs[Next(i, |pairs|)])
  }

  /**
   * Transactions `pairs[0..k]` form a chain of waits: each transaction
   * i < k waits for the row that transaction i+1 locked first.
   */
  ghost predicate WaitChain(pairs: seq<(int, int)>, k: nat)
  {
    k < |pairs| && forall i :: 0 <= i < k ==> SecondLock(pairs[i]) == FirstLock(pairs[i + 1])
  }

  /**
   * Along a chain of waiting transactions, each locking two distinct rows,
   * the row locked first strictly increases from link to link.
   */
  lemma {:induction false} WaitChainIncreases(pairs: seq<(int, int)>, k: nat)
    requires WaitChain(pairs, k)
    requires forall i :: 0 <= i <= k ==> pairs[i].0 != pairs[i].1
    ensures FirstLock(pairs[k]) >= FirstLock(pairs[0]) + k
    ensures SecondLock(pairs[k]) > FirstLock(pairs[0]) + k
  {
    if k > 0 {
      assert WaitChain(pairs, k - 1);
      WaitChainIncreases(pairs, k - 1);
      assert SecondLock(pairs[k - 1]) == FirstLock(pairs[k]);
    }
  }

  /**
   * No deadlock: transactions that each lock two distinct rows in LockOrder
   * can never wait on each other in a cycle, whatever their directions.
   */
  lemma NoCircularWait(pairs: seq<(int, int)>)
    requires forall i :: 0 <= i < |pairs| ==> pairs[i].0 != pairs[i].1
    ensures !CircularWait(pairs)
  {
    if CircularWait(pairs) {
      var last := |pairs| - 1;
      assert SecondLock(pairs[last]) == FirstLock(pairs[0]) by {
        assert Next(last, |pairs|) == 0;
      }
      forall i | 0 <= i < last ensures SecondLock(pairs[i]) == FirstLock(pairs[i + 1]) {
        assert Next(i, |pairs|) == i + 1;
      }
      assert WaitChain(pairs, last);
      WaitChainIncreases(pairs, last);
      assert false;
    }
  }

  // -------------------------------------------------- one transfer transaction

  /**
   * The balance updates a movement issues, as (account, delta), in issue
   * order: always the lower account id first, whatever the direction.
   */
  function Updates(m: Movement): (u: seq<(int, int)>)
    ensures |u| == 2
    ensures u[0].0 == LockOrder(m.fromId, m.toId).0 && u[1].0 == LockOrder(m.fromId, m.toId).1
    ensures forall i :: 0 <= i < 2 ==> (u[i].0 == m.fromId && u[i].1 == m.debit) || (u[i].0 == m.toId && u[i].1 == m.credit)
    ensures u[0] != u[1] || (m.fromId == m.toId && m.debit == m.credit)
  {
    if m.fromId < m.toId then [(m.fromId, m.debit), (m.toId, m.credit)]
    else [(m.toId, m.credit), (m.fromId, m.debit)]
  }

  /** UpdateAccountBalance's effect: `balance = balance + delta` on one row. */
  function AddToBalance(accounts: map<int, Account>, id: int, delta: int): (r: map<int, Account>)
    requires id in accounts
    ensures r.Keys == accounts.Keys
    ensures r[id] == accounts[id].(balance := accounts[id].balance + delta)
    ensures forall k :: k in accounts && k != id ==> r[k] == accounts[k]
  {
    accounts[id := accounts[id].(balance := accounts[id].balance + delta)]
  }

  /** The error UpdateAccountBalance reports, if any. */
  function UpdateError(accounts: map<int, Account>, id: int, delta: int, fault: Option<Error>): (e: Option<Error>)
    ensures e.None? <==> fault.None? && id in accounts && InInt64(accounts[id].balance + delta)
  {
    if fault.Some? then fault
    else if id !in accounts then Some(NoRows)
    else if !InInt64(accounts[id].balance + delta) then Some(NumericOutOfRange)
    else None
  }

  /** The error of the two balance updates, if any: the first update's, else the second's. */
  function UpdatesError(accounts: map<int, Account>, m: Movement, st: map<Step, Error>): Option<Error>
    requires m.fromId in accounts && m.toId in accounts
  {
    var u := Updates(m);
    var first := UpdateError(accounts, u[0].0, u[0].1, FaultAt(st, FirstUpdate));
    if first.Some? then first
    else UpdateError(AddToBalance(accounts, u[0].0, u[0].1), u[1].0, u[1].1, FaultAt(st, SecondUpdate))
  }

  /**
   * The error that ends a movement's unit of work: that of the first
   * statement that fails. Inserting the transfer row fails on a missing
   * account (foreign key), so the entries and updates then never run.
   */
  function WorkError(t: Tables, m: Movement, st: map<Step, Error>): (e: Option<Error>)
    ensures InsertFromEntry in st || InsertToEntry in st || FirstUpdate in st || SecondUpdate in st ==> e.Some?
    ensures m.fromId !in t.accounts || m.toId !in t.accounts ==> e.Some?
    ensures InsertTransfer in st ==> e == Some(st[InsertTransfer])
  {
    if InsertTransfer in st then Some(st[InsertTransfer])
    else if m.fromId !in t.accounts || m.toId !in t.accounts then Some(ForeignKeyViolation)
    else if InsertFromEntry in st then Some(st[InsertFromEntry])
    else if InsertToEntry in st then Some(st[InsertToEntry])
    else UpdatesError(t.accounts, m, st)
  }

  /**
   * The rows whose locks a movement's unit of work asks for, in order. The
   * inserts take no account lock, so a unit of work that stops at an insert
   * asks for none; each balance update asks for its row's lock before it can
   * fail, so one that stops at the first update asks for that row only.
   */
  function WorkLocks(t: Tables, m: Movement, st: map<Step, Error>): (locks: seq<int>)
    ensures locks <= [LockOrder(m.fromId, m.toId).0, LockOrder(m.fromId, m.toId).1]
    ensures WorkError(t, m, st).None? ==> locks == [LockOrder(m.fromId, m.toId).0, LockOrder(m.fromId, m.toId).1]
    ensures |locks| < 2 ==> WorkError(t, m, st).Some?
    ensures locks == [] <==>
      InsertTransfer in st || m.fromId !in t.accounts || m.toId !in t.accounts ||
      InsertFromEntry in st || InsertToEntry in st
  {
    if InsertTransfer in st || m.fromId !in t.accounts || m.toId !in t.accounts ||
       InsertFromEntry in st || InsertToEntry in st then []
    else
      var u := Updates(m);
      if UpdateError(t.accounts, u[0].0, u[0].1, FaultAt(st, FirstUpdate)).Some? then [u[0].0]
      else [u[0].0, u[1].0]
  }

  /** The accounts after both balance updates of a movement. */
  function MovedAccounts(accounts: map<int, Account>, m: Movement): map<int, Account>
    requires m.fromId in accounts && m.toId in accounts
  {
    var u := Updates(m);
    AddToBalance(AddToBalance(accounts, u[0].0, u[0].1), u[1].0, u[1].1)
  }

  /** The tables after a movement's unit of work ran to the end. */
  function Moved(t: Tables, m: Movement, transferId: int, entryId: int, now: int): Tables
    requires m.fromId in t.accounts && m.toId in t.accounts
  {
    Tables(MovedAccounts(t.accounts, m),
           t.entries + [Entry(entryId, m.fromId, m.debit, now), Entry(entryId + 1, m.toId, m.credit, now)],
           t.transfers + [Transfer(transferId, m.fromId, m.toId, m.recorded, now)])
  }

  /**
   * The two account rows the updates return. Each is the row returned by its
   * own update; on a self-transfer the destination row is the one returned
   * by the first update, before the debit.
   */
  function MovedRows(accounts: map<int, Account>, m: Movement): (Account, Account)
    requires m.fromId in accounts && m.toId in accounts
  {
    var after := MovedAccounts(accounts, m);
    (after[m.fromId], if m.fromId < m.toId then after[m.toId] else AddToBalance(accounts, m.toId, m.credit)[m.toId])
  }

  /** The result the unit of work fills in when it runs to the end. */
  function MovedResult(t: Tables, m: Movement, transferId: int, entryId: int, now: int): TransferTxResult
    requires m.fromId in t.accounts && m.toId in t.accounts
  {
    var rows := MovedRows(t.accounts, m);
    TransferTxResult(
      Transfer(transferId, m.fromId, m.toId, m.recorded, now), rows.0, rows.1,
      Entry(entryId, m.fromId, m.debit, now), Entry(entryId + 1, m.toId, m.credit, now))
  }

  /**
   * The error execTx returns: begin's; else, when the unit of work failed,
   * its error, or both its error and rollback's when rolling back fails too;
   * else commit's.
   */
  function TxOutcome(faults: TxFaults, workErr: Option<Error>): (err: Option<Error>)
    ensures err.None? <==> faults.begin.None? && workErr.None? && faults.commit.None?
    ensures faults.begin.None? && workErr.Some? && faults.rollback.None? ==> err == workErr
    ensures faults.begin.None? && workErr.Some? && faults.rollback.Some? ==>
              err == Some(RollbackFailed(workErr.value, faults.rollback.value))
  {
    if faults.begin.Some? then faults.begin
    else if workErr.Some? then
      (if faults.rollback.Some? then Some(RollbackFailed(workErr.value, faults.rollback.value)) else workErr)
    else faults.commit
  }

  /** Neither balance update of the movement leaves the int64 range. */
  predicate BalancesFit(accounts: map<int, Account>, m: Movement)
    requires m.fromId in accounts && m.toId in accounts
  {
    var u := Updates(m);
    InInt64(accounts[u[0].0].balance + u[0].1) &&
    InInt64(AddToBalance(accounts, u[0].0, u[0].1)[u[1].0].balance + u[1].1)
  }

  /**
   * A unit of work succeeds exactly when no statement faults, both accounts
   * exist and neither balance overflows.
   */
  lemma WorkSucceedsIff(t: Tables, m: Movement, st: map<Step, Error>)
    ensures WorkError(t, m, st).None? <==>
      InsertTransfer !in st && InsertFromEntry !in st && InsertToEntry !in st &&
      FirstUpdate !in st && SecondUpdate !in st &&
      m.fromId in t.accounts && m.toId in t.accounts && BalancesFit(t.accounts, m)
  {
  }

  /**
   * The balance changes of a completed movement: the source moves by the
   * debit and the destination by the credit (both, on a self-transfer); no
   * other account changes, and no account changes anything but its balance.
   */
  lemma MovedBalances(t: Tables, m: Movement, transferId: int, entryId: int, now: int)
    requires m.fromId in t.accounts && m.toId in t.accounts
    ensures var a := Moved(t, m, transferId, entryId, now).accounts;
      a.Keys == t.accounts.Keys &&
      (forall k :: k in a ==> a[k] == t.accounts[k].(balance := a[k].balance)) &&
      (forall k :: k in a && k != m.fromId && k != m.toId ==> a[k] == t.accounts[k]) &&
      (m.fromId != m.toId ==>
         a[m.fromId].balance == t.accounts[m.fromId].balance + m.debit &&
         a[m.toId].balance == t.accounts[m.toId].balance + m.credit) &&
      (m.fromId == m.toId ==> a[m.fromId].balance == t.accounts[m.fromId].balance + m.debit + m.credit)
  {
  }

  /**
   * Conservation: a same-currency transfer of a representable amount leaves
   * the two balances' sum unchanged, its two entries sum to zero, and a
   * self-transfer leaves the balance as it was.
   */
  lemma TransferConservesMoney(t: Tables, arg: TransferTxParams, transferId: int, entryId: int, now: int)
    requires arg.amount != MinInt64
    requires arg.fromAccountId in t.accounts && arg.toAccountId in t.accounts
    ensures var m := MovementOf(SameCurrency(arg));
      var t' := Moved(t, m, transferId, entryId, now);
      var f, d := arg.fromAccountId, arg.toAccountId;
      t'.accounts[f].balance + t'.accounts[d].balance == t.accounts[f].balance + t.accounts[d].balance &&
      t'.entries[|t.entries|].amount + t'.entries[|t.entries| + 1].amount == 0 &&
      (f != d ==> t'.accounts[f].balance == t.accounts[f].balance - arg.amount &&
                  t'.accounts[d].balance == t.accounts[d].balance + arg.amount) &&
      (f == d ==> t'.accounts[f].balance == t.accounts[f].balance)
  {
    MovedBalances(t, MovementOf(SameCurrency(arg)), transferId, entryId, now);
  }

  /**
   * What a completed same-currency transfer leaves behind: one transfer row
   * and the two entries appended, the source moved by -amount and the
   * destination by +amount (a self-transfer by neither), and a result that
   * holds the new rows.
   */
  lemma TransferTxWrites(t: Tables, arg: TransferTxParams, transferId: int, entryId: int, now: int)
    requires arg.fromAccountId in t.accounts && arg.toAccountId in t.accounts
    requires InInt64(t.accounts[arg.toAccountId].balance) && BalancesFit(t.accounts, MovementOf(SameCurrency(arg)))
    ensures var m := MovementOf(SameCurrency(arg));
      var t', r := Moved(t, m, transferId, entryId, now), MovedResult(t, m, transferId, entryId, now);
      var f, d := arg.fromAccountId, arg.toAccountId;
      t'.transfers == t.transfers + [Transfer(transferId, f, d, arg.amount, now)] &&
      t'.entries == t.entries + [Entry(entryId, f, Neg64(arg.amount), now), Entry(entryId + 1, d, arg.amount, now)] &&
      r.transfer == Transfer(transferId, f, d, arg.amount, now) &&
      r.fromEntry == Entry(entryId, f, Neg64(arg.amount), now) && r.toEntry == Entry(entryId + 1, d, arg.amount, now) &&
      r.fromAccount == t'.accounts[f] &&
      (f != d ==>
         t'.accounts == t.accounts[f := t.accounts[f].(balance := t.accounts[f].balance + Neg64(arg.amount))]
                                  [d := t.accounts[d].(balance := t.accounts[d].balance + arg.amount)] &&
         r.toAccount == t'.accounts[d]) &&
      (f == d ==> t'.accounts == t.accounts && r.toAccount.balance == t.accounts[d].balance + arg.amount)
  {
    var m := MovementOf(SameCurrency(arg));
    var f, d := arg.fromAccountId, arg.toAccountId;
    MovedBalances(t, m, transferId, entryId, now);
    if f == d {
      assert arg.amount != MinInt64;
      var a := Moved(t, m, transferId, entryId, now).accounts;
      assert a[f] == t.accounts[f];
    }
  }

  /** The entry sum of the two entries a movement adds. */
  lemma SumOfPair(e1: Entry, e2: Entry, id: int)
    ensures SumEntries([e1, e2], id) == (if e1.accountId == id then e1.amount else 0) + (if e2.accountId == id then e2.amount else 0)
  {
    assert [e1, e2][1..] == [e2];
    assert [e2][1..] == [];
    assert SumEntries([e2], id) == (if e2.accountId == id then e2.amount else 0) + SumEntries([], id);
  }

  /**
   * The audit invariant survives a completed movement: the entries it
   * appends pair exactly with the balance changes it applies.
   */
  lemma {:induction false} MovedKeepsAudit(t: Tables, m: Movement, transferId: int, entryId: int, now: int, opening: map<int, int>)
    requires m.fromId in t.accounts && m.toId in t.accounts
    requires Audited(t.accounts, t.entries, opening)
    ensures var t' := Moved(t, m, transferId, entryId, now); Audited(t'.accounts, t'.entries, opening)
  {
    var t' := Moved(t, m, transferId, entryId, now);
    var added := [Entry(entryId, m.fromId, m.debit, now), Entry(entryId + 1, m.toId, m.credit, now)];
    assert t'.entries == t.entries + added;
    MovedBalances(t, m, transferId, entryId, now);
    forall id | id in t'.accounts
      ensures id in opening && t'.accounts[id].balance == opening[id] + SumEntries(t'.entries, id)
    {
      SumEntriesAppend(t.entries, added, id);
      SumOfPair(added[0], added[1], id);
    }
  }

  /**
   * Account 1 holds 1000 and account 2 holds 500 in the same currency;
   * moving 150 from 1 to 2 records the transfer, entries -150 and +150, and
   * leaves 850 and 650.
   */
  lemma ConcreteTransferScenario()
    ensures var a := Account(1, "alice", 1000, "USD", 0);
      var b := Account(2, "bob", 500, "USD", 0);
      var t := Tables(map[1 := a, 2 := b], [], []);
      var m := MovementOf(SameCurrency(TransferTxParams(1, 2, 150)));
      WorkError(t, m, map[]) == None &&
      Moved(t, m, 1, 1, 7) ==
        Tables(map[1 := a.(balance := 850), 2 := b.(balance := 650)],
               [Entry(1, 1, -150, 7), Entry(2, 2, 150, 7)],
               [Transfer(1, 1, 2, 150, 7)])
  {
  }
}
