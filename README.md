# SimpleBank ledger core in Dafny

SimpleBank is a small bank service. Users own accounts, each holding a single
currency. Money moves between accounts through transfers. Each transfer is
recorded as one transfer row plus two signed entries (a debit on the source,
a credit on the destination), all written in one database transaction. This
project models the core of that service and proves properties of the model:

- **The transaction executor and the transfer transaction** (`DbStore`,
  `DbModel`). The accounts, entries and transfers tables are the mutable
  fields of a `Store` class. `execTx` begins a transaction, runs a unit of
  work, and either rolls back to the pre-call snapshot or commits.
  `TransferTx` inserts the transfer and its two entries, then applies the two
  balance increments, lower account id first. `TransferTxFX` does the same
  for accounts in different currencies.
- **The account table's contract**, as the store tests assert it: create,
  get, absolute update, delete and list.
- **The lock-ordering rule** (`addAccountsForUpdate`, `getAccountForUpdate`).
  Every transaction asks for its row locks in ascending id order. A lemma
  shows that such transactions can never wait on each other in a cycle.
- **The request rules of the HTTP handlers** (`TransferApi`, `DepositApi`,
  `HistoryApi`, `AuthMiddleware`, `Currency`). Each decision cascade is a pure
  plan function. A handler method carries the plan out against the store.
  The transfer-history handler keeps its own imperative shape: cache and
  merge loops over maps, a filter over the merged map, an in-place sort, and
  pagination.

Database failures are inputs. Each statement receives an optional error, and
`TxFaults` says which steps of a transaction fail (begin, each statement,
rollback, commit). Every error path is modelled alongside the success path.

Three behaviours of the code are worth stating outright:

- On failure, `TransferTx` returns the partly filled result together with the
  error. The model's contracts constrain the result only on success.
- A failed commit returns the commit's error alone. Only a failed rollback
  combines two errors (`RollbackFailed`).
- `deposit` increments a balance without writing an entry, and
  `UpdateAccount` sets a balance outright. Both break the ledger's audit
  invariant (balance = opening balance + sum of entries), which
  `TransferTx`, `TransferTxFX`, `CreateAccount` and `DeleteAccount` keep.
  `DepositApi.Deposit` proves that a successful deposit breaks it.

## Model

| member | source | states |
|---|---|---|
| DbStore.Store.ExecTx | db/sqlc/store.go:33-59 | The error is begin's, else the unit of work's (combined with rollback's if rolling back fails), else commit's. On error the tables equal the pre-call snapshot. A failed begin runs nothing. On success the tables are the completed movement's. A failed begin gives the zero result. The lock requests are those of the statements that ran, none when begin fails. The audit invariant is preserved. |
| DbModel.TxOutcome | db/sqlc/store.go:44-58 | Success iff begin, the unit of work and commit all succeed. A failed unit of work returns its error unchanged when rollback succeeds, and both errors when it fails. |
| DbStore.Store.TransferTx | db/sqlc/store.go:125-205 | On error nothing changes. On success: exactly one transfer row (from, to, amount), entries -amount and +amount, source down and destination up by amount, no other account touched, the two balances' sum conserved, a self-transfer leaving the balance as it was, and the result holding exactly the new transfer, the two new entries and both updated rows. The lock requests are exactly those of the statements that ran (`DbModel.WorkLocks`). The audit invariant is preserved. |
| DbStore.Store.RunWork | db/sqlc/store.go:130-202 | The error is that of the first failing statement, and later statements do not run. On success the tables and the result are the completed movement's. The lock requests are exactly `DbModel.WorkLocks`: none when an insert or an account check fails, the lower id alone when the first increment fails, both in ascending order otherwise. |
| DbStore.Store.ApplyUpdates | db/sqlc/store.go:164-199 | The two balance increments go lower id first. The error is the first update's, else the second's. The lock log gains the lower id, and the higher id too unless the first increment fails. On success each account moves by its delta and the returned rows are the updated ones. |
| DbModel.Updates | db/sqlc/store.go:164-199 | The updates are issued in ascending account-id order whatever the transfer direction. Each one is the source's debit or the destination's credit. |
| DbModel.MovementOf | db/sqlc/store.go:135-157 | The transfer records the amount unchanged and the credit is +amount. The debit is -amount, in int64 arithmetic. |
| Base.Neg64 | db/sqlc/store.go:148 | Go's int64 negation: -x, except that the most negative value is its own negation. |
| DbModel.AddToBalance | db/sqlc/store.go:166-169 | `balance = balance + delta` on one row. The other rows and the other fields are unchanged. |
| DbModel.UpdateError | db/sqlc/store.go:166-172 | An increment succeeds iff there is no fault, the row exists and the new balance fits a bigint. |
| DbStore.Store.AddAccountBalance | db/sqlc/store.go:166-179 | The row's lock is requested and the increment is applied, or nothing changes and the error is returned. |
| DbStore.Store.CreateTransfer | db/sqlc/store.go:135-142 | Appends a transfer row with a fresh id, or fails on a missing account (foreign key) or a fault and changes nothing. |
| DbStore.Store.CreateEntry | db/sqlc/store.go:146-160 | Appends an entry with a fresh id, or fails on a missing account or a fault and changes nothing. |
| DbModel.WorkError | db/sqlc/store.go:130-202 | A faulting insert, a faulting increment or a missing account makes the unit of work fail. A faulting transfer insert fails it with that insert's own error. |
| DbModel.WorkLocks | db/sqlc/store.go:130-202 | The locks requested are a prefix of [min, max]: all of it on success, and none exactly when an insert faults or an account is missing. Fewer than two locks means the unit of work failed. |
| DbModel.TransferTxWrites | db/sqlc/store.go:125-205 | A completed transfer appends one transfer row (from, to, amount, now) and the entries -amount and +amount under consecutive fresh ids. The result's account rows are the updated table rows. A self-transfer leaves the accounts unchanged and reports the balance plus the amount. |
| DbModel.WorkSucceedsIff | db/sqlc/store.go:130-202 | A unit of work succeeds iff no statement faults, both accounts exist and neither balance overflows. |
| DbModel.MovedBalances | db/sqlc/store.go:164-199 | After a movement the source changes by the debit and the destination by the credit (a self-transfer by both). No other account changes, and no field other than the balance changes. |
| DbModel.TransferConservesMoney | db/sqlc/store.go:146-199 | For a representable amount, the two entries sum to zero, the two balances' sum is conserved, and a self-transfer nets to zero. |
| DbModel.SumEntriesAppend | db/sqlc/store.go:146-160 | An account's entry sum over appended entries is the sum of the parts. |
| DbModel.SumEntriesAbsent | db/sqlc/account_test.go:39-48 | An account that no entry names (a newly created one) has an entry sum of zero, so its balance is its opening balance. |
| DbModel.SumOfPair | db/sqlc/store.go:146-160 | The entry sum of the two new entries, for any account. |
| DbModel.MovedKeepsAudit | db/sqlc/store.go:146-199 | A completed movement keeps balance = opening + sum of entries for every account. |
| DbModel.ConcreteTransferScenario | db/sqlc/store.go:125-205 | 1000 and 500, with 150 moved, become 850 and 650, with entries -150 and +150 and one transfer row. |
| DbModel.LockOrder | db/sqlc/store.go:83-85 | The swap yields (min, max) of the two ids. |
| DbModel.LockOrderSymmetric | db/sqlc/store.go:83-85 | The lock order does not depend on the transfer direction. |
| DbModel.WaitChainIncreases | db/sqlc/store.go:162-199 | Along an open chain of k waits between transactions that lock distinct rows in ascending order, the last transaction's first lock is at least k above the first one's, and its second lock is above that. |
| DbModel.NoCircularWait | db/sqlc/store.go:162-199 | Transactions that lock two distinct rows in ascending order can never wait on each other in a cycle, so there is no deadlock. |
| DbStore.Store.GetAccountForUpdate | db/sqlc/store.go:99-121 | Requests the row's lock and returns what a plain read returns. |
| DbStore.Store.AddAccountsForUpdate | db/sqlc/store.go:81-95 | The smaller id is locked first. When the first read fails, the second lock is never requested. Both rows are returned otherwise. |
| DbStore.Store.TransferTxFX | api/transfer.go:103-109 | Same contract as TransferTx, with the source debited fromAmount (the amount the transfer records) and the destination credited toAmount. |
| DbStore.Store.CreateAccount | db/sqlc/account_test.go:39-48 | The new row has the requested owner, balance and currency, and a fresh nonzero id. No other row changes and the audit invariant is kept. |
| DbStore.Store.GetAccount | db/sqlc/account_test.go:57-67 | Reading an existing id returns its row, with the same id. A missing id gives NoRows and an empty account. |
| DbStore.Store.UpdateAccount | db/sqlc/account_test.go:70-86 | Sets the balance absolutely and keeps id, owner and currency. A missing row gives NoRows. |
| DbStore.Store.DeleteAccount | db/sqlc/account_test.go:89-97 | Removes the row unless entries or transfers still name it (foreign key). Afterwards GetAccount gives NoRows and an empty account. The audit invariant is kept. |
| DbStore.Store.ListAccounts | db/sqlc/account_test.go:106-113 | Fails only on a fault or a negative limit or offset, and then lists nothing. |
| DbStore.Store.ListAccountsContract | db/sqlc/account_test.go:100-117 | A listing holds at most `limit` current rows of the owner, in ascending id order, none of them empty. With offset 0 and at least one account, it is non-empty. |
| DbStore.OrderedAccountsSpec | db/sqlc/account_test.go:106-117 | The ordered selection holds exactly the owner's rows, each once, in ascending id order. |
| DbStore.Window | db/sqlc/account_test.go:106-109 | LIMIT/OFFSET: at most `limit` rows from `offset` on, and none when the offset is at or past the end. |
| DbStore.Store.ListTransfers | api/transfer_history.go:68-73 | Fails only on a fault or a negative limit or offset, and then lists nothing. |
| DbStore.Store.ListTransfersContract | api/transfer_history.go:68-73 | A listing holds at most `limit` transfers of the table, each touching the account, in ascending id order. |
| DbStore.TransfersTouchingSpec | api/transfer_history.go:68-73 | The selection holds exactly the transfers from or to the account, in table (id) order. |
| Currency.IsSupportedCurrency | util/currency.go:8-14 | True exactly for "USD", "EUR" and "INR", by exact string equality. |
| Currency.ConvertibleIffSupported | util/fx.go:11-16 | A conversion succeeds iff both currencies have a rate, which is exactly when both are supported. |
| Currency.RoundDiv | util/fx.go:18 | Rounds to the nearest integer, within half a unit, with the sign kept. |
| Currency.ConvertAmount | util/fx.go:11-20 | A failed conversion returns 0. A successful one keeps the sign of the amount. |
| Currency.ConvertAmountNearest | util/fx.go:11-20 | A conversion is within half a unit of amount × rate(from) / rate(to), and a non-negative amount stays non-negative. |
| Currency.ConvertSameCurrency | util/fx.go:11-20 | Converting a currency to itself returns the amount unchanged. |
| TransferApi.ToInt64 | util/fx.go:18 | The float-to-int64 conversion keeps an in-range value. An out-of-range value becomes non-positive (the most negative int64). |
| TransferApi.PlanTransfer | api/transfer.go:30-109 | A request that is not rejected is valid, both account reads succeeded and the user owns the source. A same-currency dispatch moves exactly the requested positive amount. A cross-currency one debits that amount and credits a positive converted amount. |
| TransferApi.PlanTransferDispatch | api/transfer.go:30-109 | Money moves only for a valid request whose source the user owns, whose currency (when given) is the source's, whose destination exists, and whose recipient name (when given) is the destination's owner. Equal currencies dispatch the amount unchanged. Different ones dispatch (amount, positive conversion) or are rejected with 400. |
| TransferApi.SourceCheckedFirst | api/transfer.go:39-69 | A missing source gives 404 and a foreign source 401, whatever the destination read gives. |
| TransferApi.CreateTransfer | api/transfer.go:30-115 | A rejected plan answers its status and changes nothing. A dispatched one answers 200 with the transaction's result iff the transaction succeeds. Otherwise it answers 500 and the tables are unchanged. The audit invariant is kept. |
| DepositApi.PlanDeposit | api/deposit.go:18-50 | A credit goes only to an account that was read successfully and that the user owns, for the requested id and positive amount. A refusal is a 500 only when the read failed. |
| DepositApi.PlanDepositSpec | api/deposit.go:18-50 | Only the owner's existing account is credited, by the requested positive amount. A missing account gives 404 before ownership is checked. A foreign account gives 401. |
| DepositApi.Deposit | api/deposit.go:18-62 | A refused request changes nothing. A credited one raises exactly that balance by the amount, writes no entry and answers with the updated row. It then breaks the audit invariant. |
| HistoryApi.FetchSize | api/transfer_history.go:61-64 | The fetch size is at least 1 and fits int32. It equals page_id × page_size whenever that fits int32. |
| HistoryApi.CurrencyMap | api/transfer_history.go:53-58 | The currency cache's keys are exactly the user's account ids. |
| HistoryApi.CurrencyMapSound | api/transfer_history.go:53-58 | Each cached currency of a listed account is that account's own. |
| HistoryApi.IndexAccounts | api/transfer_history.go:53-58 | The loop builds exactly the currency cache and the owned-id set of the listed accounts. |
| HistoryApi.CachedIsResolved | api/transfer_history.go:85-101 | A currency found in the cache is the account's resolved currency. An owned account with no cached currency resolves to "". |
| HistoryApi.ResolveCurrency | api/transfer_history.go:85-101 | The resolved currency is the account's own when the account is the user's or its lookup succeeds, and "" otherwise. A lookup happens only on a cache miss, and only a successful lookup is cached. |
| HistoryApi.MergeTransfer | api/transfer_history.go:79-111 | An id already seen is skipped. Otherwise the item with resolved currencies is recorded. Cache soundness and the looked-up-once property are kept. |
| HistoryApi.MergeListing | api/transfer_history.go:79-112 | Merging one listing extends the first-occurrence merge by that listing. |
| HistoryApi.Dedup | api/transfer_history.go:79-112 | The first-occurrence merge never holds more items than there are fetched transfers. |
| HistoryApi.DedupTouches | api/transfer_history.go:115-125 | When every fetched transfer touches an owned account, so does every merged item. |
| HistoryApi.DedupKeepsFirst | api/transfer_history.go:80-83 | The merge has one item per occurring id, built from the first transfer with that id. |
| HistoryApi.DedupKeyedById | api/transfer_history.go:103-111 | Each merged item is stored under its own transfer id. |
| HistoryApi.FetchedBound | api/transfer_history.go:67-78 | Fetching at most `need` transfers per account yields at most need × (number of accounts) transfers. |
| HistoryApi.AnyFetchFailsIff | api/transfer_history.go:67-78 | Some fetch in the loop fails iff some listed account's id is a failing one. |
| HistoryApi.AnyFetchFailsExtends | api/transfer_history.go:67-78 | The loop's failure after one more account is its failure so far or that account's fault. |
| HistoryApi.FetchedStep | api/transfer_history.go:67-78 | Fetching one more account appends its listing. |
| HistoryApi.WindowTouches | api/transfer_history.go:68-73 | One account's fetch holds only table transfers touching that account. |
| HistoryApi.FetchedTouchesListed | api/transfer_history.go:67-78 | Everything fetched is a table transfer touching one of the user's accounts. |
| HistoryApi.FetchAccount | api/transfer_history.go:67-112 | Fails iff the i-th account's fetch faults. Otherwise the merged map becomes the first-occurrence merge of the fetches of accounts 0..i, with the cache kept sound and each currency looked up once. |
| HistoryApi.FetchAndMerge | api/transfer_history.go:66-113 | Fails iff some fetch in the loop faults (`AnyFetchFails`). Otherwise it yields the first-occurrence merge of all fetched transfers, with each currency looked up once. |
| HistoryApi.FilterKeepsAll | api/transfer_history.go:115-125 | The ownership filter drops nothing: every merged item touches an owned account. |
| HistoryApi.FilterOwned | api/transfer_history.go:115-125 | The result lists the merged items touching an owned account, each exactly once (as a multiset). |
| HistoryApi.SwapNeighbours | api/transfer_history.go:127-129 | A swap of neighbours changes only the order. |
| HistoryApi.InsertNewestFirst | api/transfer_history.go:127-129 | Inserting one item extends the newest-first prefix by one and only permutes the array. |
| HistoryApi.SortNewestFirst | api/transfer_history.go:127-129 | The in-place sort leaves created_at non-increasing and is a permutation. |
| HistoryApi.SortedHistory | api/transfer_history.go:115-129 | The items to show are newest first and are exactly the owned-touching merged items, each once. |
| HistoryApi.Page | api/transfer_history.go:131-141 | The page is exactly the LIMIT/OFFSET window of page_size items at offset (page_id - 1) × page_size. It never holds more than page_size items and is empty at or past the end. |
| HistoryApi.PageAsWritten | api/transfer_history.go:131-141 | The code's pagination answers 500 iff the int32 offset wraps negative. Otherwise it answers at most page_size items. |
| HistoryApi.PageLocatesItem | api/transfer_history.go:131-141 | Item k is on page k / page_size + 1, at position k mod page_size, so the pages cover the items in order. |
| HistoryApi.PageAsWrittenAgrees | api/transfer_history.go:131-141 | The code's page equals the intended page whenever the offset fits int32. |
| HistoryApi.OffsetOverflowCounterexample | api/transfer_history.go:131-141 | page_id 42949674 with page_size 50 is valid, but the int32 offset wraps to -2147483646 and the code answers 500 where the intended page is empty. |
| Base.Wrap32 | api/transfer_history.go:61 | int32 arithmetic: the result lies in the int32 range, is congruent to the exact value mod 2^32, and equals it when it fits. |
| HistoryApi.ListTransferHistory | api/transfer_history.go:33-142 | A bad query gives 400 and a failed account listing 500. Otherwise it answers 500 iff fetching some account's transfers fails, else a page of the newest-first list. That list holds exactly the merged transfers touching the user's first 1000 accounts, each once, with currencies resolved and each looked up once. |
| AuthMiddleware.WordLength | api/middleware.go:33 | The first run of non-space characters ends at a space or at the end. |
| AuthMiddleware.FieldsAreWords | api/middleware.go:33 | Every field is non-empty and space-free. |
| AuthMiddleware.WordOfPrefix | api/middleware.go:33 | Appending text that starts with a space does not lengthen the first word. |
| AuthMiddleware.Fields | api/middleware.go:33 | strings.Fields never yields more fields than there are characters. |
| AuthMiddleware.FieldsEmptyIff | api/middleware.go:33 | A header has no fields iff it is all spaces. |
| AuthMiddleware.FieldsAppendSpaced | api/middleware.go:33 | Text that begins with a space contributes its own fields after those of the text before it. |
| AuthMiddleware.FieldsAppendSpace | api/middleware.go:33 | Fields(a + " " + b) = Fields(a) + Fields(b). |
| AuthMiddleware.FieldsOfWord | api/middleware.go:33 | A word is its own single field. |
| AuthMiddleware.ToLowerAscii | api/middleware.go:42 | Lowering keeps the length and maps each ASCII capital to its small letter, leaving other characters as they are. |
| AuthMiddleware.Authorize | api/middleware.go:20-63 | Every abort is 401. Proceeding stores the payload under "authorization_payload". |
| AuthMiddleware.AuthorizeSpec | api/middleware.go:25-61 | Proceeds iff there are at least two fields, the first lowers to "bearer" and the second verifies, with that token's payload. Fewer fields abort as missing or malformed. |
| AuthMiddleware.ExtraFieldsIgnored | api/middleware.go:51 | Fields after the token do not change the outcome. |
| AuthMiddleware.BearerHeader | api/middleware.go:42-61 | "scheme token", with a bearer scheme, proceeds with the token's payload iff the token verifies, and aborts with 401 otherwise. |
| AuthMiddleware.SchemeCaseInsensitive | api/middleware.go:42-47 | Schemes that lower alike are treated alike. |

## Findings

| source | as written | input that shows it | evidently intended | confidence | as-written member | corrected member |
|---|---|---|---|---|---|---|
| api/transfer_history.go:131 | The offset (page_id - 1) * page_size is computed in int32, so it wraps. A negative offset then passes the `offset > len(items)` guard, the slice panics, and gin's recovery answers 500. | page_id = 42949674, page_size = 50 (a valid query): the offset wraps to -2147483646 | An empty page for any offset past the end | high (not executed) | HistoryApi.OffsetOverflowCounterexample | HistoryApi.Page |

`HistoryApi.PageAsWritten` models the code's pagination. `HistoryApi.Page`
computes the offset without wrap-around and is the one
`HistoryApi.ListTransferHistory` uses. The two agree whenever the offset fits
int32 (`HistoryApi.PageAsWrittenAgrees`).

## Left out

- Real concurrency: row locks, blocking, deadlock detection and context cancellation. The model records only the order in which row locks are requested (`lockRequests`) and proves that ascending order excludes circular waits.
- SQL text, `row.Scan`, connection handles and the generated query code. Each query is a `Store` operation whose effect is read from the account tests and the schema's foreign keys. The schema itself is not part of this model: entries and transfers must name existing accounts, and balances are bigint.
- The transfer listing's query text is not part of this model. It is taken to select transfers from or to the account, in ascending id order, with LIMIT and OFFSET. As a result, the model does not claim that a history page holds a user's newest transfers when an account has more transfers than the fetch size.
- Id sequences are not restored by a rollback (as in Postgres), so ids are fresh but not necessarily consecutive.
- DbStore.Store.TransferTx: the result returned with an error is left unconstrained. Go returns whatever the closure filled in before the failure.
- `TransferTxFX` is not defined in the source files of this model. It is modelled after `TransferTx`: fromAmount is debited and recorded on the transfer, and toAmount is credited. The float `Rate` it receives is not stored.
- Currency.ConvertAmount: the float64 rate and `math.Round` are replaced by exact rational arithmetic (amount × rate(from) / rate(to), halves rounded away from zero). Float rounding error and the returned `rate` value are not modelled.
- TransferApi.ToInt64: the out-of-range float-to-int64 conversion is taken to give the most negative int64, as on amd64. On arm64 Go saturates instead, so a huge conversion would reach `TransferTxFX` as a large positive toAmount rather than being rejected with 400.
- DbStore.Store.ListAccounts: the account test lists without setting an owner. The model reads a missing owner (`owner: None`) as "no owner filter", because the query text is not part of this model.
- AuthMiddleware.ToLowerAscii: only ASCII letters are lowered. No non-ASCII character lowers to a letter of "bearer", so the bearer check's verdict is unaffected.
- The token makers (JWT and PASETO) are a `verify` function parameter of `Authorize`. Signatures, expiry and payload fields other than the user name are not modelled.
- The history handler's currency lookups fail per account: a lookup of a failing id fails every time it is made. Clocks become an explicit `now` argument.
- Routing, configuration, the request validator's registration, JSON encoding and the account-lookup projection are not part of this model. Handler outcomes are `Response` values carrying a status or a body.
