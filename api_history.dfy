// GET /transfers: the authenticated user's transfer history. The transfers
// table records no owner, so the handler lists the user's accounts, fetches
// each account's transfers, merges them by id, keeps those touching an
// owned account, sorts them newest first and cuts out one page.

module HistoryApi {
  import opened Base
  import opened DbModel
  import opened DbStore
  import opened Http

  /** The query string, decoded into int32 fields. */
  datatype HistoryRequest = HistoryRequest(pageId: int, pageSize: int)

  /** The binding rules: int32 values, page_id at least 1, page_size in [1, 50]. */
  predicate ValidHistoryRequest(req: HistoryRequest)
  {
    MinInt32 <= req.pageId <= MaxInt32 && MinInt32 <= req.pageSize <= MaxInt32 &&
    req.pageId >= 1 && 1 <= req.pageSize <= 50
  }

  /** One line of the history: a transfer with the currencies of its two accounts. */
  datatype HistoryItem = HistoryItem(
    id: int, fromAccount: int, toAccount: int, amount: int,
    fromCurrency: string, toCurrency: string, createdAt: int)

  /** At most this many of the user's accounts are consulted. */
  const OwnedAccountsLimit: int := 1000

  /**
   * The per-account fetch size: page_id * page_size in int32 arithmetic,
   * raised to 1 when that is not positive. It is exactly the product
   * whenever the product fits an int32, and it always fits the int32 LIMIT.
   */
  function FetchSize(req: HistoryRequest): (n: int)
    ensures 1 <= n <= MaxInt32
    ensures 1 <= req.pageId * req.pageSize <= MaxInt32 ==> n == req.pageId * req.pageSize
  {
    var need := Wrap32(req.pageId * req.pageSize);
    if need < 1 then 1 else need
  }

  // ------------------------------------------------------------- currencies

  /** Go's map read: a missing key reads as the empty string. */
  function Get(m: map<int, string>, k: int): string
  {
    if k in m then m[k] else ""
  }

  /** The ids of the listed accounts. */
  function Ids(accounts: seq<Account>): set<int>
  {
    set a | a in accounts :: a.id
  }

  /** What the loop over the user's accounts leaves in the currency cache: the last row per id wins. */
  function CurrencyMap(accounts: seq<Account>): (m: map<int, string>)
    ensures m.Keys == Ids(accounts)
  {
    if accounts == [] then map[]
    else
      var last := accounts[|accounts| - 1];
      assert accounts == accounts[..|accounts| - 1] + [last];
      CurrencyMap(accounts[..|accounts| - 1])[last.id := last.currency]
  }

  /** Listed rows that are rows of the table leave their own currencies in the cache. */
  lemma {:induction false} CurrencyMapSound(accounts: seq<Account>, table: map<int, Account>)
    requires forall i :: 0 <= i < |accounts| ==> accounts[i].id in table && table[accounts[i].id] == accounts[i]
    ensures forall k :: k in CurrencyMap(accounts) ==> k in table && CurrencyMap(accounts)[k] == table[k].currency
  {
    if accounts != [] {
      var prefix := accounts[..|accounts| - 1];
      assert forall i :: 0 <= i < |prefix| ==> prefix[i] == accounts[i];
      CurrencyMapSound(prefix, table);
    }
  }

  /**
   * Where currencies come from: the accounts table, the ids of the user's
   * accounts (already in the cache) and the ids whose lookup fails.
   */
  datatype CurrencySource = CurrencySource(table: map<int, Account>, owned: set<int>, failing: set<int>)

  /**
   * The currency shown for an account: its own, when it is the user's or
   * its lookup succeeds; the empty string otherwise.
   */
  function Resolved(src: CurrencySource, id: int): string
  {
    if id in src.table && (id in src.owned || id !in src.failing) then src.table[id].currency else ""
  }

  /**
   * The cache only holds true currencies, of the user's accounts or of
   * accounts whose lookup succeeded, and it holds every one of the user's.
   */
  ghost predicate CacheSound(cache: map<int, string>, src: CurrencySource)
  {
    src.owned <= cache.Keys &&
    forall k :: k in cache ==>
      k in src.table && cache[k] == src.table[k].currency && (k in src.owned || k !in src.failing)
  }

  /** A currency the cache knows is the one the account resolves to. */
  lemma CachedIsResolved(cache: map<int, string>, src: CurrencySource, id: int)
    requires CacheSound(cache, src)
    ensures Get(cache, id) != "" ==> Get(cache, id) == Resolved(src, id)
    ensures Get(cache, id) == "" && id in src.owned ==> Resolved(src, id) == ""
  {
  }

  /** The item the handler builds for a transfer. */
  function ItemOf(t: Transfer, src: CurrencySource): HistoryItem
  {
    HistoryItem(t.id, t.fromAccountId, t.toAccountId, t.amount,
                Resolved(src, t.fromAccountId), Resolved(src, t.toAccountId), t.createdAt)
  }

  // ------------------------------------------------------------------ merge

  /** The merged items by transfer id: a later transfer with an id already seen is skipped. */
  function Dedup(ts: seq<Transfer>, src: CurrencySource): (r: map<int, HistoryItem>)
    ensures |r| <= |ts|
  {
    if ts == [] then map[]
    else
      var m := Dedup(ts[..|ts| - 1], src);
      var t := ts[|ts| - 1];
      if t.id in m then m else m[t.id := ItemOf(t, src)]
  }

  /**
   * The merge holds one item per transfer id that occurs, built from the
   * first transfer with that id.
   */
  lemma {:induction false} DedupKeepsFirst(ts: seq<Transfer>, src: CurrencySource)
    ensures var m := Dedup(ts, src);
      (forall i :: 0 <= i < |ts| ==> ts[i].id in m) &&
      (forall k :: k in m ==> exists i :: 0 <= i < |ts| && ts[i].id == k && m[k] == ItemOf(ts[i], src) &&
                                           forall j :: 0 <= j < i ==> ts[j].id != k)
  {
    if ts != [] {
      var prefix := ts[..|ts| - 1];
      DedupKeepsFirst(prefix, src);
      var m := Dedup(ts, src);
      var t := ts[|ts| - 1];
      forall i | 0 <= i < |ts| ensures ts[i].id in m {
        if i < |prefix| { assert ts[i] == prefix[i]; }
      }
      forall k | k in m
        ensures exists i :: 0 <= i < |ts| && ts[i].id == k && m[k] == ItemOf(ts[i], src) &&
                            forall j :: 0 <= j < i ==> ts[j].id != k
      {
        if k in Dedup(prefix, src) {
          var i :| 0 <= i < |prefix| && prefix[i].id == k && Dedup(prefix, src)[k] == ItemOf(prefix[i], src) &&
                   forall j :: 0 <= j < i ==> prefix[j].id != k;
          assert ts[i] == prefix[i];
          assert forall j :: 0 <= j < i ==> ts[j] == prefix[j];
        } else {
          assert k == t.id;
          forall j | 0 <= j < |ts| - 1 ensures ts[j].id != k {
            assert ts[j] == prefix[j];
          }
        }
      }
    }
  }

  /** Every merged item is keyed by its own id. */
  lemma {:induction false} DedupKeyedById(ts: seq<Transfer>, src: CurrencySource)
    ensures forall k :: k in Dedup(ts, src) ==> Dedup(ts, src)[k].id == k
  {
    if ts != [] {
      DedupKeyedById(ts[..|ts| - 1], src);
    }
  }

  // ------------------------------------------------------------- pagination

  /**
   * The page as written: the offset (page_id - 1) * page_size is computed
   * in int32 arithmetic; an offset past the end gives an empty page, and
   * slicing at a negative offset panics, which gin's recovery middleware
   * answers with 500.
   */
  function PageAsWritten<T>(items: seq<T>, pageId: int, pageSize: int): (r: Response<seq<T>>)
    requires pageSize >= 1
    ensures r.Fail? <==> Wrap32((pageId - 1) * pageSize) < 0
    ensures r.Fail? ==> r.status == InternalError
    ensures r.Ok? ==> |r.value| <= pageSize
  {
    var offset := Wrap32((pageId - 1) * pageSize);
    if offset > |items| then Ok([])
    else
      var end := if offset + pageSize > |items| then |items| else offset + pageSize;
      if offset < 0 then Fail(InternalError) else Ok(items[offset..end])
  }

  /**
   * The page as intended: the items from (page_id - 1) * page_size on, at
   * most page_size of them; an offset at or past the end gives none.
   */
  function Page<T>(items: seq<T>, pageId: int, pageSize: int): (r: seq<T>)
    requires pageId >= 1 && pageSize >= 1
    ensures |r| <= pageSize
    ensures r == Window(items, pageSize, (pageId - 1) * pageSize)
    ensures (pageId - 1) * pageSize >= |items| ==> r == []
  {
    var offset := (pageId - 1) * pageSize;
    if offset > |items| then []
    else
      var end := if offset + pageSize > |items| then |items| else offset + pageSize;
      items[offset..end]
  }

  /** Item k is on page k / page_size + 1, at position k % page_size: the pages cover the items in order. */
  lemma PageLocatesItem<T>(items: seq<T>, pageSize: int, k: int)
    requires pageSize >= 1 && 0 <= k < |items|
    ensures var p := Page(items, k / pageSize + 1, pageSize);
      k % pageSize < |p| && p[k % pageSize] == items[k]
  {
    var q := k / pageSize;
    assert (q + 1 - 1) * pageSize + k % pageSize == k;
  }

  /** Both agree whenever the offset fits an int32, which covers every page below 2^31 / page_size. */
  lemma PageAsWrittenAgrees<T>(items: seq<T>, pageId: int, pageSize: int)
    requires pageId >= 1 && pageSize >= 1 && (pageId - 1) * pageSize <= MaxInt32
    ensures PageAsWritten(items, pageId, pageSize) == Ok(Page(items, pageId, pageSize))
  {
    var offset := (pageId - 1) * pageSize;
    assert 0 <= offset <= MaxInt32;
    assert Wrap32(offset) == offset;
    var end := if offset + pageSize > |items| then |items| else offset + pageSize;
    assert PageAsWritten(items, pageId, pageSize) == if offset > |items| then Ok([]) else Ok(items[offset..end]);
  }

  /**
   * A valid request whose offset overflows: (42949674 - 1) * 50 wraps to
   * -2147483646, so the handler as written answers 500 where the intended
   * answer is an empty page.
   */
  lemma OffsetOverflowCounterexample<T>(items: seq<T>)
    requires |items| <= MaxInt32
    ensures ValidHistoryRequest(HistoryRequest(42949674, 50))
    ensures Wrap32((42949674 - 1) * 50) == -2147483646
    ensures PageAsWritten(items, 42949674, 50) == Fail(InternalError)
    ensures Page(items, 42949674, 50) == []
  {
  }

  // -------------------------------------------------------------- fetching

  /** The transfers fetched for the listed accounts, account after account, `need` per account. */
  function Fetched(accounts: seq<Account>, transfers: seq<Transfer>, need: nat): seq<Transfer>
  {
    if accounts == [] then []
    else Fetched(accounts[..|accounts| - 1], transfers, need) +
         Window(TransfersTouching(transfers, accounts[|accounts| - 1].id), need, 0)
  }

  /** At most `need` transfers are fetched per account. */
  lemma {:induction false} FetchedBound(accounts: seq<Account>, transfers: seq<Transfer>, need: nat)
    ensures |Fetched(accounts, transfers, need)| <= need * |accounts|
  {
    if accounts != [] {
      var prefix, n := accounts[..|accounts| - 1], |accounts| - 1;
      var w := Window(TransfersTouching(transfers, accounts[n].id), need, 0);
      FetchedBound(prefix, transfers, need);
      assert |Fetched(accounts, transfers, need)| == |Fetched(prefix, transfers, need)| + |w|;
      assert need * (n + 1) == need * n + need;
    }
  }

  /** Fetching one more account appends its listing. */
  lemma FetchedStep(accounts: seq<Account>, i: int, transfers: seq<Transfer>, need: nat)
    requires 0 <= i < |accounts|
    ensures Fetched(accounts[..i + 1], transfers, need) ==
      Fetched(accounts[..i], transfers, need) + Window(TransfersTouching(transfers, accounts[i].id), need, 0)
  {
    assert accounts[..i + 1][..i] == accounts[..i];
  }

  /** One account's fetch holds transfers of the table that touch that account. */
  lemma WindowTouches(transfers: seq<Transfer>, id: int, need: nat)
    ensures forall t :: t in Window(TransfersTouching(transfers, id), need, 0) ==>
      t in transfers && (t.fromAccountId == id || t.toAccountId == id)
  {
    TransfersTouchingSpec(transfers, id);
  }

  /** Everything fetched is a transfer of the table touching one of the listed accounts. */
  lemma {:induction false} FetchedTouchesListed(accounts: seq<Account>, transfers: seq<Transfer>, need: nat)
    ensures forall t :: t in Fetched(accounts, transfers, need) ==>
      t in transfers && (t.fromAccountId in Ids(accounts) || t.toAccountId in Ids(accounts))
  {
    if accounts != [] {
      var prefix := accounts[..|accounts| - 1];
      var last := accounts[|accounts| - 1];
      FetchedTouchesListed(prefix, transfers, need);
      WindowTouches(transfers, last.id, need);
      assert Ids(prefix) <= Ids(accounts) by {
        forall a | a in prefix ensures a in accounts { }
      }
      assert last.id in Ids(accounts);
    }
  }

  // -------------------------------------------------------------- filtering

  /** An item touches one of the given accounts. */
  predicate Touches(it: HistoryItem, owned: set<int>)
  {
    it.fromAccount in owned || it.toAccount in owned
  }

  /** The items under `keys` that touch one of the user's accounts. */
  ghost function ShownAmong(seen: map<int, HistoryItem>, owned: set<int>, keys: set<int>): set<HistoryItem>
  {
    set k | k in seen && k in keys && Touches(seen[k], owned) :: seen[k]
  }

  /** The merged items that touch one of the user's accounts: what the history shows. */
  ghost function Shown(seen: map<int, HistoryItem>, owned: set<int>): set<HistoryItem>
  {
    ShownAmong(seen, owned, seen.Keys)
  }

  /** Merged transfers that each touch an owned account give items that each touch one. */
  lemma {:induction false} DedupTouches(ts: seq<Transfer>, src: CurrencySource, owned: set<int>)
    requires forall t :: t in ts ==> t.fromAccountId in owned || t.toAccountId in owned
    ensures forall k :: k in Dedup(ts, src) ==> Touches(Dedup(ts, src)[k], owned)
  {
    if ts != [] {
      var prefix := ts[..|ts| - 1];
      assert forall t :: t in prefix ==> t in ts;
      DedupTouches(prefix, src, owned);
      assert ts[|ts| - 1] in ts;
    }
  }

  /**
   * The ownership filter drops nothing: every fetched transfer touches the
   * account it was fetched for, which is one of the user's.
   */
  lemma FilterKeepsAll(accounts: seq<Account>, transfers: seq<Transfer>, need: nat, src: CurrencySource)
    ensures var seen := Dedup(Fetched(accounts, transfers, need), src);
      Shown(seen, Ids(accounts)) == seen.Values
  {
    var ts := Fetched(accounts, transfers, need);
    var seen := Dedup(ts, src);
    FetchedTouchesListed(accounts, transfers, need);
    DedupTouches(ts, src, Ids(accounts));
    forall k | k in seen ensures seen[k] in Shown(seen, Ids(accounts)) {
      assert Touches(seen[k], Ids(accounts));
    }
  }

  // ---------------------------------------------------------------- lookups

  /**
   * Each account is looked up once: an id is looked up again only when
   * its earlier lookup gave no currency, and one of the user's accounts
   * only when it has no currency.
   */
  ghost predicate LookedUpOnce(lookups: seq<int>, src: CurrencySource)
  {
    (forall i, j :: 0 <= i < j < |lookups| && lookups[i] == lookups[j] ==> Resolved(src, lookups[i]) == "") &&
    (forall i :: 0 <= i < |lookups| && lookups[i] in src.owned ==> Resolved(src, lookups[i]) == "")
  }

  /** An account looked up with success stays in the cache. */
  ghost predicate LookupsCached(lookups: seq<int>, cache: map<int, string>, src: CurrencySource)
  {
    forall i :: 0 <= i < |lookups| && Resolved(src, lookups[i]) != "" ==> Get(cache, lookups[i]) != ""
  }

  /** The fault a statement meets, given the failing keys. */
  function FaultOf(faults: map<int, Error>, k: int): (r: Option<Error>)
    ensures r.Some? <==> k in faults
  {
    if k in faults then Some(faults[k]) else None
  }

  /**
   * Resolve one account's currency: the cached one, else a lookup whose
   * success is cached. `cached` is the cache as read before any lookup of
   * this transfer; a lookup that can give a currency is the account's first.
   */
  method ResolveCurrency(store: Store, lookupFaults: map<int, Error>, cached: string, id: int,
                         cache: map<int, string>, ghost src: CurrencySource, ghost lookups: seq<int>)
    returns (currency: string, cache': map<int, string>, ghost lookups': seq<int>)
    requires store.Valid() && src.table == store.accounts && src.failing == lookupFaults.Keys
    requires CacheSound(cache, src) && LookupsCached(lookups, cache, src) && LookedUpOnce(lookups, src)
    requires cached != "" ==> cached == Resolved(src, id)
    requires cached == "" ==> Resolved(src, id) == "" || (id !in lookups && id !in src.owned)
    ensures currency == Resolved(src, id)
    ensures CacheSound(cache', src) && LookupsCached(lookups', cache', src) && LookedUpOnce(lookups', src)
    ensures cached != "" ==> lookups' == lookups && cache' == cache
    ensures cached == "" ==> lookups' == lookups + [id]
    ensures forall k :: Get(cache, k) != "" ==> Get(cache', k) != ""
  {
    currency, cache', lookups' := cached, cache, lookups;
    if cached == "" {
      lookups' := lookups + [id];
      var (account, err) := store.GetAccount(id, FaultOf(lookupFaults, id));
      if err.None? {
        currency := account.currency;
        cache' := cache[id := currency];
      }
    }
  }

  /** Merge one fetched transfer: skip an id already seen, else resolve the two currencies and record the item. */
  method MergeTransfer(store: Store, lookupFaults: map<int, Error>, t: Transfer,
                       seen: map<int, HistoryItem>, cache: map<int, string>,
                       ghost src: CurrencySource, ghost done: seq<Transfer>, ghost lookups: seq<int>)
    returns (seen': map<int, HistoryItem>, cache': map<int, string>, ghost lookups': seq<int>)
    requires store.Valid() && src.table == store.accounts && src.failing == lookupFaults.Keys
    requires t.fromAccountId in src.owned || t.toAccountId in src.owned
    requires seen == Dedup(done, src)
    requires CacheSound(cache, src) && LookupsCached(lookups, cache, src) && LookedUpOnce(lookups, src)
    ensures seen' == Dedup(done + [t], src)
    ensures CacheSound(cache', src) && LookupsCached(lookups', cache', src) && LookedUpOnce(lookups', src)
  {
    assert (done + [t])[..|done|] == done;
    seen', cache', lookups' := seen, cache, lookups;
    if t.id in seen {
      return;
    }
    var fromCur := Get(cache, t.fromAccountId);
    var toCur := Get(cache, t.toAccountId);
    CachedIsResolved(cache, src, t.fromAccountId);
    CachedIsResolved(cache, src, t.toAccountId);
    fromCur, cache', lookups' := ResolveCurrency(store, lookupFaults, fromCur, t.fromAccountId, cache, src, lookups);
    toCur, cache', lookups' := ResolveCurrency(store, lookupFaults, toCur, t.toAccountId, cache', src, lookups');
    seen' := seen[t.id := HistoryItem(t.id, t.fromAccountId, t.toAccountId, t.amount, fromCur, toCur, t.createdAt)];
  }

  /** Merge one account's listing, transfer after transfer. */
  method MergeListing(store: Store, lookupFaults: map<int, Error>, listing: seq<Transfer>,
                      seen: map<int, HistoryItem>, cache: map<int, string>,
                      ghost src: CurrencySource, ghost done: seq<Transfer>, ghost lookups: seq<int>)
    returns (seen': map<int, HistoryItem>, cache': map<int, string>, ghost lookups': seq<int>)
    requires store.Valid() && src.table == store.accounts && src.failing == lookupFaults.Keys
    requires forall t :: t in listing ==> t.fromAccountId in src.owned || t.toAccountId in src.owned
    requires seen == Dedup(done, src)
    requires CacheSound(cache, src) && LookupsCached(lookups, cache, src) && LookedUpOnce(lookups, src)
    ensures seen' == Dedup(done + listing, src)
    ensures CacheSound(cache', src) && LookupsCached(lookups', cache', src) && LookedUpOnce(lookups', src)
  {
    seen', cache', lookups' := seen, cache, lookups;
    var j := 0;
    assert done + listing[..0] == done;
    while j < |listing|
      invariant 0 <= j <= |listing|
      invariant seen' == Dedup(done + listing[..j], src)
      invariant CacheSound(cache', src) && LookupsCached(lookups', cache', src) && LookedUpOnce(lookups', src)
    {
      assert done + listing[..j + 1] == (done + listing[..j]) + [listing[j]];
      seen', cache', lookups' := MergeTransfer(store, lookupFaults, listing[j], seen', cache', src, done + listing[..j], lookups');
      j := j + 1;
    }
    assert listing[..j] == listing;
  }

  /** A non-empty set has a member. */
  lemma Member(s: set<int>) returns (k: int)
    requires s != {}
    ensures k in s
  {
    if forall x :: x !in s {
      assert false;
    }
    k :| k in s;
  }

  /**
   * Keep the merged items that touch one of the user's accounts. The map
   * is walked in no particular order, so the result is stated as a
   * duplicate-free enumeration of those items.
   */
  method FilterOwned(seen: map<int, HistoryItem>, owned: set<int>) returns (items: seq<HistoryItem>)
    requires forall k :: k in seen ==> seen[k].id == k
    ensures multiset(items) == multiset(Shown(seen, owned))
  {
    items := [];
    var rest := seen.Keys;
    while rest != {}
      invariant rest <= seen.Keys
      invariant multiset(items) == multiset(ShownAmong(seen, owned, seen.Keys - rest))
      decreases rest
    {
      ghost var member := Member(rest);
      var key :| key in rest;
      rest := rest - {key};
      var it := seen[key];
      if it.fromAccount in owned {
        items := items + [it];
      } else if it.toAccount in owned {
        items := items + [it];
      }
    }
    assert seen.Keys - rest == seen.Keys;
  }

  /** Newest first: created_at never increases along the sequence. */
  predicate NewestFirst(items: seq<HistoryItem>)
  {
    forall i, j :: 0 <= i < j < |items| ==> items[i].createdAt >= items[j].createdAt
  }

  /** `s[..hi + 1]` is newest first, except that the item at `j` may be out of place. */
  predicate NewestFirstExcept(s: seq<HistoryItem>, hi: int, j: int)
    requires hi < |s|
  {
    forall k, l :: 0 <= k < l <= hi && k != j && l != j ==> s[k].createdAt >= s[l].createdAt
  }

  /** Swap two neighbouring items: only the order changes. */
  method SwapNeighbours(a: array<HistoryItem>, j: int)
    requires 0 < j < a.Length
    modifies a
    ensures a[..] == old(a[..])[j - 1 := old(a[j])][j := old(a[j - 1])]
    ensures multiset(a[..]) == multiset(old(a[..]))
  {
    a[j - 1], a[j] := a[j], a[j - 1];
  }

  /** Move the item at `i` left past every older item before it. */
  method InsertNewestFirst(a: array<HistoryItem>, i: int)
    requires 0 <= i < a.Length && NewestFirst(a[..i])
    modifies a
    ensures NewestFirst(a[..i + 1])
    ensures multiset(a[..]) == multiset(old(a[..]))
  {
    var j := i;
    while j > 0 && a[j - 1].createdAt < a[j].createdAt
      invariant 0 <= j <= i
      invariant multiset(a[..]) == multiset(old(a[..]))
      invariant NewestFirstExcept(a[..], i, j)
      invariant forall l :: j < l <= i ==> a[j].createdAt > a[l].createdAt
    {
      SwapNeighbours(a, j);
      j := j - 1;
    }
    assert NewestFirst(a[..i + 1]) by {
      forall k, l | 0 <= k < l <= i ensures a[k].createdAt >= a[l].createdAt {
        if l == j && k < j - 1 {
          assert a[k].createdAt >= a[j - 1].createdAt;
        }
      }
    }
  }

  /** sort.Slice with "created after": an in-place sort, newest first, that only permutes. */
  method SortNewestFirst(a: array<HistoryItem>)
    modifies a
    ensures NewestFirst(a[..])
    ensures multiset(a[..]) == multiset(old(a[..]))
  {
    var i := 0;
    while i < a.Length
      invariant 0 <= i <= a.Length
      invariant NewestFirst(a[..i])
      invariant multiset(a[..]) == multiset(old(a[..]))
    {
      InsertNewestFirst(a, i);
      i := i + 1;
    }
    assert a[..a.Length] == a[..];
  }

  // ---------------------------------------------------------------- handler

  /** The loop over the user's accounts: the currency cache and the set of owned ids. */
  method IndexAccounts(accounts: seq<Account>) returns (cache: map<int, string>, owned: set<int>)
    ensures cache == CurrencyMap(accounts) && owned == Ids(accounts)
  {
    cache, owned := map[], {};
    var i := 0;
    while i < |accounts|
      invariant 0 <= i <= |accounts|
      invariant cache == CurrencyMap(accounts[..i]) && owned == Ids(accounts[..i])
    {
      assert accounts[..i + 1] == accounts[..i] + [accounts[i]];
      cache := cache[accounts[i].id := accounts[i].currency];
      owned := owned + {accounts[i].id};
      i := i + 1;
    }
    assert accounts[..i] == accounts;
  }

  /** Whether fetching the transfers of one of the listed accounts fails. */
  ghost predicate AnyFetchFails(accounts: seq<Account>, fetchFaults: map<int, Error>)
  {
    accounts != [] &&
    (AnyFetchFails(accounts[..|accounts| - 1], fetchFaults) || accounts[|accounts| - 1].id in fetchFaults)
  }

  /** Some fetch fails exactly when some listed account's fetch faults. */
  lemma {:induction false} AnyFetchFailsIff(accounts: seq<Account>, fetchFaults: map<int, Error>)
    ensures AnyFetchFails(accounts, fetchFaults) <==> exists a :: a in accounts && a.id in fetchFaults
  {
    if accounts != [] {
      var prefix, last := accounts[..|accounts| - 1], accounts[|accounts| - 1];
      AnyFetchFailsIff(prefix, fetchFaults);
      assert accounts == prefix + [last];
      if exists a :: a in accounts && a.id in fetchFaults {
        var a :| a in accounts && a.id in fetchFaults;
        assert a in prefix || a == last;
      }
    }
  }

  /** The state the merge loops keep: a sound cache, and each currency looked up at most once. */
  ghost predicate Merging(cache: map<int, string>, lookups: seq<int>, src: CurrencySource)
  {
    CacheSound(cache, src) && LookupsCached(lookups, cache, src) && LookedUpOnce(lookups, src)
  }

  /** A fetch that fails among the first j accounts fails among all of them. */
  lemma {:induction false} AnyFetchFailsExtends(accounts: seq<Account>, j: nat, fetchFaults: map<int, Error>)
    requires j <= |accounts| && AnyFetchFails(accounts[..j], fetchFaults)
    ensures AnyFetchFails(accounts, fetchFaults)
    decreases |accounts| - j
  {
    if j == |accounts| {
      assert accounts[..j] == accounts;
    } else {
      assert accounts[..j + 1][..j] == accounts[..j];
      AnyFetchFailsExtends(accounts, j + 1, fetchFaults);
    }
  }

  /**
   * Fetch the transfers of the i-th listed account and merge them into the
   * merge of the accounts before it; `failed` when the fetch fails.
   */
  method FetchAccount(store: Store, accounts: seq<Account>, i: int, need: int,
                      fetchFaults: map<int, Error>, lookupFaults: map<int, Error>,
                      seen: map<int, HistoryItem>, cache: map<int, string>,
                      ghost src: CurrencySource, ghost lookups: seq<int>)
    returns (seen': map<int, HistoryItem>, cache': map<int, string>, failed: bool, ghost lookups': seq<int>)
    requires store.Valid() && need >= 0 && src.table == store.accounts && src.failing == lookupFaults.Keys
    requires 0 <= i < |accounts| && accounts[i].id in src.owned
    requires seen == Dedup(Fetched(accounts[..i], store.transfers, need), src)
    requires Merging(cache, lookups, src)
    ensures failed <==> accounts[i].id in fetchFaults
    ensures !failed ==> seen' == Dedup(Fetched(accounts[..i + 1], store.transfers, need), src)
    ensures Merging(cache', lookups', src)
  {
    var id := accounts[i].id;
    var (listing, fetchErr) := store.ListTransfers(id, need, 0, FaultOf(fetchFaults, id));
    if fetchErr.Some? {
      return seen, cache, true, lookups;
    }
    WindowTouches(store.transfers, id, need);
    FetchedStep(accounts, i, store.transfers, need);
    seen', cache', lookups' := MergeListing(store, lookupFaults, listing, seen, cache, src,
                                            Fetched(accounts[..i], store.transfers, need), lookups);
    failed := false;
  }

  /**
   * The loop over the user's accounts that fetches and merges their
   * transfers; it stops at the first fetch that fails.
   */
  method FetchAndMerge(store: Store, accounts: seq<Account>, need: int,
                       fetchFaults: map<int, Error>, lookupFaults: map<int, Error>,
                       cache: map<int, string>, ghost src: CurrencySource)
    returns (seen: map<int, HistoryItem>, failed: bool, ghost lookups: seq<int>)
    requires store.Valid() && need >= 0 && src.table == store.accounts && src.failing == lookupFaults.Keys
    requires forall k :: 0 <= k < |accounts| ==> accounts[k].id in src.owned
    requires CacheSound(cache, src)
    ensures failed <==> AnyFetchFails(accounts, fetchFaults)
    ensures !failed ==> seen == Dedup(Fetched(accounts, store.transfers, need), src) && LookedUpOnce(lookups, src)
  {
    seen, lookups := map[], [];
    var cache' := cache;
    var i := 0;
    while i < |accounts|
      invariant 0 <= i <= |accounts|
      invariant seen == Dedup(Fetched(accounts[..i], store.transfers, need), src)
      invariant Merging(cache', lookups, src)
      invariant !AnyFetchFails(accounts[..i], fetchFaults)
    {
      seen, cache', failed, lookups := FetchAccount(store, accounts, i, need, fetchFaults, lookupFaults, seen, cache', src, lookups);
      assert accounts[..i + 1][..i] == accounts[..i];
      if failed {
        AnyFetchFailsExtends(accounts, i + 1, fetchFaults);
        return;
      }
      i := i + 1;
    }
    assert accounts[..i] == accounts;
    failed := false;
  }

  /** The items to show, filtered and sorted newest first. */
  method SortedHistory(seen: map<int, HistoryItem>, owned: set<int>) returns (items: seq<HistoryItem>)
    requires forall k :: k in seen ==> seen[k].id == k
    ensures NewestFirst(items) && multiset(items) == multiset(Shown(seen, owned))
  {
    var filtered := FilterOwned(seen, owned);
    var sorted := new HistoryItem[|filtered|](k requires 0 <= k < |filtered| => filtered[k]);
    assert sorted[..] == filtered;
    SortNewestFirst(sorted);
    items := sorted[..];
  }

  /**
   * listTransfers. A malformed query answers 400 and a failed account
   * listing 500. Otherwise the first 1000 of the user's accounts are
   * listed; the request fails with 500 exactly when fetching the transfers
   * of one of them fails, and otherwise answers one page of the merged
   * transfers touching those accounts, each once, newest first, with each
   * account's currency looked up at most once. `items` is the sorted list
   * the page is cut from; `lookups` the accounts looked up, in order.
   */
  method ListTransferHistory(store: Store, req: HistoryRequest, user: string, listFault: Option<Error>,
                             fetchFaults: map<int, Error>, lookupFaults: map<int, Error>)
    returns (resp: Response<seq<HistoryItem>>, ghost items: seq<HistoryItem>, ghost lookups: seq<int>)
    requires store.Valid()
    ensures !ValidHistoryRequest(req) ==> resp == Fail(BadRequest)
    ensures ValidHistoryRequest(req) && listFault.Some? ==> resp == Fail(InternalError)
    ensures ValidHistoryRequest(req) && listFault.None? ==>
      var accounts := store.ListAccounts(Some(user), OwnedAccountsLimit, 0, None).0;
      var src := CurrencySource(store.accounts, Ids(accounts), lookupFaults.Keys);
      var seen := Dedup(Fetched(accounts, store.transfers, FetchSize(req)), src);
      (resp.Fail? <==> exists a :: a in accounts && a.id in fetchFaults) &&
      (resp.Fail? ==> resp.status == InternalError) &&
      (resp.Ok? ==> NewestFirst(items) && multiset(items) == multiset(Shown(seen, Ids(accounts))) &&
                    resp.value == Page(items, req.pageId, req.pageSize) && LookedUpOnce(lookups, src))
  {
    items, lookups := [], [];
    if !ValidHistoryRequest(req) {
      resp := Fail(BadRequest);
      return;
    }
    var (accounts, err) := store.ListAccounts(Some(user), OwnedAccountsLimit, 0, listFault);
    if err.Some? {
      resp := Fail(InternalError);
      return;
    }
    store.ListAccountsContract(Some(user), OwnedAccountsLimit, 0);
    ghost var src := CurrencySource(store.accounts, Ids(accounts), lookupFaults.Keys);
    var cache, owned := IndexAccounts(accounts);
    CurrencyMapSound(accounts, store.accounts);
    var need := FetchSize(req);
    var seen, failed;
    forall k | 0 <= k < |accounts| ensures accounts[k].id in src.owned {
      assert accounts[k] in accounts;
    }
    seen, failed, lookups := FetchAndMerge(store, accounts, need, fetchFaults, lookupFaults, cache, src);
    AnyFetchFailsIff(accounts, fetchFaults);
    if failed {
      resp := Fail(InternalError);
      return;
    }
    DedupKeyedById(Fetched(accounts, store.transfers, need), src);
    var sorted := SortedHistory(seen, owned);
    items := sorted;
    resp := Ok(Page(sorted, req.pageId, req.pageSize));
  }
}
