/**
 * Posting to the account ledger and reading an account's history (Backend/transaction.py).
 * A posting resolves the holder through `holder_balance_min`, enforces the plan minimum on
 * withdrawals, then updates the balance and appends exactly one row in one storage transaction.
 */
module Transactions {
  import opened Wrappers
  import opened Dates
  import opened Schemas
  import opened Store
  import opened Ordering

  datatype TxnError =
    | InvalidHolder
    | InsufficientFunds(amount: real, minBalance: real)
    | StorageFailure
    | NoHoldersFound

  /** The inserted row as returned to the caller, with its generated id. */
  datatype TransactionsRead = TransactionsRead(transactionId: nat, row: Txn)

  /** A withdrawal may leave the balance exactly at the plan minimum but not below it. */
  predicate WithdrawalPermitted(balance: real, amount: real, minBalance: real) {
    balance - amount >= minBalance
  }

  /** Landing exactly on the minimum is allowed; one cent more is refused. */
  lemma WithdrawalBoundary(balance: real, minBalance: real)
    ensures WithdrawalPermitted(balance, balance - minBalance, minBalance)
    ensures !WithdrawalPermitted(balance, balance - minBalance + 0.01, minBalance)
  {
  }

  /** The row a posting request appends; a missing timestamp defaults to the time of the insert. */
  function RowOf(req: TransactionsCreate, now: Instant): (t: Txn)
    ensures t.holderId == req.holderId && t.kind == req.kind && t.amount == req.amount
    ensures req.timestamp.None? ==> t.timestamp == now
    ensures req.timestamp.Some? ==> t.timestamp == req.timestamp.value
  {
    Txn(req.holderId, req.kind, req.amount, req.timestamp.GetOr(now), Given(req.description))
  }

  /** A validated deposit or interest posting raises the balance, a validated withdrawal lowers it. */
  lemma ValidPostingMovesBalance(req: TransactionsCreate, now: Instant)
    requires ValidTransactionsCreate(req)
    ensures req.kind == Withdrawal ==> Signed(RowOf(req, now)) < 0.0
    ensures req.kind != Withdrawal ==> Signed(RowOf(req, now)) > 0.0
  {
  }

  /**
   * `create_transaction`. `storageFault` stands for the storage layer rejecting the insert after the
   * balance update was issued; the rollback then discards the update.
   */
  method CreateTransaction(db: Db, req: TransactionsCreate, now: Instant, storageFault: bool)
    returns (r: Result<TransactionsRead, TxnError>)
    requires db.Valid()
    modifies db
    ensures db.Valid()
    ensures db.Directory() == old(db.Directory()) && db.holders == old(db.holders) && db.fds == old(db.fds)
    ensures var view := HolderBalanceMin(old(db.accounts), old(db.savingsPlans), old(db.holders), req.holderId);
      && (view.None? ==> r == Err(InvalidHolder))
      && (view.Some? && req.kind == Withdrawal && !WithdrawalPermitted(view.value.balance, req.amount, view.value.minBalance)
          ==> r == Err(InsufficientFunds(req.amount, view.value.minBalance)))
      && (r.Ok? <==> view.Some? && !storageFault
                     && (req.kind == Withdrawal ==> WithdrawalPermitted(view.value.balance, req.amount, view.value.minBalance)))
      && (r.Ok? ==>
            var a := view.value.accountId;
            var row := RowOf(req, now);
            && db.accounts == old(db.accounts)[a := old(db.accounts)[a].(balance := view.value.balance + Signed(row))]
            && db.txns == old(db.txns) + [row]
            && r.value == TransactionsRead(|old(db.txns)|, row))
    ensures r.Err? ==> db.accounts == old(db.accounts) && db.txns == old(db.txns)
    ensures forall a :: 0 <= a < |old(db.accounts)| ==> db.Drift(a) == old(db.Drift(a))
  {
    var view := HolderBalanceMin(db.accounts, db.savingsPlans, db.holders, req.holderId);
    if view.None? {
      return Err(InvalidHolder);
    }
    var account := view.value;
    var newBalance: real;
    match req.kind {
      case Withdrawal =>
        if account.balance - req.amount < account.minBalance {
          return Err(InsufficientFunds(req.amount, account.minBalance));
        }
        newBalance := account.balance - req.amount;
      case Deposit =>
        newBalance := account.balance + req.amount;
      case Interest =>
        newBalance := account.balance + req.amount;
    }
    ghost var txns0 := db.txns;
    var saved := db.accounts;
    db.accounts := db.accounts[account.accountId := db.accounts[account.accountId].(balance := newBalance)];
    if storageFault {
      db.accounts := saved;
      return Err(StorageFailure);
    }
    var row := RowOf(req, now);
    db.txns := db.txns + [row];
    forall a | 0 <= a < |db.accounts|
      ensures LedgerNet(db.txns, db.holders, a)
           == LedgerNet(txns0, db.holders, a) + (if a == account.accountId then Signed(row) else 0.0)
    {
      LedgerNetAppendOne(txns0, row, db.holders, a);
    }
    r := Ok(TransactionsRead(|db.txns| - 1, row));
  }

  /** One result of a history search: the row, its id and the account it was routed to. */
  datatype TransactionsSearchResult = TransactionsSearchResult(transactionId: nat, row: Txn, savingAccountId: AccountId)

  /** Holder `h` appears in `holder_balance_min` as a holder of account `a`. */
  predicate InView(accounts: seq<SavingsAccount>, plans: map<string, SavingsPlan>, holders: seq<AccountHolder>,
                   h: HolderId, a: AccountId)
  {
    var v := HolderBalanceMin(accounts, plans, holders, h);
    v.Some? && v.value.accountId == a
  }

  /**
   * The rows of every holder of account `a`, in table order: exactly the rows whose holder the
   * view places in `a`, each once, with its id.
   */
  function AccountTxns(accounts: seq<SavingsAccount>, plans: map<string, SavingsPlan>, holders: seq<AccountHolder>,
                       txns: seq<Txn>, a: AccountId): (r: seq<TransactionsSearchResult>)
    ensures forall k :: 0 <= k < |txns| && InView(accounts, plans, holders, txns[k].holderId, a)
              ==> TransactionsSearchResult(k, txns[k], a) in r
    ensures forall x :: x in r ==>
              (x.savingAccountId == a && x.transactionId < |txns|
               && x.row == txns[x.transactionId] && InView(accounts, plans, holders, x.row.holderId, a))
    ensures forall i, j :: 0 <= i < j < |r| ==> r[i].transactionId < r[j].transactionId
    decreases |txns|
  {
    if txns == [] then []
    else
      var n := |txns| - 1;
      var prefix := AccountTxns(accounts, plans, holders, txns[..n], a);
      assert forall k :: 0 <= k < n ==> txns[..n][k] == txns[k];
      prefix + (if InView(accounts, plans, holders, txns[n].holderId, a)
                then [TransactionsSearchResult(n, txns[n], a)] else [])
  }

  function Newest(x: TransactionsSearchResult): int { x.row.timestamp }

  /**
   * `search_transactions_by_account`: every holder of the account is looked up first (none means the
   * account is not found); the result is their rows, newest first.
   */
  method SearchTransactions(db: Db, req: AccountSearchRequest) returns (r: Result<seq<TransactionsSearchResult>, TxnError>)
    ensures r.Err? <==> forall h :: 0 <= h < |db.holders| ==> !InView(db.accounts, db.savingsPlans, db.holders, h, req.savingAccountId)
    ensures r.Err? ==> r.error == NoHoldersFound
    ensures r.Ok? ==> SortedDesc(r.value, Newest)
    ensures r.Ok? ==> multiset(r.value) == multiset(AccountTxns(db.accounts, db.savingsPlans, db.holders, db.txns, req.savingAccountId))
  {
    var a := req.savingAccountId;
    var holderIds: seq<HolderId> := [];
    var i := 0;
    while i < |db.holders|
      invariant 0 <= i <= |db.holders|
      invariant forall h: int :: h in holderIds <==> 0 <= h < i && InView(db.accounts, db.savingsPlans, db.holders, h, a)
    {
      if InView(db.accounts, db.savingsPlans, db.holders, i, a) {
        holderIds := holderIds + [i];
      }
      i := i + 1;
    }
    if holderIds == [] {
      return Err(NoHoldersFound);
    }
    assert holderIds[0] in holderIds;
    var found: seq<TransactionsSearchResult> := [];
    var k := 0;
    while k < |db.txns|
      invariant 0 <= k <= |db.txns|
      invariant found == AccountTxns(db.accounts, db.savingsPlans, db.holders, db.txns[..k], a)
    {
      assert db.txns[..k + 1][..k] == db.txns[..k];
      var t := db.txns[k];
      if t.holderId in holderIds {
        found := found + [TransactionsSearchResult(k, t, a)];
      }
      k := k + 1;
    }
    assert db.txns[..k] == db.txns;
    r := Ok(SortDesc(found, Newest));
  }
}
