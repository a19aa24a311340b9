/**
 * The relational store the backend runs against: one row type per table, the `Db` object whose
 * fields are the tables, the `holder_balance_min` view, and the ledger arithmetic that ties
 * account balances to the rows of the Transactions table.
 *
 * Row identifiers are positions: the n-th row inserted into a table gets id n, as a serial
 * column would give it, and rows of the core's tables are never deleted.
 */
module Store {
  import opened Wrappers
  import opened Dates
  import opened Schemas

  type AccountId = nat
  type HolderId = nat
  type FdId = nat

  datatype SavingsAccount = SavingsAccount(
    openDate: Instant, balance: real, employeeId: Option<string>, planId: string,
    status: bool, branchId: Option<string>)

  datatype SavingsPlan = SavingsPlan(planName: Stype, interestRate: string, minBalance: real)

  /** A fixed deposit plan as stored: its term has been converted to a whole number of months. */
  datatype FdPlan = FdPlan(months: int, interestRate: string)

  /** Membership of a customer in an account. */
  datatype AccountHolder = AccountHolder(customerId: string, accountId: AccountId)

  datatype Customer = Customer(name: string, nic: string, status: bool)

  datatype Employee = Employee(branchId: Option<string>)

  /** One row of the append-only Transactions table. */
  datatype Txn = Txn(holderId: HolderId, kind: Trantype, amount: real, timestamp: Instant, memo: Memo)

  datatype FixedDeposit = FixedDeposit(
    accountId: AccountId, planId: string, startDate: Instant, endDate: Instant, principal: real,
    interestPaymentType: bool, lastPayoutDate: Option<Instant>, status: bool)

  /** A row of the `holder_balance_min` view: the holder's account, its balance and its plan's minimum. */
  datatype HolderView = HolderView(balance: real, minBalance: real, accountId: AccountId)

  /** The balance effect of a row: withdrawals count negative, deposits and interest positive. */
  function Signed(t: Txn): real {
    if t.kind == Withdrawal then -t.amount else t.amount
  }

  /** A row belongs to an account when its holder is one of that account's holders. */
  predicate Attributed(t: Txn, holders: seq<AccountHolder>, a: AccountId) {
    t.holderId < |holders| && holders[t.holderId].accountId == a
  }

  /** The signed sum of the rows routed to account `a` through any of its holders. */
  function LedgerNet(txns: seq<Txn>, holders: seq<AccountHolder>, a: AccountId): real
    decreases |txns|
  {
    if txns == [] then 0.0
    else
      var last := txns[|txns| - 1];
      LedgerNet(txns[..|txns| - 1], holders, a) + (if Attributed(last, holders, a) then Signed(last) else 0.0)
  }

  /** The ledger of a concatenation is the sum of the ledgers. */
  lemma {:induction false} LedgerNetAppend(s: seq<Txn>, t: seq<Txn>, holders: seq<AccountHolder>, a: AccountId)
    ensures LedgerNet(s + t, holders, a) == LedgerNet(s, holders, a) + LedgerNet(t, holders, a)
    decreases |t|
  {
    if t == [] {
      assert s + t == s;
    } else {
      var t' := t[..|t| - 1];
      assert (s + t)[..|s + t| - 1] == s + t';
      assert (s + t)[|s + t| - 1] == t[|t| - 1];
      LedgerNetAppend(s, t', holders, a);
    }
  }

  /** Appending a single row changes the ledger of its own account by its signed amount, and no other. */
  lemma LedgerNetAppendOne(s: seq<Txn>, t: Txn, holders: seq<AccountHolder>, a: AccountId)
    ensures LedgerNet(s + [t], holders, a)
         == LedgerNet(s, holders, a) + (if Attributed(t, holders, a) then Signed(t) else 0.0)
  {
    assert (s + [t])[..|s|] == s;
  }

  /** Adding holder rows does not re-attribute rows whose holders already existed. */
  lemma {:induction false} LedgerNetWiderHolders(
    txns: seq<Txn>, holders: seq<AccountHolder>, extra: seq<AccountHolder>, a: AccountId)
    requires forall i :: 0 <= i < |txns| ==> txns[i].holderId < |holders|
    ensures LedgerNet(txns, holders + extra, a) == LedgerNet(txns, holders, a)
    decreases |txns|
  {
    if txns != [] {
      var last := txns[|txns| - 1];
      assert (holders + extra)[last.holderId] == holders[last.holderId];
      LedgerNetWiderHolders(txns[..|txns| - 1], holders, extra, a);
    }
  }

  /** The ledger of an account no holder row points to is zero. */
  lemma {:induction false} LedgerNetOfUnheldAccount(txns: seq<Txn>, holders: seq<AccountHolder>, a: AccountId)
    requires forall h :: 0 <= h < |holders| ==> holders[h].accountId != a
    ensures LedgerNet(txns, holders, a) == 0.0
    decreases |txns|
  {
    if txns != [] {
      LedgerNetOfUnheldAccount(txns[..|txns| - 1], holders, a);
    }
  }

  /** The holders of account `a` in table order (ascending holder id). */
  function HoldersOf(holders: seq<AccountHolder>, a: AccountId): (r: seq<HolderId>)
    ensures forall h: int :: h in r <==> 0 <= h < |holders| && holders[h].accountId == a
    ensures forall i, j :: 0 <= i < j < |r| ==> r[i] < r[j]
    decreases |holders|
  {
    if holders == [] then []
    else
      var n := |holders| - 1;
      var prefix := HoldersOf(holders[..n], a);
      assert forall h :: h in prefix ==> h < n;
      assert forall i :: 0 <= i < |prefix| ==> prefix[i] in prefix;
      prefix + (if holders[n].accountId == a then [n] else [])
  }

  lemma SortedHeadIsLeast(hs: seq<HolderId>, h: HolderId)
    requires forall i, j :: 0 <= i < j < |hs| ==> hs[i] < hs[j]
    requires h in hs
    ensures hs[0] <= h
  {
    var k :| 0 <= k < |hs| && hs[k] == h;
    assert k == 0 || hs[0] < hs[k];
  }

  /** `SELECT holder_id FROM AccountHolder WHERE saving_account_id = a LIMIT 1`: the earliest holder row. */
  function FirstHolder(holders: seq<AccountHolder>, a: AccountId): (r: Option<HolderId>)
    ensures r.Some? ==> r.value < |holders| && holders[r.value].accountId == a
    ensures r.Some? ==> forall h :: 0 <= h < r.value ==> holders[h].accountId != a
    ensures r.None? <==> forall h :: 0 <= h < |holders| ==> holders[h].accountId != a
  {
    var hs := HoldersOf(holders, a);
    if hs == [] then
      assert forall h :: 0 <= h < |holders| && holders[h].accountId == a ==> h in hs;
      None
    else
      assert hs[0] in hs;
      forall h | 0 <= h < |holders| && holders[h].accountId == a ensures hs[0] <= h {
        SortedHeadIsLeast(hs, h);
      }
      Some(hs[0])
  }

  /** The `holder_balance_min` view: a holder joined with its account and that account's plan. */
  function HolderBalanceMin(
    accounts: seq<SavingsAccount>, plans: map<string, SavingsPlan>, holders: seq<AccountHolder>, h: HolderId)
    : (r: Option<HolderView>)
    ensures r.Some? <==> h < |holders| && holders[h].accountId < |accounts|
                         && accounts[holders[h].accountId].planId in plans
    ensures r.Some? ==> r.value.accountId == holders[h].accountId
                        && r.value.balance == accounts[r.value.accountId].balance
                        && r.value.minBalance == plans[accounts[r.value.accountId].planId].minBalance
  {
    if h < |holders| && holders[h].accountId < |accounts| && accounts[holders[h].accountId].planId in plans then
      var a := holders[h].accountId;
      Some(HolderView(accounts[a].balance, plans[accounts[a].planId].minBalance, a))
    else None
  }

  /** Whether account `a` has a fixed deposit with `status = true`. */
  function HasActiveFd(fds: seq<FixedDeposit>, a: AccountId): (b: bool)
    ensures b <==> exists i :: 0 <= i < |fds| && fds[i].status && fds[i].accountId == a
    decreases |fds|
  {
    if fds == [] then false
    else if fds[|fds| - 1].status && fds[|fds| - 1].accountId == a then true
    else
      var b := HasActiveFd(fds[..|fds| - 1], a);
      assert forall i :: 0 <= i < |fds| - 1 ==> fds[..|fds| - 1][i] == fds[i];
      b
  }

  /** No account has two active fixed deposits. */
  predicate AtMostOneActive(fds: seq<FixedDeposit>) {
    forall i, j :: 0 <= i < j < |fds| && fds[i].status && fds[j].status ==> fds[i].accountId != fds[j].accountId
  }

  /** Opening one more active deposit keeps the rule when the account had none. */
  lemma OpeningKeepsOneActive(fds: seq<FixedDeposit>, fd: FixedDeposit)
    requires AtMostOneActive(fds) && !HasActiveFd(fds, fd.accountId)
    ensures AtMostOneActive(fds + [fd])
  {
  }

  /** Rows that keep their accounts and only ever lose `status = true` keep the rule. */
  lemma ClosingKeepsOneActive(before: seq<FixedDeposit>, after: seq<FixedDeposit>)
    requires AtMostOneActive(before) && |after| == |before|
    requires forall i :: 0 <= i < |after| ==> after[i].accountId == before[i].accountId
    requires forall i :: 0 <= i < |after| && after[i].status ==> before[i].status
    ensures AtMostOneActive(after)
  {
  }

  /**
   * Crediting a row's signed amount to the account of its holder while appending the row leaves
   * every account's distance from its ledger sum where it was.
   */
  lemma PostingKeepsDrift(accounts: seq<SavingsAccount>, holders: seq<AccountHolder>, txns: seq<Txn>, row: Txn,
                          accounts': seq<SavingsAccount>)
    requires row.holderId < |holders| && holders[row.holderId].accountId < |accounts|
    requires var a := holders[row.holderId].accountId;
             accounts' == accounts[a := accounts[a].(balance := accounts[a].balance + Signed(row))]
    ensures |accounts'| == |accounts|
    ensures forall a :: 0 <= a < |accounts| ==>
              accounts'[a].balance - LedgerNet(txns + [row], holders, a) == accounts[a].balance - LedgerNet(txns, holders, a)
  {
    forall a | 0 <= a < |accounts|
      ensures accounts'[a].balance - LedgerNet(txns + [row], holders, a) == accounts[a].balance - LedgerNet(txns, holders, a)
    {
      LedgerNetAppendOne(txns, row, holders, a);
    }
  }

  /** The database: every table of the core, as the fields the operations reassign. */
  class Db {
    var accounts: seq<SavingsAccount>
    var savingsPlans: map<string, SavingsPlan>
    var fdPlans: map<string, FdPlan>
    var customers: map<string, Customer>
    var employees: map<string, Employee>
    var holders: seq<AccountHolder>
    var txns: seq<Txn>
    var fds: seq<FixedDeposit>

    /** The store's integrity: every reference points to an existing row, and the one-active-deposit rule. */
    ghost predicate Valid()
      reads this
    {
      && (forall h :: 0 <= h < |holders| ==> holders[h].accountId < |accounts|)
      && (forall i :: 0 <= i < |txns| ==> txns[i].holderId < |holders|)
      && (forall i :: 0 <= i < |fds| ==> fds[i].accountId < |accounts|)
      && AtMostOneActive(fds)
    }

    /**
     * How far an account's balance is from the signed sum of its ledger rows. Opening an account
     * sets its balance without a row, so this is not zero in general; every posting keeps it fixed.
     */
    ghost function Drift(a: AccountId): real
      reads this
      requires a < |accounts|
    {
      accounts[a].balance - LedgerNet(txns, holders, a)
    }

    /** The reference tables the core reads but never writes. */
    ghost function Directory(): (map<string, SavingsPlan>, map<string, FdPlan>, map<string, Customer>, map<string, Employee>)
      reads this
    {
      (savingsPlans, fdPlans, customers, employees)
    }

    constructor (savingsPlans: map<string, SavingsPlan>, fdPlans: map<string, FdPlan>,
                 customers: map<string, Customer>, employees: map<string, Employee>)
      ensures Valid()
      ensures this.accounts == [] && this.holders == [] && this.txns == [] && this.fds == []
      ensures Directory() == (savingsPlans, fdPlans, customers, employees)
    {
      this.accounts := [];
      this.savingsPlans := savingsPlans;
      this.fdPlans := fdPlans;
      this.customers := customers;
      this.employees := employees;
      this.holders := [];
      this.txns := [];
      this.fds := [];
    }
  }
}
