/**
 * Joint accounts: opening a savings account held by two customers, looking one up, and listing
 * the active accounts that have at least two holders.
 */
module JointAccounts {
  import opened Wrappers
  import opened Text
  import opened Dates
  import opened Schemas
  import opened Store
  import opened Callers

  datatype JointError =
    | MalformedCaller              // the caller's `user_type` is NULL, so lower-casing it fails
    | NotAgent
    | NoBranchAssigned
    | CustomersNotActive
    | InvalidPlan
    | BelowMinimum(initial: real, minimum: real)
    | NotJoint

  /** The caller's `user_type`, lower-cased, with the empty text when the key is missing. */
  function UserType(caller: Caller): (r: Option<string>)
    ensures r.None? <==> "user_type" in caller && caller["user_type"].None?
    ensures r.Some? ==> r.value == Lower(GetOrEmpty(caller, "user_type").value)
  {
    var t := GetOrEmpty(caller, "user_type");
    if t.Some? then Some(Lower(t.value)) else None
  }

  /**
   * The authentication row has no `user_type` column, so every authenticated caller has the
   * empty user type: no one passes the agent gate and the branch-manager filter never applies.
   */
  lemma AuthRowsHaveNoUserType(caller: Caller)
    requires IsAuthRow(caller)
    ensures UserType(caller) == Some("")
    ensures UserType(caller) != Some("agent") && UserType(caller) != Some("branch_manager")
  {
    assert "user_type" !in caller.Keys;
    assert |Lower("")| == 0;
  }

  /** Two distinct requested customers, both existing and active. */
  predicate BothActive(customers: map<string, Customer>, p: string, s: string) {
    p != s && p in customers && customers[p].status && s in customers && customers[s].status
  }

  /** The requested pair in the order the store returns it: `secondFirst` when the secondary row comes first. */
  function InReturnedOrder(p: string, s: string, secondFirst: bool): (r: seq<string>)
    ensures multiset(r) == multiset{p, s}
  {
    if secondFirst then [s, p] else [p, s]
  }

  /**
   * The active customers among the two requested ids, as `customer_id IN (p, s) AND status`
   * selects them: the same id named twice is one row. The query has no `ORDER BY`, so the order
   * of two rows is the store's, given as `secondFirst`.
   */
  function ActiveCustomers(customers: map<string, Customer>, p: string, s: string, secondFirst: bool): (r: seq<string>)
    ensures |r| == 2 <==> BothActive(customers, p, s)
    ensures |r| == 2 ==> r == InReturnedOrder(p, s, secondFirst)
    ensures |r| <= 2
    ensures forall i :: 0 <= i < |r| ==> r[i] in customers && customers[r[i]].status
    ensures forall i :: 0 <= i < |r| ==> r[i] == p || r[i] == s
  {
    if BothActive(customers, p, s) then InReturnedOrder(p, s, secondFirst)
    else if p in customers && customers[p].status then [p]
    else if s != p && s in customers && customers[s].status then [s]
    else []
  }

  /** The holders of account `a` whose customer row exists (the join with the customer table), in table order. */
  function JoinedHolders(holders: seq<AccountHolder>, customers: map<string, Customer>, a: AccountId): (r: seq<HolderId>)
    ensures forall h: int :: h in r <==>
              0 <= h < |holders| && holders[h].accountId == a && holders[h].customerId in customers
    ensures forall i, j :: 0 <= i < j < |r| ==> r[i] < r[j]
    decreases |holders|
  {
    if holders == [] then []
    else
      var n := |holders| - 1;
      var prefix := JoinedHolders(holders[..n], customers, a);
      assert forall h :: h in prefix ==> h < n;
      assert forall i :: 0 <= i < |prefix| ==> prefix[i] in prefix;
      prefix + (if holders[n].accountId == a && holders[n].customerId in customers then [n] else [])
  }

  /** The response describing account `a`: its joined holders with their customers' names and NICs, aligned. */
  function JointView(holders: seq<AccountHolder>, customers: map<string, Customer>, a: AccountId): (r: JointAccountRead)
    ensures r.savingAccountId == a && r.holderIds == JoinedHolders(holders, customers, a)
    ensures |r.customerNames| == |r.holderIds| && |r.customerNics| == |r.holderIds|
    ensures forall i :: 0 <= i < |r.holderIds| ==>
              r.holderIds[i] < |holders| && holders[r.holderIds[i]].customerId in customers
              && r.customerNames[i] == customers[holders[r.holderIds[i]].customerId].name
              && r.customerNics[i] == customers[holders[r.holderIds[i]].customerId].nic
  {
    var ids := JoinedHolders(holders, customers, a);
    assert forall i :: 0 <= i < |ids| ==> ids[i] in ids;
    JointAccountRead(
      a, ids,
      seq(|ids|, i requires 0 <= i < |ids| => customers[holders[ids[i]].customerId].name),
      seq(|ids|, i requires 0 <= i < |ids| => customers[holders[ids[i]].customerId].nic))
  }

  /** An account no holder row points to has no holders. */
  lemma {:induction false} UnheldAccountHasNoHolders(holders: seq<AccountHolder>, a: AccountId)
    requires forall h :: 0 <= h < |holders| ==> holders[h].accountId != a
    ensures HoldersOf(holders, a) == []
    decreases |holders|
  {
    if holders != [] {
      UnheldAccountHasNoHolders(holders[..|holders| - 1], a);
    }
  }

  /** Nor any joined holders. */
  lemma {:induction false} UnheldAccountHasNoJoinedHolders(holders: seq<AccountHolder>, customers: map<string, Customer>, a: AccountId)
    requires forall h :: 0 <= h < |holders| ==> holders[h].accountId != a
    ensures JoinedHolders(holders, customers, a) == []
    decreases |holders|
  {
    if holders != [] {
      UnheldAccountHasNoJoinedHolders(holders[..|holders| - 1], customers, a);
    }
  }

  /** Appending a holder row of account `a` appends its id to the holders of `a`. */
  lemma HoldersOfSnoc(holders: seq<AccountHolder>, x: AccountHolder, a: AccountId)
    requires x.accountId == a
    ensures HoldersOf(holders + [x], a) == HoldersOf(holders, a) + [|holders|]
  {
    assert (holders + [x])[..|holders|] == holders;
  }

  /** The same for the holders joined with the customer table, when the row's customer exists. */
  lemma JoinedHoldersSnoc(holders: seq<AccountHolder>, customers: map<string, Customer>, x: AccountHolder, a: AccountId)
    requires x.accountId == a && x.customerId in customers
    ensures JoinedHolders(holders + [x], customers, a) == JoinedHolders(holders, customers, a) + [|holders|]
  {
    assert (holders + [x])[..|holders|] == holders;
  }

  /** Linking two customers to a new account `a` makes them its holders, in order. */
  lemma JointHolders(holders: seq<AccountHolder>, p: string, s: string, a: AccountId)
    requires HoldersOf(holders, a) == []
    ensures HoldersOf(holders + [AccountHolder(p, a)] + [AccountHolder(s, a)], a) == [|holders|, |holders| + 1]
  {
    HoldersOfSnoc(holders, AccountHolder(p, a), a);
    HoldersOfSnoc(holders + [AccountHolder(p, a)], AccountHolder(s, a), a);
  }

  /** And its joined holders, when both customers exist. */
  lemma JointJoinedHolders(holders: seq<AccountHolder>, customers: map<string, Customer>, p: string, s: string, a: AccountId)
    requires JoinedHolders(holders, customers, a) == []
    requires p in customers && s in customers
    ensures JoinedHolders(holders + [AccountHolder(p, a)] + [AccountHolder(s, a)], customers, a) == [|holders|, |holders| + 1]
  {
    JoinedHoldersSnoc(holders, customers, AccountHolder(p, a), a);
    JoinedHoldersSnoc(holders + [AccountHolder(p, a)], customers, AccountHolder(s, a), a);
  }

  /** The response for an account whose joined holders are rows `n` and `n + 1` lists their customers in that order. */
  lemma JointViewOfPair(all: seq<AccountHolder>, customers: map<string, Customer>, p: string, s: string, a: AccountId, n: nat)
    requires n + 1 < |all| && all[n].customerId == p && all[n + 1].customerId == s
    requires p in customers && s in customers
    requires JoinedHolders(all, customers, a) == [n, n + 1]
    ensures JointView(all, customers, a)
            == JointAccountRead(a, [n, n + 1], [customers[p].name, customers[s].name], [customers[p].nic, customers[s].nic])
  {
    var v := JointView(all, customers, a);
    assert v.holderIds[0] == n && v.holderIds[1] == n + 1;
    assert v.customerNames == [customers[p].name, customers[s].name];
    assert v.customerNics == [customers[p].nic, customers[s].nic];
  }

  /** Linking holders to a new account re-attributes no ledger row: the new account's ledger is empty. */
  lemma JointLedgerFacts(holders: seq<AccountHolder>, txns: seq<Txn>, x: AccountHolder, y: AccountHolder, a: AccountId)
    requires forall h :: 0 <= h < |holders| ==> holders[h].accountId < a
    requires forall i :: 0 <= i < |txns| ==> txns[i].holderId < |holders|
    ensures LedgerNet(txns, holders + [x] + [y], a) == 0.0
    ensures forall b :: LedgerNet(txns, holders + [x] + [y], b) == LedgerNet(txns, holders, b)
  {
    LedgerNetOfUnheldAccount(txns, holders, a);
    forall b ensures LedgerNet(txns, holders + [x] + [y], b) == LedgerNet(txns, holders, b) {
      LedgerNetWiderHolders(txns, holders, [x], b);
      LedgerNetWiderHolders(txns, holders + [x], [y], b);
    }
  }

  /** Linking two customers to a new account `a`: it has exactly them as holders, listed in the order they were linked. */
  lemma JointOpeningFacts(holders: seq<AccountHolder>, customers: map<string, Customer>, p: string, s: string, a: AccountId)
    requires forall h :: 0 <= h < |holders| ==> holders[h].accountId < a
    requires p in customers && s in customers
    ensures var all := holders + [AccountHolder(p, a)] + [AccountHolder(s, a)];
            && HoldersOf(all, a) == [|holders|, |holders| + 1]
            && JointView(all, customers, a)
               == JointAccountRead(a, [|holders|, |holders| + 1], [customers[p].name, customers[s].name],
                                   [customers[p].nic, customers[s].nic])
  {
    UnheldAccountHasNoHolders(holders, a);
    UnheldAccountHasNoJoinedHolders(holders, customers, a);
    JointHolders(holders, p, s, a);
    JointJoinedHolders(holders, customers, p, s, a);
    var all := holders + [AccountHolder(p, a)] + [AccountHolder(s, a)];
    assert all[|holders|].customerId == p && all[|holders| + 1].customerId == s;
    JointViewOfPair(all, customers, p, s, a, |holders|);
  }

  /** The linked holder rows all point to existing accounts, the new one included. */
  lemma LinkedRowsPointToAccounts(holders: seq<AccountHolder>, p: string, s: string, a: AccountId)
    requires forall h :: 0 <= h < |holders| ==> holders[h].accountId < a
    ensures var all := holders + [AccountHolder(p, a)] + [AccountHolder(s, a)];
            forall h :: 0 <= h < |all| ==> all[h].accountId <= a
  {
    var all := holders + [AccountHolder(p, a)] + [AccountHolder(s, a)];
    forall h | 0 <= h < |all| ensures all[h].accountId <= a {
      if h < |holders| { assert all[h] == holders[h]; }
    }
  }

  /** What the holder-insert loop returns for the two customers of a joint opening. */
  lemma LinkedPair(
    before: seq<AccountHolder>, customers: map<string, Customer>, p: string, s: string, a: AccountId,
    holders: seq<AccountHolder>, holderIds: seq<HolderId>, names: seq<string>, nics: seq<string>)
    requires p in customers && s in customers
    requires |holders| == |before| + 2 && holders[..|before|] == before
    requires forall i :: |before| <= i < |holders| ==> holders[i] == AccountHolder([p, s][i - |before|], a)
    requires |holderIds| == 2 && forall i :: 0 <= i < 2 ==> holderIds[i] == |before| + i
    requires |names| == 2 && |nics| == 2
    requires forall i :: 0 <= i < 2 ==> names[i] == customers[[p, s][i]].name && nics[i] == customers[[p, s][i]].nic
    ensures holders == before + [AccountHolder(p, a)] + [AccountHolder(s, a)]
    ensures holderIds == [|before|, |before| + 1]
    ensures names == [customers[p].name, customers[s].name] && nics == [customers[p].nic, customers[s].nic]
  {
    var n := |before|;
    assert holders[n] == AccountHolder(p, a) && holders[n + 1] == AccountHolder(s, a);
    assert forall i :: 0 <= i < n ==> holders[i] == holders[..n][i];
    assert names[0] == customers[p].name && names[1] == customers[s].name;
    assert nics[0] == customers[p].nic && nics[1] == customers[s].nic;
  }

  /** Everything `create_joint_account` checks before it writes, in the order it checks them. */
  predicate OpeningAllowed(
    caller: Caller, employees: map<string, Employee>, customers: map<string, Customer>,
    plans: map<string, SavingsPlan>, req: JointAccountCreate)
  {
    && UserType(caller) == Some("agent")
    && CallerBranch(caller, employees).Some?
    && BothActive(customers, req.primaryCustomerId, req.secondaryCustomerId)
    && req.sPlanId in plans
    && req.initialBalance >= plans[req.sPlanId].minBalance
  }

  /** The account row a joint opening inserts: opened now, active, in the agent's branch. */
  function JointAccountRow(caller: Caller, employees: map<string, Employee>, req: JointAccountCreate, now: Instant): (r: SavingsAccount)
    ensures r.openDate == now && r.balance == req.initialBalance && r.planId == req.sPlanId && r.status
    ensures r.employeeId == Get(caller, "employee_id") && r.branchId == CallerBranch(caller, employees)
  {
    SavingsAccount(now, req.initialBalance, Get(caller, "employee_id"), req.sPlanId, true, CallerBranch(caller, employees))
  }

  /** The holder-insert loop: one holder row per customer, collecting ids, names and NICs in step. */
  method LinkHolders(holders: seq<AccountHolder>, customers: map<string, Customer>, ids: seq<string>, a: AccountId)
    returns (holders': seq<AccountHolder>, holderIds: seq<HolderId>, names: seq<string>, nics: seq<string>)
    requires forall i :: 0 <= i < |ids| ==> ids[i] in customers
    ensures |holders'| == |holders| + |ids| && holders'[..|holders|] == holders
    ensures forall i :: |holders| <= i < |holders'| ==> holders'[i] == AccountHolder(ids[i - |holders|], a)
    ensures |holderIds| == |ids| && forall i :: 0 <= i < |ids| ==> holderIds[i] == |holders| + i
    ensures |names| == |ids| && |nics| == |ids|
    ensures forall i :: 0 <= i < |ids| ==> names[i] == customers[ids[i]].name && nics[i] == customers[ids[i]].nic
  {
    holders', holderIds, names, nics := holders, [], [], [];
    for k := 0 to |ids|
      invariant |holders'| == |holders| + k && holders'[..|holders|] == holders
      invariant forall i :: |holders| <= i < |holders'| ==> holders'[i] == AccountHolder(ids[i - |holders|], a)
      invariant |holderIds| == k && forall i :: 0 <= i < k ==> holderIds[i] == |holders| + i
      invariant |names| == k && |nics| == k
      invariant forall i :: 0 <= i < k ==> names[i] == customers[ids[i]].name && nics[i] == customers[ids[i]].nic
    {
      holders' := holders' + [AccountHolder(ids[k], a)];
      holderIds := holderIds + [|holders'| - 1];
      names := names + [customers[ids[k]].name];
      nics := nics + [customers[ids[k]].nic];
    }
  }

  /**
   * `create_joint_account`: an agent opens an account in their branch for two distinct active
   * customers, with an initial balance of at least the plan's minimum, and links both as holders.
   * The initial balance is written without a ledger row; nothing is written unless every check passes.
   * The holders are linked in the order the customer query returns the two rows, `secondFirst`.
   */
  method CreateJointAccount(db: Db, caller: Caller, req: JointAccountCreate, now: Instant, secondFirst: bool)
    returns (r: Result<JointAccountRead, JointError>)
    requires db.Valid()
    modifies db
    ensures db.Valid()
    ensures db.Directory() == old(db.Directory()) && db.txns == old(db.txns) && db.fds == old(db.fds)
    ensures UserType(caller).None? ==> r == Err(MalformedCaller)
    ensures UserType(caller).Some? && UserType(caller) != Some("agent") ==> r == Err(NotAgent)
    ensures r.Ok? <==> OpeningAllowed(caller, db.employees, db.customers, db.savingsPlans, req)
    ensures r.Err? ==> db.accounts == old(db.accounts) && db.holders == old(db.holders)
    ensures r.Ok? ==>
              var a := |old(db.accounts)|;
              var n := |old(db.holders)|;
              var pair := InReturnedOrder(req.primaryCustomerId, req.secondaryCustomerId, secondFirst);
              && db.accounts == old(db.accounts) + [JointAccountRow(caller, db.employees, req, now)]
              && db.holders == old(db.holders) + [AccountHolder(pair[0], a)] + [AccountHolder(pair[1], a)]
              && r.value == JointView(db.holders, db.customers, a)
              && r.value.holderIds == [n, n + 1] && HoldersOf(db.holders, a) == [n, n + 1]
              && r.value.customerNames == [db.customers[pair[0]].name, db.customers[pair[1]].name]
              && r.value.customerNics == [db.customers[pair[0]].nic, db.customers[pair[1]].nic]
    ensures |db.accounts| >= |old(db.accounts)|
    ensures forall a :: 0 <= a < |old(db.accounts)| ==> db.Drift(a) == old(db.Drift(a))
    ensures r.Ok? ==> db.Drift(|old(db.accounts)|) == req.initialBalance
  {
    var userType := UserType(caller);
    if userType.None? {
      return Err(MalformedCaller);
    }
    if userType.value != "agent" {
      return Err(NotAgent);
    }
    var branch := CallerBranch(caller, db.employees);
    if branch.None? {
      return Err(NoBranchAssigned);
    }
    var ids := ActiveCustomers(db.customers, req.primaryCustomerId, req.secondaryCustomerId, secondFirst);
    if |ids| != 2 {
      return Err(CustomersNotActive);
    }
    if req.sPlanId !in db.savingsPlans {
      return Err(InvalidPlan);
    }
    var minimum := db.savingsPlans[req.sPlanId].minBalance;
    if req.initialBalance < minimum {
      return Err(BelowMinimum(req.initialBalance, minimum));
    }
    assert ids == InReturnedOrder(req.primaryCustomerId, req.secondaryCustomerId, secondFirst);
    r := Open(db, caller, req, now, ids[0], ids[1]);
  }

  /**
   * The writes of `create_joint_account` once every check has passed: the account, then one holder
   * row for `p` and one for `s`, the two customers in the order the customer query returned them.
   */
  method Open(db: Db, caller: Caller, req: JointAccountCreate, now: Instant, p: string, s: string)
    returns (r: Result<JointAccountRead, JointError>)
    requires db.Valid() && p in db.customers && s in db.customers
    modifies db
    ensures db.Valid()
    ensures db.Directory() == old(db.Directory()) && db.txns == old(db.txns) && db.fds == old(db.fds)
    ensures r.Ok?
    ensures var a := |old(db.accounts)|;
            var n := |old(db.holders)|;
            && db.accounts == old(db.accounts) + [JointAccountRow(caller, db.employees, req, now)]
            && db.holders == old(db.holders) + [AccountHolder(p, a)] + [AccountHolder(s, a)]
            && r.value == JointView(db.holders, db.customers, a)
            && r.value.holderIds == [n, n + 1] && HoldersOf(db.holders, a) == [n, n + 1]
            && r.value.customerNames == [db.customers[p].name, db.customers[s].name]
            && r.value.customerNics == [db.customers[p].nic, db.customers[s].nic]
    ensures forall a :: 0 <= a < |old(db.accounts)| ==> db.Drift(a) == old(db.Drift(a))
    ensures db.Drift(|old(db.accounts)|) == req.initialBalance
  {
    var a := |db.accounts|;
    var accounts := db.accounts + [JointAccountRow(caller, db.employees, req, now)];
    var holders, holderIds, names, nics := LinkHolders(db.holders, db.customers, [p, s], a);
    LinkedPair(db.holders, db.customers, p, s, a, holders, holderIds, names, nics);
    JointOpeningFacts(db.holders, db.customers, p, s, a);
    JointLedgerFacts(db.holders, db.txns, AccountHolder(p, a), AccountHolder(s, a), a);
    LinkedRowsPointToAccounts(db.holders, p, s, a);
    assert forall b :: 0 <= b < a ==> accounts[b] == db.accounts[b];
    db.accounts, db.holders := accounts, holders;
    r := Ok(JointAccountRead(a, holderIds, names, nics));
  }

  /** `search_joint_account`: the account's joined holders, provided there are at least two of them. */
  method SearchJointAccount(db: Db, req: AccountSearchRequest) returns (r: Result<JointAccountRead, JointError>)
    ensures r.Err? <==> |JoinedHolders(db.holders, db.customers, req.savingAccountId)| < 2
    ensures r.Err? ==> r.error == NotJoint
    ensures r.Ok? ==> r.value == JointView(db.holders, db.customers, req.savingAccountId)
  {
    var view := JointView(db.holders, db.customers, req.savingAccountId);
    if |view.holderIds| < 2 {
      return Err(NotJoint);
    }
    r := Ok(view);
  }

  /**
   * The listing's branch restriction: a caller whose user type is `branch_manager` sees only
   * accounts whose branch equals the caller's `branch_id`; everyone else is unrestricted.
   */
  function ListFilter(caller: Caller): (r: Option<Option<string>>)
    ensures r.Some? <==> UserType(caller) == Some("branch_manager")
    ensures r.Some? ==> r.value == Get(caller, "branch_id")
  {
    if UserType(caller) == Some("branch_manager") then Some(Get(caller, "branch_id")) else None
  }

  /**
   * Whether the listing selects account `a`: active, at least two holder rows, and in the
   * filter's branch when there is one (a NULL branch to compare against matches no account).
   */
  predicate Listed(accounts: seq<SavingsAccount>, holders: seq<AccountHolder>, filter: Option<Option<string>>, a: AccountId)
    requires a < |accounts|
  {
    && accounts[a].status
    && |HoldersOf(holders, a)| >= 2
    && (filter.Some? ==> filter.value.Some? && accounts[a].branchId == filter.value)
  }

  /** The positions among the first `n` whose flag is set, in ascending order. */
  function Chosen(flags: seq<bool>, n: nat): (r: seq<nat>)
    requires n <= |flags|
    ensures forall a: int :: a in r <==> 0 <= a < n && flags[a]
    ensures forall i, j :: 0 <= i < j < |r| ==> r[i] < r[j]
  {
    if n == 0 then []
    else
      var prefix := Chosen(flags, n - 1);
      assert forall i :: 0 <= i < |prefix| ==> prefix[i] in prefix;
      prefix + (if flags[n - 1] then [n - 1] else [])
  }

  /** Whether the listing selects each account, in table order. */
  function ListFlags(accounts: seq<SavingsAccount>, holders: seq<AccountHolder>, filter: Option<Option<string>>)
    : (r: seq<bool>)
    ensures |r| == |accounts| && forall a :: 0 <= a < |accounts| ==> r[a] == Listed(accounts, holders, filter, a)
  {
    seq(|accounts|, a requires 0 <= a < |accounts| => Listed(accounts, holders, filter, a))
  }

  /** The accounts the listing selects, in table order. */
  function ListedIds(accounts: seq<SavingsAccount>, holders: seq<AccountHolder>, filter: Option<Option<string>>)
    : (r: seq<AccountId>)
    ensures forall a: int :: a in r <==> 0 <= a < |accounts| && Listed(accounts, holders, filter, a)
    ensures forall i, j :: 0 <= i < j < |r| ==> r[i] < r[j]
  {
    Chosen(ListFlags(accounts, holders, filter), |accounts|)
  }

  /**
   * `list_joint_accounts`: one view per selected account, in table order. The view joins the
   * customer table, so an account counted as joint by its holder rows may show fewer names.
   */
  method ListJointAccounts(db: Db, caller: Caller) returns (r: Result<seq<JointAccountRead>, JointError>)
    ensures UserType(caller).None? <==> r.Err?
    ensures r.Err? ==> r.error == MalformedCaller
    ensures r.Ok? ==>
              var ids := ListedIds(db.accounts, db.holders, ListFilter(caller));
              |r.value| == |ids| && forall k :: 0 <= k < |ids| ==> r.value[k] == JointView(db.holders, db.customers, ids[k])
  {
    if UserType(caller).None? {
      return Err(MalformedCaller);
    }
    var ids := ListedIds(db.accounts, db.holders, ListFilter(caller));
    var views: seq<JointAccountRead> := [];
    for k := 0 to |ids|
      invariant |views| == k && forall j :: 0 <= j < k ==> views[j] == JointView(db.holders, db.customers, ids[j])
    {
      views := views + [JointView(db.holders, db.customers, ids[k])];
    }
    r := Ok(views);
  }
}
