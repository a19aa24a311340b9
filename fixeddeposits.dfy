/**
 * Opening a fixed deposit against a savings account, and listing an account's deposits
 * (Backend/fixedDeposit.py). Opening checks the caller's role and scope, the account, the plan and
 * the one-active-deposit rule, computes the end date by calendar month arithmetic, then reserves the
 * principal by debiting the account and appending one Withdrawal row, all in one storage transaction.
 */
module FixedDeposits {
  import opened Wrappers
  import opened Text
  import opened Dates
  import opened Schemas
  import opened Store
  import opened Callers
  import opened Ordering

  datatype Role = AgentRole | ManagerRole

  datatype FdError =
    | InvalidUserType
    | NotPermitted
    | NoBranchAssigned
    | InvalidAccount
    | NotAccountAgent
    | NotAccountBranch
    | InvalidPlan
    | ActiveFdExists
    | EndDateInvalid(reason: DateError)
    | InsufficientFunds(balance: real, principal: real)
    | NoHolder
    | AccountNotFound

  /** The opened deposit as returned to the caller, with its generated id. */
  datatype FixedDepositRead = FixedDepositRead(fixedDepositId: FdId, deposit: FixedDeposit)

  /** The role gate: a missing or empty type is unauthorised; otherwise only the two opener roles pass. */
  function FdRole(caller: Caller): (r: Result<Role, FdError>)
    ensures Get(caller, "type") == None || Get(caller, "type") == Some("") ==> r == Err(InvalidUserType)
    ensures r == Ok(AgentRole) <==> Get(caller, "type").Some? && Lower(Get(caller, "type").value) == "agent"
    ensures r == Ok(ManagerRole) <==> Get(caller, "type").Some? && Lower(Get(caller, "type").value) == "branch_manager"
    ensures r.Err? ==> r.error == InvalidUserType || r.error == NotPermitted
  {
    var t := Get(caller, "type");
    if t == None || t == Some("") then Err(InvalidUserType)
    else if Lower(t.value) == "agent" then Ok(AgentRole)
    else if Lower(t.value) == "branch_manager" then Ok(ManagerRole)
    else Err(NotPermitted)
  }

  /**
   * A caller whose stored role is one of the three role names passes the gate only as an agent: the
   * stored name "Branch Manager" lowers to "branch manager", which is not the "branch_manager" the
   * gate compares with.
   */
  lemma StoredRolesAtFdGate(caller: Caller, e: Etype)
    requires HasRole(caller, e)
    ensures FdRole(caller).Ok? <==> e == Agent
    ensures FdRole(caller).Err? ==> FdRole(caller).error == NotPermitted
  {
    LoweredRoleNames();
  }

  /** An agent may act only on accounts they opened; a branch manager only on accounts of their branch. */
  predicate InScope(role: Role, caller: Caller, employees: map<string, Employee>, account: SavingsAccount) {
    match role
    case AgentRole => account.employeeId == Get(caller, "employee_id")
    case ManagerRole => CallerBranch(caller, employees).Some? && account.branchId == CallerBranch(caller, employees)
  }

  /** What the opening requires before it writes anything: the caller's role and scope, the account, the plan, no active deposit, a valid end date. */
  predicate Eligible(accounts: seq<SavingsAccount>, fdPlans: map<string, FdPlan>, employees: map<string, Employee>,
                     fds: seq<FixedDeposit>, caller: Caller, req: FixedDepositCreate, now: DateTime)
    requires ValidDateTime(now)
  {
    && FdRole(caller).Ok?
    && req.savingAccountId < |accounts| && accounts[req.savingAccountId].status
    && InScope(FdRole(caller).value, caller, employees, accounts[req.savingAccountId])
    && req.fPlanId in fdPlans
    && !HasActiveFd(fds, req.savingAccountId)
    && AddMonths(now, fdPlans[req.fPlanId].months).Ok?
  }

  /**
   * What the opening requires in all: eligibility, a balance of at least the principal (the plan's
   * minimum balance is not consulted) and a holder to charge the withdrawal to.
   */
  predicate Admissible(accounts: seq<SavingsAccount>, fdPlans: map<string, FdPlan>, employees: map<string, Employee>,
                       holders: seq<AccountHolder>, fds: seq<FixedDeposit>,
                       caller: Caller, req: FixedDepositCreate, now: DateTime)
    requires ValidDateTime(now)
  {
    && Eligible(accounts, fdPlans, employees, fds, caller, req, now)
    && accounts[req.savingAccountId].balance >= req.principalAmount
    && FirstHolder(holders, req.savingAccountId).Some?
  }

  /** The row an admissible opening inserts: active, paid out as of its start, ending `months` later. */
  function OpenedDeposit(req: FixedDepositCreate, now: DateTime, ends: DateTime): (fd: FixedDeposit)
    requires ValidDateTime(now) && ValidDateTime(ends)
    ensures fd.status && fd.lastPayoutDate == Some(fd.startDate) && fd.startDate == ToInstant(now)
    ensures fd.accountId == req.savingAccountId && fd.planId == req.fPlanId
    ensures fd.principal == req.principalAmount && fd.interestPaymentType == req.interestPaymentType
    ensures fd.endDate == ToInstant(ends)
  {
    FixedDeposit(req.savingAccountId, req.fPlanId, ToInstant(now), ToInstant(ends), req.principalAmount,
                 req.interestPaymentType, Some(ToInstant(now)), true)
  }

  /** The checks `create_fixed_deposit` makes before its first write, in the order it makes them. */
  method CheckOpening(db: Db, caller: Caller, req: FixedDepositCreate, now: DateTime) returns (r: Result<FixedDeposit, FdError>)
    requires ValidDateTime(now)
    ensures Get(caller, "type") == None || Get(caller, "type") == Some("") ==> r == Err(InvalidUserType)
    ensures r.Ok? <==> Eligible(db.accounts, db.fdPlans, db.employees, db.fds, caller, req, now)
    ensures r.Ok? ==> r.value == OpenedDeposit(req, now, AddMonths(now, db.fdPlans[req.fPlanId].months).value)
    ensures r.Ok? ==> HasActiveFd(db.fds, req.savingAccountId) == false
  {
    var role := FdRole(caller);
    if role.Err? {
      return Err(role.error);
    }
    var employeeId := Get(caller, "employee_id");
    var branch: Option<string> := None;
    if role.value == ManagerRole {
      branch := CallerBranch(caller, db.employees);
      if branch.None? {
        return Err(NoBranchAssigned);
      }
    }
    var a := req.savingAccountId;
    if !(a < |db.accounts| && db.accounts[a].status) {
      return Err(InvalidAccount);
    }
    var account := db.accounts[a];
    if role.value == AgentRole && account.employeeId != employeeId {
      return Err(NotAccountAgent);
    }
    if role.value == ManagerRole && account.branchId != branch {
      return Err(NotAccountBranch);
    }
    if req.fPlanId !in db.fdPlans {
      return Err(InvalidPlan);
    }
    var months := db.fdPlans[req.fPlanId].months;
    if HasActiveFd(db.fds, a) {
      return Err(ActiveFdExists);
    }
    var ends := AddMonths(now, months);
    if ends.Err? {
      return Err(EndDateInvalid(ends.error));
    }
    r := Ok(OpenedDeposit(req, now, ends.value));
  }

  /**
   * The writes of `create_fixed_deposit`: the deposit row is inserted first; a balance below the
   * principal, or an account without a holder, is detected afterwards and the rollback removes the row
   * and the debit again. Otherwise the principal is debited and one Withdrawal row of it is appended for
   * the account's first holder.
   */
  method ReservePrincipal(db: Db, fd: FixedDeposit, now: Instant) returns (r: Result<FdId, FdError>)
    requires db.Valid()
    requires fd.accountId < |db.accounts| && !HasActiveFd(db.fds, fd.accountId)
    modifies db
    ensures db.Valid()
    ensures db.Directory() == old(db.Directory()) && db.holders == old(db.holders)
    ensures var a := fd.accountId;
      && (old(db.accounts[a].balance) < fd.principal ==> r == Err(InsufficientFunds(old(db.accounts[a].balance), fd.principal)))
      && (r.Ok? <==> old(db.accounts[a].balance) >= fd.principal && FirstHolder(db.holders, a).Some?)
    ensures r.Err? ==> db.accounts == old(db.accounts) && db.txns == old(db.txns) && db.fds == old(db.fds)
    ensures r.Ok? ==>
      var a := fd.accountId;
      && db.fds == old(db.fds) + [fd]
      && r.value == |old(db.fds)|
      && db.accounts == old(db.accounts)[a := old(db.accounts)[a].(balance := old(db.accounts)[a].balance - fd.principal)]
      && db.txns == old(db.txns) + [Txn(FirstHolder(db.holders, a).value, Withdrawal, fd.principal, now, FdPrincipalDeduction)]
    ensures forall a :: 0 <= a < |old(db.accounts)| ==> db.Drift(a) == old(db.Drift(a))
  {
    // The storage transaction works on copies of the tables; only a success commits them.
    var a := fd.accountId;
    var account := db.accounts[a];
    var fds := db.fds + [fd];
    var fdId := |fds| - 1;
    if account.balance < fd.principal {
      return Err(InsufficientFunds(account.balance, fd.principal));
    }
    var accounts := db.accounts[a := account.(balance := account.balance - fd.principal)];
    var holder := FirstHolder(db.holders, a);
    if holder.None? {
      return Err(NoHolder);
    }
    var row := Txn(holder.value, Withdrawal, fd.principal, now, FdPrincipalDeduction);
    PostingKeepsDrift(db.accounts, db.holders, db.txns, row, accounts);
    OpeningKeepsOneActive(db.fds, fd);
    db.fds, db.accounts, db.txns := fds, accounts, db.txns + [row];
    r := Ok(fdId);
  }

  /** `create_fixed_deposit`: the checks, then the writes, in one storage transaction. */
  method CreateFixedDeposit(db: Db, caller: Caller, req: FixedDepositCreate, now: DateTime)
    returns (r: Result<FixedDepositRead, FdError>)
    requires db.Valid() && ValidDateTime(now)
    modifies db
    ensures db.Valid()
    ensures db.Directory() == old(db.Directory()) && db.holders == old(db.holders)
    ensures Get(caller, "type") == None || Get(caller, "type") == Some("") ==> r == Err(InvalidUserType)
    ensures r.Ok? <==> Admissible(old(db.accounts), db.fdPlans, db.employees, db.holders, old(db.fds), caller, req, now)
    ensures r.Err? ==> db.accounts == old(db.accounts) && db.txns == old(db.txns) && db.fds == old(db.fds)
    ensures r.Ok? ==>
      var a := req.savingAccountId;
      var fd := OpenedDeposit(req, now, AddMonths(now, db.fdPlans[req.fPlanId].months).value);
      && db.fds == old(db.fds) + [fd]
      && r.value == FixedDepositRead(|old(db.fds)|, fd)
      && db.accounts == old(db.accounts)[a := old(db.accounts)[a].(balance := old(db.accounts)[a].balance - req.principalAmount)]
      && db.txns == old(db.txns) + [Txn(FirstHolder(db.holders, a).value, Withdrawal, req.principalAmount,
                                        ToInstant(now), FdPrincipalDeduction)]
    ensures forall a :: 0 <= a < |old(db.accounts)| ==> db.Drift(a) == old(db.Drift(a))
  {
    var checked := CheckOpening(db, caller, req, now);
    if checked.Err? {
      return Err(checked.error);
    }
    var fd := checked.value;
    var reserved := ReservePrincipal(db, fd, ToInstant(now));
    if reserved.Err? {
      return Err(reserved.error);
    }
    r := Ok(FixedDepositRead(reserved.value, fd));
  }

  /** The deposits of account `a` in table order, each with its id. */
  function AccountFds(fds: seq<FixedDeposit>, a: AccountId): (r: seq<FixedDepositRead>)
    ensures forall j :: 0 <= j < |fds| && fds[j].accountId == a ==> FixedDepositRead(j, fds[j]) in r
    ensures forall x :: x in r ==>
              (x.fixedDepositId < |fds| && x.deposit == fds[x.fixedDepositId] && x.deposit.accountId == a)
    ensures forall i, j :: 0 <= i < j < |r| ==> r[i].fixedDepositId < r[j].fixedDepositId
    decreases |fds|
  {
    if fds == [] then []
    else
      var n := |fds| - 1;
      var prefix := AccountFds(fds[..n], a);
      assert forall j :: 0 <= j < n ==> fds[..n][j] == fds[j];
      prefix + (if fds[n].accountId == a then [FixedDepositRead(n, fds[n])] else [])
  }

  function StartKey(x: FixedDepositRead): int { x.deposit.startDate }

  /** `search_fixed_deposits_by_account_number`: the account must exist; its deposits, latest start first. */
  method SearchFixedDeposits(db: Db, req: AccountSearchRequest) returns (r: Result<seq<FixedDepositRead>, FdError>)
    ensures r.Err? <==> req.savingAccountId >= |db.accounts|
    ensures r.Err? ==> r.error == AccountNotFound
    ensures r.Ok? ==> SortedDesc(r.value, StartKey)
    ensures r.Ok? ==> multiset(r.value) == multiset(AccountFds(db.fds, req.savingAccountId))
  {
    var a := req.savingAccountId;
    if a >= |db.accounts| {
      return Err(AccountNotFound);
    }
    var found: seq<FixedDepositRead> := [];
    var j := 0;
    while j < |db.fds|
      invariant 0 <= j <= |db.fds|
      invariant found == AccountFds(db.fds[..j], a)
    {
      assert db.fds[..j + 1][..j] == db.fds[..j];
      if db.fds[j].accountId == a {
        found := found + [FixedDepositRead(j, db.fds[j])];
      }
      j := j + 1;
    }
    assert db.fds[..j] == db.fds;
    r := Ok(SortDesc(found, StartKey));
  }
}
