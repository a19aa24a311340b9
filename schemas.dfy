/**
 * The request and record types of the backend: the closed enumerations and the field
 * constraints that request validation enforces before any operation runs.
 */
module Schemas {
  import opened Wrappers
  import opened Dates

  /** Employee roles. */
  datatype Etype = Agent | BranchManager | Admin

  function EtypeValue(e: Etype): string {
    match e
    case Agent => "Agent"
    case BranchManager => "Branch Manager"
    case Admin => "Admin"
  }

  /** Reading a role from its value: exactly the three values are accepted. */
  function ParseEtype(s: string): (r: Option<Etype>)
    ensures r.Some? <==> s == "Agent" || s == "Branch Manager" || s == "Admin"
    ensures r.Some? ==> EtypeValue(r.value) == s
  {
    if s == "Agent" then Some(Agent)
    else if s == "Branch Manager" then Some(BranchManager)
    else if s == "Admin" then Some(Admin)
    else None
  }

  /** Savings plan names. */
  datatype Stype = Children | Teen | Adult | Senior | Joint

  function StypeValue(p: Stype): string {
    match p
    case Children => "Children"
    case Teen => "Teen"
    case Adult => "Adult"
    case Senior => "Senior"
    case Joint => "Joint"
  }

  function ParseStype(s: string): (r: Option<Stype>)
    ensures r.Some? <==> s == "Children" || s == "Teen" || s == "Adult" || s == "Senior" || s == "Joint"
    ensures r.Some? ==> StypeValue(r.value) == s
  {
    if s == "Children" then Some(Children)
    else if s == "Teen" then Some(Teen)
    else if s == "Adult" then Some(Adult)
    else if s == "Senior" then Some(Senior)
    else if s == "Joint" then Some(Joint)
    else None
  }

  /** Kinds of ledger rows. */
  datatype Trantype = Interest | Withdrawal | Deposit

  function TrantypeValue(t: Trantype): string {
    match t
    case Interest => "Interest"
    case Withdrawal => "Withdrawal"
    case Deposit => "Deposit"
  }

  function ParseTrantype(s: string): (r: Option<Trantype>)
    ensures r.Some? <==> s == "Interest" || s == "Withdrawal" || s == "Deposit"
    ensures r.Some? ==> TrantypeValue(r.value) == s
  {
    if s == "Interest" then Some(Interest)
    else if s == "Withdrawal" then Some(Withdrawal)
    else if s == "Deposit" then Some(Deposit)
    else None
  }

  /** Every enumeration value reads back as itself, so the value strings are pairwise distinct. */
  lemma EnumRoundTrips(e: Etype, p: Stype, t: Trantype)
    ensures ParseEtype(EtypeValue(e)) == Some(e)
    ensures ParseStype(StypeValue(p)) == Some(p)
    ensures ParseTrantype(TrantypeValue(t)) == Some(t)
  {
  }

  /** A decimal with at most two places after the point (`decimal_places=2`). */
  predicate HasCents(x: real) { (x * 100.0).Floor as real == x * 100.0 }

  predicate FitsIn(s: string, n: nat) { |s| <= n }

  predicate OptionalFitsIn(s: Option<string>, n: nat) { s.Some? ==> |s.value| <= n }

  datatype SchemaError =
    | UnknownEnumValue
    | NotPositive
    | TooManyDecimalPlaces
    | MissingField
    | TooLong

  /**
   * What a row's `description` says. The text itself is formatting; the model keeps the facts it
   * records: a caller-supplied text, or the fixed deposit event that produced the row.
   */
  datatype Memo =
    | Given(text: Option<string>)
    | FdPrincipalDeduction
    | FdInterest(periods: nat, fdId: nat)
    | FdMaturity(principal: real, interest: real, fdId: nat)

  /** A request to post one ledger row against a holder. */
  datatype TransactionsCreate = TransactionsCreate(
    holderId: nat, kind: Trantype, amount: real, timestamp: Option<Instant>,
    refNumber: int, description: Option<string>)

  predicate ValidTransactionsCreate(t: TransactionsCreate) {
    t.amount > 0.0 && HasCents(t.amount) && OptionalFitsIn(t.description, 255)
  }

  /**
   * Validation of a posting request: the type must be one of the three kinds, the amount strictly
   * positive with at most two decimal places, `ref_number` present and the description at most
   * 255 characters; the timestamp may be left out.
   */
  function ValidateTransactionsCreate(
    holderId: nat, kind: string, amount: real, timestamp: Option<Instant>,
    refNumber: Option<int>, description: Option<string>): (r: Result<TransactionsCreate, SchemaError>)
    ensures r.Ok? <==> ParseTrantype(kind).Some? && amount > 0.0 && HasCents(amount)
                       && refNumber.Some? && OptionalFitsIn(description, 255)
    ensures r.Ok? ==> ValidTransactionsCreate(r.value)
    ensures r.Ok? ==> r.value == TransactionsCreate(holderId, ParseTrantype(kind).value, amount,
                                                  timestamp, refNumber.value, description)
  {
    if ParseTrantype(kind).None? then Err(UnknownEnumValue)
    else if !(amount > 0.0) then Err(NotPositive)
    else if !HasCents(amount) then Err(TooManyDecimalPlaces)
    else if refNumber.None? then Err(MissingField)
    else if !OptionalFitsIn(description, 255) then Err(TooLong)
    else Ok(TransactionsCreate(holderId, ParseTrantype(kind).value, amount, timestamp, refNumber.value, description))
  }

  datatype SavingsAccountCreate = SavingsAccountCreate(
    openDate: Instant, balance: real, employeeId: string, sPlanId: string, status: bool, branchId: string)

  /** Validation of a savings account record; a missing balance defaults to 0.00. */
  function ValidateSavingsAccountCreate(
    openDate: Instant, balance: Option<real>, employeeId: string, sPlanId: string,
    status: bool, branchId: string): (r: Result<SavingsAccountCreate, SchemaError>)
    ensures balance.None? ==> (r.Ok? <==> FitsIn(employeeId, 10) && FitsIn(sPlanId, 5) && FitsIn(branchId, 7))
    ensures balance.None? && r.Ok? ==> r.value.balance == 0.0
    ensures r.Ok? <==> HasCents(balance.GetOr(0.0)) && FitsIn(employeeId, 10) && FitsIn(sPlanId, 5) && FitsIn(branchId, 7)
    ensures r.Ok? ==> r.value.balance == balance.GetOr(0.0) && r.value.sPlanId == sPlanId && r.value.status == status
  {
    var b := balance.GetOr(0.0);
    assert b == 0.0 ==> b * 100.0 == 0.0;
    if !HasCents(b) then Err(TooManyDecimalPlaces)
    else if !(FitsIn(employeeId, 10) && FitsIn(sPlanId, 5) && FitsIn(branchId, 7)) then Err(TooLong)
    else Ok(SavingsAccountCreate(openDate, b, employeeId, sPlanId, status, branchId))
  }

  datatype SavingsAccountPlansCreate = SavingsAccountPlansCreate(planName: Stype, interestRate: string, minBalance: real)

  /** A savings plan: a known plan name, a rate stored as text of at most 5 characters, a two-place minimum. */
  function ValidateSavingsAccountPlansCreate(planName: string, interestRate: string, minBalance: real)
    : (r: Result<SavingsAccountPlansCreate, SchemaError>)
    ensures r.Ok? <==> ParseStype(planName).Some? && FitsIn(interestRate, 5) && HasCents(minBalance)
    ensures r.Ok? ==> StypeValue(r.value.planName) == planName && r.value.interestRate == interestRate
                      && r.value.minBalance == minBalance
  {
    if ParseStype(planName).None? then Err(UnknownEnumValue)
    else if !FitsIn(interestRate, 5) then Err(TooLong)
    else if !HasCents(minBalance) then Err(TooManyDecimalPlaces)
    else Ok(SavingsAccountPlansCreate(ParseStype(planName).value, interestRate, minBalance))
  }

  /** A fixed deposit plan as requested; its term in months is text, as is its rate. */
  datatype FixedDepositPlansCreate = FixedDepositPlansCreate(months: string, interestRate: string)

  function ValidateFixedDepositPlansCreate(months: string, interestRate: string)
    : (r: Result<FixedDepositPlansCreate, SchemaError>)
    ensures r.Ok? <==> FitsIn(months, 15) && FitsIn(interestRate, 5)
    ensures r.Ok? ==> r.value.months == months && r.value.interestRate == interestRate
  {
    if FitsIn(months, 15) && FitsIn(interestRate, 5) then Ok(FixedDepositPlansCreate(months, interestRate))
    else Err(TooLong)
  }

  /**
   * A request to open a fixed deposit. Opening reads only the account, the plan, the principal and
   * the payout mode from it; the dates and status it carries are recomputed.
   */
  datatype FixedDepositCreate = FixedDepositCreate(
    savingAccountId: nat, fPlanId: string, startDate: Instant, endDate: Instant,
    principalAmount: real, interestPaymentType: bool, lastPayoutDate: Option<Instant>, status: bool)

  /** The principal has at most two decimal places (it is not required to be positive); the last payout may be absent. */
  function ValidateFixedDepositCreate(
    savingAccountId: nat, fPlanId: string, startDate: Instant, endDate: Instant, principalAmount: real,
    interestPaymentType: bool, lastPayoutDate: Option<Instant>, status: bool): (r: Result<FixedDepositCreate, SchemaError>)
    ensures r.Ok? <==> FitsIn(fPlanId, 5) && HasCents(principalAmount)
    ensures r.Ok? ==> r.value.lastPayoutDate == lastPayoutDate && r.value.principalAmount == principalAmount
                      && r.value.interestPaymentType == interestPaymentType
  {
    if !FitsIn(fPlanId, 5) then Err(TooLong)
    else if !HasCents(principalAmount) then Err(TooManyDecimalPlaces)
    else Ok(FixedDepositCreate(savingAccountId, fPlanId, startDate, endDate, principalAmount,
                               interestPaymentType, lastPayoutDate, status))
  }

  /** The account number a search is about. */
  datatype AccountSearchRequest = AccountSearchRequest(savingAccountId: nat)

  datatype JointAccountCreate = JointAccountCreate(
    primaryCustomerId: string, secondaryCustomerId: string, sPlanId: string, initialBalance: real)

  /** A joint account and its holders; the three lists are aligned index by index. */
  datatype JointAccountRead = JointAccountRead(
    savingAccountId: nat, holderIds: seq<nat>, customerNames: seq<string>, customerNics: seq<string>)
}
