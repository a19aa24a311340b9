/**
 * The scheduled fixed-deposit passes (Backend/tasks.py): monthly interest accrual on running
 * deposits and the payout of matured ones, each one storage transaction over a snapshot of the
 * deposits it selects; the read-only interest report; and the scheduler's flag and dispatch rule.
 */
module Tasks {
  import opened Wrappers
  import opened Text
  import opened Dates
  import opened Schemas
  import opened Store
  import opened Callers
  import opened Ordering

  datatype TaskError = UnparsableRate(fdId: FdId) | MissingUserType | NotPermitted

  /**
   * What a pass does for one deposit: the ledger row it appends (holder, type, amount, description)
   * and the deposit's row afterwards. The account credited is the holder's.
   */
  datatype Posting = Posting(holderId: HolderId, kind: Trantype, amount: real, memo: Memo, updated: FixedDeposit)

  /** A pass's per-deposit decision: nothing to do, a posting, or an error that aborts the pass. */
  type Step = (FdId, FixedDeposit) -> Result<Option<Posting>, TaskError>

  /** A plan's rate text such as "13%" read as a decimal number of percent. */
  function RateOf(text: string): Option<real> {
    ParseDecimal(RemoveAll(text, '%'))
  }

  /** Digits have no percent sign. */
  lemma NoPercentInDigits(s: string)
    requires AllDigits(s)
    ensures '%' !in s
  {
  }

  /** A decimal literal has no percent sign. */
  lemma NoPercentInLiteral(sign: Sign, whole: string, point: bool, frac: string)
    requires DecimalParts(whole, point, frac)
    ensures '%' !in DecimalText(sign, whole, point, frac)
  {
    NoPercentInDigits(whole);
    NoPercentInDigits(frac);
    var u := UnsignedText(whole, point, frac);
    assert '%' !in u by {
      if point {
        assert '%' !in "." + frac;
      }
    }
    match sign
    case NoSign =>
    case Plus => assert '%' !in ['+'] + u;
    case Minus => assert '%' !in ['-'] + u;
  }

  /** Removing the percent signs from a literal followed by `%` leaves the literal. */
  lemma PercentDropped(lit: string)
    requires '%' !in lit
    ensures RemoveAll(lit + "%", '%') == lit
  {
    RemoveAllAppend(lit, "%", '%');
    RemoveAllOne('%', '%');
    assert lit + [] == lit;
  }

  /** A decimal literal followed by a percent sign, as plans store their rates, reads as that many percent. */
  lemma RateOfPercent(sign: Sign, whole: string, point: bool, frac: string)
    requires DecimalParts(whole, point, frac)
    ensures RateOf(DecimalText(sign, whole, point, frac) + "%") == Some(DecimalValue(sign, whole, frac))
  {
    NoPercentInLiteral(sign, whole, point, frac);
    PercentDropped(DecimalText(sign, whole, point, frac));
    ParseDecimalAccepts(sign, whole, point, frac);
  }

  /** Rates are read as Python's `Decimal` reads them: an accepted rate is spelled by a decimal literal once the percent signs are gone. */
  lemma RateOfForms(text: string)
    ensures RateOf(text).Some? <==>
      exists sign, whole, point, frac {:trigger DecimalText(sign, whole, point, frac)} ::
        DecimalParts(whole, point, frac) && RemoveAll(text, '%') == DecimalText(sign, whole, point, frac)
  {
    ParseDecimalForms(RemoveAll(text, '%'));
  }

  /** Digits followed by a percent sign read as the number the digits spell. */
  lemma DigitsPercent(digits: string)
    requires |digits| >= 1 && AllDigits(digits)
    ensures RateOf(digits + "%") == Some(DigitsValue(digits) as real)
  {
    assert UnsignedText(digits, false, "") == digits + "" == digits;
    RateOfPercent(NoSign, digits, false, "");
  }

  /** A whole number of percent, as the plans' rates are written ("13%"), reads as that number. */
  lemma RateOfWholePercent(n: nat)
    ensures RateOf(NatToString(n) + "%") == Some(n as real)
  {
    DigitsPercent(NatToString(n));
  }

  /** `last_payout_date or start_date`. */
  function LastPayout(fd: FixedDeposit): Instant {
    fd.lastPayoutDate.GetOr(fd.startDate)
  }

  /** Interest for whole 30-day periods at a twelfth of the annual rate per period. */
  function PeriodInterest(principal: real, rate: real, periods: int): real {
    principal * (rate / 100.0 / 12.0) * periods as real
  }

  /** Interest for the days from the last payout to maturity at a 365th of the annual rate per day. */
  function DailyInterest(principal: real, rate: real, days: int): real {
    principal * (rate / 100.0 / 365.0) * days as real
  }

  /** The accrual pass's selection: active, not yet ended, with a plan to join. */
  predicate DueForAccrual(fd: FixedDeposit, plans: map<string, FdPlan>, now: Instant) {
    fd.status && fd.endDate > now && fd.planId in plans
  }

  /** The maturity pass's selection: active, ended, with a plan to join. */
  predicate DueForMaturity(fd: FixedDeposit, plans: map<string, FdPlan>, now: Instant) {
    fd.status && fd.endDate <= now && fd.planId in plans
  }

  /** The two selections split the active deposits with a plan by their end date. */
  lemma SelectionsPartition(fd: FixedDeposit, plans: map<string, FdPlan>, now: Instant)
    ensures !(DueForAccrual(fd, plans, now) && DueForMaturity(fd, plans, now))
    ensures fd.status && fd.planId in plans <==> DueForAccrual(fd, plans, now) || DueForMaturity(fd, plans, now)
  {
  }

  /**
   * The accrual pass for one deposit. Deposits with fewer than 30 whole days since the last payout
   * are left alone; otherwise the interest for the whole periods is computed, and a positive amount
   * is credited through the account's first holder while the payout date moves forward by exactly
   * those periods, so the remainder of days carries over.
   */
  function AccrualFor(id: FdId, fd: FixedDeposit, plans: map<string, FdPlan>, holders: seq<AccountHolder>, now: Instant)
    : (r: Result<Option<Posting>, TaskError>)
    ensures !DueForAccrual(fd, plans, now) || WholeDays(LastPayout(fd), now) < 30 ==> r == Ok(None)
    ensures r.Err? <==> DueForAccrual(fd, plans, now) && WholeDays(LastPayout(fd), now) >= 30
                        && RateOf(plans[fd.planId].interestRate).None?
    ensures r.Err? ==> r.error == UnparsableRate(id)
    ensures r.Ok? && r.value.Some? ==>
      var p := r.value.value;
      var days := WholeDays(LastPayout(fd), now);
      && DueForAccrual(fd, plans, now) && days >= 30
      && p.kind == Interest && p.amount > 0.0
      && p.amount == PeriodInterest(fd.principal, RateOf(plans[fd.planId].interestRate).value, days / 30)
      && FirstHolder(holders, fd.accountId) == Some(p.holderId)
      && p.memo == FdInterest(days / 30, id)
      && p.updated == fd.(lastPayoutDate := Some(AddDays(LastPayout(fd), days / 30 * 30)))
      && LastPayout(p.updated) <= now
      && WholeDays(LastPayout(p.updated), now) == days % 30
    ensures r.Ok? && r.value.None? && DueForAccrual(fd, plans, now) && WholeDays(LastPayout(fd), now) >= 30 ==>
      PeriodInterest(fd.principal, RateOf(plans[fd.planId].interestRate).value, WholeDays(LastPayout(fd), now) / 30) <= 0.0
      || FirstHolder(holders, fd.accountId).None?
  {
    if !DueForAccrual(fd, plans, now) then Ok(None)
    else
      var last := LastPayout(fd);
      var days := WholeDays(last, now);
      if days < 30 then Ok(None)
      else
        var periods := days / 30;
        match RateOf(plans[fd.planId].interestRate)
        case None => Err(UnparsableRate(id))
        case Some(rate) =>
          var interest := PeriodInterest(fd.principal, rate, periods);
          if interest <= 0.0 then Ok(None)
          else
            match FirstHolder(holders, fd.accountId)
            case None => Ok(None)
            case Some(h) =>
              WholeDaysAfterAdvance(last, periods * 30, now);
              AdvanceByWholeDaysStaysBefore(last, periods * 30, now);
              Ok(Some(Posting(h, Interest, interest, FdInterest(periods, id),
                              fd.(lastPayoutDate := Some(AddDays(last, periods * 30))))))
  }

  /**
   * The maturity pass for one deposit: the principal plus, when days remain between the last payout
   * and the end date, daily interest for them, credited as one Deposit through the first holder; the
   * deposit is then closed. Without a holder the deposit is skipped and stays open.
   */
  function MaturityFor(id: FdId, fd: FixedDeposit, plans: map<string, FdPlan>, holders: seq<AccountHolder>, now: Instant)
    : (r: Result<Option<Posting>, TaskError>)
    ensures !DueForMaturity(fd, plans, now) ==> r == Ok(None)
    ensures r.Err? <==> DueForMaturity(fd, plans, now) && WholeDays(LastPayout(fd), fd.endDate) > 0
                        && RateOf(plans[fd.planId].interestRate).None?
    ensures r.Err? ==> r.error == UnparsableRate(id)
    ensures r.Ok? && r.value.None? && DueForMaturity(fd, plans, now) ==> FirstHolder(holders, fd.accountId).None?
    ensures r.Ok? && r.value.Some? ==>
      var p := r.value.value;
      var days := WholeDays(LastPayout(fd), fd.endDate);
      var interest := if days > 0 then DailyInterest(fd.principal, RateOf(plans[fd.planId].interestRate).value, days) else 0.0;
      && DueForMaturity(fd, plans, now)
      && p.kind == Deposit
      && p.amount == fd.principal + interest
      && FirstHolder(holders, fd.accountId) == Some(p.holderId)
      && p.memo == FdMaturity(fd.principal, interest, id)
      && p.updated == fd.(status := false)
  {
    if !DueForMaturity(fd, plans, now) then Ok(None)
    else
      var days := WholeDays(LastPayout(fd), fd.endDate);
      var interest :=
        if days > 0 then
          match RateOf(plans[fd.planId].interestRate)
          case None => Err(UnparsableRate(id))
          case Some(rate) => Ok(DailyInterest(fd.principal, rate, days))
        else Ok(0.0);
      if interest.Err? then Err(interest.error)
      else
        match FirstHolder(holders, fd.accountId)
        case None => Ok(None)
        case Some(h) =>
          Ok(Some(Posting(h, Deposit, fd.principal + interest.value, FdMaturity(fd.principal, interest.value, id),
                          fd.(status := false))))
  }

  function AccrualStep(plans: map<string, FdPlan>, holders: seq<AccountHolder>, now: Instant): Step {
    (id: FdId, fd: FixedDeposit) => AccrualFor(id, fd, plans, holders, now)
  }

  function MaturityStep(plans: map<string, FdPlan>, holders: seq<AccountHolder>, now: Instant): Step {
    (id: FdId, fd: FixedDeposit) => MaturityFor(id, fd, plans, holders, now)
  }

  /** The postings of a pass over the first `n` deposits, in table order; the first error aborts it. */
  function Postings(fds: seq<FixedDeposit>, step: Step, n: nat): Result<seq<Posting>, TaskError>
    requires n <= |fds|
    decreases n
  {
    if n == 0 then Ok([])
    else
      match Postings(fds, step, n - 1)
      case Err(e) => Err(e)
      case Ok(ps) =>
        match step(n - 1, fds[n - 1])
        case Err(e) => Err(e)
        case Ok(None) => Ok(ps)
        case Ok(Some(p)) => Ok(ps + [p])
  }

  /** Once a pass has failed, looking at more deposits does not change the outcome. */
  lemma {:induction false} FailedPassStaysFailed(fds: seq<FixedDeposit>, step: Step, i: nat, n: nat)
    requires i <= n <= |fds| && Postings(fds, step, i).Err?
    ensures Postings(fds, step, n) == Postings(fds, step, i)
    decreases n - i
  {
    if i < n {
      FailedPassStaysFailed(fds, step, i + 1, n);
    }
  }

  /** A deposit's row after the pass. */
  function SettledRow(step: Step, id: FdId, fd: FixedDeposit): FixedDeposit {
    var o := step(id, fd);
    if o.Ok? && o.value.Some? then o.value.value.updated else fd
  }

  function Settled(fds: seq<FixedDeposit>, step: Step): seq<FixedDeposit> {
    seq(|fds|, j requires 0 <= j < |fds| => SettledRow(step, j, fds[j]))
  }

  function PostingRow(p: Posting, now: Instant): Txn {
    Txn(p.holderId, p.kind, p.amount, now, p.memo)
  }

  /** The ledger rows a pass appends, all stamped with the pass's clock reading. */
  function Rows(ps: seq<Posting>, now: Instant): seq<Txn> {
    seq(|ps|, k requires 0 <= k < |ps| => PostingRow(ps[k], now))
  }

  function Total(ps: seq<Posting>): real
    decreases |ps|
  {
    if ps == [] then 0.0 else Total(ps[..|ps| - 1]) + ps[|ps| - 1].amount
  }

  /** `processed_count` and the running total a pass logs. */
  datatype PassSummary = PassSummary(processedCount: nat, total: real)

  /** A posting credits an account of the deposit's own through one of its holders and never reopens a deposit. */
  predicate PostingFits(o: Result<Option<Posting>, TaskError>, fd: FixedDeposit, holders: seq<AccountHolder>) {
    o.Ok? && o.value.Some? ==>
      var p := o.value.value;
      && p.kind != Withdrawal
      && p.holderId < |holders| && holders[p.holderId].accountId == fd.accountId
      && p.updated.accountId == fd.accountId && (p.updated.status ==> fd.status)
  }

  predicate StepFits(step: Step, fds: seq<FixedDeposit>, holders: seq<AccountHolder>) {
    forall j :: 0 <= j < |fds| ==> PostingFits(step(j, fds[j]), fds[j], holders)
  }

  lemma AccrualFits(fds: seq<FixedDeposit>, plans: map<string, FdPlan>, holders: seq<AccountHolder>, now: Instant)
    ensures StepFits(AccrualStep(plans, holders, now), fds, holders)
  {
    forall j | 0 <= j < |fds| ensures PostingFits(AccrualStep(plans, holders, now)(j, fds[j]), fds[j], holders) {
      var o := AccrualFor(j, fds[j], plans, holders, now);
      assert AccrualStep(plans, holders, now)(j, fds[j]) == o;
    }
  }

  lemma MaturityFits(fds: seq<FixedDeposit>, plans: map<string, FdPlan>, holders: seq<AccountHolder>, now: Instant)
    ensures StepFits(MaturityStep(plans, holders, now), fds, holders)
  {
    forall j | 0 <= j < |fds| ensures PostingFits(MaturityStep(plans, holders, now)(j, fds[j]), fds[j], holders) {
      var o := MaturityFor(j, fds[j], plans, holders, now);
      assert MaturityStep(plans, holders, now)(j, fds[j]) == o;
    }
  }

  lemma RowsSnoc(ps: seq<Posting>, p: Posting, now: Instant)
    ensures Rows(ps + [p], now) == Rows(ps, now) + [PostingRow(p, now)]
  {
  }

  lemma TotalSnoc(ps: seq<Posting>, p: Posting)
    ensures Total(ps + [p]) == Total(ps) + p.amount
  {
    assert (ps + [p])[..|ps|] == ps;
  }

  /** The tables a pass writes, as the storage transaction sees them. */
  datatype Tables = Tables(accounts: seq<SavingsAccount>, txns: seq<Txn>, fds: seq<FixedDeposit>)

  /** The working copy after `done` was posted: one ledger row per posting, each account credited with its net. */
  ghost predicate Credited(start: Tables, holders: seq<AccountHolder>, accounts: seq<SavingsAccount>, txns: seq<Txn>,
                           done: seq<Posting>, now: Instant) {
    && txns == start.txns + Rows(done, now)
    && |accounts| == |start.accounts|
    && forall a :: 0 <= a < |accounts| ==>
         accounts[a] == start.accounts[a].(balance := start.accounts[a].balance + LedgerNet(Rows(done, now), holders, a))
  }

  /** One posting of a pass: the holder's account is credited and the posting's ledger row appended. */
  method Credit(start: Tables, holders: seq<AccountHolder>, accounts: seq<SavingsAccount>, txns: seq<Txn>,
                done: seq<Posting>, p: Posting, now: Instant)
    returns (accounts': seq<SavingsAccount>, txns': seq<Txn>)
    requires p.kind != Withdrawal && p.holderId < |holders|
    requires forall h :: 0 <= h < |holders| ==> holders[h].accountId < |start.accounts|
    requires Credited(start, holders, accounts, txns, done, now)
    ensures Credited(start, holders, accounts', txns', done + [p], now)
  {
    var a := holders[p.holderId].accountId;
    RowsSnoc(done, p, now);
    forall b | 0 <= b < |accounts|
      ensures LedgerNet(Rows(done + [p], now), holders, b)
           == LedgerNet(Rows(done, now), holders, b) + (if b == a then p.amount else 0.0)
    {
      LedgerNetAppendOne(Rows(done, now), PostingRow(p, now), holders, b);
    }
    accounts' := accounts[a := accounts[a].(balance := accounts[a].balance + p.amount)];
    txns' := txns + [PostingRow(p, now)];
  }

  /**
   * The loop of a pass over a snapshot of the deposits, in table order: each posting credits the
   * holder's account, appends its row and updates the deposit; a failing decision stops the loop.
   */
  method ApplyPass(start: Tables, holders: seq<AccountHolder>, step: Step, now: Instant)
    returns (r: Result<(Tables, PassSummary), TaskError>)
    requires forall h :: 0 <= h < |holders| ==> holders[h].accountId < |start.accounts|
    requires StepFits(step, start.fds, holders)
    ensures var outcome := Postings(start.fds, step, |start.fds|);
      && (r.Err? <==> outcome.Err?)
      && (r.Err? ==> r.error == outcome.error)
      && (r.Ok? ==>
            var (t, summary) := r.value;
            && summary == PassSummary(|outcome.value|, Total(outcome.value))
            && t.fds == Settled(start.fds, step)
            && t.txns == start.txns + Rows(outcome.value, now)
            && |t.accounts| == |start.accounts|
            && forall a :: 0 <= a < |start.accounts| ==>
                 t.accounts[a] == start.accounts[a].(balance := start.accounts[a].balance
                                                     + LedgerNet(Rows(outcome.value, now), holders, a)))
  {
    var accounts, txns, fds := start.accounts, start.txns, start.fds;
    var done: seq<Posting> := [];
    var count := 0;
    var total := 0.0;
    for i := 0 to |start.fds|
      invariant |fds| == |start.fds|
      invariant Postings(start.fds, step, i) == Ok(done)
      invariant count == |done| && total == Total(done)
      invariant forall j :: 0 <= j < i ==> fds[j] == SettledRow(step, j, start.fds[j])
      invariant forall j :: i <= j < |fds| ==> fds[j] == start.fds[j]
      invariant Credited(start, holders, accounts, txns, done, now)
    {
      // The decision is taken on the row as the pass's query returned it.
      var o := step(i, start.fds[i]);
      if o.Err? {
        FailedPassStaysFailed(start.fds, step, i + 1, |start.fds|);
        return Err(o.error);
      }
      if o.value.Some? {
        var p := o.value.value;
        assert PostingFits(o, start.fds[i], holders);
        accounts, txns := Credit(start, holders, accounts, txns, done, p, now);
        fds := fds[i := p.updated];
        TotalSnoc(done, p);
        done := done + [p];
        count := count + 1;
        total := total + p.amount;
      }
    }
    assert fds == Settled(start.fds, step);
    r := Ok((Tables(accounts, txns, fds), PassSummary(count, total)));
  }

  /** One pass as one storage transaction: the loop on a working copy, then one commit, or a rollback on failure. */
  method RunPass(db: Db, step: Step, now: Instant) returns (r: Result<PassSummary, TaskError>)
    requires db.Valid() && StepFits(step, db.fds, db.holders)
    modifies db
    ensures db.Valid()
    ensures db.Directory() == old(db.Directory()) && db.holders == old(db.holders)
    ensures var outcome := Postings(old(db.fds), step, |old(db.fds)|);
      && (r.Err? <==> outcome.Err?)
      && (r.Err? ==> r.error == outcome.error)
      && (r.Ok? ==> r.value == PassSummary(|outcome.value|, Total(outcome.value))
                    && db.fds == Settled(old(db.fds), step)
                    && db.txns == old(db.txns) + Rows(outcome.value, now)
                    && |db.accounts| == |old(db.accounts)|
                    && forall a :: 0 <= a < |old(db.accounts)| ==>
                         db.accounts[a] == old(db.accounts[a]).(balance := old(db.accounts[a].balance)
                                                                + LedgerNet(Rows(outcome.value, now), db.holders, a)))
    ensures r.Err? ==> db.accounts == old(db.accounts) && db.txns == old(db.txns) && db.fds == old(db.fds)
    ensures forall a :: 0 <= a < |old(db.accounts)| ==> db.Drift(a) == old(db.Drift(a))
  {
    var applied := ApplyPass(Tables(db.accounts, db.txns, db.fds), db.holders, step, now);
    if applied.Err? {
      return Err(applied.error);
    }
    var (t, summary) := applied.value;
    PassKeepsTables(Tables(db.accounts, db.txns, db.fds), db.holders, step, now, t);
    db.accounts, db.txns, db.fds := t.accounts, t.txns, t.fds;
    r := Ok(summary);
  }

  /** The tables a successful pass leaves keep referential integrity, the one-active-deposit rule and every drift. */
  lemma {:induction false} PassKeepsTables(start: Tables, holders: seq<AccountHolder>, step: Step, now: Instant, t: Tables)
    requires forall h :: 0 <= h < |holders| ==> holders[h].accountId < |start.accounts|
    requires forall i :: 0 <= i < |start.txns| ==> start.txns[i].holderId < |holders|
    requires forall i :: 0 <= i < |start.fds| ==> start.fds[i].accountId < |start.accounts|
    requires AtMostOneActive(start.fds) && StepFits(step, start.fds, holders)
    requires Postings(start.fds, step, |start.fds|).Ok?
    requires var done := Postings(start.fds, step, |start.fds|).value;
      && t.fds == Settled(start.fds, step)
      && t.txns == start.txns + Rows(done, now)
      && |t.accounts| == |start.accounts|
      && forall a :: 0 <= a < |start.accounts| ==>
           t.accounts[a] == start.accounts[a].(balance := start.accounts[a].balance + LedgerNet(Rows(done, now), holders, a))
    ensures forall i :: 0 <= i < |t.txns| ==> t.txns[i].holderId < |holders|
    ensures forall i :: 0 <= i < |t.fds| ==> t.fds[i].accountId < |t.accounts|
    ensures AtMostOneActive(t.fds)
    ensures forall a :: 0 <= a < |t.accounts| ==>
              t.accounts[a].balance - LedgerNet(t.txns, holders, a) == start.accounts[a].balance - LedgerNet(start.txns, holders, a)
  {
    var done := Postings(start.fds, step, |start.fds|).value;
    forall j | 0 <= j < |t.fds| ensures t.fds[j].accountId == start.fds[j].accountId && (t.fds[j].status ==> start.fds[j].status) {
      assert PostingFits(step(j, start.fds[j]), start.fds[j], holders);
    }
    ClosingKeepsOneActive(start.fds, t.fds);
    forall k | 0 <= k < |t.txns| ensures t.txns[k].holderId < |holders| {
      if k >= |start.txns| {
        PostedHolderExists(start.fds, step, holders, |start.fds|, k - |start.txns|, now);
      }
    }
    forall a | 0 <= a < |t.accounts|
      ensures t.accounts[a].balance - LedgerNet(t.txns, holders, a) == start.accounts[a].balance - LedgerNet(start.txns, holders, a)
    {
      LedgerNetAppend(start.txns, Rows(done, now), holders, a);
    }
  }

  /** Every posting of a pass whose decisions fit names an existing holder. */
  lemma {:induction false} PostedHolderExists(fds: seq<FixedDeposit>, step: Step, holders: seq<AccountHolder>, n: nat, k: nat, now: Instant)
    requires n <= |fds| && StepFits(step, fds, holders) && Postings(fds, step, n).Ok?
    requires k < |Postings(fds, step, n).value|
    ensures Postings(fds, step, n).value[k].holderId < |holders|
    ensures Rows(Postings(fds, step, n).value, now)[k].holderId < |holders|
  {
    var prev := Postings(fds, step, n - 1);
    assert prev.Ok?;
    assert PostingFits(step(n - 1, fds[n - 1]), fds[n - 1], holders);
    if k < |prev.value| {
      PostedHolderExists(fds, step, holders, n - 1, k, now);
    }
  }

  /**
   * `auto_calculate_fixed_deposit_interest` at clock reading `now`: every running deposit with at
   * least one whole 30-day period since its last payout is paid, in one transaction.
   */
  method AutoCalculateInterest(db: Db, now: Instant) returns (r: Result<PassSummary, TaskError>)
    requires db.Valid()
    modifies db
    ensures db.Valid()
    ensures db.Directory() == old(db.Directory()) && db.holders == old(db.holders)
    ensures |db.accounts| == |old(db.accounts)|
    ensures var step := AccrualStep(db.fdPlans, db.holders, now);
      var outcome := Postings(old(db.fds), step, |old(db.fds)|);
      && (r.Err? <==> outcome.Err?)
      && (r.Ok? ==> r.value == PassSummary(|outcome.value|, Total(outcome.value))
                    && db.fds == Settled(old(db.fds), step)
                    && db.txns == old(db.txns) + Rows(outcome.value, now)
                    && forall a :: 0 <= a < |old(db.accounts)| ==>
                         db.accounts[a] == old(db.accounts[a]).(balance := old(db.accounts[a].balance)
                                                                + LedgerNet(Rows(outcome.value, now), db.holders, a)))
    ensures r.Err? ==> db.accounts == old(db.accounts) && db.txns == old(db.txns) && db.fds == old(db.fds)
    ensures forall a :: 0 <= a < |old(db.accounts)| ==> db.Drift(a) == old(db.Drift(a))
  {
    AccrualFits(db.fds, db.fdPlans, db.holders, now);
    r := RunPass(db, AccrualStep(db.fdPlans, db.holders, now), now);
  }

  /** `auto_process_matured_deposits` at clock reading `now`: every ended deposit is paid out and closed, in one transaction. */
  method AutoProcessMatured(db: Db, now: Instant) returns (r: Result<PassSummary, TaskError>)
    requires db.Valid()
    modifies db
    ensures db.Valid()
    ensures db.Directory() == old(db.Directory()) && db.holders == old(db.holders)
    ensures |db.accounts| == |old(db.accounts)|
    ensures var step := MaturityStep(db.fdPlans, db.holders, now);
      var outcome := Postings(old(db.fds), step, |old(db.fds)|);
      && (r.Err? <==> outcome.Err?)
      && (r.Ok? ==> r.value == PassSummary(|outcome.value|, Total(outcome.value))
                    && db.fds == Settled(old(db.fds), step)
                    && db.txns == old(db.txns) + Rows(outcome.value, now)
                    && forall a :: 0 <= a < |old(db.accounts)| ==>
                         db.accounts[a] == old(db.accounts[a]).(balance := old(db.accounts[a].balance)
                                                                + LedgerNet(Rows(outcome.value, now), db.holders, a)))
    ensures r.Err? ==> db.accounts == old(db.accounts) && db.txns == old(db.txns) && db.fds == old(db.fds)
    ensures forall a :: 0 <= a < |old(db.accounts)| ==> db.Drift(a) == old(db.Drift(a))
  {
    MaturityFits(db.fds, db.fdPlans, db.holders, now);
    r := RunPass(db, MaturityStep(db.fdPlans, db.holders, now), now);
  }

  /** A deposit a pass has just settled gives that pass nothing more to do. */
  predicate SettlesQuietly(step: Step, id: FdId, fd: FixedDeposit) {
    var o := step(id, fd);
    o.Ok? && o.value.Some? ==> step(id, o.value.value.updated) == Ok(None)
  }

  /** When every settled deposit is quiet, running a successful pass again over its result posts nothing. */
  lemma {:induction false} RerunPostsNothing(fds: seq<FixedDeposit>, step: Step, n: nat)
    requires n <= |fds| && Postings(fds, step, n).Ok?
    requires forall j :: 0 <= j < |fds| ==> SettlesQuietly(step, j, fds[j])
    ensures Postings(Settled(fds, step), step, n) == Ok([])
  {
    if n > 0 {
      assert Postings(fds, step, n - 1).Ok?;
      RerunPostsNothing(fds, step, n - 1);
      assert SettlesQuietly(step, n - 1, fds[n - 1]);
    }
  }

  /** After its payout date has moved, a deposit has fewer than 30 whole days to pay for at the same instant. */
  lemma AccrualSettlesQuietly(id: FdId, fd: FixedDeposit, plans: map<string, FdPlan>, holders: seq<AccountHolder>, now: Instant)
    ensures SettlesQuietly(AccrualStep(plans, holders, now), id, fd)
  {
    var o := AccrualFor(id, fd, plans, holders, now);
    assert AccrualStep(plans, holders, now)(id, fd) == o;
    if o.Ok? && o.value.Some? {
      var p := o.value.value;
      assert AccrualStep(plans, holders, now)(id, p.updated) == AccrualFor(id, p.updated, plans, holders, now);
      assert WholeDays(LastPayout(p.updated), now) < 30;
    }
  }

  /** A matured deposit is closed, so the maturity pass never selects it again. */
  lemma MaturitySettlesQuietly(id: FdId, fd: FixedDeposit, plans: map<string, FdPlan>, holders: seq<AccountHolder>, now: Instant)
    ensures SettlesQuietly(MaturityStep(plans, holders, now), id, fd)
  {
    var o := MaturityFor(id, fd, plans, holders, now);
    assert MaturityStep(plans, holders, now)(id, fd) == o;
    if o.Ok? && o.value.Some? {
      var p := o.value.value;
      assert MaturityStep(plans, holders, now)(id, p.updated) == MaturityFor(id, p.updated, plans, holders, now);
    }
  }

  /** Re-running the accrual pass at the same instant after a successful run is a no-op. */
  lemma AccrualRerunIsNoOp(fds: seq<FixedDeposit>, plans: map<string, FdPlan>, holders: seq<AccountHolder>, now: Instant)
    requires Postings(fds, AccrualStep(plans, holders, now), |fds|).Ok?
    ensures Postings(Settled(fds, AccrualStep(plans, holders, now)), AccrualStep(plans, holders, now), |fds|) == Ok([])
  {
    forall j | 0 <= j < |fds| ensures SettlesQuietly(AccrualStep(plans, holders, now), j, fds[j]) {
      AccrualSettlesQuietly(j, fds[j], plans, holders, now);
    }
    RerunPostsNothing(fds, AccrualStep(plans, holders, now), |fds|);
  }

  /** Re-running the maturity pass after a successful run pays nothing more. */
  lemma MaturityRerunIsNoOp(fds: seq<FixedDeposit>, plans: map<string, FdPlan>, holders: seq<AccountHolder>, now: Instant)
    requires Postings(fds, MaturityStep(plans, holders, now), |fds|).Ok?
    ensures Postings(Settled(fds, MaturityStep(plans, holders, now)), MaturityStep(plans, holders, now), |fds|) == Ok([])
  {
    forall j | 0 <= j < |fds| ensures SettlesQuietly(MaturityStep(plans, holders, now), j, fds[j]) {
      MaturitySettlesQuietly(j, fds[j], plans, holders, now);
    }
    RerunPostsNothing(fds, MaturityStep(plans, holders, now), |fds|);
  }

  /**
   * Maturity pays at most once: the closed deposit is selected by neither pass at any later time,
   * whatever the plans and holders are then.
   */
  lemma MaturityPaysOnce(id: FdId, fd: FixedDeposit, plans: map<string, FdPlan>, holders: seq<AccountHolder>, now: Instant,
                         plans': map<string, FdPlan>, holders': seq<AccountHolder>, later: Instant)
    requires MaturityFor(id, fd, plans, holders, now).Ok? && MaturityFor(id, fd, plans, holders, now).value.Some?
    ensures var closed := MaturityFor(id, fd, plans, holders, now).value.value.updated;
      && MaturityFor(id, closed, plans', holders', later) == Ok(None)
      && AccrualFor(id, closed, plans', holders', later) == Ok(None)
  {
  }

  /** Accrual never closes a deposit and never changes its end date, so an ended deposit is left for the maturity pass. */
  lemma AccrualKeepsDepositOpen(id: FdId, fd: FixedDeposit, plans: map<string, FdPlan>, holders: seq<AccountHolder>, now: Instant)
    requires AccrualFor(id, fd, plans, holders, now).Ok? && AccrualFor(id, fd, plans, holders, now).value.Some?
    ensures var updated := AccrualFor(id, fd, plans, holders, now).value.value.updated;
      updated.status == fd.status && updated.endDate == fd.endDate && updated.principal == fd.principal
  {
  }

  /** `EXTRACT(DAYS FROM later - earlier)`: the day field of the interval, which truncates toward zero. */
  function IntervalDays(earlier: Instant, later: Instant): (d: int)
    ensures later >= earlier ==> d == WholeDays(earlier, later)
    ensures d > 0 ==> later > earlier
  {
    var x := later - earlier;
    if x >= 0 then x / SecondsPerDay else -((-x) / SecondsPerDay)
  }

  /** The report's selection: running deposits with a plan and at least 30 days since the last payout. */
  predicate DueForReport(fd: FixedDeposit, plans: map<string, FdPlan>, now: Instant) {
    fd.status && fd.endDate > now && fd.planId in plans && IntervalDays(LastPayout(fd), now) >= 30
  }

  /** The report lists exactly the deposits the accrual pass would pay for at the same instant. */
  lemma ReportSelectsAccrualCandidates(fd: FixedDeposit, plans: map<string, FdPlan>, now: Instant)
    ensures DueForReport(fd, plans, now) <==> DueForAccrual(fd, plans, now) && WholeDays(LastPayout(fd), now) >= 30
  {
  }

  datatype ReportEntry = ReportEntry(
    fixedDepositId: FdId, savingAccountId: AccountId, principalAmount: real, interestRate: string,
    daysSincePayout: int, completePeriods: int, potentialInterest: real, lastPayoutDate: Instant)

  datatype InterestReport = InterestReport(
    reportDate: Instant, totalDepositsDue: nat, totalPotentialInterest: real, deposits: seq<ReportEntry>)

  /** One line of the report: the interest an accrual would pay for the whole periods so far. */
  function ReportEntryFor(id: FdId, fd: FixedDeposit, plans: map<string, FdPlan>, now: Instant): (r: Result<ReportEntry, TaskError>)
    requires fd.planId in plans
    ensures r.Err? <==> RateOf(plans[fd.planId].interestRate).None?
    ensures r.Ok? ==>
      && r.value.fixedDepositId == id && r.value.savingAccountId == fd.accountId
      && r.value.principalAmount == fd.principal
      && r.value.interestRate == plans[fd.planId].interestRate
      && r.value.daysSincePayout == IntervalDays(LastPayout(fd), now)
      && r.value.completePeriods == r.value.daysSincePayout / 30
      && r.value.potentialInterest
         == PeriodInterest(fd.principal, RateOf(plans[fd.planId].interestRate).value, r.value.completePeriods)
      && r.value.lastPayoutDate == LastPayout(fd)
  {
    match RateOf(plans[fd.planId].interestRate)
    case None => Err(UnparsableRate(id))
    case Some(rate) =>
      var days := IntervalDays(LastPayout(fd), now);
      Ok(ReportEntry(id, fd.accountId, fd.principal, plans[fd.planId].interestRate, days, days / 30,
                     PeriodInterest(fd.principal, rate, days / 30), LastPayout(fd)))
  }

  /**
   * The report predicts the accrual pass: for a listed deposit the pass at the same instant pays
   * exactly the listed potential interest, unless that is not positive or the account has no holder.
   */
  lemma ReportPredictsAccrual(id: FdId, fd: FixedDeposit, plans: map<string, FdPlan>, holders: seq<AccountHolder>, now: Instant)
    requires DueForReport(fd, plans, now) && ReportEntryFor(id, fd, plans, now).Ok?
    ensures var e := ReportEntryFor(id, fd, plans, now).value;
      var o := AccrualFor(id, fd, plans, holders, now);
      && o.Ok?
      && (o.value.Some? <==> e.potentialInterest > 0.0 && FirstHolder(holders, fd.accountId).Some?)
      && (o.value.Some? ==> o.value.value.amount == e.potentialInterest
                            && o.value.value.memo == FdInterest(e.completePeriods, id))
  {
    ReportSelectsAccrualCandidates(fd, plans, now);
  }

  /** A deposit the report selects, with its day count: what the query returns before ordering. */
  datatype DueRecord = DueRecord(id: FdId, fd: FixedDeposit, days: int)

  function RecordDays(d: DueRecord): int { d.days }

  function EntryDays(e: ReportEntry): int { e.daysSincePayout }

  /** The deposits the report selects, in table order. */
  function DueRecords(fds: seq<FixedDeposit>, plans: map<string, FdPlan>, now: Instant): (r: seq<DueRecord>)
    ensures forall j :: 0 <= j < |fds| && DueForReport(fds[j], plans, now)
              ==> DueRecord(j, fds[j], IntervalDays(LastPayout(fds[j]), now)) in r
    ensures forall d :: d in r ==>
              (d.id < |fds| && d.fd == fds[d.id] && DueForReport(d.fd, plans, now)
               && d.days == IntervalDays(LastPayout(d.fd), now))
    ensures forall a, b :: 0 <= a < b < |r| ==> r[a].id < r[b].id
    decreases |fds|
  {
    if fds == [] then []
    else
      var n := |fds| - 1;
      var prefix := DueRecords(fds[..n], plans, now);
      assert forall j :: 0 <= j < n ==> fds[..n][j] == fds[j];
      prefix + (if DueForReport(fds[n], plans, now)
                then [DueRecord(n, fds[n], IntervalDays(LastPayout(fds[n]), now))] else [])
  }

  function PotentialTotal(entries: seq<ReportEntry>): real
    decreases |entries|
  {
    if entries == [] then 0.0 else PotentialTotal(entries[..|entries| - 1]) + entries[|entries| - 1].potentialInterest
  }

  /** The report's role gate: a missing type fails outright, and only admins and the "branch_manager" type pass. */
  function ReportGate(caller: Caller): (r: Option<TaskError>)
    ensures r == Some(MissingUserType) <==> Get(caller, "type").None?
    ensures r.None? <==> Get(caller, "type").Some?
                         && (Lower(Get(caller, "type").value) == "admin" || Lower(Get(caller, "type").value) == "branch_manager")
    ensures r.Some? ==> r.value == MissingUserType || r.value == NotPermitted
  {
    match Get(caller, "type")
    case None => Some(MissingUserType)
    case Some(t) => if Lower(t) == "admin" || Lower(t) == "branch_manager" then None else Some(NotPermitted)
  }

  /** Of the three stored role names only "Admin" passes the report's gate. */
  lemma StoredRolesAtReportGate(caller: Caller, e: Etype)
    requires HasRole(caller, e)
    ensures ReportGate(caller).None? <==> e == Admin
  {
    LoweredRoleNames();
  }

  /** The report query's selection, in table order. */
  method SelectDue(fds: seq<FixedDeposit>, plans: map<string, FdPlan>, now: Instant) returns (selected: seq<DueRecord>)
    ensures selected == DueRecords(fds, plans, now)
  {
    selected := [];
    var j := 0;
    while j < |fds|
      invariant 0 <= j <= |fds|
      invariant selected == DueRecords(fds[..j], plans, now)
    {
      assert fds[..j + 1][..j] == fds[..j];
      if DueForReport(fds[j], plans, now) {
        selected := selected + [DueRecord(j, fds[j], IntervalDays(LastPayout(fds[j]), now))];
      }
      j := j + 1;
    }
    assert fds[..j] == fds;
  }

  /** How the report computes one record's line: a line, or the error that aborts the report. */
  type LineOf = DueRecord --> Result<ReportEntry, TaskError>

  /** The report's own line computation, for records whose plan exists. */
  function ReportLine(plans: map<string, FdPlan>, now: Instant): LineOf {
    (d: DueRecord) requires d.fd.planId in plans => ReportEntryFor(d.id, d.fd, plans, now)
  }

  /** The line computed for each record of `due`, or the error it raises. */
  function Outcomes(due: seq<DueRecord>, line: LineOf): (r: seq<Result<ReportEntry, TaskError>>)
    requires forall k :: 0 <= k < |due| ==> line.requires(due[k])
    ensures |r| == |due|
    ensures forall k {:trigger r[k]} :: 0 <= k < |due| ==> r[k] == line(due[k])
  {
    seq(|due|, k requires 0 <= k < |due| => line(due[k]))
  }

  /** The report's lines and their running total, in order; the first error aborts. */
  function Collect(outs: seq<Result<ReportEntry, TaskError>>): Result<(seq<ReportEntry>, real), TaskError>
    decreases |outs|
  {
    if outs == [] then Ok(([], 0.0))
    else
      var n := |outs| - 1;
      match Collect(outs[..n])
      case Err(e) => Err(e)
      case Ok((entries, total)) =>
        match outs[n]
        case Err(e) => Err(e)
        case Ok(entry) => Ok((entries + [entry], total + entry.potentialInterest))
  }

  /** The lines are collected exactly when no record raises an error. */
  lemma {:induction false} CollectSucceeds(outs: seq<Result<ReportEntry, TaskError>>)
    ensures Collect(outs).Ok? <==> forall k :: 0 <= k < |outs| ==> outs[k].Ok?
    decreases |outs|
  {
    if outs != [] {
      var n := |outs| - 1;
      var prefix := outs[..n];
      CollectSucceeds(prefix);
      if Collect(prefix).Err? {
        var k :| 0 <= k < n && prefix[k].Err?;
        assert outs[k].Err?;
      } else if outs[n].Ok? {
        assert forall k :: 0 <= k < n ==> prefix[k] == outs[k];
      }
    }
  }

  /** Collected line `k` is the line of record `k`, and the total sums the lines. */
  lemma {:induction false} CollectLines(outs: seq<Result<ReportEntry, TaskError>>)
    requires Collect(outs).Ok?
    ensures var (entries, total) := Collect(outs).value;
      && |entries| == |outs|
      && (forall k :: 0 <= k < |outs| ==> outs[k] == Ok(entries[k]))
      && total == PotentialTotal(entries)
    decreases |outs|
  {
    if outs != [] {
      var n := |outs| - 1;
      var prefix := outs[..n];
      assert forall k :: 0 <= k < n ==> prefix[k] == outs[k];
      CollectLines(prefix);
      var (entries, total) := Collect(prefix).value;
      var entry := outs[n].value;
      assert Collect(outs).value == (entries + [entry], total + entry.potentialInterest);
      assert (entries + [entry])[..n] == entries;
    }
  }

  /** Once a prefix fails, the whole sequence fails with the same error. */
  lemma {:induction false} CollectStaysFailed(outs: seq<Result<ReportEntry, TaskError>>, k: nat)
    requires k <= |outs| && Collect(outs[..k]).Err?
    ensures Collect(outs) == Collect(outs[..k])
    decreases |outs| - k
  {
    if k < |outs| {
      assert outs[..k + 1][..k] == outs[..k];
      CollectStaysFailed(outs, k + 1);
    } else {
      assert outs[..k] == outs;
    }
  }

  /** The report's loop: one line per selected deposit, in the given order, and the running total; an error aborts it. */
  method ReportLines(due: seq<DueRecord>, line: LineOf) returns (r: Result<(seq<ReportEntry>, real), TaskError>)
    requires forall k :: 0 <= k < |due| ==> line.requires(due[k])
    ensures r == Collect(Outcomes(due, line))
  {
    ghost var outs := Outcomes(due, line);
    var entries: seq<ReportEntry> := [];
    var total := 0.0;
    for k := 0 to |due|
      invariant Collect(outs[..k]) == Ok((entries, total))
    {
      assert outs[..k + 1][..k] == outs[..k];
      var entry := line(due[k]);
      if entry.Err? {
        CollectStaysFailed(outs, k + 1);
        return Err(entry.error);
      }
      entries := entries + [entry.value];
      total := total + entry.value.potentialInterest;
    }
    assert outs[..|due|] == outs;
    r := Ok((entries, total));
  }

  /** Lines computed, in order, from the records of `due`. */
  predicate LinesOf(due: seq<DueRecord>, plans: map<string, FdPlan>, now: Instant, entries: seq<ReportEntry>) {
    && |entries| == |due|
    && forall k :: 0 <= k < |due| ==> due[k].fd.planId in plans && ReportEntryFor(due[k].id, due[k].fd, plans, now) == Ok(entries[k])
  }

  /** Lines computed from a reordering of the selection cover every selected deposit. */
  lemma LinesCoverSelection(fds: seq<FixedDeposit>, plans: map<string, FdPlan>, now: Instant,
                            due: seq<DueRecord>, entries: seq<ReportEntry>)
    requires multiset(due) == multiset(DueRecords(fds, plans, now)) && LinesOf(due, plans, now, entries)
    ensures forall i :: 0 <= i < |fds| && DueForReport(fds[i], plans, now) ==>
              (ReportEntryFor(i, fds[i], plans, now).Ok? && ReportEntryFor(i, fds[i], plans, now).value in entries)
  {
    forall i | 0 <= i < |fds| && DueForReport(fds[i], plans, now)
      ensures ReportEntryFor(i, fds[i], plans, now).Ok? && ReportEntryFor(i, fds[i], plans, now).value in entries
    {
      var d := DueRecord(i, fds[i], IntervalDays(LastPayout(fds[i]), now));
      assert d in multiset(due);
      var m :| 0 <= m < |due| && due[m] == d;
      assert entries[m] in entries;
    }
  }

  /** ... and nothing else. */
  lemma LinesOnlySelection(fds: seq<FixedDeposit>, plans: map<string, FdPlan>, now: Instant,
                           due: seq<DueRecord>, entries: seq<ReportEntry>)
    requires multiset(due) == multiset(DueRecords(fds, plans, now)) && LinesOf(due, plans, now, entries)
    ensures forall e :: e in entries ==>
              (e.fixedDepositId < |fds| && DueForReport(fds[e.fixedDepositId], plans, now)
               && ReportEntryFor(e.fixedDepositId, fds[e.fixedDepositId], plans, now) == Ok(e))
  {
    var selected := DueRecords(fds, plans, now);
    forall e | e in entries
      ensures e.fixedDepositId < |fds| && DueForReport(fds[e.fixedDepositId], plans, now)
              && ReportEntryFor(e.fixedDepositId, fds[e.fixedDepositId], plans, now) == Ok(e)
    {
      var m :| 0 <= m < |entries| && entries[m] == e;
      var d := due[m];
      assert d in multiset(selected);
      assert d in selected;
      assert ReportEntryFor(d.id, d.fd, plans, now) == Ok(e);
      assert e.fixedDepositId == d.id;
    }
  }

  /** Lines keep the order of the records they are computed from. */
  lemma LinesKeepOrder(fds: seq<FixedDeposit>, plans: map<string, FdPlan>, now: Instant,
                       due: seq<DueRecord>, entries: seq<ReportEntry>)
    requires multiset(due) == multiset(DueRecords(fds, plans, now)) && LinesOf(due, plans, now, entries)
    requires SortedDesc(due, RecordDays)
    ensures SortedDesc(entries, EntryDays)
  {
    var selected := DueRecords(fds, plans, now);
    forall a, b | 0 <= a < b < |entries| ensures EntryDays(entries[a]) >= EntryDays(entries[b]) {
      assert due[a] in multiset(selected) && due[b] in multiset(selected);
      assert RecordDays(due[a]) >= RecordDays(due[b]);
    }
  }

  /** Every rate a reordering of the selection reads is a rate of a selected deposit, and the other way round. */
  lemma SelectionRates(fds: seq<FixedDeposit>, plans: map<string, FdPlan>, now: Instant, due: seq<DueRecord>)
    requires multiset(due) == multiset(DueRecords(fds, plans, now))
    ensures forall k :: 0 <= k < |due| ==> due[k].fd.planId in plans
    ensures (forall k :: 0 <= k < |due| ==> RateOf(plans[due[k].fd.planId].interestRate).Some?)
        <==> (forall j :: 0 <= j < |fds| && DueForReport(fds[j], plans, now) ==> RateOf(plans[fds[j].planId].interestRate).Some?)
  {
    var selected := DueRecords(fds, plans, now);
    forall k | 0 <= k < |due| ensures due[k] in selected {
      assert due[k] in multiset(selected);
    }
    if forall k :: 0 <= k < |due| ==> RateOf(plans[due[k].fd.planId].interestRate).Some? {
      forall j | 0 <= j < |fds| && DueForReport(fds[j], plans, now) ensures RateOf(plans[fds[j].planId].interestRate).Some? {
        var d := DueRecord(j, fds[j], IntervalDays(LastPayout(fds[j]), now));
        assert d in multiset(due);
        var m :| 0 <= m < |due| && due[m] == d;
      }
    }
  }

  /**
   * `get_fixed_deposit_interest_report` at clock reading `now`: the deposits due for interest, most
   * days since payout first, each with the interest an accrual would pay, and their total.
   */
  method FixedDepositInterestReport(db: Db, caller: Caller, now: Instant) returns (r: Result<InterestReport, TaskError>)
    ensures ReportGate(caller).Some? ==> r == Err(ReportGate(caller).value)
    ensures ReportGate(caller).None? ==>
              (r.Ok? <==> forall j :: 0 <= j < |db.fds| && DueForReport(db.fds[j], db.fdPlans, now)
                                      ==> RateOf(db.fdPlans[db.fds[j].planId].interestRate).Some?)
    ensures r.Ok? ==> r.value.reportDate == now
    ensures r.Ok? ==> r.value.totalDepositsDue == |r.value.deposits| == |DueRecords(db.fds, db.fdPlans, now)|
    ensures r.Ok? ==> SortedDesc(r.value.deposits, EntryDays)
    ensures r.Ok? ==> forall e :: e in r.value.deposits ==>
              (e.fixedDepositId < |db.fds| && DueForReport(db.fds[e.fixedDepositId], db.fdPlans, now)
               && ReportEntryFor(e.fixedDepositId, db.fds[e.fixedDepositId], db.fdPlans, now) == Ok(e))
    ensures r.Ok? ==> forall j :: 0 <= j < |db.fds| && DueForReport(db.fds[j], db.fdPlans, now) ==>
              (ReportEntryFor(j, db.fds[j], db.fdPlans, now).Ok?
               && ReportEntryFor(j, db.fds[j], db.fdPlans, now).value in r.value.deposits)
    ensures r.Ok? ==> r.value.totalPotentialInterest == PotentialTotal(r.value.deposits)
  {
    var gate := ReportGate(caller);
    if gate.Some? {
      return Err(gate.value);
    }
    var fds, plans := db.fds, db.fdPlans;
    var selected := SelectDue(fds, plans, now);
    var due := SortDesc(selected, RecordDays);
    SelectionRates(fds, plans, now, due);
    var line := ReportLine(plans, now);
    var lines := ReportLines(due, line);
    ghost var outs := Outcomes(due, line);
    CollectSucceeds(outs);
    if lines.Err? {
      return Err(lines.error);
    }
    CollectLines(outs);
    var (entries, total) := lines.value;
    LinesCoverSelection(fds, plans, now, due, entries);
    LinesOnlySelection(fds, plans, now, due, entries);
    LinesKeepOrder(fds, plans, now, due, entries);
    r := Ok(InterestReport(now, |selected|, total, entries));
  }

  datatype StartOutcome = Started | AlreadyRunning

  /** The `scheduler_running` flag and its two transitions. */
  class Scheduler {
    var running: bool

    constructor ()
      ensures !running
    {
      running := false;
    }

    /** `start_automatic_tasks`: a stopped scheduler starts; a running one is left as it is. */
    method Start() returns (outcome: StartOutcome)
      modifies this
      ensures running
      ensures old(running) ==> outcome == AlreadyRunning
      ensures !old(running) ==> outcome == Started
    {
      if !running {
        running := true;
        outcome := Started;
      } else {
        outcome := AlreadyRunning;
      }
    }

    /** `stop_automatic_tasks`: the flag is cleared whatever it was. */
    method Stop()
      modifies this
      ensures !running
    {
      running := false;
    }
  }

  datatype Action = CalculateInterest | ProcessMaturities | Wait

  /**
   * One wake-up of `run_daily_tasks`: at 00:01 the accrual pass runs, at 00:05 the maturity pass, each
   * followed by a one-minute sleep; at any other time it sleeps 30 seconds.
   */
  function Dispatch(hour: int, minute: int): (r: (Action, nat))
    ensures r.0 == CalculateInterest <==> hour == 0 && minute == 1
    ensures r.0 == ProcessMaturities <==> hour == 0 && minute == 5
    ensures r.1 == if r.0 == Wait then 30 else 60
  {
    if hour == 0 && minute == 1 then (CalculateInterest, 60)
    else if hour == 0 && minute == 5 then (ProcessMaturities, 60)
    else (Wait, 30)
  }

  /** The dispatch at a time of day given in seconds since midnight. */
  function DispatchAt(secondOfDay: nat): (Action, nat) {
    Dispatch(secondOfDay / 3600, secondOfDay / 60 % 60)
  }

  /**
   * A pass runs at most once a day: every wake-up of the same day from a minute after the one that
   * ran it on (which the one-minute sleep guarantees) dispatches something else.
   */
  lemma PassRunsOncePerDay(s: nat, t: nat)
    requires DispatchAt(s).0 != Wait
    requires s + DispatchAt(s).1 <= t < 86400
    ensures DispatchAt(t).0 != DispatchAt(s).0
  {
    if DispatchAt(s).0 == CalculateInterest {
      assert 60 <= s < 120;
    } else {
      assert 300 <= s < 360;
    }
  }
}
