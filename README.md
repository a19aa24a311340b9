# Micro-Banking System: verified model of the banking core

This project is a Dafny model of the core of a micro-banking system. The system is a FastAPI
backend over a relational database of savings accounts, account holders, ledger transactions and
fixed deposits, plus a React frontend that exports reports to CSV. The model covers the following:

- **Ledger postings** (`Backend/transaction.py`). A deposit, withdrawal or interest row is posted
  against an account holder. A withdrawal is refused when it would take the account below the
  minimum balance of its savings plan. The account's transactions are listed newest first.
- **Fixed deposits** (`Backend/fixedDeposit.py`). A deposit is opened from a savings account after
  a role gate, a branch scope check, a plan lookup, the one-active-deposit rule and a funds check.
  The end date lies a whole number of calendar months later. The principal is debited and recorded
  as a withdrawal row. An account's deposits are listed latest start first.
- **Scheduled tasks** (`Backend/tasks.py`):
  - the daily accrual pass pays interest for every complete 30-day period;
  - the maturity pass pays principal plus daily interest and closes the deposit;
  - the scheduler turns on at 00:01 and 00:05 and can be started and stopped;
  - the interest report lists the deposits due for a payout.
- **Joint accounts** (`Backend/jointAccounts.py`). An account with two holders is created, looked up
  and listed.
- **Request schemas** (`Backend/schemas.py`). These are the enumerations and the field constraints
  that requests are validated against.
- **CSV export** (`Frontend/src/services/csvExportService.ts`). It covers field escaping, record and
  document assembly, the generated file name with its timestamp, the byte-order mark, the fixed
  reports and the summary-first layout.

## How the model is organised

### The store

The database is a class, `Store.Db`:

- Its tables are `seq` fields whose index is the row id: accounts, holders, transactions and fixed
  deposits.
- Its lookup tables are `map` fields: savings plans, fixed-deposit plans, customers and employees.
- The handlers take the `Db` and change its fields. Each handler rolls back, leaving every table as
  it was, on each error path the source rolls back or raises on.

Every state-changing handler proves two things:

- `Db.Valid()` holds: referential integrity holds and no account has two active fixed deposits.
- For every account, the balance minus the net of its ledger rows is unchanged (`Db.Drift`). So a
  balance only moves by rows that are also recorded in the ledger.

### Inputs from outside

What the source reads from its surroundings becomes a parameter:

- the clock (`now`);
- the authenticated caller, which is the authentication row as a dictionary;
- the moment `toISOString` reads;
- whether the database insert fails.

### Partners of the operations

Each operation is proved against a partner:

- **CSV writer.** A reader for the format it writes (section 2 of RFC 4180, rules 5 to 7, with `\n`
  between records) is proved to read back exactly the texts written.
- **Validators.** Each is tied to its schema's constraint in both directions.
- **Scheduled passes.** They are specified by per-deposit functions. Re-running a pass on its own
  result is proved to post nothing.
- **Interest report.** It is proved to select exactly the deposits the accrual pass would pay and to
  predict the amount it pays.

### Where the model follows the code

Where the code and its documentation disagree, the model follows the code:

- The fixed-deposit end date is computed with `datetime.replace`. A start day that the target month
  lacks raises an error; it is not clamped to the month's last day.
- The role names in the authentication table are the `Etype` values (`"Branch Manager"`). After
  `lower()` they never equal `"branch_manager"`. So as written:
  - only agents pass the fixed-deposit gate;
  - only admins pass the report gate.

  `FixedDeposits.StoredRolesAtFdGate` and `Tasks.StoredRolesAtReportGate` state this.
- The joint-account handlers read a `user_type` key. The authentication row has no such key. So as
  written, creating a joint account is refused for every authenticated caller, and listing never
  applies the branch filter. `JointAccounts.AuthRowsHaveNoUserType` states this.
- The documentation mentions a monthly savings-interest pass. The code has none, so the model has
  none.

## Model

| member | source | states |
|---|---|---|
| Schemas.ParseEtype | Backend/schemas.py:10-13 | a text is accepted as an employee type exactly when it is one of the three stored values, and the accepted value renders back to that text |
| Schemas.ParseStype | Backend/schemas.py:16-21 | a text is accepted as a savings plan type exactly when it is one of the five stored values, and it renders back to that text |
| Schemas.ParseTrantype | Backend/schemas.py:24-27 | a text is accepted as a transaction type exactly when it is Interest, Withdrawal or Deposit, and it renders back to that text |
| Schemas.EnumRoundTrips | Backend/schemas.py:10-27 | rendering any enumeration value and parsing it again gives the same value |
| Schemas.ValidateTransactionsCreate | Backend/schemas.py:183-189 | a transaction request is accepted exactly when its type is known, its amount is positive with at most two decimal places, a reference number is given and the description has at most 255 characters; an accepted request keeps every field |
| Schemas.ValidateSavingsAccountCreate | Backend/schemas.py:129-135 | an account request is accepted exactly when the balance (0.00 when omitted) has at most two decimals and the employee, plan and branch ids fit in 10, 5 and 7 characters; the balance defaults to zero |
| Schemas.ValidateSavingsAccountPlansCreate | Backend/schemas.py:117-120 | a plan is accepted exactly when its name is a plan type, its rate text has at most 5 characters and its minimum balance has at most two decimals |
| Schemas.ValidateFixedDepositPlansCreate | Backend/schemas.py:144-146 | a fixed-deposit plan is accepted exactly when its months text has at most 15 characters and its rate text at most 5 |
| Schemas.ValidateFixedDepositCreate | Backend/schemas.py:155-163 | a fixed-deposit request is accepted exactly when the plan id has at most 5 characters and the principal at most two decimals; an accepted request keeps the payout date, principal and payment type |
| Text.Lower | Backend/fixedDeposit.py:18-23 | lower-casing keeps the length and maps each character by the ASCII case mapping |
| Text.RemoveAll | Backend/tasks.py:73 | removing every `%` leaves no `%`, never lengthens the text, leaves a `%`-free text unchanged, and keeps every other character as often as it occurred |
| Text.RemoveAllAppend | Backend/tasks.py:73 | removal works piece by piece: what is left of two texts joined is what is left of each, in order, so the other characters keep their order |
| Text.ParseDecimalOfNat | Backend/tasks.py:73-79 | a rendered whole number parses back, as a decimal literal, to that number |
| Text.ParseDecimalAccepts | Backend/tasks.py:74-75 | a literal made of an optional sign, digits and an optional point with more digits, at least one digit in all, parses to the digits' value plus the fraction's value, negated for a minus sign |
| Text.ParseDecimalForms | Backend/tasks.py:74-75 | a text parses exactly when it is spelled by such a sign, digits, optional point and fraction digits |
| Dates.AddMonths | Backend/fixedDeposit.py:85-90 | the end date lies the plan's months after the start in calendar months, keeps the day and time of day and is a valid date; an error means no calendar date that many months later has that day |
| Dates.SixMonthsAfterJanuaryThirtyFirst | Backend/fixedDeposit.py:85-90 | six months after 31 January 2024 is 31 July 2024 |
| Dates.OneMonthAfterJanuaryThirtyFirstFails | Backend/fixedDeposit.py:85-90 | one month after 31 January 2024 fails with a day out of range instead of being clamped |
| Dates.YearCarry | Backend/fixedDeposit.py:85-90 | twelve months after November 2024 is November 2025 |
| Dates.WholeDaysAfterAdvance | Backend/tasks.py:113-119 | moving the last payout forward by n whole days lowers the elapsed whole days by exactly n |
| Dates.AdvanceByWholeDaysStaysBefore | Backend/tasks.py:113-119 | advancing by no more than the elapsed whole days never passes the present |
| Ordering.InsertDesc | Backend/transaction.py:95-106 | inserting into a list sorted by descending key keeps it sorted and adds exactly the one element |
| Ordering.SortDesc | Backend/transaction.py:95-106 | `ORDER BY key DESC` returns its input, as a multiset, sorted by descending key |
| Store.LedgerNetAppend | Backend/transaction.py:46-61 | the net of an account's ledger over two runs of rows is the sum of the nets of each run |
| Store.LedgerNetAppendOne | Backend/transaction.py:46-61 | appending one row changes an account's net by the row's signed amount exactly when the row is posted against one of its holders |
| Store.LedgerNetWiderHolders | Backend/jointAccounts.py:86-99 | adding holder rows leaves the net of every account unchanged for rows that refer to earlier holders |
| Store.LedgerNetOfUnheldAccount | Backend/jointAccounts.py:65-83 | an account that no holder refers to has a ledger net of zero |
| Store.HoldersOf | Backend/transaction.py:84-90 | the holders of an account are exactly the holder rows that refer to it, in increasing id order |
| Store.FirstHolder | Backend/fixedDeposit.py:139-147 | `LIMIT 1` finds the lowest-id holder of the account, and finds none exactly when the account has no holder |
| Store.HolderBalanceMin | Backend/transaction.py:19-27 | the holder, account and plan join gives a row exactly when all three exist, with the account's balance and the plan's minimum |
| Store.HasActiveFd | Backend/fixedDeposit.py:74-82 | the active-deposit query finds something exactly when some active deposit belongs to the account |
| Store.OpeningKeepsOneActive | Backend/fixedDeposit.py:74-122 | opening a deposit for an account without an active one keeps each account at one active deposit or fewer |
| Store.ClosingKeepsOneActive | Backend/tasks.py:215-219 | closing deposits keeps each account at one active deposit or fewer |
| Store.PostingKeepsDrift | Backend/transaction.py:34-61 | moving a balance by a row's signed amount and recording that row keeps every account's balance minus its ledger net |
| Callers.LoweredRoleNames | Backend/fixedDeposit.py:18-23 | the stored role names lower-case to `agent`, `branch manager` and `admin` |
| Callers.CallerBranch | Backend/jointAccounts.py:28-37 | the caller's branch is found exactly when the caller's employee row exists with a non-empty branch, and it is that branch |
| Transactions.WithdrawalBoundary | Backend/transaction.py:28-33 | a withdrawal down to exactly the minimum balance is allowed; one cent more is refused |
| Transactions.RowOf | Backend/transaction.py:46-61 | the ledger row keeps the holder, type and amount, and takes the request's timestamp or else the current time |
| Transactions.ValidPostingMovesBalance | Backend/transaction.py:34-38 | a valid withdrawal lowers the balance and any other valid posting raises it |
| Transactions.CreateTransaction | Backend/transaction.py:12-68 | an unknown holder and an overdrawing withdrawal are refused with their errors; success, which also needs the insert to succeed, sets the account's balance to the old one plus the signed amount, appends the row with the next id and keeps every account's balance minus its ledger net; any failure leaves the tables as they were |
| Transactions.AccountTxns | Backend/transaction.py:95-106 | the rows listed for an account are exactly those posted by holders the join admits, each with its own id, in strictly increasing id order so that no row is listed twice |
| Transactions.SearchTransactions | Backend/transaction.py:71-109 | an account without holders is not found; otherwise the result is exactly the account's ledger rows, newest first |
| FixedDeposits.FdRole | Backend/fixedDeposit.py:18-23 | a missing or empty user type is refused as invalid; the lowered type `agent` gives the agent role and `branch_manager` the manager role; anything else is not permitted |
| FixedDeposits.StoredRolesAtFdGate | Backend/fixedDeposit.py:18-23 | for a caller with a stored role, the gate admits exactly agents |
| FixedDeposits.OpenedDeposit | Backend/fixedDeposit.py:91-122 | a new deposit is active, starts now with its last payout at the start, and keeps the account, plan, principal and payment type of the request, ending at the computed end date |
| FixedDeposits.CheckOpening | Backend/fixedDeposit.py:18-94 | the checks pass exactly when the caller's role and branch scope, the account, the plan, the absence of an active deposit and a valid end date all hold; a passing check yields the deposit to open |
| FixedDeposits.ReservePrincipal | Backend/fixedDeposit.py:96-170 | too small a balance is refused; otherwise, given a holder, the deposit is appended with the next id, the principal is debited and recorded as a withdrawal row of the first holder, and the ledger drift is kept; any failure rolls back |
| FixedDeposits.CreateFixedDeposit | Backend/fixedDeposit.py:11-170 | an opening succeeds exactly when every admission condition holds; then the deposit is added, the principal is debited from the account and recorded as a withdrawal of its first holder at the start time, and the ledger drift is kept; otherwise nothing changes |
| FixedDeposits.AccountFds | Backend/fixedDeposit.py:195-203 | the deposits listed for an account are exactly those that belong to it, each with its own id, in strictly increasing id order so that no deposit is listed twice |
| FixedDeposits.SearchFixedDeposits | Backend/fixedDeposit.py:173-206 | an unknown account is not found; otherwise the result is exactly the account's deposits, latest start first |
| JointAccounts.UserType | Backend/jointAccounts.py:18-21 | the caller's `user_type` is lower-cased, read as empty when missing and unusable only when it is NULL |
| JointAccounts.AuthRowsHaveNoUserType | Backend/jointAccounts.py:18-21 | every authenticated caller has an empty user type, which is neither agent nor branch manager |
| JointAccounts.InReturnedOrder | Backend/jointAccounts.py:40-43 | the pair as the unordered query returns it holds the primary and the secondary id once each |
| JointAccounts.ActiveCustomers | Backend/jointAccounts.py:40-47 | the customer lookup finds two customers exactly when the two ids differ and both customers exist and are active, and then returns them in the order the store chooses; every id it returns is a requested, active customer |
| JointAccounts.JoinedHolders | Backend/jointAccounts.py:123-129 | the joined holders of an account are exactly its holder rows whose customer exists, in id order |
| JointAccounts.JointView | Backend/jointAccounts.py:135-144 | the joint-account view lists those holders with each holder's customer name and NIC, position by position |
| JointAccounts.JointOpeningFacts | Backend/jointAccounts.py:65-107 | after two holder rows are added for a new account, the account's holders are exactly the two new rows and its view names the two customers |
| JointAccounts.JointLedgerFacts | Backend/jointAccounts.py:65-99 | adding holder rows for a new account gives it a ledger net of zero and leaves every other account's net unchanged |
| JointAccounts.JointAccountRow | Backend/jointAccounts.py:65-83 | the new account opens now, active, with the requested balance and plan, the caller's employee id and the caller's branch |
| JointAccounts.LinkHolders | Backend/jointAccounts.py:86-99 | the holder loop appends one row per customer in order, gives them consecutive ids and collects each customer's name and NIC |
| JointAccounts.CreateJointAccount | Backend/jointAccounts.py:12-112 | a NULL user type is malformed and a non-agent is refused; success, exactly when every check holds, appends the account and its two holders, in the order the customer query returned them, and returns the view of the new account; the ledger drift is kept, and the new account's drift is its opening balance; failures change nothing |
| JointAccounts.Open | Backend/jointAccounts.py:65-107 | given passing checks, the inserts append the account and one holder row per customer in the order given, and return the view naming both customers |
| JointAccounts.SearchJointAccount | Backend/jointAccounts.py:115-148 | an account with fewer than two joined holders is not a joint account; otherwise the result is its view |
| JointAccounts.ListFilter | Backend/jointAccounts.py:156-169 | only a branch manager's listing is filtered, by the caller's branch |
| JointAccounts.ListedIds | Backend/jointAccounts.py:160-179 | the accounts listed are exactly those the query admits, in id order |
| JointAccounts.ListJointAccounts | Backend/jointAccounts.py:151-208 | a NULL user type fails; otherwise each listed account comes with its view, in order |
| Tasks.RateOfPercent | Backend/tasks.py:73-75 | a plan's rate written as a decimal literal followed by `%` reads as that literal's value |
| Tasks.RateOfWholePercent | Backend/tasks.py:73-75 | a rate written as a whole number followed by `%`, such as `13%`, reads as that number |
| Tasks.RateOfForms | Backend/tasks.py:73-75 | a rate text parses exactly when, with its `%` signs removed, it is a decimal literal |
| Tasks.SelectionsPartition | Backend/tasks.py:49-56 | no deposit is selected by both passes, and the two passes together select exactly the active deposits with a known plan |
| Tasks.AccrualFor | Backend/tasks.py:33-137 | a deposit is paid only when it is selected and 30 or more whole days have passed; an unparsable rate aborts the pass; a payment is the positive interest for the complete periods, goes to the first holder, and moves the last payout forward by those periods, leaving the remainder of days; a due deposit is skipped only for non-positive interest or no holder |
| Tasks.MaturityFor | Backend/tasks.py:140-237 | a matured deposit pays its principal plus daily interest on the days since the last payout to the first holder and is closed; an unparsable rate aborts the pass; a matured deposit is skipped only when it has no holder |
| Tasks.FailedPassStaysFailed | Backend/tasks.py:127-134 | once a deposit makes the pass fail, the whole pass fails with that error |
| Tasks.AccrualFits | Backend/tasks.py:87-110 | every accrual posting is a credit to an existing holder |
| Tasks.MaturityFits | Backend/tasks.py:189-212 | every maturity posting is a credit to an existing holder |
| Tasks.ApplyPass | Backend/tasks.py:94-122 | on the working copy, a pass succeeds exactly when no deposit fails; it appends one row per posting, settles the deposits, raises each balance by its postings and reports how many postings and their total |
| Tasks.RunPass | Backend/tasks.py:33-237 | a committed pass leaves the tables as the pass computes and keeps every account's ledger drift; a failed pass rolls back entirely |
| Tasks.AutoCalculateInterest | Backend/tasks.py:33-137 | the accrual pass posts exactly the accrual payments of every due deposit, advances their payout dates and keeps the ledger drift, or changes nothing when a rate does not parse |
| Tasks.AutoProcessMatured | Backend/tasks.py:140-237 | the maturity pass pays and closes exactly the matured deposits and keeps the ledger drift, or changes nothing when a rate does not parse |
| Tasks.RerunPostsNothing | Backend/tasks.py:33-237 | a pass run again over the deposits it settled posts nothing |
| Tasks.AccrualRerunIsNoOp | Backend/tasks.py:64-119 | rerunning the accrual pass at the same instant posts nothing |
| Tasks.MaturityRerunIsNoOp | Backend/tasks.py:155-219 | rerunning the maturity pass posts nothing |
| Tasks.MaturityPaysOnce | Backend/tasks.py:215-219 | a deposit closed at maturity is never paid again by either pass |
| Tasks.AccrualKeepsDepositOpen | Backend/tasks.py:113-119 | an interest payment changes only the deposit's last payout date |
| Tasks.IntervalDays | Backend/tasks.py:563-574 | the report's day count equals the whole days elapsed for a payout in the past, and is positive only when the payout lies in the past |
| Tasks.ReportSelectsAccrualCandidates | Backend/tasks.py:563-574 | the report selects exactly the deposits the accrual pass would consider due |
| Tasks.ReportEntryFor | Backend/tasks.py:582-605 | a report line fails exactly when the plan's rate does not parse; otherwise it carries the deposit's id, account, principal and last payout, the plan's rate text, the days, the complete 30-day periods and the interest for those periods |
| Tasks.ReportPredictsAccrual | Backend/tasks.py:582-605 | for a selected deposit the accrual pass pays exactly when the predicted interest is positive and a holder exists, and then pays the predicted amount |
| Tasks.DueRecords | Backend/tasks.py:563-574 | the report's query yields exactly the selected deposits with their elapsed days, each once, in increasing id order |
| Tasks.ReportGate | Backend/tasks.py:553-556 | a missing user type is its own error; the gate passes exactly the lowered types admin and branch_manager |
| Tasks.StoredRolesAtReportGate | Backend/tasks.py:553-556 | for a caller with a stored role, the report gate passes exactly admins |
| Tasks.SelectDue | Backend/tasks.py:563-574 | the selection loop returns exactly the deposits the report query selects |
| Tasks.CollectSucceeds | Backend/tasks.py:582-605 | the report loop succeeds exactly when every line succeeds |
| Tasks.CollectLines | Backend/tasks.py:582-612 | a successful loop returns one entry per selected deposit, in order, and their total potential interest |
| Tasks.ReportLines | Backend/tasks.py:582-605 | the report loop computes each line in order and stops with the first error |
| Tasks.LinesCoverSelection | Backend/tasks.py:563-605 | every selected deposit appears in the report |
| Tasks.LinesOnlySelection | Backend/tasks.py:563-605 | every report entry belongs to a selected deposit and is that deposit's line |
| Tasks.LinesKeepOrder | Backend/tasks.py:563-605 | lines built from records sorted by descending days are sorted by descending days |
| Tasks.FixedDepositInterestReport | Backend/tasks.py:548-616 | the gate's error is returned first; otherwise the report succeeds exactly when every selected deposit's rate parses, and it then lists exactly the selected deposits' lines, most days first, with their count and total |
| Tasks.Scheduler.Start | Backend/tasks.py:265-283 | starting sets the running flag and says whether the scheduler was already running |
| Tasks.Scheduler.Stop | Backend/tasks.py:286-291 | stopping clears the running flag |
| Tasks.Dispatch | Backend/tasks.py:244-262 | the accrual pass runs exactly at 00:01 and the maturity pass exactly at 00:05, each followed by a 60-second sleep; any other time sleeps 30 seconds |
| Tasks.PassRunsOncePerDay | Backend/tasks.py:244-262 | after a pass has run and its sleep is over, no later wake-up the same day runs that pass again |
| Callers.Get | Backend/fixedDeposit.py:18 | reading a caller's key gives nothing for a missing key and the column's value, possibly NULL, otherwise |
| Callers.GetOrEmpty | Backend/jointAccounts.py:18 | reading a caller's key with a default gives the empty text for a missing key and the column's value, possibly NULL, otherwise |
| CsvExport.Keys | Frontend/src/services/csvExportService.ts:23 | an object's keys are its properties' keys, one per property, in order |
| CsvExport.Lookup | Frontend/src/services/csvExportService.ts:29-34 | reading a property gives the value of the first property with that key, and undefined for a key the object lacks |
| CsvExport.Assign | Frontend/src/services/csvExportService.ts:259-267 | writing a property makes it read back its new value, leaves every other key's value alone, and adds the key last only when it is new |
| CsvExport.Join | Frontend/src/services/csvExportService.ts:26 | joining no parts gives the empty text and one part gives that part |
| CsvExport.SplitJoin | Frontend/src/services/csvExportService.ts:26 | parts without the separator, once joined, split back at the separator into exactly those parts |
| CsvExport.DoubleQuotes | Frontend/src/services/csvExportService.ts:50-52 | doubling quotes never shortens a text and leaves a quote-free text unchanged |
| CsvExport.EscapeCsvValue | Frontend/src/services/csvExportService.ts:42-55 | null and undefined become the empty field; a text without comma, quote or newline is written as is; any other text is enclosed in quotes |
| CsvExport.ParseBare | Frontend/src/services/csvExportService.ts:42-55 | an unquoted field holds no comma or newline and extends to the next separator, and the field plus the rest is the input |
| CsvExport.FieldRoundTrip | Frontend/src/services/csvExportService.ts:42-55 | any escaped value reads back as its text, leaving the rest of the input in place |
| CsvExport.QuotedRoundTrip | Frontend/src/services/csvExportService.ts:50-52 | a quoted field with its quotes doubled reads back as the original text |
| CsvExport.RecordRoundTrip | Frontend/src/services/csvExportService.ts:26-34 | a record of escaped values joined by commas reads back as the values' texts |
| CsvExport.DocumentRoundTrip | Frontend/src/services/csvExportService.ts:36 | records joined by newlines read back record by record |
| CsvExport.ConvertToCsv | Frontend/src/services/csvExportService.ts:18-20 | empty data converts to the empty text |
| CsvExport.ConvertRoundTrip | Frontend/src/services/csvExportService.ts:17-37 | converted data reads back as the headers (given, or the first row's keys) followed by each row's texts under those headers |
| CsvExport.SanitizeChar | Frontend/src/services/csvExportService.ts:61 | a letter (lower-cased), digit, `_` or `-` is kept; any other character becomes one `_` per UTF-16 code unit, so two for a character outside the Basic Multilingual Plane |
| CsvExport.SanitizeName | Frontend/src/services/csvExportService.ts:61 | the sanitised name has one character per UTF-16 code unit of the name, each a lower-case letter, digit, `_` or `-` |
| CsvExport.SanitizeNameAppend | Frontend/src/services/csvExportService.ts:61 | a name is sanitised character by character, so joining names joins their sanitised forms |
| CsvExport.SanitizeNamePointwise | Frontend/src/services/csvExportService.ts:61 | for a name within the Basic Multilingual Plane, the sanitised name has the same length, with every name character lower-cased in place and every other character replaced by `_` |
| CsvExport.SanitizeAstral | Frontend/src/services/csvExportService.ts:61 | a character outside the Basic Multilingual Plane becomes `__` |
| CsvExport.GenerateFilename | Frontend/src/services/csvExportService.ts:60-73 | the file name is the sanitised base, then `_` and the timestamp when one is requested, ending in `.csv` |
| CsvExport.ReplaceAll | Frontend/src/services/csvExportService.ts:65 | every colon becomes a dash, position by position, and nothing else changes |
| CsvExport.ReplaceFirstAt | Frontend/src/services/csvExportService.ts:67 | only the first `T` becomes `_`; a text without `T` is unchanged |
| CsvExport.DropToLineEndSuffix | Frontend/src/services/csvExportService.ts:66 | what `.+` leaves is the suffix from the first line terminator on, and nothing before it is a line terminator |
| CsvExport.CutFractionAt | Frontend/src/services/csvExportService.ts:66 | the match starts at the leftmost `.` followed by a character other than a line terminator, the text before it is kept, and from the `.` up to the next line terminator is removed |
| CsvExport.CutFractionNone | Frontend/src/services/csvExportService.ts:66 | where the pattern cannot match, nothing is removed |
| CsvExport.TimestampOfIso | Frontend/src/services/csvExportService.ts:63-69 | for an ISO instant `D` `T` `h:m:s.f`, the timestamp is `D_h-m-s` |
| CsvExport.ExportToCsv | Frontend/src/services/csvExportService.ts:78-114 | nothing is exported exactly when there is no data; otherwise the file has the generated name and holds the byte-order mark followed by the converted text |
| CsvExport.HeaderOr | Frontend/src/services/csvExportService.ts:260-261 | the header at the position is used when it exists and is not empty, otherwise the fallback |
| CsvExport.SummaryRow | Frontend/src/services/csvExportService.ts:259-262 | a summary row holds the value under the second header name and, when the two names differ, the key under the first; no other key is present, and the keys are the first name then the second, or one key when they coincide |
| CsvExport.SeparatorRow | Frontend/src/services/csvExportService.ts:265-267 | without headers the separator is `{'': ''}`; with headers it maps every header to the empty text and has no other key |
| CsvExport.BlankRow | Frontend/src/services/csvExportService.ts:265-267 | the separator row maps every header to the empty text and has no other key |
| CsvExport.SummaryTable | Frontend/src/services/csvExportService.ts:259-274 | the combined rows are one row per summary entry, then the separator, then the data in order |
| CsvExport.ExportReportWithSummary | Frontend/src/services/csvExportService.ts:247-281 | nothing is exported exactly when there is no data; otherwise the timestamped file holds the byte-order mark and the combined rows converted under the headers |
| CsvExport.SummaryRowsUnderHeaders | Frontend/src/services/csvExportService.ts:259-267 | under two distinct non-empty headers, a summary row holds the key under the first and the value under the second and nothing else, and the separator is blank under every header |
| CsvExport.SummaryReadsBack | Frontend/src/services/csvExportService.ts:247-281 | the summary export reads back as the headers, each summary key and value, a blank record, then each data row's texts |
| CsvExport.ExportReport | Frontend/src/services/csvExportService.ts:119-242 | a fixed report exports nothing exactly when there is no data, and otherwise names its file after the report with a timestamp |
| CsvExport.ReportReadsBack | Frontend/src/services/csvExportService.ts:119-242 | a fixed report's file reads back as the report's column names followed by each row's texts under them |

## Left out

- SQL and the database driver: the tables are sequences and maps whose index is the row id, and
  ids that the source stores as strings of bounded length are natural numbers. Query results come
  back in table order unless the query says `ORDER BY`. The one exception is the joint-account
  customer query (`Backend/jointAccounts.py:40-43`), which has no `ORDER BY`. The holders are linked
  in the order its rows come back, so that order is a parameter, `secondFirst`.
- `Decimal` arithmetic is modelled on exact reals. The decimal context and its rounding are not
  modelled, and neither is the two-decimal quantisation a NUMERIC column applies on insert.
- Times are whole seconds on a naive local clock. Microseconds and time zones are not modelled.
- Both `datetime.now()` calls in `create_fixed_deposit` are taken as the same instant.
- `Text.Lower`: lower-cases only the ASCII letters, because every value the gates compare is ASCII.
- Rate parsing (`Text.ParseDecimal`): accepts an optional sign, digits and an optional fraction.
  Exponents, `NaN`, `Infinity`, underscores and surrounding whitespace, which Python's `Decimal`
  also accepts, are treated as parse errors.
- The mapping of errors to HTTP status codes and messages is not modelled. Errors are a datatype
  per module.
- Ledger descriptions are the `Memo` facts they record, not the formatted text. The caller's
  `ref_number` is validated but not stored in the model's ledger row.
- The manual endpoints `calculate_fixed_deposit_interest` and `mature_fixed_deposits`
  (`Backend/tasks.py:340-545`) are not modelled. They repeat the scheduled passes with different
  bookkeeping.
- The scheduler endpoints (`Backend/tasks.py:294-337`) are not modelled. They only call start and
  stop or read the flag.
- The fixed-deposit plan endpoints (`Backend/fixedDeposit.py:209-251`) are not modelled. They are
  plain inserts and selects of the plan table.
- The scheduler's thread, its `time.sleep` calls, the logging and the database connection it
  opens are not modelled. `Tasks.Dispatch` models one wake-up.
- Each pass returns its count and total instead of logging them.
- `FixedDeposits.CreateFixedDeposit`: the funds check compares only the balance with the principal,
  as the code does. It does not check the plan's minimum balance.
- The joint-account caller's NULL `user_type` is modelled as a malformed-caller error. In the code
  it raises `AttributeError` on `lower()`.
- `AccountSearchRequest`, `JointAccountCreate` and `JointAccountRead` are not defined in
  `Backend/schemas.py`. They are modelled from their use in the handlers.
- The DOM side of `downloadCSV`: the blob, the link and the click are not modelled. The file is
  modelled as its name and content, with the byte-order mark.
- JavaScript's `String(value)`: modelled as a value's text. Object keys are kept in insertion order,
  so integer-like keys, which JavaScript enumerates first, are not distinguished.
- `CsvExport.CutFraction`: treats `\n`, `\r`, U+2028 and U+2029 as the line terminators `.` does
  not match, as JavaScript does.
- `CsvExport.SanitizeName`: the texts of the model are sequences of Unicode characters. The UTF-16
  encoding is modelled only where it shows: a character outside the Basic Multilingual Plane is
  two code units, and the pattern, which has no `u` flag, replaces each of them.
- `Tasks.FixedDepositInterestReport`: the report converts the principal, the potential interest
  and the total with `float(...)` (`Backend/tasks.py:598`, `603`, `610`). The model keeps them as
  exact reals, so binary floating-point rounding is not modelled. `Tasks.ReportEntryFor` and
  `Tasks.CollectLines` state the exact values.
- The five per-report export functions are one function, `CsvExport.ExportReport`, over a `Report`
  datatype that holds each report's columns and file name.
- `CsvExport.ExportReport`: states the file name and the empty case. The file content is stated by
  `CsvExport.ReportReadsBack`.
