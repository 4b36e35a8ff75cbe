# Transaction fraud screening, modelled in Dafny

A model of the rule engine in `transaction-analysis.py`. The engine decides
whether a card payment is approved or denied. It looks the payment up by
its `transaction_id` and runs three rules for the payment's user:

- **too many transactions in a row**: the user's payments, sorted by date,
  contain a streak of `transaction_count_threshold` payments whose
  consecutive gaps are each at most `time_threshold` seconds;
- **high value**: once the user has at least 3 payments, some payment of
  theirs dated at or after now − 1500 days (a later-dated payment counts
  too) is above the mean of all their amounts times `multiplier`;
- **chargeback before**: the user's earliest recorded chargeback is
  strictly earlier than the payment.

The first rule that fires names the denial reason, in that order;
otherwise the payment is approved with reason `"N/A"`. An unknown id gives
a "Transaction not found" result. Batch mode decides every row of the
ledger and lists the denials in ledger order; each of those decisions reads
the clock anew.

Modules, one per concern of the script:

- `Transactions`: the ledger rows, a user's rows, sums, and lookup by id.
- `Sorting`: the ascending sort of dates that comes before the velocity scan.
- `Velocity`: `too_many_transactions`, written as a loop and proved equal
  to the predicate `Flagged` (a burst in the sorted dates).
- `HighValue`: `high_value_transactions`.
- `Chargeback`: `save_chargeback_users` (the registry of each user's
  earliest chargeback) and `had_chargeback_before`.
- `Decision`: `analyze_individual_transaction` (a function) and
  `analyze_all_transactions` (a loop, proved equal to the function
  `Rejections`).
- `Scenarios`: small concrete ledgers whose decisions are proved, with the
  default configuration of 60 s, 3 in a row and 1.5.

Representation choices:

- Instants are integer microseconds, and `total_seconds() <= time_threshold`
  becomes `gap <= timeThreshold * 1_000_000` with a whole number of seconds
  as the threshold.
- Amounts and the multiplier are exact `real`s. "amount > mean × multiplier"
  is stated in the division-free form `amount * n > sum * multiplier`
  (`AboveBaseline`), and is proved equivalent to the form with the mean.
- The wall clock read by the high-value rule (`pd.Timestamp.now()`) is the
  parameter `now` of a single decision. Batch mode takes one reading per
  row (`clock[i]` for row i), since the script calls the single decision
  for each row in turn and so reads the clock at most once per row (only
  for users with at least 3 payments, the only case that uses it). The readings
  are any integers; nothing requires them to increase.
- The registry is a `map` from user id to the date of their earliest
  chargeback. The script writes it to `chargeback_users.csv` and reads it
  back on every lookup; here it is passed to the decision as a parameter.

The comment at transaction-analysis.py:98 speaks of comparing the amount
with "the user's historical data", but the mean the code computes is taken
over ALL of the user's payments, including the one being judged, and the
model follows the code. With three payments of 100 and a fourth of 200, the
threshold is 1.5 × 125 = 187.5 (`Scenarios.HighAmountSelected`), where the
earlier payments alone would give 1.5 × 100 = 150. Likewise, the high-value
result belongs to the user and not to the payment: the `transaction_amount`
argument is never read. Take a user with one payment above the threshold,
dated at or after the decision's `now` less 1500 days. Every payment of
that user is denied: for velocity if that rule fires, and otherwise for
amount (`Scenarios.HighAmountIsDenied`,
`Decision.SameUserSameHighValueSignal`).

## Model

| member | source | states |
|---|---|---|
| `Transactions.UserTransactions` | transaction-analysis.py:56 | the user's rows: a row is selected iff it is in the ledger and belongs to the user; never longer than the ledger |
| `Transactions.UserTransactionsIgnoreOthers` | transaction-analysis.py:35 | inserting a row of another user anywhere leaves a user's selection unchanged |
| `Transactions.FirstIndexOf` | transaction-analysis.py:85-90 | None iff no row carries the id; otherwise the index of a row with that id and no earlier such row (`iloc[0]`) |
| `Sorting.SortAscending` | transaction-analysis.py:36 | the result is sorted, a permutation of the input, and of the same length |
| `Sorting.SortedUnique` | transaction-analysis.py:36 | two sorted sequences with the same multiset are equal, so the sort's result is determined by its contents |
| `Velocity.TooManyTransactions` | transaction-analysis.py:34-50 | the streak scan with reset and early return answers true exactly when the user's sorted dates hold a run of at least `countThreshold` consecutive dates whose adjacent gaps are each within the threshold, ending at the second date or later (the reference predicate `Velocity.Flagged`, over `Velocity.Burst`) |
| `Velocity.FewerThanTwoNeverFlagged` | transaction-analysis.py:38-50 | with fewer than two payments the loop body never runs and the user is never flagged, whatever the thresholds |
| `Velocity.OtherUsersDoNotAffectVelocity` | transaction-analysis.py:35-36 | another user's row, inserted anywhere, does not change whether a user is flagged |
| `Velocity.FlaggedIgnoresLedgerOrder` | transaction-analysis.py:35-36 | two ledgers whose rows of the user carry the same dates in any order flag the user alike |
| `Velocity.SpacedOutNeverBurst` | transaction-analysis.py:42-47 | when every gap exceeds the limit the streak never passes 1, so no count threshold of 2 or more is reached |
| `HighValue.CountIsLength` | transaction-analysis.py:62 | the divisor of the mean (`HighValue.Mean`, sum over `Count`) is the number of the user's payments |
| `HighValue.AboveMeanIffAboveBaseline` | transaction-analysis.py:62-65 | for a non-empty history, amount > mean × multiplier iff amount × count > sum × multiplier |
| `HighValue.HighValueTransactions` | transaction-analysis.py:53-66 | empty with fewer than 3 payments; otherwise a row is selected iff it is the user's, dated at or after now − 1500 days, and above mean × multiplier |
| `HighValue.SelectHighValue` | transaction-analysis.py:59-66 | the same selection over one user's history |
| `HighValue.RecentAbove` | transaction-analysis.py:64-65 | a row is kept iff it is dated at or after the window start and its amount is strictly above the threshold |
| `HighValue.OtherUsersDoNotAffectHighValue` | transaction-analysis.py:56-66 | another user's row, inserted anywhere, does not change a user's high-value selection |
| `HighValue.SomeAtMostScaledMean` | transaction-analysis.py:62-63 | with non-negative amounts and multiplier ≥ 1, some amount of a non-empty history is at most mean × multiplier |
| `HighValue.NeverSelectsAll` | transaction-analysis.py:62-65 | with non-negative amounts and multiplier ≥ 1, some payment of a non-empty history is not selected |
| `HighValue.HighValueNeverSelectsAll` | transaction-analysis.py:53-66 | the same for the rule as called on a user of the ledger |
| `Chargeback.SaveChargebackUsers` | transaction-analysis.py:25-31 | a user has an entry iff the ledger holds a chargeback row of theirs; the entry is the date of one such row and no such row is earlier |
| `Chargeback.HadChargebackBefore` | transaction-analysis.py:69-78 | false without an entry; false when the earliest chargeback is at or after the date (strict comparison) |
| `Chargeback.ChargebackBeforeIffEarlierChargeback` | transaction-analysis.py:69-78 | against the registry built from the ledger by `save_chargeback_users` (lines 25-31), the lookup is true iff the ledger holds a chargeback of the user strictly before the date |
| `Decision.Decide` | transaction-analysis.py:104-116 | denied iff some rule fired; approved iff the reason is "N/A"; the reason is the first rule that fired in the order velocity, high value, chargeback |
| `Decision.AnalyzeIndividualTransaction` | transaction-analysis.py:81-121 | echoes the id; not-found, with "Transaction not found", iff no row has the id; otherwise the ruling of the first row with that id, with all three rules computed for its user (`Decision.Evaluate`, lines 96-102) |
| `Decision.FirstIndexOfUnique` | transaction-analysis.py:85-90 | with unique ids, the lookup of a row's id finds that row |
| `Decision.FlaggedUserAllDenied` | transaction-analysis.py:96-107 | once a user is flagged for velocity, every payment of theirs is denied with the velocity reason |
| `Decision.SameUserSameHighValueSignal` | transaction-analysis.py:92-102 | decided at the same instant, two payments of one user get the same velocity and high-value signals, and the same ruling unless the chargeback rule tells them apart |
| `Decision.ChargebackDenialHasEarlierChargeback` | transaction-analysis.py:102-113 | a chargeback denial, with the registry built from the ledger, implies a chargeback of the same user strictly earlier |
| `Decision.Rejections` | transaction-analysis.py:124-129 | the denials among some rows, each decided at its own clock reading, in row order; never more entries than rows (each row contributes `Decision.Entry`, lines 128-129) |
| `Decision.RejectionsAreDenials` | transaction-analysis.py:127-129 | every entry is marked rejected and carries the reason of a denial of its id at the clock reading of a row with that id |
| `Decision.RejectionsListDenialOf` | transaction-analysis.py:126-129 | a row denied at its clock reading has an entry with its id, marked rejected, with the decision's reason |
| `Decision.RejectionsListEveryDenial` | transaction-analysis.py:126-129 | the same for every row at once |
| `Decision.RejectionsAppend` | transaction-analysis.py:126-129 | the denials of a concatenation, with the readings concatenated alike, are the denials of each part, in order |
| `Decision.AllDeniedAllListed` | transaction-analysis.py:126-129 | when every row is denied for one reason at its reading, the batch lists every row in order with that reason |
| `Decision.NoneDeniedNoneListed` | transaction-analysis.py:126-129 | when no row is denied at its reading, the batch lists nothing |
| `Decision.AnalyzeAllTransactions` | transaction-analysis.py:124-133 | the loop, given one clock reading per row, builds exactly `Rejections` of the ledger, in ledger order |
| `Scenarios.BurstIsFlagged` | transaction-analysis.py:34-50 | payments at 0 s, 30 s and 55 s flag the user with 60 s and 3 in a row |
| `Scenarios.BurstIsDenied` | transaction-analysis.py:105-107 | each of those payments is denied with "Too many transactions in a row", whatever the registry holds and whatever the instant |
| `Scenarios.BurstBatch` | transaction-analysis.py:124-133 | the batch over those payments lists all three, in order, for velocity, whatever the clock readings |
| `Scenarios.RunResetsOnLongGap` | transaction-analysis.py:42-45 | payments at 0 s, 200 s and 210 s are not 3 in a row, but are 2 in a row: the streak resets after a long gap |
| `Scenarios.HighIsNotFlagged` | transaction-analysis.py:34-50 | four payments a day apart are not 3 in a row |
| `Scenarios.HighAmountSelected` | transaction-analysis.py:62-65 | with amounts 100, 100, 100 and 200 the 200 payment is above 1.5 × the mean of 125 |
| `Scenarios.HighAmountIsDenied` | transaction-analysis.py:108-110 | the 200 payment and the first 100 payment are both denied for amount |
| `Scenarios.CbkSignals` | transaction-analysis.py:25-31 | for a chargeback on day 0 and a payment on day 1: no velocity, no high value, registry `{9: day 0}` |
| `Scenarios.PriorChargebackIsDenied` | transaction-analysis.py:111-113 | the day-1 payment is denied for the chargeback; the chargeback row itself is approved, a chargeback at the same instant not being before it |
| `Scenarios.CleanSignals` | transaction-analysis.py:96-102 | two payments an hour apart, no chargeback: no rule fires and the registry is empty |
| `Scenarios.CleanIsApproved` | transaction-analysis.py:114-116 | at any instant, each such payment is approved with "N/A" |
| `Scenarios.CleanBatchIsEmpty` | transaction-analysis.py:124-133 | the batch over those payments lists nothing, whatever the clock readings |
| `Scenarios.UnknownIdIsNotFound` | transaction-analysis.py:87-88 | an id no row carries gives the not-found result |

## Left out

- Reading `transactional-sample.csv` and parsing its columns (lines 12-14, 138-141): the model starts from typed rows.
- The merchant, card and device columns: no rule reads them.
- Writing and reading `chargeback_users.csv` (lines 31, 70): the registry is a map passed to the decision.
- The JSON files written at lines 130-132 and 164-166, the `status` column at line 144, and `main` with its `input` prompts and `print` output (lines 136-176): I/O only.
- The wall clock (`pd.Timestamp.now()`, line 64): replaced by the parameter `now`, and in batch mode by one reading per row.
- Sub-microsecond instants: the analysed ledger is parsed at line 141 with no format, into nanosecond timestamps; the model's instants are whole microseconds.
- Fractional time thresholds: `time_threshold` is compared with the float `total_seconds()`, but the model's `timeThreshold` is a whole number of seconds.
- Floating point: amounts, the mean and `total_seconds()` are exact here (reals and integer microseconds), so float rounding at the edge of a threshold is not modelled.
- The first `had_chargeback_before` (lines 17-22): it is redefined at line 69 before any call, so it is never used.
- The `time_period` setting (lines 9, 81, 124) and the `transaction_amount` argument of `high_value_transactions`: the code never reads them; the window is the hard-coded 1500 days.
- The pandas sort by date (line 36) is modelled as a sort of the dates alone, since the scan reads nothing else of the sorted rows.
- `Chargeback.HadChargebackBefore`: its own contract states only the two cases that give false; the case that gives true is stated against the ledger by `Chargeback.ChargebackBeforeIffEarlierChargeback`.
