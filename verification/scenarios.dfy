/**
 * Concrete ledgers whose decisions are proved, with the default configuration:
 * a burst, a reset streak, a high amount, a prior chargeback, a clean user
 * and an unknown id. Each is proved in small steps: the user's rows, the
 * velocity signal, the other signals, then the decision.
 */
module Scenarios {
  import opened Transactions
  import opened Sorting
  import opened Velocity
  import opened HighValue
  import opened Chargeback
  import opened Decision

  /** A row whose date is given in whole seconds. */
  function Row(id: int, user: int, amount: real, seconds: int, cbk: bool): (t: Transaction)
    ensures t.date == seconds * MICROS_PER_SECOND
  {
    Transaction(id, user, amount, seconds * MICROS_PER_SECOND, cbk)
  }

  const DAY: int := 86_400
  const HOUR: int := 3_600

  /** An evaluation instant shortly after every row below. */
  const NOW: Instant := 30 * MICROS_PER_DAY

  /**
   * A ledger of one user's rows, already in date order: the scan walks
   * their dates as they stand.
   */
  lemma DatesInOrder(ledger: Ledger, user: int, dates: seq<Instant>)
    requires forall k :: 0 <= k < |ledger| ==> ledger[k].userId == user
    requires |dates| == |ledger| && forall k :: 0 <= k < |ledger| ==> ledger[k].date == dates[k]
    requires Sorted(dates)
    ensures SortedUserDates(ledger, user) == dates
  {
    UserTransactionsOfOneUser(ledger, user);
    assert UserDates(ledger, user) == dates;
    SortAscendingOfSorted(dates);
  }

  /** Three dates with both gaps within `maxGap` are a burst of three. */
  lemma ThreeClose(s: seq<Instant>, maxGap: int)
    requires |s| == 3 && s[1] - s[0] <= maxGap && s[2] - s[1] <= maxGap
    ensures Burst(s, maxGap, 3)
  {
    assert CloseRun(s, 0, 2, maxGap);
  }

  /**
   * Three dates whose first gap exceeds `maxGap` and whose second does not
   * are a burst of two but not of three.
   */
  lemma GapThenClose(s: seq<Instant>, maxGap: int)
    requires |s| == 3 && s[1] - s[0] > maxGap && s[2] - s[1] <= maxGap
    ensures !Burst(s, maxGap, 3)
    ensures Burst(s, maxGap, 2)
  {
    assert !CloseRun(s, 0, 2, maxGap);
    assert CloseRun(s, 1, 2, maxGap);
  }

  // ---- User 7 pays at 0 s, 30 s and 55 s: three in a row within a minute.

  const BURST: Ledger := [Row(1, 7, 10.0, 0, false), Row(2, 7, 10.0, 30, false), Row(3, 7, 10.0, 55, false)]
  const BURST_DATES: seq<Instant> := [0, 30 * MICROS_PER_SECOND, 55 * MICROS_PER_SECOND]

  lemma BurstDates()
    ensures SortedUserDates(BURST, 7) == BURST_DATES
  {
    DatesInOrder(BURST, 7, BURST_DATES);
  }

  lemma BurstIsFlagged()
    ensures Flagged(BURST, 7, 60, 3)
  {
    BurstDates();
    ThreeClose(BURST_DATES, 60 * MICROS_PER_SECOND);
  }

  /**
   * Every payment of user 7 is denied for velocity, whatever the registry
   * holds and whatever instant the decision is taken at.
   */
  lemma BurstIsDenied(registry: Registry, now: Instant)
    ensures forall k :: 0 <= k < |BURST| ==>
      AnalyzeIndividualTransaction(BURST[k].id, DEFAULTS, now, registry, BURST)
        == Decided(BURST[k].id, Denied, TOO_MANY_REASON)
  {
    BurstIsFlagged();
    BurstIdsUnique();
    FlaggedUserAllDenied(BURST, DEFAULTS, now, registry, 7);
  }

  lemma BurstIdsUnique()
    ensures UniqueIds(BURST)
  {
  }

  /** The batch lists all three, in ledger order, whenever each decision reads the clock. */
  lemma BurstBatch(registry: Registry, clock: seq<Instant>)
    requires |clock| == |BURST|
    ensures Rejections(BURST, clock, DEFAULTS, registry, BURST) == ListedAs(BURST, TOO_MANY_REASON)
  {
    forall k | 0 <= k < |BURST|
      ensures AnalyzeIndividualTransaction(BURST[k].id, DEFAULTS, clock[k], registry, BURST)
           == Decided(BURST[k].id, Denied, TOO_MANY_REASON)
    {
      BurstIsDenied(registry, clock[k]);
    }
    AllDeniedAllListed(BURST, clock, DEFAULTS, registry, BURST, TOO_MANY_REASON);
  }

  // ---- User 7 pays at 0 s, 200 s and 210 s: the long first gap resets the streak.

  const RESET: Ledger := [Row(1, 7, 10.0, 0, false), Row(2, 7, 10.0, 200, false), Row(3, 7, 10.0, 210, false)]
  const RESET_DATES: seq<Instant> := [0, 200 * MICROS_PER_SECOND, 210 * MICROS_PER_SECOND]

  lemma ResetDates()
    ensures SortedUserDates(RESET, 7) == RESET_DATES
  {
    DatesInOrder(RESET, 7, RESET_DATES);
  }

  /**
   * Three transactions within 210 s are not a burst of three, since the
   * streak restarts after the 200 s gap; the last two are a burst of two.
   * The rule looks at consecutive runs, not at a sliding window.
   */
  lemma RunResetsOnLongGap()
    ensures !Flagged(RESET, 7, 60, 3)
    ensures Flagged(RESET, 7, 60, 2)
  {
    ResetDates();
    GapThenClose(RESET_DATES, 60 * MICROS_PER_SECOND);
  }

  // ---- User 8 pays 100, 100, 100 and then 200 on four consecutive days.

  const HIGH: Ledger := [Row(1, 8, 100.0, DAY, false), Row(2, 8, 100.0, 2 * DAY, false),
                         Row(3, 8, 100.0, 3 * DAY, false), Row(4, 8, 200.0, 4 * DAY, false)]
  const HIGH_DATES: seq<Instant> := [DAY * MICROS_PER_SECOND, 2 * DAY * MICROS_PER_SECOND,
                                     3 * DAY * MICROS_PER_SECOND, 4 * DAY * MICROS_PER_SECOND]

  lemma HighDates()
    ensures SortedUserDates(HIGH, 8) == HIGH_DATES
  {
    DatesInOrder(HIGH, 8, HIGH_DATES);
  }

  lemma HighDatesSpacedOut()
    ensures !Burst(HIGH_DATES, 60 * MICROS_PER_SECOND, 3)
  {
    SpacedOutNeverBurst(HIGH_DATES, 60 * MICROS_PER_SECOND, 3);
  }

  lemma HighIsNotFlagged()
    ensures !Flagged(HIGH, 8, 60, 3)
  {
    HighDates();
    HighDatesSpacedOut();
  }

  /** The mean over all four is 125 and the threshold 187.5: the 200 payment is high. */
  lemma HighAmountSelected()
    ensures HIGH[3] in HighValueTransactions(8, 1.5, NOW, HIGH)
  {
    UserTransactionsOfOneUser(HIGH, 8);
    assert HIGH[3..][1..] == [] && HIGH[2..][1..] == HIGH[3..] && HIGH[1..][1..] == HIGH[2..];
    assert Sum(HIGH[3..]) == 200.0 && Count(HIGH[3..]) == 1.0;
    assert Sum(HIGH[2..]) == 300.0 && Count(HIGH[2..]) == 2.0;
    assert Sum(HIGH[1..]) == 400.0 && Count(HIGH[1..]) == 3.0;
    assert Sum(HIGH) == 500.0 && Count(HIGH) == 4.0;
  }

  /**
   * The 200 payment is denied for its amount, and so is the first 100
   * payment: the high-value signal belongs to the user, not the payment.
   */
  lemma HighAmountIsDenied()
    ensures AnalyzeIndividualTransaction(4, DEFAULTS, NOW, SaveChargebackUsers(HIGH), HIGH)
         == Decided(4, Denied, HIGH_AMOUNT_REASON)
    ensures AnalyzeIndividualTransaction(1, DEFAULTS, NOW, SaveChargebackUsers(HIGH), HIGH)
         == Decided(1, Denied, HIGH_AMOUNT_REASON)
  {
    HighIsNotFlagged();
    HighAmountSelected();
    assert FirstIndexOf(HIGH, 4) == Some(3);
    assert FirstIndexOf(HIGH, 1) == Some(0);
  }

  // ---- User 9 had a chargeback on day 0 and pays again on day 1.

  const CBK: Ledger := [Row(1, 9, 50.0, 0, true), Row(2, 9, 50.0, DAY, false)]

  lemma CbkSignals()
    ensures !Flagged(CBK, 9, 60, 3)
    ensures HighValueTransactions(9, 1.5, NOW, CBK) == []
    ensures SaveChargebackUsers(CBK) == map[9 := 0]
  {
    UserTransactionsOfOneUser(CBK, 9);
    assert |SortedUserDates(CBK, 9)| == 2;
  }

  /**
   * The day-1 payment is denied for the earlier chargeback; the chargeback
   * row itself is approved, since a chargeback at the same instant is not
   * before it.
   */
  lemma PriorChargebackIsDenied()
    ensures AnalyzeIndividualTransaction(2, DEFAULTS, NOW, SaveChargebackUsers(CBK), CBK)
         == Decided(2, Denied, CHARGEBACK_REASON)
    ensures AnalyzeIndividualTransaction(1, DEFAULTS, NOW, SaveChargebackUsers(CBK), CBK)
         == Decided(1, Approved, NO_REASON)
  {
    CbkSignals();
    assert FirstIndexOf(CBK, 2) == Some(1);
    assert FirstIndexOf(CBK, 1) == Some(0);
  }

  // ---- User 10 pays twice, an hour apart, with no chargeback.

  const CLEAN: Ledger := [Row(1, 10, 40.0, 0, false), Row(2, 10, 40.0, HOUR, false)]

  lemma CleanSignals(now: Instant)
    ensures !Flagged(CLEAN, 10, 60, 3)
    ensures HighValueTransactions(10, 1.5, now, CLEAN) == []
    ensures SaveChargebackUsers(CLEAN) == map[]
  {
    UserTransactionsOfOneUser(CLEAN, 10);
    assert |SortedUserDates(CLEAN, 10)| == 2;
  }

  /** Both payments are approved with "N/A", whatever instant they are decided at. */
  lemma CleanIsApproved(now: Instant)
    ensures AnalyzeIndividualTransaction(1, DEFAULTS, now, SaveChargebackUsers(CLEAN), CLEAN)
         == Decided(1, Approved, NO_REASON)
    ensures AnalyzeIndividualTransaction(2, DEFAULTS, now, SaveChargebackUsers(CLEAN), CLEAN)
         == Decided(2, Approved, NO_REASON)
  {
    CleanSignals(now);
    assert FirstIndexOf(CLEAN, 2) == Some(1);
    assert FirstIndexOf(CLEAN, 1) == Some(0);
  }

  /** So the batch over them lists nothing. */
  lemma CleanBatchIsEmpty(clock: seq<Instant>)
    requires |clock| == |CLEAN|
    ensures Rejections(CLEAN, clock, DEFAULTS, SaveChargebackUsers(CLEAN), CLEAN) == []
  {
    forall k | 0 <= k < |CLEAN|
      ensures !IsDenied(AnalyzeIndividualTransaction(CLEAN[k].id, DEFAULTS, clock[k], SaveChargebackUsers(CLEAN), CLEAN))
    {
      CleanIsApproved(clock[k]);
    }
    NoneDeniedNoneListed(CLEAN, clock, DEFAULTS, SaveChargebackUsers(CLEAN), CLEAN);
  }

  /** An id that no row carries gives the not-found result, not a decision. */
  lemma UnknownIdIsNotFound()
    ensures AnalyzeIndividualTransaction(99, DEFAULTS, NOW, SaveChargebackUsers(CLEAN), CLEAN)
         == NotFound(99, NOT_FOUND_ERROR)
  {
  }
}
