/**
 * The velocity (burst) rule: a user is flagged when, after sorting their
 * transactions by date, a run of consecutive transactions whose adjacent
 * gaps are all within the time threshold reaches the count threshold.
 * The check is per user, not per transaction.
 */
module Velocity {
  import opened Transactions
  import opened Sorting

  /** The dates of the rows of `user`, in ledger order. */
  function UserDates(ledger: Ledger, user: int): (r: seq<Instant>)
    ensures |r| == |UserTransactions(ledger, user)|
  {
    var txs := UserTransactions(ledger, user);
    seq(|txs|, k requires 0 <= k < |txs| => txs[k].date)
  }

  /** The user's dates in ascending order: the table the scan walks. */
  function SortedUserDates(ledger: Ledger, user: int): seq<Instant>
  {
    SortAscending(UserDates(ledger, user))
  }

  /** Every adjacent gap between positions `i` and `j` of `s` is at most `maxGap`. */
  predicate CloseRun(s: seq<Instant>, i: int, j: int, maxGap: int)
    requires 0 <= i <= j < |s|
  {
    forall m :: i <= m < j ==> s[m + 1] - s[m] <= maxGap
  }

  /**
   * Some run s[i..j] of adjacent close dates, ending at a position the scan
   * reaches (j >= 1, so at least one pair was compared), is at least
   * `countThreshold` long.
   */
  predicate Burst(s: seq<Instant>, maxGap: int, countThreshold: int)
  {
    exists i, j :: 0 <= i <= j < |s| && 1 <= j && j - i + 1 >= countThreshold && CloseRun(s, i, j, maxGap)
  }

  /** The specification of the rule: a burst in the user's sorted dates. */
  predicate Flagged(ledger: Ledger, user: int, timeThreshold: int, countThreshold: int)
  {
    Burst(SortedUserDates(ledger, user), timeThreshold * MICROS_PER_SECOND, countThreshold)
  }

  /**
   * Sorts the user's dates and walks adjacent pairs with a streak counter
   * that starts at 1, grows by one on a gap of at most `timeThreshold`
   * seconds, is reset to 1 on a larger gap, and stops the scan with true
   * as soon as it reaches `countThreshold`.
   */
  method TooManyTransactions(user: int, timeThreshold: int, countThreshold: int, ledger: Ledger)
    returns (tooMany: bool)
    ensures tooMany == Flagged(ledger, user, timeThreshold, countThreshold)
  {
    var dates := SortedUserDates(ledger, user);
    var maxGap := timeThreshold * MICROS_PER_SECOND;
    var count := 1;
    ghost var start := 0;
    var idx := 0;
    while idx < |dates| - 1
      invariant 0 <= start <= idx
      invariant idx == 0 || idx < |dates|
      invariant count == idx - start + 1
      invariant idx < |dates| ==> CloseRun(dates, start, idx, maxGap)
      invariant 0 < start ==> dates[start] - dates[start - 1] > maxGap
      invariant NoBurstEndingBy(dates, idx, maxGap, countThreshold)
    {
      if dates[idx + 1] - dates[idx] <= maxGap {
        count := count + 1;
        CloseRunExtends(dates, start, idx, maxGap);
      } else {
        count := 1;
        start := idx + 1;
      }
      if count >= countThreshold {
        BurstFound(dates, start, idx + 1, maxGap, countThreshold);
        return true;
      }
      NoBurstExtends(dates, idx, start, maxGap, countThreshold);
      idx := idx + 1;
    }
    NoBurstAtEnd(dates, idx, maxGap, countThreshold);
    return false;
  }

  lemma CloseRunExtends(s: seq<Instant>, i: int, j: int, maxGap: int)
    requires 0 <= i <= j && j + 1 < |s|
    requires CloseRun(s, i, j, maxGap) && s[j + 1] - s[j] <= maxGap
    ensures CloseRun(s, i, j + 1, maxGap)
  {
  }

  lemma BurstFound(s: seq<Instant>, i: int, j: int, maxGap: int, countThreshold: int)
    requires 0 <= i <= j < |s| && 1 <= j
    requires CloseRun(s, i, j, maxGap) && j - i + 1 >= countThreshold
    ensures Burst(s, maxGap, countThreshold)
  {
  }

  /** No close run ending at a position in 1..last is `countThreshold` long. */
  ghost predicate NoBurstEndingBy(s: seq<Instant>, last: int, maxGap: int, countThreshold: int)
  {
    forall i, j :: 0 <= i <= j <= last && 1 <= j && j < |s| && CloseRun(s, i, j, maxGap) ==> j - i + 1 < countThreshold
  }

  /**
   * One more step of the scan: the streak that started at `start` is the
   * longest close run ending at `idx + 1`, and it is still short.
   */
  lemma NoBurstExtends(s: seq<Instant>, idx: int, start: int, maxGap: int, countThreshold: int)
    requires 0 <= start <= idx + 1 < |s|
    requires NoBurstEndingBy(s, idx, maxGap, countThreshold)
    requires 0 < start ==> s[start] - s[start - 1] > maxGap
    requires idx + 1 - start + 1 < countThreshold
    ensures NoBurstEndingBy(s, idx + 1, maxGap, countThreshold)
  {
    var j := idx + 1;
    forall i | 0 <= i < start
      ensures !CloseRun(s, i, j, maxGap)
    {
      assert i <= start - 1 < j;
    }
  }

  /** When the scan ends without reaching the threshold there is no burst. */
  lemma NoBurstAtEnd(s: seq<Instant>, idx: int, maxGap: int, countThreshold: int)
    requires idx >= |s| - 1
    requires NoBurstEndingBy(s, idx, maxGap, countThreshold)
    ensures !Burst(s, maxGap, countThreshold)
  {
  }

  /** Fewer than two transactions: the scan never compares a pair. */
  lemma FewerThanTwoNeverFlagged(ledger: Ledger, user: int, timeThreshold: int, countThreshold: int)
    requires |UserTransactions(ledger, user)| < 2
    ensures !Flagged(ledger, user, timeThreshold, countThreshold)
  {
  }

  /**
   * When every adjacent gap exceeds the limit, no streak grows past 1, so a
   * count threshold of 2 or more is never reached.
   */
  lemma SpacedOutNeverBurst(s: seq<Instant>, maxGap: int, countThreshold: int)
    requires forall m :: 0 <= m < |s| - 1 ==> s[m + 1] - s[m] > maxGap
    requires countThreshold >= 2
    ensures !Burst(s, maxGap, countThreshold)
  {
    forall i, j | 0 <= i < j < |s|
      ensures !CloseRun(s, i, j, maxGap)
    {
      assert s[i + 1] - s[i] > maxGap;
    }
  }

  /**
   * A row of another user, inserted anywhere in the ledger, does not change
   * whether `user` is flagged.
   */
  lemma OtherUsersDoNotAffectVelocity(a: Ledger, t: Transaction, b: Ledger,
                                      user: int, timeThreshold: int, countThreshold: int)
    requires t.userId != user
    ensures Flagged(a + [t] + b, user, timeThreshold, countThreshold)
        == Flagged(a + b, user, timeThreshold, countThreshold)
  {
    UserTransactionsIgnoreOthers(a, t, b, user);
  }

  /**
   * The ledger order of the user's rows does not matter: two ledgers whose
   * rows of `user` carry the same dates, in any order, flag alike.
   */
  lemma {:induction false} FlaggedIgnoresLedgerOrder(l1: Ledger, l2: Ledger, user: int,
                                                     timeThreshold: int, countThreshold: int)
    requires multiset(UserDates(l1, user)) == multiset(UserDates(l2, user))
    ensures Flagged(l1, user, timeThreshold, countThreshold) == Flagged(l2, user, timeThreshold, countThreshold)
  {
    SortedUnique(SortedUserDates(l1, user), SortedUserDates(l2, user));
  }
}
