/**
 * The high-value (anomaly) rule: once a user has at least three
 * transactions, it selects those of the user's transactions dated at or
 * after the evaluation instant `now` less 1500 days (there is no upper
 * bound: a transaction dated after `now` counts too) and whose amount is
 * strictly above the user's mean amount times the multiplier.
 */
module HighValue {
  import opened Transactions

  /** The look-back, 1500 days: rows dated at or after `now` less this are kept, with no upper bound. */
  const WINDOW: int := 1500 * MICROS_PER_DAY
  /** The least history that establishes a baseline. */
  const MIN_TRANSACTIONS: int := 3

  /**
   * The number of rows of `txs`, as a real number: the divisor of the mean.
   * It recurses like `Sum`, so that inductions over amounts unfold both
   * alike; `CountIsLength` ties it to `|txs|`.
   */
  function Count(txs: Ledger): (n: real)
    ensures n >= 0.0
    ensures txs != [] ==> n >= 1.0
  {
    if txs == [] then 0.0 else 1.0 + Count(txs[1..])
  }

  lemma {:induction false} CountIsLength(txs: Ledger)
    ensures Count(txs) == |txs| as real
  {
    if txs != [] {
      CountIsLength(txs[1..]);
    }
  }

  function Mean(txs: Ledger): real
    requires txs != []
  {
    Sum(txs) / Count(txs)
  }

  /** The rows of `txs`, in order, dated at or after `since` with an amount above `threshold`. */
  function RecentAbove(txs: Ledger, since: Instant, threshold: real): (r: Ledger)
    ensures |r| <= |txs|
    ensures forall t :: t in r <==> t in txs && t.date >= since && t.amount > threshold
  {
    if txs == [] then []
    else
      var t := txs[0];
      (if t.date >= since && t.amount > threshold then [t] else []) + RecentAbove(txs[1..], since, threshold)
  }

  /**
   * The exact, division-free form of "above the mean of `txs` times
   * `multiplier`".
   */
  predicate AboveBaseline(t: Transaction, txs: Ledger, multiplier: real)
  {
    t.amount * Count(txs) > Sum(txs) * multiplier
  }

  lemma AboveMeanIffCrossMultiplied(amount: real, sum: real, n: real, multiplier: real)
    requires n > 0.0
    ensures amount > (sum / n) * multiplier <==> amount * n > sum * multiplier
  {
    assert (sum / n) * multiplier * n == sum * multiplier;
  }

  lemma AboveMeanIffAboveBaseline(txs: Ledger, multiplier: real)
    requires txs != []
    ensures forall t: Transaction :: t.amount > Mean(txs) * multiplier <==> AboveBaseline(t, txs, multiplier)
  {
    forall t: Transaction
      ensures t.amount > Mean(txs) * multiplier <==> AboveBaseline(t, txs, multiplier)
    {
      AboveMeanIffCrossMultiplied(t.amount, Sum(txs), Count(txs), multiplier);
    }
  }

  /**
   * The high-value transactions of `user` at instant `now`: empty without a
   * baseline of three transactions, otherwise exactly the user's rows in the
   * window whose amount exceeds the mean times `multiplier`.
   */
  function HighValueTransactions(user: int, multiplier: real, now: Instant, ledger: Ledger): (r: Ledger)
    ensures |UserTransactions(ledger, user)| < MIN_TRANSACTIONS ==> r == []
    ensures |r| <= |UserTransactions(ledger, user)|
    ensures forall t :: t in r <==>
      && |UserTransactions(ledger, user)| >= MIN_TRANSACTIONS
      && t in ledger && t.userId == user
      && t.date >= now - WINDOW
      && AboveBaseline(t, UserTransactions(ledger, user), multiplier)
  {
    SelectHighValue(UserTransactions(ledger, user), multiplier, now)
  }

  /** The rule applied to one user's history `txs`. */
  function SelectHighValue(txs: Ledger, multiplier: real, now: Instant): (r: Ledger)
    ensures |txs| < MIN_TRANSACTIONS ==> r == []
    ensures |r| <= |txs|
    ensures forall t :: t in r <==>
      |txs| >= MIN_TRANSACTIONS && t in txs && t.date >= now - WINDOW && AboveBaseline(t, txs, multiplier)
  {
    if |txs| < MIN_TRANSACTIONS then []
    else
      AboveMeanIffAboveBaseline(txs, multiplier);
      RecentAbove(txs, now - WINDOW, Mean(txs) * multiplier)
  }

  /**
   * A row of another user, inserted anywhere in the ledger, does not change
   * the high-value transactions of `user`.
   */
  lemma OtherUsersDoNotAffectHighValue(a: Ledger, t: Transaction, b: Ledger,
                                       user: int, multiplier: real, now: Instant)
    requires t.userId != user
    ensures HighValueTransactions(user, multiplier, now, a + [t] + b)
         == HighValueTransactions(user, multiplier, now, a + b)
  {
    UserTransactionsIgnoreOthers(a, t, b, user);
    assert UserTransactions(a + [t] + b, user) == UserTransactions(a + b, user);
  }

  /** If every amount of `txs` exceeds `c`, their sum exceeds `Count(txs) * c`. */
  lemma {:induction false} SumAbove(txs: Ledger, c: real)
    requires txs != []
    requires forall k :: 0 <= k < |txs| ==> txs[k].amount > c
    ensures Sum(txs) > Count(txs) * c
  {
    var rest := txs[1..];
    if rest == [] {
      assert Sum(txs) == txs[0].amount && Count(txs) == 1.0;
    } else {
      SumAbove(rest, c);
      assert Count(txs) * c == c + Count(rest) * c;
    }
  }

  /**
   * With non-negative amounts and a multiplier of at least 1, some amount of
   * a non-empty history is at most the mean times the multiplier.
   */
  lemma {:induction false} SomeAtMostScaledMean(txs: Ledger, multiplier: real)
    requires multiplier >= 1.0
    requires forall k :: 0 <= k < |txs| ==> txs[k].amount >= 0.0
    requires txs != []
    ensures exists k :: 0 <= k < |txs| && txs[k].amount <= Mean(txs) * multiplier
  {
    var c := Mean(txs) * multiplier;
    assert Count(txs) * c == Sum(txs) * multiplier;
    assert Sum(txs) * multiplier >= Sum(txs);
    if forall k :: 0 <= k < |txs| ==> txs[k].amount > c {
      SumAbove(txs, c);
      assert false;
    }
  }

  /**
   * With non-negative amounts and a multiplier of at least 1, some
   * transaction of a non-empty history is never selected: no user can have
   * every transaction above their own mean.
   */
  lemma NeverSelectsAll(txs: Ledger, multiplier: real, now: Instant)
    requires multiplier >= 1.0
    requires forall k :: 0 <= k < |txs| ==> txs[k].amount >= 0.0
    requires txs != []
    ensures exists t :: t in txs && t !in SelectHighValue(txs, multiplier, now)
  {
    SomeAtMostScaledMean(txs, multiplier);
    var k :| 0 <= k < |txs| && txs[k].amount <= Mean(txs) * multiplier;
    AboveMeanIffAboveBaseline(txs, multiplier);
    assert txs[k] in txs && !AboveBaseline(txs[k], txs, multiplier);
  }

  /** The same, for the rule as the engine calls it on a user of the ledger. */
  lemma HighValueNeverSelectsAll(user: int, multiplier: real, now: Instant, ledger: Ledger)
    requires multiplier >= 1.0
    requires forall k :: 0 <= k < |ledger| ==> ledger[k].amount >= 0.0
    requires UserTransactions(ledger, user) != []
    ensures exists t :: t in ledger && t.userId == user && t !in HighValueTransactions(user, multiplier, now, ledger)
  {
    var txs := UserTransactions(ledger, user);
    forall k | 0 <= k < |txs| ensures txs[k].amount >= 0.0 {
      assert txs[k] in ledger;
    }
    NeverSelectsAll(txs, multiplier, now);
  }
}
