/**
 * Decision aggregation: resolve a transaction by id, evaluate all three
 * rules for its user, report the highest-priority signal (velocity, then
 * high value, then chargeback, else approve), and, in batch mode, collect
 * the denials in ledger order.
 */
module Decision {
  import opened Transactions
  import Velocity
  import HighValue
  import Chargeback

  const TOO_MANY_REASON: string := "Too many transactions in a row"
  const HIGH_AMOUNT_REASON: string := "Transaction amount is too high compared to the user's historical data"
  const CHARGEBACK_REASON: string := "User has had a chargeback before"
  const NO_REASON: string := "N/A"
  const NOT_FOUND_ERROR: string := "Transaction not found"

  /** The thresholds the rules are run with. */
  datatype Config = Config(timeThreshold: int, countThreshold: int, multiplier: real)

  /** One minute, three in a row, 1.5 times the mean. */
  const DEFAULTS: Config := Config(60, 3, 1.5)

  datatype Verdict = Approved | Denied

  /** The decision for one id, or the not-found result when no row has it. */
  datatype Outcome =
    | NotFound(transactionId: int, error: string)
    | Decided(transactionId: int, verdict: Verdict, reason: string)

  predicate IsDenied(o: Outcome)
  {
    o.Decided? && o.verdict == Denied
  }

  /** The outputs of the three rules for one transaction; all three are computed. */
  datatype Signals = Signals(tooMany: bool, highValue: Ledger, chargeback: bool)

  function Evaluate(t: Transaction, cfg: Config, now: Instant, registry: Chargeback.Registry, ledger: Ledger): Signals
  {
    Signals(
      Velocity.Flagged(ledger, t.userId, cfg.timeThreshold, cfg.countThreshold),
      HighValue.HighValueTransactions(t.userId, cfg.multiplier, now, ledger),
      Chargeback.HadChargebackBefore(t.userId, t.date, registry))
  }

  datatype Ruling = Ruling(verdict: Verdict, reason: string)

  /**
   * Combines the three signals by priority. A transaction is denied iff some
   * rule fired; the reason names the first rule that fired in the order
   * velocity, high value, chargeback; an approval carries "N/A".
   */
  function Decide(s: Signals): (d: Ruling)
    ensures d.verdict == Denied <==> s.tooMany || s.highValue != [] || s.chargeback
    ensures d.verdict == Approved <==> d.reason == NO_REASON
    ensures d.reason == TOO_MANY_REASON <==> s.tooMany
    ensures d.reason == HIGH_AMOUNT_REASON <==> !s.tooMany && s.highValue != []
    ensures d.reason == CHARGEBACK_REASON <==> !s.tooMany && s.highValue == [] && s.chargeback
  {
    if s.tooMany then Ruling(Denied, TOO_MANY_REASON)
    else if s.highValue != [] then Ruling(Denied, HIGH_AMOUNT_REASON)
    else if s.chargeback then Ruling(Denied, CHARGEBACK_REASON)
    else Ruling(Approved, NO_REASON)
  }

  /**
   * Decides the transaction `id`: the not-found result when no row has that
   * id, otherwise the ruling for the FIRST row with that id.
   */
  function AnalyzeIndividualTransaction(id: int, cfg: Config, now: Instant,
                                        registry: Chargeback.Registry, ledger: Ledger): (o: Outcome)
    ensures o.transactionId == id
    ensures o.NotFound? <==> forall k :: 0 <= k < |ledger| ==> ledger[k].id != id
    ensures o.NotFound? ==> o.error == NOT_FOUND_ERROR
    ensures o.Decided? ==>
      var k := FirstIndexOf(ledger, id).value;
      && ledger[k].id == id
      && Ruling(o.verdict, o.reason) == Decide(Evaluate(ledger[k], cfg, now, registry, ledger))
  {
    match FirstIndexOf(ledger, id)
    case None => NotFound(id, NOT_FOUND_ERROR)
    case Some(k) =>
      var d := Decide(Evaluate(ledger[k], cfg, now, registry, ledger));
      Decided(id, d.verdict, d.reason)
  }

  /** Every transaction id names exactly one row. */
  predicate UniqueIds(ledger: Ledger)
  {
    forall i, j :: 0 <= i < j < |ledger| ==> ledger[i].id != ledger[j].id
  }

  lemma FirstIndexOfUnique(ledger: Ledger, k: int)
    requires UniqueIds(ledger) && 0 <= k < |ledger|
    ensures FirstIndexOf(ledger, ledger[k].id) == Some(k)
  {
  }

  /**
   * The velocity check is per user: once the user is flagged, every one of
   * the user's transactions is denied with the velocity reason, whatever the
   * other two rules say.
   */
  lemma FlaggedUserAllDenied(ledger: Ledger, cfg: Config, now: Instant, registry: Chargeback.Registry, user: int)
    requires UniqueIds(ledger)
    requires Velocity.Flagged(ledger, user, cfg.timeThreshold, cfg.countThreshold)
    ensures forall k :: 0 <= k < |ledger| && ledger[k].userId == user ==>
      AnalyzeIndividualTransaction(ledger[k].id, cfg, now, registry, ledger)
        == Decided(ledger[k].id, Denied, TOO_MANY_REASON)
  {
    forall k | 0 <= k < |ledger| && ledger[k].userId == user
      ensures AnalyzeIndividualTransaction(ledger[k].id, cfg, now, registry, ledger)
        == Decided(ledger[k].id, Denied, TOO_MANY_REASON)
    {
      FirstIndexOfUnique(ledger, k);
    }
  }

  /**
   * The high-value signal is per user as well: it does not depend on the
   * amount (or the date) of the transaction being decided. Two transactions
   * of one user get the same velocity and high-value signals, and the same
   * ruling unless the chargeback rule tells them apart.
   */
  lemma SameUserSameHighValueSignal(ledger: Ledger, cfg: Config, now: Instant, registry: Chargeback.Registry,
                                    t1: Transaction, t2: Transaction)
    requires t1.userId == t2.userId
    ensures Evaluate(t1, cfg, now, registry, ledger).highValue == Evaluate(t2, cfg, now, registry, ledger).highValue
    ensures Evaluate(t1, cfg, now, registry, ledger).tooMany == Evaluate(t2, cfg, now, registry, ledger).tooMany
    ensures Evaluate(t1, cfg, now, registry, ledger).chargeback == Evaluate(t2, cfg, now, registry, ledger).chargeback ==>
      Decide(Evaluate(t1, cfg, now, registry, ledger)) == Decide(Evaluate(t2, cfg, now, registry, ledger))
  {
  }

  /**
   * With the registry built from the same ledger, a chargeback denial means
   * the ledger holds a chargeback of the same user dated strictly earlier
   * than the transaction.
   */
  lemma ChargebackDenialHasEarlierChargeback(ledger: Ledger, cfg: Config, now: Instant, k: int)
    requires UniqueIds(ledger) && 0 <= k < |ledger|
    requires AnalyzeIndividualTransaction(ledger[k].id, cfg, now, Chargeback.SaveChargebackUsers(ledger), ledger).reason
          == CHARGEBACK_REASON
    ensures exists t :: t in ledger && t.hasCbk && t.userId == ledger[k].userId && t.date < ledger[k].date
  {
    FirstIndexOfUnique(ledger, k);
    Chargeback.ChargebackBeforeIffEarlierChargeback(ledger, ledger[k].userId, ledger[k].date);
  }

  /** One entry of the batch output. */
  datatype Rejection = Rejection(transactionId: int, rejected: bool, reason: string)

  /** Every row of `rows`, in order, listed as rejected for `reason`. */
  function ListedAs(rows: Ledger, reason: string): (r: seq<Rejection>)
    ensures |r| == |rows|
    ensures forall k :: 0 <= k < |rows| ==> r[k] == Rejection(rows[k].id, true, reason)
  {
    if rows == [] then [] else ListedAs(rows[..|rows| - 1], reason) + [Rejection(rows[|rows| - 1].id, true, reason)]
  }

  /**
   * The denials among `rows`, in the order of `rows`: row k is decided
   * against the whole ledger at instant `clock[k]`, the clock reading its
   * decision takes; one entry per denied row, marked rejected and carrying
   * that decision's reason.
   */
  function Rejections(rows: Ledger, clock: seq<Instant>, cfg: Config, registry: Chargeback.Registry, ledger: Ledger)
    : (r: seq<Rejection>)
    requires |clock| == |rows|
    ensures |r| <= |rows|
  {
    if rows == [] then []
    else
      var n := |rows| - 1;
      Rejections(rows[..n], clock[..n], cfg, registry, ledger) + Entry(rows[n], clock[n], cfg, registry, ledger)
  }

  /** The entry for one row decided at `now`: one rejection if it is denied, none otherwise. */
  function Entry(t: Transaction, now: Instant, cfg: Config, registry: Chargeback.Registry, ledger: Ledger)
    : seq<Rejection>
  {
    var o := AnalyzeIndividualTransaction(t.id, cfg, now, registry, ledger);
    if IsDenied(o) then [Rejection(t.id, true, o.reason)] else []
  }

  /** The batch over the first i + 1 rows is the batch over the first i, then row i's entry. */
  lemma RejectionsStep(rows: Ledger, clock: seq<Instant>, i: int, cfg: Config,
                       registry: Chargeback.Registry, ledger: Ledger)
    requires |clock| == |rows| && 0 <= i < |rows|
    ensures Rejections(rows[..i + 1], clock[..i + 1], cfg, registry, ledger)
         == Rejections(rows[..i], clock[..i], cfg, registry, ledger) + Entry(rows[i], clock[i], cfg, registry, ledger)
  {
    assert rows[..i + 1][..i] == rows[..i] && clock[..i + 1][..i] == clock[..i];
  }

  /** Some row with the id of `x`, decided at its instant, is denied with the reason `x` carries. */
  predicate DeniedAtSomeRow(x: Rejection, rows: Ledger, clock: seq<Instant>, cfg: Config,
                            registry: Chargeback.Registry, ledger: Ledger)
    requires |clock| == |rows|
  {
    exists k :: 0 <= k < |rows| && rows[k].id == x.transactionId &&
      AnalyzeIndividualTransaction(x.transactionId, cfg, clock[k], registry, ledger)
      == Decided(x.transactionId, Denied, x.reason)
  }

  /**
   * Every entry is marked rejected and carries the reason of a denial of
   * its id at the instant of some row with that id.
   */
  lemma {:induction false} RejectionsAreDenials(rows: Ledger, clock: seq<Instant>, cfg: Config,
                                                registry: Chargeback.Registry, ledger: Ledger)
    requires |clock| == |rows|
    ensures forall x :: x in Rejections(rows, clock, cfg, registry, ledger) ==>
      x.rejected && DeniedAtSomeRow(x, rows, clock, cfg, registry, ledger)
  {
    if rows != [] {
      var n := |rows| - 1;
      var front, early := rows[..n], clock[..n];
      RejectionsAreDenials(front, early, cfg, registry, ledger);
      forall x | x in Rejections(front, early, cfg, registry, ledger)
        ensures DeniedAtSomeRow(x, rows, clock, cfg, registry, ledger)
      {
        var k :| 0 <= k < n && front[k].id == x.transactionId &&
          AnalyzeIndividualTransaction(x.transactionId, cfg, early[k], registry, ledger)
          == Decided(x.transactionId, Denied, x.reason);
        assert rows[k] == front[k] && clock[k] == early[k];
      }
    }
  }

  /** If row `t`, decided at `now`, is denied, then `r` holds its entry with the decision's reason. */
  predicate DenialListed(t: Transaction, now: Instant, cfg: Config, registry: Chargeback.Registry, ledger: Ledger,
                         r: seq<Rejection>)
  {
    var o := AnalyzeIndividualTransaction(t.id, cfg, now, registry, ledger);
    IsDenied(o) ==> Rejection(t.id, true, o.reason) in r
  }

  lemma EntryListed(t: Transaction, now: Instant, cfg: Config, registry: Chargeback.Registry,
                    ledger: Ledger, before: seq<Rejection>, after: seq<Rejection>)
    ensures DenialListed(t, now, cfg, registry, ledger, before + Entry(t, now, cfg, registry, ledger) + after)
  {
  }

  /** The batch over a single row is that row's entry. */
  lemma RejectionsOfOne(t: Transaction, now: Instant, cfg: Config, registry: Chargeback.Registry, ledger: Ledger)
    ensures Rejections([t], [now], cfg, registry, ledger) == Entry(t, now, cfg, registry, ledger)
  {
    assert [t][..0] == [] && [now][..0] == [];
  }

  /** A row denied at its instant has its entry, with the decision's reason. */
  lemma RejectionsListDenialOf(rows: Ledger, clock: seq<Instant>, k: int, cfg: Config,
                               registry: Chargeback.Registry, ledger: Ledger)
    requires |clock| == |rows| && 0 <= k < |rows|
    ensures DenialListed(rows[k], clock[k], cfg, registry, ledger, Rejections(rows, clock, cfg, registry, ledger))
  {
    var before, early := rows[..k], clock[..k];
    var after, late := rows[k + 1..], clock[k + 1..];
    assert rows == before + [rows[k]] + after;
    assert clock == early + [clock[k]] + late;
    RejectionsAppend(before + [rows[k]], early + [clock[k]], after, late, cfg, registry, ledger);
    RejectionsAppend(before, early, [rows[k]], [clock[k]], cfg, registry, ledger);
    RejectionsOfOne(rows[k], clock[k], cfg, registry, ledger);
    EntryListed(rows[k], clock[k], cfg, registry, ledger,
                Rejections(before, early, cfg, registry, ledger), Rejections(after, late, cfg, registry, ledger));
  }

  /** Every row denied at its instant has its entry, with the decision's reason. */
  lemma RejectionsListEveryDenial(rows: Ledger, clock: seq<Instant>, cfg: Config,
                                  registry: Chargeback.Registry, ledger: Ledger)
    requires |clock| == |rows|
    ensures forall k :: 0 <= k < |rows| ==>
      DenialListed(rows[k], clock[k], cfg, registry, ledger, Rejections(rows, clock, cfg, registry, ledger))
  {
    forall k | 0 <= k < |rows|
      ensures DenialListed(rows[k], clock[k], cfg, registry, ledger, Rejections(rows, clock, cfg, registry, ledger))
    {
      RejectionsListDenialOf(rows, clock, k, cfg, registry, ledger);
    }
  }

  lemma AppendAssociates<T>(x: seq<T>, y: seq<T>, z: seq<T>)
    ensures x + y + z == x + (y + z)
  {
  }

  lemma SplitLast<T>(x: seq<T>, y: seq<T>)
    requires y != []
    ensures (x + y)[..|x + y| - 1] == x + y[..|y| - 1] && (x + y)[|x + y| - 1] == y[|y| - 1]
  {
  }

  /** The denials of a concatenation are the denials of each part, in order. */
  lemma {:induction false} RejectionsAppend(a: Ledger, ca: seq<Instant>, b: Ledger, cb: seq<Instant>, cfg: Config,
                                            registry: Chargeback.Registry, ledger: Ledger)
    requires |ca| == |a| && |cb| == |b|
    ensures Rejections(a + b, ca + cb, cfg, registry, ledger)
         == Rejections(a, ca, cfg, registry, ledger) + Rejections(b, cb, cfg, registry, ledger)
    decreases |b|
  {
    if b == [] {
      assert a + b == a && ca + cb == ca;
    } else {
      var n := |b| - 1;
      var rows, clock := a + b, ca + cb;
      var m := |rows| - 1;
      SplitLast(a, b);
      SplitLast(ca, cb);
      var last := Entry(b[n], cb[n], cfg, registry, ledger);
      assert Rejections(rows, clock, cfg, registry, ledger)
          == Rejections(a + b[..n], ca + cb[..n], cfg, registry, ledger) + last;
      assert Rejections(b, cb, cfg, registry, ledger) == Rejections(b[..n], cb[..n], cfg, registry, ledger) + last;
      RejectionsAppend(a, ca, b[..n], cb[..n], cfg, registry, ledger);
      var left, middle := Rejections(a, ca, cfg, registry, ledger), Rejections(b[..n], cb[..n], cfg, registry, ledger);
      AppendAssociates(left, middle, last);
    }
  }

  /**
   * When every row is denied for the same reason at its instant, the batch
   * lists every row, in order, with that reason.
   */
  lemma {:induction false} AllDeniedAllListed(rows: Ledger, clock: seq<Instant>, cfg: Config,
                                              registry: Chargeback.Registry, ledger: Ledger, reason: string)
    requires |clock| == |rows|
    requires forall k :: 0 <= k < |rows| ==>
      AnalyzeIndividualTransaction(rows[k].id, cfg, clock[k], registry, ledger) == Decided(rows[k].id, Denied, reason)
    ensures Rejections(rows, clock, cfg, registry, ledger) == ListedAs(rows, reason)
  {
    if rows != [] {
      var n := |rows| - 1;
      var front, early := rows[..n], clock[..n];
      forall k | 0 <= k < n
        ensures AnalyzeIndividualTransaction(front[k].id, cfg, early[k], registry, ledger)
             == Decided(front[k].id, Denied, reason)
      {
        assert front[k] == rows[k] && early[k] == clock[k];
      }
      AllDeniedAllListed(front, early, cfg, registry, ledger, reason);
      assert AnalyzeIndividualTransaction(rows[n].id, cfg, clock[n], registry, ledger)
          == Decided(rows[n].id, Denied, reason);
    }
  }

  /** When no row is denied at its instant, the batch lists nothing. */
  lemma {:induction false} NoneDeniedNoneListed(rows: Ledger, clock: seq<Instant>, cfg: Config,
                                                registry: Chargeback.Registry, ledger: Ledger)
    requires |clock| == |rows|
    requires forall k :: 0 <= k < |rows| ==>
      !IsDenied(AnalyzeIndividualTransaction(rows[k].id, cfg, clock[k], registry, ledger))
    ensures Rejections(rows, clock, cfg, registry, ledger) == []
  {
    if rows != [] {
      var n := |rows| - 1;
      var front, early := rows[..n], clock[..n];
      forall k | 0 <= k < n
        ensures !IsDenied(AnalyzeIndividualTransaction(front[k].id, cfg, early[k], registry, ledger))
      {
        assert front[k] == rows[k] && early[k] == clock[k];
      }
      NoneDeniedNoneListed(front, early, cfg, registry, ledger);
      assert !IsDenied(AnalyzeIndividualTransaction(rows[n].id, cfg, clock[n], registry, ledger));
    }
  }

  /**
   * Decides every row of the ledger in ledger order, reading the clock once
   * per decision (`clock[i]` is the reading taken for row i), and appends a
   * rejection entry for each denied one.
   */
  method AnalyzeAllTransactions(ledger: Ledger, clock: seq<Instant>, cfg: Config, registry: Chargeback.Registry)
    returns (denied: seq<Rejection>)
    requires |clock| == |ledger|
    ensures denied == Rejections(ledger, clock, cfg, registry, ledger)
  {
    denied := [];
    for i := 0 to |ledger|
      invariant denied == Rejections(ledger[..i], clock[..i], cfg, registry, ledger)
    {
      var id := ledger[i].id;
      var decision := AnalyzeIndividualTransaction(id, cfg, clock[i], registry, ledger);
      RejectionsStep(ledger, clock, i, cfg, registry, ledger);
      assert Entry(ledger[i], clock[i], cfg, registry, ledger)
          == if IsDenied(decision) then [Rejection(id, true, decision.reason)] else [];
      if decision.Decided? && decision.verdict == Denied {
        denied := denied + [Rejection(id, true, decision.reason)];
      }
    }
    assert ledger[..|ledger|] == ledger && clock[..|clock|] == clock;
  }
}
