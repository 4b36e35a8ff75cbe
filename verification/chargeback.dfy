/**
 * The chargeback registry, a derived index from user to the date of their
 * earliest chargeback, and the lookup the chargeback rule makes in it.
 */
module Chargeback {
  import opened Transactions

  /** User id to the date of that user's earliest chargeback. */
  type Registry = map<int, Instant>

  /**
   * Builds the registry from the ledger: the rows flagged `hasCbk`, grouped
   * by user, keeping the minimum date of each group.
   */
  function SaveChargebackUsers(ledger: Ledger): (registry: Registry)
    ensures forall u :: u in registry <==> exists t :: t in ledger && t.hasCbk && t.userId == u
    ensures forall u :: u in registry ==>
      exists t :: t in ledger && t.hasCbk && t.userId == u && t.date == registry[u]
    ensures forall t :: t in ledger && t.hasCbk ==> t.userId in registry && registry[t.userId] <= t.date
  {
    if ledger == [] then map[]
    else
      var rest := SaveChargebackUsers(ledger[1..]);
      var t := ledger[0];
      assert ledger == [t] + ledger[1..];
      if !t.hasCbk then rest
      else if t.userId in rest && rest[t.userId] <= t.date then rest
      else rest[t.userId := t.date]
  }

  /**
   * Whether `user` had a chargeback strictly before `date`: false when the
   * registry holds no entry for the user, and false for a chargeback at the
   * very same instant.
   */
  function HadChargebackBefore(user: int, date: Instant, registry: Registry): (before: bool)
    ensures user !in registry ==> !before
    ensures user in registry && registry[user] >= date ==> !before
  {
    user in registry && registry[user] < date
  }

  /**
   * Against a registry built from the ledger, the lookup answers exactly
   * whether the ledger holds a chargeback of `user` dated strictly before
   * `date`.
   */
  lemma ChargebackBeforeIffEarlierChargeback(ledger: Ledger, user: int, date: Instant)
    ensures HadChargebackBefore(user, date, SaveChargebackUsers(ledger))
        <==> exists t :: t in ledger && t.hasCbk && t.userId == user && t.date < date
  {
    var registry := SaveChargebackUsers(ledger);
    if HadChargebackBefore(user, date, registry) {
      var t :| t in ledger && t.hasCbk && t.userId == user && t.date == registry[user];
      assert t.date < date;
    }
  }
}
