/**
 * The ledger: an already-typed snapshot of every known transaction, in the
 * order the ledger holds them, together with the queries the rules share
 * (a user's transactions, the sum of their amounts, lookup by id).
 */
module Transactions {

  datatype Option<T> = None | Some(value: T)

  /** An absolute instant, in microseconds since the epoch. */
  type Instant = int

  const MICROS_PER_SECOND: int := 1_000_000
  const MICROS_PER_DAY: int := 86_400 * MICROS_PER_SECOND

  /**
   * One ledger row. Only the columns the rule engine reads are kept; the
   * amount is an exact decimal.
   */
  datatype Transaction = Transaction(
    id: int,
    userId: int,
    amount: real,
    date: Instant,
    hasCbk: bool)

  type Ledger = seq<Transaction>

  /** The rows of `user`, in ledger order (the row selection `user_id == user`). */
  function UserTransactions(ledger: Ledger, user: int): (r: Ledger)
    ensures |r| <= |ledger|
    ensures forall t :: t in r <==> t in ledger && t.userId == user
    ensures forall k :: 0 <= k < |r| ==> r[k].userId == user
  {
    if ledger == [] then []
    else (if ledger[0].userId == user then [ledger[0]] else []) + UserTransactions(ledger[1..], user)
  }

  lemma {:induction false} UserTransactionsAppend(a: Ledger, b: Ledger, user: int)
    ensures UserTransactions(a + b, user) == UserTransactions(a, user) + UserTransactions(b, user)
  {
    if a == [] {
      assert a + b == b;
    } else {
      assert (a + b)[0] == a[0];
      assert (a + b)[1..] == a[1..] + b;
      UserTransactionsAppend(a[1..], b, user);
    }
  }

  /** A row of another user, wherever it stands, does not change the rows of `user`. */
  lemma {:induction false} UserTransactionsIgnoreOthers(a: Ledger, t: Transaction, b: Ledger, user: int)
    requires t.userId != user
    ensures UserTransactions(a + [t] + b, user) == UserTransactions(a + b, user)
  {
    var ua, ub := UserTransactions(a, user), UserTransactions(b, user);
    assert UserTransactions([t], user) == [] by {
      assert [t][1..] == [];
    }
    calc {
      UserTransactions(a + [t] + b, user);
      { UserTransactionsAppend(a + [t], b, user); }
      UserTransactions(a + [t], user) + ub;
      { UserTransactionsAppend(a, [t], user); }
      ua + [] + ub;
      { assert ua + [] == ua; }
      ua + ub;
      { UserTransactionsAppend(a, b, user); }
      UserTransactions(a + b, user);
    }
  }

  /** A ledger that holds rows of `user` only is its own selection for `user`. */
  lemma {:induction false} UserTransactionsOfOneUser(ledger: Ledger, user: int)
    requires forall k :: 0 <= k < |ledger| ==> ledger[k].userId == user
    ensures UserTransactions(ledger, user) == ledger
  {
    if ledger != [] {
      UserTransactionsOfOneUser(ledger[1..], user);
      assert ledger == [ledger[0]] + ledger[1..];
    }
  }

  /** Sum of the amounts of `txs`. */
  function Sum(txs: Ledger): (s: real)
    ensures (forall k :: 0 <= k < |txs| ==> txs[k].amount >= 0.0) ==> s >= 0.0
  {
    if txs == [] then 0.0 else txs[0].amount + Sum(txs[1..])
  }

  /**
   * Index of the FIRST row whose id is `id` (the source takes `iloc[0]`
   * of the matching rows), or None when no row has that id.
   */
  function FirstIndexOf(ledger: Ledger, id: int): (r: Option<nat>)
    ensures r.None? <==> forall k :: 0 <= k < |ledger| ==> ledger[k].id != id
    ensures r.Some? ==> r.value < |ledger| && ledger[r.value].id == id
    ensures r.Some? ==> forall k :: 0 <= k < r.value ==> ledger[k].id != id
  {
    if ledger == [] then None
    else if ledger[0].id == id then Some(0)
    else match FirstIndexOf(ledger[1..], id)
      case None => None
      case Some(k) => Some(k + 1)
  }
}
