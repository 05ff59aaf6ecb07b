/**
 * The wallet ledger: accounts with their running balance and lifetime
 * totals, and the append-only `wallet_transactions` trail, every entry of
 * which records the balance before and after the change it stands for.
 */
module Ledger {
  import opened Wrappers

  type UserId = int

  /** The `type` column of a wallet transaction. `BetTx` is the stake taken when a bet is placed. */
  datatype TxKind = DepositTx | WithdrawalTx | BetTx | WinTx | BonusTx

  /** Withdrawals and stakes take money out; deposits, wins and bonuses put it in. */
  predicate IsDebit(k: TxKind) { k == WithdrawalTx || k == BetTx }

  /** A row of `users`, restricted to the money columns. */
  datatype Account = Account(balance: real, totalBets: real, totalWins: real)

  /** A row of `wallet_transactions`; the amount is always recorded as a positive magnitude. */
  datatype Entry = Entry(user: UserId, kind: TxKind, amount: real, before: real, after: real, description: string)

  /**
   * An entry records a positive amount and agrees with its own kind: credits
   * add the amount, debits subtract it.
   */
  predicate Consistent(e: Entry)
  {
    e.amount > 0.0 &&
    if IsDebit(e.kind) then e.after == e.before - e.amount else e.after == e.before + e.amount
  }

  /**
   * Walks user u's entries in ledger order from the opening balance: each
   * entry must start from the balance the previous one ended at. Gives the
   * final balance, or None when the chain is broken.
   */
  function Replay(ledger: seq<Entry>, u: UserId, start: real): Option<real>
  {
    if ledger == [] then Some(start)
    else Step(Replay(ledger[..|ledger| - 1], u, start), ledger[|ledger| - 1], u)
  }

  /** One step of the walk: entries of other users pass through, u's entries must link up. */
  function Step(b: Option<real>, e: Entry, u: UserId): Option<real>
  {
    match b
    case None => None
    case Some(x) => if e.user != u then Some(x) else if e.before == x then Some(e.after) else None
  }

  /** Sum of the amounts of u's credit entries. */
  function Credits(ledger: seq<Entry>, u: UserId): real
  {
    if ledger == [] then 0.0
    else
      var e := ledger[|ledger| - 1];
      Credits(ledger[..|ledger| - 1], u) + (if e.user == u && !IsDebit(e.kind) then e.amount else 0.0)
  }

  /** Sum of the amounts of u's debit entries. */
  function Debits(ledger: seq<Entry>, u: UserId): real
  {
    if ledger == [] then 0.0
    else
      var e := ledger[|ledger| - 1];
      Debits(ledger[..|ledger| - 1], u) + (if e.user == u && IsDebit(e.kind) then e.amount else 0.0)
  }

  /**
   * The ledger invariant: no balance is negative, every entry is consistent,
   * and each account's entries chain from its opening balance to its current
   * balance.
   */
  predicate Invariant(users: map<UserId, Account>, ledger: seq<Entry>, opening: map<UserId, real>)
  {
    users.Keys <= opening.Keys &&
    (forall u :: u in users ==> users[u].balance >= 0.0) &&
    (forall u :: u in users ==> Replay(ledger, u, opening[u]) == Some(users[u].balance)) &&
    (forall k :: 0 <= k < |ledger| ==> Consistent(ledger[k]))
  }

  /** Appending one entry extends the replay by one step. */
  lemma ReplayAppend(ledger: seq<Entry>, e: Entry, u: UserId, start: real)
    ensures Replay(ledger + [e], u, start) == Step(Replay(ledger, u, start), e, u)
  {
    assert (ledger + [e])[..|ledger|] == ledger;
  }

  /**
   * The ledger-paired update: writing an account's new balance together with
   * an entry that starts from the old balance, is consistent, and ends at the
   * new non-negative balance keeps the invariant. Totals may change freely.
   */
  lemma PostKeepsInvariant(users: map<UserId, Account>, ledger: seq<Entry>, opening: map<UserId, real>,
                           e: Entry, a: Account)
    requires Invariant(users, ledger, opening)
    requires e.user in users && e.before == users[e.user].balance
    requires Consistent(e) && a.balance == e.after && e.after >= 0.0
    ensures Invariant(users[e.user := a], ledger + [e], opening)
  {
    var users' := users[e.user := a];
    var ledger' := ledger + [e];
    forall u | u in users'
      ensures Replay(ledger', u, opening[u]) == Some(users'[u].balance)
    {
      ReplayAppend(ledger, e, u, opening[u]);
      if u != e.user {
        assert users'[u] == users[u];
      }
    }
    forall k | 0 <= k < |ledger'|
      ensures Consistent(ledger'[k])
    {
      if k < |ledger| {
        assert ledger'[k] == ledger[k];
      }
    }
  }

  /** A balance reached by a consistent chain is the opening balance plus credits minus debits. */
  lemma {:induction false} ReplayIsOpeningPlusNet(ledger: seq<Entry>, u: UserId, start: real, b: real)
    requires forall k :: 0 <= k < |ledger| ==> Consistent(ledger[k])
    requires Replay(ledger, u, start) == Some(b)
    ensures b == start + Credits(ledger, u) - Debits(ledger, u)
  {
    if ledger != [] {
      var init := ledger[..|ledger| - 1];
      var e := ledger[|ledger| - 1];
      assert e == ledger[|ledger| - 1];
      match Replay(init, u, start)
      case Some(b0) =>
        ReplayIsOpeningPlusNet(init, u, start, b0);
    }
  }

  /**
   * Under the invariant every balance can be reconstructed from the trail
   * alone: opening balance plus all credits minus all debits.
   */
  lemma BalanceFromLedger(users: map<UserId, Account>, ledger: seq<Entry>, opening: map<UserId, real>, u: UserId)
    requires Invariant(users, ledger, opening) && u in users
    ensures users[u].balance == opening[u] + Credits(ledger, u) - Debits(ledger, u)
  {
    ReplayIsOpeningPlusNet(ledger, u, opening[u], users[u].balance);
  }
}
