/**
 * Deposits and withdrawals: each checks the request and the account, then
 * writes the new balance and one ledger row recording the balance before
 * and after.
 */
module Wallet {
  import opened Wrappers
  import opened Ledger
  import opened Store

  /** A decoded deposit or withdrawal request: the amount after `floatval` and the payment method. */
  datatype Transfer = Transfer(amount: real, via: string)

  datatype WalletError = InvalidJson | InvalidAmount | UserNotFound | InsufficientFunds

  function DepositRefusal(users: map<UserId, Account>, user: UserId, input: Option<Transfer>): (e: Option<WalletError>)
    ensures e.None? <==> input.Some? && input.value.amount > 0.0 && user in users
  {
    if input.None? then Some(InvalidJson)
    else if input.value.amount <= 0.0 then Some(InvalidAmount)
    else if user !in users then Some(UserNotFound)
    else None
  }

  function WithdrawRefusal(users: map<UserId, Account>, user: UserId, input: Option<Transfer>): (e: Option<WalletError>)
    ensures e.None? <==> input.Some? && input.value.amount > 0.0 && user in users && input.value.amount <= users[user].balance
    ensures e == Some(InsufficientFunds) <==>
      input.Some? && input.value.amount > 0.0 && user in users && users[user].balance < input.value.amount
  {
    if input.None? then Some(InvalidJson)
    else if input.value.amount <= 0.0 then Some(InvalidAmount)
    else if user !in users then Some(UserNotFound)
    else if users[user].balance < input.value.amount then Some(InsufficientFunds)
    else None
  }

  /**
   * `depositFunds`: a positive amount for an existing user raises the balance
   * by the amount and appends a `deposit` row from the old to the new
   * balance; anything else is refused and changes nothing.
   */
  method DepositFunds(db: Db, user: UserId, input: Option<Transfer>) returns (r: Result<real, WalletError>)
    requires db.Valid()
    modifies db`users, db`ledger
    ensures db.Valid()
    ensures var refusal := DepositRefusal(old(db.users), user, input);
      (refusal.Some? ==> r == Err(refusal.value) && db.users == old(db.users) && db.ledger == old(db.ledger)) &&
      (refusal.None? ==>
         var a := old(db.users)[user];
         var amount := input.value.amount;
         r == Ok(a.balance + amount) &&
         db.users == old(db.users)[user := a.(balance := a.balance + amount)] &&
         db.ledger == old(db.ledger) + [Entry(user, DepositTx, amount, a.balance, a.balance + amount, "Deposit via " + input.value.via)])
  {
    if input.None? {
      return Err(InvalidJson);
    }
    var amount := input.value.amount;
    if amount <= 0.0 {
      return Err(InvalidAmount);
    }
    if user !in db.users {
      return Err(UserNotFound);
    }
    var account := db.users[user];
    var newBalance := account.balance + amount;
    ghost var e := Entry(user, DepositTx, amount, account.balance, newBalance, "Deposit via " + input.value.via);
    PostKeepsInvariant(db.users, db.ledger, db.opening, e, account.(balance := newBalance));
    db.users := db.users[user := account.(balance := newBalance)];
    db.AddTransaction(user, DepositTx, amount, account.balance, newBalance, "Deposit via " + input.value.via);
    r := Ok(newBalance);
  }

  /**
   * `withdrawFunds`: a positive amount the balance covers lowers the balance
   * by the amount, never below zero, and appends a `withdrawal` row from the
   * old to the new balance; an overdraft, like every other refusal, changes
   * nothing.
   */
  method WithdrawFunds(db: Db, user: UserId, input: Option<Transfer>) returns (r: Result<real, WalletError>)
    requires db.Valid()
    modifies db`users, db`ledger
    ensures db.Valid()
    ensures var refusal := WithdrawRefusal(old(db.users), user, input);
      (refusal.Some? ==> r == Err(refusal.value) && db.users == old(db.users) && db.ledger == old(db.ledger)) &&
      (refusal.None? ==>
         var a := old(db.users)[user];
         var amount := input.value.amount;
         r == Ok(a.balance - amount) && a.balance - amount >= 0.0 &&
         db.users == old(db.users)[user := a.(balance := a.balance - amount)] &&
         db.ledger == old(db.ledger) + [Entry(user, WithdrawalTx, amount, a.balance, a.balance - amount, "Withdrawal via " + input.value.via)])
  {
    if input.None? {
      return Err(InvalidJson);
    }
    var amount := input.value.amount;
    if amount <= 0.0 {
      return Err(InvalidAmount);
    }
    if user !in db.users {
      return Err(UserNotFound);
    }
    var account := db.users[user];
    if account.balance < amount {
      return Err(InsufficientFunds);
    }
    var newBalance := account.balance - amount;
    ghost var e := Entry(user, WithdrawalTx, amount, account.balance, newBalance, "Withdrawal via " + input.value.via);
    PostKeepsInvariant(db.users, db.ledger, db.opening, e, account.(balance := newBalance));
    db.users := db.users[user := account.(balance := newBalance)];
    db.AddTransaction(user, WithdrawalTx, amount, account.balance, newBalance, "Withdrawal via " + input.value.via);
    r := Ok(newBalance);
  }
}
