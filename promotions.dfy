/**
 * Claiming a promotion: eligibility checks, the bonus formula with its cap,
 * and, inside one transaction, the claim row and a ledger-paired credit.
 */
module Promotions {
  import opened Wrappers
  import opened Helpers
  import opened Ledger
  import opened Store

  /** The reasons `claimPromotion` refuses a claim, in the order it checks them. */
  datatype ClaimError = InvalidJson | MissingPromotion | NotAvailable | AlreadyClaimed | DepositTooLow | StorageFailure

  /** What a successful claim reports: the bonus and, when one was credited, the new balance. */
  datatype Claimed = Claimed(bonus: real, newBalance: Option<real>)

  /** A storage statement of the transaction that raises an exception (or none does). */
  datatype ClaimFault = NoFault | ClaimInsertFails | BalanceUpdateFails | LedgerInsertFails

  /** Calendar order on days. */
  predicate DateLe(a: Date, b: Date)
  {
    a.year < b.year || (a.year == b.year && (a.month < b.month || (a.month == b.month && a.day <= b.day)))
  }

  /** Active, and today lies within the optional start and end dates. */
  predicate Available(p: Promotion, today: Date): (ok: bool)
    ensures ok ==> p.isActive
    ensures ok && p.startDate.Some? && p.endDate.Some? ==> DateLe(p.startDate.value, p.endDate.value)
  {
    p.isActive &&
    (p.startDate.None? || DateLe(p.startDate.value, today)) &&
    (p.endDate.None? || DateLe(today, p.endDate.value))
  }

  /**
   * SQL `user_id = ?` with `param` bound to the placeholder: a NULL parameter
   * compares as unknown, so the `WHERE` clause drops every row.
   */
  predicate BoundUser(col: UserId, param: Option<UserId>)
  {
    param == Some(col)
  }

  /**
   * The id the promotion handler binds as `$user_id`. Unlike the bet and
   * wallet handlers it never calls `authenticateUser`, so `global $user_id`
   * is NULL.
   */
  const HandlerUserId: Option<UserId> := None

  /**
   * `SELECT COALESCE(SUM(amount), 0) ... WHERE user_id = ? AND type = 'deposit'`:
   * when no row matches the total is 0.
   */
  function TotalDeposits(ledger: seq<Entry>, param: Option<UserId>): (total: real)
    ensures (forall k :: 0 <= k < |ledger| ==> !(BoundUser(ledger[k].user, param) && ledger[k].kind == DepositTx)) ==>
      total == 0.0
  {
    if ledger == [] then 0.0
    else
      var e := ledger[|ledger| - 1];
      TotalDeposits(ledger[..|ledger| - 1], param) + (if BoundUser(e.user, param) && e.kind == DepositTx then e.amount else 0.0)
  }

  /** Every row of a consistent ledger carries a positive amount, so the deposit total is never negative. */
  lemma {:induction false} TotalDepositsNonNegative(ledger: seq<Entry>, param: Option<UserId>)
    requires forall k :: 0 <= k < |ledger| ==> Ledger.Consistent(ledger[k])
    ensures TotalDeposits(ledger, param) >= 0.0
  {
    if ledger != [] {
      assert Ledger.Consistent(ledger[|ledger| - 1]);
      TotalDepositsNonNegative(ledger[..|ledger| - 1], param);
    }
  }

  /** On every valid database the deposit total the bonus formula sees is never negative. */
  lemma DepositsSeenNonNegative(db: Db, p: Promotion, param: Option<UserId>)
    requires db.Valid()
    ensures DepositsSeen(p, db.ledger, param) >= 0.0
  {
    TotalDepositsNonNegative(db.ledger, param);
  }

  /**
   * The deposit total as the bonus formula sees it: it is only looked up
   * when the promotion has a minimum deposit, and is otherwise an undefined
   * variable, which PHP arithmetic treats as 0.
   */
  function DepositsSeen(p: Promotion, ledger: seq<Entry>, param: Option<UserId>): real
  {
    if p.minDeposit > 0.0 then TotalDeposits(ledger, param) else 0.0
  }

  /**
   * The bonus: for a deposit bonus with a positive percentage, the fixed
   * amount when it is non-zero, else that percentage of the deposits, capped
   * at max_bonus when one is set; for every other promotion the fixed amount.
   */
  function Bonus(p: Promotion, deposits: real): (bonus: real)
    ensures bonus == p.bonusAmount || bonus == p.maxBonus || bonus == deposits * p.bonusPercentage / 100.0
    ensures bonus != p.bonusAmount ==> p.kind == "deposit_bonus" && p.bonusPercentage > 0.0
  {
    if p.kind == "deposit_bonus" && p.bonusPercentage > 0.0 then
      var b := if p.bonusAmount != 0.0 then p.bonusAmount else deposits * p.bonusPercentage / 100.0;
      if p.maxBonus > 0.0 && b > p.maxBonus then p.maxBonus else b
    else
      if p.bonusAmount != 0.0 then p.bonusAmount else 0.0
  }

  /** A deposit bonus with a positive percentage never exceeds a positive max_bonus, and otherwise pays its own formula. */
  lemma BonusCapped(p: Promotion, deposits: real)
    requires p.kind == "deposit_bonus" && p.bonusPercentage > 0.0
    ensures p.maxBonus > 0.0 ==> Bonus(p, deposits) <= p.maxBonus
    ensures p.bonusAmount == 0.0 && (p.maxBonus <= 0.0 || deposits * p.bonusPercentage / 100.0 <= p.maxBonus) ==>
      Bonus(p, deposits) == deposits * p.bonusPercentage / 100.0
    ensures p.bonusAmount != 0.0 && (p.maxBonus <= 0.0 || p.bonusAmount <= p.maxBonus) ==>
      Bonus(p, deposits) == p.bonusAmount
  {
  }

  /** Any other promotion pays its fixed amount, whatever the deposits. */
  lemma FlatBonusOtherwise(p: Promotion, deposits: real)
    requires p.kind != "deposit_bonus" || p.bonusPercentage <= 0.0
    ensures Bonus(p, deposits) == p.bonusAmount
  {
  }

  /**
   * The percentage grows with the deposits: more deposits never give a
   * smaller bonus.
   */
  lemma BonusMonotone(p: Promotion, d1: real, d2: real)
    requires d1 <= d2
    ensures Bonus(p, d1) <= Bonus(p, d2)
  {
    if p.kind == "deposit_bonus" && p.bonusPercentage > 0.0 && p.bonusAmount == 0.0 {
      var b1, b2 := d1 * p.bonusPercentage / 100.0, d2 * p.bonusPercentage / 100.0;
      assert d1 * p.bonusPercentage <= d2 * p.bonusPercentage;
      assert b1 <= b2;
      assert Bonus(p, d1) == (if p.maxBonus > 0.0 && b1 > p.maxBonus then p.maxBonus else b1);
      assert Bonus(p, d2) == (if p.maxBonus > 0.0 && b2 > p.maxBonus then p.maxBonus else b2);
    }
  }

  /**
   * Without a minimum deposit the deposit total is never looked up, so a
   * percentage-only deposit bonus pays nothing.
   */
  lemma NoMinimumNoPercentageBonus(p: Promotion, ledger: seq<Entry>, param: Option<UserId>)
    requires p.kind == "deposit_bonus" && p.bonusPercentage > 0.0 && p.bonusAmount == 0.0 && p.minDeposit <= 0.0
    ensures Bonus(p, DepositsSeen(p, ledger, param)) == 0.0
  {
  }

  /**
   * On a valid database a percentage-only deposit bonus is never negative:
   * the claim can only credit an account, never debit it.
   */
  lemma PercentageBonusNonNegative(db: Db, p: Promotion, param: Option<UserId>)
    requires db.Valid()
    requires p.kind == "deposit_bonus" && p.bonusPercentage > 0.0 && p.bonusAmount == 0.0 && p.maxBonus >= 0.0
    ensures Bonus(p, DepositsSeen(p, db.ledger, param)) >= 0.0
  {
    DepositsSeenNonNegative(db, p, param);
    var d := DepositsSeen(p, db.ledger, param);
    assert d * p.bonusPercentage >= 0.0;
  }

  /** `SELECT id FROM user_promotions WHERE user_id = ? AND promotion_id = ?` finds a row. */
  function HasClaim(claims: seq<Claim>, param: Option<UserId>, promotion: PromoId): (found: bool)
    ensures found <==> exists k :: 0 <= k < |claims| && BoundUser(claims[k].user, param) && claims[k].promotion == promotion
  {
    if claims == [] then false
    else
      var c := claims[|claims| - 1];
      (BoundUser(c.user, param) && c.promotion == promotion) || HasClaim(claims[..|claims| - 1], param, promotion)
  }

  /**
   * The reason `claimPromotion` refuses a claim on promotion `input`, if it
   * does, with `caller` bound as the user id of its queries.
   */
  function ClaimRefusal(promotions: map<PromoId, Promotion>, claims: seq<Claim>, ledger: seq<Entry>,
                        caller: Option<UserId>, input: Option<int>, today: Date): (e: Option<ClaimError>)
    ensures e.None? <==>
      input.Some? && input.value > 0 && input.value in promotions && Available(promotions[input.value], today) &&
      (forall k :: 0 <= k < |claims| ==> !(BoundUser(claims[k].user, caller) && claims[k].promotion == input.value)) &&
      (promotions[input.value].minDeposit > 0.0 ==> TotalDeposits(ledger, caller) >= promotions[input.value].minDeposit)
  {
    if input.None? then Some(InvalidJson)
    else
      var id := input.value;
      if id <= 0 then Some(MissingPromotion)
      else if id !in promotions || !Available(promotions[id], today) then Some(NotAvailable)
      else if HasClaim(claims, caller, id) then Some(AlreadyClaimed)
      else if promotions[id].minDeposit > 0.0 && TotalDeposits(ledger, caller) < promotions[id].minDeposit then Some(DepositTooLow)
      else None
  }

  /**
   * A second claim of the same promotion by the same authenticated user is
   * always refused; with no user id bound the duplicate check never fires.
   */
  lemma NoSecondClaim(promotions: map<PromoId, Promotion>, claims: seq<Claim>, ledger: seq<Entry>,
                      caller: Option<UserId>, id: int, today: Date, k: nat)
    requires k < |claims| && claims[k].promotion == id
    ensures caller == Some(claims[k].user) ==> ClaimRefusal(promotions, claims, ledger, caller, Some(id), today).Some?
    ensures caller.None? ==> ClaimRefusal(promotions, claims, ledger, caller, Some(id), today) != Some(AlreadyClaimed)
  {
  }

  /** Promotion ids are positive: a non-positive id is refused before any lookup. */
  lemma NonPositiveIdRefused(promotions: map<PromoId, Promotion>, claims: seq<Claim>, ledger: seq<Entry>,
                             caller: Option<UserId>, id: int, today: Date)
    requires id <= 0
    ensures ClaimRefusal(promotions, claims, ledger, caller, Some(id), today) == Some(MissingPromotion)
  {
  }

  predicate CreditsBonus(bonus: real, users: map<UserId, Account>, user: UserId)
  {
    bonus > 0.0 && user in users
  }

  /** The statement that fails is one the claim runs: the insert always, the two credit writes only when crediting. */
  predicate FaultHits(fault: ClaimFault, credits: bool)
  {
    fault == ClaimInsertFails || (credits && (fault == BalanceUpdateFails || fault == LedgerInsertFails))
  }

  /** Recording a claim nobody made before keeps the tables consistent. */
  lemma NewClaimKeepsTables(users: map<UserId, Account>, ledger: seq<Entry>, opening: map<UserId, real>,
                            issues: seq<Issue>, results: seq<ResultRow>, bets: seq<Bet>, claims: seq<Claim>, c: Claim)
    requires TablesConsistent(users, ledger, opening, issues, results, bets, claims)
    requires !HasClaim(claims, Some(c.user), c.promotion)
    ensures TablesConsistent(users, ledger, opening, issues, results, bets, claims + [c])
  {
    var claims' := claims + [c];
    forall k, l | 0 <= k < l < |claims'|
      ensures claims'[k] != claims'[l]
    {
      assert claims'[k] == claims[k];
      if l < |claims| {
        assert claims'[l] == claims[l];
      }
    }
  }

  /** The `user_promotions` insert of a claim nobody made before. */
  method RecordClaim(db: Db, c: Claim)
    requires db.Valid() && !HasClaim(db.claims, Some(c.user), c.promotion)
    modifies db`claims
    ensures db.Valid()
    ensures db.claims == old(db.claims) + [c]
  {
    NewClaimKeepsTables(db.users, db.ledger, db.opening, db.issues, db.results, db.bets, db.claims, c);
    db.claims := db.claims + [c];
  }

  /** The credit of a bonus: the balance rises and a ledger row records it. */
  method CreditBonus(db: Db, e: Entry, a: Account)
    requires db.Valid()
    requires e.user in db.users && e.before == db.users[e.user].balance
    requires Ledger.Consistent(e) && a.balance == e.after && e.after >= 0.0
    modifies db`users, db`ledger
    ensures db.Valid()
    ensures db.users == old(db.users)[e.user := a] && db.ledger == old(db.ledger) + [e]
  {
    PostKeepsInvariant(db.users, db.ledger, db.opening, e, a);
    db.users := db.users[e.user := a];
    db.AddTransaction(e.user, e.kind, e.amount, e.before, e.after, e.description);
  }

  /**
   * `claimPromotion` for an authenticated `user` on day `today`, that is
   * with `$user_id` bound as the bet and wallet handlers bind it (the
   * handler as written binds NULL: see `ClaimAsWritten`). A refused
   * claim changes nothing. Otherwise the claim is recorded, and when the bonus
   * is positive and the account exists the balance rises by the bonus and a
   * `bonus` row records the balance before and after; a zero bonus is still
   * a successful claim. If a write fails the transaction is rolled back.
   */
  method ClaimPromotion(db: Db, user: UserId, input: Option<int>, today: Date, fault: ClaimFault)
    returns (r: Result<Claimed, ClaimError>)
    requires db.Valid()
    modifies db`claims, db`users, db`ledger
    ensures db.Valid()
    ensures var refusal := ClaimRefusal(db.promotions, old(db.claims), old(db.ledger), Some(user), input, today);
      (refusal.Some? ==> r == Err(refusal.value)) &&
      (r.Err? ==> db.claims == old(db.claims) && db.users == old(db.users) && db.ledger == old(db.ledger))
    ensures ClaimRefusal(db.promotions, old(db.claims), old(db.ledger), Some(user), input, today).None? ==>
      var p := db.promotions[input.value];
      var bonus := Bonus(p, DepositsSeen(p, old(db.ledger), Some(user)));
      var credits := CreditsBonus(bonus, old(db.users), user);
      (FaultHits(fault, credits) ==> r == Err(StorageFailure)) &&
      (!FaultHits(fault, credits) ==>
         db.claims == old(db.claims) + [Claim(user, input.value)] &&
         (credits ==>
            var a := old(db.users)[user];
            r == Ok(Claimed(bonus, Some(a.balance + bonus))) &&
            db.users == old(db.users)[user := a.(balance := a.balance + bonus)] &&
            db.ledger == old(db.ledger) + [Entry(user, BonusTx, bonus, a.balance, a.balance + bonus, "Bonus from promotion: " + p.title)]) &&
         (!credits ==> r == Ok(Claimed(bonus, None)) && db.users == old(db.users) && db.ledger == old(db.ledger)))
  {
    // The guard clauses: each ends the request with its error and writes nothing.
    var refusal := ClaimRefusal(db.promotions, db.claims, db.ledger, Some(user), input, today);
    if refusal.Some? {
      return Err(refusal.value);
    }
    var id := input.value;
    var promotion := db.promotions[id];
    var totalDeposits := DepositsSeen(promotion, db.ledger, Some(user));

    // The transaction: the snapshot is what a rollback restores.
    var claims0, users0 := db.claims, db.users;
    if fault == ClaimInsertFails {
      return Err(StorageFailure);
    }
    RecordClaim(db, Claim(user, id));

    var bonus := Bonus(promotion, totalDeposits);
    var newBalance: Option<real> := None;
    if bonus > 0.0 && user in db.users {
      var account := db.users[user];
      var balance := account.balance + bonus;
      if fault == BalanceUpdateFails {
        db.claims := claims0;
        return Err(StorageFailure);
      }
      if fault == LedgerInsertFails {
        db.users := db.users[user := account.(balance := balance)];
        db.claims, db.users := claims0, users0;
        return Err(StorageFailure);
      }
      CreditBonus(db, Entry(user, BonusTx, bonus, account.balance, balance, "Bonus from promotion: " + promotion.title),
                  account.(balance := balance));
      newBalance := Some(balance);
    }
    r := Ok(Claimed(bonus, newBalance));
  }

  /**
   * `SELECT balance FROM users WHERE id = ?` with `param` bound: the account
   * and its id, or nothing when no row matches.
   */
  function AccountRow(users: map<UserId, Account>, param: Option<UserId>): (row: Option<(UserId, Account)>)
    ensures row.Some? <==> param.Some? && param.value in users
    ensures row.Some? ==> row.value == (param.value, users[param.value])
  {
    if param.Some? && param.value in users then Some((param.value, users[param.value])) else None
  }

  /**
   * What `claimPromotion` as written leaves behind: its response, whether
   * the claim insert stored a row (its user id is then NULL), and the users
   * and ledger after the commit.
   */
  datatype ClaimWritten = ClaimWritten(r: Result<Claimed, ClaimError>, claimStored: bool,
                                       users: map<UserId, Account>, ledger: seq<Entry>)

  /**
   * `claimPromotion` as written, every query binding `HandlerUserId`. Whether
   * the `user_promotions` insert of a NULL user id is refused depends on a
   * column constraint outside this model, so it is the parameter
   * `insertRefused`; a refused insert throws and is rolled back.
   */
  function ClaimAsWritten(promotions: map<PromoId, Promotion>, claims: seq<Claim>, users: map<UserId, Account>,
                          ledger: seq<Entry>, input: Option<int>, today: Date, insertRefused: bool): (w: ClaimWritten)
    ensures w.r.Ok? <==> ClaimRefusal(promotions, claims, ledger, HandlerUserId, input, today).None? && !insertRefused
    ensures w.r.Err? ==> !w.claimStored && w.users == users && w.ledger == ledger
  {
    var refusal := ClaimRefusal(promotions, claims, ledger, HandlerUserId, input, today);
    if refusal.Some? then ClaimWritten(Err(refusal.value), false, users, ledger)
    else if insertRefused then ClaimWritten(Err(StorageFailure), false, users, ledger)
    else
      var p := promotions[input.value];
      var bonus := Bonus(p, DepositsSeen(p, ledger, HandlerUserId));
      match AccountRow(users, HandlerUserId)
      case Some((u, a)) =>
        if bonus > 0.0 then
          ClaimWritten(Ok(Claimed(bonus, Some(a.balance + bonus))), true, users[u := a.(balance := a.balance + bonus)],
                       ledger + [Entry(u, BonusTx, bonus, a.balance, a.balance + bonus, "Bonus from promotion: " + p.title)])
        else ClaimWritten(Ok(Claimed(bonus, None)), true, users, ledger)
      case None => ClaimWritten(Ok(Claimed(bonus, None)), true, users, ledger)
  }

  /**
   * As written no claim credits anything: the duplicate check never finds a
   * claim however many are stored, the deposit total is 0 so any positive
   * minimum deposit refuses the claim, and the balance lookup finds no
   * account, so no balance and no ledger row changes and no new balance is
   * reported.
   */
  lemma UnauthenticatedClaimCreditsNothing(promotions: map<PromoId, Promotion>, claims: seq<Claim>,
                                           users: map<UserId, Account>, ledger: seq<Entry>,
                                           input: Option<int>, today: Date, insertRefused: bool)
    ensures var w := ClaimAsWritten(promotions, claims, users, ledger, input, today, insertRefused);
      w.users == users && w.ledger == ledger && w.r != Err(AlreadyClaimed) &&
      (w.r.Ok? ==> w.r.value.newBalance.None? && w.claimStored)
    ensures TotalDeposits(ledger, HandlerUserId) == 0.0
    ensures (input.Some? && input.value > 0 && input.value in promotions && Available(promotions[input.value], today) &&
             promotions[input.value].minDeposit > 0.0) ==>
      ClaimAsWritten(promotions, claims, users, ledger, input, today, insertRefused).r == Err(DepositTooLow)
  {
  }
}
