/**
 * Placing a bet: the request is validated field by field, then checked
 * against the issue, the balance and the bets already placed, and an
 * accepted bet takes the stake from the balance, records a `bet` ledger row
 * and stores a pending bet, all in one database transaction.
 */
module Bets {
  import opened Wrappers
  import opened Config
  import opened PhpText
  import opened Helpers
  import opened Ledger
  import opened Store

  /**
   * A decoded bet request: type and value as `sanitizeInput` leaves them,
   * the amount after `floatval` and the issue id after `intval` (absent
   * fields arrive as "" and 0).
   */
  datatype BetRequest = BetRequest(kind: string, value: string, amount: real, issueId: int)

  /** The reasons `placeBet` refuses a request, in the order it checks them. */
  datatype BetError =
    | InvalidJson
    | MissingFields
    | InvalidType
    | InvalidNumber
    | InvalidColour
    | InvalidSize
    | BelowMinimum
    | AboveMaximum
    | InvalidIssue
    | BettingClosed
    | InsufficientBalance
    | DuplicateBet
    | StorageFailure

  /** What a successful call reports: the new bet's id and the balance left. */
  datatype Placed = Placed(betId: int, newBalance: real)

  /** A storage statement of the transaction that raises an exception (or none does). */
  datatype BetFault = NoFault | BalanceUpdateFails | LedgerInsertFails | BetInsertFails

  /** `preg_match('/^[0-9]$/', v)`: one digit, `$` also matching before a final newline. */
  predicate MatchesDigit(v: string): (ok: bool)
    ensures ok <==> |v| >= 1 && IsDigit(v[0]) && (v[1..] == "" || v[1..] == "\n")
  {
    (|v| == 1 && IsDigit(v[0])) || (|v| == 2 && IsDigit(v[0]) && v[1] == '\n')
  }

  /** The value rule of each bet type; colour and size compare case-insensitively. */
  predicate ValueAllowed(kind: string, value: string): (ok: bool)
    ensures ok ==> ValidKind(kind) && value != ""
    ensures ok && kind != "number" ==> 3 <= |value| <= 6
    ensures kind == "color" ==> (ok <==> Lower(value) == "red" || Lower(value) == "green" || Lower(value) == "violet")
  {
    (kind == "number" && MatchesDigit(value)) ||
    (kind == "color" && Lower(value) in ["red", "green", "violet"]) ||
    (kind == "size" && Lower(value) in ["big", "small"])
  }

  /**
   * The checks that need no database, in the source's order; an accepted
   * request gets the odds of its type.
   */
  function CheckRequest(req: BetRequest): (r: Result<real, BetError>)
    ensures r.Ok? <==>
      !IsEmpty(req.kind) && !IsEmpty(req.value) && req.issueId > 0 &&
      ValidKind(req.kind) && ValueAllowed(req.kind, req.value) &&
      MinBetAmount <= req.amount <= MaxBetAmount
    ensures r.Ok? ==> r.value == OddsFor(req.kind)
  {
    if IsEmpty(req.kind) || IsEmpty(req.value) || req.amount <= 0.0 || req.issueId <= 0 then Err(MissingFields)
    else if !(req.kind in ["number", "color", "size"]) then Err(InvalidType)
    else if req.kind == "number" && !MatchesDigit(req.value) then Err(InvalidNumber)
    else if req.kind == "color" && !(Lower(req.value) in ["red", "green", "violet"]) then Err(InvalidColour)
    else if req.kind == "size" && !(Lower(req.value) in ["big", "small"]) then Err(InvalidSize)
    else if req.amount < MinBetAmount then Err(BelowMinimum)
    else if req.amount > MaxBetAmount then Err(AboveMaximum)
    else Ok(OddsFor(req.kind))
  }

  /** `SELECT id FROM bets WHERE user_id = ? AND issue_id = ? AND bet_type = ? AND bet_value = ?` finds a row. */
  function HasBet(bets: seq<Bet>, key: (UserId, IssueId, string, string)): (found: bool)
    ensures found <==> exists k :: 0 <= k < |bets| && BetKey(bets[k]) == key
  {
    if bets == [] then false
    else BetKey(bets[|bets| - 1]) == key || HasBet(bets[..|bets| - 1], key)
  }

  /** The reason `placeBet` refuses the request of `user` in the given state, if it does. */
  function Refusal(users: map<UserId, Account>, issues: seq<Issue>, bets: seq<Bet>,
                   user: UserId, input: Option<BetRequest>): (e: Option<BetError>)
    ensures e == Some(InvalidJson) <==> input.None?
    ensures e != Some(StorageFailure)
    ensures e.None? ==> user in users && input.value.amount <= users[user].balance && 0 < input.value.issueId <= |issues|
  {
    if input.None? then Some(InvalidJson)
    else
      var req := input.value;
      match CheckRequest(req)
      case Err(e) => Some(e)
      case Ok(_) =>
        if req.issueId > |issues| then Some(InvalidIssue)
        else if issues[req.issueId - 1].status == Locked || issues[req.issueId - 1].status == Completed then Some(BettingClosed)
        else if user !in users || users[user].balance < req.amount then Some(InsufficientBalance)
        else if HasBet(bets, (user, req.issueId, req.kind, req.value)) then Some(DuplicateBet)
        else None
  }

  /** The ledger description of a stake. */
  function StakeDescription(issueNumber: string, req: BetRequest): string
  {
    "Bet on issue " + issueNumber + " - " + req.kind + ":" + req.value
  }

  /**
   * A request goes through exactly when it is well formed, names an issue
   * still pending or active, the user can cover the stake, and the user has
   * no bet of the same type and value on that issue yet.
   */
  lemma AcceptedExactlyWhen(users: map<UserId, Account>, issues: seq<Issue>, bets: seq<Bet>,
                            user: UserId, req: BetRequest)
    ensures Refusal(users, issues, bets, user, Some(req)).None? <==>
      CheckRequest(req).Ok? && req.issueId <= |issues| &&
      (issues[req.issueId - 1].status == Status.Pending || issues[req.issueId - 1].status == Active) &&
      user in users && users[user].balance >= req.amount &&
      forall k :: 0 <= k < |bets| ==> BetKey(bets[k]) != (user, req.issueId, req.kind, req.value)
  {
  }

  /** An accepted stake lies within the configured limits and is paid at its type's odds. */
  lemma AcceptedStakeInRange(req: BetRequest)
    requires CheckRequest(req).Ok?
    ensures MinBetAmount <= req.amount <= MaxBetAmount && CheckRequest(req).value == OddsFor(req.kind)
    ensures req.kind == "number" ==> OddsFor(req.kind) == NumberOdds
    ensures req.kind != "number" ==> OddsFor(req.kind) == 2.0
  {
  }

  /**
   * `empty("0")` is true in PHP, so a number bet on exactly "0" is refused
   * as a missing field.
   */
  lemma ZeroNumberBetRefused(amount: real, issueId: int)
    ensures CheckRequest(BetRequest("number", "0", amount, issueId)) == Err(MissingFields)
  {
  }

  /**
   * An accepted number bet is on a digit from 1 to 9, or is "0" followed by
   * a newline: `empty` does not see that value as empty and PCRE's `$`
   * matches before the final newline. Such a value survives `sanitizeInput`
   * when a tag after the newline is stripped (`"0\n<b>"`).
   */
  lemma AcceptedNumberValues(req: BetRequest)
    requires CheckRequest(req).Ok? && req.kind == "number"
    ensures '1' <= req.value[0] <= '9' || req.value == "0\n"
  {
    if req.value[0] == '0' {
      assert |req.value| == 2;
    }
  }

  /**
   * Colour and size values are validated case-insensitively but stored as
   * sent: a bet on "Red" is accepted and, since settlement compares exactly,
   * never wins.
   */
  lemma CapitalisedColourAcceptedButLoses(amount: real, issueId: int, d: nat)
    requires MinBetAmount <= amount <= MaxBetAmount && issueId > 0 && d <= 9
    ensures CheckRequest(BetRequest("color", "Red", amount, issueId)) == Ok(ColorOdds)
    ensures ResultOnDraw("Red", "color", d) == Lost
  {
    assert Lower("Red") == "red";
    CapitalisedBetNeverWins("Red", "color", d);
  }

  /**
   * The balance check comes before the duplicate check: a repeated bet the
   * user cannot cover is reported as insufficient balance, and a repeated bet
   * the user can cover as a duplicate.
   */
  lemma BalanceCheckedBeforeDuplicate(users: map<UserId, Account>, issues: seq<Issue>, bets: seq<Bet>,
                                      user: UserId, req: BetRequest, k: nat)
    requires CheckRequest(req).Ok? && req.issueId <= |issues|
    requires issues[req.issueId - 1].status == Status.Pending || issues[req.issueId - 1].status == Active
    requires k < |bets| && BetKey(bets[k]) == (user, req.issueId, req.kind, req.value)
    ensures user in users && users[user].balance >= req.amount ==>
      Refusal(users, issues, bets, user, Some(req)) == Some(DuplicateBet)
    ensures (user !in users || users[user].balance < req.amount) ==>
      Refusal(users, issues, bets, user, Some(req)) == Some(InsufficientBalance)
  {
  }

  /** A user's second bet of the same type and value on the same issue is always refused. */
  lemma NoSecondIdenticalBet(users: map<UserId, Account>, issues: seq<Issue>, bets: seq<Bet>,
                             user: UserId, req: BetRequest, k: nat)
    requires k < |bets| && BetKey(bets[k]) == (user, req.issueId, req.kind, req.value)
    ensures Refusal(users, issues, bets, user, Some(req)).Some?
  {
  }

  /** Storing an accepted bet keeps every bet well formed and no two with the same key. */
  lemma StoredBetKeepsTables(issues: seq<Issue>, bets: seq<Bet>, b: Bet)
    requires BetsWellFormed(bets, issues) && UniqueBets(bets)
    requires BetWellFormed(b, issues) && !HasBet(bets, BetKey(b))
    ensures BetsWellFormed(bets + [b], issues) && UniqueBets(bets + [b])
  {
    var bets' := bets + [b];
    forall k | 0 <= k < |bets'|
      ensures BetWellFormed(bets'[k], issues)
    {
      if k < |bets| {
        assert bets'[k] == bets[k];
      }
    }
    forall k, l | 0 <= k < l < |bets'|
      ensures BetKey(bets'[k]) != BetKey(bets'[l])
    {
      assert bets'[k] == bets[k];
      if l < |bets| {
        assert bets'[l] == bets[l];
      }
    }
  }

  /** The three writes of an accepted bet together keep the tables consistent. */
  lemma StakeKeepsTables(users: map<UserId, Account>, ledger: seq<Entry>, opening: map<UserId, real>,
                         issues: seq<Issue>, results: seq<ResultRow>, bets: seq<Bet>, claims: seq<Claim>,
                         e: Entry, a: Account, b: Bet)
    requires TablesConsistent(users, ledger, opening, issues, results, bets, claims)
    requires e.user in users && e.before == users[e.user].balance
    requires Ledger.Consistent(e) && a.balance == e.after && e.after >= 0.0
    requires BetWellFormed(b, issues) && !HasBet(bets, BetKey(b))
    ensures TablesConsistent(users[e.user := a], ledger + [e], opening, issues, results, bets + [b], claims)
  {
    PostKeepsInvariant(users, ledger, opening, e, a);
    StoredBetKeepsTables(issues, bets, b);
  }

  /** The commit of an accepted bet: the stake leaves the balance, a ledger row records it, and the bet is stored. */
  method CommitStake(db: Db, e: Entry, a: Account, b: Bet)
    requires db.Valid()
    requires e.user in db.users && e.before == db.users[e.user].balance
    requires Ledger.Consistent(e) && a.balance == e.after && e.after >= 0.0
    requires BetWellFormed(b, db.issues) && !HasBet(db.bets, BetKey(b))
    modifies db`users, db`ledger, db`bets
    ensures db.Valid()
    ensures db.users == old(db.users)[e.user := a] && db.ledger == old(db.ledger) + [e] && db.bets == old(db.bets) + [b]
  {
    StakeKeepsTables(db.users, db.ledger, db.opening, db.issues, db.results, db.bets, db.claims, e, a, b);
    db.users := db.users[e.user := a];
    db.AddTransaction(e.user, e.kind, e.amount, e.before, e.after, e.description);
    db.bets := db.bets + [b];
  }

  /** The row the INSERT into `bets` stores: pending, at the type's odds, with potential_win = amount x odds. */
  function StakedBet(user: UserId, req: BetRequest): (b: Bet)
    requires ValidKind(req.kind)
    ensures b.status == BetStatus.Pending && b.odds == OddsFor(req.kind) && b.potentialWin == Payout(b)
  {
    var odds := OddsFor(req.kind);
    Bet(user, req.issueId, req.kind, req.value, req.amount, odds, req.amount * odds, BetStatus.Pending)
  }

  /**
   * A stake transaction in which `fault` throws: the balance update and the
   * ledger row that precede the failing statement are written, then the
   * rollback restores the snapshot taken at `beginTransaction`.
   */
  method AbortStake(db: Db, e: Entry, a: Account, fault: BetFault)
    requires db.Valid() && fault != NoFault
    modifies db`users, db`ledger
    ensures db.users == old(db.users) && db.ledger == old(db.ledger)
    ensures db.Valid()
  {
    var users0, ledger0 := db.users, db.ledger;
    if fault == BalanceUpdateFails {
      return;
    }
    db.users := db.users[e.user := a];
    if fault == BetInsertFails {
      db.AddTransaction(e.user, e.kind, e.amount, e.before, e.after, e.description);
    }
    db.users, db.ledger := users0, ledger0;
  }

  /**
   * The transaction of an accepted bet: it commits exactly when no statement
   * fails, and otherwise is rolled back and changes nothing.
   */
  method StakeTransaction(db: Db, e: Entry, a: Account, b: Bet, fault: BetFault) returns (committed: bool)
    requires db.Valid()
    requires e.user in db.users && e.before == db.users[e.user].balance
    requires Ledger.Consistent(e) && a.balance == e.after && e.after >= 0.0
    requires BetWellFormed(b, db.issues) && !HasBet(db.bets, BetKey(b))
    modifies db`users, db`ledger, db`bets
    ensures db.Valid()
    ensures committed <==> fault == NoFault
    ensures committed ==>
      db.users == old(db.users)[e.user := a] && db.ledger == old(db.ledger) + [e] && db.bets == old(db.bets) + [b]
    ensures !committed ==> db.users == old(db.users) && db.ledger == old(db.ledger) && db.bets == old(db.bets)
  {
    if fault != NoFault {
      AbortStake(db, e, a, fault);
      return false;
    }
    CommitStake(db, e, a, b);
    committed := true;
  }

  /**
   * `placeBet` for the authenticated `user`. A refused request changes
   * nothing and reports the first failing check. Otherwise the stake leaves
   * the balance and enters total_bets, a `bet` row records the balance before
   * and after, and a pending bet at the type's odds is stored; if any of the
   * three writes fails, the transaction is rolled back and nothing changes.
   */
  method PlaceBet(db: Db, user: UserId, input: Option<BetRequest>, fault: BetFault) returns (r: Result<Placed, BetError>)
    requires db.Valid()
    modifies db`users, db`ledger, db`bets
    ensures db.Valid()
    ensures var refusal := Refusal(old(db.users), db.issues, old(db.bets), user, input);
      (refusal.Some? ==> r == Err(refusal.value)) &&
      (refusal.None? && fault != NoFault ==> r == Err(StorageFailure)) &&
      (r.Err? ==> db.users == old(db.users) && db.ledger == old(db.ledger) && db.bets == old(db.bets))
    ensures r.Ok? <==> Refusal(old(db.users), db.issues, old(db.bets), user, input).None? && fault == NoFault
    ensures r.Ok? ==>
      var req := input.value;
      var a := old(db.users)[user];
      r.value == Placed(|db.bets|, a.balance - req.amount) &&
      db.users == old(db.users)[user := a.(balance := a.balance - req.amount, totalBets := a.totalBets + req.amount)] &&
      db.ledger == old(db.ledger) + [Entry(user, BetTx, req.amount, a.balance, a.balance - req.amount,
                                           StakeDescription(db.issues[req.issueId - 1].issueNumber, req))] &&
      db.bets == old(db.bets) + [StakedBet(user, req)]
  {
    // The guard clauses: each ends the request with its error and writes nothing.
    var refusal := Refusal(db.users, db.issues, db.bets, user, input);
    if refusal.Some? {
      return Err(refusal.value);
    }
    var req := input.value;
    var issue := db.issues[req.issueId - 1];

    // The transaction: the snapshot is what a rollback restores. A statement
    // that throws leaves the writes before it in place until the rollback,
    // so only a transaction that reaches the commit changes the tables.
    var account := db.users[user];
    var newBalance := account.balance - req.amount;
    var e := Entry(user, BetTx, req.amount, account.balance, newBalance, StakeDescription(issue.issueNumber, req));
    var bet := StakedBet(user, req);
    var debited := account.(balance := newBalance, totalBets := account.totalBets + req.amount);
    var committed := StakeTransaction(db, e, debited, bet, fault);
    if !committed {
      return Err(StorageFailure);
    }
    r := Ok(Placed(|db.bets|, newBalance));
  }
}
