/**
 * The database the handlers share: users, the wallet ledger, game issues,
 * game results, bets, promotions and promotion claims. Rows that get an
 * auto-increment id are kept in a sequence, and row k has id k + 1.
 */
module Store {
  import opened Wrappers
  import opened Config
  import opened Helpers
  import opened Ledger

  type IssueId = int
  type PromoId = int

  /** The `status` column of a game issue. */
  datatype Status = Pending | Active | Locked | Completed

  /** The drawn digit with the colour and size stored beside it. */
  datatype Outcome = Outcome(number: nat, colour: string, size: string)

  /** A row of `game_issues`; times are whole seconds. */
  datatype Issue = Issue(issueNumber: string, start: int, end: int, status: Status, outcome: Option<Outcome>)

  /** A row of `game_results`. */
  datatype ResultRow = ResultRow(issue: IssueId, outcome: Outcome)

  /** A row of `bets`. */
  datatype Bet = Bet(user: UserId, issue: IssueId, kind: string, value: string,
                     amount: real, odds: real, potentialWin: real, status: BetStatus)

  /** A row of `promotions`. */
  datatype Promotion = Promotion(title: string, kind: string, isActive: bool,
                                 startDate: Option<Date>, endDate: Option<Date>,
                                 bonusAmount: real, bonusPercentage: real,
                                 minDeposit: real, maxBonus: real)

  /** A row of `user_promotions`. */
  datatype Claim = Claim(user: UserId, promotion: PromoId)

  /** The outcome `completeGame` stores for drawn digit d. */
  function OutcomeOf(d: nat): (o: Outcome)
    requires d <= 9
    ensures o.number == d && o.colour == WinningColor(d) && o.size == WinningSize(d)
  {
    Outcome(d, WinningColor(d), WinningSize(d))
  }

  /** `status IN ('pending', 'active', 'locked')`: the issue is still open. */
  predicate IsOpen(g: Issue) { g.status != Completed }

  /** A completed issue, and only a completed one, carries an outcome derived from a digit. */
  predicate IssueWellFormed(g: Issue)
  {
    (g.status == Completed <==> g.outcome.Some?) &&
    (g.outcome.Some? ==> g.outcome.value.number <= 9 && g.outcome.value == OutcomeOf(g.outcome.value.number))
  }

  predicate IssuesWellFormed(issues: seq<Issue>)
  {
    forall i :: 0 <= i < |issues| ==> IssueWellFormed(issues[i])
  }

  /** The index of the last open issue, or -1 when none is open. */
  function LastOpen(issues: seq<Issue>): (r: int)
    ensures -1 <= r < |issues|
    ensures r >= 0 ==> IsOpen(issues[r])
  {
    if issues == [] then -1
    else if IsOpen(issues[|issues| - 1]) then |issues| - 1
    else LastOpen(issues[..|issues| - 1])
  }

  /** Two issue tables that agree on which issues are open have the same last open issue. */
  lemma {:induction false} LastOpenSameOpenness(a: seq<Issue>, b: seq<Issue>)
    requires |a| == |b| && forall k :: 0 <= k < |a| ==> IsOpen(a[k]) == IsOpen(b[k])
    ensures LastOpen(a) == LastOpen(b)
  {
    if a != [] {
      LastOpenSameOpenness(a[..|a| - 1], b[..|b| - 1]);
    }
  }

  /** At most one issue is open at a time: every open issue is the last open one. */
  predicate AtMostOneOpen(issues: seq<Issue>)
  {
    forall i :: 0 <= i < |issues| && IsOpen(issues[i]) ==> i == LastOpen(issues)
  }

  /** The outcome the last `game_results` row for the issue records, if there is one. */
  function ResultFor(results: seq<ResultRow>, id: IssueId): Option<Outcome>
  {
    if results == [] then None
    else if results[|results| - 1].issue == id then Some(results[|results| - 1].outcome)
    else ResultFor(results[..|results| - 1], id)
  }

  /** Appending a row makes it the recorded result of its issue and changes no other issue's. */
  lemma ResultForAppend(results: seq<ResultRow>, r: ResultRow, id: IssueId)
    ensures ResultFor(results + [r], id) == if r.issue == id then Some(r.outcome) else ResultFor(results, id)
  {
    assert (results + [r])[..|results|] == results;
  }

  /** An issue no row refers to has no recorded result. */
  lemma {:induction false} NoRowNoResult(results: seq<ResultRow>, id: IssueId)
    requires forall k :: 0 <= k < |results| ==> results[k].issue != id
    ensures ResultFor(results, id) == None
  {
    if results != [] {
      NoRowNoResult(results[..|results| - 1], id);
    }
  }

  /**
   * `game_results` holds at most one row per issue, every row refers to an
   * existing issue, and an issue has a row exactly when it is completed, that
   * row agreeing with the issue's own outcome columns.
   */
  predicate ResultsRecorded(results: seq<ResultRow>, issues: seq<Issue>)
  {
    (forall k :: 0 <= k < |results| ==> 1 <= results[k].issue <= |issues|) &&
    (forall k, l :: 0 <= k < l < |results| ==> results[k].issue != results[l].issue) &&
    (forall i :: 0 <= i < |issues| ==> ResultFor(results, i + 1) == issues[i].outcome)
  }

  predicate ValidKind(kind: string) { kind == "number" || kind == "color" || kind == "size" }

  /** The payout multiplier of a bet type. */
  function OddsFor(kind: string): (odds: real)
    requires ValidKind(kind)
    ensures odds > 0.0
  {
    if kind == "number" then NumberOdds else if kind == "color" then ColorOdds else SizeOdds
  }

  /**
   * A stored bet refers to an existing issue, has a positive stake, the odds
   * of its type and potential win = amount x odds, and is pending exactly
   * while its issue is open.
   */
  predicate BetWellFormed(b: Bet, issues: seq<Issue>)
  {
    1 <= b.issue <= |issues| && b.amount > 0.0 && ValidKind(b.kind) && b.odds == OddsFor(b.kind) &&
    b.potentialWin == Payout(b) &&
    (b.status == BetStatus.Pending <==> IsOpen(issues[b.issue - 1]))
  }

  /** amount x odds: what a bet pays when it wins. */
  function Payout(b: Bet): real
  {
    b.amount * b.odds
  }

  predicate BetsWellFormed(bets: seq<Bet>, issues: seq<Issue>)
  {
    forall k :: 0 <= k < |bets| ==> BetWellFormed(bets[k], issues)
  }

  /** The key of the duplicate check: user, issue, type and value. */
  function BetKey(b: Bet): (UserId, IssueId, string, string) { (b.user, b.issue, b.kind, b.value) }

  predicate UniqueBets(bets: seq<Bet>)
  {
    forall k, l :: 0 <= k < l < |bets| ==> BetKey(bets[k]) != BetKey(bets[l])
  }

  predicate UniqueClaims(claims: seq<Claim>)
  {
    forall k, l :: 0 <= k < l < |claims| ==> claims[k] != claims[l]
  }

  /**
   * The consistency of the tables: the ledger invariant, well-formed issues
   * with at most one open, one result row exactly per completed issue, well
   * formed bets with unique keys, and no claim recorded twice.
   */
  predicate TablesConsistent(users: map<UserId, Account>, ledger: seq<Entry>, opening: map<UserId, real>,
                            issues: seq<Issue>, results: seq<ResultRow>, bets: seq<Bet>, claims: seq<Claim>)
  {
    Ledger.Invariant(users, ledger, opening) &&
    IssuesWellFormed(issues) && AtMostOneOpen(issues) &&
    ResultsRecorded(results, issues) &&
    BetsWellFormed(bets, issues) && UniqueBets(bets) &&
    UniqueClaims(claims)
  }

  class Db {
    var users: map<UserId, Account>
    var ledger: seq<Entry>
    var issues: seq<Issue>
    var results: seq<ResultRow>
    var bets: seq<Bet>
    var promotions: map<PromoId, Promotion>
    var claims: seq<Claim>
    /** The balance each account had before its first ledger entry. */
    ghost var opening: map<UserId, real>

    ghost predicate Valid()
      reads this
    {
      TablesConsistent(users, ledger, opening, issues, results, bets, claims)
    }

    /** A database holding the given accounts (with their balances) and promotions, and nothing else. */
    constructor (accounts: map<UserId, real>, promos: map<PromoId, Promotion>)
      requires forall u :: u in accounts ==> accounts[u] >= 0.0
      ensures Valid()
      ensures users == (map u | u in accounts :: Account(accounts[u], 0.0, 0.0))
      ensures ledger == [] && issues == [] && results == [] && bets == [] && claims == []
      ensures promotions == promos && opening == accounts
    {
      users := map u | u in accounts :: Account(accounts[u], 0.0, 0.0);
      ledger, issues, results, bets, claims := [], [], [], [], [];
      promotions := promos;
      opening := accounts;
    }

    /** `addTransaction`: appends one ledger row with exactly the given values and touches nothing else. */
    method AddTransaction(user: UserId, kind: TxKind, amount: real, before: real, after: real, description: string)
      modifies this`ledger
      ensures ledger == old(ledger) + [Entry(user, kind, amount, before, after, description)]
    {
      ledger := ledger + [Entry(user, kind, amount, before, after, description)];
    }

    /**
     * `updateUserBalance`: overwrites a balance without writing a ledger row,
     * so on its own it does not keep the ledger invariant; no handler of the
     * core calls it.
     */
    method UpdateUserBalance(user: UserId, newBalance: real)
      modifies this`users
      ensures users == if user in old(users) then old(users)[user := old(users)[user].(balance := newBalance)]
                       else old(users)
    {
      if user in users {
        users := users[user := users[user].(balance := newBalance)];
      }
    }
  }
}
