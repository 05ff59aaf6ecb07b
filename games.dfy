/**
 * The round lifecycle: reading the current round advances it lazily
 * (open -> locked -> completed), completing a round draws and stores the
 * outcome and settles every bet on it, and a fresh active round follows.
 * The clock (`now`, `today`), the drawn digit and the issue-number suffix
 * are parameters.
 */
module Games {
  import opened Wrappers
  import opened Config
  import opened PhpText
  import opened Helpers
  import opened Ledger
  import opened Store

  // ---------------------------------------------------------------------
  // Selecting and advancing the current round

  /**
   * The row `getCurrentGame` selects: among the open issues, the one that
   * ends first (ties go to the lowest id).
   */
  function CurrentIndex(issues: seq<Issue>): (r: Option<nat>)
    ensures r.None? <==> forall i :: 0 <= i < |issues| ==> !IsOpen(issues[i])
    ensures r.Some? ==> r.value < |issues| && IsOpen(issues[r.value])
    ensures r.Some? ==> forall j :: 0 <= j < |issues| && IsOpen(issues[j]) ==>
      issues[r.value].end <= issues[j].end && (j < r.value ==> issues[r.value].end < issues[j].end)
  {
    if issues == [] then None
    else
      var r := CurrentIndex(issues[..|issues| - 1]);
      var last := |issues| - 1;
      if !IsOpen(issues[last]) then r
      else if r.None? || issues[last].end < issues[r.value].end then Some(last)
      else r
  }

  /** Some issue is open exactly when `getCurrentGame` finds a row. */
  lemma OpenGivesCurrent(issues: seq<Issue>, i: nat)
    requires i < |issues| && IsOpen(issues[i])
    ensures CurrentIndex(issues).Some?
  {
  }

  /**
   * What `$stmt->fetch()` yields in `getCurrentGame` as written: the
   * current-round SELECT is prepared but never executed, and PDO's fetch on
   * a statement that was never executed returns false whatever the table
   * holds. `CurrentIndex` is the row the query selects once it is executed.
   */
  function FetchCurrentAsWritten(issues: seq<Issue>): Option<nat>
  {
    None
  }

  /**
   * As written, a read while a round is open takes the creation branch even
   * though the intended query finds that round: the open round is neither
   * locked nor completed, and the round the INSERT would then add (with its
   * parameters bound as intended) is a second open one, so at most one open
   * round no longer holds.
   */
  lemma UnexecutedSelectOpensSecondRound(issues: seq<Issue>, i: nat, now: real, today: Date, suffix: int)
    requires i < |issues| && IsOpen(issues[i]) && ValidDate(today) && 100 <= suffix <= 999
    ensures FetchCurrentAsWritten(issues).None? && CurrentIndex(issues).Some?
    ensures var issues' := issues + [NewIssue(now, today, suffix)];
      issues'[..|issues|] == issues && IsOpen(issues'[i]) && IsOpen(issues'[|issues|]) && !AtMostOneOpen(issues')
  {
    var issues' := issues + [NewIssue(now, today, suffix)];
    assert issues'[i] == issues[i];
    assert LastOpen(issues') == |issues|;
    OpenGivesCurrent(issues, i);
  }

  /**
   * Betting closes once `now` passes the end time minus the lock window:
   * fewer than the lock window's seconds remain, and on a round of the
   * configured length that is never before the round has started.
   */
  predicate LockDue(g: Issue, now: real): (due: bool)
    ensures due <==> g.status != Completed && (g.end as real) - now < BetLockSecondsBeforeEnd as real
    ensures due && g.end - g.start == GameDurationMinutes * 60 ==> now > g.start as real
  {
    now > (g.end - BetLockSecondsBeforeEnd) as real && g.status != Completed
  }

  /** The round completes once `now` passes its end time, by which betting is closed as well. */
  predicate CompleteDue(g: Issue, now: real): (due: bool)
    ensures due ==> LockDue(g, now)
  {
    now > g.end as real && g.status != Completed
  }

  /**
   * The status a read at time `now` leaves the round in: never an earlier
   * one, completed exactly when it was or is due, and locked only inside the
   * lock window.
   */
  function Advanced(g: Issue, now: real): (s: Status)
    ensures Rank(g.status) <= Rank(s)
    ensures s == Completed <==> g.status == Completed || CompleteDue(g, now)
    ensures s == Locked ==> g.status == Locked || LockDue(g, now)
  {
    if CompleteDue(g, now) then Completed else if LockDue(g, now) then Locked else g.status
  }

  function Rank(s: Status): nat
  {
    match s
    case Pending => 0
    case Active => 1
    case Locked => 2
    case Completed => 3
  }

  /**
   * Lazy advancement only moves a round forward, the later the read the
   * further, and a completed round stays completed: the lifecycle is never
   * revisited.
   */
  lemma AdvanceIsMonotone(g: Issue, now1: real, now2: real)
    requires now1 <= now2
    ensures Rank(g.status) <= Rank(Advanced(g, now1)) <= Rank(Advanced(g, now2))
    ensures g.status == Completed ==> Advanced(g, now2) == Completed
    ensures CompleteDue(g, now1) ==> LockDue(g, now1)
  {
  }

  /** The row `createNewGame` inserts: active, starting at the current second, lasting one round. */
  function NewIssue(now: real, today: Date, suffix: int): (g: Issue)
    requires ValidDate(today) && 100 <= suffix <= 999
    ensures g.status == Active && g.outcome == None && IsOpen(g) && IssueWellFormed(g)
    ensures g.start as real <= now < g.start as real + 1.0 && g.end - g.start == GameDurationMinutes * 60
    ensures g.issueNumber == IssueNumber(today, suffix)
  {
    var start := now.Floor;
    Issue(IssueNumber(today, suffix), start, GameEndTime(start), Active, None)
  }

  // ---------------------------------------------------------------------
  // Binding the INSERT of a new issue

  /** A positional parameter handed to a prepared statement. */
  datatype SqlValue = IntParam(i: int) | TextParam(s: string) | TimeParam(t: int)

  /**
   * The INSERT of `createNewGame` has three placeholders (issue number, start,
   * end; game id and status are literals). Native prepared statements refuse a
   * parameter list of any other length.
   */
  function BindIssueInsert(params: seq<SqlValue>): Option<Issue>
  {
    if |params| != 3 then None
    else match (params[0], params[1], params[2])
      case (TextParam(n), TimeParam(s), TimeParam(e)) => Some(Issue(n, s, e, Active, None))
      case _ => None
  }

  /** The parameter list as the source passes it: a leading game id 1 the statement has no placeholder for. */
  function IssueInsertParamsAsWritten(issueNumber: string, start: int, end: int): seq<SqlValue>
  {
    [IntParam(1), TextParam(issueNumber), TimeParam(start), TimeParam(end)]
  }

  /** The parameter list the statement expects. */
  function IssueInsertParams(issueNumber: string, start: int, end: int): seq<SqlValue>
  {
    [TextParam(issueNumber), TimeParam(start), TimeParam(end)]
  }

  /** As written, the INSERT is refused for every issue: four values for three placeholders. */
  lemma IssueInsertAsWrittenFails(issueNumber: string, start: int, end: int)
    ensures BindIssueInsert(IssueInsertParamsAsWritten(issueNumber, start, end)) == None
  {
  }

  /** With the intended parameter list the INSERT stores exactly the intended active row. */
  lemma IssueInsertBindsIntendedRow(issueNumber: string, start: int, end: int)
    ensures BindIssueInsert(IssueInsertParams(issueNumber, start, end)) == Some(Issue(issueNumber, start, end, Active, None))
  {
  }

  // ---------------------------------------------------------------------
  // Settlement, as functions of the tables

  /** A bet after settlement of issue `id`: bets on the issue get won or lost, all others are kept. */
  function SettleBet(b: Bet, id: IssueId, o: Outcome): Bet
  {
    if b.issue == id then b.(status := CalculateBetResult(b.value, b.kind, o.number, o.colour, o.size)) else b
  }

  function ResolveBets(bets: seq<Bet>, id: IssueId, o: Outcome): (r: seq<Bet>)
    ensures |r| == |bets|
  {
    seq(|bets|, k requires 0 <= k < |bets| => SettleBet(bets[k], id, o))
  }

  /** Whether bet b, on issue id, is paid by settlement against o given the accounts `users`. */
  predicate IsPaid(users: map<UserId, Account>, b: Bet, id: IssueId, o: Outcome)
  {
    b.issue == id && CalculateBetResult(b.value, b.kind, o.number, o.colour, o.size) == Won && b.user in users
  }

  function WinDescription(id: IssueId): string
  {
    "Win from game issue " + IntString(id)
  }

  /** The id of an issue (at least 1) interpolated into a `win` row's description reads back as that id. */
  lemma WinDescriptionNamesIssue(id: IssueId)
    requires id >= 1
    ensures var d := WinDescription(id);
      |d| > 20 && d[..20] == "Win from game issue " && AllDigits(d[20..]) && DecimalValue(d[20..]) == id
  {
    var d := WinDescription(id);
    assert d[20..] == DecimalString(id);
    DecimalStringDecodes(id);
  }

  /** Users and ledger after one iteration of the settlement loop. */
  function PayBet(users: map<UserId, Account>, ledger: seq<Entry>, b: Bet, id: IssueId, o: Outcome)
    : (p: (map<UserId, Account>, seq<Entry>))
    ensures p.0.Keys == users.Keys
    ensures |ledger| <= |p.1| <= |ledger| + 1 && p.1[..|ledger|] == ledger
    ensures |p.1| == |ledger| + 1 <==> IsPaid(users, b, id, o)
  {
    if IsPaid(users, b, id, o) then
      var a := users[b.user];
      var w := Payout(b);
      (users[b.user := a.(balance := a.balance + w, totalWins := a.totalWins + w)],
       ledger + [Entry(b.user, WinTx, w, a.balance, a.balance + w, WinDescription(id))])
    else (users, ledger)
  }

  /** Users and ledger after the settlement loop has gone over `bets` in order. */
  function PayAll(users: map<UserId, Account>, ledger: seq<Entry>, bets: seq<Bet>, id: IssueId, o: Outcome)
    : (p: (map<UserId, Account>, seq<Entry>))
    ensures p.0.Keys == users.Keys
    ensures |ledger| <= |p.1| <= |ledger| + |bets| && p.1[..|ledger|] == ledger
  {
    if bets == [] then (users, ledger)
    else
      var p := PayAll(users, ledger, bets[..|bets| - 1], id, o);
      PayBet(p.0, p.1, bets[|bets| - 1], id, o)
  }

  /** The settlement of a prefix one bet longer is one more loop iteration. */
  lemma PayAllSnoc(users: map<UserId, Account>, ledger: seq<Entry>, bets: seq<Bet>, i: nat, id: IssueId, o: Outcome)
    requires i < |bets|
    ensures var p := PayAll(users, ledger, bets[..i], id, o);
      PayAll(users, ledger, bets[..i + 1], id, o) == PayBet(p.0, p.1, bets[i], id, o)
  {
    assert bets[..i + 1][..i] == bets[..i];
  }

  /** A paid bet credits amount x odds to its account and appends the matching `win` row. */
  lemma PaidBetCredits(users: map<UserId, Account>, ledger: seq<Entry>, b: Bet, id: IssueId, o: Outcome)
    requires IsPaid(users, b, id, o)
    ensures PayBet(users, ledger, b, id, o).0 ==
      users[b.user := users[b.user].(balance := users[b.user].balance + Payout(b),
                                     totalWins := users[b.user].totalWins + Payout(b))]
    ensures PayBet(users, ledger, b, id, o).1 ==
      ledger + [Entry(b.user, WinTx, Payout(b), users[b.user].balance,
                      users[b.user].balance + Payout(b), WinDescription(id))]
  {
  }

  /** Total winnings settlement owes user u: amount x odds over u's winning bets on issue id. */
  function Winnings(bets: seq<Bet>, id: IssueId, o: Outcome, u: UserId): real
  {
    if bets == [] then 0.0
    else
      var b := bets[|bets| - 1];
      Winnings(bets[..|bets| - 1], id, o, u) +
        (if b.issue == id && b.user == u && CalculateBetResult(b.value, b.kind, o.number, o.colour, o.size) == Won
         then Payout(b) else 0.0)
  }

  /** Number of winning bets on issue id whose account exists. */
  function WinnerCount(accounts: set<UserId>, bets: seq<Bet>, id: IssueId, o: Outcome): nat
  {
    if bets == [] then 0
    else
      var b := bets[|bets| - 1];
      WinnerCount(accounts, bets[..|bets| - 1], id, o) +
        (if b.issue == id && b.user in accounts && CalculateBetResult(b.value, b.kind, o.number, o.colour, o.size) == Won
         then 1 else 0)
  }

  /** After settlement no bet on the issue is pending, and bets on other issues are untouched. */
  lemma ResolveLeavesNoPending(bets: seq<Bet>, id: IssueId, o: Outcome)
    ensures forall k :: 0 <= k < |bets| && bets[k].issue == id ==>
      ResolveBets(bets, id, o)[k].status in {Won, Lost} &&
      ResolveBets(bets, id, o)[k] == bets[k].(status := ResolveBets(bets, id, o)[k].status)
    ensures forall k :: 0 <= k < |bets| && bets[k].issue != id ==> ResolveBets(bets, id, o)[k] == bets[k]
  {
  }

  /** A losing bet changes no balance and writes no ledger row. */
  lemma LostBetChangesNothing(users: map<UserId, Account>, ledger: seq<Entry>, b: Bet, id: IssueId, o: Outcome)
    requires CalculateBetResult(b.value, b.kind, o.number, o.colour, o.size) == Lost
    ensures PayBet(users, ledger, b, id, o) == (users, ledger)
  {
  }

  /**
   * Per account, settlement credits exactly the winnings owed: the balance and
   * total_wins rise by the sum of amount x odds over the account's winning
   * bets, total_bets is untouched, and no account appears or disappears.
   */
  lemma {:induction false} PayAllCredits(users: map<UserId, Account>, ledger: seq<Entry>, bets: seq<Bet>,
                                         id: IssueId, o: Outcome, u: UserId)
    requires u in users
    ensures var p := PayAll(users, ledger, bets, id, o);
      p.0.Keys == users.Keys &&
      p.0[u].balance == users[u].balance + Winnings(bets, id, o, u) &&
      p.0[u].totalWins == users[u].totalWins + Winnings(bets, id, o, u) &&
      p.0[u].totalBets == users[u].totalBets
  {
    if bets != [] {
      PayAllCredits(users, ledger, bets[..|bets| - 1], id, o, u);
    }
  }

  /**
   * Settlement only appends to the ledger, one `win` row per paid bet, each
   * with balance_after = balance_before + amount.
   */
  lemma {:induction false} PayAllAppendsWins(users: map<UserId, Account>, ledger: seq<Entry>, bets: seq<Bet>,
                                             id: IssueId, o: Outcome)
    ensures var p := PayAll(users, ledger, bets, id, o);
      p.0.Keys == users.Keys &&
      |p.1| == |ledger| + WinnerCount(users.Keys, bets, id, o) && p.1[..|ledger|] == ledger &&
      forall k :: |ledger| <= k < |p.1| ==> p.1[k].kind == WinTx && p.1[k].after == p.1[k].before + p.1[k].amount
  {
    if bets != [] {
      PayAllAppendsWins(users, ledger, bets[..|bets| - 1], id, o);
      var p := PayAll(users, ledger, bets[..|bets| - 1], id, o);
      var b := bets[|bets| - 1];
      assert p.0.Keys == users.Keys;
      if IsPaid(p.0, b, id, o) {
        var q := PayBet(p.0, p.1, b, id, o);
        assert q.1[..|p.1|] == p.1;
        assert q.1[..|ledger|] == p.1[..|ledger|];
      }
    }
  }

  /** One iteration of the settlement loop keeps the ledger invariant. */
  lemma PayBetKeepsInvariant(users: map<UserId, Account>, ledger: seq<Entry>, b: Bet, id: IssueId, o: Outcome,
                             opening: map<UserId, real>)
    requires Ledger.Invariant(users, ledger, opening)
    requires b.amount > 0.0 && b.odds > 0.0
    ensures var q := PayBet(users, ledger, b, id, o); Ledger.Invariant(q.0, q.1, opening)
  {
    if IsPaid(users, b, id, o) {
      var a := users[b.user];
      var w := Payout(b);
      assert w > 0.0;
      var e := Entry(b.user, WinTx, w, a.balance, a.balance + w, WinDescription(id));
      PostKeepsInvariant(users, ledger, opening, e, a.(balance := a.balance + w, totalWins := a.totalWins + w));
    }
  }

  /** Paying the winners of a settlement keeps the ledger invariant (chains intact, no negative balance). */
  lemma {:induction false} PayAllKeepsInvariant(users: map<UserId, Account>, ledger: seq<Entry>, bets: seq<Bet>,
                                                id: IssueId, o: Outcome, opening: map<UserId, real>)
    requires Ledger.Invariant(users, ledger, opening)
    requires forall k :: 0 <= k < |bets| ==> bets[k].amount > 0.0 && bets[k].odds > 0.0
    ensures var p := PayAll(users, ledger, bets, id, o); Ledger.Invariant(p.0, p.1, opening)
  {
    if bets != [] {
      var init := bets[..|bets| - 1];
      assert forall k :: 0 <= k < |init| ==> init[k] == bets[k];
      PayAllKeepsInvariant(users, ledger, init, id, o, opening);
      var p := PayAll(users, ledger, init, id, o);
      PayBetKeepsInvariant(p.0, p.1, bets[|bets| - 1], id, o, opening);
    }
  }

  /** The issue table after issue `id` is completed with outcome o. */
  function CompleteIssue(issues: seq<Issue>, id: IssueId, o: Outcome): (r: seq<Issue>)
    requires 1 <= id <= |issues|
    ensures |r| == |issues|
  {
    issues[id - 1 := issues[id - 1].(status := Completed, outcome := Some(o))]
  }

  /** Completing the one open issue leaves the issues well formed and none of them open. */
  lemma CompletionClosesAll(issues: seq<Issue>, id: IssueId, d: nat)
    requires d <= 9 && 1 <= id <= |issues| && IsOpen(issues[id - 1])
    requires IssuesWellFormed(issues) && AtMostOneOpen(issues)
    ensures var issues' := CompleteIssue(issues, id, OutcomeOf(d));
      IssuesWellFormed(issues') && AtMostOneOpen(issues') &&
      forall i :: 0 <= i < |issues'| ==> !IsOpen(issues'[i])
  {
    var issues' := CompleteIssue(issues, id, OutcomeOf(d));
    forall i | 0 <= i < |issues'|
      ensures !IsOpen(issues'[i]) && IssueWellFormed(issues'[i])
    {
      if i != id - 1 {
        assert issues'[i] == issues[i];
        assert IssueWellFormed(issues[i]);
      }
    }
  }

  /** Locking an open issue changes nothing the tables' consistency depends on. */
  lemma LockKeepsTables(users: map<UserId, Account>, ledger: seq<Entry>, opening: map<UserId, real>,
                        issues: seq<Issue>, results: seq<ResultRow>, bets: seq<Bet>, claims: seq<Claim>, i: nat)
    requires TablesConsistent(users, ledger, opening, issues, results, bets, claims)
    requires i < |issues| && IsOpen(issues[i])
    ensures TablesConsistent(users, ledger, opening, issues[i := issues[i].(status := Locked)], results, bets, claims)
  {
    var issues' := issues[i := issues[i].(status := Locked)];
    LastOpenSameOpenness(issues, issues');
    forall k | 0 <= k < |bets|
      ensures BetWellFormed(bets[k], issues')
    {
      assert BetWellFormed(bets[k], issues);
    }
  }

  /** The result row written on completion is the only one for the issue and agrees with it. */
  lemma CompletionRecordsResult(issues: seq<Issue>, results: seq<ResultRow>, id: IssueId, o: Outcome)
    requires 1 <= id <= |issues| && IsOpen(issues[id - 1])
    requires IssuesWellFormed(issues) && ResultsRecorded(results, issues)
    ensures ResultsRecorded(results + [ResultRow(id, o)], CompleteIssue(issues, id, o))
  {
    var issues' := CompleteIssue(issues, id, o);
    var results' := results + [ResultRow(id, o)];
    forall k | 0 <= k < |results|
      ensures results[k].issue != id
    {
      if results[k].issue == id {
        assert IssueWellFormed(issues[id - 1]);
        RowGivesResult(results, k, id);
        assert false;
      }
    }
    forall i | 0 <= i < |issues'|
      ensures ResultFor(results', i + 1) == issues'[i].outcome
    {
      ResultForAppend(results, ResultRow(id, o), i + 1);
    }
  }

  /** An issue some row refers to has a recorded result. */
  lemma {:induction false} RowGivesResult(results: seq<ResultRow>, k: nat, id: IssueId)
    requires k < |results| && results[k].issue == id
    ensures ResultFor(results, id).Some?
  {
    if results[|results| - 1].issue != id {
      RowGivesResult(results[..|results| - 1], k, id);
    }
  }

  /** Settlement leaves every bet well formed against the completed issue table, and keeps their keys. */
  lemma CompletionSettlesBets(issues: seq<Issue>, bets: seq<Bet>, id: IssueId, o: Outcome)
    requires 1 <= id <= |issues| && IsOpen(issues[id - 1])
    requires BetsWellFormed(bets, issues) && UniqueBets(bets)
    ensures BetsWellFormed(ResolveBets(bets, id, o), CompleteIssue(issues, id, o))
    ensures UniqueBets(ResolveBets(bets, id, o))
  {
    var issues' := CompleteIssue(issues, id, o);
    var bets' := ResolveBets(bets, id, o);
    forall k | 0 <= k < |bets'|
      ensures BetWellFormed(bets'[k], issues') && BetKey(bets'[k]) == BetKey(bets[k])
    {
      assert BetWellFormed(bets[k], issues);
      if bets[k].issue != id {
        assert issues'[bets[k].issue - 1] == issues[bets[k].issue - 1];
      }
    }
  }

  /** Completing the open issue `id` with digit d, recording its result and settling its bets keep the tables consistent. */
  lemma CompletionKeepsTables(users: map<UserId, Account>, ledger: seq<Entry>, opening: map<UserId, real>,
                              issues: seq<Issue>, results: seq<ResultRow>, bets: seq<Bet>, claims: seq<Claim>,
                              id: IssueId, d: nat)
    requires TablesConsistent(users, ledger, opening, issues, results, bets, claims)
    requires d <= 9 && 1 <= id <= |issues| && IsOpen(issues[id - 1])
    ensures var o := OutcomeOf(d);
      var p := PayAll(users, ledger, bets, id, o);
      TablesConsistent(p.0, p.1, opening, CompleteIssue(issues, id, o), results + [ResultRow(id, o)],
                       ResolveBets(bets, id, o), claims) &&
      forall i :: 0 <= i < |issues| ==> !IsOpen(CompleteIssue(issues, id, o)[i])
    ensures forall k :: 0 <= k < |bets| ==> bets[k].amount > 0.0 && bets[k].odds > 0.0
  {
    var o := OutcomeOf(d);
    CompletionClosesAll(issues, id, d);
    CompletionRecordsResult(issues, results, id, o);
    CompletionSettlesBets(issues, bets, id, o);
    forall k | 0 <= k < |bets|
      ensures bets[k].amount > 0.0 && bets[k].odds > 0.0
    {
      assert BetWellFormed(bets[k], issues);
    }
    PayAllKeepsInvariant(users, ledger, bets, id, o, opening);
  }

  /** A new active issue appended when none is open is the one open issue, and well formed. */
  lemma NewIssueOnlyOpen(issues: seq<Issue>, g: Issue)
    requires IssuesWellFormed(issues) && forall i :: 0 <= i < |issues| ==> !IsOpen(issues[i])
    requires g.status == Active && g.outcome.None?
    ensures IssuesWellFormed(issues + [g]) && AtMostOneOpen(issues + [g])
  {
    var issues' := issues + [g];
    assert forall k :: 0 <= k < |issues| ==> issues'[k] == issues[k];
  }

  /** An issue without outcome appended to the issues keeps the result rows in step with them. */
  lemma NewIssueKeepsResults(results: seq<ResultRow>, issues: seq<Issue>, g: Issue)
    requires ResultsRecorded(results, issues) && g.outcome.None?
    ensures ResultsRecorded(results, issues + [g])
  {
    var issues' := issues + [g];
    assert forall k :: 0 <= k < |issues| ==> issues'[k] == issues[k];
    NoRowNoResult(results, |issues'|);
  }

  /** Appending an issue leaves every stored bet well formed. */
  lemma NewIssueKeepsBets(bets: seq<Bet>, issues: seq<Issue>, g: Issue)
    requires BetsWellFormed(bets, issues)
    ensures BetsWellFormed(bets, issues + [g])
  {
    forall k | 0 <= k < |bets|
      ensures BetWellFormed(bets[k], issues + [g])
    {
      assert BetWellFormed(bets[k], issues);
      assert (issues + [g])[bets[k].issue - 1] == issues[bets[k].issue - 1];
    }
  }

  /** Appending a new active issue when none is open keeps the tables consistent. */
  lemma NewIssueKeepsTables(users: map<UserId, Account>, ledger: seq<Entry>, opening: map<UserId, real>,
                            issues: seq<Issue>, results: seq<ResultRow>, bets: seq<Bet>, claims: seq<Claim>,
                            g: Issue)
    requires TablesConsistent(users, ledger, opening, issues, results, bets, claims)
    requires forall i :: 0 <= i < |issues| ==> !IsOpen(issues[i])
    requires g.status == Active && g.outcome.None?
    ensures TablesConsistent(users, ledger, opening, issues + [g], results, bets, claims)
  {
    NewIssueOnlyOpen(issues, g);
    NewIssueKeepsResults(results, issues, g);
    NewIssueKeepsBets(bets, issues, g);
  }

  // ---------------------------------------------------------------------
  // The handlers

  /**
   * One pass of the loop of `processBetsForIssue`, on bet i: a bet on the
   * issue gets won or lost, and a won bet whose account exists credits
   * amount x odds to the balance and total_wins and writes a `win` row from
   * the old to the new balance.
   */
  method SettleBetAt(db: Db, i: nat, id: IssueId, o: Outcome)
    requires i < |db.bets|
    modifies db`users, db`ledger, db`bets
    ensures db.bets == old(db.bets)[i := SettleBet(old(db.bets)[i], id, o)]
    ensures (db.users, db.ledger) == PayBet(old(db.users), old(db.ledger), old(db.bets)[i], id, o)
  {
    var b := db.bets[i];
    ghost var users0, ledger0 := db.users, db.ledger;
    if b.issue == id {
      var result := CalculateBetResult(b.value, b.kind, o.number, o.colour, o.size);
      db.bets := db.bets[i := b.(status := result)];
      if result == Won {
        var winnings := Payout(b);
        if b.user in db.users {
          var account := db.users[b.user];
          var newBalance := account.balance + winnings;
          db.users := db.users[b.user := account.(balance := newBalance, totalWins := account.totalWins + winnings)];
          db.AddTransaction(b.user, WinTx, winnings, account.balance, newBalance, WinDescription(id));
          PaidBetCredits(users0, ledger0, b, id, o);
        }
      }
    }
  }

  /**
   * `processBetsForIssue`: every bet on the issue is settled in table order.
   * State afterwards is the settlement functions applied to the state before.
   */
  method ProcessBetsForIssue(db: Db, id: IssueId, number: nat, colour: string, size: string)
    requires Ledger.Invariant(db.users, db.ledger, db.opening)
    requires forall k :: 0 <= k < |db.bets| ==> db.bets[k].amount > 0.0 && db.bets[k].odds > 0.0
    modifies db`users, db`ledger, db`bets
    ensures db.bets == ResolveBets(old(db.bets), id, Outcome(number, colour, size))
    ensures (db.users, db.ledger) == PayAll(old(db.users), old(db.ledger), old(db.bets), id, Outcome(number, colour, size))
    ensures Ledger.Invariant(db.users, db.ledger, db.opening)
  {
    var o := Outcome(number, colour, size);
    ghost var bets0, users0, ledger0 := db.bets, db.users, db.ledger;
    var i := 0;
    while i < |db.bets|
      invariant 0 <= i <= |db.bets| == |bets0|
      invariant forall k :: 0 <= k < i ==> db.bets[k] == SettleBet(bets0[k], id, o)
      invariant forall k :: i <= k < |db.bets| ==> db.bets[k] == bets0[k]
      invariant (db.users, db.ledger) == PayAll(users0, ledger0, bets0[..i], id, o)
    {
      SettleBetAt(db, i, id, o);
      PayAllSnoc(users0, ledger0, bets0, i, id, o);
      i := i + 1;
    }
    assert bets0[..i] == bets0;
    PayAllKeepsInvariant(users0, ledger0, bets0, id, o, db.opening);
  }

  /**
   * `completeGame`: the drawn digit (the `rand(0, 9)` of `getWinningNumber`)
   * and its colour and size are stored on the issue, which becomes completed,
   * and in one `game_results` row; then the issue's bets are settled.
   * The only caller completes an issue it has just found open.
   */
  method CompleteGame(db: Db, id: IssueId, digit: nat)
    requires db.Valid() && 1 <= id <= |db.issues| && IsOpen(db.issues[id - 1]) && digit <= 9
    modifies db`issues, db`results, db`users, db`ledger, db`bets
    ensures db.issues == CompleteIssue(old(db.issues), id, OutcomeOf(digit))
    ensures db.results == old(db.results) + [ResultRow(id, OutcomeOf(digit))]
    ensures db.bets == ResolveBets(old(db.bets), id, OutcomeOf(digit))
    ensures (db.users, db.ledger) == PayAll(old(db.users), old(db.ledger), old(db.bets), id, OutcomeOf(digit))
    ensures forall i :: 0 <= i < |db.issues| ==> !IsOpen(db.issues[i])
    ensures db.Valid()
  {
    var number := digit;
    var colour := WinningColor(number);
    var size := WinningSize(number);
    var o := Outcome(number, colour, size);
    CompletionKeepsTables(db.users, db.ledger, db.opening, db.issues, db.results, db.bets, db.claims, id, digit);
    db.issues := CompleteIssue(db.issues, id, o);
    db.results := db.results + [ResultRow(id, o)];
    ProcessBetsForIssue(db, id, number, colour, size);
  }

  /**
   * `createNewGame`: inserts an active issue numbered from today and the drawn
   * suffix, starting now and ending one round later, and returns that row.
   * Callers create a round only when none is open.
   */
  method CreateNewGame(db: Db, now: real, today: Date, suffix: int) returns (id: IssueId, game: Issue)
    requires db.Valid() && ValidDate(today) && 100 <= suffix <= 999
    requires forall i :: 0 <= i < |db.issues| ==> !IsOpen(db.issues[i])
    modifies db`issues
    ensures db.issues == old(db.issues) + [NewIssue(now, today, suffix)]
    ensures id == |db.issues| && game == NewIssue(now, today, suffix)
    ensures db.Valid()
  {
    var issueNumber := IssueNumber(today, suffix);
    var start := now.Floor;
    var end := GameEndTime(start);
    IssueInsertBindsIntendedRow(issueNumber, start, end);
    var row := BindIssueInsert(IssueInsertParams(issueNumber, start, end));
    NewIssueKeepsTables(db.users, db.ledger, db.opening, db.issues, db.results, db.bets, db.claims, row.value);
    db.issues := db.issues + [row.value];
    id := |db.issues|;
    game := db.issues[id - 1];
  }

  /** The tables a read of the current round may change. */
  datatype Rounds = Rounds(issues: seq<Issue>, results: seq<ResultRow>, bets: seq<Bet>,
                           users: map<UserId, Account>, ledger: seq<Entry>)

  function RoundsOf(db: Db): Rounds
    reads db
  {
    Rounds(db.issues, db.results, db.bets, db.users, db.ledger)
  }

  /**
   * The tables after a read at `now` finds the open issue at index i and
   * moves it on: completed, settled and followed by a new round once its
   * end has passed, otherwise only its status advanced.
   */
  function AfterRead(t: Rounds, i: nat, now: real, today: Date, suffix: int, digit: nat): (r: Rounds)
    requires i < |t.issues| && ValidDate(today) && 100 <= suffix <= 999 && digit <= 9
    ensures |r.issues| == if CompleteDue(t.issues[i], now) then |t.issues| + 1 else |t.issues|
    ensures r.issues[i].status == Advanced(t.issues[i], now)
    ensures CompleteDue(t.issues[i], now) ==> IsOpen(r.issues[|t.issues|])
    ensures !CompleteDue(t.issues[i], now) ==>
      r.results == t.results && r.bets == t.bets && r.users == t.users && r.ledger == t.ledger
  {
    var g := t.issues[i];
    if CompleteDue(g, now) then
      var o := OutcomeOf(digit);
      var paid := PayAll(t.users, t.ledger, t.bets, i + 1, o);
      Rounds(CompleteIssue(t.issues, i + 1, o) + [NewIssue(now, today, suffix)], t.results + [ResultRow(i + 1, o)],
             ResolveBets(t.bets, i + 1, o), paid.0, paid.1)
    else
      t.(issues := t.issues[i := g.(status := Advanced(g, now))])
  }

  /** The `UPDATE game_issues SET status = 'locked'` of `getCurrentGame`, on an open issue. */
  method LockIssue(db: Db, i: nat)
    requires db.Valid() && i < |db.issues| && IsOpen(db.issues[i])
    modifies db`issues
    ensures db.issues == old(db.issues)[i := old(db.issues)[i].(status := Locked)]
    ensures db.Valid()
  {
    LockKeepsTables(db.users, db.ledger, db.opening, db.issues, db.results, db.bets, db.claims, i);
    db.issues := db.issues[i := db.issues[i].(status := Locked)];
  }

  /** Locking a round whose lock instant has passed does not change what the read then makes of it. */
  lemma LockThenRead(t: Rounds, i: nat, now: real, today: Date, suffix: int, digit: nat)
    requires i < |t.issues| && ValidDate(today) && 100 <= suffix <= 999 && digit <= 9
    requires LockDue(t.issues[i], now)
    ensures AfterRead(t.(issues := t.issues[i := t.issues[i].(status := Locked)]), i, now, today, suffix, digit) ==
            AfterRead(t, i, now, today, suffix, digit)
  {
    var g := t.issues[i];
    var t' := t.(issues := t.issues[i := g.(status := Locked)]);
    if CompleteDue(g, now) {
      assert CompleteIssue(t'.issues, i + 1, OutcomeOf(digit)) == CompleteIssue(t.issues, i + 1, OutcomeOf(digit));
    } else {
      assert t'.issues[i := t'.issues[i].(status := Advanced(t'.issues[i], now))] == t.issues[i := g.(status := Advanced(g, now))];
    }
  }

  /**
   * The completion branch of `getCurrentGame`: the issue at index i is
   * completed and settled, the completed row is read back, and a new round
   * is created.
   */
  method CompleteAndRenew(db: Db, i: nat, now: real, today: Date, suffix: int, digit: nat) returns (game: Issue)
    requires db.Valid() && ValidDate(today) && 100 <= suffix <= 999 && digit <= 9
    requires i < |db.issues| && CompleteDue(db.issues[i], now)
    modifies db`issues, db`results, db`users, db`ledger, db`bets
    ensures RoundsOf(db) == AfterRead(old(RoundsOf(db)), i, now, today, suffix, digit)
    ensures i < |db.issues| && game == db.issues[i]
    ensures db.Valid()
  {
    CompleteGame(db, i + 1, digit);
    game := db.issues[i];
    ghost var issues1 := db.issues;
    var _, _ := CreateNewGame(db, now, today, suffix);
    assert db.issues[i] == issues1[i];
  }

  /**
   * The open issue `getCurrentGame` selected, index i, moves on at `now` as
   * `AfterRead` says: it is locked once the lock instant has passed; once
   * its end has passed it is also completed and settled and a new active
   * round is created. The returned row is the issue as it then stands, and
   * an open issue remains.
   */
  method AdvanceRound(db: Db, i: nat, now: real, today: Date, suffix: int, digit: nat) returns (game: Issue)
    requires db.Valid() && ValidDate(today) && 100 <= suffix <= 999 && digit <= 9
    requires i < |db.issues| && IsOpen(db.issues[i])
    modifies db`issues, db`results, db`users, db`ledger, db`bets
    ensures db.Valid()
    ensures RoundsOf(db) == AfterRead(old(RoundsOf(db)), i, now, today, suffix, digit)
    ensures i < |db.issues| && game == db.issues[i]
    ensures CurrentIndex(db.issues).Some?
  {
    ghost var t := RoundsOf(db);
    game := db.issues[i];
    if LockDue(game, now) {
      LockIssue(db, i);
      LockThenRead(t, i, now, today, suffix, digit);
      game := game.(status := Locked);
    } else {
      assert db.issues == db.issues[i := game.(status := Advanced(game, now))];
    }
    assert AfterRead(RoundsOf(db), i, now, today, suffix, digit) == AfterRead(t, i, now, today, suffix, digit);
    if CompleteDue(game, now) {
      game := CompleteAndRenew(db, i, now, today, suffix, digit);
      OpenGivesCurrent(db.issues, |db.issues| - 1);
    } else {
      OpenGivesCurrent(db.issues, i);
    }
  }

  /**
   * `getCurrentGame`: with no open issue a new active one is created and
   * returned. Otherwise the open issue that ends first moves on as
   * `AdvanceRound` says and is returned. Either way an open issue remains.
   */
  method GetCurrentGame(db: Db, now: real, today: Date, suffix: int, digit: nat) returns (id: IssueId, game: Issue)
    requires db.Valid() && ValidDate(today) && 100 <= suffix <= 999 && digit <= 9
    modifies db`issues, db`results, db`users, db`ledger, db`bets
    ensures db.Valid()
    ensures CurrentIndex(db.issues).Some?
    ensures 1 <= id <= |db.issues| && game == db.issues[id - 1]
    ensures old(CurrentIndex(db.issues)).None? ==>
      RoundsOf(db) == old(RoundsOf(db)).(issues := old(db.issues) + [NewIssue(now, today, suffix)]) && id == |db.issues|
    ensures old(CurrentIndex(db.issues)).Some? ==>
      var i := old(CurrentIndex(db.issues)).value;
      id == i + 1 && RoundsOf(db) == AfterRead(old(RoundsOf(db)), i, now, today, suffix, digit)
  {
    var current := CurrentIndex(db.issues);
    if current.None? {
      id, game := CreateNewGame(db, now, today, suffix);
      OpenGivesCurrent(db.issues, id - 1);
      return;
    }
    var i := current.value;
    id := i + 1;
    game := AdvanceRound(db, i, now, today, suffix, digit);
  }

  /** `getRecentGames`: the requested limit, 10 when none is given, never above 50. */
  function RecentLimit(requested: Option<int>): (limit: int)
    ensures limit <= 50
    ensures requested.None? ==> limit == 10
    ensures requested.Some? && requested.value <= 50 ==> limit == requested.value
    ensures requested.Some? && requested.value > 50 ==> limit == 50
  {
    var limit := if requested.Some? then requested.value else 10;
    if limit > 50 then 50 else limit
  }
}
