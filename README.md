# Wingo round-and-money engine, modelled in Dafny

This project models the money core of the Wingo casino's web API, a PHP backend:

- **Round lifecycle.** Reading the current round advances it lazily. An `active` round becomes `locked` once the lock window before its end has begun. It becomes `completed` once its end has passed. Completion draws a digit, stores the digit with its colour and size, settles every bet on the round, and opens a fresh `active` round.
- **Bet admission.** `placeBet` runs an ordered chain of refusals. On success one transaction debits the stake, writes one `bet` ledger row and stores one `pending` bet. If any write fails, the transaction is rolled back.
- **Outcome and pay rules.** These are the digit-to-colour and digit-to-size maps, the won/lost decision, and how issue numbers and end times are built.
- **Wallet ledger.** Deposits and withdrawals each pair a balance change with a ledger row that records the balance before and after. A withdrawal refuses an overdraft.
- **Promotion claims.** A user may claim each promotion once, subject to eligibility checks. The bonus comes from a small formula with a cap and is credited together with a ledger row. This holds for an authenticated caller; the handler as written never authenticates and so binds no user id (see "## Findings").

The database is one object, `Store.Db`. Its fields are the tables the handlers touch:

- the users' money columns, as a map;
- the `wallet_transactions` ledger, game issues, game results, bets and promotion claims, as sequences, where row k has auto-increment id k + 1;
- the promotions, as a map.

Each handler is a method that changes only the fields it writes. `Db.Valid()` is the invariant every handler keeps:

- No balance is negative.
- Every ledger row records a positive amount and is consistent with its kind: a credit adds its amount and a debit subtracts it.
- Each account's rows chain from its opening balance to its current balance. `Ledger.BalanceFromLedger` derives from this that a balance equals the opening balance plus all credits minus all debits.
- A completed issue, and only a completed one, carries an outcome derived from a digit.
- At most one issue is open.
- `game_results` has one row exactly for each completed issue.
- Every bet refers to an existing issue, carries its type's odds and `potential_win = amount × odds`, and is pending exactly while its issue is open.
- No two bets share (user, issue, type, value).
- No claim is recorded twice.

Inputs that come from outside the program are parameters:

- the clock: `now` in seconds, which may be fractional, and `today` as a calendar day;
- the drawn digit of `getWinningNumber` (`rand(0, 9)`) and the issue-number suffix of `generateIssueNumber` (`rand(100, 999)`), each with its range as a precondition;
- the authenticated user id of the bet and wallet handlers. The promotion handler never authenticates, so its `$user_id` is NULL; `Promotions.ClaimPromotion` models an authenticated caller and `Promotions.ClaimAsWritten` the NULL one (see "## Findings");
- the decoded request body. `None` stands for a body that does not decode to a non-empty object (`!$input`).

Money is `real`, because the source keeps DECIMAL columns and only passes them through `floatval`.

Some PHP behaviour is modelled as written:

- `empty("0")` is true, so a number bet on 0 is refused as a missing field (`Bets.ZeroNumberBetRefused`).
- Colour and size values are validated case-insensitively but stored as sent. A bet on "Red" is accepted and can never win (`Bets.CapitalisedColourAcceptedButLoses`).
- A number bet wins when its stored string is loosely equal (`==`) to the drawn integer.
- `strlen` counts UTF-8 bytes (`Helpers.ValidatePassword`).
- PCRE's `$` also matches before a final newline (`Helpers.ValidateUsername`).
- The deposit total is undefined when a promotion has no minimum deposit, and PHP arithmetic then treats it as 0 (`Promotions.NoMinimumNoPercentageBonus`).
- The `if ($user)` guards are kept. Settlement or a bonus for a vanished account credits nothing.
- A bet is accepted on an issue whose stored status is `pending` or `active`. The clock is not consulted at bet time.

Where a failing statement can interrupt a transaction, the method takes a `fault` parameter naming the statement that throws. The method performs the writes before that statement and then restores the snapshot, which is what the rollback does.

## Model

| member | source | states |
|---|---|---|
| `Helpers.WinningColor` | wingo-casino-new/api/webapi/helpers.php:141-149 | the colour of a digit is always one of red, green, violet |
| `Helpers.ColourPartition` | wingo-casino-new/api/webapi/helpers.php:141-149 | on 0..9 the colour map is a partition, described independently: red = non-zero even digits, green = odd digits other than 5, violet = multiples of 5 |
| `Helpers.WinningSize` | wingo-casino-new/api/webapi/helpers.php:151-157 | the size is big exactly when the digit is at least 5, otherwise small |
| `Helpers.CalculateBetResult` | wingo-casino-new/api/webapi/helpers.php:193-204 | settling a bet never leaves it pending |
| `Helpers.NumberBetWinsOnItsDigit` | wingo-casino-new/api/webapi/helpers.php:195-196 | a number bet placed on digit v wins against drawn digit d exactly when v = d (loose string/integer equality) |
| `Helpers.ExactlyOneColourAndOneSizeWin` | wingo-casino-new/api/webapi/helpers.php:197-200 | on every draw exactly one of the three colour bets and exactly one of the two size bets wins |
| `Helpers.CapitalisedBetNeverWins` | wingo-casino-new/api/webapi/helpers.php:197-200 | a colour or size value that is not all lower case loses on every draw |
| `Helpers.UnknownTypeLoses` | wingo-casino-new/api/webapi/helpers.php:201-202 | a bet of any type other than number, color and size loses |
| `Helpers.DateStamp` | wingo-casino-new/api/webapi/helpers.php:128 | `date('Ymd')` is eight decimal digits |
| `Helpers.IssueNumber` | wingo-casino-new/api/webapi/helpers.php:127-131 | an issue number is 11 decimal digits whose first eight are the day's stamp |
| `Helpers.IssueNumberDecodes` | wingo-casino-new/api/webapi/helpers.php:127-131 | year, month, day and suffix can be read back from the digit positions of an issue number |
| `Helpers.IssueNumberInjective` | wingo-casino-new/api/webapi/helpers.php:127-131 | two issue numbers are equal only when made from the same day and the same suffix |
| `Helpers.GameEndTime` | wingo-casino-new/api/webapi/helpers.php:133-135 | a round lasts GAME_DURATION_MINUTES × 60 seconds and its lock instant falls strictly inside it |
| `Helpers.AllWordChars` | wingo-casino-new/api/webapi/helpers.php:119 | the left-to-right scan accepts exactly the strings made only of `[a-zA-Z0-9_]` |
| `Helpers.ValidateUsername` | wingo-casino-new/api/webapi/helpers.php:118-120 | a username is valid exactly when it is 3 to 20 word characters, optionally followed by one newline |
| `Helpers.ValidatePassword` | wingo-casino-new/api/webapi/helpers.php:122-124 | a password is valid exactly when its UTF-8 encoding has at least 6 bytes; 6 characters always suffice and one character never does |
| `Helpers.AsciiPasswordNeedsSixChars` | wingo-casino-new/api/webapi/helpers.php:122-124 | for a password of ASCII characters the byte count is the character count, so it is valid exactly when it has at least 6 characters |
| `PhpText.PaddedDecodes` | wingo-casino-new/api/webapi/helpers.php:130 | a zero-padded `sprintf('%03d')` field reads back as the number written |
| `PhpText.DigitLooselyEquals` | wingo-casino-new/api/webapi/helpers.php:196 | a one-digit string is loosely equal to an integer exactly when the integer is that digit |
| `PhpText.Utf8LengthBounds` | wingo-casino-new/api/webapi/helpers.php:123 | `strlen` of a string lies between its character count and four times that |
| `Store.Db.AddTransaction` | wingo-casino-new/api/webapi/helpers.php:171-174 | appends exactly one ledger row with the given user, type, amount, before and after, and changes nothing else |
| `Store.Db.UpdateUserBalance` | wingo-casino-new/api/webapi/helpers.php:166-169 | sets the balance of an existing user and leaves every other account and field as it was |
| `Store.OutcomeOf` | wingo-casino-new/api/webapi/games/games_handler.php:155-157 | the stored outcome holds the drawn digit with the colour and size the helpers derive from it |
| `Ledger.PostKeepsInvariant` | wingo-casino-new/api/webapi/helpers.php:171-174 | writing a new balance together with a ledger row that starts from the old balance, agrees with its kind and ends at the new non-negative balance keeps the ledger invariant |
| `Ledger.BalanceFromLedger` | wingo-casino-new/api/webapi/helpers.php:171-174 | under the ledger invariant every balance is the opening balance plus the user's credits minus the user's debits |
| `Games.CurrentIndex` | wingo-casino-new/api/webapi/games/games_handler.php:29-37 | the open-round query, executed as intended before the fetch, finds nothing exactly when no issue is pending, active or locked, and otherwise an open issue that ends no later than any other. Ties between equal end times go to the lowest id; that is a modelling choice, because `ORDER BY end_time LIMIT 1` leaves them unspecified |
| `Games.UnexecutedSelectOpensSecondRound` | wingo-casino-new/api/webapi/games/games_handler.php:29-41 | as written the SELECT is never executed, so the fetch finds nothing even while a round is open; the read then creates a round, and the one it would add is a second open round next to the unchanged first, so at most one open round no longer holds |
| `Games.OpenGivesCurrent` | wingo-casino-new/api/webapi/games/games_handler.php:29-39 | with the query executed as intended, whenever some issue is open it finds a row, so no new round is created |
| `Games.LockDue` | wingo-casino-new/api/webapi/games/games_handler.php:44-49 | betting closes exactly when the round is not completed and fewer than BET_LOCK_SECONDS_BEFORE_END seconds remain before its end; on a round of the configured length that is never before the round has started |
| `Games.CompleteDue` | wingo-casino-new/api/webapi/games/games_handler.php:56-59 | a round is due for completion once its end time has passed and it is not completed yet, and by then the lock is due as well |
| `Games.Advanced` | wingo-casino-new/api/webapi/games/games_handler.php:44-59 | the status one read leaves a round in is never an earlier one; it is completed exactly when it already was or completion is due, and it is locked only when it already was or the lock window has begun |
| `Games.AdvanceIsMonotone` | wingo-casino-new/api/webapi/games/games_handler.php:44-58 | lazy advancement only moves a round forward through pending, active, locked, completed; a later read moves it at least as far, and a completion is always preceded by the lock |
| `Games.NewIssue` | wingo-casino-new/api/webapi/games/games_handler.php:126-150 | a new round is active, open, has no outcome, starts at the second the call runs in, lasts one round, and is numbered from today and the suffix |
| `Games.IssueInsertAsWrittenFails` | wingo-casino-new/api/webapi/games/games_handler.php:131-137 | the parameter list as written, four values for three placeholders, is refused for every issue |
| `Games.IssueInsertBindsIntendedRow` | wingo-casino-new/api/webapi/games/games_handler.php:131-137 | the intended three values bind to exactly the intended active row |
| `Games.ResolveBets` | wingo-casino-new/api/webapi/games/games_handler.php:188-197 | settlement keeps the number of bets |
| `Games.ResolveLeavesNoPending` | wingo-casino-new/api/webapi/games/games_handler.php:188-197 | after settlement every bet on the issue is won or lost with all other columns kept, and bets on other issues are untouched |
| `Games.LostBetChangesNothing` | wingo-casino-new/api/webapi/games/games_handler.php:199 | a losing bet changes no balance and writes no ledger row |
| `Games.PayAllSnoc` | wingo-casino-new/api/webapi/games/games_handler.php:192-225 | settling one more bet is one more iteration of the loop |
| `Games.WinDescriptionNamesIssue` | wingo-casino-new/api/webapi/games/games_handler.php:222 | the issue id interpolated into a `win` row's description reads back as that id |
| `Games.PayBet` | wingo-casino-new/api/webapi/games/games_handler.php:199-223 | one settled bet keeps the set of accounts and only appends to the ledger, one row exactly when it is a won bet of the issue whose account exists |
| `Games.PayAll` | wingo-casino-new/api/webapi/games/games_handler.php:192-224 | the settlement loop keeps the set of accounts and only appends to the ledger, at most one row per bet |
| `Games.PaidBetCredits` | wingo-casino-new/api/webapi/games/games_handler.php:199-223 | a paid winning bet raises its account's balance and total_wins by amount × odds and appends one `win` row from the old to the new balance |
| `Games.PayBetKeepsInvariant` | wingo-casino-new/api/webapi/games/games_handler.php:199-223 | paying one bet with positive stake and odds keeps the ledger invariant |
| `Games.PayAllCredits` | wingo-casino-new/api/webapi/games/games_handler.php:199-223 | per account, balance and total_wins rise by exactly the sum of amount × odds over its winning bets on the issue; total_bets is unchanged and no account appears or disappears |
| `Games.PayAllAppendsWins` | wingo-casino-new/api/webapi/games/games_handler.php:211-222 | settlement only appends to the ledger: one `win` row per paid bet, each with balance_after = balance_before + amount |
| `Games.PayAllKeepsInvariant` | wingo-casino-new/api/webapi/games/games_handler.php:199-223 | paying the winners keeps the ledger invariant |
| `Games.CompleteIssue` | wingo-casino-new/api/webapi/games/games_handler.php:161-169 | completing an issue keeps the number of issues |
| `Games.CompletionClosesAll` | wingo-casino-new/api/webapi/games/games_handler.php:161-169 | completing the one open issue leaves the issues well formed and none open |
| `Games.LockKeepsTables` | wingo-casino-new/api/webapi/games/games_handler.php:49-54 | locking an open issue keeps every table consistent: it stays the one open issue and its bets stay pending |
| `Games.CompletionRecordsResult` | wingo-casino-new/api/webapi/games/games_handler.php:171-180 | the result row written on completion is the only one for its issue and agrees with it |
| `Games.RowGivesResult` | wingo-casino-new/api/webapi/games/games_handler.php:171-180 | an issue some result row refers to has a recorded result |
| `Games.CompletionSettlesBets` | wingo-casino-new/api/webapi/games/games_handler.php:186-197 | after settlement every bet is well formed against the completed issues and bet keys stay unique |
| `Games.CompletionKeepsTables` | wingo-casino-new/api/webapi/games/games_handler.php:152-184 | completing the open issue, recording its result and settling and paying its bets keep every table consistent, and leave no issue open |
| `Games.NewIssueOnlyOpen` | wingo-casino-new/api/webapi/games/games_handler.php:126-150 | a new active issue appended when none is open is well formed and the only open issue |
| `Games.NewIssueKeepsResults` | wingo-casino-new/api/webapi/games/games_handler.php:126-150 | an appended issue without outcome keeps exactly one result row per completed issue |
| `Games.NewIssueKeepsBets` | wingo-casino-new/api/webapi/games/games_handler.php:126-150 | appending an issue leaves every stored bet well formed |
| `Games.NewIssueKeepsTables` | wingo-casino-new/api/webapi/games/games_handler.php:126-150 | appending a new active issue when none is open keeps every table consistent |
| `Games.SettleBetAt` | wingo-casino-new/api/webapi/games/games_handler.php:193-223 | one iteration: the bet becomes settled as `calculateBetResult` says when it is on the issue, and users and ledger change exactly as paying that one bet says |
| `Games.ProcessBetsForIssue` | wingo-casino-new/api/webapi/games/games_handler.php:186-227 | the loop leaves the bets and the users and ledger as the settlement functions of their old values say, and keeps the ledger invariant. Bets are settled in table order; that is a modelling choice, because the SELECT has no ORDER BY |
| `Games.CompleteGame` | wingo-casino-new/api/webapi/games/games_handler.php:152-184 | the issue becomes completed with the outcome of the drawn digit, one result row is added, its bets are settled, no issue is left open, and the database stays valid |
| `Games.CreateNewGame` | wingo-casino-new/api/webapi/games/games_handler.php:126-150 | appends exactly the new active issue and returns it with its id, keeping the database valid |
| `Games.LockIssue` | wingo-casino-new/api/webapi/games/games_handler.php:49-54 | the open issue gets status locked, nothing else changes, and the database stays valid |
| `Games.AfterRead` | wingo-casino-new/api/webapi/games/games_handler.php:44-73 | after a read at `now` the selected issue is in the status lazy advancement gives it; only a completion adds an issue, and that new issue is open; without a completion no other table changes |
| `Games.LockThenRead` | wingo-casino-new/api/webapi/games/games_handler.php:49-59 | the lock written before a completion does not change what the completion makes of the round |
| `Games.CompleteAndRenew` | wingo-casino-new/api/webapi/games/games_handler.php:57-73 | a round whose end has passed is completed and settled, the completed row is returned, and a new round follows, all as `AfterRead` says, keeping the database valid |
| `Games.AdvanceRound` | wingo-casino-new/api/webapi/games/games_handler.php:42-74 | the selected open round moves on exactly as `AfterRead` says, the returned row is that issue as it then stands, an open issue remains, and the database stays valid |
| `Games.GetCurrentGame` | wingo-casino-new/api/webapi/games/games_handler.php:25-80 | with the current-round query executed as intended: with no open round, exactly one new active round is appended and returned, and nothing else changes. Otherwise the round that ends first is returned after moving on as `AfterRead` says: locked after its lock instant; after its end completed and settled, with a new active round appended. The database stays valid and an open round always exists afterwards |
| `Games.RecentLimit` | wingo-casino-new/api/webapi/games/games_handler.php:85-86 | the limit defaults to 10, keeps a requested value up to 50, and never exceeds 50 |
| `Bets.MatchesDigit` | wingo-casino-new/api/webapi/bet/bet_handler.php:49 | `/^[0-9]$/` matches exactly one digit followed by nothing or by a final newline |
| `Bets.ValueAllowed` | wingo-casino-new/api/webapi/bet/bet_handler.php:47-68 | an allowed value has a valid type and is non-empty; colour and size values have 3 to 6 characters; a colour value is allowed exactly when its lowercase form is red, green or violet |
| `Bets.CheckRequest` | wingo-casino-new/api/webapi/bet/bet_handler.php:37-77 | a request passes the field checks exactly when type and value are non-empty, the issue id is positive, the type is number, color or size, the value fits its type and MIN ≤ amount ≤ MAX; the odds returned are the type's |
| `Bets.HasBet` | wingo-casino-new/api/webapi/bet/bet_handler.php:103-108 | the duplicate query finds a row exactly when some bet has the same user, issue, type and value |
| `Bets.Refusal` | wingo-casino-new/api/webapi/bet/bet_handler.php:25-112 | a missing body and nothing else is refused as invalid JSON; the checks never report a storage failure; an accepted request names an existing issue and a user who can cover the stake |
| `Bets.AcceptedExactlyWhen` | wingo-casino-new/api/webapi/bet/bet_handler.php:79-112 | a bet is accepted exactly when the request is well formed, its issue exists and is pending or active, the user exists and can cover the stake, and no bet with the same key exists |
| `Bets.AcceptedStakeInRange` | wingo-casino-new/api/webapi/bet/bet_handler.php:47-77 | an accepted stake is within the configured limits and paid at 9 for numbers and 2 for colours and sizes |
| `Bets.ZeroNumberBetRefused` | wingo-casino-new/api/webapi/bet/bet_handler.php:37-39 | a number bet on "0" is refused as a missing field |
| `Bets.AcceptedNumberValues` | wingo-casino-new/api/webapi/bet/bet_handler.php:37-53 | an accepted number bet is on a digit 1 to 9, or is "0" followed by a newline. That value is not `empty`, PCRE's `$` matches before its newline, and it can arrive after `sanitizeInput` when a tag after the newline is stripped (`"0\n<b>"`); it wins when 0 is drawn |
| `Bets.CapitalisedColourAcceptedButLoses` | wingo-casino-new/api/webapi/bet/bet_handler.php:54-59 | a colour bet on "Red" is accepted at colour odds and loses on every draw |
| `Bets.BalanceCheckedBeforeDuplicate` | wingo-casino-new/api/webapi/bet/bet_handler.php:93-112 | a repeated bet is reported as insufficient balance when the user cannot cover it and as a duplicate when they can |
| `Bets.NoSecondIdenticalBet` | wingo-casino-new/api/webapi/bet/bet_handler.php:102-112 | a bet with the key of an existing bet is always refused |
| `Bets.StoredBetKeepsTables` | wingo-casino-new/api/webapi/bet/bet_handler.php:134-140 | storing a well-formed bet whose key is new keeps every bet well formed and keys unique |
| `Bets.StakeKeepsTables` | wingo-casino-new/api/webapi/bet/bet_handler.php:114-140 | debiting the stake with its ledger row and storing a well-formed bet with a new key keep every table consistent |
| `Bets.CommitStake` | wingo-casino-new/api/webapi/bet/bet_handler.php:118-140 | the three writes of an accepted bet: the account is replaced, one ledger row is appended, the bet is appended, and the database stays valid |
| `Bets.AbortStake` | wingo-casino-new/api/webapi/bet/bet_handler.php:114-165 | a stake transaction whose statement throws writes what precedes that statement and is then rolled back, leaving users and ledger as they were and the database valid |
| `Bets.StakeTransaction` | wingo-casino-new/api/webapi/bet/bet_handler.php:114-165 | the transaction commits exactly when no statement fails: then the account, one ledger row and the bet are written; otherwise nothing changes. The database stays valid |
| `Bets.PlaceBet` | wingo-casino-new/api/webapi/bet/bet_handler.php:22-166 | a refusal reports the first failing check and changes nothing. A storage failure reports a failure and changes nothing. Otherwise the balance drops by the stake, total_bets rises by it, one `bet` row goes from the old to the new balance, and one pending bet at the type's odds with potential_win = amount × odds is stored. The database stays valid |
| `Wallet.DepositRefusal` | wingo-casino-new/api/webapi/wallet/wallet_handler.php:99-123 | a deposit goes through exactly when the body decodes, the amount is positive and the user exists |
| `Wallet.WithdrawRefusal` | wingo-casino-new/api/webapi/wallet/wallet_handler.php:158-185 | a withdrawal goes through exactly when the body decodes, the amount is positive, the user exists and the balance covers it; it is refused as insufficient exactly when the balance is below the amount |
| `Wallet.DepositFunds` | wingo-casino-new/api/webapi/wallet/wallet_handler.php:96-153 | a refused deposit changes nothing; an accepted one sets balance = old + amount and appends one `deposit` row from old to new, keeping the database valid |
| `Wallet.WithdrawFunds` | wingo-casino-new/api/webapi/wallet/wallet_handler.php:155-214 | a refused withdrawal, an overdraft included, changes nothing; an accepted one sets balance = old − amount ≥ 0 and appends one `withdrawal` row from old to new, keeping the database valid |
| `Promotions.Available` | wingo-casino-new/api/webapi/promotion/promotion_handler.php:79-91 | an available promotion is active, and when it has both dates its start does not come after its end |
| `Promotions.TotalDeposits` | wingo-casino-new/api/webapi/promotion/promotion_handler.php:104-111 | the deposit total of the rows the bound user id selects is 0 when no row matches, as COALESCE gives; a NULL user id selects no row |
| `Promotions.TotalDepositsNonNegative` | wingo-casino-new/api/webapi/promotion/promotion_handler.php:104-111 | over a ledger of consistent rows, each with a positive amount, the deposit total is never negative, whatever user id is bound |
| `Promotions.DepositsSeenNonNegative` | wingo-casino-new/api/webapi/promotion/promotion_handler.php:103-131 | on every valid database the deposit total the bonus formula uses is never negative |
| `Promotions.Bonus` | wingo-casino-new/api/webapi/promotion/promotion_handler.php:126-137 | the bonus is the fixed amount, max_bonus or deposits × pct / 100, and differs from the fixed amount only for a deposit bonus with a positive percentage |
| `Promotions.BonusCapped` | wingo-casino-new/api/webapi/promotion/promotion_handler.php:128-134 | a percentage deposit bonus never exceeds a positive max_bonus. Under the cap it is the fixed amount when that is non-zero, and otherwise deposits × pct / 100 |
| `Promotions.FlatBonusOtherwise` | wingo-casino-new/api/webapi/promotion/promotion_handler.php:135-137 | every other promotion pays its fixed bonus amount, whatever the deposits |
| `Promotions.BonusMonotone` | wingo-casino-new/api/webapi/promotion/promotion_handler.php:128-137 | more deposits never give a smaller bonus |
| `Promotions.NoMinimumNoPercentageBonus` | wingo-casino-new/api/webapi/promotion/promotion_handler.php:103-131 | without a minimum deposit a percentage-only deposit bonus pays nothing, because the deposit total is never looked up |
| `Promotions.PercentageBonusNonNegative` | wingo-casino-new/api/webapi/promotion/promotion_handler.php:128-134 | on every valid database a percentage-only deposit bonus is never negative, so a claim never debits an account |
| `Promotions.HasClaim` | wingo-casino-new/api/webapi/promotion/promotion_handler.php:94-96 | the claim query finds a row exactly when a stored claim on the promotion has a user the bound id equals; a NULL id finds none |
| `Promotions.ClaimRefusal` | wingo-casino-new/api/webapi/promotion/promotion_handler.php:66-116 | with the bound user id as a parameter, a claim goes through exactly when the id is positive, the promotion exists and is active and current today, no claim on it has a user the bound id equals, and a positive min_deposit is met by the deposits that id selects |
| `Promotions.NoSecondClaim` | wingo-casino-new/api/webapi/promotion/promotion_handler.php:93-100 | a second claim of the same promotion by the same authenticated user is always refused; with the NULL id of the handler as written the duplicate check never fires |
| `Promotions.NonPositiveIdRefused` | wingo-casino-new/api/webapi/promotion/promotion_handler.php:72-76 | a non-positive promotion id is refused before any lookup |
| `Promotions.NewClaimKeepsTables` | wingo-casino-new/api/webapi/promotion/promotion_handler.php:121-123 | recording a claim nobody made before keeps every table consistent |
| `Promotions.RecordClaim` | wingo-casino-new/api/webapi/promotion/promotion_handler.php:121-123 | the claim insert appends exactly that claim and keeps the database valid |
| `Promotions.CreditBonus` | wingo-casino-new/api/webapi/promotion/promotion_handler.php:146-162 | the bonus credit replaces the account and appends one ledger row from the old to the new balance, keeping the database valid |
| `Promotions.AccountRow` | wingo-casino-new/api/webapi/promotion/promotion_handler.php:141-146 | the balance lookup finds an account exactly when a user id is bound and has an account, and then returns that account |
| `Promotions.ClaimPromotion` | wingo-casino-new/api/webapi/promotion/promotion_handler.php:62-178 | a refusal or a storage failure changes nothing. Otherwise the claim is recorded once. A positive bonus for an existing account raises its balance by the bonus and appends one `bonus` row from old to new. A zero bonus is still a successful claim, with no balance change. The database stays valid |
| `Promotions.ClaimAsWritten` | wingo-casino-new/api/webapi/promotion/promotion_handler.php:62-178 | the handler as written, binding NULL: the claim succeeds exactly when the checks pass for that id and the insert is not refused; a refusal stores no claim and changes no account and no ledger row |
| `Promotions.UnauthenticatedClaimCreditsNothing` | wingo-casino-new/api/webapi/promotion/promotion_handler.php:62-64 | as written no claim is ever a duplicate, the deposit total is 0 so any positive min_deposit refuses the claim, and no account or ledger row changes and no new balance is reported |

## Left out

- Authentication itself (JWT, the body of `authenticateUser`), password hashing, e-mail validation, routing, CORS and static files are foreign calls or plumbing. That the promotion handler never calls `authenticateUser` is modelled (see "## Findings").
- The admin, VIP, system, user-history and listing handlers (`getRecentGames`' query, `getMyBets`, `getUserTransactions`, `getAvailablePromotions`, `getMyPromotions`, `getGameSettings`) are read-only projections. Of `getRecentGames` only the limit clamp is modelled.
- `simulateNextGame` is a demo endpoint outside the round-and-money engine.
- `getWinningNumber` is `rand(0, 9)`. The drawn digit is a parameter of `Games.CompleteGame` and `Games.GetCurrentGame`, and its range is their precondition.
- `sanitizeInput` (`trim`, `strip_tags`, `htmlspecialchars`) is a library call. Requests carry the already-sanitised strings.
- `floatval` and `intval` of arbitrary JSON values are not modelled. Requests carry the converted numbers.
- Loose `==` for numeric strings with fractions or exponents ("5.0", "5e0") is not modelled. Only digit runs with surrounding whitespace are; accepted number bets are single digits.
- The duplicate-bet and duplicate-claim queries compare exactly. MySQL's case-insensitive, trailing-space-insensitive collation would also treat "Red" and "red" as duplicates. This means `Bets.PlaceBet` accepts a few requests the source would refuse as duplicates.
- DECIMAL values may reach PHP as strings. `?:` on "0.00" and fixed-point rounding are not modelled. Money is exact `real` and `?:` tests whether the number is zero.
- Timezones, timestamps (`created_at`, `updated_at`, `claimed_at`), `result_data` and the response bodies beyond the modelled results are not modelled.
- Storage failures in deposits, withdrawals and settlement are not modelled. Those writes are not wrapped in a transaction in the source, so a failure between them would leave a balance without its ledger row. Only `placeBet` and `claimPromotion` model failing statements with rollback.
- An auto-increment value consumed by a rolled-back insert is not modelled. Row ids stay dense.
- Concurrency is not modelled. Two simultaneous `getCurrentGame` calls could complete a round twice. The model is sequential, so it makes no claim about exactly-once settlement under races.
- Issue numbers can collide when two rounds on one day draw the same suffix. There are 900 suffixes and up to 1440 rounds a day. The model does not make issue numbers unique, and nothing in the core relies on it.
- `Promotions.ClaimPromotion`: models an authenticated caller, with `$user_id` bound as the bet and wallet handlers bind it. The promotion handler never calls `authenticateUser`, so as written every claim binds NULL and credits nothing (`Promotions.UnauthenticatedClaimCreditsNothing`, under "## Findings").
- `Promotions.NoSecondClaim`: the refusal of a second claim holds for an authenticated caller only; its second clause states that, with the NULL id of the handler as written, the duplicate check never fires.
- The `user_promotions` row with a NULL user id that the handler as written may store is not kept in the claims table. `Promotions.ClaimAsWritten` reports it as `claimStored`; no query of the handler can select it again.
- `Games.GetCurrentGame`: models the intended read, in which the current-round SELECT is executed and the INSERT binds its three values. As written the SELECT is never executed and the INSERT is refused (both under "## Findings"), so every read of the source ends in a failed creation: no round is ever locked or completed, and no bet is settled.
- `Games.CurrentIndex`: breaks ties between equal end times by the lowest id, and settlement processes bets in table order. The source leaves both orders to the database, so the order of `win` rows within one settlement is a modelling choice.

## Findings

| source | as written | input that shows it | evidently intended | confidence | as-written member | corrected member |
|---|---|---|---|---|---|---|
| wingo-casino-new/api/webapi/games/games_handler.php:29-37 | the current-round SELECT is prepared at line 29, but `$stmt->fetch()` at line 37 runs without an `execute()`. PDO's fetch on a statement that was never executed returns false, so `$current_game` is always false and every read calls `createNewGame()` | one `active` issue with end time 100, read at time 200: the source creates a round instead of locking and completing the open one, and its bets are never settled | execute the SELECT before fetching, so that an open round is found and advanced | high; not executed | `Games.UnexecutedSelectOpensSecondRound` | `Games.GetCurrentGame` |
| wingo-casino-new/api/webapi/games/games_handler.php:131-137 | `execute([1, $issue_number, $start_time, $end_time])` binds four values to an INSERT with three placeholders. With native prepared statements (config.php turns emulation off), PDO refuses this with an invalid-parameter-number error | every call of `createNewGame`, for any issue number, start and end | bind the issue number, start and end to the three placeholders, with game id 1 and status `active` written as literals, so that an active round is inserted | high; not executed | `Games.IssueInsertAsWrittenFails` | `Games.IssueInsertBindsIntendedRow` |
| wingo-casino-new/api/webapi/promotion/promotion_handler.php:62-64 | `claimPromotion` reads `global $user_id`, but the promotion handler never calls `authenticateUser()` (bet_handler.php:6 and wallet_handler.php:6 do) and the router sets no `$user_id`, so every query binds NULL. `user_id = NULL` selects no row | promotion 1 active, type `welcome`, bonus 50, no minimum deposit; user 7 with balance 100 claims it: the source finds no earlier claim, looks up no account, credits nothing, writes no `bonus` row and reports no new balance. With a positive minimum deposit the claim is always refused | authenticate the caller as the other handlers do (`$user_id = authenticateUser();`), so that the duplicate check, the deposit total and the credit use the caller's id | high; not executed | `Promotions.UnauthenticatedClaimCreditsNothing` | `Promotions.ClaimPromotion` |
