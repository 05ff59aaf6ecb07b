/** The game and money constants of the site configuration. */
module Config {

  /** Smallest and largest stake a single bet may carry. */
  const MinBetAmount: real := 1.0
  const MaxBetAmount: real := 1000.0

  /** A round lasts this many minutes. */
  const GameDurationMinutes: int := 1

  /** Betting closes this many seconds before a round ends. */
  const BetLockSecondsBeforeEnd: int := 10

  /** Payout multipliers per bet type (9:1 for a digit, 2:1 for a colour or a size). */
  const NumberOdds: real := 9.0
  const ColorOdds: real := 2.0
  const SizeOdds: real := 2.0
}
