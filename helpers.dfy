/**
 * The shared game helpers: the outcome derived from a drawn digit, the
 * won/lost decision for a bet, issue numbers, round end times, and the
 * username and password rules.
 */
module Helpers {
  import opened Config
  import opened PhpText

  /** The `status` column of a bet. */
  datatype BetStatus = Pending | Won | Lost

  /** A calendar day, as `date()` formats it. */
  datatype Date = Date(year: int, month: int, day: int)

  predicate ValidDate(d: Date)
  {
    0 <= d.year <= 9999 && 1 <= d.month <= 12 && 1 <= d.day <= 31
  }

  /** `date('Ymd')`: four digits of year, two of month, two of day. */
  function DateStamp(d: Date): (s: string)
    requires ValidDate(d)
    ensures |s| == 8 && AllDigits(s)
  {
    Padded(d.year, 4) + Padded(d.month, 2) + Padded(d.day, 2)
  }

  // ---------------------------------------------------------------------
  // Outcome of a draw

  /** `getWinningColor`: 2, 4, 6, 8 are red; 1, 3, 7, 9 are green; anything else is violet. */
  function WinningColor(n: int): (c: string)
    ensures c == "red" || c == "green" || c == "violet"
  {
    if n in {2, 4, 6, 8} then "red"
    else if n in {1, 3, 7, 9} then "green"
    else "violet"
  }

  /** `getWinningSize`: five and above is big, below five is small. */
  function WinningSize(n: int): (s: string)
    ensures s == "big" || s == "small"
    ensures s == "big" <==> n >= 5
  {
    if n >= 5 then "big" else "small"
  }

  /**
   * On the ten digits the colour mapping is a partition, described
   * independently of the lists in the source: red is the non-zero even
   * digits, green the odd digits other than 5, violet the multiples of 5.
   */
  lemma ColourPartition(n: int)
    requires 0 <= n <= 9
    ensures WinningColor(n) == "red" <==> n % 2 == 0 && n != 0
    ensures WinningColor(n) == "green" <==> n % 2 == 1 && n != 5
    ensures WinningColor(n) == "violet" <==> n % 5 == 0
  {
  }

  // ---------------------------------------------------------------------
  // Settling one bet

  /**
   * `calculateBetResult`: a number bet wins when its value is loosely equal
   * to the drawn digit, a colour or size bet when its value is exactly the
   * drawn colour or size; any other bet type loses.
   */
  function CalculateBetResult(value: string, kind: string, number: nat, colour: string, size: string): (r: BetStatus)
    ensures r != Pending
  {
    if kind == "number" then (if LooseEqualsInt(value, number) then Won else Lost)
    else if kind == "color" then (if value == colour then Won else Lost)
    else if kind == "size" then (if value == size then Won else Lost)
    else Lost
  }

  /** The result of a bet against the outcome derived from digit d. */
  function ResultOnDraw(value: string, kind: string, d: nat): BetStatus
    requires d <= 9
  {
    CalculateBetResult(value, kind, d, WinningColor(d), WinningSize(d))
  }

  /** A number bet on digit v (as placed, a one-character string) wins exactly when v is drawn. */
  lemma NumberBetWinsOnItsDigit(v: int, d: nat)
    requires 0 <= v <= 9 && d <= 9
    ensures ResultOnDraw([DigitChar(v)], "number", d) == Won <==> v == d
  {
    DigitLooselyEquals(v, d);
  }

  /**
   * On every draw exactly one of the three lower-case colour bets wins and
   * exactly one of the two lower-case size bets wins.
   */
  lemma ExactlyOneColourAndOneSizeWin(d: nat)
    requires d <= 9
    ensures |set c | c in {"red", "green", "violet"} && ResultOnDraw(c, "color", d) == Won| == 1
    ensures |set z | z in {"big", "small"} && ResultOnDraw(z, "size", d) == Won| == 1
  {
    var c := WinningColor(d);
    assert (set x | x in {"red", "green", "violet"} && ResultOnDraw(x, "color", d) == Won) == {c};
    var z := WinningSize(d);
    assert (set x | x in {"big", "small"} && ResultOnDraw(x, "size", d) == Won) == {z};
  }

  /** A string with no upper-case ASCII letter is its own lower-case form. */
  lemma LowerOfLowerCase(s: string)
    requires forall i :: 0 <= i < |s| ==> !('A' <= s[i] <= 'Z')
    ensures Lower(s) == s
  {
  }

  /**
   * A colour or size bet whose value carries a capital letter ("Red", "BIG")
   * can never win, because the drawn colour and size are lower case and the
   * comparison is exact.
   */
  lemma CapitalisedBetNeverWins(value: string, kind: string, d: nat)
    requires d <= 9
    requires kind == "color" || kind == "size"
    requires Lower(value) != value
    ensures ResultOnDraw(value, kind, d) == Lost
  {
    var c, z := WinningColor(d), WinningSize(d);
    if value == c {
      LowerOfLowerCase(c);
      assert false;
    }
    if value == z {
      LowerOfLowerCase(z);
      assert false;
    }
  }

  /** A bet type outside number, color and size always loses. */
  lemma UnknownTypeLoses(value: string, kind: string, number: nat, colour: string, size: string)
    requires kind != "number" && kind != "color" && kind != "size"
    ensures CalculateBetResult(value, kind, number, colour, size) == Lost
  {
  }

  // ---------------------------------------------------------------------
  // Issue numbers and round times

  /** `generateIssueNumber`: today's `Ymd` stamp followed by the three-digit suffix drawn from 100..999. */
  function IssueNumber(today: Date, suffix: int): (s: string)
    requires ValidDate(today) && 100 <= suffix <= 999
    ensures |s| == 11 && AllDigits(s)
    ensures s[..8] == DateStamp(today)
  {
    assert Pow10(3) == 1000;
    DateStamp(today) + Padded(suffix, 3)
  }

  /** An issue number can be read back into the day and the suffix it was made from. */
  lemma IssueNumberDecodes(today: Date, suffix: int)
    requires ValidDate(today) && 100 <= suffix <= 999
    ensures var s := IssueNumber(today, suffix);
      DecimalValue(s[..4]) == today.year && DecimalValue(s[4..6]) == today.month &&
      DecimalValue(s[6..8]) == today.day && DecimalValue(s[8..]) == suffix
  {
    var s := IssueNumber(today, suffix);
    assert Pow10(2) == 100 && Pow10(3) == 1000 && Pow10(4) == 10000;
    assert s[..4] == Padded(today.year, 4);
    assert s[4..6] == Padded(today.month, 2);
    assert s[6..8] == Padded(today.day, 2);
    assert s[8..] == Padded(suffix, 3);
    PaddedDecodes(today.year, 4);
    PaddedDecodes(today.month, 2);
    PaddedDecodes(today.day, 2);
    PaddedDecodes(suffix, 3);
  }

  /** Different (day, suffix) pairs give different issue numbers. */
  lemma IssueNumberInjective(d1: Date, s1: int, d2: Date, s2: int)
    requires ValidDate(d1) && 100 <= s1 <= 999
    requires ValidDate(d2) && 100 <= s2 <= 999
    requires IssueNumber(d1, s1) == IssueNumber(d2, s2)
    ensures d1 == d2 && s1 == s2
  {
    IssueNumberDecodes(d1, s1);
    IssueNumberDecodes(d2, s2);
  }

  /**
   * `getGameEndTime`: a round ends one round duration after it starts, and the
   * lock instant (end minus the lock window) falls strictly inside the round.
   */
  function GameEndTime(start: int): (end: int)
    ensures end - start == GameDurationMinutes * 60
    ensures start < end - BetLockSecondsBeforeEnd < end
  {
    start + GameDurationMinutes * 60
  }

  // ---------------------------------------------------------------------
  // Account field rules

  /** Whether every character of s is a word character, scanned left to right. */
  function AllWordChars(s: string): (ok: bool)
    ensures ok <==> forall i :: 0 <= i < |s| ==> IsWordChar(s[i])
  {
    s == [] || (IsWordChar(s[0]) && AllWordChars(s[1..]))
  }

  /**
   * `validateUsername`: `^[a-zA-Z0-9_]{3,20}$`. PCRE's `$` also matches just
   * before a final newline, so one trailing "\n" is tolerated.
   */
  function ValidateUsername(s: string): (ok: bool)
    ensures ok <==>
      (3 <= |s| <= 20 && forall i :: 0 <= i < |s| ==> IsWordChar(s[i])) ||
      (4 <= |s| <= 21 && s[|s| - 1] == '\n' && forall i :: 0 <= i < |s| - 1 ==> IsWordChar(s[i]))
  {
    var t := if s != [] && s[|s| - 1] == '\n' then s[..|s| - 1] else s;
    3 <= |t| <= 20 && AllWordChars(t)
  }

  /**
   * `validatePassword`: at least six bytes. Six characters always suffice, and
   * since a character takes at most four bytes, one character never does.
   */
  function ValidatePassword(p: string): (ok: bool)
    ensures ok <==> Utf8Length(p) >= 6
    ensures |p| >= 6 ==> ok
    ensures ok ==> |p| >= 2
  {
    Utf8LengthBounds(p);
    Utf8Length(p) >= 6
  }

  /** For a password of ASCII characters the byte count is the character count, so six characters are needed. */
  lemma AsciiPasswordNeedsSixChars(p: string)
    requires forall i :: 0 <= i < |p| ==> p[i] as int < 0x80
    ensures ValidatePassword(p) <==> |p| >= 6
  {
    Utf8LengthOfAscii(p);
  }
}
