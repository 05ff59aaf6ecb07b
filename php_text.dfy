/**
 * The few PHP string facilities the core relies on, stated on Dafny strings:
 * decimal digits and zero-padded formatting (`sprintf('%03d')`, `date('Ymd')`),
 * ASCII lower-casing (`strtolower`), `empty()` on a string, the loose `==`
 * between a string and an integer, and `strlen`, which counts UTF-8 bytes.
 */
module PhpText {
  import opened Wrappers

  predicate IsDigit(c: char) { '0' <= c <= '9' }

  function DigitValue(c: char): (d: int)
    requires IsDigit(c)
    ensures 0 <= d <= 9
  {
    c as int - '0' as int
  }

  function DigitChar(d: int): (c: char)
    requires 0 <= d <= 9
    ensures IsDigit(c) && DigitValue(c) == d
  {
    ('0' as int + d) as char
  }

  predicate AllDigits(s: string) { forall i :: 0 <= i < |s| ==> IsDigit(s[i]) }

  function Pow10(w: nat): (p: nat)
    ensures p >= 1
  {
    if w == 0 then 1 else 10 * Pow10(w - 1)
  }

  /** The value of a string of decimal digits, most significant first. */
  function DecimalValue(s: string): nat
    requires AllDigits(s)
  {
    if s == [] then 0 else 10 * DecimalValue(s[..|s| - 1]) + DigitValue(s[|s| - 1])
  }

  /** `sprintf('%0<w>d', n)`: n written in exactly w digits, with leading zeros. */
  function Padded(n: nat, w: nat): (s: string)
    requires n < Pow10(w)
    ensures |s| == w && AllDigits(s)
  {
    if w == 0 then "" else Padded(n / 10, w - 1) + [DigitChar(n % 10)]
  }

  /** Reading a zero-padded number back gives the number. */
  lemma {:induction false} PaddedDecodes(n: nat, w: nat)
    requires n < Pow10(w)
    ensures DecimalValue(Padded(n, w)) == n
  {
    if w > 0 {
      var s := Padded(n, w);
      assert s[..|s| - 1] == Padded(n / 10, w - 1);
      PaddedDecodes(n / 10, w - 1);
    }
  }

  /** PHP's string form of a non-negative integer (as interpolated into a message). */
  function DecimalString(n: nat): (s: string)
    ensures |s| >= 1 && AllDigits(s)
  {
    if n < 10 then [DigitChar(n)] else DecimalString(n / 10) + [DigitChar(n % 10)]
  }

  lemma {:induction false} DecimalStringDecodes(n: nat)
    ensures DecimalValue(DecimalString(n)) == n
  {
    var s := DecimalString(n);
    if n >= 10 {
      assert s[..|s| - 1] == DecimalString(n / 10);
      DecimalStringDecodes(n / 10);
    } else {
      assert s[..0] == [];
    }
  }

  /** An integer as PHP interpolates it into a string. */
  function IntString(n: int): (s: string)
    ensures |s| >= 1
  {
    if n >= 0 then DecimalString(n) else "-" + DecimalString(-n)
  }

  /** `strtolower`: ASCII upper case letters become lower case, every other character is kept. */
  function LowerChar(c: char): char
  {
    if 'A' <= c <= 'Z' then (c as int + 32) as char else c
  }

  function Lower(s: string): string
  {
    seq(|s|, i requires 0 <= i < |s| => LowerChar(s[i]))
  }

  /** `empty($s)` for a string: true for the empty string and for "0". */
  predicate IsEmpty(s: string) { s == "" || s == "0" }

  /** The characters PHP 8 allows around a numeric string: space, \t, \n, \r, \v, \f. */
  predicate IsPhpSpace(c: char)
  {
    c == ' ' || c == '\t' || c == '\n' || c == '\r' || c as int == 11 || c as int == 12
  }

  function TrimLeft(s: string): (r: string)
    ensures |r| <= |s|
    ensures r == [] || !IsPhpSpace(r[0])
  {
    if s != [] && IsPhpSpace(s[0]) then TrimLeft(s[1..]) else s
  }

  function TrimRight(s: string): (r: string)
    ensures |r| <= |s|
    ensures r == [] || !IsPhpSpace(r[|r| - 1])
  {
    if s != [] && IsPhpSpace(s[|s| - 1]) then TrimRight(s[..|s| - 1]) else s
  }

  /**
   * The integer a string stands for when PHP compares it with `==` against an
   * integer: the string is numeric when, after surrounding whitespace, it is a
   * non-empty run of decimal digits.
   */
  function IntegerValue(s: string): Option<nat>
  {
    var t := TrimRight(TrimLeft(s));
    if t != [] && AllDigits(t) then Some(DecimalValue(t)) else None
  }

  /** `$s == $n` for a string s and a non-negative integer n. */
  predicate LooseEqualsInt(s: string, n: nat) { IntegerValue(s) == Some(n) }

  /** A single digit, as a string, is loosely equal to exactly its own value. */
  lemma DigitLooselyEquals(v: int, n: nat)
    requires 0 <= v <= 9
    ensures LooseEqualsInt([DigitChar(v)], n) <==> v == n
  {
    var s := [DigitChar(v)];
    assert !IsPhpSpace(s[0]);
    assert TrimRight(TrimLeft(s)) == s;
    assert s[..0] == [];
    assert DecimalValue(s) == v;
  }

  /** PCRE `\w` without the Unicode flag: [a-zA-Z0-9_]. */
  predicate IsWordChar(c: char)
  {
    ('a' <= c <= 'z') || ('A' <= c <= 'Z') || IsDigit(c) || c == '_'
  }

  /** Number of bytes a character takes in UTF-8. */
  function Utf8Width(c: char): (w: nat)
    ensures 1 <= w <= 4
  {
    if c as int < 0x80 then 1 else if c as int < 0x800 then 2 else if c as int < 0x10000 then 3 else 4
  }

  /** `strlen`: the number of bytes of the UTF-8 encoding. */
  function Utf8Length(s: string): nat
  {
    if s == [] then 0 else Utf8Length(s[..|s| - 1]) + Utf8Width(s[|s| - 1])
  }

  /** Every character takes one to four bytes. */
  lemma {:induction false} Utf8LengthBounds(s: string)
    ensures |s| <= Utf8Length(s) <= 4 * |s|
  {
    if s != [] {
      Utf8LengthBounds(s[..|s| - 1]);
    }
  }

  /** On ASCII text the byte count is the character count. */
  lemma {:induction false} Utf8LengthOfAscii(s: string)
    requires forall i :: 0 <= i < |s| ==> s[i] as int < 0x80
    ensures Utf8Length(s) == |s|
  {
    if s != [] {
      Utf8LengthOfAscii(s[..|s| - 1]);
    }
  }
}
