/** The verification-code issuer of AuthenticationService.generateVerificationCode:
    a random draw in [0, 900000) shifted into [100000, 999999] and rendered with
    String.valueOf, i.e. as its plain decimal digits. */
module VerificationCodes {

  /** Exclusive bound passed to Random.nextInt. */
  const DrawBound: int := 900000
  /** Offset added to the draw: the smallest code. */
  const CodeBase: int := 100000

  predicate IsDigit(c: char) {
    '0' <= c <= '9'
  }

  predicate IsDigits(s: string) {
    forall i :: 0 <= i < |s| ==> IsDigit(s[i])
  }

  /** A well-formed verification code: exactly six decimal digits, no leading zero. */
  predicate IsSixDigitCode(s: string) {
    |s| == 6 && IsDigits(s) && s[0] != '0'
  }

  function DigitChar(d: nat): (c: char)
    requires d < 10
    ensures IsDigit(c) && DigitValue(c) == d
  {
    (('0' as int) + d) as char
  }

  function DigitValue(c: char): nat
    requires IsDigit(c)
  {
    (c as int) - ('0' as int)
  }

  /** String.valueOf on a non-negative int: its decimal digits, most significant first. */
  function Decimal(n: nat): (s: string)
    ensures |s| >= 1 && IsDigits(s)
    decreases n
  {
    if n < 10 then [DigitChar(n)] else Decimal(n / 10) + [DigitChar(n % 10)]
  }

  /** Reading a digit string back as a number (the inverse of Decimal). */
  function ParseDecimal(s: string): nat
    requires IsDigits(s)
    decreases |s|
  {
    if s == [] then 0
    else
      ParseDecimal(s[..|s| - 1]) * 10 + DigitValue(s[|s| - 1])
  }

  function Pow10(k: nat): (p: nat)
    ensures p >= 1
  {
    if k == 0 then 1 else 10 * Pow10(k - 1)
  }

  /** Parsing undoes rendering, so distinct numbers render as distinct strings. */
  lemma {:induction false} ParseDecimalOfDecimal(n: nat)
    ensures ParseDecimal(Decimal(n)) == n
    decreases n
  {
    var s := Decimal(n);
    if n >= 10 {
      assert s[..|s| - 1] == Decimal(n / 10);
      ParseDecimalOfDecimal(n / 10);
    }
  }

  /** A number with k digits renders as exactly k characters. */
  lemma {:induction false} DecimalLength(n: nat, k: nat)
    requires k >= 1 && Pow10(k - 1) <= n < Pow10(k)
    ensures |Decimal(n)| == k
    decreases k
  {
    if k > 1 {
      assert Pow10(k - 1) == 10 * Pow10(k - 2);
      DecimalLength(n / 10, k - 1);
    }
  }

  /** A positive number renders without a leading zero. */
  lemma {:induction false} DecimalNoLeadingZero(n: nat)
    requires n >= 1
    ensures Decimal(n)[0] != '0'
    decreases n
  {
    if n >= 10 {
      DecimalNoLeadingZero(n / 10);
    }
  }

  /** Every number in [100000, 999999] renders as exactly six characters. */
  lemma SixDigitLength(n: nat)
    requires CodeBase <= n <= 999999
    ensures |Decimal(n)| == 6
  {
    assert Pow10(2) == 100;
    assert Pow10(4) == 10000;
    assert Pow10(6) == 1000000;
    DecimalLength(n, 6);
  }

  lemma DecimalInjective(m: nat, n: nat)
    requires Decimal(m) == Decimal(n)
    ensures m == n
  {
    ParseDecimalOfDecimal(m);
    ParseDecimalOfDecimal(n);
  }

  /** generateVerificationCode: draw is the value Random.nextInt(900000) returned. */
  function GenerateVerificationCode(draw: int): (code: string)
    requires 0 <= draw < DrawBound
    ensures IsSixDigitCode(code)
    ensures CodeBase <= ParseDecimal(code) <= 999999
    ensures ParseDecimal(code) == draw + CodeBase
  {
    var n := draw + CodeBase;
    SixDigitLength(n);
    DecimalNoLeadingZero(n);
    ParseDecimalOfDecimal(n);
    Decimal(n)
  }

  /** Different draws give different codes: a reissued code never equals the
      previous one unless the draw repeats. */
  lemma GeneratedCodesDistinct(d1: int, d2: int)
    requires 0 <= d1 < DrawBound && 0 <= d2 < DrawBound
    requires d1 != d2
    ensures GenerateVerificationCode(d1) != GenerateVerificationCode(d2)
  {
  }
}
