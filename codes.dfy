/** The six-digit one-time codes: `random.nextInt(900000) + 100000`, rendered by
    String.valueOf. The same generator issues delivery codes (DriverService) and
    activation / password codes (RegisterLoginService). */
module Codes {

  /** The bound passed to Random.nextInt and the offset added to its result. */
  const DrawBound := 900000
  const CodeBase := 100000

  /** A value Random.nextInt(900000) can return. */
  type Draw = d: int | 0 <= d < 900000

  predicate IsDigit(c: char) { '0' <= c <= '9' }

  predicate IsDigits(s: string) { forall i :: 0 <= i < |s| ==> IsDigit(s[i]) }

  /** Exactly six decimal digits, the first of them not '0'. */
  predicate IsSixDigitCode(s: string) { |s| == 6 && IsDigits(s) && s[0] != '0' }

  function DigitChar(d: nat): (c: char)
    requires d < 10
    ensures IsDigit(c) && (c == '0' <==> d == 0)
  {
    ('0' as int + d) as char
  }

  function DigitValue(c: char): nat
    requires IsDigit(c)
  {
    (c as int - '0' as int) as nat
  }

  /** String.valueOf of a non-negative int: its decimal digits, most significant first. */
  function DecimalString(n: nat): string
    decreases n
  {
    if n < 10 then [DigitChar(n)] else DecimalString(n / 10) + [DigitChar(n % 10)]
  }

  /** Reads a string of decimal digits back as a number. */
  function ParseDecimal(s: string): nat
    requires IsDigits(s)
    decreases |s|
  {
    if s == [] then 0 else 10 * ParseDecimal(s[..|s| - 1]) + DigitValue(s[|s| - 1])
  }

  function Pow10(k: nat): (p: nat)
    ensures p >= 1
  {
    if k == 0 then 1 else 10 * Pow10(k - 1)
  }

  /** Decimal rendering and parsing are inverse: the code a user types back is
      read as the number that was drawn. */
  lemma {:induction false} ParseDecimalString(n: nat)
    ensures IsDigits(DecimalString(n)) && ParseDecimal(DecimalString(n)) == n
    decreases n
  {
    var s := DecimalString(n);
    if n < 10 {
      assert s[..|s| - 1] == [];
    } else {
      ParseDecimalString(n / 10);
      var t := DecimalString(n / 10);
      assert s == t + [DigitChar(n % 10)];
      assert s[..|s| - 1] == t;
      assert DigitValue(DigitChar(n % 10)) == n % 10;
    }
  }

  /** A number between 10^k and 10^(k+1) has k+1 digits and no leading zero. */
  lemma {:induction false} DecimalStringLength(n: nat, k: nat)
    requires Pow10(k) <= n < Pow10(k + 1)
    ensures |DecimalString(n)| == k + 1 && DecimalString(n)[0] != '0'
    decreases k
  {
    if k == 0 {
      assert n < 10 && n != 0;
    } else {
      assert n >= 10;
      DecimalStringLength(n / 10, k - 1);
      assert DecimalString(n) == DecimalString(n / 10) + [DigitChar(n % 10)];
    }
  }

  /** generateDeliveryCode / generateVerificationCode for the value the random
      source drew. */
  function GenerateCode(draw: Draw): (code: string)
    ensures IsSixDigitCode(code)
    ensures ParseDecimal(code) == CodeBase + draw
  {
    var n := draw + CodeBase;
    assert Pow10(5) == 100000 && Pow10(6) == 1000000;
    DecimalStringLength(n, 5);
    ParseDecimalString(n);
    DecimalString(n)
  }

  /** Different draws give different codes. */
  lemma GenerateCodeInjective(a: Draw, b: Draw)
    ensures GenerateCode(a) == GenerateCode(b) <==> a == b
  {
    if GenerateCode(a) == GenerateCode(b) {
      assert ParseDecimal(GenerateCode(a)) == ParseDecimal(GenerateCode(b));
    }
  }
}
