/**
 * `number_format($amount, 2, '.', '')` as `createOrder` uses it for the `amount` field, on
 * exact reals: rounded half away from zero to cents, then written with exactly two
 * decimals, `.` as the decimal point and no thousands separator.
 */
module NumberFormat {
  import opened PhpString

  /** PHP's `round()` to an integer: the nearest integer, halves away from zero. */
  function RoundHalfAwayFromZero(x: real): (n: int)
    ensures x >= 0.0 ==> n as real - 0.5 <= x < n as real + 0.5
    ensures x < 0.0 ==> n as real - 0.5 < x <= n as real + 0.5
  {
    if x >= 0.0 then (x + 0.5).Floor else -((0.5 - x).Floor)
  }

  /** The amount rounded to a whole number of cents. */
  function Cents(amount: real): int {
    RoundHalfAwayFromZero(amount * 100.0)
  }

  /** Two decimal digits, with a leading zero. */
  function TwoDigits(n: nat): (s: string)
    requires n < 100
    ensures |s| == 2 && AllDigits(s) && ParseNat(s) == n
  {
    var s := [DigitChar(n / 10), DigitChar(n % 10)];
    assert s[..1] == [DigitChar(n / 10)] && s[..1][..0] == [];
    assert ParseNat(s[..1]) == n / 10;
    s
  }

  /** The digits before the decimal point, after an optional minus sign. */
  function IntegerPart(s: string): string
    requires |s| >= 3
  {
    if |s| > 3 && s[0] == '-' then s[1..|s| - 3] else s[..|s| - 3]
  }

  /**
   * An optional `-`, one or more digits, `.`, and exactly two digits: nothing else, in
   * particular no thousands separator.
   */
  predicate TwoDecimals(s: string) {
    && |s| >= 4
    && s[|s| - 3] == '.'
    && AllDigits(s[|s| - 2..])
    && |IntegerPart(s)| >= 1 && AllDigits(IntegerPart(s))
  }

  /** The number a string of that form denotes. */
  function DecimalValue(s: string): real
    requires TwoDecimals(s)
  {
    var magnitude := ParseNat(IntegerPart(s)) as real + ParseNat(s[|s| - 2..]) as real / 100.0;
    if s[0] == '-' then -magnitude else magnitude
  }

  /** `number_format($amount, 2, '.', '')`; a minus sign only when the rounded value is below zero. */
  function FormatAmount(amount: real): (s: string)
    ensures TwoDecimals(s)
    ensures s[0] == '-' <==> Cents(amount) < 0
  {
    var c := Cents(amount);
    var a: nat := if c < 0 then -c else c;
    var s := (if c < 0 then "-" else "") + NatToString(a / 100) + "." + TwoDigits(a % 100);
    assert s[|s| - 2..] == TwoDigits(a % 100);
    assert IntegerPart(s) == NatToString(a / 100);
    assert c >= 0 ==> s[0] == NatToString(a / 100)[0];
    s
  }

  /** The formatted amount denotes exactly the amount rounded to cents. */
  lemma FormatAmountValue(amount: real)
    ensures DecimalValue(FormatAmount(amount)) == Cents(amount) as real / 100.0
  {
    var c := Cents(amount);
    var a: nat := if c < 0 then -c else c;
    var s := FormatAmount(amount);
    assert s[|s| - 2..] == TwoDigits(a % 100);
    assert IntegerPart(s) == NatToString(a / 100);
    assert s[0] == '-' <==> c < 0;
    assert a == 100 * (a / 100) + a % 100;
    assert a as real == 100.0 * (a / 100) as real + (a % 100) as real;
  }

  /** The rounded amount is within half a cent of the amount. */
  lemma FormatAmountNearest(amount: real)
    ensures -0.005 <= DecimalValue(FormatAmount(amount)) - amount <= 0.005
  {
    FormatAmountValue(amount);
    var c := Cents(amount);
    assert c as real - 0.5 <= amount * 100.0 <= c as real + 0.5;
  }
}
