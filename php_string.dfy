/**
 * The PHP string builtins the payment core relies on, on strings as sequences of characters.
 * A PHP string is a byte string; the model's `string` stands for it, and `ByteString` marks
 * the strings whose every character is a byte.
 */
module PhpString {

  predicate ByteString(s: string) {
    forall i :: 0 <= i < |s| ==> s[i] as int < 256
  }

  /** PHP truthiness of a string (`!empty($s)`, `if ($s)`): only "" and "0" are falsy. */
  predicate Truthy(s: string) {
    s != "" && s != "0"
  }

  /** Number of occurrences of `c` in `s`. */
  function Count(c: char, s: string): nat {
    if |s| == 0 then 0 else (if s[0] == c then 1 else 0) + Count(c, s[1..])
  }

  // ---------------------------------------------------------------------------
  // implode / explode

  /** `implode($glue, $parts)`. */
  function Implode(glue: string, parts: seq<string>): string {
    if |parts| == 0 then ""
    else if |parts| == 1 then parts[0]
    else parts[0] + glue + Implode(glue, parts[1..])
  }

  /**
   * `explode($sep, $s)` for a one-character separator: always at least one part (an empty
   * string gives `[""]`), one more part than there are separators, no part holds the
   * separator, and gluing the parts back gives `s`.
   */
  function Explode(sep: char, s: string): (parts: seq<string>)
    ensures |parts| == Count(sep, s) + 1
    ensures forall i :: 0 <= i < |parts| ==> sep !in parts[i]
    ensures Implode([sep], parts) == s
  {
    if |s| == 0 then [""]
    else
      var rest := Explode(sep, s[1..]);
      if s[0] == sep then
        assert s == [sep] + s[1..];
        [""] + rest
      else
        var parts := [[s[0]] + rest[0]] + rest[1..];
        assert |rest| > 1 ==> Implode([sep], parts) == [s[0]] + (rest[0] + [sep] + Implode([sep], rest[1..]));
        assert s == [s[0]] + s[1..];
        parts
  }

  lemma {:induction false} ExplodePlain(sep: char, a: string)
    requires sep !in a
    ensures Explode(sep, a) == [a]
    decreases |a|
  {
    if |a| > 0 {
      ExplodePlain(sep, a[1..]);
      assert a == [a[0]] + a[1..];
    }
  }

  lemma {:induction false} ExplodeAfterPart(sep: char, a: string, b: string)
    requires sep !in a
    ensures Explode(sep, a + [sep] + b) == [a] + Explode(sep, b)
    decreases |a|
  {
    var s := a + [sep] + b;
    if |a| == 0 {
      assert s[1..] == b;
    } else {
      ExplodeAfterPart(sep, a[1..], b);
      assert s[1..] == a[1..] + [sep] + b;
      assert [a[0]] + a[1..] == a;
    }
  }

  /** Exploding what was imploded with the same separator gives the parts back. */
  lemma {:induction false} ExplodeImplode(sep: char, parts: seq<string>)
    requires |parts| >= 1
    requires forall i :: 0 <= i < |parts| ==> sep !in parts[i]
    ensures Explode(sep, Implode([sep], parts)) == parts
  {
    if |parts| == 1 {
      ExplodePlain(sep, parts[0]);
    } else {
      ExplodeImplode(sep, parts[1..]);
      ExplodeAfterPart(sep, parts[0], Implode([sep], parts[1..]));
      assert parts == [parts[0]] + parts[1..];
    }
  }

  // ---------------------------------------------------------------------------
  // rtrim, substr, str_replace

  /** `rtrim($s, $c)`: strips every trailing `c`, and nothing else. */
  function RTrim(s: string, c: char): (r: string)
    ensures r <= s
    ensures |r| == 0 || r[|r| - 1] != c
    ensures forall i :: |r| <= i < |s| ==> s[i] == c
  {
    if |s| == 0 || s[|s| - 1] != c then s else RTrim(s[..|s| - 1], c)
  }

  lemma RTrimAppended(s: string, c: char)
    ensures RTrim(s + [c], c) == RTrim(s, c)
  {
    assert (s + [c])[..|s|] == s;
  }

  /** `substr($s, 0, $n)`. */
  function Prefix(s: string, n: nat): (r: string)
    ensures |r| <= n && r <= s
    ensures |s| <= n ==> r == s
  {
    if |s| <= n then s else s[..n]
  }

  /** `str_replace($c, '', $s)` for one character: every `c` removed, every other kept in order. */
  function RemoveChar(s: string, c: char): (r: string)
    ensures c !in r
    ensures |r| + Count(c, s) == |s|
    ensures c !in s ==> r == s
  {
    if |s| == 0 then ""
    else if s[0] == c then RemoveChar(s[1..], c)
    else
      assert s == [s[0]] + s[1..];
      [s[0]] + RemoveChar(s[1..], c)
  }

  // ---------------------------------------------------------------------------
  // strtoupper (ASCII, as in PHP 8.2 and later)

  function UpperChar(c: char): char {
    if 'a' <= c <= 'z' then (c as int - 32) as char else c
  }

  /** `strtoupper`: ASCII lower-case letters become upper-case, every other character stays. */
  function ToUpper(s: string): (r: string)
    ensures |r| == |s|
    ensures forall i :: 0 <= i < |s| ==> r[i] == UpperChar(s[i])
  {
    if |s| == 0 then "" else [UpperChar(s[0])] + ToUpper(s[1..])
  }

  lemma ToUpperIdempotent(s: string)
    ensures ToUpper(ToUpper(s)) == ToUpper(s)
  {
    assert forall i :: 0 <= i < |s| ==> ToUpper(ToUpper(s))[i] == ToUpper(s)[i];
  }

  // ---------------------------------------------------------------------------
  // decimal integers

  predicate IsDigit(c: char) {
    '0' <= c <= '9'
  }

  predicate AllDigits(s: string) {
    forall i :: 0 <= i < |s| ==> IsDigit(s[i])
  }

  function DigitChar(d: nat): (c: char)
    requires d < 10
    ensures IsDigit(c) && c as int - '0' as int == d
  {
    ('0' as int + d) as char
  }

  /** The value of a string of decimal digits. */
  function ParseNat(s: string): nat
    requires AllDigits(s)
  {
    if |s| == 0 then 0 else 10 * ParseNat(s[..|s| - 1]) + (s[|s| - 1] as int - '0' as int)
  }

  /** PHP's decimal form of a non-negative integer: digits only, no leading zero, reads back as `n`. */
  function NatToString(n: nat): (s: string)
    ensures |s| >= 1 && AllDigits(s)
    ensures |s| > 1 ==> s[0] != '0'
    ensures ParseNat(s) == n
    decreases n
  {
    if n < 10 then [DigitChar(n)]
    else
      var s := NatToString(n / 10) + [DigitChar(n % 10)];
      assert s[..|s| - 1] == NatToString(n / 10);
      s
  }

  lemma NatToStringThreeDigits(n: nat)
    requires 100 <= n <= 999
    ensures |NatToString(n)| == 3
  {
    assert |NatToString(n / 100)| == 1;
    assert |NatToString(n / 10)| == 2;
  }

  /** PHP's decimal form of an integer (as when an `int` is concatenated or cast to string). */
  function IntToString(i: int): (s: string)
    ensures i >= 0 ==> s == NatToString(i)
    ensures i < 0 ==> s == "-" + NatToString(-i)
  {
    if i < 0 then "-" + NatToString(-i) else NatToString(i)
  }

  // ---------------------------------------------------------------------------
  // hexadecimal digits

  predicate IsHexDigit(c: char) {
    '0' <= c <= '9' || 'a' <= c <= 'f' || 'A' <= c <= 'F'
  }

  /** The value of a hexadecimal digit of either case; 0 for any other character. */
  function HexValue(c: char): (v: nat)
    ensures v < 16
  {
    if '0' <= c <= '9' then c as int - '0' as int
    else if 'a' <= c <= 'f' then c as int - 'a' as int + 10
    else if 'A' <= c <= 'F' then c as int - 'A' as int + 10
    else 0
  }

  /** Lower-case hexadecimal digit, as `bin2hex` writes it. */
  function LowerHexDigit(d: nat): (c: char)
    requires d < 16
    ensures IsHexDigit(c) && HexValue(c) == d && !('A' <= c <= 'Z')
  {
    if d < 10 then ('0' as int + d) as char else ('a' as int + d - 10) as char
  }

  /** Upper-case hexadecimal digit, as `urlencode` writes it. */
  function UpperHexDigit(d: nat): (c: char)
    requires d < 16
    ensures IsHexDigit(c) && HexValue(c) == d
  {
    if d < 10 then ('0' as int + d) as char else ('A' as int + d - 10) as char
  }

  // ---------------------------------------------------------------------------
  // urlencode / urldecode

  /** `urldecode`: `+` is a space, `%` and two hex digits is that byte, anything else is itself. */
  function UrlDecode(s: string): string
    decreases |s|
  {
    if |s| == 0 then ""
    else if s[0] == '+' then " " + UrlDecode(s[1..])
    else if s[0] == '%' && |s| >= 3 && IsHexDigit(s[1]) && IsHexDigit(s[2]) then
      [(16 * HexValue(s[1]) + HexValue(s[2])) as char] + UrlDecode(s[3..])
    else [s[0]] + UrlDecode(s[1..])
  }

  /** The characters `urlencode` leaves as they are. */
  predicate Unreserved(c: char) {
    '0' <= c <= '9' || 'A' <= c <= 'Z' || 'a' <= c <= 'z' || c == '-' || c == '.' || c == '_'
  }

  /** `urlencode` of one byte; a character above 255 has no PHP counterpart and is written as its low byte. */
  function EncodeChar(c: char): string {
    if c == ' ' then "+"
    else if Unreserved(c) then [c]
    else
      var b := c as int % 256;
      ['%', UpperHexDigit(b / 16), UpperHexDigit(b % 16)]
  }

  /** `urlencode`. */
  function UrlEncode(s: string): (r: string)
    ensures forall i :: 0 <= i < |r| ==> Unreserved(r[i]) || r[i] == '+' || r[i] == '%'
  {
    if |s| == 0 then "" else EncodeChar(s[0]) + UrlEncode(s[1..])
  }

  /** A `%XY` escape with two hex digits decodes to the byte they spell. */
  lemma DecodeEscape(hi: char, lo: char, t: string)
    requires IsHexDigit(hi) && IsHexDigit(lo)
    ensures UrlDecode(['%', hi, lo] + t) == [(16 * HexValue(hi) + HexValue(lo)) as char] + UrlDecode(t)
  {
    assert (['%', hi, lo] + t)[3..] == t;
  }

  /** A character other than `+` and `%` decodes to itself. */
  lemma DecodeLiteral(c: char, t: string)
    requires c != '+' && c != '%'
    ensures UrlDecode([c] + t) == [c] + UrlDecode(t)
  {
    assert ([c] + t)[1..] == t;
  }

  /** `+` decodes to a space. */
  lemma DecodePlus(t: string)
    ensures UrlDecode("+" + t) == " " + UrlDecode(t)
  {
    assert ("+" + t)[1..] == t;
  }

  /** Decoding undoes the encoding of one byte. */
  lemma DecodeEncodedChar(c: char, t: string)
    requires c as int < 256
    ensures UrlDecode(EncodeChar(c) + t) == [c] + UrlDecode(t)
  {
    if c == ' ' {
      assert EncodeChar(c) == "+";
      DecodePlus(t);
    } else if Unreserved(c) {
      assert EncodeChar(c) == [c];
      DecodeLiteral(c, t);
    } else {
      var b := c as int;
      assert b % 256 == b;
      var hi, lo := UpperHexDigit(b / 16), UpperHexDigit(b % 16);
      assert EncodeChar(c) == ['%', hi, lo];
      DecodeEscape(hi, lo, t);
      assert 16 * HexValue(hi) + HexValue(lo) == b;
    }
  }

  /** `urldecode(urlencode($s)) === $s` for every byte string. */
  lemma {:induction false} UrlDecodeEncode(s: string)
    requires ByteString(s)
    ensures UrlDecode(UrlEncode(s)) == s
  {
    if |s| > 0 {
      UrlDecodeEncode(s[1..]);
      DecodeEncodedChar(s[0], UrlEncode(s[1..]));
      assert s == [s[0]] + s[1..];
    }
  }

  /** A value with no `%` and no `+` is left unchanged by `urldecode`. */
  lemma {:induction false} UrlDecodePlain(s: string)
    requires '%' !in s && '+' !in s
    ensures UrlDecode(s) == s
  {
    if |s| > 0 {
      UrlDecodePlain(s[1..]);
      assert s == [s[0]] + s[1..];
    }
  }
}
