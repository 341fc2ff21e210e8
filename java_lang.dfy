/**
 * The few pieces of the Java platform that the shell task pool relies on:
 * nullable references, integer division and remainder (which truncate
 * toward zero), decimal rendering of integers (`String.valueOf`, `%02d`),
 * `String.trim` and the regular-expression class `\s`. Numbers are
 * rendered as in a locale whose digits are the ASCII digits, and strings
 * are sequences of code points.
 */
module JavaLang {

  /** A Java reference that may be null. */
  datatype Nullable<T> = Null | NonNull(value: T)

  /** `String.valueOf` of a string reference, as `StringBuilder.append` renders it. */
  function StringValueOf(s: Nullable<string>): string {
    if s.Null? then "null" else s.value
  }

  /** What a Java call does when it may dereference null. */
  datatype Outcome<T> = Returns(value: T) | ThrowsNullPointer

  // ---------------------------------------------------------------------
  // Integer division and remainder

  /** Java's `a / b`: the quotient truncated toward zero. */
  function Div(a: int, b: int): int
    requires b > 0
  {
    if a >= 0 then a / b else -((-a) / b)
  }

  /** Java's `a % b`: the remainder has the sign of the dividend. */
  function Rem(a: int, b: int): int
    requires b > 0
  {
    if a >= 0 then a % b else -((-a) % b)
  }

  /** Dafny's division on a non-negative dividend: quotient and remainder recompose it. */
  lemma NatDivMod(n: int, b: int)
    requires n >= 0 && b > 0
    ensures (n / b) * b + n % b == n && 0 <= n % b < b && n / b >= 0
  {
    assert n == b * (n / b) + n % b;
  }

  /**
   * The defining identity of Java's integer division: quotient and
   * remainder recompose the dividend, the remainder is smaller than the
   * divisor in magnitude and carries the dividend's sign.
   */
  lemma DivRemTruncate(a: int, b: int)
    requires b > 0
    ensures Div(a, b) * b + Rem(a, b) == a
    ensures a >= 0 ==> 0 <= Rem(a, b) < b && Div(a, b) >= 0
    ensures a <= 0 ==> -b < Rem(a, b) <= 0 && Div(a, b) <= 0
  {
    var n := if a >= 0 then a else -a;
    NatDivMod(n, b);
    var q, r := n / b, n % b;
    if a < 0 {
      assert Div(a, b) == -q && Rem(a, b) == -r;
      assert (-q) * b == -(q * b);
    }
  }

  /** A non-zero multiple of `b` is at least `b` away from zero. */
  lemma MultipleAwayFromZero(x: int, b: int)
    requires b > 0
    ensures x >= 1 ==> x * b >= b
    ensures x <= -1 ==> x * b <= -b
  {
  }

  /**
   * Java's quotient and remainder are the only pair that recomposes the
   * dividend with a remainder of the dividend's sign below the divisor.
   */
  lemma RemUnique(a: int, b: int, q: int, r: int)
    requires b > 0 && a == q * b + r
    requires a >= 0 ==> 0 <= r < b
    requires a <= 0 ==> -b < r <= 0
    ensures Div(a, b) == q && Rem(a, b) == r
  {
    DivRemTruncate(a, b);
    assert (q - Div(a, b)) * b == Rem(a, b) - r;
    MultipleAwayFromZero(q - Div(a, b), b);
  }

  // ---------------------------------------------------------------------
  // Decimal rendering

  predicate IsDigit(c: char) {
    '0' <= c <= '9'
  }

  predicate AllDigits(s: string) {
    forall k :: 0 <= k < |s| ==> IsDigit(s[k])
  }

  function DigitChar(d: nat): (c: char)
    requires d < 10
    ensures IsDigit(c) && (c as int) - ('0' as int) == d
  {
    ((('0' as int) + d) as char)
  }

  /** The value of a string of decimal digits, most significant first. */
  function DigitsValue(s: string): nat
    requires AllDigits(s)
  {
    if s == [] then 0
    else DigitsValue(s[..|s| - 1]) * 10 + ((s[|s| - 1] as int) - ('0' as int))
  }

  /** Decimal digits of a natural number, without leading zeros. */
  function NatToString(n: nat): (s: string)
    ensures 1 <= |s| && AllDigits(s)
    ensures n < 10 ==> |s| == 1
    ensures 10 <= n < 100 ==> |s| == 2
    ensures n >= 10 ==> |s| >= 2
    decreases n
  {
    if n < 10 then [DigitChar(n)] else NatToString(n / 10) + [DigitChar(n % 10)]
  }

  /** Reading the digits back gives the number that was rendered. */
  lemma {:induction false} NatToStringRoundTrip(n: nat)
    ensures DigitsValue(NatToString(n)) == n
    ensures NatToString(n)[0] == '0' ==> n == 0
    decreases n
  {
    var s := NatToString(n);
    if n >= 10 {
      NatToStringRoundTrip(n / 10);
      assert s[..|s| - 1] == NatToString(n / 10);
    }
  }

  /** `String.valueOf(n)` for an integer: an optional minus sign, then the digits. */
  function IntToString(n: int): string {
    if n < 0 then "-" + NatToString(-n) else NatToString(n)
  }

  /** A string of the shape `String.valueOf` produces. */
  predicate IsDecimal(s: string) {
    if |s| > 0 && s[0] == '-' then |s| > 1 && AllDigits(s[1..]) else |s| > 0 && AllDigits(s)
  }

  /** `Integer.parseInt` on a well-formed decimal string. */
  function ParseDecimal(s: string): int
    requires IsDecimal(s)
  {
    if s[0] == '-' then -(DigitsValue(s[1..]) as int) else DigitsValue(s)
  }

  /** Rendering an integer and parsing it back gives the same integer. */
  lemma IntToStringRoundTrip(n: int)
    ensures IsDecimal(IntToString(n)) && ParseDecimal(IntToString(n)) == n
  {
    var s := IntToString(n);
    if n < 0 {
      NatToStringRoundTrip(-n);
      assert s[1..] == NatToString(-n);
    } else {
      NatToStringRoundTrip(n);
    }
  }

  /** A decimal string holds nothing but digits and a leading minus sign. */
  lemma DecimalAvoids(s: string, c: char)
    requires IsDecimal(s) && !IsDigit(c) && c != '-'
    ensures forall k :: 0 <= k < |s| ==> s[k] != c
  {
    if s[0] == '-' {
      forall k | 1 <= k < |s| ensures s[k] != c {
        assert s[k] == s[1..][k - 1];
      }
    }
  }

  /** A decimal of digits only parses as the value of its digits. */
  lemma ParseDigits(s: string)
    requires |s| > 0 && AllDigits(s)
    ensures IsDecimal(s) && ParseDecimal(s) == DigitsValue(s)
  {
    assert IsDigit(s[0]);
  }

  /** A single digit after a `0`: two digits that read back to the digit. */
  lemma PaddedDigit(v: nat)
    requires v < 10
    ensures var r := "0" + NatToString(v);
      |r| == 2 && AllDigits(r) && DigitsValue(r) == v
  {
    NatToStringRoundTrip(v);
    var r := "0" + NatToString(v);
    assert r[..1] == "0";
  }

  /** `String.valueOf` of a negative value: a minus sign, then a non-zero digit. */
  lemma NegativeDecimal(v: int)
    requires v < 0
    ensures var r := IntToString(v);
      |r| >= 2 && r[0] == '-' && r[1] != '0' && IsDecimal(r) && ParseDecimal(r) == v
  {
    IntToStringRoundTrip(v);
    NatToStringRoundTrip(-v);
    assert IntToString(v)[1] == NatToString(-v)[0];
  }

  /**
   * `String.format("%02d", v)`: the decimal of `v`, zero-padded to a width
   * of two and no further. A negative value already has two characters
   * (the sign and a digit), so it is never padded.
   */
  function Format02d(v: int): (r: string)
    ensures IsDecimal(r) && ParseDecimal(r) == v
    ensures |r| >= 2
    ensures 0 <= v < 100 ==> |r| == 2
    ensures v >= 0 ==> AllDigits(r) && DigitsValue(r) == v
    ensures v >= 0 && |r| > 2 ==> r[0] != '0'
    ensures v < 0 ==> r[0] == '-' && r[1] != '0'
  {
    if v < 0 then
      NegativeDecimal(v);
      IntToString(v)
    else if v < 10 then
      PaddedDigit(v);
      ParseDigits("0" + NatToString(v));
      "0" + NatToString(v)
    else
      NatToStringRoundTrip(v);
      ParseDigits(NatToString(v));
      NatToString(v)
  }

  // ---------------------------------------------------------------------
  // String.trim

  /** `String.trim` removes every character up to U+0020 at either end. */
  predicate IsTrimmed(c: char) {
    c <= ' '
  }

  function TrimStart(s: string): (r: string)
    ensures |r| <= |s| && r == s[|s| - |r|..]
    ensures r == [] || !IsTrimmed(r[0])
    ensures forall k :: 0 <= k < |s| - |r| ==> IsTrimmed(s[k])
  {
    if s != [] && IsTrimmed(s[0]) then TrimStart(s[1..]) else s
  }

  function TrimEnd(s: string): (r: string)
    ensures |r| <= |s| && r == s[..|r|]
    ensures r == [] || !IsTrimmed(r[|r| - 1])
    ensures forall k :: |r| <= k < |s| ==> IsTrimmed(s[k])
  {
    if s != [] && IsTrimmed(s[|s| - 1]) then TrimEnd(s[..|s| - 1]) else s
  }

  function Trim(s: string): string {
    TrimEnd(TrimStart(s))
  }

  /** A string every character of which `trim` removes. */
  predicate IsBlank(s: string) {
    forall k :: 0 <= k < |s| ==> IsTrimmed(s[k])
  }

  /** `s.trim().length() > 0` holds exactly when some character of `s` is above U+0020. */
  lemma TrimEmptyIffBlank(s: string)
    ensures |Trim(s)| == 0 <==> IsBlank(s)
  {
  }

  // ---------------------------------------------------------------------
  // Regular expressions

  /** The class `\s` of `java.util.regex`: space, tab, newline, vertical tab, form feed, return. */
  predicate IsRegexSpace(c: char) {
    c == ' ' || c == '\t' || c == '\n' || c == '\U{000B}' || c == '\U{000C}' || c == '\r'
  }
}
