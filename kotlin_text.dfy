/**
 * The pieces of the Kotlin standard library that the shopping list relies on:
 * `String.toIntOrNull()`, proved against a reference definition of the
 * decimal literals it accepts; `Int.toString()`, proved to write such a
 * literal in canonical form; and `CharSequence.isBlank()`/`isNotBlank()`,
 * defined directly from their documented meaning (every character, or
 * some character, is whitespace, or not).
 */
module KotlinText {

  datatype Option<T> = None | Some(value: T)

  const MinInt32: int := -0x8000_0000
  const MaxInt32: int := 0x7FFF_FFFF

  /** Kotlin's `Int`: a 32-bit two's-complement integer. */
  type Int32 = x: int | MinInt32 <= x <= MaxInt32

  // ---------------------------------------------------------------------------
  // Decimal digits and the number a digit string denotes
  // ---------------------------------------------------------------------------

  /** Decimal digits as `toIntOrNull` sees them (ASCII only in this model). */
  predicate IsDigit(c: char) {
    '0' <= c <= '9'
  }

  function DigitValue(c: char): (d: nat)
    requires IsDigit(c)
    ensures d < 10
  {
    (c as int) - ('0' as int)
  }

  function DigitChar(d: nat): (c: char)
    requires d < 10
    ensures IsDigit(c) && DigitValue(c) == d
  {
    ('0' as int + d) as char
  }

  predicate AllDigits(s: string) {
    forall i :: 0 <= i < |s| ==> IsDigit(s[i])
  }

  /** The value of a digit string, most significant digit first. */
  function DigitsValue(s: string): nat
    requires AllDigits(s)
  {
    if s == [] then 0 else DigitsValue(s[..|s| - 1]) * 10 + DigitValue(s[|s| - 1])
  }

  function Pow10(n: nat): nat {
    if n == 0 then 1 else 10 * Pow10(n - 1)
  }

  /** A digit string is worth at least its leading digit times its place value. */
  lemma {:induction false} LeadingDigitBound(s: string)
    requires |s| > 0 && AllDigits(s)
    ensures DigitsValue(s) >= DigitValue(s[0]) * Pow10(|s| - 1)
  {
    if |s| > 1 {
      var p := s[..|s| - 1];
      assert p[0] == s[0];
      LeadingDigitBound(p);
      var a := DigitValue(s[0]);
      var b := Pow10(|p| - 1);
      assert DigitsValue(p) >= a * b;
      assert DigitsValue(s) >= DigitsValue(p) * 10;
      assert Pow10(|s| - 1) == 10 * b;
      assert a * (10 * b) == (a * b) * 10;
    }
  }

  // ---------------------------------------------------------------------------
  // Reference definition of what toIntOrNull accepts
  // ---------------------------------------------------------------------------

  predicate HasSign(s: string) {
    |s| > 0 && (s[0] == '-' || s[0] == '+')
  }

  /** The text after an optional leading sign. */
  function Unsigned(s: string): string {
    if HasSign(s) then s[1..] else s
  }

  /** An optional `+` or `-` followed by one or more decimal digits. */
  predicate IsDecimalLiteral(s: string) {
    Unsigned(s) != [] && AllDigits(Unsigned(s))
  }

  /** The mathematical value of a decimal literal, of any size. */
  function LiteralValue(s: string): int
    requires IsDecimalLiteral(s)
  {
    if s[0] == '-' then -(DigitsValue(s[1..]) as int) else DigitsValue(Unsigned(s))
  }

  /** `toIntOrNull` succeeds exactly on decimal literals whose value fits in an `Int`. */
  predicate ParsesToInt32(s: string) {
    IsDecimalLiteral(s) && MinInt32 <= LiteralValue(s) <= MaxInt32
  }

  // ---------------------------------------------------------------------------
  // toIntOrNull, digit by digit with an overflow limit
  // ---------------------------------------------------------------------------

  lemma PrefixExtend(d: string, i: nat)
    requires i < |d| && AllDigits(d[..i]) && IsDigit(d[i])
    ensures AllDigits(d[..i + 1])
    ensures DigitsValue(d[..i + 1]) == DigitsValue(d[..i]) * 10 + DigitValue(d[i])
  {
    assert d[..i + 1][..i] == d[..i];
  }

  /** A prefix of a digit string never denotes more than the whole string. */
  lemma {:induction false} PrefixValueLe(d: string, i: nat)
    requires i <= |d| && AllDigits(d)
    ensures AllDigits(d[..i]) && DigitsValue(d[..i]) <= DigitsValue(d)
    decreases |d| - i
  {
    if i == |d| {
      assert d[..i] == d;
    } else {
      PrefixValueLe(d, i + 1);
      PrefixExtend(d, i);
    }
  }

  /**
   * Reads the digits d[i..] onto `acc`, the value of d[..i], and gives up
   * (None) on a non-digit or as soon as the value passes `bound`, the way the
   * library's loop stops before the accumulator can overflow.
   */
  function AccumulateDigits(d: string, i: nat, acc: nat, bound: nat): (r: Option<nat>)
    requires i <= |d| && AllDigits(d[..i]) && acc == DigitsValue(d[..i]) && acc <= bound
    ensures r.Some? <==> AllDigits(d) && DigitsValue(d) <= bound
    ensures r.Some? ==> r.value == DigitsValue(d)
    decreases |d| - i
  {
    if i == |d| then
      assert d[..i] == d;
      Some(acc)
    else if !IsDigit(d[i]) then
      None
    else
      PrefixExtend(d, i);
      var next := acc * 10 + DigitValue(d[i]);
      if next > bound then
        (if AllDigits(d) then PrefixValueLe(d, i + 1); None else None)
      else
        AccumulateDigits(d, i + 1, next, bound)
  }

  /**
   * Kotlin's `String.toIntOrNull()` in radix 10: a sign is looked for only
   * when the first character sorts below '0'; a lone sign, a non-digit or a
   * value outside the `Int` range gives null.
   */
  function ToIntOrNull(s: string): (r: Option<Int32>)
    ensures r.Some? <==> ParsesToInt32(s)
    ensures r.Some? ==> r.value == LiteralValue(s)
  {
    if |s| == 0 then
      None
    else if s[0] < '0' then
      if |s| == 1 then
        None
      else if s[0] == '-' then
        match AccumulateDigits(s[1..], 0, 0, -MinInt32)
        case Some(m) => Some(-(m as int))
        case None => None
      else if s[0] == '+' then
        match AccumulateDigits(s[1..], 0, 0, MaxInt32)
        case Some(m) => Some(m)
        case None => None
      else
        None
    else
      match AccumulateDigits(s, 0, 0, MaxInt32)
      case Some(m) => Some(m)
      case None => None
  }

  // ---------------------------------------------------------------------------
  // Int.toString and the round trip through toIntOrNull
  // ---------------------------------------------------------------------------

  /** Decimal digits of n without leading zeros ("0" for zero). */
  function NatToString(n: nat): (r: string)
    ensures r != [] && AllDigits(r)
    ensures |r| == 1 <==> n < 10
    ensures |r| > 1 ==> r[0] != '0'
    ensures r == "0" <==> n == 0
  {
    if n < 10 then [DigitChar(n)] else NatToString(n / 10) + [DigitChar(n % 10)]
  }

  /**
   * Kotlin's `Int.toString()`: a minus sign exactly for negative numbers,
   * never a plus sign, then decimal digits without leading zeros; "0" only
   * for zero (no "-0").
   */
  function IntToString(n: int): (r: string)
    ensures r != [] && (r[0] == '-' <==> n < 0) && r[0] != '+'
    ensures Unsigned(r) != [] && AllDigits(Unsigned(r))
    ensures |Unsigned(r)| > 1 ==> Unsigned(r)[0] != '0'
    ensures Unsigned(r) == "0" <==> n == 0
  {
    if n < 0 then
      var r := "-" + NatToString(-n);
      assert r[1..] == NatToString(-n);
      r
    else
      var r := NatToString(n);
      assert IsDigit(r[0]);
      r
  }

  lemma {:induction false} NatToStringValue(n: nat)
    ensures NatToString(n) != [] && AllDigits(NatToString(n))
    ensures DigitsValue(NatToString(n)) == n
  {
    if n >= 10 {
      NatToStringValue(n / 10);
      var s := NatToString(n / 10);
      var t := s + [DigitChar(n % 10)];
      assert t[..|t| - 1] == s;
    }
  }

  /** `Int.toString()` always writes a decimal literal denoting the number. */
  lemma IntToStringLiteral(n: int)
    ensures IsDecimalLiteral(IntToString(n)) && LiteralValue(IntToString(n)) == n
  {
    var s := IntToString(n);
    if n < 0 {
      NatToStringValue(-n);
      assert s[0] == '-' && s[1..] == NatToString(-n);
    } else {
      NatToStringValue(n);
      assert s[0] == NatToString(n)[0];
      assert !HasSign(s);
    }
  }

  /** Every `Int` survives `toString()` followed by `toIntOrNull()`. */
  lemma ToIntOrNullOfToString(n: Int32)
    ensures ToIntOrNull(IntToString(n)) == Some(n)
  {
    IntToStringLiteral(n);
    var r := ToIntOrNull(IntToString(n));
    assert r.Some? && r.value == n;
  }

  // ---------------------------------------------------------------------------
  // isNotBlank
  // ---------------------------------------------------------------------------

  /**
   * Kotlin's `Char.isWhitespace()` on the JVM (`Character.isWhitespace` or
   * `Character.isSpaceChar`), as a fixed list of code points: the controls
   * U+0009..U+000D and U+001C..U+001F, and the Unicode space, line and
   * paragraph separators. It does not follow later changes to the Unicode
   * tables.
   */
  predicate IsWhitespace(c: char) {
    ('\t' <= c <= '\r') || ('\U{1C}' <= c <= ' ') || c == '\U{A0}' || c == '\U{1680}'
    || ('\U{2000}' <= c <= '\U{200A}') || c == '\U{2028}' || c == '\U{2029}'
    || c == '\U{202F}' || c == '\U{205F}' || c == '\U{3000}'
  }

  /** `isBlank()`: checks the characters in order and fails on the first non-whitespace one. */
  function IsBlank(s: string): (r: bool)
    ensures r <==> forall i :: 0 <= i < |s| ==> IsWhitespace(s[i])
  {
    if s == [] then true else IsWhitespace(s[0]) && IsBlank(s[1..])
  }

  /** `isNotBlank()`, the negation of `isBlank()`: some character is not whitespace. */
  function IsNotBlank(s: string): (r: bool)
    ensures r <==> exists i :: 0 <= i < |s| && !IsWhitespace(s[i])
    ensures s == [] ==> !r
  {
    !IsBlank(s)
  }
}
