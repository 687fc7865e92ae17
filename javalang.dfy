/** The few pieces of `java.lang` arithmetic and text handling that the card code relies on. */
module JavaLang {
  import opened Wrappers

  const TwoTo31: int := 0x8000_0000
  const TwoTo32: int := 0x1_0000_0000

  /** A Java `int`. */
  type Int32 = x: int | -0x8000_0000 <= x < 0x8000_0000

  /** Two's-complement wrap-around of an exact result to a Java `int`. */
  function Wrap32(x: int): (r: Int32)
    ensures -TwoTo31 <= x < TwoTo31 ==> r == x
    ensures x < -TwoTo31 && x >= -TwoTo31 - TwoTo32 ==> r == x + TwoTo32
  {
    (x + TwoTo31) % TwoTo32 - TwoTo31
  }

  /** Java's `/` on `int`, which truncates toward zero (Dafny's `/` is Euclidean). */
  function JavaDiv(a: int, d: int): (q: int)
    requires d > 0
    ensures a >= 0 ==> q == a / d
    ensures a < 0 ==> q <= 0
    ensures -d < a - q * d < d
    ensures a >= 0 ==> a - q * d >= 0
    ensures a < 0 ==> a - q * d <= 0
  {
    if a >= 0 then a / d else -((-a) / d)
  }

  /** `Integer.compare`: the sign of `a - b`, as -1, 0 or 1. */
  function IntegerCompare(a: int, b: int): (r: int)
    ensures r == -1 || r == 0 || r == 1
    ensures r < 0 <==> a < b
    ensures r == 0 <==> a == b
  {
    if a < b then -1 else if a == b then 0 else 1
  }

  // ---------------------------------------------------------------------------
  // Characters and strings
  // ---------------------------------------------------------------------------

  /** `Character.toUpperCase` restricted to ASCII letters. */
  function AsciiUpper(ch: char): (u: char)
    ensures !('a' <= u <= 'z')
    ensures 'a' <= ch <= 'z' ==> 'A' <= u <= 'Z' && u as int == ch as int - 0x20
    ensures !('a' <= ch <= 'z') ==> u == ch
  {
    if 'a' <= ch <= 'z' then (ch as int - 'a' as int + 'A' as int) as char else ch
  }

  /** `String.toUpperCase` restricted to ASCII letters. */
  function ToUpperCase(s: string): (r: string)
    ensures |r| == |s|
    ensures forall i :: 0 <= i < |s| ==> r[i] == AsciiUpper(s[i])
  {
    seq(|s|, i requires 0 <= i < |s| => AsciiUpper(s[i]))
  }

  function DigitChar(d: nat): (ch: char)
    requires d < 10
    ensures '0' <= ch <= '9' && ch as int - '0' as int == d
  {
    ('0' as int + d) as char
  }

  predicate AllDecimalDigits(s: string) {
    forall i :: 0 <= i < |s| ==> '0' <= s[i] <= '9'
  }

  /** The value of a string of decimal digits, most significant first. */
  function DecimalValue(digits: string): (v: nat)
    requires AllDecimalDigits(digits)
  {
    if digits == [] then 0
    else 10 * DecimalValue(digits[..|digits| - 1]) + (digits[|digits| - 1] as int - '0' as int)
  }

  /** `Integer.toString` of a non-negative value: its decimal digits, most significant first,
      which read back as the value. */
  function DecimalString(n: nat): (r: string)
    ensures |r| > 0
    ensures AllDecimalDigits(r) && DecimalValue(r) == n
    ensures n > 0 ==> r[0] != '0'
    ensures r[|r| - 1] as int - '0' as int == n % 10
  {
    if n < 10 then
      assert [DigitChar(n)][..0] == [];
      [DigitChar(n)]
    else
      var prefix := DecimalString(n / 10);
      var r := prefix + [DigitChar(n % 10)];
      assert r[..|r| - 1] == prefix;
      r
  }

  // ---------------------------------------------------------------------------
  // Base-16 text: `Integer.parseInt(s, 16)` and its inverse rendering
  // ---------------------------------------------------------------------------

  /** The ASCII digits that `Character.digit(ch, 16)` accepts. */
  predicate IsHexDigit(ch: char) {
    '0' <= ch <= '9' || 'a' <= ch <= 'f' || 'A' <= ch <= 'F'
  }

  predicate AllHexDigits(s: string) {
    forall i :: 0 <= i < |s| ==> IsHexDigit(s[i])
  }

  function HexDigitValue(ch: char): (v: nat)
    requires IsHexDigit(ch)
    ensures v < 16
  {
    if '0' <= ch <= '9' then ch as int - '0' as int
    else if 'a' <= ch <= 'f' then ch as int - 'a' as int + 10
    else ch as int - 'A' as int + 10
  }

  /** The value of a string of base-16 digits, most significant first. */
  function HexValue(digits: string): (v: nat)
    requires AllHexDigits(digits)
  {
    if digits == [] then 0
    else 16 * HexValue(digits[..|digits| - 1]) + HexDigitValue(digits[|digits| - 1])
  }

  /** The text after the optional leading `-` or `+`. */
  function DigitsAfterSign(s: string): (d: string)
    requires s != []
    ensures |d| == |s| || |d| == |s| - 1
  {
    if s[0] == '-' || s[0] == '+' then s[1..] else s
  }

  /** `Integer.parseInt(s, 16)`: an optional sign, then at least one base-16 digit,
      and the signed value must fit in an `int`; anything else throws. */
  function ParseInt16(s: string): (r: Result<Int32>)
    ensures r.Ok? <==>
      s != [] && DigitsAfterSign(s) != [] && AllHexDigits(DigitsAfterSign(s)) &&
      (if s[0] == '-' then HexValue(DigitsAfterSign(s)) <= TwoTo31 else HexValue(DigitsAfterSign(s)) < TwoTo31)
    ensures r.Ok? ==>
      r.value == (if s[0] == '-' then -(HexValue(DigitsAfterSign(s)) as int) else HexValue(DigitsAfterSign(s)))
    ensures (|s| > 0 && AllHexDigits(s) && HexValue(s) < TwoTo31) ==> r == Ok(HexValue(s))
  {
    if s == [] then Err
    else
      var negative := s[0] == '-';
      var digits := if s[0] == '-' || s[0] == '+' then s[1..] else s;
      if digits == [] || !AllHexDigits(digits) then Err
      else
        var v: int := HexValue(digits);
        if negative then (if v <= TwoTo31 then Ok(-v) else Err)
        else (if v < TwoTo31 then Ok(v) else Err)
  }

  function HexChar(d: nat): (ch: char)
    requires d < 16
    ensures IsHexDigit(ch) && HexDigitValue(ch) == d
  {
    if d < 10 then ('0' as int + d) as char else ('A' as int + d - 10) as char
  }

  /** Upper-case base-16 rendering without leading zeros (`"1F0A1"`). */
  function ToHex(n: nat): (r: string)
    ensures |r| > 0
    ensures AllHexDigits(r)
    ensures r[0] != '-' && r[0] != '+'
  {
    if n < 16 then [HexChar(n)] else ToHex(n / 16) + [HexChar(n % 16)]
  }

  /** Parsing undoes rendering. */
  lemma {:induction false} HexValueOfToHex(n: nat)
    ensures HexValue(ToHex(n)) == n
  {
    if n >= 16 {
      var r := ToHex(n);
      assert r[..|r| - 1] == ToHex(n / 16);
      HexValueOfToHex(n / 16);
    }
  }

  /** `Integer.parseInt(s, 16)` reads back every non-negative `int` rendered by `ToHex`. */
  lemma ParseInt16OfToHex(n: nat)
    requires n < TwoTo31
    ensures ParseInt16(ToHex(n)) == Ok(n)
  {
    HexValueOfToHex(n);
  }

  /** A leading zero digit does not change the value. */
  lemma {:induction false} HexValueLeadingZero(digits: string)
    requires AllHexDigits(digits)
    ensures AllHexDigits("0" + digits) && HexValue("0" + digits) == HexValue(digits)
  {
    if digits != [] {
      var t := "0" + digits;
      assert t[..|t| - 1] == "0" + digits[..|digits| - 1];
      HexValueLeadingZero(digits[..|digits| - 1]);
    }
  }

  /** Appending a digit multiplies the value so far by 16 and adds the digit. */
  lemma HexValueAppend(digits: string, ch: char)
    requires AllHexDigits(digits) && IsHexDigit(ch)
    ensures AllHexDigits(digits + [ch])
    ensures HexValue(digits + [ch]) == 16 * HexValue(digits) + HexDigitValue(ch)
  {
    assert (digits + [ch])[..|digits|] == digits;
  }
}
