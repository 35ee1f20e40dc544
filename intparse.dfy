/**
 * The integer coercion of a scalar: Go's strconv.ParseInt(s, 10, 64) with its
 * error discarded.  On a syntax error the value is 0; on a range error it is
 * the nearest 64-bit bound.  Only ASCII digits are accepted, after an optional
 * sign; the digits are consumed left to right and an overflow is reported as
 * soon as the digits seen exceed 2^64 - 1, before any later bad character.
 */
module IntParse {

  import opened Wrappers

  const MinInt64: int := -0x8000_0000_0000_0000
  const MaxInt64: int := 0x7fff_ffff_ffff_ffff
  const MaxUint64: int := 0xffff_ffff_ffff_ffff

  predicate IsDecimalDigit(c: char) {
    '0' <= c <= '9'
  }

  predicate AllDigits(s: string) {
    forall j :: 0 <= j < |s| ==> IsDecimalDigit(s[j])
  }

  function DigitValue(c: char): nat
    requires IsDecimalDigit(c)
  {
    (c as int) - ('0' as int)
  }

  /** The value of a digit string, most significant digit first. */
  function DigitsValue(s: string): nat
    requires AllDigits(s)
  {
    if s == [] then 0 else DigitsValue(s[..|s| - 1]) * 10 + DigitValue(s[|s| - 1])
  }

  /** Length of the longest prefix of `s` made of digits. */
  function DigitPrefix(s: string): (k: nat)
    ensures k <= |s| && AllDigits(s[..k])
    ensures k == |s| || !IsDecimalDigit(s[k])
  {
    if s == [] || !IsDecimalDigit(s[0]) then 0
    else
      var k := 1 + DigitPrefix(s[1..]);
      assert s[..k] == [s[0]] + s[1..][..k - 1];
      k
  }

  /** strconv.ParseUint(s, 10, 64): Some(value) when it succeeds or overflows (then 2^64 - 1), None on a syntax error. */
  function ParseUint(s: string): (r: Option<nat>)
    ensures r.Some? ==> r.value <= MaxUint64
  {
    var d := s[..DigitPrefix(s)];
    if DigitsValue(d) > MaxUint64 then Some(MaxUint64)
    else if s != [] && d == s then Some(DigitsValue(s))
    else None
  }

  /** The value strconv.ParseInt(s, 10, 64) returns, whatever its error. */
  function ParseInt(s: string): (r: int)
    ensures MinInt64 <= r <= MaxInt64
  {
    var neg := |s| > 0 && s[0] == '-';
    var digits := if |s| > 0 && (s[0] == '+' || s[0] == '-') then s[1..] else s;
    match ParseUint(digits)
    case None => 0
    case Some(u) =>
      if !neg && u > MaxInt64 then MaxInt64
      else if neg && u > -MinInt64 then MinInt64
      else if neg then -(u as int)
      else u
  }

  function DigitChar(d: nat): (c: char)
    requires d < 10
    ensures IsDecimalDigit(c) && DigitValue(c) == d
  {
    (('0' as int) + d) as char
  }

  /** Decimal digits of n without leading zeros (an independent formatter, as strconv.Itoa). */
  function NatDigits(n: nat): (s: string)
    ensures s != [] && AllDigits(s)
  {
    if n < 10 then [DigitChar(n)] else NatDigits(n / 10) + [DigitChar(n % 10)]
  }

  function FormatInt(k: int): string {
    if k < 0 then "-" + NatDigits(-k) else NatDigits(k)
  }

  lemma {:induction false} NatDigitsValue(n: nat)
    ensures DigitsValue(NatDigits(n)) == n
  {
    if n >= 10 {
      var s := NatDigits(n);
      assert s[..|s| - 1] == NatDigits(n / 10);
      NatDigitsValue(n / 10);
    }
  }

  lemma AllDigitsPrefix(s: string)
    requires AllDigits(s)
    ensures DigitPrefix(s) == |s|
  {
  }

  /** Parsing the decimal form of any 64-bit integer gives it back. */
  lemma ParseFormat(k: int)
    requires MinInt64 <= k <= MaxInt64
    ensures ParseInt(FormatInt(k)) == k
  {
    var n: nat := if k < 0 then -k else k;
    var digits := NatDigits(n);
    AllDigitsPrefix(digits);
    assert digits[..|digits|] == digits;
    NatDigitsValue(n);
    if k < 0 {
      assert FormatInt(k)[1..] == digits;
    }
  }

  /** Text that is not a signed decimal, such as "36.2K", parses as 0. */
  lemma NotDecimalIsZero()
    ensures ParseInt("36.2K") == 0 && ParseInt("") == 0 && ParseInt("-") == 0 && ParseInt("none") == 0
  {
    assert DigitPrefix("36.2K") == 2;
    assert "36.2K"[..2] == "36";
    assert DigitsValue("36") == 36 by {
      assert "36"[..1] == "3";
      assert "3"[..0] == "";
    }
    assert DigitPrefix("none") == 0;
    assert "-"[1..] == "";
  }

  /**
   * Every syntax error parses as 0: after an optional sign, the text is
   * empty or holds a non-digit, and the digits before the first non-digit
   * do not already exceed 2^64 - 1.
   */
  lemma SyntaxErrorIsZero(s: string)
    requires var d := if |s| > 0 && (s[0] == '+' || s[0] == '-') then s[1..] else s;
             d == [] || (DigitPrefix(d) < |d| && DigitsValue(d[..DigitPrefix(d)]) <= MaxUint64)
    ensures ParseInt(s) == 0
  {
  }

  /** Out-of-range decimals saturate at the 64-bit bounds. */
  lemma Saturates(n: nat)
    requires n > MaxInt64
    ensures ParseInt(NatDigits(n)) == MaxInt64
    ensures ParseInt("-" + NatDigits(n + 1)) == MinInt64
  {
    var d := NatDigits(n);
    AllDigitsPrefix(d);
    assert d[..|d|] == d;
    NatDigitsValue(n);
    var e := NatDigits(n + 1);
    AllDigitsPrefix(e);
    assert e[..|e|] == e;
    NatDigitsValue(n + 1);
    assert ("-" + e)[1..] == e;
  }
}
