/** PHP numeric strings. is_numeric(), the (float) and (int) casts of a string and the
    text of a number in string interpolation, following the numeric-string grammar of
    the PHP 8 manual:
      WHITESPACES [+-]? (LNUM | DNUM | EXPONENT_DNUM) WHITESPACES
    with LNUM = [0-9]+, DNUM = LNUM? "." LNUM | LNUM "." LNUM?, and
    EXPONENT_DNUM = (LNUM | DNUM) [eE] [+-]? LNUM.
    Numbers are exact decimals rather than IEEE doubles. */
module Numeric {
  import opened Options
  import opened Text

  /** The exact decimal mantissa / 10^scale. */
  datatype Decimal = Decimal(mantissa: int, scale: nat)

  function Value(d: Decimal): real
  {
    d.mantissa as real / Pow10(d.scale) as real
  }

  const Zero := Decimal(0, 0)

  /** d times 10^e, kept exact: a negative exponent only raises the scale. */
  function Shift(d: Decimal, e: int): Decimal
  {
    if e < 0 then Decimal(d.mantissa, d.scale - e)
    else if e >= d.scale then Decimal(d.mantissa * Pow10(e - d.scale), 0)
    else Decimal(d.mantissa, d.scale - e)
  }

  /** Characters a numeric prefix can be made of. */
  predicate IsNumberChar(c: char)
  {
    IsSpace(c) || IsDigit(c) || c == '+' || c == '-' || c == '.' || c == 'e' || c == 'E'
  }

  /** A numeric prefix: its exact value and the index just after it. */
  datatype Scan = Scan(value: Decimal, end: nat)

  /** The exponent part [eE][+-]?LNUM at index j, if there is one: its value and end. */
  function ScanExponent(s: string, j: nat): (r: Option<(int, nat)>)
    requires j <= |s|
    ensures r.Some? ==> j < r.value.1 <= |s| && forall i :: j <= i < r.value.1 ==> IsNumberChar(s[i])
  {
    if j < |s| && (s[j] == 'e' || s[j] == 'E') then
      var k := if j + 1 < |s| && (s[j + 1] == '+' || s[j + 1] == '-') then j + 2 else j + 1;
      var n := DigitRun(s[k..]);
      if n == 0 then None
      else
        assert forall i :: k <= i < k + n ==> s[i] == s[k..][..n][i - k];
        var v: int := DigitsValue(s[k..k + n]);
        Some((if k == j + 2 && s[j + 1] == '-' then -v else v, k + n))
    else None
  }

  /** An unsigned LNUM or DNUM starting at index i: its digits as one integer, the
      number of digits after the point, and the index just after it. */
  function ScanUnsigned(s: string, i: nat): (r: Option<(nat, nat, nat)>)
    requires i <= |s|
    ensures r.Some? ==> i < r.value.2 <= |s|
    ensures r.Some? ==> forall k :: i <= k < r.value.2 ==> IsDigit(s[k]) || s[k] == '.'
    ensures r.Some? ==> exists k :: i <= k < r.value.2 && IsDigit(s[k])
  {
    var n1 := DigitRun(s[i..]);
    DigitsIn(s, i, n1);
    var hasDot := i + n1 < |s| && s[i + n1] == '.';
    if !hasDot then
      if n1 == 0 then None
      else Some((DigitsValue(s[i..][..n1]), 0, i + n1))
    else
      var f := i + n1 + 1;
      var n2 := DigitRun(s[f..]);
      DigitsIn(s, f, n2);
      if n1 == 0 && n2 == 0 then None
      else
        PointNumberChars(s, i, n1, n2);
        Some((DigitsValue(s[i..][..n1] + s[f..][..n2]), n2, f + n2))
  }

  /** The digit run found at index i, read on s itself. */
  lemma DigitsIn(s: string, i: nat, n: nat)
    requires i + n <= |s| && AllDigits(s[i..][..n])
    ensures forall k :: i <= k < i + n ==> IsDigit(s[k])
  {
    assert forall k :: i <= k < i + n ==> s[k] == s[i..][..n][k - i];
  }

  /** Digits, a point and digits are digits or points throughout. */
  lemma PointNumberChars(s: string, i: nat, n1: nat, n2: nat)
    requires i + n1 + 1 + n2 <= |s| && s[i + n1] == '.'
    requires forall k :: i <= k < i + n1 ==> IsDigit(s[k])
    requires forall k :: i + n1 + 1 <= k < i + n1 + 1 + n2 ==> IsDigit(s[k])
    ensures forall k :: i <= k < i + n1 + 1 + n2 ==> IsDigit(s[k]) || s[k] == '.'
  {
  }

  /** The longest numeric prefix of `s` (leading whitespace, sign, LNUM, DNUM or
      EXPONENT_DNUM), or None when `s` does not start with a number. */
  function ScanNumber(s: string): (r: Option<Scan>)
    ensures r.Some? ==> r.value.end <= |s| && forall i :: 0 <= i < r.value.end ==> IsNumberChar(s[i])
    ensures r.Some? ==> exists i :: 0 <= i < r.value.end && IsDigit(s[i])
  {
    var i0 := SpaceRun(s);
    var signed := i0 < |s| && (s[i0] == '-' || s[i0] == '+');
    var i1 := if signed then i0 + 1 else i0;
    match ScanUnsigned(s, i1)
    case None => None
    case Some((m, scale, j)) =>
      NumberPrefix(s, i0, i1, j);
      var d := Decimal(if signed && s[i0] == '-' then -(m as int) else m, scale);
      match ScanExponent(s, j)
      case Some((e, k)) =>
        NumberExtend(s, j, k);
        Some(Scan(Shift(d, e), k))
      case None => Some(Scan(d, j))
  }

  /** Whitespace, an optional sign and digits or points are number characters. */
  lemma NumberPrefix(s: string, i0: nat, i1: nat, j: nat)
    requires i0 <= i1 <= j <= |s|
    requires forall i :: 0 <= i < i0 ==> IsSpace(s[i])
    requires i1 == i0 || (i1 == i0 + 1 && (s[i0] == '-' || s[i0] == '+'))
    requires forall k :: i1 <= k < j ==> IsDigit(s[k]) || s[k] == '.'
    ensures forall i :: 0 <= i < j ==> IsNumberChar(s[i])
  {
  }

  /** Number characters up to j, then up to k, are number characters up to k. */
  lemma NumberExtend(s: string, j: nat, k: nat)
    requires j <= k <= |s|
    requires forall i :: 0 <= i < j ==> IsNumberChar(s[i])
    requires forall i :: j <= i < k ==> IsNumberChar(s[i])
    ensures forall i :: 0 <= i < k ==> IsNumberChar(s[i])
  {
  }

  /** is_numeric($s): the whole string is one number, with optional surrounding
      whitespace. */
  function IsNumeric(s: string): (b: bool)
    ensures b ==> forall i :: 0 <= i < |s| ==> IsNumberChar(s[i])
  {
    match ScanNumber(s)
    case None => false
    case Some(sc) => sc.end + SpaceRun(s[sc.end..]) == |s|
  }

  /** (float)$s for a numeric string. */
  function NumericValue(s: string): Decimal
    requires IsNumeric(s)
  {
    ScanNumber(s).value.value
  }

  /** floatval($s): the value of the leading number, 0 when `s` does not start with one. */
  function FloatVal(s: string): Decimal
  {
    match ScanNumber(s)
    case None => Zero
    case Some(sc) => sc.value
  }

  /** Truncation toward zero, as PHP converts a float to int. */
  function Truncate(x: real): (n: int)
    ensures x >= 0.0 ==> n as real <= x < n as real + 1.0
    ensures x < 0.0 ==> n as real - 1.0 < x <= n as real
  {
    if x >= 0.0 then x.Floor else -((-x).Floor)
  }

  /** (int)$s: the leading number truncated toward zero, or 0 when there is none. */
  function IntCast(s: string): int
  {
    match ScanNumber(s)
    case None => 0
    case Some(sc) => Truncate(Value(sc.value))
  }

  /** A string of decimal digits casts to the number it spells. */
  lemma IntCastDigits(s: string)
    requires s != [] && AllDigits(s)
    ensures IntCast(s) == DigitsValue(s)
  {
    assert !IsSpace(s[0]);
    assert s[0..] == s && s[0..][..|s|] == s;
    DigitRunAll(s);
    var u := ScanUnsigned(s, 0);
    assert u == Some((DigitsValue(s), 0, |s|));
    assert ScanExponent(s, |s|) == None;
    var n := ScanNumber(s);
    assert n == Some(Scan(Decimal(DigitsValue(s), 0), |s|));
    IntegerValue(DigitsValue(s));
  }

  lemma IntegerValue(m: int)
    ensures Value(Decimal(m, 0)) == m as real
  {
    assert Pow10(0) == 1;
  }

  /** A text with a comma is never numeric, so "12,50" is not a number to is_numeric. */
  lemma CommaIsNotNumeric(s: string, i: nat)
    requires i < |s| && s[i] == ','
    ensures !IsNumeric(s)
  {
  }
}
