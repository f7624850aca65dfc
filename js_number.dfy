/**
  JavaScript's conversion of a value to a number, as used by `isNaN(x)`,
  `x < 0` and `x <= 0` in the validators: the StringToNumber grammar of the
  ECMAScript Language Specification (section 7.1.4.1.1, StringNumericLiteral)
  for strings, and ToNumber (section 7.1.4) for the other JSON values.
  Numbers are exact reals: the rounding to a double is not modelled.
 */
module JsNumber {
  import opened Wrappers
  import opened JsString

  /** A JavaScript number as far as the comparisons with 0 can tell. */
  datatype Number = NaN | Finite(value: real) | PositiveInfinity | NegativeInfinity

  /** A JSON value that a numeric field of a request body may hold. A field
      missing from the body (`undefined`) is `None` around it. */
  datatype Scalar = Null | Boolean(b: bool) | Num(x: real) | Text(s: string)

  // ---------------------------------------------------------------- digits

  predicate IsDecimalDigit(c: char) {
    '0' <= c <= '9'
  }

  predicate IsHexDigit(c: char) {
    IsDecimalDigit(c) || 'a' <= c <= 'f' || 'A' <= c <= 'F'
  }

  function DigitValue(c: char): (d: nat)
    requires IsHexDigit(c)
    ensures d < 16
    ensures IsDecimalDigit(c) <==> d < 10
  {
    if IsDecimalDigit(c) then c as int - '0' as int
    else if 'a' <= c <= 'f' then c as int - 'a' as int + 10
    else c as int - 'A' as int + 10
  }

  predicate IsRadixDigit(c: char, radix: nat) {
    IsHexDigit(c) && DigitValue(c) < radix
  }

  /** A non-empty run of digits of the given radix. */
  predicate IsDigits(ds: string, radix: nat) {
    ds != [] && forall i :: 0 <= i < |ds| ==> IsRadixDigit(ds[i], radix)
  }

  /** The value of a (possibly empty) run of hexadecimal digits read in the given radix. */
  function DigitsValue(ds: string, radix: nat): nat
    requires forall i :: 0 <= i < |ds| ==> IsHexDigit(ds[i])
  {
    if ds == [] then 0
    else DigitsValue(ds[..|ds| - 1], radix) * radix + DigitValue(ds[|ds| - 1])
  }

  function Pow10(n: nat): (p: nat)
    ensures p >= 1
  {
    if n == 0 then 1 else 10 * Pow10(n - 1)
  }

  /** Ten to the power `e`, for an exponent of either sign. */
  function Scale(e: int): (r: real)
    ensures r > 0.0
    ensures e == 0 ==> r == 1.0
  {
    if e >= 0 then Pow10(e) as real else 1.0 / Pow10(-e) as real
  }

  /** The position of the first character of `s` that is in `cs`, or `|s|`. */
  function FirstIndex(s: string, cs: set<char>): (k: nat)
    ensures k <= |s|
    ensures forall i :: 0 <= i < k ==> s[i] !in cs
    ensures k < |s| ==> s[k] in cs
  {
    if s == [] then 0
    else if s[0] in cs then 0
    else 1 + FirstIndex(s[1..], cs)
  }

  // ------------------------------------------------------ numeric literals

  /** SignedInteger: an exponent's digits with an optional sign. */
  function SignedIntegerValue(x: string): Option<int> {
    if x != [] && (x[0] == '+' || x[0] == '-') then
      if IsDigits(x[1..], 10) then
        var n: int := DigitsValue(x[1..], 10);
        Some(if x[0] == '-' then -n else n)
      else None
    else if IsDigits(x, 10) then Some(DigitsValue(x, 10))
    else None
  }

  /** The part of a StrUnsignedDecimalLiteral before its exponent:
      `DecimalDigits . DecimalDigits?`, `. DecimalDigits` or `DecimalDigits`. */
  function MantissaValue(m: string): (r: Option<real>)
    ensures r.Some? ==> r.value >= 0.0
  {
    var d := FirstIndex(m, {'.'});
    if d == |m| then
      if IsDigits(m, 10) then Some(DigitsValue(m, 10) as real) else None
    else
      var whole, fraction := m[..d], m[d + 1..];
      if (whole == [] || IsDigits(whole, 10)) && (fraction == [] || IsDigits(fraction, 10))
         && (whole != [] || fraction != [])
      then Some(DigitsValue(whole, 10) as real + DigitsValue(fraction, 10) as real / Pow10(|fraction|) as real)
      else None
  }

  /** StrUnsignedDecimalLiteral: `Infinity`, or a mantissa with an optional
      `e`/`E` exponent. It is never negative. */
  function UnsignedDecimalValue(u: string): (r: Number)
    ensures r != NegativeInfinity
    ensures r.Finite? ==> r.value >= 0.0
  {
    if u == "Infinity" then PositiveInfinity
    else
      var k := FirstIndex(u, {'e', 'E'});
      var mantissa := MantissaValue(u[..k]);
      var exponent := if k == |u| then Some(0) else SignedIntegerValue(u[k + 1..]);
      if mantissa.Some? && exponent.Some? then
        var m, s := mantissa.value, Scale(exponent.value);
        assert m * s >= 0.0 by {
          if m > 0.0 { assert m * s > 0.0; }
        }
        Finite(m * s)
      else NaN
  }

  /** Unary minus. */
  function Negate(n: Number): Number {
    match n
    case NaN => NaN
    case Finite(v) => Finite(-v)
    case PositiveInfinity => NegativeInfinity
    case NegativeInfinity => PositiveInfinity
  }

  /** StrDecimalLiteral: an unsigned literal with an optional `+` or `-`. */
  function DecimalValue(t: string): Number {
    if t != [] && t[0] == '+' then UnsignedDecimalValue(t[1..])
    else if t != [] && t[0] == '-' then Negate(UnsignedDecimalValue(t[1..]))
    else UnsignedDecimalValue(t)
  }

  /** The radix a NonDecimalIntegerLiteral prefix letter selects, or 0. */
  function Radix(c: char): nat {
    if c == 'x' || c == 'X' then 16
    else if c == 'o' || c == 'O' then 8
    else if c == 'b' || c == 'B' then 2
    else 0
  }

  /** StrNumericLiteral: `0x`, `0o` or `0b` and digits of that radix (no
      sign allowed), or else a StrDecimalLiteral. */
  function NumericLiteralValue(t: string): Number {
    if |t| >= 2 && t[0] == '0' && Radix(t[1]) != 0 then
      if IsDigits(t[2..], Radix(t[1])) then Finite(DigitsValue(t[2..], Radix(t[1])) as real) else NaN
    else DecimalValue(t)
  }

  /** `Number(s)` for a string: surrounding whitespace is ignored, and a
      string that is empty or all whitespace converts to 0. */
  function StringToNumber(s: string): Number {
    var t := Trim(s);
    if t == [] then Finite(0.0) else NumericLiteralValue(t)
  }

  // ------------------------------------------------------ values and tests

  /** `Number(v)`, where `None` stands for `undefined`. */
  function ToNumber(v: Option<Scalar>): Number {
    match v
    case None => NaN
    case Some(Null) => Finite(0.0)
    case Some(Boolean(b)) => Finite(if b then 1.0 else 0.0)
    case Some(Num(x)) => Finite(x)
    case Some(Text(s)) => StringToNumber(s)
  }

  /** JavaScript truthiness. JSON cannot carry NaN, so a number is falsy
      exactly when it is zero. */
  predicate Truthy(v: Option<Scalar>) {
    match v
    case None => false
    case Some(Null) => false
    case Some(Boolean(b)) => b
    case Some(Num(x)) => x != 0.0
    case Some(Text(s)) => s != []
  }

  /** `isNaN(v)` */
  predicate IsNaN(v: Option<Scalar>) {
    ToNumber(v) == NaN
  }

  /** `n < 0`, which is false when `n` is NaN. */
  predicate LessThanZero(n: Number) {
    n == NegativeInfinity || (n.Finite? && n.value < 0.0)
  }

  /** `n <= 0`, which is false when `n` is NaN. */
  predicate AtMostZero(n: Number) {
    n == NegativeInfinity || (n.Finite? && n.value <= 0.0)
  }

  predicate IsPositive(n: Number) {
    n == PositiveInfinity || (n.Finite? && n.value > 0.0)
  }

  // ---------------------------------------------------------------- lemmas

  /** A run of decimal digits has no exponent marker and no decimal point. */
  lemma DigitsHaveNoMarkers(s: string)
    requires IsDigits(s, 10)
    ensures FirstIndex(s, {'e', 'E'}) == |s| && FirstIndex(s, {'.'}) == |s|
  {
  }

  lemma UnsignedDigitsValue(s: string)
    requires IsDigits(s, 10)
    ensures UnsignedDecimalValue(s) == Finite(DigitsValue(s, 10) as real)
  {
    assert s != "Infinity" by { assert !IsRadixDigit('I', 10); }
    DigitsHaveNoMarkers(s);
    assert s[..|s|] == s;
    assert MantissaValue(s) == Some(DigitsValue(s, 10) as real);
  }

  /** A run of decimal digits converts to its value. */
  lemma DigitStringValue(s: string)
    requires IsDigits(s, 10)
    ensures StringToNumber(s) == Finite(DigitsValue(s, 10) as real)
  {
    TrimNoop(s);
    assert NumericLiteralValue(s) == DecimalValue(s) by {
      assert |s| >= 2 ==> Radix(s[1]) == 0;
    }
    UnsignedDigitsValue(s);
  }

  /** A minus sign followed by a run of decimal digits converts to minus
      their value. */
  lemma NegativeDigitStringValue(ds: string)
    requires IsDigits(ds, 10)
    ensures StringToNumber("-" + ds) == Finite(-(DigitsValue(ds, 10) as real))
  {
    var s := "-" + ds;
    assert s[1..] == ds;
    assert s[|s| - 1] == ds[|ds| - 1];
    TrimNoop(s);
    assert NumericLiteralValue(s) == Negate(UnsignedDecimalValue(ds));
    UnsignedDigitsValue(ds);
  }

  /** Without an exponent marker or a decimal point, an unsigned decimal
      literal other than `Infinity` must be all digits: one non-digit makes
      it NaN. */
  lemma UnmarkedNonDigitIsNaN(u: string, j: nat)
    requires u != "Infinity" && j < |u| && !IsDecimalDigit(u[j])
    requires forall i :: 0 <= i < |u| ==> u[i] !in {'e', 'E', '.'}
    ensures UnsignedDecimalValue(u) == NaN
  {
    var k := FirstIndex(u, {'e', 'E'});
    assert k == |u| && u[..k] == u;
    assert FirstIndex(u, {'.'}) == |u|;
    assert !IsRadixDigit(u[j], 10);
  }

  /** A string of whitespace converts to 0, so `isNaN` is false for it. */
  lemma BlankStringIsZero(s: string)
    requires AllWhitespace(s)
    ensures StringToNumber(s) == Finite(0.0)
  {
    TrimBlank(s);
  }

  /** The characters a numeral can be made of: hexadecimal digits, signs,
      the decimal point, the radix letters and the letters of `Infinity`. */
  predicate IsNumeralChar(c: char) {
    IsHexDigit(c) || c in "+-.xXoOIinty"
  }

  predicate AllNumeral(s: string) {
    forall i :: 0 <= i < |s| ==> IsNumeralChar(s[i])
  }

  lemma AllNumeralJoin(s: string, k: nat)
    requires k <= |s| && AllNumeral(s[..k]) && AllNumeral(s[k..])
    ensures AllNumeral(s)
  {
    forall i | 0 <= i < |s| ensures IsNumeralChar(s[i]) {
      if i < k { assert s[..k][i] == s[i]; } else { assert s[k..][i - k] == s[i]; }
    }
  }

  lemma DigitsAreNumeral(ds: string, radix: nat)
    requires forall i :: 0 <= i < |ds| ==> IsRadixDigit(ds[i], radix)
    ensures AllNumeral(ds)
  {
  }

  lemma {:induction false} MantissaIsNumeral(m: string)
    requires MantissaValue(m).Some?
    ensures AllNumeral(m)
  {
    var d := FirstIndex(m, {'.'});
    if d < |m| {
      DigitsAreNumeral(m[..d], 10);
      DigitsAreNumeral(m[d + 1..], 10);
      assert m[d..][1..] == m[d + 1..];
      AllNumeralJoin(m[d..], 1);
      AllNumeralJoin(m, d);
    }
  }

  lemma ExponentIsNumeral(x: string)
    requires SignedIntegerValue(x).Some?
    ensures AllNumeral(x)
  {
    if x != [] && (x[0] == '+' || x[0] == '-') {
      DigitsAreNumeral(x[1..], 10);
      AllNumeralJoin(x, 1);
    } else {
      DigitsAreNumeral(x, 10);
    }
  }

  lemma {:induction false} UnsignedIsNumeral(u: string)
    requires UnsignedDecimalValue(u) != NaN
    ensures AllNumeral(u)
  {
    if u != "Infinity" {
      var k := FirstIndex(u, {'e', 'E'});
      MantissaIsNumeral(u[..k]);
      if k < |u| {
        ExponentIsNumeral(u[k + 1..]);
        assert u[k..][1..] == u[k + 1..];
        AllNumeralJoin(u[k..], 1);
      }
      AllNumeralJoin(u, k);
    }
  }

  /** Whatever converts to a number (NaN aside) after trimming consists of
      numeral characters only. */
  lemma {:induction false} LiteralIsNumeral(t: string)
    requires NumericLiteralValue(t) != NaN
    ensures AllNumeral(t)
  {
    if |t| >= 2 && t[0] == '0' && Radix(t[1]) != 0 {
      AllNumeralJoin(t, 2);
    } else if t != [] && (t[0] == '+' || t[0] == '-') {
      UnsignedIsNumeral(t[1..]);
      AllNumeralJoin(t, 1);
    } else {
      UnsignedIsNumeral(t);
    }
  }

  /** A string holding a character that is neither whitespace nor a numeral
      character converts to NaN. */
  lemma ForeignCharIsNaN(s: string, i: nat)
    requires i < |s| && !IsWhitespace(s[i]) && !IsNumeralChar(s[i])
    ensures StringToNumber(s) == NaN
  {
    var lo := TrimKeeps(s, i, i);
    TrimmedForeignCharIsNaN(s, i - lo);
  }

  /** Whitespace between two non-whitespace characters survives `trim` and
      makes the string NaN: `Number("0812 3456")` is NaN. */
  lemma InnerWhitespaceIsNaN(s: string, i: nat, j: nat, k: nat)
    requires i < j < k < |s|
    requires !IsWhitespace(s[i]) && IsWhitespace(s[j]) && !IsWhitespace(s[k])
    ensures StringToNumber(s) == NaN
  {
    var lo := TrimKeeps(s, i, k);
    assert Trim(s)[j - lo] == s[j];
    TrimmedForeignCharIsNaN(s, j - lo);
  }

  /** A character of the trimmed string that no numeral has makes it NaN. */
  lemma TrimmedForeignCharIsNaN(s: string, p: nat)
    requires p < |Trim(s)| && !IsNumeralChar(Trim(s)[p])
    ensures StringToNumber(s) == NaN
  {
    var t := Trim(s);
    if NumericLiteralValue(t) != NaN {
      LiteralIsNumeral(t);
    }
  }
}
