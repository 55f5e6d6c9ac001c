/**
 * JavaScript's `parseFloat` and `<` on the numbers it returns, as the cashier form uses them:
 * leading white space is skipped, the longest decimal literal that starts the rest is read, and
 * NaN comes back when there is none.
 */
module JsNumber {
  import opened Wrappers
  import opened Text

  /** A number `parseFloat` can return. A finite one is kept as the decimal fraction
      `digits / 10^scale`, exactly: binary64 rounding is not modelled. */
  datatype Number = NaN | Finite(digits: int, scale: nat) | Infinite(negative: bool)

  /** `x < bound` for a whole-number bound: false whenever `x` is NaN. */
  predicate LessThan(x: Number, bound: int) {
    match x
    case NaN => false
    case Finite(digits, scale) => digits < bound * Pow10(scale)
    case Infinite(negative) => negative
  }

  /** The exponent part `e`/`E`, an optional sign and at least one digit; without digits there is
      no exponent part and the exponent is zero. */
  function ExponentOf(s: string): int {
    if s != [] && (s[0] == 'e' || s[0] == 'E') then
      var signed := |s| > 1 && (s[1] == '+' || s[1] == '-');
      var digits := if signed then s[2..] else s[1..];
      var n := DigitRunLength(digits);
      if n == 0 then 0
      else if signed && s[1] == '-' then -(DigitsValue(digits[..n]) as int)
      else DigitsValue(digits[..n])
    else 0
  }

  /** The literal after the sign: `Infinity`, or digits with an optional fraction (at least one
      digit on either side of the point) and an optional exponent. */
  function ReadUnsigned(s: string): Number {
    if StartsWith(s, "Infinity") then Infinite(false)
    else ReadDecimal(s[..DigitRunLength(s)], s[DigitRunLength(s)..])
  }

  /** After the integer digits: the fraction, when a point follows. */
  function ReadDecimal(intDigits: string, after: string): Number
    requires AllDigits(intDigits)
  {
    if after != [] && after[0] == '.' then
      var k := DigitRunLength(after[1..]);
      ReadExponent(intDigits, after[1..][..k], after[1..][k..])
    else ReadExponent(intDigits, "", after)
  }

  /** After the fraction: no number without a digit, else the digits of both parts, scaled by
      the fraction's length and the exponent. */
  function ReadExponent(intDigits: string, fracDigits: string, tail: string): Number
    requires AllDigits(intDigits) && AllDigits(fracDigits)
  {
    if intDigits == [] && fracDigits == [] then NaN
    else
      var mantissa := DigitsValue(intDigits + fracDigits);
      var e := ExponentOf(tail);
      if e >= |fracDigits| then Finite(mantissa * Pow10(e - |fracDigits|), 0)
      else Finite(mantissa, |fracDigits| - e)
  }

  function Negate(x: Number): Number {
    match x
    case NaN => NaN
    case Finite(digits, scale) => Finite(-digits, scale)
    case Infinite(negative) => Infinite(!negative)
  }

  /** `parseFloat(s)`. */
  function ParseFloat(s: string): Number {
    var t := TrimStart(s);
    if t != [] && t[0] == '-' then Negate(ReadUnsigned(t[1..]))
    else if t != [] && t[0] == '+' then ReadUnsigned(t[1..])
    else ReadUnsigned(t)
  }

  // ---------------------------------------------------------------------------------------------
  // Number.prototype.toString

  /** A non-zero magnitude `m × 10^e` as `s × 10^e'` with the trailing zeros of `m` moved into
      the exponent, so that `s` ends in a non-zero digit. */
  function Significand(m: nat, e: int): (r: (nat, int))
    requires m > 0
    ensures r.0 > 0 && r.0 % 10 != 0 && r.1 >= e
    ensures r.0 * Pow10(r.1 - e) == m
    decreases m
  {
    if m % 10 == 0 then
      var r := Significand(m / 10, e + 1);
      assert r.0 * Pow10(r.1 - e) == 10 * (r.0 * Pow10(r.1 - e - 1)) by {
        MulShift(r.0, Pow10(r.1 - e - 1));
      }
      r
    else (m, e)
  }

  /** The radix-10 rendering of a positive value `s × 10^e` (section 6.1.6.1.20 of ECMA-262,
      Number::toString): with `k` the digits of `s` and `n` the position of the decimal point,
      plain notation while `-6 < n <= 21`, exponent notation beyond. */
  function MagnitudeToString(s: nat, e: int): string
    requires s > 0
  {
    var d := NatToString(s);
    var k := |d|;
    var n := k + e;
    if k <= n <= 21 then d + Repeat('0', n - k)
    else if 0 < n <= 21 then d[..n] + "." + d[n..]
    else if -6 < n <= 0 then "0." + Repeat('0', -n) + d
    else
      var exponent := n - 1;
      var exponentText := (if exponent >= 0 then "+" else "-") + NatToString(if exponent >= 0 then exponent else -exponent);
      if k == 1 then d + "e" + exponentText else d[..1] + "." + d[1..] + "e" + exponentText
  }

  /** The rendering of the positive value `m × 10^-scale`. */
  function PositiveToString(m: nat, scale: nat): string
    requires m > 0
  {
    var sig := Significand(m, -(scale as int));
    MagnitudeToString(sig.0, sig.1)
  }

  /** `x.toString()`. */
  function NumberToString(x: Number): string {
    match x
    case NaN => "NaN"
    case Infinite(negative) => if negative then "-Infinity" else "Infinity"
    case Finite(digits, scale) =>
      if digits == 0 then "0"
      else if digits < 0 then "-" + PositiveToString(-digits, scale)
      else PositiveToString(digits, scale)
  }

  /** `JSON.stringify` of a number: NaN and the infinities are written as `null`. */
  function JsonValue(x: Number): (r: Option<Number>)
    ensures r.Some? <==> x.Finite?
    ensures r.Some? ==> r.value == x
  {
    if x.Finite? then Some(x) else None
  }

  // ---------------------------------------------------------------------------------------------
  // Properties

  /** A string that does not start with white space is its own `trimStart()`. */
  lemma TrimStartOfNonSpace(s: string)
    requires s != [] && !IsJsSpace(s[0])
    ensures TrimStart(s) == s
  {
  }

  /** Leading white space makes no difference. */
  lemma {:induction false} LeadingSpaceIgnored(w: string, s: string)
    requires forall i :: 0 <= i < |w| ==> IsJsSpace(w[i])
    ensures ParseFloat(w + s) == ParseFloat(s)
  {
    TrimStartSkips(w, s);
  }

  lemma {:induction false} TrimStartSkips(w: string, s: string)
    requires forall i :: 0 <= i < |w| ==> IsJsSpace(w[i])
    ensures TrimStart(w + s) == TrimStart(s)
  {
    if w != [] {
      assert (w + s)[0] == w[0] && (w + s)[1..] == w[1..] + s;
      TrimStartSkips(w[1..], s);
    } else {
      assert w + s == s;
    }
  }

  /** A literal that starts with digits is read from its integer digits on. */
  lemma {:induction false} StartsWithDigits(d: string, after: string)
    requires AllDigits(d) && d != [] && (after == [] || !IsAsciiDigit(after[0]))
    ensures AllDigits(d) && ParseFloat(d + after) == ReadDecimal(d, after)
  {
    var s := d + after;
    assert s[0] == d[0];
    TrimStartOfNonSpace(s);
    assert !StartsWith(s, "Infinity") by {
      assert s[0] != 'I';
    }
    DigitRunOfDigits(d, after);
    assert s[..|d|] == d && s[|d|..] == after;
  }

  /** The decimal form of a whole number reads back as that number, whatever follows it as long
      as it cannot continue the literal: '1500 FCFA' is 1500. */
  lemma {:induction false} ParseWholeNumber(n: nat, rest: string)
    requires rest == [] || !(IsAsciiDigit(rest[0]) || rest[0] == '.' || rest[0] == 'e' || rest[0] == 'E')
    ensures ParseFloat(NatToString(n) + rest) == Finite(n, 0)
  {
    var d := NatToString(n);
    StartsWithDigits(d, rest);
    assert ReadDecimal(d, rest) == ReadExponent(d, "", rest);
    assert ExponentOf(rest) == 0;
    assert d + "" == d;
    DigitsValueOfNatToString(n);
  }

  /** The same number read after a sign. */
  lemma {:induction false} UnsignedWholeNumber(n: nat)
    ensures ReadUnsigned(NatToString(n)) == Finite(n, 0)
  {
    var d := NatToString(n);
    ParseWholeNumber(n, "");
    assert d + "" == d;
    TrimStartOfNonSpace(d);
  }

  lemma {:induction false} FractionDigits(d: string, frac: string, rest: string)
    requires AllDigits(d) && AllDigits(frac) && (rest == [] || !IsAsciiDigit(rest[0]))
    ensures ReadDecimal(d, "." + frac + rest) == ReadExponent(d, frac, rest)
  {
    var after := "." + frac + rest;
    assert after[1..] == frac + rest;
    DigitRunOfDigits(frac, rest);
    assert after[1..][..|frac|] == frac && after[1..][|frac|..] == rest;
  }

  /** A fraction is read in full: '999.5' is 9995 tenths, which stays below 1000. */
  lemma {:induction false} ParseFraction(n: nat, frac: string, rest: string)
    requires AllDigits(frac)
    requires rest == [] || !(IsAsciiDigit(rest[0]) || rest[0] == 'e' || rest[0] == 'E')
    ensures ParseFloat(NatToString(n) + "." + frac + rest)
         == Finite(n * Pow10(|frac|) + DigitsValue(frac), |frac|)
  {
    var d := NatToString(n);
    FractionOfDigits(d, frac, rest);
    DigitsValueAppend(d, frac);
    DigitsValueOfNatToString(n);
  }

  lemma {:induction false} FractionOfDigits(d: string, frac: string, rest: string)
    requires AllDigits(d) && d != [] && AllDigits(frac)
    requires rest == [] || !(IsAsciiDigit(rest[0]) || rest[0] == 'e' || rest[0] == 'E')
    ensures AllDigits(d + frac)
    ensures ParseFloat(d + "." + frac + rest) == Finite(DigitsValue(d + frac), |frac|)
  {
    assert d + "." + frac + rest == d + ("." + frac + rest);
    StartsWithDigits(d, "." + frac + rest);
    FractionDigits(d, frac, rest);
    assert ExponentOf(rest) == 0;
    WithoutExponent(d, frac, rest);
  }

  /** With no exponent part the scale is the length of the fraction. */
  lemma WithoutExponent(d: string, frac: string, tail: string)
    requires AllDigits(d) && AllDigits(frac) && d != [] && ExponentOf(tail) == 0
    ensures AllDigits(d + frac) && ReadExponent(d, frac, tail) == Finite(DigitsValue(d + frac), |frac|)
  {
    assert AllDigits(d + frac) by {
      assert forall i :: 0 <= i < |d + frac| ==> (d + frac)[i] == if i < |d| then d[i] else frac[i - |d|];
    }
  }

  /** A string with no number at its start, such as 'abc' or '', is NaN. */
  lemma {:induction false} NoLiteralIsNaN(s: string)
    requires s == [] || (!IsJsSpace(s[0]) && !IsAsciiDigit(s[0]) && s[0] != '+' && s[0] != '-' && s[0] != '.' && s[0] != 'I')
    ensures ParseFloat(s) == NaN
  {
    if s != [] {
      TrimStartOfNonSpace(s);
      assert !StartsWith(s, "Infinity") by {
        assert s[0] != 'I';
      }
      assert DigitRunLength(s) == 0;
    }
  }

  /** A minus sign negates what follows. */
  lemma {:induction false} MinusNegates(s: string)
    ensures ParseFloat("-" + s) == Negate(ReadUnsigned(s))
  {
    var t := "-" + s;
    TrimStartOfNonSpace(t);
    assert t[1..] == s;
  }

  /** An exponent is read: '1e3' is 1000. */
  lemma {:induction false} ParseExponent(n: nat, k: nat)
    ensures ParseFloat(NatToString(n) + "e" + NatToString(k)) == Finite(n * Pow10(k), 0)
  {
    var d, e := NatToString(n), NatToString(k);
    assert d + "e" + e == d + ("e" + e);
    StartsWithDigits(d, "e" + e);
    assert ReadDecimal(d, "e" + e) == ReadExponent(d, "", "e" + e);
    ExponentDigits(e);
    DigitsValueOfNatToString(k);
    assert d + "" == d;
    DigitsValueOfNatToString(n);
  }

  lemma {:induction false} ExponentDigits(e: string)
    requires AllDigits(e) && e != []
    ensures ExponentOf("e" + e) == DigitsValue(e)
  {
    var s := "e" + e;
    assert s[1] == e[0] && s[1..] == e + "";
    DigitRunOfDigits(e, "");
    assert e[..|e|] == e;
  }

  /** A point with no digit on either side is no number. */
  lemma PointAloneIsNaN()
    ensures ParseFloat(".") == NaN
  {
    TrimStartOfNonSpace(".");
    assert DigitRunLength(".") == 0;
  }

  /** The plain notation of a whole number: the digits and then the trailing zeros. */
  lemma PlainWhole(s: nat, z: nat)
    requires s > 0 && |NatToString(s)| + z <= 21
    ensures MagnitudeToString(s, z) == NatToString(s) + Repeat('0', z)
  {
  }

  /** A whole number below 10^21 is written in plain decimal, as `NatToString` writes it;
      `NegativeToString` adds the sign of a negative one. */
  lemma {:induction false} WholeNumberToString(n: nat)
    requires n < Pow10(21)
    ensures NumberToString(Finite(n, 0)) == NatToString(n)
  {
    if n > 0 {
      PositiveWholeToString(n);
      SignedToString(n, 0);
    } else {
      assert NatToString(0) == "0";
    }
  }

  /** A non-zero number is written as its sign, when negative, and then its magnitude. */
  lemma SignedToString(n: int, scale: nat)
    requires n != 0
    ensures n < 0 ==> NumberToString(Finite(n, scale)) == "-" + PositiveToString(-n, scale)
    ensures n > 0 ==> NumberToString(Finite(n, scale)) == PositiveToString(n, scale)
  {
  }

  lemma {:induction false} PositiveWholeToString(m: nat)
    requires 0 < m < Pow10(21)
    ensures PositiveToString(m, 0) == NatToString(m)
  {
    var sig := Significand(m, 0);
    var s, z: nat := sig.0, sig.1;
    assert s * Pow10(z) == m;
    NatToStringTimesPow10(s, z);
    NatToStringLength(m, 21, Pow10(21));
    assert |NatToString(m)| == |NatToString(s)| + z;
    PlainWhole(s, z);
  }

  /** A decimal whose whole part lies between 1 and 10^21 and whose fraction does not end in a
      zero is written with exactly those digits: 1500.5 is '1500.5'. */
  lemma {:induction false} FractionToString(n: nat, frac: string)
    requires 1 <= n < Pow10(21) && AllDigits(frac) && frac != [] && frac[|frac| - 1] != '0'
    ensures NumberToString(Finite(n * Pow10(|frac|) + DigitsValue(frac), |frac|)) == NatToString(n) + "." + frac
  {
    var w := NatToString(n);
    var m := FractionMantissa(n, frac);
    NatToStringLength(n, 21, Pow10(21));
    var e := -(|frac| as int);
    SignificandWithoutZeros(m, e);
    SignedToString(m, |frac|);
    assert PositiveToString(m, |frac|) == MagnitudeToString(m, e);
    PointInside(m, e);
    var d := w + frac;
    assert d[..|w|] == w && d[|w|..] == frac;
  }

  /** The digits of the whole part followed by those of the fraction are the rendering of the
      scaled number, which does not end in zero. */
  lemma {:induction false} FractionMantissa(n: nat, frac: string) returns (m: nat)
    requires 1 <= n && AllDigits(frac) && frac != [] && frac[|frac| - 1] != '0'
    ensures m == n * Pow10(|frac|) + DigitsValue(frac) && m > 0 && m % 10 != 0
    ensures NatToString(m) == NatToString(n) + frac
  {
    var w := NatToString(n);
    var d := w + frac;
    DigitsValueAppend(w, frac);
    DigitsValueOfNatToString(n);
    m := DigitsValue(d);
    var lastDigit := DigitValue(frac[|frac| - 1]);
    assert d[|d| - 1] == frac[|frac| - 1];
    assert m == 10 * DigitsValue(d[..|d| - 1]) + lastDigit;
    assert lastDigit != 0;
    assert w[0] != '0' by {
      if |w| == 1 {
        assert w == [DigitChar(n)];
      }
    }
    assert d[0] == w[0];
    NatToStringOfDigits(d);
  }

  /** The plain notation with the point inside the digits. */
  lemma PointInside(s: nat, e: int)
    requires s > 0 && e < 0 && 0 < |NatToString(s)| + e <= 21
    ensures var d := NatToString(s);
      MagnitudeToString(s, e) == d[..|d| + e] + "." + d[|d| + e..]
  {
  }

  /** A whole amount read by `parseFloat` and written back by `toString` is the text it was. */
  lemma {:induction false} WholeNumberRoundTrip(n: nat)
    requires n < Pow10(21)
    ensures NumberToString(ParseFloat(NatToString(n))) == NatToString(n)
  {
    ParseWholeNumber(n, "");
    assert NatToString(n) + "" == NatToString(n);
    WholeNumberToString(n);
  }

  /** So is a decimal amount whose fraction does not end in a zero. */
  lemma {:induction false} FractionRoundTrip(n: nat, frac: string)
    requires 1 <= n < Pow10(21) && AllDigits(frac) && frac != [] && frac[|frac| - 1] != '0'
    ensures NumberToString(ParseFloat(NatToString(n) + "." + frac)) == NatToString(n) + "." + frac
  {
    ParseFraction(n, frac, "");
    assert NatToString(n) + "." + frac + "" == NatToString(n) + "." + frac;
    FractionToString(n, frac);
  }

  /** A negative number is written as its magnitude after a minus sign. */
  lemma {:induction false} NegativeToString(digits: nat, scale: nat)
    requires digits > 0
    ensures NumberToString(Finite(-(digits as int), scale)) == "-" + NumberToString(Finite(digits, scale))
  {
    assert -(-(digits as int)) == digits;
  }

  /** A magnitude that does not end in a zero is its own significand. */
  lemma SignificandWithoutZeros(m: nat, e: int)
    requires m > 0 && m % 10 != 0
    ensures Significand(m, e) == (m, e)
  {
  }

  lemma SignificandOfDigit(m: nat, e: int)
    requires 0 < m < 10
    ensures Significand(m, e) == (m, e)
  {
    SignificandWithoutZeros(m, e);
  }

  lemma {:induction false} SignificandOfPow10(k: nat, e: int)
    ensures Significand(Pow10(k), e) == (1, e + k)
  {
    if k > 0 {
      assert Pow10(k) % 10 == 0 && Pow10(k) / 10 == Pow10(k - 1);
      SignificandOfPow10(k - 1, e + 1);
    }
  }

  /** From 10^21 on, numbers are written in exponent notation: 10^21 is '1e+21'. */
  lemma {:induction false} LargeNumberNotation(k: nat)
    requires k >= 21
    ensures NumberToString(Finite(Pow10(k), 0)) == "1e+" + NatToString(k)
  {
    SignificandOfPow10(k, 0);
    assert NumberToString(Finite(Pow10(k), 0)) == MagnitudeToString(1, k);
    OneDigitExponent(1, k);
    assert NatToString(1) == "1";
  }

  /** A one-digit significand beyond the plain range: the digit, 'e', the sign and the exponent. */
  lemma OneDigitExponent(s: nat, e: int)
    requires 0 < s < 10 && e > 20
    ensures MagnitudeToString(s, e) == NatToString(s) + "e+" + NatToString(e)
  {
    assert |NatToString(s)| == 1;
  }

  /** Below 10^-6 as well: 10^-7 is '1e-7'. */
  lemma {:induction false} SmallNumberNotation(k: nat)
    requires k >= 7
    ensures NumberToString(Finite(1, k)) == "1e-" + NatToString(k)
  {
    SignedToString(1, k);
    SignificandOfDigit(1, -(k as int));
    assert PositiveToString(1, k) == MagnitudeToString(1, -(k as int));
    OneDigitSmallExponent(1, -(k as int));
    assert NatToString(1) + "e-" == "1e-";
  }

  /** Down to 10^-6 the notation stays plain: 10^-6 is '0.000001'. */
  lemma {:induction false} PlainSmallNumber(k: nat)
    requires 1 <= k <= 6
    ensures NumberToString(Finite(1, k)) == "0." + Repeat('0', k - 1) + "1"
  {
    SignedToString(1, k);
    SignificandOfDigit(1, -(k as int));
    assert NatToString(1) == "1";
    PointFirst(1, -(k as int));
  }

  /** A one-digit significand below the plain range: the digit, 'e', '-' and the exponent. */
  lemma OneDigitSmallExponent(s: nat, e: int)
    requires 0 < s < 10 && e < -6
    ensures MagnitudeToString(s, e) == NatToString(s) + "e-" + NatToString(-e)
  {
    assert |NatToString(s)| == 1;
  }

  /** The plain notation with the point before the digits. */
  lemma PointFirst(s: nat, e: int)
    requires s > 0 && -6 < |NatToString(s)| + e <= 0
    ensures MagnitudeToString(s, e) == "0." + Repeat('0', -(|NatToString(s)| + e)) + NatToString(s)
  {
  }

}
