/**
 * java.math.BigDecimal and the java.lang number parsing the core uses, over unbounded integers:
 * a decimal is an unscaled integer and a scale, exactly as BigDecimal stores it.
 */
module Decimals {
  import opened Wrappers

  /** unscaled × 10^(−scale); the scale may be negative, as after "1E+3". */
  datatype Decimal = Decimal(unscaled: int, scale: int)

  const MinInt32: int := -0x8000_0000
  const MaxInt32: int := 0x7FFF_FFFF

  function Pow10(n: nat): (r: nat)
    ensures r >= 1
  {
    if n == 0 then 1 else 10 * Pow10(n - 1)
  }

  function Abs(i: int): nat {
    if i < 0 then -i else i
  }

  function Max(a: int, b: int): int {
    if a >= b then a else b
  }

  /** BigDecimal.valueOf(long): the integer at scale 0. */
  function FromInt(i: int): Decimal {
    Decimal(i, 0)
  }

  /** The value of d is Numerator(d) / Denominator(d). */
  function Numerator(d: Decimal): int {
    if d.scale >= 0 then d.unscaled else d.unscaled * Pow10(-d.scale)
  }

  function Denominator(d: Decimal): (r: nat)
    ensures r >= 1
  {
    if d.scale >= 0 then Pow10(d.scale) else 1
  }

  /** The number d stands for. */
  function Value(d: Decimal): real {
    Numerator(d) as real / Denominator(d) as real
  }

  /** SQL numeric comparison: by value, whatever the two scales are. */
  predicate ValueLe(a: Decimal, b: Decimal) {
    Numerator(a) * Denominator(b) <= Numerator(b) * Denominator(a)
  }

  predicate ValueEq(a: Decimal, b: Decimal) {
    Numerator(a) * Denominator(b) == Numerator(b) * Denominator(a)
  }

  /** The unscaled value of d rewritten at a scale s that is at least d's own. */
  function Rescaled(d: Decimal, s: int): int
    requires s >= d.scale
  {
    d.unscaled * Pow10(s - d.scale)
  }

  /** BigDecimal.add: exact, at the larger of the two scales. */
  function Add(a: Decimal, b: Decimal): (r: Decimal)
    ensures r.scale == Max(a.scale, b.scale)
  {
    var s := Max(a.scale, b.scale);
    Decimal(Rescaled(a, s) + Rescaled(b, s), s)
  }

  /** BigDecimal.subtract: exact, at the larger of the two scales. */
  function Subtract(a: Decimal, b: Decimal): (r: Decimal)
    ensures r.scale == Max(a.scale, b.scale)
  {
    var s := Max(a.scale, b.scale);
    Decimal(Rescaled(a, s) - Rescaled(b, s), s)
  }

  lemma {:induction false} Pow10Add(m: nat, n: nat)
    ensures Pow10(m + n) == Pow10(m) * Pow10(n)
    decreases m
  {
    if m > 0 {
      Pow10Add(m - 1, n);
    }
  }

  lemma DivideOut(x: real, p: real, q: real)
    requires p > 0.0 && q > 0.0
    ensures (x * p) / (q * p) == x / q
  {
  }

  lemma CastProduct(a: int, b: int)
    ensures (a * b) as real == a as real * b as real
  {
  }

  /** Rewriting a decimal at a larger scale keeps its value. */
  lemma RescaledValue(d: Decimal, s: int)
    requires s >= d.scale
    ensures Value(Decimal(Rescaled(d, s), s)) == Value(d)
  {
    var t := d.scale;
    var k := Pow10(s - t);
    CastProduct(d.unscaled, k);
    if t >= 0 {
      RescaledPositive(d.unscaled, t, s - t);
    } else if s >= 0 {
      RescaledAcrossZero(d.unscaled, -t, s);
    } else {
      Pow10Add(s - t, -s);
      CastProduct(d.unscaled * k, Pow10(-s));
      CastProduct(d.unscaled, Pow10(-t));
      CastProduct(k, Pow10(-s));
    }
  }

  /** u / 10^t == u·10^j / 10^(t+j). */
  lemma RescaledPositive(u: int, t: nat, j: nat)
    ensures Value(Decimal(u * Pow10(j), t + j)) == Value(Decimal(u, t))
  {
    Pow10Add(t, j);
    CastProduct(u, Pow10(j));
    CastProduct(Pow10(t), Pow10(j));
    DivideOut(u as real, Pow10(j) as real, Pow10(t) as real);
  }

  /** u·10^n == u·10^(n+s) / 10^s. */
  lemma RescaledAcrossZero(u: int, n: nat, s: nat)
    ensures Value(Decimal(u * Pow10(s + n), s)) == Value(Decimal(u, -(n as int)))
  {
    var a := u * Pow10(n);
    assert u * Pow10(s + n) == a * Pow10(s) by {
      Pow10Add(s, n);
    }
    ScaledUpValue(a, s);
  }

  /** a·10^s at scale s is the integer a. */
  lemma ScaledUpValue(a: int, s: nat)
    ensures Value(Decimal(a * Pow10(s), s)) == a as real
  {
    var p := Pow10(s);
    CastProduct(a, p);
    CancelFactor(a as real, p as real);
  }

  lemma CancelFactor(x: real, p: real)
    requires p > 0.0
    ensures (x * p) / p == x
  {
  }

  /** Two decimals at one scale add and subtract by their unscaled values. */
  lemma SameScaleValue(x: int, y: int, s: int)
    ensures Value(Decimal(x + y, s)) == Value(Decimal(x, s)) + Value(Decimal(y, s))
    ensures Value(Decimal(x - y, s)) == Value(Decimal(x, s)) - Value(Decimal(y, s))
  {
    if s < 0 {
      var p := Pow10(-s);
      assert (x + y) * p == x * p + y * p;
      assert (x - y) * p == x * p - y * p;
    }
  }

  /** BigDecimal.add is exact: the sum's value is the sum of the values. */
  lemma AddValue(a: Decimal, b: Decimal)
    ensures Value(Add(a, b)) == Value(a) + Value(b)
  {
    var s := Max(a.scale, b.scale);
    RescaledValue(a, s);
    RescaledValue(b, s);
    SameScaleValue(Rescaled(a, s), Rescaled(b, s), s);
  }

  /** BigDecimal.subtract is exact: the difference's value is the difference of the values. */
  lemma SubtractValue(a: Decimal, b: Decimal)
    ensures Value(Subtract(a, b)) == Value(a) - Value(b)
  {
    var s := Max(a.scale, b.scale);
    RescaledValue(a, s);
    RescaledValue(b, s);
    SameScaleValue(Rescaled(a, s), Rescaled(b, s), s);
  }

  /**
   * RoundingMode.HALF_UP of the fraction n / d: to the nearest integer, ties away from zero.
   * Stated as the two-sided bound that pins the integer down.
   */
  function RoundHalfUp(n: int, d: int): (r: int)
    requires d > 0
    ensures n >= 0 ==> r >= 0 && 2 * d * r <= 2 * n + d < 2 * d * (r + 1)
    ensures n < 0 ==> r <= 0 && 2 * d * (r - 1) < 2 * n - d <= 2 * d * r
  {
    if n >= 0 then
      var q := (2 * n + d) / (2 * d);
      assert 2 * n + d == 2 * d * q + (2 * n + d) % (2 * d);
      q
    else
      var q := (2 * (-n) + d) / (2 * d);
      assert 2 * (-n) + d == 2 * d * q + (2 * (-n) + d) % (2 * d);
      -q
  }

  /** Math.round of the fraction n / d: floor(n / d + 1/2), so ties go towards positive infinity. */
  function MathRound(n: int, d: int): (r: int)
    requires d > 0
    ensures 2 * d * r <= 2 * n + d < 2 * d * (r + 1)
  {
    var q := (2 * n + d) / (2 * d);
    assert 2 * n + d == 2 * d * q + (2 * n + d) % (2 * d);
    q
  }

  /** A narrowing cast (int) of a long: keep the low 32 bits, two's complement. */
  function ToInt32(x: int): (r: int)
    ensures MinInt32 <= r <= MaxInt32
    ensures (MinInt32 <= x <= MaxInt32) ==> r == x
  {
    (x - MinInt32) % 0x1_0000_0000 + MinInt32
  }

  predicate IsDigit(c: char) {
    '0' <= c <= '9'
  }

  predicate AllDigits(s: string) {
    forall i :: 0 <= i < |s| ==> IsDigit(s[i])
  }

  function DigitValue(c: char): nat
    requires IsDigit(c)
  {
    c as int - '0' as int
  }

  function DigitChar(n: nat): (c: char)
    requires n < 10
    ensures IsDigit(c) && DigitValue(c) == n
  {
    ('0' as int + n) as char
  }

  /** The number a run of decimal digits spells, most significant first. */
  function DigitsValue(s: string): nat
    requires AllDigits(s)
  {
    if s == [] then 0 else 10 * DigitsValue(s[..|s| - 1]) + DigitValue(s[|s| - 1])
  }

  /** The longest prefix of s made of digits. */
  function DigitPrefix(s: string): (r: string)
    ensures |r| <= |s| && r == s[..|r|] && AllDigits(r)
    ensures |r| < |s| ==> !IsDigit(s[|r|])
  {
    if s != [] && IsDigit(s[0]) then
      var t := DigitPrefix(s[1..]);
      assert s[..1 + |t|] == [s[0]] + t;
      [s[0]] + t
    else []
  }

  /** Integer.parseInt: an optional sign, one or more digits, and a value that fits in an int. */
  function ParseInt(s: string): (r: Option<int>)
    ensures r.Some? ==> MinInt32 <= r.value <= MaxInt32
  {
    if s == [] then None
    else
      var signed := s[0] == '-' || s[0] == '+';
      var body := if signed then s[1..] else s;
      if body == [] || !AllDigits(body) then None
      else
        var magnitude: int := DigitsValue(body);
        var v := if s[0] == '-' then -magnitude else magnitude;
        if MinInt32 <= v <= MaxInt32 then Some(v) else None
  }

  /**
   * The exponent part of a BigDecimal literal: nothing, or 'e'/'E', an optional sign and digits,
   * whose value must fit in an int ("Exponent overflow" otherwise).
   */
  function ParseExponent(s: string): Option<int>
  {
    if s == [] then Some(0)
    else if s[0] != 'e' && s[0] != 'E' then None
    else
      var t := s[1..];
      var signed := t != [] && (t[0] == '-' || t[0] == '+');
      var body := if signed then t[1..] else t;
      if body == [] || !AllDigits(body) then None
      else
        var magnitude: int := DigitsValue(body);
        var e := if signed && t[0] == '-' then -magnitude else magnitude;
        if MinInt32 <= e <= MaxInt32 then Some(e) else None
  }

  /**
   * The unsigned part of a BigDecimal literal: digits with at most one decimal point (at least one
   * digit in all), then an optional exponent. Gives the magnitude of the unscaled value and the
   * scale, which is the number of fraction digits minus the exponent and must fit in an int
   * ("Scale out of range" otherwise).
   */
  function ParseUnsigned(t: string): Option<(nat, int)>
  {
    var intDigits := DigitPrefix(t);
    var afterInt := t[|intDigits|..];
    var hasPoint := afterInt != [] && afterInt[0] == '.';
    var fracDigits := if hasPoint then DigitPrefix(afterInt[1..]) else [];
    var rest := if hasPoint then afterInt[1 + |fracDigits|..] else afterInt;
    if |intDigits| + |fracDigits| == 0 then None
    else Scaled(DigitsValue(intDigits + fracDigits), |fracDigits|, rest)
  }

  /**
   * The magnitude of a literal with that many fraction digits, followed by the exponent part rest:
   * the scale is the fraction digits minus the exponent, and must fit in an int.
   */
  function Scaled(magnitude: nat, fraction: nat, rest: string): Option<(nat, int)>
  {
    match ParseExponent(rest)
    case None => None
    case Some(e) =>
      var scale := fraction - e;
      if MinInt32 <= scale <= MaxInt32 then Some((magnitude, scale)) else None
  }

  /** new BigDecimal(String): an optional sign, then the unsigned part. */
  function ParseDecimal(s: string): Option<Decimal>
  {
    var negative := s != [] && s[0] == '-';
    var t := if s != [] && (s[0] == '-' || s[0] == '+') then s[1..] else s;
    match ParseUnsigned(t)
    case None => None
    case Some((magnitude, scale)) =>
      Some(Decimal(if negative then -(magnitude as int) else magnitude, scale))
  }

  /** Java keeps the exponent and the scale of a BigDecimal in ints, and refuses a literal otherwise. */
  lemma ParsedInIntRange(s: string)
    ensures ParseExponent(s).Some? ==> MinInt32 <= ParseExponent(s).value <= MaxInt32
    ensures ParseUnsigned(s).Some? ==> MinInt32 <= ParseUnsigned(s).value.1 <= MaxInt32
    ensures ParseDecimal(s).Some? ==> MinInt32 <= ParseDecimal(s).value.scale <= MaxInt32
  {
  }

  // ---------------------------------------------------------------------------
  // The plain rendering of a decimal, used to state that ParseDecimal inverts it.

  /** The decimal digits of n, most significant first, without leading zeros. */
  function NatDigits(n: nat): (r: string)
    ensures r != [] && AllDigits(r)
    decreases n
  {
    if n < 10 then [DigitChar(n)] else NatDigits(n / 10) + [DigitChar(n % 10)]
  }

  lemma {:induction false} NatDigitsValue(n: nat)
    ensures DigitsValue(NatDigits(n)) == n
    decreases n
  {
    if n >= 10 {
      NatDigitsValue(n / 10);
      var r := NatDigits(n);
      assert r[..|r| - 1] == NatDigits(n / 10);
    }
  }

  /** Integer.parseInt reads back the digits of n exactly when n fits in an int. */
  lemma ParseIntOfDigits(n: nat)
    ensures ParseInt(NatDigits(n)) == if n <= MaxInt32 then Some(n) else None
    ensures ParseInt("-" + NatDigits(n)) == if n <= -MinInt32 then Some(-(n as int)) else None
  {
    NatDigitsValue(n);
    var t := "-" + NatDigits(n);
    assert t[1..] == NatDigits(n);
  }

  function Zeros(k: nat): (r: string)
    ensures |r| == k && AllDigits(r)
  {
    if k == 0 then [] else "0" + Zeros(k - 1)
  }

  lemma AllDigitsAppend(a: string, b: string)
    requires AllDigits(a) && AllDigits(b)
    ensures AllDigits(a + b)
  {
    forall i | 0 <= i < |a + b| ensures IsDigit((a + b)[i]) {
      if i < |a| { assert (a + b)[i] == a[i]; } else { assert (a + b)[i] == b[i - |a|]; }
    }
  }

  lemma DigitsValueSnoc(s: string)
    requires s != [] && AllDigits(s)
    ensures AllDigits(s[..|s| - 1])
    ensures DigitsValue(s) == 10 * DigitsValue(s[..|s| - 1]) + DigitValue(s[|s| - 1])
  {
  }

  lemma ShiftArith(va: int, p: int, vb': int, last: int)
    ensures 10 * (va * p + vb') + last == va * (10 * p) + (10 * vb' + last)
  {
  }

  lemma {:induction false} DigitsValueAppend(a: string, b: string)
    requires AllDigits(a) && AllDigits(b)
    ensures AllDigits(a + b)
    ensures DigitsValue(a + b) == DigitsValue(a) * Pow10(|b|) + DigitsValue(b)
    decreases |b|
  {
    AllDigitsAppend(a, b);
    if b == [] {
      assert a + b == a;
    } else {
      var ab := a + b;
      var b' := b[..|b| - 1];
      assert ab[..|ab| - 1] == a + b';
      assert ab[|ab| - 1] == b[|b| - 1];
      DigitsValueSnoc(ab);
      DigitsValueSnoc(b);
      DigitsValueAppend(a, b');
      ShiftArith(DigitsValue(a), Pow10(|b'|), DigitsValue(b'), DigitValue(b[|b| - 1]));
    }
  }

  lemma {:induction false} ZerosValue(k: nat)
    ensures DigitsValue(Zeros(k)) == 0
    decreases k
  {
    if k > 0 {
      DigitsValueAppend("0", Zeros(k - 1));
      ZerosValue(k - 1);
    }
  }

  /** The digits of n padded on the left with zeros to at least width characters. */
  function PaddedDigits(n: nat, width: nat): (r: string)
    ensures |r| >= width && AllDigits(r)
  {
    var d := NatDigits(n);
    var pad := if |d| < width then Zeros(width - |d|) else [];
    AllDigitsAppend(pad, d);
    pad + d
  }

  lemma PaddedDigitsValue(n: nat, width: nat)
    ensures DigitsValue(PaddedDigits(n, width)) == n
  {
    var d := NatDigits(n);
    NatDigitsValue(n);
    if |d| < width {
      var pad := Zeros(width - |d|);
      assert PaddedDigits(n, width) == pad + d;
      ZerosValue(width - |d|);
      ZeroPadValue(pad, d);
    } else {
      assert PaddedDigits(n, width) == [] + d;
      assert [] + d == d;
    }
  }

  /** Leading zeros add nothing to the value. */
  lemma ZeroPadValue(pad: string, d: string)
    requires AllDigits(pad) && AllDigits(d) && DigitsValue(pad) == 0
    ensures AllDigits(pad + d) && DigitsValue(pad + d) == DigitsValue(d)
  {
    DigitsValueAppend(pad, d);
  }

  /** A run of digits with a decimal point after its first k digits (none when k is its length). */
  function PointString(digits: string, k: nat): (r: string)
    requires k <= |digits|
    ensures 0 < k ==> |r| > 0 && r[0] == digits[0]
  {
    digits[..k] + (if k < |digits| then "." + digits[k..] else "")
  }

  /** BigDecimal.toPlainString for a non-negative scale: sign, integer digits, point, fraction digits. */
  function PlainString(d: Decimal): string
    requires d.scale >= 0
  {
    (if d.unscaled < 0 then "-" else "") + UnsignedPlainString(d)
  }

  lemma {:induction false} DigitPrefixOfDigits(a: string, rest: string)
    requires AllDigits(a)
    requires rest == [] || !IsDigit(rest[0])
    ensures DigitPrefix(a + rest) == a
    decreases |a|
  {
    if a == [] {
      assert a + rest == rest;
    } else {
      assert (a + rest)[0] == a[0];
      assert (a + rest)[1..] == a[1..] + rest;
      DigitPrefixOfDigits(a[1..], rest);
      assert [a[0]] + a[1..] == a;
    }
  }

  /** Digits alone parse to their value at scale 0. */
  lemma ParseUnsignedWhole(a: string)
    requires a != [] && AllDigits(a)
    ensures ParseUnsigned(a) == Some((DigitsValue(a), 0))
  {
    assert a + [] == a;
    DigitPrefixOfDigits(a, []);
    assert a[|a|..] == [];
    assert ParseExponent([]) == Some(0);
  }

  lemma ParsePointString(digits: string, k: nat)
    requires AllDigits(digits) && 1 <= k <= |digits|
    ensures ParseUnsigned(PointString(digits, k))
      == if |digits| - k <= MaxInt32 then Some((DigitsValue(digits), |digits| - k)) else None
  {
    if k == |digits| {
      assert digits[..k] == digits;
      assert PointString(digits, k) == digits;
      ParseUnsignedWhole(digits);
    } else {
      ParsePointInside(digits, k);
    }
  }

  /** A point strictly inside the digits: the two runs around it parse as one number. */
  lemma ParsePointInside(digits: string, k: nat)
    requires AllDigits(digits) && 1 <= k < |digits|
    ensures ParseUnsigned(PointString(digits, k))
      == if |digits| - k <= MaxInt32 then Some((DigitsValue(digits), |digits| - k)) else None
  {
    PointStringSplit(digits, k);
    ParseUnsignedFraction(digits[..k], digits[k..], digits);
  }

  lemma PointStringSplit(digits: string, k: nat)
    requires k < |digits|
    ensures digits[..k] + digits[k..] == digits
    ensures PointString(digits, k) == digits[..k] + ("." + digits[k..])
  {
  }

  /**
   * Digits, a point and more digits parse to the value of all the digits, scaled by the fraction,
   * unless there are more fraction digits than an int scale can count.
   */
  lemma ParseUnsignedFraction(a: string, b: string, digits: string)
    requires a != [] && AllDigits(a) && b != [] && AllDigits(b) && AllDigits(digits) && a + b == digits
    ensures ParseUnsigned(a + ("." + b)) == if |b| <= MaxInt32 then Some((DigitsValue(digits), |b|)) else None
  {
    var tail := "." + b;
    var t := a + tail;
    assert tail[0] == '.' && !IsDigit(tail[0]);
    DigitPrefixOfDigits(a, tail);
    assert t[|a|..] == tail;
    assert tail[1..] == b + [];
    DigitPrefixOfDigits(b, []);
    assert tail[1 + |b|..] == [];
    ParseUnsignedPoint(t, a, tail, b, []);
    ScaledNoExponent(DigitsValue(digits), |b|);
  }

  /** A literal whose digit run is followed by a point: the fraction digits and then the exponent part. */
  lemma ParseUnsignedPoint(t: string, a: string, afterInt: string, b: string, rest: string)
    requires DigitPrefix(t) == a && t[|a|..] == afterInt && afterInt != [] && afterInt[0] == '.'
    requires DigitPrefix(afterInt[1..]) == b && afterInt[1 + |b|..] == rest
    ensures ParseUnsigned(t) == if |a| + |b| == 0 then None else Scaled(DigitsValue(a + b), |b|, rest)
  {
  }

  /** Without an exponent part the scale is the number of fraction digits, if it fits in an int. */
  lemma ScaledNoExponent(magnitude: nat, fraction: nat)
    ensures Scaled(magnitude, fraction, []) == if fraction <= MaxInt32 then Some((magnitude, fraction)) else None
  {
    assert ParseExponent([]) == Some(0);
  }

  /** A minus sign in front of an unsigned literal negates the parsed value. */
  lemma ParseSigned(negative: bool, t: string, magnitude: nat, scale: int)
    requires t != [] && IsDigit(t[0])
    requires ParseUnsigned(t) == Some((magnitude, scale))
    ensures ParseDecimal((if negative then "-" else "") + t)
      == Some(Decimal(if negative then -(magnitude as int) else magnitude, scale))
  {
    if negative {
      ParseNegative(t);
    } else {
      assert "" + t == t;
      assert t[0] != '-' && t[0] != '+';
    }
  }

  lemma ParseNegative(t: string)
    ensures var s := "-" + t;
      ParseDecimal(s) == match ParseUnsigned(t)
        case None => None
        case Some((magnitude, scale)) => Some(Decimal(-(magnitude as int), scale))
  {
    var s := "-" + t;
    assert s != [] && s[0] == '-' && s[1..] == t;
  }

  /** The digits and the point of the rendering, without its sign. */
  function UnsignedPlainString(d: Decimal): string
    requires d.scale >= 0
  {
    var digits := PaddedDigits(Abs(d.unscaled), d.scale + 1);
    PointString(digits, |digits| - d.scale)
  }

  lemma ParseUnsignedPlainString(d: Decimal)
    requires d.scale >= 0
    ensures var t := UnsignedPlainString(d);
      t != [] && IsDigit(t[0])
      && ParseUnsigned(t) == if d.scale <= MaxInt32 then Some((Abs(d.unscaled), d.scale)) else None
  {
    var n := Abs(d.unscaled);
    var digits := PaddedDigits(n, d.scale + 1);
    var k := |digits| - d.scale;
    var t := UnsignedPlainString(d);
    assert t == PointString(digits, k);
    assert t != [] && IsDigit(t[0]) by {
      assert t[0] == digits[0];
    }
    assert ParseUnsigned(t) == if d.scale <= MaxInt32 then Some((n, d.scale)) else None by {
      ParsePointString(digits, k);
      PaddedDigitsValue(n, d.scale + 1);
    }
  }

  /**
   * Parsing the plain rendering of a decimal gives that very decimal back, scale included, for
   * every scale a BigDecimal can have; a longer fraction is out of an int scale's range.
   */
  lemma ParsePlainString(d: Decimal)
    requires d.scale >= 0
    ensures ParseDecimal(PlainString(d)) == if d.scale <= MaxInt32 then Some(d) else None
  {
    var t := UnsignedPlainString(d);
    var negative := d.unscaled < 0;
    assert PlainString(d) == (if negative then "-" else "") + t;
    ParseUnsignedPlainString(d);
    if d.scale <= MaxInt32 {
      ParseSigned(negative, t, Abs(d.unscaled), d.scale);
    } else {
      ParseSignedRefused(negative, t);
    }
  }

  /** A sign in front of an unsigned literal that is refused leaves it refused. */
  lemma ParseSignedRefused(negative: bool, t: string)
    requires t != [] && IsDigit(t[0]) && ParseUnsigned(t).None?
    ensures ParseDecimal((if negative then "-" else "") + t).None?
  {
    if negative {
      ParseNegative(t);
    } else {
      assert "" + t == t;
      assert t[0] != '-' && t[0] != '+';
    }
  }

  /** An exponent reads back exactly when it fits in an int. */
  lemma ParseExponentOfDigits(sign: string, body: string)
    requires sign == "" || sign == "-"
    requires body != [] && AllDigits(body)
    ensures ParseExponent("E" + (sign + body))
      == var e: int := if sign == "-" then -(DigitsValue(body) as int) else DigitsValue(body);
         if MinInt32 <= e <= MaxInt32 then Some(e) else None
  {
    var t := sign + body;
    assert ("E" + t)[1..] == t;
    if sign == "-" {
      assert t[0] == '-' && t[1..] == body;
    } else {
      assert t == body && IsDigit(t[0]);
    }
  }

  /**
   * An exponent of n or -n on a whole number gives scale -n or n when n is at most 2147483647; a
   * larger n overflows the exponent, or (for -2147483648) the scale.
   */
  lemma ScaledExponent(magnitude: nat, sign: string, body: string)
    requires sign == "" || sign == "-"
    requires body != [] && AllDigits(body)
    ensures Scaled(magnitude, 0, "E" + (sign + body))
      == if DigitsValue(body) <= MaxInt32
         then Some((magnitude, if sign == "-" then DigitsValue(body) else -(DigitsValue(body) as int)))
         else None
  {
    ParseExponentOfDigits(sign, body);
  }

  /**
   * Scientific notation: digits, 'E', an optional minus sign and digits parse to the first digits
   * at scale minus the exponent when the exponent's digits stand for at most 2147483647, and are
   * refused otherwise: "1E2147483648" overflows the exponent and "1E-2147483648" the scale.
   */
  lemma ParseScientific(a: string, sign: string, body: string)
    requires a != [] && AllDigits(a) && body != [] && AllDigits(body)
    requires sign == "" || sign == "-"
    ensures ParseDecimal(a + ("E" + (sign + body)))
      == if DigitsValue(body) <= MaxInt32
         then Some(Decimal(DigitsValue(a), if sign == "-" then DigitsValue(body) else -(DigitsValue(body) as int)))
         else None
  {
    var rest := "E" + (sign + body);
    var s := a + rest;
    assert ParseUnsigned(s) == Scaled(DigitsValue(a), 0, rest) by {
      DigitPrefixOfDigits(a, rest);
      assert s[|a|..] == rest;
      ParseUnsignedNoPoint(s, a, rest);
    }
    ScaledExponent(DigitsValue(a), sign, body);
    assert s[0] == a[0];
    ParseUnsignedDecimal(s);
  }

  /** The digits of 2147483648, the magnitude of the smallest int. */
  lemma MinInt32Digits()
    ensures AllDigits("2147483648") && DigitsValue("2147483648") == -MinInt32
  {
    MinInt32LeadingDigits();
    assert "214748"[..5] == "21474" && DigitsValue("214748") == 214748;
    assert "2147483"[..6] == "214748" && DigitsValue("2147483") == 2147483;
    assert "21474836"[..7] == "2147483" && DigitsValue("21474836") == 21474836;
    assert "214748364"[..8] == "21474836" && DigitsValue("214748364") == 214748364;
    assert "2147483648"[..9] == "214748364" && DigitsValue("2147483648") == 2147483648;
  }

  /** The first five of those digits. */
  lemma MinInt32LeadingDigits()
    ensures AllDigits("21474") && DigitsValue("21474") == 21474
  {
    assert DigitsValue("2") == 2;
    assert "21"[..1] == "2" && DigitsValue("21") == 21;
    assert "214"[..2] == "21" && DigitsValue("214") == 214;
    assert "2147"[..3] == "214" && DigitsValue("2147") == 2147;
    assert "21474"[..4] == "2147" && DigitsValue("21474") == 21474;
  }

  /** The two literals Java refuses although their exponent is written with digits only. */
  lemma ScientificOutOfRange()
    ensures ParseDecimal("1E" + "2147483648").None?
    ensures ParseDecimal("1E" + ("-" + "2147483648")).None?
  {
    var body := "2147483648";
    MinInt32Digits();
    ParseScientific("1", "", body);
    assert "" + body == body;
    assert "1E" + body == "1" + ("E" + body);
    ParseScientific("1", "-", body);
    assert "1E" + ("-" + body) == "1" + ("E" + ("-" + body));
  }

  /** A literal that starts with a digit has no sign: it parses as its unsigned part. */
  lemma ParseUnsignedDecimal(s: string)
    requires s != [] && IsDigit(s[0])
    ensures ParseDecimal(s) == match ParseUnsigned(s)
      case None => None
      case Some((magnitude, scale)) => Some(Decimal(magnitude, scale))
  {
  }

  /** A literal whose digit run is not followed by a point: the exponent part follows the digits. */
  lemma ParseUnsignedNoPoint(t: string, a: string, rest: string)
    requires DigitPrefix(t) == a && a != [] && t[|a|..] == rest && (rest == [] || rest[0] != '.')
    ensures ParseUnsigned(t) == Scaled(DigitsValue(a), 0, rest)
  {
    assert a + [] == a;
  }

  /** Digits with a point put in hold no space. */
  lemma PointStringHasNoSpace(digits: string, k: nat)
    requires AllDigits(digits) && k <= |digits|
    ensures ' ' !in PointString(digits, k)
  {
    var t := PointString(digits, k);
    forall i | 0 <= i < |t| ensures t[i] != ' ' {
      if i < k {
        assert t[i] == digits[i];
      } else if i > k {
        assert t[i] == digits[i - 1];
      }
    }
  }

  /** The plain rendering is made of digits, a point and a minus sign only. */
  lemma PlainStringHasNoSpace(d: Decimal)
    requires d.scale >= 0
    ensures PlainString(d) != [] && ' ' !in PlainString(d)
  {
    var digits := PaddedDigits(Abs(d.unscaled), d.scale + 1);
    PointStringHasNoSpace(digits, |digits| - d.scale);
    var t := UnsignedPlainString(d);
    assert t != [];
    assert PlainString(d) == (if d.unscaled < 0 then "-" else "") + t;
  }
}
