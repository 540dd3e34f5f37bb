/** Number parsing and printing as the program does it with `str::parse`,
    `{}`, `{:.0}` and `as` casts.

    Floating-point values are represented exactly, as integers counting
    millionths: a cut-list time of 12.5 seconds is 12_500_000, a frame
    number 100 is 100_000_000.  Digits past the sixth fractional digit are
    dropped. */
module Numbers {
  import opened Wrappers
  import opened Text

  const MICROS: nat := 1_000_000
  const U64_MAX: nat := 0xFFFF_FFFF_FFFF_FFFF
  const I32_MIN: int := -0x8000_0000
  const I32_MAX: int := 0x7FFF_FFFF

  // ---------------------------------------------------------------------
  // Integers

  /** An integer literal as Rust's integer `parse` reads it: an optional
      sign, then at least one decimal digit. */
  predicate IntegerLiteral(s: string, signed: bool) {
    if |s| > 0 && (s[0] == '+' || (signed && s[0] == '-')) then
      |s| > 1 && AllDigits(s[1..])
    else
      |s| > 0 && AllDigits(s)
  }

  function LiteralValue(s: string, signed: bool): int
    requires IntegerLiteral(s, signed)
  {
    if s[0] == '+' then DigitsValue(s[1..])
    else if s[0] == '-' then -(DigitsValue(s[1..]) as int)
    else DigitsValue(s)
  }

  /** `s.parse::<i32>()`. */
  function ParseI32(s: string): (r: Option<int>)
    ensures r.Some? <==> IntegerLiteral(s, true) && I32_MIN <= LiteralValue(s, true) <= I32_MAX
    ensures r.Some? ==> r.value == LiteralValue(s, true)
  {
    if IntegerLiteral(s, true) && I32_MIN <= LiteralValue(s, true) <= I32_MAX then
      Some(LiteralValue(s, true))
    else
      None
  }

  /** `s.parse::<u64>()`: a leading '+' is accepted, a '-' is not. */
  function ParseU64(s: string): (r: Option<nat>)
    ensures r.Some? <==> IntegerLiteral(s, false) && LiteralValue(s, false) <= U64_MAX
    ensures r.Some? ==> r.value == LiteralValue(s, false)
  {
    if IntegerLiteral(s, false) && LiteralValue(s, false) <= U64_MAX then
      Some(LiteralValue(s, false) as nat)
    else
      None
  }

  /** `format!("{}", n)` followed by `parse` gives `n` back. */
  lemma ParseI32OfString(n: nat)
    requires n <= I32_MAX
    ensures ParseI32(NatToString(n)) == Some(n)
  {
    var s := NatToString(n);
    assert IsDigit(s[0]);
  }

  lemma ParseU64OfString(n: nat)
    requires n <= U64_MAX
    ensures ParseU64(NatToString(n)) == Some(n)
  {
    var s := NatToString(n);
    assert IsDigit(s[0]);
  }

  // ---------------------------------------------------------------------
  // Decimal numbers (`f64`)

  /** Sign and the unsigned part of a decimal literal. */
  function Unsigned(s: string): string {
    if |s| > 0 && (s[0] == '+' || s[0] == '-') then s[1..] else s
  }

  predicate Negative(s: string) {
    |s| > 0 && s[0] == '-'
  }

  /** Integral digits of an unsigned decimal literal. */
  function IntegralPart(body: string): string {
    if '.' in body then body[..FirstIndex(body, '.')] else body
  }

  /** Fractional digits of an unsigned decimal literal. */
  function FractionalPart(body: string): string {
    if '.' in body then body[FirstIndex(body, '.') + 1..] else ""
  }

  /** A plain decimal literal as `str::parse::<f64>` reads it: an optional
      sign, digits and at most one '.', with at least one digit. */
  predicate DecimalLiteral(s: string) {
    var body := Unsigned(s);
    AllDigits(IntegralPart(body)) && AllDigits(FractionalPart(body))
    && |IntegralPart(body)| + |FractionalPart(body)| >= 1
  }

  /** The first six digits of a fraction, padded on the right with zeros. */
  function SixDigits(f: string): (d: string)
    requires AllDigits(f)
    ensures |d| == 6 && AllDigits(d)
  {
    if |f| >= 6 then f[..6]
    else
      ZerosAreZero(6 - |f|);
      DigitsAndZeros(f, 6 - |f|);
      f + Zeros(6 - |f|)
  }

  lemma DigitsAndZeros(f: string, k: nat)
    requires AllDigits(f) && AllDigits(Zeros(k))
    ensures AllDigits(f + Zeros(k))
  {
    var s := f + Zeros(k);
    forall i | 0 <= i < |s|
      ensures IsDigit(s[i])
    {
      if i >= |f| {
        assert s[i] == Zeros(k)[i - |f|];
      }
    }
  }

  /** Millionths contributed by a fraction's digits: the first six digits,
      padded on the right with zeros. */
  function FractionMicros(f: string): (r: nat)
    requires AllDigits(f)
    ensures r < MICROS
  {
    DigitsValueBound(SixDigits(f));
    assert Pow10(6) == MICROS;
    DigitsValue(SixDigits(f))
  }

  /** `s.parse::<f64>()`, in millionths.  Exponents, "inf" and "NaN" are
      not modelled and read as not a number. */
  function ParseMicros(s: string): (r: Option<int>)
    ensures r.Some? <==> DecimalLiteral(s)
  {
    if !DecimalLiteral(s) then None
    else
      var body := Unsigned(s);
      var m := DigitsValue(IntegralPart(body)) * 1_000_000 + FractionMicros(FractionalPart(body));
      Some(if Negative(s) then -m else m)
  }

  /** The digits of a fraction below one million, six wide, with the
      trailing zeros dropped. */
  function FractionDigits(r: nat): string
    requires 0 < r < MICROS
  {
    StripTrailingZeros(Padded(r, 6))
  }

  function StripTrailingZeros(s: string): (t: string)
    ensures |t| <= |s| && t == s[..|t|]
    ensures t != [] ==> t[|t| - 1] != '0'
    ensures forall i :: |t| <= i < |s| ==> s[i] == '0'
  {
    if s != [] && s[|s| - 1] == '0' then StripTrailingZeros(s[..|s| - 1]) else s
  }

  /** `format!("{}", x)` for an `f64`: no exponent, no trailing zeros in
      the fraction and no '.' for a whole number. */
  function FormatMicros(v: int): string {
    if v < 0 then "-" + UnsignedText(-v) else UnsignedText(v)
  }

  lemma FractionDigitsValue(r: nat)
    requires 0 < r < MICROS
    ensures AllDigits(FractionDigits(r)) && 1 <= |FractionDigits(r)| <= 6
    ensures FractionMicros(FractionDigits(r)) == r
  {
    var p := Padded(r, 6);
    assert Pow10(6) == MICROS;
    PaddedLength(r, 6);
    var t := StripTrailingZeros(p);
    assert AllDigits(t);
    if t == [] {
      assert p == Zeros(6);
      ZerosAreZero(6);
      assert false;
    }
    assert SixDigits(t) == p;
  }

  /** The two parts of "digits.fraction". */
  lemma DecimalParts(digits: string, frac: string)
    requires AllDigits(digits) && AllDigits(frac)
    ensures IntegralPart(digits + ['.'] + frac) == digits
    ensures FractionalPart(digits + ['.'] + frac) == frac
  {
    var body := digits + ['.'] + frac;
    DigitsExclude(digits, '.');
    assert body[..|digits|] == digits;
    FirstIndexIs(body, '.', |digits|);
    assert body[|digits| + 1..] == frac;
  }

  /** The value of an unsigned decimal literal: its integral digits in
      units and its first six fraction digits in millionths. */
  lemma UnsignedValue(body: string, q: nat, r: nat)
    requires DecimalLiteral(body) && body[0] != '-' && body[0] != '+'
    requires DigitsValue(IntegralPart(body)) == q && FractionMicros(FractionalPart(body)) == r
    ensures ParseMicros(body) == Some(q * MICROS + r)
  {
    assert Unsigned(body) == body && !Negative(body);
  }

  /** A '-' in front of an unsigned literal negates its value. */
  lemma NegatedValue(body: string, m: int)
    requires |body| > 0 && body[0] != '-' && body[0] != '+'
    requires ParseMicros(body) == Some(m)
    ensures ParseMicros("-" + body) == Some(-m)
  {
    var s := "-" + body;
    assert s[1..] == body;
    assert Unsigned(s) == body && Negative(s);
    assert Unsigned(body) == body && !Negative(body);
  }

  /** The unsigned part of `FormatMicros`, as a decimal literal. */
  function UnsignedText(m: nat): string {
    var q, r := m / MICROS, m % MICROS;
    NatToString(q) + (if r == 0 then "" else "." + FractionDigits(r))
  }

  lemma WholeParts(digits: string)
    requires AllDigits(digits)
    ensures IntegralPart(digits) == digits && FractionalPart(digits) == ""
  {
    DigitsExclude(digits, '.');
  }

  lemma UnsignedTextParts(m: nat)
    ensures var q, r := m / MICROS, m % MICROS;
      DecimalLiteral(UnsignedText(m))
      && IntegralPart(UnsignedText(m)) == NatToString(q)
      && FractionMicros(FractionalPart(UnsignedText(m))) == r
  {
    var q, r := m / MICROS, m % MICROS;
    var digits := NatToString(q);
    var body := UnsignedText(m);
    if r == 0 {
      assert body == digits;
      WholeParts(digits);
      assert FractionMicros("") == 0 by {
        ZerosAreZero(6);
        assert SixDigits("") == Zeros(6);
      }
    } else {
      var f := FractionDigits(r);
      FractionDigitsValue(r);
      assert body == digits + ['.'] + f;
      DecimalParts(digits, f);
    }
  }

  lemma UnsignedTextFirst(m: nat)
    ensures |UnsignedText(m)| > 0 && IsDigit(UnsignedText(m)[0])
  {
    var digits := NatToString(m / MICROS);
    assert UnsignedText(m)[0] == digits[0];
    assert IsDigit(digits[0]);
  }

  lemma ParseUnsignedText(m: nat)
    ensures ParseMicros(UnsignedText(m)) == Some(m)
  {
    var q, r := m / MICROS, m % MICROS;
    assert q * MICROS + r == m by { SplitMicros(m); }
    UnsignedTextParts(m);
    UnsignedTextFirst(m);
    UnsignedValue(UnsignedText(m), q, r);
  }

  lemma ParseNegatedText(m: nat)
    ensures ParseMicros("-" + UnsignedText(m)) == Some(-(m as int))
  {
    ParseUnsignedText(m);
    UnsignedTextFirst(m);
    NegatedValue(UnsignedText(m), m);
  }

  lemma SplitMicros(m: nat)
    ensures (m / MICROS) * MICROS + m % MICROS == m
  {
  }

  /** Printing an `f64` with `{}` and parsing it back gives the same value. */
  lemma ParseFormatMicros(v: int)
    ensures ParseMicros(FormatMicros(v)) == Some(v)
  {
    var m := if v < 0 then -v else v;
    assert FormatMicros(v) == (if v < 0 then "-" else "") + UnsignedText(m);
    if v < 0 { ParseNegatedText(m); } else { ParseUnsignedText(m); }
    if v >= 0 { assert FormatMicros(v) == UnsignedText(m); }
  }

  /** `FormatMicros` writes digits, a '.' and possibly a leading '-'. */
  lemma FormatMicrosChars(v: int)
    ensures |FormatMicros(v)| >= 1 && DigitsAnd(FormatMicros(v), {'-', '.'})
  {
    var m := if v < 0 then -v else v;
    var q, r := m / MICROS, m % MICROS;
    var digits := NatToString(q);
    assert DigitsAnd(digits, {'-', '.'});
    if r != 0 {
      var f := FractionDigits(r);
      var padded := Padded(r, 6);
      assert forall i :: 0 <= i < |f| ==> f[i] == padded[i];
      assert DigitsAnd(f, {'-', '.'});
      DigitsAndConcat(".", f, {'-', '.'});
      DigitsAndConcat(digits, "." + f, {'-', '.'});
      assert UnsignedText(m) == digits + ("." + f);
    } else {
      assert UnsignedText(m) == digits;
    }
    if v < 0 {
      DigitsAndConcat("-", UnsignedText(m), {'-', '.'});
    }
  }

  /** A natural number written with `{}` parses as that many units. */
  lemma ParseNatString(n: nat)
    ensures ParseMicros(NatToString(n)) == Some(n * MICROS)
  {
    assert (n * MICROS) / MICROS == n && (n * MICROS) % MICROS == 0;
    assert UnsignedText(n * MICROS) == NatToString(n);
    ParseUnsignedText(n * MICROS);
  }

  // ---------------------------------------------------------------------
  // Casts and rounding

  /** `(x * 1e6) as u64` for an `f64` x: the cast truncates toward zero and
      saturates, so negative values give 0 and values above `u64::MAX` give
      `u64::MAX`. `v` is x in millionths, so it already is `x * 1e6`. */
  function MicrosToU64(v: int): (r: nat)
    ensures r <= U64_MAX
    ensures 0 <= v <= U64_MAX ==> r == v
    ensures v < 0 ==> r == 0
    ensures v > U64_MAX ==> r == U64_MAX
  {
    if v < 0 then 0 else if v > U64_MAX then U64_MAX else v
  }

  /** `x as usize` (64-bit) for an `f64` x given in millionths: the whole
      units, truncated toward zero, saturated to [0, usize::MAX]. */
  function UnitsToU64(v: int): (r: nat)
    ensures r <= U64_MAX
    ensures 0 <= v && v / MICROS <= U64_MAX ==> r == v / MICROS
    ensures v < MICROS ==> r == 0
  {
    if v < 0 then 0 else if v / MICROS > U64_MAX then U64_MAX else v / MICROS
  }

  /** Rounding of a non-negative number of millionths to whole units, ties
      to the even neighbour, as `{:.0}` does. */
  function RoundHalfEven(m: nat): (r: nat)
    ensures m / MICROS <= r <= m / MICROS + 1
    ensures m % MICROS < MICROS / 2 ==> r == m / MICROS
    ensures m % MICROS > MICROS / 2 ==> r == m / MICROS + 1
    ensures m % MICROS == MICROS / 2 ==> r % 2 == 0
  {
    var q, rest := m / MICROS, m % MICROS;
    if rest > MICROS / 2 || (rest == MICROS / 2 && q % 2 == 1) then q + 1 else q
  }

  /** `format!("{:.0}", x)`: the sign of a negative x is kept even when the
      rounded value is zero. */
  function FormatRounded(v: int): (s: string)
    ensures v >= 0 ==> AllDigits(s) && DigitsValue(s) == RoundHalfEven(v)
  {
    if v < 0 then "-" + NatToString(RoundHalfEven(-v)) else NatToString(RoundHalfEven(v))
  }

  lemma RoundWhole(n: nat)
    ensures RoundHalfEven(n * MICROS) == n
  {
    assert (n * MICROS) / MICROS == n;
    assert (n * MICROS) % MICROS == 0;
  }
}
