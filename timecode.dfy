/** Time strings "H:MM:SS[.ffffff]" as all generations of the cutting code
    read them (`Time::from_str`, `cut_str_to_f64` for time cut lists) and
    write them for mkvmerge (`f64_to_cut_str`, `CutPoint` display).
    Times are natural numbers of microseconds. */
module TimeCode {
  import opened Wrappers
  import opened Text
  import opened Numbers

  /** The captures of a string matching
      `^(\d+):([0-5]\d):([0-5]\d)(\.(\d{0,6}))?$`. */
  datatype TimeFields = TimeFields(hours: string, minutes: string, seconds: string, fraction: Option<string>)

  /** Two digits, the first of them at most 5: `[0-5]\d`. */
  predicate Sexagesimal(s: string) {
    |s| == 2 && '0' <= s[0] <= '5' && IsDigit(s[1])
  }

  predicate ValidFields(f: TimeFields) {
    |f.hours| >= 1 && AllDigits(f.hours) && Sexagesimal(f.minutes) && Sexagesimal(f.seconds)
    && (f.fraction.Some? ==> |f.fraction.value| <= 6 && AllDigits(f.fraction.value))
  }

  /** The time-string grammar, or None when `s` does not match it. */
  function Fields(s: string): (r: Option<TimeFields>)
    ensures r.Some? ==> ValidFields(r.value)
  {
    var parts := Split(s, ':');
    if |parts| != 3 then None
    else
      var h, m, rest := parts[0], parts[1], parts[2];
      if !(|h| >= 1 && AllDigits(h)) || !Sexagesimal(m) || |rest| < 2 || !Sexagesimal(rest[..2]) then None
      else
        var tail := rest[2..];
        if tail == [] then Some(TimeFields(h, m, rest[..2], None))
        else if tail[0] == '.' && |tail| <= 7 && AllDigits(tail[1..]) then Some(TimeFields(h, m, rest[..2], Some(tail[1..])))
        else None
  }

  predicate IsTimeString(s: string) { Fields(s).Some? }

  /** A time string with a '.' but no fractional digits.  It matches the
      grammar, but the program then parses the empty fraction with
      `unwrap`/`expect` and panics. */
  predicate BareDot(s: string) {
    Fields(s).Some? && Fields(s).value.fraction == Some("")
  }

  function SexagesimalValue(s: string): (v: nat)
    requires Sexagesimal(s)
    ensures v < 60
  {
    DigitValue(s[0]) * 10 + DigitValue(s[1])
  }

  lemma SexagesimalDigits(s: string)
    requires Sexagesimal(s)
    ensures AllDigits(s) && DigitsValue(s) == SexagesimalValue(s)
  {
    var a := s[..1];
    assert a[..|a| - 1] == [];
    assert DigitsValue(a) == DigitValue(s[0]);
    assert s[..|s| - 1] == a;
  }

  function FractionOf(f: TimeFields): nat
    requires ValidFields(f)
  {
    match f.fraction
    case None => 0
    case Some(d) => FractionMicros(d)
  }

  /** `Time::from_str`: hours, minutes, seconds and the fractional digits,
      in microseconds.  A fraction of k <= 6 digits d counts d * 10^(6-k). */
  function ParseTime(s: string): (r: Result<nat>)
    requires !BareDot(s)
    ensures r.Ok? <==> IsTimeString(s)
  {
    match Fields(s)
    case None => Err("\"" + s + "\" is not a valid time string")
    case Some(f) =>
      var h, m, sec, frac := DigitsValue(f.hours), SexagesimalValue(f.minutes), SexagesimalValue(f.seconds), FractionOf(f);
      Ok(((h * 60 + m) * 60 + sec) * MICROS + frac)
  }

  /** The microseconds of a time string split back into its fields: the
      fraction, the seconds, the minutes and the hours. */
  lemma ParseTimeFields(s: string)
    requires !BareDot(s) && IsTimeString(s)
    ensures var r, f := ParseTime(s).value, Fields(s).value;
      && r % MICROS == FractionOf(f)
      && r / MICROS % 60 == SexagesimalValue(f.seconds)
      && r / MICROS / 60 % 60 == SexagesimalValue(f.minutes)
      && r / MICROS / 3600 == DigitsValue(f.hours)
  {
    var f := Fields(s).value;
    Decompose(DigitsValue(f.hours), SexagesimalValue(f.minutes), SexagesimalValue(f.seconds), FractionOf(f));
  }

  lemma Decompose(h: nat, m: nat, s: nat, f: nat)
    requires m < 60 && s < 60 && f < MICROS
    ensures var t := ((h * 60 + m) * 60 + s) * MICROS + f;
      && t % MICROS == f && t / MICROS % 60 == s && t / MICROS / 60 % 60 == m && t / MICROS / 3600 == h
  {
    var secs := (h * 60 + m) * 60 + s;
    var t := secs * MICROS + f;
    assert t / MICROS == secs && t % MICROS == f;
    assert secs / 60 == h * 60 + m && secs % 60 == s;
    assert (h * 60 + m) / 60 == h && (h * 60 + m) % 60 == m;
    assert secs / 3600 == h;
  }

  /** `format!("{:02}:{:02}:{:02}.{:06}", hours, mins, secs, subs)` for a
      time of `t` microseconds: the hours are not limited to two digits. */
  function FormatTime(t: nat): string {
    var secs := t / MICROS;
    Padded(secs / 3600, 2) + ":" + Padded(secs % 3600 / 60, 2) + ":" + Padded(secs % 60, 2) + "." + Padded(t % MICROS, 6)
  }

  lemma SexagesimalPadded(n: nat)
    requires n < 60
    ensures Sexagesimal(Padded(n, 2)) && SexagesimalValue(Padded(n, 2)) == n
  {
    var p := Padded(n, 2);
    assert Pow10(2) == 100;
    PaddedLength(n, 2);
    var a := p[..1];
    assert a[..|a| - 1] == [];
    assert DigitsValue(a) == DigitValue(p[0]);
    assert p[..|p| - 1] == a;
    assert DigitsValue(p) == 10 * DigitValue(p[0]) + DigitValue(p[1]);
  }

  /** Three pieces free of ':' joined by ':' split back into the three. */
  lemma SplitThree(a: string, b: string, c: string)
    requires ':' !in a && ':' !in b && ':' !in c
    ensures Split(a + ":" + b + ":" + c, ':') == [a, b, c]
  {
    assert a + ":" + b + ":" + c == a + [':'] + (b + [':'] + c);
    SplitCons(a, ':', b + [':'] + c);
    SplitCons(b, ':', c);
  }

  /** A string built from valid fields has exactly those fields. */
  lemma FieldsOf(h: string, m: string, s: string, f: string)
    requires |h| >= 1 && AllDigits(h) && Sexagesimal(m) && Sexagesimal(s)
    requires 1 <= |f| <= 6 && AllDigits(f)
    ensures Fields(h + ":" + m + ":" + s + "." + f) == Some(TimeFields(h, m, s, Some(f)))
  {
    var rest := s + "." + f;
    DigitsExclude(h, ':');
    SexagesimalDigits(m);
    DigitsExclude(m, ':');
    SexagesimalDigits(s);
    DigitsExclude(s, ':');
    DigitsExclude(f, ':');
    SplitThree(h, m, rest);
    assert h + ":" + m + ":" + s + "." + f == h + ":" + m + ":" + rest;
    assert rest[..2] == s;
    assert rest[2..] == "." + f;
    assert ("." + f)[1..] == f;
  }

  /** The fields `FormatTime` writes. */
  lemma FieldsOfFormat(t: nat)
    ensures var secs := t / MICROS;
      Fields(FormatTime(t)) == Some(TimeFields(Padded(secs / 3600, 2), Padded(secs % 3600 / 60, 2), Padded(secs % 60, 2), Some(Padded(t % MICROS, 6))))
  {
    var secs := t / MICROS;
    SexagesimalPadded(secs % 3600 / 60);
    SexagesimalPadded(secs % 60);
    assert Pow10(6) == MICROS;
    PaddedLength(t % MICROS, 6);
    assert Pow10(2) == 100;
    FieldsOf(Padded(secs / 3600, 2), Padded(secs % 3600 / 60, 2), Padded(secs % 60, 2), Padded(t % MICROS, 6));
  }

  /** A time string whose fields are known parses to the value of those
      fields. */
  lemma ParseTimeOf(s: string, f: TimeFields, h: nat, m: nat, sec: nat, frac: nat, t: nat)
    requires Fields(s) == Some(f) && f.fraction.Some? && f.fraction.value != ""
    requires DigitsValue(f.hours) == h && SexagesimalValue(f.minutes) == m
    requires SexagesimalValue(f.seconds) == sec && FractionMicros(f.fraction.value) == frac
    requires ((h * 60 + m) * 60 + sec) * MICROS + frac == t
    ensures !BareDot(s) && ParseTime(s) == Ok(t)
  {
  }

  /** The text of hours, minutes, seconds and microseconds as
      `FormatTime` writes it parses back to their value. */
  lemma ParseFormatted(h: nat, m: nat, sec: nat, frac: nat, t: nat)
    requires m < 60 && sec < 60 && frac < MICROS
    requires ((h * 60 + m) * 60 + sec) * MICROS + frac == t
    ensures var s := Padded(h, 2) + ":" + Padded(m, 2) + ":" + Padded(sec, 2) + "." + Padded(frac, 6);
      !BareDot(s) && ParseTime(s) == Ok(t)
  {
    var f := Padded(frac, 6);
    assert Pow10(6) == MICROS;
    PaddedLength(frac, 6);
    assert FractionMicros(f) == frac by {
      assert f[..6] == f;
    }
    SexagesimalPadded(m);
    SexagesimalPadded(sec);
    var fields := TimeFields(Padded(h, 2), Padded(m, 2), Padded(sec, 2), Some(f));
    FieldsOf(fields.hours, fields.minutes, fields.seconds, f);
    ParseTimeOf(fields.hours + ":" + fields.minutes + ":" + fields.seconds + "." + f, fields, h, m, sec, frac, t);
  }

  /** Formatting a time and parsing it back gives the same number of
      microseconds. */
  lemma ParseFormatTime(t: nat)
    ensures !BareDot(FormatTime(t))
    ensures ParseTime(FormatTime(t)) == Ok(t)
  {
    var secs := t / MICROS;
    Recompose(t);
    ParseFormatted(secs / 3600, secs % 3600 / 60, secs % 60, t % MICROS, t);
  }

  lemma Recompose(t: nat)
    ensures var secs := t / MICROS;
      ((secs / 3600 * 60 + secs % 3600 / 60) * 60 + secs % 60) * MICROS + t % MICROS == t
  {
    var secs := t / MICROS;
    assert secs * MICROS + t % MICROS == t;
    var r := secs % 3600;
    assert secs / 3600 * 3600 + r == secs;
    assert r / 60 * 60 + secs % 60 == r by {
      assert r % 60 == secs % 60;
    }
  }

  /** `FormatTime` writes digits, ':' and '.'. */
  lemma FormatTimeChars(t: nat)
    ensures |FormatTime(t)| >= 1 && DigitsAnd(FormatTime(t), {':', '.'})
  {
    var secs := t / MICROS;
    var a, b, c, d := Padded(secs / 3600, 2), Padded(secs % 3600 / 60, 2), Padded(secs % 60, 2), Padded(t % MICROS, 6);
    var e: set<char> := {':', '.'};
    assert DigitsAnd(a, e) && DigitsAnd(b, e) && DigitsAnd(c, e) && DigitsAnd(d, e);
    DigitsAndConcat(a, ":", e);
    DigitsAndConcat(a + ":", b, e);
    DigitsAndConcat(a + ":" + b, ":", e);
    DigitsAndConcat(a + ":" + b + ":", c, e);
    DigitsAndConcat(a + ":" + b + ":" + c, ".", e);
    DigitsAndConcat(a + ":" + b + ":" + c + ".", d, e);
  }

  /** The time part of `f64_to_cut_str` / `CutPoint` display: a point of
      `v` millionths of a second is cast to `u64` microseconds and
      formatted. */
  function FormatPoint(v: int): string {
    FormatTime(MicrosToU64(v))
  }

  /** A non-negative point within `u64` survives formatting and parsing. */
  lemma ParseFormatPoint(v: int)
    requires 0 <= v <= U64_MAX
    ensures !BareDot(FormatPoint(v)) && ParseTime(FormatPoint(v)) == Ok(v as nat)
  {
    ParseFormatTime(v as nat);
  }
}
