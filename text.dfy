/** The parts of Rust's `str` API that the program relies on, over
    `seq<char>`: digit strings, `split`, `split_inclusive`, joining,
    `trim`, `replace`, prefix and suffix tests and ASCII upper-casing. */
module Text {

  predicate IsDigit(c: char) { '0' <= c <= '9' }

  predicate AllDigits(s: string) { forall i :: 0 <= i < |s| ==> IsDigit(s[i]) }

  function DigitValue(c: char): nat
    requires IsDigit(c)
  {
    c as int - '0' as int
  }

  function DigitChar(d: nat): (c: char)
    requires d < 10
    ensures IsDigit(c) && DigitValue(c) == d
  {
    ('0' as int + d) as char
  }

  function Pow10(n: nat): (r: nat)
    ensures r >= 1
  {
    if n == 0 then 1 else 10 * Pow10(n - 1)
  }

  lemma {:induction false} Pow10Add(a: nat, b: nat)
    ensures Pow10(a + b) == Pow10(a) * Pow10(b)
  {
    if b > 0 {
      Pow10Add(a, b - 1);
      assert Pow10(a + b) == 10 * Pow10(a + b - 1);
    }
  }

  /** Value of a string of decimal digits, most significant first. */
  function DigitsValue(s: string): nat
    requires AllDigits(s)
  {
    if s == [] then 0 else 10 * DigitsValue(s[..|s| - 1]) + DigitValue(s[|s| - 1])
  }

  lemma {:induction false} DigitsValueConcat(a: string, b: string)
    requires AllDigits(a) && AllDigits(b)
    ensures AllDigits(a + b)
    ensures DigitsValue(a + b) == DigitsValue(a) * Pow10(|b|) + DigitsValue(b)
  {
    assert AllDigits(a + b) by {
      forall i | 0 <= i < |a + b| ensures IsDigit((a + b)[i]) {
        if i < |a| { assert (a + b)[i] == a[i]; } else { assert (a + b)[i] == b[i - |a|]; }
      }
    }
    if b == [] {
      assert a + b == a;
    } else {
      var b' := b[..|b| - 1];
      var d := DigitValue(b[|b| - 1]);
      assert (a + b)[..|a + b| - 1] == a + b';
      assert (a + b)[|a + b| - 1] == b[|b| - 1];
      DigitsValueConcat(a, b');
      assert DigitsValue(a + b) == 10 * DigitsValue(a + b') + d;
      assert DigitsValue(b) == 10 * DigitsValue(b') + d;
      assert Pow10(|b|) == 10 * Pow10(|b'|);
      ShiftDigit(DigitsValue(a), Pow10(|b'|), DigitsValue(b'), d);
    }
  }

  lemma ShiftDigit(x: nat, p: nat, y: nat, d: nat)
    ensures 10 * (x * p + y) + d == x * (10 * p) + (10 * y + d)
  {
  }

  lemma {:induction false} DigitsValueBound(s: string)
    requires AllDigits(s)
    ensures DigitsValue(s) < Pow10(|s|)
  {
    if s != [] {
      DigitsValueBound(s[..|s| - 1]);
    }
  }

  /** Leading zeros do not change the value of a digit string. */
  lemma ZerosValue(k: nat, s: string)
    requires AllDigits(s)
    ensures AllDigits(Zeros(k) + s) && DigitsValue(Zeros(k) + s) == DigitsValue(s)
  {
    ZerosAreZero(k);
    DigitsValueConcat(Zeros(k), s);
  }

  lemma {:induction false} ZerosAreZero(k: nat)
    ensures AllDigits(Zeros(k)) && DigitsValue(Zeros(k)) == 0
  {
    if k > 0 {
      assert Zeros(k)[..k - 1] == Zeros(k - 1);
      ZerosAreZero(k - 1);
    }
  }

  function Zeros(k: nat): (z: string)
    ensures |z| == k
  {
    seq(k, _ => '0')
  }

  /** Rust's `{}` on an unsigned integer: the shortest decimal numeral. */
  function NatToString(n: nat): (s: string)
    ensures 1 <= |s| && AllDigits(s) && DigitsValue(s) == n
  {
    if n < 10 then
      assert DigitsValue([DigitChar(n)]) == 10 * DigitsValue([]) + n;
      [DigitChar(n)]
    else
      var p := NatToString(n / 10);
      var s := p + [DigitChar(n % 10)];
      assert s[..|s| - 1] == p;
      s
  }

  lemma {:induction false} NatToStringLength(n: nat, k: nat)
    requires 1 <= k && n < Pow10(k)
    ensures |NatToString(n)| <= k
  {
    if n >= 10 {
      assert k >= 2;
      NatToStringLength(n / 10, k - 1);
    }
  }

  /** A number of at least 10^k has more than k digits. */
  lemma {:induction false} NatToStringWide(n: nat, k: nat)
    requires n >= Pow10(k)
    ensures |NatToString(n)| > k
  {
    if k > 0 {
      NatToStringWide(n / 10, k - 1);
    }
  }

  /** The first character of a numeral of a positive number is not '0'. */
  lemma {:induction false} NatToStringNoLeadingZero(n: nat)
    requires n > 0
    ensures NatToString(n)[0] != '0'
  {
    if n >= 10 {
      NatToStringNoLeadingZero(n / 10);
    }
  }

  function Max(a: nat, b: nat): nat { if a < b then b else a }

  /** Rust's `{:0w}` on an unsigned integer: the numeral padded with leading
      zeros to at least `width` characters. */
  function Padded(n: nat, width: nat): (s: string)
    ensures AllDigits(s) && DigitsValue(s) == n
    ensures |s| == Max(width, |NatToString(n)|)
  {
    var digits := NatToString(n);
    var zeros := if |digits| < width then width - |digits| else 0;
    ZerosValue(zeros, digits);
    Zeros(zeros) + digits
  }

  /** A number below 10^width is padded to exactly `width` digits. */
  lemma PaddedLength(n: nat, width: nat)
    requires 1 <= width && n < Pow10(width)
    ensures |Padded(n, width)| == width
  {
    NatToStringLength(n, width);
  }

  // ---------------------------------------------------------------------
  // Searching

  function FirstIndex(s: string, c: char): (k: nat)
    requires c in s
    ensures k < |s| && s[k] == c && c !in s[..k]
    ensures forall i :: 0 <= i < k ==> s[i] != c
  {
    if s[0] == c then 0
    else
      assert c in s[1..] by { var j :| 0 <= j < |s| && s[j] == c; assert s[1..][j - 1] == c; }
      var k := 1 + FirstIndex(s[1..], c);
      assert s[..k] == [s[0]] + s[1..][..k - 1];
      k
  }

  /** The first occurrence is the one with no earlier occurrence. */
  lemma FirstIndexIs(s: string, c: char, j: nat)
    requires j < |s| && s[j] == c && c !in s[..j]
    ensures c in s && FirstIndex(s, c) == j
  {
    assert forall i :: 0 <= i < j ==> s[i] != c by {
      forall i | 0 <= i < j ensures s[i] != c { assert s[..j][i] == s[i]; }
    }
  }

  lemma DigitsExclude(s: string, c: char)
    requires AllDigits(s) && !IsDigit(c)
    ensures c !in s
  {
    forall j | 0 <= j < |s| ensures s[j] != c { assert IsDigit(s[j]); }
  }

  predicate StartsWith(s: string, prefix: string) {
    |prefix| <= |s| && s[..|prefix|] == prefix
  }

  predicate EndsWith(s: string, suffix: string) {
    |suffix| <= |s| && s[|s| - |suffix|..] == suffix
  }

  /** `s.contains(sub)`. */
  predicate Contains(s: string, sub: string)
    decreases |s|
  {
    StartsWith(s, sub) || (|s| > 0 && Contains(s[1..], sub))
  }

  // ---------------------------------------------------------------------
  // Splitting and joining

  /** `s.split(c)`: the pieces between the occurrences of `c`, one more piece
      than there are occurrences. */
  function Split(s: string, c: char): (r: seq<string>)
    ensures |r| >= 1
    ensures forall i :: 0 <= i < |r| ==> c !in r[i]
    decreases |s|
  {
    if c !in s then [s]
    else
      var k := FirstIndex(s, c);
      [s[..k]] + Split(s[k + 1..], c)
  }

  /** `s.split_inclusive(c)`: like `split`, but every piece keeps the `c`
      that ends it, and no empty piece is produced after a final `c`. */
  function SplitInclusive(s: string, c: char): (r: seq<string>)
    ensures forall i :: 0 <= i < |r| ==> |r[i]| > 0
    decreases |s|
  {
    if s == [] then []
    else if c !in s then [s]
    else
      var k := FirstIndex(s, c);
      [s[..k + 1]] + SplitInclusive(s[k + 1..], c)
  }

  /** `pieces.join(sep)`. */
  function Join(pieces: seq<string>, sep: string): string {
    if |pieces| == 0 then ""
    else if |pieces| == 1 then pieces[0]
    else pieces[0] + sep + Join(pieces[1..], sep)
  }

  /** Concatenation of all pieces (`join` with an empty separator). */
  function Concat(pieces: seq<string>): string {
    if pieces == [] then "" else pieces[0] + Concat(pieces[1..])
  }

  /** `iter().map(f).collect()`. */
  function MapSeq<A, B>(f: A -> B, xs: seq<A>): (ys: seq<B>)
    ensures |ys| == |xs|
    ensures forall i :: 0 <= i < |xs| ==> ys[i] == f(xs[i])
  {
    if xs == [] then [] else MapSeq(f, xs[..|xs| - 1]) + [f(xs[|xs| - 1])]
  }

  /** Mapping one more element appends its image. */
  lemma MapSnoc<A, B>(f: A -> B, xs: seq<A>, i: nat)
    requires i < |xs|
    ensures MapSeq(f, xs[..i + 1]) == MapSeq(f, xs[..i]) + [f(xs[i])]
  {
    var p := xs[..i + 1];
    assert p[..|p| - 1] == xs[..i];
  }

  /** `iter().filter(keep).map(f).collect()`: the images of the elements
      kept, in order. */
  function FilterMap<A, B>(keep: A -> bool, f: A -> B, xs: seq<A>): (ys: seq<B>)
    ensures |ys| <= |xs|
    ensures forall y :: y in ys ==> exists i :: 0 <= i < |xs| && keep(xs[i]) && y == f(xs[i])
    ensures forall i :: 0 <= i < |xs| && keep(xs[i]) ==> f(xs[i]) in ys
  {
    if xs == [] then []
    else
      var init, last := xs[..|xs| - 1], xs[|xs| - 1];
      assert forall i :: 0 <= i < |init| ==> init[i] == xs[i];
      FilterMap(keep, f, init) + (if keep(last) then [f(last)] else [])
  }

  /** Filtering one more element appends its image if it is kept. */
  lemma FilterMapSnoc<A, B>(keep: A -> bool, f: A -> B, xs: seq<A>, i: nat)
    requires i < |xs|
    ensures FilterMap(keep, f, xs[..i + 1]) == FilterMap(keep, f, xs[..i]) + (if keep(xs[i]) then [f(xs[i])] else [])
  {
    assert xs[..i + 1][..i] == xs[..i];
  }

  lemma SplitCons(a: string, c: char, b: string)
    requires c !in a
    ensures Split(a + [c] + b, c) == [a] + Split(b, c)
  {
    var s := a + [c] + b;
    assert s[..|a|] == a;
    FirstIndexIs(s, c, |a|);
    assert s[|a| + 1..] == b;
  }

  lemma SplitInclusiveCons(a: string, c: char, b: string)
    requires c !in a
    ensures SplitInclusive(a + [c] + b, c) == [a + [c]] + SplitInclusive(b, c)
  {
    var s := a + [c] + b;
    assert s[..|a|] == a;
    FirstIndexIs(s, c, |a|);
    assert s[..|a| + 1] == a + [c];
    assert s[|a| + 1..] == b;
  }

  /** `split` is undone by `join` with the same character. */
  lemma {:induction false} JoinSplit(s: string, c: char)
    ensures Join(Split(s, c), [c]) == s
    decreases |s|
  {
    if c in s {
      var k := FirstIndex(s, c);
      var rest := s[k + 1..];
      var p := Split(rest, c);
      assert Split(s, c) == [s[..k]] + p;
      assert ([s[..k]] + p)[1..] == p;
      assert Join(Split(s, c), [c]) == s[..k] + [c] + Join(p, [c]);
      JoinSplit(rest, c);
      assert s == s[..k] + [c] + rest;
    }
  }

  /** Joining pieces free of `c` with `c` and splitting again gives the pieces back. */
  lemma {:induction false} SplitJoin(pieces: seq<string>, c: char)
    requires |pieces| >= 1
    requires forall i :: 0 <= i < |pieces| ==> c !in pieces[i]
    ensures Split(Join(pieces, [c]), c) == pieces
  {
    if |pieces| > 1 {
      SplitJoin(pieces[1..], c);
      SplitCons(pieces[0], c, Join(pieces[1..], [c]));
      assert pieces == [pieces[0]] + pieces[1..];
    }
  }

  /** A text followed by joined pieces takes one more piece as the
      separator (unless it is the first piece) and the piece. */
  lemma PrefixedJoinSnoc(pre: string, pieces: seq<string>, x: string, sep: string)
    ensures pre + Join(pieces + [x], sep) == pre + Join(pieces, sep) + (if pieces == [] then "" else sep) + x
  {
    JoinSnoc(pieces, x, sep);
    if pieces == [] {
      assert pre + Join(pieces, sep) + "" == pre;
    } else {
      var b := Join(pieces, sep);
      assert pre + (b + sep + x) == pre + b + sep + x;
    }
  }

  /** Joining one more piece appends the separator and the piece. */
  lemma {:induction false} JoinSnoc(pieces: seq<string>, x: string, sep: string)
    ensures Join(pieces + [x], sep) == if pieces == [] then x else Join(pieces, sep) + sep + x
  {
    if |pieces| >= 2 {
      assert (pieces + [x])[1..] == pieces[1..] + [x];
      JoinSnoc(pieces[1..], x, sep);
    } else if |pieces| == 1 {
      assert (pieces + [x])[1..] == [x];
    }
  }

  /** A text made only of digits and the characters of `extra`. */
  predicate DigitsAnd(s: string, extra: set<char>) {
    forall i :: 0 <= i < |s| ==> IsDigit(s[i]) || s[i] in extra
  }

  lemma DigitsAndExclude(s: string, extra: set<char>, c: char)
    requires DigitsAnd(s, extra) && !IsDigit(c) && c !in extra
    ensures c !in s
  {
    forall j | 0 <= j < |s| ensures s[j] != c { assert IsDigit(s[j]) || s[j] in extra; }
  }

  lemma DigitsAndConcat(a: string, b: string, extra: set<char>)
    requires DigitsAnd(a, extra) && DigitsAnd(b, extra)
    ensures DigitsAnd(a + b, extra)
  {
    forall i | 0 <= i < |a + b| ensures IsDigit((a + b)[i]) || (a + b)[i] in extra {
      if i < |a| { assert (a + b)[i] == a[i]; } else { assert (a + b)[i] == b[i - |a|]; }
    }
  }

  lemma DigitsAndWiden(s: string, extra: set<char>, wider: set<char>)
    requires DigitsAnd(s, extra) && extra <= wider
    ensures DigitsAnd(s, wider)
  {
  }

  // ---------------------------------------------------------------------
  // Trimming, replacing, upper-casing

  /** `char::is_whitespace`, the Unicode White_Space property, which is
      what `str::trim` strips. */
  predicate IsWhitespace(c: char) {
    || '\U{9}' <= c <= '\U{D}' || c == ' ' || c == '\U{85}' || c == '\U{A0}' || c == '\U{1680}'
    || '\U{2000}' <= c <= '\U{200A}' || c == '\U{2028}' || c == '\U{2029}' || c == '\U{202F}'
    || c == '\U{205F}' || c == '\U{3000}'
  }

  function TrimStart(s: string): (r: string)
    ensures |r| <= |s| && r == s[|s| - |r|..]
    ensures r != [] ==> !IsWhitespace(r[0])
    ensures forall i :: 0 <= i < |s| - |r| ==> IsWhitespace(s[i])
  {
    if s != [] && IsWhitespace(s[0]) then TrimStart(s[1..]) else s
  }

  function TrimEnd(s: string): (r: string)
    ensures |r| <= |s| && r == s[..|r|]
    ensures r != [] ==> !IsWhitespace(r[|r| - 1])
    ensures forall i :: |r| <= i < |s| ==> IsWhitespace(s[i])
  {
    if s != [] && IsWhitespace(s[|s| - 1]) then TrimEnd(s[..|s| - 1]) else s
  }

  /** `s.trim()`. */
  function Trim(s: string): string {
    TrimEnd(TrimStart(s))
  }

  lemma TrimNoWhitespace(s: string)
    requires s == [] || (!IsWhitespace(s[0]) && !IsWhitespace(s[|s| - 1]))
    ensures Trim(s) == s
  {
  }

  /** A text of digits and non-blank characters is left alone by `trim`. */
  lemma TrimDigitsAnd(s: string, extra: set<char>)
    requires DigitsAnd(s, extra)
    requires forall c :: c in extra ==> !IsWhitespace(c)
    ensures Trim(s) == s
  {
    if s != [] {
      assert IsDigit(s[0]) || s[0] in extra;
      assert IsDigit(s[|s| - 1]) || s[|s| - 1] in extra;
      TrimNoWhitespace(s);
    }
  }

  /** `s.replace(pat, rep)`: every non-overlapping occurrence of `pat`, found
      from left to right, is replaced by `rep`. */
  function ReplaceAll(s: string, pat: string, rep: string): string
    requires |pat| > 0
    decreases |s|
  {
    if |s| < |pat| then s
    else if s[..|pat|] == pat then rep + ReplaceAll(s[|pat|..], pat, rep)
    else [s[0]] + ReplaceAll(s[1..], pat, rep)
  }

  lemma {:induction false} ReplaceAllAbsent(s: string, pat: string, rep: string)
    requires |pat| > 0 && !Contains(s, pat)
    ensures ReplaceAll(s, pat, rep) == s
    decreases |s|
  {
    if |s| >= |pat| {
      assert !StartsWith(s, pat);
      ReplaceAllAbsent(s[1..], pat, rep);
    }
  }

  /** `char::to_uppercase` on every character whose upper case holds an
      ASCII letter: the ASCII letters, the dotless i, the long s, the sharp
      s, the Latin ligatures and the letters whose upper case adds a
      combining mark.  Every other character is kept as it is. */
  function UpperOf(c: char): (u: string)
    ensures |u| >= 1
  {
    if 'a' <= c <= 'z' then [(c as int - 'a' as int + 'A' as int) as char]
    else if c == '\U{DF}' then "SS"
    else if c == '\U{131}' then "I"
    else if c == '\U{149}' then "\U{2BC}N"
    else if c == '\U{17F}' then "S"
    else if c == '\U{1F0}' then "J\U{30C}"
    else if c == '\U{1E96}' then "H\U{331}"
    else if c == '\U{1E97}' then "T\U{308}"
    else if c == '\U{1E98}' then "W\U{30A}"
    else if c == '\U{1E99}' then "Y\U{30A}"
    else if c == '\U{1E9A}' then "A\U{2BE}"
    else if c == '\U{FB00}' then "FF"
    else if c == '\U{FB01}' then "FI"
    else if c == '\U{FB02}' then "FL"
    else if c == '\U{FB03}' then "FFI"
    else if c == '\U{FB04}' then "FFL"
    else if c == '\U{FB05}' || c == '\U{FB06}' then "ST"
    else [c]
  }

  /** An upper-cased character is its own upper case. */
  lemma UpperOfUpper(c: char)
    ensures forall i :: 0 <= i < |UpperOf(c)| ==> UpperOf(UpperOf(c)[i]) == [UpperOf(c)[i]]
  {
  }

  /** `s.to_uppercase()`: the upper case of each character, in order. */
  function ToUpper(s: string): (r: string)
    ensures |r| >= |s|
  {
    if s == [] then [] else UpperOf(s[0]) + ToUpper(s[1..])
  }

  lemma {:induction false} ToUpperConcat(a: string, b: string)
    ensures ToUpper(a + b) == ToUpper(a) + ToUpper(b)
  {
    if a == [] {
      assert a + b == b;
    } else {
      assert (a + b)[0] == a[0] && (a + b)[1..] == a[1..] + b;
      ToUpperConcat(a[1..], b);
    }
  }

  /** Lower-case ASCII letters become their capitals, one for one. */
  lemma {:induction false} ToUpperLower(s: string)
    requires forall i :: 0 <= i < |s| ==> 'a' <= s[i] <= 'z'
    ensures |ToUpper(s)| == |s|
    ensures forall i :: 0 <= i < |s| ==> ToUpper(s)[i] == (s[i] as int - 'a' as int + 'A' as int) as char
  {
    if s != [] {
      ToUpperLower(s[1..]);
    }
  }

  /** A text of characters that are their own upper case is unchanged. */
  lemma {:induction false} ToUpperKept(s: string)
    requires forall i :: 0 <= i < |s| ==> UpperOf(s[i]) == [s[i]]
    ensures ToUpper(s) == s
  {
    if s != [] {
      ToUpperKept(s[1..]);
    }
  }

  /** Upper-casing twice is upper-casing once. */
  lemma {:induction false} ToUpperIdempotent(s: string)
    ensures ToUpper(ToUpper(s)) == ToUpper(s)
  {
    if s != [] {
      ToUpperConcat(UpperOf(s[0]), ToUpper(s[1..]));
      UpperOfUpper(s[0]);
      ToUpperKept(UpperOf(s[0]));
      ToUpperIdempotent(s[1..]);
    }
  }

  // ---------------------------------------------------------------------
  // UTF-8 lengths

  /** The number of bytes UTF-8 takes for the character `c`. */
  function Utf8Width(c: char): (w: nat)
    ensures 1 <= w <= 4
    ensures w == 1 <==> c < '\U{80}'
  {
    if c < '\U{80}' then 1
    else if c < '\U{800}' then 2
    else if c < '\U{10000}' then 3
    else 4
  }

  /** `s.len()`: the length of the UTF-8 encoding of `s`, in bytes. */
  function Utf8Len(s: string): (n: nat)
    ensures n >= |s|
  {
    if s == [] then 0 else Utf8Width(s[0]) + Utf8Len(s[1..])
  }

  predicate IsAscii(s: string) {
    forall i :: 0 <= i < |s| ==> s[i] < '\U{80}'
  }

  lemma {:induction false} Utf8LenConcat(a: string, b: string)
    ensures Utf8Len(a + b) == Utf8Len(a) + Utf8Len(b)
  {
    if a != [] {
      assert (a + b)[0] == a[0];
      assert (a + b)[1..] == a[1..] + b;
      Utf8LenConcat(a[1..], b);
    } else {
      assert a + b == b;
    }
  }

  /** A text is as long in bytes as in characters exactly when it is ASCII. */
  lemma {:induction false} Utf8LenAscii(s: string)
    ensures Utf8Len(s) == |s| <==> IsAscii(s)
  {
    if s != [] {
      Utf8LenAscii(s[1..]);
      assert IsAscii(s) <==> s[0] < '\U{80}' && IsAscii(s[1..]) by {
        if s[0] < '\U{80}' && IsAscii(s[1..]) {
          forall i | 0 <= i < |s| ensures s[i] < '\U{80}' {
            if i > 0 { assert s[i] == s[1..][i - 1]; }
          }
        }
      }
    }
  }

  /** Byte `n` of the UTF-8 encoding of `s` is a character boundary, so
      `&s[..n]` and `&s[n..]` do not panic. */
  predicate Utf8Boundary(s: string, n: nat)
    decreases |s|
  {
    n == 0 || (s != [] && Utf8Width(s[0]) <= n && Utf8Boundary(s[1..], n - Utf8Width(s[0])))
  }

  /** The boundaries are exactly the byte lengths of the prefixes. */
  lemma Utf8BoundaryPrefix(s: string, n: nat)
    ensures Utf8Boundary(s, n) <==> exists k :: 0 <= k <= |s| && Utf8Len(s[..k]) == n
  {
    if Utf8Boundary(s, n) {
      var k := BoundaryChars(s, n);
    }
    if exists k :: 0 <= k <= |s| && Utf8Len(s[..k]) == n {
      var k :| 0 <= k <= |s| && Utf8Len(s[..k]) == n;
      PrefixBoundary(s, k);
    }
  }

  /** The number of characters that make up the first `n` bytes. */
  lemma {:induction false} BoundaryChars(s: string, n: nat) returns (k: nat)
    requires Utf8Boundary(s, n)
    ensures k <= |s| && Utf8Len(s[..k]) == n
    decreases |s|
  {
    if n == 0 {
      k := 0;
      assert s[..0] == [];
    } else {
      var k' := BoundaryChars(s[1..], n - Utf8Width(s[0]));
      k := k' + 1;
      assert s[..k] == [s[0]] + s[1..][..k'];
      Utf8LenConcat([s[0]], s[1..][..k']);
    }
  }

  /** The byte length of a prefix is a boundary. */
  lemma {:induction false} PrefixBoundary(s: string, k: nat)
    requires k <= |s|
    ensures Utf8Boundary(s, Utf8Len(s[..k]))
    decreases |s|
  {
    if k > 0 {
      PrefixBoundary(s[1..], k - 1);
      assert s[..k] == [s[0]] + s[1..][..k - 1];
      Utf8LenConcat([s[0]], s[1..][..k - 1]);
    }
  }

  /** An ASCII prefix ends on a character boundary. */
  lemma StartsWithAsciiBoundary(s: string, prefix: string)
    requires IsAscii(prefix) && StartsWith(s, prefix)
    ensures Utf8Boundary(s, |prefix|)
  {
    Utf8LenAscii(prefix);
    Utf8BoundaryPrefix(s, |prefix|);
    assert Utf8Len(s[..|prefix|]) == |prefix|;
  }

  /** Comparing the first `|p|` bytes of `s` (the first `k` characters) with
      an ASCII text `p` is testing whether `s` starts with `p`; and an ASCII
      prefix ends on a character boundary. */
  lemma AsciiPrefixBytes(s: string, k: nat, p: string)
    requires IsAscii(p) && k <= |s| && Utf8Len(s[..k]) == |p|
    ensures s[..k] == p <==> StartsWith(s, p)
    ensures StartsWith(s, p) ==> Utf8Boundary(s, |p|)
  {
    Utf8LenAscii(p);
    if StartsWith(s, p) {
      StartsWithAsciiBoundary(s, p);
      if k != |p| {
        var lo, hi := if k < |p| then k else |p|, if k < |p| then |p| else k;
        assert s[..hi] == s[..lo] + s[lo..hi];
        Utf8LenConcat(s[..lo], s[lo..hi]);
      }
    }
  }
}
