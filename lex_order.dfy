/** The order of Rust's `Ord for String` and `Vec<String>::sort`.  Strings
    compare byte by byte in UTF-8; since UTF-8 keeps the order of code
    points, that is the lexicographic order of the characters. */
module LexOrder {
  import opened Text

  /** `a < b` on strings. */
  predicate LexLess(a: string, b: string)
    decreases |a|
  {
    |b| > 0 && (|a| == 0 || a[0] < b[0] || (a[0] == b[0] && LexLess(a[1..], b[1..])))
  }

  predicate LexLeq(a: string, b: string) {
    a == b || LexLess(a, b)
  }

  lemma {:induction false} LexIrreflexive(a: string)
    ensures !LexLess(a, a)
    decreases |a|
  {
    if |a| > 0 {
      LexIrreflexive(a[1..]);
    }
  }

  lemma {:induction false} LexAsymmetric(a: string, b: string)
    requires LexLess(a, b)
    ensures !LexLess(b, a)
    decreases |a|
  {
    if |a| > 0 && a[0] == b[0] {
      LexAsymmetric(a[1..], b[1..]);
    }
  }

  lemma {:induction false} LexTransitive(a: string, b: string, c: string)
    requires LexLess(a, b) && LexLess(b, c)
    ensures LexLess(a, c)
    decreases |a|
  {
    if |a| > 0 && a[0] == b[0] && b[0] == c[0] {
      LexTransitive(a[1..], b[1..], c[1..]);
    }
  }

  lemma {:induction false} LexTotal(a: string, b: string)
    ensures a == b || LexLess(a, b) || LexLess(b, a)
    decreases |a|
  {
    if |a| > 0 && |b| > 0 && a[0] == b[0] {
      LexTotal(a[1..], b[1..]);
      if a[1..] == b[1..] {
        assert a == [a[0]] + a[1..] && b == [b[0]] + b[1..];
      }
    }
  }

  lemma LeqTransitive(a: string, b: string, c: string)
    requires LexLeq(a, b) && LexLeq(b, c)
    ensures LexLeq(a, c)
  {
    if a != b && b != c {
      LexTransitive(a, b, c);
    }
  }

  /** A common prefix does not decide the order. */
  lemma {:induction false} LexPrefix(p: string, x: string, y: string)
    ensures LexLess(p + x, p + y) == LexLess(x, y)
    decreases |p|
  {
    if |p| > 0 {
      assert (p + x)[0] == p[0] == (p + y)[0];
      assert (p + x)[1..] == p[1..] + x && (p + y)[1..] == p[1..] + y;
      LexPrefix(p[1..], x, y);
    } else {
      assert p + x == x && p + y == y;
    }
  }

  /** Of two different strings of equal length, the first difference
      decides, whatever follows. */
  lemma {:induction false} LexSameLength(a: string, b: string, x: string, y: string)
    requires |a| == |b| && a != b
    ensures LexLess(a + x, b + y) == LexLess(a, b)
    decreases |a|
  {
    assert a == [a[0]] + a[1..] && b == [b[0]] + b[1..];
    if a[0] == b[0] {
      assert a[1..] != b[1..];
      assert (a + x)[1..] == a[1..] + x && (b + y)[1..] == b[1..] + y;
      LexSameLength(a[1..], b[1..], x, y);
    }
  }

  /** The leading digit of a digit string weighs more than all others. */
  lemma FirstDigit(s: string)
    requires |s| > 0 && AllDigits(s)
    ensures AllDigits(s[1..])
    ensures DigitsValue(s) == DigitValue(s[0]) * Pow10(|s| - 1) + DigitsValue(s[1..])
    ensures DigitsValue(s[1..]) < Pow10(|s| - 1)
  {
    assert s == [s[0]] + s[1..];
    assert DigitsValue([s[0]]) == DigitValue(s[0]) by {
      assert [s[0]][..0] == [];
    }
    DigitsValueConcat([s[0]], s[1..]);
    DigitsValueBound(s[1..]);
  }

  lemma LeadingDigit(da: nat, db: nat, p: nat, x: nat, y: nat)
    requires x < p && y < p
    ensures da < db ==> da * p + x < db * p + y
    ensures db < da ==> db * p + y < da * p + x
  {
    if da < db {
      assert (da + 1) * p <= db * p;
    }
    if db < da {
      assert (db + 1) * p <= da * p;
    }
  }

  /** Digit strings of one length compare as the numbers they denote. */
  lemma {:induction false} DigitsLex(a: string, b: string)
    requires |a| == |b| && AllDigits(a) && AllDigits(b)
    ensures LexLess(a, b) <==> DigitsValue(a) < DigitsValue(b)
    decreases |a|
  {
    if |a| > 0 {
      FirstDigit(a);
      FirstDigit(b);
      LeadingDigit(DigitValue(a[0]), DigitValue(b[0]), Pow10(|a| - 1), DigitsValue(a[1..]), DigitsValue(b[1..]));
      if a[0] == b[0] {
        DigitsLex(a[1..], b[1..]);
      }
    }
  }

  // ---------------------------------------------------------------------
  // Sorting

  /** Ascending: no element is greater than the next one. */
  predicate Ascending(s: seq<string>) {
    forall i :: 0 <= i < |s| - 1 ==> LexLeq(s[i], s[i + 1])
  }

  /** Strictly ascending. */
  predicate Increasing(s: seq<string>) {
    forall i :: 0 <= i < |s| - 1 ==> LexLess(s[i], s[i + 1])
  }

  /** Inserts `x` before the first element that is not smaller. */
  function InsertString(x: string, s: seq<string>): (r: seq<string>)
    ensures multiset(r) == multiset(s) + multiset{x}
    ensures |r| == |s| + 1
  {
    if s == [] then [x]
    else if LexLess(s[0], x) then
      assert s == [s[0]] + s[1..];
      [s[0]] + InsertString(x, s[1..])
    else [x] + s
  }

  /** `sort` on a vector of strings. */
  function SortStrings(s: seq<string>): (r: seq<string>)
    ensures multiset(r) == multiset(s)
  {
    if s == [] then []
    else
      assert s == [s[0]] + s[1..];
      InsertString(s[0], SortStrings(s[1..]))
  }

  lemma {:induction false} InsertAscending(x: string, s: seq<string>)
    requires Ascending(s)
    ensures Ascending(InsertString(x, s))
    ensures |s| > 0 ==> var r := InsertString(x, s); r[0] == s[0] || r[0] == x
  {
    if s != [] && LexLess(s[0], x) {
      var t := s[1..];
      assert Ascending(t) by {
        forall i | 0 <= i < |t| - 1 ensures LexLeq(t[i], t[i + 1]) {
          assert t[i] == s[i + 1] && t[i + 1] == s[i + 2];
        }
      }
      InsertAscending(x, t);
      var r := InsertString(x, s);
      var rt := InsertString(x, t);
      assert r == [s[0]] + rt;
      if t != [] {
        assert LexLeq(s[0], t[0]);
      }
    } else if s != [] {
      LexTotal(s[0], x);
    }
  }

  lemma {:induction false} SortAscending(s: seq<string>)
    ensures Ascending(SortStrings(s))
  {
    if s != [] {
      SortAscending(s[1..]);
      InsertAscending(s[0], SortStrings(s[1..]));
    }
  }

  lemma {:induction false} AscendingHead(s: seq<string>, j: nat)
    requires Ascending(s) && j < |s|
    ensures LexLeq(s[0], s[j])
  {
    if j > 0 {
      AscendingHead(s, j - 1);
      LeqTransitive(s[0], s[j - 1], s[j]);
    }
  }

  lemma {:induction false} IncreasingHead(s: seq<string>, j: nat)
    requires Increasing(s) && 0 < j < |s|
    ensures LexLess(s[0], s[j])
  {
    if j > 1 {
      IncreasingHead(s, j - 1);
      LexTransitive(s[0], s[j - 1], s[j]);
    }
  }

  lemma TailAscending(s: seq<string>)
    requires Ascending(s) && s != []
    ensures Ascending(s[1..])
  {
    forall k | 0 <= k < |s[1..]| - 1 ensures LexLeq(s[1..][k], s[1..][k + 1]) {
      assert s[1..][k] == s[k + 1] && s[1..][k + 1] == s[k + 2];
    }
  }

  lemma TailIncreasing(t: seq<string>)
    requires Increasing(t) && t != []
    ensures Increasing(t[1..])
  {
    forall k | 0 <= k < |t[1..]| - 1 ensures LexLess(t[1..][k], t[1..][k + 1]) {
      assert t[1..][k] == t[k + 1] && t[1..][k + 1] == t[k + 2];
    }
  }

  /** Both sequences start with their least element, which is common. */
  lemma SameHead(s: seq<string>, t: seq<string>)
    requires Ascending(s) && Increasing(t) && multiset(s) == multiset(t) && t != []
    ensures s != [] && s[0] == t[0]
  {
    assert t[0] in multiset(s);
    var i :| 0 <= i < |s| && s[i] == t[0];
    AscendingHead(s, i);
    assert s[0] in multiset(t);
    var j :| 0 <= j < |t| && t[j] == s[0];
    if j > 0 {
      IncreasingHead(t, j);
      LexAsymmetric(t[0], s[0]);
    }
  }

  lemma SameTail(s: seq<string>, t: seq<string>)
    requires s != [] && t != [] && s[0] == t[0] && multiset(s) == multiset(t)
    ensures multiset(s[1..]) == multiset(t[1..])
  {
    assert s == [s[0]] + s[1..] && t == [t[0]] + t[1..];
    assert multiset(s) == multiset{s[0]} + multiset(s[1..]);
    assert multiset(t) == multiset{t[0]} + multiset(t[1..]);
    assert multiset(s[1..]) == multiset(s) - multiset{s[0]};
    assert multiset(t[1..]) == multiset(t) - multiset{t[0]};
  }

  /** An ascending permutation of a strictly increasing sequence is that
      sequence. */
  lemma {:induction false} AscendingUnique(s: seq<string>, t: seq<string>)
    requires Ascending(s) && Increasing(t) && multiset(s) == multiset(t)
    ensures s == t
    decreases |t|
  {
    if t == [] {
      assert |s| == |multiset(s)|;
    } else {
      SameHead(s, t);
      SameTail(s, t);
      TailAscending(s);
      TailIncreasing(t);
      AscendingUnique(s[1..], t[1..]);
      assert s == [s[0]] + s[1..] && t == [t[0]] + t[1..];
    }
  }

  /** Sorting a permutation of a strictly increasing sequence restores it. */
  lemma SortIncreasing(s: seq<string>, t: seq<string>)
    requires Increasing(t) && multiset(s) == multiset(t)
    ensures SortStrings(s) == t
  {
    SortAscending(s);
    AscendingUnique(SortStrings(s), t);
  }
}
