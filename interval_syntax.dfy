/** The grammar of interval lists "[a,b][c,d]…" that users pass on the
    command line and that the cut-list code reads after a "frames:" or
    "time:" prefix.  A bound is a non-empty text without '[', ']' and ','. */
module IntervalSyntax {
  import opened Wrappers
  import opened Text

  predicate BoundText(s: string) {
    |s| >= 1 && '[' !in s && ']' !in s && ',' !in s
  }

  /** The two bound texts of one interval, as the regex captures them. */
  datatype RawInterval = RawInterval(from: string, to: string)

  predicate ValidRaw(r: RawInterval) {
    BoundText(r.from) && BoundText(r.to)
  }

  predicate AllValid(rs: seq<RawInterval>) {
    forall i :: 0 <= i < |rs| ==> ValidRaw(rs[i])
  }

  /** The text of one interval without its closing ']'. */
  function Opening(r: RawInterval): string {
    "[" + r.from + "," + r.to
  }

  function RenderInterval(r: RawInterval): string {
    Opening(r) + "]"
  }

  function Render(rs: seq<RawInterval>): string {
    if rs == [] then "" else RenderInterval(rs[0]) + Render(rs[1..])
  }

  /** `^\[(?<from>[^\[\],]+),(?<to>[^\[\],]+)\]$`. */
  function MatchInterval(s: string): (r: Option<RawInterval>)
    ensures r.Some? ==> ValidRaw(r.value) && RenderInterval(r.value) == s
  {
    if |s| < 2 || s[0] != '[' || s[|s| - 1] != ']' then None
    else
      var inner := s[1..|s| - 1];
      if ',' !in inner then None
      else
        var k := FirstIndex(inner, ',');
        var a, b := inner[..k], inner[k + 1..];
        if BoundText(a) && BoundText(b) then
          assert s == "[" + a + "," + b + "]" by {
            assert inner == a + "," + b;
            assert s == [s[0]] + inner + [s[|s| - 1]];
          }
          Some(RawInterval(a, b))
        else None
  }

  lemma MatchRenderInterval(r: RawInterval)
    requires ValidRaw(r)
    ensures MatchInterval(RenderInterval(r)) == Some(r)
  {
    var s := RenderInterval(r);
    var inner := s[1..|s| - 1];
    assert inner == r.from + [','] + r.to;
    assert inner[..|r.from|] == r.from;
    FirstIndexIs(inner, ',', |r.from|);
    assert inner[|r.from| + 1..] == r.to;
  }

  /** `^(?<interval>\[[^\[\],]+,[^\[\],]+\])+$`: one or more intervals.
      None when the text does not match. */
  function ParseIntervals(s: string): (r: Option<seq<RawInterval>>)
    ensures r.Some? ==> |r.value| >= 1 && AllValid(r.value) && Render(r.value) == s
    decreases |s|
  {
    if ']' !in s then None
    else
      var k := FirstIndex(s, ']');
      match MatchInterval(s[..k + 1])
      case None => None
      case Some(head) =>
        assert s == s[..k + 1] + s[k + 1..];
        if k + 1 == |s| then
          assert Render([head]) == RenderInterval(head);
          Some([head])
        else
          match ParseIntervals(s[k + 1..])
          case None => None
          case Some(rest) =>
            assert ([head] + rest)[1..] == rest;
            Some([head] + rest)
  }

  /** ']' occurs in an interval's text only at its end. */
  lemma OpeningNoClose(r: RawInterval)
    requires ValidRaw(r)
    ensures ']' !in Opening(r)
  {
  }

  lemma RenderCons(r: RawInterval, rest: seq<RawInterval>)
    ensures Render([r] + rest) == Opening(r) + [']'] + Render(rest)
  {
    assert ([r] + rest)[1..] == rest;
  }

  /** Rendering valid intervals and matching the text again gives them back. */
  lemma {:induction false} ParseRender(rs: seq<RawInterval>)
    requires |rs| >= 1 && AllValid(rs)
    ensures ParseIntervals(Render(rs)) == Some(rs)
  {
    var r, rest := rs[0], rs[1..];
    assert rs == [r] + rest;
    RenderCons(r, rest);
    var s := Render(rs);
    OpeningNoClose(r);
    var k := |Opening(r)|;
    assert s[..k] == Opening(r);
    FirstIndexIs(s, ']', k);
    assert s[..k + 1] == RenderInterval(r);
    MatchRenderInterval(r);
    assert s[k + 1..] == Render(rest);
    if rest == [] {
      assert |s| == k + 1;
      assert ParseIntervals(s) == Some([r]);
      assert rs == [r];
    } else {
      ParseRender(rest);
      assert |Render(rest)| > 0;
      assert ParseIntervals(s) == Some([r] + rest);
    }
  }

  /** `split_inclusive(']')` of a matching text yields one piece per interval. */
  lemma {:induction false} RenderSplitInclusive(rs: seq<RawInterval>)
    requires AllValid(rs)
    ensures SplitInclusive(Render(rs), ']') == seq(|rs|, i requires 0 <= i < |rs| => RenderInterval(rs[i]))
  {
    if rs != [] {
      var r, rest := rs[0], rs[1..];
      assert SplitInclusive(Render(rs), ']') == [RenderInterval(r)] + SplitInclusive(Render(rest), ']') by {
        assert rs == [r] + rest;
        RenderCons(r, rest);
        OpeningNoClose(r);
        SplitInclusiveCons(Opening(r), ']', Render(rest));
      }
      assert AllValid(rest) by {
        assert forall i :: 0 <= i < |rest| ==> rest[i] == rs[i + 1];
      }
      RenderSplitInclusive(rest);
      IntervalTextsCons(rs);
    }
  }

  lemma IntervalTextsCons(rs: seq<RawInterval>)
    requires |rs| > 0
    ensures seq(|rs|, i requires 0 <= i < |rs| => RenderInterval(rs[i]))
      == [RenderInterval(rs[0])] + seq(|rs| - 1, i requires 0 <= i < |rs| - 1 => RenderInterval(rs[1..][i]))
  {
  }

  /** The texts of the intervals without their ']'. */
  function OpeningTexts(rs: seq<RawInterval>): (os: seq<string>)
    ensures |os| == |rs|
    ensures forall i :: 0 <= i < |rs| ==> os[i] == Opening(rs[i])
  {
    if rs == [] then [] else [Opening(rs[0])] + OpeningTexts(rs[1..])
  }

  /** `split(']')` of a matching text yields the interval texts without
      their ']', followed by one empty piece. */
  lemma {:induction false} RenderSplit(rs: seq<RawInterval>)
    requires AllValid(rs)
    ensures Split(Render(rs), ']') == OpeningTexts(rs) + [""]
  {
    if rs == [] {
      assert ']' !in "";
    } else {
      var r, rest := rs[0], rs[1..];
      assert Split(Render(rs), ']') == [Opening(r)] + Split(Render(rest), ']') by {
        assert rs == [r] + rest;
        RenderCons(r, rest);
        OpeningNoClose(r);
        SplitCons(Opening(r), ']', Render(rest));
      }
      assert AllValid(rest) by {
        assert forall i :: 0 <= i < |rest| ==> rest[i] == rs[i + 1];
      }
      RenderSplit(rest);
      assert [Opening(r)] + (OpeningTexts(rest) + [""]) == ([Opening(r)] + OpeningTexts(rest)) + [""];
    }
  }

  /** `interval[1..].split(',')` of an interval text without its ']'. */
  lemma OpeningFields(r: RawInterval)
    requires ValidRaw(r)
    ensures |Opening(r)| >= 1
    ensures Split(Opening(r)[1..], ',') == [r.from, r.to]
  {
    var o := Opening(r);
    assert o[1..] == r.from + [','] + r.to;
    SplitCons(r.from, ',', r.to);
  }
}
