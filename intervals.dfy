/** Cut intervals of the frame-accurate cutter: boundaries are frame
    numbers (`usize`) or times (`u64` microseconds), both natural numbers
    here, and an interval is a pair of boundaries of one type. */
module Intervals {
  import opened Wrappers
  import opened Text
  import opened Numbers
  import opened TimeCode
  import opened IntervalSyntax
  import opened Search
  import opened StreamInfo

  // ---------------------------------------------------------------------
  // Boundary types

  datatype BoundaryType = Frame | Time

  /** `Display for BoundaryType`. */
  function BoundaryTypeName(t: BoundaryType): string {
    match t
    case Frame => "frame"
    case Time => "time"
  }

  /** `BoundaryType::from_str`: case-insensitive, and "FRAME" is looked for
      before "TIME". */
  function BoundaryTypeFromStr(s: string): (r: Result<BoundaryType>)
    ensures r == Ok(Frame) <==> Contains(ToUpper(s), "FRAME")
    ensures r == Ok(Time) <==> !Contains(ToUpper(s), "FRAME") && Contains(ToUpper(s), "TIME")
    ensures r.Err? <==> !Contains(ToUpper(s), "FRAME") && !Contains(ToUpper(s), "TIME")
  {
    if Contains(ToUpper(s), "FRAME") then Ok(Frame)
    else if Contains(ToUpper(s), "TIME") then Ok(Time)
    else Err("\"" + s + "\" is not a valid boundary type")
  }

  /** Upper-casing the argument first changes no boundary type it reads
      as, and fails exactly when the argument fails. */
  lemma BoundaryTypeCaseInsensitive(s: string)
    ensures BoundaryTypeFromStr(ToUpper(s)).Ok? <==> BoundaryTypeFromStr(s).Ok?
    ensures BoundaryTypeFromStr(s).Ok? ==> BoundaryTypeFromStr(ToUpper(s)) == BoundaryTypeFromStr(s)
  {
    ToUpperIdempotent(s);
  }

  lemma ContainsSelf(s: string)
    ensures Contains(s, s)
  {
    assert s[..|s|] == s;
  }

  /** The printed name of a boundary type reads back as that type. */
  lemma BoundaryTypeRoundTrip(t: BoundaryType)
    ensures BoundaryTypeFromStr(BoundaryTypeName(t)) == Ok(t)
  {
    var u := ToUpper(BoundaryTypeName(t));
    ToUpperLower(BoundaryTypeName(t));
    if t == Frame {
      assert u == "FRAME";
      ContainsSelf("FRAME");
    } else {
      assert u == "TIME";
      ContainsSelf("TIME");
      TimeLacksFrame();
    }
  }

  lemma TimeLacksFrame()
    ensures !Contains("TIME", "FRAME")
  {
    assert !StartsWith("TIME", "FRAME");
    assert "TIME"[1..] == "IME";
    assert !StartsWith("IME", "FRAME");
    assert "IME"[1..] == "ME";
    assert "ME"[1..] == "E";
    assert "E"[1..] == "";
  }

  /** Upper-casing is Unicode's: a dotless i counts as the I of "TIME". */
  lemma DotlessIReadsAsTime()
    ensures BoundaryTypeFromStr("t\U{131}me") == Ok(Time)
  {
    var s := "t\U{131}me";
    assert s[1..] == "\U{131}me" && s[1..][1..] == "me";
    ToUpperLower("me");
    assert ToUpper(s) == "TIME";
    ContainsSelf("TIME");
    TimeLacksFrame();
  }

  // ---------------------------------------------------------------------
  // Boundaries

  /** `Frame::from_str` (an `f64` cast to `usize`) and `Time::from_str` (a
      time string whose seconds are cast to `u64` microseconds). */
  function ParseBoundary(t: BoundaryType, s: string): (r: Result<nat>)
    requires t == Time ==> !BareDot(s)
    ensures r.Ok? ==> r.value <= U64_MAX
    ensures t == Frame ==> (r.Ok? <==> DecimalLiteral(s))
    ensures t == Time ==> (r.Ok? <==> IsTimeString(s))
  {
    match t
    case Frame =>
      (match ParseMicros(s)
       case None => Err("Could not parse a frame number from \"" + s + "\"")
       case Some(v) => Ok(UnitsToU64(v)))
    case Time =>
      match ParseTime(s)
      case Err(e) => Err(e)
      case Ok(us) => Ok(MicrosToU64(us))
  }

  /** The text a boundary is written as: `{}` for a frame number, the
      "HH:MM:SS.ffffff" form for a time. */
  function BoundaryText(t: BoundaryType, b: nat): string {
    match t
    case Frame => NatToString(b)
    case Time => FormatTime(b)
  }

  lemma BoundaryTextRoundTrip(t: BoundaryType, b: nat)
    requires b <= U64_MAX
    ensures t == Time ==> !BareDot(BoundaryText(t, b))
    ensures ParseBoundary(t, BoundaryText(t, b)) == Ok(b)
  {
    match t
    case Frame =>
      ParseNatString(b);
      assert (b * MICROS) / MICROS == b;
    case Time =>
      ParseFormatTime(b);
  }

  lemma BoundaryTextIsBound(t: BoundaryType, b: nat)
    ensures BoundText(BoundaryText(t, b))
  {
    match t
    case Frame =>
      DigitsExclude(NatToString(b), '[');
      DigitsExclude(NatToString(b), ']');
      DigitsExclude(NatToString(b), ',');
    case Time =>
      var secs := b / MICROS;
      var pieces := [Padded(secs / 3600, 2), Padded(secs % 3600 / 60, 2), Padded(secs % 60, 2), Padded(b % MICROS, 6)];
      forall i | 0 <= i < 4 ensures '[' !in pieces[i] && ']' !in pieces[i] && ',' !in pieces[i] {
        DigitsExclude(pieces[i], '[');
        DigitsExclude(pieces[i], ']');
        DigitsExclude(pieces[i], ',');
      }
      assert FormatTime(b) == pieces[0] + ":" + pieces[1] + ":" + pieces[2] + "." + pieces[3];
  }

  // ---------------------------------------------------------------------
  // Intervals

  datatype Interval = Interval(from: nat, to: nat)

  /** `Interval::from_from_to`: no interval for equal boundaries; the
      order of the boundaries is not checked. */
  function FromFromTo(a: nat, b: nat): (r: Option<Interval>)
    ensures r.None? <==> a == b
    ensures r.Some? ==> r.value.from == a && r.value.to == b
  {
    if a == b then None else Some(Interval(a, b))
  }

  /** `Interval::len`: the boundaries are subtracted as unsigned integers,
      so the source needs `from <= to`. */
  function Len(iv: Interval): (r: nat)
    requires iv.from <= iv.to
    ensures iv.from + r == iv.to
  {
    iv.to - iv.from
  }

  /** `Interval::from_start_duration`: no interval for a zero duration,
      else one whose length is the duration.  The sum is taken in `u64`,
      so the end must not pass its maximum. */
  function FromStartDuration(start: nat, duration: nat): (r: Option<Interval>)
    requires start + duration <= U64_MAX
    ensures r.None? <==> duration == 0
    ensures r.Some? ==> r.value.from == start && r.value.from <= r.value.to <= U64_MAX && Len(r.value) == duration
  {
    if start == start + duration then None else Some(Interval(start, start + duration))
  }

  /** `Boundary::to_frame`. */
  function BoundaryToFrame(t: BoundaryType, b: nat, m: Metadata): (r: Result<nat>)
    ensures t == Frame ==> r == Ok(b)
    ensures t == Time ==> (r.Ok? <==> HasFrames(m)) && (r.Ok? ==> r.value < |m.times|)
  {
    match t
    case Frame => Ok(b)
    case Time => if !HasFrames(m) then Err("Cannot turn time boundary into frame boundary, since video has no frames") else TimeToFrame(m, b)
  }

  /** `Boundary::to_time`. */
  function BoundaryToTime(t: BoundaryType, b: nat, m: Metadata): (r: Result<nat>)
    ensures t == Time ==> r == Ok(b)
    ensures t == Frame ==> (r.Ok? <==> b < |m.times|) && (r.Ok? ==> r.value == m.times[b])
  {
    match t
    case Frame => FrameToTime(m, b)
    case Time => Ok(b)
  }

  /** `Interval::to_frames`: both boundaries converted, the first error
      returned. */
  function ToFrames(t: BoundaryType, iv: Interval, m: Metadata): (r: Result<Interval>)
    ensures r.Ok? <==> BoundaryToFrame(t, iv.from, m).Ok? && BoundaryToFrame(t, iv.to, m).Ok?
    ensures r.Ok? ==> r.value == Interval(BoundaryToFrame(t, iv.from, m).value, BoundaryToFrame(t, iv.to, m).value)
  {
    match BoundaryToFrame(t, iv.from, m)
    case Err(e) => Err(e)
    case Ok(a) =>
      match BoundaryToFrame(t, iv.to, m)
      case Err(e) => Err(e)
      case Ok(b) => Ok(Interval(a, b))
  }

  /** `Interval::to_times`. */
  function ToTimes(t: BoundaryType, iv: Interval, m: Metadata): (r: Result<Interval>)
    ensures r.Ok? <==> BoundaryToTime(t, iv.from, m).Ok? && BoundaryToTime(t, iv.to, m).Ok?
    ensures r.Ok? ==> r.value == Interval(BoundaryToTime(t, iv.from, m).value, BoundaryToTime(t, iv.to, m).value)
  {
    match BoundaryToTime(t, iv.from, m)
    case Err(e) => Err(e)
    case Ok(a) =>
      match BoundaryToTime(t, iv.to, m)
      case Err(e) => Err(e)
      case Ok(b) => Ok(Interval(a, b))
  }

  /** With strictly increasing frame times, converting a frame interval
      to times and back gives the frame interval again. */
  lemma FramesTimesRoundTrip(iv: Interval, m: Metadata)
    requires StrictlyIncreasing(m.times) && iv.from < |m.times| && iv.to < |m.times|
    ensures ToTimes(Frame, iv, m).Ok?
    ensures ToFrames(Time, ToTimes(Frame, iv, m).value, m) == Ok(iv)
  {
    FrameTimeRoundTrip(m, iv.from);
    FrameTimeRoundTrip(m, iv.to);
  }

  /** `Interval::to_key_frames`: the key-frame interval inside a frame
      interval.  The source panics for `from > to`. */
  function ToKeyFrames(iv: Interval, m: Metadata): (r: Option<Interval>)
    requires iv.from <= iv.to
    ensures r.Some? <==> KeyFrameGreaterOrEqual(m, iv.from, iv.to).Some? && KeyFrameLessOrEqual(m, iv.to, iv.from).Some?
    ensures r.Some? ==> r.value.from in m.keyFrames && r.value.to in m.keyFrames
    ensures Sorted(m.keyFrames) && r.Some? ==> iv.from <= r.value.from <= r.value.to <= iv.to
  {
    match KeyFrameGreaterOrEqual(m, iv.from, iv.to)
    case None => None
    case Some(a) =>
      match KeyFrameLessOrEqual(m, iv.to, iv.from)
      case None => None
      case Some(b) =>
        assert Sorted(m.keyFrames) ==> a <= b by {
          if Sorted(m.keyFrames) {
            var j :| 0 <= j < |m.keyFrames| && m.keyFrames[j] == a;
          }
        }
        Some(Interval(a, b))
  }

  // ---------------------------------------------------------------------
  // Interval lists

  /** `Interval::from_str` applied to the captured bound texts. */
  function ParseRaw(t: BoundaryType, raw: RawInterval): (r: Result<Interval>)
    requires t == Time ==> !BareDot(raw.from) && !BareDot(raw.to)
  {
    match ParseBoundary(t, raw.from)
    case Err(e) => Err(e)
    case Ok(a) =>
      match ParseBoundary(t, raw.to)
      case Err(e) => Err(e)
      case Ok(b) => Ok(Interval(a, b))
  }

  /** `Interval::from_str`. */
  function IntervalFromStr(t: BoundaryType, s: string): (r: Result<Interval>)
    requires t == Time && MatchInterval(s).Some? ==> !BareDot(MatchInterval(s).value.from) && !BareDot(MatchInterval(s).value.to)
    ensures r.Ok? ==> MatchInterval(s).Some?
    ensures MatchInterval(s).None? ==> r == Err("\"" + s + "\" is not a valid interval")
    ensures MatchInterval(s).Some? ==> r == ParseRaw(t, MatchInterval(s).value)
  {
    match MatchInterval(s)
    case None => Err("\"" + s + "\" is not a valid interval")
    case Some(raw) => ParseRaw(t, raw)
  }

  /** The time bounds of a list contain no bare '.', on which the source
      panics. */
  predicate NoBareDot(t: BoundaryType, rs: seq<RawInterval>) {
    t == Time ==> forall i :: 0 <= i < |rs| ==> !BareDot(rs[i].from) && !BareDot(rs[i].to)
  }

  /** Every piece parsed on its own. */
  function ParseAll(t: BoundaryType, rs: seq<RawInterval>): (ps: seq<Result<Interval>>)
    requires NoBareDot(t, rs)
    ensures |ps| == |rs|
  {
    seq(|rs|, i requires 0 <= i < |rs| && NoBareDot(t, rs) => ParseRaw(t, rs[i]))
  }

  /** The loop of `intervals_from_str` over parsed pieces: the first error,
      else the nonempty intervals in textual order.  With `len()` computed
      by wrapping subtraction (as in a release build), an interval is kept
      exactly when its boundaries differ. */
  function KeepNonEmpty(ps: seq<Result<Interval>>): (r: Result<seq<Interval>>)
    ensures r.Ok? <==> forall i :: 0 <= i < |ps| ==> ps[i].Ok?
    ensures r.Ok? ==> |r.value| <= |ps| && forall j :: 0 <= j < |r.value| ==> r.value[j].from != r.value[j].to
  {
    if ps == [] then Ok([])
    else
      var init, last := ps[..|ps| - 1], ps[|ps| - 1];
      assert forall i :: 0 <= i < |init| ==> init[i] == ps[i];
      match KeepNonEmpty(init)
      case Err(e) => Err(e)
      case Ok(acc) =>
        match last
        case Err(e) => Err(e)
        case Ok(iv) => Ok(if iv.from != iv.to then acc + [iv] else acc)
  }

  /** Once a prefix has failed, the whole list fails with the same error. */
  lemma {:induction false} KeepErrSticky(ps: seq<Result<Interval>>, j: nat)
    requires j <= |ps| && KeepNonEmpty(ps[..j]).Err?
    ensures KeepNonEmpty(ps) == KeepNonEmpty(ps[..j])
  {
    if j < |ps| {
      var init := ps[..|ps| - 1];
      assert init[..j] == ps[..j];
      KeepErrSticky(init, j);
    } else {
      assert ps[..j] == ps;
    }
  }

  /** Intervals whose boundaries all differ are kept, all of them, in order. */
  lemma {:induction false} KeepAll(ivs: seq<Interval>)
    requires forall i :: 0 <= i < |ivs| ==> ivs[i].from != ivs[i].to
    ensures KeepNonEmpty(seq(|ivs|, i requires 0 <= i < |ivs| => Ok(ivs[i]))) == Ok(ivs)
  {
    if ivs != [] {
      var ps := seq(|ivs|, i requires 0 <= i < |ivs| => Ok(ivs[i]));
      var init := ivs[..|ivs| - 1];
      KeepAll(init);
      assert ps[..|ps| - 1] == seq(|init|, i requires 0 <= i < |init| => Ok(init[i]));
      assert ivs == init + [ivs[|ivs| - 1]];
    }
  }

  predicate ListNoBareDot(t: BoundaryType, s: string) {
    ParseIntervals(s).Some? ==> NoBareDot(t, ParseIntervals(s).value)
  }

  function NotIntervalList(s: string): string {
    "\"" + s + "\" is not a valid list of intervals"
  }

  /** What `intervals_from_str` computes. */
  function IntervalsOf(t: BoundaryType, s: string): (r: Result<seq<Interval>>)
    requires ListNoBareDot(t, s)
    ensures ParseIntervals(s).None? ==> r.Err?
    ensures r.Ok? ==> forall j :: 0 <= j < |r.value| ==> r.value[j].from != r.value[j].to
  {
    match ParseIntervals(s)
    case None => Err(NotIntervalList(s))
    case Some(rs) => KeepNonEmpty(ParseAll(t, rs))
  }

  lemma PieceParses(t: BoundaryType, rs: seq<RawInterval>, i: nat)
    requires AllValid(rs) && NoBareDot(t, rs) && i < |rs|
    ensures var m := MatchInterval(RenderInterval(rs[i]));
      m == Some(rs[i]) && (t == Time ==> !BareDot(m.value.from) && !BareDot(m.value.to))
    ensures IntervalFromStr(t, RenderInterval(rs[i])) == ParseAll(t, rs)[i]
  {
    MatchRenderInterval(rs[i]);
  }

  /** Each text of `pieces` is parsed by `Interval::from_str` to the
      matching entry of `ps`. */
  predicate PiecesParseTo(t: BoundaryType, pieces: seq<string>, ps: seq<Result<Interval>>) {
    |pieces| == |ps| &&
    forall i :: 0 <= i < |pieces| ==>
      (t == Time && MatchInterval(pieces[i]).Some? ==> !BareDot(MatchInterval(pieces[i]).value.from) && !BareDot(MatchInterval(pieces[i]).value.to)) &&
      IntervalFromStr(t, pieces[i]) == ps[i]
  }

  /** The loop of `intervals_from_str`: parse each piece, stop at the first
      error, keep the intervals of nonzero length. */
  method CollectIntervals(t: BoundaryType, pieces: seq<string>, ghost ps: seq<Result<Interval>>) returns (r: Result<seq<Interval>>)
    requires PiecesParseTo(t, pieces, ps)
    ensures r == KeepNonEmpty(ps)
  {
    var intervals: seq<Interval> := [];
    for i := 0 to |pieces|
      invariant KeepNonEmpty(ps[..i]) == Ok(intervals)
    {
      assert ps[..i + 1][..i] == ps[..i];
      var iv := IntervalFromStr(t, pieces[i]);
      if iv.Err? {
        KeepErrSticky(ps, i + 1);
        return Err(iv.error);
      }
      if iv.value.from != iv.value.to {
        intervals := intervals + [iv.value];
      }
    }
    assert ps[..|ps|] == ps;
    r := Ok(intervals);
  }

  /** `intervals_from_str`: the text is checked against the list grammar,
      split after every ']', and each piece parsed as an interval. */
  method IntervalsFromStr(t: BoundaryType, s: string) returns (r: Result<seq<Interval>>)
    requires ListNoBareDot(t, s)
    ensures r == IntervalsOf(t, s)
  {
    var parsed := ParseIntervals(s);
    if parsed.None? {
      return Err(NotIntervalList(s));
    }
    var rs := parsed.value;
    ghost var ps := ParseAll(t, rs);
    var pieces := SplitInclusive(s, ']');
    RenderSplitInclusive(rs);
    forall i | 0 <= i < |pieces|
      ensures (t == Time && MatchInterval(pieces[i]).Some? ==> !BareDot(MatchInterval(pieces[i]).value.from) && !BareDot(MatchInterval(pieces[i]).value.to))
      ensures IntervalFromStr(t, pieces[i]) == ps[i]
    {
      PieceParses(t, rs, i);
    }
    r := CollectIntervals(t, pieces, ps);
  }

  /** The text of a list of intervals. */
  function ListText(t: BoundaryType, ivs: seq<Interval>): (rs: seq<RawInterval>)
    ensures |rs| == |ivs|
  {
    seq(|ivs|, i requires 0 <= i < |ivs| => RawInterval(BoundaryText(t, ivs[i].from), BoundaryText(t, ivs[i].to)))
  }

  lemma ParseListText(t: BoundaryType, ivs: seq<Interval>)
    requires forall i :: 0 <= i < |ivs| ==> ivs[i].from <= U64_MAX && ivs[i].to <= U64_MAX
    ensures NoBareDot(t, ListText(t, ivs))
    ensures ParseAll(t, ListText(t, ivs)) == seq(|ivs|, i requires 0 <= i < |ivs| => Ok(ivs[i]))
  {
    var rs := ListText(t, ivs);
    forall i | 0 <= i < |ivs| ensures (t == Time ==> !BareDot(rs[i].from) && !BareDot(rs[i].to)) && ParseRaw(t, rs[i]) == Ok(ivs[i]) {
      BoundaryTextRoundTrip(t, ivs[i].from);
      BoundaryTextRoundTrip(t, ivs[i].to);
    }
  }

  /** A list of nonempty intervals written out as "[a,b][c,d]…" is read
      back by `intervals_from_str` as the same list. */
  lemma IntervalsRoundTrip(t: BoundaryType, ivs: seq<Interval>)
    requires |ivs| >= 1
    requires forall i :: 0 <= i < |ivs| ==> ivs[i].from != ivs[i].to && ivs[i].from <= U64_MAX && ivs[i].to <= U64_MAX
    ensures ListNoBareDot(t, Render(ListText(t, ivs)))
    ensures IntervalsOf(t, Render(ListText(t, ivs))) == Ok(ivs)
  {
    var rs := ListText(t, ivs);
    forall i | 0 <= i < |rs| ensures ValidRaw(rs[i]) {
      BoundaryTextIsBound(t, ivs[i].from);
      BoundaryTextIsBound(t, ivs[i].to);
    }
    ParseRender(rs);
    ParseListText(t, ivs);
    KeepAll(ivs);
  }
}
