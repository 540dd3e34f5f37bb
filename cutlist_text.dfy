/** The two texts of cut lists: the intervals strings "frames:[a,b]…" and
    "time:[a,b]…" given on the command line, and the `--split` argument
    "parts-frames:a-b,+c-d…" / "parts:a-b,+c-d…" that mkvmerge is run
    with.  All generations of the cut-list code write and read them alike. */
module CutlistText {
  import opened Wrappers
  import opened Text
  import opened Numbers
  import opened TimeCode
  import opened IntervalSyntax
  import opened CutlistCore

  // ---------------------------------------------------------------------
  // Intervals strings

  /** The kind named before the ':' of an intervals string, and the text
      after the ':'. */
  function SplitKind(s: string): (r: Option<(Kind, string)>)
    ensures r.Some? ==> s == KindName(r.value.0) + ":" + r.value.1
  {
    if StartsWith(s, "frames:") then
      assert s == s[..7] + s[7..];
      Some((Frames, s[7..]))
    else if StartsWith(s, "time:") then
      assert s == s[..5] + s[5..];
      Some((Time, s[5..]))
    else None
  }

  lemma SplitKindOf(k: Kind, rest: string)
    ensures SplitKind(KindName(k) + ":" + rest) == Some((k, rest))
  {
    var s := KindName(k) + ":" + rest;
    match k
    case Frames =>
      assert s[..7] == "frames:";
      assert s[7..] == rest;
    case Time =>
      assert s[0] == 't';
      assert s[..5] == "time:";
      assert s[5..] == rest;
  }

  /** `RE_INTERVALS`, `^(frames|time):((\[[^,]+,[^,]+\])+)$`, with bounds
      free of '[' and ']': the kind and the bound texts of the intervals. */
  function MatchIntervals(s: string): (r: Option<(Kind, seq<RawInterval>)>)
    ensures r.Some? ==> |r.value.1| >= 1 && AllValid(r.value.1) && s == KindName(r.value.0) + ":" + Render(r.value.1)
  {
    match SplitKind(s)
    case None => None
    case Some((k, rest)) =>
      match ParseIntervals(rest)
      case None => None
      case Some(rs) => Some((k, rs))
  }

  /** A time bound that ends in a bare '.' makes the source panic. */
  predicate PointReadable(k: Kind, text: string) {
    k == Time ==> !BareDot(Trim(text))
  }

  predicate RawsReadable(k: Kind, rs: seq<RawInterval>) {
    forall i :: 0 <= i < |rs| ==> PointReadable(k, rs[i].from) && PointReadable(k, rs[i].to)
  }

  /** One interval: both trimmed bounds as `cut_str_to_f64` reads them. */
  function ItemOfRaw(k: Kind, raw: RawInterval): (r: Result<Item>)
    requires PointReadable(k, raw.from) && PointReadable(k, raw.to)
  {
    match CutStrToMicros(k, Trim(raw.from))
    case Err(e) => Err(e)
    case Ok(start) =>
      match CutStrToMicros(k, Trim(raw.to))
      case Err(e) => Err(e)
      case Ok(end) => Ok(Item(start, end))
  }

  /** Each interval read on its own. */
  function RawResults(k: Kind, rs: seq<RawInterval>): (ps: seq<Result<Item>>)
    requires RawsReadable(k, rs)
    ensures |ps| == |rs|
  {
    seq(|rs|, i requires 0 <= i < |rs| && RawsReadable(k, rs) => ItemOfRaw(k, rs[i]))
  }

  /** The first error of the results, or all their values in order. */
  function AllOk(ps: seq<Result<Item>>): (r: Result<seq<Item>>)
    ensures r.Ok? <==> forall i :: 0 <= i < |ps| ==> ps[i].Ok?
    ensures r.Ok? ==> |r.value| == |ps| && forall i :: 0 <= i < |ps| ==> r.value[i] == ps[i].value
  {
    if ps == [] then Ok([])
    else
      var init := ps[..|ps| - 1];
      assert forall i :: 0 <= i < |init| ==> init[i] == ps[i];
      match AllOk(init)
      case Err(e) => Err(e)
      case Ok(items) =>
        match ps[|ps| - 1]
        case Err(e) => Err(e)
        case Ok(item) => Ok(items + [item])
  }

  /** All intervals, in textual order, or an error if one bound is unreadable. */
  function ItemsOfRaws(k: Kind, rs: seq<RawInterval>): Result<seq<Item>>
    requires RawsReadable(k, rs)
  {
    AllOk(RawResults(k, rs))
  }

  predicate IntervalsReadable(s: string) {
    MatchIntervals(s).Some? ==> RawsReadable(MatchIntervals(s).value.0, MatchIntervals(s).value.1)
  }

  function NotIntervals(s: string): string {
    "\"" + s + "\" is not a valid intervals string"
  }

  function CannotCreate(s: string): string {
    "Cannot create cut list from \"" + s + "\""
  }

  /** What the intervals-string parsers compute before any validation: the
      kind of the prefix and one item per interval, in textual order. */
  function IntervalsItems(s: string): (r: Result<(Kind, seq<Item>)>)
    requires IntervalsReadable(s)
    ensures r.Ok? ==>
      MatchIntervals(s).Some? && r.value.0 == MatchIntervals(s).value.0 && |r.value.1| == |MatchIntervals(s).value.1| >= 1
  {
    match MatchIntervals(s)
    case None => Err(NotIntervals(s))
    case Some((k, rs)) =>
      match ItemsOfRaws(k, rs)
      case Err(_) => Err(CannotCreate(s))
      case Ok(items) => Ok((k, items))
  }

  lemma AllOkSnoc(ps: seq<Result<Item>>, i: nat)
    requires i < |ps|
    ensures AllOk(ps[..i + 1]) ==
      match AllOk(ps[..i])
      case Err(e) => Err(e)
      case Ok(items) =>
        match ps[i]
        case Err(e) => Err(e)
        case Ok(item) => Ok(items + [item])
  {
    assert ps[..i + 1][..i] == ps[..i];
  }

  /** One more result that is a value extends the values. */
  lemma AllOkGrows(ps: seq<Result<Item>>, i: nat, items: seq<Item>, item: Item)
    requires i < |ps| && AllOk(ps[..i]) == Ok(items) && ps[i] == Ok(item)
    ensures AllOk(ps[..i + 1]) == Ok(items + [item])
  {
    AllOkSnoc(ps, i);
  }

  /** One result that is an error makes all of them fail. */
  lemma AllOkFails(ps: seq<Result<Item>>, i: nat)
    requires i < |ps| && ps[i].Err?
    ensures AllOk(ps).Err?
  {
  }

  /** The texts of the intervals without their ']', then one empty text:
      what `split(']')` makes of rendered intervals. */
  function Openings(rs: seq<RawInterval>): (os: seq<string>)
    ensures |os| == |rs| + 1 && os[|rs|] == ""
    ensures forall i :: 0 <= i < |rs| ==> os[i] == Opening(rs[i])
  {
    OpeningTexts(rs) + [""]
  }

  function Min(a: nat, b: nat): nat {
    if a <= b then a else b
  }

  /** The loop over the pieces of `split(']')`: empty pieces are skipped,
      and the two comma-separated bounds of each other piece are trimmed
      and read; the first bound that cannot be read stops the loop. */
  method ReadOpenings(k: Kind, pieces: seq<string>, ghost rs: seq<RawInterval>) returns (r: Option<seq<Item>>)
    requires AllValid(rs) && RawsReadable(k, rs)
    requires pieces == Openings(rs)
    ensures r.Some? <==> ItemsOfRaws(k, rs).Ok?
    ensures r.Some? ==> r.value == ItemsOfRaws(k, rs).value
  {
    ghost var ps := RawResults(k, rs);
    var items: seq<Item> := [];
    for i := 0 to |pieces|
      invariant AllOk(ps[..Min(i, |rs|)]) == Ok(items)
    {
      var interval := pieces[i];
      if interval == [] {
        continue;
      }
      assert i < |rs| && interval == Opening(rs[i]);
      var item := ReadOpening(k, interval, rs[i]);
      ReadStep(k, rs, i, items, item);
      if item.Err? {
        return None;
      }
      items := items + [item.value];
    }
    assert ps[..|rs|] == ps;
    return Some(items);
  }

  /** What one interval read in the loop adds to the results so far. */
  lemma ReadStep(k: Kind, rs: seq<RawInterval>, i: nat, items: seq<Item>, item: Result<Item>)
    requires RawsReadable(k, rs) && i < |rs| && AllOk(RawResults(k, rs)[..i]) == Ok(items)
    requires item == ItemOfRaw(k, rs[i])
    ensures item.Err? ==> ItemsOfRaws(k, rs).Err?
    ensures item.Ok? ==> AllOk(RawResults(k, rs)[..i + 1]) == Ok(items + [item.value])
  {
    var ps := RawResults(k, rs);
    assert ps[i] == item;
    if item.Err? {
      AllOkFails(ps, i);
    } else {
      AllOkGrows(ps, i, items, item.value);
    }
  }

  /** One piece of the loop: the two comma-separated bounds of an
      interval text, trimmed and read. */
  method ReadOpening(k: Kind, interval: string, ghost raw: RawInterval) returns (r: Result<Item>)
    requires ValidRaw(raw) && PointReadable(k, raw.from) && PointReadable(k, raw.to)
    requires interval == Opening(raw)
    ensures r == ItemOfRaw(k, raw)
  {
    OpeningFields(raw);
    var points := Split(interval[1..], ',');
    var start := CutStrToMicros(k, Trim(points[0]));
    if start.Err? {
      return Err(start.error);
    }
    var end := CutStrToMicros(k, Trim(points[1]));
    if end.Err? {
      return Err(end.error);
    }
    return Ok(Item(start.value, end.value));
  }

  /** `try_from_intervals` / `from_str` before validation: the kind of the
      prefix, then the intervals read one by one. */
  method ReadIntervalsString(s: string) returns (r: Result<(Kind, seq<Item>)>)
    requires IntervalsReadable(s)
    ensures r == IntervalsItems(s)
  {
    if MatchIntervals(s).None? {
      return Err(NotIntervals(s));
    }
    var k, rest := SplitKind(s).value.0, SplitKind(s).value.1;
    ghost var rs := MatchIntervals(s).value.1;
    RenderSplit(rs);
    var items := ReadOpenings(k, Split(rest, ']'), rs);
    if items.None? {
      return Err(CannotCreate(s));
    }
    return Ok((k, items.value));
  }

  /** A cut point as an intervals string writes it: `{}` of the frame
      number, or the time as "HH:MM:SS.ffffff". */
  function IntervalPointText(k: Kind, v: int): string {
    match k
    case Frames => FormatMicros(v)
    case Time => FormatPoint(v)
  }

  function RawsOf(k: Kind, items: seq<Item>): (rs: seq<RawInterval>)
    ensures |rs| == |items|
  {
    seq(|items|, i requires 0 <= i < |items| => RawInterval(IntervalPointText(k, items[i].start), IntervalPointText(k, items[i].end)))
  }

  /** The intervals string of items of one kind. */
  function IntervalsText(k: Kind, items: seq<Item>): string {
    KindName(k) + ":" + Render(RawsOf(k, items))
  }

  /** A text of digits and `extra`, none of them a bracket, comma or
      white space, is a bound of the grammar that `trim` leaves alone. */
  lemma BoundOfChars(t: string, extra: set<char>)
    requires |t| >= 1 && DigitsAnd(t, extra)
    requires '[' !in extra && ']' !in extra && ',' !in extra
    requires forall c :: c in extra ==> !IsWhitespace(c)
    ensures BoundText(t) && Trim(t) == t
  {
    DigitsAndExclude(t, extra, '[');
    DigitsAndExclude(t, extra, ']');
    DigitsAndExclude(t, extra, ',');
    TrimDigitsAnd(t, extra);
  }

  /** `t`, the text written for the point `v`, is a bound of the grammar
      that `trim` leaves alone and that reads back as `v`. */
  predicate ReadsBack(k: Kind, t: string, v: int) {
    (k == Time ==> !BareDot(t)) && CutStrToMicros(k, t) == Ok(v) && BoundText(t) && Trim(t) == t
  }

  lemma FramesParse(t: string, v: int)
    requires ParseMicros(t) == Some(v)
    ensures CutStrToMicros(Frames, t) == Ok(v)
  {
  }

  lemma FramesTextReads(t: string, v: int)
    requires |t| >= 1 && DigitsAnd(t, {'-', '.'}) && ParseMicros(t) == Some(v)
    ensures ReadsBack(Frames, t, v)
  {
    FramesParse(t, v);
    BoundOfChars(t, {'-', '.'});
  }

  lemma TimeTextReads(t: string, v: int)
    requires v >= 0 && |t| >= 1 && DigitsAnd(t, {':', '.'}) && !BareDot(t) && ParseTime(t) == Ok(v as nat)
    ensures ReadsBack(Time, t, v)
  {
    BoundOfChars(t, {':', '.'});
  }

  lemma FramesPointReads(v: int)
    ensures ReadsBack(Frames, IntervalPointText(Frames, v), v)
  {
    FormatMicrosChars(v);
    ParseFormatMicros(v);
    FramesTextReads(FormatMicros(v), v);
  }

  lemma TimePointReads(v: int)
    requires 0 <= v <= U64_MAX
    ensures ReadsBack(Time, IntervalPointText(Time, v), v)
  {
    FormatTimeChars(MicrosToU64(v));
    ParseFormatPoint(v);
    TimeTextReads(FormatPoint(v), v);
  }

  /** A point that is written is a bound of the grammar, unchanged by
      `trim`, and read back (times within `u64` microseconds). */
  lemma PointTextReads(k: Kind, v: int)
    requires k == Time ==> 0 <= v <= U64_MAX
    ensures ReadsBack(k, IntervalPointText(k, v), v)
  {
    if k == Frames {
      FramesPointReads(v);
    } else {
      TimePointReads(v);
    }
  }

  lemma AllOkOf(ps: seq<Result<Item>>, items: seq<Item>)
    requires |ps| == |items| && forall i :: 0 <= i < |ps| ==> ps[i] == Ok(items[i])
    ensures AllOk(ps) == Ok(items)
  {
    var r := AllOk(ps);
    assert r.Ok?;
    assert r.value == items;
  }

  /** The bounds written for items are valid, readable and read back. */
  lemma RawsOfRead(k: Kind, items: seq<Item>)
    requires k == Time ==> forall i :: 0 <= i < |items| ==> 0 <= items[i].start <= U64_MAX && 0 <= items[i].end <= U64_MAX
    ensures AllValid(RawsOf(k, items)) && RawsReadable(k, RawsOf(k, items))
    ensures ItemsOfRaws(k, RawsOf(k, items)) == Ok(items)
  {
    var rs := RawsOf(k, items);
    forall i | 0 <= i < |rs|
      ensures ValidRaw(rs[i]) && PointReadable(k, rs[i].from) && PointReadable(k, rs[i].to)
      ensures ItemOfRaw(k, rs[i]) == Ok(items[i])
    {
      PointTextReads(k, items[i].start);
      PointTextReads(k, items[i].end);
    }
    AllOkOf(RawResults(k, rs), items);
  }

  /** Items of one kind written as an intervals string are read back as
      the same kind and the same items. */
  lemma IntervalsTextRoundTrip(k: Kind, items: seq<Item>)
    requires |items| >= 1
    requires k == Time ==> forall i :: 0 <= i < |items| ==> 0 <= items[i].start <= U64_MAX && 0 <= items[i].end <= U64_MAX
    ensures IntervalsReadable(IntervalsText(k, items))
    ensures IntervalsItems(IntervalsText(k, items)) == Ok((k, items))
  {
    var rs := RawsOf(k, items);
    RawsOfRead(k, items);
    ParseRender(rs);
    SplitKindOf(k, Render(rs));
    assert MatchIntervals(IntervalsText(k, items)) == Some((k, rs));
  }

  // ---------------------------------------------------------------------
  // Split strings of mkvmerge

  /** "parts-frames:" for frame numbers, "parts:" for times. */
  function SplitPrefix(k: Kind): string {
    match k
    case Frames => "parts-frames:"
    case Time => "parts:"
  }

  /** One part: "start-end". */
  function SplitPiece(k: Kind, item: Item): string {
    CutPointText(k, item.start) + "-" + CutPointText(k, item.end)
  }

  /** The part of each item. */
  function PieceOf(k: Kind): Item -> string {
    item => SplitPiece(k, item)
  }

  function SplitPieces(k: Kind, items: seq<Item>): (ps: seq<string>)
    ensures |ps| == |items|
    ensures forall i :: 0 <= i < |items| ==> ps[i] == SplitPiece(k, items[i])
  {
    MapSeq(PieceOf(k), items)
  }

  /** The split string: the prefix, then the parts in item order, joined
      with ",+". */
  function SplitStr(k: Kind, items: seq<Item>): string {
    SplitPrefix(k) + Join(SplitPieces(k, items), ",+")
  }

  lemma PiecesSnoc(k: Kind, items: seq<Item>, i: nat)
    requires i < |items|
    ensures SplitPieces(k, items[..i + 1]) == SplitPieces(k, items[..i]) + [SplitPiece(k, items[i])]
  {
    MapSnoc(PieceOf(k), items, i);
  }

  /** One more part: ",+" unless it is the first, then the part. */
  lemma SplitStrSnoc(k: Kind, items: seq<Item>, i: nat)
    requires i < |items|
    ensures SplitStr(k, items[..i + 1]) == SplitStr(k, items[..i]) + (if i > 0 then ",+" else "") + SplitPiece(k, items[i])
  {
    var before, piece := SplitPieces(k, items[..i]), SplitPiece(k, items[i]);
    PiecesSnoc(k, items, i);
    PrefixedJoinSnoc(SplitPrefix(k), before, piece, ",+");
    assert before == [] <==> i == 0;
  }

  /** One round of the loop that appends the parts: ",+" unless it is
      the first part, then the part. */
  method AppendPart(k: Kind, items: seq<Item>, i: nat, s: string) returns (t: string)
    requires i < |items| && s == SplitStr(k, items[..i])
    ensures t == SplitStr(k, items[..i + 1])
  {
    SplitStrSnoc(k, items, i);
    t := s;
    if i > 0 {
      t := t + ",+";
    } else {
      assert s + "" == s;
    }
    t := t + SplitPiece(k, items[i]);
  }

  /** The loop that appends the parts, with ",+" before every part but the
      first. */
  method BuildSplitStr(k: Kind, items: seq<Item>) returns (s: string)
    ensures s == SplitStr(k, items)
  {
    s := SplitPrefix(k);
    assert SplitPieces(k, items[..0]) == [];
    for i := 0 to |items|
      invariant s == SplitStr(k, items[..i])
    {
      s := AppendPart(k, items, i, s);
    }
    assert items[..|items|] == items;
  }

  /** A cut point as mkvmerge reads it: the source's own reader
      `cut_str_to_f64`. */
  function ReadPoint(k: Kind, text: string): Option<int> {
    if k == Time && BareDot(text) then None
    else
      match CutStrToMicros(k, text)
      case Ok(v) => Some(v)
      case Err(_) => None
  }

  /** A part "a-b". */
  function ReadPiece(k: Kind, text: string): Option<(int, int)> {
    var points := Split(text, '-');
    if |points| != 2 then None
    else
      match ReadPoint(k, points[0])
      case None => None
      case Some(a) =>
        match ReadPoint(k, points[1])
        case None => None
        case Some(b) => Some((a, b))
  }

  /** The texts between the '+' characters; all but the last end with ','. */
  function ReadPieces(k: Kind, ps: seq<string>): Option<seq<(int, int)>>
    requires |ps| >= 1
    decreases |ps|
  {
    if |ps| == 1 then
      match ReadPiece(k, ps[0])
      case None => None
      case Some(p) => Some([p])
    else if !EndsWith(ps[0], ",") then None
    else
      match ReadPiece(k, ps[0][..|ps[0]| - 1])
      case None => None
      case Some(p) =>
        match ReadPieces(k, ps[1..])
        case None => None
        case Some(rest) => Some([p] + rest)
  }

  /** A reader of split strings of kind `k`, the partner of `SplitStr`. */
  function ReadSplitStr(k: Kind, s: string): Option<seq<(int, int)>> {
    if !StartsWith(s, SplitPrefix(k)) then None
    else
      var body := s[|SplitPrefix(k)|..];
      if body == "" then Some([])
      else ReadPieces(k, Split(body, '+'))
  }

  /** What a point reads back as: a frame number rounded by `{:.0}`, a time
      exactly. */
  function ReadBack(k: Kind, v: int): int
    requires v >= 0
  {
    match k
    case Frames => RoundHalfEven(v) * MICROS
    case Time => v
  }

  /** Points that are written faithfully: not negative, and times within
      `u64` microseconds. */
  predicate WritableItem(k: Kind, item: Item) {
    0 <= item.start && 0 <= item.end && (k == Time ==> item.start <= U64_MAX && item.end <= U64_MAX)
  }

  predicate Writable(k: Kind, items: seq<Item>) {
    forall i :: 0 <= i < |items| ==> WritableItem(k, items[i])
  }

  function ReadBacks(k: Kind, items: seq<Item>): seq<(int, int)>
    requires Writable(k, items)
  {
    seq(|items|, i requires 0 <= i < |items| && Writable(k, items) => (ReadBack(k, items[i].start), ReadBack(k, items[i].end)))
  }

  lemma PointChars(k: Kind, v: int)
    requires v >= 0 && (k == Time ==> v <= U64_MAX)
    ensures |CutPointText(k, v)| >= 1
    ensures '-' !in CutPointText(k, v) && '+' !in CutPointText(k, v) && ',' !in CutPointText(k, v)
    ensures ReadPoint(k, CutPointText(k, v)) == Some(ReadBack(k, v))
  {
    var t := CutPointText(k, v);
    var e: set<char> := {':', '.'};
    match k {
      case Frames =>
        assert DigitsAnd(t, e);
        FramesCutPointRoundTrip(v);
      case Time =>
        FormatTimeChars(MicrosToU64(v));
        TimeCutPointRoundTrip(v);
    }
    DigitsAndExclude(t, e, '-');
    DigitsAndExclude(t, e, '+');
    DigitsAndExclude(t, e, ',');
  }

  /** Two texts free of '-' joined by '-' split into the two. */
  lemma SplitPair(a: string, b: string)
    requires '-' !in a && '-' !in b
    ensures Split(a + "-" + b, '-') == [a, b]
  {
    assert a + "-" + b == a + ['-'] + b;
    SplitCons(a, '-', b);
    assert Split(b, '-') == [b];
  }

  /** Two points joined by '-' read as a part. */
  lemma ReadPointPair(k: Kind, a: string, b: string, va: int, vb: int)
    requires '-' !in a && '-' !in b && ReadPoint(k, a) == Some(va) && ReadPoint(k, b) == Some(vb)
    ensures ReadPiece(k, a + "-" + b) == Some((va, vb))
  {
    var points := Split(a + "-" + b, '-');
    assert points[0] == a && points[1] == b && |points| == 2 by {
      SplitPair(a, b);
    }
  }

  lemma ReadSplitPiece(k: Kind, item: Item)
    requires WritableItem(k, item)
    ensures '+' !in SplitPiece(k, item) && ',' !in SplitPiece(k, item) && |SplitPiece(k, item)| >= 1
    ensures ReadPiece(k, SplitPiece(k, item)) == Some((ReadBack(k, item.start), ReadBack(k, item.end)))
  {
    var a, b := CutPointText(k, item.start), CutPointText(k, item.end);
    var va, vb := ReadBack(k, item.start), ReadBack(k, item.end);
    assert '-' !in a && '+' !in a && ',' !in a && |a| >= 1 && ReadPoint(k, a) == Some(va) by {
      PointChars(k, item.start);
    }
    assert '-' !in b && '+' !in b && ',' !in b && ReadPoint(k, b) == Some(vb) by {
      PointChars(k, item.end);
    }
    ReadPointPair(k, a, b, va, vb);
    assert SplitPiece(k, item) == a + "-" + b;
  }

  /** The first of several joined parts, its ",", and the '+' after it. */
  lemma SplitAfterPart(part: string, tail: string)
    requires '+' !in part
    ensures Split(part + ",+" + tail, '+') == [part + ","] + Split(tail, '+')
  {
    assert part + ",+" + tail == (part + ",") + ['+'] + tail;
    SplitCons(part + ",", '+', tail);
  }

  /** A part followed by "," in front of further parts reads as its points
      in front of theirs. */
  lemma ReadPiecesCons(k: Kind, part: string, rest: seq<string>, v: (int, int), vs: seq<(int, int)>)
    requires |rest| >= 1 && ReadPiece(k, part) == Some(v) && ReadPieces(k, rest) == Some(vs)
    ensures ReadPieces(k, [part + ","] + rest) == Some([v] + vs)
  {
    var ps := [part + ","] + rest;
    assert ps[0][..|ps[0]| - 1] == part;
    assert EndsWith(ps[0], ",");
    assert ps[1..] == rest;
  }

  /** Joined parts read as the first part's points in front of what the
      rest reads as. */
  lemma JoinedCons(k: Kind, parts: seq<string>, vals: seq<(int, int)>)
    requires |parts| == |vals| >= 2
    requires '+' !in parts[0] && ReadPiece(k, parts[0]) == Some(vals[0])
    requires ReadPieces(k, Split(Join(parts[1..], ",+"), '+')) == Some(vals[1..])
    ensures ReadPieces(k, Split(Join(parts, ",+"), '+')) == Some(vals)
  {
    var tail := Join(parts[1..], ",+");
    assert Split(Join(parts, ",+"), '+') == [parts[0] + ","] + Split(tail, '+') by {
      assert Join(parts, ",+") == parts[0] + ",+" + tail;
      SplitAfterPart(parts[0], tail);
    }
    ReadPiecesCons(k, parts[0], Split(tail, '+'), vals[0], vals[1..]);
    assert vals == [vals[0]] + vals[1..];
  }

  /** Parts free of '+' that read as `vals`, joined with ",+" and split
      at '+', read as `vals` again. */
  lemma {:induction false} ReadJoinedParts(k: Kind, parts: seq<string>, vals: seq<(int, int)>)
    requires |parts| == |vals| >= 1
    requires forall i :: 0 <= i < |parts| ==> '+' !in parts[i] && ReadPiece(k, parts[i]) == Some(vals[i])
    ensures ReadPieces(k, Split(Join(parts, ",+"), '+')) == Some(vals)
  {
    if |parts| == 1 {
      assert Split(parts[0], '+') == [parts[0]];
      assert vals == [vals[0]];
    } else {
      var tail := Join(parts[1..], ",+");
      assert ReadPieces(k, Split(tail, '+')) == Some(vals[1..]) by {
        forall i | 0 <= i < |parts| - 1
          ensures '+' !in parts[1..][i] && ReadPiece(k, parts[1..][i]) == Some(vals[1..][i])
        {
          assert parts[1..][i] == parts[i + 1] && vals[1..][i] == vals[i + 1];
        }
        ReadJoinedParts(k, parts[1..], vals[1..]);
      }
      assert '+' !in parts[0] && ReadPiece(k, parts[0]) == Some(vals[0]);
      JoinedCons(k, parts, vals);
    }
  }

  /** Splitting the joined parts at '+' and reading each gives the points. */
  lemma ReadJoined(k: Kind, items: seq<Item>)
    requires |items| >= 1 && Writable(k, items)
    ensures ReadPieces(k, Split(Join(SplitPieces(k, items), ",+"), '+')) == Some(ReadBacks(k, items))
  {
    var parts, vals := SplitPieces(k, items), ReadBacks(k, items);
    forall i | 0 <= i < |parts|
      ensures '+' !in parts[i] && ReadPiece(k, parts[i]) == Some(vals[i])
    {
      ReadSplitPiece(k, items[i]);
    }
    ReadJoinedParts(k, parts, vals);
  }

  /** Reading a split string back gives the points of the items, frame
      numbers rounded to whole frames. */
  lemma SplitStrRoundTrip(k: Kind, items: seq<Item>)
    requires Writable(k, items)
    ensures ReadSplitStr(k, SplitStr(k, items)) == Some(ReadBacks(k, items))
  {
    var s := SplitStr(k, items);
    var p := SplitPrefix(k);
    assert s[..|p|] == p;
    assert s[|p|..] == Join(SplitPieces(k, items), ",+");
    if items == [] {
      assert SplitPieces(k, items) == [];
      assert ReadBacks(k, items) == [];
    } else {
      ReadJoined(k, items);
      var pieces := SplitPieces(k, items);
        ReadSplitPiece(k, items[0]);
      if |items| == 1 {
        assert Join(pieces, ",+") == pieces[0];
      } else {
        assert Join(pieces, ",+") == pieces[0] + ",+" + Join(pieces[1..], ",+");
      }
      assert |Join(pieces, ",+")| >= 1;
    }
  }
}
