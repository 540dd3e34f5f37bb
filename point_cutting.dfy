/** The cut step of the two generations that cut a decoded video straight
    with mkvmerge, with cut points that carry their kind
    (`src/video/cutting.rs`, and `src/cut.rs`, which repeats it): the
    headers of cutlist.at are tried lowest rating first, the cut list of
    a header is read for the header's kind, and the first cut list
    mkvmerge accepts ends the search. */
module PointCutting {
  import opened Wrappers
  import opened Text
  import opened Numbers
  import opened TimeCode
  import opened Sorting
  import opened CutlistCore
  import opened CutlistText
  import opened ProviderHeaders
  import opened FirstMatch
  import VideoCutting

  // ---------------------------------------------------------------------
  // Headers

  /** `cutlist_headers`: no author's rating, no minimum rating, the kind
      read from `withframes`. */
  const RULES := HeaderRules(false, None, true)

  /** `header.kind`; every header made here carries one. */
  function HeaderKind(h: ProviderHeader): Kind {
    if h.kind.Some? then h.kind.value else Frames
  }

  /** Every raw header without errors is offered, with its own rating or 0
      and the kind its `withframes` gives; every header offered comes from
      such a raw header; lowest rating first. */
  lemma HeadersOffered(raws: seq<RawHeader>)
    ensures SortedBy(SortBy(Accept(RULES, raws), RatingKey), RatingKey)
    ensures forall i :: 0 <= i < |raws| && !HasErrors(raws[i]) ==>
      ProviderHeader(raws[i].id, OwnRating(raws[i]), Some(KindOf(raws[i]))) in SortBy(Accept(RULES, raws), RatingKey)
    ensures forall h :: h in SortBy(Accept(RULES, raws), RatingKey) ==>
      exists i :: 0 <= i < |raws| && !HasErrors(raws[i])
        && h == ProviderHeader(raws[i].id, OwnRating(raws[i]), Some(KindOf(raws[i])))
        && HeaderKind(h) == KindOf(raws[i])
  {
    HeadersWithoutMinimum(RULES, raws);
  }

  // ---------------------------------------------------------------------
  // Cut points and cuts

  /** `CutPoint::Frame(x)` or `CutPoint::Time(x)`, `x` in millionths. */
  datatype CutPoint = CutPoint(kind: Kind, value: int)

  /** `Display for CutPoint`: a frame rounded to a whole number, a time
      as "HH:MM:SS.ffffff". */
  function PointText(p: CutPoint): string {
    CutPointText(p.kind, p.value)
  }

  /** A time point within `u64` microseconds and a frame point are
      read back by `cut_str_to_f64` as the time, or the rounded frame. */
  lemma PointTextReadsBack(p: CutPoint)
    requires 0 <= p.value && (p.kind == Time ==> p.value <= U64_MAX)
    ensures p.kind == Time ==> !BareDot(PointText(p)) && CutStrToMicros(Time, PointText(p)) == Ok(p.value)
    ensures p.kind == Frames ==> CutStrToMicros(Frames, PointText(p)) == Ok(RoundHalfEven(p.value) * MICROS)
  {
    if p.kind == Time {
      TimeCutPointRoundTrip(p.value);
    } else {
      FramesCutPointRoundTrip(p.value);
    }
  }

  /** `CutlistItem`: a start and an end point. */
  datatype CutlistItem = CutlistItem(start: CutPoint, end: CutPoint)

  /** The cut of an item, in points of kind `k`. */
  function Tagged(k: Kind, item: Item): CutlistItem {
    CutlistItem(CutPoint(k, item.start), CutPoint(k, item.end))
  }

  /** The values of a cut, without their kind. */
  function Plain(c: CutlistItem): Item {
    Item(c.start.value, c.end.value)
  }

  function Plains(cs: seq<CutlistItem>): (xs: seq<Item>)
    ensures |xs| == |cs|
  {
    seq(|cs|, i requires 0 <= i < |cs| => Plain(cs[i]))
  }

  /** All points are of kind `k`. */
  predicate OfKind(k: Kind, cs: seq<CutlistItem>) {
    forall i :: 0 <= i < |cs| ==> cs[i].start.kind == k && cs[i].end.kind == k
  }

  /** The items as cuts of kind `k`. */
  function TagAll(k: Kind, xs: seq<Item>): (cs: seq<CutlistItem>)
    ensures |cs| == |xs| && OfKind(k, cs) && Plains(cs) == xs
  {
    var cs := seq(|xs|, i requires 0 <= i < |xs| => Tagged(k, xs[i]));
    assert forall i :: 0 <= i < |xs| ==> Plains(cs)[i] == xs[i];
    cs
  }

  lemma TagAllSnoc(k: Kind, xs: seq<Item>, x: Item)
    ensures TagAll(k, xs + [x]) == TagAll(k, xs) + [Tagged(k, x)]
  {
    var l, r := TagAll(k, xs + [x]), TagAll(k, xs) + [Tagged(k, x)];
    assert forall i :: 0 <= i < |l| ==> l[i] == r[i];
  }

  /** `CutlistItem::new(start, duration, kind)`: both texts must be
      numbers; a cut of non-positive duration is no cut; otherwise both
      points are of the header's kind, the end `duration` after the
      start. */
  function CutlistItemNew(start: string, duration: string, k: Kind): (r: Result<Option<CutlistItem>>)
    ensures r.Ok? <==> DecimalLiteral(start) && DecimalLiteral(duration)
    ensures r.Ok? ==> (r.value.Some? <==> ParseMicros(duration).value > 0)
    ensures r.Ok? && r.value.Some? ==>
      r.value.value.start == CutPoint(k, ParseMicros(start).value)
      && r.value.value.end == CutPoint(k, ParseMicros(start).value + ParseMicros(duration).value)
  {
    match ItemNew(start, duration)
    case Err(e) => Err(e)
    case Ok(None) => Ok(None)
    case Ok(Some(item)) => Ok(Some(Tagged(k, item)))
  }

  // ---------------------------------------------------------------------
  // Reading the cut list of a header

  /** `cutlist(header)` after the download: `NoOfCuts` must be an `i32`;
      each cut 0..NoOfCuts-1 must have its section and both attributes of
      the header's kind, and numbers there; cuts of positive duration are
      kept in order. */
  method Cutlist(h: ProviderHeader, ini: Ini) returns (r: Result<seq<CutlistItem>>)
    ensures r.Ok? <==> KindCuts(ini, HeaderKind(h)).Ok?
    ensures r.Ok? ==> r.value == TagAll(HeaderKind(h), KindCuts(ini, HeaderKind(h)).value)
  {
    var k := HeaderKind(h);
    var id := NatToString(h.id);
    if GENERAL_SECTION !in ini {
      return Err("Could not find section 'General' in cutlist " + id);
    }
    if NUM_OF_CUTS !in ini[GENERAL_SECTION] {
      return Err("Could not find attribute 'NoOfCuts' in cutlist " + id);
    }
    var parsed := ParseI32(ini[GENERAL_SECTION][NUM_OF_CUTS]);
    if parsed.None? {
      return Err("Could not parse attribute 'NoOfCuts' in cutlist " + id);
    }
    var numCuts := parsed.value;
    var items: seq<CutlistItem> := [];
    ghost var read: seq<Item> := [];
    for i := 0 to Rounds(numCuts)
      invariant ReadKindCuts(ini, k, i) == Ok(read)
      invariant items == TagAll(k, read)
    {
      var item := ReadCut(ini, k, i, id);
      if item.Err? {
        ReadKindNextErr(ini, k, i);
        ReadKindErrSticky(ini, k, i + 1, Rounds(numCuts));
        return Err(item.error);
      }
      ReadKindNextOk(ini, k, i, read, ItemFromIni(ini, i, k).value);
      if item.value.Some? {
        TagAllSnoc(k, read, ItemFromIni(ini, i, k).value.value);
        items := items + [item.value.value];
        read := read + [ItemFromIni(ini, i, k).value.value];
      }
    }
    return Ok(items);
  }

  /** One round of the loop of `cutlist`: cut `i` of kind `k`. */
  method ReadCut(ini: Ini, k: Kind, i: nat, id: string) returns (r: Result<Option<CutlistItem>>)
    ensures r.Ok? <==> ItemFromIni(ini, i, k).Ok?
    ensures r.Ok? ==> (r.value.Some? <==> ItemFromIni(ini, i, k).value.Some?)
    ensures r.Ok? && r.value.Some? ==> r.value.value == Tagged(k, ItemFromIni(ini, i, k).value.value)
  {
    if CutSection(i) !in ini {
      return Err("Could not find section for cut no " + NatToString(i) + " in cutlist " + id);
    }
    var cut := ini[CutSection(i)];
    if StartAttr(k) !in cut {
      return Err("Could not find attribute '" + StartAttr(k) + "' for cut no " + NatToString(i));
    }
    if DurationAttr(k) !in cut {
      return Err("Could not find attribute '" + DurationAttr(k) + "' for cut no " + NatToString(i));
    }
    r := CutlistItemNew(cut[StartAttr(k)], cut[DurationAttr(k)], k);
  }

  // ---------------------------------------------------------------------
  // Cutting with mkvmerge

  /** One part of the split string: the display of both points. */
  function PointPiece(c: CutlistItem): string {
    PointText(c.start) + "-" + PointText(c.end)
  }

  /** The part of each cut. */
  function PointPieceOf(): CutlistItem -> string {
    c => PointPiece(c)
  }

  function PointPieces(cs: seq<CutlistItem>): (ps: seq<string>)
    ensures |ps| == |cs|
    ensures forall i :: 0 <= i < |cs| ==> ps[i] == PointPiece(cs[i])
  {
    MapSeq(PointPieceOf(), cs)
  }

  /** Cuts whose points all have the header's kind give the parts of the
      split string of their values. */
  lemma PiecesOfKind(k: Kind, cs: seq<CutlistItem>)
    requires OfKind(k, cs)
    ensures PointPieces(cs) == SplitPieces(k, Plains(cs))
  {
    var l, r := PointPieces(cs), SplitPieces(k, Plains(cs));
    forall i | 0 <= i < |cs|
      ensures l[i] == r[i]
    {
      assert Plains(cs)[i] == Plain(cs[i]);
    }
  }

  lemma PointPiecesSnoc(cs: seq<CutlistItem>, i: nat)
    requires i < |cs|
    ensures PointPieces(cs[..i + 1]) == PointPieces(cs[..i]) + [PointPiece(cs[i])]
  {
    MapSnoc(PointPieceOf(), cs, i);
  }

  /** The split string of `cut_with_mkvmerge`: the prefix of the header's
      kind, then "start-end" of each cut, joined with ",+". */
  function PointsSplitStr(k: Kind, cs: seq<CutlistItem>): string {
    SplitPrefix(k) + Join(PointPieces(cs), ",+")
  }

  lemma PointsSplitStrSnoc(k: Kind, cs: seq<CutlistItem>, i: nat)
    requires i < |cs|
    ensures PointsSplitStr(k, cs[..i + 1]) == PointsSplitStr(k, cs[..i]) + (if i > 0 then ",+" else "") + PointPiece(cs[i])
  {
    var before, piece := PointPieces(cs[..i]), PointPiece(cs[i]);
    PointPiecesSnoc(cs, i);
    PrefixedJoinSnoc(SplitPrefix(k), before, piece, ",+");
    assert before == [] <==> i == 0;
  }

  /** The loop of `cut_with_mkvmerge` that writes the parts, with ",+"
      before every part but the first. */
  method SplitString(k: Kind, cs: seq<CutlistItem>) returns (s: string)
    ensures s == PointsSplitStr(k, cs)
  {
    s := SplitPrefix(k);
    assert PointPieces(cs[..0]) == [];
    for i := 0 to |cs|
      invariant s == PointsSplitStr(k, cs[..i])
    {
      PointsSplitStrSnoc(k, cs, i);
      if i > 0 {
        s := s + ",+";
      }
      s := s + PointPiece(cs[i]);
    }
    assert cs[..|cs|] == cs;
  }

  /** The split string of cuts of the header's kind is the split string
      of their values, which `cut_str_to_f64` reads back. */
  lemma SplitStringOfKind(k: Kind, cs: seq<CutlistItem>)
    requires OfKind(k, cs)
    ensures PointsSplitStr(k, cs) == SplitStr(k, Plains(cs))
    ensures Writable(k, Plains(cs)) ==> ReadSplitStr(k, SplitStr(k, Plains(cs))) == Some(ReadBacks(k, Plains(cs)))
  {
    PiecesOfKind(k, cs);
    if Writable(k, Plains(cs)) {
      SplitStrRoundTrip(k, Plains(cs));
    }
  }

  /** `cut_with_mkvmerge`: mkvmerge is run (`run`, whose error is its
      output) with the split string; its failure is an error. */
  method CutWithMkvmerge(h: ProviderHeader, cs: seq<CutlistItem>, run: string -> Result<()>) returns (r: Result<()>)
    ensures r.Ok? <==> run(PointsSplitStr(HeaderKind(h), cs)).Ok?
    ensures r.Err? ==> r.error == Context(VideoCutting.MKVMERGE_FAILED, run(PointsSplitStr(HeaderKind(h), cs)).error)
  {
    var s := SplitString(HeaderKind(h), cs);
    var out := run(s);
    if out.Err? {
      return Err(Context(VideoCutting.MKVMERGE_FAILED, out.error));
    }
    return Ok(());
  }

  // ---------------------------------------------------------------------
  // The cut

  /** `CutError`. */
  datatype CutError = Any(message: string) | NoCutlist

  /** `Display for CutError`. */
  function CutErrorText(e: CutError): string {
    match e
    case Any(m) => "Error: " + m
    case NoCutlist => "No cutlist exists"
  }

  /** `Outcome`. */
  datatype Outcome = Success | Failure(error: CutError)

  /** What the cut step talks to: the header request (`Err` when it fails
      or the response is empty or no XML), the download of a cut list as
      INI, and mkvmerge. */
  datatype Env = Env(headerResponse: Result<seq<RawHeader>>, fetch: nat -> Result<Ini>, run: string -> Result<()>)

  /** The cut list of the header can be downloaded and read, and mkvmerge
      accepts the split string of its cuts. */
  predicate CutsWith(env: Env, h: ProviderHeader) {
    var ini := env.fetch(h.id);
    ini.Ok? && KindCuts(ini.value, HeaderKind(h)).Ok?
    && env.run(SplitStr(HeaderKind(h), KindCuts(ini.value, HeaderKind(h)).value)).Ok?
  }

  function Cuts(env: Env): ProviderHeader -> bool {
    (h: ProviderHeader) => CutsWith(env, h)
  }

  function NoneApplied(fileName: string): string {
    "No cutlist could be successfully applied to cut \"" + fileName + "\""
  }

  /** The headers in the order they are tried. */
  function Tried(env: Env): seq<ProviderHeader>
    requires env.headerResponse.Ok?
  {
    SortBy(Accept(RULES, env.headerResponse.value), RatingKey)
  }

  /** `cut`: a failed header request means there is no cut list; the video
      is cut when some header's cut list cuts it; otherwise the error names
      the file. */
  function CutOutcome(fileName: string, env: Env): (r: Outcome)
    ensures r == Failure(NoCutlist) <==> env.headerResponse.Err?
    ensures r == Success <==> env.headerResponse.Ok? && exists i :: 0 <= i < |Tried(env)| && CutsWith(env, Tried(env)[i])
    ensures r != Success && env.headerResponse.Ok? ==> r == Failure(Any(NoneApplied(fileName)))
  {
    if env.headerResponse.Err? then Failure(NoCutlist)
    else
      match FirstSatisfying(Tried(env), Cuts(env))
      case None => Failure(Any(NoneApplied(fileName)))
      case Some(j) =>
        assert Cuts(env)(Tried(env)[j]);
        Success
  }

  /** One round of the loop: download, read, cut. */
  method TryHeader(h: ProviderHeader, env: Env) returns (cut: bool)
    ensures cut == Cuts(env)(h)
  {
    var ini := env.fetch(h.id);
    if ini.Err? {
      return false;
    }
    var items := Cutlist(h, ini.value);
    if items.Err? {
      return false;
    }
    var r := CutWithMkvmerge(h, items.value, env.run);
    SplitStringOfKind(HeaderKind(h), items.value);
    return r.Ok?;
  }

  /** `cut(in_path, out_path)`: the loop over the headers with its
      `is_cut` flag; errors of single cut lists are only logged.  `used`
      is the header whose cut list cut the video: the first one, in the
      order tried, that cuts. */
  method Cut(fileName: string, env: Env) returns (r: Outcome, ghost used: Option<nat>)
    ensures r == CutOutcome(fileName, env)
    ensures env.headerResponse.Ok? ==> used == FirstSatisfying(Tried(env), Cuts(env))
    ensures used.Some? <==> r == Success
  {
    used := None;
    var headers := HeadersFromProvider(RULES, env.headerResponse);
    if headers.Err? {
      return Failure(NoCutlist), used;
    }
    var hs := headers.value;
    var isCut := false;
    var i := 0;
    while i < |hs|
      invariant 0 <= i <= |hs|
      invariant forall j :: 0 <= j < i ==> !Cuts(env)(hs[j])
      invariant !isCut
    {
      var cut := TryHeader(hs[i], env);
      if cut {
        isCut := true;
        break;
      }
      NoneUpTo(hs, Cuts(env), i);
      i := i + 1;
    }
    if !isCut {
      return Failure(Any(NoneApplied(fileName))), used;
    }
    FirstSatisfyingAt(hs, Cuts(env), i);
    return Success, Some(i);
  }
}
