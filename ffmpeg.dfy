/** The frame-accurate cutter of otr-utils: every cut interval is split
    into up to three pieces, a piece before the first key frame and one
    after the last key frame that are re-encoded and the key-frame part in
    between that is copied.  The pieces are written as numbered part files
    into a cutting directory and finally joined into the cut video.

    Running ffmpeg, renaming files and listing the directory are oracles;
    what is modelled is which pieces are made, under which names, and in
    which order they are put together. */
module Ffmpeg {
  import opened Wrappers
  import opened Text
  import opened Numbers
  import opened LexOrder
  import opened Search
  import opened StreamInfo
  import opened Intervals

  // ---------------------------------------------------------------------
  // Part files

  datatype SubIntervalID = Pre | Main | Post

  /** `Display for SubIntervalID` prints these numbers. */
  function SubIntervalNo(id: SubIntervalID): nat {
    match id
    case Pre => 1
    case Main => 2
    case Post => 3
  }

  function SubIntervalText(id: SubIntervalID): (s: string)
    ensures |s| == 1 && AllDigits(s) && DigitsValue(s) == SubIntervalNo(id)
  {
    NatToStringLength(SubIntervalNo(id), 1);
    NatToString(SubIntervalNo(id))
  }

  /** What follows the interval number in a part name. */
  function PartTail(id: SubIntervalID, ext: string): string {
    "-" + (SubIntervalText(id) + ("." + ext))
  }

  /** The template "part-{:03}-{}.{}" filled with the interval number, the
      piece and the extension of the input video. */
  function PartName(no: nat, id: SubIntervalID, ext: string): string {
    "part-" + (Padded(no, 3) + PartTail(id, ext))
  }

  /** `RE_INTERVAL_FILE_NAME`, "^part-\d{3}-\d\..*$": `.` matches any
      character but a line feed. */
  predicate IsPartName(s: string) {
    |s| >= 11 && s[..5] == "part-" && AllDigits(s[5..8]) && s[8] == '-' && IsDigit(s[9]) && s[10] == '.'
    && '\n' !in s[11..]
  }

  /** The names of the template match the pattern of part files exactly
      for interval numbers below 1000. */
  lemma PartNameMatches(no: nat, id: SubIntervalID, ext: string)
    requires '\n' !in ext
    ensures IsPartName(PartName(no, id, ext)) <==> no <= 999
  {
    if no <= 999 {
      ShortPartName(no, id, ext);
    } else {
      WidePartName(no, id, ext);
    }
  }

  lemma ShortPartName(no: nat, id: SubIntervalID, ext: string)
    requires '\n' !in ext && no <= 999
    ensures IsPartName(PartName(no, id, ext))
  {
    var n, p := PartName(no, id, ext), Padded(no, 3);
    var tail := PartTail(id, ext);
    PaddedLength(no, 3);
    assert n[..5] == "part-" && n[5..8] == p && n[8..] == tail;
    assert tail[0] == '-' && tail[1] == SubIntervalText(id)[0] && tail[2] == '.' && tail[3..] == ext;
  }

  lemma WidePartName(no: nat, id: SubIntervalID, ext: string)
    requires no > 999
    ensures !IsPartName(PartName(no, id, ext))
  {
    var n, p := PartName(no, id, ext), Padded(no, 3);
    NatToStringWide(no, 3);
    assert n[5..5 + |p|] == p;
    assert n[8] == p[3];
  }

  /** Part names of one interval number compare as their pieces' numbers. */
  lemma TailOrder(i1: SubIntervalID, i2: SubIntervalID, ext: string)
    ensures LexLess(PartTail(i1, ext), PartTail(i2, ext)) <==> SubIntervalNo(i1) < SubIntervalNo(i2)
  {
    var s1, s2 := SubIntervalText(i1), SubIntervalText(i2);
    LexPrefix("-", s1 + ("." + ext), s2 + ("." + ext));
    if i1 != i2 {
      LexSameLength(s1, s2, "." + ext, "." + ext);
      DigitsLex(s1, s2);
    } else {
      LexIrreflexive(PartTail(i1, ext));
    }
  }

  /** Two part names of one extension compare as (interval number, piece
      number) do; this is what makes the sort of the part files put them
      in the order of the cut. */
  lemma PartNameOrder(n1: nat, i1: SubIntervalID, n2: nat, i2: SubIntervalID, ext: string)
    requires n1 <= 999 && n2 <= 999
    ensures LexLess(PartName(n1, i1, ext), PartName(n2, i2, ext))
      <==> n1 < n2 || (n1 == n2 && SubIntervalNo(i1) < SubIntervalNo(i2))
  {
    var p1, p2 := Padded(n1, 3), Padded(n2, 3);
    var t1, t2 := PartTail(i1, ext), PartTail(i2, ext);
    LexPrefix("part-", p1 + t1, p2 + t2);
    if n1 != n2 {
      PaddedLength(n1, 3);
      PaddedLength(n2, 3);
      LexSameLength(p1, p2, t1, t2);
      DigitsLex(p1, p2);
    } else {
      LexPrefix(p1, t1, t2);
      TailOrder(i1, i2, ext);
    }
  }

  /** A part file made for piece `id` of interval `no`. */
  datatype Tag = Tag(no: nat, id: SubIntervalID)

  predicate TagLess(a: Tag, b: Tag) {
    a.no < b.no || (a.no == b.no && SubIntervalNo(a.id) < SubIntervalNo(b.id))
  }

  predicate TagsIncreasing(ts: seq<Tag>) {
    forall i :: 0 <= i < |ts| - 1 ==> TagLess(ts[i], ts[i + 1])
  }

  /** The names of the part files with these tags. */
  function Names(ts: seq<Tag>, ext: string): (ns: seq<string>)
    ensures |ns| == |ts|
  {
    seq(|ts|, i requires 0 <= i < |ts| => PartName(ts[i].no, ts[i].id, ext))
  }


  lemma NamesIncreasing(ts: seq<Tag>, ext: string)
    requires TagsIncreasing(ts) && forall i :: 0 <= i < |ts| ==> ts[i].no <= 999
    ensures Increasing(Names(ts, ext))
  {
    var ns := Names(ts, ext);
    forall i | 0 <= i < |ns| - 1
      ensures LexLess(ns[i], ns[i + 1])
    {
      PartNameOrder(ts[i].no, ts[i].id, ts[i + 1].no, ts[i + 1].id, ext);
    }
  }

  // ---------------------------------------------------------------------
  // The pieces of an interval

  datatype Action = Encode | Copy

  /** A piece: what is done to it, the type of its boundaries and its
      interval. */
  datatype Piece = Piece(id: SubIntervalID, action: Action, boundary: BoundaryType, iv: Interval)

  /** What `extract_interval` needs so as not to panic: the key-frame
      lookups need an ordered frame interval, and without frames the
      interval must already be one of times (the `unwrap` at line 251). */
  predicate Extractable(t: BoundaryType, iv: Interval, m: Metadata) {
    (HasFrames(m) && ToFrames(t, iv, m).Ok? ==> ToFrames(t, iv, m).value.from <= ToFrames(t, iv, m).value.to)
    && (!HasFrames(m) ==> t == Time)
  }

  /** The piece before the first key frame, unless it is empty or
      `from_from_to` drops it because it is a single frame. */
  function PrePiece(f: Interval, kf: Interval): seq<Piece> {
    if f.from < kf.from && FromFromTo(f.from, kf.from - 1).Some? then [Piece(Pre, Encode, Frame, Interval(f.from, kf.from - 1))]
    else []
  }

  /** The piece after the last key frame, likewise. */
  function PostPiece(f: Interval, kf: Interval): seq<Piece> {
    if f.to > kf.to && FromFromTo(kf.to + 1, f.to).Some? then [Piece(Post, Encode, Frame, Interval(kf.to + 1, f.to))]
    else []
  }

  /** The decomposition in `extract_interval`.  With frames: the pieces
      around the key-frame interval of the frame interval, or, without a
      key frame in it, the whole interval re-encoded.  Without frames: the
      whole interval copied. */
  function Plan(t: BoundaryType, iv: Interval, m: Metadata): (r: Result<seq<Piece>>)
    requires Extractable(t, iv, m)
    ensures r.Err? <==> HasFrames(m) && ToFrames(t, iv, m).Err?
    ensures !HasFrames(m) ==> r == Ok([Piece(Main, Copy, t, iv)])
  {
    if !HasFrames(m) then Ok([Piece(Main, Copy, t, iv)])
    else
      match ToFrames(t, iv, m)
      case Err(e) => Err(e)
      case Ok(f) =>
        match ToKeyFrames(f, m)
        case None => Ok([Piece(Main, Encode, t, iv)])
        case Some(kf) => Ok(PrePiece(f, kf) + [Piece(Main, Copy, Frame, kf)] + PostPiece(f, kf))
  }

  /** With frames the decomposition follows the key frames: the key-frame
      interval is copied; the frames before it are re-encoded exactly when
      there are at least two of them, and so are the frames after it; with
      no key frame in the interval, all of it is re-encoded. */
  lemma PlanWithFrames(t: BoundaryType, iv: Interval, m: Metadata)
    requires Extractable(t, iv, m) && HasFrames(m) && ToFrames(t, iv, m).Ok?
    ensures var f := ToFrames(t, iv, m).value; var ps := Plan(t, iv, m).value;
      match ToKeyFrames(f, m)
      case None => ps == [Piece(Main, Encode, t, iv)]
      case Some(kf) =>
        (exists i :: 0 <= i < |ps| && ps[i] == Piece(Main, Copy, Frame, kf))
        && (kf.from > 0 && Piece(Pre, Encode, Frame, Interval(f.from, kf.from - 1)) in ps <==> f.from + 1 < kf.from)
        && (Piece(Post, Encode, Frame, Interval(kf.to + 1, f.to)) in ps <==> kf.to + 1 < f.to)
        && |ps| == 1 + (if f.from + 1 < kf.from then 1 else 0) + (if kf.to + 1 < f.to then 1 else 0)
  {
    var f := ToFrames(t, iv, m).value;
    match ToKeyFrames(f, m)
    case None =>
    case Some(kf) =>
      var ps := Plan(t, iv, m).value;
      var pre, post := PrePiece(f, kf), PostPiece(f, kf);
      assert ps == pre + [Piece(Main, Copy, Frame, kf)] + post;
      assert ps[|pre|] == Piece(Main, Copy, Frame, kf);
  }

  /** Frame `x` lies in one of the pieces. */
  predicate Covers(ps: seq<Piece>, x: nat) {
    exists i :: 0 <= i < |ps| && ps[i].iv.from <= x <= ps[i].iv.to
  }

  lemma PiecesCover(f: Interval, kf: Interval, x: nat)
    requires f.from <= kf.from <= kf.to <= f.to
    ensures Covers(PrePiece(f, kf) + [Piece(Main, Copy, Frame, kf)] + PostPiece(f, kf), x)
      <==> f.from <= x <= f.to && !(x == f.from && f.from + 1 == kf.from) && !(x == f.to && kf.to + 1 == f.to)
  {
    var pre, main, post := PrePiece(f, kf), Piece(Main, Copy, Frame, kf), PostPiece(f, kf);
    var ps := pre + [main] + post;
    if Covers(ps, x) {
      var i :| 0 <= i < |ps| && ps[i].iv.from <= x <= ps[i].iv.to;
      if i < |pre| {
        assert ps[i] == pre[0];
      } else if i == |pre| {
        assert ps[i] == main;
      } else {
        assert ps[i] == post[0];
      }
    }
    if f.from <= x <= f.to && !(x == f.from && f.from + 1 == kf.from) && !(x == f.to && kf.to + 1 == f.to) {
      if x < kf.from {
        assert ps[0] == pre[0];
      } else if x <= kf.to {
        assert ps[|pre|] == main;
      } else {
        assert ps[|ps| - 1] == post[0];
      }
    }
  }

  /** With key frames in order, the pieces cover the frame interval,
      except a single frame before the first key frame or after the last
      one, which is left out. */
  lemma PlanCovers(t: BoundaryType, iv: Interval, m: Metadata, x: nat)
    requires Extractable(t, iv, m) && HasFrames(m) && Sorted(m.keyFrames)
    requires ToFrames(t, iv, m).Ok? && ToKeyFrames(ToFrames(t, iv, m).value, m).Some?
    ensures var f := ToFrames(t, iv, m).value; var kf := ToKeyFrames(f, m).value;
      Covers(Plan(t, iv, m).value, x)
      <==> f.from <= x <= f.to && !(x == f.from && f.from + 1 == kf.from) && !(x == f.to && kf.to + 1 == f.to)
  {
    var f := ToFrames(t, iv, m).value;
    PiecesCover(f, ToKeyFrames(f, m).value, x);
  }

  /** The piece copy_interval writes is always named as the main piece. */
  function FileId(p: Piece): SubIntervalID {
    if p.action == Copy then Main else p.id
  }

  function PieceNumbers(ps: seq<Piece>): seq<nat> {
    seq(|ps|, i requires 0 <= i < |ps| => SubIntervalNo(FileId(ps[i])))
  }

  /** The part files of one interval are made in piece order. */
  lemma PlanOrdered(t: BoundaryType, iv: Interval, m: Metadata)
    requires Extractable(t, iv, m) && Plan(t, iv, m).Ok?
    ensures var ps := Plan(t, iv, m).value;
      |ps| >= 1 && forall i :: 0 <= i < |ps| - 1 ==> SubIntervalNo(FileId(ps[i])) < SubIntervalNo(FileId(ps[i + 1]))
  {
    if HasFrames(m) {
      var f := ToFrames(t, iv, m).value;
      match ToKeyFrames(f, m)
      case None =>
      case Some(kf) =>
        var pre, main, post := PrePiece(f, kf), Piece(Main, Copy, Frame, kf), PostPiece(f, kf);
        var ps := pre + [main] + post;
        forall i | 0 <= i < |ps| - 1
          ensures SubIntervalNo(FileId(ps[i])) < SubIntervalNo(FileId(ps[i + 1]))
        {
          if i < |pre| {
            assert ps[i] == pre[0] && ps[i + 1] == main;
          } else {
            assert ps[i] == main && ps[i + 1] == post[0];
          }
        }
    }
  }

  // ---------------------------------------------------------------------
  // Making the part files

  /** A run of ffmpeg: the action, the interval in times, the interval
      number and the piece the output file is named after. */
  datatype Step = Step(action: Action, times: Interval, no: nat, id: SubIntervalID)

  /** `Display for Interval` of the interval being extracted: frame numbers
      as integers, times as seconds with six decimals. */
  function BoundText(t: BoundaryType, b: nat): string {
    match t
    case Frame => NatToString(b)
    case Time => NatToString(b / MICROS) + "." + Padded(b % MICROS, 6)
  }

  function ExtractFailed(t: BoundaryType, iv: Interval): string {
    "Could not extract interval [" + BoundText(t, iv.from) + ", " + BoundText(t, iv.to) + "]"
  }

  /** The outcome of a stage and the part files it made. */
  datatype Outcome = Outcome(result: Result<()>, made: seq<Tag>)

  /** One piece: its interval converted to times, then ffmpeg run on it;
      the part file exists once ffmpeg has succeeded.  A failed conversion
      of the first piece is passed on as it is (the bare `?` at line 195);
      every other failure carries the context `ctx`. */
  function RunPiece(p: Piece, m: Metadata, no: nat, ctx: string, ffmpeg: Step -> Result<()>): (r: Outcome)
    ensures r.result.Ok? ==> r.made == [Tag(no, FileId(p))]
    ensures r.result.Err? ==> r.made == []
  {
    match ToTimes(p.boundary, p.iv, m)
    case Err(e) => Outcome(Err(if p.id == Pre then e else ctx), [])
    case Ok(times) =>
      match ffmpeg(Step(p.action, times, no, FileId(p)))
      case Err(_) => Outcome(Err(ctx), [])
      case Ok(_) => Outcome(Ok(()), [Tag(no, FileId(p))])
  }

  /** Two stages one after the other: the second only if the first
      succeeded. */
  function Then(a: Outcome, b: Outcome): Outcome {
    if a.result.Err? then a else Outcome(b.result, a.made + b.made)
  }

  lemma ThenAssociative(a: Outcome, b: Outcome, c: Outcome)
    ensures Then(Then(a, b), c) == Then(a, Then(b, c))
  {
    if a.result.Ok? && b.result.Ok? {
      assert a.made + b.made + c.made == a.made + (b.made + c.made);
    }
  }

  /** The tags of the part files of all pieces, in piece order. */
  function Tags(ps: seq<Piece>, no: nat): (ts: seq<Tag>)
    ensures |ts| == |ps|
  {
    seq(|ps|, i requires 0 <= i < |ps| => Tag(no, FileId(ps[i])))
  }

  /** The pieces made in order until one fails. */
  function RunPieces(ps: seq<Piece>, m: Metadata, no: nat, ctx: string, ffmpeg: Step -> Result<()>): (r: Outcome)
    ensures r.result.Ok? ==> r.made == Tags(ps, no)
  {
    if ps == [] then Outcome(Ok(()), [])
    else
      var first, rest := RunPiece(ps[0], m, no, ctx, ffmpeg), RunPieces(ps[1..], m, no, ctx, ffmpeg);
      assert first.result.Ok? && rest.result.Ok? ==> first.made + rest.made == Tags(ps, no) by {
        if first.result.Ok? && rest.result.Ok? {
          assert first.made + rest.made == [Tag(no, FileId(ps[0]))] + Tags(ps[1..], no);
        }
      }
      Then(first, rest)
  }

  /** Nothing to do is the unit of `Then`. */
  lemma ThenDone(a: Outcome)
    ensures Then(a, Outcome(Ok(()), [])) == a
    ensures Then(Outcome(Ok(()), []), a) == a
  {
    assert a.made + [] == a.made && [] + a.made == a.made;
    if a.result.Ok? {
      match a.result.value { case () => }
    }
  }

  lemma RunSingle(p: Piece, m: Metadata, no: nat, ctx: string, ffmpeg: Step -> Result<()>)
    ensures RunPieces([p], m, no, ctx, ffmpeg) == RunPiece(p, m, no, ctx, ffmpeg)
  {
    assert [p][1..] == [];
    ThenDone(RunPiece(p, m, no, ctx, ffmpeg));
  }

  lemma {:induction false} RunPiecesAppend(a: seq<Piece>, b: seq<Piece>, m: Metadata, no: nat, ctx: string, ffmpeg: Step -> Result<()>)
    ensures RunPieces(a + b, m, no, ctx, ffmpeg) == Then(RunPieces(a, m, no, ctx, ffmpeg), RunPieces(b, m, no, ctx, ffmpeg))
  {
    if a == [] {
      assert a + b == b;
      ThenDone(RunPieces(b, m, no, ctx, ffmpeg));
    } else {
      assert (a + b)[0] == a[0] && (a + b)[1..] == a[1..] + b;
      RunPiecesAppend(a[1..], b, m, no, ctx, ffmpeg);
      ThenAssociative(RunPiece(a[0], m, no, ctx, ffmpeg), RunPieces(a[1..], m, no, ctx, ffmpeg), RunPieces(b, m, no, ctx, ffmpeg));
    }
  }

  lemma ThreeRuns(pre: seq<Piece>, main: Piece, post: seq<Piece>, m: Metadata, no: nat, ctx: string, ffmpeg: Step -> Result<()>)
    ensures RunPieces(pre + [main] + post, m, no, ctx, ffmpeg)
      == Then(RunPieces(pre, m, no, ctx, ffmpeg), Then(RunPiece(main, m, no, ctx, ffmpeg), RunPieces(post, m, no, ctx, ffmpeg)))
  {
    RunPiecesAppend(pre, [main] + post, m, no, ctx, ffmpeg);
    RunPiecesAppend([main], post, m, no, ctx, ffmpeg);
    assert pre + [main] + post == pre + ([main] + post);
    RunSingle(main, m, no, ctx, ffmpeg);
  }

  /** `extract_interval` as a value: the plan, then its pieces. */
  function Extraction(t: BoundaryType, iv: Interval, m: Metadata, no: nat, ffmpeg: Step -> Result<()>): Outcome
    requires Extractable(t, iv, m)
  {
    match Plan(t, iv, m)
    case Err(_) => Outcome(Err(ExtractFailed(t, iv)), [])
    case Ok(ps) => RunPieces(ps, m, no, ExtractFailed(t, iv), ffmpeg)
  }

  predicate AllExtractable(t: BoundaryType, ivs: seq<Interval>, m: Metadata) {
    forall i :: 0 <= i < |ivs| ==> Extractable(t, ivs[i], m)
  }

  lemma AllExtractableSuffix(t: BoundaryType, ivs: seq<Interval>, m: Metadata, i: nat)
    requires AllExtractable(t, ivs, m) && i <= |ivs|
    ensures AllExtractable(t, ivs[i..], m)
  {
    forall j | 0 <= j < |ivs[i..]|
      ensures Extractable(t, ivs[i..][j], m)
    {
      assert ivs[i..][j] == ivs[i + j];
    }
  }

  /** The intervals extracted in order, numbered from `no`, until one
      fails. */
  function Extractions(t: BoundaryType, ivs: seq<Interval>, m: Metadata, no: nat, ffmpeg: Step -> Result<()>): Outcome
    requires AllExtractable(t, ivs, m)
  {
    if ivs == [] then Outcome(Ok(()), [])
    else
      AllExtractableSuffix(t, ivs, m, 1);
      Then(Extraction(t, ivs[0], m, no, ffmpeg), Extractions(t, ivs[1..], m, no + 1, ffmpeg))
  }

  /** The extractions from the `i`-th interval on, one step at a time. */
  lemma ExtractionsUnfold(t: BoundaryType, ivs: seq<Interval>, m: Metadata, i: nat, ffmpeg: Step -> Result<()>)
    requires AllExtractable(t, ivs, m) && i < |ivs|
    ensures AllExtractable(t, ivs[i..], m) && AllExtractable(t, ivs[i + 1..], m)
    ensures Extractions(t, ivs[i..], m, i + 1, ffmpeg)
      == Then(Extraction(t, ivs[i], m, i + 1, ffmpeg), Extractions(t, ivs[i + 1..], m, i + 2, ffmpeg))
  {
    AllExtractableSuffix(t, ivs, m, i);
    AllExtractableSuffix(t, ivs, m, i + 1);
    assert ivs[i..][0] == ivs[i] && ivs[i..][1..] == ivs[i + 1..];
  }

  /** The loop of `cut` after `i` successful extractions that made the
      part files `made`. */
  lemma ExtractionsStep(t: BoundaryType, ivs: seq<Interval>, m: Metadata, i: nat, made: seq<Tag>, ffmpeg: Step -> Result<()>)
    requires AllExtractable(t, ivs, m) && i < |ivs|
    requires AllExtractable(t, ivs[i..], m)
    requires Extractions(t, ivs, m, 1, ffmpeg) == Then(Outcome(Ok(()), made), Extractions(t, ivs[i..], m, i + 1, ffmpeg))
    ensures AllExtractable(t, ivs[i + 1..], m)
    ensures var one := Extraction(t, ivs[i], m, i + 1, ffmpeg);
      && (one.result.Err? ==> Extractions(t, ivs, m, 1, ffmpeg) == Outcome(one.result, made + one.made))
      && (one.result.Ok? ==> Extractions(t, ivs, m, 1, ffmpeg) == Then(Outcome(Ok(()), made + one.made), Extractions(t, ivs[i + 1..], m, i + 2, ffmpeg)))
  {
    ExtractionsUnfold(t, ivs, m, i, ffmpeg);
    ThenStep(made, Extraction(t, ivs[i], m, i + 1, ffmpeg), Extractions(t, ivs[i + 1..], m, i + 2, ffmpeg));
  }

  /** The third of three stages fails. */
  lemma ThirdFails(before: seq<string>, a: Outcome, b: Outcome, c: Outcome, ext: string)
    requires a.result.Ok? && b.result.Ok? && c.result.Err? && c.made == []
    ensures var run := Then(a, Then(b, c));
      run.result == c.result && before + Names(a.made, ext) + Names(b.made, ext) + Names(c.made, ext) == before + Names(run.made, ext)
  {
    assert a.made + (b.made + []) == a.made + b.made;
    assert Names(c.made, ext) == [];
    MoreNames(before, a.made, b.made, ext);
  }

  /** The second of three stages fails. */
  lemma SecondFails(before: seq<string>, a: Outcome, b: Outcome, c: Outcome, ext: string)
    requires a.result.Ok? && b.result.Err? && b.made == []
    ensures var run := Then(a, Then(b, c));
      run.result == b.result && before + Names(a.made, ext) + Names(b.made, ext) == before + Names(run.made, ext)
  {
    assert a.made + [] == a.made;
    assert Names(b.made, ext) == [];
    assert before + Names(a.made, ext) + [] == before + Names(a.made, ext);
  }

  lemma ThreeNames(before: seq<string>, a: Outcome, b: Outcome, c: Outcome, ext: string)
    requires a.result.Ok? && b.result.Ok? && c.result.Ok?
    ensures var run := Then(a, Then(b, c));
      run.result.Ok? && before + Names(a.made, ext) + Names(b.made, ext) + Names(c.made, ext) == before + Names(run.made, ext)
  {
    NamesAppend(b.made, c.made, ext);
    NamesAppend(a.made, b.made + c.made, ext);
  }

  /** One more stage after a successful prefix. */
  lemma ThenStep(made: seq<Tag>, one: Outcome, rest: Outcome)
    ensures one.result.Err? ==> Then(Outcome(Ok(()), made), Then(one, rest)) == Outcome(one.result, made + one.made)
    ensures one.result.Ok? ==> Then(Outcome(Ok(()), made), Then(one, rest)) == Then(Outcome(Ok(()), made + one.made), rest)
  {
    ThenAssociative(Outcome(Ok(()), made), one, rest);
    if one.result.Ok? {
      ThenDone(one);
      assert Then(Outcome(Ok(()), made), one) == Outcome(Ok(()), made + one.made) by {
        match one.result.value { case () => }
      }
    }
  }

  lemma NamesAppend(a: seq<Tag>, b: seq<Tag>, ext: string)
    ensures Names(a + b, ext) == Names(a, ext) + Names(b, ext)
  {
  }

  lemma MoreNames(before: seq<string>, a: seq<Tag>, b: seq<Tag>, ext: string)
    ensures before + Names(a, ext) + Names(b, ext) == before + Names(a + b, ext)
  {
    NamesAppend(a, b, ext);
  }

  // ---------------------------------------------------------------------
  // Joining the part files

  const CUT_FAILED := "Could not cut video with ffmpeg"
  const NO_PARTS := "No interval files found. Nothing to concatenate"

  /** The directory entries that are part files, in listing order. */
  function PartFiles(listing: seq<string>): (ps: seq<string>)
    ensures forall x :: x in ps <==> x in listing && IsPartName(x)
  {
    if listing == [] then []
    else (if IsPartName(listing[0]) then [listing[0]] else []) + PartFiles(listing[1..])
  }

  lemma {:induction false} PartFilesAppend(a: seq<string>, b: seq<string>)
    ensures PartFiles(a + b) == PartFiles(a) + PartFiles(b)
  {
    if a == [] {
      assert a + b == b;
    } else {
      assert (a + b)[0] == a[0] && (a + b)[1..] == a[1..] + b;
      PartFilesAppend(a[1..], b);
    }
  }

  /** The part files among a listing depend only on what is listed, not
      on the order. */
  lemma {:induction false} PartFilesCount(listing: seq<string>, x: string)
    ensures multiset(PartFiles(listing))[x] == if IsPartName(x) then multiset(listing)[x] else 0
  {
    if listing != [] {
      PartFilesCount(listing[1..], x);
      assert listing == [listing[0]] + listing[1..];
    }
  }

  lemma PartFilesPermutation(a: seq<string>, b: seq<string>)
    requires multiset(a) == multiset(b)
    ensures multiset(PartFiles(a)) == multiset(PartFiles(b))
  {
    forall x
      ensures multiset(PartFiles(a))[x] == multiset(PartFiles(b))[x]
    {
      PartFilesCount(a, x);
      PartFilesCount(b, x);
    }
  }

  lemma {:induction false} PartFilesAll(ns: seq<string>)
    requires forall i :: 0 <= i < |ns| ==> IsPartName(ns[i])
    ensures PartFiles(ns) == ns
  {
    if ns != [] {
      PartFilesAll(ns[1..]);
      assert ns == [ns[0]] + ns[1..];
    }
  }

  /** A line of the index file for ffmpeg's concat demuxer. */
  function IndexLine(name: string): string {
    "file '" + name + "'\n"
  }

  function IndexText(parts: seq<string>): string {
    if parts == [] then "" else IndexText(parts[..|parts| - 1]) + IndexLine(parts[|parts| - 1])
  }

  /** What becomes of the sorted part files: none is an error, a single
      one is renamed to the output, several are concatenated by ffmpeg
      from the index file.  Renaming and ffmpeg are oracles. */
  function Assemble(parts: seq<string>, rename: string -> Result<()>, concat: string -> Result<()>): Result<()> {
    if |parts| == 0 then Err(NO_PARTS)
    else if |parts| == 1 then
      match rename(parts[0])
      case Err(_) => Err("Cannot move cut internal \"" + parts[0] + "\" to cut directory")
      case Ok(_) => Ok(())
    else concat(IndexText(parts))
  }

  /** `concatenate_intervals` on a directory listing. */
  method ConcatenateIntervals(listing: seq<string>, rename: string -> Result<()>, concat: string -> Result<()>) returns (r: Result<()>)
    ensures r == Assemble(SortStrings(PartFiles(listing)), rename, concat)
  {
    var parts := SortStrings(PartFiles(listing));
    if |parts| == 0 {
      return Err(NO_PARTS);
    }
    if |parts| == 1 {
      var moved := rename(parts[0]);
      if moved.Err? {
        return Err("Cannot move cut internal \"" + parts[0] + "\" to cut directory");
      }
      return Ok(());
    }
    var index := "";
    for i := 0 to |parts|
      invariant index == IndexText(parts[..i])
    {
      assert parts[..i + 1][..i] == parts[..i];
      index := index + IndexLine(parts[i]);
    }
    assert parts[..|parts|] == parts;
    r := concat(index);
  }

  // ---------------------------------------------------------------------
  // The directory and the cut

  /** The cutting directory: the names of the files in it. */
  class CuttingDir {
    var files: seq<string>

    constructor (files: seq<string>)
      ensures this.files == files
    {
      this.files := files;
    }

    /** `copy_interval` or `encode_interval` for one piece. */
    method MakePiece(p: Piece, m: Metadata, no: nat, ext: string, ctx: string, ffmpeg: Step -> Result<()>) returns (r: Result<()>)
      modifies this
      ensures r == RunPiece(p, m, no, ctx, ffmpeg).result
      ensures files == old(files) + Names(RunPiece(p, m, no, ctx, ffmpeg).made, ext)
    {
      var times := ToTimes(p.boundary, p.iv, m);
      if times.Err? {
        return Err(if p.id == Pre then times.error else ctx);
      }
      var id := if p.action == Copy then Main else p.id;
      var out := ffmpeg(Step(p.action, times.value, no, id));
      if out.Err? {
        return Err(ctx);
      }
      files := files + [PartName(no, id, ext)];
      return Ok(());
    }

    /** `extract_interval`. */
    method ExtractInterval(t: BoundaryType, iv: Interval, m: Metadata, no: nat, ext: string, ffmpeg: Step -> Result<()>) returns (r: Result<()>)
      requires Extractable(t, iv, m)
      modifies this
      ensures r == Extraction(t, iv, m, no, ffmpeg).result
      ensures files == old(files) + Names(Extraction(t, iv, m, no, ffmpeg).made, ext)
    {
      var ctx := ExtractFailed(t, iv);
      if !HasFrames(m) {
        RunSingle(Piece(Main, Copy, t, iv), m, no, ctx, ffmpeg);
        r := MakePiece(Piece(Main, Copy, t, iv), m, no, ext, ctx, ffmpeg);
        return;
      }
      var f := ToFrames(t, iv, m);
      if f.Err? {
        return Err(ctx);
      }
      var kf := ToKeyFrames(f.value, m);
      if kf.None? {
        RunSingle(Piece(Main, Encode, t, iv), m, no, ctx, ffmpeg);
        r := MakePiece(Piece(Main, Encode, t, iv), m, no, ext, ctx, ffmpeg);
        return;
      }
      assert Plan(t, iv, m) == Ok(PrePiece(f.value, kf.value) + [Piece(Main, Copy, Frame, kf.value)] + PostPiece(f.value, kf.value));
      r := ExtractAroundKeyFrames(f.value, kf.value, m, no, ext, ctx, ffmpeg);
    }

    /** The branch of `extract_interval` for an interval with key frames:
        the frames before the first key frame re-encoded, the key-frame
        interval copied, the frames after the last key frame re-encoded. */
    method ExtractAroundKeyFrames(f: Interval, kf: Interval, m: Metadata, no: nat, ext: string, ctx: string, ffmpeg: Step -> Result<()>)
      returns (r: Result<()>)
      modifies this
      ensures var run := RunPieces(PrePiece(f, kf) + [Piece(Main, Copy, Frame, kf)] + PostPiece(f, kf), m, no, ctx, ffmpeg);
        r == run.result && files == old(files) + Names(run.made, ext)
    {
      var main := Piece(Main, Copy, Frame, kf);
      ThreeRuns(PrePiece(f, kf), main, PostPiece(f, kf), m, no, ctx, ffmpeg);
      ghost var runPre, runMain, runPost := RunPieces(PrePiece(f, kf), m, no, ctx, ffmpeg), RunPiece(main, m, no, ctx, ffmpeg), RunPieces(PostPiece(f, kf), m, no, ctx, ffmpeg);
      r := MakePre(f, kf, m, no, ext, ctx, ffmpeg);
      if r.Err? {
        return;
      }
      r := MakePiece(main, m, no, ext, ctx, ffmpeg);
      if r.Err? {
        SecondFails(old(files), runPre, runMain, runPost, ext);
        return;
      }
      r := MakePost(f, kf, m, no, ext, ctx, ffmpeg);
      if r.Err? {
        ThirdFails(old(files), runPre, runMain, runPost, ext);
        return;
      }
      ThreeNames(old(files), runPre, runMain, runPost, ext);
    }

    /** The frames before the first key frame, re-encoded unless there
        are none or only one. */
    method MakePre(f: Interval, kf: Interval, m: Metadata, no: nat, ext: string, ctx: string, ffmpeg: Step -> Result<()>)
      returns (r: Result<()>)
      modifies this
      ensures var run := RunPieces(PrePiece(f, kf), m, no, ctx, ffmpeg);
        r == run.result && files == old(files) + Names(run.made, ext) && (r.Err? ==> run.made == [])
    {
      r := Ok(());
      if f.from < kf.from {
        var piece := FromFromTo(f.from, kf.from - 1);
        if piece.Some? {
          RunSingle(Piece(Pre, Encode, Frame, piece.value), m, no, ctx, ffmpeg);
          r := MakePiece(Piece(Pre, Encode, Frame, piece.value), m, no, ext, ctx, ffmpeg);
          return;
        }
      }
      assert files == old(files) + [];
    }

    /** The frames after the last key frame, likewise. */
    method MakePost(f: Interval, kf: Interval, m: Metadata, no: nat, ext: string, ctx: string, ffmpeg: Step -> Result<()>)
      returns (r: Result<()>)
      modifies this
      ensures var run := RunPieces(PostPiece(f, kf), m, no, ctx, ffmpeg);
        r == run.result && files == old(files) + Names(run.made, ext) && (r.Err? ==> run.made == [])
    {
      r := Ok(());
      if f.to > kf.to {
        var piece := FromFromTo(kf.to + 1, f.to);
        if piece.Some? {
          RunSingle(Piece(Post, Encode, Frame, piece.value), m, no, ctx, ffmpeg);
          r := MakePiece(Piece(Post, Encode, Frame, piece.value), m, no, ext, ctx, ffmpeg);
          return;
        }
      }
      assert files == old(files) + [];
    }

    /** The loop of `cut`: the intervals extracted in order and numbered
        from 1 until one fails. */
    method ExtractIntervals(t: BoundaryType, ivs: seq<Interval>, m: Metadata, ext: string, ffmpeg: Step -> Result<()>)
      returns (r: Result<()>)
      requires AllExtractable(t, ivs, m)
      modifies this
      ensures var e := Extractions(t, ivs, m, 1, ffmpeg);
        r == e.result && files == old(files) + Names(e.made, ext)
    {
      ghost var made: seq<Tag> := [];
      assert ivs[0..] == ivs;
      ThenDone(Extractions(t, ivs, m, 1, ffmpeg));
      for i := 0 to |ivs|
        invariant AllExtractable(t, ivs[i..], m)
        invariant files == old(files) + Names(made, ext)
        invariant Extractions(t, ivs, m, 1, ffmpeg) == Then(Outcome(Ok(()), made), Extractions(t, ivs[i..], m, i + 1, ffmpeg))
      {
        ExtractionsStep(t, ivs, m, i, made, ffmpeg);
        ghost var one := Extraction(t, ivs[i], m, i + 1, ffmpeg);
        r := ExtractInterval(t, ivs[i], m, i + 1, ext, ffmpeg);
        MoreNames(old(files), made, one.made, ext);
        if r.Err? {
          return;
        }
        made := made + one.made;
      }
      assert ivs[|ivs|..] == [];
      ThenDone(Outcome(Ok(()), made));
      r := Ok(());
    }

    /** `cut`: the cutting directory created, the intervals extracted,
        then the part files found in the directory joined.  Every failure
        is reported under the context of `cut`.  A directory that cannot
        be created is left as it was; once created, it is removed in any
        case.  `created` is the outcome of `create_dir_all`; `readDir`
        lists the files of the directory in an order of its own, or
        fails. */
    method Cut(t: BoundaryType, ivs: seq<Interval>, m: Metadata, ext: string, ffmpeg: Step -> Result<()>,
               created: Result<()>, readDir: seq<string> -> Result<seq<string>>,
               rename: string -> Result<()>, concat: string -> Result<()>)
      returns (r: Result<()>)
      requires AllExtractable(t, ivs, m)
      requires forall fs :: readDir(fs).Ok? ==> multiset(readDir(fs).value) == multiset(fs)
      modifies this
      ensures var e := Extractions(t, ivs, m, 1, ffmpeg);
        var listing := readDir(old(files) + Names(e.made, ext));
        r.Ok? <==> created.Ok? && e.result.Ok? && listing.Ok?
                   && Assemble(SortStrings(PartFiles(listing.value)), rename, concat).Ok?
      ensures r.Err? ==> r.error == CUT_FAILED
      ensures created.Err? ==> files == old(files)
      ensures created.Ok? ==> files == []
    {
      if created.Err? {
        return Err(CUT_FAILED);
      }
      var extracted := ExtractIntervals(t, ivs, m, ext, ffmpeg);
      if extracted.Err? {
        files := [];
        return Err(CUT_FAILED);
      }
      var listing := readDir(files);
      if listing.Err? {
        files := [];
        return Err(CUT_FAILED);
      }
      var joined := ConcatenateIntervals(listing.value, rename, concat);
      files := [];
      if joined.Err? {
        return Err(CUT_FAILED);
      }
      return Ok(());
    }
  }

  // ---------------------------------------------------------------------
  // The order of the parts

  lemma TagsAppend(a: seq<Tag>, b: seq<Tag>)
    requires TagsIncreasing(a) && TagsIncreasing(b)
    requires a != [] && b != [] ==> TagLess(a[|a| - 1], b[0])
    ensures TagsIncreasing(a + b)
  {
    var c := a + b;
    forall i | 0 <= i < |c| - 1
      ensures TagLess(c[i], c[i + 1])
    {
      if i < |a| - 1 {
        assert c[i] == a[i] && c[i + 1] == a[i + 1];
      } else if i == |a| - 1 {
        assert c[i] == a[|a| - 1] && c[i + 1] == b[0];
      } else {
        assert c[i] == b[i - |a|] && c[i + 1] == b[i - |a| + 1];
      }
    }
  }

  /** The part files of one interval are tagged in piece order. */
  lemma ExtractionIncreasing(t: BoundaryType, iv: Interval, m: Metadata, no: nat, ffmpeg: Step -> Result<()>)
    requires Extractable(t, iv, m)
    ensures StageTagged(Extraction(t, iv, m, no, ffmpeg), no)
  {
    if Extraction(t, iv, m, no, ffmpeg).result.Err? {
      return;
    }
    PlanOrdered(t, iv, m);
    var ps := Plan(t, iv, m).value;
    var ts := Tags(ps, no);
    forall i | 0 <= i < |ts| - 1
      ensures TagLess(ts[i], ts[i + 1])
    {
      assert SubIntervalNo(FileId(ps[i])) < SubIntervalNo(FileId(ps[i + 1]));
    }
  }

  predicate NumberedFrom(ts: seq<Tag>, no: nat, n: nat) {
    forall i :: 0 <= i < |ts| ==> no <= ts[i].no < no + n
  }

  lemma NumberedAppend(a: seq<Tag>, b: seq<Tag>, no: nat, n: nat)
    requires n > 0 && forall i :: 0 <= i < |a| ==> a[i].no == no
    requires NumberedFrom(b, no + 1, n - 1)
    ensures NumberedFrom(a + b, no, n)
  {
    var c := a + b;
    forall i | 0 <= i < |c|
      ensures no <= c[i].no < no + n
    {
      if i >= |a| {
        assert c[i] == b[i - |a|];
      } else {
        assert c[i] == a[i];
      }
    }
  }

  /** A stage that, if it succeeds, made part files in piece order, all
      of them of interval `no`. */
  predicate StageTagged(o: Outcome, no: nat) {
    o.result.Ok? ==> TagsIncreasing(o.made) && forall j :: 0 <= j < |o.made| ==> o.made[j].no == no
  }

  /** All part files of a successful run of the intervals are tagged in
      (interval, piece) order, with interval numbers from `no` on. */
  lemma {:induction false} ExtractionsIncreasing(t: BoundaryType, ivs: seq<Interval>, m: Metadata, no: nat, ffmpeg: Step -> Result<()>)
    requires AllExtractable(t, ivs, m)
    requires Extractions(t, ivs, m, no, ffmpeg).result.Ok?
    ensures var ts := Extractions(t, ivs, m, no, ffmpeg).made;
      TagsIncreasing(ts) && NumberedFrom(ts, no, |ivs|)
    decreases |ivs|
  {
    if ivs != [] {
      AllExtractableSuffix(t, ivs, m, 1);
      var one := Extraction(t, ivs[0], m, no, ffmpeg);
      var rest := Extractions(t, ivs[1..], m, no + 1, ffmpeg);
      ExtractionIncreasing(t, ivs[0], m, no, ffmpeg);
      ExtractionsIncreasing(t, ivs[1..], m, no + 1, ffmpeg);
      var a, b := one.made, rest.made;
      if a != [] && b != [] {
        assert TagLess(a[|a| - 1], b[0]);
      }
      TagsAppend(a, b);
      NumberedAppend(a, b, no, |ivs|);
    }
  }

  /** However the directory lists them, the part files of a successful
      run with fewer than 1000 intervals are joined in the order they
      were made: interval by interval and, within one, Pre, Main, Post.
      (The directory must not hold part files from before.) */
  lemma PartsInCutOrder(t: BoundaryType, ivs: seq<Interval>, m: Metadata, ext: string, ffmpeg: Step -> Result<()>,
                        before: seq<string>, listing: seq<string>)
    requires AllExtractable(t, ivs, m)
    requires |ivs| <= 999 && '\n' !in ext && PartFiles(before) == []
    requires Extractions(t, ivs, m, 1, ffmpeg).result.Ok?
    requires multiset(listing) == multiset(before + Names(Extractions(t, ivs, m, 1, ffmpeg).made, ext))
    ensures var ts := Extractions(t, ivs, m, 1, ffmpeg).made;
      SortStrings(PartFiles(listing)) == Names(ts, ext) && TagsIncreasing(ts)
  {
    var ts := Extractions(t, ivs, m, 1, ffmpeg).made;
    var names := Names(ts, ext);
    ExtractionsIncreasing(t, ivs, m, 1, ffmpeg);
    NamesIncreasing(ts, ext);
    forall i | 0 <= i < |names|
      ensures IsPartName(names[i])
    {
      PartNameMatches(ts[i].no, ts[i].id, ext);
    }
    PartFilesAll(names);
    PartFilesAppend(before, names);
    PartFilesPermutation(listing, before + names);
    SortIncreasing(PartFiles(listing), names);
  }
}
