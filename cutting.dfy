/** The cut orchestration of otr-utils (`otr-utils/src/cutting/mod.rs`):
    where the cut list comes from for each access type, how one cut list
    is applied with ffmpeg (frame intervals first, then time intervals),
    the automatic choice among the provider's cut lists, and the
    submission of a cut list made from an intervals string.

    Everything that reaches outside the program is a parameter (an
    `Env`): the temporary directory, the metadata of the video, the INI
    data read from a file, the provider's answer for an id (an HTTP
    request) and the reading of that answer as INI data, the provider's
    header response, ffmpeg, the submission, and the two interval queries
    of a cut list, which the cut list's own interface does not define. */
module Cutting {
  import opened Wrappers
  import opened Text
  import opened CutlistCore
  import opened CutlistText
  import opened OtrCutlist
  import opened StreamInfo
  import opened Sorting
  import opened ProviderHeaders
  import opened FirstMatch
  import Intervals

  /** `CutError`. */
  datatype CutError = Any(message: string) | Default | NoCutlist | SubmissionFailed(message: string)

  /** `Display for CutError`. */
  function CutErrorText(e: CutError): string {
    match e
    case Any(m) => "Error: " + m
    case Default => "Default cut error"
    case NoCutlist => "No cut list exists"
    case SubmissionFailed(m) => "Submission of cut list to cutlist.at failed: " + m
  }

  /** `Result<(), CutError>`. */
  datatype Outcome = Success | Failure(error: CutError)

  /** `AccessType`: how the cut list is obtained. */
  datatype AccessType = Auto | Direct(intervals: string) | File(path: string) | Id(id: nat)

  /** `Ctrl`: the cut-list settings of one cut. */
  datatype Ctrl = Ctrl(submit: bool, rating: nat, minRating: Option<nat>, accessToken: Option<string>, accessType: AccessType)

  /** A cut list: its cutlist.at id, if known, and its items. */
  type CutlistValue = (Option<nat>, Items)

  /** Whether a cut list has intervals of a kind, and those intervals. */
  datatype Queries = Queries(
    has: (CutlistValue, Kind) -> bool,
    intervals: (CutlistValue, Kind) -> Result<seq<Intervals.Interval>>)

  /** What applying a cut list needs: the metadata of the video, the
      interval queries and ffmpeg. */
  datatype Cutter = Cutter(
    metadata: Result<Metadata>,
    queries: Queries,
    ffmpeg: (Kind, seq<Intervals.Interval>) -> Result<()>)

  /** What the orchestration needs from outside. */
  datatype Env = Env(
    tmpDir: Result<()>,
    cutter: Cutter,
    loadFile: string -> Result<Ini>,
    download: nat -> Result<string>,
    parseIni: string -> Option<Ini>,
    headerResponse: Result<seq<RawHeader>>,
    submit: (CutlistValue, string, nat) -> Result<()>)

  const CUT_FAILED := "Could not cut video with ffmpeg"
  const NONE_APPLIED := "No cut list could be successfully applied to cut video"
  const NO_TOKEN := "No access token for cutlist.at maintained in configuration file"

  // ---------------------------------------------------------------------
  // Applying one cut list

  /** The kinds ffmpeg was run with, in order, and the outcome. */
  datatype Tried = Tried(result: Result<()>, runs: seq<Kind>)

  /** Frame intervals are asked for: the cut list has them and the video
      has frames. */
  predicate FrameQuery(c: CutlistValue, u: Cutter) {
    u.metadata.Ok? && u.queries.has(c, Frames) && HasFrames(u.metadata.value)
  }

  /** The intervals of kind `k` are obtained and ffmpeg cuts with them. */
  predicate Succeeds(c: CutlistValue, u: Cutter, k: Kind) {
    var ivs := u.queries.intervals(c, k);
    ivs.Ok? && u.ffmpeg(k, ivs.value).Ok?
  }

  /** The second attempt of `cut_with_cutlist`, with time intervals. */
  function TimeAttempt(c: CutlistValue, u: Cutter, before: seq<Kind>): Tried {
    if !u.queries.has(c, Time) then Tried(Err(CUT_FAILED), before)
    else
      match u.queries.intervals(c, Time)
      case Err(e) => Tried(Err(e), before)
      case Ok(ivs) => Tried(if u.ffmpeg(Time, ivs).Ok? then Ok(()) else Err(CUT_FAILED), before + [Time])
  }

  /** `cut_with_cutlist`, with the kinds ffmpeg ran with. */
  function Applied(c: CutlistValue, u: Cutter): Tried
  {
    if u.metadata.Err? then Tried(Err(u.metadata.error), [])
    else if FrameQuery(c, u) then
      match u.queries.intervals(c, Frames)
      case Err(e) => Tried(Err(e), [])
      case Ok(ivs) =>
        if u.ffmpeg(Frames, ivs).Ok? then Tried(Ok(()), [Frames])
        else TimeAttempt(c, u, [Frames])
    else TimeAttempt(c, u, [])
  }

  /** The attempts of `cut_with_cutlist`: the metadata must be read.
      ffmpeg runs with frame intervals only when both the cut list and
      the video have frames, and with time intervals only when frames
      were not tried or failed; the first run that succeeds ends the cut.
      A failure to get the intervals asked for ends it too, with that
      error. */
  lemma AppliedMeaning(c: CutlistValue, u: Cutter)
    ensures u.metadata.Err? ==> Applied(c, u) == Tried(Err(u.metadata.error), [])
    ensures Applied(c, u).runs == [] || Applied(c, u).runs == [Frames] || Applied(c, u).runs == [Time] || Applied(c, u).runs == [Frames, Time]
    ensures Frames in Applied(c, u).runs <==> FrameQuery(c, u) && u.queries.intervals(c, Frames).Ok?
    ensures Time in Applied(c, u).runs <==>
      u.metadata.Ok?
      && !(FrameQuery(c, u) && (u.queries.intervals(c, Frames).Err? || Succeeds(c, u, Frames)))
      && u.queries.has(c, Time) && u.queries.intervals(c, Time).Ok?
    ensures Applied(c, u).result.Ok? <==> |Applied(c, u).runs| > 0 && Succeeds(c, u, Applied(c, u).runs[|Applied(c, u).runs| - 1])
    ensures forall i :: 0 <= i < |Applied(c, u).runs| - 1 ==> !Succeeds(c, u, Applied(c, u).runs[i])
    ensures Applied(c, u).result.Err? && u.metadata.Ok? && u.queries.intervals(c, Frames).Ok? && u.queries.intervals(c, Time).Ok? ==>
      Applied(c, u).result.error == CUT_FAILED
  {
  }

  /** `cut_with_cutlist` as the program runs it: the attempts one after
      the other. */
  method CutWithCutlist(c: CutlistValue, u: Cutter) returns (r: Result<()>, ghost runs: seq<Kind>)
    ensures Tried(r, runs) == Applied(c, u)
  {
    runs := [];
    if u.metadata.Err? {
      return Err(u.metadata.error), runs;
    }
    var metadata := u.metadata.value;
    if u.queries.has(c, Frames) {
      if !HasFrames(metadata) {
      } else {
        var ivs := u.queries.intervals(c, Frames);
        if ivs.Err? {
          return Err(ivs.error), runs;
        }
        var cut := u.ffmpeg(Frames, ivs.value);
        runs := runs + [Frames];
        if cut.Ok? {
          return Ok(()), runs;
        }
      }
    }
    if u.queries.has(c, Time) {
      var ivs := u.queries.intervals(c, Time);
      if ivs.Err? {
        return Err(ivs.error), runs;
      }
      var cut := u.ffmpeg(Time, ivs.value);
      runs := runs + [Time];
      if cut.Ok? {
        return Ok(()), runs;
      }
    }
    return Err(CUT_FAILED), runs;
  }

  // ---------------------------------------------------------------------
  // Where the cut list comes from

  /** `Cutlist::try_from(path)`: the INI data of the file, read as a cut
      list. */
  function CutlistFromFile(path: string, env: Env): (r: Result<CutlistValue>)
    ensures r.Ok? <==> env.loadFile(path).Ok? && CutlistFromIni(env.loadFile(path).value).Ok?
    ensures r.Ok? ==> r == CutlistFromIni(env.loadFile(path).value)
  {
    match env.loadFile(path)
    case Err(e) => Err(e)
    case Ok(ini) =>
      match CutlistFromIni(ini)
      case Err(_) => Err("\"" + path + "\" does not contain a valid cut list")
      case Ok(c) => Ok(c)
  }

  /** The cut list with this id is fetched and the video is cut with it. */
  predicate AppliesId(id: nat, env: Env) {
    var c := CutlistFromId(id, env.download, env.parseIni);
    c.Ok? && Applied(c.value, env.cutter).result.Ok?
  }

  /** `cut_with_cutlist_from_provider_by_id`: a cut list that cannot be
      fetched and one that cannot be applied both give `Any`. */
  function CutById(id: nat, env: Env): (r: Outcome)
    ensures r.Success? <==> AppliesId(id, env)
    ensures r.Failure? ==> r.error.Any?
    ensures CutlistFromId(id, env.download, env.parseIni).Err? ==> r == Failure(Any("Could not retrieve cut list ID=" + NatToString(id)))
    ensures CutlistFromId(id, env.download, env.parseIni).Ok? && r.Failure? ==> r == Failure(Any("Could not cut video with cut list " + NatToString(id)))
  {
    match CutlistFromId(id, env.download, env.parseIni)
    case Err(_) => Failure(Any("Could not retrieve cut list ID=" + NatToString(id)))
    case Ok(c) =>
      if Applied(c, env.cutter).result.Ok? then Success
      else Failure(Any("Could not cut video with cut list " + NatToString(id)))
  }

  /** `cut_with_cutlist_from_file`. */
  function CutFromFile(path: string, env: Env): (r: Outcome)
    ensures r.Success? <==> CutlistFromFile(path, env).Ok? && Applied(CutlistFromFile(path, env).value, env.cutter).result.Ok?
    ensures r.Failure? ==> r.error.Any?
    ensures CutlistFromFile(path, env).Err? ==> r == Failure(Any(CutlistFromFile(path, env).error))
  {
    match CutlistFromFile(path, env)
    case Err(e) => Failure(Any(e))
    case Ok(c) =>
      if Applied(c, env.cutter).result.Ok? then Success
      else Failure(Any("Could not cut video with cut list from \"" + path + "\""))
  }

  /** `cut_with_cutlist_from_intervals`: the cut list read from the
      intervals string is applied; only after a successful cut, and only
      when `submit` is set, is it submitted, which needs an access token. */
  function CutFromIntervals(s: string, submit: bool, token: Option<string>, rating: nat, env: Env): (r: Outcome)
    requires IntervalsReadable(s)
    ensures CutlistFromIntervals(s).Err? ==> r == Failure(Any(CutlistFromIntervals(s).error))
    ensures r.Success? <==>
      CutlistFromIntervals(s).Ok? && Applied((None, CutlistFromIntervals(s).value), env.cutter).result.Ok?
      && (submit ==> token.Some? && env.submit((None, CutlistFromIntervals(s).value), token.value, rating).Ok?)
    ensures r.Failure? ==> r.error.Any? || r.error.SubmissionFailed?
    ensures r.Failure? && r.error.SubmissionFailed? ==>
      submit && Applied((None, CutlistFromIntervals(s).value), env.cutter).result.Ok?
    ensures CutlistFromIntervals(s).Ok? && Applied((None, CutlistFromIntervals(s).value), env.cutter).result.Ok? && submit && token.None? ==>
      r == Failure(SubmissionFailed(NO_TOKEN))
  {
    match CutlistFromIntervals(s)
    case Err(e) => Failure(Any(e))
    case Ok(items) =>
      var c: CutlistValue := (None, items);
      if Applied(c, env.cutter).result.Err? then Failure(Any("Could not cut video with " + s))
      else if !submit then Success
      else
        match token
        case None => Failure(SubmissionFailed(NO_TOKEN))
        case Some(t) =>
          var sent := env.submit(c, t, rating);
          if sent.Err? then Failure(SubmissionFailed(sent.error)) else Success
  }

  /** A cut that fails, or a cut without `submit`, does not depend on the
      access token or on the submission: nothing is submitted. */
  lemma NoSubmissionUnlessCut(s: string, submit: bool, token: Option<string>, rating: nat, env: Env,
                              token': Option<string>, submit': (CutlistValue, string, nat) -> Result<()>)
    requires IntervalsReadable(s)
    requires !submit || CutlistFromIntervals(s).Err? || Applied((None, CutlistFromIntervals(s).value), env.cutter).result.Err?
    ensures CutFromIntervals(s, submit, token, rating, env) == CutFromIntervals(s, submit, token', rating, env.(submit := submit'))
  {
    if CutlistFromIntervals(s).Ok? {
      var c: CutlistValue := (None, CutlistFromIntervals(s).value);
      assert env.(submit := submit').cutter == env.cutter;
    }
  }

  // ---------------------------------------------------------------------
  // Automatic selection

  /** The header rules of otr-utils: the author's rating is the fallback,
      the minimum rating is the one asked for, `withframes` is not read. */
  function UtilsRules(minRating: Option<nat>): HeaderRules {
    HeaderRules(true, minRating, false)
  }

  /** The cut list of a header is fetched and the video is cut with it. */
  function Applies(env: Env): ProviderHeader -> bool {
    (h: ProviderHeader) => AppliesId(h.id, env)
  }

  /** `cut_with_cutlist_from_provider_auto_select`: a failed header
      request means there is no cut list; otherwise the headers are tried
      lowest rating first, and the first cut list that cuts the video ends
      the search.  When none does (also when there are no headers) the
      error is `Any`. */
  function AutoSelected(minRating: Option<nat>, env: Env): (r: Outcome)
    ensures env.headerResponse.Err? <==> r == Failure(NoCutlist)
    ensures env.headerResponse.Ok? ==>
      var hs := SortBy(Accept(UtilsRules(minRating), env.headerResponse.value), RatingKey);
      (r == Success <==> exists i :: 0 <= i < |hs| && Applies(env)(hs[i]))
      && (r != Success ==> r == Failure(Any(NONE_APPLIED)))
  {
    if env.headerResponse.Err? then Failure(NoCutlist)
    else
      var hs := SortBy(Accept(UtilsRules(minRating), env.headerResponse.value), RatingKey);
      match FirstSatisfying(hs, Applies(env))
      case None => Failure(Any(NONE_APPLIED))
      case Some(j) =>
        assert Applies(env)(hs[j]);
        Success
  }

  /** One round of the loop: the cut list of the header is fetched and,
      if that succeeds, applied. */
  method TryHeader(h: ProviderHeader, env: Env) returns (cut: bool)
    ensures cut == Applies(env)(h)
  {
    var cutlist := CutlistFromId(h.id, env.download, env.parseIni);
    if cutlist.Err? {
      return false;
    }
    var r, runs := CutWithCutlist(cutlist.value, env.cutter);
    return r.Ok?;
  }

  /** The loop of the automatic selection, with its `is_cut` flag; `tried`
      counts the headers whose cut list was fetched. */
  method AutoSelect(minRating: Option<nat>, env: Env) returns (r: Outcome, ghost tried: nat)
    ensures r == AutoSelected(minRating, env)
    ensures env.headerResponse.Err? ==> tried == 0
    ensures env.headerResponse.Ok? ==>
      var hs := SortBy(Accept(UtilsRules(minRating), env.headerResponse.value), RatingKey);
      tried == match FirstSatisfying(hs, Applies(env)) case Some(j) => j + 1 case None => |hs|
  {
    tried := 0;
    var headers := HeadersFromProvider(UtilsRules(minRating), env.headerResponse);
    if headers.Err? {
      return Failure(NoCutlist), tried;
    }
    var hs := headers.value;
    var isCut := false;
    var i := 0;
    while i < |hs|
      invariant 0 <= i <= |hs|
      invariant forall j :: 0 <= j < i ==> !Applies(env)(hs[j])
      invariant !isCut
    {
      var cut := TryHeader(hs[i], env);
      if cut {
        isCut := true;
        break;
      }
      NoneUpTo(hs, Applies(env), i);
      i := i + 1;
    }
    if !isCut {
      return Failure(Any(NONE_APPLIED)), |hs|;
    }
    FirstSatisfyingAt(hs, Applies(env), i);
    return Success, i + 1;
  }

  // ---------------------------------------------------------------------
  // Dispatch

  /** `cut`: the temporary directory must exist; then the access type
      decides where the cut list comes from.  Only the automatic
      selection reports that there is no cut list, only a cut from
      intervals with `submit` set reports a failed submission, and the
      default error is never returned. */
  function Cut(ctrl: Ctrl, env: Env): (r: Outcome)
    requires ctrl.accessType.Direct? ==> IntervalsReadable(ctrl.accessType.intervals)
    ensures env.tmpDir.Err? ==> r == Failure(Any(env.tmpDir.error))
    ensures r == Failure(NoCutlist) <==> env.tmpDir.Ok? && ctrl.accessType.Auto? && env.headerResponse.Err?
    ensures r.Failure? && r.error.SubmissionFailed? ==> ctrl.accessType.Direct? && ctrl.submit
    ensures r != Failure(Default)
    ensures env.tmpDir.Ok? && ctrl.accessType.Id? ==> (r.Success? <==> AppliesId(ctrl.accessType.id, env))
    ensures env.tmpDir.Ok? && ctrl.accessType.File? ==> r == CutFromFile(ctrl.accessType.path, env)
    ensures env.tmpDir.Ok? && ctrl.accessType.Auto? ==> r == AutoSelected(ctrl.minRating, env)
    ensures env.tmpDir.Ok? && ctrl.accessType.Direct? ==>
      r == CutFromIntervals(ctrl.accessType.intervals, ctrl.submit, ctrl.accessToken, ctrl.rating, env)
  {
    if env.tmpDir.Err? then Failure(Any(env.tmpDir.error))
    else
      match ctrl.accessType
      case Direct(s) => CutFromIntervals(s, ctrl.submit, ctrl.accessToken, ctrl.rating, env)
      case File(path) => CutFromFile(path, env)
      case Id(id) => CutById(id, env)
      case Auto => AutoSelected(ctrl.minRating, env)
  }

}
