/** The cutting code of `src/video/cutting/`, the generation before
    otr-utils: cut lists read from an intervals string, an INI file or
    cutlist.at, validated, and cut with mkvmerge, one kind of intervals
    after the other.

    The world outside is an `Env`: the INI data read from a file, the
    provider's answer for an id (an HTTP request) and the reading of that
    answer as INI data, the header list of the provider (its call does
    not match the signature of `headers_from_provider`), and mkvmerge on
    a split string. */
module VideoCutting {
  import opened Wrappers
  import opened Text
  import opened Numbers
  import opened Sorting
  import opened CutlistCore
  import opened CutlistText
  import opened ProviderHeaders
  import opened FirstMatch

  // ---------------------------------------------------------------------
  // Headers

  /** This generation reads neither the author's rating nor `withframes`,
      and has no minimum rating. */
  const RULES := HeaderRules(false, None, false)

  /** `headers_from_provider`: every header without errors is offered,
      whatever its rating, rated by its own `rating` or 0, lowest rating
      first. */
  lemma HeadersOffered(raws: seq<RawHeader>)
    ensures SortedBy(SortBy(Accept(RULES, raws), RatingKey), RatingKey)
    ensures forall i :: 0 <= i < |raws| && !HasErrors(raws[i]) ==>
      ProviderHeader(raws[i].id, OwnRating(raws[i]), None) in SortBy(Accept(RULES, raws), RatingKey)
    ensures forall h :: h in SortBy(Accept(RULES, raws), RatingKey) ==>
      exists i :: 0 <= i < |raws| && !HasErrors(raws[i]) && h == ProviderHeader(raws[i].id, OwnRating(raws[i]), None)
  {
    HeadersWithoutMinimum(RULES, raws);
  }

  // ---------------------------------------------------------------------
  // Reading a cut list

  function NotIntervalsText(s: string): string {
    "'" + s + "' is not a valid intervals string"
  }

  function CannotCreateFrom(s: string): string {
    "Cannot create cut list from '" + s + "'"
  }

  /** `FromStr for CutList`: one kind, the items in textual order, and no
      validation. */
  function CutlistFromStr(s: string): (r: Result<Items>)
    requires IntervalsReadable(s)
    ensures r.Ok? <==> IntervalsItems(s).Ok?
    ensures r.Ok? ==> r.value.Keys == {IntervalsItems(s).value.0} && r.value[IntervalsItems(s).value.0] == IntervalsItems(s).value.1
    ensures r.Err? ==> r.error == if MatchIntervals(s).None? then NotIntervalsText(s) else CannotCreateFrom(s)
  {
    var read := IntervalsItems(s);
    if read.Err? then Err(if MatchIntervals(s).None? then NotIntervalsText(s) else CannotCreateFrom(s))
    else Ok(map[read.value.0 := read.value.1])
  }

  /** Items of one kind written as an intervals string come back as a cut
      list of that kind, even items that start after they end. */
  lemma FromStrKeepsItems(k: Kind, items: seq<Item>)
    requires |items| >= 1
    requires k == Time ==> forall i :: 0 <= i < |items| ==> 0 <= items[i].start <= U64_MAX && 0 <= items[i].end <= U64_MAX
    ensures IntervalsReadable(IntervalsText(k, items))
    ensures CutlistFromStr(IntervalsText(k, items)) == Ok(map[k := items])
  {
    IntervalsTextRoundTrip(k, items);
  }

  /** `[Meta]/CutlistId` if present; the id only appears in messages. */
  function IdText(ini: Ini): string {
    if META_SECTION in ini && CUTLIST_ID in ini[META_SECTION] then ini[META_SECTION][CUTLIST_ID] else "unknown"
  }

  /** `TryFrom<&Ini> for CutList`: `[General]/NoOfCuts` must be an `i32`,
      then the cuts 0..NoOfCuts-1 are read.  No `[Meta]` is needed and the
      result is not validated. */
  function CutlistFromIni(ini: Ini): (r: Result<Items>)
  {
    if GENERAL_SECTION !in ini then Err("Could not find section 'General' in cutlist '" + IdText(ini) + "'")
    else if NUM_OF_CUTS !in ini[GENERAL_SECTION] then Err("Could not find attribute 'NoOfCuts' in cutlist '" + IdText(ini) + "'")
    else match ParseI32(ini[GENERAL_SECTION][NUM_OF_CUTS])
      case None => Err("Could not parse attribute 'NoOfCuts' in cutlist '" + IdText(ini) + "'")
      case Some(n) =>
        match ReadCuts(ini, Rounds(n))
        case Err(_) => Err("Could not read cuts of cut list '" + IdText(ini) + "'")
        case Ok(items) => Ok(items)
  }

  /** Reading fails exactly when the number of cuts is missing or no
      integer, or a later cut lacks a kind that cut 0 fixed; the kinds are
      those of cut 0, each with its positive-duration cuts in order, and no
      cut at all gives an empty cut list. */
  lemma CutlistFromIniMeaning(ini: Ini)
    ensures CutlistFromIni(ini).Ok? <==>
      NumCuts(ini).Ok? && (NumCuts(ini).value >= 1 ==> !MissingCut(ini, NumCuts(ini).value))
    ensures NumCuts(ini).Ok? && NumCuts(ini).value <= 0 ==> CutlistFromIni(ini) == Ok(map[])
    ensures CutlistFromIni(ini).Ok? && NumCuts(ini).value >= 1 ==>
      var n, items := NumCuts(ini).value, CutlistFromIni(ini).value;
      items.Keys == FirstKinds(ini) && forall k :: k in items ==> items[k] == PositiveItems(ini, k, n)
  {
    if NumCuts(ini).Ok? {
      var n := NumCuts(ini).value;
      if n >= 1 {
        ReadCutsMeaning(ini, n);
      } else {
        assert ReadCuts(ini, Rounds(n)) == Ok(map[]);
      }
    }
  }

  // ---------------------------------------------------------------------
  // Growing the items of a later cut, kind by kind

  /** The item cut `n` adds to a kind: itself if it has a positive
      duration, otherwise nothing. */
  function Found(r: Result<Option<Item>>): seq<Item> {
    if r.Ok? && r.value.Some? then [r.value.value] else []
  }

  /** `extend_from_ini_cut` at a later cut, whatever the order of the
      kinds: it fails iff a kind of the cut list cannot be read, and
      otherwise every kind has taken up the cut. */
  lemma ExtendEach(items: Items, ini: Ini, n: nat)
    requires n > 0
    ensures ExtendItems(items, ini, n).Ok? <==> forall k :: k in items ==> ItemFromIni(ini, n, k).Ok?
    ensures ExtendItems(items, ini, n).Ok? ==>
      forall k :: k in items ==> ExtendItems(items, ini, n).value[k] == items[k] + Found(ItemFromIni(ini, n, k))
  {
    var mid := ExtendKind(items, ini, n, Frames);
    if mid.Ok? {
      assert mid.value.Keys == items.Keys;
      assert Frames in items ==> mid.value[Frames] == items[Frames] + Found(ItemFromIni(ini, n, Frames));
      assert Time in items ==> mid.value[Time] == items[Time];
      var last := ExtendKind(mid.value, ini, n, Time);
      if last.Ok? {
        assert Time in items ==> last.value[Time] == items[Time] + Found(ItemFromIni(ini, n, Time));
        assert Frames in items ==> last.value[Frames] == mid.value[Frames];
        forall k | k in items
          ensures ItemFromIni(ini, n, k).Ok? && last.value[k] == items[k] + Found(ItemFromIni(ini, n, k))
        {
          match k
          case Frames =>
          case Time =>
        }
      }
    }
  }

  // ---------------------------------------------------------------------
  // The cut list

  function NoIntervalsOf(k: Kind): string {
    "Cannot create mkvmerge split string: Cut list does not contain " + KindName(k) + " intervals"
  }

  /** `to_mkvmerge_split_str` on the items of a cut list: an error for a
      kind the cut list does not have; otherwise a split string from which
      the cut points of that kind read back, frame numbers rounded. */
  function SplitStrOf(items: Items, k: Kind): (r: Result<string>)
    ensures r.Ok? <==> k in items
    ensures r.Err? ==> r.error == NoIntervalsOf(k)
    ensures r.Ok? && Writable(k, items[k]) ==> ReadSplitStr(k, r.value) == Some(ReadBacks(k, items[k]))
  {
    if k !in items then Err(NoIntervalsOf(k))
    else
      var s := SplitStr(k, items[k]);
      assert Writable(k, items[k]) ==> ReadSplitStr(k, s) == Some(ReadBacks(k, items[k])) by {
        if Writable(k, items[k]) {
          SplitStrRoundTrip(k, items[k]);
        }
      }
      Ok(s)
  }

  class CutList {
    var items: Items

    /** `CutList::default()`. */
    constructor ()
      ensures items == map[]
    {
      items := map[];
    }

    /** One kind at cut 0: it is taken up if its item reads with positive
        duration. */
    method AddFirstKind(ini: Ini, k: Kind)
      modifies this
      ensures items == AddFirst(old(items), ini, k)
    {
      var item := ItemFromIni(ini, 0, k);
      if item.Ok? && item.value.Some? {
        AddFirstFound(items, ini, k, item.value.value);
        items := items[k := [item.value.value]];
      } else {
        AddFirstSkipped(items, ini, k);
      }
    }

    /** A later cut, read for the kinds of the cut list in their
        (unspecified) map order: every kind must be readable, and takes up
        the cut if its duration is positive. */
    method ExtendLaterCut(ini: Ini, n: nat) returns (r: Result<()>)
      modifies this
      ensures r.Ok? <==> forall k :: k in old(items) ==> ItemFromIni(ini, n, k).Ok?
      ensures r.Ok? ==> items.Keys == old(items).Keys
      ensures r.Ok? ==> forall k :: k in old(items) ==> items[k] == old(items)[k] + Found(ItemFromIni(ini, n, k))
    {
      var remaining := items.Keys;
      while remaining != {}
        invariant remaining <= old(items).Keys == items.Keys
        invariant forall k :: k in old(items) && k !in remaining ==> ItemFromIni(ini, n, k).Ok?
        invariant forall k :: k in old(items) ==>
          items[k] == if k in remaining then old(items)[k] else old(items)[k] + Found(ItemFromIni(ini, n, k))
        decreases remaining
      {
        var k :| k in remaining;
        var item := ItemFromIni(ini, n, k);
        if item.Err? {
          return Err("Cut no " + NatToString(n) + " does not contain " + KindName(k) + " information, though the cut list supprts that");
        }
        if item.value.Some? {
          items := items[k := items[k] + [item.value.value]];
        } else {
          assert old(items)[k] + Found(item) == old(items)[k];
        }
        remaining := remaining - {k};
      }
      return Ok(());
    }

    /** `extend_from_ini_cut`: cut 0 fixes the kinds, a later cut extends
        them. */
    method ExtendFromIniCut(ini: Ini, n: nat) returns (r: Result<()>)
      modifies this
      ensures r.Ok? <==> ExtendItems(old(items), ini, n).Ok?
      ensures r.Ok? ==> items == ExtendItems(old(items), ini, n).value
    {
      if n == 0 {
        AddFirstKind(ini, Frames);
        AddFirstKind(ini, Time);
        return Ok(());
      }
      ExtendEach(items, ini, n);
      r := ExtendLaterCut(ini, n);
    }

    /** `validate`: some kind, and no item that starts after its end. */
    method Validate() returns (r: Result<()>)
      ensures r == ValidateItems(items, false)
    {
      if items == map[] {
        return Err("Cut list does not contain intervals");
      }
      r := ValidateKinds(items);
    }

    /** `to_mkvmerge_split_str`: the kind check, then the parts appended
        in a loop. */
    method ToMkvmergeSplitStr(k: Kind) returns (r: Result<string>)
      ensures r == SplitStrOf(items, k)
    {
      if k !in items {
        return Err(NoIntervalsOf(k));
      }
      var s := BuildSplitStr(k, items[k]);
      return Ok(s);
    }

    /** `from_str`. */
    static method FromStr(s: string) returns (r: Result<CutList>)
      requires IntervalsReadable(s)
      ensures r.Ok? <==> CutlistFromStr(s).Ok?
      ensures r.Ok? ==> fresh(r.value) && r.value.items == CutlistFromStr(s).value
      ensures r.Err? ==> r.error == CutlistFromStr(s).error
    {
      var read := ReadIntervalsString(s);
      if read.Err? {
        return Err(if MatchIntervals(s).None? then NotIntervalsText(s) else CannotCreateFrom(s));
      }
      var cutlist := new CutList();
      cutlist.items := map[read.value.0 := read.value.1];
      return Ok(cutlist);
    }

    /** `TryFrom<&Ini> for CutList`. */
    static method TryFromIni(ini: Ini) returns (r: Result<CutList>)
      ensures r.Ok? <==> CutlistFromIni(ini).Ok?
      ensures r.Ok? ==> fresh(r.value) && r.value.items == CutlistFromIni(ini).value
      ensures r.Err? ==> r.error == CutlistFromIni(ini).error
    {
      var id := IdText(ini);
      if GENERAL_SECTION !in ini {
        return Err("Could not find section 'General' in cutlist '" + id + "'");
      }
      if NUM_OF_CUTS !in ini[GENERAL_SECTION] {
        return Err("Could not find attribute 'NoOfCuts' in cutlist '" + id + "'");
      }
      var numCuts := ParseI32(ini[GENERAL_SECTION][NUM_OF_CUTS]);
      if numCuts.None? {
        return Err("Could not parse attribute 'NoOfCuts' in cutlist '" + id + "'");
      }
      var cutlist := new CutList();
      for i := 0 to Rounds(numCuts.value)
        invariant ReadCuts(ini, i) == Ok(cutlist.items)
      {
        var extended := cutlist.ExtendFromIniCut(ini, i);
        if extended.Err? {
          ReadCutsErrSticky(ini, i + 1, Rounds(numCuts.value));
          return Err("Could not read cuts of cut list '" + id + "'");
        }
      }
      return Ok(cutlist);
    }
  }

  // ---------------------------------------------------------------------
  // mkvmerge

  /** What `cut_with_mkvmerge` starts from before any kind is tried: the
      text of `CutError::Default`. */
  const DEFAULT_ERROR := "Default cut error"
  const MKVMERGE_FAILED := "mkvmerge returned an error"

  /** mkvmerge on the split string of a kind of the cut list. */
  function RunOf(items: Items, k: Kind, run: string -> Result<()>): Result<()>
    requires k in items
  {
    run(SplitStr(k, items[k]))
  }

  /** Some kind of the cut list lets mkvmerge cut the video. */
  predicate Cuttable(items: Items, run: string -> Result<()>) {
    exists k :: k in items && RunOf(items, k, run).Ok?
  }

  /** `exec_mkvmerge`: the split string, then mkvmerge on it. */
  method ExecMkvmerge(cutlist: CutList, k: Kind, run: string -> Result<()>) returns (r: Result<()>)
    ensures k !in cutlist.items ==> r == Err(NoIntervalsOf(k))
    ensures k in cutlist.items ==> r == RunOf(cutlist.items, k, run)
  {
    var split := cutlist.ToMkvmergeSplitStr(k);
    if split.Err? {
      return Err(split.error);
    }
    r := run(split.value);
  }

  /** `cut_with_mkvmerge`: the kinds in the order of `kinds()`, which is
      the unspecified order of the item map; the first success ends the
      loop.  Otherwise the error is the failure of the kind tried last, or
      the default error when the cut list has no kind, under the context
      of this function. */
  method CutWithMkvmerge(cutlist: CutList, run: string -> Result<()>) returns (r: Result<()>)
    ensures r.Ok? <==> Cuttable(cutlist.items, run)
    ensures r.Ok? ==> r == Ok(())
    ensures r.Err? && cutlist.items == map[] ==> r.error == Context(MKVMERGE_FAILED, DEFAULT_ERROR)
    ensures r.Err? && cutlist.items != map[] ==>
      exists k :: k in cutlist.items && r.error == Context(MKVMERGE_FAILED, RunOf(cutlist.items, k, run).error)
  {
    var err := DEFAULT_ERROR;
    var remaining := cutlist.items.Keys;
    ghost var last: Kind := Frames;
    while remaining != {}
      invariant remaining <= cutlist.items.Keys
      invariant forall k :: k in cutlist.items && k !in remaining ==> RunOf(cutlist.items, k, run).Err?
      invariant remaining == cutlist.items.Keys ==> err == DEFAULT_ERROR
      invariant remaining != cutlist.items.Keys ==>
        last in cutlist.items && last !in remaining && err == RunOf(cutlist.items, last, run).error
      decreases remaining
    {
      var k :| k in remaining;
      var res := ExecMkvmerge(cutlist, k, run);
      if res.Ok? {
        return Ok(());
      }
      err := res.error;
      last := k;
      remaining := remaining - {k};
    }
    if cutlist.items != map[] {
      assert last in cutlist.items;
    }
    return Err(Context(MKVMERGE_FAILED, err));
  }

  // ---------------------------------------------------------------------
  // Errors and access types

  datatype CutError = Any(message: string) | Default | NoCutlist

  /** `Display for CutError`. */
  function CutErrorText(e: CutError): string {
    match e
    case Any(m) => "Error: " + m
    case Default => "Default cut error"
    case NoCutlist => "No cutlist exists"
  }

  datatype Outcome = Success | Failure(error: CutError)

  /** Where the cut list comes from. */
  datatype AccessType = Auto | Direct(intervals: string) | File(path: string) | Id(id: nat)

  datatype Env = Env(
    loadFile: string -> Result<Ini>,
    download: nat -> Result<string>,
    parseIni: string -> Option<Ini>,
    headers: Result<seq<ProviderHeader>>,
    run: string -> Result<()>)

  const NONE_APPLIED := "No cut list could be successfully applied to cut video"

  // ---------------------------------------------------------------------
  // The three direct paths

  /** A cut list that was read: validated first, and only a valid one is
      given to mkvmerge; both failures are `Any` with the path's text. */
  function Applied(items: Items, run: string -> Result<()>, invalid: string, failed: string): (r: Outcome)
    ensures r == Success <==> ValidateItems(items, false).Ok? && Cuttable(items, run)
    ensures ValidateItems(items, false).Err? ==> r == Failure(Any(invalid))
    ensures ValidateItems(items, false).Ok? && !Cuttable(items, run) ==> r == Failure(Any(failed))
  {
    if ValidateItems(items, false).Err? then Failure(Any(invalid))
    else if Cuttable(items, run) then Success
    else Failure(Any(failed))
  }

  /** The steps after reading: `validate()?`, then `cut_with_mkvmerge`. */
  method ApplyCutlist(cutlist: CutList, run: string -> Result<()>, invalid: string, failed: string) returns (r: Outcome)
    ensures r == Applied(cutlist.items, run, invalid, failed)
  {
    var valid := cutlist.Validate();
    if valid.Err? {
      return Failure(Any(invalid));
    }
    var cut := CutWithMkvmerge(cutlist, run);
    if cut.Err? {
      return Failure(Any(failed));
    }
    return Success;
  }

  /** The provider's whole answer for an id that it does not know. */
  const CUTLIST_AT_ERROR_ID_NOT_FOUND := "Not found."

  /** `TryFrom<u64> for CutList`: the provider's answer for the id
      (`download`: the request and its text, with their own errors), unless
      it is the "not found" answer, read as INI data (`parseIni`), then the
      cuts of that data. */
  function CutlistFromId(id: nat, env: Env): (r: Result<Items>)
    ensures env.download(id).Err? ==> r == Err(env.download(id).error)
    ensures env.download(id) == Ok(CUTLIST_AT_ERROR_ID_NOT_FOUND) ==>
      r == Err("Cut list with ID=" + NatToString(id) + " does not exist at provider")
    ensures env.download(id).Ok? && env.download(id).value != CUTLIST_AT_ERROR_ID_NOT_FOUND
            && env.parseIni(env.download(id).value).None? ==>
      r == Err("Could not parse response for cutlist " + NatToString(id) + " as INI")
    ensures r.Ok? <==>
      env.download(id).Ok? && env.download(id).value != CUTLIST_AT_ERROR_ID_NOT_FOUND
      && env.parseIni(env.download(id).value).Some? && CutlistFromIni(env.parseIni(env.download(id).value).value).Ok?
    ensures r.Ok? ==> r == CutlistFromIni(env.parseIni(env.download(id).value).value)
  {
    match env.download(id)
    case Err(e) => Err(e)
    case Ok(response) =>
      if response == CUTLIST_AT_ERROR_ID_NOT_FOUND then
        Err("Cut list with ID=" + NatToString(id) + " does not exist at provider")
      else
        match env.parseIni(response)
        case None => Err("Could not parse response for cutlist " + NatToString(id) + " as INI")
        case Some(ini) => CutlistFromIni(ini)
  }

  /** `cut_with_intervals`. */
  function CutWithIntervals(s: string, env: Env): (r: Outcome)
    requires IntervalsReadable(s)
    ensures r == Success <==>
      IntervalsItems(s).Ok? && StartsBeforeEnds(IntervalsItems(s).value.1)
      && Cuttable(map[IntervalsItems(s).value.0 := IntervalsItems(s).value.1], env.run)
    ensures r.Failure? ==> r.error.Any?
  {
    match CutlistFromStr(s)
    case Err(e) => Failure(Any(e))
    case Ok(items) =>
      var (k, cuts) := IntervalsItems(s).value;
      var invalid, failed := s + " let to an invalid cut list", "Could not cut video with " + s;
      SingleKindApplied(k, cuts, items, env.run, invalid, failed);
      Applied(items, env.run, invalid, failed)
  }

  /** The cuts of a cut list of one kind are applied when they are valid
      and the cut succeeds. */
  lemma SingleKindApplied(k: Kind, cuts: seq<Item>, items: Items, run: string -> Result<()>, invalid: string, failed: string)
    requires items.Keys == {k} && items[k] == cuts
    ensures Applied(items, run, invalid, failed) == Success <==> StartsBeforeEnds(cuts) && Cuttable(map[k := cuts], run)
    ensures Applied(items, run, invalid, failed).Failure? ==> Applied(items, run, invalid, failed).error.Any?
  {
    assert items == map[k := cuts];
  }

  /** `CutList::try_from(&Path)`: the INI data of the file, then the cuts. */
  function CutlistFromFile(path: string, env: Env): Result<Items> {
    match env.loadFile(path)
    case Err(e) => Err(e)
    case Ok(ini) => CutlistFromIni(ini)
  }

  /** `cut_with_cutlist_from_file`. */
  function CutFromFile(path: string, env: Env): (r: Outcome)
    ensures r == Success <==>
      CutlistFromFile(path, env).Ok? && ValidateItems(CutlistFromFile(path, env).value, false).Ok?
      && Cuttable(CutlistFromFile(path, env).value, env.run)
    ensures r.Failure? ==> r.error.Any?
    ensures CutlistFromFile(path, env).Err? ==> r == Failure(Any(CutlistFromFile(path, env).error))
  {
    match CutlistFromFile(path, env)
    case Err(e) => Failure(Any(e))
    case Ok(items) =>
      Applied(items, env.run, "Cut list retrieved from '" + path + "' is invalid",
        "Could not cut video with cut list from '" + path + "'")
  }

  function NotValid(id: nat): string {
    "Cut list " + NatToString(id) + " is not valid"
  }

  /** `cut_with_cutlist_from_provider_by_id`. */
  function CutById(id: nat, env: Env): (r: Outcome)
    ensures r == Success <==>
      CutlistFromId(id, env).Ok? && ValidateItems(CutlistFromId(id, env).value, false).Ok? && Cuttable(CutlistFromId(id, env).value, env.run)
    ensures CutlistFromId(id, env).Err? ==> r == Failure(Any("Could not retrieve cut list ID=" + NatToString(id)))
    ensures r.Failure? ==> r.error.Any?
  {
    match CutlistFromId(id, env)
    case Err(_) => Failure(Any("Could not retrieve cut list ID=" + NatToString(id)))
    case Ok(items) => Applied(items, env.run, NotValid(id), "Could not cut video with cut list " + NatToString(id))
  }

  // ---------------------------------------------------------------------
  // Automatic selection

  /** The loop stops at a header whose cut list is retrieved and is
      either invalid (the `?` of `validate`) or cuts the video. */
  predicate Stops(env: Env, h: ProviderHeader) {
    var c := CutlistFromId(h.id, env);
    c.Ok? && (ValidateItems(c.value, false).Err? || Cuttable(c.value, env.run))
  }

  function Ends(env: Env): ProviderHeader -> bool {
    (h: ProviderHeader) => Stops(env, h)
  }

  /** The header's cut list is retrieved, valid, and cuts the video. */
  predicate Usable(env: Env, h: ProviderHeader) {
    var c := CutlistFromId(h.id, env);
    c.Ok? && ValidateItems(c.value, false).Ok? && Cuttable(c.value, env.run)
  }

  /** `cut_with_cutlist_from_provider_auto_select`: no header list gives
      `NoCutlist`; otherwise the headers are tried in order, a cut list
      that cannot be retrieved or does not cut is passed over, the first
      that cuts ends with success, and the first invalid one ends the
      search with its error although later headers might cut. */
  function AutoSelected(env: Env): (r: Outcome)
    ensures env.headers.Err? <==> r == Failure(NoCutlist)
    ensures env.headers.Ok? && r != Success ==> r.Failure? && r.error.Any?
  {
    match env.headers
    case Err(_) => Failure(NoCutlist)
    case Ok(hs) =>
      match FirstSatisfying(hs, Ends(env))
      case None => Failure(Any(NONE_APPLIED))
      case Some(i) =>
        if ValidateItems(CutlistFromId(hs[i].id, env).value, false).Err? then Failure(Any(NotValid(hs[i].id)))
        else Success
  }

  /** Success exactly when some header is usable and no header before it
      stops the loop; no header that stops it gives `Any(NONE_APPLIED)`. */
  lemma AutoSelectedMeaning(env: Env)
    requires env.headers.Ok?
    ensures var hs := env.headers.value;
      AutoSelected(env) == Success <==>
        exists i :: 0 <= i < |hs| && Usable(env, hs[i]) && forall j :: 0 <= j < i ==> !Ends(env)(hs[j])
    ensures var hs := env.headers.value;
      (forall i :: 0 <= i < |hs| ==> !Ends(env)(hs[i])) ==> AutoSelected(env) == Failure(Any(NONE_APPLIED))
  {
    var hs := env.headers.value;
    var usable := (h: ProviderHeader) => Usable(env, h);
    FirstSatisfyingStronger(hs, Ends(env), usable);
    var f := FirstSatisfying(hs, Ends(env));
    if f.Some? {
      assert Stops(env, hs[f.value]);
    }
  }

  /** An invalid cut list reached before any cut ends the search with its
      error, whatever the later headers would do. */
  lemma InvalidAborts(env: Env, i: nat)
    requires env.headers.Ok? && i < |env.headers.value|
    requires var c := CutlistFromId(env.headers.value[i].id, env); c.Ok? && ValidateItems(c.value, false).Err?
    requires forall j :: 0 <= j < i ==> !Ends(env)(env.headers.value[j])
    ensures AutoSelected(env) == Failure(Any(NotValid(env.headers.value[i].id)))
  {
    assert Ends(env)(env.headers.value[i]);
    FirstSatisfyingAt(env.headers.value, Ends(env), i);
  }

  /** One round of the loop: retrieve, `validate()?`, cut. */
  method TryHeader(h: ProviderHeader, env: Env) returns (stop: bool, r: Outcome)
    ensures stop == Ends(env)(h)
    ensures stop ==> r == if Usable(env, h) then Success else Failure(Any(NotValid(h.id)))
  {
    r := Success;
    var fetched := CutlistFromId(h.id, env);
    if fetched.Err? {
      return false, r;
    }
    var cutlist := new CutList();
    cutlist.items := fetched.value;
    var valid := cutlist.Validate();
    if valid.Err? {
      return true, Failure(Any(NotValid(h.id)));
    }
    var cut := CutWithMkvmerge(cutlist, env.run);
    stop := cut.Ok?;
  }

  /** The loop with its flag `is_cut`. */
  method AutoSelect(env: Env) returns (r: Outcome)
    ensures r == AutoSelected(env)
  {
    if env.headers.Err? {
      return Failure(NoCutlist);
    }
    var hs := env.headers.value;
    var isCut := false;
    var i := 0;
    while i < |hs|
      invariant 0 <= i <= |hs|
      invariant forall j :: 0 <= j < i ==> !Ends(env)(hs[j])
      invariant !isCut
    {
      var stop, res := TryHeader(hs[i], env);
      if stop {
        FirstSatisfyingAt(hs, Ends(env), i);
        if res.Failure? {
          return res;
        }
        isCut := true;
        break;
      }
      NoneUpTo(hs, Ends(env), i);
      i := i + 1;
    }
    if !isCut {
      return Failure(Any(NONE_APPLIED));
    }
    return Success;
  }

  // ---------------------------------------------------------------------
  // Dispatch

  /** The cut list of a direct access type, before validation. */
  function ReadCutlist(access: AccessType, env: Env): Result<Items>
    requires !access.Auto?
    requires access.Direct? ==> IntervalsReadable(access.intervals)
  {
    match access
    case Direct(s) => CutlistFromStr(s)
    case File(p) => CutlistFromFile(p, env)
    case Id(id) => CutlistFromId(id, env)
  }

  /** `cut`: the access type chooses the path; the minimum rating only
      reaches the header request, which is part of `env.headers`. */
  function Cut(access: AccessType, env: Env): (r: Outcome)
    requires access.Direct? ==> IntervalsReadable(access.intervals)
    ensures r != Failure(Default)
    ensures r == Failure(NoCutlist) <==> access.Auto? && env.headers.Err?
    ensures !access.Auto? ==>
      (r == Success <==>
        (ReadCutlist(access, env).Ok? && ValidateItems(ReadCutlist(access, env).value, false).Ok?
         && Cuttable(ReadCutlist(access, env).value, env.run)))
  {
    match access
    case Direct(s) => CutWithIntervals(s, env)
    case File(p) => CutFromFile(p, env)
    case Id(id) => CutById(id, env)
    case Auto => AutoSelected(env)
  }

  /** On the direct paths an invalid cut list fails with `Any` and
      mkvmerge is never run: the outcome is the same whatever mkvmerge
      would do. */
  lemma InvalidNeverRuns(access: AccessType, env: Env, run: string -> Result<()>)
    requires !access.Auto?
    requires access.Direct? ==> IntervalsReadable(access.intervals)
    requires ReadCutlist(access, env).Ok? && ValidateItems(ReadCutlist(access, env).value, false).Err?
    ensures Cut(access, env).Failure? && Cut(access, env).error.Any?
    ensures Cut(access, env) == Cut(access, env.(run := run))
  {
    var env' := env.(run := run);
    assert ReadCutlist(access, env') == ReadCutlist(access, env);
  }
}
