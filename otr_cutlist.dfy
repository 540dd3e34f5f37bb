/** The cut list of otr-utils (`otr-utils/src/cutting/cutlist.rs`): an
    optional cutlist.at id and the items of one or both kinds, read from an
    INI structure or from an intervals string, validated, and written back
    to an INI structure for submission. */
module OtrCutlist {
  import opened Wrappers
  import opened Text
  import opened Numbers
  import opened CutlistCore
  import opened CutlistText

  // ---------------------------------------------------------------------
  // Reading an INI structure

  /** `display_option!`: the id, or "unknown". */
  function IdText(id: Option<nat>): string {
    match id
    case Some(n) => NatToString(n)
    case None => "unknown"
  }

  /** The id of `[Meta]/CutlistId`: the section is required, a missing
      attribute only leaves the id unknown, and a present one must be a
      `u64`. */
  function IniId(ini: Ini): (r: Result<Option<nat>>)
    ensures r.Err? <==>
      META_SECTION !in ini || (CUTLIST_ID in ini[META_SECTION] && ParseU64(ini[META_SECTION][CUTLIST_ID]).None?)
    ensures r.Ok? ==> (r.value.Some? <==> CUTLIST_ID in ini[META_SECTION])
    ensures r.Ok? && r.value.Some? ==> Some(r.value.value) == ParseU64(ini[META_SECTION][CUTLIST_ID])
  {
    if META_SECTION !in ini then Err("Could not find section \"Meta\" in cut list")
    else if CUTLIST_ID !in ini[META_SECTION] then Ok(None)
    else
      match ParseU64(ini[META_SECTION][CUTLIST_ID])
      case None => Err("Cut list ID does not have the correct format (must be a number)")
      case Some(n) => Ok(Some(n))
  }

  /** `[General]/NoOfCuts`, with the id in the error messages. */
  function CutCount(ini: Ini, id: Option<nat>): (r: Result<int>)
    ensures r.Ok? <==> NumCuts(ini).Ok?
    ensures r.Ok? ==> r == NumCuts(ini)
  {
    if GENERAL_SECTION !in ini then Err("Could not find section \"General\" in cutlist ID=" + IdText(id))
    else if NUM_OF_CUTS !in ini[GENERAL_SECTION] then Err("Could not find attribute \"NoOfCuts\" in cutlist ID=" + IdText(id))
    else
      match ParseI32(ini[GENERAL_SECTION][NUM_OF_CUTS])
      case None => Err("Could not parse attribute \"NoOfCuts\" in cutlist ID=" + IdText(id))
      case Some(n) => Ok(n)
  }

  /** `TryFrom<&Ini> for Cutlist`: the id, the number of cuts, the cuts
      themselves, then validation with the count check. */
  function CutlistFromIni(ini: Ini): (r: Result<(Option<nat>, Items)>)
  {
    match IniId(ini)
    case Err(e) => Err(e)
    case Ok(id) =>
      match CutCount(ini, id)
      case Err(e) => Err(e)
      case Ok(n) =>
        match ReadCuts(ini, Rounds(n))
        case Err(_) => Err("Could not read cuts of cut list ID=" + IdText(id))
        case Ok(items) =>
          if ValidateItems(items, true).Err? then Err("INI data does not represent a valid cut list")
          else Ok((id, items))
  }

  /** A cut list is read from an INI structure exactly when `[Meta]` and
      `NoOfCuts` are readable, at least one cut is announced, no later cut
      lacks a kind that cut 0 supports, and the items read are valid.  The
      kinds are those of cut 0, each with its cuts of positive duration in
      order. */
  lemma CutlistFromIniMeaning(ini: Ini)
    ensures CutlistFromIni(ini).Ok? <==>
      IniId(ini).Ok? && NumCuts(ini).Ok? && NumCuts(ini).value >= 1
      && ReadCuts(ini, NumCuts(ini).value).Ok?
      && ValidateItems(ReadCuts(ini, NumCuts(ini).value).value, true).Ok?
    ensures IniId(ini).Ok? && NumCuts(ini).Ok? && NumCuts(ini).value >= 1 ==>
      (ReadCuts(ini, NumCuts(ini).value).Err? <==> MissingCut(ini, NumCuts(ini).value))
    ensures IniId(ini).Ok? && NumCuts(ini).Ok? && NumCuts(ini).value <= 0 ==>
      CutlistFromIni(ini) == Err("INI data does not represent a valid cut list")
    ensures CutlistFromIni(ini).Ok? ==>
      var n, items := NumCuts(ini).value, CutlistFromIni(ini).value.1;
      && CutlistFromIni(ini).value.0 == IniId(ini).value
      && items.Keys == FirstKinds(ini)
      && forall k :: k in items ==> items[k] == PositiveItems(ini, k, n)
  {
    if IniId(ini).Ok? && NumCuts(ini).Ok? {
      var n := NumCuts(ini).value;
      if n >= 1 {
        ReadCutsMeaning(ini, n);
      } else {
        assert ReadCuts(ini, Rounds(n)) == Ok(map[]);
      }
    }
  }

  /** The provider's whole answer for an id that it does not know. */
  const CUTLIST_AT_ERROR_ID_NOT_FOUND := "Not found."

  /** `TryFrom<ID> for Cutlist`: the provider's answer for the id
      (`download`: the request and its text, with their own errors), unless
      it is the "not found" answer, read as INI data (`parseIni`), then the
      cut list of that data. */
  function CutlistFromId(id: nat, download: nat -> Result<string>, parseIni: string -> Option<Ini>): (r: Result<(Option<nat>, Items)>)
    ensures download(id).Err? ==> r == Err(download(id).error)
    ensures download(id) == Ok(CUTLIST_AT_ERROR_ID_NOT_FOUND) ==>
      r == Err("Cut list with ID=" + NatToString(id) + " does not exist at provider")
    ensures download(id).Ok? && download(id).value != CUTLIST_AT_ERROR_ID_NOT_FOUND && parseIni(download(id).value).None? ==>
      r == Err("Could not parse response for cut list " + NatToString(id) + " as INI")
    ensures r.Ok? <==>
      download(id).Ok? && download(id).value != CUTLIST_AT_ERROR_ID_NOT_FOUND
      && parseIni(download(id).value).Some? && CutlistFromIni(parseIni(download(id).value).value).Ok?
    ensures r.Ok? ==> r == CutlistFromIni(parseIni(download(id).value).value)
  {
    match download(id)
    case Err(e) => Err(e)
    case Ok(response) =>
      if response == CUTLIST_AT_ERROR_ID_NOT_FOUND then
        Err("Cut list with ID=" + NatToString(id) + " does not exist at provider")
      else
        match parseIni(response)
        case None => Err("Could not parse response for cut list " + NatToString(id) + " as INI")
        case Some(ini) => CutlistFromIni(ini)
  }

  // ---------------------------------------------------------------------
  // Reading an intervals string

  function NotValidCutlist(s: string): string {
    s + " does not represent a valid cut list"
  }

  /** The cut list of one kind that `try_from_intervals` validates: it is
      valid exactly when no item starts after its end. */
  function SingleKind(k: Kind, items: seq<Item>): (r: Option<Items>)
    ensures r.Some? <==> StartsBeforeEnds(items)
    ensures r.Some? ==> r.value == map[k := items]
  {
    var m := map[k := items];
    assert k in m && m.Keys == {k};
    if ValidateItems(m, true).Err? then None else Some(m)
  }

  /** `try_from_intervals`: one kind, the intervals in textual order, then
      validation. */
  function CutlistFromIntervals(s: string): (r: Result<Items>)
    requires IntervalsReadable(s)
    ensures r.Ok? <==> IntervalsItems(s).Ok? && StartsBeforeEnds(IntervalsItems(s).value.1)
    ensures r.Ok? ==> r.value == map[IntervalsItems(s).value.0 := IntervalsItems(s).value.1]
  {
    var read := IntervalsItems(s);
    if read.Err? then Err(read.error)
    else
      match SingleKind(read.value.0, read.value.1)
      case None => Err(NotValidCutlist(s))
      case Some(m) => Ok(m)
  }

  /** Items of one kind, none starting after its end, written as an
      intervals string are read back as a cut list of exactly these items. */
  lemma IntervalsCutlistRoundTrip(k: Kind, items: seq<Item>)
    requires |items| >= 1 && StartsBeforeEnds(items)
    requires k == Time ==> forall i :: 0 <= i < |items| ==> 0 <= items[i].start <= U64_MAX && 0 <= items[i].end <= U64_MAX
    ensures IntervalsReadable(IntervalsText(k, items))
    ensures CutlistFromIntervals(IntervalsText(k, items)) == Ok(map[k := items])
  {
    IntervalsTextRoundTrip(k, items);
  }

  // ---------------------------------------------------------------------
  // Length and the INI structure written

  /** `len`: the number of frame intervals if there are any, else the
      number of time intervals, else 0. */
  function ItemsLen(items: Items): (n: nat)
  {
    if Frames in items then |items[Frames]|
    else if Time in items then |items[Time]|
    else 0
  }

  /** In a valid cut list every kind has `len` items. */
  lemma ValidLen(items: Items)
    requires ValidateItems(items, true).Ok?
    ensures forall k :: k in items ==> |items[k]| == ItemsLen(items)
    ensures ItemsLen(items) == 0 <==> forall k :: k in items ==> items[k] == []
  {
    forall k | k in items
      ensures |items[k]| == ItemsLen(items)
    {
      match k
      case Frames =>
      case Time =>
    }
  }

  const APPLICATION := "Application"
  const VERSION := "Version"
  const INTENDED_CUT_APP := "IntendedCutApplicationName"
  const APPLY_TO_FILE := "ApplyToFile"
  const ORIG_FILE_SIZE := "OriginalFileSizeBytes"
  const RATING_BY_AUTHOR := "RatingByAuthor"

  /** `with_section(Some(section)).set(key, value)`: the section is created
      when it is missing, and the attribute set or replaced. */
  function SetAttr(ini: Ini, section: string, key: string, value: string): Ini {
    var attrs := if section in ini then ini[section] else map[];
    ini[section := attrs[key := value]]
  }

  /** Setting an attribute adds its section if needed and changes only that
      attribute of that section. */
  lemma SetAttrMeaning(ini: Ini, section: string, key: string, value: string)
    ensures var r := SetAttr(ini, section, key, value);
      && r.Keys == ini.Keys + {section}
      && (forall s :: s in ini && s != section ==> r[s] == ini[s])
      && r[section].Keys == (if section in ini then ini[section].Keys else {}) + {key}
      && r[section][key] == value
      && forall a :: section in ini && a in ini[section] && a != key ==> r[section][a] == ini[section][a]
  {
  }

  /** The attributes of section `[General]` for a cut list of `n` cuts. */
  function GeneralOf(app: string, version: string, n: nat, fileName: string, fileSize: nat): map<string, string> {
    map[APPLICATION := app, VERSION := version, INTENDED_CUT_APP := "mkvmerge", NUM_OF_CUTS := NatToString(n),
        APPLY_TO_FILE := fileName, ORIG_FILE_SIZE := NatToString(fileSize)]
  }

  /** The length of a cut, written as its duration. */
  function Duration(item: Item): int {
    item.end - item.start
  }

  /** Every kind has at least `n` items. */
  predicate Indexable(items: Items, n: nat) {
    forall k :: k in items ==> |items[k]| >= n
  }

  /** The two attributes `to_ini` writes for one kind of one cut: the start
      and the duration, each printed with `{}`. */
  function KindAttrs(k: Kind, item: Item): map<string, string> {
    map[StartAttr(k) := FormatMicros(item.start), DurationAttr(k) := FormatMicros(Duration(item))]
  }

  /** The attributes of section "CutI" once the kinds in `kinds` are
      written. */
  function CutAttrs(items: Items, i: nat, kinds: set<Kind>): map<string, string>
    requires forall k :: k in kinds ==> k in items && i < |items[k]|
  {
    (if Frames in kinds then KindAttrs(Frames, items[Frames][i]) else map[])
    + (if Time in kinds then KindAttrs(Time, items[Time][i]) else map[])
  }

  /** The sections "Cut0" to "Cut(n-1)". */
  function CutMaps(items: Items, n: nat): Ini
    requires Indexable(items, n)
  {
    if n == 0 then map[]
    else CutMaps(items, n - 1)[CutSection(n - 1) := CutAttrs(items, n - 1, items.Keys)]
  }

  /** The INI structure `to_ini` writes: `[General]`, the cut sections and
      `[Info]` with the author's rating. */
  function WrittenIni(items: Items, n: nat, general: map<string, string>, rating: nat): Ini
    requires Indexable(items, n)
  {
    (map[GENERAL_SECTION := general] + CutMaps(items, n))[INFO_SECTION := map[RATING_BY_AUTHOR := NatToString(rating)]]
  }

  /** The attribute names of the kinds in `kinds`. */
  function AttrNames(kinds: set<Kind>): set<string> {
    (if Frames in kinds then {StartAttr(Frames), DurationAttr(Frames)} else {})
    + (if Time in kinds then {StartAttr(Time), DurationAttr(Time)} else {})
  }

  /** Section "CutI" holds, for each kind in `kinds`, the start of item `i`
      and its duration, written with `{}`, and nothing else. */
  predicate CutWritten(attrs: map<string, string>, items: Items, i: nat, kinds: set<Kind>)
    requires forall k :: k in kinds ==> k in items && i < |items[k]|
  {
    && attrs.Keys == AttrNames(kinds)
    && (forall k :: k in kinds ==> attrs[StartAttr(k)] == FormatMicros(items[k][i].start))
    && (forall k :: k in kinds ==> attrs[DurationAttr(k)] == FormatMicros(Duration(items[k][i])))
  }

  /** The cut sections "Cut0" to "Cut(n-1)" are written. */
  predicate CutsWritten(ini: Ini, items: Items, n: nat)
    requires Indexable(items, n)
  {
    forall i :: 0 <= i < n ==> CutSection(i) in ini && CutWritten(ini[CutSection(i)], items, i, items.Keys)
  }

  lemma CutSectionProps(i: nat)
    ensures CutSection(i) != GENERAL_SECTION && CutSection(i) != INFO_SECTION && CutSection(i) != META_SECTION
    ensures forall j: nat :: CutSection(j) == CutSection(i) ==> j == i
  {
    assert CutSection(i)[0] == 'C';
    forall j: nat | CutSection(j) == CutSection(i)
      ensures j == i
    {
      assert CutSection(j)[3..] == NatToString(j);
      assert CutSection(i)[3..] == NatToString(i);
    }
  }

  /** Writing one more kind adds its two attributes. */
  lemma CutAttrsAdd(items: Items, i: nat, done: set<Kind>, k: Kind)
    requires k !in done && forall j :: j in done + {k} ==> j in items && i < |items[j]|
    ensures CutAttrs(items, i, done + {k})
      == CutAttrs(items, i, done)[StartAttr(k) := FormatMicros(items[k][i].start)][DurationAttr(k) := FormatMicros(Duration(items[k][i]))]
  {
    if k == Frames {
      CutAttrsAddFrames(items, i, done);
    } else {
      CutAttrsAddTime(items, i, done);
    }
  }

  lemma CutAttrsAddFrames(items: Items, i: nat, done: set<Kind>)
    requires Frames !in done && forall j :: j in done + {Frames} ==> j in items && i < |items[j]|
    ensures var item := items[Frames][i];
      CutAttrs(items, i, done + {Frames})
      == CutAttrs(items, i, done)[StartAttr(Frames) := FormatMicros(item.start)][DurationAttr(Frames) := FormatMicros(Duration(item))]
  {
    AttributesDiffer();
    var item := items[Frames][i];
    if Time in done {
      var t := KindAttrs(Time, items[Time][i]);
      assert CutAttrs(items, i, done) == t;
      PrependAttrs(t, StartAttr(Frames), DurationAttr(Frames), FormatMicros(item.start), FormatMicros(Duration(item)));
    } else {
      assert CutAttrs(items, i, done) == map[];
    }
  }

  lemma CutAttrsAddTime(items: Items, i: nat, done: set<Kind>)
    requires Time !in done && forall j :: j in done + {Time} ==> j in items && i < |items[j]|
    ensures var item := items[Time][i];
      CutAttrs(items, i, done + {Time})
      == CutAttrs(items, i, done)[StartAttr(Time) := FormatMicros(item.start)][DurationAttr(Time) := FormatMicros(Duration(item))]
  {
    var item := items[Time][i];
    var f := if Frames in done then KindAttrs(Frames, items[Frames][i]) else map[];
    assert CutAttrs(items, i, done + {Time}) == f + KindAttrs(Time, item);
    assert CutAttrs(items, i, done) == f;
    AttributesDiffer();
    AppendAttrs(f, StartAttr(Time), DurationAttr(Time), FormatMicros(item.start), FormatMicros(Duration(item)));
  }

  lemma AppendAttrs(m: map<string, string>, a: string, b: string, va: string, vb: string)
    requires a != b
    ensures m + map[a := va, b := vb] == m[a := va][b := vb]
  {
  }

  lemma PrependAttrs(m: map<string, string>, a: string, b: string, va: string, vb: string)
    requires a != b && a !in m && b !in m
    ensures map[a := va, b := vb] + m == m[a := va][b := vb]
  {
  }

  /** The attributes of a cut are exactly those of its kinds. */
  lemma CutAttrsWritten(items: Items, i: nat, kinds: set<Kind>)
    requires forall k :: k in kinds ==> k in items && i < |items[k]|
    ensures CutWritten(CutAttrs(items, i, kinds), items, i, kinds)
  {
    var attrs := CutAttrs(items, i, kinds);
    assert attrs.Keys == AttrNames(kinds);
    forall k | k in kinds
      ensures attrs[StartAttr(k)] == FormatMicros(items[k][i].start)
      ensures attrs[DurationAttr(k)] == FormatMicros(Duration(items[k][i]))
    {
      CutAttrsAt(items, i, kinds, k);
    }
  }

  /** The attributes of one kind in a cut section. */
  lemma CutAttrsAt(items: Items, i: nat, kinds: set<Kind>, k: Kind)
    requires k in kinds && forall j :: j in kinds ==> j in items && i < |items[j]|
    ensures StartAttr(k) in CutAttrs(items, i, kinds) && DurationAttr(k) in CutAttrs(items, i, kinds)
    ensures CutAttrs(items, i, kinds)[StartAttr(k)] == FormatMicros(items[k][i].start)
    ensures CutAttrs(items, i, kinds)[DurationAttr(k)] == FormatMicros(Duration(items[k][i]))
  {
    if k == Frames {
      AttributesDiffer();
      var t := if Time in kinds then KindAttrs(Time, items[Time][i]) else map[];
      assert StartAttr(Frames) !in t && DurationAttr(Frames) !in t;
    }
  }

  /** Section "CutJ" is among the first `n` exactly when `j < n`, and it
      holds the attributes of cut `j`. */
  lemma {:induction false} CutMapsAt(items: Items, n: nat, j: nat)
    requires Indexable(items, n)
    ensures CutSection(j) in CutMaps(items, n) <==> j < n
    ensures j < n ==> CutMaps(items, n)[CutSection(j)] == CutAttrs(items, j, items.Keys)
  {
    if n > 0 {
      CutMapsAt(items, n - 1, j);
      if j != n - 1 {
        CutSectionsDiffer(j, n - 1);
      }
    }
  }

  lemma CutSectionsDiffer(i: nat, j: nat)
    requires i != j
    ensures CutSection(i) != CutSection(j)
  {
    CutSectionProps(i);
  }

  /** A name that does not start with 'C' is no cut section. */
  lemma {:induction false} NotCut(items: Items, n: nat, s: string)
    requires Indexable(items, n) && (|s| == 0 || s[0] != 'C')
    ensures s !in CutMaps(items, n)
  {
    if n > 0 {
      NotCut(items, n - 1, s);
      assert CutSection(n - 1)[0] == 'C';
    }
  }

  /** Only cut sections are among the cut maps. */
  lemma {:induction false} CutMapsOnly(items: Items, n: nat, s: string)
    requires Indexable(items, n) && s in CutMaps(items, n)
    ensures exists j :: 0 <= j < n && s == CutSection(j)
  {
    if s != CutSection(n - 1) {
      CutMapsOnly(items, n - 1, s);
      var j :| 0 <= j < n - 1 && s == CutSection(j);
      assert 0 <= j < n;
    }
  }

  /** What `to_ini` writes: `[General]` as given, `[Info]` with the rating,
      each cut section with the attributes of its cut, no `[Meta]`, and no
      other section. */
  lemma WrittenIniSections(items: Items, n: nat, general: map<string, string>, rating: nat)
    requires Indexable(items, n)
    ensures var ini := WrittenIni(items, n, general, rating);
      && GENERAL_SECTION in ini && ini[GENERAL_SECTION] == general
      && INFO_SECTION in ini && ini[INFO_SECTION] == map[RATING_BY_AUTHOR := NatToString(rating)]
      && META_SECTION !in ini
      && CutsWritten(ini, items, n)
      && forall s :: s in ini ==> s == GENERAL_SECTION || s == INFO_SECTION || exists j :: 0 <= j < n && s == CutSection(j)
  {
    var ini := WrittenIni(items, n, general, rating);
    assert GENERAL_SECTION != INFO_SECTION && META_SECTION != INFO_SECTION && META_SECTION != GENERAL_SECTION by {
      assert GENERAL_SECTION[0] == 'G' && INFO_SECTION[0] == 'I' && META_SECTION[0] == 'M';
    }
    NotCut(items, n, GENERAL_SECTION);
    NotCut(items, n, INFO_SECTION);
    NotCut(items, n, META_SECTION);
    forall i | 0 <= i < n
      ensures CutSection(i) in ini && CutWritten(ini[CutSection(i)], items, i, items.Keys)
    {
      CutMapsAt(items, n, i);
      CutSectionProps(i);
      CutAttrsWritten(items, i, items.Keys);
    }
    forall s | s in ini
      ensures s == GENERAL_SECTION || s == INFO_SECTION || exists j :: 0 <= j < n && s == CutSection(j)
    {
      if s != GENERAL_SECTION && s != INFO_SECTION {
        CutMapsOnly(items, n, s);
      }
    }
  }

  // ---------------------------------------------------------------------
  // The cut list

  class Cutlist {
    var id: Option<nat>
    var items: Items

    /** `Cutlist::default()`. */
    constructor ()
      ensures id == None && items == map[]
    {
      id := None;
      items := map[];
    }

    /** `is_of_kind`. */
    predicate IsOfKind(k: Kind)
      reads this
    {
      k in items
    }

    /** `items(kind)`: the items of a kind, or an error naming it. */
    function ItemsOf(k: Kind): (r: Result<seq<Item>>)
      reads this
      ensures r.Ok? <==> IsOfKind(k)
      ensures r.Ok? ==> r.value == items[k]
    {
      if k in items then Ok(items[k])
      else Err("Cut list is not of kind \"" + KindName(k) + "\"")
    }

    /** `len`. */
    function Len(): (n: nat)
      reads this
      ensures n == ItemsLen(items)
    {
      if IsOfKind(Frames) then |items[Frames]|
      else if IsOfKind(Time) then |items[Time]|
      else 0
    }

    /** One kind at cut 0: it is taken up if its item reads with positive
        duration. */
    method AddFirstKind(ini: Ini, k: Kind)
      modifies this
      ensures id == old(id) && items == AddFirst(old(items), ini, k)
    {
      var item := ItemFromIni(ini, 0, k);
      if item.Ok? && item.value.Some? {
        AddFirstFound(items, ini, k, item.value.value);
        items := items[k := [item.value.value]];
      } else {
        AddFirstSkipped(items, ini, k);
      }
    }

    /** One supported kind at a later cut: its item must read, and is
        appended when its duration is positive. */
    method ExtendKindAt(ini: Ini, n: nat, k: Kind) returns (r: Result<()>)
      modifies this
      ensures id == old(id)
      ensures r.Ok? <==> ExtendKind(old(items), ini, n, k).Ok?
      ensures r.Ok? ==> items == ExtendKind(old(items), ini, n, k).value
      ensures r.Err? ==> r.error == ExtendKind(old(items), ini, n, k).error && items == old(items)
    {
      if !IsOfKind(k) {
        ExtendKindSkipped(items, ini, n, k);
        return Ok(());
      }
      var item := ItemFromIni(ini, n, k);
      if item.Err? {
        ExtendKindFails(items, ini, n, k);
        return Err(LacksKind(n, k));
      }
      if item.value.Some? {
        ExtendKindFound(items, ini, n, k, item.value.value);
        items := items[k := items[k] + [item.value.value]];
      } else {
        ExtendKindSkipped(items, ini, n, k);
      }
      return Ok(());
    }

    /** `extend_from_ini_cut`: frame numbers first, then times. */
    method ExtendFromIniCut(ini: Ini, n: nat) returns (r: Result<()>)
      modifies this
      ensures id == old(id)
      ensures r.Ok? <==> ExtendItems(old(items), ini, n).Ok?
      ensures r.Ok? ==> items == ExtendItems(old(items), ini, n).value
    {
      if n == 0 {
        AddFirstKind(ini, Frames);
        AddFirstKind(ini, Time);
        return Ok(());
      }
      r := ExtendKindAt(ini, n, Frames);
      if r.Err? {
        return;
      }
      r := ExtendKindAt(ini, n, Time);
    }

    /** `validate`. */
    method Validate() returns (r: Result<()>)
      ensures r == ValidateItems(items, true)
    {
      if items == map[] {
        return Err("Cut list does not contain intervals");
      }
      if IsOfKind(Frames) && IsOfKind(Time) && |items[Frames]| != |items[Time]| {
        return Err("Cut list has time and frames intervals, but the number of cuts differ");
      }
      assert ValidateItems(items, true) == ValidateItems(items, false);
      r := ValidateKinds(items);
    }

    /** `TryFrom<&Ini> for Cutlist`. */
    static method TryFromIni(ini: Ini) returns (r: Result<Cutlist>)
      ensures r.Ok? <==> CutlistFromIni(ini).Ok?
      ensures r.Ok? ==> fresh(r.value) && (r.value.id, r.value.items) == CutlistFromIni(ini).value
      ensures r.Err? ==> r.error == CutlistFromIni(ini).error
    {
      var id := IniId(ini);
      if id.Err? {
        return Err(id.error);
      }
      var cutlist := new Cutlist();
      cutlist.id := id.value;
      var numCuts := CutCount(ini, cutlist.id);
      if numCuts.Err? {
        return Err(numCuts.error);
      }
      for i := 0 to Rounds(numCuts.value)
        invariant cutlist.id == id.value
        invariant ReadCuts(ini, i) == Ok(cutlist.items)
      {
        var extended := cutlist.ExtendFromIniCut(ini, i);
        if extended.Err? {
          ReadCutsErrSticky(ini, i + 1, Rounds(numCuts.value));
          return Err("Could not read cuts of cut list ID=" + IdText(cutlist.id));
        }
      }
      var valid := cutlist.Validate();
      if valid.Err? {
        return Err("INI data does not represent a valid cut list");
      }
      return Ok(cutlist);
    }

    /** `try_from_intervals`. */
    static method TryFromIntervals(s: string) returns (r: Result<Cutlist>)
      requires IntervalsReadable(s)
      ensures r.Ok? <==> CutlistFromIntervals(s).Ok?
      ensures r.Ok? ==> fresh(r.value) && r.value.id == None && r.value.items == CutlistFromIntervals(s).value
      ensures r.Err? ==> r.error == CutlistFromIntervals(s).error
    {
      var read := ReadIntervalsString(s);
      if read.Err? {
        return Err(read.error);
      }
      var cutlist := new Cutlist();
      cutlist.items := map[read.value.0 := read.value.1];
      var valid := cutlist.Validate();
      if valid.Err? {
        return Err(NotValidCutlist(s));
      }
      return Ok(cutlist);
    }


    /** `to_ini`: the file size comes from the file system and may be
        unavailable; application name and version are the package's. */
    method ToIni(fileName: string, fileSize: Result<nat>, app: string, version: string, rating: nat) returns (r: Result<Ini>)
      requires Indexable(items, Len())
      ensures r.Err? <==> fileSize.Err?
      ensures r.Ok? ==> r.value == WrittenIni(items, Len(), GeneralOf(app, version, Len(), fileName, fileSize.value), rating)
    {
      var numCuts := Len();
      if fileSize.Err? {
        return Err("Cannot create INI structure for cut list");
      }
      var general := GeneralOf(app, version, numCuts, fileName, fileSize.value);
      var ini: Ini := map[GENERAL_SECTION := general];
      for i := 0 to numCuts
        invariant ini == map[GENERAL_SECTION := general] + CutMaps(items, i)
      {
        NextCutSection(map[GENERAL_SECTION := general], items, numCuts, i);
        ini := WriteCut(ini, i);
      }
      InfoApart(items, numCuts);
      ini := SetAttr(ini, INFO_SECTION, RATING_BY_AUTHOR, NatToString(rating));
      return Ok(ini);
    }

    /** The inner loop of `to_ini` over the kinds, in the unspecified order
        of the hash map, for cut `i`. */
    method WriteCut(ini: Ini, i: nat) returns (out: Ini)
      requires i < Len() && Indexable(items, Len()) && CutSection(i) !in ini
      ensures out == ini[CutSection(i) := CutAttrs(items, i, items.Keys)]
    {
      var section := CutSection(i);
      var keys := items.Keys;
      ghost var done: set<Kind> := {};
      out := ini;
      while keys != {}
        invariant keys + done == items.Keys && keys !! done
        invariant out == PartlyWritten(ini, section, items, i, done)
        decreases keys
      {
        var k :| k in keys;
        var item := items[k][i];
        WriteKindStep(ini, section, items, i, done, k);
        out := SetAttr(out, section, StartAttr(k), FormatMicros(item.start));
        out := SetAttr(out, section, DurationAttr(k), FormatMicros(Duration(item)));
        keys := keys - {k};
        done := done + {k};
      }
      assert done != {} by {
        assert Frames in items || Time in items;
      }
    }
  }

  /** The structure while the kinds in `done` of a cut are written. */
  function PartlyWritten(ini: Ini, section: string, items: Items, i: nat, done: set<Kind>): Ini
    requires forall k :: k in done ==> k in items && i < |items[k]|
  {
    if done == {} then ini else ini[section := CutAttrs(items, i, done)]
  }

  /** One round of the loop over the kinds. */
  lemma WriteKindStep(ini: Ini, section: string, items: Items, i: nat, done: set<Kind>, k: Kind)
    requires section !in ini && k !in done && forall j :: j in done + {k} ==> j in items && i < |items[j]|
    ensures var out := PartlyWritten(ini, section, items, i, done);
      SetAttr(SetAttr(out, section, StartAttr(k), FormatMicros(items[k][i].start)), section, DurationAttr(k), FormatMicros(Duration(items[k][i])))
      == PartlyWritten(ini, section, items, i, done + {k})
  {
    CutAttrsAdd(items, i, done, k);
    var s, d := FormatMicros(items[k][i].start), FormatMicros(Duration(items[k][i]));
    if done == {} {
      WriteFirstKind(ini, section, items, i, k, s, d);
    } else {
      WriteNextKind(ini, section, CutAttrs(items, i, done), StartAttr(k), s, DurationAttr(k), d);
    }
  }

  lemma WriteFirstKind(ini: Ini, section: string, items: Items, i: nat, k: Kind, s: string, d: string)
    requires section !in ini && k in items && i < |items[k]|
    requires CutAttrs(items, i, {k}) == map[][StartAttr(k) := s][DurationAttr(k) := d]
    ensures SetAttr(SetAttr(ini, section, StartAttr(k), s), section, DurationAttr(k), d) == ini[section := CutAttrs(items, i, {k})]
  {
    SetTwice(ini, section, map[], StartAttr(k), s, DurationAttr(k), d);
  }

  lemma WriteNextKind(ini: Ini, section: string, base: map<string, string>, k1: string, v1: string, k2: string, v2: string)
    ensures SetAttr(SetAttr(ini[section := base], section, k1, v1), section, k2, v2) == ini[section := base[k1 := v1][k2 := v2]]
  {
    SetTwice(ini[section := base], section, base, k1, v1, k2, v2);
  }

  /** Two attributes set in a section that holds `base`, or in a section
      still missing when `base` is empty. */
  lemma SetTwice(ini: Ini, section: string, base: map<string, string>, k1: string, v1: string, k2: string, v2: string)
    requires section in ini ==> ini[section] == base
    requires section !in ini ==> base == map[]
    ensures SetAttr(SetAttr(ini, section, k1, v1), section, k2, v2) == ini[section := base[k1 := v1][k2 := v2]]
  {
  }

  /** Writing cut `i` after the general section and cuts 0..i-1 adds a
      section of its own. */
  lemma NextCutSection(gen: Ini, items: Items, n: nat, i: nat)
    requires Indexable(items, n) && i < n && gen.Keys == {GENERAL_SECTION}
    ensures CutSection(i) !in gen + CutMaps(items, i)
    ensures (gen + CutMaps(items, i))[CutSection(i) := CutAttrs(items, i, items.Keys)] == gen + CutMaps(items, i + 1)
  {
    CutMapsAt(items, i, i);
    CutSectionProps(i);
    UnionUpdate(gen, CutMaps(items, i), CutSection(i), CutAttrs(items, i, items.Keys));
  }

  lemma UnionUpdate<K, V>(m1: map<K, V>, m2: map<K, V>, k: K, v: V)
    ensures (m1 + m2)[k := v] == m1 + m2[k := v]
  {
  }

  /** `[Info]` is none of the sections written before it. */
  lemma InfoApart(items: Items, n: nat)
    requires Indexable(items, n)
    ensures INFO_SECTION != GENERAL_SECTION && INFO_SECTION !in CutMaps(items, n)
  {
    assert INFO_SECTION[0] == 'I' && GENERAL_SECTION[0] == 'G';
    NotCut(items, n, INFO_SECTION);
  }

  // ---------------------------------------------------------------------
  // Reading the INI structure written back

  /** Every item of every kind is a proper interval. */
  predicate ProperItems(items: Items) {
    forall k :: k in items ==> forall i :: 0 <= i < |items[k]| ==> items[k][i].start < items[k][i].end
  }

  /** A cut written for its kinds reads back as its item. */
  lemma ReadWrittenCut(ini: Ini, items: Items, i: nat, k: Kind)
    requires k in items && Indexable(items, i + 1) && items[k][i].start < items[k][i].end
    requires CutSection(i) in ini && CutWritten(ini[CutSection(i)], items, i, items.Keys)
    ensures ItemFromIni(ini, i, k) == Ok(Some(items[k][i]))
  {
    WrittenAttrs(ini[CutSection(i)], items, i, k);
    ItemFromIniOf(ini, i, k, items[k][i]);
  }

  /** The attributes written for a kind read as its start and duration. */
  lemma WrittenAttrs(attrs: map<string, string>, items: Items, i: nat, k: Kind)
    requires k in items && Indexable(items, i + 1)
    requires CutWritten(attrs, items, i, items.Keys)
    ensures StartAttr(k) in attrs && ParseMicros(attrs[StartAttr(k)]) == Some(items[k][i].start)
    ensures DurationAttr(k) in attrs && ParseMicros(attrs[DurationAttr(k)]) == Some(Duration(items[k][i]))
  {
    var start, duration := attrs[StartAttr(k)], attrs[DurationAttr(k)];
    var s, d := items[k][i].start, Duration(items[k][i]);
    assert start == FormatMicros(s);
    assert duration == FormatMicros(d);
    FormatReads(s, start);
    FormatReads(d, duration);
  }

  /** `{}` of an `f64` parses back, stated on a text named apart so that
      the two functions are not unfolded together. */
  lemma FormatReads(v: int, t: string)
    requires t == FormatMicros(v)
    ensures ParseMicros(t) == Some(v)
  {
    ParseFormatMicros(v);
  }

  lemma ItemFromIniOf(ini: Ini, i: nat, k: Kind, item: Item)
    requires CutSection(i) in ini && StartAttr(k) in ini[CutSection(i)] && DurationAttr(k) in ini[CutSection(i)]
    requires ParseMicros(ini[CutSection(i)][StartAttr(k)]) == Some(item.start)
    requires ParseMicros(ini[CutSection(i)][DurationAttr(k)]) == Some(Duration(item)) && item.start < item.end
    ensures ItemFromIni(ini, i, k) == Ok(Some(item))
  {
    ItemNewOf(ini[CutSection(i)][StartAttr(k)], ini[CutSection(i)][DurationAttr(k)], item);
  }

  lemma ItemNewOf(start: string, duration: string, item: Item)
    requires ParseMicros(start) == Some(item.start) && ParseMicros(duration) == Some(Duration(item))
    requires item.start < item.end
    ensures ItemNew(start, duration) == Ok(Some(item))
  {
  }

  /** A kind that was not written is not found in any cut. */
  lemma UnwrittenKind(ini: Ini, items: Items, i: nat, k: Kind)
    requires k !in items && Indexable(items, i + 1)
    requires CutSection(i) in ini && CutWritten(ini[CutSection(i)], items, i, items.Keys)
    ensures ItemFromIni(ini, i, k).Err?
  {
    UnwrittenAttr(items.Keys, k);
    MissingAttr(ini, i, k);
  }

  /** The start attribute of a kind is among the names written for
      `kinds` only if the kind is. */
  lemma UnwrittenAttr(kinds: set<Kind>, k: Kind)
    requires k !in kinds
    ensures StartAttr(k) !in AttrNames(kinds)
  {
    AttributesDiffer();
    match k
    case Frames =>
    case Time =>
  }

  lemma MissingAttr(ini: Ini, i: nat, k: Kind)
    requires CutSection(i) in ini && StartAttr(k) !in ini[CutSection(i)]
    ensures ItemFromIni(ini, i, k).Err?
  {
  }

  /** Cuts that all read as proper items are all kept. */
  lemma {:induction false} AllPositive(ini: Ini, k: Kind, s: seq<Item>, m: nat)
    requires m <= |s| && forall j :: 0 <= j < m ==> ItemFromIni(ini, j, k) == Ok(Some(s[j]))
    ensures PositiveItems(ini, k, m) == s[..m]
  {
    if m > 0 {
      var before := PositiveItems(ini, k, m - 1);
      assert before == s[..m - 1] by {
        AllPositive(ini, k, s, m - 1);
      }
      assert PositiveItems(ini, k, m) == before + [s[m - 1]] by {
        PositiveStep(ini, k, m, s[m - 1]);
      }
      SnocPrefix(PositiveItems(ini, k, m), before, s, m);
    }
  }

  lemma SnocPrefix(a: seq<Item>, b: seq<Item>, s: seq<Item>, m: nat)
    requires 1 <= m <= |s| && a == b + [s[m - 1]] && b == s[..m - 1]
    ensures a == s[..m]
  {
    assert s[..m] == s[..m - 1] + [s[m - 1]];
  }

  lemma PositiveStep(ini: Ini, k: Kind, m: nat, item: Item)
    requires m >= 1 && ItemFromIni(ini, m - 1, k) == Ok(Some(item))
    ensures PositiveItems(ini, k, m) == PositiveItems(ini, k, m - 1) + [item]
  {
  }

  /** Cut sections written for kinds of `n >= 1` proper intervals each are
      read back by `extend_from_ini_cut` as the same items. */
  lemma CutsReadBack(ini: Ini, items: Items, n: nat)
    requires n >= 1 && (forall k :: k in items ==> |items[k]| == n) && ProperItems(items)
    requires Indexable(items, n) && CutsWritten(ini, items, n)
    ensures ReadCuts(ini, n) == Ok(items)
  {
    FirstKindsWritten(ini, items, n);
    NoCutLacks(ini, items, n);
    ReadCutsMeaning(ini, n);
    var read := ReadCuts(ini, n).value;
    forall k | k in items
      ensures read[k] == items[k]
    {
      KindReadBack(ini, items, n, k);
    }
    SameItems(read, items);
  }

  lemma KindReadBack(ini: Ini, items: Items, n: nat, k: Kind)
    requires k in items && |items[k]| == n && ProperItems(items)
    requires Indexable(items, n) && CutsWritten(ini, items, n)
    ensures PositiveItems(ini, k, n) == items[k]
  {
    forall j | 0 <= j < n
      ensures ItemFromIni(ini, j, k) == Ok(Some(items[k][j]))
    {
      ReadWrittenCut(ini, items, j, k);
    }
    AllPositive(ini, k, items[k], n);
    assert items[k][..n] == items[k];
  }

  lemma SameItems(a: Items, b: Items)
    requires a.Keys == b.Keys && forall k :: k in b ==> a[k] == b[k]
    ensures a == b
  {
  }

  /** Cut 0 supports exactly the kinds written. */
  lemma FirstKindsWritten(ini: Ini, items: Items, n: nat)
    requires n >= 1 && Indexable(items, n) && CutsWritten(ini, items, n) && ProperItems(items)
    ensures FirstKinds(ini) == items.Keys
  {
    FirstKindWritten(ini, items, n, Frames);
    FirstKindWritten(ini, items, n, Time);
    KindSetsEqual(FirstKinds(ini), items.Keys);
  }

  lemma KindSetsEqual(a: set<Kind>, b: set<Kind>)
    requires Frames in a <==> Frames in b
    requires Time in a <==> Time in b
    ensures a == b
  {
    forall k
      ensures k in a <==> k in b
    {
      match k
      case Frames =>
      case Time =>
    }
  }

  lemma FirstKindWritten(ini: Ini, items: Items, n: nat, k: Kind)
    requires n >= 1 && Indexable(items, n) && CutsWritten(ini, items, n) && ProperItems(items)
    ensures Positive(ItemFromIni(ini, 0, k)) <==> k in items
  {
    if k in items {
      ReadWrittenCut(ini, items, 0, k);
    } else {
      UnwrittenKind(ini, items, 0, k);
    }
  }

  /** No later cut lacks a kind written. */
  lemma NoCutLacks(ini: Ini, items: Items, n: nat)
    requires n >= 1 && Indexable(items, n) && CutsWritten(ini, items, n) && ProperItems(items)
    requires FirstKinds(ini) == items.Keys
    ensures !MissingCut(ini, n)
  {
    forall i | 1 <= i < n
      ensures !CutLacks(ini, i)
    {
      forall k | k in items
        ensures ItemFromIni(ini, i, k).Ok?
      {
        ReadWrittenCut(ini, items, i, k);
      }
    }
  }

  /** What `to_ini` writes for a cut list whose kinds hold `n >= 1` proper
      intervals each is read back as the same items, and `NoOfCuts` is
      `n`.  It has no `[Meta]` section, so `TryFrom<&Ini>` itself rejects
      it. */
  lemma WrittenIniReadBack(items: Items, n: nat, app: string, version: string, fileName: string, fileSize: nat, rating: nat)
    requires n >= 1 && (forall k :: k in items ==> |items[k]| == n) && ProperItems(items)
    requires n <= I32_MAX
    ensures var ini := WrittenIni(items, n, GeneralOf(app, version, n, fileName, fileSize), rating);
      ReadCuts(ini, n) == Ok(items) && NumCuts(ini) == Ok(n) && IniId(ini).Err?
  {
    var general := GeneralOf(app, version, n, fileName, fileSize);
    WrittenIniSections(items, n, general, rating);
    CutsReadBack(WrittenIni(items, n, general, rating), items, n);
    GeneralCount(app, version, n, fileName, fileSize);
  }

  /** `NoOfCuts` in `[General]` reads as the number of cuts. */
  lemma GeneralCount(app: string, version: string, n: nat, fileName: string, fileSize: nat)
    requires n <= I32_MAX
    ensures NUM_OF_CUTS in GeneralOf(app, version, n, fileName, fileSize)
    ensures ParseI32(GeneralOf(app, version, n, fileName, fileSize)[NUM_OF_CUTS]) == Some(n)
  {
    assert NUM_OF_CUTS[0] == 'N' && APPLY_TO_FILE[0] == 'A' && ORIG_FILE_SIZE[0] == 'O';
    ParseI32OfString(n);
  }

  /** A valid cut list of `n >= 1` proper cuts written by `to_ini`, once
      cutlist.at has added `[Meta]` with its id, is read by `TryFrom<&Ini>`
      as the same cut list. */
  lemma CutlistIniRoundTrip(items: Items, id: nat, app: string, version: string, fileName: string, fileSize: nat, rating: nat)
    requires ValidateItems(items, true).Ok? && ItemsLen(items) >= 1 && ProperItems(items)
    requires ItemsLen(items) <= I32_MAX && id <= U64_MAX
    ensures var n := ItemsLen(items);
      && Indexable(items, n)
      && var ini := WrittenIni(items, n, GeneralOf(app, version, n, fileName, fileSize), rating);
        CutlistFromIni(ini[META_SECTION := map[CUTLIST_ID := NatToString(id)]]) == Ok((Some(id), items))
  {
    var n := ItemsLen(items);
    ValidLen(items);
    var general := GeneralOf(app, version, n, fileName, fileSize);
    var written := WrittenIni(items, n, general, rating);
    var ini := written[META_SECTION := map[CUTLIST_ID := NatToString(id)]];
    WrittenIniSections(items, n, general, rating);
    forall i | 0 <= i < n
      ensures CutSection(i) in ini && CutWritten(ini[CutSection(i)], items, i, items.Keys)
    {
      CutSectionProps(i);
    }
    CutsReadBack(ini, items, n);
    GeneralCount(app, version, n, fileName, fileSize);
    assert META_SECTION != GENERAL_SECTION by {
      assert META_SECTION[0] == 'M';
    }
    ParseU64OfString(id);
    assert IniId(ini) == Ok(Some(id));
    assert NumCuts(ini) == Ok(n);
  }
}
