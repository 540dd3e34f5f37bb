/** What all generations of the cut-list code share: the two kinds of cut
    lists, cut-list items, the INI attributes they are read from, the
    textual cut points and the interval validator.

    Cut points are `f64` in the program; here they are integers counting
    millionths (of a frame or of a second), as in module Numbers. */
module CutlistCore {
  import opened Wrappers
  import opened Text
  import opened Numbers
  import opened TimeCode

  // ---------------------------------------------------------------------
  // Kinds

  /** Whether the intervals of a cut list are frame numbers or times. */
  datatype Kind = Frames | Time

  /** `Display for Kind`. */
  function KindName(k: Kind): string {
    match k
    case Frames => "frames"
    case Time => "time"
  }

  /** `Kind::try_from(&str)`: exactly the two names are accepted. */
  function KindFromStr(s: string): (r: Result<Kind>)
    ensures r.Ok? <==> s == "frames" || s == "time"
    ensures r.Ok? ==> KindName(r.value) == s
  {
    if s == "frames" then Ok(Frames)
    else if s == "time" then Ok(Time)
    else Err("\"" + s + "\" is not a valid kind of a cut list")
  }

  /** The printed name of a kind reads back as that kind. */
  lemma KindRoundTrip(k: Kind)
    ensures KindFromStr(KindName(k)) == Ok(k)
  {
  }

  // ---------------------------------------------------------------------
  // Items

  /** A cut: the part of the video from `start` to `end` is kept. */
  datatype Item = Item(start: int, end: int)

  /** `Item::new(start, duration)`: both texts must be numbers; a cut of
      non-positive duration is no cut. */
  function ItemNew(start: string, duration: string): (r: Result<Option<Item>>)
    ensures r.Ok? <==> DecimalLiteral(start) && DecimalLiteral(duration)
    ensures r.Ok? ==> (r.value.Some? <==> ParseMicros(duration).value > 0)
    ensures r.Ok? && r.value.Some? ==>
      r.value.value.start == ParseMicros(start).value
      && r.value.value.end - r.value.value.start == ParseMicros(duration).value
      && r.value.value.start < r.value.value.end
  {
    match ParseMicros(start)
    case None => Err("Could not parse \"" + start + "\" to floating point")
    case Some(s) =>
      match ParseMicros(duration)
      case None => Err("Could not parse \"" + duration + "\" to floating point")
      case Some(d) => Ok(if d > 0 then Some(Item(s, s + d)) else None)
  }

  // ---------------------------------------------------------------------
  // INI files of cutlist.at

  /** An INI structure: sections by name, each a map of attributes. */
  type Ini = map<string, map<string, string>>

  const GENERAL_SECTION := "General"
  const META_SECTION := "Meta"
  const INFO_SECTION := "Info"
  const NUM_OF_CUTS := "NoOfCuts"
  const CUTLIST_ID := "CutlistId"

  /** The section "CutN" of cut number `n`. */
  function CutSection(n: nat): string {
    "Cut" + NatToString(n)
  }

  /** The attribute holding a cut's start for cut lists of kind `k`. */
  function StartAttr(k: Kind): string {
    match k
    case Frames => "StartFrame"
    case Time => "Start"
  }

  /** The attribute holding a cut's duration for cut lists of kind `k`. */
  function DurationAttr(k: Kind): string {
    match k
    case Frames => "DurationFrames"
    case Time => "Duration"
  }

  lemma AttributesDiffer()
    ensures StartAttr(Frames) != StartAttr(Time) && StartAttr(Frames) != DurationAttr(Time)
    ensures DurationAttr(Frames) != StartAttr(Time) && DurationAttr(Frames) != DurationAttr(Time)
    ensures forall k :: StartAttr(k) != DurationAttr(k)
  {
    assert StartAttr(Frames)[0] == 'S' && DurationAttr(Time)[0] == 'D';
    assert DurationAttr(Frames)[0] == 'D' && StartAttr(Time)[0] == 'S';
    assert StartAttr(Frames)[5] == 'F' && StartAttr(Time) == "Start";
    assert DurationAttr(Frames)[8] == 'F' && DurationAttr(Time) == "Duration";
  }

  /** `Item::from_ini`: the section of cut `n` must exist and hold both
      attributes of kind `k`, which are then read by `Item::new`. */
  function ItemFromIni(ini: Ini, n: nat, k: Kind): (r: Result<Option<Item>>)
    ensures r.Ok? <==>
      CutSection(n) in ini && StartAttr(k) in ini[CutSection(n)] && DurationAttr(k) in ini[CutSection(n)]
      && ItemNew(ini[CutSection(n)][StartAttr(k)], ini[CutSection(n)][DurationAttr(k)]).Ok?
    ensures r.Ok? ==> r == ItemNew(ini[CutSection(n)][StartAttr(k)], ini[CutSection(n)][DurationAttr(k)])
  {
    if CutSection(n) !in ini then Err("Could not find section for cut no " + NatToString(n))
    else
      var cut := ini[CutSection(n)];
      if StartAttr(k) !in cut then Err("Could not find attribute \"" + StartAttr(k) + "\" for cut no " + NatToString(n))
      else if DurationAttr(k) !in cut then Err("Could not find attribute \"" + DurationAttr(k) + "\" for cut no " + NatToString(n))
      else ItemNew(cut[StartAttr(k)], cut[DurationAttr(k)])
  }

  // ---------------------------------------------------------------------
  // Reading the cuts of an INI structure (`extend_from_ini_cut`)

  /** The items of a cut list, by kind. */
  type Items = map<Kind, seq<Item>>

  /** An item was read and has a positive duration. */
  predicate Positive(r: Result<Option<Item>>) {
    r.Ok? && r.value.Some?
  }

  /** At cut 0 a kind is taken up when its item reads and has a positive
      duration; any failure only means the kind is not supported. */
  function AddFirst(items: Items, ini: Ini, k: Kind): (r: Items)
    ensures r.Keys == items.Keys + (if Positive(ItemFromIni(ini, 0, k)) then {k} else {})
  {
    match ItemFromIni(ini, 0, k)
    case Ok(Some(item)) => items[k := [item]]
    case _ => items
  }

  /** The two outcomes of `AddFirst`: the item read, or nothing taken up. */
  lemma AddFirstFound(items: Items, ini: Ini, k: Kind, item: Item)
    requires ItemFromIni(ini, 0, k) == Ok(Some(item))
    ensures AddFirst(items, ini, k) == items[k := [item]]
  {
  }

  lemma AddFirstSkipped(items: Items, ini: Ini, k: Kind)
    requires !Positive(ItemFromIni(ini, 0, k))
    ensures AddFirst(items, ini, k) == items
  {
  }

  /** At a later cut every supported kind must be readable; a cut of
      non-positive duration is skipped. */
  function ExtendKind(items: Items, ini: Ini, n: nat, k: Kind): (r: Result<Items>)
    ensures r.Ok? ==> r.value.Keys == items.Keys
    ensures r.Err? <==> k in items && ItemFromIni(ini, n, k).Err?
  {
    if k !in items then Ok(items)
    else
      match ItemFromIni(ini, n, k)
      case Err(_) =>
        Err(LacksKind(n, k))
      case Ok(None) => Ok(items)
      case Ok(Some(item)) => Ok(items[k := items[k] + [item]])
  }

  /** The message of a later cut that lacks a supported kind. */
  function LacksKind(n: nat, k: Kind): string {
    "Cut no " + NatToString(n) + " does not contain " + KindName(k) + " information, though the cut list supports that"
  }

  lemma ExtendKindFound(items: Items, ini: Ini, n: nat, k: Kind, item: Item)
    requires k in items && ItemFromIni(ini, n, k) == Ok(Some(item))
    ensures ExtendKind(items, ini, n, k) == Ok(items[k := items[k] + [item]])
  {
  }

  lemma ExtendKindSkipped(items: Items, ini: Ini, n: nat, k: Kind)
    requires k !in items || ItemFromIni(ini, n, k) == Ok(None)
    ensures ExtendKind(items, ini, n, k) == Ok(items)
  {
  }

  lemma ExtendKindFails(items: Items, ini: Ini, n: nat, k: Kind)
    requires k in items && ItemFromIni(ini, n, k).Err?
    ensures ExtendKind(items, ini, n, k) == Err(LacksKind(n, k))
  {
  }

  /** `extend_from_ini_cut(ini, n)`, frame numbers before times. */
  function ExtendItems(items: Items, ini: Ini, n: nat): (r: Result<Items>)
    ensures n > 0 && r.Ok? ==> r.value.Keys == items.Keys
  {
    if n == 0 then Ok(AddFirst(AddFirst(items, ini, Frames), ini, Time))
    else
      match ExtendKind(items, ini, n, Frames)
      case Err(e) => Err(e)
      case Ok(next) => ExtendKind(next, ini, n, Time)
  }

  /** The loop `for i in 0..num_cuts` over `extend_from_ini_cut`, started
      from an empty cut list and stopped by the first error. */
  function ReadCuts(ini: Ini, count: nat): (r: Result<Items>)
  {
    if count == 0 then Ok(map[])
    else
      match ReadCuts(ini, count - 1)
      case Err(e) => Err(e)
      case Ok(items) => ExtendItems(items, ini, count - 1)
  }

  /** Once reading the cuts has failed, reading more cuts fails alike. */
  lemma {:induction false} ReadCutsErrSticky(ini: Ini, j: nat, count: nat)
    requires j <= count && ReadCuts(ini, j).Err?
    ensures ReadCuts(ini, count) == ReadCuts(ini, j)
    decreases count
  {
    if j < count {
      ReadCutsErrSticky(ini, j, count - 1);
    }
  }

  /** The kinds that cut 0 supports. */
  function FirstKinds(ini: Ini): set<Kind> {
    (if Positive(ItemFromIni(ini, 0, Frames)) then {Frames} else {})
    + (if Positive(ItemFromIni(ini, 0, Time)) then {Time} else {})
  }

  /** The items of kind `k` with positive duration among cuts 0..count-1. */
  function PositiveItems(ini: Ini, k: Kind, count: nat): seq<Item>
  {
    if count == 0 then []
    else
      PositiveItems(ini, k, count - 1)
      + (if Positive(ItemFromIni(ini, count - 1, k)) then [ItemFromIni(ini, count - 1, k).value.value] else [])
  }

  /** Every cut read starts before it ends. */
  lemma {:induction false} PositiveItemsOrdered(ini: Ini, k: Kind, count: nat)
    ensures forall i :: 0 <= i < |PositiveItems(ini, k, count)| ==>
      PositiveItems(ini, k, count)[i].start < PositiveItems(ini, k, count)[i].end
  {
    if count > 0 {
      var n := count - 1;
      PositiveItemsOrdered(ini, k, n);
      var r := ItemFromIni(ini, n, k);
      var tail := if Positive(r) then [r.value.value] else [];
      if Positive(r) {
        ReadItemOrdered(ini, n, k);
      }
      OrderedConcat(PositiveItems(ini, k, n), tail);
    }
  }

  /** A cut read with a positive duration starts before it ends. */
  lemma ReadItemOrdered(ini: Ini, n: nat, k: Kind)
    requires Positive(ItemFromIni(ini, n, k))
    ensures ItemFromIni(ini, n, k).value.value.start < ItemFromIni(ini, n, k).value.value.end
  {
  }

  lemma OrderedConcat(xs: seq<Item>, ys: seq<Item>)
    requires forall i :: 0 <= i < |xs| ==> xs[i].start < xs[i].end
    requires forall i :: 0 <= i < |ys| ==> ys[i].start < ys[i].end
    ensures forall i :: 0 <= i < |xs + ys| ==> (xs + ys)[i].start < (xs + ys)[i].end
  {
  }

  /** Some cut among 1..count-1 cannot be read for a kind that cut 0 fixed. */
  predicate MissingCut(ini: Ini, count: nat) {
    exists i :: 1 <= i < count && CutLacks(ini, i)
  }

  /** Cut `n` cannot be read for some kind that cut 0 fixed. */
  predicate CutLacks(ini: Ini, n: nat) {
    (Frames in FirstKinds(ini) && ItemFromIni(ini, n, Frames).Err?)
    || (Time in FirstKinds(ini) && ItemFromIni(ini, n, Time).Err?)
  }

  /** Reading `count >= 1` cuts fails exactly when a later cut lacks a kind
      fixed by cut 0; otherwise the kinds are those of cut 0 and each holds
      its positive-duration cuts in order. */
  lemma {:induction false} ReadCutsMeaning(ini: Ini, count: nat)
    requires count >= 1
    ensures ReadCuts(ini, count).Err? <==> MissingCut(ini, count)
    ensures ReadCuts(ini, count).Ok? ==>
      ReadCuts(ini, count).value.Keys == FirstKinds(ini)
      && forall k :: k in FirstKinds(ini) ==> ReadCuts(ini, count).value[k] == PositiveItems(ini, k, count)
  {
    if count == 1 {
      ReadFirstCut(ini);
    } else {
      var n := count - 1;
      ReadCutsMeaning(ini, n);
      var prev := ReadCuts(ini, n);
      MissingCutStep(ini, n);
      if prev.Err? {
        assert ReadCuts(ini, count) == prev;
      } else {
        ExtendStep(prev.value, ini, n);
      }
    }
  }

  /** Cut 0 alone: it fixes the kinds, with their item if of positive
      duration. */
  lemma ReadFirstCut(ini: Ini)
    ensures ReadCuts(ini, 1).Ok? && !MissingCut(ini, 1)
    ensures ReadCuts(ini, 1).value.Keys == FirstKinds(ini)
    ensures forall k :: k in FirstKinds(ini) ==> ReadCuts(ini, 1).value[k] == PositiveItems(ini, k, 1)
  {
    var items := AddFirst(AddFirst(map[], ini, Frames), ini, Time);
    assert ReadCuts(ini, 1) == Ok(items) by {
      assert ReadCuts(ini, 0) == Ok(map[]);
    }
    forall k | k in FirstKinds(ini) ensures items[k] == PositiveItems(ini, k, 1) {
      assert PositiveItems(ini, k, 0) == [];
    }
  }

  /** One kind at one later cut. */
  lemma ExtendKindStep(items: Items, ini: Ini, n: nat, k: Kind)
    requires n >= 1
    requires k in items <==> k in FirstKinds(ini)
    requires k in items ==> items[k] == PositiveItems(ini, k, n)
    ensures ExtendKind(items, ini, n, k).Err? <==> k in FirstKinds(ini) && ItemFromIni(ini, n, k).Err?
    ensures ExtendKind(items, ini, n, k).Ok? ==>
      var next := ExtendKind(items, ini, n, k).value;
      (k in next ==> next[k] == PositiveItems(ini, k, n + 1))
      && forall j :: j in items && j != k ==> next[j] == items[j]
  {
    var r := ItemFromIni(ini, n, k);
    if k !in items {
      ExtendKindSkipped(items, ini, n, k);
    } else if r.Err? {
      ExtendKindFails(items, ini, n, k);
    } else {
      var tail := if r.value.Some? then [r.value.value] else [];
      assert PositiveItems(ini, k, n + 1) == PositiveItems(ini, k, n) + tail;
      if r.value.Some? {
        ExtendKindFound(items, ini, n, k, r.value.value);
      } else {
        ExtendKindSkipped(items, ini, n, k);
        assert items[k] + tail == items[k];
      }
    }
  }

  /** One later cut, given the invariant of the cuts before it. */
  lemma ExtendStep(items: Items, ini: Ini, n: nat)
    requires n >= 1
    requires items.Keys == FirstKinds(ini)
    requires forall k :: k in FirstKinds(ini) ==> items[k] == PositiveItems(ini, k, n)
    ensures ExtendItems(items, ini, n).Err? <==> CutLacks(ini, n)
    ensures ExtendItems(items, ini, n).Ok? ==>
      ExtendItems(items, ini, n).value.Keys == FirstKinds(ini)
      && forall k :: k in FirstKinds(ini) ==> ExtendItems(items, ini, n).value[k] == PositiveItems(ini, k, n + 1)
  {
    ExtendKindStep(items, ini, n, Frames);
    var r1 := ExtendKind(items, ini, n, Frames);
    if r1.Err? {
      assert ExtendItems(items, ini, n) == r1;
      assert Frames in FirstKinds(ini) && ItemFromIni(ini, n, Frames).Err?;
    } else {
      assert ExtendItems(items, ini, n) == ExtendKind(r1.value, ini, n, Time);
      assert !(Frames in FirstKinds(ini) && ItemFromIni(ini, n, Frames).Err?);
      TimeStep(r1.value, ini, n);
    }
  }

  /** The second half of `ExtendStep`: times, once frame numbers are read. */
  lemma TimeStep(mid: Items, ini: Ini, n: nat)
    requires n >= 1
    requires mid.Keys == FirstKinds(ini)
    requires Frames in mid ==> mid[Frames] == PositiveItems(ini, Frames, n + 1)
    requires Time in mid ==> mid[Time] == PositiveItems(ini, Time, n)
    ensures ExtendKind(mid, ini, n, Time).Err? <==> Time in FirstKinds(ini) && ItemFromIni(ini, n, Time).Err?
    ensures ExtendKind(mid, ini, n, Time).Ok? ==>
      ExtendKind(mid, ini, n, Time).value.Keys == FirstKinds(ini)
      && forall k :: k in FirstKinds(ini) ==> ExtendKind(mid, ini, n, Time).value[k] == PositiveItems(ini, k, n + 1)
  {
    ExtendKindStep(mid, ini, n, Time);
    var r2 := ExtendKind(mid, ini, n, Time);
    if r2.Ok? {
      var next := r2.value;
      forall k | k in FirstKinds(ini) ensures next[k] == PositiveItems(ini, k, n + 1) {
        if k == Frames {
          assert next[Frames] == mid[Frames];
        }
      }
    }
  }

  lemma MissingCutStep(ini: Ini, n: nat)
    requires n >= 1
    ensures MissingCut(ini, n + 1) <==> MissingCut(ini, n) || CutLacks(ini, n)
  {
    if MissingCut(ini, n + 1) && !MissingCut(ini, n) {
      var i :| 1 <= i < n + 1 && CutLacks(ini, i);
      assert i == n;
    }
    if CutLacks(ini, n) {
      assert 1 <= n < n + 1;
    }
    if MissingCut(ini, n) {
      var i :| 1 <= i < n && CutLacks(ini, i);
      assert 1 <= i < n + 1;
    }
  }

  // ---------------------------------------------------------------------
  // Validation

  /** The overlap test of `validate_intervals` against the previous item. */
  predicate Overlapping(last: Option<Item>, item: Item) {
    last.Some? && last.value.end > item.start
  }

  /** No item starts after it ends. */
  predicate StartsBeforeEnds(items: seq<Item>) {
    forall i :: 0 <= i < |items| ==> items[i].start <= items[i].end
  }

  function StartAfterEnd(k: Kind): string {
    "Cut list " + KindName(k) + " intervals are invalid: Start is after end"
  }

  /** `validate_intervals`: the items must not start after they end.  The
      previous item `last_item` is never assigned after its initialisation
      with `None`, so the overlap test never fails. */
  method ValidateIntervals(k: Kind, items: seq<Item>) returns (r: Result<()>)
    ensures r.Ok? <==> StartsBeforeEnds(items)
    ensures r.Err? ==> r.error == StartAfterEnd(k)
  {
    var lastItem: Option<Item> := None;
    for i := 0 to |items|
      invariant StartsBeforeEnds(items[..i])
    {
      if items[i].start > items[i].end {
        return Err(StartAfterEnd(k));
      }
      if Overlapping(lastItem, items[i]) {
        return Err("Cut list " + KindName(k) + " intervals overlap");
      }
    }
    assert items[..|items|] == items;
    return Ok(());
  }

  /** `validate`: there must be items of some kind; with `countCheck` (the
      newest generation) frame and time items must be equally many; no item
      may start after its end. */
  function ValidateItems(items: Items, countCheck: bool): (r: Result<()>)
    ensures r.Ok? <==>
      items != map[]
      && (countCheck && Frames in items && Time in items ==> |items[Frames]| == |items[Time]|)
      && (forall k :: k in items ==> StartsBeforeEnds(items[k]))
  {
    if items == map[] then Err("Cut list does not contain intervals")
    else if countCheck && Frames in items && Time in items && |items[Frames]| != |items[Time]| then
      Err("Cut list has time and frames intervals, but the number of cuts differ")
    else if Frames in items && !StartsBeforeEnds(items[Frames]) then Err(StartAfterEnd(Frames))
    else if Time in items && !StartsBeforeEnds(items[Time]) then Err(StartAfterEnd(Time))
    else
      EachKind(items);
      Ok(())
  }

  lemma EachKind(items: Items)
    requires Frames in items ==> StartsBeforeEnds(items[Frames])
    requires Time in items ==> StartsBeforeEnds(items[Time])
    ensures forall k :: k in items ==> StartsBeforeEnds(items[k])
  {
    forall k | k in items ensures StartsBeforeEnds(items[k]) {
      match k
      case Frames =>
      case Time =>
    }
  }

  /** The body of `validate` after the emptiness and count checks, which
      reassembles `ValidateItems` from the per-kind checks. */
  method ValidateKinds(items: Items) returns (r: Result<()>)
    requires items != map[]
    ensures r.Ok? <==> forall k :: k in items ==> StartsBeforeEnds(items[k])
    ensures r == ValidateItems(items, false)
  {
    if Frames in items {
      r := ValidateIntervals(Frames, items[Frames]);
      if r.Err? {
        return;
      }
    }
    if Time in items {
      r := ValidateIntervals(Time, items[Time]);
      if r.Err? {
        return;
      }
    }
    EachKind(items);
    return Ok(());
  }

  // ---------------------------------------------------------------------
  // Reading the cuts of one kind (the generations that take the kind from
  // the cut-list header)

  /** `[General]/NoOfCuts`, which must be an `i32`. */
  function NumCuts(ini: Ini): (r: Result<int>)
    ensures r.Ok? <==>
      GENERAL_SECTION in ini && NUM_OF_CUTS in ini[GENERAL_SECTION] && ParseI32(ini[GENERAL_SECTION][NUM_OF_CUTS]).Some?
    ensures r.Ok? ==> r == Ok(ParseI32(ini[GENERAL_SECTION][NUM_OF_CUTS]).value)
  {
    if GENERAL_SECTION !in ini then Err("Could not find section \"General\" in cut list")
    else if NUM_OF_CUTS !in ini[GENERAL_SECTION] then Err("Could not find attribute \"NoOfCuts\" in cut list")
    else match ParseI32(ini[GENERAL_SECTION][NUM_OF_CUTS])
      case None => Err("Could not parse attribute \"NoOfCuts\" in cut list")
      case Some(n) => Ok(n)
  }

  /** The number of rounds of `for i in 0..num_cuts`. */
  function Rounds(n: int): nat {
    if n < 0 then 0 else n
  }

  /** Cuts 0..count-1 read for kind `k`: the first cut that cannot be read
      is the error, cuts of non-positive duration are skipped. */
  function ReadKindCuts(ini: Ini, k: Kind, count: nat): (r: Result<seq<Item>>)
    ensures r.Ok? <==> Readable(ini, k, count)
    ensures r.Ok? ==> r.value == PositiveItems(ini, k, count)
  {
    if count == 0 then Ok([])
    else
      var prev := ReadKindCuts(ini, k, count - 1);
      var next := ItemFromIni(ini, count - 1, k);
      ReadNextMeaning(ini, k, count - 1, prev, next);
      ReadNext(prev, next)
  }

  /** One round of reading: a failed read stops it, a cut of non-positive
      duration is skipped. */
  function ReadNext(prev: Result<seq<Item>>, next: Result<Option<Item>>): Result<seq<Item>> {
    if prev.Err? then Err(prev.error)
    else if next.Err? then Err(next.error)
    else if next.value.None? then prev
    else Ok(prev.value + [next.value.value])
  }

  lemma ReadNextMeaning(ini: Ini, k: Kind, n: nat, prev: Result<seq<Item>>, next: Result<Option<Item>>)
    requires prev.Ok? <==> Readable(ini, k, n)
    requires prev.Ok? ==> prev.value == PositiveItems(ini, k, n)
    requires next == ItemFromIni(ini, n, k)
    ensures ReadNext(prev, next).Ok? <==> Readable(ini, k, n + 1)
    ensures ReadNext(prev, next).Ok? ==> ReadNext(prev, next).value == PositiveItems(ini, k, n + 1)
  {
    ReadableStep(ini, k, n);
  }

  /** The cuts of a cut list whose kind the header gives: `NoOfCuts`
      first, then cuts 0..NoOfCuts-1 of that kind. */
  function KindCuts(ini: Ini, k: Kind): (r: Result<seq<Item>>)
    ensures r.Ok? <==> NumCuts(ini).Ok? && Readable(ini, k, Rounds(NumCuts(ini).value))
    ensures r.Ok? ==> r.value == PositiveItems(ini, k, Rounds(NumCuts(ini).value))
    ensures r.Ok? ==> forall i :: 0 <= i < |r.value| ==> r.value[i].start < r.value[i].end
  {
    match NumCuts(ini)
    case Err(e) => Err(e)
    case Ok(n) =>
      PositiveItemsOrdered(ini, k, Rounds(n));
      ReadKindCuts(ini, k, Rounds(n))
  }

  /** Every cut among 0..count-1 can be read for kind `k`. */
  predicate Readable(ini: Ini, k: Kind, count: nat) {
    forall i :: 0 <= i < count ==> ItemFromIni(ini, i, k).Ok?
  }

  lemma ReadableStep(ini: Ini, k: Kind, n: nat)
    ensures Readable(ini, k, n + 1) <==> Readable(ini, k, n) && ItemFromIni(ini, n, k).Ok?
  {
  }

  /** Once the cuts up to `j` have failed, reading more cuts fails with the
      same error. */
  lemma {:induction false} ReadKindErrSticky(ini: Ini, k: Kind, j: nat, count: nat)
    requires j <= count && ReadKindCuts(ini, k, j).Err?
    ensures ReadKindCuts(ini, k, count) == ReadKindCuts(ini, k, j)
    decreases count
  {
    if j < count {
      ReadKindErrSticky(ini, k, j, count - 1);
      ReadAfterErr(ReadKindCuts(ini, k, count - 1), ItemFromIni(ini, count - 1, k));
    }
  }

  /** Reading one more cut that reads. */
  lemma ReadKindNextOk(ini: Ini, k: Kind, i: nat, items: seq<Item>, next: Option<Item>)
    requires ReadKindCuts(ini, k, i) == Ok(items) && ItemFromIni(ini, i, k) == Ok(next)
    ensures ReadKindCuts(ini, k, i + 1) == Ok(if next.Some? then items + [next.value] else items)
  {
  }

  /** Reading one more cut that does not read. */
  lemma ReadKindNextErr(ini: Ini, k: Kind, i: nat)
    requires ReadKindCuts(ini, k, i).Ok? && ItemFromIni(ini, i, k).Err?
    ensures ReadKindCuts(ini, k, i + 1).Err?
  {
  }

  lemma ReadAfterErr(prev: Result<seq<Item>>, next: Result<Option<Item>>)
    requires prev.Err?
    ensures ReadNext(prev, next) == prev
  {
  }

  // ---------------------------------------------------------------------
  // Cut points as text

  /** `cut_str_to_f64`: a frames cut point is an `f64` literal, a time cut
      point a time string whose value is counted in seconds (here in
      millionths of a second, i.e. in microseconds). */
  function CutStrToMicros(k: Kind, s: string): (r: Result<int>)
    requires k == Time ==> !BareDot(s)
    ensures k == Frames ==> (r.Ok? <==> DecimalLiteral(s)) && (r.Ok? ==> r.value == ParseMicros(s).value)
    ensures k == Time ==> (r.Ok? <==> IsTimeString(s)) && (r.Ok? ==> r.value == ParseTime(s).value)
  {
    match k
    case Frames =>
      (match ParseMicros(s)
       case None => Err("Could not parse frames cut string \"" + s + "\" to floating point")
       case Some(v) => Ok(v))
    case Time =>
      match ParseTime(s)
      case Err(_) => Err("\"" + s + "\" is not a valid time cut string")
      case Ok(us) => Ok(us)
  }

  /** `f64_to_cut_str` and `CutPoint` display: frames rounded to a whole
      number, times as "HH:MM:SS.ffffff" of the microseconds. */
  function CutPointText(k: Kind, v: int): string {
    match k
    case Frames => FormatRounded(v)
    case Time => FormatPoint(v)
  }

  /** A time cut point within `u64` microseconds is written so that
      `cut_str_to_f64` reads the same value back. */
  lemma TimeCutPointRoundTrip(v: int)
    requires 0 <= v <= U64_MAX
    ensures !BareDot(CutPointText(Time, v)) && CutStrToMicros(Time, CutPointText(Time, v)) == Ok(v)
  {
    ParseFormatPoint(v);
  }

  /** A frames cut point is written rounded, half to even, and reads back
      as that whole number. */
  lemma FramesCutPointRoundTrip(v: int)
    requires v >= 0
    ensures CutStrToMicros(Frames, CutPointText(Frames, v)) == Ok(RoundHalfEven(v) * MICROS)
  {
    ParseNatString(RoundHalfEven(v));
  }
}
