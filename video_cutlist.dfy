/** The cut list of the generation in `src/video/cutlist.rs`: one kind per
    cut list, taken from the intervals string or from the header of
    cutlist.at, and a list of items of that kind. */
module VideoCutlist {
  import opened Wrappers
  import opened Text
  import opened Numbers
  import opened CutlistCore
  import opened CutlistText
  import opened ProviderHeaders
  import PointCutting
  import VideoCutting

  /** `CutList`: its kind and its items. */
  class CutList {
    var kind: Kind
    var items: seq<Item>

    /** A cut list of kind `k` without items. */
    constructor (k: Kind)
      ensures kind == k && items == []
    {
      kind := k;
      items := [];
    }

    /** `FromStr for CutList`: the kind and the items of the intervals
        string, in textual order and not validated. */
    static method FromStr(s: string) returns (r: Result<CutList>)
      requires IntervalsReadable(s)
      ensures r.Ok? <==> IntervalsItems(s).Ok?
      ensures r.Ok? ==> fresh(r.value) && r.value.kind == IntervalsItems(s).value.0 && r.value.items == IntervalsItems(s).value.1
      ensures r.Err? ==> r.error == if MatchIntervals(s).None? then VideoCutting.NotIntervalsText(s) else VideoCutting.CannotCreateFrom(s)
    {
      var read := ReadIntervalsString(s);
      if read.Err? {
        return Err(if MatchIntervals(s).None? then VideoCutting.NotIntervalsText(s) else VideoCutting.CannotCreateFrom(s));
      }
      var list := new CutList(read.value.0);
      list.items := read.value.1;
      return Ok(list);
    }

    /** `TryFrom<&ProviderHeader> for CutList`: the cut list is downloaded
        (`fetch`) and read for the header's kind. */
    static method TryFromHeader(h: ProviderHeader, fetch: nat -> Result<Ini>) returns (r: Result<CutList>)
      ensures fetch(h.id).Err? ==> r == Err(fetch(h.id).error)
      ensures r.Ok? <==> fetch(h.id).Ok? && KindCuts(fetch(h.id).value, PointCutting.HeaderKind(h)).Ok?
      ensures r.Ok? ==> fresh(r.value) && r.value.kind == PointCutting.HeaderKind(h)
      ensures r.Ok? ==> r.value.items == KindCuts(fetch(h.id).value, PointCutting.HeaderKind(h)).value
    {
      var k := PointCutting.HeaderKind(h);
      var list := new CutList(k);
      var response := fetch(h.id);
      if response.Err? {
        return Err(response.error);
      }
      var ini := response.value;
      var id := NatToString(h.id);
      if GENERAL_SECTION !in ini {
        return Err("Could not find section 'General' in cutlist " + id);
      }
      if NUM_OF_CUTS !in ini[GENERAL_SECTION] {
        return Err("Could not find attribute 'NoOfCuts' in cutlist " + id);
      }
      var parsed := ParseI32(ini[GENERAL_SECTION][NUM_OF_CUTS]);
      if parsed.None? {
        return Err("Could not parse attribute 'NoOfCuts' in cutlist " + id);
      }
      var numCuts := parsed.value;
      for i := 0 to Rounds(numCuts)
        invariant list.kind == k
        invariant ReadKindCuts(ini, k, i) == Ok(list.items)
      {
        var item := ReadItem(ini, k, i, id);
        if item.Err? {
          ReadKindNextErr(ini, k, i);
          ReadKindErrSticky(ini, k, i + 1, Rounds(numCuts));
          return Err(item.error);
        }
        ReadKindNextOk(ini, k, i, list.items, item.value);
        if item.value.Some? {
          list.items := list.items + [item.value.value];
        }
      }
      return Ok(list);
    }

    /** `is_valid`: no item starts after it ends.  The overlap check of the
        loop compares with a last item that is never set, so overlapping
        items pass. */
    method IsValid() returns (b: bool)
      ensures b <==> StartsBeforeEnds(items)
    {
      var lastItem: Option<Item> := None;
      for i := 0 to |items|
        invariant StartsBeforeEnds(items[..i])
        invariant lastItem == None
      {
        if items[i].start > items[i].end {
          return false;
        }
        if Overlapping(lastItem, items[i]) {
          return false;
        }
      }
      assert items[..|items|] == items;
      return true;
    }

    /** `to_mkvmerge_split_str`: the prefix of the kind, then the parts in
        item order joined with ",+"; mkvmerge reads back the values of
        items it can write. */
    method ToMkvmergeSplitStr() returns (s: string)
      ensures s == SplitStr(kind, items)
      ensures Writable(kind, items) ==> ReadSplitStr(kind, s) == Some(ReadBacks(kind, items))
    {
      s := BuildSplitStr(kind, items);
      if Writable(kind, items) {
        SplitStrRoundTrip(kind, items);
      }
    }
  }

  /** One round of the loop of `try_from`: cut `i` of kind `k`, with the
      messages of this generation. */
  method ReadItem(ini: Ini, k: Kind, i: nat, id: string) returns (r: Result<Option<Item>>)
    ensures r.Ok? <==> ItemFromIni(ini, i, k).Ok?
    ensures r.Ok? ==> r == ItemFromIni(ini, i, k)
  {
    if CutSection(i) !in ini {
      return Err("Could not find section for cut no " + NatToString(i) + " in cutlist " + id);
    }
    var cut := ini[CutSection(i)];
    if StartAttr(k) !in cut {
      return Err("Could not find attribute '" + StartAttr(k) + "' for cut no " + NatToString(i));
    }
    if DurationAttr(k) !in cut {
      return Err("Could not find attribute '" + DurationAttr(k) + "' for cut no " + NatToString(i));
    }
    r := ItemNew(cut[StartAttr(k)], cut[DurationAttr(k)]);
  }

  /** Items that overlap pass `is_valid` as long as each starts before it
      ends. */
  lemma OverlapsPass()
    ensures StartsBeforeEnds([Item(0, 10 * MICROS), Item(5 * MICROS, 15 * MICROS)])
  {
  }
}
