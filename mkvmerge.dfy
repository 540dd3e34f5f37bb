/** Cutting with mkvmerge in the otr-utils generation: the split string of
    one kind of a cut list, and the loop that tries the kinds of the cut
    list until mkvmerge succeeds with one of them.  Running mkvmerge is an
    oracle `run` from the split string to success or the failure text. */
module Mkvmerge {
  import opened Wrappers
  import opened CutlistCore
  import opened CutlistText
  import opened OtrCutlist

  const CUT_FAILED := "Could not cut video with mkvmerge"

  /** The error `cut` starts from before any kind has been tried. */
  const DUMMY_ERROR := "Dummy error"

  function NotOfKind(k: Kind): string {
    "Cannot create mkvmerge split string: Cut list does not contain \"" + KindName(k) + "\"\" intervals"
  }

  /** `to_split_str` on the items of a cut list: an error for a kind the
      cut list does not have; otherwise a split string from which the
      cut points of that kind read back, frame numbers rounded. */
  function SplitStrOf(items: Items, k: Kind): (r: Result<string>)
    ensures r.Ok? <==> k in items
    ensures r.Err? ==> r.error == NotOfKind(k)
    ensures r.Ok? && Writable(k, items[k]) ==> ReadSplitStr(k, r.value) == Some(ReadBacks(k, items[k]))
  {
    if k !in items then Err(NotOfKind(k))
    else
      var s := SplitStr(k, items[k]);
      assert Writable(k, items[k]) ==> ReadSplitStr(k, s) == Some(ReadBacks(k, items[k])) by {
        if Writable(k, items[k]) {
          SplitStrRoundTrip(k, items[k]);
        }
      }
      Ok(s)
  }

  /** `to_split_str`: the kind check, then the parts appended in a loop. */
  method ToSplitStr(cutlist: Cutlist, k: Kind) returns (r: Result<string>)
    ensures r == SplitStrOf(cutlist.items, k)
  {
    if !cutlist.IsOfKind(k) {
      return Err(NotOfKind(k));
    }
    var items := cutlist.ItemsOf(k);
    var s := BuildSplitStr(k, items.value);
    return Ok(s);
  }

  /** What mkvmerge does with the split string of a kind of the cut list. */
  function Outcome(items: Items, k: Kind, run: string -> Result<()>): Result<()>
    requires k in items
  {
    run(SplitStr(k, items[k]))
  }

  /** `exec_mkvmerge`: the split string, then mkvmerge on it. */
  method ExecMkvmerge(cutlist: Cutlist, k: Kind, run: string -> Result<()>) returns (r: Result<()>)
    ensures k !in cutlist.items ==> r == Err(NotOfKind(k))
    ensures k in cutlist.items ==> r == Outcome(cutlist.items, k, run)
  {
    var split := ToSplitStr(cutlist, k);
    if split.Err? {
      return Err(split.error);
    }
    r := run(split.value);
  }

  /** `cut`: the kinds are tried in the iteration order of the item map,
      which is unspecified; the first run of mkvmerge that succeeds ends
      the loop.  Otherwise the error is the failure of the kind tried
      last, or the placeholder when the cut list has no kind, under the
      context of this function. */
  method Cut(cutlist: Cutlist, run: string -> Result<()>) returns (r: Result<()>)
    ensures r.Ok? <==> exists k :: k in cutlist.items && Outcome(cutlist.items, k, run).Ok?
    ensures r.Ok? ==> r == Ok(())
    ensures r.Err? && cutlist.items == map[] ==> r.error == Context(CUT_FAILED, DUMMY_ERROR)
    ensures r.Err? && cutlist.items != map[] ==>
      exists k :: k in cutlist.items && r.error == Context(CUT_FAILED, Outcome(cutlist.items, k, run).error)
  {
    var err := DUMMY_ERROR;
    var remaining := cutlist.items.Keys;
    ghost var last: Kind := Frames;
    while remaining != {}
      invariant remaining <= cutlist.items.Keys
      invariant forall k :: k in cutlist.items && k !in remaining ==> Outcome(cutlist.items, k, run).Err?
      invariant remaining == cutlist.items.Keys ==> err == DUMMY_ERROR
      invariant remaining != cutlist.items.Keys ==>
        last in cutlist.items && last !in remaining && err == Outcome(cutlist.items, last, run).error
      decreases remaining
    {
      var k :| k in remaining;
      var res := ExecMkvmerge(cutlist, k, run);
      if res.Ok? {
        return Ok(());
      }
      err := res.error;
      last := k;
      remaining := remaining - {k};
    }
    if cutlist.items != map[] {
      assert last in cutlist.items;
    }
    return Err(Context(CUT_FAILED, err));
  }
}
