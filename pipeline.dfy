/** `process_videos` and the exit rule of `src/main.rs`: the collected
    videos, sorted by key and descending status, lose the later entries of
    each key, each remaining video is decoded and cut as the command says,
    and the run fails when any video carries an error.  Collecting,
    decoding and cutting are parameters; each returns the video with the
    error it ran into, if any. */
module Pipeline {
  import opened Wrappers
  import opened LexOrder
  import opened VideoNames

  /** A collected video: key and status (with its path and whatever else
      it carries in `info`) and the error of its processing. */
  datatype Entry = Entry(named: Named, info: string, error: Option<string>)

  /** The sub-command of the command line. */
  datatype Command = DecodeVideos | CutVideos | ProcessVideos

  /** `video.decode(access)` and `video.cut(access_type, rating, min_rating)`:
      the access data are fixed for a run, the rating is what `main` passes. */
  datatype Ops = Ops(decode: Entry -> Entry, cut: (Entry, Option<int>) -> Entry)

  function Key(e: Entry): string {
    e.named.key
  }

  // ---------------------------------------------------------------------
  // Removing duplicates

  /** `dedup_by(|v1, v2| v1.key() == v2.key())` on what follows a kept
      video with key `k`: an entry with the same key as the last kept one
      is dropped, any other is kept and becomes the last kept one. */
  function DedupAfter(k: string, xs: seq<Entry>): seq<Entry>
    decreases |xs|
  {
    if |xs| == 0 then []
    else if Key(xs[0]) == k then DedupAfter(k, xs[1..])
    else [xs[0]] + DedupAfter(Key(xs[0]), xs[1..])
  }

  /** `dedup_by` on the whole list: its first entry is always kept. */
  function Dedup(xs: seq<Entry>): seq<Entry> {
    if |xs| == 0 then [] else [xs[0]] + DedupAfter(Key(xs[0]), xs[1..])
  }

  /** The order `collect` sorts by: key ascending, then status
      descending. */
  predicate Sorted(xs: seq<Entry>) {
    forall i, j :: 0 <= i < j < |xs| ==> VideoCmp(xs[i].named, xs[j].named) != Greater
  }

  /** What the sort order says about keys and statuses. */
  predicate Ordered(xs: seq<Entry>) {
    forall i, j :: 0 <= i < j < |xs| ==>
      LexLess(Key(xs[i]), Key(xs[j])) || (Key(xs[i]) == Key(xs[j]) && Rank(xs[i].named.status) >= Rank(xs[j].named.status))
  }

  /** No earlier entry has the key of the entry at `p`. */
  predicate FirstOfKey(xs: seq<Entry>, p: int)
    requires 0 <= p < |xs|
  {
    forall m :: 0 <= m < p ==> Key(xs[m]) != Key(xs[p])
  }

  /** Every key of `ys` is `k` or above it. */
  predicate NotBelow(k: string, ys: seq<Entry>) {
    forall j :: 0 <= j < |ys| ==> Key(ys[j]) == k || LexLess(k, Key(ys[j]))
  }

  /** Every key of `r` is above `k`. */
  predicate Above(k: string, r: seq<Entry>) {
    forall i :: 0 <= i < |r| ==> LexLess(k, Key(r[i]))
  }

  /** The keys of `r` are strictly ascending. */
  predicate KeysAscending(r: seq<Entry>) {
    forall i, j :: 0 <= i < j < |r| ==> LexLess(Key(r[i]), Key(r[j]))
  }

  /** Every entry of `r` is an entry of `xs` that is the first of its
      key there. */
  predicate AllFirst(xs: seq<Entry>, r: seq<Entry>) {
    forall i :: 0 <= i < |r| ==> exists p :: 0 <= p < |xs| && xs[p] == r[i] && FirstOfKey(xs, p)
  }

  /** Every key of `xs` other than `k` is a key of `r`. */
  predicate AllKept(k: string, xs: seq<Entry>, r: seq<Entry>) {
    forall j :: 0 <= j < |xs| && Key(xs[j]) != k ==> exists i :: 0 <= i < |r| && Key(r[i]) == Key(xs[j])
  }

  lemma SortedOrdered(xs: seq<Entry>)
    requires Sorted(xs)
    ensures Ordered(xs)
  {
    forall i, j | 0 <= i < j < |xs|
      ensures LexLess(Key(xs[i]), Key(xs[j])) || (Key(xs[i]) == Key(xs[j]) && Rank(xs[i].named.status) >= Rank(xs[j].named.status))
    {
      VideoCmpMeaning(xs[i].named, xs[j].named);
    }
  }

  /** The tail of an ordered list is ordered, and its keys are not below
      the head's. */
  lemma OrderedTail(xs: seq<Entry>)
    requires Ordered(xs) && |xs| > 0
    ensures Ordered(xs[1..]) && NotBelow(Key(xs[0]), xs[1..])
  {
    var rest := xs[1..];
    forall i, j | 0 <= i < j < |rest|
      ensures LexLess(Key(rest[i]), Key(rest[j])) || (Key(rest[i]) == Key(rest[j]) && Rank(rest[i].named.status) >= Rank(rest[j].named.status))
    {
      assert rest[i] == xs[i + 1] && rest[j] == xs[j + 1];
    }
    forall j | 0 <= j < |rest|
      ensures Key(rest[j]) == Key(xs[0]) || LexLess(Key(xs[0]), Key(rest[j]))
    {
      assert rest[j] == xs[j + 1];
    }
  }

  lemma ConsAbove(k: string, x: Entry, s: seq<Entry>)
    requires LexLess(k, Key(x)) && Above(Key(x), s)
    ensures Above(k, [x] + s)
  {
    forall i | 1 <= i < |[x] + s|
      ensures LexLess(k, Key(([x] + s)[i]))
    {
      assert ([x] + s)[i] == s[i - 1];
      LexTransitive(k, Key(x), Key(s[i - 1]));
    }
  }

  lemma ConsAscending(x: Entry, s: seq<Entry>)
    requires Above(Key(x), s) && KeysAscending(s)
    ensures KeysAscending([x] + s)
  {
    var r := [x] + s;
    forall i, j | 0 <= i < j < |r|
      ensures LexLess(Key(r[i]), Key(r[j]))
    {
      assert r[j] == s[j - 1];
      if i > 0 {
        assert r[i] == s[i - 1];
      }
    }
  }

  /** An entry first of its key in the tail is first in the whole list
      when the head has another key. */
  lemma FirstShift(xs: seq<Entry>, p: nat)
    requires 0 < p < |xs| && FirstOfKey(xs[1..], p - 1) && Key(xs[0]) != Key(xs[p])
    ensures FirstOfKey(xs, p)
  {
    forall m | 0 < m < p
      ensures Key(xs[m]) != Key(xs[p])
    {
      assert xs[m] == xs[1..][m - 1] && xs[p] == xs[1..][p - 1];
    }
  }

  lemma AllFirstTail(xs: seq<Entry>, r: seq<Entry>)
    requires |xs| > 0 && AllFirst(xs[1..], r) && Above(Key(xs[0]), r)
    ensures AllFirst(xs, r)
  {
    forall i | 0 <= i < |r|
      ensures exists p :: 0 <= p < |xs| && xs[p] == r[i] && FirstOfKey(xs, p)
    {
      var q :| 0 <= q < |xs[1..]| && xs[1..][q] == r[i] && FirstOfKey(xs[1..], q);
      assert xs[q + 1] == xs[1..][q];
      LexIrreflexive(Key(xs[0]));
      FirstShift(xs, q + 1);
    }
    assert forall i :: 0 <= i < |r| ==> exists p :: 0 <= p < |xs| && xs[p] == r[i] && FirstOfKey(xs, p);
  }

  lemma AllFirstCons(xs: seq<Entry>, s: seq<Entry>)
    requires |xs| > 0 && AllFirst(xs, s)
    ensures AllFirst(xs, [xs[0]] + s)
  {
    var r := [xs[0]] + s;
    forall i | 0 <= i < |r|
      ensures exists p :: 0 <= p < |xs| && xs[p] == r[i] && FirstOfKey(xs, p)
    {
      if i == 0 {
        assert xs[0] == r[0] && FirstOfKey(xs, 0);
      } else {
        assert r[i] == s[i - 1];
      }
    }
  }

  lemma AllKeptSkip(k: string, xs: seq<Entry>, r: seq<Entry>)
    requires |xs| > 0 && Key(xs[0]) == k && AllKept(k, xs[1..], r)
    ensures AllKept(k, xs, r)
  {
    forall j | 0 <= j < |xs| && Key(xs[j]) != k
      ensures exists i :: 0 <= i < |r| && Key(r[i]) == Key(xs[j])
    {
      assert xs[j] == xs[1..][j - 1];
    }
  }

  lemma AllKeptCons(k: string, xs: seq<Entry>, s: seq<Entry>)
    requires |xs| > 0 && AllKept(Key(xs[0]), xs[1..], s)
    ensures AllKept(k, xs, [xs[0]] + s)
  {
    var r := [xs[0]] + s;
    forall j | 0 <= j < |xs| && Key(xs[j]) != k
      ensures exists i :: 0 <= i < |r| && Key(r[i]) == Key(xs[j])
    {
      if j == 0 || Key(xs[j]) == Key(xs[0]) {
        assert Key(r[0]) == Key(xs[j]);
      } else {
        assert xs[j] == xs[1..][j - 1];
        var i :| 0 <= i < |s| && Key(s[i]) == Key(xs[1..][j - 1]);
        assert r[i + 1] == s[i];
      }
    }
  }

  /** What is kept after a video with key `k`, when no key is below `k`:
      keys strictly above `k` and strictly ascending, each kept entry the
      first of its key, and every key other than `k` kept. */
  lemma {:induction false} DedupAfterOrdered(k: string, xs: seq<Entry>)
    requires Ordered(xs) && NotBelow(k, xs)
    ensures var r := DedupAfter(k, xs);
      Above(k, r) && KeysAscending(r) && AllFirst(xs, r) && AllKept(k, xs, r)
    decreases |xs|
  {
    if |xs| == 0 {
      return;
    }
    OrderedTail(xs);
    var x, rest := xs[0], xs[1..];
    if Key(x) == k {
      DedupAfterOrdered(k, rest);
      AllFirstTail(xs, DedupAfter(k, rest));
      AllKeptSkip(k, xs, DedupAfter(k, rest));
    } else {
      DedupAfterOrdered(Key(x), rest);
      var s := DedupAfter(Key(x), rest);
      ConsAbove(k, x, s);
      ConsAscending(x, s);
      AllFirstTail(xs, s);
      AllFirstCons(xs, s);
      AllKeptCons(k, xs, s);
    }
  }

  /** The entry left for a key has the highest status of that key. */
  lemma FirstIsHighest(xs: seq<Entry>, p: nat, j: nat)
    requires Ordered(xs) && p < |xs| && j < |xs| && FirstOfKey(xs, p) && Key(xs[j]) == Key(xs[p])
    ensures Rank(xs[j].named.status) <= Rank(xs[p].named.status)
  {
    LexIrreflexive(Key(xs[p]));
  }

  /** `dedup_by` on the sorted list: the keys left are pairwise distinct
      (indeed ascending), every key of the list is left, and each entry
      left is the first entry of its key in the list, which is the one with
      the highest status. */
  lemma DedupSorted(xs: seq<Entry>)
    requires Sorted(xs)
    ensures var r := Dedup(xs);
      && (forall i, j :: 0 <= i < j < |r| ==> LexLess(Key(r[i]), Key(r[j])) && Key(r[i]) != Key(r[j]))
      && (forall j :: 0 <= j < |xs| ==> exists i :: 0 <= i < |r| && Key(r[i]) == Key(xs[j]))
      && (forall i :: 0 <= i < |r| ==> exists p :: 0 <= p < |xs| && xs[p] == r[i] && FirstOfKey(xs, p))
      && (forall i, j :: 0 <= i < |r| && 0 <= j < |xs| && Key(xs[j]) == Key(r[i]) ==>
            Rank(xs[j].named.status) <= Rank(r[i].named.status))
  {
    var r := Dedup(xs);
    if |xs| == 0 {
      return;
    }
    SortedOrdered(xs);
    OrderedTail(xs);
    DedupAfterOrdered(Key(xs[0]), xs[1..]);
    var s := DedupAfter(Key(xs[0]), xs[1..]);
    assert r == [xs[0]] + s;
    ConsAscending(xs[0], s);
    AllKeptCons(Key(xs[0]), xs, s);
    AllFirstTail(xs, s);
    AllFirstCons(xs, s);
    AscendingDistinct(r);
    KeptAll(xs, r);
    HighestLeft(xs, r);
  }

  lemma AscendingDistinct(r: seq<Entry>)
    requires KeysAscending(r)
    ensures forall i, j :: 0 <= i < j < |r| ==> LexLess(Key(r[i]), Key(r[j])) && Key(r[i]) != Key(r[j])
  {
    forall i, j | 0 <= i < j < |r|
      ensures LexLess(Key(r[i]), Key(r[j])) && Key(r[i]) != Key(r[j])
    {
      LexIrreflexive(Key(r[i]));
    }
  }

  lemma KeptAll(xs: seq<Entry>, r: seq<Entry>)
    requires |xs| > 0 && |r| > 0 && r[0] == xs[0] && AllKept(Key(xs[0]), xs, r)
    ensures forall j :: 0 <= j < |xs| ==> exists i :: 0 <= i < |r| && Key(r[i]) == Key(xs[j])
  {
    forall j | 0 <= j < |xs|
      ensures exists i :: 0 <= i < |r| && Key(r[i]) == Key(xs[j])
    {
      if Key(xs[j]) == Key(xs[0]) {
        assert Key(r[0]) == Key(xs[j]);
      }
    }
  }

  lemma HighestLeft(xs: seq<Entry>, r: seq<Entry>)
    requires Ordered(xs) && AllFirst(xs, r)
    ensures forall i, j :: 0 <= i < |r| && 0 <= j < |xs| && Key(xs[j]) == Key(r[i]) ==>
      Rank(xs[j].named.status) <= Rank(r[i].named.status)
  {
    forall i, j | 0 <= i < |r| && 0 <= j < |xs| && Key(xs[j]) == Key(r[i])
      ensures Rank(xs[j].named.status) <= Rank(r[i].named.status)
    {
      var p :| 0 <= p < |xs| && xs[p] == r[i] && FirstOfKey(xs, p);
      FirstIsHighest(xs, p, j);
    }
  }

  // ---------------------------------------------------------------------
  // Decoding and cutting

  /** The two `map` steps for one video: decoding for the decode and
      process commands, then cutting for the cut and process commands,
      with the rating of the command line only for the cut command. */
  function Handle(cmd: Command, rating: Option<int>, ops: Ops, v: Entry): (r: Entry)
    ensures cmd == DecodeVideos ==> r == ops.decode(v)
    ensures cmd == CutVideos ==> r == ops.cut(v, rating)
    ensures cmd == ProcessVideos ==> r == ops.cut(ops.decode(v), None)
  {
    var decoded := if cmd == DecodeVideos || cmd == ProcessVideos then ops.decode(v) else v;
    if cmd == CutVideos || cmd == ProcessVideos then ops.cut(decoded, if cmd == CutVideos then rating else None)
    else decoded
  }

  /** The lazy iterator chain up to `collect`: every video is handled, in
      the order of the list, whatever happened to the ones before. */
  function HandleAll(cmd: Command, rating: Option<int>, ops: Ops, vs: seq<Entry>): (r: seq<Entry>)
    ensures |r| == |vs|
    ensures forall i :: 0 <= i < |vs| ==> r[i] == Handle(cmd, rating, ops, vs[i])
  {
    if |vs| == 0 then [] else [Handle(cmd, rating, ops, vs[0])] + HandleAll(cmd, rating, ops, vs[1..])
  }

  // ---------------------------------------------------------------------
  // The result of the run

  const FAILED := "An error occurred during processing of OTR videos"

  /** The `fold` over the handled videos: a video with an error turns the
      result into the general error, one without leaves it as it is. */
  function Fold(acc: Result<()>, vs: seq<Entry>): Result<()>
    decreases |vs|
  {
    if |vs| == 0 then acc
    else Fold(if vs[0].error.Some? then Err(FAILED) else acc, vs[1..])
  }

  predicate SomeFailed(vs: seq<Entry>) {
    exists i :: 0 <= i < |vs| && vs[i].error.Some?
  }

  /** The fold gives the general error when some video has an error, and
      otherwise what it started with. */
  lemma {:induction false} FoldMeaning(acc: Result<()>, vs: seq<Entry>)
    ensures Fold(acc, vs) == if SomeFailed(vs) then Err(FAILED) else acc
    decreases |vs|
  {
    if |vs| > 0 {
      var next := if vs[0].error.Some? then Err(FAILED) else acc;
      FoldMeaning(next, vs[1..]);
      if SomeFailed(vs[1..]) {
        var i :| 0 <= i < |vs[1..]| && vs[1..][i].error.Some?;
        assert vs[i + 1].error.Some?;
      }
      if SomeFailed(vs) && !vs[0].error.Some? {
        var i :| 0 <= i < |vs| && vs[i].error.Some?;
        assert vs[1..][i - 1].error.Some?;
      }
    }
  }

  /** `process_videos`: an error of collecting is passed on; otherwise the
      deduplicated videos are handled and folded. */
  function ProcessResult(cmd: Command, rating: Option<int>, ops: Ops, collected: Result<seq<Entry>>): Result<()> {
    match collected
    case Err(e) => Err(e)
    case Ok(vs) => Fold(Ok(()), HandleAll(cmd, rating, ops, Dedup(vs)))
  }

  /** The run fails exactly when collecting fails or some deduplicated
      video ends up with an error; the error is then that of collecting or
      the general one. */
  lemma ProcessResultMeaning(cmd: Command, rating: Option<int>, ops: Ops, collected: Result<seq<Entry>>)
    ensures collected.Err? ==> ProcessResult(cmd, rating, ops, collected) == Err(collected.error)
    ensures collected.Ok? ==>
      var handled := HandleAll(cmd, rating, ops, Dedup(collected.value));
      && (ProcessResult(cmd, rating, ops, collected).Err? <==> exists i :: 0 <= i < |handled| && handled[i].error.Some?)
      && (ProcessResult(cmd, rating, ops, collected).Err? ==> ProcessResult(cmd, rating, ops, collected).error == FAILED)
  {
    if collected.Ok? {
      FoldMeaning(Ok(()), HandleAll(cmd, rating, ops, Dedup(collected.value)));
    }
  }

  /** `main`: exit status 1 exactly when processing fails. */
  function ExitCode(r: Result<()>): (c: int)
    ensures c == 1 <==> r.Err?
    ensures c == 0 <==> r.Ok?
  {
    if r.Err? then 1 else 0
  }
}
