/** The headers of the cut lists that cutlist.at offers for a video, as
    every generation of the cutting code filters and orders them
    (`headers_from_provider`, `cutlist_headers`).  The generations differ
    only in the rules of `HeaderRules`. */
module ProviderHeaders {
  import opened Wrappers
  import opened Text
  import opened Numbers
  import opened Sorting
  import opened CutlistCore

  /** One `<cutlist>` entry of the header response: its id and the texts of
      `rating`, `ratingbyauthor`, `withframes` and `errors`.  A generation
      whose XML record lacks a field never looks at it. */
  datatype RawHeader = RawHeader(id: nat, rating: string, ratingByAuthor: string, withFrames: string, errors: string)

  /** A header: id, rating in millionths, and for the generations that read
      `withframes` the kind of the cut list. */
  datatype ProviderHeader = ProviderHeader(id: nat, rating: int, kind: Option<Kind>)

  /** What a generation does with a raw header: fall back to the author's
      rating, drop headers rated below a minimum, read `withframes`. */
  datatype HeaderRules = HeaderRules(authorFallback: bool, minRating: Option<nat>, readsKind: bool)

  /** `errors.parse::<i32>()` fails or gives a positive count. */
  predicate HasErrors(raw: RawHeader) {
    var e := ParseI32(raw.errors);
    e.None? || e.value > 0
  }

  /** The rating: `rating` if it is a number, else (where the generation
      reads it) `ratingbyauthor` if that is a number, else 0. */
  function RatingOf(rules: HeaderRules, raw: RawHeader): int {
    match ParseMicros(raw.rating)
    case Some(v) => v
    case None =>
      if rules.authorFallback && ParseMicros(raw.ratingByAuthor).Some? then ParseMicros(raw.ratingByAuthor).value
      else 0
  }

  /** `withframes`: 1 means frame numbers, any other integer times, and a
      text that is no integer leaves the default, frame numbers. */
  function KindOf(raw: RawHeader): Kind {
    match ParseI32(raw.withFrames)
    case Some(w) => if w == 1 then Frames else Time
    case None => Frames
  }

  /** A raw header that is kept: it has no errors and, when a minimum
      rating is given, its rating is not below it. */
  predicate Accepted(rules: HeaderRules, raw: RawHeader) {
    !HasErrors(raw) && (rules.minRating.Some? ==> RatingOf(rules, raw) >= rules.minRating.value * MICROS)
  }

  function HeaderOf(rules: HeaderRules, raw: RawHeader): ProviderHeader {
    ProviderHeader(raw.id, RatingOf(rules, raw), if rules.readsKind then Some(KindOf(raw)) else None)
  }

  /** The headers of the accepted raw headers, in response order. */
  function Accept(rules: HeaderRules, raws: seq<RawHeader>): (hs: seq<ProviderHeader>)
    ensures |hs| <= |raws|
    ensures forall h :: h in hs ==> exists i :: 0 <= i < |raws| && Accepted(rules, raws[i]) && h == HeaderOf(rules, raws[i])
    ensures forall i :: 0 <= i < |raws| && Accepted(rules, raws[i]) ==> HeaderOf(rules, raws[i]) in hs
  {
    FilterMap(raw => Accepted(rules, raw), raw => HeaderOf(rules, raw), raws)
  }

  lemma AcceptStep(rules: HeaderRules, raws: seq<RawHeader>, i: nat)
    requires i < |raws|
    ensures Accept(rules, raws[..i + 1])
      == Accept(rules, raws[..i]) + (if Accepted(rules, raws[i]) then [HeaderOf(rules, raws[i])] else [])
  {
    FilterMapSnoc(raw => Accepted(rules, raw), raw => HeaderOf(rules, raw), raws, i);
  }

  /** The header of one raw header without errors: the default rating 0
      and kind frame numbers, overwritten by what parses. */
  method ReadHeader(rules: HeaderRules, raw: RawHeader) returns (header: ProviderHeader)
    ensures header == HeaderOf(rules, raw)
  {
    header := ProviderHeader(raw.id, 0, if rules.readsKind then Some(Frames) else None);
    match ParseMicros(raw.rating) {
      case Some(v) =>
        header := header.(rating := v);
      case None =>
        if rules.authorFallback && ParseMicros(raw.ratingByAuthor).Some? {
          header := header.(rating := ParseMicros(raw.ratingByAuthor).value);
        }
    }
    if rules.readsKind {
      var w := ParseI32(raw.withFrames);
      if w.Some? {
        header := header.(kind := Some(if w.value == 1 then Frames else Time));
      }
    }
  }

  /** The loop over the raw headers: headers with errors are skipped with
      `continue`, the others pushed unless their rating is too low. */
  method FilterHeaders(rules: HeaderRules, raws: seq<RawHeader>) returns (headers: seq<ProviderHeader>)
    ensures headers == Accept(rules, raws)
  {
    headers := [];
    for i := 0 to |raws|
      invariant headers == Accept(rules, raws[..i])
    {
      AcceptStep(rules, raws, i);
      var raw := raws[i];
      if HasErrors(raw) {
        continue;
      }
      var header := ReadHeader(rules, raw);
      if rules.minRating.Some? && header.rating < rules.minRating.value * MICROS {
        continue;
      }
      headers := headers + [header];
    }
    assert raws[..|raws|] == raws;
  }

  /** `Ord for ProviderHeader`: headers compare by rating alone. */
  function RatingKey(h: ProviderHeader): int {
    h.rating
  }

  /** `headers_from_provider` after the request: a failed request (or an
      empty or unreadable response) is an error; otherwise the accepted
      headers sorted by `Vec::sort`, a stable sort by rating. */
  method HeadersFromProvider(rules: HeaderRules, response: Result<seq<RawHeader>>) returns (r: Result<seq<ProviderHeader>>)
    ensures r.Err? <==> response.Err?
    ensures r.Ok? ==> r.value == SortBy(Accept(rules, response.value), RatingKey)
  {
    if response.Err? {
      return Err(response.error);
    }
    var headers := FilterHeaders(rules, response.value);
    return Ok(SortBy(headers, RatingKey));
  }

  /** The headers come lowest rating first, are exactly the accepted
      headers, and headers of equal rating keep their response order. */
  lemma HeadersOrdered(rules: HeaderRules, raws: seq<RawHeader>, rating: int)
    ensures var hs := SortBy(Accept(rules, raws), RatingKey);
      SortedBy(hs, RatingKey)
      && multiset(hs) == multiset(Accept(rules, raws))
      && WithKey(hs, RatingKey, rating) == WithKey(Accept(rules, raws), RatingKey, rating)
  {
    SortBySorted(Accept(rules, raws), RatingKey);
    SortByStable(Accept(rules, raws), RatingKey, rating);
  }

  /** Every header returned has no errors and meets the minimum rating. */
  lemma HeadersAccepted(rules: HeaderRules, raws: seq<RawHeader>)
    ensures forall h :: h in SortBy(Accept(rules, raws), RatingKey) ==>
      exists i :: 0 <= i < |raws| && Accepted(rules, raws[i]) && h == HeaderOf(rules, raws[i])
    ensures rules.minRating.Some? ==> forall h :: h in SortBy(Accept(rules, raws), RatingKey) ==>
      h.rating >= rules.minRating.value * MICROS
  {
    var hs := SortBy(Accept(rules, raws), RatingKey);
    forall h | h in hs
      ensures exists i :: 0 <= i < |raws| && Accepted(rules, raws[i]) && h == HeaderOf(rules, raws[i])
    {
      assert h in multiset(hs);
      assert h in Accept(rules, raws);
    }
  }

  /** The rating of a raw header for the generations without the author's
      rating: its `rating` if that is a number, else 0. */
  function OwnRating(raw: RawHeader): int {
    if ParseMicros(raw.rating).Some? then ParseMicros(raw.rating).value else 0
  }

  /** The header of a raw header for the generations without the author's
      rating and without a minimum rating. */
  function PlainHeader(rules: HeaderRules, raw: RawHeader): ProviderHeader {
    ProviderHeader(raw.id, OwnRating(raw), if rules.readsKind then Some(KindOf(raw)) else None)
  }

  lemma PlainHeaders(rules: HeaderRules, raws: seq<RawHeader>)
    requires !rules.authorFallback && rules.minRating.None?
    ensures forall i :: 0 <= i < |raws| ==>
      (Accepted(rules, raws[i]) <==> !HasErrors(raws[i])) && HeaderOf(rules, raws[i]) == PlainHeader(rules, raws[i])
  {
  }

  /** Without a minimum rating every header without errors is offered,
      whatever its rating; each header offered comes from a raw header
      without errors; the headers come lowest rating first. */
  lemma HeadersWithoutMinimum(rules: HeaderRules, raws: seq<RawHeader>)
    requires !rules.authorFallback && rules.minRating.None?
    ensures SortedBy(SortBy(Accept(rules, raws), RatingKey), RatingKey)
    ensures forall i :: 0 <= i < |raws| && !HasErrors(raws[i]) ==>
      PlainHeader(rules, raws[i]) in SortBy(Accept(rules, raws), RatingKey)
    ensures forall h :: h in SortBy(Accept(rules, raws), RatingKey) ==>
      exists i :: 0 <= i < |raws| && !HasErrors(raws[i]) && h == PlainHeader(rules, raws[i])
  {
    var acc := Accept(rules, raws);
    var hs := SortBy(acc, RatingKey);
    HeadersOrdered(rules, raws, 0);
    HeadersAccepted(rules, raws);
    PlainHeaders(rules, raws);
    forall i | 0 <= i < |raws| && !HasErrors(raws[i])
      ensures PlainHeader(rules, raws[i]) in hs
    {
      assert HeaderOf(rules, raws[i]) in multiset(acc);
    }
  }
}
