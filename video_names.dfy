/** What the two generations of the video type (`src/video/mod.rs` and the
    older `src/video.rs`) share: the status of a video and its order, the
    grammar of OTR file names with the key and status read from them, the
    order of videos, and the path a video gets in its next status. */
module VideoNames {
  import opened Wrappers
  import opened Text
  import opened LexOrder

  // ---------------------------------------------------------------------
  // Status

  /** `Status`: encoded, decoded or cut. */
  datatype Status = Encoded | Decoded | Cut

  datatype Ordering = Less | Equal | Greater

  /** The position of a status in the intended order
      Encoded < Decoded < Cut. */
  function Rank(s: Status): nat {
    match s
    case Encoded => 0
    case Decoded => 1
    case Cut => 2
  }

  /** `partial_cmp` of `Status`: equal statuses are equal; Cut, and
      Decoded against Encoded, are greater; everything else is less. */
  function StatusCmp(a: Status, b: Status): Ordering {
    if a == b then Equal
    else if a == Cut || (a == Decoded && b == Encoded) then Greater
    else Less
  }

  /** The comparison is the total order of the ranks. */
  lemma StatusCmpIsRankOrder(a: Status, b: Status)
    ensures StatusCmp(a, b) == Less <==> Rank(a) < Rank(b)
    ensures StatusCmp(a, b) == Equal <==> a == b
    ensures StatusCmp(a, b) == Greater <==> Rank(a) > Rank(b)
  {
  }

  /** `next` of the `Iterator` for `Status`: Encoded, Decoded, Cut, then
      nothing. */
  function Next(s: Status): (r: Option<Status>)
    ensures r.None? <==> s == Cut
    ensures r.Some? ==> Rank(r.value) == Rank(s) + 1
  {
    match s
    case Encoded => Some(Decoded)
    case Decoded => Some(Cut)
    case Cut => None
  }

  /** The working sub-directories of the configuration. */
  datatype DirKind = Root | EncodedDir | DecodedDir | CutDir | Archive

  /** `as_dir_kind`. */
  function AsDirKind(s: Status): DirKind {
    match s
    case Encoded => EncodedDir
    case Decoded => DecodedDir
    case Cut => CutDir
  }

  // ---------------------------------------------------------------------
  // Searching in strings

  predicate OccursAt(s: string, pat: string, j: nat) {
    j + |pat| <= |s| && s[j..j + |pat|] == pat
  }

  /** The first position from `from` on at which `pat` occurs. */
  function FindFrom(s: string, pat: string, from: nat): (r: Option<nat>)
    ensures r.Some? ==> from <= r.value && OccursAt(s, pat, r.value)
    ensures r.Some? ==> forall j :: from <= j < r.value ==> !OccursAt(s, pat, j)
    ensures r.None? ==> forall j :: from <= j ==> !OccursAt(s, pat, j)
    decreases |s| - from
  {
    if from + |pat| > |s| then None
    else if s[from..from + |pat|] == pat then Some(from)
    else FindFrom(s, pat, from + 1)
  }

  /** The first occurrence within `s` is the first one in every extension
      of `s`, and a first occurrence of an extension that lies within `s`
      is the first one of `s`. */
  lemma {:induction false} FindFromPrefix(s: string, x: string, pat: string, from: nat)
    requires || FindFrom(s, pat, from).Some?
             || (FindFrom(s + x, pat, from).Some? && FindFrom(s + x, pat, from).value + |pat| <= |s|)
    ensures FindFrom(s + x, pat, from) == FindFrom(s, pat, from)
    decreases |s| - from
  {
    if from + |pat| <= |s| {
      assert (s + x)[from..from + |pat|] == s[from..from + |pat|];
      if s[from..from + |pat|] != pat {
        FindFromPrefix(s, x, pat, from + 1);
      }
    }
  }

  /** The last position of `c` in `s`. */
  function LastIndex(s: string, c: char): (r: Option<nat>)
    ensures r.Some? ==> r.value < |s| && s[r.value] == c && c !in s[r.value + 1..]
    ensures r.None? ==> c !in s
  {
    if s == [] then None
    else if s[|s| - 1] == c then Some(|s| - 1)
    else
      var r := LastIndex(s[..|s| - 1], c);
      assert r.Some? ==> s[r.value + 1..] == s[..|s| - 1][r.value + 1..] + [s[|s| - 1]];
      assert s == s[..|s| - 1] + [s[|s| - 1]];
      r
  }

  lemma {:induction false} LastIndexOf(a: string, c: char, b: string)
    requires c !in b
    ensures LastIndex(a + [c] + b, c) == Some(|a|)
    decreases |b|
  {
    var s := a + [c] + b;
    if b == [] {
      assert s[|s| - 1] == c;
    } else {
      var b' := b[..|b| - 1];
      assert s[|s| - 1] == b[|b| - 1];
      assert s[|s| - 1] != c;
      assert c !in b' by { assert forall x :: x in b' ==> x in b; }
      assert s[..|s| - 1] == a + [c] + b';
      LastIndexOf(a, c, b');
    }
  }

  /** `s.contains(sub)` holds where `sub` occurs. */
  lemma {:induction false} ContainsAt(s: string, sub: string, j: nat)
    requires OccursAt(s, sub, j)
    ensures Contains(s, sub)
    decreases j
  {
    if j > 0 {
      assert s[1..][j - 1..j - 1 + |sub|] == s[j..j + |sub|];
      ContainsAt(s[1..], sub, j - 1);
    }
  }

  /** What a string contains, every longer string it starts contains. */
  lemma {:induction false} ContainsExtended(s: string, t: string, sub: string)
    requires Contains(s, sub) && |s| <= |t| && t[..|s|] == s
    ensures Contains(t, sub)
    decreases |s|
  {
    if !StartsWith(s, sub) {
      assert s[1..] == t[1..][..|s| - 1];
      ContainsExtended(s[1..], t[1..], sub);
    }
  }

  // ---------------------------------------------------------------------
  // The grammar of OTR file names

  const TVOON := "_TVOON_DE"

  /** `_\d{2}.\d{2}.\d{2}_\d{2}-\d{2}`: the date, whose separators may be
      any character but a line break, and the time. */
  predicate DateTime(t: string) {
    && |t| == 15 && t[0] == '_'
    && IsDigit(t[1]) && IsDigit(t[2]) && t[3] != '\n'
    && IsDigit(t[4]) && IsDigit(t[5]) && t[6] != '\n'
    && IsDigit(t[7]) && IsDigit(t[8]) && t[9] == '_'
    && IsDigit(t[10]) && IsDigit(t[11]) && t[12] == '-'
    && IsDigit(t[13]) && IsDigit(t[14])
  }

  /** The first capture group of both file-name patterns,
      `[^\.]+_\d{2}.\d{2}.\d{2}_\d{2}-\d{2}_[^_]+_\d+_TVOON_DE`: title,
      date and time, station and number.  Station and number hold no '_',
      so the parts are found from the right. */
  predicate KeyPrefix(p: string) {
    && EndsWith(p, TVOON)
    && var q := p[..|p| - |TVOON|];
    match LastIndex(q, '_')
    case None => false
    case Some(n) =>
      && n + 1 < |q| && AllDigits(q[n + 1..])
      && var q1 := q[..n];
      match LastIndex(q1, '_')
      case None => false
      case Some(m) =>
        && m + 1 < |q1|
        && var q2 := q1[..m];
        |q2| > 15 && DateTime(q2[|q2| - 15..]) && '.' !in q2[..|q2| - 15]
  }

  /** `.*cut\..+`, what the cut pattern demands after the prefix and its
      dot: no line break, and "cut." followed by at least one character. */
  predicate CutRest(rest: string) {
    |rest| > 0 && '\n' !in rest && Contains(rest[..|rest| - 1], "cut.")
  }

  predicate IsFormat(s: string) {
    s == "HQ" || s == "HD"
  }


  /** The groups `fmt`, `ext` and `encext` of the uncut pattern. */
  datatype Uncut = Uncut(fmt: string, ext: string, encoded: bool)

  /** The pieces of `s` between its dots, found from the right. */
  function Pieces(s: string): (r: seq<string>)
    ensures |r| >= 1
    decreases |s|
  {
    match LastIndex(s, '.')
    case None => [s]
    case Some(i) => Pieces(s[..i]) + [s[i + 1..]]
  }

  predicate NoEmptySegment(segs: seq<string>) {
    forall i :: 0 <= i < |segs| ==> segs[i] != ""
  }

  /** `[^\.]+(\.(HQ|HD))?(\.[^\.]+)(\.otrkey)?`, what the uncut pattern
      demands after the prefix and its dot, with the groups the regex
      engine settles on: a format is taken whenever the second piece is
      one, so "x.HQ.otrkey" is a decoded file with extension ".otrkey". */
  function UncutRest(rest: string): (r: Option<Uncut>)
    ensures r.Some? ==> NoEmptySegment(Pieces(rest)) && 2 <= |Pieces(rest)| <= 4
  {
    var segs := Pieces(rest);
    if !NoEmptySegment(segs) then None
    else if |segs| == 2 then Some(Uncut("", "." + segs[1], false))
    else if |segs| == 3 && IsFormat(segs[1]) then Some(Uncut("." + segs[1], "." + segs[2], false))
    else if |segs| == 3 && segs[2] == "otrkey" then Some(Uncut("", "." + segs[1], true))
    else if |segs| == 4 && IsFormat(segs[1]) && segs[3] == "otrkey" then Some(Uncut("." + segs[1], "." + segs[2], true))
    else None
  }

  /** The key of a cut file: the prefix, a dot unless the appendix starts
      with one, and the rest with "cut." and ".mpg" removed.  The dot
      after the prefix is not part of the appendix, so a leading "mpg."
      stays. */
  function CutKey(prefix: string, rest: string): string {
    var appendix := ReplaceAll(ReplaceAll(rest, "cut.", ""), ".mpg", "");
    prefix + (if StartsWith(appendix, ".") then "" else ".") + appendix
  }

  /** The key and the status read from a file name. */
  datatype Named = Named(key: string, status: Status)

  /** The prefix ends at the first "_TVOON_DE." of the name: no earlier
      occurrence fits the prefix grammar. */
  function PrefixEnd(name: string): Option<nat> {
    FindFrom(name, TVOON + ".", 0)
  }

  /** The patterns on a name split into the prefix and what follows its
      dot: the cut pattern is tried first and gives status Cut; then the
      uncut pattern gives Encoded with ".otrkey" and Decoded without. */
  function ClassifyParts(prefix: string, rest: string): Option<Named> {
    if !KeyPrefix(prefix) then None
    else if CutRest(rest) then Some(Named(CutKey(prefix, rest), Cut))
    else
      match UncutRest(rest)
      case None => None
      case Some(u) => Some(Named(prefix + u.fmt + u.ext, if u.encoded then Encoded else Decoded))
  }

  /** `TryFrom<&PathBuf> for Video` on the file name: the key and status,
      or nothing for a name that is not a video. */
  function Classify(name: string): Option<Named> {
    match PrefixEnd(name)
    case None => None
    case Some(i) => ClassifyParts(name[..i + |TVOON|], name[i + |TVOON| + 1..])
  }

  /** A name split at its prefix: the prefix, its dot, and the rest. */
  lemma NameSplit(name: string)
    requires PrefixEnd(name).Some?
    ensures var i := PrefixEnd(name).value;
      && name == name[..i + |TVOON|] + "." + name[i + |TVOON| + 1..]
      && Classify(name) == ClassifyParts(name[..i + |TVOON|], name[i + |TVOON| + 1..])
  {
    var i := PrefixEnd(name).value;
    assert name[i..i + |TVOON| + 1] == TVOON + ".";
    assert name[..i + |TVOON| + 1] == name[..i + |TVOON|] + ".";
  }

  /** A name whose rest is replaced keeps its prefix. */
  lemma ClassifyRenamed(prefix: string, rest: string, newRest: string)
    requires |prefix| >= |TVOON| && PrefixEnd(prefix + "." + rest) == Some(|prefix| - |TVOON|)
    ensures Classify(prefix + "." + newRest) == ClassifyParts(prefix, newRest)
  {
    PrefixKept(prefix, rest, newRest);
    ClassifyJoined(prefix + "." + newRest, prefix, newRest);
  }

  lemma PrefixKept(prefix: string, rest: string, newRest: string)
    requires |prefix| >= |TVOON| && PrefixEnd(prefix + "." + rest) == Some(|prefix| - |TVOON|)
    ensures PrefixEnd(prefix + "." + newRest) == Some(|prefix| - |TVOON|)
  {
    var head := prefix + ".";
    FindFromPrefix(head, rest, TVOON + ".", 0);
    FindFromPrefix(head, newRest, TVOON + ".", 0);
  }

  lemma ClassifyJoined(name: string, prefix: string, rest: string)
    requires |prefix| >= |TVOON| && name == prefix + "." + rest && PrefixEnd(name) == Some(|prefix| - |TVOON|)
    ensures Classify(name) == ClassifyParts(prefix, rest)
  {
    assert name[..|prefix|] == prefix;
    assert name[|prefix| + 1..] == rest;
  }

  /** The last piece is what follows the last dot; the others are the
      pieces of what precedes it. */
  lemma PiecesLast(s: string)
    requires |Pieces(s)| >= 2
    ensures LastIndex(s, '.').Some?
    ensures var j, segs := LastIndex(s, '.').value, Pieces(s);
      Pieces(s[..j]) == segs[..|segs| - 1] && s[j + 1..] == segs[|segs| - 1]
  {
    var j := LastIndex(s, '.').value;
    assert (Pieces(s[..j]) + [s[j + 1..]])[..|Pieces(s[..j])|] == Pieces(s[..j]);
  }

  /** The first piece is nonempty only when the string does not start
      with a dot. */
  lemma {:induction false} PiecesFirst(s: string)
    ensures Pieces(s)[0] != "" ==> |s| > 0 && s[0] != '.'
    decreases |s|
  {
    match LastIndex(s, '.')
    case None =>
    case Some(i) =>
      PiecesFirst(s[..i]);
      if i == 0 {
        assert Pieces(s[..i]) == [""];
      }
  }

  /** What an uncut rest ends with: ".otrkey" for an encoded file, and
      dropping it leaves a decoded rest with the same groups. */
  lemma UncutEncoded(rest: string)
    requires UncutRest(rest).Some? && UncutRest(rest).value.encoded
    ensures LastIndex(rest, '.').Some?
    ensures var j := LastIndex(rest, '.').value;
      && rest[j + 1..] == "otrkey"
      && UncutRest(rest[..j]) == Some(UncutRest(rest).value.(encoded := false))
  {
    PiecesLast(rest);
    var j := LastIndex(rest, '.').value;
    var segs := Pieces(rest);
    assert NoEmptySegment(segs[..|segs| - 1]);
  }

  lemma NotInSlice(s: string, c: char, a: nat, b: nat)
    requires c !in s && a <= b <= |s|
    ensures c !in s[a..b]
  {
    forall k | 0 <= k < b - a
      ensures s[a..b][k] != c
    {
      assert s[a..b][k] == s[a + k];
    }
  }

  /** A rest whose part before ".otrkey" is a cut rest is one itself. */
  lemma CutFront(rest: string, j: nat)
    requires j < |rest| && rest[j] == '.' && rest[j + 1..] == "otrkey"
    ensures CutRest(rest[..j]) ==> CutRest(rest)
  {
    var front := rest[..j];
    if CutRest(front) {
      ContainsExtended(front[..|front| - 1], rest[..|rest| - 1], "cut.");
      forall k | 0 <= k < |rest|
        ensures rest[k] != '\n'
      {
        if k < j {
          assert rest[k] == front[k];
        } else if k > j {
          assert rest[k] == rest[j + 1..][k - j - 1];
        }
      }
    }
  }

  /** A rest of the cut pattern: "cut." inserted before the last piece of
      a string without line breaks. */
  lemma CutRestOf(front: string, last: string)
    requires '\n' !in front && '\n' !in last && last != ""
    ensures CutRest(front + ".cut." + last)
  {
    var r := front + ".cut." + last;
    forall k | 0 <= k < |r|
      ensures r[k] != '\n'
    {
      if k < |front| {
        assert r[k] == front[k];
      } else if k >= |front| + 5 {
        assert r[k] == last[k - |front| - 5];
      }
    }
    var body := r[..|r| - 1];
    assert body[|front| + 1..|front| + 5] == "cut.";
    ContainsAt(body, "cut.", |front| + 1);
  }

  /** The last dot of a name comes from the part behind its prefix. */
  lemma {:induction false} LastIndexBehind(head: string, rest: string, j: nat)
    requires LastIndex(rest, '.') == Some(j)
    ensures LastIndex(head + rest, '.') == Some(|head| + j)
    decreases |rest|
  {
    var s := head + rest;
    if rest[|rest| - 1] != '.' {
      assert s[..|s| - 1] == head + rest[..|rest| - 1];
      LastIndexBehind(head, rest[..|rest| - 1], j);
    }
  }

  lemma SlicesBehind(head: string, rest: string, j: nat)
    requires j < |rest|
    ensures (head + rest)[..|head| + j] == head + rest[..j]
    ensures (head + rest)[|head| + j + 1..] == rest[j + 1..]
  {
  }

  /** The stem and the extension of a name are those of the part behind
      its prefix. */
  lemma StemBehind(prefix: string, rest: string)
    requires LastIndex(rest, '.').Some?
    ensures var j := LastIndex(rest, '.').value;
      && Stem(prefix + "." + rest) == prefix + "." + rest[..j]
      && Extension(prefix + "." + rest) == Some(rest[j + 1..])
  {
    var j := LastIndex(rest, '.').value;
    StemOfBehind(prefix + ".", rest, j);
    ExtensionBehind(prefix + ".", rest, j);
  }

  lemma StemOfBehind(head: string, rest: string, j: nat)
    requires LastIndex(rest, '.') == Some(j) && |head| > 0
    ensures Stem(head + rest) == head + rest[..j]
  {
    LastIndexBehind(head, rest, j);
    SlicesBehind(head, rest, j);
  }

  lemma ExtensionBehind(head: string, rest: string, j: nat)
    requires LastIndex(rest, '.') == Some(j) && |head| > 0
    ensures Extension(head + rest) == Some(rest[j + 1..])
  {
    LastIndexBehind(head, rest, j);
    var e := (head + rest)[|head| + j + 1..];
    assert Extension(head + rest) == Some(e);
    SlicesBehind(head, rest, j);
  }

  lemma CutInserted(prefix: string, front: string, last: string)
    ensures prefix + "." + front + "." + ("cut." + last) == prefix + "." + (front + ".cut." + last)
  {
  }

  lemma EndsBehind(head: string, rest: string, j: nat)
    requires j < |rest| && rest[j] == '.' && rest[j + 1..] == "otrkey"
    ensures EndsWith(head + rest, ".otrkey")
  {
    assert (head + rest)[|head + rest| - 7..] == rest[j..];
  }

  /** What every classified name is made of. */
  lemma ClassifyMeaning(name: string)
    requires Classify(name).Some?
    ensures PrefixEnd(name).Some? && KeyPrefix(name[..PrefixEnd(name).value + |TVOON|])
    ensures StartsWith(Classify(name).value.key, name[..PrefixEnd(name).value + |TVOON|])
    ensures Classify(name).value.status == Cut <==> CutRest(name[PrefixEnd(name).value + |TVOON| + 1..])
    ensures Classify(name).value.status == Encoded ==> EndsWith(name, ".otrkey")
    ensures Classify(name).value.status == Decoded ==> Extension(name).Some?
  {
    var i := PrefixEnd(name).value;
    var prefix, rest := name[..i + |TVOON|], name[i + |TVOON| + 1..];
    assert name == prefix + "." + rest && Classify(name) == ClassifyParts(prefix, rest) by {
      NameSplit(name);
    }
    PartsMeaning(prefix, rest);
  }

  lemma PartsMeaning(prefix: string, rest: string)
    requires ClassifyParts(prefix, rest).Some?
    ensures KeyPrefix(prefix) && StartsWith(ClassifyParts(prefix, rest).value.key, prefix)
    ensures ClassifyParts(prefix, rest).value.status == Cut <==> CutRest(rest)
    ensures ClassifyParts(prefix, rest).value.status == Encoded ==> EndsWith(prefix + "." + rest, ".otrkey")
    ensures ClassifyParts(prefix, rest).value.status == Decoded ==> Extension(prefix + "." + rest).Some?
  {
    var status := ClassifyParts(prefix, rest).value.status;
    if status == Encoded {
      UncutEncoded(rest);
      EndsBehind(prefix + ".", rest, LastIndex(rest, '.').value);
    } else if status == Decoded {
      PiecesLast(rest);
      StemBehind(prefix, rest);
    }
  }

  // ---------------------------------------------------------------------
  // Paths


  /** A path as its components; `absolute` for a path from the root. */
  datatype Path = Path(absolute: bool, parts: seq<string>)

  /** `file_name` of a path that has one. */
  function FileName(p: Path): string
    requires |p.parts| > 0
  {
    p.parts[|p.parts| - 1]
  }

  /** `parent` of a path with a file name. */
  function Parent(p: Path): Path
    requires |p.parts| > 0
  {
    Path(p.absolute, p.parts[..|p.parts| - 1])
  }

  /** `base.join(q)`: an absolute `q` replaces the base. */
  function JoinPath(base: Path, q: Path): Path {
    if q.absolute then q else Path(base.absolute, base.parts + q.parts)
  }

  function PathPush(base: Path, name: string): Path {
    Path(base.absolute, base.parts + [name])
  }

  /** `extension` of a file name: what follows its last dot, unless that
      dot starts the name. */
  function Extension(name: string): Option<string> {
    match LastIndex(name, '.')
    case None => None
    case Some(i) => if i == 0 then None else Some(name[i + 1..])
  }

  /** `file_stem`: the name without its extension. */
  function Stem(name: string): string {
    match LastIndex(name, '.')
    case None => name
    case Some(i) => if i == 0 then name else name[..i]
  }

  /** `with_extension` on a file name. */
  function WithExtension(name: string, ext: string): string {
    if ext == "" then Stem(name) else Stem(name) + "." + ext
  }

  /** Where `next_path` does not panic: the path has a grandparent, and a
      decoded file has an extension once the cut directory is known. */
  predicate NextPathDefined(p: Path, s: Status, dirs: DirKind -> Result<Path>) {
    && (s != Cut ==> |p.parts| >= 2)
    && (s == Decoded && dirs(CutDir).Ok? ==> Extension(FileName(p)).Some?)
  }

  /** `next_path`: an encoded file goes to the decoded directory without
      its last extension, a decoded file to the cut directory with "cut."
      before its extension, and a cut file stays where it is.  The
      directory is joined to the grandparent of the path. */
  function NextPathOf(p: Path, s: Status, dirs: DirKind -> Result<Path>): (r: Result<Path>)
    requires NextPathDefined(p, s, dirs)
    ensures s == Cut ==> r == Ok(p)
    ensures s != Cut ==> (r.Err? <==> dirs(AsDirKind(Next(s).value)).Err?)
  {
    match s
    case Cut => Ok(p)
    case Encoded =>
      (match dirs(DecodedDir)
       case Err(e) => Err(e)
       case Ok(d) => Ok(PathPush(JoinPath(Parent(Parent(p)), d), WithExtension(FileName(p), ""))))
    case Decoded =>
      match dirs(CutDir)
      case Err(e) => Err(e)
      case Ok(d) => Ok(PathPush(JoinPath(Parent(Parent(p)), d), WithExtension(FileName(p), "cut." + Extension(FileName(p)).value)))
  }


  /** Dropping ".otrkey" from an encoded rest gives a decoded rest with
      the same key. */
  lemma PartsDecoded(prefix: string, rest: string, k: string)
    requires ClassifyParts(prefix, rest) == Some(Named(k, Encoded))
    ensures LastIndex(rest, '.').Some? && rest[LastIndex(rest, '.').value + 1..] == "otrkey"
    ensures ClassifyParts(prefix, rest[..LastIndex(rest, '.').value]) == Some(Named(k, Decoded))
  {
    UncutEncoded(rest);
    CutFront(rest, LastIndex(rest, '.').value);
  }

  /** Inserting "cut." before the last piece of a decoded rest gives a
      cut rest. */
  lemma PartsCut(prefix: string, rest: string)
    requires ClassifyParts(prefix, rest).Some? && ClassifyParts(prefix, rest).value.status == Decoded
    requires '\n' !in rest
    ensures LastIndex(rest, '.').Some? && rest[LastIndex(rest, '.').value + 1..] != ""
    ensures var j := LastIndex(rest, '.').value;
      && ClassifyParts(prefix, rest[..j] + ".cut." + rest[j + 1..]).Some?
      && ClassifyParts(prefix, rest[..j] + ".cut." + rest[j + 1..]).value.status == Cut
  {
    DecodedParts(prefix, rest);
    PiecesLast(rest);
    var j := LastIndex(rest, '.').value;
    var segs := Pieces(rest);
    assert rest[j + 1..] == segs[|segs| - 1] != "";
    NotInSlice(rest, '\n', 0, j);
    NotInSlice(rest, '\n', j + 1, |rest|);
    CutRestOf(rest[..j], rest[j + 1..]);
    CutParts(prefix, rest[..j] + ".cut." + rest[j + 1..]);
  }

  lemma DecodedParts(prefix: string, rest: string)
    requires ClassifyParts(prefix, rest).Some? && ClassifyParts(prefix, rest).value.status == Decoded
    ensures KeyPrefix(prefix) && UncutRest(rest).Some?
    ensures NoEmptySegment(Pieces(rest)) && |Pieces(rest)| >= 2
  {
  }

  lemma CutParts(prefix: string, rest: string)
    requires KeyPrefix(prefix) && CutRest(rest)
    ensures ClassifyParts(prefix, rest) == Some(Named(CutKey(prefix, rest), Cut))
  {
  }

  /** Decoding drops ".otrkey": the new name is a decoded file with the
      same key. */
  lemma DecodedNameKeepsKey(name: string, k: string)
    requires Classify(name) == Some(Named(k, Encoded))
    ensures Stem(name) == name[..|name| - |".otrkey"|]
    ensures Classify(Stem(name)) == Some(Named(k, Decoded))
  {
    var i := PrefixEnd(name).value;
    var prefix, rest := name[..i + |TVOON|], name[i + |TVOON| + 1..];
    assert name == prefix + "." + rest && ClassifyParts(prefix, rest) == Some(Named(k, Encoded)) by {
      NameSplit(name);
    }
    DecodedStep(name, prefix, rest, k);
  }

  lemma DecodedStep(name: string, prefix: string, rest: string, k: string)
    requires name == prefix + "." + rest
    requires |prefix| >= |TVOON| && PrefixEnd(name) == Some(|prefix| - |TVOON|)
    requires ClassifyParts(prefix, rest) == Some(Named(k, Encoded))
    ensures Stem(name) == name[..|name| - |".otrkey"|]
    ensures Classify(Stem(name)) == Some(Named(k, Decoded))
  {
    PartsDecoded(prefix, rest, k);
    var j := LastIndex(rest, '.').value;
    StemBehind(prefix, rest);
    assert (prefix + "." + rest)[..|prefix| + 1 + j] == prefix + "." + rest[..j];
    ClassifyRenamed(prefix, rest, rest[..j]);
  }

  /** Cutting puts "cut." before the extension: the new name is a cut
      file (its key need not be the decoded file's key). */
  lemma CutNameIsCut(name: string)
    requires Classify(name).Some? && Classify(name).value.status == Decoded && '\n' !in name
    ensures Extension(name).Some?
    ensures Classify(WithExtension(name, "cut." + Extension(name).value)).Some?
    ensures Classify(WithExtension(name, "cut." + Extension(name).value)).value.status == Cut
  {
    var i := PrefixEnd(name).value;
    var prefix, rest := name[..i + |TVOON|], name[i + |TVOON| + 1..];
    assert name == prefix + "." + rest && |prefix| - |TVOON| == i by {
      NameSplit(name);
    }
    assert ClassifyParts(prefix, rest).Some? && ClassifyParts(prefix, rest).value.status == Decoded by {
      NameSplit(name);
    }
    assert '\n' !in rest by {
      NotInSlice(name, '\n', i + |TVOON| + 1, |name|);
      assert rest == name[i + |TVOON| + 1..|name|];
    }
    assert PrefixEnd(name) == Some(|prefix| - |TVOON|);
    CutStep(name, prefix, rest);
  }

  lemma CutStep(name: string, prefix: string, rest: string)
    requires name == prefix + "." + rest
    requires |prefix| >= |TVOON| && PrefixEnd(name) == Some(|prefix| - |TVOON|)
    requires ClassifyParts(prefix, rest).Some? && ClassifyParts(prefix, rest).value.status == Decoded
    requires '\n' !in rest
    ensures Extension(name).Some?
    ensures Classify(WithExtension(name, "cut." + Extension(name).value)).Some?
    ensures Classify(WithExtension(name, "cut." + Extension(name).value)).value.status == Cut
  {
    PartsCut(prefix, rest);
    var j := LastIndex(rest, '.').value;
    StemBehind(prefix, rest);
    var front, last := rest[..j], rest[j + 1..];
    CutInserted(prefix, front, last);
    ClassifyRenamed(prefix, rest, front + ".cut." + last);
  }

  // ---------------------------------------------------------------------
  // The order of videos

  /** `cmp` of `Video`: by key ascending, then by status descending. */
  function VideoCmp(a: Named, b: Named): Ordering {
    if LexLess(a.key, b.key) then Less
    else if LexLess(b.key, a.key) then Greater
    else if StatusCmp(a.status, b.status) == Greater then Less
    else if StatusCmp(a.status, b.status) == Less then Greater
    else Equal
  }

  /** Videos are equal exactly when key and status are (the `eq` of
      `Video`), smaller when the key is smaller or the key is the same and
      the status higher, and the comparison is antisymmetric. */
  lemma VideoCmpMeaning(a: Named, b: Named)
    ensures VideoCmp(a, b) == Equal <==> a == b
    ensures VideoCmp(a, b) == Less <==> LexLess(a.key, b.key) || (a.key == b.key && Rank(a.status) > Rank(b.status))
    ensures VideoCmp(a, b) == Less <==> VideoCmp(b, a) == Greater
  {
    LexTotal(a.key, b.key);
    LexIrreflexive(a.key);
    if LexLess(a.key, b.key) {
      LexAsymmetric(a.key, b.key);
    }
    if LexLess(b.key, a.key) {
      LexAsymmetric(b.key, a.key);
    }
    StatusCmpIsRankOrder(a.status, b.status);
    StatusCmpIsRankOrder(b.status, a.status);
  }
}
