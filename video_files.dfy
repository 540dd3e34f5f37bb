/** The video of `src/video/mod.rs`: a file downloaded from OTR with its
    path, key and status, and the steps that move it from encoded over
    decoded to cut.  Working directories (`cfg::working_sub_dir`), the file
    system's rename, decoding and cutting are parameters. */
module VideoFiles {
  import opened Wrappers
  import opened Text
  import opened VideoNames

  /** A path as text, its components separated by '/'. */
  function PathText(p: Path): string {
    (if p.absolute then "/" else "") + Join(p.parts, "/")
  }

  /** The error of `try_from` for a path that is not a video. */
  function NotVideo(p: Path): string {
    "\"" + PathText(p) + "\" is not a valid video file"
  }

  class Video {
    var p: Path
    var k: string
    var s: Status

    constructor (path: Path, key: string, status: Status)
      ensures p == path && k == key && s == status
    {
      p := path;
      k := key;
      s := status;
    }

    /** The file name of the path shows the status of the video. */
    predicate StatusShown()
      reads this
    {
      |p.parts| > 0 && Classify(FileName(p)).Some? && Classify(FileName(p)).value.status == s
    }

    /** The file name of the path shows both the key and the status. */
    predicate Valid()
      reads this
    {
      |p.parts| > 0 && Classify(FileName(p)) == Some(Named(k, s))
    }

    /** `TryFrom<&PathBuf> for Video`: a video exactly when the path has a
        file name that one of the two patterns accepts, with key and
        status read from that name. */
    static method TryFrom(path: Path) returns (r: Result<Video>)
      ensures r.Ok? <==> |path.parts| > 0 && Classify(FileName(path)).Some?
      ensures r.Ok? ==> fresh(r.value) && r.value.p == path && r.value.Valid()
      ensures r.Err? ==> r.error == NotVideo(path)
    {
      if |path.parts| == 0 {
        return Err(NotVideo(path));
      }
      var named := Classify(FileName(path));
      if named.None? {
        return Err(NotVideo(path));
      }
      var v := new Video(path, named.value.key, named.value.status);
      return Ok(v);
    }

    /** `is_processed`: the video has no further status. */
    function IsProcessed(): (b: bool)
      reads this
      ensures b <==> Next(s).None?
    {
      s == VideoNames.Cut
    }

    /** `change_to_next_status`: the path for the next status is computed
        from the current status before the status advances; a cut video
        stays as it is, and an error changes nothing. */
    method ChangeToNextStatus(dirs: DirKind -> Result<Path>) returns (r: Result<()>)
      requires NextPathDefined(p, s, dirs)
      modifies this
      ensures k == old(k)
      ensures old(s) == VideoNames.Cut ==> r == Ok(()) && p == old(p) && s == old(s)
      ensures old(s) != VideoNames.Cut && NextPathOf(old(p), old(s), dirs).Err? ==>
        r == Err(NextPathOf(old(p), old(s), dirs).error) && p == old(p) && s == old(s)
      ensures old(s) != VideoNames.Cut && NextPathOf(old(p), old(s), dirs).Ok? ==>
        r == Ok(()) && p == NextPathOf(old(p), old(s), dirs).value && s == Next(old(s)).value
    {
      var next := Next(s);
      if next.Some? {
        var np := NextPathOf(p, s, dirs);
        if np.Err? {
          return Err(np.error);
        }
        p := np.value;
        s := next.value;
      }
      return Ok(());
    }

    /** `move_to_working_dir`: nothing happens when the file already lies
        in the directory of its status; otherwise the path changes only
        when the rename succeeds, and an error of either step is
        returned. */
    method MoveToWorkingDir(dirs: DirKind -> Result<Path>, rename: (Path, Path) -> Result<()>) returns (r: Result<()>)
      requires |p.parts| > 0
      modifies this
      ensures k == old(k) && s == old(s)
      ensures dirs(AsDirKind(old(s))).Err? ==> r == Err(dirs(AsDirKind(old(s))).error) && p == old(p)
      ensures dirs(AsDirKind(old(s))).Ok? && Parent(old(p)) == dirs(AsDirKind(old(s))).value ==>
        r == Ok(()) && p == old(p)
      ensures dirs(AsDirKind(old(s))).Ok? && Parent(old(p)) != dirs(AsDirKind(old(s))).value ==>
        var target := PathPush(dirs(AsDirKind(old(s))).value, FileName(old(p)));
        && r == rename(old(p), target)
        && p == (if r.Ok? then target else old(p))
    {
      var sourceDir := Parent(p);
      var targetDir := dirs(AsDirKind(s));
      if targetDir.Err? {
        return Err(targetDir.error);
      }
      var targetPath := PathPush(targetDir.value, FileName(p));
      if sourceDir == targetDir.value {
        return Ok(());
      }
      r := rename(p, targetPath);
      if r.Err? {
        return;
      }
      p := targetPath;
    }

    /** `cut`: only a decoded video is cut (`cutter` says whether cutting
        into the next path succeeds).  A failed cut is only reported and
        leaves the video as it is; after a successful one the decoded file
        goes to the archive directory, whose absence is a panic, and the
        video takes its next status. */
    method Cut(dirs: DirKind -> Result<Path>, cutter: (Path, Path) -> bool) returns (r: Result<()>)
      requires NextPathDefined(p, s, dirs)
      requires s == Decoded && NextPathOf(p, s, dirs).Ok? && cutter(p, NextPathOf(p, s, dirs).value) ==>
        dirs(Archive).Ok?
      modifies this
      ensures k == old(k)
      ensures old(s) != Decoded ==> r == Ok(()) && p == old(p) && s == old(s)
      ensures old(s) == Decoded && NextPathOf(old(p), old(s), dirs).Err? ==>
        r == Err(NextPathOf(old(p), old(s), dirs).error) && p == old(p) && s == old(s)
      ensures old(s) == Decoded && NextPathOf(old(p), old(s), dirs).Ok? ==>
        var np := NextPathOf(old(p), old(s), dirs).value;
        && r == Ok(())
        && (cutter(old(p), np) ==> p == np && s == VideoNames.Cut)
        && (!cutter(old(p), np) ==> p == old(p) && s == old(s))
      ensures old(StatusShown()) && '\n' !in FileName(old(p)) ==> StatusShown()
    {
      if s != Decoded {
        return Ok(());
      }
      var np := NextPathOf(p, s, dirs);
      if np.Err? {
        return Err(np.error);
      }
      if !cutter(p, np.value) {
        return Ok(());
      }
      // the decoded file is renamed into the archive directory, which
      // must exist; the outcome is only reported and the path is left as
      // it is
      assert dirs(Archive).Ok?;
      if StatusShown() && '\n' !in FileName(p) {
        NextPathCut(p, dirs);
      }
      r := ChangeToNextStatus(dirs);
    }

    /** `decode`: only an encoded video is decoded (`decoder` writes the
        decoded file to the next path); an error of the next path or of
        decoding is returned and leaves the video as it is. */
    method Decode(dirs: DirKind -> Result<Path>, decoder: (Path, Path) -> Result<()>) returns (r: Result<()>)
      requires NextPathDefined(p, s, dirs)
      modifies this
      ensures k == old(k)
      ensures old(s) != Encoded ==> r == Ok(()) && p == old(p) && s == old(s)
      ensures old(s) == Encoded && NextPathOf(old(p), old(s), dirs).Err? ==>
        r == Err(NextPathOf(old(p), old(s), dirs).error) && p == old(p) && s == old(s)
      ensures old(s) == Encoded && NextPathOf(old(p), old(s), dirs).Ok? ==>
        var np := NextPathOf(old(p), old(s), dirs).value;
        && (r.Ok? <==> decoder(old(p), np).Ok?)
        && (r.Err? ==> r.error == decoder(old(p), np).error)
        && (r.Ok? ==> p == np && s == Decoded)
        && (r.Err? ==> p == old(p) && s == old(s))
      ensures old(Valid()) ==> Valid()
    {
      if s != Encoded {
        return Ok(());
      }
      var np := NextPathOf(p, s, dirs);
      if np.Err? {
        return Err(np.error);
      }
      r := decoder(p, np.value);
      if r.Err? {
        return;
      }
      if Valid() {
        NextPathDecoded(p, k, dirs);
      }
      r := ChangeToNextStatus(dirs);
    }
  }

  /** Decoding keeps a video valid: the decoded file's name shows the same
      key and the new status. */
  lemma NextPathDecoded(p: Path, k: string, dirs: DirKind -> Result<Path>)
    requires |p.parts| >= 2 && Classify(FileName(p)) == Some(Named(k, Encoded))
    requires NextPathOf(p, Encoded, dirs).Ok?
    ensures |NextPathOf(p, Encoded, dirs).value.parts| > 0
    ensures Classify(FileName(NextPathOf(p, Encoded, dirs).value)) == Some(Named(k, Decoded))
  {
    DecodedNameKeepsKey(FileName(p), k);
  }

  /** Cutting keeps the name in step with the status: the cut file's name
      is one of a cut video. */
  lemma NextPathCut(p: Path, dirs: DirKind -> Result<Path>)
    requires |p.parts| >= 2 && Classify(FileName(p)).Some? && Classify(FileName(p)).value.status == Decoded
    requires '\n' !in FileName(p)
    requires NextPathOf(p, Decoded, dirs).Ok?
    ensures NextPathDefined(p, Decoded, dirs)
    ensures |NextPathOf(p, Decoded, dirs).value.parts| > 0
    ensures Classify(FileName(NextPathOf(p, Decoded, dirs).value)).Some?
    ensures Classify(FileName(NextPathOf(p, Decoded, dirs).value)).value.status == Cut
  {
    CutNameIsCut(FileName(p));
  }

  /** Every video with a path at least two levels deep can take its next
      path. */
  lemma NamedNextPathDefined(p: Path, s: Status, dirs: DirKind -> Result<Path>)
    requires |p.parts| >= 2 && Classify(FileName(p)).Some? && Classify(FileName(p)).value.status == s
    ensures NextPathDefined(p, s, dirs)
  {
    ClassifyMeaning(FileName(p));
  }
}
