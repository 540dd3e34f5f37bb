/** What the older video type of `src/video.rs` does differently from
    `src/video/mod.rs`: moving a video to its working directory never
    reports an error.  Status, ordering, names and next paths are shared
    (module VideoNames), and so is the class (module VideoFiles). */
module OldVideo {
  import opened Wrappers
  import opened VideoNames
  import opened VideoFiles

  /** `move_to_working_dir` of `src/video.rs`: the result is always
      `None`.  When the directory of the status is unknown or the rename
      fails nothing changes; when the file already lies in that directory
      nothing changes either; otherwise the path becomes the one in that
      directory. */
  method MoveToWorkingDir(v: Video, dirs: DirKind -> Result<Path>, rename: (Path, Path) -> Result<()>)
    returns (r: Option<string>)
    requires |v.p.parts| > 0
    modifies v
    ensures r == None
    ensures v.k == old(v.k) && v.s == old(v.s)
    ensures dirs(AsDirKind(old(v.s))).Err? ==> v.p == old(v.p)
    ensures dirs(AsDirKind(old(v.s))).Ok? ==>
      var target := PathPush(dirs(AsDirKind(old(v.s))).value, FileName(old(v.p)));
      v.p == if Parent(old(v.p)) != dirs(AsDirKind(old(v.s))).value && rename(old(v.p), target).Ok?
             then target else old(v.p)
  {
    var sourceDir := Parent(v.p);
    var targetDir := dirs(AsDirKind(v.s));
    if targetDir.Err? {
      return None;
    }
    var targetPath := PathPush(targetDir.value, FileName(v.p));
    if sourceDir == targetDir.value {
      return None;
    }
    var renamed := rename(v.p, targetPath);
    if renamed.Err? {
      return None;
    }
    v.p := targetPath;
    return None;
  }
}
