/** `cut` of `src/cut.rs`: a decoded video is cut into a new video with the
    cut step of module PointCutting; any other video comes back as it is.
    The video is a value here (the source clones it); making the cut video
    from the decoded one (`Video::new_cut_from_decoded`) is a parameter. */
module CutCommand {
  import opened Wrappers
  import opened VideoNames
  import PointCutting

  /** A `Video` of `src/video.rs` as a value. */
  datatype Clip = Clip(path: Path, key: string, status: Status)

  /** `Result<Video, CutError>`. */
  datatype CutResult = Done(video: Clip) | Failed(error: PointCutting.CutError)

  /** The cut succeeds exactly when the cut step succeeds for the file name
      of the decoded video; its result is then the video made from the
      decoded one, and otherwise the error of the cut step.  Only a decoded
      video is cut.  Making the cut video (`unwrap`) and finding the
      archive directory after a successful cut (`unwrap`) must not fail;
      moving the decoded file to the archive is only reported, so its
      outcome does not matter. */
  method CutVideo(dec: Clip, cutFromDecoded: Clip -> Option<Clip>, archiveDir: Result<Path>, env: PointCutting.Env)
    returns (r: CutResult)
    requires |dec.path.parts| > 0
    requires dec.status == Decoded ==> cutFromDecoded(dec).Some?
    requires dec.status == Decoded && PointCutting.CutOutcome(FileName(dec.path), env).Success? ==> archiveDir.Ok?
    ensures dec.status != Decoded ==> r == Done(dec)
    ensures dec.status == Decoded ==>
      && (r.Done? <==> PointCutting.CutOutcome(FileName(dec.path), env).Success?)
      && (r.Done? ==> r.video == cutFromDecoded(dec).value)
      && (r.Failed? ==> r.error == PointCutting.CutOutcome(FileName(dec.path), env).error)
  {
    if dec.status != Decoded {
      return Done(dec);
    }
    var cutVideo := cutFromDecoded(dec).value;
    var outcome, _ := PointCutting.Cut(FileName(dec.path), env);
    if outcome.Failure? {
      return Failed(outcome.error);
    }
    // the decoded file goes to the archive directory, which must be
    // known; a failed rename is only reported
    assert archiveDir.Ok?;
    return Done(cutVideo);
  }
}
