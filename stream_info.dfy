/** Stream metadata of a video as the frame-accurate cutter sees it:
    the presentation time of every frame of the main stream, the numbers of
    its key frames, and the lookups between times, frames and key frames. */
module StreamInfo {
  import opened Wrappers
  import opened Text
  import opened Numbers
  import opened Search

  // ---------------------------------------------------------------------
  // Stream types

  datatype StreamType = Audio | Video | Unknown

  /** `StreamType::from_str`: it never fails. */
  function StreamTypeFromStr(s: string): (r: Result<StreamType>)
    ensures r.Ok?
    ensures r.value == Audio <==> s == "audio"
    ensures r.value == Video <==> s == "video"
  {
    Ok(if s == "audio" then Audio else if s == "video" then Video else Unknown)
  }

  /** `Display for StreamType`. */
  function StreamTypeName(t: StreamType): string {
    match t
    case Audio => "audio"
    case Video => "video"
    case Unknown => "unknown"
  }

  lemma StreamTypeRoundTrip(t: StreamType)
    ensures StreamTypeFromStr(StreamTypeName(t)) == Ok(t)
  {
  }

  // ---------------------------------------------------------------------
  // Metadata

  datatype Stream = Stream(index: nat, codec: Option<string>)

  /** `times[i]` is the presentation time of frame i in microseconds;
      `keyFrames` lists the key-frame numbers. */
  datatype Metadata = Metadata(times: seq<nat>, keyFrames: seq<nat>, streams: seq<Stream>)

  /** `has_frames`: pure audio files may have no frames. */
  predicate HasFrames(m: Metadata) {
    |m.times| > 0
  }

  /** `Display for Time`: seconds with six decimals. */
  function TimeText(t: nat): string {
    NatToString(t / MICROS) + "." + Padded(t % MICROS, 6)
  }

  /** `frame_to_time`. */
  function FrameToTime(m: Metadata, frame: nat): (r: Result<nat>)
    ensures r.Ok? <==> frame < |m.times|
    ensures r.Ok? ==> r.value in m.times && r.value == m.times[frame]
  {
    if frame >= |m.times| then Err("Video does not contain a frame with number " + NatToString(frame))
    else Ok(m.times[frame])
  }

  /** `time_to_frame`: the frame shown at `time`, or a frame close by. */
  function TimeToFrame(m: Metadata, time: nat): (r: Result<nat>)
    ensures r.Ok? <==> HasFrames(m)
    ensures r.Ok? ==> r.value < |m.times|
    ensures r.Ok? && Sorted(m.times) && time in m.times ==> m.times[r.value] == time
    ensures r.Ok? && Sorted(m.times) && time !in m.times && time > m.times[|m.times| - 1] ==>
      r.value == |m.times| - 1
    ensures r.Ok? && Sorted(m.times) && time !in m.times && time < m.times[|m.times| - 1] ==>
      m.times[r.value] > time && (r.value == 0 || m.times[r.value - 1] < time)
  {
    if |m.times| == 0 then Err("Cannot determine frame number of time " + TimeText(time) + " since there are no frames")
    else
      var s := BinarySearch(m.times, time);
      if s.Found? then Ok(s.index)
      else if s.insertAt == |m.times| then Ok(s.insertAt - 1)
      else
        assert Sorted(m.times) ==> m.times[s.insertAt] > time;
        Ok(s.insertAt)
  }

  /** With strictly increasing times, the frame of a frame's own time is
      that frame again. */
  lemma FrameTimeRoundTrip(m: Metadata, frame: nat)
    requires StrictlyIncreasing(m.times) && frame < |m.times|
    ensures TimeToFrame(m, FrameToTime(m, frame).value) == Ok(frame)
  {
    var t := m.times[frame];
    var r := TimeToFrame(m, t);
    assert t in m.times;
    assert m.times[r.value] == t;
    assert r.value == frame;
  }

  /** `key_frame_less_or_equal_until_limit`: `frame` itself when it is a
      key frame, else the nearest key frame below it if that is not below
      `limit`.  The source panics unless `limit <= frame`. */
  function KeyFrameLessOrEqual(m: Metadata, frame: nat, limit: nat): (r: Option<nat>)
    requires limit <= frame
    ensures r.Some? ==> r.value in m.keyFrames && limit <= r.value
    ensures Sorted(m.keyFrames) && r.Some? ==> r.value <= frame
    ensures Sorted(m.keyFrames) && frame in m.keyFrames ==> r == Some(frame)
    ensures Sorted(m.keyFrames) && r.Some? ==>
      forall j :: 0 <= j < |m.keyFrames| && m.keyFrames[j] <= frame ==> m.keyFrames[j] <= r.value
    ensures Sorted(m.keyFrames) && r.None? ==>
      forall j :: 0 <= j < |m.keyFrames| ==> !(limit <= m.keyFrames[j] <= frame)
  {
    var kf := m.keyFrames;
    match BinarySearch(kf, frame)
    case Found(_) => Some(frame)
    case NotFound(i) =>
      if i > 0 && i - 1 < |kf| && kf[i - 1] >= limit then Some(kf[i - 1]) else None
  }

  /** `key_frame_greater_or_equal_until_limit`: `frame` itself when it is a
      key frame.  Otherwise, with `i` the insertion point of `frame`, it
      looks at `key_frames[i + 1]`: the SECOND key frame above `frame`,
      not the first one.  The source panics unless `frame <= limit`. */
  function KeyFrameGreaterOrEqual(m: Metadata, frame: nat, limit: nat): (r: Option<nat>)
    requires frame <= limit
    ensures r.Some? ==> r.value in m.keyFrames && r.value <= limit
    ensures Sorted(m.keyFrames) && r.Some? ==> frame <= r.value
    ensures Sorted(m.keyFrames) && frame in m.keyFrames ==> r == Some(frame)
    ensures Sorted(m.keyFrames) && frame !in m.keyFrames && r.Some? ==>
      exists i :: 0 <= i < |m.keyFrames| - 1 && m.keyFrames[i] > frame && m.keyFrames[i + 1] == r.value
        && (i == 0 || m.keyFrames[i - 1] < frame)
    ensures Sorted(m.keyFrames) && frame !in m.keyFrames && r.None? ==>
      forall i :: 0 <= i < |m.keyFrames| - 1 && m.keyFrames[i] > frame ==> m.keyFrames[i + 1] > limit
  {
    var kf := m.keyFrames;
    match BinarySearch(kf, frame)
    case Found(_) => Some(frame)
    case NotFound(i) =>
      if i + 1 < |kf| && kf[i + 1] <= limit then
        assert Sorted(kf) ==> kf[i] > frame && (i == 0 || kf[i - 1] < frame);
        Some(kf[i + 1])
      else None
  }

  /** Between a frame that is not a key frame and the key frame returned
      for it lies another key frame, which the lookup skips. */
  lemma GreaterOrEqualSkipsFirst()
    ensures var m := Metadata([], [0, 10, 20], []);
      KeyFrameGreaterOrEqual(m, 5, 100) == Some(20) && 10 in m.keyFrames
  {
    var m := Metadata([], [0, 10, 20], []);
    var kf := m.keyFrames;
    assert SearchIn(kf, 5, 1, 1) == NotFound(1);
    assert kf[0] == 0 && kf[1] == 10;
    assert SearchIn(kf, 5, 0, 1) == NotFound(1);
    assert SearchIn(kf, 5, 0, 3) == NotFound(1);
  }

  // ---------------------------------------------------------------------
  // Construction (`Metadata::new`)

  /** A stream as ffprobe reports it. */
  datatype ProbeStream = ProbeStream(index: int, codecType: Option<string>, codecName: Option<string>)

  /** A frame of the main stream as the ffms2 index reports it; its time is
      already converted to microseconds. */
  datatype FrameInfo = FrameInfo(time: nat, keyFrame: bool)

  predicate IsOfType(s: ProbeStream, t: StreamType) {
    s.codecType.Some? && StreamTypeFromStr(s.codecType.value).value == t
  }

  predicate IsAudioOrVideo(s: ProbeStream) {
    IsOfType(s, Audio) || IsOfType(s, Video)
  }

  /** The stream checks: an index that fits `usize`, and a codec for every
      audio and video stream. */
  predicate StreamAcceptable(s: ProbeStream) {
    0 <= s.index <= U64_MAX && (IsAudioOrVideo(s) ==> s.codecName.Some?)
  }

  /** Position of the first stream of type `t`. */
  function FirstOf(ps: seq<ProbeStream>, t: StreamType): (r: Option<nat>)
    ensures r.Some? ==> r.value < |ps| && IsOfType(ps[r.value], t)
  {
    if ps == [] then None
    else match FirstOf(ps[..|ps| - 1], t)
      case Some(i) => Some(i)
      case None => if IsOfType(ps[|ps| - 1], t) then Some(|ps| - 1) else None
  }

  /** No stream before the one `FirstOf` finds is of the type, and when it
      finds none, no stream at all is. */
  lemma {:induction false} FirstOfIsFirst(ps: seq<ProbeStream>, t: StreamType)
    ensures FirstOf(ps, t).Some? ==> forall j :: 0 <= j < FirstOf(ps, t).value ==> !IsOfType(ps[j], t)
    ensures FirstOf(ps, t).None? ==> forall j :: 0 <= j < |ps| ==> !IsOfType(ps[j], t)
  {
    if ps != [] {
      var init := ps[..|ps| - 1];
      FirstOfIsFirst(init, t);
      assert forall j :: 0 <= j < |init| ==> init[j] == ps[j];
    }
  }

  /** The main stream: the first video stream, else the first audio stream. */
  function MainStream(ps: seq<ProbeStream>): (r: Option<nat>)
    ensures r.Some? <==> exists j :: 0 <= j < |ps| && IsAudioOrVideo(ps[j])
    ensures r.Some? ==> r.value < |ps| && IsAudioOrVideo(ps[r.value])
  {
    FirstOfIsFirst(ps, Video);
    FirstOfIsFirst(ps, Audio);
    match FirstOf(ps, Video)
    case Some(i) => Some(i)
    case None => FirstOf(ps, Audio)
  }

  /** Frame numbers of the key frames among `fs`, in ascending order. */
  function KeyFramesOf(fs: seq<FrameInfo>): (r: seq<nat>)
    ensures StrictlyIncreasing(r)
    ensures forall j :: 0 <= j < |r| ==> r[j] < |fs| && fs[r[j]].keyFrame
    ensures forall i :: 0 <= i < |fs| && fs[i].keyFrame ==> i in r
  {
    if fs == [] then []
    else
      var init := KeyFramesOf(fs[..|fs| - 1]);
      init + (if fs[|fs| - 1].keyFrame then [|fs| - 1] else [])
  }

  function TimesOf(fs: seq<FrameInfo>): (r: seq<nat>)
    ensures |r| == |fs| && forall i :: 0 <= i < |fs| ==> r[i] == fs[i].time
  {
    seq(|fs|, i requires 0 <= i < |fs| => fs[i].time)
  }

  /** The streams `Metadata::new` accepts: at least one stream, every
      stream passes the checks, and the FIRST stream is an audio or video
      stream, because the main stream is determined, and an error raised if
      there is none, inside the loop after every stream. */
  predicate ProbeAcceptable(ps: seq<ProbeStream>) {
    |ps| >= 1 && IsAudioOrVideo(ps[0]) && forall j :: 0 <= j < |ps| ==> StreamAcceptable(ps[j])
  }

  /** The first stream of a type among one more stream. */
  lemma FirstOfSnoc(ps: seq<ProbeStream>, i: nat, t: StreamType)
    requires i < |ps|
    ensures FirstOf(ps[..i + 1], t) == if FirstOf(ps[..i], t).Some? then FirstOf(ps[..i], t) else if IsOfType(ps[i], t) then Some(i) else None
  {
    assert ps[..i + 1][..i] == ps[..i];
  }

  /** No audio or video stream among the first streams: the first stream
      is neither. */
  lemma NoMainStream(ps: seq<ProbeStream>, i: nat)
    requires i < |ps| && FirstOf(ps[..i + 1], Video).None? && FirstOf(ps[..i + 1], Audio).None?
    ensures !IsAudioOrVideo(ps[0])
  {
    FirstOfIsFirst(ps[..i + 1], Video);
    FirstOfIsFirst(ps[..i + 1], Audio);
    assert ps[..i + 1][0] == ps[0];
  }

  /** The checked streams grow by one. */
  lemma AcceptableSnoc(ps: seq<ProbeStream>, i: nat)
    requires i < |ps| && StreamAcceptable(ps[i])
    requires forall j {:trigger StreamAcceptable(ps[j])} :: 0 <= j < i ==> StreamAcceptable(ps[j])
    ensures forall j {:trigger StreamAcceptable(ps[j])} :: 0 <= j < i + 1 ==> StreamAcceptable(ps[j])
  {
  }

  /** The recorded streams grow by one. */
  lemma RecordedSnoc(ps: seq<ProbeStream>, i: nat, streams: seq<Stream>)
    requires i < |ps| && 0 <= ps[i].index && |streams| == i
    requires forall j :: 0 <= j < i ==> 0 <= ps[j].index && streams[j] == Stream(ps[j].index as nat, ps[j].codecName)
    ensures var grown := streams + [Stream(ps[i].index as nat, ps[i].codecName)];
      forall j :: 0 <= j < i + 1 ==> 0 <= ps[j].index && grown[j] == Stream(ps[j].index as nat, ps[j].codecName)
  {
  }

  function NoCodec(kind: string, index: nat): string {
    kind + " stream " + NatToString(index) + " has no codec assigned"
  }

  /** One round of the stream loop of `Metadata::new`: the checks of
      stream `i`, the first audio and video streams seen so far, and the
      main stream determined from them. */
  method CheckStream(ps: seq<ProbeStream>, i: nat, firstAudio: Option<nat>, firstVideo: Option<nat>)
    returns (r: Result<(Option<nat>, Option<nat>, nat)>)
    requires i < |ps| && firstAudio == FirstOf(ps[..i], Audio) && firstVideo == FirstOf(ps[..i], Video)
    requires i > 0 ==> IsAudioOrVideo(ps[0])
    ensures r.Err? ==> !ProbeAcceptable(ps)
    ensures r.Ok? ==> StreamAcceptable(ps[i]) && IsAudioOrVideo(ps[0])
    ensures r.Ok? ==> r.value.0 == FirstOf(ps[..i + 1], Audio) && r.value.1 == FirstOf(ps[..i + 1], Video)
    ensures r.Ok? ==> MainStream(ps[..i + 1]) == Some(r.value.2)
  {
    FirstOfSnoc(ps, i, Audio);
    FirstOfSnoc(ps, i, Video);
    var s := ps[i];
    var audio, video := firstAudio, firstVideo;
    if !(0 <= s.index <= U64_MAX) {
      return Err("out of range integral type conversion attempted");
    }
    if IsOfType(s, Audio) {
      if s.codecName.None? {
        return Err(NoCodec("Audio", s.index as nat));
      }
      if audio.None? {
        audio := Some(i);
      }
    }
    if IsOfType(s, Video) {
      if s.codecName.None? {
        return Err(NoCodec("Video", s.index as nat));
      }
      if video.None? {
        video := Some(i);
      }
    }
    if video.Some? {
      return Ok((audio, video, video.value));
    } else if audio.Some? {
      return Ok((audio, video, audio.value));
    }
    NoMainStream(ps, i);
    return Err("Cannot determine \"main stream\", since video neither has a video nor an audio stream");
  }

  /** The stream loop of `Metadata::new`: every stream passes its checks
      and is recorded, with the first audio and video streams and the main
      stream determined after the last one. */
  method ScanStreams(ps: seq<ProbeStream>) returns (r: Result<(seq<Stream>, Option<nat>)>)
    ensures r.Err? ==> !ProbeAcceptable(ps)
    ensures r.Ok? ==> |r.value.0| == |ps|
    ensures r.Ok? ==> forall j :: 0 <= j < |ps| ==>
      StreamAcceptable(ps[j]) && r.value.0[j] == Stream(ps[j].index as nat, ps[j].codecName)
    ensures r.Ok? && |ps| > 0 ==> IsAudioOrVideo(ps[0]) && r.value.1 == MainStream(ps)
    ensures r.Ok? && |ps| == 0 ==> r.value.1.None?
  {
    var streams: seq<Stream> := [];
    var firstAudio: Option<nat> := None;
    var firstVideo: Option<nat> := None;
    var main: Option<nat> := None;
    for i := 0 to |ps|
      invariant |streams| == i
      invariant forall j {:trigger StreamAcceptable(ps[j])} :: 0 <= j < i ==> StreamAcceptable(ps[j])
      invariant forall j :: 0 <= j < i ==> 0 <= ps[j].index && streams[j] == Stream(ps[j].index as nat, ps[j].codecName)
      invariant i > 0 ==> IsAudioOrVideo(ps[0])
      invariant firstAudio == FirstOf(ps[..i], Audio)
      invariant firstVideo == FirstOf(ps[..i], Video)
      invariant main == (if i == 0 then None else MainStream(ps[..i]))
    {
      var checked := CheckStream(ps, i, firstAudio, firstVideo);
      if checked.Err? {
        return Err(checked.error);
      }
      AcceptableSnoc(ps, i);
      RecordedSnoc(ps, i, streams);
      firstAudio, firstVideo, main := checked.value.0, checked.value.1, Some(checked.value.2);
      streams := streams + [Stream(ps[i].index as nat, ps[i].codecName)];
    }
    assert ps[..|ps|] == ps;
    r := Ok((streams, main));
  }

  /** The streams of `Metadata::new`: all of them, and the main stream,
      which is missing only when there are no streams at all. */
  method CheckStreams(ps: seq<ProbeStream>) returns (r: Result<(seq<Stream>, nat)>)
    ensures r.Ok? <==> ProbeAcceptable(ps)
    ensures r.Ok? ==>
      var (streams, main) := r.value;
      && MainStream(ps) == Some(main)
      && |streams| == |ps|
      && (forall j :: 0 <= j < |ps| ==> streams[j] == Stream(ps[j].index as nat, ps[j].codecName))
  {
    var scanned := ScanStreams(ps);
    if scanned.Err? {
      return Err(scanned.error);
    }
    var (streams, main) := scanned.value;
    if main.None? {
      return Err("Could not determine \"main stream\", since video might have no streams at all");
    }
    r := Ok((streams, main.value));
  }

  /** The index loop of `Metadata::new`: the time of every frame and the
      numbers of the key frames. */
  method IndexFrames(frames: seq<FrameInfo>) returns (times: seq<nat>, keyFrames: seq<nat>)
    ensures times == TimesOf(frames)
    ensures keyFrames == KeyFramesOf(frames)
  {
    times := [];
    keyFrames := [];
    for i := 0 to |frames|
      invariant times == TimesOf(frames[..i])
      invariant keyFrames == KeyFramesOf(frames[..i])
    {
      assert frames[..i + 1][..i] == frames[..i];
      times := times + [frames[i].time];
      if frames[i].keyFrame {
        keyFrames := keyFrames + [i];
      }
    }
    assert frames[..|frames|] == frames;
  }

  /** `Metadata::new` of the video displayed as `video`.  `indexer` and
      `indexed` say whether ffms2 could create an indexer and index the
      video, `probe` is ffprobe's answer (its error in debug form) and
      `track(n)` the frames of stream n. */
  method NewMetadata(video: string, indexer: bool, indexed: bool, probe: Result<seq<ProbeStream>>,
                     track: nat -> seq<FrameInfo>)
    returns (r: Result<Metadata>)
    ensures r.Ok? <==> indexer && indexed && probe.Ok? && ProbeAcceptable(probe.value)
    ensures !indexer ==> r == Err("Could not create FFMS2 indexer for video " + video)
    ensures indexer && !indexed ==> r == Err("Could not create FFMS2 index for video " + video)
    ensures indexer && indexed && probe.Err? ==>
              r == Err("Could not retrieve stream metadata with ffprobe: " + probe.error)
    ensures r.Ok? ==>
      var ps := probe.value;
      var frames := track(MainStream(ps).value);
      && |r.value.streams| == |ps|
      && (forall j :: 0 <= j < |ps| ==> r.value.streams[j] == Stream(ps[j].index as nat, ps[j].codecName))
      && r.value.times == TimesOf(frames)
      && r.value.keyFrames == KeyFramesOf(frames)
  {
    if !indexer {
      return Err("Could not create FFMS2 indexer for video " + video);
    }
    if !indexed {
      return Err("Could not create FFMS2 index for video " + video);
    }
    if probe.Err? {
      return Err("Could not retrieve stream metadata with ffprobe: " + probe.error);
    }
    var checked := CheckStreams(probe.value);
    if checked.Err? {
      return Err(checked.error);
    }
    var (streams, main) := checked.value;
    var times, keyFrames := IndexFrames(track(main));
    r := Ok(Metadata(times, keyFrames, streams));
  }
}
