/** The metadata of `otr-utils/src/info.rs`: the tracks of a video as the
    FFMS2 index and ffprobe describe them, and an index from timestamps to
    frame numbers built over the leading track.  Indexing and probing are
    inputs; timestamps are the whole milliseconds the source computes from
    PTS and time base. */
module TrackInfo {
  import opened Wrappers
  import opened Text
  import opened Sorting
  import opened Search
  import opened FirstMatch

  /** `TrackKind`. */
  datatype TrackKind = AudioTrack | VideoTrack | UnknownTrack

  /** `Display for TrackKind`. */
  function KindText(k: TrackKind): string {
    match k
    case AudioTrack => "audio"
    case VideoTrack => "video"
    case UnknownTrack => "unknown"
  }

  /** `Codec`. */
  datatype Codec = AC3 | MP3 | H264 | MPEG4 | UnknownCodec

  /** `Display for Codec`. */
  function CodecText(c: Codec): string {
    match c
    case AC3 => "AC3"
    case MP3 => "MP3"
    case H264 => "H.264"
    case MPEG4 => "MPEG-4"
    case UnknownCodec => "unknown"
  }

  /** `Track::kind` on ffprobe's `codec_type`. */
  function KindOf(codecType: string): (k: TrackKind)
    ensures k == AudioTrack <==> codecType == "audio"
    ensures k == VideoTrack <==> codecType == "video"
    ensures k == UnknownTrack <==> codecType != "audio" && codecType != "video"
  {
    match codecType
    case "audio" => AudioTrack
    case "video" => VideoTrack
    case _ => UnknownTrack
  }

  /** `Track::codec` on ffprobe's `codec_name`. */
  function CodecOf(codecName: string): (c: Codec)
    ensures c == AC3 <==> codecName == "ac3"
    ensures c == MP3 <==> codecName == "mp3"
    ensures c == H264 <==> codecName == "h264"
    ensures c == MPEG4 <==> codecName == "mpeg4"
    ensures c == UnknownCodec <==> codecName !in ["ac3", "mp3", "h264", "mpeg4"]
  {
    match codecName
    case "ac3" => AC3
    case "mp3" => MP3
    case "h264" => H264
    case "mpeg4" => MPEG4
    case _ => UnknownCodec
  }

  /** The kind of a track read back from its display text is the kind
      itself. */
  lemma KindTextRoundTrip(k: TrackKind)
    ensures KindOf(KindText(k)) == k
  {
  }

  /** The display texts of codecs are not the names ffprobe reports: read
      back, every one of them is an unknown codec. */
  lemma CodecTextNotName(c: Codec)
    ensures CodecOf(CodecText(c)) == UnknownCodec
  {
  }

  // ---------------------------------------------------------------------
  // Tracks

  /** The type FFMS2 gives a track. */
  datatype TrackType = TypeVideo | TypeAudio | TypeOther

  /** A track of the FFMS2 index: its type and the timestamp of each of
      its frames. */
  datatype IndexTrack = IndexTrack(trackType: TrackType, timestamps: seq<nat>)

  /** A track as ffprobe reports it. */
  datatype RawTrack = RawTrack(codecName: string, codecType: string)

  /** `Time2FrameNo`. */
  datatype Time2FrameNo = Time2FrameNo(time: nat, frameNo: nat)

  /** `Metadata`: the FFMS2 tracks, the ffprobe tracks and the index. */
  datatype Metadata = Metadata(tracks: seq<IndexTrack>, raw: seq<RawTrack>, time2frame: seq<Time2FrameNo>)

  /** `Track`: what the index and ffprobe know of one track. */
  datatype Track = Track(index: IndexTrack, raw: RawTrack)

  /** `Metadata::track`: a track exists only for a number below the number
      of tracks (the source panics otherwise), and ffprobe must know it
      too. */
  function TrackOf(m: Metadata, n: nat): (t: Track)
    requires n < |m.tracks| && n < |m.raw|
    ensures CodecOf(t.raw.codecName) == CodecOf(m.raw[n].codecName)
    ensures |t.index.timestamps| == |m.tracks[n].timestamps|
  {
    Track(m.tracks[n], m.raw[n])
  }

  function IsType(t: TrackType): IndexTrack -> bool {
    (x: IndexTrack) => x.trackType == t
  }

  const NO_TRACK := "Video neither has a video nor an audio track ..."

  /** `leading_track`: the first video track, else the first audio track;
      a video with neither has no leading track. */
  function LeadingTrack(tracks: seq<IndexTrack>): (r: Result<nat>)
    ensures r.Err? <==> forall i :: 0 <= i < |tracks| ==> tracks[i].trackType == TypeOther
    ensures r.Err? ==> r.error == NO_TRACK
    ensures r.Ok? ==> r.value < |tracks|
    ensures r.Ok? && tracks[r.value].trackType == TypeVideo ==>
      forall i :: 0 <= i < r.value ==> tracks[i].trackType != TypeVideo
    ensures r.Ok? && tracks[r.value].trackType != TypeVideo ==>
      && tracks[r.value].trackType == TypeAudio
      && (forall i :: 0 <= i < |tracks| ==> tracks[i].trackType != TypeVideo)
      && (forall i :: 0 <= i < r.value ==> tracks[i].trackType != TypeAudio)
  {
    match FirstSatisfying(tracks, IsType(TypeVideo))
    case Some(i) => Ok(i)
    case None =>
      match FirstSatisfying(tracks, IsType(TypeAudio))
      case Some(i) => Ok(i)
      case None =>
        assert forall i :: 0 <= i < |tracks| ==> !IsType(TypeVideo)(tracks[i]) && !IsType(TypeAudio)(tracks[i]);
        Err(NO_TRACK)
  }

  // ---------------------------------------------------------------------
  // The index from timestamps to frame numbers

  /** One entry per frame, in frame order. */
  function Entries(ts: seq<nat>): (r: seq<Time2FrameNo>)
    ensures |r| == |ts| && forall f :: 0 <= f < |ts| ==> r[f] == Time2FrameNo(ts[f], f)
  {
    seq(|ts|, f requires 0 <= f < |ts| => Time2FrameNo(ts[f], f))
  }

  function TimeKey(e: Time2FrameNo): int {
    e.time
  }

  /** `sort_by_key(|a| a.time)` on the entries of the frames. */
  function TimeIndex(ts: seq<nat>): seq<Time2FrameNo> {
    SortBy(Entries(ts), TimeKey)
  }

  /** An element occurring at two positions occurs twice. */
  lemma TwiceCounted<T>(s: seq<T>, i: nat, j: nat)
    requires i < j < |s| && s[i] == s[j]
    ensures multiset(s)[s[i]] >= 2
  {
    assert s == s[..j] + [s[j]] + s[j + 1..];
    assert s[i] == s[..j][i];
    assert multiset(s[..j])[s[i]] >= 1;
  }

  /** The entries of distinct frames are distinct. */
  lemma {:induction false} EntriesOnce(ts: seq<nat>, e: Time2FrameNo)
    ensures multiset(Entries(ts))[e] <= 1
    decreases |ts|
  {
    if |ts| > 0 {
      var n := |ts| - 1;
      EntriesOnce(ts[..n], e);
      assert Entries(ts) == Entries(ts[..n]) + [Time2FrameNo(ts[n], n)];
      if e == Time2FrameNo(ts[n], n) {
        assert e !in Entries(ts[..n]) by {
          forall i | 0 <= i < n
            ensures Entries(ts[..n])[i] != e
          {
          }
        }
      }
    }
  }

  /** The index has exactly one entry for each frame of the track, with
      that frame's timestamp, and it is sorted by timestamp. */
  lemma TimeIndexMeaning(ts: seq<nat>)
    ensures var idx := TimeIndex(ts);
      && |idx| == |ts|
      && SortedBy(idx, TimeKey)
      && (forall f :: 0 <= f < |ts| ==> Time2FrameNo(ts[f], f) in idx)
      && (forall i :: 0 <= i < |idx| ==> idx[i].frameNo < |ts| && idx[i].time == ts[idx[i].frameNo])
      && (forall i, j :: 0 <= i < j < |idx| ==> idx[i].frameNo != idx[j].frameNo)
  {
    var es := Entries(ts);
    var idx := TimeIndex(ts);
    SortBySorted(es, TimeKey);
    assert multiset(idx) == multiset(es);
    forall f | 0 <= f < |ts|
      ensures Time2FrameNo(ts[f], f) in idx
    {
      assert es[f] in multiset(es);
    }
    forall i | 0 <= i < |idx|
      ensures idx[i].frameNo < |ts| && idx[i].time == ts[idx[i].frameNo]
    {
      assert idx[i] in multiset(es);
    }
    forall i, j | 0 <= i < j < |idx|
      ensures idx[i].frameNo != idx[j].frameNo
    {
      assert idx[i] in multiset(es) && idx[j] in multiset(es);
      if idx[i].frameNo == idx[j].frameNo {
        TwiceCounted(idx, i, j);
        EntriesOnce(ts, idx[i]);
      }
    }
  }

  /** The timestamps of the index, in its order. */
  function Times(idx: seq<Time2FrameNo>): (r: seq<nat>)
    ensures |r| == |idx| && forall i :: 0 <= i < |idx| ==> r[i] == idx[i].time
  {
    seq(|idx|, i requires 0 <= i < |idx| => idx[i].time)
  }

  lemma SortedTimes(idx: seq<Time2FrameNo>)
    requires SortedBy(idx, TimeKey)
    ensures Search.Sorted(Times(idx))
  {
    forall i, j | 0 <= i < j < |idx|
      ensures Times(idx)[i] <= Times(idx)[j]
    {
      assert TimeKey(idx[i]) <= TimeKey(idx[j]);
    }
  }

  /** The entry at `i` is the one `frame_no_from_timestamp` settles on:
      one with the timestamp if there is one, else the first later one,
      else the last one. */
  predicate Nearest(idx: seq<Time2FrameNo>, time: nat, i: nat)
    requires i < |idx|
  {
    && (time in Times(idx) ==> idx[i].time == time)
    && (time !in Times(idx) && time < idx[|idx| - 1].time ==>
          idx[i].time > time && forall j :: 0 <= j < i ==> idx[j].time < time)
    && (time !in Times(idx) && time > idx[|idx| - 1].time ==> i == |idx| - 1)
  }

  function NoFrames(time: nat): string {
    "Cannot determine frame number of timestamp " + NatToString(time) + " since there are no frames"
  }

  /** `frame_no_from_timestamp` over an index sorted by timestamp: an error
      for an empty index; the frame of an entry with that timestamp if
      there is one; else the frame of the first entry with a later
      timestamp, or of the last entry when every timestamp is earlier. */
  function FrameNoFromTimestamp(m: Metadata, time: nat): (r: Result<nat>)
    ensures r.Err? <==> |m.time2frame| == 0
    ensures r.Err? ==> r.error == NoFrames(time)
    ensures r.Ok? && SortedBy(m.time2frame, TimeKey) ==>
      exists i :: 0 <= i < |m.time2frame| && r.value == m.time2frame[i].frameNo && Nearest(m.time2frame, time, i)
  {
    var idx := m.time2frame;
    if |idx| == 0 then Err(NoFrames(time))
    else
      match BinarySearch(Times(idx), time)
      case Found(i) => Ok(idx[i].frameNo)
      case NotFound(i) =>
        if i == |idx| then Ok(idx[|idx| - 1].frameNo) else Ok(idx[i].frameNo)
  }

  // ---------------------------------------------------------------------
  // Building the metadata

  /** What FFMS2 indexing gives: no indexer, an indexing failure, or the
      tracks. */
  datatype Indexing = NoIndexer | IndexingFailed | Indexed(tracks: seq<IndexTrack>)

  const NO_INDEX := "Cannot create index for mapping from timestamps to frame numbers"

  /** `Metadata::new(path)`: the FFMS2 index and ffprobe's report (whose
      error is passed on), then the leading track, whose frames fill the
      index one by one before it is sorted by timestamp.  ffprobe must
      know the leading track (the source panics otherwise). */
  method New(path: string, indexing: Indexing, probe: Result<seq<RawTrack>>) returns (r: Result<Metadata>)
    requires indexing.Indexed? && probe.Ok? && LeadingTrack(indexing.tracks).Ok? ==>
      LeadingTrack(indexing.tracks).value < |probe.value|
    ensures indexing == NoIndexer ==> r == Err("Could not create FFMS2 indexer for video " + path)
    ensures indexing == IndexingFailed ==> r == Err("Could not create FFMS2 index for video " + path)
    ensures indexing.Indexed? && probe.Err? ==> r == Err(probe.error)
    ensures indexing.Indexed? && probe.Ok? && LeadingTrack(indexing.tracks).Err? ==> r == Err(NO_INDEX)
    ensures indexing.Indexed? && probe.Ok? && LeadingTrack(indexing.tracks).Ok? ==>
      r == Ok(Metadata(indexing.tracks, probe.value,
                       TimeIndex(indexing.tracks[LeadingTrack(indexing.tracks).value].timestamps)))
  {
    if indexing == NoIndexer {
      return Err("Could not create FFMS2 indexer for video " + path);
    }
    if indexing == IndexingFailed {
      return Err("Could not create FFMS2 index for video " + path);
    }
    if probe.Err? {
      return Err(probe.error);
    }
    var m := Metadata(indexing.tracks, probe.value, []);
    var lead := LeadingTrack(m.tracks);
    if lead.Err? {
      return Err(NO_INDEX);
    }
    var n := lead.value;
    var ts := TrackOf(m, n).index.timestamps;
    var idx: seq<Time2FrameNo> := [];
    for f := 0 to |TrackOf(m, n).index.timestamps|
      invariant |idx| == f
      invariant forall i :: 0 <= i < f ==> idx[i] == Time2FrameNo(ts[i], i)
    {
      idx := idx + [Time2FrameNo(TrackOf(m, n).index.timestamps[f], f)];
    }
    assert idx == Entries(ts);
    m := m.(time2frame := SortBy(idx, TimeKey));
    return Ok(m);
  }
}
