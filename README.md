# otr — a Dafny model

otr decodes video files that were downloaded from Online TV Recorder (OTR) and
then cuts them with cut lists from cutlist.at. A video moves through three
states, encoded, decoded and cut. The file name records the state, and so does
the working directory the file lies in. The repository holds several
generations of the cutting code: `src/cut.rs`, `src/video/cutting.rs`,
`src/video/cutlist.rs`, `src/video/cutting/` and the library `otr-utils`.

This project models the logic that decides what the tool does. It does not
model the I/O that carries those decisions out.

- **Numbers, text and time.** `Numbers` models `str::parse` and the printing of
  integers and decimals, with decimals held as exact millionths. `Text` models
  the parts of the `str` API the program relies on. `TimeCode` models the time
  strings `H:MM:SS[.ffffff]`. `LexOrder` models Rust's order on strings.
  `Search` models binary search. `Sorting` models the stable sorts.
  `FirstMatch` models the "first candidate that works" loops.
- **Intervals.** `Intervals` models `otr-utils/src/cutting/interval.rs`:
  boundaries, the constructors, `len`, the conversions between frames and
  times, the key-frame snapping and `intervals_from_str`.
  `IntervalSyntax` holds the grammar of `[a,b]…` lists.
- **Stream and track metadata.** `StreamInfo` models
  `otr-utils/src/cutting/info.rs`. `TrackInfo` models `otr-utils/src/info.rs`.
- **Cut lists.**
  - `CutlistCore` holds the kinds and the INI extraction that all generations
    share.
  - `CutlistText` holds the two interval strings.
  - `ProviderHeaders` models the filtering and ordering of cutlist.at headers.
  - `OtrCutlist` models the otr-utils cut list. `VideoCutlist` models the
    generation in `src/video/cutlist.rs`.
  - `Mkvmerge` models the split string and the kind-retry loop.
- **Cutting.**
  - `Ffmpeg` models the frame-accurate cut plan: the pre, main and post
    pieces, the part-file names, their order and the concatenation rule.
  - `Cutting` models the dispatch and the retry loops of
    `otr-utils/src/cutting/mod.rs`.
  - `VideoCutting` models `src/video/cutting/`.
  - `PointCutting` models the cut step that `src/video/cutting.rs` and
    `src/cut.rs` share. `CutCommand` models `cut` of `src/cut.rs`.
- **Decoding.** `Decoding` models the bookkeeping of the OTRKEY decoder in
  `src/video/decoding.rs`: the header and response checks, the parameter
  parser, the key material, the chunk partition, the order of the decoded
  chunks, the checksum rule and the clean-up. The cryptography is left to an
  oracle.
- **Videos and the pipeline.**
  - `VideoNames` models the status order, the file-name grammar and
    `next_path`.
  - `VideoFiles` models the `Video` class of `src/video/mod.rs`, whose
    methods update its path and status.
  - `OldVideo` models where `src/video.rs` differs from `src/video/mod.rs`.
  - `Pipeline` models `process_videos` and the exit rule of `src/main.rs`.

Several properties of the code as written are stated as they are, rather than
corrected:
- Every generation tries cut-list headers in ascending rating order, so the
  lowest-rated cut list is tried first
  (`ProviderHeaders.HeadersWithoutMinimum`).
- The overlap checks of the validators can never fire, because their
  "previous interval" is always absent (`OtrCutlist.Cutlist.Validate`,
  `VideoCutlist.CutList.IsValid`,
  `VideoCutting.CutList.Validate`).
- Auto-selection in `src/video/cutting/mod.rs` stops at the first cut list
  that is not valid (`VideoCutting.InvalidAborts`).
- The key of a cut video can differ from the key of the decoded video it came
  from, because a leading "mpg." survives in the cut name (`VideoNames.CutKey`).

External effects are parameters of the operations that need them:
- HTTP responses;
- Blowfish, MD5 and base64;
- mkvmerge, ffmpeg, ffprobe and ffms2;
- renames, directory listings and file contents;
- the current date.
An `anyhow` error is modelled by its outermost message, with the inputs the
source formats into it. The `{:#}` display is modelled as `message: cause`.
The few messages whose text comes from a library are listed under
"## Left out".

## Model

| member | source | states |
|---|---|---|
| FirstMatch.FirstSatisfying | otr-utils/src/cutting/mod.rs:262-285 | the candidate a try-in-order loop stops at: the first index whose test holds, with every earlier one failing, and None exactly when no candidate passes |
| FirstMatch.FirstSatisfyingAt | otr-utils/src/cutting/mod.rs:262-285 | a loop that reaches index i with all earlier candidates failed and i passing has found the first satisfying candidate |
| FirstMatch.FirstSatisfyingStronger | src/video/cutting/mod.rs:197-224 | the candidate a loop stops at passes a stronger test exactly when some candidate passes it and no earlier one stops the loop |
| Search.SearchIn | otr-utils/src/cutting/info.rs:233-251 | a Found index holds the target and lies in the searched range; on a sorted vector whose outside parts are below and above the target the answer is a true hit or a correct insertion point |
| Search.BinarySearch | otr-utils/src/cutting/info.rs:233-251 | `binary_search`: a Found index holds the target; on a sorted vector a NotFound position is where the target would have to be inserted |
| Search.SearchFindsMembers | otr-utils/src/cutting/info.rs:233-251 | on a sorted vector the search finds the target exactly when it occurs |
| Sorting.SortBy | otr-utils/src/cutting/cutlist.rs:248 | the sort keeps the same elements (as a multiset) and the length |
| Sorting.SortBySorted | otr-utils/src/cutting/cutlist.rs:248 | the result is ordered by the key |
| Sorting.SortByStable | otr-utils/src/info.rs:111 | the sort is stable: the elements of any one key keep their input order |
| Sorting.InsertSorted | otr-utils/src/cutting/cutlist.rs:248 | inserting into a key-ordered sequence keeps it ordered |
| Sorting.InsertStable | otr-utils/src/cutting/cutlist.rs:248 | inserting places the new element behind every element with the same key |
| Numbers.ParseI32 | otr-utils/src/cutting/cutlist.rs:210 | `parse::<i32>` succeeds exactly on an optionally signed decimal literal whose value lies in the i32 range, and then yields that value |
| Numbers.ParseU64 | otr-utils/src/cutting/cutlist.rs:352 | `parse::<u64>` succeeds exactly on an unsigned literal (a leading '+' allowed) not above u64::MAX, and then yields its value |
| Numbers.ParseI32OfString | otr-utils/src/cutting/cutlist.rs:671 | a count written in decimal parses back as the same i32 |
| Numbers.ParseU64OfString | otr-utils/src/cutting/cutlist.rs:352 | a number written in decimal parses back as the same u64 |
| Numbers.ParseMicros | otr-utils/src/cutting/cutlist.rs:262-267 | `parse::<f64>` succeeds exactly on a plain decimal literal (sign, digits, at most one '.', at least one digit) |
| Numbers.UnsignedValue | otr-utils/src/cutting/cutlist.rs:262-267 | the value of an unsigned decimal literal is its integral digits in units plus its first six fraction digits in millionths |
| Numbers.NegatedValue | otr-utils/src/cutting/cutlist.rs:262-267 | a '-' in front of an unsigned literal negates the value it parses to |
| Numbers.ParseFormatMicros | otr-utils/src/cutting/cutlist.rs:686-699 | a value written with `{}` (as `to_ini` writes starts and durations) parses back to the same value |
| Numbers.ParseNatString | otr-utils/src/cutting/cutlist.rs:766 | a whole number written in decimal parses as that many units |
| Numbers.MicrosToU64 | otr-utils/src/cutting/interval.rs:163-166 | `(secs * 1e6) as u64`: the value itself within the u64 range, 0 below it and u64::MAX above it |
| Numbers.UnitsToU64 | otr-utils/src/cutting/interval.rs:96-99 | `frame as usize`: the whole units truncated toward zero when in range, 0 for anything below one unit |
| Numbers.RoundHalfEven | otr-utils/src/cutting/mkvmerge.rs:74 | `{:.0}` rounds to the nearest whole number and a tie to the even neighbour |
| Numbers.FormatRounded | otr-utils/src/cutting/mkvmerge.rs:74 | a non-negative point is written as the digits of its rounded value |
| Numbers.RoundWhole | otr-utils/src/cutting/mkvmerge.rs:74 | a whole frame number rounds to itself |
| TimeCode.Fields | otr-utils/src/cutting/interval.rs:19-20 | the time-string grammar `H:MM:SS[.f]`: hours are digits, minutes and seconds are `[0-5]\d`, and the fraction has at most six digits |
| TimeCode.ParseTime | otr-utils/src/cutting/interval.rs:178-205 | `Time::from_str` succeeds exactly on a time string; a bare trailing '.' (a panic) is excluded |
| TimeCode.ParseTimeFields | otr-utils/src/cutting/interval.rs:186-203 | the parsed microseconds split back into fraction, seconds, minutes and hours exactly as written: (H·3600+MM·60+SS)·10^6 plus a k-digit fraction f counted as f·10^(6−k) |
| TimeCode.FieldsOfFormat | otr-utils/src/cutting/mkvmerge.rs:76-83 | a formatted time has hours padded to at least two digits, minutes and seconds below 60 in two digits and a six-digit fraction |
| TimeCode.ParseFormatTime | otr-utils/src/cutting/mkvmerge.rs:76-83 | formatting a time and parsing it back gives the same number of microseconds |
| TimeCode.ParseFormatPoint | otr-utils/src/cutting/mkvmerge.rs:76-83 | a time point within u64 microseconds written for mkvmerge and read back with `cut_str_to_f64` is unchanged |
| IntervalSyntax.MatchInterval | otr-utils/src/cutting/interval.rs:17 | a matched interval text is exactly "[from,to]" with both bounds non-empty and free of '[', ']' and ',' |
| IntervalSyntax.MatchRenderInterval | otr-utils/src/cutting/interval.rs:17 | every well-formed interval text matches, with its own bounds captured |
| IntervalSyntax.ParseIntervals | otr-utils/src/cutting/interval.rs:15 | a matched list is one or more well-formed intervals whose texts concatenate to the input |
| IntervalSyntax.ParseRender | otr-utils/src/cutting/interval.rs:15 | every non-empty list of well-formed intervals, written out, matches and gives those intervals back |
| IntervalSyntax.RenderSplitInclusive | otr-utils/src/cutting/interval.rs:361 | `split_inclusive(']')` of a well-formed list yields one piece per interval, in order |
| IntervalSyntax.RenderSplit | src/video/cutting/cutlist.rs:301-309 | `split(']')` of a well-formed list yields each interval's text without its ']', then one empty piece |
| IntervalSyntax.OpeningFields | src/video/cutting/cutlist.rs:310-318 | splitting an interval's text after '[' at ',' yields its two bounds |
| StreamInfo.StreamTypeFromStr | otr-utils/src/cutting/info.rs:29-39 | never fails; "audio" gives Audio and "video" gives Video, and nothing else gives either |
| StreamInfo.StreamTypeRoundTrip | otr-utils/src/cutting/info.rs:14-39 | the printed name of every stream type reads back as that type |
| StreamInfo.FrameToTime | otr-utils/src/cutting/info.rs:220-229 | errors exactly when the frame is not below the number of frames, and otherwise gives that frame's time |
| StreamInfo.TimeToFrame | otr-utils/src/cutting/info.rs:233-251 | errors exactly when there are no frames; the frame is always in range; with sorted times it is a frame of that time when one exists, the last frame for a time past the end, and otherwise the first frame after the time |
| StreamInfo.FrameTimeRoundTrip | otr-utils/src/cutting/info.rs:220-251 | with strictly increasing times, a frame's time maps back to that frame |
| StreamInfo.KeyFrameLessOrEqual | otr-utils/src/cutting/info.rs:257-272 | needs limit ≤ frame (the panic); a result is a key frame not below the limit; on sorted key frames it is the frame itself for a key frame, else the largest key frame below it, and None means no key frame lies in [limit, frame] |
| StreamInfo.KeyFrameGreaterOrEqual | otr-utils/src/cutting/info.rs:274-297 | needs frame ≤ limit (the panic); a result is a key frame in [frame, limit]; on sorted key frames it is the frame itself for a key frame, else the key frame after the first one above the frame |
| StreamInfo.GreaterOrEqualSkipsFirst | otr-utils/src/cutting/info.rs:287-296 | for key frames 0, 10, 20 the lookup above frame 5 gives 20, skipping key frame 10 that the doc comment promises |
| StreamInfo.FirstOf | otr-utils/src/cutting/info.rs:122-143 | a position it finds holds a stream of the given type |
| StreamInfo.FirstOfIsFirst | otr-utils/src/cutting/info.rs:122-143 | no stream before the one found is of the type, and None means no stream at all is |
| StreamInfo.MainStream | otr-utils/src/cutting/info.rs:149-162 | the main stream exists exactly when some stream is audio or video, and it is such a stream |
| StreamInfo.KeyFramesOf | otr-utils/src/cutting/info.rs:179-193 | the key-frame list is strictly increasing and holds exactly the numbers of the frames flagged as key frames |
| StreamInfo.TimesOf | otr-utils/src/cutting/info.rs:180-189 | one time per frame, in frame order |
| StreamInfo.CheckStream | otr-utils/src/cutting/info.rs:108-166 | one round of the stream loop fails only for streams the loop rejects; otherwise the stream passes its checks, the first audio and video positions are those among the streams so far, and the main stream is theirs |
| StreamInfo.ScanStreams | otr-utils/src/cutting/info.rs:107-167 | the stream loop fails only for streams the loop rejects; otherwise every stream passed its checks and is recorded in order, and the main stream is the first video, else first audio stream (the first stream being one of them) |
| StreamInfo.CheckStreams | otr-utils/src/cutting/info.rs:107-167 | the stream loop succeeds exactly when every index fits, every audio or video stream has a codec and the first stream is audio or video (the main stream is chosen, and its absence fails, after each stream); it records every stream and picks the first video stream, else the first audio stream |
| StreamInfo.IndexFrames | otr-utils/src/cutting/info.rs:179-193 | the index loop yields the time of every frame and the key-frame numbers |
| StreamInfo.NewMetadata | otr-utils/src/cutting/info.rs:69-207 | `Metadata::new` succeeds exactly when the indexer, indexing and ffprobe succeed and the streams pass the checks; the three failures give their messages with the video's name or ffprobe's error; it holds every stream and the times and key frames of the main stream's frames |
| Intervals.BoundaryTypeFromStr | otr-utils/src/cutting/interval.rs:60-72 | Frame iff the upper-cased text contains "FRAME"; Time iff it does not but contains "TIME"; an error iff it contains neither |
| Intervals.BoundaryTypeCaseInsensitive | otr-utils/src/cutting/interval.rs:60-72 | upper-casing the text first never changes the boundary type it reads as, nor whether it fails |
| Intervals.DotlessIReadsAsTime | otr-utils/src/cutting/interval.rs:63-67 | upper-casing follows Unicode: "tıme" with a dotless i reads as a time boundary |
| Intervals.BoundaryTypeRoundTrip | otr-utils/src/cutting/interval.rs:46-72 | the printed name of each boundary type reads back as that type |
| Intervals.ParseBoundary | otr-utils/src/cutting/interval.rs:103-112 | a frame boundary parses exactly when it is a decimal literal and a time boundary exactly when it is a time string; the value fits u64 |
| Intervals.BoundaryTextRoundTrip | otr-utils/src/cutting/interval.rs:103-112 | a boundary within u64 written as text parses back to itself |
| Intervals.FromFromTo | otr-utils/src/cutting/interval.rs:294-300 | no interval exactly when the boundaries are equal; otherwise from and to as given, with no order check |
| Intervals.Len | otr-utils/src/cutting/interval.rs:321-323 | needs from ≤ to (unsigned subtraction); from + len = to |
| Intervals.FromStartDuration | otr-utils/src/cutting/interval.rs:302-311 | no interval exactly when the duration is zero; otherwise it starts at start and its length is the duration |
| Intervals.BoundaryToFrame | otr-utils/src/cutting/interval.rs:143-146 | a frame boundary is its own frame; a time boundary converts exactly when the video has frames, to a frame in range |
| Intervals.BoundaryToTime | otr-utils/src/cutting/interval.rs:148-150 | a time boundary is its own time; a frame boundary converts exactly when the frame exists, to its time |
| Intervals.ToFrames | otr-utils/src/cutting/interval.rs:325-330 | succeeds exactly when both boundaries convert, giving the interval of the converted boundaries |
| Intervals.ToTimes | otr-utils/src/cutting/interval.rs:332-337 | succeeds exactly when both boundaries convert, giving the interval of the converted boundaries |
| Intervals.FramesTimesRoundTrip | otr-utils/src/cutting/interval.rs:325-337 | with strictly increasing frame times, a frame interval converted to times and back is unchanged |
| Intervals.ToKeyFrames | otr-utils/src/cutting/interval.rs:340-350 | Some exactly when both key-frame lookups succeed; both ends are key frames and, on sorted key frames, lie inside the interval in order |
| Intervals.IntervalFromStr | otr-utils/src/cutting/interval.rs:264-287 | an interval is read only from a text that matches the one-interval grammar; a text that does not match is the error `"<s>" is not a valid interval`, and a matching one gives exactly the result of reading its two bounds |
| Intervals.KeepNonEmpty | otr-utils/src/cutting/interval.rs:361-368 | succeeds exactly when every piece parsed; the kept intervals are never more than the pieces and all have distinct boundaries |
| Intervals.KeepErrSticky | otr-utils/src/cutting/interval.rs:362 | the first error ends the loop: once a prefix has failed, the whole list fails with that error |
| Intervals.KeepAll | otr-utils/src/cutting/interval.rs:363-365 | intervals whose boundaries differ are all kept, in order |
| Intervals.IntervalsOf | otr-utils/src/cutting/interval.rs:352-372 | text outside the list grammar is an error; every returned interval has distinct boundaries |
| Intervals.CollectIntervals | otr-utils/src/cutting/interval.rs:357-368 | the push loop yields the first parse error, else the non-empty intervals in textual order |
| Intervals.IntervalsFromStr | otr-utils/src/cutting/interval.rs:352-372 | `intervals_from_str` fails on text outside the list grammar or with the first bound that does not parse, and otherwise returns the intervals of the text in order, without those of zero length |
| Intervals.IntervalsRoundTrip | otr-utils/src/cutting/interval.rs:352-372 | a non-empty list of non-empty intervals within u64, written as "[a,b]…", is read back as the same list in the same order |
| CutlistCore.KindFromStr | otr-utils/src/cutting/cutlist.rs:97-107 | accepts exactly "frames" and "time", and the kind it yields prints as the accepted text |
| CutlistCore.KindRoundTrip | otr-utils/src/cutting/cutlist.rs:97-119 | the printed name of each kind reads back as that kind |
| CutlistCore.ItemNew | otr-utils/src/cutting/cutlist.rs:260-279 | succeeds exactly when start and duration are numbers; gives a cut exactly when the duration is positive, and then the cut runs from start to start + duration, start before end |
| CutlistCore.AttributesDiffer | otr-utils/src/cutting/cutlist.rs:44-47 | the four attribute names of starts and durations of both kinds are pairwise different |
| CutlistCore.ItemFromIni | otr-utils/src/cutting/cutlist.rs:282-302 | succeeds exactly when section "CutN" exists and holds both attributes of the kind and `Item::new` accepts them, and then is what `Item::new` gives |
| CutlistCore.AddFirst | otr-utils/src/cutting/cutlist.rs:617-625 | at cut 0 a kind is taken up exactly when its item reads with a positive duration; any failure only leaves the kind out |
| CutlistCore.ExtendKind | otr-utils/src/cutting/cutlist.rs:627-637 | at a later cut the kinds stay the same, and reading fails exactly when a supported kind's item cannot be read |
| CutlistCore.ExtendItems | otr-utils/src/cutting/cutlist.rs:616-640 | a later cut never changes the set of kinds |
| CutlistCore.ReadCutsErrSticky | otr-utils/src/cutting/cutlist.rs:389-398 | the first failing cut ends the loop: reading more cuts fails with the same error |
| CutlistCore.PositiveItemsOrdered | otr-utils/src/cutting/cutlist.rs:271-275 | every cut read starts before it ends |
| CutlistCore.ReadCutsMeaning | otr-utils/src/cutting/cutlist.rs:389-398 | reading n ≥ 1 cuts fails exactly when some later cut lacks a kind that cut 0 fixed; otherwise the kinds are exactly those of cut 0 and each holds its positive-duration cuts in cut order |
| CutlistCore.ReadFirstCut | otr-utils/src/cutting/cutlist.rs:617-625 | cut 0 alone never fails and fixes the kinds, each with its item if the duration is positive |
| CutlistCore.ExtendStep | otr-utils/src/cutting/cutlist.rs:626-638 | one later cut fails exactly when it lacks a fixed kind, and otherwise appends its positive-duration items to each kind |
| CutlistCore.MissingCutStep | otr-utils/src/cutting/cutlist.rs:389-398 | a missing cut among the first n+1 is one among the first n or cut n itself |
| CutlistCore.ValidateIntervals | otr-utils/src/cutting/cutlist.rs:720-737 | the items pass exactly when none starts after its end (the overlap test never fires because the previous item stays None), and a failure names the kind |
| CutlistCore.ValidateItems | otr-utils/src/cutting/cutlist.rs:714-759 | `validate` passes exactly when there is some kind, with the count check both kinds have equally many items, and no item of any kind starts after its end |
| CutlistCore.ValidateKinds | otr-utils/src/cutting/cutlist.rs:751-758 | checking frames and then times of a non-empty cut list passes exactly when no item starts after its end |
| CutlistCore.NumCuts | otr-utils/src/cutting/cutlist.rs:362-386 | the number of cuts is read exactly when [General] holds NoOfCuts and it parses as an i32 |
| CutlistCore.ReadKindCuts | src/video/cutlist.rs:318-345 | reading cuts of one kind succeeds exactly when every cut's section and attributes can be read, and yields the positive-duration cuts in order |
| CutlistCore.KindCuts | src/video/cutlist.rs:293-347 | the cut list of a header's kind: NoOfCuts must parse and every cut must be readable; the result is the positive-duration cuts in order, each starting before it ends |
| CutlistCore.ReadNextMeaning | src/video/cutlist.rs:326-343 | one round of reading keeps its meaning: it succeeds exactly when the cuts so far and the next one read, and then holds the positive-duration cuts so far |
| CutlistCore.ReadKindErrSticky | src/video/cutlist.rs:318-326 | the first unreadable cut ends the loop: reading more cuts fails with that same error |
| CutlistCore.CutStrToMicros | otr-utils/src/cutting/cutlist.rs:764-813 | a frames point parses exactly when it is a decimal literal, a time point exactly when it is a time string, and each yields its value |
| CutlistCore.TimeCutPointRoundTrip | otr-utils/src/cutting/mkvmerge.rs:76-83 | a time point within u64 microseconds written for mkvmerge reads back through `cut_str_to_f64` as the same value |
| CutlistCore.FramesCutPointRoundTrip | otr-utils/src/cutting/mkvmerge.rs:74 | a frames point is written rounded half to even and reads back as that whole number |
| CutlistText.SplitKindOf | otr-utils/src/cutting/cutlist.rs:55 | a kind name, ':' and a rest split back into that kind and that rest |
| CutlistText.MatchIntervals | otr-utils/src/cutting/cutlist.rs:55 | a matched intervals string is exactly a kind name, ':' and one or more well-formed intervals |
| CutlistText.AllOk | otr-utils/src/cutting/cutlist.rs:508-511 | the `?` on every bound: success exactly when every interval was read, and then one item per interval, in order |
| CutlistText.IntervalsItems | otr-utils/src/cutting/cutlist.rs:463-512 | a parsed intervals string has the kind of its prefix and one item per interval |
| CutlistText.ReadOpenings | otr-utils/src/cutting/cutlist.rs:489-512 | the loop over the pieces of `split(']')` skips the empty piece and yields every interval's item in textual order, or fails exactly when some bound cannot be read |
| CutlistText.ReadIntervalsString | otr-utils/src/cutting/cutlist.rs:463-512 | `try_from_intervals` before validation computes exactly the kind of the prefix and the items read in textual order |
| CutlistText.PointTextReads | otr-utils/src/cutting/cutlist.rs:764-813 | a point written for an intervals string is a bound of the grammar, unchanged by `trim`, and reads back as itself |
| CutlistText.RawsOfRead | otr-utils/src/cutting/cutlist.rs:498-511 | the bounds written for items are well formed and read back as those items |
| CutlistText.IntervalsTextRoundTrip | otr-utils/src/cutting/cutlist.rs:463-512 | items of one kind written as an intervals string read back as that kind and those items, in order |
| CutlistText.SplitStrSnoc | otr-utils/src/cutting/mkvmerge.rs:104-115 | each further part adds ",+" (except before the first) and then "start-end" |
| CutlistText.BuildSplitStr | otr-utils/src/cutting/mkvmerge.rs:98-117 | the append loop yields the kind prefix ("parts-frames:" or "parts:") and the "start-end" parts in item order joined with ",+" |
| CutlistText.PointChars | otr-utils/src/cutting/mkvmerge.rs:70-87 | a written cut point is non-empty, has no '-', '+' or ',', and reads back (a frame number rounded, a time exactly) |
| CutlistText.ReadSplitPiece | otr-utils/src/cutting/mkvmerge.rs:108-113 | a part "start-end" reads back as its two points |
| CutlistText.ReadJoinedParts | otr-utils/src/cutting/mkvmerge.rs:105-107 | parts without '+' joined with ",+" and split at '+' read back as the same parts |
| CutlistText.SplitStrRoundTrip | otr-utils/src/cutting/mkvmerge.rs:89-117 | reading the split string back gives each item's start and end, frame numbers rounded to whole frames and times exactly |
| ProviderHeaders.Accept | otr-utils/src/cutting/cutlist.rs:208-246 | the headers kept are exactly those of the raw headers without errors and, with a minimum rating, not rated below it |
| ProviderHeaders.AcceptStep | otr-utils/src/cutting/cutlist.rs:208-246 | one more raw header adds its header exactly when it is accepted |
| ProviderHeaders.FilterHeaders | otr-utils/src/cutting/cutlist.rs:208-246 | the filter loop keeps exactly the accepted headers, in response order, with the rating from `rating`, else `ratingbyauthor`, else 0 |
| ProviderHeaders.HeadersFromProvider | otr-utils/src/cutting/cutlist.rs:187-249 | an error exactly when the request or the response fails; otherwise the accepted headers stably sorted by rating |
| ProviderHeaders.HeadersOrdered | otr-utils/src/cutting/cutlist.rs:136-156 | the headers come lowest rating first, are exactly the accepted ones, and headers of equal rating keep response order |
| ProviderHeaders.HeadersAccepted | otr-utils/src/cutting/cutlist.rs:234-245 | every header returned comes from an accepted raw header and, with a minimum rating, is rated at least that minimum |
| ProviderHeaders.PlainHeaders | src/video/cutting/cutlist.rs:158-184 | without the author's rating and a minimum, a header is accepted exactly when it has no errors, rated by `rating` or 0 |
| ProviderHeaders.HeadersWithoutMinimum | src/video/cutting/cutlist.rs:158-184 | without a minimum every header without errors is offered, nothing else is, and they come lowest rating first |
| OtrCutlist.IniId | otr-utils/src/cutting/cutlist.rs:340-357 | an error exactly when `[Meta]` is missing or a present `CutlistId` is no u64; a missing attribute leaves the id unknown, a present one gives its value |
| OtrCutlist.CutCount | otr-utils/src/cutting/cutlist.rs:362-386 | the number of cuts is read exactly when `[General]/NoOfCuts` exists and parses as an i32 |
| OtrCutlist.CutlistFromIniMeaning | otr-utils/src/cutting/cutlist.rs:335-405 | reading succeeds exactly when `[Meta]` and NoOfCuts are readable, at least one cut is announced, every cut supplies each kind of cut 0 and the items validate with the count check; then the id is that of `[Meta]`, the kinds those of cut 0, and each kind holds its positive-duration cuts in order; no announced cut gives the validation error |
| OtrCutlist.SingleKind | otr-utils/src/cutting/cutlist.rs:484-486 | a one-kind cut list is valid exactly when no item starts after its end |
| OtrCutlist.CutlistFromIntervals | otr-utils/src/cutting/cutlist.rs:463-519 | an intervals string gives a cut list exactly when it parses and no item starts after its end, and then it holds exactly one kind, with the items in textual order |
| OtrCutlist.IntervalsCutlistRoundTrip | otr-utils/src/cutting/cutlist.rs:463-519 | valid items of one kind written as an intervals string read back as a cut list of exactly those items |
| OtrCutlist.ValidLen | otr-utils/src/cutting/cutlist.rs:645-653 | in a valid cut list every kind holds `len` items |
| OtrCutlist.SetAttrMeaning | otr-utils/src/cutting/cutlist.rs:666-672 | `with_section(..).set(key, value)` adds the section if needed and changes only that attribute of that section |
| OtrCutlist.CutAttrsWritten | otr-utils/src/cutting/cutlist.rs:684-701 | a cut section holds, for each kind, the start and duration of its item and nothing else |
| OtrCutlist.CutMapsAt | otr-utils/src/cutting/cutlist.rs:684-701 | section "CutJ" is written exactly when j < NoOfCuts, with the attributes of cut j |
| OtrCutlist.CutMapsOnly | otr-utils/src/cutting/cutlist.rs:684-687 | only sections "Cut0" to "Cut(n−1)" are written by the cut loop |
| OtrCutlist.WrittenIniSections | otr-utils/src/cutting/cutlist.rs:657-709 | `to_ini` writes `[General]` as given, `[Info]` with the author's rating, every cut section, no `[Meta]` and no other section |
| OtrCutlist.Cutlist.constructor | otr-utils/src/cutting/cutlist.rs:325-329 | the default cut list has no id and no items |
| OtrCutlist.Cutlist.ItemsOf | otr-utils/src/cutting/cutlist.rs:522-527 | the items of a kind exactly when the cut list is of that kind, an error otherwise |
| OtrCutlist.Cutlist.Len | otr-utils/src/cutting/cutlist.rs:645-653 | the number of frame items if there are any, else the number of time items, else 0 |
| OtrCutlist.Cutlist.AddFirstKind | otr-utils/src/cutting/cutlist.rs:621-625 | at cut 0 the kind is inserted exactly when its item reads with positive duration; the id is unchanged |
| OtrCutlist.Cutlist.ExtendKindAt | otr-utils/src/cutting/cutlist.rs:628-636 | a supported kind's item must read at a later cut and is appended when its duration is positive; an error leaves the items as they were |
| OtrCutlist.Cutlist.ExtendFromIniCut | otr-utils/src/cutting/cutlist.rs:616-640 | the items become those of `extend_from_ini_cut`, frames before times, and the id is unchanged |
| OtrCutlist.Cutlist.Validate | otr-utils/src/cutting/cutlist.rs:714-759 | a cut list validates exactly when it has some kind, both kinds (when present) have equally many items and no item starts after its end |
| OtrCutlist.Cutlist.TryFromIni | otr-utils/src/cutting/cutlist.rs:335-405 | a fresh cut list with the id and items of an INI structure, exactly when it is readable and valid; otherwise the first error |
| OtrCutlist.Cutlist.TryFromIntervals | otr-utils/src/cutting/cutlist.rs:463-519 | a fresh cut list without id holding the one kind of the intervals string, exactly when it parses and validates |
| OtrCutlist.Cutlist.ToIni | otr-utils/src/cutting/cutlist.rs:657-709 | fails exactly when the file size cannot be read; otherwise `[General]` with NoOfCuts = len, the cut sections with start and duration of every kind, and `[Info]` with the rating |
| OtrCutlist.Cutlist.WriteCut | otr-utils/src/cutting/cutlist.rs:685-700 | the loop over the kinds, in any hash-map order, writes section "CutI" with the start and duration of every kind's item I |
| OtrCutlist.ReadWrittenCut | otr-utils/src/cutting/cutlist.rs:282-302 | a written cut of positive duration reads back as its item |
| OtrCutlist.CutsReadBack | otr-utils/src/cutting/cutlist.rs:389-398 | cut sections written for kinds of n ≥ 1 proper intervals each are read back by the cut loop as the same items |
| OtrCutlist.WrittenIniReadBack | otr-utils/src/cutting/cutlist.rs:657-709 | what `to_ini` writes reads back as the same items with NoOfCuts = n, but without `[Meta]` the reader itself rejects it |
| OtrCutlist.GeneralCount | otr-utils/src/cutting/cutlist.rs:671 | NoOfCuts in `[General]` reads back as the number of cuts |
| OtrCutlist.CutlistIniRoundTrip | otr-utils/src/cutting/cutlist.rs:335-405 | a valid cut list written by `to_ini`, once `[Meta]` with its id is added, is read by `TryFrom<&Ini>` as the same id and items |
| Mkvmerge.SplitStrOf | otr-utils/src/cutting/mkvmerge.rs:90-118 | an error naming the kind exactly when the cut list lacks it; otherwise a split string from which the items' points of that kind read back (frames rounded) |
| Mkvmerge.ToSplitStr | otr-utils/src/cutting/mkvmerge.rs:90-118 | the loop builds the split string of `SplitStrOf`: an error when the cut list lacks the kind, else a string from which the items of that kind read back |
| Mkvmerge.ExecMkvmerge | otr-utils/src/cutting/mkvmerge.rs:44-66 | a kind the cut list lacks fails before mkvmerge runs; otherwise the outcome of mkvmerge on that kind's split string |
| Mkvmerge.Cut | otr-utils/src/cutting/mkvmerge.rs:17-41 | succeeds exactly when mkvmerge succeeds for some kind of the cut list; otherwise the error of a kind tried, or "Dummy error" for a cut list without kinds, under the context "Could not cut video with mkvmerge" |
| LexOrder.LexTotal | otr-utils/src/cutting/ffmpeg.rs:419 | string order is total: two strings are equal or one is smaller |
| LexOrder.LexTransitive | otr-utils/src/cutting/ffmpeg.rs:419 | string order is transitive |
| LexOrder.LexPrefix | otr-utils/src/cutting/ffmpeg.rs:419 | a common prefix does not decide the order |
| LexOrder.DigitsLex | otr-utils/src/cutting/ffmpeg.rs:32 | digit strings of one length compare as the numbers they denote, as the `{:03}` numbers of part files do |
| LexOrder.SortStrings | otr-utils/src/cutting/ffmpeg.rs:419 | `parts.sort()` keeps the same names |
| LexOrder.SortAscending | otr-utils/src/cutting/ffmpeg.rs:419 | the sorted names are in ascending order |
| LexOrder.AscendingUnique | otr-utils/src/cutting/ffmpeg.rs:419 | an ascending permutation of a strictly increasing sequence is that sequence |
| LexOrder.SortIncreasing | otr-utils/src/cutting/ffmpeg.rs:419 | sorting any permutation of a strictly increasing sequence gives that sequence |
| Ffmpeg.SubIntervalText | otr-utils/src/cutting/ffmpeg.rs:41-53 | Pre, Main and Post print as one digit: 1, 2 and 3 |
| Ffmpeg.PartNameMatches | otr-utils/src/cutting/ffmpeg.rs:30-34 | a name from the template "part-{:03}-{}.{}" matches the part-file pattern exactly when the interval number is at most 999 |
| Ffmpeg.PartNameOrder | otr-utils/src/cutting/ffmpeg.rs:30-34 | part names compare as their (interval number, piece number) pairs, for numbers up to 999 |
| Ffmpeg.NamesIncreasing | otr-utils/src/cutting/ffmpeg.rs:30-34 | names of part files made in (interval, piece) order are strictly ascending |
| Ffmpeg.Plan | otr-utils/src/cutting/ffmpeg.rs:174-255 | the decomposition fails exactly when the video has frames and the interval cannot be turned into frames; without frames the whole interval is copied as Main |
| Ffmpeg.PlanWithFrames | otr-utils/src/cutting/ffmpeg.rs:177-242 | with frames: no key frame in the interval means all of it is re-encoded as Main; otherwise the key-frame interval is copied as Main and the frames before and after it are re-encoded as Pre and Post exactly when there are at least two of them |
| Ffmpeg.PiecesCover | otr-utils/src/cutting/ffmpeg.rs:185-229 | the pieces cover the frame interval except a single frame before the first key frame or after the last one |
| Ffmpeg.PlanCovers | otr-utils/src/cutting/ffmpeg.rs:185-229 | on sorted key frames a frame is in some piece exactly when it is in the interval and is not such a single dropped frame |
| Ffmpeg.PlanOrdered | otr-utils/src/cutting/ffmpeg.rs:185-242 | a plan has at least one piece, and its part files are made in Pre, Main, Post order |
| Ffmpeg.RunPiece | otr-utils/src/cutting/ffmpeg.rs:262-376 | one piece makes its part file exactly when ffmpeg succeeds on it, and nothing otherwise |
| Ffmpeg.RunPieces | otr-utils/src/cutting/ffmpeg.rs:185-229 | the pieces run in order until one fails; a run that succeeds made every piece's part file, in order |
| Ffmpeg.RunPiecesAppend | otr-utils/src/cutting/ffmpeg.rs:185-229 | running two lists of pieces is running the first and, if it succeeded, the second |
| Ffmpeg.PartFiles | otr-utils/src/cutting/ffmpeg.rs:388-418 | the entries kept are exactly the listed names that match the part-file pattern |
| Ffmpeg.PartFilesPermutation | otr-utils/src/cutting/ffmpeg.rs:388-418 | which part files are found does not depend on the listing order |
| Ffmpeg.ConcatenateIntervals | otr-utils/src/cutting/ffmpeg.rs:379-476 | the part files sorted by name: none is an error, one is renamed to the output, several are concatenated from the index file |
| Ffmpeg.CuttingDir.constructor | otr-utils/src/cutting/ffmpeg.rs:120-130 | the cutting directory holds the files given |
| Ffmpeg.CuttingDir.MakePiece | otr-utils/src/cutting/ffmpeg.rs:262-376 | the directory gains the piece's part file exactly when ffmpeg succeeds, and the result is that of the piece |
| Ffmpeg.CuttingDir.ExtractInterval | otr-utils/src/cutting/ffmpeg.rs:158-260 | `extract_interval` gives the result of its plan's run and adds exactly the part files that run made, in order |
| Ffmpeg.CuttingDir.ExtractAroundKeyFrames | otr-utils/src/cutting/ffmpeg.rs:185-229 | Pre, Main and Post are made in order until one fails, and the directory gains their part files |
| Ffmpeg.CuttingDir.MakePre | otr-utils/src/cutting/ffmpeg.rs:185-201 | the frames before the first key frame are re-encoded only when there are at least two; a failure adds no file |
| Ffmpeg.CuttingDir.MakePost | otr-utils/src/cutting/ffmpeg.rs:213-229 | the frames after the last key frame are re-encoded only when there are at least two; a failure adds no file |
| Ffmpeg.CuttingDir.ExtractIntervals | otr-utils/src/cutting/ffmpeg.rs:103-109 | the intervals are extracted in input order, numbered from 1, until one fails, and the directory gains their part files |
| Ffmpeg.CuttingDir.Cut | otr-utils/src/cutting/ffmpeg.rs:77-115 | `cut` succeeds exactly when the cutting directory is created, every extraction succeeds, the directory can be read, and the concatenation of the part files found succeeds; every error carries "Could not cut video with ffmpeg"; a directory that could not be created is left as it was, and a created one is removed in any case |
| Ffmpeg.ExtractionsIncreasing | otr-utils/src/cutting/ffmpeg.rs:103-109 | the part files of a successful run are made in (interval, piece) order, one interval number after the other |
| Ffmpeg.PartsInCutOrder | otr-utils/src/cutting/ffmpeg.rs:419 | however the directory lists them, for at most 999 intervals the sorted part files are exactly the files made, in cut order (interval by interval, and Pre, Main, Post within one) |
| Cutting.AppliedMeaning | otr-utils/src/cutting/mod.rs:317-360 | the frame intervals are used exactly when the cut list has them, the video has frames and they can be built; the time intervals are tried exactly when the frame run was not made or failed and they can be built; the result is Ok exactly when the last run made succeeds, and "Could not cut video with ffmpeg" otherwise |
| Cutting.CutWithCutlist | otr-utils/src/cutting/mod.rs:298-361 | the runs made and the result are those the attempt order above prescribes; a metadata error is returned before any run |
| Cutting.CutlistFromFile | otr-utils/src/cutting/mod.rs:125 | a cut list is read from a file exactly when the file loads and its INI text is a valid cut list |
| OtrCutlist.CutlistFromId | otr-utils/src/cutting/cutlist.rs:435-457 | a download error is returned as it is; the provider's "Not found." answer and an answer that is not INI data are errors naming the ID; otherwise the cut list is exactly the one read from the INI data |
| Cutting.CutById | otr-utils/src/cutting/mod.rs:193-222 | cutting by ID succeeds exactly when the cut list can be retrieved and applied; a retrieval error says "Could not retrieve cut list ID=" and a cut error "Could not cut video with cut list" followed by the ID |
| Cutting.CutFromFile | otr-utils/src/cutting/mod.rs:107-134 | cutting with a cut list file succeeds exactly when the file yields a cut list that applies; every failure is an `Any` error |
| Cutting.CutFromIntervals | otr-utils/src/cutting/mod.rs:140-188 | an intervals text that is not a cut list or a failed cut is an `Any` error; after a successful cut nothing is submitted without `submit`, and with it a missing access token or a failed upload is `CutlistSubmissionFailed` |
| Cutting.NoSubmissionUnlessCut | otr-utils/src/cutting/mod.rs:159-185 | a cut list is submitted only after the video was cut with it, and only when submission is asked for |
| Cutting.AutoSelected | otr-utils/src/cutting/mod.rs:243-291 | automatic selection fails with `NoCutlist` exactly when the headers cannot be retrieved; it succeeds exactly when some offered cut list can be retrieved and applied, and fails with "No cut list could be successfully applied to cut video" otherwise |
| Cutting.TryHeader | otr-utils/src/cutting/mod.rs:254-284 | one header succeeds exactly when its cut list is retrieved and applies; failures are only logged |
| Cutting.AutoSelect | otr-utils/src/cutting/mod.rs:229-294 | the headers are tried in order and the loop stops after the first success; its outcome is the automatic selection's |
| Cutting.Cut | otr-utils/src/cutting/mod.rs:71-103 | a missing temporary directory is an `Any` error; otherwise each access type goes to its own function, `NoCutlist` comes only from automatic selection, `CutlistSubmissionFailed` only from intervals with submission, and `Default` never |
| VideoCutting.HeadersOffered | src/video/cutting/cutlist.rs:158-184 | the headers offered are exactly those of the provider's answer without errors, each rated by its own rating or 0, and sorted lowest rating first |
| VideoCutting.CutlistFromStr | src/video/cutting/cutlist.rs:275-327 | an intervals text gives a cut list of exactly its one kind with its intervals in textual order; a text that does not match is "not a valid intervals string", and a point that does not read is "Cannot create cut list from" the text |
| VideoCutting.FromStrKeepsItems | src/video/cutting/cutlist.rs:275-327 | items of one kind written as an intervals string read back as exactly that cut list, unvalidated |
| VideoCutting.CutlistFromIniMeaning | src/video/cutting/cutlist.rs:334-400 | reading an INI cut list fails exactly when the number of cuts is missing or not an `i32`, or a later cut lacks a kind that cut 0 introduced; no cut gives an empty cut list, and otherwise the kinds are those of cut 0, each with its positive-duration cuts in order |
| VideoCutting.ExtendEach | src/video/cutting/cutlist.rs:541-549 | a later cut is taken up kind by kind in any order: it fails exactly when one kind cannot be read, and otherwise every kind gains that cut's item if it has one |
| VideoCutting.SplitStrOf | src/video/cutting/cutlist.rs:461-489 | a split string exists exactly for a kind of the cut list, the error names the missing kind, and the cut points read back from the split string |
| VideoCutting.CutList.constructor | src/video/cutting/cutlist.rs:296 | a new cut list has no kind |
| VideoCutting.CutList.AddFirstKind | src/video/cutting/cutlist.rs:536-540 | at cut 0 a kind is introduced exactly when its item reads with positive duration |
| VideoCutting.CutList.ExtendLaterCut | src/video/cutting/cutlist.rs:542-549 | a later cut succeeds exactly when every kind reads, keeps the kinds, and appends each kind's item if it has one |
| VideoCutting.CutList.ExtendFromIniCut | src/video/cutting/cutlist.rs:531-552 | one cut changes the items as the cut-by-cut reading prescribes, and fails exactly when that reading does |
| VideoCutting.CutList.Validate | src/video/cutting/cutlist.rs:494-527 | a cut list is valid exactly when it has a kind and no item starts after its end; overlaps are never reported, because the previous item is never recorded |
| VideoCutting.CutList.ToMkvmergeSplitStr | src/video/cutting/cutlist.rs:461-489 | the loop builds the split string described above |
| VideoCutting.CutList.FromStr | src/video/cutting/cutlist.rs:270-328 | the method yields a fresh cut list holding exactly the items of the intervals text, or its error |
| VideoCutting.CutList.TryFromIni | src/video/cutting/cutlist.rs:331-401 | the loop over the cuts yields a fresh cut list holding exactly the items read from the INI data, or the error of the failing step with the cut list ID or "unknown" |
| VideoCutting.ExecMkvmerge | src/video/cutting/mod.rs:244-266 | mkvmerge runs on the split string of the kind, and a kind the cut list lacks is an error |
| VideoCutting.CutWithMkvmerge | src/video/cutting/mod.rs:239-282 | the cut succeeds exactly when mkvmerge succeeds for some kind; otherwise the error is that of a kind tried, or "Default cut error" without kinds, under "mkvmerge returned an error" |
| VideoCutting.Applied | src/video/cutting/mod.rs:83-94 | a cut list read directly succeeds exactly when it is valid and some kind cuts; an invalid one and a failed cut each give their own `Any` error |
| VideoCutting.ApplyCutlist | src/video/cutting/mod.rs:85-94 | validating, then cutting, gives that outcome |
| VideoCutting.CutWithIntervals | src/video/cutting/mod.rs:72-95 | cutting with an intervals text succeeds exactly when it reads, its items start before they end, and mkvmerge cuts with them; every failure is `Any` |
| VideoCutting.CutFromFile | src/video/cutting/mod.rs:99-129 | cutting with a cut list file succeeds exactly when the file gives a valid cut list that cuts; a reading error is returned as `Any` |
| VideoCutting.CutlistFromId | src/video/cutting/cutlist.rs:425-448 | a download error is returned as it is; the provider's "Not found." answer and an answer that is not INI data are errors naming the ID; otherwise the cuts are exactly those read from the INI data |
| VideoCutting.CutById | src/video/cutting/mod.rs:134-167 | cutting by ID succeeds exactly when the cut list is retrieved, valid and cuts; a retrieval error is "Could not retrieve cut list ID=" with the ID |
| VideoCutting.AutoSelected | src/video/cutting/mod.rs:174-235 | no header list gives `NoCutlist` and nothing else does; any other failure is `Any` |
| VideoCutting.AutoSelectedMeaning | src/video/cutting/mod.rs:194-232 | automatic selection succeeds exactly when some header's cut list is usable and no earlier header ended the loop; when no header ends it the error is "No cut list could be successfully applied to cut video" |
| VideoCutting.InvalidAborts | src/video/cutting/mod.rs:199-201 | the first invalid cut list retrieved before any cut ends the selection with "Cut list ... is not valid", whatever later headers would do |
| VideoCutting.TryHeader | src/video/cutting/mod.rs:197-224 | one header ends the loop exactly when its cut list is retrieved and is invalid or cuts, with success only for a usable one |
| VideoCutting.AutoSelect | src/video/cutting/mod.rs:174-235 | the loop with its flag `is_cut` gives the outcome of automatic selection |
| VideoCutting.Cut | src/video/cutting/mod.rs:50-68 | `cut` never returns `Default`, returns `NoCutlist` exactly for automatic selection without headers, and on a direct access type succeeds exactly when the cut list read is valid and cuts |
| VideoCutting.InvalidNeverRuns | src/video/cutting/mod.rs:83-88 | on a direct access type an invalid cut list fails with `Any` before mkvmerge runs, so the outcome does not depend on mkvmerge |
| PointCutting.HeadersOffered | src/video/cutting.rs:143-210 | the headers offered are exactly those of the answer without errors, each with its own rating or 0 and the kind its `withframes` gives, sorted lowest rating first |
| PointCutting.PointTextReadsBack | src/video/cutting.rs:218-231 | a time cut point within `u64` microseconds is displayed as a text that reads back as the same time; a frame cut point reads back as the frame number rounded half to even |
| PointCutting.TagAllSnoc | src/video/cutting.rs:357 | tagging the items with a kind distributes over appending one item |
| PointCutting.CutlistItemNew | src/video/cutting.rs:242-267 | a cut exists exactly when both texts are numbers; it is no cut exactly when the duration is not positive, and otherwise both points have the header's kind and the end lies `duration` after the start |
| PointCutting.Cutlist | src/video/cutting.rs:287-362 | the downloaded cut list reads exactly when the cuts of the header's kind read, and gives those cuts, in order, tagged with that kind |
| PointCutting.ReadCut | src/video/cutting.rs:330-358 | one cut reads exactly when its section and both attributes of the kind exist and hold numbers, and gives the cut read from the INI data, tagged with the kind |
| PointCutting.PiecesOfKind | src/video/cutting.rs:386 | the pieces of cuts whose points all have the header's kind are the split pieces of their values |
| PointCutting.PointPiecesSnoc | src/video/cutting.rs:382-387 | the pieces of one more cut are the previous pieces and that cut's piece |
| PointCutting.PointsSplitStrSnoc | src/video/cutting.rs:382-387 | one more cut appends ",+" (except for the first) and its piece to the split string |
| PointCutting.SplitString | src/video/cutting.rs:376-387 | the loop builds the prefix of the header's kind followed by the pieces joined with ",+" |
| PointCutting.SplitStringOfKind | src/video/cutting.rs:376-387 | the split string of cuts of one kind equals the split string of their values, and its cut points read back |
| PointCutting.CutWithMkvmerge | src/video/cutting.rs:366-403 | the cut succeeds exactly when mkvmerge accepts the split string, and its failure carries "mkvmerge returned an error" |
| PointCutting.CutOutcome | src/video/cutting.rs:46-104 | a failed header request is `NoCutlist` and nothing else is; the video is cut exactly when some header offered has a cut list that reads and that mkvmerge accepts; otherwise the error names the file |
| PointCutting.TryHeader | src/video/cutting.rs:64-93 | one header cuts exactly when its cut list downloads, reads and is accepted by mkvmerge |
| PointCutting.Cut | src/video/cutting.rs:46-104 | the loop with its flag `is_cut` gives that outcome, and the header used is the first, in the order tried, whose cut list cuts |
| VideoCutlist.CutList.constructor | src/video/cutlist.rs:272-275 | a new cut list has the given kind and no items |
| VideoCutlist.CutList.FromStr | src/video/cutlist.rs:208-265 | an intervals text gives a fresh cut list of its kind with its items in textual order, unvalidated; a text that does not match and a point that does not read each give their message |
| VideoCutlist.CutList.TryFromHeader | src/video/cutlist.rs:267-349 | a download error is returned as it is; otherwise the cut list reads exactly when the cuts of the header's kind read, and holds that kind and those cuts in order |
| VideoCutlist.CutList.IsValid | src/video/cutlist.rs:354-369 | a cut list is valid exactly when no item starts after it ends; the overlap check never fires |
| VideoCutlist.CutList.ToMkvmergeSplitStr | src/video/cutlist.rs:372-393 | the split string is the prefix of the kind followed by the parts in item order, and the cut points read back from it |
| VideoCutlist.ReadItem | src/video/cutlist.rs:319-344 | one cut reads exactly when its section and the attributes of the kind exist and hold numbers, and then gives the cut read from the INI data |
| VideoCutlist.OverlapsPass | src/video/cutlist.rs:361-365 | two overlapping items that each start before they end pass the check |
| Decoding.HexValue | src/video/decoding.rs:501-507 | a hex digit has a value below 16 |
| Decoding.HexDigit | src/video/decoding.rs:125-126 | the digit written for a value below 16 is a hex digit with that value |
| Decoding.HexDecode | src/video/decoding.rs:501-507 | `hex::decode` succeeds exactly on an even number of hex digits and gives one byte per two digits |
| Decoding.HexEncode | src/video/decoding.rs:125-126 | `{:02x}` of a byte string gives two hex digits per byte |
| Decoding.HexRoundTrip | src/video/decoding.rs:125-126 | decoding the hex text of a byte string gives back that byte string |
| Decoding.ReducedIndex | src/video/decoding.rs:500-505 | dropping every third character of the hash keeps `|h| - |h|/3` characters, the `j`-th kept one being the character at `j + j/2` |
| Decoding.ReducedSpread | src/video/decoding.rs:500-505 | dropping every third character of a hex text with one filler after every two digits gives back the hex text |
| Text.Utf8LenConcat | src/video/decoding.rs:496 | the UTF-8 length of a concatenation is the sum of the lengths |
| Text.Utf8LenAscii | src/video/decoding.rs:496 | a text is as long in bytes as in characters exactly when it is ASCII |
| Text.Utf8BoundaryPrefix | src/video/decoding.rs:293 | a byte offset is a character boundary exactly when it is the byte length of some prefix |
| Text.StartsWithAsciiBoundary | src/video/decoding.rs:293 | a text that starts with an ASCII prefix can be sliced at the prefix's length in bytes |
| Text.AsciiPrefixBytes | src/video/decoding.rs:293 | the characters that make up the first `|p|` bytes equal an ASCII `p` exactly when the text starts with `p` |
| Decoding.Utf8LenSpread | src/video/decoding.rs:495-505 | the fillers of a spread hash add their own UTF-8 length to the hex digits' |
| Decoding.VerifyChecksum | src/video/decoding.rs:495-510 | a hash whose UTF-8 encoding is not 48 bytes long is an error; the check yields a verdict exactly when the kept characters are an even number of hex digits, and the verdict is true exactly when they spell the checksum |
| Decoding.ChecksumAccepted | src/video/decoding.rs:495-510 | a hash made of the checksum's hex digits with ASCII fillers accepts that checksum and rejects every other one |
| Decoding.NonAsciiFillRejected | src/video/decoding.rs:495-498 | the same hash with any filler outside ASCII is longer than 48 bytes and is rejected whatever the checksum |
| Decoding.HexAscii | src/video/decoding.rs:500-507 | a hex string is as long in bytes as in characters |
| Decoding.DateText | src/video/decoding.rs:155-158 | the date is written with digits only, at least eight of them |
| Decoding.DateTextLength | src/video/decoding.rs:155-158 | a date whose year is below 10000 has exactly eight digits |
| Decoding.CbcKey | src/video/decoding.rs:124-136 | the CBC key interleaves slices of the two hashes with the date: 48 characters plus the date's length |
| Decoding.CbcKeyIsHex | src/video/decoding.rs:124-136 | with hex hashes of 32 characters and an eight-digit date the CBC key is hex text for 28 bytes, so turning it into bytes never fails |
| Decoding.SumConcat | src/video/decoding.rs:142-152 | the total size of two runs of chunks is the sum of their totals |
| Decoding.Repeat | src/video/decoding.rs:144 | `k` copies of a size |
| Decoding.SumRepeat | src/video/decoding.rs:144 | `k` full chunks have `k` times the chunk size |
| Decoding.ChunkSizes | src/video/decoding.rs:142-152 | every chunk size is positive and at most the maximum chunk size |
| Decoding.ChunkSizesMeaning | src/video/decoding.rs:138-152 | the chunk sizes add up to the payload size; full chunks come first, then at most two shorter ones; every chunk of at least a block is made of whole blocks, and only the last can be shorter than a block |
| Decoding.DecodeChunk | src/video/decoding.rs:163-176 | a chunk shorter than a block comes back unchanged; a longer one is decrypted |
| Decoding.ChunksDecodable | src/video/decoding.rs:163-176 | a chunk of the computed sizes is returned as it is or decrypted: the whole-block rule of the cipher never fails on it |
| Decoding.SplitTwo | src/video/decoding.rs:466-467 | a segment holding '=' splits into at least two fields, so indexing the second does not panic |
| Decoding.ParamsOfKeys | src/video/decoding.rs:459-468 | a key is among the parameters exactly when some non-empty segment has it |
| Decoding.ParamsOfValues | src/video/decoding.rs:459-468 | the value of a key is that of the last segment with that key |
| Decoding.Params | src/video/decoding.rs:459-478 | the parameters are returned exactly when every required key is present; otherwise the error names the first required key that is missing |
| Decoding.ParamsSnoc | src/video/decoding.rs:461-468 | one more segment adds its key and value, and an empty one adds nothing |
| Decoding.ParamsFromStr | src/video/decoding.rs:459-478 | the two loops give those parameters or that error |
| Decoding.HeaderText | src/video/decoding.rs:414-443 | the header text is read exactly when the file has 522 bytes, starts with "OTRKEYFILE" and its preamble decrypts to text; a shorter file is "File is too short" |
| Decoding.HeaderParams | src/video/decoding.rs:414-454 | the header parameters are read exactly when the header text reads and holds FN, SZ, OH and FH; errors before that are kept, and a missing key is "Could not extract parameters from file header" |
| Decoding.ReadHeaderParams | src/video/decoding.rs:414-454 | the method reads the header parameters exactly as described |
| Decoding.FileSize | src/video/decoding.rs:389-395 | the file size is the value of SZ, within `u64` |
| Decoding.ErrorMarkerBytes | src/video/decoding.rs:292-293 | comparing the answer's first 27 bytes with the ASCII error marker is testing whether the answer starts with the marker, and such an answer can be sliced there |
| Decoding.KeyText | src/video/decoding.rs:278-325 | for an answer that can be sliced after its first 27 bytes: one beginning with OTR's error marker reports the rest of the answer; a decoded answer shorter than two blocks or not made of whole blocks is corrupted; the text is read exactly when every step succeeds, and it is the decryption of the rest with the first block as IV |
| Decoding.KeyParams | src/video/decoding.rs:278-331 | the decoding parameters are read exactly when the key text reads and holds HP; a missing HP is "Could not extract decoding parameters" |
| Decoding.DecodingParams | src/video/decoding.rs:278-331 | the method reads the decoding parameters exactly as described |
| Decoding.ChunksMeaning | src/video/decoding.rs:204-215 | the chunks read have the given sizes and together are the first bytes of the payload |
| Decoding.DecodeAllMeaning | src/video/decoding.rs:220-250 | the decoded video exists exactly when every chunk decodes, and is then the chunks decoded one by one, in order |
| Decoding.Checked | src/video/decoding.rs:255-271 | a decoding is accepted exactly when both checksums fit, the encoded one checked first |
| Decoding.DecodedChecked | src/video/decoding.rs:180-274 | a successful decoding is the payload cut into the computed chunks and decoded one by one, and both header hashes are 48 bytes long and spell the MD5 of the payload and of the video |
| Decoding.ReadChunks | src/video/decoding.rs:204-225 | the first loop reads all the chunks exactly when the payload is long enough |
| Decoding.WriteDecoded | src/video/decoding.rs:233-250 | the second loop appends the decoded chunks to the output file in order, and changes no other file |
| Decoding.DecodeInParallel | src/video/decoding.rs:180-274 | an output file that cannot be created is "Could not create result file" and changes nothing; otherwise the output file is created and gets the decoded video, which must pass both checksums, and no other file changes |
| Decoding.Md5Hex | src/video/decoding.rs:125-126 | the hex text of an MD5 digest has 32 hex digits |
| Decoding.CbcKeyOfIsHex | src/video/decoding.rs:75-81 | for a four-digit year the CBC key decodes into 28 bytes |
| Decoding.Prepare | src/video/decoding.rs:54-94 | a missing file and an unreadable header give their errors; once prepared, the file has its header, holds FN, SZ, OH and FH, and is at least SZ bytes long |
| Decoding.DecodePrepared | src/video/decoding.rs:97-121 | a decoding error removes the output file; success keeps the decoded video and removes the encoded file; a failed removal of the encoded file is "Could not remove … after successful decoding" with the decoded video in place |
| Decoding.BaseName | src/video/decoding.rs:116 | the file name is the part of the path after its last '/' |
| Decoding.Decode | src/video/decoding.rs:54-121 | an error before decoding changes no file; a decoding error removes the output file; success keeps the decoded video and removes the encoded file, and a failed removal of the encoded file is returned as an error |
| VideoNames.StatusCmpIsRankOrder | src/video/mod.rs:51-61 | `partial_cmp` of the status is the total order Encoded < Decoded < Cut |
| VideoNames.Next | src/video/mod.rs:63-73 | the status iterator yields exactly the next status in that order, and nothing after Cut |
| VideoNames.FindFrom | src/video/mod.rs:104 | the search yields the first position from the start at which the pattern occurs, or nothing when it occurs nowhere |
| VideoNames.FindFromPrefix | src/video/mod.rs:104 | the first occurrence within a string stays the first occurrence in every extension of it |
| VideoNames.LastIndex | src/video/mod.rs:104 | the search yields the last position of a character, or nothing when it does not occur |
| VideoNames.LastIndexOf | src/video/mod.rs:104 | the last position of a character followed by a text without it is where it stands |
| VideoNames.ContainsAt | src/video/mod.rs:107 | a text contains every pattern that occurs in it |
| VideoNames.ContainsExtended | src/video/mod.rs:107 | what a text contains, every text it begins also contains |
| VideoNames.Pieces | src/video/mod.rs:104 | a name splits into at least one piece between its dots |
| VideoNames.UncutRest | src/video/mod.rs:104 | a rest that the uncut pattern accepts has two to four non-empty pieces |
| VideoNames.NameSplit | src/video/mod.rs:104-107 | a name whose prefix ends at the first "_TVOON_DE." is that prefix, a dot and the rest, and is classified on those parts |
| VideoNames.ClassifyRenamed | src/video/mod.rs:104-107 | replacing what follows the prefix keeps the prefix, so the new name is classified on the same prefix |
| VideoNames.PrefixKept | src/video/mod.rs:104-107 | the end of the prefix does not move when the rest is replaced |
| VideoNames.ClassifyJoined | src/video/mod.rs:104-107 | a name joined from a prefix, a dot and a rest is classified on those parts |
| VideoNames.PiecesLast | src/video/mod.rs:104 | the last piece is what follows the last dot, and the other pieces are those of what precedes it |
| VideoNames.PiecesFirst | src/video/mod.rs:104 | a non-empty first piece means the text does not start with a dot |
| VideoNames.UncutEncoded | src/video/mod.rs:104 | an encoded rest ends with ".otrkey", and dropping it leaves a decoded rest with the same groups |
| VideoNames.NotInSlice | src/video/mod.rs:107 | a character absent from a text is absent from each slice of it |
| VideoNames.CutFront | src/video/mod.rs:107 | a rest whose part before ".otrkey" matches the cut pattern matches it too |
| VideoNames.CutRestOf | src/video/mod.rs:107 | "cut." inserted before the last piece of a text without line breaks matches the cut pattern |
| VideoNames.LastIndexBehind | src/video/mod.rs:104 | the last dot of a name lies in the part behind its prefix when that part has one |
| VideoNames.SlicesBehind | src/video/mod.rs:104 | slicing a name at a position behind its prefix slices the part behind it |
| VideoNames.StemBehind | src/video/mod.rs:305 | stem and extension of a name are those of the part behind its prefix |
| VideoNames.StemOfBehind | src/video/mod.rs:305 | the stem of a name ends where the part behind the prefix has its last dot |
| VideoNames.ExtensionBehind | src/video/mod.rs:315 | the extension of a name is the extension of the part behind the prefix |
| VideoNames.CutInserted | src/video/mod.rs:314-316 | inserting "cut." before the last piece of the name inserts it before the last piece of the rest |
| VideoNames.EndsBehind | src/video/mod.rs:104 | a name whose rest ends with ".otrkey" ends with it |
| VideoNames.ClassifyMeaning | src/video/mod.rs:95-160 | a video's name has a prefix of the key grammar with which its key starts; it is cut exactly when the rest matches the cut pattern, encoded names end with ".otrkey", and decoded names have an extension |
| VideoNames.PartsMeaning | src/video/mod.rs:110-156 | the same facts for a name given as prefix and rest |
| VideoNames.NextPathOf | src/video/mod.rs:295-319 | a cut video keeps its path; for the others the next path fails exactly when the working directory of the next status is unknown |
| VideoNames.PartsDecoded | src/video/mod.rs:297-305 | dropping ".otrkey" from an encoded rest gives a decoded rest with the same key |
| VideoNames.PartsCut | src/video/mod.rs:306-316 | inserting "cut." before the last piece of a decoded rest gives a cut rest |
| VideoNames.DecodedNameKeepsKey | src/video/mod.rs:297-305 | the decoded file name is the encoded name without ".otrkey", and it is a decoded video with the same key |
| VideoNames.DecodedStep | src/video/mod.rs:297-305 | the same for a name given as prefix and rest |
| VideoNames.CutNameIsCut | src/video/mod.rs:306-316 | the cut file name, "cut." before the extension, is that of a cut video; its key may differ from the decoded file's key |
| VideoNames.CutStep | src/video/mod.rs:306-316 | the same for a name given as prefix and rest |
| VideoNames.VideoCmpMeaning | src/video/mod.rs:163-191 | two videos are equal exactly when key and status are, a video is smaller exactly when its key is smaller or the key is the same and its status higher, and the order is antisymmetric |
| VideoFiles.Video.constructor | src/video/mod.rs:86-90 | a video holds the path, key and status it is given |
| VideoFiles.Video.TryFrom | src/video/mod.rs:95-160 | a path is a video exactly when its file name matches one of the two patterns; the video then shows key and status in its name, and otherwise the error names the path |
| VideoFiles.Video.IsProcessed | src/video/mod.rs:217-219 | a video is processed exactly when it has no next status |
| VideoFiles.Video.ChangeToNextStatus | src/video/mod.rs:324-332 | a cut video stays as it is; otherwise the path becomes the next path computed from the old status and the status advances, and an error changes nothing |
| VideoFiles.Video.MoveToWorkingDir | src/video/mod.rs:336-354 | an unknown directory is returned as an error; a video already in its directory stays; otherwise the rename's outcome is returned and the path changes only when it succeeds |
| VideoFiles.Video.Cut | src/video/mod.rs:223-269 | only a decoded video is cut; a failed cut is only reported and changes nothing; a successful cut gives the cut path and status Cut, and the name still shows the status |
| VideoFiles.Video.Decode | src/video/mod.rs:273-290 | only an encoded video is decoded; a decoding error is returned and changes nothing; success gives the decoded path and status, and a valid video stays valid |
| VideoFiles.NextPathDecoded | src/video/mod.rs:297-305 | the decoded path's file name shows the same key and status Decoded |
| VideoFiles.NextPathCut | src/video/mod.rs:306-316 | the cut path's file name is that of a cut video |
| VideoFiles.NamedNextPathDefined | src/video/mod.rs:295-319 | every video whose path lies at least two levels deep can take its next path without a panic |
| OldVideo.MoveToWorkingDir | src/video.rs:316-336 | this older version never reports an error: the path changes only when the directory is known, differs from the current one, and the rename succeeds |
| CutCommand.CutVideo | src/cut.rs:49-130 | only a decoded video is cut; the cut succeeds exactly when the cut step succeeds for its file name, giving the cut video, and otherwise its error |
| Pipeline.SortedOrdered | src/video/collecting.rs:62-66 | a list sorted by the video order has keys ascending and, within one key, statuses descending |
| Pipeline.OrderedTail | src/main.rs:32 | the tail of such a list is ordered too, and no key in it lies below the head's |
| Pipeline.ConsAbove | src/main.rs:32 | an entry above `k` put before entries above it keeps everything above `k` |
| Pipeline.ConsAscending | src/main.rs:32 | an entry below all the keys of an ascending list keeps it ascending when put in front |
| Pipeline.FirstShift | src/main.rs:32 | an entry first of its key in the tail is first in the whole list when the head has another key |
| Pipeline.AllFirstTail | src/main.rs:32 | entries first of their key in the tail stay first in the whole list when they lie above the head's key |
| Pipeline.AllFirstCons | src/main.rs:32 | the head of a list is the first of its key, so it can be put in front of entries first of theirs |
| Pipeline.AllKeptSkip | src/main.rs:32 | a dropped head whose key is `k` loses no key other than `k` |
| Pipeline.AllKeptCons | src/main.rs:32 | keeping the head keeps its key and every key kept behind it |
| Pipeline.DedupAfterOrdered | src/main.rs:32 | what `dedup_by` keeps behind a video with key `k` has keys strictly above `k` and strictly ascending, each the first entry of its key, and every key other than `k` is kept |
| Pipeline.FirstIsHighest | src/main.rs:27-32 | in the sorted list the first entry of a key has the highest status of that key |
| Pipeline.DedupSorted | src/main.rs:27-32 | after `dedup_by` on the sorted list the keys are pairwise distinct, every key is left, and the entry left for a key is the first of that key, the one of highest status |
| Pipeline.AscendingDistinct | src/main.rs:32 | strictly ascending keys are pairwise distinct |
| Pipeline.KeptAll | src/main.rs:32 | a kept head together with every other key kept leaves every key of the list |
| Pipeline.HighestLeft | src/main.rs:27-32 | each entry left has the highest status of its key |
| Pipeline.Handle | src/main.rs:43-62 | the decode command decodes, the cut command cuts with the rating of the command line, and processing decodes and then cuts without a rating |
| Pipeline.HandleAll | src/main.rs:43-64 | every deduplicated video is handled, in order, whatever happened to the ones before |
| Pipeline.FoldMeaning | src/main.rs:68-75 | the fold gives the general error when some video has an error, and what it started with otherwise |
| Pipeline.ProcessResultMeaning | src/main.rs:18-76 | a collecting error is passed on; otherwise the run fails exactly when some deduplicated video ends with an error, with the general error "An error occurred during processing of OTR videos" |
| Pipeline.ExitCode | src/main.rs:99-101 | the exit status is 1 exactly when processing fails and 0 otherwise |
| TrackInfo.KindOf | otr-utils/src/info.rs:206-212 | a track is audio exactly for "audio", video exactly for "video", and unknown for anything else |
| TrackInfo.CodecOf | otr-utils/src/info.rs:195-203 | each of "ac3", "mp3", "h264" and "mpeg4" gives its codec, and any other name gives Unknown |
| TrackInfo.KindTextRoundTrip | otr-utils/src/info.rs:18-31 | the display text of a track kind reads back as that kind |
| TrackInfo.CodecTextNotName | otr-utils/src/info.rs:34-51 | the display texts of codecs are not the names ffprobe reports, so none of them reads back as a known codec |
| TrackInfo.TrackOf | otr-utils/src/info.rs:126-135 | a track combines the index track and the ffprobe track of the same number |
| TrackInfo.LeadingTrack | otr-utils/src/info.rs:168-185 | the leading track is the first video track, or the first audio track when there is no video track; it is missing exactly when there is neither |
| TrackInfo.Entries | otr-utils/src/info.rs:105-110 | the loop makes one entry per frame, in frame order, with that frame's timestamp |
| TrackInfo.TwiceCounted | otr-utils/src/info.rs:111 | an element at two positions occurs at least twice |
| TrackInfo.EntriesOnce | otr-utils/src/info.rs:105-110 | every entry occurs at most once, because the frames differ |
| TrackInfo.TimeIndexMeaning | otr-utils/src/info.rs:105-111 | the index is sorted by timestamp and holds exactly one entry for each frame of the leading track, with that frame's timestamp |
| TrackInfo.Times | otr-utils/src/info.rs:149 | the timestamps of the index, one per entry and in its order |
| TrackInfo.SortedTimes | otr-utils/src/info.rs:149 | the timestamps of an index sorted by timestamp are sorted |
| TrackInfo.FrameNoFromTimestamp | otr-utils/src/info.rs:140-160 | an empty index is an error; otherwise the frame is that of an entry with the timestamp if one exists, else of the first later entry, else of the last entry |
| TrackInfo.New | otr-utils/src/info.rs:62-117 | indexer and indexing failures and ffprobe's error are returned, a missing leading track is "Cannot create index for mapping from timestamps to frame numbers", and otherwise the metadata hold the tracks and the sorted index of the leading track |

## Left out

- HTTP is not modelled: the header and cut-list requests to cutlist.at, the
  submission of cut lists (otr-utils/src/cutting/cutlist.rs:541-612) and the
  key request to OTR (src/video/decoding.rs:278-291). Their responses are
  inputs of the operations that use them.
- Parsing INI text (`Ini::load_from_str` of the ini crate) is not modelled.
  INI data is a map of sections; reading it from a file or from the
  provider's answer is a parameter (`loadFile`, `parseIni`).
- Cryptography and encodings are not modelled: Blowfish in ECB and CBC mode,
  MD5, base64 and the random IV and payload of the key request. They are
  oracles of module `Decoding`, and the request text itself is a parameter.
  A Blowfish failure panics inside its decoding thread; joining that thread
  then fails, which the source reports as "Could not create decoded video
  file", and so does the model when the oracle fails on a chunk.
- Threads and channels are not modelled. `decode_in_parallel` and the hashing
  threads are modelled by their sequential equivalent, which is exact because
  the handles are joined in the order they were started.
- Subprocesses and native libraries are oracles: mkvmerge, ffmpeg, ffprobe and
  the ffms2 indexer. Each one returns success or failure, or the data it
  reports. `is_installed` is not part of this model.
- The file system is modelled by parameters: rename, the outcomes of
  create_dir_all, read_dir, create and remove_file, and file contents as a
  map from paths to bytes.
  - The directory scans of src/video/collecting.rs and `collect_and_sort`
    (src/video.rs:243-314) are not modelled. What they produce, a list sorted
    by the video order, is the input of `Pipeline`.
  - A failing `write_all` on the decoded file (src/video/decoding.rs:238-240)
    is not modelled: writing never fails in the model.
- Configuration, command line and working directories are not modelled
  (src/cfg.rs, src/video/cfg.rs, the dirs modules, the cli modules). The
  directory of each status is a parameter `dirs`.
- Logging, `println!`/`eprintln!` and the clock are not modelled. The current
  date is a parameter of the key request.
- The "processed already" message of src/main.rs is only logged and is not
  modelled.
- The kinds of cut errors in `src/video/cutting.rs` and `src/cut.rs` only
  choose log messages; the model keeps them as values.
- Floating point is replaced by exact arithmetic:
  - `f64` cut-list bounds and ratings are exact millionths. The model
    truncates digits past the sixth decimal place, where `f64` would round to
    the nearest binary value.
  - Exponent notation, `inf` and `NaN` are not parsed. The model gives a
    parse error where `f64::from_str` would accept them.
  - `Time::from(f64)` and `Frame::from(f64)` are modelled as saturating
    truncation of the exact value.
  - `{:.0}` is modelled as round-half-even of the exact value.
  - PTS × time-base arithmetic in `Metadata::new` is not modelled. The
    timestamps of frames are inputs.
  - `f64::powf` in fraction parsing is modelled as an exact power of ten.
- Regular expressions are replaced by explicit grammars:
  - The repeated groups of RE_TIME, which capture only their last
    repetition, are not modelled. The model reads each field once.
  - The interval regex of the cut-list code, `(\[[^,]+,[^,]+\])+`, also admits
    brackets inside a bound. The model uses the grammar without them: bounds
    contain no '[', ']' or ','.
  - Unicode `\d` is modelled as the ASCII digits.
- Text.ToUpper: `to_uppercase` is modelled exactly for the characters whose
  upper case holds an ASCII letter; every other character is kept as it is.
  Whether the upper-cased text contains "FRAME" or "TIME", all that
  `Intervals.BoundaryTypeFromStr` asks, is the same as with the full Unicode
  mapping, because the characters kept and their real upper cases are both
  free of ASCII.
- Error texts that come from libraries are not reproduced:
  - the `FromUtf8Error` text of an undecodable header or key response is
    "invalid utf-8 sequence", without the byte count and position;
  - `{:?}` of a path or name is the text between double quotes, without the
    escaping Rust's debug format applies to quotes, backslashes and control
    characters;
  - `Display for Time` goes through `f64`; the model writes the exact
    seconds with six decimals (`StreamInfo.TimeText`).
- TimeCode.ParseTime: a time string ending in a bare '.' matches RE_TIME but
  panics in the source; the model excludes it by a precondition, which
  `Intervals.ParseBoundary` and `Intervals.IntervalsFromStr` pass on.
- Intervals.Len: the source subtracts in `usize`/`u64`, so `from <= to` is a
  precondition. `intervals_from_str` calls it on unchecked intervals. There
  the model follows a release build, where the subtraction wraps and an
  interval is kept exactly when `from != to`.
- Decoding.Decode: an SZ below the 522-byte header length is a precondition
  (`Decoding.Completes`) once the output file is created. The source then
  subtracts in `usize`, which panics in a debug build and, wrapped in a
  release build, asks for a chunk vector too large to allocate.
- Decoding.Decode: a failing removal of the output file after a decoding
  error panics in the source, so its success is a precondition there too.
- Intervals.FromStartDuration: the sum `start + duration` is taken in `u64`,
  so it must not pass the maximum; the model has no overflow panic or wrap.
- The guard `MAX_CHUNK_SIZE % BLOCK_SIZE != 0` (src/video/decoding.rs:56) is
  always false for the constants of the source, so its error branch is not
  modelled.
- These other panics of the source are preconditions:
  - a key response whose first 27 bytes (the marker's length) are missing or
    end inside a character, which is where the byte slice of
    src/video/decoding.rs:293 panics;
  - a parameter segment without '=';
  - an SZ value that does not parse;
  - ffprobe data without the leading track of the index;
  - the `unwrap` calls of `src/cut.rs` when it makes the cut video and finds
    the archive directory.
- Failing to start mkvmerge panics in src/cut.rs.
  This is not modelled: the mkvmerge oracle only reports whether the run
  succeeded.
- Ffmpeg.CuttingDir.Cut: removing the cutting directory never fails in the
  model; the source panics with "Cannot remove cutting directory" when
  `remove_dir_all` fails (otr-utils/src/cutting/ffmpeg.rs:96-97).
- Cross-file calls whose signatures do not match the functions shown are
  parameters: `headers_from_provider` at src/video/cutting/mod.rs:187,
  `has_frame_intervals` at otr-utils/src/cutting/mod.rs:318, the `Video` API
  as src/main.rs calls it, and `Video::new_cut_from_decoded`.
- Paths are sequences of text components joined by '/'. The escaping of
  paths in `Debug` output and file names that are not UTF-8 are not modelled.
  Because of this, a `Utf8Error` has no text of its own.
- VideoFiles.Video.Cut: renaming the decoded file into the archive directory
  is only logged in the source, so the model does not record where that file
  goes.
