/** The bookkeeping of the OTRKEY decoder in `src/video/decoding.rs`: the
    checks on the file header and on the key response, the parameter
    strings, the checksum comparison, the key of the key request, the
    chunking of the payload and the order in which decoded chunks are
    written.  Blowfish, MD5, base64 and UTF-8 decoding are oracles. */
module Decoding {
  import opened Wrappers
  import opened Text
  import opened Numbers
  import opened FirstMatch

  newtype byte = x: int | 0 <= x < 256

  const FILETYPE_LENGTH: nat := 10
  const PREAMBLE_LENGTH: nat := 512
  const HEADER_LENGTH: nat := FILETYPE_LENGTH + PREAMBLE_LENGTH
  const OTRKEY_FILETYPE := "OTRKEYFILE"
  const OTR_ERROR_INDICATOR := "MessageToBePrintedInDecoder"
  const PARAM_FILENAME := "FN"
  const PARAM_FILESIZE := "SZ"
  const PARAM_ENCODED_HASH := "OH"
  const PARAM_DECODED_HASH := "FH"
  const PARAM_DECODING_KEY := "HP"
  const BLOCK_SIZE: nat := 8
  const MAX_CHUNK_SIZE: nat := 10 * 1024 * 1024

  // ---------------------------------------------------------------------
  // Hexadecimal strings (the `hex` crate and `{:02x}`)

  predicate IsHexDigit(c: char) {
    '0' <= c <= '9' || 'a' <= c <= 'f' || 'A' <= c <= 'F'
  }

  predicate IsHex(s: string) {
    forall i :: 0 <= i < |s| ==> IsHexDigit(s[i])
  }

  function HexValue(c: char): (v: nat)
    requires IsHexDigit(c)
    ensures v < 16
  {
    if '0' <= c <= '9' then c as nat - '0' as nat
    else if 'a' <= c <= 'f' then c as nat - 'a' as nat + 10
    else c as nat - 'A' as nat + 10
  }

  function HexDigit(v: nat): (c: char)
    requires v < 16
    ensures IsHexDigit(c) && HexValue(c) == v
  {
    if v < 10 then ('0' as nat + v) as char else ('a' as nat + v - 10) as char
  }

  /** `hex::decode`: an even number of hex digits, two per byte. */
  function HexDecode(s: string): (r: Option<seq<byte>>)
    ensures r.Some? <==> |s| % 2 == 0 && IsHex(s)
    ensures r.Some? ==> |r.value| == |s| / 2
    decreases |s|
  {
    if |s| == 0 then Some([])
    else if |s| == 1 || !IsHexDigit(s[0]) || !IsHexDigit(s[1]) then None
    else
      assert forall i :: 2 <= i < |s| ==> s[i] == s[2..][i - 2];
      match HexDecode(s[2..])
      case None => None
      case Some(rest) => Some([(HexValue(s[0]) * 16 + HexValue(s[1])) as byte] + rest)
  }

  /** `{:02x}` of a byte string: two lower-case hex digits per byte. */
  function HexEncode(b: seq<byte>): (s: string)
    ensures |s| == 2 * |b| && IsHex(s)
  {
    if b == [] then ""
    else [HexDigit(b[0] as nat / 16), HexDigit(b[0] as nat % 16)] + HexEncode(b[1..])
  }

  lemma {:induction false} HexRoundTrip(b: seq<byte>)
    ensures HexDecode(HexEncode(b)) == Some(b)
  {
    if b != [] {
      HexRoundTrip(b[1..]);
      var s := HexEncode(b);
      assert s[2..] == HexEncode(b[1..]);
      assert b == [b[0]] + b[1..];
    }
  }

  // ---------------------------------------------------------------------
  // Checksums

  /** The 48-character hash with every third character dropped (those at
      0-based positions 2, 5, 8, ...). */
  function Reduced(h: string): string
    decreases |h|
  {
    if |h| < 3 then h else h[..2] + Reduced(h[3..])
  }

  /** The `j`-th character kept is the one at `j + j / 2`. */
  lemma {:induction false} ReducedIndex(h: string)
    ensures |Reduced(h)| == |h| - |h| / 3
    ensures forall j :: 0 <= j < |Reduced(h)| ==> j + j / 2 < |h| && Reduced(h)[j] == h[j + j / 2]
    decreases |h|
  {
    if |h| >= 3 {
      ReducedIndex(h[3..]);
      var r := Reduced(h);
      forall j | 0 <= j < |r|
        ensures j + j / 2 < |h| && r[j] == h[j + j / 2]
      {
        if j >= 2 {
          assert r[j] == Reduced(h[3..])[j - 2];
          assert (j - 2) + (j - 2) / 2 + 3 == j + j / 2;
        }
      }
    }
  }

  /** A hex string with one filler character after every two digits: the
      form of the hashes in the file header. */
  function Spread(s: string, fill: string): (r: string)
    requires |fill| >= |s| / 2
    decreases |s|
  {
    if |s| < 2 then s else s[..2] + [fill[0]] + Spread(s[2..], fill[1..])
  }

  lemma {:induction false} ReducedSpread(s: string, fill: string)
    requires |s| % 2 == 0 && |fill| >= |s| / 2
    ensures |Spread(s, fill)| == |s| + |s| / 2
    ensures Reduced(Spread(s, fill)) == s
    decreases |s|
  {
    if |s| >= 2 {
      ReducedSpread(s[2..], fill[1..]);
      var t := Spread(s, fill);
      assert t[..2] == s[..2] && t[3..] == Spread(s[2..], fill[1..]);
      assert s == s[..2] + s[2..];
    }
  }

  /** The fillers take as many bytes in the spread hash as they take alone. */
  lemma {:induction false} Utf8LenSpread(s: string, fill: string)
    requires |s| % 2 == 0 && |fill| >= |s| / 2
    ensures Utf8Len(Spread(s, fill)) == Utf8Len(s) + Utf8Len(fill[..|s| / 2])
    decreases |s|
  {
    if |s| >= 2 {
      Utf8LenSpread(s[2..], fill[1..]);
      Utf8LenConcat(s[..2] + [fill[0]], Spread(s[2..], fill[1..]));
      Utf8LenConcat(s[..2], [fill[0]]);
      assert s == s[..2] + s[2..];
      Utf8LenConcat(s[..2], s[2..]);
      assert fill[..|s| / 2] == [fill[0]] + fill[1..][..|s[2..]| / 2];
      Utf8LenConcat([fill[0]], fill[1..][..|s[2..]| / 2]);
    } else {
      assert fill[..|s| / 2] == [];
    }
  }

  const HASH_LENGTH_ERROR := "MD5 hash must be 48 characters long"

  /** `verify_checksum`: the hash must take 48 bytes in UTF-8; the characters
      kept by `Reduced` must be hex digits, and they must spell the checksum. */
  function VerifyChecksum(checksum: seq<byte>, hash: string): (r: Result<bool>)
    ensures Utf8Len(hash) != 48 ==> r == Err(HASH_LENGTH_ERROR)
    ensures r.Ok? <==> Utf8Len(hash) == 48 && |Reduced(hash)| % 2 == 0 && IsHex(Reduced(hash))
    ensures r == Ok(true) <==> Utf8Len(hash) == 48 && HexDecode(Reduced(hash)) == Some(checksum)
  {
    if Utf8Len(hash) != 48 then Err(HASH_LENGTH_ERROR)
    else
      match HexDecode(Reduced(hash))
      case None => Err("Could not turn hash {} into bytes")
      case Some(bytes) => Ok(checksum == bytes)
  }

  /** A hash written as the hex digits of the checksum with ASCII fillers
      accepts that checksum, and no other. */
  lemma ChecksumAccepted(checksum: seq<byte>, other: seq<byte>, fill: string)
    requires |checksum| == 16 && |fill| == 16 && IsAscii(fill)
    ensures VerifyChecksum(checksum, Spread(HexEncode(checksum), fill)) == Ok(true)
    ensures other != checksum ==> VerifyChecksum(other, Spread(HexEncode(checksum), fill)) == Ok(false)
  {
    ReducedSpread(HexEncode(checksum), fill);
    HexRoundTrip(checksum);
    HexAscii(HexEncode(checksum));
    Utf8LenSpread(HexEncode(checksum), fill);
    Utf8LenAscii(fill);
    assert fill[..16] == fill;
  }

  /** With a filler outside ASCII the same hash is more than 48 bytes long
      and is rejected whatever the checksum. */
  lemma NonAsciiFillRejected(checksum: seq<byte>, other: seq<byte>, fill: string)
    requires |checksum| == 16 && |fill| == 16 && !IsAscii(fill)
    ensures VerifyChecksum(other, Spread(HexEncode(checksum), fill)) == Err(HASH_LENGTH_ERROR)
  {
    HexAscii(HexEncode(checksum));
    Utf8LenSpread(HexEncode(checksum), fill);
    Utf8LenAscii(fill);
    assert fill[..16] == fill;
  }

  /** Hex digits are ASCII, one byte each. */
  lemma HexAscii(s: string)
    requires IsHex(s)
    ensures Utf8Len(s) == |s|
  {
    Utf8LenAscii(s);
  }

  // ---------------------------------------------------------------------
  // The key of the key request

  /** `current_date`: "YYYYMMDD". */
  function DateText(year: nat, month: nat, day: nat): (s: string)
    ensures AllDigits(s) && |s| >= 8
  {
    Padded(year, 4) + Padded(month, 2) + Padded(day, 2)
  }

  /** A date of years below 10000 has exactly eight digits. */
  lemma DateTextLength(year: nat, month: nat, day: nat)
    requires year < 10000 && month < 100 && day < 100
    ensures |DateText(year, month, day)| == 8
  {
    PaddedLength(year, 4);
    PaddedLength(month, 2);
    PaddedLength(day, 2);
  }

  /** `cbc_key` from the hex MD5 hashes of user and password and the date:
      13 + 4 + 11 + 2 + 11 characters, the rest of the date, 13
      characters. */
  function CbcKey(userHash: string, passwordHash: string, now: string): (key: string)
    requires |userHash| >= 32 && |passwordHash| >= 32 && |now| >= 6
    ensures |key| == 48 + |now|
  {
    userHash[0..13] + now[..4] + passwordHash[0..11] + now[4..6] + userHash[21..32] + now[6..] + passwordHash[19..32]
  }

  /** With hex hashes and a date of digits the key is a hex string, so
      it turns into a Blowfish key of 28 bytes for an 8-digit date. */
  lemma CbcKeyIsHex(userHash: string, passwordHash: string, now: string)
    requires |userHash| == 32 && |passwordHash| == 32 && IsHex(userHash) && IsHex(passwordHash)
    requires |now| == 8 && AllDigits(now)
    ensures HexDecode(CbcKey(userHash, passwordHash, now)).Some?
    ensures |HexDecode(CbcKey(userHash, passwordHash, now)).value| == 28
  {
    var key := CbcKey(userHash, passwordHash, now);
    var parts := [userHash[0..13], now[..4], passwordHash[0..11], now[4..6], userHash[21..32], now[6..], passwordHash[19..32]];
    assert forall p :: p in parts ==> IsHex(p);
    assert IsHex(key) by {
      forall i | 0 <= i < |key|
        ensures IsHexDigit(key[i])
      {
        if i < 13 { assert key[i] == userHash[i]; }
        else if i < 17 { assert key[i] == now[i - 13]; }
        else if i < 28 { assert key[i] == passwordHash[i - 17]; }
        else if i < 30 { assert key[i] == now[i - 28 + 4]; }
        else if i < 41 { assert key[i] == userHash[i - 30 + 21]; }
        else if i < 43 { assert key[i] == now[i - 41 + 6]; }
        else { assert key[i] == passwordHash[i - 43 + 19]; }
      }
    }
  }

  // ---------------------------------------------------------------------
  // Chunks

  function Sum(s: seq<nat>): nat {
    if s == [] then 0 else s[0] + Sum(s[1..])
  }

  lemma {:induction false} SumConcat(a: seq<nat>, b: seq<nat>)
    ensures Sum(a + b) == Sum(a) + Sum(b)
  {
    if a == [] {
      assert a + b == b;
    } else {
      assert (a + b)[1..] == a[1..] + b;
      SumConcat(a[1..], b);
    }
  }

  function Repeat(k: nat, v: nat): (s: seq<nat>)
    ensures |s| == k && forall i :: 0 <= i < k ==> s[i] == v
  {
    seq(k, _ => v)
  }

  lemma {:induction false} SumRepeat(k: nat, v: nat)
    ensures Sum(Repeat(k, v)) == k * v
  {
    if k > 0 {
      assert Repeat(k, v)[1..] == Repeat(k - 1, v);
      SumRepeat(k - 1, v);
    }
  }

  /** `chunk_sizes(n)`: full chunks, then the rest rounded down to whole
      blocks, then what is left of the last block. */
  function ChunkSizes(n: nat): (sizes: seq<nat>)
    ensures forall i :: 0 <= i < |sizes| ==> 0 < sizes[i] <= MAX_CHUNK_SIZE
  {
    var fullChunks, remainder := n / MAX_CHUNK_SIZE, n % MAX_CHUNK_SIZE;
    Repeat(fullChunks, MAX_CHUNK_SIZE)
    + (if remainder / BLOCK_SIZE > 0 then [remainder / BLOCK_SIZE * BLOCK_SIZE] else [])
    + (if remainder % BLOCK_SIZE > 0 then [remainder % BLOCK_SIZE] else [])
  }

  /** The sizes add up to `n`; all are full chunks but for one shorter
      chunk of whole blocks and one final piece of less than a block; so
      every chunk of at least a block is made of whole blocks, and only
      the last chunk can be shorter than a block. */
  lemma ChunkSizesMeaning(n: nat)
    ensures Sum(ChunkSizes(n)) == n
    ensures n / MAX_CHUNK_SIZE <= |ChunkSizes(n)| <= n / MAX_CHUNK_SIZE + 2
    ensures forall i :: 0 <= i < n / MAX_CHUNK_SIZE ==> ChunkSizes(n)[i] == MAX_CHUNK_SIZE
    ensures forall i :: n / MAX_CHUNK_SIZE <= i < |ChunkSizes(n)| ==> ChunkSizes(n)[i] < MAX_CHUNK_SIZE
    ensures forall i :: 0 <= i < |ChunkSizes(n)| && ChunkSizes(n)[i] >= BLOCK_SIZE ==> ChunkSizes(n)[i] % BLOCK_SIZE == 0
    ensures forall i :: 0 <= i < |ChunkSizes(n)| && ChunkSizes(n)[i] < BLOCK_SIZE ==> i == |ChunkSizes(n)| - 1
  {
    var fullChunks, remainder := n / MAX_CHUNK_SIZE, n % MAX_CHUNK_SIZE;
    var full := Repeat(fullChunks, MAX_CHUNK_SIZE);
    var blocks := if remainder / BLOCK_SIZE > 0 then [remainder / BLOCK_SIZE * BLOCK_SIZE] else [];
    var rest := if remainder % BLOCK_SIZE > 0 then [remainder % BLOCK_SIZE] else [];
    assert ChunkSizes(n) == full + blocks + rest;
    SumRepeat(fullChunks, MAX_CHUNK_SIZE);
    SumConcat(full + blocks, rest);
    SumConcat(full, blocks);
    assert Sum(blocks) + Sum(rest) == remainder;
  }

  /** `decode_chunk`: a chunk shorter than a block is returned as it is;
      a longer one is decrypted by Blowfish in ECB mode (`ecb`, `None`
      when the key or the cipher fails), which needs whole blocks — a
      failure panics the decoding thread. */
  function DecodeChunk(key: string, chunk: seq<byte>, ecb: (string, seq<byte>) -> Option<seq<byte>>): (r: Option<seq<byte>>)
    ensures |chunk| < BLOCK_SIZE ==> r == Some(chunk)
  {
    if |chunk| < BLOCK_SIZE then Some(chunk)
    else if |chunk| % BLOCK_SIZE != 0 then None
    else ecb(key, chunk)
  }

  /** A chunk of `chunk_sizes` is either returned as it is or decrypted:
      the block rule of the cipher never fails. */
  lemma ChunksDecodable(n: nat, i: nat, key: string, chunk: seq<byte>, ecb: (string, seq<byte>) -> Option<seq<byte>>)
    requires i < |ChunkSizes(n)| && |chunk| == ChunkSizes(n)[i]
    ensures DecodeChunk(key, chunk, ecb) == if |chunk| < BLOCK_SIZE then Some(chunk) else ecb(key, chunk)
  {
    ChunkSizesMeaning(n);
  }

  // ---------------------------------------------------------------------
  // Parameter strings "key1=value1&key2=value2&..."

  lemma SplitTwo(s: string, c: char)
    requires c in s
    ensures |Split(s, c)| >= 2
  {
  }

  /** The key of a segment: the text before the first '='. */
  function SegmentKey(seg: string): string
    requires '=' in seg
  {
    SplitTwo(seg, '=');
    Split(seg, '=')[0]
  }

  /** The value of a segment: the text between the first and a second
      '=', if any. */
  function SegmentValue(seg: string): string
    requires '=' in seg
  {
    SplitTwo(seg, '=');
    Split(seg, '=')[1]
  }

  /** Every segment that is not empty has a '=' (the source indexes the
      second field and panics otherwise). */
  predicate SegmentsWellFormed(segs: seq<string>) {
    forall i :: 0 <= i < |segs| && segs[i] != "" ==> '=' in segs[i]
  }

  predicate ParamsWellFormed(s: string) {
    SegmentsWellFormed(Split(s, '&'))
  }

  /** The map the loop of `params_from_str` builds: segments in order,
      empty ones skipped, a later key overwriting an earlier one. */
  function ParamsOf(segs: seq<string>): map<string, string>
    requires SegmentsWellFormed(segs)
  {
    if segs == [] then map[]
    else
      var init, last := segs[..|segs| - 1], segs[|segs| - 1];
      assert SegmentsWellFormed(init) by {
        assert forall i :: 0 <= i < |init| ==> init[i] == segs[i];
      }
      var m := ParamsOf(init);
      if last == "" then m else m[SegmentKey(last) := SegmentValue(last)]
  }

  /** No later segment has the key of segment `i`. */
  predicate LastWithKey(segs: seq<string>, i: nat)
    requires SegmentsWellFormed(segs) && i < |segs| && segs[i] != ""
  {
    forall j :: i < j < |segs| && segs[j] != "" ==> SegmentKey(segs[j]) != SegmentKey(segs[i])
  }

  /** A key is present iff some segment has it. */
  lemma {:induction false} ParamsOfKeys(segs: seq<string>)
    requires SegmentsWellFormed(segs)
    ensures forall k :: k in ParamsOf(segs) <==> exists i :: 0 <= i < |segs| && segs[i] != "" && SegmentKey(segs[i]) == k
  {
    if segs != [] {
      var init := segs[..|segs| - 1];
      assert forall i :: 0 <= i < |init| ==> init[i] == segs[i];
      ParamsOfKeys(init);
    }
  }

  /** The value of a key is that of the last segment with that key. */
  lemma {:induction false} ParamsOfValues(segs: seq<string>)
    requires SegmentsWellFormed(segs)
    ensures forall i :: 0 <= i < |segs| && segs[i] != "" && LastWithKey(segs, i) ==>
      SegmentKey(segs[i]) in ParamsOf(segs) && ParamsOf(segs)[SegmentKey(segs[i])] == SegmentValue(segs[i])
  {
    if segs != [] {
      var init, last := segs[..|segs| - 1], segs[|segs| - 1];
      assert forall i :: 0 <= i < |init| ==> init[i] == segs[i];
      ParamsOfValues(init);
      forall i | 0 <= i < |segs| && segs[i] != "" && LastWithKey(segs, i)
        ensures SegmentKey(segs[i]) in ParamsOf(segs) && ParamsOf(segs)[SegmentKey(segs[i])] == SegmentValue(segs[i])
      {
        if i < |init| {
          assert LastWithKey(init, i);
          assert last != "" ==> SegmentKey(last) != SegmentKey(segs[i]);
        }
      }
    }
  }

  function MissingParam(key: string): string {
    "Parameter \"" + key + "\" could not be extracted"
  }

  /** The key is not among the parameters. */
  function Lacks(params: map<string, string>): string -> bool {
    (k: string) => k !in params
  }

  /** `params_from_str(s, must_have)`: the parameters, or the first key of
      `must_have` that is missing. */
  function Params(s: string, mustHave: seq<string>): (r: Result<map<string, string>>)
    requires ParamsWellFormed(s)
    ensures r.Ok? <==> forall i :: 0 <= i < |mustHave| ==> mustHave[i] in ParamsOf(Split(s, '&'))
    ensures r.Ok? ==> r.value == ParamsOf(Split(s, '&'))
    ensures r.Err? ==> exists i :: 0 <= i < |mustHave| && mustHave[i] !in ParamsOf(Split(s, '&'))
                        && r.error == MissingParam(mustHave[i])
                        && forall j :: 0 <= j < i ==> mustHave[j] in ParamsOf(Split(s, '&'))
  {
    var params := ParamsOf(Split(s, '&'));
    match FirstSatisfying(mustHave, Lacks(params))
    case Some(i) =>
      assert forall j :: 0 <= j < i ==> !Lacks(params)(mustHave[j]);
      Err(MissingParam(mustHave[i]))
    case None =>
      assert forall j :: 0 <= j < |mustHave| ==> !Lacks(params)(mustHave[j]);
      Ok(params)
  }

  lemma ParamsSnoc(segs: seq<string>, i: nat)
    requires SegmentsWellFormed(segs) && i < |segs|
    ensures SegmentsWellFormed(segs[..i]) && SegmentsWellFormed(segs[..i + 1])
    ensures ParamsOf(segs[..i + 1])
      == if segs[i] == "" then ParamsOf(segs[..i]) else ParamsOf(segs[..i])[SegmentKey(segs[i]) := SegmentValue(segs[i])]
  {
    assert forall j :: 0 <= j < i + 1 ==> segs[..i + 1][j] == segs[j];
    assert segs[..i + 1][..i] == segs[..i];
  }

  /** The two loops of `params_from_str`. */
  method ParamsFromStr(s: string, mustHave: seq<string>) returns (r: Result<map<string, string>>)
    requires ParamsWellFormed(s)
    ensures r == Params(s, mustHave)
  {
    var segs := Split(s, '&');
    var params: map<string, string> := map[];
    for i := 0 to |segs|
      invariant SegmentsWellFormed(segs[..i]) && params == ParamsOf(segs[..i])
    {
      ParamsSnoc(segs, i);
      if segs[i] == "" {
        continue;
      }
      var a := Split(segs[i], '=');
      SplitTwo(segs[i], '=');
      params := params[a[0] := a[1]];
    }
    assert segs[..|segs|] == segs;
    for i := 0 to |mustHave|
      invariant forall j :: 0 <= j < i ==> !Lacks(params)(mustHave[j])
    {
      if mustHave[i] !in params {
        FirstSatisfyingAt(mustHave, Lacks(params), i);
        return Err(MissingParam(mustHave[i]));
      }
    }
    return Ok(params);
  }

  // ---------------------------------------------------------------------
  // The oracles

  /** The libraries the decoder calls: UTF-8 decoding, Blowfish in ECB
      mode with the preamble key (on the 512 header bytes), base64,
      Blowfish in CBC mode (key, IV, data), Blowfish in ECB mode with the
      decoding key (`None` when the thread decoding a chunk panics), MD5,
      and the bytes of a string.  `cbc` fails with the message of the step
      that fails, creating the cipher or decrypting. */
  datatype Crypto = Crypto(
    utf8: seq<byte> -> Option<string>,
    preamble: seq<byte> -> seq<byte>,
    base64: string -> Option<seq<byte>>,
    cbc: (seq<byte>, seq<byte>, seq<byte>) -> Result<seq<byte>>,
    ecb: (string, seq<byte>) -> Option<seq<byte>>,
    md5: seq<byte> -> seq<byte>,
    bytes: string -> seq<byte>)

  // ---------------------------------------------------------------------
  // The file header

  const HEADER_PARAMS_ERROR := "Could not extract parameters from file header"
  const HEADER_KEYS := [PARAM_FILENAME, PARAM_FILESIZE, PARAM_ENCODED_HASH, PARAM_DECODED_HASH]

  /** `header_params` up to the decrypted text: at least 522 bytes read,
      "OTRKEYFILE" first, then the preamble decrypted and read as text. */
  function HeaderText(content: seq<byte>, c: Crypto): (r: Result<string>)
    ensures r.Ok? <==> |content| >= HEADER_LENGTH && c.utf8(content[..FILETYPE_LENGTH]) == Some(OTRKEY_FILETYPE)
                       && c.utf8(c.preamble(content[FILETYPE_LENGTH..HEADER_LENGTH])).Some?
    ensures |content| < HEADER_LENGTH ==> r == Err("File is too short")
  {
    if |content| < HEADER_LENGTH then Err("File is too short")
    else
      match c.utf8(content[..FILETYPE_LENGTH])
      case None => Err("invalid utf-8 sequence")
      case Some(t) =>
        if t != OTRKEY_FILETYPE then Err("File does not start with '" + OTRKEY_FILETYPE + "'")
        else
          match c.utf8(c.preamble(content[FILETYPE_LENGTH..HEADER_LENGTH]))
          case None => Err("Decrypted file header is corrupt")
          case Some(text) => Ok(text)
  }

  /** The decrypted header can be split into parameters. */
  predicate HeaderReadable(content: seq<byte>, c: Crypto) {
    HeaderText(content, c).Ok? ==> ParamsWellFormed(HeaderText(content, c).value)
  }

  /** `header_params`: the header parameters, among them FN, SZ, OH and
      FH. */
  function HeaderParams(content: seq<byte>, c: Crypto): (r: Result<map<string, string>>)
    requires HeaderReadable(content, c)
    ensures r.Ok? <==> HeaderText(content, c).Ok? && Params(HeaderText(content, c).value, HEADER_KEYS).Ok?
    ensures r.Ok? ==> r.value == ParamsOf(Split(HeaderText(content, c).value, '&'))
    ensures r.Ok? ==> forall k :: k in HEADER_KEYS ==> k in r.value
    ensures HeaderText(content, c).Err? ==> r == Err(HeaderText(content, c).error)
    ensures HeaderText(content, c).Ok? && r.Err? ==> r == Err(HEADER_PARAMS_ERROR)
  {
    match HeaderText(content, c)
    case Err(e) => Err(e)
    case Ok(text) =>
      var r := Params(text, HEADER_KEYS);
      assert r.Ok? ==> forall i :: 0 <= i < |HEADER_KEYS| ==> HEADER_KEYS[i] in r.value;
      if r.Err? then Err(HEADER_PARAMS_ERROR) else r
  }

  method ReadHeaderParams(content: seq<byte>, c: Crypto) returns (r: Result<map<string, string>>)
    requires HeaderReadable(content, c)
    ensures r == HeaderParams(content, c)
  {
    if |content| < HEADER_LENGTH {
      return Err("File is too short");
    }
    var fileType := c.utf8(content[..FILETYPE_LENGTH]);
    if fileType.None? {
      return Err("invalid utf-8 sequence");
    }
    if fileType.value != OTRKEY_FILETYPE {
      return Err("File does not start with '" + OTRKEY_FILETYPE + "'");
    }
    var text := c.utf8(c.preamble(content[FILETYPE_LENGTH..HEADER_LENGTH]));
    if text.None? {
      return Err("Decrypted file header is corrupt");
    }
    r := ParamsFromStr(text.value, HEADER_KEYS);
    if r.Err? {
      r := Err(HEADER_PARAMS_ERROR);
    }
  }

  /** `file_size_from_params`: SZ as a `usize`, which must parse. */
  function FileSize(params: map<string, string>): (n: nat)
    requires PARAM_FILESIZE in params && ParseU64(params[PARAM_FILESIZE]).Some?
    ensures n <= U64_MAX && n == LiteralValue(params[PARAM_FILESIZE], false)
  {
    ParseU64(params[PARAM_FILESIZE]).value
  }

  // ---------------------------------------------------------------------
  // The key response

  const KEY_PARAMS_ERROR := "Could not extract decoding parameters"
  const RESPONSE_CORRUPTED := "Response to decoding key request is corrupted: must be a multiple of 8"

  /** The decoded response is shorter than two blocks or not made of
      whole blocks. */
  predicate Corrupted(bytes: seq<byte>) {
    |bytes| < 2 * BLOCK_SIZE || |bytes| % BLOCK_SIZE != 0
  }

  /** The rest of the response decrypted with the first block as IV. */
  function KeyPlain(key: seq<byte>, bytes: seq<byte>, c: Crypto): Result<seq<byte>>
    requires !Corrupted(bytes)
  {
    c.cbc(key, bytes[..BLOCK_SIZE], bytes[BLOCK_SIZE..])
  }

  /** `decoding_params` up to the decrypted text: no error from OTR, a
      base64 text of at least two blocks and whole blocks, the first block
      the IV for decrypting the rest with the CBC key. */
  function KeyText(cbcKey: string, response: string, c: Crypto): (r: Result<string>)
    requires Utf8Boundary(response, |OTR_ERROR_INDICATOR|)
    ensures StartsWith(response, OTR_ERROR_INDICATOR) ==>
      r == Err("Error while requesting decoding key: '" + response[|OTR_ERROR_INDICATOR|..] + "'")
    ensures !StartsWith(response, OTR_ERROR_INDICATOR) && c.base64(response).Some? ==>
      (Corrupted(c.base64(response).value) ==> r == Err(RESPONSE_CORRUPTED))
    ensures r.Ok? <==>
              && !StartsWith(response, OTR_ERROR_INDICATOR) && c.base64(response).Some?
              && !Corrupted(c.base64(response).value) && HexDecode(cbcKey).Some?
              && KeyPlain(HexDecode(cbcKey).value, c.base64(response).value, c).Ok?
              && c.utf8(KeyPlain(HexDecode(cbcKey).value, c.base64(response).value, c).value).Some?
    ensures r.Ok? ==> Some(r.value) == c.utf8(KeyPlain(HexDecode(cbcKey).value, c.base64(response).value, c).value)
  {
    if StartsWith(response, OTR_ERROR_INDICATOR) then
      Err("Error while requesting decoding key: '" + response[|OTR_ERROR_INDICATOR|..] + "'")
    else
      match c.base64(response)
      case None => Err("Could not decode response to decoding key request from base64")
      case Some(bytes) =>
        if Corrupted(bytes) then Err(RESPONSE_CORRUPTED)
        else
          match HexDecode(cbcKey)
          case None => Err("Could not turn CBC key into byte array")
          case Some(key) =>
            match KeyPlain(key, bytes, c)
            case Err(e) => Err(e)
            case Ok(plain) =>
              match c.utf8(plain)
              case None => Err("Reponse to decoding key request is corrupt")
              case Some(text) => Ok(text)
  }

  lemma MarkerAscii()
    ensures IsAscii(OTR_ERROR_INDICATOR)
  {
    forall i | 0 <= i < |OTR_ERROR_INDICATOR| ensures OTR_ERROR_INDICATOR[i] < '\U{80}' {
      assert OTR_ERROR_INDICATOR[i] in OTR_ERROR_INDICATOR;
    }
  }

  /** The source compares the response's first bytes, as many as the marker
      has, with the marker.  Those bytes are the first `k` characters, and
      since the marker is ASCII they are the marker exactly when the response
      starts with it; a response that starts with it can always be sliced
      there. */
  lemma ErrorMarkerBytes(response: string, k: nat)
    requires k <= |response| && Utf8Len(response[..k]) == |OTR_ERROR_INDICATOR|
    ensures response[..k] == OTR_ERROR_INDICATOR <==> StartsWith(response, OTR_ERROR_INDICATOR)
    ensures StartsWith(response, OTR_ERROR_INDICATOR) ==> Utf8Boundary(response, |OTR_ERROR_INDICATOR|)
  {
    MarkerAscii();
    AsciiPrefixBytes(response, k, OTR_ERROR_INDICATOR);
  }


  /** The response can be sliced at the marker's length in bytes, and its
      text can be split into parameters. */
  predicate KeyReadable(cbcKey: string, response: string, c: Crypto) {
    Utf8Boundary(response, |OTR_ERROR_INDICATOR|)
    && (KeyText(cbcKey, response, c).Ok? ==> ParamsWellFormed(KeyText(cbcKey, response, c).value))
  }

  /** `decoding_params`: the parameters of the response, among them HP. */
  function KeyParams(cbcKey: string, response: string, c: Crypto): (r: Result<map<string, string>>)
    requires KeyReadable(cbcKey, response, c)
    ensures r.Ok? <==> KeyText(cbcKey, response, c).Ok? && PARAM_DECODING_KEY in ParamsOf(Split(KeyText(cbcKey, response, c).value, '&'))
    ensures r.Ok? ==> r.value == ParamsOf(Split(KeyText(cbcKey, response, c).value, '&')) && PARAM_DECODING_KEY in r.value
    ensures KeyText(cbcKey, response, c).Err? ==> r == Err(KeyText(cbcKey, response, c).error)
    ensures KeyText(cbcKey, response, c).Ok? && r.Err? ==> r == Err(KEY_PARAMS_ERROR)
  {
    match KeyText(cbcKey, response, c)
    case Err(e) => Err(e)
    case Ok(text) =>
      var r := Params(text, [PARAM_DECODING_KEY]);
      assert r.Ok? <==> [PARAM_DECODING_KEY][0] in ParamsOf(Split(text, '&'));
      if r.Err? then Err(KEY_PARAMS_ERROR) else r
  }

  method DecodingParams(cbcKey: string, response: string, c: Crypto) returns (r: Result<map<string, string>>)
    requires KeyReadable(cbcKey, response, c)
    ensures r == KeyParams(cbcKey, response, c)
  {
    if StartsWith(response, OTR_ERROR_INDICATOR) {
      return Err("Error while requesting decoding key: '" + response[|OTR_ERROR_INDICATOR|..] + "'");
    }
    var bytes := c.base64(response);
    if bytes.None? {
      return Err("Could not decode response to decoding key request from base64");
    }
    var b := bytes.value;
    if |b| < 2 * BLOCK_SIZE || |b| % BLOCK_SIZE != 0 {
      return Err(RESPONSE_CORRUPTED);
    }
    var key := HexDecode(cbcKey);
    if key.None? {
      return Err("Could not turn CBC key into byte array");
    }
    var plain := c.cbc(key.value, b[..BLOCK_SIZE], b[BLOCK_SIZE..]);
    if plain.Err? {
      return Err(plain.error);
    }
    var text := c.utf8(plain.value);
    if text.None? {
      return Err("Reponse to decoding key request is corrupt");
    }
    r := ParamsFromStr(text.value, [PARAM_DECODING_KEY]);
    if r.Err? {
      r := Err(KEY_PARAMS_ERROR);
    }
  }

  // ---------------------------------------------------------------------
  // Decoding the payload

  /** The bytes of a sequence of chunks, one after the other. */
  function Flatten(chunks: seq<seq<byte>>): seq<byte> {
    if chunks == [] then [] else Flatten(chunks[..|chunks| - 1]) + chunks[|chunks| - 1]
  }

  /** The chunks of the given sizes that the loop of `decode_in_parallel`
      reads one after the other from the payload. */
  function Chunks(input: seq<byte>, sizes: seq<nat>): seq<seq<byte>>
    requires Sum(sizes) <= |input|
    decreases |sizes|
  {
    if sizes == [] then []
    else
      var init := sizes[..|sizes| - 1];
      assert sizes == init + [sizes[|sizes| - 1]];
      SumConcat(init, [sizes[|sizes| - 1]]);
      Chunks(input, init) + [input[Sum(init)..Sum(sizes)]]
  }

  /** The chunks have the given sizes and together are the first
      `Sum(sizes)` bytes of the payload. */
  lemma {:induction false} ChunksMeaning(input: seq<byte>, sizes: seq<nat>)
    requires Sum(sizes) <= |input|
    ensures |Chunks(input, sizes)| == |sizes|
    ensures forall i :: 0 <= i < |sizes| ==> |Chunks(input, sizes)[i]| == sizes[i]
    ensures Flatten(Chunks(input, sizes)) == input[..Sum(sizes)]
    decreases |sizes|
  {
    if sizes != [] {
      var init := sizes[..|sizes| - 1];
      assert sizes == init + [sizes[|sizes| - 1]];
      SumConcat(init, [sizes[|sizes| - 1]]);
      ChunksMeaning(input, init);
      var cs := Chunks(input, sizes);
      assert cs[..|cs| - 1] == Chunks(input, init);
      assert input[..Sum(sizes)] == input[..Sum(init)] + input[Sum(init)..Sum(sizes)];
    }
  }

  /** The decoded chunks one after the other, or `None` when one of them
      cannot be decoded (its thread panics). */
  function DecodeAll(key: string, chunks: seq<seq<byte>>, ecb: (string, seq<byte>) -> Option<seq<byte>>): Option<seq<byte>> {
    if chunks == [] then Some([])
    else
      match DecodeAll(key, chunks[..|chunks| - 1], ecb)
      case None => None
      case Some(init) =>
        match DecodeChunk(key, chunks[|chunks| - 1], ecb)
        case None => None
        case Some(last) => Some(init + last)
  }

  /** The decoded chunks are all there when every chunk can be decoded,
      and then they are the chunks decoded one by one. */
  lemma {:induction false} DecodeAllMeaning(key: string, chunks: seq<seq<byte>>, ecb: (string, seq<byte>) -> Option<seq<byte>>)
    ensures DecodeAll(key, chunks, ecb).Some? <==> forall i :: 0 <= i < |chunks| ==> DecodeChunk(key, chunks[i], ecb).Some?
    ensures DecodeAll(key, chunks, ecb).Some? ==>
              DecodeAll(key, chunks, ecb).value == Flatten(seq(|chunks|, i requires 0 <= i < |chunks| => DecodeChunk(key, chunks[i], ecb).value))
  {
    if chunks != [] {
      var init := chunks[..|chunks| - 1];
      DecodeAllMeaning(key, init, ecb);
      if DecodeAll(key, chunks, ecb).Some? {
        var all := seq(|chunks|, i requires 0 <= i < |chunks| => DecodeChunk(key, chunks[i], ecb).value);
        assert all[..|all| - 1] == seq(|init|, i requires 0 <= i < |init| => DecodeChunk(key, init[i], ecb).value);
      }
    }
  }

  /** The checksums in the header: first the one of the encoded payload,
      then the one of the decoded video. */
  function Checked(encoded: seq<byte>, decoded: seq<byte>, params: map<string, string>, c: Crypto): (r: Result<seq<byte>>)
    requires PARAM_ENCODED_HASH in params && PARAM_DECODED_HASH in params
    ensures r.Ok? <==> VerifyChecksum(c.md5(encoded), params[PARAM_ENCODED_HASH]) == Ok(true)
                       && VerifyChecksum(c.md5(decoded), params[PARAM_DECODED_HASH]) == Ok(true)
    ensures r.Ok? ==> r.value == decoded
    ensures VerifyChecksum(c.md5(encoded), params[PARAM_ENCODED_HASH]) == Ok(false) ==>
              r == Err("MD5 checksum of encoded video file is not correct")
  {
    match VerifyChecksum(c.md5(encoded), params[PARAM_ENCODED_HASH])
    case Err(_) => Err("Could not verify checksum of encoded video file")
    case Ok(false) => Err("MD5 checksum of encoded video file is not correct")
    case Ok(true) =>
      match VerifyChecksum(c.md5(decoded), params[PARAM_DECODED_HASH])
      case Err(_) => Err("Could not verify checksum of decoded video file")
      case Ok(false) => Err("MD5 checksum of decoded video file is not correct")
      case Ok(true) => Ok(decoded)
  }

  const CHUNK_TOO_SHORT := "Chunk is too short"

  function CannotCreateDecoded(outPath: string): string {
    "Could not create decoded video file \"" + outPath + "\""
  }

  /** `decode_in_parallel` on the payload after the header: the chunks of
      `chunk_sizes(total)` must all be there, every chunk must decode, and
      both checksums must fit.  The result is the decoded video. */
  function ParallelDecoding(input: seq<byte>, total: nat, key: string, params: map<string, string>, outPath: string, c: Crypto): (r: Result<seq<byte>>)
    requires PARAM_ENCODED_HASH in params && PARAM_DECODED_HASH in params
  {
    if |input| < total then Err(CHUNK_TOO_SHORT)
    else
      ChunkSizesMeaning(total);
      match DecodeAll(key, Chunks(input, ChunkSizes(total)), c.ecb)
      case None => Err(CannotCreateDecoded(outPath))
      case Some(decoded) => Checked(input[..total], decoded, params, c)
  }

  /** A decoded video is the payload's first `total` bytes cut into the
      chunks of `chunk_sizes` and decoded one by one, and the header's
      checksums fit both the payload and the video. */
  lemma DecodedChecked(input: seq<byte>, total: nat, key: string, params: map<string, string>, outPath: string, c: Crypto)
    requires PARAM_ENCODED_HASH in params && PARAM_DECODED_HASH in params
    requires ParallelDecoding(input, total, key, params, outPath, c).Ok?
    ensures total <= |input| && Sum(ChunkSizes(total)) == total
    ensures Utf8Len(params[PARAM_ENCODED_HASH]) == 48 && HexDecode(Reduced(params[PARAM_ENCODED_HASH])) == Some(c.md5(input[..total]))
    ensures var out := ParallelDecoding(input, total, key, params, outPath, c).value;
            Utf8Len(params[PARAM_DECODED_HASH]) == 48 && HexDecode(Reduced(params[PARAM_DECODED_HASH])) == Some(c.md5(out))
    ensures var chunks := Chunks(input, ChunkSizes(total));
            Flatten(chunks) == input[..total]
            && (forall i :: 0 <= i < |chunks| ==> DecodeChunk(key, chunks[i], c.ecb).Some?)
            && ParallelDecoding(input, total, key, params, outPath, c).value
               == Flatten(seq(|chunks|, i requires 0 <= i < |chunks| => DecodeChunk(key, chunks[i], c.ecb).value))
  {
    ChunkSizesMeaning(total);
    ChunksMeaning(input, ChunkSizes(total));
    DecodeAllMeaning(key, Chunks(input, ChunkSizes(total)), c.ecb);
  }

  /** The first loop of `decode_in_parallel`: the chunks read one after
      the other, `None` when the payload ends before a chunk does. */
  method ReadChunks(input: seq<byte>, sizes: seq<nat>) returns (r: Option<seq<seq<byte>>>)
    ensures r.Some? <==> Sum(sizes) <= |input|
    ensures r.Some? ==> r.value == Chunks(input, sizes)
  {
    var chunks: seq<seq<byte>> := [];
    var pos := 0;
    for i := 0 to |sizes|
      invariant pos == Sum(sizes[..i]) <= |input|
      invariant chunks == Chunks(input, sizes[..i])
    {
      assert sizes[..i + 1] == sizes[..i] + [sizes[i]];
      SumConcat(sizes[..i], [sizes[i]]);
      if |input| - pos < sizes[i] {
        assert sizes == sizes[..i + 1] + sizes[i + 1..];
        SumConcat(sizes[..i + 1], sizes[i + 1..]);
        return None;
      }
      assert sizes[..i + 1][..i] == sizes[..i];
      chunks := chunks + [input[pos..pos + sizes[i]]];
      pos := pos + sizes[i];
    }
    assert sizes[..|sizes|] == sizes;
    return Some(chunks);
  }

  /** The second loop of `decode_in_parallel`: every chunk decoded and
      appended to the output file in order, `None` at the first chunk
      that cannot be decoded.  Only the output file changes. */
  method WriteDecoded(files: map<string, seq<byte>>, outPath: string, key: string, chunks: seq<seq<byte>>,
                      ecb: (string, seq<byte>) -> Option<seq<byte>>)
    returns (r: Option<seq<byte>>, files': map<string, seq<byte>>)
    requires outPath in files && files[outPath] == []
    ensures r == DecodeAll(key, chunks, ecb)
    ensures outPath in files' && files' - {outPath} == files - {outPath}
    ensures r.Some? ==> files' == files[outPath := r.value]
  {
    files' := files;
    var written: seq<byte> := [];
    for i := 0 to |chunks|
      invariant DecodeAll(key, chunks[..i], ecb) == Some(written)
      invariant files' == files[outPath := written]
    {
      assert chunks[..i + 1][..i] == chunks[..i];
      var decoded := DecodeChunk(key, chunks[i], ecb);
      if decoded.None? {
        DecodeAllMeaning(key, chunks, ecb);
        return None, files';
      }
      written := written + decoded.value;
      files' := files'[outPath := written];
    }
    assert chunks[..|chunks|] == chunks;
    return Some(written), files';
  }

  function CannotCreateResult(outPath: string): string {
    "Could not create result file \"" + outPath + "\""
  }

  /** `decode_in_parallel`: the output file is created (empty), the chunks
      are read in a first loop and decoded and written in a second, then
      the checksums are verified.  When the file cannot be created nothing
      changes; otherwise the output file stays behind whatever the
      outcome, and no other file changes. */
  method DecodeInParallel(files: map<string, seq<byte>>, outPath: string, created: Result<()>, input: seq<byte>,
                          total: nat, key: string, params: map<string, string>, c: Crypto)
    returns (r: Result<seq<byte>>, files': map<string, seq<byte>>)
    requires PARAM_ENCODED_HASH in params && PARAM_DECODED_HASH in params
    ensures created.Err? ==> r == Err(CannotCreateResult(outPath)) && files' == files
    ensures created.Ok? ==> r == ParallelDecoding(input, total, key, params, outPath, c)
                            && outPath in files' && files' - {outPath} == files - {outPath}
    ensures created.Ok? && r.Ok? ==> files' == files[outPath := r.value]
  {
    if created.Err? {
      return Err(CannotCreateResult(outPath)), files;
    }
    files' := files[outPath := []];
    ChunkSizesMeaning(total);
    var chunks := ReadChunks(input, ChunkSizes(total));
    if chunks.None? {
      return Err(CHUNK_TOO_SHORT), files';
    }
    var written;
    written, files' := WriteDecoded(files', outPath, key, chunks.value, c.ecb);
    if written.None? {
      return Err(CannotCreateDecoded(outPath)), files';
    }
    r := Checked(input[..total], written.value, params, c);
  }

  // ---------------------------------------------------------------------
  // Decoding a file

  /** What `decode` needs besides the files: the libraries, the OTR access
      data of the configuration (user and password), today's date, the
      assembly of the key request URL (`decoding_params_request` from the
      CBC key, the header parameters, user, password and date) and the
      HTTP GET of that URL, and whether `File::create` and `remove_file`
      succeed on a path. */
  datatype Env = Env(
    crypto: Crypto,
    access: Result<(string, string)>,
    date: (nat, nat, nat),
    request: (string, map<string, string>, string, string, string) -> Result<string>,
    fetch: string -> Result<string>,
    create: string -> Result<()>,
    remove: string -> Result<()>)

  /** MD5 digests have 16 bytes. */
  ghost predicate Md5Sized(c: Crypto) {
    forall b :: |c.md5(b)| == 16
  }

  /** `format!("{:02x}", Md5::digest(s.as_bytes()))`. */
  function Md5Hex(c: Crypto, s: string): (h: string)
    requires Md5Sized(c)
    ensures |h| == 32 && IsHex(h)
  {
    HexEncode(c.md5(c.bytes(s)))
  }

  /** `current_date`: YYYYMMDD. */
  function Now(env: Env): string {
    DateText(env.date.0, env.date.1, env.date.2)
  }

  /** `cbc_key` of the user's and the password's MD5 and today's date. */
  function CbcKeyOf(env: Env, user: string, password: string): string
    requires Md5Sized(env.crypto)
  {
    CbcKey(Md5Hex(env.crypto, user), Md5Hex(env.crypto, password), Now(env))
  }

  /** For a year of four digits the CBC key is the hex text of 28 bytes,
      so `hex::decode` of it does not fail. */
  lemma CbcKeyOfIsHex(env: Env, user: string, password: string)
    requires Md5Sized(env.crypto)
    requires env.date.0 < 10000 && env.date.1 < 100 && env.date.2 < 100
    ensures HexDecode(CbcKeyOf(env, user, password)).Some? && |HexDecode(CbcKeyOf(env, user, password)).value| == 28
  {
    DateTextLength(env.date.0, env.date.1, env.date.2);
    CbcKeyIsHex(Md5Hex(env.crypto, user), Md5Hex(env.crypto, password), Now(env));
  }

  /** The header can be read and its SZ parses (the source unwraps it). */
  predicate HeaderSound(content: seq<byte>, c: Crypto) {
    && HeaderReadable(content, c)
    && (HeaderParams(content, c).Ok? ==> ParseU64(HeaderParams(content, c).value[PARAM_FILESIZE]).Some?)
  }

  /** A key response that arrives is long enough to be sliced and its text
      can be split into parameters. */
  predicate ResponseSound(env: Env, header: map<string, string>, user: string, password: string)
    requires Md5Sized(env.crypto)
  {
    var cbc := CbcKeyOf(env, user, password);
    var request := env.request(cbc, header, user, password, Now(env));
    request.Ok? && env.fetch(request.value).Ok? ==> KeyReadable(cbc, env.fetch(request.value).value, env.crypto)
  }

  /** None of the panics of `decode` before the decoding threads happens. */
  ghost predicate Decodable(files: map<string, seq<byte>>, inPath: string, env: Env) {
    && Md5Sized(env.crypto)
    && (inPath in files ==>
          && HeaderSound(files[inPath], env.crypto)
          && (HeaderParams(files[inPath], env.crypto).Ok? && env.access.Ok? ==>
                ResponseSound(env, HeaderParams(files[inPath], env.crypto).value, env.access.value.0, env.access.value.1)))
  }

  /** The encoded file, its header parameters and the decoding key. */
  datatype Prepared = Prepared(content: seq<byte>, header: map<string, string>, key: string)

  const FILE_NOT_FOUND := "No such file or directory (os error 2)"
  const HEADER_ERROR := "Could not extract video header from"
  const TOO_SMALL := "Video file seems to be corrupt: it is too small"
  const REQUEST_ERROR := "Could not assemble request for decoding key"
  const KEY_ERROR := "Could not retrieve decoding key"

  /** `decode` up to the decoding threads: the file is opened, its header
      read, its size checked against SZ, and the decoding key requested
      with the CBC key of user, password and date. */
  function Prepare(files: map<string, seq<byte>>, inPath: string, env: Env): (r: Result<Prepared>)
    requires Decodable(files, inPath, env)
    ensures inPath !in files ==> r == Err(FILE_NOT_FOUND)
    ensures inPath in files && HeaderParams(files[inPath], env.crypto).Err? ==> r == Err(HEADER_ERROR)
    ensures r.Ok? ==>
              && inPath in files && r.value.content == files[inPath] && |r.value.content| >= HEADER_LENGTH
              && HeaderParams(r.value.content, env.crypto) == Ok(r.value.header) && env.access.Ok?
              && (forall k :: k in HEADER_KEYS ==> k in r.value.header)
              && ParseU64(r.value.header[PARAM_FILESIZE]).Some? && FileSize(r.value.header) <= |r.value.content|
  {
    if inPath !in files then Err(FILE_NOT_FOUND)
    else
      var content, c := files[inPath], env.crypto;
      match HeaderParams(content, c)
      case Err(_) => Err(HEADER_ERROR)
      case Ok(header) =>
        if |content| < FileSize(header) then Err(TOO_SMALL)
        else
          match env.access
          case Err(e) => Err(e)
          case Ok(access) =>
            var cbc := CbcKeyOf(env, access.0, access.1);
            match env.request(cbc, header, access.0, access.1, Now(env))
            case Err(_) => Err(REQUEST_ERROR)
            case Ok(request) =>
              match env.fetch(request)
              case Err(_) => Err(KEY_ERROR)
              case Ok(response) =>
                match KeyParams(cbc, response, c)
                case Err(_) => Err(KEY_ERROR)
                case Ok(params) => Ok(Prepared(content, header, params[PARAM_DECODING_KEY]))
  }

  /** `decode_in_parallel` on what `Prepare` found: the output file is
      created, then the payload after the header is decoded, SZ minus the
      header length as its size. */
  function Decoded(p: Prepared, outPath: string, env: Env): Result<seq<byte>>
    requires |p.content| >= HEADER_LENGTH && PARAM_ENCODED_HASH in p.header && PARAM_DECODED_HASH in p.header
    requires PARAM_FILESIZE in p.header && ParseU64(p.header[PARAM_FILESIZE]).Some?
    requires env.create(outPath).Ok? ==> FileSize(p.header) >= HEADER_LENGTH
  {
    if env.create(outPath).Err? then Err(CannotCreateResult(outPath))
    else ParallelDecoding(p.content[HEADER_LENGTH..], FileSize(p.header) - HEADER_LENGTH, p.key, p.header, outPath, env.crypto)
  }

  /** None of the panics of `decode` from the decoding threads on happens:
      SZ is at least the header length once the output file exists (the
      subtraction would overflow, or the wrapped size exhaust memory), and
      the output file can be removed after a failed decoding. */
  ghost predicate Completes(files: map<string, seq<byte>>, inPath: string, outPath: string, env: Env)
    requires Decodable(files, inPath, env)
  {
    Prepare(files, inPath, env).Ok? ==>
      var p := Prepare(files, inPath, env).value;
      && (env.create(outPath).Ok? ==> FileSize(p.header) >= HEADER_LENGTH)
      && (Decoded(p, outPath, env).Err? ==> env.remove(outPath).Ok?)
  }

  /** The last component of a path, which `file_name` gives for the paths
      of videos. */
  function BaseName(path: string): (r: string)
    ensures '/' !in r && |r| <= |path| && r == path[|path| - |r|..]
    ensures |r| < |path| ==> path[|path| - |r| - 1] == '/'
  {
    if path == [] || path[|path| - 1] == '/' then []
    else BaseName(path[..|path| - 1]) + [path[|path| - 1]]
  }

  function CannotRemove(inPath: string): string {
    "Could not remove \"" + BaseName(inPath) + "\" after successful decoding"
  }

  /** `decode` from the decoding threads on: an error of the threads
      removes the output file; success keeps the decoded video and removes
      the encoded file, and when that removal fails its error is returned
      with the decoded video in place. */
  method DecodePrepared(files: map<string, seq<byte>>, inPath: string, outPath: string, p: Prepared, env: Env)
    returns (r: Result<()>, files': map<string, seq<byte>>)
    requires inPath != outPath
    requires |p.content| >= HEADER_LENGTH && PARAM_ENCODED_HASH in p.header && PARAM_DECODED_HASH in p.header
    requires PARAM_FILESIZE in p.header && ParseU64(p.header[PARAM_FILESIZE]).Some?
    requires env.create(outPath).Ok? ==> FileSize(p.header) >= HEADER_LENGTH
    requires Decoded(p, outPath, env).Err? ==> env.remove(outPath).Ok?
    ensures var d := Decoded(p, outPath, env);
            && (d.Err? ==> r == Err(d.error) && files' == files - {outPath})
            && (d.Ok? && env.remove(inPath).Ok? ==> r == Ok(()) && files' == files[outPath := d.value] - {inPath})
            && (d.Ok? && env.remove(inPath).Err? ==> r == Err(CannotRemove(inPath)) && files' == files[outPath := d.value])
  {
    var total := if env.create(outPath).Ok? then FileSize(p.header) - HEADER_LENGTH else 0;
    var decoded;
    decoded, files' := DecodeInParallel(files, outPath, env.create(outPath), p.content[HEADER_LENGTH..], total,
                                        p.key, p.header, env.crypto);
    if decoded.Err? {
      files' := files' - {outPath};
      return Err(decoded.error), files';
    }
    if env.remove(inPath).Err? {
      return Err(CannotRemove(inPath)), files';
    }
    files' := files' - {inPath};
    r := Ok(());
  }

  /** `decode`: an error before the decoding threads changes no file; an
      error of the threads removes the output file; success keeps the
      decoded video and removes the encoded file, and when that removal
      fails its error is returned with the decoded video in place. */
  method Decode(files: map<string, seq<byte>>, inPath: string, outPath: string, env: Env)
    returns (r: Result<()>, files': map<string, seq<byte>>)
    requires inPath != outPath
    requires Decodable(files, inPath, env)
    requires Completes(files, inPath, outPath, env)
    ensures Prepare(files, inPath, env).Err? ==> r == Err(Prepare(files, inPath, env).error) && files' == files
    ensures Prepare(files, inPath, env).Ok? ==>
              var d := Decoded(Prepare(files, inPath, env).value, outPath, env);
              && (d.Err? ==> r == Err(d.error) && files' == files - {outPath})
              && (d.Ok? && env.remove(inPath).Ok? ==> r == Ok(()) && files' == files[outPath := d.value] - {inPath})
              && (d.Ok? && env.remove(inPath).Err? ==> r == Err(CannotRemove(inPath)) && files' == files[outPath := d.value])
  {
    files' := files;
    if inPath !in files {
      return Err(FILE_NOT_FOUND), files';
    }
    var content, c := files[inPath], env.crypto;
    var header := ReadHeaderParams(content, c);
    if header.Err? {
      return Err(HEADER_ERROR), files';
    }
    if |content| < FileSize(header.value) {
      return Err(TOO_SMALL), files';
    }
    if env.access.Err? {
      return Err(env.access.error), files';
    }
    var (user, password) := env.access.value;
    var cbc := CbcKeyOf(env, user, password);
    var request := env.request(cbc, header.value, user, password, Now(env));
    if request.Err? {
      return Err(REQUEST_ERROR), files';
    }
    var response := env.fetch(request.value);
    if response.Err? {
      return Err(KEY_ERROR), files';
    }
    var params := DecodingParams(cbc, response.value, c);
    if params.Err? {
      return Err(KEY_ERROR), files';
    }
    var prepared := Prepared(content, header.value, params.value[PARAM_DECODING_KEY]);
    assert Prepare(files, inPath, env) == Ok(prepared);
    r, files' := DecodePrepared(files, inPath, outPath, prepared, env);
  }
}
