/** The in-memory IVF container (IVF_MEM): a 32-byte header followed by frames,
    each behind a 12-byte frame header whose first four bytes hold its length. */
module Ivf {
  import opened Bytes
  import opened Wrappers

  const SupportedHeaderLen: nat := 32
  const FrameHeaderLen: nat := 12
  /** The magic "DKIF". */
  const Magic: seq<byte> := [0x44, 0x4B, 0x49, 0x46]

  /** The exceptions of the container and of the pipeline code that uses it. */
  datatype Error =
    | Invalid(msg: string)
    | Unsupported(msg: string)
    | OutOfRange
    | Runtime(msg: string)
    | NoFile(path: string)

  /** One frame_index_ entry: where the frame's bytes start and how many there are. */
  datatype Entry = Entry(offset: nat, len: u32)

  /** The value of an IVF_MEM object: its buffer and the header fields decoded from it. */
  datatype Ivf = Ivf(
    buffer: seq<byte>,
    fourcc: seq<byte>,
    width: u16,
    height: u16,
    frameRate: u32,
    timeScale: u32,
    frameCount: u32,
    minihash: u32,
    index: seq<Entry>)

  /** IVF_MEM() = default, value-initialised as a std::vector element. */
  const Default: Ivf := Ivf([], [], 0, 0, 0, 0, 0, 0, [])

  /** The outcome of building the index: the entries and the position after them. */
  datatype Scan = Scan(entries: seq<Entry>, end: nat)

  /** Index `count` frames starting at `pos`; None when a frame header runs past the end. */
  function ScanIndex(buf: seq<byte>, pos: nat, count: nat): Option<Scan>
    decreases count
  {
    if count == 0 then Some(Scan([], pos))
    else if pos + FrameHeaderLen > |buf| then None
    else
      var len := Le32(buf, pos);
      match ScanIndex(buf, pos + FrameHeaderLen + len, count - 1)
      case None => None
      case Some(rest) => Some(Scan([Entry(pos + FrameHeaderLen, len)] + rest.entries, rest.end))
  }

  /** The index built so far followed by the rest of a scan. */
  function Prepend(entries: seq<Entry>, rest: Option<Scan>): Option<Scan>
  {
    if rest.None? then None else Some(Scan(entries + rest.value.entries, rest.value.end))
  }

  lemma PrependNothing(rest: Option<Scan>)
    ensures Prepend([], rest) == rest
  {
    if rest.Some? {
      assert [] + rest.value.entries == rest.value.entries;
    }
  }

  /** One step of the constructor's loop: index the frame at `pos`, move past it. */
  lemma ScanStep(buf: seq<byte>, pos: nat, count: nat, entries: seq<Entry>)
    requires count > 0 && pos + FrameHeaderLen <= |buf|
    ensures Prepend(entries, ScanIndex(buf, pos, count))
         == Prepend(entries + [Entry(pos + FrameHeaderLen, Le32(buf, pos))],
                    ScanIndex(buf, pos + FrameHeaderLen + Le32(buf, pos), count - 1))
  {
    var e := Entry(pos + FrameHeaderLen, Le32(buf, pos));
    var rest := ScanIndex(buf, pos + FrameHeaderLen + Le32(buf, pos), count - 1);
    if rest.Some? {
      assert entries + ([e] + rest.value.entries) == (entries + [e]) + rest.value.entries;
    }
  }

  /** The three checks on a header, in the order the constructors make them. */
  function HeaderError(h: seq<byte>): Option<Error>
    requires |h| >= SupportedHeaderLen
  {
    if h[0..4] != Magic then Some(Invalid("missing IVF file header"))
    else if Le16(h, 4) != 0 then Some(Unsupported("not an IVF version 0 file"))
    else if Le16(h, 6) != SupportedHeaderLen then Some(Unsupported("unsupported IVF header length"))
    else None
  }

  /** The IVF whose header fields are read from the first 32 bytes of `h`. */
  function WithHeader(h: seq<byte>, buffer: seq<byte>, index: seq<Entry>): (v: Ivf)
    requires |h| >= SupportedHeaderLen
  {
    Ivf(buffer, h[8..12], Le16(h, 12), Le16(h, 14), Le32(h, 16), Le32(h, 20),
        Le32(h, 24), Le32(h, 28), index)
  }

  /** IVF_MEM(filename) applied to the loaded file contents. */
  function Parse(buf: seq<byte>): Result<Ivf, Error>
  {
    if |buf| < SupportedHeaderLen then Err(Invalid("IVF file truncated"))
    else if HeaderError(buf).Some? then Err(HeaderError(buf).value)
    else match ScanIndex(buf, SupportedHeaderLen, Le32(buf, 24))
      case None => Err(Invalid("IVF file truncated"))
      case Some(scan) => Ok(WithHeader(buf, buf, scan.entries))
  }

  /** IVF_MEM(Chunk header): the header checks, no frames indexed. */
  function FromHeader(h: seq<byte>): (r: Result<Ivf, Error>)
    ensures r.Ok? ==> r.value.buffer == h && r.value.index == []
  {
    if |h| < SupportedHeaderLen then Err(OutOfRange)
    else if HeaderError(h).Some? then Err(HeaderError(h).value)
    else Ok(WithHeader(h, h, []))
  }

  /** IVF_MEM::frame(i). */
  function Frame(v: Ivf, i: nat): (r: Result<seq<byte>, Error>)
    ensures r.Ok? ==> i < |v.index| && |r.value| == v.index[i].len
    ensures i >= |v.index| ==> r == Err(OutOfRange)
  {
    if i >= |v.index| then Err(OutOfRange)
    else
      var e := v.index[i];
      if e.offset + e.len <= |v.buffer| then Ok(v.buffer[e.offset..e.offset + e.len])
      else Err(OutOfRange)
  }

  /** IVF_MEM::append_frame. */
  function WithFrame(v: Ivf, header: seq<byte>, frame: seq<byte>): (r: Ivf)
    requires |v.buffer| >= SupportedHeaderLen && |header| >= 4
    ensures |r.buffer| == |v.buffer| + |header| + |frame|
    ensures Le32(r.buffer, 24) == r.frameCount
  {
    var count := (v.frameCount + 1) % Two32;
    v.(buffer := WriteLe32(v.buffer + header + frame, 24, count),
       frameCount := count,
       index := v.index + [Entry(|v.buffer| + FrameHeaderLen, Le32(header, 0))])
  }

  /** IVF_MEM::set_expected_decoder_minihash as the source writes it: the field gets
      the minihash, but bytes 28-31 of the buffer get the frame count. */
  function WithMinihashAsWritten(v: Ivf, minihash: u32): (r: Ivf)
    requires |v.buffer| >= SupportedHeaderLen
    ensures |r.buffer| == |v.buffer|
    ensures r.minihash == minihash && Le32(r.buffer, 28) == v.frameCount
  {
    v.(buffer := WriteLe32(v.buffer, 28, v.frameCount), minihash := minihash)
  }

  /** set_expected_decoder_minihash as intended: field and header bytes agree. */
  function WithMinihash(v: Ivf, minihash: u32): (r: Ivf)
    requires |v.buffer| >= SupportedHeaderLen
    ensures |r.buffer| == |v.buffer|
    ensures r.minihash == minihash && Le32(r.buffer, 28) == minihash
  {
    v.(buffer := WriteLe32(v.buffer, 28, minihash), minihash := minihash)
  }

  /** A value whose buffer parses back to exactly that value, with nothing after the
      last frame: what IVF_MEM::write followed by IVF_MEM(filename) preserves. */
  predicate RoundTrips(v: Ivf)
  {
    Parse(v.buffer) == Ok(v)
    && |v.buffer| >= SupportedHeaderLen
    && ScanIndex(v.buffer, SupportedHeaderLen, v.frameCount).Some?
    && ScanIndex(v.buffer, SupportedHeaderLen, v.frameCount).value.end == |v.buffer|
  }

  // ---------------------------------------------------------------------------
  // The index layout

  /** Building the index from `pos` yields one entry per frame; the first frame
      starts 12 bytes after `pos`, each frame's length is the le32 in front of it,
      consecutive frames are `12 + len` apart, and the scan ends after the last one. */
  lemma {:induction false} ScanLayout(buf: seq<byte>, pos: nat, count: nat)
    requires ScanIndex(buf, pos, count).Some?
    ensures var s := ScanIndex(buf, pos, count).value;
      && |s.entries| == count
      && (count == 0 ==> s.end == pos)
      && (count > 0 ==> s.entries[0].offset == pos + FrameHeaderLen)
      && (count > 0 ==> s.end == s.entries[count - 1].offset + s.entries[count - 1].len)
      && (forall k :: 0 <= k < count ==>
            FrameHeaderLen <= s.entries[k].offset <= |buf| &&
            s.entries[k].len == Le32(buf, s.entries[k].offset - FrameHeaderLen))
      && (forall k :: 0 <= k < count - 1 ==>
            s.entries[k + 1].offset == s.entries[k].offset + s.entries[k].len + FrameHeaderLen)
    decreases count
  {
    if count > 0 {
      var len := Le32(buf, pos);
      ScanLayout(buf, pos + FrameHeaderLen + len, count - 1);
    }
  }

  /** The index of a parsed IVF starts at byte 32 + 12, and has frame_count entries
      laid out back to back. */
  lemma ParseLayout(buf: seq<byte>)
    requires Parse(buf).Ok?
    ensures var v := Parse(buf).value;
      && |v.index| == v.frameCount
      && (v.frameCount > 0 ==> v.index[0].offset == SupportedHeaderLen + FrameHeaderLen)
      && (forall k :: 0 <= k < |v.index| ==>
            FrameHeaderLen <= v.index[k].offset <= |buf| &&
            v.index[k].len == Le32(buf, v.index[k].offset - FrameHeaderLen))
      && (forall k :: 0 <= k < |v.index| - 1 ==>
            v.index[k + 1].offset == v.index[k].offset + v.index[k].len + FrameHeaderLen)
  {
    ScanLayout(buf, SupportedHeaderLen, Le32(buf, 24));
  }

  /** The header decides the outcome: a short buffer or one whose frame headers run
      past the end is truncated; otherwise magic, version and header length are
      checked in that order. */
  lemma ParseErrors(buf: seq<byte>)
    ensures |buf| < SupportedHeaderLen ==> Parse(buf) == Err(Invalid("IVF file truncated"))
    ensures |buf| >= SupportedHeaderLen && buf[0..4] != Magic ==>
      Parse(buf) == Err(Invalid("missing IVF file header"))
    ensures |buf| >= SupportedHeaderLen && buf[0..4] == Magic && Le16(buf, 4) != 0 ==>
      Parse(buf) == Err(Unsupported("not an IVF version 0 file"))
    ensures (|buf| >= SupportedHeaderLen && buf[0..4] == Magic && Le16(buf, 4) == 0
             && Le16(buf, 6) != 32) ==> Parse(buf) == Err(Unsupported("unsupported IVF header length"))
    ensures Parse(buf).Ok? <==>
      |buf| >= SupportedHeaderLen && HeaderError(buf).None?
      && ScanIndex(buf, SupportedHeaderLen, Le32(buf, 24)).Some?
  {
  }

  // ---------------------------------------------------------------------------
  // Scans survive appends and header rewrites

  /** A scan from `pos` reads no byte before `lo`, so changing those bytes or
      appending bytes leaves it unchanged. */
  lemma {:induction false} ScanAgree(buf: seq<byte>, buf': seq<byte>, lo: nat, pos: nat, count: nat)
    requires lo <= pos && lo <= |buf| <= |buf'|
    requires buf'[lo..|buf|] == buf[lo..|buf|]
    requires ScanIndex(buf, pos, count).Some?
    ensures ScanIndex(buf', pos, count) == ScanIndex(buf, pos, count)
    decreases count
  {
    if count > 0 {
      SliceAgree(buf, buf', lo, |buf|, pos, pos + 4);
      Le32OfSlice(buf', pos, buf, pos);
      assert Le32(buf', pos) == Le32(buf, pos);
      ScanAgree(buf, buf', lo, pos + FrameHeaderLen + Le32(buf, pos), count - 1);
    }
  }

  /** A 32-bit field depends only on its four bytes. */
  lemma Le32OfSlice(s: seq<byte>, off: nat, t: seq<byte>, off': nat)
    requires off + 4 <= |s| && off' + 4 <= |t| && s[off..off + 4] == t[off'..off' + 4]
    ensures Le32(s, off) == Le32(t, off')
  {
    assert s[off] == s[off..off + 4][0] && s[off + 1] == s[off..off + 4][1];
    assert s[off + 2] == s[off..off + 4][2] && s[off + 3] == s[off..off + 4][3];
    assert t[off'] == t[off'..off' + 4][0] && t[off' + 1] == t[off'..off' + 4][1];
    assert t[off' + 2] == t[off'..off' + 4][2] && t[off' + 3] == t[off'..off' + 4][3];
  }

  /** A scan that ends inside the buffer extends by one frame. */
  lemma {:induction false} ScanSnoc(buf: seq<byte>, pos: nat, count: nat)
    requires ScanIndex(buf, pos, count).Some?
    requires ScanIndex(buf, pos, count).value.end + FrameHeaderLen <= |buf|
    ensures var s := ScanIndex(buf, pos, count).value;
      var len := Le32(buf, s.end);
      ScanIndex(buf, pos, count + 1)
        == Some(Scan(s.entries + [Entry(s.end + FrameHeaderLen, len)], s.end + FrameHeaderLen + len))
    decreases count
  {
    var s := ScanIndex(buf, pos, count).value;
    if count == 0 {
      var len := Le32(buf, pos);
      assert ScanIndex(buf, pos + FrameHeaderLen + len, 0) == Some(Scan([], pos + FrameHeaderLen + len));
      assert [Entry(pos + FrameHeaderLen, len)] + [] == [] + [Entry(pos + FrameHeaderLen, len)];
    } else {
      var len := Le32(buf, pos);
      var next := pos + FrameHeaderLen + len;
      ScanSnoc(buf, next, count - 1);
      var rest := ScanIndex(buf, next, count - 1).value;
      assert s.entries == [Entry(pos + FrameHeaderLen, len)] + rest.entries;
      assert s.end == rest.end;
      var len' := Le32(buf, rest.end);
      var rest' := ScanIndex(buf, next, count).value;
      assert rest'.entries == rest.entries + [Entry(rest.end + FrameHeaderLen, len')];
      assert ScanIndex(buf, pos, count + 1).value.entries == [Entry(pos + FrameHeaderLen, len)] + rest'.entries;
      assert ([Entry(pos + FrameHeaderLen, len)] + rest.entries) + [Entry(rest.end + FrameHeaderLen, len')]
          == [Entry(pos + FrameHeaderLen, len)] + (rest.entries + [Entry(rest.end + FrameHeaderLen, len')]);
    }
  }

  // ---------------------------------------------------------------------------
  // Round trips

  /** The header-only constructor on a header that announces no frames gives a
      value that round-trips. */
  lemma FromHeaderRoundTrips(h: seq<byte>)
    requires |h| == SupportedHeaderLen && HeaderError(h).None? && Le32(h, 24) == 0
    ensures FromHeader(h).Ok? && RoundTrips(FromHeader(h).value)
  {
  }

  /** Two buffers whose headers agree except for the four bytes at `skip` pass the
      same checks and decode to the same fields, except frame count and minihash. */
  lemma HeaderAgree(b: seq<byte>, b': seq<byte>, skip: nat, index: seq<Entry>)
    requires |b| >= SupportedHeaderLen && |b'| >= SupportedHeaderLen && (skip == 24 || skip == 28)
    requires b'[..skip] == b[..skip] && b'[skip + 4..SupportedHeaderLen] == b[skip + 4..SupportedHeaderLen]
    ensures HeaderError(b') == HeaderError(b)
    ensures WithHeader(b', b', index)
         == WithHeader(b, b', index).(frameCount := Le32(b', 24), minihash := Le32(b', 28))
    ensures skip == 24 ==> Le32(b', 28) == Le32(b, 28)
    ensures skip == 28 ==> Le32(b', 24) == Le32(b, 24)
  {
    assert forall j | 0 <= j < skip :: b'[j] == b[j] by {
      forall j | 0 <= j < skip ensures b'[j] == b[j] {
        assert b'[j] == b'[..skip][j];
      }
    }
    assert forall j | skip + 4 <= j < SupportedHeaderLen :: b'[j] == b[j] by {
      forall j | skip + 4 <= j < SupportedHeaderLen ensures b'[j] == b[j] {
        assert b'[j] == b'[skip + 4..SupportedHeaderLen][j - skip - 4];
      }
    }
    assert b'[0..4] == b[0..4];
    assert b'[8..12] == b[8..12];
  }

  /** What a value that round-trips says about its buffer. */
  lemma RoundTripFacts(v: Ivf)
    requires RoundTrips(v)
    ensures HeaderError(v.buffer).None? && Le32(v.buffer, 24) == v.frameCount
    ensures ScanIndex(v.buffer, SupportedHeaderLen, v.frameCount) == Some(Scan(v.index, |v.buffer|))
    ensures v == WithHeader(v.buffer, v.buffer, v.index)
  {
  }

  /** Appending a frame behind a 12-byte header that holds its length keeps the
      round trip, and the container holds one more frame. */
  lemma AppendRoundTrips(v: Ivf, header: seq<byte>, frame: seq<byte>)
    requires RoundTrips(v) && v.frameCount + 1 < Two32
    requires |header| == FrameHeaderLen && Le32(header, 0) == |frame|
    ensures RoundTrips(WithFrame(v, header, frame))
    ensures WithFrame(v, header, frame).frameCount == v.frameCount + 1
  {
    RoundTripFacts(v);
    AppendCount(v, header, frame);
    AppendedIs(v, header, frame);
    AppendScan(v, header, frame, WithFrame(v, header, frame));
  }

  /** What an append leaves in `r`: the old buffer's bytes but for the count
      at offset 24, the frame header and the frame behind them, one more frame
      counted and indexed, and every other field as it was. */
  ghost predicate AppendLayout(v: Ivf, header: seq<byte>, frame: seq<byte>, r: Ivf)
    requires |v.buffer| >= SupportedHeaderLen && |header| == FrameHeaderLen
  {
    var b := v.buffer;
    && |r.buffer| == |b| + |header| + |frame|
    && r.buffer[..24] == b[..24] && r.buffer[28..|b|] == b[28..]
    && r.buffer[|b|..|b| + |header|] == header && r.buffer[|b| + |header|..] == frame
    && Le32(r.buffer, 24) == r.frameCount == v.frameCount + 1
    && r.index == v.index + [Entry(|b| + FrameHeaderLen, Le32(header, 0))]
    && r == v.(buffer := r.buffer, frameCount := r.frameCount, index := r.index)
  }

  /** append_frame below 2^32 frames does what AppendLayout says. */
  lemma AppendedIs(v: Ivf, header: seq<byte>, frame: seq<byte>)
    requires |v.buffer| >= SupportedHeaderLen && v.frameCount + 1 < Two32
    requires |header| == FrameHeaderLen && Le32(header, 0) == |frame|
    ensures AppendLayout(v, header, frame, WithFrame(v, header, frame))
  {
    AppendCount(v, header, frame);
    AppendedBytes(v.buffer, header, frame, v.frameCount + 1);
  }

  lemma AppendScan(v: Ivf, header: seq<byte>, frame: seq<byte>, r: Ivf)
    requires |v.buffer| >= SupportedHeaderLen
    requires HeaderError(v.buffer).None? && Le32(v.buffer, 24) == v.frameCount
    requires ScanIndex(v.buffer, SupportedHeaderLen, v.frameCount) == Some(Scan(v.index, |v.buffer|))
    requires v == WithHeader(v.buffer, v.buffer, v.index)
    requires |header| == FrameHeaderLen && Le32(header, 0) == |frame|
    requires AppendLayout(v, header, frame, r)
    ensures RoundTrips(r)
  {
    AppendHeader(v, header, frame, r);
    AppendedScan(v.buffer, r.buffer, header, frame, v.index, r.index, v.frameCount);
    ParseOfCount(r.buffer, r.index, v.frameCount + 1, r);
  }

  lemma AppendCount(v: Ivf, header: seq<byte>, frame: seq<byte>)
    requires |v.buffer| >= SupportedHeaderLen && v.frameCount + 1 < Two32 && |header| >= 4
    ensures WithFrame(v, header, frame).frameCount == v.frameCount + 1
  {
    SmallMod(v.frameCount + 1, Two32);
  }

  /** An append rewrites only the frame count among the header fields. */
  lemma AppendHeader(v: Ivf, header: seq<byte>, frame: seq<byte>, r: Ivf)
    requires |v.buffer| >= SupportedHeaderLen && |header| == FrameHeaderLen
    requires HeaderError(v.buffer).None?
    requires v == WithHeader(v.buffer, v.buffer, v.index)
    requires AppendLayout(v, header, frame, r)
    ensures HeaderError(r.buffer).None? && r == WithHeader(r.buffer, r.buffer, r.index)
  {
    SliceAgree(v.buffer, r.buffer, 28, |v.buffer|, 28, SupportedHeaderLen);
    HeaderAgree(v.buffer, r.buffer, 24, r.index);
  }

  /** The same, for a scan of the frame count the header announces. */
  lemma ParseOfCount(b: seq<byte>, index: seq<Entry>, count: nat, v: Ivf)
    requires |b| >= SupportedHeaderLen && HeaderError(b).None? && Le32(b, 24) == count
    requires ScanIndex(b, SupportedHeaderLen, count) == Some(Scan(index, |b|))
    requires v == WithHeader(b, b, index)
    ensures RoundTrips(v)
  {
    ParseOf(b, index);
  }

  /** A buffer with a good header whose scan covers it exactly round-trips. */
  lemma ParseOf(b: seq<byte>, index: seq<Entry>)
    requires |b| >= SupportedHeaderLen && HeaderError(b).None?
    requires ScanIndex(b, SupportedHeaderLen, Le32(b, 24)) == Some(Scan(index, |b|))
    ensures RoundTrips(WithHeader(b, b, index))
  {
  }

  /** The index scan of an appended buffer finds the old frames and then the
      new one: `b2` keeps the old frames' bytes and holds the frame header
      behind them. */
  lemma AppendedScan(b: seq<byte>, b2: seq<byte>, header: seq<byte>, frame: seq<byte>, index: seq<Entry>,
                     index2: seq<Entry>, count: nat)
    requires |b| >= SupportedHeaderLen && |header| == FrameHeaderLen && Le32(header, 0) == |frame|
    requires |b2| == |b| + |header| + |frame|
    requires b2[28..|b|] == b[28..] && b2[|b|..|b| + |header|] == header
    requires ScanIndex(b, SupportedHeaderLen, count) == Some(Scan(index, |b|))
    requires index2 == index + [Entry(|b| + FrameHeaderLen, |frame|)]
    ensures ScanIndex(b2, SupportedHeaderLen, count + 1) == Some(Scan(index2, |b2|))
  {
    SliceAgree(b, b2, 28, |b|, SupportedHeaderLen, |b|);
    ScanAgree(b, b2, SupportedHeaderLen, SupportedHeaderLen, count);
    assert b2[|b|..|b| + 4] == header[0..4] by {
      assert b2[|b|..|b| + 4] == b2[|b|..|b| + |header|][..4];
    }
    Le32OfSlice(b2, |b|, header, 0);
    ScanSnoc(b2, SupportedHeaderLen, count);
  }

  lemma SmallMod(x: nat, m: nat)
    requires x < m
    ensures x % m == x
  {
  }

  /** Where the old buffer, the frame header and the frame sit after an append. */
  lemma AppendedBytes(b: seq<byte>, header: seq<byte>, frame: seq<byte>, count: nat)
    requires |b| >= SupportedHeaderLen && count < Two32
    ensures var b' := WriteLe32(b + header + frame, 24, count);
      && b'[..24] == b[..24]
      && b'[28..|b|] == b[28..]
      && b'[|b|..|b| + |header|] == header
      && b'[|b| + |header|..] == frame
  {
    var g := b + header + frame;
    var b' := WriteLe32(g, 24, count);
    assert b'[28..] == g[28..];
    assert g[28..][..|b| - 28] == b[28..];
    assert b'[28..][..|b| - 28] == b'[28..|b|];
    assert g[|b|..|b| + |header|] == header;
    assert g[|b| + |header|..] == frame;
  }

  /** Bytes a buffer shares with another form the same slices. */
  lemma SliceAgree(b: seq<byte>, b': seq<byte>, lo0: nat, hi0: nat, lo: nat, hi: nat)
    requires lo0 <= lo <= hi <= hi0 <= |b| && hi0 <= |b'|
    requires b'[lo0..hi0] == b[lo0..hi0]
    ensures b'[lo..hi] == b[lo..hi]
  {
    forall i | lo <= i < hi
      ensures b'[i] == b[i]
    {
      assert b'[i] == b'[lo0..hi0][i - lo0];
      assert b[i] == b[lo0..hi0][i - lo0];
    }
  }

  /** Frames already in the container are unchanged by an append, and the appended
      frame can be read back at the next index. */
  lemma AppendFrames(v: Ivf, header: seq<byte>, frame: seq<byte>)
    requires RoundTrips(v) && v.frameCount + 1 < Two32
    requires |header| == FrameHeaderLen && Le32(header, 0) == |frame|
    ensures var r := WithFrame(v, header, frame);
      && |r.index| == |v.index| + 1
      && Frame(r, |v.index|) == Ok(frame)
      && forall i :: 0 <= i < |v.index| ==> Frame(r, i) == Frame(v, i)
  {
    var r := WithFrame(v, header, frame);
    var b := v.buffer;
    var start := |b| + FrameHeaderLen;
    AppendedBytes(b, header, frame, r.frameCount);
    assert r.buffer[start..start + |frame|] == frame;
    RoundTripFacts(v);
    ScanOffsetsFrom(b, SupportedHeaderLen, v.frameCount);
    forall i | 0 <= i < |v.index|
      ensures Frame(r, i) == Frame(v, i)
    {
      assert v.index[i] in v.index;
      AppendKeepsFrame(v, r, i);
    }
  }

  /** An append leaves an earlier frame's bytes where they were. */
  lemma AppendKeepsFrame(v: Ivf, r: Ivf, i: nat)
    requires RoundTrips(v) && i < |v.index| <= |r.index|
    requires r.index[..|v.index|] == v.index
    requires 28 <= |v.buffer| <= |r.buffer| && r.buffer[28..|v.buffer|] == v.buffer[28..]
    requires v.index[i].offset >= 28
    ensures Frame(r, i) == Frame(v, i)
  {
    var e := v.index[i];
    assert r.index[i] == e;
    RoundTripFramesReadable(v, i);
    SliceAgree(v.buffer, r.buffer, 28, |v.buffer|, e.offset, e.offset + e.len);
  }

  /** Every entry of a scan from `pos` starts at least 12 bytes after `pos`. */
  lemma {:induction false} ScanOffsetsFrom(buf: seq<byte>, pos: nat, count: nat)
    requires ScanIndex(buf, pos, count).Some?
    ensures forall e :: e in ScanIndex(buf, pos, count).value.entries ==> e.offset >= pos + FrameHeaderLen
    decreases count
  {
    if count > 0 {
      ScanOffsetsFrom(buf, pos + FrameHeaderLen + Le32(buf, pos), count - 1);
    }
  }

  /** In a value that round-trips every indexed frame can be read. */
  lemma RoundTripFramesReadable(v: Ivf, i: nat)
    requires RoundTrips(v) && i < |v.index|
    ensures Frame(v, i).Ok?
  {
    ScanLayout(v.buffer, SupportedHeaderLen, v.frameCount);
    var s := ScanIndex(v.buffer, SupportedHeaderLen, v.frameCount).value;
    FrameWithinEnd(s.entries, i);
  }

  /** Back-to-back entries end no later than the last one. */
  lemma {:induction false} FrameWithinEnd(es: seq<Entry>, i: nat)
    requires i < |es|
    requires forall k :: 0 <= k < |es| - 1 ==> es[k + 1].offset == es[k].offset + es[k].len + FrameHeaderLen
    ensures es[i].offset + es[i].len <= es[|es| - 1].offset + es[|es| - 1].len
    decreases |es| - i
  {
    if i < |es| - 1 {
      FrameWithinEnd(es, i + 1);
    }
  }

  /** The corrected minihash update keeps the round trip. */
  lemma SetMinihashRoundTrips(v: Ivf, minihash: u32)
    requires RoundTrips(v)
    ensures RoundTrips(WithMinihash(v, minihash))
  {
    var r := WithMinihash(v, minihash);
    var b := v.buffer;
    var b' := r.buffer;
    RoundTripFacts(v);
    HeaderAgree(b, b', 28, v.index);
    SliceAgree(b, b', 32, |b|, 32, |b|);
    ScanAgree(b, b', SupportedHeaderLen, SupportedHeaderLen, v.frameCount);
    assert r == WithHeader(b', b', r.index);
    ParseOf(b', r.index);
  }

  /** As written, re-reading the buffer after set_expected_decoder_minihash reports
      the frame count as the minihash. */
  lemma SetMinihashAsWrittenRereads(v: Ivf, minihash: u32)
    requires RoundTrips(v)
    ensures Parse(WithMinihashAsWritten(v, minihash).buffer).Ok?
    ensures Parse(WithMinihashAsWritten(v, minihash).buffer).value.minihash == v.frameCount
  {
    var b := v.buffer;
    var b' := WithMinihashAsWritten(v, minihash).buffer;
    RoundTripFacts(v);
    HeaderAgree(b, b', 28, v.index);
    ScanAgree(b, b', SupportedHeaderLen, SupportedHeaderLen, v.frameCount);
  }

  // ---------------------------------------------------------------------------
  // The IVF writer that builds containers in memory (IVFWriter_MEM is not part of
  // this model): a header with no frames, then frames behind 12-byte headers
  // holding the length and the frame number.

  function WriterHeader(fourcc: seq<byte>, width: u16, height: u16, rate: u32, scale: u32): (h: seq<byte>)
    requires |fourcc| == 4
    ensures |h| == SupportedHeaderLen
  {
    Magic + Le16Bytes(0) + Le16Bytes(SupportedHeaderLen) + fourcc + Le16Bytes(width)
      + Le16Bytes(height) + Le32Bytes(rate) + Le32Bytes(scale) + Le32Bytes(0) + Le32Bytes(0)
  }

  function FrameHeader(len: nat, number: nat): (h: seq<byte>)
    ensures |h| == FrameHeaderLen
  {
    Le32Bytes(len % Two32) + Le32Bytes(number % Two32) + Le32Bytes(0)
  }

  /** The writer's header is accepted and announces no frames, with the given fields. */
  lemma WriterHeaderParses(fourcc: seq<byte>, width: u16, height: u16, rate: u32, scale: u32)
    requires |fourcc| == 4
    ensures var h := WriterHeader(fourcc, width, height, rate, scale);
      && HeaderError(h).None? && Le32(h, 24) == 0
      && FromHeader(h) == Ok(Ivf(h, fourcc, width, height, rate, scale, 0, 0, []))
  {
    var h := WriterHeader(fourcc, width, height, rate, scale);
    Le32RoundTrip(rate);
    Le32RoundTrip(scale);
    Le32RoundTrip(0);
    assert h[0..4] == Magic;
    assert h[8..12] == fourcc;
    assert h[4..6] == Le16Bytes(0) && h[6..8] == Le16Bytes(SupportedHeaderLen);
    assert h[12..14] == Le16Bytes(width) && h[14..16] == Le16Bytes(height);
    assert h[16..20] == Le32Bytes(rate) && h[20..24] == Le32Bytes(scale);
    assert h[24..28] == Le32Bytes(0) && h[28..32] == Le32Bytes(0);
  }

  /** The writer's frame header records the frame's length. */
  lemma FrameHeaderLength(len: nat, number: nat)
    requires len < Two32
    ensures Le32(FrameHeader(len, number), 0) == len
  {
    SmallMod(len, Two32);
    var a := Le32Bytes(len);
    var h := FrameHeader(len, number);
    assert h[0..4] == a[0..4] by {
      assert h == a + (Le32Bytes(number % Two32) + Le32Bytes(0));
    }
    Le32RoundTrip(len);
    Le32OfSlice(h, 0, a, 0);
  }

  /** The writer as constructed: the 32-byte header and nothing else. */
  function NewWriter(fourcc: seq<byte>, width: u16, height: u16, rate: u32, scale: u32): (v: Ivf)
    requires |fourcc| == 4
    ensures |v.buffer| == SupportedHeaderLen && v.frameCount == 0 && v.minihash == 0
  {
    Ivf(WriterHeader(fourcc, width, height, rate, scale), fourcc, width, height, rate, scale, 0, 0, [])
  }

  /** The writer's append_frame: the frame behind a header with its length and number. */
  function WriterAppend(v: Ivf, frame: seq<byte>): (r: Ivf)
    requires |v.buffer| >= SupportedHeaderLen
    ensures |r.buffer| >= SupportedHeaderLen
  {
    WithFrame(v, FrameHeader(|frame|, v.frameCount), frame)
  }

  /** Append the frames in order. */
  function WriteAll(v: Ivf, frames: seq<seq<byte>>): (r: Ivf)
    requires |v.buffer| >= SupportedHeaderLen
    ensures |r.buffer| >= SupportedHeaderLen
    decreases |frames|
  {
    if frames == [] then v
    else WriterAppend(WriteAll(v, frames[..|frames| - 1]), frames[|frames| - 1])
  }

  /** The frames 0..n-1 read in order, stopping at the first that cannot be read,
      as the loops over frame(i) for i < frame_count() do. */
  function FramesUpTo(v: Ivf, n: nat): (r: Result<seq<seq<byte>>, Error>)
    ensures r.Ok? ==> |r.value| == n
  {
    if n == 0 then Ok([])
    else
      var prefix :- FramesUpTo(v, n - 1);
      var f :- Frame(v, n - 1);
      Ok(prefix + [f])
  }

  function Frames(v: Ivf): Result<seq<seq<byte>>, Error>
  {
    FramesUpTo(v, v.frameCount)
  }

  /** IVF_MEM(filename): the bytes of the file, parsed. A file that cannot be opened
      has no size, and reserving for it throws. */
  function Load(files: map<string, seq<byte>>, name: string): Result<Ivf, Error>
  {
    if name in files then Parse(files[name]) else Err(NoFile(name))
  }

  /** Frames of no more than 2^32 - 1 bytes, the most a frame header can describe. */
  predicate FramesFit(frames: seq<seq<byte>>)
  {
    forall i :: 0 <= i < |frames| ==> |frames[i]| < Two32
  }

  /** Reading one more frame extends the frames read so far. */
  lemma FramesUpToSnoc(v: Ivf, n: nat)
    requires FramesUpTo(v, n).Ok? && Frame(v, n).Ok?
    ensures FramesUpTo(v, n + 1) == Ok(FramesUpTo(v, n).value + [Frame(v, n).value])
  {
  }

  /** Once a frame cannot be read, reading further frames fails the same way. */
  lemma {:induction false} FramesUpToErr(v: Ivf, n: nat, m: nat)
    requires n <= m && FramesUpTo(v, n).Err?
    ensures FramesUpTo(v, m) == FramesUpTo(v, n)
    decreases m
  {
    if m > n {
      FramesUpToErr(v, n, m - 1);
    }
  }

  /** Reading frames depends only on the frames one by one. */
  lemma {:induction false} FramesUpToAgree(v: Ivf, w: Ivf, n: nat)
    requires forall i :: 0 <= i < n ==> Frame(v, i) == Frame(w, i)
    ensures FramesUpTo(v, n) == FramesUpTo(w, n)
  {
    if n > 0 {
      FramesUpToAgree(v, w, n - 1);
    }
  }

  /** Every frame of a value that round-trips can be read, and fits a frame header. */
  lemma {:induction false} RoundTripFrames(v: Ivf, n: nat)
    requires RoundTrips(v) && n <= v.frameCount
    ensures FramesUpTo(v, n).Ok? && FramesFit(FramesUpTo(v, n).value)
    ensures forall i :: 0 <= i < n ==> Frame(v, i) == Ok(FramesUpTo(v, n).value[i])
  {
    if n > 0 {
      RoundTripFrames(v, n - 1);
      RoundTripFacts(v);
      ScanLayout(v.buffer, SupportedHeaderLen, v.frameCount);
      RoundTripFramesReadable(v, n - 1);
    }
  }

  lemma SplitLast<T>(s: seq<T>)
    requires |s| > 0
    ensures s[..|s| - 1] + [s[|s| - 1]] == s
  {
  }

  lemma ConcatAssoc<T>(a: seq<T>, b: seq<T>, c: seq<T>)
    ensures (a + b) + c == a + (b + c)
  {
  }

  /** A fresh writer holds no frames and round-trips. */
  lemma NewWriterRoundTrips(fourcc: seq<byte>, width: u16, height: u16, rate: u32, scale: u32)
    requires |fourcc| == 4
    ensures var v := NewWriter(fourcc, width, height, rate, scale);
      RoundTrips(v) && Frames(v) == Ok([])
  {
    WriterHeaderParses(fourcc, width, height, rate, scale);
    FromHeaderRoundTrips(WriterHeader(fourcc, width, height, rate, scale));
  }

  /** One writer append keeps the round trip, counts the frame, leaves the other
      header fields alone and adds the frame after the others. */
  lemma WriterAppendFrames(u: Ivf, frame: seq<byte>)
    requires RoundTrips(u) && u.frameCount + 1 < Two32 && |frame| < Two32
    ensures var w := WriterAppend(u, frame);
      && RoundTrips(w)
      && w.frameCount == u.frameCount + 1
      && w.(buffer := u.buffer, frameCount := u.frameCount, index := u.index) == u
      && Frames(u).Ok? && Frames(w) == Ok(Frames(u).value + [frame])
  {
    var header := FrameHeader(|frame|, u.frameCount);
    FrameHeaderLength(|frame|, u.frameCount);
    AppendRoundTrips(u, header, frame);
    AppendFrames(u, header, frame);
    var w := WithFrame(u, header, frame);
    RoundTripFacts(u);
    ScanLayout(u.buffer, SupportedHeaderLen, u.frameCount);
    FramesUpToAgree(u, w, u.frameCount);
    RoundTripFrames(u, u.frameCount);
  }

  /** Writing frames keeps the round trip, adds their number to the frame count and
      leaves the other header fields alone. */
  lemma {:induction false} WriteAllRoundTrips(v: Ivf, frames: seq<seq<byte>>)
    requires RoundTrips(v) && v.frameCount + |frames| < Two32 && FramesFit(frames)
    ensures var w := WriteAll(v, frames);
      && RoundTrips(w)
      && w.frameCount == v.frameCount + |frames|
      && w.(buffer := v.buffer, frameCount := v.frameCount, index := v.index) == v
    decreases |frames|
  {
    if frames != [] {
      var init := frames[..|frames| - 1];
      WriteAllRoundTrips(v, init);
      WriterAppendFrames(WriteAll(v, init), frames[|frames| - 1]);
    }
  }

  /** The frames of a container after writing are its old frames followed by the
      written ones. */
  lemma {:induction false} WriteAllFrames(v: Ivf, frames: seq<seq<byte>>)
    requires RoundTrips(v) && v.frameCount + |frames| < Two32 && FramesFit(frames)
    ensures Frames(v).Ok? && Frames(WriteAll(v, frames)) == Ok(Frames(v).value + frames)
    decreases |frames|
  {
    RoundTripFrames(v, v.frameCount);
    var old_ := Frames(v).value;
    if frames == [] {
      assert old_ + frames == old_;
    } else {
      var init := frames[..|frames| - 1];
      var last := frames[|frames| - 1];
      WriteAllFrames(v, init);
      WriteAllRoundTrips(v, init);
      var u := WriteAll(v, init);
      WriterAppendFrames(u, last);
      assert Frames(u) == Ok(old_ + init);
      SplitLast(frames);
      ConcatAssoc(old_, init, [last]);
    }
  }

  /** The container a writer builds from `frames` holds exactly `frames`. */
  lemma WrittenFrames(fourcc: seq<byte>, width: u16, height: u16, rate: u32, scale: u32,
                      frames: seq<seq<byte>>)
    requires |fourcc| == 4 && |frames| < Two32 && FramesFit(frames)
    ensures var w := WriteAll(NewWriter(fourcc, width, height, rate, scale), frames);
      && RoundTrips(w)
      && Frames(w) == Ok(frames)
      && w.frameCount == |frames|
      && w.width == width && w.height == height && w.fourcc == fourcc && w.minihash == 0
  {
    var v := NewWriter(fourcc, width, height, rate, scale);
    NewWriterRoundTrips(fourcc, width, height, rate, scale);
    WriteAllRoundTrips(v, frames);
    WriteAllFrames(v, frames);
    assert [] + frames == frames;
  }

  /** An instance of the minihash finding: an empty VP80 container whose minihash is
      set to 7 is written with 0 in its minihash bytes. */
  lemma SetMinihashAsWrittenExample()
    ensures var v := NewWriter([0x56, 0x50, 0x38, 0x30], 640, 480, 1, 1);
      && Parse(WithMinihashAsWritten(v, 7).buffer).Ok?
      && WithMinihashAsWritten(v, 7).minihash == 7
      && Parse(WithMinihashAsWritten(v, 7).buffer).value.minihash == 0
  {
    var v := NewWriter([0x56, 0x50, 0x38, 0x30], 640, 480, 1, 1);
    NewWriterRoundTrips([0x56, 0x50, 0x38, 0x30], 640, 480, 1, 1);
    SetMinihashAsWrittenRereads(v, 7);
  }

  /** With the correction an empty container written with minihash 7 reads back 7. */
  lemma SetMinihashExample()
    ensures var v := NewWriter([0x56, 0x50, 0x38, 0x30], 640, 480, 1, 1);
      Parse(WithMinihash(v, 7).buffer) == Ok(WithMinihash(v, 7))
  {
    var v := NewWriter([0x56, 0x50, 0x38, 0x30], 640, 480, 1, 1);
    NewWriterRoundTrips([0x56, 0x50, 0x38, 0x30], 640, 480, 1, 1);
    SetMinihashRoundTrips(v, 7);
  }

  // ---------------------------------------------------------------------------
  // IVF_MEM as an object

  class IvfMem {
    var buffer: seq<byte>
    var fourcc: seq<byte>
    var width: u16
    var height: u16
    var frameRate: u32
    var timeScale: u32
    var frameCount: u32
    var minihash: u32
    var index: seq<Entry>

    function Value(): Ivf
      reads this
    {
      Ivf(buffer, fourcc, width, height, frameRate, timeScale, frameCount, minihash, index)
    }

    /** The buffer holds at least a header, so the header fields can be rewritten. */
    predicate Valid()
      reads this
    {
      |buffer| >= SupportedHeaderLen
    }

    constructor Of(v: Ivf)
      ensures Value() == v
    {
      buffer, fourcc, width, height := v.buffer, v.fourcc, v.width, v.height;
      frameRate, timeScale, frameCount, minihash := v.frameRate, v.timeScale, v.frameCount, v.minihash;
      index := v.index;
    }

    /** The constructor from a loaded file: header checks, then the index loop. */
    static method ParseBuffer(buf: seq<byte>) returns (r: Result<Ivf, Error>)
      ensures r == Parse(buf)
    {
      if |buf| < SupportedHeaderLen {
        return Err(Invalid("IVF file truncated"));
      }
      if buf[0..4] != Magic {
        return Err(Invalid("missing IVF file header"));
      }
      if Le16(buf, 4) != 0 {
        return Err(Unsupported("not an IVF version 0 file"));
      }
      if Le16(buf, 6) != SupportedHeaderLen {
        return Err(Unsupported("unsupported IVF header length"));
      }
      var count := Le32(buf, 24);
      var frameIndex: seq<Entry> := [];
      var position: nat := SupportedHeaderLen;
      var i: nat := 0;
      PrependNothing(ScanIndex(buf, position, count));
      while i < count
        invariant i <= count
        invariant ScanIndex(buf, SupportedHeaderLen, count)
                  == Prepend(frameIndex, ScanIndex(buf, position, count - i))
        decreases count - i
      {
        if position + FrameHeaderLen > |buf| {
          return Err(Invalid("IVF file truncated"));
        }
        var frameLen := Le32(buf, position);
        ScanStep(buf, position, count - i, frameIndex);
        frameIndex := frameIndex + [Entry(position + FrameHeaderLen, frameLen)];
        position := position + FrameHeaderLen + frameLen;
        i := i + 1;
      }
      assert frameIndex + [] == frameIndex;
      assert HeaderError(buf).None?;
      return Ok(WithHeader(buf, buf, frameIndex));
    }

    /** The constructor from a file name: load, then parse. */
    static method LoadFile(files: map<string, seq<byte>>, name: string) returns (r: Result<Ivf, Error>)
      ensures r == Load(files, name)
    {
      if name !in files {
        return Err(NoFile(name));
      }
      r := ParseBuffer(files[name]);
    }

    /** IVF_MEM::append_frame. */
    method AppendFrame(header: seq<byte>, frame: seq<byte>)
      requires Valid() && |header| >= 4
      modifies this
      ensures Valid()
      ensures Value() == WithFrame(old(Value()), header, frame)
    {
      var position := |buffer|;
      var frameLen := Le32(header, 0);
      index := index + [Entry(position + FrameHeaderLen, frameLen)];
      buffer := buffer + header + frame;
      frameCount := (frameCount + 1) % Two32;
      buffer := WriteLe32(buffer, 24, frameCount);
    }

    /** set_expected_decoder_minihash exactly as the source writes it. */
    method SetExpectedDecoderMinihashAsWritten(m: u32)
      requires Valid()
      modifies this
      ensures Valid()
      ensures Value() == WithMinihashAsWritten(old(Value()), m)
    {
      minihash := m;
      buffer := WriteLe32(buffer, 28, frameCount);
    }

    /** set_expected_decoder_minihash with the header bytes kept in step with the field. */
    method SetExpectedDecoderMinihash(m: u32)
      requires Valid()
      modifies this
      ensures Valid()
      ensures Value() == WithMinihash(old(Value()), m)
    {
      minihash := m;
      buffer := WriteLe32(buffer, 28, m);
    }
  }
}
