/** What every ExCamera pipeline variant shares: the VP8 codec, treated as a set of
    opaque functions, and the three per-chunk operations the stages are built from:
    decode (replay a chunk to get the decoder state after its last frame),
    enc_given_state (re-encode a chunk's rasters starting from a given decoder
    state) and merge (concatenate the frames of two containers). */
module Excamera {
  import opened Bytes
  import opened Wrappers
  import opened Ivf

  /** A serialised decoder state (DecoderBuffer). */
  type State = seq<byte>

  /** One picture read from a YUV4MPEG stream. */
  type Raster = seq<byte>

  /** A prediction frame: the frame, with the decoder state it was parsed against. */
  datatype PredFrame = PredFrame(state: State, frame: seq<byte>)

  /** What Encoder::reencode leaves behind: the frames it hands the writer, and the
      serialised state of the encoder's decoder afterwards. */
  datatype Encoded = Encoded(frames: seq<seq<byte>>, state: State)

  /** What a YUV4MPEG reader yields: the rasters and the display size. */
  datatype Y4m = Y4m(rasters: seq<Raster>, width: u16, height: u16)

  /** The codec library (Decoder, Encoder, the state serialisers, the YUV4MPEG reader):
      - init(w, h): the state of a fresh Decoder(w, h);
      - hash(s): the decoder minihash (minihash_match compares against it);
      - decode(s, f): the state after parsing and decoding frame f from state s;
      - reencode(s, rasters, preds): encode rasters from decoder state s, guided by
        the prediction frames;
      - readY4m(bytes): parse a YUV4MPEG stream. */
  datatype Codec = Codec(
    init: (u16, u16) -> State,
    hash: State -> u32,
    decode: (State, seq<byte>) -> State,
    reencode: (State, seq<Raster>, seq<PredFrame>) -> Encoded,
    readY4m: seq<byte> -> Y4m)

  /** The fourcc every writer in the pipeline uses. */
  const VP80: seq<byte> := [0x56, 0x50, 0x38, 0x30]

  /** A codec whose re-encodings always fit a 32-bit frame count and frame lengths. */
  ghost predicate Bounded(c: Codec)
  {
    forall s, r, p :: |c.reencode(s, r, p).frames| < Two32 && FramesFit(c.reencode(s, r, p).frames)
  }

  // ---------------------------------------------------------------------------
  // decode

  /** The decoder state after decoding `frames` in order from `s`. */
  function Replay(c: Codec, s: State, frames: seq<seq<byte>>): State
    decreases |frames|
  {
    if frames == [] then s
    else c.decode(Replay(c, s, frames[..|frames| - 1]), frames[|frames| - 1])
  }

  /** Decoding the concatenation of two frame lists continues from the state the
      first list leaves. */
  lemma {:induction false} ReplayConcat(c: Codec, s: State, a: seq<seq<byte>>, b: seq<seq<byte>>)
    ensures Replay(c, s, a + b) == Replay(c, Replay(c, s, a), b)
    decreases |b|
  {
    if b == [] {
      assert a + b == a;
    } else {
      var init := b[..|b| - 1];
      ReplayConcat(c, s, a, init);
      assert (a + b)[..|a + b| - 1] == a + init;
      assert (a + b)[|a + b| - 1] == b[|b| - 1];
    }
  }

  /** decode: the state after the last frame of a container whose minihash matches a
      fresh decoder of its size. */
  function DecodeSpec(c: Codec, v: Ivf): Result<State, Error>
  {
    var s0 := c.init(v.width, v.height);
    if c.hash(s0) != v.minihash then Err(Invalid("Decoder state / IVF mismatch"))
    else if v.frameCount == 0 then Err(Runtime("invalid frame number"))
    else
      var frames :- Frames(v);
      Ok(Replay(c, s0, frames))
  }

  /** decode, frame by frame, returning once the last frame is decoded. */
  method Decode(c: Codec, v: Ivf) returns (r: Result<State, Error>)
    ensures r == DecodeSpec(c, v)
  {
    var decoder := c.init(v.width, v.height);
    if c.hash(decoder) != v.minihash {
      return Err(Invalid("Decoder state / IVF mismatch"));
    }
    var i: nat := 0;
    while i < v.frameCount
      invariant i < v.frameCount || v.frameCount == 0
      invariant FramesUpTo(v, i).Ok?
      invariant decoder == Replay(c, c.init(v.width, v.height), FramesUpTo(v, i).value)
    {
      var f := Frame(v, i);
      if f.Err? {
        FramesUpToErr(v, i + 1, v.frameCount);
        return Err(f.error);
      }
      FramesUpToSnoc(v, i);
      ReplaySnoc(c, c.init(v.width, v.height), FramesUpTo(v, i).value, f.value);
      decoder := c.decode(decoder, f.value);
      if i == v.frameCount - 1 {
        return Ok(decoder);
      }
      i := i + 1;
    }
    return Err(Runtime("invalid frame number"));
  }

  lemma ReplaySnoc(c: Codec, s: State, frames: seq<seq<byte>>, f: seq<byte>)
    ensures Replay(c, s, frames + [f]) == c.decode(Replay(c, s, frames), f)
  {
    assert (frames + [f])[..|frames|] == frames;
  }

  /** decode fails exactly on a minihash mismatch, an empty container or an unreadable
      frame; a well-formed container whose minihash matches decodes to the state after
      all its frames. */
  lemma DecodeOutcome(c: Codec, v: Ivf)
    ensures DecodeSpec(c, v).Ok? <==>
      c.hash(c.init(v.width, v.height)) == v.minihash && v.frameCount > 0 && Frames(v).Ok?
    ensures c.hash(c.init(v.width, v.height)) != v.minihash ==>
      DecodeSpec(c, v) == Err(Invalid("Decoder state / IVF mismatch"))
    ensures c.hash(c.init(v.width, v.height)) == v.minihash && v.frameCount == 0 ==>
      DecodeSpec(c, v) == Err(Runtime("invalid frame number"))
    ensures RoundTrips(v) && c.hash(c.init(v.width, v.height)) == v.minihash && v.frameCount > 0 ==>
      Frames(v).Ok? && DecodeSpec(c, v) == Ok(Replay(c, c.init(v.width, v.height), Frames(v).value))
  {
    if RoundTrips(v) {
      RoundTripFrames(v, v.frameCount);
    }
  }

  // ---------------------------------------------------------------------------
  // enc_given_state

  /** The prediction frames of `frames` decoded from `s`: each frame with the state
      the prediction decoder is in when it parses it. */
  function Predictions(c: Codec, s: State, frames: seq<seq<byte>>): (r: seq<PredFrame>)
    ensures |r| == |frames|
    ensures forall i :: 0 <= i < |r| ==> r[i] == PredFrame(Replay(c, s, frames[..i]), frames[i])
    decreases |frames|
  {
    if frames == [] then []
    else
      var init := frames[..|frames| - 1];
      var r := Predictions(c, s, init) + [PredFrame(Replay(c, s, init), frames[|frames| - 1])];
      assert forall i :: 0 <= i < |init| ==> frames[..i] == init[..i];
      r
  }

  lemma PredictionsSnoc(c: Codec, s: State, frames: seq<seq<byte>>, f: seq<byte>)
    ensures Predictions(c, s, frames + [f]) == Predictions(c, s, frames) + [PredFrame(Replay(c, s, frames), f)]
  {
    assert (frames + [f])[..|frames|] == frames;
  }

  /** The result of enc_given_state: the re-encoded chunk and the state after it. */
  datatype Output = Output(ivf: Ivf, state: State)

  /** The prediction decoder starts from the previous state when there is one, and
      from a fresh decoder of the display size otherwise. */
  function PredStart(c: Codec, prev: Option<State>, width: u16, height: u16): State
  {
    if prev.Some? then prev.value else c.init(width, height)
  }

  /** The writer enc_given_state re-encodes into: an empty VP80 container announcing
      the minihash of the input state. */
  function EncodeWriter(c: Codec, input: State, width: u16, height: u16): (w: Ivf)
    ensures |w.buffer| == SupportedHeaderLen
  {
    WithMinihash(NewWriter(VP80, width, height, 1, 1), c.hash(input))
  }

  /** enc_given_state: check the prediction container against the prediction
      decoder, replay it to collect the prediction frames, then re-encode the rasters
      from the input state. */
  function EncGivenStateSpec(c: Codec, input: State, prev: Option<State>, pred: Ivf,
                             rasters: seq<Raster>, width: u16, height: u16): Result<Output, Error>
  {
    var p0 := PredStart(c, prev, width, height);
    if c.hash(p0) != pred.minihash then
      Err(Invalid("Mismatch between prediction IVF and prediction_ivf_initial_state"))
    else
      var frames :- Frames(pred);
      var e := c.reencode(input, rasters, Predictions(c, p0, frames));
      Ok(Output(WriteAll(EncodeWriter(c, input, width, height), e.frames), e.state))
  }

  method EncGivenState(c: Codec, input: State, prev: Option<State>, pred: Ivf,
                       rasters: seq<Raster>, width: u16, height: u16) returns (r: Result<Output, Error>)
    ensures r == EncGivenStateSpec(c, input, prev, pred, rasters, width, height)
  {
    var predDecoder := c.init(width, height);
    if prev.Some? {
      predDecoder := prev.value;
    }
    if c.hash(predDecoder) != pred.minihash {
      return Err(Invalid("Mismatch between prediction IVF and prediction_ivf_initial_state"));
    }
    var failure, predictionFrames := PredictionFrames(c, predDecoder, pred);
    if failure.Some? {
      return Err(failure.value);
    }
    var e := c.reencode(input, rasters, predictionFrames);
    var writer := EncodeWriter(c, input, width, height);
    return Ok(Output(WriteAll(writer, e.frames), e.state));
  }

  /** enc_given_state's pre-read loop: parse and decode every prediction frame from
      `p0`, keeping each frame with the state it was parsed against; the first frame
      that cannot be read ends it with that error. */
  method PredictionFrames(c: Codec, p0: State, pred: Ivf) returns (failure: Option<Error>, preds: seq<PredFrame>)
    ensures failure.None? <==> Frames(pred).Ok?
    ensures failure.Some? ==> Frames(pred) == Err(failure.value)
    ensures failure.None? ==> preds == Predictions(c, p0, Frames(pred).value)
  {
    var predDecoder := p0;
    preds := [];
    var i: nat := 0;
    ghost var done: seq<seq<byte>> := [];
    while i < pred.frameCount
      invariant i <= pred.frameCount
      invariant FramesUpTo(pred, i) == Ok(done)
      invariant preds == Predictions(c, p0, done)
      invariant predDecoder == Replay(c, p0, done)
    {
      var f := Frame(pred, i);
      if f.Err? {
        FramesUpToErr(pred, i + 1, pred.frameCount);
        return Some(f.error), [];
      }
      FramesUpToSnoc(pred, i);
      ReplaySnoc(c, p0, done, f.value);
      PredictionsSnoc(c, p0, done, f.value);
      preds := preds + [PredFrame(predDecoder, f.value)];
      predDecoder := c.decode(predDecoder, f.value);
      done := done + [f.value];
      i := i + 1;
    }
    return None, preds;
  }

  /** enc_given_state fails exactly when the prediction decoder's minihash differs
      from the prediction container's, or a prediction frame cannot be read. */
  lemma EncGivenStateErrors(c: Codec, input: State, prev: Option<State>, pred: Ivf,
                            rasters: seq<Raster>, width: u16, height: u16)
    ensures var r := EncGivenStateSpec(c, input, prev, pred, rasters, width, height);
      && (r.Ok? <==> c.hash(PredStart(c, prev, width, height)) == pred.minihash && Frames(pred).Ok?)
      && (c.hash(PredStart(c, prev, width, height)) != pred.minihash ==>
            r == Err(Invalid("Mismatch between prediction IVF and prediction_ivf_initial_state")))
      && (RoundTrips(pred) && c.hash(PredStart(c, prev, width, height)) == pred.minihash ==> r.Ok?)
  {
    if RoundTrips(pred) {
      RoundTripFrames(pred, pred.frameCount);
    }
  }

  /** The container enc_given_state produces is well formed, has the display size,
      announces the input state's minihash and holds exactly the frames the encoder
      produced from the prediction frames; the state is the encoder's state after it. */
  lemma EncGivenStateOutput(c: Codec, input: State, prev: Option<State>, pred: Ivf,
                            rasters: seq<Raster>, width: u16, height: u16)
    requires Bounded(c)
    requires EncGivenStateSpec(c, input, prev, pred, rasters, width, height).Ok?
    ensures var o := EncGivenStateSpec(c, input, prev, pred, rasters, width, height).value;
      && RoundTrips(o.ivf)
      && o.ivf.width == width && o.ivf.height == height && o.ivf.fourcc == VP80
      && o.ivf.minihash == c.hash(input)
      && Frames(pred).Ok? && Frames(o.ivf).Ok?
      && o.ivf.frameCount == |Frames(o.ivf).value|
      && Encoded(Frames(o.ivf).value, o.state)
         == c.reencode(input, rasters, Predictions(c, PredStart(c, prev, width, height), Frames(pred).value))
  {
    var e := c.reencode(input, rasters, Predictions(c, PredStart(c, prev, width, height), Frames(pred).value));
    var n := NewWriter(VP80, width, height, 1, 1);
    NewWriterRoundTrips(VP80, width, height, 1, 1);
    SetMinihashRoundTrips(n, c.hash(input));
    var w := EncodeWriter(c, input, width, height);
    WriteAllRoundTrips(w, e.frames);
    WriteAllFrames(w, e.frames);
    assert Frames(w) == Ok([]);
    assert [] + e.frames == e.frames;
  }

  /** A chunk re-encoded from `input` can serve as the prediction container of a
      later call whose prediction decoder starts from `input`: that call passes the
      minihash check and reads all the prediction frames. */
  lemma EncGivenStateChains(c: Codec, input: State, prev: Option<State>, pred: Ivf,
                            rasters: seq<Raster>, width: u16, height: u16,
                            input': State, rasters': seq<Raster>, width': u16, height': u16)
    requires Bounded(c)
    requires EncGivenStateSpec(c, input, prev, pred, rasters, width, height).Ok?
    ensures var o := EncGivenStateSpec(c, input, prev, pred, rasters, width, height).value;
      EncGivenStateSpec(c, input', Some(input), o.ivf, rasters', width', height').Ok?
  {
    var o := EncGivenStateSpec(c, input, prev, pred, rasters, width, height).value;
    EncGivenStateOutput(c, input, prev, pred, rasters, width, height);
    EncGivenStateErrors(c, input', Some(input), o.ivf, rasters', width', height');
  }

  /** The output of a successful re-encode accepts every input state as the
      prediction container of the next call. */
  lemma ChainsFromAnyInput(c: Codec, s: State, prev: Option<State>, pred: Ivf,
                           rasters: seq<Raster>, width: u16, height: u16)
    requires Bounded(c)
    requires EncGivenStateSpec(c, s, prev, pred, rasters, width, height).Ok?
    ensures AcceptsAnyInput(c, s, EncGivenStateSpec(c, s, prev, pred, rasters, width, height).value.ivf,
                            rasters, width, height)
  {
    var o := EncGivenStateSpec(c, s, prev, pred, rasters, width, height).value;
    forall input
      ensures EncGivenStateSpec(c, input, Some(s), o.ivf, rasters, width, height).Ok?
    {
      EncGivenStateChains(c, s, prev, pred, rasters, width, height, input, rasters, width, height);
    }
  }

  /** A prediction container and the state it was written for, with which
      enc_given_state succeeds whatever the input state. */
  ghost predicate AcceptsAnyInput(c: Codec, predState: State, pred: Ivf, rasters: seq<Raster>,
                                  width: u16, height: u16)
  {
    forall input :: EncGivenStateSpec(c, input, Some(predState), pred, rasters, width, height).Ok?
  }

  // ---------------------------------------------------------------------------
  // merge

  /** merge: a fresh VP80 writer of the first container's size receives the first
      container's frames and then the second's. */
  function MergeSpec(a: Ivf, b: Ivf): Result<Ivf, Error>
  {
    if a.width != b.width || a.height != b.height then
      Err(Runtime("cannot merge ivfs with different dimensions."))
    else
      var fa :- Frames(a);
      var fb :- Frames(b);
      Ok(WriteAll(WriteAll(NewWriter(VP80, a.width, a.height, 1, 1), fa), fb))
  }

  method Merge(a: Ivf, b: Ivf) returns (r: Result<Ivf, Error>)
    ensures r == MergeSpec(a, b)
  {
    if a.width != b.width || a.height != b.height {
      return Err(Runtime("cannot merge ivfs with different dimensions."));
    }
    var writer := NewWriter(VP80, a.width, a.height, 1, 1);
    ghost var w0 := writer;
    var i: nat := 0;
    while i < a.frameCount
      invariant i <= a.frameCount
      invariant FramesUpTo(a, i).Ok? && writer == WriteAll(w0, FramesUpTo(a, i).value)
    {
      var f := Frame(a, i);
      if f.Err? {
        FramesUpToErr(a, i + 1, a.frameCount);
        return Err(f.error);
      }
      var done := FramesUpTo(a, i).value;
      assert (done + [f.value])[..|done|] == done;
      writer := WriterAppend(writer, f.value);
      i := i + 1;
    }
    ghost var w1 := writer;
    var j: nat := 0;
    while j < b.frameCount
      invariant j <= b.frameCount
      invariant FramesUpTo(b, j).Ok? && writer == WriteAll(w1, FramesUpTo(b, j).value)
    {
      var f := Frame(b, j);
      if f.Err? {
        FramesUpToErr(b, j + 1, b.frameCount);
        return Err(f.error);
      }
      var done := FramesUpTo(b, j).value;
      assert (done + [f.value])[..|done|] == done;
      writer := WriterAppend(writer, f.value);
      j := j + 1;
    }
    return Ok(writer);
  }

  /** merge fails exactly on differing dimensions or an unreadable frame, and never
      on two well-formed containers of the same size. */
  lemma MergeErrors(a: Ivf, b: Ivf)
    ensures MergeSpec(a, b).Ok? <==> a.width == b.width && a.height == b.height && Frames(a).Ok? && Frames(b).Ok?
    ensures a.width != b.width || a.height != b.height ==>
      MergeSpec(a, b) == Err(Runtime("cannot merge ivfs with different dimensions."))
    ensures RoundTrips(a) && RoundTrips(b) && a.width == b.width && a.height == b.height ==> MergeSpec(a, b).Ok?
  {
    if RoundTrips(a) && RoundTrips(b) {
      RoundTripFrames(a, a.frameCount);
      RoundTripFrames(b, b.frameCount);
    }
  }

  /** The merged container is well formed, keeps the size, holds the first
      container's frames followed by the second's, and its frame count is the sum. */
  lemma MergeFrames(a: Ivf, b: Ivf)
    requires MergeSpec(a, b).Ok? && a.frameCount + b.frameCount < Two32
    ensures Frames(a).Ok? && Frames(b).Ok?
    ensures var m := MergeSpec(a, b).value;
      && RoundTrips(m)
      && m.width == a.width && m.height == a.height && m.fourcc == VP80 && m.minihash == 0
      && Frames(m) == Ok(Frames(a).value + Frames(b).value)
      && m.frameCount == a.frameCount + b.frameCount
  {
    var fa := Frames(a).value;
    var fb := Frames(b).value;
    MergeFits(a);
    MergeFits(b);
    var w := WriteAll(NewWriter(VP80, a.width, a.height, 1, 1), fa);
    WrittenFrames(VP80, a.width, a.height, 1, 1, fa);
    WriteAllRoundTrips(w, fb);
    WriteAllFrames(w, fb);
  }

  /** The frames read from a container are as many as it announces, and each fits a
      frame header, because each was read through a 32-bit length. */
  lemma MergeFits(v: Ivf)
    requires Frames(v).Ok?
    ensures |Frames(v).value| == v.frameCount && FramesFit(Frames(v).value)
  {
    FramesFitUpTo(v, v.frameCount);
  }

  lemma {:induction false} FramesFitUpTo(v: Ivf, n: nat)
    requires FramesUpTo(v, n).Ok?
    ensures FramesFit(FramesUpTo(v, n).value)
    decreases n
  {
    if n > 0 {
      FramesFitUpTo(v, n - 1);
    }
  }

  // ---------------------------------------------------------------------------
  // The merge chain of the rebase stage: each output is the previous output merged
  // with the next rebased chunk.

  /** The frames of the containers one after another; fails at the first container
      whose frames cannot be read. */
  function ConcatFrames(vs: seq<Ivf>): Result<seq<seq<byte>>, Error>
    decreases |vs|
  {
    if vs == [] then Ok([])
    else
      var init :- ConcatFrames(vs[..|vs| - 1]);
      var last :- Frames(vs[|vs| - 1]);
      Ok(init + last)
  }

  /** The frame counts of the containers added up. */
  function TotalCount(vs: seq<Ivf>): nat
    decreases |vs|
  {
    if vs == [] then 0 else TotalCount(vs[..|vs| - 1]) + vs[|vs| - 1].frameCount
  }

  /** Merge the containers onto `acc` one at a time, in order. */
  function MergeChain(acc: Ivf, vs: seq<Ivf>): Result<Ivf, Error>
    decreases |vs|
  {
    if vs == [] then Ok(acc)
    else
      var a :- MergeChain(acc, vs[..|vs| - 1]);
      MergeSpec(a, vs[|vs| - 1])
  }

  /** A successful merge chain holds the first container's frames followed by every
      merged container's, and its frame count is the sum of theirs. */
  lemma {:induction false} MergeChainFrames(acc: Ivf, vs: seq<Ivf>)
    requires MergeChain(acc, vs).Ok? && Frames(acc).Ok?
    requires acc.frameCount + TotalCount(vs) < Two32
    ensures ConcatFrames(vs).Ok?
    ensures var m := MergeChain(acc, vs).value;
      && Frames(m) == Ok(Frames(acc).value + ConcatFrames(vs).value)
      && m.frameCount == acc.frameCount + TotalCount(vs)
      && m.width == acc.width && m.height == acc.height
      && (vs != [] ==> RoundTrips(m))
    decreases |vs|
  {
    if vs == [] {
      assert Frames(acc).value + [] == Frames(acc).value;
    } else {
      var init := vs[..|vs| - 1];
      var last := vs[|vs| - 1];
      MergeChainFrames(acc, init);
      var a := MergeChain(acc, init).value;
      MergeFrames(a, last);
      ConcatAssoc(Frames(acc).value, ConcatFrames(init).value, Frames(last).value);
    }
  }

  /** Output i is container i merged onto output i - 1. */
  ghost predicate MergedAt(outs: seq<Ivf>, vs: seq<Ivf>, i: nat)
  {
    0 < i < |outs| && i < |vs| && MergeSpec(outs[i - 1], vs[i]) == Ok(outs[i])
  }

  /** Outputs built by merging each container onto the previous output form the
      merge chain from the first output. */
  lemma {:induction false} MergeStepsChain(outs: seq<Ivf>, vs: seq<Ivf>, k: nat)
    requires |outs| == |vs| && k < |outs|
    requires forall i :: 1 <= i <= k ==> MergedAt(outs, vs, i)
    ensures MergeChain(outs[0], vs[1..k + 1]) == Ok(outs[k])
    decreases k
  {
    if k > 0 {
      MergeStepsChain(outs, vs, k - 1);
      ChainStep(outs, vs, k);
    }
  }

  /** A chain that merges to output k - 1 merges, with container k added, to
      output k. */
  lemma ChainStep(outs: seq<Ivf>, vs: seq<Ivf>, k: nat)
    requires |outs| == |vs| && 0 < k < |outs| && MergedAt(outs, vs, k)
    requires MergeChain(outs[0], vs[1..k]) == Ok(outs[k - 1])
    ensures MergeChain(outs[0], vs[1..k + 1]) == Ok(outs[k])
  {
    SnocSlice(vs, k);
    MergeChainSnoc(outs[0], vs[1..k + 1], outs[k - 1]);
  }

  /** The span vs[1..k + 1] is the span vs[1..k] and then vs[k]. */
  lemma SnocSlice<T>(vs: seq<T>, k: nat)
    requires 0 < k < |vs|
    ensures vs[1..k + 1][..k - 1] == vs[1..k] && vs[1..k + 1][k - 1] == vs[k]
  {
  }

  /** Adding a container to a chain that succeeds merges it onto the
      chain's result. */
  lemma MergeChainSnoc(acc: Ivf, w: seq<Ivf>, a: Ivf)
    requires w != [] && MergeChain(acc, w[..|w| - 1]) == Ok(a)
    ensures MergeChain(acc, w) == MergeSpec(a, w[|w| - 1])
  {
  }

  /** Outputs built by merging each container onto the previous output, starting
      from the first container: the last output holds all their frames in order. */
  lemma MergeStepsFrames(outs: seq<Ivf>, vs: seq<Ivf>)
    requires |outs| == |vs| >= 2 && outs[0] == vs[0]
    requires forall i :: 1 <= i < |outs| ==> MergeSpec(outs[i - 1], vs[i]) == Ok(outs[i])
    requires vs[0].frameCount + TotalCount(vs[1..]) < Two32
    ensures Frames(vs[0]).Ok? && ConcatFrames(vs[1..]).Ok?
    ensures Frames(outs[|outs| - 1]) == Ok(Frames(vs[0]).value + ConcatFrames(vs[1..]).value)
    ensures outs[|outs| - 1].frameCount == vs[0].frameCount + TotalCount(vs[1..])
    ensures RoundTrips(outs[|outs| - 1])
  {
    var k := |outs| - 1;
    forall i | 1 <= i <= k
      ensures MergedAt(outs, vs, i)
    {
    }
    MergeStepsChain(outs, vs, k);
    assert vs[1..k + 1] == vs[1..];
    assert MergeChain(vs[0], vs[1..]) == Ok(outs[k]);
    assert MergeSpec(outs[0], vs[1]) == Ok(outs[1]);
    MergeErrors(outs[0], vs[1]);
    assert Frames(vs[0]).Ok?;
    MergeChainFrames(vs[0], vs[1..]);
  }
}
