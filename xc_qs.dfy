/** The ExCamera pipeline on sharded vectors (xc_qs): read_input splits the chunk
    containers into the chunks that predict (all but the last) and the chunks that
    are re-encoded (all but the first); decode_all decodes the first group, and
    encode_all re-encodes every chunk of the second from the decoded state of the
    chunk before it; a serial rebase then threads a state through the chunks,
    appending to the output chain, and the last output is written. Each stage's
    distributed tasks are modelled as one loop in index order, and the joined
    outputs as arriving in that order. */
module XcQs {
  import opened Bytes
  import opened Wrappers
  import opened Ivf
  import opened Excamera
  import opened Names
  import opened XcStages

  const N: nat := 16

  // ---------------------------------------------------------------------------
  // read_input

  /** Chunk i's files can be read: its VP8 container parses and, for every chunk but
      the first, its raw file exists. */
  predicate Readable(files: map<string, seq<byte>>, prefix: string, i: nat)
  {
    Load(files, VpxName(prefix, i)).Ok? && (i != 0 ==> InputName(prefix, i) in files)
  }

  /** What read_input throws at chunk i, if anything: the container is loaded
      first, then the raw chunk is looked up (chunk 0 has none). */
  function ReadError(files: map<string, seq<byte>>, prefix: string, i: nat): (r: Option<Error>)
    ensures r.None? <==> Readable(files, prefix, i)
  {
    if Load(files, VpxName(prefix, i)).Err? then Some(Load(files, VpxName(prefix, i)).error)
    else if i != 0 && InputName(prefix, i) !in files then Some(NoFile(InputName(prefix, i)))
    else None
  }

  /** read_input throws e at the first chunk that cannot be read. */
  ghost predicate ReadFailed(files: map<string, seq<byte>>, prefix: string, e: Error)
  {
    exists i :: 0 <= i < N && ReadError(files, prefix, i) == Some(e)
      && forall j :: 0 <= j < i ==> Readable(files, prefix, j)
  }

  /** Entry k of vpx0 is the container of chunk k. */
  predicate Predictor(files: map<string, seq<byte>>, prefix: string, vpx0: seq<Ivf>, k: nat)
    requires k < |vpx0|
  {
    Load(files, VpxName(prefix, k)) == Ok(vpx0[k])
  }

  /** Entry k of vpx1 and of the raw buffers are the container and the raw file of
      chunk k + 1. */
  predicate Target(files: map<string, seq<byte>>, prefix: string, vpx1: seq<Ivf>, raw: seq<seq<byte>>, k: nat)
    requires k < |vpx1| && k < |raw|
  {
    Load(files, VpxName(prefix, k + 1)) == Ok(vpx1[k]) && LoadBuffer(files, InputName(prefix, k + 1)) == Ok(raw[k])
  }

  /** The n entries of vpx0 are the containers of chunks 0..n-1. */
  ghost predicate PredictorsRead(files: map<string, seq<byte>>, prefix: string, vpx0: seq<Ivf>, n: nat)
  {
    |vpx0| == n && forall k :: 0 <= k < n ==> Predictor(files, prefix, vpx0, k)
  }

  /** The n entries of vpx1 and of the raw buffers are chunks 1..n. */
  ghost predicate TargetsRead(files: map<string, seq<byte>>, prefix: string, vpx1: seq<Ivf>, raw: seq<seq<byte>>, n: nat)
  {
    |vpx1| == n && |raw| == n && forall k :: 0 <= k < n ==> Target(files, prefix, vpx1, raw, k)
  }

  /** What read_input appends: vpx0 gets chunks 0..N-2, vpx1 and the raw buffers
      chunks 1..N-1, and ivf0 is chunk 0. */
  ghost predicate InputRead(files: map<string, seq<byte>>, prefix: string,
                            vpx0: seq<Ivf>, vpx1: seq<Ivf>, raw: seq<seq<byte>>, ivf0: Ivf)
  {
    && PredictorsRead(files, prefix, vpx0, N - 1)
    && TargetsRead(files, prefix, vpx1, raw, N - 1)
    && Load(files, VpxName(prefix, 0)) == Ok(ivf0)
  }

  /** Each container is loaded once per use, so the prediction group is the
      re-encoded group shifted by one, ivf0 is the first prediction container, and
      every chunk's files were readable. */
  lemma InputSplit(files: map<string, seq<byte>>, prefix: string,
                   vpx0: seq<Ivf>, vpx1: seq<Ivf>, raw: seq<seq<byte>>, ivf0: Ivf)
    requires InputRead(files, prefix, vpx0, vpx1, raw, ivf0)
    ensures ivf0 == vpx0[0] && vpx0[1..] == vpx1[..N - 2]
    ensures forall i :: 0 <= i < N ==> Readable(files, prefix, i)
  {
    assert Predictor(files, prefix, vpx0, 0);
    forall k | 0 <= k < N - 2
      ensures vpx0[1..][k] == vpx1[..N - 2][k]
    {
      assert Predictor(files, prefix, vpx0, k + 1);
      assert Target(files, prefix, vpx1, raw, k);
    }
    forall i | 0 <= i < N
      ensures Readable(files, prefix, i)
    {
      if i != 0 {
        assert Target(files, prefix, vpx1, raw, i - 1);
      }
    }
  }

  lemma PredictorsExtend(files: map<string, seq<byte>>, prefix: string, vpx0: seq<Ivf>, v: Ivf, n: nat)
    requires PredictorsRead(files, prefix, vpx0, n) && Load(files, VpxName(prefix, n)) == Ok(v)
    ensures PredictorsRead(files, prefix, vpx0 + [v], n + 1)
  {
    forall k | 0 <= k < n + 1
      ensures Predictor(files, prefix, vpx0 + [v], k)
    {
      if k < n {
        assert Predictor(files, prefix, vpx0, k);
      }
    }
  }

  lemma TargetsExtend(files: map<string, seq<byte>>, prefix: string, vpx1: seq<Ivf>, raw: seq<seq<byte>>,
                      v: Ivf, b: seq<byte>, n: nat)
    requires TargetsRead(files, prefix, vpx1, raw, n)
    requires Load(files, VpxName(prefix, n + 1)) == Ok(v) && LoadBuffer(files, InputName(prefix, n + 1)) == Ok(b)
    ensures TargetsRead(files, prefix, vpx1 + [v], raw + [b], n + 1)
  {
    forall k | 0 <= k < n + 1
      ensures Target(files, prefix, vpx1 + [v], raw + [b], k)
    {
      if k < n {
        assert Target(files, prefix, vpx1, raw, k);
      }
    }
  }

  /** What read_input appended, read back from the whole vector. */
  lemma Appended<T>(front: seq<T>, acc: seq<T>)
    ensures (front + acc)[..|front|] == front && (front + acc)[|front|..] == acc
  {
  }

  // ---------------------------------------------------------------------------
  // decode_all and encode_all

  /** encode_all's tasks: entry k of vpx1 re-encoded from dec[k] with a fresh
      prediction decoder, for k < n. */
  function EncodeSteps(c: Codec, vpx1: seq<Ivf>, dec: seq<State>, raw: seq<seq<byte>>, n: nat)
    : (r: seq<Result<Output, Error>>)
    requires n <= |vpx1| && n <= |dec| && n <= |raw|
    ensures |r| == n && forall k :: 0 <= k < n ==> r[k] == EncChunk(c, vpx1[k], dec[k], None, raw[k])
  {
    seq(n, k requires 0 <= k < n => EncChunk(c, vpx1[k], dec[k], None, raw[k]))
  }

  function EncodeEach(c: Codec, vpx1: seq<Ivf>, dec: seq<State>, raw: seq<seq<byte>>, n: nat)
    : Result<seq<Output>, Error>
    requires n <= |vpx1| && n <= |dec| && n <= |raw|
  {
    Collect(EncodeSteps(c, vpx1, dec, raw, n))
  }

  /** encode_all succeeds exactly when every re-encoding does, and then entry k is
      the re-encoding of entry k of vpx1; otherwise the error is the first one. */
  lemma EncodeEachOk(c: Codec, vpx1: seq<Ivf>, dec: seq<State>, raw: seq<seq<byte>>, n: nat)
    requires n <= |vpx1| && n <= |dec| && n <= |raw|
    ensures EncodeEach(c, vpx1, dec, raw, n).Ok? <==>
      forall k :: 0 <= k < n ==> EncChunk(c, vpx1[k], dec[k], None, raw[k]).Ok?
    ensures EncodeEach(c, vpx1, dec, raw, n).Ok? ==>
      |EncodeEach(c, vpx1, dec, raw, n).value| == n
      && forall k :: 0 <= k < n ==>
           EncChunk(c, vpx1[k], dec[k], None, raw[k]) == Ok(EncodeEach(c, vpx1, dec, raw, n).value[k])
    ensures EncodeEach(c, vpx1, dec, raw, n).Err? ==>
      exists k :: 0 <= k < n && EncChunk(c, vpx1[k], dec[k], None, raw[k]) == Err(EncodeEach(c, vpx1, dec, raw, n).error)
        && forall j :: 0 <= j < k ==> EncChunk(c, vpx1[j], dec[j], None, raw[j]).Ok?
  {
    CollectOk(EncodeSteps(c, vpx1, dec, raw, n));
  }

  // ---------------------------------------------------------------------------
  // the rebase chain

  /** Step k (from 0) of the rebase, which the source numbers i = k + 1: xc[k] is
      encoded again from states[k], with dec[k] as the prediction state, giving
      rebased[k] and states[k + 1]; final[k + 1] is final[k] merged with
      rebased[k]. */
  predicate RebasedAt(c: Codec, xc: seq<Ivf>, dec: seq<State>, raw: seq<seq<byte>>,
                      final: seq<Ivf>, states: seq<State>, rebased: seq<Ivf>, k: nat)
    requires k < |xc| && k < |dec| && k < |raw| && k + 1 < |final| && k + 1 < |states| && k < |rebased|
  {
    && EncChunk(c, xc[k], states[k], Some(dec[k]), raw[k]) == Ok(Output(rebased[k], states[k + 1]))
    && MergeSpec(final[k], rebased[k]) == Ok(final[k + 1])
  }

  /** Steps 0..n-1 of the rebase. */
  ghost predicate Rebased(c: Codec, xc: seq<Ivf>, dec: seq<State>, raw: seq<seq<byte>>,
                          final: seq<Ivf>, states: seq<State>, rebased: seq<Ivf>, n: nat)
  {
    && n <= |xc| && n <= |dec| && n <= |raw| && n < |final| && n < |states| && n <= |rebased|
    && forall k :: 0 <= k < n ==> RebasedAt(c, xc, dec, raw, final, states, rebased, k)
  }

  /** Step k of the rebase throws: in the re-encoding or in the merge. */
  predicate StepFails(c: Codec, xc: seq<Ivf>, dec: seq<State>, raw: seq<seq<byte>>,
                      final: seq<Ivf>, states: seq<State>, k: nat)
    requires k < |xc| && k < |dec| && k < |raw| && k < |final| && k < |states|
  {
    var o := EncChunk(c, xc[k], states[k], Some(dec[k]), raw[k]);
    o.Err? || MergeSpec(final[k], o.value.ivf).Err?
  }

  /** Step k of the rebase throws e: the re-encoding fails with e, or it succeeds and
      the merge fails with e. */
  predicate StepFailsWith(c: Codec, xc: seq<Ivf>, dec: seq<State>, raw: seq<seq<byte>>,
                          final: seq<Ivf>, states: seq<State>, k: nat, e: Error)
    requires k < |xc| && k < |dec| && k < |raw| && k < |final| && k < |states|
  {
    var o := EncChunk(c, xc[k], states[k], Some(dec[k]), raw[k]);
    o == Err(e) || (o.Ok? && MergeSpec(final[k], o.value.ivf) == Err(e))
  }

  /** The rebase has thrown e at step |rebased|, after taking every step before it. */
  ghost predicate RebaseStopped(c: Codec, xc: seq<Ivf>, dec: seq<State>, raw: seq<seq<byte>>,
                                final: seq<Ivf>, states: seq<State>, rebased: seq<Ivf>, e: Error)
  {
    && |rebased| < Min(Min(|xc|, |dec|), |raw|)
    && |final| == |rebased| + 1 && |states| >= |rebased| + 1
    && Rebased(c, xc, dec, raw, final, states, rebased, |rebased|)
    && StepFailsWith(c, xc, dec, raw, final, states, |rebased|, e)
  }

  lemma RebasedExtend(c: Codec, xc: seq<Ivf>, dec: seq<State>, raw: seq<seq<byte>>,
                      final: seq<Ivf>, states: seq<State>, rebased: seq<Ivf>, o: Output, m: Ivf, n: nat)
    requires Rebased(c, xc, dec, raw, final, states, rebased, n)
    requires |final| == n + 1 && |states| == n + 1 && |rebased| == n && n < |xc| && n < |dec| && n < |raw|
    requires EncChunk(c, xc[n], states[n], Some(dec[n]), raw[n]) == Ok(o) && MergeSpec(final[n], o.ivf) == Ok(m)
    ensures Rebased(c, xc, dec, raw, final + [m], states + [o.state], rebased + [o.ivf], n + 1)
  {
    forall k | 0 <= k < n + 1
      ensures RebasedAt(c, xc, dec, raw, final + [m], states + [o.state], rebased + [o.ivf], k)
    {
      if k < n {
        assert RebasedAt(c, xc, dec, raw, final, states, rebased, k);
      }
    }
  }

  /** The last output of the chain holds the frames of final[0] followed by the
      frames of every rebased chunk, in chunk order, and the frame counts add up. */
  lemma RebaseFinalFrames(c: Codec, xc: seq<Ivf>, dec: seq<State>, raw: seq<seq<byte>>,
                          final: seq<Ivf>, states: seq<State>, rebased: seq<Ivf>, n: nat)
    requires Rebased(c, xc, dec, raw, final, states, rebased, n)
    requires 1 <= n && |final| == n + 1 && |rebased| == n
    requires final[0].frameCount as nat + TotalCount(rebased) < Two32
    ensures Frames(final[0]).Ok? && ConcatFrames(rebased).Ok?
    ensures Frames(final[n]) == Ok(Frames(final[0]).value + ConcatFrames(rebased).value)
    ensures final[n].frameCount as nat == final[0].frameCount as nat + TotalCount(rebased)
  {
    var vs := [final[0]] + rebased;
    assert vs[1..] == rebased;
    forall i | 1 <= i < |final|
      ensures MergeSpec(final[i - 1], vs[i]) == Ok(final[i])
    {
      assert RebasedAt(c, xc, dec, raw, final, states, rebased, i - 1);
    }
    MergeStepsFrames(final, vs);
  }

  /** After a successful encode_all no re-encoding of the rebase can fail: the
      container re-encoded from dec[k] is replayed with dec[k] as its prediction
      state, and the codec's frames fit. */
  lemma RebaseEncodesSucceed(c: Codec, vpx1: seq<Ivf>, dec: seq<State>, raw: seq<seq<byte>>, n: nat)
    requires Bounded(c)
    requires n <= |vpx1| && n <= |dec| && n <= |raw|
    requires EncodeEach(c, vpx1, dec, raw, n).Ok?
    ensures |EncodeEach(c, vpx1, dec, raw, n).value| == n
    ensures forall k :: 0 <= k < n ==>
      AcceptsAnyState(c, EncodeEach(c, vpx1, dec, raw, n).value[k].ivf, dec[k], raw[k])
  {
    var outs := EncodeEach(c, vpx1, dec, raw, n).value;
    EncodeEachOk(c, vpx1, dec, raw, n);
    forall k | 0 <= k < n
      ensures AcceptsAnyState(c, outs[k].ivf, dec[k], raw[k])
    {
      assert EncChunk(c, vpx1[k], dec[k], None, raw[k]) == Ok(outs[k]);
      EncChunkChains(c, vpx1[k], dec[k], raw[k]);
    }
  }

  /** So after a successful encode_all a failing rebase step fails in its merge. */
  lemma RebaseFailsInMerge(c: Codec, vpx1: seq<Ivf>, dec: seq<State>, raw: seq<seq<byte>>,
                           final: seq<Ivf>, states: seq<State>, n: nat, k: nat)
    requires Bounded(c)
    requires k < n && n <= |vpx1| && n <= |dec| && n <= |raw| && k < |final| && k < |states|
    requires EncodeEach(c, vpx1, dec, raw, n).Ok?
    requires StepFails(c, Ivfs(EncodeEach(c, vpx1, dec, raw, n).value), dec, raw, final, states, k)
    ensures var o := EncChunk(c, EncodeEach(c, vpx1, dec, raw, n).value[k].ivf, states[k], Some(dec[k]), raw[k]);
      o.Ok? && MergeSpec(final[k], o.value.ivf).Err?
  {
    RebaseEncodesSucceed(c, vpx1, dec, raw, n);
    var outs := EncodeEach(c, vpx1, dec, raw, n).value;
    assert AcceptsAnyState(c, outs[k].ivf, dec[k], raw[k]);
    assert Ivfs(outs)[k] == outs[k].ivf;
  }

  /** main: the prefix is the last argument, a slash, the one before it and "01_". */
  function MainPrefix(args: seq<string>): string
    requires |args| >= 2
  {
    args[|args| - 1] + "/" + args[|args| - 2] + "01_"
  }

  lemma MainPrefixExample()
    ensures MainPrefix(["xc_qs", "sintel", "/data"]) == "/data/sintel01_"
  {
  }

  function Min(a: nat, b: nat): nat { if a < b then a else b }

  // ---------------------------------------------------------------------------
  // the program

  /** The xc_t state object. */
  class Qs {
    var vpx0: seq<Ivf>
    var vpx1: seq<Ivf>
    var xcIvf: seq<Ivf>
    var decState: seq<State>
    var encState: seq<State>
    var rasterBuffer: seq<seq<byte>>
    var final: seq<Ivf>
    var decStateVec: seq<State>
    var rebasedState: seq<State>
    var ivf0: Ivf
    var state0: State

    /** do_work's set-up: every vector empty (the sharded vectors are created with
        a size hint only). */
    constructor ()
      ensures vpx0 == [] && vpx1 == [] && xcIvf == [] && decState == [] && encState == []
      ensures rasterBuffer == [] && final == [] && decStateVec == [] && rebasedState == []
      ensures ivf0 == Default && state0 == []
    {
      vpx0, vpx1, xcIvf := [], [], [];
      decState, encState := [], [];
      rasterBuffer := [];
      final := [];
      decStateVec, rebasedState := [], [];
      ivf0 := Default;
      state0 := [];
    }

    /** read_input: N iterations over the chunk files, appending to the vectors; it
        fails exactly when some chunk's files cannot be read. */
    method ReadInput(files: map<string, seq<byte>>, prefix: string) returns (failure: Option<Error>)
      modifies this
      ensures xcIvf == old(xcIvf) && decState == old(decState) && encState == old(encState)
      ensures final == old(final) && decStateVec == old(decStateVec) && rebasedState == old(rebasedState)
      ensures state0 == old(state0)
      ensures failure.None? <==> forall i :: 0 <= i < N ==> Readable(files, prefix, i)
      ensures failure.Some? ==> ReadFailed(files, prefix, failure.value)
      ensures failure.None? ==>
        && |vpx0| >= |old(vpx0)| && |vpx1| >= |old(vpx1)| && |rasterBuffer| >= |old(rasterBuffer)|
        && vpx0[..|old(vpx0)|] == old(vpx0) && vpx1[..|old(vpx1)|] == old(vpx1)
        && rasterBuffer[..|old(rasterBuffer)|] == old(rasterBuffer)
        && InputRead(files, prefix, vpx0[|old(vpx0)|..], vpx1[|old(vpx1)|..],
                     rasterBuffer[|old(rasterBuffer)|..], ivf0)
      ensures failure.Some? ==>
        vpx0 == old(vpx0) && vpx1 == old(vpx1) && rasterBuffer == old(rasterBuffer) && ivf0 == old(ivf0)
    {
      var acc0, acc1, accRaw, first := ReadChunks(files, prefix);
      if acc0.Err? {
        return Some(acc0.error);
      }
      Appended(vpx0, acc0.value);
      Appended(vpx1, acc1);
      Appended(rasterBuffer, accRaw);
      vpx0, vpx1, rasterBuffer, ivf0 := vpx0 + acc0.value, vpx1 + acc1, rasterBuffer + accRaw, first;
      return None;
    }

    /** read_input's loop on its own: what it reads, or the first error. */
    static method ReadChunks(files: map<string, seq<byte>>, prefix: string)
      returns (r: Result<seq<Ivf>, Error>, acc1: seq<Ivf>, accRaw: seq<seq<byte>>, first: Ivf)
      ensures r.Ok? <==> forall i :: 0 <= i < N ==> Readable(files, prefix, i)
      ensures r.Err? ==> ReadFailed(files, prefix, r.error)
      ensures r.Ok? ==> InputRead(files, prefix, r.value, acc1, accRaw, first)
    {
      var acc0: seq<Ivf> := [];
      acc1, accRaw, first := [], [], Default;
      var i := 0;
      while i < N
        invariant i <= N
        invariant PredictorsRead(files, prefix, acc0, if i == N then N - 1 else i)
        invariant TargetsRead(files, prefix, acc1, accRaw, if i == 0 then 0 else i - 1)
        invariant i > 0 ==> Load(files, VpxName(prefix, 0)) == Ok(first)
        invariant forall j :: 0 <= j < i ==> Readable(files, prefix, j)
      {
        var vpxFile := VpxName(prefix, i);
        if i != N - 1 {
          var v := IvfMem.LoadFile(files, vpxFile);
          if v.Err? {
            assert ReadError(files, prefix, i) == Some(v.error);
            return Err(v.error), acc1, accRaw, first;
          }
          PredictorsExtend(files, prefix, acc0, v.value, i);
          acc0 := acc0 + [v.value];
        }
        if i != 0 {
          var v := IvfMem.LoadFile(files, vpxFile);
          if v.Err? {
            assert ReadError(files, prefix, i) == Some(v.error);
            return Err(v.error), acc1, accRaw, first;
          }
          var inputFile := InputName(prefix, i);
          if inputFile !in files {
            assert ReadError(files, prefix, i) == Some(NoFile(inputFile));
            return Err(NoFile(inputFile)), acc1, accRaw, first;
          }
          TargetsExtend(files, prefix, acc1, accRaw, v.value, files[inputFile], i - 1);
          acc1 := acc1 + [v.value];
          accRaw := accRaw + [files[inputFile]];
        } else {
          // chunk 0 is not the last chunk, so its container has just loaded
          var v := IvfMem.LoadFile(files, vpxFile);
          if v.Err? {
            assert false;
          }
          first := v.value;
        }
        assert Readable(files, prefix, i);
        assert forall j :: 0 <= j < i + 1 ==> Readable(files, prefix, j);
        i := i + 1;
      }
      r := Ok(acc0);
    }

    /** decode_all: every prediction container decoded; state0 is the first state,
        and the first N-1 states go to dec_state and dec_state_vec, in order. */
    method DecodeAll(c: Codec) returns (failure: Option<Error>)
      requires |vpx0| >= N - 1
      modifies this
      ensures vpx0 == old(vpx0) && vpx1 == old(vpx1) && xcIvf == old(xcIvf) && encState == old(encState)
      ensures rasterBuffer == old(rasterBuffer) && final == old(final) && rebasedState == old(rebasedState)
      ensures ivf0 == old(ivf0)
      ensures failure.None? <==> DecodeEach(c, vpx0).Ok?
      ensures failure.None? ==>
        && |DecodeEach(c, vpx0).value| == |vpx0|
        && state0 == DecodeEach(c, vpx0).value[0]
        && decState == old(decState) + DecodeEach(c, vpx0).value[..N - 1]
        && decStateVec == old(decStateVec) + DecodeEach(c, vpx0).value[..N - 1]
      ensures failure.Some? ==>
        && DecodeEach(c, vpx0) == Err(failure.value)
        && state0 == old(state0) && decState == old(decState) && decStateVec == old(decStateVec)
    {
      var r := DecodeTasks(c, vpx0);
      if r.Err? {
        return Some(r.error);
      }
      DecodeEachOk(c, vpx0);
      var outs := r.value;
      state0 := outs[0];
      var states := PushStates(outs, N - 1);
      decState := decState + states;
      decStateVec := decStateVec + states;
      return None;
    }

    /** decode_all's pushes: the first n states, in order. */
    static method PushStates(outs: seq<State>, n: nat) returns (states: seq<State>)
      requires n <= |outs|
      ensures states == outs[..n]
    {
      states := [];
      var k := 0;
      while k < n
        invariant k <= n && states == outs[..k]
      {
        assert outs[..k + 1] == outs[..k] + [outs[k]];
        states := states + [outs[k]];
        k := k + 1;
      }
    }

    /** encode_all's distributed lambda over the zipped range: the first n entries
        of vpx1, dec_state and the raw buffers, re-encoded in order. */
    static method EncodeTasks(c: Codec, vpx1: seq<Ivf>, dec: seq<State>, raw: seq<seq<byte>>, n: nat)
      returns (r: Result<seq<Output>, Error>)
      requires n <= |vpx1| && n <= |dec| && n <= |raw|
      ensures r == EncodeEach(c, vpx1, dec, raw, n)
    {
      ghost var rs := EncodeSteps(c, vpx1, dec, raw, n);
      var outs: seq<Output> := [];
      var i := 0;
      while i < n
        invariant i <= n
        invariant Collect(rs[..i]) == Ok(outs)
      {
        var o := EncodeChunk(c, vpx1[i], dec[i], None, raw[i]);
        CollectSnoc(rs, i, outs);
        if o.Err? {
          return Err(o.error);
        }
        outs := outs + [o.value];
        i := i + 1;
      }
      assert rs[..n] == rs;
      return Ok(outs);
    }

    /** encode_all: N-1 chunks re-encoded, entry k of vpx1 from dec_state[k]; then
        enc_state gets state0 and the first N-2 new states, and xc_ivf all N-1 new
        containers. */
    method EncodeAll(c: Codec) returns (failure: Option<Error>)
      requires |vpx1| >= N - 1 && |decState| >= N - 1 && |rasterBuffer| >= N - 1
      modifies this
      ensures vpx0 == old(vpx0) && vpx1 == old(vpx1) && decState == old(decState)
      ensures rasterBuffer == old(rasterBuffer) && final == old(final) && decStateVec == old(decStateVec)
      ensures rebasedState == old(rebasedState) && ivf0 == old(ivf0) && state0 == old(state0)
      ensures failure.None? <==> EncodeEach(c, vpx1, decState, rasterBuffer, N - 1).Ok?
      ensures failure.None? ==>
        && |EncodeEach(c, vpx1, decState, rasterBuffer, N - 1).value| == N - 1
        && encState == old(encState) + [state0] + States(EncodeEach(c, vpx1, decState, rasterBuffer, N - 1).value[..N - 2])
        && xcIvf == old(xcIvf) + Ivfs(EncodeEach(c, vpx1, decState, rasterBuffer, N - 1).value)
      ensures failure.Some? ==>
        EncodeEach(c, vpx1, decState, rasterBuffer, N - 1) == Err(failure.value)
        && encState == old(encState) && xcIvf == old(xcIvf)
    {
      ghost var e := EncodeEach(c, vpx1, decState, rasterBuffer, N - 1);
      var ivfs, states;
      failure, ivfs, states := EncodeOutputs(c, vpx1, decState, rasterBuffer);
      if failure.None? {
        encState, xcIvf := encState + [state0] + states, xcIvf + ivfs;
      }
      assert e == EncodeEach(c, vpx1, decState, rasterBuffer, N - 1);
    }

    /** encode_all's tasks and pushes, on values: the containers of all N - 1
        outputs and the states of the first N - 2, or the first failure. */
    static method EncodeOutputs(c: Codec, vpx1: seq<Ivf>, dec: seq<State>, raw: seq<seq<byte>>)
      returns (failure: Option<Error>, ivfs: seq<Ivf>, states: seq<State>)
      requires |vpx1| >= N - 1 && |dec| >= N - 1 && |raw| >= N - 1
      ensures failure.None? <==> EncodeEach(c, vpx1, dec, raw, N - 1).Ok?
      ensures failure.None? ==>
        && |EncodeEach(c, vpx1, dec, raw, N - 1).value| == N - 1
        && states == States(EncodeEach(c, vpx1, dec, raw, N - 1).value[..N - 2])
        && ivfs == Ivfs(EncodeEach(c, vpx1, dec, raw, N - 1).value)
      ensures failure.Some? ==> EncodeEach(c, vpx1, dec, raw, N - 1) == Err(failure.value)
    {
      var r := EncodeTasks(c, vpx1, dec, raw, N - 1);
      if r.Err? {
        return Some(r.error), [], [];
      }
      ivfs, states := PushOutputs(r.value, N - 1);
      failure := None;
    }

    /** encode_all's pushes: the containers of all n outputs, the states of the
        first n - 1. */
    static method PushOutputs(outs: seq<Output>, n: nat) returns (ivfs: seq<Ivf>, states: seq<State>)
      requires |outs| == n >= 1
      ensures ivfs == Ivfs(outs) && states == States(outs[..n - 1])
    {
      ivfs, states := [], [];
      var k := 0;
      while k < n - 1
        invariant k <= n - 1
        invariant ivfs == Ivfs(outs[..k]) && states == States(outs[..k])
      {
        OutputsSnoc(outs, k);
        ivfs := ivfs + [outs[k].ivf];
        states := states + [outs[k].state];
        k := k + 1;
      }
      OutputsSnoc(outs, n - 1);
      assert outs[..n] == outs;
      ivfs := ivfs + [outs[n - 1].ivf];
    }

    /** rebase: seed final_ivf with ivf0 and rebased_state with state0, then step
        while none of xc_ivf, dec_state and the raw buffers is exhausted. On
        success every step has been taken; on failure the steps before the failing
        one have. The rebased containers, which the program does not keep, are
        returned as ghost. */
    method Rebase(c: Codec) returns (failure: Option<Error>, ghost rebased: seq<Ivf>)
      requires final == [] && rebasedState == []
      modifies this
      ensures vpx0 == old(vpx0) && vpx1 == old(vpx1) && xcIvf == old(xcIvf) && decState == old(decState)
      ensures encState == old(encState) && rasterBuffer == old(rasterBuffer) && decStateVec == old(decStateVec)
      ensures ivf0 == old(ivf0) && state0 == old(state0)
      ensures |final| >= 1 && final[0] == ivf0 && |rebasedState| >= 1 && rebasedState[0] == state0
      ensures failure.None? ==>
        var n := Min(Min(|xcIvf|, |decState|), |rasterBuffer|);
        && |final| == n + 1 && |rebasedState| == n + 1 && |rebased| == n
        && Rebased(c, xcIvf, decState, rasterBuffer, final, rebasedState, rebased, n)
      ensures failure.Some? ==>
        && |rebased| < Min(Min(|xcIvf|, |decState|), |rasterBuffer|)
        && |final| == |rebased| + 1 && |rebasedState| >= |rebased| + 1
        && Rebased(c, xcIvf, decState, rasterBuffer, final, rebasedState, rebased, |rebased|)
        && StepFails(c, xcIvf, decState, rasterBuffer, final, rebasedState, |rebased|)
      ensures failure.Some? ==> RebaseStopped(c, xcIvf, decState, rasterBuffer, final, rebasedState, rebased, failure.value)
    {
      failure, final, rebasedState, rebased := RebaseSteps(c, xcIvf, decState, rasterBuffer, ivf0, state0);
    }

    /** decode_all, encode_all and rebase, in do_work's order, once read_input has
        filled the input vectors: on success the state object holds what do_work
        writes out, on failure the error is that of the first stage that throws. */
    method ComputeStages(c: Codec, ghost files: map<string, seq<byte>>, ghost prefix: string)
      returns (failure: Option<Error>, ghost rebased: seq<Ivf>)
      requires InputRead(files, prefix, vpx0, vpx1, rasterBuffer, ivf0)
      requires xcIvf == [] && decState == [] && encState == [] && final == [] && decStateVec == [] && rebasedState == []
      modifies this
      ensures vpx0 == old(vpx0) && vpx1 == old(vpx1) && rasterBuffer == old(rasterBuffer) && ivf0 == old(ivf0)
      ensures failure.None? ==> Computed(c, files, prefix, this, rebased)
      ensures failure.Some? ==>
        StagesFailed(c, vpx0, vpx1, rasterBuffer, decState, xcIvf, final, rebasedState, rebased, failure.value)
    {
      rebased := [];
      ghost var v0, v1, raw, i0 := vpx0, vpx1, rasterBuffer, ivf0;
      failure := DecodeAll(c);
      if failure.Some? {
        return;
      }
      ghost var ds := decState;
      assert ds == DecodeEach(c, v0).value && decStateVec == ds && state0 == ds[0];
      failure := EncodeAll(c);
      if failure.Some? {
        assert DecodeEach(c, vpx0) == Ok(decState);
        return;
      }
      ghost var xc := xcIvf;
      assert xc == Ivfs(EncodeEach(c, v1, ds, raw, N - 1).value);
      assert vpx0 == v0 && vpx1 == v1 && rasterBuffer == raw && ivf0 == i0 && decState == ds;
      failure, rebased := Rebase(c);
      if failure.Some? {
        return;
      }
      assert Rebased(c, xc, ds, raw, final, rebasedState, rebased, N - 1);
    }

    /** write_output: the last output of the chain, as prefix + "final.ivf". */
    method WriteOutput(files: map<string, seq<byte>>, prefix: string) returns (r: map<string, seq<byte>>)
      requires |final| >= N
      ensures r == files[prefix + "final.ivf" := final[N - 1].buffer]
    {
      r := files[prefix + "final.ivf" := final[N - 1].buffer];
    }
  }

  /** rebase's loop on the stage's values: step i re-encodes container i
      from the state rebased step i produced, with the decoder state and
      raster of chunk i, and merges the result onto rebased output i. The
      outputs and states pushed so far are returned also on a throw. */
  method RebaseSteps(c: Codec, xc: seq<Ivf>, dec: seq<State>, raw: seq<seq<byte>>, ivf0: Ivf, state0: State)
    returns (failure: Option<Error>, final: seq<Ivf>, states: seq<State>, ghost rebased: seq<Ivf>)
    ensures |final| >= 1 && final[0] == ivf0 && |states| >= 1 && states[0] == state0
    ensures failure.None? ==>
      var n := Min(Min(|xc|, |dec|), |raw|);
      && |final| == n + 1 && |states| == n + 1 && |rebased| == n
      && Rebased(c, xc, dec, raw, final, states, rebased, n)
    ensures failure.Some? ==>
      && |rebased| < Min(Min(|xc|, |dec|), |raw|)
      && |final| == |rebased| + 1 && |states| >= |rebased| + 1
      && Rebased(c, xc, dec, raw, final, states, rebased, |rebased|)
      && StepFails(c, xc, dec, raw, final, states, |rebased|)
    ensures failure.Some? ==> RebaseStopped(c, xc, dec, raw, final, states, rebased, failure.value)
  {
    final := [ivf0];
    states := [state0];
    rebased := [];
    ghost var n := Min(Min(|xc|, |dec|), |raw|);
    var i := 1;
    while i - 1 < |xc| && i - 1 < |dec| && i - 1 < |raw|
      invariant 1 <= i <= n + 1 && |final| == i && |states| == i && |rebased| == i - 1
      invariant final[0] == ivf0 && states[0] == state0
      invariant Rebased(c, xc, dec, raw, final, states, rebased, i - 1)
      decreases n + 1 - i
    {
      var o := EncodeChunk(c, xc[i - 1], states[i - 1], Some(dec[i - 1]), raw[i - 1]);
      if o.Err? {
        return Some(o.error), final, states, rebased;
      }
      ghost var f, s := final, states;
      states := states + [o.value.state];
      var m := Merge(final[i - 1], o.value.ivf);
      if m.Err? {
        RebasedGrown(c, xc, dec, raw, f, s, rebased, o.value.state, i - 1);
        return Some(m.error), final, states, rebased;
      }
      final := final + [m.value];
      RebasedExtend(c, xc, dec, raw, f, s, rebased, o.value, m.value, i - 1);
      rebased := rebased + [o.value.ivf];
      i := i + 1;
    }
    return None, final, states, rebased;
  }

  /** A state pushed before a merge throws leaves the finished steps as they were. */
  lemma RebasedGrown(c: Codec, xc: seq<Ivf>, dec: seq<State>, raw: seq<seq<byte>>,
                     final: seq<Ivf>, states: seq<State>, rebased: seq<Ivf>, s: State, n: nat)
    requires Rebased(c, xc, dec, raw, final, states, rebased, n) && |states| == n + 1
    ensures Rebased(c, xc, dec, raw, final, states + [s], rebased, n)
  {
    forall k | 0 <= k < n
      ensures RebasedAt(c, xc, dec, raw, final, states + [s], rebased, k)
    {
      assert RebasedAt(c, xc, dec, raw, final, states, rebased, k);
    }
  }

  /** What do_work has computed when it writes the output. */
  ghost predicate Computed(c: Codec, files: map<string, seq<byte>>, prefix: string, s: Qs, rebased: seq<Ivf>)
    reads s
  {
    && InputRead(files, prefix, s.vpx0, s.vpx1, s.rasterBuffer, s.ivf0)
    && DecodeEach(c, s.vpx0) == Ok(s.decState) && s.decStateVec == s.decState && s.state0 == s.decState[0]
    && EncodeEach(c, s.vpx1, s.decState, s.rasterBuffer, N - 1).Ok?
    && s.xcIvf == Ivfs(EncodeEach(c, s.vpx1, s.decState, s.rasterBuffer, N - 1).value)
    && |s.final| == N && |s.rebasedState| == N && |rebased| == N - 1
    && s.final[0] == s.ivf0 && s.rebasedState[0] == s.state0
    && Rebased(c, s.xcIvf, s.decState, s.rasterBuffer, s.final, s.rebasedState, rebased, N - 1)
  }

  /** Where the compute stages stop when one throws e, given what they left in the
      state object: the first stage that fails, after every earlier stage has
      succeeded. */
  ghost predicate StagesFailed(c: Codec, vpx0: seq<Ivf>, vpx1: seq<Ivf>, raw: seq<seq<byte>>, dec: seq<State>,
                               xc: seq<Ivf>, final: seq<Ivf>, states: seq<State>, rebased: seq<Ivf>, e: Error)
  {
    || DecodeEach(c, vpx0) == Err(e)
    || (&& DecodeEach(c, vpx0) == Ok(dec)
        && N - 1 <= |vpx1| && N - 1 <= |dec| && N - 1 <= |raw|
        && (|| EncodeEach(c, vpx1, dec, raw, N - 1) == Err(e)
            || (&& EncodeEach(c, vpx1, dec, raw, N - 1).Ok?
                && xc == Ivfs(EncodeEach(c, vpx1, dec, raw, N - 1).value)
                && RebaseStopped(c, xc, dec, raw, final, states, rebased, e))))
  }

  /** Where do_work stops when a stage throws e: read_input fails, or the input is
      read and a compute stage fails. */
  ghost predicate WorkFailed(c: Codec, files: map<string, seq<byte>>, prefix: string, s: Qs, rebased: seq<Ivf>,
                             e: Error)
    reads s
  {
    || ReadFailed(files, prefix, e)
    || (&& InputRead(files, prefix, s.vpx0, s.vpx1, s.rasterBuffer, s.ivf0)
        && StagesFailed(c, s.vpx0, s.vpx1, s.rasterBuffer, s.decState, s.xcIvf, s.final, s.rebasedState, rebased, e))
  }

  /** The output do_work writes holds the frames of chunk 0's container followed by
      those of the rebased chunks 1..N-1, in order. */
  lemma OutputFrames(c: Codec, files: map<string, seq<byte>>, prefix: string, s: Qs, rebased: seq<Ivf>)
    requires Computed(c, files, prefix, s, rebased)
    requires s.ivf0.frameCount as nat + TotalCount(rebased) < Two32
    ensures Frames(s.ivf0).Ok? && ConcatFrames(rebased).Ok?
    ensures Frames(s.final[N - 1]) == Ok(Frames(s.ivf0).value + ConcatFrames(rebased).value)
  {
    RebaseFinalFrames(c, s.xcIvf, s.decState, s.rasterBuffer, s.final, s.rebasedState, rebased, N - 1);
  }

  /** do_work: read, decode, encode, rebase and write final_ivf[N-1]. */
  method DoWork(c: Codec, files: map<string, seq<byte>>, prefix: string)
    returns (s: Qs, r: Result<map<string, seq<byte>>, Error>, ghost rebased: seq<Ivf>)
    ensures fresh(s)
    ensures r.Ok? ==>
      Computed(c, files, prefix, s, rebased) && r.value == files[prefix + "final.ivf" := s.final[N - 1].buffer]
    ensures r.Err? ==> WorkFailed(c, files, prefix, s, rebased, r.error)
  {
    s := new Qs();
    rebased := [];
    var failure := s.ReadInput(files, prefix);
    if failure.Some? {
      return s, Err(failure.value), rebased;
    }
    assert s.vpx0[0..] == s.vpx0 && s.vpx1[0..] == s.vpx1 && s.rasterBuffer[0..] == s.rasterBuffer;
    failure, rebased := s.ComputeStages(c, files, prefix);
    if failure.Some? {
      return s, Err(failure.value), rebased;
    }
    var out := s.WriteOutput(files, prefix);
    return s, Ok(out), rebased;
  }
}
