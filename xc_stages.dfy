/** The stage code xc_qs and xc_eval share: decode_all's distributed lambda,
    which decodes every container of a sharded vector, and read_raster followed by
    enc_given_state. The executor's tasks are modelled as one loop in index order. */
module XcStages {
  import opened Bytes
  import opened Wrappers
  import opened Ivf
  import opened Excamera

  /** BufferReader(path): the whole file; a file that cannot be opened reports no
      size, and reserving a buffer for it throws. */
  function LoadBuffer(files: map<string, seq<byte>>, name: string): Result<seq<byte>, Error>
  {
    if name in files then Ok(files[name]) else Err(NoFile(name))
  }

  /** read_raster, then enc_given_state: the rasters and the display size come from
      the chunk's raw buffer. */
  function EncChunk(c: Codec, pred: Ivf, input: State, prev: Option<State>, raw: seq<byte>): Result<Output, Error>
  {
    var y := c.readY4m(raw);
    EncGivenStateSpec(c, input, prev, pred, y.rasters, y.width, y.height)
  }

  /** decode_all's tasks, one per container. */
  function DecodeSteps(c: Codec, vpx: seq<Ivf>): (r: seq<Result<State, Error>>)
    ensures |r| == |vpx| && forall i :: 0 <= i < |vpx| ==> r[i] == DecodeSpec(c, vpx[i])
  {
    seq(|vpx|, i requires 0 <= i < |vpx| => DecodeSpec(c, vpx[i]))
  }

  /** Every container decoded in order; the first failure is the result. */
  function DecodeEach(c: Codec, vpx: seq<Ivf>): Result<seq<State>, Error>
  {
    Collect(DecodeSteps(c, vpx))
  }

  /** Decoding succeeds exactly when every container decodes, and then entry i is
      the state of container i; otherwise the error is that of the first container
      that fails. */
  lemma DecodeEachOk(c: Codec, vpx: seq<Ivf>)
    ensures DecodeEach(c, vpx).Ok? <==> forall i :: 0 <= i < |vpx| ==> DecodeSpec(c, vpx[i]).Ok?
    ensures DecodeEach(c, vpx).Ok? ==>
      |DecodeEach(c, vpx).value| == |vpx|
      && forall i :: 0 <= i < |vpx| ==> DecodeSpec(c, vpx[i]) == Ok(DecodeEach(c, vpx).value[i])
    ensures DecodeEach(c, vpx).Err? ==>
      exists i :: 0 <= i < |vpx| && DecodeSpec(c, vpx[i]) == Err(DecodeEach(c, vpx).error)
        && forall j :: 0 <= j < i ==> DecodeSpec(c, vpx[j]).Ok?
  {
    CollectOk(DecodeSteps(c, vpx));
  }

  /** The containers and the states of a list of outputs. */
  function Ivfs(outs: seq<Output>): (r: seq<Ivf>)
    ensures |r| == |outs| && forall k :: 0 <= k < |outs| ==> r[k] == outs[k].ivf
  {
    seq(|outs|, k requires 0 <= k < |outs| => outs[k].ivf)
  }

  function States(outs: seq<Output>): (r: seq<State>)
    ensures |r| == |outs| && forall k :: 0 <= k < |outs| ==> r[k] == outs[k].state
  {
    seq(|outs|, k requires 0 <= k < |outs| => outs[k].state)
  }

  lemma OutputsSnoc(outs: seq<Output>, k: nat)
    requires k < |outs|
    ensures Ivfs(outs[..k + 1]) == Ivfs(outs[..k]) + [outs[k].ivf]
    ensures States(outs[..k + 1]) == States(outs[..k]) + [outs[k].state]
  {
    assert Ivfs(outs[..k + 1]) == Ivfs(outs[..k]) + [outs[k].ivf];
    assert States(outs[..k + 1]) == States(outs[..k]) + [outs[k].state];
  }

  lemma IvfsAppend(a: seq<Output>, b: seq<Output>)
    ensures Ivfs(a + b) == Ivfs(a) + Ivfs(b) && States(a + b) == States(a) + States(b)
  {
    assert Ivfs(a + b) == Ivfs(a) + Ivfs(b);
    assert States(a + b) == States(a) + States(b);
  }

  /** A container is accepted by enc_given_state with the given raw buffer and
      prediction state, whatever the input state. */
  ghost predicate AcceptsAnyState(c: Codec, pred: Ivf, predState: State, raw: seq<byte>)
  {
    forall input :: EncChunk(c, pred, input, Some(predState), raw).Ok?
  }

  /** A container re-encoded from state s with a fresh prediction decoder is
      accepted again with s as its prediction state, from any input state. */
  lemma EncChunkChains(c: Codec, pred: Ivf, s: State, raw: seq<byte>)
    requires Bounded(c) && EncChunk(c, pred, s, None, raw).Ok?
    ensures AcceptsAnyState(c, EncChunk(c, pred, s, None, raw).value.ivf, s, raw)
  {
    var y := c.readY4m(raw);
    ChainsFromAnyInput(c, s, None, pred, y.rasters, y.width, y.height);
    assert AcceptsAnyInput(c, s, EncChunk(c, pred, s, None, raw).value.ivf, y.rasters, y.width, y.height);
  }

  /** decode_all's distributed lambda: the containers popped and decoded in order. */
  method DecodeTasks(c: Codec, vpx: seq<Ivf>) returns (r: Result<seq<State>, Error>)
    ensures r == DecodeEach(c, vpx)
  {
    ghost var rs := DecodeSteps(c, vpx);
    var outs: seq<State> := [];
    var i := 0;
    while i < |vpx|
      invariant i <= |vpx|
      invariant Collect(rs[..i]) == Ok(outs)
    {
      var d := Decode(c, vpx[i]);
      CollectSnoc(rs, i, outs);
      if d.Err? {
        return Err(d.error);
      }
      outs := outs + [d.value];
      i := i + 1;
    }
    assert rs[..|vpx|] == rs;
    return Ok(outs);
  }

  /** read_raster and enc_given_state on one chunk. */
  method EncodeChunk(c: Codec, pred: Ivf, input: State, prev: Option<State>, raw: seq<byte>)
    returns (r: Result<Output, Error>)
    ensures r == EncChunk(c, pred, input, prev, raw)
  {
    var y := c.readY4m(raw);
    r := EncGivenState(c, input, prev, pred, y.rasters, y.width, y.height);
  }
}
