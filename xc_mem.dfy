/** The in-memory ExCamera pipeline (xc_mem): N chunks held in N-sized vectors of
    one state object; a decode stage, two parallel encode passes, a serial rebase
    with an incremental merge, and the final container as output. The threads of a
    stage run independent tasks that each write one slot; they are modelled as a loop
    over the slots in index order. */
module XcMem {
  import opened Bytes
  import opened Wrappers
  import opened Ivf
  import opened Excamera
  import opened Names

  const N: nat := 16

  /** The xc_t state object. */
  class Xc {
    var vpx: seq<Ivf>
    var xc0: seq<Ivf>
    var xc1: seq<Ivf>
    var rebased: seq<Ivf>
    var final: seq<Ivf>
    var dec: seq<State>
    var enc0: seq<State>
    var enc1: seq<State>
    var rebasedState: seq<State>
    var rasters: seq<seq<Raster>>
    var width: u16
    var height: u16

    /** Every vector has been resized to N. */
    predicate Valid()
      reads this
    {
      && |vpx| == N && |xc0| == N && |xc1| == N && |rebased| == N && |final| == N
      && |dec| == N && |enc0| == N && |enc1| == N && |rebasedState| == N
    }

    /** The inputs have been read: one raster list per chunk. */
    predicate Loaded()
      reads this
    {
      Valid() && |rasters| == N
    }

    /** do_work's set-up: every vector resized to N default elements; no rasters yet. */
    constructor ()
      ensures Valid() && rasters == []
      ensures forall i :: 0 <= i < N ==> vpx[i] == Default && xc0[i] == Default && xc1[i] == Default
      ensures forall i :: 0 <= i < N ==> rebased[i] == Default && final[i] == Default
      ensures forall i :: 0 <= i < N ==> dec[i] == [] && enc0[i] == [] && enc1[i] == [] && rebasedState[i] == []
    {
      vpx := seq(N, _ => Default);
      xc0 := seq(N, _ => Default);
      xc1 := seq(N, _ => Default);
      rebased := seq(N, _ => Default);
      final := seq(N, _ => Default);
      dec := seq(N, _ => []);
      enc0 := seq(N, _ => []);
      enc1 := seq(N, _ => []);
      rebasedState := seq(N, _ => []);
      rasters := [];
      width := 0;
      height := 0;
    }

    /** One iteration of read_input: the raw chunk i and its VP8 file. */
    static method ReadChunk(c: Codec, files: map<string, seq<byte>>, prefix: string, i: nat)
      returns (r: Result<(Y4m, Ivf), Error>)
      ensures r.Ok? <==>
        InputName(prefix, i) in files && VpxName(prefix, i) in files && Parse(files[VpxName(prefix, i)]).Ok?
      ensures r.Ok? ==>
        r.value.0 == c.readY4m(files[InputName(prefix, i)]) && Parse(files[VpxName(prefix, i)]) == Ok(r.value.1)
      ensures r.Ok? ==> ChunkError(files, prefix, i).None?
      ensures r.Err? ==> ChunkError(files, prefix, i) == Some(r.error)
    {
      var inputFile := InputName(prefix, i);
      if inputFile !in files {
        return Err(NoFile(inputFile));
      }
      var input := c.readY4m(files[inputFile]);
      var vpxFile := VpxName(prefix, i);
      var ivf := IvfMem.LoadFile(files, vpxFile);
      if ivf.Err? {
        return Err(ivf.error);
      }
      return Ok((input, ivf.value));
    }

    /** What read_input leaves: the display size of chunk 0, and for each chunk the
        rasters of its raw file and the container parsed from its VP8 file. */
    ghost predicate InputRead(c: Codec, files: map<string, seq<byte>>, prefix: string)
      reads this
      requires Loaded()
    {
      && SizeRead(c, files, prefix, width, height)
      && forall i :: 0 <= i < N ==> ChunkRead(c, files, prefix, rasters, vpx, i)
    }

    /** read_input. */
    method ReadInput(c: Codec, files: map<string, seq<byte>>, prefix: string) returns (failure: Option<Error>)
      requires Valid() && rasters == []
      modifies this
      ensures Valid()
      ensures xc0 == old(xc0) && xc1 == old(xc1) && rebased == old(rebased) && final == old(final)
      ensures dec == old(dec) && enc0 == old(enc0) && enc1 == old(enc1) && rebasedState == old(rebasedState)
      ensures failure.None? ==> Loaded() && InputRead(c, files, prefix)
      ensures failure.Some? ==> exists i :: (0 <= i < N &&
        (InputName(prefix, i) !in files || VpxName(prefix, i) !in files || Parse(files[VpxName(prefix, i)]).Err?))
      ensures failure.Some? ==> ReadFailed(files, prefix, failure.value)
    {
      var i := 0;
      var all: seq<seq<Raster>> := [];
      var parsed := vpx;
      var w, h := width, height;
      while i < N
        invariant 0 <= i <= N && |all| == i && |parsed| == N
        modifies {}
        invariant i > 0 ==> SizeRead(c, files, prefix, w, h)
        invariant forall j :: 0 <= j < i ==> ChunkRead(c, files, prefix, all, parsed, j)
      {
        var chunk := ReadChunk(c, files, prefix, i);
        if chunk.Err? {
          ReadStops(c, files, prefix, all, parsed, i, chunk.error);
          return Some(chunk.error);
        }
        var (input, ivf) := chunk.value;
        if i == 0 {
          w, h := input.width, input.height;
        }
        ChunkReadExtend(c, files, prefix, all, parsed, all + [input.rasters], parsed[i := ivf], i);
        all := all + [input.rasters];
        parsed := parsed[i := ivf];
        i := i + 1;
      }
      rasters, vpx, width, height := all, parsed, w, h;
      return None;
    }

    /** One decode task: decode chunk i into dec[i]. */
    method DecodeTask(c: Codec, i: nat) returns (failure: Option<Error>)
      requires Valid() && i < N
      modifies this
      ensures Valid()
      ensures vpx == old(vpx) && xc0 == old(xc0) && xc1 == old(xc1) && rebased == old(rebased) && final == old(final)
      ensures enc0 == old(enc0) && enc1 == old(enc1) && rebasedState == old(rebasedState)
      ensures rasters == old(rasters) && width == old(width) && height == old(height)
      ensures failure.None? ==> DecodeSpec(c, vpx[i]) == Ok(dec[i]) && dec == old(dec)[i := dec[i]]
      ensures failure.Some? ==> DecodeSpec(c, vpx[i]) == Err(failure.value) && dec == old(dec)
    {
      var r := Decode(c, vpx[i]);
      if r.Err? {
        return Some(r.error);
      }
      dec := dec[i := r.value];
      return None;
    }

    /** decode_all: every chunk decoded, each into its own slot. */
    method DecodeAll(c: Codec) returns (failure: Option<Error>)
      requires Valid()
      modifies this
      ensures Valid()
      ensures vpx == old(vpx) && xc0 == old(xc0) && xc1 == old(xc1) && rebased == old(rebased) && final == old(final)
      ensures enc0 == old(enc0) && enc1 == old(enc1) && rebasedState == old(rebasedState)
      ensures rasters == old(rasters) && width == old(width) && height == old(height)
      ensures failure.None? ==> Decoded(c)
      ensures failure.Some? ==> DecodeFailed(c, failure.value)
    {
      var i := 0;
      while i < N
        invariant 0 <= i <= N && Valid()
        invariant vpx == old(vpx) && xc0 == old(xc0) && xc1 == old(xc1) && rebased == old(rebased) && final == old(final)
        invariant enc0 == old(enc0) && enc1 == old(enc1) && rebasedState == old(rebasedState)
        invariant rasters == old(rasters) && width == old(width) && height == old(height)
        invariant forall j :: 0 <= j < i ==> DecodeSpec(c, vpx[j]) == Ok(dec[j])
      {
        failure := DecodeTask(c, i);
        if failure.Some? {
          return;
        }
        i := i + 1;
      }
      return None;
    }

    /** One first-pass task: re-encode chunk i from the decoded state of chunk i-1,
        with the original chunk i as prediction; it writes xc0[i] and enc0[i] only. */
    method FirstPassTask(c: Codec, i: nat) returns (failure: Option<Error>)
      requires Loaded() && 1 <= i < N
      modifies this
      ensures Loaded()
      ensures vpx == old(vpx) && xc1 == old(xc1) && rebased == old(rebased) && final == old(final)
      ensures dec == old(dec) && enc1 == old(enc1) && rebasedState == old(rebasedState)
      ensures rasters == old(rasters) && width == old(width) && height == old(height)
      ensures var r := EncGivenStateSpec(c, dec[i - 1], None, vpx[i], rasters[i], width, height);
        && (failure.None? ==> (r == Ok(Output(xc0[i], enc0[i]))
              && xc0 == old(xc0)[i := xc0[i]] && enc0 == old(enc0)[i := enc0[i]]))
        && (failure.Some? ==> r == Err(failure.value) && xc0 == old(xc0) && enc0 == old(enc0))
    {
      var r := EncGivenState(c, dec[i - 1], None, vpx[i], rasters[i], width, height);
      if r.Err? {
        return Some(r.error);
      }
      xc0 := xc0[i := r.value.ivf];
      enc0 := enc0[i := r.value.state];
      return None;
    }

    /** One second-pass task: re-encode chunk i from the first-pass state of chunk
        i-1, with the first-pass output of chunk i as prediction, replayed from the
        decoded state of chunk i-1; it writes xc1[i] and enc1[i] only. */
    method SecondPassTask(c: Codec, i: nat) returns (failure: Option<Error>)
      requires Loaded() && 1 <= i < N
      modifies this
      ensures Loaded()
      ensures vpx == old(vpx) && xc0 == old(xc0) && rebased == old(rebased) && final == old(final)
      ensures dec == old(dec) && enc0 == old(enc0) && rebasedState == old(rebasedState)
      ensures rasters == old(rasters) && width == old(width) && height == old(height)
      ensures var r := EncGivenStateSpec(c, enc0[i - 1], Some(dec[i - 1]), xc0[i], rasters[i], width, height);
        && (failure.None? ==> (r == Ok(Output(xc1[i], enc1[i]))
              && xc1 == old(xc1)[i := xc1[i]] && enc1 == old(enc1)[i := enc1[i]]))
        && (failure.Some? ==> r == Err(failure.value) && xc1 == old(xc1) && enc1 == old(enc1))
    {
      var r := EncGivenState(c, enc0[i - 1], Some(dec[i - 1]), xc0[i], rasters[i], width, height);
      if r.Err? {
        return Some(r.error);
      }
      xc1 := xc1[i := r.value.ivf];
      enc1 := enc1[i := r.value.state];
      return None;
    }

    /** What the first pass leaves: chunk 0 copied, every other chunk re-encoded. */
    ghost predicate FirstPassDone(c: Codec)
      reads this
      requires Loaded()
    {
      && xc0[0] == vpx[0] && enc0[0] == dec[0]
      && FirstPassUpTo(c, dec, vpx, rasters, width, height, xc0, enc0, N)
    }

    /** What the second pass leaves, given the first pass's output. */
    ghost predicate SecondPassDone(c: Codec)
      reads this
      requires Loaded()
    {
      && xc1[0] == xc0[0] && enc1[0] == enc0[0]
      && SecondPassUpTo(c, dec, enc0, xc0, rasters, width, height, xc1, enc1, N)
    }

    /** Every chunk's decode succeeds, each into its own slot. */
    ghost predicate Decoded(c: Codec)
      reads this
      requires Valid()
    {
      forall i :: 0 <= i < N ==> DecodeSpec(c, vpx[i]) == Ok(dec[i])
    }

    /** Some chunk's decode fails with `e`. */
    ghost predicate DecodeFailed(c: Codec, e: Error)
      reads this
      requires Valid()
    {
      exists i :: 0 <= i < N && DecodeSpec(c, vpx[i]) == Err(e)
    }

    /** Every first-pass task can succeed: its inputs do not depend on the pass. */
    ghost predicate FirstPassOk(c: Codec)
      reads this
      requires Loaded()
    {
      forall i :: 1 <= i < N ==> EncGivenStateSpec(c, dec[i - 1], None, vpx[i], rasters[i], width, height).Ok?
    }

    /** Some first-pass task fails with `e`. */
    ghost predicate FirstPassFailed(c: Codec, e: Error)
      reads this
      requires Loaded()
    {
      exists i :: 1 <= i < N && EncGivenStateSpec(c, dec[i - 1], None, vpx[i], rasters[i], width, height) == Err(e)
    }

    /** Every second-pass task can succeed on the first pass's output. */
    ghost predicate SecondPassOk(c: Codec)
      reads this
      requires Loaded()
    {
      forall i :: 1 <= i < N ==> EncGivenStateSpec(c, enc0[i - 1], Some(dec[i - 1]), xc0[i], rasters[i], width, height).Ok?
    }

    /** Some second-pass task fails with `e`. */
    ghost predicate SecondPassFailed(c: Codec, e: Error)
      reads this
      requires Loaded()
    {
      exists i :: 1 <= i < N
        && EncGivenStateSpec(c, enc0[i - 1], Some(dec[i - 1]), xc0[i], rasters[i], width, height) == Err(e)
    }

    /** The rebase stops at step i with `e`: steps 1..i-1 are done, and step i's
        re-encoding fails, or it succeeds and the merge onto final[i-1] fails. */
    ghost predicate RebaseFailed(c: Codec, e: Error)
      reads this
      requires Loaded()
    {
      && final[0] == xc1[0] && rebased[0] == xc1[0] && rebasedState[0] == enc0[0]
      && (exists i :: 1 <= i < N
           && RebaseUpTo(c, enc0, xc1, rasters, width, height, rebased, rebasedState, final, i)
           && RebaseStepFails(c, enc0, xc1, rasters, width, height, rebased, rebasedState, final, i, e))
    }

    /** The first pass of encode_all: chunk 0 is copied, every other chunk is
        re-encoded by its own task. */
    method FirstPass(c: Codec) returns (failure: Option<Error>)
      requires Loaded()
      modifies this
      ensures Loaded()
      ensures vpx == old(vpx) && dec == old(dec) && rebased == old(rebased) && final == old(final)
      ensures rebasedState == old(rebasedState) && xc1 == old(xc1) && enc1 == old(enc1)
      ensures rasters == old(rasters) && width == old(width) && height == old(height)
      ensures failure.None? ==> FirstPassDone(c)
      ensures failure.None? <==> FirstPassOk(c)
      ensures failure.Some? ==> FirstPassFailed(c, failure.value)
    {
      xc0 := xc0[0 := vpx[0]];
      enc0 := enc0[0 := dec[0]];
      var i := 1;
      while i < N
        invariant 1 <= i <= N && Loaded()
        invariant vpx == old(vpx) && dec == old(dec) && rebased == old(rebased) && final == old(final)
        invariant rebasedState == old(rebasedState) && xc1 == old(xc1) && enc1 == old(enc1)
        invariant rasters == old(rasters) && width == old(width) && height == old(height)
        invariant xc0[0] == vpx[0] && enc0[0] == dec[0]
        invariant FirstPassUpTo(c, dec, vpx, rasters, width, height, xc0, enc0, i)
      {
        ghost var x, e := xc0, enc0;
        failure := FirstPassTask(c, i);
        if failure.Some? {
          return;
        }
        FirstPassExtend(c, dec, vpx, rasters, width, height, x, e, xc0, enc0, i);
        i := i + 1;
      }
      return None;
    }

    /** The second pass of encode_all, over the first pass's output. */
    method SecondPass(c: Codec) returns (failure: Option<Error>)
      requires Loaded()
      modifies this
      ensures Loaded()
      ensures vpx == old(vpx) && dec == old(dec) && rebased == old(rebased) && final == old(final)
      ensures rebasedState == old(rebasedState) && xc0 == old(xc0) && enc0 == old(enc0)
      ensures rasters == old(rasters) && width == old(width) && height == old(height)
      ensures failure.None? ==> SecondPassDone(c)
      ensures failure.None? <==> SecondPassOk(c)
      ensures failure.Some? ==> SecondPassFailed(c, failure.value)
    {
      xc1 := xc1[0 := xc0[0]];
      enc1 := enc1[0 := enc0[0]];
      var i := 1;
      while i < N
        invariant 1 <= i <= N && Loaded()
        invariant vpx == old(vpx) && dec == old(dec) && rebased == old(rebased) && final == old(final)
        invariant rebasedState == old(rebasedState) && xc0 == old(xc0) && enc0 == old(enc0)
        invariant rasters == old(rasters) && width == old(width) && height == old(height)
        invariant xc1[0] == xc0[0] && enc1[0] == enc0[0]
        invariant SecondPassUpTo(c, dec, enc0, xc0, rasters, width, height, xc1, enc1, i)
      {
        ghost var x, e := xc1, enc1;
        failure := SecondPassTask(c, i);
        if failure.Some? {
          return;
        }
        SecondPassExtend(c, dec, enc0, xc0, rasters, width, height, x, e, xc1, enc1, i);
        i := i + 1;
      }
      return None;
    }

    /** encode_all: the first pass over every chunk, then, once all of it has
        finished, the second pass over every chunk. */
    method EncodeAll(c: Codec) returns (failure: Option<Error>)
      requires Loaded()
      modifies this
      ensures Loaded()
      ensures vpx == old(vpx) && dec == old(dec) && rebased == old(rebased) && final == old(final)
      ensures rebasedState == old(rebasedState)
      ensures rasters == old(rasters) && width == old(width) && height == old(height)
      ensures failure.None? ==> FirstPassDone(c) && SecondPassDone(c)
      ensures failure.None? <==> FirstPassOk(c) && SecondPassOk(c)
      ensures failure.Some? ==> FirstPassFailed(c, failure.value) || (FirstPassDone(c) && SecondPassFailed(c, failure.value))
    {
      failure := FirstPass(c);
      if failure.Some? {
        return;
      }
      failure := SecondPass(c);
    }

    /** What the rebase leaves: chunk 0 seeds the chain, and each later chunk is
        re-encoded from the rebased state before it and merged onto the output so far. */
    ghost predicate RebaseDone(c: Codec)
      reads this
      requires Loaded()
    {
      && final[0] == xc1[0] && rebased[0] == xc1[0] && rebasedState[0] == enc0[0]
      && RebaseUpTo(c, enc0, xc1, rasters, width, height, rebased, rebasedState, final, N)
    }

    /** The re-encoding of step i of the rebase: chunk i from the rebased state of
        chunk i-1, with the second-pass output of chunk i as prediction, replayed from
        the first-pass state of chunk i-1; it writes rebased[i] and rebasedState[i]. */
    method RebaseEncodeTask(c: Codec, i: nat) returns (failure: Option<Error>)
      requires Loaded() && 1 <= i < N
      modifies this
      ensures Loaded()
      ensures vpx == old(vpx) && xc0 == old(xc0) && xc1 == old(xc1) && final == old(final)
      ensures dec == old(dec) && enc0 == old(enc0) && enc1 == old(enc1)
      ensures rasters == old(rasters) && width == old(width) && height == old(height)
      ensures failure.None? ==>
        && EncGivenStateSpec(c, rebasedState[i - 1], Some(enc0[i - 1]), xc1[i], rasters[i], width, height)
             == Ok(Output(rebased[i], rebasedState[i]))
        && rebased == old(rebased)[i := rebased[i]]
        && rebasedState == old(rebasedState)[i := rebasedState[i]]
      ensures failure.Some? ==>
        && EncGivenStateSpec(c, rebasedState[i - 1], Some(enc0[i - 1]), xc1[i], rasters[i], width, height)
             == Err(failure.value)
        && rebased == old(rebased) && rebasedState == old(rebasedState)
    {
      var r := EncGivenState(c, rebasedState[i - 1], Some(enc0[i - 1]), xc1[i], rasters[i], width, height);
      if r.Err? {
        return Some(r.error);
      }
      rebased := rebased[i := r.value.ivf];
      rebasedState := rebasedState[i := r.value.state];
      return None;
    }

    /** The merge of step i of the rebase: final[i] is final[i-1] followed by rebased[i]. */
    method MergeTask(i: nat) returns (failure: Option<Error>)
      requires Loaded() && 1 <= i < N
      modifies this
      ensures Loaded()
      ensures vpx == old(vpx) && xc0 == old(xc0) && xc1 == old(xc1) && rebased == old(rebased)
      ensures dec == old(dec) && enc0 == old(enc0) && enc1 == old(enc1) && rebasedState == old(rebasedState)
      ensures rasters == old(rasters) && width == old(width) && height == old(height)
      ensures failure.None? ==> MergeSpec(final[i - 1], rebased[i]) == Ok(final[i]) && final == old(final)[i := final[i]]
      ensures failure.Some? ==> MergeSpec(final[i - 1], rebased[i]) == Err(failure.value) && final == old(final)
    {
      var m := Merge(final[i - 1], rebased[i]);
      if m.Err? {
        return Some(m.error);
      }
      final := final[i := m.value];
      return None;
    }

    /** rebase: the serial chain over i = 0..N-1. */
    method Rebase(c: Codec) returns (failure: Option<Error>)
      requires Loaded()
      modifies this
      ensures Loaded()
      ensures vpx == old(vpx) && xc0 == old(xc0) && xc1 == old(xc1)
      ensures dec == old(dec) && enc0 == old(enc0) && enc1 == old(enc1)
      ensures rasters == old(rasters) && width == old(width) && height == old(height)
      ensures failure.None? ==> RebaseDone(c)
      ensures failure.Some? ==> RebaseFailed(c, failure.value)
    {
      final := final[0 := xc1[0]];
      rebased := rebased[0 := xc1[0]];
      rebasedState := rebasedState[0 := enc0[0]];
      var i := 1;
      while i < N
        invariant 1 <= i <= N && Loaded()
        invariant vpx == old(vpx) && xc0 == old(xc0) && xc1 == old(xc1)
        invariant dec == old(dec) && enc0 == old(enc0) && enc1 == old(enc1)
        invariant rasters == old(rasters) && width == old(width) && height == old(height)
        invariant final[0] == xc1[0] && rebased[0] == xc1[0] && rebasedState[0] == enc0[0]
        invariant RebaseUpTo(c, enc0, xc1, rasters, width, height, rebased, rebasedState, final, i)
      {
        ghost var r, rs, f := rebased, rebasedState, final;
        failure := RebaseEncodeTask(c, i);
        if failure.Some? {
          assert RebaseStepFails(c, enc0, xc1, rasters, width, height, rebased, rebasedState, final, i, failure.value);
          return;
        }
        RebaseUpToFrame(c, enc0, xc1, rasters, width, height, r, rs, f, rebased, rebasedState, final, i);
        failure := MergeTask(i);
        if failure.Some? {
          assert RebaseStepFails(c, enc0, xc1, rasters, width, height, rebased, rebasedState, final, i, failure.value);
          return;
        }
        RebaseExtend(c, enc0, xc1, rasters, width, height, r, rs, f, rebased, rebasedState, final, i);
        i := i + 1;
      }
      return None;
    }
  }

  /** Why chunk i of read_input cannot be read: its raw file is missing, or its VP8
      file is missing or does not parse. */
  ghost function ChunkError(files: map<string, seq<byte>>, prefix: string, i: nat): Option<Error>
  {
    if InputName(prefix, i) !in files then Some(NoFile(InputName(prefix, i)))
    else if Load(files, VpxName(prefix, i)).Err? then Some(Load(files, VpxName(prefix, i)).error)
    else None
  }

  /** read_input stops at the first chunk that cannot be read, with its error. */
  ghost predicate ReadFailed(files: map<string, seq<byte>>, prefix: string, e: Error)
  {
    exists i :: 0 <= i < N && ChunkError(files, prefix, i) == Some(e)
      && forall j :: 0 <= j < i ==> ChunkError(files, prefix, j).None?
  }

  /** A chunk that cannot be read after chunks that can is where read_input stops. */
  lemma ReadStops(c: Codec, files: map<string, seq<byte>>, prefix: string,
                  rasters: seq<seq<Raster>>, vpx: seq<Ivf>, i: nat, e: Error)
    requires i < N && i <= |rasters| && i <= |vpx| && ChunkError(files, prefix, i) == Some(e)
    requires forall j :: 0 <= j < i ==> ChunkRead(c, files, prefix, rasters, vpx, j)
    ensures ReadFailed(files, prefix, e)
    ensures InputName(prefix, i) !in files || VpxName(prefix, i) !in files || Parse(files[VpxName(prefix, i)]).Err?
  {
    forall j | 0 <= j < i
      ensures ChunkError(files, prefix, j).None?
    {
      assert ChunkRead(c, files, prefix, rasters, vpx, j);
    }
  }

  /** The display size is that of the raw file of chunk 0. */
  ghost predicate SizeRead(c: Codec, files: map<string, seq<byte>>, prefix: string, width: u16, height: u16)
  {
    && InputName(prefix, 0) in files
    && width == c.readY4m(files[InputName(prefix, 0)]).width
    && height == c.readY4m(files[InputName(prefix, 0)]).height
  }

  /** Chunk j has been read: its raw file and its VP8 file exist, rasters[j] is what
      the raw file holds and vpx[j] is the VP8 file parsed. */
  ghost predicate ChunkRead(c: Codec, files: map<string, seq<byte>>, prefix: string,
                            rasters: seq<seq<Raster>>, vpx: seq<Ivf>, j: nat)
    requires j < |rasters| && j < |vpx|
  {
    && InputName(prefix, j) in files && VpxName(prefix, j) in files
    && rasters[j] == c.readY4m(files[InputName(prefix, j)]).rasters
    && Parse(files[VpxName(prefix, j)]) == Ok(vpx[j])
  }

  lemma ChunkReadExtend(c: Codec, files: map<string, seq<byte>>, prefix: string,
                        rasters: seq<seq<Raster>>, vpx: seq<Ivf>,
                        rasters': seq<seq<Raster>>, vpx': seq<Ivf>, n: nat)
    requires n == |rasters| < |vpx| && |vpx'| == |vpx| && vpx' == vpx[n := vpx'[n]]
    requires forall j :: 0 <= j < n ==> ChunkRead(c, files, prefix, rasters, vpx, j)
    requires |rasters'| == n + 1 && rasters' == rasters + [rasters'[n]]
    requires ChunkRead(c, files, prefix, rasters', vpx', n)
    ensures forall j :: 0 <= j < n + 1 ==> ChunkRead(c, files, prefix, rasters', vpx', j)
  {
    forall j | 0 <= j < n
      ensures ChunkRead(c, files, prefix, rasters', vpx', j)
    {
      assert ChunkRead(c, files, prefix, rasters, vpx, j);
      assert rasters'[j] == rasters[j] && vpx'[j] == vpx[j];
    }
  }

  /** enc_given_state of these inputs succeeds with container `x` and state `e`. */
  ghost predicate ReEncoded(c: Codec, input: State, prev: Option<State>, pred: Ivf, rasters: seq<Raster>,
                          width: u16, height: u16, x: Ivf, e: State)
  {
    EncGivenStateSpec(c, input, prev, pred, rasters, width, height) == Ok(Output(x, e))
  }

  /** Chunks 1..n-1 of the first pass: each re-encoded from the decoded state before it. */
  ghost predicate FirstPassUpTo(c: Codec, dec: seq<State>, vpx: seq<Ivf>, rasters: seq<seq<Raster>>,
                                width: u16, height: u16, xc0: seq<Ivf>, enc0: seq<State>, n: nat)
    requires n <= |dec| && n <= |vpx| && n <= |rasters| && n <= |xc0| && n <= |enc0|
  {
    forall j :: 1 <= j < n ==> ReEncoded(c, dec[j - 1], None, vpx[j], rasters[j], width, height, xc0[j], enc0[j])
  }

  lemma FirstPassExtend(c: Codec, dec: seq<State>, vpx: seq<Ivf>, rasters: seq<seq<Raster>>,
                        width: u16, height: u16, xc0: seq<Ivf>, enc0: seq<State>,
                        xc0': seq<Ivf>, enc0': seq<State>, n: nat)
    requires n < |dec| && n < |vpx| && n < |rasters| && n < |xc0| && n < |enc0|
    requires 1 <= n && FirstPassUpTo(c, dec, vpx, rasters, width, height, xc0, enc0, n)
    requires |xc0'| == |xc0| && xc0' == xc0[n := xc0'[n]] && |enc0'| == |enc0| && enc0' == enc0[n := enc0'[n]]
    requires EncGivenStateSpec(c, dec[n - 1], None, vpx[n], rasters[n], width, height) == Ok(Output(xc0'[n], enc0'[n]))
    ensures FirstPassUpTo(c, dec, vpx, rasters, width, height, xc0', enc0', n + 1)
  {
    forall j | 1 <= j < n + 1
      ensures ReEncoded(c, dec[j - 1], None, vpx[j], rasters[j], width, height, xc0'[j], enc0'[j])
    {
      if j < n {
        assert ReEncoded(c, dec[j - 1], None, vpx[j], rasters[j], width, height, xc0[j], enc0[j]);
        assert xc0'[j] == xc0[j] && enc0'[j] == enc0[j];
      }
    }
  }

  /** Chunks 1..n-1 of the second pass: each re-encoded from the first-pass state
      before it, with the first-pass output replayed from the decoded state before it. */
  ghost predicate SecondPassUpTo(c: Codec, dec: seq<State>, enc0: seq<State>, xc0: seq<Ivf>,
                                 rasters: seq<seq<Raster>>, width: u16, height: u16,
                                 xc1: seq<Ivf>, enc1: seq<State>, n: nat)
    requires n <= |dec| && n <= |enc0| && n <= |xc0| && n <= |rasters| && n <= |xc1| && n <= |enc1|
  {
    forall j :: 1 <= j < n ==> ReEncoded(c, enc0[j - 1], Some(dec[j - 1]), xc0[j], rasters[j], width, height, xc1[j], enc1[j])
  }

  lemma SecondPassExtend(c: Codec, dec: seq<State>, enc0: seq<State>, xc0: seq<Ivf>,
                         rasters: seq<seq<Raster>>, width: u16, height: u16,
                         xc1: seq<Ivf>, enc1: seq<State>, xc1': seq<Ivf>, enc1': seq<State>, n: nat)
    requires n < |dec| && n < |enc0| && n < |xc0| && n < |rasters| && n < |xc1| && n < |enc1|
    requires 1 <= n && SecondPassUpTo(c, dec, enc0, xc0, rasters, width, height, xc1, enc1, n)
    requires |xc1'| == |xc1| && xc1' == xc1[n := xc1'[n]] && |enc1'| == |enc1| && enc1' == enc1[n := enc1'[n]]
    requires EncGivenStateSpec(c, enc0[n - 1], Some(dec[n - 1]), xc0[n], rasters[n], width, height)
      == Ok(Output(xc1'[n], enc1'[n]))
    ensures SecondPassUpTo(c, dec, enc0, xc0, rasters, width, height, xc1', enc1', n + 1)
  {
    forall j | 1 <= j < n + 1
      ensures ReEncoded(c, enc0[j - 1], Some(dec[j - 1]), xc0[j], rasters[j], width, height, xc1'[j], enc1'[j])
    {
      if j < n {
        assert ReEncoded(c, enc0[j - 1], Some(dec[j - 1]), xc0[j], rasters[j], width, height, xc1[j], enc1[j]);
        assert xc1'[j] == xc1[j] && enc1'[j] == enc1[j];
      }
    }
  }

  /** Step j of the rebase: rebased[j] and rebasedState[j] are what enc_given_state
      makes of the second-pass output of chunk j from the rebased state before it,
      and final[j] is the output before it merged with rebased[j]. */
  ghost predicate RebaseStep(c: Codec, enc0: seq<State>, xc1: seq<Ivf>, rasters: seq<seq<Raster>>,
                             width: u16, height: u16, rebased: seq<Ivf>, rebasedState: seq<State>,
                             final: seq<Ivf>, j: nat)
    requires 1 <= j < |enc0| && j < |xc1| && j < |rasters| && j < |rebased| && j < |rebasedState| && j < |final|
  {
    && EncGivenStateSpec(c, rebasedState[j - 1], Some(enc0[j - 1]), xc1[j], rasters[j], width, height)
         == Ok(Output(rebased[j], rebasedState[j]))
    && MergeSpec(final[j - 1], rebased[j]) == Ok(final[j])
  }

  /** Step j of the rebase throws `e`: its re-encoding fails with `e`, or the
      re-encoding succeeds into rebased[j] and rebasedState[j] and the merge fails. */
  ghost predicate RebaseStepFails(c: Codec, enc0: seq<State>, xc1: seq<Ivf>, rasters: seq<seq<Raster>>,
                                  width: u16, height: u16, rebased: seq<Ivf>, rebasedState: seq<State>,
                                  final: seq<Ivf>, j: nat, e: Error)
    requires 1 <= j < |enc0| && j < |xc1| && j < |rasters| && j < |rebased| && j < |rebasedState| && j < |final|
  {
    var o := EncGivenStateSpec(c, rebasedState[j - 1], Some(enc0[j - 1]), xc1[j], rasters[j], width, height);
    || o == Err(e)
    || (o == Ok(Output(rebased[j], rebasedState[j])) && MergeSpec(final[j - 1], rebased[j]) == Err(e))
  }

  /** Chunks 1..n-1 of the rebase. */
  ghost predicate RebaseUpTo(c: Codec, enc0: seq<State>, xc1: seq<Ivf>, rasters: seq<seq<Raster>>,
                             width: u16, height: u16, rebased: seq<Ivf>, rebasedState: seq<State>,
                             final: seq<Ivf>, n: nat)
    requires n <= |enc0| && n <= |xc1| && n <= |rasters| && n <= |rebased| && n <= |rebasedState| && n <= |final|
  {
    forall j :: 1 <= j < n ==> RebaseStep(c, enc0, xc1, rasters, width, height, rebased, rebasedState, final, j)
  }

  /** Writing slot n or above keeps rebase steps 1..n-1. */
  lemma RebaseUpToFrame(c: Codec, enc0: seq<State>, xc1: seq<Ivf>, rasters: seq<seq<Raster>>,
                        width: u16, height: u16, rebased: seq<Ivf>, rebasedState: seq<State>, final: seq<Ivf>,
                        rebased': seq<Ivf>, rebasedState': seq<State>, final': seq<Ivf>, n: nat)
    requires n < |enc0| && n < |xc1| && n < |rasters| && n < |rebased| && n < |rebasedState| && n < |final|
    requires RebaseUpTo(c, enc0, xc1, rasters, width, height, rebased, rebasedState, final, n)
    requires |rebased'| == |rebased| && rebased' == rebased[n := rebased'[n]]
    requires |rebasedState'| == |rebasedState| && rebasedState' == rebasedState[n := rebasedState'[n]]
    requires final' == final
    ensures RebaseUpTo(c, enc0, xc1, rasters, width, height, rebased', rebasedState', final', n)
  {
    forall j | 1 <= j < n
      ensures RebaseStep(c, enc0, xc1, rasters, width, height, rebased', rebasedState', final', j)
    {
      assert RebaseStep(c, enc0, xc1, rasters, width, height, rebased, rebasedState, final, j);
      assert rebasedState'[j - 1] == rebasedState[j - 1];
      assert rebased'[j] == rebased[j] && rebasedState'[j] == rebasedState[j];
    }
  }

  lemma RebaseExtend(c: Codec, enc0: seq<State>, xc1: seq<Ivf>, rasters: seq<seq<Raster>>,
                     width: u16, height: u16, rebased: seq<Ivf>, rebasedState: seq<State>, final: seq<Ivf>,
                     rebased': seq<Ivf>, rebasedState': seq<State>, final': seq<Ivf>, n: nat)
    requires n < |enc0| && n < |xc1| && n < |rasters| && n < |rebased| && n < |rebasedState| && n < |final|
    requires 1 <= n && RebaseUpTo(c, enc0, xc1, rasters, width, height, rebased, rebasedState, final, n)
    requires |rebased'| == |rebased| && rebased' == rebased[n := rebased'[n]]
    requires |rebasedState'| == |rebasedState| && rebasedState' == rebasedState[n := rebasedState'[n]]
    requires |final'| == |final| && final' == final[n := final'[n]]
    requires RebaseStep(c, enc0, xc1, rasters, width, height, rebased', rebasedState', final', n)
    ensures RebaseUpTo(c, enc0, xc1, rasters, width, height, rebased', rebasedState', final', n + 1)
  {
    forall j | 1 <= j < n
      ensures RebaseStep(c, enc0, xc1, rasters, width, height, rebased', rebasedState', final', j)
    {
      assert RebaseStep(c, enc0, xc1, rasters, width, height, rebased, rebasedState, final, j);
      assert rebasedState'[j - 1] == rebasedState[j - 1] && final'[j - 1] == final[j - 1];
      assert rebased'[j] == rebased[j] && rebasedState'[j] == rebasedState[j] && final'[j] == final[j];
    }
  }

  /** do_work throws `e` from the first stage that fails: read_input, or decode_all
      after the inputs are read, or a pass of encode_all after every chunk is
      decoded, or the rebase after both passes. */
  ghost predicate WorkFailed(c: Codec, files: map<string, seq<byte>>, prefix: string, s: Xc, e: Error)
    reads s
  {
    || ReadFailed(files, prefix, e)
    || (&& s.Loaded() && s.InputRead(c, files, prefix)
        && (|| s.DecodeFailed(c, e)
            || (&& s.Decoded(c)
                && (|| s.FirstPassFailed(c, e)
                    || (&& s.FirstPassDone(c)
                        && (|| s.SecondPassFailed(c, e)
                            || (s.SecondPassDone(c) && s.RebaseFailed(c, e))))))))
  }

  /** do_work: read the inputs, decode, encode twice, rebase, and write final[N-1]
      as prefix + "final.ivf"; the state object is returned alongside. */
  method DoWork(c: Codec, files: map<string, seq<byte>>, prefix: string)
    returns (s: Xc, r: Result<map<string, seq<byte>>, Error>)
    ensures fresh(s)
    ensures r.Ok? ==>
      && s.Loaded() && s.InputRead(c, files, prefix) && s.FirstPassDone(c) && s.SecondPassDone(c) && s.RebaseDone(c)
      && (forall i :: 0 <= i < N ==> DecodeSpec(c, s.vpx[i]) == Ok(s.dec[i]))
      && r.value == files[prefix + "final.ivf" := s.final[N - 1].buffer]
    ensures r.Err? ==> WorkFailed(c, files, prefix, s, r.error)
  {
    s := new Xc();
    var failure := s.ReadInput(c, files, prefix);
    if failure.Some? {
      return s, Err(failure.value);
    }
    failure := s.DecodeAll(c);
    assert s.InputRead(c, files, prefix);
    if failure.Some? {
      return s, Err(failure.value);
    }
    failure := s.EncodeAll(c);
    assert s.InputRead(c, files, prefix) && s.Decoded(c);
    if failure.Some? {
      return s, Err(failure.value);
    }
    failure := s.Rebase(c);
    assert s.InputRead(c, files, prefix) && s.Decoded(c) && s.FirstPassDone(c) && s.SecondPassDone(c);
    if failure.Some? {
      return s, Err(failure.value);
    }
    return s, Ok(files[prefix + "final.ivf" := s.final[N - 1].buffer]);
  }

  /** Once the first pass has succeeded, no second-pass task can fail: each
      prediction container was written for exactly the state it is replayed from. */
  lemma SecondPassSucceeds(c: Codec, dec: seq<State>, vpx: seq<Ivf>, xc0: seq<Ivf>, enc0: seq<State>,
                           rasters: seq<seq<Raster>>, width: u16, height: u16)
    requires Bounded(c)
    requires |dec| == N && |vpx| == N && |xc0| == N && |enc0| == N && |rasters| == N
    requires forall i :: 1 <= i < N ==>
      EncGivenStateSpec(c, dec[i - 1], None, vpx[i], rasters[i], width, height) == Ok(Output(xc0[i], enc0[i]))
    ensures forall i :: 1 <= i < N ==>
      EncGivenStateSpec(c, enc0[i - 1], Some(dec[i - 1]), xc0[i], rasters[i], width, height).Ok?
  {
    forall i | 1 <= i < N
      ensures EncGivenStateSpec(c, enc0[i - 1], Some(dec[i - 1]), xc0[i], rasters[i], width, height).Ok?
    {
      EncGivenStateChains(c, dec[i - 1], None, vpx[i], rasters[i], width, height,
                          enc0[i - 1], rasters[i], width, height);
    }
  }

  /** Once the second pass has succeeded, no rebase re-encoding can fail, whatever
      state the chain hands it. */
  lemma RebaseEncodesSucceed(c: Codec, dec: seq<State>, xc0: seq<Ivf>, enc0: seq<State>,
                             xc1: seq<Ivf>, enc1: seq<State>,
                             rasters: seq<seq<Raster>>, width: u16, height: u16)
    requires Bounded(c)
    requires |dec| == N && |xc0| == N && |enc0| == N && |xc1| == N && |enc1| == N && |rasters| == N
    requires forall i :: 1 <= i < N ==>
      EncGivenStateSpec(c, enc0[i - 1], Some(dec[i - 1]), xc0[i], rasters[i], width, height)
        == Ok(Output(xc1[i], enc1[i]))
    ensures forall i :: 1 <= i < N ==> AcceptsAnyInput(c, enc0[i - 1], xc1[i], rasters[i], width, height)
  {
    forall i | 1 <= i < N
      ensures AcceptsAnyInput(c, enc0[i - 1], xc1[i], rasters[i], width, height)
    {
      ChainsFromAnyInput(c, enc0[i - 1], Some(dec[i - 1]), xc0[i], rasters[i], width, height);
    }
  }

  /** The output of the rebase holds the frames of chunk 0 followed by the frames of
      every rebased chunk, in chunk order, and their frame counts added up. */
  lemma FinalFrames(final: seq<Ivf>, rebased: seq<Ivf>)
    requires |final| == N && |rebased| == N && final[0] == rebased[0]
    requires forall i :: 1 <= i < N ==> MergeSpec(final[i - 1], rebased[i]) == Ok(final[i])
    requires rebased[0].frameCount + TotalCount(rebased[1..]) < Two32
    ensures Frames(rebased[0]).Ok? && ConcatFrames(rebased[1..]).Ok?
    ensures Frames(final[N - 1]) == Ok(Frames(rebased[0]).value + ConcatFrames(rebased[1..]).value)
    ensures final[N - 1].frameCount == rebased[0].frameCount + TotalCount(rebased[1..])
    ensures RoundTrips(final[N - 1])
  {
    MergeStepsFrames(final, rebased);
  }
}
