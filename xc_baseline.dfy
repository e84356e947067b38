/** The file-based ExCamera pipeline (xc_baseline): every stage reads and writes
    files named prefix + tag + two-digit index + extension in one directory. The
    directory is keyed by the parts each name is built from (`Path`); `PathInjective`
    shows that two such paths with the same prefix name the same file only if they
    are the same path. State files hold the serialised codec state, container files
    the bytes of the container. */
module XcBaseline {
  import opened Bytes
  import opened Wrappers
  import opened Ivf
  import opened Excamera
  import opened Names

  const N: nat := 16

  /** The files of one chunk: the raw chunk, the VP8 chunk, and what each stage
      writes. */
  datatype Kind = Raw | Vpx | Dec | Xc0 | Enc0 | Xc1 | Enc1 | Rebased | RebasedState | Final

  function Tag(k: Kind): string
  {
    match k
    case Raw => ""
    case Vpx => "vpx_"
    case Dec => "dec_"
    case Xc0 => "xc0_"
    case Enc0 => "enc0_"
    case Xc1 => "xc1_"
    case Enc1 => "enc1_"
    case Rebased => "rebased_"
    case RebasedState => "rebased_"
    case Final => "final_"
  }

  function Ext(k: Kind): string
  {
    match k
    case Raw => ".y4m"
    case Dec | Enc0 | Enc1 | RebasedState => ".state"
    case _ => ".ivf"
  }

  /** The file of kind `kind` for chunk `index`: prefix + tag + setw(2) index + ext. */
  datatype Path = Path(prefix: string, kind: Kind, index: nat)

  function Name(p: Path): string
  {
    ChunkName(p.prefix, Tag(p.kind), p.index, Ext(p.kind))
  }

  /** The kind a tag and an extension name. */
  function KindOf(tag: string, ext: string): Option<Kind>
  {
    if tag == "" && ext == ".y4m" then Some(Raw)
    else if tag == "vpx_" && ext == ".ivf" then Some(Vpx)
    else if tag == "dec_" && ext == ".state" then Some(Dec)
    else if tag == "xc0_" && ext == ".ivf" then Some(Xc0)
    else if tag == "enc0_" && ext == ".state" then Some(Enc0)
    else if tag == "xc1_" && ext == ".ivf" then Some(Xc1)
    else if tag == "enc1_" && ext == ".state" then Some(Enc1)
    else if tag == "rebased_" && ext == ".ivf" then Some(Rebased)
    else if tag == "rebased_" && ext == ".state" then Some(RebasedState)
    else if tag == "final_" && ext == ".ivf" then Some(Final)
    else None
  }

  /** Every kind's tag is a stage tag, its extension has no underscore, and the two
      together name the kind. */
  lemma KindNamed(k: Kind)
    ensures IsTag(Tag(k)) && '_' !in Ext(k) && KindOf(Tag(k), Ext(k)) == Some(k)
  {
    match k
    case Raw =>
    case Vpx => assert Tag(k)[..|Tag(k)| - 1] == "vpx";
    case Dec => assert Tag(k)[..|Tag(k)| - 1] == "dec";
    case Xc0 => assert Tag(k)[..|Tag(k)| - 1] == "xc0";
    case Enc0 => assert Tag(k)[..|Tag(k)| - 1] == "enc0";
    case Xc1 => assert Tag(k)[..|Tag(k)| - 1] == "xc1";
    case Enc1 => assert Tag(k)[..|Tag(k)| - 1] == "enc1";
    case Rebased => assert Tag(k)[..|Tag(k)| - 1] == "rebased";
    case RebasedState => assert Tag(k)[..|Tag(k)| - 1] == "rebased";
    case Final => assert Tag(k)[..|Tag(k)| - 1] == "final";
  }

  /** Distinct paths under one prefix, with indices of at most two digits, name
      distinct files. */
  lemma PathInjective(p: Path, q: Path)
    requires p.prefix == q.prefix && p.index < 100 && q.index < 100 && Name(p) == Name(q)
    ensures p == q
  {
    KindNamed(p.kind);
    KindNamed(q.kind);
    ChunkNameInjective(p.prefix, Tag(p.kind), p.index, Ext(p.kind), Tag(q.kind), q.index, Ext(q.kind));
  }

  /** The state-file predecessor index of every stage: (i == 0) ? 0 : (i - 1). */
  function Pred(i: nat): (r: nat)
    ensures i == 0 ==> r == 0
    ensures i > 0 ==> r + 1 == i
  {
    if i == 0 then 0 else i - 1
  }

  type Files = map<Path, seq<byte>>

  /** The bytes of the file at `p`, if there is one. */
  function Lookup(f: Files, p: Path): (r: Option<seq<byte>>)
    ensures r.Some? <==> p in f
    ensures r.Some? ==> r.value == f[p]
  {
    if p in f then Some(f[p]) else None
  }

  // ---------------------------------------------------------------------------
  // The stage operations on files

  /** IVF(filename): a missing file, or the parser's exceptions. */
  function ReadIvf(f: Files, p: Path): Result<Ivf, Error>
  {
    var b := Lookup(f, p);
    if b.None? then Err(NoFile(Name(p))) else Parse(b.value)
  }

  /** decode(input, output): the state the decoder reaches. */
  function DecodeFile(c: Codec, f: Files, input: Path): Result<State, Error>
  {
    var v :- ReadIvf(f, input);
    DecodeSpec(c, v)
  }

  /** enc_given_state(input_file, output_file, input_state, output_state, pred,
      prev_state): the raw chunk is read first, then the previous state (when one is
      named), then the prediction container, whose minihash and frames are checked
      before the input state is read. */
  function EncFile(c: Codec, f: Files, input: Path, inputState: Path, pred: Path, prevState: Option<Path>)
    : Result<Output, Error>
  {
    var raw := Lookup(f, input);
    var prev := if prevState.Some? then Lookup(f, prevState.value) else None;
    if raw.None? then Err(NoFile(Name(input)))
    else if prevState.Some? && prev.None? then Err(NoFile(Name(prevState.value)))
    else
      var y := c.readY4m(raw.value);
      var p :- ReadIvf(f, pred);
      if c.hash(PredStart(c, prev, y.width, y.height)) != p.minihash then
        Err(Invalid("Mismatch between prediction IVF and prediction_ivf_initial_state"))
      else
        var frames :- Frames(p);
        var st := Lookup(f, inputState);
        if st.None? then Err(NoFile(Name(inputState)))
        else EncGivenStateSpec(c, st.value, prev, p, y.rasters, y.width, y.height)
  }

  /** merge(input1, input2, output). */
  function MergeFile(f: Files, a: Path, b: Path): Result<Ivf, Error>
  {
    var x :- ReadIvf(f, a);
    var y :- ReadIvf(f, b);
    MergeSpec(x, y)
  }

  /** The file at `p` is the same in both directories (present in both with the
      same bytes, or absent from both). */
  ghost predicate Same(f: Files, g: Files, p: Path)
  {
    Lookup(f, p) == Lookup(g, p)
  }

  /** Every file of a kind not in `kinds` is the same in both directories. */
  ghost predicate Keeps(f: Files, g: Files, kinds: set<Kind>)
  {
    forall p: Path :: p.kind !in kinds ==> Same(f, g, p)
  }

  /** Every file in `rs` is the same in both directories. */
  ghost predicate Agree(f: Files, g: Files, rs: set<Path>)
  {
    forall p :: p in rs ==> Same(f, g, p)
  }

  /** enc_given_state depends only on the files it names. */
  lemma EncFileAgree(c: Codec, f: Files, g: Files, input: Path, inputState: Path, pred: Path,
                     prevState: Option<Path>)
    requires Same(f, g, input) && Same(f, g, inputState) && Same(f, g, pred)
    requires prevState.Some? ==> Same(f, g, prevState.value)
    ensures EncFile(c, f, input, inputState, pred, prevState) == EncFile(c, g, input, inputState, pred, prevState)
  {
  }

  // ---------------------------------------------------------------------------
  // What each stage leaves in the directory, chunk by chunk

  /** decode_all, chunk i: dec_i holds the state vpx_i decodes to. */
  ghost predicate DecodedAt(c: Codec, f: Files, prefix: string, i: nat)
  {
    var s := DecodeFile(c, f, Path(prefix, Vpx, i));
    s.Ok? && Lookup(f, Path(prefix, Dec, i)) == Some(s.value)
  }

  /** encode_all's first pass, chunk i: chunk 0 is copied (vpx_00 to xc0_00 and
      dec_00 to enc0_00); chunk i > 0 is re-encoded from dec_(i-1) with vpx_i as
      prediction and no previous state. */
  ghost predicate FirstPassAt(c: Codec, f: Files, prefix: string, i: nat)
  {
    if i == 0 then
      && Lookup(f, Path(prefix, Vpx, 0)).Some? && Lookup(f, Path(prefix, Xc0, 0)) == Lookup(f, Path(prefix, Vpx, 0))
      && Lookup(f, Path(prefix, Dec, 0)).Some? && Lookup(f, Path(prefix, Enc0, 0)) == Lookup(f, Path(prefix, Dec, 0))
    else
      var r := EncFile(c, f, Path(prefix, Raw, i), Path(prefix, Dec, i - 1), Path(prefix, Vpx, i), None);
      && r.Ok?
      && Lookup(f, Path(prefix, Xc0, i)) == Some(r.value.ivf.buffer)
      && Lookup(f, Path(prefix, Enc0, i)) == Some(r.value.state)
  }

  /** The second pass, chunk i: chunk 0 is copied (xc0_00 to xc1_00 and enc0_00 to
      enc1_00); chunk i > 0 is re-encoded from enc0_(i-1) with xc0_i as prediction,
      replayed from dec_(i-1). */
  ghost predicate SecondPassAt(c: Codec, f: Files, prefix: string, i: nat)
  {
    if i == 0 then
      && Lookup(f, Path(prefix, Xc0, 0)).Some? && Lookup(f, Path(prefix, Xc1, 0)) == Lookup(f, Path(prefix, Xc0, 0))
      && Lookup(f, Path(prefix, Enc0, 0)).Some? && Lookup(f, Path(prefix, Enc1, 0)) == Lookup(f, Path(prefix, Enc0, 0))
    else
      var r := EncFile(c, f, Path(prefix, Raw, i), Path(prefix, Enc0, i - 1), Path(prefix, Xc0, i),
                       Some(Path(prefix, Dec, i - 1)));
      && r.Ok?
      && Lookup(f, Path(prefix, Xc1, i)) == Some(r.value.ivf.buffer)
      && Lookup(f, Path(prefix, Enc1, i)) == Some(r.value.state)
  }

  /** The rebase, chunk i: chunk 0 seeds the chain (xc1_00 to final_00 and enc0_00
      to rebased_00.state); chunk i > 0 is re-encoded from rebased_(i-1).state with
      xc1_i as prediction, replayed from enc0_(i-1), and final_i is final_(i-1)
      merged with rebased_i. */
  ghost predicate RebaseAt(c: Codec, f: Files, prefix: string, i: nat)
  {
    if i == 0 then
      && Lookup(f, Path(prefix, Xc1, 0)).Some? && Lookup(f, Path(prefix, Final, 0)) == Lookup(f, Path(prefix, Xc1, 0))
      && Lookup(f, Path(prefix, Enc0, 0)).Some?
      && Lookup(f, Path(prefix, RebasedState, 0)) == Lookup(f, Path(prefix, Enc0, 0))
    else
      RebaseEncodedAt(c, f, prefix, i) && RebaseMergedAt(f, prefix, i)
  }

  /** The re-encode of rebase chunk i: from rebased_(i-1).state, with xc1_i as
      prediction replayed from enc0_(i-1), into rebased_i and rebased_i.state. */
  ghost predicate RebaseEncodedAt(c: Codec, f: Files, prefix: string, i: nat)
  {
    var r := EncFile(c, f, Path(prefix, Raw, i), Path(prefix, RebasedState, Pred(i)), Path(prefix, Xc1, i),
                     Some(Path(prefix, Enc0, Pred(i))));
    && r.Ok?
    && Lookup(f, Path(prefix, Rebased, i)) == Some(r.value.ivf.buffer)
    && Lookup(f, Path(prefix, RebasedState, i)) == Some(r.value.state)
  }

  /** The merge of rebase chunk i: final_i is final_(i-1) followed by rebased_i. */
  ghost predicate RebaseMergedAt(f: Files, prefix: string, i: nat)
  {
    var m := MergeFile(f, Path(prefix, Final, Pred(i)), Path(prefix, Rebased, i));
    m.Ok? && Lookup(f, Path(prefix, Final, i)) == Some(m.value.buffer)
  }

  // ---------------------------------------------------------------------------
  // Where each stage stops when a step throws

  /** decode_all throws at chunk i: every earlier chunk is decoded and vpx_i does
      not decode, with error e. */
  ghost predicate DecodeFailsAt(c: Codec, f: Files, prefix: string, i: nat, e: Error)
  {
    && (forall j :: 0 <= j < i ==> DecodedAt(c, f, prefix, j))
    && DecodeFile(c, f, Path(prefix, Vpx, i)) == Err(e)
  }

  /** The first pass throws at chunk i: every earlier chunk is done; at chunk 0 one
      of the two copies finds its source missing, at chunk i > 0 the encode fails. */
  ghost predicate FirstPassFailsAt(c: Codec, f: Files, prefix: string, i: nat, e: Error)
  {
    && (forall j :: 0 <= j < i ==> FirstPassAt(c, f, prefix, j))
    && if i == 0 then
         || (Lookup(f, Path(prefix, Vpx, 0)).None? && e == NoFile(Name(Path(prefix, Vpx, 0))))
         || (&& Lookup(f, Path(prefix, Vpx, 0)).Some? && Lookup(f, Path(prefix, Xc0, 0)) == Lookup(f, Path(prefix, Vpx, 0))
             && Lookup(f, Path(prefix, Dec, 0)).None? && e == NoFile(Name(Path(prefix, Dec, 0))))
       else
         EncFile(c, f, Path(prefix, Raw, i), Path(prefix, Dec, i - 1), Path(prefix, Vpx, i), None) == Err(e)
  }

  /** The second pass throws at chunk i, in the same way. */
  ghost predicate SecondPassFailsAt(c: Codec, f: Files, prefix: string, i: nat, e: Error)
  {
    && (forall j :: 0 <= j < i ==> SecondPassAt(c, f, prefix, j))
    && if i == 0 then
         || (Lookup(f, Path(prefix, Xc0, 0)).None? && e == NoFile(Name(Path(prefix, Xc0, 0))))
         || (&& Lookup(f, Path(prefix, Xc0, 0)).Some? && Lookup(f, Path(prefix, Xc1, 0)) == Lookup(f, Path(prefix, Xc0, 0))
             && Lookup(f, Path(prefix, Enc0, 0)).None? && e == NoFile(Name(Path(prefix, Enc0, 0))))
       else
         EncFile(c, f, Path(prefix, Raw, i), Path(prefix, Enc0, i - 1), Path(prefix, Xc0, i),
                 Some(Path(prefix, Dec, i - 1))) == Err(e)
  }

  /** The rebase throws at chunk i: every earlier chunk is rebased; at chunk 0 one
      of the two copies finds its source missing; at chunk i > 0 the encode fails,
      or it succeeds (rebased_i and its state are written) and the merge fails. */
  ghost predicate RebaseFailsAt(c: Codec, f: Files, prefix: string, i: nat, e: Error)
  {
    && (forall j :: 0 <= j < i ==> RebaseAt(c, f, prefix, j))
    && if i == 0 then
         || (Lookup(f, Path(prefix, Xc1, 0)).None? && e == NoFile(Name(Path(prefix, Xc1, 0))))
         || (&& Lookup(f, Path(prefix, Xc1, 0)).Some? && Lookup(f, Path(prefix, Final, 0)) == Lookup(f, Path(prefix, Xc1, 0))
             && Lookup(f, Path(prefix, Enc0, 0)).None? && e == NoFile(Name(Path(prefix, Enc0, 0))))
       else
         || EncFile(c, f, Path(prefix, Raw, i), Path(prefix, RebasedState, Pred(i)), Path(prefix, Xc1, i),
                    Some(Path(prefix, Enc0, Pred(i)))) == Err(e)
         || (RebaseEncodedAt(c, f, prefix, i) && MergeFile(f, Path(prefix, Final, Pred(i)), Path(prefix, Rebased, i)) == Err(e))
  }

  ghost predicate DecodeAllFailed(c: Codec, f: Files, prefix: string, e: Error)
  {
    exists i :: 0 <= i < N && DecodeFailsAt(c, f, prefix, i, e)
  }

  ghost predicate FirstPassFailed(c: Codec, f: Files, prefix: string, e: Error)
  {
    exists i :: 0 <= i < N && FirstPassFailsAt(c, f, prefix, i, e)
  }

  ghost predicate SecondPassFailed(c: Codec, f: Files, prefix: string, e: Error)
  {
    exists i :: 0 <= i < N && SecondPassFailsAt(c, f, prefix, i, e)
  }

  /** encode_all throws in its first pass, or after a complete first pass in its
      second. */
  ghost predicate EncodeAllFailed(c: Codec, f: Files, prefix: string, e: Error)
  {
    || FirstPassFailed(c, f, prefix, e)
    || ((forall i :: 0 <= i < N ==> FirstPassAt(c, f, prefix, i)) && SecondPassFailed(c, f, prefix, e))
  }

  ghost predicate RebaseFailed(c: Codec, f: Files, prefix: string, e: Error)
  {
    exists i :: 0 <= i < N && RebaseFailsAt(c, f, prefix, i, e)
  }

  /** The files each chunk's predicate looks at: files of chunk i and of its
      predecessor, of the kinds given. */
  function Reads(prefix: string, i: nat, kinds: set<Kind>): (r: set<Path>)
    ensures forall p :: p in r ==> p.index <= i && p.kind in kinds
  {
    set k, j | k in kinds && j in {Pred(i), i} :: Path(prefix, k, j)
  }

  const DecodeKinds: set<Kind> := {Vpx, Dec}
  const FirstPassKinds: set<Kind> := {Raw, Vpx, Dec, Xc0, Enc0}
  const SecondPassKinds: set<Kind> := {Raw, Dec, Xc0, Enc0, Xc1, Enc1}
  const RebaseKinds: set<Kind> := {Raw, Enc0, Xc1, Rebased, RebasedState, Final}

  /** Each chunk's predicate depends only on the files it looks at. */
  lemma DecodedKept(c: Codec, f: Files, g: Files, prefix: string, i: nat)
    requires DecodedAt(c, f, prefix, i) && Agree(f, g, Reads(prefix, i, DecodeKinds))
    ensures DecodedAt(c, g, prefix, i)
  {
    assert Path(prefix, Vpx, i) in Reads(prefix, i, DecodeKinds);
    assert Path(prefix, Dec, i) in Reads(prefix, i, DecodeKinds);
  }

  lemma FirstPassKept(c: Codec, f: Files, g: Files, prefix: string, i: nat)
    requires FirstPassAt(c, f, prefix, i) && Agree(f, g, Reads(prefix, i, FirstPassKinds))
    ensures FirstPassAt(c, g, prefix, i)
  {
    var rs := Reads(prefix, i, FirstPassKinds);
    assert Path(prefix, Raw, i) in rs && Path(prefix, Vpx, i) in rs && Path(prefix, Dec, i) in rs;
    assert Path(prefix, Xc0, i) in rs && Path(prefix, Enc0, i) in rs && Path(prefix, Dec, Pred(i)) in rs;
    if i > 0 {
      EncFileAgree(c, f, g, Path(prefix, Raw, i), Path(prefix, Dec, i - 1), Path(prefix, Vpx, i), None);
    }
  }

  lemma SecondPassKept(c: Codec, f: Files, g: Files, prefix: string, i: nat)
    requires SecondPassAt(c, f, prefix, i) && Agree(f, g, Reads(prefix, i, SecondPassKinds))
    ensures SecondPassAt(c, g, prefix, i)
  {
    var rs := Reads(prefix, i, SecondPassKinds);
    assert Path(prefix, Raw, i) in rs && Path(prefix, Xc0, i) in rs && Path(prefix, Enc0, i) in rs;
    assert Path(prefix, Xc1, i) in rs && Path(prefix, Enc1, i) in rs;
    assert Path(prefix, Dec, Pred(i)) in rs && Path(prefix, Enc0, Pred(i)) in rs;
    if i > 0 {
      EncFileAgree(c, f, g, Path(prefix, Raw, i), Path(prefix, Enc0, i - 1), Path(prefix, Xc0, i),
                   Some(Path(prefix, Dec, i - 1)));
    }
  }

  lemma RebaseKept(c: Codec, f: Files, g: Files, prefix: string, i: nat)
    requires RebaseAt(c, f, prefix, i) && Agree(f, g, Reads(prefix, i, RebaseKinds))
    ensures RebaseAt(c, g, prefix, i)
  {
    var rs := Reads(prefix, i, RebaseKinds);
    assert Path(prefix, Raw, i) in rs && Path(prefix, Enc0, i) in rs && Path(prefix, Xc1, i) in rs;
    assert Path(prefix, Rebased, i) in rs && Path(prefix, RebasedState, i) in rs && Path(prefix, Final, i) in rs;
    assert Path(prefix, Enc0, Pred(i)) in rs && Path(prefix, RebasedState, Pred(i)) in rs;
    assert Path(prefix, Final, Pred(i)) in rs;
    if i > 0 {
      EncFileAgree(c, f, g, Path(prefix, Raw, i), Path(prefix, RebasedState, Pred(i)), Path(prefix, Xc1, i),
                   Some(Path(prefix, Enc0, Pred(i))));
    }
  }

  /** Every file of a chunk below `i` is the same in both directories. */
  ghost predicate SameBelow(f: Files, g: Files, i: nat)
  {
    forall p: Path :: p.index < i ==> Same(f, g, p)
  }

  /** Writing files of chunk i or later keeps what every earlier chunk's
      predicate says. */
  lemma DecodedBelow(c: Codec, f: Files, g: Files, prefix: string, i: nat)
    requires SameBelow(f, g, i) && forall j :: 0 <= j < i ==> DecodedAt(c, f, prefix, j)
    ensures forall j :: 0 <= j < i ==> DecodedAt(c, g, prefix, j)
  {
    forall j | 0 <= j < i
      ensures DecodedAt(c, g, prefix, j)
    {
      DecodedKept(c, f, g, prefix, j);
    }
  }

  lemma FirstPassBelow(c: Codec, f: Files, g: Files, prefix: string, i: nat)
    requires SameBelow(f, g, i) && forall j :: 0 <= j < i ==> FirstPassAt(c, f, prefix, j)
    ensures forall j :: 0 <= j < i ==> FirstPassAt(c, g, prefix, j)
  {
    forall j | 0 <= j < i
      ensures FirstPassAt(c, g, prefix, j)
    {
      FirstPassKept(c, f, g, prefix, j);
    }
  }

  lemma SecondPassBelow(c: Codec, f: Files, g: Files, prefix: string, i: nat)
    requires SameBelow(f, g, i) && forall j :: 0 <= j < i ==> SecondPassAt(c, f, prefix, j)
    ensures forall j :: 0 <= j < i ==> SecondPassAt(c, g, prefix, j)
  {
    forall j | 0 <= j < i
      ensures SecondPassAt(c, g, prefix, j)
    {
      SecondPassKept(c, f, g, prefix, j);
    }
  }

  lemma RebaseBelow(c: Codec, f: Files, g: Files, prefix: string, i: nat)
    requires SameBelow(f, g, i) && forall j :: 0 <= j < i ==> RebaseAt(c, f, prefix, j)
    ensures forall j :: 0 <= j < i ==> RebaseAt(c, g, prefix, j)
  {
    forall j | 0 <= j < i
      ensures RebaseAt(c, g, prefix, j)
    {
      RebaseKept(c, f, g, prefix, j);
    }
  }

  /** A file of a kind that a stage does not write is kept by that stage. */
  lemma KeptAcross(f: Files, g: Files, kinds: set<Kind>, rs: set<Path>, readKinds: set<Kind>)
    requires Keeps(f, g, kinds) && readKinds !! kinds
    requires forall p :: p in rs ==> p.kind in readKinds
    ensures Agree(f, g, rs)
  {
    forall p | p in rs
      ensures Same(f, g, p)
    {
      assert p.kind !in kinds;
    }
  }

  // ---------------------------------------------------------------------------
  // The directory

  class FileSystem {
    var files: Files

    constructor (files: Files)
      ensures this.files == files
    {
      this.files := files;
    }

    /** fs::copy(from, to): a missing source throws. */
    method Copy(from: Path, to: Path) returns (failure: Option<Error>)
      modifies this
      ensures from !in old(files) ==> failure == Some(NoFile(Name(from))) && files == old(files)
      ensures from in old(files) ==> failure.None? && files == old(files)[to := old(files)[from]]
    {
      if from !in files {
        return Some(NoFile(Name(from)));
      }
      files := files[to := files[from]];
      return None;
    }

    method ReadIvfFile(p: Path) returns (r: Result<Ivf, Error>)
      ensures r == ReadIvf(files, p)
    {
      if p !in files {
        return Err(NoFile(Name(p)));
      }
      r := IvfMem.ParseBuffer(files[p]);
    }

    /** decode(input, output): the state is written to `output` only on success. */
    method DecodeToFile(c: Codec, input: Path, output: Path) returns (failure: Option<Error>)
      modifies this
      ensures var r := DecodeFile(c, old(files), input);
        && (r.Ok? ==> failure.None? && files == old(files)[output := r.value])
        && (r.Err? ==> failure == Some(r.error) && files == old(files))
    {
      var v := ReadIvfFile(input);
      if v.Err? {
        return Some(v.error);
      }
      var s := Decode(c, v.value);
      if s.Err? {
        return Some(s.error);
      }
      files := files[output := s.value];
      return None;
    }

    /** enc_given_state with file names; the previous state is optional ("" in the
        source means none). The container and the state are written on success. */
    method EncGivenStateFiles(c: Codec, input: Path, output: Path, inputState: Path, outputState: Path,
                              pred: Path, prevState: Option<Path>)
      returns (failure: Option<Error>)
      modifies this
      ensures var r := EncFile(c, old(files), input, inputState, pred, prevState);
        && (r.Ok? ==> failure.None? && files == old(files)[output := r.value.ivf.buffer][outputState := r.value.state])
        && (r.Err? ==> failure == Some(r.error) && files == old(files))
    {
      if input !in files {
        return Some(NoFile(Name(input)));
      }
      var y := c.readY4m(files[input]);
      var prev: Option<State> := None;
      if prevState.Some? {
        if prevState.value !in files {
          return Some(NoFile(Name(prevState.value)));
        }
        prev := Some(files[prevState.value]);
      }
      var p := ReadIvfFile(pred);
      if p.Err? {
        return Some(p.error);
      }
      if c.hash(PredStart(c, prev, y.width, y.height)) != p.value.minihash {
        return Some(Invalid("Mismatch between prediction IVF and prediction_ivf_initial_state"));
      }
      var frames := Frames(p.value);
      if frames.Err? {
        return Some(frames.error);
      }
      if inputState !in files {
        return Some(NoFile(Name(inputState)));
      }
      var o := EncGivenState(c, files[inputState], prev, p.value, y.rasters, y.width, y.height);
      files := files[output := o.value.ivf.buffer][outputState := o.value.state];
      return None;
    }

    /** merge(input1, input2, output). */
    method MergeFiles(a: Path, b: Path, output: Path) returns (failure: Option<Error>)
      modifies this
      ensures var r := MergeFile(old(files), a, b);
        && (r.Ok? ==> failure.None? && files == old(files)[output := r.value.buffer])
        && (r.Err? ==> failure == Some(r.error) && files == old(files))
    {
      var x := ReadIvfFile(a);
      if x.Err? {
        return Some(x.error);
      }
      var y := ReadIvfFile(b);
      if y.Err? {
        return Some(y.error);
      }
      var m := Merge(x.value, y.value);
      if m.Err? {
        return Some(m.error);
      }
      files := files[output := m.value.buffer];
      return None;
    }

    // -------------------------------------------------------------------------
    // The stages

    /** decode_all: vpx_i decoded into dec_i for i = 0..N-1. */
    method DecodeAll(c: Codec, prefix: string) returns (failure: Option<Error>)
      modifies this
      ensures Keeps(old(files), files, {Dec})
      ensures failure.None? ==> forall i :: 0 <= i < N ==> DecodedAt(c, files, prefix, i)
      ensures failure.Some? ==> DecodeAllFailed(c, files, prefix, failure.value)
    {
      var i := 0;
      while i < N
        invariant 0 <= i <= N
        invariant Keeps(old(files), files, {Dec})
        invariant forall j :: 0 <= j < i ==> DecodedAt(c, files, prefix, j)
      {
        ghost var f := files;
        failure := DecodeToFile(c, Path(prefix, Vpx, i), Path(prefix, Dec, i));
        if failure.Some? {
          assert DecodeFailsAt(c, files, prefix, i, failure.value);
          return;
        }
        DecodeStep(c, f, files, prefix, i);
        i := i + 1;
      }
      return None;
    }

    /** The first pass of encode_all. */
    method FirstPass(c: Codec, prefix: string) returns (failure: Option<Error>)
      modifies this
      ensures Keeps(old(files), files, {Xc0, Enc0})
      ensures failure.None? ==> forall i :: 0 <= i < N ==> FirstPassAt(c, files, prefix, i)
      ensures failure.Some? ==> FirstPassFailed(c, files, prefix, failure.value)
    {
      var i := 0;
      while i < N
        invariant 0 <= i <= N
        invariant Keeps(old(files), files, {Xc0, Enc0})
        invariant forall j :: 0 <= j < i ==> FirstPassAt(c, files, prefix, j)
      {
        ghost var f := files;
        if i == 0 {
          failure := Copy(Path(prefix, Vpx, i), Path(prefix, Xc0, i));
          if failure.Some? {
            assert FirstPassFailsAt(c, files, prefix, i, failure.value);
            return;
          }
          failure := Copy(Path(prefix, Dec, Pred(i)), Path(prefix, Enc0, i));
          if failure.Some? {
            assert FirstPassFailsAt(c, files, prefix, i, failure.value);
            return;
          }
          FirstPassFirstStep(c, f, files, prefix);
        } else {
          failure := EncGivenStateFiles(c, Path(prefix, Raw, i), Path(prefix, Xc0, i), Path(prefix, Dec, Pred(i)),
                                        Path(prefix, Enc0, i), Path(prefix, Vpx, i), None);
          if failure.Some? {
            assert FirstPassFailsAt(c, files, prefix, i, failure.value);
            return;
          }
          FirstPassStep(c, f, files, prefix, i);
        }
        i := i + 1;
      }
      return None;
    }

    /** The second pass of encode_all. */
    method SecondPass(c: Codec, prefix: string) returns (failure: Option<Error>)
      modifies this
      ensures Keeps(old(files), files, {Xc1, Enc1})
      ensures failure.None? ==> forall i :: 0 <= i < N ==> SecondPassAt(c, files, prefix, i)
      ensures failure.Some? ==> SecondPassFailed(c, files, prefix, failure.value)
    {
      var i := 0;
      while i < N
        invariant 0 <= i <= N
        invariant Keeps(old(files), files, {Xc1, Enc1})
        invariant forall j :: 0 <= j < i ==> SecondPassAt(c, files, prefix, j)
      {
        ghost var f := files;
        if i == 0 {
          failure := Copy(Path(prefix, Xc0, i), Path(prefix, Xc1, i));
          if failure.Some? {
            assert SecondPassFailsAt(c, files, prefix, i, failure.value);
            return;
          }
          failure := Copy(Path(prefix, Enc0, Pred(i)), Path(prefix, Enc1, i));
          if failure.Some? {
            assert SecondPassFailsAt(c, files, prefix, i, failure.value);
            return;
          }
          SecondPassFirstStep(c, f, files, prefix);
        } else {
          failure := EncGivenStateFiles(c, Path(prefix, Raw, i), Path(prefix, Xc1, i), Path(prefix, Enc0, Pred(i)),
                                        Path(prefix, Enc1, i), Path(prefix, Xc0, i), Some(Path(prefix, Dec, Pred(i))));
          if failure.Some? {
            assert SecondPassFailsAt(c, files, prefix, i, failure.value);
            return;
          }
          SecondPassStep(c, f, files, prefix, i);
        }
        i := i + 1;
      }
      return None;
    }

    /** encode_all: the first pass over every chunk, then the second. */
    method EncodeAll(c: Codec, prefix: string) returns (failure: Option<Error>)
      modifies this
      ensures Keeps(old(files), files, {Xc0, Enc0, Xc1, Enc1})
      ensures failure.None? ==> forall i :: 0 <= i < N ==>
        FirstPassAt(c, files, prefix, i) && SecondPassAt(c, files, prefix, i)
      ensures failure.Some? ==> EncodeAllFailed(c, files, prefix, failure.value)
    {
      failure := FirstPass(c, prefix);
      if failure.Some? {
        return;
      }
      ghost var f := files;
      failure := SecondPass(c, prefix);
      FirstPassAcross(c, f, files, prefix, {Xc1, Enc1});
    }

    /** rebase: the serial chain; chunk 0 is copied, then chunk i is re-encoded and
        merged onto final_(i-1). */
    method Rebase(c: Codec, prefix: string) returns (failure: Option<Error>)
      modifies this
      ensures Keeps(old(files), files, {Rebased, RebasedState, Final})
      ensures failure.None? ==> forall i :: 0 <= i < N ==> RebaseAt(c, files, prefix, i)
      ensures failure.Some? ==> RebaseFailed(c, files, prefix, failure.value)
    {
      var i := 0;
      while i < N
        invariant 0 <= i <= N
        invariant Keeps(old(files), files, {Rebased, RebasedState, Final})
        invariant forall j :: 0 <= j < i ==> RebaseAt(c, files, prefix, j)
      {
        ghost var f := files;
        if i == 0 {
          failure := Copy(Path(prefix, Xc1, i), Path(prefix, Final, i));
          if failure.Some? {
            assert RebaseFailsAt(c, files, prefix, i, failure.value);
            return;
          }
          failure := Copy(Path(prefix, Enc0, Pred(i)), Path(prefix, RebasedState, i));
          if failure.Some? {
            assert RebaseFailsAt(c, files, prefix, i, failure.value);
            return;
          }
          RebaseFirstStep(c, f, files, prefix);
        } else {
          failure := EncGivenStateFiles(c, Path(prefix, Raw, i), Path(prefix, Rebased, i),
                                        Path(prefix, RebasedState, Pred(i)), Path(prefix, RebasedState, i),
                                        Path(prefix, Xc1, i), Some(Path(prefix, Enc0, Pred(i))));
          if failure.Some? {
            assert RebaseFailsAt(c, files, prefix, i, failure.value);
            return;
          }
          ghost var g := files;
          failure := MergeFiles(Path(prefix, Final, Pred(i)), Path(prefix, Rebased, i), Path(prefix, Final, i));
          if failure.Some? {
            RebaseMergeFails(c, f, files, prefix, i, failure.value);
            return;
          }
          RebaseStep(c, f, g, files, prefix, i);
        }
        i := i + 1;
      }
      return None;
    }
  }

  // ---------------------------------------------------------------------------
  // One step of each stage keeps the earlier chunks and adds chunk i

  lemma DecodeStep(c: Codec, f: Files, g: Files, prefix: string, i: nat)
    requires forall j :: 0 <= j < i ==> DecodedAt(c, f, prefix, j)
    requires var s := DecodeFile(c, f, Path(prefix, Vpx, i));
      s.Ok? && g == f[Path(prefix, Dec, i) := s.value]
    ensures forall j :: 0 <= j < i + 1 ==> DecodedAt(c, g, prefix, j)
  {
    assert SameBelow(f, g, i);
    DecodedBelow(c, f, g, prefix, i);
    assert Same(f, g, Path(prefix, Vpx, i));
  }

  /** Writing two files of chunk i or later keeps every file of an earlier chunk. */
  lemma WrittenAt(f: Files, x: Path, a: seq<byte>, y: Path, b: seq<byte>, i: nat)
    requires x.index >= i && y.index >= i
    ensures SameBelow(f, f[x := a][y := b], i)
  {
  }

  /** Chunk 0 of the first pass: the copies. */
  lemma FirstPassFirstStep(c: Codec, f: Files, g: Files, prefix: string)
    requires Path(prefix, Vpx, 0) in f && Path(prefix, Dec, 0) in f
    requires g == f[Path(prefix, Xc0, 0) := f[Path(prefix, Vpx, 0)]][Path(prefix, Enc0, 0) := f[Path(prefix, Dec, 0)]]
    ensures FirstPassAt(c, g, prefix, 0)
  {
  }

  /** Chunk i > 0 of the first pass: the encode writes xc0_i and enc0_i. */
  lemma FirstPassStep(c: Codec, f: Files, g: Files, prefix: string, i: nat)
    requires i > 0 && forall j :: 0 <= j < i ==> FirstPassAt(c, f, prefix, j)
    requires var r := EncFile(c, f, Path(prefix, Raw, i), Path(prefix, Dec, i - 1), Path(prefix, Vpx, i), None);
      r.Ok? && g == f[Path(prefix, Xc0, i) := r.value.ivf.buffer][Path(prefix, Enc0, i) := r.value.state]
    ensures forall j :: 0 <= j < i + 1 ==> FirstPassAt(c, g, prefix, j)
  {
    WrittenAt(f, Path(prefix, Xc0, i), g[Path(prefix, Xc0, i)], Path(prefix, Enc0, i), g[Path(prefix, Enc0, i)], i);
    FirstPassBelow(c, f, g, prefix, i);
    EncFileAgree(c, f, g, Path(prefix, Raw, i), Path(prefix, Dec, i - 1), Path(prefix, Vpx, i), None);
  }

  /** Chunk 0 of the second pass: the copies. */
  lemma SecondPassFirstStep(c: Codec, f: Files, g: Files, prefix: string)
    requires Path(prefix, Xc0, 0) in f && Path(prefix, Enc0, 0) in f
    requires g == f[Path(prefix, Xc1, 0) := f[Path(prefix, Xc0, 0)]][Path(prefix, Enc1, 0) := f[Path(prefix, Enc0, 0)]]
    ensures SecondPassAt(c, g, prefix, 0)
  {
  }

  /** Chunk i > 0 of the second pass: the encode writes xc1_i and enc1_i. */
  lemma SecondPassStep(c: Codec, f: Files, g: Files, prefix: string, i: nat)
    requires i > 0 && forall j :: 0 <= j < i ==> SecondPassAt(c, f, prefix, j)
    requires var r := EncFile(c, f, Path(prefix, Raw, i), Path(prefix, Enc0, i - 1), Path(prefix, Xc0, i),
                              Some(Path(prefix, Dec, i - 1)));
      r.Ok? && g == f[Path(prefix, Xc1, i) := r.value.ivf.buffer][Path(prefix, Enc1, i) := r.value.state]
    ensures forall j :: 0 <= j < i + 1 ==> SecondPassAt(c, g, prefix, j)
  {
    WrittenAt(f, Path(prefix, Xc1, i), g[Path(prefix, Xc1, i)], Path(prefix, Enc1, i), g[Path(prefix, Enc1, i)], i);
    SecondPassBelow(c, f, g, prefix, i);
    EncFileAgree(c, f, g, Path(prefix, Raw, i), Path(prefix, Enc0, i - 1), Path(prefix, Xc0, i),
                 Some(Path(prefix, Dec, i - 1)));
  }

  /** Chunk 0 of the rebase seeds the chain with copies. */
  lemma RebaseFirstStep(c: Codec, f: Files, g: Files, prefix: string)
    requires Path(prefix, Xc1, 0) in f && Path(prefix, Enc0, 0) in f
    requires g == f[Path(prefix, Final, 0) := f[Path(prefix, Xc1, 0)]]
                   [Path(prefix, RebasedState, 0) := f[Path(prefix, Enc0, 0)]]
    ensures RebaseAt(c, g, prefix, 0)
  {
  }

  /** Chunk i > 0 of the rebase: the encode writes rebased_i and rebased_i.state,
      then the merge reads final_(i-1) and rebased_i and writes final_i. */
  lemma RebaseStep(c: Codec, f: Files, g: Files, h: Files, prefix: string, i: nat)
    requires i > 0 && forall j :: 0 <= j < i ==> RebaseAt(c, f, prefix, j)
    requires var r := EncFile(c, f, Path(prefix, Raw, i), Path(prefix, RebasedState, Pred(i)), Path(prefix, Xc1, i),
                              Some(Path(prefix, Enc0, Pred(i))));
      r.Ok? && g == f[Path(prefix, Rebased, i) := r.value.ivf.buffer][Path(prefix, RebasedState, i) := r.value.state]
    requires var m := MergeFile(g, Path(prefix, Final, Pred(i)), Path(prefix, Rebased, i));
      m.Ok? && h == g[Path(prefix, Final, i) := m.value.buffer]
    ensures forall j :: 0 <= j < i + 1 ==> RebaseAt(c, h, prefix, j)
  {
    WrittenAt(f, Path(prefix, Rebased, i), g[Path(prefix, Rebased, i)],
              Path(prefix, RebasedState, i), g[Path(prefix, RebasedState, i)], i);
    RebaseBelow(c, f, g, prefix, i);
    WrittenAt(g, Path(prefix, Final, i), h[Path(prefix, Final, i)], Path(prefix, Final, i), h[Path(prefix, Final, i)], i);
    RebaseBelow(c, g, h, prefix, i);
    RebaseNewChunk(c, f, g, h, prefix, i);
  }

  /** Chunk i > 0 of the rebase whose merge throws: the encode has written its two
      files and every earlier chunk is kept. */
  lemma RebaseMergeFails(c: Codec, f: Files, g: Files, prefix: string, i: nat, e: Error)
    requires i > 0 && forall j :: 0 <= j < i ==> RebaseAt(c, f, prefix, j)
    requires var r := EncFile(c, f, Path(prefix, Raw, i), Path(prefix, RebasedState, Pred(i)), Path(prefix, Xc1, i),
                              Some(Path(prefix, Enc0, Pred(i))));
      r.Ok? && g == f[Path(prefix, Rebased, i) := r.value.ivf.buffer][Path(prefix, RebasedState, i) := r.value.state]
    requires MergeFile(g, Path(prefix, Final, Pred(i)), Path(prefix, Rebased, i)) == Err(e)
    ensures RebaseFailsAt(c, g, prefix, i, e)
  {
    WrittenAt(f, Path(prefix, Rebased, i), g[Path(prefix, Rebased, i)],
              Path(prefix, RebasedState, i), g[Path(prefix, RebasedState, i)], i);
    RebaseBelow(c, f, g, prefix, i);
    RebaseEncodeWritten(c, f, g, prefix, i);
  }

  /** Chunk i > 0 of the rebase holds once both its files are written. */
  lemma RebaseNewChunk(c: Codec, f: Files, g: Files, h: Files, prefix: string, i: nat)
    requires i > 0
    requires var r := EncFile(c, f, Path(prefix, Raw, i), Path(prefix, RebasedState, Pred(i)), Path(prefix, Xc1, i),
                              Some(Path(prefix, Enc0, Pred(i))));
      r.Ok? && g == f[Path(prefix, Rebased, i) := r.value.ivf.buffer][Path(prefix, RebasedState, i) := r.value.state]
    requires var m := MergeFile(g, Path(prefix, Final, Pred(i)), Path(prefix, Rebased, i));
      m.Ok? && h == g[Path(prefix, Final, i) := m.value.buffer]
    ensures RebaseAt(c, h, prefix, i)
  {
    RebaseEncodeWritten(c, f, g, prefix, i);
    RebaseMergeWritten(c, g, h, prefix, i);
  }

  lemma RebaseEncodeWritten(c: Codec, f: Files, g: Files, prefix: string, i: nat)
    requires i > 0
    requires var r := EncFile(c, f, Path(prefix, Raw, i), Path(prefix, RebasedState, Pred(i)), Path(prefix, Xc1, i),
                              Some(Path(prefix, Enc0, Pred(i))));
      r.Ok? && g == f[Path(prefix, Rebased, i) := r.value.ivf.buffer][Path(prefix, RebasedState, i) := r.value.state]
    ensures RebaseEncodedAt(c, g, prefix, i)
  {
    EncFileAgree(c, f, g, Path(prefix, Raw, i), Path(prefix, RebasedState, Pred(i)), Path(prefix, Xc1, i),
                 Some(Path(prefix, Enc0, Pred(i))));
  }

  lemma RebaseMergeWritten(c: Codec, g: Files, h: Files, prefix: string, i: nat)
    requires i > 0 && RebaseEncodedAt(c, g, prefix, i)
    requires var m := MergeFile(g, Path(prefix, Final, Pred(i)), Path(prefix, Rebased, i));
      m.Ok? && h == g[Path(prefix, Final, i) := m.value.buffer]
    ensures RebaseEncodedAt(c, h, prefix, i) && RebaseMergedAt(h, prefix, i)
  {
    assert Same(g, h, Path(prefix, Raw, i)) && Same(g, h, Path(prefix, Xc1, i));
    assert Same(g, h, Path(prefix, RebasedState, Pred(i))) && Same(g, h, Path(prefix, Enc0, Pred(i)));
    assert Same(g, h, Path(prefix, Rebased, i)) && Same(g, h, Path(prefix, RebasedState, i));
    EncFileAgree(c, g, h, Path(prefix, Raw, i), Path(prefix, RebasedState, Pred(i)), Path(prefix, Xc1, i),
                 Some(Path(prefix, Enc0, Pred(i))));
    assert Same(g, h, Path(prefix, Final, Pred(i)));
  }

  /** The kinds of every file the pipeline writes; the raw chunks and the VP8 files
      are never written. */
  const Written: set<Kind> := {Dec, Xc0, Enc0, Xc1, Enc1, Rebased, RebasedState, Final}

  /** main: exactly one argument, the input directory; the prefix is that
      directory + "/sintel01_". An exception thrown by a stage ends the program,
      which is the `Err` outcome here; the usage message goes to standard error. */
  method Run(c: Codec, fs: FileSystem, args: seq<string>) returns (r: Result<int, Error>)
    modifies fs
    ensures |args| != 2 ==> r == Ok(1) && fs.files == old(fs.files)
    ensures |args| == 2 ==> Keeps(old(fs.files), fs.files, Written)
    ensures |args| == 2 && r.Ok? ==> (r.value == 0 &&
      var prefix := args[1] + "/sintel01_";
      forall i :: 0 <= i < N ==>
        && DecodedAt(c, fs.files, prefix, i) && FirstPassAt(c, fs.files, prefix, i)
        && SecondPassAt(c, fs.files, prefix, i) && RebaseAt(c, fs.files, prefix, i))
    ensures |args| == 2 && r.Err? ==> (
      var prefix := args[1] + "/sintel01_";
      || DecodeAllFailed(c, fs.files, prefix, r.error)
      || ((forall i :: 0 <= i < N ==> DecodedAt(c, fs.files, prefix, i))
          && EncodeAllFailed(c, fs.files, prefix, r.error))
      || ((forall i :: 0 <= i < N ==>
             DecodedAt(c, fs.files, prefix, i) && FirstPassAt(c, fs.files, prefix, i)
             && SecondPassAt(c, fs.files, prefix, i))
          && RebaseFailed(c, fs.files, prefix, r.error)))
  {
    if |args| != 2 {
      return Ok(1);
    }
    var prefix := args[1] + "/sintel01_";
    var failure := fs.DecodeAll(c, prefix);
    if failure.Some? {
      return Err(failure.value);
    }
    ghost var f1 := fs.files;
    failure := fs.EncodeAll(c, prefix);
    if failure.Some? {
      DecodedAcross(c, f1, fs.files, prefix, {Xc0, Enc0, Xc1, Enc1});
      return Err(failure.value);
    }
    ghost var f2 := fs.files;
    failure := fs.Rebase(c, prefix);
    AllKept(c, f1, f2, fs.files, prefix);
    if failure.Some? {
      return Err(failure.value);
    }
    return Ok(0);
  }

  /** A stage that writes none of the kinds a chunk's predicate reads keeps it. */
  lemma DecodedAcross(c: Codec, f: Files, g: Files, prefix: string, kinds: set<Kind>)
    requires Keeps(f, g, kinds) && kinds !! DecodeKinds
    requires forall i :: 0 <= i < N ==> DecodedAt(c, f, prefix, i)
    ensures forall i :: 0 <= i < N ==> DecodedAt(c, g, prefix, i)
  {
    forall i | 0 <= i < N
      ensures DecodedAt(c, g, prefix, i)
    {
      KeptAcross(f, g, kinds, Reads(prefix, i, DecodeKinds), DecodeKinds);
      DecodedKept(c, f, g, prefix, i);
    }
  }

  lemma FirstPassAcross(c: Codec, f: Files, g: Files, prefix: string, kinds: set<Kind>)
    requires Keeps(f, g, kinds) && kinds !! FirstPassKinds
    requires forall i :: 0 <= i < N ==> FirstPassAt(c, f, prefix, i)
    ensures forall i :: 0 <= i < N ==> FirstPassAt(c, g, prefix, i)
  {
    forall i | 0 <= i < N
      ensures FirstPassAt(c, g, prefix, i)
    {
      KeptAcross(f, g, kinds, Reads(prefix, i, FirstPassKinds), FirstPassKinds);
      FirstPassKept(c, f, g, prefix, i);
    }
  }

  lemma SecondPassAcross(c: Codec, f: Files, g: Files, prefix: string, kinds: set<Kind>)
    requires Keeps(f, g, kinds) && kinds !! SecondPassKinds
    requires forall i :: 0 <= i < N ==> SecondPassAt(c, f, prefix, i)
    ensures forall i :: 0 <= i < N ==> SecondPassAt(c, g, prefix, i)
  {
    forall i | 0 <= i < N
      ensures SecondPassAt(c, g, prefix, i)
    {
      KeptAcross(f, g, kinds, Reads(prefix, i, SecondPassKinds), SecondPassKinds);
      SecondPassKept(c, f, g, prefix, i);
    }
  }

  /** What decode_all and encode_all leave survives the later stages. */
  lemma AllKept(c: Codec, f1: Files, f2: Files, f3: Files, prefix: string)
    requires Keeps(f1, f2, {Xc0, Enc0, Xc1, Enc1}) && Keeps(f2, f3, {Rebased, RebasedState, Final})
    requires forall i :: 0 <= i < N ==> DecodedAt(c, f1, prefix, i)
    requires forall i :: 0 <= i < N ==> FirstPassAt(c, f2, prefix, i) && SecondPassAt(c, f2, prefix, i)
    ensures forall i :: 0 <= i < N ==>
      DecodedAt(c, f3, prefix, i) && FirstPassAt(c, f3, prefix, i) && SecondPassAt(c, f3, prefix, i)
  {
    DecodedAcross(c, f1, f2, prefix, {Xc0, Enc0, Xc1, Enc1});
    DecodedAcross(c, f2, f3, prefix, {Rebased, RebasedState, Final});
    FirstPassAcross(c, f2, f3, prefix, {Rebased, RebasedState, Final});
    SecondPassAcross(c, f2, f3, prefix, {Rebased, RebasedState, Final});
  }
}
