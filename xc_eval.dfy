/** The ExCamera pipeline over BATCH independent videos of N chunks (xc_eval).
    Every stage's vectors hold the batches one after another, batch b's N-1
    entries from position b * (N-1); read_input, decode_all and encode_all work on
    those flat vectors, and rebase regroups them into one chain per batch, each of
    which ends in that batch's output container. */
module XcEval {
  import opened Bytes
  import opened Wrappers
  import opened Ivf
  import opened Excamera
  import opened Names
  import opened XcStages

  const N: nat := 16
  const BATCH: nat := 48

  /** The flat position of entry i of batch b. */
  function Flat(b: nat, i: nat): nat
  {
    b * (N - 1) + i
  }

  /** The number of entries of every flat vector. */
  const Total: nat := BATCH * (N - 1)

  /** The flat layout keeps each batch contiguous and in order: entry i of batch b
      sits in batch b's block, and every position of the vectors is one entry. */
  lemma FlatLayout(b: nat, i: nat)
    requires b < BATCH && i < N - 1
    ensures Flat(b, 0) <= Flat(b, i) < Flat(b + 1, 0) <= Total
    ensures Flat(b, i) / (N - 1) == b && Flat(b, i) % (N - 1) == i
  {
  }

  /** Blocks start in order, each N-1 after the one before. */
  lemma FlatBelow(nb: nat)
    ensures forall b :: 0 <= b <= nb ==> Flat(b, 0) <= Flat(nb, 0)
    ensures Flat(nb + 1, 0) == Flat(nb, 0) + (N - 1)
  {
    forall b | 0 <= b <= nb
      ensures Flat(b, 0) <= Flat(nb, 0)
    {
      assert Flat(nb, 0) == Flat(b, 0) + (nb - b) * (N - 1);
    }
  }

  lemma FlatOnto(k: nat)
    requires k < Total
    ensures k / (N - 1) < BATCH && k == Flat(k / (N - 1), k % (N - 1))
  {
  }

  lemma FlatInjective(b: nat, i: nat, b': nat, i': nat)
    requires i < N - 1 && i' < N - 1 && Flat(b, i) == Flat(b', i')
    ensures b == b' && i == i'
  {
    assert Flat(b, i) / (N - 1) == b && Flat(b', i') / (N - 1) == b';
  }

  /** Batch b's block of a flat vector. */
  function Group<T>(v: seq<T>, b: nat): (g: seq<T>)
    requires Flat(b + 1, 0) <= |v|
    ensures |g| == N - 1 && forall i :: 0 <= i < N - 1 ==> g[i] == v[Flat(b, i)]
  {
    v[Flat(b, 0)..Flat(b + 1, 0)]
  }

  /** The first nb blocks of a flat vector, one sequence per batch. */
  function Regroup<T>(v: seq<T>, nb: nat): (gs: seq<seq<T>>)
    requires Flat(nb, 0) <= |v|
    ensures |gs| == nb && forall b :: 0 <= b < nb ==> gs[b] == Group(v, b)
  {
    seq(nb, b requires 0 <= b < nb => Group(v, b))
  }

  /** Sequences laid one after another. */
  function Flatten<T>(gs: seq<seq<T>>): seq<T>
    decreases |gs|
  {
    if gs == [] then [] else Flatten(gs[..|gs| - 1]) + gs[|gs| - 1]
  }

  /** Regrouping a flat vector and laying it back out gives the vector again. */
  lemma {:induction false} FlattenRegroup<T>(v: seq<T>, nb: nat)
    requires Flat(nb, 0) <= |v|
    ensures Flatten(Regroup(v, nb)) == v[..Flat(nb, 0)]
    decreases nb
  {
    if nb > 0 {
      assert Regroup(v, nb)[..nb - 1] == Regroup(v, nb - 1);
      FlattenRegroup(v, nb - 1);
      assert v[..Flat(nb, 0)] == v[..Flat(nb - 1, 0)] + Group(v, nb - 1);
    }
  }

  /** Laying out blocks of N-1 entries puts entry i of block b at Flat(b, i). */
  lemma {:induction false} FlattenAt<T>(gs: seq<seq<T>>, b: nat, i: nat)
    requires forall g :: g in gs ==> |g| == N - 1
    requires b < |gs| && i < N - 1
    ensures |Flatten(gs)| == Flat(|gs|, 0) && Flatten(gs)[Flat(b, i)] == gs[b][i]
    decreases |gs|
  {
    var init := gs[..|gs| - 1];
    assert forall g :: g in init ==> g in gs;
    FlattenLength(init);
    if b < |gs| - 1 {
      FlattenAt(init, b, i);
    }
  }

  lemma {:induction false} FlattenLength<T>(gs: seq<seq<T>>)
    requires forall g :: g in gs ==> |g| == N - 1
    ensures |Flatten(gs)| == Flat(|gs|, 0)
    decreases |gs|
  {
    if gs != [] {
      var init := gs[..|gs| - 1];
      assert forall g :: g in init ==> g in gs;
      FlattenLength(init);
      assert gs[|gs| - 1] in gs;
    }
  }

  // ---------------------------------------------------------------------------
  // paths

  /** The directory of batch b and the start of its file names: prefix/BB/fnameBB. */
  function BatchStem(prefix: string, fname: string, b: nat): string
  {
    prefix + "/" + Pad2(b) + "/" + fname + Pad2(b)
  }

  /** Chunk i's container, chunk i's raw input and the batch's output. */
  function VpxPath(prefix: string, fname: string, b: nat, i: nat): string
  {
    BatchStem(prefix, fname, b) + VpxTail(i)
  }

  function RasterPath(prefix: string, fname: string, b: nat, i: nat): string
  {
    BatchStem(prefix, fname, b) + RasterTail(i)
  }

  function VpxTail(i: nat): string { "_vpx_" + Pad2(i) + ".ivf" }
  function RasterTail(i: nat): string { "_" + Pad2(i) + ".y4m" }

  function FinalPath(prefix: string, fname: string, b: nat): string
  {
    BatchStem(prefix, fname, b) + ".y4m"
  }

  lemma PathExample()
    ensures RasterPath("/data", "sintel", 3, 7) == "/data/03/sintel03_07.y4m"
  {
    assert Pad2(3) == "03" && Pad2(7) == "07" by {
      assert Decimal(3) == "3" && Decimal(7) == "7";
    }
  }

  /** The batch stem names its batch: below 100 batches, and with the same prefix
      and name, equal stems have equal batches. */
  lemma StemInjective(prefix: string, fname: string, b: nat, b': nat, rest: string, rest': string)
    requires b < 100 && b' < 100
    requires BatchStem(prefix, fname, b) + rest == BatchStem(prefix, fname, b') + rest'
    ensures b == b' && rest == rest'
  {
    Pad2RoundTrip(b);
    Pad2RoundTrip(b');
    var s := BatchStem(prefix, fname, b) + rest;
    var k := |prefix| + 1;
    assert s[k] == Pad2(b)[0] && s[k + 1] == Pad2(b)[1];
    assert s[k] == Pad2(b')[0] && s[k + 1] == Pad2(b')[1];
    assert Pad2(b) == [Pad2(b)[0], Pad2(b)[1]] && Pad2(b') == [Pad2(b')[0], Pad2(b')[1]];
    Pad2Injective(b, b');
    StripPrefix(BatchStem(prefix, fname, b), rest, rest');
  }

  /** Different chunks read different raw inputs. */
  lemma RasterPathInjective(prefix: string, fname: string, b: nat, i: nat, b': nat, i': nat)
    requires b < 100 && i < 100 && b' < 100 && i' < 100
    requires RasterPath(prefix, fname, b, i) == RasterPath(prefix, fname, b', i')
    ensures b == b' && i == i'
  {
    StemInjective(prefix, fname, b, b', RasterTail(i), RasterTail(i'));
    Pad2RoundTrip(i);
    Pad2RoundTrip(i');
    var t := RasterTail(i);
    assert t[1] == Pad2(i)[0] && t[2] == Pad2(i)[1];
    assert t[1] == Pad2(i')[0] && t[2] == Pad2(i')[1];
    assert Pad2(i) == [Pad2(i)[0], Pad2(i)[1]] && Pad2(i') == [Pad2(i')[0], Pad2(i')[1]];
    Pad2Injective(i, i');
  }

  /** Different batches write different outputs. */
  lemma FinalPathInjective(prefix: string, fname: string, b: nat, b': nat)
    requires b < 100 && b' < 100 && FinalPath(prefix, fname, b) == FinalPath(prefix, fname, b')
    ensures b == b'
  {
    StemInjective(prefix, fname, b, b', ".y4m", ".y4m");
  }

  /** An output never overwrites an input: its name is shorter than every raw
      input's and every container's of the same batch directory. */
  lemma OutputsAreNotInputs(prefix: string, fname: string, b: nat, b': nat, i: nat)
    requires b < 100 && b' < 100 && i < 100
    ensures FinalPath(prefix, fname, b) != RasterPath(prefix, fname, b', i)
    ensures FinalPath(prefix, fname, b) != VpxPath(prefix, fname, b', i)
  {
    Pad2RoundTrip(b);
    Pad2RoundTrip(b');
    Pad2RoundTrip(i);
  }

  // ---------------------------------------------------------------------------
  // read_input

  /** Chunk i of batch b has a container that parses. */
  predicate Readable(files: map<string, seq<byte>>, prefix: string, fname: string, b: nat, i: nat)
  {
    Load(files, VpxPath(prefix, fname, b, i)).Ok?
  }

  /** The load of chunk i of batch b is the first to fail in that batch, with e. */
  ghost predicate BatchReadFailed(files: map<string, seq<byte>>, prefix: string, fname: string, b: nat, e: Error)
  {
    exists i :: 0 <= i < N && Load(files, VpxPath(prefix, fname, b, i)) == Err(e)
      && forall j :: 0 <= j < i ==> Readable(files, prefix, fname, b, j)
  }

  /** read_input throws e at the first unreadable container, batch by batch. */
  ghost predicate ReadFailed(files: map<string, seq<byte>>, prefix: string, fname: string, e: Error)
  {
    exists b :: 0 <= b < BATCH && BatchReadFailed(files, prefix, fname, b, e)
      && forall b', i :: 0 <= b' < b && 0 <= i < N ==> Readable(files, prefix, fname, b', i)
  }

  /** Entry i of a batch's prediction group is its chunk i; entry i of its target
      group is its chunk i + 1. */
  predicate PredAt(files: map<string, seq<byte>>, prefix: string, fname: string, b: nat, pred: seq<Ivf>, i: nat)
    requires i < |pred|
  {
    Load(files, VpxPath(prefix, fname, b, i)) == Ok(pred[i])
  }

  predicate TargetAt(files: map<string, seq<byte>>, prefix: string, fname: string, b: nat, target: seq<Ivf>, i: nat)
    requires i < |target|
  {
    Load(files, VpxPath(prefix, fname, b, i + 1)) == Ok(target[i])
  }

  /** What read_input reads for one batch, and for all of them. */
  datatype BatchInput = BatchInput(pred: seq<Ivf>, target: seq<Ivf>, first: Ivf)
  datatype Input = Input(vpx0: seq<Ivf>, vpx1: seq<Ivf>, ivf0: seq<Ivf>)

  /** The first n entries of each group of batch b (and chunk 0 once n > 0). */
  ghost predicate BatchUpTo(files: map<string, seq<byte>>, prefix: string, fname: string, b: nat,
                            pred: seq<Ivf>, target: seq<Ivf>, first: Ivf, np: nat, nt: nat)
  {
    && |pred| == np && |target| == nt
    && (forall i :: 0 <= i < np ==> PredAt(files, prefix, fname, b, pred, i))
    && (forall i :: 0 <= i < nt ==> TargetAt(files, prefix, fname, b, target, i))
  }

  /** Batch b read: chunks 0..N-2 as predictions, chunks 1..N-1 as targets, and
      chunk 0 as the batch's first container. */
  ghost predicate BatchRead(files: map<string, seq<byte>>, prefix: string, fname: string, b: nat, r: BatchInput)
  {
    && BatchUpTo(files, prefix, fname, b, r.pred, r.target, r.first, N - 1, N - 1)
    && Load(files, VpxPath(prefix, fname, b, 0)) == Ok(r.first)
  }

  /** Batch b's blocks of the flat vectors hold what was read for batch b. */
  ghost predicate InputAt(files: map<string, seq<byte>>, prefix: string, fname: string, r: Input, b: nat)
  {
    && Flat(b + 1, 0) <= |r.vpx0| && Flat(b + 1, 0) <= |r.vpx1| && b < |r.ivf0|
    && BatchRead(files, prefix, fname, b, BatchInput(Group(r.vpx0, b), Group(r.vpx1, b), r.ivf0[b]))
  }

  /** The first nb batches read, laid out batch after batch. */
  ghost predicate InputUpTo(files: map<string, seq<byte>>, prefix: string, fname: string, r: Input, nb: nat)
  {
    && |r.vpx0| == Flat(nb, 0) && |r.vpx1| == Flat(nb, 0) && |r.ivf0| == nb
    && forall b :: 0 <= b < nb ==> InputAt(files, prefix, fname, r, b)
  }

  /** In the flat vectors, position Flat(b, i) holds chunk i of batch b in vpx0 and
      chunk i + 1 in vpx1, and ivf0[b] is chunk 0, which is vpx0's entry too. */
  lemma InputLayout(files: map<string, seq<byte>>, prefix: string, fname: string, r: Input, b: nat, i: nat)
    requires InputUpTo(files, prefix, fname, r, BATCH) && b < BATCH && i < N - 1
    ensures Load(files, VpxPath(prefix, fname, b, i)) == Ok(r.vpx0[Flat(b, i)])
    ensures Load(files, VpxPath(prefix, fname, b, i + 1)) == Ok(r.vpx1[Flat(b, i)])
    ensures r.ivf0[b] == r.vpx0[Flat(b, 0)]
    ensures i + 1 < N - 1 ==> r.vpx0[Flat(b, i + 1)] == r.vpx1[Flat(b, i)]
  {
    assert InputAt(files, prefix, fname, r, b);
    var g := BatchInput(Group(r.vpx0, b), Group(r.vpx1, b), r.ivf0[b]);
    assert BatchRead(files, prefix, fname, b, g);
    assert PredAt(files, prefix, fname, b, g.pred, i) && TargetAt(files, prefix, fname, b, g.target, i);
    assert PredAt(files, prefix, fname, b, g.pred, 0);
    if i + 1 < N - 1 {
      assert PredAt(files, prefix, fname, b, g.pred, i + 1);
    }
  }

  lemma BatchExtend(files: map<string, seq<byte>>, prefix: string, fname: string, b: nat,
                    pred: seq<Ivf>, target: seq<Ivf>, first: Ivf, np: nat, nt: nat,
                    v: Ivf, toPred: bool, toTarget: bool)
    requires BatchUpTo(files, prefix, fname, b, pred, target, first, np, nt)
    requires toPred ==> Load(files, VpxPath(prefix, fname, b, np)) == Ok(v)
    requires toTarget ==> Load(files, VpxPath(prefix, fname, b, nt + 1)) == Ok(v)
    ensures BatchUpTo(files, prefix, fname, b,
                      if toPred then pred + [v] else pred, if toTarget then target + [v] else target, first,
                      if toPred then np + 1 else np, if toTarget then nt + 1 else nt)
  {
    if toPred {
      forall i | 0 <= i < np + 1
        ensures PredAt(files, prefix, fname, b, pred + [v], i)
      {
        PredAtSnoc(files, prefix, fname, b, pred, v, i);
      }
    }
    if toTarget {
      forall i | 0 <= i < nt + 1
        ensures TargetAt(files, prefix, fname, b, target + [v], i)
      {
        TargetAtSnoc(files, prefix, fname, b, target, v, i);
      }
    }
  }

  lemma PredAtSnoc(files: map<string, seq<byte>>, prefix: string, fname: string, b: nat,
                   pred: seq<Ivf>, v: Ivf, i: nat)
    requires i < |pred| ==> PredAt(files, prefix, fname, b, pred, i)
    requires i == |pred| ==> Load(files, VpxPath(prefix, fname, b, i)) == Ok(v)
    requires i <= |pred|
    ensures PredAt(files, prefix, fname, b, pred + [v], i)
  {
    assert (pred + [v])[i] == if i < |pred| then pred[i] else v;
  }

  lemma TargetAtSnoc(files: map<string, seq<byte>>, prefix: string, fname: string, b: nat,
                     target: seq<Ivf>, v: Ivf, i: nat)
    requires i < |target| ==> TargetAt(files, prefix, fname, b, target, i)
    requires i == |target| ==> Load(files, VpxPath(prefix, fname, b, i + 1)) == Ok(v)
    requires i <= |target|
    ensures TargetAt(files, prefix, fname, b, target + [v], i)
  {
    assert (target + [v])[i] == if i < |target| then target[i] else v;
  }

  /** Appending a block of N-1 entries to nb blocks adds block nb and keeps the
      others. */
  lemma GroupAppend<T>(v: seq<T>, w: seq<T>, nb: nat)
    requires |v| == Flat(nb, 0) && |w| == N - 1
    ensures Group(v + w, nb) == w
    ensures forall b :: 0 <= b < nb ==> Group(v + w, b) == Group(v, b)
  {
    assert (v + w)[Flat(nb, 0)..Flat(nb + 1, 0)] == w;
    forall b | 0 <= b < nb
      ensures Group(v + w, b) == Group(v, b)
    {
      assert (v + w)[..Flat(nb, 0)] == v;
    }
  }

  /** A block ends no later than the start of any later block. */
  lemma FlatStep(b: nat, nb: nat)
    requires b < nb
    ensures Flat(b + 1, 0) <= Flat(nb, 0)
  {
    FlatBelow(nb);
    assert Flat(b + 1, 0) <= Flat(nb, 0);
  }

  /** Appending batch nb's blocks keeps what every earlier batch read. */
  lemma InputExtendAt(files: map<string, seq<byte>>, prefix: string, fname: string, r: Input, nb: nat, g: BatchInput, b: nat)
    requires |r.vpx0| == Flat(nb, 0) && |r.vpx1| == Flat(nb, 0) && |r.ivf0| == nb
    requires |g.pred| == N - 1 && |g.target| == N - 1
    requires b < nb && InputAt(files, prefix, fname, r, b)
    ensures InputAt(files, prefix, fname, Input(r.vpx0 + g.pred, r.vpx1 + g.target, r.ivf0 + [g.first]), b)
  {
    FlatStep(b, nb);
    GroupAppend(r.vpx0, g.pred, nb);
    GroupAppend(r.vpx1, g.target, nb);
    assert Group(r.vpx0 + g.pred, b) == Group(r.vpx0, b);
    assert Group(r.vpx1 + g.target, b) == Group(r.vpx1, b);
  }

  /** The new batch's blocks are the ones just read. */
  lemma InputExtendLast(files: map<string, seq<byte>>, prefix: string, fname: string, r: Input, nb: nat, g: BatchInput)
    requires |r.vpx0| == Flat(nb, 0) && |r.vpx1| == Flat(nb, 0) && |r.ivf0| == nb
    requires BatchRead(files, prefix, fname, nb, g)
    ensures InputAt(files, prefix, fname, Input(r.vpx0 + g.pred, r.vpx1 + g.target, r.ivf0 + [g.first]), nb)
  {
    FlatBelow(nb);
    GroupAppend(r.vpx0, g.pred, nb);
    GroupAppend(r.vpx1, g.target, nb);
    assert BatchInput(Group(r.vpx0 + g.pred, nb), Group(r.vpx1 + g.target, nb), (r.ivf0 + [g.first])[nb]) == g;
  }

  lemma InputExtend(files: map<string, seq<byte>>, prefix: string, fname: string, r: Input, nb: nat, g: BatchInput)
    requires InputUpTo(files, prefix, fname, r, nb) && BatchRead(files, prefix, fname, nb, g)
    ensures InputUpTo(files, prefix, fname, Input(r.vpx0 + g.pred, r.vpx1 + g.target, r.ivf0 + [g.first]), nb + 1)
  {
    var r' := Input(r.vpx0 + g.pred, r.vpx1 + g.target, r.ivf0 + [g.first]);
    FlatBelow(nb);
    forall b | 0 <= b < nb
      ensures InputAt(files, prefix, fname, r', b)
    {
      InputExtendAt(files, prefix, fname, r, nb, g, b);
    }
    InputExtendLast(files, prefix, fname, r, nb, g);
  }

  /** read_input's inner loop: the N containers of batch b, each loaded once per
      vector it goes to. */
  method ReadBatch(files: map<string, seq<byte>>, prefix: string, fname: string, b: nat)
    returns (r: Result<BatchInput, Error>)
    ensures r.Ok? <==> forall i :: 0 <= i < N ==> Readable(files, prefix, fname, b, i)
    ensures r.Ok? ==> BatchRead(files, prefix, fname, b, r.value)
    ensures r.Err? ==> BatchReadFailed(files, prefix, fname, b, r.error)
  {
    var pred: seq<Ivf> := [];
    var target: seq<Ivf> := [];
    var first := Default;
    var i := 0;
    while i < N
      invariant i <= N
      invariant BatchUpTo(files, prefix, fname, b, pred, target, first,
                          if i == N then N - 1 else i, if i == 0 then 0 else i - 1)
      invariant i > 0 ==> Load(files, VpxPath(prefix, fname, b, 0)) == Ok(first)
      invariant forall j :: 0 <= j < i ==> Readable(files, prefix, fname, b, j)
    {
      var vpxFile := VpxPath(prefix, fname, b, i);
      if i != N - 1 {
        var v := IvfMem.LoadFile(files, vpxFile);
        if v.Err? {
          assert !Readable(files, prefix, fname, b, i) && Load(files, VpxPath(prefix, fname, b, i)) == Err(v.error);
          return Err(v.error);
        }
        BatchExtend(files, prefix, fname, b, pred, target, first, i, if i == 0 then 0 else i - 1, v.value, true, false);
        pred := pred + [v.value];
      }
      var v := IvfMem.LoadFile(files, vpxFile);
      if v.Err? {
        // chunk 0 is not the last chunk, so a failing load of it has returned above
        assert i != 0;
        assert !Readable(files, prefix, fname, b, i) && Load(files, VpxPath(prefix, fname, b, i)) == Err(v.error);
        return Err(v.error);
      }
      if i != 0 {
        BatchExtend(files, prefix, fname, b, pred, target, first,
                    if i == N - 1 then N - 1 else i + 1, i - 1, v.value, false, true);
        target := target + [v.value];
      } else {
        first := v.value;
      }
      assert Readable(files, prefix, fname, b, i);
      assert forall j :: 0 <= j < i + 1 ==> Readable(files, prefix, fname, b, j);
      i := i + 1;
    }
    return Ok(BatchInput(pred, target, first));
  }

  /** read_input's loops: every batch in order; the first unreadable container is
      the error. */
  method ReadBatches(files: map<string, seq<byte>>, prefix: string, fname: string) returns (r: Result<Input, Error>)
    ensures r.Ok? <==> forall b, i :: 0 <= b < BATCH && 0 <= i < N ==> Readable(files, prefix, fname, b, i)
    ensures r.Ok? ==> InputUpTo(files, prefix, fname, r.value, BATCH)
    ensures r.Err? ==> ReadFailed(files, prefix, fname, r.error)
  {
    var acc := Input([], [], []);
    var b := 0;
    while b < BATCH
      invariant b <= BATCH
      invariant InputUpTo(files, prefix, fname, acc, b)
      invariant forall b', i :: 0 <= b' < b && 0 <= i < N ==> Readable(files, prefix, fname, b', i)
    {
      var g := ReadBatch(files, prefix, fname, b);
      if g.Err? {
        assert BatchReadFailed(files, prefix, fname, b, g.error);
        return Err(g.error);
      }
      InputExtend(files, prefix, fname, acc, b, g.value);
      acc := Input(acc.vpx0 + g.value.pred, acc.vpx1 + g.value.target, acc.ivf0 + [g.value.first]);
      assert forall b', i :: 0 <= b' < b + 1 && 0 <= i < N ==> Readable(files, prefix, fname, b', i);
      b := b + 1;
    }
    return Ok(acc);
  }

  // ---------------------------------------------------------------------------
  // decode_all

  /** Entry b is the state of batch b's first chunk. */
  function Firsts(vecs: seq<State>): (s0: seq<State>)
    requires Total <= |vecs|
    ensures |s0| == BATCH && forall b :: 0 <= b < BATCH ==> s0[b] == vecs[Flat(b, 0)]
  {
    seq(BATCH, b requires 0 <= b < BATCH => vecs[Flat(b, 0)])
  }

  /** decode_all's loops over the joined results: state0[b] gets batch b's first
      state, and dec_state every state of the BATCH blocks, in order. */
  method SplitDecoded(vecs: seq<State>) returns (s0: seq<State>, dec: seq<State>)
    requires Total <= |vecs|
    ensures s0 == Firsts(vecs) && dec == vecs[..Total]
  {
    s0, dec := [], [];
    var b := 0;
    while b < BATCH
      invariant b <= BATCH && |s0| == b && dec == vecs[..Flat(b, 0)]
      invariant forall b' :: 0 <= b' < b ==> s0[b'] == vecs[Flat(b', 0)]
    {
      s0 := s0 + [vecs[Flat(b, 0)]];
      var i := 0;
      while i < N - 1
        invariant i <= N - 1 && dec == vecs[..Flat(b, i)]
      {
        assert vecs[..Flat(b, i) + 1] == vecs[..Flat(b, i)] + [vecs[Flat(b, i)]];
        dec := dec + [vecs[Flat(b, i)]];
        i := i + 1;
      }
      b := b + 1;
    }
  }

  // ---------------------------------------------------------------------------
  // encode_all

  /** encode_all's work list: the batch and the chunk of every task. */
  function Batches(): (r: seq<nat>)
    ensures |r| == Total
  {
    seq(Total, k requires 0 <= k < Total => k / (N - 1))
  }

  function Idxs(): (r: seq<nat>)
    ensures |r| == Total
  {
    seq(Total, k requires 0 <= k < Total => k % (N - 1) + 1)
  }

  /** Task Flat(b, i) is chunk i + 1 of batch b: the list holds every (b, i) with
      b < BATCH and 1 <= i < N, in batch-major order. */
  lemma WorkOrder(b: nat, i: nat)
    requires b < BATCH && i < N - 1
    ensures Batches()[Flat(b, i)] == b && Idxs()[Flat(b, i)] == i + 1
  {
    FlatLayout(b, i);
  }

  /** encode_all's nested loops building the work list. */
  method WorkList() returns (batches: seq<nat>, idxs: seq<nat>)
    ensures batches == Batches() && idxs == Idxs()
  {
    batches, idxs := [], [];
    var b := 0;
    while b < BATCH
      invariant b <= BATCH && batches == Batches()[..Flat(b, 0)] && idxs == Idxs()[..Flat(b, 0)]
    {
      var i := 1;
      while i < N
        invariant 1 <= i <= N && batches == Batches()[..Flat(b, i - 1)] && idxs == Idxs()[..Flat(b, i - 1)]
      {
        WorkOrder(b, i - 1);
        assert Batches()[..Flat(b, i)] == Batches()[..Flat(b, i - 1)] + [b];
        assert Idxs()[..Flat(b, i)] == Idxs()[..Flat(b, i - 1)] + [i];
        idxs := idxs + [i];
        batches := batches + [b];
        i := i + 1;
      }
      b := b + 1;
    }
    assert Batches()[..Total] == Batches() && Idxs()[..Total] == Idxs();
  }

  /** read_raster then enc_given_state: the raw input is chunk idx of batch b. */
  function EvalEnc(c: Codec, files: map<string, seq<byte>>, prefix: string, fname: string,
                   pred: Ivf, input: State, prev: Option<State>, b: nat, idx: nat): Result<Output, Error>
  {
    var raw :- LoadBuffer(files, RasterPath(prefix, fname, b, idx));
    EncChunk(c, pred, input, prev, raw)
  }

  method EncodeRaster(c: Codec, files: map<string, seq<byte>>, prefix: string, fname: string,
                      pred: Ivf, input: State, prev: Option<State>, b: nat, idx: nat)
    returns (r: Result<Output, Error>)
    ensures r == EvalEnc(c, files, prefix, fname, pred, input, prev, b, idx)
  {
    var inputFile := RasterPath(prefix, fname, b, idx);
    if inputFile !in files {
      return Err(NoFile(inputFile));
    }
    r := EncodeChunk(c, pred, input, prev, files[inputFile]);
  }

  /** encode_all's tasks over the zipped range: task k re-encodes vpx1[k] from
      dec[k], with a fresh prediction decoder and the raw input of task k's chunk. */
  function EncodeSteps(c: Codec, files: map<string, seq<byte>>, prefix: string, fname: string,
                       vpx1: seq<Ivf>, dec: seq<State>, n: nat): (r: seq<Result<Output, Error>>)
    requires n <= |vpx1| && n <= |dec| && n <= Total
    ensures |r| == n && forall k :: 0 <= k < n ==>
      r[k] == EvalEnc(c, files, prefix, fname, vpx1[k], dec[k], None, Batches()[k], Idxs()[k])
  {
    seq(n, k requires 0 <= k < n => EvalEnc(c, files, prefix, fname, vpx1[k], dec[k], None, Batches()[k], Idxs()[k]))
  }

  function EncodeEach(c: Codec, files: map<string, seq<byte>>, prefix: string, fname: string,
                      vpx1: seq<Ivf>, dec: seq<State>, n: nat): Result<seq<Output>, Error>
    requires n <= |vpx1| && n <= |dec| && n <= Total
  {
    Collect(EncodeSteps(c, files, prefix, fname, vpx1, dec, n))
  }

  /** encode_all succeeds exactly when every task does, and then entry k is task
      k's output; otherwise the error is that of the first task that fails. */
  lemma EncodeEachOk(c: Codec, files: map<string, seq<byte>>, prefix: string, fname: string,
                     vpx1: seq<Ivf>, dec: seq<State>, n: nat)
    requires n <= |vpx1| && n <= |dec| && n <= Total
    ensures EncodeEach(c, files, prefix, fname, vpx1, dec, n).Ok? <==>
      forall k :: 0 <= k < n ==> EvalEnc(c, files, prefix, fname, vpx1[k], dec[k], None, Batches()[k], Idxs()[k]).Ok?
    ensures EncodeEach(c, files, prefix, fname, vpx1, dec, n).Ok? ==>
      |EncodeEach(c, files, prefix, fname, vpx1, dec, n).value| == n
      && forall k :: 0 <= k < n ==> EvalEnc(c, files, prefix, fname, vpx1[k], dec[k], None, Batches()[k], Idxs()[k])
                                    == Ok(EncodeEach(c, files, prefix, fname, vpx1, dec, n).value[k])
    ensures EncodeEach(c, files, prefix, fname, vpx1, dec, n).Err? ==>
      exists k :: 0 <= k < n
        && EvalEnc(c, files, prefix, fname, vpx1[k], dec[k], None, Batches()[k], Idxs()[k])
           == Err(EncodeEach(c, files, prefix, fname, vpx1, dec, n).error)
        && forall j :: 0 <= j < k ==> EvalEnc(c, files, prefix, fname, vpx1[j], dec[j], None, Batches()[j], Idxs()[j]).Ok?
  {
    CollectOk(EncodeSteps(c, files, prefix, fname, vpx1, dec, n));
  }

  /** encode_all's distributed lambda: the zipped tasks popped and run in order. */
  method EncodeTasks(c: Codec, files: map<string, seq<byte>>, prefix: string, fname: string,
                     vpx1: seq<Ivf>, dec: seq<State>, batches: seq<nat>, idxs: seq<nat>, n: nat)
    returns (r: Result<seq<Output>, Error>)
    requires batches == Batches() && idxs == Idxs()
    requires n <= |vpx1| && n <= |dec| && n <= Total
    ensures r == EncodeEach(c, files, prefix, fname, vpx1, dec, n)
  {
    ghost var rs := EncodeSteps(c, files, prefix, fname, vpx1, dec, n);
    var outs: seq<Output> := [];
    var k := 0;
    while k < n
      invariant k <= n
      invariant Collect(rs[..k]) == Ok(outs)
    {
      var out := EncodeRaster(c, files, prefix, fname, vpx1[k], dec[k], None, batches[k], idxs[k]);
      CollectSnoc(rs, k, outs);
      if out.Err? {
        return Err(out.error);
      }
      outs := outs + [out.value];
      k := k + 1;
    }
    assert rs[..n] == rs;
    return Ok(outs);
  }

  /** Batch b's block of enc_state: state0[b] and then the states of the batch's
      first N-2 tasks. */
  function EncGroups(s0: seq<State>, outs: seq<Output>): (gs: seq<seq<State>>)
    requires BATCH <= |s0| && Total <= |outs|
    ensures |gs| == BATCH && forall g :: g in gs ==> |g| == N - 1
  {
    var gs := seq(BATCH, b requires 0 <= b < BATCH => [s0[b]] + States(Group(outs, b)[..N - 2]));
    assert forall b :: 0 <= b < BATCH ==> |gs[b]| == N - 1;
    gs
  }

  /** Position Flat(b, 0) of enc_state holds state0[b], and position Flat(b, i)
      for i > 0 the state of task Flat(b, i - 1), the one before it in the batch. */
  lemma EncStateLayout(s0: seq<State>, outs: seq<Output>, b: nat, i: nat)
    requires BATCH <= |s0| && Total <= |outs| && b < BATCH && i < N - 1
    ensures Flat(b, i) < Total && (i > 0 ==> Flat(b, i - 1) == Flat(b, i) - 1)
    ensures |Flatten(EncGroups(s0, outs))| == Total
    ensures Flatten(EncGroups(s0, outs))[Flat(b, i)] == if i == 0 then s0[b] else outs[Flat(b, i - 1)].state
  {
    FlatLayout(b, i);
    FlattenAt(EncGroups(s0, outs), b, i);
    EncGroupAt(s0, outs, b, i);
  }

  /** Entry i of batch b's group is state0[b] for i == 0, else the state of the
      batch's task i - 1. */
  lemma EncGroupAt(s0: seq<State>, outs: seq<Output>, b: nat, i: nat)
    requires BATCH <= |s0| && Total <= |outs| && b < BATCH && i < N - 1
    ensures i > 0 ==> Flat(b, i - 1) < Total
    ensures EncGroups(s0, outs)[b][i] == if i == 0 then s0[b] else outs[Flat(b, i - 1)].state
  {
    FlatLayout(b, i);
    var g := Group(outs, b);
    assert EncGroups(s0, outs)[b] == [s0[b]] + States(g[..N - 2]);
    if i > 0 {
      assert g[..N - 2][i - 1] == g[i - 1] == outs[Flat(b, i - 1)];
    }
  }

  /** encode_all on the vectors: the work list's tasks over the zipped range,
      then the pushes to xc_ivf and enc_state. */
  method EncodeStage(c: Codec, files: map<string, seq<byte>>, prefix: string, fname: string,
                     vpx1: seq<Ivf>, dec: seq<State>, s0: seq<State>)
    returns (failure: Option<Error>, xc: seq<Ivf>, enc: seq<State>)
    requires Total <= |vpx1| && Total <= |dec| && BATCH <= |s0|
    ensures failure.None? <==> EncodeEach(c, files, prefix, fname, vpx1, dec, Total).Ok?
    ensures failure.None? ==>
      && |EncodeEach(c, files, prefix, fname, vpx1, dec, Total).value| == Total
      && xc == Ivfs(EncodeEach(c, files, prefix, fname, vpx1, dec, Total).value)
      && enc == Flatten(EncGroups(s0, EncodeEach(c, files, prefix, fname, vpx1, dec, Total).value))
    ensures failure.Some? ==> EncodeEach(c, files, prefix, fname, vpx1, dec, Total) == Err(failure.value)
  {
    ghost var rs := EncodeSteps(c, files, prefix, fname, vpx1, dec, Total);
    var batches, idxs := WorkList();
    var n := Min(Min(|vpx1|, |dec|), Min(|batches|, |idxs|));
    var r := EncodeTasks(c, files, prefix, fname, vpx1, dec, batches, idxs, n);
    assert r == Collect(rs);
    if r.Err? {
      return Some(r.error), [], [];
    }
    var outs := r.value;
    assert |outs| == |rs| == Total;
    xc, enc := PushEncoded(outs, s0);
    assert outs[..Total] == outs;
    return None, xc, enc;
  }

  /** encode_all's inner loop for batch b. */
  method PushBatch(outs: seq<Output>, b: nat, first: State) returns (xcB: seq<Ivf>, encB: seq<State>)
    requires Flat(b + 1, 0) <= |outs|
    ensures xcB == Ivfs(Group(outs, b)) && encB == [first] + States(Group(outs, b)[..N - 2])
  {
    var g := Group(outs, b);
    xcB, encB := [], [first];
    var i := 0;
    while i < N - 2
      invariant i <= N - 2 && xcB == Ivfs(g[..i]) && encB == [first] + States(g[..i])
    {
      OutputsSnoc(g, i);
      xcB := xcB + [outs[Flat(b, i)].ivf];
      encB := encB + [outs[Flat(b, i)].state];
      i := i + 1;
    }
    OutputsSnoc(g, N - 2);
    assert g[..N - 1] == g;
    xcB := xcB + [outs[Flat(b, N - 2)].ivf];
  }

  /** One more block of enc_state is batch b's: state0[b], then its first N-2
      tasks' states. */
  lemma EncGroupsSnoc(s0: seq<State>, outs: seq<Output>, b: nat)
    requires BATCH <= |s0| && Total <= |outs| && b < BATCH
    ensures Flat(b + 1, 0) <= |outs|
    ensures Flatten(EncGroups(s0, outs)[..b + 1])
         == Flatten(EncGroups(s0, outs)[..b]) + ([s0[b]] + States(Group(outs, b)[..N - 2]))
  {
    FlatLayout(b, 0);
    var gs := EncGroups(s0, outs);
    assert gs[..b + 1][..b] == gs[..b];
  }

  /** One more block of xc_ivf is batch b's containers. */
  lemma IvfsBlock(outs: seq<Output>, b: nat)
    requires Total <= |outs| && b < BATCH
    ensures Flat(b + 1, 0) <= |outs|
    ensures Ivfs(outs[..Flat(b + 1, 0)]) == Ivfs(outs[..Flat(b, 0)]) + Ivfs(Group(outs, b))
  {
    FlatLayout(b, 0);
    assert outs[..Flat(b + 1, 0)] == outs[..Flat(b, 0)] + Group(outs, b);
    IvfsAppend(outs[..Flat(b, 0)], Group(outs, b));
  }

  /** One batch's pushes extend xc_ivf by its containers and enc_state by its
      block. */
  lemma PushStep(s0: seq<State>, outs: seq<Output>, b: nat, xc: seq<Ivf>, enc: seq<State>,
                 xcB: seq<Ivf>, encB: seq<State>)
    requires BATCH <= |s0| && Total <= |outs| && b < BATCH
    requires xc == Ivfs(outs[..Flat(b, 0)]) && enc == Flatten(EncGroups(s0, outs)[..b])
    requires Flat(b + 1, 0) <= |outs|
    requires xcB == Ivfs(Group(outs, b)) && encB == [s0[b]] + States(Group(outs, b)[..N - 2])
    ensures xc + xcB == Ivfs(outs[..Flat(b + 1, 0)]) && enc + encB == Flatten(EncGroups(s0, outs)[..b + 1])
  {
    EncGroupsSnoc(s0, outs, b);
    IvfsBlock(outs, b);
  }

  /** encode_all's pushes: xc_ivf gets every task's container, enc_state the
      blocks of EncGroups. */
  method PushEncoded(outs: seq<Output>, s0: seq<State>) returns (xc: seq<Ivf>, enc: seq<State>)
    requires Total <= |outs| && BATCH <= |s0|
    ensures xc == Ivfs(outs[..Total]) && enc == Flatten(EncGroups(s0, outs))
  {
    ghost var gs := EncGroups(s0, outs);
    xc, enc := [], [];
    var b := 0;
    while b < BATCH
      invariant b <= BATCH && xc == Ivfs(outs[..Flat(b, 0)]) && enc == Flatten(gs[..b])
    {
      FlatLayout(b, 0);
      var xcB, encB := PushBatch(outs, b, s0[b]);
      PushStep(s0, outs, b, xc, enc, xcB, encB);
      xc := xc + xcB;
      enc := enc + encB;
      b := b + 1;
    }
    assert Flat(BATCH, 0) == Total;
    assert gs[..BATCH] == gs;
  }

  // ---------------------------------------------------------------------------
  // rebase

  /** The raw input chunk index rebase step i passes to read_raster, and the one
      its container was encoded from (see Findings). */
  function RasterIdxAsWritten(i: nat): nat { i }
  function RasterIdx(i: nat): nat { i + 1 }

  /** The state of one batch's chain: the outputs so far (finals[0] is the
      batch's ivf0), the states threaded (states[0] is its state0), and the
      rebased containers, which the program does not keep. */
  datatype Chain = Chain(finals: seq<Ivf>, states: seq<State>, rebased: seq<Ivf>)

  /** Step i of batch b's chain from output fin and state st: the batch's entry i
      re-encoded from st with dec as the prediction state, then merged onto fin. */
  function Step(c: Codec, files: map<string, seq<byte>>, prefix: string, fname: string, b: nat,
                pred: Ivf, dec: State, fin: Ivf, st: State, i: nat): Result<(Output, Ivf), Error>
  {
    var o :- EvalEnc(c, files, prefix, fname, pred, st, Some(dec), b, RasterIdx(i));
    var m :- MergeSpec(fin, o.ivf);
    Ok((o, m))
  }

  predicate StepAt(c: Codec, files: map<string, seq<byte>>, prefix: string, fname: string, b: nat,
                   ivfs: seq<Ivf>, decs: seq<State>, w: Chain, i: nat)
    requires i < |ivfs| && i < |decs| && i + 1 < |w.finals| && i + 1 < |w.states| && i < |w.rebased|
  {
    Step(c, files, prefix, fname, b, ivfs[i], decs[i], w.finals[i], w.states[i], i)
      == Ok((Output(w.rebased[i], w.states[i + 1]), w.finals[i + 1]))
  }

  /** The first n steps of batch b's chain, from ivf0 and s0. */
  ghost predicate ChainUpTo(c: Codec, files: map<string, seq<byte>>, prefix: string, fname: string, b: nat,
                            ivfs: seq<Ivf>, decs: seq<State>, ivf0: Ivf, s0: State, w: Chain, n: nat)
  {
    && n <= |ivfs| && n <= |decs| && |w.finals| == n + 1 && |w.states| == n + 1 && |w.rebased| == n
    && w.finals[0] == ivf0 && w.states[0] == s0
    && forall i :: 0 <= i < n ==> StepAt(c, files, prefix, fname, b, ivfs, decs, w, i)
  }

  lemma ChainExtend(c: Codec, files: map<string, seq<byte>>, prefix: string, fname: string, b: nat,
                    ivfs: seq<Ivf>, decs: seq<State>, ivf0: Ivf, s0: State, w: Chain, n: nat, o: Output, m: Ivf)
    requires ChainUpTo(c, files, prefix, fname, b, ivfs, decs, ivf0, s0, w, n) && n < |ivfs| && n < |decs|
    requires Step(c, files, prefix, fname, b, ivfs[n], decs[n], w.finals[n], w.states[n], n) == Ok((o, m))
    ensures ChainUpTo(c, files, prefix, fname, b, ivfs, decs, ivf0, s0,
                      Chain(w.finals + [m], w.states + [o.state], w.rebased + [o.ivf]), n + 1)
  {
    var w' := Chain(w.finals + [m], w.states + [o.state], w.rebased + [o.ivf]);
    forall i | 0 <= i < n
      ensures StepAt(c, files, prefix, fname, b, ivfs, decs, w', i)
    {
      StepAtPrefix(c, files, prefix, fname, b, ivfs, decs, w, i, o, m);
    }
    StepAtLast(c, files, prefix, fname, b, ivfs, decs, w, n, o, m);
  }

  /** The step just taken is recorded in the extended chain. */
  lemma StepAtLast(c: Codec, files: map<string, seq<byte>>, prefix: string, fname: string, b: nat,
                   ivfs: seq<Ivf>, decs: seq<State>, w: Chain, n: nat, o: Output, m: Ivf)
    requires n < |ivfs| && n < |decs| && |w.finals| == n + 1 && |w.states| == n + 1 && |w.rebased| == n
    requires Step(c, files, prefix, fname, b, ivfs[n], decs[n], w.finals[n], w.states[n], n) == Ok((o, m))
    ensures StepAt(c, files, prefix, fname, b, ivfs, decs, Chain(w.finals + [m], w.states + [o.state], w.rebased + [o.ivf]), n)
  {
    var w' := Chain(w.finals + [m], w.states + [o.state], w.rebased + [o.ivf]);
    assert w'.finals[n] == w.finals[n] && w'.states[n] == w.states[n];
  }

  /** A step recorded in a chain stays recorded once the chain is extended. */
  lemma StepAtPrefix(c: Codec, files: map<string, seq<byte>>, prefix: string, fname: string, b: nat,
                     ivfs: seq<Ivf>, decs: seq<State>, w: Chain, i: nat, o: Output, m: Ivf)
    requires i < |ivfs| && i < |decs| && i + 1 < |w.finals| && i + 1 < |w.states| && i < |w.rebased|
    requires StepAt(c, files, prefix, fname, b, ivfs, decs, w, i)
    ensures StepAt(c, files, prefix, fname, b, ivfs, decs, Chain(w.finals + [m], w.states + [o.state], w.rebased + [o.ivf]), i)
  {
    var w' := Chain(w.finals + [m], w.states + [o.state], w.rebased + [o.ivf]);
    assert w'.finals[i] == w.finals[i] && w'.finals[i + 1] == w.finals[i + 1];
    assert w'.states[i] == w.states[i] && w'.states[i + 1] == w.states[i + 1] && w'.rebased[i] == w.rebased[i];
  }

  /** rebase's per-batch lambda body: N-1 steps threading prev_state and
      prev_ivf; the result is the batch's last output. */
  method BatchChain(c: Codec, files: map<string, seq<byte>>, prefix: string, fname: string, b: nat,
                    ivfs: seq<Ivf>, decs: seq<State>, ivf0: Ivf, s0: State)
    returns (r: Result<Ivf, Error>, ghost w: Chain)
    requires |ivfs| == N - 1 && |decs| == N - 1
    ensures r.Ok? ==> ChainUpTo(c, files, prefix, fname, b, ivfs, decs, ivf0, s0, w, N - 1) && r.value == w.finals[N - 1]
    ensures r.Err? ==>
      && |w.rebased| < N - 1 && ChainUpTo(c, files, prefix, fname, b, ivfs, decs, ivf0, s0, w, |w.rebased|)
      && Step(c, files, prefix, fname, b, ivfs[|w.rebased|], decs[|w.rebased|],
              w.finals[|w.rebased|], w.states[|w.rebased|], |w.rebased|) == Err(r.error)
  {
    var prevIvf, prevState := ivf0, s0;
    w := Chain([ivf0], [s0], []);
    var i := 0;
    while i < N - 1
      invariant i <= N - 1 && ChainUpTo(c, files, prefix, fname, b, ivfs, decs, ivf0, s0, w, i)
      invariant prevIvf == w.finals[i] && prevState == w.states[i]
    {
      var ivf := ivfs[i];
      var prevDecoder := decs[i];
      var output := EncodeRaster(c, files, prefix, fname, ivf, prevState, Some(prevDecoder), b, RasterIdx(i));
      if output.Err? {
        return Err(output.error), w;
      }
      var m := Merge(prevIvf, output.value.ivf);
      if m.Err? {
        return Err(m.error), w;
      }
      ChainExtend(c, files, prefix, fname, b, ivfs, decs, ivf0, s0, w, i, output.value, m.value);
      w := Chain(w.finals + [m.value], w.states + [output.value.state], w.rebased + [output.value.ivf]);
      prevState := output.value.state;
      prevIvf := m.value;
      i := i + 1;
    }
    return Ok(prevIvf), w;
  }

  /** rebase's regrouping: xc_ivf and dec_state cut into BATCH blocks of N-1. */
  method Stitch(xc: seq<Ivf>, dec: seq<State>) returns (gIvf: seq<seq<Ivf>>, gDec: seq<seq<State>>)
    requires Total <= |xc| && Total <= |dec|
    ensures gIvf == Regroup(xc, BATCH) && gDec == Regroup(dec, BATCH)
  {
    gIvf, gDec := [], [];
    var b := 0;
    while b < BATCH
      invariant b <= BATCH && gIvf == Regroup(xc, b) && gDec == Regroup(dec, b)
    {
      FlatLayout(b, 0);
      var batchIvf: seq<Ivf> := [];
      var batchDec: seq<State> := [];
      var i := 0;
      while i < N - 1
        invariant i <= N - 1 && batchIvf == xc[Flat(b, 0)..Flat(b, i)] && batchDec == dec[Flat(b, 0)..Flat(b, i)]
      {
        FlatLayout(b, i);
        SliceSnoc(xc, Flat(b, 0), Flat(b, i));
        SliceSnoc(dec, Flat(b, 0), Flat(b, i));
        batchIvf := batchIvf + [xc[Flat(b, i)]];
        batchDec := batchDec + [dec[Flat(b, i)]];
        i := i + 1;
      }
      assert Regroup(xc, b + 1) == Regroup(xc, b) + [Group(xc, b)];
      assert Regroup(dec, b + 1) == Regroup(dec, b) + [Group(dec, b)];
      gIvf := gIvf + [batchIvf];
      gDec := gDec + [batchDec];
      b := b + 1;
    }
  }

  /** Batch b's chain ran to its end from ivf0[b] and state0[b] over batch b's
      blocks of xc_ivf and dec_state. */
  ghost predicate BatchChained(c: Codec, files: map<string, seq<byte>>, prefix: string, fname: string,
                               xc: seq<Ivf>, dec: seq<State>, ivf0: seq<Ivf>, s0: seq<State>, w: Chain, b: nat)
  {
    && b < BATCH && Total <= |xc| && Total <= |dec| && BATCH <= |ivf0| && BATCH <= |s0|
    && ChainUpTo(c, files, prefix, fname, b, Group(xc, b), Group(dec, b), ivf0[b], s0[b], w, N - 1)
  }

  /** Batch b's chain failed at its step |w.rebased| with error e. */
  ghost predicate BatchFails(c: Codec, files: map<string, seq<byte>>, prefix: string, fname: string,
                             xc: seq<Ivf>, dec: seq<State>, ivf0: seq<Ivf>, s0: seq<State>, w: Chain, b: nat, e: Error)
  {
    && b < BATCH && Total <= |xc| && Total <= |dec| && BATCH <= |ivf0| && BATCH <= |s0|
    && |w.rebased| < N - 1
    && ChainUpTo(c, files, prefix, fname, b, Group(xc, b), Group(dec, b), ivf0[b], s0[b], w, |w.rebased|)
    && var n := |w.rebased|;
       Step(c, files, prefix, fname, b, xc[Flat(b, n)], dec[Flat(b, n)], w.finals[n], w.states[n], n) == Err(e)
  }

  /** The rebase stopped at the last chain: every earlier batch's chain ran to
      its end, and the last one failed with error e. */
  ghost predicate RebaseFailed(c: Codec, files: map<string, seq<byte>>, prefix: string, fname: string,
                               xc: seq<Ivf>, dec: seq<State>, ivf0: seq<Ivf>, s0: seq<State>,
                               chains: seq<Chain>, e: Error)
  {
    && 1 <= |chains| <= BATCH
    && (forall b :: 0 <= b < |chains| - 1 ==> BatchChained(c, files, prefix, fname, xc, dec, ivf0, s0, chains[b], b))
    && BatchFails(c, files, prefix, fname, xc, dec, ivf0, s0, chains[|chains| - 1], |chains| - 1, e)
  }

  /** Every batch's chain ran, and output b is the end of chain b. */
  ghost predicate Rebased(c: Codec, files: map<string, seq<byte>>, prefix: string, fname: string,
                          xc: seq<Ivf>, dec: seq<State>, ivf0: seq<Ivf>, s0: seq<State>,
                          chains: seq<Chain>, final: seq<Ivf>)
  {
    && |chains| == BATCH && |final| == BATCH
    && forall b :: 0 <= b < BATCH ==>
         BatchChained(c, files, prefix, fname, xc, dec, ivf0, s0, chains[b], b) && final[b] == chains[b].finals[N - 1]
  }

  /** A batch's output holds the frames of its chunk 0 followed by those of its
      rebased chunks, in order, and the frame counts add up. */
  lemma BatchFrames(c: Codec, files: map<string, seq<byte>>, prefix: string, fname: string, b: nat,
                    ivfs: seq<Ivf>, decs: seq<State>, ivf0: Ivf, s0: State, w: Chain)
    requires ChainUpTo(c, files, prefix, fname, b, ivfs, decs, ivf0, s0, w, N - 1)
    requires ivf0.frameCount as nat + TotalCount(w.rebased) < Two32
    ensures Frames(ivf0).Ok? && ConcatFrames(w.rebased).Ok?
    ensures Frames(w.finals[N - 1]) == Ok(Frames(ivf0).value + ConcatFrames(w.rebased).value)
    ensures w.finals[N - 1].frameCount as nat == ivf0.frameCount as nat + TotalCount(w.rebased)
  {
    var vs := [ivf0] + w.rebased;
    assert vs[1..] == w.rebased;
    forall i | 1 <= i < |w.finals|
      ensures MergeSpec(w.finals[i - 1], vs[i]) == Ok(w.finals[i])
    {
      assert StepAt(c, files, prefix, fname, b, ivfs, decs, w, i - 1);
    }
    MergeStepsFrames(w.finals, vs);
  }

  /** With the raw input of the chunk its container was encoded from, a rebase
      re-encoding cannot fail once encode_all has succeeded: container Flat(b, i)
      was produced from dec_state[Flat(b, i)], which the step replays as its
      prediction state, from the same raw input. */
  lemma RebaseEncodesSucceed(c: Codec, files: map<string, seq<byte>>, prefix: string, fname: string,
                             vpx1: seq<Ivf>, dec: seq<State>, outs: seq<Output>, b: nat, i: nat, input: State)
    requires Bounded(c) && Total <= |vpx1| && Total <= |dec| && b < BATCH && i < N - 1
    requires EncodeEach(c, files, prefix, fname, vpx1, dec, Total) == Ok(outs)
    ensures |outs| == Total && Flat(b, i) < Total
    ensures EvalEnc(c, files, prefix, fname, outs[Flat(b, i)].ivf, input, Some(dec[Flat(b, i)]), b, RasterIdx(i)).Ok?
  {
    var k := Flat(b, i);
    FlatLayout(b, i);
    WorkOrder(b, i);
    EncodeEachAt(c, files, prefix, fname, vpx1, dec, Total, outs, k);
    var raw := LoadBuffer(files, RasterPath(prefix, fname, b, i + 1)).value;
    assert EncChunk(c, vpx1[k], dec[k], None, raw) == Ok(outs[k]);
    EncChunkChains(c, vpx1[k], dec[k], raw);
  }

  /** Entry k of a successful encode_all is task k's output. */
  lemma EncodeEachAt(c: Codec, files: map<string, seq<byte>>, prefix: string, fname: string,
                     vpx1: seq<Ivf>, dec: seq<State>, n: nat, outs: seq<Output>, k: nat)
    requires n <= |vpx1| && n <= |dec| && n <= Total && k < n
    requires EncodeEach(c, files, prefix, fname, vpx1, dec, n) == Ok(outs)
    ensures |outs| == n && EvalEnc(c, files, prefix, fname, vpx1[k], dec[k], None, Batches()[k], Idxs()[k]) == Ok(outs[k])
  {
    EncodeEachOk(c, files, prefix, fname, vpx1, dec, n);
  }

  /** As written, rebase step i passes chunk index i to read_raster although its
      container is the re-encoding of chunk i + 1: every step reads another chunk's
      raw input than the one its container was made from, the chain reads chunk 0's
      raw input, which no encode_all task reads, and never reads chunk N-1's. */
  lemma RebaseRasterAsWritten(prefix: string, fname: string, b: nat)
    requires b < BATCH
    ensures forall i :: 0 <= i < N - 1 ==>
      RasterPath(prefix, fname, b, RasterIdxAsWritten(i)) != RasterPath(prefix, fname, Batches()[Flat(b, i)], Idxs()[Flat(b, i)])
    ensures RasterIdxAsWritten(0) == 0
    ensures forall k :: 0 <= k < Total ==> RasterPath(prefix, fname, Batches()[k], Idxs()[k]) != RasterPath(prefix, fname, b, 0)
    ensures forall i :: 0 <= i < N - 1 ==> RasterPath(prefix, fname, b, RasterIdxAsWritten(i)) != RasterPath(prefix, fname, b, N - 1)
  {
    forall i | 0 <= i < N - 1
      ensures RasterPath(prefix, fname, b, RasterIdxAsWritten(i)) != RasterPath(prefix, fname, Batches()[Flat(b, i)], Idxs()[Flat(b, i)])
      ensures RasterPath(prefix, fname, b, RasterIdxAsWritten(i)) != RasterPath(prefix, fname, b, N - 1)
    {
      RasterAsWrittenAt(prefix, fname, b, i);
    }
    forall k | 0 <= k < Total
      ensures RasterPath(prefix, fname, Batches()[k], Idxs()[k]) != RasterPath(prefix, fname, b, 0)
    {
      RasterNotChunk0(prefix, fname, b, k);
    }
  }

  lemma RasterAsWrittenAt(prefix: string, fname: string, b: nat, i: nat)
    requires b < BATCH && i < N - 1
    ensures RasterPath(prefix, fname, b, i) != RasterPath(prefix, fname, Batches()[Flat(b, i)], Idxs()[Flat(b, i)])
    ensures RasterPath(prefix, fname, b, i) != RasterPath(prefix, fname, b, N - 1)
  {
    WorkOrder(b, i);
    if RasterPath(prefix, fname, b, i) == RasterPath(prefix, fname, b, i + 1) {
      RasterPathInjective(prefix, fname, b, i, b, i + 1);
    }
    if RasterPath(prefix, fname, b, i) == RasterPath(prefix, fname, b, N - 1) {
      RasterPathInjective(prefix, fname, b, i, b, N - 1);
    }
  }

  /** No encode_all task reads chunk 0's raw input. */
  lemma RasterNotChunk0(prefix: string, fname: string, b: nat, k: nat)
    requires b < BATCH && k < Total
    ensures RasterPath(prefix, fname, Batches()[k], Idxs()[k]) != RasterPath(prefix, fname, b, 0)
  {
    FlatOnto(k);
    var b', i' := Batches()[k], Idxs()[k];
    assert b' < BATCH && 1 <= i' < N;
    if RasterPath(prefix, fname, b', i') == RasterPath(prefix, fname, b, 0) {
      RasterPathInjective(prefix, fname, b', i', b, 0);
    }
  }

  /** Corrected, rebase step i reads the raw input its container was encoded from. */
  lemma RebaseRasterMatches(prefix: string, fname: string, b: nat, i: nat)
    requires b < BATCH && i < N - 1
    ensures RasterPath(prefix, fname, b, RasterIdx(i)) == RasterPath(prefix, fname, Batches()[Flat(b, i)], Idxs()[Flat(b, i)])
  {
    WorkOrder(b, i);
  }

  // ---------------------------------------------------------------------------
  // write_output and main

  /** The directory after write_output has written the first n outputs. */
  function Written(files: map<string, seq<byte>>, prefix: string, fname: string, final: seq<Ivf>, n: nat)
    : map<string, seq<byte>>
    requires n <= |final|
  {
    if n == 0 then files
    else Written(files, prefix, fname, final, n - 1)[FinalPath(prefix, fname, n - 1) := final[n - 1].buffer]
  }

  /** After write_output each batch's output file holds its container, and every
      other file is as it was. */
  lemma {:induction false} WrittenFiles(files: map<string, seq<byte>>, prefix: string, fname: string,
                                        final: seq<Ivf>, n: nat)
    requires n <= |final| && n <= 100
    ensures forall b :: 0 <= b < n ==>
      FinalPath(prefix, fname, b) in Written(files, prefix, fname, final, n)
      && Written(files, prefix, fname, final, n)[FinalPath(prefix, fname, b)] == final[b].buffer
    ensures forall p :: p in files && (forall b :: 0 <= b < n ==> p != FinalPath(prefix, fname, b)) ==>
      p in Written(files, prefix, fname, final, n) && Written(files, prefix, fname, final, n)[p] == files[p]
  {
    if n > 0 {
      WrittenFiles(files, prefix, fname, final, n - 1);
      var w := Written(files, prefix, fname, final, n - 1);
      var p := FinalPath(prefix, fname, n - 1);
      var w' := Written(files, prefix, fname, final, n);
      assert w' == w[p := final[n - 1].buffer];
      forall b | 0 <= b < n
        ensures FinalPath(prefix, fname, b) in w' && w'[FinalPath(prefix, fname, b)] == final[b].buffer
      {
        if b < n - 1 && FinalPath(prefix, fname, b) == p {
          FinalPathInjective(prefix, fname, b, n - 1);
        }
      }
      forall q | q in files && (forall b :: 0 <= b < n ==> q != FinalPath(prefix, fname, b))
        ensures q in w' && w'[q] == files[q]
      {
        assert q != p;
      }
    }
  }

  /** main: the prefix is the last argument and the file name the one before. */
  function MainArgs(args: seq<string>): (r: (string, string))
    requires |args| >= 2
    ensures r.0 == args[|args| - 1] && r.1 == args[|args| - 2]
  {
    (args[|args| - 1], args[|args| - 2])
  }

  function Min(a: nat, b: nat): nat { if a < b then a else b }

  /** Extending a span by one takes in the element at its end. */
  lemma SliceSnoc<T>(v: seq<T>, lo: nat, hi: nat)
    requires lo <= hi < |v|
    ensures v[lo..hi + 1] == v[lo..hi] + [v[hi]]
  {
  }

  /** a[..] := s, one element at a time. */
  method Fill<T>(a: array<T>, s: seq<T>)
    requires a.Length == |s|
    modifies a
    ensures a[..] == s
  {
    var i := 0;
    while i < a.Length
      invariant i <= a.Length && forall j :: 0 <= j < i ==> a[j] == s[j]
    {
      a[i] := s[i];
      i := i + 1;
    }
  }

  // ---------------------------------------------------------------------------
  // the program

  /** The xc_t state object; ivf0 and state0 are its fixed arrays of BATCH slots. */
  class Eval {
    var vpx0: seq<Ivf>
    var vpx1: seq<Ivf>
    var xcIvf: seq<Ivf>
    var decState: seq<State>
    var encState: seq<State>
    var final: seq<Ivf>
    const ivf0: array<Ivf>
    const state0: array<State>

    predicate Valid()
    {
      ivf0.Length == BATCH && state0.Length == BATCH
    }

    /** do_work's set-up: empty vectors (created with a size hint only) and
        value-initialised slots. */
    constructor ()
      ensures Valid() && fresh(ivf0) && fresh(state0)
      ensures vpx0 == [] && vpx1 == [] && xcIvf == [] && decState == [] && encState == [] && final == []
      ensures forall b :: 0 <= b < BATCH ==> ivf0[b] == Default && state0[b] == []
    {
      vpx0, vpx1, xcIvf := [], [], [];
      decState, encState := [], [];
      final := [];
      ivf0 := new Ivf[BATCH](_ => Default);
      state0 := new State[BATCH](_ => []);
    }

    /** read_input: every batch's N containers, appended batch after batch. */
    method ReadInput(files: map<string, seq<byte>>, prefix: string, fname: string)
      returns (failure: Option<Error>, ghost read: Input)
      requires Valid()
      modifies this, ivf0
      ensures xcIvf == old(xcIvf) && decState == old(decState) && encState == old(encState) && final == old(final)
      ensures failure.None? <==> forall b, i :: 0 <= b < BATCH && 0 <= i < N ==> Readable(files, prefix, fname, b, i)
      ensures failure.None? ==>
        && InputUpTo(files, prefix, fname, read, BATCH)
        && vpx0 == old(vpx0) + read.vpx0 && vpx1 == old(vpx1) + read.vpx1 && ivf0[..] == read.ivf0
      ensures failure.Some? ==> vpx0 == old(vpx0) && vpx1 == old(vpx1) && ivf0[..] == old(ivf0[..])
      ensures failure.Some? ==> ReadFailed(files, prefix, fname, failure.value)
    {
      var r := ReadBatches(files, prefix, fname);
      if r.Err? {
        return Some(r.error), Input([], [], []);
      }
      var input := r.value;
      Fill(ivf0, input.ivf0);
      vpx0, vpx1 := vpx0 + input.vpx0, vpx1 + input.vpx1;
      return None, input;
    }

    /** decode_all: every prediction container decoded; state0[b] is batch b's
        first state and dec_state gets all of them, in order. */
    method DecodeAll(c: Codec) returns (failure: Option<Error>)
      requires Valid() && Total <= |vpx0|
      modifies this, state0
      ensures vpx0 == old(vpx0) && vpx1 == old(vpx1) && xcIvf == old(xcIvf) && encState == old(encState)
      ensures final == old(final)
      ensures failure.None? <==> DecodeEach(c, vpx0).Ok?
      ensures failure.None? ==>
        && |DecodeEach(c, vpx0).value| == |vpx0|
        && decState == old(decState) + DecodeEach(c, vpx0).value[..Total]
        && state0[..] == Firsts(DecodeEach(c, vpx0).value)
      ensures failure.Some? ==>
        DecodeEach(c, vpx0) == Err(failure.value) && decState == old(decState) && state0[..] == old(state0[..])
    {
      var r := DecodeTasks(c, vpx0);
      if r.Err? {
        return Some(r.error);
      }
      DecodeEachOk(c, vpx0);
      var s0, dec := SplitDecoded(r.value);
      Fill(state0, s0);
      decState := decState + dec;
      return None;
    }

    /** encode_all: the work list's tasks run over the zipped range, then xc_ivf
        and enc_state get their pushes. */
    method EncodeAll(c: Codec, files: map<string, seq<byte>>, prefix: string, fname: string)
      returns (failure: Option<Error>)
      requires Valid() && Total <= |vpx1| && Total <= |decState|
      modifies this
      ensures vpx0 == old(vpx0) && vpx1 == old(vpx1) && decState == old(decState) && final == old(final)
      ensures failure.None? <==> EncodeEach(c, files, prefix, fname, vpx1, decState, Total).Ok?
      ensures failure.None? ==>
        && |EncodeEach(c, files, prefix, fname, vpx1, decState, Total).value| == Total
        && xcIvf == old(xcIvf) + Ivfs(EncodeEach(c, files, prefix, fname, vpx1, decState, Total).value)
        && encState == old(encState) + Flatten(EncGroups(old(state0[..]), EncodeEach(c, files, prefix, fname, vpx1, decState, Total).value))
      ensures failure.Some? ==>
        EncodeEach(c, files, prefix, fname, vpx1, decState, Total) == Err(failure.value)
        && xcIvf == old(xcIvf) && encState == old(encState)
    {
      ghost var e := EncodeEach(c, files, prefix, fname, vpx1, decState, Total);
      var xc, enc;
      failure, xc, enc := EncodeStage(c, files, prefix, fname, vpx1, decState, state0[..]);
      if failure.None? {
        xcIvf, encState := xcIvf + xc, encState + enc;
      }
      assert e == EncodeEach(c, files, prefix, fname, vpx1, decState, Total);
    }

    /** rebase: xc_ivf and dec_state regrouped per batch, then one chain per batch
        in batch order; final_ivf is their outputs. */
    method Rebase(c: Codec, files: map<string, seq<byte>>, prefix: string, fname: string)
      returns (failure: Option<Error>, ghost chains: seq<Chain>)
      requires Valid() && Total <= |xcIvf| && Total <= |decState|
      modifies this
      ensures vpx0 == old(vpx0) && vpx1 == old(vpx1) && xcIvf == old(xcIvf) && decState == old(decState)
      ensures encState == old(encState)
      ensures failure.None? ==> Rebased(c, files, prefix, fname, xcIvf, decState, ivf0[..], state0[..], chains, final)
      ensures failure.Some? ==>
        && final == old(final)
        && RebaseFailed(c, files, prefix, fname, xcIvf, decState, ivf0[..], state0[..], chains, failure.value)
    {
      var gIvf, gDec := Stitch(xcIvf, decState);
      var outputs: seq<Ivf> := [];
      chains := [];
      var b := 0;
      while b < BATCH
        invariant b <= BATCH && |outputs| == b && |chains| == b
        invariant vpx0 == old(vpx0) && vpx1 == old(vpx1) && xcIvf == old(xcIvf) && decState == old(decState)
        invariant encState == old(encState) && final == old(final)
        invariant forall b' :: 0 <= b' < b ==>
          BatchChained(c, files, prefix, fname, xcIvf, decState, ivf0[..], state0[..], chains[b'], b')
          && outputs[b'] == chains[b'].finals[N - 1]
      {
        var r, w := BatchChain(c, files, prefix, fname, b, gIvf[b], gDec[b], ivf0[b], state0[b]);
        if r.Err? {
          chains := chains + [w];
          return Some(r.error), chains;
        }
        chains := chains + [w];
        outputs := outputs + [r.value];
        b := b + 1;
      }
      final := outputs;
      return None, chains;
    }

    /** decode_all, encode_all and rebase, in do_work's order, once read_input has
        filled the input vectors: on success the state object holds what do_work
        writes out, on failure the error is that of the first stage that throws. */
    method ComputeStages(c: Codec, files: map<string, seq<byte>>, prefix: string, fname: string, ghost read: Input)
      returns (failure: Option<Error>, ghost chains: seq<Chain>)
      requires Valid() && InputUpTo(files, prefix, fname, read, BATCH)
      requires vpx0 == read.vpx0 && vpx1 == read.vpx1 && ivf0[..] == read.ivf0
      requires xcIvf == [] && decState == [] && encState == [] && final == []
      modifies this, state0
      ensures vpx0 == old(vpx0) && vpx1 == old(vpx1) && ivf0[..] == old(ivf0[..])
      ensures failure.None? ==> Computed(c, files, prefix, fname, this, read, chains)
      ensures failure.Some? ==> StagesFailed(c, files, prefix, fname, this, chains, failure.value)
    {
      chains := [];
      failure := DecodeAll(c);
      if failure.Some? {
        return;
      }
      assert decState == DecodeEach(c, vpx0).value;
      failure := EncodeAll(c, files, prefix, fname);
      if failure.Some? {
        return;
      }
      failure, chains := Rebase(c, files, prefix, fname);
    }

    /** write_output: output b as prefix/BB/fnameBB.y4m, for every batch. */
    method WriteOutput(files: map<string, seq<byte>>, prefix: string, fname: string) returns (r: map<string, seq<byte>>)
      requires BATCH <= |final|
      ensures r == Written(files, prefix, fname, final, BATCH)
    {
      r := files;
      var b := 0;
      while b < BATCH
        invariant b <= BATCH && r == Written(files, prefix, fname, final, b)
      {
        r := r[FinalPath(prefix, fname, b) := final[b].buffer];
        b := b + 1;
      }
    }
  }

  /** What do_work has computed when it writes the outputs. */
  ghost predicate Computed(c: Codec, files: map<string, seq<byte>>, prefix: string, fname: string,
                           s: Eval, read: Input, chains: seq<Chain>)
    reads s, s.ivf0, s.state0
  {
    && InputUpTo(files, prefix, fname, read, BATCH)
    && s.vpx0 == read.vpx0 && s.vpx1 == read.vpx1 && s.ivf0[..] == read.ivf0
    && DecodeEach(c, s.vpx0) == Ok(s.decState) && |s.decState| == Total && s.state0[..] == Firsts(s.decState)
    && EncodeEach(c, files, prefix, fname, s.vpx1, s.decState, Total).Ok?
    && s.xcIvf == Ivfs(EncodeEach(c, files, prefix, fname, s.vpx1, s.decState, Total).value)
    && s.encState == Flatten(EncGroups(s.state0[..], EncodeEach(c, files, prefix, fname, s.vpx1, s.decState, Total).value))
    && Rebased(c, files, prefix, fname, s.xcIvf, s.decState, s.ivf0[..], s.state0[..], chains, s.final)
  }

  /** Where the compute stages stop when one throws e: the first stage that
      fails, after every earlier stage has succeeded. */
  ghost predicate StagesFailed(c: Codec, files: map<string, seq<byte>>, prefix: string, fname: string,
                               s: Eval, chains: seq<Chain>, e: Error)
    reads s, s.ivf0, s.state0
  {
    || DecodeEach(c, s.vpx0) == Err(e)
    || (&& DecodeEach(c, s.vpx0) == Ok(s.decState) && |s.decState| == Total && Total <= |s.vpx1|
        && s.state0[..] == Firsts(s.decState)
        && (|| EncodeEach(c, files, prefix, fname, s.vpx1, s.decState, Total) == Err(e)
            || (&& EncodeEach(c, files, prefix, fname, s.vpx1, s.decState, Total).Ok?
                && s.xcIvf == Ivfs(EncodeEach(c, files, prefix, fname, s.vpx1, s.decState, Total).value)
                && RebaseFailed(c, files, prefix, fname, s.xcIvf, s.decState, s.ivf0[..], s.state0[..], chains, e))))
  }

  /** Where do_work stops when a stage throws e: read_input fails, or the input is
      read and a compute stage fails. */
  ghost predicate WorkFailed(c: Codec, files: map<string, seq<byte>>, prefix: string, fname: string,
                             s: Eval, read: Input, chains: seq<Chain>, e: Error)
    reads s, s.ivf0, s.state0
  {
    || ReadFailed(files, prefix, fname, e)
    || (&& InputUpTo(files, prefix, fname, read, BATCH)
        && s.vpx0 == read.vpx0 && s.vpx1 == read.vpx1 && s.ivf0[..] == read.ivf0
        && StagesFailed(c, files, prefix, fname, s, chains, e))
  }

  /** do_work: read, decode, encode, rebase and write every batch's output. */
  method DoWork(c: Codec, files: map<string, seq<byte>>, prefix: string, fname: string)
    returns (s: Eval, r: Result<map<string, seq<byte>>, Error>, ghost read: Input, ghost chains: seq<Chain>)
    ensures fresh(s)
    ensures r.Ok? ==>
      Computed(c, files, prefix, fname, s, read, chains) && r.value == Written(files, prefix, fname, s.final, BATCH)
    ensures r.Err? ==> WorkFailed(c, files, prefix, fname, s, read, chains, r.error)
  {
    s := new Eval();
    chains := [];
    var failure;
    failure, read := s.ReadInput(files, prefix, fname);
    if failure.Some? {
      return s, Err(failure.value), read, chains;
    }
    failure, chains := s.ComputeStages(c, files, prefix, fname, read);
    if failure.Some? {
      return s, Err(failure.value), read, chains;
    }
    var out := s.WriteOutput(files, prefix, fname);
    return s, Ok(out), read, chains;
  }
}
