/** Caladan's TcpConn::WritevFullRaw and ReadvFullRaw: keep calling the
    scatter/gather transfer on what is left of an iovec array until all of
    it has moved, or a call fails. */
module Net {
  /** One iovec: a buffer address and a length in bytes. */
  datatype IoVec = IoVec(base: nat, len: nat)

  /** The bytes an iovec array describes. */
  function Sum(iov: seq<IoVec>): nat
  {
    if iov == [] then 0 else iov[0].len + Sum(iov[1..])
  }

  /** What is left of `iov` once its first `n` bytes have moved: the
      entries used up are dropped and the first one used only in part
      starts `n` bytes later. */
  function Pull(iov: seq<IoVec>, n: nat): seq<IoVec>
    requires n <= Sum(iov)
  {
    if iov == [] then []
    else if n < iov[0].len then [IoVec(iov[0].base + n, iov[0].len - n)] + iov[1..]
    else Pull(iov[1..], n - iov[0].len)
  }

  /** Pulling takes away exactly `n` bytes; what is left is empty exactly
      when nothing is, and otherwise begins with a non-empty entry that
      ends where the original's last bytes end. */
  lemma {:induction false} PullSum(iov: seq<IoVec>, n: nat)
    requires n <= Sum(iov)
    ensures Sum(Pull(iov, n)) == Sum(iov) - n
    ensures Pull(iov, n) == [] <==> n == Sum(iov)
    ensures Pull(iov, n) != [] ==> Pull(iov, n)[0].len > 0
    decreases |iov|
  {
    if iov != [] && n >= iov[0].len {
      PullSum(iov[1..], n - iov[0].len);
    }
  }

  /** The remainder is a suffix of the original, but for the start of its
      first entry. */
  lemma {:induction false} PullSuffix(iov: seq<IoVec>, n: nat)
    requires n <= Sum(iov)
    ensures var p := Pull(iov, n);
      p == [] || (|p| <= |iov| && p[1..] == iov[|iov| - |p| + 1..])
    ensures var p := Pull(iov, n);
      p != [] ==> var e := iov[|iov| - |p|]; p[0].base + p[0].len == e.base + e.len
    decreases |iov|
  {
    if iov != [] && n >= iov[0].len {
      PullSuffix(iov[1..], n - iov[0].len);
      var p := Pull(iov, n);
      if p != [] {
        assert iov[1..][|iov| - 1 - |p|] == iov[|iov| - |p|];
      }
    }
  }

  /** SumIOV: the lengths added up in order. */
  method SumIOV(iov: seq<IoVec>) returns (len: nat)
    ensures len == Sum(iov)
  {
    len := 0;
    var i := 0;
    while i < |iov|
      invariant i <= |iov| && len + Sum(iov[i..]) == Sum(iov)
    {
      assert iov[i..][1..] == iov[i + 1..];
      len := len + iov[i].len;
      i := i + 1;
    }
  }

  /** PullIOV on the span v[lo..] of the caller's copy: trims the entry
      in which byte `n` falls, in place, and returns the index where the
      rest begins (v.Length for the empty span). The assert that all of
      `n` was consumed is the precondition. */
  method PullIOV(v: array<IoVec>, lo: nat, n: nat) returns (lo': nat)
    requires lo <= v.Length && n <= Sum(v[lo..])
    modifies v
    ensures lo <= lo' <= v.Length
    ensures v[lo'..] == Pull(old(v[lo..]), n)
    ensures v[..lo'] == old(v[..lo'])
  {
    var it := lo;
    var m: nat := n;
    while it < v.Length
      invariant lo <= it <= v.Length && m <= Sum(v[it..])
      invariant Pull(v[lo..], n) == Pull(v[it..], m)
      invariant v[..] == old(v[..])
    {
      assert v[it..][1..] == v[it + 1..];
      if m < v[it].len {
        ghost var rest := v[it + 1..];
        v[it] := IoVec(v[it].base + m, v[it].len - m);
        assert v[it..] == [v[it]] + rest;
        return it;
      }
      m := m - v[it].len;
      it := it + 1;
    }
    return v.Length;
  }

  /** The transfer calls the caller's connection answers, in order, are
      `results`: each is an error (negative), or a count of bytes no larger
      than what was asked for; writes never return 0 (an assert), reads may,
      and end the transfer. A call that moves everything asked for is the
      last. */
  ghost predicate Trace(iov: seq<IoVec>, results: seq<int>, isWrite: bool)
    decreases |results|
  {
    && results != []
    && (isWrite ==> results[0] != 0)
    && (results[0] > 0 ==>
          && results[0] <= Sum(iov)
          && (results[0] < Sum(iov) ==> Trace(Pull(iov, results[0]), results[1..], isWrite)))
  }

  /** The value a full transfer returns after `sent` bytes have already
      gone: the first result that is not positive, or else the running
      total when the last piece has moved. */
  ghost function Outcome(iov: seq<IoVec>, results: seq<int>, isWrite: bool, sent: nat): int
    requires Trace(iov, results, isWrite)
    decreases |results|
  {
    var n := results[0];
    if n <= 0 then n
    else if n == Sum(iov) then sent + n
    else Outcome(Pull(iov, n), results[1..], isWrite, sent + n)
  }

  /** A full transfer either moves every byte and returns their number, or
      returns one of the connection's own non-positive results. */
  lemma {:induction false} OutcomeIs(iov: seq<IoVec>, results: seq<int>, isWrite: bool, sent: nat)
    requires Trace(iov, results, isWrite)
    ensures var r := Outcome(iov, results, isWrite, sent);
      && (r > 0 ==> r == sent + Sum(iov))
      && (r <= 0 ==> r in results && (isWrite ==> r < 0))
    decreases |results|
  {
    var n := results[0];
    if 0 < n < Sum(iov) {
      OutcomeIs(Pull(iov, n), results[1..], isWrite, sent + n);
      PullSum(iov, n);
      var r := Outcome(iov, results, isWrite, sent);
      if r <= 0 {
        assert r in results[1..];
      }
    }
  }

  /** One step of a full transfer: a call that moves everything left ends it
      with the running total; otherwise the rest of the trace describes the
      transfer of what is left. */
  lemma TransferStep(c: seq<IoVec>, rs: seq<int>, isWrite: bool, sent: nat)
    requires Trace(c, rs, isWrite) && rs[0] > 0
    ensures Sum(Pull(c, rs[0])) == Sum(c) - rs[0]
    ensures Pull(c, rs[0]) == [] ==> Outcome(c, rs, isWrite, sent) == sent + rs[0]
    ensures Pull(c, rs[0]) != [] ==>
      && |rs| >= 2 && Trace(Pull(c, rs[0]), rs[1..], isWrite)
      && Outcome(c, rs, isWrite, sent) == Outcome(Pull(c, rs[0]), rs[1..], isWrite, sent + rs[0])
      && (rs[1] <= 0 ==> Outcome(c, rs, isWrite, sent) == rs[1])
      && (rs[1] > 0 ==> rs[1] <= Sum(Pull(c, rs[0])))
  {
    PullSum(c, rs[0]);
  }

  /** WritevFullRaw (isWrite) and ReadvFullRaw share this loop: one
      transfer on the whole array; if it moved less than all, a copy is
      pulled past what moved and transferred again, until nothing is left
      or a call fails. */
  method TransferFull(iov: seq<IoVec>, results: seq<int>, isWrite: bool) returns (r: int)
    requires Trace(iov, results, isWrite)
    ensures r == Outcome(iov, results, isWrite, 0)
  {
    var n := results[0];
    if n <= 0 {
      return n;
    }
    var total := SumIOV(iov);
    if n == total {
      return n;
    }
    var len: nat := n;
    var v := new IoVec[|iov|](i requires 0 <= i < |iov| => iov[i]);
    assert v[0..] == iov;
    var lo := 0;
    var k := 1;
    while true
      invariant lo <= v.Length && 1 <= k <= |results| && results[k - 1] == n
      invariant 0 < n <= len && n <= Sum(v[lo..])
      invariant Trace(v[lo..], results[k - 1..], isWrite)
      invariant Outcome(iov, results, isWrite, 0) == Outcome(v[lo..], results[k - 1..], isWrite, len - n)
      decreases Sum(v[lo..]) - n
    {
      ghost var c := v[lo..];
      ghost var rs := results[k - 1..];
      TransferStep(c, rs, isWrite, len - n);
      lo := PullIOV(v, lo, n);
      ghost var p := v[lo..];
      assert p == Pull(c, n);
      if lo == v.Length {
        assert p == [];
        return len;
      }
      assert rs[1..] == results[k..] && rs[1] == results[k];
      n := results[k];
      k := k + 1;
      if n <= 0 {
        return n;
      }
      len := len + n;
    }
  }

  method WritevFullRaw(iov: seq<IoVec>, results: seq<int>) returns (r: int)
    requires Trace(iov, results, true)
    ensures r == Outcome(iov, results, true, 0)
    ensures r > 0 ==> r == Sum(iov)
    ensures r <= 0 ==> r < 0 && r in results
  {
    OutcomeIs(iov, results, true, 0);
    r := TransferFull(iov, results, true);
  }

  method ReadvFullRaw(iov: seq<IoVec>, results: seq<int>) returns (r: int)
    requires Trace(iov, results, false)
    ensures r == Outcome(iov, results, false, 0)
    ensures r > 0 ==> r == Sum(iov)
    ensures r <= 0 ==> r in results
  {
    OutcomeIs(iov, results, false, 0);
    r := TransferFull(iov, results, false);
  }
}
