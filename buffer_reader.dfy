/** alfalfa's BufferReader: a byte buffer read front to back in pieces of at
    most BUFFER_SIZE bytes, with an end-of-file flag and a count of reads. */
module BufferReaders {
  import opened Bytes
  import opened Wrappers

  const NEWLINE: byte := 10

  /** The two runtime_errors the reader throws. */
  datatype ReadError = ReadAfterEof | EofBeforeTarget

  function Min(a: nat, b: nat): nat { if a < b then a else b }

  /** The bytes of `s` before its first newline; all of `s` if it has none. */
  function LineOf(s: seq<byte>): (l: seq<byte>)
    ensures |l| <= |s|
    decreases |s|
  {
    if s == [] || s[0] == NEWLINE then [] else [s[0]] + LineOf(s[1..])
  }

  /** The line is the longest newline-free prefix: it is a prefix, it holds no
      newline, and it is followed by one unless it is the whole of `s`. */
  lemma {:induction false} LineOfSplit(s: seq<byte>)
    ensures LineOf(s) == s[..|LineOf(s)|]
    ensures NEWLINE !in LineOf(s)
    ensures |LineOf(s)| < |s| ==> s[|LineOf(s)|] == NEWLINE
    decreases |s|
  {
    if s != [] && s[0] != NEWLINE {
      LineOfSplit(s[1..]);
      assert LineOf(s) == [s[0]] + LineOf(s[1..]);
    }
  }

  /** A newline-free text followed by a newline, or by nothing, reads back as
      that text. */
  lemma {:induction false} LineOfRoundTrip(line: seq<byte>, rest: seq<byte>)
    requires NEWLINE !in line
    ensures LineOf(line + [NEWLINE] + rest) == line && LineOf(line) == line
    decreases |line|
  {
    if line != [] {
      assert NEWLINE !in line[1..] by {
        forall k | 0 <= k < |line| - 1 ensures line[1..][k] != NEWLINE {
          assert line[1..][k] == line[k + 1];
        }
      }
      LineOfRoundTrip(line[1..], rest);
      assert (line + [NEWLINE] + rest)[1..] == line[1..] + [NEWLINE] + rest;
      assert [line[0]] + line[1..] == line;
    } else {
      assert (line + [NEWLINE] + rest)[0] == NEWLINE;
    }
  }

  /** The number of reads of at most `b` bytes that it takes to consume `m`
      bytes when each read gets as much as it may. */
  function Chunks(m: nat, b: nat): nat
    decreases m
  {
    if m == 0 || b == 0 then 0 else 1 + Chunks(m - Min(b, m), b)
  }

  /** That number is m / b rounded up: the least q with m <= q * b. */
  lemma {:induction false} ChunksCeil(m: nat, b: nat)
    requires b > 0
    ensures m <= Chunks(m, b) * b < m + b
    decreases m
  {
    if 0 < m <= b {
      assert Chunks(m, b) == 1 + Chunks(0, b);
    } else if m > b {
      ChunksCeil(m - b, b);
      var q := Chunks(m - b, b);
      assert Chunks(m, b) == 1 + q;
      assert (1 + q) * b == b + q * b;
    }
  }

  /** A read within read_exactly that gets a non-empty piece: the bytes got
      so far grow by the piece and stay a prefix of the unread bytes `s0`,
      no further than the `a` bytes read_exactly will get, and the piece is
      one of the Chunks(a - got, b) reads still to come. */
  lemma ExactlyStep(s0: seq<byte>, ret: seq<byte>, u: seq<byte>, piece: seq<byte>, rest: seq<byte>,
                    b: nat, length: nat, a: nat)
    requires a == (if b == 0 then 0 else Min(length, |s0|))
    requires |ret| <= a && ret == s0[..|ret|] && u == s0[|ret|..] && piece + rest == u
    requires |ret| < length && 0 < |piece| == Min(Min(b, length - |ret|), |u|)
    ensures |ret| + |piece| <= a && s0[..|ret| + |piece|] == ret + piece
    ensures Chunks(a - |ret|, b) == 1 + Chunks(a - (|ret| + |piece|), b)
  {
    PrefixExtend(s0, ret, piece, rest);
  }

  /** A read within read_exactly that gets nothing ends it: the reader read
      nothing at all (BUFFER_SIZE 0) or has reached the end, and the reads
      counted so far are all the reads of the unread bytes. */
  lemma ExactlyEof(s0: seq<byte>, ret: seq<byte>, u: seq<byte>, b: nat, length: nat, a: nat)
    requires a == (if b == 0 then 0 else Min(length, |s0|))
    requires |ret| <= a && u == s0[|ret|..]
    requires |ret| < length && 0 == Min(Min(b, length - |ret|), |u|)
    ensures b == 0 ==> ret == [] && Chunks(a, b) == 0 && Chunks(a - |ret|, b) == 0
    ensures b > 0 ==> |ret| == |s0| && Chunks(a, b) == Chunks(|s0|, b) && Chunks(a - |ret|, b) == 0
  {
  }

  /** read_exactly's loop ends with `length` bytes: with `length` > 0 this
      needs a non-zero BUFFER_SIZE and as many unread bytes, and what is left
      unread follows them. */
  lemma ExactlyDone(buf: seq<byte>, idx: nat, s0: seq<byte>, ret: seq<byte>, b: nat, length: nat, a: nat)
    requires idx <= |buf| && s0 == buf[idx..]
    requires a == (if b == 0 then 0 else Min(length, |s0|))
    requires |ret| <= a && ret == s0[..|ret|] && |ret| >= length
    ensures |ret| == length == a && ret == s0[..length] && idx + length <= |buf|
    ensures buf[idx + length..] == s0[length..]
    ensures length > 0 ==> b > 0 && length <= |s0|
  {
  }

  /** A prefix of `s` followed by the piece read next is a longer prefix. */
  lemma PrefixExtend<T>(s: seq<T>, ret: seq<T>, piece: seq<T>, rest: seq<T>)
    requires |ret| <= |s| && ret == s[..|ret|] && piece + rest == s[|ret|..]
    ensures |ret| + |piece| <= |s| && s[..|ret| + |piece|] == ret + piece
  {
    assert |piece| <= |s[|ret|..]|;
    assert s[|ret|..][..|piece|] == piece;
  }

  class BufferReader {
    var eof: bool
    var readIdx: nat
    var readCount: nat
    var buffer: seq<byte>
    /** BUFFER_SIZE, the largest piece a read returns. */
    const bufferSize: nat

    /** The read position never passes the end, and BUFFER_SIZE fits the int
        that read converts the piece length to. */
    predicate Valid()
      reads this
    {
      readIdx <= |buffer| && bufferSize < 0x8000_0000
    }

    /** The bytes not yet read. */
    function Unread(): seq<byte>
      reads this
      requires Valid()
    {
      buffer[readIdx..]
    }

    function Size(): nat
      reads this
    {
      |buffer|
    }

    /** The default constructor: an empty buffer. */
    constructor (bufferSize: nat)
      requires bufferSize < 0x8000_0000
      ensures Valid() && this.bufferSize == bufferSize
      ensures buffer == [] && readIdx == 0 && readCount == 0 && !eof
    {
      this.bufferSize := bufferSize;
      buffer, readIdx, readCount, eof := [], 0, 0, false;
    }

    /** The file constructor, given the file's bytes. */
    constructor FromFile(contents: seq<byte>, bufferSize: nat)
      requires bufferSize < 0x8000_0000
      ensures Valid() && this.bufferSize == bufferSize
      ensures buffer == contents && readIdx == 0 && readCount == 0 && !eof
    {
      this.bufferSize := bufferSize;
      buffer, readIdx, readCount, eof := contents, 0, 0, false;
    }

    /** read(limit): once eof is set it throws; otherwise it counts the read,
        returns the next min(BUFFER_SIZE, limit, bytes left) bytes and moves
        past them, and an empty piece sets eof. */
    method Read(limit: nat) returns (r: Result<seq<byte>, ReadError>)
      requires Valid()
      modifies this
      ensures Valid() && buffer == old(buffer)
      ensures old(eof) ==> r == Err(ReadAfterEof) && eof && readIdx == old(readIdx) && readCount == old(readCount)
      ensures !old(eof) ==>
        && r.Ok? && readCount == old(readCount) + 1
        && |r.value| == Min(Min(bufferSize, limit), |old(Unread())|)
        && readIdx == old(readIdx) + |r.value|
        && r.value + Unread() == old(Unread())
        && eof == (|r.value| == 0)
    {
      if eof {
        return Err(ReadAfterEof);
      }
      var bytesRead := Min(Min(bufferSize, limit), |buffer| - readIdx);
      if bytesRead <= 0 {
        eof := true;
      }
      readCount := readCount + 1;
      var ret := buffer[readIdx..readIdx + bytesRead];
      assert ret + buffer[readIdx + bytesRead..] == buffer[readIdx..];
      readIdx := readIdx + bytesRead;
      return Ok(ret);
    }

    /** getline: one-byte reads up to a newline or the end. The line comes back
        without its newline; a line that ends the buffer leaves eof set. */
    method Getline() returns (r: Result<seq<byte>, ReadError>)
      requires Valid()
      modifies this
      ensures Valid() && buffer == old(buffer)
      ensures old(eof) ==> r == Err(ReadAfterEof) && eof && readIdx == old(readIdx) && readCount == old(readCount)
      ensures !old(eof) && bufferSize == 0 ==>
        r == Ok([]) && eof && readIdx == old(readIdx) && readCount == old(readCount) + 1
      ensures !old(eof) && bufferSize > 0 ==>
        && r == Ok(LineOf(old(Unread())))
        && readCount == old(readCount) + |LineOf(old(Unread()))| + 1
        && (if |LineOf(old(Unread()))| < |old(Unread())|
            then !eof && Unread() == old(Unread())[|LineOf(old(Unread()))| + 1..]
            else eof && Unread() == [])
    {
      ghost var s0 := Unread();
      LineOfSplit(s0);
      var ret: seq<byte> := [];
      while true
        invariant Valid() && buffer == old(buffer) && eof == old(eof)
        invariant old(eof) ==> readIdx == old(readIdx) && readCount == old(readCount)
        invariant !old(eof) ==> bufferSize > 0 || ret == []
        invariant |ret| <= |LineOf(s0)| && ret == s0[..|ret|]
        invariant readIdx == old(readIdx) + |ret| && readCount == old(readCount) + |ret|
        decreases |buffer| - readIdx
      {
        var charRead := Read(1);
        if charRead.Err? {
          return charRead;
        }
        if eof || charRead.value == [NEWLINE] {
          if !eof {
            assert s0[|ret|] == NEWLINE;
            assert Unread() == s0[|ret| + 1..];
          }
          return Ok(ret);
        }
        assert charRead.value == [s0[|ret|]];
        if |ret| == |LineOf(s0)| {
          assert false;
        }
        assert s0[..|ret| + 1] == ret + charRead.value;
        ret := ret + charRead.value;
      }
    }

    /** read_exactly(length): reads of the bytes still missing until there are
        `length` of them; a read that ends the buffer first throws. */
    method ReadExactly(length: nat) returns (r: Result<seq<byte>, ReadError>)
      requires Valid()
      modifies this
      ensures Valid() && buffer == old(buffer)
      ensures length == 0 ==>
        r == Ok([]) && eof == old(eof) && readIdx == old(readIdx) && readCount == old(readCount)
      ensures length > 0 && old(eof) ==>
        r == Err(ReadAfterEof) && eof && readIdx == old(readIdx) && readCount == old(readCount)
      ensures length > 0 && !old(eof) ==>
        (r.Ok? <==> bufferSize > 0 && length <= |old(Unread())|)
      ensures length > 0 && r.Ok? ==>
        && r.value == old(Unread())[..length] && Unread() == old(Unread())[length..]
        && !eof && readCount == old(readCount) + Chunks(length, bufferSize)
      ensures length > 0 && !old(eof) && r.Err? ==>
        && r.error == EofBeforeTarget && eof
        && readIdx == (if bufferSize == 0 then old(readIdx) else |buffer|)
        && readCount == old(readCount) + Chunks(|old(Unread())|, bufferSize) + 1
    {
      ghost var s0 := Unread();
      ghost var a := if bufferSize == 0 then 0 else Min(length, |s0|);
      var ret: seq<byte> := [];
      while |ret| < length
        invariant Valid() && buffer == old(buffer) && eof == old(eof)
        invariant old(eof) ==> ret == [] && readIdx == old(readIdx)
        invariant |ret| <= a && ret == s0[..|ret|] && readIdx == old(readIdx) + |ret|
        invariant readCount + Chunks(a - |ret|, bufferSize) == old(readCount) + Chunks(a, bufferSize)
        decreases length - |ret|
      {
        ghost var u := Unread();
        ghost var count := readCount;
        assert u == s0[|ret|..];
        var piece := Read(length - |ret|);
        if piece.Err? {
          return piece;
        }
        ghost var p := piece.value;
        assert readCount == count + 1 && p + Unread() == u;
        if |p| == 0 {
          ExactlyEof(s0, ret, u, bufferSize, length, a);
        } else {
          ExactlyStep(s0, ret, u, p, Unread(), bufferSize, length, a);
        }
        ret := ret + piece.value;
        if eof {
          return Err(EofBeforeTarget);
        }
      }
      ExactlyDone(buffer, old(readIdx), s0, ret, bufferSize, length, a);
      return Ok(ret);
    }

    /** reset: back to the start with eof clear and no reads counted; the
        buffer stays. */
    method Reset()
      modifies this
      ensures buffer == old(buffer) && !eof && readIdx == 0 && readCount == 0
      ensures bufferSize < 0x8000_0000 ==> Valid() && Unread() == buffer
    {
      eof := false;
      readIdx := 0;
      readCount := 0;
    }
  }
}
