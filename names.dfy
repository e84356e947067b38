/** The file names of the ExCamera stages: `std::setw(2) << std::setfill('0') << i`
    gives a zero-padded decimal index of at least two digits, and every per-chunk
    file is a prefix, a stage tag, that index and an extension. */
module Names {

  /** The decimal digits of `n`, most significant first, with no leading zeros. */
  function Decimal(n: nat): (s: string)
    ensures |s| >= 1 && forall k :: 0 <= k < |s| ==> '0' <= s[k] <= '9'
    decreases n
  {
    if n < 10 then [Digit(n)] else Decimal(n / 10) + [Digit(n % 10)]
  }

  function Digit(d: nat): (c: char)
    requires d < 10
    ensures '0' <= c <= '9'
  {
    "0123456789"[d]
  }

  /** The value of a string of decimal digits. */
  function Value(s: string): nat
    requires forall k :: 0 <= k < |s| ==> '0' <= s[k] <= '9'
    decreases |s|
  {
    if s == [] then 0 else 10 * Value(s[..|s| - 1]) + (s[|s| - 1] as int - '0' as int)
  }

  /** `std::setw(2) << std::setfill('0') << n`. */
  function Pad2(n: nat): (s: string)
    ensures forall k :: 0 <= k < |s| ==> '0' <= s[k] <= '9'
  {
    if n < 10 then "0" + Decimal(n) else Decimal(n)
  }

  /** Reading the digits back gives the number. */
  lemma {:induction false} DecimalValue(n: nat)
    ensures Value(Decimal(n)) == n
    decreases n
  {
    var s := Decimal(n);
    if n < 10 {
      DigitValue(n);
      assert s[..|s| - 1] == [];
    } else {
      DecimalValue(n / 10);
      DigitValue(n % 10);
      assert s[..|s| - 1] == Decimal(n / 10) && s[|s| - 1] == Digit(n % 10);
    }
  }

  /** The digit character of d stands for d. */
  lemma DigitValue(d: nat)
    requires d < 10
    ensures Digit(d) as int - '0' as int == d
  {
  }

  /** An index below 100 is written with exactly two digits, which read back as the
      index; so two indices below 100 get the same digits only if they are equal. */
  lemma Pad2RoundTrip(n: nat)
    requires n < 100
    ensures |Pad2(n)| == 2 && Value(Pad2(n)) == n
  {
    DecimalValue(n);
    if n < 10 {
      assert Pad2(n)[..1] == "0";
    } else {
      assert Decimal(n) == Decimal(n / 10) + [Digit(n % 10)];
    }
  }

  lemma Pad2Injective(i: nat, j: nat)
    requires i < 100 && j < 100 && Pad2(i) == Pad2(j)
    ensures i == j
  {
    Pad2RoundTrip(i);
    Pad2RoundTrip(j);
  }

  /** The name of stage file `tag` for chunk `i`, e.g. prefix + "vpx_" + "07" + ".ivf". */
  function ChunkName(prefix: string, tag: string, i: nat, ext: string): string
  {
    prefix + tag + Pad2(i) + ext
  }

  /** The chunk-i raw input file and its VP8 file. */
  function InputName(prefix: string, i: nat): string { ChunkName(prefix, "", i, ".y4m") }
  function VpxName(prefix: string, i: nat): string { ChunkName(prefix, "vpx_", i, ".ivf") }

  /** A stage tag: empty (the raw .y4m chunks), or a word with one underscore, at its end. */
  predicate IsTag(t: string)
  {
    t == [] || (t[|t| - 1] == '_' && '_' !in t[..|t| - 1])
  }

  /** The characters up to and including the first underscore, or nothing if none. */
  function TagOf(s: string): string
    decreases |s|
  {
    if s == [] then []
    else if s[0] == '_' then "_"
    else
      var t := TagOf(s[1..]);
      if t == [] then [] else [s[0]] + t
  }

  lemma {:induction false} TagOfNone(s: string)
    requires '_' !in s
    ensures TagOf(s) == []
    decreases |s|
  {
    if s != [] {
      assert '_' !in s[1..] by {
        forall k | 0 <= k < |s| - 1 ensures s[1..][k] != '_' {
          assert s[1..][k] == s[k + 1];
        }
      }
      TagOfNone(s[1..]);
    }
  }

  lemma {:induction false} TagOfTag(t: string, rest: string)
    requires IsTag(t) && '_' !in rest
    ensures TagOf(t + rest) == t
    decreases |t|
  {
    if t == [] {
      assert t + rest == rest;
      TagOfNone(rest);
    } else if |t| == 1 {
      assert (t + rest)[0] == '_';
    } else {
      var s := t + rest;
      assert s[0] == t[0] && t[0] != '_' by {
        assert t[..|t| - 1][0] == t[0];
      }
      assert s[1..] == t[1..] + rest;
      assert t[1..][..|t[1..]| - 1] == t[..|t| - 1][1..];
      TagOfTag(t[1..], rest);
      assert [t[0]] + t[1..] == t;
    }
  }

  /** Stage file names never collide: with tags as above, indices below 100 and
      extensions free of underscores, the name determines the tag, the index and the
      extension. */
  lemma ChunkNameInjective(prefix: string, t1: string, i: nat, e1: string,
                           t2: string, j: nat, e2: string)
    requires IsTag(t1) && IsTag(t2) && i < 100 && j < 100
    requires '_' !in e1 && '_' !in e2
    requires ChunkName(prefix, t1, i, e1) == ChunkName(prefix, t2, j, e2)
    ensures t1 == t2 && i == j && e1 == e2
  {
    Pad2RoundTrip(i);
    Pad2RoundTrip(j);
    ChunkNameSplit(prefix, t1, i, e1);
    ChunkNameSplit(prefix, t2, j, e2);
    StripPrefix(prefix, t1 + (Pad2(i) + e1), t2 + (Pad2(j) + e2));
    NoUnderscore(Pad2(i), e1);
    NoUnderscore(Pad2(j), e2);
    SplitTagged(t1, Pad2(i) + e1, t2, Pad2(j) + e2);
    SplitFixed(Pad2(i), e1, Pad2(j), e2);
    Pad2Injective(i, j);
  }

  lemma ChunkNameSplit(prefix: string, t: string, i: nat, e: string)
    ensures ChunkName(prefix, t, i, e) == prefix + (t + (Pad2(i) + e))
  {
  }

  lemma StripPrefix(p: string, a: string, b: string)
    requires p + a == p + b
    ensures a == b
  {
    assert (p + a)[|p|..] == a;
    assert (p + b)[|p|..] == b;
  }

  lemma SplitFixed(d1: string, e1: string, d2: string, e2: string)
    requires |d1| == |d2| && d1 + e1 == d2 + e2
    ensures d1 == d2 && e1 == e2
  {
    assert (d1 + e1)[..|d1|] == d1 && (d2 + e2)[..|d2|] == d2;
    assert (d1 + e1)[|d1|..] == e1 && (d2 + e2)[|d2|..] == e2;
  }

  lemma SplitTagged(t1: string, r1: string, t2: string, r2: string)
    requires IsTag(t1) && IsTag(t2) && '_' !in r1 && '_' !in r2 && t1 + r1 == t2 + r2
    ensures t1 == t2 && r1 == r2
  {
    TagOfTag(t1, r1);
    TagOfTag(t2, r2);
    SplitFixed(t1, r1, t2, r2);
  }

  lemma NoUnderscore(d: string, e: string)
    requires forall k :: 0 <= k < |d| ==> '0' <= d[k] <= '9'
    requires '_' !in e
    ensures '_' !in d + e
  {
    forall k | 0 <= k < |d + e| ensures (d + e)[k] != '_' {
      if k >= |d| {
        assert (d + e)[k] == e[k - |d|];
      }
    }
  }

  /** The example the stage code produces for chunk 7 of the input container. */
  lemma ChunkNameExample()
    ensures ChunkName("sintel01_", "vpx_", 7, ".ivf") == "sintel01_vpx_07.ivf"
  {
    assert Decimal(7) == "7";
  }
}
