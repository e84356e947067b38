/** Phoenix++'s MapReduce engine on Nu, the parts that shape the data: how
    the input is cut into map tasks, how the reduced partitions are joined,
    and MapReduceSort's stable merge of sorted partitions. */
module MapReduces {
  /** A keyval: keys are ordered by `<`, the default sort order. */
  datatype KeyVal<V> = KeyVal(key: int, val: V)

  /** The lists of `qs` one after the other. */
  function Flatten<T>(qs: seq<seq<T>>): seq<T>
  {
    if qs == [] then [] else qs[0] + Flatten(qs[1..])
  }

  lemma {:induction false} FlattenConcat<T>(a: seq<seq<T>>, b: seq<seq<T>>)
    ensures Flatten(a + b) == Flatten(a) + Flatten(b)
    decreases |a|
  {
    if a != [] {
      FlattenConcat(a[1..], b);
      assert (a + b)[0] == a[0] && (a + b)[1..] == a[1..] + b;
      assert Flatten(a + b) == a[0] + Flatten(a[1..] + b);
      assert a[0] + (Flatten(a[1..]) + Flatten(b)) == (a[0] + Flatten(a[1..])) + Flatten(b);
    } else {
      assert a + b == b;
    }
  }

  lemma FlattenAppend<T>(a: seq<seq<T>>, x: seq<T>)
    ensures Flatten(a + [x]) == Flatten(a) + x
  {
    FlattenConcat(a, [x]);
    assert Flatten([x]) == x + Flatten([x][1..]);
  }

  /** Joining the first t lists gives a prefix of joining them all. */
  lemma FlattenPrefix<T>(qs: seq<seq<T>>, t: nat)
    requires t <= |qs|
    ensures Flatten(qs) == Flatten(qs[..t]) + Flatten(qs[t..])
  {
    FlattenConcat(qs[..t], qs[t..]);
    assert qs[..t] + qs[t..] == qs;
  }

  // ---------------------------------------------------------------------
  // The default sort order, std::stable_sort and std::merge.

  predicate Sorted<V>(s: seq<KeyVal<V>>)
  {
    forall i :: 0 < i < |s| ==> s[i - 1].key <= s[i].key
  }

  /** The keyvals of `s` with key `k`, in their order in `s`. */
  function WithKey<V>(s: seq<KeyVal<V>>, k: int): seq<KeyVal<V>>
  {
    if s == [] then [] else (if s[0].key == k then [s[0]] else []) + WithKey(s[1..], k)
  }

  lemma {:induction false} WithKeyConcat<V>(a: seq<KeyVal<V>>, b: seq<KeyVal<V>>, k: int)
    ensures WithKey(a + b, k) == WithKey(a, k) + WithKey(b, k)
    decreases |a|
  {
    if a != [] {
      WithKeyConcat(a[1..], b, k);
      assert (a + b)[0] == a[0] && (a + b)[1..] == a[1..] + b;
      var h := if a[0].key == k then [a[0]] else [];
      assert WithKey(a + b, k) == h + WithKey(a[1..] + b, k);
      assert h + (WithKey(a[1..], k) + WithKey(b, k)) == (h + WithKey(a[1..], k)) + WithKey(b, k);
    } else {
      assert a + b == b;
    }
  }

  /** A sorted list holds no key below its first one. */
  lemma {:induction false} WithKeyBelow<V>(s: seq<KeyVal<V>>, k: int)
    requires Sorted(s) && s != [] && k < s[0].key
    ensures WithKey(s, k) == []
    decreases |s|
  {
    if |s| > 1 {
      assert s[1] == s[1..][0];
      WithKeyBelow(s[1..], k);
    }
  }

  /** Inserting `x` before the first keyval whose key is not below its own. */
  function Insert<V>(x: KeyVal<V>, t: seq<KeyVal<V>>): (r: seq<KeyVal<V>>)
    ensures |r| == |t| + 1
  {
    if t == [] || x.key <= t[0].key then [x] + t else [t[0]] + Insert(x, t[1..])
  }

  /** std::stable_sort by key: an insertion sort from the back, so an
      earlier keyval goes in front of later ones with the same key. */
  function StableSort<V>(s: seq<KeyVal<V>>): (r: seq<KeyVal<V>>)
    ensures |r| == |s|
  {
    if s == [] then [] else Insert(s[0], StableSort(s[1..]))
  }

  lemma InsertProps<V>(x: KeyVal<V>, t: seq<KeyVal<V>>)
    requires Sorted(t)
    ensures var r := Insert(x, t);
      && Sorted(r) && multiset(r) == multiset{x} + multiset(t)
      && r != [] && (r[0] == x || (t != [] && r[0] == t[0]))
      && forall k :: WithKey(r, k) == (if x.key == k then [x] else []) + WithKey(t, k)
  {
    InsertSorted(x, t);
    InsertMultiset(x, t);
    forall k ensures WithKey(Insert(x, t), k) == (if x.key == k then [x] else []) + WithKey(t, k) {
      InsertWithKey(x, t, k);
    }
  }

  lemma {:induction false} InsertSorted<V>(x: KeyVal<V>, t: seq<KeyVal<V>>)
    requires Sorted(t)
    ensures Sorted(Insert(x, t)) && (Insert(x, t)[0] == x || (t != [] && Insert(x, t)[0] == t[0]))
    decreases |t|
  {
    if t == [] || x.key <= t[0].key {
      SortedCons(x, t);
    } else {
      SortedTail(t);
      InsertSorted(x, t[1..]);
      var r' := Insert(x, t[1..]);
      if r'[0] != x {
        assert r'[0] == t[1];
      }
      SortedCons(t[0], r');
    }
  }

  lemma {:induction false} InsertMultiset<V>(x: KeyVal<V>, t: seq<KeyVal<V>>)
    ensures multiset(Insert(x, t)) == multiset{x} + multiset(t)
    decreases |t|
  {
    if t != [] && x.key > t[0].key {
      InsertMultiset(x, t[1..]);
      assert t == [t[0]] + t[1..];
    }
  }

  lemma {:induction false} InsertWithKey<V>(x: KeyVal<V>, t: seq<KeyVal<V>>, k: int)
    ensures WithKey(Insert(x, t), k) == (if x.key == k then [x] else []) + WithKey(t, k)
    decreases |t|
  {
    var h := if x.key == k then [x] else [];
    var r := Insert(x, t);
    if t == [] || x.key <= t[0].key {
      assert r[0] == x && r[1..] == t;
    } else {
      var r1 := Insert(x, t[1..]);
      assert r[0] == t[0] && r[1..] == r1;
      InsertWithKey(x, t[1..], k);
      var g := if t[0].key == k then [t[0]] else [];
      assert WithKey(r, k) == g + (h + WithKey(t[1..], k));
      assert WithKey(t, k) == g + WithKey(t[1..], k);
      assert g + h == h + g by {
        if x.key == k { assert g == []; } else { assert h == []; }
      }
      assert g + (h + WithKey(t[1..], k)) == h + (g + WithKey(t[1..], k)) by {
        assert g + (h + WithKey(t[1..], k)) == (g + h) + WithKey(t[1..], k);
        assert h + (g + WithKey(t[1..], k)) == (h + g) + WithKey(t[1..], k);
      }
    }
  }

  /** The stable sort's result is sorted, holds the same keyvals, and keeps
      the keyvals of each key in their original order. */
  lemma {:induction false} StableSortProps<V>(s: seq<KeyVal<V>>)
    ensures var r := StableSort(s);
      && Sorted(r) && multiset(r) == multiset(s)
      && forall k :: WithKey(r, k) == WithKey(s, k)
    decreases |s|
  {
    if s != [] {
      StableSortProps(s[1..]);
      InsertProps(s[0], StableSort(s[1..]));
      assert s == [s[0]] + s[1..];
    }
  }

  /** std::merge with the sort functor: the second list's head goes first
      only when its key is below the first's. */
  function Merge<V>(a: seq<KeyVal<V>>, b: seq<KeyVal<V>>): (r: seq<KeyVal<V>>)
    ensures |r| == |a| + |b|
    decreases |a| + |b|
  {
    if a == [] then b
    else if b == [] then a
    else if b[0].key < a[0].key then [b[0]] + Merge(a, b[1..])
    else [a[0]] + Merge(a[1..], b)
  }

  lemma SortedTail<V>(s: seq<KeyVal<V>>)
    requires Sorted(s) && s != []
    ensures Sorted(s[1..])
  {
    forall i | 0 < i < |s| - 1 ensures s[1..][i - 1].key <= s[1..][i].key {
      assert s[1..][i - 1] == s[i] && s[1..][i] == s[i + 1];
    }
  }

  /** A keyval no greater than the head of a sorted list can go in front. */
  lemma SortedCons<V>(x: KeyVal<V>, r: seq<KeyVal<V>>)
    requires Sorted(r) && (r != [] ==> x.key <= r[0].key)
    ensures Sorted([x] + r)
  {
    var s := [x] + r;
    forall i | 0 < i < |s| ensures s[i - 1].key <= s[i].key {
      if i > 1 {
        assert s[i - 1] == r[i - 2] && s[i] == r[i - 1];
      }
    }
  }

  /** Merging two sorted lists gives a sorted list of all their keyvals,
      whose first is the head of one of them. */
  lemma {:induction false} MergeSorted<V>(a: seq<KeyVal<V>>, b: seq<KeyVal<V>>)
    requires Sorted(a) && Sorted(b)
    ensures var r := Merge(a, b);
      && Sorted(r) && multiset(r) == multiset(a) + multiset(b)
      && (r != [] ==> (a != [] && r[0] == a[0]) || (b != [] && r[0] == b[0]))
    decreases |a| + |b|
  {
    if a != [] && b != [] {
      if b[0].key < a[0].key {
        MergeSortedB(a, b);
      } else {
        MergeSortedA(a, b);
      }
    }
  }

  lemma {:induction false} MergeSortedB<V>(a: seq<KeyVal<V>>, b: seq<KeyVal<V>>)
    requires Sorted(a) && Sorted(b) && a != [] && b != [] && b[0].key < a[0].key
    ensures var r := Merge(a, b);
      Sorted(r) && multiset(r) == multiset(a) + multiset(b) && r[0] == b[0]
    decreases |a| + |b|, 0
  {
    SortedTail(b);
    MergeSorted(a, b[1..]);
    var r' := Merge(a, b[1..]);
    assert Merge(a, b) == [b[0]] + r';
    if r'[0] != a[0] {
      assert r'[0] == b[1..][0] == b[1];
    }
    SortedCons(b[0], r');
    assert b == [b[0]] + b[1..];
    assert multiset(b) == multiset{b[0]} + multiset(b[1..]);
  }

  lemma {:induction false} MergeSortedA<V>(a: seq<KeyVal<V>>, b: seq<KeyVal<V>>)
    requires Sorted(a) && Sorted(b) && a != [] && b != [] && !(b[0].key < a[0].key)
    ensures var r := Merge(a, b);
      Sorted(r) && multiset(r) == multiset(a) + multiset(b) && r[0] == a[0]
    decreases |a| + |b|, 0
  {
    SortedTail(a);
    MergeSorted(a[1..], b);
    var r' := Merge(a[1..], b);
    assert Merge(a, b) == [a[0]] + r';
    if r'[0] != b[0] {
      assert r'[0] == a[1..][0] == a[1];
    }
    SortedCons(a[0], r');
    assert a == [a[0]] + a[1..];
    assert multiset(a) == multiset{a[0]} + multiset(a[1..]);
  }

  /** Merging two sorted lists keeps, for each key, the first list's
      keyvals ahead of the second's. */
  lemma {:induction false} MergeWithKey<V>(a: seq<KeyVal<V>>, b: seq<KeyVal<V>>, k: int)
    requires Sorted(a) && Sorted(b)
    ensures WithKey(Merge(a, b), k) == WithKey(a, k) + WithKey(b, k)
    decreases |a| + |b|, 1
  {
    if a != [] && b != [] {
      if b[0].key < a[0].key {
        MergeWithKeyB(a, b, k);
      } else {
        MergeWithKeyA(a, b, k);
      }
    }
  }

  /** MergeWithKey when the second list's head goes first. */
  lemma {:induction false} MergeWithKeyB<V>(a: seq<KeyVal<V>>, b: seq<KeyVal<V>>, k: int)
    requires Sorted(a) && Sorted(b) && a != [] && b != [] && b[0].key < a[0].key
    ensures WithKey(Merge(a, b), k) == WithKey(a, k) + WithKey(b, k)
    decreases |a| + |b|, 0
  {
    SortedTail(b);
    MergeWithKey(a, b[1..], k);
    var r1 := Merge(a, b[1..]);
    assert Merge(a, b) == [b[0]] + r1;
    if b[0].key == k {
      WithKeyBelow(a, k);
    }
    WithKeyStepB(Merge(a, b), r1, a, b, k);
  }

  /** The key-k part of [b[0]] + r1, where r1 keeps both lists' key-k parts
      and, when b[0] has key k, the first list has none. */
  lemma WithKeyStepB<V>(m: seq<KeyVal<V>>, r1: seq<KeyVal<V>>, a: seq<KeyVal<V>>, b: seq<KeyVal<V>>, k: int)
    requires b != [] && m == [b[0]] + r1 && (b[0].key == k ==> WithKey(a, k) == [])
    requires WithKey(r1, k) == WithKey(a, k) + WithKey(b[1..], k)
    ensures WithKey(m, k) == WithKey(a, k) + WithKey(b, k)
  {
    WithKeyCons(m, b[0], r1, k);
    WithKeyCons(b, b[0], b[1..], k);
    SwapPast(if b[0].key == k then [b[0]] else [], WithKey(a, k), WithKey(b[1..], k));
  }

  /** With one of g and w empty, g can move past w. */
  lemma SwapPast<T>(g: seq<T>, w: seq<T>, t: seq<T>)
    requires g == [] || w == []
    ensures g + (w + t) == w + (g + t)
  {
    if g == [] {
      assert g + (w + t) == w + t;
    } else {
      assert w + (g + t) == g + t;
    }
  }

  /** MergeWithKey when the first list's head goes first. */
  lemma {:induction false} MergeWithKeyA<V>(a: seq<KeyVal<V>>, b: seq<KeyVal<V>>, k: int)
    requires Sorted(a) && Sorted(b) && a != [] && b != [] && !(b[0].key < a[0].key)
    ensures WithKey(Merge(a, b), k) == WithKey(a, k) + WithKey(b, k)
    decreases |a| + |b|, 0
  {
    SortedTail(a);
    MergeWithKey(a[1..], b, k);
    var r1 := Merge(a[1..], b);
    WithKeyCons(Merge(a, b), a[0], r1, k);
    WithKeyCons(a, a[0], a[1..], k);
    ConcatAssoc(if a[0].key == k then [a[0]] else [], WithKey(a[1..], k), WithKey(b, k));
  }

  lemma ConcatAssoc<T>(x: seq<T>, y: seq<T>, z: seq<T>)
    ensures x + (y + z) == (x + y) + z
  {
  }

  /** The keyvals with key k of a list with head x and tail t. */
  lemma WithKeyCons<V>(r: seq<KeyVal<V>>, x: KeyVal<V>, t: seq<KeyVal<V>>, k: int)
    requires r == [x] + t
    ensures WithKey(r, k) == (if x.key == k then [x] else []) + WithKey(t, k)
  {
  }

  // ---------------------------------------------------------------------
  // MapReduceSort's merge rounds.

  /** One round: lists 2i and 2i+1 are merged into list i; an odd last list
      moves over alone. */
  function MergeRound<V>(qs: seq<seq<KeyVal<V>>>): (r: seq<seq<KeyVal<V>>>)
    decreases |qs|
  {
    if |qs| == 0 then []
    else if |qs| == 1 then [qs[0]]
    else [Merge(qs[0], qs[1])] + MergeRound(qs[2..])
  }

  /** What a round puts at position i: the merge of lists 2i and 2i+1, or
      list 2i alone when it is the last. */
  function Paired<V>(qs: seq<seq<KeyVal<V>>>, i: nat): seq<KeyVal<V>>
  {
    if 2 * i + 1 < |qs| then Merge(qs[2 * i], qs[2 * i + 1])
    else if 2 * i < |qs| then qs[2 * i]
    else []
  }

  /** Dropping the first two lists moves every pair one place down. */
  lemma PairedShift<V>(qs: seq<seq<KeyVal<V>>>, i: nat)
    requires |qs| >= 2 && i > 0
    ensures Paired(qs, i) == Paired(qs[2..], i - 1)
  {
    var j := 2 * (i - 1);
    assert 2 * i == j + 2;
    if j < |qs| - 2 {
      assert qs[2..][j] == qs[2 * i];
    }
    if j + 1 < |qs| - 2 {
      assert qs[2..][j + 1] == qs[2 * i + 1];
    }
  }

  /** A round leaves ceil(q / 2) lists: list i is the merge of 2i and 2i+1,
      or list 2i itself when that is the last. */
  lemma {:induction false} MergeRoundAt<V>(qs: seq<seq<KeyVal<V>>>)
    ensures |MergeRound(qs)| == (|qs| + 1) / 2
    ensures forall i :: 0 <= i < |MergeRound(qs)| ==> 2 * i < |qs| && MergeRound(qs)[i] == Paired(qs, i)
    decreases |qs|
  {
    if |qs| >= 2 {
      MergeRoundAt(qs[2..]);
      var r := MergeRound(qs);
      forall i | 0 <= i < |r|
        ensures 2 * i < |qs| && r[i] == Paired(qs, i)
      {
        if i > 0 {
          assert r[i] == MergeRound(qs[2..])[i - 1];
          PairedShift(qs, i);
        }
      }
    }
  }

  predicate AllSorted<V>(qs: seq<seq<KeyVal<V>>>)
  {
    forall i :: 0 <= i < |qs| ==> Sorted(qs[i])
  }

  /** A round of sorted lists gives sorted lists holding the same
      keyvals. */
  lemma {:induction false} MergeRoundKeeps<V>(qs: seq<seq<KeyVal<V>>>)
    requires AllSorted(qs)
    ensures AllSorted(MergeRound(qs))
    ensures multiset(Flatten(MergeRound(qs))) == multiset(Flatten(qs))
    decreases |qs|
  {
    if |qs| == 1 {
      assert MergeRound(qs) == qs;
    } else if |qs| >= 2 {
      var rest := qs[2..];
      AllSortedDrop(qs);
      MergeRoundKeeps(rest);
      MergeSorted(qs[0], qs[1]);
      MergeRoundSplit(qs);
      AllSortedCons(Merge(qs[0], qs[1]), MergeRound(rest));
      MultisetJoin(Merge(qs[0], qs[1]), Flatten(MergeRound(rest)), qs[0], qs[1], Flatten(rest));
    }
  }

  /** Dropping the first two lists keeps every list sorted. */
  lemma AllSortedDrop<V>(qs: seq<seq<KeyVal<V>>>)
    requires |qs| >= 2 && AllSorted(qs)
    ensures AllSorted(qs[2..])
  {
    forall i | 0 <= i < |qs[2..]| ensures Sorted(qs[2..][i]) {
      assert qs[2..][i] == qs[i + 2];
    }
  }

  /** A sorted list in front of sorted lists keeps every list sorted. */
  lemma AllSortedCons<V>(m: seq<KeyVal<V>>, rest: seq<seq<KeyVal<V>>>)
    requires Sorted(m) && AllSorted(rest)
    ensures AllSorted([m] + rest)
  {
    forall i | 0 <= i < |[m] + rest| ensures Sorted(([m] + rest)[i]) {
      if i > 0 {
        assert ([m] + rest)[i] == rest[i - 1];
      }
    }
  }

  /** The keyvals of a merged pair in front of a round's remainder. */
  lemma MultisetJoin<T>(m: seq<T>, tail: seq<T>, a: seq<T>, b: seq<T>, rest: seq<T>)
    requires multiset(m) == multiset(a) + multiset(b)
    requires multiset(tail) == multiset(rest)
    ensures multiset(m + tail) == multiset(a + (b + rest))
  {
  }

  /** The first step of a round and the joined lists it acts on. */
  lemma MergeRoundSplit<V>(qs: seq<seq<KeyVal<V>>>)
    requires |qs| >= 2
    ensures MergeRound(qs) == [Merge(qs[0], qs[1])] + MergeRound(qs[2..])
    ensures Flatten(MergeRound(qs)) == Merge(qs[0], qs[1]) + Flatten(MergeRound(qs[2..]))
    ensures Flatten(qs) == qs[0] + (qs[1] + Flatten(qs[2..]))
  {
    var r := MergeRound(qs);
    assert r[1..] == MergeRound(qs[2..]);
    assert qs[1..][1..] == qs[2..];
  }

  /** A round of sorted lists keeps each key's keyvals in list order. */
  lemma {:induction false} MergeRoundWithKey<V>(qs: seq<seq<KeyVal<V>>>, k: int)
    requires AllSorted(qs)
    ensures WithKey(Flatten(MergeRound(qs)), k) == WithKey(Flatten(qs), k)
    decreases |qs|
  {
    if |qs| == 1 {
      assert MergeRound(qs) == qs;
    } else if |qs| >= 2 {
      var rest := qs[2..];
      assert AllSorted(rest) by {
        forall i | 0 <= i < |rest| ensures Sorted(rest[i]) {
          assert rest[i] == qs[i + 2];
        }
      }
      MergeRoundWithKey(rest, k);
      MergeRoundSplit(qs);
      var m := Merge(qs[0], qs[1]);
      MergeWithKey(qs[0], qs[1], k);
      WithKeyConcat(m, Flatten(MergeRound(rest)), k);
      WithKeyConcat(qs[0], qs[1] + Flatten(rest), k);
      WithKeyConcat(qs[1], Flatten(rest), k);
    }
  }

  /** The rounds until one list is left. */
  function Rounds<V>(qs: seq<seq<KeyVal<V>>>): seq<KeyVal<V>>
    requires |qs| >= 1
    decreases |qs|
  {
    if |qs| == 1 then qs[0]
    else
      MergeRoundAt(qs);
      Rounds(MergeRound(qs))
  }

  /** Merging sorted lists round by round gives one sorted list of all
      their keyvals. */
  lemma {:induction false} RoundsKeep<V>(qs: seq<seq<KeyVal<V>>>)
    requires |qs| >= 1 && AllSorted(qs)
    ensures Sorted(Rounds(qs)) && multiset(Rounds(qs)) == multiset(Flatten(qs))
    decreases |qs|
  {
    if |qs| == 1 {
      FlattenOne(qs);
    } else {
      MergeRoundAt(qs);
      MergeRoundKeeps(qs);
      RoundsKeep(MergeRound(qs));
    }
  }

  lemma FlattenOne<T>(qs: seq<seq<T>>)
    requires |qs| == 1
    ensures Flatten(qs) == qs[0]
  {
    assert qs[1..] == [];
  }

  /** ... and with each key's keyvals in list order. */
  lemma {:induction false} RoundsWithKey<V>(qs: seq<seq<KeyVal<V>>>, k: int)
    requires |qs| >= 1 && AllSorted(qs)
    ensures WithKey(Rounds(qs), k) == WithKey(Flatten(qs), k)
    decreases |qs|
  {
    if |qs| == 1 {
      FlattenOne(qs);
    } else {
      MergeRoundAt(qs);
      MergeRoundKeeps(qs);
      MergeRoundWithKey(qs, k);
      RoundsWithKey(MergeRound(qs), k);
    }
  }

  /** Every list stably sorted, as merge_fn(val, 0, i) does to each. */
  function SortEach<V>(qs: seq<seq<KeyVal<V>>>): (r: seq<seq<KeyVal<V>>>)
    ensures |r| == |qs|
    ensures forall i :: 0 <= i < |qs| ==> r[i] == StableSort(qs[i])
    decreases |qs|
  {
    if qs == [] then [] else [StableSort(qs[0])] + SortEach(qs[1..])
  }

  lemma {:induction false} SortEachKeeps<V>(qs: seq<seq<KeyVal<V>>>)
    ensures AllSorted(SortEach(qs))
    ensures multiset(Flatten(SortEach(qs))) == multiset(Flatten(qs))
    ensures forall k :: WithKey(Flatten(SortEach(qs)), k) == WithKey(Flatten(qs), k)
    decreases |qs|
  {
    forall i | 0 <= i < |qs| ensures Sorted(SortEach(qs)[i]) {
      StableSortProps(qs[i]);
    }
    if qs != [] {
      SortEachKeeps(qs[1..]);
      StableSortProps(qs[0]);
      var r := SortEach(qs);
      assert r[1..] == SortEach(qs[1..]);
      forall k ensures WithKey(Flatten(r), k) == WithKey(Flatten(qs), k) {
        WithKeyConcat(r[0], Flatten(r[1..]), k);
        WithKeyConcat(qs[0], Flatten(qs[1..]), k);
      }
    }
  }

  /** What MapReduceSort::run_merge leaves in final_vals[0]. */
  function SortMerge<V>(qs: seq<seq<KeyVal<V>>>): seq<KeyVal<V>>
    requires |qs| >= 1
  {
    Rounds(SortEach(qs))
  }

  /** The sorted run's output is sorted, holds every reduced keyval, and
      lists each key's keyvals in the order the partitions held them: it is
      the stable sort of the partitions joined in order. */
  lemma SortMergeIsStableSort<V>(qs: seq<seq<KeyVal<V>>>)
    requires |qs| >= 1
    ensures Sorted(SortMerge(qs)) && multiset(SortMerge(qs)) == multiset(Flatten(qs))
    ensures forall k :: WithKey(SortMerge(qs), k) == WithKey(StableSort(Flatten(qs)), k)
  {
    SortEachKeeps(qs);
    RoundsKeep(SortEach(qs));
    StableSortProps(Flatten(qs));
    forall k ensures WithKey(SortMerge(qs), k) == WithKey(StableSort(Flatten(qs)), k) {
      RoundsWithKey(SortEach(qs), k);
    }
  }

  // ---------------------------------------------------------------------
  // The engine.

  /** The default reduce's output for one key: one keyval per value. */
  function Pairs<V>(key: int, values: seq<V>): (r: seq<KeyVal<V>>)
    ensures |r| == |values|
    ensures forall i :: 0 <= i < |values| ==> r[i] == KeyVal(key, values[i])
  {
    if values == [] then [] else Pairs(key, values[..|values| - 1]) + [KeyVal(key, values[|values| - 1])]
  }

  /** Chunks as __run_map cuts them number ceil(count / chunk_size). */
  lemma {:induction false} ChunkCount<D>(chunks: seq<seq<D>>, size: nat)
    requires size > 0
    requires forall i :: 0 <= i < |chunks| ==> 0 < |chunks[i]| <= size
    requires forall i :: 0 <= i < |chunks| - 1 ==> |chunks[i]| == size
    ensures var n := |Flatten(chunks)|;
      |chunks| * size >= n && (|chunks| > 0 ==> (|chunks| - 1) * size < n)
    decreases |chunks|
  {
    if chunks != [] {
      ChunkCount(chunks[1..], size);
      var n' := |Flatten(chunks[1..])|;
      assert |Flatten(chunks)| == |chunks[0]| + n';
      assert |chunks| * size == size + (|chunks| - 1) * size;
      if |chunks| > 1 {
        assert |chunks[0]| == size;
        assert (|chunks| - 1) * size == size + (|chunks| - 2) * size;
        assert 0 < n';
      }
    }
  }

  class MapReduce<V(0)> {
    /** final_vals: the reduced partitions, then the merged output. */
    var finalVals: seq<seq<KeyVal<V>>>

    constructor ()
      ensures finalVals == []
    {
      finalVals := [];
    }

    /** __run_map's chunking: consecutive chunks [s, min(s + chunk_size,
        count)) for s = 0, chunk_size, ...; each is one map task. */
    method RunMap<D>(data: seq<D>, chunkSize: nat) returns (chunks: seq<seq<D>>)
      requires chunkSize > 0
      ensures Flatten(chunks) == data
      ensures forall i :: 0 <= i < |chunks| ==> 0 < |chunks[i]| <= chunkSize
      ensures forall i :: 0 <= i < |chunks| - 1 ==> |chunks[i]| == chunkSize
    {
      chunks := [];
      var startId := 0;
      while startId < |data|
        invariant startId < |data| ==> Flatten(chunks) == data[..startId]
        invariant startId >= |data| ==> Flatten(chunks) == data
        invariant forall i :: 0 <= i < |chunks| ==> 0 < |chunks[i]| <= chunkSize
        invariant forall i :: 0 <= i < |chunks| - 1 ==> |chunks[i]| == chunkSize
        invariant startId < |data| ==> forall i :: 0 <= i < |chunks| ==> |chunks[i]| == chunkSize
        decreases |data| - startId
      {
        var chunkEnd := if chunkSize + startId < |data| then chunkSize + startId else |data|;
        var dataChunk := CopyChunk(data, startId, chunkEnd);
        FlattenAppend(chunks, dataChunk);
        assert data[..startId] + data[startId..chunkEnd] == data[..chunkEnd];
        chunks := chunks + [dataChunk];
        startId := startId + chunkSize;
      }
    }

    /** __run_map's inner loop: data[begin], ..., data[end - 1] pushed onto
        an empty data_chunk. */
    static method CopyChunk<D>(data: seq<D>, begin: nat, end: nat) returns (dataChunk: seq<D>)
      requires begin <= end <= |data|
      ensures dataChunk == data[begin..end]
    {
      dataChunk := [];
      var i := begin;
      while i < end
        invariant begin <= i <= end && dataChunk == data[begin..i]
      {
        dataChunk := dataChunk + [data[i]];
        i := i + 1;
      }
    }

    /** The default reduce: one keyval for every value of the key, appended
        to `out`. */
    method Reduce(key: int, values: seq<V>, out: seq<KeyVal<V>>) returns (out': seq<KeyVal<V>>)
      ensures out' == out + Pairs(key, values)
    {
      out' := out;
      var i := 0;
      while i < |values|
        invariant i <= |values| && out' == out + Pairs(key, values[..i])
      {
        assert values[..i + 1][..i] == values[..i];
        out' := out' + [KeyVal(key, values[i])];
        i := i + 1;
      }
      assert values[..|values|] == values;
    }

    /** run_merge: the prefix sums of the partition sizes, then every
        partition copied to its offset in the single output list. */
    method RunMerge()
      modifies this
      ensures finalVals == [Flatten(old(finalVals))]
    {
      var fv := finalVals;
      var indices := PrefixSums(fv);
      assert fv[..|fv|] == fv;
      var final := new KeyVal<V>[indices[|fv|]];
      var tid := 0;
      while tid < |fv|
        invariant 0 <= tid <= |fv|
        invariant forall t :: 0 <= t <= |fv| ==> indices[t] == |Flatten(fv[..t])|
        invariant final.Length == |Flatten(fv)|
        invariant indices[tid] <= final.Length && final[..indices[tid]] == Flatten(fv[..tid])
      {
        FlattenAppend(fv[..tid], fv[tid]);
        assert fv[..tid + 1] == fv[..tid] + [fv[tid]];
        FlattenPrefix(fv, tid + 1);
        CopyPartition(final, fv[tid], indices[tid]);
        tid := tid + 1;
      }
      assert final[..] == final[..indices[|fv|]];
      finalVals := [final[..]];
    }

    /** run_merge's first loop: indices[i] is the number of keyvals in the
        partitions before partition i. */
    static method PrefixSums(fv: seq<seq<KeyVal<V>>>) returns (indices: array<nat>)
      ensures fresh(indices) && indices.Length == |fv| + 1
      ensures forall t :: 0 <= t <= |fv| ==> indices[t] == |Flatten(fv[..t])|
    {
      indices := new nat[|fv| + 1];
      indices[0] := 0;
      var i := 0;
      while i < |fv|
        invariant 0 <= i <= |fv|
        invariant forall t :: 0 <= t <= i ==> indices[t] == |Flatten(fv[..t])|
      {
        FlattenAppend(fv[..i], fv[i]);
        assert fv[..i + 1] == fv[..i] + [fv[i]];
        indices[i + 1] := indices[i] + |fv[i]|;
        i := i + 1;
      }
    }

    /** One merge thread: partition tid copied to final[indices[tid] ..
        indices[tid + 1]). */
    static method CopyPartition(final: array<KeyVal<V>>, partition: seq<KeyVal<V>>, begin: nat)
      requires begin + |partition| <= final.Length
      modifies final
      ensures final[..begin + |partition|] == old(final[..begin]) + partition
    {
      var j := begin;
      while j < begin + |partition|
        invariant begin <= j <= begin + |partition|
        invariant final[..j] == old(final[..begin]) + partition[..j - begin]
      {
        final[j] := partition[j - begin];
        assert partition[..j + 1 - begin] == partition[..j - begin] + [partition[j - begin]];
        j := j + 1;
      }
      assert partition[..|partition|] == partition;
    }
  }

  class MapReduceSort<V> {
    var finalVals: seq<seq<KeyVal<V>>>

    constructor ()
      ensures finalVals == []
    {
      finalVals := [];
    }

    /** merge_fn(vals, length, out_index): length 0 stably sorts its list
        (final_vals[out_index] itself), 1 moves its list over, 2 merges its
        two lists; more is an assert. */
    method MergeFn(vals: seq<seq<KeyVal<V>>>, length: nat, outIndex: nat)
      requires length <= 2 && |vals| >= (if length == 0 then 1 else length) && outIndex < |finalVals|
      modifies this
      ensures |finalVals| == |old(finalVals)|
      ensures forall i :: 0 <= i < |finalVals| && i != outIndex ==> finalVals[i] == old(finalVals[i])
      ensures finalVals[outIndex] ==
        if length == 0 then StableSort(vals[0]) else if length == 1 then vals[0] else Merge(vals[0], vals[1])
    {
      if length == 0 {
        finalVals := finalVals[outIndex := StableSort(vals[0])];
      } else if length == 1 {
        finalVals := finalVals[outIndex := vals[0]];
      } else {
        finalVals := finalVals[outIndex := Merge(vals[0], vals[1])];
      }
    }

    /** MapReduceSort::run_merge: each partition sorted, then rounds that
        merge pairs until one list is left (asserting that one is). */
    method RunMerge()
      requires |finalVals| >= 1
      modifies this
      ensures finalVals == [SortMerge(old(finalVals))]
    {
      var mergeQueues := |finalVals|;
      ghost var qs := finalVals;
      SortQueues();
      while mergeQueues > 1
        invariant mergeQueues == |finalVals| >= 1
        invariant Rounds(finalVals) == SortMerge(qs)
        decreases mergeQueues
      {
        var resultingQueues := (mergeQueues + 1) / 2;
        var mergeVals := finalVals;
        MergeRoundAt(mergeVals);
        MergeRoundTasks(mergeVals);
        mergeQueues := resultingQueues;
      }
    }

    /** The first threads of run_merge: merge_fn(&final_vals[i], 0, i) for
        every partition i. */
    method SortQueues()
      modifies this
      ensures finalVals == SortEach(old(finalVals))
    {
      ghost var qs := finalVals;
      var i := 0;
      while i < |finalVals|
        invariant i <= |finalVals| == |qs|
        invariant forall t :: 0 <= t < i ==> finalVals[t] == StableSort(qs[t])
        invariant forall t :: i <= t < |qs| ==> finalVals[t] == qs[t]
      {
        MergeFn(finalVals[i..], 0, i);
        i := i + 1;
      }
    }

    /** One round of run_merge: final_vals becomes ceil(q / 2) empty lists
        and task i runs merge_fn on min(2, q - 2i) lists from 2i on. */
    method MergeRoundTasks(mergeVals: seq<seq<KeyVal<V>>>)
      modifies this
      ensures finalVals == MergeRound(mergeVals)
    {
      MergeRoundAt(mergeVals);
      var mergeQueues := |mergeVals|;
      var resultingQueues := (mergeQueues + 1) / 2;
      finalVals := seq(resultingQueues, _ => []);
      var queueIndex := 0;
      var j := 0;
      while j < resultingQueues
        invariant j <= resultingQueues && |finalVals| == resultingQueues
        invariant queueIndex == if 2 * j <= mergeQueues then 2 * j else mergeQueues
        invariant forall t :: 0 <= t < j ==> finalVals[t] == MergeRound(mergeVals)[t]
      {
        var actual := if 2 < mergeQueues - queueIndex then 2 else mergeQueues - queueIndex;
        MergeFn(mergeVals[queueIndex..], actual, j);
        queueIndex := queueIndex + actual;
        j := j + 1;
      }
    }
  }
}
