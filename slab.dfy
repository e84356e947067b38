/** Nu's slab allocator (src/utils/slab.cpp): free slots are kept on intrusive
    stacks, FreePtrsLinkedList, whose batches of pointers are written into the
    free slots themselves; each core caches free slots per size class, slots
    freed on another core go through a transferred cache, and fresh slots are
    carved from the bump region [cur, end). */
module Slab {

  /** An address; 0 is nullptr. */
  type Ptr = int
  const NULL: Ptr := 0

  /** kBatchSize = ((1 << kMinSlabClassShift) + sizeof(PtrHeader)) / sizeof(void *)
      = (32 + 16) / 8. */
  const BATCH_SIZE: nat := 6

  predicate Distinct(s: seq<Ptr>)
  {
    forall i, j :: 0 <= i < j < |s| ==> s[i] != s[j]
  }

  /** A batch whose slots 1..k hold pointers and whose other slots are null. */
  predicate Filled(p: seq<Ptr>, k: nat)
  {
    |p| == BATCH_SIZE && forall i :: 1 <= i < BATCH_SIZE ==> (p[i] != NULL <==> i <= k)
  }

  /** Slots k, k-1, ..., 1 of a batch: the order pop hands them out. */
  function Slots(p: seq<Ptr>, k: nat): (s: seq<Ptr>)
    requires k < |p|
    ensures |s| == k && forall i :: 0 <= i < k ==> s[i] == p[k - i]
  {
    seq(k, i requires 0 <= i < k => p[k - i])
  }

  /** Every batch of the chain has its BATCH_SIZE words in memory. */
  predicate Stored(chain: seq<Ptr>, mem: map<Ptr, seq<Ptr>>)
  {
    forall j :: 0 <= j < |chain| ==> chain[j] in mem && |mem[chain[j]]| == BATCH_SIZE
  }

  /** Batch j is not null, its first word points to the next batch (null
      after the last), and it is full unless it is the head. */
  predicate LinkAt(chain: seq<Ptr>, mem: map<Ptr, seq<Ptr>>, j: nat)
    requires Stored(chain, mem) && j < |chain|
  {
    && chain[j] != NULL
    && mem[chain[j]][0] == (if j + 1 < |chain| then chain[j + 1] else NULL)
    && (j >= 1 ==> Filled(mem[chain[j]], BATCH_SIZE - 1))
  }

  predicate Linked(chain: seq<Ptr>, mem: map<Ptr, seq<Ptr>>)
    requires Stored(chain, mem)
  {
    forall j :: 0 <= j < |chain| ==> LinkAt(chain, mem, j)
  }

  /** Rewriting the head batch's slots, but not its link, keeps the chain. */
  lemma LinkedHead(chain: seq<Ptr>, mem: map<Ptr, seq<Ptr>>, v: seq<Ptr>)
    requires Stored(chain, mem) && Linked(chain, mem) && chain != [] && chain[0] !in chain[1..]
    requires |v| == BATCH_SIZE && v[0] == mem[chain[0]][0]
    ensures Stored(chain, mem[chain[0] := v]) && Linked(chain, mem[chain[0] := v])
  {
    var m := mem[chain[0] := v];
    forall j | 0 <= j < |chain|
      ensures chain[j] in m && |m[chain[j]]| == BATCH_SIZE
    {
    }
    forall j | 0 <= j < |chain|
      ensures LinkAt(chain, m, j)
    {
      assert LinkAt(chain, mem, j);
      if j > 0 {
        assert chain[j] == chain[1..][j - 1];
      }
    }
  }

  /** A new head batch linked to the old, full, head keeps the chain. */
  lemma LinkedPush(chain: seq<Ptr>, mem: map<Ptr, seq<Ptr>>, ptr: Ptr, v: seq<Ptr>)
    requires Stored(chain, mem) && Linked(chain, mem) && ptr != NULL && ptr !in chain
    requires |v| == BATCH_SIZE && v[0] == (if chain == [] then NULL else chain[0])
    requires chain != [] ==> Filled(mem[chain[0]], BATCH_SIZE - 1)
    ensures Stored([ptr] + chain, mem[ptr := v]) && Linked([ptr] + chain, mem[ptr := v])
  {
    var c := [ptr] + chain;
    var m := mem[ptr := v];
    assert Stored(c, m) by {
      forall j | 0 <= j < |c| ensures c[j] in m && |m[c[j]]| == BATCH_SIZE {
        if j > 0 {
          assert c[j] == chain[j - 1];
        }
      }
    }
    forall j | 0 <= j < |c|
      ensures LinkAt(c, m, j)
    {
      if j > 0 {
        var k := j - 1;
        assert c[j] == chain[k] && chain[k] in chain && chain[k] != ptr;
        assert m[c[j]] == mem[chain[k]];
        assert LinkAt(chain, mem, k);
        if j + 1 < |c| {
          assert c[j + 1] == chain[k + 1];
        }
      }
    }
  }

  /** Dropping the head batch keeps the rest of the chain. */
  lemma LinkedPop(chain: seq<Ptr>, mem: map<Ptr, seq<Ptr>>)
    requires Stored(chain, mem) && Linked(chain, mem) && chain != []
    ensures Stored(chain[1..], mem) && Linked(chain[1..], mem)
    ensures mem[chain[0]][0] == (if |chain| == 1 then NULL else chain[1])
    ensures |chain| > 1 ==> chain[1] != NULL && Filled(mem[chain[1]], BATCH_SIZE - 1)
  {
    var c := chain[1..];
    assert Stored(c, mem) by {
      forall j | 0 <= j < |c| ensures c[j] in mem && |mem[c[j]]| == BATCH_SIZE {
        assert c[j] == chain[j + 1];
      }
    }
    forall j | 0 <= j < |c|
      ensures LinkAt(c, mem, j)
    {
      var k := j + 1;
      assert c[j] == chain[k];
      assert LinkAt(chain, mem, k);
      if j + 1 < |c| {
        assert c[j + 1] == chain[k + 1];
      }
    }
    assert LinkAt(chain, mem, 0);
    if |chain| > 1 {
      assert LinkAt(chain, mem, 1);
    }
  }

  /** Free pointers of a chain of batches in pop order: each batch's slots, top
      down, then the batch itself (itself a free slot), then the next batch. The
      head batch holds `fill` slots, every later batch is full. */
  ghost function ListContents(chain: seq<Ptr>, mem: map<Ptr, seq<Ptr>>, fill: nat): seq<Ptr>
    requires Stored(chain, mem)
    requires fill < BATCH_SIZE
    decreases |chain|
  {
    if chain == [] then []
    else Slots(mem[chain[0]], fill) + [chain[0]] + ListContents(chain[1..], mem, BATCH_SIZE - 1)
  }

  /** Writing memory outside the chain leaves its contents alone. */
  lemma {:induction false} ListContentsFrame(chain: seq<Ptr>, mem: map<Ptr, seq<Ptr>>, fill: nat, a: Ptr, v: seq<Ptr>)
    requires Stored(chain, mem)
    requires fill < BATCH_SIZE && a !in chain
    ensures ListContents(chain, mem[a := v], fill) == ListContents(chain, mem, fill)
    decreases |chain|
  {
    if chain != [] {
      assert chain[0] in chain;
      assert forall x :: x in chain[1..] ==> x in chain;
      ListContentsFrame(chain[1..], mem, BATCH_SIZE - 1, a, v);
    }
  }

  /** Every batch of the chain is one of its pointers. */
  lemma {:induction false} ChainInContents(chain: seq<Ptr>, mem: map<Ptr, seq<Ptr>>, fill: nat)
    requires Stored(chain, mem)
    requires fill < BATCH_SIZE
    ensures forall x :: x in chain ==> x in ListContents(chain, mem, fill)
    decreases |chain|
  {
    if chain != [] {
      assert forall x :: x in chain[1..] ==> x in chain;
      ChainInContents(chain[1..], mem, BATCH_SIZE - 1);
      var c := ListContents(chain, mem, fill);
      var s := Slots(mem[chain[0]], fill);
      assert c[|s|] == chain[0];
      forall x | x in chain
        ensures x in c
      {
        if x != chain[0] {
          assert x in chain[1..];
          assert x in ListContents(chain[1..], mem, BATCH_SIZE - 1);
        }
      }
    }
  }

  /** In a list without repeats the head batch is not also a later batch. */
  lemma HeadNotInRest(chain: seq<Ptr>, mem: map<Ptr, seq<Ptr>>, fill: nat)
    requires Stored(chain, mem)
    requires fill < BATCH_SIZE && chain != [] && Distinct(ListContents(chain, mem, fill))
    ensures chain[0] !in chain[1..]
  {
    var rest := chain[1..];
    assert forall x :: x in rest ==> x in chain;
    ChainInContents(rest, mem, BATCH_SIZE - 1);
    var t := ListContents(rest, mem, BATCH_SIZE - 1);
    var s := Slots(mem[chain[0]], fill);
    var c := ListContents(chain, mem, fill);
    assert c == s + [chain[0]] + t;
    forall k | 0 <= k < |t|
      ensures t[k] != chain[0]
    {
      assert c[|s| + 1 + k] == t[k] && c[|s|] == chain[0];
    }
  }

  /** push into a free slot of the head batch puts the new pointer on top. */
  lemma PushSlot(chain: seq<Ptr>, mem: map<Ptr, seq<Ptr>>, fill: nat, ptr: Ptr)
    requires Stored(chain, mem)
    requires chain != [] && fill + 1 < BATCH_SIZE && chain[0] !in chain[1..]
    ensures ListContents(chain, mem[chain[0] := mem[chain[0]][fill + 1 := ptr]], fill + 1)
            == [ptr] + ListContents(chain, mem, fill)
  {
    var p := mem[chain[0]];
    var p' := p[fill + 1 := ptr];
    var m' := mem[chain[0] := p'];
    ListContentsFrame(chain[1..], mem, BATCH_SIZE - 1, chain[0], p');
    var t := ListContents(chain[1..], mem, BATCH_SIZE - 1);
    var a, b := Slots(p', fill + 1), Slots(p, fill);
    assert forall i :: 1 <= i <= fill ==> a[i] == b[i - 1];
    assert a == [ptr] + b;
    assert ListContents(chain, m', fill + 1) == a + [chain[0]] + t;
    assert ListContents(chain, mem, fill) == b + [chain[0]] + t;
    assert a + [chain[0]] + t == [ptr] + (b + [chain[0]] + t);
  }

  /** push onto a full head batch: the pushed slot becomes an empty batch
      linked to the old head, and the new pointer is on top. */
  lemma PushHead(chain: seq<Ptr>, mem: map<Ptr, seq<Ptr>>, fill: nat, ptr: Ptr, v: seq<Ptr>)
    requires Stored(chain, mem)
    requires fill < BATCH_SIZE && ptr !in chain && |v| == BATCH_SIZE
    requires chain != [] ==> fill == BATCH_SIZE - 1
    ensures ListContents([ptr] + chain, mem[ptr := v], 0) == [ptr] + ListContents(chain, mem, fill)
  {
    ListContentsFrame(chain, mem, fill, ptr, v);
    assert ([ptr] + chain)[1..] == chain;
    if chain == [] {
      assert ListContents(chain, mem[ptr := v], BATCH_SIZE - 1) == [];
    }
  }

  /** pop from a used slot of the head batch takes the top pointer. */
  lemma PopSlot(chain: seq<Ptr>, mem: map<Ptr, seq<Ptr>>, fill: nat)
    requires Stored(chain, mem)
    requires chain != [] && 0 < fill < BATCH_SIZE && chain[0] !in chain[1..]
    ensures ListContents(chain, mem, fill)[0] == mem[chain[0]][fill]
    ensures ListContents(chain, mem[chain[0] := mem[chain[0]][fill := NULL]], fill - 1)
            == ListContents(chain, mem, fill)[1..]
  {
    var p := mem[chain[0]];
    var p': seq<Ptr> := p[fill := NULL];
    var m' := mem[chain[0] := p'];
    ListContentsFrame(chain[1..], mem, BATCH_SIZE - 1, chain[0], p');
    var t := ListContents(chain[1..], mem, BATCH_SIZE - 1);
    var a, b := Slots(p, fill), Slots(p', fill - 1);
    assert forall i :: 1 <= i < fill ==> a[i] == b[i - 1];
    assert a == [p[fill]] + b;
    assert ListContents(chain, mem, fill) == a + [chain[0]] + t;
    assert ListContents(chain, m', fill - 1) == b + [chain[0]] + t;
    assert (a + [chain[0]] + t)[1..] == b + [chain[0]] + t;
  }

  /** pop with the head batch's slots all empty takes the head batch itself. */
  lemma PopHead(chain: seq<Ptr>, mem: map<Ptr, seq<Ptr>>)
    requires Stored(chain, mem)
    requires chain != []
    ensures ListContents(chain, mem, 0)[0] == chain[0]
    ensures ListContents(chain[1..], mem, if |chain| == 1 then 0 else BATCH_SIZE - 1) == ListContents(chain, mem, 0)[1..]
  {
    assert chain[0] in chain;
    assert forall x :: x in chain[1..] ==> x in chain;
    assert Slots(mem[chain[0]], 0) == [];
  }

  /** A batch whose first word links to `next` and whose slots are empty. */
  function NewBatch(next: Ptr): (v: seq<Ptr>)
    ensures |v| == BATCH_SIZE && v[0] == next && Filled(v, 0)
  {
    [next] + seq(BATCH_SIZE - 1, _ => NULL)
  }

  /** What the words of a FreePtrsLinkedList encode: `head` is the first
      batch of `chain` (null for no chain), the chain is linked through the
      batches' first words, the head batch holds `fill` slots, and `size`
      counts the free pointers, none of them twice. */
  ghost predicate ListInv(head: Ptr, size: nat, mem: map<Ptr, seq<Ptr>>, chain: seq<Ptr>, fill: nat)
  {
    && fill < BATCH_SIZE
    && (chain == [] <==> head == NULL)
    && (chain != [] ==> head == chain[0])
    && (chain == [] ==> fill == 0)
    && Stored(chain, mem) && Linked(chain, mem)
    && (chain != [] ==> Filled(mem[chain[0]], fill))
    && Distinct(ListContents(chain, mem, fill))
    && size == |ListContents(chain, mem, fill)|
  }

  /** push into a free slot of the head batch keeps the invariant and puts
      the new pointer first. */
  lemma PushSlotKeeps(head: Ptr, size: nat, mem: map<Ptr, seq<Ptr>>, chain: seq<Ptr>, fill: nat, ptr: Ptr)
    requires ListInv(head, size, mem, chain, fill) && head != NULL && fill + 1 < BATCH_SIZE
    requires ptr != NULL && ptr !in ListContents(chain, mem, fill)
    ensures var m := mem[head := mem[head][fill + 1 := ptr]];
      && ListInv(head, size + 1, m, chain, fill + 1)
      && ListContents(chain, m, fill + 1) == [ptr] + ListContents(chain, mem, fill)
  {
    HeadNotInRest(chain, mem, fill);
    var p := mem[head];
    PushSlot(chain, mem, fill, ptr);
    LinkedHead(chain, mem, p[fill + 1 := ptr]);
  }

  /** push with no head batch, or onto a full one, makes the pushed slot a
      new empty head batch linked to the old head. */
  lemma PushBatchKeeps(head: Ptr, size: nat, mem: map<Ptr, seq<Ptr>>, chain: seq<Ptr>, fill: nat, ptr: Ptr)
    requires ListInv(head, size, mem, chain, fill) && (head == NULL || fill == BATCH_SIZE - 1)
    requires ptr != NULL && ptr !in ListContents(chain, mem, fill)
    ensures var m := mem[ptr := NewBatch(head)];
      && ListInv(ptr, size + 1, m, [ptr] + chain, 0)
      && ListContents([ptr] + chain, m, 0) == [ptr] + ListContents(chain, mem, fill)
  {
    ChainInContents(chain, mem, fill);
    PushHead(chain, mem, fill, ptr, NewBatch(head));
    LinkedPush(chain, mem, ptr, NewBatch(head));
  }

  /** pop from a used slot of the head batch keeps the invariant and takes
      the first pointer. */
  lemma PopSlotKeeps(head: Ptr, size: nat, mem: map<Ptr, seq<Ptr>>, chain: seq<Ptr>, fill: nat)
    requires ListInv(head, size, mem, chain, fill) && fill > 0
    ensures chain != [] && size > 0
    ensures var c := ListContents(chain, mem, fill);
      var m := mem[head := mem[head][fill := NULL]];
      && c[0] == mem[head][fill]
      && ListInv(head, size - 1, m, chain, fill - 1)
      && ListContents(chain, m, fill - 1) == c[1..]
  {
    HeadNotInRest(chain, mem, fill);
    var p := mem[head];
    PopSlot(chain, mem, fill);
    LinkedHead(chain, mem, p[fill := NULL]);
    var c := ListContents(chain, mem, fill);
    assert forall i, j :: 0 <= i < j < |c| - 1 ==> c[1..][i] == c[i + 1] && c[1..][j] == c[j + 1];
  }

  /** pop with the head batch's slots all empty keeps the invariant, takes
      the head batch itself and makes the next batch, full, the head. */
  lemma PopHeadKeeps(head: Ptr, size: nat, mem: map<Ptr, seq<Ptr>>, chain: seq<Ptr>, fill: nat)
    requires ListInv(head, size, mem, chain, fill) && ListContents(chain, mem, fill) != [] && fill == 0
    ensures chain != [] && size > 0
    ensures var c := ListContents(chain, mem, fill);
      var f := if |chain| == 1 then 0 else BATCH_SIZE - 1;
      && c[0] == head
      && ListInv(mem[head][0], size - 1, mem, chain[1..], f)
      && ListContents(chain[1..], mem, f) == c[1..]
  {
    PopHead(chain, mem);
    LinkedPop(chain, mem);
    var c := ListContents(chain, mem, fill);
    assert forall i, j :: 0 <= i < j < |c| - 1 ==> c[1..][i] == c[i + 1] && c[1..][j] == c[j + 1];
  }

  /** push's scan of the head batch: the first empty slot after the link,
      or BATCH_SIZE when all are used. */
  method FindFreeSlot(p: seq<Ptr>, ghost fill: nat) returns (i: nat)
    requires Filled(p, fill) && fill < BATCH_SIZE
    ensures i == fill + 1
  {
    i := 1;
    while i < BATCH_SIZE && p[i] != NULL
      invariant 1 <= i <= fill + 1
    {
      i := i + 1;
    }
  }

  /** pop's scan of the head batch: the highest used slot, or 0 when all
      are empty. */
  method FindTopSlot(p: seq<Ptr>, ghost fill: nat) returns (i: nat)
    requires Filled(p, fill) && fill < BATCH_SIZE
    ensures i == fill
  {
    i := BATCH_SIZE - 1;
    while i > 0 && p[i] == NULL
      invariant fill <= i < BATCH_SIZE
    {
      i := i - 1;
    }
  }

  /** FreePtrsLinkedList: a stack of free pointers kept in batches of
      BATCH_SIZE words that live in the free slots. `mem` holds the words of the
      slots used as batches; `chain` (the batches from the head) and `fill`
      (the head's used slots) are what the words encode. */
  class FreePtrsLinkedList {
    var head: Ptr
    var size: nat
    var mem: map<Ptr, seq<Ptr>>
    ghost var chain: seq<Ptr>
    ghost var fill: nat

    ghost predicate Valid()
      reads this
    {
      ListInv(head, size, mem, chain, fill)
    }

    /** The free pointers, in the order pop returns them. */
    ghost function Contents(): seq<Ptr>
      reads this
      requires Valid()
    {
      ListContents(chain, mem, fill)
    }

    constructor ()
      ensures Valid() && Contents() == []
    {
      head, size, mem := NULL, 0, map[];
      chain, fill := [], 0;
    }

    method Size() returns (n: nat)
      requires Valid()
      ensures n == |Contents()|
    {
      n := size;
    }

    /** push: into the head batch's first free slot; with no head the slot
        becomes an empty batch, and with a full head it becomes the new head
        batch linked to the old one. */
    method Push(ptr: Ptr)
      requires Valid() && ptr != NULL && ptr !in Contents()
      modifies this
      ensures Valid() && Contents() == [ptr] + old(Contents())
    {
      if head != NULL {
        var p := mem[head];
        var i := FindFreeSlot(p, fill);
        if i < BATCH_SIZE {
          PushSlotKeeps(head, size, mem, chain, fill, ptr);
          mem, size, fill := mem[head := p[i := ptr]], size + 1, fill + 1;
          return;
        }
      }
      PushBatchKeeps(head, size, mem, chain, fill, ptr);
      head, size, mem, chain, fill := ptr, size + 1, mem[ptr := NewBatch(head)], [ptr] + chain, 0;
    }

    /** pop: the head batch's highest used slot, or, with all of them empty,
        the head batch itself, whose first word is the next batch. An empty list
        is a BUG. */
    method Pop() returns (r: Ptr)
      requires Valid() && Contents() != []
      modifies this
      ensures Valid() && r == old(Contents())[0] && Contents() == old(Contents())[1..]
    {
      var p := mem[head];
      var i := FindTopSlot(p, fill);
      if i > 0 {
        PopSlotKeeps(head, size, mem, chain, fill);
        r := p[i];
        mem, size, fill := mem[head := p[i := NULL]], size - 1, fill - 1;
        return;
      }
      PopHeadKeeps(head, size, mem, chain, fill);
      r := head;
      head, size, chain, fill := p[0], size - 1, chain[1..], if |chain| == 1 then 0 else BATCH_SIZE - 1;
    }
  }
}
