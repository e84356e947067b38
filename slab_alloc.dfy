/** Nu's SlabAllocator (src/utils/slab.cpp): size classes of 2^shift bytes
    plus a 16-byte PtrHeader, a per-class global slab list, per-core cache
    lists, per-core transferred lists for slots freed on another core, and a
    bump region [cur, end) from which fresh slots are carved.

    The allocator's lists are FreePtrsLinkedLists; here each one is the stack
    of its Contents(), which module Slab proves push and pop keep: push puts
    the pushed pointer first and pop takes the first. */
module SlabAllocators {
  import opened Wrappers
  import opened Slab

  const ALIGNMENT: nat := 16
  /** sizeof(PtrHeader): a 56-bit size, an 8-bit core id and the slab id. */
  const HEADER_SIZE: nat := 16
  const MIN_SHIFT: nat := 5
  const MAX_SHIFT: nat := 35
  const U64: nat := 0x1_0000_0000_0000_0000

  function Pow2(n: nat): (p: nat)
    ensures p >= 1
  {
    if n == 0 then 1 else 2 * Pow2(n - 1)
  }

  /** The least shift from `s` on whose class holds `size` bytes. */
  function ShiftFrom(s: nat, size: nat): nat
    decreases size - Pow2(s)
  {
    if size <= Pow2(s) then s else ShiftFrom(s + 1, size)
  }

  /** get_slab_shift: the size class of a request. */
  function SlabShift(size: nat): nat
  {
    ShiftFrom(MIN_SHIFT, size)
  }

  /** get_slab_size: a slot of class `shift` is the class plus its header. */
  function SlabSize(shift: nat): (n: nat)
    ensures n > HEADER_SIZE
  {
    Pow2(shift) + HEADER_SIZE
  }

  lemma {:induction false} ShiftFromLeast(s: nat, size: nat)
    ensures ShiftFrom(s, size) >= s && size <= Pow2(ShiftFrom(s, size))
    ensures ShiftFrom(s, size) == s || Pow2(ShiftFrom(s, size) - 1) < size
    decreases size - Pow2(s)
  {
    if size > Pow2(s) {
      ShiftFromLeast(s + 1, size);
    }
  }

  /** The class of a request is the smallest class, from 32 bytes up, that
      holds it. */
  lemma SlabShiftLeast(size: nat)
    ensures SlabShift(size) >= MIN_SHIFT && size <= Pow2(SlabShift(size))
    ensures SlabShift(size) == MIN_SHIFT || Pow2(SlabShift(size) - 1) < size
  {
    ShiftFromLeast(MIN_SHIFT, size);
  }

  /** yield's rounding `(((size - 1) / kAlignment) + 1) * kAlignment` in
      64-bit size_t arithmetic. */
  function Align(size: nat): nat
    requires size < U64
  {
    (((size - 1) % U64) / ALIGNMENT + 1) * ALIGNMENT % U64
  }

  /** The rounding gives the least multiple of 16 that is at least `size`,
      except that 0 and the sizes above the last multiple of 16 wrap to 0. */
  lemma AlignRoundsUp(size: nat)
    requires size < U64
    ensures 0 < size <= U64 - ALIGNMENT ==>
      Align(size) % ALIGNMENT == 0 && size <= Align(size) < size + ALIGNMENT
    ensures (size == 0 || size > U64 - ALIGNMENT) ==> Align(size) == 0
  {
    if size == 0 {
      assert (size - 1) % U64 == U64 - 1;
    } else {
      assert (size - 1) % U64 == size - 1;
      var q := (size - 1) / ALIGNMENT;
      assert q * ALIGNMENT <= size - 1 < q * ALIGNMENT + ALIGNMENT;
      if size > U64 - ALIGNMENT {
        assert q == U64 / ALIGNMENT - 1;
      } else {
        assert (q + 1) * ALIGNMENT < U64;
      }
    }
  }

  /** get_max_num_cache_entries: how many free slots a core keeps per class. */
  function MaxCacheEntries(aggressive: bool, shift: nat): nat
  {
    match shift
    case 4 => 64
    case 5 => 64
    case 6 => 32
    case 7 => 32
    case 8 => 16
    case 9 => 8
    case 10 => 4
    case 11 => 2
    case 12 => 1
    case _ => if aggressive && shift <= 20 then 1 else 0
  }

  /** The cache bound shrinks as the classes grow, every class up to shift 12
      (4 KiB, by SlabSize) gets a cache, and a larger class gets one slot only
      under aggressive caching and only up to shift 20 (1 MiB). */
  lemma MaxCacheEntriesShape(aggressive: bool, s: nat, t: nat)
    ensures 4 <= s <= t ==> MaxCacheEntries(aggressive, t) <= MaxCacheEntries(aggressive, s)
    ensures 4 <= s <= 12 ==> 1 <= MaxCacheEntries(aggressive, s) <= 64
    ensures s > 12 ==> (MaxCacheEntries(aggressive, s) > 0 <==> aggressive && s <= 20)
    ensures MaxCacheEntries(aggressive, s) <= 64
  {
  }

  function Min(a: nat, b: nat): nat { if a < b then a else b }

  function Reverse(s: seq<Ptr>): (r: seq<Ptr>)
    ensures |r| == |s|
    decreases |s|
  {
    if s == [] then [] else [s[|s| - 1]] + Reverse(s[..|s| - 1])
  }

  /** j * size, written out as repeated addition so that the carving
      arithmetic stays linear. */
  function Times(j: nat, size: nat): nat
  {
    if j == 0 then 0 else Times(j - 1, size) + size
  }

  lemma {:induction false} TimesMul(j: nat, size: nat)
    ensures Times(j, size) == j * size
  {
    if j > 0 {
      TimesMul(j - 1, size);
      assert (j - 1) * size + size == j * size;
    }
  }

  /** The slots carved from the bump region at `base`, as the cache list
      holds them after the carving loop: the lowest address on top. */
  function Carved(base: nat, size: nat, n: nat): (r: seq<Ptr>)
    ensures |r| == n
    decreases n
  {
    if n == 0 then [] else [base] + Carved(base + size, size, n - 1)
  }

  /** Slot i of a carved run lies i slab sizes above its base. */
  lemma {:induction false} CarvedAt(base: nat, size: nat, n: nat, i: nat)
    requires i < n
    ensures Carved(base, size, n)[i] == base + i * size
    decreases n
  {
    if i > 0 {
      CarvedAt(base + size, size, n - 1, i - 1);
      assert (i - 1) * size + size == i * size;
    }
  }

  /** The list key of a core's cache (or transferred cache) for one class. */
  datatype Key = Key(cpu: nat, shift: nat)

  /** The PtrHeader written in front of each allocation. */
  datatype Header = Header(size: nat, coreId: nat, slabId: nat)

  /** What init fixes: slab_id_, aggressive_caching_, start_ and end_. */
  datatype Config = Config(slabId: nat, aggressive: bool, start: nat, end: nat)

  /** What the allocator's methods change: cur_, slab_lists_, cache_lists_,
      transferred_caches_, global_free_bytes_ and the headers in front of the
      slots handed out. */
  datatype Heap = Heap(cur: nat, slab: map<nat, seq<Ptr>>, cache: map<Key, seq<Ptr>>,
                       transferred: map<Key, seq<Ptr>>, freeBytes: int, headers: map<Ptr, Header>)

  /** A list never touched is empty. */
  function Get<K>(m: map<K, seq<Ptr>>, k: K): seq<Ptr>
  {
    if k in m then m[k] else []
  }

  /** How many slots free_to_cache_list turns in once the cache of `n`
      slots has passed the bound: down to half the bound. */
  function CacheSpill(n: nat, max: nat): (k: nat)
    ensures k <= n && (k == 0 <==> n <= max)
  {
    if n > max then n - max / 2 else 0
  }

  /** How many slots free_to_transferred_cache_list turns in: with `t`
      transferred and `c` cached past the bound, min(t, t + c - bound / 2). */
  function TransferSpill(t: nat, c: nat, max: nat): (k: nat)
    ensures k <= t && (t > 0 ==> (k == 0 <==> t + c <= max))
  {
    if t + c > max then Min(t, t + c - max / 2) else 0
  }

  /** free_to_cache_list: push onto this core's cache; past the bound, pop
      down to half the bound onto the slab list, counting each slot moved
      into global_free_bytes_. */
  function FreeToCache(cfg: Config, h: Heap, cpu: nat, hdr: Ptr, shift: nat): (r: Heap)
    ensures r.cur == h.cur && r.transferred == h.transferred && r.headers == h.headers
  {
    var key := Key(cpu, shift);
    var c := [hdr] + Get(h.cache, key);
    var k := CacheSpill(|c|, MaxCacheEntries(cfg.aggressive, shift));
    if k == 0 then h.(cache := h.cache[key := c])
    else
      h.(cache := h.cache[key := c[k..]],
         slab := h.slab[shift := Reverse(c[..k]) + Get(h.slab, shift)],
         freeBytes := h.freeBytes + Times(k, SlabSize(shift)))
  }

  /** free_to_transferred_cache_list: push onto the owning core's transferred
      list; when that list and the owner's cache together pass the bound,
      turn some of the transferred slots in to the slab list. */
  function FreeToTransferred(cfg: Config, h: Heap, core: nat, hdr: Ptr, shift: nat): (r: Heap)
    ensures r.cur == h.cur && r.cache == h.cache && r.headers == h.headers
  {
    var key := Key(core, shift);
    var t := [hdr] + Get(h.transferred, key);
    var n := TransferSpill(|t|, |Get(h.cache, key)|, MaxCacheEntries(cfg.aggressive, shift));
    if n == 0 then h.(transferred := h.transferred[key := t])
    else
      h.(transferred := h.transferred[key := t[n..]],
         slab := h.slab[shift := Reverse(t[..n]) + Get(h.slab, shift)],
         freeBytes := h.freeBytes + Times(n, SlabSize(shift)))
  }

  /** drain_transferred_cache: pop this core's transferred list empty, each
      slot going through free_to_cache_list. */
  function DrainTransferred(cfg: Config, h: Heap, cpu: nat, shift: nat): (r: Heap)
    ensures r.cur == h.cur && r.headers == h.headers && Get(r.transferred, Key(cpu, shift)) == []
    decreases |Get(h.transferred, Key(cpu, shift))|
  {
    var key := Key(cpu, shift);
    var t := Get(h.transferred, key);
    if t == [] then h
    else
      var h1 := FreeToCache(cfg, h.(transferred := h.transferred[key := t[1..]]), cpu, t[0], shift);
      assert Get(h1.transferred, key) == t[1..];
      DrainTransferred(cfg, h1, cpu, shift)
  }

  /** Hand out slot `p`: write its header and return the address after it. */
  function Claim(cfg: Config, h: Heap, p: Ptr, size: nat, cpu: nat): (Heap, Option<Ptr>)
  {
    (h.(headers := h.headers[p := Header(size, cpu, cfg.slabId)]), Some(p + HEADER_SIZE))
  }

  /** The cache bound refill aims at: get_max_num_cache_entries, but at
      least 1. */
  function RefillBound(cfg: Config, shift: nat): (n: nat)
    ensures n >= 1
  {
    if MaxCacheEntries(cfg.aggressive, shift) == 0 then 1 else MaxCacheEntries(cfg.aggressive, shift)
  }

  /** How many slots refill carves: what the bound still lacks, as far as the
      bump region holds whole slots. */
  function CarveCount(cfg: Config, cur: nat, shift: nat, want: nat): (n: nat)
    requires cur <= cfg.end
    ensures n <= want && cur + Times(n, SlabSize(shift)) <= cfg.end
  {
    var sz := SlabSize(shift);
    var q := WholeSlots(cfg.end - cur, sz);
    var n := if want <= q then want else q;
    TimesMono(n, q, sz);
    n
  }

  /** How many whole slots of `sz` bytes fit in `a` bytes. */
  function WholeSlots(a: nat, sz: nat): (q: nat)
    requires sz > 0
    ensures q == a / sz && Times(q, sz) <= a
  {
    DivBound(a, sz, a / sz);
    TimesMul(a / sz, sz);
    assert (a / sz) * sz == sz * (a / sz);
    a / sz
  }

  lemma {:induction false} TimesMono(n: nat, q: nat, sz: nat)
    requires n <= q
    ensures Times(n, sz) <= Times(q, sz)
    decreases q
  {
    if n < q {
      TimesMono(n, q - 1, sz);
    }
  }

  /** The refill of an empty cache (__allocate refills only then): pop up to the bound from the slab list
      (taking their bytes off global_free_bytes_), then carve the rest of the
      bound from cur_. The new cache holds the carved slots on top. */
  function Refill(cfg: Config, h: Heap, cpu: nat, shift: nat): (r: Heap)
    requires h.cur <= cfg.end && Get(h.cache, Key(cpu, shift)) == []
    ensures h.cur <= r.cur <= cfg.end && r.headers == h.headers && r.transferred == h.transferred
  {
    var sz := SlabSize(shift);
    var s := Get(h.slab, shift);
    var k := Min(|s|, RefillBound(cfg, shift));
    var n := CarveCount(cfg, h.cur, shift, RefillBound(cfg, shift) - k);
    h.(cur := h.cur + Times(n, sz),
       slab := h.slab[shift := s[k..]],
       cache := h.cache[Key(cpu, shift) := Carved(h.cur, sz, n) + Reverse(s[..k])],
       freeBytes := h.freeBytes - Times(k, sz))
  }

  /** Refill's new state, from what the slab list gives up and what is
      carved after it. */
  lemma RefillIs(cfg: Config, h: Heap, cpu: nat, shift: nat, cur': nat, slab: seq<Ptr>, list: seq<Ptr>, bytes: int)
    requires h.cur <= cfg.end && Get(h.cache, Key(cpu, shift)) == []
    requires var s := Get(h.slab, shift);
      var k := Min(|s|, RefillBound(cfg, shift));
      var n := CarveCount(cfg, h.cur, shift, RefillBound(cfg, shift) - k);
      && slab == s[k..] && bytes == h.freeBytes - Times(k, SlabSize(shift))
      && cur' == h.cur + Times(n, SlabSize(shift)) && list == Carved(h.cur, SlabSize(shift), n) + Reverse(s[..k])
    ensures Refill(cfg, h, cpu, shift)
         == h.(cur := cur', slab := h.slab[shift := slab], cache := h.cache[Key(cpu, shift) := list], freeBytes := bytes)
  {
  }

  /** Pop the top of a cache list, if any. */
  function PopCache(h: Heap, key: Key): (Heap, Option<Ptr>)
  {
    var c := Get(h.cache, key);
    if c == [] then (h, None) else (h.(cache := h.cache[key := c[1..]]), Some(c[0]))
  }

  /** __allocate: a class of 2^35 bytes or more fails at once. Otherwise drain
      the transferred list and pop the cache; with the cache empty, refill it
      and pop again. A slot handed out gets its header and is returned past
      it. */
  function AfterAllocate(cfg: Config, h: Heap, size: nat, cpu: nat): (r: (Heap, Option<Ptr>))
    requires h.cur <= cfg.end
    ensures h.cur <= r.0.cur <= cfg.end && h.headers.Keys <= r.0.headers.Keys
  {
    var shift := SlabShift(size);
    if shift >= MAX_SHIFT then (h, None)
    else
      var h1 := DrainTransferred(cfg, h, cpu, shift);
      var key := Key(cpu, shift);
      var p := if Get(h1.cache, key) != [] then PopCache(h1, key) else PopCache(Refill(cfg, h1, cpu, shift), key);
      if p.1.None? then p else Claim(cfg, p.0, p.1.value, size, cpu)
  }

  /** __do_free: drain this core's transferred list, then free to this core's
      cache when the slot was allocated here, else to its owner's transferred
      list. */
  function AfterDoFree(cfg: Config, h: Heap, cpu: nat, hdr: Ptr, shift: nat): (r: Heap)
    requires hdr in h.headers
    ensures r.cur == h.cur && r.headers == h.headers
  {
    var core := h.headers[hdr].coreId;
    var h1 := DrainTransferred(cfg, h, cpu, shift);
    if cpu == core then FreeToCache(cfg, h1, cpu, hdr, shift)
    else FreeToTransferred(cfg, h1, core, hdr, shift)
  }

  /** __free: the header sits 16 bytes before the freed pointer; classes of 2^35
      bytes or more are not freed. */
  function AfterFree(cfg: Config, h: Heap, ptr: Ptr, cpu: nat): (r: Heap)
    requires ptr - HEADER_SIZE in h.headers
    ensures r.cur == h.cur && r.headers == h.headers
  {
    var hdr := ptr - HEADER_SIZE;
    var shift := SlabShift(h.headers[hdr].size);
    if shift >= MAX_SHIFT then h else AfterDoFree(cfg, h, cpu, hdr, shift)
  }

  /** yield: round the size up to 16 and take it off the bump region. */
  function AfterYield(cfg: Config, h: Heap, size: nat): (r: (Heap, Option<Ptr>))
    requires size < U64
  {
    var a := Align(size);
    if h.cur + a > cfg.end then (h, None) else (h.(cur := h.cur + a), Some(h.cur))
  }

  /** reallocate: the old slot's class must be below 2^35 (a BUG otherwise);
      allocate the new size and, when that succeeds, free the old slot. */
  function AfterReallocate(cfg: Config, h: Heap, ptr: Ptr, newSize: nat, cpu: nat): (r: (Heap, Option<Ptr>))
    requires h.cur <= cfg.end && ptr - HEADER_SIZE in h.headers
    requires SlabShift(h.headers[ptr - HEADER_SIZE].size) < MAX_SHIFT
  {
    var hdr := ptr - HEADER_SIZE;
    var shift := SlabShift(h.headers[hdr].size);
    var a := AfterAllocate(cfg, h, newSize, cpu);
    if a.1.None? then a else (AfterDoFree(cfg, a.0, cpu, hdr, shift), a.1)
  }

  lemma DivBound(a: nat, b: nat, q: nat)
    requires b > 0 && q == a / b
    ensures b * q <= a
  {
  }

  /** Popping the top k of c onto s, one at a time, moves them, reversed. */
  lemma SpillKeeps(c: seq<Ptr>, s: seq<Ptr>, k: nat)
    requires k <= |c|
    ensures multiset(c[k..]) + multiset(Reverse(c[..k]) + s) == multiset(c) + multiset(s)
    ensures |Reverse(c[..k]) + s| == |s| + k
  {
    ReverseMultiset(c[..k]);
    assert c == c[..k] + c[k..];
  }

  lemma {:induction false} ReverseMultiset(s: seq<Ptr>)
    ensures multiset(Reverse(s)) == multiset(s)
    decreases |s|
  {
    if s != [] {
      ReverseMultiset(s[..|s| - 1]);
      assert s == s[..|s| - 1] + [s[|s| - 1]];
    }
  }

  /** yield hands out [cur, cur + size) rounded up to 16 bytes, and fails,
      changing nothing, exactly when that would pass end_. A size of 0, and
      one within 16 of 2^64, rounds to 0 in size_t and gets cur_ back without
      reserving anything. */
  lemma YieldWithin(cfg: Config, h: Heap, size: nat)
    requires size < U64 && h.cur <= cfg.end
    ensures AfterYield(cfg, h, size).0.cur <= cfg.end
    ensures AfterYield(cfg, h, size).1.None? <==> h.cur + Align(size) > cfg.end
    ensures AfterYield(cfg, h, size).1.None? ==> AfterYield(cfg, h, size).0 == h
    ensures 0 < size <= U64 - ALIGNMENT && AfterYield(cfg, h, size).1.Some? ==>
      var (h', r) := AfterYield(cfg, h, size);
      && r.value == h.cur && h' == h.(cur := h'.cur)
      && h.cur + size <= h'.cur < h.cur + size + ALIGNMENT && (h'.cur - h.cur) % ALIGNMENT == 0
    ensures (size == 0 || size > U64 - ALIGNMENT) ==> AfterYield(cfg, h, size) == (h, Some(h.cur))
  {
    AlignRoundsUp(size);
  }

  /** The slab list for `shift` is the only one that changes, and
      global_free_bytes_ moves by the size of the slots it gains or loses. */
  ghost predicate Tracks(h: Heap, r: Heap, shift: nat)
  {
    && r.freeBytes - h.freeBytes == SlabSize(shift) * (|Get(r.slab, shift)| - |Get(h.slab, shift)|)
    && forall s :: s != shift ==> Get(r.slab, s) == Get(h.slab, s)
  }

  /** Tracks from the number of slots the slab list gained. */
  lemma TracksBy(h: Heap, r: Heap, shift: nat, k: nat)
    requires r.freeBytes == h.freeBytes + Times(k, SlabSize(shift))
    requires |Get(r.slab, shift)| == |Get(h.slab, shift)| + k
    requires forall s :: s != shift ==> Get(r.slab, s) == Get(h.slab, s)
    ensures Tracks(h, r, shift)
  {
    TimesMul(k, SlabSize(shift));
  }

  lemma TracksTrans(h1: Heap, h2: Heap, h3: Heap, shift: nat)
    requires Tracks(h1, h2, shift) && Tracks(h2, h3, shift)
    ensures Tracks(h1, h3, shift)
  {
    var a, b, c := |Get(h1.slab, shift)|, |Get(h2.slab, shift)|, |Get(h3.slab, shift)|;
    assert SlabSize(shift) * (b - a) + SlabSize(shift) * (c - b) == SlabSize(shift) * (c - a);
  }

  /** What free_to_cache_list leaves, with or without an overflow. */
  lemma FreeToCacheShape(cfg: Config, h: Heap, cpu: nat, hdr: Ptr, shift: nat)
    ensures var r := FreeToCache(cfg, h, cpu, hdr, shift);
      var c := [hdr] + Get(h.cache, Key(cpu, shift));
      var k := CacheSpill(|c|, MaxCacheEntries(cfg.aggressive, shift));
      && Get(r.cache, Key(cpu, shift)) == c[k..]
      && Get(r.slab, shift) == Reverse(c[..k]) + Get(h.slab, shift)
      && r.freeBytes == h.freeBytes + Times(k, SlabSize(shift))
      && (forall q :: q != Key(cpu, shift) ==> Get(r.cache, q) == Get(h.cache, q))
      && (forall s :: s != shift ==> Get(r.slab, s) == Get(h.slab, s))
  {
    var c := [hdr] + Get(h.cache, Key(cpu, shift));
    var k := CacheSpill(|c|, MaxCacheEntries(cfg.aggressive, shift));
    if k == 0 {
      assert c[k..] == c && Reverse(c[..k]) + Get(h.slab, shift) == Get(h.slab, shift);
    }
  }

  /** free_to_cache_list loses no slot and invents none: the freed slot joins
      this core's cache and the slab list. */
  lemma FreeToCacheKeeps(cfg: Config, h: Heap, cpu: nat, hdr: Ptr, shift: nat)
    ensures var r := FreeToCache(cfg, h, cpu, hdr, shift);
      multiset(Get(r.cache, Key(cpu, shift))) + multiset(Get(r.slab, shift))
      == multiset(Get(h.cache, Key(cpu, shift))) + multiset(Get(h.slab, shift)) + multiset{hdr}
  {
    var c0 := Get(h.cache, Key(cpu, shift));
    var c := [hdr] + c0;
    FreeToCacheShape(cfg, h, cpu, hdr, shift);
    SpillKeeps(c, Get(h.slab, shift), CacheSpill(|c|, MaxCacheEntries(cfg.aggressive, shift)));
    assert multiset(c) == multiset(c0) + multiset{hdr};
  }

  /** Below the bound the freed slot just goes on top of the cache; at the
      bound the cache is cut to half of it. */
  lemma FreeToCacheBound(cfg: Config, h: Heap, cpu: nat, hdr: Ptr, shift: nat)
    ensures var r := FreeToCache(cfg, h, cpu, hdr, shift);
      var max := MaxCacheEntries(cfg.aggressive, shift);
      if |Get(h.cache, Key(cpu, shift))| < max
      then Get(r.cache, Key(cpu, shift)) == [hdr] + Get(h.cache, Key(cpu, shift))
           && Get(r.slab, shift) == Get(h.slab, shift)
      else |Get(r.cache, Key(cpu, shift))| == max / 2
  {
    FreeToCacheShape(cfg, h, cpu, hdr, shift);
  }

  /** free_to_cache_list changes only this core's cache and this class's
      slab list, and global_free_bytes_ follows the slab list. */
  lemma FreeToCacheTracks(cfg: Config, h: Heap, cpu: nat, hdr: Ptr, shift: nat)
    ensures var r := FreeToCache(cfg, h, cpu, hdr, shift);
      Tracks(h, r, shift) && forall k :: k != Key(cpu, shift) ==> Get(r.cache, k) == Get(h.cache, k)
  {
    var r := FreeToCache(cfg, h, cpu, hdr, shift);
    FreeToCacheShape(cfg, h, cpu, hdr, shift);
    TracksBy(h, r, shift, CacheSpill(|[hdr] + Get(h.cache, Key(cpu, shift))|, MaxCacheEntries(cfg.aggressive, shift)));
  }



  /** What free_to_transferred_cache_list leaves, with or without an
      overflow. */
  lemma FreeToTransferredShape(cfg: Config, h: Heap, core: nat, hdr: Ptr, shift: nat)
    ensures var r := FreeToTransferred(cfg, h, core, hdr, shift);
      var t := [hdr] + Get(h.transferred, Key(core, shift));
      var n := TransferSpill(|t|, |Get(h.cache, Key(core, shift))|, MaxCacheEntries(cfg.aggressive, shift));
      && Get(r.transferred, Key(core, shift)) == t[n..]
      && Get(r.slab, shift) == Reverse(t[..n]) + Get(h.slab, shift)
      && r.freeBytes == h.freeBytes + Times(n, SlabSize(shift))
      && (forall q :: q != Key(core, shift) ==> Get(r.transferred, q) == Get(h.transferred, q))
      && (forall s :: s != shift ==> Get(r.slab, s) == Get(h.slab, s))
  {
    var t := [hdr] + Get(h.transferred, Key(core, shift));
    var n := TransferSpill(|t|, |Get(h.cache, Key(core, shift))|, MaxCacheEntries(cfg.aggressive, shift));
    if n == 0 {
      assert t[n..] == t && Reverse(t[..n]) + Get(h.slab, shift) == Get(h.slab, shift);
    }
  }

  /** free_to_transferred_cache_list loses no slot and invents none: the
      freed slot joins the owner's transferred list and the slab list. */
  lemma FreeToTransferredKeeps(cfg: Config, h: Heap, core: nat, hdr: Ptr, shift: nat)
    ensures var r := FreeToTransferred(cfg, h, core, hdr, shift);
      multiset(Get(r.transferred, Key(core, shift))) + multiset(Get(r.slab, shift))
      == multiset(Get(h.transferred, Key(core, shift))) + multiset(Get(h.slab, shift)) + multiset{hdr}
  {
    var t0 := Get(h.transferred, Key(core, shift));
    var t := [hdr] + t0;
    FreeToTransferredShape(cfg, h, core, hdr, shift);
    SpillKeeps(t, Get(h.slab, shift),
               TransferSpill(|t|, |Get(h.cache, Key(core, shift))|, MaxCacheEntries(cfg.aggressive, shift)));
    assert multiset(t) == multiset(t0) + multiset{hdr};
  }

  /** Within the bound the freed slot just goes on top of the transferred
      list; past it the list is emptied, or cut until it and the owner's
      cache hold half the bound. */
  lemma FreeToTransferredBound(cfg: Config, h: Heap, core: nat, hdr: Ptr, shift: nat)
    ensures var r := FreeToTransferred(cfg, h, core, hdr, shift);
      var max := MaxCacheEntries(cfg.aggressive, shift);
      var t := Get(h.transferred, Key(core, shift));
      var c := Get(h.cache, Key(core, shift));
      if |t| + 1 + |c| <= max
      then Get(r.transferred, Key(core, shift)) == [hdr] + t && Get(r.slab, shift) == Get(h.slab, shift)
      else Get(r.transferred, Key(core, shift)) == [] || |Get(r.transferred, Key(core, shift))| + |c| == max / 2
  {
    FreeToTransferredShape(cfg, h, core, hdr, shift);
    var t := [hdr] + Get(h.transferred, Key(core, shift));
    var max := MaxCacheEntries(cfg.aggressive, shift);
    var c := Get(h.cache, Key(core, shift));
    var n := TransferSpill(|t|, |c|, max);
    if |t| + |c| > max && n < |t| {
      assert |t[n..]| + |c| == max / 2;
    }
  }

  /** free_to_transferred_cache_list changes only the owner's transferred
      list and this class's slab list, and global_free_bytes_ follows the slab
      list. */
  lemma FreeToTransferredTracks(cfg: Config, h: Heap, core: nat, hdr: Ptr, shift: nat)
    ensures var r := FreeToTransferred(cfg, h, core, hdr, shift);
      Tracks(h, r, shift) && forall k :: k != Key(core, shift) ==> Get(r.transferred, k) == Get(h.transferred, k)
  {
    var r := FreeToTransferred(cfg, h, core, hdr, shift);
    FreeToTransferredShape(cfg, h, core, hdr, shift);
    TracksBy(h, r, shift, TransferSpill(|[hdr] + Get(h.transferred, Key(core, shift))|,
                                        |Get(h.cache, Key(core, shift))|, MaxCacheEntries(cfg.aggressive, shift)));
  }



  /** drain_transferred_cache loses no slot and invents none: this core's
      transferred slots all end up in its cache or the slab list. */
  lemma {:induction false} DrainKeeps(cfg: Config, h: Heap, cpu: nat, shift: nat)
    ensures var r := DrainTransferred(cfg, h, cpu, shift);
      multiset(Get(r.cache, Key(cpu, shift))) + multiset(Get(r.slab, shift))
      == multiset(Get(h.cache, Key(cpu, shift))) + multiset(Get(h.slab, shift))
         + multiset(Get(h.transferred, Key(cpu, shift)))
    decreases |Get(h.transferred, Key(cpu, shift))|
  {
    var key := Key(cpu, shift);
    var t := Get(h.transferred, key);
    if t != [] {
      var h0 := h.(transferred := h.transferred[key := t[1..]]);
      var h1 := FreeToCache(cfg, h0, cpu, t[0], shift);
      FreeToCacheKeeps(cfg, h0, cpu, t[0], shift);
      assert Get(h1.transferred, key) == t[1..];
      DrainKeeps(cfg, h1, cpu, shift);
      var r := DrainTransferred(cfg, h1, cpu, shift);
      assert DrainTransferred(cfg, h, cpu, shift) == r;
      assert Get(h0.cache, key) == Get(h.cache, key) && Get(h0.slab, shift) == Get(h.slab, shift);
      MultisetCons(t);
      UnionChain(multiset(Get(r.cache, key)) + multiset(Get(r.slab, shift)),
                 multiset(Get(h1.cache, key)) + multiset(Get(h1.slab, shift)),
                 multiset(Get(h.cache, key)) + multiset(Get(h.slab, shift)),
                 multiset{t[0]}, multiset(t[1..]), multiset(t));
    }
  }

  /** A list's elements are its head and those of its tail. */
  lemma MultisetCons<T>(t: seq<T>)
    requires t != []
    ensures multiset(t) == multiset{t[0]} + multiset(t[1..])
  {
    assert t == [t[0]] + t[1..];
  }

  /** Adding a and then b is adding their union. */
  lemma UnionChain<T>(r: multiset<T>, m: multiset<T>, h: multiset<T>, a: multiset<T>, b: multiset<T>, t: multiset<T>)
    requires r == m + b && m == h + a && t == a + b
    ensures r == h + t
  {
  }

  /** drain_transferred_cache touches only this core's cache and transferred
      list and this class's slab list, and global_free_bytes_ follows the
      slab list. */
  lemma {:induction false} DrainTracks(cfg: Config, h: Heap, cpu: nat, shift: nat)
    ensures var r := DrainTransferred(cfg, h, cpu, shift);
      && Tracks(h, r, shift)
      && (forall k :: k != Key(cpu, shift) ==> Get(r.cache, k) == Get(h.cache, k))
      && (forall k :: k != Key(cpu, shift) ==> Get(r.transferred, k) == Get(h.transferred, k))
    decreases |Get(h.transferred, Key(cpu, shift))|
  {
    var key := Key(cpu, shift);
    var t := Get(h.transferred, key);
    if t == [] {
      TracksBy(h, h, shift, 0);
    } else {
      var h0 := h.(transferred := h.transferred[key := t[1..]]);
      var h1 := FreeToCache(cfg, h0, cpu, t[0], shift);
      FreeToCacheTracks(cfg, h0, cpu, t[0], shift);
      assert Get(h1.transferred, key) == t[1..];
      DrainTracks(cfg, h1, cpu, shift);
      var r := DrainTransferred(cfg, h1, cpu, shift);
      assert Tracks(h, h0, shift) by { TracksBy(h, h0, shift, 0); }
      TracksTrans(h, h0, h1, shift);
      TracksTrans(h, h1, r, shift);
    }
  }

  lemma ReverseSnoc(s: seq<Ptr>, k: nat)
    requires k < |s|
    ensures Reverse(s[..k + 1]) == [s[k]] + Reverse(s[..k])
  {
    assert s[..k + 1][..k] == s[..k];
  }

  /** The overflow loop of free_to_cache_list: pop the list onto the slab
      list, adding a slot's size to the byte count each time, until `keep`
      slots are left. */
  method PopDownTo(list: seq<Ptr>, slab: seq<Ptr>, bytes: int, size: nat, keep: nat)
    returns (list': seq<Ptr>, slab': seq<Ptr>, bytes': int)
    ensures var k := if |list| > keep then |list| - keep else 0;
      list' == list[k..] && slab' == Reverse(list[..k]) + slab && bytes' == bytes + Times(k, size)
  {
    list', slab', bytes' := list, slab, bytes;
    ghost var moved := 0;
    while |list'| > keep
      invariant moved <= |list| && list' == list[moved..]
      invariant slab' == Reverse(list[..moved]) + slab
      invariant bytes' == bytes + Times(moved, size)
      invariant moved > 0 ==> |list'| >= keep
      decreases |list'|
    {
      ReverseSnoc(list, moved);
      slab' := [list'[0]] + slab';
      list' := list'[1..];
      bytes' := bytes' + size;
      moved := moved + 1;
    }
  }

  /** The loop of free_to_transferred_cache_list: `while (num_to_turn_in--)`
      pops the list onto the slab list. */
  method TurnIn(list: seq<Ptr>, slab: seq<Ptr>, bytes: int, size: nat, num: nat)
    returns (list': seq<Ptr>, slab': seq<Ptr>, bytes': int)
    requires num <= |list|
    ensures list' == list[num..] && slab' == Reverse(list[..num]) + slab && bytes' == bytes + Times(num, size)
  {
    list', slab', bytes' := list, slab, bytes;
    var n: nat := num;
    ghost var moved := 0;
    while n > 0
      invariant moved + n == num && list' == list[moved..]
      invariant slab' == Reverse(list[..moved]) + slab
      invariant bytes' == bytes + Times(moved, size)
    {
      ReverseSnoc(list, moved);
      slab' := [list'[0]] + slab';
      list' := list'[1..];
      bytes' := bytes' + size;
      n, moved := n - 1, moved + 1;
    }
  }

  /** The refill loop of __allocate: pop the slab list onto the (empty)
      cache until either runs out, taking each slot's size off the byte
      count. */
  method TakeFromSlab(slab: seq<Ptr>, bytes: int, size: nat, max: nat)
    returns (slab': seq<Ptr>, cache': seq<Ptr>, bytes': int)
    ensures var k := Min(|slab|, max);
      slab' == slab[k..] && cache' == Reverse(slab[..k]) && bytes' == bytes - Times(k, size)
  {
    slab', cache', bytes' := slab, [], bytes;
    ghost var moved := 0;
    while |slab'| > 0 && |cache'| < max
      invariant moved <= |slab| && moved <= max && slab' == slab[moved..]
      invariant cache' == Reverse(slab[..moved]) && bytes' == bytes - Times(moved, size)
      invariant |slab'| > 0 ==> moved <= max
      decreases |slab'|
    {
      ReverseSnoc(slab, moved);
      cache' := [slab'[0]] + cache';
      slab' := slab'[1..];
      bytes' := bytes' - size;
      moved := moved + 1;
    }
  }

  /** The bump step of __allocate: cap the count by the whole slots left
      between cur_ and end_ (CarveCount), advance cur_ past them and carve
      them. */
  method CarveFrom(cfg: Config, cur: nat, shift: nat, want: nat, list: seq<Ptr>)
    returns (cur': nat, list': seq<Ptr>)
    requires cur <= cfg.end
    ensures var n := CarveCount(cfg, cur, shift, want);
      cur' == cur + Times(n, SlabSize(shift)) && list' == Carved(cur, SlabSize(shift), n) + list
  {
    var size := SlabSize(shift);
    var remaining := CarveCount(cfg, cur, shift, want);
    TimesMul(remaining, size);
    cur' := cur + size * remaining;
    list' := Carve(cur', size, remaining, list);
  }

  /** The carving loop of __allocate: from the new cur_ `top`, push
      top - size, top - 2 * size, ..., down to top - n * size. */
  method Carve(top: nat, size: nat, n: nat, cache: seq<Ptr>) returns (cache': seq<Ptr>)
    requires Times(n, size) <= top
    ensures cache' == Carved(top - Times(n, size), size, n) + cache
  {
    var tmp: nat := top;
    cache' := cache;
    var i := 0;
    while i < n
      invariant i <= n && tmp + Times(i, size) == top && Times(n - i, size) <= tmp
      invariant cache' == Carved(tmp, size, i) + cache
    {
      assert Times(n - i, size) == Times(n - i - 1, size) + size;
      assert Times(i + 1, size) == Times(i, size) + size;
      tmp := tmp - size;
      cache' := [tmp] + cache';
      i := i + 1;
    }
  }

  /** The allocator: what init fixes is `cfg`, the rest the methods update in
      place. */
  class SlabAllocator {
    const cfg: Config
    var cur: nat
    var slabLists: map<nat, seq<Ptr>>
    var cacheLists: map<Key, seq<Ptr>>
    var transferredLists: map<Key, seq<Ptr>>
    var globalFreeBytes: int
    var headers: map<Ptr, Header>

    function State(): Heap
      reads this
    {
      Heap(cur, slabLists, cacheLists, transferredLists, globalFreeBytes, headers)
    }

    /** cur_ stays within the buffer. */
    predicate Valid()
      reads this
    {
      cfg.start <= cur <= cfg.end
    }

    /** An allocator over the `len` bytes at `buf`, with every list empty. */
    constructor (slabId: nat, buf: nat, len: nat, aggressive: bool)
      ensures Valid() && cfg == Config(slabId, aggressive, buf, buf + len)
      ensures State() == Heap(buf, map[], map[], map[], 0, map[])
    {
      cfg := Config(slabId, aggressive, buf, buf + len);
      cur, slabLists, cacheLists, transferredLists := buf, map[], map[], map[];
      globalFreeBytes, headers := 0, map[];
    }

    /** yield(size), with size_t's wrap-around written out. */
    method Yield(size: nat) returns (r: Option<Ptr>)
      requires Valid() && size < U64
      modifies this
      ensures Valid() && (State(), r) == AfterYield(cfg, old(State()), size)
    {
      var rounded := ((((size + U64 - 1) % U64) / ALIGNMENT) + 1) * ALIGNMENT % U64;
      assert (size + U64 - 1) % U64 == (size - 1) % U64;
      if cur + rounded > cfg.end {
        return None;
      }
      r := Some(cur);
      cur := cur + rounded;
    }

    /** free_to_cache_list. */
    method FreeToCacheList(cpu: nat, hdr: Ptr, shift: nat)
      requires Valid()
      modifies this
      ensures Valid() && State() == FreeToCache(cfg, old(State()), cpu, hdr, shift)
    {
      var key := Key(cpu, shift);
      var max := MaxCacheEntries(cfg.aggressive, shift);
      var list := [hdr] + Get(cacheLists, key);
      ghost var k := CacheSpill(|list|, max);
      if |list| > max {
        assert k == |list| - max / 2;
        var slab, bytes;
        list, slab, bytes := PopDownTo(list, Get(slabLists, shift), globalFreeBytes, SlabSize(shift), max / 2);
        slabLists := slabLists[shift := slab];
        globalFreeBytes := bytes;
      }
      cacheLists := cacheLists[key := list];
    }

    /** free_to_transferred_cache_list: the owner is the header's core. */
    method FreeToTransferredCacheList(hdr: Ptr, shift: nat)
      requires Valid() && hdr in headers
      modifies this
      ensures Valid() && State() == FreeToTransferred(cfg, old(State()), old(headers[hdr].coreId), hdr, shift)
    {
      var key := Key(headers[hdr].coreId, shift);
      var max := MaxCacheEntries(cfg.aggressive, shift);
      var list := [hdr] + Get(transferredLists, key);
      var total := |list| + |Get(cacheLists, key)|;
      ghost var n := TransferSpill(|list|, |Get(cacheLists, key)|, max);
      if total > max {
        assert n == Min(|list|, total - max / 2);
        var slab, bytes;
        list, slab, bytes := TurnIn(list, Get(slabLists, shift), globalFreeBytes, SlabSize(shift),
                                    Min(|list|, total - max / 2));
        slabLists := slabLists[shift := slab];
        globalFreeBytes := bytes;
      }
      transferredLists := transferredLists[key := list];
    }

    /** drain_transferred_cache. */
    method DrainTransferredCache(cpu: nat, shift: nat)
      requires Valid()
      modifies this
      ensures Valid() && State() == DrainTransferred(cfg, old(State()), cpu, shift)
    {
      var key := Key(cpu, shift);
      while |Get(transferredLists, key)| > 0
        invariant Valid()
        invariant DrainTransferred(cfg, State(), cpu, shift) == DrainTransferred(cfg, old(State()), cpu, shift)
        decreases |Get(transferredLists, key)|
      {
        var list := Get(transferredLists, key);
        transferredLists := transferredLists[key := list[1..]];
        FreeToCacheList(cpu, list[0], shift);
      }
    }
  
    /** The refill of an empty cache in __allocate. */
    method RefillCache(cpu: nat, shift: nat)
      requires Valid() && Get(cacheLists, Key(cpu, shift)) == []
      modifies this
      ensures Valid() && State() == Refill(cfg, old(State()), cpu, shift)
    {
      var key := Key(cpu, shift);
      var size := SlabSize(shift);
      var max := MaxCacheEntries(cfg.aggressive, shift);
      if max < 1 {
        max := 1;
      }
      ghost var h := State();
      var slab, list, bytes := TakeFromSlab(Get(slabLists, shift), globalFreeBytes, size, max);
      assert max == RefillBound(cfg, shift);
      var remaining := max - |list|;
      var cur' := cur;
      if remaining > 0 {
        cur', list := CarveFrom(cfg, cur, shift, remaining, list);
      } else {
        assert Carved(cur, size, CarveCount(cfg, cur, shift, 0)) + list == list;
      }
      RefillIs(cfg, h, cpu, shift, cur', slab, list, bytes);
      cur := cur';
      slabLists := slabLists[shift := slab];
      cacheLists := cacheLists[key := list];
      globalFreeBytes := bytes;
    }

    /** __allocate(size) on core `cpu`. */
    method Allocate(size: nat, cpu: nat) returns (r: Option<Ptr>)
      requires Valid()
      modifies this
      ensures Valid() && (State(), r) == AfterAllocate(cfg, old(State()), size, cpu)
    {
      var shift := SlabShift(size);
      if shift >= MAX_SHIFT {
        return None;
      }
      DrainTransferredCache(cpu, shift);
      var key := Key(cpu, shift);
      var ret: Option<Ptr> := None;
      var list := Get(cacheLists, key);
      if |list| > 0 {
        ret := Some(list[0]);
        cacheLists := cacheLists[key := list[1..]];
      } else {
        RefillCache(cpu, shift);
        list := Get(cacheLists, key);
        if |list| > 0 {
          ret := Some(list[0]);
          cacheLists := cacheLists[key := list[1..]];
        }
      }
      if ret.None? {
        return None;
      }
      headers := headers[ret.value := Header(size, cpu, cfg.slabId)];
      r := Some(ret.value + HEADER_SIZE);
    }

    /** __do_free(hdr, shift) on core `cpu`. */
    method DoFree(cpu: nat, hdr: Ptr, shift: nat)
      requires Valid() && hdr in headers
      modifies this
      ensures Valid() && State() == AfterDoFree(cfg, old(State()), cpu, hdr, shift)
    {
      DrainTransferredCache(cpu, shift);
      if cpu == headers[hdr].coreId {
        FreeToCacheList(cpu, hdr, shift);
      } else {
        FreeToTransferredCacheList(hdr, shift);
      }
    }

    /** __free(ptr) on core `cpu`. */
    method Free(ptr: Ptr, cpu: nat)
      requires Valid() && ptr - HEADER_SIZE in headers
      modifies this
      ensures Valid() && State() == AfterFree(cfg, old(State()), ptr, cpu)
    {
      var hdr := ptr - HEADER_SIZE;
      var shift := SlabShift(headers[hdr].size);
      if shift < MAX_SHIFT {
        DoFree(cpu, hdr, shift);
      }
    }

    /** reallocate(ptr, newSize) on core `cpu`; the copy of the payload is
        not modelled. */
    method Reallocate(ptr: Ptr, newSize: nat, cpu: nat) returns (r: Option<Ptr>)
      requires Valid() && ptr - HEADER_SIZE in headers
      requires SlabShift(headers[ptr - HEADER_SIZE].size) < MAX_SHIFT
      modifies this
      ensures Valid() && (State(), r) == AfterReallocate(cfg, old(State()), ptr, newSize, cpu)
    {
      var hdr := ptr - HEADER_SIZE;
      var shift := SlabShift(headers[hdr].size);
      r := Allocate(newSize, cpu);
      if r.None? {
        return;
      }
      DoFree(cpu, hdr, shift);
    }
  }

  /** The state the bump allocator is in while one core allocates one class
      on its own: the cache holds a run of slots carved upward from `b`,
      which ends at cur_, and nothing sits on the slab or transferred list. */
  ghost predicate Bumping(h: Heap, cpu: nat, shift: nat, b: nat)
  {
    var c := Get(h.cache, Key(cpu, shift));
    && Get(h.transferred, Key(cpu, shift)) == []
    && Get(h.slab, shift) == []
    && c == Carved(b, SlabSize(shift), |c|)
    && h.cur == b + Times(|c|, SlabSize(shift))
  }

  /** One allocation in that state hands out the slot at `b` (past its
      header) exactly when a whole slot of the class fits below end_, and
      leaves the run starting one slot higher; otherwise it fails and cur_
      stays. */
  lemma AllocateBump(cfg: Config, h: Heap, size: nat, cpu: nat, b: nat)
    requires h.cur <= cfg.end && SlabShift(size) < MAX_SHIFT
    requires Bumping(h, cpu, SlabShift(size), b)
    ensures var (h', r) := AfterAllocate(cfg, h, size, cpu);
      && (r.Some? <==> b + SlabSize(SlabShift(size)) <= cfg.end)
      && (r.Some? ==> r.value == b + HEADER_SIZE && Bumping(h', cpu, SlabShift(size), b + SlabSize(SlabShift(size))))
      && (r.None? ==> h'.cur == h.cur && Bumping(h', cpu, SlabShift(size), b))
  {
    var shift := SlabShift(size);
    assert DrainTransferred(cfg, h, cpu, shift) == h;
    if Get(h.cache, Key(cpu, shift)) != [] {
      BumpFromCache(cfg, h, size, cpu, b);
    } else {
      BumpFromRefill(cfg, h, size, cpu, b);
    }
  }

  /** The cached case: the run's lowest slot is on top. */
  lemma BumpFromCache(cfg: Config, h: Heap, size: nat, cpu: nat, b: nat)
    requires h.cur <= cfg.end && SlabShift(size) < MAX_SHIFT
    requires Bumping(h, cpu, SlabShift(size), b) && Get(h.cache, Key(cpu, SlabShift(size))) != []
    ensures var (h', r) := PopCache(h, Key(cpu, SlabShift(size)));
      && b + SlabSize(SlabShift(size)) <= cfg.end
      && r == Some(b) && Bumping(h', cpu, SlabShift(size), b + SlabSize(SlabShift(size)))
  {
    var shift := SlabShift(size);
    var sz := SlabSize(shift);
    var c := Get(h.cache, Key(cpu, shift));
    assert c == [b] + Carved(b + sz, sz, |c| - 1);
    assert Times(|c|, sz) == Times(|c| - 1, sz) + sz;
  }

  /** The empty case: the refill carves up to the bound from cur_ = b, or
      nothing when no whole slot is left. */
  lemma BumpFromRefill(cfg: Config, h: Heap, size: nat, cpu: nat, b: nat)
    requires h.cur <= cfg.end && SlabShift(size) < MAX_SHIFT
    requires Bumping(h, cpu, SlabShift(size), b) && Get(h.cache, Key(cpu, SlabShift(size))) == []
    ensures var (h', r) := PopCache(Refill(cfg, h, cpu, SlabShift(size)), Key(cpu, SlabShift(size)));
      && (r.Some? <==> b + SlabSize(SlabShift(size)) <= cfg.end)
      && (r.Some? ==> r.value == b && Bumping(h', cpu, SlabShift(size), b + SlabSize(SlabShift(size))))
      && (r.None? ==> h'.cur == h.cur && Bumping(h', cpu, SlabShift(size), b))
  {
    var shift := SlabShift(size);
    var sz := SlabSize(shift);
    var key := Key(cpu, shift);
    var h1 := Refill(cfg, h, cpu, shift);
    var n := CarveCount(cfg, h.cur, shift, RefillBound(cfg, shift));
    assert Get(h1.cache, key) == Carved(b, sz, n);
    assert h1.cur == b + Times(n, sz);
    if n > 0 {
      assert Times(n, sz) == Times(n - 1, sz) + sz;
    } else {
      var q := (cfg.end - h.cur) / sz;
      assert q == 0;
    }
  }

  /** The state a new allocator starts in. */
  function Fresh(cfg: Config): Heap
  {
    Heap(cfg.start, map[], map[], map[], 0, map[])
  }

  /** `n` allocations of `size` on core `cpu`, one after another. */
  ghost function AllocateRepeat(cfg: Config, h: Heap, size: nat, cpu: nat, n: nat): (r: Heap)
    requires h.cur <= cfg.end
    ensures r.cur <= cfg.end
    decreases n
  {
    if n == 0 then h else AfterAllocate(cfg, AllocateRepeat(cfg, h, size, cpu, n - 1), size, cpu).0
  }

  /** After i allocations from a fresh allocator, all of which fit, the run
      of carved slots starts i slots above the start of the buffer. */
  lemma {:induction false} FreshRun(cfg: Config, size: nat, cpu: nat, i: nat)
    requires cfg.start <= cfg.end && SlabShift(size) < MAX_SHIFT
    requires cfg.start + Times(i, SlabSize(SlabShift(size))) <= cfg.end
    ensures Bumping(AllocateRepeat(cfg, Fresh(cfg), size, cpu, i), cpu, SlabShift(size),
                    cfg.start + Times(i, SlabSize(SlabShift(size))))
    decreases i
  {
    if i > 0 {
      var sz := SlabSize(SlabShift(size));
      assert Times(i, sz) == Times(i - 1, sz) + sz;
      FreshRun(cfg, size, cpu, i - 1);
      BumpNext(cfg, AllocateRepeat(cfg, Fresh(cfg), size, cpu, i - 1), size, cpu, cfg.start + Times(i - 1, sz));
    }
  }

  /** An allocation that fits in the bumping state leaves it bumping one slot
      higher. */
  lemma BumpNext(cfg: Config, h: Heap, size: nat, cpu: nat, b: nat)
    requires h.cur <= cfg.end && SlabShift(size) < MAX_SHIFT
    requires Bumping(h, cpu, SlabShift(size), b) && b + SlabSize(SlabShift(size)) <= cfg.end
    ensures Bumping(AfterAllocate(cfg, h, size, cpu).0, cpu, SlabShift(size), b + SlabSize(SlabShift(size)))
  {
    AllocateBump(cfg, h, size, cpu, b);
  }

  /** The run test_slab.cpp makes: on a fresh allocator, allocation i
      (counting from 0) returns the slot i class sizes into the buffer, past
      its header, as long as that slot fits, and null once it does not. */
  lemma AllocateSequence(cfg: Config, size: nat, cpu: nat, i: nat)
    requires cfg.start <= cfg.end && SlabShift(size) < MAX_SHIFT
    requires cfg.start + i * SlabSize(SlabShift(size)) <= cfg.end
    ensures var sz := SlabSize(SlabShift(size));
      AfterAllocate(cfg, AllocateRepeat(cfg, Fresh(cfg), size, cpu, i), size, cpu).1
      == if cfg.start + i * sz + sz <= cfg.end then Some(cfg.start + i * sz + HEADER_SIZE) else None
  {
    TimesMul(i, SlabSize(SlabShift(size)));
    AllocateNth(cfg, size, cpu, i);
  }

  /** AllocateSequence with the offset as repeated addition. */
  lemma AllocateNth(cfg: Config, size: nat, cpu: nat, i: nat)
    requires cfg.start <= cfg.end && SlabShift(size) < MAX_SHIFT
    requires cfg.start + Times(i, SlabSize(SlabShift(size))) <= cfg.end
    ensures var sz := SlabSize(SlabShift(size));
      var b := cfg.start + Times(i, sz);
      AfterAllocate(cfg, AllocateRepeat(cfg, Fresh(cfg), size, cpu, i), size, cpu).1
      == if b + sz <= cfg.end then Some(b + HEADER_SIZE) else None
  {
    FreshRun(cfg, size, cpu, i);
    BumpResult(cfg, AllocateRepeat(cfg, Fresh(cfg), size, cpu, i), size, cpu,
               cfg.start + Times(i, SlabSize(SlabShift(size))));
  }

  /** What one allocation returns in the bumping state. */
  lemma BumpResult(cfg: Config, h: Heap, size: nat, cpu: nat, b: nat)
    requires h.cur <= cfg.end && SlabShift(size) < MAX_SHIFT
    requires Bumping(h, cpu, SlabShift(size), b)
    ensures AfterAllocate(cfg, h, size, cpu).1
      == if b + SlabSize(SlabShift(size)) <= cfg.end then Some(b + HEADER_SIZE) else None
  {
    AllocateBump(cfg, h, size, cpu, b);
  }

  /** test_slab.cpp's last step: a slot freed on the core that allocated it
      comes back from the next allocation of its class there, provided no
      transferred slot is waiting and the cache had room for it or was
      empty. */
  lemma FreeThenAllocate(cfg: Config, h: Heap, ptr: Ptr, cpu: nat, size: nat)
    requires h.cur <= cfg.end && ptr - HEADER_SIZE in h.headers
    requires h.headers[ptr - HEADER_SIZE].coreId == cpu
    requires SlabShift(size) < MAX_SHIFT && SlabShift(h.headers[ptr - HEADER_SIZE].size) == SlabShift(size)
    requires Get(h.transferred, Key(cpu, SlabShift(size))) == []
    requires Get(h.cache, Key(cpu, SlabShift(size))) == []
      || |Get(h.cache, Key(cpu, SlabShift(size)))| < MaxCacheEntries(cfg.aggressive, SlabShift(size))
    ensures AfterAllocate(cfg, AfterFree(cfg, h, ptr, cpu), size, cpu).1 == Some(ptr)
  {
    var shift := SlabShift(size);
    var key := Key(cpu, shift);
    var hdr := ptr - HEADER_SIZE;
    assert DrainTransferred(cfg, h, cpu, shift) == h;
    var h1 := FreeToCache(cfg, h, cpu, hdr, shift);
    assert AfterFree(cfg, h, ptr, cpu) == h1;
    if Get(h1.cache, key) == [] {
      FreeSpillsAll(cfg, h, cpu, hdr, shift);
      RefillPopsSlabTop(cfg, h1, size, cpu);
    } else {
      assert Get(h1.cache, key)[0] == hdr;
      PopsCacheTop(cfg, h1, size, cpu);
    }
  }

  /** A free that leaves the cache empty went to a class whose bound is 0: the
      freed slot is on top of the slab list. */
  lemma FreeSpillsAll(cfg: Config, h: Heap, cpu: nat, hdr: Ptr, shift: nat)
    requires Get(h.cache, Key(cpu, shift)) == []
      || |Get(h.cache, Key(cpu, shift))| < MaxCacheEntries(cfg.aggressive, shift)
    requires Get(FreeToCache(cfg, h, cpu, hdr, shift).cache, Key(cpu, shift)) == []
    ensures RefillBound(cfg, shift) == 1
    ensures var s := Get(FreeToCache(cfg, h, cpu, hdr, shift).slab, shift); s != [] && s[0] == hdr
  {
    var c := [hdr] + Get(h.cache, Key(cpu, shift));
    assert Reverse(c[..1]) == [hdr];
  }

  /** With nothing transferred and the cache holding slots, allocate hands out
      the cache's top slot. */
  lemma PopsCacheTop(cfg: Config, h: Heap, size: nat, cpu: nat)
    requires h.cur <= cfg.end && SlabShift(size) < MAX_SHIFT
    requires Get(h.transferred, Key(cpu, SlabShift(size))) == []
    requires Get(h.cache, Key(cpu, SlabShift(size))) != []
    ensures AfterAllocate(cfg, h, size, cpu).1 == Some(Get(h.cache, Key(cpu, SlabShift(size)))[0] + HEADER_SIZE)
  {
    assert DrainTransferred(cfg, h, cpu, SlabShift(size)) == h;
  }

  /** With nothing transferred, the cache empty and a bound of 1, allocate
      refills the one slot on top of the slab list and hands it out. */
  lemma RefillPopsSlabTop(cfg: Config, h: Heap, size: nat, cpu: nat)
    requires h.cur <= cfg.end && SlabShift(size) < MAX_SHIFT
    requires Get(h.transferred, Key(cpu, SlabShift(size))) == []
    requires Get(h.cache, Key(cpu, SlabShift(size))) == []
    requires RefillBound(cfg, SlabShift(size)) == 1 && Get(h.slab, SlabShift(size)) != []
    ensures AfterAllocate(cfg, h, size, cpu).1 == Some(Get(h.slab, SlabShift(size))[0] + HEADER_SIZE)
  {
    var shift := SlabShift(size);
    var s := Get(h.slab, shift);
    assert DrainTransferred(cfg, h, cpu, shift) == h;
    assert CarveCount(cfg, h.cur, shift, 0) == 0;
    assert Reverse(s[..1]) == [s[0]];
    assert Get(Refill(cfg, h, cpu, shift).cache, Key(cpu, shift)) == [s[0]];
  }

  lemma DivBoundAbove(a: nat, b: nat, q: nat)
    requires b > 0 && q == a / b
    ensures a < b * q + b
  {
  }

  /** What refill does to an empty cache: it moves k = min(slab list, bound)
      slots off the slab list, which come out reversed under the carved
      ones, taking their bytes off global_free_bytes_, and the cache ends up
      at most at the bound. */
  lemma RefillShape(cfg: Config, h: Heap, cpu: nat, shift: nat)
    requires h.cur <= cfg.end && Get(h.cache, Key(cpu, shift)) == []
    ensures var r := Refill(cfg, h, cpu, shift);
      var bound := RefillBound(cfg, shift);
      var s := Get(h.slab, shift);
      var c := Get(r.cache, Key(cpu, shift));
      var k := if |s| < bound then |s| else bound;
      && k <= |c| <= bound
      && Get(r.slab, shift) == s[k..] && c[|c| - k..] == Reverse(s[..k])
      && r.freeBytes == h.freeBytes - k * SlabSize(shift)
  {
    var sz := SlabSize(shift);
    var s := Get(h.slab, shift);
    var bound := RefillBound(cfg, shift);
    var k := Min(|s|, bound);
    var n := CarveCount(cfg, h.cur, shift, bound - k);
    var list := Carved(h.cur, sz, n) + Reverse(s[..k]);
    RefillIs(cfg, h, cpu, shift, h.cur + Times(n, sz), s[k..], list, h.freeBytes - Times(k, sz));
    assert Get(Refill(cfg, h, cpu, shift).cache, Key(cpu, shift)) == list;
    SuffixOf(Carved(h.cur, sz, n), Reverse(s[..k]));
    TimesMul(k, sz);
  }

  /** The last |b| elements of a + b are b. */
  lemma SuffixOf<T>(a: seq<T>, b: seq<T>)
    ensures (a + b)[|a + b| - |b|..] == b
  {
    assert (a + b)[|a|..] == b;
  }

  /** The carving half of refill: n = min(bound - k, (end_ - cur_) / slab
      size) slots go on top, upward from cur_, and cur_ moves past them. The
      cache stays short of the bound only when the slab list ran dry and no
      whole slot is left. */
  lemma RefillCarves(cfg: Config, h: Heap, cpu: nat, shift: nat)
    requires h.cur <= cfg.end && Get(h.cache, Key(cpu, shift)) == []
    ensures var r := Refill(cfg, h, cpu, shift);
      var sz := SlabSize(shift);
      var bound := RefillBound(cfg, shift);
      var s := Get(h.slab, shift);
      var c := Get(r.cache, Key(cpu, shift));
      var k := if |s| < bound then |s| else bound;
      var n := if bound - k < (cfg.end - h.cur) / sz then bound - k else (cfg.end - h.cur) / sz;
      && |c| == k + n && r.cur == h.cur + n * sz
      && (forall i :: 0 <= i < n ==> c[i] == h.cur + i * sz)
      && (|c| < bound ==> k == |s| && cfg.end < h.cur + n * sz + sz)
  {
    var sz := SlabSize(shift);
    var bound := RefillBound(cfg, shift);
    var s := Get(h.slab, shift);
    var k := Min(|s|, bound);
    var n := CarveCount(cfg, h.cur, shift, bound - k);
    var list := Carved(h.cur, sz, n) + Reverse(s[..k]);
    RefillIs(cfg, h, cpu, shift, h.cur + Times(n, sz), s[k..], list, h.freeBytes - Times(k, sz));
    var r := Refill(cfg, h, cpu, shift);
    var c := Get(r.cache, Key(cpu, shift));
    assert c == list;
    CarvedCache(cfg, h.cur, shift, bound, |s|, k, c, Reverse(s[..k]), r.cur);
  }

  /** The arithmetic half of RefillCarves, on the values alone. */
  lemma CarvedCache(cfg: Config, cur: nat, shift: nat, bound: nat, slabLen: nat, k: nat, c: seq<Ptr>, rest: seq<Ptr>, cur': nat)
    requires cur <= cfg.end && k == (if slabLen < bound then slabLen else bound) && |rest| == k
    requires var n := CarveCount(cfg, cur, shift, bound - k);
      c == Carved(cur, SlabSize(shift), n) + rest && cur' == cur + Times(n, SlabSize(shift))
    ensures var sz := SlabSize(shift);
      var n := if bound - k < (cfg.end - cur) / sz then bound - k else (cfg.end - cur) / sz;
      && |c| == k + n && cur' == cur + n * sz
      && (forall i :: 0 <= i < n ==> c[i] == cur + i * sz)
      && (|c| < bound ==> k == slabLen && cfg.end < cur + n * sz + sz)
  {
    var sz := SlabSize(shift);
    var n := CarveCount(cfg, cur, shift, bound - k);
    CarveCountIs(cfg, cur, shift, bound - k);
    CarvedPrefix(cur, sz, n, rest);
  }

  /** The carved slots, with anything after them, start upward from base. */
  lemma CarvedPrefix(base: nat, size: nat, n: nat, rest: seq<Ptr>)
    ensures |Carved(base, size, n) + rest| == n + |rest|
    ensures forall i :: 0 <= i < n ==> (Carved(base, size, n) + rest)[i] == base + i * size
  {
    forall i | 0 <= i < n
      ensures (Carved(base, size, n) + rest)[i] == base + i * size
    {
      CarvedAt(base, size, n, i);
    }
  }

  /** CarveCount is min(want, (end_ - cur_) / slab size), and it falls short
      of `want` only when no further whole slot fits. */
  lemma CarveCountIs(cfg: Config, cur: nat, shift: nat, want: nat)
    requires cur <= cfg.end
    ensures var sz := SlabSize(shift);
      var n := CarveCount(cfg, cur, shift, want);
      && n == (if want < (cfg.end - cur) / sz then want else (cfg.end - cur) / sz)
      && cur + Times(n, sz) == cur + n * sz
      && (n < want ==> cfg.end < cur + n * sz + sz)
  {
    var sz := SlabSize(shift);
    var n := CarveCount(cfg, cur, shift, want);
    TimesMul(n, sz);
    DivBoundAbove(cfg.end - cur, sz, (cfg.end - cur) / sz);
  }
}
