/** Nu's Controller: the bookkeeping of logical processes (lpids), the stack
    cluster each node gets, the proclet heap segments kept in buckets by
    size, the proclet id -> node map, and the round-robin node choice. Every
    method runs under the controller's one mutex, so each is one step here. */
module Controllers {
  import opened Bytes
  import opened Wrappers

  const MIN_HEAP_SIZE: nat := 0x200_0000            // kMinProcletHeapSize, 1 << 25
  const MIN_HEAP_SHIFT: nat := 25
  const MAX_HEAP_SIZE: nat := 0x10_0000_0000        // kMaxProcletHeapSize, 1 << 36
  const MIN_HEAP_VADDR: nat := 0x3000_0000_0000
  const MAX_HEAP_VADDR: nat := 0x4000_0000_0000
  const STACK_CLUSTER_SIZE: nat := 0x8000_0000      // kStackClusterSize, 1 << 31
  const MIN_STACK_VADDR: nat := 0x4000_0000_0000    // kMinStackClusterVAddr = kMaxProcletHeapVAddr
  const MAX_STACK_VADDR: nat := 0x6000_0000_0000
  /** bsr(1 << 36) - bsr(1 << 25) + 1 buckets. */
  const NUM_BUCKETS: nat := 12
  /** numeric_limits<lpid_t>::max() for the 16-bit lpid_t. */
  const MAX_LPID: nat := 0xFFFF

  function Pow2(k: nat): (p: nat)
    ensures p >= 1
  {
    if k == 0 then 1 else 2 * Pow2(k - 1)
  }

  /** bsr_64: the index of the highest set bit. */
  function Bsr(a: nat): nat
    requires a > 0
  {
    if a == 1 then 0 else 1 + Bsr(a / 2)
  }

  /** The highest set bit of `a` is bit k exactly when 2^k <= a < 2^(k+1). */
  lemma {:induction false} BsrBounds(a: nat)
    requires a > 0
    ensures Pow2(Bsr(a)) <= a < Pow2(Bsr(a) + 1)
  {
    if a > 1 {
      BsrBounds(a / 2);
    }
  }

  lemma {:induction false} Pow2Mono(i: nat, j: nat)
    requires i <= j
    ensures Pow2(i) <= Pow2(j)
    decreases j
  {
    if i < j {
      Pow2Mono(i, j - 1);
    }
  }

  lemma Pow2Min()
    ensures Pow2(MIN_HEAP_SHIFT) == MIN_HEAP_SIZE
  {
    assert Pow2(10) == 1024;
    assert Pow2(20) == 1024 * 1024;
  }

  lemma {:induction false} BsrPow2(k: nat)
    ensures Bsr(Pow2(k)) == k
  {
    if k > 0 {
      BsrPow2(k - 1);
      assert Pow2(k) / 2 == Pow2(k - 1);
    }
  }

  lemma {:induction false} BsrMono(a: nat, b: nat)
    requires 0 < a <= b
    ensures Bsr(a) <= Bsr(b)
    decreases b
  {
    if a > 1 {
      BsrMono(a / 2, b / 2);
    }
  }

  /** get_proclet_segment_bucket_id: bsr(capacity) - bsr(kMinProcletHeapSize);
      a capacity below the minimum is a BUG. */
  function BucketId(capacity: nat): nat
    requires capacity >= MIN_HEAP_SIZE
  {
    Pow2Min();
    BsrPow2(MIN_HEAP_SHIFT);
    BsrMono(MIN_HEAP_SIZE, capacity);
    Bsr(capacity) - MIN_HEAP_SHIFT
  }

  /** Bucket b holds the capacities in [2^(25+b), 2^(26+b)). */
  lemma BucketIdBounds(capacity: nat)
    requires capacity >= MIN_HEAP_SIZE
    ensures Pow2(MIN_HEAP_SHIFT + BucketId(capacity)) <= capacity < Pow2(MIN_HEAP_SHIFT + BucketId(capacity) + 1)
  {
    BsrBounds(capacity);
    assert MIN_HEAP_SHIFT + BucketId(capacity) == Bsr(capacity);
  }

  /** The MD5 of a node's binary; md5.hpp is not part of this model. */
  datatype Md5 = Md5(digest: seq<byte>)

  /** The value lpid_to_md5_[lpid] reads for an lpid it does not hold. */
  const DEFAULT_MD5: Md5 := Md5([0, 0, 0, 0, 0, 0, 0, 0, 0, 0, 0, 0, 0, 0, 0, 0])

  datatype Range = Range(start: nat, end: nat)

  datatype Segment = Segment(range: Range, prevHost: nat)

  /** A node's status; its free_resource (floating point) is left out. */
  datatype NodeStatus = NodeStatus(isol: bool, acquired: bool)

  /** node_statuses is a std::map, so it is modelled as its entries in key
      order; rr_iter is an index into them, |nodes| being end(). */
  datatype LPInfo = LPInfo(nodes: seq<(nat, NodeStatus)>, rr: nat, destroying: bool)

  const EMPTY_INFO: LPInfo := LPInfo([], 0, false)

  /** The controller's state, the stacks listed top first. */
  datatype Ctrl = Ctrl(
    buckets: seq<seq<Segment>>,
    stacks: seq<Range>,
    freeLpids: set<nat>,
    md5s: map<nat, Md5>,
    infos: map<nat, LPInfo>,
    procletIps: map<nat, nat>)

  predicate Sorted(nodes: seq<(nat, NodeStatus)>)
  {
    forall i, j :: 0 <= i < j < |nodes| ==> nodes[i].0 < nodes[j].0
  }

  /** std::map::find on the node map. */
  function IndexOf(nodes: seq<(nat, NodeStatus)>, ip: nat): (r: Option<nat>)
    ensures r.Some? ==> r.value < |nodes| && nodes[r.value].0 == ip
    ensures r.None? ==> forall k :: 0 <= k < |nodes| ==> nodes[k].0 != ip
    decreases |nodes|
  {
    if nodes == [] then None
    else if nodes[0].0 == ip then Some(0)
    else match IndexOf(nodes[1..], ip)
      case None => None
      case Some(k) => Some(k + 1)
  }

  /** Where a new key goes: after every smaller key. */
  function Position(nodes: seq<(nat, NodeStatus)>, ip: nat): (p: nat)
    ensures p <= |nodes|
    ensures Sorted(nodes) ==>
      (forall k :: 0 <= k < p ==> nodes[k].0 < ip) && (forall k :: p <= k < |nodes| ==> nodes[k].0 >= ip)
    decreases |nodes|
  {
    if nodes == [] || ip <= nodes[0].0 then 0 else 1 + Position(nodes[1..], ip)
  }

  /** try_emplace(ip, isol) of a new key: the entry goes in key order, and
      rr_iter keeps pointing at the entry (or end) it pointed at. */
  function AddNode(info: LPInfo, ip: nat, isol: bool): LPInfo
  {
    var p := Position(info.nodes, ip);
    info.(nodes := info.nodes[..p] + [(ip, NodeStatus(isol, false))] + info.nodes[p..],
          rr := if p <= info.rr then info.rr + 1 else info.rr)
  }

  predicate InfoOk(info: LPInfo)
  {
    Sorted(info.nodes) && info.rr <= |info.nodes|
  }

  predicate SegmentsOk(segs: seq<Segment>)
  {
    forall j :: 0 <= j < |segs| ==> segs[j].range.start < segs[j].range.end
  }

  /** What the controller keeps true: 12 buckets of non-empty segments, node
      maps in key order with rr_iter inside them, lpid 0 never free, and a
      free lpid has no nodes. */
  ghost predicate Valid(st: Ctrl)
  {
    && |st.buckets| == NUM_BUCKETS
    && (forall b :: 0 <= b < |st.buckets| ==> SegmentsOk(st.buckets[b]))
    && (forall l :: l in st.infos ==> InfoOk(st.infos[l]))
    && 0 !in st.freeLpids
    && (forall l :: l in st.freeLpids && l in st.infos ==> st.infos[l].nodes == [])
  }

  lemma {:induction false} AddNodeOk(info: LPInfo, ip: nat, isol: bool)
    requires InfoOk(info) && IndexOf(info.nodes, ip).None?
    ensures InfoOk(AddNode(info, ip, isol))
    ensures IndexOf(AddNode(info, ip, isol).nodes, ip).Some?
    ensures |AddNode(info, ip, isol).nodes| == |info.nodes| + 1
  {
    var p := Position(info.nodes, ip);
    var n := AddNode(info, ip, isol).nodes;
    assert n[p] == (ip, NodeStatus(isol, false));
    forall i, j | 0 <= i < j < |n|
      ensures n[i].0 < n[j].0
    {
      if j < p {
        assert n[i] == info.nodes[i] && n[j] == info.nodes[j];
      } else if j == p {
        assert n[i] == info.nodes[i];
      } else if i < p {
        assert n[i] == info.nodes[i] && n[j] == info.nodes[j - 1];
        assert info.nodes[j - 1].0 != ip;
      } else if i == p {
        assert n[j] == info.nodes[j - 1];
        assert info.nodes[j - 1].0 != ip;
      } else {
        assert n[i] == info.nodes[i - 1] && n[j] == info.nodes[j - 1];
      }
    }
  }

  // ---------------------------------------------------------------------
  // The initial state.

  /** The highest bucket as the constructor leaves it: the segments of
      kMaxProcletHeapSize from `s` up to kMaxProcletHeapVAddr, pushed in
      address order, so the highest is on top. */
  function HeapSlots(s: nat): seq<Segment>
    decreases MAX_HEAP_VADDR - s
  {
    if s + MAX_HEAP_SIZE > MAX_HEAP_VADDR then []
    else HeapSlots(s + MAX_HEAP_SIZE) + [Segment(Range(s, s + MAX_HEAP_SIZE), 0)]
  }

  /** The stack clusters the constructor pushes, the same way. */
  function StackSlots(s: nat): seq<Range>
    decreases MAX_STACK_VADDR - s
  {
    if s + STACK_CLUSTER_SIZE > MAX_STACK_VADDR then []
    else StackSlots(s + STACK_CLUSTER_SIZE) + [Range(s, s + STACK_CLUSTER_SIZE)]
  }

  function Initial(): Ctrl
  {
    Ctrl(seq(NUM_BUCKETS, b => if b == NUM_BUCKETS - 1 then HeapSlots(MIN_HEAP_VADDR) else []),
         StackSlots(MIN_STACK_VADDR), LpidsBelow(MAX_LPID), map[], map[], map[])
  }

  /** The lpids 1 .. n - 1, as the constructor's loop inserts them. */
  function LpidsBelow(n: nat): (s: set<nat>)
    ensures forall l :: l in s <==> 1 <= l < n
  {
    if n <= 1 then {} else LpidsBelow(n - 1) + {n - 1}
  }

  /** The slots from `s` on are (MAX - s) / size in number, each one size
      long, host 0, inside [s, MAX). */
  lemma {:induction false} HeapSlotsShape(s: nat)
    requires s <= MAX_HEAP_VADDR && (MAX_HEAP_VADDR - s) % MAX_HEAP_SIZE == 0
    ensures |HeapSlots(s)| == (MAX_HEAP_VADDR - s) / MAX_HEAP_SIZE
    ensures forall j :: 0 <= j < |HeapSlots(s)| ==>
      var g := HeapSlots(s)[j];
      g.prevHost == 0 && g.range.end == g.range.start + MAX_HEAP_SIZE && s <= g.range.start && g.range.end <= MAX_HEAP_VADDR
    decreases MAX_HEAP_VADDR - s
  {
    if s + MAX_HEAP_SIZE <= MAX_HEAP_VADDR {
      HeapSlotsShape(s + MAX_HEAP_SIZE);
    }
  }

  lemma {:induction false} StackSlotsShape(s: nat)
    requires s <= MAX_STACK_VADDR && (MAX_STACK_VADDR - s) % STACK_CLUSTER_SIZE == 0
    ensures |StackSlots(s)| == (MAX_STACK_VADDR - s) / STACK_CLUSTER_SIZE
    ensures forall j :: 0 <= j < |StackSlots(s)| ==>
      var r := StackSlots(s)[j];
      r.end == r.start + STACK_CLUSTER_SIZE && s <= r.start && r.end <= MAX_STACK_VADDR
    decreases MAX_STACK_VADDR - s
  {
    if s + STACK_CLUSTER_SIZE <= MAX_STACK_VADDR {
      StackSlotsShape(s + STACK_CLUSTER_SIZE);
    }
  }

  /** The controller starts with lpids 1..65534 free, 256 heap segments of
      2^36 bytes in the highest bucket and 16384 stack clusters of 2^31
      bytes, and it is Valid. */
  lemma InitialShape()
    ensures Valid(Initial())
    ensures |Initial().buckets[NUM_BUCKETS - 1]| == 256 && |Initial().stacks| == 16384
    ensures forall l :: l in Initial().freeLpids <==> 1 <= l < MAX_LPID
  {
    HeapSlotsShape(MIN_HEAP_VADDR);
    StackSlotsShape(MIN_STACK_VADDR);
  }

  // ---------------------------------------------------------------------
  // register_node.

  predicate IsMin(s: set<nat>, m: nat)
  {
    m in s && forall x :: x in s ==> m <= x
  }

  /** std::set::begin: the smallest element. */
  ghost function SetMin(s: set<nat>): (m: nat)
    requires s != {}
    ensures IsMin(s, m)
  {
    MinExists(s);
    var m :| IsMin(s, m); m
  }

  lemma {:induction false} MinExists(s: set<nat>)
    requires s != {}
    ensures exists m :: IsMin(s, m)
    decreases |s|
  {
    var y :| y in s;
    if s != {y} {
      MinExists(s - {y});
      var m :| IsMin(s - {y}, m);
      var least := if y < m then y else m;
      forall x | x in s
        ensures least <= x
      {
        if x != y {
          assert x in s - {y};
        }
      }
      assert IsMin(s, least);
    } else {
      assert IsMin(s, y);
    }
  }

  /** The lpid half of register_node: a given lpid is refused while its LP is
      being destroyed; a free one is claimed and its md5 recorded; a used
      one must carry the recorded md5 (reading lpid_to_md5_[lpid] records
      the default when there was none). lpid 0 asks for the smallest free
      lpid. The flag says whether the lpid came from the free set. */
  ghost function ChooseLpid(st: Ctrl, lpid: nat, md5: Md5): (r: (Ctrl, Option<(nat, bool)>))
    requires 0 !in st.freeLpids
    ensures r.1.Some? ==> r.1.value.0 != 0 && r.1.value.0 in r.0.md5s && r.0.md5s[r.1.value.0] == md5
    ensures r.1.Some? ==> r.1.value.0 !in r.0.freeLpids
    ensures r.1.Some? && r.1.value.1 ==> r.1.value.0 in st.freeLpids
    ensures r.0.freeLpids <= st.freeLpids && r.0.stacks == st.stacks && r.0.infos == st.infos
  {
    if lpid != 0 then
      if lpid in st.infos && st.infos[lpid].destroying then (st, None)
      else if lpid !in st.freeLpids then
        var m := if lpid in st.md5s then st.md5s[lpid] else DEFAULT_MD5;
        var st1 := st.(md5s := st.md5s[lpid := m]);
        if m != md5 then (st1, None) else (st1, Some((lpid, false)))
      else (st.(freeLpids := st.freeLpids - {lpid}, md5s := st.md5s[lpid := md5]), Some((lpid, true)))
    else if st.freeLpids == {} then (st, None)
    else
      var l := SetMin(st.freeLpids);
      (st.(freeLpids := st.freeLpids - {l}, md5s := st.md5s[l := md5]), Some((l, true)))
  }

  /** register_node's demand: the node must not be registered with the LP
      already (try_emplace failing is a BUG). */
  ghost predicate RegisterOk(st: Ctrl, ip: nat, lpid: nat, md5: Md5)
    requires 0 !in st.freeLpids
  {
    var c := ChooseLpid(st, lpid, md5);
    c.1.Some? && c.0.stacks != [] && c.1.value.0 in c.0.infos ==> IndexOf(c.0.infos[c.1.value.0].nodes, ip).None?
  }

  /** register_node after its lpid is chosen: with no stack cluster left the
      lpid goes back to the free set and the call fails; otherwise the top
      cluster is handed out and the node joins the LP. With `asWritten`
      false only an lpid this call took from the free set goes back. */
  ghost function RegisterWith(st: Ctrl, ip: nat, lpid: nat, md5: Md5, isol: bool, asWritten: bool): (r: (Ctrl, Option<(nat, Range)>))
    requires Valid(st) && RegisterOk(st, ip, lpid, md5)
  {
    var (st1, c) := ChooseLpid(st, lpid, md5);
    if c.None? then (st1, None)
    else
      var (l, taken) := c.value;
      if st1.stacks == [] then
        (st1.(freeLpids := if asWritten || taken then st1.freeLpids + {l} else st1.freeLpids), None)
      else
        var info := if l in st1.infos then st1.infos[l] else EMPTY_INFO;
        (st1.(stacks := st1.stacks[1..], infos := st1.infos[l := AddNode(info, ip, isol)]), Some((l, st1.stacks[0])))
  }

  /** register_node, with the lpid refund corrected (see Findings). */
  ghost function AfterRegister(st: Ctrl, ip: nat, lpid: nat, md5: Md5, isol: bool): (r: (Ctrl, Option<(nat, Range)>))
    requires Valid(st) && RegisterOk(st, ip, lpid, md5)
  {
    RegisterWith(st, ip, lpid, md5, isol, false)
  }

  // ---------------------------------------------------------------------
  // select_node_for_proclet.

  predicate HasActive(nodes: seq<(nat, NodeStatus)>)
  {
    exists k :: 0 <= k < |nodes| && !nodes[k].1.isol
  }

  /** The first node at or after `from` that is not isolated. */
  function FirstActive(nodes: seq<(nat, NodeStatus)>, from: nat): (r: Option<nat>)
    requires from <= |nodes|
    ensures r.Some? ==>
      && from <= r.value < |nodes| && !nodes[r.value].1.isol
      && forall k :: from <= k < r.value ==> nodes[k].1.isol
    ensures r.None? ==> forall k :: from <= k < |nodes| ==> nodes[k].1.isol
    decreases |nodes| - from
  {
    if from == |nodes| then None
    else if !nodes[from].1.isol then Some(from)
    else FirstActive(nodes, from + 1)
  }

  /** The round robin of select_node_for_proclet: from rr_iter (end() wraps
      to the first node), the first node that is not isolated, wrapping
      round once. */
  function RoundRobin(nodes: seq<(nat, NodeStatus)>, rr: nat): (j: nat)
    requires rr <= |nodes| && HasActive(nodes)
    ensures j < |nodes| && !nodes[j].1.isol
  {
    var start := if rr == |nodes| then 0 else rr;
    match FirstActive(nodes, start)
    case Some(j) => j
    case None => assert FirstActive(nodes, 0).Some?; FirstActive(nodes, 0).value
  }

  /** The node round robin picks is not isolated, and every node it passes
      over on the way, cyclically from rr_iter, is. */
  lemma RoundRobinSkips(nodes: seq<(nat, NodeStatus)>, rr: nat)
    requires rr < |nodes| && HasActive(nodes)
    ensures var j := RoundRobin(nodes, rr);
      && !nodes[j].1.isol
      && (j >= rr ==> forall k :: rr <= k < j ==> nodes[k].1.isol)
      && (j < rr ==> (forall k :: rr <= k < |nodes| ==> nodes[k].1.isol) && forall k :: 0 <= k < j ==> nodes[k].1.isol)
  {
  }

  lemma FirstActiveIs(nodes: seq<(nat, NodeStatus)>, from: nat, j: nat)
    requires from <= j < |nodes| && !nodes[j].1.isol
    requires forall k :: from <= k < j ==> nodes[k].1.isol
    ensures FirstActive(nodes, from) == Some(j)
  {
  }

  /** select_node_for_proclet's demand: the LP has a node, and when the
      round robin runs, one that is not isolated (else it spins forever). */
  predicate SelectOk(info: LPInfo, hint: nat, seg: Segment)
  {
    InfoOk(info) && info.nodes != [] && (hint == 0 && seg.prevHost == 0 ==> HasActive(info.nodes))
  }

  /** select_node_for_proclet: a hint must be one of the LP's nodes (else 0);
      without a hint the segment's previous host; else the round robin,
      which moves rr_iter past the node it picks. */
  function SelectNode(info: LPInfo, hint: nat, seg: Segment): (r: (LPInfo, nat))
    requires SelectOk(info, hint, seg)
    ensures InfoOk(r.0) && r.0.nodes == info.nodes
  {
    if hint != 0 then (info, if IndexOf(info.nodes, hint).Some? then hint else 0)
    else if seg.prevHost != 0 then (info, seg.prevHost)
    else
      var j := RoundRobin(info.nodes, info.rr);
      (info.(rr := j + 1), info.nodes[j].0)
  }

  /** The node chosen is the hint exactly when the hint is registered, and
      never an unregistered one unless it is the segment's previous host. */
  lemma SelectNodeChoice(info: LPInfo, hint: nat, seg: Segment)
    requires SelectOk(info, hint, seg)
    ensures var ip := SelectNode(info, hint, seg).1;
      && (hint != 0 ==> (ip == hint <==> IndexOf(info.nodes, hint).Some?) && (ip != hint ==> ip == 0))
      && (hint == 0 && seg.prevHost != 0 ==> ip == seg.prevHost)
      && (hint == 0 && seg.prevHost == 0 ==>
            exists k :: 0 <= k < |info.nodes| && info.nodes[k].0 == ip && !info.nodes[k].1.isol)
  {
    if hint == 0 && seg.prevHost == 0 {
      var j := RoundRobin(info.nodes, info.rr);
      assert info.nodes[j].0 == SelectNode(info, hint, seg).1;
    }
  }

  // ---------------------------------------------------------------------
  // allocate_proclet, destroy_proclet, resolve_proclet.

  /** The pieces allocate_proclet cuts a max segment into: capacity-sized,
      from its start while the start is below its end, each keeping the
      segment's previous host; the last one pushed (the highest) on top. */
  function Pieces(s: nat, e: nat, cap: nat, host: nat): (p: seq<Segment>)
    requires cap > 0
    ensures SegmentsOk(p)
    decreases e - s
  {
    if s >= e then [] else Pieces(s + cap, e, cap, host) + [Segment(Range(s, s + cap), host)]
  }

  /** The pieces tile [s, s + n * cap) for n = ceil((e - s) / cap): piece i
      from the bottom starts i capacities above s and keeps the host. */
  lemma {:induction false} PiecesShape(s: nat, e: nat, cap: nat, host: nat, i: nat)
    requires cap > 0 && i < |Pieces(s, e, cap, host)|
    ensures var p := Pieces(s, e, cap, host);
      p[|p| - 1 - i] == Segment(Range(s + i * cap, s + i * cap + cap), host)
    decreases e - s
  {
    if i > 0 {
      PiecesShape(s + cap, e, cap, host, i - 1);
      assert (i - 1) * cap + cap == i * cap;
    }
  }

  lemma {:induction false} PiecesCount(s: nat, e: nat, cap: nat, host: nat)
    requires cap > 0
    ensures var n := |Pieces(s, e, cap, host)|;
      s + n * cap >= e && (n > 0 ==> s + (n - 1) * cap < e)
    decreases e - s
  {
    if s < e {
      PiecesCount(s + cap, e, cap, host);
      var n := |Pieces(s + cap, e, cap, host)|;
      assert |Pieces(s, e, cap, host)| == n + 1;
      MulStep(n, cap);
      if n > 0 {
        MulStep(n - 1, cap);
      }
    }
  }

  /** One more capacity is one more multiple of it. */
  lemma MulStep(n: nat, cap: nat)
    ensures (n + 1) * cap == n * cap + cap
  {
  }

  /** allocate_proclet's refill: an empty bucket gets the pieces of the
      highest bucket's top segment; false when the highest bucket is empty
      too. */
  function RefillBucket(st: Ctrl, b: nat, cap: nat): (r: (Ctrl, bool))
    requires Valid(st) && b < NUM_BUCKETS && cap > 0
    ensures Valid(r.0) && r.0.infos == st.infos && r.0.procletIps == st.procletIps
    ensures r.1 <==> r.0.buckets[b] != []
    ensures r.0.stacks == st.stacks && r.0.freeLpids == st.freeLpids && r.0.md5s == st.md5s
  {
    if st.buckets[b] != [] then (st, true)
    else
      var high := st.buckets[NUM_BUCKETS - 1];
      if high == [] then (st, false)
      else
        var g := high[0];
        var bs := st.buckets[NUM_BUCKETS - 1 := high[1..]];
        var p := Pieces(g.range.start, g.range.end, cap, g.prevHost);
        assert SegmentsOk(high);
        assert g.range.start < g.range.end;
        assert SegmentsOk(bs[NUM_BUCKETS - 1]) by {
          forall j | 0 <= j < |high| - 1 ensures high[1..][j].range.start < high[1..][j].range.end {
            assert high[1..][j] == high[j + 1];
          }
        }
        (st.(buckets := bs[b := p + bs[b]]), true)
  }

  ghost predicate AllocateOk(st: Ctrl, capacity: nat, lpid: nat, hint: nat)
    requires Valid(st) && capacity >= MIN_HEAP_SIZE && BucketId(capacity) < NUM_BUCKETS
  {
    var (st1, ok) := RefillBucket(st, BucketId(capacity), capacity);
    ok ==> lpid in st1.infos && SelectOk(st1.infos[lpid], hint, st1.buckets[BucketId(capacity)][0])
  }

  /** allocate_proclet: take the top segment of the capacity's bucket
      (refilled if empty), choose its node, and map the proclet id (the
      segment start) to it. With no node chosen the call fails, and the
      segment stays taken. */
  ghost function AfterAllocateProclet(st: Ctrl, capacity: nat, lpid: nat, hint: nat): (r: (Ctrl, Option<(nat, nat)>))
    requires Valid(st) && capacity >= MIN_HEAP_SIZE && BucketId(capacity) < NUM_BUCKETS
    requires AllocateOk(st, capacity, lpid, hint)
  {
    var b := BucketId(capacity);
    var (st1, ok) := RefillBucket(st, b, capacity);
    if !ok then (st1, None)
    else
      var seg := st1.buckets[b][0];
      var st2 := st1.(buckets := st1.buckets[b := st1.buckets[b][1..]]);
      var (info, ip) := SelectNode(st1.infos[lpid], hint, seg);
      var st3 := st2.(infos := st2.infos[lpid := info]);
      if ip == 0 then (st3, None)
      else (st3.(procletIps := st3.procletIps[seg.range.start := ip]), Some((seg.range.start, ip)))
  }

  /** destroy_proclet: an unknown proclet id changes nothing; otherwise the
      segment goes back on its bucket remembering its host, and the id is
      dropped. */
  function AfterDestroyProclet(st: Ctrl, seg: Range): (r: Ctrl)
    requires |st.buckets| == NUM_BUCKETS
    requires seg.end >= seg.start + MIN_HEAP_SIZE && BucketId(seg.end - seg.start) < NUM_BUCKETS
  {
    var b := BucketId(seg.end - seg.start);
    if seg.start !in st.procletIps then st
    else st.(buckets := st.buckets[b := [Segment(seg, st.procletIps[seg.start])] + st.buckets[b]],
             procletIps := st.procletIps - {seg.start})
  }

  /** resolve_proclet: the proclet's node, or 0. */
  function Resolve(st: Ctrl, id: nat): nat
  {
    if id in st.procletIps then st.procletIps[id] else 0
  }

  /** update_location: a migrated proclet's new node; an unknown id is a
      BUG. */
  function AfterUpdateLocation(st: Ctrl, id: nat, ip: nat): (r: Ctrl)
    requires id in st.procletIps
  {
    st.(procletIps := st.procletIps[id := ip])
  }

  // ---------------------------------------------------------------------
  // acquire_node and release_node.

  /** acquire_node: lpid_to_info_[lpid] creates an empty LP when there is
      none; an unknown node, or one already acquired, gives false. */
  function AfterAcquire(st: Ctrl, lpid: nat, ip: nat): (r: (Ctrl, bool))
  {
    var info := if lpid in st.infos then st.infos[lpid] else EMPTY_INFO;
    var st1 := st.(infos := st.infos[lpid := info]);
    match IndexOf(info.nodes, ip)
    case None => (st1, false)
    case Some(k) =>
      if info.nodes[k].1.acquired then (st1, false)
      else (st1.(infos := st.infos[lpid := info.(nodes := info.nodes[k := (ip, info.nodes[k].1.(acquired := true))])]), true)
  }

  /** release_node's demand: the node is known and acquired (a BUG
      otherwise). */
  predicate ReleaseOk(st: Ctrl, lpid: nat, ip: nat)
  {
    lpid in st.infos && IndexOf(st.infos[lpid].nodes, ip).Some?
      && st.infos[lpid].nodes[IndexOf(st.infos[lpid].nodes, ip).value].1.acquired
  }

  function AfterRelease(st: Ctrl, lpid: nat, ip: nat): (r: Ctrl)
    requires ReleaseOk(st, lpid, ip)
  {
    var info := st.infos[lpid];
    var k := IndexOf(info.nodes, ip).value;
    st.(infos := st.infos[lpid := info.(nodes := info.nodes[k := (ip, info.nodes[k].1.(acquired := false))])])
  }

  // ---------------------------------------------------------------------
  // What the operations promise.

  /** register_node keeps the controller Valid. */
  lemma RegisterKeepsValid(st: Ctrl, ip: nat, lpid: nat, md5: Md5, isol: bool)
    requires Valid(st) && RegisterOk(st, ip, lpid, md5)
    ensures Valid(AfterRegister(st, ip, lpid, md5, isol).0)
  {
    var (st1, c) := ChooseLpid(st, lpid, md5);
    assert Valid(st1);
    if c.Some? {
      var l := c.value.0;
      if st1.stacks != [] {
        JoinKeepsValid(st1, l, ip, isol);
      } else if c.value.1 {
        assert l in st.freeLpids;
      }
    }
  }

  /** The node joining LP `l`, which is not free, keeps the state Valid. */
  lemma JoinKeepsValid(st: Ctrl, l: nat, ip: nat, isol: bool)
    requires Valid(st) && l !in st.freeLpids && st.stacks != []
    requires l in st.infos ==> IndexOf(st.infos[l].nodes, ip).None?
    ensures var info := if l in st.infos then st.infos[l] else EMPTY_INFO;
      Valid(st.(stacks := st.stacks[1..], infos := st.infos[l := AddNode(info, ip, isol)]))
  {
    var info := if l in st.infos then st.infos[l] else EMPTY_INFO;
    AddNodeOk(info, ip, isol);
  }

  /** register_node with lpid 0 hands out the smallest free lpid and the top
      stack cluster, records the md5 and adds the node to the LP; it fails
      exactly when no lpid is free or no cluster is left. */
  lemma RegisterSmallestFree(st: Ctrl, ip: nat, md5: Md5, isol: bool)
    requires Valid(st) && RegisterOk(st, ip, 0, md5)
    ensures var (st', r) := AfterRegister(st, ip, 0, md5, isol);
      && (r.Some? <==> st.freeLpids != {} && st.stacks != [])
      && (r.Some? ==>
            && r.value == (SetMin(st.freeLpids), st.stacks[0])
            && st'.freeLpids == st.freeLpids - {r.value.0}
            && st'.stacks == st.stacks[1..]
            && r.value.0 in st'.md5s && st'.md5s[r.value.0] == md5
            && r.value.0 in st'.infos && IndexOf(st'.infos[r.value.0].nodes, ip).Some?)
  {
    if st.freeLpids != {} && st.stacks != [] {
      var l := SetMin(st.freeLpids);
      var st1 := ChooseLpid(st, 0, md5).0;
      var info := if l in st1.infos then st1.infos[l] else EMPTY_INFO;
      if l in st.infos {
        assert InfoOk(st.infos[l]);
      }
      AddNodeOk(info, ip, isol);
    }
  }

  /** register_node with a given lpid: a free one is claimed with this md5;
      a used one succeeds only with the md5 already recorded for it (or
      the default one when none was). */
  lemma RegisterGivenLpid(st: Ctrl, ip: nat, lpid: nat, md5: Md5, isol: bool)
    requires lpid != 0 && Valid(st) && RegisterOk(st, ip, lpid, md5)
    requires !(lpid in st.infos && st.infos[lpid].destroying) && st.stacks != []
    ensures var (st', r) := AfterRegister(st, ip, lpid, md5, isol);
      && (lpid in st.freeLpids ==>
            r == Some((lpid, st.stacks[0])) && st'.freeLpids == st.freeLpids - {lpid} && st'.md5s == st.md5s[lpid := md5])
      && (lpid !in st.freeLpids ==>
            && (r.Some? <==> (if lpid in st.md5s then st.md5s[lpid] else DEFAULT_MD5) == md5)
            && st'.freeLpids == st.freeLpids)
  {
  }

  /** A failed register_node leaves the free lpids, the stack clusters and
      the LPs as they were (only an md5 read may have been recorded). */
  lemma RegisterFailsCleanly(st: Ctrl, ip: nat, lpid: nat, md5: Md5, isol: bool)
    requires Valid(st) && RegisterOk(st, ip, lpid, md5)
    ensures var (st', r) := AfterRegister(st, ip, lpid, md5, isol);
      r.None? ==> st'.freeLpids == st.freeLpids && st'.stacks == st.stacks && st'.infos == st.infos
  {
    var (st1, c) := ChooseLpid(st, lpid, md5);
    if c.Some? && c.value.1 && st1.stacks == [] {
      assert st1.freeLpids + {c.value.0} == st.freeLpids;
    }
  }

  /** The code as written puts a used lpid back in the free set when no
      stack cluster is left: here LP 7 keeps its node yet 7 becomes free,
      so the next register_node with lpid 0 could hand 7 to another
      program. */
  lemma RegisterAsWrittenFreesUsedLpid()
    ensures var m := Md5([1]);
      var st := Ctrl(seq(NUM_BUCKETS, _ => []), [], {}, map[7 := m],
                     map[7 := LPInfo([(1, NodeStatus(false, false))], 0, false)], map[]);
      && Valid(st) && RegisterOk(st, 2, 7, m)
      && var after := RegisterWith(st, 2, 7, m, false, true).0;
         7 in after.freeLpids && after.infos[7].nodes != [] && !Valid(after)
  {
    var m := Md5([1]);
    var st := Ctrl(seq(NUM_BUCKETS, _ => []), [], {}, map[7 := m],
                   map[7 := LPInfo([(1, NodeStatus(false, false))], 0, false)], map[]);
    assert st.md5s[7 := m] == st.md5s;
    assert ChooseLpid(st, 7, m) == (st, Some((7, false)));
  }

  /** allocate_proclet keeps the controller Valid, and a proclet it places
      resolves to its node; it fails at once when the bucket and the
      highest bucket are both empty. */
  lemma AllocateResolves(st: Ctrl, capacity: nat, lpid: nat, hint: nat)
    requires Valid(st) && capacity >= MIN_HEAP_SIZE && BucketId(capacity) < NUM_BUCKETS
    requires AllocateOk(st, capacity, lpid, hint)
    ensures var (st', r) := AfterAllocateProclet(st, capacity, lpid, hint);
      && Valid(st')
      && (r.Some? ==> r.value.1 != 0 && Resolve(st', r.value.0) == r.value.1)
      && (st.buckets[BucketId(capacity)] == [] && st.buckets[NUM_BUCKETS - 1] == [] ==> r.None? && st' == st)
  {
    var b := BucketId(capacity);
    var (st1, ok) := RefillBucket(st, b, capacity);
    if ok {
      var bs := st1.buckets[b := st1.buckets[b][1..]];
      assert SegmentsOk(st1.buckets[b]);
      assert SegmentsOk(bs[b]) by {
        forall j | 0 <= j < |bs[b]| ensures bs[b][j].range.start < bs[b][j].range.end {
          assert bs[b][j] == st1.buckets[b][j + 1];
        }
      }
    }
  }

  /** When the bucket already holds a segment, allocate_proclet hands out
      its top one: the proclet id is that segment's start. */
  lemma AllocateTakesTop(st: Ctrl, capacity: nat, lpid: nat, hint: nat)
    requires Valid(st) && capacity >= MIN_HEAP_SIZE && BucketId(capacity) < NUM_BUCKETS
    requires AllocateOk(st, capacity, lpid, hint) && st.buckets[BucketId(capacity)] != []
    ensures var (st', r) := AfterAllocateProclet(st, capacity, lpid, hint);
      var b := BucketId(capacity);
      && st'.buckets == st.buckets[b := st.buckets[b][1..]]
      && (r.Some? ==> r.value.0 == st.buckets[b][0].range.start)
  {
  }

  /** destroy_proclet then resolve_proclet gives 0; a known proclet's
      segment is on top of its bucket with its last host. */
  lemma DestroyForgets(st: Ctrl, seg: Range)
    requires |st.buckets| == NUM_BUCKETS
    requires seg.end >= seg.start + MIN_HEAP_SIZE && BucketId(seg.end - seg.start) < NUM_BUCKETS
    ensures var st' := AfterDestroyProclet(st, seg);
      && Resolve(st', seg.start) == 0
      && (seg.start in st.procletIps ==>
            st'.buckets[BucketId(seg.end - seg.start)] ==
              [Segment(seg, st.procletIps[seg.start])] + st.buckets[BucketId(seg.end - seg.start)])
      && (seg.start !in st.procletIps ==> st' == st)
  {
  }

  lemma DestroyKeepsValid(st: Ctrl, seg: Range)
    requires Valid(st)
    requires seg.end >= seg.start + MIN_HEAP_SIZE && BucketId(seg.end - seg.start) < NUM_BUCKETS
    ensures Valid(AfterDestroyProclet(st, seg))
  {
    var b := BucketId(seg.end - seg.start);
    if seg.start in st.procletIps {
      var nb := [Segment(seg, st.procletIps[seg.start])] + st.buckets[b];
      assert SegmentsOk(st.buckets[b]);
      assert SegmentsOk(nb) by {
        forall j | 0 <= j < |nb| ensures nb[j].range.start < nb[j].range.end {
          if j > 0 {
            assert nb[j] == st.buckets[b][j - 1];
          }
        }
      }
    }
  }

  /** After update_location the proclet resolves to its new node, every
      other id resolves as before, and the controller stays Valid. */
  lemma UpdateLocationResolves(st: Ctrl, id: nat, ip: nat, other: nat)
    requires id in st.procletIps
    ensures Resolve(AfterUpdateLocation(st, id, ip), id) == ip
    ensures other != id ==> Resolve(AfterUpdateLocation(st, id, ip), other) == Resolve(st, other)
    ensures AfterUpdateLocation(st, id, ip).procletIps.Keys == st.procletIps.Keys
    ensures Valid(st) ==> Valid(AfterUpdateLocation(st, id, ip))
  {
  }

  /** acquire_node succeeds exactly on a known node not yet acquired, and
      release_node then undoes it. */
  lemma AcquireRelease(st: Ctrl, lpid: nat, ip: nat)
    requires lpid in st.infos
    ensures var (st', ok) := AfterAcquire(st, lpid, ip);
      var k := IndexOf(st.infos[lpid].nodes, ip);
      && (ok <==> k.Some? && !st.infos[lpid].nodes[k.value].1.acquired)
      && (!ok ==> st' == st)
      && (ok ==> ReleaseOk(st', lpid, ip) && AfterRelease(st', lpid, ip) == st)
  {
    var info := st.infos[lpid];
    var k := IndexOf(info.nodes, ip);
    assert st.infos[lpid := info] == st.infos;
    if k.Some? && !info.nodes[k.value].1.acquired {
      var n := info.nodes[k.value := (ip, info.nodes[k.value].1.(acquired := true))];
      assert IndexOf(n, ip) == k by {
        IndexOfUnique(info.nodes, n, ip, k.value);
      }
      assert n[k.value := (ip, info.nodes[k.value].1.(acquired := false))] == info.nodes;
    }
  }

  /** Changing the status of one entry leaves find's answer alone. */
  lemma {:induction false} IndexOfUnique(a: seq<(nat, NodeStatus)>, b: seq<(nat, NodeStatus)>, ip: nat, k: nat)
    requires |a| == |b| && k < |a| && IndexOf(a, ip) == Some(k)
    requires forall i :: 0 <= i < |a| ==> a[i].0 == b[i].0
    ensures IndexOf(b, ip) == Some(k)
    decreases |a|
  {
    if k > 0 {
      IndexOfUnique(a[1..], b[1..], ip, k - 1);
    }
  }

  lemma AcquireKeepsValid(st: Ctrl, lpid: nat, ip: nat)
    requires Valid(st)
    ensures Valid(AfterAcquire(st, lpid, ip).0)
  {
    var info := if lpid in st.infos then st.infos[lpid] else EMPTY_INFO;
    match IndexOf(info.nodes, ip)
    case None =>
    case Some(k) =>
      var n := info.nodes[k := (ip, info.nodes[k].1.(acquired := true))];
      assert InfoOk(info);
      assert forall i :: 0 <= i < |n| ==> n[i].0 == info.nodes[i].0;
  }

  lemma ReleaseKeepsValid(st: Ctrl, lpid: nat, ip: nat)
    requires Valid(st) && ReleaseOk(st, lpid, ip)
    ensures Valid(AfterRelease(st, lpid, ip))
  {
    var info := st.infos[lpid];
    var k := IndexOf(info.nodes, ip).value;
    var n := info.nodes[k := (ip, info.nodes[k].1.(acquired := false))];
    assert InfoOk(info);
    assert forall i :: 0 <= i < |n| ==> n[i].0 == info.nodes[i].0;
  }

  // ---------------------------------------------------------------------
  // The controller object.

  /** The constructor's first loop: lpids 1 .. 65534 go into the free set. */
  method FreeLpids() returns (free: set<nat>)
    ensures free == LpidsBelow(MAX_LPID)
  {
    free := {};
    var lpid := 1;
    while lpid < MAX_LPID
      invariant 1 <= lpid <= MAX_LPID && free == LpidsBelow(lpid)
    {
      free := free + {lpid};
      lpid := lpid + 1;
    }
  }

  /** The constructor's second loop: the highest bucket's max segments are
      pushed in address order (the front of the sequence is the top). */
  method HeapSegments() returns (stack: seq<Segment>)
    ensures stack == HeapSlots(MIN_HEAP_VADDR)
  {
    stack := [];
    var start := MIN_HEAP_VADDR;
    while start + MAX_HEAP_SIZE <= MAX_HEAP_VADDR
      invariant HeapSlots(MIN_HEAP_VADDR) == HeapSlots(start) + stack
      decreases MAX_HEAP_VADDR - start
    {
      stack := [Segment(Range(start, start + MAX_HEAP_SIZE), 0)] + stack;
      start := start + MAX_HEAP_SIZE;
    }
  }

  /** The constructor's third loop: the stack clusters, the same way. */
  method StackClusters() returns (stack: seq<Range>)
    ensures stack == StackSlots(MIN_STACK_VADDR)
  {
    stack := [];
    var start := MIN_STACK_VADDR;
    while start + STACK_CLUSTER_SIZE <= MAX_STACK_VADDR
      invariant StackSlots(MIN_STACK_VADDR) == StackSlots(start) + stack
      decreases MAX_STACK_VADDR - start
    {
      stack := [Range(start, start + STACK_CLUSTER_SIZE)] + stack;
      start := start + STACK_CLUSTER_SIZE;
    }
  }

  /** allocate_proclet's split loop: pieces of `cap` bytes from the max
      segment's start while below its end, each pushed onto the bucket. */
  method PushPieces(g: Segment, cap: nat, bucket: seq<Segment>) returns (bucket': seq<Segment>)
    requires cap > 0
    ensures bucket' == Pieces(g.range.start, g.range.end, cap, g.prevHost) + bucket
  {
    bucket' := bucket;
    var start := g.range.start;
    while start < g.range.end
      invariant Pieces(g.range.start, g.range.end, cap, g.prevHost) + bucket
             == Pieces(start, g.range.end, cap, g.prevHost) + bucket'
      decreases g.range.end - start
    {
      bucket' := [Segment(Range(start, start + cap), g.prevHost)] + bucket';
      start := start + cap;
    }
  }

  /** select_node_for_proclet's do-while: from rr_iter (end() wraps to the
      first node) take nodes until one is not isolated, leaving rr_iter just
      past it. */
  method RoundRobinLoop(nodes: seq<(nat, NodeStatus)>, rr: nat) returns (ip: nat, rr': nat)
    requires rr <= |nodes| && HasActive(nodes)
    ensures var j := RoundRobin(nodes, rr); ip == nodes[j].0 && rr' == j + 1
  {
    ghost var start := if rr == |nodes| then 0 else rr;
    ghost var first := true;
    ghost var wrapped := false;
    rr' := rr;
    while true
      invariant rr' <= |nodes|
      invariant first ==> rr' == rr && !wrapped
      invariant !first && !wrapped ==> start <= rr' && forall k :: start <= k < rr' ==> nodes[k].1.isol
      invariant wrapped ==> FirstActive(nodes, start).None? && forall k :: 0 <= k < rr' ==> nodes[k].1.isol
      decreases if first then 2 else if wrapped then 0 else 1, |nodes| - rr'
    {
      if rr' == |nodes| {
        if wrapped {
          assert false;
        }
        if !first {
          wrapped := true;
        }
        rr' := 0;
      }
      ip := nodes[rr'].0;
      var isol := nodes[rr'].1.isol;
      rr' := rr' + 1;
      first := false;
      if !isol {
        if wrapped {
          FirstActiveIs(nodes, 0, rr' - 1);
        } else {
          FirstActiveIs(nodes, start, rr' - 1);
        }
        return;
      }
    }
  }

  class Controller {
    var buckets: seq<seq<Segment>>
    var stacks: seq<Range>
    var freeLpids: set<nat>
    var md5s: map<nat, Md5>
    var infos: map<nat, LPInfo>
    var procletIps: map<nat, nat>

    function State(): Ctrl
      reads this
    {
      Ctrl(buckets, stacks, freeLpids, md5s, infos, procletIps)
    }

    /** Controller(): every lpid but 0 and 65535 free, the highest bucket
        full of max segments, the stack clusters pushed. */
    constructor ()
      ensures State() == Initial()
    {
      var free := FreeLpids();
      var high := HeapSegments();
      var clusters := StackClusters();
      freeLpids := free;
      buckets := seq(NUM_BUCKETS, b => if b == NUM_BUCKETS - 1 then high else []);
      stacks := clusters;
      md5s, infos, procletIps := map[], map[], map[];
    }

    method RegisterNode(ip: nat, lpid: nat, md5: Md5, isol: bool) returns (r: Option<(nat, Range)>)
      requires Valid(State()) && RegisterOk(State(), ip, lpid, md5)
      modifies this
      ensures (State(), r) == AfterRegister(old(State()), ip, lpid, md5, isol)
    {
      var l := lpid;
      var taken := false;
      if l != 0 {
        if l in infos && infos[l].destroying {
          return None;
        }
        if l !in freeLpids {
          var m := if l in md5s then md5s[l] else DEFAULT_MD5;
          md5s := md5s[l := m];
          if m != md5 {
            return None;
          }
        } else {
          freeLpids := freeLpids - {l};
          md5s := md5s[l := md5];
          taken := true;
        }
      } else {
        if freeLpids == {} {
          return None;
        }
        MinExists(freeLpids);
        l :| IsMin(freeLpids, l);
        assert l == SetMin(freeLpids);
        freeLpids := freeLpids - {l};
        md5s := md5s[l := md5];
        taken := true;
      }
      if stacks == [] {
        if taken {
          freeLpids := freeLpids + {l};
        }
        return None;
      }
      var cluster := stacks[0];
      stacks := stacks[1..];
      var info := if l in infos then infos[l] else EMPTY_INFO;
      infos := infos[l := AddNode(info, ip, isol)];
      return Some((l, cluster));
    }

    method SelectNodeForProclet(lpid: nat, hint: nat, seg: Segment) returns (ip: nat)
      requires lpid in infos && SelectOk(infos[lpid], hint, seg)
      modifies this
      ensures var (info, j) := SelectNode(old(infos[lpid]), hint, seg);
        ip == j && State() == old(State()).(infos := old(infos)[lpid := info])
    {
      var info := infos[lpid];
      if hint != 0 {
        assert infos[lpid := info] == infos;
        if IndexOf(info.nodes, hint).None? {
          return 0;
        }
        return hint;
      }
      if seg.prevHost != 0 {
        assert infos[lpid := info] == infos;
        return seg.prevHost;
      }
      var rr;
      ip, rr := RoundRobinLoop(info.nodes, info.rr);
      infos := infos[lpid := info.(rr := rr)];
    }

    method AllocateProclet(capacity: nat, lpid: nat, hint: nat) returns (r: Option<(nat, nat)>)
      requires Valid(State()) && capacity >= MIN_HEAP_SIZE && BucketId(capacity) < NUM_BUCKETS
      requires AllocateOk(State(), capacity, lpid, hint)
      modifies this
      ensures (State(), r) == AfterAllocateProclet(old(State()), capacity, lpid, hint)
    {
      var b := BucketId(capacity);
      if buckets[b] == [] {
        var high := buckets[NUM_BUCKETS - 1];
        if high == [] {
          return None;
        }
        var maxSegment := high[0];
        buckets := buckets[NUM_BUCKETS - 1 := high[1..]];
        var bucket := PushPieces(maxSegment, capacity, buckets[b]);
        buckets := buckets[b := bucket];
      }
      assert State() == RefillBucket(old(State()), b, capacity).0;
      var segment := buckets[b][0];
      buckets := buckets[b := buckets[b][1..]];
      var nodeIp := SelectNodeForProclet(lpid, hint, segment);
      if nodeIp == 0 {
        return None;
      }
      procletIps := procletIps[segment.range.start := nodeIp];
      return Some((segment.range.start, nodeIp));
    }

    method DestroyProclet(seg: Range)
      requires |buckets| == NUM_BUCKETS
      requires seg.end >= seg.start + MIN_HEAP_SIZE && BucketId(seg.end - seg.start) < NUM_BUCKETS
      modifies this
      ensures State() == AfterDestroyProclet(old(State()), seg)
    {
      var b := BucketId(seg.end - seg.start);
      if seg.start !in procletIps {
        return;
      }
      buckets := buckets[b := [Segment(seg, procletIps[seg.start])] + buckets[b]];
      procletIps := procletIps - {seg.start};
    }

    method ResolveProclet(id: nat) returns (ip: nat)
      ensures ip == Resolve(State(), id)
    {
      ip := if id in procletIps then procletIps[id] else 0;
    }

    method UpdateLocation(id: nat, ip: nat)
      requires id in procletIps
      modifies this
      ensures State() == AfterUpdateLocation(old(State()), id, ip)
    {
      procletIps := procletIps[id := ip];
    }

    method AcquireNode(lpid: nat, ip: nat) returns (ok: bool)
      modifies this
      ensures (State(), ok) == AfterAcquire(old(State()), lpid, ip)
    {
      var info := if lpid in infos then infos[lpid] else EMPTY_INFO;
      infos := infos[lpid := info];
      var k := IndexOf(info.nodes, ip);
      if k.None? || info.nodes[k.value].1.acquired {
        return false;
      }
      ghost var infos0 := old(infos);
      var info' := info.(nodes := info.nodes[k.value := (ip, info.nodes[k.value].1.(acquired := true))]);
      assert infos[lpid := info'] == infos0[lpid := info'];
      infos := infos[lpid := info'];
      return true;
    }

    method ReleaseNode(lpid: nat, ip: nat)
      requires ReleaseOk(State(), lpid, ip)
      modifies this
      ensures State() == AfterRelease(old(State()), lpid, ip)
    {
      var info := infos[lpid];
      var k := IndexOf(info.nodes, ip).value;
      infos := infos[lpid := info.(nodes := info.nodes[k := (ip, info.nodes[k].1.(acquired := false))])];
    }
  }
}
