/** `MemPool` for pools that are not VB pools: blocks of device memory, cached and handed out. */
module MemPools {
  import opened Sequences

  /** The memory that a pool's allocator draws from.  Blocks are numbered as they are allocated; `room` is how
      many more can be had before allocation fails, which others that use the memory may change at any time;
      `returned` records what was given back. */
  datatype Heap = Heap(live: set<nat>, next: nat, room: nat, returned: seq<nat>)

  /** A UniedkBufSurface: the block behind it, the address of its pool (0 where there is none), and whether its
      pointers are mapped. */
  datatype Surface = Surface(block: nat, owner: nat, mapped: bool)

  datatype Pool = Pool(address: nat, created: bool, cache: seq<Surface>, count: nat, fakeMapped: bool, heap: Heap)

  /** A pool together with the blocks its clients hold. */
  datatype World = World(pool: Pool, out: set<nat>)

  /** `ready`: parameters, platform and allocator are in order.  `torn`: the allocator could be destroyed.
      `Room`: others have taken or given back memory. */
  datatype Op =
    | Create(blocks: nat, device: bool, ready: bool)
    | Alloc
    | Free(surf: Surface)
    | Destroy(torn: bool)
    | Room(room: nat)

  const UINT32: nat := 0x1_0000_0000

  // ----- What the operations do -----

  function Allocated(h: Heap): Heap {
    Heap(h.live + {h.next}, h.next + 1, if h.room == 0 then 0 else h.room - 1, h.returned)
  }

  function Returned(h: Heap, b: nat): Heap {
    h.(live := h.live - {b}, returned := h.returned + [b])
  }

  /** One turn of the loop of Create. */
  function OneMore(p: Pool): Pool {
    p.(cache := p.cache + [Surface(p.heap.next, p.address, false)], heap := Allocated(p.heap))
  }

  /** The loop of Create: caches `n` blocks, or as many as can be allocated. */
  function Filled(p: Pool, n: nat): Pool
    decreases n
  {
    if n == 0 || p.heap.room == 0 then p
    else Filled(OneMore(p), n - 1)
  }

  /** The loop of Destroy. */
  function Emptied(p: Pool): Pool
    decreases |p.cache|
  {
    if p.cache == [] then p
    else Emptied(p.(cache := p.cache[1..], heap := Returned(p.heap, p.cache[0].block)))
  }

  function Unmapped(p: Pool, s: Surface): Surface {
    if p.fakeMapped then s.(mapped := false) else s
  }

  /** `++alloc_count_` and `--alloc_count_` on 32 bits */
  function Incremented(count: nat): nat {
    (count + 1) % UINT32
  }

  function Decremented(count: nat): nat {
    (count + UINT32 - 1) % UINT32
  }

  lemma NoWrap(count: nat)
    requires count < UINT32
    ensures count > 0 ==> Decremented(count) == count - 1
    ensures Incremented(count) == if count + 1 < UINT32 then count + 1 else 0
    ensures Decremented(0) == UINT32 - 1
  {
  }

  function After(w: World, op: Op): World {
    var p := w.pool;
    match op
    case Create(n, device, ready) =>
      if p.created || !ready then w
      else
        var q := Filled(p.(fakeMapped := device), n);
        if p.heap.room < n then World(q, w.out) else World(q.(count := 0, created := true), w.out)
    case Alloc =>
      if !p.created || p.cache == [] then w
      else World(p.(cache := p.cache[1..], count := Incremented(p.count)), w.out + {p.cache[0].block})
    case Free(s) =>
      if !p.created then w
      else World(p.(cache := p.cache + [Unmapped(p, s)], count := Decremented(p.count)), w.out - {s.block})
    case Destroy(torn) =>
      if !p.created then w
      else if torn then World(Emptied(p).(count := 0, created := false), w.out)
      else World(Emptied(p), w.out)
    case Room(room) => World(p.(heap := p.heap.(room := room)), w.out)
  }

  /** What clients and the caller of Destroy keep to: a surface is freed by who holds its block, and the
      loop that waits for `alloc_count_` to become zero lets Destroy go on only then.  Blocks are counted on
      32 bits. */
  predicate Allowed(w: World, op: Op) {
    match op
    case Create(n, _, _) => |w.pool.heap.live| + n < UINT32
    case Free(s) => s.block in w.out && s.owner == w.pool.address
    case Destroy(_) => w.pool.created ==> w.pool.count == 0
    case _ => true
  }

  // ----- Conservation -----

  function Blocks(cache: seq<Surface>): set<nat> {
    set i | 0 <= i < |cache| :: cache[i].block
  }

  ghost predicate NoBlockTwice(cache: seq<Surface>) {
    forall i, j :: 0 <= i < j < |cache| ==> cache[i].block != cache[j].block
  }

  ghost predicate Orderly(h: Heap) {
    && |h.live| < UINT32
    && (forall b :: b in h.live ==> b < h.next)
    && (forall b :: b in h.returned ==> b < h.next && b !in h.live)
    && Distinct(h.returned)
  }

  ghost predicate Balanced(cache: seq<Surface>, out: set<nat>, live: set<nat>) {
    NoBlockTwice(cache) && Blocks(cache) !! out && Blocks(cache) + out == live
  }

  ghost predicate AllPooled(cache: seq<Surface>, address: nat) {
    forall i :: 0 <= i < |cache| ==> cache[i].owner == address
  }

  /** Cached and handed-out blocks are apart and together are the blocks allocated; the count is the
      number handed out; what was returned was returned once and is not in use. */
  ghost predicate Conserved(w: World) {
    && Balanced(w.pool.cache, w.out, w.pool.heap.live)
    && (if w.pool.created then w.pool.count == |w.out| else w.out == {})
    && AllPooled(w.pool.cache, w.pool.address)
    && Orderly(w.pool.heap)
  }

  lemma InBlocks(cache: seq<Surface>, b: nat)
    ensures b in Blocks(cache) <==> exists s :: s in cache && s.block == b
  {
    if s :| s in cache && s.block == b {
      var i :| 0 <= i < |cache| && cache[i] == s;
    }
  }

  lemma BlocksOfAppend(cache: seq<Surface>, s: Surface)
    ensures Blocks(cache + [s]) == Blocks(cache) + {s.block}
    ensures NoBlockTwice(cache) && s.block !in Blocks(cache) ==> NoBlockTwice(cache + [s])
  {
    var more := cache + [s];
    forall b ensures b in Blocks(more) <==> b in Blocks(cache) + {s.block} {
      InBlocks(cache, b);
      InBlocks(more, b);
    }
    hide Blocks;
    if NoBlockTwice(cache) && s.block !in Blocks(cache) {
      forall i | 0 <= i < |cache| ensures cache[i].block != s.block { InBlocks(cache, s.block); }
    }
  }

  lemma BlocksOfTail(cache: seq<Surface>)
    requires cache != [] && NoBlockTwice(cache)
    ensures Blocks(cache[1..]) == Blocks(cache) - {cache[0].block} && cache[0].block in Blocks(cache)
    ensures NoBlockTwice(cache[1..])
  {
    var tail := cache[1..];
    forall b ensures b in Blocks(tail) <==> b in Blocks(cache) - {cache[0].block} {
      InBlocks(cache, b);
      InBlocks(tail, b);
      assert forall s :: s in cache <==> s == cache[0] || s in tail;
    }
  }

  lemma BalancedAdd(cache: seq<Surface>, out: set<nat>, live: set<nat>, s: Surface)
    requires Balanced(cache, out, live) && s.block !in live
    ensures Balanced(cache + [s], out, live + {s.block})
  {
    BlocksOfAppend(cache, s);
    hide Blocks;
    hide NoBlockTwice;
  }

  lemma BalancedTake(cache: seq<Surface>, out: set<nat>, live: set<nat>)
    requires Balanced(cache, out, live) && cache != []
    ensures Balanced(cache[1..], out + {cache[0].block}, live) && cache[0].block !in out
    ensures |out + {cache[0].block}| == |out| + 1 <= |live|
  {
    BlocksOfTail(cache);
    var b := cache[0].block;
    hide Blocks;
    hide NoBlockTwice;
    assert out + {b} <= live;
    assert live == (out + {b}) + (live - (out + {b}));
  }

  lemma BalancedGive(cache: seq<Surface>, out: set<nat>, live: set<nat>, s: Surface)
    requires Balanced(cache, out, live) && s.block in out
    ensures Balanced(cache + [s], out - {s.block}, live)
    ensures |out - {s.block}| == |out| - 1 && |out| <= |live|
  {
    BlocksOfAppend(cache, s);
    hide Blocks;
    hide NoBlockTwice;
    assert live == out + (live - out);
  }

  lemma AllocatedOrderly(h: Heap)
    requires Orderly(h) && |h.live| + 1 < UINT32
    ensures Orderly(Allocated(h)) && h.next !in h.live && |Allocated(h).live| == |h.live| + 1
  {
  }

  lemma ReturnedOrderly(h: Heap, b: nat)
    requires Orderly(h) && b in h.live
    ensures Orderly(Returned(h, b))
  {
  }

  lemma FillOne(w: World)
    requires Conserved(w) && !w.pool.created && |w.pool.heap.live| + 1 < UINT32
    ensures var p := w.pool;
            Conserved(World(OneMore(p), w.out))
  {
    var p := w.pool;
    AllocatedOrderly(p.heap);
    hide Orderly;
    BalancedAdd(p.cache, w.out, p.heap.live, Surface(p.heap.next, p.address, false));
    hide Balanced;
  }

  lemma {:induction false} FilledKeeps(w: World, n: nat)
    requires Conserved(w) && !w.pool.created && |w.pool.heap.live| + n < UINT32
    ensures Conserved(World(Filled(w.pool, n), w.out)) && !Filled(w.pool, n).created
    ensures |Filled(w.pool, n).cache| == |w.pool.cache| + (if w.pool.heap.room < n then w.pool.heap.room else n)
    decreases n
  {
    hide Conserved;
    var p := w.pool;
    assert World(p, w.out) == w;
    if n > 0 && p.heap.room > 0 {
      FillOne(w);
      FilledKeeps(World(OneMore(p), w.out), n - 1);
    }
  }

  lemma BalancedReturn(cache: seq<Surface>, live: set<nat>)
    requires Balanced(cache, {}, live) && cache != []
    ensures Balanced(cache[1..], {}, live - {cache[0].block}) && cache[0].block in live
    ensures Blocks(cache) == {cache[0].block} + Blocks(cache[1..])
  {
    BlocksOfTail(cache);
    hide Blocks;
    hide NoBlockTwice;
  }

  lemma ReturnOne(p: Pool)
    requires Conserved(World(p, {})) && p.created && p.cache != []
    ensures var q := p.(cache := p.cache[1..], heap := Returned(p.heap, p.cache[0].block));
            Conserved(World(q, {})) && Blocks(p.cache) == {p.cache[0].block} + Blocks(q.cache)
  {
    hide Balanced;
    hide Orderly;
    hide AllPooled;
    hide Blocks;
    BalancedReturn(p.cache, p.heap.live);
    ReturnedOrderly(p.heap, p.cache[0].block);
    PooledTail(p.cache, p.address);
  }

  lemma {:induction false} FilledAddress(p: Pool, n: nat)
    ensures Filled(p, n).address == p.address && Filled(p, n).fakeMapped == p.fakeMapped
    decreases n
  {
    if n > 0 && p.heap.room > 0 {
      FilledAddress(OneMore(p), n - 1);
    }
  }

  lemma {:induction false} EmptiedAddress(p: Pool)
    ensures Emptied(p).address == p.address
    decreases |p.cache|
  {
    if p.cache != [] { EmptiedAddress(p.(cache := p.cache[1..], heap := Returned(p.heap, p.cache[0].block))); }
  }

  lemma {:induction false} EmptiedKeeps(p: Pool)
    requires Conserved(World(p, {})) && p.created
    ensures var q := Emptied(p);
            && Conserved(World(q, {})) && q.created && q.cache == [] && q.count == p.count && q.heap.live == {}
            && |q.heap.returned| == |p.heap.returned| + |p.cache|
            && (forall b :: b in q.heap.returned <==> b in p.heap.returned || b in Blocks(p.cache))
    decreases |p.cache|
  {
    if p.cache != [] {
      ReturnOne(p);
      hide Conserved;
      hide Blocks;
      EmptiedKeeps(p.(cache := p.cache[1..], heap := Returned(p.heap, p.cache[0].block)));
    }
  }

  lemma PooledTail(cache: seq<Surface>, address: nat)
    requires AllPooled(cache, address) && cache != []
    ensures AllPooled(cache[1..], address)
  {
  }

  lemma PooledAppend(cache: seq<Surface>, address: nat, s: Surface)
    requires AllPooled(cache, address) && s.owner == address
    ensures AllPooled(cache + [s], address)
  {
  }

  lemma AllocKeeps(w: World)
    requires Conserved(w)
    ensures Conserved(After(w, Alloc))
  {
    var p := w.pool;
    if !p.created || p.cache == [] { return; }
    assert |p.heap.live| < UINT32;
    hide Balanced;
    hide Orderly;
    hide AllPooled;
    hide Incremented;
    NoWrap(p.count);
    BalancedTake(p.cache, w.out, p.heap.live);
    PooledTail(p.cache, p.address);
  }

  lemma FreeKeeps(w: World, s: Surface)
    requires Conserved(w) && Allowed(w, Free(s))
    ensures Conserved(After(w, Free(s)))
  {
    var p := w.pool;
    if !p.created { return; }
    assert |p.heap.live| < UINT32;
    hide Balanced;
    hide Orderly;
    hide AllPooled;
    hide Decremented;
    NoWrap(p.count);
    BalancedGive(p.cache, w.out, p.heap.live, Unmapped(p, s));
    PooledAppend(p.cache, p.address, Unmapped(p, s));
  }

  /** Every operation keeps the balance. */
  lemma AfterKeeps(w: World, op: Op)
    requires Conserved(w) && Allowed(w, op)
    ensures Conserved(After(w, op))
  {
    match op
    case Create(n, device, ready) =>
      var p := w.pool.(fakeMapped := device);
      if !p.created {
        assert Conserved(World(p, w.out));
        FilledKeeps(World(p, w.out), n);
      }
    case Alloc => AllocKeeps(w);
    case Free(s) => FreeKeeps(w, s);
    case Destroy(_) =>
      if w.pool.created { EmptiedKeeps(w.pool); }
    case Room(_) =>
  }

  // ----- All sequences of operations -----

  ghost predicate Initial(w: World) {
    && !w.pool.created && w.pool.cache == [] && w.out == {}
    && w.pool.heap.live == {} && w.pool.heap.returned == []
  }

  ghost predicate Run(ws: seq<World>, ops: seq<Op>) {
    && |ws| == |ops| + 1 && Initial(ws[0])
    && forall i :: 0 <= i < |ops| ==> Allowed(ws[i], ops[i]) && ws[i + 1] == After(ws[i], ops[i])
  }

  /** In every state that any sequence of operations leads to, blocks are conserved. */
  lemma {:induction false} RunConserves(ws: seq<World>, ops: seq<Op>, k: nat)
    requires Run(ws, ops) && k < |ws|
    ensures Conserved(ws[k])
  {
    if k > 0 {
      RunConserves(ws, ops, k - 1);
      AfterKeeps(ws[k - 1], ops[k - 1]);
    }
  }

  /** A block that is handed out is not handed out already, and the pool's memory is what it was. */
  lemma AllocIsExclusive(w: World)
    requires Conserved(w) && w.pool.created && w.pool.cache != []
    ensures var b := w.pool.cache[0].block;
            && b !in w.out && After(w, Alloc).out == w.out + {b}
            && b !in Blocks(After(w, Alloc).pool.cache)
            && After(w, Alloc).pool.heap == w.pool.heap
  {
    BalancedTake(w.pool.cache, w.out, w.pool.heap.live);
    hide Blocks;
  }

  /** Destroy leaves no block allocated, and returns each one that was cached, once, whether or not the
      allocator can then be destroyed. */
  lemma DestroyReturnsAll(w: World, torn: bool)
    requires Conserved(w) && w.pool.created && Allowed(w, Destroy(torn))
    ensures var h := After(w, Destroy(torn)).pool.heap;
            && w.out == {} && h.live == {} && Distinct(h.returned)
            && |h.returned| == |w.pool.heap.returned| + |w.pool.heap.live|
            && forall b :: b in h.returned <==> b in w.pool.heap.returned || b in w.pool.heap.live
  {
    EmptiedKeeps(w.pool);
    CountBlocks(w.pool.cache);
    hide Blocks;
  }

  lemma {:induction false} CountBlocks(cache: seq<Surface>)
    requires NoBlockTwice(cache)
    ensures |Blocks(cache)| == |cache|
  {
    if cache != [] {
      BlocksOfTail(cache);
      CountBlocks(cache[1..]);
      assert Blocks(cache) == Blocks(cache[1..]) + {cache[0].block};
    }
  }

  /** A pool without blocks is created exactly if all is in order and all its blocks can be allocated; otherwise
      those that could be stay allocated though the pool cannot be destroyed. */
  lemma CreateOrLeak(w: World, n: nat, device: bool, ready: bool)
    requires Conserved(w) && !w.pool.created && w.pool.cache == [] && Allowed(w, Create(n, device, ready))
    ensures var v := After(w, Create(n, device, ready));
            && (v.pool.created <==> ready && n <= w.pool.heap.room)
            && |v.pool.heap.live| == (if v.pool.created then n else if ready then w.pool.heap.room else 0)
            && (!v.pool.created ==> forall torn :: After(v, Destroy(torn)) == v)
  {
    var p := w.pool.(fakeMapped := device);
    assert Blocks([]) == {};
    assert Conserved(World(p, w.out));
    FilledKeeps(World(p, w.out), n);
    CountBlocks(Filled(p, n).cache);
    hide Blocks;
  }

  /** What a failed attempt has left is used by a later one that succeeds, once there is memory again.  The later
      attempt sets up an allocator of its own; one heap stands for both, which is right for attempts with the same
      parameters: allocators hold no blocks themselves, and either can give back what the other has allocated. */
  lemma RetryUsesWhatWasLeft(w: World, n: nat, room: nat, device: bool)
    requires Conserved(w) && !w.pool.created && w.pool.cache == []
    requires w.pool.heap.room < n <= room && |w.pool.heap.live| + w.pool.heap.room + n < UINT32
    ensures var failed := After(w, Create(n, device, true));
            var again := After(After(failed, Room(room)), Create(n, device, true));
            && !failed.pool.created && again.pool.created && Conserved(again)
            && |again.pool.cache| == w.pool.heap.room + n == |again.pool.heap.live|
  {
    var failed := After(w, Create(n, device, true));
    AfterKeeps(w, Create(n, device, true));
    CreateOrLeak(w, n, device, true);
    AfterKeeps(failed, Room(room));
    var more := After(failed, Room(room));
    AfterKeeps(more, Create(n, device, true));
    FilledKeeps(World(w.pool.(fakeMapped := device), w.out), n);
    assert Conserved(World(more.pool.(fakeMapped := device), more.out));
    FilledKeeps(World(more.pool.(fakeMapped := device), more.out), n);
    CountBlocks(After(more, Create(n, device, true)).pool.cache);
    hide Blocks;
  }

  // ----- The class -----

  class MemPool {
    const address: nat
    var created: bool
    var cache: seq<Surface>
    var allocCount: nat
    var fakeMapped: bool
    var heap: Heap

    function Abs(): Pool
      reads this
    {
      Pool(address, created, cache, allocCount, fakeMapped, heap)
    }

    constructor (address: nat, heap: Heap)
      ensures Abs() == Pool(address, false, [], 0, false, heap)
    {
      this.address := address;
      created, cache, allocCount, fakeMapped := false, [], 0, false;
      this.heap := heap;
    }

    /** `ready` is what the checks of the parameters and the platform and the set-up of the allocator come to. */
    method Create(blocks: nat, device: bool, ready: bool) returns (ret: int)
      modifies this
      ensures forall out :: World(Abs(), out) == After(World(old(Abs()), out), Op.Create(blocks, device, ready))
      ensures ret == if old(created) || !ready || old(heap.room) < blocks then -1 else 0
    {
      if created { return -1; }
      if !ready { return -1; }
      fakeMapped := device;
      ghost var start := Abs();
      for i := 0 to blocks
        invariant !created && heap.room == old(heap.room) - i && fakeMapped == device
        invariant Filled(start, blocks) == Filled(Abs(), blocks - i)
      {
        if heap.room == 0 { return -1; }
        cache := cache + [Surface(heap.next, address, false)];
        heap := Allocated(heap);
      }
      allocCount := 0;
      created := true;
      return 0;
    }

    method Alloc() returns (ret: int, surf: Surface)
      modifies this
      ensures forall out :: World(Abs(), out + if ret == 0 then {surf.block} else {})
                            == After(World(old(Abs()), out), Op.Alloc)
      ensures ret == if old(created) && old(cache) != [] then 0 else -1
      ensures ret == 0 ==> surf == old(cache)[0]
    {
      surf := Surface(0, 0, false);
      if !created { return -1, surf; }
      if cache == [] { return -1, surf; }
      surf := cache[0];
      cache := cache[1..];
      allocCount := Incremented(allocCount);
      ret := 0;
    }

    method Free(surf: Surface) returns (ret: int)
      modifies this
      ensures forall out :: World(Abs(), if ret == 0 then out - {surf.block} else out)
                            == After(World(old(Abs()), out), Op.Free(surf))
      ensures ret == if old(created) then 0 else -1
      ensures ret == 0 ==> cache == old(cache) + [surf.(mapped := surf.mapped && !fakeMapped)]
    {
      if !created { return -1; }
      cache := cache + [if fakeMapped then surf.(mapped := false) else surf];
      allocCount := Decremented(allocCount);
      ret := 0;
    }

    /** From the point on at which `alloc_count_` has become zero; `torn` is whether the allocator can be destroyed. */
    method Destroy(torn: bool) returns (ret: int)
      requires created ==> allocCount == 0
      modifies this
      ensures forall out :: World(Abs(), out) == After(World(old(Abs()), out), Op.Destroy(torn))
      ensures ret == if old(created) && torn then 0 else -1
    {
      if !created { return -1; }
      ghost var start := Abs();
      while cache != []
        invariant created && Emptied(start) == Emptied(Abs())
        decreases |cache|
      {
        var surf := cache[0];
        cache := cache[1..];
        heap := Returned(heap, surf.block);
      }
      if !torn { return -1; }
      allocCount := 0;
      created := false;
      ret := 0;
    }
  }
}
