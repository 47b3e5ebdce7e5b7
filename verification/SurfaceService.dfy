/** `BufSurfaceService`: the descriptors through which clients hold the surfaces of pools, and those of none. */
module SurfaceServices {
  import opened Sequences
  import opened Options
  import opened MemPools

  /** k_surfs_num_ */
  const DESCRIPTORS: nat := 0x4_0000

  /** Addresses count in descriptors; 0 is the null pointer. */
  function Range(start: nat, n: nat): (r: set<nat>)
    ensures forall d: nat :: d in r <==> start <= d < start + n
  {
    if n == 0 then {} else Range(start, n - 1) + {start + n - 1}
  }

  /** The blocks that clients hold of the pool at address `a`; for 0, of no pool. */
  ghost function Held(content: map<nat, Surface>, a: nat): set<nat> {
    set d | d in content && content[d].owner == a :: content[d].block
  }

  ghost predicate OneDescriptorEach(content: map<nat, Surface>, a: nat) {
    forall d, e :: d in content && e in content && d != e && content[d].owner == a == content[e].owner ==>
      content[d].block != content[e].block
  }

  /** What clients hold of `pool` is what it has handed out. */
  ghost predicate Backed(content: map<nat, Surface>, pool: Pool) {
    OneDescriptorEach(content, pool.address) && Conserved(World(pool, Held(content, pool.address)))
  }

  /** A block of the pool that is about to be put under a descriptor, or was just taken from one. */
  ghost predicate Pending(content: map<nat, Surface>, s: Surface, pool: Pool) {
    && s.owner == pool.address && s.block !in Held(content, s.owner) && OneDescriptorEach(content, s.owner)
    && Conserved(World(pool, Held(content, s.owner) + {s.block}))
  }

  lemma HeldGrows(content: map<nat, Surface>, d: nat, s: Surface)
    requires d !in content && OneDescriptorEach(content, s.owner) && s.block !in Held(content, s.owner)
    ensures OneDescriptorEach(content[d := s], s.owner)
    ensures Held(content[d := s], s.owner) == Held(content, s.owner) + {s.block}
  {
    var more := content[d := s];
    forall b ensures b in Held(more, s.owner) <==> b in Held(content, s.owner) + {s.block} {
      if b in Held(content, s.owner) {
        var e :| e in content && content[e].owner == s.owner && content[e].block == b;
        assert more[e].block == b;
      }
      assert more[d].block == s.block;
    }
    forall e | e in content && content[e].owner == s.owner ensures content[e].block != s.block { }
  }

  lemma HeldShrinks(content: map<nat, Surface>, d: nat)
    requires d in content && OneDescriptorEach(content, content[d].owner)
    ensures OneDescriptorEach(content - {d}, content[d].owner)
    ensures Held(content - {d}, content[d].owner) == Held(content, content[d].owner) - {content[d].block}
    ensures content[d].block in Held(content, content[d].owner)
  {
    var less, a := content - {d}, content[d].owner;
    forall b ensures b in Held(less, a) <==> b in Held(content, a) - {content[d].block} {
      if b in Held(content, a) && b != content[d].block {
        var e :| e in content && content[e].owner == a && content[e].block == b;
        assert less[e].block == b;
      }
    }
  }

  lemma PendingGrows(content: map<nat, Surface>, d: nat, s: Surface, pool: Pool)
    requires Pending(content, s, pool) && d !in content
    ensures Backed(content[d := s], pool)
  {
    HeldGrows(content, d, s);
  }

  lemma PendingShrinks(content: map<nat, Surface>, d: nat, pool: Pool)
    requires Backed(content, pool) && d in content && content[d].owner == pool.address
    ensures Pending(content - {d}, content[d], pool)
  {
    HeldShrinks(content, d);
    assert Held(content, pool.address) == Held(content - {d}, pool.address) + {content[d].block};
  }

  lemma NothingHeld(content: map<nat, Surface>, pool: Pool)
    requires forall d :: d in content ==> content[d].owner != pool.address
    ensures Backed(content, pool) <==> Conserved(World(pool, {}))
  {
    assert Held(content, pool.address) == {};
  }

  lemma BackedIfCreated(content: map<nat, Surface>, pool: Pool, d: nat)
    requires Backed(content, pool) && d in content && content[d].owner == pool.address
    ensures pool.created && pool.count > 0
  {
    var out := Held(content, pool.address);
    assert content[d].block in out;
    assert |out| > 0;
  }

  lemma DestroyedStaysBacked(content: map<nat, Surface>, pool: Pool, torn: bool)
    requires Backed(content, pool) && (pool.created ==> pool.count == 0)
    ensures Backed(content, After(World(pool, Held(content, pool.address)), Op.Destroy(torn)).pool)
  {
    AfterKeeps(World(pool, Held(content, pool.address)), Op.Destroy(torn));
    EmptiedAddress(pool);
  }

  /** What Create makes of a pool that has no blocks. */
  lemma CreatedIsBacked(content: map<nat, Surface>, pool: Pool, blocks: nat, device: bool, ready: bool)
    requires forall d :: d in content ==> content[d].owner != pool.address
    requires blocks < UINT32 && pool == MemPools.Pool(pool.address, false, [], 0, false, pool.heap)
    requires pool.heap.live == {} && pool.heap.returned == []
    ensures var v := After(World(pool, {}), Op.Create(blocks, device, ready));
            Backed(content, v.pool) && (v.pool.created ==> |v.pool.cache| == blocks && v.pool.fakeMapped == device)
  {
    var w := World(pool, {});
    assert Conserved(w) && |pool.heap.live| == 0;
    AfterKeeps(w, Op.Create(blocks, device, ready));
    FilledKeeps(World(pool.(fakeMapped := device), {}), blocks);
    FilledAddress(pool.(fakeMapped := device), blocks);
    NothingHeld(content, After(w, Op.Create(blocks, device, ready)).pool);
  }

  lemma TakenIsPending(content: map<nat, Surface>, pool: Pool)
    requires Backed(content, pool) && pool.created && pool.cache != []
    ensures Pending(content, pool.cache[0], After(World(pool, {}), Alloc).pool)
  {
    var out := Held(content, pool.address);
    AllocKeeps(World(pool, out));
    BalancedTake(pool.cache, out, pool.heap.live);
  }

  lemma GivenIsBacked(content: map<nat, Surface>, s: Surface, pool: Pool)
    requires Pending(content, s, pool)
    ensures pool.created && Backed(content, After(World(pool, {}), Free(s)).pool)
  {
    var out := Held(content, s.owner);
    FreeKeeps(World(pool, out + {s.block}), s);
    assert |out + {s.block}| > 0 by { assert s.block in out + {s.block}; }
    assert out + {s.block} - {s.block} == out;
  }

  /** Descriptors that come or go matter to the pool they belong to only. */
  lemma OthersStayBacked(content: map<nat, Surface>, more: map<nat, Surface>, d: nat, pool: Pool)
    requires d !in content && d in more && content == more - {d} && more[d].owner != pool.address
    ensures Backed(content, pool) <==> Backed(more, pool)
  {
    hide Conserved;
    forall e | e in content ensures more[e] == content[e] { }
    forall b ensures b in Held(more, pool.address) <==> b in Held(content, pool.address) {
      if b in Held(content, pool.address) {
        var e :| e in content && content[e].owner == pool.address && content[e].block == b;
        assert more[e].block == b;
      }
    }
    assert Held(more, pool.address) == Held(content, pool.address);
  }

  /** No descriptor is free and in use, or free twice, and those of the array are all accounted for. */
  ghost predicate Kept(initialized: bool, start: nat, free: seq<nat>, inUse: set<nat>) {
    && Distinct(free) && Elements(free) !! inUse && 0 !in inUse
    && (if initialized then
          && start > 0 && Range(start, DESCRIPTORS) <= Elements(free) + inUse
          && Elements(free) <= Range(start, DESCRIPTORS)
        else free == [] && start == 0)
  }

  /** What malloc may return: no memory, or memory that is not in use. */
  ghost predicate Unused(start: nat, n: nat, inUse: set<nat>) {
    start == 0 || Range(start, n) !! inUse
  }

  lemma TakeFirst(start: nat, free: seq<nat>, inUse: set<nat>)
    requires Kept(true, start, free, inUse) && free != []
    ensures free[0] > 0 && free[0] !in inUse && Kept(true, start, free[1..], inUse + {free[0]})
  {
    assert free[0] in Elements(free);
    assert Elements(free) == Elements(free[1..]) + {free[0]};
    assert free[0] !in free[1..];
  }

  lemma GiveBack(start: nat, free: seq<nat>, inUse: set<nat>, d: nat)
    requires Kept(true, start, free, inUse) && d in inUse && d in Range(start, DESCRIPTORS)
    ensures Kept(true, start, free + [d], inUse - {d})
  {
    assert Elements(free + [d]) == Elements(free) + {d};
    assert d !in free by { assert d !in Elements(free); }
  }

  lemma AddOne(free: seq<nat>, start: nat, i: nat)
    requires Distinct(free) && Elements(free) == Range(start, i)
    ensures Distinct(free + [start + i]) && Elements(free + [start + i]) == Range(start, i + 1)
  {
    assert Elements(free + [start + i]) == Elements(free) + {start + i};
    forall k | 0 <= k < |free| ensures free[k] != start + i { assert free[k] in Elements(free); }
  }

  lemma OthersStayApart(content: map<nat, Surface>, more: map<nat, Surface>, d: nat)
    requires d !in content && d in more && content == more - {d} && more[d].owner != 0
    ensures OneDescriptorEach(content, 0) <==> OneDescriptorEach(more, 0)
  {
    forall e | e in content ensures more[e] == content[e] { }
  }

  lemma OthersAllStayBacked(content: map<nat, Surface>, more: map<nat, Surface>, d: nat, memory: map<nat, MemPool>)
    requires d !in content && d in more && content == more - {d}
    ensures forall b :: b in memory && more[d].owner != memory[b].address ==>
      (Backed(content, memory[b].Abs()) <==> Backed(more, memory[b].Abs()))
    ensures more[d].owner != 0 ==> (OneDescriptorEach(content, 0) <==> OneDescriptorEach(more, 0))
  {
    if more[d].owner != 0 { OthersStayApart(content, more, d); }
    hide OneDescriptorEach;
    hide Backed;
    forall b | b in memory && more[d].owner != memory[b].address
      ensures Backed(content, memory[b].Abs()) <==> Backed(more, memory[b].Abs())
    {
      OthersStayBacked(content, more, d, memory[b].Abs());
    }
  }

  lemma PutUnder(content: map<nat, Surface>, d: nat, s: Surface, memory: map<nat, MemPool>)
    requires d !in content && s.owner in memory && s.owner > 0 && OneDescriptorEach(content, 0)
    requires Pending(content, s, memory[s.owner].Abs())
    requires forall b :: b in memory ==> memory[b].address == b && (b != s.owner ==> Backed(content, memory[b].Abs()))
    ensures forall b :: b in memory ==> Backed(content[d := s], memory[b].Abs())
    ensures content[d := s].Keys == content.Keys + {d} && OneDescriptorEach(content[d := s], 0)
  {
    hide OneDescriptorEach;
    hide Backed;
    hide Pending;
    PendingGrows(content, d, s, memory[s.owner].Abs());
    assert content == content[d := s] - {d};
    OthersAllStayBacked(content, content[d := s], d, memory);
  }

  class SurfaceService {
    var initialized: bool
    var start: nat
    var free: seq<nat>
    var content: map<nat, Surface>  // the descriptors in use, and what is written in them

    ghost predicate Valid()
      reads this
    {
      Kept(initialized, start, free, content.Keys)
    }

    /** `memory` has the pools at their addresses, each descriptor in use belongs to one of them or to none,
        and what clients hold of each pool is what it has handed out. */
    ghost predicate Serves(memory: map<nat, MemPool>)
      reads this, memory.Values
    {
      && OneDescriptorEach(content, 0)
      && (forall a :: a in memory ==> a > 0 && memory[a].address == a && Backed(content, memory[a].Abs()))
      && forall d :: d in content ==> content[d].owner == 0 || content[d].owner in memory
    }

    constructor ()
      ensures Valid() && content == map[]
    {
      initialized, start, free, content := false, 0, [], map[];
    }

    /** CreateSurfsPool; `base` is what malloc returns for the array. */
    method CreateSurfsPool(base: nat)
      requires Valid() && Unused(base, DESCRIPTORS, content.Keys)
      modifies this
      ensures Valid() && content == old(content)
      ensures initialized == (old(initialized) || base > 0) && (!old(initialized) && base > 0 ==> start == base)
      ensures old(initialized) ==> start == old(start) && free == old(free)
      ensures !old(initialized) && base > 0 ==>
        |free| == DESCRIPTORS && forall i :: 0 <= i < DESCRIPTORS ==> free[i] == base + i
    {
      if initialized { return; }
      if base == 0 { return; }
      start := base;
      for i := 0 to DESCRIPTORS
        invariant start == base && content == old(content) && !initialized
        invariant Distinct(free) && Elements(free) == Range(base, i)
        invariant |free| == i && forall k :: 0 <= k < i ==> free[k] == base + k
      {
        AddOne(free, base, i);
        free := free + [base + i];
      }
      initialized := true;
    }

    /** AllocSurface; `single` is what malloc returns for one descriptor. */
    method AllocSurface(base: nat, single: nat) returns (res: nat)
      requires Valid() && Unused(base, DESCRIPTORS, content.Keys) && Unused(single, 1, content.Keys)
      requires single > 0 ==>
        single !in if initialized then Range(start, DESCRIPTORS) else if base > 0 then Range(base, DESCRIPTORS) else {}
      modifies this
      ensures content == old(content)
      ensures if res == 0 then Valid() && single == 0
              else res !in content && Kept(initialized, start, free, content.Keys + {res})
      ensures old(free) != [] ==> res == old(free)[0] && free == old(free)[1..]
      ensures old(free) == [] ==> res == if !old(initialized) && base > 0 then base else single
    {
      if !initialized { CreateSurfsPool(base); }
      if free != [] {
        TakeFirst(start, free, content.Keys);
        res := free[0];
        free := free[1..];
        return;
      }
      assert Elements(free) == {};
      return single;
    }

    /** FreeSurface; says whether the descriptor went back to malloc's heap. */
    method FreeSurface(surf: nat) returns (toHeap: bool)
      requires Valid() && surf in content
      modifies this
      ensures Valid() && content == old(content) - {surf}
      ensures toHeap <==> !(initialized && start <= surf < start + DESCRIPTORS)
      ensures free == if toHeap then old(free) else old(free) + [surf]
    {
      var end := if initialized then start + DESCRIPTORS - 1 else 0;
      if start <= surf <= end {
        GiveBack(start, free, content.Keys, surf);
        free := free + [surf];
        content := content - {surf};
        return false;
      }
      content := content - {surf};
      return true;
    }

    /** BufPoolCreate; `a` is where the new MemPool is, and `heap` what its allocator draws from. */
    method BufPoolCreate(memory: map<nat, MemPool>, a: nat, heap: Heap, blocks: nat, device: bool, ready: bool)
        returns (ret: int, after: map<nat, MemPool>)
      requires Valid() && Serves(memory) && a > 0 && a !in memory && blocks < UINT32
      requires heap.live == {} && heap.returned == []
      ensures Serves(after)
      ensures ret == if 0 < blocks <= heap.room && ready then 0 else -1
      ensures ret == 0 ==> a in after && fresh(after[a]) && after == memory[a := after[a]] &&
                           after[a].created && |after[a].cache| == blocks && after[a].fakeMapped == device
      ensures ret != 0 ==> after == memory
    {
      hide Backed;
      hide Pending;
      hide Held;
      hide OneDescriptorEach;
      hide Kept;
      hide Range;
      after := memory;
      if blocks == 0 { return -1, after; }
      var pool := new MemPool(a, heap);
      CreatedIsBacked(content, pool.Abs(), blocks, device, ready);
      ret := pool.Create(blocks, device, ready);
      if ret == 0 { after := memory[a := pool]; }
    }

    /** BufPoolDestroy, from the point on at which all blocks of the pool have come back.  No descriptor in use
        is left without its pool. */
    method BufPoolDestroy(memory: map<nat, MemPool>, a: nat, torn: bool) returns (ret: int, after: map<nat, MemPool>)
      requires Valid() && Serves(memory) && (a == 0 || a in memory)
      requires a > 0 && memory[a].created ==> memory[a].allocCount == 0
      modifies if a == 0 then {} else {memory[a]}
      ensures Serves(after) && after == (if ret == 0 then memory - {a} else memory)
      ensures ret == if a > 0 && old(memory[a].created) && torn then 0 else -1
      ensures a > 0 && old(memory[a].created) ==> forall d :: d in content ==> content[d].owner != a
    {
      hide Backed;
      hide Pending;
      hide Held;
      hide OneDescriptorEach;
      hide Kept;
      hide Range;
      after := memory;
      if a == 0 { return -1, after; }
      var pool := memory[a];
      DestroyedStaysBacked(content, pool.Abs(), torn);
      forall d | d in content && pool.created ensures content[d].owner != a {
        if content[d].owner == a { BackedIfCreated(content, pool.Abs(), d); }
      }
      ret := pool.Destroy(torn);
      if ret == 0 { after := memory - {a}; }
    }

    /** CreateFromPool: a block of the pool at `a` under a descriptor of its own, or nothing changes hands.
        No other pool changes. */
    method CreateFromPool(memory: map<nat, MemPool>, a: nat, base: nat, single: nat) returns (ret: int, surf: nat)
      requires Valid() && Serves(memory) && (a == 0 || a in memory)
      requires Unused(base, DESCRIPTORS, content.Keys) && Unused(single, 1, content.Keys)
      requires single > 0 ==>
        single !in if initialized then Range(start, DESCRIPTORS) else if base > 0 then Range(base, DESCRIPTORS) else {}
      modifies this, if a == 0 then {} else {memory[a]}
      ensures Valid() && Serves(memory)
      ensures ret == 0 ==>
        && a > 0 && memory[a].heap == old(memory[a].heap) && surf > 0 && surf !in old(content)
        && old(memory[a].cache) != [] && memory[a].cache == old(memory[a].cache[1..])
        && content == old(content)[surf := old(memory[a].cache[0])]
      ensures ret != 0 ==> ret == -1 && content == old(content)
      ensures ret != 0 && a > 0 ==> memory[a].heap == old(memory[a].heap) && |memory[a].cache| == old(|memory[a].cache|)
      ensures a > 0 && old(memory[a].created && memory[a].cache != []) && single > 0 ==> ret == 0
    {
      hide Backed;
      hide Pending;
      hide Held;
      hide OneDescriptorEach;
      hide Kept;
      hide Range;
      hide Unused;
      surf := 0;
      if a == 0 { return -1, surf; }
      var pool := memory[a];
      var got, surface := Take(content, pool);
      if got < 0 { return -1, surf; }
      surf := AllocSurface(base, single);
      if surf == 0 {
        var _ := Give(content, surface, pool);
        return -1, surf;
      }
      PutUnder(content, surf, surface, memory);
      content := content[surf := surface];
      ret := 0;
    }

    /** Create: a surface of its own; `made` is what CreateSurface comes to.  `undone`: it was destroyed again. */
    method Create(memory: map<nat, MemPool>, made: Option<nat>, base: nat, single: nat)
        returns (ret: int, surf: nat, undone: bool)
      requires Valid() && Serves(memory)
      requires made.Some? ==> made.value !in Held(content, 0)
      requires Unused(base, DESCRIPTORS, content.Keys) && Unused(single, 1, content.Keys)
      requires single > 0 ==>
        single !in if initialized then Range(start, DESCRIPTORS) else if base > 0 then Range(base, DESCRIPTORS) else {}
      modifies this
      ensures Valid() && Serves(memory)
      ensures ret == 0 ==>
        && made.Some? && surf > 0 && surf !in old(content) && !undone
        && content == old(content)[surf := Surface(made.value, 0, false)]
        && Held(content, 0) == old(Held(content, 0)) + {made.value}
      ensures ret != 0 ==> ret == -1 && content == old(content) && undone == made.Some?
      ensures made.Some? && single > 0 ==> ret == 0
    {
      hide Backed;
      hide Pending;
      hide Held;
      hide OneDescriptorEach;
      hide Kept;
      hide Range;
      surf, undone := 0, false;
      if made.None? { return -1, surf, undone; }
      surf := AllocSurface(base, single);
      if surf == 0 { return -1, surf, true; }
      HeldGrows(content, surf, Surface(made.value, 0, false));
      content := content[surf := Surface(made.value, 0, false)];
      assert content.Keys == old(content).Keys + {surf};
      assert old(content) == content - {surf};
      ret := 0;
      OthersAllStayBacked(old(content), content, surf, memory);
    }

    static method Take(ghost content: map<nat, Surface>, pool: MemPool) returns (ret: int, surface: Surface)
      requires Backed(content, pool.Abs())
      modifies pool
      ensures ret == 0 || (ret == -1 && pool.Abs() == old(pool.Abs()))
      ensures ret == 0 <==> old(pool.created) && old(pool.cache) != []
      ensures ret == 0 ==>
        && surface == old(pool.cache)[0] && pool.cache == old(pool.cache)[1..] && pool.heap == old(pool.heap)
        && surface.owner == pool.address && Pending(content, surface, pool.Abs())
    {
      if pool.created && pool.cache != [] { TakenIsPending(content, pool.Abs()); }
      hide Backed;
      hide Pending;
      ret, surface := pool.Alloc();
      assert World(pool.Abs(), {} + if ret == 0 then {surface.block} else {})
          == After(World(old(pool.Abs()), {}), Alloc);
    }

    static method Give(ghost content: map<nat, Surface>, surface: Surface, pool: MemPool) returns (ret: int)
      requires Pending(content, surface, pool.Abs())
      modifies pool
      ensures ret == 0 && Backed(content, pool.Abs()) && pool.heap == old(pool.heap)
      ensures pool.Abs() == After(World(old(pool.Abs()), {}), Free(surface)).pool
      ensures |pool.cache| == |old(pool.cache)| + 1
    {
      GivenIsBacked(content, surface, pool.Abs());
      hide Backed;
      hide Pending;
      ret := pool.Free(surface);
      assert World(pool.Abs(), {} - {surface.block}) == After(World(old(pool.Abs()), {}), Free(surface));
    }

    /** Destroy: the block goes back to the pool that the descriptor names, and only that pool changes;
        `freed` is whether DestroySurface succeeds with a surface of no pool. */
    method Destroy(memory: map<nat, MemPool>, surf: nat, freed: bool) returns (ret: int)
      requires Valid() && Serves(memory) && (surf == 0 || surf in content)
      modifies this, if surf == 0 || content[surf].owner == 0 then {} else {memory[content[surf].owner]}
      ensures Valid() && Serves(memory) && content == old(content) - {surf}
      ensures ret == if surf == 0 || (old(content)[surf].owner == 0 && !freed) then -1 else 0
      ensures surf > 0 ==> var s := old(content)[surf];
        && (s.owner == 0 ==> Held(content, 0) == Held(old(content), 0) - {s.block})
        && (s.owner > 0 ==> memory[s.owner].Abs() == After(World(old(memory[s.owner].Abs()), {}), Free(s)).pool)
    {
      assert 0 !in content;
      hide Backed;
      hide Held;
      hide OneDescriptorEach;
      hide Kept;
      hide After;
      if surf == 0 {
        ret := -1;
      } else if content[surf].owner > 0 {
        ret := DestroyPooled(memory, surf);
      } else {
        ret := DestroyOwn(memory, surf, freed);
      }
    }

    method DestroyPooled(memory: map<nat, MemPool>, surf: nat) returns (ret: int)
      requires Valid() && Serves(memory) && surf in content && content[surf].owner > 0
      modifies this, memory[content[surf].owner]
      ensures Valid() && Serves(memory) && content == old(content) - {surf} && ret == 0
      ensures var a := old(content)[surf].owner;
        memory[a].Abs() == After(World(old(memory[a].Abs()), {}), Free(old(content)[surf])).pool
    {
      hide Backed;
      hide Pending;
      hide Kept;
      hide After;
      var surface := content[surf];
      var pool := memory[surface.owner];
      PendingShrinks(content, surf, pool.Abs());
      OthersAllStayBacked(content - {surf}, content, surf, memory);
      ret := Give(content - {surf}, surface, pool);
      var _ := FreeSurface(surf);
    }

    method DestroyOwn(memory: map<nat, MemPool>, surf: nat, freed: bool) returns (ret: int)
      requires Valid() && Serves(memory) && surf in content && content[surf].owner == 0
      modifies this
      ensures Valid() && Serves(memory) && content == old(content) - {surf} && ret == if freed then 0 else -1
      ensures Held(content, 0) == Held(old(content), 0) - {old(content)[surf].block}
    {
      hide Backed;
      hide Held;
      hide OneDescriptorEach;
      hide Kept;
      HeldShrinks(content, surf);
      OthersAllStayBacked(content - {surf}, content, surf, memory);
      ret := if freed then 0 else -1;
      var _ := FreeSurface(surf);
    }
  }
}
