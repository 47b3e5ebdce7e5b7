/** The 64-bit masks of modules, and the sets of modules that `FrameFlow` computes with instead. */
module ModuleMasks {

  /** Bit `i` of a mask. */
  predicate Has(m: bv64, i: bv64)
    requires i < 64
  {
    m & (1 << i) != 0
  }

  /** `mask | (uint64_t)1 << id` */
  function SetBit(m: bv64, i: bv64): bv64
    requires i < 64
  {
    m | (1 << i)
  }

  lemma HasOr(m: bv64, i: bv64, j: bv64)
    requires i < 64 && j < 64
    ensures Has(m | (1 << i), j) <==> i == j || Has(m, j)
  {
  }

  lemma HasSet(m: bv64, i: bv64, j: bv64)
    requires i < 64 && j < 64
    ensures Has(SetBit(m, i), j) <==> i == j || Has(m, j)
  {
    hide Has;
    HasOr(m, i, j);
  }

  lemma HasAnd(a: bv64, b: bv64, j: bv64)
    requires j < 64
    ensures Has(a & b, j) <==> Has(a, j) && Has(b, j)
  {
  }

  lemma HasXor(a: bv64, b: bv64, j: bv64)
    requires j < 64
    ensures Has(a ^ b, j) <==> Has(a, j) != Has(b, j)
  {
  }

  function Lower(m: bv64, j: bv64): bv64
    requires j < 64
  {
    m & ((1 << j) - 1)
  }

  lemma LowerStep(m: bv64, j: bv64)
    requires j < 63 && Lower(m, j) == 0 && !Has(m, j)
    ensures Lower(m, j + 1) == 0
  {
  }

  lemma LowerLast(m: bv64)
    requires Lower(m, 63) == 0 && !Has(m, 63)
    ensures m == 0
  {
  }

  /** A mask that is not zero has a bit. */
  lemma {:induction false} SomeBit(m: bv64) returns (j: bv64)
    requires m != 0
    ensures j < 64 && Has(m, j)
  {
    assert Lower(m, 0) == 0;
    j := 0;
    hide Has;
    hide SetBit;
    hide Lower;
    while j < 63 && !Has(m, j)
      invariant j <= 63 && Lower(m, j) == 0
      decreases 63 - j
    {
      LowerStep(m, j);
      j := j + 1;
    }
    if !Has(m, j) { LowerLast(m); }
  }

  lemma XorZero(a: bv64, b: bv64)
    requires a ^ b == 0
    ensures a == b
  {
  }

  lemma SameBits(a: bv64, b: bv64)
    requires forall j: bv64 :: j < 64 ==> (Has(a, j) <==> Has(b, j))
    ensures a == b
  {
    hide Has;
    hide SetBit;
    if a ^ b == 0 {
      XorZero(a, b);
    } else {
      var j := SomeBit(a ^ b);
      HasXor(a, b, j);
    }
  }

  // ----- Masks as sets -----

  predicate Ids(ids: seq<bv64>) {
    && (forall k :: 0 <= k < |ids| ==> ids[k] < 64)
    && (forall i, k :: 0 <= i < k < |ids| ==> ids[i] != ids[k])
  }

  /** Mask `m` stands for the set `s` of modules, module `k` having the id `ids[k]`. */
  ghost predicate Stands(ids: seq<bv64>, m: bv64, s: set<nat>) {
    && Ids(ids)
    && (forall k :: k in s ==> k < |ids|)
    && (forall k: nat :: k < |ids| ==> (Has(m, ids[k]) <==> k in s))
    && (forall j: bv64 :: j < 64 && Has(m, j) ==> j in ids)
  }

  lemma ZeroStands(ids: seq<bv64>)
    requires Ids(ids)
    ensures Stands(ids, 0, {})
  {
    forall j: bv64 | j < 64 ensures !Has(0, j) { }
  }

  /** `mask |= 1 << id` */
  lemma OrStands(ids: seq<bv64>, m: bv64, s: set<nat>, k: nat)
    requires Stands(ids, m, s) && k < |ids|
    ensures Stands(ids, SetBit(m, ids[k]), s + {k})
  {
    hide Has;
    hide SetBit;
    var m' := SetBit(m, ids[k]);
    forall i: nat | i < |ids| ensures Has(m', ids[i]) <==> i in s + {k} { HasSet(m, ids[k], ids[i]); }
    forall j: bv64 | j < 64 && Has(m', j) ensures j in ids { HasSet(m, ids[k], j); }
  }

  lemma SetOfMask(ids: seq<bv64>, m: bv64, s: set<nat>, j: bv64)
    requires Stands(ids, m, s) && j < 64
    ensures Has(m, j) <==> exists k: nat :: k < |ids| && ids[k] == j && k in s
  {
  }

  /** PassedByAllParentNodes: `(mask & parents) == parents` */
  lemma SubsetStands(ids: seq<bv64>, m: bv64, s: set<nat>, p: bv64, ps: set<nat>)
    requires Stands(ids, m, s) && Stands(ids, p, ps)
    ensures m & p == p <==> ps <= s
  {
    if m & p == p {
      forall k | k in ps ensures k in s { HasAnd(m, p, ids[k]); }
    }
    if ps <= s {
      forall j: bv64 | j < 64 ensures Has(m & p, j) <==> Has(p, j) {
        HasAnd(m, p, j);
        SetOfMask(ids, m, s, j);
        SetOfMask(ids, p, ps, j);
      }
      SameBits(m & p, p);
    }
  }

  /** PassedByAllModules, and the test for a head: masks are equal exactly if the sets are. */
  lemma EqualStands(ids: seq<bv64>, a: bv64, s: set<nat>, b: bv64, t: set<nat>)
    requires Stands(ids, a, s) && Stands(ids, b, t)
    ensures a == b <==> s == t
  {
    if s == t {
      forall j: bv64 | j < 64 ensures Has(a, j) <==> Has(b, j) {
        SetOfMask(ids, a, s, j);
        SetOfMask(ids, b, t, j);
      }
      SameBits(a, b);
    } else if a == b {
      forall k: nat ensures k in s <==> k in t {
        assert k < |ids| ==> (k in s <==> Has(a, ids[k]));
      }
    }
  }

  /** `all_modules_mask_ ^ route_mask` */
  lemma XorStands(ids: seq<bv64>, a: bv64, s: set<nat>, r: bv64, t: set<nat>)
    requires Stands(ids, a, s) && Stands(ids, r, t) && t <= s
    ensures Stands(ids, a ^ r, s - t)
  {
    forall j: bv64 | j < 64 ensures Has(a ^ r, j) <==> Has(a, j) != Has(r, j) { HasXor(a, r, j); }
    hide Has;
    hide SetBit;
  }

  // ----- Giving out ids -----

  const MAX_MODULES: bv64 := 64
  const INVALID_ID: bv64 := 0xFFFF_FFFF_FFFF_FFFF

  ghost predicate TakenBelow(m: bv64, i: bv64)
    requires i <= 64
  {
    forall j: bv64 :: j < i ==> Has(m, j)
  }

  lemma BelowNext(i: bv64, j: bv64)
    requires i < 64 && j < i + 1 && j != i
    ensures j < i
  {
  }

  lemma TakenNext(m: bv64, i: bv64)
    requires i < 64 && TakenBelow(m, i) && Has(m, i)
    ensures TakenBelow(m, i + 1)
  {
    hide Has;
    hide SetBit;
    forall j: bv64 | j < i + 1 ensures Has(m, j) {
      if j != i { BelowNext(i, j); }
    }
  }

  function Bit(i: bv64): bv64
    requires i < 64
  {
    1 << i
  }

  function ClearBit(m: bv64, i: bv64): bv64
    requires i < 64
  {
    Without(m, Bit(i))
  }

  function Without(m: bv64, b: bv64): bv64 { m & !b }

  /** `mask & ~(1 << id)` where the shift is done on int: for 31 the sign bit is set, and its complement has no
      bit from 31 on; beyond that the shift is undefined, and `undefined` is what comes of it. */
  function Returned(m: bv64, id: bv64, undefined: bv64): bv64 {
    if id >= 64 then m
    else if id < 31 then ClearBit(m, id)
    else if id == 31 then m & 0x7FFF_FFFF
    else undefined
  }

  lemma HasReturned(m: bv64, id: bv64, undefined: bv64, j: bv64)
    requires id < 32 && j < 64
    ensures Has(Returned(m, id, undefined), j) <==> Has(m, j) && if id < 31 then j != id else j < 31
  {
    if id < 31 { HasClear(m, id, j); } else { HasLow(m, j); }
  }

  lemma HasClear(m: bv64, i: bv64, j: bv64)
    requires i < 64 && j < 64
    ensures Has(ClearBit(m, i), j) <==> Has(m, j) && i != j
  {
    hide Has;
    hide Bit;
    hide Without;
    HasWithout(m, Bit(i), j);
    HasOne(i, j);
  }

  lemma HasWithout(m: bv64, b: bv64, j: bv64)
    requires j < 64
    ensures Has(Without(m, b), j) <==> Has(m, j) && !Has(b, j)
  {
    hide Has;
    WithoutIsXor(m, b);
    hide Without;
    HasXor(m, m & b, j);
    HasAnd(m, b, j);
  }

  lemma WithoutIsXor(m: bv64, b: bv64)
    ensures Without(m, b) == m ^ (m & b)
  {
  }

  lemma HasOne(i: bv64, j: bv64)
    requires i < 64 && j < 64
    ensures Has(Bit(i), j) <==> i == j
  {
  }

  lemma HasLow(m: bv64, j: bv64)
    requires j < 64
    ensures Has(m & 0x7FFF_FFFF, j) <==> Has(m, j) && j < 31
  {
  }

  ghost predicate FreesOnly(m: bv64, id: bv64, after: bv64) {
    forall j: bv64 :: j < 64 ==> (Has(after, j) <==> Has(m, j) && j != id)
  }

  ghost predicate NoneAbove31(m: bv64) {
    forall j: bv64 :: 31 < j < 64 ==> !Has(m, j)
  }

  lemma ReturnsOneBelow(m: bv64, id: bv64, undefined: bv64)
    requires id < 31
    ensures FreesOnly(m, id, Returned(m, id, undefined))
  {
    hide Has;
    hide Returned;
    forall j: bv64 | j < 64 ensures Has(Returned(m, id, undefined), j) <==> Has(m, j) && j != id {
      HasReturned(m, id, undefined, j);
    }
  }

  lemma ReturnsAt31(m: bv64, undefined: bv64, j: bv64)
    requires j < 64
    ensures Has(Returned(m, 31, undefined), j) <==> Has(m, j) && j < 31
    ensures j < 31 || j == 31 || 31 < j
  {
    HasReturned(m, 31, undefined, j);
    Above(j);
  }

  lemma ReturnsOneAt31(m: bv64, undefined: bv64)
    ensures FreesOnly(m, 31, Returned(m, 31, undefined)) <==> NoneAbove31(m)
  {
    hide Has;
    hide Returned;
    var after := Returned(m, 31, undefined);
    if FreesOnly(m, 31, after) {
      forall j: bv64 | 31 < j < 64 ensures !Has(m, j) { ReturnsAt31(m, undefined, j); }
    }
    if NoneAbove31(m) {
      forall j: bv64 | j < 64 ensures Has(after, j) <==> Has(m, j) && j != 31 { ReturnsAt31(m, undefined, j); }
    }
  }

  /** Returning an id frees that id and no other exactly if it is below 31, or if it is 31 and none above is taken. */
  lemma ReturnsOneIff(m: bv64, id: bv64, undefined: bv64)
    requires id < 32
    ensures FreesOnly(m, id, Returned(m, id, undefined)) <==> id < 31 || NoneAbove31(m)
  {
    hide Has;
    hide Returned;
    hide FreesOnly;
    hide NoneAbove31;
    Above(id);
    if id < 31 { ReturnsOneBelow(m, id, undefined); } else { ReturnsOneAt31(m, undefined); }
  }

  lemma Above(j: bv64)
    ensures j < 31 || j == 31 || 31 < j
  {
  }

  /** With 41 ids given out, the return of id 31 frees id 40, which its module still has. */
  lemma ReturnFreesAnother()
    ensures var m: bv64 := 0x1FF_FFFF_FFFF;
            TakenBelow(m, 41) && !Has(Returned(m, 31, 0), 40) && !FreesOnly(m, 31, Returned(m, 31, 0))
  {
    var m: bv64 := 0x1FF_FFFF_FFFF;
    forall j: bv64 | j < 41 ensures Has(m, j) { }
    assert !Has(Returned(m, 31, 0), 40);
  }

  /** The part of `IdxManager` that numbers modules. */
  class ModuleIdx {
    var mask: bv64

    constructor ()
      ensures mask == 0
    {
      mask := 0;
    }

    /** The lowest id that is free, or none when all 64 are taken. */
    method GetModuleIdx() returns (id: bv64)
      modifies this
      ensures if id < 64 then !Has(old(mask), id) && TakenBelow(old(mask), id) && mask == SetBit(old(mask), id)
              else id == INVALID_ID && TakenBelow(mask, 64) && mask == old(mask)
    {
      var i: bv64 := 0;
      while i < MAX_MODULES
        invariant i <= 64 && TakenBelow(mask, i) && mask == old(mask)
        decreases 64 - i
      {
        if !Has(mask, i) {
          mask := SetBit(mask, i);
          return i;
        }
        TakenNext(mask, i);
        i := i + 1;
      }
      id := INVALID_ID;
    }

    method ReturnModuleIdx(id: bv64, undefined: bv64)
      modifies this
      ensures mask == Returned(old(mask), id, undefined)
      ensures id < 32 ==> (FreesOnly(old(mask), id, mask) <==> id < 31 || NoneAbove31(old(mask)))
      ensures id >= 64 ==> mask == old(mask)
    {
      if id < 32 { ReturnsOneIff(mask, id, undefined); }
      hide FreesOnly;
      hide NoneAbove31;
      hide ClearBit;
      if id >= MAX_MODULES { return; }
      if id < 31 {
        mask := ClearBit(mask, id);
      } else if id == 31 {
        mask := mask & 0x7FFF_FFFF;
      } else {
        mask := undefined;
      }
    }
  }

  // ----- Enough ids for 64 modules -----

  /** The ids below `i` that mask `m` leaves free. */
  ghost function Free(m: bv64, i: bv64): nat
    requires i <= 64
    decreases i
  {
    if i == 0 then 0 else (if Has(m, i - 1) then 0 else 1) + Free(m, i - 1)
  }

  lemma {:induction false} FreeOr(m: bv64, id: bv64, i: bv64)
    requires id < 64 && i <= 64 && !Has(m, id)
    ensures Free(SetBit(m, id), i) == Free(m, i) - if id < i then 1 else 0
    decreases i
  {
    hide Has;
    hide SetBit;
    if i > 0 {
      FreeOr(m, id, i - 1);
      HasSet(m, id, i - 1);
    }
  }

  lemma FourFree(i: bv64)
    requires i <= 60
    ensures Free(0, i + 4) == Free(0, i) + 4
  {
    assert Free(0, i + 1) == 1 + Free(0, i);
    assert Free(0, i + 2) == 1 + Free(0, i + 1);
    assert Free(0, i + 3) == 1 + Free(0, i + 2);
    assert Free(0, i + 4) == 1 + Free(0, i + 3);
  }

  lemma SixteenFree(i: bv64)
    requires i <= 48
    ensures Free(0, i + 16) == Free(0, i) + 16
  {
    FourFree(i);
    FourFree(i + 4);
    FourFree(i + 8);
    FourFree(i + 12);
  }

  lemma AllFree()
    ensures Free(0, 64) == 64
  {
    SixteenFree(0);
    SixteenFree(16);
    SixteenFree(32);
    SixteenFree(48);
  }

  lemma {:induction false} NoneFree(m: bv64, i: bv64)
    requires i <= 64 && TakenBelow(m, i)
    ensures Free(m, i) == 0
    decreases i
  {
    if i > 0 { NoneFree(m, i - 1); }
  }

  lemma NewStands(ids: seq<bv64>, m: bv64, k: nat, id: bv64)
    requires Stands(ids, m, Upto(k)) && |ids| == k && id < 64 && !Has(m, id)
    ensures Stands(ids + [id], SetBit(m, id), Upto(k + 1))
  {
    hide Has;
    hide SetBit;
    var ids', m' := ids + [id], SetBit(m, id);
    forall i: nat | i < |ids| ensures ids[i] != id { assert i in Upto(k); }
    forall i: nat | i < |ids'| ensures Has(m', ids'[i]) <==> i in Upto(k + 1) { HasSet(m, id, ids'[i]); }
    forall j: bv64 | j < 64 && Has(m', j) ensures j in ids' { HasSet(m, id, j); }
  }

  /** The modules below `n`. */
  function Upto(n: nat): (s: set<nat>)
    ensures forall k: nat :: k in s <==> k < n
  {
    if n == 0 then {} else Upto(n - 1) + {n - 1}
  }

  /** CreateModules: each module gets its id, and `all_modules_mask_` collects all of them. */
  method NumberModules(n: nat) returns (ids: seq<bv64>, all: bv64)
    requires n <= 64
    ensures |ids| == n && Stands(ids, all, Upto(n))
  {
    hide Has;
    hide SetBit;
    hide Stands;
    var idx := new ModuleIdx();
    ids, all := [], 0;
    AllFree();
    ZeroStands(ids);
    for k := 0 to n
      invariant |ids| == k && fresh(idx) && idx.mask == all && Stands(ids, all, Upto(k))
      invariant Free(all, 64) == 64 - k
    {
      var id := idx.GetModuleIdx();
      if id >= 64 { NoneFree(all, 64); }
      FreeOr(all, id, 64);
      NewStands(ids, all, k, id);
      ids := ids + [id];
      all := SetBit(all, id);
    }
  }

}
