/** The layout of a frame in memory: planes, rows and batches. */
module PlaneLayouts {
  import opened Options

  datatype Format =
    | Gray8 | Yuv420 | Nv12 | Nv21 | Argb | Abgr | Bgra | Rgba | Rgb | Bgr | Argb1555
    | Invalid

  datatype Plane = Plane(width: nat, height: nat, bytesPerPix: nat, pitch: nat, psize: nat, offset: nat)

  const UINT32: nat := 0x1_0000_0000
  const UINT64: nat := 0x1_0000_0000_0000_0000

  type uint32 = x: nat | x < UINT32

  // ----- The layout meant -----

  function Times(x: nat, y: nat): nat { x * y }

  function AlignUp(x: nat, a: nat): nat
    requires a > 0
  {
    RoundDown(x + a - 1, a)
  }

  function RoundDown(y: nat, a: nat): nat
    requires a > 0
  {
    y / a * a
  }

  function PlaneCount(fmt: Format): nat {
    match fmt
    case Invalid => 0
    case Yuv420 => 3
    case Nv12 => 2
    case Nv21 => 2
    case _ => 1
  }

  function BytesPerPix(fmt: Format): nat {
    match fmt
    case Argb => 4
    case Abgr => 4
    case Bgra => 4
    case Rgba => 4
    case Rgb => 3
    case Bgr => 3
    case Argb1555 => 2
    case _ => 1
  }

  /** Chroma planes are half as high; those of YUV420 also half as wide. */
  function WidthAt(fmt: Format, width: nat, i: nat): nat { if i > 0 && fmt == Yuv420 then width / 2 else width }
  function HeightAt(fmt: Format, height: nat, i: nat): nat { if i > 0 then height / 2 else height }

  function Plain(fmt: Format, w: nat, h: nat, aw: nat, ah: nat, i: nat): Plane
    requires aw > 0 && ah > 0
  {
    var pitch := AlignUp(Times(WidthAt(fmt, w, i), BytesPerPix(fmt)), aw);
    var psize := Times(AlignUp(HeightAt(fmt, h, i), ah), pitch);
    Plane(WidthAt(fmt, w, i), HeightAt(fmt, h, i), BytesPerPix(fmt), pitch, psize, 0)
  }

  /** The first `n` planes, one after the other. */
  function Planes(fmt: Format, w: nat, h: nat, aw: nat, ah: nat, n: nat): (ps: seq<Plane>)
    requires aw > 0 && ah > 0
    ensures |ps| == n
  {
    if n == 0 then []
    else
      var ps := Planes(fmt, w, h, aw, ah, n - 1);
      ps + [Plain(fmt, w, h, aw, ah, n - 1).(offset := Total(ps))]
  }

  function Total(ps: seq<Plane>): nat {
    if ps == [] then 0 else Total(ps[..|ps| - 1]) + ps[|ps| - 1].psize
  }

  // ----- What the formats are -----

  /** One sample of `bytes` bytes for every pixel. */
  predicate Full(p: Plane, w: nat, h: nat, bytes: nat) {
    p.width == w && p.height == h && p.bytesPerPix == bytes
  }

  /** `n` samples of which each serves two of the `full`; a last odd one goes without. */
  predicate Half(n: nat, full: nat) {
    2 * n <= full < 2 * n + 2
  }

  /** What planes a picture of each format has: packed formats one with all bytes of a pixel; planar ones the
      brightness of every pixel in one byte, and below it colours for two rows each, which are interleaved in rows of
      full width, or in two planes of half width. */
  predicate Sampled(fmt: Format, w: nat, h: nat, ps: seq<Plane>) {
    match fmt
    case Invalid => ps == []
    case Gray8 => |ps| == 1 && Full(ps[0], w, h, 1)
    case Argb1555 => |ps| == 1 && Full(ps[0], w, h, 2)
    case Rgb => |ps| == 1 && Full(ps[0], w, h, 3)
    case Bgr => |ps| == 1 && Full(ps[0], w, h, 3)
    case Argb => |ps| == 1 && Full(ps[0], w, h, 4)
    case Abgr => |ps| == 1 && Full(ps[0], w, h, 4)
    case Bgra => |ps| == 1 && Full(ps[0], w, h, 4)
    case Rgba => |ps| == 1 && Full(ps[0], w, h, 4)
    case Nv12 => |ps| == 2 && Full(ps[0], w, h, 1) && Interleaved(ps[1], w, h)
    case Nv21 => |ps| == 2 && Full(ps[0], w, h, 1) && Interleaved(ps[1], w, h)
    case Yuv420 => |ps| == 3 && Full(ps[0], w, h, 1) && Quarter(ps[1], w, h) && Quarter(ps[2], w, h)
  }

  predicate Interleaved(p: Plane, w: nat, h: nat) {
    p.width == w && Half(p.height, h) && p.bytesPerPix == 1
  }

  predicate Quarter(p: Plane, w: nat, h: nat) {
    Half(p.width, w) && Half(p.height, h) && p.bytesPerPix == 1
  }

  // ----- What a layout must satisfy -----

  /** Planes lie one behind the other without gap, every pitch is aligned, every row lies in its plane. */
  ghost predicate Tiles(ps: seq<Plane>, aw: nat) {
    && (forall i :: 0 <= i < |ps| ==> ps[i].offset == Total(ps[..i]))
    && (forall i :: 0 <= i < |ps| ==> IsMultiple(ps[i].pitch, aw) && RowsFit(ps[i]))
  }

  ghost predicate IsMultiple(x: nat, a: nat) {
    exists k: nat :: x == Times(k, a)
  }

  ghost predicate RowsFit(p: Plane) {
    && Times(p.width, p.bytesPerPix) <= p.pitch
    && Times(p.height, p.pitch) <= p.psize
  }

  lemma AlignUpIs(x: nat, a: nat)
    requires a > 0
    ensures IsMultiple(AlignUp(x, a), a) && x <= AlignUp(x, a) < x + a
  {
    var y := x + a - 1;
    assert y == y / a * a + y % a;
    assert AlignUp(x, a) == Times(y / a, a);
  }

  lemma TimesGrows(x: nat, y: nat, k: nat)
    requires x <= y
    ensures Times(x, k) <= Times(y, k)
    ensures Times(x + 1, k) == Times(x, k) + k
  {
  }

  lemma PlainFits(fmt: Format, w: nat, h: nat, aw: nat, ah: nat, i: nat)
    requires aw > 0 && ah > 0
    ensures var p := Plain(fmt, w, h, aw, ah, i); IsMultiple(p.pitch, aw) && RowsFit(p)
  {
    hide Times;
    hide AlignUp;
    AlignUpIs(Times(WidthAt(fmt, w, i), BytesPerPix(fmt)), aw);
    AlignUpIs(HeightAt(fmt, h, i), ah);
    var p := Plain(fmt, w, h, aw, ah, i);
    TimesGrows(p.height, AlignUp(p.height, ah), p.pitch);
  }

  lemma TileOne(ps: seq<Plane>, p: Plane, aw: nat)
    requires Tiles(ps, aw) && p.offset == Total(ps) && IsMultiple(p.pitch, aw) && RowsFit(p)
    ensures Tiles(ps + [p], aw)
  {
    hide RowsFit;
    hide IsMultiple;
    var qs := ps + [p];
    forall i | 0 <= i < |qs| ensures qs[i].offset == Total(qs[..i]) {
      assert qs[..i] == ps[..i];
      if i == |ps| { assert ps[..i] == ps; }
    }
  }

  lemma {:induction false} PlanesTile(fmt: Format, w: nat, h: nat, aw: nat, ah: nat, n: nat)
    requires aw > 0 && ah > 0
    ensures Tiles(Planes(fmt, w, h, aw, ah, n), aw)
  {
    if n > 0 {
      var ps := Planes(fmt, w, h, aw, ah, n - 1);
      var p := Plain(fmt, w, h, aw, ah, n - 1);
      PlanesTile(fmt, w, h, aw, ah, n - 1);
      PlainFits(fmt, w, h, aw, ah, n - 1);
      assert RowsFit(p.(offset := Total(ps)));
      TileOne(ps, p.(offset := Total(ps)), aw);
    }
  }

  // ----- Addresses -----

  /** A byte of a pixel: its plane, its row, and its place in the row. */
  datatype Place = Place(plane: nat, row: nat, col: nat)

  predicate Inside(ps: seq<Plane>, b: Place) {
    b.plane < |ps| && b.row < ps[b.plane].height && b.col < Times(ps[b.plane].width, ps[b.plane].bytesPerPix)
  }

  function Address(ps: seq<Plane>, b: Place): nat
    requires Inside(ps, b)
  {
    ps[b.plane].offset + Times(b.row, ps[b.plane].pitch) + b.col
  }

  lemma {:induction false} TotalGrows(ps: seq<Plane>, i: nat, k: nat)
    requires i <= k <= |ps|
    ensures Total(ps[..i]) <= Total(ps[..k])
    ensures i < k ==> Total(ps[..i]) + ps[i].psize <= Total(ps[..k])
    decreases k
  {
    if i < k {
      assert ps[..k][..k - 1] == ps[..k - 1];
      TotalGrows(ps, i, k - 1);
    }
  }

  /** A byte comes before the rows that follow its own. */
  lemma RowsApart(p: Plane, row: nat, col: nat, next: nat)
    requires RowsFit(p) && row < next && col < Times(p.width, p.bytesPerPix)
    ensures Times(row, p.pitch) + col < Times(next, p.pitch)
  {
    TimesGrows(row, row + 1, p.pitch);
    TimesGrows(row + 1, next, p.pitch);
    hide Times;
  }

  /** Every byte lies in its plane, and so in the block. */
  lemma AddressInside(ps: seq<Plane>, aw: nat, b: Place)
    requires Tiles(ps, aw) && Inside(ps, b)
    ensures ps[b.plane].offset <= Address(ps, b) < ps[b.plane].offset + ps[b.plane].psize
    ensures Address(ps, b) < Total(ps)
  {
    hide Times;
    RowsApart(ps[b.plane], b.row, b.col, ps[b.plane].height);
    TotalGrows(ps, b.plane, |ps|);
    assert ps[..|ps|] == ps;
  }

  lemma AddressesApartIn(ps: seq<Plane>, aw: nat, b: Place, c: Place)
    requires Tiles(ps, aw) && Inside(ps, b) && Inside(ps, c) && b.plane < c.plane
    ensures Address(ps, b) < Address(ps, c)
  {
    hide Times;
    AddressInside(ps, aw, b);
    AddressInside(ps, aw, c);
    TotalGrows(ps, b.plane, c.plane);
  }

  /** No two bytes of pixels share an address. */
  lemma AddressesApart(ps: seq<Plane>, aw: nat, b: Place, c: Place)
    requires Tiles(ps, aw) && Inside(ps, b) && Inside(ps, c) && b != c
    ensures Address(ps, b) != Address(ps, c)
  {
    hide Times;
    if b.plane < c.plane {
      AddressesApartIn(ps, aw, b, c);
    } else if c.plane < b.plane {
      AddressesApartIn(ps, aw, c, b);
    } else if b.row < c.row {
      RowsApart(ps[b.plane], b.row, b.col, c.row);
    } else if c.row < b.row {
      RowsApart(ps[b.plane], c.row, c.col, b.row);
    }
  }

  // ----- Batches -----

  /** Bytes of different frames of one allocation have different addresses too, and all lie inside it. */
  lemma BatchApart(ps: seq<Plane>, aw: nat, base: nat, block: nat, batch: nat, j: nat, b: Place, k: nat, c: Place)
    requires Tiles(ps, aw) && Inside(ps, b) && Inside(ps, c) && block == Total(ps)
    requires j < batch && k < batch && (j, b) != (k, c)
    ensures base + Times(j, block) + Address(ps, b) != base + Times(k, block) + Address(ps, c)
    ensures base + Times(j, block) + Address(ps, b) < base + Times(batch, block)
  {
    hide Times;
    hide Address;
    hide Tiles;
    AddressInside(ps, aw, b);
    AddressInside(ps, aw, c);
    TimesGrows(j, j + 1, block);
    TimesGrows(k, k + 1, block);
    TimesGrows(j + 1, batch, block);
    if j < k { TimesGrows(j + 1, k, block); }
    if k < j { TimesGrows(k + 1, j, block); }
    if j == k { AddressesApart(ps, aw, b, c); }
  }

  lemma OneInside(ps: seq<Plane>, aw: nat, base: nat, block: nat, batch: nat, j: nat, b: Place)
    requires Tiles(ps, aw) && Inside(ps, b) && block == Total(ps) && j < batch
    ensures base <= base + Times(j, block) + Address(ps, b) < base + Times(batch, block)
  {
    hide Times;
    AddressInside(ps, aw, b);
    TimesGrows(j, j, block);
    TimesGrows(j + 1, batch, block);
  }

  // ----- The 32-bit computation -----

  function U32(x: int): (r: nat)
    ensures r < UINT32
    ensures 0 <= x < UINT32 ==> r == x
  {
    x % UINT32
  }

  /** `(x + a - 1) / a * a` on uint32_t */
  function AlignUp32(x: nat, a: nat): nat
    requires a > 0
  {
    U32(RoundDown(U32(U32(x + a) - 1), a))
  }

  /** The alignments that callers can ask for. */
  predicate IsAlignment(a: nat) {
    0 < a < UINT32
  }

  lemma RoundDownIs(y: nat, a: nat)
    requires a > 0
    ensures RoundDown(y, a) <= y && (y < a ==> RoundDown(y, a) == 0)
  {
  }

  lemma SumFits(x: nat, a: nat)
    requires IsAlignment(a) && x + a <= UINT32
    ensures U32(x) == x && U32(U32(x + a) - 1) == x + a - 1
  {
  }

  lemma SumWraps(x: nat, a: nat)
    requires IsAlignment(a) && x < UINT32 < x + a
    ensures U32(x) == x && U32(U32(x + a) - 1) == x + a - UINT32 - 1 < a
  {
  }

  /** Rounding up on 32 bits is right exactly if the sum from which it is done does not wrap around; otherwise it
      gives 0, or the number is too large to begin with. */
  lemma AlignedIsSame(x: nat, a: nat)
    requires IsAlignment(a)
    ensures AlignUp32(U32(x), a) == AlignUp(x, a) <==> x + a <= UINT32
    ensures x + a > UINT32 ==> 0 < AlignUp(x, a) && (x < UINT32 ==> AlignUp32(U32(x), a) == 0)
  {
    hide RoundDown;
    hide U32;
    AlignUpIs(x, a);
    RoundDownIs(x + a - 1, a);
    if x + a <= UINT32 {
      SumFits(x, a);
    } else if x < UINT32 {
      SumWraps(x, a);
      RoundDownIs(x + a - UINT32 - 1, a);
    }
  }

  /** One plane, as every branch computes it. */
  function Plane32(width: nat, height: nat, bytesPerPix: nat, aw: nat, ah: nat): Plane
    requires aw > 0 && ah > 0
  {
    var pitch := AlignUp32(U32(Times(width, bytesPerPix)), aw);
    Plane(width, height, bytesPerPix, pitch, U32(Times(AlignUp32(U32(height), ah), pitch)), 0)
  }

  function Wrapped(fmt: Format, w: nat, h: nat, aw: nat, ah: nat, i: nat): Plane
    requires aw > 0 && ah > 0
  {
    Plane32(WidthAt(fmt, w, i), HeightAt(fmt, h, i), BytesPerPix(fmt), aw, ah)
  }

  /** The first `n` planes, as computed on 32 bits. */
  function Computed(fmt: Format, w: nat, h: nat, aw: nat, ah: nat, n: nat): (ps: seq<Plane>)
    requires aw > 0 && ah > 0
    ensures |ps| == n
  {
    if n == 0 then []
    else
      var ps := Computed(fmt, w, h, aw, ah, n - 1);
      ps + [Wrapped(fmt, w, h, aw, ah, n - 1).(offset := U32(Total(ps)))]
  }

  /** Nothing wraps around while a plane is computed; the height does not matter where rows have no bytes. */
  ghost predicate PlaneFits(fmt: Format, w: nat, h: nat, aw: nat, ah: nat, i: nat)
    requires aw > 0 && ah > 0
  {
    var p := Plain(fmt, w, h, aw, ah, i);
    && Times(p.width, p.bytesPerPix) + aw <= UINT32
    && (p.pitch == 0 || (p.height + ah <= UINT32 && p.psize < UINT32))
  }

  ghost predicate FitsAt(fmt: Format, w: nat, h: nat, aw: nat, ah: nat, i: nat)
    requires aw > 0 && ah > 0
  {
    PlaneFits(fmt, w, h, aw, ah, i) && Total(Planes(fmt, w, h, aw, ah, i)) < UINT32
  }

  ghost predicate Fits32(fmt: Format, w: nat, h: nat, aw: nat, ah: nat, n: nat)
    requires aw > 0 && ah > 0
  {
    forall i: nat :: i < n ==> FitsAt(fmt, w, h, aw, ah, i)
  }

  lemma SizeIsSame(height: nat, ah: nat, pitch: nat)
    requires IsAlignment(ah)
    ensures U32(Times(AlignUp32(U32(height), ah), pitch)) == Times(AlignUp(height, ah), pitch)
            <==> pitch == 0 || (height + ah <= UINT32 && Times(AlignUp(height, ah), pitch) < UINT32)
  {
    AlignedIsSame(height, ah);
    AlignUpIs(height, ah);
    var x, y := AlignUp(height, ah), AlignUp32(U32(height), ah);
    SwapTimes(x, pitch);
    SwapTimes(y, pitch);
    SwapTimes(pitch, 0);
    hide AlignUp;
    hide AlignUp32;
    if pitch > 0 {
      TimesGrows(1, pitch, x);
      SwapTimes(x, 1);
      hide Times;
      if height + ah > UINT32 && height < UINT32 { assert y == 0 && Times(y, pitch) == 0; }
    }
  }

  lemma SwapTimes(x: nat, y: nat)
    ensures Times(x, y) == Times(y, x) && Times(x, 1) == x && Times(x, 0) == 0
  {
  }

  /** A plane is computed right exactly if nothing wraps around. */
  lemma PlaneIsExact(fmt: Format, w: nat, h: nat, aw: nat, ah: nat, i: nat)
    requires IsAlignment(aw) && IsAlignment(ah)
    ensures Wrapped(fmt, w, h, aw, ah, i) == Plain(fmt, w, h, aw, ah, i) <==> PlaneFits(fmt, w, h, aw, ah, i)
  {
    hide Times;
    hide AlignUp;
    hide AlignUp32;
    hide U32;
    AlignedIsSame(Times(WidthAt(fmt, w, i), BytesPerPix(fmt)), aw);
    SizeIsSame(HeightAt(fmt, h, i), ah, Plain(fmt, w, h, aw, ah, i).pitch);
  }

  lemma LastPlane(fmt: Format, w: nat, h: nat, aw: nat, ah: nat, n: nat)
    requires aw > 0 && ah > 0 && n > 0
    ensures var ps, qs := Planes(fmt, w, h, aw, ah, n - 1), Computed(fmt, w, h, aw, ah, n - 1);
            Computed(fmt, w, h, aw, ah, n) == Planes(fmt, w, h, aw, ah, n) <==>
              && qs == ps && Wrapped(fmt, w, h, aw, ah, n - 1) == Plain(fmt, w, h, aw, ah, n - 1)
              && Total(ps) < UINT32
  {
    hide Total;
    hide U32;
    var ps, qs := Planes(fmt, w, h, aw, ah, n - 1), Computed(fmt, w, h, aw, ah, n - 1);
    var p, q := Plain(fmt, w, h, aw, ah, n - 1), Wrapped(fmt, w, h, aw, ah, n - 1);
    assert p.offset == 0 == q.offset;
    hide Plain;
    hide Wrapped;
    SameLast(ps, p.(offset := Total(ps)), qs, q.(offset := U32(Total(qs))));
    assert p == p.(offset := Total(ps)).(offset := 0) && q == q.(offset := U32(Total(qs))).(offset := 0);
  }

  lemma SameLast(ps: seq<Plane>, p: Plane, qs: seq<Plane>, q: Plane)
    requires |ps| == |qs|
    ensures qs + [q] == ps + [p] <==> qs == ps && q == p
  {
    var n := |ps|;
    assert (ps + [p])[..n] == ps && (qs + [q])[..n] == qs;
    assert (ps + [p])[n] == p && (qs + [q])[n] == q;
  }

  /** The layout that is computed is the layout meant exactly if nothing wraps around in any plane. */
  lemma {:induction false} ComputedIsExact(fmt: Format, w: nat, h: nat, aw: nat, ah: nat, n: nat)
    requires IsAlignment(aw) && IsAlignment(ah)
    ensures Computed(fmt, w, h, aw, ah, n) == Planes(fmt, w, h, aw, ah, n) <==> Fits32(fmt, w, h, aw, ah, n)
  {
    hide Plain;
    hide Wrapped;
    hide Total;
    hide U32;
    hide PlaneFits;
    if n > 0 {
      ComputedIsExact(fmt, w, h, aw, ah, n - 1);
      PlaneIsExact(fmt, w, h, aw, ah, n - 1);
      hide Planes;
      hide Computed;
      LastPlane(fmt, w, h, aw, ah, n);
      assert Fits32(fmt, w, h, aw, ah, n) <==> Fits32(fmt, w, h, aw, ah, n - 1) && FitsAt(fmt, w, h, aw, ah, n - 1);
    }
  }

  lemma Rounded(w: nat)
    requires w == 0x1_0000
    ensures AlignUp(w, 16) == w && AlignUp(w, 2) == w
  {
  }

  lemma Square(w: nat)
    requires w == 0x1_0000
    ensures Times(w, w) == UINT32 && Times(w, 1) == w && U32(UINT32) == 0
  {
  }

  /** A picture for which the sizes wrap around: the block for it has no bytes at all. */
  lemma WrapLosesThePlane(w: nat)
    requires w == 0x1_0000
    ensures Total(Computed(Gray8, w, w, 16, 2, 1)) == 0
    ensures Total(Planes(Gray8, w, w, 16, 2, 1)) == UINT32
    ensures !Fits32(Gray8, w, w, 16, 2, 1)
  {
    hide Computed;
    hide Planes;
    hide Total;
    hide AlignUp;
    hide AlignUp32;
    hide Times;
    OnePlane(Gray8, w, w, 16, 2);
    AlignedIsSame(w, 16);
    AlignedIsSame(w, 2);
    Rounded(w);
    Square(w);
    assert U32(w) == w;
    hide U32;
    assert Plain(Gray8, w, w, 16, 2, 0).psize == UINT32;
    assert Wrapped(Gray8, w, w, 16, 2, 0).psize == 0;
    assert !FitsAt(Gray8, w, w, 16, 2, 0);
  }

  lemma OnePlane(fmt: Format, w: nat, h: nat, aw: nat, ah: nat)
    requires aw > 0 && ah > 0
    ensures Total(Computed(fmt, w, h, aw, ah, 1)) == Wrapped(fmt, w, h, aw, ah, 0).psize
    ensures Total(Planes(fmt, w, h, aw, ah, 1)) == Plain(fmt, w, h, aw, ah, 0).psize
  {
    hide Wrapped;
    hide Plain;
    var ps, qs := Computed(fmt, w, h, aw, ah, 1), Planes(fmt, w, h, aw, ah, 1);
    assert ps[..0] == [] && qs[..0] == [];
  }

  lemma PlaneAt(fmt: Format, w: nat, h: nat, aw: nat, ah: nat, i: nat, n: nat)
    requires aw > 0 && ah > 0 && i < n
    ensures var p := Wrapped(fmt, w, h, aw, ah, i);
            Computed(fmt, w, h, aw, ah, n)[i] == p.(offset := Computed(fmt, w, h, aw, ah, n)[i].offset)
    ensures var p := Plain(fmt, w, h, aw, ah, i);
            Planes(fmt, w, h, aw, ah, n)[i] == p.(offset := Planes(fmt, w, h, aw, ah, n)[i].offset)
    decreases n
  {
    hide Wrapped;
    hide Plain;
    if i < n - 1 { PlaneAt(fmt, w, h, aw, ah, i, n - 1); }
  }

  ghost predicate SidesByTable(fmt: Format, w: nat, h: nat, ps: seq<Plane>) {
    && |ps| == PlaneCount(fmt)
    && forall i: nat :: i < |ps| ==>
         Full(ps[i], WidthAt(fmt, w, i), HeightAt(fmt, h, i), BytesPerPix(fmt))
  }

  lemma Halved(x: nat)
    ensures Half(x / 2, x)
  {
  }

  lemma TableIsSampled(fmt: Format, w: nat, h: nat, ps: seq<Plane>)
    requires SidesByTable(fmt, w, h, ps)
    ensures Sampled(fmt, w, h, ps)
  {
    Halved(w);
    Halved(h);
    hide Half;
    assert |ps| > 0 ==> Full(ps[0], WidthAt(fmt, w, 0), HeightAt(fmt, h, 0), BytesPerPix(fmt));
    assert |ps| > 1 ==> Full(ps[1], WidthAt(fmt, w, 1), HeightAt(fmt, h, 1), BytesPerPix(fmt));
    assert |ps| > 2 ==> Full(ps[2], WidthAt(fmt, w, 2), HeightAt(fmt, h, 2), BytesPerPix(fmt));
  }

  lemma SidesOfPlane(fmt: Format, w: nat, h: nat, aw: nat, ah: nat, i: nat)
    requires aw > 0 && ah > 0
    ensures Full(Wrapped(fmt, w, h, aw, ah, i), WidthAt(fmt, w, i), HeightAt(fmt, h, i), BytesPerPix(fmt))
    ensures Full(Plain(fmt, w, h, aw, ah, i), WidthAt(fmt, w, i), HeightAt(fmt, h, i), BytesPerPix(fmt))
  {
  }

  /** The planes that are computed are those of the format, whatever wraps around in pitches, sizes and offsets. */
  lemma ComputedIsSampled(fmt: Format, w: nat, h: nat, aw: nat, ah: nat)
    requires aw > 0 && ah > 0
    ensures Sampled(fmt, w, h, Computed(fmt, w, h, aw, ah, PlaneCount(fmt)))
    ensures Sampled(fmt, w, h, Planes(fmt, w, h, aw, ah, PlaneCount(fmt)))
  {
    hide Sampled;
    hide Computed;
    hide Planes;
    hide Wrapped;
    hide Plain;
    hide PlaneCount;
    hide WidthAt;
    hide HeightAt;
    hide BytesPerPix;
    var n := PlaneCount(fmt);
    var ps, qs := Computed(fmt, w, h, aw, ah, n), Planes(fmt, w, h, aw, ah, n);
    forall i: nat | i < n
      ensures Full(ps[i], WidthAt(fmt, w, i), HeightAt(fmt, h, i), BytesPerPix(fmt))
      ensures Full(qs[i], WidthAt(fmt, w, i), HeightAt(fmt, h, i), BytesPerPix(fmt))
    {
      PlaneAt(fmt, w, h, aw, ah, i, n);
      SidesOfPlane(fmt, w, h, aw, ah, i);
    }
    TableIsSampled(fmt, w, h, ps);
    TableIsSampled(fmt, w, h, qs);
  }

  /** No pitch is larger than alignment makes it, and no plane than its rows, aligned. */
  ghost predicate Tight(p: Plane, aw: nat, ah: nat) {
    && p.pitch < Times(p.width, p.bytesPerPix) + aw
    && exists rows: nat :: IsMultiple(rows, ah) && p.height <= rows < p.height + ah && p.psize == Times(rows, p.pitch)
  }

  lemma PlanesAreTight(fmt: Format, w: nat, h: nat, aw: nat, ah: nat, i: nat, n: nat)
    requires aw > 0 && ah > 0 && i < n
    ensures Tight(Planes(fmt, w, h, aw, ah, n)[i], aw, ah)
  {
    PlaneAt(fmt, w, h, aw, ah, i, n);
    hide Planes;
    hide Computed;
    hide AlignUp;
    AlignUpIs(Times(WidthAt(fmt, w, i), BytesPerPix(fmt)), aw);
    AlignUpIs(HeightAt(fmt, h, i), ah);
    var p := Plain(fmt, w, h, aw, ah, i);
    assert IsMultiple(AlignUp(p.height, ah), ah) && p.psize == Times(AlignUp(p.height, ah), p.pitch);
  }

  lemma Unaligned(x: nat)
    ensures AlignUp(x, 1) == x
  {
  }

  lemma PlainBytes(fmt: Format, w: nat, h: nat, i: nat)
    ensures Plain(fmt, w, h, 1, 1, i).psize
         == Times(HeightAt(fmt, h, i), Times(WidthAt(fmt, w, i), BytesPerPix(fmt)))
  {
    Unaligned(Times(WidthAt(fmt, w, i), BytesPerPix(fmt)));
    Unaligned(HeightAt(fmt, h, i));
  }

  lemma NoPlanes(fmt: Format, w: nat, h: nat, aw: nat, ah: nat)
    requires aw > 0 && ah > 0
    ensures Total(Planes(fmt, w, h, aw, ah, 0)) == 0
  {
  }

  lemma TotalStep(fmt: Format, w: nat, h: nat, aw: nat, ah: nat, n: nat)
    requires aw > 0 && ah > 0
    ensures Total(Planes(fmt, w, h, aw, ah, n + 1))
         == Total(Planes(fmt, w, h, aw, ah, n)) + Plain(fmt, w, h, aw, ah, n).psize
  {
    hide Plain;
    assert Planes(fmt, w, h, aw, ah, n + 1)[..n] == Planes(fmt, w, h, aw, ah, n);
  }

  /** How many bytes a picture needs, unaligned: in packed formats 1, 2, 3 or 4 a pixel; in planar ones, with even
      sides, three for every two pixels. */
  lemma BytesNeeded(fmt: Format, w: nat, h: nat)
    ensures var total := Total(Planes(fmt, w, h, 1, 1, PlaneCount(fmt)));
            match fmt
            case Invalid => total == 0
            case Gray8 => total == w * h
            case Argb1555 => total == w * h * 2
            case Rgb => total == w * h * 3
            case Bgr => total == w * h * 3
            case Argb => total == w * h * 4
            case Abgr => total == w * h * 4
            case Bgra => total == w * h * 4
            case Rgba => total == w * h * 4
            case _ => w % 2 == 0 && h % 2 == 0 ==> 2 * total == 3 * (w * h)
  {
    var n := PlaneCount(fmt);
    NoPlanes(fmt, w, h, 1, 1);
    TotalStep(fmt, w, h, 1, 1, 0);
    TotalStep(fmt, w, h, 1, 1, 1);
    TotalStep(fmt, w, h, 1, 1, 2);
    PlainBytes(fmt, w, h, 0);
    PlainBytes(fmt, w, h, 1);
    PlainBytes(fmt, w, h, 2);
    hide Planes;
    hide Plain;
    hide Total;
    if w % 2 == 0 && h % 2 == 0 { Halves(w, h); }
    Pixels(w, h, BytesPerPix(fmt));
  }

  lemma Pixels(w: nat, h: nat, k: nat)
    ensures Times(h, Times(w, k)) == w * h * k
  {
    assert h * (w * k) == w * h * k;
  }

  lemma Halves(w: nat, h: nat)
    requires w % 2 == 0 && h % 2 == 0
    ensures 2 * Times(h / 2, Times(w, 1)) == w * h && 4 * Times(h / 2, Times(w / 2, 1)) == w * h
  {
    var a, b := w / 2, h / 2;
    assert w == 2 * a && h == 2 * b;
    assert w * h == 4 * (a * b);
    assert b * w == 2 * (a * b);
  }

  /** With the offsets set, the planes that were filled in are the computed layout. */
  lemma OffsetsComplete(fmt: Format, w: nat, h: nat, aw: nat, ah: nat, qs: seq<Plane>, n: nat)
    requires aw > 0 && ah > 0 && n <= 3 == |qs|
    requires n > 0 ==> qs[0] == Wrapped(fmt, w, h, aw, ah, 0).(offset := 0)
    requires n > 1 ==> qs[1] == Wrapped(fmt, w, h, aw, ah, 1).(offset := qs[0].psize)
    requires n > 2 ==> qs[2] == Wrapped(fmt, w, h, aw, ah, 2).(offset := U32(qs[0].psize + qs[1].psize))
    requires forall i :: 0 <= i < n ==> qs[i].psize < UINT32
    ensures qs[..n] == Computed(fmt, w, h, aw, ah, n)
  {
    hide Wrapped;
    hide U32;
    if n > 0 {
      OffsetsComplete(fmt, w, h, aw, ah, qs, n - 1);
      assert qs[..n] == qs[..n - 1] + [qs[n - 1]];
      FirstSizes(qs);
      assert U32(0) == 0;
    }
  }

  lemma FirstSizes(qs: seq<Plane>)
    requires |qs| == 3
    ensures Total(qs[..0]) == 0 && Total(qs[..1]) == qs[0].psize && Total(qs[..2]) == qs[0].psize + qs[1].psize
  {
    assert qs[..1][..0] == [] && qs[..2][..1] == qs[..1];
  }

  /** GetColorFormatInfo; what it computes is the layout meant exactly if nothing wraps around. */
  method GetColorFormatInfo(
      fmt: Format, width: uint32, height: uint32, aw: uint32, ah: uint32, params: array<Plane>)
    returns (ret: int, count: nat)
    requires aw > 0 && ah > 0 && params.Length == 3
    modifies params
    ensures ret == (if fmt == Invalid then -1 else 0) && count == PlaneCount(fmt)
    ensures params[..count] == Computed(fmt, width, height, aw, ah, count)
    ensures Sampled(fmt, width, height, params[..count])
    ensures forall i :: count <= i < 3 ==> params[i] == Plane(0, 0, 0, 0, 0, 0)
    ensures Fits32(fmt, width, height, aw, ah, count) <==>
              params[..count] == Planes(fmt, width, height, aw, ah, count)
    ensures Fits32(fmt, width, height, aw, ah, count) ==> Tiles(params[..count], aw)
  {
    hide Plane32;
    hide WidthAt;
    hide HeightAt;
    hide BytesPerPix;
    hide Fits32;
    hide Tiles;
    hide Planes;
    hide Computed;
    for i := 0 to 3
      invariant forall k :: 0 <= k < i ==> params[k] == Plane(0, 0, 0, 0, 0, 0)
    {
      params[i] := Plane(0, 0, 0, 0, 0, 0);
    }
    ret, count := 0, 1;
    match fmt {
      case Invalid => ret, count := -1, 0;
      case Yuv420 => count := 3;
      case Nv12 => count := 2;
      case Nv21 => count := 2;
      case _ =>
    }
    for i := 0 to count
      invariant forall k: nat :: k < i ==> params[k] == Wrapped(fmt, width, height, aw, ah, k)
      invariant forall k :: count <= k < 3 ==> params[k] == Plane(0, 0, 0, 0, 0, 0)
    {
      params[i] := Plane32(WidthAt(fmt, width, i), HeightAt(fmt, height, i), BytesPerPix(fmt), aw, ah);
    }
    forall k: nat | k < count ensures params[k].psize < UINT32 { SizesFit(fmt, width, height, aw, ah, k); }
    if count > 0 { params[0] := params[0].(offset := 0); }
    if count > 1 { params[1] := params[1].(offset := params[0].psize); }
    if count > 2 { params[2] := params[2].(offset := U32(params[0].psize + params[1].psize)); }
    OffsetsComplete(fmt, width, height, aw, ah, params[..], count);
    assert params[..][..count] == params[..count];
    ComputedIsSampled(fmt, width, height, aw, ah);
    hide Sampled;
    ComputedIsExact(fmt, width, height, aw, ah, count);
    PlanesTile(fmt, width, height, aw, ah, count);
  }

  lemma SizesFit(fmt: Format, w: nat, h: nat, aw: nat, ah: nat, i: nat)
    requires aw > 0 && ah > 0
    ensures Wrapped(fmt, w, h, aw, ah, i).psize < UINT32
  {
  }

  // ----- The device allocator -----

  datatype CreateParams = CreateParams(
    format: Format, width: uint32, height: uint32, size: uint32, batchSize: uint32, forceAlign1: bool)

  /** UniedkBufSurfaceParams: one frame of a batch. */
  datatype Frame = Frame(
    format: Format, dataPtr: nat, width: nat, height: nat, pitch: nat, dataSize: nat, planes: seq<Plane>)

  function U64(x: nat): (r: nat)
    ensures r < UINT64 && (x < UINT64 ==> r == x)
  {
    x % UINT64
  }

  /** The frames' slices lie one behind the other inside the `size` bytes at `base`. */
  ghost predicate SlicesInside(frames: seq<Frame>, block: nat, base: nat, size: nat) {
    && (forall i :: 0 <= i < |frames| ==> base <= frames[i].dataPtr && frames[i].dataPtr + block <= base + size)
    && (forall i, j :: 0 <= i < j < |frames| ==> frames[i].dataPtr + block <= frames[j].dataPtr)
  }

  /** The bytes of the pixels of all frames have addresses of their own, inside the `size` bytes at `base`. */
  ghost predicate BytesApart(frames: seq<Frame>, base: nat, size: nat) {
    forall j: nat, b: Place, k: nat, c: Place ::
      j < |frames| && k < |frames| && Inside(frames[j].planes, b) && Inside(frames[k].planes, c) ==>
        && base <= frames[j].dataPtr + Address(frames[j].planes, b) < base + size
        && ((j, b) != (k, c) ==>
              frames[j].dataPtr + Address(frames[j].planes, b) != frames[k].dataPtr + Address(frames[k].planes, c))
  }

  /** The addresses that adding up 64-bit block sizes from `base` gives. */
  ghost predicate Steps(frames: seq<Frame>, block: nat, base: nat) {
    forall i: nat :: i < |frames| ==> frames[i].dataPtr == U64(base + Times(i, block))
  }

  lemma {:induction false} SlicesReach(frames: seq<Frame>, block: nat, base: nat, size: nat, n: nat)
    requires SlicesInside(frames, block, base, size) && 0 < n <= |frames|
    ensures base + Times(n, block) <= frames[n - 1].dataPtr + block
  {
    hide Times;
    TimesGrows(n - 1, n - 1, block);
    if n == 1 { SwapTimes(0, block); SwapTimes(block, 0); } else { SlicesReach(frames, block, base, size, n - 1); }
  }

  /** The slices lie in what was allocated exactly if the size asked for has not wrapped around. */
  lemma SlicesFitIff(frames: seq<Frame>, block: nat, base: nat)
    requires Steps(frames, block, base) && |frames| > 0
    requires base < UINT64 && base + U64(Times(|frames|, block)) <= UINT64
    ensures SlicesInside(frames, block, base, U64(Times(|frames|, block))) <==> Times(|frames|, block) < UINT64
  {
    var n := |frames|;
    var size := U64(Times(n, block));
    if SlicesInside(frames, block, base, size) {
      SlicesReach(frames, block, base, size, n);
    }
    if size == Times(n, block) { SlicesFit(frames, block, base); }
  }

  lemma SlicesFit(frames: seq<Frame>, block: nat, base: nat)
    requires Steps(frames, block, base) && base < UINT64 && base + Times(|frames|, block) <= UINT64
    ensures SlicesInside(frames, block, base, Times(|frames|, block))
  {
    hide Times;
    hide Steps;
    forall i: nat | i < |frames|
      ensures frames[i].dataPtr == base + Times(i, block)
      ensures Times(i, block) + block <= Times(|frames|, block)
    {
      Straight(frames, block, base, i);
      TimesGrows(i, i, block);
      TimesGrows(i + 1, |frames|, block);
    }
    forall i: nat, j: nat | i < j < |frames| ensures frames[i].dataPtr + block <= frames[j].dataPtr {
      TimesGrows(i, i, block);
      TimesGrows(i + 1, j, block);
    }
  }

  lemma FramesApart(frames: seq<Frame>, ps: seq<Plane>, aw: nat, base: nat)
    requires Tiles(ps, aw) && Steps(frames, Total(ps), base) && Times(|frames|, Total(ps)) < UINT64
    requires base < UINT64 && base + Times(|frames|, Total(ps)) <= UINT64
    requires forall i :: 0 <= i < |frames| ==> frames[i].planes == ps
    ensures BytesApart(frames, base, Times(|frames|, Total(ps)))
  {
    var block := Total(ps);
    hide Times;
    hide Tiles;
    hide Total;
    hide Address;
    hide U64;
    forall j: nat, b: Place, k: nat, c: Place |
      j < |frames| && k < |frames| && Inside(frames[j].planes, b) && Inside(frames[k].planes, c)
      ensures base <= frames[j].dataPtr + Address(frames[j].planes, b) < base + Times(|frames|, block)
      ensures (j, b) != (k, c) ==>
        frames[j].dataPtr + Address(frames[j].planes, b) != frames[k].dataPtr + Address(frames[k].planes, c)
    {
      Straight(frames, block, base, j);
      Straight(frames, block, base, k);
      OneInside(ps, aw, base, block, |frames|, j, b);
      if (j, b) != (k, c) { BatchApart(ps, aw, base, block, |frames|, j, b, k, c); }
    }
  }

  lemma Straight(frames: seq<Frame>, block: nat, base: nat, i: nat)
    requires Steps(frames, block, base) && i < |frames| && base < UINT64 && base + Times(|frames|, block) <= UINT64
    ensures frames[i].dataPtr == base + Times(i, block)
  {
    TimesGrows(i, i, block);
    TimesGrows(i + 1, |frames|, block);
    SwapTimes(i, 0);
    hide Times;
  }

  class MemAllocatorDevice {
    var created: bool
    var params: CreateParams
    var planes: seq<Plane>
    var blockSize: nat

    function AlignW(): (aw: nat)
      reads this
      ensures IsAlignment(aw)
    {
      if params.forceAlign1 then 1 else 16
    }

    function AlignH(): (ah: nat)
      reads this
      ensures IsAlignment(ah)
    {
      if params.forceAlign1 then 1 else 2
    }

    /** A block is as large as all planes of a frame, or the size asked for, aligned. */
    ghost predicate Valid()
      reads this
    {
      && params.batchSize > 0
      && if params.size == 0 then
           && planes == Computed(
                params.format, params.width, params.height, AlignW(), AlignH(), PlaneCount(params.format))
           && blockSize == Total(planes)
         else planes == [] && blockSize == AlignUp(params.size, AlignW())
    }

    /** Nothing wraps around while the layout of the frame is computed. */
    ghost predicate Fits()
      reads this
    {
      Fits32(params.format, params.width, params.height, AlignW(), AlignH(), PlaneCount(params.format))
    }

    constructor ()
      ensures !created
    {
      created, params, planes, blockSize := false, CreateParams(Invalid, 0, 0, 0, 1, false), [], 0;
    }

    method Create(p: CreateParams) returns (ret: int)
      modifies this
      ensures Valid() && created && ret == 0
      ensures params == p.(
        batchSize := if p.batchSize == 0 then 1 else p.batchSize,
        format := if p.size > 0 && p.format == Invalid then Gray8 else p.format)
    {
      hide Computed;
      hide Planes;
      hide Fits32;
      hide Tiles;
      hide AlignUp;
      params := if p.batchSize == 0 then p.(batchSize := 1) else p;
      var aw, ah := 16, 2;
      if p.forceAlign1 { aw, ah := 1, 1; }
      planes := [];
      blockSize := p.size;
      if blockSize == 0 {
        var ps := new Plane[3](_ => Plane(0, 0, 0, 0, 0, 0));
        var _, n := GetColorFormatInfo(p.format, p.width, p.height, aw, ah, ps);
        planes := ps[..n];
        ghost var layout, asked := planes, params;
        for i := 0 to n
          invariant planes == layout && params == asked && blockSize == Total(planes[..i])
        {
          assert planes[..i + 1][..i] == planes[..i];
          blockSize := blockSize + planes[i].psize;
        }
        assert planes[..n] == planes;
      } else {
        if params.format == Invalid { params := params.(format := Gray8); }
        blockSize := AlignUp(blockSize, aw);
      }
      created := true;
      ret := 0;
    }

    /** Alloc; `memory` is where the allocation for the whole batch is, if there is one. */
    method Alloc(memory: Option<nat>) returns (ret: int, frames: seq<Frame>)
      requires Valid()
      requires memory.Some? ==>
        0 < memory.value < UINT64 && memory.value + U64(Times(params.batchSize, blockSize)) <= UINT64
      ensures ret == if memory.Some? then 0 else -1
      ensures memory.Some? ==>
        && |frames| == params.batchSize && Steps(frames, blockSize, memory.value)
        && (forall i :: 0 <= i < |frames| ==> Described(frames[i]))
        && (SlicesInside(frames, blockSize, memory.value, U64(Times(params.batchSize, blockSize))) <==>
              Times(params.batchSize, blockSize) < UINT64)
        && (Times(params.batchSize, blockSize) < UINT64 && Fits() ==>
              BytesApart(frames, memory.value, Times(params.batchSize, blockSize)))
    {
      hide Times;
      hide U64;
      if memory.None? { return -1, []; }
      frames := Cut(memory.value);
      SlicesFitIff(frames, blockSize, memory.value);
      if Times(params.batchSize, blockSize) < UINT64 && Fits() { Apart(frames, memory.value); }
      ret := 0;
    }

    /** The loop of Alloc: the allocation at `base` cut into the frames of the batch. */
    method Cut(base: nat) returns (frames: seq<Frame>)
      requires base < UINT64
      ensures |frames| == params.batchSize && Steps(frames, blockSize, base)
      ensures forall i :: 0 <= i < |frames| ==> Described(frames[i])
    {
      hide Times;
      hide U64;
      frames := [];
      var iova := base;
      SwapTimes(0, blockSize);
      SwapTimes(blockSize, 0);
      for i := 0 to params.batchSize
        invariant |frames| == i && iova == U64(base + Times(i, blockSize))
        invariant Steps(frames, blockSize, base)
        invariant forall k :: 0 <= k < i ==> Described(frames[k])
      {
        frames := frames + [Frame(
          params.format, iova, params.width, params.height, if planes == [] then 0 else planes[0].pitch,
          U32(blockSize), planes)];
        StepOn(base, blockSize, i);
        iova := U64(iova + blockSize);
      }
    }

    /** What Alloc writes into a frame besides its address. */
    predicate Described(f: Frame)
      reads this
    {
      && f.format == params.format && f.width == params.width && f.height == params.height
      && f.planes == planes && f.pitch == (if planes == [] then 0 else planes[0].pitch) && f.dataSize == U32(blockSize)
    }

    lemma Apart(frames: seq<Frame>, base: nat)
      requires Valid() && Fits() && |frames| == params.batchSize && Steps(frames, blockSize, base)
      requires forall i :: 0 <= i < |frames| ==> frames[i].planes == planes
      requires 0 < base < UINT64 && Times(|frames|, blockSize) < UINT64 && base + Times(|frames|, blockSize) <= UINT64
      ensures BytesApart(frames, base, Times(|frames|, blockSize))
    {
      if params.size == 0 {
        ComputedIsExact(params.format, params.width, params.height, AlignW(), AlignH(), PlaneCount(params.format));
        PlanesTile(params.format, params.width, params.height, AlignW(), AlignH(), PlaneCount(params.format));
        FramesApart(frames, planes, AlignW(), base);
      }
    }

    /** Free: what goes back to the device is the address of the first frame. */
    static method Free(frames: seq<Frame>) returns (address: nat)
      requires frames != []
      ensures forall block: nat, base: nat :: base < UINT64 && Steps(frames, block, base) ==> address == base
    {
      address := frames[0].dataPtr;
      forall block: nat, base: nat | base < UINT64 && Steps(frames, block, base) ensures address == base {
        assert Times(0, block) == 0;
      }
    }
  }

  lemma StepOn(base: nat, block: nat, i: nat)
    ensures U64(U64(base + Times(i, block)) + block) == U64(base + Times(i + 1, block))
  {
    TimesGrows(i, i, block);
    var x := base + Times(i, block);
    hide Times;
    AddMod(x, block);
  }

  lemma AddMod(x: nat, y: nat)
    ensures (x % UINT64 + y) % UINT64 == (x + y) % UINT64
  {
    var q, r := (x % UINT64 + y) / UINT64, (x % UINT64 + y) % UINT64;
    assert x + y == (x / UINT64 + q) * UINT64 + r;
  }
}
