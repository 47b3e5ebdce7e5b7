/** Post-processing of detections: the in-place sort by score and greedy non-maximum suppression. */
module Detections {

  /** `prob`, and the rectangle with its corner and size. */
  datatype Box = Box(x: real, y: real, width: real, height: real, prob: real)

  // ----- The sort -----

  ghost predicate Descending(s: seq<Box>) {
    forall i, j :: 0 <= i < j < |s| ==> s[i].prob >= s[j].prob
  }

  ghost predicate AllAtLeast(s: seq<Box>, p: real) {
    forall i :: 0 <= i < |s| ==> s[i].prob >= p
  }

  ghost predicate AllAtMost(s: seq<Box>, p: real) {
    forall i :: 0 <= i < |s| ==> s[i].prob <= p
  }

  ghost predicate Rearranged(s: seq<Box>, t: seq<Box>) {
    multiset(s) == multiset(t)
  }

  lemma RearrangedBounds(s: seq<Box>, t: seq<Box>, p: real)
    requires Rearranged(s, t)
    ensures |s| == |t|
    ensures AllAtLeast(s, p) ==> AllAtLeast(t, p)
    ensures AllAtMost(s, p) ==> AllAtMost(t, p)
  {
    assert |multiset(s)| == |multiset(t)|;
    forall i | 0 <= i < |t| ensures t[i] in s {
      assert t[i] in multiset(t);
      assert t[i] in multiset(s);
    }
  }

  lemma Parts(s: seq<Box>, t: seq<Box>, p: real)
    ensures AllAtLeast(s + t, p) ==> AllAtLeast(s, p) && AllAtLeast(t, p)
    ensures AllAtMost(s + t, p) ==> AllAtMost(s, p) && AllAtMost(t, p)
  {
    forall i | 0 <= i < |s| ensures (s + t)[i] == s[i] { }
    forall i | 0 <= i < |t| ensures (s + t)[|s| + i] == t[i] { }
  }

  lemma Descend(s: seq<Box>, m: seq<Box>, t: seq<Box>, p: real)
    requires Descending(s) && AllAtLeast(s, p) && Descending(t) && AllAtMost(t, p)
    requires AllAtLeast(m, p) && AllAtMost(m, p)
    ensures Descending(s + m + t)
  {
  }

  lemma Rearrange(s: seq<Box>, s': seq<Box>, m: seq<Box>, t: seq<Box>, t': seq<Box>)
    requires Rearranged(s, s') && Rearranged(t, t')
    ensures Rearranged(s + m + t, s' + m + t')
  {
  }

  lemma Swapped(s: seq<Box>, i: nat, j: nat)
    requires i < |s| && j < |s|
    ensures Rearranged(s, s[i := s[j]][j := s[i]])
  {
    var t := s[i := s[j]][j := s[i]];
    assert multiset(t) == multiset(s);
  }

  /** Between `left` and `right`, the boxes of `s0` have been moved so that what lies before `i` is not
      below `p` and what lies behind `j` is not above it; all other boxes are where they were. */
  ghost predicate Parted(s0: seq<Box>, s: seq<Box>, left: nat, right: nat, i: nat, j: int, p: real) {
    && left <= right < |s| && left <= i <= right + 1 && left - 1 <= j <= right && |s| == |s0|
    && s[..left] == s0[..left] && s[right + 1..] == s0[right + 1..]
    && Rearranged(s0[left..right + 1], s[left..right + 1])
    && AllAtLeast(s[left..i], p) && AllAtMost(s[j + 1..right + 1], p)
  }

  lemma UpKeeps(s0: seq<Box>, s: seq<Box>, left: nat, right: nat, i: nat, i': nat, j: int, p: real)
    requires Parted(s0, s, left, right, i, j, p) && i <= i' <= right + 1
    requires forall k :: i <= k < i' ==> s[k].prob >= p
    ensures Parted(s0, s, left, right, i', j, p)
  {
    assert s[left..i'] == s[left..i] + s[i..i'];
  }

  lemma DownKeeps(s0: seq<Box>, s: seq<Box>, left: nat, right: nat, i: nat, j: int, j': int, p: real)
    requires Parted(s0, s, left, right, i, j, p) && left - 1 <= j' <= j
    requires forall k :: j' < k <= j ==> s[k].prob <= p
    ensures Parted(s0, s, left, right, i, j', p)
  {
    assert s[j' + 1..right + 1] == s[j' + 1..j + 1] + s[j + 1..right + 1];
  }

  lemma ScansKeep(s0: seq<Box>, s: seq<Box>, left: nat, right: nat, i: nat, i': nat, j: int, j': int, p: real)
    requires Parted(s0, s, left, right, i, j, p) && i <= i' <= right + 1 <= |s| && left - 1 <= j' <= j < |s|
    requires forall k :: i <= k < i' ==> s[k].prob > p
    requires forall k :: j' < k <= j ==> s[k].prob < p
    ensures Parted(s0, s, left, right, i', j', p)
  {
    UpKeeps(s0, s, left, right, i, i', j, p);
    DownKeeps(s0, s, left, right, i', j, j', p);
  }

  lemma SwapKeeps(s0: seq<Box>, s: seq<Box>, left: nat, right: nat, i: nat, j: nat, p: real, s': seq<Box>)
    requires Parted(s0, s, left, right, i, j, p) && i <= j
    requires s' == s[i := s[j]][j := s[i]]
    ensures Parted(s0, s', left, right, i, j, p)
  {
    var part := s[left..right + 1];
    Swapped(part, i - left, j - left);
    assert s'[left..right + 1] == part[i - left := part[j - left]][j - left := part[i - left]];
    assert s'[left..i] == s[left..i] && s'[j + 1..right + 1] == s[j + 1..right + 1];
    assert s'[..left] == s[..left] && s'[right + 1..] == s[right + 1..];
  }

  lemma SwapStep(s0: seq<Box>, s: seq<Box>, left: nat, right: nat, i: nat, j: nat, p: real, s': seq<Box>)
    requires Parted(s0, s, left, right, i, j, p) && i <= j
    requires s' == s[i := s[j]][j := s[i]] && s[i].prob <= p <= s[j].prob
    ensures Parted(s0, s', left, right, i + 1, j - 1, p)
  {
    SwapKeeps(s0, s, left, right, i, j, p, s');
    UpKeeps(s0, s', left, right, i, i + 1, j, p);
    DownKeeps(s0, s', left, right, i + 1, j, j - 1, p);
  }

  /** std::swap of two elements */
  method Exchange(a: array<Box>, i: nat, j: nat)
    requires i < a.Length && j < a.Length
    modifies a
    ensures a[..] == old(a[..])[i := old(a[j])][j := old(a[i])]
    ensures a[i] == old(a[j]) && a[j] == old(a[i])
  {
    a[i], a[j] := a[j], a[i];
  }

  /** The upward scan.  Nothing guards it: it relies on a box, here at `stop`, that is not above the pivot. */
  method ScanUp(a: array<Box>, from: nat, pivot: real, ghost stop: nat) returns (i: nat)
    requires from <= stop < a.Length && a[stop].prob <= pivot
    ensures from <= i <= stop && a[i].prob <= pivot && forall k :: from <= k < i ==> a[k].prob > pivot
  {
    i := from;
    while a[i].prob > pivot
      invariant from <= i <= stop && forall k :: from <= k < i ==> a[k].prob > pivot
      decreases stop - i
    {
      i := i + 1;
    }
  }

  /** The downward scan; it relies on a box that is not below the pivot. */
  method ScanDown(a: array<Box>, from: nat, pivot: real, ghost stop: nat) returns (j: nat)
    requires stop <= from < a.Length && a[stop].prob >= pivot
    ensures stop <= j <= from && a[j].prob >= pivot && forall k :: j < k <= from ==> a[k].prob < pivot
  {
    j := from;
    while a[j].prob < pivot
      invariant stop <= j <= from && forall k :: j < k <= from ==> a[k].prob < pivot
      decreases j
    {
      j := j - 1;
    }
  }

  /** Both scans, one after the other. */
  method Scans(a: array<Box>, left: nat, right: nat, i0: nat, j0: nat, p: real, ghost up: nat, ghost down: nat)
    returns (i: nat, j: nat)
    requires right < a.Length && left <= i0 <= up <= right && left <= down <= j0 <= right
    requires a[up].prob <= p <= a[down].prob
    ensures i0 <= i <= up && down <= j <= j0 && a[i].prob <= p <= a[j].prob
    ensures forall s0 :: Parted(s0, a[..], left, right, i0, j0, p) ==> Parted(s0, a[..], left, right, i, j, p)
  {
    i := ScanUp(a, i0, p, up);
    j := ScanDown(a, j0, p, down);
    forall s0 | Parted(s0, a[..], left, right, i0, j0, p) ensures Parted(s0, a[..], left, right, i, j, p) {
      ScansKeep(s0, a[..], left, right, i0, i, j0, j, p);
    }
  }

  /** One turn of the first loop of qsort_descent_inplace. */
  method Turn(
      a: array<Box>, left: nat, right: nat, i0: nat, j0: nat, p: real,
      ghost s0: seq<Box>, ghost up: nat, ghost down: nat)
    returns (i: nat, j: int)
    requires Parted(s0, a[..], left, right, i0, j0, p)
    requires right < a.Length && left <= i0 <= up <= right && left <= down <= j0 <= right
    requires i0 <= j0 && a[up].prob <= p <= a[down].prob
    modifies a
    ensures Parted(s0, a[..], left, right, i, j, p) && left < i <= right + 1 && left - 1 <= j < right && j - i < j0 - i0
    ensures i <= j ==> j + 1 <= right && a[j + 1].prob <= p && left <= i - 1 && a[i - 1].prob >= p
  {
    hide Parted;
    i, j := Scans(a, left, right, i0, j0, p, up, down);
    if i <= j {
      ghost var s := a[..];
      Exchange(a, i, j);
      SwapStep(s0, s, left, right, i, j, p, a[..]);
      i := i + 1;
      j := j - 1;
    }
  }

  /** The first loop of qsort_descent_inplace.  The boxes that stop the scans lie inside the range: at first
      the pivot itself, later the boxes that were exchanged last. */
  method Partition(a: array<Box>, left: nat, right: nat) returns (i: nat, j: int, ghost p: real)
    requires left <= right < a.Length
    modifies a
    ensures left < i && j < right && j < i && Parted(old(a[..]), a[..], left, right, i, j, p)
  {
    i, j := left, right;
    var pivot := a[(left + right) / 2].prob;
    p := pivot;
    ghost var up, down: int := (left + right) / 2, (left + right) / 2;
    ghost var s0 := a[..];
    assert Parted(s0, a[..], left, right, i, j, p);
    hide Parted;
    while i <= j
      invariant left <= i <= right + 1 && left - 1 <= j <= right
      invariant (i == left && j == right) || (i > left && j < right)
      invariant Parted(s0, a[..], left, right, i, j, p)
      invariant i <= j ==> i <= up <= right && a[up].prob <= p
      invariant i <= j ==> left <= down <= j && a[down].prob >= p
      decreases j - i
    {
      i, j := Turn(a, left, right, i, j, pivot, s0, up, down);
      up, down := j + 1, i - 1;
    }
  }

  /** From `lo` up to `hi`, `s` holds the boxes of `s0` in descending order; the others have stayed. */
  ghost predicate SortedRange(s0: seq<Box>, s: seq<Box>, lo: nat, hi: nat) {
    && lo <= hi <= |s0| == |s|
    && s[..lo] == s0[..lo] && s[hi..] == s0[hi..]
    && Rearranged(s0[lo..hi], s[lo..hi]) && Descending(s[lo..hi])
  }

  lemma SliceOfTake(s: seq<Box>, t: seq<Box>, n: nat, x: nat, y: nat)
    requires x <= y <= n <= |s| && n <= |t| && s[..n] == t[..n]
    ensures s[x..y] == t[x..y]
  {
    forall k | x <= k < y ensures s[k] == t[k] {
      assert s[..n][k] == t[..n][k];
    }
  }

  lemma SliceOfDrop(s: seq<Box>, t: seq<Box>, n: nat, x: nat, y: nat)
    requires n <= x <= y <= |s| == |t| && s[n..] == t[n..]
    ensures s[x..y] == t[x..y]
  {
    forall k | x <= k < y ensures s[k] == t[k] {
      assert s[n..][k - n] == t[n..][k - n];
    }
  }

  lemma Pieces(s: seq<Box>, u: seq<Box>, v: seq<Box>, lo: nat, k: nat, i: nat, hi: nat)
    requires lo <= k <= i <= hi <= |s| == |u| == |v|
    requires u[..lo] == s[..lo] && u[k..] == s[k..] && v[..i] == u[..i] && v[hi..] == u[hi..]
    ensures v[..lo] == s[..lo] && v[hi..] == s[hi..]
    ensures v[lo..k] == u[lo..k] && v[k..i] == s[k..i] && u[i..hi] == s[i..hi]
    ensures s[lo..hi] == s[lo..k] + s[k..i] + s[i..hi]
    ensures v[lo..hi] == u[lo..k] + s[k..i] + v[i..hi]
  {
    SliceOfTake(v, u, i, 0, lo);
    SliceOfDrop(u, s, k, hi, |s|);
    SliceOfTake(v, u, i, lo, k);
    SliceOfTake(v, u, i, k, i);
    SliceOfDrop(u, s, k, k, i);
    SliceOfDrop(u, s, k, i, hi);
    assert v[lo..hi] == v[lo..k] + v[k..i] + v[i..hi];
  }

  /** Sorting what lies up to `j` and what lies from `i` on sorts a partitioned range. */
  lemma JoinRanges(s0: seq<Box>, s: seq<Box>, u: seq<Box>, v: seq<Box>, left: nat, right: nat, i: nat, j: int, p: real)
    requires Parted(s0, s, left, right, i, j, p) && j < i
    requires SortedRange(s, u, left, j + 1) && SortedRange(u, v, i, right + 1)
    ensures SortedRange(s0, v, left, right + 1)
  {
    var k, hi := j + 1, right + 1;
    Pieces(s, u, v, left, k, i, hi);
    var a, m, b := s[left..k], s[k..i], s[i..hi];
    assert s[left..i] == a + m && s[k..hi] == m + b;
    JoinParts(a, u[left..k], m, b, v[i..hi], p);
  }

  lemma JoinParts(a: seq<Box>, a': seq<Box>, m: seq<Box>, b: seq<Box>, b': seq<Box>, p: real)
    requires Rearranged(a, a') && Rearranged(b, b') && Descending(a') && Descending(b')
    requires AllAtLeast(a + m, p) && AllAtMost(m + b, p)
    ensures Rearranged(a + m + b, a' + m + b') && Descending(a' + m + b')
  {
    Rearrange(a, a', m, b, b');
    Parts(a, m, p);
    Parts(m, b, p);
    RearrangedBounds(a, a', p);
    RearrangedBounds(b, b', p);
    Descend(a', m, b', p);
  }

  /** qsort_descent_inplace */
  method QSort(a: array<Box>, left: nat, right: nat)
    requires left <= right < a.Length
    modifies a
    ensures SortedRange(old(a[..]), a[..], left, right + 1)
    decreases right - left
  {
    var i, j, p := Partition(a, left, right);
    ghost var s := a[..];
    assert left - 1 <= j && i <= right + 1;
    hide Parted;
    if left < j { QSort(a, left, j); }
    ghost var u := a[..];
    assert SortedRange(s, u, left, j + 1);
    if i < right { QSort(a, i, right); }
    assert SortedRange(u, a[..], i, right + 1);
    JoinRanges(old(a[..]), s, u, a[..], left, right, i, j, p);
  }

  method Sort(a: array<Box>)
    modifies a
    ensures Rearranged(old(a[..]), a[..]) && Descending(a[..])
  {
    if a.Length == 0 { return; }
    QSort(a, 0, a.Length - 1);
    assert a[0..a.Length - 1 + 1] == a[..];
    assert old(a[0..a.Length - 1 + 1]) == old(a[..]);
  }

  // ----- Overlap -----

  function Max(a: real, b: real): real { if a < b then b else a }
  function Min(a: real, b: real): real { if b < a then b else a }

  function Area(b: Box): real { b.width * b.height }

  /** How far two stretches of a line run together. */
  function Common(a: real, length: real, b: real, length': real): real {
    Min(a + length, b + length') - Max(a, b)
  }

  /** cv::Rect_ `&` and area(): nothing where the rectangles are apart. */
  function Intersection(a: Box, b: Box): real {
    var w, h := Common(a.x, a.width, b.x, b.width), Common(a.y, a.height, b.y, b.height);
    if w <= 0.0 || h <= 0.0 then 0.0 else w * h
  }

  function Union(a: Box, b: Box): real { Area(a) + Area(b) - Intersection(a, b) }

  /** `inter_area / union_area > nms_threshold`; two boxes without area give no number, and do not compare. */
  predicate Overlap(a: Box, b: Box, threshold: real) {
    Union(a, b) != 0.0 && Intersection(a, b) / Union(a, b) > threshold
  }

  predicate Sized(b: Box) { b.width >= 0.0 && b.height >= 0.0 }

  lemma CommonIsSymmetric(a: real, length: real, b: real, length': real)
    ensures Common(a, length, b, length') == Common(b, length', a, length)
  {
  }

  lemma OverlapIsSymmetric(a: Box, b: Box, threshold: real)
    ensures Overlap(a, b, threshold) <==> Overlap(b, a, threshold)
  {
    CommonIsSymmetric(a.x, a.width, b.x, b.width);
    CommonIsSymmetric(a.y, a.height, b.y, b.height);
    hide Common;
    assert Intersection(a, b) == Intersection(b, a);
    hide Intersection;
    hide Area;
    assert Union(a, b) == Union(b, a);
  }

  lemma ProductGrows(a: real, b: real, c: real, d: real)
    requires 0.0 <= a <= c && 0.0 <= b <= d
    ensures 0.0 <= a * b <= c * d
  {
    assert a * b <= c * b;
    assert c * b <= c * d;
  }

  /** The ratio is a proportion: the intersection is no larger than the union. */
  lemma IntersectionInUnion(a: Box, b: Box)
    requires Sized(a) && Sized(b)
    ensures 0.0 <= Intersection(a, b) <= Union(a, b)
  {
    var w, h := Common(a.x, a.width, b.x, b.width), Common(a.y, a.height, b.y, b.height);
    assert w <= a.width && w <= b.width && h <= a.height && h <= b.height;
    hide Common;
    if w > 0.0 && h > 0.0 {
      ProductGrows(w, h, a.width, a.height);
      ProductGrows(w, h, b.width, b.height);
    } else {
      ProductGrows(0.0, 0.0, a.width, a.height);
      ProductGrows(0.0, 0.0, b.width, b.height);
    }
  }

  // ----- What overlapping means -----

  /** The point is in the rectangle, whose right and lower sides do not belong to it. */
  predicate Covers(b: Box, x: real, y: real) {
    b.x <= x < b.x + b.width && b.y <= y < b.y + b.height
  }

  predicate HasArea(b: Box) { b.width > 0.0 && b.height > 0.0 }

  predicate SameRectangle(a: Box, b: Box) {
    a.x == b.x && a.y == b.y && a.width == b.width && a.height == b.height
  }

  /** `c` covers exactly the points that both `a` and `b` cover. */
  ghost predicate IsCommonPart(a: Box, b: Box, c: Box) {
    forall x, y :: Covers(c, x, y) <==> Covers(a, x, y) && Covers(b, x, y)
  }

  ghost predicate Apart(a: Box, b: Box) {
    forall x, y :: Covers(a, x, y) ==> !Covers(b, x, y)
  }

  /** Inside, side by side, a rectangle's areas add up, and the unit square has area 1. */
  lemma AreaAdds(b: Box, w: real)
    ensures Area(b) == Area(b.(width := w)) + Area(b.(x := b.x + w, width := b.width - w))
    ensures Area(b) == Area(b.(height := w)) + Area(b.(y := b.y + w, height := b.height - w))
    ensures Area(Box(b.x, b.y, 1.0, 1.0, b.prob)) == 1.0
  {
  }

  function Cut(a: Box, b: Box): Box {
    Box(Max(a.x, b.x), Max(a.y, b.y), Common(a.x, a.width, b.x, b.width), Common(a.y, a.height, b.y, b.height), 0.0)
  }

  lemma CutIsCommon(a: Box, b: Box)
    ensures IsCommonPart(a, b, Cut(a, b))
  {
  }

  lemma SamePoints(c: Box, d: Box)
    requires HasArea(c) && HasArea(d) && forall x, y :: Covers(c, x, y) <==> Covers(d, x, y)
    ensures SameRectangle(c, d)
  {
    assert Covers(c, c.x, c.y) && Covers(d, d.x, d.y);
    assert !Covers(c, c.x + c.width, c.y) && !Covers(d, d.x + d.width, d.y);
    assert !Covers(c, c.x, c.y + c.height) && !Covers(d, d.x, d.y + d.height);
  }

  lemma CoversCorner(c: Box)
    ensures HasArea(c) <==> exists x, y :: Covers(c, x, y)
  {
    if HasArea(c) { assert Covers(c, c.x, c.y); }
  }

  /** The intersection is the area of the rectangle of the points in both. */
  lemma IntersectionIsArea(a: Box, b: Box, c: Box)
    requires IsCommonPart(a, b, c) && HasArea(c)
    ensures Intersection(a, b) == Area(c)
  {
    CutIsCommon(a, b);
    assert Covers(c, c.x, c.y);
    assert Covers(Cut(a, b), c.x, c.y);
    SamePoints(c, Cut(a, b));
  }

  /** It is nothing exactly if no point is in both. */
  lemma NoIntersection(a: Box, b: Box)
    ensures Apart(a, b) <==> Intersection(a, b) == 0.0
  {
    CutIsCommon(a, b);
    CoversCorner(Cut(a, b));
    if HasArea(Cut(a, b)) {
      IntersectionIsArea(a, b, Cut(a, b));
      assert Covers(Cut(a, b), Cut(a, b).x, Cut(a, b).y);
      ProductIsPositive(Cut(a, b).width, Cut(a, b).height);
    }
  }

  lemma ProductIsPositive(a: real, b: real)
    requires a > 0.0 && b > 0.0
    ensures a * b > 0.0
  {
  }

  /** Rectangles that are apart do not overlap at any threshold that is not negative. */
  lemma ApartDoNotOverlap(a: Box, b: Box, threshold: real)
    requires Apart(a, b) && threshold >= 0.0
    ensures !Overlap(a, b, threshold)
  {
    NoIntersection(a, b);
  }

  lemma DivisionIs(x: real, y: real, t: real)
    requires y > 0.0
    ensures x / y > t <==> x > t * y
  {
    assert x == (x / y) * y;
    if x / y > t { assert (x / y) * y > t * y; }
    if x / y <= t { assert (x / y) * y <= t * y; }
  }

  /** Two rectangles with areas overlap if the common part is more than the threshold of what they cover together. */
  lemma OverlapIsShare(a: Box, b: Box, threshold: real)
    requires HasArea(a) && HasArea(b)
    ensures Overlap(a, b, threshold) <==> Intersection(a, b) > threshold * (Area(a) + Area(b) - Intersection(a, b))
  {
    IntersectionInUnion(a, b);
    ProductIsPositive(a.width, a.height);
    ProductIsPositive(b.width, b.height);
    IntersectionInArea(a, b);
    hide Intersection;
    hide Area;
    DivisionIs(Intersection(a, b), Union(a, b), threshold);
  }

  lemma IntersectionInArea(a: Box, b: Box)
    requires HasArea(a) && HasArea(b)
    ensures Intersection(a, b) <= Area(a) && Intersection(a, b) <= Area(b)
  {
    var w, h := Common(a.x, a.width, b.x, b.width), Common(a.y, a.height, b.y, b.height);
    assert w <= a.width && w <= b.width && h <= a.height && h <= b.height;
    hide Common;
    ProductIsPositive(a.width, a.height);
    ProductIsPositive(b.width, b.height);
    if w > 0.0 && h > 0.0 {
      ProductGrows(w, h, a.width, a.height);
      ProductGrows(w, h, b.width, b.height);
    }
  }

  /** A rectangle inside another overlaps it if it is more than the threshold of it. */
  lemma InsideOverlaps(a: Box, b: Box, threshold: real)
    requires HasArea(a) && HasArea(b) && forall x, y :: Covers(b, x, y) ==> Covers(a, x, y)
    ensures Overlap(a, b, threshold) <==> Area(b) > threshold * Area(a)
  {
    assert IsCommonPart(a, b, b);
    IntersectionIsArea(a, b, b);
    OverlapIsShare(a, b, threshold);
  }

  /** Equal rectangles overlap at every threshold below 1, and at no other. */
  lemma EqualOverlap(a: Box, b: Box, threshold: real)
    requires HasArea(a) && SameRectangle(a, b)
    ensures Overlap(a, b, threshold) <==> threshold < 1.0
  {
    SameArea(a, b);
    hide Area;
    hide Overlap;
    InsideOverlaps(a, b, threshold);
    ShareOfSelf(Area(a), threshold);
  }

  lemma SameArea(a: Box, b: Box)
    requires HasArea(a) && SameRectangle(a, b)
    ensures Area(a) == Area(b) && Area(a) > 0.0 && HasArea(b)
  {
    ProductIsPositive(a.width, a.height);
  }

  lemma ShareOfSelf(s: real, t: real)
    requires s > 0.0
    ensures s > t * s <==> t < 1.0
  {
    if t < 1.0 { ProductIsPositive(1.0 - t, s); }
    if t >= 1.0 { ProductGrows(1.0, s, t, s); }
  }

  /** A higher threshold lets no more rectangles overlap. */
  lemma HigherThreshold(a: Box, b: Box, low: real, high: real)
    requires low <= high && Overlap(a, b, high)
    ensures Overlap(a, b, low)
  {
    hide Intersection;
    hide Union;
  }

  // ----- Greedy suppression -----

  ghost predicate Rising(picked: seq<nat>, n: nat) {
    && (forall i :: 0 <= i < |picked| ==> picked[i] < n)
    && (forall i, j :: 0 <= i < j < |picked| ==> picked[i] < picked[j])
  }

  /** Box `i` overlaps one of those picked before it. */
  ghost predicate Suppressed(boxes: seq<Box>, picked: seq<nat>, i: nat, t: real)
    requires i < |boxes|
  {
    exists k :: k in picked && k < i && k < |boxes| && Overlap(boxes[i], boxes[k], t)
  }

  /** Of the first `n` boxes, exactly those are picked that overlap none picked before them. */
  ghost predicate Greedy(boxes: seq<Box>, picked: seq<nat>, n: nat, t: real)
    requires n <= |boxes|
  {
    Rising(picked, n) && forall i: nat :: i < n ==> (i in picked <==> !Suppressed(boxes, picked, i, t))
  }

  lemma PickOne(boxes: seq<Box>, picked: seq<nat>, n: nat, t: real)
    requires n < |boxes| && Greedy(boxes, picked, n, t) && !Suppressed(boxes, picked, n, t)
    ensures Greedy(boxes, picked + [n], n + 1, t)
  {
    forall i: nat | i < n + 1 ensures Suppressed(boxes, picked + [n], i, t) <==> Suppressed(boxes, picked, i, t) {
      if k :| k in picked + [n] && k < i && Overlap(boxes[i], boxes[k], t) { assert k in picked; }
    }
    assert forall i: nat :: i in picked ==> i < n;
  }

  lemma PassOne(boxes: seq<Box>, picked: seq<nat>, n: nat, t: real)
    requires n < |boxes| && Greedy(boxes, picked, n, t) && Suppressed(boxes, picked, n, t)
    ensures Greedy(boxes, picked, n + 1, t)
  {
    assert forall i: nat :: i in picked ==> i < n;
  }

  /** nms_sorted_bboxes */
  method Nms(boxes: seq<Box>, threshold: real) returns (picked: seq<nat>)
    ensures Greedy(boxes, picked, |boxes|, threshold)
  {
    picked := [];
    for i := 0 to |boxes|
      invariant Greedy(boxes, picked, i, threshold)
    {
      var keep := true;
      for j := 0 to |picked|
        invariant keep <==> forall k :: 0 <= k < j ==> !Overlap(boxes[i], boxes[picked[k]], threshold)
      {
        if Overlap(boxes[i], boxes[picked[j]], threshold) { keep := false; }
      }
      assert keep <==> !Suppressed(boxes, picked, i, threshold) by {
        forall k | 0 <= k < |picked| ensures picked[k] in picked && picked[k] < i { }
      }
      if keep {
        PickOne(boxes, picked, i, threshold);
        picked := picked + [i];
      } else {
        PassOne(boxes, picked, i, threshold);
      }
    }
  }

  /** The greedy choice is determined by the boxes. */
  lemma {:induction false} GreedyIsUnique(boxes: seq<Box>, p: seq<nat>, q: seq<nat>, n: nat, t: real)
    requires n <= |boxes| && Greedy(boxes, p, n, t) && Greedy(boxes, q, n, t)
    ensures p == q
  {
    var i := 0;
    while i < n
      invariant i <= n && forall k: nat :: k < i ==> (k in p <==> k in q)
    {
      assert Suppressed(boxes, p, i, t) <==> Suppressed(boxes, q, i, t);
      i := i + 1;
    }
    assert forall k: nat :: k in p ==> k < n;
    assert forall k: nat :: k in q ==> k < n;
    RisingIsUnique(p, q, n);
  }

  lemma RisingEndsAlike(p: seq<nat>, q: seq<nat>, n: nat)
    requires Rising(p, n) && Rising(q, n) && p != [] && q != [] && forall k: nat :: k in p <==> k in q
    ensures var p', q' := p[..|p| - 1], q[..|q| - 1];
            p[|p| - 1] == q[|q| - 1] && forall k: nat :: k in p' <==> k in q'
  {
    var a, b := p[|p| - 1], q[|q| - 1];
    assert a in p && b in q;
    assert b in p && a in q;
    var i, j :| 0 <= i < |p| && p[i] == b && 0 <= j < |q| && q[j] == a;
    assert b <= a && a <= b;
    LastIsLeftOut(p, n);
    LastIsLeftOut(q, n);
    var p', q' := p[..|p| - 1], q[..|q| - 1];
    forall k: nat ensures k in p' <==> k in q' { assert k in p <==> k in q; }
  }

  lemma LastIsLeftOut(p: seq<nat>, n: nat)
    requires Rising(p, n) && p != []
    ensures forall k: nat :: k in p[..|p| - 1] <==> k in p && k != p[|p| - 1]
  {
  }

  lemma {:induction false} RisingIsUnique(p: seq<nat>, q: seq<nat>, n: nat)
    requires Rising(p, n) && Rising(q, n) && forall k: nat :: k in p <==> k in q
    ensures p == q
  {
    assert (p != [] ==> p[0] in p) && (q != [] ==> q[0] in q);
    if p != [] && q != [] {
      RisingEndsAlike(p, q, n);
      RisingIsUnique(p[..|p| - 1], q[..|q| - 1], n);
      assert p == p[..|p| - 1] + [p[|p| - 1]] && q == q[..|q| - 1] + [q[|q| - 1]];
    }
  }

  /** Suppression on boxes sorted by score: what is kept does not overlap, and what is rejected overlaps
      something kept of at least its own score. */
  lemma NmsOfSorted(boxes: seq<Box>, picked: seq<nat>, t: real)
    requires Descending(boxes) && Greedy(boxes, picked, |boxes|, t)
    ensures forall i, j :: 0 <= i < j < |picked| ==> !Overlap(boxes[picked[i]], boxes[picked[j]], t)
    ensures forall i: nat :: i < |boxes| && i !in picked ==>
              exists k :: k in picked && k < i && boxes[k].prob >= boxes[i].prob && Overlap(boxes[i], boxes[k], t)
  {
    forall i, j | 0 <= i < j < |picked| ensures !Overlap(boxes[picked[i]], boxes[picked[j]], t) {
      assert picked[i] in picked && picked[j] in picked && !Suppressed(boxes, picked, picked[j], t);
      OverlapIsSymmetric(boxes[picked[i]], boxes[picked[j]], t);
    }
    forall i: nat | i < |boxes| && i !in picked
      ensures exists k :: k in picked && k < i && boxes[k].prob >= boxes[i].prob && Overlap(boxes[i], boxes[k], t)
    {
      assert Suppressed(boxes, picked, i, t);
    }
  }

  /** A box that is apart from all others is picked, and of boxes with the same rectangle at most one is. */
  lemma NmsOfApartAndEqual(boxes: seq<Box>, picked: seq<nat>, t: real, i: nat)
    requires Greedy(boxes, picked, |boxes|, t) && i < |boxes| && 0.0 <= t < 1.0
    ensures (forall j: nat :: j < |boxes| && j != i ==> Apart(boxes[i], boxes[j])) ==> i in picked
    ensures HasArea(boxes[i]) && i in picked ==>
              forall j: nat :: i < j < |boxes| && SameRectangle(boxes[j], boxes[i]) ==> j !in picked
  {
    if forall j: nat :: j < |boxes| && j != i ==> Apart(boxes[i], boxes[j]) {
      forall k | k in picked && k < i ensures !Overlap(boxes[i], boxes[k], t) {
        ApartDoNotOverlap(boxes[i], boxes[k], t);
      }
    }
    if HasArea(boxes[i]) && i in picked {
      forall j: nat | i < j < |boxes| && SameRectangle(boxes[j], boxes[i]) ensures j !in picked {
        EqualOverlap(boxes[j], boxes[i], t);
      }
    }
  }

  /** If all boxes have the same rectangle, the first is picked and no other. */
  lemma NmsOfEqual(boxes: seq<Box>, picked: seq<nat>, t: real)
    requires Greedy(boxes, picked, |boxes|, t) && boxes != [] && HasArea(boxes[0]) && 0.0 <= t < 1.0
    requires forall j :: 0 <= j < |boxes| ==> SameRectangle(boxes[j], boxes[0])
    ensures picked == [0]
  {
    assert 0 in picked;
    NmsOfApartAndEqual(boxes, picked, t, 0);
    assert forall k: nat :: k in picked ==> k < |boxes|;
    RisingIsUnique(picked, [0], |boxes|);
  }

  /** The start of get_out_bbox: sort the proposals, then choose among them. */
  method Choose(proposals: array<Box>, threshold: real) returns (picked: seq<nat>)
    modifies proposals
    ensures Rearranged(old(proposals[..]), proposals[..]) && Descending(proposals[..])
    ensures Greedy(proposals[..], picked, proposals.Length, threshold)
    ensures forall i, j :: 0 <= i < j < |picked| ==>
              && picked[i] < picked[j] < proposals.Length
              && !Overlap(proposals[picked[i]], proposals[picked[j]], threshold)
    ensures forall i: nat :: i < proposals.Length && i !in picked ==>
              exists k :: k in picked && k < i && proposals[k].prob >= proposals[i].prob
                          && Overlap(proposals[i], proposals[k], threshold)
  {
    Sort(proposals);
    picked := Nms(proposals[..], threshold);
    NmsOfSorted(proposals[..], picked, threshold);
  }
}
