/** `DAGAlgorithm`: the vertices and edges of one graph level, and Kahn's topological sort. */
module Dag {
  import opened Sequences
  import opened Digraphs

  ghost function Preds(g: Digraph, v: nat): set<nat> {
    set u | 0 <= u < |g| && v in g[u]
  }

  /** The vertices below `n` without predecessors, in the order in which GetHeads finds them. */
  ghost function HeadsBelow(g: Digraph, n: nat): seq<nat> {
    if n == 0 then []
    else HeadsBelow(g, n - 1) + if Preds(g, n - 1) == {} then [n - 1] else []
  }

  ghost function Heads(g: Digraph): seq<nat> { HeadsBelow(g, |g|) }

  lemma {:induction false} HeadsAreHeads(g: Digraph, n: nat)
    ensures Distinct(HeadsBelow(g, n))
    ensures forall v: nat :: v in HeadsBelow(g, n) <==> v < n && Preds(g, v) == {}
  {
    if n > 0 { HeadsAreHeads(g, n - 1); }
  }

  /** Every predecessor of a listed vertex is listed before it. */
  ghost predicate PredsFirst(g: Digraph, s: seq<nat>) {
    forall j, u :: 0 <= j < |s| && u in Preds(g, s[j]) ==> u in s[..j]
  }

  /** `v` lies on a cycle or behind one. */
  ghost predicate BehindCycle(g: Digraph, v: nat) {
    exists u: nat :: u < |g| && ReachPlus(g, u, u) && Reach(g, u, v)
  }

  /** What topological sorting returns. */
  ghost predicate IsTopoSort(g: Digraph, sorted: seq<nat>, unsorted: seq<nat>) {
    && Distinct(sorted + unsorted)
    && (forall v: nat :: v in sorted + unsorted <==> v < |g|)
    && PredsFirst(g, sorted)
    && (forall v: nat :: v in unsorted <==> v < |g| && BehindCycle(g, v))
    && (unsorted == [] <==> Acyclic(g))
  }

  lemma {:induction false} DistinctIsShort(s: seq<nat>, n: nat)
    requires Distinct(s) && forall v :: v in s ==> v < n
    ensures |s| <= n
  {
    DistinctSize(s);
    UpToSize(n, Elements(s));
  }

  lemma {:induction false} UpToSize(n: nat, elems: set<nat>)
    requires forall v :: v in elems ==> v < n
    ensures |elems| <= n
  {
    if n > 0 {
      UpToSize(n - 1, elems - {n - 1});
    } else {
      assert elems == {};
    }
  }

  /** Listed vertices lie on no cycle and behind none: going back along a path stays in the list. */
  lemma {:induction false} ListedReachBack(g: Digraph, sorted: seq<nat>, u: nat, v: nat, j: nat)
    requires InRange(g) && PredsFirst(g, sorted) && Distinct(sorted) && j < |sorted| && sorted[j] == v && Reach(g, u, v)
    ensures exists i :: 0 <= i <= j && sorted[i] == u
    ensures !ReachPlus(g, v, v)
    decreases j
  {
    if ReachPlus(g, v, v) {
      var c :| v < |g| && c in g[v] && Reach(g, c, v);
      var w := v;
      if c != v { w := ReachLast(g, c, v); }
      assert w in Preds(g, v);
      var k :| 0 <= k < j && sorted[k] == w;
      ReachPrepend(g, v, c, v);
      if c == v { assert false; }
      ReachPrepend(g, v, c, w);
      ListedReachBack(g, sorted, v, w, k);
    }
    if u != v {
      var w := ReachLast(g, u, v);
      assert w in Preds(g, v);
      var k :| 0 <= k < j && sorted[k] == w;
      ListedReachBack(g, sorted, u, w, k);
    }
  }

  /** If each of some vertices has a predecessor among them, every one is behind a cycle. */
  lemma StuckIsBehindCycle(g: Digraph, left: set<nat>, v: nat)
    requires InRange(g) && v in left && forall x :: x in left ==> x < |g| && Preds(g, x) * left != {}
    ensures BehindCycle(g, v)
  {
    var behind := set x | x in left && Reach(g, x, v);
    ReachRefl(g, v);
    assert v in behind;
    var m := LowestRank(g, behind);
    var u :| u in Preds(g, m) * left;
    ReachPrepend(g, u, m, v);
    assert u in behind;
    if !ReachPlus(g, u, u) { RankGrows(g, u, m); }
  }

  /** What the scan leaves is behind a cycle, and what it lists is not. */
  lemma LeftIsBehindCycle(g: Digraph, sorted: seq<nat>, unsorted: seq<nat>, v: nat)
    requires InRange(g) && v in unsorted && forall x: nat :: x in sorted + unsorted ==> x < |g|
    requires forall x :: x in unsorted ==> exists u :: u in Preds(g, x) && u in unsorted
    ensures BehindCycle(g, v)
  {
    var left := set x | x in unsorted;
    forall x | x in left ensures x < |g| && Preds(g, x) * left != {} {
      assert x in sorted + unsorted;
      var u :| u in Preds(g, x) && u in unsorted;
      assert u in Preds(g, x) * left;
    }
    StuckIsBehindCycle(g, left, v);
  }

  lemma ListedIsNotBehindCycle(g: Digraph, sorted: seq<nat>, v: nat)
    requires InRange(g) && Distinct(sorted) && PredsFirst(g, sorted) && v in sorted
    ensures !BehindCycle(g, v)
  {
    if BehindCycle(g, v) {
      var j :| 0 <= j < |sorted| && sorted[j] == v;
      var u: nat :| u < |g| && ReachPlus(g, u, u) && Reach(g, u, v);
      ListedReachBack(g, sorted, u, v, j);
      var i :| 0 <= i <= j && sorted[i] == u;
      ReachRefl(g, u);
      ListedReachBack(g, sorted, u, u, i);
    }
  }

  lemma CycleIsBehindItself(g: Digraph, v: nat)
    requires v < |g| && ReachPlus(g, v, v)
    ensures BehindCycle(g, v)
  {
    ReachRefl(g, v);
  }

  lemma KahnIsTopoSort(g: Digraph, sorted: seq<nat>, unsorted: seq<nat>)
    requires InRange(g) && Distinct(sorted + unsorted) && PredsFirst(g, sorted)
    requires forall v: nat :: v in sorted + unsorted <==> v < |g|
    requires forall v :: v in unsorted ==> exists u :: u in Preds(g, v) && u in unsorted
    ensures IsTopoSort(g, sorted, unsorted)
  {
    PrefixDistinct(sorted, unsorted);
    forall v: nat ensures v in unsorted <==> v < |g| && BehindCycle(g, v) {
      assert v in sorted + unsorted <==> v in sorted || v in unsorted;
      if v in unsorted {
        LeftIsBehindCycle(g, sorted, unsorted, v);
      } else if v in sorted {
        ListedIsNotBehindCycle(g, sorted, v);
      }
    }
    hide BehindCycle;
    hide ReachPlus;
    hide PredsFirst;
    if unsorted == [] {
      forall v | 0 <= v < |g| ensures !ReachPlus(g, v, v) {
        if ReachPlus(g, v, v) { CycleIsBehindItself(g, v); }
      }
    } else {
      var v := unsorted[0];
      assert v in unsorted;
      BehindIsCyclic(g, v);
    }
  }

  lemma BehindIsCyclic(g: Digraph, v: nat)
    requires BehindCycle(g, v)
    ensures !Acyclic(g)
  {
  }

  // ----- The class -----

  class DAGAlgorithm {
    var edges: seq<set<nat>>
    var indegrees: seq<int>

    ghost predicate Valid()
      reads this
    {
      && |indegrees| == |edges| && InRange(edges)
      && (forall v :: 0 <= v < |edges| ==> indegrees[v] == |Preds(edges, v)|)
    }

    constructor ()
      ensures Valid() && edges == []
    {
      edges, indegrees := [], [];
    }

    method AddVertex() returns (v: nat)
      requires Valid()
      modifies this
      ensures Valid() && v == |old(edges)| && edges == old(edges) + [{}]
    {
      edges := edges + [{}];
      indegrees := indegrees + [0];
      v := |edges| - 1;
      forall x | 0 <= x < |edges| ensures indegrees[x] == |Preds(edges, x)| {
        if x < v { assert Preds(edges, x) == Preds(old(edges), x); } else { assert Preds(edges, x) == {}; }
      }
    }

    /** Refuses an endpoint that does not exist and an edge that is there already. */
    method AddEdge(a: nat, b: nat) returns (ok: bool)
      requires Valid()
      modifies this
      ensures Valid() && |edges| == |old(edges)|
      ensures ok <==> a < |old(edges)| && b < |old(edges)| && b !in old(edges)[a]
      ensures edges == if ok then old(edges)[a := old(edges)[a] + {b}] else old(edges)
    {
      if a >= |edges| || b >= |edges| { return false; }
      if b in edges[a] { return false; }
      edges := edges[a := edges[a] + {b}];
      indegrees := indegrees[b := indegrees[b] + 1];
      forall x | 0 <= x < |edges| ensures indegrees[x] == |Preds(edges, x)| {
        assert Preds(edges, x) == Preds(old(edges), x) + if x == b then {a} else {};
      }
      ok := true;
    }

    method GetHeads() returns (heads: seq<nat>)
      requires Valid()
      ensures heads == Heads(edges)
      ensures Distinct(heads) && forall v: nat :: v in heads <==> v < |edges| && Preds(edges, v) == {}
    {
      heads := [];
      for v := 0 to |edges|
        invariant heads == HeadsBelow(edges, v)
      {
        if indegrees[v] == 0 { heads := heads + [v]; }
      }
      HeadsAreHeads(edges, |edges|);
    }

    method GetTails() returns (tails: seq<nat>)
      requires Valid()
      ensures Distinct(tails) && forall v: nat :: v in tails <==> v < |edges| && edges[v] == {}
    {
      tails := [];
      for v := 0 to |edges|
        invariant Distinct(tails)
        invariant forall x: nat :: x in tails <==> x < v && edges[x] == {}
      {
        if |edges[v]| == 0 {
          DistinctAppend(tails, v);
          tails := tails + [v];
        }
      }
    }

    /** The state of Kahn's scan: a removed vertex has degree -1, any other the number of its
        predecessors that are not removed. */
    ghost predicate Scanned(deg: seq<int>, sorted: seq<nat>)
      requires Valid()
      reads this
    {
      && |deg| == |edges|
      && (forall v :: v in sorted ==> v < |edges|)
      && (forall v :: 0 <= v < |edges| ==> deg[v] == Degree(sorted, v))
      && Distinct(sorted) && PredsFirst(edges, sorted)
    }

    ghost function Degree(sorted: seq<nat>, v: nat): int
      reads this
    {
      if v in sorted then -1 else |Preds(edges, v) - (set x | x in sorted)|
    }

    /** Removes, in one pass, the vertices that have no predecessor left. */
    method Scan(deg0: seq<int>, sorted0: seq<nat>) returns (deg: seq<int>, sorted: seq<nat>, removed: bool)
      requires Valid() && Scanned(deg0, sorted0)
      ensures Scanned(deg, sorted) && |sorted| <= |edges|
      ensures if removed then |sorted0| < |sorted|
              else sorted == sorted0 && forall v :: 0 <= v < |edges| ==> deg[v] != 0
    {
      deg, sorted, removed := deg0, sorted0, false;
      DistinctIsShort(sorted, |edges|);
      for v := 0 to |deg|
        invariant Scanned(deg, sorted) && |sorted| <= |edges|
        invariant if removed then |sorted0| < |sorted|
                  else sorted == sorted0 && forall x :: 0 <= x < v ==> deg[x] != 0
      {
        if deg[v] == 0 {
          deg := Remove(deg, sorted, v);
          sorted := sorted + [v];
          removed := true;
          DistinctIsShort(sorted, |edges|);
        }
      }
    }

    method TopoSort() returns (sorted: seq<nat>, unsorted: seq<nat>)
      requires Valid()
      ensures IsTopoSort(edges, sorted, unsorted)
    {
      sorted := [];
      var deg := indegrees;
      var removed := true;
      assert forall v :: 0 <= v < |edges| ==> Preds(edges, v) - (set x: nat | x in []) == Preds(edges, v);
      while removed
        invariant Scanned(deg, sorted) && |sorted| <= |edges|
        invariant !removed ==> forall v :: 0 <= v < |edges| ==> deg[v] != 0
        decreases if removed then |edges| - |sorted| + 1 else 0
      {
        deg, sorted, removed := Scan(deg, sorted);
      }
      unsorted := Unsorted(deg, sorted);
      LeftOverIsStuck(deg, sorted, unsorted);
    }

    /** The vertices that the scan left. */
    method Unsorted(deg: seq<int>, ghost sorted: seq<nat>) returns (unsorted: seq<nat>)
      requires Valid() && Scanned(deg, sorted)
      ensures Distinct(unsorted) && forall x: nat :: x in unsorted <==> x < |edges| && x !in sorted
    {
      unsorted := [];
      for v := 0 to |deg|
        invariant Distinct(unsorted)
        invariant forall x: nat :: x in unsorted <==> x < v && x !in sorted
      {
        if deg[v] != -1 {
          DistinctAppend(unsorted, v);
          unsorted := unsorted + [v];
        }
      }
    }

    lemma LeftOverIsStuck(deg: seq<int>, sorted: seq<nat>, unsorted: seq<nat>)
      requires Valid() && Scanned(deg, sorted) && forall v :: 0 <= v < |edges| ==> deg[v] != 0
      requires Distinct(unsorted) && forall x: nat :: x in unsorted <==> x < |edges| && x !in sorted
      ensures IsTopoSort(edges, sorted, unsorted)
    {
      forall v | v in unsorted ensures exists u :: u in Preds(edges, v) && u in unsorted {
        var left := Preds(edges, v) - (set x | x in sorted);
        assert deg[v] == Degree(sorted, v);
        var u :| u in left;
        assert u in unsorted;
      }
      DistinctConcat(sorted, unsorted);
      KahnIsTopoSort(edges, sorted, unsorted);
    }

    /** Takes vertex `v` out: its successors lose a predecessor. */
    method Remove(deg0: seq<int>, ghost sorted: seq<nat>, v: nat) returns (deg: seq<int>)
      requires Valid() && Scanned(deg0, sorted) && v < |edges| && deg0[v] == 0
      ensures Scanned(deg, sorted + [v])
    {
      hide PredsFirst;
      hide Distinct;
      hide Degree;
      deg := deg0;
      var rest := edges[v];
      while rest != {}
        invariant |deg| == |edges| && rest <= edges[v]
        invariant forall x :: 0 <= x < |edges| ==>
          deg[x] == deg0[x] - if x in edges[v] - rest then 1 else 0
        decreases rest
      {
        var e :| e in rest;
        deg := deg[e := deg[e] - 1];
        rest := rest - {e};
      }
      deg := deg[v := -1];
      RemovedScanned(deg0, sorted, v, deg);
    }

    lemma RemovedScanned(deg0: seq<int>, sorted: seq<nat>, v: nat, deg: seq<int>)
      requires Valid() && Scanned(deg0, sorted) && v < |edges| && deg0[v] == 0
      requires |deg| == |edges| && deg[v] == -1
      requires forall x :: 0 <= x < |edges| && x != v ==> deg[x] == deg0[x] - if x in edges[v] then 1 else 0
      ensures Scanned(deg, sorted + [v])
    {
      hide PredsFirst;
      hide Distinct;
      assert deg0[v] == Degree(sorted, v);
      assert v !in sorted && Degree(sorted + [v], v) == -1;
      hide Degree;
      RemovedDegrees(sorted, v);
      forall x | 0 <= x < |edges| ensures deg[x] == Degree(sorted + [v], x) {
        if x != v { assert deg0[x] == Degree(sorted, x); }
      }
    }

    lemma RemovedDegrees(sorted: seq<nat>, v: nat)
      requires Valid() && v < |edges| && v !in sorted && Degree(sorted, v) == 0
      requires Distinct(sorted) && PredsFirst(edges, sorted)
      ensures Distinct(sorted + [v]) && PredsFirst(edges, sorted + [v])
      ensures forall x :: 0 <= x < |edges| && x != v ==>
        Degree(sorted + [v], x) == Degree(sorted, x) - if x in edges[v] then 1 else 0
    {
      DistinctAppend(sorted, v);
      var more := sorted + [v];
      forall j, u | 0 <= j < |more| && u in Preds(edges, more[j]) ensures u in more[..j] {
        assert more[..j] == sorted[..j];
        if j == |sorted| {
          assert u !in Preds(edges, v) - (set x | x in sorted);
          assert sorted[..j] == sorted;
        }
      }
      forall x | 0 <= x < |edges| && x != v
        ensures Degree(more, x) == Degree(sorted, x) - if x in edges[v] then 1 else 0
      {
        RemovedDegree(sorted, v, x);
      }
    }

    lemma RemovedDegree(sorted: seq<nat>, v: nat, x: nat)
      requires Valid() && v < |edges| && v !in sorted && PredsFirst(edges, sorted) && x < |edges| && x != v
      ensures Degree(sorted + [v], x) == Degree(sorted, x) - if x in edges[v] then 1 else 0
    {
      var gone, gone' := set y | y in sorted, set y | y in sorted + [v];
      assert gone' == gone + {v};
      if x in sorted {
        var j :| 0 <= j < |sorted| && sorted[j] == x;
        assert v !in sorted[..j] && v !in Preds(edges, x);
      } else if x in edges[v] {
        assert Preds(edges, x) - gone' == Preds(edges, x) - gone - {v};
      } else {
        assert Preds(edges, x) - gone' == Preds(edges, x) - gone;
      }
    }
  }
}
