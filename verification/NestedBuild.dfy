/** What UNIGraph computes over its own levels: heads and tails, the `next_` links, and the
    topological order of all modules. */
module NestedBuilds {
  import opened Sequences
  import opened Digraphs
  import opened Dag
  import opened NestedGraphs
  import opened NestedDfs
  import opened NestedDfsTheorems
  import opened GraphIterators

  ghost predicate IsEnd(it: Item, p: Path, heads: bool)
    requires WellFormed(it)
  {
    if heads then IsHead(it, p) else IsTail(it, p)
  }

  /** `out` holds the heads, or the tails, of each of the vertices `vs`. */
  ghost predicate Gathered(it: Item, vs: seq<nat>, out: seq<Path>, heads: bool)
    requires it.Graph? && WellFormed(it)
  {
    && Distinct(out)
    && forall p :: p in out <==> p != [] && p[0] in vs && p[0] < |it.items| && IsEnd(it.items[p[0]], p[1..], heads)
  }

  lemma GatherOne(it: Item, vs: seq<nat>, v: nat, out: seq<Path>, own: seq<Path>, heads: bool)
    requires it.Graph? && WellFormed(it) && v < |it.items| && v !in vs && Gathered(it, vs, out, heads)
    requires Distinct(own) && forall p :: p in own <==> IsEnd(it.items[v], p, heads)
    ensures Gathered(it, vs + [v], out + Prefixed(v, own), heads)
  {
    DistinctPrefixed(v, own);
    forall p ensures p in Prefixed(v, own) <==> p != [] && p[0] == v && p[1..] in own { InPrefixed(v, own, p); }
    hide Prefixed;
    DistinctConcat(out, Prefixed(v, own));
  }

  method FindHeadsAndTails(it: Item) returns (heads: seq<Path>, tails: seq<Path>)
    requires WellFormed(it)
    ensures Distinct(heads) && forall p :: p in heads <==> IsHead(it, p)
    ensures Distinct(tails) && forall p :: p in tails <==> IsTail(it, p)
    decreases it
  {
    hide DAGAlgorithm.Valid;
    if it.Module? { return [[]], [[]]; }
    var dag := BuildDag(it.edges);
    var headVertices := dag.GetHeads();
    var tailVertices := dag.GetTails();
    heads := [];
    for i := 0 to |headVertices|
      invariant Gathered(it, headVertices[..i], heads, true)
    {
      var v := headVertices[i];
      assert v in headVertices && v !in headVertices[..i];
      var own, _ := FindHeadsAndTails(it.items[v]);
      GatherOne(it, headVertices[..i], v, heads, own, true);
      assert headVertices[..i] + [v] == headVertices[..i + 1];
      heads := heads + Prefixed(v, own);
    }
    tails := [];
    for i := 0 to |tailVertices|
      invariant Gathered(it, tailVertices[..i], tails, false)
    {
      var v := tailVertices[i];
      assert v in tailVertices && v !in tailVertices[..i];
      var _, own := FindHeadsAndTails(it.items[v]);
      GatherOne(it, tailVertices[..i], v, tails, own, false);
      assert tailVertices[..i] + [v] == tailVertices[..i + 1];
      tails := tails + Prefixed(v, own);
    }
    assert headVertices[..|headVertices|] == headVertices && tailVertices[..|tailVertices|] == tailVertices;
  }

  // ----- Topological order -----

  /** Every link between two listed nodes points forward. */
  ghost predicate Forward(it: Item, out: seq<Path>)
    requires WellFormed(it)
  {
    forall i, j :: 0 <= i < |out| && 0 <= j < |out| && FlatEdge(it, out[i], out[j]) ==> i < j
  }

  /** The nodes of the vertices `vs`, in an order in which links point forward. */
  ghost predicate SortedPart(it: Item, vs: seq<nat>, out: seq<Path>)
    requires it.Graph? && WellFormed(it)
  {
    && Distinct(out) && Forward(it, out)
    && forall p :: p in out <==> p != [] && p[0] in vs && IsNode(it, p)
  }

  lemma SortOne(it: Item, vs: seq<nat>, v: nat, out: seq<Path>, own: seq<Path>)
    requires it.Graph? && WellFormed(it) && v < |it.items| && v !in vs && SortedPart(it, vs, out)
    requires forall w :: w in vs ==> w < |it.items| && v !in Preds(it.edges, w)
    requires Distinct(own) && Forward(it.items[v], own) && forall p :: p in own <==> IsNode(it.items[v], p)
    ensures SortedPart(it, vs + [v], out + Prefixed(v, own))
  {
    var more := Prefixed(v, own);
    DistinctPrefixed(v, own);
    forall p ensures p in more <==> p != [] && p[0] == v && p[1..] in own { InPrefixed(v, own, p); }
    DistinctConcat(out, more);
    var all := out + more;
    forall i, j | 0 <= i < |all| && 0 <= j < |all| && FlatEdge(it, all[i], all[j]) ensures i < j {
      if |out| <= i && j < |out| {
        assert false;
      } else if |out| <= i {
        LinkInside(it, v, own, i - |out|, j - |out|);
      }
    }
  }

  lemma LinkInside(it: Item, v: nat, own: seq<Path>, i: nat, j: nat)
    requires it.Graph? && WellFormed(it) && v < |it.items| && i < |own| && j < |own|
    requires FlatEdge(it, Prefixed(v, own)[i], Prefixed(v, own)[j])
    ensures FlatEdge(it.items[v], own[i], own[j])
  {
    var p, q := Prefixed(v, own)[i], Prefixed(v, own)[j];
    assert p[1..] == own[i] && q[1..] == own[j];
    if v in it.edges[v] { SelfLoop(it.edges, v); }
  }

  /** Every module appears once, and before every module in its `next_`. */
  method TopoSort(it: Item) returns (results: seq<Path>)
    requires WellFormed(it)
    ensures Distinct(results) && Forward(it, results)
    ensures forall p :: p in results <==> IsNode(it, p)
    decreases it
  {
    if it.Module? { return [[]]; }
    var dag := BuildDag(it.edges);
    var sorted, unsorted := dag.TopoSort();
    SortedAll(it.edges, sorted, unsorted);
    results := [];
    for i := 0 to |sorted|
      invariant SortedPart(it, sorted[..i], results)
    {
      var v := sorted[i];
      NotPredOfEarlier(it.edges, sorted, i);
      if it.items[v].Module? || it.items[v].items != [] {
        var own := TopoSort(it.items[v]);
        SortOne(it, sorted[..i], v, results, own);
        results := results + Prefixed(v, own);
      } else {
        SortOne(it, sorted[..i], v, results, []);
        assert results + Prefixed(v, []) == results;
      }
      assert sorted[..i] + [v] == sorted[..i + 1];
    }
    assert sorted[..|sorted|] == sorted;
  }

  lemma SortedAll(g: Digraph, sorted: seq<nat>, unsorted: seq<nat>)
    requires Acyclic(g) && IsTopoSort(g, sorted, unsorted)
    ensures PredsFirst(g, sorted) && Distinct(sorted) && forall v: nat :: v in sorted <==> v < |g|
  {
    assert sorted + unsorted == sorted;
  }

  lemma NotPredOfEarlier(g: Digraph, sorted: seq<nat>, i: nat)
    requires PredsFirst(g, sorted) && Distinct(sorted) && i < |sorted| && forall v: nat :: v in sorted <==> v < |g|
    ensures sorted[i] < |g| && sorted[i] !in sorted[..i]
    ensures forall w :: w in sorted[..i] ==> w < |g| && sorted[i] !in Preds(g, w)
  {
    assert sorted[i] in sorted;
    forall w | w in sorted[..i] ensures w < |g| && sorted[i] !in Preds(g, w) {
      var j :| 0 <= j < i && sorted[j] == w;
      assert w in sorted;
      assert forall k :: 0 <= k < j ==> sorted[k] != sorted[i];
    }
  }

  // ----- Links -----

  /** The links that an edge between vertices `u` and `v` makes. */
  function Crossing(u: nat, tails: seq<Path>, v: nat, heads: seq<Path>): set<(Path, Path)> {
    set t, h | t in tails && h in heads :: ([u] + t, [v] + h)
  }

  /** The links inside a vertex, seen from the graph around it. */
  function Lifted(v: nat, links: set<(Path, Path)>): set<(Path, Path)> {
    set e | e in links :: ([v] + e.0, [v] + e.1)
  }

  lemma InCrossing(u: nat, tails: seq<Path>, v: nat, heads: seq<Path>, p: Path, q: Path)
    ensures (p, q) in Crossing(u, tails, v, heads) <==>
      p != [] && q != [] && p[0] == u && q[0] == v && p[1..] in tails && q[1..] in heads
  {
    if (p, q) in Crossing(u, tails, v, heads) {
      var t, h :| t in tails && h in heads && (p, q) == ([u] + t, [v] + h);
      assert p[1..] == t && q[1..] == h;
    }
    if p != [] && q != [] && p[0] == u && q[0] == v && p[1..] in tails && q[1..] in heads {
      assert p == [u] + p[1..] && q == [v] + q[1..];
    }
  }

  lemma InLifted(v: nat, links: set<(Path, Path)>, p: Path, q: Path)
    ensures (p, q) in Lifted(v, links) <==> p != [] && q != [] && p[0] == v && q[0] == v && (p[1..], q[1..]) in links
  {
    if (p, q) in Lifted(v, links) {
      var e :| e in links && (p, q) == ([v] + e.0, [v] + e.1);
      assert p[1..] == e.0 && q[1..] == e.1;
    }
    if p != [] && q != [] && p[0] == v && q[0] == v && (p[1..], q[1..]) in links {
      var e := (p[1..], q[1..]);
      assert p == [v] + e.0 && q == [v] + e.1;
      assert ([v] + e.0, [v] + e.1) in Lifted(v, links);
    }
  }

  /** `q` is linked from `p` by an edge between vertices, out of one below `u`. */
  ghost predicate AcrossBelow(it: Item, u: nat, p: Path, q: Path)
    requires it.Graph? && WellFormed(it)
  {
    && p != [] && q != [] && p[0] < |it.items| && q[0] in it.edges[p[0]] && q[0] < |it.items| && p[0] < u
    && IsTail(it.items[p[0]], p[1..]) && IsHead(it.items[q[0]], q[1..])
  }

  /** The same out of one below `u`, or out of `u` itself to one that is not in `rest`. */
  ghost predicate Across(it: Item, u: nat, rest: set<nat>, p: Path, q: Path)
    requires it.Graph? && WellFormed(it)
  {
    AcrossBelow(it, u + 1, p, q) && (p[0] == u ==> q[0] !in rest)
  }

  ghost predicate Within(it: Item, n: nat, p: Path, q: Path)
    requires it.Graph? && WellFormed(it)
  {
    && p != [] && q != [] && p[0] < |it.items| && p[0] < n && p[0] == q[0]
    && FlatEdge(it.items[p[0]], p[1..], q[1..])
  }

  /** All pairs of a node and a member of its `next_`. */
  method InitEdges(it: Item) returns (links: set<(Path, Path)>)
    requires WellFormed(it)
    ensures forall p, q :: (p, q) in links <==> FlatEdge(it, p, q)
    decreases it, 1
  {
    if it.Module? { return {}; }
    links := InsideLinks(it);
    ghost var inside := links;
    for u := 0 to |it.items|
      invariant forall p, q :: (p, q) in links <==> (p, q) in inside || AcrossBelow(it, u, p, q)
    {
      var _, tails := FindHeadsAndTails(it.items[u]);
      var rest := it.edges[u];
      while rest != {}
        invariant rest <= it.edges[u]
        invariant forall p, q :: (p, q) in links <==> (p, q) in inside || Across(it, u, rest, p, q)
        decreases rest
      {
        var v :| v in rest;
        var heads, _ := FindHeadsAndTails(it.items[v]);
        ghost var before := links;
        links := links + Crossing(u, tails, v, heads);
        forall p, q ensures (p, q) in links <==> (p, q) in inside || Across(it, u, rest - {v}, p, q) {
          InCrossing(u, tails, v, heads, p, q);
          assert (p, q) in before <==> (p, q) in inside || Across(it, u, rest, p, q);
        }
        rest := rest - {v};
      }
    }
  }

  /** The links made when the subgraphs were initialised. */
  method InsideLinks(it: Item) returns (links: set<(Path, Path)>)
    requires it.Graph? && WellFormed(it)
    ensures forall p, q :: (p, q) in links <==> Within(it, |it.items|, p, q)
    decreases it, 0
  {
    links := {};
    for v := 0 to |it.items|
      invariant forall p, q :: (p, q) in links <==> Within(it, v, p, q)
    {
      var own := InitEdges(it.items[v]);
      forall p, q ensures (p, q) in links + Lifted(v, own) <==> Within(it, v + 1, p, q) { InLifted(v, own, p, q); }
      links := links + Lifted(v, own);
    }
  }
}
