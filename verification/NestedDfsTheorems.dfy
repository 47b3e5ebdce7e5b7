/** What iterating over a nested graph yields. */
module NestedDfsTheorems {
  import opened Sequences
  import opened Digraphs
  import opened Dag
  import Dfs
  import opened NestedGraphs
  import opened NestedDfs
  import opened NestedRun
  import NestedExact

  lemma DistinctPrefixed(v: nat, ps: seq<Path>)
    requires Distinct(ps)
    ensures Distinct(Prefixed(v, ps))
  {
    var s := Prefixed(v, ps);
    forall i, j | 0 <= i < j < |s| ensures s[i] != s[j] {
      assert s[i][1..] == ps[i] && s[j][1..] == ps[j];
    }
  }

  lemma {:induction false} DistinctEach(it: Item, vs: seq<nat>)
    requires it.Graph? && WellFormed(it) && Indices(it, vs) && Distinct(vs)
    ensures Distinct(Each(it, vs))
    decreases it, 0, |vs|
  {
    if vs != [] {
      var a, rest := All(it.items[vs[0]]), vs[1..];
      DistinctAll(it.items[vs[0]]);
      DistinctPrefixed(vs[0], a);
      DistinctEach(it, rest);
      forall p | p in Prefixed(vs[0], a) ensures p !in Each(it, rest) {
        InPrefixed(vs[0], a, p);
        InEach(it, rest, p);
      }
      DistinctConcat(Prefixed(vs[0], a), Each(it, rest));
    }
  }

  lemma {:induction false} DistinctAll(it: Item)
    requires WellFormed(it)
    ensures Distinct(All(it))
    decreases it, 1, 0
  {
    if it.Graph? {
      Dfs.DfsOfAll(it.edges);
      YieldsIndices(it, Dfs.Begin(it.edges));
      DistinctEach(it, Dfs.Yields(it.edges, Dfs.Begin(it.edges)));
    }
  }

  /** Iterating from DFSBegin goes through if and only if the graph is solid, and then it visits every module of
      the graph once. */
  lemma IterateAll(it: Item)
    requires WellFormed(it) && it.Graph?
    ensures Solid(it) <==> exists out :: Visits(it, Begin(it), out)
    ensures forall out :: Visits(it, Begin(it), out) ==> Distinct(out) && forall p :: p in out <==> IsNode(it, p)
  {
    RunIsGoodIffSolid(it);
    DistinctAll(it);
    forall p ensures p in All(it) <==> IsNode(it, p) { InAll(it, p); }
  }

  // ----- Iterating from a node -----

  lemma {:induction false} BeginFromProper(it: Item, p: Path)
    requires WellFormed(it) && it.Graph? && IsNode(it, p)
    ensures Proper(it, BeginFrom(it, p))
    ensures !BeginFrom(it, p).AtEnd() && Current(it, BeginFrom(it, p)) == p
  {
    if it.items[p[0]].Graph? { BeginFromProper(it.items[p[0]], p[1..]); }
  }

  /** The traversal of one level from `v` visits `v` first and then the other vertices it reaches. */
  lemma AfterFirst(g: Digraph, v: nat)
    requires InRange(g) && v < |g|
    ensures var d := Dfs.Next(g, Dfs.BeginFrom(v));
            Dfs.Live(g, d) && Distinct(Dfs.Yields(g, d))
            && forall x :: x in Dfs.Yields(g, d) <==> x != v && Reach(g, v, x)
  {
    Dfs.DfsFromVertex(g, v);
    hide Reach;
    hide Dfs.Next;
    var d0 := Dfs.BeginFrom(v);
    Dfs.NextIsNew(g, d0);
    var rest := Dfs.Yields(g, Dfs.Next(g, d0));
    var out := Dfs.Yields(g, d0);
    assert out == [v] + rest;
    assert rest == out[1..];
    forall i, j | 0 <= i < j < |rest| ensures rest[i] != rest[j] { assert out[i + 1] != out[j + 1]; }
    forall i | 0 <= i < |rest| ensures rest[i] != v { assert out[0] != out[i + 1]; }
    forall x ensures x in rest <==> x != v && Reach(g, v, x) { assert x in out <==> x == v || x in rest; }
  }

  /** What is left at a node are, once each, the nodes below it. */
  lemma {:induction false} RestFrom(it: Item, p: Path)
    requires WellFormed(it) && it.Graph? && IsNode(it, p)
    ensures Proper(it, BeginFrom(it, p))
    ensures var out := Rest(it, BeginFrom(it, p));
            Distinct(out) && forall q :: q in out <==> IsNode(it, q) && Below(it, p, q)
    decreases it
  {
    BeginFromProper(it, p);
    var g, v := it.edges, p[0];
    var a := it.items[v];
    AfterFirst(g, v);
    var d := Dfs.Next(g, Dfs.BeginFrom(v));
    YieldsIndices(it, d);
    var vs := Dfs.Yields(g, d);
    DistinctEach(it, vs);
    var inner := if a.Module? then [[]] else Rest(a, BeginFrom(a, p[1..]));
    if a.Graph? { RestFrom(a, p[1..]); }
    JoinRests(it, p, inner, vs);
    assert Rest(it, BeginFrom(it, p)) == Prefixed(v, inner) + Each(it, vs);
  }

  lemma JoinRests(it: Item, p: Path, inner: seq<Path>, vs: seq<nat>)
    requires WellFormed(it) && it.Graph? && IsNode(it, p) && Indices(it, vs)
    requires Distinct(inner) && Distinct(Each(it, vs))
    requires forall q :: q in inner <==> IsNode(it.items[p[0]], q) && Below(it.items[p[0]], p[1..], q)
    requires forall x :: x in vs <==> x != p[0] && Reach(it.edges, p[0], x)
    ensures var out := Prefixed(p[0], inner) + Each(it, vs);
            Distinct(out) && forall q :: q in out <==> IsNode(it, q) && Below(it, p, q)
  {
    hide Reach;
    hide Prefixed;
    hide Each;
    var first, rest := Prefixed(p[0], inner), Each(it, vs);
    DistinctPrefixed(p[0], inner);
    forall q ensures q in first + rest <==> IsNode(it, q) && Below(it, p, q)
             ensures q in first ==> q !in rest
    {
      InPrefixed(p[0], inner, q);
      InEach(it, vs, q);
    }
    DistinctConcat(first, rest);
  }

  /** The first module that is left at the beginning is the node itself. */
  lemma {:induction false} StartsAtItself(it: Item, p: Path)
    requires WellFormed(it) && it.Graph? && IsNode(it, p) && Proper(it, BeginFrom(it, p))
    ensures Rest(it, BeginFrom(it, p)) != [] && Rest(it, BeginFrom(it, p))[0] == p
    decreases it
  {
    var a := it.items[p[0]];
    var inner := [[]];
    if a.Module? {
      assert IsNode(a, p[1..]);
    } else {
      StartsAtItself(a, p[1..]);
      inner := Rest(a, BeginFrom(a, p[1..]));
    }
    assert Prefixed(p[0], inner)[0] == [p[0]] + p[1..] == p;
  }

  /** What comes after a node's position are the vertices that the node's vertices reach. */
  lemma {:induction false} AheadFrom(it: Item, p: Path)
    requires WellFormed(it) && it.Graph? && IsNode(it, p)
    ensures Proper(it, BeginFrom(it, p))
    ensures Ahead(it, BeginFrom(it, p)) <==> PassableFrom(it, p)
    decreases it
  {
    hide SolidVertex;
    BeginFromProper(it, p);
    var x := BeginFrom(it, p);
    var a := it.items[p[0]];
    AfterFirst(it.edges, p[0]);
    var d := Dfs.Next(it.edges, x.dag);
    YieldsIndices(it, d);
    assert SolidFrom(it, d) <==>
        forall v: nat :: v < |it.items| && v != p[0] && Reach(it.edges, p[0], v) ==> SolidVertex(it, v) by
    {
      ReachedInRange(it.edges, p[0]);
    }
    if a.Graph? { AheadFrom(a, p[1..]); }
  }

  lemma ReachedInRange(g: Digraph, u: nat)
    requires InRange(g)
    ensures forall v: nat :: Reach(g, u, v) ==> v < |g|
  {
    forall v: nat | Reach(g, u, v) ensures v < |g| { ReachInRange(g, u, v); }
  }

  /** Iterating from a node goes through if and only if the vertices that come after it are solid, and then it
      visits first that node, and once each exactly the nodes below it. */
  lemma IterateFrom(it: Item, p: Path)
    requires WellFormed(it) && it.Graph? && IsNode(it, p)
    ensures PassableFrom(it, p) <==> exists out :: Visits(it, BeginFrom(it, p), out)
    ensures forall out :: Visits(it, BeginFrom(it, p), out) ==>
              && out != [] && out[0] == p && Distinct(out)
              && forall q :: q in out <==> IsNode(it, q) && Below(it, p, q)
  {
    AheadFrom(it, p);
    RunIsGoodIffAhead(it, BeginFrom(it, p));
    RestFrom(it, p);
    StartsAtItself(it, p);
  }

  lemma {:induction false} BelowIffReach(it: Item, p: Path)
    requires WellFormed(it) && Bridged(it) && IsNode(it, p)
    ensures forall q :: FlatReach(it, p, q) <==> IsNode(it, q) && Below(it, p, q)
  {
    forall q ensures FlatReach(it, p, q) <==> IsNode(it, q) && Below(it, p, q) {
      if IsNode(it, q) && Below(it, p, q) { BelowIsReach(it, p, q); }
      if FlatReach(it, p, q) {
        WalkEndsAreNodes(it, p, q);
        ReachIsBelow(it, p, q);
      }
    }
  }

  /** Iterating from `p` goes through, and visits first `p` and then, once each, exactly the nodes that `next_`
      reaches. */
  ghost predicate IteratesReach(it: Item, p: Path)
    requires WellFormed(it) && it.Graph? && IsNode(it, p)
  {
    exists out :: VisitsReached(it, p, out)
  }

  ghost predicate VisitsReached(it: Item, p: Path, out: seq<Path>)
    requires WellFormed(it) && it.Graph? && IsNode(it, p)
  {
    && Visits(it, BeginFrom(it, p), out) && out != [] && out[0] == p && Distinct(out)
    && forall q :: q in out <==> FlatReach(it, p, q)
  }

  /** So it is if the graph is bridged and the vertices that come after `p` are solid. */
  lemma IterationIsReachability(it: Item, p: Path)
    requires WellFormed(it) && Bridged(it) && it.Graph? && IsNode(it, p) && PassableFrom(it, p)
    ensures IteratesReach(it, p)
  {
    IterateFrom(it, p);
    BelowIffReach(it, p);
    var out :| Visits(it, BeginFrom(it, p), out);
    assert VisitsReached(it, p, out);
  }

  /** Iterating from every node goes through and visits exactly what `next_` reaches from it, if and only if the
      graph is bridged and, at every level, every vertex that a vertex with a module reaches is solid. */
  lemma IterationIsReachabilityIff(it: Item)
    requires WellFormed(it) && it.Graph?
    ensures (forall p :: IsNode(it, p) ==> IteratesReach(it, p)) <==> Bridged(it) && Passable(it)
  {
    hide IteratesReach;
    hide PassableFrom;
    hide FlatReach;
    hide Below;
    hide IsNode;
    hide Bridged;
    hide Passable;
    if Bridged(it) && Passable(it) {
      forall p | IsNode(it, p) ensures IteratesReach(it, p) {
        PassableAt(it, p);
        IterationIsReachability(it, p);
      }
    }
    if forall p :: IsNode(it, p) ==> IteratesReach(it, p) {
      forall p | IsNode(it, p) ensures PassableFrom(it, p) { IteratesOn(it, p); }
      FromAllIsPassable(it);
      forall p, q | IsNode(it, p) && IsNode(it, q) && Below(it, p, q) ensures FlatReach(it, p, q) {
        IteratesOn(it, p);
      }
      NestedExact.ExactIffBridged(it);
    }
  }

  lemma IteratesOn(it: Item, p: Path)
    requires WellFormed(it) && it.Graph? && IsNode(it, p) && IteratesReach(it, p)
    ensures PassableFrom(it, p) && forall q :: IsNode(it, q) && Below(it, p, q) ==> FlatReach(it, p, q)
  {
    hide PassableFrom;
    hide Visits;
    hide FlatReach;
    hide Below;
    hide IsNode;
    hide Ahead;
    hide Rest;
    var out :| VisitsReached(it, p, out);
    VisitsIsAhead(it, BeginFrom(it, p), out);
    AheadFrom(it, p);
    RestFrom(it, p);
  }

  lemma WalkEndsAreNodes(it: Item, p: Path, q: Path)
    requires WellFormed(it) && FlatReach(it, p, q)
    ensures IsNode(it, p) && IsNode(it, q)
  {
    var w :| WalkFromTo(it, w, p, q);
  }

  // ----- A graph that is not bridged -----

  /** `a -> E -> b` where subgraph `E` has no vertex. */
  function EmptyInTheMiddle(): Item {
    Graph("g", [Module("a"), Graph("E", [], []), Module("b")], [{1}, {2}, {}])
  }

  lemma ReachedHasParent(it: Item, p: Path, q: Path)
    requires WellFormed(it) && FlatReach(it, p, q) && p != q
    ensures !Parentless(it, q)
  {
    var w :| WalkFromTo(it, w, p, q);
    assert FlatEdge(it, w[|w| - 2], w[|w| - 1]);
  }

  lemma EmptyInTheMiddleIsWellFormed()
    ensures WellFormed(EmptyInTheMiddle())
  {
    var it := EmptyInTheMiddle();
    NumberedIsAcyclic(it.edges, [0, 1, 2]);
    NumberedIsAcyclic(it.items[1].edges, []);
  }

  lemma LastIsParentless()
    requires WellFormed(EmptyInTheMiddle())
    ensures var it := EmptyInTheMiddle();
            IsNode(it, [2]) && Parentless(it, [2]) && !IsHead(it, [2])
  {
    var it := EmptyInTheMiddle();
    forall p ensures !FlatEdge(it, p, [2]) { }
    assert 1 in Preds(it.edges, 2);
  }

  lemma LastIsBelowFirst()
    ensures var it := EmptyInTheMiddle();
            IsNode(it, [0]) && IsNode(it, [2]) && Below(it, [0], [2])
  {
    var it := EmptyInTheMiddle();
    ReachRefl(it.edges, 0);
    ReachStep(it.edges, 0, 0, 1);
    ReachStep(it.edges, 0, 1, 2);
    hide Reach;
  }

  /** The graph is solid, so iterating from `a` goes through, but it visits `b` though `next_` does not lead
      there; and nothing leads to `b`, though it is not among the heads. */
  lemma EmptySubgraphBreaksReachability()
    ensures var it := EmptyInTheMiddle();
            && WellFormed(it) && Solid(it) && IsNode(it, [0])
            && (exists out :: Visits(it, BeginFrom(it, [0]), out) && [2] in out)
            && !FlatReach(it, [0], [2]) && IsNode(it, [2]) && Parentless(it, [2]) && !IsHead(it, [2])
  {
    var it := EmptyInTheMiddle();
    assert Solid(it);
    EmptyInTheMiddleIsWellFormed();
    LastIsParentless();
    LastIsBelowFirst();
    hide WellFormed;
    hide Solid;
    hide Parentless;
    hide FlatReach;
    hide Below;
    hide IsNode;
    hide IsHead;
    hide BeginFrom;
    hide PassableFrom;
    SolidIsPassable(it);
    PassableAt(it, [0]);
    IterateFrom(it, [0]);
    var out :| Visits(it, BeginFrom(it, [0]), out);
    assert [2] in out;
    if FlatReach(it, [0], [2]) { ReachedHasParent(it, [0], [2]); }
  }
}
