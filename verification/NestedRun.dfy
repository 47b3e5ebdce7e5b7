/** Runs of the iterator: what stepping gives, and exactly when it goes through. */
module NestedRun {
  import opened Options
  import opened Digraphs
  import opened Dag
  import Dfs
  import opened NestedGraphs
  import opened NestedDfs

  /** At `x` and after each of the next `k` steps there is a module, or it is the end. */
  ghost predicate Stays(it: Item, x: Iter, k: nat)
    requires WellFormed(it)
    decreases k
  {
    Proper(it, x) && (k > 0 ==> Stays(it, Next(it, x), k - 1))
  }

  /** So it is from `x` on for good. */
  ghost predicate Good(it: Item, x: Iter)
    requires WellFormed(it)
  {
    forall k: nat :: Stays(it, x, k)
  }

  lemma GoodNext(it: Item, x: Iter)
    requires WellFormed(it) && Good(it, x)
    ensures Proper(it, x) && Good(it, Next(it, x))
  {
    assert Stays(it, x, 0);
    forall k: nat ensures Stays(it, Next(it, x), k) { assert Stays(it, x, k + 1); }
  }

  /** The run from `x` comes to the end, and gives the modules `out` one after the other: at every position
      operator* has a module, and operator++ leads to the next one. */
  ghost predicate Visits(it: Item, x: Iter, out: seq<Path>)
    requires WellFormed(it)
    decreases |out|
  {
    && Proper(it, x)
    && if out == [] then x.AtEnd() else !x.AtEnd() && Current(it, x) == out[0] && Visits(it, Next(it, x), out[1..])
  }

  lemma {:induction false} VisitsOnlyThese(it: Item, x: Iter, a: seq<Path>, b: seq<Path>)
    requires WellFormed(it) && Visits(it, x, a) && Visits(it, x, b)
    ensures a == b
    decreases |a|
  {
    if a != [] { VisitsOnlyThese(it, Next(it, x), a[1..], b[1..]); }
  }

  // ----- Where stepping can go on -----

  /** It then gives exactly what is left. */
  lemma {:induction false} AheadVisits(it: Item, x: Iter)
    requires WellFormed(it) && Proper(it, x) && Ahead(it, x)
    ensures Visits(it, x, Rest(it, x))
    decreases |Rest(it, x)|
  {
    hide Ahead;
    hide Proper;
    hide Next;
    hide Rest;
    hide Current;
    if x.AtEnd() {
      EndIsEmpty(it, x);
    } else {
      StepTakesOne(it, x);
      AheadVisits(it, Next(it, x));
      assert Rest(it, x)[1..] == Rest(it, Next(it, x));
    }
  }

  lemma {:induction false} VisitsStays(it: Item, x: Iter, out: seq<Path>, k: nat)
    requires WellFormed(it) && Visits(it, x, out)
    ensures Stays(it, x, k)
    decreases k
  {
    if k > 0 {
      if out == [] { EndStays(it, x, k); } else { VisitsStays(it, Next(it, x), out[1..], k - 1); }
    }
  }

  // ----- Where it cannot -----

  lemma {:induction false} SettledEndIsProper(it: Item, d: Dfs.Cursor)
    requires WellFormed(it) && it.Graph? && Dfs.Live(it.edges, d) && Settle(it, d).AtEnd()
    ensures Proper(it, Settle(it, d))
    decreases Dfs.Left(it.edges, d)
  {
    if !d.AtEnd() {
      Dfs.NextIsNew(it.edges, d);
      SettledEndIsProper(it, Dfs.Next(it.edges, d));
    }
  }

  lemma EndIsProper(it: Item, x: Iter)
    requires WellFormed(it) && Proper(it, x) && Next(it, x).AtEnd()
    ensures Proper(it, Next(it, x)) && Next(it, Next(it, x)) == Next(it, x)
  {
    if !x.AtEnd() {
      Dfs.NextIsNew(it.edges, x.dag);
      SettledEndIsProper(it, Dfs.Next(it.edges, x.dag));
    }
  }

  lemma {:induction false} EndStays(it: Item, x: Iter, k: nat)
    requires WellFormed(it) && Proper(it, x) && x.AtEnd()
    ensures Stays(it, x, k)
    decreases k
  {
    if k > 0 { EndStays(it, x, k - 1); }
  }

  /** At a vertex of `it` that is a subgraph with vertices. */
  ghost predicate AtSubgraph(it: Item, d: Dfs.Cursor, y: Iter)
    requires WellFormed(it)
  {
    && it.Graph? && Dfs.Live(it.edges, d) && !d.AtEnd()
    && Good(it, Iter(d, Some(y)))
  }

  lemma AtSubgraphIsProper(it: Item, d: Dfs.Cursor, y: Iter)
    requires WellFormed(it) && AtSubgraph(it, d, y)
    ensures d.Vertex() < |it.items| && it.items[d.Vertex()].Graph?
    ensures Proper(it.items[d.Vertex()], y) && !y.AtEnd() && Proper(it, Iter(d, Some(y)))
  {
    GoodNext(it, Iter(d, Some(y)));
  }

  /** One step inside the subgraph, or out of it. */
  lemma InnerStep(it: Item, d: Dfs.Cursor, y: Iter)
    requires WellFormed(it) && AtSubgraph(it, d, y)
    ensures d.Vertex() < |it.items|
    ensures var a := it.items[d.Vertex()];
            && a.Graph? && Proper(a, y)
            && (if Next(a, y).AtEnd() then Proper(a, Next(a, y)) && Good(it, Leave(it, d))
                else AtSubgraph(it, d, Next(a, y)))
  {
    AtSubgraphIsProper(it, d, y);
    var a, x := it.items[d.Vertex()], Iter(d, Some(y));
    GoodNext(it, x);
    hide Good;
    hide Leave;
    if Next(a, y).AtEnd() {
      EndIsProper(a, y);
      assert Next(it, x) == Leave(it, d);
    } else {
      assert Next(it, x) == Iter(d, Some(Next(a, y)));
    }
  }

  /** While the whole is good, what goes on inside is. */
  lemma {:induction false} InnerStays(it: Item, d: Dfs.Cursor, y: Iter, k: nat)
    requires WellFormed(it) && AtSubgraph(it, d, y)
    ensures d.Vertex() < |it.items| && Stays(it.items[d.Vertex()], y, k)
    decreases k
  {
    InnerStep(it, d, y);
    hide AtSubgraph;
    hide Leave;
    var a := it.items[d.Vertex()];
    if k > 0 {
      if Next(a, y).AtEnd() {
        EndStays(a, Next(a, y), k - 1);
      } else {
        InnerStays(it, d, Next(a, y), k - 1);
      }
    }
  }

  /** A subgraph in which stepping can go on is left at last. */
  lemma {:induction false} InnerEnds(it: Item, d: Dfs.Cursor, y: Iter)
    requires WellFormed(it) && AtSubgraph(it, d, y) && d.Vertex() < |it.items|
    requires it.items[d.Vertex()].Graph? && Proper(it.items[d.Vertex()], y) && Ahead(it.items[d.Vertex()], y)
    ensures Good(it, Leave(it, d))
    decreases |Rest(it.items[d.Vertex()], y)|
  {
    var a := it.items[d.Vertex()];
    AtSubgraphIsProper(it, d, y);
    InnerStep(it, d, y);
    StepTakesOne(a, y);
    hide AtSubgraph;
    hide Good;
    hide Rest;
    hide Ahead;
    if !Next(a, y).AtEnd() { InnerEnds(it, d, Next(a, y)); }
  }

  /** Where the traversal of a level is good, the vertices that it still visits are solid. */
  lemma {:induction false} GoodVertices(it: Item, d: Dfs.Cursor, v: nat)
    requires WellFormed(it) && it.Graph? && Dfs.Live(it.edges, d) && Good(it, Settle(it, d))
    requires v in Dfs.Yields(it.edges, d)
    ensures v < |it.items| && SolidVertex(it, v)
    decreases it, 0, Dfs.Left(it.edges, d)
  {
    var u := d.Vertex();
    var a := it.items[u];
    Dfs.NextIsNew(it.edges, d);
    var d' := Dfs.Next(it.edges, d);
    assert Dfs.Yields(it.edges, d) == [u] + Dfs.Yields(it.edges, d');
    if a.Module? {
      GoodNext(it, Settle(it, d));
      assert Good(it, Settle(it, d'));
    } else if a.items != [] {
      VertexIsSolid(it, d);
    }
    if v != u { GoodVertices(it, d', v); }
  }

  /** A subgraph with vertices is solid and has a module, and the traversal gets past it. */
  lemma {:induction false} VertexIsSolid(it: Item, d: Dfs.Cursor)
    requires WellFormed(it) && it.Graph? && Dfs.Live(it.edges, d) && !d.AtEnd() && Good(it, Settle(it, d))
    requires it.items[d.Vertex()].Graph? && it.items[d.Vertex()].items != []
    ensures SolidVertex(it, d.Vertex())
    ensures Good(it, Leave(it, d))
    decreases it, 0, 0
  {
    var a := it.items[d.Vertex()];
    var y := Begin(a);
    assert AtSubgraph(it, d, y);
    AtSubgraphIsProper(it, d, y);
    forall k: nat ensures Stays(a, y, k) { InnerStays(it, d, y, k); }
    GoodIsSolid(a);
    BeginRest(a);
    BeginAhead(a);
    AllIsHasNode(a);
    InnerEnds(it, d, y);
  }

  lemma {:induction false} GoodIsSolid(it: Item)
    requires WellFormed(it) && it.Graph? && Good(it, Begin(it))
    ensures Solid(it)
    decreases it, 1, 0
  {
    Dfs.DfsOfAll(it.edges);
    forall v | 0 <= v < |it.items|
      ensures Solid(it.items[v]) && (it.items[v].Graph? && it.items[v].items != [] ==> HasNode(it.items[v]))
    {
      GoodVertices(it, Dfs.Begin(it.edges), v);
    }
  }

  /** Where the run from a position is good, the vertices that come after it are solid. */
  lemma {:induction false} GoodIsAhead(it: Item, x: Iter)
    requires WellFormed(it) && Good(it, x)
    ensures Proper(it, x) && Ahead(it, x)
    decreases it
  {
    GoodNext(it, x);
    if !x.AtEnd() {
      var d := x.dag;
      Dfs.NextIsNew(it.edges, d);
      if x.sub.Some? {
        var a, y := it.items[d.Vertex()], x.sub.value;
        assert x == Iter(d, Some(y));
        forall k: nat ensures Stays(a, y, k) { InnerStays(it, d, y, k); }
        GoodIsAhead(a, y);
        InnerEnds(it, d, y);
      }
      assert Good(it, Leave(it, d));
      forall v | v in Dfs.Yields(it.edges, Dfs.Next(it.edges, d)) ensures v < |it.items| && SolidVertex(it, v) {
        GoodVertices(it, Dfs.Next(it.edges, d), v);
      }
    }
  }

  /** The run from a position goes through, and then gives what is left, if and only if the vertices that come
      after it are solid. */
  lemma RunIsGoodIffAhead(it: Item, x: Iter)
    requires WellFormed(it) && Proper(it, x)
    ensures Ahead(it, x) <==> exists out :: Visits(it, x, out)
    ensures forall out :: Visits(it, x, out) ==> out == Rest(it, x)
  {
    if Ahead(it, x) { AheadVisits(it, x); }
    forall out | Visits(it, x, out) ensures Ahead(it, x) && out == Rest(it, x) { VisitsIsAhead(it, x, out); }
  }

  lemma VisitsIsAhead(it: Item, x: Iter, out: seq<Path>)
    requires WellFormed(it) && Visits(it, x, out)
    ensures Proper(it, x) && Ahead(it, x) && out == Rest(it, x)
  {
    forall k: nat ensures Stays(it, x, k) { VisitsStays(it, x, out, k); }
    GoodIsAhead(it, x);
    AheadVisits(it, x);
    VisitsOnlyThese(it, x, out, Rest(it, x));
  }

  /** The run from DFSBegin goes through, and gives all modules, if and only if the graph is solid. */
  lemma RunIsGoodIffSolid(it: Item)
    requires WellFormed(it) && it.Graph?
    ensures Solid(it) <==> exists out :: Visits(it, Begin(it), out)
    ensures Solid(it) <==> Good(it, Begin(it))
    ensures forall out :: Visits(it, Begin(it), out) ==> out == All(it)
  {
    if Solid(it) {
      BeginRest(it);
      BeginAhead(it);
      AheadVisits(it, Begin(it));
    }
    if Good(it, Begin(it)) { GoodIsSolid(it); }
    forall out | Visits(it, Begin(it), out) ensures Good(it, Begin(it)) && out == All(it) {
      forall k: nat ensures Stays(it, Begin(it), k) { VisitsStays(it, Begin(it), out, k); }
      GoodIsSolid(it);
      BeginRest(it);
      BeginAhead(it);
      AheadVisits(it, Begin(it));
      VisitsOnlyThese(it, Begin(it), out, Rest(it, Begin(it)));
    }
  }

  // ----- A graph that is not solid -----

  /** A subgraph whose only vertex is a subgraph without vertices. */
  function Hollow(): Item {
    Graph("g", [Graph("s", [Graph("E", [], [])], [{}])], [{}])
  }

  function HollowPart(): Item { Graph("s", [Graph("E", [], [])], [{}]) }

  lemma OneVertex(g: Digraph)
    requires g == [{}]
    ensures InRange(g) && Acyclic(g)
    ensures Dfs.Begin(g) == Dfs.Cursor([0], {0})
    ensures Dfs.Next(g, Dfs.Begin(g)).AtEnd()
  {
    NumberedIsAcyclic(g, [0]);
    hide Reach;
    hide Acyclic;
    OnlyHead(g);
    assert g[0] - {0} == {};
    assert Dfs.Unwind(g, [0], {0}) == Dfs.Unwind(g, [], {0}) == [];
  }

  lemma OnlyHead(g: Digraph)
    requires g == [{}]
    ensures Heads(g) == [0]
  {
    assert Preds(g, 0) == {};
    assert HeadsBelow(g, 0) == [] && HeadsBelow(g, 1) == [0];
  }

  /** Inside, the traversal is over before it has found a module. */
  lemma HollowPartHasNoModule()
    ensures WellFormed(HollowPart()) && Begin(HollowPart()).AtEnd()
  {
    hide Dfs.Next;
    hide Dfs.Begin;
    hide Acyclic;
    hide Dfs.Live;
    var s := HollowPart();
    OneVertex(s.edges);
    NumberedIsAcyclic(s.items[0].edges, []);
    assert WellFormed(s.items[0]);
    Dfs.DfsOfAll(s.edges);
    Dfs.NextIsNew(s.edges, Dfs.Begin(s.edges));
    assert Settle(s, Dfs.Next(s.edges, Dfs.Begin(s.edges))).AtEnd();
  }

  /** The traversal then stands at a vertex, short of its end, with no module to give. */
  lemma HollowSubgraphHasNoCurrent()
    ensures var it := Hollow();
            && WellFormed(it) && !Begin(it).AtEnd() && !Proper(it, Begin(it))
            && Begin(it).sub.Some? && Begin(it).sub.value.AtEnd()
  {
    var it := Hollow();
    HollowPartHasNoModule();
    OneVertex(it.edges);
    assert it.items[0] == HollowPart();
    Dfs.DfsOfAll(it.edges);
    hide Dfs.Next;
    hide Dfs.Begin;
    assert Begin(it) == Settle(it, Dfs.Begin(it.edges)) == Iter(Dfs.Begin(it.edges), Some(Begin(it.items[0])));
  }

  // ----- A graph that is solid nowhere after its first vertex -----

  /** `a -> s` where subgraph `s` has one vertex, a subgraph without vertices. */
  function HollowEnd(): Item {
    Graph("g", [Module("a"), HollowPart()], [{1}, {}])
  }

  lemma TwoVertices(g: Digraph)
    requires g == [{1}, {}]
    ensures InRange(g) && Acyclic(g)
    ensures var d := Dfs.Next(g, Dfs.BeginFrom(0)); !d.AtEnd() && d.Vertex() == 1
  {
    NumberedIsAcyclic(g, [0, 1]);
    assert g[0] - {0} == {1};
  }

  lemma VisitsOn(it: Item, x: Iter, out: seq<Path>)
    requires WellFormed(it) && Visits(it, x, out) && !x.AtEnd()
    ensures Proper(it, x) && Proper(it, Next(it, x))
  {
    assert Visits(it, Next(it, x), out[1..]);
  }

  lemma StepsOntoNothing(it: Item)
    requires WellFormed(it) && it.Graph? && it.edges == [{1}, {}] && it.items[0].Module?
    requires it.items[1].Graph? && it.items[1].items != [] && Begin(it.items[1]).AtEnd()
    ensures IsNode(it, [0]) && Proper(it, BeginFrom(it, [0])) && !BeginFrom(it, [0]).AtEnd()
    ensures var x := Next(it, BeginFrom(it, [0])); !x.AtEnd() && !Proper(it, x)
  {
    hide Dfs.Next;
    hide Dfs.Yields;
    hide Begin;
    TwoVertices(it.edges);
    var x := BeginFrom(it, [0]);
    Dfs.NextIsNew(it.edges, x.dag);
    var d := Dfs.Next(it.edges, x.dag);
    assert Next(it, x) == Settle(it, d) == Iter(d, Some(Begin(it.items[1])));
  }

  lemma NoNodeInHollowPart(p: Path)
    ensures !IsNode(HollowPart(), p)
  {
    if p != [] && p[0] < 1 { assert !IsNode(HollowPart().items[0], p[1..]); }
  }

  lemma HollowPartIsBridged()
    ensures WellFormed(HollowPart()) && Bridged(HollowPart())
  {
    hide Reach;
    HollowPartHasNoModule();
    assert Bridged(HollowPart().items[0]);
  }

  lemma WayBackIsRing(g: Digraph, u: nat, v: nat)
    requires u < |g| && v in g[u] && Reach(g, v, u)
    ensures ReachPlus(g, u, u)
  {
  }

  lemma NoWayBack(g: Digraph, u: nat, v: nat)
    requires InRange(g) && Acyclic(g) && u < |g| && v in g[u]
    ensures !Reach(g, v, u)
  {
    if Reach(g, v, u) { WayBackIsRing(g, u, v); }
  }

  lemma NothingComesAfter(it: Item)
    requires WellFormed(it) && it.Graph? && |it.items| == 2 && !HasNode(it.items[1])
    requires Bridged(it.items[0]) && Bridged(it.items[1]) && !Reach(it.edges, 1, 0)
    ensures Bridged(it)
  {
    hide HasNode;
    hide Reach;
    hide WellFormed;
  }

  lemma HollowEndIsWellFormed()
    ensures WellFormed(HollowEnd()) && Bridged(HollowEnd())
  {
    var it := HollowEnd();
    HollowPartHasNoModule();
    TwoVertices(it.edges);
    assert it.items[1] == HollowPart() && it.items[0] == Module("a");
    assert !HasNode(it.items[1]) by {
      forall p ensures !IsNode(it.items[1], p) { NoNodeInHollowPart(p); }
    }
    assert Bridged(it.items[0]);
    NoWayBack(it.edges, 0, 1);
    hide Reach;
    hide Acyclic;
    hide IsNode;
    hide HollowPart;
    hide Bridged;
    hide HasNode;
    HollowPartIsBridged();
    NothingComesAfter(it);
  }

  /** The graph is bridged, yet iterating from `a` steps onto a position without a module. */
  lemma HollowEndBreaksIteration()
    ensures var it := HollowEnd();
            && WellFormed(it) && Bridged(it) && IsNode(it, [0]) && Proper(it, BeginFrom(it, [0]))
            && !Next(it, BeginFrom(it, [0])).AtEnd() && !Proper(it, Next(it, BeginFrom(it, [0])))
            && forall out :: !Visits(it, BeginFrom(it, [0]), out)
  {
    var it := HollowEnd();
    HollowEndIsWellFormed();
    HollowPartHasNoModule();
    hide WellFormed;
    hide Bridged;
    hide Proper;
    hide Next;
    hide Begin;
    hide BeginFrom;
    assert it.items[1] == HollowPart();
    StepsOntoNothing(it);
    forall out ensures !Visits(it, BeginFrom(it, [0]), out) {
      if Visits(it, BeginFrom(it, [0]), out) { VisitsOn(it, BeginFrom(it, [0]), out); }
    }
  }
}
