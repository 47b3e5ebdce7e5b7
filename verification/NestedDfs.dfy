/** `UNIGraph::DFSIterator`: depth-first traversal across all levels of nesting. */
module NestedDfs {
  import opened Options
  import opened Digraphs
  import opened Dag
  import Dfs
  import opened NestedGraphs

  /** `dag_iter_`, and `subgraph_iter_` while the current vertex is a subgraph. */
  datatype Iter = Iter(dag: Dfs.Cursor, sub: Option<Iter>) {
    /** Equal to DFSEnd(). */
    predicate AtEnd() { dag.AtEnd() }
  }

  function Prefixed(v: nat, ps: seq<Path>): (out: seq<Path>)
    ensures |out| == |ps|
  {
    seq(|ps|, i requires 0 <= i < |ps| => [v] + ps[i])
  }

  // ----- What is left to iterate over -----

  ghost predicate Indices(it: Item, vs: seq<nat>)
    requires it.Graph?
  {
    forall i :: 0 <= i < |vs| ==> vs[i] < |it.items|
  }

  /** The modules inside the vertices `vs`, one vertex after the other. */
  ghost function Each(it: Item, vs: seq<nat>): seq<Path>
    requires it.Graph? && WellFormed(it) && Indices(it, vs)
    decreases it, 0, |vs|
  {
    if vs == [] then [] else Prefixed(vs[0], All(it.items[vs[0]])) + Each(it, vs[1..])
  }

  /** The modules inside `it`, each level in the order of its own traversal. */
  ghost function All(it: Item): seq<Path>
    requires WellFormed(it)
    decreases it, 1, 0
  {
    match it
    case Module(_) => [[]]
    case Graph(_, _, edges) =>
      Dfs.DfsOfAll(edges);
      AllIndices(it, Dfs.Yields(edges, Dfs.Begin(edges)));
      Each(it, Dfs.Yields(edges, Dfs.Begin(edges)))
  }

  lemma AllIndices(it: Item, vs: seq<nat>)
    requires it.Graph? && forall v :: v in vs ==> v < |it.items|
    ensures Indices(it, vs)
  {
    forall i | 0 <= i < |vs| ensures vs[i] < |it.items| { assert vs[i] in vs; }
  }

  /** What a position can be: inside a vertex that is a subgraph, the iterator of that subgraph is not at its end. */
  ghost predicate Proper(it: Item, x: Iter)
    requires WellFormed(it)
    decreases it
  {
    && it.Graph? && Dfs.Live(it.edges, x.dag)
    && (x.AtEnd() ==> x.sub == None)
    && (!x.AtEnd() ==>
          match it.items[x.dag.Vertex()]
          case Module(_) => x.sub == None
          case Graph(_, _, _) =>
            x.sub.Some? && Proper(it.items[x.dag.Vertex()], x.sub.value) && !x.sub.value.AtEnd())
  }

  lemma {:induction false} YieldsIndices(it: Item, d: Dfs.Cursor)
    requires it.Graph? && WellFormed(it) && Dfs.Live(it.edges, d)
    ensures Indices(it, Dfs.Yields(it.edges, d))
    decreases Dfs.Left(it.edges, d)
  {
    if !d.AtEnd() {
      Dfs.NextIsNew(it.edges, d);
      YieldsIndices(it, Dfs.Next(it.edges, d));
    }
  }

  ghost function EachFrom(it: Item, d: Dfs.Cursor): seq<Path>
    requires it.Graph? && WellFormed(it) && Dfs.Live(it.edges, d)
  {
    YieldsIndices(it, d);
    Each(it, Dfs.Yields(it.edges, d))
  }

  /** The modules from position `x` to the end. */
  ghost function Rest(it: Item, x: Iter): seq<Path>
    requires WellFormed(it) && Proper(it, x)
    decreases it
  {
    if x.AtEnd() then []
    else
      var v := x.dag.Vertex();
      Dfs.NextIsNew(it.edges, x.dag);
      Prefixed(v, if it.items[v].Module? then [[]] else Rest(it.items[v], x.sub.value))
        + EachFrom(it, Dfs.Next(it.edges, x.dag))
  }

  // ----- The iterator -----

  /** Passes over subgraphs without vertices; at any other subgraph its own iterator begins. */
  ghost function Settle(it: Item, d: Dfs.Cursor): Iter
    requires WellFormed(it) && it.Graph? && Dfs.Live(it.edges, d)
    decreases it, 0, Dfs.Left(it.edges, d)
  {
    if d.AtEnd() then Iter(d, None)
    else
      match it.items[d.Vertex()]
      case Module(_) => Iter(d, None)
      case Graph(_, items, _) =>
        if items == [] then
          Dfs.NextIsNew(it.edges, d);
          Settle(it, Dfs.Next(it.edges, d))
        else Iter(d, Some(Begin(it.items[d.Vertex()])))
  }

  ghost function Leave(it: Item, d: Dfs.Cursor): Iter
    requires WellFormed(it) && it.Graph? && Dfs.Live(it.edges, d)
  {
    Dfs.NextIsNew(it.edges, d);
    Settle(it, Dfs.Next(it.edges, d))
  }

  /** DFSBegin */
  ghost function Begin(it: Item): Iter
    requires WellFormed(it) && it.Graph?
    decreases it, 1, 0
  {
    Dfs.DfsOfAll(it.edges);
    Settle(it, Dfs.Begin(it.edges))
  }

  /** DFSBeginFrom */
  ghost function BeginFrom(it: Item, p: Path): Iter
    requires it.Graph? && IsNode(it, p)
    decreases it
  {
    Iter(Dfs.BeginFrom(p[0]),
         if it.items[p[0]].Module? then None else Some(BeginFrom(it.items[p[0]], p[1..])))
  }

  /** operator++ */
  ghost function Next(it: Item, x: Iter): Iter
    requires WellFormed(it) && Proper(it, x)
    decreases it
  {
    if x.AtEnd() then x
    else
      var v := x.dag.Vertex();
      var inner := if x.sub.Some? then Some(Next(it.items[v], x.sub.value)) else None;
      if inner.Some? && !inner.value.AtEnd() then x.(sub := inner) else Leave(it, x.dag)
  }

  /** operator* */
  function Current(it: Item, x: Iter): Path
    requires WellFormed(it) && Proper(it, x) && !x.AtEnd()
    decreases it
  {
    [x.dag.Vertex()] + if x.sub.Some? then Current(it.items[x.dag.Vertex()], x.sub.value) else []
  }

  // ----- Where stepping can go on -----

  /** All vertices that a level's traversal has yet to visit are solid. */
  ghost predicate SolidFrom(it: Item, d: Dfs.Cursor)
    requires WellFormed(it) && it.Graph? && Dfs.Live(it.edges, d)
  {
    forall v :: v in Dfs.Yields(it.edges, d) ==> v < |it.items| && SolidVertex(it, v)
  }

  /** The vertices that come after position `x` are solid, at every level. */
  ghost predicate Ahead(it: Item, x: Iter)
    requires WellFormed(it) && Proper(it, x)
    decreases it
  {
    x.AtEnd() ||
      (Dfs.NextIsNew(it.edges, x.dag);
       && SolidFrom(it, Dfs.Next(it.edges, x.dag))
       && (x.sub.Some? ==> Ahead(it.items[x.dag.Vertex()], x.sub.value)))
  }

  lemma SolidFromNext(it: Item, d: Dfs.Cursor)
    requires WellFormed(it) && it.Graph? && Dfs.Live(it.edges, d) && SolidFrom(it, d) && !d.AtEnd()
    ensures Dfs.Live(it.edges, Dfs.Next(it.edges, d)) && SolidFrom(it, Dfs.Next(it.edges, d))
    ensures d.Vertex() < |it.items| && SolidVertex(it, d.Vertex())
  {
    Dfs.NextIsNew(it.edges, d);
    hide Dfs.Next;
    assert Dfs.Yields(it.edges, d) == [d.Vertex()] + Dfs.Yields(it.edges, Dfs.Next(it.edges, d));
  }

  lemma SolidFromAnywhere(it: Item, d: Dfs.Cursor)
    requires WellFormed(it) && it.Graph? && Dfs.Live(it.edges, d) && Solid(it)
    ensures SolidFrom(it, d)
  {
    YieldsIndices(it, d);
  }

  lemma {:induction false} SettleAhead(it: Item, d: Dfs.Cursor)
    requires WellFormed(it) && it.Graph? && Dfs.Live(it.edges, d) && SolidFrom(it, d)
    ensures Proper(it, Settle(it, d)) && Ahead(it, Settle(it, d))
    decreases it, 0, Dfs.Left(it.edges, d)
  {
    hide Dfs.Next;
    if !d.AtEnd() {
      var a := it.items[d.Vertex()];
      Dfs.NextIsNew(it.edges, d);
      SolidFromNext(it, d);
      SettleRest(it, d);
      hide SolidFrom;
      if a.Graph? {
        if a.items == [] { SettleAhead(it, Dfs.Next(it.edges, d)); } else { BeginAhead(a); }
      }
    }
  }

  lemma {:induction false} BeginAhead(it: Item)
    requires WellFormed(it) && it.Graph? && Solid(it)
    ensures Proper(it, Begin(it)) && Ahead(it, Begin(it))
    decreases it, 1, 0
  {
    Dfs.DfsOfAll(it.edges);
    SolidFromAnywhere(it, Dfs.Begin(it.edges));
    SettleAhead(it, Dfs.Begin(it.edges));
  }

  /** In a solid graph iterating can go on from everywhere. */
  lemma {:induction false} SolidIsAhead(it: Item, x: Iter)
    requires WellFormed(it) && Proper(it, x) && Solid(it)
    ensures Ahead(it, x)
    decreases it
  {
    if !x.AtEnd() {
      Dfs.NextIsNew(it.edges, x.dag);
      SolidFromAnywhere(it, Dfs.Next(it.edges, x.dag));
      if x.sub.Some? { SolidIsAhead(it.items[x.dag.Vertex()], x.sub.value); }
    }
  }

  // ----- Which modules there are -----

  lemma InPrefixed(v: nat, ps: seq<Path>, p: Path)
    ensures p in Prefixed(v, ps) <==> p != [] && p[0] == v && p[1..] in ps
  {
    if p in Prefixed(v, ps) {
      var i :| 0 <= i < |ps| && p == Prefixed(v, ps)[i];
      assert p[1..] == ps[i];
    }
    if p != [] && p[0] == v && p[1..] in ps {
      var i :| 0 <= i < |ps| && ps[i] == p[1..];
      assert Prefixed(v, ps)[i] == [v] + p[1..] == p;
    }
  }

  lemma {:induction false} InEach(it: Item, vs: seq<nat>, p: Path)
    requires it.Graph? && WellFormed(it) && Indices(it, vs)
    ensures p in Each(it, vs) <==> p != [] && p[0] in vs && IsNode(it, p)
    decreases it, 0, |vs|
  {
    if vs != [] {
      InPrefixed(vs[0], All(it.items[vs[0]]), p);
      InEach(it, vs[1..], p);
      if p != [] && p[0] == vs[0] { InAll(it.items[vs[0]], p[1..]); }
      assert vs == [vs[0]] + vs[1..];
    }
  }

  lemma {:induction false} InAll(it: Item, p: Path)
    requires WellFormed(it)
    ensures p in All(it) <==> IsNode(it, p)
    decreases it, 1, 0
  {
    if it.Graph? {
      Dfs.DfsOfAll(it.edges);
      YieldsIndices(it, Dfs.Begin(it.edges));
      InEach(it, Dfs.Yields(it.edges, Dfs.Begin(it.edges)), p);
    }
  }

  lemma AllIsHasNode(it: Item)
    requires WellFormed(it)
    ensures All(it) != [] <==> HasNode(it)
  {
    if All(it) != [] { InAll(it, All(it)[0]); }
    if p :| IsNode(it, p) { InAll(it, p); }
  }

  // ----- One step takes one module -----

  lemma {:induction false} SettleRest(it: Item, d: Dfs.Cursor)
    requires WellFormed(it) && it.Graph? && Dfs.Live(it.edges, d) && SolidFrom(it, d)
    ensures Proper(it, Settle(it, d)) && Rest(it, Settle(it, d)) == EachFrom(it, d)
    ensures Settle(it, d).AtEnd() <==> EachFrom(it, d) == []
    decreases it, 0, Dfs.Left(it.edges, d)
  {
    hide Dfs.Next;
    if !d.AtEnd() {
      var v := d.Vertex();
      Dfs.NextIsNew(it.edges, d);
      SolidFromNext(it, d);
      hide SolidFrom;
      var d' := Dfs.Next(it.edges, d);
      assert Dfs.Yields(it.edges, d) == [v] + Dfs.Yields(it.edges, d');
      YieldsIndices(it, d);
      assert EachFrom(it, d) == Prefixed(v, All(it.items[v])) + EachFrom(it, d');
      if it.items[v].Graph? {
        if it.items[v].items == [] {
          NothingInEmpty(it.items[v]);
          SettleRest(it, d');
        } else {
          BeginRest(it.items[v]);
          AllIsHasNode(it.items[v]);
        }
      }
    }
  }

  lemma NothingInEmpty(it: Item)
    requires WellFormed(it) && it.Graph? && it.items == []
    ensures All(it) == []
  {
    Dfs.DfsOfAll(it.edges);
    YieldsIndices(it, Dfs.Begin(it.edges));
  }

  lemma {:induction false} BeginRest(it: Item)
    requires WellFormed(it) && it.Graph? && Solid(it)
    ensures Proper(it, Begin(it)) && Rest(it, Begin(it)) == All(it)
    ensures Begin(it).AtEnd() <==> All(it) == []
    decreases it, 1, 0
  {
    Dfs.DfsOfAll(it.edges);
    SolidFromAnywhere(it, Dfs.Begin(it.edges));
    SettleRest(it, Dfs.Begin(it.edges));
  }

  /** One step of the vertex iterator, at a position whose vertex is used up. */
  lemma LeaveVertex(it: Item, x: Iter)
    requires WellFormed(it) && Proper(it, x) && !x.AtEnd() && Ahead(it, x)
    ensures var d := Dfs.Next(it.edges, x.dag);
            Dfs.Live(it.edges, d) && Proper(it, Leave(it, x.dag)) && Rest(it, Leave(it, x.dag)) == EachFrom(it, d)
            && (Leave(it, x.dag).AtEnd() <==> EachFrom(it, d) == [])
    ensures Ahead(it, Leave(it, x.dag))
  {
    Dfs.NextIsNew(it.edges, x.dag);
    hide SolidFrom;
    SettleRest(it, Dfs.Next(it.edges, x.dag));
    SettleAhead(it, Dfs.Next(it.edges, x.dag));
  }

  lemma PrefixedCons(v: nat, p: Path, ps: seq<Path>, qs: seq<Path>)
    ensures Prefixed(v, [p] + ps) + qs == [[v] + p] + (Prefixed(v, ps) + qs)
    ensures Prefixed(v, [p]) + qs == [[v] + p] + qs
  {
  }

  lemma AheadInside(it: Item, x: Iter)
    requires WellFormed(it) && Proper(it, x) && Ahead(it, x) && x.sub.Some?
    ensures x.dag.Vertex() < |it.items| && Proper(it.items[x.dag.Vertex()], x.sub.value)
    ensures Ahead(it.items[x.dag.Vertex()], x.sub.value)
  {
  }

  /** operator++ inside a subgraph, or out of it. */
  lemma NextInside(it: Item, x: Iter)
    requires WellFormed(it) && Proper(it, x) && !x.AtEnd() && x.sub.Some?
    ensures x.dag.Vertex() < |it.items| && Proper(it.items[x.dag.Vertex()], x.sub.value)
    ensures var inner := Next(it.items[x.dag.Vertex()], x.sub.value);
            Next(it, x) == if inner.AtEnd() then Leave(it, x.dag) else x.(sub := Some(inner))
  {
  }

  lemma MoveInside(it: Item, x: Iter, y: Iter)
    requires WellFormed(it) && Proper(it, x) && Ahead(it, x) && x.sub.Some?
    requires Proper(it.items[x.dag.Vertex()], y) && !y.AtEnd() && Ahead(it.items[x.dag.Vertex()], y)
    ensures Proper(it, x.(sub := Some(y))) && Ahead(it, x.(sub := Some(y)))
  {
    hide SolidFrom;
  }

  lemma EndIsEmpty(it: Item, x: Iter)
    requires WellFormed(it) && Proper(it, x) && x.AtEnd()
    ensures Rest(it, x) == []
  {
  }

  ghost predicate TakesOne(it: Item, x: Iter)
    requires WellFormed(it) && Proper(it, x) && !x.AtEnd()
  {
    && Proper(it, Next(it, x)) && Rest(it, x) == [Current(it, x)] + Rest(it, Next(it, x))
    && (Next(it, x).AtEnd() <==> Rest(it, Next(it, x)) == []) && Ahead(it, Next(it, x))
  }

  lemma StepAtModule(it: Item, x: Iter)
    requires WellFormed(it) && Proper(it, x) && Ahead(it, x) && !x.AtEnd() && x.sub.None?
    ensures TakesOne(it, x)
  {
    LeaveVertex(it, x);
    hide Ahead;
    hide Leave;
    hide Dfs.Next;
    hide Prefixed;
    hide EachFrom;
    PrefixedCons(x.dag.Vertex(), [], [], EachFrom(it, Dfs.Next(it.edges, x.dag)));
  }

  lemma StepInSubgraph(it: Item, x: Iter)
    requires WellFormed(it) && Proper(it, x) && Ahead(it, x) && !x.AtEnd() && x.sub.Some?
    requires TakesOne(it.items[x.dag.Vertex()], x.sub.value)
    ensures TakesOne(it, x)
  {
    LeaveVertex(it, x);
    hide Ahead;
    hide Leave;
    hide Dfs.Next;
    hide Prefixed;
    hide EachFrom;
    var v, y := x.dag.Vertex(), x.sub.value;
    var a := it.items[v];
    if !Next(a, y).AtEnd() { MoveInside(it, x, Next(a, y)); }
    var after := EachFrom(it, Dfs.Next(it.edges, x.dag));
    PrefixedCons(v, Current(a, y), Rest(a, Next(a, y)), after);
    assert Rest(it, x) == Prefixed(v, Rest(a, y)) + after;
    if Next(a, y).AtEnd() {
      assert Next(it, x) == Leave(it, x.dag);
      assert Prefixed(v, Rest(a, Next(a, y))) + after == after;
    } else {
      assert Next(it, x) == x.(sub := Some(Next(a, y)));
      assert Rest(it, Next(it, x)) == Prefixed(v, Rest(a, Next(a, y))) + after;
    }
  }

  /** operator* gives the first module that is left and operator++ removes it; what is left is
      empty exactly at the end, and from there stepping can go on. */
  lemma {:induction false} StepTakesOne(it: Item, x: Iter)
    requires WellFormed(it) && Proper(it, x) && Ahead(it, x) && !x.AtEnd()
    ensures Proper(it, Next(it, x)) && Rest(it, x) == [Current(it, x)] + Rest(it, Next(it, x))
    ensures Next(it, x).AtEnd() <==> Rest(it, Next(it, x)) == []
    ensures Ahead(it, Next(it, x))
    decreases it
  {
    hide Rest;
    hide Next;
    hide Current;
    if x.sub.None? {
      StepAtModule(it, x);
    } else {
      AheadInside(it, x);
      StepTakesOne(it.items[x.dag.Vertex()], x.sub.value);
      StepInSubgraph(it, x);
    }
  }
}
