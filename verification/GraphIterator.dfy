/** The class behind `UNIGraph::DFSIterator`, and the loop that runs it to the end. */
module GraphIterators {
  import opened Sequences
  import opened Options
  import opened Digraphs
  import opened Dag
  import Dfs
  import opened DfsIterators
  import opened NestedGraphs
  import opened NestedDfs
  import opened NestedRun
  import opened NestedDfsTheorems

  /** One level's DAGAlgorithm: a vertex for each item, then the edges. */
  method BuildDag(edges: Digraph) returns (dag: DAGAlgorithm)
    requires InRange(edges)
    ensures fresh(dag) && dag.Valid() && dag.edges == edges
  {
    dag := new DAGAlgorithm();
    for i := 0 to |edges|
      invariant fresh(dag) && dag.Valid() && |dag.edges| == i
      invariant forall u :: 0 <= u < i ==> dag.edges[u] == {}
    {
      var _ := dag.AddVertex();
    }
    for u := 0 to |edges|
      invariant fresh(dag) && dag.Valid() && |dag.edges| == |edges|
      invariant forall x :: 0 <= x < |edges| ==> dag.edges[x] == if x < u then edges[x] else {}
    {
      var rest := edges[u];
      while rest != {}
        invariant fresh(dag) && dag.Valid() && |dag.edges| == |edges| && rest <= edges[u]
        invariant dag.edges[u] == edges[u] - rest
        invariant forall x :: 0 <= x < |edges| && x != u ==> dag.edges[x] == if x < u then edges[x] else {}
        decreases rest
      {
        var v :| v in rest;
        var _ := dag.AddEdge(u, v);
        rest := rest - {v};
      }
    }
  }

  class GraphIterator {
    const graph: Item
    var dagIter: DFSIterator
    var sub: GraphIterator?
    ghost var Repr: set<object>

    ghost predicate Valid()
      reads this, Repr
      decreases graph
    {
      && graph.Graph? && WellFormed(graph)
      && {this, dagIter, dagIter.dag} <= Repr
      && dagIter.Valid() && dagIter.dag.edges == graph.edges
      && (sub != null ==>
            && sub in Repr && sub.Repr <= Repr && {this, dagIter, dagIter.dag} !! sub.Repr
            && dagIter.vertexStack != [] && sub.graph == graph.items[Vertex()] && sub.Valid())
    }

    function Vertex(): nat
      requires dagIter.vertexStack != []
      reads this, dagIter
    {
      dagIter.vertexStack[|dagIter.vertexStack| - 1]
    }

    ghost function Abs(): Iter
      requires Valid()
      reads this, Repr
      decreases graph
    {
      Iter(dagIter.Abs(), if sub == null then None else Some(sub.Abs()))
    }

    constructor Begin(it: Item)
      requires it.Graph? && WellFormed(it)
      ensures Valid() && fresh(Repr) && graph == it && Abs() == NestedDfs.Begin(it)
      decreases it, 2
    {
      var dag := BuildDag(it.edges);
      var d := new DFSIterator.Begin(dag);
      graph, dagIter, sub := it, d, null;
      Repr := {this, d, dag};
      new;
      Dfs.DfsOfAll(graph.edges);
      Settle();
    }

    constructor BeginFrom(it: Item, p: Path)
      requires it.Graph? && WellFormed(it) && IsNode(it, p)
      ensures Valid() && fresh(Repr) && graph == it && Abs() == NestedDfs.BeginFrom(it, p)
      decreases it
    {
      var dag := BuildDag(it.edges);
      var d := new DFSIterator.BeginFrom(dag, p[0]);
      var s: GraphIterator? := null;
      if it.items[p[0]].Graph? { s := new GraphIterator.BeginFrom(it.items[p[0]], p[1..]); }
      graph, dagIter, sub := it, d, s;
      Repr := {this, d, dag} + if s == null then {} else s.Repr;
    }

    /** Begins the traversal of the current vertex if it is a subgraph; an empty one is to be passed over. */
    method Enter() returns (settled: bool)
      requires Valid() && sub == null
      modifies this`sub, this`Repr
      ensures Valid() && fresh(Repr - old(Repr)) && dagIter == old(dagIter)
      ensures settled ==> Abs() == NestedDfs.Settle(graph, old(dagIter.Abs()))
      ensures !settled ==>
        && sub == null && dagIter.vertexStack != []
        && NestedDfs.Settle(graph, dagIter.Abs()) == Leave(graph, dagIter.Abs())
      decreases graph, 0
    {
      if dagIter.vertexStack == [] { return true; }
      var a := graph.items[Vertex()];
      if a.Graph? {
        if a.items == [] { return false; }
        sub := new GraphIterator.Begin(a);
        Repr := Repr + sub.Repr;
      }
      settled := true;
    }

    /** Lets the vertex iterator stand, and passes over empty subgraphs from there. */
    method Settle()
      requires Valid() && sub == null
      modifies this`sub, this`Repr, dagIter
      ensures Valid() && fresh(Repr - old(Repr)) && dagIter == old(dagIter)
      ensures Abs() == NestedDfs.Settle(graph, old(dagIter.Abs()))
      decreases graph, 1
    {
      ghost var target := NestedDfs.Settle(graph, dagIter.Abs());
      var settled := Enter();
      while !settled
        invariant Valid() && fresh(Repr - old(Repr)) && dagIter == old(dagIter)
        invariant settled ==> Abs() == target
        invariant !settled ==>
          && sub == null && dagIter.vertexStack != []
          && target == Leave(graph, dagIter.Abs())
        decreases !settled, Dfs.Left(graph.edges, dagIter.Abs())
      {
        Dfs.NextIsNew(graph.edges, dagIter.Abs());
        dagIter.Next();
        settled := Enter();
      }
    }

    /** DAGStep: on from a vertex that is used up. */
    method StepVertex()
      requires Valid() && sub == null
      modifies this`sub, this`Repr, dagIter
      ensures Valid() && fresh(Repr - old(Repr)) && dagIter == old(dagIter)
      ensures Dfs.Live(graph.edges, old(dagIter.Abs())) && Abs() == Leave(graph, old(dagIter.Abs()))
    {
      Dfs.NextIsNew(graph.edges, dagIter.Abs());
      dagIter.Next();
      Settle();
    }

    /** operator++ */
    method Next()
      requires Valid() && Proper(graph, Abs())
      modifies Repr
      ensures Valid() && fresh(Repr - old(Repr))
      ensures Abs() == NestedDfs.Next(graph, old(Abs()))
      decreases graph, 1
    {
      hide DAGAlgorithm.Valid;
      hide WellFormed;
      hide Leave;
      if dagIter.vertexStack == [] { return; }
      if sub != null {
        var over := StepSubgraph();
        if !over { return; }
      }
      StepVertex();
    }

    /** DAGStep inside the current subgraph; says whether its iterator has got to the end and was deleted. */
    method StepSubgraph() returns (over: bool)
      requires Valid() && Proper(graph, Abs()) && dagIter.vertexStack != [] && sub != null
      modifies Repr
      ensures Valid() && fresh(Repr - old(Repr)) && dagIter == old(dagIter)
      ensures if over then sub == null && dagIter.Abs() == old(dagIter.Abs())
                && NestedDfs.Next(graph, old(Abs())) == Leave(graph, dagIter.Abs())
              else Abs() == NestedDfs.Next(graph, old(Abs()))
      decreases graph, 0
    {
      hide DAGAlgorithm.Valid;
      hide WellFormed;
      hide Leave;
      hide Proper;
      hide NestedDfs.Next;
      NextInside(graph, Abs());
      sub.Next();
      Repr := Repr + sub.Repr;
      over := sub.dagIter.vertexStack == [];
      if over { sub := null; }
    }

    /** operator* */
    method Current() returns (p: Path)
      requires Valid() && Proper(graph, Abs()) && dagIter.vertexStack != []
      ensures p == NestedDfs.Current(graph, Abs())
      decreases graph
    {
      p := [];
      if sub != null { p := sub.Current(); }
      p := [Vertex()] + p;
    }

    /** One turn of the loop to DFSEnd(). */
    method Take() returns (p: Path)
      requires Valid() && Proper(graph, Abs()) && Ahead(graph, Abs()) && dagIter.vertexStack != []
      modifies Repr
      ensures Valid() && fresh(Repr - old(Repr)) && Proper(graph, Abs()) && Ahead(graph, Abs())
      ensures Rest(graph, old(Abs())) == [p] + Rest(graph, Abs())
    {
      hide Rest;
      hide Ahead;
      hide Proper;
      hide NestedDfs.Next;
      hide NestedDfs.Current;
      hide Dfs.InGraph;
      hide DAGAlgorithm.Valid;
      hide WellFormed;
      StepTakesOne(graph, Abs());
      p := Current();
      Next();
    }

    /** The loop to DFSEnd(): the modules are given one after the other. */
    method Collect() returns (out: seq<Path>)
      requires Valid() && Proper(graph, Abs()) && Ahead(graph, Abs())
      modifies Repr
      ensures Valid() && fresh(Repr - old(Repr))
      ensures Visits(graph, old(Abs()), out)
    {
      hide Visits;
      hide Rest;
      hide Ahead;
      hide Proper;
      hide Dfs.InGraph;
      hide DAGAlgorithm.Valid;
      hide WellFormed;
      AheadVisits(graph, Abs());
      out := [];
      ghost var whole := Rest(graph, Abs());
      while dagIter.vertexStack != []
        invariant Valid() && fresh(Repr - old(Repr)) && Proper(graph, Abs()) && Ahead(graph, Abs())
        invariant whole == out + Rest(graph, Abs())
        decreases |Rest(graph, Abs())|
      {
        var p := Take();
        out := out + [p];
      }
      EndIsEmpty(graph, Abs());
      assert whole == out;
    }
  }

  /** The loop from `node->DFSBegin()` to `node->DFSEnd()`. */
  method NodesFrom(it: Item, p: Path) returns (out: seq<Path>)
    requires it.Graph? && WellFormed(it) && IsNode(it, p) && PassableFrom(it, p)
    ensures out != [] && out[0] == p && Distinct(out)
    ensures forall q :: q in out <==> IsNode(it, q) && Below(it, p, q)
    ensures Bridged(it) ==> forall q :: q in out <==> FlatReach(it, p, q)
  {
    AheadFrom(it, p);
    IterateFrom(it, p);
    if Bridged(it) { BelowIffReach(it, p); }
    hide FlatReach;
    hide Bridged;
    hide Visits;
    hide Proper;
    hide PassableFrom;
    var x := new GraphIterator.BeginFrom(it, p);
    out := x.Collect();
  }

  /** The loop from `graph.DFSBegin()` to `graph.DFSEnd()`. */
  method AllNodes(it: Item) returns (out: seq<Path>)
    requires it.Graph? && WellFormed(it) && Solid(it)
    ensures out == All(it) && Distinct(out) && forall q :: q in out <==> IsNode(it, q)
  {
    IterateAll(it);
    RunIsGoodIffSolid(it);
    BeginAhead(it);
    hide Visits;
    hide Ahead;
    var x := new GraphIterator.Begin(it);
    out := x.Collect();
  }
}
