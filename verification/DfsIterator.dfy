/** The iterator class itself, and the loops that run it to the end. */
module DfsIterators {
  import opened Digraphs
  import opened Dag
  import Dfs

  class DFSIterator {
    const dag: DAGAlgorithm
    var vertexStack: seq<nat>
    var visit: seq<bool>

    ghost predicate Valid()
      reads this, dag
    {
      dag.Valid() && |visit| == |dag.edges| && Dfs.InGraph(dag.edges, vertexStack)
    }

    ghost function Abs(): Dfs.Cursor
      reads this
    {
      Dfs.Cursor(vertexStack, set v | 0 <= v < |visit| && visit[v])
    }

    constructor Begin(dag: DAGAlgorithm)
      requires dag.Valid()
      ensures Valid() && this.dag == dag && Abs() == Dfs.Begin(dag.edges)
    {
      var heads := dag.GetHeads();
      var seen := seq(|dag.edges|, _ => false);
      if heads != [] {
        assert heads[|heads| - 1] in heads;
        seen := seen[heads[|heads| - 1] := true];
      }
      this.dag, vertexStack, visit := dag, heads, seen;
      new;
      assert Dfs.InGraph(dag.edges, heads) by {
        forall i | 0 <= i < |heads| ensures heads[i] < |dag.edges| { assert heads[i] in heads; }
      }
    }

    /** Beginning from a vertex that does not exist is the end. */
    constructor BeginFrom(dag: DAGAlgorithm, v: int)
      requires dag.Valid()
      ensures this.dag == dag
      ensures if 0 <= v < |dag.edges| then Valid() && Abs() == Dfs.BeginFrom(v) else vertexStack == []
    {
      this.dag := dag;
      if 0 <= v < |dag.edges| {
        vertexStack, visit := [v], seq(|dag.edges|, _ => false)[v := true];
      } else {
        vertexStack, visit := [], [];
      }
    }

    /** operator++ */
    method Next()
      requires Valid()
      modifies this
      ensures Valid() && Abs() == Dfs.Next(dag.edges, old(Abs()))
    {
      ghost var visited := Abs().visited;
      ghost var unwound := Dfs.Unwind(dag.edges, vertexStack, visited);
      while vertexStack != []
        invariant Valid() && visit == old(visit) && visited == Abs().visited
        invariant unwound == Dfs.Unwind(dag.edges, vertexStack, visited)
        decreases |vertexStack|
      {
        var v := vertexStack[|vertexStack| - 1];
        if !visit[v] { break; }
        var e := FirstUnvisited(v);
        if e == |dag.edges| {
          assert dag.edges[v] - visited == {};
          vertexStack := vertexStack[..|vertexStack| - 1];
        } else {
          assert e in dag.edges[v] - visited && forall x :: x in dag.edges[v] - visited ==> e <= x;
          vertexStack := vertexStack + [e];
          break;
        }
      }
      assert vertexStack == unwound;
      if vertexStack != [] {
        visit := visit[vertexStack[|vertexStack| - 1] := true];
      }
    }

    /** The first unvisited successor in ascending order, or |edges| if there is none. */
    method FirstUnvisited(v: nat) returns (e: nat)
      requires Valid() && v < |dag.edges|
      ensures e <= |dag.edges|
      ensures e < |dag.edges| ==> e in dag.edges[v] && !visit[e]
      ensures forall x :: 0 <= x < e && x in dag.edges[v] ==> visit[x]
    {
      e := 0;
      while e < |dag.edges| && (e !in dag.edges[v] || visit[e])
        invariant e <= |dag.edges|
        invariant forall x :: 0 <= x < e && x in dag.edges[v] ==> visit[x]
      {
        e := e + 1;
      }
    }

    /** Runs the iterator to the end, as the loops over a graph do. */
    method Collect() returns (out: seq<nat>)
      requires Valid()
      modifies this
      ensures Valid() && out == Dfs.Yields(dag.edges, old(Abs()))
    {
      hide Dfs.Next;
      out := [];
      ghost var whole := Dfs.Yields(dag.edges, Abs());
      while vertexStack != []
        invariant Valid() && whole == out + Dfs.Yields(dag.edges, Abs())
        decreases Dfs.Left(dag.edges, Abs())
      {
        Dfs.NextIsNew(dag.edges, Abs());
        out := out + [vertexStack[|vertexStack| - 1]];
        Next();
      }
    }
  }
}
