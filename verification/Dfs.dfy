/** `DAGAlgorithm::DFSIterator`: the resumable depth-first traversal of one graph level. */
module Dfs {
  import opened Sequences
  import opened Digraphs
  import opened Dag

  /** What the iterator holds: `vertex_stack_` (its top last) and the vertices marked in `visit_`. */
  datatype Cursor = Cursor(stack: seq<nat>, visited: set<nat>) {
    predicate AtEnd() { stack == [] }

    /** operator* */
    function Vertex(): nat
      requires !AtEnd()
    {
      stack[|stack| - 1]
    }
  }

  ghost predicate InGraph(g: Digraph, s: seq<nat>) {
    forall i :: 0 <= i < |s| ==> s[i] < |g|
  }

  /** The first element of a set in the order in which std::set is iterated. */
  ghost function Least(s: set<nat>): (m: nat)
    requires s != {}
    ensures m in s && forall x :: x in s ==> m <= x
    decreases s
  {
    var m :| m in s;
    if s == {m} then m else
      var r := Least(s - {m});
      assert forall x :: x in s ==> x == m || x in s - {m};
      if m < r then m else r
  }

  /** The stack after operator++ has unwound it: pushed an unvisited successor of the top, or popped
      down to a vertex that is still to be visited. */
  ghost function Unwind(g: Digraph, stack: seq<nat>, visited: set<nat>): seq<nat>
    requires InGraph(g, stack)
  {
    if stack == [] then []
    else
      var v := stack[|stack| - 1];
      var unseen := g[v] - visited;
      if v !in visited then stack
      else if unseen == {} then Unwind(g, stack[..|stack| - 1], visited)
      else stack + [Least(unseen)]
  }

  ghost function Visit(stack: seq<nat>, visited: set<nat>): Cursor {
    Cursor(stack, if stack == [] then visited else visited + {stack[|stack| - 1]})
  }

  /** operator++ */
  ghost function Next(g: Digraph, d: Cursor): Cursor
    requires InGraph(g, d.stack)
  {
    Visit(Unwind(g, d.stack, d.visited), d.visited)
  }

  ghost predicate Live(g: Digraph, d: Cursor) {
    InRange(g) && InGraph(g, d.stack)
  }

  lemma {:induction false} UnwindLive(g: Digraph, stack: seq<nat>, visited: set<nat>)
    requires InRange(g) && InGraph(g, stack)
    ensures var s := Unwind(g, stack, visited);
            InGraph(g, s) && (s != [] ==> s[|s| - 1] !in visited)
    decreases |stack|
  {
    if stack != [] {
      var v := stack[|stack| - 1];
      if v in visited && g[v] - visited == {} { UnwindLive(g, stack[..|stack| - 1], visited); }
    }
  }

  /** How far the end can be: the vertices still to visit, and the end itself. */
  ghost function Left(g: Digraph, d: Cursor): nat {
    if d.AtEnd() then 0 else 1 + |Vertices(g) - d.visited|
  }

  ghost predicate IsVertex(g: Digraph, v: nat) { v < |g| }

  ghost function Vertices(g: Digraph): set<nat> {
    set v | 0 <= v < |g| && IsVertex(g, v)
  }

  /** operator++ comes closer to the end: unless it gets there, it moves to a vertex not seen before. */
  lemma NextIsNew(g: Digraph, d: Cursor)
    requires Live(g, d)
    ensures var d' := Next(g, d);
            && Live(g, d')
            && (if d'.AtEnd() then d'.visited == d.visited
                else d'.Vertex() !in d.visited && d'.visited == d.visited + {d'.Vertex()} && d'.Vertex() < |g|)
            && (!d.AtEnd() ==> Left(g, d') < Left(g, d))
  {
    UnwindLive(g, d.stack, d.visited);
    hide Unwind;
    var d' := Next(g, d);
    if !d'.AtEnd() {
      assert IsVertex(g, d'.Vertex());
      assert Vertices(g) - d'.visited == Vertices(g) - d.visited - {d'.Vertex()};
    }
  }

  /** What iterating from `d` to the end yields. */
  ghost function Yields(g: Digraph, d: Cursor): (out: seq<nat>)
    requires Live(g, d)
    decreases Left(g, d)
  {
    if d.AtEnd() then []
    else
      NextIsNew(g, d);
      [d.Vertex()] + Yields(g, Next(g, d))
  }

  // ----- What a traversal visits -----

  ghost predicate FromRoots(g: Digraph, roots: set<nat>, v: nat) {
    exists r :: r in roots && Reach(g, r, v)
  }

  /** Every root has been visited or waits on the stack. */
  ghost predicate RootsKept(roots: set<nat>, stack: seq<nat>, visited: set<nat>) {
    forall v :: v in roots ==> v in visited || v in stack
  }

  ghost predicate AllFromRoots(g: Digraph, roots: set<nat>, s: seq<nat>) {
    forall i :: 0 <= i < |s| ==> FromRoots(g, roots, s[i])
  }

  /** A visited vertex that is off the stack has only visited successors. */
  ghost predicate Finished(g: Digraph, stack: seq<nat>, visited: set<nat>) {
    forall v :: v in visited && v !in stack && v < |g| ==> g[v] <= visited
  }

  /** What holds at every point of a traversal from `roots`. */
  ghost predicate Traversal(g: Digraph, roots: set<nat>, d: Cursor) {
    && InRange(g) && InGraph(g, d.stack)
    && RootsKept(roots, d.stack, d.visited)
    && AllFromRoots(g, roots, d.stack)
    && (forall v :: v in d.visited ==> v < |g| && FromRoots(g, roots, v))
    && Finished(g, d.stack, d.visited)
    && (!d.AtEnd() ==> d.Vertex() in d.visited)
  }

  lemma {:induction false} UnwindKeeps(g: Digraph, roots: set<nat>, stack: seq<nat>, visited: set<nat>)
    requires InRange(g) && InGraph(g, stack)
    requires RootsKept(roots, stack, visited) && AllFromRoots(g, roots, stack) && Finished(g, stack, visited)
    ensures var s := Unwind(g, stack, visited);
            && InGraph(g, s) && RootsKept(roots, s, visited) && AllFromRoots(g, roots, s) && Finished(g, s, visited)
    decreases |stack|
  {
    hide Reach;
    if stack != [] {
      var v := stack[|stack| - 1];
      var unseen := g[v] - visited;
      var rest := stack[..|stack| - 1];
      assert stack == rest + [v];
      if v in visited && unseen == {} {
        assert forall e :: e in g[v] ==> e in unseen || e in visited;
        UnwindKeeps(g, roots, rest, visited);
      } else if v in visited {
        assert FromRoots(g, roots, v);
        var r :| r in roots && Reach(g, r, v);
        ReachStep(g, r, v, Least(unseen));
        assert FromRoots(g, roots, Least(unseen));
      }
    }
  }

  lemma NextKeeps(g: Digraph, roots: set<nat>, d: Cursor)
    requires Traversal(g, roots, d)
    ensures Traversal(g, roots, Next(g, d))
  {
    hide FromRoots;
    UnwindKeeps(g, roots, d.stack, d.visited);
    hide Unwind;
    hide InGraph;
    var s := Unwind(g, d.stack, d.visited);
    assert s != [] ==> s[|s| - 1] < |g| && FromRoots(g, roots, s[|s| - 1]) by {
      assert InGraph(g, s);
    }
  }

  /** Iterating reaches the end, and on the way yields each vertex that is reachable from the roots
      and was not visited before, once. */
  lemma {:induction false} YieldsTheRest(g: Digraph, roots: set<nat>, d: Cursor)
    requires Traversal(g, roots, d) && !d.AtEnd()
    ensures var out := Yields(g, d);
            && out != [] && out[0] == d.Vertex() && Distinct(out)
            && (forall v :: v in out[1..] ==> v !in d.visited)
            && (forall v :: FromRoots(g, roots, v) <==> v in d.visited || v in out)
    decreases Left(g, d)
  {
    hide Reach;
    hide Next;
    NextKeeps(g, roots, d);
    NextIsNew(g, d);
    var d' := Next(g, d);
    if d'.AtEnd() {
      forall v | FromRoots(g, roots, v) ensures v in d.visited {
        var r :| r in roots && Reach(g, r, v);
        ReachStaysIn(g, d.visited, r, v);
      }
      assert Yields(g, d) == [d.Vertex()];
    } else {
      YieldsTheRest(g, roots, d');
      var rest := Yields(g, d');
      assert Yields(g, d) == [d.Vertex()] + rest;
      assert forall v :: v in rest ==> v == rest[0] || v in rest[1..];
      assert d.Vertex() !in rest;
    }
  }

  // ----- Where a traversal begins -----

  /** DFSBeginFrom */
  function BeginFrom(v: nat): Cursor { Cursor([v], {v}) }

  /** DFSBegin: all heads are pushed, the last one is current. */
  ghost function Begin(g: Digraph): Cursor { Visit(Heads(g), {}) }

  lemma BeginFromTraverses(g: Digraph, v: nat)
    requires InRange(g) && v < |g|
    ensures Traversal(g, {v}, BeginFrom(v))
  {
    ReachRefl(g, v);
    hide Reach;
  }

  lemma BeginTraverses(g: Digraph)
    requires InRange(g)
    ensures Traversal(g, Elements(Heads(g)), Begin(g))
  {
    var heads := Heads(g);
    HeadsAreHeads(g, |g|);
    forall i | 0 <= i < |heads| ensures heads[i] < |g| { assert heads[i] in heads; }
    WaitingTraverses(g, Elements(heads), heads);
  }

  /** All roots are on the stack, and only its top has been visited. */
  lemma WaitingTraverses(g: Digraph, roots: set<nat>, stack: seq<nat>)
    requires InRange(g) && InGraph(g, stack) && forall v :: v in roots <==> v in stack
    ensures Traversal(g, roots, Visit(stack, {}))
  {
    hide FromRoots;
    hide Reach;
    forall i | 0 <= i < |stack| ensures FromRoots(g, roots, stack[i]) {
      assert stack[i] in stack;
      RootIsFromRoots(g, roots, stack[i]);
    }
  }

  lemma RootIsFromRoots(g: Digraph, roots: set<nat>, v: nat)
    requires v < |g| && v in roots
    ensures FromRoots(g, roots, v)
  {
    ReachRefl(g, v);
  }

  lemma {:induction false} AcyclicFromHeads(g: Digraph, v: nat)
    requires InRange(g) && Acyclic(g) && v < |g|
    ensures FromRoots(g, Elements(Heads(g)), v)
    decreases Rank(g, v)
  {
    var heads := Heads(g);
    HeadsAreHeads(g, |g|);
    if Preds(g, v) == {} {
      ReachRefl(g, v);
    } else {
      var u :| u in Preds(g, v);
      RankGrows(g, u, v);
      AcyclicFromHeads(g, u);
      var r :| r in Elements(heads) && Reach(g, r, u);
      ReachStep(g, r, u, v);
    }
  }

  /** Iterating from a vertex yields that vertex first, and each vertex it reaches once. */
  lemma DfsFromVertex(g: Digraph, v: nat)
    requires InRange(g) && v < |g|
    ensures Live(g, BeginFrom(v))
    ensures var out := Yields(g, BeginFrom(v));
            out != [] && out[0] == v && Distinct(out) && forall x :: x in out <==> Reach(g, v, x)
  {
    hide Reach;
    hide Traversal;
    hide Yields;
    BeginFromTraverses(g, v);
    YieldsTheRest(g, {v}, BeginFrom(v));
    forall x ensures FromRoots(g, {v}, x) <==> Reach(g, v, x) {
      if Reach(g, v, x) { assert v in {v}; }
    }
  }

  lemma FromRootsInRange(g: Digraph, roots: set<nat>, v: nat)
    requires FromRoots(g, roots, v)
    ensures v < |g|
  {
    var r :| r in roots && Reach(g, r, v);
    ReachInRange(g, r, v);
  }

  lemma AllFromHeads(g: Digraph)
    requires InRange(g) && Acyclic(g)
    ensures forall x: nat :: FromRoots(g, Elements(Heads(g)), x) <==> x < |g|
  {
    var roots := Elements(Heads(g));
    forall x: nat ensures FromRoots(g, roots, x) <==> x < |g| {
      if x < |g| { AcyclicFromHeads(g, x); }
      if FromRoots(g, roots, x) { FromRootsInRange(g, roots, x); }
    }
  }

  lemma AllVisited(g: Digraph, roots: set<nat>, d: Cursor)
    requires Traversal(g, roots, d)
    requires forall x: nat :: FromRoots(g, roots, x) <==> x < |g|
    requires d.visited == if d.AtEnd() then {} else {d.Vertex()}
    ensures var out := Yields(g, d);
            Distinct(out) && forall x: nat :: x in out <==> x < |g|
  {
    hide FromRoots;
    if d.AtEnd() {
      if |g| > 0 {
        assert FromRoots(g, roots, 0);
        NoRoots(g, roots, 0);
      }
    } else {
      YieldsTheRest(g, roots, d);
      hide Traversal;
      hide Yields;
    }
  }

  lemma NoRoots(g: Digraph, roots: set<nat>, v: nat)
    requires roots == {}
    ensures !FromRoots(g, roots, v)
  {
  }

  /** On an acyclic graph, iterating from DFSBegin yields every vertex once. */
  lemma DfsOfAll(g: Digraph)
    requires InRange(g) && Acyclic(g)
    ensures Live(g, Begin(g))
    ensures var out := Yields(g, Begin(g));
            Distinct(out) && forall x: nat :: x in out <==> x < |g|
  {
    BeginTraverses(g);
    AllFromHeads(g);
    AllVisited(g, Elements(Heads(g)), Begin(g));
  }
}
