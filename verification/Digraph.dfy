/** Finite directed graphs: paths, reachability, and the rank of an acyclic graph.

    A graph over the vertices 0..|g| is the sequence of its successor sets, which is
    what `DAGAlgorithm::edges_` holds.
 */
module Digraphs {

  type Digraph = seq<set<nat>>

  ghost predicate InRange(g: Digraph) {
    forall u, v :: 0 <= u < |g| && v in g[u] ==> v < |g|
  }

  ghost predicate IsPath(g: Digraph, p: seq<nat>) {
    && 0 < |p|
    && (forall i :: 0 <= i < |p| ==> p[i] < |g|)
    && (forall i :: 0 <= i < |p| - 1 ==> p[i + 1] in g[p[i]])
  }

  ghost predicate PathFromTo(g: Digraph, p: seq<nat>, a: nat, b: nat) {
    IsPath(g, p) && p[0] == a && p[|p| - 1] == b
  }

  ghost predicate Reach(g: Digraph, a: nat, b: nat) {
    exists p :: PathFromTo(g, p, a, b)
  }

  /** `b` can be reached from `a` along at least one edge. */
  ghost predicate ReachPlus(g: Digraph, a: nat, b: nat) {
    exists c :: a < |g| && c in g[a] && Reach(g, c, b)
  }

  ghost predicate Acyclic(g: Digraph) {
    forall v :: 0 <= v < |g| ==> !ReachPlus(g, v, v)
  }

  lemma ReachRefl(g: Digraph, a: nat)
    requires a < |g|
    ensures Reach(g, a, a)
  {
    assert PathFromTo(g, [a], a, a);
  }

  lemma ReachInRange(g: Digraph, a: nat, b: nat)
    requires Reach(g, a, b)
    ensures a < |g| && b < |g|
  {
    var p :| PathFromTo(g, p, a, b);
  }

  lemma ReachTrans(g: Digraph, a: nat, b: nat, c: nat)
    requires Reach(g, a, b) && Reach(g, b, c)
    ensures Reach(g, a, c)
  {
    var p :| PathFromTo(g, p, a, b);
    var q :| PathFromTo(g, q, b, c);
    var r := p + q[1..];
    assert forall i :: |p| <= i < |r| ==> r[i] == q[i - |p| + 1];
    assert PathFromTo(g, r, a, c);
  }

  lemma ReachStep(g: Digraph, a: nat, b: nat, c: nat)
    requires Reach(g, a, b) && b < |g| && c in g[b] && c < |g|
    ensures Reach(g, a, c)
  {
    assert PathFromTo(g, [b, c], b, c);
    ReachTrans(g, a, b, c);
  }

  lemma ReachPrepend(g: Digraph, a: nat, b: nat, c: nat)
    requires a < |g| && b in g[a] && Reach(g, b, c)
    ensures Reach(g, a, c)
  {
    var p :| PathFromTo(g, p, b, c);
    assert PathFromTo(g, [a] + p, a, c);
  }

  lemma SelfLoop(g: Digraph, v: nat)
    requires v < |g| && v in g[v]
    ensures ReachPlus(g, v, v)
  {
    ReachRefl(g, v);
  }

  /** A set closed under successors that holds `a` holds all that `a` reaches. */
  lemma {:induction false} ReachStaysIn(g: Digraph, s: set<nat>, a: nat, b: nat)
    requires a in s && Reach(g, a, b)
    requires forall u, v :: u in s && u < |g| && v in g[u] ==> v in s
    ensures b in s
  {
    var p :| PathFromTo(g, p, a, b);
    var i := 0;
    while i < |p| - 1
      invariant 0 <= i < |p| && p[i] in s
    {
      i := i + 1;
    }
  }

  /** Reaching `b` from elsewhere goes through a predecessor of `b`. */
  lemma ReachLast(g: Digraph, a: nat, b: nat) returns (u: nat)
    requires Reach(g, a, b) && a != b
    ensures u < |g| && b in g[u] && Reach(g, a, u)
  {
    var p :| PathFromTo(g, p, a, b);
    u := p[|p| - 2];
    assert PathFromTo(g, p[..|p| - 1], a, u);
  }

  // ----- Ranks -----

  ghost function Ancestors(g: Digraph, v: nat): set<nat> {
    set u | 0 <= u < |g| && ReachPlus(g, u, v)
  }

  ghost function Rank(g: Digraph, v: nat): nat {
    |Ancestors(g, v)|
  }

  lemma SubsetSize<T>(a: set<T>, b: set<T>)
    requires a <= b
    ensures |a| <= |b|
    ensures a != b ==> |a| < |b|
  {
    assert b == a + (b - a);
  }

  /** Along an edge out of a vertex on no cycle, the number of proper ancestors grows. */
  lemma RankGrows(g: Digraph, u: nat, v: nat)
    requires InRange(g) && u < |g| && v in g[u] && !ReachPlus(g, u, u)
    ensures Rank(g, u) < Rank(g, v)
  {
    var au, av := Ancestors(g, u), Ancestors(g, v);
    forall x | x in au ensures x in av {
      var c :| c in g[x] && Reach(g, c, u);
      ReachStep(g, c, u, v);
    }
    ReachRefl(g, v);
    assert u in av && u !in au;
    SubsetSize(au, av);
  }

  lemma {:induction false} LowestRank(g: Digraph, s: set<nat>) returns (m: nat)
    requires s != {}
    ensures m in s && forall x :: x in s ==> Rank(g, m) <= Rank(g, x)
    decreases s
  {
    m :| m in s;
    if s != {m} {
      var k := LowestRank(g, s - {m});
      var m0 := m;
      if Rank(g, k) < Rank(g, m) { m := k; }
      forall x | x in s ensures Rank(g, m) <= Rank(g, x) {
        if x != m0 { assert x in s - {m0}; }
      }
    }
  }

  lemma {:induction false} HighestRank(g: Digraph, s: set<nat>) returns (m: nat)
    requires s != {}
    ensures m in s && forall x :: x in s ==> Rank(g, x) <= Rank(g, m)
    decreases s
  {
    m :| m in s;
    if s != {m} {
      var k := HighestRank(g, s - {m});
      var m0 := m;
      if Rank(g, m) < Rank(g, k) { m := k; }
      forall x | x in s ensures Rank(g, x) <= Rank(g, m) {
        if x != m0 { assert x in s - {m0}; }
      }
    }
  }

  /** A numbering that grows along every edge excludes cycles. */
  lemma {:induction false} NumberedIsAcyclic(g: Digraph, num: seq<nat>)
    requires InRange(g) && |num| == |g|
    requires forall u, v :: 0 <= u < |g| && v in g[u] ==> num[u] < num[v]
    ensures Acyclic(g)
  {
    forall a | 0 <= a < |g| && ReachPlus(g, a, a) ensures false {
      var c :| c in g[a] && Reach(g, c, a);
      var p :| PathFromTo(g, p, c, a);
      var i := 0;
      while i < |p| - 1
        invariant 0 <= i < |p| && num[a] < num[p[i]]
      {
        i := i + 1;
      }
      assert false;
    }
  }
}
