/** Exactly when `next_` leads wherever the nesting does. */
module NestedExact {
  import opened Digraphs
  import opened Dag
  import opened NestedGraphs

  /** `next_` reaches from every node everything that lies below it by the nesting. */
  ghost predicate Exact(it: Item)
    requires WellFormed(it)
  {
    forall p, q :: IsNode(it, p) && IsNode(it, q) && Below(it, p, q) ==> FlatReach(it, p, q)
  }

  /** A link inside one vertex, or from a tail of one to a head of a later one. */
  lemma LinkCases(it: Item, p: Path, q: Path)
    requires WellFormed(it) && IsNode(it, p) && IsNode(it, q) && FlatEdge(it, p, q)
    ensures it.Graph?
    ensures p[0] == q[0] ==> FlatEdge(it.items[p[0]], p[1..], q[1..])
    ensures p[0] != q[0] ==>
              q[0] in it.edges[p[0]] && IsTail(it.items[p[0]], p[1..]) && IsHead(it.items[q[0]], q[1..])
  {
    if p[0] in it.edges[p[0]] { SelfLoop(it.edges, p[0]); }
  }

  /** A walk passes only through vertices that contain a module. */
  lemma {:induction false} WalkWay(it: Item, w: seq<Path>, k: nat) returns (way: seq<nat>)
    requires WellFormed(it) && it.Graph? && IsWalk(it, w) && k < |w|
    ensures Crosses(it, way, w[0][0], w[k][0])
    decreases k
  {
    assert IsNode(it.items[w[k][0]], w[k][1..]);
    if k == 0 {
      way := [w[0][0]];
    } else {
      way := WalkWay(it, w, k - 1);
      LinkCases(it, w[k - 1], w[k]);
      if w[k - 1][0] != w[k][0] {
        hide FlatEdge;
        hide HasNode;
        assert HasNode(it.items[w[k][0]]);
        way := way + [w[k][0]];
      }
    }
  }

  lemma {:induction false} WayReaches(g: Digraph, way: seq<nat>)
    requires IsPath(g, way)
    ensures Reach(g, way[0], way[|way| - 1])
  {
    assert PathFromTo(g, way, way[0], way[|way| - 1]);
  }

  /** A walk between nodes of one vertex does not leave that vertex. */
  lemma WalkStays(it: Item, w: seq<Path>, k: nat)
    requires WellFormed(it) && it.Graph? && IsWalk(it, w) && k < |w| && w[0][0] == w[|w| - 1][0]
    ensures w[k][0] == w[0][0]
  {
    var u, v := w[0][0], w[k][0];
    var there := WalkWay(it, w, k);
    WayReaches(it.edges, there);
    assert IsWalk(it, w[k..]);
    var back := WalkWay(it, w[k..], |w| - 1 - k);
    WayReaches(it.edges, back);
    if u != v { TwoWays(it.edges, u, v); }
  }

  lemma TwoWays(g: Digraph, u: nat, v: nat)
    requires Reach(g, u, v) && Reach(g, v, u) && u != v
    ensures !Acyclic(g)
  {
    var w := ReachLast(g, v, u);
    ReachTrans(g, u, v, w);
    ReachInRange(g, u, v);
    var p :| PathFromTo(g, p, u, v);
    assert PathFromTo(g, p[1..], p[1], v);
    ReachTrans(g, p[1], v, u);
    assert ReachPlus(g, u, u);
  }

  /** A walk between nodes of one vertex is a walk inside it. */
  lemma Unembed(it: Item, v: nat, p: Path, q: Path)
    requires WellFormed(it) && it.Graph? && v < |it.items| && FlatReach(it, [v] + p, [v] + q)
    ensures FlatReach(it.items[v], p, q)
  {
    var w :| WalkFromTo(it, w, [v] + p, [v] + q);
    var z := seq(|w|, i requires 0 <= i < |w| => if w[i] == [] then [] else w[i][1..]);
    forall i | 0 <= i < |w| ensures w[i] != [] && w[i][0] == v && IsNode(it.items[v], z[i]) {
      WalkStays(it, w, i);
    }
    forall i | 0 <= i < |z| - 1 ensures FlatEdge(it.items[v], z[i], z[i + 1]) {
      LinkCases(it, w[i], w[i + 1]);
    }
    assert z[0] == p && z[|z| - 1] == q;
    hide FlatEdge;
    hide IsNode;
    assert WalkFromTo(it.items[v], z, p, q);
  }

  lemma ExactInside(it: Item, v: nat)
    requires WellFormed(it) && Exact(it) && it.Graph? && v < |it.items|
    ensures Exact(it.items[v])
  {
    forall p, q | IsNode(it.items[v], p) && IsNode(it.items[v], q) && Below(it.items[v], p, q)
      ensures FlatReach(it.items[v], p, q)
    {
      var p1, q1 := [v] + p, [v] + q;
      assert p1[1..] == p && q1[1..] == q;
      assert IsNode(it, p1) && IsNode(it, q1) && Below(it, p1, q1);
      Unembed(it, v, p, q);
    }
  }

  /** The link by which a walk leaves the vertex in which it starts. */
  lemma {:induction false} FirstCrossing(it: Item, w: seq<Path>) returns (k: nat)
    requires WellFormed(it) && it.Graph? && IsWalk(it, w) && w[0][0] != w[|w| - 1][0]
    ensures k + 1 < |w| && w[k][0] == w[0][0] && w[k + 1][0] != w[0][0]
  {
    hide IsNode;
    hide FlatEdge;
    k := 0;
    assert forall i :: 0 <= i < |w| ==> w[i] != [] by { WalkNodes(it, w); }
    while w[k + 1][0] == w[0][0]
      invariant k + 1 < |w| && w[k][0] == w[0][0]
      decreases |w| - k
    {
      k := k + 1;
    }
  }

  /** The link by which it comes to the vertex in which it ends. */
  lemma {:induction false} LastCrossing(it: Item, w: seq<Path>) returns (k: nat)
    requires WellFormed(it) && it.Graph? && IsWalk(it, w) && w[0][0] != w[|w| - 1][0]
    ensures k + 1 < |w| && w[k][0] != w[|w| - 1][0] && w[k + 1][0] == w[|w| - 1][0]
  {
    hide IsNode;
    hide FlatEdge;
    k := |w| - 2;
    assert forall i :: 0 <= i < |w| ==> w[i] != [] by { WalkNodes(it, w); }
    while w[k][0] == w[|w| - 1][0]
      invariant k + 1 < |w| && w[k + 1][0] == w[|w| - 1][0]
      decreases k
    {
      k := k - 1;
    }
  }

  lemma WalkNodes(it: Item, w: seq<Path>)
    requires WellFormed(it) && it.Graph? && IsWalk(it, w)
    ensures forall i :: 0 <= i < |w| ==> w[i] != []
  {
  }

  lemma WalkPart(it: Item, w: seq<Path>, i: nat, j: nat)
    requires WellFormed(it) && IsWalk(it, w) && i < j <= |w|
    ensures FlatReach(it, w[i], w[j - 1])
  {
    hide FlatEdge;
    hide IsNode;
    var z := w[i..j];
    assert forall k :: 0 <= k < |z| ==> z[k] == w[i + k];
    assert WalkFromTo(it, z, w[i], w[j - 1]);
  }

  lemma LeavesByTail(it: Item, w: seq<Path>)
    requires WellFormed(it) && it.Graph? && IsWalk(it, w) && w[0][0] != w[|w| - 1][0]
    ensures var a := it.items[w[0][0]];
            IsNode(a, w[0][1..]) && exists t :: IsNode(a, t) && IsTail(a, t) && Below(a, w[0][1..], t)
  {
    var k := FirstCrossing(it, w);
    LinkCases(it, w[k], w[k + 1]);
    WalkPart(it, w, 0, k + 1);
    ReachIsBelow(it, w[0], w[k]);
  }

  lemma EntersByHead(it: Item, w: seq<Path>)
    requires WellFormed(it) && it.Graph? && IsWalk(it, w) && w[0][0] != w[|w| - 1][0]
    ensures var q := w[|w| - 1];
            var b := it.items[q[0]];
            IsNode(b, q[1..]) && exists h :: IsNode(b, h) && IsHead(b, h) && Below(b, h, q[1..])
  {
    var k := LastCrossing(it, w);
    LinkCases(it, w[k], w[k + 1]);
    WalkPart(it, w, k + 1, |w|);
    ReachIsBelow(it, w[k + 1], w[|w| - 1]);
  }

  /** The walk that an exact graph has between any nodes of two vertices of which one comes after the other. */
  lemma WalkAcross(it: Item, u: nat, v: nat, p: Path, q: Path) returns (w: seq<Path>)
    requires WellFormed(it) && Exact(it) && it.Graph? && u < |it.items| && v < |it.items| && u != v
    requires IsNode(it.items[u], p) && IsNode(it.items[v], q) && Reach(it.edges, u, v)
    ensures WalkFromTo(it, w, [u] + p, [v] + q)
  {
    var p1, q1 := [u] + p, [v] + q;
    assert p1[1..] == p && q1[1..] == q;
    assert IsNode(it, p1) && IsNode(it, q1) && Below(it, p1, q1);
    w :| WalkFromTo(it, w, p1, q1);
  }

  lemma TailNeeded(it: Item, u: nat, v: nat, p: Path)
    requires WellFormed(it) && Exact(it) && it.Graph? && u < |it.items| && v < |it.items| && u != v
    requires IsNode(it.items[u], p) && HasNode(it.items[v]) && Reach(it.edges, u, v)
    ensures exists t :: IsNode(it.items[u], t) && IsTail(it.items[u], t) && Below(it.items[u], p, t)
  {
    var q :| IsNode(it.items[v], q);
    var w := WalkAcross(it, u, v, p, q);
    assert ([u] + p)[1..] == p;
    LeavesByTail(it, w);
  }

  lemma HeadNeeded(it: Item, u: nat, v: nat, q: Path)
    requires WellFormed(it) && Exact(it) && it.Graph? && u < |it.items| && v < |it.items| && u != v
    requires HasNode(it.items[u]) && IsNode(it.items[v], q) && Reach(it.edges, u, v)
    ensures exists h :: IsNode(it.items[v], h) && IsHead(it.items[v], h) && Below(it.items[v], h, q)
  {
    var p :| IsNode(it.items[u], p);
    var w := WalkAcross(it, u, v, p, q);
    assert ([v] + q)[1..] == q;
    EntersByHead(it, w);
  }

  lemma BridgeNeeded(it: Item, u: nat, v: nat)
    requires WellFormed(it) && Exact(it) && it.Graph? && u < |it.items| && v < |it.items| && u != v
    requires HasNode(it.items[u]) && HasNode(it.items[v]) && Reach(it.edges, u, v)
    ensures Bridge(it, u, v)
  {
    var p :| IsNode(it.items[u], p);
    var q :| IsNode(it.items[v], q);
    var w := WalkAcross(it, u, v, p, q);
    var way := WalkWay(it, w, |w| - 1);
  }

  lemma {:induction false} ExactIsBridged(it: Item)
    requires WellFormed(it) && Exact(it)
    ensures Bridged(it)
  {
    if it.Graph? {
      forall i | 0 <= i < |it.items| ensures Bridged(it.items[i]) {
        ExactInside(it, i);
        ExactIsBridged(it.items[i]);
      }
      forall u: nat, v: nat |
        u < |it.items| && v < |it.items| && u != v && HasNode(it.items[u]) && HasNode(it.items[v])
        && Reach(it.edges, u, v)
        ensures Exits(it.items[u]) && Entries(it.items[v]) && Bridge(it, u, v)
      {
        forall p | IsNode(it.items[u], p)
          ensures exists t :: IsNode(it.items[u], t) && IsTail(it.items[u], t) && Below(it.items[u], p, t)
        {
          TailNeeded(it, u, v, p);
        }
        forall q | IsNode(it.items[v], q)
          ensures exists h :: IsNode(it.items[v], h) && IsHead(it.items[v], h) && Below(it.items[v], h, q)
        {
          HeadNeeded(it, u, v, q);
        }
        BridgeNeeded(it, u, v);
      }
    }
  }

  /** `next_` leads wherever the nesting does if and only if the graph is bridged. */
  lemma ExactIffBridged(it: Item)
    requires WellFormed(it)
    ensures Exact(it) <==> Bridged(it)
  {
    if Exact(it) { ExactIsBridged(it); }
    if Bridged(it) {
      forall p, q | IsNode(it, p) && IsNode(it, q) && Below(it, p, q) ensures FlatReach(it, p, q) {
        BelowIsReach(it, p, q);
      }
    }
  }
}
