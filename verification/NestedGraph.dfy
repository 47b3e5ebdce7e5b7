/** `UNIGraph`: graphs whose vertices are modules or again graphs, and the edges between
    modules that their nesting stands for. */
module NestedGraphs {
  import opened Digraphs
  import opened Dag

  /** A vertex of a graph: a module, or a subgraph with its own vertices and edges. */
  datatype Item =
    | Module(name: string)
    | Graph(name: string, items: seq<Item>, edges: Digraph)

  /** A node is named by the vertex indices that lead to it from the outermost graph. */
  type Path = seq<nat>

  /** What UNIGraph::Init leaves on success: edges between existing vertices and no ring, at every level. */
  ghost predicate WellFormed(it: Item) {
    match it
    case Module(_) => true
    case Graph(_, items, edges) =>
      && |edges| == |items| && InRange(edges) && Acyclic(edges)
      && forall i :: 0 <= i < |items| ==> WellFormed(items[i])
  }

  /** Every graph, at every depth, has at least one vertex. */
  ghost predicate Populated(it: Item) {
    match it
    case Module(_) => true
    case Graph(_, items, _) => items != [] && forall i :: 0 <= i < |items| ==> Populated(items[i])
  }

  /** `p` names a module inside `it`. */
  predicate IsNode(it: Item, p: Path) {
    match it
    case Module(_) => p == []
    case Graph(_, items, _) => p != [] && p[0] < |items| && IsNode(items[p[0]], p[1..])
  }

  ghost predicate HasNode(it: Item) { exists p :: IsNode(it, p) }

  /** Every subgraph that has vertices has modules, at every depth. */
  ghost predicate Solid(it: Item) {
    it.Graph? ==>
      forall i :: 0 <= i < |it.items| ==>
        Solid(it.items[i]) && (it.items[i].Graph? && it.items[i].items != [] ==> HasNode(it.items[i]))
  }

  /** Iterating gets into vertex `v` and past it. */
  ghost predicate SolidVertex(it: Item, v: nat)
    requires it.Graph? && v < |it.items|
  {
    Solid(it.items[v]) && (it.items[v].Graph? && it.items[v].items != [] ==> HasNode(it.items[v]))
  }

  /** Iterating from node `p` gets past all vertices that come after, at every level. */
  ghost predicate PassableFrom(it: Item, p: Path)
    requires IsNode(it, p)
  {
    it.Graph? ==>
      && (forall v: nat :: v < |it.items| && v != p[0] && Reach(it.edges, p[0], v) ==> SolidVertex(it, v))
      && PassableFrom(it.items[p[0]], p[1..])
  }

  /** So it is from every node. */
  ghost predicate Passable(it: Item) {
    it.Graph? ==>
      && (forall i :: 0 <= i < |it.items| ==> Passable(it.items[i]))
      && (forall u: nat, v: nat ::
            u < |it.items| && v < |it.items| && u != v && HasNode(it.items[u]) && Reach(it.edges, u, v) ==>
              SolidVertex(it, v))
  }

  lemma {:induction false} FromAllIsPassable(it: Item)
    requires forall p :: IsNode(it, p) ==> PassableFrom(it, p)
    ensures Passable(it)
  {
    if it.Graph? {
      forall i | 0 <= i < |it.items| ensures Passable(it.items[i]) {
        forall q | IsNode(it.items[i], q) ensures PassableFrom(it.items[i], q) { FromInside(it, i, q); }
        FromAllIsPassable(it.items[i]);
      }
      forall u: nat, v: nat |
        u < |it.items| && v < |it.items| && u != v && HasNode(it.items[u]) && Reach(it.edges, u, v)
        ensures SolidVertex(it, v)
      {
        var q :| IsNode(it.items[u], q);
        FromInside(it, u, q);
      }
    }
  }

  lemma FromInside(it: Item, u: nat, q: Path)
    requires it.Graph? && u < |it.items| && IsNode(it.items[u], q)
    requires forall p :: IsNode(it, p) ==> PassableFrom(it, p)
    ensures PassableFrom(it.items[u], q)
    ensures forall v: nat :: v < |it.items| && v != u && Reach(it.edges, u, v) ==> SolidVertex(it, v)
  {
    var p := [u] + q;
    assert p[0] == u && p[1..] == q;
    assert IsNode(it, p);
    assert PassableFrom(it, p);
  }

  lemma {:induction false} PassableAt(it: Item, p: Path)
    requires Passable(it) && IsNode(it, p)
    ensures PassableFrom(it, p)
  {
    if it.Graph? {
      assert IsNode(it.items[p[0]], p[1..]);
      PassableAt(it.items[p[0]], p[1..]);
    }
  }

  lemma {:induction false} SolidIsPassable(it: Item)
    requires Solid(it)
    ensures Passable(it)
  {
    if it.Graph? {
      forall i | 0 <= i < |it.items| ensures Passable(it.items[i]) { SolidIsPassable(it.items[i]); }
    }
  }

  /** `p` is among the nodes that FindHeadsAndTails stores as heads. */
  ghost predicate IsHead(it: Item, p: Path) {
    match it
    case Module(_) => p == []
    case Graph(_, items, edges) =>
      p != [] && p[0] < |items| && Preds(edges, p[0]) == {} && IsHead(items[p[0]], p[1..])
  }

  /** `p` is among the nodes that FindHeadsAndTails stores as tails. */
  ghost predicate IsTail(it: Item, p: Path)
    requires WellFormed(it)
  {
    match it
    case Module(_) => p == []
    case Graph(_, items, edges) =>
      p != [] && p[0] < |items| && edges[p[0]] == {} && IsTail(items[p[0]], p[1..])
  }

  /** The four AddEdge overloads: `q` is in `next_` of `p`. An edge between two vertices links every
      tail of the first to every head of the second. */
  ghost predicate FlatEdge(it: Item, p: Path, q: Path)
    requires WellFormed(it)
  {
    && it.Graph? && p != [] && q != [] && p[0] < |it.items| && q[0] < |it.items|
    && ((q[0] in it.edges[p[0]] && IsTail(it.items[p[0]], p[1..]) && IsHead(it.items[q[0]], q[1..]))
        || (p[0] == q[0] && FlatEdge(it.items[p[0]], p[1..], q[1..])))
  }

  ghost predicate IsWalk(it: Item, w: seq<Path>)
    requires WellFormed(it)
  {
    && w != []
    && (forall i :: 0 <= i < |w| ==> IsNode(it, w[i]))
    && forall i :: 0 <= i < |w| - 1 ==> FlatEdge(it, w[i], w[i + 1])
  }

  ghost predicate WalkFromTo(it: Item, w: seq<Path>, p: Path, q: Path)
    requires WellFormed(it)
  {
    IsWalk(it, w) && w[0] == p && w[|w| - 1] == q
  }

  /** `q` can be reached from `p` through `next_`. */
  ghost predicate FlatReach(it: Item, p: Path, q: Path)
    requires WellFormed(it)
  {
    exists w :: WalkFromTo(it, w, p, q)
  }

  /** Reachability read off the nesting: inside the innermost common graph, and there along its edges. */
  ghost predicate Below(it: Item, p: Path, q: Path)
    requires IsNode(it, p) && IsNode(it, q)
  {
    match it
    case Module(_) => true
    case Graph(_, items, edges) =>
      if p[0] == q[0] then Below(items[p[0]], p[1..], q[1..]) else Reach(edges, p[0], q[0])
  }

  /** From every node a tail is below, to every node a head is above: frames can leave and enter the graph
      wherever they are. */
  ghost predicate Exits(it: Item)
    requires WellFormed(it)
  {
    forall p :: IsNode(it, p) ==> exists t :: IsNode(it, t) && IsTail(it, t) && Below(it, p, t)
  }

  ghost predicate Entries(it: Item)
    requires WellFormed(it)
  {
    forall q :: IsNode(it, q) ==> exists h :: IsNode(it, h) && IsHead(it, h) && Below(it, h, q)
  }

  /** A way between vertices on which every vertex has a module. */
  ghost predicate Solidly(it: Item, way: seq<nat>)
    requires it.Graph? && |it.edges| == |it.items|
  {
    IsPath(it.edges, way) && forall i :: 0 <= i < |way| ==> HasNode(it.items[way[i]])
  }

  ghost predicate Bridge(it: Item, u: nat, v: nat)
    requires it.Graph? && |it.edges| == |it.items|
  {
    exists way :: Crosses(it, way, u, v)
  }

  ghost predicate Crosses(it: Item, way: seq<nat>, u: nat, v: nat)
    requires it.Graph? && |it.edges| == |it.items|
  {
    Solidly(it, way) && way[0] == u && way[|way| - 1] == v
  }

  /** At every level, where a vertex with modules comes after another, frames can leave the one, enter the
      other, and get across without a vertex that has no module. */
  ghost predicate Bridged(it: Item)
    requires WellFormed(it)
  {
    it.Graph? ==>
      && (forall i :: 0 <= i < |it.items| ==> Bridged(it.items[i]))
      && (forall u: nat, v: nat ::
            u < |it.items| && v < |it.items| && u != v && HasNode(it.items[u]) && HasNode(it.items[v])
            && Reach(it.edges, u, v) ==>
              Exits(it.items[u]) && Entries(it.items[v]) && Bridge(it, u, v))
  }

  // ----- Walks -----

  lemma FlatRefl(it: Item, p: Path)
    requires WellFormed(it) && IsNode(it, p)
    ensures FlatReach(it, p, p)
  {
    assert WalkFromTo(it, [p], p, p);
  }

  lemma FlatStep(it: Item, p: Path, q: Path)
    requires WellFormed(it) && IsNode(it, p) && IsNode(it, q) && FlatEdge(it, p, q)
    ensures FlatReach(it, p, q)
  {
    assert WalkFromTo(it, [p, q], p, q);
  }

  lemma FlatTrans(it: Item, p: Path, q: Path, r: Path)
    requires WellFormed(it) && FlatReach(it, p, q) && FlatReach(it, q, r)
    ensures FlatReach(it, p, r)
  {
    var a :| WalkFromTo(it, a, p, q);
    var b :| WalkFromTo(it, b, q, r);
    var c := a + b[1..];
    assert forall i :: |a| <= i < |c| ==> c[i] == b[i - |a| + 1];
    hide FlatEdge;
    hide IsNode;
    assert WalkFromTo(it, c, p, r);
  }

  /** A walk inside a vertex is a walk of the graph around it. */
  lemma Embed(it: Item, v: nat, p: Path, q: Path)
    requires WellFormed(it) && it.Graph? && v < |it.items| && FlatReach(it.items[v], p, q)
    ensures FlatReach(it, [v] + p, [v] + q)
  {
    var w :| WalkFromTo(it.items[v], w, p, q);
    var z := seq(|w|, i requires 0 <= i < |w| => [v] + w[i]);
    forall i | 0 <= i < |z| ensures IsNode(it, z[i]) { assert z[i][1..] == w[i]; }
    forall i | 0 <= i < |z| - 1 ensures FlatEdge(it, z[i], z[i + 1]) {
      assert z[i][1..] == w[i] && z[i + 1][1..] == w[i + 1];
    }
    hide FlatEdge;
    hide IsNode;
    assert WalkFromTo(it, z, [v] + p, [v] + q);
  }

  // ----- Heads and tails -----

  lemma {:induction false} HeadsAreNodes(it: Item, p: Path)
    requires IsHead(it, p)
    ensures IsNode(it, p)
  {
    if it.Graph? { HeadsAreNodes(it.items[p[0]], p[1..]); }
  }

  lemma {:induction false} TailsAreNodes(it: Item, p: Path)
    requires WellFormed(it) && IsTail(it, p)
    ensures IsNode(it, p)
  {
    if it.Graph? { TailsAreNodes(it.items[p[0]], p[1..]); }
  }

  lemma {:induction false} SomeNode(it: Item) returns (p: Path)
    requires Populated(it)
    ensures IsNode(it, p)
  {
    if it.Module? {
      p := [];
    } else {
      var q := SomeNode(it.items[0]);
      p := [0] + q;
      assert p[1..] == q;
    }
  }

  /** In an acyclic graph every vertex reaches one without successors. */
  lemma SinkBelow(g: Digraph, u: nat) returns (s: nat)
    requires InRange(g) && Acyclic(g) && u < |g|
    ensures s < |g| && g[s] == {} && Reach(g, u, s)
  {
    var below := set v | 0 <= v < |g| && Reach(g, u, v);
    ReachRefl(g, u);
    assert u in below;
    s := HighestRank(g, below);
    assert forall v: nat :: v < |g| && Reach(g, u, v) ==> v in below;
    if v :| v in g[s] {
      RankGrows(g, s, v);
      ReachStep(g, u, s, v);
      assert false;
    }
  }

  /** In an acyclic graph every vertex is reached from one without predecessors. */
  lemma SourceAbove(g: Digraph, v: nat) returns (s: nat)
    requires InRange(g) && Acyclic(g) && v < |g|
    ensures s < |g| && Preds(g, s) == {} && Reach(g, s, v)
  {
    var above := set u | 0 <= u < |g| && Reach(g, u, v);
    ReachRefl(g, v);
    assert v in above;
    s := LowestRank(g, above);
    assert forall u: nat :: u < |g| && Reach(g, u, v) ==> u in above;
    if u :| u in Preds(g, s) {
      RankGrows(g, u, s);
      ReachPrepend(g, u, s, v);
      assert false;
    }
  }

  lemma {:induction false} SomeTail(it: Item) returns (t: Path)
    requires WellFormed(it) && Populated(it)
    ensures IsTail(it, t)
  {
    if it.Module? {
      t := [];
    } else {
      var s := SinkBelow(it.edges, 0);
      var r := SomeTail(it.items[s]);
      t := [s] + r;
      assert t[1..] == r;
    }
  }

  lemma {:induction false} SomeHead(it: Item) returns (h: Path)
    requires WellFormed(it) && Populated(it)
    ensures IsHead(it, h)
  {
    if it.Module? {
      h := [];
    } else {
      var s := SourceAbove(it.edges, 0);
      var r := SomeHead(it.items[s]);
      h := [s] + r;
      assert h[1..] == r;
    }
  }

  lemma {:induction false} TailBelow(it: Item, p: Path) returns (t: Path)
    requires WellFormed(it) && Populated(it) && IsNode(it, p)
    ensures IsTail(it, t) && IsNode(it, t) && Below(it, p, t)
    decreases it
  {
    if it.Module? {
      t := [];
    } else {
      var s := SinkBelow(it.edges, p[0]);
      var r: Path;
      if s == p[0] {
        r := TailBelow(it.items[s], p[1..]);
      } else {
        r := SomeTail(it.items[s]);
        TailsAreNodes(it.items[s], r);
      }
      t := [s] + r;
      assert t[1..] == r;
    }
  }

  lemma {:induction false} HeadAbove(it: Item, q: Path) returns (h: Path)
    requires WellFormed(it) && Populated(it) && IsNode(it, q)
    ensures IsHead(it, h) && IsNode(it, h) && Below(it, h, q)
    decreases it
  {
    if it.Module? {
      h := [];
    } else {
      var s := SourceAbove(it.edges, q[0]);
      var r: Path;
      if s == q[0] {
        r := HeadAbove(it.items[s], q[1..]);
      } else {
        r := SomeHead(it.items[s]);
        HeadsAreNodes(it.items[s], r);
      }
      h := [s] + r;
      assert h[1..] == r;
    }
  }

  // ----- Reachability through next_ is reachability read off the nesting -----

  /** A flattened edge leads below. */
  lemma {:induction false} EdgeGoesBelow(it: Item, p: Path, r: Path, q: Path)
    requires WellFormed(it) && IsNode(it, p) && IsNode(it, r) && IsNode(it, q)
    requires Below(it, p, r) && FlatEdge(it, r, q)
    ensures Below(it, p, q)
    decreases it
  {
    var g := it.edges;
    if q[0] in g[r[0]] {
      ReachRefl(g, r[0]);
      ReachStep(g, r[0], r[0], q[0]);
      if p[0] != r[0] { ReachStep(g, p[0], r[0], q[0]); }
      if p[0] == q[0] {
        assert Reach(g, q[0], r[0]);
        assert ReachPlus(g, r[0], r[0]);
        assert false;
      }
    } else if p[0] == r[0] {
      EdgeGoesBelow(it.items[p[0]], p[1..], r[1..], q[1..]);
    }
  }

  lemma {:induction false} BelowRefl(it: Item, p: Path)
    requires IsNode(it, p)
    ensures Below(it, p, p)
  {
    if it.Graph? { BelowRefl(it.items[p[0]], p[1..]); }
  }

  lemma {:induction false} ReachIsBelow(it: Item, p: Path, q: Path)
    requires WellFormed(it) && IsNode(it, p) && IsNode(it, q) && FlatReach(it, p, q)
    ensures Below(it, p, q)
  {
    var w :| WalkFromTo(it, w, p, q);
    var i := 0;
    BelowRefl(it, p);
    while i < |w| - 1
      invariant 0 <= i < |w| && Below(it, p, w[i])
    {
      EdgeGoesBelow(it, p, w[i], w[i + 1]);
      i := i + 1;
    }
  }

  /** Along an edge, every node of the first vertex reaches every node of the second. */
  lemma {:induction false} CrossEdge(it: Item, p: Path, q: Path)
    requires WellFormed(it) && Bridged(it) && IsNode(it, p) && IsNode(it, q)
    requires it.Graph? && q[0] in it.edges[p[0]]
    ensures FlatReach(it, p, q)
    decreases it, 0
  {
    var a, b := it.items[p[0]], it.items[q[0]];
    CanCross(it, p, q);
    var t :| IsNode(a, t) && IsTail(a, t) && Below(a, p[1..], t);
    var h :| IsNode(b, h) && IsHead(b, h) && Below(b, h, q[1..]);
    BelowIsReach(a, p[1..], t);
    BelowIsReach(b, h, q[1..]);
    Embed(it, p[0], p[1..], t);
    Embed(it, q[0], h, q[1..]);
    var t1, h1 := [p[0]] + t, [q[0]] + h;
    assert [p[0]] + p[1..] == p && [q[0]] + q[1..] == q;
    assert t1[1..] == t && h1[1..] == h;
    FlatStep(it, t1, h1);
    FlatTrans(it, p, t1, h1);
    FlatTrans(it, p, h1, q);
  }

  lemma CanCross(it: Item, p: Path, q: Path)
    requires WellFormed(it) && Bridged(it) && IsNode(it, p) && IsNode(it, q)
    requires it.Graph? && q[0] in it.edges[p[0]]
    ensures Bridged(it.items[p[0]]) && Bridged(it.items[q[0]])
    ensures exists t :: IsNode(it.items[p[0]], t) && IsTail(it.items[p[0]], t) && Below(it.items[p[0]], p[1..], t)
    ensures exists h :: IsNode(it.items[q[0]], h) && IsHead(it.items[q[0]], h) && Below(it.items[q[0]], h, q[1..])
  {
    var u, v := p[0], q[0];
    assert IsNode(it.items[u], p[1..]) && IsNode(it.items[v], q[1..]);
    ReachRefl(it.edges, u);
    ReachStep(it.edges, u, u, v);
    if u == v { SelfLoop(it.edges, u); }
    hide Reach;
    hide Bridge;
    assert Exits(it.items[u]) && Entries(it.items[v]);
  }

  lemma {:induction false} CrossPath(it: Item, p: Path, q: Path, way: seq<nat>)
    requires WellFormed(it) && Bridged(it) && IsNode(it, p) && IsNode(it, q)
    requires it.Graph? && Crosses(it, way, p[0], q[0]) && 2 <= |way|
    ensures FlatReach(it, p, q)
    decreases it, |way|
  {
    if |way| == 2 {
      CrossEdge(it, p, q);
    } else {
      var m :| IsNode(it.items[way[1]], m);
      var m1 := [way[1]] + m;
      assert m1[1..] == m;
      CrossEdge(it, p, m1);
      assert Crosses(it, way[1..], way[1], q[0]);
      CrossPath(it, m1, q, way[1..]);
      FlatTrans(it, p, m1, q);
    }
  }

  lemma {:induction false} BelowIsReach(it: Item, p: Path, q: Path)
    requires WellFormed(it) && Bridged(it) && IsNode(it, p) && IsNode(it, q) && Below(it, p, q)
    ensures FlatReach(it, p, q)
    decreases it
  {
    if it.Module? {
      FlatRefl(it, p);
    } else if p[0] == q[0] {
      BelowIsReach(it.items[p[0]], p[1..], q[1..]);
      Embed(it, p[0], p[1..], q[1..]);
      assert [p[0]] + p[1..] == p && [q[0]] + q[1..] == q;
    } else {
      var way := SomeBridge(it, p, q);
      CrossPath(it, p, q, way);
    }
  }

  lemma SomeBridge(it: Item, p: Path, q: Path) returns (way: seq<nat>)
    requires WellFormed(it) && Bridged(it) && it.Graph? && IsNode(it, p) && IsNode(it, q)
    requires p[0] != q[0] && Below(it, p, q)
    ensures Crosses(it, way, p[0], q[0]) && 2 <= |way|
  {
    hide Exits;
    hide Entries;
    hide Reach;
    assert IsNode(it.items[p[0]], p[1..]) && IsNode(it.items[q[0]], q[1..]);
    assert Bridge(it, p[0], q[0]);
    way :| Crosses(it, way, p[0], q[0]);
  }

  lemma {:induction false} PopulatedIsBridged(it: Item)
    requires WellFormed(it) && Populated(it)
    ensures Bridged(it)
  {
    if it.Graph? {
      forall i | 0 <= i < |it.items|
        ensures Bridged(it.items[i]) && Exits(it.items[i]) && Entries(it.items[i]) && HasNode(it.items[i])
      {
        PopulatedIsBridged(it.items[i]);
        PopulatedExits(it.items[i]);
        PopulatedEntries(it.items[i]);
        PopulatedHasNode(it.items[i]);
      }
      hide Exits;
      hide Entries;
      hide HasNode;
      hide Reach;
      forall u: nat, v: nat | u < |it.items| && v < |it.items| && Reach(it.edges, u, v) ensures Bridge(it, u, v) {
        AnyWayIsSolid(it, u, v);
      }
      hide Bridge;
    }
  }

  lemma AnyWayIsSolid(it: Item, u: nat, v: nat)
    requires it.Graph? && |it.edges| == |it.items| && Reach(it.edges, u, v)
    requires forall i :: 0 <= i < |it.items| ==> HasNode(it.items[i])
    ensures Bridge(it, u, v)
  {
    hide HasNode;
    var way :| PathFromTo(it.edges, way, u, v);
    assert Crosses(it, way, u, v);
  }

  lemma PopulatedExits(it: Item)
    requires WellFormed(it) && Populated(it)
    ensures Exits(it)
  {
    forall p | IsNode(it, p) ensures exists t :: IsNode(it, t) && IsTail(it, t) && Below(it, p, t) {
      var t := TailBelow(it, p);
    }
  }

  lemma PopulatedEntries(it: Item)
    requires WellFormed(it) && Populated(it)
    ensures Entries(it)
  {
    forall q | IsNode(it, q) ensures exists h :: IsNode(it, h) && IsHead(it, h) && Below(it, h, q) {
      var h := HeadAbove(it, q);
    }
  }

  lemma PopulatedHasNode(it: Item)
    requires Populated(it)
    ensures HasNode(it)
  {
    var p := SomeNode(it);
  }

  lemma {:induction false} PopulatedIsSolid(it: Item)
    requires Populated(it)
    ensures Solid(it)
  {
    if it.Graph? {
      forall i | 0 <= i < |it.items| ensures Solid(it.items[i]) && HasNode(it.items[i]) {
        PopulatedIsSolid(it.items[i]);
        PopulatedHasNode(it.items[i]);
      }
    }
  }

  // ----- Heads and the flattened edges -----

  ghost predicate Parentless(it: Item, q: Path)
    requires WellFormed(it)
  {
    forall p :: IsNode(it, p) ==> !FlatEdge(it, p, q)
  }

  ghost predicate HasHead(it: Item) { exists h :: IsHead(it, h) }

  ghost predicate HasTail(it: Item)
    requires WellFormed(it)
  {
    exists t :: IsTail(it, t)
  }

  /** At every level, a vertex that has heads and follows other vertices follows one that has tails. */
  ghost predicate Linked(it: Item)
    requires WellFormed(it)
  {
    it.Graph? ==>
      forall v :: 0 <= v < |it.items| ==>
        && Linked(it.items[v])
        && (Preds(it.edges, v) != {} && HasHead(it.items[v]) ==>
              exists u :: u in Preds(it.edges, v) && HasTail(it.items[u]))
  }

  lemma {:induction false} HeadsAreParentless(it: Item, q: Path)
    requires WellFormed(it) && IsHead(it, q)
    ensures Parentless(it, q)
  {
    if it.Graph? {
      HeadsAreParentless(it.items[q[0]], q[1..]);
      forall p | IsNode(it, p) ensures !FlatEdge(it, p, q) {
        assert p[0] !in Preds(it.edges, q[0]);
      }
    }
  }

  lemma {:induction false} ParentlessIsHead(it: Item, q: Path)
    requires WellFormed(it) && Linked(it) && IsNode(it, q) && Parentless(it, q)
    ensures IsHead(it, q)
  {
    if it.Graph? {
      var b := it.items[q[0]];
      ParentlessInside(it, q);
      ParentlessIsHead(b, q[1..]);
      if Preds(it.edges, q[0]) != {} {
        var u :| u in Preds(it.edges, q[0]) && HasTail(it.items[u]);
        TailIsParent(it, u, q);
      }
    }
  }

  lemma TailIsParent(it: Item, u: nat, q: Path)
    requires WellFormed(it) && it.Graph? && IsNode(it, q) && IsHead(it.items[q[0]], q[1..])
    requires u in Preds(it.edges, q[0]) && HasTail(it.items[u])
    ensures !Parentless(it, q)
  {
    var t :| IsTail(it.items[u], t);
    TailsAreNodes(it.items[u], t);
    var t1 := [u] + t;
    assert t1[1..] == t;
    assert IsNode(it, t1) && FlatEdge(it, t1, q);
  }

  lemma ParentlessInside(it: Item, q: Path)
    requires WellFormed(it) && it.Graph? && IsNode(it, q) && Parentless(it, q)
    ensures Parentless(it.items[q[0]], q[1..])
  {
    var b := it.items[q[0]];
    forall p | IsNode(b, p) ensures !FlatEdge(b, p, q[1..]) {
      var p1 := [q[0]] + p;
      assert p1[1..] == p && IsNode(it, p1);
    }
  }

  ghost predicate HeadsExact(it: Item)
    requires WellFormed(it)
  {
    forall q :: IsNode(it, q) ==> (IsHead(it, q) <==> Parentless(it, q))
  }

  /** What leads to a node of vertex `v`: an edge from a vertex with tails, or a link inside `v`. */
  lemma ParentOf(it: Item, v: nat, q: Path)
    requires WellFormed(it) && it.Graph? && v < |it.items| && IsNode(it.items[v], q) && !Parentless(it, [v] + q)
    ensures !Parentless(it.items[v], q)
            || (IsHead(it.items[v], q) && exists u :: u in Preds(it.edges, v) && HasTail(it.items[u]))
  {
    var q1 := [v] + q;
    assert q1[1..] == q;
    var p :| IsNode(it, p) && FlatEdge(it, p, q1);
    if p[0] in Preds(it.edges, v) && IsTail(it.items[p[0]], p[1..]) && IsHead(it.items[v], q) {
      assert HasTail(it.items[p[0]]);
    } else {
      assert p[0] == v && IsNode(it.items[v], p[1..]) && FlatEdge(it.items[v], p[1..], q);
    }
  }

  lemma {:induction false} ExactIsLinked(it: Item)
    requires WellFormed(it) && HeadsExact(it)
    ensures Linked(it)
  {
    if it.Graph? {
      forall v: nat | v < |it.items|
        ensures Linked(it.items[v])
        ensures Preds(it.edges, v) != {} && HasHead(it.items[v]) ==>
          exists u :: u in Preds(it.edges, v) && HasTail(it.items[u])
      {
        var b := it.items[v];
        forall q | IsNode(b, q) ensures IsHead(b, q) <==> Parentless(b, q) {
          var q1 := [v] + q;
          assert q1[1..] == q && IsNode(it, q1);
          if IsHead(b, q) { HeadsAreParentless(b, q); } else { ParentOf(it, v, q); }
        }
        ExactIsLinked(b);
        if h :| Preds(it.edges, v) != {} && IsHead(b, h) {
          HeadsAreNodes(b, h);
          HeadsAreParentless(b, h);
          var h1 := [v] + h;
          assert h1[1..] == h && IsNode(it, h1) && !IsHead(it, h1);
          ParentOf(it, v, h);
        }
      }
    }
  }

  /** The heads are exactly the nodes that nothing leads to if and only if the graph is linked. */
  lemma HeadsExactIffLinked(it: Item)
    requires WellFormed(it)
    ensures HeadsExact(it) <==> Linked(it)
  {
    if HeadsExact(it) {
      ExactIsLinked(it);
    } else {
      var q :| IsNode(it, q) && !(IsHead(it, q) <==> Parentless(it, q));
      if IsHead(it, q) { HeadsAreParentless(it, q); } else if Linked(it) { ParentlessIsHead(it, q); }
    }
  }

  lemma {:induction false} PopulatedIsLinked(it: Item)
    requires WellFormed(it) && Populated(it)
    ensures Linked(it)
  {
    if it.Graph? {
      forall v: nat | v < |it.items|
        ensures Linked(it.items[v])
        ensures Preds(it.edges, v) != {} ==> exists u :: u in Preds(it.edges, v) && HasTail(it.items[u])
      {
        PopulatedIsLinked(it.items[v]);
        if u :| u in Preds(it.edges, v) {
          var t := SomeTail(it.items[u]);
          assert HasTail(it.items[u]);
        }
      }
    }
  }
}
