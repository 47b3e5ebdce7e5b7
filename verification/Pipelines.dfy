/** From the graph to the protocol: the masks that GenerateModulesMask computes mean what routing
    assumes, so the nodes of any well-formed graph make a network for `FrameFlow`. */
module Pipelines {
  import opened Sequences
  import opened Options
  import Digraphs
  import opened NestedGraphs
  import opened NestedDfs
  import opened NestedBuilds
  import opened NestedDfsTheorems
  import opened GraphIterators
  import opened Names
  import opened ModuleMasks
  import Flow = FrameFlow
  import FrameProgress

  /** `nodes` lists the modules in the order in which CreateModules numbers them. */
  ghost predicate Numbered(it: Item, nodes: seq<Path>) {
    Distinct(nodes) && forall p :: p in nodes <==> IsNode(it, p)
  }

  ghost predicate LinkedTo(it: Item, nodes: seq<Path>, i: nat, j: nat)
    requires WellFormed(it)
  {
    i < |nodes| && j < |nodes| && FlatEdge(it, nodes[i], nodes[j])
  }

  /** `next[i]` lists GetNext() of module `i`, in any order. */
  ghost predicate IsNext(it: Item, nodes: seq<Path>, next: seq<seq<nat>>)
    requires WellFormed(it)
  {
    && |next| == |nodes|
    && (forall i: nat :: i < |next| ==> Distinct(next[i]))
    && (forall i: nat, j: nat :: i < |next| ==> (j in next[i] <==> LinkedTo(it, nodes, i, j)))
  }

  ghost function ParentsOf(it: Item, nodes: seq<Path>, j: nat): (s: set<nat>)
    requires WellFormed(it)
    ensures forall i: nat :: i in s <==> LinkedTo(it, nodes, i, j)
  {
    set i | 0 <= i < |nodes| && LinkedTo(it, nodes, i, j)
  }

  ghost predicate OnRoute(it: Item, nodes: seq<Path>, h: nat, j: nat)
    requires WellFormed(it)
  {
    h < |nodes| && j < |nodes| && FlatReach(it, nodes[h], nodes[j])
  }

  ghost function RouteOf(it: Item, nodes: seq<Path>, h: nat): (s: set<nat>)
    requires WellFormed(it)
    ensures forall j: nat :: j in s <==> OnRoute(it, nodes, h, j)
  {
    set j | 0 <= j < |nodes| && OnRoute(it, nodes, h, j)
  }

  /** The network that the frames of head module `h` run through. */
  ghost function NetFrom(it: Item, nodes: seq<Path>, next: seq<seq<nat>>, h: nat): Flow.Net
    requires WellFormed(it)
  {
    Flow.Net(next, seq(|nodes|, (j: nat) => ParentsOf(it, nodes, j)), Upto(|nodes|), h, RouteOf(it, nodes, h))
  }

  lemma {:induction false} NotLinkedToSelf(it: Item, p: Path)
    requires WellFormed(it)
    ensures !FlatEdge(it, p, p)
    decreases it
  {
    if FlatEdge(it, p, p) {
      if p[0] in it.edges[p[0]] {
        NotOwnSuccessor(it, p[0]);
      } else {
        NotLinkedToSelf(it.items[p[0]], p[1..]);
      }
    }
  }

  lemma NotOwnSuccessor(it: Item, v: nat)
    requires WellFormed(it) && it.Graph? && v < |it.items|
    ensures v !in it.edges[v]
  {
    if v in it.edges[v] { Digraphs.SelfLoop(it.edges, v); }
  }

  /** A node that is reached from another has a parent that is reached too. */
  lemma ReachedThroughParent(it: Item, p: Path, q: Path) returns (r: Path)
    requires WellFormed(it) && FlatReach(it, p, q) && p != q
    ensures IsNode(it, r) && FlatEdge(it, r, q) && FlatReach(it, p, r)
  {
    var w :| WalkFromTo(it, w, p, q);
    r := w[|w| - 2];
    assert WalkFromTo(it, w[..|w| - 1], p, r);
  }

  lemma OnRouteStep(it: Item, nodes: seq<Path>, h: nat, m: nat, n: nat)
    requires WellFormed(it) && Numbered(it, nodes) && OnRoute(it, nodes, h, m) && LinkedTo(it, nodes, m, n)
    ensures OnRoute(it, nodes, h, n)
  {
    assert nodes[m] in nodes && nodes[n] in nodes;
    hide FlatEdge;
    hide FlatReach;
    FlatStep(it, nodes[m], nodes[n]);
    FlatTrans(it, nodes[h], nodes[m], nodes[n]);
  }

  lemma OnRouteParent(it: Item, nodes: seq<Path>, h: nat, n: nat) returns (m: nat)
    requires WellFormed(it) && Numbered(it, nodes) && OnRoute(it, nodes, h, n) && n != h
    ensures OnRoute(it, nodes, h, m) && LinkedTo(it, nodes, m, n)
  {
    assert nodes[h] != nodes[n] by {
      assert nodes[if h < n then h else n] != nodes[if h < n then n else h];
    }
    var r := ReachedThroughParent(it, nodes[h], nodes[n]);
    assert r in nodes;
    m :| 0 <= m < |nodes| && nodes[m] == r;
  }

  /** The network from a head of a well-formed graph meets everything the routing assumes of it. */
  lemma NetIsValid(it: Item, nodes: seq<Path>, next: seq<seq<nat>>, h: nat)
    requires WellFormed(it) && Numbered(it, nodes) && IsNext(it, nodes, next)
    requires h < |nodes| && IsHead(it, nodes[h])
    ensures NetFrom(it, nodes, next, h).Valid()
  {
    var net := NetFrom(it, nodes, next, h);
    forall m: nat | m < |nodes| ensures m !in net.parents[m] { NotLinkedToSelf(it, nodes[m]); }
    assert nodes[h] in nodes;
    HeadsAreParentless(it, nodes[h]);
    FlatRefl(it, nodes[h]);
    forall i: nat | i < |nodes| ensures !LinkedTo(it, nodes, i, h) { assert nodes[i] in nodes; }
    assert net.parents[h] == {};
    hide FlatEdge;
    hide FlatReach;
    hide Parentless;
    hide IsHead;
    forall n | n in net.route && n != h ensures net.ParentOnRoute(n) {
      var m := OnRouteParent(it, nodes, h, n);
      assert m in net.parents[n] && m in net.route;
    }
    forall m: nat, n: nat | m in net.route && n in net.order[m] ensures n in net.route {
      OnRouteStep(it, nodes, h, m, n);
    }
  }

  // ----- The numbering behind deadlock freedom and termination -----

  function IndexOf(s: seq<Path>, p: Path): (i: nat)
    requires p in s
    ensures i < |s| && s[i] == p
  {
    if s[0] == p then 0 else 1 + IndexOf(s[1..], p)
  }

  ghost predicate SameNodes(a: seq<Path>, b: seq<Path>) {
    forall p :: p in a <==> p in b
  }

  /** The place of each module in the topological order. */
  ghost function Places(nodes: seq<Path>, sorted: seq<Path>): seq<nat>
    requires SameNodes(nodes, sorted)
  {
    seq(|nodes|, (i: nat) requires i < |nodes| => assert nodes[i] in nodes; IndexOf(sorted, nodes[i]))
  }

  lemma SameLength(a: seq<Path>, b: seq<Path>)
    requires Distinct(a) && Distinct(b) && SameNodes(a, b)
    ensures |a| == |b|
  {
    DistinctSize(a);
    DistinctSize(b);
    assert Elements(a) == Elements(b);
  }

  /** A topological order of the modules ranks the network from every head. */
  lemma NetIsRanked(it: Item, nodes: seq<Path>, next: seq<seq<nat>>, h: nat, sorted: seq<Path>)
    requires WellFormed(it) && Numbered(it, nodes) && IsNext(it, nodes, next)
    requires h < |nodes| && IsHead(it, nodes[h])
    requires Distinct(sorted) && Forward(it, sorted) && SameNodes(nodes, sorted)
    ensures FrameProgress.Ranked(NetFrom(it, nodes, next, h), Places(nodes, sorted))
  {
    NetIsValid(it, nodes, next, h);
    SameLength(nodes, sorted);
    var rank := Places(nodes, sorted);
    forall m: nat, n: nat | m < |rank| && n in next[m] ensures rank[m] < rank[n] {
      assert LinkedTo(it, nodes, m, n);
      assert FlatEdge(it, sorted[rank[m]], sorted[rank[n]]);
    }
  }

  // ----- GenerateModulesMask -----

  /** The parents found in the lists before position `t` of list `i`. */
  ghost function Found(next: seq<seq<nat>>, i: nat, t: nat, j: nat): (s: set<nat>)
    requires i < |next| ==> t <= |next[i]|
    ensures forall u: nat :: u in s <==> u < |next| && (if u < i then j in next[u] else u == i && j in next[i][..t])
  {
    set u | 0 <= u < |next| && FoundAt(next, i, t, j, u)
  }

  ghost predicate FoundAt(next: seq<seq<nat>>, i: nat, t: nat, j: nat, u: nat)
    requires i < |next| ==> t <= |next[i]|
    requires u < |next|
  {
    if u < i then j in next[u] else u == i && j in next[i][..t]
  }

  ghost predicate MasksFound(ids: seq<bv64>, masks: seq<bv64>, next: seq<seq<nat>>, i: nat, t: nat)
    requires i < |next| ==> t <= |next[i]|
  {
    && |masks| == |next| == |ids|
    && forall j: nat :: j < |masks| ==> Stands(ids, masks[j], Found(next, i, t, j))
  }

  ghost predicate Closed(next: seq<seq<nat>>) {
    forall i: nat, t: nat :: i < |next| && t < |next[i]| ==> next[i][t] < |next|
  }

  lemma FoundNext(ids: seq<bv64>, masks: seq<bv64>, next: seq<seq<nat>>, i: nat, t: nat)
    requires i < |next| && t < |next[i]| && Closed(next) && MasksFound(ids, masks, next, i, t)
    ensures var n := next[i][t];
            ids[i] < 64 && n < |masks| && MasksFound(ids, masks[n := SetBit(masks[n], ids[i])], next, i, t + 1)
  {
    var n := next[i][t];
    assert Stands(ids, masks[n], Found(next, i, t, n));
    OrStands(ids, masks[n], Found(next, i, t, n), i);
    assert next[i][..t + 1] == next[i][..t] + [n];
    forall j: nat | j < |masks| ensures Found(next, i, t + 1, j) == Found(next, i, t, j) + if j == n then {i} else {} {
    }
    hide Stands;
    hide SetBit;
    assert forall j: nat :: j < |masks| && j != n ==> Found(next, i, t + 1, j) == Found(next, i, t, j);
  }

  lemma FoundList(ids: seq<bv64>, masks: seq<bv64>, next: seq<seq<nat>>, i: nat)
    requires i < |next| && MasksFound(ids, masks, next, i, |next[i]|)
    ensures MasksFound(ids, masks, next, i + 1, 0)
  {
    hide Stands;
    assert next[i][..|next[i]|] == next[i];
    forall j: nat | j < |masks| ensures Stands(ids, masks[j], Found(next, i + 1, 0, j)) {
      assert Found(next, i + 1, 0, j) == Found(next, i, |next[i]|, j);
    }
  }

  /** The first loop: each module puts its bit into the masks of the modules that follow it. */
  method ParentMasks(ids: seq<bv64>, next: seq<seq<nat>>, masks: array<bv64>)
    requires |ids| == |next| == masks.Length && Ids(ids) && Closed(next)
    requires forall j :: 0 <= j < masks.Length ==> masks[j] == 0
    modifies masks
    ensures MasksFound(ids, masks[..], next, |next|, 0)
  {
    forall j: nat | j < masks.Length ensures Stands(ids, masks[j], Found(next, 0, 0, j)) {
      ZeroStands(ids);
      assert Found(next, 0, 0, j) == {};
    }
    hide Stands;
    hide SetBit;
    for i := 0 to |next|
      invariant MasksFound(ids, masks[..], next, i, 0)
    {
      for t := 0 to |next[i]|
        invariant MasksFound(ids, masks[..], next, i, t)
      {
        FoundNext(ids, masks[..], next, i, t);
        var n := next[i][t];
        masks[n] := SetBit(masks[n], ids[i]);
      }
      FoundList(ids, masks[..], next, i);
    }
  }

  /** What the first loop finds are the parents. */
  lemma AllFound(it: Item, nodes: seq<Path>, next: seq<seq<nat>>, j: nat)
    requires WellFormed(it) && IsNext(it, nodes, next)
    ensures Found(next, |next|, 0, j) == ParentsOf(it, nodes, j)
  {
  }

  ghost function Indices(nodes: seq<Path>, ps: seq<Path>): (s: set<nat>)
    ensures forall j: nat :: j in s <==> j < |nodes| && nodes[j] in ps
  {
    set j | 0 <= j < |nodes| && nodes[j] in ps
  }

  /** Iterating from module `h` visits module `j`. */
  ghost predicate OnIteration(it: Item, nodes: seq<Path>, h: nat, j: nat) {
    && h < |nodes| && j < |nodes| && IsNode(it, nodes[h]) && IsNode(it, nodes[j])
    && Below(it, nodes[h], nodes[j])
  }

  ghost function IteratedFrom(it: Item, nodes: seq<Path>, h: nat): (s: set<nat>)
    ensures forall j: nat :: j in s <==> OnIteration(it, nodes, h, j)
  {
    set j | 0 <= j < |nodes| && OnIteration(it, nodes, h, j)
  }

  /** In a bridged graph, these are the modules on the route. */
  lemma IteratedIsRoute(it: Item, nodes: seq<Path>, h: nat)
    requires WellFormed(it) && Bridged(it) && Numbered(it, nodes)
    ensures IteratedFrom(it, nodes, h) == RouteOf(it, nodes, h)
  {
    if h < |nodes| {
      assert nodes[h] in nodes;
      BelowIffReach(it, nodes[h]);
      hide Below;
      hide FlatReach;
      hide Bridged;
      forall j: nat ensures OnIteration(it, nodes, h, j) <==> OnRoute(it, nodes, h, j) {
        assert j < |nodes| ==> nodes[j] in nodes;
      }
    }
  }

  /** The second loop, for one head: the bits of all modules that iterating from it visits. */
  method RouteMask(it: Item, nodes: seq<Path>, ids: seq<bv64>, h: nat) returns (mask: bv64)
    requires it.Graph? && WellFormed(it) && Numbered(it, nodes) && |ids| == |nodes| && Ids(ids)
    requires h < |nodes| && IsNode(it, nodes[h]) && PassableFrom(it, nodes[h])
    requires WellNamed(it) && Findable(it, nodes[h])
    ensures Stands(ids, mask, IteratedFrom(it, nodes, h))
    ensures Bridged(it) ==> Stands(ids, mask, RouteOf(it, nodes, h))
  {
    hide WellFormed;
    hide PassableFrom;
    hide Bridged;
    hide Stands;
    hide WellNamed;
    hide FlatReach;
    hide Below;
    var visited := NodesFromNamed(it, nodes[h]);
    assert forall q :: q in visited ==> q in nodes;
    assert Indices(nodes, visited) == IteratedFrom(it, nodes, h);
    mask := Collected(nodes, ids, visited);
    if Bridged(it) { IteratedIsRoute(it, nodes, h); }
  }

  /** `mask |= 1UL << id`, over a list of modules. */
  method Collected(nodes: seq<Path>, ids: seq<bv64>, visited: seq<Path>) returns (mask: bv64)
    requires |ids| == |nodes| && Ids(ids) && Distinct(nodes) && forall q :: q in visited ==> q in nodes
    ensures Stands(ids, mask, Indices(nodes, visited))
  {
    hide Stands;
    hide SetBit;
    mask := 0;
    ZeroStands(ids);
    assert Indices(nodes, visited[..0]) == {};
    for k := 0 to |visited|
      invariant Stands(ids, mask, Indices(nodes, visited[..k]))
    {
      assert visited[k] in visited;
      var i := IndexOf(nodes, visited[k]);
      OrStands(ids, mask, Indices(nodes, visited[..k]), i);
      mask := SetBit(mask, ids[i]);
      assert visited[..k + 1] == visited[..k] + [visited[k]];
      OneMoreIndex(nodes, visited[..k], visited[k], i);
    }
    assert visited[..|visited|] == visited;
  }

  lemma OneMoreIndex(nodes: seq<Path>, ps: seq<Path>, p: Path, i: nat)
    requires Distinct(nodes) && i < |nodes| && nodes[i] == p
    ensures Indices(nodes, ps + [p]) == Indices(nodes, ps) + {i}
  {
  }

  ghost predicate RouteMeans(it: Item, nodes: seq<Path>, ids: seq<bv64>, h: nat, mask: bv64)
    requires h < |nodes|
  {
    if IsHead(it, nodes[h]) then Stands(ids, mask, IteratedFrom(it, nodes, h)) else mask == 0
  }

  /** The masks that TransmitData works with. */
  ghost predicate MasksMean(it: Item, nodes: seq<Path>, ids: seq<bv64>, parents: seq<bv64>, routes: seq<bv64>)
    requires WellFormed(it)
  {
    && |ids| == |parents| == |routes| == |nodes|
    && (forall j: nat :: j < |nodes| ==> Stands(ids, parents[j], ParentsOf(it, nodes, j)))
    && (forall j: nat :: j < |nodes| ==> (parents[j] == 0 <==> Parentless(it, nodes[j])))
    && (forall h: nat :: h < |nodes| ==> RouteMeans(it, nodes, ids, h, routes[h]))
  }

  lemma NoParents(it: Item, nodes: seq<Path>, j: nat)
    requires WellFormed(it) && Numbered(it, nodes) && j < |nodes|
    ensures ParentsOf(it, nodes, j) == {} <==> Parentless(it, nodes[j])
  {
    assert nodes[j] in nodes;
    if Parentless(it, nodes[j]) {
      forall i: nat | i < |nodes| ensures !LinkedTo(it, nodes, i, j) { assert nodes[i] in nodes; }
    } else {
      var p :| IsNode(it, p) && FlatEdge(it, p, nodes[j]);
      assert p in nodes;
      var i: nat :| i < |nodes| && nodes[i] == p;
      assert i in ParentsOf(it, nodes, j);
    }
  }

  lemma ZeroForParentless(it: Item, nodes: seq<Path>, ids: seq<bv64>, j: nat, mask: bv64)
    requires WellFormed(it) && Numbered(it, nodes) && j < |nodes|
    requires Stands(ids, mask, ParentsOf(it, nodes, j))
    ensures mask == 0 <==> Parentless(it, nodes[j])
  {
    ZeroStands(ids);
    EqualStands(ids, mask, ParentsOf(it, nodes, j), 0, {});
    NoParents(it, nodes, j);
  }

  /** Names are as Init leaves them, and every head can be found by its full name. */
  ghost predicate HeadsFindable(it: Item) {
    WellNamed(it) && forall p :: IsHead(it, p) ==> Findable(it, p)
  }

  /** `parent_nodes_mask` and `route_mask` of every module. */
  method GenerateModulesMask(it: Item, nodes: seq<Path>, ids: seq<bv64>, next: seq<seq<nat>>)
    returns (parents: seq<bv64>, routes: seq<bv64>)
    requires it.Graph? && WellFormed(it) && Solid(it) && HeadsFindable(it)
    requires Numbered(it, nodes) && IsNext(it, nodes, next) && |ids| == |nodes| && Ids(ids)
    ensures MasksMean(it, nodes, ids, parents, routes)
  {
    var masks := new bv64[|nodes|](_ => 0);
    forall i: nat, t: nat | i < |next| && t < |next[i]| ensures next[i][t] < |next| {
      assert next[i][t] in next[i] && LinkedTo(it, nodes, i, next[i][t]);
    }
    ParentMasks(ids, next, masks);
    parents := masks[..];
    forall j: nat | j < |nodes|
      ensures Stands(ids, parents[j], ParentsOf(it, nodes, j))
      ensures parents[j] == 0 <==> Parentless(it, nodes[j])
    {
      AllFound(it, nodes, next, j);
      ZeroForParentless(it, nodes, ids, j, parents[j]);
    }
    routes := RouteMasks(it, nodes, ids);
  }

  /** After the heads `done`, whose masks are collected, come those that are still 0. */
  ghost predicate RoutesSoFar(it: Item, nodes: seq<Path>, ids: seq<bv64>, done: seq<Path>, routes: seq<bv64>) {
    && |routes| == |nodes|
    && forall h: nat :: h < |nodes| ==>
         if nodes[h] in done then Stands(ids, routes[h], IteratedFrom(it, nodes, h)) else routes[h] == 0
  }

  lemma OneMoreRoute(
      it: Item, nodes: seq<Path>, ids: seq<bv64>, done: seq<Path>, routes: seq<bv64>, i: nat, mask: bv64)
    requires RoutesSoFar(it, nodes, ids, done, routes) && Distinct(nodes) && i < |nodes|
    requires Stands(ids, mask, IteratedFrom(it, nodes, i))
    ensures RoutesSoFar(it, nodes, ids, done + [nodes[i]], routes[i := mask])
  {
    hide Stands;
    forall h: nat | h < |nodes| && h != i ensures nodes[h] in done + [nodes[i]] <==> nodes[h] in done {
      assert nodes[if h < i then h else i] != nodes[if h < i then i else h];
    }
  }

  /** The second loop of GenerateModulesMask. */
  method RouteMasks(it: Item, nodes: seq<Path>, ids: seq<bv64>) returns (routes: seq<bv64>)
    requires it.Graph? && WellFormed(it) && Solid(it) && HeadsFindable(it)
    requires Numbered(it, nodes) && |ids| == |nodes| && Ids(ids)
    ensures |routes| == |nodes| && forall h: nat :: h < |nodes| ==> RouteMeans(it, nodes, ids, h, routes[h])
  {
    hide WellFormed;
    hide Solid;
    hide Stands;
    hide IteratedFrom;
    hide PassableFrom;
    hide IsNode;
    hide WellNamed;
    hide Findable;
    SolidIsPassable(it);
    var heads, _ := FindHeadsAndTails(it);
    routes := seq(|nodes|, _ => 0);
    for k := 0 to |heads|
      invariant RoutesSoFar(it, nodes, ids, heads[..k], routes)
    {
      assert heads[k] in heads;
      HeadsAreNodes(it, heads[k]);
      assert heads[k] in nodes;
      PassableAt(it, heads[k]);
      var i := IndexOf(nodes, heads[k]);
      var mask := RouteMask(it, nodes, ids, i);
      OneMoreRoute(it, nodes, ids, heads[..k], routes, i, mask);
      routes := routes[i := mask];
      assert heads[..k + 1] == heads[..k] + [heads[k]];
    }
    assert heads[..|heads|] == heads;
  }

  // ----- TransmitData on masks -----

  /** Module `m` handles a frame in flow `fl` whose `modules_mask_` is `mask`: what TransmitData computes
      and decides on masks is what the flow does and allows on sets. */
  lemma MasksFollowTheFlow(ids: seq<bv64>, net: Flow.Net, fl: Flow.Flow, m: nat, mask: bv64, all: bv64, route: bv64)
    requires net.Valid() && |ids| == |net.order| && m < |ids| && m in fl.stage
    requires Stands(ids, mask, fl.mask) && Stands(ids, all, net.all) && Stands(ids, route, net.route)
    ensures fl.stage[m].Ready? && net.parents[m] == {} ==>
              Stands(ids, all ^ route, Flow.Act(net, fl, m, Flow.Vet).mask)
    ensures fl.stage[m].Vetted? ==>
              && Stands(ids, SetBit(mask, ids[m]), Flow.Act(net, fl, m, Flow.Mark).mask)
              && (SetBit(mask, ids[m]) == all <==> Flow.StageAfter(net, fl, m, Flow.Mark).Done?)
  {
    XorStands(ids, all, net.all, route, net.route);
    OrStands(ids, mask, fl.mask, m);
    EqualStands(ids, SetBit(mask, ids[m]), fl.mask + {m}, all, net.all);
    hide Stands;
    hide SetBit;
  }

  /** The push to the next module on the list happens exactly if its parents' bits are all in the mask
      that marking returned. */
  lemma PushTestFollowsTheFlow(ids: seq<bv64>, net: Flow.Net, fl: Flow.Flow, m: nat, cur: bv64, parents: bv64)
    requires net.Valid() && |ids| == |net.order| && m < |ids| && m in fl.stage
    requires fl.stage[m].Sending? && fl.stage[m].todo != [] && net.IsModule(fl.stage[m].todo[0])
    requires Stands(ids, cur, fl.stage[m].snap) && Stands(ids, parents, net.parents[fl.stage[m].todo[0]])
    ensures cur & parents == parents <==> Flow.Allowed(net, fl, m, Flow.Push)
    ensures cur & parents != parents <==> Flow.Allowed(net, fl, m, Flow.Skip)
  {
    SubsetStands(ids, cur, fl.stage[m].snap, parents, net.parents[fl.stage[m].todo[0]]);
    hide Stands;
  }

  // ----- BuildPipeline -----

  /** GetNext() of every module, by the number of the module. */
  method NextLists(it: Item, nodes: seq<Path>) returns (next: seq<seq<nat>>)
    requires WellFormed(it) && Numbered(it, nodes)
    ensures IsNext(it, nodes, next)
  {
    var links := InitEdges(it);
    hide FlatEdge;
    next := [];
    for i := 0 to |nodes|
      invariant |next| == i
      invariant forall k: nat :: k < i ==> Distinct(next[k])
      invariant forall k: nat, j: nat :: k < i ==> (j in next[k] <==> LinkedTo(it, nodes, k, j))
    {
      var out: seq<nat> := [];
      for j := 0 to |nodes|
        invariant Distinct(out)
        invariant forall x: nat :: x in out <==> x < j && LinkedTo(it, nodes, i, x)
      {
        if (nodes[i], nodes[j]) in links {
          assert forall k :: 0 <= k < |out| ==> out[k] in out;
          out := out + [j];
        }
      }
      next := next + [out];
    }
  }

  /** CreateModules, but for the ids: the modules in order, if the factory makes them all. */
  method CreateModules(it: Item, makes: set<Path>) returns (ok: bool, nodes: seq<Path>)
    requires it.Graph? && WellFormed(it) && Solid(it)
    ensures ok <==> forall p :: IsNode(it, p) ==> p in makes
    ensures ok ==> Numbered(it, nodes) && nodes == All(it)
  {
    nodes := AllNodes(it);
    for k := 0 to |nodes|
      invariant forall j :: 0 <= j < k ==> nodes[j] in makes
    {
      if nodes[k] !in makes {
        assert nodes[k] in nodes;
        return false, nodes;
      }
    }
    ok := true;
  }

  /** `parallelism` and `max_input_queue_size` of a module */
  datatype Limits = Limits(parallelism: int, capacity: int)

  predicate Positive(l: Limits) {
    0 < l.parallelism && 0 < l.capacity
  }

  /** The modules have connectors as configured, other than those without parents, which have none. */
  predicate Connected(nodes: seq<Path>, parents: seq<bv64>, limits: map<Path, Limits>, connectors: seq<Option<Limits>>)
    requires |parents| == |nodes| && forall p :: p in nodes ==> p in limits
  {
    && |connectors| == |nodes|
    && forall m: nat :: m < |nodes| ==>
         connectors[m] == if parents[m] == 0 then None else Some(limits[nodes[m]])
  }

  /** CreateConnectors */
  method CreateConnectors(nodes: seq<Path>, parents: seq<bv64>, limits: map<Path, Limits>)
    returns (ok: bool, connectors: seq<Option<Limits>>)
    requires |parents| == |nodes| && forall p :: p in nodes ==> p in limits
    ensures ok <==> forall m: nat :: m < |nodes| && parents[m] != 0 ==> Positive(limits[nodes[m]])
    ensures ok <==> forall m: nat :: m < |nodes| && parents[m] != 0 ==>
              limits[nodes[m]].parallelism > 0 && limits[nodes[m]].capacity > 0
    ensures ok ==> Connected(nodes, parents, limits, connectors)
  {
    connectors := [];
    for m := 0 to |nodes|
      invariant |connectors| == m
      invariant forall j: nat :: j < m ==> connectors[j] == if parents[j] == 0 then None else Some(limits[nodes[j]])
      invariant forall j: nat :: j < m && parents[j] != 0 ==> Positive(limits[nodes[j]])
    {
      assert nodes[m] in nodes;
      var config := limits[nodes[m]];
      if parents[m] != 0 {
        if config.parallelism <= 0 || config.capacity <= 0 { return false, connectors; }
        connectors := connectors + [Some(config)];
      } else {
        connectors := connectors + [None];
      }
    }
    ok := true;
  }

  datatype Built = Built(
    nodes: seq<Path>, next: seq<seq<nat>>, ids: seq<bv64>, all: bv64, parents: seq<bv64>, routes: seq<bv64>,
    sorted: seq<Path>)

  /** What is built: modules with their numbers, links and masks, and the order for the profiler, which ranks the
      network of every head. */
  ghost predicate IsPipeline(it: Item, b: Built)
    requires WellFormed(it)
  {
    && Numbered(it, b.nodes) && IsNext(it, b.nodes, b.next)
    && Stands(b.ids, b.all, Upto(|b.nodes|)) && MasksMean(it, b.nodes, b.ids, b.parents, b.routes)
    && Distinct(b.sorted) && Forward(it, b.sorted) && SameNodes(b.nodes, b.sorted)
    && forall h: nat :: h < |b.nodes| && IsHead(it, b.nodes[h]) ==>
         && NetFrom(it, b.nodes, b.next, h).Valid()
         && FrameProgress.Ranked(NetFrom(it, b.nodes, b.next, h), Places(b.nodes, b.sorted))
  }

  /** Every module with a parent has room for frames. */
  ghost predicate RoomForAll(it: Item, limits: map<Path, Limits>)
    requires WellFormed(it) && forall p :: IsNode(it, p) ==> p in limits
  {
    forall p :: IsNode(it, p) && !Parentless(it, p) ==> Positive(limits[p])
  }

  lemma RoomByNumber(it: Item, b: Built, limits: map<Path, Limits>)
    requires WellFormed(it) && IsPipeline(it, b) && forall p :: IsNode(it, p) ==> p in limits
    ensures |b.parents| == |b.nodes| && forall p :: p in b.nodes ==> p in limits
    ensures (forall m: nat :: m < |b.nodes| && b.parents[m] != 0 ==> Positive(limits[b.nodes[m]]))
            <==> RoomForAll(it, limits)
  {
    hide Stands;
    hide NetFrom;
    hide Parentless;
    hide IsNode;
    hide Positive;
    forall m: nat | m < |b.nodes| ensures b.nodes[m] in b.nodes { }
  }

  /** BuildPipeline, once the graph is initialised. */
  method BuildOf(it: Item, makes: set<Path>, limits: map<Path, Limits>)
    returns (ok: bool, b: Built, connectors: seq<Option<Limits>>)
    requires it.Graph? && WellFormed(it) && Solid(it) && HeadsFindable(it) && |All(it)| <= 64
    requires forall p :: IsNode(it, p) ==> p in limits
    ensures ok <==> (forall p :: IsNode(it, p) ==> p in makes) && RoomForAll(it, limits)
    ensures ok ==> IsPipeline(it, b) && (forall p :: p in b.nodes ==> p in limits)
    ensures ok ==> |b.parents| == |b.nodes| && Connected(b.nodes, b.parents, limits, connectors)
  {
    hide IsPipeline;
    hide HeadsFindable;
    hide Connected;
    hide WellFormed;
    hide IsNode;
    hide RoomForAll;
    hide Positive;
    b, connectors := Built([], [], [], 0, [], [], []), [];
    var made, nodes := CreateModules(it, makes);
    if !made { return false, b, connectors; }
    b := NumberAndLink(it, nodes);
    RoomByNumber(it, b, limits);
    ok, connectors := CreateConnectors(b.nodes, b.parents, limits);
  }

  /** What is between CreateModules and CreateConnectors. */
  method NumberAndLink(it: Item, nodes: seq<Path>) returns (b: Built)
    requires it.Graph? && WellFormed(it) && Solid(it) && HeadsFindable(it)
    requires Numbered(it, nodes) && |nodes| <= 64
    ensures IsPipeline(it, b)
  {
    var next := NextLists(it, nodes);
    var sorted := TopoSort(it);
    forall h: nat | h < |nodes| && IsHead(it, nodes[h])
      ensures NetFrom(it, nodes, next, h).Valid()
      ensures FrameProgress.Ranked(NetFrom(it, nodes, next, h), Places(nodes, sorted))
    {
      NetIsRanked(it, nodes, next, h, sorted);
    }
    hide NetFrom;
    hide IsHead;
    hide Stands;
    var ids, all := NumberModules(|nodes|);
    IdsStand(ids, all, Upto(|nodes|));
    var parents, routes := GenerateModulesMask(it, nodes, ids, next);
    b := Built(nodes, next, ids, all, parents, routes, sorted);
  }

  lemma IdsStand(ids: seq<bv64>, m: bv64, s: set<nat>)
    requires Stands(ids, m, s)
    ensures Ids(ids)
  {
  }
}
