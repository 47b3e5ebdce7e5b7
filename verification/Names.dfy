/** Node names: full names with slashes, and the look-ups that take them apart again. */
module Names {
  import opened Sequences
  import opened Options
  import opened NestedGraphs
  import opened NestedDfs
  import opened GraphIterators

  const SLASH: char := '/'

  predicate SlashFree(s: string) { SLASH !in s }

  // ----- Splitting and joining -----

  /** The pieces of `s` between slashes; `t` is what has been read of the first one. */
  function Pieces(t: string, s: string): (v: seq<string>)
    ensures v != []
    decreases |s|
  {
    if s == "" then [t]
    else if s[0] == SLASH then [t] + Pieces("", s[1..])
    else Pieces(t + [s[0]], s[1..])
  }

  function Split(s: string): seq<string> { Pieces("", s) }

  function Join(v: seq<string>): string
    requires v != []
  {
    if |v| == 1 then v[0] else v[0] + "/" + Join(v[1..])
  }

  lemma {:induction false} JoinPieces(t: string, s: string)
    ensures Join(Pieces(t, s)) == t + s
    decreases |s|
  {
    if s == "" {
    } else if s[0] == SLASH {
      JoinPieces("", s[1..]);
      assert Pieces(t, s)[1..] == Pieces("", s[1..]);
      assert t + s == t + "/" + s[1..];
    } else {
      JoinPieces(t + [s[0]], s[1..]);
      assert t + [s[0]] + s[1..] == t + s;
    }
  }

  lemma {:induction false} PiecesOf(t: string, a: string, s: string)
    requires SlashFree(a)
    ensures Pieces(t, a) == [t + a]
    ensures Pieces(t, a + "/" + s) == [t + a] + Pieces("", s)
    decreases |a|
  {
    if a == "" {
      assert a + "/" + s == "/" + s && ("/" + s)[1..] == s;
      assert t + a == t;
    } else {
      PiecesOf(t + [a[0]], a[1..], s);
      assert (a + "/" + s)[1..] == a[1..] + "/" + s;
      assert t + [a[0]] + a[1..] == t + a;
    }
  }

  lemma {:induction false} SplitJoin(v: seq<string>)
    requires v != [] && forall i :: 0 <= i < |v| ==> SlashFree(v[i])
    ensures Split(Join(v)) == v
  {
    PiecesOf("", v[0], if |v| > 1 then Join(v[1..]) else "");
    assert "" + v[0] == v[0];
    if |v| > 1 { SplitJoin(v[1..]); }
  }

  /** The loop over the characters of a name. */
  method SplitName(name: string) returns (v: seq<string>)
    ensures v == Split(name)
  {
    v := [];
    var t := "";
    for i := 0 to |name|
      invariant v + Pieces(t, name[i..]) == Split(name)
    {
      assert name[i..][1..] == name[i + 1..];
      if name[i] == SLASH {
        v, t := v + [t], "";
      } else {
        t := t + [name[i]];
      }
    }
    assert name[|name|..] == "";
    v := v + [t];
  }

  // ----- Names in a graph -----

  /** What AddVertex checks at every level: no slashes, and no name twice among the modules or among the subgraphs. */
  ghost predicate WellNamed(it: Item) {
    it.Graph? ==>
      && (forall i :: 0 <= i < |it.items| ==> SlashFree(it.items[i].name) && WellNamed(it.items[i]))
      && (forall i, j :: 0 <= i < j < |it.items| && it.items[i].Module? == it.items[j].Module? ==>
            it.items[i].name != it.items[j].name)
  }

  /** UNIGraph::GetFullName, `prefix` being that of the graph around it. */
  function GraphName(prefix: string, it: Item): string {
    if prefix == "" then it.name else prefix + "/" + it.name
  }

  /** UNINode::GetFullName */
  function FullName(prefix: string, it: Item, p: Path): string
    requires it.Graph? && IsNode(it, p)
    decreases it
  {
    var graph := GraphName(prefix, it);
    var a := it.items[p[0]];
    if a.Module? then graph + "/" + a.name else FullName(graph, a, p[1..])
  }

  /** The names on the way from `it` to the node, without its own. */
  function Way(it: Item, p: Path): (v: seq<string>)
    requires it.Graph? && IsNode(it, p)
    ensures |v| == |p|
    decreases it
  {
    var a := it.items[p[0]];
    assert IsNode(a, p[1..]);
    [a.name] + if a.Module? then [] else Way(a, p[1..])
  }

  lemma {:induction false} WayIsSlashFree(it: Item, p: Path)
    requires it.Graph? && IsNode(it, p) && WellNamed(it)
    ensures forall i :: 0 <= i < |p| ==> SlashFree(Way(it, p)[i])
    decreases it
  {
    if it.items[p[0]].Graph? { WayIsSlashFree(it.items[p[0]], p[1..]); }
  }

  lemma JoinWay(it: Item, p: Path)
    requires it.Graph? && IsNode(it, p)
    ensures var a := it.items[p[0]];
            Join(Way(it, p)) == if a.Module? then a.name else a.name + "/" + Join(Way(a, p[1..]))
  {
    var a := it.items[p[0]];
    if a.Graph? { assert Way(it, p)[1..] == Way(a, p[1..]); }
  }

  lemma {:induction false} FullNameIs(prefix: string, it: Item, p: Path)
    requires it.Graph? && IsNode(it, p) && (GraphName(prefix, it) != "" || |p| == 1)
    ensures FullName(prefix, it, p) == GraphName(prefix, it) + "/" + Join(Way(it, p))
    decreases it
  {
    hide Join;
    hide Way;
    var a, graph := it.items[p[0]], GraphName(prefix, it);
    JoinWay(it, p);
    if a.Graph? {
      FullNameIs(graph, a, p[1..]);
      assert graph + "/" + a.name + "/" + Join(Way(a, p[1..])) == graph + "/" + (a.name + "/" + Join(Way(a, p[1..])));
    }
  }

  // ----- Looking nodes up -----

  function FindModule(items: seq<Item>, name: string, i: nat): (r: Option<nat>)
    requires i <= |items|
    ensures r.Some? ==> r.value < |items| && items[r.value].Module? && items[r.value].name == name
    ensures r.None? ==> forall k :: i <= k < |items| && items[k].Module? ==> items[k].name != name
    decreases |items| - i
  {
    if i == |items| then None
    else if items[i].Module? && items[i].name == name then Some(i)
    else FindModule(items, name, i + 1)
  }

  function FindGraph(items: seq<Item>, name: string, i: nat): (r: Option<nat>)
    requires i <= |items|
    ensures r.Some? ==> r.value < |items| && items[r.value].Graph? && items[r.value].name == name
    ensures r.None? ==> forall k :: i <= k < |items| && items[k].Graph? ==> items[k].name != name
    decreases |items| - i
  {
    if i == |items| then None
    else if items[i].Graph? && items[i].name == name then Some(i)
    else FindGraph(items, name, i + 1)
  }

  function Prepend(path: Path, r: Option<Path>): Option<Path> {
    if r.None? then None else Some(path + r.value)
  }

  lemma PrependTwice(a: Path, b: Path, r: Option<Path>)
    ensures Prepend(a, Prepend(b, r)) == Prepend(a + b, r) && Prepend([], r) == r
  {
    if r.Some? { assert a + (b + r.value) == a + b + r.value && [] + r.value == r.value; }
  }

  /** The node that is reached by the names `v`, all but the last of them names of subgraphs. */
  function Follow(it: Item, v: seq<string>): (r: Option<Path>)
    requires it.Graph? && v != []
    ensures r.Some? ==> IsNode(it, r.value) && |r.value| == |v|
    decreases it
  {
    if |v| == 1 then
      match FindModule(it.items, v[0], 0)
      case None => None
      case Some(i) => Some([i])
    else
      match FindGraph(it.items, v[0], 0)
      case None => None
      case Some(i) =>
        var r := Prepend([i], Follow(it.items[i], v[1..]));
        assert r.Some? ==> r.value[1..] == Follow(it.items[i], v[1..]).value;
        r
  }

  lemma {:induction false} FollowWay(it: Item, p: Path)
    requires it.Graph? && IsNode(it, p) && WellNamed(it)
    ensures Follow(it, Way(it, p)) == Some(p)
    decreases it
  {
    var v, a := Way(it, p), it.items[p[0]];
    if a.Module? {
      var i := FindModule(it.items, v[0], 0).value;
      assert i == p[0] && p == [i];
    } else {
      assert v[1..] == Way(a, p[1..]);
      var i := FindGraph(it.items, v[0], 0).value;
      assert i == p[0];
      FollowWay(a, p[1..]);
      assert [p[0]] + p[1..] == p;
    }
  }

  /** GetNodeByName for a name with a graph prefix. */
  function ByFullName(it: Item, v: seq<string>): Option<Path>
    requires it.Graph? && |v| > 1
  {
    if v[0] != it.name then None else Follow(it, v[1..])
  }

  /** UNINode::GetName */
  function NodeName(it: Item, p: Path): string
    requires IsNode(it, p)
  {
    if it.Module? then it.name else NodeName(it.items[p[0]], p[1..])
  }

  predicate Named(it: Item, p: Path, name: string) {
    IsNode(it, p) && NodeName(it, p) == name
  }

  /** `p` is the first of the nodes that has that name. */
  ghost predicate FirstNamed(it: Item, nodes: seq<Path>, p: Path, name: string) {
    exists k ::
      && 0 <= k < |nodes| && nodes[k] == p && Named(it, p, name)
      && forall j :: 0 <= j < k ==> !Named(it, nodes[j], name)
  }

  /** GetNodeByName.  A name without a slash is searched for in all the modules, in the order of traversal. */
  method GetNodeByName(it: Item, name: string) returns (r: Option<Path>)
    requires it.Graph? && WellFormed(it) && (|Split(name)| == 1 ==> Solid(it))
    ensures |Split(name)| > 1 ==> r == ByFullName(it, Split(name))
    ensures |Split(name)| == 1 ==>
              match r
              case None => forall p :: IsNode(it, p) ==> !Named(it, p, name)
              case Some(p) => FirstNamed(it, All(it), p, name)
  {
    var v := SplitName(name);
    JoinPieces("", name);
    assert "" + name == name;
    if |v| == 1 {
      assert v[0] == name;
      var nodes := AllNodes(it);
      for i := 0 to |nodes|
        invariant forall k :: 0 <= k < i ==> !Named(it, nodes[k], name)
      {
        assert nodes[i] in nodes;
        if NodeName(it, nodes[i]) == v[0] {
          assert FirstNamed(it, nodes, nodes[i], name);
          return Some(nodes[i]);
        }
      }
      return None;
    }
    if v[0] != it.name { return None; }
    var graph, path: Path := it, [];
    PrependTwice([], [], Follow(it, v[1..]));
    for i := 1 to |v| - 1
      invariant graph.Graph?
      invariant ByFullName(it, v) == Prepend(path, Follow(graph, v[i..]))
    {
      assert v[i..][1..] == v[i + 1..];
      var j := FindGraph(graph.items, v[i], 0);
      if j.None? { return None; }
      PrependTwice(path, [j.value], Follow(graph.items[j.value], v[i + 1..]));
      graph, path := graph.items[j.value], path + [j.value];
    }
    var j := FindModule(graph.items, v[|v| - 1], 0);
    r := if j.None? then None else Some(path + [j.value]);
  }

  // ----- Which names find which nodes -----

  lemma {:induction false} PiecesAreSlashFree(t: string, s: string)
    requires SlashFree(t)
    ensures forall i :: 0 <= i < |Pieces(t, s)| ==> SlashFree(Pieces(t, s)[i])
    decreases |s|
  {
    if s != "" {
      if s[0] == SLASH { PiecesAreSlashFree("", s[1..]); } else { PiecesAreSlashFree(t + [s[0]], s[1..]); }
    }
  }

  lemma {:induction false} FollowIsWay(it: Item, v: seq<string>)
    requires it.Graph? && v != [] && Follow(it, v).Some?
    ensures Way(it, Follow(it, v).value) == v
    decreases it
  {
    var p := Follow(it, v).value;
    if |v| > 1 {
      var i := FindGraph(it.items, v[0], 0).value;
      assert p[0] == i && p[1..] == Follow(it.items[i], v[1..]).value;
      FollowIsWay(it.items[i], v[1..]);
      assert v == [v[0]] + v[1..];
    }
  }

  /** The name of a node is the last of the names on the way to it. */
  lemma {:induction false} NodeNameIsLast(it: Item, p: Path)
    requires it.Graph? && IsNode(it, p)
    ensures NodeName(it, p) == Way(it, p)[|p| - 1]
    decreases it
  {
    var a := it.items[p[0]];
    if a.Graph? { NodeNameIsLast(a, p[1..]); }
  }

  /** A name with a slash finds a node exactly if it is the root's name, which has no slash, and after it the names
      on the way to the node; so the name of any other graph in front finds nothing. */
  lemma ByFullNameIff(it: Item, name: string, p: Path)
    requires it.Graph? && WellNamed(it) && |Split(name)| > 1
    ensures ByFullName(it, Split(name)) == Some(p) <==>
              IsNode(it, p) && SlashFree(it.name) && name == it.name + "/" + Join(Way(it, p))
  {
    var v := Split(name);
    JoinPieces("", name);
    assert "" + name == name == v[0] + "/" + Join(v[1..]);
    PiecesAreSlashFree("", name);
    if ByFullName(it, v) == Some(p) { FollowIsWay(it, v[1..]); }
    if IsNode(it, p) && SlashFree(it.name) && name == it.name + "/" + Join(Way(it, p)) {
      PiecesOf("", it.name, Join(Way(it, p)));
      assert "" + it.name == it.name;
      WayIsSlashFree(it, p);
      SplitJoin(Way(it, p));
      assert v == [it.name] + Way(it, p);
      FollowWay(it, p);
    }
  }

  // ----- Names round-trip -----

  /** Looking a node up by its full name finds that node exactly if the root's name has no slash, and is
      not empty unless the node is in the root itself. */
  lemma NamesRoundTrip(it: Item, p: Path)
    requires it.Graph? && IsNode(it, p) && WellNamed(it)
    ensures var v := Split(FullName("", it, p));
            |v| > 1 && (ByFullName(it, v) == Some(p) <==> SlashFree(it.name) && (it.name != "" || |p| == 1))
  {
    WayIsSlashFree(it, p);
    if it.name != "" || |p| == 1 {
      FullNameIs("", it, p);
      var w := Join(Way(it, p));
      if SlashFree(it.name) {
        PiecesOf("", it.name, w);
        SplitJoin(Way(it, p));
        assert "" + it.name == it.name;
        FollowWay(it, p);
      } else {
        SlashInside(it.name, w);
      }
    } else {
      NamelessRoot(it, p);
    }
  }

  lemma {:induction false} FirstSlash(name: string) returns (i: nat)
    requires !SlashFree(name)
    ensures i < |name| && name[i] == SLASH && SlashFree(name[..i])
  {
    i := 0;
    while name[i] != SLASH
      invariant i < |name| && SlashFree(name[..i]) && SLASH in name[i..]
      decreases |name| - i
    {
      assert name[i..] == [name[i]] + name[i + 1..];
      assert name[..i + 1] == name[..i] + [name[i]];
      i := i + 1;
    }
  }

  /** A root name with a slash is torn apart. */
  lemma SlashInside(name: string, w: string)
    requires !SlashFree(name)
    ensures var v := Split(name + "/" + w); |v| > 1 && v[0] != name
  {
    var i := FirstSlash(name);
    var a, rest := name[..i], name[i + 1..] + "/" + w;
    PiecesOf("", a, rest);
    assert name == a + "/" + name[i + 1..];
    assert name + "/" + w == a + "/" + rest;
    assert "" + a == a;
    hide Pieces;
  }

  /** Without a root name the full name of a node further down has too few pieces. */
  lemma {:induction false} NamelessPieces(it: Item, p: Path)
    requires it.Graph? && IsNode(it, p) && WellNamed(it) && it.name == ""
    ensures var v := Split(FullName("", it, p));
            |v| > 1 && (v[0] == "" ==> |v| - 1 <= |p| && (|p| > 1 ==> |v| - 1 < |p|))
    decreases it
  {
    var a := it.items[p[0]];
    if a.Module? {
      WayIsSlashFree(it, p);
      FullNameIs("", it, p);
      PiecesOf("", "", Join(Way(it, p)));
      SplitJoin(Way(it, p));
    } else if a.name == "" {
      NamelessPieces(a, p[1..]);
    } else {
      FullNameIs("", a, p[1..]);
      PiecesOf("", a.name, Join(Way(a, p[1..])));
      assert "" + a.name == a.name;
    }
  }

  lemma NamelessRoot(it: Item, p: Path)
    requires it.Graph? && IsNode(it, p) && WellNamed(it) && it.name == "" && |p| > 1
    ensures var v := Split(FullName("", it, p)); |v| > 1 && ByFullName(it, v) != Some(p)
  {
    NamelessPieces(it, p);
    hide FullName;
    hide Split;
  }

  /** Nodes of a graph whose name is neither empty nor torn by slashes have different full names. */
  lemma FullNamesDiffer(it: Item, p: Path, q: Path)
    requires it.Graph? && IsNode(it, p) && IsNode(it, q) && WellNamed(it) && SlashFree(it.name) && it.name != ""
    requires FullName("", it, p) == FullName("", it, q)
    ensures p == q
  {
    NamesRoundTrip(it, p);
    NamesRoundTrip(it, q);
  }

  // ----- Where UNINode::DFSBegin starts -----

  /** The path that DFSBeginFrom steps down when given a full name: it cuts off the graph's name and a slash,
      and looks the next piece up.  None where the look-up has no result to start from. */
  function StartOf(it: Item, name: string): (r: Option<Path>)
    requires it.Graph?
    ensures r.Some? ==> IsNode(it, r.value)
    decreases it
  {
    if |name| < |it.name| + 1 then None
    else
      var rest := name[|it.name| + 1..];
      var v := Split(rest);
      if |v| == 1 then
        match FindModule(it.items, rest, 0)
        case None => None
        case Some(i) => Some([i])
      else
        match FindGraph(it.items, v[0], 0)
        case None => None
        case Some(i) =>
          var r := Prepend([i], StartOf(it.items[i], rest));
          assert r.Some? ==> r.value[1..] == StartOf(it.items[i], rest).value;
          r
  }

  /** DFSBegin of a node starts at that node, whatever the root's name, unless it is empty. */
  lemma {:induction false} StartsAtNode(it: Item, p: Path)
    requires it.Graph? && IsNode(it, p) && WellNamed(it)
    ensures StartOf(it, it.name + "/" + Join(Way(it, p))) == Some(p)
    decreases it
  {
    var a, w := it.items[p[0]], Join(Way(it, p));
    var name := it.name + "/" + w;
    assert name[|it.name| + 1..] == w;
    WayIsSlashFree(it, p);
    SplitJoin(Way(it, p));
    if a.Module? {
      assert p[1..] == [];
      var i := FindModule(it.items, a.name, 0).value;
      assert i == p[0] && p == [i];
    } else {
      var i := FindGraph(it.items, a.name, 0).value;
      assert i == p[0];
      assert Way(it, p)[1..] == Way(a, p[1..]);
      assert w == a.name + "/" + Join(Way(a, p[1..]));
      StartsAtNode(a, p[1..]);
      assert [p[0]] + p[1..] == p;
    }
  }

  /** A name from which the look-up starts at `p` goes on, after the graph's name, with the way to `p`. */
  lemma {:induction false} StartNeedsWay(it: Item, name: string, p: Path)
    requires it.Graph? && IsNode(it, p) && StartOf(it, name) == Some(p)
    ensures |name| == |it.name| + 1 + |Join(Way(it, p))|
    decreases it
  {
    var rest := name[|it.name| + 1..];
    var v := Split(rest);
    JoinPieces("", rest);
    JoinWay(it, p);
    if |v| == 1 {
      assert it.items[p[0]].Module?;
    } else {
      var i := FindGraph(it.items, v[0], 0).value;
      assert p[0] == i && p[1..] == StartOf(it.items[i], rest).value;
      StartNeedsWay(it.items[i], rest, p[1..]);
    }
  }

  /** Without a root name, the full name of a node further down is too short for that. */
  lemma {:induction false} NamelessIsShort(it: Item, p: Path)
    requires it.Graph? && IsNode(it, p) && it.name == ""
    ensures |FullName("", it, p)| <= |Join(Way(it, p))| + if |p| > 1 then 0 else 1
    decreases it
  {
    var a := it.items[p[0]];
    JoinWay(it, p);
    if a.Graph? {
      if a.name == "" { NamelessIsShort(a, p[1..]); } else { FullNameIs("", a, p[1..]); }
    }
  }

  /** DFSBegin of a node, which goes by its full name, starts at that node exactly if the root's name is not
      empty or the node is in the root itself. */
  lemma DfsBeginStartsAtNode(it: Item, p: Path)
    requires it.Graph? && IsNode(it, p) && WellNamed(it)
    ensures StartOf(it, FullName("", it, p)) == Some(p) <==> it.name != "" || |p| == 1
  {
    if it.name != "" || |p| == 1 {
      FullNameIs("", it, p);
      StartsAtNode(it, p);
    } else {
      NamelessIsShort(it, p);
      if StartOf(it, FullName("", it, p)) == Some(p) { StartNeedsWay(it, FullName("", it, p), p); }
    }
  }

  /** The nodes from which iterating begins by name: with a root that has no name, those in the root only. */
  predicate Findable(it: Item, p: Path) {
    it.name != "" || |p| == 1
  }

  /** The loop from `node->DFSBegin()`, which looks the node up by its full name, to `node->DFSEnd()`. */
  method NodesFromNamed(it: Item, p: Path) returns (out: seq<Path>)
    requires it.Graph? && WellFormed(it) && IsNode(it, p) && PassableFrom(it, p) && WellNamed(it) && Findable(it, p)
    ensures out != [] && out[0] == p && Distinct(out)
    ensures forall q :: q in out <==> IsNode(it, q) && Below(it, p, q)
    ensures Bridged(it) ==> forall q :: q in out <==> FlatReach(it, p, q)
  {
    DfsBeginStartsAtNode(it, p);
    var start := StartOf(it, FullName("", it, p));
    out := NodesFrom(it, start.value);
  }
}
