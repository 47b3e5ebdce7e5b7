/** `UNIGraph::Init`: building a graph, and its subgraphs from their files. */
module GraphBuilds {
  import opened Sequences
  import opened Options
  import opened Digraphs
  import opened Dag
  import opened NestedGraphs
  import opened GraphIterators
  import opened Names

  datatype ModuleConfig = ModuleConfig(name: string, next: set<string>)
  datatype SubgraphConfig = SubgraphConfig(name: string, file: nat, next: set<string>)
  datatype GraphConfig = GraphConfig(modules: seq<ModuleConfig>, subgraphs: seq<SubgraphConfig>)

  /** The files that exist, by their real paths, and what they parse to, if anything. */
  type Files = map<nat, Option<GraphConfig>>

  const PREFIX := "subgraph:"
  const COLON: char := ':'

  predicate IsSubgraphItem(name: string) { PREFIX < name }

  /** The name without the prefix that marks subgraphs. */
  function Bare(name: string): string { if IsSubgraphItem(name) then name[|PREFIX|..] else name }

  predicate IsNodeNameValid(name: string) { SLASH !in Bare(name) && COLON !in Bare(name) }

  /** Parsing puts the items with the prefix among the subgraphs. */
  predicate Parsed(c: GraphConfig) {
    forall i :: 0 <= i < |c.modules| ==> !IsSubgraphItem(c.modules[i].name)
  }

  ghost predicate AllParsed(files: Files) {
    forall f :: f in files && files[f].Some? ==> Parsed(files[f].value)
  }

  // ----- What a graph must be to come from a configuration -----

  function VertexNames(c: GraphConfig): seq<string> {
    seq(|c.modules| + |c.subgraphs|,
        i requires 0 <= i < |c.modules| + |c.subgraphs| =>
          if i < |c.modules| then c.modules[i].name else c.subgraphs[i - |c.modules|].name)
  }

  function NextNames(c: GraphConfig, i: nat): set<string>
    requires i < |c.modules| + |c.subgraphs|
  {
    if i < |c.modules| then c.modules[i].next else c.subgraphs[i - |c.modules|].next
  }

  /** The vertex of subgraph `k`, which comes after those of the modules. */
  function SubItem(c: GraphConfig, items: seq<Item>, k: nat): Item
    requires |c.modules| + k < |items|
  {
    items[|c.modules| + k]
  }

  /** The configuration of vertex `i` names vertex `j` as a successor. */
  predicate NamesNext(c: GraphConfig, i: nat, j: nat)
    requires i < |c.modules| + |c.subgraphs|
  {
    j < |VertexNames(c)| && VertexNames(c)[j] in NextNames(c, i)
  }

  ghost predicate Opens(files: Files, f: nat) { f in files && files[f].Some? }

  /** The first `n` vertex names are valid, prefixed where they should be, and different. */
  ghost predicate NamesTaken(c: GraphConfig, n: nat) {
    && n <= |c.modules| + |c.subgraphs|
    && (forall i :: 0 <= i < n ==>
          IsNodeNameValid(VertexNames(c)[i]) && (IsSubgraphItem(VertexNames(c)[i]) <==> i >= |c.modules|))
    && (forall i, j :: 0 <= i < j < n ==> VertexNames(c)[i] != VertexNames(c)[j])
  }

  /** The edges are those that the configuration names. */
  ghost predicate EdgesByName(c: GraphConfig, it: Item) {
    && it.Graph? && |it.edges| == |it.items| == |c.modules| + |c.subgraphs|
    && (forall i: nat, j: nat :: i < |it.edges| ==> (j in it.edges[i] <==> NamesNext(c, i, j)))
    && (forall i: nat, n :: i < |it.edges| && n in NextNames(c, i) ==> n in VertexNames(c))
  }

  /** The names in `c` are valid and unique and all resolve; `it` has the modules, subgraphs and edges of `c`,
      and each subgraph those of its file. */
  ghost predicate Mirrors(files: Files, c: GraphConfig, it: Item)
    decreases it, 0
  {
    && NamesTaken(c, |c.modules| + |c.subgraphs|) && EdgesByName(c, it)
    && (forall i :: 0 <= i < |c.modules| ==> it.items[i] == Module(c.modules[i].name))
    && (forall k: nat :: k < |c.subgraphs| ==> MirrorsFile(files, c.subgraphs[k], SubItem(c, it.items, k)))
  }

  ghost predicate MirrorsFile(files: Files, s: SubgraphConfig, sub: Item)
    decreases sub, 1
  {
    sub.Graph? && sub.name == Bare(s.name) && Opens(files, s.file) && Mirrors(files, files[s.file].value, sub)
  }

  // ----- Containment of files -----

  predicate Contains(c: GraphConfig, f: nat) {
    exists k :: 0 <= k < |c.subgraphs| && c.subgraphs[k].file == f
  }

  /** Files each of which is named as a subgraph in the one before it, the first one in `c`. */
  ghost predicate Chain(files: Files, c: GraphConfig, fs: seq<nat>)
    decreases |fs|
  {
    fs != [] ==>
      Contains(c, fs[0]) && Opens(files, fs[0]) && Chain(files, files[fs[0]].value, fs[1..])
  }

  function Height(it: Item): nat {
    if it.Module? then 0 else 1 + Tallest(it.items)
  }

  function Tallest(items: seq<Item>): nat {
    if items == [] then 0
    else
      var a, b := Height(items[0]), Tallest(items[1..]);
      if a < b then b else a
  }

  lemma {:induction false} TallestIs(items: seq<Item>, i: nat)
    requires i < |items|
    ensures Height(items[i]) <= Tallest(items)
  {
    if i > 0 { TallestIs(items[1..], i - 1); }
  }

  lemma SameEdges(c: GraphConfig, a: Item, b: Item)
    requires EdgesByName(c, a) && EdgesByName(c, b)
    ensures a.edges == b.edges
  {
    forall i | 0 <= i < |a.edges| ensures a.edges[i] == b.edges[i] {
      forall j: nat ensures j in a.edges[i] <==> j in b.edges[i] {
        assert j in a.edges[i] <==> NamesNext(c, i, j);
      }
    }
  }

  /** A configuration determines the graph, up to its own name. */
  lemma {:induction false} MirrorsUnique(files: Files, c: GraphConfig, a: Item, b: Item)
    requires Mirrors(files, c, a) && Mirrors(files, c, b)
    ensures a.items == b.items && a.edges == b.edges
    decreases a
  {
    SameEdges(c, a, b);
    hide EdgesByName;
    assert |a.items| == |b.items| == |c.modules| + |c.subgraphs| by {
      MirrorsSize(files, c, a);
      MirrorsSize(files, c, b);
    }
    forall i | 0 <= i < |a.items| ensures a.items[i] == b.items[i] {
      if i >= |c.modules| {
        var k := i - |c.modules|;
        assert i == |c.modules| + k;
        assert MirrorsFile(files, c.subgraphs[k], a.items[i]) && MirrorsFile(files, c.subgraphs[k], b.items[i]);
        MirrorsUnique(files, files[c.subgraphs[k].file].value, a.items[i], b.items[i]);
      }
    }
  }

  lemma MirrorsSize(files: Files, c: GraphConfig, it: Item)
    requires Mirrors(files, c, it)
    ensures it.Graph? && |it.items| == |it.edges| == |c.modules| + |c.subgraphs|
  {
  }

  /** The last file of a chain is mirrored inside the graph, lower than the whole. */
  lemma {:induction false} ChainGoesDown(files: Files, c: GraphConfig, it: Item, fs: seq<nat>) returns (sub: Item)
    requires Mirrors(files, c, it) && Chain(files, c, fs) && fs != []
    ensures Opens(files, fs[|fs| - 1]) && Mirrors(files, files[fs[|fs| - 1]].value, sub) && Height(sub) < Height(it)
    decreases |fs|
  {
    var k: nat :| k < |c.subgraphs| && c.subgraphs[k].file == fs[0];
    sub := SubItem(c, it.items, k);
    assert MirrorsFile(files, c.subgraphs[k], sub);
    TallestIs(it.items, |c.modules| + k);
    if |fs| > 1 {
      sub := ChainGoesDown(files, files[fs[0]].value, sub, fs[1..]);
    }
  }

  lemma {:induction false} ChainTail(files: Files, c: GraphConfig, fs: seq<nat>, i: nat)
    requires Chain(files, c, fs) && i < |fs|
    ensures Opens(files, fs[i]) && Chain(files, files[fs[i]].value, fs[i + 1..])
    ensures Chain(files, c, fs[..i + 1])
    decreases |fs|
  {
    assert fs[..i + 1][1..] == fs[1..][..i];
    if i > 0 {
      ChainTail(files, files[fs[0]].value, fs[1..], i - 1);
      assert fs[1..][i..] == fs[i + 1..];
    }
  }

  /** No file that a successfully built graph reaches lies inside itself. */
  lemma BuiltIsLoopFree(files: Files, c: GraphConfig, it: Item, fs: seq<nat>, i: nat, j: nat)
    requires Mirrors(files, c, it) && Chain(files, c, fs) && i < j < |fs|
    ensures fs[i] != fs[j]
  {
    ChainTail(files, c, fs, i);
    var a := ChainGoesDown(files, c, it, fs[..i + 1]);
    assert fs[..i + 1][i] == fs[i];
    var rest := fs[i + 1..];
    ChainTail(files, files[fs[i]].value, rest, j - i - 1);
    var b := ChainGoesDown(files, files[fs[i]].value, a, rest[..j - i]);
    assert rest[..j - i][j - i - 1] == fs[j];
    if fs[i] == fs[j] { MirrorsUnique(files, files[fs[i]].value, a, b); }
  }

  /** How many subgraphs there are inside, at any depth. */
  function Subgraphs(it: Item): nat {
    if it.Module? then 0 else SubgraphsIn(it.items)
  }

  function SubgraphsIn(items: seq<Item>): nat {
    if items == [] then 0
    else
      var last := items[|items| - 1];
      SubgraphsIn(items[..|items| - 1]) + if last.Graph? then 1 + Subgraphs(last) else 0
  }

  lemma OneMoreSubgraph(items: seq<Item>, sub: Item)
    requires sub.Graph?
    ensures SubgraphsIn(items + [sub]) == SubgraphsIn(items) + 1 + Subgraphs(sub)
  {
    assert (items + [sub])[..|items|] == items;
  }

  lemma {:induction false} NoSubgraphs(items: seq<Item>)
    requires forall i :: 0 <= i < |items| ==> items[i].Module?
    ensures SubgraphsIn(items) == 0
  {
    if items != [] { NoSubgraphs(items[..|items| - 1]); }
  }

  // ----- The files recorded -----

  /** The first `n` subgraphs of `it` come from `c`. */
  ghost predicate Partly(files: Files, c: GraphConfig, it: Item, n: nat) {
    && it.Graph? && n <= |c.subgraphs| && |c.modules| + n <= |it.items|
    && forall k: nat :: k < n ==> MirrorsFile(files, c.subgraphs[k], SubItem(c, it.items, k))
  }

  lemma MirrorsIsPartly(files: Files, c: GraphConfig, it: Item)
    requires Mirrors(files, c, it)
    ensures Partly(files, c, it, |c.subgraphs|)
  {
    MirrorsSize(files, c, it);
  }

  /** The files that building the first `n` subgraphs records in `subgraph_paths`: every file named below
      the root, as often as it is named. */
  ghost function Recorded(files: Files, c: GraphConfig, it: Item, root: bool, n: nat): seq<nat>
    requires Partly(files, c, it, n)
    decreases it, 0, n
  {
    if n == 0 then []
    else
      Recorded(files, c, it, root, n - 1)
        + RecordedBy(files, c.subgraphs[n - 1], SubItem(c, it.items, n - 1), root)
  }

  ghost function RecordedBy(files: Files, s: SubgraphConfig, sub: Item, root: bool): seq<nat>
    requires MirrorsFile(files, s, sub)
    decreases sub, 1
  {
    var c := files[s.file].value;
    MirrorsIsPartly(files, c, sub);
    (if root then [] else [s.file]) + Recorded(files, c, sub, false, |c.subgraphs|)
  }

  /** No element twice, and none of those taken. */
  ghost predicate Fresh(s: seq<nat>, taken: set<nat>) {
    Distinct(s) && forall x :: x in s ==> x !in taken
  }

  lemma FreshConcat(a: seq<nat>, b: seq<nat>, taken: set<nat>)
    ensures Fresh(a + b, taken) <==> Fresh(a, taken) && Fresh(b, taken + Elements(a))
  {
    if Fresh(a + b, taken) {
      assert forall i :: 0 <= i < |a| ==> (a + b)[i] == a[i];
      assert forall i :: 0 <= i < |b| ==> (a + b)[|a| + i] == b[i];
      forall x | x in a ensures x !in taken { assert x in a + b; }
      forall x | x in b ensures x !in taken && x !in a { assert x in a + b; }
    }
    if Fresh(a, taken) && Fresh(b, taken + Elements(a)) { DistinctConcat(a, b); }
  }

  lemma {:induction false} FreshPart(
      files: Files, c: GraphConfig, it: Item, root: bool, n: nat, k: nat, taken: set<nat>)
    requires n <= k && Partly(files, c, it, k) && Fresh(Recorded(files, c, it, root, k), taken)
    ensures Partly(files, c, it, n) && Fresh(Recorded(files, c, it, root, n), taken)
    decreases k
  {
    if n < k {
      FreshConcat(Recorded(files, c, it, root, k - 1),
                  RecordedBy(files, c.subgraphs[k - 1], SubItem(c, it.items, k - 1), root), taken);
      FreshPart(files, c, it, root, n, k - 1, taken);
    }
  }

  /** The record depends on the subgraphs only. */
  lemma {:induction false} SameRecord(files: Files, c: GraphConfig, a: Item, b: Item, root: bool, n: nat)
    requires Partly(files, c, a, n) && Partly(files, c, b, n)
    requires forall k: nat :: k < n ==> SubItem(c, a.items, k) == SubItem(c, b.items, k)
    ensures Recorded(files, c, a, root, n) == Recorded(files, c, b, root, n)
  {
    if n > 0 {
      SameRecord(files, c, a, b, root, n - 1);
      assert SubItem(c, a.items, n - 1) == SubItem(c, b.items, n - 1);
    }
  }

  // ----- When a graph can be built -----

  /** `it` is what `c` and its files describe, without rings at any level; and below the root no file is
      used twice, or used that was taken before. */
  ghost predicate Builds(files: Files, c: GraphConfig, name: string, root: bool, taken: set<nat>, it: Item) {
    && it.Graph? && it.name == name && Mirrors(files, c, it) && WellFormed(it)
    && Partly(files, c, it, |c.subgraphs|) && Fresh(Recorded(files, c, it, root, |c.subgraphs|), taken)
  }

  ghost predicate BuildsFile(files: Files, s: SubgraphConfig, root: bool, taken: set<nat>, sub: Item) {
    MirrorsFile(files, s, sub) && WellFormed(sub) && Fresh(RecordedBy(files, s, sub, root), taken)
  }

  /** A subgraph can be built if its file is new and its graph can be built with the file taken. */
  lemma BuildsFileIs(files: Files, s: SubgraphConfig, root: bool, taken: set<nat>, sub: Item)
    requires Opens(files, s.file)
    ensures BuildsFile(files, s, root, taken, sub) <==>
              && (root || s.file !in taken)
              && Builds(files, files[s.file].value, Bare(s.name), false, if root then taken else taken + {s.file}, sub)
  {
    if MirrorsFile(files, s, sub) {
      var c := files[s.file].value;
      MirrorsIsPartly(files, c, sub);
      var own: seq<nat> := if root then [] else [s.file];
      FreshConcat(own, Recorded(files, c, sub, false, |c.subgraphs|), taken);
      assert taken + Elements(own) == if root then taken else taken + {s.file};
    }
  }

  // ----- Building -----

  /** How many files are not recorded; building below the root lowers it from level to level. */
  ghost function Unrecorded(files: Files, paths: set<nat>): nat { |files.Keys - paths| }

  lemma FewerUnrecorded(files: Files, a: set<nat>, b: set<nat>)
    requires a <= b <= files.Keys
    ensures Unrecorded(files, b) <= Unrecorded(files, a) && (a != b ==> Unrecorded(files, b) < Unrecorded(files, a))
    ensures |a| <= |b|
  {
    SubsetSize(files.Keys - b, files.Keys - a);
    SubsetSize(a, b);
    if a != b {
      var x :| x in b && x !in a;
      assert x in files.Keys - a && x !in files.Keys - b;
    }
  }

  /** The vertices made from the modules and the first `n` subgraphs. */
  ghost predicate Made(files: Files, c: GraphConfig, n: nat, items: seq<Item>) {
    && n <= |c.subgraphs| && |items| == |c.modules| + n
    && (forall i :: 0 <= i < |c.modules| ==> items[i] == Module(c.modules[i].name))
    && (forall k: nat :: k < n ==> MadeFrom(files, c.subgraphs[k], SubItem(c, items, k)))
  }

  ghost predicate MadeFrom(files: Files, s: SubgraphConfig, sub: Item) {
    MirrorsFile(files, s, sub) && WellFormed(sub)
  }

  /** A graph with these vertices, the edges of which are still open. */
  ghost function Part(items: seq<Item>): Item { Graph("", items, []) }

  /** What has been made so far, with what it recorded. */
  ghost predicate MadeSoFar(files: Files, c: GraphConfig, root: bool, taken: set<nat>, n: nat, items: seq<Item>,
                            paths: set<nat>)
  {
    && Made(files, c, n, items) && Partly(files, c, Part(items), n)
    && Fresh(Recorded(files, c, Part(items), root, n), taken)
    && paths == taken + Elements(Recorded(files, c, Part(items), root, n))
  }

  lemma MadeNone(files: Files, c: GraphConfig, root: bool, taken: set<nat>, items: seq<Item>)
    requires Made(files, c, 0, items)
    ensures MadeSoFar(files, c, root, taken, 0, items, taken)
  {
    assert taken + Elements([]) == taken;
  }

  lemma MadeOne(files: Files, c: GraphConfig, root: bool, taken: set<nat>, n: nat, items: seq<Item>, paths: set<nat>,
                sub: Item)
    requires n < |c.subgraphs| && MadeSoFar(files, c, root, taken, n, items, paths)
    requires BuildsFile(files, c.subgraphs[n], root, paths, sub)
    ensures MadeSoFar(files, c, root, taken, n + 1, items + [sub],
                      paths + Elements(RecordedBy(files, c.subgraphs[n], sub, root)))
  {
    hide Fresh;
    hide MirrorsFile;
    hide WellFormed;
    hide RecordedBy;
    var more := items + [sub];
    var a := Recorded(files, c, Part(items), root, n);
    var b := RecordedBy(files, c.subgraphs[n], sub, root);
    forall k: nat | k < n + 1 ensures MadeFrom(files, c.subgraphs[k], SubItem(c, more, k)) {
      if k < n { assert SubItem(c, more, k) == SubItem(c, items, k); }
    }
    SameRecord(files, c, Part(items), Part(more), root, n);
    FreshConcat(a, b, taken);
    assert Recorded(files, c, Part(more), root, n + 1) == a + b;
    assert taken + Elements(a) + Elements(b) == taken + Elements(a + b);
  }

  /** What could be built in the end has the vertices made so far, and its next subgraph can be built now. */
  lemma NextCanBeBuilt(files: Files, c: GraphConfig, name: string, root: bool, taken: set<nat>, n: nat,
                       items: seq<Item>, paths: set<nat>, it: Item)
    requires MadeSoFar(files, c, root, taken, n, items, paths) && Builds(files, c, name, root, taken, it)
    ensures it.items[..|items|] == items
    ensures n < |c.subgraphs| ==> BuildsFile(files, c.subgraphs[n], root, paths, SubItem(c, it.items, n))
  {
    PartOfBuilt(files, c, n, items, it);
    if n < |c.subgraphs| {
      FreshPart(files, c, it, root, n + 1, |c.subgraphs|, taken);
      SameRecord(files, c, it, Part(items), root, n);
      FreshConcat(Recorded(files, c, it, root, n),
                  RecordedBy(files, c.subgraphs[n], SubItem(c, it.items, n), root), taken);
    }
  }

  lemma PartOfBuilt(files: Files, c: GraphConfig, n: nat, items: seq<Item>, it: Item)
    requires Made(files, c, n, items) && Mirrors(files, c, it)
    ensures |items| <= |it.items| && it.items[..|items|] == items
    ensures forall k: nat :: k < n ==> SubItem(c, it.items, k) == SubItem(c, items, k)
  {
    MirrorsSize(files, c, it);
    forall i | 0 <= i < |items| ensures it.items[i] == items[i] {
      if i >= |c.modules| {
        var k := i - |c.modules|;
        assert i == |c.modules| + k;
        assert MadeFrom(files, c.subgraphs[k], items[i]) && MirrorsFile(files, c.subgraphs[k], it.items[i]);
        MirrorsUnique(files, files[c.subgraphs[k].file].value, it.items[i], items[i]);
      }
    }
  }

  /** AddVertex for the modules. */
  method AddModules(files: Files, c: GraphConfig) returns (ok: bool, items: seq<Item>)
    requires Parsed(c)
    ensures ok <==> NamesTaken(c, |c.modules|)
    ensures ok ==> Made(files, c, 0, items) && SubgraphsIn(items) == 0
  {
    items := [];
    for i := 0 to |c.modules|
      invariant |items| == i && forall k :: 0 <= k < i ==> items[k] == Module(c.modules[k].name)
      invariant NamesTaken(c, i)
    {
      var name := c.modules[i].name;
      assert VertexNames(c)[i] == name;
      if !IsNodeNameValid(name) { return false, items; }
      for k := 0 to i
        invariant forall j :: 0 <= j < k ==> VertexNames(c)[j] != name
      {
        assert VertexNames(c)[k] == c.modules[k].name;
        if c.modules[k].name == name { return false, items; }
      }
      items := items + [Module(name)];
    }
    NoSubgraphs(items);
    ok := true;
  }

  /** The part of Init and AddVertex that is about one subgraph.  It succeeds exactly if the name can be
      added and the subgraph can be built; its file is recorded only below the root. */
  method AddSubgraph(files: Files, c: GraphConfig, n: nat, root: bool, paths0: set<nat>)
    returns (ok: bool, sub: Item, paths: set<nat>, ghost calls: nat)
    requires n < |c.subgraphs| && AllParsed(files) && paths0 <= files.Keys && NamesTaken(c, |c.modules| + n)
    ensures paths0 <= paths <= files.Keys
    ensures calls <= |paths| - |paths0| + if root then 1 else 0
    ensures ok <==> NamesTaken(c, |c.modules| + n + 1) && exists x :: BuildsFile(files, c.subgraphs[n], root, paths0, x)
    ensures ok ==> BuildsFile(files, c.subgraphs[n], root, paths0, sub)
                   && paths == paths0 + Elements(RecordedBy(files, c.subgraphs[n], sub, root))
    ensures ok ==> calls == 1 + Subgraphs(sub)
    decreases Unrecorded(files, paths0), root, 0
  {
    hide NamesTaken;
    hide BuildsFile;
    hide Builds;
    hide RecordedBy;
    var s := c.subgraphs[n];
    ok, sub, paths, calls := false, Module(""), paths0, 0;
    NameRefused(c, n);
    NoFileRefused(files, s, root, paths0);
    if !IsSubgraphItem(s.name) { return; }
    if !root {
      if s.file !in files || s.file in paths { return; }
      paths := paths + {s.file};
      assert |paths| == |paths0| + 1;
      FewerUnrecorded(files, paths0, paths);
    }
    if !IsNodeNameValid(s.name) { return; }
    if s.file !in files || files[s.file].None? { return; }
    ghost var mid := paths;
    ok, sub, paths, calls := Init(files, files[s.file].value, Bare(s.name), false, paths);
    forall x ensures BuildsFile(files, s, root, paths0, x) <==>
                       Builds(files, files[s.file].value, Bare(s.name), false, mid, x)
    {
      BuildsFileIs(files, s, root, paths0, x);
    }
    if !ok { return; }
    BuiltRecord(files, s, root, paths0, sub);
    ok := NameIsFree(c, n);
  }

  /** Whether the subgraph can be inserted under its name. */
  method NameIsFree(c: GraphConfig, n: nat) returns (free: bool)
    requires n < |c.subgraphs| && NamesTaken(c, |c.modules| + n)
    requires IsSubgraphItem(c.subgraphs[n].name) && IsNodeNameValid(c.subgraphs[n].name)
    ensures free <==> NamesTaken(c, |c.modules| + n + 1)
  {
    hide NamesTaken;
    for k := 0 to n
      invariant forall j :: 0 <= j < k ==> c.subgraphs[j].name != c.subgraphs[n].name
    {
      if c.subgraphs[k].name == c.subgraphs[n].name {
        NameIsTaken(c, k, n);
        return false;
      }
    }
    OneMoreName(c, n);
    free := true;
  }

  lemma NameRefused(c: GraphConfig, n: nat)
    requires n < |c.subgraphs|
    ensures !IsSubgraphItem(c.subgraphs[n].name) || !IsNodeNameValid(c.subgraphs[n].name) ==>
              !NamesTaken(c, |c.modules| + n + 1)
  {
    assert VertexNames(c)[|c.modules| + n] == c.subgraphs[n].name;
  }

  lemma NoFileRefused(files: Files, s: SubgraphConfig, root: bool, taken: set<nat>)
    ensures !Opens(files, s.file) || (!root && s.file in taken) ==> forall x :: !BuildsFile(files, s, root, taken, x)
  {
    if Opens(files, s.file) && !root && s.file in taken { TakenCannotBeBuilt(files, s, taken); }
  }

  /** A subgraph's record is its file, below the root, and what its graph records. */
  lemma BuiltRecord(files: Files, s: SubgraphConfig, root: bool, taken: set<nat>, sub: Item)
    requires BuildsFile(files, s, root, taken, sub)
    ensures var c := files[s.file].value;
            && Opens(files, s.file) && Partly(files, c, sub, |c.subgraphs|)
            && taken + Elements(RecordedBy(files, s, sub, root))
               == (if root then taken else taken + {s.file}) + Elements(Recorded(files, c, sub, false, |c.subgraphs|))
  {
    var c := files[s.file].value;
    MirrorsIsPartly(files, c, sub);
    hide Fresh;
    hide WellFormed;
    hide Mirrors;
    var own: seq<nat> := if root then [] else [s.file];
    assert Elements(own + Recorded(files, c, sub, false, |c.subgraphs|))
        == Elements(own) + Elements(Recorded(files, c, sub, false, |c.subgraphs|));
  }

  lemma TakenCannotBeBuilt(files: Files, s: SubgraphConfig, taken: set<nat>)
    requires s.file in taken
    ensures forall x :: !BuildsFile(files, s, false, taken, x)
  {
    forall x | BuildsFile(files, s, false, taken, x) ensures false { BuildsFileIs(files, s, false, taken, x); }
  }

  lemma NameIsTaken(c: GraphConfig, k: nat, n: nat)
    requires k < n < |c.subgraphs| && c.subgraphs[k].name == c.subgraphs[n].name
    ensures !NamesTaken(c, |c.modules| + n + 1)
  {
    var v, m := VertexNames(c), |c.modules|;
    assert v[m + k] == v[m + n];
  }

  lemma OneMoreName(c: GraphConfig, n: nat)
    requires n < |c.subgraphs| && NamesTaken(c, |c.modules| + n)
    requires IsSubgraphItem(c.subgraphs[n].name) && IsNodeNameValid(c.subgraphs[n].name)
    requires forall j :: 0 <= j < n ==> c.subgraphs[j].name != c.subgraphs[n].name
    ensures NamesTaken(c, |c.modules| + n + 1)
  {
    hide IsNodeNameValid;
    hide IsSubgraphItem;
    var v, m := VertexNames(c), |c.modules| + n;
    assert v[m] == c.subgraphs[n].name;
    forall i | 0 <= i < m ensures v[i] != v[m] {
      if i >= |c.modules| { assert v[i] == c.subgraphs[i - |c.modules|].name; }
    }
  }

  /** The vertex named `name`, or the number of vertices. */
  method IndexOfName(names: seq<string>, name: string) returns (i: nat)
    ensures i <= |names| && (i < |names| ==> names[i] == name) && (i == |names| ==> name !in names)
  {
    i := 0;
    while i < |names| && names[i] != name
      invariant i <= |names| && name !in names[..i]
    {
      assert names[..i + 1] == names[..i] + [names[i]];
      i := i + 1;
    }
    assert names[..|names|] == names;
  }

  /** The successors that `next` names, if all its names are those of vertices. */
  method Successors(names: seq<string>, next: set<string>) returns (ok: bool, out: set<nat>)
    requires Distinct(names)
    ensures ok <==> forall n :: n in next ==> n in names
    ensures ok ==> forall j: nat :: j in out <==> j < |names| && names[j] in next
  {
    out := {};
    var rest := next;
    while rest != {}
      invariant rest <= next
      invariant forall j: nat :: j in out <==> j < |names| && names[j] in next - rest
      invariant forall n :: n in next - rest ==> n in names
      decreases rest
    {
      var n :| n in rest;
      var i := IndexOfName(names, n);
      if i == |names| { return false, out; }
      out := out + {i};
      rest := rest - {n};
    }
    ok := true;
  }

  ghost predicate EdgesNamed(c: GraphConfig, edges: seq<set<nat>>, n: nat)
    requires n <= |c.modules| + |c.subgraphs|
  {
    && |edges| == n
    && (forall i: nat, j: nat :: i < n ==> (j in edges[i] <==> NamesNext(c, i, j)))
    && (forall i: nat, m :: i < n && m in NextNames(c, i) ==> m in VertexNames(c))
  }

  /** Every name under `next` is that of a vertex. */
  ghost predicate Resolves(c: GraphConfig) {
    forall i: nat, m :: i < |c.modules| + |c.subgraphs| && m in NextNames(c, i) ==> m in VertexNames(c)
  }

  /** InitEdges */
  method InitEdges(c: GraphConfig) returns (ok: bool, edges: seq<set<nat>>)
    requires NamesTaken(c, |c.modules| + |c.subgraphs|)
    ensures ok <==> Resolves(c)
    ensures ok ==> EdgesNamed(c, edges, |c.modules| + |c.subgraphs|) && InRange(edges)
  {
    edges := [];
    var names := VertexNames(c);
    for i := 0 to |names|
      invariant EdgesNamed(c, edges, i)
    {
      var found, out := Successors(names, NextNames(c, i));
      if !found { return false, edges; }
      edges := edges + [out];
    }
    forall u: nat, v: nat | u < |edges| && v in edges[u] ensures v < |edges| { assert NamesNext(c, u, v); }
    ok := true;
  }

  lemma BareIsInjective(a: string, b: string)
    requires a != b && (IsSubgraphItem(a) <==> IsSubgraphItem(b))
    ensures Bare(a) != Bare(b)
  {
    if IsSubgraphItem(a) {
      assert a == PREFIX + a[|PREFIX|..] && b == PREFIX + b[|PREFIX|..];
    }
  }

  /** What a configuration describes is well named. */
  lemma {:induction false} MirrorsIsWellNamed(files: Files, c: GraphConfig, it: Item)
    requires Mirrors(files, c, it)
    ensures WellNamed(it)
    decreases it
  {
    MirrorsSize(files, c, it);
    forall i: nat | i < |it.items|
      ensures it.items[i].name == Bare(VertexNames(c)[i]) && SlashFree(it.items[i].name) && WellNamed(it.items[i])
      ensures it.items[i].Module? <==> i < |c.modules|
    {
      VertexMirrors(files, c, it, i);
      if i >= |c.modules| { MirrorsIsWellNamed(files, files[c.subgraphs[i - |c.modules|].file].value, it.items[i]); }
    }
    hide Bare;
    hide VertexNames;
    hide EdgesByName;
    hide IsNodeNameValid;
    hide IsSubgraphItem;
    forall i, j | 0 <= i < j < |it.items| && it.items[i].Module? == it.items[j].Module?
      ensures it.items[i].name != it.items[j].name
    {
      BareIsInjective(VertexNames(c)[i], VertexNames(c)[j]);
    }
  }

  lemma VertexMirrors(files: Files, c: GraphConfig, it: Item, i: nat)
    requires Mirrors(files, c, it) && it.Graph? && i < |it.items|
    ensures i < |VertexNames(c)| && it.items[i].name == Bare(VertexNames(c)[i]) && SlashFree(it.items[i].name)
    ensures it.items[i].Module? <==> i < |c.modules|
    ensures i >= |c.modules| ==>
              i - |c.modules| < |c.subgraphs| && MirrorsFile(files, c.subgraphs[i - |c.modules|], it.items[i])
  {
    if i >= |c.modules| {
      var k := i - |c.modules|;
      assert i == |c.modules| + k && MirrorsFile(files, c.subgraphs[k], it.items[i]);
    }
  }

  /** The end of Init: edges by name, and the check for rings. */
  method Finish(files: Files, c: GraphConfig, name: string, items: seq<Item>) returns (ok: bool, it: Item)
    requires Made(files, c, |c.subgraphs|, items) && NamesTaken(c, |c.modules| + |c.subgraphs|)
    ensures ok ==> it.Graph? && it.name == name && it.items == items && Mirrors(files, c, it) && WellFormed(it)
    ensures !ok ==> forall x :: Mirrors(files, c, x) ==> !WellFormed(x)
  {
    ok, it := false, Module("");
    var linked, edges := InitEdges(c);
    if !linked { return; }
    var dag := BuildDag(edges);
    var sorted, unsorted := dag.TopoSort();
    it := Graph(name, items, edges);
    assert EdgesByName(c, it);
    if unsorted != [] {
      RingCannotBeBuilt(files, c, it);
      return;
    }
    MadeIsBuilt(files, c, items, it);
    ok := true;
  }

  lemma RingCannotBeBuilt(files: Files, c: GraphConfig, it: Item)
    requires EdgesByName(c, it) && !Acyclic(it.edges)
    ensures forall x :: Mirrors(files, c, x) ==> !WellFormed(x)
  {
    forall x | Mirrors(files, c, x) ensures !WellFormed(x) { SameEdges(c, x, it); }
  }

  lemma MadeIsBuilt(files: Files, c: GraphConfig, items: seq<Item>, it: Item)
    requires Made(files, c, |c.subgraphs|, items) && NamesTaken(c, |c.modules| + |c.subgraphs|)
    requires it.Graph? && it.items == items && EdgesByName(c, it) && InRange(it.edges) && Acyclic(it.edges)
    ensures Mirrors(files, c, it) && WellFormed(it)
  {
    hide EdgesByName;
    hide NamesTaken;
    hide Acyclic;
    hide InRange;
    assert |it.edges| == |it.items| == |c.modules| + |c.subgraphs| by { EdgesSize(c, it); }
    forall k: nat | k < |c.subgraphs| ensures MadeFrom(files, c.subgraphs[k], SubItem(c, it.items, k)) { }
    forall i | 0 <= i < |items| ensures WellFormed(items[i]) {
      if i >= |c.modules| { assert MadeFrom(files, c.subgraphs[i - |c.modules|], SubItem(c, items, i - |c.modules|)); }
    }
  }

  lemma EdgesSize(c: GraphConfig, it: Item)
    requires EdgesByName(c, it)
    ensures |it.edges| == |it.items| == |c.modules| + |c.subgraphs|
  {
  }

  /** UNIGraph::Init.  It succeeds exactly if there is a graph to build: names valid and unique, every next
      name that of a vertex, no ring, every file there, at every level, and below the root no file used
      twice or recorded already.  `paths` is `subgraph_paths`; `calls` counts the calls of Init. */
  method Init(files: Files, c: GraphConfig, name: string, root: bool, paths0: set<nat>)
    returns (ok: bool, it: Item, paths: set<nat>, ghost calls: nat)
    requires Parsed(c) && AllParsed(files) && paths0 <= files.Keys
    ensures paths0 <= paths <= files.Keys
    ensures calls <= 1 + |paths| - |paths0| + if root then |c.subgraphs| else 0
    ensures ok <==> exists x :: Builds(files, c, name, root, paths0, x)
    ensures ok ==> Builds(files, c, name, root, paths0, it)
                   && paths == paths0 + Elements(Recorded(files, c, it, root, |c.subgraphs|))
    ensures ok ==> calls == 1 + Subgraphs(it)
    decreases Unrecorded(files, paths0), root, 3
  {
    hide Builds;
    hide Made;
    hide MadeSoFar;
    hide NamesTaken;
    ok, it, paths, calls := false, Module(""), paths0, 1;
    var made, items := AddModules(files, c);
    if !made {
      NotBuiltWithoutNames(files, c, name, root, paths0, |c.modules|);
      return;
    }
    ghost var calls1;
    made, items, paths, calls1 := AddSubgraphs(files, c, name, root, paths0, items);
    calls := calls + calls1;
    if !made { return; }
    AllMade(files, c, root, paths0, items, paths);
    ok, it := Finish(files, c, name, items);
    if ok {
      FinishedBuilds(files, c, root, paths0, items, paths, it);
    } else {
      NotBuiltWithRing(files, c, name, root, paths0);
    }
  }

  /** The loop of Init over the subgraphs. */
  method AddSubgraphs(
      files: Files, c: GraphConfig, ghost name: string, root: bool, paths0: set<nat>, modules: seq<Item>)
    returns (ok: bool, items: seq<Item>, paths: set<nat>, ghost calls: nat)
    requires AllParsed(files) && paths0 <= files.Keys && Made(files, c, 0, modules)
    requires NamesTaken(c, |c.modules|) && SubgraphsIn(modules) == 0
    ensures paths0 <= paths <= files.Keys
    ensures calls <= |paths| - |paths0| + if root then |c.subgraphs| else 0
    ensures ok ==> MadeSoFar(files, c, root, paths0, |c.subgraphs|, items, paths)
                   && NamesTaken(c, |c.modules| + |c.subgraphs|) && calls == SubgraphsIn(items)
    ensures !ok ==> forall x :: !Builds(files, c, name, root, paths0, x)
    decreases Unrecorded(files, paths0), root, 2
  {
    hide AllParsed;
    hide Builds;
    hide NamesTaken;
    hide MadeSoFar;
    hide Made;
    hide SubgraphsIn;
    hide Unrecorded;
    MadeNone(files, c, root, paths0, modules);
    ok, items, paths, calls := false, modules, paths0, 0;
    for n := 0 to |c.subgraphs|
      invariant paths0 <= paths <= files.Keys
      invariant calls <= |paths| - |paths0| + if root then n else 0
      invariant MadeSoFar(files, c, root, paths0, n, items, paths) && NamesTaken(c, |c.modules| + n)
      invariant calls == SubgraphsIn(items)
    {
      FewerUnrecorded(files, paths0, paths);
      ghost var calls1;
      ok, items, paths, calls1 := AddNext(files, c, name, root, paths0, n, items, paths);
      calls := calls + calls1;
      if !ok { return; }
    }
    ok := true;
  }

  /** One turn of that loop. */
  method AddNext(files: Files, c: GraphConfig, ghost name: string, root: bool, ghost taken: set<nat>, n: nat,
                 items0: seq<Item>, paths0: set<nat>)
    returns (ok: bool, items: seq<Item>, paths: set<nat>, ghost calls: nat)
    requires n < |c.subgraphs| && AllParsed(files) && paths0 <= files.Keys
    requires MadeSoFar(files, c, root, taken, n, items0, paths0) && NamesTaken(c, |c.modules| + n)
    ensures paths0 <= paths <= files.Keys
    ensures calls <= |paths| - |paths0| + if root then 1 else 0
    ensures ok ==> MadeSoFar(files, c, root, taken, n + 1, items, paths) && NamesTaken(c, |c.modules| + n + 1)
                   && SubgraphsIn(items) == SubgraphsIn(items0) + calls
    ensures !ok ==> forall x :: !Builds(files, c, name, root, taken, x)
    decreases Unrecorded(files, paths0), root, 1
  {
    hide Builds;
    hide RecordedBy;
    hide NamesTaken;
    hide MadeSoFar;
    items := items0;
    var sub;
    ok, sub, paths, calls := AddSubgraph(files, c, n, root, paths0);
    if ok {
      BuiltIsGraph(files, c.subgraphs[n], root, paths0, sub);
      hide BuildsFile;
      MadeOne(files, c, root, taken, n, items, paths0, sub);
      OneMoreSubgraph(items, sub);
      items := items + [sub];
    } else {
      NotBuiltWithoutNext(files, c, name, root, taken, n, items, paths0);
    }
  }

  lemma BuiltIsGraph(files: Files, s: SubgraphConfig, root: bool, taken: set<nat>, sub: Item)
    requires BuildsFile(files, s, root, taken, sub)
    ensures sub.Graph?
  {
  }

  lemma NotBuiltWithoutNames(files: Files, c: GraphConfig, name: string, root: bool, taken: set<nat>, n: nat)
    requires n <= |c.modules| + |c.subgraphs| && !NamesTaken(c, n)
    ensures forall x :: !Builds(files, c, name, root, taken, x)
  {
  }

  lemma NotBuiltWithoutNext(files: Files, c: GraphConfig, name: string, root: bool, taken: set<nat>, n: nat,
                            items: seq<Item>, paths: set<nat>)
    requires n < |c.subgraphs| && MadeSoFar(files, c, root, taken, n, items, paths)
    requires NamesTaken(c, |c.modules| + n + 1) ==> forall x :: !BuildsFile(files, c.subgraphs[n], root, paths, x)
    ensures forall x :: !Builds(files, c, name, root, taken, x)
  {
    if !NamesTaken(c, |c.modules| + n + 1) {
      NotBuiltWithoutNames(files, c, name, root, taken, |c.modules| + n + 1);
    } else {
      forall x | Builds(files, c, name, root, taken, x) ensures false {
        NextCanBeBuilt(files, c, name, root, taken, n, items, paths, x);
      }
    }
  }

  lemma NotBuiltWithRing(files: Files, c: GraphConfig, name: string, root: bool, taken: set<nat>)
    requires forall x :: Mirrors(files, c, x) ==> !WellFormed(x)
    ensures forall x :: !Builds(files, c, name, root, taken, x)
  {
  }

  lemma AllMade(files: Files, c: GraphConfig, root: bool, taken: set<nat>, items: seq<Item>, paths: set<nat>)
    requires MadeSoFar(files, c, root, taken, |c.subgraphs|, items, paths)
    ensures Made(files, c, |c.subgraphs|, items)
  {
  }

  lemma FinishedBuilds(files: Files, c: GraphConfig, root: bool, taken: set<nat>, items: seq<Item>, paths: set<nat>,
                       it: Item)
    requires MadeSoFar(files, c, root, taken, |c.subgraphs|, items, paths)
    requires it.Graph? && it.items == items && Mirrors(files, c, it) && WellFormed(it)
    ensures Builds(files, c, it.name, root, taken, it)
    ensures Partly(files, c, it, |c.subgraphs|)
    ensures paths == taken + Elements(Recorded(files, c, it, root, |c.subgraphs|))
    ensures Subgraphs(it) == SubgraphsIn(items)
  {
    MirrorsSize(files, c, it);
    SameRecord(files, c, it, Part(items), root, |c.subgraphs|);
  }

  /** Building the root graph. */
  method BuildRoot(files: Files, c: GraphConfig, name: string) returns (ok: bool, it: Item, ghost calls: nat)
    requires Parsed(c) && AllParsed(files)
    ensures calls <= 1 + |c.subgraphs| + |files|
    ensures ok <==> exists x :: Builds(files, c, name, true, {}, x)
    ensures ok ==> Builds(files, c, name, true, {}, it) && WellNamed(it) && calls == 1 + Subgraphs(it)
    ensures ok ==> forall fs, i: nat, j: nat :: Chain(files, c, fs) && i < j < |fs| ==> fs[i] != fs[j]
  {
    var paths: set<nat>;
    ok, it, paths, calls := Init(files, c, name, true, {});
    assert files.Keys == paths + (files.Keys - paths);
    if ok {
      MirrorsIsWellNamed(files, c, it);
      forall fs, i: nat, j: nat | Chain(files, c, fs) && i < j < |fs| ensures fs[i] != fs[j] {
        BuiltIsLoopFree(files, c, it, fs, i, j);
      }
    }
  }

  // ----- A file used twice -----

  /** The root names file 0, and file 0 names file 1 twice; nothing is circular. */
  function Diamond(): (Files, GraphConfig) {
    (map[0 := Some(GraphConfig(
           [], [SubgraphConfig("subgraph:a", 1, {}), SubgraphConfig("subgraph:b", 1, {})])),
         1 := Some(GraphConfig([], []))],
     GraphConfig([], [SubgraphConfig("subgraph:s", 0, {})]))
  }

  function DiamondGraph(): Item {
    Graph("g", [DiamondPart()], [{}])
  }

  /** What a file without modules and subgraphs describes. */
  lemma EmptyIsDescribed(files: Files, it: Item)
    requires it.Graph? && it.items == [] && it.edges == []
    ensures Mirrors(files, GraphConfig([], []), it) && WellFormed(it)
  {
    NumberedIsAcyclic(it.edges, []);
  }

  function DiamondPart(): Item { Graph("s", [Graph("a", [], []), Graph("b", [], [])], [{}, {}]) }

  lemma PrefixedName(t: string)
    requires t != "" && SlashFree(t) && COLON !in t
    ensures IsSubgraphItem(PREFIX + t) && IsNodeNameValid(PREFIX + t) && Bare(PREFIX + t) == t
  {
    assert (PREFIX + t)[|PREFIX|..] == t;
  }

  lemma DiamondNames()
    ensures var (files, c) := Diamond();
            NamesTaken(c, 1) && EdgesByName(c, DiamondGraph())
            && NamesTaken(files[0].value, 2) && EdgesByName(files[0].value, DiamondPart())
    ensures Bare("subgraph:s") == "s" && Bare("subgraph:a") == "a" && Bare("subgraph:b") == "b"
  {
    var (files, c) := Diamond();
    assert VertexNames(c) == ["subgraph:s"];
    assert VertexNames(files[0].value) == ["subgraph:a", "subgraph:b"];
    PrefixedName("s");
    PrefixedName("a");
    PrefixedName("b");
    assert PREFIX + "s" == "subgraph:s" && PREFIX + "a" == "subgraph:a" && PREFIX + "b" == "subgraph:b";
    hide IsSubgraphItem;
    hide IsNodeNameValid;
    hide Bare;
  }

  lemma DiamondPartIsDescribed()
    ensures var (files, c) := Diamond();
            Mirrors(files, files[0].value, DiamondPart()) && WellFormed(DiamondPart())
            && Recorded(files, files[0].value, DiamondPart(), false, 2) == [1, 1]
  {
    var (files, c) := Diamond();
    var s, d := DiamondPart(), files[0].value;
    DiamondNames();
    EmptyIsDescribed(files, s.items[0]);
    EmptyIsDescribed(files, s.items[1]);
    NumberedIsAcyclic(s.edges, [0, 0]);
    assert MirrorsFile(files, d.subgraphs[0], SubItem(d, s.items, 0));
    assert MirrorsFile(files, d.subgraphs[1], SubItem(d, s.items, 1));
    assert Recorded(files, d, s, false, 1) == [] + [1] + [];
  }

  lemma DiamondGraphIsDescribed()
    ensures var (files, c) := Diamond();
            Mirrors(files, c, DiamondGraph()) && WellFormed(DiamondGraph())
            && Partly(files, c, DiamondGraph(), 1) && Recorded(files, c, DiamondGraph(), true, 1) == [1, 1]
  {
    var (files, c) := Diamond();
    var it := DiamondGraph();
    DiamondNames();
    DiamondPartIsDescribed();
    NumberedIsAcyclic(it.edges, [0]);
    assert SubItem(c, it.items, 0) == DiamondPart();
    assert MirrorsFile(files, c.subgraphs[0], DiamondPart());
    assert Mirrors(files, c, it);
    MirrorsIsPartly(files, c, it);
    assert Recorded(files, c, it, true, 1) == [] + ([] + [1, 1]);
  }

  /** A graph that has everything but for a file used twice, without any loop, is refused. */
  lemma SharedFileIsRefused(name: string, x: Item)
    ensures var (files, c) := Diamond();
            && Mirrors(files, c, DiamondGraph()) && WellFormed(DiamondGraph())
            && (forall fs, i: nat, j: nat :: Chain(files, c, fs) && i < j < |fs| ==> fs[i] != fs[j])
            && !Builds(files, c, name, true, {}, x)
  {
    var (files, c) := Diamond();
    var it := DiamondGraph();
    DiamondGraphIsDescribed();
    hide Chain;
    hide Recorded;
    hide MirrorsFile;
    forall fs, i: nat, j: nat | Chain(files, c, fs) && i < j < |fs| ensures fs[i] != fs[j] {
      BuiltIsLoopFree(files, c, it, fs, i, j);
    }
    if Builds(files, c, name, true, {}, x) {
      MirrorsUnique(files, c, x, it);
      SameRecord(files, c, x, it, true, 1);
      TwiceIsNotFresh();
    }
  }

  lemma TwiceIsNotFresh()
    ensures !Fresh([1, 1], {})
  {
    var s := [1, 1];
    assert s[0] == s[1];
  }
}
