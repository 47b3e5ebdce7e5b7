/** What UNIGraph::Init builds, read off the fields of the configuration and its files. */
module GraphReadings {
  import opened Sequences
  import opened Options
  import opened Digraphs
  import opened NestedGraphs
  import opened GraphBuilds

  predicate IsVertexName(c: GraphConfig, name: string) {
    || (exists i :: 0 <= i < |c.modules| && c.modules[i].name == name)
    || (exists k :: 0 <= k < |c.subgraphs| && c.subgraphs[k].name == name)
  }

  /** The vertices: modules under their names, then subgraphs under what follows the prefix.  Names have neither
      slash nor colon, and none is used twice. */
  ghost predicate VerticesAsWritten(c: GraphConfig, it: Item) {
    && it.Graph? && |it.items| == |c.modules| + |c.subgraphs|
    && (forall i :: 0 <= i < |c.modules| ==>
          && it.items[i] == Module(c.modules[i].name)
          && '/' !in c.modules[i].name && ':' !in c.modules[i].name)
    && (forall k: nat :: k < |c.subgraphs| ==>
          && SubItem(c, it.items, k).Graph? && SubItem(c, it.items, k).name != ""
          && c.subgraphs[k].name == "subgraph:" + SubItem(c, it.items, k).name
          && '/' !in SubItem(c, it.items, k).name && ':' !in SubItem(c, it.items, k).name)
    && (forall i, j :: 0 <= i < j < |c.modules| ==> c.modules[i].name != c.modules[j].name)
    && (forall k, l :: 0 <= k < l < |c.subgraphs| ==> c.subgraphs[k].name != c.subgraphs[l].name)
  }

  /** The edges: those named under `next`, from modules and from subgraphs, to modules and to subgraphs; and every
      name there is that of a vertex. */
  ghost predicate EdgesAsWritten(c: GraphConfig, edges: Digraph) {
    var m := |c.modules|;
    && |edges| == m + |c.subgraphs| && InRange(edges)
    && (forall i: nat, j: nat :: i < m && j < m ==> (j in edges[i] <==> c.modules[j].name in c.modules[i].next))
    && (forall i: nat, k: nat :: i < m && k < |c.subgraphs| ==>
          (m + k in edges[i] <==> c.subgraphs[k].name in c.modules[i].next))
    && (forall k: nat, j: nat :: k < |c.subgraphs| && j < m ==>
          (j in edges[m + k] <==> c.modules[j].name in c.subgraphs[k].next))
    && (forall k: nat, l: nat :: k < |c.subgraphs| && l < |c.subgraphs| ==>
          (m + l in edges[m + k] <==> c.subgraphs[l].name in c.subgraphs[k].next))
    && (forall i, n :: 0 <= i < m && n in c.modules[i].next ==> IsVertexName(c, n))
    && (forall k, n :: 0 <= k < |c.subgraphs| && n in c.subgraphs[k].next ==> IsVertexName(c, n))
  }

  /** So it is at every level, each subgraph from its own file. */
  ghost predicate AsWritten(files: Files, c: GraphConfig, it: Item)
    decreases it, 0
  {
    && VerticesAsWritten(c, it) && EdgesAsWritten(c, it.edges)
    && forall k: nat :: k < |c.subgraphs| ==> FileAsWritten(files, c.subgraphs[k].file, SubItem(c, it.items, k))
  }

  ghost predicate FileAsWritten(files: Files, f: nat, sub: Item)
    decreases sub, 1
  {
    f in files && files[f].Some? && AsWritten(files, files[f].value, sub)
  }

  // ----- Names -----

  lemma PrefixIs(name: string)
    ensures IsSubgraphItem(name) <==> exists t :: t != "" && name == "subgraph:" + t
    ensures IsSubgraphItem(name) ==> name == "subgraph:" + Bare(name) && Bare(name) != ""
    ensures !IsSubgraphItem(name) ==> Bare(name) == name
  {
    if IsSubgraphItem(name) {
      assert name == PREFIX + name[|PREFIX|..];
    }
    if t :| t != "" && name == "subgraph:" + t { assert name[..|PREFIX|] == PREFIX; }
  }

  lemma VertexNameAt(c: GraphConfig)
    ensures |VertexNames(c)| == |c.modules| + |c.subgraphs|
    ensures forall i :: 0 <= i < |c.modules| ==> VertexNames(c)[i] == c.modules[i].name
    ensures forall k: nat :: k < |c.subgraphs| ==> VertexNames(c)[|c.modules| + k] == c.subgraphs[k].name
  {
  }

  lemma VertexNameIs(c: GraphConfig, n: string)
    ensures n in VertexNames(c) <==> IsVertexName(c, n)
  {
    VertexNameAt(c);
    var v, m := VertexNames(c), |c.modules|;
    if n in v {
      var i :| 0 <= i < |v| && v[i] == n;
      assert i < m || c.subgraphs[i - m].name == n;
    }
    if i :| 0 <= i < m && c.modules[i].name == n { assert v[i] == n; }
    if k :| 0 <= k < |c.subgraphs| && c.subgraphs[k].name == n { assert v[m + k] == n; }
  }

  lemma ColonFree(name: string)
    requires ':' !in name
    ensures !IsSubgraphItem(name) && Bare(name) == name
  {
    if IsSubgraphItem(name) { PrefixHasColon(name); }
  }

  lemma PrefixHasColon(name: string)
    requires IsSubgraphItem(name)
    ensures ':' in name
  {
    assert name[8] == PREFIX[8] == ':';
  }

  ghost predicate VerticesMirror(c: GraphConfig, it: Item) {
    && it.Graph? && |it.items| == |c.modules| + |c.subgraphs| && NamesTaken(c, |c.modules| + |c.subgraphs|)
    && (forall i :: 0 <= i < |c.modules| ==> it.items[i] == Module(c.modules[i].name))
    && (forall k: nat :: k < |c.subgraphs| ==>
          SubItem(c, it.items, k).Graph? && SubItem(c, it.items, k).name == Bare(c.subgraphs[k].name))
  }

  lemma MirroredVertices(c: GraphConfig, it: Item)
    requires VerticesMirror(c, it)
    ensures VerticesAsWritten(c, it)
  {
    VertexNameAt(c);
    var v, m := VertexNames(c), |c.modules|;
    forall i | 0 <= i < m ensures '/' !in c.modules[i].name && ':' !in c.modules[i].name {
      assert IsNodeNameValid(v[i]) && !IsSubgraphItem(v[i]);
    }
    forall k: nat | k < |c.subgraphs|
      ensures c.subgraphs[k].name == "subgraph:" + SubItem(c, it.items, k).name && SubItem(c, it.items, k).name != ""
      ensures '/' !in SubItem(c, it.items, k).name && ':' !in SubItem(c, it.items, k).name
    {
      assert IsNodeNameValid(v[m + k]) && IsSubgraphItem(v[m + k]);
      PrefixIs(c.subgraphs[k].name);
    }
    forall i, j | 0 <= i < j < m ensures c.modules[i].name != c.modules[j].name { assert v[i] != v[j]; }
    forall k, l | 0 <= k < l < |c.subgraphs| ensures c.subgraphs[k].name != c.subgraphs[l].name {
      assert v[m + k] != v[m + l];
    }
  }

  lemma WrittenNames(c: GraphConfig, it: Item, i: nat)
    requires VerticesAsWritten(c, it) && i < |VertexNames(c)|
    ensures IsNodeNameValid(VertexNames(c)[i]) && (IsSubgraphItem(VertexNames(c)[i]) <==> i >= |c.modules|)
    ensures i >= |c.modules| ==> Bare(VertexNames(c)[i]) == it.items[i].name
  {
    VertexNameAt(c);
    var n := VertexNames(c)[i];
    if i < |c.modules| {
      ColonFree(n);
    } else {
      assert n == c.subgraphs[i - |c.modules|].name;
      assert n == "subgraph:" + SubItem(c, it.items, i - |c.modules|).name;
      PrefixIs(n);
      assert n[|PREFIX|..] == it.items[i].name;
    }
  }

  lemma ConfiguredNamesDiffer(c: GraphConfig, it: Item)
    requires VerticesAsWritten(c, it)
    ensures forall i, j :: 0 <= i < j < |c.modules| ==> c.modules[i].name != c.modules[j].name
    ensures forall k, l :: 0 <= k < l < |c.subgraphs| ==> c.subgraphs[k].name != c.subgraphs[l].name
  {
  }

  lemma WrittenNamesDiffer(c: GraphConfig, it: Item, i: nat, j: nat)
    requires VerticesAsWritten(c, it) && i < j < |VertexNames(c)|
    ensures VertexNames(c)[i] != VertexNames(c)[j]
  {
    hide VerticesAsWritten;
    hide VertexNames;
    hide IsSubgraphItem;
    hide IsNodeNameValid;
    hide Bare;
    WrittenNames(c, it, i);
    WrittenNames(c, it, j);
    VertexNameAt(c);
    ConfiguredNamesDiffer(c, it);
    var m := |c.modules|;
    if i >= m {
      assert VertexNames(c)[m + (i - m)] == c.subgraphs[i - m].name;
      assert VertexNames(c)[m + (j - m)] == c.subgraphs[j - m].name;
    }
  }

  lemma WrittenSubgraph(c: GraphConfig, it: Item, k: nat)
    requires VerticesAsWritten(c, it) && k < |c.subgraphs|
    ensures SubItem(c, it.items, k).Graph? && SubItem(c, it.items, k).name == Bare(c.subgraphs[k].name)
  {
    VertexNameAt(c);
    WrittenNames(c, it, |c.modules| + k);
  }

  lemma WrittenVertices(c: GraphConfig, it: Item)
    requires VerticesAsWritten(c, it)
    ensures VerticesMirror(c, it)
  {
    VertexNameAt(c);
    assert it.Graph? && |it.items| == |c.modules| + |c.subgraphs|;
    assert forall i :: 0 <= i < |c.modules| ==> it.items[i] == Module(c.modules[i].name);
    hide VertexNames;
    hide VerticesAsWritten;
    hide IsNodeNameValid;
    hide IsSubgraphItem;
    hide Bare;
    hide SubItem;
    var v, m := VertexNames(c), |c.modules|;
    forall i: nat | i < |v| ensures IsNodeNameValid(v[i]) && (IsSubgraphItem(v[i]) <==> i >= m) {
      WrittenNames(c, it, i);
    }
    forall i: nat, j: nat | i < j < |v| ensures v[i] != v[j] { WrittenNamesDiffer(c, it, i, j); }
    forall k: nat | k < |c.subgraphs|
      ensures SubItem(c, it.items, k).Graph? && SubItem(c, it.items, k).name == Bare(c.subgraphs[k].name)
    {
      WrittenSubgraph(c, it, k);
    }
  }

  // ----- Edges -----

  lemma MirroredNext(c: GraphConfig, it: Item)
    requires EdgesByName(c, it)
    ensures forall i, n :: 0 <= i < |c.modules| && n in c.modules[i].next ==> IsVertexName(c, n)
    ensures forall k, n :: 0 <= k < |c.subgraphs| && n in c.subgraphs[k].next ==> IsVertexName(c, n)
  {
    hide IsVertexName;
    hide VertexNames;
    hide NamesNext;
    forall k: nat, n | k < |c.subgraphs| && n in c.subgraphs[k].next ensures IsVertexName(c, n) {
      assert n in NextNames(c, |c.modules| + k);
      VertexNameIs(c, n);
    }
    forall i: nat, n | i < |c.modules| && n in c.modules[i].next ensures IsVertexName(c, n) {
      assert n in NextNames(c, i);
      VertexNameIs(c, n);
    }
  }

  lemma MirroredRange(c: GraphConfig, it: Item)
    requires EdgesByName(c, it)
    ensures |it.edges| == |c.modules| + |c.subgraphs| && InRange(it.edges)
  {
    VertexNameAt(c);
    hide VertexNames;
    forall i: nat, j: nat | i < |it.edges| && j in it.edges[i] ensures j < |it.edges| {
      assert NamesNext(c, i, j);
    }
  }

  lemma MirroredEdges(c: GraphConfig, it: Item)
    requires EdgesByName(c, it)
    ensures EdgesAsWritten(c, it.edges)
  {
    MirroredNext(c, it);
    MirroredRange(c, it);
    VertexNameAt(c);
    hide IsVertexName;
    hide VertexNames;
    hide InRange;
  }

  lemma WrittenNext(c: GraphConfig, edges: Digraph, i: nat, n: string)
    requires EdgesAsWritten(c, edges) && i < |c.modules| + |c.subgraphs| && n in NextNames(c, i)
    ensures n in VertexNames(c)
  {
    VertexNameIs(c, n);
    hide IsVertexName;
    if i >= |c.modules| { assert n in c.subgraphs[i - |c.modules|].next; }
  }

  lemma WrittenRange(c: GraphConfig, edges: Digraph)
    requires EdgesAsWritten(c, edges)
    ensures |edges| == |c.modules| + |c.subgraphs| && InRange(edges)
  {
  }

  lemma WrittenEdges(c: GraphConfig, it: Item)
    requires it.Graph? && |it.items| == |c.modules| + |c.subgraphs| && EdgesAsWritten(c, it.edges)
    ensures EdgesByName(c, it)
  {
    hide EdgesAsWritten;
    hide VertexNames;
    hide NextNames;
    WrittenRange(c, it.edges);
    VertexNameAt(c);
    forall i: nat, j: nat | i < |it.edges| ensures j in it.edges[i] <==> NamesNext(c, i, j) {
      if j < |it.edges| { WrittenEdge(c, it.edges, i, j); }
    }
    hide NamesNext;
    forall i: nat, n | i < |it.edges| && n in NextNames(c, i) ensures n in VertexNames(c) {
      WrittenNext(c, it.edges, i, n);
    }
  }

  lemma WrittenEdge(c: GraphConfig, edges: Digraph, i: nat, j: nat)
    requires EdgesAsWritten(c, edges) && i < |edges| && j < |edges|
    ensures j in edges[i] <==> NamesNext(c, i, j)
  {
    VertexNameAt(c);
    hide VertexNames;
    var m := |c.modules|;
    if i >= m { assert m + (i - m) == i; }
    if j >= m {
      assert m + (j - m) == j;
      assert VertexNames(c)[m + (j - m)] == c.subgraphs[j - m].name;
    }
  }

  // ----- Files -----

  lemma MirroredShape(files: Files, c: GraphConfig, it: Item)
    requires Mirrors(files, c, it)
    ensures VerticesMirror(c, it)
  {
    MirrorsSize(files, c, it);
    forall k: nat | k < |c.subgraphs|
      ensures SubItem(c, it.items, k).Graph? && SubItem(c, it.items, k).name == Bare(c.subgraphs[k].name)
    {
      assert MirrorsFile(files, c.subgraphs[k], SubItem(c, it.items, k));
    }
  }

  /** A graph mirrors its configuration exactly if it is as written. */
  lemma {:induction false} MirrorsIff(files: Files, c: GraphConfig, it: Item)
    ensures Mirrors(files, c, it) <==> AsWritten(files, c, it)
    decreases it
  {
    hide EdgesAsWritten;
    hide VerticesAsWritten;
    hide EdgesByName;
    if Mirrors(files, c, it) {
      MirrorsSize(files, c, it);
      MirroredShape(files, c, it);
      MirroredVertices(c, it);
      MirroredEdges(c, it);
      forall k: nat | k < |c.subgraphs| ensures FileAsWritten(files, c.subgraphs[k].file, SubItem(c, it.items, k)) {
        assert MirrorsFile(files, c.subgraphs[k], SubItem(c, it.items, k));
        MirrorsIff(files, files[c.subgraphs[k].file].value, SubItem(c, it.items, k));
      }
    }
    if AsWritten(files, c, it) {
      WrittenVertices(c, it);
      WrittenEdges(c, it);
      forall k: nat | k < |c.subgraphs| ensures MirrorsFile(files, c.subgraphs[k], SubItem(c, it.items, k)) {
        assert FileAsWritten(files, c.subgraphs[k].file, SubItem(c, it.items, k));
        MirrorsIff(files, files[c.subgraphs[k].file].value, SubItem(c, it.items, k));
      }
    }
  }

  // ----- Files used -----

  /** `x` is the last of at least `n` files each of which is named in the one before, the first in `c`. */
  ghost predicate EndsIn(files: Files, c: GraphConfig, fs: seq<nat>, x: nat, n: nat) {
    |fs| >= n && fs != [] && fs[|fs| - 1] == x && Chain(files, c, fs)
  }

  ghost predicate Reaches(files: Files, c: GraphConfig, x: nat, n: nat) {
    exists fs :: EndsIn(files, c, fs, x, n)
  }

  lemma {:induction false} RecordedFrom(files: Files, c: GraphConfig, it: Item, root: bool, n: nat, x: nat)
    requires Partly(files, c, it, n)
    ensures x in Recorded(files, c, it, root, n) <==>
              exists k: nat :: k < n && x in RecordedBy(files, c.subgraphs[k], SubItem(c, it.items, k), root)
  {
    hide Recorded;
    hide RecordedBy;
    hide MirrorsFile;
    RecordedNext(files, c, it, root, n);
    if n > 0 { RecordedFrom(files, c, it, root, n - 1, x); }
  }

  lemma RecordedNext(files: Files, c: GraphConfig, it: Item, root: bool, n: nat)
    requires Partly(files, c, it, n)
    ensures n == 0 ==> Recorded(files, c, it, root, n) == []
    ensures n > 0 ==>
      && Partly(files, c, it, n - 1) && MirrorsFile(files, c.subgraphs[n - 1], SubItem(c, it.items, n - 1))
      && Recorded(files, c, it, root, n)
          == Recorded(files, c, it, root, n - 1)
             + RecordedBy(files, c.subgraphs[n - 1], SubItem(c, it.items, n - 1), root)
  {
    hide RecordedBy;
  }

  lemma RecordedOf(files: Files, s: SubgraphConfig, sub: Item, root: bool, x: nat)
    requires MirrorsFile(files, s, sub)
    ensures var c := files[s.file].value;
            && Partly(files, c, sub, |c.subgraphs|)
            && (x in RecordedBy(files, s, sub, root) <==>
                  (!root && x == s.file) || x in Recorded(files, c, sub, false, |c.subgraphs|))
  {
    MirrorsIsPartly(files, files[s.file].value, sub);
  }

  lemma OneFurther(files: Files, c: GraphConfig, k: nat, fs: seq<nat>, x: nat, n: nat)
    requires k < |c.subgraphs| && Opens(files, c.subgraphs[k].file)
    requires EndsIn(files, files[c.subgraphs[k].file].value, fs, x, n)
    ensures EndsIn(files, c, [c.subgraphs[k].file] + fs, x, n + 1)
  {
    assert ([c.subgraphs[k].file] + fs)[1..] == fs;
  }

  lemma FirstOf(files: Files, c: GraphConfig, fs: seq<nat>, x: nat, n: nat) returns (k: nat)
    requires EndsIn(files, c, fs, x, n)
    ensures k < |c.subgraphs| && Opens(files, c.subgraphs[k].file) && c.subgraphs[k].file == fs[0]
    ensures |fs| == 1 ==> x == c.subgraphs[k].file
    ensures |fs| > 1 ==> EndsIn(files, files[c.subgraphs[k].file].value, fs[1..], x, if n > 0 then n - 1 else 0)
  {
    k :| 0 <= k < |c.subgraphs| && c.subgraphs[k].file == fs[0];
  }

  lemma {:induction false} ReachedBySub(files: Files, c: GraphConfig, it: Item, k: nat, x: nat)
    requires Mirrors(files, c, it) && k < |c.subgraphs| && it.Graph? && |c.modules| + k < |it.items|
    requires MirrorsFile(files, c.subgraphs[k], SubItem(c, it.items, k))
    requires x in RecordedBy(files, c.subgraphs[k], SubItem(c, it.items, k), false)
    ensures Reaches(files, c, x, 1)
    decreases it, 1
  {
    hide Recorded;
    hide RecordedBy;
    hide Chain;
    hide Mirrors;
    RecordedSub(files, c, it, k, x);
    RecordedOf(files, c.subgraphs[k], SubItem(c, it.items, k), false, x);
    OwnFile(files, c, k);
    if x != c.subgraphs[k].file { OneMoreFile(files, c, k, x, 1); }
  }

  lemma OneMoreFile(files: Files, c: GraphConfig, k: nat, x: nat, n: nat)
    requires k < |c.subgraphs| && Opens(files, c.subgraphs[k].file)
    requires Reaches(files, files[c.subgraphs[k].file].value, x, n)
    ensures Reaches(files, c, x, n + 1) && Reaches(files, c, x, 1)
  {
    var fs :| EndsIn(files, files[c.subgraphs[k].file].value, fs, x, n);
    OneFurther(files, c, k, fs, x, n);
    hide Chain;
    assert EndsIn(files, c, [c.subgraphs[k].file] + fs, x, 1);
  }

  lemma {:induction false} SubOfReached(files: Files, c: GraphConfig, it: Item, x: nat, n: nat) returns (k: nat)
    requires Mirrors(files, c, it) && Reaches(files, c, x, n) && 1 <= n <= 2
    ensures k < |c.subgraphs| && it.Graph? && |c.modules| + k < |it.items|
    ensures MirrorsFile(files, c.subgraphs[k], SubItem(c, it.items, k))
    ensures x in RecordedBy(files, c.subgraphs[k], SubItem(c, it.items, k), n == 2)
    decreases it, 1
  {
    hide Recorded;
    hide RecordedBy;
    hide Chain;
    hide Mirrors;
    var fs :| EndsIn(files, c, fs, x, n);
    k := FirstOf(files, c, fs, x, n);
    RecordedSub(files, c, it, k, x);
    RecordedOf(files, c.subgraphs[k], SubItem(c, it.items, k), n == 2, x);
    if |fs| > 1 { assert EndsIn(files, files[c.subgraphs[k].file].value, fs[1..], x, 1); }
  }

  /** Below the root, the files recorded are those that some chain of files ends in. */
  lemma {:induction false} RecordedReach(files: Files, c: GraphConfig, it: Item, x: nat)
    requires Mirrors(files, c, it) && Partly(files, c, it, |c.subgraphs|)
    ensures x in Recorded(files, c, it, false, |c.subgraphs|) <==> Reaches(files, c, x, 1)
    decreases it, 2
  {
    RecordedFrom(files, c, it, false, |c.subgraphs|, x);
    hide Recorded;
    hide RecordedBy;
    hide Reaches;
    forall k: nat | k < |c.subgraphs| && x in RecordedBy(files, c.subgraphs[k], SubItem(c, it.items, k), false)
      ensures Reaches(files, c, x, 1)
    {
      ReachedBySub(files, c, it, k, x);
    }
    if Reaches(files, c, x, 1) { var k := SubOfReached(files, c, it, x, 1); }
  }

  lemma OwnFile(files: Files, c: GraphConfig, k: nat)
    requires k < |c.subgraphs| && Opens(files, c.subgraphs[k].file)
    ensures Reaches(files, c, c.subgraphs[k].file, 1)
  {
    assert EndsIn(files, c, [c.subgraphs[k].file], c.subgraphs[k].file, 1);
  }

  lemma {:induction false} RecordedSub(files: Files, c: GraphConfig, it: Item, k: nat, x: nat)
    requires Mirrors(files, c, it) && k < |c.subgraphs|
    ensures it.Graph? && |c.modules| + k < |it.items|
    ensures MirrorsFile(files, c.subgraphs[k], SubItem(c, it.items, k))
    ensures var d := files[c.subgraphs[k].file].value;
            && Partly(files, d, SubItem(c, it.items, k), |d.subgraphs|)
            && (x in Recorded(files, d, SubItem(c, it.items, k), false, |d.subgraphs|) <==> Reaches(files, d, x, 1))
    decreases it, 0
  {
    MirrorsSize(files, c, it);
    var sub := SubItem(c, it.items, k);
    assert MirrorsFile(files, c.subgraphs[k], sub);
    MirrorsIsPartly(files, files[c.subgraphs[k].file].value, sub);
    RecordedReach(files, files[c.subgraphs[k].file].value, sub, x);
  }

  lemma ReachedFromRoot(files: Files, c: GraphConfig, it: Item, k: nat, x: nat)
    requires Mirrors(files, c, it) && k < |c.subgraphs| && it.Graph? && |c.modules| + k < |it.items|
    requires MirrorsFile(files, c.subgraphs[k], SubItem(c, it.items, k))
    requires x in RecordedBy(files, c.subgraphs[k], SubItem(c, it.items, k), true)
    ensures Reaches(files, c, x, 2)
  {
    hide Recorded;
    hide RecordedBy;
    hide Reaches;
    hide Mirrors;
    RecordedSub(files, c, it, k, x);
    RecordedOf(files, c.subgraphs[k], SubItem(c, it.items, k), true, x);
    OneMoreFile(files, c, k, x, 1);
  }

  /** In the root, they are those that a chain of at least two files ends in. */
  lemma RecordedInRoot(files: Files, c: GraphConfig, it: Item, x: nat)
    requires Mirrors(files, c, it) && Partly(files, c, it, |c.subgraphs|)
    ensures x in Recorded(files, c, it, true, |c.subgraphs|) <==> Reaches(files, c, x, 2)
  {
    RecordedFrom(files, c, it, true, |c.subgraphs|, x);
    hide Recorded;
    hide RecordedBy;
    hide Reaches;
    forall k: nat | k < |c.subgraphs| && x in RecordedBy(files, c.subgraphs[k], SubItem(c, it.items, k), true)
      ensures Reaches(files, c, x, 2)
    {
      ReachedFromRoot(files, c, it, k, x);
    }
    if Reaches(files, c, x, 2) { var k := SubOfReached(files, c, it, x, 2); }
  }

  lemma RecordedStep(files: Files, c: GraphConfig, it: Item, root: bool, n: nat)
    requires Mirrors(files, c, it) && 0 < n && Partly(files, c, it, n)
    ensures Partly(files, c, it, n - 1) && |it.items| == |c.modules| + |c.subgraphs|
    ensures var s, sub := c.subgraphs[n - 1], SubItem(c, it.items, n - 1);
            && MirrorsFile(files, s, sub)
            && |sub.items| == |files[s.file].value.modules| + |files[s.file].value.subgraphs|
            && Partly(files, files[s.file].value, sub, |files[s.file].value.subgraphs|)
            && |Recorded(files, c, it, root, n)|
                == |Recorded(files, c, it, root, n - 1)| + (if root then 0 else 1)
                   + |Recorded(files, files[s.file].value, sub, false, |files[s.file].value.subgraphs|)|
  {
    var s, sub := c.subgraphs[n - 1], SubItem(c, it.items, n - 1);
    MirrorsSize(files, c, it);
    assert MirrorsFile(files, s, sub);
    MirrorsIsPartly(files, files[s.file].value, sub);
    MirrorsSize(files, files[s.file].value, sub);
  }

  lemma ModulesFirst(files: Files, c: GraphConfig, it: Item)
    requires Mirrors(files, c, it)
    ensures |c.modules| <= |it.items| && SubgraphsIn(it.items[..|c.modules|]) == 0
  {
    MirrorsSize(files, c, it);
    NoSubgraphs(it.items[..|c.modules|]);
  }

  lemma SubgraphsOf(it: Item)
    requires it.Graph?
    ensures Subgraphs(it) == SubgraphsIn(it.items)
  {
  }

  /** As many files are recorded as there are subgraphs, those of the root itself not counted in the root. */
  lemma {:induction false} RecordedSize(files: Files, c: GraphConfig, it: Item, root: bool, n: nat)
    requires Mirrors(files, c, it) && Partly(files, c, it, n)
    ensures |Recorded(files, c, it, root, n)| + (if root then n else 0) == SubgraphsIn(it.items[..|c.modules| + n])
    decreases it, n, 1
  {
    ModulesFirst(files, c, it);
    if n > 0 { RecordedMore(files, c, it, root, n); }
  }

  lemma {:induction false} RecordedMore(files: Files, c: GraphConfig, it: Item, root: bool, n: nat)
    requires Mirrors(files, c, it) && 0 < n && Partly(files, c, it, n)
    ensures |Recorded(files, c, it, root, n)| + (if root then n else 0) == SubgraphsIn(it.items[..|c.modules| + n])
    decreases it, n, 0
  {
    hide Recorded;
    hide SubgraphsIn;
    hide Subgraphs;
    var m, s, sub := |c.modules|, c.subgraphs[n - 1], SubItem(c, it.items, n - 1);
    RecordedStep(files, c, it, root, n);
    RecordedSize(files, c, it, root, n - 1);
    RecordedSize(files, files[s.file].value, sub, false, |files[s.file].value.subgraphs|);
    hide Mirrors;
    hide Partly;
    assert sub.items[..|sub.items|] == sub.items;
    assert it.items[..m + n] == it.items[..m + n - 1] + [sub];
    OneMoreSubgraph(it.items[..m + n - 1], sub);
    SubgraphsOf(sub);
  }

  ghost function Used(files: Files, c: GraphConfig, n: nat): (s: set<nat>)
    ensures forall x :: x in s <==> x in files && Reaches(files, c, x, n)
  {
    set x | x in files && Reaches(files, c, x, n)
  }

  /** Below the root, no file is used twice or used that was taken before. */
  ghost predicate FilesAreNew(files: Files, c: GraphConfig, it: Item, root: bool, taken: set<nat>) {
    var used := Used(files, c, if root then 2 else 1);
    used !! taken && |used| + (if root then |c.subgraphs| else 0) == Subgraphs(it)
  }

  lemma {:induction false} ReachedExists(files: Files, c: GraphConfig, fs: seq<nat>)
    requires Chain(files, c, fs) && fs != []
    ensures fs[|fs| - 1] in files
    decreases |fs|
  {
    if |fs| > 1 { ReachedExists(files, files[fs[0]].value, fs[1..]); }
  }

  lemma RecordedSet(files: Files, c: GraphConfig, it: Item, root: bool)
    requires Mirrors(files, c, it) && Partly(files, c, it, |c.subgraphs|)
    ensures Elements(Recorded(files, c, it, root, |c.subgraphs|)) == Used(files, c, if root then 2 else 1)
  {
    hide Recorded;
    hide Reaches;
    var s, n := Recorded(files, c, it, root, |c.subgraphs|), if root then 2 else 1;
    forall x ensures x in s <==> x in files && Reaches(files, c, x, n) {
      if root { RecordedInRoot(files, c, it, x); } else { RecordedReach(files, c, it, x); }
      if Reaches(files, c, x, n) { ReachedIsFile(files, c, x, n); }
    }
  }

  lemma ReachedIsFile(files: Files, c: GraphConfig, x: nat, n: nat)
    requires Reaches(files, c, x, n)
    ensures x in files
  {
    var fs :| EndsIn(files, c, fs, x, n);
    ReachedExists(files, c, fs);
  }

  lemma RecordedCount(files: Files, c: GraphConfig, it: Item, root: bool)
    requires Mirrors(files, c, it) && Partly(files, c, it, |c.subgraphs|)
    ensures |Recorded(files, c, it, root, |c.subgraphs|)| + (if root then |c.subgraphs| else 0) == Subgraphs(it)
  {
    hide Recorded;
    hide SubgraphsIn;
    hide Subgraphs;
    RecordedSize(files, c, it, root, |c.subgraphs|);
    MirrorsSize(files, c, it);
    assert it.items[..|it.items|] == it.items;
    SubgraphsOf(it);
  }

  lemma FreshIff(files: Files, c: GraphConfig, it: Item, root: bool, taken: set<nat>)
    requires Mirrors(files, c, it) && Partly(files, c, it, |c.subgraphs|)
    ensures Fresh(Recorded(files, c, it, root, |c.subgraphs|), taken) <==> FilesAreNew(files, c, it, root, taken)
  {
    hide Recorded;
    hide Used;
    hide Mirrors;
    hide Partly;
    hide Fresh;
    hide Subgraphs;
    RecordedSet(files, c, it, root);
    RecordedCount(files, c, it, root);
    FreshBySize(Recorded(files, c, it, root, |c.subgraphs|), taken);
  }

  lemma FreshBySize(s: seq<nat>, taken: set<nat>)
    ensures Fresh(s, taken) <==> Elements(s) !! taken && |Elements(s)| == |s|
  {
    SizeDistinct(s);
    if Distinct(s) { DistinctSize(s); }
  }

  /** When Init succeeds, and with what: the graph is as written, at every level, without rings, and the files below
      the root are new. */
  lemma BuildsIff(files: Files, c: GraphConfig, name: string, root: bool, taken: set<nat>, it: Item)
    ensures Builds(files, c, name, root, taken, it) <==>
              && it.Graph? && it.name == name && AsWritten(files, c, it) && WellFormed(it)
              && FilesAreNew(files, c, it, root, taken)
  {
    MirrorsIff(files, c, it);
    if Mirrors(files, c, it) {
      MirrorsIsPartly(files, c, it);
      hide AsWritten;
      hide Recorded;
      hide FilesAreNew;
      FreshIff(files, c, it, root, taken);
    }
  }

  /** A subgraph whose `next` names a vertex leads there: every tail inside has every head of that vertex in its
      `next_`. */
  lemma SubgraphLeadsOn(files: Files, c: GraphConfig, it: Item, k: nat, v: nat, t: Path, h: Path)
    requires AsWritten(files, c, it) && WellFormed(it) && k < |c.subgraphs| && v < |it.items|
    requires if v < |c.modules| then c.modules[v].name in c.subgraphs[k].next
             else c.subgraphs[v - |c.modules|].name in c.subgraphs[k].next
    requires IsTail(SubItem(c, it.items, k), t) && IsHead(it.items[v], h)
    ensures FlatEdge(it, [|c.modules| + k] + t, [v] + h)
  {
    var p, q := [|c.modules| + k] + t, [v] + h;
    assert p[1..] == t && q[1..] == h;
    if v >= |c.modules| { assert v == |c.modules| + (v - |c.modules|); }
    assert v in it.edges[|c.modules| + k];
  }

  /** So does a module. */
  lemma ModuleLeadsOn(files: Files, c: GraphConfig, it: Item, i: nat, v: nat, h: Path)
    requires AsWritten(files, c, it) && WellFormed(it) && i < |c.modules| && v < |it.items|
    requires if v < |c.modules| then c.modules[v].name in c.modules[i].next
             else c.subgraphs[v - |c.modules|].name in c.modules[i].next
    requires IsHead(it.items[v], h)
    ensures FlatEdge(it, [i], [v] + h)
  {
    var p, q := [i], [v] + h;
    assert p[1..] == [] && q[1..] == h;
    if v >= |c.modules| { assert v == |c.modules| + (v - |c.modules|); }
    assert v in it.edges[i];
  }
}
