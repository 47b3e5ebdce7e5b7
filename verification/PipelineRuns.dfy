/** The runs of a pipeline that was built from a graph. */
module PipelineRuns {
  import opened Sequences
  import opened NestedGraphs
  import opened NestedDfs
  import opened NestedBuilds
  import opened Pipelines
  import FrameFlow
  import FrameProgress
  import ModuleMasks
  import opened Protocol
  import opened ProtocolTheorems

  /** What the user adds to a graph: the connectors of each module, and the streams fed into it. */
  datatype Load = Load(
    parallelism: seq<nat>,
    capacity: seq<nat>,
    head: seq<nat>,
    streamIdx: seq<nat>,
    sent: seq<seq<Frame>>,
    flawed: set<Frame>
  )

  /** CreateConnectors accepts the modules, and the sources feed head modules. */
  ghost predicate Accepted(it: Item, nodes: seq<Path>, load: Load)
    requires WellFormed(it)
  {
    && |load.parallelism| == |load.capacity| == |nodes|
    && (forall m: nat :: m < |nodes| && !Parentless(it, nodes[m]) ==>
          0 < load.parallelism[m] && 0 < load.capacity[m])
    && FedToHeads(it, nodes, load)
  }

  ghost predicate FedToHeads(it: Item, nodes: seq<Path>, load: Load) {
    && |load.streamIdx| == |load.sent| == |load.head|
    && (forall s: nat :: s < |load.head| ==> load.head[s] < |nodes| && IsHead(it, nodes[load.head[s]]))
    && (forall s: nat, i: nat :: s < |load.sent| && i < |load.sent[s]| ==>
          load.sent[s][i].stream == s && load.sent[s][i].num == i)
  }

  ghost function ConfigFrom(it: Item, nodes: seq<Path>, next: seq<seq<nat>>, load: Load): Config
    requires WellFormed(it)
  {
    Config(
      next,
      seq(|nodes|, (j: nat) => ParentsOf(it, nodes, j)),
      ModuleMasks.Upto(|nodes|),
      load.parallelism,
      load.capacity,
      load.head,
      seq(|load.head|, (s: nat) requires s < |load.head| => RouteOf(it, nodes, load.head[s])),
      load.streamIdx,
      load.sent,
      load.flawed)
  }

  /** Every accepted load of every well-formed graph is a configuration of the protocol, ranked by any
      topological order of the modules. */
  lemma ConfigIsValid(it: Item, nodes: seq<Path>, next: seq<seq<nat>>, load: Load, sorted: seq<Path>)
    requires WellFormed(it) && Numbered(it, nodes) && IsNext(it, nodes, next) && Accepted(it, nodes, load)
    requires Distinct(sorted) && Forward(it, sorted) && SameNodes(nodes, sorted)
    ensures ConfigFrom(it, nodes, next, load).Valid()
    ensures RankedBy(ConfigFrom(it, nodes, next, load), Places(nodes, sorted))
  {
    var c := ConfigFrom(it, nodes, next, load);
    forall s: nat | s < |c.head|
      ensures c.NetOf(s).Valid() && FrameProgress.Ranked(c.NetOf(s), Places(nodes, sorted))
    {
      NetIsRanked(it, nodes, next, load.head[s], sorted);
      assert c.NetOf(s) == NetFrom(it, nodes, next, load.head[s]);
    }
    forall m: nat | m < |nodes| && c.parents[m] != {} ensures !Parentless(it, nodes[m]) {
      NoParents(it, nodes, m);
    }
  }

  /** From every state that a pipeline can reach while frames are under way, some worker can go on. */
  lemma PipelineGoesOn(it: Item, nodes: seq<Path>, next: seq<seq<nat>>, load: Load, sorted: seq<Path>, st: State)
    returns (step: Step)
    requires WellFormed(it) && Numbered(it, nodes) && IsNext(it, nodes, next) && Accepted(it, nodes, load)
    requires Distinct(sorted) && Forward(it, sorted) && SameNodes(nodes, sorted)
    requires ConfigFrom(it, nodes, next, load).Valid() && Reachable(ConfigFrom(it, nodes, next, load), st)
    requires !Quiescent(st)
    ensures Progress(step) && Enabled(ConfigFrom(it, nodes, next, load), st, step)
  {
    var c := ConfigFrom(it, nodes, next, load);
    ConfigIsValid(it, nodes, next, load, sorted);
    hide ConfigFrom;
    hide Accepted;
    hide Config.Valid;
    hide RankedBy;
    hide IsNext;
    ReachableIsSound(c, st);
    step := NoDeadlock(c, st, Places(nodes, sorted));
  }

  /** When a run has come to rest, a frame that was dropped nowhere has been handled and marked by exactly
      the modules that `next_` reaches from its head, and OnPassThrough was called for it. */
  lemma PipelineDelivers(
      it: Item, nodes: seq<Path>, next: seq<seq<nat>>, load: Load, sorted: seq<Path>, st: State, f: Frame)
    requires WellFormed(it) && Numbered(it, nodes) && IsNext(it, nodes, next) && Accepted(it, nodes, load)
    requires Distinct(sorted) && Forward(it, sorted) && SameNodes(nodes, sorted)
    requires ConfigFrom(it, nodes, next, load).Valid() && Reachable(ConfigFrom(it, nodes, next, load), st)
    requires Quiescent(st)
    requires f in ConfigFrom(it, nodes, next, load).Frames()
    ensures f in st.flow && f.stream < |load.head|
    ensures (forall m: nat :: FrameFlow.Dropped(m) !in st.flow[f].trail) <==> f in st.passed
    ensures f in st.passed ==> forall j: nat :: OnRoute(it, nodes, load.head[f.stream], j) ==>
              FrameFlow.Taken(j) in st.flow[f].trail && FrameFlow.Marked(j) in st.flow[f].trail
    ensures forall j: nat :: j in st.flow[f].stage ==> OnRoute(it, nodes, load.head[f.stream], j)
  {
    var c := ConfigFrom(it, nodes, next, load);
    ConfigIsValid(it, nodes, next, load, sorted);
    var rank := Places(nodes, sorted);
    hide Config.Valid;
    hide RankedBy;
    hide IsNext;
    hide Accepted;
    hide Reachable;
    Completion(c, st, rank, f);
    MaskMeaning(c, st, f);
    assert c.route[f.stream] == RouteOf(it, nodes, load.head[f.stream]);
  }
}
