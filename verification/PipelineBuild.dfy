/** From a configuration and its files to the runs of the pipeline that is built from them. */
module PipelineBuilds {
  import opened Sequences
  import opened Options
  import opened NestedGraphs
  import opened NestedDfs
  import opened Names
  import opened GraphBuilds
  import opened Pipelines
  import opened PipelineRuns
  import FrameFlow
  import opened Protocol
  import opened ProtocolTheorems
  import opened ProtocolConveyors
  import opened MaskRuns

  /** When BuildPipeline succeeds: there is a graph to build, the factory makes its modules, and those that have a
      parent have room for frames. */
  ghost predicate Buildable(
      files: Files, c: GraphConfig, name: string, makes: set<Path>, limits: map<Path, Limits>)
  {
    exists it :: Builds(files, c, name, true, {}, it) && Makeable(it, makes, limits)
  }

  ghost predicate Makeable(it: Item, makes: set<Path>, limits: map<Path, Limits>)
    requires WellFormed(it)
  {
    && (forall p :: IsNode(it, p) ==> p in makes && p in limits)
    && RoomForAll(it, limits)
  }

  /** Where the behaviour of the code is defined: the walk over all modules steps onto no position without one, no
      head is looked up by a name under which it is not found, and there are no more modules than bits.  Each
      module has limits, if only by default. */
  ghost predicate Walkable(files: Files, c: GraphConfig, name: string, limits: map<Path, Limits>) {
    forall it :: Builds(files, c, name, true, {}, it) ==>
      && Solid(it) && (forall p :: IsHead(it, p) ==> Findable(it, p)) && |All(it)| <= 64
      && forall p :: IsNode(it, p) ==> p in limits
  }

  /** The streams are fed into heads, and the conveyors are as configured. */
  ghost predicate Loads(it: Item, nodes: seq<Path>, limits: map<Path, Limits>, load: Load) {
    && FedToHeads(it, nodes, load) && |load.parallelism| == |load.capacity| == |nodes|
    && forall m: nat :: m < |nodes| && nodes[m] in limits && Positive(limits[nodes[m]]) ==>
         load.parallelism[m] == limits[nodes[m]].parallelism && load.capacity[m] == limits[nodes[m]].capacity
  }

  /** Frame `f` is fed in. */
  ghost predicate Sends(load: Load, f: Frame) {
    f.stream < |load.sent| && f.num < |load.sent[f.stream]| && load.sent[f.stream][f.num] == f
  }

  /** What is promised of all runs under `load` with masks `k`: flagged at the start are the flawed frames; sources
      feed in what they are given, conveyors fill and are chosen as configured; while frames are under way some
      worker can go on; at rest a frame has passed through exactly if it was dropped nowhere; and in every state
      exactly those frames have whose 64-bit mask is full. */
  ghost predicate RunsWell(it: Item, nodes: seq<Path>, load: Load, c: Config, k: Masks)
    requires WellFormed(it)
  {
    && c.Valid() && Mean(c, k)
    && (forall st :: Protocol.Init(c, st) ==> st.invalid == load.flawed)
    && (forall st, s: nat :: Reachable(c, st) && s < |load.sent| ==> FedInOrder(load, st, s))
    && (forall st, m: nat, slot: nat :: Reachable(c, st) && Task(m, slot) in st.queue ==>
          ConveyorAsLoaded(load, st, m, slot))
    && (forall st :: Reachable(c, st) && !Quiescent(st) ==> exists step :: Progress(step) && Enabled(c, st, step))
    && (forall st, f :: Reachable(c, st) && Quiescent(st) && Sends(load, f) ==>
          DeliveredAtRest(it, nodes, load, st, f))
    && (forall states: seq<State>, steps, bits: seq<Bits>, i: nat ::
          BitRun(c, k, states, steps, bits) && i < |states| ==> FullIsPassed(k, states[i], bits[i]))
  }

  ghost predicate FedInOrder(load: Load, st: State, s: nat) {
    && s < |load.sent| && Source(s) in st.queue && Source(s) in st.taken
    && st.taken[Source(s)] + st.queue[Source(s)] == load.sent[s]
  }

  /** The conveyor is within its bound, and has had exactly the frames pushed to its module whose stream index,
      modulo the parallelism, is its number. */
  ghost predicate ConveyorAsLoaded(load: Load, st: State, m: nat, slot: nat) {
    && Task(m, slot) in st.queue && Task(m, slot) in st.taken
    && m < |load.parallelism| == |load.capacity| && slot < load.parallelism[m] && |load.streamIdx| == |load.head|
    && |st.queue[Task(m, slot)]| <= load.capacity[m]
    && forall f :: f in st.queue[Task(m, slot)] || f in st.taken[Task(m, slot)] <==>
         && f in st.flow && f.stream < |load.head|
         && slot == load.streamIdx[f.stream] % load.parallelism[m]
         && exists p :: FrameFlow.Delivered(m, p) in st.flow[f].trail
  }

  ghost predicate DeliveredAtRest(it: Item, nodes: seq<Path>, load: Load, st: State, f: Frame)
    requires WellFormed(it)
  {
    && f in st.flow && f.stream < |load.head|
    && ((forall m: nat :: FrameFlow.Dropped(m) !in st.flow[f].trail) <==> f in st.passed)
    && (f in st.passed ==>
          forall j: nat :: OnRoute(it, nodes, load.head[f.stream], j) ==>
            FrameFlow.Taken(j) in st.flow[f].trail && FrameFlow.Marked(j) in st.flow[f].trail)
    && (forall j: nat :: j in st.flow[f].stage ==> OnRoute(it, nodes, load.head[f.stream], j))
  }

  ghost predicate FullIsPassed(k: Masks, st: State, b: Bits) {
    forall f :: f in st.flow ==> f in b.mask && (f in st.passed <==> b.mask[f] == k.all)
  }

  function MasksOf(b: Built): Masks {
    Masks(b.ids, b.all, b.parents, b.routes)
  }

  lemma LoadIsAccepted(it: Item, b: Built, limits: map<Path, Limits>, load: Load)
    requires WellFormed(it) && IsPipeline(it, b) && Loads(it, b.nodes, limits, load)
    requires (forall p :: IsNode(it, p) ==> p in limits) && RoomForAll(it, limits)
    ensures Accepted(it, b.nodes, load)
  {
    hide Parentless;
    hide IsHead;
    hide IsNode;
    forall m: nat | m < |b.nodes| && !Parentless(it, b.nodes[m])
      ensures 0 < load.parallelism[m] && 0 < load.capacity[m]
    {
      assert b.nodes[m] in b.nodes;
      assert Positive(limits[b.nodes[m]]);
    }
  }

  /** Whatever is fed into the heads of a pipeline that was built of a bridged graph, its runs go well. */
  lemma BuiltRunsWell(it: Item, b: Built, load: Load)
    requires WellFormed(it) && Bridged(it) && IsPipeline(it, b) && Accepted(it, b.nodes, load)
    ensures RunsWell(it, b.nodes, load, ConfigFrom(it, b.nodes, b.next, load), MasksOf(b))
  {
    hide WellFormed;
    hide Bridged;
    hide Accepted;
    hide Config.Valid;
    hide Mean;
    hide Sends;
    hide FedInOrder;
    hide ConveyorAsLoaded;
    hide DeliveredAtRest;
    var c, k := ConfigFrom(it, b.nodes, b.next, load), MasksOf(b);
    PipelineMasks(it, b.nodes, b.next, load, b.sorted, k);
    hide MasksMean;
    forall st | Protocol.Init(c, st) ensures st.invalid == load.flawed { }
    hide ConfigFrom;
    forall st | Reachable(c, st) && !Quiescent(st) ensures exists step :: Progress(step) && Enabled(c, st, step) {
      var step := PipelineGoesOn(it, b.nodes, b.next, load, b.sorted, st);
    }
    forall st, s: nat | Reachable(c, st) && s < |load.sent| ensures FedInOrder(load, st, s) {
      FeedsAsLoaded(it, b, load, st, s);
    }
    forall st, m: nat, slot: nat | Reachable(c, st) && Task(m, slot) in st.queue
      ensures ConveyorAsLoaded(load, st, m, slot)
    {
      ConveysAsLoaded(it, b, load, st, m, slot);
    }
    forall st, f | Reachable(c, st) && Quiescent(st) && Sends(load, f)
      ensures DeliveredAtRest(it, b.nodes, load, st, f)
    {
      RestsWell(it, b, load, st, f);
    }
    forall states: seq<State>, steps, bits: seq<Bits>, i: nat | BitRun(c, k, states, steps, bits) && i < |states|
      ensures FullIsPassed(k, states[i], bits[i])
    {
      forall f | f in states[i].flow
        ensures f in bits[i].mask && (f in states[i].passed <==> bits[i].mask[f] == k.all)
      {
        PassedIsFull(c, k, states, steps, bits, i, f);
      }
    }
  }

  lemma FeedsAsLoaded(it: Item, b: Built, load: Load, st: State, s: nat)
    requires WellFormed(it) && s < |load.sent| && ConfigFrom(it, b.nodes, b.next, load).Valid()
    requires Reachable(ConfigFrom(it, b.nodes, b.next, load), st)
    ensures FedInOrder(load, st, s)
  {
    hide WellFormed;
    hide Config.Valid;
    hide Reachable;
    SourcesFeedAll(ConfigFrom(it, b.nodes, b.next, load), st, s);
  }

  lemma ConveysAsLoaded(it: Item, b: Built, load: Load, st: State, m: nat, slot: nat)
    requires WellFormed(it) && ConfigFrom(it, b.nodes, b.next, load).Valid()
    requires Reachable(ConfigFrom(it, b.nodes, b.next, load), st) && Task(m, slot) in st.queue
    ensures ConveyorAsLoaded(load, st, m, slot)
  {
    hide WellFormed;
    hide Config.Valid;
    hide Reachable;
    var c := ConfigFrom(it, b.nodes, b.next, load);
    ConveyorsAreBounded(c, st, m, slot);
    forall f ensures f in st.queue[Task(m, slot)] || f in st.taken[Task(m, slot)] <==>
        && f in st.flow && f.stream < |c.head|
        && slot == c.streamIdx[f.stream] % c.parallelism[m]
        && exists p :: FrameFlow.Delivered(m, p) in st.flow[f].trail
    {
      ConveyorOfStream(c, st, m, slot, f);
    }
  }

  lemma RestsWell(it: Item, b: Built, load: Load, st: State, f: Frame)
    requires WellFormed(it) && IsPipeline(it, b) && Accepted(it, b.nodes, load) && Sends(load, f)
    requires ConfigFrom(it, b.nodes, b.next, load).Valid()
    requires Reachable(ConfigFrom(it, b.nodes, b.next, load), st) && Quiescent(st)
    ensures DeliveredAtRest(it, b.nodes, load, st, f)
  {
    hide WellFormed;
    hide Accepted;
    hide Config.Valid;
    hide Reachable;
    hide Quiescent;
    hide IsNext;
    hide MasksMean;
    assert f in ConfigFrom(it, b.nodes, b.next, load).Frames();
    PipelineDelivers(it, b.nodes, b.next, load, b.sorted, st, f);
  }

  /** BuildPipeline: it succeeds exactly if there is a graph to build and its modules can be made and connected;
      and if that graph is bridged, the runs of the pipeline go well whatever is fed into its heads. */
  method BuildPipeline(files: Files, c: GraphConfig, name: string, makes: set<Path>, limits: map<Path, Limits>)
    returns (ok: bool, it: Item, b: Built, connectors: seq<Option<Limits>>)
    requires Parsed(c) && AllParsed(files) && Walkable(files, c, name, limits)
    ensures ok <==> Buildable(files, c, name, makes, limits)
    ensures ok ==> Builds(files, c, name, true, {}, it) && IsPipeline(it, b)
    ensures ok ==> |b.parents| == |b.nodes| && (forall p :: p in b.nodes ==> p in limits) &&
                   Connected(b.nodes, b.parents, limits, connectors)
    ensures ok && Bridged(it) ==> forall load :: Loads(it, b.nodes, limits, load) ==>
                                    RunsWell(it, b.nodes, load, ConfigFrom(it, b.nodes, b.next, load), MasksOf(b))
  {
    hide Builds;
    hide IsPipeline;
    hide Connected;
    hide RunsWell;
    hide ConfigFrom;
    hide Loads;
    b, connectors := Built([], [], [], 0, [], [], []), [];
    var built, graph, _ := BuildRoot(files, c, name);
    it := graph;
    if !built { return false, it, b, connectors; }
    ok, b, connectors := BuildOf(it, makes, limits);
    OnlyGraph(files, c, name, it, makes, limits);
    if ok && Bridged(it) {
      forall load | Loads(it, b.nodes, limits, load)
        ensures RunsWell(it, b.nodes, load, ConfigFrom(it, b.nodes, b.next, load), MasksOf(b))
      {
        LoadIsAccepted(it, b, limits, load);
        BuiltRunsWell(it, b, load);
      }
    }
  }

  /** The graph that is built is the only one that the configuration describes. */
  lemma OnlyGraph(
      files: Files, c: GraphConfig, name: string, it: Item, makes: set<Path>, limits: map<Path, Limits>)
    requires Builds(files, c, name, true, {}, it)
    ensures Buildable(files, c, name, makes, limits) <==> Makeable(it, makes, limits)
  {
    forall x | Builds(files, c, name, true, {}, x) ensures x == it { MirrorsUnique(files, c, x, it); }
  }
}
