# Verified model of UNIStream's pipeline core

UNIStream builds a graph of modules, possibly with graphs nested in it, and runs worker threads that
pass frames along bounded queues. Whether a frame may enter a module is decided by a 64-bit mask that
the frame carries. This project models that core in Dafny, and two smaller parts that stand beside it.

**Routing** (`FrameFlow`, `FrameProgress`, `Protocol`, `ProtocolInvariant`, `ProtocolTheorems`,
`ProtocolCauses`, `ProtocolConveyors`). The
threads are a transition system: each step is a queue operation of one worker, or a stretch of its code
with one locked access to a frame. `FrameFlow` is the passage of one frame: every module that has the
frame in hand may act at any time. `Protocol` runs one such flow per frame and adds queues, workers,
removed streams, failing and flagging modules. `ProtocolInvariant` proves what every step keeps;
`ProtocolTheorems` states what holds in all runs: joins fire once and by the last parent, streams stay in
order, no deadlock with bounded queues, a bound on the steps of every run other than retries and changes
to the removed streams, completion, and no end-of-stream mark is lost. `ProtocolCauses` says of the steps of
a run exactly which of them drop a frame, for good, and which flag it; `ProtocolConveyors` on which conveyor a
frame is queued, and how far conveyors fill.

Three steps join accesses that the code makes one after the other, and no behaviour is lost by it.
Process and Mark also read whether the stream is removed; a removal that falls between the two accesses is
matched by a run in which the removal is taken back just before the step and renewed just after. Enter
joins the guard for empty masks, the invalid flag and SetModulesMask; past the head the guard never
refuses, and at the head no other worker has the frame. Mark joins MarkPassed and OnPassThrough; a later
frame of the stream cannot overtake there, because it is full only once the worker that marked the earlier
frame last has marked it too, which that worker does after it has finished the earlier frame.

**The graph below it** (`Digraph`, `DagAlgorithm`, `Dfs`, `DfsIterator`, `NestedGraph`, `NestedExact`,
`NestedDfs`, `NestedRun`, `NestedDfsTheorems`, `GraphIterator`, `NestedBuild`, `Names`, `GraphBuild`,
`GraphReading`).
`DAGAlgorithm` with its topological sort and its resumable depth-first iterator; graphs within graphs, the
`next_` links that their nesting stands for, and the iterator over all levels; building from configuration
files; names. `GraphReading` reads what is built off the fields of the configuration: names, edges, files.

**The joint between the two** (`ModuleMask`, `Pipelines`, `PipelineRuns`, `MaskRuns`, `PipelineBuild`,
`Connectors`). Masks are 64-bit vectors here, module ids come from `GetModuleIdx`, and the loops of
`GenerateModulesMask` are proved to compute the sets that `FrameFlow` works with. `MaskRuns` carries the
64-bit masks along the runs: in every reachable state they stand for the sets of the protocol, and every
test on them decides as the protocol does. `PipelineBuild` puts all of it together: `BuildPipeline` goes
from a configuration and its files to a pipeline, says exactly when that succeeds, and promises of all runs
of a pipeline whose graph is `Bridged` what the theorems about routing say. A node is the sequence of vertex
indices that leads to it; module number `k` is the `k`-th module in the order of traversal, and `ids[k]` is
its id.

**Beside it**: the sort and the non-maximum suppression of detections (`Detections`), buffer pools with
the descriptors they share (`MemPool`, `SurfaceService`) and the layout of frames in memory
(`PlaneLayout`).

Iteration over a graph is stated by stepping: `Visits(it, x, out)` says that from position `x` every
operator* has a module, that operator++ leads from one position to the next and at last to the end, and that
`out` is what is given on the way. Four properties of a graph say exactly when that does what it should:

- `Solid`: every subgraph that has vertices has modules, at every depth; just then the run from DFSBegin goes
  through, and visits every module once (`IterateAll`). `HollowSubgraphHasNoCurrent` fails at once.
- `Passable`: at every level, every vertex that a vertex with a module reaches is solid and, if it has
  vertices, has a module; just then the runs from all nodes go through (`IterateFrom`, node by node).
  `HollowEndBreaksIteration` is a bridged graph whose run from a node steps onto a position without a module.
- `Bridged`: where a vertex with modules comes after another, every module of the one has a tail below it,
  every module of the other a head above it, and some way between the two leads only through vertices with
  modules; just then what lies below a node is what `next_` reaches from it (`ExactIffBridged`). Together with
  `Passable` this is exactly when iterating from every node is reachability through `next_`
  (`IterationIsReachabilityIff`). `EmptySubgraphBreaksReachability` is a solid graph that is not bridged.
- `Linked`: a vertex with heads that follows other vertices follows one with tails; just then heads are the
  nodes without parents (`HeadsExactIffLinked`). No other result needs it; in a graph that is not linked, some
  module without parents gets no route mask, and the theorems speak of frames that are fed into heads.

Solid graphs are passable, and a graph without empty subgraphs has all four.

Where the code and its documentation differ, the code is followed:

- `UNIGraph::Init` is documented to fail on circular nesting. Below the first level it refuses any file
  that is used twice, circular or not: `BuildRoot` states exactly when it succeeds, and
  `SharedFileIsRefused` is a configuration that is free of loops and refused.
- `ReturnModuleIdx` shifts an int. Returning id 31 frees all ids above it as well (`ReturnFreesAnother`);
  it frees that id alone exactly if no id above is taken, and below 31 always (`ReturnsOneIff`). From 32 on
  the shift is undefined, and its outcome is a parameter.
- A node's DFSBegin looks the node up by its full name. If the root has no name, that fails for nodes in
  subgraphs, and only for these (`DfsBeginStartsAtNode`); `Findable` is that condition.
- The sizes of planes are computed on 32 bits. `ComputedIsExact` says exactly when the result is the layout
  meant, for every alignment, and `WrapLosesThePlane` is a picture for which the block has no bytes.

## Model

| member | source | states |
|---|---|---|
| ProtocolTheorems.JoinsFireOnce | framework/src/unistream_pipeline.cpp:402-426 | In every reachable state of every interleaving, a frame has been pushed to a module at most once, only after all parents marked it, and by the parent that completed them; no join whose parents have all marked is skipped for good |
| ProtocolTheorems.StreamOrder | framework/src/unistream_pipeline.cpp:411-426 | Two frames of one stream that reach the same module are taken there by the same worker, in the order in which the source sent them; which worker that is says ConveyorOfStream |
| ProtocolConveyors.ConveyorOfStream | framework/src/unistream_pipeline.cpp:419-422 | In every reachable state, conveyor k of a module has or has had exactly the frames that were pushed to the module and whose stream index modulo the number of conveyors is k |
| ProtocolConveyors.ConveyorsAreBounded | framework/src/conveyor.cpp:42-52 | In every reachable state no conveyor holds more frames than its bound |
| ProtocolConveyors.RetryExactly | framework/src/unistream_pipeline.cpp:419-425 | A push is retried exactly while conveyor GetStreamIndex() % GetConveyorCount() of the next module holds as many frames as its bound |
| ProtocolConveyors.SourcesFeedAll | framework/src/unistream_source.cpp:197-202 | In every reachable state, what a source has fed in and has still to feed in is what it was given, in order |
| ProtocolTheorems.NoDeadlock | framework/src/unistream_pipeline.cpp:421-449 | From every sound state with a frame queued or in hand, some worker has an enabled step that is not a retry |
| ProtocolTheorems.RunsAreBounded | framework/src/unistream_pipeline.cpp:383-451 | In every run the number of steps that are not retries or removals is at most the work at the start, an explicit measure |
| ProtocolTheorems.StepLowersWork | framework/src/unistream_pipeline.cpp:383-451 | Every such step lowers the measure; retries and removals leave it as it is |
| ProtocolTheorems.Completion | framework/src/unistream_pipeline.cpp:383-408 | When all is quiet, a frame's mask is full and OnPassThrough was called for it exactly if no module dropped it, and then every module on its route took and marked it |
| ProtocolTheorems.DropsHaveCause | framework/src/unistream_module.cpp:97-122 | A module drops a frame only if the frame is invalid, or if it carries data and its stream is removed or Process has just failed on it; that these do lead to a drop says DropsExactly |
| ProtocolCauses.DropsExactly | framework/src/unistream_module.cpp:97-122 | In every state of every run, a module has dropped a frame if and only if in some step before, its worker had the frame in hand and Process failed, the frame was invalid, or its stream was removed, as the code checks them |
| ProtocolCauses.StoppedForGood | framework/src/unistream_pipeline.cpp:383-398 | So it is of every frame that something stops: an invalid flag past ProvideData, a removed stream at a source or before marking; nor is it pushed on from there |
| ProtocolCauses.FailedGoesNoFurther | framework/src/unistream_module.cpp:109-113 | A data frame on which Process fails in a TaskLoop, its stream not removed, is dropped there in every later state, never marked there, and never passes through |
| ProtocolCauses.StepBringsOn | framework/src/unistream_pipeline.cpp:383-408 | A step of a worker with a frame in hand hands it on, lets it past the checks or marks it unless something stops the frame, and else drops it there |
| ProtocolCauses.InvalidExactly | framework/src/unistream_module.cpp:107-114 | In every state of every run a frame is invalid exactly if it was sent so or Process of a TaskLoop has flagged it |
| ProtocolCauses.StepRemoves | framework/src/unistream_frame.cpp:70-83 | A stream is removed exactly if the latest SetStreamRemoved for it was with true |
| ProtocolTheorems.CleanRunsComplete | framework/src/unistream_pipeline.cpp:383-451 | In a run in which Process never fails and no stream is removed, once all is quiet every frame sent has a full mask and has passed through |
| ProtocolTheorems.EosIsNeverLost | framework/src/unistream_module.cpp:97-119 | With removals and failures interleaved at will, no module drops an end-of-stream frame that was not sent invalid, and at rest its EOS_MSG has been posted |
| ProtocolTheorems.PassedInOrder | framework/src/unistream_pipeline.cpp:370-381 | OnPassThrough is called at most once per frame and in stream order, EOS_MSGs are posted for exactly the end-of-stream frames among these, and when a later frame has passed the earlier ones are past every module that has them |
| ProtocolTheorems.MaskMeaning | framework/src/unistream_pipeline.cpp:388-402 | Once marked by its head, a frame's mask is the modules off the head's route together with those that marked it; no module off the route ever gets the frame |
| ProtocolTheorems.RunInv | framework/src/unistream_pipeline.cpp:383-451 | Every state of every run satisfies the invariant |
| ProtocolInvariant.InitInv | framework/src/unistream_pipeline.cpp:295-309 | The invariant holds when all queues are empty and nothing has been sent |
| ProtocolInvariant.StepInv | framework/src/unistream_pipeline.cpp:383-451 | Every step of every worker keeps the invariant: queues, hands and histories agree with the frames' stages, queues are in stream order, a module that marked a frame is through with earlier ones |
| ProtocolInvariant.KeepsOrder | framework/src/unistream_pipeline.cpp:411-426 | Taking, marking and pushing keep each conveyor in stream order, also where several parents feed a join |
| ProtocolInvariant.KeepsLinked | framework/src/unistream_pipeline.cpp:429-451 | Every action keeps it true that a frame is queued, in hand or in the history of a worker exactly if its stage at that module says so |
| ProtocolInvariant.GuardNeverRejects | framework/src/unistream_pipeline.cpp:223-229 | The check for an empty mask never refuses a frame that came to a module through its queue |
| ProtocolInvariant.ChoiceIsSafe | framework/src/unistream_module.cpp:97-122 | Among the branches of DoProcess, SendData and TransmitData only an invalid flag set at the source stops an end-of-stream frame, and no frame flawed so gets past the check |
| FrameFlow.ActInv | framework/src/unistream_pipeline.cpp:383-427 | Every action of every module that has the frame keeps the frame's invariant |
| FrameFlow.KeepsNeverSkipped | framework/src/unistream_frame.cpp:142-146 | As marking and reading the mask is one atomic step, concurrent parents never both skip a join: whenever all parents have marked, the join has the frame or one parent still owes it |
| FrameFlow.KeepsNeverTwice | framework/src/unistream_frame.cpp:142-146 | Nor do they both push: a module is owed the frame by at most one parent, and by none once it has it |
| FrameFlow.PushFacts | framework/src/unistream_pipeline.cpp:411-422 | A push goes to a module on the route that does not have the frame and all of whose parents have marked |
| FrameProgress.SettledPasses | framework/src/unistream_pipeline.cpp:402-408 | A frame that no module has in hand passed through exactly if it was dropped nowhere |
| FrameProgress.ActLowersRemaining | framework/src/unistream_pipeline.cpp:383-427 | Every action on a frame lowers the number of actions the frame can still cause |
| PipelineRuns.ConfigIsValid | framework/src/unistream_pipeline.cpp:277-309 | Every accepted load of every well-formed graph is a valid configuration of the protocol, ranked by any topological order |
| PipelineRuns.PipelineGoesOn | framework/src/unistream_pipeline.cpp:421-449 | A pipeline built from such a graph never deadlocks |
| PipelineRuns.PipelineDelivers | framework/src/unistream_pipeline.cpp:383-427 | At rest, a frame that was dropped nowhere has been taken and marked by the modules that `next_` reaches from its head, and no other module has seen it |
| MaskRuns.BitStep | framework/src/unistream_pipeline.cpp:223-229 | One step of any worker, from any sound state in which bits and sets agree, keeps them together, the guard of ProvideData included |
| MaskRuns.MasksFollowRuns | framework/src/unistream_pipeline.cpp:383-427 | In every state of every run each frame's 64-bit mask, and each `cur_mask`, stands for the set the protocol has; the tests for an empty mask, for all parents and for all modules decide on bits what the protocol decides on sets |
| MaskRuns.PassedIsFull | framework/src/unistream_pipeline.cpp:402-408 | In every state of every run, OnPassThrough has been called for exactly the frames whose 64-bit mask equals `all_modules_mask_` |
| MaskRuns.PipelineMasks | framework/src/unistream_pipeline.cpp:277-293 | The masks that are built for a bridged graph are those that `MaskRuns` needs, whatever is fed into the pipeline |
| Pipelines.NetIsValid | framework/src/unistream_pipeline.cpp:277-293 | The network from a head of any well-formed graph has the properties that routing assumes: no self-parent, head without parents, routes closed under GetNext and each other module on a route with a parent on it |
| Pipelines.NetIsRanked | framework/src/unistream_graph.hpp:788-807 | The places in a topological order rank the network from every head |
| Pipelines.ParentMasks | framework/src/unistream_pipeline.cpp:277-284 | The first loop leaves in each mask exactly the bits of the modules that list it in GetNext |
| Pipelines.RouteMask | framework/src/unistream_pipeline.cpp:286-292 | For a head that can be found by its name and from which iterating goes through, the second loop collects exactly the modules below it by the nesting; in a bridged graph, exactly those that `next_` reaches from it |
| Pipelines.IteratedIsRoute | framework/src/unistream_pipeline.cpp:288-291 | In a bridged graph what iterating from a module visits is what `next_` reaches from it |
| Pipelines.GenerateModulesMask | framework/src/unistream_pipeline.cpp:277-293 | In a solid graph whose heads can be found by name, `parent_nodes_mask` stands for the parents and is 0 exactly for the nodes without parents; `route_mask` of a head stands for what iterating from it visits, and is 0 elsewhere |
| Pipelines.MasksFollowTheFlow | framework/src/unistream_pipeline.cpp:388-408 | SetModulesMask, MarkPassed and the test against all modules compute on 64-bit masks what the flow computes on sets |
| Pipelines.PushTestFollowsTheFlow | framework/src/unistream_pipeline.cpp:311-314 | The test for all parents holds on masks exactly if the flow allows the push, and fails exactly if it allows the skip |
| Pipelines.CreateModules | framework/src/unistream_pipeline.cpp:246-268 | Succeeds exactly if the factory makes every module of the graph, and lists them in the order of traversal |
| Pipelines.CreateConnectors | framework/src/unistream_pipeline.cpp:295-309 | Succeeds exactly if every module with a parent has positive parallelism and queue size; heads get no connector, the others one as configured |
| Pipelines.BuildOf | framework/src/unistream_pipeline.cpp:95-112 | For an initialised graph: succeeds exactly if the factory makes every module and every module with a parent has positive parallelism and queue size; then modules are numbered, masks mean parents and routes, connectors are as configured, and every head has a valid network, ranked by the order of TopoSort |
| PipelineBuilds.BuildPipeline | framework/src/unistream_pipeline.cpp:88-113 | From configuration and files: succeeds exactly if they describe a graph that can be built, whose modules can be made and connected; the pipeline is that of this graph; and if the graph is bridged, then whatever is fed into its heads, in all runs sources feed in what they are given, each conveyor keeps its configured bound and has the frames of the streams whose index modulo the configured parallelism is its number, some worker can go on while frames are under way, at rest a frame has passed exactly if it was dropped nowhere and then all modules that `next_` reaches from its head took and marked it, and in every state the frames passed are those whose 64-bit mask is full |
| PipelineBuilds.BuiltRunsWell | framework/src/unistream_pipeline.cpp:277-451 | The same of every pipeline built from a bridged graph, by whatever means |
| ModuleMasks.ModuleIdx.GetModuleIdx | framework/src/unistream_pipeline.cpp:578-587 | Gives the lowest free id and takes it, or the invalid id exactly when all 64 are taken |
| ModuleMasks.ModuleIdx.ReturnModuleIdx | framework/src/unistream_pipeline.cpp:589-595 | Frees the id, and no other exactly if it is below 31 or is 31 and none above is taken; ids of 64 and above are ignored |
| ModuleMasks.ReturnsOneIff | framework/src/unistream_pipeline.cpp:589-595 | Returning an id of at most 31 frees it and no other if and only if it is below 31 or no id above 31 is taken |
| ModuleMasks.ReturnFreesAnother | framework/src/unistream_pipeline.cpp:589-595 | With 41 ids given out, returning 31 frees 40 too |
| ModuleMasks.NumberModules | framework/src/unistream_pipeline.cpp:246-268 | Up to 64 modules get different ids and `all_modules_mask_` stands for all of them |
| ModuleMasks.SubsetStands | framework/src/unistream_pipeline.cpp:311-314 | `(mask & parents) == parents` exactly if the set of parents is contained in the set of the mask |
| ModuleMasks.EqualStands | framework/include/unistream_pipeline.hpp:437 | Masks are equal exactly if the sets they stand for are |
| ModuleMasks.XorStands | framework/src/unistream_pipeline.cpp:388-392 | Xor with a route mask within all modules stands for the difference |
| ModuleMasks.OrStands | framework/src/unistream_frame.cpp:142-146 | Or-ing in a module's bit adds that module |
| Connectors.Conveyor.PushDataBuffer | framework/src/conveyor.cpp:42-52 | Accepts exactly below the bound, appends at the end; otherwise nothing changes but the count of refusals |
| Connectors.Conveyor.PopDataBuffer | framework/src/conveyor.cpp:59-68 | Takes the oldest element; what was accepted is what was removed followed by what is queued |
| Connectors.Conveyor.PopAllDataBuffer | framework/src/conveyor.cpp:70-80 | Returns the whole queue in order and leaves it empty |
| Connectors.Connector.PushDataBufferToConveyor | framework/src/connector.cpp:69-71 | Appends to the conveyor with that index exactly if it is below the capacity, and touches no other |
| Connectors.Connector.EmptyDataQueue | framework/src/connector.cpp:88-93 | Drains every conveyor of the connector |
| Connectors.StreamIdx.GetStreamIndex | framework/src/unistream_pipeline.cpp:547-562 | A stream keeps its index, different streams have different indices, and none is given exactly when all 128 are taken |
| Connectors.StreamIdx.ReturnStreamIndex | framework/src/unistream_pipeline.cpp:564-576 | Frees the index of that stream and of no other |
| Dag.DAGAlgorithm.AddEdge | framework/src/unistream_graph.hpp:448-454 | Refuses missing endpoints and existing edges, and keeps each indegree equal to the number of predecessors |
| Dag.DAGAlgorithm.GetHeads | framework/src/unistream_graph.cpp:41-47 | The vertices without predecessors, each once, in ascending order |
| Dag.DAGAlgorithm.GetTails | framework/src/unistream_graph.cpp:49-55 | The vertices without successors, each once |
| Dag.DAGAlgorithm.TopoSort | framework/src/unistream_graph.cpp:57-81 | Terminates and partitions the vertices; predecessors come first in the sorted part; the unsorted part is exactly the vertices on or behind a cycle, so empty exactly if there is none |
| Dag.KahnIsTopoSort | framework/src/unistream_graph.cpp:57-81 | A list closed under predecessors, beside a rest each of whose vertices has a predecessor in the rest, is such a partition |
| Dfs.YieldsTheRest | framework/src/unistream_graph.cpp:100-114 | From any point of a traversal, stepping yields each vertex reachable from the start set and not visited before, once, and comes to the end |
| Dfs.DfsFromVertex | framework/src/unistream_graph.cpp:92-98 | Iterating from a vertex yields it first, and what it reaches once each |
| Dfs.DfsOfAll | framework/src/unistream_graph.cpp:83-90 | On an acyclic graph, iterating from DFSBegin yields every vertex once |
| DfsIterators.DFSIterator.Next | framework/src/unistream_graph.cpp:100-114 | The loop over stack and visit marks does what the traversal's step function says |
| DfsIterators.DFSIterator.Collect | framework/src/unistream_graph.cpp:100-119 | Running the iterator to the end yields the traversal |
| NestedGraphs.BelowIsReach | framework/src/unistream_graph.hpp:892-917 | In a bridged graph, what lies below a node by the nesting is reached from it through `next_` |
| NestedGraphs.ReachIsBelow | framework/src/unistream_graph.hpp:892-917 | What is reached through `next_` lies below by the nesting, in every well-formed graph |
| NestedExact.ExactIffBridged | framework/src/unistream_graph.hpp:892-917 | Nesting order implies reachability through `next_` at all nodes if and only if the graph is bridged |
| NestedGraphs.HeadsExactIffLinked | framework/src/unistream_graph.hpp:981-1003 | At every node, being a head and having no parent agree, if and only if the graph is linked |
| NestedGraphs.HeadsAreParentless | framework/src/unistream_graph.hpp:981-1003 | No link leads to a head, whatever the graph |
| NestedDfs.StepTakesOne | framework/src/unistream_graph.hpp:476-511 | Wherever the vertices still to come are solid, operator* gives the first of the modules that are left and operator++ removes exactly that one, across all levels; nothing is left exactly at the end |
| NestedDfs.BeginRest | framework/src/unistream_graph.hpp:758-778 | In a solid graph, at DFSBegin all modules are left, and it is the end exactly if there are none |
| NestedDfsTheorems.IterateAll | framework/src/unistream_graph.hpp:758-778 | The run from DFSBegin goes through if and only if the graph is solid, and then visits every module of the graph at any depth, once |
| NestedDfsTheorems.IterateFrom | framework/src/unistream_graph.hpp:815-834 | The run from a node goes through if and only if the vertices that come after it are solid, at every level, and then visits first that node, and once each exactly the nodes below it by the nesting |
| NestedDfsTheorems.IterationIsReachability | framework/src/unistream_graph.hpp:476-511 | In a bridged graph, from a node after which all vertices are solid, the run goes through and visits first that node and then exactly what `next_` reaches from it, once each |
| NestedDfsTheorems.IterationIsReachabilityIff | framework/src/unistream_graph.hpp:476-511 | That holds of all nodes of a well-formed graph if and only if the graph is bridged and passable |
| NestedDfsTheorems.EmptySubgraphBreaksReachability | framework/src/unistream_graph.hpp:892-917 | With a subgraph without vertices in the middle of a solid graph, the run from a node visits a node that `next_` does not reach, and that node has no parent though it is not a head |
| NestedRun.HollowSubgraphHasNoCurrent | framework/src/unistream_graph.hpp:526-536 | With a subgraph that holds only an empty subgraph, DFSBegin stands short of the end with no module to give |
| NestedRun.RunIsGoodIffSolid | framework/src/unistream_graph.hpp:526-536 | At every position of the run from DFSBegin by operator++ the iterator has a module to give or is at the end, if and only if the graph is solid; the run then gives all modules |
| NestedRun.RunIsGoodIffAhead | framework/src/unistream_graph.hpp:476-511 | From any position, the run goes through if and only if the vertices still to come are solid, at every level, and gives exactly what is left |
| NestedRun.HollowEndBreaksIteration | framework/src/unistream_graph.hpp:476-511 | In a bridged graph whose second vertex holds only an empty subgraph, operator++ from the first steps onto a position short of the end with no module |
| GraphIterators.GraphIterator.Next | framework/src/unistream_graph.hpp:476-511 | The iterator object, with its sub-iterator changed in place, steps as the specification says |
| GraphIterators.GraphIterator.Begin | framework/src/unistream_graph.hpp:758-778 | DFSBegin, passing over empty subgraphs |
| GraphIterators.GraphIterator.BeginFrom | framework/src/unistream_graph.hpp:815-834 | DFSBeginFrom: an iterator per level, each standing at the vertex on the way to the node |
| GraphIterators.NodesFrom | framework/src/unistream_pipeline.cpp:288-291 | From a node after which all vertices are solid, the loop visits that node first and exactly the nodes below it; in a bridged graph, exactly what `next_` reaches |
| GraphIterators.GraphIterator.Collect | framework/src/unistream_pipeline.cpp:289 | The loop to DFSEnd gives what the run by operator++ visits, wherever stepping can go on |
| GraphIterators.AllNodes | framework/src/unistream_pipeline.cpp:248-266 | In a solid graph the loop visits every module once, level by level in the order of each level's traversal |
| NestedBuilds.FindHeadsAndTails | framework/src/unistream_graph.hpp:980-1003 | `heads_` and `tails_` hold exactly the heads and tails found through all levels, each once |
| NestedBuilds.InitEdges | framework/src/unistream_graph.hpp:891-917 | The `next_` sets hold exactly the links that the edges stand for |
| NestedBuilds.TopoSort | framework/src/unistream_graph.hpp:787-807 | Every module appears once, and every link through `next_` points forward |
| Names.NamesRoundTrip | framework/src/unistream_graph.hpp:711-756 | GetNodeByName of a node's full name finds that node if and only if the root's name has no slash, and is not empty unless the node is in the root itself |
| Names.FullNamesDiffer | framework/src/unistream_graph.hpp:549-551 | With a root name that is not empty and has no slash, different nodes have different full names |
| Names.DfsBeginStartsAtNode | framework/src/unistream_graph.hpp:815-834 | DFSBegin of a node, which goes by its full name, starts at that node if and only if the root's name is not empty or the node is in the root itself |
| Names.NodesFromNamed | framework/src/unistream_pipeline.cpp:288-291 | The same loop, with the node looked up by its full name as DFSBegin does it |
| Names.SplitJoin | framework/src/unistream_graph.hpp:712-723 | Splitting a name joined from pieces without slashes gives the pieces |
| Names.GetNodeByName | framework/src/unistream_graph.hpp:711-756 | With a slash, follows the pieces or fails; without one, finds the first module of that name in the order of traversal, or fails exactly if there is none |
| Names.ByFullNameIff | framework/src/unistream_graph.hpp:730-754 | A name with a slash finds a node if and only if it is the root's name, which has no slash, followed by the names on the way to the node; any other graph's name in front finds nothing |
| GraphBuilds.Init | framework/src/unistream_graph.hpp:626-672 | Succeeds exactly if there is a graph to build; the graph built is that one, `subgraph_paths` grows by exactly its files below the root, and the calls of Init are bounded and as many as there are graphs; what that graph is, in fields of the configuration, says BuildsIff |
| GraphBuilds.AddSubgraph | framework/src/unistream_graph.hpp:640-659 | Succeeds exactly if the name is valid and not taken and the subgraph can be built from its file, which below the root must be new; records exactly the files used |
| GraphBuilds.BuildRoot | framework/src/unistream_graph.hpp:626-672 | Succeeds exactly if the configuration and its files describe a graph without rings in which subgraphs below the first level all have different files; makes at most 1 + root subgraphs + files calls of Init; and then no file lies inside itself |
| GraphReadings.BuildsIff | framework/src/unistream_graph.hpp:626-672 | A graph is what can be built if and only if, at every level and each subgraph from its own file: its modules and subgraphs are those configured, under names without slash and colon and none twice, subgraphs with the prefix; its edges are exactly those named under `next` of modules and of subgraphs; every name there is that of a vertex; there is no ring; and below the root as many different files are reached as there are subgraphs, none of them taken before |
| GraphReadings.SubgraphLeadsOn | framework/src/unistream_graph.hpp:949-976 | Every tail of a subgraph has every head of each vertex that the subgraph's `next` names in its `next_` |
| GraphReadings.ModuleLeadsOn | framework/src/unistream_graph.hpp:921-948 | A module has every head of each vertex that its `next` names in its `next_` |
| GraphBuilds.MirrorsUnique | framework/src/unistream_graph.hpp:626-672 | A configuration and its files describe at most one graph, so what is built is determined |
| GraphBuilds.SharedFileIsRefused | framework/src/unistream_graph.hpp:648-657 | A configuration that describes a well-formed graph and has no loop, but names one file twice below the first level, is built into nothing |
| GraphBuilds.BuiltIsLoopFree | framework/src/unistream_graph.hpp:861-889 | In whatever a configuration was built into, a chain of files each named in the one before never repeats a file |
| Detections.Partition | samples/simple_run_pipeline/simple_run_pipeline.cpp:180-201 | The unguarded scans stay inside the range, the loop ends with both ends moved, and the range is rearranged around the pivot |
| Detections.QSort | samples/simple_run_pipeline/simple_run_pipeline.cpp:178-213 | Sorts its range by descending score, permutes only that range, and terminates |
| Detections.Sort | samples/simple_run_pipeline/simple_run_pipeline.cpp:215-222 | The array ends as a permutation in descending order, also when empty |
| Detections.OverlapIsSymmetric | samples/simple_run_pipeline/simple_run_pipeline.cpp:253-258 | Which of two boxes comes first does not matter to the test |
| Detections.IntersectionInUnion | samples/simple_run_pipeline/simple_run_pipeline.cpp:224-229 | For boxes without negative sides the ratio of intersection to union is a proportion |
| Detections.IntersectionIsArea | samples/simple_run_pipeline/simple_run_pipeline.cpp:224-229 | Otherwise it is the area of the rectangle of the points in both |
| Detections.NoIntersection | samples/simple_run_pipeline/simple_run_pipeline.cpp:224-229 | The intersection is nothing exactly if no point is in both rectangles |
| Detections.OverlapIsShare | samples/simple_run_pipeline/simple_run_pipeline.cpp:253-258 | Rectangles with areas overlap exactly if their intersection is more than the threshold of what they cover together |
| Detections.ApartDoNotOverlap | samples/simple_run_pipeline/simple_run_pipeline.cpp:253-258 | Rectangles without a common point overlap at no threshold that is not negative |
| Detections.InsideOverlaps | samples/simple_run_pipeline/simple_run_pipeline.cpp:253-258 | A rectangle inside another overlaps it exactly if it is more than the threshold of its area |
| Detections.EqualOverlap | samples/simple_run_pipeline/simple_run_pipeline.cpp:253-258 | Equal rectangles overlap exactly at thresholds below 1 |
| Detections.HigherThreshold | samples/simple_run_pipeline/simple_run_pipeline.cpp:257 | Raising the threshold never adds an overlap |
| Detections.Nms | samples/simple_run_pipeline/simple_run_pipeline.cpp:231-264 | Picks, in rising order, exactly the boxes that overlap no box picked before them; what overlapping is says OverlapIsShare |
| Detections.GreedyIsUnique | samples/simple_run_pipeline/simple_run_pipeline.cpp:231-264 | That condition determines the choice |
| Detections.NmsOfSorted | samples/simple_run_pipeline/simple_run_pipeline.cpp:231-264 | On sorted boxes, no two picked overlap beyond the threshold, and each rejected one overlaps a picked one of at least its score |
| Detections.NmsOfApartAndEqual | samples/simple_run_pipeline/simple_run_pipeline.cpp:231-264 | A box apart from all others is picked; after a picked box, none with the same rectangle is |
| Detections.NmsOfEqual | samples/simple_run_pipeline/simple_run_pipeline.cpp:231-264 | Of boxes with the same rectangle the first is picked and no other |
| Detections.Choose | samples/simple_run_pipeline/simple_run_pipeline.cpp:268-270 | The two composed, with both conclusions about the proposals |
| MemPools.RunConserves | easydk/src/uniedk_buf_surface_impl.cpp:83-180 | Over every sequence of operations by clients that free what they hold, with memory running out and coming back at any time, cached and handed-out blocks are apart and together the blocks allocated, and `alloc_count_` is the number handed out |
| MemPools.AfterKeeps | easydk/src/uniedk_buf_surface_impl.cpp:83-180 | Each operation keeps that balance, failing ones included |
| MemPools.AllocIsExclusive | easydk/src/uniedk_buf_surface_impl.cpp:133-159 | A block that is handed out was with nobody, and leaves the cache |
| MemPools.DestroyReturnsAll | easydk/src/uniedk_buf_surface_impl.cpp:101-131 | Destroy leaves nothing allocated and has returned each block to the allocator exactly once, also when the allocator cannot be destroyed |
| MemPools.CreateOrLeak | easydk/src/uniedk_buf_surface_impl.cpp:44-99 | Creating a pool without blocks succeeds exactly if the checks pass and all blocks can be allocated; if not, those allocated before stay allocated and Destroy does not return them |
| MemPools.RetryUsesWhatWasLeft | easydk/src/uniedk_buf_surface_impl.cpp:83-99 | When a later attempt finds enough memory, the pool has the blocks left by the failed one besides those asked for |
| MemPools.MemPool.Create | easydk/src/uniedk_buf_surface_impl.cpp:44-99 | Refuses if the pool exists or a check or the allocator fails; otherwise caches blocks until one cannot be had, and succeeds exactly if all could |
| MemPools.MemPool.Alloc | easydk/src/uniedk_buf_surface_impl.cpp:133-159 | Gives the oldest cached block, or fails and changes nothing |
| MemPools.MemPool.Free | easydk/src/uniedk_buf_surface_impl.cpp:161-180 | Puts the surface back at the end, its mapping reset exactly in device pools |
| MemPools.MemPool.Destroy | easydk/src/uniedk_buf_surface_impl.cpp:101-131 | Once no block is handed out, gives every cached block back; stays created if the allocator cannot be destroyed |
| SurfaceServices.SurfaceService.AllocSurface | easydk/src/uniedk_buf_surface.cpp:358-367 | The first free descriptor of the array if there is one, else what malloc gives; a descriptor that nobody holds, and those of the array stay accounted for |
| SurfaceServices.SurfaceService.FreeSurface | easydk/src/uniedk_buf_surface.cpp:369-376 | To the end of the free list exactly if it is of the array, otherwise to malloc's heap |
| SurfaceServices.SurfaceService.CreateSurfsPool | easydk/src/uniedk_buf_surface.cpp:346-356 | All descriptors of the array become free, once |
| SurfaceServices.SurfaceService.CreateFromPool | easydk/src/uniedk_buf_surface.cpp:85-104 | With any number of pools and loose surfaces behind the same descriptors: a block of the pool asked for under a descriptor of its own, every pool's balance kept, no other pool touched; if no descriptor can be had the block goes back |
| SurfaceServices.OthersStayBacked | easydk/src/uniedk_buf_surface.cpp:94-104 | A descriptor that comes or goes changes the balance of no pool but the one its surface names |
| SurfaceServices.SurfaceService.Create | easydk/src/uniedk_buf_surface.cpp:105-127 | A surface of no pool under a descriptor of its own; if no descriptor can be had the surface is destroyed again |
| SurfaceServices.SurfaceService.BufPoolCreate | easydk/src/uniedk_buf_surface.cpp:52-68 | A new pool with its blocks joins the others exactly if block number, checks and memory allow; the service still balances |
| SurfaceServices.SurfaceService.BufPoolDestroy | easydk/src/uniedk_buf_surface.cpp:69-84 | A pool is deleted exactly if it was created and its allocator could be destroyed; no descriptor in use belongs to it then |
| SurfaceServices.SurfaceService.Destroy | easydk/src/uniedk_buf_surface.cpp:129-152 | Finds the pool through the descriptor: the block goes back to the pool it came from and to no other, the descriptor is free, and every pool's balance is kept; surfaces of no pool are just dropped |
| PlaneLayouts.PlanesTile | easydk/src/uniedk_buf_surface_utils.cpp:39-118 | For every format, size and alignment, planes follow each other without gap or overlap, pitches are aligned and rows lie in their plane |
| PlaneLayouts.ComputedIsSampled | easydk/src/uniedk_buf_surface_utils.cpp:39-118 | Format by format: packed formats have one plane with all bytes of a pixel, planar ones full brightness and colours for two rows each, interleaved or in two planes of half width |
| PlaneLayouts.BytesNeeded | easydk/src/uniedk_buf_surface_utils.cpp:39-118 | Unaligned, a packed picture has 1, 2, 3 or 4 bytes a pixel by its format, and a planar one with even sides three bytes for every two pixels |
| PlaneLayouts.PlanesAreTight | easydk/src/uniedk_buf_surface_utils.cpp:48-49 | No pitch is larger than the alignment makes it, and no plane than its rows, aligned |
| PlaneLayouts.AddressesApart | easydk/src/uniedk_buf_surface_utils.cpp:39-118 | No two bytes of pixels of a frame share an address |
| PlaneLayouts.AddressInside | easydk/src/uniedk_buf_surface_impl_device.cpp:58-62 | Every byte of a pixel lies in its plane and in the block |
| PlaneLayouts.BatchApart | easydk/src/uniedk_buf_surface_impl_device.cpp:93-103 | Bytes of different frames of a batch have different addresses, and all lie inside the one allocation |
| PlaneLayouts.PlaneIsExact | easydk/src/uniedk_buf_surface_utils.cpp:48-49 | For all alignments of 32 bits, a plane comes out right if and only if bytes of a row plus alignment do not exceed 2^32 and, unless rows have no bytes, neither does height plus alignment, and the size is below 2^32 |
| PlaneLayouts.ComputedIsExact | easydk/src/uniedk_buf_surface_utils.cpp:39-118 | The layout computed is the layout meant if and only if that holds of every plane and every offset is below 2^32 |
| PlaneLayouts.WrapLosesThePlane | easydk/src/uniedk_buf_surface_utils.cpp:48-49 | For a grey picture of 65536 by 65536 the computed size is 0 where 2^32 is meant |
| PlaneLayouts.GetColorFormatInfo | easydk/src/uniedk_buf_surface_utils.cpp:39-118 | Fails exactly for the invalid format; gives the planes of the format as computed on 32 bits, the others cleared; for every alignment, that is the layout meant exactly if nothing wraps around, and then it tiles |
| PlaneLayouts.MemAllocatorDevice.Create | easydk/src/uniedk_buf_surface_impl_device.cpp:42-72 | Whatever the sizes: the block is exactly as large as the computed planes together, or the size asked for, aligned |
| PlaneLayouts.MemAllocatorDevice.Alloc | easydk/src/uniedk_buf_surface_impl_device.cpp:79-107 | Fails exactly if the allocation does; describes every frame; the slices of the batch lie apart inside what was allocated if and only if the size asked for has not wrapped around, and then no two bytes of the batch share an address if the layout fits 32 bits |
| PlaneLayouts.MemAllocatorDevice.Free | easydk/src/uniedk_buf_surface_impl_device.cpp:109-114 | The address that goes back to the device is the one that Alloc was given |

## Left out

- PipelineBuilds.BuildPipeline: nothing is said where the code's behaviour is undefined: with more than 64 modules it shifts by an invalid id, in a graph that is not solid CreateModules uses a null node, and a head in a subgraph of a root without a name is not found.
- MemPools.RetryUsesWhatWasLeft: one heap stands for the allocators of both attempts, which therefore have the same parameters.
- SurfaceServices.SurfaceService.Create: CheckParams and CreateSurface are one outcome, a block or none; DestroySurface is an outcome too.
- Connectors.Conveyor.PopDataBuffer: the wait is left out, so an empty queue gives nothing at once.
- ProtocolTheorems.NoDeadlock: time is left out; a retry is a step that changes nothing, without sleep or back-off.
- MemPools.MemPool.Destroy: the wait for `alloc_count_` is a condition on when the call may go on.
- Real threads, locks, priorities, the exit of TaskLoop: a step is atomic as its lock makes it, or joins accesses as told above, and workers never stop.
- Pipeline Stop and restart: checking the stop flag and pushing are two steps there, so queues need not be empty afterwards.
- Modules that transmit by themselves, other than sources: their code is elsewhere.
- The result of Module::TransmitData, which is inverted against its documentation, is not part of any contract.
- The nested graph is a value, built from the configuration; UNINode objects, shared pointers and the map from names to nodes become paths. Each iterator builds the DAGAlgorithm of its level where UNIGraph keeps it.
- JSON parsing and path resolution: a set of files with real paths and what they parse to; that parsing puts prefixed items among the subgraphs is assumed.
- VB pools, and several frames in the blocks of the system and VB allocators: they allocate a single block and bypass the count.
- BufSurfaceService::Copy where sizes differ, synchronisation and Memset: device calls, and no clear specification for the first.
- Floating point: scores and sides of boxes are reals, no NaN; two boxes without area do not compare.
- Geometry of OpenCV rectangles is taken as intersection and product of sides; OpenCV is not part of this model.
- The drawing, scaling and decoding around get_out_bbox, the profiler, event bus, logging, bindings and codecs: thin wrappers or foreign calls.
