/** The frame-routing protocol of `Pipeline`, as a transition system over its worker threads.

    A worker is either a source thread feeding one stream into its head module, or the
    `TaskLoop` thread of one conveyor of a non-head module.  What a worker does to its frame is an
    action of the frame's `Flow`; where it stands in `DoProcess` and `TransmitData` is that flow's stage.

    A step is an operation on a queue, or a stretch of code with one locked access to the frame that
    others may see or change.  Three steps join further accesses to that one, and lose no behaviour by it:
    - Process and Mark also read whether the stream is removed, a little earlier in the code.  A removal
      that falls in between is matched by a run in which SetRemoved takes back the removal just before
      the step and renews it just after.
    - Enter joins the guard, the invalid flag and SetModulesMask.  The outcome of the guard cannot change
      in between, and at a head no other worker has the frame.
    - Mark also calls OnPassThrough.  A later frame of the stream cannot overtake it there: it is full only
      when the worker that marked the earlier frame last has marked it too, and that worker first
      finishes the earlier frame.
 */
module Protocol {
  import opened FrameFlow

  /** A frame is known by its stream and its position among the frames its source sends. */
  datatype Frame = Frame(stream: nat, num: nat, eos: bool)

  datatype Worker = Source(stream: nat) | Task(mod: nat, slot: nat)

  datatype Config = Config(
    order: seq<seq<nat>>,     // per module: GetNext()
    parents: seq<set<nat>>,   // per module: parent_nodes_mask
    all: set<nat>,            // all_modules_mask_
    parallelism: seq<nat>,    // per module: conveyors
    capacity: seq<nat>,       // per module: max_input_queue_size
    head: seq<nat>,           // per stream: the head module it is fed into
    route: seq<set<nat>>,     // per stream: route_mask of that head
    streamIdx: seq<nat>,      // per stream: UNIFrameInfo::channel_idx
    sent: seq<seq<Frame>>,    // per stream: what the source sends, in order
    flawed: set<Frame>        // frames that carry the invalid flag from the start
  ) {
    ghost predicate Valid() {
      && |parallelism| == |capacity| == |parents| == |order|
      // CreateConnectors
      && (forall m :: 0 <= m < |order| && parents[m] != {} ==> 0 < parallelism[m] && 0 < capacity[m])
      && |route| == |streamIdx| == |sent| == |head|
      && (forall s :: 0 <= s < |head| ==> NetOf(s).Valid())
      && (forall s, i :: 0 <= s < |sent| && 0 <= i < |sent[s]| ==> sent[s][i].stream == s && sent[s][i].num == i)
    }

    function NetOf(s: nat): Net
      requires s < |head| == |route|
    {
      Net(order, parents, all, head[s], route[s])
    }

    ghost function Frames(): set<Frame> {
      set s, i | 0 <= s < |sent| && 0 <= i < |sent[s]| :: sent[s][i]
    }

    ghost function Workers(): set<Worker> {
      (set s | 0 <= s < |head| :: Source(s))
      + (set m, k |
           0 <= m < |order| && m < |parents| && m < |parallelism| && parents[m] != {} && 0 <= k < parallelism[m] ::
           Task(m, k))
    }

    function Mod(w: Worker): nat
      requires w.Source? ==> w.stream < |head|
    {
      if w.Source? then head[w.stream] else w.mod
    }

    /** The worker that handles a stream at a module: the source thread at the head, elsewhere
        conveyor `GetStreamIndex() % GetConveyorCount()`. */
    function WorkerOf(m: nat, s: nat): Worker
      requires m < |parents| == |parallelism| && s < |streamIdx|
      requires parents[m] != {} ==> 0 < parallelism[m]
    {
      if parents[m] == {} then Source(s) else Task(m, streamIdx[s] % parallelism[m])
    }
  }

  datatype State = State(
    queue: map<Worker, seq<Frame>>, // a conveyor; for a source, what it has still to send
    busy: map<Worker, Frame>,       // the frame a worker has in hand
    flow: map<Frame, Flow>,
    invalid: set<Frame>,            // UNI_FRAME_FLAG_INVALID
    removed: set<nat>,              // streams for which IsStreamRemoved holds
    taken: map<Worker, seq<Frame>>, // history: what each worker has taken, in order
    passed: seq<Frame>,             // the calls of OnPassThrough
    eosMessages: seq<Frame>         // the EOS_MSGs posted
  )

  ghost predicate Init(c: Config, st: State)
    requires c.Valid()
  {
    && st.queue.Keys == st.taken.Keys == c.Workers()
    && (forall w :: w in st.queue ==> st.queue[w] == if w.Source? then c.sent[w.stream] else [])
    && (forall w :: w in st.taken ==> st.taken[w] == [])
    && st.busy == map[]
    && st.flow.Keys == c.Frames()
    && (forall f :: f in st.flow ==> f.stream < |c.head| && st.flow[f] == Fresh(c.head[f.stream]))
    && st.invalid == c.flawed
    && st.passed == st.eosMessages == []
  }

  datatype Step =
    | Pop(w: Worker)                             // PopDataBuffer, or the source's next frame
    | Process(w: Worker, ok: bool, flag: bool)   // DoProcess or SendData, up to ProvideData
    | Enter(w: Worker)                           // ProvideData's guard, TransmitData's first checks
    | Mark(w: Worker)                            // the removal check, MarkPassed, OnPassThrough
    | Transmit(w: Worker)                        // one turn of the push loop
    | Retry(w: Worker)                           // a push that finds the conveyor full
    | SetRemoved(stream: nat, value: bool)       // by any thread, at any time

  /** A step by which some worker gets ahead. */
  predicate Progress(step: Step) {
    !step.Retry? && !step.SetRemoved?
  }

  /** Worker `w` has frame `f` in hand, at its module. */
  ghost predicate InHand(c: Config, st: State, w: Worker, f: Frame)
    requires c.Valid()
  {
    && w in c.Workers() && w in st.busy && st.busy[w] == f
    && f in st.flow && f.stream < |c.head| && c.Mod(w) in st.flow[f].stage
  }

  /** What a worker with a frame in hand does in a step; the branches of the code are here. */
  ghost function Choice(c: Config, st: State, step: Step, f: Frame, m: nat): Action
    requires c.Valid() && f in st.flow
    requires Progress(step)
  {
    var isHead, removed := m < |c.parents| && c.parents[m] == {}, f.stream in st.removed;
    var s := if m in st.flow[f].stage then st.flow[f].stage[m] else Done;
    match step
    case Pop(_) => Take
    case Process(_, ok, _) =>
      if f.eos then Hand
      else if isHead then if removed then Drop else Hand
      else if removed || ok then Hand else Drop
    case Enter(_) =>
      if st.flow[f].mask == {} && !isHead then Drop
      else if f in st.invalid then Drop
      else Vet
    case Mark(_) => if !f.eos && removed then Drop else Action.Mark
    case Transmit(_) =>
      if !s.Sending? || s.todo == [] then Finish
      else if s.todo[0] < |c.order| && c.parents[s.todo[0]] <= s.snap then Push
      else Skip
  }

  ghost predicate HasRoom(c: Config, st: State, n: nat, s: nat)
    requires c.Valid() && n < |c.order| && s < |c.head|
  {
    var t := c.WorkerOf(n, s);
    t in st.queue && t.Task? && |st.queue[t]| < c.capacity[n]
  }

  /** The push that worker `w` has to make next finds its conveyor full. */
  ghost predicate Blocked(c: Config, st: State, w: Worker, f: Frame)
    requires c.Valid() && InHand(c, st, w, f)
  {
    var s := st.flow[f].stage[c.Mod(w)];
    && s.Sending? && s.todo != [] && s.todo[0] < |c.order| && c.parents[s.todo[0]] <= s.snap
    && !HasRoom(c, st, s.todo[0], f.stream)
  }

  /** The frame a step is about, if the worker stands where the step starts. */
  ghost predicate Starts(c: Config, st: State, step: Step)
    requires c.Valid() && Progress(step)
  {
    if step.Pop? then
      step.w in c.Workers() && step.w !in st.busy && step.w in st.queue && st.queue[step.w] != []
    else
      && step.w in st.busy && InHand(c, st, step.w, st.busy[step.w])
      && var s := st.flow[st.busy[step.w]].stage[c.Mod(step.w)];
         match step
         case Process(_, _, _) => s.Working?
         case Enter(_) => s.Ready?
         case Mark(_) => s.Vetted?
         case Transmit(_) => s.Sending?
  }

  ghost function FrameOf(c: Config, st: State, step: Step): Frame
    requires c.Valid() && Progress(step) && Starts(c, st, step)
  {
    if step.Pop? then st.queue[step.w][0] else st.busy[step.w]
  }

  ghost predicate Enabled(c: Config, st: State, step: Step)
    requires c.Valid()
  {
    if step.SetRemoved? then true
    else if step.Retry? then
      step.w in st.busy && InHand(c, st, step.w, st.busy[step.w]) && Blocked(c, st, step.w, st.busy[step.w])
    else
      && Starts(c, st, step)
      && var f := FrameOf(c, st, step);
         f in st.flow && Doable(c, st, step.w, f, Choice(c, st, step, f, c.Mod(step.w)))
  }

  /** Worker `w` performs action `a` on frame `f`. */
  ghost predicate Doable(c: Config, st: State, w: Worker, f: Frame, a: Action)
    requires c.Valid()
  {
    && w in c.Workers() && f in st.flow && f.stream < |c.head|
    && Allowed(c.NetOf(f.stream), st.flow[f], c.Mod(w), a)
    && (a.Take? ==> w in st.queue && w in st.taken && w !in st.busy && st.queue[w] != [] && f == st.queue[w][0])
    && (!a.Take? ==> w in st.busy && st.busy[w] == f)
    && (a.Push? ==> HasRoom(c, st, st.flow[f].stage[c.Mod(w)].todo[0], f.stream))
  }

  ghost function Perform(c: Config, st: State, w: Worker, f: Frame, a: Action): State
    requires c.Valid() && Doable(c, st, w, f, a)
  {
    var net, fl, m := c.NetOf(f.stream), st.flow[f], c.Mod(w);
    var done := a.Mark? && fl.mask + {m} == c.all;
    State(
      if a.Take? then st.queue[w := st.queue[w][1..]]
      else if a.Push? then
        var t := c.WorkerOf(fl.stage[m].todo[0], f.stream);
        st.queue[t := st.queue[t] + [f]]
      else st.queue,
      if Over(StageAfter(net, fl, m, a)) then st.busy - {w} else st.busy[w := f],
      st.flow[f := Act(net, fl, m, a)],
      st.invalid,
      st.removed,
      if a.Take? then st.taken[w := st.taken[w] + [f]] else st.taken,
      if done then st.passed + [f] else st.passed,
      if done && f.eos then st.eosMessages + [f] else st.eosMessages)
  }

  ghost predicate Performs(c: Config, st: State, w: Worker, f: Frame, a: Action, st': State)
    requires c.Valid()
  {
    Doable(c, st, w, f, a) && st' == Perform(c, st, w, f, a)
  }

  /** Process may flag the frame invalid, whatever it returns. */
  ghost function Flagged(c: Config, st: State, step: Step): State
    requires c.Valid()
  {
    if step.Process? && step.flag && step.w in st.busy then
      var f := st.busy[step.w];
      if step.w.Task? && !f.eos && f.stream !in st.removed then st.(invalid := st.invalid + {f}) else st
    else st
  }

  ghost function After(c: Config, st: State, step: Step): State
    requires c.Valid() && Enabled(c, st, step)
  {
    if step.SetRemoved? then
      st.(removed := if step.value then st.removed + {step.stream} else st.removed - {step.stream})
    else if step.Retry? then st
    else
      var f := FrameOf(c, st, step);
      Perform(c, Flagged(c, st, step), step.w, f, Choice(c, st, step, f, c.Mod(step.w)))
  }

  /** A run: each state follows from the one before by an enabled step. */
  ghost predicate Run(c: Config, states: seq<State>, steps: seq<Step>)
    requires c.Valid()
  {
    && |states| == |steps| + 1 && Init(c, states[0])
    && (forall i :: 0 <= i < |steps| ==>
          Enabled(c, states[i], steps[i]) && states[i + 1] == After(c, states[i], steps[i]))
  }

  ghost predicate Quiescent(st: State) {
    st.busy == map[] && forall w :: w in st.queue ==> st.queue[w] == []
  }
}
