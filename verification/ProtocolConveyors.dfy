/** To which conveyor a frame goes, and how far conveyors fill. */
module ProtocolConveyors {
  import opened FrameFlow
  import opened Protocol
  import opened ProtocolInvariant
  import opened ProtocolTheorems

  /** The conveyor for a stream at a module: `GetStreamIndex() % GetConveyorCount()`. */
  ghost predicate IsSlot(c: Config, m: nat, k: nat, s: nat) {
    m < |c.parallelism| && 0 < c.parallelism[m] && s < |c.streamIdx| && k == c.streamIdx[s] % c.parallelism[m]
  }

  lemma TaskHasParents(c: Config, m: nat, k: nat)
    requires c.Valid() && Task(m, k) in c.Workers()
    ensures m < |c.parents| == |c.parallelism| == |c.capacity| == |c.order| && c.parents[m] != {}
    ensures 0 < c.parallelism[m] && |c.streamIdx| == |c.head|
  {
  }

  lemma CameToSlot(c: Config, st: State, m: nat, k: nat, f: Frame)
    requires c.Valid() && Shape(c, st) && Linked(c, st) && Task(m, k) in st.queue
    ensures Task(m, k) in st.taken
    ensures f in st.queue[Task(m, k)] || f in st.taken[Task(m, k)] <==>
              HasStage(st, f, m) && f.stream < |c.head| && IsSlot(c, m, k, f.stream)
  {
    var w := Task(m, k);
    TaskHasParents(c, m, k);
    assert QueueTells(c, st, w, f) && HistoryTells(c, st, w, f);
    hide Config.Valid;
    hide Linked;
  }

  lemma FedHasStage(c: Config, f: Frame, fl: Flow, m: nat)
    requires c.Valid() && FlowOk(c, f, fl) && m < |c.parents| && c.parents[m] != {}
    ensures m in fl.stage <==> exists p :: Delivered(m, p) in fl.trail
  {
    var net := c.NetOf(f.stream);
    assert FedTells(net, fl) && net.Valid();
    hide FlowOk;
    hide Config.Valid;
    assert Fed(fl.trail, m) <==> exists p :: Delivered(m, p) in fl.trail;
  }

  /** In every reachable state, the frames that are or were in conveyor `k` of a module are exactly those that
      were pushed to the module and whose stream index, modulo the number of conveyors, is `k`. */
  lemma ConveyorOfStream(c: Config, st: State, m: nat, k: nat, f: Frame)
    requires c.Valid() && Reachable(c, st) && Task(m, k) in st.queue
    ensures m < |c.parallelism| && 0 < c.parallelism[m] && Task(m, k) in st.taken && |c.streamIdx| == |c.head|
    ensures f in st.queue[Task(m, k)] || f in st.taken[Task(m, k)] <==>
              && f in st.flow && f.stream < |c.head|
              && k == c.streamIdx[f.stream] % c.parallelism[m]
              && exists p :: Delivered(m, p) in st.flow[f].trail
  {
    ReachableIsSound(c, st);
    assert Shape(c, st) && Linked(c, st) && Flows(c, st);
    hide Sound;
    hide Reachable;
    TaskHasParents(c, m, k);
    CameToSlot(c, st, m, k, f);
    hide Linked;
    hide FlowOk;
    hide Config.Valid;
    if f in st.flow {
      assert FlowOk(c, f, st.flow[f]);
      FedHasStage(c, f, st.flow[f], m);
    }
  }

  // ----- Sources and capacities -----

  /** What a source has sent and has still to send is what it was given, in order. */
  ghost predicate SourceKeeps(c: Config, st: State, s: nat) {
    && s < |c.sent| && Source(s) in st.queue && Source(s) in st.taken
    && st.taken[Source(s)] + st.queue[Source(s)] == c.sent[s]
  }

  ghost predicate Bounded(c: Config, st: State) {
    forall w :: w in st.queue && w.Task? ==> w.mod < |c.capacity| && |st.queue[w]| <= c.capacity[w.mod]
  }

  lemma PerformKeepsSource(c: Config, st: State, w: Worker, f: Frame, a: Action, st': State, s: nat)
    requires c.Valid() && Performs(c, st, w, f, a, st') && SourceKeeps(c, st, s)
    ensures SourceKeeps(c, st', s)
  {
    hide Config.Valid;
    var q, past := st.queue[Source(s)], st.taken[Source(s)];
    if a.Take? && w == Source(s) {
      assert past + q == (past + [q[0]]) + q[1..];
    }
  }

  lemma PerformKeepsBounds(c: Config, st: State, w: Worker, f: Frame, a: Action, st': State)
    requires c.Valid() && Performs(c, st, w, f, a, st') && Bounded(c, st)
    ensures Bounded(c, st')
  {
    if a.Push? { PushTarget(c, st, w, f); }
    hide Config.Valid;
  }

  lemma PushTarget(c: Config, st: State, w: Worker, f: Frame)
    requires c.Valid() && Doable(c, st, w, f, Push)
    ensures st.flow[f].stage[c.Mod(w)].todo[0] < |c.order| && |c.streamIdx| == |c.head|
    ensures var n := st.flow[f].stage[c.Mod(w)].todo[0];
            var t := c.WorkerOf(n, f.stream);
            t in st.queue && t.Task? && t.mod == n && |st.queue[t]| < c.capacity[n]
  {
  }

  lemma StepKeepsSource(c: Config, st: State, step: Step, s: nat)
    requires c.Valid() && Enabled(c, st, step) && SourceKeeps(c, st, s)
    ensures SourceKeeps(c, After(c, st, step), s)
  {
    hide Config.Valid;
    hide Performs;
    hide Choice;
    if Progress(step) {
      var f, a := StepPerforms(c, st, step);
      assert SourceKeeps(c, Flagged(c, st, step), s);
      PerformKeepsSource(c, Flagged(c, st, step), step.w, f, a, After(c, st, step), s);
    }
  }

  lemma StepKeepsBounds(c: Config, st: State, step: Step)
    requires c.Valid() && Enabled(c, st, step) && Bounded(c, st)
    ensures Bounded(c, After(c, st, step))
  {
    hide Config.Valid;
    hide Performs;
    hide Choice;
    if Progress(step) {
      var f, a := StepPerforms(c, st, step);
      assert Bounded(c, Flagged(c, st, step));
      PerformKeepsBounds(c, Flagged(c, st, step), step.w, f, a, After(c, st, step));
    }
  }

  lemma SourceAtStart(c: Config, st: State, s: nat)
    requires c.Valid() && Init(c, st) && s < |c.sent|
    ensures SourceKeeps(c, st, s)
  {
    assert Source(s) in c.Workers();
  }

  lemma BoundsAtStart(c: Config, st: State)
    requires c.Valid() && Init(c, st)
    ensures Bounded(c, st)
  {
    forall w | w in st.queue && w.Task? ensures w.mod < |c.capacity| { TaskHasParents(c, w.mod, w.slot); }
  }

  lemma {:induction false} SourceAlways(c: Config, states: seq<State>, steps: seq<Step>, k: nat, s: nat)
    requires c.Valid() && Run(c, states, steps) && k < |states| && s < |c.sent|
    ensures SourceKeeps(c, states[k], s)
  {
    hide Config.Valid;
    hide Enabled;
    hide After;
    hide SourceKeeps;
    if k == 0 {
      SourceAtStart(c, states[0], s);
    } else {
      SourceAlways(c, states, steps, k - 1, s);
      assert states[k] == After(c, states[k - 1], steps[k - 1]);
      StepKeepsSource(c, states[k - 1], steps[k - 1], s);
    }
  }

  lemma {:induction false} BoundsAlways(c: Config, states: seq<State>, steps: seq<Step>, k: nat)
    requires c.Valid() && Run(c, states, steps) && k < |states|
    ensures Bounded(c, states[k])
  {
    hide Config.Valid;
    hide Enabled;
    hide After;
    hide Bounded;
    if k == 0 {
      BoundsAtStart(c, states[0]);
    } else {
      BoundsAlways(c, states, steps, k - 1);
      assert states[k] == After(c, states[k - 1], steps[k - 1]);
      StepKeepsBounds(c, states[k - 1], steps[k - 1]);
    }
  }

  /** In every reachable state, what a source has fed in and has still to feed in is what it was given, in order. */
  lemma SourcesFeedAll(c: Config, st: State, s: nat)
    requires c.Valid() && Reachable(c, st) && s < |c.sent|
    ensures Source(s) in st.queue && Source(s) in st.taken
    ensures st.taken[Source(s)] + st.queue[Source(s)] == c.sent[s]
  {
    hide Config.Valid;
    var states, steps :| Run(c, states, steps) && st in states;
    var k :| 0 <= k < |states| && states[k] == st;
    SourceAlways(c, states, steps, k, s);
  }

  /** No conveyor ever holds more frames than `max_input_queue_size` of its module. */
  lemma ConveyorsAreBounded(c: Config, st: State, m: nat, k: nat)
    requires c.Valid() && Reachable(c, st) && Task(m, k) in st.queue
    ensures m < |c.capacity| == |c.parallelism| && k < c.parallelism[m]
    ensures Task(m, k) in st.taken && |c.streamIdx| == |c.head|
    ensures |st.queue[Task(m, k)]| <= c.capacity[m]
  {
    ReachableIsSound(c, st);
    TaskHasParents(c, m, k);
    hide Config.Valid;
    var states, steps :| Run(c, states, steps) && st in states;
    var i :| 0 <= i < |states| && states[i] == st;
    BoundsAlways(c, states, steps, i);
  }

  /** The next module to push to, if all its parents have marked. */
  ghost predicate PushesNext(c: Config, st: State, w: Worker, n: nat) {
    && w in st.busy && st.busy[w] in st.flow && (w.Source? ==> w.stream < |c.head|)
    && c.Mod(w) in st.flow[st.busy[w]].stage
    && var s := st.flow[st.busy[w]].stage[c.Mod(w)];
       s.Sending? && s.todo != [] && s.todo[0] == n && n < |c.parents| && c.parents[n] <= s.snap
  }

  lemma RetriesIfFull(c: Config, st: State, w: Worker, n: nat)
    requires c.Valid() && PushesNext(c, st, w, n) && InHand(c, st, w, st.busy[w])
    requires n < |c.order| && c.parents[n] != {} && st.busy[w].stream < |c.head|
    ensures 0 < c.parallelism[n] && |c.streamIdx| == |c.head|
    ensures var t := Task(n, c.streamIdx[st.busy[w].stream] % c.parallelism[n]);
            t in st.queue ==> (Enabled(c, st, Retry(w)) <==> |st.queue[t]| >= c.capacity[n])
  {
  }

  lemma HandAndQueues(c: Config, st: State, w: Worker, n: nat)
    requires c.Valid() && Reachable(c, st) && PushesNext(c, st, w, n)
    ensures InHand(c, st, w, st.busy[w]) && st.busy[w].stream < |c.head|
    ensures n < |c.order| && c.Mod(w) < |c.order| && n in c.order[c.Mod(w)]
    ensures c.Workers() == st.queue.Keys
  {
    ReachableIsSound(c, st);
    BusyIsInHand(c, st, w);
    var f := st.busy[w];
    FlowIsAllowed(c, f, st.flow[f], c.Mod(w));
  }

  lemma SlotIsWorker(c: Config, n: nat, f: Frame)
    requires c.Valid() && n < |c.order| && c.parents[n] != {} && f.stream < |c.head|
    ensures 0 < c.parallelism[n] && |c.streamIdx| == |c.head|
    ensures Task(n, c.streamIdx[f.stream] % c.parallelism[n]) in c.Workers()
  {
    TargetIsMine(c, n, f);
  }

  /** A push is retried exactly while the conveyor it goes to, that of the stream, is full. */
  lemma RetryExactly(c: Config, st: State, w: Worker, n: nat)
    requires c.Valid() && Reachable(c, st) && PushesNext(c, st, w, n)
    ensures n < |c.parallelism| == |c.capacity| && 0 < c.parallelism[n]
    ensures st.busy[w].stream < |c.streamIdx|
    ensures var t := Task(n, c.streamIdx[st.busy[w].stream] % c.parallelism[n]);
            t in st.queue && (Enabled(c, st, Retry(w)) <==> |st.queue[t]| == c.capacity[n])
  {
    HandAndQueues(c, st, w, n);
    ParentOfNext(c, c.Mod(w), n);
    SlotIsWorker(c, n, st.busy[w]);
    hide Config.Valid;
    hide Reachable;
    hide Enabled;
    hide PushesNext;
    RetriesIfFull(c, st, w, n);
    ConveyorsAreBounded(c, st, n, c.streamIdx[st.busy[w].stream] % c.parallelism[n]);
  }

  lemma ParentOfNext(c: Config, m: nat, n: nat)
    requires c.Valid() && m < |c.order| && n in c.order[m] && c.head != []
    ensures n < |c.order| && c.parents[n] != {} && |c.streamIdx| == |c.head|
    ensures n < |c.parallelism| == |c.capacity| && 0 < c.parallelism[n]
  {
    assert c.NetOf(0).Valid();
  }
}
