/** What the routing protocol guarantees, over all runs and all interleavings. */
module ProtocolTheorems {
  import opened FrameFlow
  import opened FrameProgress
  import opened Protocol
  import opened ProtocolInvariant

  /** In every state of every run the invariant holds. */
  lemma {:induction false} RunInv(c: Config, states: seq<State>, steps: seq<Step>)
    requires c.Valid() && Run(c, states, steps)
    ensures forall i :: 0 <= i < |states| ==> Sound(c, states[i])
  {
    InitInv(c, states[0]);
    hide Sound;
    hide Config.Valid;
    for i := 0 to |steps|
      invariant forall j :: 0 <= j <= i ==> Sound(c, states[j])
    {
      StepInv(c, states[i], steps[i]);
    }
  }

  /** A state of some run. */
  ghost predicate Reachable(c: Config, st: State)
    requires c.Valid()
  {
    exists states, steps :: Run(c, states, steps) && st in states
  }

  lemma ReachableIsSound(c: Config, st: State)
    requires c.Valid() && Reachable(c, st)
    ensures Sound(c, st)
  {
    var states, steps :| Run(c, states, steps) && st in states;
    RunInv(c, states, steps);
    hide Run;
    hide Sound;
  }

  // ----- Deadlock freedom -----

  /** The modules are numbered so that GetNext() leads upwards; `Pipelines` shows that an acyclic
      graph has such a numbering. */
  ghost predicate RankedBy(c: Config, rank: seq<nat>)
    requires c.Valid()
  {
    forall s :: 0 <= s < |c.head| ==> Ranked(c.NetOf(s), rank)
  }

  /** The steps a worker with a frame in hand may take next, by the stage of the frame. */
  predicate Fits(s: Stage, step: Step) {
    match step
    case Process(_, _, _) => s.Working?
    case Enter(_) => s.Ready?
    case Mark(_) => s.Vetted?
    case Transmit(_) => s.Sending?
    case _ => false
  }

  lemma FlowIsAllowed(c: Config, f: Frame, fl: Flow, m: nat)
    requires c.Valid() && FlowOk(c, f, fl) && m in fl.stage
    ensures c.NetOf(f.stream).IsModule(m)
    ensures fl.stage[m].Sending? && fl.stage[m].todo != [] ==>
              c.NetOf(f.stream).IsModule(fl.stage[m].todo[0]) && fl.stage[m].todo[0] in c.order[m]
  {
    var net := c.NetOf(f.stream);
    assert InBounds(net, fl) && Loops(net, fl) && net.Valid();
    if fl.stage[m].Sending? && fl.stage[m].todo != [] {
      assert Loop(net, fl, m);
      assert fl.stage[m].todo[0] in net.order[m];
    }
  }

  /** A worker with a frame in hand is never stuck: either it can take every step that fits where
      it stands, whatever Process returns, or it is pushing to a full conveyor and retries. */
  lemma BusyWorkerGoesOn(c: Config, st: State, w: Worker, step: Step)
    requires c.Valid() && Sound(c, st) && w in st.busy && Progress(step) && step.w == w
    ensures InHand(c, st, w, st.busy[w])
    ensures Fits(st.flow[st.busy[w]].stage[c.Mod(w)], step) ==>
              (Enabled(c, st, step) <==> !Blocked(c, st, w, st.busy[w]))
    ensures Blocked(c, st, w, st.busy[w]) ==> Enabled(c, st, Retry(w))
  {
    hide FlowOk;
    hide Sound;
    hide Net.Valid;
    BusyIsInHand(c, st, w);
    StepOfBusy(c, st, w, st.busy[w], step);
  }

  lemma BusyIsInHand(c: Config, st: State, w: Worker)
    requires c.Valid() && Sound(c, st) && w in st.busy
    ensures InHand(c, st, w, st.busy[w]) && FlowOk(c, st.busy[w], st.flow[st.busy[w]])
    ensures forall m :: 0 <= m < |c.order| && c.parents[m] != {} ==> c.WorkerOf(m, st.busy[w].stream) in st.queue
  {
    hide FlowOk;
    hide Net.Valid;
    hide Fifo;
    hide Outcomes;
    hide Flags;
    hide EarlierCame;
    hide ThroughWithEarlier;
    assert HandTells(c, st, w, st.busy[w]);
  }

  lemma StepOfBusy(c: Config, st: State, w: Worker, f: Frame, step: Step)
    requires c.Valid() && InHand(c, st, w, f) && Progress(step) && step.w == w && FlowOk(c, f, st.flow[f])
    requires forall m :: 0 <= m < |c.order| && c.parents[m] != {} ==> c.WorkerOf(m, f.stream) in st.queue
    ensures Fits(st.flow[f].stage[c.Mod(w)], step) ==> (Enabled(c, st, step) <==> !Blocked(c, st, w, f))
  {
    hide FlowOk;
    hide Net.Valid;
    FlowIsAllowed(c, f, st.flow[f], c.Mod(w));
  }

  /** A worker that is not idle, or that has something queued. */
  ghost predicate Active(st: State, w: Worker) {
    w in st.busy || (w in st.queue && st.queue[w] != [])
  }

  lemma IdleWorkerPops(c: Config, st: State, w: Worker)
    requires c.Valid() && Sound(c, st) && w !in st.busy && w in st.queue && st.queue[w] != []
    ensures Enabled(c, st, Pop(w))
  {
    hide FlowOk;
    hide Fifo;
    hide Outcomes;
    var f := st.queue[w][0];
    assert QueueTells(c, st, w, f);
    FlowIsAllowed(c, f, st.flow[f], c.Mod(w));
  }

  ghost function RankOf(c: Config, rank: seq<nat>, w: Worker): nat {
    if (w.Source? ==> w.stream < |c.head|) && c.Mod(w) < |rank| then rank[c.Mod(w)] else 0
  }

  /** The conveyor that blocks a worker belongs to a worker further down that has work. */
  lemma BlockerIsActive(c: Config, st: State, w: Worker, rank: seq<nat>) returns (t: Worker)
    requires c.Valid() && Sound(c, st) && RankedBy(c, rank) && w in st.busy
    requires InHand(c, st, w, st.busy[w]) && Blocked(c, st, w, st.busy[w])
    ensures t in c.Workers() && Active(st, t) && RankOf(c, rank, w) < RankOf(c, rank, t)
  {
    hide FlowOk;
    hide Linked;
    hide Fifo;
    hide Outcomes;
    var f, m := st.busy[w], c.Mod(w);
    FlowIsAllowed(c, f, st.flow[f], m);
    var n := st.flow[f].stage[m].todo[0];
    var net := c.NetOf(f.stream);
    assert net.Valid() && Ranked(net, rank);
    assert m in net.parents[n];
    TargetIsMine(c, n, f);
    t := c.WorkerOf(n, f.stream);
    assert t in st.queue;
  }

  lemma {:induction false} TopWorker(c: Config, rank: seq<nat>, ws: set<Worker>) returns (w: Worker)
    requires ws != {}
    ensures w in ws && forall v :: v in ws ==> RankOf(c, rank, v) <= RankOf(c, rank, w)
    decreases ws
  {
    w :| w in ws;
    if ws != {w} {
      var v := TopWorker(c, rank, ws - {w});
      var w0 := w;
      if RankOf(c, rank, w) < RankOf(c, rank, v) { w := v; }
      forall u | u in ws ensures RankOf(c, rank, u) <= RankOf(c, rank, w) {
        if u != w0 { assert u in ws - {w0}; }
      }
    }
  }

  function NextStep(w: Worker, s: Stage): Step {
    match s
    case Working => Process(w, true, false)
    case Ready => Enter(w)
    case Vetted => Step.Mark(w)
    case _ => Transmit(w)
  }

  lemma HandIsAtWork(c: Config, st: State, w: Worker)
    requires c.Valid() && Shape(c, st) && Linked(c, st) && w in st.busy
    ensures InHand(c, st, w, st.busy[w]) && AtWork(st.flow[st.busy[w]].stage[c.Mod(w)])
  {
    assert HandTells(c, st, w, st.busy[w]);
  }

  lemma SomeActive(c: Config, st: State) returns (w: Worker)
    requires c.Valid() && Shape(c, st) && !Quiescent(st)
    ensures w in c.Workers() && Active(st, w)
  {
    if st.busy != map[] {
      w :| w in st.busy;
    } else {
      w :| w in st.queue && st.queue[w] != [];
    }
  }

  lemma TopWorkerSteps(c: Config, st: State, rank: seq<nat>, w: Worker) returns (step: Step)
    requires c.Valid() && Sound(c, st) && RankedBy(c, rank) && w in c.Workers() && Active(st, w)
    requires forall v :: v in c.Workers() && Active(st, v) ==> RankOf(c, rank, v) <= RankOf(c, rank, w)
    ensures Progress(step) && Enabled(c, st, step)
  {
    hide RankedBy;
    hide Blocked;
    hide Enabled;
    hide Config.Valid;
    hide Shape;
    hide Flows;
    hide Linked;
    hide Fifo;
    hide ThroughWithEarlier;
    hide EarlierCame;
    hide Flags;
    hide Outcomes;
    if w in st.busy {
      HandIsAtWork(c, st, w);
      step := NextStep(w, st.flow[st.busy[w]].stage[c.Mod(w)]);
      BusyWorkerGoesOn(c, st, w, step);
      if Blocked(c, st, w, st.busy[w]) {
        var t := BlockerIsActive(c, st, w, rank);
        assert false;
      }
    } else {
      IdleWorkerPops(c, st, w);
      step := Pop(w);
    }
  }

  /** No deadlock: unless every queue is empty and every worker idle, some worker can get ahead,
      however full the conveyors are. */
  lemma NoDeadlock(c: Config, st: State, rank: seq<nat>) returns (step: Step)
    requires c.Valid() && Sound(c, st) && RankedBy(c, rank) && !Quiescent(st)
    ensures Progress(step) && Enabled(c, st, step)
  {
    hide RankedBy;
    hide Enabled;
    hide Config.Valid;
    var w := SomeActive(c, st);
    hide Sound;
    var ws := set v | v in c.Workers() && Active(st, v);
    assert w in ws;
    w := TopWorker(c, rank, ws);
    step := TopWorkerSteps(c, st, rank, w);
  }

  // ----- Termination -----

  lemma FlowWork(c: Config, f: Frame, fl: Flow, rank: seq<nat>)
    requires c.Valid() && FlowOk(c, f, fl) && RankedBy(c, rank)
    ensures Ranked(c.NetOf(f.stream), rank) && AllSized(c.NetOf(f.stream), rank, fl.stage)
    ensures NeverTwice(c.NetOf(f.stream), fl)
  {
    FlowIsSized(c.NetOf(f.stream), rank, fl);
  }

  ghost function WorkOf(c: Config, f: Frame, fl: Flow, rank: seq<nat>): nat
    requires c.Valid() && FlowOk(c, f, fl) && RankedBy(c, rank)
  {
    FlowWork(c, f, fl, rank);
    Remaining(c.NetOf(f.stream), rank, fl.stage)
  }

  ghost function WorkMap(c: Config, flow: map<Frame, Flow>, rank: seq<nat>): map<Frame, nat>
    requires c.Valid() && RankedBy(c, rank) && forall f :: f in flow ==> FlowOk(c, f, flow[f])
  {
    map f | f in flow :: WorkOf(c, f, flow[f], rank)
  }

  /** The steps that all the frames together can still cause. */
  ghost function TotalWork(c: Config, st: State, rank: seq<nat>): nat
    requires c.Valid() && RankedBy(c, rank) && Flows(c, st)
  {
    Sum(WorkMap(c, st.flow, rank))
  }

  lemma ActLowersWork(c: Config, f: Frame, fl: Flow, m: nat, a: Action, rank: seq<nat>)
    requires c.Valid() && FlowOk(c, f, fl) && RankedBy(c, rank) && Allowed(c.NetOf(f.stream), fl, m, a)
    ensures var fl' := Act(c.NetOf(f.stream), fl, m, a);
            FlowOk(c, f, fl') && WorkOf(c, f, fl', rank) < WorkOf(c, f, fl, rank)
  {
    FlowStaysOk(c, f, fl, m, a);
    FlowWork(c, f, fl, rank);
    hide FlowOk;
    hide RankedBy;
    ActLowersRemaining(c.NetOf(f.stream), rank, fl, m, a);
  }

  lemma WorkAfter(c: Config, flow: map<Frame, Flow>, f: Frame, fl: Flow, rank: seq<nat>)
    requires c.Valid() && RankedBy(c, rank) && f in flow && FlowOk(c, f, fl)
    requires forall g :: g in flow ==> FlowOk(c, g, flow[g])
    requires WorkOf(c, f, fl, rank) < WorkOf(c, f, flow[f], rank)
    ensures Sum(WorkMap(c, flow[f := fl], rank)) < Sum(WorkMap(c, flow, rank))
  {
    hide FlowOk;
    hide RankedBy;
    hide Config.Valid;
    hide WorkOf;
    WorkOfOne(c, flow, f, fl, rank);
    var works: map<Frame, nat> := WorkMap(c, flow, rank);
    assert f in works && works[f] == WorkOf(c, f, flow[f], rank);
    hide WorkMap;
    SumUpdate(works, f, WorkOf(c, f, fl, rank));
  }

  lemma WorkOfOne(c: Config, flow: map<Frame, Flow>, f: Frame, fl: Flow, rank: seq<nat>)
    requires c.Valid() && RankedBy(c, rank) && f in flow && FlowOk(c, f, fl)
    requires forall g :: g in flow ==> FlowOk(c, g, flow[g])
    ensures WorkMap(c, flow[f := fl], rank) == WorkMap(c, flow, rank)[f := WorkOf(c, f, fl, rank)]
  {
    hide FlowOk;
    hide RankedBy;
    hide Config.Valid;
    hide WorkOf;
  }

  lemma PerformLowersWork(c: Config, st: State, w: Worker, f: Frame, a: Action, st': State, rank: seq<nat>)
    requires c.Valid() && Performs(c, st, w, f, a, st') && Flows(c, st) && Flows(c, st') && RankedBy(c, rank)
    ensures TotalWork(c, st', rank) < TotalWork(c, st, rank)
  {
    hide FlowOk;
    hide RankedBy;
    hide Config.Valid;
    ActLowersWork(c, f, st.flow[f], c.Mod(w), a, rank);
    WorkAfter(c, st.flow, f, st'.flow[f], rank);
  }

  /** Every progress step lowers the work that is left; retries and removals leave it as it is. */
  lemma StepLowersWork(c: Config, st: State, step: Step, rank: seq<nat>)
    requires c.Valid() && Sound(c, st) && Enabled(c, st, step) && RankedBy(c, rank)
    ensures Flows(c, After(c, st, step))
    ensures if Progress(step) then TotalWork(c, After(c, st, step), rank) < TotalWork(c, st, rank)
            else TotalWork(c, After(c, st, step), rank) == TotalWork(c, st, rank)
  {
    StepInv(c, st, step);
    hide RankedBy;
    hide Config.Valid;
    hide Performs;
    hide FlowOk;
    hide Linked;
    hide Fifo;
    hide Outcomes;
    hide Flags;
    hide EarlierCame;
    hide ThroughWithEarlier;
    if Progress(step) {
      var f, a := StepPerforms(c, st, step);
      PerformLowersWork(c, Flagged(c, st, step), step.w, f, a, After(c, st, step), rank);
    } else {
      OtherStepsKeepFlow(c, st, step);
    }
  }

  lemma OtherStepsKeepFlow(c: Config, st: State, step: Step)
    requires c.Valid() && Enabled(c, st, step) && !Progress(step)
    ensures After(c, st, step).flow == st.flow
  {
  }

  ghost function ProgressSteps(steps: seq<Step>): nat {
    if steps == [] then 0
    else ProgressSteps(steps[..|steps| - 1]) + if Progress(steps[|steps| - 1]) then 1 else 0
  }

  /** Every run is finite but for retries and removals: it has no more progress steps than there is
      work at its start. */
  lemma {:induction false} RunsAreBounded(c: Config, states: seq<State>, steps: seq<Step>, rank: seq<nat>)
    requires c.Valid() && Run(c, states, steps) && RankedBy(c, rank)
    ensures Flows(c, states[0]) && Flows(c, states[|steps|])
    ensures ProgressSteps(steps) + TotalWork(c, states[|steps|], rank) <= TotalWork(c, states[0], rank)
  {
    RunInv(c, states, steps);
    assert Sound(c, states[0]) && Sound(c, states[|steps|]);
    if steps != [] {
      var k := |steps| - 1;
      assert steps[..k] + [steps[k]] == steps;
      RunsAreBounded(c, states[..k + 1], steps[..k], rank);
      assert Enabled(c, states[k], steps[k]) && states[k + 1] == After(c, states[k], steps[k]) && Sound(c, states[k]);
      hide Sound;
      StepLowersWork(c, states[k], steps[k], rank);
    }
  }

  // ----- Completion -----

  lemma RouteIsServed(c: Config, f: Frame, fl: Flow, m: nat)
    requires c.Valid() && FlowOk(c, f, fl) && m in fl.stage && f in c.Frames()
    ensures m < |c.order|
    ensures var w := c.WorkerOf(m, f.stream); w in c.Workers() && Mine(c, w, f) && c.Mod(w) == m
  {
    StageOnRoute(c, f, fl, m);
    hide FlowOk;
    var net := c.NetOf(f.stream);
    assert net.Valid();
    if c.parents[m] == {} {
      assert m != net.head ==> net.ParentOnRoute(m);
      assert Source(f.stream) in c.Workers();
    } else {
      TargetIsMine(c, m, f);
    }
  }

  lemma QuietIsSettled(c: Config, st: State, f: Frame)
    requires c.Valid() && Sound(c, st) && Quiescent(st) && f in st.flow
    ensures Settled(st.flow[f])
  {
    hide FlowOk;
    forall m | m in st.flow[f].stage ensures Over(st.flow[f].stage[m]) {
      RouteIsServed(c, f, st.flow[f], m);
      var w := c.WorkerOf(m, f.stream);
      assert QueueTells(c, st, w, f) && HandTells(c, st, w, f);
    }
  }

  /** Nothing is lost on the way: once all is quiet, every frame that no module dropped has been
      taken and marked by every module of its route, its mask is full, and OnPassThrough has been
      called for it; a frame that was dropped somewhere never passes. */
  lemma Completion(c: Config, st: State, rank: seq<nat>, f: Frame)
    requires c.Valid() && Reachable(c, st) && RankedBy(c, rank) && f in c.Frames() && Quiescent(st)
    ensures f in st.flow && f.stream < |c.head|
    ensures f in st.passed <==> forall m: nat :: Dropped(m) !in st.flow[f].trail
    ensures f in st.passed <==> st.flow[f].mask == c.all
    ensures f in st.passed ==> forall m :: m in c.route[f.stream] ==>
              Taken(m) in st.flow[f].trail && Marked(m) in st.flow[f].trail
  {
    ReachableIsSound(c, st);
    hide FlowOk;
    QuietIsSettled(c, st, f);
    FlowIsPassed(c, st, f, rank);
    assert FlowOk(c, f, st.flow[f]);
  }

  lemma FlowIsPassed(c: Config, st: State, f: Frame, rank: seq<nat>)
    requires c.Valid() && Flows(c, st) && Outcomes(c, st) && RankedBy(c, rank) && f in st.flow && Settled(st.flow[f])
    ensures f.stream < |c.head|
    ensures f in st.passed <==> forall m: nat :: Dropped(m) !in st.flow[f].trail
    ensures f in st.passed <==> st.flow[f].mask == c.all
    ensures f in st.passed <==> LostNowhere(st.flow[f])
    ensures f in st.passed ==> forall m :: m in c.route[f.stream] ==>
              Taken(m) in st.flow[f].trail && Marked(m) in st.flow[f].trail
  {
    FlowIsOk(c, st, f);
    hide FlowOk;
    hide Ranked;
    hide FrameFlow.Inv;
    SettledPasses(c.NetOf(f.stream), rank, st.flow[f]);
  }

  /** An end of stream is never lost: whatever fails or is removed meanwhile, no module drops it
      unless it carried the invalid flag from the start; and once all is quiet, its EOS_MSG has
      been posted exactly if it did not. */
  lemma EosIsNeverLost(c: Config, st: State, rank: seq<nat>, f: Frame)
    requires c.Valid() && Reachable(c, st) && RankedBy(c, rank) && f in c.Frames() && f.eos
    ensures f in st.flow
    ensures f !in c.flawed ==> forall m: nat :: Dropped(m) !in st.flow[f].trail
    ensures Quiescent(st) ==> (f in st.eosMessages <==> f !in c.flawed)
  {
    ReachableIsSound(c, st);
    hide Reachable;
    hide FlowOk;
    hide Linked;
    forall m: nat | f !in c.flawed ensures Dropped(m) !in st.flow[f].trail {
      EosNotDropped(c, st, f, m);
    }
    if Quiescent(st) {
      QuietIsSettled(c, st, f);
      FlowIsPassed(c, st, f, rank);
      FlawedIsLost(c, st, f);
    }
  }

  lemma EosNotDropped(c: Config, st: State, f: Frame, m: nat)
    requires c.Valid() && Sound(c, st) && f in c.Frames() && f.eos && f !in c.flawed
    ensures f in st.flow && Dropped(m) !in st.flow[f].trail
  {
    var fl := st.flow[f];
    assert FlowOk(c, f, fl) && DroppedTells(fl);
    hide FlowOk;
    if m in fl.stage { assert HasStage(st, f, m); }
  }

  lemma HeadHasStage(c: Config, f: Frame, fl: Flow)
    requires c.Valid() && FlowOk(c, f, fl)
    ensures f.stream < |c.head| && c.head[f.stream] in fl.stage
  {
    assert InBounds(c.NetOf(f.stream), fl);
  }

  lemma FlawedIsLost(c: Config, st: State, f: Frame)
    requires c.Valid() && Flows(c, st) && Flags(c, st) && f in st.flow && f.eos && Settled(st.flow[f])
    ensures f in c.flawed <==> !LostNowhere(st.flow[f])
  {
    hide FlowOk;
    HeadHasStage(c, f, st.flow[f]);
    assert HasStage(st, f, c.head[f.stream]);
    forall m | m in st.flow[f].stage ensures HasStage(st, f, m) {
    }
    hide Config.Valid;
  }

  // ----- Why frames are dropped -----

  /** A module drops a frame only for a cause: the frame is invalid; or it carries data and its stream is
      removed, or Process has just failed on it. */
  lemma DropsHaveCause(c: Config, st: State, step: Step, f: Frame, a: Action)
    requires c.Valid() && Progress(step) && Starts(c, st, step) && f == FrameOf(c, st, step)
    requires f in st.flow && a == Choice(c, st, step, f, c.Mod(step.w))
    requires Sound(c, st)
    ensures a.Drop? ==> f in st.invalid || (!f.eos && (f.stream in st.removed || (step.Process? && !step.ok)))
  {
    hide FlowOk;
    hide Linked;
    hide Fifo;
    hide Outcomes;
    if step.Enter? { GuardNeverRejects(c, f, st.flow[f], c.Mod(step.w)); }
  }

  /** A step in which nothing goes wrong and no stream is removed. */
  predicate Clean(step: Step) {
    (step.Process? ==> step.ok && !step.flag) && (step.SetRemoved? ==> !step.value)
  }

  ghost predicate NoDrops(st: State) {
    forall f, m: nat :: f in st.flow ==> Dropped(m) !in st.flow[f].trail
  }

  ghost predicate Calm(st: State) {
    st.invalid == {} && st.removed == {} && NoDrops(st)
  }

  lemma NewsOfOthers(net: Net, fl: Flow, m: nat, a: Action, x: nat)
    requires Allowed(net, fl, m, a) && !a.Drop? && Dropped(x) !in fl.trail
    ensures Dropped(x) !in Act(net, fl, m, a).trail
  {
    var news := News(net, fl, m, a);
    assert Dropped(x) !in news;
    assert Act(net, fl, m, a).trail == fl.trail + news;
  }

  lemma PerformKeepsCalm(c: Config, st: State, w: Worker, f: Frame, a: Action, st': State)
    requires c.Valid() && Performs(c, st, w, f, a, st') && Calm(st) && !a.Drop?
    ensures Calm(st')
  {
    var net, fl, m := c.NetOf(f.stream), st.flow[f], c.Mod(w);
    hide Config.Valid;
    forall g, x: nat | g in st'.flow ensures Dropped(x) !in st'.flow[g].trail {
      if g == f { NewsOfOthers(net, fl, m, a, x); }
    }
  }

  lemma CleanStepKeepsCalm(c: Config, st: State, step: Step)
    requires c.Valid() && Sound(c, st) && Enabled(c, st, step) && Clean(step) && Calm(st)
    ensures Calm(After(c, st, step))
  {
    hide Sound;
    hide Config.Valid;
    hide NoDrops;
    hide Performs;
    if Progress(step) {
      var f, a := StepPerforms(c, st, step);
      DropsHaveCause(c, st, step, f, a);
      assert Flagged(c, st, step) == st;
      PerformKeepsCalm(c, st, step.w, f, a, After(c, st, step));
    } else {
      OtherStepsKeepFlow(c, st, step);
      SameFlowSameDrops(st, After(c, st, step));
    }
  }

  lemma SameFlowSameDrops(st: State, st': State)
    requires NoDrops(st) && st'.flow == st.flow
    ensures NoDrops(st')
  {
  }

  lemma InitHasNoDrops(c: Config, st: State)
    requires c.Valid() && Init(c, st)
    ensures NoDrops(st)
  {
  }

  /** Completion: in a run in which nothing goes wrong and no stream is removed, once all is quiet, every
      frame that any source sent has passed through all modules of its route. */
  lemma {:induction false} CleanRunsComplete(c: Config, states: seq<State>, steps: seq<Step>, rank: seq<nat>, f: Frame)
    requires c.Valid() && Run(c, states, steps) && RankedBy(c, rank) && c.flawed == {} && states[0].removed == {}
    requires forall i :: 0 <= i < |steps| ==> Clean(steps[i])
    requires f in c.Frames() && Quiescent(states[|steps|])
    ensures f in states[|steps|].passed && f in states[|steps|].flow && states[|steps|].flow[f].mask == c.all
  {
    RunInv(c, states, steps);
    InitHasNoDrops(c, states[0]);
    hide Sound;
    hide Config.Valid;
    hide RankedBy;
    for i := 0 to |steps|
      invariant Calm(states[i])
    {
      CleanStepKeepsCalm(c, states[i], steps[i]);
    }
    var st := states[|steps|];
    assert Reachable(c, st);
    Completion(c, st, rank, f);
  }

  // ----- Joins and order -----

  /** Every push goes to a module on the route, from one of its parents, after all its parents on
      the route have marked, and the pushing parent was the last of them. */
  ghost predicate PushedByLast(net: Net, trail: seq<Event>) {
    forall j :: 0 <= j < |trail| && trail[j].Delivered? ==> PushedRight(net, trail[..j], trail[j].mod, trail[j].from)
  }

  ghost predicate PushedRight(net: Net, past: seq<Event>, n: nat, p: nat) {
    && n in net.route && n != net.head && net.IsModule(n) && p in net.parents[n]
    && MarkedLast(net, past, p, net.parents[n])
  }

  /** Once all its parents on the route have marked, a module has been pushed the frame or one
      parent is about to. */
  ghost predicate NoJoinSkipped(net: Net, fl: Flow) {
    forall n :: n in net.route && n != net.head && net.IsModule(n) && MarkedBy(net, fl.trail, net.parents[n]) ==>
      Fed(fl.trail, n) || exists k :: Owes(net, fl, k, n)
  }

  /** Exactly-once joins, in every state of every run: a frame sees no event twice (no module is
      pushed the frame, takes it, marks it or drops it a second time, and OnPassThrough is called
      once at most), it is pushed by the last parent to mark it, and no join is skipped. */
  lemma JoinsFireOnce(c: Config, st: State, f: Frame)
    requires c.Valid() && Reachable(c, st) && f in c.Frames()
    ensures f in st.flow && f.stream < |c.head|
    ensures NoneTwice(st.flow[f].trail)
    ensures PushedByLast(c.NetOf(f.stream), st.flow[f].trail)
    ensures NoJoinSkipped(c.NetOf(f.stream), st.flow[f])
  {
    ReachableIsSound(c, st);
    FlowIsOk(c, st, f);
    hide Sound;
    hide Config.Valid;
    FlowJoins(c.NetOf(f.stream), st.flow[f]);
  }

  lemma FlowJoins(net: Net, fl: Flow)
    requires net.Valid() && FrameFlow.Inv(net, fl)
    ensures NoneTwice(fl.trail) && PushedByLast(net, fl.trail) && NoJoinSkipped(net, fl)
  {
    assert NoneTwice(fl.trail);
    hide FrameFlow.Inv;
    forall j | 0 <= j < |fl.trail| && fl.trail[j].Delivered?
      ensures PushedRight(net, fl.trail[..j], fl.trail[j].mod, fl.trail[j].from)
    {
      DeliveryIsRight(net, fl, j);
    }
    forall n | n in net.route && n != net.head && net.IsModule(n) && MarkedBy(net, fl.trail, net.parents[n])
      ensures Fed(fl.trail, n) || exists k :: Owes(net, fl, k, n)
    {
      JoinIsServed(net, fl, n);
    }
  }

  lemma DeliveryIsRight(net: Net, fl: Flow, j: nat)
    requires net.Valid() && FrameFlow.Inv(net, fl) && j < |fl.trail| && fl.trail[j].Delivered?
    ensures PushedRight(net, fl.trail[..j], fl.trail[j].mod, fl.trail[j].from)
  {
    var e := fl.trail[j];
    assert Delivered(e.mod, e.from) in fl.trail;
    assert Fed(fl.trail, e.mod);
    assert Timely(net, fl.trail[..j], e);
  }

  lemma JoinIsServed(net: Net, fl: Flow, n: nat)
    requires net.Valid() && FrameFlow.Inv(net, fl)
    requires n in net.route && n != net.head && net.IsModule(n) && MarkedBy(net, fl.trail, net.parents[n])
    ensures Fed(fl.trail, n) || exists k :: Owes(net, fl, k, n)
  {
    assert net.ParentOnRoute(n);
    forall p | p in net.parents[n] ensures p in fl.mask {
      if p in net.route { assert Marked(p) in fl.trail; }
    }
  }

  /** What the mask means: once its head has marked a frame, the mask is the modules off the head's
      route together with the modules that have marked the frame, and only modules on the route
      ever get the frame. */
  lemma MaskMeaning(c: Config, st: State, f: Frame)
    requires c.Valid() && Reachable(c, st) && f in c.Frames()
    ensures f in st.flow && f.stream < |c.head|
    ensures Marked(c.head[f.stream]) in st.flow[f].trail ==> forall m ::
              m in st.flow[f].mask <==> (m in c.all && m !in c.route[f.stream]) || Marked(m) in st.flow[f].trail
    ensures st.flow[f].stage.Keys <= c.route[f.stream]
  {
    ReachableIsSound(c, st);
    FlowIsOk(c, st, f);
    hide Reachable;
    hide Flows;
    hide Linked;
    hide Fifo;
    var net, fl := c.NetOf(f.stream), st.flow[f];
    FlowMask(net, fl);
  }

  lemma FlowMask(net: Net, fl: Flow)
    requires net.Valid() && FrameFlow.Inv(net, fl)
    ensures Marked(net.head) in fl.trail ==> forall m ::
              m in fl.mask <==> (m in net.all && m !in net.route) || Marked(m) in fl.trail
    ensures fl.stage.Keys <= net.route
  {
    assert InBounds(net, fl) && MaskOffRoute(net, fl) && MarkedTells(net, fl);
    hide FrameFlow.Inv;
  }

  /** Frame `f1` comes before `f2` in `q`. */
  ghost predicate Precedes(q: seq<Frame>, f1: Frame, f2: Frame) {
    exists j, k :: 0 <= j < k < |q| && q[j] == f1 && q[k] == f2
  }

  /** Per-stream order, joins included: if a source sends `f1` before `f2` and a module takes both,
      then one worker takes both, and `f1` first. */
  lemma StreamOrder(c: Config, st: State, f1: Frame, f2: Frame, m: nat) returns (w: Worker)
    requires c.Valid() && Reachable(c, st) && f1 in st.flow && f2 in st.flow && Before(f1, f2)
    requires Taken(m) in st.flow[f1].trail && Taken(m) in st.flow[f2].trail
    ensures w in c.Workers() && w in st.taken && c.Mod(w) == m && Precedes(st.taken[w], f1, f2)
  {
    ReachableIsSound(c, st);
    hide Reachable;
    hide FlowOk;
    hide Linked;
    hide Fifo;
    hide Outcomes;
    w := TakenByOne(c, st, f1, f2, m);
  }

  lemma TakenByOne(c: Config, st: State, f1: Frame, f2: Frame, m: nat) returns (w: Worker)
    requires c.Valid() && Shape(c, st) && Linked(c, st) && Fifo(c, st)
    requires f1 in st.flow && f2 in st.flow && Before(f1, f2)
    requires FlowOk(c, f1, st.flow[f1]) && Taken(m) in st.flow[f1].trail
    requires FlowOk(c, f2, st.flow[f2]) && Taken(m) in st.flow[f2].trail
    ensures w in c.Workers() && w in st.taken && c.Mod(w) == m && Precedes(st.taken[w], f1, f2)
  {
    hide FlowOk;
    TakenIsStage(c, f1, st.flow[f1], m);
    TakenIsStage(c, f2, st.flow[f2], m);
    RouteIsServed(c, f1, st.flow[f1], m);
    w := c.WorkerOf(m, f1.stream);
    assert HistoryTells(c, st, w, f1) && HistoryTells(c, st, w, f2);
    FifoOrder(st.taken[w], st.queue[w], f1, f2);
  }

  lemma TakenIsStage(c: Config, f: Frame, fl: Flow, m: nat)
    requires c.Valid() && FlowOk(c, f, fl) && Taken(m) in fl.trail
    ensures m in fl.stage && !fl.stage[m].Waiting?
  {
    assert FrameFlow.TakenTells(fl);
    hide FlowOk;
  }

  lemma FifoOrder(past: seq<Frame>, q: seq<Frame>, f1: Frame, f2: Frame)
    requires InOrder(past + q) && f1 in past && f2 in past && Before(f1, f2)
    ensures Precedes(past, f1, f2)
  {
    var j :| 0 <= j < |past| && past[j] == f1;
    var k :| 0 <= k < |past| && past[k] == f2;
    assert (past + q)[j] == f1 && (past + q)[k] == f2;
  }

  /** OnPassThrough and the EOS_MSGs come in stream order, once a frame; and when a frame has passed
      through, no module has an earlier frame of its stream in its queue or in hand, so that an
      EOS_MSG comes after all that happens to the frames before it. */
  lemma PassedInOrder(c: Config, st: State)
    requires c.Valid() && Reachable(c, st)
    ensures InOrder(st.passed) && InOrder(st.eosMessages)
    ensures forall f :: f in st.eosMessages <==> f in st.passed && f.eos
    ensures forall f1, f2, m :: f2 in st.passed && Before(f1, f2) && HasStage(st, f1, m) ==>
              Over(st.flow[f1].stage[m])
  {
    ReachableIsSound(c, st);
    hide Reachable;
    hide FlowOk;
    hide Linked;
    hide Fifo;
    forall f1, f2, m | f2 in st.passed && Before(f1, f2) && HasStage(st, f1, m) ensures Over(st.flow[f1].stage[m]) {
      StageOnRoute(c, f1, st.flow[f1], m);
      assert c.NetOf(f1.stream).Valid();
      assert m in c.all;
    }
  }
}
