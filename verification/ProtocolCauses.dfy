/** What workers do with a frame, read off the steps of a run: exactly which steps drop it, which flag it, to which
    conveyor it goes, and how far conveyors fill. */
module ProtocolCauses {
  import opened FrameFlow
  import opened Protocol
  import opened ProtocolInvariant
  import opened ProtocolTheorems

  /** In the step a worker handles frame `f`, which it has in hand at module `m`. */
  ghost predicate Handles(c: Config, st: State, step: Step, f: Frame, m: nat) {
    && !step.SetRemoved? && step.w in st.busy && st.busy[step.w] == f
    && (step.w.Source? ==> step.w.stream < |c.head|) && c.Mod(step.w) == m
  }

  /** What stops a frame: for data, Process that fails on it, a source that finds the stream removed, or a stream
      that is removed when the frame is to be marked; for any frame, the invalid flag. */
  predicate Fails(st: State, step: Step, f: Frame) {
    match step
    case Process(w, ok, _) => !f.eos && if w.Task? then f.stream !in st.removed && !ok else f.stream in st.removed
    case Enter(_) => f in st.invalid
    case Mark(_) => !f.eos && f.stream in st.removed
    case _ => false
  }

  ghost predicate Drops(c: Config, st: State, step: Step, f: Frame, m: nat) {
    Handles(c, st, step, f, m) && Fails(st, step, f)
  }

  // ----- One step -----

  lemma ChoiceFails(c: Config, st: State, step: Step)
    requires c.Valid() && Sound(c, st) && Enabled(c, st, step) && Progress(step) && !step.Pop?
    ensures step.w in st.busy && st.busy[step.w] in st.flow && (step.w.Source? ==> step.w.stream < |c.head|)
    ensures Choice(c, st, step, st.busy[step.w], c.Mod(step.w)).Drop? <==> Fails(st, step, st.busy[step.w])
  {
    hide FlowOk;
    hide Fifo;
    hide Outcomes;
    hide Flags;
    hide EarlierCame;
    hide ThroughWithEarlier;
    var f := st.busy[step.w];
    HeadIsSource(c, step.w);
    if step.Enter? { GuardNeverRejects(c, f, st.flow[f], c.Mod(step.w)); }
  }

  lemma HeadIsSource(c: Config, w: Worker)
    requires c.Valid() && w in c.Workers()
    ensures (w.Source? ==> w.stream < |c.head|) && c.Mod(w) < |c.parents|
    ensures c.parents[c.Mod(w)] == {} <==> w.Source?
  {
    if w.Source? { HeadOfSource(c, w.stream); }
  }

  lemma NewDrop(net: Net, fl: Flow, k: nat, a: Action, m: nat)
    requires Allowed(net, fl, k, a)
    ensures Dropped(m) in Act(net, fl, k, a).trail <==> Dropped(m) in fl.trail || (a.Drop? && m == k)
  {
    assert Act(net, fl, k, a).trail == fl.trail + News(net, fl, k, a);
  }

  /** A step drops a frame exactly if its worker has the frame in hand and something stops it. */
  lemma StepDrops(c: Config, st: State, step: Step, f: Frame, m: nat)
    requires c.Valid() && Sound(c, st) && Enabled(c, st, step) && f in st.flow
    ensures f in After(c, st, step).flow
    ensures Dropped(m) in After(c, st, step).flow[f].trail <==>
              Dropped(m) in st.flow[f].trail || Drops(c, st, step, f, m)
  {
    hide Sound;
    hide Choice;
    if Progress(step) {
      var g, a := StepPerforms(c, st, step);
      var net := c.NetOf(g.stream);
      NewDrop(net, st.flow[g], c.Mod(step.w), a, m);
      if !step.Pop? { ChoiceFails(c, st, step); } else { PopTakes(c, st, step, g); }
    }
  }

  lemma PopTakes(c: Config, st: State, step: Step, f: Frame)
    requires c.Valid() && step.Pop? && f in st.flow && (step.w.Source? ==> step.w.stream < |c.head|)
    ensures Choice(c, st, step, f, c.Mod(step.w)) == Take
  {
  }

  /** A step that handles a frame and is not stopped brings it on; one that is stopped ends its way. */
  lemma StepBringsOn(c: Config, st: State, step: Step, f: Frame, m: nat)
    requires c.Valid() && Sound(c, st) && Enabled(c, st, step) && f in st.flow && Handles(c, st, step, f, m)
    requires step.Process? || step.Enter? || step.Mark?
    ensures f in After(c, st, step).flow && m in After(c, st, step).flow[f].stage
    ensures var s, trail := After(c, st, step).flow[f].stage[m], After(c, st, step).flow[f].trail;
            if Fails(st, step, f) then s.Lost? && trail == st.flow[f].trail + [Dropped(m)]
            else if step.Process? then s.Ready? && trail == st.flow[f].trail
            else if step.Enter? then s.Vetted? && trail == st.flow[f].trail
            else (s.Sending? || s.Done?) && st.flow[f].trail + [Marked(m)] <= trail
  {
    hide Sound;
    hide Choice;
    ChoiceFails(c, st, step);
    ChoiceGoesOn(c, st, step, f, m);
    var g, a := StepPerforms(c, st, step);
  }

  lemma ChoiceGoesOn(c: Config, st: State, step: Step, f: Frame, m: nat)
    requires c.Valid() && f in st.flow && Progress(step)
    ensures var a := Choice(c, st, step, f, m);
            && (step.Process? ==> a.Drop? || a.Hand?)
            && (step.Enter? ==> a.Drop? || a.Vet?)
            && (step.Mark? ==> a.Drop? || a.Mark?)
  {
  }

  // ----- Runs -----

  ghost predicate DroppedBefore(c: Config, states: seq<State>, steps: seq<Step>, k: nat, f: Frame, m: nat)
    requires |states| == |steps| + 1
  {
    exists i :: 0 <= i < k && i < |steps| && Drops(c, states[i], steps[i], f, m)
  }

  /** A module has dropped a frame exactly if in some step before, its worker had the frame in hand and something
      stopped it. */
  lemma {:induction false} DropsExactly(c: Config, states: seq<State>, steps: seq<Step>, k: nat, f: Frame, m: nat)
    requires c.Valid() && Run(c, states, steps) && k < |states| && f in c.Frames()
    ensures f in states[k].flow
    ensures Dropped(m) in states[k].flow[f].trail <==> DroppedBefore(c, states, steps, k, f, m)
  {
    hide Config.Valid;
    hide Enabled;
    hide After;
    hide Drops;
    if k == 0 {
      NothingAtStart(c, states[0], f);
    } else {
      DropsExactly(c, states, steps, k - 1, f, m);
      assert states[k] == After(c, states[k - 1], steps[k - 1]);
      RunInv(c, states, steps);
      StepDrops(c, states[k - 1], steps[k - 1], f, m);
      if DroppedBefore(c, states, steps, k, f, m) {
        var i :| 0 <= i < k && i < |steps| && Drops(c, states[i], steps[i], f, m);
        assert i == k - 1 || DroppedBefore(c, states, steps, k - 1, f, m);
      }
      if Dropped(m) in states[k].flow[f].trail && !Drops(c, states[k - 1], steps[k - 1], f, m) {
        var i :| 0 <= i < k - 1 && i < |steps| && Drops(c, states[i], steps[i], f, m);
        assert DroppedBefore(c, states, steps, k, f, m);
      }
    }
  }

  lemma NothingAtStart(c: Config, st: State, f: Frame)
    requires c.Valid() && Init(c, st) && f in c.Frames()
    ensures f in st.flow && st.flow[f].trail == []
  {
  }

  /** What a module has dropped it has not marked and not pushed on, and the frame does not pass through. */
  lemma DroppedIsLost(c: Config, st: State, f: Frame, m: nat)
    requires c.Valid() && Sound(c, st) && f in st.flow && Dropped(m) in st.flow[f].trail
    ensures Marked(m) !in st.flow[f].trail && (forall n :: Delivered(n, m) !in st.flow[f].trail)
    ensures f !in st.passed
  {
    assert Outcomes(c, st) && Flows(c, st);
    hide Sound;
    hide Config.Valid;
    var net, fl := c.NetOf(f.stream), st.flow[f];
    assert FlowOk(c, f, fl) && c.NetOf(f.stream).all == c.all;
    RouteIsInAll(c, f.stream);
    LostIsUnmarked(net, fl, m);
  }

  lemma RouteIsInAll(c: Config, s: nat)
    requires c.Valid() && s < |c.head|
    ensures s < |c.route| && c.route[s] <= c.all
  {
    assert c.NetOf(s).Valid();
  }

  lemma MarkedThen(net: Net, trail: seq<Event>, n: nat, m: nat)
    requires AllTimely(net, trail) && Delivered(n, m) in trail
    ensures Marked(m) in trail
  {
    var j :| 0 <= j < |trail| && trail[j] == Delivered(n, m);
    assert Timely(net, trail[..j], trail[j]);
    var i :| 0 <= i < j && trail[..j][i] == Marked(m);
    assert trail[i] == Marked(m);
  }

  lemma LostIsUnmarked(net: Net, fl: Flow, m: nat)
    requires FrameFlow.Inv(net, fl) && Dropped(m) in fl.trail
    ensures Marked(m) !in fl.trail && (forall n :: Delivered(n, m) !in fl.trail)
    ensures m in net.route && m !in fl.mask
  {
    assert DroppedTells(fl) && MarkedTells(net, fl) && MaskIsMarks(net, fl) && InBounds(net, fl);
    assert AllTimely(net, fl.trail);
    hide FrameFlow.Inv;
    hide AllTimely;
    forall n ensures Delivered(n, m) !in fl.trail {
      if Delivered(n, m) in fl.trail { MarkedThen(net, fl.trail, n, m); }
    }
  }

  /** If in some step something stops a frame, its module has dropped it in every later state, and never marks
      it or pushes it on, and OnPassThrough is not called for it. */
  lemma StoppedForGood(c: Config, states: seq<State>, steps: seq<Step>, i: nat, k: nat, f: Frame, m: nat)
    requires c.Valid() && Run(c, states, steps) && i < k < |states| && f in c.Frames()
    requires Handles(c, states[i], steps[i], f, m) && Fails(states[i], steps[i], f)
    ensures f in states[k].flow && Dropped(m) in states[k].flow[f].trail && Marked(m) !in states[k].flow[f].trail
    ensures (forall n :: Delivered(n, m) !in states[k].flow[f].trail) && f !in states[k].passed
  {
    assert Drops(c, states[i], steps[i], f, m);
    assert DroppedBefore(c, states, steps, k, f, m);
    DropsExactly(c, states, steps, k, f, m);
    RunInv(c, states, steps);
    DroppedIsLost(c, states[k], f, m);
  }

  /** A frame on which Process fails, in a module that is no source, and whose stream is not removed, goes no
      further. */
  lemma FailedGoesNoFurther(c: Config, states: seq<State>, steps: seq<Step>, i: nat, k: nat, f: Frame)
    requires c.Valid() && Run(c, states, steps) && i < k < |states| && f in c.Frames()
    requires steps[i].Process? && steps[i].w.Task? && !steps[i].ok
    requires steps[i].w in states[i].busy && states[i].busy[steps[i].w] == f
    requires !f.eos && f.stream !in states[i].removed
    ensures f in states[k].flow && f !in states[k].passed
    ensures Dropped(steps[i].w.mod) in states[k].flow[f].trail && Marked(steps[i].w.mod) !in states[k].flow[f].trail
  {
    StoppedForGood(c, states, steps, i, k, f, steps[i].w.mod);
  }

  // ----- Flags and removals -----

  /** Process sets the invalid flag of the frame that a TaskLoop has in hand. */
  ghost predicate FlagsIt(st: State, step: Step, f: Frame) {
    && step.Process? && step.flag && step.w.Task? && step.w in st.busy && st.busy[step.w] == f
    && !f.eos && f.stream !in st.removed
  }

  ghost predicate FlaggedBefore(states: seq<State>, steps: seq<Step>, k: nat, f: Frame)
    requires |states| == |steps| + 1
  {
    exists i :: 0 <= i < k && i < |steps| && FlagsIt(states[i], steps[i], f)
  }

  lemma StepFlags(c: Config, st: State, step: Step, f: Frame)
    requires c.Valid() && Enabled(c, st, step)
    ensures f in After(c, st, step).invalid <==> f in st.invalid || FlagsIt(st, step, f)
  {
    hide Config.Valid;
    hide Choice;
  }

  /** A frame is invalid exactly if it was sent so or Process has flagged it. */
  lemma {:induction false} InvalidExactly(c: Config, states: seq<State>, steps: seq<Step>, k: nat, f: Frame)
    requires c.Valid() && Run(c, states, steps) && k < |states|
    ensures f in states[k].invalid <==> f in c.flawed || FlaggedBefore(states, steps, k, f)
  {
    hide Config.Valid;
    hide Enabled;
    hide After;
    hide FlagsIt;
    if k > 0 {
      InvalidExactly(c, states, steps, k - 1, f);
      assert states[k] == After(c, states[k - 1], steps[k - 1]);
      StepFlags(c, states[k - 1], steps[k - 1], f);
      if FlaggedBefore(states, steps, k, f) {
        var i :| 0 <= i < k && i < |steps| && FlagsIt(states[i], steps[i], f);
        assert i == k - 1 || FlaggedBefore(states, steps, k - 1, f);
      }
      if f in states[k].invalid && f !in c.flawed && !FlagsIt(states[k - 1], steps[k - 1], f) {
        var i :| 0 <= i < k - 1 && i < |steps| && FlagsIt(states[i], steps[i], f);
        assert FlaggedBefore(states, steps, k, f);
      }
    }
  }

  /** Removed are the streams whose latest SetStreamRemoved was with true, and nothing else changes that. */
  lemma StepRemoves(c: Config, st: State, step: Step, s: nat)
    requires c.Valid() && Enabled(c, st, step)
    ensures s in After(c, st, step).removed <==>
              if step.SetRemoved? && step.stream == s then step.value else s in st.removed
  {
    hide Config.Valid;
    hide Choice;
  }
}
