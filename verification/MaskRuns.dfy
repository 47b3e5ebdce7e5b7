/** Runs with the 64-bit masks that frames carry: every decision that the code takes on bits is the one
    that the protocol takes on sets, so the theorems about its runs are about the code's masks too. */
module MaskRuns {
  import opened Sequences
  import opened FrameFlow
  import opened Protocol
  import opened ProtocolInvariant
  import opened ProtocolTheorems
  import opened ModuleMasks
  import opened NestedGraphs
  import NestedDfs
  import opened NestedBuilds
  import Pipelines
  import opened PipelineRuns

  /** Per module its id, `parent_nodes_mask` and `route_mask`; and `all_modules_mask_`. */
  datatype Masks = Masks(ids: seq<bv64>, all: bv64, parents: seq<bv64>, routes: seq<bv64>)

  /** `modules_mask_` of every frame, and `cur_mask` of TransmitData for a frame at a module. */
  datatype Bits = Bits(mask: map<Frame, bv64>, cur: map<(Frame, nat), bv64>)

  ghost predicate Mean(c: Config, k: Masks)
    requires c.Valid()
  {
    && |k.ids| == |k.parents| == |k.routes| == |c.order| && Stands(k.ids, k.all, c.all)
    && (forall m: nat :: m < |c.order| ==> Stands(k.ids, k.parents[m], c.parents[m]))
    && (forall s: nat :: s < |c.head| ==>
          c.head[s] < |c.order| && Stands(k.ids, k.routes[c.head[s]], c.route[s]))
  }

  predicate Known(k: Masks, b: Bits, f: Frame, m: nat) {
    f in b.mask && m < |k.ids| == |k.parents| == |k.routes| && k.ids[m] < 64
  }

  /** PassedByAllParentNodes */
  predicate PassedByAll(mask: bv64, parents: bv64) {
    mask & parents == parents
  }

  /** `Choice`, with all tests on masks as the code has them. */
  ghost function BitChoice(k: Masks, st: State, b: Bits, step: Step, f: Frame, m: nat): Action
    requires Progress(step) && f in st.flow && Known(k, b, f, m)
  {
    var isHead, removed := k.parents[m] == 0, f.stream in st.removed;
    var s := if m in st.flow[f].stage then st.flow[f].stage[m] else Done;
    match step
    case Pop(_) => Take
    case Process(_, ok, _) =>
      if f.eos then Hand
      else if isHead then if removed then Drop else Hand
      else if removed || ok then Hand else Drop
    case Enter(_) =>
      if b.mask[f] == 0 && !isHead then Drop
      else if f in st.invalid then Drop
      else Vet
    case Mark(_) => if !f.eos && removed then Drop else Action.Mark
    case Transmit(_) =>
      if !s.Sending? || s.todo == [] || (f, m) !in b.cur then Finish
      else if s.todo[0] < |k.parents| && PassedByAll(b.cur[(f, m)], k.parents[s.todo[0]]) then Push
      else Skip
  }

  /** The mask that a head gives a frame: the modules off its route. */
  function OffRoute(all: bv64, route: bv64): bv64 { all ^ route }

  /** SetModulesMask and MarkPassed */
  function BitAct(k: Masks, b: Bits, f: Frame, m: nat, a: Action): Bits
    requires Known(k, b, f, m)
  {
    match a
    case Vet => if k.parents[m] == 0 then b.(mask := b.mask[f := OffRoute(k.all, k.routes[m])]) else b
    case Mark =>
      var cur := SetBit(b.mask[f], k.ids[m]);
      Bits(b.mask[f := cur], b.cur[(f, m) := cur])
    case _ => b
  }

  ghost function BitAfter(c: Config, k: Masks, st: State, b: Bits, step: Step): Bits
    requires c.Valid() && Enabled(c, st, step)
  {
    if !Progress(step) then b
    else
      var f, m := FrameOf(c, st, step), c.Mod(step.w);
      if Known(k, b, f, m) then BitAct(k, b, f, m, BitChoice(k, st, b, step, f, m)) else b
  }

  /** The masks of one frame stand for the sets of its flow. */
  ghost predicate FlowAgrees(k: Masks, f: Frame, fl: Flow, b: Bits) {
    && f in b.mask && Stands(k.ids, b.mask[f], fl.mask)
    && forall m :: m in fl.stage && fl.stage[m].Sending? ==>
         (f, m) in b.cur && Stands(k.ids, b.cur[(f, m)], fl.stage[m].snap)
  }

  ghost predicate Agree(k: Masks, st: State, b: Bits) {
    forall f :: f in st.flow ==> FlowAgrees(k, f, st.flow[f], b)
  }

  /** What the step decides on bits, the test for OnPassThrough included, is what it decides on sets. */
  ghost predicate SameDecisions(c: Config, k: Masks, st: State, b: Bits, step: Step)
    requires c.Valid() && Enabled(c, st, step) && Progress(step)
  {
    var f, m := FrameOf(c, st, step), c.Mod(step.w);
    && Known(k, b, f, m)
    && BitChoice(k, st, b, step, f, m) == Choice(c, st, step, f, m)
    && (Choice(c, st, step, f, m).Mark? ==>
          (SetBit(b.mask[f], k.ids[m]) == k.all <==> st.flow[f].mask + {m} == c.all))
  }

  /** The three tests on masks. */
  ghost predicate SameTests(c: Config, k: Masks, fl: Flow, b: Bits, f: Frame, m: nat)
    requires Known(k, b, f, m)
  {
    && |k.parents| == |c.parents| == |c.order|
    && (k.parents[m] == 0 <==> c.parents[m] == {})
    && (b.mask[f] == 0 <==> fl.mask == {})
    && (m in fl.stage && fl.stage[m].Sending? && fl.stage[m].todo != [] ==>
          && var n := fl.stage[m].todo[0];
             n < |c.order| && (f, m) in b.cur
             && (PassedByAll(b.cur[(f, m)], k.parents[n]) <==> c.parents[n] <= fl.stage[m].snap))
  }

  lemma Sizes(c: Config)
    requires c.Valid()
    ensures |c.parents| == |c.order| && |c.head| == |c.route|
  {
  }

  lemma ParentsStand(c: Config, k: Masks, m: nat)
    requires c.Valid() && Mean(c, k) && m < |c.order|
    ensures |k.parents| == |c.parents| == |c.order| && Stands(k.ids, k.parents[m], c.parents[m])
    ensures k.parents[m] == 0 <==> c.parents[m] == {}
  {
    Sizes(c);
    hide Config.Valid;
    hide Stands;
    assert Stands(k.ids, k.parents[m], c.parents[m]);
    Nothing(k.ids, k.parents[m], c.parents[m]);
  }

  lemma ParentsPassed(ids: seq<bv64>, mask: bv64, s: set<nat>, parents: bv64, ps: set<nat>)
    requires Stands(ids, mask, s) && Stands(ids, parents, ps)
    ensures PassedByAll(mask, parents) <==> ps <= s
  {
    SubsetStands(ids, mask, s, parents, ps);
  }

  lemma PushTest(c: Config, k: Masks, fl: Flow, b: Bits, f: Frame, m: nat, n: nat)
    requires c.Valid() && Mean(c, k) && FlowAgrees(k, f, fl, b) && n < |c.order|
    requires m in fl.stage && fl.stage[m].Sending?
    ensures n < |k.parents| == |c.parents| && (f, m) in b.cur
    ensures PassedByAll(b.cur[(f, m)], k.parents[n]) <==> c.parents[n] <= fl.stage[m].snap
  {
    ParentsStand(c, k, n);
    hide Config.Valid;
    hide Mean;
    hide Stands;
    hide PassedByAll;
    ParentsPassed(k.ids, b.cur[(f, m)], fl.stage[m].snap, k.parents[n], c.parents[n]);
  }

  lemma TestsAreSame(c: Config, k: Masks, fl: Flow, b: Bits, f: Frame, m: nat)
    requires c.Valid() && Mean(c, k) && FlowAgrees(k, f, fl, b) && Known(k, b, f, m) && m < |c.order|
    requires m in fl.stage && fl.stage[m].Sending? && fl.stage[m].todo != [] ==> fl.stage[m].todo[0] < |c.order|
    ensures SameTests(c, k, fl, b, f, m)
  {
    hide Config.Valid;
    hide Mean;
    hide Stands;
    hide PassedByAll;
    ParentsStand(c, k, m);
    Nothing(k.ids, b.mask[f], fl.mask);
    if m in fl.stage && fl.stage[m].Sending? && fl.stage[m].todo != [] {
      PushTest(c, k, fl, b, f, m, fl.stage[m].todo[0]);
    }
  }

  lemma SameChoice(c: Config, k: Masks, st: State, b: Bits, step: Step, f: Frame, m: nat)
    requires c.Valid() && Progress(step) && f in st.flow && Known(k, b, f, m) && m < |c.order|
    requires SameTests(c, k, st.flow[f], b, f, m)
    ensures BitChoice(k, st, b, step, f, m) == Choice(c, st, step, f, m)
  {
    hide Config.Valid;
    hide PassedByAll;
  }

  lemma Nothing(ids: seq<bv64>, mask: bv64, s: set<nat>)
    requires Stands(ids, mask, s)
    ensures mask == 0 <==> s == {}
  {
    ZeroStands(ids);
    EqualStands(ids, mask, s, 0, {});
  }

  /** Only the head's Vet writes a mask afresh, and the head knows the route. */
  lemma HeadKnows(net: Net, fl: Flow, m: nat)
    requires net.Valid() && FlowInv(net, fl) && m in fl.stage && net.IsModule(m)
    ensures net.route <= net.all && (net.parents[m] == {} <==> m == net.head)
  {
    if m != net.head { HeadFirst(net, fl, m); }
  }

  lemma MarkAgrees(k: Masks, net: Net, f: Frame, fl: Flow, b: Bits, m: nat)
    requires FlowAgrees(k, f, fl, b) && Known(k, b, f, m) && Stands(k.ids, k.all, net.all)
    ensures Stands(k.ids, SetBit(b.mask[f], k.ids[m]), fl.mask + {m})
    ensures SetBit(b.mask[f], k.ids[m]) == k.all <==> fl.mask + {m} == net.all
  {
    OrStands(k.ids, b.mask[f], fl.mask, m);
    EqualStands(k.ids, SetBit(b.mask[f], k.ids[m]), fl.mask + {m}, k.all, net.all);
  }

  lemma VetAgrees(k: Masks, net: Net, f: Frame, fl: Flow, b: Bits, m: nat)
    requires net.Valid() && FlowInv(net, fl) && Allowed(net, fl, m, Vet) && FlowAgrees(k, f, fl, b)
    requires Known(k, b, f, m) && Stands(k.ids, k.all, net.all) && Stands(k.ids, k.parents[m], net.parents[m])
    requires m == net.head ==> Stands(k.ids, k.routes[m], net.route)
    ensures f in BitAct(k, b, f, m, Vet).mask
    ensures Stands(k.ids, BitAct(k, b, f, m, Vet).mask[f], Act(net, fl, m, Vet).mask)
  {
    hide FlowInv;
    hide Net.Valid;
    hide Stands;
    hide SetBit;
    HeadKnows(net, fl, m);
    Nothing(k.ids, k.parents[m], net.parents[m]);
    hide OffRoute;
    if m == net.head { RootMask(k.ids, k.all, net.all, k.routes[m], net.route); }
  }

  lemma RootMask(ids: seq<bv64>, all: bv64, s: set<nat>, route: bv64, r: set<nat>)
    requires Stands(ids, all, s) && Stands(ids, route, r) && r <= s
    ensures Stands(ids, OffRoute(all, route), s - r)
  {
    XorStands(ids, all, s, route, r);
  }

  lemma MarkedMask(k: Masks, net: Net, f: Frame, fl: Flow, b: Bits, m: nat)
    requires Allowed(net, fl, m, Action.Mark) && FlowAgrees(k, f, fl, b) && Known(k, b, f, m)
    requires Stands(k.ids, k.all, net.all)
    ensures f in BitAct(k, b, f, m, Action.Mark).mask
    ensures Stands(k.ids, BitAct(k, b, f, m, Action.Mark).mask[f], Act(net, fl, m, Action.Mark).mask)
  {
    hide Stands;
    hide SetBit;
    MarkAgrees(k, net, f, fl, b, m);
  }

  lemma OtherMask(k: Masks, net: Net, f: Frame, fl: Flow, b: Bits, m: nat, a: Action)
    requires Allowed(net, fl, m, a) && FlowAgrees(k, f, fl, b) && Known(k, b, f, m) && !a.Vet? && !a.Mark?
    ensures BitAct(k, b, f, m, a) == b && Act(net, fl, m, a).mask == fl.mask
  {
    hide Stands;
  }

  lemma ActMask(k: Masks, net: Net, f: Frame, fl: Flow, b: Bits, m: nat, a: Action)
    requires net.Valid() && FlowInv(net, fl) && Allowed(net, fl, m, a) && FlowAgrees(k, f, fl, b) && Known(k, b, f, m)
    requires Stands(k.ids, k.all, net.all) && Stands(k.ids, k.parents[m], net.parents[m])
    requires m == net.head ==> Stands(k.ids, k.routes[m], net.route)
    ensures f in BitAct(k, b, f, m, a).mask
    ensures Stands(k.ids, BitAct(k, b, f, m, a).mask[f], Act(net, fl, m, a).mask)
  {
    hide FlowInv;
    hide Net.Valid;
    hide Stands;
    hide BitAct;
    hide Act;
    hide Known;
    match a
    case Vet => VetAgrees(k, net, f, fl, b, m);
    case Mark => MarkedMask(k, net, f, fl, b, m);
    case _ => OtherMask(k, net, f, fl, b, m, a);
  }

  lemma ActCur(k: Masks, net: Net, f: Frame, fl: Flow, b: Bits, m: nat, a: Action, j: nat)
    requires Allowed(net, fl, m, a) && FlowAgrees(k, f, fl, b) && Known(k, b, f, m) && Stands(k.ids, k.all, net.all)
    requires j in Act(net, fl, m, a).stage && Act(net, fl, m, a).stage[j].Sending?
    ensures (f, j) in BitAct(k, b, f, m, a).cur
    ensures Stands(k.ids, BitAct(k, b, f, m, a).cur[(f, j)], Act(net, fl, m, a).stage[j].snap)
  {
    hide Stands;
    hide SetBit;
    MarkAgrees(k, net, f, fl, b, m);
  }

  /** An action keeps the masks of its frame. */
  lemma ActAgrees(k: Masks, net: Net, f: Frame, fl: Flow, b: Bits, m: nat, a: Action)
    requires net.Valid() && FlowInv(net, fl) && Allowed(net, fl, m, a) && FlowAgrees(k, f, fl, b) && Known(k, b, f, m)
    requires Stands(k.ids, k.all, net.all) && Stands(k.ids, k.parents[m], net.parents[m])
    requires m == net.head ==> Stands(k.ids, k.routes[m], net.route)
    ensures FlowAgrees(k, f, Act(net, fl, m, a), BitAct(k, b, f, m, a))
  {
    hide FlowInv;
    hide Net.Valid;
    hide Stands;
    hide SetBit;
    ActMask(k, net, f, fl, b, m, a);
    forall j | j in Act(net, fl, m, a).stage && Act(net, fl, m, a).stage[j].Sending?
      ensures (f, j) in BitAct(k, b, f, m, a).cur
      ensures Stands(k.ids, BitAct(k, b, f, m, a).cur[(f, j)], Act(net, fl, m, a).stage[j].snap)
    {
      ActCur(k, net, f, fl, b, m, a, j);
    }
  }

  lemma OtherFrames(k: Masks, f: Frame, g: Frame, fl: Flow, b: Bits, m: nat, a: Action)
    requires Known(k, b, f, m) && FlowAgrees(k, g, fl, b) && g != f
    ensures FlowAgrees(k, g, fl, BitAct(k, b, f, m, a))
  {
    hide Stands;
  }

  lemma MeanOfNet(c: Config, k: Masks, f: Frame, m: nat)
    requires c.Valid() && Mean(c, k) && f.stream < |c.head| && c.NetOf(f.stream).IsModule(m)
    ensures c.NetOf(f.stream).Valid() && m < |k.ids| == |k.parents| == |k.routes| && k.ids[m] < 64
    ensures var net := c.NetOf(f.stream);
            && Stands(k.ids, k.all, net.all) && Stands(k.ids, k.parents[m], net.parents[m])
            && (m == net.head ==> Stands(k.ids, k.routes[m], net.route))
  {
  }

  lemma TodoIsModule(net: Net, fl: Flow, m: nat)
    requires net.Valid() && FlowInv(net, fl) && m in fl.stage && fl.stage[m].Sending? && fl.stage[m].todo != []
    ensures net.IsModule(fl.stage[m].todo[0])
  {
    assert Loop(net, fl, m);
    assert fl.stage[m].todo[0] in net.order[m];
  }

  lemma OwnFrame(c: Config, k: Masks, f: Frame, fl: Flow, b: Bits, m: nat, a: Action)
    requires c.Valid() && Mean(c, k) && FlowOk(c, f, fl) && FlowAgrees(k, f, fl, b)
    requires c.NetOf(f.stream).IsModule(m) && Allowed(c.NetOf(f.stream), fl, m, a)
    ensures Known(k, b, f, m)
    ensures FlowAgrees(k, f, Act(c.NetOf(f.stream), fl, m, a), BitAct(k, b, f, m, a))
    ensures SetBit(b.mask[f], k.ids[m]) == k.all <==> fl.mask + {m} == c.all
  {
    hide FlowAgrees;
    hide Config.Valid;
    hide Mean;
    hide Net.Valid;
    hide Stands;
    hide FlowInv;
    hide SetBit;
    Sizes(c);
    var net := c.NetOf(f.stream);
    MeanOfNet(c, k, f, m);
    KnownHere(k, b, f, fl, m);
    MarkAgrees(k, net, f, fl, b, m);
    ActAgrees(k, net, f, fl, b, m, a);
  }

  lemma PerformAgrees(c: Config, k: Masks, st: State, b: Bits, w: Worker, f: Frame, a: Action, st': State)
    requires c.Valid() && Mean(c, k) && Performs(c, st, w, f, a, st') && Flows(c, st) && Agree(k, st, b)
    ensures Known(k, b, f, c.Mod(w)) && Agree(k, st', BitAct(k, b, f, c.Mod(w), a))
    ensures SetBit(b.mask[f], k.ids[c.Mod(w)]) == k.all <==> st.flow[f].mask + {c.Mod(w)} == c.all
  {
    hide FlowAgrees;
    hide FlowOk;
    hide Config.Valid;
    hide Mean;
    hide SetBit;
    hide BitAct;
    PerformerIsModule(c, st, w, f, a, st');
    hide Performs;
    hide Act;
    var m := c.Mod(w);
    OwnFrame(c, k, f, st.flow[f], b, m, a);
    hide Known;
    forall g | g in st'.flow ensures FlowAgrees(k, g, st'.flow[g], BitAct(k, b, f, m, a)) {
      if g != f { OtherFrames(k, f, g, st.flow[g], b, m, a); }
    }
  }

  lemma ChoiceAgrees(c: Config, k: Masks, st: State, b: Bits, step: Step, f: Frame, m: nat)
    requires c.Valid() && Mean(c, k) && Flows(c, st) && Agree(k, st, b) && Progress(step) && f in st.flow
    requires f.stream < |c.head| && c.NetOf(f.stream).IsModule(m) && m in st.flow[f].stage && Known(k, b, f, m)
    ensures BitChoice(k, st, b, step, f, m) == Choice(c, st, step, f, m)
  {
    var fl := st.flow[f];
    assert FlowOk(c, f, fl) && FlowAgrees(k, f, fl, b);
    MeanOfNet(c, k, f, m);
    if fl.stage[m].Sending? && fl.stage[m].todo != [] { TodoIsModule(c.NetOf(f.stream), fl, m); }
    TestsAreSame(c, k, fl, b, f, m);
    SameChoice(c, k, st, b, step, f, m);
  }

  lemma PerformerIsModule(c: Config, st: State, w: Worker, f: Frame, a: Action, st': State)
    requires c.Valid() && Performs(c, st, w, f, a, st')
    ensures f in st.flow && f.stream < |c.head| && c.NetOf(f.stream).IsModule(c.Mod(w)) && c.Mod(w) in st.flow[f].stage
    ensures |c.head| == |c.route|
    ensures Allowed(c.NetOf(f.stream), st.flow[f], c.Mod(w), a) && c.NetOf(f.stream).all == c.all
    ensures st'.flow == st.flow[f := Act(c.NetOf(f.stream), st.flow[f], c.Mod(w), a)]
  {
    Sizes(c);
    hide Config.Valid;
  }

  lemma KnownHere(k: Masks, b: Bits, f: Frame, fl: Flow, m: nat)
    requires FlowAgrees(k, f, fl, b) && m < |k.ids| == |k.parents| == |k.routes| && k.ids[m] < 64
    ensures Known(k, b, f, m)
  {
  }

  lemma ProgressAgrees(c: Config, k: Masks, st: State, b: Bits, step: Step) returns (f: Frame, a: Action)
    requires c.Valid() && Mean(c, k) && Flows(c, st) && Agree(k, st, b) && Enabled(c, st, step) && Progress(step)
    ensures f in st.flow && f == FrameOf(c, st, step) && a == Choice(c, st, step, f, c.Mod(step.w))
    ensures Known(k, b, f, c.Mod(step.w)) && a == BitChoice(k, st, b, step, f, c.Mod(step.w))
    ensures Agree(k, After(c, st, step), BitAct(k, b, f, c.Mod(step.w), a))
    ensures SetBit(b.mask[f], k.ids[c.Mod(step.w)]) == k.all <==> st.flow[f].mask + {c.Mod(step.w)} == c.all
  {
    hide Config.Valid;
    hide Performs;
    hide FlowAgrees;
    hide FlowOk;
    hide Mean;
    hide BitChoice;
    hide BitAct;
    hide Choice;
    f, a := StepPerforms(c, st, step);
    var flagged, st' := Flagged(c, st, step), After(c, st, step);
    assert flagged.flow == st.flow;
    hide Enabled;
    hide After;
    hide Flagged;
    PerformerIsModule(c, flagged, step.w, f, a, st');
    PerformAgrees(c, k, flagged, b, step.w, f, a, st');
    ChoiceAgrees(c, k, st, b, step, f, c.Mod(step.w));
  }

  /** One step keeps bits and sets together, and decides the same on both. */
  lemma BitStep(c: Config, k: Masks, st: State, b: Bits, step: Step)
    requires c.Valid() && Mean(c, k) && Sound(c, st) && Agree(k, st, b) && Enabled(c, st, step)
    ensures Agree(k, After(c, st, step), BitAfter(c, k, st, b, step))
    ensures Progress(step) ==> SameDecisions(c, k, st, b, step)
  {
    assert Flows(c, st);
    hide Sound;
    hide Config.Valid;
    hide FlowAgrees;
    hide Flows;
    hide Mean;
    hide BitChoice;
    hide BitAct;
    hide Choice;
    hide Known;
    hide FrameOf;
    hide Starts;
    if Progress(step) {
      var f, a := ProgressAgrees(c, k, st, b, step);
    }
  }

  // ----- Runs -----

  /** The masks along a run: a new frame's mask is 0. */
  ghost predicate BitRun(c: Config, k: Masks, states: seq<State>, steps: seq<Step>, bits: seq<Bits>)
    requires c.Valid()
  {
    && Run(c, states, steps) && |bits| == |states|
    && bits[0] == Bits(map f | f in states[0].flow :: 0, map[])
    && forall i :: 0 <= i < |steps| ==> bits[i + 1] == BitAfter(c, k, states[i], bits[i], steps[i])
  }

  lemma AgreeAtStart(c: Config, k: Masks, st: State)
    requires c.Valid() && Mean(c, k) && Init(c, st)
    ensures Agree(k, st, Bits(map f | f in st.flow :: 0, map[]))
  {
    ZeroStands(k.ids);
    hide Stands;
  }

  /** In every state of every run the masks stand for the sets, and every step has decided on bits what it
      decided on sets: whether the frame came with an empty mask, whom to push to, and whether all have marked. */
  lemma {:induction false} MasksFollowRuns(
      c: Config, k: Masks, states: seq<State>, steps: seq<Step>, bits: seq<Bits>, i: nat)
    requires c.Valid() && Mean(c, k) && BitRun(c, k, states, steps, bits) && i < |states|
    ensures Agree(k, states[i], bits[i])
    ensures i < |steps| && Progress(steps[i]) ==> SameDecisions(c, k, states[i], bits[i], steps[i])
  {
    hide Config.Valid;
    hide Agree;
    hide Sound;
    hide Mean;
    hide BitAfter;
    hide SameDecisions;
    hide After;
    hide Enabled;
    RunInv(c, states, steps);
    if i == 0 {
      AgreeAtStart(c, k, states[0]);
    } else {
      MasksFollowRuns(c, k, states, steps, bits, i - 1);
      BitStep(c, k, states[i - 1], bits[i - 1], steps[i - 1]);
    }
    if i < |steps| { BitStep(c, k, states[i], bits[i], steps[i]); }
  }

  /** OnPassThrough has been called for exactly the frames whose 64-bit mask is `all_modules_mask_`. */
  lemma PassedIsFull(
      c: Config, k: Masks, states: seq<State>, steps: seq<Step>, bits: seq<Bits>, i: nat, f: Frame)
    requires c.Valid() && Mean(c, k) && BitRun(c, k, states, steps, bits) && i < |states| && f in states[i].flow
    ensures f in bits[i].mask
    ensures f in states[i].passed <==> bits[i].mask[f] == k.all
  {
    hide BitAfter;
    hide Stands;
    MasksFollowRuns(c, k, states, steps, bits, i);
    RunInv(c, states, steps);
    hide Run;
    hide Config.Valid;
    var st, b := states[i], bits[i];
    assert Sound(c, st) && FlowAgrees(k, f, st.flow[f], b);
    assert Outcomes(c, st);
    hide Sound;
    EqualStands(k.ids, b.mask[f], st.flow[f].mask, k.all, c.all);
  }

  /** The masks that are computed for a bridged graph mean what the runs need, whatever is fed in. */
  lemma PipelineMasks(it: Item, nodes: seq<Path>, next: seq<seq<nat>>, load: Load, sorted: seq<Path>, k: Masks)
    requires WellFormed(it) && Bridged(it)
    requires Pipelines.Numbered(it, nodes) && Pipelines.IsNext(it, nodes, next)
    requires Accepted(it, nodes, load)
    requires Distinct(sorted) && Forward(it, sorted) && Pipelines.SameNodes(nodes, sorted)
    requires Pipelines.MasksMean(it, nodes, k.ids, k.parents, k.routes) && Stands(k.ids, k.all, Upto(|nodes|))
    ensures ConfigFrom(it, nodes, next, load).Valid() && Mean(ConfigFrom(it, nodes, next, load), k)
  {
    var c := ConfigFrom(it, nodes, next, load);
    ConfigIsValid(it, nodes, next, load, sorted);
    assert FedToHeads(it, nodes, load);
    hide Stands;
    hide Config.Valid;
    hide Accepted;
    hide Forward;
    hide Bridged;
    hide WellFormed;
    hide Pipelines.Numbered;
    hide Pipelines.SameNodes;
    hide IsHead;
    hide Pipelines.IteratedFrom;
    hide Pipelines.RouteOf;
    hide Pipelines.ParentsOf;
    forall s: nat | s < |c.head| ensures c.head[s] < |c.order| && Stands(k.ids, k.routes[c.head[s]], c.route[s]) {
      Pipelines.IteratedIsRoute(it, nodes, load.head[s]);
      assert Pipelines.RouteMeans(it, nodes, k.ids, load.head[s], k.routes[load.head[s]]);
    }
  }
}
