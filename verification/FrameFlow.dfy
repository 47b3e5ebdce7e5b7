/** The passage of one frame through the modules, as `Pipeline::TransmitData` drives it.

    Every parallel branch may act on the frame at any time, so the machine below interleaves the
    actions of all the modules that have the frame in hand.  `Protocol` runs one such machine per
    frame and adds what couples the frames: queues, workers and the order of frames.
 */
module FrameFlow {
  import opened Sequences

  /** What the nodes of the pipeline know, for the frames of one head module: the order in which
      GetNext() is iterated, `parent_nodes_mask` and `all_modules_mask_`, and the head's
      `route_mask`.  Masks are sets of module ids. */
  datatype Net = Net(order: seq<seq<nat>>, parents: seq<set<nat>>, all: set<nat>, head: nat, route: set<nat>) {
    ghost predicate Valid() {
      && |parents| == |order|
      && (forall m: nat :: m in all <==> m < |order|)
      && (forall m: nat :: m < |order| ==> parents[m] <= all && m !in parents[m] && Distinct(order[m]))
      && (forall m: nat, n: nat :: m < |order| && n in order[m] ==> n < |order|)
      && (forall m: nat, n: nat :: m < |order| && n < |order| ==> (n in order[m] <==> m in parents[n]))
      && head in route && route <= all && parents[head] == {}
      && (forall n {:trigger ParentOnRoute(n)} :: n in route && n != head ==> ParentOnRoute(n))
      && (forall m, n :: m in route && n in order[m] ==> n in route)
    }

    ghost predicate ParentOnRoute(n: nat) {
      IsModule(n) && exists p :: p in parents[n] && p in route
    }

    predicate IsModule(m: nat) { m < |order| && m < |parents| }
  }

  /** Where the handling of the frame at one module stands. */
  datatype Stage =
    | Waiting                                 // in the module's conveyor
    | Working                                 // popped, in DoProcess
    | Ready                                   // handed to ProvideData
    | Vetted                                  // in TransmitData, past the checks, root mask set
    | Sending(snap: set<nat>, todo: seq<nat>) // marked; todo is the rest of GetNext()
    | Done
    | Lost                                    // failed, invalid or removed: goes no further

  datatype Event =
    | Delivered(mod: nat, from: nat)
    | Taken(mod: nat)
    | Marked(mod: nat)
    | Dropped(mod: nat)
    | Passed  // OnPassThrough

  /** `mask` is the frame's `modules_mask_` as the set of its bits; `trail` is what happened. */
  datatype Flow = Flow(mask: set<nat>, stage: map<nat, Stage>, trail: seq<Event>)

  datatype Action = Take | Hand | Vet | Drop | Mark | Skip | Push | Finish

  function Fresh(h: nat): Flow {
    Flow({}, map[h := Waiting], [])
  }

  ghost predicate Allowed(net: Net, fl: Flow, m: nat, a: Action) {
    && m in fl.stage && net.IsModule(m)
    && var s := fl.stage[m];
       match a
       case Take => s.Waiting?
       case Hand => s.Working?
       case Vet => s.Ready?
       case Drop => s.Working? || s.Ready? || s.Vetted?
       case Mark => s.Vetted?
       case Skip => s.Sending? && s.todo != [] && net.IsModule(s.todo[0]) && !(net.parents[s.todo[0]] <= s.snap)
       case Push => s.Sending? && s.todo != [] && net.IsModule(s.todo[0]) && net.parents[s.todo[0]] <= s.snap
       case Finish => s.Sending? && s.todo == []
  }

  /** What an action adds to the trail. */
  function News(net: Net, fl: Flow, m: nat, a: Action): seq<Event>
    requires Allowed(net, fl, m, a)
  {
    match a
    case Take => [Taken(m)]
    case Drop => [Dropped(m)]
    case Mark => if fl.mask + {m} == net.all then [Marked(m), Passed] else [Marked(m)]
    case Push => [Delivered(fl.stage[m].todo[0], m)]
    case Hand => []
    case Vet => []
    case Skip => []
    case Finish => []
  }

  /** The stage of the acting module after an action. */
  function StageAfter(net: Net, fl: Flow, m: nat, a: Action): Stage
    requires Allowed(net, fl, m, a)
  {
    var s := fl.stage[m];
    match a
    case Take => Working
    case Hand => Ready
    case Vet => Vetted
    case Drop => Lost
    case Mark => if fl.mask + {m} == net.all then Done else Sending(fl.mask + {m}, net.order[m])
    case Skip => Sending(s.snap, s.todo[1..])
    case Push => Sending(s.snap, s.todo[1..])
    case Finish => Done
  }

  function Act(net: Net, fl: Flow, m: nat, a: Action): Flow
    requires Allowed(net, fl, m, a)
  {
    var stage := fl.stage[m := StageAfter(net, fl, m, a)];
    var trail := fl.trail + News(net, fl, m, a);
    match a
    case Vet => Flow(if net.parents[m] == {} then net.all - net.route else fl.mask, stage, trail)
    case Mark => Flow(fl.mask + {m}, stage, trail)
    case Push => Flow(fl.mask, stage[fl.stage[m].todo[0] := Waiting], trail)
    case _ => Flow(fl.mask, stage, trail)
  }

  // ----- The invariant -----

  /** Module `m` is going to push the frame to module `n`. */
  ghost predicate Owes(net: Net, fl: Flow, m: nat, n: nat) {
    && m in fl.stage && fl.stage[m].Sending? && net.IsModule(n)
    && n in fl.stage[m].todo && net.parents[n] <= fl.stage[m].snap
  }

  predicate Over(s: Stage) { s.Done? || s.Lost? }

  predicate Unmarked(s: Stage) {
    s.Waiting? || s.Working? || s.Ready? || s.Vetted? || s.Lost?
  }

  ghost predicate InBounds(net: Net, fl: Flow) {
    net.head in fl.stage && fl.stage.Keys <= net.route && fl.mask <= net.all
  }

  /** A mask is closed under parents, and a module that has the frame has all parents' marks. */
  ghost predicate ParentsFirst(net: Net, fl: Flow) {
    && (forall n :: n in fl.mask && net.IsModule(n) ==> net.parents[n] <= fl.mask)
    && (forall n :: n in fl.stage && net.IsModule(n) ==> net.parents[n] <= fl.mask)
  }

  /** On the route, the bits of the mask are the modules that have marked. */
  ghost predicate MaskIsMarks(net: Net, fl: Flow) {
    && (forall m :: m in fl.stage ==> (m in fl.mask <==> !Unmarked(fl.stage[m])))
    && (forall m :: m in fl.mask && m in net.route ==> m in fl.stage)
  }

  /** Until its head marks it, the mask is empty or just the modules off the route. */
  ghost predicate MaskOffRoute(net: Net, fl: Flow)
    requires net.head in fl.stage
  {
    && (fl.stage[net.head].Waiting? || fl.stage[net.head].Working? || fl.stage[net.head].Ready? ==> fl.mask == {})
    && (fl.stage[net.head].Vetted? ==> fl.mask == net.all - net.route)
    && (fl.mask != {} ==> net.all - net.route <= fl.mask)
  }

  ghost predicate Loop(net: Net, fl: Flow, m: nat)
    requires m in fl.stage && fl.stage[m].Sending?
  {
    && net.IsModule(m) && m in fl.stage[m].snap && fl.stage[m].snap <= fl.mask
    && (forall n :: n in fl.stage[m].todo ==> n in net.order[m])
    && Distinct(fl.stage[m].todo)
  }

  ghost predicate Loops(net: Net, fl: Flow) {
    forall m :: m in fl.stage && fl.stage[m].Sending? ==> Loop(net, fl, m)
  }

  /** Of two modules that are pushing, one did not see the other's mark. */
  ghost predicate SnapsDiffer(fl: Flow) {
    forall m1, m2 :: && m1 != m2 && m1 in fl.stage && m2 in fl.stage
                     && fl.stage[m1].Sending? && fl.stage[m2].Sending? ==>
      m1 !in fl.stage[m2].snap || m2 !in fl.stage[m1].snap
  }

  /** What is still to be pushed to a module has not been pushed to it. */
  ghost predicate NeverTwice(net: Net, fl: Flow) {
    forall m, n :: Owes(net, fl, m, n) ==> n !in fl.stage
  }

  /** What all parents of a module have marked has been pushed to it or will be. */
  ghost predicate NeverSkipped(net: Net, fl: Flow) {
    forall n :: n in net.route && net.IsModule(n) && net.parents[n] <= fl.mask ==>
      n in fl.stage || exists m :: Owes(net, fl, m, n)
  }

  ghost predicate FlowInv(net: Net, fl: Flow) {
    && InBounds(net, fl) && ParentsFirst(net, fl) && MaskIsMarks(net, fl) && MaskOffRoute(net, fl)
    && Loops(net, fl) && SnapsDiffer(fl) && NeverTwice(net, fl) && NeverSkipped(net, fl)
  }

  lemma FreshFlow(net: Net)
    requires net.Valid()
    ensures FlowInv(net, Fresh(net.head))
  {
    forall n | n in net.route && net.IsModule(n) && net.parents[n] <= {} ensures n == net.head {
      assert n != net.head ==> net.ParentOnRoute(n);
    }
  }

  /** Only the head has the frame before the head has marked it. */
  lemma HeadFirst(net: Net, fl: Flow, m: nat)
    requires net.Valid() && InBounds(net, fl) && ParentsFirst(net, fl) && MaskOffRoute(net, fl)
    requires m in fl.stage && m != net.head
    ensures net.parents[m] != {} && fl.mask != {}
    ensures !fl.stage[net.head].Waiting? && !fl.stage[net.head].Working?
    ensures !fl.stage[net.head].Ready? && !fl.stage[net.head].Vetted?
  {
    assert net.ParentOnRoute(m);
  }

  lemma KeepsBounds(net: Net, fl: Flow, m: nat, a: Action)
    requires net.Valid() && Allowed(net, fl, m, a)
    requires InBounds(net, fl) && Loops(net, fl)
    ensures InBounds(net, Act(net, fl, m, a))
  {
  }

  lemma KeepsMaskIsMarks(net: Net, fl: Flow, m: nat, a: Action)
    requires net.Valid() && Allowed(net, fl, m, a)
    requires InBounds(net, fl) && MaskIsMarks(net, fl) && MaskOffRoute(net, fl) && Loops(net, fl) && NeverTwice(net, fl)
    ensures MaskIsMarks(net, Act(net, fl, m, a))
  {
    match a
    case Take =>
    case Hand =>
    case Vet => assert m != net.head ==> net.ParentOnRoute(m);
    case Drop =>
    case Mark =>
    case Skip =>
    case Push => assert Owes(net, fl, m, fl.stage[m].todo[0]);
    case Finish =>
  }

  lemma KeepsParentsFirst(net: Net, fl: Flow, m: nat, a: Action)
    requires net.Valid() && Allowed(net, fl, m, a)
    requires InBounds(net, fl) && ParentsFirst(net, fl) && MaskOffRoute(net, fl) && Loops(net, fl)
    ensures ParentsFirst(net, Act(net, fl, m, a))
  {
    if m != net.head { HeadFirst(net, fl, m); }
  }

  lemma KeepsMaskOffRoute(net: Net, fl: Flow, m: nat, a: Action)
    requires net.Valid() && Allowed(net, fl, m, a)
    requires InBounds(net, fl) && ParentsFirst(net, fl) && MaskOffRoute(net, fl) && NeverTwice(net, fl)
    ensures MaskOffRoute(net, Act(net, fl, m, a))
  {
    if m != net.head { HeadFirst(net, fl, m); }
    if a.Push? { assert Owes(net, fl, m, fl.stage[m].todo[0]); }
  }

  lemma MaskGrows(net: Net, fl: Flow, m: nat, a: Action)
    requires net.Valid() && Allowed(net, fl, m, a)
    requires InBounds(net, fl) && ParentsFirst(net, fl) && MaskOffRoute(net, fl)
    ensures fl.mask <= Act(net, fl, m, a).mask
  {
    if m != net.head { HeadFirst(net, fl, m); }
  }

  lemma OwnLoop(net: Net, fl: Flow, m: nat, a: Action)
    requires net.Valid() && Allowed(net, fl, m, a) && Loops(net, fl) && fl.mask <= Act(net, fl, m, a).mask
    requires m in Act(net, fl, m, a).stage && Act(net, fl, m, a).stage[m].Sending?
    requires a.Push? ==> fl.stage[m].todo[0] != m
    ensures Loop(net, Act(net, fl, m, a), m)
  {
    if !a.Mark? {
      assert Loop(net, fl, m);
      var todo := fl.stage[m].todo;
      assert forall n :: n in todo[1..] ==> n in todo;
    }
  }

  lemma KeepsLoops(net: Net, fl: Flow, m: nat, a: Action)
    requires net.Valid() && Allowed(net, fl, m, a)
    requires InBounds(net, fl) && ParentsFirst(net, fl) && MaskOffRoute(net, fl) && Loops(net, fl)
    ensures Loops(net, Act(net, fl, m, a))
  {
    var fl' := Act(net, fl, m, a);
    MaskGrows(net, fl, m, a);
    if a.Push? { assert Loop(net, fl, m); }
    forall k | k in fl'.stage && fl'.stage[k].Sending? ensures Loop(net, fl', k) {
      if k == m {
        OwnLoop(net, fl, m, a);
      } else {
        assert k in fl.stage && fl.stage[k] == fl'.stage[k];
        assert Loop(net, fl, k);
      }
    }
  }

  lemma KeepsSnapsDiffer(net: Net, fl: Flow, m: nat, a: Action)
    requires net.Valid() && Allowed(net, fl, m, a)
    requires MaskIsMarks(net, fl) && Loops(net, fl) && SnapsDiffer(fl)
    ensures SnapsDiffer(Act(net, fl, m, a))
  {
  }

  lemma KeepsNeverTwice(net: Net, fl: Flow, m: nat, a: Action)
    requires net.Valid() && Allowed(net, fl, m, a)
    requires ParentsFirst(net, fl) && MaskIsMarks(net, fl) && Loops(net, fl) && SnapsDiffer(fl) && NeverTwice(net, fl)
    ensures NeverTwice(net, Act(net, fl, m, a))
  {
    var fl' := Act(net, fl, m, a);
    forall k: nat, n: nat | Owes(net, fl', k, n) ensures n !in fl'.stage {
      if a.Mark? && k == m {
        assert m in net.parents[n];
      } else {
        assert Owes(net, fl, k, n);
        if a.Push? {
          assert Loop(net, fl, k) && Loop(net, fl, m);
          assert Owes(net, fl, m, fl.stage[m].todo[0]);
        }
      }
    }
  }

  lemma OwedStays(net: Net, fl: Flow, m: nat, a: Action, k: nat, n: nat)
    requires net.Valid() && Allowed(net, fl, m, a) && NeverTwice(net, fl) && Owes(net, fl, k, n)
    ensures var fl' := Act(net, fl, m, a); n in fl'.stage || Owes(net, fl', k, n)
  {
    if a.Push? { assert Owes(net, fl, m, fl.stage[m].todo[0]); }
    if k == m && (a.Skip? || a.Push?) {
      var todo := fl.stage[m].todo;
      assert todo == [todo[0]] + todo[1..];
    }
  }

  lemma KeepsNeverSkipped(net: Net, fl: Flow, m: nat, a: Action)
    requires net.Valid() && Allowed(net, fl, m, a)
    requires InBounds(net, fl) && MaskIsMarks(net, fl) && NeverTwice(net, fl) && NeverSkipped(net, fl)
    ensures NeverSkipped(net, Act(net, fl, m, a))
  {
    var fl' := Act(net, fl, m, a);
    forall n | n in net.route && net.IsModule(n) && net.parents[n] <= fl'.mask && n !in fl'.stage
      ensures exists k :: Owes(net, fl', k, n)
    {
      assert n !in fl.stage && (n != net.head ==> net.ParentOnRoute(n));
      if net.parents[n] <= fl.mask {
        var k :| Owes(net, fl, k, n);
        OwedStays(net, fl, m, a, k, n);
      } else if a.Mark? {
        assert m in net.parents[n] && n in net.order[m];
        assert n !in fl'.mask;
        assert Owes(net, fl', m, n);
      }
    }
  }

  lemma ActFlow(net: Net, fl: Flow, m: nat, a: Action)
    requires net.Valid() && Allowed(net, fl, m, a) && FlowInv(net, fl)
    ensures FlowInv(net, Act(net, fl, m, a))
  {
    KeepsBounds(net, fl, m, a);
    KeepsParentsFirst(net, fl, m, a);
    KeepsMaskIsMarks(net, fl, m, a);
    KeepsMaskOffRoute(net, fl, m, a);
    KeepsLoops(net, fl, m, a);
    KeepsSnapsDiffer(net, fl, m, a);
    KeepsNeverTwice(net, fl, m, a);
    KeepsNeverSkipped(net, fl, m, a);
  }

  // ----- The trail -----

  /** Two events of which a frame may see only one. */
  predicate Same(e1: Event, e2: Event) {
    e1 == e2 || (e1.Delivered? && e2.Delivered? && e1.mod == e2.mod)
  }

  ghost predicate NoneTwice(trail: seq<Event>) {
    forall i, j :: 0 <= i < j < |trail| ==> !Same(trail[i], trail[j])
  }

  ghost predicate Fed(trail: seq<Event>, n: nat) {
    exists p :: Delivered(n, p) in trail
  }

  ghost predicate FedTells(net: Net, fl: Flow) {
    forall n :: Fed(fl.trail, n) <==> n in fl.stage && n != net.head
  }

  ghost predicate TakenTells(fl: Flow) {
    forall n :: Taken(n) in fl.trail <==> n in fl.stage && !fl.stage[n].Waiting?
  }

  ghost predicate MarkedTells(net: Net, fl: Flow) {
    forall n :: Marked(n) in fl.trail <==> n in fl.mask && n in net.route
  }

  ghost predicate DroppedTells(fl: Flow) {
    forall n :: Dropped(n) in fl.trail <==> n in fl.stage && fl.stage[n].Lost?
  }

  ghost predicate PassedTells(net: Net, fl: Flow) {
    Passed in fl.trail <==> fl.mask == net.all
  }

  /** The trail tells the stages and the mask. */
  ghost predicate TrailTells(net: Net, fl: Flow) {
    FedTells(net, fl) && TakenTells(fl) && MarkedTells(net, fl) && DroppedTells(fl) && PassedTells(net, fl)
  }

  /** The mark of `m` is in the trail, and by then all of `s` on the route had marked. */
  ghost predicate MarkedLast(net: Net, trail: seq<Event>, m: nat, s: set<nat>) {
    exists i :: 0 <= i < |trail| && trail[i] == Marked(m) && MarkedBy(net, trail[..i + 1], s)
  }

  ghost predicate MarkedBy(net: Net, trail: seq<Event>, s: set<nat>) {
    forall p :: p in s && p in net.route ==> Marked(p) in trail
  }

  /** The event follows all the marks it depends on; a delivery is made by the last of them. */
  ghost predicate Timely(net: Net, past: seq<Event>, e: Event) {
    && (e.Delivered? ==> && net.IsModule(e.mod) && e.from in net.parents[e.mod]
                         && MarkedLast(net, past, e.from, net.parents[e.mod]))
    && (e.Passed? ==> MarkedBy(net, past, net.route))
  }

  ghost predicate AllTimely(net: Net, trail: seq<Event>) {
    forall j :: 0 <= j < |trail| ==> Timely(net, trail[..j], trail[j])
  }

  ghost predicate SendersLast(net: Net, fl: Flow) {
    forall m :: m in fl.stage && fl.stage[m].Sending? ==> MarkedLast(net, fl.trail, m, fl.stage[m].snap)
  }

  ghost predicate Inv(net: Net, fl: Flow) {
    && FlowInv(net, fl) && TrailTells(net, fl) && NoneTwice(fl.trail)
    && SendersLast(net, fl) && AllTimely(net, fl.trail)
  }

  lemma FreshInv(net: Net)
    requires net.Valid()
    ensures Inv(net, Fresh(net.head))
  {
    FreshFlow(net);
  }

  lemma PushIsNew(net: Net, fl: Flow, m: nat)
    requires net.Valid() && Allowed(net, fl, m, Push) && NeverTwice(net, fl)
    ensures fl.stage[m].todo[0] !in fl.stage
  {
    assert Owes(net, fl, m, fl.stage[m].todo[0]);
  }

  lemma KeepsFedTells(net: Net, fl: Flow, m: nat, a: Action)
    requires net.Valid() && Allowed(net, fl, m, a) && InBounds(net, fl) && NeverTwice(net, fl) && FedTells(net, fl)
    ensures FedTells(net, Act(net, fl, m, a))
  {
    var fl' := Act(net, fl, m, a);
    if a.Push? {
      PushIsNew(net, fl, m);
      assert Delivered(fl.stage[m].todo[0], m) in fl'.trail;
    }
    forall n ensures Fed(fl'.trail, n) <==> Fed(fl.trail, n) || (a.Push? && n == fl.stage[m].todo[0]) {
      if Fed(fl.trail, n) {
        var p :| Delivered(n, p) in fl.trail;
        assert Delivered(n, p) in fl'.trail;
      }
    }
  }

  lemma KeepsTakenTells(net: Net, fl: Flow, m: nat, a: Action)
    requires net.Valid() && Allowed(net, fl, m, a) && NeverTwice(net, fl) && TakenTells(fl)
    ensures TakenTells(Act(net, fl, m, a))
  {
    if a.Push? { PushIsNew(net, fl, m); }
  }

  lemma KeepsMarkedTells(net: Net, fl: Flow, m: nat, a: Action)
    requires net.Valid() && Allowed(net, fl, m, a)
    requires InBounds(net, fl) && ParentsFirst(net, fl) && MaskOffRoute(net, fl) && MarkedTells(net, fl)
    ensures MarkedTells(net, Act(net, fl, m, a))
  {
    if m != net.head { HeadFirst(net, fl, m); }
  }

  lemma KeepsDroppedTells(net: Net, fl: Flow, m: nat, a: Action)
    requires net.Valid() && Allowed(net, fl, m, a) && NeverTwice(net, fl) && DroppedTells(fl)
    ensures DroppedTells(Act(net, fl, m, a))
  {
    if a.Push? { PushIsNew(net, fl, m); }
  }

  lemma KeepsPassedTells(net: Net, fl: Flow, m: nat, a: Action)
    requires net.Valid() && Allowed(net, fl, m, a)
    requires InBounds(net, fl) && ParentsFirst(net, fl) && MaskIsMarks(net, fl) && MaskOffRoute(net, fl)
    requires PassedTells(net, fl)
    ensures PassedTells(net, Act(net, fl, m, a))
  {
    if m != net.head { HeadFirst(net, fl, m); }
    assert net.head in net.all;
  }

  lemma NoneTwiceAppend(trail: seq<Event>, e: Event)
    requires NoneTwice(trail) && forall x :: x in trail ==> !Same(x, e)
    ensures NoneTwice(trail + [e])
  {
  }

  lemma KeepsNoneTwice(net: Net, fl: Flow, m: nat, a: Action)
    requires net.Valid() && Allowed(net, fl, m, a)
    requires MaskIsMarks(net, fl) && NeverTwice(net, fl) && TrailTells(net, fl) && NoneTwice(fl.trail)
    ensures NoneTwice(Act(net, fl, m, a).trail)
  {
    var news := News(net, fl, m, a);
    if a.Push? {
      PushIsNew(net, fl, m);
      assert !Fed(fl.trail, fl.stage[m].todo[0]);
    }
    if news != [] {
      NoneTwiceAppend(fl.trail, news[0]);
      if |news| == 2 {
        NoneTwiceAppend(fl.trail + [news[0]], news[1]);
        assert fl.trail + news == fl.trail + [news[0]] + [news[1]];
      }
    }
  }

  lemma MarkedLastStays(net: Net, trail: seq<Event>, more: seq<Event>, m: nat, s: set<nat>)
    requires MarkedLast(net, trail, m, s)
    ensures MarkedLast(net, trail + more, m, s)
  {
    var i :| 0 <= i < |trail| && trail[i] == Marked(m) && MarkedBy(net, trail[..i + 1], s);
    assert (trail + more)[..i + 1] == trail[..i + 1];
  }

  lemma KeepsSendersLast(net: Net, fl: Flow, m: nat, a: Action)
    requires net.Valid() && Allowed(net, fl, m, a) && MarkedTells(net, fl) && SendersLast(net, fl)
    ensures SendersLast(net, Act(net, fl, m, a))
  {
    var fl' := Act(net, fl, m, a);
    forall k | k in fl'.stage && fl'.stage[k].Sending? ensures MarkedLast(net, fl'.trail, k, fl'.stage[k].snap) {
      if a.Mark? && k == m {
        var i := |fl.trail|;
        assert fl'.trail[..i + 1] == fl.trail + [Marked(m)];
        assert fl'.trail[i] == Marked(m) && MarkedBy(net, fl'.trail[..i + 1], fl'.stage[k].snap);
      } else {
        MarkedLastStays(net, fl.trail, News(net, fl, m, a), k, fl.stage[k].snap);
      }
    }
  }

  lemma TimelyAppend(net: Net, trail: seq<Event>, e: Event)
    requires AllTimely(net, trail) && Timely(net, trail, e)
    ensures AllTimely(net, trail + [e])
  {
    var t := trail + [e];
    forall j | 0 <= j < |t| ensures Timely(net, t[..j], t[j]) {
      assert t[..j] == trail[..j];
    }
  }

  lemma MarkedLastWeaken(net: Net, trail: seq<Event>, m: nat, s: set<nat>, s': set<nat>)
    requires MarkedLast(net, trail, m, s) && s' <= s
    ensures MarkedLast(net, trail, m, s')
  {
    var i :| 0 <= i < |trail| && trail[i] == Marked(m) && MarkedBy(net, trail[..i + 1], s);
    assert MarkedBy(net, trail[..i + 1], s');
  }

  lemma PushIsTimely(net: Net, fl: Flow, m: nat)
    requires net.Valid() && Allowed(net, fl, m, Push) && Loops(net, fl) && SendersLast(net, fl)
    ensures Timely(net, fl.trail, Delivered(fl.stage[m].todo[0], m))
  {
    assert Loop(net, fl, m);
    assert fl.stage[m].todo[0] in net.order[m];
    MarkedLastWeaken(net, fl.trail, m, fl.stage[m].snap, net.parents[fl.stage[m].todo[0]]);
  }

  lemma PassIsTimely(net: Net, fl: Flow, m: nat)
    requires net.Valid() && Allowed(net, fl, m, Mark) && MarkedTells(net, fl) && fl.mask + {m} == net.all
    ensures Timely(net, fl.trail + [Marked(m)], Passed)
  {
    forall p | p in net.route ensures Marked(p) in fl.trail + [Marked(m)] {
      assert p in fl.mask + {m};
    }
  }

  lemma KeepsTimely(net: Net, fl: Flow, m: nat, a: Action)
    requires net.Valid() && Allowed(net, fl, m, a)
    requires Loops(net, fl) && MarkedTells(net, fl) && SendersLast(net, fl) && AllTimely(net, fl.trail)
    ensures AllTimely(net, Act(net, fl, m, a).trail)
  {
    match a
    case Push =>
      PushIsTimely(net, fl, m);
      TimelyAppend(net, fl.trail, Delivered(fl.stage[m].todo[0], m));
    case Mark =>
      TimelyAppend(net, fl.trail, Marked(m));
      if fl.mask + {m} == net.all {
        PassIsTimely(net, fl, m);
        TimelyAppend(net, fl.trail + [Marked(m)], Passed);
        assert fl.trail + [Marked(m), Passed] == fl.trail + [Marked(m)] + [Passed];
      }
    case Take => TimelyAppend(net, fl.trail, Taken(m));
    case Drop => TimelyAppend(net, fl.trail, Dropped(m));
    case Hand => assert fl.trail + [] == fl.trail;
    case Vet => assert fl.trail + [] == fl.trail;
    case Skip => assert fl.trail + [] == fl.trail;
    case Finish => assert fl.trail + [] == fl.trail;
  }

  /** Every action of any module keeps the invariant, in whatever order the modules act. */
  lemma ActInv(net: Net, fl: Flow, m: nat, a: Action)
    requires net.Valid() && Allowed(net, fl, m, a) && Inv(net, fl)
    ensures Inv(net, Act(net, fl, m, a))
  {
    ActFlow(net, fl, m, a);
    KeepsFedTells(net, fl, m, a);
    KeepsTakenTells(net, fl, m, a);
    KeepsMarkedTells(net, fl, m, a);
    KeepsDroppedTells(net, fl, m, a);
    KeepsPassedTells(net, fl, m, a);
    KeepsNoneTwice(net, fl, m, a);
    KeepsSendersLast(net, fl, m, a);
    KeepsTimely(net, fl, m, a);
  }

  /** What the invariant says about a push: it is on the route, the module has not got the frame
      yet, and all its parents, the pushing module among them, have marked. */
  lemma PushFacts(net: Net, fl: Flow, m: nat, n: nat)
    requires Allowed(net, fl, m, Push) && fl.stage[m].todo[0] == n
    requires net.Valid() && Inv(net, fl)
    ensures n !in fl.stage && n in net.route && m in net.parents[n] && net.parents[n] <= fl.mask
  {
    PushIsNew(net, fl, m);
    assert Loop(net, fl, m);
    assert fl.stage[m].todo[0] in net.order[m];
  }
}
