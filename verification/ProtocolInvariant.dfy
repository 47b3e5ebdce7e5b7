/** What every step of the routing protocol keeps, in every interleaving. */
module ProtocolInvariant {
  import opened FrameFlow
  import opened Protocol

  predicate AtWork(s: Stage) {
    s.Working? || s.Ready? || s.Vetted? || s.Sending?
  }

  predicate Pending(s: Stage) {
    s.Waiting? || AtWork(s)
  }

  ghost predicate Before(f1: Frame, f2: Frame) {
    f1.stream == f2.stream && f1.num < f2.num
  }

  /** In every stream, frames come in the order in which the source sent them. */
  ghost predicate InOrder(q: seq<Frame>) {
    forall i, j :: 0 <= i < j < |q| && q[i].stream == q[j].stream ==> q[i].num < q[j].num
  }

  ghost predicate HasStage(st: State, f: Frame, m: nat) {
    f in st.flow && m in st.flow[f].stage
  }

  ghost predicate Shape(c: Config, st: State)
    requires c.Valid()
  {
    && st.queue.Keys == st.taken.Keys == c.Workers() && st.busy.Keys <= c.Workers()
    && st.flow.Keys == c.Frames()
  }

  ghost predicate FlowOk(c: Config, f: Frame, fl: Flow)
    requires c.Valid()
  {
    f.stream < |c.head| && FrameFlow.Inv(c.NetOf(f.stream), fl)
  }

  ghost predicate Flows(c: Config, st: State)
    requires c.Valid()
  {
    forall f :: f in st.flow ==> FlowOk(c, f, st.flow[f])
  }

  /** The worker is the one that handles the frame's stream at its module. */
  ghost predicate Mine(c: Config, w: Worker, f: Frame)
    requires c.Valid() && w in c.Workers()
  {
    f.stream < |c.head| && c.Mod(w) < |c.order| && w == c.WorkerOf(c.Mod(w), f.stream)
  }

  ghost function StageAt(st: State, f: Frame, m: nat): Stage {
    if HasStage(st, f, m) then st.flow[f].stage[m] else Done
  }

  /** Frame `f` is worker `w`'s to handle, and has come to its module. */
  ghost predicate Came(c: Config, st: State, w: Worker, f: Frame)
    requires c.Valid() && w in c.Workers()
  {
    Mine(c, w, f) && HasStage(st, f, c.Mod(w))
  }

  ghost predicate QueueTells(c: Config, st: State, w: Worker, f: Frame)
    requires c.Valid() && Shape(c, st) && w in st.queue
  {
    f in st.queue[w] <==> Came(c, st, w, f) && StageAt(st, f, c.Mod(w)).Waiting?
  }

  ghost predicate HandTells(c: Config, st: State, w: Worker, f: Frame)
    requires c.Valid() && Shape(c, st) && w in st.queue
  {
    w in st.busy && st.busy[w] == f <==> Came(c, st, w, f) && AtWork(StageAt(st, f, c.Mod(w)))
  }

  ghost predicate HistoryTells(c: Config, st: State, w: Worker, f: Frame)
    requires c.Valid() && Shape(c, st) && w in st.queue
  {
    f in st.taken[w] <==> Came(c, st, w, f) && !StageAt(st, f, c.Mod(w)).Waiting?
  }

  /** Queues, hands, histories and the stages of the frames tell the same. */
  ghost predicate Linked(c: Config, st: State)
    requires c.Valid() && Shape(c, st)
  {
    forall w, f :: w in st.queue ==> QueueTells(c, st, w, f) && HandTells(c, st, w, f) && HistoryTells(c, st, w, f)
  }

  /** What a worker has taken and what waits for it, together, are in order. */
  ghost predicate Fifo(c: Config, st: State)
    requires c.Valid() && Shape(c, st)
  {
    && (forall w :: w in st.queue ==> InOrder(st.taken[w] + st.queue[w]))
    && (forall w :: w in st.busy ==> st.taken[w] != [] && st.taken[w][|st.taken[w]| - 1] == st.busy[w])
  }

  /** A module that marked a frame is through with the stream's earlier frames. */
  ghost predicate ThroughWithEarlier(st: State) {
    forall f1, f2, m :: HasStage(st, f1, m) && f2 in st.flow && Before(f1, f2) && Pending(st.flow[f1].stage[m]) ==>
      m !in st.flow[f2].mask
  }

  /** A module that has got a frame has got the earlier ones that all its parents marked. */
  ghost predicate EarlierCame(c: Config, st: State)
    requires c.Valid()
  {
    forall f1, f2, m: nat ::
      (&& f1 in st.flow && HasStage(st, f2, m) && Before(f1, f2) && m < |c.order|
       && c.parents[m] != {} && c.parents[m] <= st.flow[f1].mask)
      ==> m in st.flow[f1].stage
  }

  /** Only the frames flawed from the start keep an end-of-stream mark from going on. */
  ghost predicate Flags(c: Config, st: State) {
    && c.flawed <= st.invalid
    && (forall f :: f in st.invalid && f.eos ==> f in c.flawed)
    && (forall f, m :: HasStage(st, f, m) && f.eos && st.flow[f].stage[m].Lost? ==> f in c.flawed)
    && (forall f, m :: HasStage(st, f, m) && f in c.flawed ==> !Through(st.flow[f].stage[m]))
  }

  predicate Through(s: Stage) {
    s.Vetted? || s.Sending? || s.Done?
  }

  /** OnPassThrough has been called once for each frame whose mask is full, in stream order. */
  ghost predicate Outcomes(c: Config, st: State) {
    && (forall f :: f in st.passed <==> f in st.flow && st.flow[f].mask == c.all)
    && (forall f :: f in st.eosMessages <==> f in st.passed && f.eos)
    && InOrder(st.passed) && InOrder(st.eosMessages)
  }

  ghost predicate Sound(c: Config, st: State)
    requires c.Valid()
  {
    && Shape(c, st) && Flows(c, st) && Linked(c, st) && Fifo(c, st)
    && ThroughWithEarlier(st) && EarlierCame(c, st) && Flags(c, st) && Outcomes(c, st)
  }

  lemma KeepsShape(c: Config, st: State, w: Worker, f: Frame, a: Action, st': State)
    requires c.Valid() && Performs(c, st, w, f, a, st') && Shape(c, st)
    ensures Shape(c, st')
  {
  }

  lemma FlowStaysOk(c: Config, f: Frame, fl: Flow, m: nat, a: Action)
    requires c.Valid() && FlowOk(c, f, fl) && Allowed(c.NetOf(f.stream), fl, m, a)
    ensures FlowOk(c, f, Act(c.NetOf(f.stream), fl, m, a))
  {
    ActInv(c.NetOf(f.stream), fl, m, a);
  }

  lemma KeepsFlows(c: Config, st: State, w: Worker, f: Frame, a: Action, st': State)
    requires c.Valid() && Performs(c, st, w, f, a, st') && Flows(c, st)
    ensures Flows(c, st')
  {
    hide FlowOk;
    forall g | g in st'.flow ensures FlowOk(c, g, st'.flow[g]) {
      if g == f { FlowStaysOk(c, f, st.flow[f], c.Mod(w), a); }
    }
  }

  // ----- Queues, hands and histories -----

  /** Only frame `f` changed, and only at module `m`. */
  ghost predicate StageSet(st: State, st': State, f: Frame, m: nat, s: Stage) {
    && f in st.flow && f in st'.flow && st'.flow == st.flow[f := st'.flow[f]]
    && st'.flow[f].stage == st.flow[f].stage[m := s]
  }

  lemma HeadNotBehind(past: seq<Frame>, q: seq<Frame>)
    requires q != [] && InOrder(past + q)
    ensures q[0] !in q[1..]
  {
    forall j | 1 <= j < |q| ensures q[j] != q[0] {
      var r, k := past + q, |past|;
      assert r[k].stream == r[k + j].stream ==> r[k].num < r[k + j].num;
    }
  }

  /** What a change of frame `f` at worker `w` leaves alone. */
  lemma ElsewhereCame(c: Config, st: State, st': State, w: Worker, f: Frame, s: Stage, v: Worker, g: Frame)
    requires c.Valid() && Shape(c, st) && Shape(c, st')
    requires v in st.queue && w in st.queue && Mine(c, w, f) && StageSet(st, st', f, c.Mod(w), s)
    ensures Came(c, st', v, g) <==> Came(c, st, v, g) || (v == w && g == f)
    ensures Came(c, st, v, g) && (v != w || g != f) ==> StageAt(st', g, c.Mod(v)) == StageAt(st, g, c.Mod(v))
    ensures Came(c, st', w, f) && StageAt(st', f, c.Mod(w)) == s
  {
    hide Config.Valid;
    hide Config.WorkerOf;
  }

  lemma LinkedAfterTake(c: Config, st: State, st': State, w: Worker, f: Frame, s: Stage)
    requires c.Valid() && Shape(c, st) && Shape(c, st') && Linked(c, st) && Fifo(c, st)
    requires w in st.queue && st.queue[w] != [] && st.queue[w][0] == f && w !in st.busy
    requires StageSet(st, st', f, c.Mod(w), s) && AtWork(s)
    requires st'.queue == st.queue[w := st.queue[w][1..]]
    requires st'.busy == st.busy[w := f]
    requires st'.taken == st.taken[w := st.taken[w] + [f]]
    ensures Linked(c, st')
  {
    hide Config.Valid;
    hide Config.Workers;
    hide Config.WorkerOf;
    var q := st.queue[w];
    HeadNotBehind(st.taken[w], q);
    assert q == [f] + q[1..];
    assert QueueTells(c, st, w, f);
    hide Came;
    hide StageSet;
    hide Fifo;
    hide InOrder;
    forall v, g | v in st'.queue
      ensures QueueTells(c, st', v, g) && HandTells(c, st', v, g) && HistoryTells(c, st', v, g)
    {
      assert QueueTells(c, st, v, g) && HandTells(c, st, v, g) && HistoryTells(c, st, v, g);
      ElsewhereCame(c, st, st', w, f, s, v, g);
    }
  }

  lemma LinkedAfterArrival(c: Config, st: State, st': State, t: Worker, f: Frame)
    requires c.Valid() && Shape(c, st) && Shape(c, st') && Linked(c, st)
    requires t in st.queue && Mine(c, t, f) && !HasStage(st, f, c.Mod(t))
    requires StageSet(st, st', f, c.Mod(t), Waiting)
    requires st'.queue == st.queue[t := st.queue[t] + [f]]
    requires st'.busy == st.busy && st'.taken == st.taken
    ensures Linked(c, st')
  {
    hide Config.Valid;
    hide Config.WorkerOf;
    assert QueueTells(c, st, t, f) && HandTells(c, st, t, f) && HistoryTells(c, st, t, f);
    assert !Came(c, st, t, f);
    hide Came;
    hide StageSet;
    forall v, g | v in st'.queue
      ensures QueueTells(c, st', v, g) && HandTells(c, st', v, g) && HistoryTells(c, st', v, g)
    {
      assert QueueTells(c, st, v, g) && HandTells(c, st, v, g) && HistoryTells(c, st, v, g);
      ElsewhereCame(c, st, st', t, f, Waiting, v, g);
    }
  }

  lemma LinkedAfterOther(c: Config, st: State, st': State, w: Worker, f: Frame, s: Stage)
    requires c.Valid() && Shape(c, st) && Shape(c, st') && Linked(c, st)
    requires w in st.queue && w in st.busy && st.busy[w] == f
    requires StageSet(st, st', f, c.Mod(w), s) && (AtWork(s) || Over(s))
    requires st'.queue == st.queue && st'.taken == st.taken
    requires st'.busy == if Over(s) then st.busy - {w} else st.busy
    ensures Linked(c, st')
  {
    hide Config.Valid;
    hide Config.WorkerOf;
    assert HandTells(c, st, w, f) && QueueTells(c, st, w, f) && HistoryTells(c, st, w, f);
    hide Came;
    hide StageSet;
    forall v, g | v in st'.queue
      ensures QueueTells(c, st', v, g) && HandTells(c, st', v, g) && HistoryTells(c, st', v, g)
    {
      assert QueueTells(c, st, v, g) && HandTells(c, st, v, g) && HistoryTells(c, st, v, g);
      ElsewhereCame(c, st, st', w, f, s, v, g);
    }
  }

  lemma FlowIsOk(c: Config, st: State, f: Frame)
    requires c.Valid() && Flows(c, st) && f in st.flow
    ensures f.stream < |c.head| && c.NetOf(f.stream).Valid() && FrameFlow.Inv(c.NetOf(f.stream), st.flow[f])
  {
    assert FlowOk(c, f, st.flow[f]);
    hide FrameFlow.Inv;
  }

  lemma TargetIsMine(c: Config, n: nat, f: Frame)
    requires c.Valid() && n < |c.order| && c.parents[n] != {} && f.stream < |c.head|
    ensures var t := c.WorkerOf(n, f.stream); t in c.Workers() && Mine(c, t, f) && c.Mod(t) == n
  {
  }

  /** The effect of a push by worker `w` of frame `f` to module `n`. */
  ghost predicate Pushed(c: Config, st: State, w: Worker, f: Frame, n: nat, st': State)
    requires c.Valid()
  {
    && w in c.Workers() && w in st.busy && st.busy[w] == f && f in st.flow && f in st'.flow && f.stream < |c.head|
    && var m, fl, fl' := c.Mod(w), st.flow[f], st'.flow[f];
       && m < |c.order| && n < |c.order| && m in c.parents[n] && c.parents[n] <= fl.mask
       && n in c.route[f.stream] && m in fl.stage && Pending(fl.stage[m]) && n !in fl.stage
       && m in fl'.stage && AtWork(fl'.stage[m])
       && st'.flow == st.flow[f := fl'] && fl'.mask == fl.mask
       && fl'.stage == fl.stage[m := fl'.stage[m]][n := Waiting]
       && var t := c.WorkerOf(n, f.stream);
          && t in st.queue && st'.queue == st.queue[t := st.queue[t] + [f]]
          && st'.taken == st.taken && st'.busy == st.busy
  }

  lemma PushTarget(c: Config, f: Frame, fl: Flow, m: nat) returns (n: nat)
    requires c.Valid() && FlowOk(c, f, fl) && Allowed(c.NetOf(f.stream), fl, m, Push)
    ensures n == fl.stage[m].todo[0] && n < |c.order| && m in c.parents[n] && c.parents[n] <= fl.mask
    ensures n in c.route[f.stream] && n !in fl.stage
  {
    var net := c.NetOf(f.stream);
    assert FrameFlow.Inv(net, fl) && net.Valid();
    hide FrameFlow.Inv;
    n := fl.stage[m].todo[0];
    FrameFlow.PushFacts(net, fl, m, n);
  }

  lemma PushEffect(c: Config, st: State, w: Worker, f: Frame, st': State) returns (n: nat)
    requires c.Valid() && Performs(c, st, w, f, Push, st') && Flows(c, st)
    ensures Pushed(c, st, w, f, n, st')
  {
    hide FlowOk;
    n := PushTarget(c, f, st.flow[f], c.Mod(w));
    hide Flows;
    assert st.busy[w := f] == st.busy;
  }

  lemma PushKeepsLinked(c: Config, st: State, w: Worker, f: Frame, n: nat, st': State)
    requires c.Valid() && Pushed(c, st, w, f, n, st') && Shape(c, st) && Shape(c, st') && Linked(c, st)
    ensures Linked(c, st')
  {
    TargetIsMine(c, n, f);
    var t, m := c.WorkerOf(n, f.stream), c.Mod(w);
    var mid := st.(flow := st.flow[f := st.flow[f].(stage := st.flow[f].stage[m := st'.flow[f].stage[m]])]);
    assert mid.flow.Keys == st.flow.Keys;
    hide Linked;
    LinkedAfterOther(c, st, mid, w, f, st'.flow[f].stage[m]);
    LinkedAfterArrival(c, mid, st', t, f);
  }

  lemma TakeKeepsLinked(c: Config, st: State, w: Worker, f: Frame, st': State)
    requires c.Valid() && Performs(c, st, w, f, Take, st') && Shape(c, st) && Linked(c, st) && Fifo(c, st)
    ensures Shape(c, st') && Linked(c, st')
  {
    KeepsShape(c, st, w, f, Take, st');
    hide Linked;
    hide Fifo;
    hide Shape;
    LinkedAfterTake(c, st, st', w, f, Working);
  }

  lemma OtherKeepsLinked(c: Config, st: State, w: Worker, f: Frame, a: Action, st': State)
    requires c.Valid() && Performs(c, st, w, f, a, st') && !a.Take? && !a.Push? && Shape(c, st) && Linked(c, st)
    ensures Shape(c, st') && Linked(c, st')
  {
    KeepsShape(c, st, w, f, a, st');
    hide Linked;
    hide Shape;
    var s := StageAfter(c.NetOf(f.stream), st.flow[f], c.Mod(w), a);
    assert st.busy[w := f] == st.busy;
    LinkedAfterOther(c, st, st', w, f, s);
  }

  lemma KeepsLinked(c: Config, st: State, w: Worker, f: Frame, a: Action, st': State)
    requires c.Valid() && Performs(c, st, w, f, a, st')
    requires Shape(c, st) && Flows(c, st) && Linked(c, st) && Fifo(c, st)
    ensures Shape(c, st') && Linked(c, st')
  {
    hide Performs;
    hide Pushed;
    hide Shape;
    hide Flows;
    hide Linked;
    hide Fifo;
    KeepsShape(c, st, w, f, a, st');
    if a.Take? { TakeKeepsLinked(c, st, w, f, st'); }
    else if a.Push? { var n := PushEffect(c, st, w, f, st'); PushKeepsLinked(c, st, w, f, n, st'); }
    else { OtherKeepsLinked(c, st, w, f, a, st'); }
  }

  // ----- Order -----

  /** The effect of any other action on the frame's flow: no module gets the frame, and only the
      acting module, or modules off the route, are added to the mask. */
  ghost predicate Handled(c: Config, st: State, w: Worker, f: Frame, st': State)
    requires c.Valid()
  {
    && w in c.Workers() && f in st.flow && f in st'.flow && f.stream < |c.head| && st'.flow == st.flow[f := st'.flow[f]]
    && var m, fl, fl' := c.Mod(w), st.flow[f], st'.flow[f];
       && m in fl.stage && Pending(fl.stage[m]) && fl'.stage.Keys == fl.stage.Keys
       && (forall x :: x in fl.stage && Pending(fl'.stage[x]) ==> Pending(fl.stage[x]))
       && (forall x :: x in fl'.mask ==> x in fl.mask || x == m || x !in c.route[f.stream])
       && (m in fl'.mask && m !in fl.mask && m in c.route[f.stream] ==> w in st.busy && st.busy[w] == f)
  }

  lemma OtherEffect(c: Config, st: State, w: Worker, f: Frame, a: Action, st': State)
    requires c.Valid() && Performs(c, st, w, f, a, st') && !a.Push?
    ensures Handled(c, st, w, f, st')
  {
    assert c.NetOf(f.stream).Valid();
  }

  lemma StageOnRoute(c: Config, f: Frame, fl: Flow, n: nat)
    requires c.Valid() && FlowOk(c, f, fl) && n in fl.stage
    ensures n in c.route[f.stream] && n < |c.order| && c.parents[n] <= fl.mask
  {
    var net := c.NetOf(f.stream);
    assert InBounds(net, fl) && ParentsFirst(net, fl) && net.Valid();
  }

  lemma MarkedHasStage(c: Config, f: Frame, fl: Flow, n: nat)
    requires c.Valid() && FlowOk(c, f, fl) && n in fl.mask && n in c.route[f.stream]
    ensures n in fl.stage
  {
    assert MaskIsMarks(c.NetOf(f.stream), fl);
  }

  /** If all parents of a module have marked and it has not got the frame, a parent is pushing. */
  lemma SomeoneOwes(c: Config, st: State, f: Frame, n: nat) returns (k: nat)
    requires c.Valid() && f in st.flow && FlowOk(c, f, st.flow[f])
    requires n in c.route[f.stream] && n < |c.order| && n !in st.flow[f].stage && c.parents[n] <= st.flow[f].mask
    ensures k in c.parents[n] && HasStage(st, f, k) && Pending(st.flow[f].stage[k])
  {
    var net, fl := c.NetOf(f.stream), st.flow[f];
    assert NeverSkipped(net, fl) && Loops(net, fl) && net.Valid();
    k :| Owes(net, fl, k, n);
    assert Loop(net, fl, k);
  }

  /** A parent set that is marked up to modules off the route is marked. */
  lemma OffRouteIsMarked(c: Config, f: Frame, fl: Flow, n: nat)
    requires c.Valid() && FlowOk(c, f, fl) && n in c.route[f.stream] && n < |c.order| && c.parents[n] != {}
    requires forall p :: p in c.parents[n] ==> p in fl.mask || p !in c.route[f.stream]
    ensures c.parents[n] <= fl.mask
  {
    var net := c.NetOf(f.stream);
    assert MaskOffRoute(net, fl) && net.Valid();
    assert net.ParentOnRoute(n);
  }

  lemma SameFrame(c: Config, f: Frame, g: Frame)
    requires c.Valid() && f in c.Frames() && g in c.Frames() && f.stream == g.stream && f.num == g.num
    ensures f == g
  {
  }

  /** The conveyor a frame is pushed to has so far seen only earlier frames of the stream. */
  lemma PushComesLast(c: Config, st: State, f: Frame, n: nat, t: Worker, g: Frame)
    requires c.Valid() && Shape(c, st) && Linked(c, st) && EarlierCame(c, st)
    requires f in st.flow && n < |c.order| && n !in st.flow[f].stage
    requires c.parents[n] != {} && c.parents[n] <= st.flow[f].mask
    requires t in st.queue && c.Mod(t) == n && g in st.taken[t] + st.queue[t] && g.stream == f.stream
    ensures g.num < f.num
  {
    assert QueueTells(c, st, t, g) && HistoryTells(c, st, t, g);
    assert HasStage(st, g, n);
    if g.num == f.num { SameFrame(c, f, g); }
    assert g.num > f.num ==> Before(f, g);
  }

  lemma InOrderAppend(q: seq<Frame>, f: Frame)
    requires InOrder(q) && forall g :: g in q && g.stream == f.stream ==> g.num < f.num
    ensures InOrder(q + [f])
  {
  }

  lemma FifoIncreases(past: seq<Frame>, q: seq<Frame>, f: Frame, g: Frame)
    requires InOrder(past + q) && past != [] && past[|past| - 1] == f && g in q && f.stream == g.stream
    ensures f.num < g.num
  {
    var j :| 0 <= j < |q| && q[j] == g;
    var r, i := past + q, |past| - 1;
    assert r[i] == f && r[i + 1 + j] == g;
  }

  /** A worker with `f` in hand has no earlier frame of the stream pending. */
  lemma HandIsEarliest(c: Config, st: State, w: Worker, f: Frame, g: Frame)
    requires c.Valid() && Shape(c, st) && Linked(c, st) && Fifo(c, st)
    requires w in st.busy && st.busy[w] == f && Before(g, f) && HasStage(st, g, c.Mod(w))
    ensures !Pending(st.flow[g].stage[c.Mod(w)])
  {
    assert HandTells(c, st, w, f) && HandTells(c, st, w, g) && QueueTells(c, st, w, g);
    assert Mine(c, w, g) by { hide Config.Valid; }
    if g in st.queue[w] { FifoIncreases(st.taken[w], st.queue[w], f, g); }
  }

  lemma ThroughAfterHandled(c: Config, st: State, w: Worker, f: Frame, st': State)
    requires c.Valid() && Shape(c, st) && Flows(c, st) && Linked(c, st) && Fifo(c, st) && Handled(c, st, w, f, st')
    requires ThroughWithEarlier(st)
    ensures ThroughWithEarlier(st')
  {
    hide FlowOk;
    hide Linked;
    hide Fifo;
    hide Shape;
    hide Config.Valid;
    forall f1, f2, x | HasStage(st', f1, x) && f2 in st'.flow && Before(f1, f2) && Pending(st'.flow[f1].stage[x])
      ensures x !in st'.flow[f2].mask
    {
      assert HasStage(st, f1, x) && Pending(st.flow[f1].stage[x]);
      StageOnRoute(c, f1, st.flow[f1], x);
      if f2 == f && x == c.Mod(w) && w in st.busy && st.busy[w] == f { HandIsEarliest(c, st, w, f, f1); }
    }
  }

  lemma ThroughAfterPush(c: Config, st: State, w: Worker, f: Frame, n: nat, st': State)
    requires c.Valid() && Flows(c, st) && Pushed(c, st, w, f, n, st') && ThroughWithEarlier(st) && EarlierCame(c, st)
    ensures ThroughWithEarlier(st')
  {
    hide FlowOk;
    hide Config.Valid;
    forall f1, f2, x | HasStage(st', f1, x) && f2 in st'.flow && Before(f1, f2) && Pending(st'.flow[f1].stage[x])
      ensures x !in st'.flow[f2].mask
    {
      if f1 == f && x == n {
        assert n in st.flow[f2].mask ==> HasStage(st, f2, n) by {
          if n in st.flow[f2].mask { MarkedHasStage(c, f2, st.flow[f2], n); }
        }
      } else {
        assert HasStage(st, f1, x) && Pending(st.flow[f1].stage[x]);
      }
    }
  }

  lemma CameAfterHandled(c: Config, st: State, w: Worker, f: Frame, st': State)
    requires c.Valid() && Flows(c, st) && Handled(c, st, w, f, st') && ThroughWithEarlier(st) && EarlierCame(c, st)
    ensures EarlierCame(c, st')
  {
    hide FlowOk;
    var m := c.Mod(w);
    assert HasStage(st, f, m);
    forall f1, f2, n: nat | f1 in st'.flow && HasStage(st', f2, n) && Before(f1, f2) && n < |c.order|
      && c.parents[n] != {} && c.parents[n] <= st'.flow[f1].mask
      ensures n in st'.flow[f1].stage
    {
      assert HasStage(st, f2, n);
      StageOnRoute(c, f2, st.flow[f2], n);
      if f1 == f {
        assert forall p :: p in c.parents[n] ==> p in st'.flow[f].mask;
        OffRouteIsMarked(c, f, st.flow[f], n);
      }
    }
  }

  lemma CameAfterPush(c: Config, st: State, w: Worker, f: Frame, n: nat, st': State)
    requires c.Valid() && Flows(c, st) && Pushed(c, st, w, f, n, st') && ThroughWithEarlier(st) && EarlierCame(c, st)
    ensures EarlierCame(c, st')
  {
    hide FlowOk;
    forall f1, f2, x: nat | f1 in st'.flow && HasStage(st', f2, x) && Before(f1, f2) && x < |c.order|
      && c.parents[x] != {} && c.parents[x] <= st'.flow[f1].mask
      ensures x in st'.flow[f1].stage
    {
      if f2 == f && x == n {
        if n !in st.flow[f1].stage {
          var k := SomeoneOwes(c, st, f1, n);
          assert false;
        }
      } else {
        assert HasStage(st, f2, x);
      }
    }
  }

  ghost predicate AllInOrder(queue: map<Worker, seq<Frame>>, taken: map<Worker, seq<Frame>>)
    requires queue.Keys == taken.Keys
  {
    forall w :: w in queue ==> InOrder(taken[w] + queue[w])
  }

  lemma TakeKeepsOrder(queue: map<Worker, seq<Frame>>, taken: map<Worker, seq<Frame>>, w: Worker, f: Frame)
    requires queue.Keys == taken.Keys && AllInOrder(queue, taken)
    requires w in queue && queue[w] != [] && queue[w][0] == f
    ensures AllInOrder(queue[w := queue[w][1..]], taken[w := taken[w] + [f]])
  {
    hide InOrder;
    var q := queue[w];
    assert taken[w] + [f] + q[1..] == taken[w] + q;
  }

  lemma FifoAfterTake(c: Config, st: State, w: Worker, f: Frame, st': State)
    requires c.Valid() && Shape(c, st) && Shape(c, st') && Fifo(c, st)
    requires w in st.queue && st.queue[w] != [] && st.queue[w][0] == f
    requires st'.queue == st.queue[w := st.queue[w][1..]] && st'.taken == st.taken[w := st.taken[w] + [f]]
    requires st'.busy == st.busy[w := f]
    ensures Fifo(c, st')
  {
    hide Config.Valid;
    hide Config.Workers;
    hide Config.Frames;
    hide InOrder;
    assert AllInOrder(st.queue, st.taken);
    TakeKeepsOrder(st.queue, st.taken, w, f);
  }

  lemma FifoAfterPush(c: Config, st: State, w: Worker, f: Frame, n: nat, st': State)
    requires c.Valid() && Shape(c, st) && Shape(c, st') && Linked(c, st) && Fifo(c, st)
    requires Pushed(c, st, w, f, n, st') && EarlierCame(c, st)
    ensures Fifo(c, st')
  {
    var t := c.WorkerOf(n, f.stream);
    hide Linked;
    hide EarlierCame;
    hide Config.Valid;
    var seen := st.taken[t] + st.queue[t];
    forall g | g in seen && g.stream == f.stream ensures g.num < f.num {
      PushComesLast(c, st, f, n, t, g);
    }
    InOrderAppend(seen, f);
    assert st'.taken[t] + st'.queue[t] == seen + [f];
    hide InOrder;
  }

  lemma QueuesStay(c: Config, st: State, w: Worker, f: Frame, a: Action, st': State)
    requires c.Valid() && Performs(c, st, w, f, a, st') && !a.Push? && !a.Take?
    ensures st'.queue == st.queue && st'.taken == st.taken && w in st.busy && st.busy[w] == f
    ensures st'.busy == st.busy - {w} || st'.busy == st.busy
  {
    hide Config.Valid;
    assert st.busy[w := f] == st.busy;
  }

  lemma FifoAfterOther(c: Config, st: State, w: Worker, f: Frame, a: Action, st': State)
    requires c.Valid() && Performs(c, st, w, f, a, st') && !a.Push?
    requires Shape(c, st) && Shape(c, st') && Fifo(c, st)
    ensures Fifo(c, st')
  {
    hide InOrder;
    hide Config.Valid;
    if a.Take? {
      FifoAfterTake(c, st, w, f, st');
    } else {
      QueuesStay(c, st, w, f, a, st');
      hide Performs;
      forall v | v in st'.queue ensures InOrder(st'.taken[v] + st'.queue[v]) {
        assert InOrder(st.taken[v] + st.queue[v]);
      }
      forall v | v in st'.busy ensures st'.taken[v] != [] && st'.taken[v][|st'.taken[v]| - 1] == st'.busy[v] {
        assert v in st.busy;
      }
    }
  }

  /** Order is kept by every action. */
  lemma KeepsOrder(c: Config, st: State, w: Worker, f: Frame, a: Action, st': State)
    requires c.Valid() && Performs(c, st, w, f, a, st') && Shape(c, st) && Shape(c, st')
    requires Flows(c, st) && Linked(c, st) && Fifo(c, st) && ThroughWithEarlier(st) && EarlierCame(c, st)
    ensures Fifo(c, st') && ThroughWithEarlier(st') && EarlierCame(c, st')
  {
    hide Performs;
    hide Pushed;
    hide Handled;
    hide Shape;
    hide Flows;
    hide Linked;
    hide Fifo;
    hide ThroughWithEarlier;
    hide EarlierCame;
    if a.Push? {
      var n := PushEffect(c, st, w, f, st');
      FifoAfterPush(c, st, w, f, n, st');
      ThroughAfterPush(c, st, w, f, n, st');
      CameAfterPush(c, st, w, f, n, st');
    } else {
      FifoAfterOther(c, st, w, f, a, st');
      OtherEffect(c, st, w, f, a, st');
      ThroughAfterHandled(c, st, w, f, st');
      CameAfterHandled(c, st, w, f, st');
    }
  }

  // ----- Outcomes -----

  lemma KeepsFlags(c: Config, st: State, w: Worker, f: Frame, a: Action, st': State)
    requires c.Valid() && Performs(c, st, w, f, a, st') && Flags(c, st)
    requires a.Drop? && f.eos ==> f in c.flawed
    requires a.Vet? ==> f !in c.flawed
    ensures Flags(c, st')
  {
    hide Config.Valid;
    var m := c.Mod(w);
    assert HasStage(st, f, m);
    forall g, x | HasStage(st', g, x)
      ensures g.eos && st'.flow[g].stage[x].Lost? ==> g in c.flawed
      ensures g in c.flawed ==> !Through(st'.flow[g].stage[x])
    {
      assert g != f || (x != m && HasStage(st, f, x)) ==> HasStage(st, g, x);
    }
  }

  /** Only the head writes a mask afresh, and then itself is not in it. */
  lemma VetFillsNothing(net: Net, fl: Flow, m: nat)
    requires net.Valid() && Allowed(net, fl, m, Vet)
    requires InBounds(net, fl) && ParentsFirst(net, fl) && MaskOffRoute(net, fl)
    ensures var after := Act(net, fl, m, Vet).mask;
            after == fl.mask || (fl.mask == {} && net.head in net.all && net.head !in after)
  {
    if m != net.head { HeadFirst(net, fl, m); }
  }

  lemma MarkAdds(net: Net, fl: Flow, m: nat)
    requires net.Valid() && Allowed(net, fl, m, Action.Mark) && MaskIsMarks(net, fl)
    ensures Act(net, fl, m, Action.Mark).mask == fl.mask + {m} && m in net.all && m !in fl.mask
  {
  }

  lemma OthersKeepMask(net: Net, fl: Flow, m: nat, a: Action)
    requires Allowed(net, fl, m, a) && !a.Vet? && !a.Mark?
    ensures Act(net, fl, m, a).mask == fl.mask
  {
  }

  /** Marking the last module posts the frame; nothing else fills a mask. */
  lemma MaskFills(c: Config, f: Frame, fl: Flow, m: nat, a: Action)
    requires c.Valid() && FlowOk(c, f, fl) && Allowed(c.NetOf(f.stream), fl, m, a)
    ensures var fl' := Act(c.NetOf(f.stream), fl, m, a);
            && (fl.mask == c.all ==> fl'.mask == c.all)
            && (fl'.mask == c.all && fl.mask != c.all <==> a.Mark? && fl.mask + {m} == c.all)
  {
    var net := c.NetOf(f.stream);
    assert InBounds(net, fl) && MaskIsMarks(net, fl) && net.Valid() && ParentsFirst(net, fl) && MaskOffRoute(net, fl);
    hide FlowOk;
    hide Config.Valid;
    hide Net.Valid;
    hide Act;
    hide Allowed;
    match a
    case Vet => VetFillsNothing(net, fl, m);
    case Mark => MarkAdds(net, fl, m);
    case _ => OthersKeepMask(net, fl, m, a);
  }

  ghost predicate Fills(c: Config, st: State, f: Frame, m: nat, a: Action) {
    f in st.flow && a.Mark? && st.flow[f].mask + {m} == c.all
  }

  lemma PassedAfter(c: Config, st: State, w: Worker, f: Frame, a: Action, st': State)
    requires c.Valid() && Performs(c, st, w, f, a, st') && Flows(c, st)
    ensures st'.flow.Keys == st.flow.Keys && (w.Source? ==> w.stream < |c.head|)
    ensures forall g :: g in st.flow ==>
              (st'.flow[g].mask == c.all <==> st.flow[g].mask == c.all || (g == f && Fills(c, st, f, c.Mod(w), a)))
    ensures st'.passed == st.passed + if Fills(c, st, f, c.Mod(w), a) then [f] else []
    ensures st'.eosMessages == st.eosMessages + if Fills(c, st, f, c.Mod(w), a) && f.eos then [f] else []
  {
    hide FlowOk;
    MaskFills(c, f, st.flow[f], c.Mod(w), a);
    hide Config.Valid;
  }

  /** The frames that passed before are earlier ones of the stream. */
  lemma PassedBefore(c: Config, st: State, w: Worker, f: Frame, a: Action, st': State, g: Frame)
    requires c.Valid() && Performs(c, st, w, f, a, st') && Shape(c, st) && Flows(c, st) && Fills(c, st, f, c.Mod(w), a)
    requires ThroughWithEarlier(st) && g in st.flow && st.flow[g].mask == c.all && g.stream == f.stream
    ensures g.num < f.num
  {
    hide FlowOk;
    var m := c.Mod(w);
    MaskFills(c, f, st.flow[f], m, a);
    assert m in c.all && HasStage(st, f, m) && Pending(st.flow[f].stage[m]);
    if g.num == f.num { SameFrame(c, f, g); }
    assert Before(f, g) || g.num <= f.num;
  }

  lemma KeepsOutcomes(c: Config, st: State, w: Worker, f: Frame, a: Action, st': State)
    requires c.Valid() && Performs(c, st, w, f, a, st') && Shape(c, st) && Flows(c, st)
    requires ThroughWithEarlier(st) && Outcomes(c, st)
    ensures Outcomes(c, st')
  {
    hide Config.Valid;
    hide Performs;
    hide Flows;
    hide Shape;
    hide ThroughWithEarlier;
    PassedAfter(c, st, w, f, a, st');
    if Fills(c, st, f, c.Mod(w), a) {
      forall g | g in st.passed && g.stream == f.stream ensures g.num < f.num {
        PassedBefore(c, st, w, f, a, st', g);
      }
      InOrderAppend(st.passed, f);
      InOrderAppend(st.eosMessages, f);
    }
    hide Fills;
    hide InOrder;
  }

  // ----- Every step keeps the invariant -----

  /** At the start each frame waits at the head its source feeds, and nowhere else. */
  lemma InitCame(c: Config, st: State, w: Worker, f: Frame)
    requires c.Valid() && Init(c, st) && w in c.Workers() && Came(c, st, w, f)
    ensures w.Source? && f in c.sent[w.stream] && StageAt(st, f, c.Mod(w)).Waiting?
  {
    InitStages(c, st, f, c.Mod(w));
    InitFrame(c, st, f);
  }

  lemma InitSent(c: Config, st: State, w: Worker, f: Frame)
    requires c.Valid() && Init(c, st) && w in c.Workers() && w.Source? && f in c.sent[w.stream]
    ensures Came(c, st, w, f)
  {
    HeadOfSource(c, w.stream);
    var i :| 0 <= i < |c.sent[w.stream]| && c.sent[w.stream][i] == f;
    assert f in c.Frames() && f.stream == w.stream;
  }

  lemma InitLinks(c: Config, st: State, w: Worker, f: Frame)
    requires c.Valid() && Init(c, st) && Shape(c, st) && w in st.queue
    ensures QueueTells(c, st, w, f) && HandTells(c, st, w, f) && HistoryTells(c, st, w, f)
  {
    assert w.Source? ==> w.stream < |c.sent|;
    hide Config.Valid;
    hide Shape;
    hide StageAt;
    hide Came;
    if Came(c, st, w, f) { InitCame(c, st, w, f); }
    if w.Source? && f in c.sent[w.stream] { InitSent(c, st, w, f); }
  }

  lemma InitFrame(c: Config, st: State, f: Frame)
    requires c.Valid() && Init(c, st) && f in st.flow
    ensures f.stream < |c.head| && f in c.sent[f.stream]
    ensures c.head[f.stream] < |c.order| && c.parents[c.head[f.stream]] == {}
  {
    assert c.NetOf(f.stream).Valid();
  }

  lemma HeadOfSource(c: Config, s: nat)
    requires c.Valid() && s < |c.head|
    ensures c.head[s] < |c.order| && c.parents[c.head[s]] == {}
    ensures forall i :: 0 <= i < |c.sent[s]| ==> c.sent[s][i].stream == s
  {
    assert c.NetOf(s).Valid();
  }

  lemma InitFlows(c: Config, st: State)
    requires c.Valid() && Init(c, st)
    ensures Flows(c, st)
  {
    forall f | f in st.flow ensures FlowOk(c, f, st.flow[f]) {
      FreshInv(c.NetOf(f.stream));
    }
  }

  lemma InitStages(c: Config, st: State, f: Frame, m: nat)
    requires c.Valid() && Init(c, st) && HasStage(st, f, m)
    ensures f.stream < |c.head| && st.flow[f] == Fresh(m) && m < |c.parents| && c.parents[m] == {}
  {
    assert c.NetOf(f.stream).Valid();
  }

  lemma InitOrder(c: Config, st: State)
    requires c.Valid() && Init(c, st)
    ensures ThroughWithEarlier(st) && EarlierCame(c, st) && Flags(c, st)
  {
    forall f, m: nat | HasStage(st, f, m) ensures st.flow[f] == Fresh(m) && m < |c.parents| && c.parents[m] == {} {
      InitStages(c, st, f, m);
    }
    assert forall f :: f in st.flow ==> st.flow[f].mask == {};
    hide Init;
    hide Config.Valid;
  }

  lemma InitShape(c: Config, st: State)
    requires c.Valid() && Init(c, st)
    ensures Shape(c, st)
  {
  }

  lemma InitQueue(c: Config, st: State, w: Worker)
    requires c.Valid() && Init(c, st) && w in st.queue && w in st.taken
    ensures InOrder(st.taken[w] + st.queue[w])
  {
    assert st.taken[w] + st.queue[w] == st.queue[w];
    if w.Source? { SentInOrder(c, w.stream); }
  }

  lemma InitFifo(c: Config, st: State)
    requires c.Valid() && Init(c, st) && Shape(c, st)
    ensures Fifo(c, st)
  {
    hide Config.Valid;
    hide Config.Workers;
    hide InOrder;
    forall w | w in st.queue ensures InOrder(st.taken[w] + st.queue[w]) { InitQueue(c, st, w); }
  }

  lemma SentInOrder(c: Config, s: nat)
    requires c.Valid() && s < |c.sent|
    ensures InOrder(c.sent[s])
  {
    forall i | 0 <= i < |c.sent[s]| ensures c.sent[s][i].num == i { }
    hide Config.Valid;
  }

  lemma InitOutcomes(c: Config, st: State)
    requires c.Valid() && Init(c, st)
    ensures Outcomes(c, st)
  {
    forall f | f in st.flow ensures st.flow[f].mask != c.all {
      assert c.NetOf(f.stream).Valid() && c.head[f.stream] in c.all;
    }
  }

  lemma InitInv(c: Config, st: State)
    requires c.Valid() && Init(c, st)
    ensures Sound(c, st)
  {
    InitFlows(c, st);
    InitShape(c, st);
    InitFifo(c, st);
    InitOrder(c, st);
    InitOutcomes(c, st);
    forall w, f | w in st.queue ensures QueueTells(c, st, w, f) && HandTells(c, st, w, f) && HistoryTells(c, st, w, f) {
      InitLinks(c, st, w, f);
    }
    hide Init;
    hide Config.Valid;
    hide Flows;
    hide Fifo;
    hide ThroughWithEarlier;
    hide EarlierCame;
    hide Flags;
    hide Outcomes;
    hide QueueTells;
    hide HandTells;
    hide HistoryTells;
  }

  lemma PerformInv(c: Config, st: State, w: Worker, f: Frame, a: Action, st': State)
    requires c.Valid() && Performs(c, st, w, f, a, st') && Sound(c, st)
    requires a.Drop? && f.eos ==> f in c.flawed
    requires a.Vet? ==> f !in c.flawed
    ensures Sound(c, st')
  {
    hide Performs;
    hide Shape;
    hide Flows;
    hide Linked;
    hide Fifo;
    hide ThroughWithEarlier;
    hide EarlierCame;
    hide Flags;
    hide Outcomes;
    KeepsLinked(c, st, w, f, a, st');
    KeepsFlows(c, st, w, f, a, st');
    KeepsOrder(c, st, w, f, a, st');
    KeepsFlags(c, st, w, f, a, st');
    KeepsOutcomes(c, st, w, f, a, st');
  }

  /** ProvideData never turns a frame away: past the head, its mask is not empty. */
  lemma GuardNeverRejects(c: Config, f: Frame, fl: Flow, m: nat)
    requires c.Valid() && FlowOk(c, f, fl) && m in fl.stage
    ensures m < |c.parents| && (c.parents[m] != {} ==> fl.mask != {})
  {
    var net := c.NetOf(f.stream);
    assert InBounds(net, fl) && ParentsFirst(net, fl) && MaskOffRoute(net, fl) && net.Valid();
    hide FlowOk;
    hide Config.Valid;
    if m != net.head { HeadFirst(net, fl, m); }
  }

  /** What the branches of the code mean for a frame: only a frame flawed from the start makes an
      end-of-stream mark be dropped, and no such frame is let through. */
  lemma ChoiceIsSafe(c: Config, st: State, step: Step, f: Frame, a: Action)
    requires c.Valid() && Progress(step) && Starts(c, st, step) && f == FrameOf(c, st, step)
    requires f in st.flow && a == Choice(c, st, step, f, c.Mod(step.w))
    requires Sound(c, st)
    ensures a.Drop? && f.eos ==> f in c.flawed
    ensures a.Vet? ==> f !in c.flawed
  {
    hide FlowOk;
    hide Linked;
    hide Fifo;
    hide Outcomes;
    if step.Enter? { GuardNeverRejects(c, f, st.flow[f], c.Mod(step.w)); }
  }

  lemma FlagsAreLinked(c: Config, st: State, invalid: set<Frame>)
    requires c.Valid() && Shape(c, st) && Linked(c, st) && Shape(c, st.(invalid := invalid))
    ensures Linked(c, st.(invalid := invalid))
  {
    hide Config.Valid;
    var st' := st.(invalid := invalid);
    forall w, f | w in st'.queue
      ensures QueueTells(c, st', w, f) && HandTells(c, st', w, f) && HistoryTells(c, st', w, f)
    {
      assert QueueTells(c, st, w, f) && HandTells(c, st, w, f) && HistoryTells(c, st, w, f);
    }
  }

  lemma FlaggedInv(c: Config, st: State, step: Step)
    requires c.Valid() && Sound(c, st)
    ensures Sound(c, Flagged(c, st, step))
  {
    hide FlowOk;
    hide Config.Valid;
    hide Linked;
    var st' := Flagged(c, st, step);
    assert st' == st.(invalid := st'.invalid);
    assert Shape(c, st');
    FlagsAreLinked(c, st, st'.invalid);
    assert forall f, m :: HasStage(st', f, m) <==> HasStage(st, f, m);
  }

  /** Every progress step is an action of one worker on its frame. */
  lemma StepPerforms(c: Config, st: State, step: Step) returns (f: Frame, a: Action)
    requires c.Valid() && Enabled(c, st, step) && Progress(step)
    ensures f == FrameOf(c, st, step) && f in st.flow && a == Choice(c, st, step, f, c.Mod(step.w))
    ensures Performs(c, Flagged(c, st, step), step.w, f, a, After(c, st, step))
  {
    hide Config.Valid;
    f := FrameOf(c, st, step);
    a := Choice(c, st, step, f, c.Mod(step.w));
  }

  lemma ProgressInv(c: Config, st: State, step: Step)
    requires c.Valid() && Sound(c, st) && Enabled(c, st, step) && Progress(step)
    ensures Sound(c, After(c, st, step))
  {
    hide Sound;
    hide Config.Valid;
    hide Performs;
    FlaggedInv(c, st, step);
    var f, a := StepPerforms(c, st, step);
    ChoiceIsSafe(c, st, step, f, a);
    PerformInv(c, Flagged(c, st, step), step.w, f, a, After(c, st, step));
  }

  lemma RemovalInv(c: Config, st: State, removed: set<nat>)
    requires c.Valid() && Sound(c, st)
    ensures Sound(c, st.(removed := removed))
  {
    hide FlowOk;
    hide Config.Valid;
    var st' := st.(removed := removed);
    forall w, f | w in st'.queue
      ensures QueueTells(c, st', w, f) && HandTells(c, st', w, f) && HistoryTells(c, st', w, f)
    {
      assert QueueTells(c, st, w, f) && HandTells(c, st, w, f) && HistoryTells(c, st, w, f);
    }
    assert forall f, m :: HasStage(st', f, m) <==> HasStage(st, f, m);
  }

  /** Every step of every worker, and every removal of a stream, keeps the invariant. */
  lemma StepInv(c: Config, st: State, step: Step)
    requires c.Valid() && Sound(c, st) && Enabled(c, st, step)
    ensures Sound(c, After(c, st, step))
  {
    hide Sound;
    hide Config.Valid;
    if Progress(step) { ProgressInv(c, st, step); }
    else if step.SetRemoved? { RemovalInv(c, st, After(c, st, step).removed); }
  }
}
