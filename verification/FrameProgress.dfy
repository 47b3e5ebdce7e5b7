/** Why a frame always finishes: a measure that every action lowers, and what holds when no
    module has the frame in hand any more. */
module FrameProgress {
  import opened FrameFlow

  /** A numbering of the modules that grows along GetNext(); it exists as the graph is acyclic. */
  ghost predicate Ranked(net: Net, rank: seq<nat>) {
    && net.Valid() && |rank| == |net.order|
    && (forall m :: 0 <= m < |rank| ==> rank[m] < |rank|)
    && (forall m: nat, n: nat :: m < |rank| && n in net.order[m] ==> rank[m] < rank[n])
  }

  ghost predicate Settled(fl: Flow) {
    forall m :: m in fl.stage ==> Over(fl.stage[m])
  }

  ghost predicate LostNowhere(fl: Flow) {
    forall m :: m in fl.stage ==> !fl.stage[m].Lost?
  }

  /** When nothing is in hand and nothing was lost, every module on the route has marked. */
  lemma {:induction false} RouteIsMarked(net: Net, rank: seq<nat>, fl: Flow, n: nat)
    requires Ranked(net, rank) && FlowInv(net, fl) && Settled(fl) && LostNowhere(fl) && n in net.route
    ensures n in fl.mask
    decreases rank[n]
  {
    if n != net.head {
      assert net.head in fl.mask;
      forall p | p in net.parents[n] ensures p in fl.mask {
        assert n in net.order[p];
        if p in net.route { RouteIsMarked(net, rank, fl, p); }
      }
    }
  }

  /** A frame that no module has in hand has passed through exactly if it was dropped nowhere. */
  lemma SettledPasses(net: Net, rank: seq<nat>, fl: Flow)
    requires Ranked(net, rank) && Inv(net, fl) && Settled(fl)
    ensures Passed in fl.trail <==> LostNowhere(fl)
    ensures fl.mask == net.all <==> LostNowhere(fl)
    ensures LostNowhere(fl) <==> forall m: nat :: Dropped(m) !in fl.trail
    ensures Passed in fl.trail ==> forall m :: m in net.route ==> Taken(m) in fl.trail && Marked(m) in fl.trail
  {
    if LostNowhere(fl) {
      forall n | n in net.all ensures n in fl.mask {
        RouteIsMarked(net, rank, fl, net.head);
        if n in net.route { RouteIsMarked(net, rank, fl, n); }
      }
    }
  }

  // ----- The measure -----

  /** The actions a frame waiting at module `m` can still cause there and downstream. */
  ghost function Work(net: Net, rank: seq<nat>, m: nat): nat
    requires Ranked(net, rank) && m < |rank|
    decreases |rank| - rank[m], |net.order[m]| + 1
  {
    6 + WorkAll(net, rank, m, net.order[m])
  }

  ghost function WorkAll(net: Net, rank: seq<nat>, m: nat, todo: seq<nat>): nat
    requires Ranked(net, rank) && m < |rank| && forall n :: n in todo ==> n in net.order[m]
    decreases |rank| - rank[m], |todo|
  {
    if todo == [] then 0 else
      assert todo[0] in net.order[m];
      1 + Work(net, rank, todo[0]) + WorkAll(net, rank, m, todo[1..])
  }

  ghost function StageWork(net: Net, rank: seq<nat>, m: nat, s: Stage): nat
    requires Ranked(net, rank) && m < |rank| && (s.Sending? ==> forall n :: n in s.todo ==> n in net.order[m])
  {
    match s
    case Waiting => Work(net, rank, m)
    case Working => Work(net, rank, m) - 1
    case Ready => Work(net, rank, m) - 2
    case Vetted => Work(net, rank, m) - 3
    case Sending(_, todo) => 1 + WorkAll(net, rank, m, todo)
    case Done => 0
    case Lost => 0
  }

  ghost function Sum<K>(m: map<K, nat>): nat
    decreases |m|
  {
    if m == map[] then 0 else var k :| k in m; m[k] + Sum(m - {k})
  }

  lemma {:induction false} SumSplit<K>(m: map<K, nat>, k: K)
    requires k in m
    ensures Sum(m) == m[k] + Sum(m - {k})
    decreases |m|
  {
    var j :| j in m && Sum(m) == m[j] + Sum(m - {j});
    if j != k {
      SumSplit(m - {j}, k);
      SumSplit(m - {k}, j);
      assert m - {j} - {k} == m - {k} - {j};
    }
  }

  lemma SumUpdate<K>(m: map<K, nat>, k: K, v: nat)
    ensures Sum(m[k := v]) + (if k in m then m[k] else 0) == Sum(m) + v
  {
    SumSplit(m[k := v], k);
    assert m[k := v] - {k} == m - {k};
    if k in m { SumSplit(m, k); } else { assert m - {k} == m; }
  }

  ghost predicate Sized(net: Net, rank: seq<nat>, m: nat, s: Stage)
    requires Ranked(net, rank)
  {
    m < |rank| && (s.Sending? ==> forall n :: n in s.todo ==> n in net.order[m])
  }

  ghost predicate AllSized(net: Net, rank: seq<nat>, stage: map<nat, Stage>)
    requires Ranked(net, rank)
  {
    forall m :: m in stage ==> Sized(net, rank, m, stage[m])
  }

  lemma FlowIsSized(net: Net, rank: seq<nat>, fl: Flow)
    requires Ranked(net, rank) && InBounds(net, fl) && Loops(net, fl)
    ensures AllSized(net, rank, fl.stage)
  {
    forall m | m in fl.stage ensures Sized(net, rank, m, fl.stage[m]) {
      assert fl.stage[m].Sending? ==> Loop(net, fl, m);
    }
  }

  /** What is left to do for a frame. */
  ghost function Remaining(net: Net, rank: seq<nat>, stage: map<nat, Stage>): nat
    requires Ranked(net, rank) && AllSized(net, rank, stage)
  {
    Sum(map m | m in stage :: StageWork(net, rank, m, stage[m]))
  }

  lemma RemainingUpdate(net: Net, rank: seq<nat>, stage: map<nat, Stage>, m: nat, s: Stage)
    requires Ranked(net, rank) && AllSized(net, rank, stage) && Sized(net, rank, m, s)
    ensures AllSized(net, rank, stage[m := s])
    ensures Remaining(net, rank, stage[m := s]) + (if m in stage then StageWork(net, rank, m, stage[m]) else 0)
            == Remaining(net, rank, stage) + StageWork(net, rank, m, s)
  {
    var works: map<nat, nat> := map k | k in stage :: StageWork(net, rank, k, stage[k]);
    SumUpdate(works, m, StageWork(net, rank, m, s));
    var stage' := stage[m := s];
    var works': map<nat, nat> := map k | k in stage' :: StageWork(net, rank, k, stage'[k]);
    assert works' == works[m := StageWork(net, rank, m, s)];
  }

  lemma StageShrinks(net: Net, rank: seq<nat>, fl: Flow, m: nat, a: Action)
    requires Ranked(net, rank) && Allowed(net, fl, m, a) && Sized(net, rank, m, fl.stage[m])
    ensures Sized(net, rank, m, StageAfter(net, fl, m, a))
    ensures a.Push? ==> fl.stage[m].todo[0] < |rank|
    ensures StageWork(net, rank, m, StageAfter(net, fl, m, a))
            + (if a.Push? then Work(net, rank, fl.stage[m].todo[0]) else 0)
            < StageWork(net, rank, m, fl.stage[m])
  {
  }

  /** Every action leaves less to do. */
  lemma ActLowersRemaining(net: Net, rank: seq<nat>, fl: Flow, m: nat, a: Action)
    requires Ranked(net, rank) && Allowed(net, fl, m, a) && AllSized(net, rank, fl.stage) && NeverTwice(net, fl)
    ensures AllSized(net, rank, Act(net, fl, m, a).stage)
    ensures Remaining(net, rank, Act(net, fl, m, a).stage) < Remaining(net, rank, fl.stage)
  {
    StageShrinks(net, rank, fl, m, a);
    var s := StageAfter(net, fl, m, a);
    RemainingUpdate(net, rank, fl.stage, m, s);
    if a.Push? {
      PushIsNew(net, fl, m);
      RemainingUpdate(net, rank, fl.stage[m := s], fl.stage[m].todo[0], Waiting);
    }
  }
}
