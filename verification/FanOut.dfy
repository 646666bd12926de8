/**
 * The master-tick broadcast of core/rtp/reactor.go as interleaved atomic steps: one fan-out goroutine, one worker
 * per shard, and between them one channel with room for a single pending tick.
 */
module FanOut {
  import opened Wrappers

  datatype Worker = Idle | Busy | Ended

  /** A channel and its worker, with counts of the ticks started and skipped. */
  datatype Lane = Lane(pending: bool, closes: nat, worker: Worker, started: nat, skipped: nat)

  datatype Fan = Waiting | Broadcasting(at: nat) | Closing(at: nat) | Exited

  datatype State = State(fan: Fan, quit: bool, broadcasts: nat, lanes: seq<Lane>)

  /** What may happen next. Disabled actions leave the state alone, so every list of actions is an interleaving. */
  datatype Action = MasterTick | Stop | SeeQuit | FanStep | Take(s: nat) | Finish(s: nat) | End(s: nat)

  function Start(n: nat): State { State(Waiting, false, 0, seq(n, i => Lane(false, 0, Idle, 0, 0))) }

  function SendTo(l: Lane): Lane {
    if l.pending then l.(skipped := l.skipped + 1) else l.(pending := true)
  }

  function SetLane(x: State, s: nat, l: Lane): State
    requires s < |x.lanes|
  {
    x.(lanes := x.lanes[s := l])
  }

  function FanMoves(x: State): State {
    match x.fan
    case Broadcasting(i) =>
      if i < |x.lanes| then SetLane(x, i, SendTo(x.lanes[i])).(fan := Broadcasting(i + 1)) else x.(fan := Waiting)
    case Closing(i) =>
      if i < |x.lanes| then SetLane(x, i, x.lanes[i].(closes := x.lanes[i].closes + 1)).(fan := Closing(i + 1))
      else x.(fan := Exited)
    case _ => x
  }

  function Step(x: State, a: Action): State {
    match a
    case MasterTick => if x.fan == Waiting then x.(fan := Broadcasting(0), broadcasts := x.broadcasts + 1) else x
    case Stop => x.(quit := true)
    case SeeQuit => if x.fan == Waiting && x.quit then x.(fan := Closing(0)) else x
    case FanStep => FanMoves(x)
    case Take(s) =>
      if s < |x.lanes| && x.lanes[s].worker == Idle && x.lanes[s].pending
      then SetLane(x, s, x.lanes[s].(pending := false, worker := Busy, started := x.lanes[s].started + 1)) else x
    case Finish(s) =>
      if s < |x.lanes| && x.lanes[s].worker == Busy then SetLane(x, s, x.lanes[s].(worker := Idle)) else x
    case End(s) =>
      if s < |x.lanes| && x.lanes[s].worker == Idle && !x.lanes[s].pending && x.lanes[s].closes > 0
      then SetLane(x, s, x.lanes[s].(worker := Ended)) else x
  }

  function Run(x: State, acts: seq<Action>): State {
    if acts == [] then x else Step(Run(x, acts[..|acts| - 1]), acts[|acts| - 1])
  }

  /** The broadcasts that have reached lane s: all of them, except one in progress that has not come to s yet. */
  function Reached(x: State, s: nat): int {
    if x.fan.Broadcasting? && s >= x.fan.at then x.broadcasts - 1 else x.broadcasts
  }

  /** Every broadcast that reached the lane was started, is pending, or was skipped; the channel is used lawfully. */
  ghost predicate LaneOk(x: State, s: nat)
    requires s < |x.lanes|
  {
    var l := x.lanes[s];
    && l.started + Count(l.pending) + l.skipped == Reached(x, s)
    && l.closes == Count(x.fan == Exited || (x.fan.Closing? && s < x.fan.at))
    && (l.worker == Ended ==> l.closes > 0 && !l.pending)
  }

  ghost predicate Inv(x: State) {
    && (x.fan.Broadcasting? ==> x.broadcasts > 0 && x.fan.at <= |x.lanes|)
    && (x.fan.Closing? ==> x.fan.at <= |x.lanes|)
    && forall s :: 0 <= s < |x.lanes| ==> LaneOk(x, s)
  }

  lemma StepKeepsInv(x: State, a: Action)
    requires Inv(x)
    ensures Inv(Step(x, a)) && |Step(x, a).lanes| == |x.lanes|
  {
    var y := Step(x, a);
    forall s | 0 <= s < |y.lanes| ensures LaneOk(y, s) {
      assert LaneOk(x, s);
    }
  }

  lemma {:induction false} RunKeepsInv(n: nat, acts: seq<Action>)
    ensures Inv(Run(Start(n), acts)) && |Run(Start(n), acts).lanes| == n
  {
    if acts != [] {
      RunKeepsInv(n, acts[..|acts| - 1]);
      StepKeepsInv(Run(Start(n), acts[..|acts| - 1]), acts[|acts| - 1]);
    }
  }

  /**
   * In every reachable state the ticks of a shard add up to the broadcasts that have reached it, which between two
   * broadcasts are all of them; no channel is closed twice; and during a broadcast no channel has been closed yet, so
   * nothing is ever sent on a closed channel.
   */
  lemma TicksAccounted(n: nat, acts: seq<Action>, s: nat)
    requires s < n
    ensures var x := Run(Start(n), acts);
      && |x.lanes| == n && x.lanes[s].closes <= 1
      && x.lanes[s].started + Count(x.lanes[s].pending) + x.lanes[s].skipped == Reached(x, s)
      && (x.broadcasts - 1 <= Reached(x, s) <= x.broadcasts)
      && (Reached(x, s) < x.broadcasts <==> x.fan.Broadcasting? && x.fan.at <= s)
      && (x.fan.Broadcasting? ==> x.lanes[s].closes == 0)
  {
    RunKeepsInv(n, acts);
    assert LaneOk(Run(Start(n), acts), s);
  }

  lemma UnaskedStep(x: State, a: Action)
    requires !x.quit && a != Stop && !x.fan.Closing? && !x.fan.Exited?
    ensures !Step(x, a).quit && !Step(x, a).fan.Closing? && !Step(x, a).fan.Exited?
  {}

  /** Without a Stop no channel is ever closed. */
  lemma {:induction false} NeverClosesUnasked(n: nat, acts: seq<Action>)
    requires Stop !in acts
    ensures var x := Run(Start(n), acts);
      && !x.quit && !x.fan.Closing? && !x.fan.Exited? && forall s :: 0 <= s < |x.lanes| ==> x.lanes[s].closes == 0
  {
    RunKeepsInv(n, acts);
    if acts != [] {
      hide Step;
      var m := |acts| - 1;
      assert acts[m] in acts;
      NeverClosesUnasked(n, acts[..m]);
      UnaskedStep(Run(Start(n), acts[..m]), acts[m]);
    }
    var x := Run(Start(n), acts);
    forall s | 0 <= s < |x.lanes| ensures x.lanes[s].closes == 0 { assert LaneOk(x, s); }
  }

  /** A tick is skipped only while another one is pending for the same shard. */
  lemma SkipNeedsPending(x: State, a: Action, s: nat)
    requires s < |x.lanes| && |Step(x, a).lanes| == |x.lanes| && Step(x, a).lanes[s].skipped != x.lanes[s].skipped
    ensures x.lanes[s].pending && x.fan == Broadcasting(s) && Step(x, a).lanes[s].skipped == x.lanes[s].skipped + 1
  {}

  /** Once a shard's channel is closed, whatever happens afterwards it starts at most the one tick already pending. */
  lemma {:induction false} AtMostOneMore(x: State, acts: seq<Action>, s: nat)
    requires Inv(x) && s < |x.lanes| && x.lanes[s].closes > 0
    ensures var y := Run(x, acts);
      && Inv(y) && |y.lanes| == |x.lanes| && y.lanes[s].closes > 0
      && y.lanes[s].started + Count(y.lanes[s].pending) == x.lanes[s].started + Count(x.lanes[s].pending)
  {
    if acts != [] {
      var n := |acts| - 1;
      AtMostOneMore(x, acts[..n], s);
      var y := Run(x, acts[..n]);
      assert LaneOk(y, s);
      StepKeepsInv(y, acts[n]);
    }
  }

  /** An idle worker can always start its pending tick, and a busy one finish it; neither depends on anyone else. */
  lemma PendingCanStart(x: State, s: nat)
    requires s < |x.lanes|
    ensures var (l, y, z) := (x.lanes[s], Step(x, Take(s)).lanes[s], Step(x, Finish(s)).lanes[s]);
      && (l.worker == Idle && l.pending ==> y == l.(pending := false, worker := Busy, started := l.started + 1))
      && (l.worker == Busy ==> z == l.(worker := Idle))
  {}

  /** What a broadcast leaves in a lane it has passed. */
  ghost predicate Delivered(before: Lane, after: Lane) {
    after.pending && after.closes == before.closes && after.worker == before.worker && after.started == before.started
    && after.skipped == before.skipped + Count(before.pending)
  }

  /** k steps of the fan-out goroutine. */
  function FanSteps(k: nat): seq<Action> { seq(k, _ => FanStep) }

  lemma {:induction false} BroadcastPasses(x: State, k: nat)
    requires x.fan == Waiting && k <= |x.lanes|
    ensures var y := Run(Step(x, MasterTick), FanSteps(k));
      && y.fan == Broadcasting(k) && y.quit == x.quit && y.broadcasts == x.broadcasts + 1 && |y.lanes| == |x.lanes|
      && forall s :: 0 <= s < |x.lanes| ==>
           if s < k then Delivered(x.lanes[s], y.lanes[s]) else y.lanes[s] == x.lanes[s]
  {
    if k > 0 {
      BroadcastPasses(x, k - 1);
      assert FanSteps(k)[..k - 1] == FanSteps(k - 1);
    }
  }

  /** One master tick puts a tick into every lane, or counts it as skipped where one is pending, and waits again. */
  lemma BroadcastReachesAll(x: State)
    requires x.fan == Waiting
    ensures var y := Run(Step(x, MasterTick), FanSteps(|x.lanes| + 1));
      && y.fan == Waiting && |y.lanes| == |x.lanes|
      && forall s :: 0 <= s < |x.lanes| ==> Delivered(x.lanes[s], y.lanes[s])
  {
    hide Delivered;
    var n := |x.lanes|;
    BroadcastPasses(x, n);
    assert FanSteps(n + 1)[..n] == FanSteps(n);
  }

  /** Steps the fan-out goroutine still has to take once Stop has been called. */
  function FanLeft(x: State): nat {
    var n := |x.lanes|;
    match x.fan
    case Broadcasting(i) => if i <= n then (n - i + 1) + (n + 2) else 0
    case Waiting => n + 2
    case Closing(i) => if i <= n then n - i + 1 else 0
    case Exited => 0
  }

  lemma FanMovesOn(x: State) returns (a: Action)
    requires Inv(x) && x.quit && x.fan != Exited
    ensures a == SeeQuit || a == FanStep
    ensures FanLeft(Step(x, a)) < FanLeft(x) && Step(x, a).quit
  {
    a := if x.fan == Waiting then SeeQuit else FanStep;
  }

  lemma StopIsSeen(x: State)
    requires Inv(x)
    ensures Step(x, Stop).quit && FanLeft(Step(x, Stop)) == FanLeft(x) && |Step(x, Stop).lanes| == |x.lanes|
  {}

  /** From Stop on, the fan-out goroutine can close every channel and exit, within two rounds over the lanes. */
  lemma StopClosesAll(x: State) returns (acts: seq<Action>)
    requires Inv(x)
    ensures 1 <= |acts| <= 1 + FanLeft(x) && acts[0] == Stop
    ensures forall i :: 0 < i < |acts| ==> acts[i] == SeeQuit || acts[i] == FanStep
    ensures var y := Run(x, acts);
      && Inv(y) && y.fan == Exited && |y.lanes| == |x.lanes|
      && forall s :: 0 <= s < |y.lanes| ==> y.lanes[s].closes == 1
  {
    acts := [Stop];
    assert acts[..0] == [];
    assert Run(x, acts) == Step(x, Stop);
    hide Step, Inv, FanLeft;
    StopIsSeen(x);
    StepKeepsInv(x, Stop);
    while Run(x, acts).fan != Exited
      invariant var y := Run(x, acts); Inv(y) && y.quit && |y.lanes| == |x.lanes|
      invariant 1 <= |acts| && acts[0] == Stop && |acts| + FanLeft(Run(x, acts)) <= 1 + FanLeft(x)
      invariant forall i :: 0 < i < |acts| ==> acts[i] == SeeQuit || acts[i] == FanStep
      decreases FanLeft(Run(x, acts))
    {
      var y := Run(x, acts);
      var a := FanMovesOn(y);
      StepKeepsInv(y, a);
      assert (acts + [a])[..|acts|] == acts;
      acts := acts + [a];
    }
    ExitedMeansClosed(Run(x, acts));
  }

  lemma ExitedMeansClosed(x: State)
    requires Inv(x) && x.fan == Exited
    ensures forall s :: 0 <= s < |x.lanes| ==> x.lanes[s].closes == 1
  {
    forall s | 0 <= s < |x.lanes| ensures x.lanes[s].closes == 1 { assert LaneOk(x, s); }
  }

  /** Work left in a lane whose channel is closed. */
  function Remaining(l: Lane): nat {
    3 * Count(l.pending) + match l.worker case Idle => 1 case Busy => 2 case Ended => 0
  }

  /** A step of the worker of lane s that changes something. */
  predicate OwnStep(x: State, s: nat, a: Action) { (a == Take(s) || a == Finish(s) || a == End(s)) && Step(x, a) != x }

  /** Once the channel of a lane is closed, nobody's step moves its end away, and each of its own brings it nearer. */
  lemma ClosedLaneDrains(x: State, s: nat, a: Action)
    requires Inv(x) && s < |x.lanes| && x.lanes[s].closes > 0
    ensures var y := Step(x, a);
      && |y.lanes| == |x.lanes| && y.lanes[s].closes > 0 && Remaining(y.lanes[s]) <= Remaining(x.lanes[s])
      && (OwnStep(x, s, a) ==> Remaining(y.lanes[s]) < Remaining(x.lanes[s]))
  {
    assert LaneOk(x, s);
    StepKeepsInv(x, a);
    assert LaneOk(Step(x, a), s);
  }

  lemma ClosedLaneMoves(x: State, s: nat) returns (a: Action)
    requires Inv(x) && s < |x.lanes| && x.lanes[s].closes > 0 && x.lanes[s].worker != Ended
    ensures OwnStep(x, s, a)
  {
    var l := x.lanes[s];
    a := if l.worker == Busy then Finish(s) else if l.pending then Take(s) else End(s);
    assert Step(x, a).lanes[s] != l;
  }

  /** Nothing remains exactly when the worker has ended, and then no tick is pending. */
  lemma EndedIffDone(x: State, s: nat)
    requires Inv(x) && s < |x.lanes|
    ensures Remaining(x.lanes[s]) == 0 <==> x.lanes[s].worker == Ended
    ensures x.lanes[s].worker == Ended ==> !x.lanes[s].pending
    ensures Remaining(x.lanes[s]) <= 5
  {
    assert LaneOk(x, s);
  }

  /** How many steps of the worker of lane s a run contains. */
  function OwnSteps(x: State, s: nat, acts: seq<Action>): nat {
    if acts == [] then 0
    else
      var front := acts[..|acts| - 1];
      OwnSteps(x, s, front) + if OwnStep(Run(x, front), s, acts[|acts| - 1]) then 1 else 0
  }

  /** In any run a closed lane takes at most as many steps as remain, and after exactly so many it has ended. */
  lemma {:induction false} LaneStepsBounded(x: State, acts: seq<Action>, s: nat)
    requires Inv(x) && s < |x.lanes| && x.lanes[s].closes > 0
    ensures var y := Run(x, acts);
      && Inv(y) && |y.lanes| == |x.lanes| && y.lanes[s].closes > 0
      && Remaining(y.lanes[s]) + OwnSteps(x, s, acts) <= Remaining(x.lanes[s])
      && (OwnSteps(x, s, acts) == Remaining(x.lanes[s]) ==> y.lanes[s].worker == Ended)
  {
    hide Step, Inv, OwnStep, Remaining;
    if acts != [] {
      var n := |acts| - 1;
      LaneStepsBounded(x, acts[..n], s);
      ClosedLaneDrains(Run(x, acts[..n]), s, acts[n]);
      StepKeepsInv(Run(x, acts[..n]), acts[n]);
    }
    EndedIffDone(Run(x, acts), s);
  }

  /** At most five steps end a closed lane: its worker is gone and the pending tick was started. */
  lemma ClosedLaneEnds(x: State, s: nat) returns (acts: seq<Action>)
    requires Inv(x) && s < |x.lanes| && x.lanes[s].closes > 0
    ensures |acts| <= Remaining(x.lanes[s]) <= 5
    ensures var y := Run(x, acts); |y.lanes| == |x.lanes| && y.lanes[s].worker == Ended && !y.lanes[s].pending
  {
    hide Step, Inv, OwnStep, Remaining;
    EndedIffDone(x, s);
    acts := [];
    while Run(x, acts).lanes[s].worker != Ended
      invariant var y := Run(x, acts); Inv(y) && |y.lanes| == |x.lanes| && y.lanes[s].closes > 0
      invariant |acts| + Remaining(Run(x, acts).lanes[s]) <= Remaining(x.lanes[s])
      decreases Remaining(Run(x, acts).lanes[s])
    {
      var y := Run(x, acts);
      var a := ClosedLaneMoves(y, s);
      ClosedLaneDrains(y, s, a);
      StepKeepsInv(y, a);
      assert (acts + [a])[..|acts|] == acts;
      acts := acts + [a];
    }
    EndedIffDone(Run(x, acts), s);
  }
}
