/**
 * The life of one outbound call (sip/handle.go, with the goroutines started in sip/dial.go) as interleaved atomic
 * steps of any number of Hangup and Result callers, the media goroutines and the finalizer.
 */
module CallHandle {
  import opened Wrappers

  /** Receiver, echo and RTCP loops end only once they see the stop channel closed; a sender may run out of audio. */
  datatype Kind = Receiver | Echo | Rtcp | StreamSender

  datatype Task = Task(kind: Kind, running: bool)

  datatype Phase =
    | Called      // about to take the mutex
    | Won         // found the call active and cleared the flag
    | MustClose   // saw the stop channel open
    | MustBye     // stop channel closed
    | Waiting     // blocked on the done channel
    | Returned

  /** One caller of Hangup, or of Result or WaitDone (which starts out waiting). */
  datatype Caller = Caller(hangup: bool, won: bool, phase: Phase)

  datatype Finalizer = Blocked | Computed | Closing | Finished

  datatype Call = Call(active: bool, stopCloses: nat, doneCloses: nat, byes: nat, wg: int,
                       tasks: seq<Task>, finalizer: Finalizer, resultSet: bool, callers: seq<Caller>)

  datatype Action = NewHangup | NewWaiter | RemoteBye | CallerStep(i: nat) | TaskEnds(i: nat) | FinalizerStep

  /** A freshly dialled call: a receiver always runs, the other goroutines depend on the configuration. */
  function Dialled(others: seq<Kind>): Call {
    var tasks := [Task(Receiver, true)] + seq(|others|, i requires 0 <= i < |others| => Task(others[i], true));
    Call(true, 0, 0, 0, |tasks|, tasks, Blocked, false, [])
  }

  function CallerMoves(c: Call, i: nat): Call
    requires i < |c.callers|
  {
    var me := c.callers[i];
    match me.phase
    case Called =>
      if c.active then c.(active := false, callers := c.callers[i := me.(won := true, phase := Won)])
      else c.(callers := c.callers[i := me.(phase := Waiting)])
    case Won => c.(callers := c.callers[i := me.(phase := if c.stopCloses > 0 then MustBye else MustClose)])
    case MustClose => c.(stopCloses := c.stopCloses + 1, callers := c.callers[i := me.(phase := MustBye)])
    case MustBye => c.(byes := c.byes + 1, callers := c.callers[i := me.(phase := Waiting)])
    case Waiting => if c.doneCloses > 0 then c.(callers := c.callers[i := me.(phase := Returned)]) else c
    case Returned => c
  }

  function Step(c: Call, a: Action): Call {
    match a
    case NewHangup => c.(callers := c.callers + [Caller(true, false, Called)])
    case NewWaiter => c.(callers := c.callers + [Caller(false, false, Waiting)])
    // The client answers a BYE from the far end and does nothing else.
    case RemoteBye => c
    case CallerStep(i) => if i < |c.callers| then CallerMoves(c, i) else c
    case TaskEnds(i) =>
      if i < |c.tasks| && c.tasks[i].running && (c.tasks[i].kind == StreamSender || c.stopCloses > 0)
      then c.(tasks := c.tasks[i := c.tasks[i].(running := false)], wg := c.wg - 1) else c
    case FinalizerStep =>
      match c.finalizer
      case Blocked => if c.wg == 0 then c.(finalizer := Computed) else c
      case Computed => c.(finalizer := Closing, resultSet := true)
      case Closing => c.(finalizer := Finished, doneCloses := c.doneCloses + 1)
      case Finished => c
  }

  function Run(c: Call, acts: seq<Action>): Call {
    if acts == [] then c else Step(Run(c, acts[..|acts| - 1]), acts[|acts| - 1])
  }

  function Running(tasks: seq<Task>): nat {
    if tasks == [] then 0 else Running(tasks[..|tasks| - 1]) + if tasks[|tasks| - 1].running then 1 else 0
  }

  lemma {:induction false} RunningAfterEnd(tasks: seq<Task>, i: nat)
    requires i < |tasks| && tasks[i].running
    ensures Running(tasks[i := tasks[i].(running := false)]) == Running(tasks) - 1
  {
    var n := |tasks| - 1;
    var after := tasks[i := tasks[i].(running := false)];
    if i < n {
      RunningAfterEnd(tasks[..n], i);
      assert after[..n] == tasks[..n][i := tasks[i].(running := false)];
    } else {
      assert after[..n] == tasks[..n];
    }
  }

  lemma {:induction false} RunningZero(tasks: seq<Task>, i: nat)
    requires i < |tasks|
    ensures Running(tasks) == 0 ==> !tasks[i].running
  {
    var n := |tasks| - 1;
    if i < n {
      RunningZero(tasks[..n], i);
    }
  }

  lemma {:induction false} SomeRunning(tasks: seq<Task>) returns (i: nat)
    requires Running(tasks) > 0
    ensures i < |tasks| && tasks[i].running
  {
    var n := |tasks| - 1;
    if tasks[n].running {
      i := n;
    } else {
      i := SomeRunning(tasks[..n]);
    }
  }

  lemma {:induction false} AllRunning(tasks: seq<Task>)
    requires forall i :: 0 <= i < |tasks| ==> tasks[i].running
    ensures Running(tasks) == |tasks|
  {
    if tasks != [] {
      AllRunning(tasks[..|tasks| - 1]);
    }
  }

  // ---- the invariant ----

  ghost predicate CallerOk(c: Call, i: nat)
    requires i < |c.callers|
  {
    var me := c.callers[i];
    && (me.won ==> !c.active && me.hangup && me.phase != Called)
    && (me.phase == Called ==> me.hangup)
    && (me.phase.Won? || me.phase.MustClose? || me.phase.MustBye? ==> me.won)
    && (me.won ==> c.stopCloses == Count(!me.phase.Won? && !me.phase.MustClose?))
    && (me.won ==> c.byes == Count(me.phase.Waiting? || me.phase.Returned?))
    && (me.phase == Returned ==> c.doneCloses > 0)
  }

  ghost predicate Winner(c: Call, w: nat) { w < |c.callers| && c.callers[w].won }

  ghost predicate Inv(c: Call) {
    && (forall i :: 0 <= i < |c.callers| ==> CallerOk(c, i))
    && (forall i, j :: Winner(c, i) && Winner(c, j) ==> i == j)
    && (c.active ==> c.stopCloses == 0 && c.byes == 0)
    && (!c.active ==> exists w :: Winner(c, w))
    && c.wg == Running(c.tasks)
    && c.tasks != [] && c.tasks[0].kind == Receiver && (!c.tasks[0].running ==> c.stopCloses > 0)
    && (c.finalizer != Blocked ==> c.wg == 0)
    && c.doneCloses == Count(c.finalizer == Finished)
    && c.resultSet == (c.finalizer.Closing? || c.finalizer.Finished?)
  }

  lemma CallerKeepsInv(c: Call, i: nat)
    requires Inv(c) && i < |c.callers|
    ensures Inv(CallerMoves(c, i))
  {
    var d := CallerMoves(c, i);
    assert CallerOk(c, i);
    forall j | 0 <= j < |d.callers| ensures CallerOk(d, j) {
      assert CallerOk(c, j);
      if j != i && c.callers[j].won {
        assert Winner(c, j) && !Winner(c, i);
      }
    }
    forall j | Winner(d, j) ensures Winner(c, j) || (j == i && c.active) {}
    forall j | Winner(c, j) ensures Winner(d, j) && !c.active {
      assert CallerOk(c, j);
    }
    if c.active && !d.active {
      assert Winner(d, i);
    }
  }

  lemma NewCallerKeepsInv(c: Call, hangup: bool)
    requires Inv(c)
    ensures Inv(c.(callers := c.callers + [Caller(hangup, false, if hangup then Called else Waiting)]))
  {
    var d := c.(callers := c.callers + [Caller(hangup, false, if hangup then Called else Waiting)]);
    forall j | 0 <= j < |d.callers| ensures CallerOk(d, j) {
      if j < |c.callers| {
        assert CallerOk(c, j);
      }
    }
    forall j ensures Winner(d, j) <==> Winner(c, j) {}
  }

  lemma TaskKeepsInv(c: Call, a: Action)
    requires Inv(c) && (a.TaskEnds? || a.FinalizerStep? || a.RemoteBye?)
    ensures Inv(Step(c, a))
  {
    var d := Step(c, a);
    forall j | 0 <= j < |d.callers| ensures CallerOk(d, j) {
      assert CallerOk(c, j);
    }
    forall j ensures Winner(d, j) <==> Winner(c, j) {}
    if a.TaskEnds? && d != c {
      RunningAfterEnd(c.tasks, a.i);
    }
  }

  lemma StepKeepsInv(c: Call, a: Action)
    requires Inv(c)
    ensures Inv(Step(c, a))
  {
    hide Inv;
    match a {
      case NewHangup => NewCallerKeepsInv(c, true);
      case NewWaiter => NewCallerKeepsInv(c, false);
      case CallerStep(i) => if i < |c.callers| { CallerKeepsInv(c, i); }
      case _ => TaskKeepsInv(c, a);
    }
  }

  lemma {:induction false} RunKeepsInv(others: seq<Kind>, acts: seq<Action>)
    ensures Inv(Run(Dialled(others), acts))
  {
    if acts == [] {
      AllRunning(Dialled(others).tasks);
    } else {
      RunKeepsInv(others, acts[..|acts| - 1]);
      StepKeepsInv(Run(Dialled(others), acts[..|acts| - 1]), acts[|acts| - 1]);
    }
  }

  // ---- safety over every interleaving ----

  /**
   * However many callers race: BYE goes out at most once, each channel is closed at most once, the WaitGroup never
   * goes negative, and done closed implies an empty WaitGroup, implies stop closed, implies the call is inactive.
   */
  lemma LifecycleChain(others: seq<Kind>, acts: seq<Action>)
    ensures var c := Run(Dialled(others), acts);
      && c.byes <= 1 && c.stopCloses <= 1 && c.doneCloses <= 1 && c.wg >= 0
      && (c.doneCloses > 0 ==> c.wg == 0 && c.resultSet)
      && (c.wg == 0 ==> c.stopCloses > 0)
      && (c.stopCloses > 0 || c.byes > 0 ==> !c.active)
  {
    var c := Run(Dialled(others), acts);
    RunKeepsInv(others, acts);
    if !c.active {
      var w :| Winner(c, w);
      assert CallerOk(c, w);
    }
    RunningZero(c.tasks, 0);
  }

  /** No caller of Hangup, Result or WaitDone returns before the result is stored and done is closed. */
  lemma ReturnsAfterDone(others: seq<Kind>, acts: seq<Action>, i: nat)
    requires i < |Run(Dialled(others), acts).callers| && Run(Dialled(others), acts).callers[i].phase == Returned
    ensures Run(Dialled(others), acts).doneCloses == 1 && Run(Dialled(others), acts).resultSet
  {
    RunKeepsInv(others, acts);
    assert CallerOk(Run(Dialled(others), acts), i);
  }

  /** The comments promise that a BYE from the far end finishes the call. Without a local Hangup nothing ever does. */
  lemma {:induction false} OnlyHangupEndsTheCall(others: seq<Kind>, acts: seq<Action>)
    requires NewHangup !in acts
    ensures var c := Run(Dialled(others), acts);
      && c.active && c.stopCloses == 0 && c.doneCloses == 0
      && forall i :: 0 <= i < |c.callers| ==> c.callers[i].phase == Waiting
  {
    NoHangupCaller(others, acts);
    LifecycleChain(others, acts);
    RunKeepsInv(others, acts);
  }

  lemma {:induction false} NoHangupCaller(others: seq<Kind>, acts: seq<Action>)
    requires NewHangup !in acts
    ensures var c := Run(Dialled(others), acts);
      c.active && c.doneCloses == 0 && forall i :: 0 <= i < |c.callers| ==> c.callers[i].phase == Waiting
  {
    if acts != [] {
      var n := |acts| - 1;
      assert acts[n] in acts;
      NoHangupCaller(others, acts[..n]);
      LifecycleChain(others, acts[..n]);
      LifecycleChain(others, acts);
    }
  }

  lemma {:induction false} TasksStay(others: seq<Kind>, acts: seq<Action>)
    ensures var t := Run(Dialled(others), acts).tasks;
      && |t| == |others| + 1 && t[0].kind == Receiver && forall i :: 0 <= i < |others| ==> t[i + 1].kind == others[i]
  {
    if acts != [] {
      TasksStay(others, acts[..|acts| - 1]);
      StepKeepsKinds(Run(Dialled(others), acts[..|acts| - 1]), acts[|acts| - 1]);
    }
  }

  lemma StepKeepsKinds(c: Call, a: Action)
    ensures |Step(c, a).tasks| == |c.tasks|
    ensures forall i :: 0 <= i < |c.tasks| ==> Step(c, a).tasks[i].kind == c.tasks[i].kind
  {}

  /** The WaitGroup of a fresh call counts a receiver and every other goroutine that was asked for, all running. */
  lemma AllTasksStart(others: seq<Kind>)
    ensures var c := Dialled(others);
      c.wg == |others| + 1 && |c.tasks| == |others| + 1 && forall i :: 0 <= i < |c.tasks| ==> c.tasks[i].running
  {}

  /** Done is closed only once the receiver and every other goroutine have ended. */
  lemma AllTasksEnd(others: seq<Kind>, acts: seq<Action>)
    requires Run(Dialled(others), acts).doneCloses > 0
    ensures var t := Run(Dialled(others), acts).tasks; |t| == |others| + 1 && forall i :: 0 <= i < |t| ==> !t[i].running
  {
    hide Run;
    var c := Run(Dialled(others), acts);
    TasksStay(others, acts);
    RunKeepsInv(others, acts);
    LifecycleChain(others, acts);
    forall i | 0 <= i < |c.tasks| ensures !c.tasks[i].running { RunningZero(c.tasks, i); }
  }

  /** The Hangup that won has sent exactly one BYE by the time it returns; later ones send none. */
  lemma WinnerSendsBye(others: seq<Kind>, acts: seq<Action>, i: nat)
    requires Winner(Run(Dialled(others), acts), i) && Run(Dialled(others), acts).callers[i].phase == Returned
    ensures Run(Dialled(others), acts).byes == 1
  {
    hide Run;
    RunKeepsInv(others, acts);
    assert CallerOk(Run(Dialled(others), acts), i);
  }

  /** Of the running goroutines only a sender can end before the stop channel is closed. */
  lemma EndsIffAllowed(c: Call, i: nat)
    requires i < |c.tasks| && c.tasks[i].running
    ensures !Step(c, TaskEnds(i)).tasks[i].running <==> c.tasks[i].kind == StreamSender || c.stopCloses > 0
    ensures Step(c, TaskEnds(i)).wg == c.wg - if Step(c, TaskEnds(i)).tasks[i].running then 0 else 1
  {}

  /** Whoever asks for the result gets it at once when done is closed, and waits otherwise. */
  lemma WaiterReturnsIffDone(c: Call)
    ensures var i := |c.callers|; var d := Step(Step(c, NewWaiter), CallerStep(i));
      && |d.callers| == i + 1 && d.callers[i].phase == (if c.doneCloses > 0 then Returned else Waiting)
      && d.active == c.active && d.stopCloses == c.stopCloses
  {}

  // ---- progress ----

  function WinnerWork(p: Phase): nat {
    match p case Won => 2 case MustClose => 1 case _ => 0
  }

  function FinalizerWork(f: Finalizer): nat {
    match f case Blocked => 3 case Computed => 2 case Closing => 1 case Finished => 0
  }

  /** What still has to happen, once a Hangup has won, before done closes. */
  function Work(c: Call, w: nat): nat
    requires w < |c.callers|
  {
    WinnerWork(c.callers[w].phase) + Running(c.tasks) + FinalizerWork(c.finalizer)
  }

  /** The steps teardown consists of: the winner up to the close, and effective ends of tasks and of the finalizer. */
  predicate Helps(c: Call, w: nat, a: Action)
    requires w < |c.callers|
  {
    || (a == CallerStep(w) && (c.callers[w].phase.Won? || c.callers[w].phase.MustClose?))
    || ((a.TaskEnds? || a.FinalizerStep?) && Step(c, a) != c)
  }

  lemma CallerWork(c: Call, w: nat, i: nat)
    requires Inv(c) && Winner(c, w) && i < |c.callers|
    ensures var d := CallerMoves(c, i);
      && Winner(d, w) && Work(d, w) <= Work(c, w) && (Helps(c, w, CallerStep(i)) ==> Work(d, w) < Work(c, w))
  {
    hide Running;
    assert CallerOk(c, w) && CallerOk(c, i);
  }

  lemma TaskWork(c: Call, w: nat, i: nat)
    requires Inv(c) && Winner(c, w)
    ensures var d := Step(c, TaskEnds(i)); Winner(d, w) && (d != c ==> Work(d, w) < Work(c, w))
  {
    if Step(c, TaskEnds(i)) != c {
      RunningAfterEnd(c.tasks, i);
    }
  }

  /** Once a Hangup has won, no step of anyone increases the work left, and every helpful step lowers it. */
  lemma WorkFalls(c: Call, w: nat, a: Action)
    requires Inv(c) && Winner(c, w)
    ensures Winner(Step(c, a), w) && Work(Step(c, a), w) <= Work(c, w)
    ensures Helps(c, w, a) ==> Work(Step(c, a), w) < Work(c, w)
  {
    match a {
      case CallerStep(i) =>
        hide Inv, Work;
        if i < |c.callers| { CallerWork(c, w, i); }
      case TaskEnds(i) =>
        hide Inv, Work;
        TaskWork(c, w, i);
      case _ =>
        hide Running;
    }
  }

  /** Until done is closed some helpful step is possible: teardown cannot get stuck. */
  lemma TeardownProgresses(c: Call, w: nat) returns (a: Action)
    requires Inv(c) && Winner(c, w) && c.doneCloses == 0
    ensures Helps(c, w, a)
  {
    hide Running;
    assert CallerOk(c, w);
    if c.stopCloses == 0 {
      a := CallerStep(w);
    } else if Running(c.tasks) > 0 {
      var i := SomeRunning(c.tasks);
      a := TaskEnds(i);
    } else {
      a := FinalizerStep;
    }
  }

  /** The work is done exactly when done is closed, and then every waiting caller can return. */
  lemma NoWorkIffDone(c: Call, w: nat)
    requires Inv(c) && Winner(c, w)
    ensures Work(c, w) == 0 <==> c.doneCloses == 1
    ensures forall i :: 0 <= i < |c.callers| && c.callers[i].phase == Waiting && c.doneCloses == 1 ==>
      Step(c, CallerStep(i)).callers[i].phase == Returned
  {
    hide Running;
    assert CallerOk(c, w);
    if Running(c.tasks) == 0 {
      RunningZero(c.tasks, 0);
    }
  }

  /** How many helpful steps a run contains. */
  function HelpfulSteps(c: Call, w: nat, acts: seq<Action>): nat
    requires w < |c.callers|
  {
    if acts == [] then 0
    else
      var front := acts[..|acts| - 1];
      CallersStay(c, front);
      HelpfulSteps(c, w, front) + if Helps(Run(c, front), w, acts[|acts| - 1]) then 1 else 0
  }

  lemma StepKeepsCallers(c: Call, a: Action)
    ensures |Step(c, a).callers| >= |c.callers|
  {}

  lemma {:induction false} CallersStay(c: Call, acts: seq<Action>)
    ensures |Run(c, acts).callers| >= |c.callers|
  {
    hide Step;
    if acts != [] {
      CallersStay(c, acts[..|acts| - 1]);
      StepKeepsCallers(Run(c, acts[..|acts| - 1]), acts[|acts| - 1]);
    }
  }

  /**
   * Whatever anyone else does in between, once a Hangup has won at most Work(c, w) helpful steps can be taken, and
   * after exactly so many done is closed.
   */
  lemma {:induction false} HelpfulStepsBounded(c: Call, w: nat, acts: seq<Action>)
    requires Inv(c) && Winner(c, w)
    ensures var d := Run(c, acts);
      && Inv(d) && Winner(d, w) && Work(d, w) + HelpfulSteps(c, w, acts) <= Work(c, w)
      && (HelpfulSteps(c, w, acts) == Work(c, w) ==> d.doneCloses == 1)
  {
    hide Step, Inv, Work, Helps;
    if acts != [] {
      var n := |acts| - 1;
      HelpfulStepsBounded(c, w, acts[..n]);
      WorkFalls(Run(c, acts[..n]), w, acts[n]);
      StepKeepsInv(Run(c, acts[..n]), acts[n]);
    }
    NoWorkIffDone(Run(c, acts), w);
  }

  lemma {:induction false} RunAppend(c: Call, acts: seq<Action>, more: seq<Action>)
    ensures Run(c, acts + more) == Run(Run(c, acts), more)
  {
    if more == [] {
      assert acts + more == acts;
    } else {
      RunAppend(c, acts, more[..|more| - 1]);
      assert (acts + more)[..|acts + more| - 1] == acts + more[..|more| - 1];
    }
  }

  /** From any state with a winner, at most Work(c, w) actions, none of them a new Hangup, close done. */
  lemma {:induction false} TeardownCompletes(c: Call, w: nat) returns (acts: seq<Action>)
    requires Inv(c) && Winner(c, w)
    ensures |acts| <= Work(c, w) && NewHangup !in acts && Run(c, acts).doneCloses == 1
    decreases Work(c, w)
  {
    hide Step, Inv, Work;
    NoWorkIffDone(c, w);
    DoneOnce(c);
    if c.doneCloses == 1 {
      acts := [];
    } else {
      var a := TeardownProgresses(c, w);
      WorkFalls(c, w, a);
      StepKeepsInv(c, a);
      var rest := TeardownCompletes(Step(c, a), w);
      acts := [a] + rest;
      RunAppend(c, [a], rest);
      RunOne(c, a);
    }
  }

  lemma DoneOnce(c: Call)
    requires Inv(c)
    ensures c.doneCloses <= 1
  {}

  /** Caller i has won, or will with its next step. */
  ghost predicate Pending(c: Call, i: nat) {
    i < |c.callers| && (c.callers[i].won || (c.active && c.callers[i].phase == Called))
  }

  /** After any call of Hangup there is a winner, or a caller that becomes it with its next step. */
  lemma {:induction false} HangupIsPending(others: seq<Kind>, acts: seq<Action>) returns (i: nat)
    requires NewHangup in acts
    ensures Pending(Run(Dialled(others), acts), i)
  {
    var n := |acts| - 1;
    var b := Run(Dialled(others), acts[..n]);
    hide Step, Inv, Pending;
    RunKeepsInv(others, acts[..n]);
    if NewHangup in acts[..n] {
      var j := HangupIsPending(others, acts[..n]);
      i := HangupStaysPending(b, acts[n], j);
    } else {
      assert acts == acts[..n] + [acts[n]];
      i := NewHangupPends(b);
    }
  }

  lemma NewHangupPends(c: Call) returns (i: nat)
    requires Inv(c)
    ensures Pending(Step(c, NewHangup), i)
  {
    if c.active {
      i := |c.callers|;
    } else {
      var w :| Winner(c, w);
      i := w;
    }
  }

  lemma HangupStaysPending(c: Call, a: Action, j: nat) returns (i: nat)
    requires Inv(c) && Pending(c, j)
    ensures Pending(Step(c, a), i)
  {
    i := j;
    if a.CallerStep? && a.i < |c.callers| && c.active && c.callers[a.i].phase == Called {
      i := a.i;
    }
  }

  /** Whether the rest of some run, in which nobody calls Hangup any more, closes done. */
  ghost predicate CanEnd(c: Call) { exists more :: NewHangup !in more && Run(c, more).doneCloses == 1 }

  /** A call can end, without any further call of Hangup, exactly when Hangup has been called. */
  lemma EndsIffHangup(others: seq<Kind>, acts: seq<Action>)
    ensures CanEnd(Run(Dialled(others), acts)) <==> NewHangup in acts
  {
    hide Run, Inv, Step;
    var c := Run(Dialled(others), acts);
    if NewHangup in acts {
      RunKeepsInv(others, acts);
      var i := HangupIsPending(others, acts);
      var more := PendingCompletes(c, i);
      assert NewHangup !in more && Run(c, more).doneCloses == 1;
    } else {
      forall more | NewHangup !in more ensures Run(c, more).doneCloses == 0 {
        RunAppend(Dialled(others), acts, more);
        OnlyHangupEndsTheCall(others, acts + more);
      }
    }
  }

  lemma PendingCompletes(c: Call, i: nat) returns (more: seq<Action>)
    requires Inv(c) && Pending(c, i)
    ensures NewHangup !in more && Run(c, more).doneCloses == 1
  {
    hide Inv, Run;
    if c.callers[i].won {
      more := TeardownCompletes(c, i);
    } else {
      var a := CallerStep(i);
      StepKeepsInv(c, a);
      var rest := TeardownCompletes(Step(c, a), i);
      more := [a] + rest;
      RunAppend(c, [a], rest);
      RunOne(c, a);
    }
  }

  lemma RunOne(c: Call, a: Action)
    ensures Run(c, [a]) == Step(c, a)
  {
    assert [a][..0] == [];
  }
}
