/**
 * The registered answering agent (sip/registered_uas.go): concurrent INVITE and BYE handlers as interleaved atomic
 * steps. Each mutex section, channel operation and response is one step.
 */
module RegisteredUas {

  /** Where an INVITE handler stands. The deferred clean-up runs in the order Recorded, Unlisted, Gone. */
  datatype Phase =
    | Arrived     // about to check the cap
    | Admitted    // counted; codec, SDP, socket and Call-ID still to be checked
    | Listed      // stop signal stored in the map
    | Answered    // 200 OK sent, receiver running, waiting for an end
    | Ending      // woken up
    | Signalled   // stop channel certainly closed, waiting for the receiver
    | Joined      // receiver gone
    | Recorded    // result appended, or no result to append
    | Unlisted    // map entry deleted
    | Gone        // counter given back, or never taken

  /** `closes` counts how often the handler's own stop channel was closed. */
  datatype Handler = Handler(callID: string, phase: Phase, receiving: bool, closes: nat)

  datatype Target = NotLookedUp | NotFound | Found(h: nat)

  /** A BYE handler: it looks the Call-ID up under the mutex and signals what it found after releasing it. */
  datatype Bye = Bye(callID: string, target: Target, signalled: bool)

  datatype Agent = Agent(maxConcurrent: int, durationCap: bool, active: int, stopMap: map<string, nat>,
                         results: seq<nat>, shutdown: bool, handlers: seq<Handler>, byes: seq<Bye>)

  /** `ok` stands for the outcome of whatever the step asks of the outside world. */
  datatype Action =
    | Invite(callID: string) | ByeArrives(callID: string) | Shutdown
    | HandlerStep(h: nat, ok: bool) | Timeout(h: nat) | ReceiverEnds(h: nat) | ByeStep(b: nat)

  function Start(maxConcurrent: int, durationCap: bool): Agent {
    Agent(maxConcurrent, durationCap, 0, map[], [], false, [], [])
  }

  /** sync.Once around the close. */
  function Signal(x: Handler): Handler { if x.closes > 0 then x else x.(closes := 1) }

  function Put(a: Agent, h: nat, x: Handler): Agent
    requires h < |a.handlers|
  {
    a.(handlers := a.handlers[h := x])
  }

  /** Where handler x stands after its next step; x itself while it has to wait. */
  function Moved(a: Agent, x: Handler, ok: bool): Handler {
    match x.phase
    case Arrived => x.(phase := if a.maxConcurrent > 0 && a.active >= a.maxConcurrent then Gone else Admitted)
    case Admitted => x.(phase := if !ok || x.callID == "" then Unlisted else Listed)
    case Listed => if ok then x.(phase := Answered, receiving := true) else x.(phase := Recorded)
    case Answered => if x.closes > 0 || a.shutdown then x.(phase := Ending) else x
    case Ending => Signal(x).(phase := Signalled)
    case Signalled => if x.receiving then x else x.(phase := Joined)
    case Joined => x.(phase := Recorded)
    case Recorded => x.(phase := Unlisted)
    case Unlisted => x.(phase := Gone)
    case Gone => x
  }

  function HandlerMoves(a: Agent, h: nat, ok: bool): Agent
    requires h < |a.handlers|
  {
    var x, y := a.handlers[h], Moved(a, a.handlers[h], ok);
    Put(a, h, y).(
      active := if a.maxConcurrent <= 0 then a.active
                else if x.phase.Arrived? && y.phase.Admitted? then a.active + 1
                else if x.phase.Unlisted? then a.active - 1
                else a.active,
      stopMap := if x.phase.Admitted? && y.phase.Listed? then a.stopMap[x.callID := h]
                 else if x.phase.Recorded? then a.stopMap - {x.callID}
                 else a.stopMap,
      results := if x.phase.Joined? then a.results + [h] else a.results)
  }

  function ByeMoves(a: Agent, b: nat): Agent
    requires b < |a.byes|
  {
    var y := a.byes[b];
    match y.target
    case NotLookedUp =>
      var t := if y.callID in a.stopMap then Found(a.stopMap[y.callID]) else NotFound;
      a.(byes := a.byes[b := y.(target := t)])
    case NotFound => a
    case Found(h) =>
      if y.signalled || h >= |a.handlers| then a
      else Put(a, h, Signal(a.handlers[h])).(byes := a.byes[b := y.(signalled := true)])
  }

  function Step(a: Agent, act: Action): Agent {
    match act
    case Invite(id) => a.(handlers := a.handlers + [Handler(id, Arrived, false, 0)])
    case ByeArrives(id) => a.(byes := a.byes + [Bye(id, NotLookedUp, false)])
    case Shutdown => a.(shutdown := true)
    case HandlerStep(h, ok) => if h < |a.handlers| then HandlerMoves(a, h, ok) else a
    case Timeout(h) =>
      if h < |a.handlers| && a.durationCap && a.handlers[h].phase == Answered
      then Put(a, h, a.handlers[h].(phase := Ending)) else a
    case ReceiverEnds(h) =>
      if h < |a.handlers| && a.handlers[h].receiving && a.handlers[h].closes > 0
      then Put(a, h, a.handlers[h].(receiving := false)) else a
    case ByeStep(b) => if b < |a.byes| then ByeMoves(a, b) else a
  }

  function Run(a: Agent, acts: seq<Action>): Agent {
    if acts == [] then a else Step(Run(a, acts[..|acts| - 1]), acts[|acts| - 1])
  }

  // ---- what holds under every interleaving, clashing Call-IDs included ----

  /** Counted against the cap. */
  predicate Counted(x: Handler) { !x.phase.Arrived? && !x.phase.Gone? }

  /** Between storing its stop signal and deleting it. */
  predicate Live(x: Handler) {
    || x.phase.Listed? || x.phase.Answered? || x.phase.Ending?
    || x.phase.Signalled? || x.phase.Joined? || x.phase.Recorded?
  }

  /** Steps a handler still has to take, the end of its receiver included. */
  function Rank(x: Handler): nat {
    (if x.receiving then 1 else 0) +
    match x.phase
    case Arrived => 12 case Admitted => 11 case Listed => 10 case Answered => 8 case Ending => 7
    case Signalled => 6 case Joined => 4 case Recorded => 3 case Unlisted => 2 case Gone => 0
  }

  /** y is what x may have become: same call, no step back, no channel reopened or closed again. */
  predicate Later(x: Handler, y: Handler) {
    && y.callID == x.callID
    && (Rank(y) < Rank(x) || (y.phase == x.phase && y.receiving == x.receiving))
    && (y.closes == x.closes || (x.closes == 0 && y.closes == 1))
  }

  /** The handlers of c are those of a except for h, which moved on. */
  ghost predicate OnlyMoved(a: Agent, c: Agent, h: nat)
    requires h < |a.handlers|
  {
    |c.handlers| == |a.handlers| && c.handlers == a.handlers[h := c.handlers[h]] && Later(a.handlers[h], c.handlers[h])
  }

  lemma MovedLater(a: Agent, x: Handler, ok: bool)
    ensures Later(x, Moved(a, x, ok)) && Later(x, Signal(x)) && Later(x, x)
  {}

  lemma MoveShape(a: Agent, h: nat, ok: bool)
    requires h < |a.handlers|
    ensures var c := HandlerMoves(a, h, ok);
      OnlyMoved(a, c, h) && c.byes == a.byes && c.maxConcurrent == a.maxConcurrent && c.durationCap == a.durationCap
  {
    hide Moved, Later;
    MovedLater(a, a.handlers[h], ok);
  }

  lemma ByeShape(a: Agent, b: nat)
    requires b < |a.byes|
    ensures var c := ByeMoves(a, b);
      && |c.handlers| == |a.handlers|
      && (forall h :: 0 <= h < |a.handlers| ==> Later(a.handlers[h], c.handlers[h]))
      && |c.byes| == |a.byes| && c.byes == a.byes[b := c.byes[b]]
      && c.maxConcurrent == a.maxConcurrent && c.durationCap == a.durationCap && c.active == a.active
      && c.stopMap == a.stopMap && c.results == a.results
  {
    hide Later, Signal;
    assert a.byes[b := a.byes[b]] == a.byes;
    forall h | 0 <= h < |a.handlers| ensures Later(a.handlers[h], ByeMoves(a, b).handlers[h]) {
      MovedLater(a, a.handlers[h], true);
    }
  }

  /** Whatever anyone does, every handler already there only moves forward, and the settings stay. */
  lemma StepMovesForward(a: Agent, act: Action)
    ensures var c := Step(a, act); c.maxConcurrent == a.maxConcurrent && c.durationCap == a.durationCap
    ensures |Step(a, act).handlers| >= |a.handlers|
    ensures forall h :: 0 <= h < |a.handlers| ==> Later(a.handlers[h], Step(a, act).handlers[h])
  {
    match act {
      case HandlerStep(h, ok) =>
        hide HandlerMoves, Rank;
        if h < |a.handlers| { MoveShape(a, h, ok); }
      case ByeStep(b) =>
        hide ByeMoves, Rank;
        if b < |a.byes| { ByeShape(a, b); }
      case _ =>
    }
  }

  function InFlight(hs: seq<Handler>): nat {
    if hs == [] then 0 else InFlight(hs[..|hs| - 1]) + if Counted(hs[|hs| - 1]) then 1 else 0
  }

  lemma {:induction false} InFlightUpdate(hs: seq<Handler>, h: nat, x: Handler)
    requires h < |hs|
    ensures InFlight(hs[h := x]) == InFlight(hs) + (if Counted(x) then 1 else 0) - if Counted(hs[h]) then 1 else 0
  {
    var n := |hs| - 1;
    if h < n {
      InFlightUpdate(hs[..n], h, x);
      assert hs[h := x][..n] == hs[..n][h := x];
    } else {
      assert hs[h := x][..n] == hs[..n];
    }
  }

  lemma InFlightAppend(hs: seq<Handler>, x: Handler)
    ensures InFlight(hs + [x]) == InFlight(hs) + if Counted(x) then 1 else 0
  {
    assert (hs + [x])[..|hs|] == hs;
  }

  lemma {:induction false} NoneInFlight(hs: seq<Handler>)
    requires forall h :: 0 <= h < |hs| ==> !Counted(hs[h])
    ensures InFlight(hs) == 0
  {
    if hs != [] {
      NoneInFlight(hs[..|hs| - 1]);
    }
  }

  /** The cap counter is the number of handlers in flight and respects the cap; without a cap it stays at zero. */
  ghost predicate CapOk(a: Agent) {
    if a.maxConcurrent > 0 then a.active == InFlight(a.handlers) <= a.maxConcurrent else a.active == 0
  }

  lemma CapMove(a: Agent, h: nat, ok: bool)
    requires CapOk(a) && h < |a.handlers|
    ensures CapOk(HandlerMoves(a, h, ok))
  {
    hide InFlight, Rank;
    var c := HandlerMoves(a, h, ok);
    MoveShape(a, h, ok);
    InFlightUpdate(a.handlers, h, c.handlers[h]);
  }

  /** A step that leaves the counter alone and moves one handler neither into nor out of flight. */
  lemma CapFrame(a: Agent, h: nat, x: Handler)
    requires CapOk(a) && h < |a.handlers| && Counted(x) == Counted(a.handlers[h])
    ensures CapOk(Put(a, h, x))
  {
    InFlightUpdate(a.handlers, h, x);
  }

  lemma CapBye(a: Agent, b: nat)
    requires CapOk(a) && b < |a.byes|
    ensures CapOk(ByeMoves(a, b))
  {
    hide InFlight;
    var t := a.byes[b].target;
    if t.Found? && t.h < |a.handlers| {
      CapFrame(a, t.h, Signal(a.handlers[t.h]));
    }
  }

  lemma CapStep(a: Agent, act: Action)
    requires CapOk(a)
    ensures CapOk(Step(a, act))
  {
    hide InFlight, HandlerMoves, ByeMoves;
    match act {
      case Invite(id) => InFlightAppend(a.handlers, Handler(id, Arrived, false, 0));
      case HandlerStep(h, ok) => if h < |a.handlers| { CapMove(a, h, ok); }
      case Timeout(h) =>
        if h < |a.handlers| && a.handlers[h].phase == Answered {
          CapFrame(a, h, a.handlers[h].(phase := Ending));
        }
      case ReceiverEnds(h) =>
        if h < |a.handlers| {
          CapFrame(a, h, a.handlers[h].(receiving := false));
        }
      case ByeStep(b) => if b < |a.byes| { CapBye(a, b); }
      case _ =>
    }
  }

  /** A channel is closed at most once, and always before the wait for the receiver; results come last. */
  predicate Sound(x: Handler, recorded: bool) {
    && x.closes <= 1
    && (x.phase.Signalled? || x.phase.Joined? ==> x.closes == 1)
    && (x.receiving ==> x.phase.Answered? || x.phase.Ending? || x.phase.Signalled?)
    && (recorded ==> (x.phase.Recorded? || x.phase.Unlisted? || x.phase.Gone?) && x.closes == 1)
  }

  ghost predicate HandlersOk(a: Agent) { forall h :: 0 <= h < |a.handlers| ==> Sound(a.handlers[h], h in a.results) }

  /** An entry of the map belongs to a live handler with that Call-ID. */
  ghost predicate EntryOk(a: Agent, id: string)
    requires id in a.stopMap
  {
    a.stopMap[id] < |a.handlers| && Live(a.handlers[a.stopMap[id]]) && a.handlers[a.stopMap[id]].callID == id
  }

  ghost predicate EntriesOk(a: Agent) { forall id :: id in a.stopMap ==> EntryOk(a, id) }

  ghost predicate ByeOk(a: Agent, y: Bye) {
    && (y.target.Found? ==> y.target.h < |a.handlers| && a.handlers[y.target.h].callID == y.callID)
    && (y.signalled ==> y.target.Found? && a.handlers[y.target.h].closes == 1)
  }

  ghost predicate ByesOk(a: Agent) { forall b :: 0 <= b < |a.byes| ==> ByeOk(a, a.byes[b]) }

  /** At most one result per handler. */
  ghost predicate ResultsOk(a: Agent) {
    && (forall i, j :: 0 <= i < j < |a.results| ==> a.results[i] != a.results[j])
    && forall h :: h in a.results ==> h < |a.handlers|
  }

  ghost predicate Inv(a: Agent) { CapOk(a) && HandlersOk(a) && EntriesOk(a) && ByesOk(a) && ResultsOk(a) }

  lemma MovedSound(a: Agent, x: Handler, ok: bool, recorded: bool)
    requires Sound(x, recorded)
    ensures Sound(Moved(a, x, ok), recorded || x.phase.Joined?) && Sound(Signal(x), recorded)
  {}

  lemma HandlersMove(a: Agent, h: nat, ok: bool)
    requires HandlersOk(a) && h < |a.handlers|
    ensures HandlersOk(HandlerMoves(a, h, ok))
  {
    hide Sound, Moved;
    MovedSound(a, a.handlers[h], ok, h in a.results);
  }

  lemma HandlersBye(a: Agent, b: nat)
    requires HandlersOk(a) && b < |a.byes|
    ensures HandlersOk(ByeMoves(a, b))
  {
    hide Sound, Signal;
    var t := a.byes[b].target;
    if t.Found? && t.h < |a.handlers| {
      MovedSound(a, a.handlers[t.h], true, t.h in a.results);
    }
  }

  lemma HandlersStep(a: Agent, act: Action)
    requires HandlersOk(a) && ResultsOk(a)
    ensures HandlersOk(Step(a, act))
  {
    hide HandlerMoves, ByeMoves;
    match act {
      case HandlerStep(h, ok) => if h < |a.handlers| { HandlersMove(a, h, ok); }
      case ByeStep(b) => if b < |a.byes| { HandlersBye(a, b); }
      case _ =>
    }
  }

  lemma ResultsStep(a: Agent, act: Action)
    requires HandlersOk(a) && ResultsOk(a)
    ensures ResultsOk(Step(a, act))
  {
    if act.HandlerStep? && act.h < |a.handlers| {
      assert Sound(a.handlers[act.h], act.h in a.results);
    }
  }

  lemma EntriesMove(a: Agent, h: nat, ok: bool)
    requires EntriesOk(a) && h < |a.handlers|
    ensures EntriesOk(HandlerMoves(a, h, ok))
  {
    var c := HandlerMoves(a, h, ok);
    forall id | id in c.stopMap ensures EntryOk(c, id) {
      if id in a.stopMap {
        assert EntryOk(a, id);
      }
    }
  }

  /** A step that leaves the map alone and takes no handler out of the live phases. */
  lemma EntriesFrame(a: Agent, c: Agent)
    requires EntriesOk(a) && c.stopMap == a.stopMap && |a.handlers| <= |c.handlers|
    requires forall k :: 0 <= k < |a.handlers| && Live(a.handlers[k]) ==>
      Live(c.handlers[k]) && a.handlers[k].callID == c.handlers[k].callID
    ensures EntriesOk(c)
  {
    hide Live;
    forall id | id in c.stopMap ensures EntryOk(c, id) {
      assert EntryOk(a, id);
    }
  }

  lemma EntriesBye(a: Agent, b: nat)
    requires EntriesOk(a) && b < |a.byes|
    ensures EntriesOk(ByeMoves(a, b))
  {
    hide EntriesOk;
    EntriesFrame(a, ByeMoves(a, b));
  }

  lemma EntriesStep(a: Agent, act: Action)
    requires EntriesOk(a)
    ensures EntriesOk(Step(a, act))
  {
    hide EntriesOk, HandlerMoves, ByeMoves;
    match act {
      case HandlerStep(h, ok) => if h < |a.handlers| { EntriesMove(a, h, ok); }
      case ByeStep(b) => if b < |a.byes| { EntriesBye(a, b); }
      case _ => EntriesFrame(a, Step(a, act));
    }
  }

  /** What a BYE found stays found, and what it closed stays closed. */
  lemma ByeFrame(a: Agent, c: Agent, y: Bye)
    requires ByeOk(a, y) && |a.handlers| <= |c.handlers|
    requires forall h :: 0 <= h < |a.handlers| ==> Later(a.handlers[h], c.handlers[h])
    ensures ByeOk(c, y)
  {
    hide Rank;
  }

  lemma ByeMoveOk(a: Agent, b: nat)
    requires b < |a.byes| && ByeOk(a, a.byes[b]) && EntriesOk(a) && HandlersOk(a)
    ensures ByeOk(ByeMoves(a, b), ByeMoves(a, b).byes[b])
  {
    var y := a.byes[b];
    if y.target.NotLookedUp? && y.callID in a.stopMap {
      assert EntryOk(a, y.callID);
    }
    if y.target.Found? {
      assert Sound(a.handlers[y.target.h], y.target.h in a.results);
    }
  }

  lemma ByesStep(a: Agent, act: Action)
    requires ByesOk(a) && EntriesOk(a) && HandlersOk(a)
    ensures ByesOk(Step(a, act))
  {
    hide HandlerMoves, ByeMoves, ByeOk, EntriesOk, HandlersOk, Later;
    var c := Step(a, act);
    StepMovesForward(a, act);
    if act.HandlerStep? && act.h < |a.handlers| {
      MoveShape(a, act.h, act.ok);
    }
    if act.ByeStep? && act.b < |a.byes| {
      ByeShape(a, act.b);
      ByeMoveOk(a, act.b);
    }
    if act.ByeArrives? {
      NewByeOk(c, act.callID);
    }
    forall k | 0 <= k < |c.byes| ensures ByeOk(c, c.byes[k]) {
      if k < |a.byes| {
        ByeFrame(a, c, a.byes[k]);
      }
    }
  }

  lemma NewByeOk(a: Agent, id: string)
    ensures ByeOk(a, Bye(id, NotLookedUp, false))
  {}

  lemma StepKeepsInv(a: Agent, act: Action)
    requires Inv(a)
    ensures Inv(Step(a, act))
  {
    hide Step, CapOk, HandlersOk, EntriesOk, ByesOk, ResultsOk;
    CapStep(a, act);
    HandlersStep(a, act);
    EntriesStep(a, act);
    ByesStep(a, act);
    ResultsStep(a, act);
  }

  lemma {:induction false} RunKeepsInv(max: int, cap: bool, acts: seq<Action>)
    ensures var a := Run(Start(max, cap), acts); Inv(a) && a.maxConcurrent == max && a.durationCap == cap
  {
    if acts != [] {
      hide Step, Inv;
      RunKeepsInv(max, cap, acts[..|acts| - 1]);
      StepKeepsInv(Run(Start(max, cap), acts[..|acts| - 1]), acts[|acts| - 1]);
      StepMovesForward(Run(Start(max, cap), acts[..|acts| - 1]), acts[|acts| - 1]);
    }
  }

  /** In every reachable state the cap holds, no stop channel was closed twice and no call has two results. */
  lemma CapAndOnce(max: int, cap: bool, acts: seq<Action>)
    ensures var a := Run(Start(max, cap), acts);
      && (max > 0 ==> a.active == InFlight(a.handlers) && InFlight(a.handlers) <= max)
      && (max <= 0 ==> a.active == 0)
      && (forall h :: 0 <= h < |a.handlers| ==> a.handlers[h].closes <= 1)
      && forall i, j :: 0 <= i < j < |a.results| ==> a.results[i] != a.results[j]
  {
    hide Run, InFlight;
    RunKeepsInv(max, cap, acts);
  }

  /** An INVITE is turned away exactly when the cap is positive and as many calls as it allows are in flight. */
  lemma RefusedIffFull(max: int, cap: bool, acts: seq<Action>, h: nat, ok: bool)
    requires var a := Run(Start(max, cap), acts); h < |a.handlers| && a.handlers[h].phase == Arrived
    ensures var a := Run(Start(max, cap), acts); var y := Step(a, HandlerStep(h, ok)).handlers[h];
      && y.phase == (if max > 0 && InFlight(a.handlers) == max then Gone else Admitted)
      && y.closes == a.handlers[h].closes
  {
    hide Run, InFlight, HandlersOk, EntriesOk, ByesOk, ResultsOk;
    RunKeepsInv(max, cap, acts);
  }

  /** An admitted call is answered in two steps if nothing fails, and its stop signal is in the map before that. */
  lemma AdmittedGetsAnswered(a: Agent, h: nat)
    requires h < |a.handlers| && a.handlers[h].phase == Admitted && a.handlers[h].callID != ""
    ensures var b := Step(a, HandlerStep(h, true)); var c := Step(b, HandlerStep(h, true));
      && b.handlers[h].phase == Listed && RoutedTo(b, h)
      && c.handlers[h].phase == Answered && c.handlers[h].receiving && RoutedTo(c, h)
  {}

  /** An answered call stays up until its stop signal, the agent's shutdown or its own time limit. */
  lemma AnsweredStaysUp(a: Agent, act: Action, h: nat)
    requires h < |a.handlers| && a.handlers[h].phase == Answered && h < |Step(a, act).handlers|
    requires Step(a, act).handlers[h].phase != Answered
    ensures a.handlers[h].closes > 0 || a.shutdown || (act == Timeout(h) && a.durationCap)
  {}

  /** Its receiver runs on until the stop signal. */
  lemma ReceiverNeedsSignal(a: Agent, act: Action, h: nat)
    requires h < |a.handlers| && a.handlers[h].receiving && h < |Step(a, act).handlers|
    requires !Step(a, act).handlers[h].receiving
    ensures a.handlers[h].closes > 0 && act == ReceiverEnds(h)
  {}

  // ---- one result for every answered call ----

  /** The call was answered at some moment of the run. */
  ghost predicate EverAnswered(a: Agent, acts: seq<Action>, h: nat) {
    exists n :: 0 <= n <= |acts| && AnsweredIn(Run(a, acts[..n]), h)
  }

  predicate AnsweredIn(a: Agent, h: nat) { h < |a.handlers| && a.handlers[h].phase == Answered }

  lemma EverAnsweredLast(a: Agent, acts: seq<Action>, h: nat)
    requires acts != []
    ensures EverAnswered(a, acts, h) <==> EverAnswered(a, acts[..|acts| - 1], h) || AnsweredIn(Run(a, acts), h)
  {
    hide Run, AnsweredIn;
    var n := |acts| - 1;
    assert acts[..|acts|] == acts;
    forall m | 0 <= m <= n ensures acts[..n][..m] == acts[..m] {}
    if EverAnswered(a, acts[..n], h) {
      var m :| 0 <= m <= n && AnsweredIn(Run(a, acts[..n][..m]), h);
      assert AnsweredIn(Run(a, acts[..m]), h);
    }
    if EverAnswered(a, acts, h) {
      var m :| 0 <= m <= |acts| && AnsweredIn(Run(a, acts[..m]), h);
      if m <= n {
        assert AnsweredIn(Run(a, acts[..n][..m]), h);
      }
    }
  }

  /** Between its answer and its result a call is in one of four phases; before it has neither, after it both. */
  predicate ResultDue(x: Handler, recorded: bool, answered: bool) {
    match x.phase
    case Arrived | Admitted | Listed => !answered && !recorded
    case Answered | Ending | Signalled | Joined => answered && !recorded
    case Recorded | Unlisted | Gone => answered == recorded
  }

  lemma ResultDueMoved(a: Agent, x: Handler, ok: bool, recorded: bool, answered: bool)
    requires ResultDue(x, recorded, answered)
    ensures var y := Moved(a, x, ok);
      ResultDue(y, recorded || x.phase.Joined?, answered || y.phase.Answered?)
    ensures ResultDue(Signal(x), recorded, answered || Signal(x).phase.Answered?)
  {}

  lemma ResultDueStep(a: Agent, act: Action, h: nat, answered: bool)
    requires ResultsOk(a) && (h < |a.handlers| ==> ResultDue(a.handlers[h], h in a.results, answered))
    requires h >= |a.handlers| ==> !answered
    ensures var c := Step(a, act); var now := answered || AnsweredIn(c, h);
      if h < |c.handlers| then ResultDue(c.handlers[h], h in c.results, now) else !now
  {
    hide Moved, Signal;
    match act {
      case HandlerStep(k, ok) =>
        if k < |a.handlers| && h < |a.handlers| {
          ResultDueMoved(a, a.handlers[h], ok, h in a.results, answered);
        }
      case ByeStep(b) =>
        if h < |a.handlers| {
          ResultDueMoved(a, a.handlers[h], true, h in a.results, answered);
        }
      case _ =>
    }
  }

  lemma {:induction false} ResultDueRun(max: int, cap: bool, acts: seq<Action>, h: nat)
    ensures var (a, answered) := (Run(Start(max, cap), acts), EverAnswered(Start(max, cap), acts, h));
      if h < |a.handlers| then ResultDue(a.handlers[h], h in a.results, answered) else !answered
  {
    hide Step, ResultDue, CapOk, HandlersOk, EntriesOk, ByesOk, ResultsOk;
    if acts == [] {
      assert acts[..0] == [];
    } else {
      hide EverAnswered, AnsweredIn;
      var n := |acts| - 1;
      ResultDueRun(max, cap, acts[..n], h);
      RunKeepsInv(max, cap, acts[..n]);
      EverAnsweredLast(Start(max, cap), acts, h);
      ResultDueStep(Run(Start(max, cap), acts[..n]), acts[n], h, EverAnswered(Start(max, cap), acts[..n], h));
    }
  }

  /** A call that has ended has a result if and only if it was ever answered; no call has one before it has ended. */
  lemma ResultIffAnswered(max: int, cap: bool, acts: seq<Action>, h: nat)
    requires h < |Run(Start(max, cap), acts).handlers|
    ensures var a := Run(Start(max, cap), acts);
      var ended := a.handlers[h].phase.Recorded? || a.handlers[h].phase.Unlisted? || a.handlers[h].phase.Gone?;
      h in a.results <==> ended && EverAnswered(Start(max, cap), acts, h)
  {
    hide Run, EverAnswered;
    ResultDueRun(max, cap, acts, h);
  }

  ghost predicate AllGone(a: Agent) { forall h :: 0 <= h < |a.handlers| ==> a.handlers[h].phase == Gone }

  lemma EntryMeansLive(a: Agent, id: string)
    requires Inv(a) && id in a.stopMap
    ensures !AllGone(a)
  {
    assert EntryOk(a, id);
  }

  lemma MapEmptyOnceGone(a: Agent)
    requires Inv(a) && AllGone(a)
    ensures a.stopMap == map[]
  {
    hide *;
    if id :| id in a.stopMap {
      EntryMeansLive(a, id);
    }
  }

  /** When every handler is gone, whichever way it left, the counter is back at zero and the map is empty. */
  lemma CleanExit(max: int, cap: bool, acts: seq<Action>)
    requires AllGone(Run(Start(max, cap), acts))
    ensures var a := Run(Start(max, cap), acts); a.active == 0 && a.stopMap == map[]
  {
    hide Run, InFlight, HandlersOk, EntriesOk, ByesOk, ResultsOk;
    var a := Run(Start(max, cap), acts);
    RunKeepsInv(max, cap, acts);
    NoneInFlight(a.handlers);
    MapEmptyOnceGone(a);
  }

  /** A BYE that signalled has closed the stop channel of a call with its own Call-ID, and no other. */
  lemma SignalledIsOwnCall(max: int, cap: bool, acts: seq<Action>, b: nat)
    requires var a := Run(Start(max, cap), acts); b < |a.byes| && a.byes[b].signalled
    ensures var a := Run(Start(max, cap), acts); var t := a.byes[b].target;
      t.Found? && t.h < |a.handlers| && a.handlers[t.h].callID == a.byes[b].callID && a.handlers[t.h].closes == 1
  {
    hide Run, CapOk, HandlersOk, EntriesOk, ResultsOk;
    RunKeepsInv(max, cap, acts);
    assert ByeOk(Run(Start(max, cap), acts), Run(Start(max, cap), acts).byes[b]);
  }

  // ---- routing of BYE ----

  /** The map leads from a live handler's Call-ID to that handler. */
  ghost predicate RoutedTo(a: Agent, h: nat)
    requires h < |a.handlers|
  {
    a.handlers[h].callID in a.stopMap && a.stopMap[a.handlers[h].callID] == h
  }

  ghost predicate AllRouted(a: Agent) { forall h :: 0 <= h < |a.handlers| && Live(a.handlers[h]) ==> RoutedTo(a, h) }

  ghost predicate DistinctLive(a: Agent) {
    forall h, k :: 0 <= h < k < |a.handlers| && Live(a.handlers[h]) && Live(a.handlers[k]) ==>
      a.handlers[h].callID != a.handlers[k].callID
  }

  /** Routing survives any step that leaves the map alone and makes no handler live. */
  lemma RoutedFrame(a: Agent, c: Agent)
    requires AllRouted(a) && c.stopMap == a.stopMap
    requires forall k :: 0 <= k < |c.handlers| && Live(c.handlers[k]) ==>
      k < |a.handlers| && Live(a.handlers[k]) && a.handlers[k].callID == c.handlers[k].callID
    ensures AllRouted(c)
  {
    hide Live;
    forall k | 0 <= k < |c.handlers| && Live(c.handlers[k]) ensures RoutedTo(c, k) {
      assert RoutedTo(a, k);
    }
  }

  lemma RoutedListing(a: Agent, h: nat, x: Handler)
    requires AllRouted(a) && h < |a.handlers| && Live(x) && x.callID == a.handlers[h].callID
    requires DistinctLive(Put(a, h, x))
    ensures AllRouted(Put(a, h, x).(stopMap := a.stopMap[x.callID := h]))
  {
    hide Live;
    var p := Put(a, h, x);
    var c := p.(stopMap := a.stopMap[x.callID := h]);
    forall k | 0 <= k < |c.handlers| && Live(c.handlers[k]) ensures RoutedTo(c, k) {
      if k != h {
        assert RoutedTo(a, k);
        var i, j := if k < h then k else h, if k < h then h else k;
        assert Live(p.handlers[i]) && Live(p.handlers[j]);
      }
    }
  }

  lemma RoutedDeletion(a: Agent, h: nat, x: Handler)
    requires AllRouted(a) && h < |a.handlers| && Live(a.handlers[h]) && !Live(x)
    ensures AllRouted(Put(a, h, x).(stopMap := a.stopMap - {a.handlers[h].callID}))
  {
    hide Live;
    var c := Put(a, h, x).(stopMap := a.stopMap - {a.handlers[h].callID});
    assert RoutedTo(a, h);
    forall k | 0 <= k < |c.handlers| && Live(c.handlers[k]) ensures RoutedTo(c, k) {
      assert RoutedTo(a, k);
    }
  }

  lemma RoutedMove(a: Agent, h: nat, ok: bool)
    requires AllRouted(a) && h < |a.handlers| && DistinctLive(HandlerMoves(a, h, ok))
    ensures AllRouted(HandlerMoves(a, h, ok))
  {
    hide AllRouted, Rank;
    var x := a.handlers[h];
    if x.phase.Admitted? && ok && x.callID != "" {
      hide DistinctLive;
      assert HandlerMoves(a, h, ok) == Put(a, h, x.(phase := Listed)).(stopMap := a.stopMap[x.callID := h]);
      DistinctIgnoresMap(Put(a, h, x.(phase := Listed)), HandlerMoves(a, h, ok));
      RoutedListing(a, h, x.(phase := Listed));
    } else if x.phase.Recorded? {
      RoutedDeletion(a, h, x.(phase := Unlisted));
    } else {
      hide DistinctLive;
      MoveShape(a, h, ok);
      RoutedFrame(a, HandlerMoves(a, h, ok));
    }
  }

  lemma DistinctIgnoresMap(a: Agent, c: Agent)
    requires a.handlers == c.handlers && DistinctLive(c)
    ensures DistinctLive(a)
  {}

  lemma RoutedBye(a: Agent, b: nat)
    requires AllRouted(a) && b < |a.byes|
    ensures AllRouted(ByeMoves(a, b))
  {
    hide AllRouted;
    RoutedFrame(a, ByeMoves(a, b));
  }

  lemma RoutedStep(a: Agent, act: Action)
    requires AllRouted(a) && DistinctLive(Step(a, act))
    ensures AllRouted(Step(a, act))
  {
    hide AllRouted, DistinctLive, HandlerMoves, ByeMoves;
    match act {
      case HandlerStep(h, ok) => if h < |a.handlers| { RoutedMove(a, h, ok); }
      case ByeStep(b) => if b < |a.byes| { RoutedBye(a, b); }
      case _ => RoutedFrame(a, Step(a, act));
    }
  }

  lemma RoutedMeansDistinct(a: Agent)
    requires AllRouted(a)
    ensures DistinctLive(a)
  {
    hide Live;
    forall h, k | 0 <= h < k < |a.handlers| && Live(a.handlers[h]) && Live(a.handlers[k])
      ensures a.handlers[h].callID != a.handlers[k].callID
    {
      assert RoutedTo(a, h) && RoutedTo(a, k);
    }
  }

  /** At every moment of the run the live calls have pairwise different Call-IDs. */
  ghost predicate NeverShared(a: Agent, acts: seq<Action>) {
    forall n :: 0 <= n <= |acts| ==> DistinctLive(Run(a, acts[..n]))
  }

  ghost predicate AlwaysRouted(a: Agent, acts: seq<Action>) {
    forall n :: 0 <= n <= |acts| ==> AllRouted(Run(a, acts[..n]))
  }

  lemma {:induction false} DistinctMeansRouted(max: int, cap: bool, acts: seq<Action>, n: nat)
    requires NeverShared(Start(max, cap), acts) && n <= |acts|
    ensures AllRouted(Run(Start(max, cap), acts[..n]))
  {
    if n > 0 {
      hide Step, DistinctLive, AllRouted;
      DistinctMeansRouted(max, cap, acts, n - 1);
      assert acts[..n][..n - 1] == acts[..n - 1];
      assert DistinctLive(Run(Start(max, cap), acts[..n]));
      RoutedStep(Run(Start(max, cap), acts[..n - 1]), acts[n - 1]);
    }
  }

  /** Every live call is reachable through the map throughout a run exactly when live calls never share a Call-ID. */
  lemma RoutedIffDistinct(max: int, cap: bool, acts: seq<Action>)
    ensures NeverShared(Start(max, cap), acts) <==> AlwaysRouted(Start(max, cap), acts)
  {
    hide Run, DistinctLive, AllRouted;
    if NeverShared(Start(max, cap), acts) {
      forall n | 0 <= n <= |acts| ensures AllRouted(Run(Start(max, cap), acts[..n])) {
        DistinctMeansRouted(max, cap, acts, n);
      }
    }
    if AlwaysRouted(Start(max, cap), acts) {
      forall n | 0 <= n <= |acts| ensures DistinctLive(Run(Start(max, cap), acts[..n])) {
        RoutedMeansDistinct(Run(Start(max, cap), acts[..n]));
      }
    }
  }

  /** Live calls never sharing a Call-ID, the map's keys are exactly the Call-IDs of the live calls. */
  lemma KeysAreLiveCalls(max: int, cap: bool, acts: seq<Action>, id: string)
    requires NeverShared(Start(max, cap), acts)
    ensures var a := Run(Start(max, cap), acts);
      id in a.stopMap <==> exists h :: 0 <= h < |a.handlers| && Live(a.handlers[h]) && a.handlers[h].callID == id
  {
    hide Run, Live, NeverShared, CapOk, HandlersOk, ByesOk, ResultsOk;
    var a := Run(Start(max, cap), acts);
    RunKeepsInv(max, cap, acts);
    assert acts[..|acts|] == acts;
    DistinctMeansRouted(max, cap, acts, |acts|);
    if id in a.stopMap {
      assert EntryOk(a, id);
    }
    if h :| 0 <= h < |a.handlers| && Live(a.handlers[h]) && a.handlers[h].callID == id {
      assert RoutedTo(a, h);
    }
  }

  /** A lookup finds a call exactly when the map leads to it. */
  lemma LookupFindsIffRouted(a: Agent, h: nat, b: nat)
    requires h < |a.handlers| && b < |a.byes|
    requires a.byes[b].target == NotLookedUp && a.byes[b].callID == a.handlers[h].callID
    ensures Step(a, ByeStep(b)).byes[b].target == Found(h) <==> RoutedTo(a, h)
  {
    hide Signal;
  }

  /** A BYE that finds its call, left to itself, closes the stop channel in two steps; any other does nothing. */
  lemma ByeServed(a: Agent, id: string)
    ensures var (b, a1) := (|a.byes|, Step(a, ByeArrives(id)));
      var a3 := Step(Step(a1, ByeStep(b)), ByeStep(b));
      && |a1.byes| == |a.byes| + 1
      && (id !in a.stopMap ==> a3.handlers == a.handlers && a3.byes[|a.byes|].target == NotFound)
      && (id in a.stopMap && a.stopMap[id] < |a.handlers| ==>
          |a3.handlers| == |a.handlers| && a3.handlers[a.stopMap[id]].closes > 0 && Finished(a3.byes[|a.byes|]))
  {}

  /** No other live call has the Call-ID of call h. */
  ghost predicate Unshared(a: Agent, h: nat)
    requires h < |a.handlers|
  {
    forall k :: 0 <= k < |a.handlers| && k != h && Live(a.handlers[k]) ==> a.handlers[k].callID != a.handlers[h].callID
  }

  /** While call h is live the map leads to it, and no other live call has its Call-ID. */
  ghost predicate Findable(a: Agent, h: nat) {
    h < |a.handlers| && (Live(a.handlers[h]) ==> RoutedTo(a, h) && Unshared(a, h))
  }

  lemma DistinctMeansFindable(a: Agent, h: nat)
    requires h < |a.handlers| && DistinctLive(a) && AllRouted(a)
    ensures Findable(a, h)
  {
    hide Live;
    forall k | 0 <= k < |a.handlers| && k != h && Live(a.handlers[k]) && Live(a.handlers[h])
      ensures a.handlers[k].callID != a.handlers[h].callID
    {
      var i, j := if k < h then k else h, if k < h then h else k;
      assert Live(a.handlers[i]) && Live(a.handlers[j]);
    }
  }

  /** An entry survives the steps of handlers with other Call-IDs. */
  lemma FindableMove(a: Agent, k: nat, ok: bool, h: nat)
    requires Findable(a, h) && k < |a.handlers|
    requires Live(HandlerMoves(a, k, ok).handlers[h]) ==> Unshared(HandlerMoves(a, k, ok), h)
    ensures Findable(HandlerMoves(a, k, ok), h)
  {
    hide Rank;
    var c := HandlerMoves(a, k, ok);
    MoveShape(a, k, ok);
    if Live(c.handlers[h]) && k != h && Live(a.handlers[k]) {
      assert a.handlers[k].callID != a.handlers[h].callID;
    }
    if Live(c.handlers[h]) && k != h && Live(c.handlers[k]) {
      assert c.handlers[k].callID != c.handlers[h].callID;
    }
  }

  lemma FindableStep(a: Agent, act: Action, h: nat)
    requires Findable(a, h)
    requires Live(Step(a, act).handlers[h]) ==> Unshared(Step(a, act), h)
    ensures Findable(Step(a, act), h)
  {
    match act {
      case HandlerStep(k, ok) =>
        hide HandlerMoves, Findable, Unshared;
        if k < |a.handlers| { FindableMove(a, k, ok, h); }
      case _ =>
        hide HandlerMoves, Unshared;
    }
  }

  /** The BYE handler has run to its end. */
  predicate Finished(y: Bye) { y.target.NotFound? || y.signalled }

  /** The 200 OK could not be sent, and the call left without ever being answered. */
  predicate NeverAnswered(x: Handler) { x.closes == 0 && (x.phase.Recorded? || x.phase.Unlisted? || x.phase.Gone?) }

  /** Before the call is told to stop it can be found through the map; before the 200 OK is out it may still fail. */
  predicate Awaiting(x: Handler, mayFail: bool) { x.phase.Answered? || x.phase.Ending? || (mayFail && x.phase.Listed?) }

  /** The call was told to stop, or it is still waiting for that with the BYE on its way, or it never came up. */
  ghost predicate OnItsWay(a: Agent, h: nat, b: nat, mayFail: bool) {
    && h < |a.handlers| && b < |a.byes| && a.byes[b].callID == a.handlers[h].callID
    && (a.handlers[h].closes == 1 || (mayFail && NeverAnswered(a.handlers[h])) ||
        (Awaiting(a.handlers[h], mayFail) && !a.byes[b].signalled &&
         (a.byes[b].target.NotLookedUp? || a.byes[b].target == Found(h))))
  }

  lemma OnItsWayMove(a: Agent, k: nat, ok: bool, h: nat, b: nat, mayFail: bool)
    requires k < |a.handlers| && HandlersOk(a) && OnItsWay(a, h, b, mayFail)
    ensures OnItsWay(HandlerMoves(a, k, ok), h, b, mayFail)
  {
    hide Rank;
    MoveShape(a, k, ok);
    assert Sound(a.handlers[h], h in a.results);
  }

  lemma OnItsWayBye(a: Agent, d: nat, h: nat, b: nat, mayFail: bool)
    requires d < |a.byes| && HandlersOk(a) && Findable(a, h) && OnItsWay(a, h, b, mayFail)
    ensures OnItsWay(ByeMoves(a, d), h, b, mayFail)
  {
    assert Sound(a.handlers[h], h in a.results);
  }

  lemma OnItsWayStep(a: Agent, act: Action, h: nat, b: nat, mayFail: bool)
    requires HandlersOk(a) && Findable(a, h) && OnItsWay(a, h, b, mayFail)
    ensures OnItsWay(Step(a, act), h, b, mayFail)
  {
    match act {
      case HandlerStep(k, ok) =>
        hide HandlerMoves, HandlersOk, Findable, OnItsWay;
        if k < |a.handlers| { OnItsWayMove(a, k, ok, h, b, mayFail); }
      case ByeStep(d) =>
        hide ByeMoves, HandlersOk, Findable, OnItsWay;
        if d < |a.byes| { OnItsWayBye(a, d, h, b, mayFail); }
      case _ =>
        hide HandlersOk, Findable;
    }
  }

  /** From step m on, no other live call has the Call-ID of call h while h is live. */
  ghost predicate UnsharedFrom(a: Agent, acts: seq<Action>, m: nat, h: nat) {
    forall n :: m <= n <= |acts| ==> UnsharedWhileLive(Run(a, acts[..n]), h)
  }

  ghost predicate UnsharedWhileLive(a: Agent, h: nat) {
    h < |a.handlers| && Live(a.handlers[h]) ==> Unshared(a, h)
  }

  lemma {:induction false} OnItsWayRun(max: int, cap: bool, acts: seq<Action>, m: nat, n: nat, h: nat, b: nat,
                                       mayFail: bool)
    requires m <= n <= |acts| && UnsharedFrom(Start(max, cap), acts, m, h)
    requires var a := Run(Start(max, cap), acts[..m]); Findable(a, h) && OnItsWay(a, h, b, mayFail)
    ensures var a := Run(Start(max, cap), acts[..n]); Findable(a, h) && OnItsWay(a, h, b, mayFail)
    decreases n
  {
    hide Step, OnItsWay, Unshared, RoutedTo, HandlersOk, CapOk, EntriesOk, ByesOk, ResultsOk;
    if m < n {
      var a := Run(Start(max, cap), acts[..n - 1]);
      OnItsWayRun(max, cap, acts, m, n - 1, h, b, mayFail);
      assert acts[..n][..n - 1] == acts[..n - 1];
      assert UnsharedWhileLive(Run(Start(max, cap), acts[..n]), h);
      RunKeepsInv(max, cap, acts[..n - 1]);
      StepMovesForward(a, acts[n - 1]);
      FindableStep(a, acts[n - 1], h);
      OnItsWayStep(a, acts[n - 1], h, b, mayFail);
    }
  }

  /** At step m a BYE for call h is about to be handled, the 200 OK of that call being on its way out or sent. */
  ghost predicate ByeMeetsCall(a: Agent, h: nat, b: nat) {
    && h < |a.handlers| && (a.handlers[h].phase.Listed? || a.handlers[h].phase.Answered?)
    && b < |a.byes| && a.byes[b].target == NotLookedUp && a.byes[b].callID == a.handlers[h].callID
  }

  /**
   * A BYE that arrives once a call's 200 OK may be on the wire is never missed, provided the map leads to that call and
   * from then on no other live call has its Call-ID: by the time the BYE's handler has finished, however the steps were
   * interleaved, the call's stop channel is closed, unless sending the 200 OK failed after all.
   */
  lemma ByeNeverMissed(max: int, cap: bool, acts: seq<Action>, m: nat, h: nat, b: nat)
    requires m <= |acts| && ByeMeetsCall(Run(Start(max, cap), acts[..m]), h, b)
    requires RoutedTo(Run(Start(max, cap), acts[..m]), h) && UnsharedFrom(Start(max, cap), acts, m, h)
    requires var c := Run(Start(max, cap), acts); b < |c.byes| && Finished(c.byes[b])
    ensures var (a, c) := (Run(Start(max, cap), acts[..m]), Run(Start(max, cap), acts));
      && h < |c.handlers|
      && (c.handlers[h].closes == 1 || (a.handlers[h].phase.Listed? && NeverAnswered(c.handlers[h])))
  {
    hide Run, RoutedTo, Unshared, CapOk, HandlersOk, EntriesOk, ResultsOk;
    var a := Run(Start(max, cap), acts[..m]);
    RunKeepsInv(max, cap, acts[..m]);
    assert ByeOk(a, a.byes[b]);
    assert acts[..|acts|] == acts;
    assert UnsharedWhileLive(a, h);
    OnItsWayRun(max, cap, acts, m, |acts|, h, b, a.handlers[h].phase.Listed?);
  }

  /** In particular no BYE is ever missed in a run whose live calls have pairwise different Call-IDs. */
  lemma ByeNeverMissedIfDistinct(max: int, cap: bool, acts: seq<Action>, m: nat, h: nat, b: nat)
    requires m <= |acts| && ByeMeetsCall(Run(Start(max, cap), acts[..m]), h, b) && NeverShared(Start(max, cap), acts)
    requires var c := Run(Start(max, cap), acts); b < |c.byes| && Finished(c.byes[b])
    ensures var (a, c) := (Run(Start(max, cap), acts[..m]), Run(Start(max, cap), acts));
      && h < |c.handlers|
      && (c.handlers[h].closes == 1 || (a.handlers[h].phase.Listed? && NeverAnswered(c.handlers[h])))
  {
    hide Run, RoutedTo, Unshared, DistinctLive, AllRouted;
    forall n | m <= n <= |acts| ensures UnsharedWhileLive(Run(Start(max, cap), acts[..n]), h) {
      DistinctMeansRouted(max, cap, acts, n);
      if h < |Run(Start(max, cap), acts[..n]).handlers| {
        DistinctMeansFindable(Run(Start(max, cap), acts[..n]), h);
      }
    }
    DistinctMeansRouted(max, cap, acts, m);
    DistinctMeansFindable(Run(Start(max, cap), acts[..m]), h);
    ByeNeverMissed(max, cap, acts, m, h, b);
  }

  // ---- what a shared Call-ID does ----

  /** The run in which a second INVITE reuses the Call-ID of an answered call and then fails to be answered itself. */
  function Clash(id: string): seq<Action> {
    AnsweredFirst(id) +
    [Invite(id), HandlerStep(1, true), HandlerStep(1, true), HandlerStep(1, false), HandlerStep(1, true)]
  }

  function AnsweredFirst(id: string): seq<Action> {
    [Invite(id), HandlerStep(0, true), HandlerStep(0, true), HandlerStep(0, true)]
  }

  lemma RunOne(a: Agent, acts: seq<Action>, act: Action)
    ensures Run(a, acts + [act]) == Step(Run(a, acts), act)
  {
    assert (acts + [act])[..|acts|] == acts;
  }

  lemma FirstIsAnswered(id: string)
    requires id != ""
    ensures Run(Start(0, false), AnsweredFirst(id)) ==
      Agent(0, false, 0, map[id := 0], [], false, [Handler(id, Answered, true, 0)], [])
  {
    hide Run;
    var s := Start(0, false);
    var c := [Invite(id)];
    EmptyRun(s);
    RunOne(s, [], Invite(id));
    assert [] + c == c;
    RunOne(s, c, HandlerStep(0, true));
    RunOne(s, c + [HandlerStep(0, true)], HandlerStep(0, true));
    RunOne(s, c + [HandlerStep(0, true)] + [HandlerStep(0, true)], HandlerStep(0, true));
    assert AnsweredFirst(id) == c + [HandlerStep(0, true)] + [HandlerStep(0, true)] + [HandlerStep(0, true)];
    var a1 := Run(s, c);
    assert a1.handlers == [Handler(id, Arrived, false, 0)];
    var a2 := Step(a1, HandlerStep(0, true));
    assert a2.handlers == [Handler(id, Admitted, false, 0)];
    var a3 := Step(a2, HandlerStep(0, true));
    assert a3.handlers == [Handler(id, Listed, false, 0)] && a3.stopMap == map[id := 0];
    var a4 := Step(a3, HandlerStep(0, true));
    assert a4.handlers == [Handler(id, Answered, true, 0)];
  }

  lemma EmptyRun(a: Agent)
    ensures Run(a, []) == a
  {}

  /**
   * The later call takes over the map entry and deletes it on its way out: a BYE then finds nothing although the
   * first call is still up.
   */
  lemma ClashLosesBye(id: string)
    requires id != ""
    ensures var a := Run(Start(0, false), Clash(id));
      |a.handlers| == 2 && a.handlers[0] == Handler(id, Answered, true, 0) && id !in a.stopMap
  {
    hide Run;
    var s, c := Start(0, false), AnsweredFirst(id);
    FirstIsAnswered(id);
    var x := Handler(id, Answered, true, 0);
    var c1 := c + [Invite(id)];
    RunOne(s, c, Invite(id));
    assert Run(s, c1).handlers == [x, Handler(id, Arrived, false, 0)];
    var c2 := c1 + [HandlerStep(1, true)];
    RunOne(s, c1, HandlerStep(1, true));
    assert Run(s, c2).handlers == [x, Handler(id, Admitted, false, 0)];
    var c3 := c2 + [HandlerStep(1, true)];
    RunOne(s, c2, HandlerStep(1, true));
    assert Run(s, c3).handlers == [x, Handler(id, Listed, false, 0)];
    var c4 := c3 + [HandlerStep(1, false)];
    RunOne(s, c3, HandlerStep(1, false));
    assert Run(s, c4).handlers == [x, Handler(id, Recorded, false, 0)];
    RunOne(s, c4, HandlerStep(1, true));
    assert Clash(id) == c4 + [HandlerStep(1, true)];
  }

  // ---- progress ----

  /** Nothing outside can hold the handler up for ever: it has been told to stop, or the agent is shutting down. */
  predicate Dismissed(a: Agent, h: nat) { a.shutdown || (h < |a.handlers| && a.handlers[h].closes > 0) }

  /** A step that takes handler h to another phase or ends its receiver. */
  ghost predicate Advances(a: Agent, h: nat, act: Action)
    requires h < |a.handlers|
  {
    StepMovesForward(a, act);
    var (x, y) := (a.handlers[h], Step(a, act).handlers[h]);
    y.phase != x.phase || y.receiving != x.receiving
  }

  /** Whatever the outcome it has, every step that advances a handler brings it nearer its end. */
  lemma AdvanceLowersRank(a: Agent, h: nat, act: Action)
    requires h < |a.handlers|
    ensures h < |Step(a, act).handlers| && Rank(Step(a, act).handlers[h]) <= Rank(a.handlers[h])
    ensures Advances(a, h, act) ==> Rank(Step(a, act).handlers[h]) < Rank(a.handlers[h])
  {
    hide Step;
    StepMovesForward(a, act);
    assert Later(a.handlers[h], Step(a, act).handlers[h]);
  }

  /** How many steps of a run advance handler h. */
  ghost function AdvancesIn(a: Agent, h: nat, acts: seq<Action>): nat
    requires h < |a.handlers|
  {
    if acts == [] then 0
    else
      var front := acts[..|acts| - 1];
      HandlersStay(a, front);
      AdvancesIn(a, h, front) + if Advances(Run(a, front), h, acts[|acts| - 1]) then 1 else 0
  }

  lemma {:induction false} HandlersStay(a: Agent, acts: seq<Action>)
    ensures |Run(a, acts).handlers| >= |a.handlers|
  {
    hide Step, Later;
    if acts != [] {
      HandlersStay(a, acts[..|acts| - 1]);
      StepMovesForward(Run(a, acts[..|acts| - 1]), acts[|acts| - 1]);
    }
  }

  lemma GoneIffNoRank(a: Agent, h: nat)
    requires Inv(a) && h < |a.handlers|
    ensures Rank(a.handlers[h]) == 0 <==> a.handlers[h].phase == Gone
  {
    hide CapOk, EntriesOk, ByesOk, ResultsOk;
    assert Sound(a.handlers[h], h in a.results);
  }

  /**
   * In any run, whatever the outcomes and whoever else moves, a handler advances at most as often as its rank says,
   * twelve times from its arrival, and once it has done so that often it is gone.
   */
  lemma {:induction false} AdvancesBounded(a: Agent, h: nat, acts: seq<Action>)
    requires Inv(a) && h < |a.handlers|
    ensures var c := Run(a, acts);
      && Inv(c) && h < |c.handlers| && Rank(c.handlers[h]) + AdvancesIn(a, h, acts) <= Rank(a.handlers[h])
      && (AdvancesIn(a, h, acts) == Rank(a.handlers[h]) ==> c.handlers[h].phase == Gone)
  {
    hide Step, Inv, Rank, Advances;
    if acts != [] {
      var n := |acts| - 1;
      AdvancesBounded(a, h, acts[..n]);
      AdvanceLowersRank(Run(a, acts[..n]), h, acts[n]);
      StepKeepsInv(Run(a, acts[..n]), acts[n]);
    }
    GoneIffNoRank(Run(a, acts), h);
  }

  /** A handler waits only for a signal, or for its receiver to end. */
  lemma MovedAdvances(a: Agent, x: Handler, ok: bool)
    requires x.phase != Gone && !(x.phase.Signalled? && x.receiving) && (a.shutdown || x.closes > 0)
    ensures Moved(a, x, ok).phase != x.phase && Moved(a, x, ok).closes >= x.closes
  {}

  /** A dismissed handler can always advance until it is gone, whichever outcome its step has, and stays dismissed. */
  lemma HandlerProgresses(a: Agent, h: nat, ok: bool) returns (act: Action)
    requires Inv(a) && h < |a.handlers| && a.handlers[h].phase != Gone && Dismissed(a, h)
    ensures act == HandlerStep(h, ok) || act == ReceiverEnds(h)
    ensures Advances(a, h, act) && Dismissed(Step(a, act), h)
  {
    hide CapOk, EntriesOk, ByesOk, ResultsOk, Rank, Moved, Later;
    assert Sound(a.handlers[h], h in a.results);
    if a.handlers[h].phase == Signalled && a.handlers[h].receiving {
      act := ReceiverEnds(h);
    } else {
      act := HandlerStep(h, ok);
      MovedAdvances(a, a.handlers[h], ok);
    }
  }

  /** Whatever outcomes are in store for its steps, a dismissed handler is gone after at most Rank many of them. */
  lemma HandlerLeaves(a: Agent, h: nat, outcome: nat -> bool) returns (acts: seq<Action>)
    requires Inv(a) && h < |a.handlers| && Dismissed(a, h)
    ensures |acts| <= Rank(a.handlers[h])
    ensures forall i :: 0 <= i < |acts| ==> acts[i] == HandlerStep(h, outcome(i)) || acts[i] == ReceiverEnds(h)
    ensures Inv(Run(a, acts)) && h < |Run(a, acts).handlers| && Run(a, acts).handlers[h].phase == Gone
  {
    hide Step, Inv, Rank, Advances, Dismissed;
    acts := [];
    while Run(a, acts).handlers[h].phase != Gone
      invariant var c := Run(a, acts); Inv(c) && h < |c.handlers| && Dismissed(c, h)
      invariant |acts| + Rank(Run(a, acts).handlers[h]) <= Rank(a.handlers[h])
      invariant forall i :: 0 <= i < |acts| ==> acts[i] == HandlerStep(h, outcome(i)) || acts[i] == ReceiverEnds(h)
      decreases Rank(Run(a, acts).handlers[h])
    {
      var c := Run(a, acts);
      var act := HandlerProgresses(c, h, outcome(|acts|));
      AdvanceLowersRank(c, h, act);
      StepKeepsInv(c, act);
      assert (acts + [act])[..|acts|] == acts;
      acts := acts + [act];
    }
  }

  /** The time limit ends an answered call, if there is one. */
  lemma TimeLimitEnds(a: Agent, h: nat)
    requires h < |a.handlers| && a.handlers[h].phase == Answered
    ensures Step(a, Timeout(h)).handlers[h].phase == if a.durationCap then Ending else Answered
  {}

  lemma ShutdownDismisses(a: Agent)
    ensures Step(a, Shutdown).shutdown && Step(a, Shutdown).handlers == a.handlers
    ensures forall act :: a.shutdown ==> Step(a, act).shutdown
  {}

  lemma {:induction false} RunAppend(a: Agent, acts: seq<Action>, more: seq<Action>)
    ensures Run(a, acts + more) == Run(Run(a, acts), more)
  {
    hide Step;
    if more == [] {
      assert acts + more == acts;
    } else {
      RunAppend(a, acts, more[..|more| - 1]);
      assert (acts + more)[..|acts + more| - 1] == acts + more[..|more| - 1];
    }
  }

  /** Steps of handlers and receivers bring no new call in. */
  lemma {:induction false} OwnStepsOnly(a: Agent, acts: seq<Action>)
    requires forall i :: 0 <= i < |acts| ==> acts[i].HandlerStep? || acts[i].ReceiverEnds?
    ensures var c := Run(a, acts); |c.handlers| == |a.handlers| && (a.shutdown ==> c.shutdown)
    ensures forall h :: 0 <= h < |a.handlers| ==> Rank(Run(a, acts).handlers[h]) <= Rank(a.handlers[h])
  {
    if acts != [] {
      var n := |acts| - 1;
      var b := Run(a, acts[..n]);
      OwnStepsOnly(a, acts[..n]);
      OwnStepKeepsCount(b, acts[n]);
      hide Step, Rank;
      StepMovesForward(b, acts[n]);
    }
  }

  lemma OwnStepKeepsCount(a: Agent, act: Action)
    requires act.HandlerStep? || act.ReceiverEnds?
    ensures |Step(a, act).handlers| == |a.handlers| && Step(a, act).shutdown == a.shutdown
  {
    hide Moved;
  }

  /**
   * After a shutdown, steps of the handlers and their receivers alone can bring every call in any phase to its end;
   * then the counter is back at zero and the map empty.
   */
  lemma ShutdownEndsAll(max: int, cap: bool, acts: seq<Action>)
    ensures exists own :: OwnSteps(own) && NothingLeft(Run(Start(max, cap), acts + [Shutdown] + own))
  {
    var a := Run(Start(max, cap), acts);
    var b := Step(a, Shutdown);
    RunKeepsInv(max, cap, acts);
    StepKeepsInv(a, Shutdown);
    ShutdownDismisses(a);
    var own := AllLeave(b);
    hide Step, Inv;
    RunOne(a, [], Shutdown);
    EmptyRun(a);
    assert [] + [Shutdown] == [Shutdown];
    RunAppend(Start(max, cap), acts, [Shutdown]);
    RunAppend(Start(max, cap), acts + [Shutdown], own);
    CleanExit(max, cap, acts + [Shutdown] + own);
  }

  /** Every step is one of a handler or of the end of a receiver. */
  ghost predicate OwnSteps(acts: seq<Action>) {
    forall i :: 0 <= i < |acts| ==> acts[i].HandlerStep? || acts[i].ReceiverEnds?
  }

  ghost predicate NothingLeft(a: Agent) {
    AllGone(a) && a.active == 0 && a.stopMap == map[]
  }

  lemma AllLeave(a: Agent) returns (acts: seq<Action>)
    requires Inv(a) && a.shutdown
    ensures forall i :: 0 <= i < |acts| ==> acts[i].HandlerStep? || acts[i].ReceiverEnds?
    ensures AllGone(Run(a, acts))
  {
    hide Step, Inv, Rank, Run;
    EmptyRun(a);
    acts := [];
    var n := |a.handlers|;
    for h := 0 to n
      invariant forall i :: 0 <= i < |acts| ==> acts[i].HandlerStep? || acts[i].ReceiverEnds?
      invariant var c := Run(a, acts); Inv(c) && c.shutdown && |c.handlers| == n
      invariant forall k :: 0 <= k < h ==> Run(a, acts).handlers[k].phase == Gone
    {
      var c := Run(a, acts);
      var own := HandlerLeaves(c, h, i => true);
      OwnStepsOnly(c, own);
      RunAppend(a, acts, own);
      forall k | 0 <= k < h ensures Run(c, own).handlers[k].phase == Gone {
        GoneIffNoRank(c, k);
        GoneIffNoRank(Run(c, own), k);
      }
      acts := acts + own;
    }
  }
}
