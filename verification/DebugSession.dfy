/** DebugSession and the part of DebugController it talks to (src/debug/Debugger.cpp:120-165,
    216-255, 311-447).  A client and the worker thread meet under locks; each locked region is one
    step here, and the steps of the two may come in any order. */
module DebugSession {
  import opened Options

  datatype ResumeMode = Continue | StepIn | StepOver | StepOut | Terminate

  // ----- the session's locked regions -----

  /** The fields sessionMutex_ guards; a stop is known by its number. */
  datatype Session = Session(
    launched: bool, finished: bool, paused: bool, resumePending: bool, terminateRequested: bool,
    pendingMode: ResumeMode, currentStop: Maybe<nat>)

  function Launched(s: Session): Session {
    if s.launched then s
    else s.(launched := true, finished := false, paused := false, currentStop := None, terminateRequested := false)
  }

  function Resumed(s: Session, mode: ResumeMode): Session {
    if !s.paused then s else s.(pendingMode := mode, resumePending := true, paused := false)
  }

  predicate Terminable(s: Session) { s.launched && !s.finished }

  function TerminateAsked(s: Session): Session {
    if !Terminable(s) then s
    else s.(pendingMode := Terminate, terminateRequested := true, resumePending := true, paused := false)
  }

  /** handleStop up to its wait. */
  function StopEntered(s: Session, stop: nat): Session {
    if s.terminateRequested then s else s.(currentStop := Some(stop), paused := true, resumePending := false)
  }

  /** What the wait of handleStop waits for. */
  predicate MayLeave(s: Session) { s.resumePending || s.terminateRequested }

  function AnswerOf(s: Session): ResumeMode {
    if s.terminateRequested then Terminate else s.pendingMode
  }

  function StopLeft(s: Session): Session { s.(resumePending := false) }

  function Finished(s: Session): Session { s.(finished := true, paused := false) }

  const FRESH := Session(false, false, false, false, false, Continue, None)

  class DebugSession {
    var launched: bool
    var finished: bool
    var paused: bool
    var resumePending: bool
    var terminateRequested: bool
    var pendingMode: ResumeMode
    var currentStop: Maybe<nat>

    ghost function State(): Session
      reads this
    {
      Session(launched, finished, paused, resumePending, terminateRequested, pendingMode, currentStop)
    }

    constructor ()
      ensures State() == FRESH
    {
      launched, finished, paused, resumePending, terminateRequested := false, false, false, false, false;
      pendingMode, currentStop := Continue, None;
    }

    method Launch() returns (ok: bool)
      modifies this
      ensures State() == Launched(old(State())) && ok == !old(launched)
    {
      if launched { return false; }
      launched, finished, paused, currentStop, terminateRequested := true, false, false, None, false;
      return true;
    }

    method Resume(mode: ResumeMode)
      modifies this
      ensures State() == Resumed(old(State()), mode)
    {
      if !paused { return; }
      pendingMode := mode;
      resumePending := true;
      paused := false;
    }

    /** The locked part; when it has asked, terminate goes on to request a pause. */
    method AskToTerminate() returns (asked: bool)
      modifies this
      ensures State() == TerminateAsked(old(State())) && asked == Terminable(old(State()))
    {
      if !launched || finished { return false; }
      pendingMode := Terminate;
      terminateRequested := true;
      resumePending := true;
      paused := false;
      return true;
    }

    /** An answer at once, or none: the worker then waits. */
    method EnterStop(stop: nat) returns (answer: Maybe<ResumeMode>)
      modifies this
      ensures State() == StopEntered(old(State()), stop)
      ensures answer == if old(terminateRequested) then Some(Terminate) else None
    {
      if terminateRequested { return Some(Terminate); }
      currentStop := Some(stop);
      paused := true;
      resumePending := false;
      return None;
    }

    method LeaveStop() returns (mode: ResumeMode)
      requires MayLeave(State())
      modifies this
      ensures State() == StopLeft(old(State())) && mode == AnswerOf(old(State()))
    {
      mode := if terminateRequested then Terminate else pendingMode;
      resumePending := false;
    }

    method Finish()
      modifies this
      ensures State() == Finished(old(State()))
    {
      finished := true;
      paused := false;
    }
  }

  // ----- the two threads together -----

  /** Where the worker is: between sequence points, on its way into handleStop, in its wait, on its
      way back with an answer, past its last sequence point, or gone. */
  datatype Worker =
    | Unborn | Running | Stopping(stop: nat) | Waiting(stop: nat) | Answered(stop: nat, mode: ResumeMode) | Ending | Gone

  /** pauseRequested, entryPending and terminated are the controller's.  The rest is history: how many
      stops there were, which resume answered which stop, what each stop returned, and whether a
      terminate call has gone through to its end. */
  datatype System = System(
    session: Session, pauseRequested: bool, entryPending: bool, terminated: bool, mode: ResumeMode, worker: Worker,
    stops: nat, answers: map<nat, ResumeMode>, returned: map<nat, ResumeMode>, terminateDone: bool)

  datatype Action =
    // the client
    | Launch(stopOnEntry: bool)
    | Resume(mode: ResumeMode)
    | AskToTerminate
    | FinishTerminate
    | Pause
    // the worker
    | Point(breakpoint: bool, stepDue: bool)
    | EnterStop
    | LeaveStop
    | TakeAnswer
    | RunOut
    | Finish

  const START := System(FRESH, false, false, false, Continue, Unborn, 0, map[], map[], false)

  function Stop(s: System): System { s.(worker := Stopping(s.stops), stops := s.stops + 1) }

  /** onSequencePoint's first region, at a point with a location: whether a breakpoint is there, and
      whether the step the mode asks for is due. */
  function AtPoint(s: System, breakpoint: bool, stepDue: bool): System {
    if s.terminated then s.(worker := Ending)
    else if s.entryPending then Stop(s.(entryPending := false))
    else if s.pauseRequested then Stop(s.(pauseRequested := false))
    else if breakpoint then Stop(s)
    else if s.mode == Terminate then s.(terminated := true)
    else if s.mode != Continue && stepDue then Stop(s)
    else s
  }

  predicate Enabled(s: System, a: Action) {
    match a
    case Launch(_) => !s.session.launched
    case FinishTerminate => s.session.terminateRequested
    case Point(_, _) => s.worker.Running?
    case EnterStop => s.worker.Stopping?
    case LeaveStop => s.worker.Waiting? && MayLeave(s.session)
    case TakeAnswer => s.worker.Answered?
    case RunOut => s.worker.Running?
    case Finish => s.worker.Ending?
    case _ => true
  }

  function Do(s: System, a: Action): System
    requires Enabled(s, a)
  {
    match a
    case Launch(stopOnEntry) => s.(session := Launched(s.session), entryPending := stopOnEntry, worker := Running)
    case Resume(mode) =>
      var after := s.(session := Resumed(s.session, mode));
      if s.session.paused && s.worker.Waiting? then after.(answers := s.answers[s.worker.stop := mode]) else after
    case AskToTerminate => s.(session := TerminateAsked(s.session))
    case FinishTerminate => s.(pauseRequested := true, terminateDone := true)
    case Pause => s.(pauseRequested := true)
    case Point(breakpoint, stepDue) => AtPoint(s, breakpoint, stepDue)
    case EnterStop =>
      var after := s.(session := StopEntered(s.session, s.worker.stop));
      if s.session.terminateRequested then after.(worker := Answered(s.worker.stop, Terminate))
      else after.(worker := Waiting(s.worker.stop))
    case LeaveStop => s.(session := StopLeft(s.session), worker := Answered(s.worker.stop, AnswerOf(s.session)))
    case TakeAnswer =>
      s.(mode := s.worker.mode, terminated := s.terminated || s.worker.mode == Terminate,
         returned := s.returned[s.worker.stop := s.worker.mode],
         worker := if s.worker.mode == Terminate then Ending else Running)
    case RunOut => s.(worker := Ending)
    case Finish => s.(session := Finished(s.session), worker := Gone)
  }

  ghost predicate Allowed(s: System, actions: seq<Action>)
    decreases |actions|
  {
    actions == [] || (Enabled(s, actions[0]) && Allowed(Do(s, actions[0]), actions[1..]))
  }

  function After(s: System, actions: seq<Action>): System
    requires Allowed(s, actions)
    decreases |actions|
  {
    if actions == [] then s else After(Do(s, actions[0]), actions[1..])
  }

  // ----- what every interleaving keeps -----

  /** The stop the worker is at. */
  function CurrentStop(w: Worker): Maybe<nat> {
    match w
    case Stopping(k) => Some(k)
    case Waiting(k) => Some(k)
    case Answered(k, _) => Some(k)
    case _ => None
  }

  /** Stop k may return m: it is what a resume answered it with, or terminate was asked for. */
  predicate Answers(s: System, k: nat, m: ResumeMode) {
    (k in s.answers && s.answers[k] == m) || (m == Terminate && s.session.terminateRequested)
  }

  ghost predicate Consistent(s: System) {
    // paused says exactly that the worker waits and nobody has answered it
    && (s.session.paused <==> s.worker.Waiting? && !MayLeave(s.session))
    && (s.worker.Unborn? <==> !s.session.launched) && (s.worker.Gone? <==> s.session.finished)
    && (s.session.terminateRequested ==> s.session.launched)
    // the stop in hand is the last one, has not returned, and is answered at most by a pending resume
    && (CurrentStop(s.worker).Some? ==>
          CurrentStop(s.worker).value + 1 == s.stops && CurrentStop(s.worker).value !in s.returned)
    && (s.worker.Stopping? ==> s.worker.stop !in s.answers)
    && (s.worker.Waiting? ==>
          s.session.currentStop == Some(s.worker.stop) &&
          if MayLeave(s.session) then Answers(s, s.worker.stop, AnswerOf(s.session)) else s.worker.stop !in s.answers)
    && (s.worker.Answered? ==> Answers(s, s.worker.stop, s.worker.mode))
    // answers belong to stops that happened, and what stops returned was their answer
    && (forall k :: k in s.answers ==> k < s.stops)
    && (forall k :: k in s.returned ==> k < s.stops && Answers(s, k, s.returned[k]))
    && (s.mode == Terminate ==> s.terminated)
    // a worker that was told to terminate comes to no further point
    && (s.terminated ==> s.worker.Ending? || s.worker.Gone?)
  }

  /** What one step keeps for the steps after it: answers and returns are final, and so is the
      request to terminate. */
  ghost predicate OnlyGrows(s: System, t: System) {
    && (forall k :: k in s.answers ==> k in t.answers && t.answers[k] == s.answers[k])
    && (forall k :: k in s.returned ==> k in t.returned && t.returned[k] == s.returned[k])
    && s.stops <= t.stops
    && (s.session.terminateRequested ==> t.session.terminateRequested)
    && (s.terminateDone ==> t.terminateDone)
  }

  predicate IsWorkers(a: Action) {
    a.Point? || a.EnterStop? || a.LeaveStop? || a.TakeAnswer? || a.RunOut? || a.Finish?
  }

  lemma ResumeKeepsConsistent(s: System, mode: ResumeMode)
    requires Consistent(s)
    ensures Consistent(Do(s, Resume(mode))) && OnlyGrows(s, Do(s, Resume(mode)))
  {
    hide Consistent, OnlyGrows;
    if s.session.paused {
      AnsweringKeepsConsistent(s, mode);
    } else {
      NothingGrows(s);
      assert Do(s, Resume(mode)) == s;
    }
  }

  lemma NothingGrows(s: System)
    ensures OnlyGrows(s, s)
  {
  }

  lemma AnsweringKeepsConsistent(s: System, mode: ResumeMode)
    requires Consistent(s) && s.session.paused
    ensures Consistent(Do(s, Resume(mode))) && OnlyGrows(s, Do(s, Resume(mode)))
  {
    hide Answers;
    var t, k := Do(s, Resume(mode)), s.worker.stop;
    assert t == s.(session := Resumed(s.session, mode), answers := s.answers[k := mode]);
    forall j: nat, m: ResumeMode ensures (j != k ==> (Answers(t, j, m) <==> Answers(s, j, m))) && Answers(t, k, mode) {
      OtherAnswersStay(s, t, k, mode, j, m);
    }
  }

  lemma OtherAnswersStay(s: System, t: System, k: nat, mode: ResumeMode, j: nat, m: ResumeMode)
    requires t.answers == s.answers[k := mode] && t.session.terminateRequested == s.session.terminateRequested
    ensures (j != k ==> (Answers(t, j, m) <==> Answers(s, j, m))) && Answers(t, k, mode)
  {
  }

  lemma ClientKeepsConsistent(s: System, a: Action)
    requires Consistent(s) && Enabled(s, a) && !IsWorkers(a) && !a.Resume?
    ensures Consistent(Do(s, a)) && OnlyGrows(s, Do(s, a))
  {
  }

  lemma PointKeepsConsistent(s: System, breakpoint: bool, stepDue: bool)
    requires Consistent(s) && s.worker.Running?
    ensures Consistent(AtPoint(s, breakpoint, stepDue)) && OnlyGrows(s, AtPoint(s, breakpoint, stepDue))
  {
  }

  lemma AnswerKeepsConsistent(s: System)
    requires Consistent(s) && s.worker.Answered?
    ensures Consistent(Do(s, TakeAnswer)) && OnlyGrows(s, Do(s, TakeAnswer))
  {
  }

  lemma EnterKeepsConsistent(s: System)
    requires Consistent(s) && s.worker.Stopping?
    ensures Consistent(Do(s, EnterStop)) && OnlyGrows(s, Do(s, EnterStop))
  {
  }

  lemma LeaveKeepsConsistent(s: System)
    requires Consistent(s) && s.worker.Waiting? && MayLeave(s.session)
    ensures Consistent(Do(s, LeaveStop)) && OnlyGrows(s, Do(s, LeaveStop))
  {
  }

  lemma EndKeepsConsistent(s: System, a: Action)
    requires Consistent(s) && Enabled(s, a) && (a.RunOut? || a.Finish?)
    ensures Consistent(Do(s, a)) && OnlyGrows(s, Do(s, a))
  {
  }

  lemma IsPoint(s: System, a: Action)
    requires Enabled(s, a)
    ensures a.Point? ==> s.worker.Running? && Do(s, a) == AtPoint(s, a.breakpoint, a.stepDue)
    ensures a.TakeAnswer? ==> s.worker.Answered?
    ensures (a.EnterStop? ==> s.worker.Stopping?) && (a.LeaveStop? ==> s.worker.Waiting? && MayLeave(s.session))
  {
  }

  lemma StepKeepsConsistent(s: System, a: Action)
    requires Consistent(s) && Enabled(s, a)
    ensures Consistent(Do(s, a)) && OnlyGrows(s, Do(s, a))
  {
    hide Consistent, OnlyGrows, Do, Enabled;
    if a.Point? {
      IsPoint(s, a);
      PointKeepsConsistent(s, a.breakpoint, a.stepDue);
    } else if a.TakeAnswer? {
      IsPoint(s, a);
      AnswerKeepsConsistent(s);
    } else if a.Resume? {
      ResumeKeepsConsistent(s, a.mode);
    } else if a.EnterStop? {
      IsPoint(s, a);
      EnterKeepsConsistent(s);
    } else if a.LeaveStop? {
      IsPoint(s, a);
      LeaveKeepsConsistent(s);
    } else if a.RunOut? || a.Finish? {
      EndKeepsConsistent(s, a);
    } else {
      ClientKeepsConsistent(s, a);
    }
  }

  lemma GrowthComposes(s: System, t: System, u: System)
    requires OnlyGrows(s, t) && OnlyGrows(t, u)
    ensures OnlyGrows(s, u)
  {
  }

  /** In every interleaving of client and worker: paused holds exactly while the worker waits with no
      resume or terminate pending; a resume answers the stop it was given at and no other, at most
      one resume answers a stop, and a stop returns its answer unless terminate was requested. */
  lemma {:induction false} AlwaysConsistent(s: System, actions: seq<Action>)
    requires Consistent(s) && Allowed(s, actions)
    ensures Consistent(After(s, actions)) && OnlyGrows(s, After(s, actions))
    decreases |actions|
  {
    if actions != [] {
      hide Consistent, OnlyGrows, Do;
      StepKeepsConsistent(s, actions[0]);
      AlwaysConsistent(Do(s, actions[0]), actions[1..]);
      GrowthComposes(s, Do(s, actions[0]), After(s, actions));
    }
  }

  lemma StartIsConsistent()
    ensures Consistent(START)
  {
  }

  // ----- terminate -----

  /** On the way out: whatever the client does, the worker passes no further point. */
  predicate Leaving(s: System) {
    s.session.terminateRequested &&
    (s.worker.Stopping? || s.worker.Waiting? || s.worker.Ending? || s.worker.Gone? ||
     (s.worker.Answered? && s.worker.mode == Terminate))
  }

  /** After a terminate call the worker is leaving, or will at its next sequence point. */
  predicate Doomed(s: System) {
    s.terminateDone ==> s.session.terminateRequested && (Leaving(s) || s.pauseRequested || s.terminated)
  }

  lemma StepKeepsDoomed(s: System, a: Action)
    requires Consistent(s) && Doomed(s) && Enabled(s, a)
    ensures Doomed(Do(s, a))
  {
  }

  lemma {:induction false} AlwaysDoomed(s: System, actions: seq<Action>)
    requires Consistent(s) && Doomed(s) && Allowed(s, actions)
    ensures Doomed(After(s, actions))
    decreases |actions|
  {
    if actions != [] {
      hide Consistent, Doomed, Do;
      StepKeepsConsistent(s, actions[0]);
      StepKeepsDoomed(s, actions[0]);
      AlwaysDoomed(Do(s, actions[0]), actions[1..]);
    }
  }

  /** Worker steps still to take. */
  function StepsLeft(w: Worker): nat {
    match w
    case Stopping(_) => 4
    case Waiting(_) => 3
    case Answered(_, _) => 2
    case Ending => 1
    case _ => 0
  }

  /** A leaving worker stays leaving, is never paused again, is never stuck, and each of its steps
      brings it nearer to its end. */
  lemma LeavingStaysLeaving(s: System, a: Action)
    requires Consistent(s) && Leaving(s) && Enabled(s, a)
    ensures Leaving(Do(s, a)) && !Do(s, a).session.paused
    ensures IsWorkers(a) ==> StepsLeft(Do(s, a).worker) < StepsLeft(s.worker)
    ensures !IsWorkers(a) ==> Do(s, a).worker == s.worker
  {
  }

  lemma LeavingIsNeverStuck(s: System)
    requires Leaving(s) && !s.worker.Gone?
    ensures exists a :: IsWorkers(a) && Enabled(s, a)
  {
    var a := if s.worker.Stopping? then EnterStop else if s.worker.Waiting? then LeaveStop
             else if s.worker.Answered? then TakeAnswer else Finish;
    assert IsWorkers(a) && Enabled(s, a);
  }

  /** The stop had its answer, on the worker's way back. */
  predicate HasAnswer(s: System, k: nat) {
    k in s.returned || (s.worker.Answered? && s.worker.stop == k)
  }

  /** Every stop that had no answer when terminate was requested is answered by it. */
  ghost predicate OthersTerminate(s: System, t: System) {
    && t.session.terminateRequested
    && (forall k :: k in t.returned && !HasAnswer(s, k) ==> t.returned[k] == Terminate)
    && (t.worker.Answered? && !HasAnswer(s, t.worker.stop) ==> t.worker.mode == Terminate)
  }

  lemma StepTerminates(s: System, t: System, a: Action)
    requires Consistent(t) && OthersTerminate(s, t) && Enabled(t, a)
    ensures OthersTerminate(s, Do(t, a))
  {
  }

  lemma {:induction false} RunTerminates(s: System, t: System, actions: seq<Action>)
    requires Consistent(t) && OthersTerminate(s, t) && Allowed(t, actions)
    ensures OthersTerminate(s, After(t, actions))
    decreases |actions|
  {
    if actions != [] {
      hide Consistent, OthersTerminate, Do;
      StepKeepsConsistent(t, actions[0]);
      StepTerminates(s, t, actions[0]);
      RunTerminates(s, Do(t, actions[0]), actions[1..]);
    }
  }

  /** In every interleaving: from the moment terminate is requested, every stop returns Terminate that
      had no answer by then, whether it was waiting, on its way into handleStop, or comes later, and
      whatever else the client asks for. */
  lemma StopsAfterTerminate(before: seq<Action>, after: seq<Action>, k: nat)
    requires Allowed(START, before) && After(START, before).session.terminateRequested
    requires Allowed(After(START, before), after)
    ensures var s, t := After(START, before), After(After(START, before), after);
            k in t.returned && !HasAnswer(s, k) ==> t.returned[k] == Terminate
  {
    hide Consistent;
    StartIsConsistent();
    AlwaysConsistent(START, before);
    RunTerminates(After(START, before), After(START, before), after);
  }

  function WorkerSteps(actions: seq<Action>): nat {
    if actions == [] then 0 else (if IsWorkers(actions[0]) then 1 else 0) + WorkerSteps(actions[1..])
  }

  lemma {:induction false} LeavingRuns(s: System, actions: seq<Action>)
    requires Consistent(s) && Leaving(s) && Allowed(s, actions)
    ensures Leaving(After(s, actions)) && forall k :: 0 <= k < |actions| ==> !actions[k].Point?
    ensures WorkerSteps(actions) + StepsLeft(After(s, actions).worker) <= StepsLeft(s.worker)
    decreases |actions|
  {
    if actions != [] {
      hide Consistent, Do;
      StepKeepsConsistent(s, actions[0]);
      LeavingStaysLeaving(s, actions[0]);
      LeavingRuns(Do(s, actions[0]), actions[1..]);
    }
  }

  /** In every interleaving: once a terminate call has returned, the worker comes to at most one more
      sequence point.  After it the worker takes at most four steps, whatever the client does, and the
      stop it may make returns Terminate. */
  lemma TerminateTakesHold(before: seq<Action>, breakpoint: bool, stepDue: bool, after: seq<Action>, k: nat)
    requires Allowed(START, before)
    requires After(START, before).terminateDone && After(START, before).worker.Running?
    requires Allowed(Do(After(START, before), Point(breakpoint, stepDue)), after)
    ensures var s := After(START, before);
            var t := After(Do(s, Point(breakpoint, stepDue)), after);
            && (forall j :: 0 <= j < |after| ==> !after[j].Point?) && WorkerSteps(after) <= 4
            && (k in t.returned && k !in s.returned ==> t.returned[k] == Terminate)
  {
    hide Consistent, Do;
    StartIsConsistent();
    AlwaysConsistent(START, before);
    AlwaysDoomed(START, before);
    var s := After(START, before);
    var next := Point(breakpoint, stepDue);
    DoomedLeaves(s, breakpoint, stepDue);
    StepKeepsConsistent(s, next);
    LeavingRuns(Do(s, next), after);
    StepTerminates(s, s, next);
    RunTerminates(s, Do(s, next), after);
  }

  lemma DoomedLeaves(s: System, breakpoint: bool, stepDue: bool)
    requires Doomed(s) && s.terminateDone && s.worker.Running?
    ensures s.session.terminateRequested && Leaving(Do(s, Point(breakpoint, stepDue)))
  {
  }

  /** Once terminate was requested no handleStop pauses any more. */
  lemma NoPauseAfterTerminate(before: seq<Action>, after: seq<Action>)
    requires Allowed(START, before) && After(START, before).session.terminateRequested
    requires Allowed(After(START, before), after)
    ensures !After(After(START, before), after).session.paused
  {
    StartIsConsistent();
    AlwaysConsistent(START, before);
    AlwaysConsistent(After(START, before), after);
  }

  /** A resume in a stop that waits unanswered is consumed by that stop, as soon as the worker wakes. */
  lemma ResumeIsConsumed(s: System, mode: ResumeMode)
    requires Consistent(s) && s.session.paused
    ensures var t := Do(s, Resume(mode));
            && s.worker.Waiting? && Enabled(t, LeaveStop)
            && Do(t, LeaveStop).worker == Answered(s.worker.stop, mode)
            && !Do(t, LeaveStop).session.resumePending
            && forall other :: Do(t, Resume(other)) == t
  {
  }

  // ----- where it stops -----

  /** A sequence point stops the worker exactly when the entry stop is due, a pause was requested, a
      breakpoint is there or a step ends there; an entry stop leaves the pause for the next point. */
  lemma PointStopsExactly(s: System, breakpoint: bool, stepDue: bool)
    requires Consistent(s) && s.worker.Running?
    ensures var t := Do(s, Point(breakpoint, stepDue));
            && (if s.entryPending || s.pauseRequested || breakpoint || (s.mode != Continue && stepDue)
                then t.worker == Stopping(s.stops) && t.stops == s.stops + 1 else t == s)
            && !t.entryPending && t.pauseRequested == (s.entryPending && s.pauseRequested)
            && t.session == s.session && t.mode == s.mode && !t.terminated
  {
  }

  predicate NoPoint(actions: seq<Action>) { forall k | 0 <= k < |actions| :: !actions[k].Point? }

  /** The worker is not on its way into a stop, at one, or on its way back. */
  predicate OffStop(w: Worker) { w.Running? || w.Ending? || w.Gone? }

  /** Requests stay outstanding, and a worker that is at no stop comes to none. */
  predicate StaysAway(s: System, t: System) {
    && t.session.launched && (s.pauseRequested ==> t.pauseRequested) && t.entryPending == s.entryPending
    && (OffStop(s.worker) ==> OffStop(t.worker) && t.stops == s.stops)
  }

  lemma ClientStaysAway(s: System, a: Action)
    requires Enabled(s, a) && !IsWorkers(a) && s.session.launched
    ensures StaysAway(s, Do(s, a))
  {
  }

  lemma WorkerStaysAway(s: System, a: Action)
    requires Enabled(s, a) && IsWorkers(a) && !a.Point? && s.session.launched
    ensures StaysAway(s, Do(s, a))
  {
  }

  /** Requests wait for the next sequence point, and no stop comes before it. */
  lemma {:induction false} RequestsWait(s: System, actions: seq<Action>)
    requires Allowed(s, actions) && NoPoint(actions) && s.session.launched
    ensures StaysAway(s, After(s, actions))
    decreases |actions|
  {
    if actions != [] {
      hide Do, Enabled;
      if IsWorkers(actions[0]) { WorkerStaysAway(s, actions[0]); } else { ClientStaysAway(s, actions[0]); }
      RequestsWait(Do(s, actions[0]), actions[1..]);
    }
  }

  /** In every interleaving: after a pause was asked for, the next sequence point the worker comes to
      stops it. */
  lemma PauseTakesHold(before: seq<Action>, after: seq<Action>, breakpoint: bool, stepDue: bool)
    requires Allowed(START, before) && After(START, before).session.launched
    requires Allowed(Do(After(START, before), Pause), after) && NoPoint(after)
    ensures var t := After(Do(After(START, before), Pause), after);
            t.worker.Running? ==> Do(t, Point(breakpoint, stepDue)).worker == Stopping(t.stops)
  {
    hide Consistent;
    StartIsConsistent();
    AlwaysConsistent(START, before);
    var s := After(START, before);
    StepKeepsConsistent(s, Pause);
    AlwaysConsistent(Do(s, Pause), after);
    RequestsWait(Do(s, Pause), after);
    var t := After(Do(s, Pause), after);
    if t.worker.Running? { PointStopsExactly(t, breakpoint, stepDue); }
  }

  /** In every interleaving: launched with a stop on entry, the worker stops at its first point. */
  lemma EntryStopsFirst(before: seq<Action>, after: seq<Action>, breakpoint: bool, stepDue: bool)
    requires Allowed(START, before) && !After(START, before).session.launched
    requires Allowed(Do(After(START, before), Launch(true)), after) && NoPoint(after)
    ensures var t := After(Do(After(START, before), Launch(true)), after);
            t.worker.Running? ==> Do(t, Point(breakpoint, stepDue)).worker == Stopping(t.stops)
  {
    hide Consistent;
    StartIsConsistent();
    AlwaysConsistent(START, before);
    var s := After(START, before);
    StepKeepsConsistent(s, Launch(true));
    AlwaysConsistent(Do(s, Launch(true)), after);
    RequestsWait(Do(s, Launch(true)), after);
    var t := After(Do(s, Launch(true)), after);
    if t.worker.Running? { PointStopsExactly(t, breakpoint, stepDue); }
  }

  /** Nothing in these actions asks for a stop of a worker in that mode. */
  predicate NoCause(mode: ResumeMode, actions: seq<Action>) {
    forall k | 0 <= k < |actions| ::
      && !actions[k].Pause? && !actions[k].FinishTerminate?
      && (actions[k].Point? ==> !actions[k].breakpoint && (mode == Continue || !actions[k].stepDue))
  }

  lemma StepWithoutCause(s: System, a: Action)
    requires Consistent(s) && Enabled(s, a) && OffStop(s.worker) && !s.pauseRequested && !s.entryPending
    requires !a.Pause? && !a.FinishTerminate? && (a.Point? ==> !a.breakpoint && (s.mode == Continue || !a.stepDue))
    ensures var t := Do(s, a);
            OffStop(t.worker) && t.stops == s.stops && !t.pauseRequested && !t.entryPending && t.mode == s.mode
  {
  }

  /** In every interleaving: a worker that runs on, with no request outstanding, makes no stop as long as
      no pause is asked for, no breakpoint met and no step of its mode ended. */
  lemma {:induction false} NoCauseNoStop(s: System, actions: seq<Action>)
    requires Consistent(s) && Allowed(s, actions) && OffStop(s.worker) && !s.pauseRequested && !s.entryPending
    requires NoCause(s.mode, actions)
    ensures OffStop(After(s, actions).worker) && After(s, actions).stops == s.stops
    decreases |actions|
  {
    if actions != [] {
      hide Consistent, Do, Enabled;
      StepKeepsConsistent(s, actions[0]);
      StepWithoutCause(s, actions[0]);
      NoCauseNoStop(Do(s, actions[0]), actions[1..]);
    }
  }
}
