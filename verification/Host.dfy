/** GameplayHost (src/game/GameplayScripting.cpp): script calls on timers, sequences built from
    timers, event subscriptions, and saved states. */
module Host {
  import opened Scalars
  import opened Ordered
  import opened Timers
  import opened Scheduler
  import opened HostLinks
  import opened Events
  import opened HostState
  import opened HostPlans
  import opened HostDispatch

  /** Counters run ahead of the ids in use until they wrap to 0, where they stick. */
  ghost predicate Counted(l: Links, nextPayloadId: nat, nextSequenceId: nat, nextTimerId: nat) {
    && (nextPayloadId != 0 ==> forall p :: p in l.calls ==> p < nextPayloadId)
    && (nextSequenceId != 0 ==> forall s :: s in l.sequences ==> s < nextSequenceId)
    && (nextTimerId != 0 ==> forall t :: t in l.timerToPayload ==> t < nextTimerId)
  }

  ghost predicate SubscriptionsOk(subscriptions: map<nat, Subscription>, nextSubscriptionId: nat) {
    forall s :: s in subscriptions ==>
      subscriptions[s].id == s && SubscriptionOk(subscriptions[s]) && (nextSubscriptionId != 0 ==> s < nextSubscriptionId)
  }

  /** The maps agree with each other, with the scheduler and with the counters. */
  ghost predicate Consistent(
    tasks: Tasks, l: Links, pending: SequenceState, nextPayloadId: nat, nextSequenceId: nat, nextTimerId: nat)
  {
    Linked(l, pending) && Owned(tasks, l) && Counted(l, nextPayloadId, nextSequenceId, nextTimerId)
  }

  lemma NewIdsAreFresh(tasks: Tasks, l: Links, pending: SequenceState, p: nat, s: nat, t: nat)
    requires Consistent(tasks, l, pending, p, s, t)
    ensures p != 0 ==> p !in l.calls
    ensures t != 0 ==> t !in l.timerToPayload && t !in tasks && t !in l.timerToSequence
  {
  }

  lemma ScheduleKeepsConsistent(tasks: Tasks, l: Links, pending: SequenceState, p: nat, s: nat, t: nat, task: Task, c: Call)
    requires Consistent(tasks, l, pending, p, s, t) && ValidCall(c)
    requires c.payloadId == p == task.payload && c.timerId == t == task.id
    ensures Consistent(tasks[t := task], AddCall(l, c), pending, Bump(p), s, Bump(t))
    ensures Attached(tasks, l) ==> Attached(tasks[t := task], AddCall(l, c))
  {
    NewIdsAreFresh(tasks, l, pending, p, s, t);
    AddCallKeepsLinked(l, pending, c);
  }

  lemma EraseKeepsConsistent(tasks: Tasks, l: Links, pending: SequenceState, p: nat, s: nat, t: nat, timer: nat)
    requires Consistent(tasks, l, pending, p, s, t)
    ensures Consistent(tasks - {timer}, Erase(l, timer), PendingWithout(pending, timer), p, s, t)
    ensures timer !in l.timerToPayload ==> tasks - {timer} == tasks
    ensures Attached(tasks, l) ==> Attached(tasks - {timer}, Erase(l, timer))
  {
    hide Linked, Erase, PendingWithout;
    EraseKeepsLinked(l, pending, timer);
  }

  lemma AddTimerKeepsConsistent(tasks: Tasks, l: Links, pending: SequenceState, p: nat, s: nat, t: nat, timer: nat)
    requires Consistent(tasks, l, pending, p, s, t) && pending.id != 0
    requires timer in l.timerToPayload && timer !in l.timerToSequence
    ensures Consistent(tasks, AddTimer(l, pending.id, timer), pending.(timers := pending.timers + [timer]), p, s, t)
    ensures Attached(tasks, l) ==> Attached(tasks, AddTimer(l, pending.id, timer))
  {
    AddTimerKeepsLinked(l, pending, timer);
  }

  lemma OpenKeepsConsistent(tasks: Tasks, l: Links, p: nat, s: nat, t: nat)
    requires Consistent(tasks, l, NoSequence, p, s, t) && s != 0
    ensures Consistent(tasks, l, SequenceState(s, []), p, Bump(s), t)
  {
    OpenSequence(l, s);
  }

  lemma CloseKeepsConsistent(tasks: Tasks, l: Links, pending: SequenceState, p: nat, s: nat, t: nat)
    requires Consistent(tasks, l, pending, p, s, t) && pending.id != 0 && pending.timers != []
    requires s != 0 ==> pending.id < s
    ensures var closed := l.(sequences := l.sequences[pending.id := pending]);
            Consistent(tasks, closed, NoSequence, p, s, t) && (Attached(tasks, l) ==> Attached(tasks, closed))
  {
    CloseSequence(l, pending);
  }

  lemma AbandonKeepsConsistent(tasks: Tasks, l: Links, id: nat, p: nat, s: nat, t: nat)
    requires Consistent(tasks, l, SequenceState(id, []), p, s, t) && id != 0
    ensures Consistent(tasks, l, NoSequence, p, s, t)
  {
    AbandonSequence(l, id);
  }

  lemma PlanIsUnused(tasks: Tasks, l: Links, plan: Plan, s: nat)
    requires Consistent(tasks, l, NoSequence, plan.firstPayload, s, plan.firstTimer) && s == plan.id != 0
    requires plan.firstPayload != 0 && plan.firstTimer != 0
    ensures Unused(tasks, l, plan)
  {
  }

  /** A payload id that is drawn for nothing: the scheduler has no id left. */
  function Skipped(counter: nat): nat { if counter == 0 then 0 else Bump(counter) }

  lemma OneMoreDraw(c: Counters, n: nat)
    requires n > 0
    ensures AfterDraws(c, n) == if c.payload == 0 || c.timer == 0 then AfterDraw(c) else AfterDraws(AfterDraw(c), n - 1)
  {
  }

  lemma NoMoreDraws(c: Counters)
    ensures AfterDraws(c, 0) == c
  {
  }

  /** A repeating call without an interval. */
  predicate NeedsInterval(interval: nat, repeatCount: nat) {
    (repeatCount == REPEAT_FOREVER || repeatCount > 1) && interval == 0
  }

  /** The two counters a scheduled call draws from, payload ids first. */
  datatype Counters = Counters(payload: nat, timer: nat)

  function AfterDraw(c: Counters): Counters {
    if c.payload == 0 then c
    else if c.timer == 0 then c.(payload := Bump(c.payload))
    else Counters(Bump(c.payload), Bump(c.timer))
  }

  /** After n calls, the last of them the first that fails. */
  function AfterDraws(c: Counters, n: nat): Counters
    decreases n
  {
    if n == 0 then c
    else if c.payload == 0 || c.timer == 0 then AfterDraw(c)
    else AfterDraws(AfterDraw(c), n - 1)
  }

  /** What the first loop of startSequence asks for. */
  predicate Sensible(steps: seq<Step>) {
    (forall x | 0 <= x < |steps| :: steps[x].callback != "") && TicksUpTo(steps, |steps|) < MAX_TICK
  }

  /** A counter after n draws. */
  function BumpBy(first: nat, n: nat): nat {
    if first == 0 || first + n > ULONG_MAX then 0 else first + n
  }

  /** Exactly the starts that succeed: the arguments make sense and the ids last. */
  predicate Startable(plan: Plan) {
    var n := |plan.steps|;
    && plan.id != 0 && plan.target != 0 && n > 0
    && (forall x | 0 <= x < n :: plan.steps[x].callback != "")
    && TicksUpTo(plan.steps, n) < MAX_TICK
    && plan.firstTimer != 0 && plan.firstPayload != 0
    && plan.firstTimer + n - 1 <= ULONG_MAX && plan.firstPayload + n - 1 <= ULONG_MAX
  }

  /** The first loop of startSequence. */
  method CycleTicksOf(steps: seq<Step>) returns (ok: bool, cycleTicks: nat)
    ensures ok <==> Sensible(steps)
    ensures ok <==> (forall x :: 0 <= x < |steps| ==> steps[x].callback != "") && TicksUpTo(steps, |steps|) < MAX_TICK
    ensures ok ==> cycleTicks == TicksUpTo(steps, |steps|)
  {
    cycleTicks := 0;
    for x := 0 to |steps|
      invariant cycleTicks == if TicksUpTo(steps, x) > MAX_TICK then MAX_TICK else TicksUpTo(steps, x)
      invariant forall y :: 0 <= y < x ==> steps[y].callback != ""
    {
      if steps[x].callback == "" { return false, 0; }
      var delay := NormalizedDelay(steps[x].delayTicks);
      if cycleTicks == MAX_TICK {
        TicksIncrease(steps, x, |steps|);
        return false, 0;
      }
      cycleTicks := SaturatedAdd(cycleTicks, delay);
    }
    ok := cycleTicks != MAX_TICK;
  }

  lemma WithoutFirst(timers: seq<nat>, j: nat)
    requires Distinct(timers) && j < |timers|
    ensures Without(timers[j..], timers[j]) == timers[j + 1..]
  {
    var rest := timers[j + 1..];
    assert timers[j..] == [timers[j]] + rest;
    assert timers[j..][1..] == rest;
    assert forall k :: 0 <= k < |rest| ==> rest[k] == timers[j + 1 + k];
    WithoutHolds(rest, timers[j]);
  }

  lemma CountersMayStop(tasks: Tasks, l: Links, pending: SequenceState, p: nat, s: nat, t: nat)
    requires Consistent(tasks, l, pending, p, s, t)
    ensures p != 0 ==> Consistent(tasks, l, pending, Bump(p), s, t)
    ensures s != 0 ==> Consistent(tasks, l, pending, p, Bump(s), t)
  {
  }

  class GameplayHost {
    const scheduler: TickScheduler
    const events: DeterministicEventQueue
    var tick: nat
    var nextPayloadId: nat
    var nextSubscriptionId: nat
    var nextSequenceId: nat
    var calls: map<nat, Call>
    var timerToPayload: map<nat, nat>
    var subscriptions: map<nat, Subscription>
    var sequences: map<nat, SequenceState>
    var timerToSequence: map<nat, nat>

    ghost function Maps(): Links
      reads this
    {
      Links(calls, timerToPayload, sequences, timerToSequence)
    }

    ghost predicate ValidWith(pending: SequenceState)
      reads this, scheduler, events
    {
      && scheduler.Valid() && events.Valid() && tick <= MAX_TICK
      && nextPayloadId <= ULONG_MAX && nextSubscriptionId <= ULONG_MAX && nextSequenceId <= ULONG_MAX
      && Consistent(scheduler.tasks, Maps(), pending, nextPayloadId, nextSequenceId, scheduler.nextId)
      && SubscriptionsOk(subscriptions, nextSubscriptionId)
    }

    /** What every host operation keeps. */
    ghost predicate Valid()
      reads this, scheduler, events
    {
      ValidWith(NoSequence)
    }

    constructor ()
      ensures Valid() && fresh(scheduler) && fresh(events) && Attached(scheduler.tasks, Maps())
      ensures nextPayloadId == nextSubscriptionId == nextSequenceId == 1 && tick == 0 && scheduler.nextId == 1
      ensures Maps() == Links(map[], map[], map[], map[]) && scheduler.tasks == map[] && subscriptions == map[]
      ensures events.events == [] && events.nextSequence == 1
    {
      scheduler := new TickScheduler();
      events := new DeterministicEventQueue();
      tick, nextPayloadId, nextSubscriptionId, nextSequenceId := 0, 1, 1, 1;
      calls, timerToPayload, subscriptions, sequences, timerToSequence := map[], map[], map[], map[], map[];
    }

    /** The clock moves by itself (FixedTickClock::step). */
    method StepClock()
      requires Valid()
      modifies this`tick
      ensures Valid() && tick == SaturatedAdd(old(tick), 1)
    {
      if tick != MAX_TICK { tick := tick + 1; }
    }

    // ----- calls -----

    method ScheduleCall(
      target: nat, callback: string, delayTicks: nat, arguments: seq<GameplayValue>, intervalTicks: nat, repeatCount: nat,
      ghost pending: SequenceState) returns (id: nat)
      requires ValidWith(pending)
      modifies this`nextPayloadId, this`calls, this`timerToPayload, scheduler
      ensures ValidWith(pending)
      ensures var t := Task(old(scheduler.nextId), SaturatedAdd(tick, NormalizedDelay(delayTicks)), intervalTicks, repeatCount, old(nextPayloadId));
              if target == 0 || callback == "" || old(nextPayloadId) == 0 || old(scheduler.nextId) == 0 || (Repeats(t) && intervalTicks == 0)
              then id == 0 && Maps() == old(Maps()) && scheduler.tasks == old(scheduler.tasks)
              else
                && id == t.id && id !in old(timerToPayload) && old(nextPayloadId) !in old(calls) && id !in old(scheduler.tasks)
                && scheduler.tasks == old(scheduler.tasks)[id := t]
                && Maps() == AddCall(old(Maps()), Call(old(nextPayloadId), id, target, callback, arguments))
                && nextPayloadId == Bump(old(nextPayloadId)) && scheduler.nextId == Bump(id)
      ensures id == 0 ==>
        && scheduler.nextId == old(scheduler.nextId)
        && nextPayloadId == (if target == 0 || callback == "" || NeedsInterval(intervalTicks, repeatCount) then old(nextPayloadId)
                             else Skipped(old(nextPayloadId)))
      ensures old(Attached(scheduler.tasks, Maps())) ==> Attached(scheduler.tasks, Maps())
    {
      hide Consistent, Linked, Owned, Counted, Attached, SubscriptionsOk;
      if target == 0 || callback == "" || nextPayloadId == 0 { return 0; }
      if (repeatCount == REPEAT_FOREVER || repeatCount > 1) && intervalTicks == 0 { return 0; }
      var payloadId := nextPayloadId;
      NewIdsAreFresh(scheduler.tasks, Maps(), pending, payloadId, nextSequenceId, scheduler.nextId);
      CountersMayStop(scheduler.tasks, Maps(), pending, payloadId, nextSequenceId, scheduler.nextId);
      ghost var tasks, timer := scheduler.tasks, scheduler.nextId;
      nextPayloadId := Bump(nextPayloadId);
      id := scheduler.ScheduleAfter(tick, NormalizedDelay(delayTicks), payloadId, intervalTicks, repeatCount);
      if id == 0 { return 0; }
      var call := Call(payloadId, id, target, callback, arguments);
      ScheduleKeepsConsistent(tasks, Maps(), pending, payloadId, nextSequenceId, timer, scheduler.tasks[id], call);
      calls := calls[payloadId := call];
      timerToPayload := timerToPayload[id := payloadId];
    }

    method DetachTimerFromSequences(timerId: nat)
      modifies this`timerToSequence, this`sequences
      ensures Maps() == Detach(old(Maps()), timerId)
    {
      if timerId !in timerToSequence { return; }
      var sequenceId := timerToSequence[timerId];
      timerToSequence := timerToSequence - {timerId};
      if sequenceId !in sequences { return; }
      var timers := Without(sequences[sequenceId].timers, timerId);
      sequences := sequences[sequenceId := sequences[sequenceId].(timers := timers)];
      if timers == [] {
        assert sequences - {sequenceId} == old(sequences) - {sequenceId};
        sequences := sequences - {sequenceId};
      }
    }

    method EraseCall(timerId: nat, cancelScheduler: bool, ghost pending: SequenceState) returns (found: bool)
      requires ValidWith(pending) && (cancelScheduler || timerId !in scheduler.tasks)
      modifies this`calls, this`timerToPayload, this`sequences, this`timerToSequence, scheduler
      ensures ValidWith(PendingWithout(pending, timerId))
      ensures found <==> timerId in old(timerToPayload)
      ensures Maps() == Erase(old(Maps()), timerId)
      ensures scheduler.tasks == old(scheduler.tasks) - {timerId} && scheduler.nextId == old(scheduler.nextId)
      ensures old(Attached(scheduler.tasks, Maps())) ==> Attached(scheduler.tasks, Maps())
    {
      hide Consistent, Linked, Attached, SubscriptionsOk;
      EraseKeepsConsistent(scheduler.tasks, Maps(), pending, nextPayloadId, nextSequenceId, scheduler.nextId, timerId);
      found := timerId in timerToPayload;
      if !found { return; }
      var payloadId := timerToPayload[timerId];
      if cancelScheduler {
        var _ := scheduler.Cancel(timerId);
      } else {
        assert scheduler.tasks - {timerId} == scheduler.tasks;
      }
      timerToPayload := timerToPayload - {timerId};
      calls := calls - {payloadId};
      DetachTimerFromSequences(timerId);
    }

    method CancelCall(timerId: nat) returns (found: bool)
      requires Valid()
      modifies this`calls, this`timerToPayload, this`sequences, this`timerToSequence, scheduler
      ensures Valid()
      ensures found <==> timerId in old(timerToPayload)
      ensures Maps() == Erase(old(Maps()), timerId)
      ensures scheduler.tasks == old(scheduler.tasks) - {timerId} && scheduler.nextId == old(scheduler.nextId)
      ensures old(Attached(scheduler.tasks, Maps())) ==> Attached(scheduler.tasks, Maps())
    {
      NoPending(timerId);
      found := EraseCall(timerId, true, NoSequence);
    }
  
    // ----- sequences -----

    /** Cancel, in order, the timers of steps 0 to n - 1. */
    method TakeBack(ghost plan: Plan, timers: seq<nat>, ghost tasks: Tasks, ghost l: Links)
      requires plan.id != 0 && |timers| <= |plan.steps| && timers == PlannedTimers(plan, |timers|)
      requires ValidWith(SequenceState(plan.id, timers)) && (timers != [] ==> Unused(tasks, l, plan))
      requires Maps() == Built(l, plan, 0, |timers|) && scheduler.tasks == BuiltTasks(tasks, plan, 0, |timers|)
      modifies this`calls, this`timerToPayload, this`sequences, this`timerToSequence, scheduler
      ensures Valid() && Maps() == l && scheduler.tasks == tasks && scheduler.nextId == old(scheduler.nextId)
    {
      hide Consistent, SubscriptionsOk, Erase, Unused, Without, Attached;
      assert timers[0..] == timers;
      for j := 0 to |timers|
        invariant ValidWith(SequenceState(plan.id, timers[j..]))
        invariant Maps() == Built(l, plan, j, |timers|) && scheduler.tasks == BuiltTasks(tasks, plan, j, |timers|)
        invariant scheduler.nextId == old(scheduler.nextId)
      {
        hide Built, BuiltTasks, PlannedTimers;
        TakeBackOne(plan, timers, tasks, l, j);
        var _ := EraseCall(timers[j], true, SequenceState(plan.id, timers[j..]));
      }
      assert timers[|timers|..] == [];
      AbandonKeepsConsistent(scheduler.tasks, Maps(), plan.id, nextPayloadId, nextSequenceId, scheduler.nextId);
    }
  
    method StartSequence(target: nat, steps: seq<Step>, repeatCount: nat) returns (id: nat)
      requires Valid()
      modifies this`nextPayloadId, this`nextSequenceId, this`calls, this`timerToPayload, this`timerToSequence,
          this`sequences, scheduler
      ensures Valid()
      ensures old(Attached(scheduler.tasks, Maps())) ==> Attached(scheduler.tasks, Maps())
      ensures var plan := Plan(old(nextSequenceId), old(scheduler.nextId), old(nextPayloadId), tick, target, steps, repeatCount);
              if Startable(plan) then
                && id == plan.id && scheduler.tasks == BuiltTasks(old(scheduler.tasks), plan, 0, |steps|)
                && Maps() == Started(old(Maps()), plan)
              else id == 0 && Maps() == old(Maps()) && scheduler.tasks == old(scheduler.tasks)
      ensures if target == 0 || steps == [] || old(nextSequenceId) == 0 || !Sensible(steps)
              then nextSequenceId == old(nextSequenceId) && nextPayloadId == old(nextPayloadId) && scheduler.nextId == old(scheduler.nextId)
              else nextSequenceId == Bump(old(nextSequenceId)) &&
                   Counters(nextPayloadId, scheduler.nextId) == AfterDraws(Counters(old(nextPayloadId), old(scheduler.nextId)), |steps|)
    {
      hide Consistent, SubscriptionsOk, Unused, Attached, AfterDraws, Sensible, Linked, Built, BuiltTasks, PlannedTimers;
      if target == 0 || steps == [] || nextSequenceId == 0 { return 0; }
      var sensible, cycleTicks := CycleTicksOf(steps);
      if !sensible { return 0; }
      ghost var plan := Plan(nextSequenceId, scheduler.nextId, nextPayloadId, tick, target, steps, repeatCount);
      ghost var tasks, l := scheduler.tasks, Maps();
      OpenKeepsConsistent(tasks, l, nextPayloadId, nextSequenceId, scheduler.nextId);
      StartsUnused(tasks, l, plan);
      id := nextSequenceId;
      nextSequenceId := Bump(nextSequenceId);
      var started, timers := StartSteps(plan, tasks, l, id, target, steps, cycleTicks, repeatCount);
      if !started { return 0; }
      CloseKeepsConsistent(scheduler.tasks, Maps(), SequenceState(id, timers), nextPayloadId, nextSequenceId, scheduler.nextId);
      sequences := sequences[id := SequenceState(id, timers)];
    }

    /** The second loop of startSequence: one call for each step, or none at all. */
    method StartSteps(
      ghost plan: Plan, ghost tasks: Tasks, ghost l: Links, id: nat, target: nat, steps: seq<Step>, cycleTicks: nat,
      repeatCount: nat)
      returns (started: bool, timers: seq<nat>)
      requires plan == Plan(id, scheduler.nextId, nextPayloadId, tick, target, steps, repeatCount)
      requires id != 0 && target != 0 && steps != [] && Sensible(steps) && cycleTicks == TicksUpTo(steps, |steps|)
      requires ValidWith(SequenceState(id, [])) && (plan.firstPayload != 0 && plan.firstTimer != 0 ==> Unused(tasks, l, plan))
      requires Maps() == l && scheduler.tasks == tasks
      modifies this`nextPayloadId, this`calls, this`timerToPayload, this`timerToSequence, this`sequences, scheduler
      ensures started <==> Drawn(plan, |steps|)
      ensures !started ==> Valid() && Maps() == l && scheduler.tasks == tasks
      ensures started ==>
        && timers == PlannedTimers(plan, |steps|) && timers != [] && ValidWith(SequenceState(id, timers))
        && Maps() == Built(l, plan, 0, |steps|) && scheduler.tasks == BuiltTasks(tasks, plan, 0, |steps|)
      ensures Counters(nextPayloadId, scheduler.nextId) == AfterDraws(Counters(old(nextPayloadId), old(scheduler.nextId)), |steps|)
      ensures old(Attached(scheduler.tasks, Maps())) ==> Attached(scheduler.tasks, Maps())
    {
      hide Consistent, SubscriptionsOk, Unused, Attached, Starting, AfterDraw, AfterDraws, Linked, Built, BuiltTasks;
      timers := [];
      var dueOffset := 0;
      NothingBuilt(tasks, l, plan, Maps());
      for x := 0 to |steps|
        invariant ValidWith(SequenceState(id, timers)) && dueOffset == TicksUpTo(steps, x)
        invariant Starting(plan, tasks, l, x, timers, scheduler.tasks, Maps(), nextPayloadId, scheduler.nextId)
        invariant Attached(tasks, l) ==> Attached(scheduler.tasks, Maps())
        invariant AfterDraws(Counters(nextPayloadId, scheduler.nextId), |steps| - x) ==
                  AfterDraws(Counters(old(nextPayloadId), old(scheduler.nextId)), |steps|)
      {
        StepStaysBelow(steps, x);
        OneMoreDraw(Counters(nextPayloadId, scheduler.nextId), |steps| - x);
        StartingIsBuilt(plan, tasks, l, x, timers, scheduler.tasks, Maps(), nextPayloadId, scheduler.nextId);
        dueOffset := SaturatedAdd(dueOffset, NormalizedDelay(steps[x].delayTicks));
        var timerId := StartStep(plan, tasks, l, x, id, timers, target, steps[x], dueOffset, cycleTicks, repeatCount);
        if timerId == 0 {
          DrawnLess(plan, x + 1, |steps|);
          TakeBack(plan, timers, tasks, l);
          return false, [];
        }
        timers := timers + [timerId];
      }
      NoMoreDraws(Counters(nextPayloadId, scheduler.nextId));
      StartingIsBuilt(plan, tasks, l, |steps|, timers, scheduler.tasks, Maps(), nextPayloadId, scheduler.nextId);
      started := true;
    }

    /** One turn of the loop: the call of step x and its place in the sequence. */
    method StartStep(
      ghost plan: Plan, ghost tasks: Tasks, ghost l: Links, x: nat, id: nat, timers: seq<nat>,
      target: nat, step: Step, dueOffset: nat, cycleTicks: nat, repeatCount: nat)
      returns (timerId: nat)
      requires x < |plan.steps| && plan.steps[x] == step
      requires plan.id == id && plan.target == target && plan.repeatCount == repeatCount && plan.tick == tick
      requires target != 0 && step.callback != ""
      requires dueOffset == TicksUpTo(plan.steps, x + 1) && cycleTicks == TicksUpTo(plan.steps, |plan.steps|) &&
          0 < dueOffset <= cycleTicks
      requires ValidWith(SequenceState(id, timers)) && id != 0 && (plan.firstPayload != 0 && plan.firstTimer != 0 ==> Unused(tasks, l, plan))
      requires Starting(plan, tasks, l, x, timers, scheduler.tasks, Maps(), nextPayloadId, scheduler.nextId)
      modifies this`nextPayloadId, this`calls, this`timerToPayload, this`timerToSequence, scheduler
      ensures timerId == 0 <==> !Drawn(plan, x + 1)
      ensures Counters(nextPayloadId, scheduler.nextId) == AfterDraw(Counters(old(nextPayloadId), old(scheduler.nextId)))
      ensures timerId == 0 <==> old(nextPayloadId) == 0 || old(scheduler.nextId) == 0
      ensures timerId == 0 ==> ValidWith(SequenceState(id, timers)) && Maps() == old(Maps()) && scheduler.tasks == old(scheduler.tasks)
      ensures timerId != 0 ==> ValidWith(SequenceState(id, timers + [timerId]))
      ensures timerId != 0 ==> Starting(plan, tasks, l, x + 1, timers + [timerId], scheduler.tasks, Maps(), nextPayloadId, scheduler.nextId)
      ensures old(Attached(scheduler.tasks, Maps())) ==> Attached(scheduler.tasks, Maps())
    {
      hide Consistent, SubscriptionsOk, Unused, Attached, TicksUpTo, Starting, AddCall, AddTimer, Drawn;
      NextStepBuilds(plan, tasks, l, x, timers, scheduler.tasks, Maps(), nextPayloadId, scheduler.nextId);
      timerId := ScheduleCall(target, step.callback, dueOffset, step.arguments,
                              if repeatCount == 1 then 0 else cycleTicks, repeatCount, SequenceState(id, timers));
      if timerId != 0 {
        AddTimerKeepsConsistent(scheduler.tasks, Maps(), SequenceState(id, timers), nextPayloadId, nextSequenceId,
            scheduler.nextId, timerId);
        AddedTimer(Maps(), id, timerId);
        timerToSequence := timerToSequence[timerId := id];
      }
    }
  
    method CancelSequence(sequenceId: nat) returns (found: bool)
      requires Valid()
      modifies this`calls, this`timerToPayload, this`timerToSequence, this`sequences, scheduler
      ensures Valid()
      ensures old(Attached(scheduler.tasks, Maps())) ==> Attached(scheduler.tasks, Maps())
      ensures scheduler.nextId == old(scheduler.nextId)
      ensures found <==> sequenceId in old(sequences)
      ensures !found ==> Maps() == old(Maps()) && scheduler.tasks == old(scheduler.tasks)
      ensures found ==>
        && sequenceId !in sequences
        && Maps() == EraseEach(old(Maps()), old(sequences[sequenceId].timers))
        && scheduler.tasks == RemoveAll(old(scheduler.tasks), old(sequences[sequenceId].timers))
    {
      if sequenceId !in sequences { return false; }
      hide Consistent, SubscriptionsOk, Attached, Erase, EraseEach, RemoveAll;
      var timers := sequences[sequenceId].timers;
      ghost var l, tasks := Maps(), scheduler.tasks;
      GoneWhenErased(tasks, l, nextPayloadId, nextSequenceId, scheduler.nextId, sequenceId);
      NoneErased(l, tasks);
      for j := 0 to |timers|
        invariant Valid() && Maps() == EraseEach(l, timers[..j]) && scheduler.nextId == old(scheduler.nextId)
        invariant scheduler.tasks == RemoveAll(tasks, timers[..j])
        invariant Attached(tasks, l) ==> Attached(scheduler.tasks, Maps())
      {
        NoPending(timers[j]);
        OneMoreErased(l, tasks, timers, j);
        var _ := EraseCall(timers[j], true, NoSequence);
      }
      assert timers[..|timers|] == timers;
      assert sequences - {sequenceId} == sequences;
      sequences := sequences - {sequenceId};
      return true;
    }

    // ----- events -----

    method Subscribe(topic: string, target: nat, callback: string, priority: int) returns (id: nat)
      requires Valid()
      modifies this`nextSubscriptionId, this`subscriptions
      ensures Valid()
      ensures if topic == "" || target == 0 || callback == "" || old(nextSubscriptionId) == 0
              then id == 0 && subscriptions == old(subscriptions) && nextSubscriptionId == old(nextSubscriptionId)
              else id == old(nextSubscriptionId) && id !in old(subscriptions) && nextSubscriptionId == Bump(id) &&
                   subscriptions == old(subscriptions)[id := Subscription(id, topic, target, callback, priority)]
    {
      if topic == "" || target == 0 || callback == "" || nextSubscriptionId == 0 { return 0; }
      id := nextSubscriptionId;
      nextSubscriptionId := Bump(nextSubscriptionId);
      subscriptions := subscriptions[id := Subscription(id, topic, target, callback, priority)];
    }

    method Unsubscribe(id: nat) returns (found: bool)
      requires Valid()
      modifies this`subscriptions
      ensures Valid() && (found <==> id in old(subscriptions)) && subscriptions == old(subscriptions) - {id}
    {
      found := id in subscriptions;
      subscriptions := subscriptions - {id};
    }

    /** An event for everyone subscribed to the topic when it is due. */
    method Publish(topic: string, arguments: seq<GameplayValue>, delayTicks: nat) returns (sequence: nat)
      requires Valid()
      modifies events
      ensures Valid()
      ensures sequence == (if topic == "" || old(events.nextSequence) == ULONG_MAX then 0 else old(events.nextSequence))
      ensures var e := Event(SaturatedAdd(tick, NormalizedDelay(delayTicks)), sequence, 0, topic, arguments);
              events.events == (if sequence == 0 then old(events.events) else Events.Inserted(old(events.events), e)) &&
              forall x :: x in events.events <==> x in old(events.events) || (sequence != 0 && x == e)
      ensures events.nextSequence == if sequence == 0 then old(events.nextSequence) else sequence + 1
    {
      sequence := events.Enqueue(Event(SaturatedAdd(tick, NormalizedDelay(delayTicks)), 0, 0, topic, arguments));
    }

    method EnqueueDirect(target: nat, callback: string, arguments: seq<GameplayValue>, delayTicks: nat) returns (sequence: nat)
      requires Valid()
      modifies events
      ensures Valid()
      ensures sequence == (if target == 0 || callback == "" || old(events.nextSequence) == ULONG_MAX then 0 else old(events.nextSequence))
      ensures var e := Event(SaturatedAdd(tick, NormalizedDelay(delayTicks)), sequence, target, callback, arguments);
              events.events == (if sequence == 0 then old(events.events) else Events.Inserted(old(events.events), e)) &&
              forall x :: x in events.events <==> x in old(events.events) || (sequence != 0 && x == e)
      ensures events.nextSequence == if sequence == 0 then old(events.nextSequence) else sequence + 1
    {
      if target == 0 { return 0; }
      sequence := events.Enqueue(Event(SaturatedAdd(tick, NormalizedDelay(delayTicks)), 0, target, callback, arguments));
    }

    method CancelEvent(sequence: nat) returns (found: bool)
      requires Valid()
      modifies events
      ensures Valid()
      ensures found <==> exists e :: e in old(events.events) && e.sequence == sequence
      ensures forall e :: e in events.events <==> e in old(events.events) && e.sequence != sequence
      ensures events.events == Events.Removed(old(events.events), sequence) && events.nextSequence == old(events.nextSequence)
    {
      found := events.Cancel(sequence);
    }
  
    // ----- draining -----

    /** What is due goes to the scripts: the run's timers in firing order, each with its call, then
        the events.  A timer's last firing takes its call along.  Afterwards every call still has its
        timer exactly when the run did not drop a repeating task at the end of the tick range. */
    method DrainDue(currentTick: nat, timerBudget: nat, eventBudget: nat)
      returns (batch: seq<DispatchCall>, ghost fired: seq<FiredTask>, ghost popped: seq<Event>)
      requires Valid()
      modifies this`calls, this`timerToPayload, this`timerToSequence, this`sequences, scheduler, events
      ensures Valid()
      ensures Firing(fired, scheduler.tasks) == RunDue(old(scheduler.tasks), currentTick, timerBudget)
      ensures scheduler.nextId == old(scheduler.nextId) && events.nextSequence == old(events.nextSequence)
      ensures old(events.events) == popped + events.events && |popped| <= eventBudget
      ensures |popped| == DueCount(old(events.events), currentTick, eventBudget)
      ensures forall e :: e in popped ==> e.dueTick <= currentTick
      ensures |popped| < eventBudget ==> forall e :: e in events.events ==> e.dueTick > currentTick
      ensures batch == TimerDispatches(old(calls), fired) + EventDispatches(subscriptions, popped)
      ensures Maps() == EraseEach(old(Maps()), EndedIds(fired))
      ensures old(Attached(scheduler.tasks, Maps())) ==>
              (Attached(scheduler.tasks, Maps()) <==> !FiresOverflowing(old(scheduler.tasks), currentTick, timerBudget))
    {
      hide Consistent, SubscriptionsOk, Attached, RunDue, TimerDispatches, EraseEach, EndedIds, FiresOverflowing, EventDispatches;
      var timers, consumed := DrainTimers(currentTick, timerBudget);
      var due := events.PopDue(currentTick, eventBudget);
      var heard := DispatchEvents(due);
      batch, fired, popped := timers + heard, consumed, due;
    }

    /** The loop over the popped events: one call for a direct event, else one for each subscriber. */
    method DispatchEvents(due: seq<Event>) returns (batch: seq<DispatchCall>)
      ensures batch == EventDispatches(subscriptions, due)
    {
      batch := [];
      for k := 0 to |due|
        invariant batch == EventDispatches(subscriptions, due[..k])
      {
        assert due[..k + 1][..k] == due[..k];
        var event := due[k];
        if event.target != 0 {
          batch := batch + [DispatchCall(event.target, event.topic, event.arguments, 0, event.sequence)];
          continue;
        }
        var subscribers := Subscribers(subscriptions, event.topic);
        batch := batch + ToSubscribers(subscribers, event);
      }
      assert due[..|due|] == due;
    }

    /** The loop over the fired timers. */
    method DrainTimers(currentTick: nat, budget: nat) returns (batch: seq<DispatchCall>, fired: seq<FiredTask>)
      requires Valid()
      modifies this`calls, this`timerToPayload, this`timerToSequence, this`sequences, scheduler
      ensures Valid() && scheduler.nextId == old(scheduler.nextId)
      ensures Firing(fired, scheduler.tasks) == RunDue(old(scheduler.tasks), currentTick, budget)
      ensures batch == TimerDispatches(old(calls), fired)
      ensures Maps() == EraseEach(old(Maps()), EndedIds(fired))
      ensures old(Attached(scheduler.tasks, Maps())) ==>
              (Attached(scheduler.tasks, Maps()) <==> !FiresOverflowing(old(scheduler.tasks), currentTick, budget))
    {
      hide Linked, Owned, Counted, Attached, SubscriptionsOk, Erase, EraseEach, RunDue, FiresOverflowing, RunReports;
      ghost var tasks, l := scheduler.tasks, Maps();
      DrainKeepsOwned(tasks, l, currentTick, budget);
      fired := scheduler.RunQueue(currentTick, budget);
      ghost var r := Firing(fired, scheduler.tasks);
      NoneErased(l, tasks);
      batch := [];
      for i := 0 to |fired|
        invariant Valid() && Maps() == EraseEach(l, EndedIds(fired[..i]))
        invariant scheduler.tasks == r.tasks && scheduler.nextId == old(scheduler.nextId)
        invariant batch == TimerDispatches(l.calls, fired[..i])
      {
        hide Consistent, TimerDispatches, EndedIds;
        OneMoreDrained(l, fired, i);
        StillCalled(tasks, l, r, i);
        var task := fired[i];
        if task.payload in calls {
          var call := calls[task.payload];
          batch := batch + [DispatchCall(call.target, call.callback, call.arguments, task.id, 0)];
          if !task.repeats {
            NoPending(task.id);
            var _ := EraseCall(task.id, false, NoSequence);
          }
        }
      }
      assert fired[..|fired|] == fired;
    }

    // ----- saved states -----

    method Snapshot() returns (state: HostSnapshot)
      requires Valid()
      ensures state == HostSnapshot(
        SchedulerState(scheduler.nextId, Values(scheduler.tasks)), EventState(events.nextSequence, events.events), tick,
        nextPayloadId, nextSubscriptionId, nextSequenceId, Values(calls), Values(subscriptions), Values(sequences))
    {
      var timers := scheduler.Snapshot();
      state := HostSnapshot(timers, EventState(events.nextSequence, events.events), tick,
                            nextPayloadId, nextSubscriptionId, nextSequenceId,
                            Values(calls), Values(subscriptions), Values(sequences));
    }

    /** A state is taken or refused as a whole.  What restore accepts has consistent maps; it is a
        valid host again when the saved timers all belong to saved calls. */
    method Restore(state: HostSnapshot) returns (ok: bool)
      requires Valid() && NumbersFit(state)
      modifies this, scheduler, events
      ensures ok <==> Acceptable(state)
      ensures !ok ==> Valid() && unchanged(this) && unchanged(scheduler) && unchanged(events)
      ensures ok ==>
        && tick == state.tick && scheduler.nextId == state.scheduler.nextId &&
            scheduler.tasks == Emplaced(state.scheduler.tasks, TaskId)
        && nextPayloadId == state.nextPayloadId && nextSubscriptionId == state.nextSubscriptionId &&
            nextSequenceId == state.nextSequenceId
        && events.Valid() && events.nextSequence == state.events.nextSequence && (forall e :: e in events.events <==> e in state.events.events)
        && (Events.InOrder(state.events.events) ==> events.events == state.events.events)
        && calls == Emplaced(state.calls, CallKey) && sequences == Emplaced(state.sequences, SequenceKey)
        && subscriptions == Emplaced(state.subscriptions, SubscriptionKey)
        && Linked(Maps(), NoSequence) && Attached(scheduler.tasks, Maps())
      ensures ok ==> (Valid() <==> Owned(scheduler.tasks, Maps()))
    {
      hide Consistent, Linked, Owned, Attached, SubscriptionsOk, Acceptable, NumbersFit, Emplaced, Agrees, TasksOk,
        EventsRestorable, Events.InOrder;
      var acceptable, core, queue, links, newSubscriptions := Rebuilt(state);
      if !acceptable { return false; }
      scheduler.MoveFrom(core);
      events.MoveFrom(queue);
      tick := state.tick;
      nextPayloadId, nextSubscriptionId, nextSequenceId := state.nextPayloadId, state.nextSubscriptionId, state.nextSequenceId;
      calls, timerToPayload, subscriptions := links.calls, links.timerToPayload, newSubscriptions;
      sequences, timerToSequence := links.sequences, links.timerToSequence;
      assert Maps() == links;
      return true;
    }
  }

  /** The part of restore that checks and rebuilds on the side. */
  method Rebuilt(state: HostSnapshot)
    returns (ok: bool, core: TickScheduler, queue: DeterministicEventQueue, links: Links, subscriptions: map<nat, Subscription>)
    requires NumbersFit(state)
    ensures fresh(core) && fresh(queue)
    ensures ok <==> Acceptable(state)
    ensures ok ==> core.Valid() && core.nextId == state.scheduler.nextId && core.tasks == Emplaced(state.scheduler.tasks, TaskId)
    ensures ok ==> queue.Valid() && queue.nextSequence == state.events.nextSequence && forall e :: e in queue.events <==> e in state.events.events
    ensures ok ==> (Events.InOrder(state.events.events) ==> queue.events == state.events.events)
    ensures ok ==> links.calls == Emplaced(state.calls, CallKey) && links.sequences == Emplaced(state.sequences, SequenceKey)
    ensures ok ==> subscriptions == Emplaced(state.subscriptions, SubscriptionKey) && SubscriptionsOk(subscriptions, state.nextSubscriptionId)
    ensures ok ==> Linked(links, NoSequence) && Attached(core.tasks, links)
    ensures ok ==> (Owned(core.tasks, links) <==>
                    Consistent(core.tasks, links, NoSequence, state.nextPayloadId, state.nextSequenceId, core.nextId))
    ensures ok ==> BoundsHold(state)
  {
    hide Consistent, Linked, Owned, Attached, Counted, SubscriptionsOk, Restorable, EventsRestorable, CallsRestorable,
      SubscriptionsRestorable, SequencesRestorable, CallsLinked, SequencesFilled, TimersOf, Emplaced;
    ok, links, subscriptions := false, Links(map[], map[], map[], map[]), map[];
    core := new TickScheduler();
    queue := new DeterministicEventQueue();
    if state.nextPayloadId == 0 || state.nextSubscriptionId == 0 || state.nextSequenceId == 0 { return; }
    var timersOk := core.Restore(state.scheduler);
    if !timersOk { return; }
    var eventsOk := queue.Restore(state.events);
    if !eventsOk { return; }
    var callsOk, calls, timerToPayload := RebuildCalls(core.tasks, state.calls, state.nextPayloadId);
    if !callsOk { return; }
    var subscriptionsOk, newSubscriptions := RebuildSubscriptions(state.subscriptions, state.nextSubscriptionId);
    if !subscriptionsOk { return; }
    var sequencesOk, sequences, timerToSequence := RebuildSequences(timerToPayload.Keys, state.sequences, state.nextSequenceId);
    if !sequencesOk { return; }
    ok, links, subscriptions := true, Links(calls, timerToPayload, sequences, timerToSequence), newSubscriptions;
    RestoredMaps(state, links, timerToPayload, timerToSequence);
  }

  predicate BoundsHold(state: HostSnapshot) {
    && state.nextPayloadId <= ULONG_MAX && state.nextSubscriptionId <= ULONG_MAX && state.nextSequenceId <= ULONG_MAX
    && state.tick <= MAX_TICK
  }

  /** The saved numbers are numbers of their C++ types. */
  predicate NumbersFit(state: HostSnapshot) {
    && state.scheduler.nextId <= ULONG_MAX && state.events.nextSequence <= ULONG_MAX && state.tick <= MAX_TICK
    && state.nextPayloadId <= ULONG_MAX && state.nextSubscriptionId <= ULONG_MAX && state.nextSequenceId <= ULONG_MAX
  }

  lemma OneMoreDrained(l: Links, fired: seq<FiredTask>, i: nat)
    requires i < |fired|
    ensures TimerDispatches(l.calls, fired[..i + 1]) == TimerDispatches(l.calls, fired[..i]) + DispatchOf(l.calls, fired[i])
    ensures EraseEach(l, EndedIds(fired[..i + 1])) ==
            if fired[i].repeats then EraseEach(l, EndedIds(fired[..i])) else Erase(EraseEach(l, EndedIds(fired[..i])), fired[i].id)
  {
    assert fired[..i + 1][..i] == fired[..i];
    if !fired[i].repeats {
      var before := EndedIds(fired[..i]);
      assert (before + [fired[i].id])[..|before|] == before;
    }
  }

  /** What the rebuilt maps satisfy. */
  lemma RestoredMaps(state: HostSnapshot, l: Links, timerToPayload: map<nat, nat>, timerToSequence: map<nat, nat>)
    requires Acceptable(state)
    requires l == Links(Emplaced(state.calls, CallKey), timerToPayload, Emplaced(state.sequences, SequenceKey), timerToSequence)
    requires timerToPayload.Keys == TimersOf(state.calls) && CallsLinked(Links(l.calls, timerToPayload, map[], map[]))
    requires SequencesFilled(state.sequences, Links(map[], map[], l.sequences, timerToSequence))
    ensures Linked(l, NoSequence) && Attached(Emplaced(state.scheduler.tasks, TaskId), l)
    ensures Owned(Emplaced(state.scheduler.tasks, TaskId), l) <==>
            Consistent(Emplaced(state.scheduler.tasks, TaskId), l, NoSequence, state.nextPayloadId, state.nextSequenceId,
                state.scheduler.nextId)
    ensures SubscriptionsOk(Emplaced(state.subscriptions, SubscriptionKey), state.nextSubscriptionId)
  {
    hide Emplaced, TimersOf, EventsRestorable, Restorable, SequenceLinked, Members;
    SameLinks(l, timerToPayload, timerToSequence, state.sequences);
    RestoredIsLinked(TimersOf(state.calls), state.sequences, state.nextSequenceId, l);
    EmplacedFromList(state.subscriptions, SubscriptionKey);
    RestoredCounts(state, l);
  }

  lemma SameLinks(l: Links, timerToPayload: map<nat, nat>, timerToSequence: map<nat, nat>, sequences: seq<SequenceState>)
    requires l.timerToPayload == timerToPayload && l.timerToSequence == timerToSequence
    requires CallsLinked(Links(l.calls, timerToPayload, map[], map[]))
    requires SequencesFilled(sequences, Links(map[], map[], l.sequences, timerToSequence))
    ensures CallsLinked(l) && SequencesFilled(sequences, l)
  {
  }

  lemma RestoredCounts(state: HostSnapshot, l: Links)
    requires Acceptable(state) && CallsLinked(l) && l.calls == Emplaced(state.calls, CallKey)
    requires SequencesFilled(state.sequences, l)
    ensures Attached(Emplaced(state.scheduler.tasks, TaskId), l)
    ensures Counted(l, state.nextPayloadId, state.nextSequenceId, state.scheduler.nextId)
  {
    hide Emplaced, TimersOf, EventsRestorable, SequencesFilled;
    var tasks := Emplaced(state.scheduler.tasks, TaskId);
    EmplacedFromList(state.calls, CallKey);
    FilledSequences(state.sequences, l);
    EmplacedFromList(state.scheduler.tasks, TaskId);
    forall t | t in l.timerToPayload
      ensures t in tasks && tasks[t].payload == l.timerToPayload[t] && t < state.scheduler.nextId
    {
      var c := l.calls[l.timerToPayload[t]];
      assert c in state.calls && TimerServes(tasks, c);
      var i :| 0 <= i < |state.scheduler.tasks| && state.scheduler.tasks[i] == tasks[t];
    }
  }

  lemma FilledSequences(sequences: seq<SequenceState>, l: Links)
    requires SequencesFilled(sequences, l)
    ensures forall s :: s in l.sequences ==> l.sequences[s] in sequences && l.sequences[s].id == s
  {
    EmplacedFromList(sequences, SequenceKey);
  }

  lemma NoneErased(l: Links, tasks: Tasks)
    ensures EraseEach(l, []) == l && RemoveAll(tasks, []) == tasks
  {
  }

  lemma OneMoreErased(l: Links, tasks: Tasks, timers: seq<nat>, j: nat)
    requires j < |timers|
    ensures EraseEach(l, timers[..j + 1]) == Erase(EraseEach(l, timers[..j]), timers[j])
    ensures RemoveAll(tasks, timers[..j + 1]) == RemoveAll(tasks, timers[..j]) - {timers[j]}
  {
    assert timers[..j + 1][..j] == timers[..j];
    RemoveOneMore(tasks, timers[..j + 1]);
  }

  lemma GoneWhenErased(tasks: Tasks, l: Links, p: nat, s: nat, t: nat, sequenceId: nat)
    requires Consistent(tasks, l, NoSequence, p, s, t) && sequenceId in l.sequences
    ensures sequenceId !in EraseEach(l, l.sequences[sequenceId].timers).sequences
  {
    NoTimersNoSequence(l, sequenceId);
  }

  lemma AddedTimer(l: Links, id: nat, timer: nat)
    ensures AddTimer(l, id, timer) == Links(l.calls, l.timerToPayload, l.sequences, l.timerToSequence[timer := id])
  {
  }

  /** What step x will have built when the scheduler hands out its next id. */
  lemma NextStepBuilds(
    plan: Plan, tasks: Tasks, l: Links, x: nat, timers: seq<nat>, nowTasks: Tasks, now: Links, p: nat, t: nat)
    requires Starting(plan, tasks, l, x, timers, nowTasks, now, p, t) && x < |plan.steps|
    requires plan.firstPayload != 0 && plan.firstTimer != 0 ==> Unused(tasks, l, plan)
    ensures p != 0 && t != 0 <==> Drawn(plan, x + 1)
    ensures p != 0 && t != 0 ==>
      && p == plan.firstPayload + x && t == plan.firstTimer + x && t in AddCall(now, PlannedCall(plan, x)).timerToPayload
      && t !in AddCall(now, PlannedCall(plan, x)).timerToSequence
      && Starting(plan, tasks, l, x + 1, timers + [t], nowTasks[t := PlannedTask(plan, x)],
                  AddTimer(AddCall(now, PlannedCall(plan, x)), plan.id, t), Bump(p), Bump(t))
  {
    hide Unused;
    if p != 0 && t != 0 { StepIsFree(tasks, l, plan, x); }
  }

  lemma StepIsFree(tasks: Tasks, l: Links, plan: Plan, x: nat)
    requires Unused(tasks, l, plan) && x < |plan.steps|
    ensures plan.firstTimer + x !in Built(l, plan, 0, x).timerToSequence
  {
    BuiltKeys(tasks, l, plan, 0, x);
  }

  /** Where a start stands before step x: what it has built and how far the counters are. */
  ghost predicate Starting(
    plan: Plan, tasks: Tasks, l: Links, x: nat, timers: seq<nat>, nowTasks: Tasks, now: Links, nextPayloadId: nat,
        nextTimerId: nat)
  {
    && x <= |plan.steps| && timers == PlannedTimers(plan, x)
    && now == Built(l, plan, 0, x) && nowTasks == BuiltTasks(tasks, plan, 0, x)
    && nextPayloadId == BumpBy(plan.firstPayload, x) && nextTimerId == BumpBy(plan.firstTimer, x)
    && (x > 0 ==> Drawn(plan, x))
  }

  lemma StartingIsBuilt(
    plan: Plan, tasks: Tasks, l: Links, x: nat, timers: seq<nat>, nowTasks: Tasks, now: Links, nextPayloadId: nat,
        nextTimerId: nat)
    requires Starting(plan, tasks, l, x, timers, nowTasks, now, nextPayloadId, nextTimerId)
    ensures x == |timers| && timers == PlannedTimers(plan, x)
    ensures now == Built(l, plan, 0, x) && nowTasks == BuiltTasks(tasks, plan, 0, x)
    ensures x > 0 ==> Drawn(plan, x)
  {
  }

  lemma NothingBuilt(tasks: Tasks, l: Links, plan: Plan, now: Links)
    requires now == l && plan.firstPayload <= ULONG_MAX && plan.firstTimer <= ULONG_MAX
    ensures Starting(plan, tasks, l, 0, [], tasks, now, plan.firstPayload, plan.firstTimer)
    ensures TicksUpTo(plan.steps, 0) == 0
  {
  }

  lemma StartsUnused(tasks: Tasks, l: Links, plan: Plan)
    requires Consistent(tasks, l, NoSequence, plan.firstPayload, plan.id, plan.firstTimer) && plan.id != 0
    ensures plan.firstPayload != 0 && plan.firstTimer != 0 ==> Unused(tasks, l, plan)
  {
    if plan.firstPayload != 0 && plan.firstTimer != 0 { PlanIsUnused(tasks, l, plan, plan.id); }
  }

  /** The maps after a start that succeeded. */
  function Started(l: Links, plan: Plan): Links {
    var n := |plan.steps|;
    var built := Built(l, plan, 0, n);
    built.(sequences := built.sequences[plan.id := SequenceState(plan.id, PlannedTimers(plan, n))])
  }

  /** The first n ids of the plan could be drawn. */
  predicate Drawn(plan: Plan, n: nat) {
    plan.firstTimer != 0 && plan.firstPayload != 0 && plan.firstTimer + n - 1 <= ULONG_MAX &&
        plan.firstPayload + n - 1 <= ULONG_MAX
  }

  lemma DrawnLess(plan: Plan, m: nat, n: nat)
    requires m <= n && !Drawn(plan, m)
    ensures !Drawn(plan, n)
  {
  }

  lemma StepStaysBelow(steps: seq<Step>, x: nat)
    requires x < |steps| && TicksUpTo(steps, |steps|) < MAX_TICK
    ensures TicksUpTo(steps, x + 1) == SaturatedAdd(TicksUpTo(steps, x), NormalizedDelay(steps[x].delayTicks))
    ensures 0 < TicksUpTo(steps, x + 1) <= TicksUpTo(steps, |steps|)
  {
    if x + 1 < |steps| { TicksIncrease(steps, x + 1, |steps|); }
  }

  lemma TakeBackOne(plan: Plan, timers: seq<nat>, tasks: Tasks, l: Links, j: nat)
    requires j < |timers| <= |plan.steps| && timers == PlannedTimers(plan, |timers|) && Unused(tasks, l, plan)
    ensures Erase(Built(l, plan, j, |timers|), timers[j]) == Built(l, plan, j + 1, |timers|)
    ensures BuiltTasks(tasks, plan, j, |timers|) - {timers[j]} == BuiltTasks(tasks, plan, j + 1, |timers|)
    ensures PendingWithout(SequenceState(plan.id, timers[j..]), timers[j]) == SequenceState(plan.id, timers[j + 1..])
  {
    EraseUnbuilds(tasks, l, plan, j, |timers|);
    UnusedTimers(tasks, l, plan);
    RemoveUnbuilds(tasks, plan, j, |timers|);
    WithoutFirst(timers, j);
  }

  lemma UnusedTimers(tasks: Tasks, l: Links, plan: Plan)
    requires Unused(tasks, l, plan)
    ensures forall t :: t in tasks || t in l.timerToSequence ==> t < plan.firstTimer
  {
  }
}
