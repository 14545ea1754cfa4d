/** The gameplay host as a value: what each operation makes of it, what it hands to the scripts, and
    what every run of operations keeps. */
module HostRuns {
  import opened Scalars
  import opened Timers
  import opened HostLinks
  import opened HostState
  import opened HostPlans
  import opened HostDispatch
  import opened Host
  import Events

  datatype HostView = HostView(
    tick: nat, tasks: Tasks, links: Links, events: seq<Events.Event>, subscriptions: map<nat, Subscription>,
    nextTimerId: nat, nextEvent: nat, nextPayloadId: nat, nextSubscriptionId: nat, nextSequenceId: nat)

  const Fresh := HostView(0, map[], Links(map[], map[], map[], map[]), [], map[], 1, 1, 1, 1, 1)

  datatype Operation =
    | ScheduleCall(target: nat, callback: string, delay: nat, arguments: seq<GameplayValue>, interval: nat, repeatCount: nat)
    | CancelCall(timer: nat)
    | StartSequence(target: nat, steps: seq<Step>, repeatCount: nat)
    | CancelSequence(id: nat)
    | Subscribe(topic: string, target: nat, callback: string, priority: int)
    | Unsubscribe(id: nat)
    | Publish(topic: string, arguments: seq<GameplayValue>, delay: nat)
    | EnqueueDirect(target: nat, callback: string, arguments: seq<GameplayValue>, delay: nat)
    | CancelEvent(sequence: nat)
    | StepClock
    | DrainDue(tick: nat, timerBudget: nat, eventBudget: nat)
    | Save
    | RestoreSaved(index: nat)

  // ----- the operations -----

  function Scheduled(
    v: HostView, target: nat, callback: string, delay: nat, arguments: seq<GameplayValue>, interval: nat, repeatCount: nat)
    : HostView
  {
    if target == 0 || callback == "" || v.nextPayloadId == 0 || NeedsInterval(interval, repeatCount) then v
    else if v.nextTimerId == 0 then v.(nextPayloadId := Bump(v.nextPayloadId))
    else
      var t := Task(v.nextTimerId, SaturatedAdd(v.tick, NormalizedDelay(delay)), interval, repeatCount, v.nextPayloadId);
      v.(tasks := v.tasks[t.id := t],
         links := AddCall(v.links, Call(v.nextPayloadId, t.id, target, callback, arguments)),
         nextPayloadId := Bump(v.nextPayloadId), nextTimerId := Bump(v.nextTimerId))
  }

  /** A call that is accepted is due when its delay has passed, one tick from now where the delay is 0,
      and no later than on the last tick. */
  lemma ScheduledWhenDue(v: HostView, op: Operation)
    requires op.ScheduleCall? && op.target != 0 && op.callback != "" && !NeedsInterval(op.interval, op.repeatCount)
    requires v.nextPayloadId != 0 && v.nextTimerId != 0 && v.tick <= MAX_TICK
    ensures var after, id, p := Changed(v, op), v.nextTimerId, v.nextPayloadId;
            && id in after.tasks && p in after.links.calls && after.tasks[id].payload == p
            && after.links.calls[p] == Call(p, id, op.target, op.callback, op.arguments)
            && after.tasks[id].intervalTicks == op.interval && after.tasks[id].remainingFires == op.repeatCount
            && (op.delay == 0 && v.tick < MAX_TICK ==> after.tasks[id].dueTick == v.tick + 1)
            && (op.delay > 0 && v.tick + op.delay <= MAX_TICK ==> after.tasks[id].dueTick == v.tick + op.delay)
            && (v.tick + op.delay >= MAX_TICK ==> after.tasks[id].dueTick == MAX_TICK)
  {
  }

  function PlanIn(v: HostView, target: nat, steps: seq<Step>, repeatCount: nat): Plan {
    Plan(v.nextSequenceId, v.nextTimerId, v.nextPayloadId, v.tick, target, steps, repeatCount)
  }

  function SequenceStarted(v: HostView, plan: Plan): HostView {
    if plan.target == 0 || plan.steps == [] || v.nextSequenceId == 0 || !Sensible(plan.steps) then v
    else
      var n := |plan.steps|;
      var drawn := AfterDraws(Counters(v.nextPayloadId, v.nextTimerId), n);
      var moved := v.(nextSequenceId := Bump(v.nextSequenceId), nextPayloadId := drawn.payload, nextTimerId := drawn.timer);
      if Startable(plan) then moved.(tasks := BuiltTasks(v.tasks, plan, 0, n), links := Started(v.links, plan)) else moved
  }

  function WithEvent(v: HostView, refused: bool, e: Events.Event): HostView {
    if refused || e.topic == "" || v.nextEvent == ULONG_MAX then v
    else v.(events := Events.Inserted(v.events, e), nextEvent := v.nextEvent + 1)
  }

  /** Operations that dispatch nothing and do not touch the saved states. */
  function Changed(v: HostView, op: Operation): HostView {
    match op
    case ScheduleCall(target, callback, delay, arguments, interval, repeatCount) =>
      Scheduled(v, target, callback, delay, arguments, interval, repeatCount)
    case CancelCall(timer) => v.(tasks := v.tasks - {timer}, links := Erase(v.links, timer))
    case StartSequence(target, steps, repeatCount) => SequenceStarted(v, PlanIn(v, target, steps, repeatCount))
    case CancelSequence(id) =>
      if id !in v.links.sequences then v
      else
        var timers := v.links.sequences[id].timers;
        v.(tasks := RemoveAll(v.tasks, timers), links := EraseEach(v.links, timers))
    case Subscribe(topic, target, callback, priority) =>
      if topic == "" || target == 0 || callback == "" || v.nextSubscriptionId == 0 then v
      else
        var id := v.nextSubscriptionId;
        v.(nextSubscriptionId := Bump(id), subscriptions := v.subscriptions[id := Subscription(id, topic, target, callback, priority)])
    case Unsubscribe(id) => v.(subscriptions := v.subscriptions - {id})
    case Publish(topic, arguments, delay) =>
      WithEvent(v, false, Events.Event(SaturatedAdd(v.tick, NormalizedDelay(delay)), v.nextEvent, 0, topic, arguments))
    case EnqueueDirect(target, callback, arguments, delay) =>
      WithEvent(v, target == 0,
                Events.Event(SaturatedAdd(v.tick, NormalizedDelay(delay)), v.nextEvent, target, callback, arguments))
    case CancelEvent(sequence) => v.(events := Events.Removed(v.events, sequence))
    case StepClock => v.(tick := SaturatedAdd(v.tick, 1))
    case _ => v
  }

  /** A host and the states saved of it so far. */
  datatype Session = Session(host: HostView, saved: seq<HostView>)

  /** What an operation leaves, what it hands to the scripts, and which timers fired for that. */
  datatype Turn = Turn(after: Session, batch: seq<DispatchCall>, fired: seq<FiredTask>)

  predicate Runnable(s: Session) {
    TasksOk(s.host.tasks) && forall v | v in s.saved :: TasksOk(v.tasks)
  }

  /** The host's own snapshot would be accepted: every call has its timer, no id counter has wrapped. */
  ghost predicate CanRestore(v: HostView) {
    && Attached(v.tasks, v.links)
    && v.nextTimerId != 0 && v.nextPayloadId != 0 && v.nextSubscriptionId != 0 && v.nextSequenceId != 0
  }

  ghost function Drained(v: HostView, tick: nat, timerBudget: nat, eventBudget: nat): HostView
    requires TasksOk(v.tasks)
  {
    var r := RunDue(v.tasks, tick, timerBudget);
    v.(tasks := r.tasks, links := EraseEach(v.links, EndedIds(r.fired)),
       events := v.events[Events.DueCount(v.events, tick, eventBudget)..])
  }

  ghost function Dispatched(v: HostView, tick: nat, timerBudget: nat, eventBudget: nat): seq<DispatchCall>
    requires TasksOk(v.tasks)
  {
    TimerDispatches(v.links.calls, RunDue(v.tasks, tick, timerBudget).fired) +
    EventDispatches(v.subscriptions, v.events[..Events.DueCount(v.events, tick, eventBudget)])
  }

  ghost function Operate(s: Session, op: Operation): (t: Turn)
    requires Runnable(s)
    ensures Runnable(t.after)
  {
    hide RunDue, Built, BuiltTasks, Erase, EraseEach, TasksOk, CanRestore, SequenceStarted, Scheduled;
    match op
    case DrainDue(tick, timerBudget, eventBudget) =>
      Turn(s.(host := Drained(s.host, tick, timerBudget, eventBudget)), Dispatched(s.host, tick, timerBudget, eventBudget),
           RunDue(s.host.tasks, tick, timerBudget).fired)
    case Save => Turn(s.(saved := s.saved + [s.host]), [], [])
    case RestoreSaved(index) =>
      Turn(if index < |s.saved| && CanRestore(s.saved[index]) then s.(host := s.saved[index]) else s, [], [])
    case _ =>
      ChangedTasksOk(s.host, op);
      Turn(s.(host := Changed(s.host, op)), [], [])
  }

  lemma ChangedTasksOk(v: HostView, op: Operation)
    requires TasksOk(v.tasks)
    ensures TasksOk(Changed(v, op).tasks)
  {
    hide Built, BuiltTasks, Erase, EraseEach;
    if op.StartSequence? && Startable(PlanIn(v, op.target, op.steps, op.repeatCount)) {
      BuiltTasksOk(v.tasks, PlanIn(v, op.target, op.steps, op.repeatCount), |op.steps|);
    }
  }

  lemma {:induction false} BuiltTasksOk(tasks: Tasks, plan: Plan, n: nat)
    requires TasksOk(tasks) && Startable(plan) && n <= |plan.steps|
    ensures TasksOk(BuiltTasks(tasks, plan, 0, n))
    decreases n
  {
    if n > 0 {
      BuiltTasksOk(tasks, plan, n - 1);
      TicksIncrease(plan.steps, 0, |plan.steps|);
    }
  }

  /** A whole run: what it leaves, all that it dispatched, and all that fired. */
  ghost function OperateAll(s: Session, operations: seq<Operation>): (t: Turn)
    requires Runnable(s)
    ensures Runnable(t.after)
    decreases |operations|
  {
    if operations == [] then Turn(s, [], [])
    else
      var n := |operations| - 1;
      var before := OperateAll(s, operations[..n]);
      var last := Operate(before.after, operations[n]);
      Turn(last.after, before.batch + last.batch, before.fired + last.fired)
  }

  lemma OneMoreOperation(s: Session, operations: seq<Operation>, k: nat)
    requires Runnable(s) && k < |operations|
    ensures var before := OperateAll(s, operations[..k]);
            var last := Operate(before.after, operations[k]);
            OperateAll(s, operations[..k + 1]) == Turn(last.after, before.batch + last.batch, before.fired + last.fired)
  {
    assert operations[..k + 1][..k] == operations[..k];
  }

  lemma {:induction false} RunsCompose(s: Session, a: seq<Operation>, b: seq<Operation>)
    requires Runnable(s)
    ensures var first := OperateAll(s, a);
            var second := OperateAll(first.after, b);
            OperateAll(s, a + b) == Turn(second.after, first.batch + second.batch, first.fired + second.fired)
    decreases |b|
  {
    hide Operate;
    if b == [] {
      assert a + b == a;
    } else {
      var n := |b| - 1;
      RunsCompose(s, a, b[..n]);
      assert (a + b)[..|a + b| - 1] == a + b[..n];
    }
  }

  // ----- what every run keeps -----

  ghost predicate TimersSound(v: HostView) {
    && TasksOk(v.tasks)
    && v.nextTimerId <= ULONG_MAX && v.nextPayloadId <= ULONG_MAX && v.nextSequenceId <= ULONG_MAX && v.tick <= MAX_TICK
    && Consistent(v.tasks, v.links, NoSequence, v.nextPayloadId, v.nextSequenceId, v.nextTimerId)
  }

  ghost predicate EventsSound(v: HostView) {
    && 1 <= v.nextEvent <= ULONG_MAX && Events.InOrder(v.events)
    && Events.EventsRestorable(Events.EventState(v.nextEvent, v.events))
  }

  /** The maps, the scheduler, the queue and the counters agree. */
  ghost predicate Sound(v: HostView) {
    && TimersSound(v) && EventsSound(v)
    && v.nextSubscriptionId <= ULONG_MAX && SubscriptionsOk(v.subscriptions, v.nextSubscriptionId)
  }

  ghost predicate SoundSession(s: Session) {
    Sound(s.host) && forall v :: v in s.saved ==> Sound(v)
  }

  lemma SoundIsRunnable(s: Session)
    requires SoundSession(s)
    ensures Runnable(s)
  {
  }

  lemma ScheduledIsSound(v: HostView, op: Operation)
    requires TimersSound(v) && op.ScheduleCall?
    ensures TimersSound(Changed(v, op))
    ensures Attached(v.tasks, v.links) ==> Attached(Changed(v, op).tasks, Changed(v, op).links)
  {
    hide Consistent, Attached, AddCall;
    ChangedTasksOk(v, op);
    var after := Changed(v, op);
    if after.nextPayloadId != v.nextPayloadId {
      if v.nextTimerId == 0 {
        CountersMayStop(v.tasks, v.links, NoSequence, v.nextPayloadId, v.nextSequenceId, v.nextTimerId);
      } else {
        ScheduleKeepsConsistent(v.tasks, v.links, NoSequence, v.nextPayloadId, v.nextSequenceId, v.nextTimerId,
          after.tasks[v.nextTimerId], Call(v.nextPayloadId, v.nextTimerId, op.target, op.callback, op.arguments));
      }
    }
  }

  lemma CancelledIsSound(v: HostView, timer: nat)
    requires TimersSound(v)
    ensures TimersSound(Changed(v, CancelCall(timer)))
    ensures Attached(v.tasks, v.links) ==>
              Attached(Changed(v, CancelCall(timer)).tasks, Changed(v, CancelCall(timer)).links)
  {
    hide Consistent, Attached, Erase;
    NoPending(timer);
    EraseKeepsConsistent(v.tasks, v.links, NoSequence, v.nextPayloadId, v.nextSequenceId, v.nextTimerId, timer);
  }

  lemma {:induction false} ErasedIsConsistent(tasks: Tasks, l: Links, timers: seq<nat>, p: nat, s: nat, t: nat)
    requires Consistent(tasks, l, NoSequence, p, s, t)
    ensures Consistent(RemoveAll(tasks, timers), EraseEach(l, timers), NoSequence, p, s, t)
    ensures Attached(tasks, l) ==> Attached(RemoveAll(tasks, timers), EraseEach(l, timers))
  {
    hide Consistent, Attached, Erase, RemoveAll;
    if timers == [] {
      RemoveNone(tasks);
    } else {
      var n := |timers| - 1;
      ErasedIsConsistent(tasks, l, timers[..n], p, s, t);
      NoPending(timers[n]);
      EraseKeepsConsistent(RemoveAll(tasks, timers[..n]), EraseEach(l, timers[..n]), NoSequence, p, s, t, timers[n]);
      RemoveOneMore(tasks, timers);
    }
  }

  lemma SequenceCancelledIsSound(v: HostView, id: nat)
    requires TimersSound(v)
    ensures TimersSound(Changed(v, CancelSequence(id)))
    ensures Attached(v.tasks, v.links) ==>
              Attached(Changed(v, CancelSequence(id)).tasks, Changed(v, CancelSequence(id)).links)
  {
    hide Consistent, Attached, EraseEach;
    if id in v.links.sequences {
      ErasedIsConsistent(v.tasks, v.links, v.links.sequences[id].timers, v.nextPayloadId, v.nextSequenceId, v.nextTimerId);
    }
  }

  /** A counter that has moved on, or stopped. */
  predicate Advanced(from: nat, to: nat) {
    to == 0 || 0 < from <= to
  }

  lemma CountersMayAdvance(
    tasks: Tasks, l: Links, pending: SequenceState, p: nat, s: nat, t: nat, laterP: nat, laterS: nat, laterT: nat)
    requires Consistent(tasks, l, pending, p, s, t) && Advanced(p, laterP) && Advanced(s, laterS) && Advanced(t, laterT)
    ensures Consistent(tasks, l, pending, laterP, laterS, laterT)
  {
  }

  lemma {:induction false} DrawsAdvance(c: Counters, n: nat)
    requires c.payload <= ULONG_MAX && c.timer <= ULONG_MAX
    ensures var d := AfterDraws(c, n);
            && Advanced(c.payload, d.payload) && Advanced(c.timer, d.timer) && d.payload <= ULONG_MAX && d.timer <= ULONG_MAX
            && (c.payload != 0 && c.timer != 0 && c.payload + n - 1 <= ULONG_MAX && c.timer + n - 1 <= ULONG_MAX ==>
                  d == Counters(BumpBy(c.payload, n), BumpBy(c.timer, n)))
    decreases n
  {
    if n > 0 { DrawsAdvance(AfterDraw(c), n - 1); }
  }

  lemma {:induction false} BuiltIsConsistent(tasks: Tasks, l: Links, plan: Plan, n: nat)
    requires Consistent(tasks, l, NoSequence, plan.firstPayload, plan.id, plan.firstTimer) && Startable(plan)
    requires n <= |plan.steps|
    ensures Consistent(BuiltTasks(tasks, plan, 0, n), Built(l, plan, 0, n), SequenceState(plan.id, PlannedTimers(plan, n)),
                       BumpBy(plan.firstPayload, n), Bump(plan.id), BumpBy(plan.firstTimer, n))
    ensures Attached(tasks, l) ==> Attached(BuiltTasks(tasks, plan, 0, n), Built(l, plan, 0, n))
    decreases n
  {
    hide Consistent, Attached, AddCall, AddTimer;
    if n == 0 {
      OpenKeepsConsistent(tasks, l, plan.firstPayload, plan.id, plan.firstTimer);
      assert PlannedTimers(plan, 0) == [];
    } else {
      BuiltIsConsistent(tasks, l, plan, n - 1);
      BuiltStepIsConsistent(tasks, l, plan, n - 1);
    }
  }

  lemma BuiltStepIsConsistent(tasks: Tasks, l: Links, plan: Plan, x: nat)
    requires Startable(plan) && x < |plan.steps|
    requires Consistent(tasks, l, NoSequence, plan.firstPayload, plan.id, plan.firstTimer)
    requires Consistent(BuiltTasks(tasks, plan, 0, x), Built(l, plan, 0, x), SequenceState(plan.id, PlannedTimers(plan, x)),
                        BumpBy(plan.firstPayload, x), Bump(plan.id), BumpBy(plan.firstTimer, x))
    ensures Consistent(BuiltTasks(tasks, plan, 0, x + 1), Built(l, plan, 0, x + 1),
                       SequenceState(plan.id, PlannedTimers(plan, x + 1)),
                       BumpBy(plan.firstPayload, x + 1), Bump(plan.id), BumpBy(plan.firstTimer, x + 1))
    ensures Attached(BuiltTasks(tasks, plan, 0, x), Built(l, plan, 0, x)) ==>
              Attached(BuiltTasks(tasks, plan, 0, x + 1), Built(l, plan, 0, x + 1))
  {
    hide Consistent, Attached, Unused;
    var timers, now, nowTasks := PlannedTimers(plan, x), Built(l, plan, 0, x), BuiltTasks(tasks, plan, 0, x);
    var p, t, pending := plan.firstPayload + x, plan.firstTimer + x, SequenceState(plan.id, timers);
    ScheduleKeepsConsistent(nowTasks, now, pending, p, Bump(plan.id), t, PlannedTask(plan, x), PlannedCall(plan, x));
    var called := AddCall(now, PlannedCall(plan, x));
    StartsUnused(tasks, l, plan);
    StepIsFree(tasks, l, plan, x);
    AddTimerKeepsConsistent(nowTasks[t := PlannedTask(plan, x)], called, pending, Bump(p), Bump(plan.id), Bump(t), t);
    assert PlannedTimers(plan, x + 1) == timers + [t];
  }

  lemma StartedIsSound(v: HostView, op: Operation)
    requires TimersSound(v) && op.StartSequence?
    ensures TimersSound(Changed(v, op))
    ensures Attached(v.tasks, v.links) ==> Attached(Changed(v, op).tasks, Changed(v, op).links)
  {
    hide Consistent, Attached, AfterDraws, Built, BuiltTasks, Sensible;
    ChangedTasksOk(v, op);
    var plan, n := PlanIn(v, op.target, op.steps, op.repeatCount), |op.steps|;
    if plan.target == 0 || plan.steps == [] || v.nextSequenceId == 0 || !Sensible(plan.steps) { return; }
    DrawsAdvance(Counters(v.nextPayloadId, v.nextTimerId), n);
    if Startable(plan) {
      BuiltIsConsistent(v.tasks, v.links, plan, n);
      CloseKeepsConsistent(BuiltTasks(v.tasks, plan, 0, n), Built(v.links, plan, 0, n), SequenceState(plan.id, PlannedTimers(plan, n)),
        BumpBy(plan.firstPayload, n), Bump(plan.id), BumpBy(plan.firstTimer, n));
    } else {
      var after := Changed(v, op);
      CountersMayAdvance(v.tasks, v.links, NoSequence, v.nextPayloadId, v.nextSequenceId, v.nextTimerId,
        after.nextPayloadId, after.nextSequenceId, after.nextTimerId);
    }
  }

  lemma DrainedIsSound(v: HostView, tick: nat, timerBudget: nat, eventBudget: nat)
    requires TimersSound(v)
    ensures var after := Drained(v, tick, timerBudget, eventBudget);
            && TimersSound(after)
            && (Attached(v.tasks, v.links) ==>
                  (Attached(after.tasks, after.links) <==> !FiresOverflowing(v.tasks, tick, timerBudget)))
  {
    hide Linked, Owned, Attached, RunDue, EraseEach, RunReports, FiresOverflowing, RemoveAll;
    DrainKeepsOwned(v.tasks, v.links, tick, timerBudget);
    EraseEachKeepsLinked(v.links, EndedIds(RunDue(v.tasks, tick, timerBudget).fired));
    ErasedIsCounted(v.links, EndedIds(RunDue(v.tasks, tick, timerBudget).fired), v.nextPayloadId, v.nextSequenceId, v.nextTimerId);
  }

  lemma ErasedIsCounted(l: Links, timers: seq<nat>, p: nat, s: nat, t: nat)
    requires Linked(l, NoSequence) && Counted(l, p, s, t)
    ensures Counted(EraseEach(l, timers), p, s, t)
  {
    hide EraseEach, Linked;
    EraseEachKeepsLinked(l, timers);
  }

  lemma EventAddedIsSound(v: HostView, refused: bool, e: Events.Event)
    requires EventsSound(v) && e.sequence == v.nextEvent
    ensures EventsSound(WithEvent(v, refused, e))
  {
    Events.InsertedHolds(v.events, e);
  }

  lemma EventRemovedIsSound(v: HostView, sequence: nat)
    requires EventsSound(v)
    ensures EventsSound(v.(events := Events.Removed(v.events, sequence)))
  {
    Events.RemovedHolds(v.events, sequence);
  }

  lemma EventsPoppedAreSound(v: HostView, n: nat)
    requires EventsSound(v) && n <= |v.events|
    ensures EventsSound(v.(events := v.events[n..]))
  {
  }

  lemma SavedIsSound(s: Session, index: nat)
    requires SoundSession(s)
    ensures index < |s.saved| ==> Sound(s.saved[index])
  {
    if index < |s.saved| { assert s.saved[index] in s.saved; }
  }

  lemma OperateKeepsTimers(s: Session, op: Operation)
    requires SoundSession(s)
    ensures TimersSound(Operate(s, op).after.host)
    ensures Attached(s.host.tasks, s.host.links) && !op.RestoreSaved? ==>
              (Attached(Operate(s, op).after.host.tasks, Operate(s, op).after.host.links) <==> !Overflows(s, op))
  {
    hide EventsSound, Consistent, Attached, FiresOverflowing, SubscriptionsOk, RunDue, Erase, EraseEach, Scheduled,
      SequenceStarted, CanRestore;
    match op
    case ScheduleCall(_, _, _, _, _, _) => ScheduledIsSound(s.host, op);
    case CancelCall(timer) => CancelledIsSound(s.host, timer);
    case StartSequence(_, _, _) => StartedIsSound(s.host, op);
    case CancelSequence(id) => SequenceCancelledIsSound(s.host, id);
    case DrainDue(tick, timerBudget, eventBudget) => DrainedIsSound(s.host, tick, timerBudget, eventBudget);
    case RestoreSaved(index) => SavedIsSound(s, index);
    case _ =>
  }

  lemma OperateKeepsEvents(s: Session, op: Operation)
    requires SoundSession(s)
    ensures EventsSound(Operate(s, op).after.host)
  {
    hide TimersSound, SubscriptionsOk, RunDue, Erase, EraseEach, Scheduled, SequenceStarted, CanRestore, Events.InOrder,
      Events.EventsRestorable;
    var v := s.host;
    match op
    case Publish(topic, arguments, delay) =>
      EventAddedIsSound(v, false, Events.Event(SaturatedAdd(v.tick, NormalizedDelay(delay)), v.nextEvent, 0, topic, arguments));
    case EnqueueDirect(target, callback, arguments, delay) =>
      EventAddedIsSound(v, target == 0,
        Events.Event(SaturatedAdd(v.tick, NormalizedDelay(delay)), v.nextEvent, target, callback, arguments));
    case CancelEvent(sequence) => EventRemovedIsSound(v, sequence);
    case DrainDue(tick, _, eventBudget) => EventsPoppedAreSound(v, Events.DueCount(v.events, tick, eventBudget));
    case ScheduleCall(_, _, _, _, _, _) => OnlyTimersChange(v, op);
    case StartSequence(_, _, _) => OnlyTimersChange(v, op);
    case RestoreSaved(index) => SavedIsSound(s, index);
    case _ =>
  }

  lemma OnlyTimersChange(v: HostView, op: Operation)
    requires op.ScheduleCall? || op.StartSequence?
    ensures Changed(v, op) == v.(tasks := Changed(v, op).tasks, links := Changed(v, op).links,
              nextTimerId := Changed(v, op).nextTimerId, nextPayloadId := Changed(v, op).nextPayloadId,
              nextSequenceId := Changed(v, op).nextSequenceId)
  {
  }

  lemma OperateKeepsSubscriptions(s: Session, op: Operation)
    requires SoundSession(s)
    ensures var v := Operate(s, op).after.host;
            v.nextSubscriptionId <= ULONG_MAX && SubscriptionsOk(v.subscriptions, v.nextSubscriptionId)
  {
    hide TimersSound, EventsSound, RunDue, Erase, EraseEach, Scheduled, SequenceStarted, CanRestore;
    if op.ScheduleCall? || op.StartSequence? { OnlyTimersChange(s.host, op); }
    if op.RestoreSaved? { SavedIsSound(s, op.index); }
  }

  /** One operation keeps the host sound; and every call keeps its timer unless the operation is a
      drain that takes the overflow branch, and then one does not. */
  lemma OperateIsSound(s: Session, op: Operation)
    requires SoundSession(s)
    ensures SoundSession(Operate(s, op).after)
    ensures Attached(s.host.tasks, s.host.links) && !op.RestoreSaved? ==>
              (Attached(Operate(s, op).after.host.tasks, Operate(s, op).after.host.links) <==> !Overflows(s, op))
  {
    hide TimersSound, EventsSound, Attached, SubscriptionsOk, Overflows, Drained, Dispatched, Changed, CanRestore;
    OperateKeepsTimers(s, op);
    OperateKeepsEvents(s, op);
    OperateKeepsSubscriptions(s, op);
  }

  /** In every run the host stays sound. */
  lemma {:induction false} OperateAllIsSound(s: Session, operations: seq<Operation>)
    requires SoundSession(s)
    ensures SoundSession(OperateAll(s, operations).after)
    decreases |operations|
  {
    hide Operate, SoundSession, Runnable;
    SoundIsRunnable(s);
    if operations != [] {
      var n := |operations| - 1;
      OperateAllIsSound(s, operations[..n]);
      OperateIsSound(OperateAll(s, operations[..n]).after, operations[n]);
    }
  }

  lemma FreshIsSound()
    ensures Sound(Fresh) && CanRestore(Fresh)
  {
  }

  /** The drain drops a repeating timer at the end of the tick range. */
  ghost predicate Overflows(s: Session, op: Operation)
    requires Runnable(s)
  {
    op.DrainDue? && FiresOverflowing(s.host.tasks, op.tick, op.timerBudget)
  }
}
