/** What the scripts see of a sequence: over any operations that leave it alone the host dispatches
    its steps in order, cycle after cycle, each on its planned tick, and misses none. */
module HostSequences {
  import opened Scalars
  import opened Timers
  import opened HostLinks
  import opened HostState
  import opened HostPlans
  import opened HostDispatch
  import opened Host
  import opened HostRuns
  import Events
  import Sequences

  /** The operation neither cancels the sequence or one of its timers nor goes back to a saved state,
      and a drain leaves room for one more cycle, if there may be one, below the last tick. */
  predicate Spares(plan: Plan, op: Operation) {
    match op
    case CancelCall(timer) => !(plan.firstTimer <= timer < plan.firstTimer + |plan.steps|)
    case CancelSequence(id) => id != plan.id
    case RestoreSaved(_) => false
    case DrainDue(tick, _, _) => plan.repeatCount != 1 ==> tick + TicksUpTo(plan.steps, |plan.steps|) <= MAX_TICK
    case _ => true
  }

  /** The timers of the plan. */
  function TimersIn(plan: Plan): set<nat> {
    Sequences.Ids(SequenceOf(plan))
  }

  lemma TimersAre(plan: Plan, t: nat)
    ensures t in TimersIn(plan) <==> plan.firstTimer <= t < plan.firstTimer + |plan.steps|
  {
    var s := SequenceOf(plan);
    if plan.firstTimer <= t < plan.firstTimer + |plan.steps| { assert s.ids[t - plan.firstTimer] == t; }
  }

  // ----- a call lasts as long as its timer -----

  /** What is left of the sequence in the maps is as it was planned, and its ids are not given again. */
  ghost predicate Kept(plan: Plan, v: HostView) {
    && (v.nextTimerId == 0 || plan.firstTimer + |plan.steps| <= v.nextTimerId)
    && (v.nextPayloadId == 0 || plan.firstPayload + |plan.steps| <= v.nextPayloadId)
    && (v.nextSequenceId == 0 || plan.id < v.nextSequenceId)
    && forall x :: 0 <= x < |plan.steps| ==> StepKept(plan, v.links, x)
  }

  predicate StepKept(plan: Plan, l: Links, x: nat)
    requires x < |plan.steps|
  {
    var t, p := plan.firstTimer + x, plan.firstPayload + x;
    && (t in l.timerToPayload ==> l.timerToPayload[t] == p)
    && (t in l.timerToSequence ==> l.timerToSequence[t] == plan.id)
    && (p in l.calls ==> l.calls[p] == PlannedCall(plan, x))
  }

  predicate Submap<T(==)>(a: map<nat, T>, b: map<nat, T>) {
    forall k | k in a :: k in b && a[k] == b[k]
  }

  lemma KeptInPart(plan: Plan, v: HostView, after: HostView)
    requires Kept(plan, v)
    requires after.nextTimerId == v.nextTimerId && after.nextPayloadId == v.nextPayloadId && after.nextSequenceId == v.nextSequenceId
    requires Submap(after.links.calls, v.links.calls) && Submap(after.links.timerToPayload, v.links.timerToPayload)
    requires Submap(after.links.timerToSequence, v.links.timerToSequence)
    ensures Kept(plan, after)
  {
    forall x | 0 <= x < |plan.steps| ensures StepKept(plan, after.links, x) {
      assert StepKept(plan, v.links, x);
    }
  }

  lemma ErasedInPart(l: Links, timers: seq<nat>)
    requires Linked(l, NoSequence)
    ensures var e := EraseEach(l, timers);
            && Submap(e.calls, l.calls) && Submap(e.timerToPayload, l.timerToPayload)
            && Submap(e.timerToSequence, l.timerToSequence)
  {
    hide Linked, EraseEach;
    EraseEachKeepsLinked(l, timers);
  }

  /** The timers of the plan are as they were. */
  ghost predicate TimersStay(plan: Plan, before: Tasks, after: Tasks) {
    forall t :: t in TimersIn(plan) ==> Get(after, t) == Get(before, t)
  }

  lemma {:induction false} BuiltElsewhere(tasks: Tasks, l: Links, other: Plan, n: nat, t: nat, p: nat)
    requires n <= |other.steps| && t < other.firstTimer && p < other.firstPayload
    ensures var b := Built(l, other, 0, n);
            && Get(BuiltTasks(tasks, other, 0, n), t) == Get(tasks, t)
            && (t in b.timerToPayload <==> t in l.timerToPayload) && (p in b.calls <==> p in l.calls)
            && (t in b.timerToSequence <==> t in l.timerToSequence)
            && (t in l.timerToPayload ==> b.timerToPayload[t] == l.timerToPayload[t])
            && (t in l.timerToSequence ==> b.timerToSequence[t] == l.timerToSequence[t])
            && (p in l.calls ==> b.calls[p] == l.calls[p])
    decreases n
  {
    if n > 0 { BuiltElsewhere(tasks, l, other, n - 1, t, p); }
  }

  lemma ScheduleSpares(plan: Plan, v: HostView, op: Operation)
    requires TimersSound(v) && Kept(plan, v) && op.ScheduleCall?
    ensures Kept(plan, Changed(v, op)) && TimersStay(plan, v.tasks, Changed(v, op).tasks)
  {
    hide TimersSound, TimersIn;
    forall t: nat ensures t in TimersIn(plan) <==> plan.firstTimer <= t < plan.firstTimer + |plan.steps| {
      TimersAre(plan, t);
    }
    var after := Changed(v, op);
    forall x | 0 <= x < |plan.steps| ensures StepKept(plan, after.links, x) {
      assert StepKept(plan, v.links, x);
    }
  }

  lemma StartSpares(plan: Plan, v: HostView, op: Operation)
    requires TimersSound(v) && Kept(plan, v) && op.StartSequence?
    ensures Kept(plan, Changed(v, op)) && TimersStay(plan, v.tasks, Changed(v, op).tasks)
  {
    hide Consistent, TimersIn, Sensible, AfterDraws, Built, BuiltTasks;
    forall t: nat ensures t in TimersIn(plan) <==> plan.firstTimer <= t < plan.firstTimer + |plan.steps| {
      TimersAre(plan, t);
    }
    var other, after := PlanIn(v, op.target, op.steps, op.repeatCount), Changed(v, op);
    DrawsAdvance(Counters(v.nextPayloadId, v.nextTimerId), |op.steps|);
    forall x | 0 <= x < |plan.steps| ensures StepKept(plan, after.links, x) {
      assert StepKept(plan, v.links, x);
      if Startable(other) {
        BuiltElsewhere(v.tasks, v.links, other, |op.steps|, plan.firstTimer + x, plan.firstPayload + x);
      }
    }
    forall t | t in TimersIn(plan) ensures Get(after.tasks, t) == Get(v.tasks, t) {
      if Startable(other) { BuiltElsewhere(v.tasks, v.links, other, |op.steps|, t, plan.firstPayload); }
    }
  }

  lemma CancelSpares(plan: Plan, v: HostView, op: Operation)
    requires TimersSound(v) && Kept(plan, v) && Spares(plan, op) && (op.CancelCall? || op.CancelSequence?)
    ensures Kept(plan, Changed(v, op)) && TimersStay(plan, v.tasks, Changed(v, op).tasks)
  {
    hide TimersIn, Kept, EraseEach, Erase;
    forall t: nat ensures t in TimersIn(plan) <==> plan.firstTimer <= t < plan.firstTimer + |plan.steps| {
      TimersAre(plan, t);
    }
    if op.CancelCall? {
      EraseKeepsLinked(v.links, NoSequence, op.timer);
      KeptInPart(plan, v, Changed(v, op));
    } else if op.id in v.links.sequences {
      ErasedInPart(v.links, v.links.sequences[op.id].timers);
      KeptInPart(plan, v, Changed(v, op));
      OthersTimers(plan, v, op.id);
    }
  }

  lemma OthersTimers(plan: Plan, v: HostView, id: nat)
    requires TimersSound(v) && Kept(plan, v) && id in v.links.sequences && id != plan.id
    ensures forall t :: plan.firstTimer <= t < plan.firstTimer + |plan.steps| ==> t !in v.links.sequences[id].timers
  {
    assert SequenceLinked(v.links, id);
    forall t | plan.firstTimer <= t < plan.firstTimer + |plan.steps| ensures t !in v.links.sequences[id].timers {
      assert StepKept(plan, v.links, t - plan.firstTimer);
    }
  }

  lemma DrainSpares(plan: Plan, v: HostView, tick: nat, timerBudget: nat, eventBudget: nat)
    requires TimersSound(v) && Kept(plan, v)
    ensures Kept(plan, Drained(v, tick, timerBudget, eventBudget))
  {
    hide Kept, EraseEach, RunDue, Submap;
    ErasedInPart(v.links, EndedIds(RunDue(v.tasks, tick, timerBudget).fired));
    KeptInPart(plan, v, Drained(v, tick, timerBudget, eventBudget));
  }

  /** An operation that spares the sequence keeps its calls and, unless it drains, its timers. */
  lemma OperationSpares(s: Session, plan: Plan, op: Operation)
    requires SoundSession(s) && Kept(plan, s.host) && Spares(plan, op)
    ensures Kept(plan, Operate(s, op).after.host)
    ensures !op.DrainDue? ==> TimersStay(plan, s.host.tasks, Operate(s, op).after.host.tasks)
  {
    SoundIsRunnable(s);
    hide TimersSound, EventsSound, Kept, TimersIn, Drained, Dispatched, Runnable, Scheduled, SequenceStarted, Erase, EraseEach, CanRestore;
    match op
    case ScheduleCall(_, _, _, _, _, _) => ScheduleSpares(plan, s.host, op);
    case StartSequence(_, _, _) => StartSpares(plan, s.host, op);
    case CancelCall(_) => CancelSpares(plan, s.host, op);
    case CancelSequence(_) => CancelSpares(plan, s.host, op);
    case DrainDue(tick, timerBudget, eventBudget) => DrainSpares(plan, s.host, tick, timerBudget, eventBudget);
    case RestoreSaved(_) => assert false;
    case _ => KeptElsewhere(plan, s.host, Operate(s, op).after.host);
  }

  lemma KeptElsewhere(plan: Plan, v: HostView, after: HostView)
    requires Kept(plan, v) && after.links == v.links
    requires after.nextTimerId == v.nextTimerId && after.nextPayloadId == v.nextPayloadId && after.nextSequenceId == v.nextSequenceId
    ensures Kept(plan, after)
  {
  }

  // ----- what a drain dispatches of it -----

  /** The dispatches of the given timers, in order. */
  function OnlyFrom(batch: seq<DispatchCall>, timers: set<nat>): seq<DispatchCall> {
    if batch == [] then []
    else if batch[0].sourceTimer in timers then [batch[0]] + OnlyFrom(batch[1..], timers) else OnlyFrom(batch[1..], timers)
  }

  lemma {:induction false} OnlyFromSum(a: seq<DispatchCall>, b: seq<DispatchCall>, timers: set<nat>)
    ensures OnlyFrom(a + b, timers) == OnlyFrom(a, timers) + OnlyFrom(b, timers)
  {
    if a == [] {
      assert a + b == b;
    } else {
      OnlyFromSum(a[1..], b, timers);
      assert (a + b)[1..] == a[1..] + b;
    }
  }

  lemma {:induction false} NoneFrom(batch: seq<DispatchCall>, timers: set<nat>)
    requires forall i :: 0 <= i < |batch| ==> batch[i].sourceTimer !in timers
    ensures OnlyFrom(batch, timers) == []
  {
    if batch != [] { NoneFrom(batch[1..], timers); }
  }

  /** What the plan wants dispatched when that timer fires. */
  function PlannedDispatch(plan: Plan, timer: nat): DispatchCall
    requires plan.firstTimer <= timer < plan.firstTimer + |plan.steps|
  {
    var step := plan.steps[timer - plan.firstTimer];
    DispatchCall(plan.target, step.callback, step.arguments, timer, 0)
  }

  /** The dispatches are, one by one, what the plan wants for those firings. */
  predicate AsPlanned(plan: Plan, fires: seq<FiredTask>, dispatched: seq<DispatchCall>) {
    |dispatched| == |fires| &&
    forall k | 0 <= k < |fires| ::
      plan.firstTimer <= fires[k].id < plan.firstTimer + |plan.steps| && dispatched[k] == PlannedDispatch(plan, fires[k].id)
  }

  lemma AsPlannedSum(
    plan: Plan, a: seq<FiredTask>, x: seq<DispatchCall>, b: seq<FiredTask>, y: seq<DispatchCall>)
    requires AsPlanned(plan, a, x) && AsPlanned(plan, b, y)
    ensures AsPlanned(plan, a + b, x + y)
  {
  }

  /** The firing finds the planned call. */
  predicate FindsCall(plan: Plan, calls: map<nat, Call>, f: FiredTask) {
    plan.firstTimer <= f.id < plan.firstTimer + |plan.steps| ==>
      f.payload in calls && calls[f.payload] == PlannedCall(plan, f.id - plan.firstTimer)
  }

  lemma {:induction false} TimersAsPlanned(plan: Plan, calls: map<nat, Call>, fired: seq<FiredTask>)
    requires forall i :: 0 <= i < |fired| ==> FindsCall(plan, calls, fired[i])
    ensures AsPlanned(plan, Only(fired, TimersIn(plan)), OnlyFrom(TimerDispatches(calls, fired), TimersIn(plan)))
  {
    hide TimersIn, AsPlanned;
    if fired == [] {
      NothingAsPlanned(plan);
    } else {
      var n := |fired| - 1;
      TimersAsPlanned(plan, calls, fired[..n]);
      OneAsPlanned(plan, calls, fired[n]);
      assert fired == fired[..n] + [fired[n]];
      OnlyOfSum(fired[..n], [fired[n]], TimersIn(plan));
      OnlyFromSum(TimerDispatches(calls, fired[..n]), DispatchOf(calls, fired[n]), TimersIn(plan));
      AsPlannedSum(plan, Only(fired[..n], TimersIn(plan)), OnlyFrom(TimerDispatches(calls, fired[..n]), TimersIn(plan)),
        Only([fired[n]], TimersIn(plan)), OnlyFrom(DispatchOf(calls, fired[n]), TimersIn(plan)));
    }
  }

  lemma NothingAsPlanned(plan: Plan)
    ensures AsPlanned(plan, [], [])
  {
  }

  lemma OneAsPlanned(plan: Plan, calls: map<nat, Call>, f: FiredTask)
    requires FindsCall(plan, calls, f)
    ensures AsPlanned(plan, Only([f], TimersIn(plan)), OnlyFrom(DispatchOf(calls, f), TimersIn(plan)))
  {
    hide TimersIn;
    TimersAre(plan, f.id);
    var d := DispatchOf(calls, f);
    if f.id in TimersIn(plan) {
      assert d == [PlannedDispatch(plan, f.id)];
      assert OnlyFrom(d, TimersIn(plan)) == d;
      assert Only([f], TimersIn(plan)) == [f];
    } else {
      assert Only([f], TimersIn(plan)) == [];
      NoneFrom(d, TimersIn(plan));
    }
  }

  lemma {:induction false} EventsAreNotTimers(subscriptions: map<nat, Subscription>, popped: seq<Events.Event>, i: nat)
    requires i < |EventDispatches(subscriptions, popped)|
    ensures EventDispatches(subscriptions, popped)[i].sourceTimer == 0
  {
    hide Subscribers;
    var n := |popped| - 1;
    if i < |EventDispatches(subscriptions, popped[..n])| { EventsAreNotTimers(subscriptions, popped[..n], i); }
  }

  lemma RunFindsCalls(plan: Plan, v: HostView, tick: nat, budget: nat)
    requires TimersSound(v) && Kept(plan, v)
    ensures forall i :: 0 <= i < |RunDue(v.tasks, tick, budget).fired| ==>
              FindsCall(plan, v.links.calls, RunDue(v.tasks, tick, budget).fired[i])
  {
    hide RunDue;
    var r := RunDue(v.tasks, tick, budget);
    RunIsReported(v.tasks, tick, budget);
    forall i | 0 <= i < |r.fired| ensures FindsCall(plan, v.links.calls, r.fired[i]) {
      var f := r.fired[i];
      assert f.id in v.links.timerToPayload && f.payload == v.links.timerToPayload[f.id];
      if plan.firstTimer <= f.id < plan.firstTimer + |plan.steps| {
        assert StepKept(plan, v.links, f.id - plan.firstTimer);
      }
    }
  }

  /** What a drain dispatches of the sequence is what the plan wants for its firings. */
  lemma DrainAsPlanned(plan: Plan, v: HostView, tick: nat, timerBudget: nat, eventBudget: nat)
    requires TimersSound(v) && Kept(plan, v) && plan.firstTimer != 0
    ensures AsPlanned(plan, Only(RunDue(v.tasks, tick, timerBudget).fired, TimersIn(plan)),
                      OnlyFrom(Dispatched(v, tick, timerBudget, eventBudget), TimersIn(plan)))
  {
    hide RunDue, TimersIn, Kept, TimerDispatches, EventDispatches, AsPlanned, Consistent;
    var fired := RunDue(v.tasks, tick, timerBudget).fired;
    var heard := EventDispatches(v.subscriptions, v.events[..Events.DueCount(v.events, tick, eventBudget)]);
    RunFindsCalls(plan, v, tick, timerBudget);
    TimersAsPlanned(plan, v.links.calls, fired);
    OnlyFromSum(TimerDispatches(v.links.calls, fired), heard, TimersIn(plan));
    TimersAre(plan, 0);
    forall i | 0 <= i < |heard| ensures heard[i].sourceTimer == 0 {
      EventsAreNotTimers(v.subscriptions, v.events[..Events.DueCount(v.events, tick, eventBudget)], i);
    }
    NoneFrom(heard, TimersIn(plan));
    var mine := OnlyFrom(TimerDispatches(v.links.calls, fired), TimersIn(plan));
    assert mine + [] == mine;
  }

  // ----- whole runs -----

  /** The sequence stands where its firings so far have brought it. */
  ghost predicate Stands(plan: Plan, fires: seq<FiredTask>, v: HostView)
    requires plan.steps != []
  {
    PlanIsWellShaped(plan);
    Kept(plan, v) && Sequences.Follows(SequenceOf(plan), 0, 0, fires, v.tasks)
  }

  lemma DrainFollows(plan: Plan, fires: seq<FiredTask>, v: HostView, tick: nat, budget: nat)
    requires plan.steps != [] && Stands(plan, fires, v) && TasksOk(v.tasks)
    requires plan.repeatCount != 1 ==> tick + TicksUpTo(plan.steps, |plan.steps|) <= MAX_TICK
    ensures Sequences.WellShaped(SequenceOf(plan))
    ensures var r := RunDue(v.tasks, tick, budget);
            Sequences.Follows(SequenceOf(plan), 0, 0, fires + Only(r.fired, TimersIn(plan)), r.tasks)
  {
    hide Kept, RunDue, Sequences.InProgress, Sequences.Follows, Sequences.Ids;
    var s := SequenceOf(plan);
    PlanIsWellShaped(plan);
    Sequences.FollowsHere(s, 0, 0, fires, v.tasks);
    var j, i := Sequences.CycleAfter(s, 0, 0, |fires|), Sequences.StepAfter(s, 0, |fires|);
    Sequences.RunFollows(s, v.tasks, j, i, tick, budget);
    Sequences.FollowsComposes(s, 0, 0, fires, v.tasks, Only(RunDue(v.tasks, tick, budget).fired, TimersIn(plan)),
      RunDue(v.tasks, tick, budget).tasks);
  }

  lemma StaysFollows(plan: Plan, fires: seq<FiredTask>, before: Tasks, after: Tasks)
    requires plan.steps != [] && Sequences.WellShaped(SequenceOf(plan)) && TimersStay(plan, before, after)
    requires Sequences.Follows(SequenceOf(plan), 0, 0, fires, before)
    ensures Sequences.Follows(SequenceOf(plan), 0, 0, fires, after)
  {
    var s := SequenceOf(plan);
    forall x | 0 <= x < |s.ids| ensures Get(after, s.ids[x]) == Get(before, s.ids[x]) {
      assert s.ids[x] in Sequences.Ids(s);
    }
  }

  lemma OperationStands(s: Session, plan: Plan, fires: seq<FiredTask>, op: Operation)
    requires SoundSession(s) && plan.steps != [] && plan.firstTimer != 0 && Stands(plan, fires, s.host) && Spares(plan, op)
    ensures Runnable(s)
    ensures var t := Operate(s, op);
            && Stands(plan, fires + Only(t.fired, TimersIn(plan)), t.after.host)
            && AsPlanned(plan, Only(t.fired, TimersIn(plan)), OnlyFrom(t.batch, TimersIn(plan)))
  {
    SoundIsRunnable(s);
    hide TimersSound, EventsSound, Kept, TimersIn, TimersStay, Dispatched, Changed, CanRestore, Runnable, AsPlanned, Sequences.Follows,
      RunDue;
    OperationSpares(s, plan, op);
    PlanIsWellShaped(plan);
    NothingAsPlanned(plan);
    var t := Operate(s, op);
    if op.DrainDue? {
      SoundTasks(s.host);
      DrainFollows(plan, fires, s.host, op.tick, op.timerBudget);
      DrainAsPlanned(plan, s.host, op.tick, op.timerBudget, op.eventBudget);
    } else {
      StaysFollows(plan, fires, s.host.tasks, t.after.host.tasks);
      assert fires + [] == fires;
    }
  }

  lemma SoundTasks(v: HostView)
    requires TimersSound(v)
    ensures TasksOk(v.tasks)
  {
  }

  lemma {:induction false} RunStands(s: Session, plan: Plan, operations: seq<Operation>)
    requires SoundSession(s) && plan.steps != [] && plan.firstTimer != 0 && Stands(plan, [], s.host)
    requires forall k :: 0 <= k < |operations| ==> Spares(plan, operations[k])
    ensures Runnable(s)
    ensures var t := OperateAll(s, operations);
            && Stands(plan, Only(t.fired, TimersIn(plan)), t.after.host)
            && AsPlanned(plan, Only(t.fired, TimersIn(plan)), OnlyFrom(t.batch, TimersIn(plan)))
    decreases |operations|
  {
    SoundIsRunnable(s);
    hide SoundSession, Runnable, Operate, Stands, AsPlanned, TimersIn, Spares;
    if operations == [] {
      NothingAsPlanned(plan);
    } else {
      var n := |operations| - 1;
      RunStands(s, plan, operations[..n]);
      OperateAllIsSound(s, operations[..n]);
      var before := OperateAll(s, operations[..n]);
      var fires := Only(before.fired, TimersIn(plan));
      OperationStands(before.after, plan, fires, operations[n]);
      var last := Operate(before.after, operations[n]);
      OnlyOfSum(before.fired, last.fired, TimersIn(plan));
      OnlyFromSum(before.batch, last.batch, TimersIn(plan));
      AsPlannedSum(plan, fires, OnlyFrom(before.batch, TimersIn(plan)), Only(last.fired, TimersIn(plan)),
        OnlyFrom(last.batch, TimersIn(plan)));
    }
  }

  /** What a start is going to build. */
  function PlanOf(s: Session, op: Operation): Plan
    requires op.StartSequence?
  {
    PlanIn(s.host, op.target, op.steps, op.repeatCount)
  }

  /** Right after its start the sequence stands before step 0. */
  lemma StartStands(s: Session, op: Operation)
    requires SoundSession(s) && op.StartSequence? && Startable(PlanOf(s, op))
    requires s.host.tick + TicksUpTo(op.steps, |op.steps|) <= MAX_TICK
    ensures Runnable(s)
    ensures var plan := PlanOf(s, op);
            plan.steps != [] && Stands(plan, [], Operate(s, op).after.host)
  {
    SoundIsRunnable(s);
    hide TimersSound, EventsSound, AfterDraws, Built, BuiltTasks, Sequences.InProgress, Runnable;
    var plan, n := PlanOf(s, op), |op.steps|;
    StartedInProgress(s.host.tasks, plan);
    CountersFit(s.host);
    DrawsAdvance(Counters(s.host.nextPayloadId, s.host.nextTimerId), n);
    forall x | 0 <= x < n ensures StepKept(plan, Started(s.host.links, plan), x) {
      BuiltTimerAt(s.host.links, plan, 0, n, x);
    }
  }

  lemma CountersFit(v: HostView)
    requires TimersSound(v)
    ensures v.nextTimerId <= ULONG_MAX && v.nextPayloadId <= ULONG_MAX && v.nextSequenceId <= ULONG_MAX
  {
  }

  /** The tick of step x in cycle c. */
  function PlannedTick(plan: Plan, c: nat, x: nat): nat
    requires x < |plan.steps|
  {
    plan.tick + TicksUpTo(plan.steps, x + 1) + c * TicksUpTo(plan.steps, |plan.steps|)
  }

  /** Whether cycle c was asked for. */
  predicate AskedFor(plan: Plan, c: nat) {
    plan.repeatCount == REPEAT_FOREVER || c < plan.repeatCount
  }

  lemma StandsInOrder(plan: Plan, fires: seq<FiredTask>, v: HostView, k: nat)
    requires plan.steps != [] && Stands(plan, fires, v) && k < |fires|
    ensures exists c: nat, x: nat :: FiresStep(plan, fires[k], c, x) && c * |plan.steps| + x == k
  {
    hide Kept, Sequences.StepTask, Sequences.InProgress;
    var s := SequenceOf(plan);
    PlanIsWellShaped(plan);
    Sequences.ExpectedInStepOrder(s, 0, 0, |fires|, k);
    var x, c := Sequences.StepAfter(s, 0, k), Sequences.CycleAfter(s, 0, 0, k);
    TaskFiresStep(plan, c, x);
    assert FiresStep(plan, fires[k], c, x) && c * |plan.steps| + x == k;
  }

  predicate FiresStep(plan: Plan, f: FiredTask, c: nat, x: nat) {
    x < |plan.steps| && AskedFor(plan, c) && f.id == plan.firstTimer + x && f.scheduledTick == PlannedTick(plan, c, x)
  }

  lemma TaskFiresStep(plan: Plan, c: nat, x: nat)
    requires x < |plan.steps|
    ensures Sequences.WellShaped(SequenceOf(plan))
    ensures var t := Sequences.StepTask(SequenceOf(plan), x, c);
            t.Some? ==> FiresStep(plan, Fire(t.value), c, x)
  {
    PlanIsWellShaped(plan);
  }

  /** The k-th dispatch of a sequence is that of step x in cycle c, where k is c * n + x: its timer
      fired on the planned tick, and its callback and arguments are those of the step. */
  predicate DispatchesStep(plan: Plan, f: FiredTask, d: DispatchCall, c: nat, x: nat) {
    && x < |plan.steps| && AskedFor(plan, c)
    && f.scheduledTick == PlannedTick(plan, c, x)
    && d == DispatchCall(plan.target, plan.steps[x].callback, plan.steps[x].arguments, plan.firstTimer + x, 0)
  }

  /** The sequence is started, and the operations leave it alone. */
  ghost predicate StartedAndSpared(s: Session, op: Operation, operations: seq<Operation>)
    requires op.StartSequence?
  {
    && SoundSession(s)
    && var plan := PlanOf(s, op);
       Startable(plan) && s.host.tick + TicksUpTo(op.steps, |op.steps|) <= MAX_TICK &&
       forall j :: 0 <= j < |operations| ==> Spares(plan, operations[j])
  }

  lemma StartedStands(s: Session, op: Operation, operations: seq<Operation>)
    requires op.StartSequence? && StartedAndSpared(s, op, operations)
    ensures Runnable(s)
    ensures var plan := PlanOf(s, op);
            var t := OperateAll(Operate(s, op).after, operations);
            && plan.firstTimer != 0 && plan.steps != [] && SoundSession(t.after)
            && Stands(plan, Only(t.fired, TimersIn(plan)), t.after.host)
            && AsPlanned(plan, Only(t.fired, TimersIn(plan)), OnlyFrom(t.batch, TimersIn(plan)))
  {
    SoundIsRunnable(s);
    hide SoundSession, Runnable, Stands, OperateAll, Operate, TimersIn, Spares, Startable, AsPlanned;
    var plan := PlanOf(s, op);
    StartStands(s, op);
    OperateIsSound(s, op);
    FirstTimerDrawn(plan);
    RunStands(Operate(s, op).after, plan, operations);
    OperateAllIsSound(Operate(s, op).after, operations);
  }

  /** A sequence that was started: over any operations that spare it, what the drains dispatch of it
      is, in order, step after step and cycle after cycle. */
  lemma SequenceDispatchesInOrder(s: Session, op: Operation, operations: seq<Operation>, k: nat)
    requires op.StartSequence? && StartedAndSpared(s, op, operations)
    ensures Runnable(s)
    ensures var plan := PlanOf(s, op);
            var t := OperateAll(Operate(s, op).after, operations);
            var fires, dispatched := Only(t.fired, TimersIn(plan)), OnlyFrom(t.batch, TimersIn(plan));
            |fires| == |dispatched| && (k < |dispatched| ==> IsTurn(plan, fires[k], dispatched[k], k))
  {
    hide StartedAndSpared, Runnable, Stands, OperateAll, Operate, TimersIn, FiresStep, DispatchesStep;
    StartedStands(s, op, operations);
    var plan := PlanOf(s, op);
    var t := OperateAll(Operate(s, op).after, operations);
    var fires, dispatched := Only(t.fired, TimersIn(plan)), OnlyFrom(t.batch, TimersIn(plan));
    if k < |dispatched| {
      StandsInOrder(plan, fires, t.after.host, k);
      var c: nat, x: nat :| FiresStep(plan, fires[k], c, x) && c * |plan.steps| + x == k;
      FiredIsDispatched(plan, fires[k], dispatched[k], c, x);
    }
  }

  lemma FiredIsDispatched(plan: Plan, f: FiredTask, d: DispatchCall, c: nat, x: nat)
    requires FiresStep(plan, f, c, x) && d == PlannedDispatch(plan, f.id)
    ensures DispatchesStep(plan, f, d, c, x)
  {
  }

  /** It is dispatch number k of the sequence. */
  ghost predicate IsTurn(plan: Plan, f: FiredTask, d: DispatchCall, k: nat) {
    exists c: nat, x: nat :: DispatchesStep(plan, f, d, c, x) && c * |plan.steps| + x == k
  }

  lemma FirstTimerDrawn(plan: Plan)
    requires Startable(plan)
    ensures plan.firstTimer != 0 && plan.steps != []
  {
  }

  /** Nothing is missed: when a last drain does not use up its timer budget, every step of every cycle
      that was planned up to its tick has been dispatched. */
  lemma SequenceMissesNothing(
    s: Session, op: Operation, operations: seq<Operation>, tick: nat, timerBudget: nat, eventBudget: nat, c: nat, x: nat)
    requires op.StartSequence? && StartedAndSpared(s, op, operations)
    requires Spares(PlanOf(s, op), DrainDue(tick, timerBudget, eventBudget))
    requires x < |op.steps| && AskedFor(PlanOf(s, op), c)
    ensures Runnable(s)
    ensures var plan := PlanOf(s, op);
            var before := OperateAll(Operate(s, op).after, operations);
            var last := Operate(before.after, DrainDue(tick, timerBudget, eventBudget));
            |last.fired| < timerBudget && PlannedTick(plan, c, x) <= tick ==>
              c * |op.steps| + x < |OnlyFrom(before.batch + last.batch, TimersIn(plan))|
  {
    hide StartedAndSpared, SoundSession, Runnable, Stands, OperateAll, Operate, TimersIn, Spares, PlannedTick, AskedFor;
    StartedStands(s, op, operations);
    var plan, drain := PlanOf(s, op), DrainDue(tick, timerBudget, eventBudget);
    var before := OperateAll(Operate(s, op).after, operations);
    var fires := Only(before.fired, TimersIn(plan));
    OperationStands(before.after, plan, fires, drain);
    var last := Operate(before.after, drain);
    OnlyFromSum(before.batch, last.batch, TimersIn(plan));
    if |last.fired| < timerBudget {
      DrainLeavesNothingDue(before.after, drain);
      if PlannedTick(plan, c, x) > tick { return; }
      StandsDue(plan, fires + Only(last.fired, TimersIn(plan)), last.after.host, tick, c, x);
    }
  }

  lemma DrainLeavesNothingDue(s: Session, op: Operation)
    requires Runnable(s) && op.DrainDue? && |Operate(s, op).fired| < op.timerBudget
    ensures !SomeDue(Operate(s, op).after.host.tasks, op.tick)
  {
    hide RunDue, SomeDue, EraseEach;
    UnspentRunLeavesNothingDue(s.host.tasks, op.tick, op.timerBudget);
  }

  /** With nothing due, what has fired includes all that was planned. */
  lemma StandsDue(plan: Plan, fires: seq<FiredTask>, v: HostView, tick: nat, c: nat, x: nat)
    requires plan.steps != [] && Stands(plan, fires, v) && !SomeDue(v.tasks, tick)
    requires x < |plan.steps| && AskedFor(plan, c) && PlannedTick(plan, c, x) <= tick
    ensures c * |plan.steps| + x < |fires|
  {
    hide Kept, Sequences.StepTask, Sequences.Expected, SomeDue;
    var s, n := SequenceOf(plan), |plan.steps|;
    PlanIsWellShaped(plan);
    Sequences.FollowsHere(s, 0, 0, fires, v.tasks);
    var j, i := Sequences.CycleAfter(s, 0, 0, |fires|), Sequences.StepAfter(s, 0, |fires|);
    WhereItStands(s, 0, 0, |fires|);
    var next := if x < i then j + 1 else j;
    assert Get(v.tasks, s.ids[x]) == Sequences.StepTask(s, x, next);
    if c >= next {
      StepIsPlanned(plan, next, x, c);
      NothingDueIsLater(v.tasks, tick, s.ids[x]);
      assert false;
    }
    LessTurns(c, next, n, x);
    LessTurns(c, j, n, x);
  }

  lemma {:induction false} WhereItStands(s: Sequences.Sequence, j: nat, i: nat, m: nat)
    requires i < |s.ids|
    ensures Sequences.CycleAfter(s, j, i, m) * |s.ids| + Sequences.StepAfter(s, i, m) == j * |s.ids| + i + m
    decreases m
  {
    if m > 0 {
      WhereItStands(s, Sequences.NextCycle(s, j, i), Sequences.NextStep(s, i), m - 1);
      OneMore(j + 1, |s.ids|);
    }
  }

  lemma LessTurns(c: nat, d: nat, n: nat, x: nat)
    requires x < n
    ensures c < d ==> c * n + x < d * n
    ensures c == d ==> c * n == d * n
  {
    if c < d { assert (c + 1) * n <= d * n; }
  }

  /** A task that is still to come is not due before its planned tick. */
  lemma StepIsPlanned(plan: Plan, c: nat, x: nat, later: nat)
    requires x < |plan.steps| && AskedFor(plan, later) && c <= later
    ensures Sequences.WellShaped(SequenceOf(plan))
    ensures Sequences.StepTask(SequenceOf(plan), x, c).Some?
    ensures Sequences.StepTask(SequenceOf(plan), x, c).value.dueTick <= PlannedTick(plan, later, x)
  {
    PlanIsWellShaped(plan);
    assert c * TicksUpTo(plan.steps, |plan.steps|) <= later * TicksUpTo(plan.steps, |plan.steps|);
  }
}
