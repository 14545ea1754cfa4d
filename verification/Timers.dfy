/** What src/game/GameplayPrimitives.cpp promises of timers, without its queue: a run repeatedly
    takes the due task with the least (due tick, id) and fires it. */
module Timers {
  import opened Options
  import opened Scalars

  const REPEAT_FOREVER: nat := 0
  const MAX_TICK: nat := ULONG_MAX

  datatype Task = Task(id: nat, dueTick: nat, intervalTicks: nat, remainingFires: nat, payload: nat)

  datatype FiredTask = FiredTask(id: nat, scheduledTick: nat, payload: nat, repeats: bool)

  datatype QueueKey = QueueKey(dueTick: nat, id: nat)

  type Tasks = map<nat, Task>

  /** QueueKey's operator<. */
  predicate Precedes(a: QueueKey, b: QueueKey) {
    a.dueTick < b.dueTick || (a.dueTick == b.dueTick && a.id < b.id)
  }

  function KeyOf(t: Task): QueueKey { QueueKey(t.dueTick, t.id) }

  function TaskId(t: Task): nat { t.id }

  predicate Repeats(t: Task) {
    t.remainingFires == REPEAT_FOREVER || t.remainingFires > 1
  }

  /** A repeating task has an interval; the scheduler and its restore refuse others. */
  predicate TaskOk(t: Task) {
    t.id != 0 && (Repeats(t) ==> t.intervalTicks > 0)
  }

  predicate TasksOk(tasks: Tasks) {
    forall id | id in tasks :: tasks[id].id == id && TaskOk(tasks[id])
  }

  // ----- one task by itself -----

  /** What is left of a task when it has fired once.  A next due tick beyond the last tick ends it. */
  function Next(t: Task): Maybe<Task> {
    if !Repeats(t) || t.intervalTicks > MAX_TICK - t.dueTick then None
    else
      var left := if t.remainingFires == REPEAT_FOREVER then REPEAT_FOREVER else t.remainingFires - 1;
      Some(t.(remainingFires := left, dueTick := t.dueTick + t.intervalTicks))
  }

  /** A task goes on exactly when firings are left and the next due tick is still a tick; then it is due one
      interval later with one firing fewer, unless it repeats for ever. */
  lemma NextExactly(t: Task)
    requires t.dueTick <= MAX_TICK
    ensures Next(t).Some? <==> t.remainingFires != 1 && t.dueTick + t.intervalTicks <= MAX_TICK
    ensures Next(t).Some? ==>
      Next(t).value == Task(t.id, t.dueTick + t.intervalTicks, t.intervalTicks,
                            if t.remainingFires == 0 then 0 else t.remainingFires - 1, t.payload)
  {
  }

  function Fire(t: Task): FiredTask {
    FiredTask(t.id, t.dueTick, t.payload, Repeats(t))
  }

  // ----- runs -----

  ghost predicate IsNextDue(tasks: Tasks, tick: nat, id: nat) {
    id in tasks && tasks[id].dueTick <= tick &&
    forall other :: other in tasks && other != id ==> Precedes(KeyOf(tasks[id]), KeyOf(tasks[other]))
  }

  ghost predicate SomeDue(tasks: Tasks, tick: nat) {
    exists id :: id in tasks && tasks[id].dueTick <= tick
  }

  lemma {:induction false} NextDueExists(tasks: Tasks, tick: nat)
    requires TasksOk(tasks) && SomeDue(tasks, tick)
    ensures exists id :: IsNextDue(tasks, tick, id)
    decreases |tasks|
  {
    var id :| id in tasks && tasks[id].dueTick <= tick;
    if !IsNextDue(tasks, tick, id) {
      var other :| other in tasks && other != id && !Precedes(KeyOf(tasks[id]), KeyOf(tasks[other]));
      var rest := tasks - {id};
      assert tasks == rest[id := tasks[id]];
      assert other in rest && rest[other].dueTick <= tick;
      NextDueExists(rest, tick);
      var least :| IsNextDue(rest, tick, least);
      forall x | x in tasks && x != least ensures Precedes(KeyOf(tasks[least]), KeyOf(tasks[x])) {
        if x == id {
          if least != other { assert Precedes(KeyOf(rest[least]), KeyOf(rest[other])); }
        } else {
          assert x in rest;
        }
      }
      assert IsNextDue(tasks, tick, least);
    }
  }

  lemma NextDueHolds(tasks: Tasks, tick: nat, id: nat)
    requires IsNextDue(tasks, tick, id)
    ensures id in tasks && tasks[id].dueTick <= tick
  {
  }

  ghost function NextDue(tasks: Tasks, tick: nat): (id: nat)
    requires TasksOk(tasks) && SomeDue(tasks, tick)
    ensures IsNextDue(tasks, tick, id)
  {
    NextDueExists(tasks, tick);
    var id :| IsNextDue(tasks, tick, id);
    id
  }

  lemma NextDueUnique(tasks: Tasks, tick: nat, a: nat, b: nat)
    requires IsNextDue(tasks, tick, a) && IsNextDue(tasks, tick, b)
    ensures a == b
  {
  }

  function FireOne(tasks: Tasks, id: nat): (after: Tasks)
    requires id in tasks
  {
    match Next(tasks[id])
    case None => tasks - {id}
    case Some(t) => tasks[id := t]
  }

  lemma FireOneOk(tasks: Tasks, id: nat)
    requires TasksOk(tasks) && id in tasks
    ensures TasksOk(FireOne(tasks, id))
  {
  }

  datatype Firing = Firing(fired: seq<FiredTask>, tasks: Tasks)

  /** runDue, as its callers understand it. */
  ghost function RunDue(tasks: Tasks, tick: nat, budget: nat): (r: Firing)
    requires TasksOk(tasks)
    ensures TasksOk(r.tasks) && |r.fired| <= budget
    decreases budget
  {
    if budget == 0 || !SomeDue(tasks, tick) then Firing([], tasks)
    else
      var id := NextDue(tasks, tick);
      FireOneOk(tasks, id);
      var rest := RunDue(FireOne(tasks, id), tick, budget - 1);
      Firing([Fire(tasks[id])] + rest.fired, rest.tasks)
  }

  /** Splitting a budget over two calls changes nothing. */
  lemma {:induction false} BudgetSplits(tasks: Tasks, tick: nat, a: nat, b: nat)
    requires TasksOk(tasks)
    ensures var first := RunDue(tasks, tick, a);
            var second := RunDue(first.tasks, tick, b);
            RunDue(tasks, tick, a + b) == Firing(first.fired + second.fired, second.tasks)
    decreases a
  {
    hide TasksOk, SomeDue, FireOne, IsNextDue, RunDue;
    if a > 0 && SomeDue(tasks, tick) {
      var id := NextDue(tasks, tick);
      NextDueHolds(tasks, tick, id);
      FireOneOk(tasks, id);
      BudgetSplits(FireOne(tasks, id), tick, a - 1, b);
      RunDueUnrolls(tasks, tick, a);
      RunDueUnrolls(tasks, tick, a + b);
      var rest := RunDue(FireOne(tasks, id), tick, a - 1);
      var second := RunDue(rest.tasks, tick, b);
      assert [Fire(tasks[id])] + (rest.fired + second.fired) == ([Fire(tasks[id])] + rest.fired) + second.fired;
    } else {
      RunDueStops(tasks, tick, a);
      if a > 0 {
        RunDueStops(tasks, tick, b);
        RunDueStops(tasks, tick, a + b);
      }
      assert [] + RunDue(tasks, tick, b).fired == RunDue(tasks, tick, b).fired;
    }
  }

  lemma RunDueStops(tasks: Tasks, tick: nat, budget: nat)
    requires TasksOk(tasks) && (budget == 0 || !SomeDue(tasks, tick))
    ensures RunDue(tasks, tick, budget) == Firing([], tasks)
  {
  }

  lemma RunDueUnrolls(tasks: Tasks, tick: nat, budget: nat)
    requires TasksOk(tasks) && budget > 0 && SomeDue(tasks, tick)
    ensures var id := NextDue(tasks, tick);
            TasksOk(FireOne(tasks, id)) &&
            var rest := RunDue(FireOne(tasks, id), tick, budget - 1);
            RunDue(tasks, tick, budget) == Firing([Fire(tasks[id])] + rest.fired, rest.tasks)
  {
    FireOneOk(tasks, NextDue(tasks, tick));
  }

  function FiredKey(f: FiredTask): QueueKey { QueueKey(f.scheduledTick, f.id) }

  ghost predicate AllAfter(tasks: Tasks, key: QueueKey) {
    forall id :: id in tasks ==> Precedes(key, KeyOf(tasks[id]))
  }

  lemma FiringMovesOn(tasks: Tasks, tick: nat, id: nat)
    requires TasksOk(tasks) && IsNextDue(tasks, tick, id)
    ensures AllAfter(FireOne(tasks, id), KeyOf(tasks[id]))
  {
  }

  /** Everything a run fires was due, and its keys strictly increase; what stays behind comes
      after all of it, and unless the budget ran out none of that is due. */
  lemma {:induction false} FiredInOrder(tasks: Tasks, tick: nat, budget: nat, key: QueueKey)
    requires TasksOk(tasks) && AllAfter(tasks, key)
    ensures var r := RunDue(tasks, tick, budget);
            && (forall i :: 0 <= i < |r.fired| ==> r.fired[i].scheduledTick <= tick && Precedes(key, FiredKey(r.fired[i])))
            && (forall i, j :: 0 <= i < j < |r.fired| ==> Precedes(FiredKey(r.fired[i]), FiredKey(r.fired[j])))
            && (forall i :: 0 <= i < |r.fired| ==> AllAfter(r.tasks, FiredKey(r.fired[i])))
            && (|r.fired| < budget ==> !SomeDue(r.tasks, tick))
            && AllAfter(r.tasks, key)
    decreases budget
  {
    hide FireOne, IsNextDue, TasksOk;
    if budget > 0 && SomeDue(tasks, tick) {
      var id := NextDue(tasks, tick);
      NextDueHolds(tasks, tick, id);
      FireOneOk(tasks, id);
      FiringMovesOn(tasks, tick, id);
      FiredInOrder(FireOne(tasks, id), tick, budget - 1, KeyOf(tasks[id]));
      var r := RunDue(tasks, tick, budget);
      var rest := RunDue(FireOne(tasks, id), tick, budget - 1);
      assert r.fired[0] == Fire(tasks[id]) && forall i :: 0 < i < |r.fired| ==> r.fired[i] == rest.fired[i - 1];
      forall i | 0 <= i < |r.fired| ensures AllAfter(r.tasks, FiredKey(r.fired[i])) {
        if i > 0 { assert r.fired[i] == rest.fired[i - 1]; }
      }
    }
  }

  /** Timers fire by due tick, and by id on one tick, and none before it is due; what stays behind is
      due later, or on the same tick under a larger id. */
  lemma FiredByTickThenId(tasks: Tasks, tick: nat, budget: nat)
    requires TasksOk(tasks)
    ensures var r := RunDue(tasks, tick, budget);
            && (forall i, j :: 0 <= i < j < |r.fired| ==>
                  r.fired[i].scheduledTick < r.fired[j].scheduledTick ||
                  (r.fired[i].scheduledTick == r.fired[j].scheduledTick && r.fired[i].id < r.fired[j].id))
            && (forall i, id :: 0 <= i < |r.fired| && id in r.tasks ==>
                  r.fired[i].scheduledTick < r.tasks[id].dueTick ||
                  (r.fired[i].scheduledTick == r.tasks[id].dueTick && r.fired[i].id < id))
            && (forall i :: 0 <= i < |r.fired| ==> r.fired[i].scheduledTick <= tick)
            && (|r.fired| < budget ==> forall id :: id in r.tasks ==> r.tasks[id].dueTick > tick)
  {
    hide RunDue;
    FiredInOrder(tasks, tick, budget, QueueKey(0, 0));
  }

  // ----- the life of one task -----

  function Get(tasks: Tasks, id: nat): Maybe<Task> {
    if id in tasks then Some(tasks[id]) else None
  }

  /** The task after m firings, and those firings, with nothing else in the scheduler. */
  function AfterFires(t: Maybe<Task>, m: nat): Maybe<Task>
    decreases m
  {
    if m == 0 || t.None? then t else AfterFires(Next(t.value), m - 1)
  }

  function FiresFrom(t: Maybe<Task>, m: nat): seq<FiredTask>
    decreases m
  {
    if m == 0 || t.None? then [] else [Fire(t.value)] + FiresFrom(Next(t.value), m - 1)
  }

  /** The firings of the given tasks, in order. */
  function Only(fired: seq<FiredTask>, ids: set<nat>): seq<FiredTask> {
    if fired == [] then []
    else if fired[0].id in ids then [fired[0]] + Only(fired[1..], ids) else Only(fired[1..], ids)
  }

  lemma {:induction false} OnlyOfSum(a: seq<FiredTask>, b: seq<FiredTask>, ids: set<nat>)
    ensures Only(a + b, ids) == Only(a, ids) + Only(b, ids)
  {
    if a == [] {
      assert a + b == b;
    } else {
      OnlyOfSum(a[1..], b, ids);
      assert (a + b)[1..] == a[1..] + b;
    }
  }

  lemma {:induction false} FiresCompose(t: Maybe<Task>, a: nat, b: nat)
    requires |FiresFrom(t, a)| == a
    ensures FiresFrom(t, a + b) == FiresFrom(t, a) + FiresFrom(AfterFires(t, a), b)
    ensures AfterFires(t, a + b) == AfterFires(AfterFires(t, a), b)
    decreases a
  {
    if a > 0 { FiresCompose(Next(t.value), a - 1, b); }
  }

  /** What a run does to one task does not depend on the others. */
  ghost predicate OnItsTimeline(before: Maybe<Task>, fires: seq<FiredTask>, after: Maybe<Task>) {
    fires == FiresFrom(before, |fires|) && after == AfterFires(before, |fires|)
  }

  lemma TimelinesCompose(
    t0: Maybe<Task>, x: seq<FiredTask>, t1: Maybe<Task>, y: seq<FiredTask>, t2: Maybe<Task>)
    requires OnItsTimeline(t0, x, t1) && OnItsTimeline(t1, y, t2)
    ensures OnItsTimeline(t0, x + y, t2)
  {
    FiresCompose(t0, |x|, |y|);
  }

  lemma {:induction false} RunKeepsTimeline(tasks: Tasks, tick: nat, budget: nat, id: nat)
    requires TasksOk(tasks)
    ensures var r := RunDue(tasks, tick, budget);
            OnItsTimeline(Get(tasks, id), Only(r.fired, {id}), Get(r.tasks, id))
    decreases budget
  {
    if budget > 0 && SomeDue(tasks, tick) {
      hide SomeDue, IsNextDue, OnItsTimeline, FireOne, Only;
      var next := NextDue(tasks, tick);
      NextDueHolds(tasks, tick, next);
      FireOneOk(tasks, next);
      var after := FireOne(tasks, next);
      var rest := RunDue(after, tick, budget - 1);
      RunKeepsTimeline(after, tick, budget - 1, id);
      var first := [Fire(tasks[next])];
      OnlyOfSum(first, rest.fired, {id});
      FireOneOnTimeline(tasks, next, id);
      TimelinesCompose(Get(tasks, id), Only(first, {id}), Get(after, id), Only(rest.fired, {id}), Get(rest.tasks, id));
    }
  }

  lemma FireOneOnTimeline(tasks: Tasks, next: nat, id: nat)
    requires TasksOk(tasks) && next in tasks
    ensures OnItsTimeline(Get(tasks, id), Only([Fire(tasks[next])], {id}), Get(FireOne(tasks, next), id))
  {
    var t := Get(tasks, id);
    if id == next {
      assert Only([Fire(tasks[next])], {id}) == [Fire(tasks[next])];
      assert FiresFrom(t, 1) == [Fire(t.value)] + FiresFrom(Next(t.value), 0);
      assert AfterFires(t, 1) == AfterFires(Next(t.value), 0);
    } else {
      assert Only([Fire(tasks[next])], {id}) == [];
    }
  }

  // ----- any number of runs, with other timers coming and going -----

  datatype Action = Run(tick: nat, budget: nat) | Schedule(task: Task) | Cancel(id: nat)

  /** An action the scheduler can take that leaves the given tasks alone. */
  predicate Allowed(tasks: Tasks, a: Action, ids: set<nat>) {
    match a
    case Run(_, _) => true
    case Schedule(t) => TaskOk(t) && t.id !in tasks && t.id !in ids
    case Cancel(id) => id !in ids
  }

  ghost function Act(tasks: Tasks, a: Action): (r: Firing)
    requires TasksOk(tasks) && Allowed(tasks, a, {})
    ensures TasksOk(r.tasks)
  {
    match a
    case Run(tick, budget) => RunDue(tasks, tick, budget)
    case Schedule(t) => Firing([], tasks[t.id := t])
    case Cancel(id) => Firing([], tasks - {id})
  }

  ghost predicate AllAllowed(tasks: Tasks, actions: seq<Action>, ids: set<nat>)
    requires TasksOk(tasks)
    decreases |actions|
  {
    actions == [] ||
    (Allowed(tasks, actions[0], ids) && AllAllowed(Act(tasks, actions[0]).tasks, actions[1..], ids))
  }

  ghost function Play(tasks: Tasks, actions: seq<Action>, ids: set<nat>): (r: Firing)
    requires TasksOk(tasks) && AllAllowed(tasks, actions, ids)
    ensures TasksOk(r.tasks)
    decreases |actions|
  {
    if actions == [] then Firing([], tasks)
    else
      var first := Act(tasks, actions[0]);
      var rest := Play(first.tasks, actions[1..], ids);
      Firing(first.fired + rest.fired, rest.tasks)
  }

  lemma ActKeepsTimeline(tasks: Tasks, a: Action, id: nat)
    requires TasksOk(tasks) && Allowed(tasks, a, {id})
    ensures OnItsTimeline(Get(tasks, id), Only(Act(tasks, a).fired, {id}), Get(Act(tasks, a).tasks, id))
  {
    if a.Run? {
      RunKeepsTimeline(tasks, a.tick, a.budget, id);
    } else {
      assert Only([], {id}) == [];
    }
  }

  /** Over any history in which it is not cancelled, a task fires as if it were alone. */
  lemma {:induction false} PlayKeepsTimeline(tasks: Tasks, actions: seq<Action>, id: nat)
    requires TasksOk(tasks) && AllAllowed(tasks, actions, {id})
    ensures var r := Play(tasks, actions, {id});
            OnItsTimeline(Get(tasks, id), Only(r.fired, {id}), Get(r.tasks, id))
    decreases |actions|
  {
    if actions != [] {
      hide OnItsTimeline, Only, Allowed, Act;
      var first := Act(tasks, actions[0]);
      var rest := Play(first.tasks, actions[1..], {id});
      ActKeepsTimeline(tasks, actions[0], id);
      PlayKeepsTimeline(first.tasks, actions[1..], id);
      OnlyOfSum(first.fired, rest.fired, {id});
      TimelinesCompose(
        Get(tasks, id), Only(first.fired, {id}), Get(first.tasks, id), Only(rest.fired, {id}), Get(rest.tasks, id));
    }
  }

  /** No firing of the task runs past the last tick. */
  predicate Fits(t: Task) {
    t.remainingFires > 0 && t.dueTick + (t.remainingFires - 1) * t.intervalTicks <= MAX_TICK
  }

  lemma NextFits(t: Task)
    requires Fits(t) && Repeats(t)
    ensures Next(t).Some? && Fits(Next(t).value)
  {
    var n := t.remainingFires;
    OneMore(n - 1, t.intervalTicks);
    assert 0 <= (n - 2) * t.intervalTicks;
  }

  lemma OneMore(m: int, interval: int)
    ensures m * interval == (m - 1) * interval + interval
  {
  }

  /** In closed form: firing k comes at due + k * interval, and a task that asked for n firings has
      n of them. */
  lemma {:induction false} FiresInClosedForm(t: Task, m: nat, k: nat)
    requires Fits(t)
    ensures |FiresFrom(Some(t), m)| == if m < t.remainingFires then m else t.remainingFires
    ensures k < |FiresFrom(Some(t), m)| ==>
      FiresFrom(Some(t), m)[k] == FiredTask(t.id, t.dueTick + k * t.intervalTicks, t.payload, k < t.remainingFires - 1)
    ensures m >= t.remainingFires <==> AfterFires(Some(t), m).None?
    ensures m < t.remainingFires ==> AfterFires(Some(t), m).value.dueTick == t.dueTick + m * t.intervalTicks
    decreases m
  {
    if m > 0 {
      if Repeats(t) {
        NextFits(t);
        FiresInClosedForm(Next(t).value, m - 1, if k > 0 then k - 1 else 0);
        OneMore(m, t.intervalTicks);
        OneMore(k, t.intervalTicks);
      }
    }
  }

  /** A task scheduled to fire n times fires at due, due + interval, ... and never elsewhere, whatever
      the other timers, the budgets and the ticks of the runs; a run that ends within its budget has
      fired everything up to its tick. */
  lemma CountedTaskFires(tasks: Tasks, actions: seq<Action>, last: Action, id: nat)
    requires TasksOk(tasks) && id in tasks && Fits(tasks[id])
    requires AllAllowed(tasks, actions, {id}) && last.Run?
    ensures var t, before := tasks[id], Play(tasks, actions, {id});
            var run := RunDue(before.tasks, last.tick, last.budget);
            var fires := Only(before.fired + run.fired, {id});
            && |fires| <= t.remainingFires
            && (forall k :: 0 <= k < |fires| ==>
                  fires[k] == FiredTask(id, t.dueTick + k * t.intervalTicks, t.payload, k < t.remainingFires - 1))
            && (|run.fired| < last.budget && |fires| < t.remainingFires ==>
                  t.dueTick + |fires| * t.intervalTicks > last.tick)
  {
    hide Only, Play, RunDue, AllAllowed, FiresFrom, AfterFires, SomeDue;
    var t, before := tasks[id], Play(tasks, actions, {id});
    var run := RunDue(before.tasks, last.tick, last.budget);
    var fires := Only(before.fired + run.fired, {id});
    PlayThenRun(tasks, actions, last, id);
    assert OnItsTimeline(Some(t), fires, Get(run.tasks, id));
    forall k | 0 <= k < |fires|
      ensures fires[k] == FiredTask(id, t.dueTick + k * t.intervalTicks, t.payload, k < t.remainingFires - 1)
    {
      FiresInClosedForm(t, |fires|, k);
    }
    FiresInClosedForm(t, |fires|, 0);
    if |run.fired| < last.budget && |fires| < t.remainingFires {
      UnspentRunLeavesNothingDue(before.tasks, last.tick, last.budget);
      NothingDueIsLater(run.tasks, last.tick, id);
    }
  }

  lemma NothingDueIsLater(tasks: Tasks, tick: nat, id: nat)
    requires !SomeDue(tasks, tick)
    ensures id in tasks ==> tasks[id].dueTick > tick
  {
  }

  lemma PlayThenRun(tasks: Tasks, actions: seq<Action>, last: Action, id: nat)
    requires TasksOk(tasks) && AllAllowed(tasks, actions, {id}) && last.Run?
    ensures var before := Play(tasks, actions, {id});
            var run := RunDue(before.tasks, last.tick, last.budget);
            OnItsTimeline(Get(tasks, id), Only(before.fired + run.fired, {id}), Get(run.tasks, id))
  {
    hide Only, Play, RunDue, AllAllowed, OnItsTimeline;
    var before := Play(tasks, actions, {id});
    var run := RunDue(before.tasks, last.tick, last.budget);
    PlayKeepsTimeline(tasks, actions, id);
    RunKeepsTimeline(before.tasks, last.tick, last.budget, id);
    OnlyOfSum(before.fired, run.fired, {id});
    TimelinesCompose(Get(tasks, id), Only(before.fired, {id}), Get(before.tasks, id), Only(run.fired, {id}), Get(run.tasks, id));
  }

  lemma {:induction false} UnspentRunLeavesNothingDue(tasks: Tasks, tick: nat, budget: nat)
    requires TasksOk(tasks)
    ensures |RunDue(tasks, tick, budget).fired| < budget ==> !SomeDue(RunDue(tasks, tick, budget).tasks, tick)
    decreases budget
  {
    if budget > 0 && SomeDue(tasks, tick) {
      FireOneOk(tasks, NextDue(tasks, tick));
      UnspentRunLeavesNothingDue(FireOne(tasks, NextDue(tasks, tick)), tick, budget - 1);
    }
  }
}
