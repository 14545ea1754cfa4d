/** What starting a sequence builds, step by step, and how a start that runs out of ids takes it
    all back (src/game/GameplayScripting.cpp:115-153). */
module HostPlans {
  import opened Options
  import opened Scalars
  import opened Timers
  import opened HostLinks
  import Sequences

  datatype Step = Step(delayTicks: nat, callback: string, arguments: seq<GameplayValue>)

  function NormalizedDelay(delay: nat): nat { if delay == 0 then 1 else delay }

  function SaturatedAdd(a: nat, b: nat): nat { if a + b > MAX_TICK then MAX_TICK else a + b }

  /** nextId++ on an unsigned 64-bit counter. */
  function Bump(n: nat): nat { if n >= ULONG_MAX then 0 else n + 1 }

  /** The delays of the first n steps together. */
  function TicksUpTo(steps: seq<Step>, n: nat): nat
    requires n <= |steps|
  {
    if n == 0 then 0 else TicksUpTo(steps, n - 1) + NormalizedDelay(steps[n - 1].delayTicks)
  }

  lemma {:induction false} TicksIncrease(steps: seq<Step>, m: nat, n: nat)
    requires m < n <= |steps|
    ensures TicksUpTo(steps, m) < TicksUpTo(steps, n)
  {
    if m < n - 1 { TicksIncrease(steps, m, n - 1); }
  }

  /** Each step comes its delay after the one before it, and one tick after it where the delay is 0. */
  lemma StepsAreApart(steps: seq<Step>, x: nat)
    requires x < |steps|
    ensures TicksUpTo(steps, 0) == 0
    ensures steps[x].delayTicks == 0 ==> TicksUpTo(steps, x + 1) == TicksUpTo(steps, x) + 1
    ensures steps[x].delayTicks > 0 ==> TicksUpTo(steps, x + 1) == TicksUpTo(steps, x) + steps[x].delayTicks
  {
  }

  /** A start in progress: the ids it draws from, and what it was asked for. */
  datatype Plan = Plan(
    id: nat, firstTimer: nat, firstPayload: nat, tick: nat, target: nat, steps: seq<Step>, repeatCount: nat)

  function Interval(plan: Plan): nat {
    if plan.repeatCount == 1 then 0 else TicksUpTo(plan.steps, |plan.steps|)
  }

  function PlannedTask(plan: Plan, x: nat): Task
    requires x < |plan.steps|
  {
    Task(plan.firstTimer + x, SaturatedAdd(plan.tick, TicksUpTo(plan.steps, x + 1)), Interval(plan), plan.repeatCount,
         plan.firstPayload + x)
  }

  function PlannedCall(plan: Plan, x: nat): Call
    requires x < |plan.steps|
  {
    Call(plan.firstPayload + x, plan.firstTimer + x, plan.target, plan.steps[x].callback, plan.steps[x].arguments)
  }

  /** The call and the timer of one step. */
  function AddStep(l: Links, plan: Plan, x: nat): Links
    requires x < |plan.steps|
  {
    AddTimer(AddCall(l, PlannedCall(plan, x)), plan.id, plan.firstTimer + x)
  }

  /** The maps with steps j to n - 1 of the plan added. */
  function Built(l: Links, plan: Plan, j: nat, n: nat): Links
    requires n <= |plan.steps|
    decreases n
  {
    if n <= j then l
    else AddStep(Built(l, plan, j, n - 1), plan, n - 1)
  }

  function BuiltTasks(tasks: Tasks, plan: Plan, j: nat, n: nat): Tasks
    requires n <= |plan.steps|
    decreases n
  {
    if n <= j then tasks
    else BuiltTasks(tasks, plan, j, n - 1)[plan.firstTimer + n - 1 := PlannedTask(plan, n - 1)]
  }

  function PlannedTimers(plan: Plan, n: nat): seq<nat> {
    seq(n, x => plan.firstTimer + x)
  }

  /** Ids at and beyond the plan's are unused. */
  ghost predicate Unused(tasks: Tasks, l: Links, plan: Plan) {
    && plan.id !in l.sequences
    && (forall p :: p in l.calls ==> p < plan.firstPayload)
    && (forall t :: t in l.timerToPayload || t in l.timerToSequence || t in tasks ==> t < plan.firstTimer)
  }

  lemma {:induction false} BuiltKeys(tasks: Tasks, l: Links, plan: Plan, j: nat, n: nat)
    requires n <= |plan.steps|
    ensures var b := Built(l, plan, j, n);
            && b.sequences == l.sequences
            && (forall p :: p in b.calls <==> p in l.calls || plan.firstPayload + j <= p < plan.firstPayload + n)
            && (forall t :: t in b.timerToPayload <==> t in l.timerToPayload || plan.firstTimer + j <= t < plan.firstTimer + n)
            && (forall t :: t in b.timerToSequence <==> t in l.timerToSequence || plan.firstTimer + j <= t < plan.firstTimer + n)
            && (forall t :: t in BuiltTasks(tasks, plan, j, n) <==> t in tasks || plan.firstTimer + j <= t < plan.firstTimer + n)
    decreases n
  {
    if n > j { BuiltKeys(tasks, l, plan, j, n - 1); }
  }

  lemma {:induction false} BuiltTimerAt(l: Links, plan: Plan, j: nat, n: nat, x: nat)
    requires n <= |plan.steps| && j <= x < n
    ensures var b := Built(l, plan, j, n);
            && plan.firstTimer + x in b.timerToPayload && b.timerToPayload[plan.firstTimer + x] == plan.firstPayload + x
            && plan.firstTimer + x in b.timerToSequence && b.timerToSequence[plan.firstTimer + x] == plan.id
            && plan.firstPayload + x in b.calls && b.calls[plan.firstPayload + x] == PlannedCall(plan, x)
    decreases n
  {
    if x < n - 1 { BuiltTimerAt(l, plan, j, n - 1, x); }
  }

  lemma ErasePassesStep(l: Links, plan: Plan, x: nat, t: nat)
    requires x < |plan.steps| && plan.id !in l.sequences
    requires t in l.timerToPayload && t in l.timerToSequence && l.timerToSequence[t] == plan.id
    requires t != plan.firstTimer + x && l.timerToPayload[t] != plan.firstPayload + x
    ensures Erase(AddStep(l, plan, x), t) == AddStep(Erase(l, t), plan, x)
  {
    var a, b := Erase(AddStep(l, plan, x), t), AddStep(Erase(l, t), plan, x);
    assert a.calls == b.calls;
    assert a.timerToPayload == b.timerToPayload;
    assert a.timerToSequence == b.timerToSequence;
  }

  lemma EraseUndoesStep(l: Links, plan: Plan, x: nat)
    requires x < |plan.steps| && plan.id !in l.sequences && plan.firstPayload + x !in l.calls
    requires plan.firstTimer + x !in l.timerToPayload && plan.firstTimer + x !in l.timerToSequence
    ensures Erase(AddStep(l, plan, x), plan.firstTimer + x) == l
  {
    var a := Erase(AddStep(l, plan, x), plan.firstTimer + x);
    assert a.calls == l.calls;
    assert a.timerToPayload == l.timerToPayload;
    assert a.timerToSequence == l.timerToSequence;
  }

  lemma {:induction false} RemoveUnbuilds(tasks: Tasks, plan: Plan, j: nat, n: nat)
    requires j < n <= |plan.steps| && forall t :: t in tasks ==> t < plan.firstTimer
    ensures BuiltTasks(tasks, plan, j, n) - {plan.firstTimer + j} == BuiltTasks(tasks, plan, j + 1, n)
    decreases n
  {
    var t := plan.firstTimer + j;
    if n == j + 1 {
      assert BuiltTasks(tasks, plan, j, j) == tasks;
      assert tasks[t := PlannedTask(plan, j)] - {t} == tasks;
    } else {
      RemoveUnbuilds(tasks, plan, j, n - 1);
      var before := BuiltTasks(tasks, plan, j, n - 1);
      var added := PlannedTask(plan, n - 1);
      assert before[plan.firstTimer + n - 1 := added] - {t} == (before - {t})[plan.firstTimer + n - 1 := added];
    }
  }

  /** Cancelling the first timer left takes its step back and nothing else. */
  lemma {:induction false} EraseUnbuilds(tasks: Tasks, l: Links, plan: Plan, j: nat, n: nat)
    requires Unused(tasks, l, plan) && j < n <= |plan.steps|
    ensures Erase(Built(l, plan, j, n), plan.firstTimer + j) == Built(l, plan, j + 1, n)
    decreases n
  {
    hide Erase, AddStep;
    if n == j + 1 {
      assert Built(l, plan, j, j) == l;
      EraseUndoesStep(l, plan, j);
    } else {
      EraseUnbuilds(tasks, l, plan, j, n - 1);
      BuiltKeys(tasks, l, plan, j, n - 1);
      BuiltTimerAt(l, plan, j, n - 1, j);
      ErasePassesStep(Built(l, plan, j, n - 1), plan, n - 1, plan.firstTimer + j);
    }
  }

  // ----- the started sequence -----

  /** The sequence the plan describes, as Sequences speaks of one. */
  function SequenceOf(plan: Plan): Sequences.Sequence {
    var n := |plan.steps|;
    Sequences.Sequence(
      PlannedTimers(plan, n), seq(n, x => plan.firstPayload + x), plan.tick,
      seq(n, x requires 0 <= x < n => TicksUpTo(plan.steps, x + 1)), Interval(plan), plan.repeatCount)
  }

  lemma {:induction false} BuiltTaskAt(tasks: Tasks, plan: Plan, n: nat, x: nat)
    requires x < n <= |plan.steps|
    ensures Get(BuiltTasks(tasks, plan, 0, n), plan.firstTimer + x) == Some(PlannedTask(plan, x))
    decreases n
  {
    if x < n - 1 { BuiltTaskAt(tasks, plan, n - 1, x); }
  }

  lemma PlanIsWellShaped(plan: Plan)
    requires plan.steps != []
    ensures Sequences.WellShaped(SequenceOf(plan))
    ensures Sequences.Cycle(SequenceOf(plan)) == TicksUpTo(plan.steps, |plan.steps|)
  {
    var s, n := SequenceOf(plan), |plan.steps|;
    forall x, y | 0 <= x < y < n ensures s.offsets[x] < s.offsets[y] {
      TicksIncrease(plan.steps, x + 1, y + 1);
    }
    TicksIncrease(plan.steps, 0, 1);
  }

  /** The offsets of the steps strictly increase and the repeat interval is the last of them: a
      sequence starts out before its first step, in the shape that dispatch in step order needs. */
  lemma StartedInProgress(tasks: Tasks, plan: Plan)
    requires plan.steps != [] && plan.tick + TicksUpTo(plan.steps, |plan.steps|) <= MAX_TICK
    ensures Sequences.WellShaped(SequenceOf(plan))
    ensures Sequences.InProgress(SequenceOf(plan), BuiltTasks(tasks, plan, 0, |plan.steps|), 0, 0)
  {
    PlanIsWellShaped(plan);
    var s, n := SequenceOf(plan), |plan.steps|;
    forall x | 0 <= x < n ensures Get(BuiltTasks(tasks, plan, 0, n), s.ids[x]) == Sequences.StepTask(s, x, 0) {
      BuiltTaskAt(tasks, plan, n, x);
      if x + 1 < n { TicksIncrease(plan.steps, x + 1, n); }
    }
  }
}
