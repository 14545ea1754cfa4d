/** When the host's own snapshots can be restored: exactly while no drain drops a repeating timer at
    the end of the tick range and no id counter wraps, and what a caller does to keep it so. */
module HostLimits {
  import opened Scalars
  import opened Timers
  import opened HostLinks
  import opened HostPlans
  import opened Host
  import opened HostRuns

  const NewSession := Session(Fresh, [])

  /** Some drain of the run takes the overflow branch. */
  ghost predicate Overflowed(s: Session, operations: seq<Operation>)
    requires Runnable(s)
  {
    exists k :: 0 <= k < |operations| && OverflowsAt(s, operations, k)
  }

  ghost predicate OverflowsAt(s: Session, operations: seq<Operation>, k: nat)
    requires Runnable(s) && k < |operations|
  {
    Overflows(OperateAll(s, operations[..k]).after, operations[k])
  }

  lemma OverflowedOneMore(s: Session, operations: seq<Operation>)
    requires Runnable(s) && operations != []
    ensures var n := |operations| - 1;
            Overflowed(s, operations) <==> Overflowed(s, operations[..n]) || OverflowsAt(s, operations, n)
  {
    hide Overflows, OperateAll;
    var n := |operations| - 1;
    forall k | 0 <= k < n ensures OverflowsAt(s, operations[..n], k) <==> OverflowsAt(s, operations, k) {
      assert operations[..n][..k] == operations[..k];
    }
  }

  /** Every call has its timer, in the host and in every saved state. */
  ghost predicate AllAttached(s: Session) {
    Attached(s.host.tasks, s.host.links) && forall v :: v in s.saved ==> Attached(v.tasks, v.links)
  }

  lemma OperateKeepsAttached(s: Session, op: Operation)
    requires SoundSession(s) && AllAttached(s) && !Overflows(s, op)
    ensures AllAttached(Operate(s, op).after)
  {
    hide Sound, Attached, Overflows, Drained, Dispatched, Changed;
    OperateIsSound(s, op);
  }

  /** As long as no drain takes the overflow branch every call keeps its timer, through saving and
      restoring; and the first drain that takes it leaves a call without one. */
  lemma {:induction false} AttachedUntilOverflow(s: Session, operations: seq<Operation>)
    requires SoundSession(s) && AllAttached(s)
    ensures !Overflowed(s, operations) ==> AllAttached(OperateAll(s, operations).after)
    ensures operations != [] && !Overflowed(s, operations[..|operations| - 1]) ==>
              (Overflowed(s, operations) <==> !AllAttached(OperateAll(s, operations).after))
    decreases |operations|
  {
    hide Operate, SoundSession, AllAttached, Overflows, Runnable;
    SoundIsRunnable(s);
    if operations != [] {
      var n := |operations| - 1;
      var before := OperateAll(s, operations[..n]).after;
      AttachedUntilOverflow(s, operations[..n]);
      OperateAllIsSound(s, operations[..n]);
      OverflowedOneMore(s, operations);
      if !Overflowed(s, operations[..n]) {
        if Overflows(before, operations[n]) {
          OverflowDetaches(before, operations[n]);
        } else {
          OperateKeepsAttached(before, operations[n]);
        }
      }
    }
  }

  lemma OverflowDetaches(s: Session, op: Operation)
    requires SoundSession(s) && AllAttached(s) && Overflows(s, op)
    ensures !AllAttached(Operate(s, op).after)
  {
    hide Sound, Attached, Drained, Dispatched, Changed;
    OperateIsSound(s, op);
  }

  // ----- leaving room -----

  /** The interval at which what the operation schedules repeats. */
  function IntervalOf(op: Operation): nat {
    match op
    case ScheduleCall(_, _, _, _, interval, repeatCount) => if repeatCount == 1 then 0 else interval
    case StartSequence(_, steps, repeatCount) => if repeatCount == 1 then 0 else TicksUpTo(steps, |steps|)
    case _ => 0
  }

  predicate IntervalsAtMost(operations: seq<Operation>, longest: nat) {
    forall k | 0 <= k < |operations| :: IntervalOf(operations[k]) <= longest
  }

  /** Every drain leaves room for one more of the longest interval below the last tick. */
  predicate LeavesRoom(operations: seq<Operation>, longest: nat) {
    forall k | 0 <= k < |operations| :: operations[k].DrainDue? ==> operations[k].tick + longest <= MAX_TICK
  }

  predicate Within(tasks: Tasks, longest: nat) {
    forall id | id in tasks :: Repeats(tasks[id]) ==> tasks[id].intervalTicks <= longest
  }

  predicate AllWithin(s: Session, longest: nat) {
    Within(s.host.tasks, longest) && forall v | v in s.saved :: Within(v.tasks, longest)
  }

  lemma {:induction false} RunStaysWithin(tasks: Tasks, tick: nat, budget: nat, longest: nat)
    requires TasksOk(tasks) && Within(tasks, longest)
    ensures Within(RunDue(tasks, tick, budget).tasks, longest)
    decreases budget
  {
    hide SomeDue, IsNextDue;
    if budget > 0 && SomeDue(tasks, tick) {
      var id := NextDue(tasks, tick);
      NextDueHolds(tasks, tick, id);
      FireOneOk(tasks, id);
      RunStaysWithin(FireOne(tasks, id), tick, budget - 1, longest);
    }
  }

  lemma {:induction false} BuiltStaysWithin(tasks: Tasks, plan: Plan, n: nat, longest: nat)
    requires n <= |plan.steps| && Within(tasks, longest)
    requires plan.repeatCount != 1 ==> TicksUpTo(plan.steps, |plan.steps|) <= longest
    ensures Within(BuiltTasks(tasks, plan, 0, n), longest)
    decreases n
  {
    hide TicksUpTo;
    if n > 0 { BuiltStaysWithin(tasks, plan, n - 1, longest); }
  }

  lemma OperateStaysWithin(s: Session, op: Operation, longest: nat)
    requires Runnable(s) && AllWithin(s, longest) && IntervalOf(op) <= longest
    ensures AllWithin(Operate(s, op).after, longest)
  {
    hide RunDue, BuiltTasks, Erase, EraseEach, TicksUpTo, Attached, Startable, Sensible, AfterDraws, Started;
    match op
    case StartSequence(target, steps, repeatCount) =>
      BuiltStaysWithin(s.host.tasks, PlanIn(s.host, target, steps, repeatCount), |steps|, longest);
    case DrainDue(tick, timerBudget, _) => RunStaysWithin(s.host.tasks, tick, timerBudget, longest);
    case RestoreSaved(index) => if index < |s.saved| { assert s.saved[index] in s.saved; }
    case _ =>
  }

  /** With that room no drain takes the overflow branch. */
  lemma {:induction false} RoomMeansNoneLost(s: Session, operations: seq<Operation>, longest: nat)
    requires SoundSession(s) && AllWithin(s, longest)
    requires IntervalsAtMost(operations, longest) && LeavesRoom(operations, longest)
    ensures AllWithin(OperateAll(s, operations).after, longest) && !Overflowed(s, operations)
    decreases |operations|
  {
    hide Operate, SoundSession, AllWithin, Overflows, Overflowed, Runnable;
    SoundIsRunnable(s);
    NoOperationNoOverflow(s);
    if operations != [] {
      var n := |operations| - 1;
      RoomMeansNoneLost(s, operations[..n], longest);
      OperateStaysWithin(OperateAll(s, operations[..n]).after, operations[n], longest);
      RoomHere(OperateAll(s, operations[..n]).after, operations[n], longest);
      OverflowedOneMore(s, operations);
    }
  }

  lemma NoOperationNoOverflow(s: Session)
    requires Runnable(s)
    ensures !Overflowed(s, [])
  {
  }

  lemma RoomHere(s: Session, op: Operation, longest: nat)
    requires Runnable(s) && AllWithin(s, longest) && (op.DrainDue? ==> op.tick + longest <= MAX_TICK)
    ensures !Overflows(s, op)
  {
    if op.DrainDue? { RoomMeansNoOverflow(s.host.tasks, op.tick, op.timerBudget); }
  }

  // ----- the id counters -----

  /** How many ids of one kind the operation may draw. */
  function DrawsOf(op: Operation): nat {
    match op
    case ScheduleCall(_, _, _, _, _, _) => 1
    case StartSequence(_, steps, _) => |steps| + 1
    case Subscribe(_, _, _, _) => 1
    case _ => 0
  }

  function Draws(operations: seq<Operation>): nat {
    if operations == [] then 0
    else Draws(operations[..|operations| - 1]) + DrawsOf(operations[|operations| - 1])
  }

  /** No counter has wrapped, or is beyond m. */
  predicate CountsTo(v: HostView, m: nat) {
    0 < v.nextTimerId <= m && 0 < v.nextPayloadId <= m && 0 < v.nextSubscriptionId <= m && 0 < v.nextSequenceId <= m
  }

  predicate AllCountTo(s: Session, m: nat) {
    CountsTo(s.host, m) && forall v | v in s.saved :: CountsTo(v, m)
  }

  lemma {:induction false} DrawsCount(c: Counters, n: nat)
    requires 0 < c.payload && 0 < c.timer && c.payload + n <= ULONG_MAX && c.timer + n <= ULONG_MAX
    ensures AfterDraws(c, n) == Counters(c.payload + n, c.timer + n)
    decreases n
  {
    if n > 0 { DrawsCount(AfterDraw(c), n - 1); }
  }

  lemma OperateCounts(s: Session, op: Operation, m: nat)
    requires Runnable(s) && AllCountTo(s, m) && m + DrawsOf(op) <= ULONG_MAX
    ensures AllCountTo(Operate(s, op).after, m + DrawsOf(op))
  {
    hide RunDue, BuiltTasks, Erase, EraseEach, TicksUpTo, Attached, Startable, Sensible, AfterDraws, Started;
    match op
    case StartSequence(_, steps, _) => DrawsCount(Counters(s.host.nextPayloadId, s.host.nextTimerId), |steps|);
    case RestoreSaved(index) => if index < |s.saved| { assert s.saved[index] in s.saved; }
    case _ =>
  }

  /** A run that draws few enough ids wraps no counter. */
  lemma {:induction false} FewDrawsNoWrap(s: Session, operations: seq<Operation>, m: nat)
    requires Runnable(s) && AllCountTo(s, m) && m + Draws(operations) <= ULONG_MAX
    ensures AllCountTo(OperateAll(s, operations).after, m + Draws(operations))
    decreases |operations|
  {
    hide Operate, AllCountTo, Runnable;
    if operations != [] {
      var n := |operations| - 1;
      FewDrawsNoWrap(s, operations[..n], m);
      OperateCounts(OperateAll(s, operations[..n]).after, operations[n], m + Draws(operations[..n]));
    }
  }

  // ----- the main results -----

  ghost predicate AllRestorable(s: Session) {
    CanRestore(s.host) && forall v :: v in s.saved ==> CanRestore(v)
  }

  predicate NoneWrapped(v: HostView) {
    v.nextTimerId != 0 && v.nextPayloadId != 0 && v.nextSubscriptionId != 0 && v.nextSequenceId != 0
  }

  /** In every run of a new host in which no drain takes the overflow branch, its state and every
      state it saved can be restored exactly while no counter has wrapped. */
  lemma RestorableExactly(operations: seq<Operation>)
    requires !Overflowed(NewSession, operations)
    ensures var after := OperateAll(NewSession, operations).after;
            && (CanRestore(after.host) <==> NoneWrapped(after.host))
            && (forall v :: v in after.saved ==> (CanRestore(v) <==> NoneWrapped(v)))
  {
    hide OperateAll, Sound, Overflowed, Attached;
    NewIsSound();
    AttachedUntilOverflow(NewSession, operations);
  }

  /** If every drain's tick leaves room for the longest interval scheduled, no drain takes the branch;
      and if the run asks for fewer than 2^64 - 1 ids in all, every state of the run can be restored. */
  lemma RoomMeansRestorable(operations: seq<Operation>, longest: nat)
    requires IntervalsAtMost(operations, longest) && LeavesRoom(operations, longest)
    ensures !Overflowed(NewSession, operations)
    ensures Draws(operations) < ULONG_MAX ==> AllRestorable(OperateAll(NewSession, operations).after)
  {
    hide OperateAll, Sound, Overflowed, Attached, Draws;
    NewIsSound();
    RoomMeansNoneLost(NewSession, operations, longest);
    RestorableExactly(operations);
    if Draws(operations) < ULONG_MAX { FewDrawsNoWrap(NewSession, operations, 1); }
  }

  lemma NewIsSound()
    ensures SoundSession(NewSession) && AllAttached(NewSession)
  {
    FreshIsSound();
  }
}
