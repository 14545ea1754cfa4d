/** Why a script sequence is dispatched in step order (src/game/GameplayScripting.cpp:115-153):
    each step is a timer whose first due tick is later than the step's before it, and all of them
    repeat with an interval that equals the last step's offset. */
module Sequences {
  import opened Options
  import opened Scalars
  import opened Timers

  /** The timers of one sequence, started at tick base. */
  datatype Sequence = Sequence(
    ids: seq<nat>, payloads: seq<nat>, base: nat, offsets: seq<nat>, interval: nat, repeatCount: nat)

  predicate WellShaped(s: Sequence) {
    && |s.ids| == |s.payloads| == |s.offsets| > 0
    && (forall x, y | 0 <= x < y < |s.ids| :: s.ids[x] != s.ids[y])
    && (forall x, y | 0 <= x < y < |s.offsets| :: s.offsets[x] < s.offsets[y])
    && s.offsets[0] > 0
    && (s.repeatCount != 1 ==> s.interval == s.offsets[|s.offsets| - 1])
  }

  function Cycle(s: Sequence): nat
    requires WellShaped(s)
  {
    s.offsets[|s.offsets| - 1]
  }

  /** Firing at that tick leaves room for one more cycle below the last tick, if there is to be one. */
  predicate RoomFor(s: Sequence, tick: nat)
    requires WellShaped(s)
  {
    s.repeatCount != 1 ==> tick + Cycle(s) <= MAX_TICK
  }

  /** The timer of step x when it has fired c times. */
  function StepTask(s: Sequence, x: nat, c: nat): Maybe<Task>
    requires WellShaped(s) && x < |s.ids|
  {
    if s.repeatCount != REPEAT_FOREVER && c >= s.repeatCount then None
    else
      var left := if s.repeatCount == REPEAT_FOREVER then REPEAT_FOREVER else s.repeatCount - c;
      Some(Task(s.ids[x], s.base + s.offsets[x] + c * Cycle(s), s.interval, left, s.payloads[x]))
  }

  function Ids(s: Sequence): set<nat> {
    set x | 0 <= x < |s.ids| :: s.ids[x]
  }

  /** Cycles 0 to j - 1 are over, and steps 0 to i - 1 of cycle j. */
  predicate InProgress(s: Sequence, tasks: Tasks, j: nat, i: nat)
    requires WellShaped(s)
  {
    i < |s.ids| && forall x | 0 <= x < |s.ids| :: Get(tasks, s.ids[x]) == StepTask(s, x, if x < i then j + 1 else j)
  }

  /** The next m firings of the sequence, in step order and cycle after cycle. */
  function Expected(s: Sequence, j: nat, i: nat, m: nat): seq<FiredTask>
    requires WellShaped(s) && i < |s.ids|
    decreases m
  {
    if m == 0 || StepTask(s, i, j).None? then []
    else [Fire(StepTask(s, i, j).value)] + Expected(s, NextCycle(s, j, i), NextStep(s, i), m - 1)
  }

  function NextStep(s: Sequence, i: nat): nat { if i + 1 < |s.ids| then i + 1 else 0 }

  function NextCycle(s: Sequence, j: nat, i: nat): nat { if i + 1 < |s.ids| then j else j + 1 }

  /** Where the sequence stands after m more firings. */
  function StepAfter(s: Sequence, i: nat, m: nat): nat
    decreases m
  {
    if m == 0 then i else StepAfter(s, NextStep(s, i), m - 1)
  }

  function CycleAfter(s: Sequence, j: nat, i: nat, m: nat): nat
    decreases m
  {
    if m == 0 then j else CycleAfter(s, NextCycle(s, j, i), NextStep(s, i), m - 1)
  }

  lemma CycleGrows(s: Sequence, j: nat)
    requires WellShaped(s)
    ensures (j + 1) * Cycle(s) == j * Cycle(s) + Cycle(s) && Cycle(s) > 0
  {
    assert s.offsets[|s.offsets| - 1] >= s.offsets[0];
  }

  lemma OffsetsWithinCycle(s: Sequence, x: nat)
    requires WellShaped(s) && x < |s.ids|
    ensures 0 < s.offsets[x] <= Cycle(s)
  {
    if x > 0 { assert s.offsets[0] < s.offsets[x]; }
    if x < |s.ids| - 1 { assert s.offsets[x] < s.offsets[|s.offsets| - 1]; }
  }

  /** The step whose turn it is is due before any other step that is still to fire. */
  lemma EarlierTurn(s: Sequence, j: nat, i: nat, x: nat)
    requires WellShaped(s) && i < |s.ids| && x < |s.ids| && x != i
    ensures var mine, other := StepTask(s, i, j), StepTask(s, x, if x < i then j + 1 else j);
            other.Some? ==> mine.Some? && mine.value.dueTick < other.value.dueTick
  {
    CycleGrows(s, j);
    OffsetsWithinCycle(s, i);
    OffsetsWithinCycle(s, x);
  }

  /** Of the sequence's timers, the one whose turn it is comes first. */
  lemma OnlyItsTurn(s: Sequence, tasks: Tasks, j: nat, i: nat, tick: nat, id: nat)
    requires WellShaped(s) && InProgress(s, tasks, j, i) && IsNextDue(tasks, tick, id) && id in Ids(s)
    ensures id == s.ids[i] && Get(tasks, id) == StepTask(s, i, j) && StepTask(s, i, j).Some?
  {
    var x :| 0 <= x < |s.ids| && s.ids[x] == id;
    assert Get(tasks, id) == StepTask(s, x, if x < i then j + 1 else j);
    if x != i { EarlierTurn(s, j, i, x); }
  }

  /** Firing the timer whose turn it is passes the turn on. */
  lemma TurnPassesOn(s: Sequence, tasks: Tasks, j: nat, i: nat)
    requires WellShaped(s) && InProgress(s, tasks, j, i) && StepTask(s, i, j).Some?
    requires RoomFor(s, tasks[s.ids[i]].dueTick)
    ensures InProgress(s, FireOne(tasks, s.ids[i]), NextCycle(s, j, i), NextStep(s, i))
  {
    var after := FireOne(tasks, s.ids[i]);
    CycleGrows(s, j);
    assert Get(tasks, s.ids[i]) == StepTask(s, i, j);
    assert Next(tasks[s.ids[i]]) == StepTask(s, i, j + 1);
    forall x | 0 <= x < |s.ids|
      ensures Get(after, s.ids[x]) ==
              StepTask(s, x, if x < NextStep(s, i) then NextCycle(s, j, i) + 1 else NextCycle(s, j, i))
    {
      if x != i {
        assert s.ids[x] != s.ids[i];
        assert Get(after, s.ids[x]) == Get(tasks, s.ids[x]);
      }
    }
  }

  lemma OtherFires(s: Sequence, tasks: Tasks, j: nat, i: nat, id: nat)
    requires WellShaped(s) && InProgress(s, tasks, j, i) && id in tasks && id !in Ids(s) && TasksOk(tasks)
    ensures InProgress(s, FireOne(tasks, id), j, i)
  {
    forall x | 0 <= x < |s.ids| ensures Get(FireOne(tasks, id), s.ids[x]) == Get(tasks, s.ids[x]) {
      assert s.ids[x] in Ids(s);
    }
  }

  /** The firings were the next ones of the sequence, and it now stands behind them. */
  predicate Follows(s: Sequence, j: nat, i: nat, fires: seq<FiredTask>, tasks: Tasks)
    requires WellShaped(s) && i < |s.ids|
  {
    fires == Expected(s, j, i, |fires|) && InProgress(s, tasks, CycleAfter(s, j, i, |fires|), StepAfter(s, i, |fires|))
  }

  lemma {:induction false} ExpectedComposes(s: Sequence, j: nat, i: nat, a: nat, b: nat)
    requires WellShaped(s) && i < |s.ids| && |Expected(s, j, i, a)| == a
    ensures StepAfter(s, i, a) < |s.ids|
    ensures Expected(s, j, i, a + b) ==
            Expected(s, j, i, a) + Expected(s, CycleAfter(s, j, i, a), StepAfter(s, i, a), b)
    ensures StepAfter(s, i, a + b) == StepAfter(s, StepAfter(s, i, a), b)
    ensures CycleAfter(s, j, i, a + b) == CycleAfter(s, CycleAfter(s, j, i, a), StepAfter(s, i, a), b)
    decreases a
  {
    if a > 0 { ExpectedComposes(s, NextCycle(s, j, i), NextStep(s, i), a - 1, b); }
  }

  lemma FollowsComposes(
    s: Sequence, j: nat, i: nat, x: seq<FiredTask>, between: Tasks, y: seq<FiredTask>, after: Tasks)
    requires WellShaped(s) && i < |s.ids| && Follows(s, j, i, x, between)
    requires Follows(s, CycleAfter(s, j, i, |x|), StepAfter(s, i, |x|), y, after)
    ensures Follows(s, j, i, x + y, after)
  {
    ExpectedComposes(s, j, i, |x|, |y|);
  }

  lemma {:induction false} RunFollows(s: Sequence, tasks: Tasks, j: nat, i: nat, tick: nat, budget: nat)
    requires WellShaped(s) && TasksOk(tasks) && InProgress(s, tasks, j, i) && RoomFor(s, tick)
    ensures var r := RunDue(tasks, tick, budget);
            Follows(s, j, i, Only(r.fired, Ids(s)), r.tasks)
    decreases budget
  {
    if budget > 0 && SomeDue(tasks, tick) {
      hide SomeDue, FireOne, InProgress, Follows, Ids, StepTask, Cycle, WellShaped, IsNextDue;
      var id := NextDue(tasks, tick);
      NextDueHolds(tasks, tick, id);
      FireOneOk(tasks, id);
      var after := FireOne(tasks, id);
      var rest := RunDue(after, tick, budget - 1);
      InProgressHere(s, tasks, j, i);
      if id in Ids(s) {
        OnlyItsTurn(s, tasks, j, i, tick, id);
        TurnPassesOn(s, tasks, j, i);
        InProgressHere(s, after, NextCycle(s, j, i), NextStep(s, i));
        RunFollows(s, after, NextCycle(s, j, i), NextStep(s, i), tick, budget - 1);
        OneFires(s, tasks, j, i, id, rest);
      } else {
        OtherFires(s, tasks, j, i, id);
        RunFollows(s, after, j, i, tick, budget - 1);
        OnlySkips(Fire(tasks[id]), rest.fired, Ids(s));
      }
    }
  }

  lemma OnlySkips(f: FiredTask, fired: seq<FiredTask>, ids: set<nat>)
    ensures Only([f] + fired, ids) == if f.id in ids then [f] + Only(fired, ids) else Only(fired, ids)
  {
    assert ([f] + fired)[1..] == fired;
  }

  lemma OneFires(s: Sequence, tasks: Tasks, j: nat, i: nat, id: nat, rest: Firing)
    requires WellShaped(s) && i < |s.ids| && id in tasks && id in Ids(s)
    requires Get(tasks, id) == StepTask(s, i, j) && Fire(tasks[id]).id == id
    requires Follows(s, NextCycle(s, j, i), NextStep(s, i), Only(rest.fired, Ids(s)), rest.tasks)
    ensures Follows(s, j, i, Only([Fire(tasks[id])] + rest.fired, Ids(s)), rest.tasks)
  {
    OnlySkips(Fire(tasks[id]), rest.fired, Ids(s));
  }

  lemma InProgressHere(s: Sequence, tasks: Tasks, j: nat, i: nat)
    requires WellShaped(s) && InProgress(s, tasks, j, i)
    ensures i < |s.ids|
  {
  }

  /** Every run of the history leaves such room. */
  predicate LeavesRoom(s: Sequence, actions: seq<Action>)
    requires WellShaped(s)
  {
    forall k | 0 <= k < |actions| :: actions[k].Run? ==> RoomFor(s, actions[k].tick)
  }

  lemma ActFollows(s: Sequence, tasks: Tasks, a: Action, j: nat, i: nat)
    requires WellShaped(s) && TasksOk(tasks) && InProgress(s, tasks, j, i) && Allowed(tasks, a, Ids(s))
    requires a.Run? ==> RoomFor(s, a.tick)
    ensures var r := Act(tasks, a);
            Follows(s, j, i, Only(r.fired, Ids(s)), r.tasks)
  {
    if a.Run? {
      RunFollows(s, tasks, j, i, a.tick, a.budget);
    } else {
      var r := Act(tasks, a);
      forall x | 0 <= x < |s.ids| ensures Get(r.tasks, s.ids[x]) == Get(tasks, s.ids[x]) {
        assert s.ids[x] in Ids(s);
      }
    }
  }

  /** Whatever the budgets and ticks of the runs, and whatever other timers are scheduled or
      cancelled in between, a sequence's timers fire in step order, cycle after cycle. */
  lemma {:induction false} SequenceFiresInOrder(s: Sequence, tasks: Tasks, actions: seq<Action>, j: nat, i: nat)
    requires WellShaped(s) && TasksOk(tasks) && InProgress(s, tasks, j, i)
    requires AllAllowed(tasks, actions, Ids(s)) && LeavesRoom(s, actions)
    ensures var r := Play(tasks, actions, Ids(s));
            Follows(s, j, i, Only(r.fired, Ids(s)), r.tasks)
    decreases |actions|
  {
    if actions != [] {
      hide InProgress, Follows, Ids, Only, Allowed, Act, Cycle;
      var ids := Ids(s);
      var first := Act(tasks, actions[0]);
      var fires := Only(first.fired, ids);
      ActFollows(s, tasks, actions[0], j, i);
      InProgressHere(s, tasks, j, i);
      FollowsHere(s, j, i, fires, first.tasks);
      SequenceFiresInOrder(s, first.tasks, actions[1..], CycleAfter(s, j, i, |fires|), StepAfter(s, i, |fires|));
      var rest := Play(first.tasks, actions[1..], ids);
      OnlyOfSum(first.fired, rest.fired, ids);
      FollowsComposes(s, j, i, fires, first.tasks, Only(rest.fired, ids), rest.tasks);
    }
  }

  lemma FollowsHere(s: Sequence, j: nat, i: nat, fires: seq<FiredTask>, tasks: Tasks)
    requires WellShaped(s) && i < |s.ids| && Follows(s, j, i, fires, tasks)
    ensures InProgress(s, tasks, CycleAfter(s, j, i, |fires|), StepAfter(s, i, |fires|))
    ensures StepAfter(s, i, |fires|) < |s.ids|
  {
  }

  /** In closed form: counting from step 0 of cycle 0, firing number c * n + x is that of step x in
      cycle c, at the tick that step was planned for. */
  lemma {:induction false} ExpectedInStepOrder(s: Sequence, j: nat, i: nat, m: nat, k: nat)
    requires WellShaped(s) && i < |s.ids| && k < |Expected(s, j, i, m)|
    ensures var x, c := StepAfter(s, i, k), CycleAfter(s, j, i, k);
            && x < |s.ids| && c * |s.ids| + x == j * |s.ids| + i + k
            && StepTask(s, x, c).Some? && Expected(s, j, i, m)[k] == Fire(StepTask(s, x, c).value)
    decreases m
  {
    hide StepTask, WellShaped;
    if k > 0 {
      ExpectedInStepOrder(s, NextCycle(s, j, i), NextStep(s, i), m - 1, k - 1);
      OneMore(j + 1, |s.ids|);
    }
  }
}
