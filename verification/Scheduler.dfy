/** TickScheduler (src/game/GameplayPrimitives.cpp:280-402): a map of tasks and an ordered queue of
    keys, kept in agreement. */
module Scheduler {
  import opened Options
  import opened Scalars
  import opened Timers
  import opened Ordered

  // ----- std::set<QueueKey>, in its iteration order -----

  predicate InOrder(q: seq<QueueKey>) {
    forall i, j | 0 <= i < j < |q| :: Precedes(q[i], q[j])
  }

  function Inserted(q: seq<QueueKey>, k: QueueKey): (r: seq<QueueKey>) {
    if q == [] || Precedes(k, q[0]) then [k] + q
    else if k == q[0] then q
    else [q[0]] + Inserted(q[1..], k)
  }

  lemma {:induction false} InsertedHolds(q: seq<QueueKey>, k: QueueKey)
    requires InOrder(q)
    ensures InOrder(Inserted(q, k))
    ensures forall x :: x in Inserted(q, k) <==> x in q || x == k
  {
    if q != [] && !Precedes(k, q[0]) && k != q[0] {
      InsertedHolds(q[1..], k);
      var rest := Inserted(q[1..], k);
      assert forall j :: 0 <= j < |rest| ==> rest[j] in rest;
      assert forall x :: x in q[1..] ==> Precedes(q[0], x);
      assert forall x :: x in q <==> x == q[0] || x in q[1..];
    }
  }

  function Removed(q: seq<QueueKey>, k: QueueKey): (r: seq<QueueKey>) {
    if q == [] then [] else if q[0] == k then q[1..] else [q[0]] + Removed(q[1..], k)
  }

  lemma {:induction false} RemovedHolds(q: seq<QueueKey>, k: QueueKey)
    requires InOrder(q)
    ensures InOrder(Removed(q, k))
    ensures forall x :: x in Removed(q, k) <==> x in q && x != k
  {
    if q != [] {
      assert forall x :: x in q[1..] ==> Precedes(q[0], x);
      assert forall x :: x in q <==> x == q[0] || x in q[1..];
      if q[0] != k {
        RemovedHolds(q[1..], k);
        var rest := Removed(q[1..], k);
        assert forall j :: 0 <= j < |rest| ==> rest[j] in rest;
      }
    }
  }

  /** The queue holds exactly one key for each task. */
  ghost predicate Agrees(queue: seq<QueueKey>, tasks: Tasks) {
    InOrder(queue) && forall k :: k in queue <==> k.id in tasks && tasks[k.id].dueTick == k.dueTick
  }

  lemma InsertAgrees(queue: seq<QueueKey>, tasks: Tasks, t: Task)
    requires Agrees(queue, tasks) && t.id !in tasks
    ensures Agrees(Inserted(queue, KeyOf(t)), tasks[t.id := t])
  {
    InsertedHolds(queue, KeyOf(t));
  }

  lemma RemoveAgrees(queue: seq<QueueKey>, tasks: Tasks, id: nat)
    requires Agrees(queue, tasks) && id in tasks
    ensures Agrees(Removed(queue, QueueKey(tasks[id].dueTick, id)), tasks - {id})
  {
    RemovedHolds(queue, QueueKey(tasks[id].dueTick, id));
  }

  /** The front of the queue is the next due task. */
  lemma FrontIsNextDue(queue: seq<QueueKey>, tasks: Tasks, tick: nat)
    requires TasksOk(tasks) && Agrees(queue, tasks)
    ensures queue == [] ==> !SomeDue(tasks, tick)
    ensures queue != [] ==> (SomeDue(tasks, tick) <==> queue[0].dueTick <= tick)
    ensures queue != [] && queue[0].dueTick <= tick ==> IsNextDue(tasks, tick, queue[0].id)
  {
    forall id | id in tasks ensures KeyOf(tasks[id]) in queue {
    }
    if queue != [] {
      assert queue[0] in queue;
      forall k | k in queue ensures k == queue[0] || Precedes(queue[0], k) {
        var i :| 0 <= i < |queue| && queue[i] == k;
      }
    }
  }

  /** The queue after its front task has fired. */
  function Turned(queue: seq<QueueKey>, task: Task): seq<QueueKey>
    requires queue != []
  {
    match Next(task)
    case None => queue[1..]
    case Some(t) => Inserted(queue[1..], KeyOf(t))
  }

  lemma TurnAgrees(queue: seq<QueueKey>, tasks: Tasks)
    requires Agrees(queue, tasks) && TasksOk(tasks) && queue != []
    ensures queue[0].id in tasks
    ensures Agrees(Turned(queue, tasks[queue[0].id]), FireOne(tasks, queue[0].id))
  {
    assert queue[0] in queue;
    var id := queue[0].id;
    RemoveAgrees(queue, tasks, id);
    assert Removed(queue, queue[0]) == queue[1..];
    match Next(tasks[id])
    case None =>
    case Some(t) =>
      InsertAgrees(queue[1..], tasks - {id}, t);
      assert (tasks - {id})[t.id := t] == tasks[id := t];
  }

  // ----- snapshots -----

  datatype SchedulerState = SchedulerState(nextId: nat, tasks: seq<Task>)

  /** What restore accepts (GameplayPrimitives.cpp:366-389). */
  predicate Restorable(s: SchedulerState) {
    && s.nextId != 0
    && DistinctKeys(s.tasks, TaskId)
    && forall i | 0 <= i < |s.tasks| :: TaskOk(s.tasks[i]) && s.tasks[i].id < s.nextId
  }

  class TickScheduler {
    var nextId: nat
    var tasks: Tasks
    var queue: seq<QueueKey>

    /** Ids count up from 1 and the counter sticks at 0 when it wraps. */
    ghost predicate Valid()
      reads this
    {
      && nextId <= ULONG_MAX
      && TasksOk(tasks)
      && (forall id :: id in tasks ==> id <= ULONG_MAX && (nextId != 0 ==> id < nextId))
      && Agrees(queue, tasks)
    }

    constructor ()
      ensures Valid() && nextId == 1 && tasks == map[]
    {
      nextId, tasks, queue := 1, map[], [];
    }

    method ScheduleAt(dueTick: nat, payload: nat, intervalTicks: nat, repeatCount: nat) returns (id: nat)
      requires Valid()
      modifies this
      ensures Valid()
      ensures var t := Task(old(nextId), dueTick, intervalTicks, repeatCount, payload);
              if old(nextId) == 0 || (Repeats(t) && intervalTicks == 0)
              then id == 0 && tasks == old(tasks) && nextId == old(nextId)
              else id == old(nextId) && id !in old(tasks) && tasks == old(tasks)[id := t] &&
                   nextId == if id == ULONG_MAX then 0 else id + 1
    {
      if (repeatCount == REPEAT_FOREVER || repeatCount > 1) && intervalTicks == 0 { return 0; }
      if nextId == 0 { return 0; }
      id := nextId;
      nextId := if nextId == ULONG_MAX then 0 else nextId + 1;
      var task := Task(id, dueTick, intervalTicks, repeatCount, payload);
      InsertAgrees(queue, tasks, task);
      tasks := tasks[id := task];
      queue := Inserted(queue, QueueKey(dueTick, id));
    }

    method ScheduleAfter(
      currentTick: nat, delayTicks: nat, payload: nat, intervalTicks: nat, repeatCount: nat) returns (id: nat)
      requires Valid() && currentTick <= MAX_TICK
      modifies this
      ensures Valid()
      ensures var due := if currentTick + delayTicks > MAX_TICK then MAX_TICK else currentTick + delayTicks;
              var t := Task(old(nextId), due, intervalTicks, repeatCount, payload);
              if old(nextId) == 0 || (Repeats(t) && intervalTicks == 0)
              then id == 0 && tasks == old(tasks) && nextId == old(nextId)
              else id == old(nextId) && id !in old(tasks) && tasks == old(tasks)[id := t] &&
                   nextId == if id == ULONG_MAX then 0 else id + 1
    {
      var due := if delayTicks > MAX_TICK - currentTick then MAX_TICK else currentTick + delayTicks;
      id := ScheduleAt(due, payload, intervalTicks, repeatCount);
    }

    method Cancel(id: nat) returns (found: bool)
      requires Valid()
      modifies this
      ensures Valid() && nextId == old(nextId)
      ensures found <==> id in old(tasks)
      ensures tasks == old(tasks) - {id}
    {
      if id !in tasks { return false; }
      RemoveAgrees(queue, tasks, id);
      queue := Removed(queue, QueueKey(tasks[id].dueTick, id));
      tasks := tasks - {id};
      return true;
    }

    method Clear()
      modifies this
      ensures Valid() && nextId == 1 && tasks == map[]
    {
      nextId, tasks, queue := 1, map[], [];
    }

    /** The loop over the queue does what RunDue says of the tasks. */
    method RunQueue(currentTick: nat, budget: nat) returns (fired: seq<FiredTask>)
      requires Valid()
      modifies this
      ensures Valid() && nextId == old(nextId)
      ensures Firing(fired, tasks) == RunDue(old(tasks), currentTick, budget)
    {
      hide RunDue, Remains, Agrees, IsNextDue, SomeDue;
      fired := [];
      ghost var all := RunDue(tasks, currentTick, budget);
      AllRemains(tasks, currentTick, budget);
      while queue != [] && |fired| < budget
        invariant TasksOk(tasks) && Agrees(queue, tasks) && tasks.Keys <= old(tasks).Keys
        invariant nextId == old(nextId) && |fired| <= budget
        invariant Remains(all, fired, tasks, currentTick, budget - |fired|)
        decreases budget - |fired|
      {
        var key := queue[0];
        FrontIsNextDue(queue, tasks, currentTick);
        if key.dueTick > currentTick { break; }
        TurnAgrees(queue, tasks);
        FireQueued(all, fired, tasks, currentTick, budget - |fired|, key.id);
        ghost var wasQueue, wasTasks := queue, tasks;
        queue := queue[1..];
        var task := tasks[key.id];
        var repeats := task.remainingFires == REPEAT_FOREVER || task.remainingFires > 1;
        fired := fired + [FiredTask(task.id, task.dueTick, task.payload, repeats)];
        if !repeats {
          tasks := tasks - {key.id};
          assert queue == Turned(wasQueue, wasTasks[key.id]) && tasks == FireOne(wasTasks, key.id);
          continue;
        }
        if task.remainingFires != REPEAT_FOREVER {
          task := task.(remainingFires := task.remainingFires - 1);
        }
        if task.intervalTicks > MAX_TICK - task.dueTick {
          tasks := tasks - {key.id};
          assert queue == Turned(wasQueue, wasTasks[key.id]) && tasks == FireOne(wasTasks, key.id);
          continue;
        }
        task := task.(dueTick := task.dueTick + task.intervalTicks);
        tasks := tasks[task.id := task];
        queue := Inserted(queue, QueueKey(task.dueTick, task.id));
        assert queue == Turned(wasQueue, wasTasks[key.id]) && tasks == FireOne(wasTasks, key.id);
      }
      FrontIsNextDue(queue, tasks, currentTick);
      NothingRemains(all, fired, tasks, currentTick, budget - |fired|);
    }

    method MoveFrom(other: TickScheduler)
      requires other.Valid()
      modifies this
      ensures Valid() && nextId == other.nextId && tasks == other.tasks
    {
      nextId, tasks, queue := other.nextId, other.tasks, other.queue;
    }

    method Snapshot() returns (state: SchedulerState)
      requires Valid()
      ensures state == SchedulerState(nextId, Values(tasks))
    {
      state := SchedulerState(nextId, Values(tasks));
    }

    method Restore(state: SchedulerState) returns (ok: bool)
      requires state.nextId <= ULONG_MAX
      modifies this
      ensures ok <==> Restorable(state)
      ensures ok ==> Valid() && nextId == state.nextId && tasks == Emplaced(state.tasks, TaskId)
      ensures !ok ==> nextId == old(nextId) && tasks == old(tasks) && queue == old(queue)
    {
      if state.nextId == 0 { return false; }
      var acceptable, rebuilt, keys, maximumId := Rebuild(state.tasks);
      if !acceptable || state.nextId <= maximumId { return false; }
      nextId, tasks, queue := state.nextId, rebuilt, keys;
      return true;
    }
  }

  /** The loop of restore: tasks and queue are rebuilt on the side. */
  method Rebuild(list: seq<Task>) returns (ok: bool, rebuilt: Tasks, keys: seq<QueueKey>, maximumId: nat)
    ensures ok <==> DistinctKeys(list, TaskId) && forall i :: 0 <= i < |list| ==> TaskOk(list[i])
    ensures ok ==> rebuilt == Emplaced(list, TaskId) && TasksOk(rebuilt) && Agrees(keys, rebuilt)
    ensures ok ==> forall i :: 0 <= i < |list| ==> list[i].id <= maximumId
    ensures ok ==> maximumId == 0 || exists i :: 0 <= i < |list| && list[i].id == maximumId
    ensures ok ==> forall id :: id in rebuilt ==> id <= maximumId
  {
    rebuilt, keys, maximumId := map[], [], 0;
    for i := 0 to |list|
      invariant rebuilt == Emplaced(list[..i], TaskId)
      invariant DistinctKeys(list[..i], TaskId) && TasksOk(rebuilt) && Agrees(keys, rebuilt)
      invariant forall j :: 0 <= j < i ==> TaskOk(list[j]) && list[j].id <= maximumId
      invariant maximumId == 0 || exists j :: 0 <= j < i && list[j].id == maximumId
      invariant forall id :: id in rebuilt ==> id <= maximumId
    {
      hide Agrees, DistinctKeys, Emplaced;
      var task := list[i];
      if task.id in rebuilt {
        SharedKey(list, i, TaskId);
        return false, map[], [], 0;
      }
      if task.id == 0 || ((task.remainingFires == REPEAT_FOREVER || task.remainingFires > 1) && task.intervalTicks == 0) {
        return false, map[], [], 0;
      }
      InsertAgrees(keys, rebuilt, task);
      EmplacedGrows(list, i, TaskId);
      rebuilt := rebuilt[task.id := task];
      keys := Inserted(keys, QueueKey(task.dueTick, task.id));
      if task.id > maximumId { maximumId := task.id; }
    }
    assert list[..|list|] == list;
    return true, rebuilt, keys, maximumId;
  }

  /** What a run has done so far and what it has left make up all of it. */
  ghost predicate Remains(all: Firing, fired: seq<FiredTask>, tasks: Tasks, tick: nat, left: nat)
    requires TasksOk(tasks)
  {
    var rest := RunDue(tasks, tick, left);
    all == Firing(fired + rest.fired, rest.tasks)
  }

  lemma AllRemains(tasks: Tasks, tick: nat, budget: nat)
    requires TasksOk(tasks)
    ensures Remains(RunDue(tasks, tick, budget), [], tasks, tick, budget)
  {
    var all := RunDue(tasks, tick, budget);
    assert [] + all.fired == all.fired;
  }

  lemma NothingRemains(all: Firing, fired: seq<FiredTask>, tasks: Tasks, tick: nat, left: nat)
    requires TasksOk(tasks) && Remains(all, fired, tasks, tick, left) && (left == 0 || !SomeDue(tasks, tick))
    ensures all == Firing(fired, tasks)
  {
    RunDueStops(tasks, tick, left);
    assert fired + [] == fired;
  }

  /** One turn of the loop is one step of RunDue. */
  lemma FireQueued(all: Firing, fired: seq<FiredTask>, tasks: Tasks, tick: nat, left: nat, id: nat)
    requires TasksOk(tasks) && left > 0 && IsNextDue(tasks, tick, id) && Remains(all, fired, tasks, tick, left)
    ensures TasksOk(FireOne(tasks, id)) && FireOne(tasks, id).Keys <= tasks.Keys
    ensures Remains(all, fired + [Fire(tasks[id])], FireOne(tasks, id), tick, left - 1)
  {
    NextDueUnique(tasks, tick, id, NextDue(tasks, tick));
    RunDueUnrolls(tasks, tick, left);
    var rest := RunDue(FireOne(tasks, id), tick, left - 1);
    assert fired + ([Fire(tasks[id])] + rest.fired) == (fired + [Fire(tasks[id])]) + rest.fired;
  }

  /** A scheduler whose counter has not wrapped takes back its own snapshot, and gets the same tasks. */
  lemma SnapshotRoundTrips(nextId: nat, tasks: Tasks)
    requires TasksOk(tasks) && (nextId != 0 ==> forall id :: id in tasks ==> id < nextId)
    ensures var state := SchedulerState(nextId, Values(tasks));
            (Restorable(state) <==> nextId != 0) && Emplaced(state.tasks, TaskId) == tasks
  {
    var list := Values(tasks);
    ListingRoundTrips(tasks, TaskId);
    forall i | 0 <= i < |list| ensures TaskOk(list[i]) && (nextId != 0 ==> list[i].id < nextId) {
      ListedIsInMap(tasks, list[i]);
    }
  }
}
