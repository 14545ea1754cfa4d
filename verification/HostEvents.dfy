/** What the scripts hear of the events: over any operations that leave it alone an event reaches its
    hearers once, as soon as a drain gets to it, and no event overtakes an earlier one. */
module HostEvents {
  import opened Scalars
  import opened Timers
  import opened HostLinks
  import opened HostState
  import opened HostPlans
  import opened HostDispatch
  import opened Host
  import opened HostRuns
  import Events

  // ----- the hearers of one event -----

  /** Those subscriptions of the topic and no others, by priority, and by age where priorities are equal. */
  ghost predicate Serves(served: seq<Subscription>, subscriptions: map<nat, Subscription>, topic: string) {
    && (forall i, j | 0 <= i < j < |served| ::
          served[i].priority < served[j].priority ||
          (served[i].priority == served[j].priority && served[i].id < served[j].id))
    && (forall x :: x in served <==> x.id in subscriptions && subscriptions[x.id] == x && x.topic == topic)
  }

  /** The calls are what the event asks for: its target's callback, or one for each subscription served. */
  ghost predicate Reaches(e: Events.Event, subscriptions: map<nat, Subscription>, calls: seq<DispatchCall>) {
    if e.target != 0 then calls == [DispatchCall(e.target, e.topic, e.arguments, 0, e.sequence)]
    else
      exists served: seq<Subscription> :: Serves(served, subscriptions, e.topic) && CallsOf(served, e, calls)
  }

  ghost predicate CallsOf(served: seq<Subscription>, e: Events.Event, calls: seq<DispatchCall>) {
    && |calls| == |served|
    && forall i | 0 <= i < |calls| ::
         calls[i] == DispatchCall(served[i].target, served[i].callback, e.arguments, 0, e.sequence)
  }

  lemma EventReaches(subscriptions: map<nat, Subscription>, e: Events.Event)
    requires forall s :: s in subscriptions ==> subscriptions[s].id == s
    ensures Reaches(e, subscriptions, EventDispatch(subscriptions, e))
  {
    if e.target == 0 {
      SubscribersInOrder(subscriptions, e.topic);
      var served := Subscribers(subscriptions, e.topic);
      assert Serves(served, subscriptions, e.topic);
      assert CallsOf(served, e, EventDispatch(subscriptions, e));
    }
  }

  // ----- what a batch tells of an event -----

  /** The calls that event caused, in order. */
  function ToldOf(batch: seq<DispatchCall>, number: nat): seq<DispatchCall> {
    if batch == [] then []
    else if batch[0].sourceEvent == number then [batch[0]] + ToldOf(batch[1..], number) else ToldOf(batch[1..], number)
  }

  lemma {:induction false} ToldOfSum(a: seq<DispatchCall>, b: seq<DispatchCall>, number: nat)
    ensures ToldOf(a + b, number) == ToldOf(a, number) + ToldOf(b, number)
  {
    if a == [] {
      assert a + b == b;
    } else {
      ToldOfSum(a[1..], b, number);
      assert (a + b)[1..] == a[1..] + b;
    }
  }

  lemma {:induction false} NothingTold(batch: seq<DispatchCall>, number: nat)
    requires forall i :: 0 <= i < |batch| ==> batch[i].sourceEvent != number
    ensures ToldOf(batch, number) == []
  {
    if batch != [] { NothingTold(batch[1..], number); }
  }

  lemma {:induction false} AllTold(batch: seq<DispatchCall>, number: nat)
    requires forall i :: 0 <= i < |batch| ==> batch[i].sourceEvent == number
    ensures ToldOf(batch, number) == batch
  {
    if batch != [] { AllTold(batch[1..], number); }
  }

  lemma {:induction false} TimersTellNothing(calls: map<nat, Call>, fired: seq<FiredTask>, i: nat)
    requires i < |TimerDispatches(calls, fired)|
    ensures TimerDispatches(calls, fired)[i].sourceEvent == 0
  {
    var before := TimerDispatches(calls, fired[..|fired| - 1]);
    if i < |before| { TimersTellNothing(calls, fired[..|fired| - 1], i); }
  }

  lemma EventCallsAre(subscriptions: map<nat, Subscription>, e: Events.Event)
    ensures forall i :: 0 <= i < |EventDispatch(subscriptions, e)| ==>
              EventDispatch(subscriptions, e)[i].sourceEvent == e.sequence
  {
  }

  lemma EventTellsItself(subscriptions: map<nat, Subscription>, e: Events.Event, number: nat)
    ensures ToldOf(EventDispatch(subscriptions, e), number) ==
            if number == e.sequence then EventDispatch(subscriptions, e) else []
  {
    hide EventDispatch;
    var calls := EventDispatch(subscriptions, e);
    EventCallsAre(subscriptions, e);
    if number == e.sequence { AllTold(calls, number); } else { NothingTold(calls, number); }
  }

  /** A batch of events without that number tells nothing of it. */
  lemma {:induction false} OthersTellNothing(subscriptions: map<nat, Subscription>, popped: seq<Events.Event>, number: nat)
    requires forall i :: 0 <= i < |popped| ==> popped[i].sequence != number
    ensures ToldOf(EventDispatches(subscriptions, popped), number) == []
  {
    hide EventDispatch;
    if popped != [] {
      var n := |popped| - 1;
      OthersTellNothing(subscriptions, popped[..n], number);
      EventTellsItself(subscriptions, popped[n], number);
      ToldOfSum(EventDispatches(subscriptions, popped[..n]), EventDispatch(subscriptions, popped[n]), number);
    }
  }

  /** A batch with the event in it tells of it once. */
  lemma {:induction false} PoppedTellsOnce(subscriptions: map<nat, Subscription>, popped: seq<Events.Event>, x: nat)
    requires x < |popped| && Events.Numbered(popped)
    ensures ToldOf(EventDispatches(subscriptions, popped), popped[x].sequence) == EventDispatch(subscriptions, popped[x])
    decreases |popped|
  {
    hide EventDispatch;
    var n, number := |popped| - 1, popped[x].sequence;
    EventTellsItself(subscriptions, popped[n], number);
    ToldOfSum(EventDispatches(subscriptions, popped[..n]), EventDispatch(subscriptions, popped[n]), number);
    if x < n {
      PoppedTellsOnce(subscriptions, popped[..n], x);
    } else {
      OthersTellNothing(subscriptions, popped[..n], number);
    }
  }

  // ----- one operation -----

  /** The events a drain takes from the queue. */
  ghost function Popped(v: HostView, op: Operation): seq<Events.Event> {
    if op.DrainDue? then v.events[..Events.DueCount(v.events, op.tick, op.eventBudget)] else []
  }

  /** The number was given to an event that is no longer in the queue. */
  ghost predicate Spent(v: HostView, number: nat) {
    0 < number < v.nextEvent && forall e :: e in v.events ==> e.sequence != number
  }

  lemma BatchTells(s: Session, op: Operation, number: nat)
    requires Runnable(s) && number != 0
    ensures ToldOf(Operate(s, op).batch, number) ==
            ToldOf(EventDispatches(s.host.subscriptions, Popped(s.host, op)), number)
  {
    hide RunDue, Drained, Changed, CanRestore, TasksOk, EventDispatch;
    if op.DrainDue? {
      var fired := RunDue(s.host.tasks, op.tick, op.timerBudget).fired;
      var timers := TimerDispatches(s.host.links.calls, fired);
      forall i | 0 <= i < |timers| ensures timers[i].sourceEvent == 0 {
        TimersTellNothing(s.host.links.calls, fired, i);
      }
      NothingTold(timers, number);
      ToldOfSum(timers, EventDispatches(s.host.subscriptions, Popped(s.host, op)), number);
    }
  }

  /** What an operation makes of the queue: publishing adds an event under the next number, a drain
      takes the front, a cancellation one event. */
  ghost predicate QueueMoves(v: HostView, op: Operation, after: HostView) {
    && v.nextEvent <= after.nextEvent && v.tick <= after.tick
    && (forall e :: e in after.events ==> e in v.events || (e.sequence == v.nextEvent < after.nextEvent))
    && (forall e :: e in v.events ==> e in after.events || e in Popped(v, op) || op == CancelEvent(e.sequence))
    && (forall e :: e in Popped(v, op) ==> op.DrainDue? && e.dueTick <= op.tick && e in v.events)
    && (op.DrainDue? ==> v.events == Popped(v, op) + after.events)
  }

  lemma ChangeMoves(v: HostView, op: Operation)
    requires Sound(v) && !op.RestoreSaved? && !op.DrainDue?
    ensures QueueMoves(v, op, Changed(v, op))
  {
    hide TimersSound, SubscriptionsOk, Erase, EraseEach, Scheduled, SequenceStarted;
    if op.ScheduleCall? || op.StartSequence? { OnlyTimersChange(v, op); }
    if op.Publish? {
      var e := Events.Event(SaturatedAdd(v.tick, NormalizedDelay(op.delay)), v.nextEvent, 0, op.topic, op.arguments);
      Events.InsertedHolds(v.events, e);
    }
    if op.EnqueueDirect? {
      var e := Events.Event(SaturatedAdd(v.tick, NormalizedDelay(op.delay)), v.nextEvent, op.target, op.callback, op.arguments);
      Events.InsertedHolds(v.events, e);
    }
    if op.CancelEvent? {
      assert op == CancelEvent(op.sequence);
      Events.RemovedHolds(v.events, op.sequence);
    }
    TickFits(v);
  }

  lemma TickFits(v: HostView)
    requires Sound(v)
    ensures v.tick <= MAX_TICK
  {
  }

  lemma DrainMoves(v: HostView, op: Operation, after: HostView)
    requires op.DrainDue? && after.nextEvent == v.nextEvent && after.tick == v.tick
    requires after.events == v.events[Events.DueCount(v.events, op.tick, op.eventBudget)..]
    ensures QueueMoves(v, op, after)
  {
    hide Events.DueCount;
    var n := Events.DueCount(v.events, op.tick, op.eventBudget);
    assert v.events == v.events[..n] + v.events[n..];
  }

  lemma OperationMoves(s: Session, op: Operation)
    requires SoundSession(s) && !op.RestoreSaved?
    ensures Runnable(s) && QueueMoves(s.host, op, Operate(s, op).after.host)
  {
    SoundIsRunnable(s);
    assert Sound(s.host);
    hide Sound, SoundSession, Changed, TasksOk, RunDue, EraseEach, Dispatched, CanRestore, QueueMoves, Events.DueCount;
    if op.DrainDue? {
      DrainMoves(s.host, op, Operate(s, op).after.host);
    } else {
      ChangeMoves(s.host, op);
      assert Operate(s, op).after.host == Changed(s.host, op);
    }
  }

  lemma SoundEvents(v: HostView)
    requires Sound(v)
    ensures 1 <= v.nextEvent && Events.InOrder(v.events) && Events.Numbered(v.events)
    ensures forall e :: e in v.events ==> 0 < e.sequence < v.nextEvent
    ensures forall s :: s in v.subscriptions ==> v.subscriptions[s].id == s
  {
  }

  lemma SpentIsGone(v: HostView, e: Events.Event)
    requires Spent(v, e.sequence)
    ensures e !in v.events
  {
  }

  lemma SpentStaysSpent(v: HostView, op: Operation, after: HostView, number: nat)
    requires Spent(v, number) && QueueMoves(v, op, after)
    ensures Spent(after, number) && number != 0
    ensures forall i :: 0 <= i < |Popped(v, op)| ==> Popped(v, op)[i].sequence != number
  {
    assert forall i :: 0 <= i < |Popped(v, op)| ==> Popped(v, op)[i] in Popped(v, op);
  }

  /** A spent number is never heard of again. */
  lemma SpentStays(s: Session, op: Operation, number: nat)
    requires SoundSession(s) && Spent(s.host, number) && !op.RestoreSaved?
    ensures Runnable(s)
    ensures Spent(Operate(s, op).after.host, number) && ToldOf(Operate(s, op).batch, number) == []
  {
    OperationMoves(s, op);
    hide SoundSession, Operate, EventDispatches, QueueMoves, Spent, Popped;
    SpentStaysSpent(s.host, op, Operate(s, op).after.host, number);
    BatchTells(s, op, number);
    OthersTellNothing(s.host.subscriptions, Popped(s.host, op), number);
  }

  /** The event is not cancelled and the host does not go back to a saved state. */
  predicate Leaves(e: Events.Event, op: Operation) {
    !op.RestoreSaved? && op != CancelEvent(e.sequence)
  }

  lemma PoppedIsSpent(v: HostView, op: Operation, after: HostView, e: Events.Event)
    requires Events.Numbered(v.events) && 0 < e.sequence < v.nextEvent && QueueMoves(v, op, after) && e in Popped(v, op)
    ensures Spent(after, e.sequence) && op.DrainDue? && e.dueTick <= op.tick
    ensures Events.Numbered(Popped(v, op))
  {
    var popped := Popped(v, op);
    var x :| 0 <= x < |popped| && popped[x] == e;
    assert forall i :: 0 <= i < |popped| ==> v.events[i] == popped[i];
    forall d | d in after.events ensures d.sequence != e.sequence {
      var y :| 0 <= y < |after.events| && after.events[y] == d;
      assert v.events[|popped| + y] == d && v.events[x] == e;
    }
  }

  lemma NotPopped(v: HostView, op: Operation, after: HostView, e: Events.Event)
    requires Events.Numbered(v.events) && e in v.events && QueueMoves(v, op, after) && Leaves(e, op) && e !in Popped(v, op)
    ensures e in after.events && forall i :: 0 <= i < |Popped(v, op)| ==> Popped(v, op)[i].sequence != e.sequence
  {
    var popped := Popped(v, op);
    forall i | 0 <= i < |popped| ensures popped[i].sequence != e.sequence {
      assert popped[i] in popped;
    }
  }

  /** An operation that leaves a waiting event alone either lets it wait and tells nothing of it, or
      is a drain that reaches all its hearers with it and spends its number. */
  lemma WaitsOrReaches(s: Session, op: Operation, e: Events.Event)
    requires SoundSession(s) && e in s.host.events && Leaves(e, op)
    ensures Runnable(s)
    ensures var t := Operate(s, op);
            var told := ToldOf(t.batch, e.sequence);
            if e in Popped(s.host, op)
            then op.DrainDue? && e.dueTick <= op.tick && Spent(t.after.host, e.sequence) && Reaches(e, s.host.subscriptions, told)
            else e in t.after.host.events && told == []
  {
    OperationMoves(s, op);
    assert Sound(s.host);
    SoundEvents(s.host);
    var v, popped := s.host, Popped(s.host, op);
    hide Sound, SoundSession, Operate, EventDispatches, EventDispatch, Reaches, Popped, QueueMoves, Spent, Events.InOrder,
      Events.Numbered;
    BatchTells(s, op, e.sequence);
    if e in popped {
      PoppedIsSpent(v, op, Operate(s, op).after.host, e);
      var x :| 0 <= x < |popped| && popped[x] == e;
      PoppedTellsOnce(v.subscriptions, popped, x);
      EventReaches(v.subscriptions, e);
    } else {
      NotPopped(v, op, Operate(s, op).after.host, e);
      OthersTellNothing(v.subscriptions, popped, e.sequence);
    }
  }

  // ----- whole runs -----

  /** Drain k of the run has reached the event's hearers, those subscribed at that time, and no other
      operation of the run has told anything of it. */
  ghost predicate HeardAt(s: Session, operations: seq<Operation>, e: Events.Event, k: nat)
    requires Runnable(s)
  {
    && k < |operations| && operations[k].DrainDue? && e.dueTick <= operations[k].tick
    && Reaches(e, OperateAll(s, operations[..k]).after.host.subscriptions, ToldOf(OperateAll(s, operations).batch, e.sequence))
    && ToldOf(Operate(OperateAll(s, operations[..k]).after, operations[k]).batch, e.sequence) ==
       ToldOf(OperateAll(s, operations).batch, e.sequence)
  }

  /** Over any operations that leave it alone an event is heard once, or it waits and was not heard. */
  lemma {:induction false} HeardOnce(s: Session, operations: seq<Operation>, e: Events.Event)
    requires SoundSession(s) && e in s.host.events
    requires forall k :: 0 <= k < |operations| ==> Leaves(e, operations[k])
    ensures Runnable(s)
    ensures var t := OperateAll(s, operations);
            if e in t.after.host.events then ToldOf(t.batch, e.sequence) == []
            else Spent(t.after.host, e.sequence) && exists k: nat :: HeardAt(s, operations, e, k)
    decreases |operations|
  {
    SoundIsRunnable(s);
    hide SoundSession, Runnable, Operate, OperateAll, HeardAt, Spent, Leaves, Reaches, Popped;
    if operations == [] {
      NothingYet(s);
    } else {
      var n := |operations| - 1;
      HeardOnce(s, operations[..n], e);
      OperateAllIsSound(s, operations[..n]);
      var before := OperateAll(s, operations[..n]).after;
      if e in before.host.events {
        WaitsOrReaches(before, operations[n], e);
        HeardNow(s, operations, e);
      } else {
        var k: nat :| HeardAt(s, operations[..n], e, k);
        HeardBefore(s, operations, e, k);
      }
    }
  }

  lemma NothingYet(s: Session)
    requires Runnable(s)
    ensures OperateAll(s, []) == Turn(s, [], [])
  {
  }

  lemma LastOperation(s: Session, operations: seq<Operation>)
    requires Runnable(s) && operations != []
    ensures var before := OperateAll(s, operations[..|operations| - 1]);
            var last := Operate(before.after, operations[|operations| - 1]);
            OperateAll(s, operations) == Turn(last.after, before.batch + last.batch, before.fired + last.fired)
  {
  }

  lemma HeardNow(s: Session, operations: seq<Operation>, e: Events.Event)
    requires Runnable(s) && operations != []
    requires var before := OperateAll(s, operations[..|operations| - 1]);
             var op := operations[|operations| - 1];
             var t := Operate(before.after, op);
             && ToldOf(before.batch, e.sequence) == []
             && if e in Popped(before.after.host, op)
                then op.DrainDue? && e.dueTick <= op.tick && Spent(t.after.host, e.sequence) &&
                     Reaches(e, before.after.host.subscriptions, ToldOf(t.batch, e.sequence))
                else e in t.after.host.events && ToldOf(t.batch, e.sequence) == []
    ensures var t := OperateAll(s, operations);
            if e in t.after.host.events then ToldOf(t.batch, e.sequence) == []
            else Spent(t.after.host, e.sequence) && HeardAt(s, operations, e, |operations| - 1)
  {
    hide Operate, OperateAll, Reaches, Popped, Runnable;
    var n := |operations| - 1;
    var before := OperateAll(s, operations[..n]);
    var t := Operate(before.after, operations[n]);
    LastOperation(s, operations);
    ToldOfSum(before.batch, t.batch, e.sequence);
    assert [] + ToldOf(t.batch, e.sequence) == ToldOf(t.batch, e.sequence);
  }

  lemma HeardBefore(s: Session, operations: seq<Operation>, e: Events.Event, k: nat)
    requires Runnable(s) && operations != []
    requires SoundSession(OperateAll(s, operations[..|operations| - 1]).after) && Leaves(e, operations[|operations| - 1])
    requires Spent(OperateAll(s, operations[..|operations| - 1]).after.host, e.sequence)
    requires HeardAt(s, operations[..|operations| - 1], e, k)
    ensures Spent(OperateAll(s, operations).after.host, e.sequence) && HeardAt(s, operations, e, k)
    ensures e !in OperateAll(s, operations).after.host.events
  {
    hide Operate, OperateAll, Reaches, Runnable, SoundSession, Spent;
    var n := |operations| - 1;
    var before := OperateAll(s, operations[..n]);
    SpentStays(before.after, operations[n], e.sequence);
    var t := Operate(before.after, operations[n]);
    LastOperation(s, operations);
    ToldOfSum(before.batch, t.batch, e.sequence);
    assert operations[..k] == operations[..n][..k];
    SpentIsGone(t.after.host, e);
  }

  // ----- publishing -----

  /** The operation puts an event into the queue. */
  predicate Sends(v: HostView, op: Operation) {
    && (op.Publish? || (op.EnqueueDirect? && op.target != 0))
    && (if op.Publish? then op.topic else op.callback) != "" && v.nextEvent != ULONG_MAX
  }

  ghost function Sent(v: HostView, op: Operation): Events.Event
    requires Sends(v, op)
  {
    Events.Event(SaturatedAdd(v.tick, NormalizedDelay(op.delay)), v.nextEvent, if op.Publish? then 0 else op.target,
                 if op.Publish? then op.topic else op.callback, op.arguments)
  }

  /** What is sent waits under the next number until its delay has passed, or one tick where the
      delay is 0, and no longer than to the last tick. */
  lemma SentWaits(s: Session, op: Operation)
    requires SoundSession(s) && Sends(s.host, op)
    ensures Runnable(s)
    ensures var v, e, t := s.host, Sent(s.host, op), Operate(s, op);
            && e in t.after.host.events && e.sequence == v.nextEvent && t.after.host.nextEvent == v.nextEvent + 1
            && t.batch == [] && (forall d :: d in v.events ==> d in t.after.host.events)
            && (op.delay == 0 && v.tick < MAX_TICK ==> e.dueTick == v.tick + 1)
            && (op.delay > 0 && v.tick + op.delay <= MAX_TICK ==> e.dueTick == v.tick + op.delay)
            && (v.tick + op.delay >= MAX_TICK ==> e.dueTick == MAX_TICK)
  {
    SoundIsRunnable(s);
    assert Sound(s.host);
    SoundEvents(s.host);
    TickFits(s.host);
    hide Sound, SoundSession, Runnable;
    Events.InsertedHolds(s.host.events, Sent(s.host, op));
  }

  /** When a last drain at or after its due tick leaves some of its event budget, the event has been
      heard: it no longer waits. */
  lemma MissesNoEvent(s: Session, op: Operation, e: Events.Event)
    requires SoundSession(s) && op.DrainDue? && e.dueTick <= op.tick
    ensures Runnable(s)
    ensures var after := Operate(s, op).after.host;
            |s.host.events| - |after.events| < op.eventBudget ==> e !in after.events
  {
    SoundIsRunnable(s);
    hide SoundSession, RunDue, EraseEach, Dispatched, TasksOk;
    var v := s.host;
    var n := Events.DueCount(v.events, op.tick, op.eventBudget);
    assert Sound(v);
    SoundEvents(v);
    if n < op.eventBudget { RestIsLater(v.events, op.tick, op.eventBudget); }
  }

  lemma {:induction false} RestIsLater(events: seq<Events.Event>, tick: nat, budget: nat)
    requires Events.InOrder(events) && Events.DueCount(events, tick, budget) < budget
    ensures forall e :: e in events[Events.DueCount(events, tick, budget)..] ==> e.dueTick > tick
  {
    if events != [] && events[0].dueTick <= tick {
      RestIsLater(events[1..], tick, budget - 1);
      var n := Events.DueCount(events[1..], tick, budget - 1);
      assert events[1..][n..] == events[n + 1..];
    } else {
      assert forall i :: 0 <= i < |events| ==> events[i].dueTick >= events[0].dueTick;
    }
  }

  /** So over any operations that leave it alone, once the last of them is such a drain, the event has
      been heard exactly once. */
  lemma HeardInTheEnd(s: Session, operations: seq<Operation>, e: Events.Event)
    requires SoundSession(s) && e in s.host.events && operations != []
    requires forall k :: 0 <= k < |operations| ==> Leaves(e, operations[k])
    requires var op := operations[|operations| - 1];
             op.DrainDue? && e.dueTick <= op.tick
    ensures Runnable(s)
    ensures var before, after := OperateAll(s, operations[..|operations| - 1]).after.host, OperateAll(s, operations).after.host;
            |before.events| - |after.events| < operations[|operations| - 1].eventBudget ==>
              exists k: nat :: HeardAt(s, operations, e, k)
  {
    SoundIsRunnable(s);
    hide SoundSession, Runnable, Operate, OperateAll, Leaves, HeardAt, Spent;
    var n := |operations| - 1;
    HeardOnce(s, operations, e);
    OperateAllIsSound(s, operations[..n]);
    LastOperation(s, operations);
    MissesNoEvent(OperateAll(s, operations[..n]).after, operations[n], e);
  }

  // ----- no event overtakes an earlier one -----

  /** No call of event b comes before one of event a. */
  ghost predicate NotOvertaken(batch: seq<DispatchCall>, a: nat, b: nat) {
    forall i, j | 0 <= i < j < |batch| :: !(batch[i].sourceEvent == b && batch[j].sourceEvent == a)
  }

  lemma {:induction false} ToldNothing(batch: seq<DispatchCall>, number: nat)
    requires ToldOf(batch, number) == []
    ensures forall i :: 0 <= i < |batch| ==> batch[i].sourceEvent != number
  {
    if batch != [] {
      ToldNothing(batch[1..], number);
      assert forall i :: 0 < i < |batch| ==> batch[i] == batch[1..][i - 1];
    }
  }

  lemma NotOvertakenSum(first: seq<DispatchCall>, second: seq<DispatchCall>, a: nat, b: nat)
    requires NotOvertaken(first, a, b) && NotOvertaken(second, a, b)
    requires ToldOf(first, b) == [] || ToldOf(second, a) == []
    ensures NotOvertaken(first + second, a, b)
  {
    if ToldOf(first, b) == [] { ToldNothing(first, b); } else { ToldNothing(second, a); }
    var batch := first + second;
    assert forall i :: 0 <= i < |batch| ==> batch[i] == if i < |first| then first[i] else second[i - |first|];
  }

  /** The calls of a batch follow the events they come from. */
  lemma {:induction false} CallsFollow(subscriptions: map<nat, Subscription>, popped: seq<Events.Event>, i: nat)
    returns (x: nat)
    requires i < |EventDispatches(subscriptions, popped)|
    ensures x < |popped| && EventDispatches(subscriptions, popped)[i].sourceEvent == popped[x].sequence
    ensures |EventDispatches(subscriptions, popped[..x])| <= i < |EventDispatches(subscriptions, popped[..x + 1])|
  {
    hide EventDispatch;
    var n := |popped| - 1;
    EventCallsAre(subscriptions, popped[n]);
    if i < |EventDispatches(subscriptions, popped[..n])| {
      x := CallsFollow(subscriptions, popped[..n], i);
      assert popped[..n][..x] == popped[..x] && popped[..n][..x + 1] == popped[..x + 1];
    } else {
      x := n;
      assert popped[..n + 1] == popped;
    }
  }

  lemma {:induction false} FewerEventsFewerCalls(subscriptions: map<nat, Subscription>, popped: seq<Events.Event>, x: nat)
    requires x <= |popped|
    ensures |EventDispatches(subscriptions, popped[..x])| <= |EventDispatches(subscriptions, popped)|
    decreases |popped|
  {
    hide EventDispatch;
    if x == |popped| {
      assert popped[..x] == popped;
    } else {
      FewerEventsFewerCalls(subscriptions, popped[..|popped| - 1], x);
      assert popped[..|popped| - 1][..x] == popped[..x];
    }
  }

  lemma PrefixCalls(subscriptions: map<nat, Subscription>, popped: seq<Events.Event>, y: nat, x: nat)
    requires y < |popped| && x <= |popped|
    ensures y < x ==> |EventDispatches(subscriptions, popped[..y + 1])| <= |EventDispatches(subscriptions, popped[..x])|
  {
    if y < x {
      FewerEventsFewerCalls(subscriptions, popped[..x], y + 1);
      assert popped[..x][..y + 1] == popped[..y + 1];
    }
  }

  /** Within one batch. */
  lemma BatchKeepsOrder(subscriptions: map<nat, Subscription>, popped: seq<Events.Event>, a: Events.Event, b: Events.Event)
    requires Events.InOrder(popped) && a.dueTick <= b.dueTick && a.sequence < b.sequence
    requires forall e :: e in popped && e.sequence == a.sequence ==> e == a
    requires forall e :: e in popped && e.sequence == b.sequence ==> e == b
    ensures NotOvertaken(EventDispatches(subscriptions, popped), a.sequence, b.sequence)
  {
    hide EventDispatches;
    var batch := EventDispatches(subscriptions, popped);
    forall i, j | 0 <= i < j < |batch| ensures !(batch[i].sourceEvent == b.sequence && batch[j].sourceEvent == a.sequence) {
      var x := CallsFollow(subscriptions, popped, i);
      var y := CallsFollow(subscriptions, popped, j);
      PrefixCalls(subscriptions, popped, y, x);
      assert popped[x] in popped && popped[y] in popped;
    }
  }

  /** Within one drain: if b is heard then a waits no longer. */
  lemma DrainKeepsOrder(v: HostView, op: Operation, after: HostView, a: Events.Event, b: Events.Event)
    requires Sound(v) && QueueMoves(v, op, after) && a.dueTick <= b.dueTick && a.sequence < b.sequence
    requires a in v.events && (b in v.events || Spent(v, b.sequence))
    ensures NotOvertaken(EventDispatches(v.subscriptions, Popped(v, op)), a.sequence, b.sequence)
    ensures a in after.events ==> ToldOf(EventDispatches(v.subscriptions, Popped(v, op)), b.sequence) == []
  {
    SoundEvents(v);
    hide Sound, Popped, Spent, EventDispatches;
    var popped := Popped(v, op);
    if op.DrainDue? {
      FrontInOrder(v.events, popped, after.events, a, b);
    } else {
      assert forall e :: e in popped ==> false;
      assert popped == [];
    }
    OwnNumbers(v, popped, a);
    OwnNumbers(v, popped, b);
    BatchKeepsOrder(v.subscriptions, popped, a, b);
    if a in after.events {
      forall i | 0 <= i < |popped| ensures popped[i].sequence != b.sequence {
        assert popped[i] in popped;
      }
      OthersTellNothing(v.subscriptions, popped, b.sequence);
    }
  }

  lemma FrontInOrder(
    events: seq<Events.Event>, front: seq<Events.Event>, back: seq<Events.Event>, a: Events.Event, b: Events.Event)
    requires Events.InOrder(events) && events == front + back && a.dueTick <= b.dueTick && a.sequence < b.sequence
    ensures Events.InOrder(front) && (a in back ==> b !in front)
  {
    Events.SplitInOrder(events, front, back);
    assert forall i :: 0 <= i < |front| ==> events[i] == front[i];
  }

  /** Any event of the batch with that number is that event. */
  lemma OwnNumbers(v: HostView, popped: seq<Events.Event>, a: Events.Event)
    requires Events.Numbered(v.events) && forall e :: e in popped ==> e in v.events
    requires a in v.events || Spent(v, a.sequence)
    ensures forall e :: e in popped && e.sequence == a.sequence ==> e == a
  {
  }

  /** The event waits, or its number is spent. */
  ghost predicate Known(v: HostView, e: Events.Event) {
    e in v.events || Spent(v, e.sequence)
  }

  lemma StaysKnown(v: HostView, op: Operation, after: HostView, e: Events.Event)
    requires Sound(v) && QueueMoves(v, op, after) && Known(v, e)
    ensures Known(after, e)
    ensures e !in v.events ==> e !in after.events
  {
    SoundEvents(v);
    hide Sound, Popped;
    if e in v.events && e !in after.events {
      forall d | d in after.events ensures d.sequence != e.sequence {
      }
    }
  }

  lemma OperationKeepsOrder(s: Session, op: Operation, a: Events.Event, b: Events.Event)
    requires SoundSession(s) && !op.RestoreSaved? && Known(s.host, a) && Known(s.host, b)
    requires a.dueTick <= b.dueTick && 0 < a.sequence < b.sequence
    ensures Runnable(s)
    ensures var t := Operate(s, op);
            && Known(t.after.host, a) && Known(t.after.host, b) && NotOvertaken(t.batch, a.sequence, b.sequence)
            && (a !in s.host.events ==> a !in t.after.host.events && ToldOf(t.batch, a.sequence) == [])
            && (a in t.after.host.events ==> ToldOf(t.batch, b.sequence) == [])
  {
    OperationMoves(s, op);
    assert Sound(s.host);
    hide Sound, SoundSession, Operate, QueueMoves, Popped, EventDispatches;
    var t := Operate(s, op);
    StaysKnown(s.host, op, t.after.host, a);
    StaysKnown(s.host, op, t.after.host, b);
    if a in s.host.events {
      BatchTells(s, op, b.sequence);
      DrainKeepsOrder(s.host, op, t.after.host, a, b);
      BatchNotOvertaken(s, op, a.sequence, b.sequence);
    } else {
      SpentStays(s, op, a.sequence);
      ToldNothing(t.batch, a.sequence);
    }
  }

  /** The timers' calls come from no event. */
  lemma BatchNotOvertaken(s: Session, op: Operation, a: nat, b: nat)
    requires Runnable(s) && a != 0 && b != 0
    requires NotOvertaken(EventDispatches(s.host.subscriptions, Popped(s.host, op)), a, b)
    ensures NotOvertaken(Operate(s, op).batch, a, b)
  {
    hide RunDue, Drained, Changed, CanRestore, TasksOk, EventDispatch, NotOvertaken;
    if op.DrainDue? {
      var fired := RunDue(s.host.tasks, op.tick, op.timerBudget).fired;
      var timers := TimerDispatches(s.host.links.calls, fired);
      forall i | 0 <= i < |timers| ensures timers[i].sourceEvent == 0 {
        TimersTellNothing(s.host.links.calls, fired, i);
      }
      NothingTold(timers, b);
      NoneNotOvertaken(timers, a, b);
      NotOvertakenSum(timers, EventDispatches(s.host.subscriptions, Popped(s.host, op)), a, b);
    } else {
      NoneNotOvertaken([], a, b);
    }
  }

  lemma NoneNotOvertaken(batch: seq<DispatchCall>, a: nat, b: nat)
    requires ToldOf(batch, b) == []
    ensures NotOvertaken(batch, a, b)
  {
    ToldNothing(batch, b);
  }

  /** Over any run that does not go back: an event that is due no later and has the smaller number is
      not overtaken. */
  lemma {:induction false} RunKeepsOrder(s: Session, operations: seq<Operation>, a: Events.Event, b: Events.Event)
    requires SoundSession(s) && Known(s.host, a) && Known(s.host, b)
    requires a.dueTick <= b.dueTick && 0 < a.sequence < b.sequence
    requires forall k :: 0 <= k < |operations| ==> !operations[k].RestoreSaved?
    ensures Runnable(s)
    ensures var t := OperateAll(s, operations);
            && Known(t.after.host, a) && Known(t.after.host, b) && NotOvertaken(t.batch, a.sequence, b.sequence)
            && (a !in s.host.events ==> a !in t.after.host.events && ToldOf(t.batch, a.sequence) == [])
            && (a in t.after.host.events ==> ToldOf(t.batch, b.sequence) == [])
    decreases |operations|
  {
    SoundIsRunnable(s);
    hide SoundSession, Runnable, Operate, OperateAll, Known, NotOvertaken;
    if operations == [] {
      NothingYet(s);
      NoneNotOvertaken([], a.sequence, b.sequence);
    } else {
      var n := |operations| - 1;
      RunKeepsOrder(s, operations[..n], a, b);
      OperateAllIsSound(s, operations[..n]);
      LastOperation(s, operations);
      var before := OperateAll(s, operations[..n]);
      var last := Operate(before.after, operations[n]);
      OperationKeepsOrder(before.after, operations[n], a, b);
      ToldOfSum(before.batch, last.batch, a.sequence);
      ToldOfSum(before.batch, last.batch, b.sequence);
      NotOvertakenSum(before.batch, last.batch, a.sequence, b.sequence);
    }
  }

  /** A number that was not given yet is told of by nothing, and the clock does not go back. */
  lemma {:induction false} NothingTooEarly(s: Session, operations: seq<Operation>, number: nat)
    requires SoundSession(s) && forall k :: 0 <= k < |operations| ==> !operations[k].RestoreSaved?
    ensures Runnable(s)
    ensures var t := OperateAll(s, operations);
            && s.host.nextEvent <= t.after.host.nextEvent && s.host.tick <= t.after.host.tick
            && (t.after.host.nextEvent <= number ==> ToldOf(t.batch, number) == [])
    decreases |operations|
  {
    SoundIsRunnable(s);
    hide SoundSession, Runnable, Operate, OperateAll;
    if operations == [] {
      NothingYet(s);
    } else {
      var n := |operations| - 1;
      NothingTooEarly(s, operations[..n], number);
      OperateAllIsSound(s, operations[..n]);
      LastOperation(s, operations);
      var before := OperateAll(s, operations[..n]);
      OperationTellsOfOld(before.after, operations[n], number);
      ToldOfSum(before.batch, Operate(before.after, operations[n]).batch, number);
    }
  }

  lemma OperationTellsOfOld(s: Session, op: Operation, number: nat)
    requires SoundSession(s) && !op.RestoreSaved?
    ensures Runnable(s)
    ensures var t := Operate(s, op);
            && s.host.nextEvent <= t.after.host.nextEvent && s.host.tick <= t.after.host.tick
            && (t.after.host.nextEvent <= number ==> ToldOf(t.batch, number) == [])
  {
    OperationMoves(s, op);
    assert Sound(s.host);
    SoundEvents(s.host);
    hide Sound, SoundSession, Operate, EventDispatches, Popped;
    if Operate(s, op).after.host.nextEvent <= number {
      BatchTells(s, op, number);
      var popped := Popped(s.host, op);
      assert forall i :: 0 <= i < |popped| ==> popped[i] in popped;
      OthersTellNothing(s.host.subscriptions, popped, number);
    }
  }

  lemma OneOperation(s: Session, op: Operation)
    requires Runnable(s)
    ensures OperateAll(s, [op]) == Operate(s, op)
  {
    hide Operate;
    var none: seq<Operation> := [op][..0];
    assert none == [];
    assert OperateAll(s, none) == Turn(s, [], []);
    var t := Operate(s, op);
    assert [] + t.batch == t.batch && [] + t.fired == t.fired;
  }

  /** Where the host stands when the first event was sent, and what it was. */
  lemma AfterTheFirst(s: Session, op: Operation, between: seq<Operation>)
    requires SoundSession(s) && Sends(s.host, op) && forall k :: 0 <= k < |between| ==> !between[k].RestoreSaved?
    ensures Runnable(s)
    ensures var t, e := OperateAll(s, [op] + between), Sent(s.host, op);
            && SoundSession(t.after) && Known(t.after.host, e) && s.host.tick <= t.after.host.tick
            && 0 < e.sequence == s.host.nextEvent < t.after.host.nextEvent
            && ToldOf(t.batch, t.after.host.nextEvent) == []
  {
    SoundIsRunnable(s);
    assert Sound(s.host);
    SoundEvents(s.host);
    hide Sound, SoundSession, Runnable, Operate, OperateAll, Sent, Sends;
    OneOperation(s, op);
    RunsCompose(s, [op], between);
    OperateAllIsSound(s, [op]);
    OperateAllIsSound(s, [op] + between);
    SentWaits(s, op);
    var one, e := Operate(s, op), Sent(s.host, op);
    assert SoundSession(one.after);
    StillKnown(one.after, between, e);
    NothingTooEarly(one.after, between, OperateAll(one.after, between).after.host.nextEvent);
    SentKeepsTick(s, op);
    assert [] + OperateAll(one.after, between).batch == OperateAll(one.after, between).batch;
  }

  lemma SentKeepsTick(s: Session, op: Operation)
    requires Runnable(s) && Sends(s.host, op)
    ensures Operate(s, op).after.host.tick == s.host.tick
  {
  }

  lemma {:induction false} StillKnown(s: Session, operations: seq<Operation>, e: Events.Event)
    requires SoundSession(s) && Known(s.host, e) && forall k :: 0 <= k < |operations| ==> !operations[k].RestoreSaved?
    ensures Runnable(s) && Known(OperateAll(s, operations).after.host, e)
    decreases |operations|
  {
    SoundIsRunnable(s);
    hide SoundSession, Runnable, Operate, OperateAll, Known, Sound;
    if operations == [] {
      NothingYet(s);
    } else {
      var n := |operations| - 1;
      StillKnown(s, operations[..n], e);
      OperateAllIsSound(s, operations[..n]);
      LastOperation(s, operations);
      var before := OperateAll(s, operations[..n]).after;
      OperationMoves(before, operations[n]);
      SoundHost(before);
      StaysKnown(before.host, operations[n], Operate(before, operations[n]).after.host, e);
    }
  }

  lemma SoundHost(s: Session)
    requires SoundSession(s)
    ensures Sound(s.host)
  {
  }

  lemma SentLaterDueLater(v: HostView, first: Operation, w: HostView, second: Operation)
    requires Sends(v, first) && Sends(w, second) && v.tick <= w.tick && first.delay <= second.delay
    ensures Sent(v, first).dueTick <= Sent(w, second).dueTick && Sent(v, first).sequence == v.nextEvent
  {
  }

  /** The number the next event gets, once the run has come to that operation. */
  ghost function NumberAt(s: Session, operations: seq<Operation>, k: nat): nat
    requires Runnable(s) && k <= |operations|
  {
    OperateAll(s, operations[..k]).after.host.nextEvent
  }

  lemma FirstIsKnown(s: Session, operations: seq<Operation>, p: nat, q: nat)
    requires SoundSession(s) && Runnable(s) && p < q < |operations|
    requires forall k :: 0 <= k < |operations| ==> !operations[k].RestoreSaved?
    requires Sends(OperateAll(s, operations[..p]).after.host, operations[p])
    requires Sends(OperateAll(s, operations[..q]).after.host, operations[q])
    requires operations[p].delay <= operations[q].delay
    ensures var v, w := OperateAll(s, operations[..p]).after.host, OperateAll(s, operations[..q]).after.host;
            var a := Sent(v, operations[p]);
            && Known(w, a) && 0 < a.sequence == v.nextEvent < w.nextEvent && a.dueTick <= Sent(w, operations[q]).dueTick
  {
    hide SoundSession, Runnable, Operate, OperateAll, Sent, Sends, Known;
    var between := operations[p + 1..q];
    var first := OperateAll(s, operations[..p]).after;
    OperateAllIsSound(s, operations[..p]);
    AfterTheFirst(first, operations[p], between);
    assert operations[..q] == operations[..p] + ([operations[p]] + between);
    RunsCompose(s, operations[..p], [operations[p]] + between);
    SentLaterDueLater(first.host, operations[p], OperateAll(s, operations[..q]).after.host, operations[q]);
  }

  lemma SecondComesLater(s: Session, before: seq<Operation>, op: Operation, rest: seq<Operation>, a: Events.Event)
    requires SoundSession(s) && Runnable(s)
    requires forall k :: 0 <= k < |before| ==> !before[k].RestoreSaved?
    requires forall k :: 0 <= k < |rest| ==> !rest[k].RestoreSaved?
    requires var v := OperateAll(s, before).after.host;
             Sends(v, op) && Known(v, a) && 0 < a.sequence < v.nextEvent && a.dueTick <= Sent(v, op).dueTick
    ensures NotOvertaken(OperateAll(s, before + ([op] + rest)).batch, a.sequence, OperateAll(s, before).after.host.nextEvent)
  {
    hide SoundSession, Runnable, Operate, OperateAll, Sent, Sends, NotOvertaken, Known;
    var mid := OperateAll(s, before);
    OperateAllIsSound(s, before);
    AfterTheSecond(mid.after, op, rest, a);
    NothingTooEarly(s, before, mid.after.host.nextEvent);
    RunsCompose(s, before, [op] + rest);
    NoneNotOvertaken(mid.batch, a.sequence, mid.after.host.nextEvent);
    NotOvertakenSum(mid.batch, OperateAll(mid.after, [op] + rest).batch, a.sequence, mid.after.host.nextEvent);
  }

  lemma SplitsAt(operations: seq<Operation>, q: nat) returns (before: seq<Operation>, rest: seq<Operation>)
    requires q < |operations| && forall k :: 0 <= k < |operations| ==> !operations[k].RestoreSaved?
    ensures before == operations[..q] && before + ([operations[q]] + rest) == operations
    ensures forall k :: 0 <= k < |before| ==> !before[k].RestoreSaved?
    ensures forall k :: 0 <= k < |rest| ==> !rest[k].RestoreSaved?
  {
    before, rest := operations[..q], operations[q + 1..];
  }

  /** Of two events the one sent first, with a delay no longer, is heard first: whatever is done
      before, in between and afterwards, as long as the host does not go back to a saved state, no
      call of the second comes before one of the first. */
  lemma FirstSentFirstHeard(s: Session, operations: seq<Operation>, p: nat, q: nat)
    requires SoundSession(s) && Runnable(s) && p < q < |operations|
    requires forall k :: 0 <= k < |operations| ==> !operations[k].RestoreSaved?
    requires Sends(OperateAll(s, operations[..p]).after.host, operations[p])
    requires Sends(OperateAll(s, operations[..q]).after.host, operations[q])
    requires operations[p].delay <= operations[q].delay
    ensures NotOvertaken(OperateAll(s, operations).batch, NumberAt(s, operations, p), NumberAt(s, operations, q))
  {
    hide SoundSession, Runnable, Operate, OperateAll, Sent, Sends, NotOvertaken, Known;
    FirstIsKnown(s, operations, p, q);
    var before, rest := SplitsAt(operations, q);
    SecondComesLater(s, before, operations[q], rest, Sent(OperateAll(s, operations[..p]).after.host, operations[p]));
  }

  lemma AfterTheSecond(s: Session, op: Operation, rest: seq<Operation>, a: Events.Event)
    requires SoundSession(s) && Sends(s.host, op) && forall k :: 0 <= k < |rest| ==> !rest[k].RestoreSaved?
    requires Known(s.host, a) && 0 < a.sequence < s.host.nextEvent && a.dueTick <= Sent(s.host, op).dueTick
    ensures Runnable(s) && NotOvertaken(OperateAll(s, [op] + rest).batch, a.sequence, s.host.nextEvent)
  {
    SoundIsRunnable(s);
    SentWaits(s, op);
    hide SoundSession, Runnable, Operate, OperateAll, Sent, Sends, NotOvertaken, Known;
    OneOperation(s, op);
    RunsCompose(s, [op], rest);
    OperateAllIsSound(s, [op]);
    StillKnown(s, [op], a);
    var one, b := Operate(s, op), Sent(s.host, op);
    IsKnown(one.after.host, b);
    RunKeepsOrder(one.after, rest, a, b);
    assert [] + OperateAll(one.after, rest).batch == OperateAll(one.after, rest).batch;
  }

  lemma IsKnown(v: HostView, e: Events.Event)
    requires e in v.events
    ensures Known(v, e)
  {
  }
}
