/** Main results about the gameplay host: every run of its methods is the run that HostRuns
    describes, its snapshots are accepted and rebuild it, it goes back to a snapshot it took, and
    where that stops. */
module HostTheorems {
  import opened Scalars
  import opened Ordered
  import opened Timers
  import opened Scheduler
  import opened HostLinks
  import opened Events
  import opened HostState
  import opened HostPlans
  import opened HostDispatch
  import opened Host
  import opened HostRuns
  import opened HostLimits

  // ----- snapshots -----

  function SnapshotOf(v: HostView): HostSnapshot {
    HostSnapshot(
      SchedulerState(v.nextTimerId, Values(v.tasks)), EventState(v.nextEvent, v.events), v.tick,
      v.nextPayloadId, v.nextSubscriptionId, v.nextSequenceId, Values(v.links.calls), Values(v.subscriptions),
      Values(v.links.sequences))
  }

  /** Two linked states with the same calls and sequences are the same. */
  lemma LinksAreDetermined(a: Links, b: Links)
    requires Linked(a, NoSequence) && Linked(b, NoSequence) && a.calls == b.calls && a.sequences == b.sequences
    ensures a == b
  {
    forall t | t in a.timerToPayload ensures t in b.timerToPayload && b.timerToPayload[t] == a.timerToPayload[t] {
      assert a.timerToPayload[t] in b.calls;
    }
    forall t | t in b.timerToPayload ensures t in a.timerToPayload {
      assert b.timerToPayload[t] in a.calls;
    }
    TimersAgree(a, b);
    TimersAgree(b, a);
    assert a.timerToPayload == b.timerToPayload;
    assert a.timerToSequence == b.timerToSequence;
  }

  lemma TimersAgree(a: Links, b: Links)
    requires Linked(a, NoSequence) && Linked(b, NoSequence) && a.sequences == b.sequences
    ensures forall t :: t in a.timerToSequence ==> t in b.timerToSequence && b.timerToSequence[t] == a.timerToSequence[t]
  {
    forall t | t in a.timerToSequence ensures t in b.timerToSequence && b.timerToSequence[t] == a.timerToSequence[t] {
      var s := a.timerToSequence[t];
      assert s == 0 ==> t in NoSequence.timers;
      assert s in a.sequences;
      assert SequenceLinked(a, s) && SequenceLinked(b, s);
    }
  }

  lemma CallsListed(l: Links)
    requires CallsLinked(l)
    ensures DistinctKeys(Values(l.calls), CallKey)
    ensures forall c :: c in Values(l.calls) <==> c.payloadId in l.calls && l.calls[c.payloadId] == c
  {
    hide Values, Emplaced;
    var list := Values(l.calls);
    ListingRoundTrips(l.calls, CallKey);
    EmplacedFromList(list, CallKey);
    forall c ensures c in list <==> c.payloadId in l.calls && l.calls[c.payloadId] == c {
      if c in list { ListedIsInMap(l.calls, c); }
    }
  }

  lemma CallTimersListed(l: Links)
    requires CallsLinked(l)
    ensures DistinctKeys(Values(l.calls), CallTimer)
    ensures TimersOf(Values(l.calls)) == l.timerToPayload.Keys
  {
    hide Values;
    var list := Values(l.calls);
    CallsListed(l);
    forall i, j | 0 <= i < j < |list| ensures CallTimer(list[i]) != CallTimer(list[j]) {
      assert list[i] in list && list[j] in list;
      assert CallKey(list[i]) != CallKey(list[j]);
    }
    forall t | t in l.timerToPayload ensures t in TimersOf(list) {
      assert l.calls[l.timerToPayload[t]] in list;
    }
  }

  lemma CallsSaved(tasks: Tasks, l: Links, nextPayloadId: nat)
    requires CallsLinked(l) && nextPayloadId != 0 && forall p :: p in l.calls ==> p < nextPayloadId
    ensures CallsRestorable(tasks, Values(l.calls), nextPayloadId) <==> Attached(tasks, l)
    ensures TimersOf(Values(l.calls)) == l.timerToPayload.Keys
  {
    hide Values, DistinctKeys, TimersOf;
    var list := Values(l.calls);
    CallsListed(l);
    CallTimersListed(l);
    if CallsRestorable(tasks, list, nextPayloadId) {
      forall t | t in l.timerToPayload ensures t in tasks && tasks[t].payload == l.timerToPayload[t] {
        assert TimerServes(tasks, l.calls[l.timerToPayload[t]]);
      }
    }
  }

  lemma SequencesListed(l: Links)
    requires Linked(l, NoSequence)
    ensures DistinctKeys(Values(l.sequences), SequenceKey)
    ensures forall s :: s in Values(l.sequences) ==> s.id in l.sequences && l.sequences[s.id] == s && SequenceLinked(l, s.id)
  {
    hide Values, Emplaced;
    assert forall s :: s in l.sequences ==> SequenceLinked(l, s);
    ListingRoundTrips(l.sequences, SequenceKey);
    forall s | s in Values(l.sequences) ensures s.id in l.sequences && l.sequences[s.id] == s {
      ListedIsInMap(l.sequences, s);
    }
  }

  lemma SequencesSaved(l: Links, nextSequenceId: nat)
    requires Linked(l, NoSequence) && nextSequenceId != 0 && forall s :: s in l.sequences ==> s < nextSequenceId
    ensures SequencesRestorable(l.timerToPayload.Keys, Values(l.sequences), nextSequenceId)
  {
    hide Values;
    var list := Values(l.sequences);
    SequencesListed(l);
    forall i, j | 0 <= i < j < |list| ensures Apart(list[i].timers, list[j].timers) {
      assert list[i] in list && list[j] in list;
      assert SequenceKey(list[i]) != SequenceKey(list[j]);
    }
  }

  lemma SubscriptionsSaved(subscriptions: map<nat, Subscription>, nextSubscriptionId: nat)
    requires SubscriptionsOk(subscriptions, nextSubscriptionId) && nextSubscriptionId != 0
    ensures SubscriptionsRestorable(Values(subscriptions), nextSubscriptionId)
    ensures Emplaced(Values(subscriptions), SubscriptionKey) == subscriptions
  {
    hide Values, Emplaced;
    ListingRoundTrips(subscriptions, SubscriptionKey);
    forall s | s in Values(subscriptions) ensures s.id in subscriptions && subscriptions[s.id] == s {
      ListedIsInMap(subscriptions, s);
    }
  }

  /** restore accepts the snapshot of a host exactly when every call still has its timer and no id
      counter has wrapped; and the maps it rebuilds are the ones that were saved. */
  lemma SnapshotsAreAccepted(v: HostView)
    requires Sound(v)
    ensures Acceptable(SnapshotOf(v)) <==> CanRestore(v)
    ensures NumbersFit(SnapshotOf(v))
    ensures Emplaced(SnapshotOf(v).scheduler.tasks, TaskId) == v.tasks
    ensures Emplaced(SnapshotOf(v).calls, CallKey) == v.links.calls
    ensures Emplaced(SnapshotOf(v).sequences, SequenceKey) == v.links.sequences
    ensures Emplaced(SnapshotOf(v).subscriptions, SubscriptionKey) == v.subscriptions
  {
    hide Values, Emplaced, CallsRestorable, SequencesRestorable, SubscriptionsRestorable, Attached, SequencesLinked,
        CallsLinked, Members;
    TimersAreBelow(v);
    SnapshotRoundTrips(v.nextTimerId, v.tasks);
    ListingsRoundTrip(v);
    if NoneWrapped(v) {
      CallsSaved(v.tasks, v.links, v.nextPayloadId);
      SequencesSaved(v.links, v.nextSequenceId);
      SubscriptionsSaved(v.subscriptions, v.nextSubscriptionId);
    }
  }

  lemma TimersAreBelow(v: HostView)
    requires Sound(v)
    ensures TasksOk(v.tasks) && (v.nextTimerId != 0 ==> forall id :: id in v.tasks ==> id < v.nextTimerId)
  {
  }

  lemma ListingsRoundTrip(v: HostView)
    requires Sound(v)
    ensures Emplaced(Values(v.links.calls), CallKey) == v.links.calls
    ensures Emplaced(Values(v.links.sequences), SequenceKey) == v.links.sequences
    ensures Emplaced(Values(v.subscriptions), SubscriptionKey) == v.subscriptions
  {
    hide Values, Emplaced;
    assert forall s :: s in v.links.sequences ==> SequenceLinked(v.links, s);
    ListingRoundTrips(v.links.calls, CallKey);
    ListingRoundTrips(v.links.sequences, SequenceKey);
    ListingRoundTrips(v.subscriptions, SubscriptionKey);
  }

  // ----- the methods do what HostRuns says -----

  ghost function ViewOf(h: GameplayHost): HostView
    reads h, h.scheduler, h.events
  {
    HostView(h.tick, h.scheduler.tasks, h.Maps(), h.events.events, h.subscriptions, h.scheduler.nextId,
             h.events.nextSequence, h.nextPayloadId, h.nextSubscriptionId, h.nextSequenceId)
  }

  lemma ValidIsSound(h: GameplayHost)
    requires h.Valid()
    ensures Sound(ViewOf(h))
  {
    hide Consistent, SubscriptionsOk, Agrees, TasksOk, EventsRestorable, Events.InOrder;
  }

  /** Restoring a state that was saved of a host gives back that host, or is refused as a whole. */
  method RestoreState(h: GameplayHost, state: HostSnapshot, ghost v: HostView) returns (ok: bool)
    requires h.Valid() && Sound(v) && state == SnapshotOf(v)
    modifies h, h.scheduler, h.events
    ensures h.Valid() && (ok <==> CanRestore(v))
    ensures ViewOf(h) == if ok then v else old(ViewOf(h))
  {
    hide Values, Emplaced, Consistent, Attached, Linked, Owned, SubscriptionsOk, Acceptable, NumbersFit, CanRestore,
      EventsRestorable, Events.InOrder, Agrees, TasksOk;
    SnapshotsAreAccepted(v);
    SoundParts(v);
    ok := h.Restore(state);
    if ok { LinksAreDetermined(h.Maps(), v.links); }
  }

  lemma SoundParts(v: HostView)
    requires Sound(v)
    ensures Linked(v.links, NoSequence) && Owned(v.tasks, v.links) && Events.InOrder(v.events)
  {
  }

  method TakeSnapshot(h: GameplayHost) returns (state: HostSnapshot)
    requires h.Valid()
    ensures state == SnapshotOf(ViewOf(h))
  {
    hide Values, Consistent, SubscriptionsOk, Agrees, TasksOk, EventsRestorable, Events.InOrder;
    state := h.Snapshot();
  }

  /** Saving one host and restoring into another, or into itself, makes them equal. */
  method CopyThroughSnapshot(from: GameplayHost, to: GameplayHost) returns (ok: bool)
    requires from.Valid() && to.Valid()
    modifies to, to.scheduler, to.events
    ensures to.Valid() && (ok <==> old(CanRestore(ViewOf(from))))
    ensures ViewOf(to) == if ok then old(ViewOf(from)) else old(ViewOf(to))
  {
    hide Values, Sound, CanRestore;
    ghost var v := ViewOf(from);
    ValidIsSound(from);
    var state := TakeSnapshot(from);
    ok := RestoreState(to, state, v);
  }

  /** The saved states are those of the session. */
  ghost predicate SavedAs(saved: seq<HostSnapshot>, s: Session) {
    |saved| == |s.saved| && forall i :: 0 <= i < |saved| ==> saved[i] == SnapshotOf(s.saved[i])
  }

  /** The operations that dispatch nothing and leave the saved states alone. */
  method Change(h: GameplayHost, op: Operation)
    requires h.Valid() && !op.DrainDue? && !op.Save? && !op.RestoreSaved?
    modifies h, h.scheduler, h.events
    ensures h.Valid() && ViewOf(h) == Changed(old(ViewOf(h)), op)
  {
    hide Consistent, Attached, SubscriptionsOk, Erase, EraseEach, Started, BuiltTasks, AddCall, AfterDraws, Startable, Sensible,
      TasksOk, Agrees, EventsRestorable, Events.InOrder, Events.Inserted, Events.Removed, RemoveAll;
    match op
    case ScheduleCall(target, callback, delay, arguments, interval, repeatCount) =>
      var _ := h.ScheduleCall(target, callback, delay, arguments, interval, repeatCount, NoSequence);
    case CancelCall(timer) => var _ := h.CancelCall(timer);
    case StartSequence(target, steps, repeatCount) => Start(h, target, steps, repeatCount);
    case CancelSequence(id) => var _ := h.CancelSequence(id);
    case Subscribe(topic, target, callback, priority) => var _ := h.Subscribe(topic, target, callback, priority);
    case Unsubscribe(id) => var _ := h.Unsubscribe(id);
    case Publish(topic, arguments, delay) => var _ := h.Publish(topic, arguments, delay);
    case EnqueueDirect(target, callback, arguments, delay) => var _ := h.EnqueueDirect(target, callback, arguments, delay);
    case CancelEvent(sequence) => var _ := h.CancelEvent(sequence);
    case StepClock => h.StepClock();
  }

  method Start(h: GameplayHost, target: nat, steps: seq<Step>, repeatCount: nat)
    requires h.Valid()
    modifies h, h.scheduler
    ensures h.Valid() && ViewOf(h) == SequenceStarted(old(ViewOf(h)), PlanIn(old(ViewOf(h)), target, steps, repeatCount))
  {
    hide Consistent, Attached, SubscriptionsOk, Started, BuiltTasks, AfterDraws, TasksOk, Agrees, EventsRestorable, Events.InOrder;
    var _ := h.StartSequence(target, steps, repeatCount);
  }

  method Drain(h: GameplayHost, tick: nat, timerBudget: nat, eventBudget: nat) returns (batch: seq<DispatchCall>)
    requires h.Valid() && TasksOk(h.scheduler.tasks)
    modifies h, h.scheduler, h.events
    ensures h.Valid()
    ensures ViewOf(h) == Drained(old(ViewOf(h)), tick, timerBudget, eventBudget)
    ensures batch == Dispatched(old(ViewOf(h)), tick, timerBudget, eventBudget)
  {
    hide Consistent, Attached, SubscriptionsOk, RunDue, EraseEach, EndedIds, TimerDispatches, EventDispatches, TasksOk, Agrees,
      EventsRestorable, Events.InOrder, FiresOverflowing;
    ghost var fired, popped;
    batch, fired, popped := h.DrainDue(tick, timerBudget, eventBudget);
  }

  /** One operation does to the host what HostRuns says, and dispatches what it says. */
  method Perform(h: GameplayHost, op: Operation, saved: seq<HostSnapshot>, ghost s: Session)
    returns (nowSaved: seq<HostSnapshot>, batch: seq<DispatchCall>)
    requires h.Valid() && SoundSession(s) && s.host == ViewOf(h) && SavedAs(saved, s)
    modifies h, h.scheduler, h.events
    ensures h.Valid()
    ensures Runnable(s)
    ensures var t := Operate(s, op);
            ViewOf(h) == t.after.host && SavedAs(nowSaved, t.after) && batch == t.batch
  {
    hide Sound, Changed, Drained, Dispatched, CanRestore, TasksOk, SnapshotOf, Consistent, SubscriptionsOk, Agrees, EventsRestorable,
      Events.InOrder, Attached;
    SoundIsRunnable(s);
    nowSaved, batch := saved, [];
    match op
    case DrainDue(tick, timerBudget, eventBudget) => batch := Drain(h, tick, timerBudget, eventBudget);
    case Save =>
      var state := TakeSnapshot(h);
      nowSaved := saved + [state];
    case RestoreSaved(index) =>
      if index < |saved| {
        assert s.saved[index] in s.saved;
        var _ := RestoreState(h, saved[index], s.saved[index]);
      }
    case _ => Change(h, op);
  }

  /** Any number of operations, one after the other. */
  method PerformAll(h: GameplayHost, operations: seq<Operation>, saved: seq<HostSnapshot>, ghost s: Session)
    returns (nowSaved: seq<HostSnapshot>, batch: seq<DispatchCall>)
    requires h.Valid() && SoundSession(s) && s.host == ViewOf(h) && SavedAs(saved, s)
    modifies h, h.scheduler, h.events
    ensures h.Valid()
    ensures Runnable(s)
    ensures var t := OperateAll(s, operations);
            SoundSession(t.after) && ViewOf(h) == t.after.host && SavedAs(nowSaved, t.after) && batch == t.batch
  {
    hide SoundSession, Operate, OperateAll, SavedAs, Runnable, Consistent, SubscriptionsOk, Agrees, TasksOk, EventsRestorable,
      Events.InOrder;
    SoundIsRunnable(s);
    nowSaved, batch := saved, [];
    ghost var t := Turn(s, [], []);
    NoOperations(s, operations);
    for k := 0 to |operations|
      invariant h.Valid() && t == OperateAll(s, operations[..k])
      invariant SoundSession(t.after) && ViewOf(h) == t.after.host && SavedAs(nowSaved, t.after) && batch == t.batch
    {
      OneMoreOperation(s, operations, k);
      OperateIsSound(t.after, operations[k]);
      var dispatched;
      nowSaved, dispatched := Perform(h, operations[k], nowSaved, t.after);
      batch := batch + dispatched;
      t := OperateAll(s, operations[..k + 1]);
    }
    assert operations[..|operations|] == operations;
  }

  lemma NoOperations(s: Session, operations: seq<Operation>)
    requires Runnable(s)
    ensures OperateAll(s, operations[..0]) == Turn(s, [], [])
  {
  }

  /** In every run of host operations from a fresh host, restoring its own snapshots included, the
      maps, the scheduler and the counters stay consistent, and the host's state, its saved states and
      all that is dispatched are those of the run that HostRuns describes.  As long as no drain takes
      the overflow branch, a snapshot of the host, and every one it saved, is acceptable exactly while
      no counter had wrapped; so it is if the drains leave room for every interval, and with few
      enough draws every snapshot is. */
  method Run(operations: seq<Operation>) returns (h: GameplayHost, saved: seq<HostSnapshot>, batch: seq<DispatchCall>)
    ensures h.Valid()
    ensures var t := OperateAll(NewSession, operations);
            ViewOf(h) == t.after.host && SavedAs(saved, t.after) && batch == t.batch
    ensures !Overflowed(NewSession, operations) ==>
              (Acceptable(SnapshotOf(ViewOf(h))) <==> NoneWrapped(ViewOf(h))) &&
              forall i :: 0 <= i < |saved| ==>
                (Acceptable(saved[i]) <==> NoneWrapped(OperateAll(NewSession, operations).after.saved[i]))
    ensures forall longest: nat :: IntervalsAtMost(operations, longest) && LeavesRoom(operations, longest) ==>
              !Overflowed(NewSession, operations) &&
              (Draws(operations) < ULONG_MAX ==>
                 Acceptable(SnapshotOf(ViewOf(h))) && forall i :: 0 <= i < |saved| ==> Acceptable(saved[i]))
  {
    hide Sound, SoundSession, OperateAll, Acceptable, SnapshotOf, CanRestore, NoneWrapped, Overflowed, IntervalsAtMost, LeavesRoom,
      Draws, Consistent, SubscriptionsOk, Agrees, TasksOk, EventsRestorable, Events.InOrder;
    h := new GameplayHost();
    NewIsSound();
    saved, batch := PerformAll(h, operations, [], NewSession);
    ghost var after := OperateAll(NewSession, operations).after;
    AcceptedWhenRestorable(after, saved);
    if !Overflowed(NewSession, operations) { RestorableExactly(operations); }
    forall longest: nat | IntervalsAtMost(operations, longest) && LeavesRoom(operations, longest)
      ensures !Overflowed(NewSession, operations) && (Draws(operations) < ULONG_MAX ==> AllRestorable(after))
    {
      RoomMeansRestorable(operations, longest);
    }
  }

  lemma AcceptedWhenRestorable(s: Session, saved: seq<HostSnapshot>)
    requires SoundSession(s) && SavedAs(saved, s)
    ensures Acceptable(SnapshotOf(s.host)) <==> CanRestore(s.host)
    ensures forall i :: 0 <= i < |saved| ==> s.saved[i] in s.saved && (Acceptable(saved[i]) <==> CanRestore(s.saved[i]))
  {
    hide Sound, Acceptable, SnapshotOf, CanRestore;
    SnapshotsAreAccepted(s.host);
    forall i | 0 <= i < |saved| ensures s.saved[i] in s.saved && (Acceptable(saved[i]) <==> CanRestore(s.saved[i])) {
      SnapshotsAreAccepted(s.saved[i]);
    }
  }

  // ----- going back -----

  /** A host that took a snapshot goes back to it after any operations exactly when the snapshot could
      be restored then. */
  method RollBack(h: GameplayHost, operations: seq<Operation>) returns (ok: bool)
    requires h.Valid()
    modifies h, h.scheduler, h.events
    ensures h.Valid() && (ok <==> old(CanRestore(ViewOf(h))))
    ensures ok ==> ViewOf(h) == old(ViewOf(h))
  {
    hide Sound, CanRestore, SnapshotOf, OperateAll, Runnable, Consistent, SubscriptionsOk, Agrees, TasksOk, EventsRestorable,
      Events.InOrder;
    ghost var v := ViewOf(h);
    ValidIsSound(h);
    var state := TakeSnapshot(h);
    var _, _ := PerformAll(h, operations, [], Session(v, []));
    ok := RestoreState(h, state, v);
  }

  /** Saving adds to the saved states and changes none. */
  lemma {:induction false} SavedStatesStay(s: Session, operations: seq<Operation>)
    requires Runnable(s)
    ensures s.saved <= OperateAll(s, operations).after.saved
    decreases |operations|
  {
    hide Drained, Dispatched, Changed, CanRestore, Runnable;
    if operations != [] { SavedStatesStay(s, operations[..|operations| - 1]); }
  }

  predicate SavesNothing(operations: seq<Operation>) {
    forall k | 0 <= k < |operations| :: !operations[k].Save? && !operations[k].RestoreSaved?
  }

  /** What a run dispatches depends on the host and not on what was saved. */
  lemma {:induction false} SameHostSameRun(a: Session, b: Session, operations: seq<Operation>)
    requires Runnable(a) && Runnable(b) && a.host == b.host && SavesNothing(operations)
    ensures var x, y := OperateAll(a, operations), OperateAll(b, operations);
            x.after.host == y.after.host && x.batch == y.batch && x.fired == y.fired
    decreases |operations|
  {
    hide Drained, Dispatched, Changed, Runnable, CanRestore;
    if operations != [] { SameHostSameRun(a, b, operations[..|operations| - 1]); }
  }

  /** Replay: a host saves its state, does anything, and goes back; then it is where it was, and the
      same operations dispatch what they would have dispatched at once. */
  lemma ReplayRepeats(s: Session, meanwhile: seq<Operation>, again: seq<Operation>)
    requires Runnable(s) && CanRestore(s.host) && SavesNothing(again)
    ensures var away := OperateAll(s, [Save] + meanwhile).after;
            var back := Operate(away, RestoreSaved(|s.saved|)).after;
            && back.host == s.host
            && OperateAll(back, again).batch == OperateAll(s, again).batch
            && OperateAll(back, again).after.host == OperateAll(s, again).after.host
  {
    hide OperateAll, Drained, Dispatched, Changed, Runnable, CanRestore;
    RunsCompose(s, [Save], meanwhile);
    var first := OperateAll(s, [Save]).after;
    JustSaved(s);
    SavedStatesStay(first, meanwhile);
    var away := OperateAll(s, [Save] + meanwhile).after;
    assert away.saved[|s.saved|] == s.host;
    SameHostSameRun(Operate(away, RestoreSaved(|s.saved|)).after, s, again);
  }

  lemma JustSaved(s: Session)
    requires Runnable(s)
    ensures OperateAll(s, [Save]).after == s.(saved := s.saved + [s.host])
  {
    assert [Save][..0] == [];
  }

  // ----- where it stops -----

  lemma OverflowingTimer(interval: nat)
    requires interval == MAX_TICK
    ensures FiresOverflowing(map[1 := Task(1, 1, interval, REPEAT_FOREVER, 1)], 1, 1)
  {
    var tasks := map[1 := Task(1, 1, interval, REPEAT_FOREVER, 1)];
    assert 1 in tasks && tasks[1].dueTick <= 1;
    assert IsNextDue(tasks, 1, 1);
    NextDueUnique(tasks, 1, 1, NextDue(tasks, 1));
  }

  /** A timer whose next due tick overflows is dropped while its call stays: the host's own snapshot
      is then refused. */
  method OverflowLosesTimer() returns (accepted: bool)
    ensures !accepted
  {
    hide Values, Emplaced, Consistent, Linked, Owned, SubscriptionsOk, EraseEach, TimerDispatches, EventDispatches, RunDue;
    var h := new GameplayHost();
    var id := h.ScheduleCall(1, "tick", 1, [], MAX_TICK, REPEAT_FOREVER, NoSequence);
    assert h.scheduler.tasks == map[1 := Task(1, 1, MAX_TICK, REPEAT_FOREVER, 1)];
    OverflowingTimer(MAX_TICK);
    var _, _, _ := h.DrainDue(1, 1, 0);
    accepted := CopyThroughSnapshot(h, h);
  }
}
