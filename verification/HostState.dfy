/** Saved host states: what GameplayHost::restore accepts (src/game/GameplayScripting.cpp:299-365)
    and the maps it rebuilds. */
module HostState {
  import opened Scalars
  import opened Ordered
  import opened Timers
  import opened Scheduler
  import opened HostLinks
  import opened Events

  datatype Subscription = Subscription(id: nat, topic: string, target: nat, callback: string, priority: int)

  datatype HostSnapshot = HostSnapshot(
    scheduler: SchedulerState, events: EventState, tick: nat,
    nextPayloadId: nat, nextSubscriptionId: nat, nextSequenceId: nat,
    calls: seq<Call>, subscriptions: seq<Subscription>, sequences: seq<SequenceState>)

  function CallKey(c: Call): nat { c.payloadId }
  function CallTimer(c: Call): nat { c.timerId }
  function SubscriptionKey(s: Subscription): nat { s.id }
  function SequenceKey(s: SequenceState): nat { s.id }

  predicate SubscriptionOk(s: Subscription) {
    s.id != 0 && s.topic != "" && s.target != 0 && s.callback != ""
  }

  /** The timer of the call is scheduled, for that call. */
  predicate TimerServes(tasks: Tasks, c: Call) {
    ValidCall(c) && c.timerId in tasks && tasks[c.timerId].payload == c.payloadId
  }

  predicate CallsRestorable(tasks: Tasks, calls: seq<Call>, nextPayloadId: nat) {
    && DistinctKeys(calls, CallKey) && DistinctKeys(calls, CallTimer)
    && forall c | c in calls :: TimerServes(tasks, c) && c.payloadId < nextPayloadId
  }

  predicate SubscriptionsRestorable(subscriptions: seq<Subscription>, nextSubscriptionId: nat) {
    && DistinctKeys(subscriptions, SubscriptionKey)
    && forall s | s in subscriptions :: SubscriptionOk(s) && s.id < nextSubscriptionId
  }

  predicate Apart(a: seq<nat>, b: seq<nat>) {
    forall t | t in a :: t !in b
  }

  predicate SequencesRestorable(timers: set<nat>, sequences: seq<SequenceState>, nextSequenceId: nat) {
    && DistinctKeys(sequences, SequenceKey)
    && (forall s | s in sequences ::
          s.id != 0 && s.timers != [] && Distinct(s.timers) && (forall t | t in s.timers :: t in timers) && s.id < nextSequenceId)
    && (forall i, j | 0 <= i < j < |sequences| :: Apart(sequences[i].timers, sequences[j].timers))
  }

  function TimersOf(calls: seq<Call>): set<nat> {
    set c | c in calls :: c.timerId
  }

  /** Exactly the states restore accepts. */
  predicate Acceptable(s: HostSnapshot) {
    && s.nextPayloadId != 0 && s.nextSubscriptionId != 0 && s.nextSequenceId != 0
    && Restorable(s.scheduler) && EventsRestorable(s.events)
    && CallsRestorable(Emplaced(s.scheduler.tasks, TaskId), s.calls, s.nextPayloadId)
    && SubscriptionsRestorable(s.subscriptions, s.nextSubscriptionId)
    && SequencesRestorable(TimersOf(s.calls), s.sequences, s.nextSequenceId)
  }

  // ----- the loops of restore -----

  /** What the loop over the calls has when the calls of list are in. */
  ghost predicate CallsIn(tasks: Tasks, list: seq<Call>, calls: map<nat, Call>, timerToPayload: map<nat, nat>, maximum: nat) {
    && calls == Emplaced(list, CallKey) && timerToPayload.Keys == TimersOf(list)
    && DistinctKeys(list, CallKey) && DistinctKeys(list, CallTimer)
    && CallsLinked(Links(calls, timerToPayload, map[], map[]))
    && (forall c :: c in list ==> TimerServes(tasks, c) && c.payloadId <= maximum)
    && (maximum == 0 || exists c :: c in list && c.payloadId == maximum)
  }

  method RebuildCalls(tasks: Tasks, list: seq<Call>, nextPayloadId: nat)
    returns (ok: bool, calls: map<nat, Call>, timerToPayload: map<nat, nat>)
    requires nextPayloadId != 0
    ensures ok <==> CallsRestorable(tasks, list, nextPayloadId)
    ensures ok ==> calls == Emplaced(list, CallKey) && timerToPayload.Keys == TimersOf(list)
    ensures ok ==> CallsLinked(Links(calls, timerToPayload, map[], map[]))
  {
    calls, timerToPayload := map[], map[];
    var maximum := 0;
    assert CallsIn(tasks, list[..0], calls, timerToPayload, maximum);
    for i := 0 to |list|
      invariant CallsIn(tasks, list[..i], calls, timerToPayload, maximum)
    {
      hide CallsIn, CallsRestorable, Emplaced, TimersOf, ValidCall;
      var call := list[i];
      assert call in list;
      if !ValidCall(call) || call.timerId !in tasks || tasks[call.timerId].payload != call.payloadId {
        NotServed(tasks, list, nextPayloadId, call);
        return false, map[], map[];
      }
      if call.payloadId in calls || call.timerId in timerToPayload {
        CallsClash(tasks, list, i, calls, timerToPayload, maximum, nextPayloadId);
        return false, map[], map[];
      }
      OneMoreCall(tasks, list, i, calls, timerToPayload, maximum);
      calls := calls[call.payloadId := call];
      timerToPayload := timerToPayload[call.timerId := call.payloadId];
      if call.payloadId > maximum { maximum := call.payloadId; }
    }
    assert list[..|list|] == list;
    ok := nextPayloadId > maximum;
  }

  lemma CallsClash(
    tasks: Tasks, list: seq<Call>, i: nat, calls: map<nat, Call>, timerToPayload: map<nat, nat>, maximum: nat,
    nextPayloadId: nat)
    requires i < |list| && CallsIn(tasks, list[..i], calls, timerToPayload, maximum)
    requires list[i].payloadId in calls || list[i].timerId in timerToPayload
    ensures !CallsRestorable(tasks, list, nextPayloadId)
  {
    if list[i].payloadId in calls { SharedKey(list, i, CallKey); } else { SharedTimer(list, i); }
    CallsNeedDistinctKeys(tasks, list, nextPayloadId);
  }

  lemma OneMoreCall(
    tasks: Tasks, list: seq<Call>, i: nat, calls: map<nat, Call>, timerToPayload: map<nat, nat>, maximum: nat)
    requires i < |list| && CallsIn(tasks, list[..i], calls, timerToPayload, maximum)
    requires TimerServes(tasks, list[i]) && list[i].payloadId !in calls && list[i].timerId !in timerToPayload
    ensures var c := list[i];
            CallsIn(tasks, list[..i + 1], calls[c.payloadId := c], timerToPayload[c.timerId := c.payloadId],
                    if c.payloadId > maximum then c.payloadId else maximum)
  {
    hide DistinctKeys, Emplaced, CallsLinked, TimersOf;
    assert list[..i + 1] == list[..i] + [list[i]];
    EmplacedGrows(list, i, CallKey);
    TimersGrow(list, i);
    AddCallKeepsCalls(Links(calls, timerToPayload, map[], map[]), list[i]);
  }

  lemma NotServed(tasks: Tasks, list: seq<Call>, nextPayloadId: nat, c: Call)
    requires c in list && !TimerServes(tasks, c)
    ensures !CallsRestorable(tasks, list, nextPayloadId)
  {
  }

  lemma CallsNeedDistinctKeys(tasks: Tasks, list: seq<Call>, nextPayloadId: nat)
    requires !DistinctKeys(list, CallKey) || !DistinctKeys(list, CallTimer)
    ensures !CallsRestorable(tasks, list, nextPayloadId)
  {
  }

  lemma SharedTimer(list: seq<Call>, i: nat)
    requires i < |list| && list[i].timerId in TimersOf(list[..i])
    ensures !DistinctKeys(list, CallTimer)
  {
    var c :| c in list[..i] && c.timerId == list[i].timerId;
    var j :| 0 <= j < i && list[..i][j] == c;
    assert CallTimer(list[j]) == CallTimer(list[i]);
  }

  lemma TimersGrow(list: seq<Call>, i: nat)
    requires i < |list| && DistinctKeys(list[..i], CallTimer) && list[i].timerId !in TimersOf(list[..i])
    ensures DistinctKeys(list[..i + 1], CallTimer)
    ensures TimersOf(list[..i + 1]) == TimersOf(list[..i]) + {list[i].timerId}
  {
    assert list[..i + 1] == list[..i] + [list[i]];
    forall j | 0 <= j < i ensures CallTimer(list[j]) != CallTimer(list[i]) {
      assert list[..i][j] == list[j] && list[j] in list[..i];
    }
    assert forall j :: 0 <= j < i ==> list[..i][j] == list[j];
  }

  lemma AddCallKeepsCalls(l: Links, c: Call)
    requires CallsLinked(l) && ValidCall(c) && c.payloadId !in l.calls && c.timerId !in l.timerToPayload
    ensures CallsLinked(AddCall(l, c))
  {
  }

  method RebuildSubscriptions(list: seq<Subscription>, nextSubscriptionId: nat)
    returns (ok: bool, subscriptions: map<nat, Subscription>)
    requires nextSubscriptionId != 0
    ensures ok <==> SubscriptionsRestorable(list, nextSubscriptionId)
    ensures ok ==> subscriptions == Emplaced(list, SubscriptionKey)
  {
    subscriptions := map[];
    var maximum := 0;
    for i := 0 to |list|
      invariant subscriptions == Emplaced(list[..i], SubscriptionKey) && DistinctKeys(list[..i], SubscriptionKey)
      invariant forall s :: s in list[..i] ==> SubscriptionOk(s) && s.id <= maximum
      invariant maximum == 0 || exists s :: s in list[..i] && s.id == maximum
    {
      hide DistinctKeys, Emplaced;
      var subscription := list[i];
      assert subscription in list && list[..i + 1] == list[..i] + [subscription];
      if !SubscriptionOk(subscription) { return false, map[]; }
      if subscription.id in subscriptions {
        SharedKey(list, i, SubscriptionKey);
        return false, map[];
      }
      EmplacedGrows(list, i, SubscriptionKey);
      subscriptions := subscriptions[subscription.id := subscription];
      if subscription.id > maximum { maximum := subscription.id; }
    }
    assert list[..|list|] == list;
    ok := nextSubscriptionId > maximum;
    if !ok { assert exists s :: s in list && s.id == maximum; }
  }

  /** The two sequence maps as the loop over the saved sequences leaves them. */
  ghost predicate SequencesFilled(sequences: seq<SequenceState>, l: Links) {
    && l.sequences == Emplaced(sequences, SequenceKey)
    && (forall t :: t in l.timerToSequence <==> exists s :: s in sequences && t in s.timers)
    && (forall s, t :: s in sequences && t in s.timers ==> l.timerToSequence[t] == s.id)
  }

  /** What the loop over the sequences has when those of list are in. */
  ghost predicate SequencesIn(
    timers: set<nat>, list: seq<SequenceState>, sequences: map<nat, SequenceState>, timerToSequence: map<nat, nat>, maximum: nat)
  {
    && SequencesRestorable(timers, list, maximum + 1)
    && (maximum == 0 || exists s :: s in list && s.id == maximum)
    && SequencesFilled(list, Links(map[], map[], sequences, timerToSequence))
  }

  ghost predicate TimersIn(
    timers: set<nat>, list: seq<nat>, id: nat, before: map<nat, nat>, unique: set<nat>, timerToSequence: map<nat, nat>)
  {
    && TimersFree(timers, list, before)
    && (forall t :: t in unique <==> t in list)
    && timerToSequence == before + map t | t in unique :: id
  }

  lemma OneMoreTimer(
    timers: set<nat>, list: seq<nat>, k: nat, id: nat, before: map<nat, nat>, unique: set<nat>, timerToSequence: map<nat, nat>)
    requires k < |list| && TimersIn(timers, list[..k], id, before, unique, timerToSequence)
    requires list[k] in timers && list[k] !in unique && list[k] !in timerToSequence
    ensures TimersIn(timers, list[..k + 1], id, before, unique + {list[k]}, timerToSequence[list[k] := id])
  {
    assert list[..k + 1] == list[..k] + [list[k]];
    assert forall j :: 0 <= j < k ==> list[..k][j] in list[..k];
    assert timerToSequence[list[k] := id] == before + map t | t in unique + {list[k]} :: id;
  }

  lemma BadTimer(
    timers: set<nat>, list: seq<nat>, k: nat, id: nat, before: map<nat, nat>, unique: set<nat>, timerToSequence: map<nat, nat>)
    requires k < |list| && TimersIn(timers, list[..k], id, before, unique, timerToSequence)
    requires list[k] !in timers || list[k] in unique || list[k] in timerToSequence
    ensures !TimersFree(timers, list, before)
  {
    assert list[k] in list;
    if list[k] in unique {
      var j :| 0 <= j < k && list[..k][j] == list[k];
      assert list[j] == list[k];
    }
  }

  /** The inner loop: the timers of one sequence. */
  method LinkTimers(timers: set<nat>, s: SequenceState, before: map<nat, nat>)
    returns (ok: bool, timerToSequence: map<nat, nat>)
    ensures ok <==> TimersFree(timers, s.timers, before)
    ensures ok ==> timerToSequence == before + map t | t in s.timers :: s.id
  {
    timerToSequence := before;
    var unique: set<nat> := {};
    assert TimersIn(timers, s.timers[..0], s.id, before, unique, timerToSequence);
    for k := 0 to |s.timers|
      invariant TimersIn(timers, s.timers[..k], s.id, before, unique, timerToSequence)
    {
      hide TimersIn, TimersFree;
      var t := s.timers[k];
      if t !in timers || t in unique || t in timerToSequence {
        BadTimer(timers, s.timers, k, s.id, before, unique, timerToSequence);
        return false, before;
      }
      OneMoreTimer(timers, s.timers, k, s.id, before, unique, timerToSequence);
      unique := unique + {t};
      timerToSequence := timerToSequence[t := s.id];
    }
    assert s.timers[..|s.timers|] == s.timers;
    ok := true;
  }

  predicate TimersFree(timers: set<nat>, list: seq<nat>, before: map<nat, nat>) {
    Distinct(list) && forall t | t in list :: t in timers && t !in before
  }

  method RebuildSequences(timers: set<nat>, list: seq<SequenceState>, nextSequenceId: nat)
    returns (ok: bool, sequences: map<nat, SequenceState>, timerToSequence: map<nat, nat>)
    requires nextSequenceId != 0
    ensures ok <==> SequencesRestorable(timers, list, nextSequenceId)
    ensures ok ==> sequences == Emplaced(list, SequenceKey) && SequencesFilled(list, Links(map[], map[], sequences, timerToSequence))
  {
    sequences, timerToSequence := map[], map[];
    var maximum := 0;
    assert SequencesIn(timers, list[..0], sequences, timerToSequence, maximum);
    for i := 0 to |list|
      invariant SequencesIn(timers, list[..i], sequences, timerToSequence, maximum)
    {
      hide SequencesIn, SequencesRestorable, TimersFree, Emplaced;
      var sequence := list[i];
      if sequence.id == 0 || sequence.timers == [] || sequence.id in sequences {
        BadSequence(timers, list, i, sequences, timerToSequence, maximum, nextSequenceId);
        return false, map[], map[];
      }
      var free, linked := LinkTimers(timers, sequence, timerToSequence);
      if !free {
        BadSequence(timers, list, i, sequences, timerToSequence, maximum, nextSequenceId);
        return false, map[], map[];
      }
      OneMoreSequence(timers, list, i, sequences, timerToSequence, maximum);
      sequences := sequences[sequence.id := sequence];
      timerToSequence := linked;
      if sequence.id > maximum { maximum := sequence.id; }
    }
    assert list[..|list|] == list;
    ok := nextSequenceId > maximum;
  }

  lemma BadSequence(
    timers: set<nat>, list: seq<SequenceState>, i: nat, sequences: map<nat, SequenceState>, timerToSequence: map<nat, nat>,
    maximum: nat, nextSequenceId: nat)
    requires i < |list| && SequencesIn(timers, list[..i], sequences, timerToSequence, maximum)
    requires var s := list[i];
      s.id == 0 || s.timers == [] || s.id in sequences || !TimersFree(timers, s.timers, timerToSequence)
    ensures !SequencesRestorable(timers, list, nextSequenceId)
  {
    var s := list[i];
    assert s in list;
    if s.id in sequences {
      SharedKey(list, i, SequenceKey);
    } else if s.id != 0 && s.timers != [] && Distinct(s.timers) && (forall t :: t in s.timers ==> t in timers) {
      var t :| t in s.timers && t in timerToSequence;
      var other :| other in list[..i] && t in other.timers;
      var j :| 0 <= j < i && list[..i][j] == other;
      assert !Apart(list[j].timers, list[i].timers);
    }
  }

  lemma OneMoreSequence(
    timers: set<nat>, list: seq<SequenceState>, i: nat, sequences: map<nat, SequenceState>, timerToSequence: map<nat, nat>,
    maximum: nat)
    requires i < |list| && SequencesIn(timers, list[..i], sequences, timerToSequence, maximum)
    requires list[i].id != 0 && list[i].timers != [] && list[i].id !in sequences
    requires TimersFree(timers, list[i].timers, timerToSequence)
    ensures var s := list[i];
            SequencesIn(timers, list[..i + 1], sequences[s.id := s], timerToSequence + map t | t in s.timers :: s.id,
                        if s.id > maximum then s.id else maximum)
  {
    hide DistinctKeys, Emplaced;
    var s := list[i];
    assert list[..i + 1] == list[..i] + [s];
    EmplacedGrows(list, i, SequenceKey);
    var longer := list[..i + 1];
    forall j, k | 0 <= j < k < |longer| ensures Apart(longer[j].timers, longer[k].timers) {
      if k == i {
        assert list[j] in list[..i];
      } else {
        assert Apart(list[..i][j].timers, list[..i][k].timers);
      }
    }
  }

  // ----- what a restored host has -----

  lemma RestoredMembers(sequences: seq<SequenceState>, l: Links, s: SequenceState)
    requires DistinctKeys(sequences, SequenceKey) && SequencesFilled(sequences, l)
    requires s in sequences && Distinct(s.timers)
    ensures Members(l.timerToSequence, s)
  {
    hide DistinctKeys, Emplaced;
    forall t | t in l.timerToSequence && l.timerToSequence[t] == s.id ensures t in s.timers {
      var other :| other in sequences && t in other.timers;
      SameKeySame(sequences, SequenceKey, s, other);
    }
  }

  lemma RestoredSource(sequences: seq<SequenceState>, l: Links, t: nat)
    requires SequencesFilled(sequences, l) && t in l.timerToSequence
    ensures exists s :: s in sequences && t in s.timers && l.timerToSequence[t] == s.id && s.id in l.sequences
  {
    var s :| s in sequences && t in s.timers;
    var i :| 0 <= i < |sequences| && sequences[i] == s;
    EmplacedFromList(sequences, SequenceKey);
    assert SequenceKey(sequences[i]) in l.sequences;
  }

  /** The maps that restore fills are linked again. */
  lemma RestoredIsLinked(timers: set<nat>, sequences: seq<SequenceState>, nextSequenceId: nat, l: Links)
    requires SequencesRestorable(timers, sequences, nextSequenceId) && l.timerToPayload.Keys == timers
    requires CallsLinked(l) && SequencesFilled(sequences, l)
    ensures Linked(l, NoSequence)
  {
    EmplacedFromList(sequences, SequenceKey);
    forall s | s in l.sequences ensures SequenceLinked(l, s) {
      hide Members, DistinctKeys, Emplaced;
      RestoredMembers(sequences, l, l.sequences[s]);
    }
    forall t | t in l.timerToSequence
      ensures t in l.timerToPayload && l.timerToSequence[t] in l.sequences && l.timerToSequence[t] != 0
    {
      RestoredSource(sequences, l, t);
    }
  }

  lemma SameKeySame<T>(list: seq<T>, key: T -> nat, a: T, b: T)
    requires DistinctKeys(list, key) && a in list && b in list && key(a) == key(b)
    ensures a == b
  {
    var i :| 0 <= i < |list| && list[i] == a;
    var j :| 0 <= j < |list| && list[j] == b;
  }
}
