/** What one drain of the host hands to scripts (src/game/GameplayScripting.cpp:215-281). */
module HostDispatch {
  import opened Scalars
  import opened Ordered
  import opened Timers
  import opened HostLinks
  import opened Events
  import opened HostState

  datatype DispatchCall = DispatchCall(
    target: nat, callback: string, arguments: seq<GameplayValue>, sourceTimer: nat, sourceEvent: nat)

  // ----- timers -----

  function DispatchOf(calls: map<nat, Call>, f: FiredTask): seq<DispatchCall> {
    if f.payload !in calls then []
    else
      var call := calls[f.payload];
      [DispatchCall(call.target, call.callback, call.arguments, f.id, 0)]
  }

  function TimerDispatches(calls: map<nat, Call>, fired: seq<FiredTask>): seq<DispatchCall> {
    if fired == [] then []
    else TimerDispatches(calls, fired[..|fired| - 1]) + DispatchOf(calls, fired[|fired| - 1])
  }

  /** The timers whose last firing was reported, in that order. */
  function EndedIds(fired: seq<FiredTask>): seq<nat> {
    if fired == [] then []
    else
      var n := |fired| - 1;
      if fired[n].repeats then EndedIds(fired[..n]) else EndedIds(fired[..n]) + [fired[n].id]
  }

  lemma {:induction false} EndedIdsAre(fired: seq<FiredTask>, id: nat)
    ensures id in EndedIds(fired) <==> Ended(fired, id)
  {
    if fired != [] {
      var n := |fired| - 1;
      EndedIdsAre(fired[..n], id);
      if Ended(fired[..n], id) {
        var i :| 0 <= i < n && fired[..n][i].id == id && !fired[..n][i].repeats;
        assert fired[i].id == id;
      }
      if Ended(fired, id) {
        var i :| 0 <= i < |fired| && fired[i].id == id && !fired[i].repeats;
        if i < n { assert fired[..n][i] == fired[i]; }
      }
    }
  }

  /** A timer that fires once more still has its call. */
  lemma StillCalled(tasks: Tasks, l: Links, r: Firing, i: nat)
    requires Linked(l, NoSequence) && Owned(tasks, l) && RunReports(tasks, r) && i < |r.fired|
    ensures var e := EraseEach(l, EndedIds(r.fired[..i]));
            && r.fired[i].id in e.timerToPayload && e.timerToPayload[r.fired[i].id] == r.fired[i].payload
            && r.fired[i].payload in e.calls && r.fired[i].payload in l.calls
            && e.calls[r.fired[i].payload] == l.calls[r.fired[i].payload]
    ensures !r.fired[i].repeats ==> r.fired[i].id !in r.tasks
  {
    hide EraseEach, SequencesLinked;
    var f := r.fired[i];
    EraseEachKeepsLinked(l, EndedIds(r.fired[..i]));
    EndedIdsAre(r.fired[..i], f.id);
    assert forall k :: 0 <= k < i ==> r.fired[..i][k] == r.fired[k];
    assert !Ended(r.fired[..i], f.id);
    if !f.repeats { assert Ended(r.fired, f.id); }
  }

  /** After the drain every scheduled task is still some call's timer; every call still has its
      task exactly when the run did not take the overflow branch. */
  lemma DrainKeepsOwned(tasks: Tasks, l: Links, tick: nat, budget: nat)
    requires TasksOk(tasks) && Linked(l, NoSequence) && Owned(tasks, l)
    ensures var r := RunDue(tasks, tick, budget);
            var e := EraseEach(l, EndedIds(r.fired));
            && RunReports(tasks, r) && Owned(r.tasks, l) && Owned(r.tasks, e) && Linked(e, NoSequence)
            && (Attached(tasks, l) ==> (Attached(r.tasks, e) <==> !FiresOverflowing(tasks, tick, budget)))
  {
    hide RunDue, EraseEach, SequencesLinked, CallsLinked, FiresOverflowing, RemoveAll;
    var r := RunDue(tasks, tick, budget);
    RunIsReported(tasks, tick, budget);
    EraseEachKeepsLinked(l, EndedIds(r.fired));
    AfterTheDrain(tasks, l, r, EraseEach(l, EndedIds(r.fired)));
  }

  lemma AfterTheDrain(tasks: Tasks, l: Links, r: Firing, e: Links)
    requires Owned(tasks, l) && RunReports(tasks, r)
    requires e.timerToPayload == RemoveAll(l.timerToPayload, EndedIds(r.fired))
    ensures Owned(r.tasks, l) && Owned(r.tasks, e)
    ensures Attached(tasks, l) ==> (Attached(r.tasks, e) <==> !exists id :: Lost(tasks, r, id))
  {
    forall id ensures id in EndedIds(r.fired) <==> Ended(r.fired, id) {
      EndedIdsAre(r.fired, id);
    }
    if Attached(tasks, l) {
      forall id ensures Lost(tasks, r, id) <==> id in e.timerToPayload && id !in r.tasks {
      }
    }
  }

  // ----- events -----

  function Matching(list: seq<Subscription>, topic: string): seq<Subscription> {
    if list == [] then []
    else if list[0].topic == topic then [list[0]] + Matching(list[1..], topic) else Matching(list[1..], topic)
  }

  lemma DistinctTail(list: seq<Subscription>)
    requires list != [] && DistinctKeys(list, SubscriptionKey)
    ensures DistinctKeys(list[1..], SubscriptionKey)
  {
    var tail := list[1..];
    forall i, j | 0 <= i < j < |tail| ensures SubscriptionKey(tail[i]) != SubscriptionKey(tail[j]) {
      assert SubscriptionKey(list[i + 1]) != SubscriptionKey(list[j + 1]);
    }
  }

  lemma {:induction false} MatchingHolds(list: seq<Subscription>, topic: string)
    ensures forall s :: s in Matching(list, topic) <==> s in list && s.topic == topic
    ensures DistinctKeys(list, SubscriptionKey) ==> DistinctKeys(Matching(list, topic), SubscriptionKey)
  {
    if list != [] {
      MatchingHolds(list[1..], topic);
      assert forall s :: s in list <==> s == list[0] || s in list[1..];
      if DistinctKeys(list, SubscriptionKey) {
        assert forall j :: 0 < j < |list| ==> SubscriptionKey(list[0]) != SubscriptionKey(list[j]);
        assert forall s :: s in list[1..] ==> SubscriptionKey(s) != SubscriptionKey(list[0]);
        var rest := Matching(list[1..], topic);
        assert forall j :: 0 <= j < |rest| ==> rest[j] in list[1..];
        DistinctTail(list);
      }
    }
  }

  /** The order std::sort is given. */
  predicate ServedBefore(a: Subscription, b: Subscription) {
    a.priority < b.priority || (a.priority == b.priority && a.id < b.id)
  }

  function Placed(list: seq<Subscription>, s: Subscription): seq<Subscription> {
    if list == [] || ServedBefore(s, list[0]) then [s] + list else [list[0]] + Placed(list[1..], s)
  }

  function Sorted(list: seq<Subscription>): seq<Subscription> {
    if list == [] then [] else Placed(Sorted(list[1..]), list[0])
  }

  predicate InServingOrder(list: seq<Subscription>) {
    forall i, j | 0 <= i < j < |list| :: ServedBefore(list[i], list[j])
  }

  lemma {:induction false} PlacedHolds(list: seq<Subscription>, s: Subscription)
    requires InServingOrder(list) && forall x :: x in list ==> x.id != s.id
    ensures InServingOrder(Placed(list, s)) && forall x :: x in Placed(list, s) <==> x in list || x == s
  {
    if list != [] && !ServedBefore(s, list[0]) {
      assert list[0] in list;
      assert forall x :: x in list <==> x == list[0] || x in list[1..];
      PlacedHolds(list[1..], s);
      var rest := Placed(list[1..], s);
      assert forall j :: 0 <= j < |rest| ==> rest[j] in rest;
    }
  }

  lemma {:induction false} SortedHolds(list: seq<Subscription>)
    requires DistinctKeys(list, SubscriptionKey)
    ensures InServingOrder(Sorted(list)) && forall x :: x in Sorted(list) <==> x in list
  {
    if list != [] {
      DistinctTail(list);
      SortedHolds(list[1..]);
      assert forall s :: s in list[1..] ==> SubscriptionKey(s) != SubscriptionKey(list[0]);
      assert forall x :: x in list <==> x == list[0] || x in list[1..];
      PlacedHolds(Sorted(list[1..]), list[0]);
    }
  }

  /** Who hears of a topic, in the order they are served. */
  function Subscribers(subscriptions: map<nat, Subscription>, topic: string): seq<Subscription> {
    Sorted(Matching(Values(subscriptions), topic))
  }

  /** Exactly the subscriptions of the topic are served, by priority and then by age. */
  lemma SubscribersInOrder(subscriptions: map<nat, Subscription>, topic: string)
    requires forall s :: s in subscriptions ==> subscriptions[s].id == s
    ensures var served := Subscribers(subscriptions, topic);
            && InServingOrder(served)
            && (forall x :: x in served <==> x.id in subscriptions && subscriptions[x.id] == x && x.topic == topic)
  {
    ListingRoundTrips(subscriptions, SubscriptionKey);
    var list := Values(subscriptions);
    MatchingHolds(list, topic);
    SortedHolds(Matching(list, topic));
    forall x ensures x in list <==> x.id in subscriptions && subscriptions[x.id] == x {
      if x in list { ListedIsInMap(subscriptions, x); }
      if x.id in subscriptions && subscriptions[x.id] == x {
        EmplacedFromList(list, SubscriptionKey);
        assert Emplaced(list, SubscriptionKey)[x.id] in list;
      }
    }
  }

  function ToSubscribers(subscribers: seq<Subscription>, e: Event): seq<DispatchCall> {
    seq(|subscribers|, i requires 0 <= i < |subscribers| =>
          DispatchCall(subscribers[i].target, subscribers[i].callback, e.arguments, 0, e.sequence))
  }

  function EventDispatch(subscriptions: map<nat, Subscription>, e: Event): seq<DispatchCall> {
    if e.target != 0 then [DispatchCall(e.target, e.topic, e.arguments, 0, e.sequence)]
    else ToSubscribers(Subscribers(subscriptions, e.topic), e)
  }

  function EventDispatches(subscriptions: map<nat, Subscription>, popped: seq<Event>): seq<DispatchCall> {
    if popped == [] then []
    else EventDispatches(subscriptions, popped[..|popped| - 1]) + EventDispatch(subscriptions, popped[|popped| - 1])
  }
}
