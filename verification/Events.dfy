/** DeterministicEventQueue (src/game/GameplayPrimitives.cpp:426-520): events in the order of their
    (due tick, sequence number). */
module Events {
  import opened Scalars
  import opened HostLinks

  datatype Event = Event(dueTick: nat, sequence: nat, target: nat, topic: string, arguments: seq<GameplayValue>)

  datatype EventState = EventState(nextSequence: nat, events: seq<Event>)

  predicate Before(a: Event, b: Event) {
    a.dueTick < b.dueTick || (a.dueTick == b.dueTick && a.sequence < b.sequence)
  }

  predicate InOrder(events: seq<Event>) {
    forall i, j | 0 <= i < j < |events| :: Before(events[i], events[j])
  }

  predicate Numbered(events: seq<Event>) {
    forall i, j | 0 <= i < j < |events| :: events[i].sequence != events[j].sequence
  }

  predicate EventOk(e: Event) { e.sequence != 0 && e.topic != "" }

  /** What restore accepts. */
  predicate EventsRestorable(s: EventState) {
    && s.nextSequence != 0 && Numbered(s.events)
    && forall e | e in s.events :: EventOk(e) && e.sequence < s.nextSequence
  }

  /** The event at its place. */
  function Inserted(events: seq<Event>, e: Event): seq<Event> {
    if events == [] || Before(e, events[0]) then [e] + events else [events[0]] + Inserted(events[1..], e)
  }

  lemma {:induction false} InsertedHolds(events: seq<Event>, e: Event)
    requires InOrder(events) && Numbered(events)
    requires forall i :: 0 <= i < |events| ==> events[i].sequence != e.sequence
    ensures InOrder(Inserted(events, e)) && Numbered(Inserted(events, e))
    ensures forall x :: x in Inserted(events, e) <==> x in events || x == e
  {
    if events != [] && !Before(e, events[0]) {
      InsertedHolds(events[1..], e);
      var rest := Inserted(events[1..], e);
      assert forall x :: x in events <==> x == events[0] || x in events[1..];
      assert forall x :: x in events[1..] ==> Before(events[0], x) && x.sequence != events[0].sequence;
      assert forall j :: 0 <= j < |rest| ==> rest[j] in rest;
    }
  }

  /** The events without the one of that number. */
  function Removed(events: seq<Event>, sequence: nat): seq<Event> {
    if events == [] then []
    else if events[0].sequence == sequence then events[1..] else [events[0]] + Removed(events[1..], sequence)
  }

  lemma TailHolds(events: seq<Event>)
    requires events != [] && Numbered(events) && InOrder(events)
    ensures Numbered(events[1..]) && InOrder(events[1..])
    ensures forall e :: e in events[1..] ==> Before(events[0], e) && e.sequence != events[0].sequence
    ensures forall e :: e in events <==> e == events[0] || e in events[1..]
  {
  }

  lemma HeadGoesBefore(e: Event, rest: seq<Event>)
    requires Numbered(rest) && InOrder(rest)
    requires forall x :: x in rest ==> Before(e, x) && x.sequence != e.sequence
    ensures Numbered([e] + rest) && InOrder([e] + rest)
  {
    assert forall j :: 0 <= j < |rest| ==> rest[j] in rest;
  }

  lemma {:induction false} RemovedHolds(events: seq<Event>, sequence: nat)
    requires Numbered(events) && InOrder(events)
    ensures forall e :: e in Removed(events, sequence) <==> e in events && e.sequence != sequence
    ensures Numbered(Removed(events, sequence)) && InOrder(Removed(events, sequence))
  {
    hide Numbered, InOrder, Before;
    if events != [] {
      TailHolds(events);
      if events[0].sequence != sequence {
        RemovedHolds(events[1..], sequence);
        HeadGoesBefore(events[0], Removed(events[1..], sequence));
      }
    }
  }

  lemma {:induction false} RemovedAt(events: seq<Event>, i: nat)
    requires Numbered(events) && i < |events|
    ensures Removed(events, events[i].sequence) == events[..i] + events[i + 1..]
  {
    if i > 0 {
      RemovedAt(events[1..], i - 1);
      assert events[..i] == [events[0]] + events[1..][..i - 1];
    }
  }

  lemma {:induction false} NothingRemoved(events: seq<Event>, sequence: nat)
    requires forall i :: 0 <= i < |events| ==> events[i].sequence != sequence
    ensures Removed(events, sequence) == events
  {
    if events != [] { NothingRemoved(events[1..], sequence); }
  }

  /** How many events, from the front, are due and within budget. */
  function DueCount(events: seq<Event>, tick: nat, budget: nat): (n: nat)
    ensures n <= |events| && n <= budget
    ensures forall e :: e in events[..n] ==> e.dueTick <= tick
  {
    if budget == 0 || events == [] || events[0].dueTick > tick then 0
    else
      var n := 1 + DueCount(events[1..], tick, budget - 1);
      assert events[..n] == [events[0]] + events[1..][..n - 1];
      n
  }

  lemma OneMoreDue(events: seq<Event>, tick: nat, budget: nat)
    requires events != [] && budget > 0
    ensures DueCount(events, tick, budget) ==
            if events[0].dueTick > tick then 0 else 1 + DueCount(events[1..], tick, budget - 1)
  {
  }

  lemma NoneDue(events: seq<Event>, tick: nat, budget: nat)
    requires events == [] || budget == 0
    ensures DueCount(events, tick, budget) == 0
  {
  }

  lemma HasMember(a: seq<Event>)
    ensures a != [] ==> exists e :: e in a
  {
    if a != [] { assert a[0] in a; }
  }

  /** There is one way to put a set of events in order. */
  lemma {:induction false} OrderIsUnique(a: seq<Event>, b: seq<Event>)
    requires InOrder(a) && InOrder(b) && forall x :: x in a <==> x in b
    ensures a == b
  {
    HasMember(a);
    HasMember(b);
    if a != [] && b != [] {
      assert a[0] in b;
      assert b[0] in a;
      assert forall x :: x in a[1..] ==> Before(a[0], x);
      assert forall x :: x in b[1..] ==> Before(b[0], x);
      assert forall x :: x in a <==> x == a[0] || x in a[1..];
      assert forall x :: x in b <==> x == b[0] || x in b[1..];
      assert a[0] == b[0];
      OrderIsUnique(a[1..], b[1..]);
    }
  }

  lemma TailStays(nextSequence: nat, events: seq<Event>)
    requires events != [] && InOrder(events) && EventsRestorable(EventState(nextSequence, events))
    ensures InOrder(events[1..]) && EventsRestorable(EventState(nextSequence, events[1..]))
    ensures forall e :: e in events ==> e.dueTick >= events[0].dueTick
  {
  }

  /** The order, spelled out: by due tick, and by number on one tick. */
  lemma SplitInOrder(events: seq<Event>, front: seq<Event>, back: seq<Event>)
    requires InOrder(events) && events == front + back
    ensures forall i, j :: 0 <= i < j < |front| ==>
              front[i].dueTick < front[j].dueTick ||
              (front[i].dueTick == front[j].dueTick && front[i].sequence < front[j].sequence)
    ensures forall f, b :: f in front && b in back ==>
              f.dueTick < b.dueTick || (f.dueTick == b.dueTick && f.sequence < b.sequence)
  {
    assert forall i :: 0 <= i < |front| ==> events[i] == front[i];
    forall f, b | f in front && b in back ensures Before(f, b) {
      var i :| 0 <= i < |front| && front[i] == f;
      var j :| 0 <= j < |back| && back[j] == b;
      assert events[|front| + j] == b;
    }
  }

  class DeterministicEventQueue {
    var nextSequence: nat
    var events: seq<Event>

    ghost predicate Valid()
      reads this
    {
      1 <= nextSequence <= ULONG_MAX && InOrder(events) && EventsRestorable(EventState(nextSequence, events))
    }

    constructor ()
      ensures Valid() && nextSequence == 1 && events == []
    {
      nextSequence, events := 1, [];
    }

    /** A number is drawn for an event without one; a number in use, or at the end of the range, is refused. */
    method Enqueue(event: Event) returns (sequence: nat)
      requires Valid() && event.sequence <= ULONG_MAX
      modifies this
      ensures Valid()
      ensures sequence != 0 <==>
              event.topic != "" &&
              (if event.sequence == 0 then old(nextSequence) != ULONG_MAX
               else event.sequence != ULONG_MAX && forall e :: e in old(events) ==> e.sequence != event.sequence)
      ensures sequence == 0 ==> events == old(events) && nextSequence == old(nextSequence)
      ensures sequence != 0 ==> events == Inserted(old(events), event.(sequence := sequence))
      ensures sequence != 0 ==>
        && sequence == (if event.sequence == 0 then old(nextSequence) else event.sequence)
        && (forall e :: e in events <==> e in old(events) || e == event.(sequence := sequence))
        && nextSequence == if sequence >= old(nextSequence) then sequence + 1 else old(nextSequence)
    {
      if event.topic == "" { return 0; }
      var e := event;
      if event.sequence == 0 {
        if nextSequence == ULONG_MAX { return 0; }
        e := event.(sequence := nextSequence);
        nextSequence := nextSequence + 1;
      } else {
        if i :| 0 <= i < |events| && events[i].sequence == event.sequence { return 0; }
        if event.sequence == ULONG_MAX {
          assert event.sequence >= nextSequence;
          return 0;
        }
        if event.sequence >= nextSequence { nextSequence := event.sequence + 1; }
      }
      InsertedHolds(events, e);
      events := Inserted(events, e);
      return e.sequence;
    }

    method Cancel(sequence: nat) returns (found: bool)
      requires Valid()
      modifies this
      ensures Valid() && nextSequence == old(nextSequence)
      ensures found <==> exists e :: e in old(events) && e.sequence == sequence
      ensures events == Removed(old(events), sequence)
      ensures forall e :: e in events <==> e in old(events) && e.sequence != sequence
    {
      RemovedHolds(events, sequence);
      if i :| 0 <= i < |events| && events[i].sequence == sequence {
        assert events[i] in events;
        RemovedAt(events, i);
        events := events[..i] + events[i + 1..];
        return true;
      }
      NothingRemoved(events, sequence);
      return false;
    }

    /** Popping takes a prefix of the order: as much as is due and within budget. */
    method PopDue(currentTick: nat, budget: nat) returns (popped: seq<Event>)
      requires Valid()
      modifies this
      ensures Valid() && nextSequence == old(nextSequence)
      ensures old(events) == popped + events && |popped| <= budget
      ensures forall e :: e in popped ==> e.dueTick <= currentTick
      ensures |popped| < budget ==> forall e :: e in events ==> e.dueTick > currentTick
      ensures |popped| == DueCount(old(events), currentTick, budget)
      ensures forall i, j :: 0 <= i < j < |popped| ==>
                popped[i].dueTick < popped[j].dueTick ||
                (popped[i].dueTick == popped[j].dueTick && popped[i].sequence < popped[j].sequence)
      ensures forall p, e :: p in popped && e in events ==>
                p.dueTick < e.dueTick || (p.dueTick == e.dueTick && p.sequence < e.sequence)
    {
      hide InOrder, EventsRestorable, DueCount;
      ghost var all := events;
      popped := [];
      while events != [] && |popped| < budget
        invariant Valid() && nextSequence == old(nextSequence)
        invariant old(events) == popped + events && |popped| <= budget
        invariant forall e :: e in popped ==> e.dueTick <= currentTick
        invariant |popped| + DueCount(events, currentTick, budget - |popped|) == DueCount(old(events), currentTick, budget)
        decreases |events|
      {
        TailStays(nextSequence, events);
        OneMoreDue(events, currentTick, budget - |popped|);
        if events[0].dueTick > currentTick { break; }
        assert popped + events == (popped + [events[0]]) + events[1..];
        popped := popped + [events[0]];
        events := events[1..];
      }
      if events == [] || |popped| == budget { NoneDue(events, currentTick, budget - |popped|); }
      SplitInOrder(all, popped, events);
    }

    method MoveFrom(other: DeterministicEventQueue)
      requires other.Valid()
      modifies this
      ensures Valid() && nextSequence == other.nextSequence && events == other.events
    {
      nextSequence, events := other.nextSequence, other.events;
    }

    method Snapshot() returns (state: EventState)
      requires Valid()
      ensures state == EventState(nextSequence, events)
      ensures EventsRestorable(state) && InOrder(state.events)
    {
      state := EventState(nextSequence, events);
    }

    /** The events in their order, whatever order they are given in. */
    method Restore(state: EventState) returns (ok: bool)
      requires state.nextSequence <= ULONG_MAX
      modifies this
      ensures ok <==> EventsRestorable(state)
      ensures ok && InOrder(state.events) ==> events == state.events
      ensures ok ==> Valid() && nextSequence == state.nextSequence && forall e :: e in events <==> e in state.events
      ensures !ok ==> nextSequence == old(nextSequence) && events == old(events)
    {
      if state.nextSequence == 0 { return false; }
      var acceptable, rebuilt, maximum := Rebuild(state.events);
      if !acceptable || state.nextSequence <= maximum { return false; }
      nextSequence, events := state.nextSequence, rebuilt;
      if InOrder(state.events) { OrderIsUnique(events, state.events); }
      return true;
    }
  }

  method Rebuild(list: seq<Event>) returns (ok: bool, rebuilt: seq<Event>, maximum: nat)
    ensures ok <==> Numbered(list) && forall e :: e in list ==> EventOk(e)
    ensures ok ==> InOrder(rebuilt) && Numbered(rebuilt) && forall e :: e in rebuilt <==> e in list
    ensures ok ==> forall e :: e in list ==> e.sequence <= maximum
    ensures ok ==> maximum == 0 || exists e :: e in list && e.sequence == maximum
  {
    rebuilt, maximum := [], 0;
    for i := 0 to |list|
      invariant InOrder(rebuilt) && Numbered(rebuilt) && forall e :: e in rebuilt <==> e in list[..i]
      invariant Numbered(list[..i])
      invariant forall j :: 0 <= j < i ==> EventOk(list[j]) && list[j].sequence <= maximum
      invariant maximum == 0 || exists j :: 0 <= j < i && list[j].sequence == maximum
    {
      var e := list[i];
      assert e in list;
      assert list[..i + 1] == list[..i] + [e];
      if k :| 0 <= k < |rebuilt| && rebuilt[k].sequence == e.sequence {
        assert rebuilt[k] in list[..i];
        ghost var j :| 0 <= j < i && list[j] == rebuilt[k];
        return false, [], 0;
      }
      if e.sequence == 0 || e.topic == "" { return false, [], 0; }
      forall j | 0 <= j < i ensures list[j].sequence != e.sequence {
        assert list[j] in list[..i];
        assert list[j] in rebuilt;
      }
      InsertedHolds(rebuilt, e);
      rebuilt := Inserted(rebuilt, e);
      if e.sequence > maximum { maximum := e.sequence; }
    }
    assert list[..|list|] == list;
    return true, rebuilt, maximum;
  }

  /** Of two events enqueued without a number, the first comes out first unless it is due later. */
  method EnqueueBoth(queue: DeterministicEventQueue, a: Event, b: Event, tick: nat, budget: nat)
    returns (first: nat, second: nat, popped: seq<Event>)
    requires queue.Valid() && a.sequence == 0 && b.sequence == 0 && a.dueTick <= b.dueTick
    modifies queue
    ensures queue.Valid()
    ensures first != 0 && second != 0 ==>
              forall j :: 0 <= j < |popped| && popped[j].sequence == second ==>
                (exists i :: 0 <= i < j && popped[i] == a.(sequence := first))
  {
    first := queue.Enqueue(a);
    second := queue.Enqueue(b);
    ghost var waiting := queue.events;
    ghost var early := a.(sequence := first);
    popped := queue.PopDue(tick, budget);
    if first != 0 && second != 0 {
      assert early in waiting && forall i :: 0 <= i < |popped| ==> popped[i] == waiting[i];
      forall j | 0 <= j < |popped| && popped[j].sequence == second
        ensures exists i :: 0 <= i < j && popped[i] == early
      {
        assert popped[j] == b.(sequence := second);
        assert early !in queue.events;
      }
    }
  }

  /** A queue's own snapshot is always accepted, by itself or by another queue, and gives the same
      events in the same order and the same counter. */
  method CopyThroughState(from: DeterministicEventQueue, to: DeterministicEventQueue) returns (ok: bool)
    requires from.Valid()
    modifies to
    ensures ok && to.Valid() && to.events == old(from.events) && to.nextSequence == old(from.nextSequence)
  {
    var state := from.Snapshot();
    ok := to.Restore(state);
  }
}
