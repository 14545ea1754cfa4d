/** Saved gameplay states as containers (src/game/GameplayStateCodec.cpp:546-667): header, payload,
    limits, validation and hash; and the two round trips. */
module SaveContainer {
  import opened Wire
  import opened Ordered
  import opened Timers
  import opened Scheduler
  import opened HostLinks
  import opened Events
  import opened HostState
  import opened SaveFormat

  datatype CodecError =
    | InvalidState | InvalidMagic | UnsupportedVersion | TruncatedInput | MalformedInput | TooLarge | HashMismatch

  datatype Outcome<T> = Good(value: T) | Bad(error: CodecError)

  const VERSION: nat := 1
  const HEADER_SIZE: nat := 24

  function Magic(): Bytes { [0x52, 0x53, 0x47, 0x53] }

  /** What the model takes as given: the hash of a state's content, and the comparison of the clock's
      accumulator with the length of a tick. */
  datatype Given = Given(hash: SaveState -> nat, belowTick: (nat, nat) -> bool)

  // ----- canonical doubles -----

  predicate IsZero(bits: nat) { bits == 0 || bits == 0x8000_0000_0000_0000 }

  predicate IsNan(bits: nat) {
    bits / 0x10_0000_0000_0000 % 0x800 == 0x7ff && bits % 0x10_0000_0000_0000 != 0
  }

  function CanonicalBits(bits: nat): nat {
    if IsZero(bits) then 0 else if IsNan(bits) then 0x7ff8_0000_0000_0000 else bits
  }

  lemma CanonicalTwice(bits: nat)
    ensures CanonicalBits(CanonicalBits(bits)) == CanonicalBits(bits)
    ensures LongFits(bits) ==> LongFits(CanonicalBits(bits))
  {
    Widths();
  }

  /** Only zeros and NaNs change, whatever their sign: by magnitude, the pattern without its sign bit,
      a zero is the least and the NaNs are those above the infinity. */
  lemma CanonicalBitsExactly(bits: nat)
    requires bits < 0x1_0000_0000_0000_0000
    ensures var magnitude := bits % 0x8000_0000_0000_0000;
            && (magnitude == 0 ==> CanonicalBits(bits) == 0)
            && (0 < magnitude <= 0x7ff0_0000_0000_0000 ==> CanonicalBits(bits) == bits)
            && (magnitude > 0x7ff0_0000_0000_0000 ==> CanonicalBits(bits) == 0x7ff8_0000_0000_0000)
  {
  }

  function CanonicalValue(v: GameplayValue): GameplayValue {
    match v
    case DoubleValue(bits) => DoubleValue(CanonicalBits(bits))
    case _ => v
  }

  function CanonicalArguments(list: seq<GameplayValue>): seq<GameplayValue> {
    seq(|list|, i requires 0 <= i < |list| => CanonicalValue(list[i]))
  }

  function CanonicalEvents(list: seq<Event>): seq<Event> {
    seq(|list|, i requires 0 <= i < |list| => list[i].(arguments := CanonicalArguments(list[i].arguments)))
  }

  function CanonicalCalls(list: seq<Call>): seq<Call> {
    seq(|list|, i requires 0 <= i < |list| => list[i].(arguments := CanonicalArguments(list[i].arguments)))
  }

  /** The state as it is written: every zero is +0 and every NaN the quiet one. */
  function Canonical(s: SaveState): SaveState {
    s.(accumulator := CanonicalBits(s.accumulator), dropped := CanonicalBits(s.dropped),
       host := s.host.(calls := CanonicalCalls(s.host.calls),
                       events := s.host.events.(events := CanonicalEvents(s.host.events.events))))
  }

  lemma ArgumentsTwice(list: seq<GameplayValue>)
    ensures CanonicalArguments(CanonicalArguments(list)) == CanonicalArguments(list)
  {
    forall i | 0 <= i < |list| ensures CanonicalValue(CanonicalValue(list[i])) == CanonicalValue(list[i]) {
      if list[i].DoubleValue? { CanonicalTwice(list[i].bits); }
    }
  }

  lemma CanonicalIsIdempotent(s: SaveState)
    ensures Canonical(Canonical(s)) == Canonical(s)
  {
    CanonicalTwice(s.accumulator);
    CanonicalTwice(s.dropped);
    var calls, events := s.host.calls, s.host.events.events;
    assert CanonicalCalls(CanonicalCalls(calls)) == CanonicalCalls(calls) by {
      forall i | 0 <= i < |calls| ensures CanonicalCalls(CanonicalCalls(calls))[i] == CanonicalCalls(calls)[i] {
        ArgumentsTwice(calls[i].arguments);
      }
    }
    assert CanonicalEvents(CanonicalEvents(events)) == CanonicalEvents(events) by {
      forall i | 0 <= i < |events| ensures CanonicalEvents(CanonicalEvents(events))[i] == CanonicalEvents(events)[i] {
        ArgumentsTwice(events[i].arguments);
      }
    }
  }

  // ----- validation -----

  /** EntityRegistry::restore: the free list is strictly ascending and names exactly the dead slots. */
  predicate EntitiesRestorable(s: SaveState) {
    && (forall i, j | 0 <= i < j < |s.freeIndices| :: s.freeIndices[i] < s.freeIndices[j])
    && (forall i | 0 <= i < |s.freeIndices| :: s.freeIndices[i] < |s.slots|)
    && (forall i | 0 <= i < |s.slots| :: s.slots[i].generation != 0 && (s.slots[i].alive <==> i !in s.freeIndices))
    && s.aliveCount == |s.slots| - |s.freeIndices|
  }

  /** The dead slots among the first n, in order. */
  function DeadSlots(slots: seq<Slot>, n: nat): seq<nat>
    requires n <= |slots|
  {
    if n == 0 then [] else DeadSlots(slots, n - 1) + if slots[n - 1].alive then [] else [n - 1]
  }

  lemma {:induction false} DeadSlotsAre(slots: seq<Slot>, n: nat)
    requires n <= |slots|
    ensures forall i :: i in DeadSlots(slots, n) <==> 0 <= i < n && !slots[i].alive
    ensures forall i, j :: 0 <= i < j < |DeadSlots(slots, n)| ==> DeadSlots(slots, n)[i] < DeadSlots(slots, n)[j]
  {
    if n > 0 {
      DeadSlotsAre(slots, n - 1);
      var before := DeadSlots(slots, n - 1);
      assert forall i :: 0 <= i < |before| ==> before[i] in before;
    }
  }

  lemma HasFirst(a: seq<nat>)
    ensures a != [] ==> a[0] in a
  {
  }

  lemma {:induction false} AscendingIsUnique(a: seq<nat>, b: seq<nat>)
    requires forall i, j :: 0 <= i < j < |a| ==> a[i] < a[j]
    requires forall i, j :: 0 <= i < j < |b| ==> b[i] < b[j]
    requires forall x :: x in a <==> x in b
    ensures a == b
  {
    HasFirst(a);
    HasFirst(b);
    if a != [] && b != [] {
      assert a[0] in b && b[0] in a;
      assert forall x :: x in a[1..] ==> x > a[0];
      assert forall x :: x in b[1..] ==> x > b[0];
      assert forall x :: x in a <==> x == a[0] || x in a[1..];
      assert forall x :: x in b <==> x == b[0] || x in b[1..];
      AscendingIsUnique(a[1..], b[1..]);
    }
  }

  /** The free list of a registry that can be restored is no choice of whoever saved it: it is the list of
      the dead slots, the count is that of the others, and no slot is in generation 0. */
  lemma EntitiesExactly(s: SaveState)
    ensures EntitiesRestorable(s) <==>
            && (forall i :: 0 <= i < |s.slots| ==> s.slots[i].generation != 0)
            && s.freeIndices == DeadSlots(s.slots, |s.slots|) && s.aliveCount == |s.slots| - |s.freeIndices|
  {
    DeadSlotsAre(s.slots, |s.slots|);
    if EntitiesRestorable(s) {
      assert forall i :: i in s.freeIndices ==> i < |s.slots|;
      AscendingIsUnique(s.freeIndices, DeadSlots(s.slots, |s.slots|));
    }
    if s.freeIndices == DeadSlots(s.slots, |s.slots|) {
      assert forall k :: 0 <= k < |s.freeIndices| ==> s.freeIndices[k] in s.freeIndices;
    }
  }

  predicate NonNegative(bits: nat) {
    IsZero(bits) || (bits < 0x8000_0000_0000_0000 && bits / 0x10_0000_0000_0000 % 0x800 != 0x7ff)
  }

  /** The non-negative finite numbers: -0 and what lies below the infinity. */
  lemma NonNegativeExactly(bits: nat)
    requires bits < 0x1_0000_0000_0000_0000
    ensures NonNegative(bits) <==> bits < 0x7ff0_0000_0000_0000 || bits == 0x8000_0000_0000_0000
  {
  }

  /** FixedTickClock::restore. */
  predicate ClockRestorable(given: Given, s: SaveState) {
    s.ticksPerSecond != 0 && NonNegative(s.accumulator) && NonNegative(s.dropped) &&
    given.belowTick(CanonicalBits(s.accumulator), s.ticksPerSecond)
  }

  /** A fresh host can restore the state. */
  predicate Restores(given: Given, s: SaveState) {
    EntitiesRestorable(s) && ClockRestorable(given, s) && s.randomIncrement % 2 == 1 && Acceptable(s.host)
  }

  function StableHash(given: Given, s: SaveState): nat { given.hash(Canonical(s)) % 0x1_0000_0000_0000_0000 }

  lemma CanonicalCallsRestore(tasks: Tasks, calls: seq<Call>, next: nat)
    ensures CallsRestorable(tasks, CanonicalCalls(calls), next) <==> CallsRestorable(tasks, calls, next)
  {
    hide CanonicalCalls, DistinctKeys;
    SameCallKeys(calls);
    SameEntries(calls);
  }

  lemma CanonicalTimers(calls: seq<Call>)
    ensures TimersOf(CanonicalCalls(calls)) == TimersOf(calls)
  {
    var canonical := CanonicalCalls(calls);
    forall c | c in calls ensures c.timerId in TimersOf(canonical) {
      var i :| 0 <= i < |calls| && calls[i] == c;
      assert canonical[i] in canonical && canonical[i].timerId == c.timerId;
    }
    forall d | d in canonical ensures d.timerId in TimersOf(calls) {
      var i :| 0 <= i < |calls| && canonical[i] == d;
      assert calls[i] in calls && calls[i].timerId == d.timerId;
    }
  }

  lemma SameEntries(calls: seq<Call>)
    ensures forall c :: c in calls ==> exists d :: d in CanonicalCalls(calls) && SameEntry(c, d)
    ensures forall d :: d in CanonicalCalls(calls) ==> exists c :: c in calls && SameEntry(c, d)
  {
    var canonical := CanonicalCalls(calls);
    forall c | c in calls ensures exists d :: d in canonical && SameEntry(c, d) {
      var i :| 0 <= i < |calls| && calls[i] == c;
      assert SameEntry(c, canonical[i]);
    }
    forall d | d in canonical ensures exists c :: c in calls && SameEntry(c, d) {
      var i :| 0 <= i < |calls| && canonical[i] == d;
      assert SameEntry(calls[i], d);
    }
  }

  predicate SameEntry(c: Call, d: Call) {
    d == c.(arguments := d.arguments)
  }

  lemma SameCallKeys(calls: seq<Call>)
    ensures DistinctKeys(CanonicalCalls(calls), CallKey) <==> DistinctKeys(calls, CallKey)
    ensures DistinctKeys(CanonicalCalls(calls), CallTimer) <==> DistinctKeys(calls, CallTimer)
  {
    var canonical := CanonicalCalls(calls);
    assert forall i :: 0 <= i < |calls| ==> CallKey(canonical[i]) == CallKey(calls[i]) && CallTimer(canonical[i]) == CallTimer(calls[i]);
    if DistinctKeys(canonical, CallKey) {
      forall i, j | 0 <= i < j < |calls| ensures CallKey(calls[i]) != CallKey(calls[j]) {
        assert CallKey(canonical[i]) != CallKey(canonical[j]);
      }
    }
    if DistinctKeys(canonical, CallTimer) {
      forall i, j | 0 <= i < j < |calls| ensures CallTimer(calls[i]) != CallTimer(calls[j]) {
        assert CallTimer(canonical[i]) != CallTimer(canonical[j]);
      }
    }
  }

  lemma CanonicalEventsRestore(s: EventState)
    ensures EventsRestorable(s.(events := CanonicalEvents(s.events))) <==> EventsRestorable(s)
  {
    var canonical := CanonicalEvents(s.events);
    forall i | 0 <= i < |s.events| ensures canonical[i] in canonical && s.events[i] in s.events {
    }
    if EventsRestorable(s) {
      forall e | e in canonical ensures EventOk(e) && e.sequence < s.nextSequence {
        var i :| 0 <= i < |canonical| && canonical[i] == e;
      }
    }
    if EventsRestorable(s.(events := canonical)) {
      forall e | e in s.events ensures EventOk(e) && e.sequence < s.nextSequence {
        var i :| 0 <= i < |s.events| && s.events[i] == e;
        assert canonical[i] in canonical;
      }
      forall i, j | 0 <= i < j < |s.events| ensures s.events[i].sequence != s.events[j].sequence {
        assert canonical[i].sequence != canonical[j].sequence;
      }
    }
  }

  /** Validation does not look at what canonicalising changes. */
  lemma CanonicalRestores(given: Given, s: SaveState)
    ensures Restores(given, Canonical(s)) <==> Restores(given, s)
  {
    hide EntitiesRestorable, CallsRestorable, SequencesRestorable, SubscriptionsRestorable, Restorable, EventsRestorable,
        TimersOf;
    CanonicalTwice(s.accumulator);
    CanonicalCallsRestore(Emplaced(s.host.scheduler.tasks, TaskId), s.host.calls, s.host.nextPayloadId);
    CanonicalTimers(s.host.calls);
    CanonicalEventsRestore(s.host.events);
    SameEntities(s, Canonical(s));
  }

  lemma SameEntities(s: SaveState, t: SaveState)
    requires s.slots == t.slots && s.freeIndices == t.freeIndices && s.aliveCount == t.aliveCount
    ensures EntitiesRestorable(s) <==> EntitiesRestorable(t)
  {
  }

  // ----- containers -----

  /** What the header takes of the limit; all of it when the limit is smaller. */
  function HeaderRoom(limits: Limits): nat {
    if HEADER_SIZE < limits.maximumEncodedBytes then HEADER_SIZE else limits.maximumEncodedBytes
  }

  /** encodeGameplayHostState. */
  function Encode(given: Given, limits: Limits, s: SaveState): Outcome<Bytes> {
    if !Restores(given, s) then Bad(InvalidState)
    else if !Encodable(limits, Canonical(s)) then Bad(TooLarge)
    else
      var payload := PayloadBytes(Canonical(s));
      if |payload| > limits.maximumEncodedBytes - HeaderRoom(limits) then Bad(TooLarge)
      else Good(Magic() + Little(VERSION, 4) + Little(StableHash(given, s), 8) + Little(|payload|, 8) + payload)
  }

  function FaultError(f: Fault): CodecError {
    match f
    case Truncated => TruncatedInput
    case Malformed => MalformedInput
    case LimitExceeded => TooLarge
  }

  /** decodeGameplayHostState. */
  function Decode(given: Given, limits: Limits, b: Bytes): Outcome<SaveState> {
    if |b| > limits.maximumEncodedBytes then Bad(TooLarge)
    else if |b| < HEADER_SIZE then Bad(TruncatedInput)
    else if b[..4] != Magic() then Bad(InvalidMagic)
    else if Number(b[4..8]) != VERSION then Bad(UnsupportedVersion)
    else if Number(b[16..24]) != |b| - HEADER_SIZE then Bad(MalformedInput)
    else
      match PayloadAt(limits, b, HEADER_SIZE)
      case Fail(fault) => Bad(FaultError(fault))
      case Got(s, end) =>
        if end != |b| then Bad(MalformedInput)
        else if !Restores(given, s) then Bad(InvalidState)
        else if StableHash(given, s) != Number(b[8..16]) then Bad(HashMismatch)
        else Good(s)
  }

  lemma HeaderParts(hash: nat, size: nat, payload: Bytes)
    requires hash < Pow256(8) && size < Pow256(8)
    ensures var b := Magic() + Little(VERSION, 4) + Little(hash, 8) + Little(size, 8) + payload;
            |b| == HEADER_SIZE + |payload| && b[..4] == Magic() && Number(b[4..8]) == VERSION && Number(b[8..16]) == hash &&
            Number(b[16..24]) == size && Stands(b, HEADER_SIZE, payload) && b[24..] == payload
  {
    hide Little, Number, Pow256;
    var v, h, z := Little(VERSION, 4), Little(hash, 8), Little(size, 8);
    var b := Magic() + v + h + z + payload;
    Widths();
    NumberOfLittle(VERSION, 4);
    NumberOfLittle(hash, 8);
    NumberOfLittle(size, 8);
    assert b[4..8] == v;
    assert b[8..16] == h;
    assert b[16..24] == z;
  }

  lemma PayloadIsSmall(limits: Limits, payload: Bytes)
    requires limits.maximumEncodedBytes < Pow256(8) && |payload| > 0
    requires |payload| <= limits.maximumEncodedBytes - HeaderRoom(limits)
    ensures |payload| + HEADER_SIZE <= limits.maximumEncodedBytes
  {
  }

  lemma PayloadIsNotEmpty(s: SaveState)
    ensures |PayloadBytes(s)| > 0
  {
  }

  /** Decoding an accepted encoding gives the same state, with its doubles canonical; in particular
      the hash never mismatches. */
  lemma DecodeAfterEncode(given: Given, limits: Limits, s: SaveState)
    requires limits.maximumEncodedBytes < Pow256(8) && Encode(given, limits, s).Good?
    ensures Decode(given, limits, Encode(given, limits, s).value) == Good(Canonical(s))
  {
    hide PayloadBytes, PayloadAt, Restores, Encodable, Canonical, Little, Number, Pow256;
    var b := Encode(given, limits, s).value;
    var payload := PayloadBytes(Canonical(s));
    CanonicalIsIdempotent(s);
    CanonicalRestores(given, s);
    PayloadIsNotEmpty(Canonical(s));
    PayloadIsSmall(limits, payload);
    Widths();
    HeaderParts(StableHash(given, s), |payload|, payload);
    PayloadExact(limits, b, HEADER_SIZE, Canonical(s), |b|);
  }

  /** Encoding a decoded container gives back its bytes exactly when its doubles were canonical. */
  lemma EncodeAfterDecode(given: Given, limits: Limits, b: Bytes)
    requires limits.maximumEncodedBytes < Pow256(8) && Decode(given, limits, b).Good?
    ensures var s := Decode(given, limits, b).value;
            Encode(given, limits, s) == Good(b) <==> Canonical(s) == s
  {
    hide PayloadBytes, PayloadAt, Restores, Encodable, Canonical, Little, Number, Pow256, Encode, StableHash;
    var s := Decode(given, limits, b).value;
    if Encode(given, limits, s) == Good(b) { DecodeAfterEncode(given, limits, s); }
    if Canonical(s) == s {
      PayloadExact(limits, b, HEADER_SIZE, s, |b|);
      assert b[24..] == b[24..24 + |PayloadBytes(s)|];
      HeaderStands(given, b, s);
      EncodesTo(given, limits, s, b);
    }
  }

  lemma EncodesTo(given: Given, limits: Limits, s: SaveState, b: Bytes)
    requires Restores(given, s) && Encodable(limits, s) && Canonical(s) == s && |b| <= limits.maximumEncodedBytes
    requires |b| == HEADER_SIZE + |PayloadBytes(s)|
    requires b == Magic() + Little(VERSION, 4) + Little(StableHash(given, s), 8) + Little(|b| - HEADER_SIZE, 8) + PayloadBytes(s)
    ensures Encode(given, limits, s) == Good(b)
  {
    hide PayloadBytes, Restores, Encodable, Canonical, Little, StableHash;
  }

  lemma HeaderStands(given: Given, b: Bytes, s: SaveState)
    requires |b| >= HEADER_SIZE && b[..4] == Magic() && Number(b[4..8]) == VERSION
    requires Number(b[8..16]) == StableHash(given, s) && Number(b[16..24]) == |b| - HEADER_SIZE
    ensures b == Magic() + Little(VERSION, 4) + Little(StableHash(given, s), 8) + Little(|b| - HEADER_SIZE, 8) + b[24..]
  {
    LittleOfNumber(b[4..8]);
    LittleOfNumber(b[8..16]);
    LittleOfNumber(b[16..24]);
    hide Little, Number;
    assert b == b[..4] + b[4..8] + b[8..16] + b[16..24] + b[24..];
  }
}
