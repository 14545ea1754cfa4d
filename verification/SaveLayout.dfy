/** Where each field of a saved state stands (src/game/GameplayStateCodec.cpp:51-140, 309-577): byte by
    byte, and independent of how SaveFormat puts the parts together. */
module SaveLayout {
  import opened Wire
  import opened WireLayout
  import opened Timers
  import opened HostLinks
  import opened Events
  import opened HostState
  import opened SaveFormat
  import opened SaveContainer

  // ----- texts -----

  predicate HasText(b: Bytes, p: nat, s: string) {
    Has4(b, p, |s|) && p + 4 + |s| <= |b| && forall i | 0 <= i < |s| :: b[p + 4 + i] == s[i] as int % 0x100
  }

  lemma StandsText(b: Bytes, p: nat, s: string)
    ensures Stands(b, p, TextBytes(s)) <==> HasText(b, p, s)
    ensures |TextBytes(s)| == 4 + |s|
  {
    hide Has4, Little;
    StandsApart(b, p, Little(|s|, 4), CharBytes(s));
    Stands4(b, p, |s|);
    if p + 4 + |s| <= |b| {
      var e := b[p + 4..p + 4 + |s|];
      assert forall i :: 0 <= i < |s| ==> e[i] == b[p + 4 + i];
      assert e == CharBytes(s) <==> forall i :: 0 <= i < |s| ==> e[i] == s[i] as int % 0x100;
    }
  }

  // ----- values and their lists -----

  function ValueSize(v: GameplayValue): nat {
    match v
    case Empty => 1
    case BoolValue(_) => 2
    case IntValue(_) => 5
    case Text(s) => 5 + |s|
    case _ => 9
  }

  predicate HasValue(b: Bytes, p: nat, v: GameplayValue) {
    p < |b| &&
    match v
    case Empty => b[p] == 0
    case BoolValue(x) => p + 1 < |b| && b[p] == 1 && b[p + 1] == (if x then 1 else 0)
    case IntValue(n) => b[p] == 2 && HasInt(b, p + 1, n)
    case LongValue(n) => b[p] == 3 && HasLong(b, p + 1, n)
    case DoubleValue(bits) => b[p] == 4 && Has8(b, p + 1, bits)
    case Text(s) => b[p] == 5 && HasText(b, p + 1, s)
    case Entity(packed) => b[p] == 6 && Has8(b, p + 1, packed)
  }

  lemma StandsValue(limits: Limits, b: Bytes, p: nat, v: GameplayValue)
    requires ValueFits(limits, v)
    ensures Stands(b, p, ValueBytes(v)) <==> HasValue(b, p, v)
    ensures |ValueBytes(v)| == ValueSize(v)
  {
    hide Has4, Has8, Little, TextBytes, HasText, Stands;
    match v
    case Empty =>
      StandsTagged(b, p, 0, []);
      StandsNothing(b, p + 1);
      assert [0] + [] == [0];
    case BoolValue(x) =>
      StandsTagged(b, p, 1, BoolBytes(x));
      StandsOne(b, p + 1, if x then 1 else 0);
    case IntValue(n) =>
      StandsTagged(b, p, 2, Little(FromSigned(n), 4));
      Stands4(b, p + 1, FromSigned(n));
    case LongValue(n) =>
      StandsTagged(b, p, 3, Little(FromSigned64(n), 8));
      Stands8(b, p + 1, FromSigned64(n));
    case DoubleValue(bits) =>
      StandsTagged(b, p, 4, Little(bits, 8));
      Stands8(b, p + 1, bits);
    case Text(s) =>
      StandsTagged(b, p, 5, TextBytes(s));
      StandsText(b, p + 1, s);
    case Entity(packed) =>
      StandsTagged(b, p, 6, Little(packed, 8));
      Stands8(b, p + 1, packed);
  }

  // ----- records -----

  predicate HasSlot(b: Bytes, p: nat, s: Slot) {
    Has4(b, p, s.generation) && p + 4 < |b| && b[p + 4] == if s.alive then 1 else 0
  }

  predicate HasTask(b: Bytes, p: nat, t: Task) {
    && Has8(b, p, t.id) && Has8(b, p + 8, t.dueTick) && Has8(b, p + 16, t.intervalTicks)
    && Has4(b, p + 24, t.remainingFires) && Has8(b, p + 28, t.payload)
  }

  function ArgumentsSize(list: seq<GameplayValue>): nat { 4 + SizeOfAll(ValueSize, list) }

  predicate HasArguments(b: Bytes, p: nat, list: seq<GameplayValue>) {
    HasList(b, p, (p, v) => HasValue(b, p, v), ValueSize, list)
  }

  predicate HasEvent(b: Bytes, p: nat, e: Event) {
    && Has8(b, p, e.dueTick) && Has8(b, p + 8, e.sequence) && Has8(b, p + 16, e.target)
    && HasText(b, p + 24, e.topic) && HasArguments(b, p + 28 + |e.topic|, e.arguments)
  }

  function EventSize(e: Event): nat { 28 + |e.topic| + ArgumentsSize(e.arguments) }

  predicate HasCall(b: Bytes, p: nat, c: Call) {
    && Has8(b, p, c.payloadId) && Has8(b, p + 8, c.timerId) && Has8(b, p + 16, c.target)
    && HasText(b, p + 24, c.callback) && HasArguments(b, p + 28 + |c.callback|, c.arguments)
  }

  function CallSize(c: Call): nat { 28 + |c.callback| + ArgumentsSize(c.arguments) }

  predicate HasSubscription(b: Bytes, p: nat, s: Subscription) {
    && Has8(b, p, s.id) && HasText(b, p + 8, s.topic) && Has8(b, p + 12 + |s.topic|, s.target)
    && HasText(b, p + 20 + |s.topic|, s.callback) && HasInt(b, p + 24 + |s.topic| + |s.callback|, s.priority)
  }

  function SubscriptionSize(s: Subscription): nat { 28 + |s.topic| + |s.callback| }

  predicate HasSequence(b: Bytes, p: nat, s: SequenceState) {
    Has8(b, p, s.id) && HasList(b, p + 8, (p, t) => Has8(b, p, t), t => 8, s.timers)
  }

  function SequenceSize(s: SequenceState): nat { 12 + 8 * |s.timers| }

  lemma StandsSlot(b: Bytes, p: nat, s: Slot)
    ensures (Stands(b, p, SlotBytes(s)) <==> HasSlot(b, p, s)) && |SlotBytes(s)| == 5
  {
    hide Has4, Little, Stands;
    StandsApart(b, p, Little(s.generation, 4), BoolBytes(s.alive));
    Stands4(b, p, s.generation);
    StandsOne(b, p + 4, if s.alive then 1 else 0);
  }

  predicate HasWord(b: Bytes, p: nat, n: nat) { Has4(b, p, n) }

  lemma StandsWord(b: Bytes, p: nat, n: nat)
    ensures (Stands(b, p, WordBytes(n)) <==> HasWord(b, p, n)) && |WordBytes(n)| == 4
  {
    Stands4(b, p, n);
  }

  /** A task's fields stand at 0, 8, 16, 24 and 28 of its 36 bytes. */
  lemma StandsTask(b: Bytes, p: nat, t: Task)
    ensures (Stands(b, p, TaskBytes(t)) <==> HasTask(b, p, t)) && |TaskBytes(t)| == 36
  {
    hide Has4, Has8, Little, Stands;
    FiveParts(b, p, Little(t.id, 8), Little(t.dueTick, 8), Little(t.intervalTicks, 8), Little(t.remainingFires, 4),
      Little(t.payload, 8));
    Stands8(b, p, t.id);
    Stands8(b, p + 8, t.dueTick);
    Stands8(b, p + 16, t.intervalTicks);
    Stands4(b, p + 24, t.remainingFires);
    Stands8(b, p + 28, t.payload);
  }

  lemma StandsArguments(limits: Limits, b: Bytes, p: nat, list: seq<GameplayValue>)
    requires ArgumentsFit(limits, list)
    ensures (Stands(b, p, Arguments(list)) <==> HasArguments(b, p, list)) && |Arguments(list)| == ArgumentsSize(list)
  {
    hide HasValue, ValueFits, ValueBytes, ValueSize, HasList, WriteCounted;
    var fits := v => ValueFits(limits, v);
    var has := (p: nat, v: GameplayValue) => HasValue(b, p, v);
    forall v | fits(v) ensures |ValueBytes(v)| == ValueSize(v) {
      StandsValue(limits, b, 0, v);
    }
    forall p: nat, v | fits(v) ensures Stands(b, p, ValueBytes(v)) <==> has(p, v) {
      StandsValue(limits, b, p, v);
    }
    assert Described(b, ValueBytes, fits, has, ValueSize);
    StandsList(b, p, ValueBytes, fits, has, ValueSize, list);
  }

  lemma StandsEntry(limits: Limits, b: Bytes, p: nat, x: nat, y: nat, z: nat, text: string, arguments: seq<GameplayValue>)
    requires ArgumentsFit(limits, arguments)
    ensures Stands(b, p, EntryBytes(x, y, z, text, arguments)) <==>
            Has8(b, p, x) && Has8(b, p + 8, y) && Has8(b, p + 16, z) && HasText(b, p + 24, text) &&
            HasArguments(b, p + 28 + |text|, arguments)
    ensures |EntryBytes(x, y, z, text, arguments)| == 28 + |text| + ArgumentsSize(arguments)
  {
    hide Has8, Little, Stands, TextBytes, HasText, Arguments, HasArguments, ArgumentsSize, ArgumentsFit;
    FiveParts(b, p, Little(x, 8), Little(y, 8), Little(z, 8), TextBytes(text), Arguments(arguments));
    Stands8(b, p, x);
    Stands8(b, p + 8, y);
    Stands8(b, p + 16, z);
    StandsText(b, p + 24, text);
    StandsArguments(limits, b, p + 28 + |text|, arguments);
  }

  /** An event's numbers stand at 0, 8 and 16, its topic at 24, and its arguments behind it. */
  lemma StandsEvent(limits: Limits, b: Bytes, p: nat, e: Event)
    requires EventFits(limits, e)
    ensures (Stands(b, p, EventBytes(e)) <==> HasEvent(b, p, e)) && |EventBytes(e)| == EventSize(e)
  {
    hide Has8, HasText, HasArguments, ArgumentsSize, ArgumentsFit, TextFits, EntryBytes;
    StandsEntry(limits, b, p, e.dueTick, e.sequence, e.target, e.topic, e.arguments);
  }

  /** A call's numbers stand at 0, 8 and 16, its callback at 24, and its arguments behind it. */
  lemma StandsCall(limits: Limits, b: Bytes, p: nat, c: Call)
    requires CallFits(limits, c)
    ensures (Stands(b, p, CallBytes(c)) <==> HasCall(b, p, c)) && |CallBytes(c)| == CallSize(c)
  {
    hide Has8, HasText, HasArguments, ArgumentsSize, ArgumentsFit, TextFits, EntryBytes;
    StandsEntry(limits, b, p, c.payloadId, c.timerId, c.target, c.callback, c.arguments);
  }

  lemma StandsSubscription(limits: Limits, b: Bytes, p: nat, s: Subscription)
    requires SubscriptionFits(limits, s)
    ensures (Stands(b, p, SubscriptionBytes(s)) <==> HasSubscription(b, p, s)) && |SubscriptionBytes(s)| == SubscriptionSize(s)
  {
    hide Has4, Has8, Little, Stands, TextBytes, HasText, TextFits;
    var r := p + 20 + |s.topic|;
    FiveParts(b, p, Little(s.id, 8), TextBytes(s.topic), Little(s.target, 8), TextBytes(s.callback),
      Little(FromSigned(s.priority), 4));
    Stands8(b, p, s.id);
    StandsText(b, p + 8, s.topic);
    Stands8(b, p + 12 + |s.topic|, s.target);
    StandsText(b, r, s.callback);
    Stands4(b, r + 4 + |s.callback|, FromSigned(s.priority));
  }

  lemma {:induction false} EightEach(list: seq<nat>)
    ensures SizeOfAll(t => 8, list) == 8 * |list|
  {
    if list != [] { EightEach(list[1..]); }
  }

  lemma StandsSequence(limits: Limits, b: Bytes, p: nat, s: SequenceState)
    requires SequenceFits(limits, s)
    ensures (Stands(b, p, SequenceBytes(s)) <==> HasSequence(b, p, s)) && |SequenceBytes(s)| == SequenceSize(s)
  {
    hide Has4, Has8, Little, Stands, HasList, WriteCounted;
    var has, size := (p: nat, t: nat) => Has8(b, p, t), (t: nat) => 8;
    forall p: nat, t: nat ensures Stands(b, p, LongBytes(t)) <==> has(p, t) {
      Stands8(b, p, t);
    }
    assert Described(b, LongBytes, LongFits, has, size);
    StandsApart(b, p, Little(s.id, 8), WriteCounted(LongBytes, s.timers));
    Stands8(b, p, s.id);
    StandsList(b, p + 8, LongBytes, LongFits, has, size, s.timers);
    EightEach(s.timers);
  }

  // ----- a whole state -----

  predicate HasSlots(b: Bytes, p: nat, list: seq<Slot>) {
    HasList(b, p, (p, x) => HasSlot(b, p, x), (x: Slot) => 5, list)
  }

  lemma StandsSlots(b: Bytes, p: nat, list: seq<Slot>)
    requires AllFit(SlotFits, list)
    ensures Stands(b, p, WriteCounted(SlotBytes, list)) <==> HasSlots(b, p, list)
    ensures |WriteCounted(SlotBytes, list)| == 4 + SizeOfAll((x: Slot) => 5, list)
  {
    hide SlotBytes, HasSlot, HasList, WriteCounted, Stands;
    var has := (p, x) => HasSlot(b, p, x);
    var fits, size := SlotFits, (x: Slot) => 5;
    forall x | fits(x) ensures |SlotBytes(x)| == size(x) {
      StandsSlot(b, 0, x);
    }
    forall p: nat, x | fits(x) ensures Stands(b, p, SlotBytes(x)) <==> has(p, x) {
      StandsSlot(b, p, x);
    }
    assert Described(b, SlotBytes, fits, has, size);
    StandsList(b, p, SlotBytes, fits, has, size, list);
  }

  predicate HasWords(b: Bytes, p: nat, list: seq<nat>) {
    HasList(b, p, (p, x) => HasWord(b, p, x), (x: nat) => 4, list)
  }

  lemma StandsWords(b: Bytes, p: nat, list: seq<nat>)
    requires AllFit(WordFits, list)
    ensures Stands(b, p, WriteCounted(WordBytes, list)) <==> HasWords(b, p, list)
    ensures |WriteCounted(WordBytes, list)| == 4 + SizeOfAll((x: nat) => 4, list)
  {
    hide WordBytes, HasWord, HasList, WriteCounted, Stands;
    var has := (p, x) => HasWord(b, p, x);
    var fits, size := WordFits, (x: nat) => 4;
    forall x | fits(x) ensures |WordBytes(x)| == size(x) {
      StandsWord(b, 0, x);
    }
    forall p: nat, x | fits(x) ensures Stands(b, p, WordBytes(x)) <==> has(p, x) {
      StandsWord(b, p, x);
    }
    assert Described(b, WordBytes, fits, has, size);
    StandsList(b, p, WordBytes, fits, has, size, list);
  }

  predicate HasTasks(b: Bytes, p: nat, list: seq<Task>) {
    HasList(b, p, (p, x) => HasTask(b, p, x), (x: Task) => 36, list)
  }

  lemma StandsTasks(b: Bytes, p: nat, list: seq<Task>)
    requires AllFit(TaskFits, list)
    ensures Stands(b, p, WriteCounted(TaskBytes, list)) <==> HasTasks(b, p, list)
    ensures |WriteCounted(TaskBytes, list)| == 4 + SizeOfAll((x: Task) => 36, list)
  {
    hide TaskBytes, HasTask, HasList, WriteCounted, Stands;
    var has := (p, x) => HasTask(b, p, x);
    var fits, size := TaskFits, (x: Task) => 36;
    forall x | fits(x) ensures |TaskBytes(x)| == size(x) {
      StandsTask(b, 0, x);
    }
    forall p: nat, x | fits(x) ensures Stands(b, p, TaskBytes(x)) <==> has(p, x) {
      StandsTask(b, p, x);
    }
    assert Described(b, TaskBytes, fits, has, size);
    StandsList(b, p, TaskBytes, fits, has, size, list);
  }

  predicate HasEvents(b: Bytes, p: nat, list: seq<Event>) {
    HasList(b, p, (p, x) => HasEvent(b, p, x), EventSize, list)
  }

  lemma StandsEvents(limits: Limits, b: Bytes, p: nat, list: seq<Event>)
    requires EventsFit(limits, list)
    ensures Stands(b, p, WriteCounted(EventBytes, list)) <==> HasEvents(b, p, list)
    ensures |WriteCounted(EventBytes, list)| == 4 + SizeOfAll(EventSize, list)
  {
    hide EventBytes, HasEvent, EventFits, EventSize, HasList, WriteCounted, Stands;
    var has := (p, x) => HasEvent(b, p, x);
    var fits, size := e => EventFits(limits, e), EventSize;
    forall x | fits(x) ensures |EventBytes(x)| == size(x) {
      StandsEvent(limits, b, 0, x);
    }
    forall p: nat, x | fits(x) ensures Stands(b, p, EventBytes(x)) <==> has(p, x) {
      StandsEvent(limits, b, p, x);
    }
    assert Described(b, EventBytes, fits, has, size);
    StandsList(b, p, EventBytes, fits, has, size, list);
  }

  predicate HasCalls(b: Bytes, p: nat, list: seq<Call>) {
    HasList(b, p, (p, x) => HasCall(b, p, x), CallSize, list)
  }

  lemma StandsCalls(limits: Limits, b: Bytes, p: nat, list: seq<Call>)
    requires CallsFit(limits, list)
    ensures Stands(b, p, WriteCounted(CallBytes, list)) <==> HasCalls(b, p, list)
    ensures |WriteCounted(CallBytes, list)| == 4 + SizeOfAll(CallSize, list)
  {
    hide CallBytes, HasCall, CallFits, CallSize, HasList, WriteCounted, Stands;
    var has := (p, x) => HasCall(b, p, x);
    var fits, size := c => CallFits(limits, c), CallSize;
    forall x | fits(x) ensures |CallBytes(x)| == size(x) {
      StandsCall(limits, b, 0, x);
    }
    forall p: nat, x | fits(x) ensures Stands(b, p, CallBytes(x)) <==> has(p, x) {
      StandsCall(limits, b, p, x);
    }
    assert Described(b, CallBytes, fits, has, size);
    StandsList(b, p, CallBytes, fits, has, size, list);
  }

  predicate HasSubscriptions(b: Bytes, p: nat, list: seq<Subscription>) {
    HasList(b, p, (p, x) => HasSubscription(b, p, x), SubscriptionSize, list)
  }

  lemma StandsSubscriptions(limits: Limits, b: Bytes, p: nat, list: seq<Subscription>)
    requires SubscriptionsFit(limits, list)
    ensures Stands(b, p, WriteCounted(SubscriptionBytes, list)) <==> HasSubscriptions(b, p, list)
    ensures |WriteCounted(SubscriptionBytes, list)| == 4 + SizeOfAll(SubscriptionSize, list)
  {
    hide SubscriptionBytes, HasSubscription, SubscriptionFits, SubscriptionSize, HasList, WriteCounted, Stands;
    var has := (p, x) => HasSubscription(b, p, x);
    var fits, size := s => SubscriptionFits(limits, s), SubscriptionSize;
    forall x | fits(x) ensures |SubscriptionBytes(x)| == size(x) {
      StandsSubscription(limits, b, 0, x);
    }
    forall p: nat, x | fits(x) ensures Stands(b, p, SubscriptionBytes(x)) <==> has(p, x) {
      StandsSubscription(limits, b, p, x);
    }
    assert Described(b, SubscriptionBytes, fits, has, size);
    StandsList(b, p, SubscriptionBytes, fits, has, size, list);
  }

  predicate HasSequences(b: Bytes, p: nat, list: seq<SequenceState>) {
    HasList(b, p, (p, x) => HasSequence(b, p, x), SequenceSize, list)
  }

  lemma StandsSequences(limits: Limits, b: Bytes, p: nat, list: seq<SequenceState>)
    requires SequencesFit(limits, list)
    ensures Stands(b, p, WriteCounted(SequenceBytes, list)) <==> HasSequences(b, p, list)
    ensures |WriteCounted(SequenceBytes, list)| == 4 + SizeOfAll(SequenceSize, list)
  {
    hide SequenceBytes, HasSequence, SequenceFits, SequenceSize, HasList, WriteCounted, Stands;
    var has := (p, x) => HasSequence(b, p, x);
    var fits, size := s => SequenceFits(limits, s), SequenceSize;
    forall x | fits(x) ensures |SequenceBytes(x)| == size(x) {
      StandsSequence(limits, b, 0, x);
    }
    forall p: nat, x | fits(x) ensures Stands(b, p, SequenceBytes(x)) <==> has(p, x) {
      StandsSequence(limits, b, p, x);
    }
    assert Described(b, SequenceBytes, fits, has, size);
    StandsList(b, p, SequenceBytes, fits, has, size, list);
  }

  /** Where the parts of a state begin. */
  datatype Plan = Plan(slots: nat, free: nat, alive: nat, clock: nat, tasks: nat, events: nat, counters: nat, calls: nat,
                       subscriptions: nat, sequences: nat, end: nat)

  function PlanOf(s: SaveState, p: nat): Plan {
    var free := p + 4 + 5 * |s.slots|;
    var alive := free + 4 + 4 * |s.freeIndices|;
    var clock := alive + 8;
    var tasks := clock + 44;
    var events := tasks + 8 + 4 + 36 * |s.host.scheduler.tasks|;
    var counters := events + 8 + 4 + SizeOfAll(EventSize, s.host.events.events);
    var calls := counters + 24;
    var subscriptions := calls + 4 + SizeOfAll(CallSize, s.host.calls);
    var sequences := subscriptions + 4 + SizeOfAll(SubscriptionSize, s.host.subscriptions);
    var end := sequences + 4 + SizeOfAll(SequenceSize, s.host.sequences);
    Plan(p, free, alive, clock, tasks, events, counters, calls, subscriptions, sequences, end)
  }

  predicate HasEntities(b: Bytes, at: Plan, s: SaveState) {
    HasSlots(b, at.slots, s.slots) && HasWords(b, at.free, s.freeIndices) && Has8(b, at.alive, s.aliveCount)
  }

  predicate HasClock(b: Bytes, at: Plan, s: SaveState) {
    && Has4(b, at.clock, s.ticksPerSecond) && Has8(b, at.clock + 4, s.host.tick)
    && Has8(b, at.clock + 12, s.accumulator) && Has8(b, at.clock + 20, s.dropped)
    && Has8(b, at.clock + 28, s.randomState) && Has8(b, at.clock + 36, s.randomIncrement)
  }

  predicate HasQueues(b: Bytes, at: Plan, s: SaveState) {
    && Has8(b, at.tasks, s.host.scheduler.nextId) && HasTasks(b, at.tasks + 8, s.host.scheduler.tasks)
    && Has8(b, at.events, s.host.events.nextSequence) && HasEvents(b, at.events + 8, s.host.events.events)
  }

  predicate HasCounters(b: Bytes, at: Plan, s: SaveState) {
    && Has8(b, at.counters, s.host.nextPayloadId) && Has8(b, at.counters + 8, s.host.nextSubscriptionId)
    && Has8(b, at.counters + 16, s.host.nextSequenceId)
  }

  predicate HasLists(b: Bytes, at: Plan, s: SaveState) {
    && HasCalls(b, at.calls, s.host.calls) && HasSubscriptions(b, at.subscriptions, s.host.subscriptions)
    && HasSequences(b, at.sequences, s.host.sequences)
  }

  /** Every field of the state stands at its place from p on. */
  predicate HasState(b: Bytes, p: nat, s: SaveState) {
    var at := PlanOf(s, p);
    HasEntities(b, at, s) && HasClock(b, at, s) && HasQueues(b, at, s) && HasCounters(b, at, s) && HasLists(b, at, s)
  }

  lemma StandsEntities(b: Bytes, s: SaveState, p: nat)
    requires AllFit(SlotFits, s.slots) && AllFit(WordFits, s.freeIndices)
    ensures Stands(b, p, EntitiesBytes(s)) <==> HasEntities(b, PlanOf(s, p), s)
    ensures p + |EntitiesBytes(s)| == PlanOf(s, p).clock
  {
    hide Stands, Has8, Little, WriteCounted, HasSlots, HasWords, AllFit;
    var x, y, at := WriteCounted(SlotBytes, s.slots), WriteCounted(WordBytes, s.freeIndices), PlanOf(s, p);
    StandsApart(b, p, x + y, Little(s.aliveCount, 8));
    StandsApart(b, p, x, y);
    EqualSizes((x: Slot) => 5, 5, s.slots);
    EqualSizes((x: nat) => 4, 4, s.freeIndices);
    StandsSlots(b, p, s.slots);
    StandsWords(b, at.free, s.freeIndices);
    Stands8(b, at.alive, s.aliveCount);
  }

  lemma StandsClock(b: Bytes, s: SaveState, p: nat)
    ensures Stands(b, PlanOf(s, p).clock, ClockBytes(s)) <==> HasClock(b, PlanOf(s, p), s)
    ensures |ClockBytes(s)| == 44
  {
    hide Stands, Has4, Has8, Little, PlanOf;
    var c, x, y := PlanOf(s, p).clock, Little(s.randomState, 8), Little(s.randomIncrement, 8);
    FiveParts(b, c, Little(s.ticksPerSecond, 4), Little(s.host.tick, 8), Little(s.accumulator, 8), Little(s.dropped, 8), x + y);
    StandsApart(b, c + 28, x, y);
    Stands4(b, c, s.ticksPerSecond);
    Stands8(b, c + 4, s.host.tick);
    Stands8(b, c + 12, s.accumulator);
    Stands8(b, c + 20, s.dropped);
    Stands8(b, c + 28, s.randomState);
    Stands8(b, c + 36, s.randomIncrement);
  }

  lemma StandsQueues(limits: Limits, b: Bytes, s: SaveState, p: nat)
    requires QueuesFit(limits, s)
    ensures Stands(b, PlanOf(s, p).tasks, QueuesBytes(s)) <==> HasQueues(b, PlanOf(s, p), s)
    ensures PlanOf(s, p).tasks + |QueuesBytes(s)| == PlanOf(s, p).counters
  {
    hide Stands, Has8, Little, WriteCounted, HasTasks, HasEvents, AllFit, EventsFit;
    var tasks, events, at := s.host.scheduler.tasks, s.host.events.events, PlanOf(s, p);
    var x, y := WriteCounted(TaskBytes, tasks), WriteCounted(EventBytes, events);
    var n, m := Little(s.host.scheduler.nextId, 8), Little(s.host.events.nextSequence, 8);
    StandsApart(b, at.tasks, n + x + m, y);
    StandsApart(b, at.tasks, n + x, m);
    StandsApart(b, at.tasks, n, x);
    EqualSizes((x: Task) => 36, 36, tasks);
    Stands8(b, at.tasks, s.host.scheduler.nextId);
    StandsTasks(b, at.tasks + 8, tasks);
    Stands8(b, at.events, s.host.events.nextSequence);
    StandsEvents(limits, b, at.events + 8, events);
  }

  lemma StandsCounters(b: Bytes, s: SaveState, p: nat)
    ensures Stands(b, PlanOf(s, p).counters, CountersBytes(s)) <==> HasCounters(b, PlanOf(s, p), s)
    ensures |CountersBytes(s)| == 24
  {
    hide Stands, Has8, Little, PlanOf;
    var c := PlanOf(s, p).counters;
    var x, y, z := Little(s.host.nextPayloadId, 8), Little(s.host.nextSubscriptionId, 8), Little(s.host.nextSequenceId, 8);
    StandsApart(b, c, x + y, z);
    StandsApart(b, c, x, y);
    Stands8(b, c, s.host.nextPayloadId);
    Stands8(b, c + 8, s.host.nextSubscriptionId);
    Stands8(b, c + 16, s.host.nextSequenceId);
  }

  lemma StandsLists(limits: Limits, b: Bytes, s: SaveState, p: nat)
    requires ListsFit(limits, s)
    ensures Stands(b, PlanOf(s, p).calls, ListsBytes(s)) <==> HasLists(b, PlanOf(s, p), s)
    ensures PlanOf(s, p).calls + |ListsBytes(s)| == PlanOf(s, p).end
  {
    hide Stands, WriteCounted, HasCalls, HasSubscriptions, HasSequences, CallsFit, SubscriptionsFit, SequencesFit;
    var at := PlanOf(s, p);
    var x, y, z := WriteCounted(CallBytes, s.host.calls), WriteCounted(SubscriptionBytes, s.host.subscriptions),
                   WriteCounted(SequenceBytes, s.host.sequences);
    StandsApart(b, at.calls, x + y, z);
    StandsApart(b, at.calls, x, y);
    StandsCalls(limits, b, at.calls, s.host.calls);
    StandsSubscriptions(limits, b, at.subscriptions, s.host.subscriptions);
    StandsSequences(limits, b, at.sequences, s.host.sequences);
  }

  /** What is written for a state stands exactly where its fields stand at their places. */
  lemma StandsState(limits: Limits, b: Bytes, s: SaveState, p: nat)
    requires Encodable(limits, s)
    ensures Stands(b, p, PayloadBytes(s)) <==> HasState(b, p, s)
    ensures p + |PayloadBytes(s)| == PlanOf(s, p).end
  {
    hide Stands, EntitiesBytes, ClockBytes, QueuesBytes, CountersBytes, ListsBytes, HasEntities, HasClock, HasQueues,
      HasCounters, HasLists, AllFit, QueuesFit, ListsFit, CountFits;
    FiveParts(b, p, EntitiesBytes(s), ClockBytes(s), QueuesBytes(s), CountersBytes(s), ListsBytes(s));
    StandsEntities(b, s, p);
    StandsClock(b, s, p);
    StandsQueues(limits, b, s, p);
    StandsCounters(b, s, p);
    StandsLists(limits, b, s, p);
  }

  /** An encoding: the four letters RSGS, version 1, the hash, the number of bytes to come, and the
      state with its doubles canonical, every field at its place. */
  predicate HasContainer(given: Given, b: Bytes, s: SaveState) {
    && 24 <= |b| == PlanOf(s, 24).end && b[0] == 'R' as int && b[1] == 'S' as int && b[2] == 'G' as int && b[3] == 'S' as int
    && Has4(b, 4, 1) && Has8(b, 8, StableHash(given, s)) && Has8(b, 16, |b| - 24) && HasState(b, 24, s)
  }

  /** What the encoder accepts it writes in that layout. */
  lemma EncodingHasLayout(given: Given, limits: Limits, s: SaveState)
    requires Encode(given, limits, s).Good?
    ensures HasContainer(given, Encode(given, limits, s).value, Canonical(s))
  {
    hide PayloadBytes, Restores, Canonical, Little, Has4, Has8, Stands, HasState, Encodable;
    var b, payload := Encode(given, limits, s).value, PayloadBytes(Canonical(s));
    var v, h, z := Little(VERSION, 4), Little(StableHash(given, s), 8), Little(|payload|, 8);
    CanonicalIsIdempotent(s);
    StandsState(limits, b, Canonical(s), 24);
    StandsSelf(b);
    FiveParts(b, 0, Magic(), v, h, z, payload);
    Stands4(b, 4, VERSION);
    Stands8(b, 8, StableHash(given, s));
    Stands8(b, 16, |payload|);
  }

  lemma StandsSelf(b: Bytes)
    ensures Stands(b, 0, b)
  {
  }

  lemma NumberStands(b: Bytes, p: nat, width: nat, n: nat)
    requires p + width <= |b| && n < Pow256(width)
    ensures Number(b[p..p + width]) == n <==> Stands(b, p, Little(n, width))
  {
    hide Little, Stands, Number, Pow256;
    ReadNumberExact(b, p, width, n, p + width);
  }

  /** A container decodes to a state exactly when the state can be restored, keeps to the limits and
      has every field of it at its place. */
  lemma DecodesExactly(given: Given, limits: Limits, b: Bytes, s: SaveState)
    requires limits.maximumEncodedBytes < Pow256(8)
    ensures Decode(given, limits, b) == Good(s) <==>
            |b| <= limits.maximumEncodedBytes && Encodable(limits, s) && Restores(given, s) && HasContainer(given, b, s)
  {
    hide PayloadBytes, PayloadAt, Restores, Little, Has4, Has8, Stands, HasState, Encodable, Number, StableHash, Pow256, PlanOf;
    if 24 <= |b| <= limits.maximumEncodedBytes {
      HashFits(given, s);
      NumberStands(b, 4, 4, VERSION);
      NumberStands(b, 8, 8, StableHash(given, s));
      NumberStands(b, 16, 8, |b| - 24);
      Stands4(b, 4, VERSION);
      Stands8(b, 8, StableHash(given, s));
      Stands8(b, 16, |b| - 24);
      PayloadExact(limits, b, 24, s, |b|);
      if Encodable(limits, s) { StandsState(limits, b, s, 24); }
      assert b[..4] == [b[0], b[1], b[2], b[3]];
    }
  }

  lemma HashFits(given: Given, s: SaveState)
    ensures StableHash(given, s) < Pow256(8) && VERSION < Pow256(4)
  {
    Widths();
  }

  // ----- damaged containers -----

  lemma NumberDiffers(x: Bytes, y: Bytes)
    requires |x| == |y|
    ensures Number(x) == Number(y) <==> x == y
  {
    LittleOfNumber(x);
    LittleOfNumber(y);
  }

  /** Any container that is cut short or has bytes behind its end is refused, and so is one whose letters,
      version or hash are others: each with its own error. */
  lemma DamageIsFound(given: Given, limits: Limits, b: Bytes, s: SaveState, d: Bytes)
    requires limits.maximumEncodedBytes < Pow256(8) && Decode(given, limits, b) == Good(s)
    ensures d < b ==> Decode(given, limits, d) == Bad(if |d| < 24 then TruncatedInput else MalformedInput)
    ensures b < d && |d| <= limits.maximumEncodedBytes ==> Decode(given, limits, d) == Bad(MalformedInput)
    ensures |d| > limits.maximumEncodedBytes ==> Decode(given, limits, d) == Bad(TooLarge)
    ensures |d| == |b| && d[..4] != b[..4] ==> Decode(given, limits, d) == Bad(InvalidMagic)
    ensures |d| == |b| && d[..4] == b[..4] && d[4..8] != b[4..8] ==> Decode(given, limits, d) == Bad(UnsupportedVersion)
    ensures |d| == |b| && d[..8] == b[..8] && d[8..16] != b[8..16] && d[16..] == b[16..] ==>
              Decode(given, limits, d) == Bad(HashMismatch)
  {
    hide PayloadAt, Restores, Number, StableHash, Pow256;
    if |d| >= 24 {
      if d < b {
        HeadersAgree(b, d);
      } else if b < d {
        HeadersAgree(d, b);
      } else if |d| == |b| {
        NumberDiffers(d[4..8], b[4..8]);
        NumberDiffers(d[8..16], b[8..16]);
        if d[..8] == b[..8] && d[16..] == b[16..] { PayloadStays(limits, b, d, s); }
      }
    }
  }

  lemma HeadersAgree(b: Bytes, d: Bytes)
    requires d < b && |d| >= 24
    ensures d[..4] == b[..4] && d[4..8] == b[4..8] && d[16..24] == b[16..24]
  {
  }

  lemma PayloadStays(limits: Limits, b: Bytes, d: Bytes, s: SaveState)
    requires |b| == |d| >= 24 && d[..8] == b[..8] && d[16..] == b[16..] && PayloadAt(limits, b, 24) == Got(s, |b|)
    ensures PayloadAt(limits, d, 24) == Got(s, |d|) && d[..4] == b[..4] && d[4..8] == b[4..8] && d[16..24] == b[16..24]
  {
    hide PayloadBytes, PayloadAt;
    PayloadExact(limits, b, 24, s, |b|);
    PayloadExact(limits, d, 24, s, |b|);
    assert b[..4] == b[..8][..4] && d[..4] == d[..8][..4] && b[4..8] == b[..8][4..] && d[4..8] == d[..8][4..];
    assert b[16..24] == b[16..][..8] && d[16..24] == d[16..][..8];
    assert b[24..] == b[16..][8..] && d[24..] == d[16..][8..];
    assert b[24..|b|] == b[24..] && d[24..|d|] == d[24..];
  }
}
