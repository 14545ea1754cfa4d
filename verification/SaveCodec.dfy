/** Writing and reading a saved state step by step (src/game/GameplayStateCodec.cpp:51-307, 309-545,
    567-667): the buffers, the loops over the lists and the early returns, each shown to do what the
    format says. */
module SaveCodec {
  import opened Scalars
  import opened Wire
  import opened Timers
  import opened Scheduler
  import opened HostLinks
  import opened Events
  import opened HostState
  import opened SaveFormat
  import opened SaveContainer

  // ----- what the C++ types already say -----

  predicate TextTyped(s: string) { forall i | 0 <= i < |s| :: IsByte(s[i]) }

  predicate ValueTyped(v: GameplayValue) {
    match v
    case Empty => true
    case BoolValue(_) => true
    case IntValue(n) => InInt32(n)
    case LongValue(n) => InInt64(n)
    case DoubleValue(bits) => bits < Pow256(8)
    case Text(s) => TextTyped(s)
    case Entity(packed) => packed < Pow256(8)
  }

  predicate ArgumentsTyped(list: seq<GameplayValue>) { forall i | 0 <= i < |list| :: ValueTyped(list[i]) }

  predicate EntryTyped(x: nat, y: nat, z: nat, text: string, arguments: seq<GameplayValue>) {
    LongFits(x) && LongFits(y) && LongFits(z) && TextTyped(text) && ArgumentsTyped(arguments)
  }

  predicate EventTyped(e: Event) { EntryTyped(e.dueTick, e.sequence, e.target, e.topic, e.arguments) }

  predicate CallTyped(c: Call) { EntryTyped(c.payloadId, c.timerId, c.target, c.callback, c.arguments) }

  predicate SubscriptionTyped(s: Subscription) {
    LongFits(s.id) && TextTyped(s.topic) && LongFits(s.target) && TextTyped(s.callback) && InInt32(s.priority)
  }

  predicate SequenceTyped(s: SequenceState) { LongFits(s.id) && AllFit(LongFits, s.timers) }

  predicate QueuesTyped(s: SaveState) {
    LongFits(s.host.scheduler.nextId) && AllFit(TaskFits, s.host.scheduler.tasks) && LongFits(s.host.events.nextSequence) &&
    forall i | 0 <= i < |s.host.events.events| :: EventTyped(s.host.events.events[i])
  }

  predicate ListsTyped(s: SaveState) {
    && (forall i | 0 <= i < |s.host.calls| :: CallTyped(s.host.calls[i]))
    && (forall i | 0 <= i < |s.host.subscriptions| :: SubscriptionTyped(s.host.subscriptions[i]))
    && (forall i | 0 <= i < |s.host.sequences| :: SequenceTyped(s.host.sequences[i]))
  }

  predicate StateTyped(s: SaveState) {
    && AllFit(SlotFits, s.slots) && AllFit(WordFits, s.freeIndices) && LongFits(s.aliveCount)
    && ClockFits(s) && QueuesTyped(s) && CountersFit(s) && ListsTyped(s)
  }

  // ----- writing -----

  /** What a writing method leaves: e was appended and its counts keep to their limits; or it gave up,
      and then some count does not, or e makes the payload too long. */
  predicate Written(ok: bool, before: Bytes, after: Bytes, e: Bytes, fits: bool, limits: Limits) {
    if ok then fits && after == before + e else !fits || |before + e| > limits.maximumEncodedBytes
  }

  /** One more part. */
  lemma WrittenNext(ok: bool, before: Bytes, now: Bytes, after: Bytes, e: Bytes, x: Bytes, fits: bool, xFits: bool,
      limits: Limits)
    requires Written(true, before, now, e, fits, limits) && Written(ok, now, after, x, xFits, limits)
    ensures Written(ok, before, after, e + x, fits && xFits, limits)
  {
    assert (before + e) + x == before + (e + x);
  }

  /** A part that failed fails the whole, whatever would have come after it. */
  lemma WrittenFailed(before: Bytes, after: Bytes, e: Bytes, rest: Bytes, fits: bool, others: bool, limits: Limits)
    requires Written(false, before, after, e, fits, limits)
    ensures Written(false, before, after, e + rest, fits && others, limits)
  {
  }

  lemma {:induction false} NoLonger<T>(write: T -> Bytes, list: seq<T>, k: nat)
    requires k <= |list|
    ensures |WriteAll(write, list[..k])| <= |WriteAll(write, list)|
    decreases |list| - k
  {
    hide WriteAll;
    if k == |list| {
      assert list[..k] == list;
    } else {
      OneMoreWritten(write, list, k);
      NoLonger(write, list, k + 1);
    }
  }

  /** The count and the first k elements were appended. */
  predicate WrittenUpTo<T>(before: Bytes, now: Bytes, write: T -> Bytes, list: seq<T>, k: nat) {
    k <= |list| && now == before + (Little(|list|, 4) + WriteAll(write, list[..k]))
  }

  lemma LoopStarts<T>(before: Bytes, now: Bytes, write: T -> Bytes, list: seq<T>)
    requires now == before + Little(|list|, 4)
    ensures WrittenUpTo(before, now, write, list, 0)
  {
    assert list[..0] == [];
    assert Little(|list|, 4) + [] == Little(|list|, 4);
  }

  lemma LoopContinues<T>(
    ok: bool, before: Bytes, now: Bytes, after: Bytes, write: T -> Bytes, list: seq<T>, k: nat, fits: bool, limits: Limits)
    requires k < |list| && WrittenUpTo(before, now, write, list, k) && Written(ok, now, after, write(list[k]), fits, limits)
    ensures ok ==> fits && WrittenUpTo(before, after, write, list, k + 1)
    ensures !ok ==> !fits || |before + WriteCounted(write, list)| > limits.maximumEncodedBytes
  {
    hide WriteAll, Little;
    OneMoreWritten(write, list, k);
    NoLonger(write, list, k + 1);
    var e := Little(|list|, 4) + WriteAll(write, list[..k]);
    assert (before + e) + write(list[k]) == before + (Little(|list|, 4) + (WriteAll(write, list[..k]) + write(list[k])));
  }

  lemma LoopEnds<T>(before: Bytes, now: Bytes, write: T -> Bytes, list: seq<T>)
    requires WrittenUpTo(before, now, write, list, |list|)
    ensures now == before + WriteCounted(write, list)
  {
    assert list[..|list|] == list;
  }

  method WriteCount(w: Writer, n: nat, maximum: nat) returns (ok: bool)
    modifies w
    ensures ok <==> CountFits(n, maximum)
    ensures w.bytes == if ok then old(w.bytes) + Little(n, 4) else old(w.bytes)
  {
    if n > maximum || n > 0xffff_ffff {
      Widths();
      return false;
    }
    Widths();
    w.Unsigned(n, 4);
    ok := true;
  }

  method WithinLimit(w: Writer, limits: Limits) returns (ok: bool)
    ensures ok <==> |w.bytes| <= limits.maximumEncodedBytes
  {
    ok := |w.bytes| <= limits.maximumEncodedBytes;
  }

  method WriteText(w: Writer, limits: Limits, s: string) returns (ok: bool)
    requires TextTyped(s)
    modifies w
    ensures Written(ok, old(w.bytes), w.bytes, TextBytes(s), TextFits(limits, s), limits)
  {
    hide Little;
    ok := WriteCount(w, |s|, limits.maximumStringBytes);
    if !ok { return; }
    ghost var before := old(w.bytes);
    assert (before + Little(|s|, 4)) + CharBytes(s) == before + (Little(|s|, 4) + CharBytes(s));
    w.bytes := w.bytes + CharBytes(s);
    ok := WithinLimit(w, limits);
  }

  /** Doubles are made canonical as they are written. */
  method WriteValue(w: Writer, limits: Limits, v: GameplayValue) returns (ok: bool)
    requires ValueTyped(v)
    modifies w
    ensures Written(ok, old(w.bytes), w.bytes, ValueBytes(CanonicalValue(v)), ValueFits(limits, CanonicalValue(v)), limits)
  {
    hide Little, TextBytes, TextFits, TextTyped, Pow256, FromSigned, FromSigned64, CanonicalBits;
    ghost var before := w.bytes;
    w.U8(TagOf(v));
    ghost var tagged := w.bytes;
    match v {
      case Empty =>
      case BoolValue(x) => w.U8(if x then 1 else 0);
      case IntValue(n) => w.Unsigned(FromSigned(n), 4);
      case LongValue(n) => w.Unsigned(FromSigned64(n), 8);
      case DoubleValue(bits) =>
        CanonicalTwice(bits);
        w.Unsigned(CanonicalBits(bits), 8);
      case Text(s) =>
        ok := WriteText(w, limits, s);
        WrittenNext(ok, before, tagged, w.bytes, [5], TextBytes(s), true, TextFits(limits, s), limits);
        if !ok { return; }
      case Entity(packed) => w.Unsigned(packed, 8);
    }
    assert ValueFits(limits, CanonicalValue(v));
    assert w.bytes == before + ValueBytes(CanonicalValue(v));
    ok := WithinLimit(w, limits);
  }

  method WriteArguments(w: Writer, limits: Limits, arguments: seq<GameplayValue>) returns (ok: bool)
    requires ArgumentsTyped(arguments)
    modifies w
    ensures Written(ok, old(w.bytes), w.bytes, Arguments(CanonicalArguments(arguments)),
                    ArgumentsFit(limits, CanonicalArguments(arguments)), limits)
  {
    hide Little, ValueBytes, ValueFits, CanonicalValue, WriteAll, ValueTyped;
    ghost var before, list := w.bytes, CanonicalArguments(arguments);
    ok := WriteCount(w, |arguments|, limits.maximumArgumentsPerCall);
    if !ok { return; }
    LoopStarts(before, w.bytes, ValueBytes, list);
    for k := 0 to |arguments|
      invariant WrittenUpTo(before, w.bytes, ValueBytes, list, k)
      invariant forall j :: 0 <= j < k ==> ValueFits(limits, list[j])
    {
      ghost var now := w.bytes;
      ok := WriteValue(w, limits, arguments[k]);
      LoopContinues(ok, before, now, w.bytes, ValueBytes, list, k, ValueFits(limits, list[k]), limits);
      if !ok { return; }
    }
    LoopEnds(before, w.bytes, ValueBytes, list);
    ok := true;
  }

  method WriteEntry(w: Writer, limits: Limits, x: nat, y: nat, z: nat, text: string,
      arguments: seq<GameplayValue>) returns (ok: bool)
    requires EntryTyped(x, y, z, text, arguments)
    modifies w
    ensures Written(ok, old(w.bytes), w.bytes, EntryBytes(x, y, z, text, CanonicalArguments(arguments)),
                    EntryFits(limits, x, y, z, text, CanonicalArguments(arguments)), limits)
  {
    hide Little, TextBytes, TextFits, Arguments, ArgumentsFit, CanonicalArguments, TextTyped, ArgumentsTyped, LongFits;
    ghost var before, list := w.bytes, CanonicalArguments(arguments);
    ghost var head := Little(x, 8) + Little(y, 8) + Little(z, 8);
    w.Unsigned(x, 8);
    w.Unsigned(y, 8);
    w.Unsigned(z, 8);
    assert w.bytes == before + head;
    ghost var now := w.bytes;
    ok := WriteText(w, limits, text);
    WrittenNext(ok, before, now, w.bytes, head, TextBytes(text), true, TextFits(limits, text), limits);
    if !ok {
      WrittenFailed(before, w.bytes, head + TextBytes(text), Arguments(list), TextFits(limits, text),
          ArgumentsFit(limits, list), limits);
      return;
    }
    now := w.bytes;
    ok := WriteArguments(w, limits, arguments);
    WrittenNext(ok, before, now, w.bytes, head + TextBytes(text), Arguments(list), TextFits(limits, text),
        ArgumentsFit(limits, list), limits);
  }

  method WriteSubscription(w: Writer, limits: Limits, s: Subscription) returns (ok: bool)
    requires SubscriptionTyped(s)
    modifies w
    ensures Written(ok, old(w.bytes), w.bytes, SubscriptionBytes(s), SubscriptionFits(limits, s), limits)
  {
    hide Little, TextBytes, TextFits, TextTyped, LongFits, FromSigned;
    ghost var before := w.bytes;
    ghost var x1, x2, x3, x4, x5 := Little(s.id, 8), TextBytes(s.topic), Little(s.target, 8), TextBytes(s.callback),
        Little(FromSigned(s.priority), 4);
    w.Unsigned(s.id, 8);
    ghost var now := w.bytes;
    ok := WriteText(w, limits, s.topic);
    WrittenNext(ok, before, now, w.bytes, x1, x2, true, TextFits(limits, s.topic), limits);
    if !ok {
      WrittenFailed(before, w.bytes, x1 + x2, x3 + x4 + x5, TextFits(limits, s.topic), TextFits(limits, s.callback), limits);
      assert (x1 + x2) + (x3 + x4 + x5) == x1 + x2 + x3 + x4 + x5;
      return;
    }
    w.Unsigned(s.target, 8);
    Regroup(before, x1 + x2, x3);
    now := w.bytes;
    ok := WriteText(w, limits, s.callback);
    WrittenNext(ok, before, now, w.bytes, x1 + x2 + x3, x4, TextFits(limits, s.topic), TextFits(limits, s.callback), limits);
    if !ok {
      WrittenFailed(before, w.bytes, x1 + x2 + x3 + x4, x5, TextFits(limits, s.topic) &&
          TextFits(limits, s.callback), true, limits);
      return;
    }
    w.Unsigned(FromSigned(s.priority), 4);
    assert (before + (x1 + x2 + x3 + x4)) + x5 == before + (x1 + x2 + x3 + x4 + x5);
  }

  // ----- the lists -----

  /** Indices and identities. */
  method WriteNumbers(w: Writer, limits: Limits, numbers: seq<nat>, width: nat, write: nat -> Bytes,
      maximum: nat) returns (ok: bool)
    requires forall n: nat :: write(n) == Little(n, width)
    modifies w
    ensures Written(ok, old(w.bytes), w.bytes, WriteCounted(write, numbers), CountFits(|numbers|, maximum), limits)
  {
    hide Little, WriteAll;
    ghost var before := w.bytes;
    ok := WriteCount(w, |numbers|, maximum);
    if !ok { return; }
    LoopStarts(before, w.bytes, write, numbers);
    for k := 0 to |numbers|
      invariant WrittenUpTo(before, w.bytes, write, numbers, k)
    {
      ghost var now := w.bytes;
      w.Unsigned(numbers[k], width);
      LoopContinues(true, before, now, w.bytes, write, numbers, k, true, limits);
    }
    LoopEnds(before, w.bytes, write, numbers);
  }

  method WriteSlots(w: Writer, limits: Limits, slots: seq<Slot>) returns (ok: bool)
    modifies w
    ensures Written(ok, old(w.bytes), w.bytes, WriteCounted(SlotBytes, slots), CountFits(|slots|, limits.maximumEntities), limits)
  {
    hide Little, WriteAll;
    ghost var before := w.bytes;
    ok := WriteCount(w, |slots|, limits.maximumEntities);
    if !ok { return; }
    LoopStarts(before, w.bytes, SlotBytes, slots);
    for k := 0 to |slots|
      invariant WrittenUpTo(before, w.bytes, SlotBytes, slots, k)
    {
      ghost var now := w.bytes;
      w.Unsigned(slots[k].generation, 4);
      w.U8(if slots[k].alive then 1 else 0);
      assert w.bytes == now + SlotBytes(slots[k]);
      LoopContinues(true, before, now, w.bytes, SlotBytes, slots, k, true, limits);
    }
    LoopEnds(before, w.bytes, SlotBytes, slots);
  }

  method WriteTasks(w: Writer, limits: Limits, tasks: seq<Task>) returns (ok: bool)
    modifies w
    ensures Written(ok, old(w.bytes), w.bytes, WriteCounted(TaskBytes, tasks), CountFits(|tasks|, limits.maximumTasks), limits)
  {
    hide Little, WriteAll;
    ghost var before := w.bytes;
    ok := WriteCount(w, |tasks|, limits.maximumTasks);
    if !ok { return; }
    LoopStarts(before, w.bytes, TaskBytes, tasks);
    for k := 0 to |tasks|
      invariant WrittenUpTo(before, w.bytes, TaskBytes, tasks, k)
    {
      ghost var now := w.bytes;
      w.Unsigned(tasks[k].id, 8);
      w.Unsigned(tasks[k].dueTick, 8);
      w.Unsigned(tasks[k].intervalTicks, 8);
      w.Unsigned(tasks[k].remainingFires, 4);
      w.Unsigned(tasks[k].payload, 8);
      assert w.bytes == now + TaskBytes(tasks[k]);
      LoopContinues(true, before, now, w.bytes, TaskBytes, tasks, k, true, limits);
    }
    LoopEnds(before, w.bytes, TaskBytes, tasks);
  }

  method WriteEvents(w: Writer, limits: Limits, events: seq<Event>) returns (ok: bool)
    requires forall i :: 0 <= i < |events| ==> EventTyped(events[i])
    modifies w
    ensures Written(ok, old(w.bytes), w.bytes, WriteCounted(EventBytes, CanonicalEvents(events)),
                    CountFits(|events|, limits.maximumEvents) && EventsFit(limits, CanonicalEvents(events)), limits)
  {
    hide Little, WriteAll, EntryBytes, EntryFits, EntryTyped, CanonicalArguments;
    ghost var before, list := w.bytes, CanonicalEvents(events);
    ok := WriteCount(w, |events|, limits.maximumEvents);
    if !ok { return; }
    LoopStarts(before, w.bytes, EventBytes, list);
    for k := 0 to |events|
      invariant WrittenUpTo(before, w.bytes, EventBytes, list, k)
      invariant forall j :: 0 <= j < k ==> EventFits(limits, list[j])
    {
      ghost var now := w.bytes;
      assert EventTyped(events[k]);
      ok := WriteEntry(w, limits, events[k].dueTick, events[k].sequence, events[k].target, events[k].topic, events[k].arguments);
      LoopContinues(ok, before, now, w.bytes, EventBytes, list, k, EventFits(limits, list[k]), limits);
      if !ok { return; }
    }
    LoopEnds(before, w.bytes, EventBytes, list);
  }

  method WriteCalls(w: Writer, limits: Limits, calls: seq<Call>) returns (ok: bool)
    requires forall i :: 0 <= i < |calls| ==> CallTyped(calls[i])
    modifies w
    ensures Written(ok, old(w.bytes), w.bytes, WriteCounted(CallBytes, CanonicalCalls(calls)),
                    CountFits(|calls|, limits.maximumCalls) && CallsFit(limits, CanonicalCalls(calls)), limits)
  {
    hide Little, WriteAll, EntryBytes, EntryFits, EntryTyped, CanonicalArguments;
    ghost var before, list := w.bytes, CanonicalCalls(calls);
    ok := WriteCount(w, |calls|, limits.maximumCalls);
    if !ok { return; }
    LoopStarts(before, w.bytes, CallBytes, list);
    for k := 0 to |calls|
      invariant WrittenUpTo(before, w.bytes, CallBytes, list, k)
      invariant forall j :: 0 <= j < k ==> CallFits(limits, list[j])
    {
      ghost var now := w.bytes;
      assert CallTyped(calls[k]);
      ok := WriteEntry(w, limits, calls[k].payloadId, calls[k].timerId, calls[k].target, calls[k].callback, calls[k].arguments);
      LoopContinues(ok, before, now, w.bytes, CallBytes, list, k, CallFits(limits, list[k]), limits);
      if !ok { return; }
    }
    LoopEnds(before, w.bytes, CallBytes, list);
  }

  method WriteSubscriptions(w: Writer, limits: Limits, subscriptions: seq<Subscription>) returns (ok: bool)
    requires forall i :: 0 <= i < |subscriptions| ==> SubscriptionTyped(subscriptions[i])
    modifies w
    ensures Written(ok, old(w.bytes), w.bytes, WriteCounted(SubscriptionBytes, subscriptions),
                    CountFits(|subscriptions|, limits.maximumSubscriptions) && SubscriptionsFit(limits, subscriptions), limits)
  {
    hide Little, WriteAll, SubscriptionBytes, SubscriptionFits, SubscriptionTyped;
    ghost var before := w.bytes;
    ok := WriteCount(w, |subscriptions|, limits.maximumSubscriptions);
    if !ok { return; }
    LoopStarts(before, w.bytes, SubscriptionBytes, subscriptions);
    for k := 0 to |subscriptions|
      invariant WrittenUpTo(before, w.bytes, SubscriptionBytes, subscriptions, k)
      invariant forall j :: 0 <= j < k ==> SubscriptionFits(limits, subscriptions[j])
    {
      ghost var now := w.bytes;
      ok := WriteSubscription(w, limits, subscriptions[k]);
      LoopContinues(ok, before, now, w.bytes, SubscriptionBytes, subscriptions, k, SubscriptionFits(limits,
          subscriptions[k]), limits);
      if !ok { return; }
    }
    LoopEnds(before, w.bytes, SubscriptionBytes, subscriptions);
  }

  method WriteSequences(w: Writer, limits: Limits, sequences: seq<SequenceState>) returns (ok: bool)
    requires forall i :: 0 <= i < |sequences| ==> SequenceTyped(sequences[i])
    modifies w
    ensures Written(ok, old(w.bytes), w.bytes, WriteCounted(SequenceBytes, sequences),
                    CountFits(|sequences|, limits.maximumSequences) && SequencesFit(limits, sequences), limits)
  {
    hide Little, WriteAll;
    ghost var before := w.bytes;
    ok := WriteCount(w, |sequences|, limits.maximumSequences);
    if !ok { return; }
    LoopStarts(before, w.bytes, SequenceBytes, sequences);
    for k := 0 to |sequences|
      invariant WrittenUpTo(before, w.bytes, SequenceBytes, sequences, k)
      invariant forall j :: 0 <= j < k ==> SequenceFits(limits, sequences[j])
    {
      ghost var now := w.bytes;
      w.Unsigned(sequences[k].id, 8);
      ghost var numbered := w.bytes;
      ok := WriteNumbers(w, limits, sequences[k].timers, 8, LongBytes, limits.maximumTasks);
      WrittenNext(ok, now, numbered, w.bytes, Little(sequences[k].id, 8), WriteCounted(LongBytes, sequences[k].timers),
                  true, CountFits(|sequences[k].timers|, limits.maximumTasks), limits);
      assert SequenceTyped(sequences[k]);
      LoopContinues(ok, before, now, w.bytes, SequenceBytes, sequences, k, SequenceFits(limits, sequences[k]), limits);
      if !ok { return; }
    }
    LoopEnds(before, w.bytes, SequenceBytes, sequences);
  }

  // ----- the whole state -----

  method WriteEntities(w: Writer, limits: Limits, s: SaveState) returns (ok: bool)
    requires StateTyped(s)
    modifies w
    ensures Written(ok, old(w.bytes), w.bytes, EntitiesBytes(s), EntitiesFit(limits, s), limits)
  {
    hide Little, WriteCounted, CountFits, ClockFits, QueuesTyped, CountersFit, ListsTyped;
    ghost var before, x, y, z := w.bytes, WriteCounted(SlotBytes, s.slots), WriteCounted(WordBytes, s.freeIndices),
        Little(s.aliveCount, 8);
    ghost var xFits, yFits := CountFits(|s.slots|, limits.maximumEntities), CountFits(|s.freeIndices|, limits.maximumEntities);
    ok := WriteSlots(w, limits, s.slots);
    if !ok {
      WrittenFailed(before, w.bytes, x, y + z, xFits, yFits, limits);
      Regroup(x, y, z);
      return;
    }
    ghost var now := w.bytes;
    ok := WriteNumbers(w, limits, s.freeIndices, 4, WordBytes, limits.maximumEntities);
    WrittenNext(ok, before, now, w.bytes, x, y, xFits, yFits, limits);
    if !ok {
      WrittenFailed(before, w.bytes, x + y, z, xFits && yFits, true, limits);
      return;
    }
    w.Unsigned(s.aliveCount, 8);
    Regroup(before, x + y, z);
  }

  method WriteClock(w: Writer, s: SaveState)
    modifies w
    ensures w.bytes == old(w.bytes) + ClockBytes(Canonical(s))
  {
    hide Little, CanonicalEvents, CanonicalCalls, CanonicalBits;
    w.Unsigned(s.ticksPerSecond, 4);
    w.Unsigned(s.host.tick, 8);
    w.Unsigned(CanonicalBits(s.accumulator), 8);
    w.Unsigned(CanonicalBits(s.dropped), 8);
    w.Unsigned(s.randomState, 8);
    w.Unsigned(s.randomIncrement, 8);
  }

  method WriteQueues(w: Writer, limits: Limits, s: SaveState) returns (ok: bool)
    requires QueuesTyped(s)
    modifies w
    ensures Written(ok, old(w.bytes), w.bytes, QueuesBytes(Canonical(s)), QueuesFit(limits, Canonical(s)), limits)
  {
    hide Little, WriteCounted, CountFits, EventsFit, EventTyped, CanonicalCalls, CanonicalBits;
    ghost var before, events := w.bytes, CanonicalEvents(s.host.events.events);
    ghost var x1, x2 := Little(s.host.scheduler.nextId, 8), WriteCounted(TaskBytes, s.host.scheduler.tasks);
    ghost var x3, x4 := Little(s.host.events.nextSequence, 8), WriteCounted(EventBytes, events);
    ghost var tasksFit := CountFits(|s.host.scheduler.tasks|, limits.maximumTasks);
    ghost var eventsFit := CountFits(|events|, limits.maximumEvents) && EventsFit(limits, events);
    w.Unsigned(s.host.scheduler.nextId, 8);
    ghost var now := w.bytes;
    ok := WriteTasks(w, limits, s.host.scheduler.tasks);
    WrittenNext(ok, before, now, w.bytes, x1, x2, true, tasksFit, limits);
    if !ok {
      WrittenFailed(before, w.bytes, x1 + x2, x3 + x4, tasksFit, eventsFit, limits);
      Regroup(x1 + x2, x3, x4);
      return;
    }
    w.Unsigned(s.host.events.nextSequence, 8);
    Regroup(before, x1 + x2, x3);
    now := w.bytes;
    ok := WriteEvents(w, limits, s.host.events.events);
    WrittenNext(ok, before, now, w.bytes, x1 + x2 + x3, x4, tasksFit, eventsFit, limits);
  }

  method WriteLists(w: Writer, limits: Limits, s: SaveState) returns (ok: bool)
    requires ListsTyped(s)
    modifies w
    ensures Written(ok, old(w.bytes), w.bytes, ListsBytes(Canonical(s)), ListsFit(limits, Canonical(s)), limits)
  {
    hide Little, WriteCounted, CountFits, CallsFit, SubscriptionsFit, SequencesFit, CallTyped, SubscriptionTyped, SequenceTyped,
      CanonicalEvents, CanonicalBits;
    ghost var before, calls := w.bytes, CanonicalCalls(s.host.calls);
    ghost var x, y, z := WriteCounted(CallBytes, calls), WriteCounted(SubscriptionBytes, s.host.subscriptions),
        WriteCounted(SequenceBytes, s.host.sequences);
    ghost var xFits := CountFits(|calls|, limits.maximumCalls) && CallsFit(limits, calls);
    ghost var yFits := CountFits(|s.host.subscriptions|, limits.maximumSubscriptions) &&
        SubscriptionsFit(limits, s.host.subscriptions);
    ghost var zFits := CountFits(|s.host.sequences|, limits.maximumSequences) && SequencesFit(limits, s.host.sequences);
    ok := WriteCalls(w, limits, s.host.calls);
    if !ok {
      WrittenFailed(before, w.bytes, x, y + z, xFits, yFits && zFits, limits);
      Regroup(x, y, z);
      return;
    }
    ghost var now := w.bytes;
    ok := WriteSubscriptions(w, limits, s.host.subscriptions);
    WrittenNext(ok, before, now, w.bytes, x, y, xFits, yFits, limits);
    if !ok {
      WrittenFailed(before, w.bytes, x + y, z, xFits && yFits, zFits, limits);
      return;
    }
    now := w.bytes;
    ok := WriteSequences(w, limits, s.host.sequences);
    WrittenNext(ok, before, now, w.bytes, x + y, z, xFits && yFits, zFits, limits);
  }

  function CoreBytes(s: SaveState): Bytes { EntitiesBytes(s) + ClockBytes(s) + QueuesBytes(s) }

  method WriteCore(w: Writer, limits: Limits, s: SaveState) returns (ok: bool)
    requires StateTyped(s)
    modifies w
    ensures Written(ok, old(w.bytes), w.bytes, CoreBytes(Canonical(s)),
                    EntitiesFit(limits, Canonical(s)) && QueuesFit(limits, Canonical(s)), limits)
  {
    CanonicalIsTyped(limits, s);
    hide Little, EntitiesBytes, ClockBytes, QueuesBytes, EntitiesFit, QueuesFit, Canonical, QueuesTyped, ListsTyped, StateTyped;
    ghost var before, c := w.bytes, Canonical(s);
    ghost var x1, x2, x3, xFits, zFits := EntitiesBytes(c), ClockBytes(c), QueuesBytes(c), EntitiesFit(limits, c),
        QueuesFit(limits, c);
    ok := WriteEntities(w, limits, s);
    if !ok {
      WrittenFailed(before, w.bytes, x1, x2 + x3, xFits, zFits, limits);
      Regroup(x1, x2, x3);
      return;
    }
    WriteClock(w, s);
    Regroup(before, x1, x2);
    ghost var now := w.bytes;
    ok := WriteQueues(w, limits, s);
    WrittenNext(ok, before, now, w.bytes, x1 + x2, x3, xFits, zFits, limits);
    if !ok { return; }
    ok := WithinLimit(w, limits);
  }

  method WriteHost(w: Writer, limits: Limits, s: SaveState) returns (ok: bool)
    requires StateTyped(s)
    modifies w
    ensures Written(ok, old(w.bytes), w.bytes, PayloadBytes(Canonical(s)), Encodable(limits, Canonical(s)), limits)
    ensures ok ==> |w.bytes| <= limits.maximumEncodedBytes
  {
    CanonicalIsTyped(limits, s);
    hide Little, CountersBytes, ListsBytes, EntitiesFit, QueuesFit, ListsFit, Canonical, QueuesTyped, ListsTyped, CoreBytes,
      StateTyped, Encodable, PayloadBytes;
    ghost var before, c := w.bytes, Canonical(s);
    ghost var x, y, z := CoreBytes(c), CountersBytes(c), ListsBytes(c);
    ghost var xFits, zFits := EntitiesFit(limits, c) && QueuesFit(limits, c), ListsFit(limits, c);
    PayloadParts(c);
    ok := WriteCore(w, limits, s);
    if !ok {
      WrittenFailed(before, w.bytes, x, y + z, xFits, zFits, limits);
      Regroup(x, y, z);
      return;
    }
    WriteCounters(w, s);
    Regroup(before, x, y);
    ghost var now := w.bytes;
    ok := WriteLists(w, limits, s);
    WrittenNext(ok, before, now, w.bytes, x + y, z, xFits, zFits, limits);
    if !ok { return; }
    ok := WithinLimit(w, limits);
  }

  method WriteCounters(w: Writer, s: SaveState)
    modifies w
    ensures w.bytes == old(w.bytes) + CountersBytes(Canonical(s))
  {
    hide Little, CanonicalCalls, CanonicalEvents, CanonicalBits;
    w.Unsigned(s.host.nextPayloadId, 8);
    w.Unsigned(s.host.nextSubscriptionId, 8);
    w.Unsigned(s.host.nextSequenceId, 8);
  }

  lemma PayloadParts(s: SaveState)
    ensures PayloadBytes(s) == CoreBytes(s) + CountersBytes(s) + ListsBytes(s)
  {
    hide EntitiesBytes, ClockBytes, QueuesBytes, CountersBytes, ListsBytes;
  }

  lemma CanonicalIsTyped(limits: Limits, s: SaveState)
    requires StateTyped(s)
    ensures QueuesTyped(s) && ListsTyped(s) && EntitiesBytes(Canonical(s)) == EntitiesBytes(s)
    ensures EntitiesFit(limits, Canonical(s)) <==> EntitiesFit(limits, s)
    ensures Encodable(limits, Canonical(s)) <==>
            EntitiesFit(limits, Canonical(s)) && QueuesFit(limits, Canonical(s)) && ListsFit(limits, Canonical(s))
  {
    hide Little, WriteCounted, AllFit, QueuesTyped, ListsTyped, CanonicalCalls, CanonicalEvents, QueuesFit, ListsFit;
    CanonicalTwice(s.accumulator);
    CanonicalTwice(s.dropped);
  }

  /** encodeGameplayHostState. */
  method EncodeGameplayHostState(given: Given, limits: Limits, s: SaveState) returns (r: Outcome<Bytes>)
    requires StateTyped(s)
    ensures r == Encode(given, limits, s)
  {
    hide Little, Restores, Encodable, PayloadBytes, Canonical, StableHash, StateTyped;
    if !Restores(given, s) { return Bad(InvalidState); }
    var payloadWriter := new Writer();
    var ok := WriteHost(payloadWriter, limits, s);
    assert [] + PayloadBytes(Canonical(s)) == PayloadBytes(Canonical(s));
    if !ok { return Bad(TooLarge); }
    var payload := payloadWriter.bytes;
    if |payload| > limits.maximumEncodedBytes - HeaderRoom(limits) { return Bad(TooLarge); }
    var output := new Writer();
    output.bytes := Magic();
    output.Unsigned(VERSION, 4);
    output.Unsigned(StableHash(given, s), 8);
    output.Unsigned(|payload|, 8);
    output.bytes := output.bytes + payload;
    r := Good(output.bytes);
  }

  // ----- reading -----

  /** What a reading method gives: the value, or the first error; the position is the reader's own. */
  datatype Answer<T> = Failed(fault: Fault) | Done(value: T) {
    predicate IsFailure() { Failed? }

    function PropagateFailure<U>(): Answer<U>
      requires Failed?
    {
      Failed(fault)
    }

    function Extract(): T
      requires Done?
    {
      value
    }
  }

  /** The method answered as the format says, and the reader stands where the format says. */
  predicate Gives<T(==)>(answer: Answer<T>, position: nat, parsed: Parsed<T>) {
    match parsed
    case Fail(fault) => answer == Failed(fault)
    case Got(value, next) => answer == Done(value) && position == next
  }

  /** The reader of a payload, which ends where the bytes end. */
  ghost predicate Whole(r: Reader)
    reads r
  {
    r.Valid() && r.end == |r.bytes|
  }

  method ReadUnsigned(r: Reader, width: nat) returns (answer: Answer<nat>)
    requires Whole(r)
    modifies r
    ensures Whole(r) && Gives(answer, r.position, ReadNumber(r.bytes, old(r.position), width))
  {
    var ok, value := r.Unsigned(width);
    answer := if ok then Done(value) else Failed(Truncated);
  }

  method ReadBoolean(r: Reader) returns (answer: Answer<bool>)
    requires Whole(r)
    modifies r
    ensures Whole(r) && Gives(answer, r.position, ReadBool(r.bytes, old(r.position)))
  {
    hide ReadNumber;
    var encoded :- ReadUnsigned(r, 1);
    if encoded > 1 { return Failed(Malformed); }
    answer := Done(encoded != 0);
  }

  method ReadCount(r: Reader, maximum: nat) returns (answer: Answer<nat>)
    requires Whole(r)
    modifies r
    ensures Whole(r)
    ensures var n := ReadNumber(r.bytes, old(r.position), 4);
            Gives(answer, r.position, if n.Got? && n.value > maximum then Fail(LimitExceeded) else n)
  {
    hide ReadNumber;
    var encoded :- ReadUnsigned(r, 4);
    if encoded > maximum { return Failed(LimitExceeded); }
    answer := Done(encoded);
  }

  method ReadString(r: Reader, limits: Limits) returns (answer: Answer<string>)
    requires Whole(r)
    modifies r
    ensures Whole(r) && Gives(answer, r.position, ReadText(limits, r.bytes, old(r.position)))
  {
    hide ReadNumber;
    var size :- ReadCount(r, limits.maximumStringBytes);
    if size > r.end - r.position { return Failed(Truncated); }
    answer := Done(Chars(r.bytes[r.position..r.position + size]));
    r.position := r.position + size;
  }

  method ReadGameplayValue(r: Reader, limits: Limits) returns (answer: Answer<GameplayValue>)
    requires Whole(r)
    modifies r
    ensures Whole(r) && Gives(answer, r.position, ValueAt(limits, r.bytes, old(r.position)))
  {
    hide ReadNumber, ReadBool, ReadText;
    var tag :- ReadUnsigned(r, 1);
    if tag == 0 {
      answer := Done(Empty);
    } else if tag == 1 {
      var item :- ReadBoolean(r);
      answer := Done(BoolValue(item));
    } else if tag == 2 {
      var item :- ReadUnsigned(r, 4);
      answer := Done(IntValue(ToSigned(item)));
    } else if tag == 3 {
      var item :- ReadUnsigned(r, 8);
      answer := Done(LongValue(ToSigned64(item)));
    } else if tag == 4 {
      var item :- ReadUnsigned(r, 8);
      answer := Done(DoubleValue(item));
    } else if tag == 5 {
      var item :- ReadString(r, limits);
      answer := Done(Text(item));
    } else if tag == 6 {
      var item :- ReadUnsigned(r, 8);
      answer := Done(Entity(item));
    } else {
      answer := Failed(Malformed);
    }
  }

  /** What was read, and then the rest. */
  function Continued<T>(list: seq<T>, rest: Parsed<seq<T>>): Parsed<seq<T>> {
    match rest
    case Fail(fault) => Fail(fault)
    case Got(more, next) => Got(list + more, next)
  }

  lemma NothingRead<T>(rest: Parsed<seq<T>>)
    ensures Continued([], rest) == rest
  {
    if rest.Got? { assert [] + rest.value == rest.value; }
  }

  lemma OneMoreRead<T>(read: nat -> Parsed<T>, p: nat, n: nat, list: seq<T>)
    requires n > 0
    ensures Continued(list, ReadAll(read, p, n)) ==
            (match read(p)
             case Fail(fault) => Fail(fault)
             case Got(value, next) => Continued(list + [value], ReadAll(read, next, n - 1)))
  {
    if read(p).Got? {
      var rest := ReadAll(read, read(p).next, n - 1);
      if rest.Got? { assert list + ([read(p).value] + rest.value) == (list + [read(p).value]) + rest.value; }
    }
  }

  lemma NothingLeft<T>(read: nat -> Parsed<T>, p: nat, list: seq<T>)
    ensures Continued(list, ReadAll(read, p, 0)) == Got(list, p)
  {
    assert list + [] == list;
  }

  method ReadArgumentList(r: Reader, limits: Limits) returns (answer: Answer<seq<GameplayValue>>)
    requires Whole(r)
    modifies r
    ensures Whole(r) && Gives(answer, r.position, ReadArguments(limits, r.bytes, old(r.position)))
  {
    hide ReadNumber, ValueAt, ReadAll, Continued;
    var n :- ReadCount(r, limits.maximumArgumentsPerCall);
    var list := [];
    ghost var all := ReadAll(ReadValue(limits, r.bytes), r.position, n);
    NothingRead(all);
    for k := 0 to n
      invariant Whole(r) && all == Continued(list, ReadAll(ReadValue(limits, r.bytes), r.position, n - k))
    {
      OneMoreRead(ReadValue(limits, r.bytes), r.position, n - k, list);
      var value :- ReadGameplayValue(r, limits);
      list := list + [value];
    }
    NothingLeft(ReadValue(limits, r.bytes), r.position, list);
    answer := Done(list);
  }

  method ReadNumbers(r: Reader, width: nat, ghost read: nat -> Parsed<nat>, maximum: nat) returns (answer: Answer<seq<nat>>)
    requires Whole(r) && forall p: nat :: read(p) == ReadNumber(r.bytes, p, width)
    modifies r
    ensures Whole(r) && Gives(answer, r.position, ReadCounted(r.bytes, read, maximum, old(r.position)))
  {
    hide ReadNumber, ReadAll, Continued;
    var n :- ReadCount(r, maximum);
    var list := [];
    ghost var all := ReadAll(read, r.position, n);
    NothingRead(all);
    for k := 0 to n
      invariant Whole(r) && all == Continued(list, ReadAll(read, r.position, n - k))
    {
      OneMoreRead(read, r.position, n - k, list);
      var value :- ReadUnsigned(r, width);
      list := list + [value];
    }
    NothingLeft(read, r.position, list);
    answer := Done(list);
  }

  method ReadSlots(r: Reader, limits: Limits) returns (answer: Answer<seq<Slot>>)
    requires Whole(r)
    modifies r
    ensures Whole(r) && Gives(answer, r.position, ReadCounted(r.bytes, ReadSlot(r.bytes), limits.maximumEntities,
        old(r.position)))
  {
    hide ReadBool, ReadNumber, ReadAll, Continued;
    var n :- ReadCount(r, limits.maximumEntities);
    var list := [];
    ghost var all := ReadAll(ReadSlot(r.bytes), r.position, n);
    NothingRead(all);
    for k := 0 to n
      invariant Whole(r) && all == Continued(list, ReadAll(ReadSlot(r.bytes), r.position, n - k))
    {
      OneMoreRead(ReadSlot(r.bytes), r.position, n - k, list);
      var generation :- ReadUnsigned(r, 4);
      var alive :- ReadBoolean(r);
      var value := Slot(generation, alive);
      list := list + [value];
    }
    NothingLeft(ReadSlot(r.bytes), r.position, list);
    answer := Done(list);
  }

  method ReadTasks(r: Reader, limits: Limits) returns (answer: Answer<seq<Task>>)
    requires Whole(r)
    modifies r
    ensures Whole(r) && Gives(answer, r.position, ReadCounted(r.bytes, ReadTask(r.bytes), limits.maximumTasks, old(r.position)))
  {
    hide ReadNumber, ReadAll, Continued;
    var n :- ReadCount(r, limits.maximumTasks);
    var list := [];
    ghost var all := ReadAll(ReadTask(r.bytes), r.position, n);
    NothingRead(all);
    for k := 0 to n
      invariant Whole(r) && all == Continued(list, ReadAll(ReadTask(r.bytes), r.position, n - k))
    {
      OneMoreRead(ReadTask(r.bytes), r.position, n - k, list);
      var id :- ReadUnsigned(r, 8);
      var dueTick :- ReadUnsigned(r, 8);
      var intervalTicks :- ReadUnsigned(r, 8);
      var remainingFires :- ReadUnsigned(r, 4);
      var payload :- ReadUnsigned(r, 8);
      var value := Task(id, dueTick, intervalTicks, remainingFires, payload);
      list := list + [value];
    }
    NothingLeft(ReadTask(r.bytes), r.position, list);
    answer := Done(list);
  }

  method ReadEvents(r: Reader, limits: Limits) returns (answer: Answer<seq<Event>>)
    requires Whole(r)
    modifies r
    ensures Whole(r) && Gives(answer, r.position, ReadCounted(r.bytes, ReadEvent(limits, r.bytes), limits.maximumEvents,
        old(r.position)))
  {
    hide ReadText, ReadArguments, ReadNumber, ReadAll, Continued;
    var n :- ReadCount(r, limits.maximumEvents);
    var list := [];
    ghost var all := ReadAll(ReadEvent(limits, r.bytes), r.position, n);
    NothingRead(all);
    for k := 0 to n
      invariant Whole(r) && all == Continued(list, ReadAll(ReadEvent(limits, r.bytes), r.position, n - k))
    {
      OneMoreRead(ReadEvent(limits, r.bytes), r.position, n - k, list);
      var dueTick :- ReadUnsigned(r, 8);
      var sequence :- ReadUnsigned(r, 8);
      var target :- ReadUnsigned(r, 8);
      var topic :- ReadString(r, limits);
      var arguments :- ReadArgumentList(r, limits);
      var value := Event(dueTick, sequence, target, topic, arguments);
      list := list + [value];
    }
    NothingLeft(ReadEvent(limits, r.bytes), r.position, list);
    answer := Done(list);
  }

  method ReadCalls(r: Reader, limits: Limits) returns (answer: Answer<seq<Call>>)
    requires Whole(r)
    modifies r
    ensures Whole(r) && Gives(answer, r.position, ReadCounted(r.bytes, ReadCall(limits, r.bytes), limits.maximumCalls,
        old(r.position)))
  {
    hide ReadText, ReadArguments, ReadNumber, ReadAll, Continued;
    var n :- ReadCount(r, limits.maximumCalls);
    var list := [];
    ghost var all := ReadAll(ReadCall(limits, r.bytes), r.position, n);
    NothingRead(all);
    for k := 0 to n
      invariant Whole(r) && all == Continued(list, ReadAll(ReadCall(limits, r.bytes), r.position, n - k))
    {
      OneMoreRead(ReadCall(limits, r.bytes), r.position, n - k, list);
      var payloadId :- ReadUnsigned(r, 8);
      var timerId :- ReadUnsigned(r, 8);
      var target :- ReadUnsigned(r, 8);
      var callback :- ReadString(r, limits);
      var arguments :- ReadArgumentList(r, limits);
      var value := Call(payloadId, timerId, target, callback, arguments);
      list := list + [value];
    }
    NothingLeft(ReadCall(limits, r.bytes), r.position, list);
    answer := Done(list);
  }

  method ReadSubscriptions(r: Reader, limits: Limits) returns (answer: Answer<seq<Subscription>>)
    requires Whole(r)
    modifies r
    ensures Whole(r) && Gives(answer, r.position, ReadCounted(r.bytes, ReadSubscription(limits, r.bytes),
        limits.maximumSubscriptions, old(r.position)))
  {
    hide ReadText, ToSigned, ReadNumber, ReadAll, Continued;
    var n :- ReadCount(r, limits.maximumSubscriptions);
    var list := [];
    ghost var all := ReadAll(ReadSubscription(limits, r.bytes), r.position, n);
    NothingRead(all);
    for k := 0 to n
      invariant Whole(r) && all == Continued(list, ReadAll(ReadSubscription(limits, r.bytes), r.position, n - k))
    {
      OneMoreRead(ReadSubscription(limits, r.bytes), r.position, n - k, list);
      var id :- ReadUnsigned(r, 8);
      var topic :- ReadString(r, limits);
      var target :- ReadUnsigned(r, 8);
      var callback :- ReadString(r, limits);
      var priority :- ReadUnsigned(r, 4);
      var value := Subscription(id, topic, target, callback, ToSigned(priority));
      list := list + [value];
    }
    NothingLeft(ReadSubscription(limits, r.bytes), r.position, list);
    answer := Done(list);
  }

  method ReadSequences(r: Reader, limits: Limits) returns (answer: Answer<seq<SequenceState>>)
    requires Whole(r)
    modifies r
    ensures Whole(r) && Gives(answer, r.position, ReadCounted(r.bytes, ReadSequence(limits, r.bytes),
        limits.maximumSequences, old(r.position)))
  {
    hide ReadNumber, ReadAll, Continued;
    var n :- ReadCount(r, limits.maximumSequences);
    var list := [];
    ghost var all := ReadAll(ReadSequence(limits, r.bytes), r.position, n);
    NothingRead(all);
    for k := 0 to n
      invariant Whole(r) && all == Continued(list, ReadAll(ReadSequence(limits, r.bytes), r.position, n - k))
    {
      OneMoreRead(ReadSequence(limits, r.bytes), r.position, n - k, list);
      var id :- ReadUnsigned(r, 8);
      var timers :- ReadNumbers(r, 8, ReadLong(r.bytes), limits.maximumTasks);
      var value := SequenceState(id, timers);
      list := list + [value];
    }
    NothingLeft(ReadSequence(limits, r.bytes), r.position, list);
    answer := Done(list);
  }

  method ReadEntities(r: Reader, limits: Limits) returns (answer: Answer<(seq<Slot>, seq<nat>, nat)>)
    requires Whole(r)
    modifies r
    ensures Whole(r) && Gives(answer, r.position, EntitiesAt(limits, r.bytes, old(r.position)))
  {
    hide ReadNumber, ReadCounted;
    var slots :- ReadSlots(r, limits);
    NumbersAreNumbers(r.bytes);
    var freeIndices :- ReadNumbers(r, 4, ReadWord(r.bytes), limits.maximumEntities);
    var aliveCount :- ReadUnsigned(r, 8);
    answer := Done((slots, freeIndices, aliveCount));
  }

  lemma NumbersAreNumbers(b: Bytes)
    ensures forall p: nat :: ReadWord(b)(p) == ReadNumber(b, p, 4) && ReadLong(b)(p) == ReadNumber(b, p, 8)
  {
  }

  method ReadClock(r: Reader) returns (answer: Answer<(nat, nat, nat, nat, nat, nat)>)
    requires Whole(r)
    modifies r
    ensures Whole(r) && Gives(answer, r.position, ClockAt(r.bytes, old(r.position)))
  {
    hide ReadNumber;
    var ticksPerSecond :- ReadUnsigned(r, 4);
    var tick :- ReadUnsigned(r, 8);
    var accumulator :- ReadUnsigned(r, 8);
    var dropped :- ReadUnsigned(r, 8);
    var randomState :- ReadUnsigned(r, 8);
    var randomIncrement :- ReadUnsigned(r, 8);
    answer := Done((ticksPerSecond, tick, accumulator, dropped, randomState, randomIncrement));
  }

  method ReadQueues(r: Reader, limits: Limits) returns (answer: Answer<(SchedulerState, EventState)>)
    requires Whole(r)
    modifies r
    ensures Whole(r) && Gives(answer, r.position, QueuesAt(limits, r.bytes, old(r.position)))
  {
    hide ReadNumber, ReadCounted;
    var nextId :- ReadUnsigned(r, 8);
    var tasks :- ReadTasks(r, limits);
    var nextSequence :- ReadUnsigned(r, 8);
    var events :- ReadEvents(r, limits);
    answer := Done((SchedulerState(nextId, tasks), EventState(nextSequence, events)));
  }

  method ReadCounters(r: Reader) returns (answer: Answer<(nat, nat, nat)>)
    requires Whole(r)
    modifies r
    ensures Whole(r) && Gives(answer, r.position, CountersAt(r.bytes, old(r.position)))
  {
    hide ReadNumber;
    var payload :- ReadUnsigned(r, 8);
    var subscription :- ReadUnsigned(r, 8);
    var sequence :- ReadUnsigned(r, 8);
    answer := Done((payload, subscription, sequence));
  }

  method ReadLists(r: Reader, limits: Limits) returns (answer: Answer<(seq<Call>, seq<Subscription>, seq<SequenceState>)>)
    requires Whole(r)
    modifies r
    ensures Whole(r) && Gives(answer, r.position, ListsAt(limits, r.bytes, old(r.position)))
  {
    hide ReadCounted;
    var calls :- ReadCalls(r, limits);
    var subscriptions :- ReadSubscriptions(r, limits);
    var sequences :- ReadSequences(r, limits);
    answer := Done((calls, subscriptions, sequences));
  }

  /** readCore and readHost. */
  method ReadHost(r: Reader, limits: Limits) returns (answer: Answer<SaveState>)
    requires Whole(r)
    modifies r
    ensures Whole(r) && Gives(answer, r.position, PayloadAt(limits, r.bytes, old(r.position)))
  {
    hide EntitiesAt, ClockAt, QueuesAt, CountersAt, ListsAt;
    var entities :- ReadEntities(r, limits);
    var clock :- ReadClock(r);
    var queues :- ReadQueues(r, limits);
    var counters :- ReadCounters(r);
    var lists :- ReadLists(r, limits);
    answer := Done(SaveState(
      entities.0, entities.1, entities.2, clock.0, clock.2, clock.3, clock.4, clock.5,
      HostSnapshot(queues.0, queues.1, clock.1, counters.0, counters.1, counters.2, lists.0, lists.1, lists.2)));
  }

  /** decodeGameplayHostState. */
  method DecodeGameplayHostState(given: Given, limits: Limits, bytes: Bytes) returns (r: Outcome<SaveState>)
    ensures r == Decode(given, limits, bytes)
  {
    hide Number, Restores, PayloadAt, StableHash;
    if |bytes| > limits.maximumEncodedBytes { return Bad(TooLarge); }
    if |bytes| < HEADER_SIZE { return Bad(TruncatedInput); }
    if bytes[..4] != Magic() { return Bad(InvalidMagic); }
    var header := new Reader(bytes, 4, HEADER_SIZE);
    var _, version := header.Unsigned(4);
    var _, expectedHash := header.Unsigned(8);
    var _, payloadSize := header.Unsigned(8);
    if version != VERSION { return Bad(UnsupportedVersion); }
    if payloadSize != |bytes| - HEADER_SIZE { return Bad(MalformedInput); }
    var payload := new Reader(bytes, HEADER_SIZE, |bytes|);
    var state := ReadHost(payload, limits);
    if state.Failed? { return Bad(FaultError(state.fault)); }
    if payload.position != payload.end { return Bad(MalformedInput); }
    if !Restores(given, state.value) { return Bad(InvalidState); }
    if StableHash(given, state.value) != expectedHash { return Bad(HashMismatch); }
    r := Good(state.value);
  }
}
