/** The payload of a saved gameplay state (src/game/GameplayStateCodec.cpp:77-307, 309-545): what is
    written for every part, how it is read, and that the two are exact inverses. */
module SaveFormat {
  import opened Scalars
  import opened Wire
  import opened HostLinks
  import opened Timers
  import opened Scheduler
  import opened Events
  import opened HostState

  datatype Limits = Limits(
    maximumEncodedBytes: nat, maximumEntities: nat, maximumTasks: nat, maximumEvents: nat, maximumCalls: nat,
    maximumSubscriptions: nat, maximumSequences: nat, maximumArgumentsPerCall: nat, maximumStringBytes: nat)

  datatype Slot = Slot(generation: nat, alive: bool)

  /** GameplayHost::State: doubles are bit patterns, strings hold bytes. */
  datatype SaveState = SaveState(
    slots: seq<Slot>, freeIndices: seq<nat>, aliveCount: nat,
    ticksPerSecond: nat, accumulator: nat, dropped: nat, randomState: nat, randomIncrement: nat, host: HostSnapshot)

  // ----- single values -----

  function BoolBytes(x: bool): Bytes { [if x then 1 else 0] }

  function ReadBool(b: Bytes, p: nat): Parsed<bool> {
    var (n, p) :- ReadNumber(b, p, 1);
    if n > 1 then Fail(Malformed) else Got(n != 0, p)
  }

  lemma ReadBoolExact(b: Bytes, p: nat, x: bool, q: nat)
    ensures ReadBool(b, p) == Got(x, q) <==> q == p + 1 && Stands(b, p, BoolBytes(x))
  {
    var n := if x then 1 else 0;
    assert Little(n, 1) == [n];
    Widths();
    ReadNumberExact(b, p, 1, n, q);
  }

  /** static_cast between int32 and uint32. */
  function FromSigned(n: int): nat { n % 0x1_0000_0000 }

  function ToSigned(bits: nat): int { if bits < 0x8000_0000 then bits else bits - 0x1_0000_0000 }

  function FromSigned64(n: int): nat { n % 0x1_0000_0000_0000_0000 }

  function ToSigned64(bits: nat): int {
    if bits < 0x8000_0000_0000_0000 then bits else bits - 0x1_0000_0000_0000_0000
  }

  predicate IsByte(c: char) { c as int < 256 }

  function CharBytes(s: string): Bytes {
    seq(|s|, i requires 0 <= i < |s| => s[i] as int % 256)
  }

  function Chars(b: Bytes): string {
    seq(|b|, i requires 0 <= i < |b| => b[i] as char)
  }

  function TextBytes(s: string): Bytes { Little(|s|, 4) + CharBytes(s) }

  predicate TextFits(limits: Limits, s: string) {
    CountFits(|s|, limits.maximumStringBytes) && forall i | 0 <= i < |s| :: IsByte(s[i])
  }

  function ReadText(limits: Limits, b: Bytes, p: nat): Parsed<string> {
    var (n, p) :- ReadNumber(b, p, 4);
    if n > limits.maximumStringBytes then Fail(LimitExceeded)
    else if p + n > |b| then Fail(Truncated)
    else Got(Chars(b[p..p + n]), p + n)
  }

  lemma CharsAreBytes(s: string, e: Bytes)
    ensures (forall i :: 0 <= i < |s| ==> IsByte(s[i])) && e == CharBytes(s) <==> s == Chars(e)
  {
    if s == Chars(e) { assert e == CharBytes(s); }
    if (forall i :: 0 <= i < |s| ==> IsByte(s[i])) && e == CharBytes(s) { assert s == Chars(e); }
  }

  lemma ReadTextExact(limits: Limits, b: Bytes, p: nat, s: string, q: nat)
    ensures ReadText(limits, b, p) == Got(s, q) <==> TextFits(limits, s) && q == p + |TextBytes(s)| && Stands(b, p, TextBytes(s))
  {
    hide ReadNumber, Little;
    StandsApart(b, p, Little(|s|, 4), CharBytes(s));
    ReadNumberExact(b, p, 4, |s|, p + 4);
    if p + 4 + |s| <= |b| { CharsAreBytes(s, b[p + 4..p + 4 + |s|]); }
    if ReadText(limits, b, p).Got? {
      var count := ReadNumber(b, p, 4);
      ReadNumberExact(b, p, 4, count.value, count.next);
    }
  }

  // ----- gameplay values -----

  function ValueBytes(v: GameplayValue): Bytes {
    match v
    case Empty => [0]
    case BoolValue(x) => [1] + BoolBytes(x)
    case IntValue(n) => [2] + Little(FromSigned(n), 4)
    case LongValue(n) => [3] + Little(FromSigned64(n), 8)
    case DoubleValue(bits) => [4] + Little(bits, 8)
    case Text(s) => [5] + TextBytes(s)
    case Entity(packed) => [6] + Little(packed, 8)
  }

  predicate ValueFits(limits: Limits, v: GameplayValue) {
    match v
    case Empty => true
    case BoolValue(_) => true
    case IntValue(n) => InInt32(n)
    case LongValue(n) => InInt64(n)
    case DoubleValue(bits) => bits < Pow256(8)
    case Text(s) => TextFits(limits, s)
    case Entity(packed) => packed < Pow256(8)
  }

  function ReadTagged(limits: Limits, b: Bytes, p: nat, tag: nat): Parsed<GameplayValue> {
    if tag == 0 then Got(Empty, p)
    else if tag == 1 then
      var (x, p) :- ReadBool(b, p);
      Got(BoolValue(x), p)
    else if tag == 2 then
      var (n, p) :- ReadNumber(b, p, 4);
      Got(IntValue(ToSigned(n)), p)
    else if tag == 3 then
      var (n, p) :- ReadNumber(b, p, 8);
      Got(LongValue(ToSigned64(n)), p)
    else if tag == 4 then
      var (n, p) :- ReadNumber(b, p, 8);
      Got(DoubleValue(n), p)
    else if tag == 5 then
      var (s, p) :- ReadText(limits, b, p);
      Got(Text(s), p)
    else if tag == 6 then
      var (n, p) :- ReadNumber(b, p, 8);
      Got(Entity(n), p)
    else Fail(Malformed)
  }

  function ValueAt(limits: Limits, b: Bytes, p: nat): Parsed<GameplayValue> {
    var (tag, p) :- ReadNumber(b, p, 1);
    ReadTagged(limits, b, p, tag)
  }

  function TagOf(v: GameplayValue): Byte {
    match v
    case Empty => 0
    case BoolValue(_) => 1
    case IntValue(_) => 2
    case LongValue(_) => 3
    case DoubleValue(_) => 4
    case Text(_) => 5
    case Entity(_) => 6
  }

  function BodyBytes(v: GameplayValue): Bytes { ValueBytes(v)[1..] }

  lemma SignsRoundTrip(n: int, bits: nat)
    ensures InInt32(n) && bits == FromSigned(n) <==> bits < Pow256(4) && n == ToSigned(bits)
    ensures InInt64(n) && bits == FromSigned64(n) <==> bits < Pow256(8) && n == ToSigned64(bits)
  {
    Widths();
  }

  lemma TaggedExact(limits: Limits, b: Bytes, p: nat, v: GameplayValue, q: nat)
    requires p <= |b|
    ensures ReadTagged(limits, b, p, TagOf(v)) == Got(v, q) <==>
            ValueFits(limits, v) && q == p + |BodyBytes(v)| && Stands(b, p, BodyBytes(v))
  {
    hide ReadNumber, Little, ReadText, TextBytes, Pow256;
    match v
    case Empty =>
    case BoolValue(x) => ReadBoolExact(b, p, x, q);
    case IntValue(n) =>
      var bits := if ReadNumber(b, p, 4).Got? then ReadNumber(b, p, 4).value else FromSigned(n);
      SignsRoundTrip(n, bits);
      ReadNumberExact(b, p, 4, bits, q);
      SignsRoundTrip(n, FromSigned(n));
      ReadNumberExact(b, p, 4, FromSigned(n), q);
    case LongValue(n) =>
      var bits := if ReadNumber(b, p, 8).Got? then ReadNumber(b, p, 8).value else FromSigned64(n);
      SignsRoundTrip(n, bits);
      ReadNumberExact(b, p, 8, bits, q);
      SignsRoundTrip(n, FromSigned64(n));
      ReadNumberExact(b, p, 8, FromSigned64(n), q);
    case DoubleValue(bits) => ReadNumberExact(b, p, 8, bits, q);
    case Text(s) => ReadTextExact(limits, b, p, s, q);
    case Entity(packed) => ReadNumberExact(b, p, 8, packed, q);
  }

  lemma TagDecides(limits: Limits, b: Bytes, p: nat, tag: nat)
    ensures ReadTagged(limits, b, p, tag).Got? ==> TagOf(ReadTagged(limits, b, p, tag).value) == tag
  {
  }

  lemma ValueExact(limits: Limits, b: Bytes, p: nat, v: GameplayValue, q: nat)
    ensures ValueAt(limits, b, p) == Got(v, q) <==>
            ValueFits(limits, v) && q == p + |ValueBytes(v)| && Stands(b, p, ValueBytes(v))
  {
    hide ReadNumber, ReadTagged, ValueFits;
    TagFirst(v);
    StandsApart(b, p, Little(TagOf(v), 1), BodyBytes(v));
    ReadNumberExact(b, p, 1, TagOf(v), p + 1);
    Widths();
    if p + 1 <= |b| { TaggedExact(limits, b, p + 1, v, q); }
    if ValueAt(limits, b, p).Got? {
      var tag := ReadNumber(b, p, 1);
      ReadNumberExact(b, p, 1, tag.value, tag.next);
      TagDecides(limits, b, p + 1, tag.value);
    }
  }

  lemma TagFirst(v: GameplayValue)
    ensures ValueBytes(v) == Little(TagOf(v), 1) + BodyBytes(v)
  {
    hide TextBytes;
    assert Little(TagOf(v), 1) == [TagOf(v)];
  }

  function ReadValue(limits: Limits, b: Bytes): nat -> Parsed<GameplayValue> {
    (p: nat) => ValueAt(limits, b, p)
  }

  function Arguments(list: seq<GameplayValue>): Bytes { WriteCounted(ValueBytes, list) }

  predicate ArgumentsFit(limits: Limits, list: seq<GameplayValue>) {
    CountFits(|list|, limits.maximumArgumentsPerCall) && AllFit(v => ValueFits(limits, v), list)
  }

  function ReadArguments(limits: Limits, b: Bytes, p: nat): Parsed<seq<GameplayValue>> {
    ReadCounted(b, ReadValue(limits, b), limits.maximumArgumentsPerCall, p)
  }

  lemma ReadArgumentsExact(limits: Limits, b: Bytes, p: nat, list: seq<GameplayValue>, q: nat)
    ensures ReadArguments(limits, b, p) == Got(list, q) <==>
            ArgumentsFit(limits, list) && q == p + |Arguments(list)| && Stands(b, p, Arguments(list))
  {
    hide ValueAt, ValueBytes, ValueFits;
    forall p: nat, v, q
      ensures ReadValue(limits, b)(p) == Got(v, q) <==>
              ValueFits(limits, v) && q == p + |ValueBytes(v)| && Stands(b, p, ValueBytes(v))
    {
      ValueExact(limits, b, p, v, q);
    }
    var fits := v => ValueFits(limits, v);
    assert Exact(b, ReadValue(limits, b), ValueBytes, fits);
    ReadCountedExact(b, ReadValue(limits, b), ValueBytes, fits, limits.maximumArgumentsPerCall, p, list, q);
  }

  // ----- records -----

  lemma FiveParts(b: Bytes, p: nat, x1: Bytes, x2: Bytes, x3: Bytes, x4: Bytes, x5: Bytes)
    ensures Stands(b, p, x1 + x2 + x3 + x4 + x5) <==>
            Stands(b, p, x1) && Stands(b, p + |x1|, x2) && Stands(b, p + |x1| + |x2|, x3) &&
            Stands(b, p + |x1| + |x2| + |x3|, x4) && Stands(b, p + |x1| + |x2| + |x3| + |x4|, x5)
  {
    hide Stands;
    StandsApart(b, p, x1, x2);
    StandsApart(b, p, x1 + x2, x3);
    StandsApart(b, p, x1 + x2 + x3, x4);
    StandsApart(b, p, x1 + x2 + x3 + x4, x5);
  }

  function SlotBytes(s: Slot): Bytes { Little(s.generation, 4) + BoolBytes(s.alive) }

  predicate SlotFits(s: Slot) { s.generation < Pow256(4) }

  function SlotAt(b: Bytes, p: nat): Parsed<Slot> {
    var (generation, p) :- ReadNumber(b, p, 4);
    var (alive, p) :- ReadBool(b, p);
    Got(Slot(generation, alive), p)
  }

  lemma SlotExact(b: Bytes, p: nat, s: Slot, q: nat)
    ensures SlotAt(b, p) == Got(s, q) <==> SlotFits(s) && q == p + |SlotBytes(s)| && Stands(b, p, SlotBytes(s))
  {
    hide ReadNumber, Little, ReadBool;
    StandsApart(b, p, Little(s.generation, 4), BoolBytes(s.alive));
    ReadNumberExact(b, p, 4, s.generation, p + 4);
    ReadBoolExact(b, p + 4, s.alive, q);
  }

  function WordBytes(n: nat): Bytes { Little(n, 4) }

  predicate WordFits(n: nat) { n < Pow256(4) }

  function LongBytes(n: nat): Bytes { Little(n, 8) }

  predicate LongFits(n: nat) { n < Pow256(8) }

  function TaskBytes(t: Task): Bytes {
    Little(t.id, 8) + Little(t.dueTick, 8) + Little(t.intervalTicks, 8) + Little(t.remainingFires, 4) + Little(t.payload, 8)
  }

  predicate TaskFits(t: Task) {
    LongFits(t.id) && LongFits(t.dueTick) && LongFits(t.intervalTicks) && WordFits(t.remainingFires) && LongFits(t.payload)
  }

  function TaskAt(b: Bytes, p: nat): Parsed<Task> {
    var (id, p) :- ReadNumber(b, p, 8);
    var (dueTick, p) :- ReadNumber(b, p, 8);
    var (intervalTicks, p) :- ReadNumber(b, p, 8);
    var (remainingFires, p) :- ReadNumber(b, p, 4);
    var (payload, p) :- ReadNumber(b, p, 8);
    Got(Task(id, dueTick, intervalTicks, remainingFires, payload), p)
  }

  lemma TaskExact(b: Bytes, p: nat, t: Task, q: nat)
    ensures TaskAt(b, p) == Got(t, q) <==> TaskFits(t) && q == p + |TaskBytes(t)| && Stands(b, p, TaskBytes(t))
  {
    hide ReadNumber, Little, Stands, Pow256;
    FiveParts(b, p, Little(t.id, 8), Little(t.dueTick, 8), Little(t.intervalTicks, 8), Little(t.remainingFires, 4),
        Little(t.payload, 8));
    ReadNumberExact(b, p, 8, t.id, p + 8);
    ReadNumberExact(b, p + 8, 8, t.dueTick, p + 16);
    ReadNumberExact(b, p + 16, 8, t.intervalTicks, p + 24);
    ReadNumberExact(b, p + 24, 4, t.remainingFires, p + 28);
    ReadNumberExact(b, p + 28, 8, t.payload, p + 36);
  }

  /** An event and a scheduled call are written alike: three numbers, a text and arguments. */
  function EntryBytes(x: nat, y: nat, z: nat, text: string, arguments: seq<GameplayValue>): Bytes {
    Little(x, 8) + Little(y, 8) + Little(z, 8) + TextBytes(text) + Arguments(arguments)
  }

  predicate EntryFits(limits: Limits, x: nat, y: nat, z: nat, text: string, arguments: seq<GameplayValue>) {
    LongFits(x) && LongFits(y) && LongFits(z) && TextFits(limits, text) && ArgumentsFit(limits, arguments)
  }

  function EntryAt(limits: Limits, b: Bytes, p: nat): Parsed<(nat, nat, nat, string, seq<GameplayValue>)> {
    var (x, p) :- ReadNumber(b, p, 8);
    var (y, p) :- ReadNumber(b, p, 8);
    var (z, p) :- ReadNumber(b, p, 8);
    var (text, p) :- ReadText(limits, b, p);
    var (arguments, p) :- ReadArguments(limits, b, p);
    Got((x, y, z, text, arguments), p)
  }

  lemma EntryExact(
    limits: Limits, b: Bytes, p: nat, x: nat, y: nat, z: nat, text: string, arguments: seq<GameplayValue>, q: nat)
    ensures EntryAt(limits, b, p) == Got((x, y, z, text, arguments), q) <==>
            EntryFits(limits, x, y, z, text, arguments) && q == p + |EntryBytes(x, y, z, text, arguments)| &&
            Stands(b, p, EntryBytes(x, y, z, text, arguments))
  {
    hide ReadNumber, Little, Stands, Pow256, ReadText, ReadArguments, TextFits, ArgumentsFit, TextBytes, Arguments;
    var r := p + 24 + |TextBytes(text)|;
    FiveParts(b, p, Little(x, 8), Little(y, 8), Little(z, 8), TextBytes(text), Arguments(arguments));
    ReadNumberExact(b, p, 8, x, p + 8);
    ReadNumberExact(b, p + 8, 8, y, p + 16);
    ReadNumberExact(b, p + 16, 8, z, p + 24);
    ReadTextExact(limits, b, p + 24, text, r);
    ReadArgumentsExact(limits, b, r, arguments, q);
    var found := ReadText(limits, b, p + 24);
    if found.Got? { ReadTextExact(limits, b, p + 24, found.value, found.next); }
  }

  function EventBytes(e: Event): Bytes { EntryBytes(e.dueTick, e.sequence, e.target, e.topic, e.arguments) }

  predicate EventFits(limits: Limits, e: Event) { EntryFits(limits, e.dueTick, e.sequence, e.target, e.topic, e.arguments) }

  function EventAt(limits: Limits, b: Bytes, p: nat): Parsed<Event> {
    var (e, p) :- EntryAt(limits, b, p);
    Got(Event(e.0, e.1, e.2, e.3, e.4), p)
  }

  lemma EventExact(limits: Limits, b: Bytes, p: nat, e: Event, q: nat)
    ensures EventAt(limits, b, p) == Got(e, q) <==> EventFits(limits, e) && q == p + |EventBytes(e)| && Stands(b, p, EventBytes(e))
  {
    hide EntryAt, EntryBytes, EntryFits;
    EntryExact(limits, b, p, e.dueTick, e.sequence, e.target, e.topic, e.arguments, q);
  }

  function CallBytes(c: Call): Bytes { EntryBytes(c.payloadId, c.timerId, c.target, c.callback, c.arguments) }

  predicate CallFits(limits: Limits, c: Call) { EntryFits(limits, c.payloadId, c.timerId, c.target, c.callback, c.arguments) }

  function CallAt(limits: Limits, b: Bytes, p: nat): Parsed<Call> {
    var (c, p) :- EntryAt(limits, b, p);
    Got(Call(c.0, c.1, c.2, c.3, c.4), p)
  }

  lemma CallExact(limits: Limits, b: Bytes, p: nat, c: Call, q: nat)
    ensures CallAt(limits, b, p) == Got(c, q) <==> CallFits(limits, c) && q == p + |CallBytes(c)| && Stands(b, p, CallBytes(c))
  {
    hide EntryAt, EntryBytes, EntryFits;
    EntryExact(limits, b, p, c.payloadId, c.timerId, c.target, c.callback, c.arguments, q);
  }

  function SubscriptionBytes(s: Subscription): Bytes {
    Little(s.id, 8) + TextBytes(s.topic) + Little(s.target, 8) + TextBytes(s.callback) + Little(FromSigned(s.priority), 4)
  }

  predicate SubscriptionFits(limits: Limits, s: Subscription) {
    LongFits(s.id) && TextFits(limits, s.topic) && LongFits(s.target) && TextFits(limits, s.callback) && InInt32(s.priority)
  }

  function SubscriptionAt(limits: Limits, b: Bytes, p: nat): Parsed<Subscription> {
    var (id, p) :- ReadNumber(b, p, 8);
    var (topic, p) :- ReadText(limits, b, p);
    var (target, p) :- ReadNumber(b, p, 8);
    var (callback, p) :- ReadText(limits, b, p);
    var (priority, p) :- ReadNumber(b, p, 4);
    Got(Subscription(id, topic, target, callback, ToSigned(priority)), p)
  }

  lemma SignedExact(b: Bytes, p: nat, n: int, q: nat)
    ensures ReadNumber(b, p, 4).Got? && ToSigned(ReadNumber(b, p, 4).value) == n && ReadNumber(b, p, 4).next == q <==>
            InInt32(n) && q == p + 4 && Stands(b, p, Little(FromSigned(n), 4))
  {
    var bits := if ReadNumber(b, p, 4).Got? then ReadNumber(b, p, 4).value else FromSigned(n);
    hide ReadNumber, Little, Stands, Pow256;
    SignsRoundTrip(n, bits);
    SignsRoundTrip(n, FromSigned(n));
    ReadNumberExact(b, p, 4, bits, q);
    ReadNumberExact(b, p, 4, FromSigned(n), q);
  }

  lemma SubscriptionExact(limits: Limits, b: Bytes, p: nat, s: Subscription, q: nat)
    ensures SubscriptionAt(limits, b, p) == Got(s, q) <==>
            SubscriptionFits(limits, s) && q == p + |SubscriptionBytes(s)| && Stands(b, p, SubscriptionBytes(s))
  {
    hide ReadNumber, Little, Stands, Pow256, ReadText, TextFits, TextBytes, ToSigned, FromSigned;
    var r1 := p + 8 + |TextBytes(s.topic)|;
    var r2 := r1 + 8 + |TextBytes(s.callback)|;
    FiveParts(b, p, Little(s.id, 8), TextBytes(s.topic), Little(s.target, 8), TextBytes(s.callback),
        Little(FromSigned(s.priority), 4));
    ReadNumberExact(b, p, 8, s.id, p + 8);
    ReadTextExact(limits, b, p + 8, s.topic, r1);
    ReadNumberExact(b, r1, 8, s.target, r1 + 8);
    ReadTextExact(limits, b, r1 + 8, s.callback, r2);
    SignedExact(b, r2, s.priority, q);
    var topic, callback := ReadText(limits, b, p + 8), ReadText(limits, b, r1 + 8);
    if topic.Got? { ReadTextExact(limits, b, p + 8, topic.value, topic.next); }
    if callback.Got? { ReadTextExact(limits, b, r1 + 8, callback.value, callback.next); }
  }

  function SequenceBytes(s: SequenceState): Bytes { Little(s.id, 8) + WriteCounted(LongBytes, s.timers) }

  predicate SequenceFits(limits: Limits, s: SequenceState) {
    LongFits(s.id) && CountFits(|s.timers|, limits.maximumTasks) && AllFit(LongFits, s.timers)
  }

  function ReadLong(b: Bytes): nat -> Parsed<nat> { (p: nat) => ReadNumber(b, p, 8) }

  function ReadWord(b: Bytes): nat -> Parsed<nat> { (p: nat) => ReadNumber(b, p, 4) }

  function SequenceAt(limits: Limits, b: Bytes, p: nat): Parsed<SequenceState> {
    var (id, p) :- ReadNumber(b, p, 8);
    var (timers, p) :- ReadCounted(b, ReadLong(b), limits.maximumTasks, p);
    Got(SequenceState(id, timers), p)
  }

  lemma NumbersAreExact(b: Bytes)
    ensures Exact(b, ReadLong(b), LongBytes, LongFits) && Exact(b, ReadWord(b), WordBytes, WordFits)
  {
    hide ReadNumber, Little, Pow256, Stands;
    forall p: nat, n: nat, q: nat
      ensures ReadLong(b)(p) == Got(n, q) <==> LongFits(n) && q == p + |LongBytes(n)| && Stands(b, p, LongBytes(n))
    {
      ReadNumberExact(b, p, 8, n, q);
    }
    forall p: nat, n: nat, q: nat
      ensures ReadWord(b)(p) == Got(n, q) <==> WordFits(n) && q == p + |WordBytes(n)| && Stands(b, p, WordBytes(n))
    {
      ReadNumberExact(b, p, 4, n, q);
    }
  }

  lemma SequenceExact(limits: Limits, b: Bytes, p: nat, s: SequenceState, q: nat)
    ensures SequenceAt(limits, b, p) == Got(s, q) <==>
            SequenceFits(limits, s) && q == p + |SequenceBytes(s)| && Stands(b, p, SequenceBytes(s))
  {
    NumbersAreExact(b);
    hide ReadNumber, Little, Stands, Pow256, ReadCounted, WriteCounted, Exact;
    StandsApart(b, p, Little(s.id, 8), WriteCounted(LongBytes, s.timers));
    ReadNumberExact(b, p, 8, s.id, p + 8);
    ReadCountedExact(b, ReadLong(b), LongBytes, LongFits, limits.maximumTasks, p + 8, s.timers, q);
  }

  // ----- the lists of a state -----

  function ReadSlot(b: Bytes): nat -> Parsed<Slot> { (p: nat) => SlotAt(b, p) }

  function ReadTask(b: Bytes): nat -> Parsed<Task> { (p: nat) => TaskAt(b, p) }

  function ReadEvent(limits: Limits, b: Bytes): nat -> Parsed<Event> { (p: nat) => EventAt(limits, b, p) }

  function ReadCall(limits: Limits, b: Bytes): nat -> Parsed<Call> { (p: nat) => CallAt(limits, b, p) }

  function ReadSubscription(limits: Limits, b: Bytes): nat -> Parsed<Subscription> { (p: nat) => SubscriptionAt(limits, b, p) }

  function ReadSequence(limits: Limits, b: Bytes): nat -> Parsed<SequenceState> { (p: nat) => SequenceAt(limits, b, p) }

  lemma SlotsExact(b: Bytes, maximum: nat, p: nat, list: seq<Slot>, q: nat)
    ensures ReadCounted(b, ReadSlot(b), maximum, p) == Got(list, q) <==>
            CountFits(|list|, maximum) && AllFit(SlotFits, list) && q == p + |WriteCounted(SlotBytes, list)| &&
            Stands(b, p, WriteCounted(SlotBytes, list))
  {
    hide SlotAt, SlotBytes, SlotFits;
    forall p: nat, x, q: nat
      ensures ReadSlot(b)(p) == Got(x, q) <==> SlotFits(x) && q == p + |SlotBytes(x)| && Stands(b, p, SlotBytes(x))
    {
      SlotExact(b, p, x, q);
    }
    assert Exact(b, ReadSlot(b), SlotBytes, SlotFits);
    ReadCountedExact(b, ReadSlot(b), SlotBytes, SlotFits, maximum, p, list, q);
  }

  lemma WordsExact(b: Bytes, maximum: nat, p: nat, list: seq<nat>, q: nat)
    ensures ReadCounted(b, ReadWord(b), maximum, p) == Got(list, q) <==>
            CountFits(|list|, maximum) && AllFit(WordFits, list) && q == p + |WriteCounted(WordBytes, list)| &&
            Stands(b, p, WriteCounted(WordBytes, list))
  {
    NumbersAreExact(b);
    ReadCountedExact(b, ReadWord(b), WordBytes, WordFits, maximum, p, list, q);
  }

  lemma TasksExact(b: Bytes, maximum: nat, p: nat, list: seq<Task>, q: nat)
    ensures ReadCounted(b, ReadTask(b), maximum, p) == Got(list, q) <==>
            CountFits(|list|, maximum) && AllFit(TaskFits, list) && q == p + |WriteCounted(TaskBytes, list)| &&
            Stands(b, p, WriteCounted(TaskBytes, list))
  {
    hide TaskAt, TaskBytes, TaskFits;
    forall p: nat, x, q: nat
      ensures ReadTask(b)(p) == Got(x, q) <==> TaskFits(x) && q == p + |TaskBytes(x)| && Stands(b, p, TaskBytes(x))
    {
      TaskExact(b, p, x, q);
    }
    assert Exact(b, ReadTask(b), TaskBytes, TaskFits);
    ReadCountedExact(b, ReadTask(b), TaskBytes, TaskFits, maximum, p, list, q);
  }

  predicate EventsFit(limits: Limits, list: seq<Event>) { forall i | 0 <= i < |list| :: EventFits(limits, list[i]) }

  lemma EventsExact(limits: Limits, b: Bytes, p: nat, list: seq<Event>, q: nat)
    ensures ReadCounted(b, ReadEvent(limits, b), limits.maximumEvents, p) == Got(list, q) <==>
            CountFits(|list|, limits.maximumEvents) && EventsFit(limits, list) && q == p + |WriteCounted(EventBytes, list)| &&
            Stands(b, p, WriteCounted(EventBytes, list))
  {
    hide EventAt, EventBytes, EventFits;
    forall p: nat, x, q: nat
      ensures ReadEvent(limits, b)(p) == Got(x, q) <==> EventFits(limits, x) && q == p + |EventBytes(x)| && Stands(b, p, EventBytes(x))
    {
      EventExact(limits, b, p, x, q);
    }
    var fits := x => EventFits(limits, x);
    assert Exact(b, ReadEvent(limits, b), EventBytes, fits);
    ReadCountedExact(b, ReadEvent(limits, b), EventBytes, fits, limits.maximumEvents, p, list, q);
    assert AllFit(fits, list) <==> EventsFit(limits, list);
  }

  predicate CallsFit(limits: Limits, list: seq<Call>) { forall i | 0 <= i < |list| :: CallFits(limits, list[i]) }

  lemma CallsExact(limits: Limits, b: Bytes, p: nat, list: seq<Call>, q: nat)
    ensures ReadCounted(b, ReadCall(limits, b), limits.maximumCalls, p) == Got(list, q) <==>
            CountFits(|list|, limits.maximumCalls) && CallsFit(limits, list) && q == p + |WriteCounted(CallBytes, list)| &&
            Stands(b, p, WriteCounted(CallBytes, list))
  {
    hide CallAt, CallBytes, CallFits;
    forall p: nat, x, q: nat
      ensures ReadCall(limits, b)(p) == Got(x, q) <==> CallFits(limits, x) && q == p + |CallBytes(x)| && Stands(b, p, CallBytes(x))
    {
      CallExact(limits, b, p, x, q);
    }
    var fits := x => CallFits(limits, x);
    assert Exact(b, ReadCall(limits, b), CallBytes, fits);
    ReadCountedExact(b, ReadCall(limits, b), CallBytes, fits, limits.maximumCalls, p, list, q);
    assert AllFit(fits, list) <==> CallsFit(limits, list);
  }

  predicate SubscriptionsFit(limits: Limits, list: seq<Subscription>) {
    forall i | 0 <= i < |list| :: SubscriptionFits(limits, list[i])
  }

  lemma SubscriptionsExact(limits: Limits, b: Bytes, p: nat, list: seq<Subscription>, q: nat)
    ensures ReadCounted(b, ReadSubscription(limits, b), limits.maximumSubscriptions, p) == Got(list, q) <==>
            CountFits(|list|, limits.maximumSubscriptions) && SubscriptionsFit(limits, list) &&
            q == p + |WriteCounted(SubscriptionBytes, list)| && Stands(b, p, WriteCounted(SubscriptionBytes, list))
  {
    hide SubscriptionAt, SubscriptionBytes, SubscriptionFits;
    forall p: nat, x, q: nat
      ensures ReadSubscription(limits, b)(p) == Got(x, q) <==>
              SubscriptionFits(limits, x) && q == p + |SubscriptionBytes(x)| && Stands(b, p, SubscriptionBytes(x))
    {
      SubscriptionExact(limits, b, p, x, q);
    }
    var fits := x => SubscriptionFits(limits, x);
    assert Exact(b, ReadSubscription(limits, b), SubscriptionBytes, fits);
    ReadCountedExact(b, ReadSubscription(limits, b), SubscriptionBytes, fits, limits.maximumSubscriptions, p, list, q);
    assert AllFit(fits, list) <==> SubscriptionsFit(limits, list);
  }

  predicate SequencesFit(limits: Limits, list: seq<SequenceState>) {
    forall i | 0 <= i < |list| :: SequenceFits(limits, list[i])
  }

  lemma SequencesExact(limits: Limits, b: Bytes, p: nat, list: seq<SequenceState>, q: nat)
    ensures ReadCounted(b, ReadSequence(limits, b), limits.maximumSequences, p) == Got(list, q) <==>
            CountFits(|list|, limits.maximumSequences) && SequencesFit(limits, list) &&
            q == p + |WriteCounted(SequenceBytes, list)| && Stands(b, p, WriteCounted(SequenceBytes, list))
  {
    hide SequenceAt, SequenceBytes, SequenceFits;
    forall p: nat, x, q: nat
      ensures ReadSequence(limits, b)(p) == Got(x, q) <==>
              SequenceFits(limits, x) && q == p + |SequenceBytes(x)| && Stands(b, p, SequenceBytes(x))
    {
      SequenceExact(limits, b, p, x, q);
    }
    var fits := x => SequenceFits(limits, x);
    assert Exact(b, ReadSequence(limits, b), SequenceBytes, fits);
    ReadCountedExact(b, ReadSequence(limits, b), SequenceBytes, fits, limits.maximumSequences, p, list, q);
    assert AllFit(fits, list) <==> SequencesFit(limits, list);
  }

  // ----- the payload -----

  function EntitiesBytes(s: SaveState): Bytes {
    WriteCounted(SlotBytes, s.slots) + WriteCounted(WordBytes, s.freeIndices) + Little(s.aliveCount, 8)
  }

  function ClockBytes(s: SaveState): Bytes {
    Little(s.ticksPerSecond, 4) + Little(s.host.tick, 8) + Little(s.accumulator, 8) + Little(s.dropped, 8) +
    (Little(s.randomState, 8) + Little(s.randomIncrement, 8))
  }

  function QueuesBytes(s: SaveState): Bytes {
    Little(s.host.scheduler.nextId, 8) + WriteCounted(TaskBytes, s.host.scheduler.tasks) +
    Little(s.host.events.nextSequence, 8) + WriteCounted(EventBytes, s.host.events.events)
  }

  function CountersBytes(s: SaveState): Bytes {
    Little(s.host.nextPayloadId, 8) + Little(s.host.nextSubscriptionId, 8) + Little(s.host.nextSequenceId, 8)
  }

  function ListsBytes(s: SaveState): Bytes {
    WriteCounted(CallBytes, s.host.calls) + WriteCounted(SubscriptionBytes, s.host.subscriptions) +
    WriteCounted(SequenceBytes, s.host.sequences)
  }

  /** writeCore and writeHost, of a state whose doubles are canonical. */
  function PayloadBytes(s: SaveState): Bytes {
    EntitiesBytes(s) + ClockBytes(s) + QueuesBytes(s) + CountersBytes(s) + ListsBytes(s)
  }

  predicate EntitiesFit(limits: Limits, s: SaveState) {
    CountFits(|s.slots|, limits.maximumEntities) && AllFit(SlotFits, s.slots) &&
    CountFits(|s.freeIndices|, limits.maximumEntities) && AllFit(WordFits, s.freeIndices) && LongFits(s.aliveCount)
  }

  predicate ClockFits(s: SaveState) {
    WordFits(s.ticksPerSecond) && LongFits(s.host.tick) && LongFits(s.accumulator) && LongFits(s.dropped) &&
    LongFits(s.randomState) && LongFits(s.randomIncrement)
  }

  predicate QueuesFit(limits: Limits, s: SaveState) {
    LongFits(s.host.scheduler.nextId) && CountFits(|s.host.scheduler.tasks|, limits.maximumTasks) &&
    AllFit(TaskFits, s.host.scheduler.tasks) && LongFits(s.host.events.nextSequence) &&
    CountFits(|s.host.events.events|, limits.maximumEvents) && EventsFit(limits, s.host.events.events)
  }

  predicate CountersFit(s: SaveState) {
    LongFits(s.host.nextPayloadId) && LongFits(s.host.nextSubscriptionId) && LongFits(s.host.nextSequenceId)
  }

  predicate ListsFit(limits: Limits, s: SaveState) {
    && CountFits(|s.host.calls|, limits.maximumCalls) && CallsFit(limits, s.host.calls)
    && CountFits(|s.host.subscriptions|, limits.maximumSubscriptions) && SubscriptionsFit(limits, s.host.subscriptions)
    && CountFits(|s.host.sequences|, limits.maximumSequences) && SequencesFit(limits, s.host.sequences)
  }

  /** Every number has its width and every count keeps to its limit. */
  predicate Encodable(limits: Limits, s: SaveState) {
    EntitiesFit(limits, s) && ClockFits(s) && QueuesFit(limits, s) && CountersFit(s) && ListsFit(limits, s)
  }

  function EntitiesAt(limits: Limits, b: Bytes, p: nat): Parsed<(seq<Slot>, seq<nat>, nat)> {
    var (slots, p) :- ReadCounted(b, ReadSlot(b), limits.maximumEntities, p);
    var (freeIndices, p) :- ReadCounted(b, ReadWord(b), limits.maximumEntities, p);
    var (aliveCount, p) :- ReadNumber(b, p, 8);
    Got((slots, freeIndices, aliveCount), p)
  }

  function ClockAt(b: Bytes, p: nat): Parsed<(nat, nat, nat, nat, nat, nat)> {
    var (ticksPerSecond, p) :- ReadNumber(b, p, 4);
    var (tick, p) :- ReadNumber(b, p, 8);
    var (accumulator, p) :- ReadNumber(b, p, 8);
    var (dropped, p) :- ReadNumber(b, p, 8);
    var (randomState, p) :- ReadNumber(b, p, 8);
    var (randomIncrement, p) :- ReadNumber(b, p, 8);
    Got((ticksPerSecond, tick, accumulator, dropped, randomState, randomIncrement), p)
  }

  function QueuesAt(limits: Limits, b: Bytes, p: nat): Parsed<(SchedulerState, EventState)> {
    var (nextId, p) :- ReadNumber(b, p, 8);
    var (tasks, p) :- ReadCounted(b, ReadTask(b), limits.maximumTasks, p);
    var (nextSequence, p) :- ReadNumber(b, p, 8);
    var (events, p) :- ReadCounted(b, ReadEvent(limits, b), limits.maximumEvents, p);
    Got((SchedulerState(nextId, tasks), EventState(nextSequence, events)), p)
  }

  function CountersAt(b: Bytes, p: nat): Parsed<(nat, nat, nat)> {
    var (payload, p) :- ReadNumber(b, p, 8);
    var (subscription, p) :- ReadNumber(b, p, 8);
    var (sequence, p) :- ReadNumber(b, p, 8);
    Got((payload, subscription, sequence), p)
  }

  function ListsAt(limits: Limits, b: Bytes, p: nat): Parsed<(seq<Call>, seq<Subscription>, seq<SequenceState>)> {
    var (calls, p) :- ReadCounted(b, ReadCall(limits, b), limits.maximumCalls, p);
    var (subscriptions, p) :- ReadCounted(b, ReadSubscription(limits, b), limits.maximumSubscriptions, p);
    var (sequences, p) :- ReadCounted(b, ReadSequence(limits, b), limits.maximumSequences, p);
    Got((calls, subscriptions, sequences), p)
  }

  /** readCore and readHost. */
  function PayloadAt(limits: Limits, b: Bytes, p: nat): Parsed<SaveState> {
    var (entities, p) :- EntitiesAt(limits, b, p);
    var (clock, p) :- ClockAt(b, p);
    var (queues, p) :- QueuesAt(limits, b, p);
    var (counters, p) :- CountersAt(b, p);
    var (lists, p) :- ListsAt(limits, b, p);
    Got(SaveState(
          entities.0, entities.1, entities.2, clock.0, clock.2, clock.3, clock.4, clock.5,
          HostSnapshot(queues.0, queues.1, clock.1, counters.0, counters.1, counters.2, lists.0, lists.1, lists.2)), p)
  }

  lemma EntitiesExact(limits: Limits, b: Bytes, p: nat, s: SaveState, q: nat)
    ensures EntitiesAt(limits, b, p) == Got((s.slots, s.freeIndices, s.aliveCount), q) <==>
            EntitiesFit(limits, s) && q == p + |EntitiesBytes(s)| && Stands(b, p, EntitiesBytes(s))
  {
    hide ReadNumber, Little, Stands, Pow256, ReadCounted, WriteCounted, AllFit;
    var x, y := WriteCounted(SlotBytes, s.slots), WriteCounted(WordBytes, s.freeIndices);
    StandsApart(b, p, x + y, Little(s.aliveCount, 8));
    StandsApart(b, p, x, y);
    SlotsExact(b, limits.maximumEntities, p, s.slots, p + |x|);
    WordsExact(b, limits.maximumEntities, p + |x|, s.freeIndices, p + |x| + |y|);
    ReadNumberExact(b, p + |x| + |y|, 8, s.aliveCount, q);
    var first := ReadCounted(b, ReadSlot(b), limits.maximumEntities, p);
    if first.Got? {
      SlotsExact(b, limits.maximumEntities, p, first.value, first.next);
      var second := ReadCounted(b, ReadWord(b), limits.maximumEntities, first.next);
      if second.Got? { WordsExact(b, limits.maximumEntities, first.next, second.value, second.next); }
    }
  }

  lemma ClockExact(b: Bytes, p: nat, s: SaveState, q: nat)
    ensures ClockAt(b, p) == Got((s.ticksPerSecond, s.host.tick, s.accumulator, s.dropped, s.randomState, s.randomIncrement), q) <==>
            ClockFits(s) && q == p + |ClockBytes(s)| && Stands(b, p, ClockBytes(s))
  {
    hide ReadNumber, Little, Stands, Pow256;
    var x, y := Little(s.randomState, 8), Little(s.randomIncrement, 8);
    FiveParts(b, p, Little(s.ticksPerSecond, 4), Little(s.host.tick, 8), Little(s.accumulator, 8), Little(s.dropped, 8), x + y);
    StandsApart(b, p + 28, x, y);
    ReadNumberExact(b, p, 4, s.ticksPerSecond, p + 4);
    ReadNumberExact(b, p + 4, 8, s.host.tick, p + 12);
    ReadNumberExact(b, p + 12, 8, s.accumulator, p + 20);
    ReadNumberExact(b, p + 20, 8, s.dropped, p + 28);
    ReadNumberExact(b, p + 28, 8, s.randomState, p + 36);
    ReadNumberExact(b, p + 36, 8, s.randomIncrement, p + 44);
  }

  lemma QueuesExact(limits: Limits, b: Bytes, p: nat, s: SaveState, q: nat)
    ensures QueuesAt(limits, b, p) == Got((s.host.scheduler, s.host.events), q) <==>
            QueuesFit(limits, s) && q == p + |QueuesBytes(s)| && Stands(b, p, QueuesBytes(s))
  {
    hide ReadNumber, Little, Stands, Pow256, ReadCounted, WriteCounted, AllFit, EventsFit;
    var tasks, events := s.host.scheduler.tasks, s.host.events.events;
    var x, y := WriteCounted(TaskBytes, tasks), WriteCounted(EventBytes, events);
    var n, m := Little(s.host.scheduler.nextId, 8), Little(s.host.events.nextSequence, 8);
    var r := p + 8 + |x|;
    StandsApart(b, p, n + x + m, y);
    StandsApart(b, p, n + x, m);
    StandsApart(b, p, n, x);
    ReadNumberExact(b, p, 8, s.host.scheduler.nextId, p + 8);
    TasksExact(b, limits.maximumTasks, p + 8, tasks, r);
    ReadNumberExact(b, r, 8, s.host.events.nextSequence, r + 8);
    EventsExact(limits, b, r + 8, events, q);
    var found := ReadCounted(b, ReadTask(b), limits.maximumTasks, p + 8);
    if found.Got? { TasksExact(b, limits.maximumTasks, p + 8, found.value, found.next); }
  }

  lemma CountersExact(b: Bytes, p: nat, s: SaveState, q: nat)
    ensures CountersAt(b, p) == Got((s.host.nextPayloadId, s.host.nextSubscriptionId, s.host.nextSequenceId), q) <==>
            CountersFit(s) && q == p + |CountersBytes(s)| && Stands(b, p, CountersBytes(s))
  {
    hide ReadNumber, Little, Stands, Pow256;
    var x, y, z := Little(s.host.nextPayloadId, 8), Little(s.host.nextSubscriptionId, 8), Little(s.host.nextSequenceId, 8);
    StandsApart(b, p, x + y, z);
    StandsApart(b, p, x, y);
    ReadNumberExact(b, p, 8, s.host.nextPayloadId, p + 8);
    ReadNumberExact(b, p + 8, 8, s.host.nextSubscriptionId, p + 16);
    ReadNumberExact(b, p + 16, 8, s.host.nextSequenceId, p + 24);
  }

  lemma ListsExact(limits: Limits, b: Bytes, p: nat, s: SaveState, q: nat)
    ensures ListsAt(limits, b, p) == Got((s.host.calls, s.host.subscriptions, s.host.sequences), q) <==>
            ListsFit(limits, s) && q == p + |ListsBytes(s)| && Stands(b, p, ListsBytes(s))
  {
    hide Stands, ReadCounted, WriteCounted, CallsFit, SubscriptionsFit, SequencesFit, Pow256;
    var x, y, z := WriteCounted(CallBytes, s.host.calls), WriteCounted(SubscriptionBytes, s.host.subscriptions),
                   WriteCounted(SequenceBytes, s.host.sequences);
    StandsApart(b, p, x + y, z);
    StandsApart(b, p, x, y);
    CallsExact(limits, b, p, s.host.calls, p + |x|);
    SubscriptionsExact(limits, b, p + |x|, s.host.subscriptions, p + |x| + |y|);
    SequencesExact(limits, b, p + |x| + |y|, s.host.sequences, q);
    var first := ReadCounted(b, ReadCall(limits, b), limits.maximumCalls, p);
    if first.Got? {
      CallsExact(limits, b, p, first.value, first.next);
      var second := ReadCounted(b, ReadSubscription(limits, b), limits.maximumSubscriptions, first.next);
      if second.Got? { SubscriptionsExact(limits, b, first.next, second.value, second.next); }
    }
  }

  /** Reading finds a state exactly where the bytes written for it stand. */
  lemma PayloadExact(limits: Limits, b: Bytes, p: nat, s: SaveState, q: nat)
    ensures PayloadAt(limits, b, p) == Got(s, q) <==> Encodable(limits, s) && q == p + |PayloadBytes(s)| && Stands(b, p, PayloadBytes(s))
  {
    hide Stands, EntitiesAt, ClockAt, QueuesAt, CountersAt, ListsAt, EntitiesBytes, ClockBytes, QueuesBytes,
        CountersBytes, ListsBytes,
      EntitiesFit, ClockFits, QueuesFit, CountersFit, ListsFit;
    FiveParts(b, p, EntitiesBytes(s), ClockBytes(s), QueuesBytes(s), CountersBytes(s), ListsBytes(s));
    var r1 := p + |EntitiesBytes(s)|;
    var r2 := r1 + |ClockBytes(s)|;
    var r3 := r2 + |QueuesBytes(s)|;
    var r4 := r3 + |CountersBytes(s)|;
    EntitiesExact(limits, b, p, s, r1);
    ClockExact(b, r1, s, r2);
    QueuesExact(limits, b, r2, s, r3);
    CountersExact(b, r3, s, r4);
    ListsExact(limits, b, r4, s, q);
    if PayloadAt(limits, b, p) == Got(s, q) {
      var e := EntitiesAt(limits, b, p);
      EntitiesExact(limits, b, p, s, e.next);
      var c := ClockAt(b, r1);
      ClockExact(b, r1, s, c.next);
      var u := QueuesAt(limits, b, r2);
      QueuesExact(limits, b, r2, s, u.next);
      var n := CountersAt(b, r3);
      CountersExact(b, r3, s, n.next);
    }
  }
}
