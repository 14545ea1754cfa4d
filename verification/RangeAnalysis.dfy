/** The worklist of analyzeTypedIntegerRanges (src/aot_cpp/AotCpp.cpp:361-705): it ends on every
    control-flow graph, and what it returns is decided by a fixpoint. */
module RangeAnalysis {
  import opened Scalars
  import opened Mir
  import opened AotSemantics
  import opened TypedRanges
  import Ssa

  // ----- widening thresholds -----

  predicate Sorted(s: seq<int>) { forall i, j :: 0 <= i < j < |s| ==> s[i] < s[j] }

  /** std::set insertion, the set being its sorted sequence. */
  function Insert(s: seq<int>, x: int): (r: seq<int>)
    requires Sorted(s)
    ensures Sorted(r) && forall y :: y in r <==> y in s || y == x
  {
    if |s| == 0 then [x]
    else if s[0] == x then s
    else if x < s[0] then [x] + s
    else
      var tail := Insert(s[1..], x);
      assert s == [s[0]] + s[1..];
      assert forall y :: y in [s[0]] + tail <==> y == s[0] || y in s[1..] || y == x;
      assert forall j :: 0 <= j < |tail| ==> tail[j] in tail;
      [s[0]] + tail
  }

  function Clamp(n: int): int { if n < INT_MIN then INT_MIN else if n > INT_MAX then INT_MAX else n }

  predicate NearConstant(i: Instruction, x: int) {
    i.opcode.ConstantInt? && InInt32(x) && Clamp(i.integerImmediate) - 1 <= x <= Clamp(i.integerImmediate) + 1
  }

  /** x is a constant of the first k instructions, or next to one. */
  ghost predicate NearOneOf(instructions: seq<Instruction>, k: nat, x: int)
    requires k <= |instructions|
  {
    exists j :: 0 <= j < k && NearConstant(instructions[j], x)
  }

  ghost predicate NearBefore(f: Function, b: nat, x: int)
    requires b <= |f.blocks|
  {
    exists c :: 0 <= c < b && NearOneOf(f.blocks[c].instructions, |f.blocks[c].instructions|, x)
  }

  ghost predicate IsThreshold(f: Function, x: int) {
    x == INT_MIN || x == 0 || x == INT_MAX || NearBefore(f, |f.blocks|, x)
  }

  lemma NearOneMore(instructions: seq<Instruction>, k: nat, x: int)
    requires k < |instructions|
    ensures NearOneOf(instructions, k + 1, x) <==> NearOneOf(instructions, k, x) || NearConstant(instructions[k], x)
  {
    hide NearConstant;
  }

  lemma NearOneMoreBlock(f: Function, b: nat, x: int)
    requires b < |f.blocks|
    ensures NearBefore(f, b + 1, x) <==>
            NearBefore(f, b, x) || NearOneOf(f.blocks[b].instructions, |f.blocks[b].instructions|, x)
  {
    hide NearOneOf;
  }

  method BuildThresholds(f: Function) returns (th: seq<int>)
    ensures Sorted(th) && forall x :: x in th <==> IsThreshold(f, x)
  {
    th := Insert(Insert(Insert([], INT_MIN), 0), INT_MAX);
    for b := 0 to |f.blocks|
      invariant Sorted(th)
      invariant forall x :: x in th <==> (x == INT_MIN || x == 0 || x == INT_MAX || NearBefore(f, b, x))
    {
      hide NearOneOf, NearBefore, NearConstant;
      ghost var before := th;
      th := AddConstants(f.blocks[b].instructions, th);
      forall x ensures x in th <==> (x == INT_MIN || x == 0 || x == INT_MAX || NearBefore(f, b + 1, x)) {
        NearOneMoreBlock(f, b, x);
      }
    }
  }

  /** The inner loop: each constant and its neighbours. */
  method AddConstants(instructions: seq<Instruction>, before: seq<int>) returns (th: seq<int>)
    requires Sorted(before)
    ensures Sorted(th) && forall x :: x in th <==> x in before || NearOneOf(instructions, |instructions|, x)
  {
    th := before;
    for k := 0 to |instructions|
      invariant Sorted(th)
      invariant forall x :: x in th <==> x in before || NearOneOf(instructions, k, x)
    {
      hide NearOneOf;
      ghost var sofar := th;
      if instructions[k].opcode.ConstantInt? {
        var value := Clamp(instructions[k].integerImmediate);
        th := Insert(th, value);
        if value > INT_MIN { th := Insert(th, value - 1); }
        if value < INT_MAX { th := Insert(th, value + 1); }
      }
      forall x ensures x in th <==> x in before || NearOneOf(instructions, k + 1, x) {
        assert x in th <==> x in sofar || NearConstant(instructions[k], x);
        NearOneMore(instructions, k, x);
      }
    }
  }

  /** std::upper_bound: the first index whose element is greater than x. */
  function UpperBound(s: seq<int>, x: int): (i: nat)
    ensures i <= |s| && (forall j :: 0 <= j < i ==> s[j] <= x) && (i < |s| ==> s[i] > x)
  {
    if |s| == 0 || s[0] > x then 0
    else
      var rest := UpperBound(s[1..], x);
      assert forall j :: 1 <= j < |s| ==> s[j] == s[1..][j - 1];
      rest + 1
  }

  /** std::lower_bound: the first index whose element is not less than x. */
  function LowerBound(s: seq<int>, x: int): (i: nat)
    ensures i <= |s| && (forall j :: 0 <= j < i ==> s[j] < x) && (i < |s| ==> s[i] >= x)
  {
    if |s| == 0 || s[0] >= x then 0
    else
      var rest := LowerBound(s[1..], x);
      assert forall j :: 1 <= j < |s| ==> s[j] == s[1..][j - 1];
      rest + 1
  }

  function WidenedMinimum(th: seq<int>, minimum: int): int {
    var i := UpperBound(th, minimum);
    if i == 0 then INT_MIN else th[i - 1]
  }

  function WidenedMaximum(th: seq<int>, maximum: int): int {
    var i := LowerBound(th, maximum);
    if i == |th| then INT_MAX else th[i]
  }

  ghost predicate GoodThresholds(th: seq<int>) {
    Sorted(th) && INT_MIN in th && INT_MAX in th && forall x :: x in th ==> InInt32(x)
  }

  lemma WideningCovers(th: seq<int>, n: int)
    requires GoodThresholds(th) && InInt32(n)
    ensures INT_MIN <= WidenedMinimum(th, n) <= n <= WidenedMaximum(th, n) <= INT_MAX
    ensures WidenedMinimum(th, n) in th && WidenedMaximum(th, n) in th
  {
    var u, l := UpperBound(th, n), LowerBound(th, n);
    var j :| 0 <= j < |th| && th[j] == INT_MIN;
    assert u > 0;
    var k :| 0 <= k < |th| && th[k] == INT_MAX;
    assert l < |th|;
  }

  // ----- how much room a bound has left -----

  function CountBelow(th: seq<int>, x: int): nat {
    if |th| == 0 then 0 else CountBelow(th[..|th| - 1], x) + if th[|th| - 1] < x then 1 else 0
  }

  function CountAbove(th: seq<int>, x: int): nat {
    if |th| == 0 then 0 else CountAbove(th[..|th| - 1], x) + if th[|th| - 1] > x then 1 else 0
  }

  lemma {:induction false} CountsShrink(th: seq<int>, x: int, y: int)
    requires x <= y
    ensures CountBelow(th, x) <= CountBelow(th, y) && CountAbove(th, y) <= CountAbove(th, x)
    ensures x < y && x in th ==> CountBelow(th, x) < CountBelow(th, y)
    ensures x < y && y in th ==> CountAbove(th, y) < CountAbove(th, x)
  {
    if |th| > 0 {
      assert forall z :: z in th <==> z in th[..|th| - 1] || z == th[|th| - 1];
      CountsShrink(th[..|th| - 1], x, y);
    }
  }

  /** Plain updates left before widening starts. */
  function UpdatesLeft(updates: nat): nat { if updates >= 8 then 0 else 8 - updates }

  function Room(th: seq<int>, r: Range, lower: nat, upper: nat): nat {
    UpdatesLeft(lower) + CountBelow(th, r.min) + UpdatesLeft(upper) + CountAbove(th, r.max)
  }

  function BlockRoom(th: seq<int>, ranges: seq<Range>, lower: seq<nat>, upper: seq<nat>, n: nat): nat
    requires n <= |ranges| && n <= |lower| && n <= |upper|
  {
    if n == 0 then 0
    else BlockRoom(th, ranges, lower, upper, n - 1) + Room(th, ranges[n - 1], lower[n - 1], upper[n - 1])
  }

  // ----- the state of the worklist -----

  datatype Analysis = Analysis(
    entryLocals: seq<seq<Range>>, hasEntry: seq<bool>,
    lowerUpdates: seq<seq<nat>>, upperUpdates: seq<seq<nat>>,
    worklist: seq<nat>, queued: seq<bool>)

  predicate Proper(r: Range) { INT_MIN <= r.min <= r.max <= INT_MAX }

  predicate Inside(small: Range, large: Range) { large.min <= small.min && small.max <= large.max }

  ghost predicate ProperLocals(f: Function, locals: seq<Range>) {
    |locals| == |f.localTypes| &&
    forall s :: 0 <= s < |locals| && f.localTypes[s].Int? ==> Proper(locals[s])
  }

  ghost predicate Shaped(f: Function, a: Analysis) {
    && |a.entryLocals| == |a.hasEntry| == |a.lowerUpdates| == |a.upperUpdates| == |a.queued| == |f.blocks|
    && (forall b :: 0 <= b < |f.blocks| ==>
          |a.lowerUpdates[b]| == |a.upperUpdates[b]| == |f.localTypes| && ProperLocals(f, a.entryLocals[b]))
    && (forall j :: 0 <= j < |a.worklist| ==> a.worklist[j] < |f.blocks| && a.hasEntry[a.worklist[j]])
  }

  function Unentered(has: seq<bool>): nat {
    if |has| == 0 then 0 else Unentered(has[..|has| - 1]) + if has[|has| - 1] then 0 else 1
  }

  lemma {:induction false} EnteringCounts(has: seq<bool>, b: nat)
    requires b < |has| && !has[b]
    ensures Unentered(has[b := true]) < Unentered(has)
  {
    var n := |has| - 1;
    if b == n {
      assert has[b := true][..n] == has[..n];
    } else {
      assert has[b := true][..n] == has[..n][b := true];
      EnteringCounts(has[..n], b);
    }
  }

  function TotalRoom(f: Function, th: seq<int>, a: Analysis, n: nat): nat
    requires Shaped(f, a) && n <= |f.blocks|
  {
    if n == 0 then 0
    else TotalRoom(f, th, a, n - 1) +
         BlockRoom(th, a.entryLocals[n - 1], a.lowerUpdates[n - 1], a.upperUpdates[n - 1], |f.localTypes|)
  }

  ghost predicate SameElsewhere(f: Function, a: Analysis, r: Analysis, b: nat)
    requires Shaped(f, a) && Shaped(f, r)
  {
    forall c :: 0 <= c < |f.blocks| && c != b ==>
      r.entryLocals[c] == a.entryLocals[c] && r.hasEntry[c] == a.hasEntry[c] && r.queued[c] == a.queued[c] &&
      r.lowerUpdates[c] == a.lowerUpdates[c] && r.upperUpdates[c] == a.upperUpdates[c]
  }

  lemma {:induction false} TotalRoomDrops(f: Function, th: seq<int>, a: Analysis, r: Analysis, b: nat, n: nat)
    requires Shaped(f, a) && Shaped(f, r) && SameElsewhere(f, a, r, b) && b < |f.blocks| && n <= |f.blocks|
    requires BlockRoom(th, r.entryLocals[b], r.lowerUpdates[b], r.upperUpdates[b], |f.localTypes|)
           < BlockRoom(th, a.entryLocals[b], a.lowerUpdates[b], a.upperUpdates[b], |f.localTypes|)
    ensures if b < n then TotalRoom(f, th, r, n) < TotalRoom(f, th, a, n)
            else TotalRoom(f, th, r, n) == TotalRoom(f, th, a, n)
  {
    if n > 0 { TotalRoomDrops(f, th, a, r, b, n - 1); }
  }

  // ----- merging into a block's entry -----

  ghost predicate Within(f: Function, small: seq<Range>, large: seq<Range>) {
    |small| == |large| == |f.localTypes| &&
    forall s :: 0 <= s < |small| && f.localTypes[s].Int? ==> Inside(small[s], large[s])
  }

  ghost predicate Covers(f: Function, a: Analysis, b: int, locals: seq<Range>)
    requires Shaped(f, a)
  {
    0 <= b < |f.blocks| && a.hasEntry[b] && Within(f, locals, a.entryLocals[b])
  }

  function Bump(updates: nat): nat { if updates != 255 then updates + 1 else updates }

  datatype Slot = Slot(range: Range, lower: nat, upper: nat)

  /** What mergeEntry does to one slot (AotCpp.cpp:441-475). */
  function MergeSlot(th: seq<int>, s: Slot, incoming: Range): Slot {
    var minimum := Least(s.range.min, incoming.min);
    var maximum := Max(s.range.max, incoming.max);
    var lower := if minimum < s.range.min then Bump(s.lower) else s.lower;
    var upper := if maximum > s.range.max then Bump(s.upper) else s.upper;
    Slot(Range(if minimum < s.range.min && lower > 8 then WidenedMinimum(th, minimum) else minimum,
               if maximum > s.range.max && upper > 8 then WidenedMaximum(th, maximum) else maximum),
         lower, upper)
  }

  lemma MergeSlotSound(th: seq<int>, s: Slot, incoming: Range)
    requires GoodThresholds(th) && Proper(s.range) && Proper(incoming)
    ensures var r := MergeSlot(th, s, incoming);
            Proper(r.range) && r.range.min <= s.range.min && s.range.max <= r.range.max &&
            r.range.min <= incoming.min && incoming.max <= r.range.max
    ensures var r := MergeSlot(th, s, incoming);
            Room(th, r.range, r.lower, r.upper) <= Room(th, s.range, s.lower, s.upper) &&
            (r.range != s.range ==> Room(th, r.range, r.lower, r.upper) < Room(th, s.range, s.lower, s.upper)) &&
            (r.range == s.range ==> r == s)
  {
    hide CountBelow, CountAbove, WidenedMinimum, WidenedMaximum, GoodThresholds;
    var r := MergeSlot(th, s, incoming);
    WideningCovers(th, Least(s.range.min, incoming.min));
    WideningCovers(th, Max(s.range.max, incoming.max));
    CountsShrink(th, r.range.min, s.range.min);
    CountsShrink(th, s.range.max, r.range.max);
  }

  /** The effect of one merge, as its callers see it. */
  ghost predicate Merged(f: Function, th: seq<int>, a: Analysis, r: Analysis, b: int, incoming: seq<Range>) {
    && Shaped(f, a) && Shaped(f, r)
    && if b < 0 then r == a
       else
         && b < |f.blocks|
         && SameElsewhere(f, a, r, b)
         && Covers(f, r, b, incoming)
         && (a.hasEntry[b] ==> Within(f, a.entryLocals[b], r.entryLocals[b]))
         && (r == a || r.queued[b])
         && (a.queued[b] ==> r.queued[b])
         && r.worklist == (if r.queued[b] && !a.queued[b] then a.worklist + [b] else a.worklist)
         && (if a.hasEntry[b]
             then r.hasEntry == a.hasEntry &&
                  (r == a || TotalRoom(f, th, r, |f.blocks|) < TotalRoom(f, th, a, |f.blocks|))
             else Unentered(r.hasEntry) < Unentered(a.hasEntry))
  }

  function Enqueue(a: Analysis, b: nat): Analysis
    requires b < |a.queued|
  {
    if a.queued[b] then a else a.(queued := a.queued[b := true], worklist := a.worklist + [b])
  }

  /** The slots of one block: their ranges and update counters. */
  datatype Slots = Slots(ranges: seq<Range>, lower: seq<nat>, upper: seq<nat>)

  ghost predicate SlotsShaped(f: Function, s: Slots) {
    ProperLocals(f, s.ranges) && |s.lower| == |s.upper| == |f.localTypes|
  }

  function SlotsRoom(th: seq<int>, s: Slots, n: nat): nat
    requires n <= |s.ranges| && n <= |s.lower| && n <= |s.upper|
  {
    BlockRoom(th, s.ranges, s.lower, s.upper, n)
  }

  /** The first n slots are merged and the others untouched; room is lost where a slot changed. */
  ghost predicate MergedUpTo(f: Function, th: seq<int>, before: Slots, now: Slots, incoming: seq<Range>, n: nat, changed: bool)
    requires SlotsShaped(f, before) && SlotsShaped(f, now) && n <= |f.localTypes| && |incoming| == |f.localTypes|
  {
    && (forall t :: n <= t < |f.localTypes| ==>
          now.ranges[t] == before.ranges[t] && now.lower[t] == before.lower[t] && now.upper[t] == before.upper[t])
    && (forall t :: 0 <= t < n && f.localTypes[t].Int? ==>
          Inside(before.ranges[t], now.ranges[t]) && Inside(incoming[t], now.ranges[t]))
    && (!changed ==> now == before)
    && (changed ==> SlotsRoom(th, now, n) < SlotsRoom(th, before, n))
  }

  function MergeOne(th: seq<int>, s: Slots, t: nat, incoming: Range): Slots
    requires t < |s.ranges| && t < |s.lower| && t < |s.upper|
  {
    var next := MergeSlot(th, Slot(s.ranges[t], s.lower[t], s.upper[t]), incoming);
    Slots(s.ranges[t := next.range], s.lower[t := next.lower], s.upper[t := next.upper])
  }

  lemma MergeOneExtends(
    f: Function, th: seq<int>, before: Slots, now: Slots, incoming: seq<Range>, n: nat, changed: bool)
    requires GoodThresholds(th) && ProperLocals(f, incoming)
    requires SlotsShaped(f, before) && SlotsShaped(f, now) && n < |f.localTypes|
    requires MergedUpTo(f, th, before, now, incoming, n, changed)
    ensures var next := if f.localTypes[n].Int? then MergeOne(th, now, n, incoming[n]) else now;
            SlotsShaped(f, next) &&
            MergedUpTo(f, th, before, next, incoming, n + 1, changed || next.ranges[n] != now.ranges[n])
  {
    var next := if f.localTypes[n].Int? then MergeOne(th, now, n, incoming[n]) else now;
    if f.localTypes[n].Int? {
      MergeSlotSound(th, Slot(now.ranges[n], now.lower[n], now.upper[n]), incoming[n]);
    }
    RoomOfPrefix(th, now.ranges, now.lower, now.upper, next.ranges, next.lower, next.upper, n);
    if !changed && next.ranges[n] == now.ranges[n] {
      assert next == now;
    }
  }

  /** The first n int slots merged one after the other. */
  ghost function MergedSlots(f: Function, th: seq<int>, slots: Slots, incoming: seq<Range>, n: nat): (r: Slots)
    requires n <= |f.localTypes| == |incoming| == |slots.ranges| == |slots.lower| == |slots.upper|
    ensures |r.ranges| == |r.lower| == |r.upper| == |f.localTypes|
    decreases n
  {
    if n == 0 then slots
    else
      var before := MergedSlots(f, th, slots, incoming, n - 1);
      if f.localTypes[n - 1].Int? then MergeOne(th, before, n - 1, incoming[n - 1]) else before
  }

  /** The widening loop over one block's slots. */
  method MergeSlots(f: Function, th: seq<int>, slots: Slots, incoming: seq<Range>)
    returns (merged: Slots, changed: bool)
    requires GoodThresholds(th) && SlotsShaped(f, slots) && ProperLocals(f, incoming)
    ensures SlotsShaped(f, merged) && MergedUpTo(f, th, slots, merged, incoming, |incoming|, changed)
    ensures merged == MergedSlots(f, th, slots, incoming, |incoming|)
  {
    merged, changed := slots, false;
    for s := 0 to |incoming|
      invariant SlotsShaped(f, merged) && MergedUpTo(f, th, slots, merged, incoming, s, changed)
      invariant merged == MergedSlots(f, th, slots, incoming, s)
    {
      MergeOneExtends(f, th, slots, merged, incoming, s, changed);
      if f.localTypes[s].Int? {
        var next := MergeOne(th, merged, s, incoming[s]);
        if next.ranges[s] != merged.ranges[s] { changed := true; }
        merged := next;
      }
    }
  }

  lemma {:induction false} RoomOfPrefix(
    th: seq<int>, r: seq<Range>, l: seq<nat>, u: seq<nat>, r': seq<Range>, l': seq<nat>, u': seq<nat>, n: nat)
    requires n <= |r| == |l| == |u| == |r'| == |l'| == |u'|
    requires forall s :: 0 <= s < n ==> r[s] == r'[s] && l[s] == l'[s] && u[s] == u'[s]
    ensures BlockRoom(th, r, l, u, n) == BlockRoom(th, r', l', u', n)
  {
    if n > 0 { RoomOfPrefix(th, r, l, u, r', l', u', n - 1); }
  }

  lemma FirstMerge(f: Function, th: seq<int>, a: Analysis, b: nat, incoming: seq<Range>)
    requires Shaped(f, a) && ProperLocals(f, incoming) && b < |f.blocks| && !a.hasEntry[b]
    ensures Merged(f, th, a,
              Enqueue(a.(entryLocals := a.entryLocals[b := incoming], hasEntry := a.hasEntry[b := true]), b), b, incoming)
  {
    EnteringCounts(a.hasEntry, b);
  }

  function SlotsOf(a: Analysis, b: nat): Slots
    requires b < |a.entryLocals| == |a.lowerUpdates| == |a.upperUpdates|
  {
    Slots(a.entryLocals[b], a.lowerUpdates[b], a.upperUpdates[b])
  }

  function WithSlots(a: Analysis, b: nat, s: Slots): Analysis
    requires b < |a.entryLocals| == |a.lowerUpdates| == |a.upperUpdates|
  {
    a.(entryLocals := a.entryLocals[b := s.ranges], lowerUpdates := a.lowerUpdates[b := s.lower],
       upperUpdates := a.upperUpdates[b := s.upper])
  }

  lemma LaterMerge(f: Function, th: seq<int>, a: Analysis, b: nat, incoming: seq<Range>, merged: Slots)
    requires Shaped(f, a) && ProperLocals(f, incoming) && b < |f.blocks| && a.hasEntry[b] && SlotsShaped(f, merged)
    requires MergedUpTo(f, th, SlotsOf(a, b), merged, incoming, |incoming|, true)
    ensures Merged(f, th, a, Enqueue(WithSlots(a, b, merged), b), b, incoming)
  {
    var r := Enqueue(WithSlots(a, b, merged), b);
    assert Shaped(f, r) && SameElsewhere(f, a, r, b);
    TotalRoomDrops(f, th, a, r, b, |f.blocks|);
  }

  /** What a merge leaves, to the last counter. */
  ghost predicate MergesInto(f: Function, th: seq<int>, a: Analysis, r: Analysis, b: int, incoming: seq<Range>)
    requires Shaped(f, a) && |incoming| == |f.localTypes| && b < |f.blocks|
  {
    if b < 0 then r == a
    else if !a.hasEntry[b] then
      r == Enqueue(a.(entryLocals := a.entryLocals[b := incoming], hasEntry := a.hasEntry[b := true]), b)
    else
      var merged := MergedSlots(f, th, SlotsOf(a, b), incoming, |incoming|);
      r == if merged == SlotsOf(a, b) then a else Enqueue(WithSlots(a, b, merged), b)
  }

  /** mergeEntry (AotCpp.cpp:424-477). */
  method MergeEntry(f: Function, th: seq<int>, target: nat, incoming: seq<Range>, a: Analysis) returns (r: Analysis)
    requires GoodThresholds(th) && Shaped(f, a) && ProperLocals(f, incoming)
    ensures Merged(f, th, a, r, BlockIndex(f, target), incoming)
    ensures MergesInto(f, th, a, r, BlockIndex(f, target), incoming)
  {
    hide MergedSlots;
    var b := BlockIndex(f, target);
    if b < 0 { return a; }
    if !a.hasEntry[b] {
      FirstMerge(f, th, a, b, incoming);
      return Enqueue(a.(entryLocals := a.entryLocals[b := incoming], hasEntry := a.hasEntry[b := true]), b);
    }
    var merged, changed := MergeSlots(f, th, SlotsOf(a, b), incoming);
    if changed {
      LaterMerge(f, th, a, b, incoming, merged);
      return Enqueue(WithSlots(a, b, merged), b);
    }
    return a;
  }

  // ----- ranges stay proper, and grow with the entry -----

  ghost predicate ProperState(f: Function, a: State) {
    && ProperLocals(f, a.locals) && |a.versions| == |f.localTypes|
    && |a.values| == |a.origins| == RegisterCount(f)
    && (forall v :: 0 <= v < |a.values| && TypeOf(f, v).Int? ==> Proper(a.values[v]))
  }

  ghost predicate WithinState(f: Function, small: State, large: State) {
    && Within(f, small.locals, large.locals) && |small.values| == |large.values|
    && (forall v :: 0 <= v < |small.values| && TypeOf(f, v).Int? ==>
          Inside(small.values[v], large.values[v]))
  }

  lemma ArithmeticGrows(op: Opcode, l: Range, r: Range, l': Range, r': Range)
    requires Elidable(op) && Proper(l) && Inside(l, l') && (op.NegateInt? || (Proper(r) && Inside(r, r')))
    ensures Inside(ArithmeticRange(op, l, r), ArithmeticRange(op, l', r'))
    ensures ArithmeticRange(op, l, r).min <= ArithmeticRange(op, l, r).max
  {
    if op.MultiplyInt? {
      ProductBetween(l', r', l.min, r.min);
      ProductBetween(l', r', l.min, r.max);
      ProductBetween(l', r', l.max, r.min);
      ProductBetween(l', r', l.max, r.max);
    }
  }

  lemma IntOperandsProper(f: Function, i: Instruction, a: State, u: nat)
    requires InstructionTyped(f, i) && ProperState(f, a) && u < |i.operands| && TypeOf(f, i.operands[u]).Int?
    ensures Proper(OperandRange(i, a, u))
  {
  }

  lemma ProperPut(f: Function, a: State, v: ValueId, r: Range, o: Origin)
    requires ProperState(f, a) && (TypeOf(f, v).Int? ==> Proper(r))
    ensures ProperState(f, SetValue(a, v, r, o))
  {
  }

  lemma ArithmeticProper(f: Function, i: Instruction, a: State)
    requires InstructionTyped(f, i) && ProperState(f, a) && Elidable(i.opcode)
    ensures ProperState(f, AbsStep(i, a))
  {
    var l, r := OperandRange(i, a, 0), OperandRange(i, a, 1);
    ArithmeticOnInts(f, i);
    IntOperandsProper(f, i, a, 0);
    if !i.opcode.NegateInt? { IntOperandsProper(f, i, a, 1); }
    ArithmeticGrows(i.opcode, l, r, l, r);
    ProperPut(f, a, i.result, if StepSafe(i, a) then ArithmeticRange(i.opcode, l, r) else FULL, NoOrigin);
  }

  lemma ProperStep(f: Function, i: Instruction, a: State)
    requires InstructionTyped(f, i) && ProperState(f, a)
    ensures ProperState(f, AbsStep(i, a))
  {
    if Elidable(i.opcode) {
      ArithmeticProper(f, i, a);
    } else if i.opcode.ConstantInt? {
      ProperPut(f, a, i.result, Range(i.integerImmediate, i.integerImmediate), NoOrigin);
    } else if i.opcode.LoadLocal? {
      ProperPut(f, a, i.result, a.locals[i.localIndex], Origin(i.localIndex, a.versions[i.localIndex]));
    } else if !i.opcode.StoreLocal? && !IsComparison(i.opcode) {
      ProperPut(f, a, i.result, FULL, NoOrigin);
    }
  }

  ghost predicate BlockTyped(f: Function, b: BasicBlock) {
    forall k :: 0 <= k < |b.instructions| ==> InstructionTyped(f, b.instructions[k])
  }

  lemma CompiledBlockTyped(f: Function, b: nat)
    requires Analyzable(f) && b < |f.blocks|
    ensures BlockTyped(f, f.blocks[b])
  {
    forall k | 0 <= k < |f.blocks[b].instructions| ensures InstructionTyped(f, f.blocks[b].instructions[k]) {
      CompiledInstructionTyped(f, b, k);
    }
  }

  lemma {:induction false} ProperAt(f: Function, b: BasicBlock, locals: seq<Range>, k: nat)
    requires BlockTyped(f, b) && k <= |b.instructions| && ProperLocals(f, locals)
    ensures ProperState(f, AbsAt(f, b, locals, k))
  {
    hide AbsStep, AbsAt, TypeOf, ProperState, InstructionTyped, ProperLocals;
    if k == 0 {
      StartProper(f, b, locals);
    } else {
      ProperAt(f, b, locals, k - 1);
      OneMoreStep(f, b, locals, k);
      ProperStep(f, b.instructions[k - 1], AbsAt(f, b, locals, k - 1));
    }
  }

  lemma StartProper(f: Function, b: BasicBlock, locals: seq<Range>)
    requires ProperLocals(f, locals)
    ensures ProperState(f, AbsAt(f, b, locals, 0))
  {
  }

  lemma OneMoreStep(f: Function, b: BasicBlock, locals: seq<Range>, k: nat)
    requires 0 < k <= |b.instructions|
    ensures AbsAt(f, b, locals, k) == AbsStep(b.instructions[k - 1], AbsAt(f, b, locals, k - 1))
  {
  }

  lemma MinimumProper(f: Function, a: State, r: Refined, o: Origin, minimum: int)
    requires r.reachable ==> ProperLocals(f, r.locals)
    ensures RefineMinimum(a, r, o, minimum).reachable ==> ProperLocals(f, RefineMinimum(a, r, o, minimum).locals)
  {
  }

  lemma MaximumProper(f: Function, a: State, r: Refined, o: Origin, maximum: int)
    requires r.reachable ==> ProperLocals(f, r.locals)
    ensures RefineMaximum(a, r, o, maximum).reachable ==> ProperLocals(f, RefineMaximum(a, r, o, maximum).locals)
  {
  }

  lemma TwoRefinesProper(f: Function, a: State, left: Origin, x: int, right: Origin, y: int)
    requires ProperLocals(f, a.locals)
    ensures var r := RefineMaximum(a, RefineMinimum(a, Refined(true, a.locals), left, x), right, y);
            r.reachable ==> ProperLocals(f, r.locals)
    ensures var r := RefineMinimum(a, RefineMaximum(a, Refined(true, a.locals), left, x), right, y);
            r.reachable ==> ProperLocals(f, r.locals)
  {
    var r := Refined(true, a.locals);
    MinimumProper(f, a, r, left, x);
    MaximumProper(f, a, RefineMinimum(a, r, left, x), right, y);
    MaximumProper(f, a, r, left, x);
    MinimumProper(f, a, RefineMaximum(a, r, left, x), right, y);
  }

  /** A branch that may be taken hands on ranges that are not empty. */
  lemma RefinedProper(f: Function, a: State, c: Comparison, takeTrue: bool)
    requires ProperLocals(f, a.locals) && RefinedLocals(a, c, takeTrue).reachable
    ensures ProperLocals(f, RefinedLocals(a, c, takeTrue).locals)
  {
    var l, r, lo, ro := c.left, c.right, c.leftOrigin, c.rightOrigin;
    if c.op.LessInt? {
      if takeTrue { TwoRefinesProper(f, a, lo, r.max - 1, ro, l.min + 1); }
      else { TwoRefinesProper(f, a, lo, r.min, ro, l.max); }
    } else if c.op.LessOrEqualInt? {
      if takeTrue { TwoRefinesProper(f, a, lo, r.max, ro, l.min); }
      else { TwoRefinesProper(f, a, lo, r.min + 1, ro, l.max - 1); }
    } else if c.op.GreaterInt? {
      if takeTrue { TwoRefinesProper(f, a, lo, r.min + 1, ro, l.max - 1); }
      else { TwoRefinesProper(f, a, lo, r.max, ro, l.min); }
    } else if c.op.GreaterOrEqualInt? {
      if takeTrue { TwoRefinesProper(f, a, lo, r.min, ro, l.max); }
      else { TwoRefinesProper(f, a, lo, r.max - 1, ro, l.min + 1); }
    }
  }

  lemma PutWithin(f: Function, small: State, large: State, v: ValueId, r: Range, r': Range, o: Origin, o': Origin)
    requires WithinState(f, small, large) && |small.values| == |small.origins| && |large.values| == |large.origins|
    requires TypeOf(f, v).Int? ==> Inside(r, r')
    ensures WithinState(f, SetValue(small, v, r, o), SetValue(large, v, r', o'))
  {
  }

  lemma ArithmeticWithin(f: Function, i: Instruction, small: State, large: State)
    requires InstructionTyped(f, i) && ProperState(f, small) && ProperState(f, large) && WithinState(f, small, large)
    requires Elidable(i.opcode)
    ensures WithinState(f, AbsStep(i, small), AbsStep(i, large))
    ensures StepSafe(i, large) ==> StepSafe(i, small)
  {
    var l, r := OperandRange(i, small, 0), OperandRange(i, small, 1);
    var l', r' := OperandRange(i, large, 0), OperandRange(i, large, 1);
    ArithmeticOnInts(f, i);
    IntOperandsProper(f, i, small, 0);
    if !i.opcode.NegateInt? { IntOperandsProper(f, i, small, 1); }
    ArithmeticGrows(i.opcode, l, r, l', r');
    PutWithin(f, small, large, i.result,
      if StepSafe(i, small) then ArithmeticRange(i.opcode, l, r) else FULL,
      if StepSafe(i, large) then ArithmeticRange(i.opcode, l', r') else FULL, NoOrigin, NoOrigin);
  }

  lemma StartWithin(f: Function, b: BasicBlock, small: seq<Range>, large: seq<Range>)
    requires Within(f, small, large)
    ensures WithinState(f, AbsAt(f, b, small, 0), AbsAt(f, b, large, 0))
  {
  }

  /** A larger entry makes no unsafe operation safe, and every range larger. */
  lemma StepWithin(f: Function, i: Instruction, small: State, large: State)
    requires InstructionTyped(f, i) && ProperState(f, small) && ProperState(f, large) && WithinState(f, small, large)
    ensures WithinState(f, AbsStep(i, small), AbsStep(i, large))
    ensures Elidable(i.opcode) && StepSafe(i, large) ==> StepSafe(i, small)
  {
    if Elidable(i.opcode) {
      ArithmeticWithin(f, i, small, large);
    } else if i.opcode.ConstantInt? {
      var r := Range(i.integerImmediate, i.integerImmediate);
      PutWithin(f, small, large, i.result, r, r, NoOrigin, NoOrigin);
    } else if i.opcode.LoadLocal? {
      PutWithin(f, small, large, i.result, small.locals[i.localIndex], large.locals[i.localIndex],
        Origin(i.localIndex, small.versions[i.localIndex]), Origin(i.localIndex, large.versions[i.localIndex]));
    } else if !i.opcode.StoreLocal? && !IsComparison(i.opcode) {
      PutWithin(f, small, large, i.result, FULL, FULL, NoOrigin, NoOrigin);
    }
  }

  lemma {:induction false} AbsWithin(f: Function, b: BasicBlock, small: seq<Range>, large: seq<Range>, k: nat)
    requires BlockTyped(f, b) && k <= |b.instructions|
    requires ProperLocals(f, small) && ProperLocals(f, large) && Within(f, small, large)
    ensures WithinState(f, AbsAt(f, b, small, k), AbsAt(f, b, large, k))
  {
    hide AbsStep, AbsAt, TypeOf, ProperState, WithinState, InstructionTyped, ProperLocals, Within;
    if k == 0 {
      StartWithin(f, b, small, large);
    } else {
      AbsWithin(f, b, small, large, k - 1);
      OneMoreStep(f, b, small, k);
      OneMoreStep(f, b, large, k);
      ProperAt(f, b, small, k - 1);
      ProperAt(f, b, large, k - 1);
      StepWithin(f, b.instructions[k - 1], AbsAt(f, b, small, k - 1), AbsAt(f, b, large, k - 1));
    }
  }

  // ----- one block -----

  function NotedResults(b: BasicBlock, k: nat): set<ValueId>
    requires k <= |b.instructions|
  {
    if k == 0 then {}
    else NotedResults(b, k - 1) + if Noted(b.instructions[k - 1]) then {b.instructions[k - 1].result} else {}
  }

  function UnsafeResults(f: Function, b: BasicBlock, locals: seq<Range>, k: nat): set<ValueId>
    requires k <= |b.instructions|
  {
    if k == 0 then {}
    else
      var i := b.instructions[k - 1];
      UnsafeResults(f, b, locals, k - 1) +
      if Noted(i) && !StepSafe(i, AbsAt(f, b, locals, k - 1)) then {i.result} else {}
  }

  lemma {:induction false} UnsafeListed(f: Function, b: BasicBlock, locals: seq<Range>, j: nat, k: nat)
    requires j < k <= |b.instructions| && Noted(b.instructions[j])
    ensures b.instructions[j].result in NotedResults(b, k)
    ensures !StepSafe(b.instructions[j], AbsAt(f, b, locals, j)) ==>
              b.instructions[j].result in UnsafeResults(f, b, locals, k)
  {
    hide AbsStep, StepSafe;
    if j < k - 1 { UnsafeListed(f, b, locals, j, k - 1); }
  }

  method TransferBlock(
    f: Function, b: BasicBlock, locals: seq<Range>, evaluated: set<ValueId>, unsafe: set<ValueId>)
    returns (out: State, evaluated': set<ValueId>, unsafe': set<ValueId>)
    ensures out == AbsAt(f, b, locals, |b.instructions|)
    ensures evaluated' == evaluated + NotedResults(b, |b.instructions|)
    ensures unsafe' == unsafe + UnsafeResults(f, b, locals, |b.instructions|)
  {
    out, evaluated', unsafe' := StartState(f, locals), evaluated, unsafe;
    for k := 0 to |b.instructions|
      invariant out == AbsAt(f, b, locals, k)
      invariant evaluated' == evaluated + NotedResults(b, k)
      invariant unsafe' == unsafe + UnsafeResults(f, b, locals, k)
    {
      var i := b.instructions[k];
      if Noted(i) {
        evaluated' := evaluated' + {i.result};
        if !StepSafe(i, out) { unsafe' := unsafe' + {i.result}; }
      }
      out := AbsStep(i, out);
    }
  }

  // ----- leaving a block -----

  ghost predicate CoversTarget(f: Function, a: Analysis, id: nat, locals: seq<Range>)
    requires Shaped(f, a)
  {
    BlockIndex(f, id) >= 0 ==> Covers(f, a, BlockIndex(f, id), locals)
  }

  /** Each way out of a block that a run may take is covered by the target's entry. */
  ghost predicate ExitsCovered(f: Function, a: Analysis, t: Terminator, out: State)
    requires Shaped(f, a)
  {
    match t
    case Jump(target, _) => CoversTarget(f, a, target, out.locals)
    case Branch(condition, target, _, falseTarget, _) =>
      if condition !in out.comparisons
      then CoversTarget(f, a, target, out.locals) && CoversTarget(f, a, falseTarget, out.locals)
      else
        var yes := RefinedLocals(out, out.comparisons[condition], true);
        var no := RefinedLocals(out, out.comparisons[condition], false);
        (yes.reachable ==> CoversTarget(f, a, target, yes.locals)) &&
        (no.reachable ==> CoversTarget(f, a, falseTarget, no.locals))
    case _ => true
  }

  /** The lexicographic measure of the worklist loop went down. */
  ghost predicate Shrunk(f: Function, th: seq<int>, a: Analysis, r: Analysis)
    requires Shaped(f, a) && Shaped(f, r)
  {
    Unentered(r.hasEntry) < Unentered(a.hasEntry) ||
    (Unentered(r.hasEntry) == Unentered(a.hasEntry) && TotalRoom(f, th, r, |f.blocks|) < TotalRoom(f, th, a, |f.blocks|))
  }

  ghost predicate Grown(f: Function, th: seq<int>, a: Analysis, r: Analysis) {
    && Shaped(f, a) && Shaped(f, r)
    && (r == a || Shrunk(f, th, a, r))
    && a.worklist <= r.worklist
    && (forall c :: 0 <= c < |f.blocks| ==>
          && (a.hasEntry[c] ==> r.hasEntry[c] && Within(f, a.entryLocals[c], r.entryLocals[c]))
          && (a.queued[c] ==> r.queued[c])
          && (r.queued[c] || (r.hasEntry[c] == a.hasEntry[c] && r.entryLocals[c] == a.entryLocals[c]))
          && (r.queued[c] && !a.queued[c] ==> c in r.worklist[|a.worklist|..]))
  }

  lemma MergedGrows(f: Function, th: seq<int>, a: Analysis, r: Analysis, b: int, incoming: seq<Range>)
    requires Merged(f, th, a, r, b, incoming)
    ensures Grown(f, th, a, r)
  {
    if b >= 0 && r.queued[b] && !a.queued[b] {
      assert r.worklist[|a.worklist|..] == [b];
    }
  }

  lemma GrownCovers(f: Function, th: seq<int>, a: Analysis, r: Analysis, id: nat, locals: seq<Range>)
    requires Grown(f, th, a, r) && CoversTarget(f, a, id, locals)
    ensures CoversTarget(f, r, id, locals)
  {
  }

  lemma GrownKeepsExits(f: Function, th: seq<int>, a: Analysis, r: Analysis, t: Terminator, out: State)
    requires Grown(f, th, a, r) && ExitsCovered(f, a, t, out)
    ensures ExitsCovered(f, r, t, out)
  {
    match t
    case Jump(target, _) => GrownCovers(f, th, a, r, target, out.locals);
    case Branch(condition, target, _, falseTarget, _) =>
      if condition !in out.comparisons {
        GrownCovers(f, th, a, r, target, out.locals);
        GrownCovers(f, th, a, r, falseTarget, out.locals);
      } else {
        var yes := RefinedLocals(out, out.comparisons[condition], true);
        var no := RefinedLocals(out, out.comparisons[condition], false);
        if yes.reachable { GrownCovers(f, th, a, r, target, yes.locals); }
        if no.reachable { GrownCovers(f, th, a, r, falseTarget, no.locals); }
      }
    case _ =>
  }

  lemma GrownTwice(f: Function, th: seq<int>, a: Analysis, m: Analysis, r: Analysis)
    requires Grown(f, th, a, m) && Grown(f, th, m, r)
    ensures Grown(f, th, a, r)
  {
    forall c | 0 <= c < |f.blocks| && r.queued[c] && !a.queued[c] ensures c in r.worklist[|a.worklist|..] {
      if m.queued[c] {
        var j :| 0 <= j < |m.worklist[|a.worklist|..]| && m.worklist[|a.worklist|..][j] == c;
        assert r.worklist[|a.worklist|..][j] == c;
      } else {
        var j :| 0 <= j < |r.worklist[|m.worklist|..]| && r.worklist[|m.worklist|..][j] == c;
        assert r.worklist[|a.worklist|..][j + |m.worklist| - |a.worklist|] == c;
      }
    }
  }

  lemma RefinedLength(a: State, c: Comparison, takeTrue: bool)
    ensures |RefinedLocals(a, c, takeTrue).locals| == |a.locals|
  {
  }

  ghost predicate MergesTwice(
    f: Function, th: seq<int>, mergeFirst: bool, first: nat, locals1: seq<Range>,
    mergeSecond: bool, second: nat, locals2: seq<Range>, a: Analysis, r: Analysis)
    requires Shaped(f, a)
    requires (mergeFirst ==> |locals1| == |f.localTypes|) && (mergeSecond ==> |locals2| == |f.localTypes|)
  {
    exists m :: Shaped(f, m) &&
      (if mergeFirst then MergesInto(f, th, a, m, BlockIndex(f, first), locals1) else m == a) &&
      (if mergeSecond then MergesInto(f, th, m, r, BlockIndex(f, second), locals2) else r == m)
  }

  /** What leaving a block does to the entries, to the last counter. */
  ghost predicate LeavesInto(f: Function, th: seq<int>, t: Terminator, out: State, a: Analysis, r: Analysis)
    requires Shaped(f, a) && |out.locals| == |f.localTypes|
  {
    match t
    case Jump(target, _) => MergesTwice(f, th, true, target, out.locals, false, 0, [], a, r)
    case Branch(condition, target, _, falseTarget, _) =>
      if condition !in out.comparisons then
        MergesTwice(f, th, true, target, out.locals, true, falseTarget, out.locals, a, r)
      else
        var yes := RefinedLocals(out, out.comparisons[condition], true);
        var no := RefinedLocals(out, out.comparisons[condition], false);
        |yes.locals| == |no.locals| == |f.localTypes| &&
        MergesTwice(f, th, yes.reachable, target, yes.locals, no.reachable, falseTarget, no.locals, a, r)
    case _ => r == a
  }

  method MergeBoth(
    f: Function, th: seq<int>, mergeFirst: bool, first: nat, locals1: seq<Range>,
    mergeSecond: bool, second: nat, locals2: seq<Range>, a: Analysis) returns (r: Analysis)
    requires GoodThresholds(th) && Shaped(f, a)
    requires (mergeFirst ==> ProperLocals(f, locals1)) && (mergeSecond ==> ProperLocals(f, locals2))
    ensures Grown(f, th, a, r)
    ensures mergeFirst ==> CoversTarget(f, r, first, locals1)
    ensures mergeSecond ==> CoversTarget(f, r, second, locals2)
    ensures MergesTwice(f, th, mergeFirst, first, locals1, mergeSecond, second, locals2, a, r)
  {
    hide MergesInto;
    r := a;
    if mergeFirst {
      r := MergeEntry(f, th, first, locals1, a);
      MergedGrows(f, th, a, r, BlockIndex(f, first), locals1);
    }
    if mergeSecond {
      var m := r;
      r := MergeEntry(f, th, second, locals2, m);
      MergedGrows(f, th, m, r, BlockIndex(f, second), locals2);
      if mergeFirst { GrownCovers(f, th, m, r, first, locals1); }
      GrownTwice(f, th, a, m, r);
    }
  }

  /** The terminator's merges (AotCpp.cpp:670-690). */
  method LeaveBlock(f: Function, th: seq<int>, t: Terminator, out: State, a: Analysis) returns (r: Analysis)
    requires GoodThresholds(th) && Shaped(f, a) && ProperLocals(f, out.locals)
    ensures Grown(f, th, a, r) && ExitsCovered(f, r, t, out)
    ensures LeavesInto(f, th, t, out, a, r)
  {
    hide MergesTwice, RefinedLocals, Grown, CoversTarget, GoodThresholds, Shaped;
    if t.Jump? {
      r := MergeBoth(f, th, true, t.target, out.locals, false, 0, [], a);
    } else if t.Branch? {
      if t.condition !in out.comparisons {
        r := MergeBoth(f, th, true, t.target, out.locals, true, t.falseTarget, out.locals, a);
      } else {
        var c := out.comparisons[t.condition];
        var yes, no := RefinedLocals(out, c, true), RefinedLocals(out, c, false);
        RefinedLength(out, c, true);
        RefinedLength(out, c, false);
        if yes.reachable { RefinedProper(f, out, c, true); }
        if no.reachable { RefinedProper(f, out, c, false); }
        r := MergeBoth(f, th, yes.reachable, t.target, yes.locals, no.reachable, t.falseTarget, no.locals, a);
      }
    } else {
      NothingGrows(f, th, a);
      r := a;
    }
  }

  lemma NothingGrows(f: Function, th: seq<int>, a: Analysis)
    requires Shaped(f, a)
    ensures Grown(f, th, a, a)
  {
  }

  // ----- the fixpoint -----

  function InitialLocals(f: Function): seq<Range> {
    seq(|f.localTypes|, s requires 0 <= s < |f.localTypes| => if f.localTypes[s].Int? then Range(0, 0) else FULL)
  }

  function OutState(f: Function, a: Analysis, b: nat): State
    requires b < |f.blocks| && b < |a.entryLocals|
  {
    AbsAt(f, f.blocks[b], a.entryLocals[b], |f.blocks[b].instructions|)
  }

  function NotedIn(f: Function, b: nat): set<ValueId>
    requires b < |f.blocks|
  {
    NotedResults(f.blocks[b], |f.blocks[b].instructions|)
  }

  function UnsafeIn(f: Function, a: Analysis, b: nat): set<ValueId>
    requires b < |f.blocks| && b < |a.entryLocals|
  {
    UnsafeResults(f, f.blocks[b], a.entryLocals[b], |f.blocks[b].instructions|)
  }

  /** The analysis state is a fixpoint: it covers the entry and every edge a run can take. */
  ghost predicate IsFixpoint(f: Function, a: Analysis) {
    && Shaped(f, a)
    && Covers(f, a, BlockIndex(f, 0), InitialLocals(f))
    && (forall b :: 0 <= b < |f.blocks| && a.hasEntry[b] ==>
          ExitsCovered(f, a, f.blocks[b].terminator, OutState(f, a, b)))
  }

  /** Exactly the values of safeCheckedArithmetic: checked in a block that is entered, and safe at
      the fixpoint wherever an entered block computes them. */
  ghost predicate SafeAtFixpoint(f: Function, a: Analysis, v: ValueId)
    requires Shaped(f, a)
  {
    (exists b :: 0 <= b < |f.blocks| && a.hasEntry[b] && v in NotedIn(f, b)) &&
    (forall b :: 0 <= b < |f.blocks| && a.hasEntry[b] ==> v !in UnsafeIn(f, a, b))
  }

  ghost predicate Certified(f: Function, a: Analysis, safe: set<ValueId>) {
    IsFixpoint(f, a) && forall v :: v in safe <==> SafeAtFixpoint(f, a, v)
  }

  lemma {:induction false} UnsafeGrows(f: Function, b: BasicBlock, small: seq<Range>, large: seq<Range>, k: nat)
    requires BlockTyped(f, b) && k <= |b.instructions|
    requires ProperLocals(f, small) && ProperLocals(f, large) && Within(f, small, large)
    ensures UnsafeResults(f, b, small, k) <= UnsafeResults(f, b, large, k)
  {
    hide AbsStep, AbsAt, TypeOf, ProperState, WithinState, InstructionTyped, StepSafe, ProperLocals, Within;
    if k > 0 {
      UnsafeGrows(f, b, small, large, k - 1);
      AbsWithin(f, b, small, large, k - 1);
      ProperAt(f, b, small, k - 1);
      ProperAt(f, b, large, k - 1);
      StepWithin(f, b.instructions[k - 1], AbsAt(f, b, small, k - 1), AbsAt(f, b, large, k - 1));
    }
  }

  // ----- the worklist -----

  /** A block that is not queued has nothing new to say. */
  ghost predicate Settled(
    f: Function, a: Analysis, b: nat, evaluated: set<ValueId>, unsafe: set<ValueId>)
    requires Shaped(f, a) && b < |f.blocks|
  {
    a.hasEntry[b] && !a.queued[b] ==>
      ExitsCovered(f, a, f.blocks[b].terminator, OutState(f, a, b)) &&
      NotedIn(f, b) <= evaluated && UnsafeIn(f, a, b) <= unsafe
  }

  /** Nothing was recorded that the present entries do not bear out. */
  ghost predicate Justified(f: Function, a: Analysis, evaluated: set<ValueId>, unsafe: set<ValueId>)
    requires Shaped(f, a)
  {
    && (forall v :: v in evaluated ==> exists b :: 0 <= b < |f.blocks| && a.hasEntry[b] && v in NotedIn(f, b))
    && (forall v :: v in unsafe ==> exists b :: 0 <= b < |f.blocks| && a.hasEntry[b] && v in UnsafeIn(f, a, b))
  }

  ghost predicate QueueHolds(f: Function, a: Analysis, workIndex: nat)
    requires Shaped(f, a)
  {
    workIndex <= |a.worklist| &&
    forall b :: 0 <= b < |f.blocks| && a.queued[b] ==> b in a.worklist[workIndex..]
  }

  ghost predicate Progress(f: Function, a: Analysis, workIndex: nat, evaluated: set<ValueId>, unsafe: set<ValueId>) {
    && Shaped(f, a)
    && Covers(f, a, BlockIndex(f, 0), InitialLocals(f))
    && QueueHolds(f, a, workIndex)
    && (forall b :: 0 <= b < |f.blocks| ==> Settled(f, a, b, evaluated, unsafe))
    && Justified(f, a, evaluated, unsafe)
  }

  lemma GrownJustified(
    f: Function, th: seq<int>, a: Analysis, r: Analysis, evaluated: set<ValueId>, unsafe: set<ValueId>)
    requires Grown(f, th, a, r) && Justified(f, a, evaluated, unsafe)
    requires forall b :: 0 <= b < |f.blocks| ==> BlockTyped(f, f.blocks[b])
    ensures Justified(f, r, evaluated, unsafe)
  {
    forall v | v in evaluated
      ensures exists b :: 0 <= b < |f.blocks| && r.hasEntry[b] && v in NotedIn(f, b)
    {
      var b :| 0 <= b < |f.blocks| && a.hasEntry[b] && v in NotedIn(f, b);
      assert r.hasEntry[b];
    }
    forall v | v in unsafe
      ensures exists b :: 0 <= b < |f.blocks| && r.hasEntry[b] && v in UnsafeIn(f, r, b)
    {
      var b :| 0 <= b < |f.blocks| && a.hasEntry[b] && v in UnsafeIn(f, a, b);
      UnsafeGrows(f, f.blocks[b], a.entryLocals[b], r.entryLocals[b], |f.blocks[b].instructions|);
      assert r.hasEntry[b] && v in UnsafeIn(f, r, b);
    }
  }

  lemma GrownSettled(
    f: Function, th: seq<int>, a: Analysis, r: Analysis, b: nat, evaluated: set<ValueId>, unsafe: set<ValueId>)
    requires Grown(f, th, a, r) && b < |f.blocks| && Settled(f, a, b, evaluated, unsafe)
    ensures Settled(f, r, b, evaluated, unsafe)
  {
    if r.hasEntry[b] && !r.queued[b] {
      assert r.entryLocals[b] == a.entryLocals[b] && a.hasEntry[b] && !a.queued[b];
      assert OutState(f, r, b) == OutState(f, a, b);
      GrownKeepsExits(f, th, a, r, f.blocks[b].terminator, OutState(f, a, b));
    }
  }

  lemma GrownQueue(f: Function, th: seq<int>, a: Analysis, r: Analysis, workIndex: nat)
    requires Grown(f, th, a, r) && QueueHolds(f, a, workIndex)
    ensures QueueHolds(f, r, workIndex)
  {
    forall b | 0 <= b < |f.blocks| && r.queued[b] ensures b in r.worklist[workIndex..] {
      if a.queued[b] {
        var j :| 0 <= j < |a.worklist[workIndex..]| && a.worklist[workIndex..][j] == b;
        assert r.worklist[workIndex..][j] == b;
      } else {
        var j :| 0 <= j < |r.worklist[|a.worklist|..]| && r.worklist[|a.worklist|..][j] == b;
        assert r.worklist[workIndex..][j + |a.worklist| - workIndex] == b;
      }
    }
  }

  lemma EntryExists(f: Function)
    requires Accepted(f)
    ensures 0 <= BlockIndex(f, 0) < |f.blocks|
  {
    assert 0 in Ssa.Ids(View(f));
    var i :| 0 <= i < |View(f)| && View(f)[i].id == 0;
  }

  /** What one turn of the loop does to the entries. */
  ghost predicate TurnsInto(f: Function, th: seq<int>, a: Analysis, workIndex: nat, r: Analysis)
    requires Shaped(f, a) && workIndex < |a.worklist|
  {
    var b := a.worklist[workIndex];
    var popped := a.(queued := a.queued[b := false]);
    |OutState(f, a, b).locals| == |f.localTypes| && Grown(f, th, popped, r) &&
    LeavesInto(f, th, f.blocks[b].terminator, OutState(f, a, b), popped, r)
  }

  /** The turns of the worklist loop, from the start until nothing is left to do. */
  ghost predicate Worked(f: Function, th: seq<int>, trace: seq<Analysis>) {
    && Sorted(th) && (forall x :: x in th <==> IsThreshold(f, x))
    && WorkedSoFar(f, th, trace) && |trace[|trace| - 1].worklist| == |trace| - 1
  }

  ghost predicate WorkedSoFar(f: Function, th: seq<int>, trace: seq<Analysis>) {
    && trace != [] && BlockIndex(f, 0) >= 0 && trace[0] == InitialAnalysis(f, BlockIndex(f, 0))
    && (forall k :: 0 <= k < |trace| ==> Shaped(f, trace[k]))
    && (forall k :: 0 <= k < |trace| - 1 ==> k < |trace[k].worklist| && TurnsInto(f, th, trace[k], k, trace[k + 1]))
  }

  lemma OneMoreTurn(f: Function, th: seq<int>, trace: seq<Analysis>, r: Analysis)
    requires WorkedSoFar(f, th, trace) && Shaped(f, r)
    requires var a := trace[|trace| - 1]; |trace| - 1 < |a.worklist| && TurnsInto(f, th, a, |trace| - 1, r)
    ensures WorkedSoFar(f, th, trace + [r])
  {
    hide TurnsInto, Shaped;
    var longer := trace + [r];
    assert forall k :: 0 <= k < |trace| ==> longer[k] == trace[k];
  }

  lemma NoTurnYet(f: Function, th: seq<int>, a: Analysis)
    requires Shaped(f, a) && BlockIndex(f, 0) >= 0 && a == InitialAnalysis(f, BlockIndex(f, 0))
    ensures WorkedSoFar(f, th, [a])
  {
  }

  lemma WorkIsDone(f: Function, th: seq<int>, trace: seq<Analysis>)
    requires Sorted(th) && (forall x :: x in th <==> IsThreshold(f, x)) && WorkedSoFar(f, th, trace)
    requires |trace[|trace| - 1].worklist| == |trace| - 1
    ensures Worked(f, th, trace)
  {
  }

  /** One turn of the loop: take a block off the worklist, run it, merge into its successors. */
  method ProcessBlock(
    f: Function, th: seq<int>, a: Analysis, workIndex: nat, evaluated: set<ValueId>, unsafe: set<ValueId>)
    returns (r: Analysis, evaluated': set<ValueId>, unsafe': set<ValueId>)
    requires GoodThresholds(th) && Progress(f, a, workIndex, evaluated, unsafe) && workIndex < |a.worklist|
    requires forall b :: 0 <= b < |f.blocks| ==> BlockTyped(f, f.blocks[b])
    ensures Progress(f, r, workIndex + 1, evaluated', unsafe')
    ensures TurnsInto(f, th, a, workIndex, r)
    ensures Shrunk(f, th, a, r) || (r.worklist == a.worklist && r.hasEntry == a.hasEntry &&
                                    TotalRoom(f, th, r, |f.blocks|) == TotalRoom(f, th, a, |f.blocks|))
  {
    hide AbsStep, TypeOf, InstructionTyped, Settled, Justified;
    var b := a.worklist[workIndex];
    var popped := a.(queued := a.queued[b := false]);
    ProperAt(f, f.blocks[b], a.entryLocals[b], |f.blocks[b].instructions|);
    var out;
    out, evaluated', unsafe' := TransferBlock(f, f.blocks[b], a.entryLocals[b], evaluated, unsafe);
    r := LeaveBlock(f, th, f.blocks[b].terminator, out, popped);
    PoppedRoom(f, th, a, popped, |f.blocks|);
    TurnMakesProgress(f, th, a, popped, r, workIndex, evaluated, unsafe, evaluated', unsafe');
  }

  lemma TurnMakesProgress(
    f: Function, th: seq<int>, a: Analysis, p: Analysis, r: Analysis, workIndex: nat,
    evaluated: set<ValueId>, unsafe: set<ValueId>, evaluated': set<ValueId>, unsafe': set<ValueId>)
    requires Progress(f, a, workIndex, evaluated, unsafe) && workIndex < |a.worklist|
    requires forall b :: 0 <= b < |f.blocks| ==> BlockTyped(f, f.blocks[b])
    requires p == a.(queued := a.queued[a.worklist[workIndex] := false]) && Grown(f, th, p, r)
    requires ExitsCovered(f, r, f.blocks[a.worklist[workIndex]].terminator, OutState(f, a, a.worklist[workIndex]))
    requires evaluated' == evaluated + NotedIn(f, a.worklist[workIndex])
    requires unsafe' == unsafe + UnsafeIn(f, a, a.worklist[workIndex])
    ensures Progress(f, r, workIndex + 1, evaluated', unsafe')
  {
    hide AbsStep, TypeOf, InstructionTyped, BlockTyped, Settled, Justified;
    var b := a.worklist[workIndex];
    PoppedQueue(f, a, p, workIndex, b);
    GrownQueue(f, th, p, r, workIndex + 1);
    PoppedJustified(f, a, p, b, evaluated, unsafe);
    GrownJustified(f, th, p, r, evaluated', unsafe');
    forall c | 0 <= c < |f.blocks| ensures Settled(f, r, c, evaluated', unsafe') {
      if c == b {
        TurnSettles(f, th, a, p, r, b, evaluated', unsafe');
      } else {
        PoppedSettled(f, a, p, b, c, evaluated, unsafe, evaluated', unsafe');
        GrownSettled(f, th, p, r, c, evaluated', unsafe');
      }
    }
  }

  lemma TurnSettles(
    f: Function, th: seq<int>, a: Analysis, p: Analysis, r: Analysis, b: nat,
    evaluated: set<ValueId>, unsafe: set<ValueId>)
    requires Shaped(f, a) && b < |f.blocks| && p == a.(queued := a.queued[b := false]) && Grown(f, th, p, r)
    requires ExitsCovered(f, r, f.blocks[b].terminator, OutState(f, a, b))
    requires NotedIn(f, b) <= evaluated && UnsafeIn(f, a, b) <= unsafe
    ensures Settled(f, r, b, evaluated, unsafe)
  {
  }

  lemma {:induction false} PoppedRoom(f: Function, th: seq<int>, a: Analysis, p: Analysis, n: nat)
    requires Shaped(f, a) && Shaped(f, p) && p == a.(queued := p.queued) && n <= |f.blocks|
    ensures TotalRoom(f, th, p, n) == TotalRoom(f, th, a, n)
  {
    if n > 0 { PoppedRoom(f, th, a, p, n - 1); }
  }

  lemma PoppedQueue(f: Function, a: Analysis, p: Analysis, workIndex: nat, b: nat)
    requires Shaped(f, a) && QueueHolds(f, a, workIndex) && workIndex < |a.worklist| && b == a.worklist[workIndex]
    requires p == a.(queued := a.queued[b := false]) && Shaped(f, p)
    ensures QueueHolds(f, p, workIndex + 1)
  {
    forall c | 0 <= c < |f.blocks| && p.queued[c] ensures c in p.worklist[workIndex + 1..] {
      var j :| 0 <= j < |a.worklist[workIndex..]| && a.worklist[workIndex..][j] == c;
      assert j > 0;
      assert p.worklist[workIndex + 1..][j - 1] == c;
    }
  }

  lemma PoppedJustified(
    f: Function, a: Analysis, p: Analysis, b: nat, evaluated: set<ValueId>, unsafe: set<ValueId>)
    requires Shaped(f, a) && Shaped(f, p) && p == a.(queued := p.queued) && b < |f.blocks| && a.hasEntry[b]
    requires Justified(f, a, evaluated, unsafe)
    ensures Justified(f, p, evaluated + NotedIn(f, b), unsafe + UnsafeIn(f, a, b))
  {
    forall v | v in unsafe + UnsafeIn(f, a, b)
      ensures exists c :: 0 <= c < |f.blocks| && p.hasEntry[c] && v in UnsafeIn(f, p, c)
    {
      if v in UnsafeIn(f, a, b) {
        assert p.hasEntry[b] && v in UnsafeIn(f, p, b);
      } else {
        var c :| 0 <= c < |f.blocks| && a.hasEntry[c] && v in UnsafeIn(f, a, c);
        assert p.hasEntry[c] && v in UnsafeIn(f, p, c);
      }
    }
  }

  lemma PoppedSettled(
    f: Function, a: Analysis, p: Analysis, b: nat, c: nat, evaluated: set<ValueId>, unsafe: set<ValueId>,
    evaluated': set<ValueId>, unsafe': set<ValueId>)
    requires Shaped(f, a) && Shaped(f, p) && b < |f.blocks| && p == a.(queued := a.queued[b := false])
    requires c < |f.blocks| && c != b && Settled(f, a, c, evaluated, unsafe)
    requires evaluated <= evaluated' && unsafe <= unsafe'
    ensures Settled(f, p, c, evaluated', unsafe')
  {
    var t, out := f.blocks[c].terminator, OutState(f, a, c);
    assert OutState(f, p, c) == out;
    if ExitsCovered(f, a, t, out) { SameExits(f, a, p, t, out); }
  }

  lemma SameExits(f: Function, a: Analysis, p: Analysis, t: Terminator, out: State)
    requires Shaped(f, a) && Shaped(f, p) && p == a.(queued := p.queued)
    requires ExitsCovered(f, a, t, out)
    ensures ExitsCovered(f, p, t, out)
  {
  }

  function InitialAnalysis(f: Function, entry: nat): Analysis
    requires entry < |f.blocks|
  {
    var n := |f.blocks|;
    var full, none := seq(|f.localTypes|, _ => FULL), seq(|f.localTypes|, _ => 0);
    Analysis(
      seq(n, _ => full)[entry := InitialLocals(f)], seq(n, _ => false)[entry := true],
      seq(n, _ => none), seq(n, _ => none), [entry], seq(n, _ => false)[entry := true])
  }

  lemma InitialProgress(f: Function, entry: nat)
    requires entry < |f.blocks| && entry == BlockIndex(f, 0)
    ensures Progress(f, InitialAnalysis(f, entry), 0, {}, {})
  {
    var a := InitialAnalysis(f, entry);
    assert Shaped(f, a);
    assert a.worklist[0..][0] == entry;
  }

  lemma ThresholdsGood(f: Function, th: seq<int>)
    requires Sorted(th) && forall x :: x in th <==> IsThreshold(f, x)
    ensures GoodThresholds(th)
  {
  }

  lemma DrainedIsCertified(f: Function, a: Analysis, evaluated: set<ValueId>, unsafe: set<ValueId>)
    requires Progress(f, a, |a.worklist|, evaluated, unsafe)
    ensures Certified(f, a, evaluated - unsafe)
  {
    forall b | 0 <= b < |f.blocks| && a.hasEntry[b]
      ensures ExitsCovered(f, a, f.blocks[b].terminator, OutState(f, a, b))
      ensures NotedIn(f, b) <= evaluated && UnsafeIn(f, a, b) <= unsafe
    {
      assert Settled(f, a, b, evaluated, unsafe) && !a.queued[b];
    }
    forall v ensures v in evaluated - unsafe <==> SafeAtFixpoint(f, a, v) {
      if v in evaluated - unsafe {
        var b :| 0 <= b < |f.blocks| && a.hasEntry[b] && v in NotedIn(f, b);
      }
      if v in unsafe {
        var b :| 0 <= b < |f.blocks| && a.hasEntry[b] && v in UnsafeIn(f, a, b);
      }
    }
  }

  /** The analysis ends on every function, and what it returns is decided by a fixpoint alone:
      nothing an intermediate pass saw makes a difference. */
  method AnalyzeTypedIntegerRanges(f: Function) returns (safe: set<ValueId>)
    requires Analyzable(f)
    ensures exists a :: Certified(f, a, safe)
    ensures exists th, trace :: Worked(f, th, trace) && Certified(f, trace[|trace| - 1], safe)
  {
    hide TurnsInto, WorkedSoFar, Worked, Certified, Settled, Justified, BlockTyped, GoodThresholds, IsThreshold;
    EntryExists(f);
    forall b | 0 <= b < |f.blocks| ensures BlockTyped(f, f.blocks[b]) { CompiledBlockTyped(f, b); }
    var th := BuildThresholds(f);
    ThresholdsGood(f, th);
    var a := InitialAnalysis(f, BlockIndex(f, 0));
    InitialProgress(f, BlockIndex(f, 0));
    var workIndex, evaluated, unsafe: set<ValueId> := 0, {}, {};
    ghost var trace := [a];
    NoTurnYet(f, th, a);
    while workIndex < |a.worklist|
      invariant Progress(f, a, workIndex, evaluated, unsafe)
      invariant |trace| == workIndex + 1 && trace[workIndex] == a && WorkedSoFar(f, th, trace)
      decreases Unentered(a.hasEntry), TotalRoom(f, th, a, |f.blocks|), |a.worklist| - workIndex
    {
      a, evaluated, unsafe := ProcessBlock(f, th, a, workIndex, evaluated, unsafe);
      OneMoreTurn(f, th, trace, a);
      workIndex := workIndex + 1;
      trace := trace + [a];
    }
    DrainedIsCertified(f, a, evaluated, unsafe);
    safe := evaluated - unsafe;
    WorkIsDone(f, th, trace);
    assert Worked(f, th, trace) && Certified(f, trace[|trace| - 1], safe);
  }
}
