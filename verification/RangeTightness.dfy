/** The intervals the worklist ends with (src/aot_cpp/AotCpp.cpp:424-705) are as narrow as widening
    allows: each bound of a block's entry is one that some way into the block hands over, or, after
    more than eight moves, the threshold next to it. */
module RangeTightness {
  import opened Mir
  import opened TypedRanges
  import opened RangeAnalysis
  import opened RangePrecision

  // ----- what comes into a block -----

  /** Leaving by this terminator hands these locals to block b. */
  ghost predicate Delivers(f: Function, t: Terminator, out: State, b: nat, locals: seq<Range>) {
    match t
    case Jump(target, _) => BlockIndex(f, target) == b && locals == out.locals
    case Branch(condition, target, _, falseTarget, _) =>
      if condition !in out.comparisons then
        (BlockIndex(f, target) == b || BlockIndex(f, falseTarget) == b) && locals == out.locals
      else
        var yes := RefinedLocals(out, out.comparisons[condition], true);
        var no := RefinedLocals(out, out.comparisons[condition], false);
        || (yes.reachable && BlockIndex(f, target) == b && locals == yes.locals)
        || (no.reachable && BlockIndex(f, falseTarget) == b && locals == no.locals)
    case _ => false
  }

  /** Block p, entered as the analysis says, hands these locals to block b. */
  ghost predicate Feeds(f: Function, a: Analysis, p: nat, b: nat, locals: seq<Range>)
    requires Shaped(f, a)
  {
    p < |f.blocks| && a.hasEntry[p] && Delivers(f, f.blocks[p].terminator, OutState(f, a, p), b, locals)
  }

  /** The locals a call starts with, at bb0, or what an entered block hands over. */
  ghost predicate IsSource(f: Function, a: Analysis, b: nat, locals: seq<Range>)
    requires Shaped(f, a)
  {
    |locals| == |f.localTypes| &&
    ((b == BlockIndex(f, 0) && locals == InitialLocals(f)) || exists p: nat :: Feeds(f, a, p, b, locals))
  }

  /** A lower bound no lower than the source's, or the threshold next below it. */
  predicate LowFrom(th: seq<int>, moves: nat, bound: int, source: int) {
    source <= bound || (moves > 8 && bound in th && forall t | t in th :: t <= source ==> t <= bound)
  }

  predicate HighFrom(th: seq<int>, moves: nat, bound: int, source: int) {
    source >= bound || (moves > 8 && bound in th && forall t | t in th :: t >= source ==> t >= bound)
  }

  /** Both bounds of slot s of block b, as a has them, have sources by src. */
  ghost predicate SlotSourced(f: Function, th: seq<int>, src: Analysis, a: Analysis, b: nat, s: nat)
    requires Shaped(f, src) && Shaped(f, a) && b < |f.blocks| && s < |f.localTypes|
  {
    && (exists locals: seq<Range> :: |locals| == |f.localTypes| && IsSource(f, src, b, locals) &&
          LowFrom(th, a.lowerUpdates[b][s], a.entryLocals[b][s].min, locals[s].min))
    && (exists locals: seq<Range> :: |locals| == |f.localTypes| && IsSource(f, src, b, locals) &&
          HighFrom(th, a.upperUpdates[b][s], a.entryLocals[b][s].max, locals[s].max))
  }

  ghost predicate BlockSourced(f: Function, th: seq<int>, src: Analysis, a: Analysis, b: nat)
    requires Shaped(f, src) && Shaped(f, a) && b < |f.blocks|
  {
    a.hasEntry[b] ==>
      && (exists locals: seq<Range> :: IsSource(f, src, b, locals))
      && (forall s :: 0 <= s < |f.localTypes| && f.localTypes[s].Int? ==> SlotSourced(f, th, src, a, b, s))
  }

  ghost predicate AllSourced(f: Function, th: seq<int>, src: Analysis, a: Analysis)
    requires Shaped(f, src) && Shaped(f, a)
  {
    forall b :: 0 <= b < |f.blocks| ==> BlockSourced(f, th, src, a, b)
  }

  // ----- merging keeps every bound sourced -----

  lemma {:induction false} MergedSlotAt(f: Function, th: seq<int>, slots: Slots, incoming: seq<Range>, n: nat, t: nat)
    requires n <= |f.localTypes| == |incoming| == |slots.ranges| == |slots.lower| == |slots.upper| && t < |f.localTypes|
    ensures var r := MergedSlots(f, th, slots, incoming, n);
            Slot(r.ranges[t], r.lower[t], r.upper[t]) ==
            if t < n && f.localTypes[t].Int? then MergeSlot(th, Slot(slots.ranges[t], slots.lower[t], slots.upper[t]), incoming[t])
            else Slot(slots.ranges[t], slots.lower[t], slots.upper[t])
    decreases n
  {
    hide MergeSlot;
    if n > 0 { MergedSlotAt(f, th, slots, incoming, n - 1, t); }
  }

  lemma SlotStaysSourced(
    f: Function, th: seq<int>, src: Analysis, a: Analysis, r: Analysis, b: nat, s: nat, incoming: seq<Range>)
    requires GoodThresholds(th) && Shaped(f, src) && Shaped(f, a) && Shaped(f, r)
    requires b < |f.blocks| && s < |f.localTypes| && f.localTypes[s].Int?
    requires SlotSourced(f, th, src, a, b, s) && IsSource(f, src, b, incoming)
    requires |incoming| == |f.localTypes| && Proper(incoming[s])
    requires Slot(r.entryLocals[b][s], r.lowerUpdates[b][s], r.upperUpdates[b][s]) ==
             MergeSlot(th, Slot(a.entryLocals[b][s], a.lowerUpdates[b][s], a.upperUpdates[b][s]), incoming[s])
    ensures SlotSourced(f, th, src, r, b, s)
  {
    hide MergeSlot, IsSource, GoodThresholds;
    MergeIsLeast(th, Slot(a.entryLocals[b][s], a.lowerUpdates[b][s], a.upperUpdates[b][s]), incoming[s]);
    var low: seq<Range> :| |low| == |f.localTypes| && IsSource(f, src, b, low) && LowFrom(th, a.lowerUpdates[b][s], a.entryLocals[b][s].min, low[s].min);
    var high: seq<Range> :| |high| == |f.localTypes| && IsSource(f, src, b, high) && HighFrom(th, a.upperUpdates[b][s], a.entryLocals[b][s].max, high[s].max);
    if incoming[s].min < a.entryLocals[b][s].min {
      assert |incoming| == |f.localTypes| && IsSource(f, src, b, incoming) && LowFrom(th, r.lowerUpdates[b][s], r.entryLocals[b][s].min, incoming[s].min);
    } else {
      assert |low| == |f.localTypes| && IsSource(f, src, b, low) && LowFrom(th, r.lowerUpdates[b][s], r.entryLocals[b][s].min, low[s].min);
    }
    if incoming[s].max > a.entryLocals[b][s].max {
      assert |incoming| == |f.localTypes| && IsSource(f, src, b, incoming) && HighFrom(th, r.upperUpdates[b][s], r.entryLocals[b][s].max, incoming[s].max);
    } else {
      assert |high| == |f.localTypes| && IsSource(f, src, b, high) && HighFrom(th, r.upperUpdates[b][s], r.entryLocals[b][s].max, high[s].max);
    }
  }

  /** A first entry is its own source. */
  lemma FirstEntrySourced(f: Function, th: seq<int>, src: Analysis, r: Analysis, b: nat, incoming: seq<Range>)
    requires Shaped(f, src) && Shaped(f, r) && b < |f.blocks| && IsSource(f, src, b, incoming)
    requires r.entryLocals[b] == incoming
    ensures BlockSourced(f, th, src, r, b)
  {
    hide IsSource;
    forall s | 0 <= s < |f.localTypes| && f.localTypes[s].Int? ensures SlotSourced(f, th, src, r, b, s) {
      assert LowFrom(th, r.lowerUpdates[b][s], r.entryLocals[b][s].min, incoming[s].min);
      assert HighFrom(th, r.upperUpdates[b][s], r.entryLocals[b][s].max, incoming[s].max);
    }
  }

  lemma OtherBlocksStaySourced(f: Function, th: seq<int>, src: Analysis, a: Analysis, r: Analysis, b: int, c: nat)
    requires Shaped(f, src) && Shaped(f, a) && Shaped(f, r) && c < |f.blocks| && BlockSourced(f, th, src, a, c)
    requires r.hasEntry[c] == a.hasEntry[c] && r.entryLocals[c] == a.entryLocals[c]
    requires r.lowerUpdates[c] == a.lowerUpdates[c] && r.upperUpdates[c] == a.upperUpdates[c]
    ensures BlockSourced(f, th, src, r, c)
  {
    hide IsSource, LowFrom, HighFrom;
    if r.hasEntry[c] {
      forall s | 0 <= s < |f.localTypes| && f.localTypes[s].Int? ensures SlotSourced(f, th, src, r, c, s) {
        assert SlotSourced(f, th, src, a, c, s);
      }
    }
  }

  lemma MergeStaysSourced(
    f: Function, th: seq<int>, src: Analysis, a: Analysis, r: Analysis, b: int, incoming: seq<Range>)
    requires GoodThresholds(th) && Shaped(f, src) && Shaped(f, a) && Shaped(f, r) && b < |f.blocks|
    requires ProperLocals(f, incoming) && (b >= 0 ==> IsSource(f, src, b, incoming))
    requires AllSourced(f, th, src, a) && MergesInto(f, th, a, r, b, incoming)
    ensures AllSourced(f, th, src, r)
  {
    hide IsSource, SlotSourced, MergedSlots, GoodThresholds, BlockSourced;
    forall c | 0 <= c < |f.blocks| ensures BlockSourced(f, th, src, r, c) {
      if c == b && !a.hasEntry[b] {
        FirstEntrySourced(f, th, src, r, b, incoming);
      } else if c == b {
        MergedBlockSourced(f, th, src, a, r, b, incoming);
      } else {
        OtherBlocksStaySourced(f, th, src, a, r, b, c);
      }
    }
  }

  lemma MergedBlockSourced(
    f: Function, th: seq<int>, src: Analysis, a: Analysis, r: Analysis, b: nat, incoming: seq<Range>)
    requires GoodThresholds(th) && Shaped(f, src) && Shaped(f, a) && Shaped(f, r) && b < |f.blocks| && a.hasEntry[b]
    requires ProperLocals(f, incoming) && IsSource(f, src, b, incoming)
    requires BlockSourced(f, th, src, a, b) && MergesInto(f, th, a, r, b, incoming)
    ensures BlockSourced(f, th, src, r, b)
  {
    hide IsSource, SlotSourced, MergedSlots, GoodThresholds, MergeSlot;
    forall s | 0 <= s < |f.localTypes| && f.localTypes[s].Int? ensures SlotSourced(f, th, src, r, b, s) {
      MergedSlotAt(f, th, SlotsOf(a, b), incoming, |incoming|, s);
      SlotStaysSourced(f, th, src, a, r, b, s, incoming);
    }
  }

  lemma LeavingStaysSourced(
    f: Function, th: seq<int>, src: Analysis, a: Analysis, r: Analysis, p: nat)
    requires GoodThresholds(th) && Shaped(f, src) && Shaped(f, a) && Shaped(f, r) && p < |f.blocks| && src.hasEntry[p]
    requires ProperLocals(f, OutState(f, src, p).locals) && AllSourced(f, th, src, a)
    requires LeavesInto(f, th, f.blocks[p].terminator, OutState(f, src, p), a, r)
    ensures AllSourced(f, th, src, r)
  {
    hide AllSourced, MergesInto, GoodThresholds, RefinedLocals, AbsAt;
    var t, out := f.blocks[p].terminator, OutState(f, src, p);
    if t.Jump? {
      var m :| Shaped(f, m) && MergesInto(f, th, a, m, BlockIndex(f, t.target), out.locals) && r == m;
      Fed(f, src, p, t.target, out.locals);
      MergeStaysSourced(f, th, src, a, m, BlockIndex(f, t.target), out.locals);
    } else if t.Branch? {
      var refined := t.condition in out.comparisons;
      var yes := if refined then RefinedLocals(out, out.comparisons[t.condition], true) else Refined(true, out.locals);
      var no := if refined then RefinedLocals(out, out.comparisons[t.condition], false) else Refined(true, out.locals);
      var m :| Shaped(f, m) &&
        (if yes.reachable then MergesInto(f, th, a, m, BlockIndex(f, t.target), yes.locals) else m == a) &&
        (if no.reachable then MergesInto(f, th, m, r, BlockIndex(f, t.falseTarget), no.locals) else r == m);
      if refined { BranchesProper(f, out, out.comparisons[t.condition]); }
      if yes.reachable {
        Fed(f, src, p, t.target, yes.locals);
        MergeStaysSourced(f, th, src, a, m, BlockIndex(f, t.target), yes.locals);
      }
      if no.reachable {
        Fed(f, src, p, t.falseTarget, no.locals);
        MergeStaysSourced(f, th, src, m, r, BlockIndex(f, t.falseTarget), no.locals);
      }
    }
  }

  lemma BranchesProper(f: Function, out: State, c: Comparison)
    requires ProperLocals(f, out.locals)
    ensures RefinedLocals(out, c, true).reachable ==> ProperLocals(f, RefinedLocals(out, c, true).locals)
    ensures RefinedLocals(out, c, false).reachable ==> ProperLocals(f, RefinedLocals(out, c, false).locals)
  {
    hide RefinedLocals;
    if RefinedLocals(out, c, true).reachable { RefinedProper(f, out, c, true); }
    if RefinedLocals(out, c, false).reachable { RefinedProper(f, out, c, false); }
  }

  lemma Fed(f: Function, src: Analysis, p: nat, target: nat, locals: seq<Range>)
    requires Shaped(f, src) && p < |f.blocks| && src.hasEntry[p] && |locals| == |f.localTypes|
    requires BlockIndex(f, target) >= 0 ==>
               Delivers(f, f.blocks[p].terminator, OutState(f, src, p), BlockIndex(f, target), locals)
    ensures BlockIndex(f, target) >= 0 ==> IsSource(f, src, BlockIndex(f, target), locals)
  {
    hide Delivers;
    if BlockIndex(f, target) >= 0 { assert Feeds(f, src, p, BlockIndex(f, target), locals); }
  }

  // ----- wider entries hand over wider locals -----

  ghost predicate ComparisonsAlike(f: Function, c: Comparison, d: Comparison) {
    && c.op == d.op && c.leftOrigin == d.leftOrigin && c.rightOrigin == d.rightOrigin
    && Inside(c.left, d.left) && Inside(c.right, d.right)
    && IntOrigin(f, c.leftOrigin) && IntOrigin(f, c.rightOrigin)
  }

  predicate IntOrigin(f: Function, o: Origin) {
    o.Origin? ==> o.slot < |f.localTypes| && f.localTypes[o.slot].Int?
  }

  /** Two passes over the same instructions differ in their intervals only. */
  ghost predicate SameRecords(f: Function, small: State, large: State) {
    && small.versions == large.versions && small.origins == large.origins
    && (forall v :: 0 <= v < |small.origins| && TypeOf(f, v).Int? ==> IntOrigin(f, small.origins[v]))
    && small.comparisons.Keys == large.comparisons.Keys
    && (forall c :: c in small.comparisons ==> ComparisonsAlike(f, small.comparisons[c], large.comparisons[c]))
  }

  lemma StepKeepsRecords(f: Function, i: Instruction, small: State, large: State)
    requires InstructionTyped(f, i) && ProperState(f, small) && ProperState(f, large)
    requires WithinState(f, small, large) && SameRecords(f, small, large)
    ensures SameRecords(f, AbsStep(i, small), AbsStep(i, large))
  {
    hide StepSafe, ArithmeticRange, ComparisonsAlike, Supported, ConstantsFit;
    if IsComparison(i.opcode) {
      ComparisonKeepsRecords(f, i, small, large);
    } else if i.opcode.LoadLocal? {
      LoadKeepsRecords(f, i, small, large);
    }
  }

  lemma LoadKeepsRecords(f: Function, i: Instruction, small: State, large: State)
    requires InstructionTyped(f, i) && ProperState(f, small) && ProperState(f, large) && i.opcode.LoadLocal?
    requires WithinState(f, small, large) && SameRecords(f, small, large)
    ensures SameRecords(f, AbsStep(i, small), AbsStep(i, large))
  {
    hide ComparisonsAlike;
    assert TypeOf(f, i.result).Int? ==> f.localTypes[i.localIndex].Int?;
  }

  lemma ComparisonKeepsRecords(f: Function, i: Instruction, small: State, large: State)
    requires InstructionTyped(f, i) && ProperState(f, small) && ProperState(f, large) && IsComparison(i.opcode)
    requires WithinState(f, small, large) && SameRecords(f, small, large)
    ensures SameRecords(f, AbsStep(i, small), AbsStep(i, large))
  {
    ComparesInts(f, i);
    var c := Comparison(i.opcode, OperandRange(i, small, 0), OperandRange(i, small, 1),
                        ValueOrigin(small, i.operands[0]), ValueOrigin(small, i.operands[1]));
    var d := Comparison(i.opcode, OperandRange(i, large, 0), OperandRange(i, large, 1),
                        ValueOrigin(large, i.operands[0]), ValueOrigin(large, i.operands[1]));
    assert ComparisonsAlike(f, c, d);
    hide ComparisonsAlike;
  }

  lemma {:induction false} RecordsAt(f: Function, b: BasicBlock, small: seq<Range>, large: seq<Range>, k: nat)
    requires BlockTyped(f, b) && k <= |b.instructions|
    requires ProperLocals(f, small) && ProperLocals(f, large) && Within(f, small, large)
    ensures SameRecords(f, AbsAt(f, b, small, k), AbsAt(f, b, large, k))
  {
    hide AbsStep, AbsAt, TypeOf, ProperState, WithinState, InstructionTyped, ProperLocals, Within, SameRecords;
    if k == 0 {
      StartRecords(f, b, small, large);
    } else {
      RecordsAt(f, b, small, large, k - 1);
      AbsWithin(f, b, small, large, k - 1);
      ProperAt(f, b, small, k - 1);
      ProperAt(f, b, large, k - 1);
      OneMoreStep(f, b, small, k);
      OneMoreStep(f, b, large, k);
      StepKeepsRecords(f, b.instructions[k - 1], AbsAt(f, b, small, k - 1), AbsAt(f, b, large, k - 1));
    }
  }

  lemma StartRecords(f: Function, b: BasicBlock, small: seq<Range>, large: seq<Range>)
    requires Within(f, small, large)
    ensures SameRecords(f, AbsAt(f, b, small, 0), AbsAt(f, b, large, 0))
  {
  }

  /** Where every refined local keeps its inclusion, and none becomes empty in the larger state. */
  ghost predicate RefinedInside(f: Function, small: Refined, large: Refined) {
    && Within(f, small.locals, large.locals)
    && (small.reachable ==> large.reachable && ProperLocals(f, small.locals))
  }

  lemma MinimumInside(f: Function, small: State, large: State, r: Refined, q: Refined, o: Origin, m: int, n: int)
    requires small.versions == large.versions && IntOrigin(f, o) && n <= m && RefinedInside(f, r, q)
    ensures RefinedInside(f, RefineMinimum(small, r, o, m), RefineMinimum(large, q, o, n))
  {
  }

  lemma MaximumInside(f: Function, small: State, large: State, r: Refined, q: Refined, o: Origin, m: int, n: int)
    requires small.versions == large.versions && IntOrigin(f, o) && n >= m && RefinedInside(f, r, q)
    ensures RefinedInside(f, RefineMaximum(small, r, o, m), RefineMaximum(large, q, o, n))
  {
  }

  lemma MinimumMaximumInside(
    f: Function, small: State, large: State, o: Origin, m: int, m': int, p: Origin, n: int, n': int)
    requires small.versions == large.versions && IntOrigin(f, o) && IntOrigin(f, p) && m' <= m && n' >= n
    requires Within(f, small.locals, large.locals) && ProperLocals(f, small.locals)
    ensures RefinedInside(f, RefineMaximum(small, RefineMinimum(small, Refined(true, small.locals), o, m), p, n),
                          RefineMaximum(large, RefineMinimum(large, Refined(true, large.locals), o, m'), p, n'))
    ensures RefinedInside(f, RefineMinimum(small, RefineMaximum(small, Refined(true, small.locals), p, n), o, m),
                          RefineMinimum(large, RefineMaximum(large, Refined(true, large.locals), p, n'), o, m'))
  {
    hide RefineMinimum, RefineMaximum, IntOrigin;
    var r, q := Refined(true, small.locals), Refined(true, large.locals);
    MinimumInside(f, small, large, r, q, o, m, m');
    MaximumInside(f, small, large, RefineMinimum(small, r, o, m), RefineMinimum(large, q, o, m'), p, n, n');
    MaximumInside(f, small, large, r, q, p, n, n');
    MinimumInside(f, small, large, RefineMaximum(small, r, p, n), RefineMaximum(large, q, p, n'), o, m, m');
  }

  /** The larger state's branch keeps at least what the smaller one's keeps. */
  lemma RefinementGrows(f: Function, small: State, large: State, c: Comparison, d: Comparison, taken: bool)
    requires small.versions == large.versions && ComparisonsAlike(f, c, d)
    requires Within(f, small.locals, large.locals) && ProperLocals(f, small.locals)
    ensures RefinedInside(f, RefinedLocals(small, c, taken), RefinedLocals(large, d, taken))
  {
    hide RefineMinimum, RefineMaximum, Within, ProperLocals, IntOrigin, RefinedInside;
    var lo, ro := c.leftOrigin, c.rightOrigin;
    NoneRefined(f, small, large);
    match (c.op, taken)
    case (LessInt, true) =>
      MinimumMaximumInside(f, small, large, ro, c.left.min + 1, d.left.min + 1, lo, c.right.max - 1, d.right.max - 1);
    case (LessInt, false) =>
      MinimumMaximumInside(f, small, large, lo, c.right.min, d.right.min, ro, c.left.max, d.left.max);
    case (LessOrEqualInt, true) =>
      MinimumMaximumInside(f, small, large, ro, c.left.min, d.left.min, lo, c.right.max, d.right.max);
    case (LessOrEqualInt, false) =>
      MinimumMaximumInside(f, small, large, lo, c.right.min + 1, d.right.min + 1, ro, c.left.max - 1, d.left.max - 1);
    case (GreaterInt, true) =>
      MinimumMaximumInside(f, small, large, lo, c.right.min + 1, d.right.min + 1, ro, c.left.max - 1, d.left.max - 1);
    case (GreaterInt, false) =>
      MinimumMaximumInside(f, small, large, ro, c.left.min, d.left.min, lo, c.right.max, d.right.max);
    case (GreaterOrEqualInt, true) =>
      MinimumMaximumInside(f, small, large, lo, c.right.min, d.right.min, ro, c.left.max, d.left.max);
    case (GreaterOrEqualInt, false) =>
      MinimumMaximumInside(f, small, large, ro, c.left.min + 1, d.left.min + 1, lo, c.right.max - 1, d.right.max - 1);
    case _ =>
  }

  lemma NoneRefined(f: Function, small: State, large: State)
    requires Within(f, small.locals, large.locals) && ProperLocals(f, small.locals)
    ensures RefinedInside(f, Refined(true, small.locals), Refined(true, large.locals))
  {
  }

  /** What the narrower pass hands over lies within something the wider pass hands over. */
  lemma DeliveryGrows(
    f: Function, t: Terminator, small: State, large: State, b: nat, locals: seq<Range>) returns (wider: seq<Range>)
    requires SameRecords(f, small, large) && Within(f, small.locals, large.locals) && ProperLocals(f, small.locals)
    requires Delivers(f, t, small, b, locals)
    ensures Delivers(f, t, large, b, wider) && Within(f, locals, wider)
  {
    hide RefinedLocals, ProperLocals, ComparisonsAlike;
    wider := large.locals;
    if t.Branch? && t.condition in small.comparisons {
      var c, d := small.comparisons[t.condition], large.comparisons[t.condition];
      RefinementGrows(f, small, large, c, d, true);
      RefinementGrows(f, small, large, c, d, false);
      var yes := RefinedLocals(small, c, true);
      wider := if yes.reachable && BlockIndex(f, t.target) == b && locals == yes.locals
               then RefinedLocals(large, d, true).locals else RefinedLocals(large, d, false).locals;
    }
  }

  lemma SourceGrows(f: Function, a: Analysis, r: Analysis, b: nat, locals: seq<Range>) returns (wider: seq<Range>)
    requires Shaped(f, a) && Shaped(f, r) && IsSource(f, a, b, locals)
    requires forall c :: 0 <= c < |f.blocks| ==> BlockTyped(f, f.blocks[c])
    requires forall c :: 0 <= c < |f.blocks| && a.hasEntry[c] ==> r.hasEntry[c] && Within(f, a.entryLocals[c], r.entryLocals[c])
    ensures IsSource(f, r, b, wider) && Within(f, locals, wider)
  {
    hide BlockTyped, AbsAt, Delivers;
    if b == BlockIndex(f, 0) && locals == InitialLocals(f) {
      wider := locals;
    } else {
      var p: nat :| Feeds(f, a, p, b, locals);
      var block := f.blocks[p];
      var n := |block.instructions|;
      AbsWithin(f, block, a.entryLocals[p], r.entryLocals[p], n);
      RecordsAt(f, block, a.entryLocals[p], r.entryLocals[p], n);
      ProperAt(f, block, a.entryLocals[p], n);
      wider := DeliveryGrows(f, block.terminator, OutState(f, a, p), OutState(f, r, p), b, locals);
      assert Feeds(f, r, p, b, wider);
    }
  }

  lemma SlotKeepsSource(f: Function, th: seq<int>, a: Analysis, r: Analysis, b: nat, s: nat)
    requires Shaped(f, a) && Shaped(f, r) && b < |f.blocks| && s < |f.localTypes| && f.localTypes[s].Int?
    requires SlotSourced(f, th, a, r, b, s)
    requires forall c :: 0 <= c < |f.blocks| ==> BlockTyped(f, f.blocks[c])
    requires forall c :: 0 <= c < |f.blocks| && a.hasEntry[c] ==> r.hasEntry[c] && Within(f, a.entryLocals[c], r.entryLocals[c])
    ensures SlotSourced(f, th, r, r, b, s)
  {
    hide IsSource, BlockTyped;
    var low: seq<Range> :| |low| == |f.localTypes| && IsSource(f, a, b, low) && LowFrom(th, r.lowerUpdates[b][s], r.entryLocals[b][s].min, low[s].min);
    var high: seq<Range> :| |high| == |f.localTypes| && IsSource(f, a, b, high) && HighFrom(th, r.upperUpdates[b][s], r.entryLocals[b][s].max, high[s].max);
    var lower := SourceGrows(f, a, r, b, low);
    var higher := SourceGrows(f, a, r, b, high);
    assert |lower| == |f.localTypes| && IsSource(f, r, b, lower) && LowFrom(th, r.lowerUpdates[b][s], r.entryLocals[b][s].min, lower[s].min);
    assert |higher| == |f.localTypes| && IsSource(f, r, b, higher) && HighFrom(th, r.upperUpdates[b][s], r.entryLocals[b][s].max, higher[s].max);
  }

  lemma SourcesGrow(f: Function, th: seq<int>, a: Analysis, r: Analysis)
    requires Shaped(f, a) && Shaped(f, r) && AllSourced(f, th, a, r)
    requires forall c :: 0 <= c < |f.blocks| ==> BlockTyped(f, f.blocks[c])
    requires forall c :: 0 <= c < |f.blocks| && a.hasEntry[c] ==> r.hasEntry[c] && Within(f, a.entryLocals[c], r.entryLocals[c])
    ensures AllSourced(f, th, r, r)
  {
    hide IsSource, SlotSourced, BlockTyped, Within;
    forall b | 0 <= b < |f.blocks| ensures BlockSourced(f, th, r, r, b) {
      assert BlockSourced(f, th, a, r, b);
      if r.hasEntry[b] {
        var locals :| IsSource(f, a, b, locals);
        var _ := SourceGrows(f, a, r, b, locals);
        forall s | 0 <= s < |f.localTypes| && f.localTypes[s].Int? ensures SlotSourced(f, th, r, r, b, s) {
          SlotKeepsSource(f, th, a, r, b, s);
        }
      }
    }
  }

  // ----- the whole run -----

  lemma TurnStaysSourced(f: Function, th: seq<int>, a: Analysis, workIndex: nat, r: Analysis)
    requires GoodThresholds(th) && Shaped(f, a) && Shaped(f, r) && workIndex < |a.worklist|
    requires forall c :: 0 <= c < |f.blocks| ==> BlockTyped(f, f.blocks[c])
    requires AllSourced(f, th, a, a) && TurnsInto(f, th, a, workIndex, r)
    ensures AllSourced(f, th, r, r)
  {
    hide BlockTyped, BlockSourced, LeavesInto, AbsAt, GoodThresholds;
    var b := a.worklist[workIndex];
    var popped := a.(queued := a.queued[b := false]);
    forall c | 0 <= c < |f.blocks| ensures BlockSourced(f, th, a, popped, c) {
      OtherBlocksStaySourced(f, th, a, a, popped, b, c);
    }
    ProperAt(f, f.blocks[b], a.entryLocals[b], |f.blocks[b].instructions|);
    LeavingStaysSourced(f, th, a, popped, r, b);
    SourcesGrow(f, th, a, r);
  }

  lemma StartSourced(f: Function, th: seq<int>)
    requires BlockIndex(f, 0) >= 0 && Shaped(f, InitialAnalysis(f, BlockIndex(f, 0)))
    ensures var a := InitialAnalysis(f, BlockIndex(f, 0)); AllSourced(f, th, a, a)
  {
    var b := BlockIndex(f, 0);
    var a := InitialAnalysis(f, b);
    forall c | 0 <= c < |f.blocks| ensures BlockSourced(f, th, a, a, c) {
      if c == b {
        assert IsSource(f, a, b, InitialLocals(f));
        FirstEntrySourced(f, th, a, a, b, InitialLocals(f));
      }
    }
  }

  lemma {:induction false} RunStaysSourced(f: Function, th: seq<int>, trace: seq<Analysis>)
    requires GoodThresholds(th) && WorkedSoFar(f, th, trace)
    requires forall c :: 0 <= c < |f.blocks| ==> BlockTyped(f, f.blocks[c])
    ensures var a := trace[|trace| - 1]; AllSourced(f, th, a, a)
    decreases |trace|
  {
    hide BlockTyped, AllSourced, TurnsInto, GoodThresholds, Shaped;
    if |trace| == 1 {
      StartSourced(f, th);
    } else {
      var n := |trace| - 1;
      RunStaysSourced(f, th, trace[..n]);
      TurnStaysSourced(f, th, trace[n - 1], n - 1, trace[n]);
    }
  }

  /** Every entered block is entered from somewhere, and each bound of each of its int locals is the
      bound of something that comes in, or, after more than eight moves, the nearest threshold. */
  ghost predicate Tight(f: Function, th: seq<int>, a: Analysis)
    requires Shaped(f, a)
  {
    forall b :: 0 <= b < |f.blocks| && a.hasEntry[b] ==>
      && (exists locals: seq<Range> :: IsSource(f, a, b, locals))
      && forall s :: 0 <= s < |f.localTypes| && f.localTypes[s].Int? ==> SlotTight(f, th, a, b, s)
  }

  ghost predicate SlotTight(f: Function, th: seq<int>, a: Analysis, b: nat, s: nat)
    requires Shaped(f, a) && b < |f.blocks| && s < |f.localTypes|
  {
    var r := a.entryLocals[b][s];
    && (exists locals: seq<Range> :: |locals| == |f.localTypes| && IsSource(f, a, b, locals) &&
          (r.min == locals[s].min || (a.lowerUpdates[b][s] > 8 && NearestBelow(th, r.min, locals[s].min))))
    && (exists locals: seq<Range> :: |locals| == |f.localTypes| && IsSource(f, a, b, locals) &&
          (r.max == locals[s].max || (a.upperUpdates[b][s] > 8 && NearestAbove(th, r.max, locals[s].max))))
  }

  /** At a fixpoint a source lies within the entry. */
  lemma SourceIsCovered(f: Function, a: Analysis, b: nat, locals: seq<Range>)
    requires IsFixpoint(f, a) && b < |f.blocks| && IsSource(f, a, b, locals)
    ensures Within(f, locals, a.entryLocals[b])
  {
    hide AbsAt, RefinedLocals;
    if p: nat :| Feeds(f, a, p, b, locals) {
      assert ExitsCovered(f, a, f.blocks[p].terminator, OutState(f, a, p));
    }
  }

  lemma SourcedIsTight(f: Function, th: seq<int>, a: Analysis, b: nat, s: nat)
    requires Shaped(f, a) && IsFixpoint(f, a) && b < |f.blocks| && s < |f.localTypes| && f.localTypes[s].Int?
    requires SlotSourced(f, th, a, a, b, s)
    ensures SlotTight(f, th, a, b, s)
  {
    hide IsSource, IsFixpoint;
    var r := a.entryLocals[b][s];
    var low: seq<Range> :| |low| == |f.localTypes| && IsSource(f, a, b, low) && LowFrom(th, a.lowerUpdates[b][s], r.min, low[s].min);
    var high: seq<Range> :| |high| == |f.localTypes| && IsSource(f, a, b, high) && HighFrom(th, a.upperUpdates[b][s], r.max, high[s].max);
    SourceIsCovered(f, a, b, low);
    SourceIsCovered(f, a, b, high);
  }

  /** The fixpoint the worklist ends with is tight. */
  lemma AnalysisIsTight(f: Function, th: seq<int>, trace: seq<Analysis>, safe: set<ValueId>)
    requires Analyzable(f) && Worked(f, th, trace) && Certified(f, trace[|trace| - 1], safe)
    ensures Tight(f, th, trace[|trace| - 1])
  {
    hide BlockTyped, IsSource, SlotSourced, SlotTight, IsThreshold;
    var a := trace[|trace| - 1];
    forall c | 0 <= c < |f.blocks| ensures BlockTyped(f, f.blocks[c]) { CompiledBlockTyped(f, c); }
    TheseAreGood(f, th);
    RunStaysSourced(f, th, trace);
    forall b | 0 <= b < |f.blocks| && a.hasEntry[b]
      ensures exists locals: seq<Range> :: IsSource(f, a, b, locals)
      ensures forall s :: 0 <= s < |f.localTypes| && f.localTypes[s].Int? ==> SlotTight(f, th, a, b, s)
    {
      assert BlockSourced(f, th, a, a, b);
      forall s | 0 <= s < |f.localTypes| && f.localTypes[s].Int? ensures SlotTight(f, th, a, b, s) {
        SourcedIsTight(f, th, a, b, s);
      }
    }
  }

  lemma TheseAreGood(f: Function, th: seq<int>)
    requires Sorted(th) && forall x :: x in th <==> IsThreshold(f, x)
    ensures GoodThresholds(th)
  {
    ThresholdsGood(f, th);
  }

  /** The set is what a tight fixpoint decides. */
  ghost predicate TightlyCertified(f: Function, th: seq<int>, a: Analysis, safe: set<ValueId>) {
    Certified(f, a, safe) && Tight(f, th, a) && forall x :: x in th <==> IsThreshold(f, x)
  }

  lemma WorkedIsTight(f: Function, th: seq<int>, trace: seq<Analysis>, safe: set<ValueId>)
    requires Analyzable(f) && Worked(f, th, trace) && Certified(f, trace[|trace| - 1], safe)
    ensures TightlyCertified(f, th, trace[|trace| - 1], safe)
  {
    hide Tight, Analyzable, IsThreshold;
    AnalysisIsTight(f, th, trace, safe);
  }

  /** What the analysis returns is decided by a fixpoint that is tight. */
  method AnalyzeTightly(f: Function) returns (safe: set<ValueId>)
    requires Analyzable(f)
    ensures exists th, a :: TightlyCertified(f, th, a, safe)
  {
    hide Analyzable, Certified, TightlyCertified, TurnsInto, Shaped, IsThreshold, Sorted;
    safe := AnalyzeTypedIntegerRanges(f);
    ghost var th, trace :| Worked(f, th, trace) && Certified(f, trace[|trace| - 1], safe);
    WorkedIsTight(f, th, trace, safe);
  }
}
