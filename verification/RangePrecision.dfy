/** How precise the interval analysis is (src/aot_cpp/AotCpp.cpp:361-705): its arithmetic and its
    branch refinement are exact, and the intervals it ends with are as narrow as widening allows. */
module RangePrecision {
  import opened Scalars
  import opened Mir
  import opened AotSemantics
  import opened TypedRanges
  import opened RangeAnalysis

  // ----- arithmetic -----

  /** What the operation gives for x and y. */
  function ResultOf(op: Opcode, x: int, y: int): int
    requires Elidable(op)
  {
    if op.NegateInt? then -x else Compute(op, x, y)
  }

  predicate Nonempty(r: Range) { r.min <= r.max }

  /** Some operands within the ranges give n. */
  ghost predicate Attained(op: Opcode, l: Range, r: Range, n: int)
    requires Elidable(op)
  {
    exists x, y :: Contains(l, x) && Contains(r, y) && ResultOf(op, x, y) == n
  }

  lemma Attains(op: Opcode, l: Range, r: Range, x: int, y: int)
    requires Elidable(op) && Contains(l, x) && Contains(r, y)
    ensures Attained(op, l, r, ResultOf(op, x, y))
  {
  }

  /** Both ends of the interval an operation is given are results of operands within the operands'
      intervals; with soundness, it is the least interval that holds them all. */
  lemma EndsAreAttained(op: Opcode, l: Range, r: Range)
    requires Elidable(op) && Nonempty(l) && Nonempty(r)
    ensures Attained(op, l, r, ArithmeticRange(op, l, r).min)
    ensures Attained(op, l, r, ArithmeticRange(op, l, r).max)
  {
    hide Attained;
    Attains(op, l, r, l.min, r.min);
    Attains(op, l, r, l.min, r.max);
    Attains(op, l, r, l.max, r.min);
    Attains(op, l, r, l.max, r.max);
  }

  /** Every result of operands within the intervals lies in the interval it is given. */
  lemma ResultsAreInside(op: Opcode, l: Range, r: Range, x: int, y: int)
    requires Elidable(op) && Contains(l, x) && Contains(r, y)
    ensures Contains(ArithmeticRange(op, l, r), ResultOf(op, x, y))
  {
    if op.MultiplyInt? { ProductBetween(l, r, x, y); }
  }

  /** The overflow check is dropped exactly when no pair of operands within their intervals leaves
      int32. */
  lemma SafeExactly(i: Instruction, a: State)
    requires Elidable(i.opcode) && Proper(OperandRange(i, a, 0)) && Nonempty(OperandRange(i, a, 1))
    ensures StepSafe(i, a) <==>
            forall x, y :: Contains(OperandRange(i, a, 0), x) && Contains(OperandRange(i, a, 1), y) ==>
              InInt32(ResultOf(i.opcode, x, y))
  {
    var l, r := OperandRange(i, a, 0), OperandRange(i, a, 1);
    var result := ArithmeticRange(i.opcode, l, r);
    EndsAreAttained(i.opcode, l, r);
    var x, y :| Contains(l, x) && Contains(r, y) && ResultOf(i.opcode, x, y) == result.min;
    var x', y' :| Contains(l, x') && Contains(r, y') && ResultOf(i.opcode, x', y') == result.max;
    forall p, q | Contains(l, p) && Contains(r, q) ensures Contains(result, ResultOf(i.opcode, p, q)) {
      ResultsAreInside(i.opcode, l, r, p, q);
    }
  }

  /** The instruction can give n when its operands and locals lie in their intervals. */
  ghost predicate CanGive(i: Instruction, a: State, n: int) {
    if i.opcode.ConstantInt? then n == i.integerImmediate
    else if i.opcode.LoadLocal? then i.localIndex < |a.locals| && Contains(a.locals[i.localIndex], n)
    else if Elidable(i.opcode) then Attained(i.opcode, OperandRange(i, a, 0), OperandRange(i, a, 1), n)
    else InInt32(n)
  }

  /** Whatever an int instruction records, its ends can be given: constants are recorded as
      themselves, loads as their local, safe arithmetic as the least interval, and only the others and
      arithmetic that may overflow as all of int32. */
  lemma RecordsAreTight(f: Function, i: Instruction, a: State)
    requires InstructionTyped(f, i) && ProperState(f, a) && i.resultType.Int? && !i.opcode.StoreLocal?
    ensures var r := AbsStep(i, a).values[i.result];
            if Elidable(i.opcode) && !StepSafe(i, a) then r == FULL
            else CanGive(i, a, r.min) && CanGive(i, a, r.max)
  {
    hide Attained, ArithmeticRange, StepSafe;
    if Elidable(i.opcode) {
      ArithmeticOnInts(f, i);
      IntOperandsProper(f, i, a, 0);
      if !i.opcode.NegateInt? { IntOperandsProper(f, i, a, 1); }
      EndsAreAttained(i.opcode, OperandRange(i, a, 0), OperandRange(i, a, 1));
    } else if i.opcode.LoadLocal? {
      assert Proper(a.locals[i.localIndex]);
    }
  }

  /** A store hands its operand's interval to its local, and leaves the others alone. */
  lemma StoresAreTight(f: Function, i: Instruction, a: State)
    requires InstructionTyped(f, i) && ProperState(f, a) && i.opcode.StoreLocal?
    ensures AbsStep(i, a).locals == a.locals[i.localIndex := OperandRange(i, a, 0)]
  {
  }

  // ----- refinement -----

  /** The operand was loaded from the slot, and the slot has not been stored to since. */
  predicate StillIn(a: State, o: Origin, s: nat) {
    o.Origin? && o.slot == s && s < |a.locals| && s < |a.versions| && o.version == a.versions[s]
  }

  /** n can be the left operand of a comparison that comes out like that. */
  ghost predicate LeftCan(c: Comparison, taken: bool, n: int)
    requires IsComparison(c.op)
  {
    exists y :: Contains(c.right, y) && Compare(c.op, n, y) == taken
  }

  ghost predicate RightCan(c: Comparison, taken: bool, n: int)
    requires IsComparison(c.op)
  {
    exists x :: Contains(c.left, x) && Compare(c.op, x, n) == taken
  }

  lemma LeftWitness(c: Comparison, taken: bool, n: int)
    requires IsComparison(c.op) && Nonempty(c.right)
    ensures LeftCan(c, taken, n) <==> Compare(c.op, n, c.right.min) == taken || Compare(c.op, n, c.right.max) == taken
  {
    if Compare(c.op, n, c.right.min) == taken { assert Contains(c.right, c.right.min); }
    if Compare(c.op, n, c.right.max) == taken { assert Contains(c.right, c.right.max); }
  }

  lemma RightWitness(c: Comparison, taken: bool, n: int)
    requires IsComparison(c.op) && Nonempty(c.left)
    ensures RightCan(c, taken, n) <==> Compare(c.op, c.left.min, n) == taken || Compare(c.op, c.left.max, n) == taken
  {
    if Compare(c.op, c.left.min, n) == taken { assert Contains(c.left, c.left.min); }
    if Compare(c.op, c.left.max, n) == taken { assert Contains(c.left, c.left.max); }
  }

  lemma RefinedBelow(a: State, c: Comparison, taken: bool, s: nat, n: int)
    requires IsComparison(c.op) && Nonempty(c.left) && Nonempty(c.right)
    requires s < |a.locals| <= |a.versions| && (c.op.LessInt? || c.op.LessOrEqualInt?)
    ensures |RefinedLocals(a, c, taken).locals| == |a.locals|
    ensures Contains(RefinedLocals(a, c, taken).locals[s], n) <==>
            && Contains(a.locals[s], n)
            && (StillIn(a, c.leftOrigin, s) ==> LeftCan(c, taken, n))
            && (StillIn(a, c.rightOrigin, s) ==> RightCan(c, taken, n))
  {
    hide LeftCan, RightCan;
    LeftWitness(c, taken, n);
    RightWitness(c, taken, n);
  }

  lemma RefinedAbove(a: State, c: Comparison, taken: bool, s: nat, n: int)
    requires IsComparison(c.op) && Nonempty(c.left) && Nonempty(c.right)
    requires s < |a.locals| <= |a.versions| && (c.op.GreaterInt? || c.op.GreaterOrEqualInt?)
    ensures |RefinedLocals(a, c, taken).locals| == |a.locals|
    ensures Contains(RefinedLocals(a, c, taken).locals[s], n) <==>
            && Contains(a.locals[s], n)
            && (StillIn(a, c.leftOrigin, s) ==> LeftCan(c, taken, n))
            && (StillIn(a, c.rightOrigin, s) ==> RightCan(c, taken, n))
  {
    hide LeftCan, RightCan;
    LeftWitness(c, taken, n);
    RightWitness(c, taken, n);
  }

  /** Refinement is exact: of a local it keeps the values with which the comparison can come out as it
      did, and no others. */
  lemma RefinedExactly(a: State, c: Comparison, taken: bool, s: nat, n: int)
    requires IsComparison(c.op) && Nonempty(c.left) && Nonempty(c.right)
    requires s < |a.locals| <= |a.versions|
    ensures |RefinedLocals(a, c, taken).locals| == |a.locals|
    ensures Contains(RefinedLocals(a, c, taken).locals[s], n) <==>
            && Contains(a.locals[s], n)
            && (StillIn(a, c.leftOrigin, s) ==> LeftCan(c, taken, n))
            && (StillIn(a, c.rightOrigin, s) ==> RightCan(c, taken, n))
  {
    hide LeftCan, RightCan, RefinedLocals;
    if c.op.LessInt? || c.op.LessOrEqualInt? { RefinedBelow(a, c, taken, s, n); } else { RefinedAbove(a, c, taken, s, n); }
  }

  /** An edge is judged unreachable exactly when a local it refines has no value left. */
  lemma UnreachableExactly(a: State, c: Comparison, taken: bool)
    requires IsComparison(c.op) && |a.locals| <= |a.versions|
    ensures var r := RefinedLocals(a, c, taken);
            |r.locals| == |a.locals| &&
            (r.reachable <==> forall s :: 0 <= s < |a.locals| && (StillIn(a, c.leftOrigin, s) || StillIn(a, c.rightOrigin, s)) ==>
                                            Nonempty(r.locals[s]))
  {
    var r := RefinedLocals(a, c, taken);
    if c.leftOrigin.Origin? && StillIn(a, c.leftOrigin, c.leftOrigin.slot) { assert 0 <= c.leftOrigin.slot < |a.locals|; }
    if c.rightOrigin.Origin? && StillIn(a, c.rightOrigin, c.rightOrigin.slot) { assert 0 <= c.rightOrigin.slot < |a.locals|; }
  }

  // ----- merging -----

  predicate NearestBelow(th: seq<int>, bound: int, n: int) {
    bound in th && bound <= n && forall t | t in th :: t <= n ==> t <= bound
  }

  predicate NearestAbove(th: seq<int>, bound: int, n: int) {
    bound in th && bound >= n && forall t | t in th :: t >= n ==> t >= bound
  }

  /** Widening goes to the nearest threshold and no further. */
  lemma WidensToNearest(th: seq<int>, n: int)
    requires GoodThresholds(th) && InInt32(n)
    ensures NearestBelow(th, WidenedMinimum(th, n), n) && NearestAbove(th, WidenedMaximum(th, n), n)
  {
    WideningCovers(th, n);
    var u, l := UpperBound(th, n), LowerBound(th, n);
    forall t | t in th && t <= n ensures t <= WidenedMinimum(th, n) {
      var j :| 0 <= j < |th| && th[j] == t;
    }
    forall t | t in th && t >= n ensures t >= WidenedMaximum(th, n) {
      var j :| 0 <= j < |th| && th[j] == t;
    }
  }

  /** A merge is the least interval that holds both, until a bound has moved more than eight times;
      from then on a bound that moves goes to the nearest threshold.  The moves are counted one by one. */
  lemma MergeIsLeast(th: seq<int>, s: Slot, incoming: Range)
    requires GoodThresholds(th) && Proper(s.range) && Proper(incoming)
    ensures var r := MergeSlot(th, s, incoming);
            && (if incoming.min >= s.range.min then r.range.min == s.range.min && r.lower == s.lower
                else r.lower == (if s.lower == 255 then 255 else s.lower + 1) &&
                     if r.lower <= 8 then r.range.min == incoming.min else NearestBelow(th, r.range.min, incoming.min))
            && (if incoming.max <= s.range.max then r.range.max == s.range.max && r.upper == s.upper
                else r.upper == (if s.upper == 255 then 255 else s.upper + 1) &&
                     if r.upper <= 8 then r.range.max == incoming.max else NearestAbove(th, r.range.max, incoming.max))
  {
    hide WidenedMinimum, WidenedMaximum, GoodThresholds, NearestBelow, NearestAbove;
    WidensToNearest(th, incoming.min);
    WidensToNearest(th, incoming.max);
  }
}
