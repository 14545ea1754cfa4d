/** The interval domain of analyzeTypedIntegerRanges (src/aot_cpp/AotCpp.cpp:361-705): which
    functions get the typed lowering, what the analysis records inside one block, and why what
    it records is true of every frame that runs through the block. */
module TypedRanges {
  import opened Scalars
  import opened Mir
  import opened AotSemantics
  import Ssa

  // ----- which functions are compiled this way -----

  predicate IsTypedPrimitive(t: PrimitiveType) { t.Int? || t.Bool? }

  function OperandType(f: Function, i: Instruction, index: nat): PrimitiveType {
    if index < |i.operands| && i.operands[index] >= 0 then TypeOf(f, i.operands[index]) else ErrorType
  }

  predicate SupportedInstruction(f: Function, i: Instruction) {
    match i.opcode
    case AddInt | SubtractInt | MultiplyInt | DivideInt | RemainderInt | NegateInt => i.checkedArithmetic
    case LogicalNot => OperandType(f, i, 0).Bool?
    case Equal | NotEqual => OperandType(f, i, 0) == OperandType(f, i, 1)
    case OtherOpcode => false
    case _ => true
  }

  predicate SupportedTerminator(t: Terminator) {
    t.ReturnVoid? || t.ReturnValue? || t.Jump? || t.Branch?
  }

  /** supportsTypedPrimitiveAot (AotCpp.cpp:707-777). */
  predicate Supported(f: Function) {
    && !f.hasHandlers
    && (f.returnType.Void? || IsTypedPrimitive(f.returnType))
    && (forall p | 0 <= p < |f.parameterTypes| :: IsTypedPrimitive(f.parameterTypes[p]))
    && (forall s | 0 <= s < |f.localTypes| :: IsTypedPrimitive(f.localTypes[s]))
    && (forall v | 0 <= v < RegisterCount(f) :: IsTypedPrimitive(TypeOf(f, v)))
    && (forall i | 0 <= i < |f.blocks| ::
          SupportedTerminator(f.blocks[i].terminator) &&
          forall k | 0 <= k < |f.blocks[i].instructions| :: SupportedInstruction(f, f.blocks[i].instructions[k]))
  }

  /** Int constants are int32 values, as the front end makes them. */
  predicate ConstantsFit(f: Function) {
    forall i, k | 0 <= i < |f.blocks| && 0 <= k < |f.blocks[i].instructions| ::
      f.blocks[i].instructions[k].opcode.ConstantInt? ==> InInt32(f.blocks[i].instructions[k].integerImmediate)
  }

  /** bb0 is entered by the caller, who passes no block arguments. */
  predicate EntryTakesNothing(f: Function) {
    var entry := BlockIndex(f, 0);
    entry >= 0 ==> f.blocks[entry].parameters == []
  }

  /** The functions the generator hands to the range analysis. */
  ghost predicate Analyzable(f: Function) {
    Accepted(f) && Supported(f) && ConstantsFit(f)
  }

  /** The functions the preservation theorem is about. */
  ghost predicate Compilable(f: Function) {
    Analyzable(f) && EntryTakesNothing(f)
  }

  // ----- typed frames -----

  predicate HasType(t: PrimitiveType, v: Value) {
    (t.Int? ==> v.IntValue? && InInt32(v.n)) && (t.Bool? ==> v.BoolValue?)
  }

  ghost predicate FrameTyped(f: Function, fr: Frame) {
    && |fr.locals| == |f.localTypes| && |fr.registers| == RegisterCount(f)
    && (forall s :: 0 <= s < |fr.locals| ==> HasType(f.localTypes[s], fr.locals[s]))
    && (forall v :: 0 <= v < |fr.registers| ==> HasType(TypeOf(f, v), fr.registers[v]))
  }

  /** What verification and support together say of one instruction. */
  ghost predicate InstructionTyped(f: Function, i: Instruction) {
    && InstructionOk(f, i) && SupportedInstruction(f, i)
    && (i.opcode.ConstantInt? ==> InInt32(i.integerImmediate))
    && (forall u :: 0 <= u < |i.operands| ==> 0 <= i.operands[u] < RegisterCount(f) &&
                                              IsTypedPrimitive(TypeOf(f, i.operands[u])))
    && (!i.opcode.StoreLocal? ==> 0 <= i.result < RegisterCount(f) && TypeOf(f, i.result) == i.resultType &&
                                  IsTypedPrimitive(i.resultType))
    && (forall s :: 0 <= s < |f.localTypes| ==> IsTypedPrimitive(f.localTypes[s]))
  }

  lemma CompiledInstructionTyped(f: Function, i: nat, k: nat)
    requires Analyzable(f) && i < |f.blocks| && k < |f.blocks[i].instructions|
    ensures InstructionTyped(f, f.blocks[i].instructions[k])
  {
    var instr := f.blocks[i].instructions[k];
    assert BlockOk(f, f.blocks[i]);
    InstructionBounds(f, i, k);
    if !instr.opcode.StoreLocal? { ResultTyped(f, i, k); }
    OperandsDefined(f, i, k);
  }

  lemma ResultTyped(f: Function, i: nat, k: nat)
    requires Ssa.Valid(View(f)) && i < |f.blocks| && k < |f.blocks[i].instructions|
    requires !f.blocks[i].instructions[k].opcode.StoreLocal?
    ensures f.blocks[i].instructions[k].result >= 0
    ensures TypeOf(f, f.blocks[i].instructions[k].result) == f.blocks[i].instructions[k].resultType
  {
    assert View(f)[i].steps[k] == StepOf(f.blocks[i].instructions[k]);
    Ssa.StepType(View(f), i, k);
  }

  lemma OperandsDefined(f: Function, i: nat, k: nat)
    requires Ssa.Valid(View(f)) && i < |f.blocks| && k < |f.blocks[i].instructions|
    ensures forall u :: 0 <= u < |f.blocks[i].instructions[k].operands| ==>
              Ssa.Available(View(f), f.blocks[i].id, k, f.blocks[i].instructions[k].operands[u]) &&
              f.blocks[i].instructions[k].operands[u] >= 0
  {
    var view := View(f);
    assert view[i].steps[k] == StepOf(f.blocks[i].instructions[k]);
    assert Ssa.UsesAvailable(view, i);
    forall u | 0 <= u < |f.blocks[i].instructions[k].operands|
      ensures Ssa.Available(view, f.blocks[i].id, k, f.blocks[i].instructions[k].operands[u]) &&
              f.blocks[i].instructions[k].operands[u] >= 0
    {
      assert Ssa.Available(view, view[i].id, k, view[i].steps[k].uses[u]);
      Ssa.AvailableIsDefined(view, f.blocks[i].id, k, f.blocks[i].instructions[k].operands[u]);
    }
  }

  lemma InstructionBounds(f: Function, i: nat, k: nat)
    requires i < |f.blocks| && k < |f.blocks[i].instructions|
    ensures f.blocks[i].instructions[k].result < RegisterCount(f)
    ensures forall u :: 0 <= u < |f.blocks[i].instructions[k].operands|
              ==> f.blocks[i].instructions[k].operands[u] < RegisterCount(f)
  {
    var instr := f.blocks[i].instructions[k];
    assert BlockMax(f.blocks[i]) <= BlocksMax(f.blocks);
    assert InstructionsMax(f.blocks[i].instructions) <= BlockMax(f.blocks[i]);
    assert instr.result <= InstructionsMax(f.blocks[i].instructions);
    assert MaxId(instr.operands) <= InstructionsMax(f.blocks[i].instructions);
  }

  // ----- the domain -----

  datatype Range = Range(min: int, max: int)

  const FULL := Range(INT_MIN, INT_MAX)

  predicate Contains(r: Range, n: int) { r.min <= n <= r.max }

  predicate Fits(r: Range) { r.min >= INT_MIN && r.max <= INT_MAX }

  /** Which local a value was loaded from, and how often that local had been stored to. */
  datatype Origin = NoOrigin | Origin(slot: nat, version: nat)

  datatype Comparison = Comparison(
    op: Opcode, left: Range, right: Range, leftOrigin: Origin, rightOrigin: Origin)

  datatype State = State(
    locals: seq<Range>, versions: seq<nat>, values: seq<Range>, origins: seq<Origin>,
    comparisons: map<ValueId, Comparison>)

  function ValueRange(a: State, v: ValueId): Range {
    if 0 <= v < |a.values| then a.values[v] else FULL
  }

  function ValueOrigin(a: State, v: ValueId): Origin {
    if 0 <= v < |a.origins| then a.origins[v] else NoOrigin
  }

  function OperandRange(i: Instruction, a: State, index: nat): Range {
    if index < |i.operands| then ValueRange(a, i.operands[index]) else FULL
  }

  function SetValue(a: State, v: ValueId, r: Range, o: Origin): State {
    if 0 <= v < |a.values| && v < |a.origins| then a.(values := a.values[v := r], origins := a.origins[v := o]) else a
  }

  function Least(a: int, b: int): int { if a < b then a else b }

  function ProductRange(l: Range, r: Range): Range {
    var a, b, c, d := l.min * r.min, l.min * r.max, l.max * r.min, l.max * r.max;
    Range(Least(Least(a, b), Least(c, d)), Max(Max(a, b), Max(c, d)))
  }

  function ArithmeticRange(op: Opcode, l: Range, r: Range): Range {
    match op
    case AddInt => Range(l.min + r.min, l.max + r.max)
    case SubtractInt => Range(l.min - r.max, l.max - r.min)
    case MultiplyInt => ProductRange(l, r)
    case NegateInt => Range(-l.max, -l.min)
    case _ => FULL
  }

  /** The operations whose overflow check the analysis may drop. */
  predicate Elidable(op: Opcode) { op.AddInt? || op.SubtractInt? || op.MultiplyInt? || op.NegateInt? }

  /** noteArithmetic's verdict on one operation. */
  predicate StepSafe(i: Instruction, a: State) {
    var l, r := OperandRange(i, a, 0), OperandRange(i, a, 1);
    if i.opcode.NegateInt? then l.min > INT_MIN else Fits(ArithmeticRange(i.opcode, l, r))
  }

  predicate Noted(i: Instruction) { Elidable(i.opcode) && i.checkedArithmetic && i.result >= 0 }

  /** One iteration of the instruction loop (AotCpp.cpp:507-583). */
  function AbsStep(i: Instruction, a: State): State {
    var l, r := OperandRange(i, a, 0), OperandRange(i, a, 1);
    match i.opcode
    case Parameter => SetValue(a, i.result, FULL, NoOrigin)
    case ConstantInt => SetValue(a, i.result, Range(i.integerImmediate, i.integerImmediate), NoOrigin)
    case LoadLocal =>
      if i.localIndex < |a.locals| && i.localIndex < |a.versions|
      then SetValue(a, i.result, a.locals[i.localIndex], Origin(i.localIndex, a.versions[i.localIndex]))
      else a
    case StoreLocal =>
      if i.localIndex < |a.locals| && i.localIndex < |a.versions| && |i.operands| > 0
      then a.(locals := a.locals[i.localIndex := l],
              versions := a.versions[i.localIndex := a.versions[i.localIndex] + 1])
      else a
    case AddInt | SubtractInt | MultiplyInt | NegateInt =>
      SetValue(a, i.result, if StepSafe(i, a) then ArithmeticRange(i.opcode, l, r) else FULL, NoOrigin)
    case LessInt | LessOrEqualInt | GreaterInt | GreaterOrEqualInt =>
      if i.result >= 0 && |i.operands| >= 2 && i.result !in a.comparisons
      then a.(comparisons := a.comparisons[i.result := Comparison(
                i.opcode, l, r, ValueOrigin(a, i.operands[0]), ValueOrigin(a, i.operands[1]))])
      else a
    case _ => if i.result >= 0 && i.resultType.Int? then SetValue(a, i.result, FULL, NoOrigin) else a
  }

  function StartState(f: Function, locals: seq<Range>): State {
    var n := RegisterCount(f);
    State(locals, seq(|f.localTypes|, _ => 0), seq(n, _ => FULL), seq(n, _ => NoOrigin), map[])
  }

  /** The state before instruction k of a block entered with these locals. */
  function AbsAt(f: Function, b: BasicBlock, locals: seq<Range>, k: nat): State
    requires k <= |b.instructions|
  {
    if k == 0 then StartState(f, locals) else AbsStep(b.instructions[k - 1], AbsAt(f, b, locals, k - 1))
  }

  // ----- what a state says of a frame -----

  ghost predicate DefinedBefore(b: BasicBlock, k: nat, v: ValueId)
    requires k <= |b.instructions|
  {
    exists j :: 0 <= j < k && !b.instructions[j].opcode.StoreLocal? && b.instructions[j].result == v
  }

  ghost predicate LocalsHold(f: Function, locals: seq<Range>, fr: Frame) {
    |locals| == |f.localTypes| == |fr.locals| &&
    forall s :: 0 <= s < |locals| && f.localTypes[s].Int? ==>
      fr.locals[s].IntValue? && Contains(locals[s], fr.locals[s].n)
  }

  ghost predicate ValuesHold(f: Function, a: State, fr: Frame) {
    |a.values| == |fr.registers| &&
    forall v :: 0 <= v < |a.values| && TypeOf(f, v).Int? ==>
      fr.registers[v].IntValue? && Contains(a.values[v], fr.registers[v].n)
  }

  /** If the local has not been stored to since, it still holds the loaded value. */
  ghost predicate OriginHolds(a: State, fr: Frame, o: Origin, value: Value) {
    o.Origin? ==>
      o.slot < |a.versions| && |a.versions| == |fr.locals| && o.version <= a.versions[o.slot] &&
      (o.version == a.versions[o.slot] ==> fr.locals[o.slot] == value)
  }

  ghost predicate OriginsHold(b: BasicBlock, k: nat, a: State, fr: Frame)
    requires k <= |b.instructions|
  {
    |a.origins| == |fr.registers| &&
    forall v :: 0 <= v < |a.origins| && a.origins[v].Origin? ==>
      DefinedBefore(b, k, v) && OriginHolds(a, fr, a.origins[v], fr.registers[v])
  }

  /** The recorded comparison is one that was made, between x and y, and c holds its answer. */
  ghost predicate ComparisonHolds(a: State, fr: Frame, c: ValueId, cmp: Comparison, x: int, y: int) {
    IsComparison(cmp.op) && Contains(cmp.left, x) && Contains(cmp.right, y) &&
    Register(fr, c) == BoolValue(Compare(cmp.op, x, y)) &&
    OriginHolds(a, fr, cmp.leftOrigin, IntValue(x)) && OriginHolds(a, fr, cmp.rightOrigin, IntValue(y))
  }

  ghost predicate ComparisonsHold(b: BasicBlock, k: nat, a: State, fr: Frame)
    requires k <= |b.instructions|
  {
    forall c :: c in a.comparisons ==>
      DefinedBefore(b, k, c) && exists x, y :: ComparisonHolds(a, fr, c, a.comparisons[c], x, y)
  }

  ghost predicate Holds(f: Function, b: BasicBlock, k: nat, a: State, fr: Frame)
    requires k <= |b.instructions|
  {
    && FrameTyped(f, fr)
    && |a.versions| == |f.localTypes|
    && LocalsHold(f, a.locals, fr)
    && ValuesHold(f, a, fr)
    && OriginsHold(b, k, a, fr)
    && ComparisonsHold(b, k, a, fr)
  }

  /** The results of a block's instructions are all different. */
  ghost predicate DefinesApart(b: BasicBlock) {
    forall j, k :: 0 <= j < k < |b.instructions| ==>
      b.instructions[j].opcode.StoreLocal? || b.instructions[k].opcode.StoreLocal? ||
      b.instructions[j].result != b.instructions[k].result
  }

  lemma CompiledDefinesApart(f: Function, i: nat)
    requires Analyzable(f) && i < |f.blocks|
    ensures DefinesApart(f.blocks[i])
  {
    var b := f.blocks[i];
    forall j, k | 0 <= j < k < |b.instructions| && !b.instructions[j].opcode.StoreLocal? &&
                  !b.instructions[k].opcode.StoreLocal?
      ensures b.instructions[j].result != b.instructions[k].result
    {
      Ssa.StepsDefineApart(View(f), i, j, k);
    }
  }

  lemma StartHolds(f: Function, b: BasicBlock, locals: seq<Range>, fr: Frame)
    requires FrameTyped(f, fr) && LocalsHold(f, locals, fr)
    ensures Holds(f, b, 0, AbsAt(f, b, locals, 0), fr)
  {
  }

  lemma FreshResult(b: BasicBlock, k: nat)
    requires DefinesApart(b) && k < |b.instructions| && !b.instructions[k].opcode.StoreLocal?
    ensures !DefinedBefore(b, k, b.instructions[k].result)
    ensures DefinedBefore(b, k + 1, b.instructions[k].result)
  {
  }

  lemma DefinedStays(b: BasicBlock, k: nat, v: ValueId)
    requires k < |b.instructions| && DefinedBefore(b, k, v)
    ensures DefinedBefore(b, k + 1, v)
  {
    var j :| 0 <= j < k && !b.instructions[j].opcode.StoreLocal? && b.instructions[j].result == v;
    assert 0 <= j < k + 1;
  }

  /** Writing a register that nothing earlier in the block defined keeps origins and comparisons. */
  lemma WriteKeeps(f: Function, b: BasicBlock, k: nat, a: State, fr: Frame, value: Value)
    requires k < |b.instructions| && Holds(f, b, k, a, fr) && DefinesApart(b)
    requires InstructionTyped(f, b.instructions[k]) && !b.instructions[k].opcode.StoreLocal?
    requires HasType(b.instructions[k].resultType, value)
    ensures var i := b.instructions[k]; var after := SetRegister(fr, i.result, value);
            FrameTyped(f, after) && LocalsHold(f, a.locals, after) && ComparisonsHold(b, k + 1, a, after) &&
            forall v :: 0 <= v < |a.origins| && v != i.result && a.origins[v].Origin? ==>
              DefinedBefore(b, k + 1, v) && OriginHolds(a, after, a.origins[v], after.registers[v])
    ensures a.origins[b.instructions[k].result] == NoOrigin
    ensures b.instructions[k].result !in a.comparisons
  {
    var i := b.instructions[k];
    var after := SetRegister(fr, i.result, value);
    FreshResult(b, k);
    forall v | 0 <= v < |a.origins| && a.origins[v].Origin? ensures DefinedBefore(b, k + 1, v) {
      DefinedStays(b, k, v);
    }
    forall c | c in a.comparisons
      ensures DefinedBefore(b, k + 1, c) && exists x, y :: ComparisonHolds(a, after, c, a.comparisons[c], x, y)
    {
      DefinedStays(b, k, c);
      var x, y :| ComparisonHolds(a, fr, c, a.comparisons[c], x, y);
      assert ComparisonHolds(a, after, c, a.comparisons[c], x, y);
    }
  }

  lemma PutIntHolds(f: Function, b: BasicBlock, k: nat, a: State, fr: Frame, n: int, r: Range, o: Origin)
    requires k < |b.instructions| && Holds(f, b, k, a, fr) && DefinesApart(b)
    requires InstructionTyped(f, b.instructions[k]) && !b.instructions[k].opcode.StoreLocal?
    requires b.instructions[k].resultType.Int? && InInt32(n) && Contains(r, n)
    requires OriginHolds(a, fr, o, IntValue(n))
    ensures Holds(f, b, k + 1, SetValue(a, b.instructions[k].result, r, o),
                  SetRegister(fr, b.instructions[k].result, IntValue(n)))
  {
    var v := b.instructions[k].result;
    var after, next := SetRegister(fr, v, IntValue(n)), SetValue(a, v, r, o);
    WriteKeeps(f, b, k, a, fr, IntValue(n));
    FreshResult(b, k);
    forall w | 0 <= w < |next.origins| && next.origins[w].Origin?
      ensures DefinedBefore(b, k + 1, w) && OriginHolds(next, after, next.origins[w], after.registers[w])
    {
      if w != v { assert OriginHolds(a, after, a.origins[w], after.registers[w]); }
    }
    forall c | c in next.comparisons
      ensures DefinedBefore(b, k + 1, c) && exists x, y :: ComparisonHolds(next, after, c, next.comparisons[c], x, y)
    {
      var x, y :| ComparisonHolds(a, after, c, a.comparisons[c], x, y);
      assert ComparisonHolds(next, after, c, next.comparisons[c], x, y);
    }
  }

  lemma PutBoolHolds(f: Function, b: BasicBlock, k: nat, a: State, fr: Frame, value: bool)
    requires k < |b.instructions| && Holds(f, b, k, a, fr) && DefinesApart(b)
    requires InstructionTyped(f, b.instructions[k]) && !b.instructions[k].opcode.StoreLocal?
    requires b.instructions[k].resultType.Bool?
    ensures Holds(f, b, k + 1, a, SetRegister(fr, b.instructions[k].result, BoolValue(value)))
  {
    WriteKeeps(f, b, k, a, fr, BoolValue(value));
  }

  /** A bool may be loaded too: it gets an origin, and a range nobody reads. */
  lemma PutBoolOriginHolds(
    f: Function, b: BasicBlock, k: nat, a: State, fr: Frame, value: bool, r: Range, o: Origin)
    requires k < |b.instructions| && Holds(f, b, k, a, fr) && DefinesApart(b)
    requires InstructionTyped(f, b.instructions[k]) && !b.instructions[k].opcode.StoreLocal?
    requires b.instructions[k].resultType.Bool? && OriginHolds(a, fr, o, BoolValue(value))
    ensures Holds(f, b, k + 1, SetValue(a, b.instructions[k].result, r, o),
                  SetRegister(fr, b.instructions[k].result, BoolValue(value)))
  {
    var v := b.instructions[k].result;
    var after, next := SetRegister(fr, v, BoolValue(value)), SetValue(a, v, r, o);
    WriteKeeps(f, b, k, a, fr, BoolValue(value));
    FreshResult(b, k);
    forall w | 0 <= w < |next.origins| && next.origins[w].Origin?
      ensures DefinedBefore(b, k + 1, w) && OriginHolds(next, after, next.origins[w], after.registers[w])
    {
      if w != v { assert OriginHolds(a, after, a.origins[w], after.registers[w]); }
    }
    forall c | c in next.comparisons
      ensures DefinedBefore(b, k + 1, c) && exists x, y :: ComparisonHolds(next, after, c, next.comparisons[c], x, y)
    {
      var x, y :| ComparisonHolds(a, after, c, a.comparisons[c], x, y);
      assert ComparisonHolds(next, after, c, next.comparisons[c], x, y);
    }
  }

  lemma RecordHolds(
    f: Function, b: BasicBlock, k: nat, a: State, fr: Frame, v: ValueId, c: Comparison, x: int, y: int)
    requires k <= |b.instructions| && Holds(f, b, k, a, fr) && DefinedBefore(b, k, v)
    requires ComparisonHolds(a, fr, v, c, x, y)
    ensures Holds(f, b, k, a.(comparisons := a.comparisons[v := c]), fr)
  {
    var next := a.(comparisons := a.comparisons[v := c]);
    assert ComparisonHolds(next, fr, v, c, x, y);
    forall d | d in next.comparisons
      ensures DefinedBefore(b, k, d) && exists p, q :: ComparisonHolds(next, fr, d, next.comparisons[d], p, q)
    {
      if d != v {
        var p, q :| ComparisonHolds(a, fr, d, a.comparisons[d], p, q);
        assert ComparisonHolds(next, fr, d, next.comparisons[d], p, q);
      }
    }
  }

  lemma OperandHolds(f: Function, b: BasicBlock, k: nat, a: State, fr: Frame, i: Instruction, u: nat)
    requires k <= |b.instructions| && Holds(f, b, k, a, fr) && InstructionTyped(f, i)
    requires u < |i.operands| && TypeOf(f, i.operands[u]).Int?
    ensures Operand(i, fr, u).IntValue? && Contains(OperandRange(i, a, u), Operand(i, fr, u).n)
    ensures InInt32(Operand(i, fr, u).n)
    ensures OriginHolds(a, fr, ValueOrigin(a, i.operands[u]), Operand(i, fr, u))
  {
  }

  lemma CompareHolds(f: Function, b: BasicBlock, k: nat, a: State, fr: Frame)
    requires k < |b.instructions| && Holds(f, b, k, a, fr) && DefinesApart(b)
    requires InstructionTyped(f, b.instructions[k]) && IsComparison(b.instructions[k].opcode)
    ensures var i := b.instructions[k]; var x, y := AsInt(Operand(i, fr, 0)), AsInt(Operand(i, fr, 1));
            Holds(f, b, k + 1, AbsStep(i, a), SetRegister(fr, i.result, BoolValue(Compare(i.opcode, x, y))))
  {
    var i := b.instructions[k];
    ComparesInts(f, i);
    OperandHolds(f, b, k, a, fr, i, 0);
    OperandHolds(f, b, k, a, fr, i, 1);
    var x, y := Operand(i, fr, 0).n, Operand(i, fr, 1).n;
    var after := SetRegister(fr, i.result, BoolValue(Compare(i.opcode, x, y)));
    PutBoolHolds(f, b, k, a, fr, Compare(i.opcode, x, y));
    WriteKeeps(f, b, k, a, fr, BoolValue(Compare(i.opcode, x, y)));
    FreshResult(b, k);
    var c := Comparison(i.opcode, OperandRange(i, a, 0), OperandRange(i, a, 1),
                        ValueOrigin(a, i.operands[0]), ValueOrigin(a, i.operands[1]));
    assert ComparisonHolds(a, after, i.result, c, x, y);
    RecordHolds(f, b, k + 1, a, after, i.result, c, x, y);
  }

  lemma ComparesInts(f: Function, i: Instruction)
    requires InstructionTyped(f, i) && IsComparison(i.opcode)
    ensures |i.operands| == 2 && TypeOf(f, i.operands[0]).Int? && TypeOf(f, i.operands[1]).Int?
    ensures i.resultType.Bool? && 0 <= i.result < RegisterCount(f)
  {
  }

  lemma StoreHolds(f: Function, b: BasicBlock, k: nat, a: State, fr: Frame)
    requires k < |b.instructions| && Holds(f, b, k, a, fr) && InstructionTyped(f, b.instructions[k])
    requires b.instructions[k].opcode.StoreLocal?
    ensures var i := b.instructions[k];
            Holds(f, b, k + 1, AbsStep(i, a), SetLocal(fr, i.localIndex, Operand(i, fr, 0)))
  {
    var i := b.instructions[k];
    var after, next := SetLocal(fr, i.localIndex, Operand(i, fr, 0)), AbsStep(i, a);
    forall v | 0 <= v < |next.origins| && next.origins[v].Origin?
      ensures DefinedBefore(b, k + 1, v) && OriginHolds(next, after, next.origins[v], after.registers[v])
    {
      DefinedStays(b, k, v);
    }
    forall c | c in next.comparisons
      ensures DefinedBefore(b, k + 1, c) && exists x, y :: ComparisonHolds(next, after, c, next.comparisons[c], x, y)
    {
      DefinedStays(b, k, c);
      var x, y :| ComparisonHolds(a, fr, c, a.comparisons[c], x, y);
      assert ComparisonHolds(next, after, c, next.comparisons[c], x, y);
    }
  }

  // ----- interval arithmetic -----

  lemma ScaledBetween(c: int, lo: int, n: int, hi: int)
    requires lo <= n <= hi
    ensures Least(c * lo, c * hi) <= c * n <= Max(c * lo, c * hi)
  {
    if c >= 0 {
      assert c * n - c * lo == c * (n - lo) && c * hi - c * n == c * (hi - n);
    } else {
      assert c * lo - c * n == (-c) * (n - lo) && c * n - c * hi == (-c) * (hi - n);
    }
  }

  lemma ProductBetween(l: Range, r: Range, x: int, y: int)
    requires Contains(l, x) && Contains(r, y)
    ensures Contains(ProductRange(l, r), x * y)
  {
    ScaledBetween(x, r.min, y, r.max);
    ScaledBetween(r.min, l.min, x, l.max);
    ScaledBetween(r.max, l.min, x, l.max);
    assert x * r.min == r.min * x && x * r.max == r.max * x;
    assert r.min * l.min == l.min * r.min && r.min * l.max == l.max * r.min;
    assert r.max * l.min == l.min * r.max && r.max * l.max == l.max * r.max;
  }

  /** An operation the analysis calls safe cannot leave int32, and lands in the computed range. */
  lemma SafeMeansInRange(i: Instruction, a: State, x: int, y: int)
    requires Elidable(i.opcode) && StepSafe(i, a)
    requires Contains(OperandRange(i, a, 0), x) && Contains(OperandRange(i, a, 1), y) && InInt32(x)
    ensures var n := if i.opcode.NegateInt? then -x else Compute(i.opcode, x, y);
            InInt32(n) && Contains(ArithmeticRange(i.opcode, OperandRange(i, a, 0), OperandRange(i, a, 1)), n)
  {
    if i.opcode.MultiplyInt? { ProductBetween(OperandRange(i, a, 0), OperandRange(i, a, 1), x, y); }
  }

  // ----- one instruction -----

  lemma ArithmeticOnInts(f: Function, i: Instruction)
    requires InstructionTyped(f, i)
    requires Elidable(i.opcode) || i.opcode.DivideInt? || i.opcode.RemainderInt?
    ensures |i.operands| == (if i.opcode.NegateInt? then 1 else 2) && i.resultType.Int?
    ensures forall u :: 0 <= u < |i.operands| ==> TypeOf(f, i.operands[u]).Int?
  {
  }

  lemma ArithmeticHolds(
    f: Function, safe: set<ValueId>, b: BasicBlock, k: nat, args: seq<Value>, a: State, fr: Frame)
    requires k < |b.instructions| && Holds(f, b, k, a, fr) && DefinesApart(b)
    requires InstructionTyped(f, b.instructions[k]) && Elidable(b.instructions[k].opcode)
    requires b.instructions[k].result in safe ==> StepSafe(b.instructions[k], a)
    requires TypedExec(safe, b.instructions[k], args, fr).Next?
    ensures Holds(f, b, k + 1, AbsStep(b.instructions[k], a), TypedExec(safe, b.instructions[k], args, fr).frame)
  {
    var i := b.instructions[k];
    var x, y := AsInt(Operand(i, fr, 0)), AsInt(Operand(i, fr, 1));
    var n := if i.opcode.NegateInt? then -x else Compute(i.opcode, x, y);
    ArithmeticOnInts(f, i);
    OperandHolds(f, b, k, a, fr, i, 0);
    if !i.opcode.NegateInt? { OperandHolds(f, b, k, a, fr, i, 1); }
    if StepSafe(i, a) { SafeMeansInRange(i, a, x, y); }
    assert InInt32(n);
    var r := if StepSafe(i, a) then ArithmeticRange(i.opcode, OperandRange(i, a, 0), OperandRange(i, a, 1)) else FULL;
    PutIntHolds(f, b, k, a, fr, n, r, NoOrigin);
  }

  lemma LoadHolds(f: Function, b: BasicBlock, k: nat, a: State, fr: Frame)
    requires k < |b.instructions| && Holds(f, b, k, a, fr) && DefinesApart(b)
    requires InstructionTyped(f, b.instructions[k]) && b.instructions[k].opcode.LoadLocal?
    ensures var i := b.instructions[k];
            Holds(f, b, k + 1, AbsStep(i, a), SetRegister(fr, i.result, Local(fr, i.localIndex)))
  {
    var i := b.instructions[k];
    var value, o := fr.locals[i.localIndex], Origin(i.localIndex, a.versions[i.localIndex]);
    assert OriginHolds(a, fr, o, value);
    if i.resultType.Int? {
      PutIntHolds(f, b, k, a, fr, value.n, a.locals[i.localIndex], o);
    } else {
      PutBoolOriginHolds(f, b, k, a, fr, value.b, a.locals[i.localIndex], o);
    }
  }

  lemma DivisionHolds(
    f: Function, safe: set<ValueId>, b: BasicBlock, k: nat, args: seq<Value>, a: State, fr: Frame)
    requires k < |b.instructions| && Holds(f, b, k, a, fr) && DefinesApart(b)
    requires InstructionTyped(f, b.instructions[k])
    requires b.instructions[k].opcode.DivideInt? || b.instructions[k].opcode.RemainderInt?
    requires TypedExec(safe, b.instructions[k], args, fr).Next?
    ensures Holds(f, b, k + 1, AbsStep(b.instructions[k], a), TypedExec(safe, b.instructions[k], args, fr).frame)
  {
    var i := b.instructions[k];
    var x, y := AsInt(Operand(i, fr, 0)), AsInt(Operand(i, fr, 1));
    ArithmeticOnInts(f, i);
    OperandHolds(f, b, k, a, fr, i, 0);
    OperandHolds(f, b, k, a, fr, i, 1);
    TruncDivFits(x, y);
    PutIntHolds(f, b, k, a, fr, if i.opcode.DivideInt? then TruncDiv(x, y) else TruncMod(x, y), FULL, NoOrigin);
  }

  ghost predicate ArgumentsTyped(f: Function, args: seq<Value>) {
    |args| == |f.parameterTypes| && forall p :: 0 <= p < |args| ==> HasType(f.parameterTypes[p], args[p])
  }

  lemma ParameterHolds(f: Function, b: BasicBlock, k: nat, args: seq<Value>, a: State, fr: Frame)
    requires k < |b.instructions| && Holds(f, b, k, a, fr) && DefinesApart(b) && ArgumentsTyped(f, args)
    requires InstructionTyped(f, b.instructions[k]) && b.instructions[k].opcode.Parameter?
    ensures var i := b.instructions[k];
            Holds(f, b, k + 1, AbsStep(i, a), SetRegister(fr, i.result, args[i.integerImmediate]))
  {
    var i := b.instructions[k];
    var value := args[i.integerImmediate];
    if i.resultType.Int? {
      PutIntHolds(f, b, k, a, fr, value.n, FULL, NoOrigin);
    } else {
      PutBoolOriginHolds(f, b, k, a, fr, value.b, FULL, NoOrigin);
    }
  }

  lemma ConstantHolds(
    f: Function, safe: set<ValueId>, b: BasicBlock, k: nat, args: seq<Value>, a: State, fr: Frame)
    requires k < |b.instructions| && Holds(f, b, k, a, fr) && DefinesApart(b)
    requires InstructionTyped(f, b.instructions[k]) && b.instructions[k].opcode.ConstantInt?
    ensures Holds(f, b, k + 1, AbsStep(b.instructions[k], a), TypedExec(safe, b.instructions[k], args, fr).frame)
  {
    var n := b.instructions[k].integerImmediate;
    PutIntHolds(f, b, k, a, fr, n, Range(n, n), NoOrigin);
  }

  /** The operations that put a bool nobody compares: the analysis ignores them. */
  lemma BoolHolds(
    f: Function, safe: set<ValueId>, b: BasicBlock, k: nat, args: seq<Value>, a: State, fr: Frame)
    requires k < |b.instructions| && Holds(f, b, k, a, fr) && DefinesApart(b)
    requires InstructionTyped(f, b.instructions[k])
    requires var op := b.instructions[k].opcode; op.ConstantBool? || op.LogicalNot? || op.Equal? || op.NotEqual?
    ensures Holds(f, b, k + 1, AbsStep(b.instructions[k], a), TypedExec(safe, b.instructions[k], args, fr).frame)
  {
    var i := b.instructions[k];
    assert AbsStep(i, a) == a;
    var left, right := Operand(i, fr, 0), Operand(i, fr, 1);
    var answer :=
      if i.opcode.ConstantBool? then i.boolImmediate
      else if i.opcode.LogicalNot? then !AsBool(left)
      else (AsInt(left) == AsInt(right)) == i.opcode.Equal?;
    assert TypedExec(safe, i, args, fr).frame == SetRegister(fr, i.result, BoolValue(answer));
    PutBoolHolds(f, b, k, a, fr, answer);
  }

  /** What the analysis records stays true across any instruction that does not fail. */
  lemma StepHolds(
    f: Function, safe: set<ValueId>, b: BasicBlock, k: nat, args: seq<Value>, a: State, fr: Frame)
    requires k < |b.instructions| && Holds(f, b, k, a, fr) && DefinesApart(b) && ArgumentsTyped(f, args)
    requires InstructionTyped(f, b.instructions[k])
    requires Elidable(b.instructions[k].opcode) && b.instructions[k].result in safe ==> StepSafe(b.instructions[k], a)
    requires TypedExec(safe, b.instructions[k], args, fr).Next?
    ensures Holds(f, b, k + 1, AbsStep(b.instructions[k], a), TypedExec(safe, b.instructions[k], args, fr).frame)
  {
    var i := b.instructions[k];
    match i.opcode
    case Parameter => ParameterHolds(f, b, k, args, a, fr);
    case ConstantInt => ConstantHolds(f, safe, b, k, args, a, fr);
    case LoadLocal => LoadHolds(f, b, k, a, fr);
    case StoreLocal => StoreHolds(f, b, k, a, fr);
    case LessInt | LessOrEqualInt | GreaterInt | GreaterOrEqualInt => CompareHolds(f, b, k, a, fr);
    case DivideInt | RemainderInt => DivisionHolds(f, safe, b, k, args, a, fr);
    case AddInt | SubtractInt | MultiplyInt | NegateInt => ArithmeticHolds(f, safe, b, k, args, a, fr);
    case ConstantBool | LogicalNot | Equal | NotEqual => BoolHolds(f, safe, b, k, args, a, fr);
  }

  // ----- branches -----

  datatype Refined = Refined(reachable: bool, locals: seq<Range>)

  predicate Current(a: State, r: Refined, o: Origin) {
    o.Origin? && o.slot < |r.locals| && o.slot < |a.versions| && o.version == a.versions[o.slot]
  }

  function RefineMinimum(a: State, r: Refined, o: Origin, minimum: int): Refined {
    if !Current(a, r, o) then r
    else
      var now := r.locals[o.slot];
      var next := now.(min := Max(now.min, minimum));
      Refined(r.reachable && next.min <= next.max, r.locals[o.slot := next])
  }

  function RefineMaximum(a: State, r: Refined, o: Origin, maximum: int): Refined {
    if !Current(a, r, o) then r
    else
      var now := r.locals[o.slot];
      var next := now.(max := Least(now.max, maximum));
      Refined(r.reachable && next.min <= next.max, r.locals[o.slot := next])
  }

  /** refinedLocals (AotCpp.cpp:585-668). */
  function RefinedLocals(a: State, c: Comparison, takeTrue: bool): Refined {
    var r := Refined(true, a.locals);
    match c.op
    case LessInt =>
      if takeTrue
      then RefineMinimum(a, RefineMaximum(a, r, c.leftOrigin, c.right.max - 1), c.rightOrigin, c.left.min + 1)
      else RefineMaximum(a, RefineMinimum(a, r, c.leftOrigin, c.right.min), c.rightOrigin, c.left.max)
    case LessOrEqualInt =>
      if takeTrue
      then RefineMinimum(a, RefineMaximum(a, r, c.leftOrigin, c.right.max), c.rightOrigin, c.left.min)
      else RefineMaximum(a, RefineMinimum(a, r, c.leftOrigin, c.right.min + 1), c.rightOrigin, c.left.max - 1)
    case GreaterInt =>
      if takeTrue
      then RefineMaximum(a, RefineMinimum(a, r, c.leftOrigin, c.right.min + 1), c.rightOrigin, c.left.max - 1)
      else RefineMinimum(a, RefineMaximum(a, r, c.leftOrigin, c.right.max), c.rightOrigin, c.left.min)
    case GreaterOrEqualInt =>
      if takeTrue
      then RefineMaximum(a, RefineMinimum(a, r, c.leftOrigin, c.right.min), c.rightOrigin, c.left.max)
      else RefineMinimum(a, RefineMaximum(a, r, c.leftOrigin, c.right.max - 1), c.rightOrigin, c.left.min + 1)
    case _ => r
  }

  lemma RefineMinimumHolds(f: Function, a: State, r: Refined, o: Origin, minimum: int, fr: Frame, x: int)
    requires r.reachable && LocalsHold(f, r.locals, fr) && OriginHolds(a, fr, o, IntValue(x)) && minimum <= x
    requires FrameTyped(f, fr) && |a.versions| == |f.localTypes|
    requires forall s :: 0 <= s < |f.localTypes| ==> IsTypedPrimitive(f.localTypes[s])
    ensures var next := RefineMinimum(a, r, o, minimum); next.reachable && LocalsHold(f, next.locals, fr)
  {
  }

  lemma RefineMaximumHolds(f: Function, a: State, r: Refined, o: Origin, maximum: int, fr: Frame, x: int)
    requires r.reachable && LocalsHold(f, r.locals, fr) && OriginHolds(a, fr, o, IntValue(x)) && x <= maximum
    requires FrameTyped(f, fr) && |a.versions| == |f.localTypes|
    requires forall s :: 0 <= s < |f.localTypes| ==> IsTypedPrimitive(f.localTypes[s])
    ensures var next := RefineMaximum(a, r, o, maximum); next.reachable && LocalsHold(f, next.locals, fr)
  {
  }

  lemma MaximumThenMinimum(
    f: Function, a: State, fr: Frame, left: Origin, most: int, x: int, right: Origin, least: int, y: int)
    requires LocalsHold(f, a.locals, fr) && FrameTyped(f, fr) && |a.versions| == |f.localTypes|
    requires forall s :: 0 <= s < |f.localTypes| ==> IsTypedPrimitive(f.localTypes[s])
    requires OriginHolds(a, fr, left, IntValue(x)) && x <= most
    requires OriginHolds(a, fr, right, IntValue(y)) && least <= y
    ensures var next := RefineMinimum(a, RefineMaximum(a, Refined(true, a.locals), left, most), right, least);
            next.reachable && LocalsHold(f, next.locals, fr)
  {
    RefineMaximumHolds(f, a, Refined(true, a.locals), left, most, fr, x);
    RefineMinimumHolds(f, a, RefineMaximum(a, Refined(true, a.locals), left, most), right, least, fr, y);
  }

  lemma MinimumThenMaximum(
    f: Function, a: State, fr: Frame, left: Origin, least: int, x: int, right: Origin, most: int, y: int)
    requires LocalsHold(f, a.locals, fr) && FrameTyped(f, fr) && |a.versions| == |f.localTypes|
    requires forall s :: 0 <= s < |f.localTypes| ==> IsTypedPrimitive(f.localTypes[s])
    requires OriginHolds(a, fr, left, IntValue(x)) && least <= x
    requires OriginHolds(a, fr, right, IntValue(y)) && y <= most
    ensures var next := RefineMaximum(a, RefineMinimum(a, Refined(true, a.locals), left, least), right, most);
            next.reachable && LocalsHold(f, next.locals, fr)
  {
    RefineMinimumHolds(f, a, Refined(true, a.locals), left, least, fr, x);
    RefineMaximumHolds(f, a, RefineMinimum(a, Refined(true, a.locals), left, least), right, most, fr, y);
  }

  /** The branch really taken is never called unreachable, and its refined ranges are true. */
  lemma RefinementHolds(f: Function, b: BasicBlock, k: nat, a: State, fr: Frame, condition: ValueId)
    requires k <= |b.instructions| && Holds(f, b, k, a, fr)
    requires forall s :: 0 <= s < |f.localTypes| ==> IsTypedPrimitive(f.localTypes[s])
    requires condition in a.comparisons
    ensures var next := RefinedLocals(a, a.comparisons[condition], AsBool(Register(fr, condition)));
            next.reachable && LocalsHold(f, next.locals, fr)
  {
    var c := a.comparisons[condition];
    var x, y :| ComparisonHolds(a, fr, condition, c, x, y);
    RefinesBoth(f, a, fr, c, x, y);
  }

  ghost predicate Refines(f: Function, a: State, fr: Frame, c: Comparison, x: int, y: int) {
    && LocalsHold(f, a.locals, fr) && FrameTyped(f, fr) && |a.versions| == |f.localTypes|
    && (forall s :: 0 <= s < |f.localTypes| ==> IsTypedPrimitive(f.localTypes[s]))
    && IsComparison(c.op) && Contains(c.left, x) && Contains(c.right, y)
    && OriginHolds(a, fr, c.leftOrigin, IntValue(x)) && OriginHolds(a, fr, c.rightOrigin, IntValue(y))
  }

  lemma RefinesBoth(f: Function, a: State, fr: Frame, c: Comparison, x: int, y: int)
    requires Refines(f, a, fr, c, x, y)
    ensures var next := RefinedLocals(a, c, Compare(c.op, x, y)); next.reachable && LocalsHold(f, next.locals, fr)
  {
    match c.op
    case LessInt => RefinesLess(f, a, fr, c, x, y);
    case LessOrEqualInt => RefinesLessOrEqual(f, a, fr, c, x, y);
    case GreaterInt => RefinesGreater(f, a, fr, c, x, y);
    case GreaterOrEqualInt => RefinesGreaterOrEqual(f, a, fr, c, x, y);
  }

  lemma RefinesLess(f: Function, a: State, fr: Frame, c: Comparison, x: int, y: int)
    requires Refines(f, a, fr, c, x, y) && c.op.LessInt?
    ensures var next := RefinedLocals(a, c, x < y); next.reachable && LocalsHold(f, next.locals, fr)
  {
    if x < y {
      MaximumThenMinimum(f, a, fr, c.leftOrigin, c.right.max - 1, x, c.rightOrigin, c.left.min + 1, y);
    } else {
      MinimumThenMaximum(f, a, fr, c.leftOrigin, c.right.min, x, c.rightOrigin, c.left.max, y);
    }
  }

  lemma RefinesLessOrEqual(f: Function, a: State, fr: Frame, c: Comparison, x: int, y: int)
    requires Refines(f, a, fr, c, x, y) && c.op.LessOrEqualInt?
    ensures var next := RefinedLocals(a, c, x <= y); next.reachable && LocalsHold(f, next.locals, fr)
  {
    if x <= y {
      MaximumThenMinimum(f, a, fr, c.leftOrigin, c.right.max, x, c.rightOrigin, c.left.min, y);
    } else {
      MinimumThenMaximum(f, a, fr, c.leftOrigin, c.right.min + 1, x, c.rightOrigin, c.left.max - 1, y);
    }
  }

  lemma RefinesGreater(f: Function, a: State, fr: Frame, c: Comparison, x: int, y: int)
    requires Refines(f, a, fr, c, x, y) && c.op.GreaterInt?
    ensures var next := RefinedLocals(a, c, x > y); next.reachable && LocalsHold(f, next.locals, fr)
  {
    if x > y {
      MinimumThenMaximum(f, a, fr, c.leftOrigin, c.right.min + 1, x, c.rightOrigin, c.left.max - 1, y);
    } else {
      MaximumThenMinimum(f, a, fr, c.leftOrigin, c.right.max, x, c.rightOrigin, c.left.min, y);
    }
  }

  lemma RefinesGreaterOrEqual(f: Function, a: State, fr: Frame, c: Comparison, x: int, y: int)
    requires Refines(f, a, fr, c, x, y) && c.op.GreaterOrEqualInt?
    ensures var next := RefinedLocals(a, c, x >= y); next.reachable && LocalsHold(f, next.locals, fr)
  {
    if x >= y {
      MinimumThenMaximum(f, a, fr, c.leftOrigin, c.right.min, x, c.rightOrigin, c.left.max, y);
    } else {
      MaximumThenMinimum(f, a, fr, c.leftOrigin, c.right.max - 1, x, c.rightOrigin, c.left.min + 1, y);
    }
  }
}
