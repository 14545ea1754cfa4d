/** The typing rules of the MIR verifier (src/mir/MirVerifier.cpp:545-1220) and the choice of functions
    for the typed lowering (src/aot_cpp/AotCpp.cpp:707-777), against what the generic lowering does:
    over int and bool, an instruction is accepted exactly when it always goes well. */
module MirRules {
  import opened Scalars
  import opened Mir
  import opened AotSemantics
  import opened TypedRanges
  import opened AotBatching
  import Ssa

  // ----- running well -----

  predicate Good(t: PrimitiveType, v: ValueId, r: StepResult) {
    match r
    case Next(after) => HasType(t, Register(after, v))
    case Fault(code) => code.DivisionByZero? || code.IntegerOverflow?
  }

  /** Whatever typed frames and arguments hold, the instruction leaves a value of its result type in its
      register or fails arithmetically. */
  ghost predicate GoesWell(f: Function, i: Instruction) {
    forall args, fr :: ArgumentsTyped(f, args) && FrameTyped(f, fr) ==> Good(i.resultType, i.result, GenericExec(false, i, args, fr))
  }

  /** Everything is int or bool, the operands and the result are registers, there are as many operands
      as the opcode has, and unchecked mode stands only where it has a meaning. */
  ghost predicate InShape(f: Function, i: Instruction) {
    && (forall p :: 0 <= p < |f.parameterTypes| ==> IsTypedPrimitive(f.parameterTypes[p]))
    && (forall s :: 0 <= s < |f.localTypes| ==> IsTypedPrimitive(f.localTypes[s]))
    && (forall u :: 0 <= u < |i.operands| ==> 0 <= i.operands[u] < RegisterCount(f) && IsTypedPrimitive(TypeOf(f, i.operands[u])))
    && 0 <= i.result < RegisterCount(f) && IsTypedPrimitive(i.resultType)
    && |i.operands| == OperandCount(i.opcode) && (!i.checkedArithmetic ==> SupportsArithmeticMode(i.opcode))
    && !i.opcode.StoreLocal? && !i.opcode.OtherOpcode?
  }

  function SampleOf(t: PrimitiveType): Value { if t.Bool? then BoolValue(true) else IntValue(1) }

  function SampleFrame(f: Function): Frame {
    Frame(seq(|f.localTypes|, s requires 0 <= s < |f.localTypes| => SampleOf(f.localTypes[s])),
          seq(RegisterCount(f), v => SampleOf(TypeOf(f, v))))
  }

  function SampleArguments(f: Function): seq<Value> {
    seq(|f.parameterTypes|, p requires 0 <= p < |f.parameterTypes| => SampleOf(f.parameterTypes[p]))
  }

  lemma SampleFits(f: Function, i: Instruction)
    requires InShape(f, i)
    ensures ArgumentsTyped(f, SampleArguments(f)) && FrameTyped(f, SampleFrame(f))
    ensures forall u :: 0 <= u < |i.operands| ==> Operand(i, SampleFrame(f), u) == SampleOf(TypeOf(f, i.operands[u]))
  {
    hide TypeOf, RegisterCount;
  }

  /** Equality of an int and a bool goes well and is refused. */
  predicate RefusedAnyway(f: Function, i: Instruction) {
    (i.opcode.Equal? || i.opcode.NotEqual?) && |i.operands| == 2 && TypeOf(f, i.operands[0]) != TypeOf(f, i.operands[1])
  }

  /** An int constant beyond int32 is accepted. */
  predicate AcceptedAnyway(i: Instruction) {
    i.opcode.ConstantInt? && i.resultType.Int? && !InInt32(i.integerImmediate)
  }

  lemma RulesAreComplete(f: Function, i: Instruction)
    requires InShape(f, i) && GoesWell(f, i)
    ensures InstructionOk(f, i) || RefusedAnyway(f, i)
  {
    hide TypeOf, RegisterCount, SampleFrame, SampleArguments;
    SampleFits(f, i);
    var r := GenericExec(false, i, SampleArguments(f), SampleFrame(f));
    assert Good(i.resultType, i.result, r);
    if i.opcode.Parameter? { SampleParameter(f, i); }
    if i.opcode.LoadLocal? { SampleLocal(f, i); }
    SampleQuotient();
  }

  lemma SampleQuotient()
    ensures TruncDiv(1, 1) == 1 && TruncMod(1, 1) == 0 && WrapInt32(2) == 2 && WrapInt32(0) == 0 && WrapInt32(1) == 1
  {
  }

  lemma SampleParameter(f: Function, i: Instruction)
    requires InShape(f, i) && i.opcode.Parameter?
    ensures |SampleArguments(f)| == |f.parameterTypes|
    ensures 0 <= i.integerImmediate < |f.parameterTypes| ==>
              SampleArguments(f)[i.integerImmediate] == SampleOf(f.parameterTypes[i.integerImmediate])
    ensures |SampleFrame(f).registers| == RegisterCount(f)
  {
  }

  lemma SampleLocal(f: Function, i: Instruction)
    requires InShape(f, i) && i.opcode.LoadLocal?
    ensures Local(SampleFrame(f), i.localIndex) ==
            if i.localIndex < |f.localTypes| then SampleOf(f.localTypes[i.localIndex]) else Unit
    ensures |SampleFrame(f).registers| == RegisterCount(f)
  {
  }

  lemma OperandsAreTyped(f: Function, i: Instruction, fr: Frame)
    requires InShape(f, i) && FrameTyped(f, fr)
    ensures forall u :: 0 <= u < |i.operands| ==> HasType(TypeOf(f, i.operands[u]), Operand(i, fr, u))
    ensures |fr.registers| == RegisterCount(f)
  {
    hide TypeOf, RegisterCount;
  }

  lemma AcceptedIsGood(f: Function, i: Instruction, args: seq<Value>, fr: Frame)
    requires InShape(f, i) && InstructionOk(f, i) && !AcceptedAnyway(i) && ArgumentsTyped(f, args) && FrameTyped(f, fr)
    ensures Good(i.resultType, i.result, GenericExec(false, i, args, fr))
  {
    hide TypeOf, RegisterCount, TruncDiv, TruncMod;
    OperandsAreTyped(f, i, fr);
    if (i.opcode.DivideInt? || i.opcode.RemainderInt?) && Operand(i, fr, 1).n != 0 {
      TruncDivFits(Operand(i, fr, 0).n, Operand(i, fr, 1).n);
    }
  }

  /** The rules are exact: over int and bool an instruction is accepted if and only if it goes well and
      does not compare an int with a bool, or is an int constant beyond int32. */
  lemma RulesAreExact(f: Function, i: Instruction)
    requires InShape(f, i)
    ensures InstructionOk(f, i) <==> (GoesWell(f, i) && !RefusedAnyway(f, i)) || AcceptedAnyway(i)
  {
    hide GenericExec, FrameTyped, ArgumentsTyped, TypeOf, RegisterCount;
    ExceptionsAreDecided(f, i);
    if InstructionOk(f, i) && !AcceptedAnyway(i) {
      forall args, fr | ArgumentsTyped(f, args) && FrameTyped(f, fr)
        ensures Good(i.resultType, i.result, GenericExec(false, i, args, fr))
      {
        AcceptedIsGood(f, i, args, fr);
      }
    }
    if GoesWell(f, i) { RulesAreComplete(f, i); }
  }

  lemma ExceptionsAreDecided(f: Function, i: Instruction)
    requires InShape(f, i)
    ensures RefusedAnyway(f, i) ==> !InstructionOk(f, i)
    ensures AcceptedAnyway(i) ==> InstructionOk(f, i)
  {
  }

  // ----- which functions get the typed lowering -----

  /** Of the functions the verifier accepts, exactly those without handlers, over int and bool alone, with
      checked arithmetic only and without throws. */
  lemma SupportedAre(f: Function)
    requires Accepted(f)
    ensures Supported(f) <==>
            && !f.hasHandlers
            && (f.returnType.Void? || f.returnType.Int? || f.returnType.Bool?)
            && (forall p :: 0 <= p < |f.parameterTypes| ==> f.parameterTypes[p].Int? || f.parameterTypes[p].Bool?)
            && (forall s :: 0 <= s < |f.localTypes| ==> f.localTypes[s].Int? || f.localTypes[s].Bool?)
            && (forall v :: 0 <= v < RegisterCount(f) ==> TypeOf(f, v).Int? || TypeOf(f, v).Bool?)
            && (forall b, k :: 0 <= b < |f.blocks| && 0 <= k < |f.blocks[b].instructions| ==>
                  SupportsArithmeticMode(f.blocks[b].instructions[k].opcode) ==> f.blocks[b].instructions[k].checkedArithmetic)
            && (forall b :: 0 <= b < |f.blocks| ==> !f.blocks[b].terminator.Throw?)
  {
    hide TypeOf, RegisterCount, Ssa.Valid;
    forall b, k | 0 <= b < |f.blocks| && 0 <= k < |f.blocks[b].instructions|
      ensures var i := f.blocks[b].instructions[k];
              SupportedInstruction(f, i) <==> (SupportsArithmeticMode(i.opcode) ==> i.checkedArithmetic)
    {
      assert BlockOk(f, f.blocks[b]);
      OperandsAreValues(f, b, k);
    }
    forall b | 0 <= b < |f.blocks| ensures SupportedTerminator(f.blocks[b].terminator) <==> !f.blocks[b].terminator.Throw? {
      assert BlockOk(f, f.blocks[b]);
    }
  }

  lemma OperandsAreValues(f: Function, b: nat, k: nat)
    requires Accepted(f) && b < |f.blocks| && k < |f.blocks[b].instructions|
    ensures forall u :: 0 <= u < |f.blocks[b].instructions[k].operands| ==> f.blocks[b].instructions[k].operands[u] >= 0
  {
    OperandsDefined(f, b, k);
  }

  // ----- what the operations answer -----

  /** Both lowerings answer as the operators of the language: negation of a truth value, equality, and the
      four orders, on values of the types the rules ask for. */
  lemma Answers(safe: set<ValueId>, i: Instruction, args: seq<Value>, fr: Frame, answer: bool)
    requires 0 <= i.result < |fr.registers|
    requires
      || (i.opcode.LogicalNot? && Operand(i, fr, 0) == BoolValue(!answer))
      || (i.opcode.Equal? && BothSet(i, fr) && (answer <==> Operand(i, fr, 0) == Operand(i, fr, 1)))
      || (i.opcode.NotEqual? && BothSet(i, fr) && (answer <==> Operand(i, fr, 0) != Operand(i, fr, 1)))
      || (Ordered(i, fr) && i.opcode.LessInt? && (answer <==> Operand(i, fr, 0).n - Operand(i, fr, 1).n < 0))
      || (Ordered(i, fr) && i.opcode.GreaterInt? && (answer <==> Operand(i, fr, 0).n - Operand(i, fr, 1).n > 0))
      || (Ordered(i, fr) && i.opcode.LessOrEqualInt? && (answer <==> Operand(i, fr, 0).n - Operand(i, fr, 1).n <= 0))
      || (Ordered(i, fr) && i.opcode.GreaterOrEqualInt? && (answer <==> Operand(i, fr, 0).n - Operand(i, fr, 1).n >= 0))
    ensures GenericExec(false, i, args, fr) == Next(SetRegister(fr, i.result, BoolValue(answer)))
    ensures TypedExec(safe, i, args, fr) == Next(SetRegister(fr, i.result, BoolValue(answer)))
  {
  }

  predicate Ordered(i: Instruction, fr: Frame) {
    Operand(i, fr, 0).IntValue? && Operand(i, fr, 1).IntValue?
  }

  /** Two values of one type. */
  predicate BothSet(i: Instruction, fr: Frame) {
    Ordered(i, fr) || (Operand(i, fr, 0).BoolValue? && Operand(i, fr, 1).BoolValue?)
  }

  /** Constants, arguments, loads and stores: both lowerings put exactly that value, and nothing else
      changes; an argument that is missing fails, and in the typed lowering one of another type too. */
  lemma MovesAnswer(safe: set<ValueId>, i: Instruction, args: seq<Value>, fr: Frame, v: ValueId, slot: nat)
    requires 0 <= i.result < |fr.registers| && 0 <= v < |fr.registers| && slot < |fr.locals|
    requires i.opcode.ConstantInt? || i.opcode.ConstantBool? || i.opcode.LoadLocal? || i.opcode.Parameter? ||
             (i.opcode.StoreLocal? && |i.operands| == 1)
    requires i.opcode.LoadLocal? || i.opcode.StoreLocal? ==> i.localIndex < |fr.locals|
    requires i.opcode.Parameter? && 0 <= i.integerImmediate < |args| ==>
               IsTypedPrimitive(i.resultType) && HasType(i.resultType, args[i.integerImmediate])
    ensures TypedExec(safe, i, args, fr) == GenericExec(false, i, args, fr)
    ensures var r := GenericExec(false, i, args, fr);
            if i.opcode.Parameter? && !(0 <= i.integerImmediate < |args|) then r == Fault(InvalidArguments)
            else
              && r.Next? && |r.frame.registers| == |fr.registers| && |r.frame.locals| == |fr.locals|
              && r.frame.registers[v] ==
                 (if v != i.result || i.opcode.StoreLocal? then fr.registers[v]
                  else if i.opcode.ConstantInt? then IntValue(i.integerImmediate)
                  else if i.opcode.ConstantBool? then BoolValue(i.boolImmediate)
                  else if i.opcode.Parameter? then args[i.integerImmediate]
                  else fr.locals[i.localIndex])
              && r.frame.locals[slot] ==
                 (if i.opcode.StoreLocal? && slot == i.localIndex then Register(fr, i.operands[0]) else fr.locals[slot])
  {
  }

  /** The exact result of the operation on two numbers, or on one. */
  predicate IsExact(op: Opcode, x: int, y: int, n: int) {
    match op
    case AddInt => n - x == y
    case SubtractInt => n + y == x
    case MultiplyInt => n == x * y
    case NegateInt => n + x == 0
    case _ => false
  }

  predicate OnNumbers(i: Instruction, fr: Frame, n: int) {
    && 0 <= i.result < |fr.registers| && Operand(i, fr, 0).IntValue? && (Operand(i, fr, 1).IntValue? || i.opcode.NegateInt?)
    && InInt32(Operand(i, fr, 0).n) && IsExact(i.opcode, Operand(i, fr, 0).n, AsInt(Operand(i, fr, 1)), n)
  }

  /** Checked arithmetic gives the exact result or overflows where that is no int; typed arithmetic is
      checked unless its check was dropped. */
  lemma CheckedAnswers(safe: set<ValueId>, i: Instruction, args: seq<Value>, fr: Frame, n: int)
    requires OnNumbers(i, fr, n)
    ensures i.checkedArithmetic ==>
              GenericExec(false, i, args, fr) ==
              if InInt32(n) then Next(SetRegister(fr, i.result, IntValue(n))) else Fault(IntegerOverflow)
    ensures TypedExec(safe, i, args, fr) ==
            if InInt32(n) || ProvenSafe(safe, i) then Next(SetRegister(fr, i.result, IntValue(n))) else Fault(IntegerOverflow)
  {
  }

  /** Unchecked arithmetic gives the int that differs from the exact result by a multiple of 2^32. */
  lemma UncheckedAnswers(i: Instruction, args: seq<Value>, fr: Frame, n: int)
    requires OnNumbers(i, fr, n) && !i.checkedArithmetic
    ensures var r := GenericExec(false, i, args, fr);
            && r.Next? && |r.frame.registers| == |fr.registers| && r.frame.registers[i.result].IntValue?
            && InInt32(r.frame.registers[i.result].n) && (r.frame.registers[i.result].n - n) % 0x1_0000_0000 == 0
  {
    WrapStaysClose(n);
  }

  lemma WrapStaysClose(n: int)
    ensures InInt32(WrapInt32(n)) && (WrapInt32(n) - n) % 0x1_0000_0000 == 0
  {
  }

  /** Division by zero is its own error, and INT_MIN / -1 an overflow; INT_MIN % -1 is zero for the generic
      lowering and an overflow for the typed one.  Otherwise both give the quotient towards zero and the
      remainder that goes with it. */
  lemma DivisionAnswers(safe: set<ValueId>, i: Instruction, args: seq<Value>, fr: Frame, q: int, m: int)
    requires 0 <= i.result < |fr.registers| && Ordered(i, fr) && (i.opcode.DivideInt? || i.opcode.RemainderInt?)
    ensures Operand(i, fr, 1).n == 0 ==>
              GenericExec(false, i, args, fr) == TypedExec(safe, i, args, fr) == Fault(DivisionByZero)
    ensures Operand(i, fr, 0).n == INT_MIN && Operand(i, fr, 1).n == -1 ==>
              TypedExec(safe, i, args, fr) == Fault(IntegerOverflow) &&
              GenericExec(false, i, args, fr) ==
              if i.opcode.DivideInt? then Fault(IntegerOverflow) else Next(SetRegister(fr, i.result, IntValue(0)))
    ensures Operand(i, fr, 1).n != 0 && !(Operand(i, fr, 0).n == INT_MIN && Operand(i, fr, 1).n == -1) &&
            Operand(i, fr, 0).n == q * Operand(i, fr, 1).n + m && Abs(m) < Abs(Operand(i, fr, 1).n) &&
            (m == 0 || (m < 0 <==> Operand(i, fr, 0).n < 0)) ==>
              GenericExec(false, i, args, fr) == TypedExec(safe, i, args, fr) ==
              Next(SetRegister(fr, i.result, IntValue(if i.opcode.DivideInt? then q else m)))
  {
    hide TruncDiv, TruncMod;
    var x, y := Operand(i, fr, 0).n, Operand(i, fr, 1).n;
    if y != 0 && x == q * y + m && Abs(m) < Abs(y) && (m == 0 || (m < 0 <==> x < 0)) { TruncationIsUnique(x, y, q, m); }
  }

  /** No block names a parameter twice. */
  predicate DistinctParameters(f: Function) {
    forall b, i, j | 0 <= b < |f.blocks| && 0 <= i < j < |f.blocks[b].parameters| ::
      f.blocks[b].parameters[i].value != f.blocks[b].parameters[j].value
  }

  /** The exit goes to the first block of that id, each of its parameters holds what its argument held,
      and nothing else changes; without such a block the program is invalid. */
  ghost predicate GoesTo(f: Function, fr: Frame, target: nat, arguments: seq<ValueId>, exit: Exit) {
    match exit
    case Goto(b, after) =>
      && b < |f.blocks| && f.blocks[b].id == target && (forall c :: 0 <= c < b ==> f.blocks[c].id != target)
      && after.locals == fr.locals
      && (forall j :: 0 <= j < |arguments| && j < |f.blocks[b].parameters| && 0 <= f.blocks[b].parameters[j].value < |fr.registers|
            ==> Register(after, f.blocks[b].parameters[j].value) == Register(fr, arguments[j]))
      && (forall v :: (forall j :: 0 <= j < |f.blocks[b].parameters| ==> f.blocks[b].parameters[j].value != v)
            ==> Register(after, v) == Register(fr, v))
    case Abort(code) => code.InvalidProgram? && forall c :: 0 <= c < |f.blocks| ==> f.blocks[c].id != target
    case Return(_) => false
  }

  lemma {:induction false} FirstOfId(f: Function, id: nat, n: nat)
    requires n <= |f.blocks|
    ensures var i := Ssa.IndexOf(View(f)[..n], id);
            if i < 0 then forall c :: 0 <= c < n ==> f.blocks[c].id != id
            else i < n && f.blocks[i].id == id && forall c :: 0 <= c < i ==> f.blocks[c].id != id
  {
    if n > 0 {
      FirstOfId(f, id, n - 1);
      assert View(f)[..n][..n - 1] == View(f)[..n - 1];
    }
  }

  lemma TakeGoes(f: Function, fr: Frame, target: nat, arguments: seq<ValueId>)
    requires DistinctParameters(f)
    ensures GoesTo(f, fr, target, arguments, Take(f, fr, target, arguments))
  {
    FirstOfId(f, target, |f.blocks|);
    assert View(f)[..|f.blocks|] == View(f);
    var b := BlockIndex(f, target);
    if b >= 0 {
      var parameters := f.blocks[b].parameters;
      var n := if |arguments| < |parameters| then |arguments| else |parameters|;
      var saved := seq(n, j requires 0 <= j < n => Register(fr, arguments[j]));
      forall v ensures
        && (forall j :: 0 <= j < n && parameters[j].value == v && 0 <= v < |fr.registers|
              ==> Register(AssignSaved(fr, parameters, saved, n), v) == saved[j])
        && ((forall j :: 0 <= j < n ==> parameters[j].value != v)
              ==> Register(AssignSaved(fr, parameters, saved, n), v) == Register(fr, v))
      {
        TransferIsParallel(fr, parameters, saved, n, v);
      }
      TransferIsParallel(fr, parameters, saved, n, 0);
    }
  }

  /** Both lowerings leave a block alike: a branch goes to the first target exactly when its condition is
      true, handing over that edge's arguments, a jump to its only one, and a return gives its value. */
  lemma LeavesAnswer(safe: set<ValueId>, f: Function, t: Terminator, fr: Frame)
    requires DistinctParameters(f) && !t.Throw? && !t.NoTerminator?
    requires t.Branch? ==> Register(fr, t.condition).BoolValue?
    requires t.ReturnValue? ==> if f.returnType.Bool? then Register(fr, t.value).BoolValue? else Register(fr, t.value).IntValue?
    ensures var exit := Leave(Generic, f, t, fr);
            && Leave(Typed(safe), f, t, fr) == exit
            && match t
               case Jump(target, arguments) => GoesTo(f, fr, target, arguments, exit)
               case Branch(condition, target, arguments, falseTarget, falseArguments) =>
                 if Register(fr, condition).b then GoesTo(f, fr, target, arguments, exit)
                 else GoesTo(f, fr, falseTarget, falseArguments, exit)
               case ReturnValue(value) => exit == Return(Register(fr, value))
               case _ => exit == Return(Unit)
  {
    hide Take, GoesTo;
    match t
    case Jump(target, arguments) => TakeGoes(f, fr, target, arguments);
    case Branch(_, target, arguments, falseTarget, falseArguments) =>
      TakeGoes(f, fr, target, arguments);
      TakeGoes(f, fr, falseTarget, falseArguments);
    case _ =>
  }

  // ----- batches end no earlier than they must -----

  /** Some arguments and register contents make the emitted statements fail. */
  ghost predicate FailsSomewhere(safe: set<ValueId>, i: Instruction) {
    exists args, fr :: TypedExec(safe, i, args, fr).Fault?
  }

  lemma FailsHere(safe: set<ValueId>, i: Instruction, args: seq<Value>, fr: Frame)
    requires TypedExec(safe, i, args, fr).Fault?
    ensures FailsSomewhere(safe, i)
  {
  }

  /** A batch ends exactly at the operations that can fail: those that fail for some operands.  The one
      exception is a difference of a value and itself, which cannot and ends a batch all the same. */
  lemma CanFailExactly(safe: set<ValueId>, i: Instruction)
    requires |i.operands| == OperandCount(i.opcode) && forall u :: 0 <= u < |i.operands| ==> i.operands[u] >= 0
    ensures CanFail(safe, i) <==>
            FailsSomewhere(safe, i) || (i.opcode.SubtractInt? && !ProvenSafe(safe, i) && i.operands[0] == i.operands[1])
  {
    hide FailsSomewhere, TruncDiv, TruncMod;
    if i.opcode.Parameter? {
      FailsHere(safe, i, [], Frame([], []));
    } else if i.opcode.DivideInt? || i.opcode.RemainderInt? {
      FailsHere(safe, i, [], Frame([], []));
    } else if Elidable(i.opcode) && !ProvenSafe(safe, i) && !(i.opcode.SubtractInt? && i.operands[0] == i.operands[1]) {
      OverflowsSomewhere(safe, i);
    }
    if !CanFail(safe, i) { NeverFails(safe, i); }
    if i.opcode.SubtractInt? && i.operands[0] == i.operands[1] { SelfDifference(safe, i); }
  }

  lemma NeverFails(safe: set<ValueId>, i: Instruction)
    requires !CanFail(safe, i)
    ensures !FailsSomewhere(safe, i)
  {
  }

  lemma SelfDifference(safe: set<ValueId>, i: Instruction)
    requires i.opcode.SubtractInt? && |i.operands| == 2 && i.operands[0] == i.operands[1]
    ensures !FailsSomewhere(safe, i)
  {
  }

  /** Registers 0 to n hold x, but register v holds y. */
  function TwoValued(n: nat, x: int, v: ValueId, y: int): Frame {
    Frame([], seq(n + 1, w => IntValue(if w == v then y else x)))
  }

  lemma OverflowsSomewhere(safe: set<ValueId>, i: Instruction)
    requires |i.operands| == OperandCount(i.opcode) && forall u :: 0 <= u < |i.operands| ==> i.operands[u] >= 0
    requires Elidable(i.opcode) && !ProvenSafe(safe, i)
    requires i.opcode.SubtractInt? ==> i.operands[0] != i.operands[1]
    ensures FailsSomewhere(safe, i)
  {
    hide FailsSomewhere;
    var n := i.operands[0] + if |i.operands| > 1 then i.operands[1] else 0;
    if i.opcode.SubtractInt? {
      FailsHere(safe, i, [], TwoValued(n, INT_MIN, i.operands[1], INT_MAX));
    } else {
      FailsHere(safe, i, [], TwoValued(n, INT_MIN, -1, 0));
    }
  }
}
