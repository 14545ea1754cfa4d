/** What the interpreter answers (src/runtime/Interpreter.cpp:1206-1318, 2006-2305, 2575-2590, 2772-2928),
    in terms of the numbers alone: types, comparisons, negations, conversions, moves and steps. */
module BytecodeAnswers {
  import opened Scalars
  import opened Bytecode
  import opened BytecodeRuns
  import opened BytecodeRules

  /** An unsigned type begins at zero, a signed one as far below zero as its size allows. */
  lemma RangesAre(t: PrimitiveType, n: int)
    requires IsIntegral(t)
    ensures InRange(t, n) <==>
            if t.SByte? || t.Short? || t.Int? || t.Long? then -SizeOf(t) <= 2 * n < SizeOf(t) else 0 <= n < SizeOf(t)
  {
  }

  // ----- comparisons -----

  /** The type both values have is the one the comparison works at. */
  predicate WorksAt(f: Function, i: Instruction, c: Carrier, t: PrimitiveType) {
    match c
    case IntCarrier =>
      (t.Int? || t.UInt?) && (OperandType(f, i, 0).Int? && OperandType(f, i, 1).Int? ==> t.Int?)
    case LongCarrier => t.Long? || t.ULong?
    case FloatCarrier => t.Float? || t.Double?
  }

  /** Integers of one type compare as numbers. */
  lemma ComparisonGives(m: Machine, f: Function, i: Instruction, t: PrimitiveType, a: int, b: int)
    requires i.opcode.Compare? && IsIntegral(t) && WorksAt(f, i, i.opcode.carrier, t)
    ensures var e := CompareValues(m, f, i, Whole(t, a), Whole(t, b));
            && e.Yields? && e.value.BoolValue?
            && (a < b ==> (e.value.b <==> i.opcode.test.Less? || i.opcode.test.LessOrEqual?))
            && (a == b ==> (e.value.b <==> i.opcode.test.LessOrEqual? || i.opcode.test.GreaterOrEqual?))
            && (a > b ==> (e.value.b <==> i.opcode.test.Greater? || i.opcode.test.GreaterOrEqual?))
  {
  }

  /** Floating-point values of one type compare, compute and negate as the unit does at that type. */
  lemma FloatingGives(m: Machine, f: Function, i: Instruction, t: PrimitiveType, a: nat, b: nat)
    requires t.Float? || t.Double?
    ensures i.opcode.Compare? && i.opcode.carrier.FloatCarrier? ==>
              CompareValues(m, f, i, Floating(t, a), Floating(t, b)) == Yields(BoolValue(m.fpu.compare(t, i.opcode.test, a, b)))
    ensures i.opcode.Compute? && i.opcode.carrier.FloatCarrier? ==>
              ComputeValue(m, f, i, Floating(t, a), Floating(t, b)) == Yields(Floating(t, m.fpu.arithmetic(t, i.opcode.op, a, b)))
    ensures i.opcode.Negate? && i.opcode.carrier.FloatCarrier? ==>
              NegateValue(m, i, Floating(t, a)) == Yields(Floating(t, m.fpu.negate(t, a)))
    ensures SameValue(m, Floating(t, a), Floating(t, b)) <==> m.fpu.equal(t, a, b)
  {
  }

  /** Integers compute at their own type. */
  lemma ComputationGives(m: Machine, f: Function, i: Instruction, t: PrimitiveType, a: int, b: int)
    requires i.opcode.Compute? && IsIntegral(t) && WorksAt(f, i, i.opcode.carrier, t)
    ensures ComputeValue(m, f, i, Whole(t, a), Whole(t, b)) == IntegerArithmetic(t, i.checkedArithmetic, i.opcode.op, a, b)
  {
  }

  // ----- negation and conversion -----

  /** The negative, where the type has it; otherwise an overflow in checked mode, and the value itself in
      unchecked mode. */
  lemma NegationGives(m: Machine, i: Instruction, t: PrimitiveType, n: int)
    requires i.opcode == Negate(if t.Int? then IntCarrier else LongCarrier) && (t.Int? || t.Long?) && InRange(t, n)
    ensures NegateValue(m, i, Whole(t, n)) ==
            if 2 * n != -SizeOf(t) then Yields(Whole(t, 0 - n))
            else if i.checkedArithmetic then Fails(IntegerOverflow) else Yields(Whole(t, n))
  {
  }

  /** An integer keeps its number in any integer type that has it; otherwise it overflows in checked mode and
      is taken modulo the size of the type in unchecked mode. */
  lemma IntegerConverts(m: Machine, s: PrimitiveType, n: int, t: PrimitiveType, checked: bool)
    requires IsIntegral(s) && IsIntegral(t)
    ensures var e := ConvertValue(m, Whole(s, n), t, checked);
            if InRange(t, n) then e == Yields(Whole(t, n))
            else if checked then e == Fails(IntegerOverflow)
            else e.Yields? && e.value.Whole? && e.value.ty == t && InRange(t, e.value.n) && (n - e.value.n) % SizeOf(t) == 0
  {
    hide Wrap, SizeOf;
    WrapKeepsResidue(t, n, n);
  }

  /** n is x without its fraction. */
  predicate IsWholePart(x: real, n: int) {
    if x >= 0.0 then n >= 0 && n as real <= x < (n + 1) as real else n <= 0 && (n - 1) as real < x <= n as real
  }

  /** A number that is not whole loses its fraction; one outside the type overflows in checked mode, and
      otherwise its whole part is taken modulo the size of the type; what is no number overflows or
      becomes zero. */
  lemma FloatingConverts(m: Machine, s: PrimitiveType, bits: nat, t: PrimitiveType, checked: bool, n: int)
    requires IsFloating(s) && IsIntegral(t)
    requires m.fpu.number(s, bits).Some? ==> IsWholePart(m.fpu.number(s, bits).value, n)
    requires m.fpu.number(s, bits).None? ==> n == 0
    ensures var e, number := ConvertValue(m, Floating(s, bits), t, checked), m.fpu.number(s, bits);
            if checked then
              e == if number.Some? && Low(t) as real <= number.value <= High(t) as real then Yields(Whole(t, n))
                   else Fails(IntegerOverflow)
            else e.Yields? && e.value.Whole? && e.value.ty == t && InRange(t, e.value.n) && (n - e.value.n) % SizeOf(t) == 0
  {
    hide Wrap, SizeOf;
    WrapKeepsResidue(t, n, n);
    if m.fpu.number(s, bits).Some? { WholePartIsTruncated(m.fpu.number(s, bits).value, n); }
  }

  lemma WholePartIsTruncated(x: real, n: int)
    requires IsWholePart(x, n)
    ensures Truncate(x) == n
  {
  }

  /** The largest float is (2^24 - 1) * 2^104. */
  lemma LargestFloat()
    ensures FLOAT_MAX == (0xff_ffff * 0x100_0000_0000_0000_0000_0000_0000) as real
  {
  }

  // ----- moves -----

  /** What the other instructions give: their argument, constant or local, the operand in its wider type,
      the other truth value, and whether two values of one type are the same. */
  lemma ValuesGiven(m: Machine, f: Function, i: Instruction, fr: Frame)
    ensures var e, x, y := Evaluate(m, f, i, fr), Operand(m, fr, i, 0), Operand(m, fr, i, 1);
            match i.opcode
            case LoadParameter => if i.index < |m.args| then e == Yields(m.args[i.index]) else e.Fails?
            case LoadLocal => if i.index < |fr.locals| then e == Yields(fr.locals[i.index]) else e.Fails?
            case ConstantInt =>
              e == Yields(if RegisterType(f, i.result).Long? then Whole(Long, i.integerImmediate) else Whole(Int, i.integerImmediate))
            case ConstantDouble => e == Yields(Floating(Double, i.doubleImmediate))
            case ConstantBool => e == Yields(BoolValue(i.boolImmediate))
            case ConvertIntToLong => if x.Whole? && x.ty.Int? then e == Yields(Whole(Long, x.n)) else e == Fails(TypeMismatch)
            case ConvertIntToDouble =>
              if x.Whole? && x.ty.Int? then e == Yields(Floating(Double, m.fpu.fromInteger(Double, x.n))) else e == Fails(TypeMismatch)
            case ConvertLongToDouble =>
              if x.Whole? && x.ty.Long? then e == Yields(Floating(Double, m.fpu.fromInteger(Double, x.n))) else e == Fails(TypeMismatch)
            case LogicalNot => x.BoolValue? ==> e.Yields? && e.value.BoolValue? && e.value.b != x.b
            case Equal => x.Whole? && y.Whole? && x.ty == y.ty ==> e.Yields? && e.value.BoolValue? && (e.value.b <==> x.n == y.n)
            case NotEqual => x.Whole? && y.Whole? && x.ty == y.ty ==> e.Yields? && e.value.BoolValue? && (e.value.b <==> x.n != y.n)
            case _ => true
  {
  }

  // ----- steps -----

  /** An instruction that gives a value changes its result register and nothing else, a store changes its
      local and nothing else; each is charged once, and the next instruction follows. */
  lemma InstructionSteps(m: Machine, f: Function, s: State, r: int, k: nat)
    requires BeforeInstruction(m, f, s) && k < |s.frame.locals|
    ensures var i, t := Current(m, f, s), Step(m, f, s);
            t.At? ==>
              && t.block == s.block && t.index == s.index + 1 && t.executed == s.executed + 1
              && |t.frame.locals| == |s.frame.locals|
              && t.frame.locals[k] ==
                 (if i.opcode.StoreLocal? && i.index == k then Operand(m, s.frame, i, 0) else s.frame.locals[k])
              && (i.opcode.StoreLocal? || r != i.result ==> Read(m, t.frame, r) == Read(m, s.frame, r))
              && (!i.opcode.StoreLocal? && r == i.result ==> Yields(Read(m, t.frame, r)) == Evaluate(m, f, i, s.frame))
  {
    hide Evaluate;
  }

  lemma {:induction false} AssignIsParallel(
    m: Machine, locals: seq<Value>, registers: map<int, Written>, b: BasicBlock, saved: seq<Value>, n: nat, r: int)
    requires n <= |b.parameters| && n <= |saved|
    requires forall i, j :: 0 <= i < j < n ==> b.parameters[i].value != b.parameters[j].value
    ensures var after := Frame(Assign(registers, b, saved, n), locals);
            && (forall j :: 0 <= j < n && b.parameters[j].value == r ==> Read(m, after, r) == saved[j])
            && ((forall j :: 0 <= j < n ==> b.parameters[j].value != r) ==> Read(m, after, r) == Read(m, Frame(registers, locals), r))
  {
    if n > 0 { AssignIsParallel(m, locals, registers, b, saved, n - 1, r); }
  }

  /** The state goes to the block of that id; its parameters hold what the arguments held, all at once, and
      nothing else changes; the step is charged once. */
  ghost predicate GoesTo(m: Machine, f: Function, s: State, target: nat, arguments: seq<int>, t: State)
    requires s.At?
  {
    match t
    case At(b, index, after, executed) =>
      && b < |f.blocks| && f.blocks[b].id == target && index == 0 && executed == s.executed + 1
      && |arguments| == |f.blocks[b].parameters| && after.locals == s.frame.locals
      && forall r :: Moved(m, f.blocks[b], s.frame, arguments, after, r)
    case Finished(result) => result == Failed(InvalidProgram)
  }

  ghost predicate Moved(m: Machine, b: BasicBlock, before: Frame, arguments: seq<int>, after: Frame, r: int)
    requires |arguments| == |b.parameters|
  {
    && (forall j :: 0 <= j < |arguments| && b.parameters[j].value == r ==> Read(m, after, r) == Read(m, before, arguments[j]))
    && ((forall j :: 0 <= j < |arguments| ==> b.parameters[j].value != r) ==> Read(m, after, r) == Read(m, before, r))
  }

  predicate DistinctParameters(f: Function) {
    forall b, i, j | 0 <= b < |f.blocks| && 0 <= i < j < |f.blocks[b].parameters| ::
      f.blocks[b].parameters[i].value != f.blocks[b].parameters[j].value
  }

  lemma TakeGoes(m: Machine, f: Function, s: State, target: nat, arguments: seq<int>)
    requires s.At? && DistinctParameters(f)
    ensures GoesTo(m, f, s, target, arguments, Take(m, f, s, target, arguments))
  {
    var b := BlockIndex(f, target);
    if b >= 0 && |arguments| == |f.blocks[b].parameters| {
      var saved := Saved(m, s.frame, arguments);
      var after := s.frame.(registers := Assign(s.frame.registers, f.blocks[b], saved, |arguments|));
      forall r ensures Moved(m, f.blocks[b], s.frame, arguments, after, r) {
        AssignIsParallel(m, s.frame.locals, s.frame.registers, f.blocks[b], saved, |arguments|, r);
      }
    }
  }

  /** A branch goes to its first target exactly when its condition is true, and a return gives its value. */
  lemma TerminatorSteps(m: Machine, f: Function, s: State)
    requires s.At? && InBounds(f, s) && s.executed < m.budget && s.index == |f.blocks[s.block].instructions|
    requires DistinctParameters(f)
    ensures var t := Step(m, f, s);
            match f.blocks[s.block].terminator
            case Jump(target, arguments) => GoesTo(m, f, s, target, arguments, t)
            case Branch(condition, target, arguments, falseTarget, falseArguments) =>
              if !Read(m, s.frame, condition).BoolValue? then t == Finished(Failed(TypeMismatch))
              else if Read(m, s.frame, condition).b then GoesTo(m, f, s, target, arguments, t)
              else GoesTo(m, f, s, falseTarget, falseArguments, t)
            case ReturnValue(value) => HasType(Read(m, s.frame, value), f.returnType) ==> t == Finished(Returned(Read(m, s.frame, value)))
            case ReturnVoid => t == Finished(Returned(Unset))
            case _ => t == Finished(Failed(InvalidProgram))
  {
    hide Take, GoesTo;
    match f.blocks[s.block].terminator
    case Jump(target, arguments) => TakeGoes(m, f, s, target, arguments);
    case Branch(_, target, arguments, falseTarget, falseArguments) =>
      TakeGoes(m, f, s, target, arguments);
      TakeGoes(m, f, s, falseTarget, falseArguments);
    case _ =>
  }
}
