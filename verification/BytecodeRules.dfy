/** The typing rules of the bytecode verifier (src/bytecode/BytecodeVerifier.cpp:990-1738) against
    what the interpreter does: for the scalar opcodes they refuse nothing that always runs well, but
    for three kinds of instruction, and accept nothing that does not, but for one. */
module BytecodeRules {
  import opened Options
  import opened Scalars
  import opened Bytecode
  import opened BytecodeRuns
  import opened BytecodeSafety
  import Mir
  import Ssa

  // ----- running well -----

  /** A frame whose operands and locals hold values of their declared types. */
  ghost predicate FrameFits(m: Machine, f: Function, i: Instruction, fr: Frame) {
    && OperandsConform(false, m, f, i, fr)
    && |fr.locals| == |f.localTypes| && forall k :: 0 <= k < |fr.locals| ==> HasType(fr.locals[k], f.localTypes[k])
  }

  /** A value of the type, or an arithmetic fault. */
  predicate Good(e: Evaluation, t: PrimitiveType) {
    match e
    case Yields(v) => HasType(v, t)
    case Fails(code) => code.DivisionByZero? || code.IntegerOverflow?
  }

  /** Whatever its operands hold, the instruction gives a value of its register's type or an arithmetic
      fault, and for some operands it gives a value. */
  ghost predicate GoesWell(m: Machine, f: Function, i: Instruction) {
    && (forall fr :: FrameFits(m, f, i, fr) ==> Good(Evaluate(m, f, i, fr), RegisterType(f, i.result)))
    && (exists fr :: FrameFits(m, f, i, fr) && Evaluate(m, f, i, fr).Yields?)
  }

  /** What goes well and is refused all the same: remainders of floating-point numbers, for which there
      is no opcode; conversions of a type to itself; and equality between different types. */
  predicate RefusedAnyway(f: Function, i: Instruction) {
    || (i.opcode.Compute? && i.opcode.carrier.FloatCarrier? && i.opcode.op.Remainder?)
    || (i.opcode.ConvertNumeric? && OperandType(f, i, 0) == RegisterType(f, i.result))
    || ((i.opcode.Equal? || i.opcode.NotEqual?) && OperandType(f, i, 0) != OperandType(f, i, 1))
  }

  /** What always fails and is accepted all the same: the negation of an unsigned value. */
  predicate AcceptedAnyway(f: Function, i: Instruction) {
    i.opcode.Negate? && RegisterType(f, i.result) == OperandType(f, i, 0) &&
    ((i.opcode.carrier.IntCarrier? && OperandType(f, i, 0).UInt?) || (i.opcode.carrier.LongCarrier? && OperandType(f, i, 0).ULong?))
  }

  /** Operands and result are in the table of scalar registers; as many operands as the opcode has, and
      unchecked only where that has a meaning. */
  predicate InShape(f: Function, i: Instruction) {
    && (forall r | 0 <= r < |f.registerTypes| :: IsScalar(f.registerTypes[r]))
    && (forall p | 0 <= p < |f.parameterTypes| :: IsScalar(f.parameterTypes[p]))
    && (forall s | 0 <= s < |f.localTypes| :: IsScalar(f.localTypes[s]))
    && |i.operands| == OperandCount(i.opcode) && (forall u | 0 <= u < |i.operands| :: 0 <= i.operands[u] < |f.registerTypes|)
    && 0 <= i.result < |f.registerTypes|
    && (!i.checkedArithmetic ==> SupportsArithmeticMode(i.opcode))
  }

  /** Zero is a number of both floating-point types. */
  predicate KnowsZero(fpu: FloatUnit) {
    fpu.number(Float, 0) == Some(0.0) && fpu.number(Double, 0) == Some(0.0)
  }

  // ----- a frame to run in -----

  function SampleOf(t: PrimitiveType): Value {
    if t.Bool? then BoolValue(true) else if IsIntegral(t) then Whole(t, 1) else Floating(t, 0)
  }

  lemma SampleHasType(t: PrimitiveType)
    requires IsScalar(t)
    ensures HasType(SampleOf(t), t)
  {
  }

  function SampleFrame(f: Function): Frame {
    Frame(map r: int | 0 <= r < |f.registerTypes| :: Written(SampleOf(f.registerTypes[r]), Ssa.Definition(0, 0, f.registerTypes[r])),
          seq(|f.localTypes|, k requires 0 <= k < |f.localTypes| => SampleOf(f.localTypes[k])))
  }

  lemma SampleFits(m: Machine, f: Function, i: Instruction)
    requires InShape(f, i)
    ensures FrameFits(m, f, i, SampleFrame(f))
    ensures forall u :: 0 <= u < |i.operands| ==> Operand(m, SampleFrame(f), i, u) == SampleOf(OperandType(f, i, u))
    ensures forall k :: 0 <= k < |f.localTypes| ==> SampleFrame(f).locals[k] == SampleOf(f.localTypes[k])
  {
    forall u | 0 <= u < |i.operands| ensures HasType(SampleOf(OperandType(f, i, u)), OperandType(f, i, u)) {
      SampleHasType(OperandType(f, i, u));
    }
    forall k | 0 <= k < |f.localTypes| ensures HasType(SampleFrame(f).locals[k], f.localTypes[k]) {
      SampleHasType(f.localTypes[k]);
    }
  }

  // ----- what goes well is accepted -----

  predicate Scalar(op: Opcode) { !op.StoreLocal? && !op.OtherOpcode? }

  lemma ArithmeticComplete(m: Machine, f: Function, i: Instruction)
    requires InShape(f, i) && i.opcode.Compute? && Good(Evaluate(m, f, i, SampleFrame(f)), RegisterType(f, i.result))
    ensures InstructionOk(f, i) || RefusedAnyway(f, i)
  {
    SampleFits(m, f, i);
    hide SampleFrame;
    TruncDivMod(1, 1);
  }

  lemma ComparisonComplete(m: Machine, f: Function, i: Instruction)
    requires InShape(f, i) && i.opcode.Compare? && Good(Evaluate(m, f, i, SampleFrame(f)), RegisterType(f, i.result))
    ensures InstructionOk(f, i)
  {
    SampleFits(m, f, i);
    hide SampleFrame;
  }

  lemma UnaryComplete(m: Machine, f: Function, i: Instruction)
    requires InShape(f, i) && Good(Evaluate(m, f, i, SampleFrame(f)), RegisterType(f, i.result))
    requires i.opcode.Negate? || i.opcode.LogicalNot? || i.opcode.ConvertIntToLong? || i.opcode.ConvertIntToDouble? ||
             i.opcode.ConvertLongToDouble?
    ensures InstructionOk(f, i)
  {
    SampleFits(m, f, i);
    hide SampleFrame;
  }

  lemma ConversionComplete(m: Machine, f: Function, i: Instruction, fr: Frame)
    requires InShape(f, i) && i.opcode.ConvertNumeric? && FrameFits(m, f, i, fr) && Evaluate(m, f, i, fr).Yields?
    ensures InstructionOk(f, i) || RefusedAnyway(f, i)
  {
  }

  lemma OthersComplete(m: Machine, f: Function, i: Instruction)
    requires InShape(f, i) && Good(Evaluate(m, f, i, SampleFrame(f)), RegisterType(f, i.result)) && ArgumentsMatch(m, f)
    requires i.opcode.LoadParameter? || i.opcode.LoadLocal? || i.opcode.ConstantInt? || i.opcode.ConstantDouble? ||
             i.opcode.ConstantBool? || i.opcode.Equal? || i.opcode.NotEqual?
    ensures InstructionOk(f, i) || RefusedAnyway(f, i)
  {
    SampleFits(m, f, i);
    hide SampleFrame;
    if i.opcode.LoadParameter? && i.index < |m.args| { assert HasType(m.args[i.index], f.parameterTypes[i.index]); }
    if i.opcode.LoadLocal? && i.index < |f.localTypes| { SampleHasType(f.localTypes[i.index]); }
  }

  /** Whatever goes well is accepted, but for what is refused anyway. */
  lemma RulesAreComplete(m: Machine, f: Function, i: Instruction)
    requires InShape(f, i) && Scalar(i.opcode) && ArgumentsMatch(m, f) && GoesWell(m, f, i)
    ensures InstructionOk(f, i) || RefusedAnyway(f, i)
  {
    hide InstructionOk, RefusedAnyway, Evaluate;
    SampleFits(m, f, i);
    match i.opcode
    case Compute(_, _) => ArithmeticComplete(m, f, i);
    case Compare(_, _) => ComparisonComplete(m, f, i);
    case Negate(_) | LogicalNot | ConvertIntToLong | ConvertIntToDouble | ConvertLongToDouble => UnaryComplete(m, f, i);
    case ConvertNumeric =>
      var fr :| FrameFits(m, f, i, fr) && Evaluate(m, f, i, fr).Yields?;
      ConversionComplete(m, f, i, fr);
    case _ => OthersComplete(m, f, i);
  }

  // ----- what is accepted goes well -----

  lemma AcceptedIsGood(m: Machine, f: Function, i: Instruction, fr: Frame)
    requires InShape(f, i) && Scalar(i.opcode) && ArgumentsMatch(m, f) && InstructionOk(f, i) && FrameFits(m, f, i, fr)
    requires !NegatesUnsigned(f, i)
    ensures Good(Evaluate(m, f, i, fr), RegisterType(f, i.result))
  {
    hide Evaluate, IntegerArithmetic, ConvertValue;
    match i.opcode
    case Compute(_, _) | Compare(_, _) => ComputeSound(false, m, f, i, fr);
    case LoadParameter | LoadLocal | ConstantInt | ConstantDouble | ConstantBool => LoadIsGood(m, f, i, fr);
    case _ => UnarySound(false, m, f, i, fr);
  }

  lemma LoadIsGood(m: Machine, f: Function, i: Instruction, fr: Frame)
    requires InShape(f, i) && ArgumentsMatch(m, f) && InstructionOk(f, i) && FrameFits(m, f, i, fr)
    requires i.opcode.LoadParameter? || i.opcode.LoadLocal? || i.opcode.ConstantInt? || i.opcode.ConstantDouble? ||
             i.opcode.ConstantBool?
    ensures Good(Evaluate(m, f, i, fr), RegisterType(f, i.result))
  {
    if i.opcode.LoadParameter? { assert HasType(m.args[i.index], f.parameterTypes[i.index]); }
  }

  lemma AcceptedYields(m: Machine, f: Function, i: Instruction)
    requires InShape(f, i) && Scalar(i.opcode) && ArgumentsMatch(m, f) && InstructionOk(f, i) && KnowsZero(m.fpu)
    requires !NegatesUnsigned(f, i)
    ensures Evaluate(m, f, i, SampleFrame(f)).Yields?
  {
    SampleFits(m, f, i);
    hide SampleFrame;
  }

  lemma AcceptedGoesWell(m: Machine, f: Function, i: Instruction)
    requires InShape(f, i) && Scalar(i.opcode) && ArgumentsMatch(m, f) && InstructionOk(f, i) && KnowsZero(m.fpu)
    requires !NegatesUnsigned(f, i)
    ensures GoesWell(m, f, i)
  {
    hide InstructionOk, Evaluate, FrameFits, Good;
    forall fr | FrameFits(m, f, i, fr) ensures Good(Evaluate(m, f, i, fr), RegisterType(f, i.result)) {
      AcceptedIsGood(m, f, i, fr);
    }
    SampleFits(m, f, i);
    AcceptedYields(m, f, i);
  }

  /** Neither exception is both, and each is decided as it says. */
  lemma ExceptionsAreDecided(m: Machine, f: Function, i: Instruction)
    requires InShape(f, i)
    ensures RefusedAnyway(f, i) ==> !InstructionOk(f, i)
    ensures AcceptedAnyway(f, i) ==> InstructionOk(f, i)
    ensures NegatesUnsigned(f, i) && InstructionOk(f, i) ==> AcceptedAnyway(f, i)
  {
  }

  /** The rules are exact: for every instruction of the scalar opcodes in shape, and any machine, it is
      accepted if and only if it goes well and is none of the three that are refused anyway, or is the
      unsigned negation that is accepted anyway. */
  lemma RulesAreExact(m: Machine, f: Function, i: Instruction)
    requires InShape(f, i) && Scalar(i.opcode) && ArgumentsMatch(m, f) && KnowsZero(m.fpu)
    ensures InstructionOk(f, i) <==> (GoesWell(m, f, i) && !RefusedAnyway(f, i)) || AcceptedAnyway(f, i)
  {
    hide InstructionOk, GoesWell, RefusedAnyway, AcceptedAnyway, NegatesUnsigned;
    ExceptionsAreDecided(m, f, i);
    if InstructionOk(f, i) && !NegatesUnsigned(f, i) { AcceptedGoesWell(m, f, i); }
    if GoesWell(m, f, i) { RulesAreComplete(m, f, i); }
  }

  /** A store is accepted exactly when what it stores is always of the local's type. */
  lemma StoresAreExact(m: Machine, f: Function, i: Instruction)
    requires InShape(f, i.(result := 0)) && i.opcode.StoreLocal? && i.result == -1
    ensures InstructionOk(f, i) <==>
            i.index < |f.localTypes| && forall fr :: FrameFits(m, f, i, fr) ==> HasType(Operand(m, fr, i, 0), f.localTypes[i.index])
  {
    SampleFits(m, f, i.(result := 0));
    assert FrameFits(m, f, i, SampleFrame(f));
    assert Operand(m, SampleFrame(f), i, 0) == Operand(m, SampleFrame(f), i.(result := 0), 0);
    SampleHasType(OperandType(f, i, 0));
  }

  // ----- how many operands, and which modes -----

  /** An opcode has as many operands as the interpreter looks at: further ones make no difference. */
  lemma NoMoreOperandsAreRead(m: Machine, f: Function, i: Instruction, fr: Frame)
    requires |i.operands| >= OperandCount(i.opcode)
    ensures Evaluate(m, f, i, fr) == Evaluate(m, f, i.(operands := i.operands[..OperandCount(i.opcode)]), fr)
  {
  }

  /** And without one of them no operation but an equality goes well. */
  lemma NoFewerOperandsDo(m: Machine, f: Function, i: Instruction, fr: Frame)
    requires |i.operands| < OperandCount(i.opcode)
    requires !i.opcode.Equal? && !i.opcode.NotEqual? && !i.opcode.ConvertNumeric?
    ensures Evaluate(m, f, i, fr) == Fails(TypeMismatch) || Evaluate(m, f, i, fr) == Fails(InvalidProgram)
  {
  }

  /** Unchecked mode is refused exactly for the opcodes to which the mode makes no difference. */
  lemma ModeMatters(m: Machine, f: Function, i: Instruction, fr: Frame)
    requires !SupportsArithmeticMode(i.opcode)
    ensures Evaluate(m, f, i.(checkedArithmetic := true), fr) == Evaluate(m, f, i.(checkedArithmetic := false), fr)
  {
  }

  lemma ModeMattersSomewhere(m: Machine, i: Instruction)
    requires i.opcode == Negate(IntCarrier) && i.checkedArithmetic
    ensures IntegerArithmetic(Int, true, Add, INT_MAX, 1) != IntegerArithmetic(Int, false, Add, INT_MAX, 1)
    ensures NegateValue(m, i, Whole(Int, INT_MIN)) != NegateValue(m, i.(checkedArithmetic := false), Whole(Int, INT_MIN))
    ensures ConvertValue(m, Whole(Int, -1), UInt, true) != ConvertValue(m, Whole(Int, -1), UInt, false)
  {
  }

  // ----- what arithmetic gives -----

  /** How many values an integer type has. */
  function SizeOf(t: PrimitiveType): (size: int)
    requires IsIntegral(t)
    ensures size > 0
  {
    match t
    case Byte | SByte => 0x100
    case Short | UShort | Char => 0x1_0000
    case Int | UInt => 0x1_0000_0000
    case _ => 0x1_0000_0000_0000_0000
  }

  /** Wrapping keeps a value modulo the size of the type, and there is only one such value. */
  lemma WrapKeepsResidue(t: PrimitiveType, n: int, r: int)
    requires IsIntegral(t)
    ensures InRange(t, Wrap(t, n)) && (n - Wrap(t, n)) % SizeOf(t) == 0
    ensures InRange(t, r) && (n - r) % SizeOf(t) == 0 ==> r == Wrap(t, n)
  {
    var size := SizeOf(t);
    assert size == High(t) - Low(t) + 1;
    var q := (n - Low(t)) / size;
    assert n - Wrap(t, n) == q * size;
    MultipleHasNoRest(q, size);
    if InRange(t, r) && (n - r) % size == 0 {
      var p := (n - r) / size;
      assert n - r == p * size;
      SmallDifference(p - q, size, Wrap(t, n) - r);
    }
  }

  lemma MultipleHasNoRest(q: int, size: int)
    requires size > 0
    ensures (q * size) % size == 0
  {
    SmallDifference((q * size) / size - q, size, -((q * size) % size));
  }

  lemma SmallDifference(e: int, size: int, d: int)
    requires size > 0 && e * size == d && -size < d < size
    ensures e == 0 && d == 0
  {
    MultipleIsLarge(e, size);
  }

  /** Sum, difference, product, quotient and remainder, of the mathematical kind wherever they fit: an
      overflow fails in checked mode and is taken modulo the size of the type otherwise. */
  lemma ArithmeticGives(t: PrimitiveType, checked: bool, op: Arithmetic, a: int, b: int, exact: int)
    requires IsIntegral(t) && InRange(t, a) && InRange(t, b)
    requires op.Add? ==> a == exact - b
    requires op.Subtract? ==> a == exact + b
    requires op.Multiply? ==> exact == a * b
    requires op.Divide? || op.Remainder? ==> b != 0
    requires op.Divide? ==> Abs(a - exact * b) < Abs(b) && (a == exact * b || (a - exact * b < 0) == (a < 0))
    requires op.Remainder? ==> Abs(exact) < Abs(b) && (exact == 0 || (exact < 0) == (a < 0)) && TruncDiv(a, b) * b == a - exact
    ensures var e := IntegerArithmetic(t, checked, op, a, b);
            if InRange(t, exact) then e == Yields(Whole(t, exact))
            else if checked || op.Divide? then e == Fails(IntegerOverflow)
            else e.Yields? && e.value.Whole? && e.value.ty == t && InRange(t, e.value.n) && (exact - e.value.n) % SizeOf(t) == 0
  {
    hide Wrap, SizeOf, TruncDiv, TruncMod;
    if op.Divide? {
      TruncationIsUnique(a, b, exact, a - exact * b);
      QuotientFits(t, a, b);
    } else if op.Remainder? {
      TruncationIsUnique(a, b, TruncDiv(a, b), exact);
      RemainderFits(t, a, b);
    } else {
      WrapKeepsResidue(t, exact, exact);
    }
  }

  lemma QuotientFits(t: PrimitiveType, a: int, b: int)
    requires IsIntegral(t) && InRange(t, a) && InRange(t, b) && b != 0
    ensures InRange(t, TruncDiv(a, b)) <==> !(Low(t) < 0 && a == Low(t) && b == -1)
  {
    if Low(t) < 0 && a == Low(t) && b == -1 {
      assert Abs(a) / 1 == Abs(a);
    } else {
      QuotientInRange(t, a, b);
    }
  }

  lemma RemainderFits(t: PrimitiveType, a: int, b: int)
    requires IsIntegral(t) && InRange(t, a) && InRange(t, b) && b != 0
    ensures InRange(t, TruncMod(a, b))
    ensures Low(t) < 0 && a == Low(t) && b == -1 ==> TruncMod(a, b) == 0
  {
    if Low(t) < 0 && a == Low(t) && b == -1 {
      assert Abs(a) % 1 == 0;
    } else {
      QuotientInRange(t, a, b);
    }
  }

  // ----- edges and terminators -----

  /** Registers that hold values of their declared types, and nothing else. */
  ghost predicate RegistersFit(f: Function, fr: Frame) {
    forall r :: 0 <= r < |f.registerTypes| ==> r in fr.registers && HasType(fr.registers[r].value, f.registerTypes[r])
  }

  lemma SampleRegistersFit(f: Function)
    requires forall r :: 0 <= r < |f.registerTypes| ==> IsScalar(f.registerTypes[r])
    ensures RegistersFit(f, SampleFrame(f))
    ensures forall r :: 0 <= r < |f.registerTypes| ==> SampleFrame(f).registers[r].value == SampleOf(f.registerTypes[r])
  {
    forall r | 0 <= r < |f.registerTypes| ensures HasType(SampleFrame(f).registers[r].value, f.registerTypes[r]) {
      SampleHasType(f.registerTypes[r]);
    }
  }

  /** An edge is accepted exactly when its target exists and takes as many values as are passed, each of
      them always of its parameter's type. */
  lemma EdgesAreExact(m: Machine, f: Function, target: nat, arguments: seq<int>)
    requires forall r :: 0 <= r < |f.registerTypes| ==> IsScalar(f.registerTypes[r])
    requires forall j :: 0 <= j < |arguments| ==> 0 <= arguments[j] < |f.registerTypes|
    ensures EdgeOk(f, target, arguments) <==>
            var t := BlockIndex(f, target);
            t >= 0 && |arguments| == |f.blocks[t].parameters| &&
            forall fr, j :: RegistersFit(f, fr) && 0 <= j < |arguments| ==>
              HasType(Read(m, fr, arguments[j]), f.blocks[t].parameters[j].ty)
  {
    SampleRegistersFit(f);
    hide SampleFrame;
    var t := BlockIndex(f, target);
    if t >= 0 && |arguments| == |f.blocks[t].parameters| {
      forall j | 0 <= j < |arguments|
        ensures HasType(Read(m, SampleFrame(f), arguments[j]), f.blocks[t].parameters[j].ty) ==>
                RegisterType(f, arguments[j]) == f.blocks[t].parameters[j].ty
      {
        assert Read(m, SampleFrame(f), arguments[j]) == SampleOf(f.registerTypes[arguments[j]]);
      }
    }
  }

  /** A branch is accepted exactly when its edges are and its condition is always a truth value; a return
      exactly when its value is always of the function's type. */
  lemma TerminatorsAreExact(m: Machine, f: Function, t: Mir.Terminator)
    requires forall r :: 0 <= r < |f.registerTypes| ==> IsScalar(f.registerTypes[r])
    requires f.returnType.Void? || IsScalar(f.returnType)
    requires forall u :: 0 <= u < |Mir.TerminatorUses(t)| ==> 0 <= Mir.TerminatorUses(t)[u] < |f.registerTypes|
    ensures t.Branch? ==>
              (TerminatorOk(f, t) <==>
               EdgeOk(f, t.target, t.arguments) && EdgeOk(f, t.falseTarget, t.falseArguments) &&
               forall fr :: RegistersFit(f, fr) ==> Read(m, fr, t.condition).BoolValue?)
    ensures t.ReturnValue? ==> (TerminatorOk(f, t) <==> forall fr :: RegistersFit(f, fr) ==> HasType(Read(m, fr, t.value), f.returnType))
    ensures t.ReturnVoid? ==> (TerminatorOk(f, t) <==> f.returnType.Void?)
    ensures t.Jump? ==> (TerminatorOk(f, t) <==> EdgeOk(f, t.target, t.arguments))
    ensures t.NoTerminator? || t.Throw? ==> !TerminatorOk(f, t)
  {
    hide EdgeOk;
    SampleRegistersFit(f);
    hide SampleFrame;
    if |Mir.TerminatorUses(t)| > 0 {
      var v := Mir.TerminatorUses(t)[0];
      assert Read(m, SampleFrame(f), v) == SampleOf(f.registerTypes[v]);
    }
  }
}
