/** How src/runtime/Interpreter.cpp runs a scalar bytecode function. */
module BytecodeRuns {
  import opened Options
  import opened Scalars
  import opened Bytecode
  import Mir
  import Ssa

  // ----- values -----

  /** runtime::Value: Unset is std::monostate; Whole holds the integral types and Floating the two
      floating types, as bit patterns. */
  datatype Value = Unset | BoolValue(b: bool) | Whole(ty: PrimitiveType, n: int) | Floating(ty: PrimitiveType, bits: nat)

  /** valueType(v) == t, for a scalar t (Interpreter.cpp:2930-2956). */
  predicate HasType(v: Value, t: PrimitiveType) {
    match v
    case Unset => false
    case BoolValue(_) => t.Bool?
    case Whole(ty, _) => ty == t && IsIntegral(t)
    case Floating(ty, _) => ty == t && IsFloating(t)
  }

  function Low(t: PrimitiveType): int
    requires IsIntegral(t)
  {
    match t
    case SByte => -0x80
    case Short => -0x8000
    case Int => INT_MIN
    case Long => LONG_MIN
    case _ => 0
  }

  function High(t: PrimitiveType): int
    requires IsIntegral(t)
  {
    match t
    case Byte => 0xff
    case SByte => 0x7f
    case Short => 0x7fff
    case UShort => 0xffff
    case Char => 0xffff
    case Int => INT_MAX
    case UInt => UINT_MAX
    case Long => LONG_MAX
    case _ => ULONG_MAX
  }

  predicate InRange(t: PrimitiveType, n: int)
    requires IsIntegral(t)
  {
    Low(t) <= n <= High(t)
  }

  /** The value of type t with the low bits of n. */
  function Wrap(t: PrimitiveType, n: int): (r: int)
    requires IsIntegral(t)
    ensures InRange(t, r)
    ensures InRange(t, n) ==> r == n
  {
    Low(t) + (n - Low(t)) % (High(t) - Low(t) + 1)
  }

  // ----- the machine -----

  /** Floating-point arithmetic, taken as given. */
  datatype FloatUnit = FloatUnit(
    arithmetic: (PrimitiveType, Arithmetic, nat, nat) -> nat,
    compare: (PrimitiveType, Comparison, nat, nat) -> bool,
    equal: (PrimitiveType, nat, nat) -> bool,
    negate: (PrimitiveType, nat) -> nat,
    number: (PrimitiveType, nat) -> Maybe<real>,
    fromInteger: (PrimitiveType, int) -> nat,
    resize: (PrimitiveType, PrimitiveType, nat) -> nat)

  /** The arguments, the instruction budget, and what the arena slots of this frame hold before
      the call: with fast accounting they are not cleared (Interpreter.cpp:146-157). */
  datatype Machine = Machine(
    fpu: FloatUnit, args: seq<Value>, budget: nat, staleLocals: seq<Value>, staleRegisters: seq<Value>)

  /** A register of this frame, with the definition that wrote it. */
  datatype Written = Written(value: Value, writer: Ssa.Definition)

  datatype Frame = Frame(registers: map<int, Written>, locals: seq<Value>)

  datatype Result = Returned(value: Value) | Failed(code: ErrorCode)

  datatype State = At(block: nat, index: nat, frame: Frame, executed: nat) | Finished(result: Result)

  function SlotOr<T>(s: seq<T>, k: nat, otherwise: T): T {
    if k < |s| then s[k] else otherwise
  }

  function Read(m: Machine, fr: Frame, r: int): Value {
    if r in fr.registers then fr.registers[r].value
    else if 0 <= r < |m.staleRegisters| then m.staleRegisters[r] else Unset
  }

  function Operand(m: Machine, fr: Frame, i: Instruction, u: nat): Value {
    if u < |i.operands| then Read(m, fr, i.operands[u]) else Unset
  }

  // ----- operations -----

  datatype Evaluation = Yields(value: Value) | Fails(code: ErrorCode)

  predicate Holds(test: Comparison, a: int, b: int) {
    match test
    case Less => a < b
    case LessOrEqual => a <= b
    case Greater => a > b
    case GreaterOrEqual => a >= b
  }

  /** Integer arithmetic of one type (Interpreter.cpp:2083-2116, 2126-2201, 2244-2302). */
  function IntegerArithmetic(t: PrimitiveType, checked: bool, op: Arithmetic, a: int, b: int): Evaluation
    requires IsIntegral(t)
  {
    match op
    case Divide =>
      if b == 0 then Fails(DivisionByZero)
      else if Low(t) < 0 && a == Low(t) && b == -1 then Fails(IntegerOverflow)
      else Yields(Whole(t, TruncDiv(a, b)))
    case Remainder =>
      if b == 0 then Fails(DivisionByZero)
      else if Low(t) < 0 && a == Low(t) && b == -1 then Yields(Whole(t, 0))
      else Yields(Whole(t, TruncMod(a, b)))
    case _ =>
      var n := if op.Add? then a + b else if op.Subtract? then a - b else a * b;
      if !checked then Yields(Whole(t, Wrap(t, n)))
      else if InRange(t, n) then Yields(Whole(t, n)) else Fails(IntegerOverflow)
  }

  /** The type a binary operation works at: decided by the register table, else by the left value. */
  function WorkingType(f: Function, i: Instruction, c: Carrier, left: Value): PrimitiveType {
    match c
    case IntCarrier =>
      if OperandType(f, i, 0).Int? && OperandType(f, i, 1).Int? then Int
      else if HasType(left, UInt) then UInt else Int
    case LongCarrier => if HasType(left, ULong) then ULong else Long
    case FloatCarrier => if HasType(left, Float) then Float else Double
  }

  function ComputeValue(m: Machine, f: Function, i: Instruction, left: Value, right: Value): Evaluation
    requires i.opcode.Compute?
  {
    var t := WorkingType(f, i, i.opcode.carrier, left);
    if !HasType(left, t) || !HasType(right, t) then Fails(TypeMismatch)
    else if left.Floating? then Yields(Floating(t, m.fpu.arithmetic(t, i.opcode.op, left.bits, right.bits)))
    else IntegerArithmetic(t, i.checkedArithmetic, i.opcode.op, left.n, right.n)
  }

  function CompareValues(m: Machine, f: Function, i: Instruction, left: Value, right: Value): Evaluation
    requires i.opcode.Compare?
  {
    var t := WorkingType(f, i, i.opcode.carrier, left);
    if !HasType(left, t) || !HasType(right, t) then Fails(TypeMismatch)
    else if left.Floating? then Yields(BoolValue(m.fpu.compare(t, i.opcode.test, left.bits, right.bits)))
    else Yields(BoolValue(Holds(i.opcode.test, left.n, right.n)))
  }

  /** valuesEqual on scalars (Interpreter.cpp:542-565). */
  predicate SameValue(m: Machine, left: Value, right: Value) {
    if left.Floating? && right.Floating? && left.ty == right.ty then m.fpu.equal(left.ty, left.bits, right.bits)
    else left == right
  }

  /** Negation knows the signed types only (Interpreter.cpp:2012-2037). */
  function NegateValue(m: Machine, i: Instruction, x: Value): Evaluation
    requires i.opcode.Negate?
  {
    if i.opcode.carrier.FloatCarrier? then
      if HasType(x, Float) || HasType(x, Double) then Yields(Floating(x.ty, m.fpu.negate(x.ty, x.bits)))
      else Fails(TypeMismatch)
    else
      var t := if i.opcode.carrier.IntCarrier? then Int else Long;
      if !HasType(x, t) then Fails(TypeMismatch)
      else if !i.checkedArithmetic && x.n == Low(t) then Yields(x)
      else if InRange(t, -x.n) then Yields(Whole(t, -x.n)) else Fails(IntegerOverflow)
  }

  function Truncate(x: real): int {
    if x >= 0.0 then x.Floor else -((-x).Floor)
  }

  /** std::numeric_limits<float>::max(). */
  const FLOAT_MAX: real := 340282346638528859811704183484516925440.0

  /** tryConvertNumeric (Interpreter.cpp:2772-2928). */
  function ConvertValue(m: Machine, x: Value, target: PrimitiveType, checked: bool): Evaluation {
    if x.Whole? && IsIntegral(x.ty) then
      if IsIntegral(target) then
        if !checked then Yields(Whole(target, Wrap(target, x.n)))
        else if InRange(target, x.n) then Yields(Whole(target, x.n)) else Fails(IntegerOverflow)
      else if IsFloating(target) then Yields(Floating(target, m.fpu.fromInteger(target, x.n)))
      else Fails(IntegerOverflow)
    else if x.Floating? && IsFloating(x.ty) then
      var number := m.fpu.number(x.ty, x.bits);
      if IsIntegral(target) then
        if !checked then Yields(Whole(target, Wrap(target, if number.Some? then Truncate(number.value) else 0)))
        else if number.Some? && Low(target) as real <= number.value <= High(target) as real
        then Yields(Whole(target, Truncate(number.value)))
        else Fails(IntegerOverflow)
      else if IsFloating(target) then
        if checked && target.Float? && !(number.Some? && -FLOAT_MAX <= number.value <= FLOAT_MAX)
        then Fails(IntegerOverflow)
        else Yields(Floating(target, m.fpu.resize(x.ty, target, x.bits)))
      else Fails(IntegerOverflow)
    else Fails(IntegerOverflow)
  }

  /** A widening conversion insists on the type of its operand (Interpreter.cpp:1279-1296). */
  function WidenValue(m: Machine, x: Value, from: PrimitiveType, to: PrimitiveType): Evaluation {
    if !HasType(x, from) || !x.Whole? then Fails(TypeMismatch)
    else if to.Long? then Yields(Whole(Long, x.n)) else Yields(Floating(Double, m.fpu.fromInteger(Double, x.n)))
  }

  /** What a value-defining instruction computes (Interpreter.cpp:1206-1318, 2006-2305).  The verifier
      rules out the indices that would be out of bounds there. */
  function Evaluate(m: Machine, f: Function, i: Instruction, fr: Frame): Evaluation {
    var x, y := Operand(m, fr, i, 0), Operand(m, fr, i, 1);
    match i.opcode
    case LoadParameter => if i.index < |m.args| then Yields(m.args[i.index]) else Fails(InvalidProgram)
    case ConstantInt => Yields(Whole(if RegisterType(f, i.result).Long? then Long else Int, i.integerImmediate))
    case ConstantDouble => Yields(Floating(Double, i.doubleImmediate))
    case ConstantBool => Yields(BoolValue(i.boolImmediate))
    case LoadLocal => if i.index < |fr.locals| then Yields(fr.locals[i.index]) else Fails(InvalidProgram)
    case ConvertIntToLong => WidenValue(m, x, Int, Long)
    case ConvertIntToDouble => WidenValue(m, x, Int, Double)
    case ConvertLongToDouble => WidenValue(m, x, Long, Double)
    case ConvertNumeric => ConvertValue(m, x, RegisterType(f, i.result), i.checkedArithmetic)
    case LogicalNot => if x.BoolValue? then Yields(BoolValue(!x.b)) else Fails(TypeMismatch)
    case Negate(_) => NegateValue(m, i, x)
    case Compute(_, _) => ComputeValue(m, f, i, x, y)
    case Compare(_, _) => CompareValues(m, f, i, x, y)
    case Equal => Yields(BoolValue(SameValue(m, x, y)))
    case NotEqual => Yields(BoolValue(!SameValue(m, x, y)))
    case StoreLocal => Fails(InvalidProgram)
    case OtherOpcode => Fails(InvalidProgram)
  }

  // ----- steps -----

  predicate InBounds(f: Function, s: State) {
    s.At? ==> s.block < |f.blocks| && s.index <= |f.blocks[s.block].instructions|
  }

  /** The instruction about to run, in a state that stands before one. */
  predicate BeforeInstruction(m: Machine, f: Function, s: State) {
    s.At? && InBounds(f, s) && s.executed < m.budget && s.index < |f.blocks[s.block].instructions|
  }

  function Current(m: Machine, f: Function, s: State): Instruction
    requires BeforeInstruction(m, f, s)
  {
    f.blocks[s.block].instructions[s.index]
  }

  function AfterInstruction(m: Machine, f: Function, s: State): (t: State)
    requires BeforeInstruction(m, f, s)
    ensures InBounds(f, t)
  {
    var i := Current(m, f, s);
    var next := s.(index := s.index + 1, executed := s.executed + 1);
    if i.opcode.StoreLocal? then
      if i.index < |s.frame.locals|
      then next.(frame := s.frame.(locals := s.frame.locals[i.index := Operand(m, s.frame, i, 0)]))
      else Finished(Failed(InvalidProgram))
    else
      match Evaluate(m, f, i, s.frame)
      case Fails(code) => Finished(Failed(code))
      case Yields(value) =>
        var writer := Ssa.Definition(f.blocks[s.block].id, s.index, RegisterType(f, i.result));
        next.(frame := s.frame.(registers := s.frame.registers[i.result := Written(value, writer)]))
  }

  /** Edge arguments go through the scratch window: all are read before any is written
      (Interpreter.cpp:2575-2590). */
  function Saved(m: Machine, fr: Frame, arguments: seq<int>): (saved: seq<Value>)
    ensures |saved| == |arguments|
  {
    seq(|arguments|, j requires 0 <= j < |arguments| => Read(m, fr, arguments[j]))
  }

  function Assign(registers: map<int, Written>, b: BasicBlock, saved: seq<Value>, n: nat): map<int, Written>
    requires n <= |b.parameters| && n <= |saved|
  {
    if n == 0 then registers
    else
      var p := b.parameters[n - 1];
      Assign(registers, b, saved, n - 1)[p.value := Written(saved[n - 1], Ssa.Definition(b.id, -1, p.ty))]
  }

  function Take(m: Machine, f: Function, s: State, target: nat, arguments: seq<int>): (t: State)
    requires s.At?
    ensures InBounds(f, t)
  {
    var b := BlockIndex(f, target);
    if b < 0 || |arguments| != |f.blocks[b].parameters| then Finished(Failed(InvalidProgram))
    else
      var registers := Assign(s.frame.registers, f.blocks[b], Saved(m, s.frame, arguments), |arguments|);
      At(b, 0, s.frame.(registers := registers), s.executed + 1)
  }

  function AfterTerminator(m: Machine, f: Function, s: State): (t: State)
    requires s.At? && s.block < |f.blocks|
    ensures InBounds(f, t)
  {
    match f.blocks[s.block].terminator
    case Jump(target, arguments) => Take(m, f, s, target, arguments)
    case Branch(condition, target, arguments, falseTarget, falseArguments) =>
      var c := Read(m, s.frame, condition);
      if !c.BoolValue? then Finished(Failed(TypeMismatch))
      else if c.b then Take(m, f, s, target, arguments)
      else Take(m, f, s, falseTarget, falseArguments)
    case ReturnValue(value) =>
      var v := Read(m, s.frame, value);
      if HasType(v, f.returnType) then Finished(Returned(v)) else Finished(Failed(TypeMismatch))
    case ReturnVoid => Finished(Returned(Unset))
    case _ => Finished(Failed(InvalidProgram))
  }

  function Step(m: Machine, f: Function, s: State): (t: State)
    requires InBounds(f, s)
    ensures InBounds(f, t)
  {
    if s.Finished? then s
    else if s.executed >= m.budget then Finished(Failed(InstructionBudgetExceeded))
    else if BeforeInstruction(m, f, s) then AfterInstruction(m, f, s)
    else AfterTerminator(m, f, s)
  }

  predicate ArgumentsMatch(m: Machine, f: Function) {
    |m.args| == |f.parameterTypes| && forall p | 0 <= p < |m.args| :: HasType(m.args[p], f.parameterTypes[p])
  }

  /** Entry checks the arguments, then the frame is whatever the arena holds. */
  function Start(m: Machine, f: Function): (s: State)
    ensures InBounds(f, s)
  {
    var entry := BlockIndex(f, 0);
    if entry < 0 then Finished(Failed(InvalidProgram))
    else if |m.args| != |f.parameterTypes| then Finished(Failed(InvalidArguments))
    else if !ArgumentsMatch(m, f) then Finished(Failed(TypeMismatch))
    else At(entry, 0, Frame(map[], seq(|f.localTypes|, k requires 0 <= k => SlotOr(m.staleLocals, k, Unset))), 0)
  }

  /** The state after n steps of a call. */
  function After(m: Machine, f: Function, n: nat): (s: State)
    ensures InBounds(f, s)
  {
    if n == 0 then Start(m, f) else Step(m, f, After(m, f, n - 1))
  }
}
