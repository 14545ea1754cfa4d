/** What the two lowerings of src/aot_cpp/AotCpp.cpp mean: the generic one, in which every
    operation is a checked call into ExecutionContext, and the typed one, in which registers
    are C++ variables, proven checks are gone and budget charges may be batched. */
module AotSemantics {
  import opened Scalars
  import opened Mir

  datatype Value = Unit | BoolValue(b: bool) | IntValue(n: int)

  datatype Frame = Frame(locals: seq<Value>, registers: seq<Value>)

  datatype StepResult = Next(frame: Frame) | Fault(code: ErrorCode)

  datatype Exit = Goto(block: nat, frame: Frame) | Return(value: Value) | Abort(code: ErrorCode)

  datatype Result = Returned(value: Value) | Failed(code: ErrorCode)

  /** What a caller sees: the result, and how many instructions were charged. */
  datatype Outcome = Outcome(result: Result, executed: nat)

  /** Trapping is the generic lowering except that INT_MIN % -1 overflows. */
  datatype Lowering = Generic | Trapping | Typed(safe: set<ValueId>)

  function Register(fr: Frame, v: ValueId): Value {
    if 0 <= v < |fr.registers| then fr.registers[v] else Unit
  }

  function SetRegister(fr: Frame, v: ValueId, value: Value): Frame {
    if 0 <= v < |fr.registers| then fr.(registers := fr.registers[v := value]) else fr
  }

  function Local(fr: Frame, slot: nat): Value {
    if slot < |fr.locals| then fr.locals[slot] else Unit
  }

  function SetLocal(fr: Frame, slot: nat, value: Value): Frame {
    if slot < |fr.locals| then fr.(locals := fr.locals[slot := value]) else fr
  }

  function Operand(i: Instruction, fr: Frame, index: nat): Value {
    if index < |i.operands| then Register(fr, i.operands[index]) else Unit
  }

  function Put(i: Instruction, fr: Frame, value: Value): StepResult {
    Next(SetRegister(fr, i.result, value))
  }

  /** checkedIntResult in AotRuntime.cpp:26-41. */
  function PutChecked(i: Instruction, fr: Frame, n: int): StepResult {
    if InInt32(n) then Put(i, fr, IntValue(n)) else Fault(IntegerOverflow)
  }

  function Compare(op: Opcode, a: int, b: int): bool
    requires IsComparison(op)
  {
    match op
    case LessInt => a < b
    case LessOrEqualInt => a <= b
    case GreaterInt => a > b
    case GreaterOrEqualInt => a >= b
  }

  function Compute(op: Opcode, a: int, b: int): int
    requires op.AddInt? || op.SubtractInt? || op.MultiplyInt?
  {
    match op
    case AddInt => a + b
    case SubtractInt => a - b
    case MultiplyInt => a * b
  }

  // ----- the generic lowering -----

  /** ExecutionContext::unary and ::binary on Int and Bool values, with the parameter, constant
      and local operations around them (AotRuntime.cpp:1726-1780, 1787-2041; AotCpp.cpp:1720-1790). */
  function GenericExec(trap: bool, i: Instruction, args: seq<Value>, fr: Frame): StepResult {
    var left, right := Operand(i, fr, 0), Operand(i, fr, 1);
    match i.opcode
    case Parameter =>
      if 0 <= i.integerImmediate < |args| then Put(i, fr, args[i.integerImmediate]) else Fault(InvalidArguments)
    case ConstantInt => Put(i, fr, IntValue(i.integerImmediate))
    case ConstantBool => Put(i, fr, BoolValue(i.boolImmediate))
    case LoadLocal => Put(i, fr, Local(fr, i.localIndex))
    case StoreLocal => Next(SetLocal(fr, i.localIndex, left))
    case NegateInt =>
      if !left.IntValue? then Fault(TypeMismatch)
      else if !i.checkedArithmetic && left.n == INT_MIN then Put(i, fr, left)
      else PutChecked(i, fr, -left.n)
    case LogicalNot => if left.BoolValue? then Put(i, fr, BoolValue(!left.b)) else Fault(TypeMismatch)
    case Equal => Put(i, fr, BoolValue(left == right))
    case NotEqual => Put(i, fr, BoolValue(left != right))
    case OtherOpcode => Fault(InvalidProgram)
    case LessInt | LessOrEqualInt | GreaterInt | GreaterOrEqualInt =>
      if !left.IntValue? || !right.IntValue? then Fault(TypeMismatch)
      else Put(i, fr, BoolValue(Compare(i.opcode, left.n, right.n)))
    case DivideInt =>
      if !left.IntValue? || !right.IntValue? then Fault(TypeMismatch)
      else if right.n == 0 then Fault(DivisionByZero)
      else if left.n == INT_MIN && right.n == -1 then Fault(IntegerOverflow)
      else Put(i, fr, IntValue(TruncDiv(left.n, right.n)))
    case RemainderInt =>
      if !left.IntValue? || !right.IntValue? then Fault(TypeMismatch)
      else if right.n == 0 then Fault(DivisionByZero)
      else if left.n == INT_MIN && right.n == -1 then
        if trap then Fault(IntegerOverflow) else Put(i, fr, IntValue(0))
      else Put(i, fr, IntValue(TruncMod(left.n, right.n)))
    case AddInt | SubtractInt | MultiplyInt =>
      if !left.IntValue? || !right.IntValue? then Fault(TypeMismatch)
      else if !i.checkedArithmetic then Put(i, fr, IntValue(WrapInt32(Compute(i.opcode, left.n, right.n))))
      else PutChecked(i, fr, Compute(i.opcode, left.n, right.n))
  }

  // ----- the typed lowering -----

  /** Reading a typed register as an int64, with C++'s conversion from bool. */
  function AsInt(v: Value): int {
    match v
    case IntValue(n) => n
    case BoolValue(b) => if b then 1 else 0
    case Unit => 0
  }

  function AsBool(v: Value): bool { AsInt(v) != 0 }

  function TypeDefault(t: PrimitiveType): Value {
    if t.Bool? then BoolValue(false) else IntValue(0)
  }

  predicate ProvenSafe(safe: set<ValueId>, i: Instruction) {
    i.result >= 0 && i.result in safe
  }

  /** The statements emitted for one instruction (AotCpp.cpp:983-1104). */
  function TypedExec(safe: set<ValueId>, i: Instruction, args: seq<Value>, fr: Frame): StepResult {
    var left, right := AsInt(Operand(i, fr, 0)), AsInt(Operand(i, fr, 1));
    match i.opcode
    case Parameter =>
      if !(0 <= i.integerImmediate < |args|) then Fault(InvalidArguments)
      else
        var argument := args[i.integerImmediate];
        if (if i.resultType.Bool? then argument.BoolValue? else argument.IntValue?) then Put(i, fr, argument)
        else Fault(TypeMismatch)
    case ConstantInt => Put(i, fr, IntValue(i.integerImmediate))
    case ConstantBool => Put(i, fr, BoolValue(i.boolImmediate))
    case LoadLocal => Put(i, fr, Local(fr, i.localIndex))
    case StoreLocal => Next(SetLocal(fr, i.localIndex, Operand(i, fr, 0)))
    case NegateInt =>
      if !ProvenSafe(safe, i) && left == INT_MIN then Fault(IntegerOverflow)
      else Put(i, fr, IntValue(-left))
    case LogicalNot => Put(i, fr, BoolValue(!AsBool(Operand(i, fr, 0))))
    case Equal => Put(i, fr, BoolValue(left == right))
    case NotEqual => Put(i, fr, BoolValue(left != right))
    case OtherOpcode => Next(fr)
    case LessInt | LessOrEqualInt | GreaterInt | GreaterOrEqualInt =>
      Put(i, fr, BoolValue(Compare(i.opcode, left, right)))
    case DivideInt =>
      if right == 0 then Fault(DivisionByZero)
      else if left == INT_MIN && right == -1 then Fault(IntegerOverflow)
      else Put(i, fr, IntValue(TruncDiv(left, right)))
    case RemainderInt =>
      if right == 0 then Fault(DivisionByZero)
      else if left == INT_MIN && right == -1 then Fault(IntegerOverflow)
      else Put(i, fr, IntValue(TruncMod(left, right)))
    case AddInt | SubtractInt | MultiplyInt =>
      var n := Compute(i.opcode, left, right);
      if !ProvenSafe(safe, i) && !InInt32(n) then Fault(IntegerOverflow) else Put(i, fr, IntValue(n))
  }

  function Exec(l: Lowering, i: Instruction, args: seq<Value>, fr: Frame): StepResult {
    match l
    case Generic => GenericExec(false, i, args, fr)
    case Trapping => GenericExec(true, i, args, fr)
    case Typed(safe) => TypedExec(safe, i, args, fr)
  }

  // ----- edges -----

  /** The second phase of an edge: assign the saved values one after the other. */
  function AssignSaved(fr: Frame, parameters: seq<BlockParameter>, saved: seq<Value>, n: nat): Frame
    requires n <= |parameters| && n <= |saved|
  {
    if n == 0 then fr
    else SetRegister(AssignSaved(fr, parameters, saved, n - 1), parameters[n - 1].value, saved[n - 1])
  }

  /** Edge arguments are all read before any parameter is written (AotCpp.cpp:799-820, 1191-1212). */
  function Transfer(fr: Frame, parameters: seq<BlockParameter>, arguments: seq<ValueId>): Frame {
    var n := if |arguments| < |parameters| then |arguments| else |parameters|;
    AssignSaved(fr, parameters, seq(n, j requires 0 <= j < n => Register(fr, arguments[j])), n)
  }

  /** An edge is one parallel assignment: with distinct parameters, each ends with the value its
      argument had before the edge, even when parameters are among the arguments. */
  lemma {:induction false} TransferIsParallel(
    fr: Frame, parameters: seq<BlockParameter>, saved: seq<Value>, n: nat, v: ValueId)
    requires n <= |parameters| && n <= |saved|
    requires forall i, j :: 0 <= i < j < n ==> parameters[i].value != parameters[j].value
    ensures |AssignSaved(fr, parameters, saved, n).registers| == |fr.registers|
    ensures AssignSaved(fr, parameters, saved, n).locals == fr.locals
    ensures forall j :: 0 <= j < n && parameters[j].value == v && 0 <= v < |fr.registers|
              ==> Register(AssignSaved(fr, parameters, saved, n), v) == saved[j]
    ensures (forall j :: 0 <= j < n ==> parameters[j].value != v)
              ==> Register(AssignSaved(fr, parameters, saved, n), v) == Register(fr, v)
  {
    if n > 0 { TransferIsParallel(fr, parameters, saved, n - 1, v); }
  }

  function Take(f: Function, fr: Frame, target: nat, arguments: seq<ValueId>): Exit {
    var t := BlockIndex(f, target);
    if t < 0 then Abort(InvalidProgram) else Goto(t, Transfer(fr, f.blocks[t].parameters, arguments))
  }

  function Leave(l: Lowering, f: Function, t: Terminator, fr: Frame): Exit {
    match t
    case Jump(target, arguments) => Take(f, fr, target, arguments)
    case Branch(condition, target, arguments, falseTarget, falseArguments) =>
      var c := Register(fr, condition);
      if !l.Typed? && !c.BoolValue? then Abort(TypeMismatch)
      else if AsBool(c) then Take(f, fr, target, arguments)
      else Take(f, fr, falseTarget, falseArguments)
    case ReturnValue(value) =>
      var v := Register(fr, value);
      Return(if !l.Typed? then v else if f.returnType.Bool? then BoolValue(AsBool(v)) else IntValue(AsInt(v)))
    case ReturnVoid => Return(Unit)
    case _ => Abort(InvalidProgram)
  }

  // ----- runs -----

  /** A run from instruction k of block b, charging each instruction and terminator before it
      runs (ExecutionContext::consume, AotRuntime.cpp:290-298). */
  function Run(
    l: Lowering, f: Function, args: seq<Value>, budget: nat, b: nat, k: nat, fr: Frame, executed: nat): Outcome
    requires b < |f.blocks| && k <= |f.blocks[b].instructions|
    decreases budget - executed
  {
    if executed >= budget then Outcome(Failed(InstructionBudgetExceeded), executed)
    else if k < |f.blocks[b].instructions| then
      match Exec(l, f.blocks[b].instructions[k], args, fr)
      case Fault(code) => Outcome(Failed(code), executed + 1)
      case Next(after) => Run(l, f, args, budget, b, k + 1, after, executed + 1)
    else
      match Leave(l, f, f.blocks[b].terminator, fr)
      case Abort(code) => Outcome(Failed(code), executed + 1)
      case Return(value) => Outcome(Returned(value), executed + 1)
      case Goto(t, after) => Run(l, f, args, budget, t, 0, after, executed + 1)
  }

  function DefaultLocals(f: Function): seq<Value> {
    seq(|f.localTypes|, s requires 0 <= s < |f.localTypes| => TypeDefault(f.localTypes[s]))
  }

  function EntryFrame(l: Lowering, f: Function): Frame {
    var n := RegisterCount(f);
    Frame(DefaultLocals(f), seq(n, r => if l.Typed? then TypeDefault(TypeOf(f, r)) else Unit))
  }

  /** Calling the function, with what other code has already charged. */
  function Call(l: Lowering, f: Function, args: seq<Value>, budget: nat, executed: nat): Outcome {
    var entry := BlockIndex(f, 0);
    if entry < 0 then Outcome(Failed(InvalidProgram), executed)
    else Run(l, f, args, budget, entry, 0, EntryFrame(l, f), executed)
  }

  // ----- the one place the lowerings part -----

  predicate IsMinRemainder(i: Instruction, fr: Frame) {
    i.opcode.RemainderInt? && Operand(i, fr, 0) == IntValue(INT_MIN) && Operand(i, fr, 1) == IntValue(-1)
  }

  /** The generic run comes to INT_MIN % -1. */
  predicate MeetsMinRemainder(
    f: Function, args: seq<Value>, budget: nat, b: nat, k: nat, fr: Frame, executed: nat)
    requires b < |f.blocks| && k <= |f.blocks[b].instructions|
    decreases budget - executed
  {
    executed < budget &&
    if k < |f.blocks[b].instructions| then
      var i := f.blocks[b].instructions[k];
      IsMinRemainder(i, fr) ||
      match Exec(Generic, i, args, fr)
      case Fault(_) => false
      case Next(after) => MeetsMinRemainder(f, args, budget, b, k + 1, after, executed + 1)
    else
      match Leave(Generic, f, f.blocks[b].terminator, fr)
      case Goto(t, after) => MeetsMinRemainder(f, args, budget, t, 0, after, executed + 1)
      case _ => false
  }

  lemma {:induction false} RunCharges(
    l: Lowering, f: Function, args: seq<Value>, budget: nat, b: nat, k: nat, fr: Frame, executed: nat)
    requires b < |f.blocks| && k <= |f.blocks[b].instructions|
    ensures var o := Run(l, f, args, budget, b, k, fr, executed);
            o.executed >= executed &&
            (o.executed == executed ==> o.result == Failed(InstructionBudgetExceeded)) &&
            o.executed <= if executed > budget then executed else budget
    decreases budget - executed
  {
    if executed < budget {
      if k < |f.blocks[b].instructions| {
        match Exec(l, f.blocks[b].instructions[k], args, fr)
        case Fault(_) =>
        case Next(after) => RunCharges(l, f, args, budget, b, k + 1, after, executed + 1);
      } else {
        match Leave(l, f, f.blocks[b].terminator, fr)
        case Goto(t, after) => RunCharges(l, f, args, budget, t, 0, after, executed + 1);
        case _ =>
      }
    }
  }

  /** A run that ends by itself after some number of charges ends so under every budget of at least that
      many, and under a smaller one stops with a budget fault when it is used up. */
  lemma {:induction false} BudgetIsExact(
    l: Lowering, f: Function, args: seq<Value>, budget: nat, other: nat, b: nat, k: nat, fr: Frame, executed: nat)
    requires b < |f.blocks| && k <= |f.blocks[b].instructions|
    requires Run(l, f, args, budget, b, k, fr, executed).result != Failed(InstructionBudgetExceeded)
    ensures var o := Run(l, f, args, budget, b, k, fr, executed);
            && (other >= o.executed ==> Run(l, f, args, other, b, k, fr, executed) == o)
            && (executed <= other < o.executed ==>
                  Run(l, f, args, other, b, k, fr, executed) == Outcome(Failed(InstructionBudgetExceeded), other))
    decreases budget - executed
  {
    RunCharges(l, f, args, budget, b, k, fr, executed);
    hide Exec, Leave;
    if executed < other {
      if k < |f.blocks[b].instructions| {
        match Exec(l, f.blocks[b].instructions[k], args, fr)
        case Fault(_) =>
        case Next(after) => BudgetIsExact(l, f, args, budget, other, b, k + 1, after, executed + 1);
      } else {
        match Leave(l, f, f.blocks[b].terminator, fr)
        case Goto(t, after) => BudgetIsExact(l, f, args, budget, other, t, 0, after, executed + 1);
        case _ =>
      }
    }
  }

  /** The trapping run equals the generic run exactly when INT_MIN % -1 is not met; when it is
      met the trapping run ends there with an overflow. */
  lemma {:induction false} TrappingIsGeneric(
    f: Function, args: seq<Value>, budget: nat, b: nat, k: nat, fr: Frame, executed: nat)
    requires b < |f.blocks| && k <= |f.blocks[b].instructions|
    ensures Run(Trapping, f, args, budget, b, k, fr, executed) == Run(Generic, f, args, budget, b, k, fr, executed)
            <==> !MeetsMinRemainder(f, args, budget, b, k, fr, executed)
    ensures MeetsMinRemainder(f, args, budget, b, k, fr, executed)
            ==> Run(Trapping, f, args, budget, b, k, fr, executed).result == Failed(IntegerOverflow)
    decreases budget - executed
  {
    if executed < budget {
      if k < |f.blocks[b].instructions| {
        var i := f.blocks[b].instructions[k];
        if IsMinRemainder(i, fr) {
          assert Exec(Trapping, i, args, fr) == Fault(IntegerOverflow);
          var after := SetRegister(fr, i.result, IntValue(0));
          assert Exec(Generic, i, args, fr) == Next(after);
          RunCharges(Generic, f, args, budget, b, k + 1, after, executed + 1);
        } else {
          assert Exec(Trapping, i, args, fr) == Exec(Generic, i, args, fr);
          match Exec(Generic, i, args, fr)
          case Fault(_) =>
          case Next(after) => TrappingIsGeneric(f, args, budget, b, k + 1, after, executed + 1);
        }
      } else {
        match Leave(Generic, f, f.blocks[b].terminator, fr)
        case Goto(t, after) => TrappingIsGeneric(f, args, budget, t, 0, after, executed + 1);
        case _ =>
      }
    }
  }
}
