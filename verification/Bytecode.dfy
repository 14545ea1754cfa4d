/** Bytecode functions (include/realscript/bytecode/Bytecode.h) over the scalar types, and what
    src/bytecode/BytecodeVerifier.cpp checks of one. */
module Bytecode {
  import opened Scalars
  import Mir
  import Ssa

  datatype Arithmetic = Add | Subtract | Multiply | Divide | Remainder

  datatype Comparison = Less | LessOrEqual | Greater | GreaterOrEqual

  /** The instruction set has one copy of its arithmetic for each of these, named Int, Long and
      Double; each serves two types. */
  datatype Carrier = IntCarrier | LongCarrier | FloatCarrier

  datatype Opcode =
    | LoadParameter | ConstantInt | ConstantDouble | ConstantBool | LoadLocal | StoreLocal
    | ConvertIntToLong | ConvertIntToDouble | ConvertLongToDouble | ConvertNumeric
    | LogicalNot | Negate(carrier: Carrier)
    | Compute(carrier: Carrier, op: Arithmetic) | Compare(carrier: Carrier, test: Comparison)
    | Equal | NotEqual | OtherOpcode

  /** A result of -1 stands for InvalidRegister; a double immediate is its bit pattern. */
  datatype Instruction = Instruction(
    opcode: Opcode, result: int, operands: seq<int>, index: nat,
    integerImmediate: int, doubleImmediate: nat, boolImmediate: bool, checkedArithmetic: bool)

  datatype BasicBlock = BasicBlock(
    id: nat, parameters: seq<Mir.BlockParameter>, instructions: seq<Instruction>, terminator: Mir.Terminator)

  datatype Function = Function(
    returnType: PrimitiveType, parameterTypes: seq<PrimitiveType>, localTypes: seq<PrimitiveType>,
    registerTypes: seq<PrimitiveType>, blocks: seq<BasicBlock>)

  predicate IsIntegral(t: PrimitiveType) {
    t.Byte? || t.SByte? || t.Short? || t.UShort? || t.Int? || t.UInt? || t.Long? || t.ULong? || t.Char?
  }

  predicate IsFloating(t: PrimitiveType) { t.Float? || t.Double? }

  predicate IsNumeric(t: PrimitiveType) { IsIntegral(t) || IsFloating(t) }

  predicate IsScalar(t: PrimitiveType) { t.Bool? || IsNumeric(t) }

  predicate Carries(c: Carrier, t: PrimitiveType) {
    match c
    case IntCarrier => t.Int? || t.UInt?
    case LongCarrier => t.Long? || t.ULong?
    case FloatCarrier => IsFloating(t)
  }

  // ----- what the shared checks look at -----

  function RegisterType(f: Function, r: int): PrimitiveType {
    if 0 <= r < |f.registerTypes| then f.registerTypes[r] else ErrorType
  }

  function StepOf(f: Function, i: Instruction): Ssa.Step {
    Ssa.Step(!i.opcode.StoreLocal?, Ssa.Register(i.result, RegisterType(f, i.result)), i.operands)
  }

  function ViewBlock(f: Function, b: BasicBlock): Ssa.Block {
    Ssa.Block(
      b.id,
      seq(|b.parameters|, j requires 0 <= j < |b.parameters| =>
            Ssa.Register(b.parameters[j].value, b.parameters[j].ty)),
      seq(|b.instructions|, k requires 0 <= k < |b.instructions| => StepOf(f, b.instructions[k])),
      Mir.TerminatorUses(b.terminator),
      Mir.EdgesOf(b.terminator))
  }

  function View(f: Function): seq<Ssa.Block> {
    seq(|f.blocks|, i requires 0 <= i < |f.blocks| => ViewBlock(f, f.blocks[i]))
  }

  function BlockIndex(f: Function, id: nat): (i: int)
    ensures -1 <= i < |f.blocks|
    ensures i >= 0 ==> f.blocks[i].id == id
  {
    Ssa.IndexOf(View(f), id)
  }

  // ----- the typing rules -----

  function OperandCount(op: Opcode): nat {
    match op
    case LoadParameter | ConstantInt | ConstantDouble | ConstantBool | LoadLocal => 0
    case Compute(_, _) | Compare(_, _) | Equal | NotEqual | OtherOpcode => 2
    case _ => 1
  }

  predicate SupportsArithmeticMode(op: Opcode) {
    op.ConvertNumeric? || op.Negate? || op.Compute?
  }

  /** BytecodeVerifier.cpp:1012-1135, 1570-1686, for operands x and y and result type r. */
  predicate TypesOk(f: Function, i: Instruction, x: PrimitiveType, y: PrimitiveType, r: PrimitiveType) {
    match i.opcode
    case LoadParameter => i.index < |f.parameterTypes| && r == f.parameterTypes[i.index]
    case ConstantInt => r.Int? || r.Long? || r.Enum?
    case ConstantDouble => r.Double?
    case ConstantBool => r.Bool?
    case LoadLocal => i.index < |f.localTypes| && r == f.localTypes[i.index]
    case StoreLocal => i.index < |f.localTypes| && x == f.localTypes[i.index]
    case ConvertIntToLong => x.Int? && r.Long?
    case ConvertIntToDouble => x.Int? && r.Double?
    case ConvertLongToDouble => x.Long? && r.Double?
    case ConvertNumeric => IsNumeric(x) && IsNumeric(r) && x != r
    case LogicalNot => x.Bool? && r.Bool?
    case Negate(carrier) => Carries(carrier, x) && r == x
    case Compute(carrier, op) =>
      Carries(carrier, r) && x == r && y == r && !(carrier.FloatCarrier? && op.Remainder?)
    case Compare(carrier, _) => Carries(carrier, x) && y == x && r.Bool?
    case Equal => x == y && r.Bool?
    case NotEqual => x == y && r.Bool?
    case OtherOpcode => false
  }

  function OperandType(f: Function, i: Instruction, u: nat): PrimitiveType {
    if u < |i.operands| then RegisterType(f, i.operands[u]) else ErrorType
  }

  predicate InstructionOk(f: Function, i: Instruction) {
    && |i.operands| == OperandCount(i.opcode)
    && (!i.checkedArithmetic ==> SupportsArithmeticMode(i.opcode))
    && (if i.opcode.StoreLocal? then i.result == -1 else i.result < |f.registerTypes|)
    && TypesOk(f, i, OperandType(f, i, 0), OperandType(f, i, 1), RegisterType(f, i.result))
  }

  predicate EdgeOk(f: Function, target: nat, arguments: seq<int>) {
    var t := BlockIndex(f, target);
    t >= 0 && |arguments| == |f.blocks[t].parameters| &&
    forall j | 0 <= j < |arguments| :: RegisterType(f, arguments[j]) == f.blocks[t].parameters[j].ty
  }

  predicate TerminatorOk(f: Function, t: Mir.Terminator) {
    match t
    case NoTerminator => false
    case Jump(target, arguments) => EdgeOk(f, target, arguments)
    case Branch(condition, target, arguments, falseTarget, falseArguments) =>
      RegisterType(f, condition).Bool? && EdgeOk(f, target, arguments) && EdgeOk(f, falseTarget, falseArguments)
    case ReturnValue(value) => !f.returnType.Void? && RegisterType(f, value) == f.returnType
    case ReturnVoid => f.returnType.Void?
    case Throw(value) => RegisterType(f, value).Object?
  }

  predicate BlockOk(f: Function, b: BasicBlock) {
    && (forall j | 0 <= j < |b.parameters| ::
          b.parameters[j].value < |f.registerTypes| && b.parameters[j].ty == RegisterType(f, b.parameters[j].value))
    && (forall k | 0 <= k < |b.instructions| :: InstructionOk(f, b.instructions[k]))
    && TerminatorOk(f, b.terminator)
  }

  /** The tables hold scalar types only: no type ids, no managed values. */
  predicate TablesOk(f: Function) {
    && (f.returnType.Void? || IsScalar(f.returnType))
    && (forall p | 0 <= p < |f.parameterTypes| :: IsScalar(f.parameterTypes[p]))
    && (forall s | 0 <= s < |f.localTypes| :: IsScalar(f.localTypes[s]))
    && (forall r | 0 <= r < |f.registerTypes| :: IsScalar(f.registerTypes[r]))
  }

  ghost predicate HasDefinition(f: Function, r: int) {
    exists d :: (r, d) in Ssa.AllDefs(View(f))
  }

  ghost predicate AllDefined(f: Function) {
    forall r :: 0 <= r < |f.registerTypes| ==> HasDefinition(f, r)
  }

  /** Acceptance of a scalar function without exception handlers. */
  ghost predicate Accepted(f: Function) {
    && TablesOk(f) && Ssa.Valid(View(f)) && AllDefined(f)
    && forall i :: 0 <= i < |f.blocks| ==> BlockOk(f, f.blocks[i])
  }

  lemma DefinedIfInTable(f: Function, table: map<int, Ssa.Definition>, r: int)
    requires Ssa.Collected(Ssa.AllDefs(View(f)), true, table)
    ensures HasDefinition(f, r) <==> r in table
  {
    if r in table { assert (r, table[r]) in Ssa.AllDefs(View(f)); }
  }

  /** Every register of the table must be defined somewhere (BytecodeVerifier.cpp:772-780). */
  method CheckAllDefined(f: Function, table: map<int, Ssa.Definition>) returns (ok: bool)
    requires Ssa.Collected(Ssa.AllDefs(View(f)), true, table)
    ensures ok <==> AllDefined(f)
  {
    ok := true;
    for r := 0 to |f.registerTypes|
      invariant ok <==> forall q :: 0 <= q < r ==> HasDefinition(f, q)
    {
      DefinedIfInTable(f, table, r);
      if r !in table { ok := false; }
    }
  }

  method VerifyFunction(f: Function) returns (ok: bool)
    ensures ok <==> Accepted(f)
  {
    hide HasDefinition, BlockOk, TablesOk;
    var single, table := Ssa.CollectDefinitions(View(f));
    if f.blocks == [] || !single { return false; }
    var defined := CheckAllDefined(f, table);
    var valid := Ssa.Verify(View(f));
    ok := TablesOk(f) && defined && valid;
    ghost var before := ok;
    for i := 0 to |f.blocks|
      invariant ok <==> (before && forall j :: 0 <= j < i ==> BlockOk(f, f.blocks[j]))
    {
      if !BlockOk(f, f.blocks[i]) { ok := false; }
    }
  }

  /** Neither verifier asks this of the entry block. */
  predicate EntryTakesNothing(f: Function) {
    forall i | 0 <= i < |f.blocks| && f.blocks[i].id == 0 :: f.blocks[i].parameters == []
  }
}
