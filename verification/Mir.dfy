/** The mid-level representation (include/realscript/mir/Mir.h) and its verifier
    (src/mir/MirVerifier.cpp), for the opcodes that typed ahead-of-time code accepts. */
module Mir {
  import opened Scalars
  import Ssa

  datatype Opcode =
    | Parameter | ConstantInt | ConstantBool | LoadLocal | StoreLocal
    | NegateInt | LogicalNot
    | AddInt | SubtractInt | MultiplyInt | DivideInt | RemainderInt
    | Equal | NotEqual
    | LessInt | LessOrEqualInt | GreaterInt | GreaterOrEqualInt
    | OtherOpcode

  /** A value id; negative ids name no value. */
  type ValueId = int

  datatype Instruction = Instruction(
    opcode: Opcode, result: ValueId, resultType: PrimitiveType, operands: seq<ValueId>,
    localIndex: nat, integerImmediate: int, boolImmediate: bool, checkedArithmetic: bool)

  datatype BlockParameter = BlockParameter(value: ValueId, ty: PrimitiveType)

  datatype Terminator =
    | NoTerminator
    | Jump(target: nat, arguments: seq<ValueId>)
    | Branch(condition: ValueId, target: nat, arguments: seq<ValueId>,
             falseTarget: nat, falseArguments: seq<ValueId>)
    | ReturnValue(value: ValueId)
    | ReturnVoid
    | Throw(value: ValueId)

  datatype BasicBlock = BasicBlock(
    id: nat, parameters: seq<BlockParameter>, instructions: seq<Instruction>, terminator: Terminator)

  datatype Function = Function(
    returnType: PrimitiveType, parameterTypes: seq<PrimitiveType>, localTypes: seq<PrimitiveType>,
    blocks: seq<BasicBlock>, hasHandlers: bool)

  predicate IsArithmetic(op: Opcode) {
    op.AddInt? || op.SubtractInt? || op.MultiplyInt? || op.DivideInt? || op.RemainderInt?
  }

  predicate IsComparison(op: Opcode) {
    op.LessInt? || op.LessOrEqualInt? || op.GreaterInt? || op.GreaterOrEqualInt?
  }

  // ----- what the verifier looks at -----

  function StepOf(i: Instruction): Ssa.Step {
    Ssa.Step(!i.opcode.StoreLocal?, Ssa.Register(i.result, i.resultType), i.operands)
  }

  function EdgesOf(t: Terminator): seq<Ssa.Edge> {
    match t
    case Jump(target, arguments) => [Ssa.Edge(target, arguments)]
    case Branch(_, target, arguments, falseTarget, falseArguments) =>
      [Ssa.Edge(target, arguments), Ssa.Edge(falseTarget, falseArguments)]
    case _ => []
  }

  function TerminatorUses(t: Terminator): seq<ValueId> {
    match t
    case Branch(condition, _, _, _, _) => [condition]
    case ReturnValue(value) => [value]
    case Throw(value) => [value]
    case _ => []
  }

  function ViewBlock(b: BasicBlock): Ssa.Block {
    Ssa.Block(
      b.id,
      seq(|b.parameters|, j requires 0 <= j < |b.parameters| =>
            Ssa.Register(b.parameters[j].value, b.parameters[j].ty)),
      seq(|b.instructions|, k requires 0 <= k < |b.instructions| => StepOf(b.instructions[k])),
      TerminatorUses(b.terminator),
      EdgesOf(b.terminator))
  }

  function View(f: Function): seq<Ssa.Block> {
    seq(|f.blocks|, i requires 0 <= i < |f.blocks| => ViewBlock(f.blocks[i]))
  }

  /** valueType in MirVerifier.cpp:333-338. */
  function TypeOf(f: Function, v: ValueId): PrimitiveType {
    Ssa.TypeOf(View(f), v)
  }

  /** The block index an id stands for. */
  function BlockIndex(f: Function, id: nat): (i: int)
    ensures -1 <= i < |f.blocks|
    ensures i >= 0 ==> f.blocks[i].id == id
  {
    Ssa.IndexOf(View(f), id)
  }

  // ----- the verifier's instruction rules -----

  function OperandCount(op: Opcode): nat {
    match op
    case Parameter | ConstantInt | ConstantBool | LoadLocal => 0
    case StoreLocal | NegateInt | LogicalNot => 1
    case _ => 2
  }

  predicate SupportsArithmeticMode(op: Opcode) {
    op.NegateInt? || IsArithmetic(op)
  }

  predicate IsIntCarrier(t: PrimitiveType) { t.Int? || t.UInt? }

  /** The checks of MirVerifier.cpp:545-1220 on one instruction of the modelled set. */
  predicate InstructionOk(f: Function, i: Instruction) {
    && !i.opcode.OtherOpcode?
    && |i.operands| == OperandCount(i.opcode)
    && (i.opcode.StoreLocal? ==> i.result < 0)
    && (!i.checkedArithmetic ==> SupportsArithmeticMode(i.opcode))
    && match i.opcode
       case Parameter =>
         0 <= i.integerImmediate < |f.parameterTypes| && i.resultType == f.parameterTypes[i.integerImmediate]
       case ConstantInt => i.resultType.Int? || i.resultType.Long? || i.resultType.Enum?
       case ConstantBool => i.resultType.Bool?
       case LoadLocal => i.localIndex < |f.localTypes| && i.resultType == f.localTypes[i.localIndex]
       case StoreLocal => i.localIndex < |f.localTypes| && TypeOf(f, i.operands[0]) == f.localTypes[i.localIndex]
       case NegateInt => IsIntCarrier(TypeOf(f, i.operands[0])) && i.resultType == TypeOf(f, i.operands[0])
       case LogicalNot => i.resultType.Bool? && TypeOf(f, i.operands[0]).Bool?
       case Equal | NotEqual => i.resultType.Bool? && TypeOf(f, i.operands[0]) == TypeOf(f, i.operands[1])
       case LessInt | LessOrEqualInt | GreaterInt | GreaterOrEqualInt =>
         i.resultType.Bool? && IsIntCarrier(TypeOf(f, i.operands[0])) &&
         TypeOf(f, i.operands[1]) == TypeOf(f, i.operands[0])
       case _ =>
         IsIntCarrier(TypeOf(f, i.operands[0])) && i.resultType == TypeOf(f, i.operands[0]) &&
         TypeOf(f, i.operands[1]) == TypeOf(f, i.operands[0])
  }

  predicate EdgeOk(f: Function, target: nat, arguments: seq<ValueId>) {
    var t := BlockIndex(f, target);
    t >= 0 && |arguments| == |f.blocks[t].parameters| &&
    forall j | 0 <= j < |arguments| :: TypeOf(f, arguments[j]) == f.blocks[t].parameters[j].ty
  }

  predicate TerminatorOk(f: Function, t: Terminator) {
    match t
    case NoTerminator => false
    case Jump(target, arguments) => EdgeOk(f, target, arguments)
    case Branch(condition, target, arguments, falseTarget, falseArguments) =>
      TypeOf(f, condition).Bool? && EdgeOk(f, target, arguments) && EdgeOk(f, falseTarget, falseArguments)
    case ReturnValue(value) => !f.returnType.Void? && TypeOf(f, value) == f.returnType
    case ReturnVoid => f.returnType.Void?
    case Throw(value) => TypeOf(f, value).Object?
  }

  predicate BlockOk(f: Function, b: BasicBlock) {
    (forall k | 0 <= k < |b.instructions| :: InstructionOk(f, b.instructions[k])) &&
    TerminatorOk(f, b.terminator)
  }

  /** Acceptance by the MIR verifier, of a function without exception handlers. */
  ghost predicate Accepted(f: Function) {
    Ssa.Valid(View(f)) && forall i :: 0 <= i < |f.blocks| ==> BlockOk(f, f.blocks[i])
  }

  method VerifyFunction(f: Function) returns (ok: bool)
    ensures ok <==> Accepted(f)
  {
    ok := Ssa.Verify(View(f));
    ghost var valid := ok;
    for i := 0 to |f.blocks|
      invariant ok <==> (valid && forall j :: 0 <= j < i ==> BlockOk(f, f.blocks[j]))
    {
      if !BlockOk(f, f.blocks[i]) { ok := false; }
    }
  }

  // ----- the register table -----

  function MaxId(s: seq<ValueId>): (m: ValueId)
    ensures m >= -1 && forall j :: 0 <= j < |s| ==> s[j] <= m
  {
    if |s| == 0 then -1
    else
      var rest := MaxId(s[..|s| - 1]);
      if s[|s| - 1] > rest then s[|s| - 1] else rest
  }

  function Max(a: int, b: int): int { if a > b then a else b }

  function InstructionsMax(s: seq<Instruction>): (m: ValueId)
    ensures m >= -1
    ensures forall k :: 0 <= k < |s| ==> s[k].result <= m && MaxId(s[k].operands) <= m
  {
    if |s| == 0 then -1
    else Max(InstructionsMax(s[..|s| - 1]), Max(s[|s| - 1].result, MaxId(s[|s| - 1].operands)))
  }

  function ParametersMax(s: seq<BlockParameter>): (m: ValueId)
    ensures m >= -1
    ensures forall j :: 0 <= j < |s| ==> s[j].value <= m
  {
    if |s| == 0 then -1 else Max(ParametersMax(s[..|s| - 1]), s[|s| - 1].value)
  }

  function TerminatorMax(t: Terminator): (m: ValueId)
    ensures m >= -1
    ensures forall u :: 0 <= u < |TerminatorUses(t)| ==> TerminatorUses(t)[u] <= m
    ensures forall e :: 0 <= e < |EdgesOf(t)| ==> MaxId(EdgesOf(t)[e].args) <= m
  {
    match t
    case Jump(_, arguments) => MaxId(arguments)
    case Branch(condition, _, arguments, _, falseArguments) =>
      Max(Max(-1, condition), Max(MaxId(arguments), MaxId(falseArguments)))
    case ReturnValue(value) => Max(-1, value)
    case Throw(value) => Max(-1, value)
    case _ => -1
  }

  function BlockMax(b: BasicBlock): int {
    Max(Max(ParametersMax(b.parameters), InstructionsMax(b.instructions)), TerminatorMax(b.terminator))
  }

  function BlocksMax(blocks: seq<BasicBlock>): (m: ValueId)
    ensures m >= -1
    ensures forall i :: 0 <= i < |blocks| ==> BlockMax(blocks[i]) <= m
  {
    if |blocks| == 0 then -1 else Max(BlocksMax(blocks[..|blocks| - 1]), BlockMax(blocks[|blocks| - 1]))
  }

  /** registerCount in AotCpp.cpp:202-219. */
  function RegisterCount(f: Function): nat {
    BlocksMax(f.blocks) + 1
  }
}
