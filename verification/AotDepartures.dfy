/** Where a run of the generic lowering comes to an operation that the typed lowering does otherwise:
    INT_MIN % -1 (src/aot_cpp/AotCpp.cpp:1059-1063), and the uses of a register that is not set.  The
    caller passes nothing to the parameters of bb0, so they start out unset in the generic lowering
    (AotCpp.cpp:1680) and zero in the typed one (AotCpp.cpp:959-962). */
module AotDepartures {
  import opened Scalars
  import opened Mir
  import opened AotSemantics

  datatype Departure = Nowhere | AtRemainder | AtUnset | AtEquality

  /** Operations that insist on the types of their operands. */
  predicate Strict(op: Opcode) {
    IsArithmetic(op) || IsComparison(op) || op.NegateInt? || op.LogicalNot?
  }

  /** The operation has an operand that is not set. */
  predicate UsesUnset(i: Instruction, fr: Frame) {
    Strict(i.opcode) && exists u :: 0 <= u < |i.operands| && Operand(i, fr, u).Unit?
  }

  predicate IsZero(v: Value) { v == IntValue(0) || v == BoolValue(false) }

  /** An equality between what is not set and a zero: unequal in the generic lowering, equal in the
      typed one. */
  predicate ComparesUnset(i: Instruction, fr: Frame) {
    (i.opcode.Equal? || i.opcode.NotEqual?) &&
    var left, right := Operand(i, fr, 0), Operand(i, fr, 1);
    (left.Unit? && IsZero(right)) || (right.Unit? && IsZero(left))
  }

  /** The terminator branches on, or returns, what is not set. */
  predicate LeavesUnset(t: Terminator, fr: Frame) {
    match t
    case Branch(condition, _, _, _, _) => Register(fr, condition).Unit?
    case ReturnValue(value) => Register(fr, value).Unit?
    case _ => false
  }

  /** The first such operation the generic run comes to. */
  function FirstDeparture(
    f: Function, args: seq<Value>, budget: nat, b: nat, k: nat, fr: Frame, executed: nat): Departure
    requires b < |f.blocks| && k <= |f.blocks[b].instructions|
    decreases budget - executed
  {
    if executed >= budget then Nowhere
    else if k < |f.blocks[b].instructions| then
      var i := f.blocks[b].instructions[k];
      if IsMinRemainder(i, fr) then AtRemainder
      else if UsesUnset(i, fr) then AtUnset
      else if ComparesUnset(i, fr) then AtEquality
      else
        match Exec(Generic, i, args, fr)
        case Fault(_) => Nowhere
        case Next(after) => FirstDeparture(f, args, budget, b, k + 1, after, executed + 1)
    else if LeavesUnset(f.blocks[b].terminator, fr) then AtUnset
    else
      match Leave(Generic, f, f.blocks[b].terminator, fr)
      case Goto(t, after) => FirstDeparture(f, args, budget, t, 0, after, executed + 1)
      case _ => Nowhere
  }

  /** A run that departs at a remainder meets INT_MIN % -1, and one that does not depart does not. */
  lemma {:induction false} DepartsAtRemainder(
    f: Function, args: seq<Value>, budget: nat, b: nat, k: nat, fr: Frame, executed: nat)
    requires b < |f.blocks| && k <= |f.blocks[b].instructions|
    ensures var d := FirstDeparture(f, args, budget, b, k, fr, executed);
            var met := MeetsMinRemainder(f, args, budget, b, k, fr, executed);
            (d.AtRemainder? ==> met) && (d.Nowhere? ==> !met)
    decreases budget - executed
  {
    hide GenericExec;
    if executed < budget {
      if k < |f.blocks[b].instructions| {
        match Exec(Generic, f.blocks[b].instructions[k], args, fr)
        case Fault(_) =>
        case Next(after) => DepartsAtRemainder(f, args, budget, b, k + 1, after, executed + 1);
      } else {
        match Leave(Generic, f, f.blocks[b].terminator, fr)
        case Goto(t, after) => DepartsAtRemainder(f, args, budget, t, 0, after, executed + 1);
        case _ =>
      }
    }
  }

  /** What a departure does to the generic run: an unset operand or condition is a type mismatch. */
  lemma UnsetIsMismatch(f: Function, i: Instruction, args: seq<Value>, fr: Frame)
    requires InstructionOk(f, i) && UsesUnset(i, fr)
    ensures GenericExec(false, i, args, fr) == Fault(TypeMismatch)
  {
  }

  /** and the typed run never takes it for one. */
  lemma TypedNeverMismatches(safe: set<ValueId>, i: Instruction, args: seq<Value>, fr: Frame)
    requires Strict(i.opcode)
    ensures TypedExec(safe, i, args, fr).Fault? ==> !TypedExec(safe, i, args, fr).code.TypeMismatch?
  {
  }

  /** Away from INT_MIN % -1 trapping changes nothing. */
  lemma TrappingElsewhere(i: Instruction, args: seq<Value>, fr: Frame)
    requires !IsMinRemainder(i, fr)
    ensures GenericExec(true, i, args, fr) == GenericExec(false, i, args, fr)
  {
  }
}
