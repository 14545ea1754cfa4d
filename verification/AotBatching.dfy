/** Batched budget charges (src/aot_cpp/AotCpp.cpp:858-919): in fast accounting a block is charged
    in batches that end at operations that can fail.  The observable outcome is that of charging
    one instruction at a time. */
module AotBatching {
  import opened Scalars
  import opened Mir
  import opened AotSemantics

  /** typedInstructionCanFail (AotCpp.cpp:886-904). */
  predicate CanFail(safe: set<ValueId>, i: Instruction) {
    match i.opcode
    case Parameter => true
    case AddInt | SubtractInt | MultiplyInt | NegateInt => !ProvenSafe(safe, i)
    case DivideInt | RemainderInt => true
    case _ => false
  }

  /** The end of the batch that position k belongs to: an operation that can fail, or the terminator. */
  function BatchEnd(b: BasicBlock, safe: set<ValueId>, k: nat): (stop: nat)
    requires k <= |b.instructions|
    ensures k <= stop <= |b.instructions|
    ensures forall j :: k <= j < stop ==> !CanFail(safe, b.instructions[j])
    ensures stop < |b.instructions| ==> CanFail(safe, b.instructions[stop])
    decreases |b.instructions| - k
  {
    if k == |b.instructions| || CanFail(safe, b.instructions[k]) then k else BatchEnd(b, safe, k + 1)
  }

  predicate BatchStart(b: BasicBlock, safe: set<ValueId>, k: nat)
    requires k <= |b.instructions|
  {
    k == 0 || CanFail(safe, b.instructions[k - 1])
  }

  /** What is charged just before position k: the whole batch at its start, else nothing. */
  function Charge(b: BasicBlock, safe: set<ValueId>, k: nat): nat
    requires k <= |b.instructions|
  {
    if BatchStart(b, safe, k) then BatchEnd(b, safe, k) - k + 1 else 0
  }

  /** typedRawConsumeBatches (AotCpp.cpp:906-919). */
  method TypedRawConsumeBatches(b: BasicBlock, safe: set<ValueId>) returns (result: seq<nat>)
    ensures |result| == |b.instructions| + 1
    ensures forall k :: 0 <= k <= |b.instructions| ==> result[k] == Charge(b, safe, k)
  {
    var n := |b.instructions|;
    result := seq(n + 1, _ => 0);
    var batchStart := 0;
    for index := 0 to n
      invariant |result| == n + 1 && batchStart <= index
      invariant BatchStart(b, safe, batchStart)
      invariant forall j :: batchStart <= j < index ==> !CanFail(safe, b.instructions[j])
      invariant forall k :: 0 <= k < batchStart ==> result[k] == Charge(b, safe, k)
      invariant forall k :: batchStart <= k <= n ==> result[k] == 0
    {
      if CanFail(safe, b.instructions[index]) {
        BatchEndIs(b, safe, batchStart, index);
        result := result[batchStart := index - batchStart + 1];
        batchStart := index + 1;
      }
    }
    BatchEndIs(b, safe, batchStart, n);
    result := result[batchStart := n - batchStart + 1];
  }

  lemma {:induction false} BatchEndIs(b: BasicBlock, safe: set<ValueId>, k: nat, stop: nat)
    requires k <= stop <= |b.instructions|
    requires forall j :: k <= j < stop ==> !CanFail(safe, b.instructions[j])
    requires stop < |b.instructions| ==> CanFail(safe, b.instructions[stop])
    ensures BatchEnd(b, safe, k) == stop
    ensures forall j :: k <= j <= stop ==> BatchEnd(b, safe, j) == stop
    decreases stop - k
  {
    if k < stop { BatchEndIs(b, safe, k + 1, stop); }
  }

  function TotalCharge(b: BasicBlock, safe: set<ValueId>, k: nat): nat
    requires k <= |b.instructions|
    decreases |b.instructions| - k
  {
    Charge(b, safe, k) + if k == |b.instructions| then 0 else TotalCharge(b, safe, k + 1)
  }

  /** A block's charges add up to its instructions and its terminator. */
  lemma {:induction false} ChargesAddUp(b: BasicBlock, safe: set<ValueId>, k: nat)
    requires k <= |b.instructions|
    ensures TotalCharge(b, safe, k) ==
            if BatchStart(b, safe, k) then |b.instructions| - k + 1
            else |b.instructions| - BatchEnd(b, safe, k)
    decreases |b.instructions| - k
  {
    if k < |b.instructions| { ChargesAddUp(b, safe, k + 1); }
  }

  // ----- runs with batched charges -----

  datatype BlockExit = Leaves(target: nat, frame: Frame, executed: nat) | Ends(outcome: Outcome)

  /** TypedRawAccountingScope::consume (include/realscript/aot_cpp/AotRuntime.h:181-219): all of it, or
      run the budget down and fail. */
  function Consume(budget: nat, executed: nat, count: nat): (bool, nat)
  {
    if count == 0 then (true, executed)
    else if executed + count > budget then (false, if executed > budget then executed else budget)
    else (true, executed + count)
  }

  /** A block of the typed lowering under fast accounting, from position k. */
  function RunBlockFast(
    safe: set<ValueId>, f: Function, args: seq<Value>, budget: nat, b: nat, k: nat, fr: Frame, executed: nat)
    : (exit: BlockExit)
    requires b < |f.blocks| && k <= |f.blocks[b].instructions|
    ensures exit.Leaves? ==> exit.target < |f.blocks| && executed <= exit.executed <= Max(budget, executed)
    ensures exit.Leaves? && k == 0 ==> executed < exit.executed
    decreases |f.blocks[b].instructions| - k
  {
    var block := f.blocks[b];
    var charged := Consume(budget, executed, Charge(block, safe, k));
    if !charged.0 then Ends(Outcome(Failed(InstructionBudgetExceeded), charged.1))
    else if k < |block.instructions| then
      match Exec(Typed(safe), block.instructions[k], args, fr)
      case Fault(code) => Ends(Outcome(Failed(code), charged.1))
      case Next(after) => RunBlockFast(safe, f, args, budget, b, k + 1, after, charged.1)
    else
      match Leave(Typed(safe), f, block.terminator, fr)
      case Abort(code) => Ends(Outcome(Failed(code), charged.1))
      case Return(value) => Ends(Outcome(Returned(value), charged.1))
      case Goto(t, after) => Leaves(t, after, charged.1)
  }

  function RunFast(
    safe: set<ValueId>, f: Function, args: seq<Value>, budget: nat, b: nat, fr: Frame, executed: nat): Outcome
    requires b < |f.blocks|
    decreases budget - executed
  {
    match RunBlockFast(safe, f, args, budget, b, 0, fr, executed)
    case Ends(outcome) => outcome
    case Leaves(target, after, charged) =>
      RunFast(safe, f, args, budget, target, after, charged)
  }

  function FinishFast(
    safe: set<ValueId>, f: Function, args: seq<Value>, budget: nat, b: nat, k: nat, fr: Frame, executed: nat): Outcome
    requires b < |f.blocks| && k <= |f.blocks[b].instructions|
  {
    match RunBlockFast(safe, f, args, budget, b, k, fr, executed)
    case Ends(outcome) => outcome
    case Leaves(target, after, charged) => RunFast(safe, f, args, budget, target, after, charged)
  }

  lemma SteadyNeverFails(safe: set<ValueId>, i: Instruction, args: seq<Value>, fr: Frame)
    requires !CanFail(safe, i)
    ensures TypedExec(safe, i, args, fr).Next?
  {
  }

  /** A batch the budget cannot cover ends the unit-charged run inside the batch, for the same reason. */
  lemma {:induction false} ShortBudgetEnds(
    safe: set<ValueId>, f: Function, args: seq<Value>, budget: nat, b: nat, k: nat, fr: Frame, executed: nat)
    requires b < |f.blocks| && k <= |f.blocks[b].instructions|
    requires executed + (BatchEnd(f.blocks[b], safe, k) - k + 1) > budget
    ensures Run(Typed(safe), f, args, budget, b, k, fr, executed) ==
            Outcome(Failed(InstructionBudgetExceeded), Max(executed, budget))
    decreases budget - executed
  {
    if executed < budget {
      var i := f.blocks[b].instructions[k];
      SteadyNeverFails(safe, i, args, fr);
      ShortBudgetEnds(safe, f, args, budget, b, k + 1, TypedExec(safe, i, args, fr).frame, executed + 1);
    }
  }

  /** charged is what fast accounting has taken when the unit-charged run has taken executed. */
  ghost predicate Ahead(b: BasicBlock, safe: set<ValueId>, budget: nat, k: nat, executed: nat, charged: nat)
    requires k <= |b.instructions|
  {
    if BatchStart(b, safe, k) then charged == executed
    else charged == executed + (BatchEnd(b, safe, k) - k + 1) && charged <= budget
  }

  /** From any position, with any budget, fast accounting sees the same first error, the same result
      and the same final count as charging one instruction at a time. */
  lemma {:induction false} FastIsUnit(
    safe: set<ValueId>, f: Function, args: seq<Value>, budget: nat, b: nat, k: nat, fr: Frame,
    executed: nat, charged: nat)
    requires b < |f.blocks| && k <= |f.blocks[b].instructions|
    requires Ahead(f.blocks[b], safe, budget, k, executed, charged)
    ensures FinishFast(safe, f, args, budget, b, k, fr, charged) == Run(Typed(safe), f, args, budget, b, k, fr, executed)
    decreases budget - executed
  {
    var block := f.blocks[b];
    if BatchStart(block, safe, k) && executed + Charge(block, safe, k) > budget {
      ShortBudgetEnds(safe, f, args, budget, b, k, fr, executed);
    } else {
      var taken := Consume(budget, charged, Charge(block, safe, k)).1;
      if k < |block.instructions| {
        match Exec(Typed(safe), block.instructions[k], args, fr)
        case Fault(_) =>
          assert CanFail(safe, block.instructions[k]) by {
            if !CanFail(safe, block.instructions[k]) { SteadyNeverFails(safe, block.instructions[k], args, fr); }
          }
        case Next(after) => FastIsUnit(safe, f, args, budget, b, k + 1, after, executed + 1, taken);
      } else {
        match Leave(Typed(safe), f, block.terminator, fr)
        case Goto(t, after) => FastIsUnit(safe, f, args, budget, t, 0, after, executed + 1, taken);
        case _ =>
      }
    }
  }
}
