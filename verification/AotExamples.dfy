/** Concrete functions that show why the preservation theorem has the conditions it has. */
module AotExamples {
  import opened Scalars
  import opened Mir
  import opened AotSemantics
  import opened TypedRanges
  import opened RangeAnalysis
  import opened AotDepartures
  import opened AotPreservation
  import Ssa

  function Op(opcode: Opcode, result: ValueId, operands: seq<ValueId>, immediate: int): Instruction {
    Instruction(opcode, result, Int, operands, 0, immediate, false, true)
  }

  /** int f(int a, int b) { return a % b; } */
  function RemainderFunction(): Function {
    Function(Int, [Int, Int], [],
      [BasicBlock(0, [],
         [Op(Parameter, 0, [], 0), Op(Parameter, 1, [], 1), Op(RemainderInt, 2, [0, 1], 0)], ReturnValue(2))],
      false)
  }

  /** A function whose entry block has a parameter, which it returns. */
  function EntryParameterFunction(): Function {
    Function(Int, [], [], [BasicBlock(0, [BlockParameter(0, Int)], [], ReturnValue(0))], false)
  }

  /** A function whose entry block has a parameter, which it compares with zero; it returns the result
      of the comparison, or the zero. */
  function EqualityFunction(result: bool): Function {
    Function(if result then Bool else Int, [], [],
      [BasicBlock(0, [BlockParameter(0, Int)],
         [Op(ConstantInt, 1, [], 0), Op(Equal, 2, [0, 1], 0).(resultType := Bool)], ReturnValue(if result then 2 else 1))],
      false)
  }

  lemma OneBlockReaches(blocks: seq<Ssa.Block>)
    requires |blocks| == 1 && blocks[0].id == 0
    ensures Ssa.Ids(blocks) == {0} && Ssa.Reaches(blocks, 0)
  {
    assert Ssa.PathTo(blocks, [0], 0);
  }

  /** r is a parameter of the block or the result of one of its first k steps. */
  ghost predicate DefinedEarlier(b: Ssa.Block, k: nat, r: int) {
    (exists j :: 0 <= j < |b.params| && b.params[j].reg == r) ||
    (exists j :: 0 <= j < k && j < |b.steps| && b.steps[j].defines && b.steps[j].def.reg == r)
  }

  lemma OneBlockAvailable(blocks: seq<Ssa.Block>, k: nat, r: int)
    requires |blocks| == 1 && DefinedEarlier(blocks[0], k, r)
    ensures Ssa.Available(blocks, blocks[0].id, k, r)
  {
    var b := blocks[0];
    if j :| 0 <= j < |b.params| && b.params[j].reg == r {
      Ssa.BlockDefShape(b, |b.params|, |b.steps|, Ssa.ParamDef(b, j));
      Ssa.DefMembership(blocks, 0, Ssa.ParamDef(b, j));
    } else {
      var j :| 0 <= j < k && j < |b.steps| && b.steps[j].defines && b.steps[j].def.reg == r;
      Ssa.BlockDefShape(b, |b.params|, |b.steps|, Ssa.StepDef(b, j));
      Ssa.DefMembership(blocks, 0, Ssa.StepDef(b, j));
    }
  }

  /** A single block without edges is valid when it defines before it uses, and once. */
  lemma OneBlockValid(blocks: seq<Ssa.Block>)
    requires |blocks| == 1 && blocks[0].id == 0 && blocks[0].edges == []
    requires Ssa.SingleDefs(Ssa.AllDefs(blocks))
    requires var b := blocks[0];
      (forall k, u :: 0 <= k < |b.steps| && 0 <= u < |b.steps[k].uses| ==> DefinedEarlier(b, k, b.steps[k].uses[u])) &&
      (forall u :: 0 <= u < |b.termUses| ==> DefinedEarlier(b, |b.steps|, b.termUses[u]))
    ensures Ssa.Valid(blocks)
  {
    var b := blocks[0];
    OneBlockReaches(blocks);
    forall k, u | 0 <= k < |b.steps| && 0 <= u < |b.steps[k].uses|
      ensures Ssa.Available(blocks, b.id, k, b.steps[k].uses[u])
    {
      OneBlockAvailable(blocks, k, b.steps[k].uses[u]);
    }
    forall u | 0 <= u < |b.termUses| ensures Ssa.Available(blocks, b.id, |b.steps|, b.termUses[u]) {
      OneBlockAvailable(blocks, |b.steps|, b.termUses[u]);
    }
  }

  lemma RemainderDefs()
    ensures var view := View(RemainderFunction());
            Ssa.AllDefs(view) == [(0, Ssa.Definition(0, 0, Int)), (1, Ssa.Definition(0, 1, Int)), (2, Ssa.Definition(0, 2, Int))]
  {
    var view := View(RemainderFunction());
    var block := view[0];
    var d0, d1, d2 := Ssa.StepDef(block, 0), Ssa.StepDef(block, 1), Ssa.StepDef(block, 2);
    assert Ssa.StepDefs(block, 1) == [d0];
    assert Ssa.StepDefs(block, 2) == [d0, d1];
    assert Ssa.StepDefs(block, 3) == [d0, d1, d2];
    assert Ssa.DefsOf(view, 1) == Ssa.DefsOf(view, 0) + Ssa.ParamDefs(block, 0) + Ssa.StepDefs(block, 3);
  }

  lemma RemainderTypes()
    ensures var f := RemainderFunction();
            Ssa.Valid(View(f)) && TypeOf(f, 0) == Int && TypeOf(f, 1) == Int && TypeOf(f, 2) == Int
  {
    var view := View(RemainderFunction());
    RemainderDefs();
    var defs := Ssa.AllDefs(view);
    Ssa.TypeOfDefinition(defs, defs[0]);
    Ssa.TypeOfDefinition(defs, defs[1]);
    Ssa.TypeOfDefinition(defs, defs[2]);
    var b := view[0];
    assert b.steps[0].def.reg == 0 && b.steps[1].def.reg == 1 && b.steps[2].def.reg == 2;
    assert DefinedEarlier(b, 2, 0) && DefinedEarlier(b, 2, 1) && DefinedEarlier(b, 3, 2);
    OneBlockValid(view);
  }

  lemma {:induction false} MaxIdAtMost(s: seq<ValueId>, m: ValueId)
    requires m >= -1 && forall j :: 0 <= j < |s| ==> s[j] <= m
    ensures MaxId(s) <= m
  {
    if |s| > 0 { MaxIdAtMost(s[..|s| - 1], m); }
  }

  lemma {:induction false} InstructionsMaxAtMost(s: seq<Instruction>, m: ValueId)
    requires m >= -1
    requires forall k :: 0 <= k < |s| ==> s[k].result <= m && forall u :: 0 <= u < |s[k].operands| ==> s[k].operands[u] <= m
    ensures InstructionsMax(s) <= m
  {
    if |s| > 0 {
      InstructionsMaxAtMost(s[..|s| - 1], m);
      MaxIdAtMost(s[|s| - 1].operands, m);
    }
  }

  lemma OneBlockRegisters(f: Function, m: nat)
    requires |f.blocks| == 1 && BlockMax(f.blocks[0]) == m
    ensures RegisterCount(f) == m + 1
  {
    assert |f.blocks| - 1 == 0 && f.blocks[..0] == [];
    assert BlocksMax(f.blocks[..|f.blocks| - 1]) == -1;
  }

  lemma RemainderRegisters()
    ensures RegisterCount(RemainderFunction()) == 3
  {
    var f := RemainderFunction();
    InstructionsMaxAtMost(f.blocks[0].instructions, 2);
    assert f.blocks[0].instructions[2].result == 2;
    OneBlockRegisters(f, 2);
  }

  lemma RemainderAccepted()
    ensures Accepted(RemainderFunction())
  {
    hide TypeOf;
    RemainderTypes();
    var f := RemainderFunction();
    var ins := f.blocks[0].instructions;
    assert InstructionOk(f, ins[0]) && InstructionOk(f, ins[1]) && InstructionOk(f, ins[2]);
    assert BlockOk(f, f.blocks[0]);
  }

  lemma RemainderCompilable()
    ensures Compilable(RemainderFunction()) && RegisterCount(RemainderFunction()) == 3
  {
    hide TypeOf, Accepted, RegisterCount;
    RemainderTypes();
    RemainderAccepted();
    RemainderRegisters();
    assert Supported(RemainderFunction());
  }

  /** The divergence is real: a verified, supported function and two int32 arguments on which the
      generic lowering returns 0 and the typed lowering overflows, whatever checks are dropped. */
  lemma LoweringsPart(safe: set<ValueId>)
    ensures var f := RemainderFunction();
      var args := [IntValue(INT_MIN), IntValue(-1)];
      Compilable(f) && ArgumentsTyped(f, args) &&
      Call(Generic, f, args, 10, 0) == Outcome(Returned(IntValue(0)), 4) &&
      Call(Typed(safe), f, args, 10, 0) == Outcome(Failed(IntegerOverflow), 3)
  {
    hide Compilable, RegisterCount;
    RemainderCompilable();
    var f := RemainderFunction();
    var args := [IntValue(INT_MIN), IntValue(-1)];
    assert Ssa.IndexOf(View(f), 0) == 0;
    ExampleRun(Generic, f, args);
    ExampleRun(Typed(safe), f, args);
  }

  lemma ExampleRun(l: Lowering, f: Function, args: seq<Value>)
    requires f == RemainderFunction() && |args| == 2 && args[0].IntValue? && args[1].IntValue?
    requires !l.Trapping? && RegisterCount(f) == 3 && BlockIndex(f, 0) == 0
    ensures Call(l, f, args, 10, 0) ==
            Run(l, f, args, 10, 0, 2, Frame([], [args[0], args[1], EntryFrame(l, f).registers[2]]), 2)
  {
    var fr := EntryFrame(l, f);
    var ins := f.blocks[0].instructions;
    var fr1 := Frame([], [args[0], fr.registers[1], fr.registers[2]]);
    var fr2 := Frame([], [args[0], args[1], fr.registers[2]]);
    assert Exec(l, ins[0], args, fr) == Next(fr1) by { assert SetRegister(fr, 0, args[0]) == fr1; }
    assert Exec(l, ins[1], args, fr1) == Next(fr2) by { assert SetRegister(fr1, 1, args[1]) == fr2; }
    assert Run(l, f, args, 10, 0, 0, fr, 0) == Run(l, f, args, 10, 0, 1, fr1, 1);
    assert Run(l, f, args, 10, 0, 1, fr1, 1) == Run(l, f, args, 10, 0, 2, fr2, 2);
  }

  lemma EntryParameterTypes()
    ensures var f := EntryParameterFunction(); Ssa.Valid(View(f)) && TypeOf(f, 0) == Int && RegisterCount(f) == 1
  {
    var f := EntryParameterFunction();
    var view := View(f);
    var b := view[0];
    var d := Ssa.ParamDef(b, 0);
    assert Ssa.ParamDefs(b, 1) == [d];
    assert Ssa.DefsOf(view, 1) == Ssa.DefsOf(view, 0) + Ssa.ParamDefs(b, 1) + Ssa.StepDefs(b, 0);
    assert Ssa.AllDefs(view) == [d];
    Ssa.TypeOfDefinition(Ssa.AllDefs(view), d);
    assert b.params[0].reg == 0 && DefinedEarlier(b, 0, 0);
    OneBlockValid(view);
    assert f.blocks[0].parameters[..0] == [];
    OneBlockRegisters(f, 0);
  }

  lemma EntryParameterAnalyzable()
    ensures Analyzable(EntryParameterFunction())
  {
    hide TypeOf, RegisterCount, Ssa.Valid;
    EntryParameterTypes();
    assert BlockOk(EntryParameterFunction(), EntryParameterFunction().blocks[0]);
  }

  /** Neither verifier forbids parameters on bb0; with one, the typed lowering reads a zero where the
      generic lowering reads an unset register. */
  lemma EntryParametersPart(safe: set<ValueId>)
    ensures var f := EntryParameterFunction();
      Analyzable(f) && DepartureOfCall(f, [], 10, 0) == AtUnset &&
      Call(Generic, f, [], 10, 0) == Outcome(Returned(Unit), 1) &&
      Call(Typed(safe), f, [], 10, 0) == Outcome(Returned(IntValue(0)), 1)
  {
    hide Analyzable, RegisterCount;
    EntryParameterAnalyzable();
    EntryParameterTypes();
    assert Ssa.IndexOf(View(EntryParameterFunction()), 0) == 0;
  }

  lemma EqualityTypes(result: bool)
    ensures var f := EqualityFunction(result);
            Ssa.Valid(View(f)) && TypeOf(f, 0) == Int && TypeOf(f, 1) == Int && TypeOf(f, 2) == Bool && RegisterCount(f) == 3
  {
    var f := EqualityFunction(result);
    var view := View(f);
    var b := view[0];
    var d0, d1, d2 := Ssa.ParamDef(b, 0), Ssa.StepDef(b, 0), Ssa.StepDef(b, 1);
    assert Ssa.ParamDefs(b, 1) == [d0];
    assert Ssa.StepDefs(b, 1) == [d1];
    assert Ssa.StepDefs(b, 2) == [d1, d2];
    assert Ssa.DefsOf(view, 1) == Ssa.DefsOf(view, 0) + Ssa.ParamDefs(b, 1) + Ssa.StepDefs(b, 2);
    var defs := Ssa.AllDefs(view);
    assert defs == [d0, d1, d2];
    Ssa.TypeOfDefinition(defs, defs[0]);
    Ssa.TypeOfDefinition(defs, defs[1]);
    Ssa.TypeOfDefinition(defs, defs[2]);
    assert b.params[0].reg == 0 && b.steps[0].def.reg == 1 && b.steps[1].def.reg == 2;
    assert DefinedEarlier(b, 1, 0) && DefinedEarlier(b, 1, 1) && DefinedEarlier(b, 2, 1) && DefinedEarlier(b, 2, 2);
    OneBlockValid(view);
    EqualityRegisters(result);
  }

  lemma EqualityRegisters(result: bool)
    ensures RegisterCount(EqualityFunction(result)) == 3
  {
    var f := EqualityFunction(result);
    InstructionsMaxAtMost(f.blocks[0].instructions, 2);
    assert f.blocks[0].instructions[1].result == 2;
    assert f.blocks[0].parameters[..0] == [];
    OneBlockRegisters(f, 2);
  }

  lemma EqualityAnalyzable(result: bool)
    ensures Analyzable(EqualityFunction(result))
  {
    hide TypeOf, RegisterCount, Ssa.Valid;
    EqualityTypes(result);
    var f := EqualityFunction(result);
    assert InstructionOk(f, f.blocks[0].instructions[0]) && InstructionOk(f, f.blocks[0].instructions[1]);
    assert BlockOk(f, f.blocks[0]);
  }

  /** At an equality between what is not set and a zero the lowerings always depart; whether they end
      alike depends on what becomes of the result. */
  lemma EqualityDecidesNothing(result: bool, safe: set<ValueId>)
    ensures var f := EqualityFunction(result);
      Analyzable(f) && DepartureOfCall(f, [], 10, 0) == AtEquality &&
      (Call(Typed(safe), f, [], 10, 0) == Call(Generic, f, [], 10, 0) <==> !result)
  {
    hide Analyzable, RegisterCount;
    EqualityAnalyzable(result);
    EqualityTypes(result);
    var f := EqualityFunction(result);
    assert Ssa.IndexOf(View(f), 0) == 0;
    EqualityRun(Generic, result);
    EqualityRun(Typed(safe), result);
  }

  lemma EqualityRun(l: Lowering, result: bool)
    requires !l.Trapping?
    requires RegisterCount(EqualityFunction(result)) == 3 && BlockIndex(EqualityFunction(result), 0) == 0
    ensures Call(l, EqualityFunction(result), [], 10, 0) ==
            Outcome(Returned(if result then BoolValue(!l.Generic?) else IntValue(0)), 3)
  {
    var f := EqualityFunction(result);
    var fr := EntryFrame(l, f);
    var ins := f.blocks[0].instructions;
    var fr1 := SetRegister(fr, 1, IntValue(0));
    var fr2 := SetRegister(fr1, 2, BoolValue(!l.Generic?));
    assert Exec(l, ins[0], [], fr) == Next(fr1);
    assert Exec(l, ins[1], [], fr1) == Next(fr2);
    assert Run(l, f, [], 10, 0, 0, fr, 0) == Run(l, f, [], 10, 0, 1, fr1, 1);
    assert Run(l, f, [], 10, 0, 1, fr1, 1) == Run(l, f, [], 10, 0, 2, fr2, 2);
  }

  /** return 1 + 2, checked. */
  function SumFunction(): Function {
    Function(Int, [], [],
      [BasicBlock(0, [],
         [Op(ConstantInt, 0, [], 1), Op(ConstantInt, 1, [], 2), Op(AddInt, 2, [0, 1], 0)], ReturnValue(2))],
      false)
  }

  lemma SumDefs()
    ensures var view := View(SumFunction());
            Ssa.AllDefs(view) == [(0, Ssa.Definition(0, 0, Int)), (1, Ssa.Definition(0, 1, Int)), (2, Ssa.Definition(0, 2, Int))]
  {
    var view := View(SumFunction());
    var b := view[0];
    var d0, d1, d2 := Ssa.StepDef(b, 0), Ssa.StepDef(b, 1), Ssa.StepDef(b, 2);
    assert Ssa.StepDefs(b, 1) == [d0];
    assert Ssa.StepDefs(b, 2) == [d0, d1];
    assert Ssa.StepDefs(b, 3) == [d0, d1, d2];
    assert Ssa.DefsOf(view, 1) == Ssa.DefsOf(view, 0) + Ssa.ParamDefs(b, 0) + Ssa.StepDefs(b, 3);
  }

  lemma SumTypes()
    ensures var f := SumFunction();
            Ssa.Valid(View(f)) && TypeOf(f, 0) == Int && TypeOf(f, 1) == Int && TypeOf(f, 2) == Int
  {
    var view := View(SumFunction());
    SumDefs();
    var defs := Ssa.AllDefs(view);
    Ssa.TypeOfDefinition(defs, defs[0]);
    Ssa.TypeOfDefinition(defs, defs[1]);
    Ssa.TypeOfDefinition(defs, defs[2]);
    var b := view[0];
    assert b.steps[0].def.reg == 0 && b.steps[1].def.reg == 1 && b.steps[2].def.reg == 2;
    assert DefinedEarlier(b, 2, 0) && DefinedEarlier(b, 2, 1) && DefinedEarlier(b, 3, 2);
    OneBlockValid(view);
  }

  lemma SumRegisters()
    ensures RegisterCount(SumFunction()) == 3
  {
    var f := SumFunction();
    InstructionsMaxAtMost(f.blocks[0].instructions, 2);
    assert f.blocks[0].instructions[2].result == 2;
    OneBlockRegisters(f, 2);
  }

  lemma SumAnalyzable()
    ensures Analyzable(SumFunction())
  {
    hide TypeOf, RegisterCount, Ssa.Valid;
    SumTypes();
    SumRegisters();
    var f := SumFunction();
    var ins := f.blocks[0].instructions;
    assert InstructionOk(f, ins[0]) && InstructionOk(f, ins[1]) && InstructionOk(f, ins[2]);
    assert BlockOk(f, f.blocks[0]);
  }

  /** A sum of two constants needs no check, and whatever fixpoint decides the analysis finds that out. */
  lemma SumDropsItsCheck(a: Analysis, safe: set<ValueId>)
    requires Certified(SumFunction(), a, safe)
    ensures Analyzable(SumFunction()) && 2 in safe
  {
    hide TypeOf, RegisterCount, Ssa.Valid, Analyzable;
    SumAnalyzable();
    SumRegisters();
    var f := SumFunction();
    assert Ssa.IndexOf(View(f), 0) == 0;
    SumIsSafe(a.entryLocals[0]);
    assert 2 in NotedIn(f, 0);
    assert SafeAtFixpoint(f, a, 2);
  }

  lemma SumIsSafe(locals: seq<Range>)
    requires RegisterCount(SumFunction()) == 3
    ensures 2 in NotedResults(SumFunction().blocks[0], 3) && 2 !in UnsafeResults(SumFunction(), SumFunction().blocks[0], locals, 3)
  {
    hide RegisterCount;
    var f := SumFunction();
    var b := f.blocks[0];
    var s0 := AbsAt(f, b, locals, 0);
    var s1 := AbsStep(b.instructions[0], s0);
    var s2 := AbsStep(b.instructions[1], s1);
    assert s2.values[0] == Range(1, 1) && s2.values[1] == Range(2, 2);
    assert AbsAt(f, b, locals, 1) == s1;
    assert AbsAt(f, b, locals, 2) == s2;
    assert StepSafe(b.instructions[2], s2);
    assert UnsafeResults(f, b, locals, 0) == {};
    assert UnsafeResults(f, b, locals, 1) == {};
    assert UnsafeResults(f, b, locals, 2) == {};
  }
}
