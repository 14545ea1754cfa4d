/** Two accepted functions that show the conditions of the safety theorems are needed. */
module BytecodeExamples {
  import opened Scalars
  import opened Bytecode
  import opened BytecodeRuns
  import opened BytecodeSafety
  import AotExamples
  import Mir
  import Ssa

  function Op(opcode: Opcode, result: int, operands: seq<int>): Instruction {
    Instruction(opcode, result, operands, 0, 0, 0, false, true)
  }

  function OneBlock(types: seq<PrimitiveType>, parameters: seq<PrimitiveType>, locals: seq<PrimitiveType>,
                    code: seq<Instruction>, value: int): Function
    requires |types| > 0
  {
    Function(types[0], parameters, locals, types, [BasicBlock(0, [], code, Mir.ReturnValue(value))])
  }

  /** uint f(uint a) { return -a; } */
  function NegateFunction(): Function {
    OneBlock([UInt, UInt], [UInt], [], [Op(LoadParameter, 0, []), Op(Negate(IntCarrier), 1, [0])], 1)
  }

  /** A function that returns a local it never stores. */
  function UnsetLocalFunction(): Function {
    OneBlock([Int], [], [Int], [Op(LoadLocal, 0, [])], 0)
  }

  lemma NegateDefinitions()
    ensures var f := NegateFunction();
            Ssa.AllDefs(View(f)) == [(0, Ssa.Definition(0, 0, UInt)), (1, Ssa.Definition(0, 1, UInt))]
  {
    var view := View(NegateFunction());
    var b := view[0];
    var d0, d1 := Ssa.StepDef(b, 0), Ssa.StepDef(b, 1);
    assert Ssa.StepDefs(b, 1) == [d0];
    assert Ssa.StepDefs(b, 2) == [d0, d1];
    assert Ssa.DefsOf(view, 1) == Ssa.DefsOf(view, 0) + Ssa.ParamDefs(b, 0) + Ssa.StepDefs(b, 2);
  }

  lemma NegateValid()
    ensures Ssa.Valid(View(NegateFunction())) && AllDefined(NegateFunction())
  {
    hide Ssa.Valid, Ssa.AllDefs;
    var f := NegateFunction();
    var view := View(f);
    NegateDefinitions();
    var defs := Ssa.AllDefs(view);
    assert defs[0] in defs && defs[1] in defs;
    assert HasDefinition(f, 0) && HasDefinition(f, 1);
    var b := view[0];
    assert b.steps[0].def.reg == 0 && b.steps[1].def.reg == 1;
    assert AotExamples.DefinedEarlier(b, 1, 0) && AotExamples.DefinedEarlier(b, 2, 1);
    AotExamples.OneBlockValid(view);
  }

  lemma NegateAccepted()
    ensures Accepted(NegateFunction())
  {
    hide Ssa.Valid, AllDefined;
    NegateValid();
    var f := NegateFunction();
    assert InstructionOk(f, f.blocks[0].instructions[0]) && InstructionOk(f, f.blocks[0].instructions[1]);
    assert BlockOk(f, f.blocks[0]);
  }

  lemma UnsetLocalValid()
    ensures Ssa.Valid(View(UnsetLocalFunction())) && AllDefined(UnsetLocalFunction())
  {
    hide Ssa.Valid;
    var f := UnsetLocalFunction();
    var view := View(f);
    var b := view[0];
    var d0 := Ssa.StepDef(b, 0);
    assert Ssa.StepDefs(b, 1) == [d0];
    assert Ssa.DefsOf(view, 1) == Ssa.DefsOf(view, 0) + Ssa.ParamDefs(b, 0) + Ssa.StepDefs(b, 1);
    assert Ssa.AllDefs(view) == [d0];
    assert (0, d0.1) == d0;
    assert HasDefinition(f, 0);
    assert b.steps[0].def.reg == 0 && AotExamples.DefinedEarlier(b, 1, 0);
    AotExamples.OneBlockValid(view);
  }

  lemma UnsetLocalAccepted()
    ensures Accepted(UnsetLocalFunction())
  {
    hide Ssa.Valid, AllDefined;
    UnsetLocalValid();
    var f := UnsetLocalFunction();
    assert InstructionOk(f, f.blocks[0].instructions[0]);
    assert BlockOk(f, f.blocks[0]);
  }

  /** The verifier accepts the negation of an unsigned value; every call of it fails. */
  lemma UnsignedNegationFails(fpu: FloatUnit, a: int, stale: seq<Value>)
    ensures var f := NegateFunction();
            Accepted(f) && EntryTakesNothing(f) &&
            After(Machine(fpu, [Whole(UInt, a)], 10, stale, stale), f, 2) == Finished(Failed(TypeMismatch))
  {
    NegateAccepted();
    hide Accepted;
    var f := NegateFunction();
    var m := Machine(fpu, [Whole(UInt, a)], 10, stale, stale);
    assert Ssa.IndexOf(View(f), 0) == 0;
    var s0, s1 := After(m, f, 0), After(m, f, 1);
    assert s0 == At(0, 0, Frame(map[], []), 0);
    assert s1 == Step(m, f, s0) && s1.frame.registers[0].value == Whole(UInt, a);
    assert After(m, f, 2) == Step(m, f, s1);
  }

  /** An accepted function hands out what another call left behind in its local's slot. */
  lemma LeftoverLocalEscapes(fpu: FloatUnit, left: int)
    ensures var f := UnsetLocalFunction();
            Accepted(f) && EntryTakesNothing(f) &&
            After(Machine(fpu, [], 10, [Whole(Int, left)], []), f, 2) == Finished(Returned(Whole(Int, left))) &&
            After(Machine(fpu, [], 10, [], []), f, 2) == Finished(Failed(TypeMismatch))
  {
    UnsetLocalAccepted();
    UnsetLocalRun(Machine(fpu, [], 10, [Whole(Int, left)], []));
    UnsetLocalRun(Machine(fpu, [], 10, [], []));
  }

  lemma UnsetLocalRun(m: Machine)
    requires m.args == [] && m.budget == 10
    ensures var v := SlotOr(m.staleLocals, 0, Unset);
            After(m, UnsetLocalFunction(), 2) ==
              Finished(if HasType(v, Int) then Returned(v) else Failed(TypeMismatch))
  {
    var f := UnsetLocalFunction();
    assert Ssa.IndexOf(View(f), 0) == 0;
    var s0, s1 := After(m, f, 0), After(m, f, 1);
    assert s0.At? && s0.frame.locals == [SlotOr(m.staleLocals, 0, Unset)];
    assert s1 == Step(m, f, s0) && s1.frame.registers[0].value == s0.frame.locals[0];
    assert After(m, f, 2) == Step(m, f, s1);
  }
}
