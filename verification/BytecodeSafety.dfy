/** What acceptance by the bytecode verifier buys along every run. */
module BytecodeSafety {
  import opened Options
  import opened Scalars
  import opened Bytecode
  import opened BytecodeRuns
  import Mir
  import Ssa

  // ----- reads follow writes -----

  /** The step from s may read register r. */
  ghost predicate Reads(m: Machine, f: Function, s: State, r: int)
    requires InBounds(f, s) && s.At?
  {
    var b := f.blocks[s.block];
    if s.index < |b.instructions| then r in b.instructions[s.index].operands
    else r in Mir.TerminatorUses(b.terminator) ||
         exists e :: 0 <= e < |Mir.EdgesOf(b.terminator)| && r in Mir.EdgesOf(b.terminator)[e].args
  }

  /** r is a parameter of bb0, to which the caller passes nothing. */
  predicate EntryParameter(f: Function, r: int) {
    var entry := BlockIndex(f, 0);
    entry >= 0 && exists j :: 0 <= j < |f.blocks[entry].parameters| && f.blocks[entry].parameters[j].value == r
  }

  /** The state stands at the start of bb0. */
  predicate AtEntry(f: Function, s: State) {
    s.At? && s.block as int == BlockIndex(f, 0) && s.index == 0
  }

  /** Within the first n steps an edge has led back to bb0. */
  ghost predicate Reentered(m: Machine, f: Function, n: nat) {
    exists k: nat :: 1 <= k <= n && AtEntry(f, After(m, f, k))
  }

  /** Registers were written by their definitions; those a use may name have been, but for the
      parameters of bb0, which are written when an edge leads back there and not before. */
  ghost predicate WrittenSoFar(f: Function, s: State, reentered: bool)
    requires InBounds(f, s)
  {
    s.At? ==>
      && (forall r :: r in s.frame.registers ==> (r, s.frame.registers[r].writer) in Ssa.AllDefs(View(f)))
      && (forall r :: Ssa.Available(View(f), f.blocks[s.block].id, s.index, r) ==>
            r in s.frame.registers || (!reentered && EntryParameter(f, r)))
      && (!reentered ==> forall r :: r in s.frame.registers ==>
            s.frame.registers[r].writer.block != 0 || s.frame.registers[r].writer.index >= 0)
  }

  /** With no parameters on bb0: every register a use may name has been written. */
  ghost predicate WellWritten(f: Function, s: State)
    requires InBounds(f, s)
  {
    s.At? ==>
      && (forall r :: r in s.frame.registers ==> (r, s.frame.registers[r].writer) in Ssa.AllDefs(View(f)))
      && (forall r :: Ssa.Available(View(f), f.blocks[s.block].id, s.index, r) ==> r in s.frame.registers)
  }

  lemma StartWritten(m: Machine, f: Function)
    requires Accepted(f)
    ensures WrittenSoFar(f, Start(m, f), false)
  {
    var s := Start(m, f);
    if s.At? {
      forall r | Ssa.Available(View(f), 0, 0, r) ensures EntryParameter(f, r) {
        Ssa.EntryAvailability(View(f), s.block, r);
        var j :| 0 <= j < |View(f)[s.block].params| && View(f)[s.block].params[j].reg == r;
        assert f.blocks[s.block].parameters[j].value == r;
      }
    }
  }

  lemma InstructionWritten(m: Machine, f: Function, s: State, reentered: bool)
    requires Accepted(f) && BeforeInstruction(m, f, s) && WrittenSoFar(f, s, reentered)
    ensures WrittenSoFar(f, AfterInstruction(m, f, s), reentered)
  {
    hide Evaluate, Ssa.Valid, Ssa.Available, BlockOk, TablesOk, AllDefined, EntryParameter;
    var t := AfterInstruction(m, f, s);
    var view, b, i := View(f), f.blocks[s.block], Current(m, f, s);
    if t.At? {
      assert view[s.block].steps[s.index] == StepOf(f, i);
      forall r | Ssa.Available(view, b.id, t.index, r)
        ensures r in t.frame.registers || (!reentered && EntryParameter(f, r))
      {
        Ssa.StepAvailability(view, s.block, s.index, r);
      }
      if !i.opcode.StoreLocal? {
        var def := Ssa.StepDef(view[s.block], s.index);
        Ssa.BlockDefShape(view[s.block], |view[s.block].params|, |view[s.block].steps|, def);
        Ssa.DefMembership(view, s.block, def);
      }
    }
  }

  function ParamWriter(b: BasicBlock, j: nat): Ssa.Definition
    requires j < |b.parameters|
  {
    Ssa.Definition(b.id, -1, b.parameters[j].ty)
  }

  /** An edge writes its target's parameters and nothing else. */
  lemma {:induction false} AssignWrites(
    registers: map<int, Written>, b: BasicBlock, saved: seq<Value>, n: nat, r: int)
    requires n <= |b.parameters| && n <= |saved|
    ensures var after := Assign(registers, b, saved, n);
            (r in after <==> r in registers || exists j :: 0 <= j < n && b.parameters[j].value == r) &&
            (r in after ==>
               (r in registers && after[r] == registers[r]) ||
               exists j :: 0 <= j < n && b.parameters[j].value == r &&
                 after[r] == Written(saved[j], ParamWriter(b, j)))
  {
    if n > 0 { AssignWrites(registers, b, saved, n - 1, r); }
  }

  lemma EdgeWritten(m: Machine, f: Function, s: State, e: nat, reentered: bool)
    requires Accepted(f) && InBounds(f, s) && s.At? && s.index == |f.blocks[s.block].instructions|
    requires WrittenSoFar(f, s, reentered) && e < |Mir.EdgesOf(f.blocks[s.block].terminator)|
    ensures var edge := Mir.EdgesOf(f.blocks[s.block].terminator)[e];
            var t := Take(m, f, s, edge.target, edge.args);
            WrittenSoFar(f, t, reentered || AtEntry(f, t))
  {
    hide Ssa.Valid, Ssa.Available, BlockOk, TablesOk, AllDefined, Read;
    var edge := Mir.EdgesOf(f.blocks[s.block].terminator)[e];
    var t := Take(m, f, s, edge.target, edge.args);
    if t.At? {
      var view := View(f);
      var target := f.blocks[t.block];
      var saved := Saved(m, s.frame, edge.args);
      forall r | Ssa.Available(view, target.id, 0, r)
        ensures r in t.frame.registers || (!reentered && !AtEntry(f, t) && EntryParameter(f, r))
      {
        AssignWrites(s.frame.registers, target, saved, |saved|, r);
        Ssa.EdgeAvailability(view, s.block, e, t.block, r);
        if j :| 0 <= j < |view[t.block].params| && view[t.block].params[j].reg == r {
          assert target.parameters[j].value == r;
        }
      }
      forall r | r in t.frame.registers
        ensures (r, t.frame.registers[r].writer) in Ssa.AllDefs(view)
        ensures !reentered && !AtEntry(f, t) ==> t.frame.registers[r].writer.block != 0 || t.frame.registers[r].writer.index >= 0
      {
        AssignWrites(s.frame.registers, target, saved, |saved|, r);
        if j :| 0 <= j < |saved| && target.parameters[j].value == r && t.frame.registers[r].writer == ParamWriter(target, j)
        {
          var def := Ssa.ParamDef(view[t.block], j);
          Ssa.BlockDefShape(view[t.block], |view[t.block].params|, |view[t.block].steps|, def);
          Ssa.DefMembership(view, t.block, def);
        }
      }
    }
  }

  lemma TerminatorWritten(m: Machine, f: Function, s: State, reentered: bool)
    requires Accepted(f) && InBounds(f, s) && s.At? && s.index == |f.blocks[s.block].instructions|
    requires WrittenSoFar(f, s, reentered)
    ensures WrittenSoFar(f, AfterTerminator(m, f, s), reentered || AtEntry(f, AfterTerminator(m, f, s)))
  {
    hide Accepted, WrittenSoFar, Take, Read, AtEntry;
    var t := f.blocks[s.block].terminator;
    if t.Jump? {
      EdgeWritten(m, f, s, 0, reentered);
    } else if t.Branch? {
      EdgeWritten(m, f, s, 0, reentered);
      EdgeWritten(m, f, s, 1, reentered);
    }
    FinishedWritten(f, AfterTerminator(m, f, s), reentered || AtEntry(f, AfterTerminator(m, f, s)));
  }

  lemma FinishedWritten(f: Function, s: State, reentered: bool)
    requires InBounds(f, s)
    ensures s.Finished? ==> WrittenSoFar(f, s, reentered)
  {
  }

  lemma ReentersLast(m: Machine, f: Function, n: nat)
    requires n > 0
    ensures Reentered(m, f, n) <==> Reentered(m, f, n - 1) || AtEntry(f, After(m, f, n))
  {
    hide After, AtEntry;
    if AtEntry(f, After(m, f, n)) { assert 1 <= n <= n; }
  }

  lemma {:induction false} AlwaysWritten(m: Machine, f: Function, n: nat)
    requires Accepted(f)
    ensures WrittenSoFar(f, After(m, f, n), Reentered(m, f, n))
  {
    hide Accepted, WrittenSoFar, AfterInstruction, AfterTerminator, Reentered;
    if n == 0 {
      StartWritten(m, f);
      NotYetReentered(m, f);
    } else {
      AlwaysWritten(m, f, n - 1);
      ReentersLast(m, f, n);
      var s, reentered := After(m, f, n - 1), Reentered(m, f, n - 1);
      FinishedWritten(f, After(m, f, n), Reentered(m, f, n));
      if BeforeInstruction(m, f, s) {
        InstructionWritten(m, f, s, reentered);
        PastTheStart(m, f, s);
      } else if s.At? && s.executed < m.budget {
        TerminatorWritten(m, f, s, reentered);
      }
    }
  }

  lemma NotYetReentered(m: Machine, f: Function)
    ensures !Reentered(m, f, 0)
  {
  }

  lemma PastTheStart(m: Machine, f: Function, s: State)
    requires BeforeInstruction(m, f, s)
    ensures !AtEntry(f, AfterInstruction(m, f, s))
  {
  }

  lemma AlwaysWellWritten(m: Machine, f: Function, n: nat)
    requires Accepted(f) && EntryTakesNothing(f)
    ensures WellWritten(f, After(m, f, n))
  {
    hide Accepted, After;
    AlwaysWritten(m, f, n);
  }

  lemma ReadsAreAvailable(m: Machine, f: Function, s: State, r: int)
    requires Ssa.Valid(View(f)) && InBounds(f, s) && s.At? && Reads(m, f, s, r)
    ensures Ssa.Available(View(f), f.blocks[s.block].id, s.index, r)
  {
    hide Ssa.Available;
    var view := View(f);
    var b := view[s.block];
    assert Ssa.UsesAvailable(view, s.block);
    if s.index < |b.steps| {
      var u :| 0 <= u < |b.steps[s.index].uses| && b.steps[s.index].uses[u] == r;
    } else if r in b.termUses {
      var u :| 0 <= u < |b.termUses| && b.termUses[u] == r;
    } else {
      var e :| 0 <= e < |b.edges| && r in b.edges[e].args;
      var u :| 0 <= u < |b.edges[e].args| && b.edges[e].args[u] == r;
    }
  }

  lemma WriterIsUnique(blocks: seq<Ssa.Block>, r: int, d: Ssa.Definition, other: Ssa.Definition)
    requires Ssa.Valid(blocks) && (r, d) in Ssa.AllDefs(blocks) && (r, other) in Ssa.AllDefs(blocks)
    ensures d == other
  {
    Ssa.TypeOfDefinition(Ssa.AllDefs(blocks), (r, d));
    var j :| 0 <= j < |Ssa.AllDefs(blocks)| && Ssa.AllDefs(blocks)[j] == (r, d);
    var k :| 0 <= k < |Ssa.AllDefs(blocks)| && Ssa.AllDefs(blocks)[k] == (r, other);
    if j < k { assert Ssa.AllDefs(blocks)[j].0 != Ssa.AllDefs(blocks)[k].0; }
  }

  /** In every run of an accepted function, a register that is read was not written before on that run
      if and only if it is a parameter of bb0 and no edge has led back there yet. */
  lemma UnwrittenExactly(m: Machine, f: Function, n: nat, r: int)
    requires Accepted(f) && After(m, f, n).At? && Reads(m, f, After(m, f, n), r)
    ensures r !in After(m, f, n).frame.registers <==> EntryParameter(f, r) && !Reentered(m, f, n)
  {
    hide After, Reads, Reentered, Ssa.Available;
    var s, view := After(m, f, n), View(f);
    AlwaysWritten(m, f, n);
    ReadsAreAvailable(m, f, s, r);
    if EntryParameter(f, r) && r in s.frame.registers {
      var entry := BlockIndex(f, 0);
      var j :| 0 <= j < |f.blocks[entry].parameters| && f.blocks[entry].parameters[j].value == r;
      var def := Ssa.ParamDef(view[entry], j);
      Ssa.BlockDefShape(view[entry], |view[entry].params|, |view[entry].steps|, def);
      Ssa.DefMembership(view, entry, def);
      WriterIsUnique(view, r, def.1, s.frame.registers[r].writer);
    }
  }

  /** So with no parameters on bb0 every register that is read
      was written before on that run, by the one definition it has. */
  lemma ReadsFollowWrites(m: Machine, f: Function, n: nat, r: int)
    requires Accepted(f) && EntryTakesNothing(f)
    requires After(m, f, n).At? && Reads(m, f, After(m, f, n), r)
    ensures var registers := After(m, f, n).frame.registers;
            r in registers && (r, registers[r].writer) in Ssa.AllDefs(View(f)) &&
            forall d :: (r, d) in Ssa.AllDefs(View(f)) ==> d == registers[r].writer
  {
    var s := After(m, f, n);
    AlwaysWellWritten(m, f, n);
    ReadsAreAvailable(m, f, s, r);
    forall d | (r, d) in Ssa.AllDefs(View(f)) ensures d == s.frame.registers[r].writer {
      WriterIsUnique(View(f), r, d, s.frame.registers[r].writer);
    }
  }

  /** So what an earlier call left in the arena's register slots never matters. */
  lemma {:induction false} StaleRegistersNeverMatter(m: Machine, f: Function, n: nat, other: seq<Value>)
    requires Accepted(f) && EntryTakesNothing(f)
    ensures After(m.(staleRegisters := other), f, n) == After(m, f, n)
  {
    var m' := m.(staleRegisters := other);
    if n > 0 {
      StaleRegistersNeverMatter(m, f, n - 1, other);
      var s := After(m, f, n - 1);
      if s.At? {
        forall r | Reads(m, f, s, r) ensures Read(m', s.frame, r) == Read(m, s.frame, r) {
          ReadsFollowWrites(m, f, n - 1, r);
        }
        StepReadsOnly(m, m', f, s);
      }
    }
  }

  /** A step depends on nothing but the arguments, the locals and the registers it reads. */
  lemma StepReadsOnly(m: Machine, m': Machine, f: Function, s: State)
    requires InBounds(f, s) && s.At? && m' == m.(staleRegisters := m'.staleRegisters)
    requires forall r :: Reads(m, f, s, r) ==> Read(m', s.frame, r) == Read(m, s.frame, r)
    ensures Step(m', f, s) == Step(m, f, s)
  {
    hide Read;
    var b := f.blocks[s.block];
    if s.index < |b.instructions| {
      var i := b.instructions[s.index];
      assert forall u :: 0 <= u < |i.operands| ==> Reads(m, f, s, i.operands[u]);
      assert Operand(m', s.frame, i, 0) == Operand(m, s.frame, i, 0);
      assert Operand(m', s.frame, i, 1) == Operand(m, s.frame, i, 1);
      assert Evaluate(m', f, i, s.frame) == Evaluate(m, f, i, s.frame);
    } else {
      var t := b.terminator;
      assert forall u :: 0 <= u < |Mir.TerminatorUses(t)| ==> Reads(m, f, s, Mir.TerminatorUses(t)[u]);
      forall e | 0 <= e < |Mir.EdgesOf(t)|
        ensures Saved(m', s.frame, Mir.EdgesOf(t)[e].args) == Saved(m, s.frame, Mir.EdgesOf(t)[e].args)
      {
        var args := Mir.EdgesOf(t)[e].args;
        assert forall u :: 0 <= u < |args| ==> Reads(m, f, s, args[u]);
      }
      if t.Branch? {
        assert Reads(m, f, s, Mir.TerminatorUses(t)[0]);
        assert Mir.EdgesOf(t)[0].args == t.arguments && Mir.EdgesOf(t)[1].args == t.falseArguments;
      } else if t.Jump? {
        assert Mir.EdgesOf(t)[0].args == t.arguments;
      } else if t.ReturnValue? {
        assert Reads(m, f, s, Mir.TerminatorUses(t)[0]);
      }
    }
  }

  // ----- registers hold their types -----

  /** A value of type t; when fit is set, an integer within the range of t too. */
  predicate Conforms(fit: bool, v: Value, t: PrimitiveType) {
    HasType(v, t) && (fit && v.Whole? ==> InRange(t, v.n))
  }

  /** Nothing in the verifier keeps an int constant within 32 bits. */
  predicate ConstantsFit(f: Function) {
    forall b, k | 0 <= b < |f.blocks| && 0 <= k < |f.blocks[b].instructions| ::
      var i := f.blocks[b].instructions[k];
      i.opcode.ConstantInt? ==> InRange(if RegisterType(f, i.result).Long? then Long else Int, i.integerImmediate)
  }

  predicate ArgumentsFit(m: Machine) {
    forall p | 0 <= p < |m.args| :: m.args[p].Whole? && IsIntegral(m.args[p].ty) ==> InRange(m.args[p].ty, m.args[p].n)
  }

  /** The step from s loads a local that holds nothing of its declared type. */
  predicate LoadsForeign(fit: bool, m: Machine, f: Function, s: State) {
    BeforeInstruction(m, f, s) && Current(m, f, s).opcode.LoadLocal? &&
    var slot := Current(m, f, s).index;
    slot < |s.frame.locals| && slot < |f.localTypes| && !Conforms(fit, s.frame.locals[slot], f.localTypes[slot])
  }

  /** Every written register holds a value of its type; every local holds one too, or what the
      slot held before the call. */
  predicate WellTyped(fit: bool, m: Machine, f: Function, s: State) {
    s.At? ==>
      && (forall r | r in s.frame.registers ::
            0 <= r < |f.registerTypes| && Conforms(fit, s.frame.registers[r].value, f.registerTypes[r]))
      && |s.frame.locals| == |f.localTypes|
      && (forall k | 0 <= k < |f.localTypes| ::
            Conforms(fit, s.frame.locals[k], f.localTypes[k]) || s.frame.locals[k] == SlotOr(m.staleLocals, k, Unset))
  }

  /** Verified code that the interpreter refuses: its negations know no unsigned type. */
  predicate NegatesUnsigned(f: Function, i: Instruction) {
    i.opcode.Negate? && (OperandType(f, i, 0).UInt? || OperandType(f, i, 0).ULong?)
  }

  /** An evaluation of type t that fails with a type mismatch exactly when told to. */
  predicate Sound(fit: bool, e: Evaluation, t: PrimitiveType, mismatch: bool) {
    match e
    case Yields(v) => Conforms(fit, v, t) && !mismatch
    case Fails(code) =>
      if mismatch then code.TypeMismatch? else code.DivisionByZero? || code.IntegerOverflow?
  }

  lemma QuotientInRange(t: PrimitiveType, a: int, b: int)
    requires IsIntegral(t) && InRange(t, a) && InRange(t, b) && b != 0
    requires !(Low(t) < 0 && a == Low(t) && b == -1)
    ensures InRange(t, TruncDiv(a, b)) && InRange(t, TruncMod(a, b))
  {
    NatDivMod(Abs(a), Abs(b));
    if b == 1 || b == -1 { assert Abs(a) / 1 == Abs(a); }
  }

  lemma ArithmeticSound(fit: bool, t: PrimitiveType, checked: bool, op: Arithmetic, a: int, b: int)
    requires IsIntegral(t) && (fit ==> InRange(t, a) && InRange(t, b))
    ensures Sound(fit, IntegerArithmetic(t, checked, op, a, b), t, false)
  {
    if fit && b != 0 && !(Low(t) < 0 && a == Low(t) && b == -1) { QuotientInRange(t, a, b); }
  }

  lemma WorksAtItsType(f: Function, i: Instruction, c: Carrier, left: Value)
    requires Carries(c, OperandType(f, i, 0)) && HasType(left, OperandType(f, i, 0))
    requires OperandType(f, i, 1) == OperandType(f, i, 0)
    ensures WorkingType(f, i, c, left) == OperandType(f, i, 0)
  {
  }

  lemma TruncateInRange(x: real, low: int, high: int)
    requires low <= 0 <= high && low as real <= x <= high as real
    ensures low <= Truncate(x) <= high
  {
  }

  lemma ConversionSound(fit: bool, m: Machine, x: Value, from: PrimitiveType, to: PrimitiveType, checked: bool)
    requires HasType(x, from) && IsNumeric(from) && IsNumeric(to)
    ensures Sound(fit, ConvertValue(m, x, to, checked), to, false)
  {
    hide Wrap, Truncate;
    if x.Whole? { FromWholeSound(fit, m, x, from, to, checked); } else { FromFloatingSound(fit, m, x, from, to, checked); }
  }

  lemma FromWholeSound(fit: bool, m: Machine, x: Value, from: PrimitiveType, to: PrimitiveType, checked: bool)
    requires HasType(x, from) && IsNumeric(from) && IsNumeric(to) && x.Whole?
    ensures Sound(fit, ConvertValue(m, x, to, checked), to, false)
  {
    hide Wrap, Truncate;
  }

  lemma FromFloatingSound(fit: bool, m: Machine, x: Value, from: PrimitiveType, to: PrimitiveType, checked: bool)
    requires HasType(x, from) && IsNumeric(from) && IsNumeric(to) && x.Floating?
    ensures Sound(fit, ConvertValue(m, x, to, checked), to, false)
  {
    hide Wrap, Truncate;
    if IsIntegral(to) {
      var number := m.fpu.number(x.ty, x.bits);
      if number.Some? && Low(to) as real <= number.value <= High(to) as real {
        TruncateInRange(number.value, Low(to), High(to));
      }
    }
  }

  ghost predicate OperandsConform(fit: bool, m: Machine, f: Function, i: Instruction, fr: Frame) {
    (|i.operands| > 0 ==> Conforms(fit, Operand(m, fr, i, 0), OperandType(f, i, 0))) &&
    (|i.operands| > 1 ==> Conforms(fit, Operand(m, fr, i, 1), OperandType(f, i, 1)))
  }

  lemma ComputeSound(fit: bool, m: Machine, f: Function, i: Instruction, fr: Frame)
    requires InstructionOk(f, i) && OperandsConform(fit, m, f, i, fr) && (i.opcode.Compute? || i.opcode.Compare?)
    ensures Sound(fit, Evaluate(m, f, i, fr), RegisterType(f, i.result), false)
  {
    hide IntegerArithmetic;
    var x, y := Operand(m, fr, i, 0), Operand(m, fr, i, 1);
    WorksAtItsType(f, i, i.opcode.carrier, x);
    if i.opcode.Compute? && x.Whole? {
      ArithmeticSound(fit, x.ty, i.checkedArithmetic, i.opcode.op, x.n, y.n);
    }
  }

  lemma UnarySound(fit: bool, m: Machine, f: Function, i: Instruction, fr: Frame)
    requires InstructionOk(f, i) && OperandsConform(fit, m, f, i, fr)
    requires i.opcode.Negate? || i.opcode.ConvertNumeric? || i.opcode.LogicalNot? || i.opcode.Equal? || i.opcode.NotEqual? ||
             i.opcode.ConvertIntToLong? || i.opcode.ConvertIntToDouble? || i.opcode.ConvertLongToDouble?
    ensures Sound(fit, Evaluate(m, f, i, fr), RegisterType(f, i.result), NegatesUnsigned(f, i))
  {
    hide ConvertValue;
    var x := Operand(m, fr, i, 0);
    if i.opcode.ConvertNumeric? {
      ConversionSound(fit, m, x, OperandType(f, i, 0), RegisterType(f, i.result), i.checkedArithmetic);
    }
  }

  lemma LoadSound(fit: bool, m: Machine, f: Function, s: State)
    requires Accepted(f) && BeforeInstruction(m, f, s) && WellTyped(fit, m, f, s) && ArgumentsMatch(m, f)
    requires fit ==> ConstantsFit(f) && ArgumentsFit(m)
    requires InstructionOk(f, Current(m, f, s)) && !LoadsForeign(fit, m, f, s)
    requires var op := Current(m, f, s).opcode;
             op.LoadParameter? || op.LoadLocal? || op.ConstantInt? || op.ConstantDouble? || op.ConstantBool?
    ensures var i := Current(m, f, s); Sound(fit, Evaluate(m, f, i, s.frame), RegisterType(f, i.result), false)
  {
    var i := Current(m, f, s);
    if i.opcode.LoadParameter? {
      assert HasType(m.args[i.index], f.parameterTypes[i.index]);
    }
  }

  lemma OperandsHold(fit: bool, m: Machine, f: Function, s: State)
    requires Accepted(f) && BeforeInstruction(m, f, s) && WellWritten(f, s) && WellTyped(fit, m, f, s)
    ensures OperandsConform(fit, m, f, Current(m, f, s), s.frame)
  {
    var i := Current(m, f, s);
    forall u | 0 <= u < |i.operands|
      ensures Conforms(fit, Operand(m, s.frame, i, u), OperandType(f, i, u))
    {
      assert Reads(m, f, s, i.operands[u]);
      ReadsAreAvailable(m, f, s, i.operands[u]);
    }
  }

  /** Before an instruction of a typed state: what it yields has the type of its register, and it
      meets a type mismatch exactly when it negates an unsigned value. */
  lemma EvaluationSound(fit: bool, m: Machine, f: Function, s: State)
    requires Accepted(f) && BeforeInstruction(m, f, s) && WellWritten(f, s) && WellTyped(fit, m, f, s)
    requires ArgumentsMatch(m, f) && (fit ==> ConstantsFit(f) && ArgumentsFit(m))
    requires !LoadsForeign(fit, m, f, s) && !Current(m, f, s).opcode.StoreLocal?
    ensures var i := Current(m, f, s);
            Sound(fit, Evaluate(m, f, i, s.frame), RegisterType(f, i.result), NegatesUnsigned(f, i))
  {
    hide Evaluate, Sound, WellWritten, Conforms;
    var i := Current(m, f, s);
    assert BlockOk(f, f.blocks[s.block]);
    assert InstructionOk(f, i);
    OperandsHold(fit, m, f, s);
    if i.opcode.Compute? || i.opcode.Compare? {
      ComputeSound(fit, m, f, i, s.frame);
    } else if i.opcode.LoadParameter? || i.opcode.LoadLocal? || i.opcode.ConstantInt? || i.opcode.ConstantDouble? || i.opcode.ConstantBool? {
      LoadSound(fit, m, f, s);
    } else {
      UnarySound(fit, m, f, i, s.frame);
    }
  }

  /** How an instruction may end the run. */
  predicate Fault(r: Result, mismatch: bool) {
    r.Failed? && if mismatch then r.code.TypeMismatch? else r.code.DivisionByZero? || r.code.IntegerOverflow?
  }

  lemma StartWellTyped(fit: bool, m: Machine, f: Function)
    ensures WellTyped(fit, m, f, Start(m, f))
    ensures Start(m, f).At? ==> ArgumentsMatch(m, f)
  {
  }

  lemma InstructionWellTyped(fit: bool, m: Machine, f: Function, s: State)
    requires Accepted(f) && BeforeInstruction(m, f, s) && WellWritten(f, s) && WellTyped(fit, m, f, s)
    requires ArgumentsMatch(m, f) && (fit ==> ConstantsFit(f) && ArgumentsFit(m))
    requires !LoadsForeign(fit, m, f, s)
    ensures var t := AfterInstruction(m, f, s);
            WellTyped(fit, m, f, t) && (t.Finished? ==> Fault(t.result, NegatesUnsigned(f, Current(m, f, s))))
  {
    hide Evaluate, WellWritten, Conforms, ArgumentsMatch, ConstantsFit, ArgumentsFit, TerminatorOk, TablesOk, AllDefined,
        Ssa.Valid;
    var i := Current(m, f, s);
    assert BlockOk(f, f.blocks[s.block]);
    assert InstructionOk(f, i);
    if i.opcode.StoreLocal? {
      OperandsHold(fit, m, f, s);
    } else {
      EvaluationSound(fit, m, f, s);
      assert View(f)[s.block].steps[s.index] == StepOf(f, i);
      Ssa.StepType(View(f), s.block, s.index);
    }
  }

  lemma EdgeWellTyped(fit: bool, m: Machine, f: Function, s: State, e: nat)
    requires Accepted(f) && InBounds(f, s) && s.At? && s.index == |f.blocks[s.block].instructions|
    requires WellWritten(f, s) && WellTyped(fit, m, f, s) && e < |Mir.EdgesOf(f.blocks[s.block].terminator)|
    ensures var edge := Mir.EdgesOf(f.blocks[s.block].terminator)[e];
            var t := Take(m, f, s, edge.target, edge.args);
            t.At? && WellTyped(fit, m, f, t)
  {
    hide Conforms, WellWritten, Ssa.Valid, AllDefined, TablesOk;
    var edge := Mir.EdgesOf(f.blocks[s.block].terminator)[e];
    assert BlockOk(f, f.blocks[s.block]);
    assert EdgeOk(f, edge.target, edge.args);
    var t := Take(m, f, s, edge.target, edge.args);
    var target := f.blocks[t.block];
    assert BlockOk(f, target);
    var saved := Saved(m, s.frame, edge.args);
    forall j | 0 <= j < |saved|
      ensures Conforms(fit, saved[j], target.parameters[j].ty) && 0 <= target.parameters[j].value < |f.registerTypes|
      ensures RegisterType(f, target.parameters[j].value) == target.parameters[j].ty
    {
      SavedHolds(fit, m, f, s, e, j);
      Ssa.ParamType(View(f), t.block, j);
      assert target.parameters[j].value == View(f)[t.block].params[j].reg;
    }
    forall r | r in t.frame.registers
      ensures 0 <= r < |f.registerTypes| && Conforms(fit, t.frame.registers[r].value, f.registerTypes[r])
    {
      AssignWrites(s.frame.registers, target, saved, |saved|, r);
    }
  }

  lemma SavedHolds(fit: bool, m: Machine, f: Function, s: State, e: nat, j: nat)
    requires Accepted(f) && InBounds(f, s) && s.At? && s.index == |f.blocks[s.block].instructions|
    requires WellWritten(f, s) && WellTyped(fit, m, f, s) && e < |Mir.EdgesOf(f.blocks[s.block].terminator)|
    requires j < |Mir.EdgesOf(f.blocks[s.block].terminator)[e].args|
    ensures var arg := Mir.EdgesOf(f.blocks[s.block].terminator)[e].args[j];
            Conforms(fit, Read(m, s.frame, arg), RegisterType(f, arg))
  {
    var arg := Mir.EdgesOf(f.blocks[s.block].terminator)[e].args[j];
    assert arg in Mir.EdgesOf(f.blocks[s.block].terminator)[e].args;
    ReadsAreAvailable(m, f, s, arg);
  }

  lemma UseHolds(fit: bool, m: Machine, f: Function, s: State)
    requires Accepted(f) && InBounds(f, s) && s.At? && s.index == |f.blocks[s.block].instructions|
    requires WellWritten(f, s) && WellTyped(fit, m, f, s)
    requires |Mir.TerminatorUses(f.blocks[s.block].terminator)| > 0
    ensures var r := Mir.TerminatorUses(f.blocks[s.block].terminator)[0];
            Conforms(fit, Read(m, s.frame, r), RegisterType(f, r))
  {
    var r := Mir.TerminatorUses(f.blocks[s.block].terminator)[0];
    assert r in Mir.TerminatorUses(f.blocks[s.block].terminator);
    ReadsAreAvailable(m, f, s, r);
  }

  lemma NothingThrows(f: Function, b: nat)
    requires Accepted(f) && b < |f.blocks|
    ensures !f.blocks[b].terminator.Throw? && !f.blocks[b].terminator.NoTerminator?
  {
    hide Ssa.Valid, AllDefined, InstructionOk, EdgeOk;
    assert BlockOk(f, f.blocks[b]);
  }

  /** At the end of a block the run goes on, or returns what the function declares. */
  lemma TerminatorWellTyped(fit: bool, m: Machine, f: Function, s: State)
    requires Accepted(f) && InBounds(f, s) && s.At? && s.index == |f.blocks[s.block].instructions|
    requires WellWritten(f, s) && WellTyped(fit, m, f, s)
    ensures var t := AfterTerminator(m, f, s);
            WellTyped(fit, m, f, t) && (t.Finished? ==> t.result.Returned? && Delivers(fit, f, t.result.value))
  {
    hide Conforms, WellWritten, Take, Read, Ssa.Valid, AllDefined, TablesOk, WellTyped;
    var t := f.blocks[s.block].terminator;
    assert BlockOk(f, f.blocks[s.block]);
    NothingThrows(f, s.block);
    if t.Jump? {
      EdgeWellTyped(fit, m, f, s, 0);
    } else if t.Branch? {
      EdgeWellTyped(fit, m, f, s, 0);
      EdgeWellTyped(fit, m, f, s, 1);
      UseHolds(fit, m, f, s);
      ConformsHasType(fit, Read(m, s.frame, t.condition), Bool);
    } else if t.ReturnValue? {
      UseHolds(fit, m, f, s);
      ConformsHasType(fit, Read(m, s.frame, t.value), f.returnType);
    }
    FinishedWellTyped(fit, m, f, AfterTerminator(m, f, s));
  }

  lemma ConformsHasType(fit: bool, v: Value, t: PrimitiveType)
    requires Conforms(fit, v, t)
    ensures HasType(v, t)
  {
  }

  lemma FinishedWellTyped(fit: bool, m: Machine, f: Function, s: State)
    ensures s.Finished? ==> WellTyped(fit, m, f, s)
  {
  }

  predicate Delivers(fit: bool, f: Function, v: Value) {
    if f.returnType.Void? then v.Unset? else Conforms(fit, v, f.returnType)
  }

  ghost predicate NoForeignLoads(fit: bool, m: Machine, f: Function, n: nat) {
    forall k: nat :: k < n ==> !LoadsForeign(fit, m, f, After(m, f, k))
  }

  lemma {:induction false} StaysWellTyped(fit: bool, m: Machine, f: Function, n: nat)
    requires Accepted(f) && EntryTakesNothing(f) && (fit ==> ConstantsFit(f) && ArgumentsFit(m))
    requires NoForeignLoads(fit, m, f, n)
    ensures WellTyped(fit, m, f, After(m, f, n))
    ensures After(m, f, n).At? ==> ArgumentsMatch(m, f)
  {
    hide Accepted, EntryTakesNothing, WellTyped, LoadsForeign, AfterInstruction, AfterTerminator, ConstantsFit,
        ArgumentsFit, ArgumentsMatch;
    if n == 0 {
      StartWellTyped(fit, m, f);
    } else {
      StaysWellTyped(fit, m, f, n - 1);
      AlwaysWellWritten(m, f, n - 1);
      var s := After(m, f, n - 1);
      FinishedWellTyped(fit, m, f, After(m, f, n));
      if BeforeInstruction(m, f, s) {
        InstructionWellTyped(fit, m, f, s);
      } else if s.At? && s.executed < m.budget {
        TerminatorWellTyped(fit, m, f, s);
      }
    }
  }

  /** A foreign load puts the leftover value into a typed register. */
  lemma ForeignLoadBreaksTyping(fit: bool, m: Machine, f: Function, n: nat)
    requires Accepted(f) && LoadsForeign(fit, m, f, After(m, f, n))
    ensures !WellTyped(fit, m, f, After(m, f, n + 1))
  {
    var s := After(m, f, n);
    var i := Current(m, f, s);
    assert BlockOk(f, f.blocks[s.block]) && InstructionOk(f, i);
    var t := After(m, f, n + 1);
    assert t == AfterInstruction(m, f, s);
    assert t.frame.registers[i.result].value == s.frame.locals[i.index];
  }

  /** The registers hold values of their declared types throughout a run exactly as long as the run
      loads no slot whose content is not of the local's type.  BytecodeAssignment says which functions
      never do: definite assignment is the one thing about types the verifier does not check. */
  lemma TypesHoldExactly(fit: bool, m: Machine, f: Function, n: nat)
    requires Accepted(f) && EntryTakesNothing(f) && (fit ==> ConstantsFit(f) && ArgumentsFit(m))
    ensures (forall k: nat :: k <= n ==> WellTyped(fit, m, f, After(m, f, k))) <==> NoForeignLoads(fit, m, f, n)
  {
    hide Accepted, WellTyped, LoadsForeign, After;
    if NoForeignLoads(fit, m, f, n) {
      forall k: nat | k <= n ensures WellTyped(fit, m, f, After(m, f, k)) {
        StaysWellTyped(fit, m, f, k);
      }
    } else {
      var k: nat :| k < n && LoadsForeign(fit, m, f, After(m, f, k));
      ForeignLoadBreaksTyping(fit, m, f, k);
    }
  }

  /** With the slots of the locals typed beforehand, no load is foreign. */
  lemma {:induction false} TypedSlotsNeverForeign(fit: bool, m: Machine, f: Function, n: nat)
    requires Accepted(f) && EntryTakesNothing(f) && (fit ==> ConstantsFit(f) && ArgumentsFit(m))
    requires forall k :: 0 <= k < |f.localTypes| ==> Conforms(fit, SlotOr(m.staleLocals, k, Unset), f.localTypes[k])
    ensures NoForeignLoads(fit, m, f, n)
  {
    hide Accepted, After;
    if n > 0 {
      TypedSlotsNeverForeign(fit, m, f, n - 1);
      StaysWellTyped(fit, m, f, n - 1);
    }
  }

  /** How a step ends a run that has loaded no foreign local: a budget fault, an arithmetic fault, a
      value of the declared type, or a type mismatch, which happens exactly at the negation of an
      unsigned value; never an invalid program. */
  lemma RunsEndWell(fit: bool, m: Machine, f: Function, n: nat)
    requires Accepted(f) && EntryTakesNothing(f) && (fit ==> ConstantsFit(f) && ArgumentsFit(m))
    requires NoForeignLoads(fit, m, f, n + 1)
    requires After(m, f, n).At? && After(m, f, n + 1).Finished?
    ensures var s, r := After(m, f, n), After(m, f, n + 1).result;
            if s.executed >= m.budget then r == Failed(InstructionBudgetExceeded)
            else if BeforeInstruction(m, f, s) then Fault(r, NegatesUnsigned(f, Current(m, f, s)))
            else r.Returned? && Delivers(fit, f, r.value)
  {
    hide Accepted, WellTyped, LoadsForeign, AfterInstruction, AfterTerminator, ConstantsFit, ArgumentsFit,
        ArgumentsMatch, Fault, Delivers;
    var s := After(m, f, n);
    assert After(m, f, n + 1) == Step(m, f, s);
    AlwaysWellWritten(m, f, n);
    StaysWellTyped(fit, m, f, n);
    if BeforeInstruction(m, f, s) {
      InstructionWellTyped(fit, m, f, s);
    } else if s.executed < m.budget {
      TerminatorWellTyped(fit, m, f, s);
    }
  }
}
