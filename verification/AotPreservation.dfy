/** The typed lowering preserves meaning: for every verified function that gets it, every call ends
    as under the generic lowering, unless the run meets INT_MIN % -1 or uses a parameter of bb0 that
    nothing was passed to. */
module AotPreservation {
  import opened Scalars
  import opened Mir
  import opened AotSemantics
  import opened TypedRanges
  import opened RangeAnalysis
  import opened AotBatching
  import opened AotDepartures
  import Ssa

  // ----- frames that agree -----

  /** The same value, or one that is not set where the typed lowering has its zero; when strict,
      only the former. */
  predicate Alike(strict: bool, t: PrimitiveType, tv: Value, gv: Value) {
    gv == tv || (!strict && gv.Unit? && tv == TypeDefault(t))
  }

  /** Alike in every local, and in every register a use may read here. */
  ghost predicate Agree(strict: bool, f: Function, b: nat, k: nat, tf: Frame, gf: Frame)
    requires b < |f.blocks|
  {
    && |tf.locals| == |gf.locals| == |f.localTypes| && |tf.registers| == |gf.registers| == RegisterCount(f)
    && (forall s :: 0 <= s < |f.localTypes| ==> Alike(strict, f.localTypes[s], tf.locals[s], gf.locals[s]))
    && (forall v :: 0 <= v < RegisterCount(f) && Ssa.Available(View(f), f.blocks[b].id, k, v)
                    ==> Alike(strict, TypeOf(f, v), tf.registers[v], gf.registers[v]))
  }

  /** Two steps with the same effect: the same failure, or writes of like values to the same place. */
  ghost predicate SameEffect(strict: bool, f: Function, i: Instruction, tf: Frame, gf: Frame, t: StepResult, g: StepResult) {
    || (t.Fault? && g.Fault? && t.code == g.code)
    || (t.Next? && g.Next? && exists tv, gv :: Writes(strict, f, i, tf, gf, t.frame, g.frame, tv, gv))
  }

  predicate Writes(strict: bool, f: Function, i: Instruction, tf: Frame, gf: Frame, t: Frame, g: Frame, tv: Value, gv: Value) {
    if i.opcode.StoreLocal? then
      && i.localIndex < |f.localTypes| && Alike(strict, f.localTypes[i.localIndex], tv, gv)
      && t == SetLocal(tf, i.localIndex, tv) && g == SetLocal(gf, i.localIndex, gv)
    else
      Alike(strict, i.resultType, tv, gv) && t == SetRegister(tf, i.result, tv) && g == SetRegister(gf, i.result, gv)
  }

  lemma EffectIs(
    strict: bool, f: Function, i: Instruction, tf: Frame, gf: Frame, t: StepResult, g: StepResult, tv: Value, gv: Value)
    requires t.Next? && g.Next? && Writes(strict, f, i, tf, gf, t.frame, g.frame, tv, gv)
    ensures SameEffect(strict, f, i, tf, gf, t, g)
  {
  }

  ghost predicate OperandsAgree(i: Instruction, tf: Frame, gf: Frame) {
    forall u :: 0 <= u < |i.operands| ==> Operand(i, gf, u) == Operand(i, tf, u)
  }

  ghost predicate OperandsAlike(strict: bool, f: Function, i: Instruction, tf: Frame, gf: Frame) {
    forall u :: 0 <= u < |i.operands| ==> Alike(strict, TypeOf(f, i.operands[u]), Operand(i, tf, u), Operand(i, gf, u))
  }

  /** An elided check would have passed. */
  lemma ArithmeticAgrees(
    strict: bool, f: Function, safe: set<ValueId>, b: BasicBlock, k: nat, args: seq<Value>, a: State, tf: Frame, gf: Frame)
    requires k < |b.instructions| && Holds(f, b, k, a, tf) && InstructionTyped(f, b.instructions[k])
    requires Elidable(b.instructions[k].opcode) && OperandsAgree(b.instructions[k], tf, gf)
    requires b.instructions[k].result in safe ==> StepSafe(b.instructions[k], a)
    ensures var i := b.instructions[k];
            SameEffect(strict, f, i, tf, gf, TypedExec(safe, i, args, tf), GenericExec(true, i, args, gf))
  {
    var i := b.instructions[k];
    ArithmeticOnInts(f, i);
    OperandHolds(f, b, k, a, tf, i, 0);
    if !i.opcode.NegateInt? { OperandHolds(f, b, k, a, tf, i, 1); }
    var x, y := AsInt(Operand(i, tf, 0)), AsInt(Operand(i, tf, 1));
    var n := if i.opcode.NegateInt? then -x else Compute(i.opcode, x, y);
    assert Operand(i, gf, 0) == IntValue(x) && (!i.opcode.NegateInt? ==> Operand(i, gf, 1) == IntValue(y));
    if ProvenSafe(safe, i) { SafeMeansInRange(i, a, x, y); }
    if InInt32(n) {
      EffectIs(strict, f, i, tf, gf, TypedExec(safe, i, args, tf), GenericExec(true, i, args, gf), IntValue(n), IntValue(n));
    }
  }

  lemma DivisionAgrees(
    strict: bool, f: Function, safe: set<ValueId>, b: BasicBlock, k: nat, args: seq<Value>, a: State, tf: Frame, gf: Frame)
    requires k < |b.instructions| && Holds(f, b, k, a, tf) && InstructionTyped(f, b.instructions[k])
    requires b.instructions[k].opcode.DivideInt? || b.instructions[k].opcode.RemainderInt?
    requires OperandsAgree(b.instructions[k], tf, gf)
    ensures var i := b.instructions[k];
            SameEffect(strict, f, i, tf, gf, TypedExec(safe, i, args, tf), GenericExec(true, i, args, gf))
  {
    var i := b.instructions[k];
    ArithmeticOnInts(f, i);
    OperandHolds(f, b, k, a, tf, i, 0);
    OperandHolds(f, b, k, a, tf, i, 1);
    var x, y := Operand(i, tf, 0).n, Operand(i, tf, 1).n;
    if y != 0 && !(x == INT_MIN && y == -1) {
      var value := IntValue(if i.opcode.DivideInt? then TruncDiv(x, y) else TruncMod(x, y));
      EffectIs(strict, f, i, tf, gf, TypedExec(safe, i, args, tf), GenericExec(true, i, args, gf), value, value);
    }
  }

  lemma ComparisonAgrees(
    strict: bool, f: Function, safe: set<ValueId>, b: BasicBlock, k: nat, args: seq<Value>, a: State, tf: Frame, gf: Frame)
    requires k < |b.instructions| && Holds(f, b, k, a, tf) && InstructionTyped(f, b.instructions[k])
    requires IsComparison(b.instructions[k].opcode) && OperandsAgree(b.instructions[k], tf, gf)
    ensures var i := b.instructions[k];
            SameEffect(strict, f, i, tf, gf, TypedExec(safe, i, args, tf), GenericExec(true, i, args, gf))
  {
    var i := b.instructions[k];
    ComparesInts(f, i);
    OperandHolds(f, b, k, a, tf, i, 0);
    OperandHolds(f, b, k, a, tf, i, 1);
    var value := BoolValue(Compare(i.opcode, Operand(i, tf, 0).n, Operand(i, tf, 1).n));
    EffectIs(strict, f, i, tf, gf, TypedExec(safe, i, args, tf), GenericExec(true, i, args, gf), value, value);
  }

  lemma NotAgrees(strict: bool, f: Function, safe: set<ValueId>, i: Instruction, args: seq<Value>, tf: Frame, gf: Frame)
    requires FrameTyped(f, tf) && InstructionTyped(f, i) && OperandsAgree(i, tf, gf) && i.opcode.LogicalNot?
    ensures SameEffect(strict, f, i, tf, gf, TypedExec(safe, i, args, tf), GenericExec(true, i, args, gf))
  {
    var value := BoolValue(!Operand(i, tf, 0).b);
    EffectIs(strict, f, i, tf, gf, TypedExec(safe, i, args, tf), GenericExec(true, i, args, gf), value, value);
  }

  /** Two values that are not set are equal, as their zeros are. */
  lemma EqualityAgrees(strict: bool, f: Function, safe: set<ValueId>, i: Instruction, args: seq<Value>, tf: Frame, gf: Frame)
    requires FrameTyped(f, tf) && InstructionTyped(f, i) && OperandsAlike(strict, f, i, tf, gf)
    requires (i.opcode.Equal? || i.opcode.NotEqual?) && !ComparesUnset(i, gf)
    ensures SameEffect(strict, f, i, tf, gf, TypedExec(safe, i, args, tf), GenericExec(true, i, args, gf))
  {
    var x, y := Operand(i, tf, 0), Operand(i, tf, 1);
    assert (AsInt(x) == AsInt(y)) == (x == y);
    assert (x == y) == (Operand(i, gf, 0) == Operand(i, gf, 1));
    var value := BoolValue((x == y) == i.opcode.Equal?);
    EffectIs(strict, f, i, tf, gf, TypedExec(safe, i, args, tf), GenericExec(true, i, args, gf), value, value);
  }

  lemma MoveAgrees(strict: bool, f: Function, safe: set<ValueId>, i: Instruction, args: seq<Value>, tf: Frame, gf: Frame)
    requires FrameTyped(f, tf) && InstructionTyped(f, i) && OperandsAlike(strict, f, i, tf, gf) && ArgumentsTyped(f, args)
    requires |gf.locals| == |f.localTypes|
    requires forall s :: 0 <= s < |f.localTypes| ==> Alike(strict, f.localTypes[s], tf.locals[s], gf.locals[s])
    requires i.opcode.Parameter? || i.opcode.ConstantInt? || i.opcode.ConstantBool? || i.opcode.LoadLocal? || i.opcode.StoreLocal?
    ensures SameEffect(strict, f, i, tf, gf, TypedExec(safe, i, args, tf), GenericExec(true, i, args, gf))
  {
    var tv, gv :=
      if i.opcode.Parameter? then args[i.integerImmediate]
      else if i.opcode.ConstantInt? then IntValue(i.integerImmediate)
      else if i.opcode.ConstantBool? then BoolValue(i.boolImmediate)
      else if i.opcode.LoadLocal? then Local(tf, i.localIndex)
      else Operand(i, tf, 0),
      if i.opcode.Parameter? then args[i.integerImmediate]
      else if i.opcode.ConstantInt? then IntValue(i.integerImmediate)
      else if i.opcode.ConstantBool? then BoolValue(i.boolImmediate)
      else if i.opcode.LoadLocal? then Local(gf, i.localIndex)
      else Operand(i, gf, 0);
    EffectIs(strict, f, i, tf, gf, TypedExec(safe, i, args, tf), GenericExec(true, i, args, gf), tv, gv);
  }

  /** Where nothing unset is used the typed step and the trapping step have the same effect. */
  lemma ExecAgrees(
    strict: bool, f: Function, safe: set<ValueId>, b: BasicBlock, k: nat, args: seq<Value>, a: State, tf: Frame, gf: Frame)
    requires k < |b.instructions| && Holds(f, b, k, a, tf) && InstructionTyped(f, b.instructions[k])
    requires OperandsAlike(strict, f, b.instructions[k], tf, gf) && ArgumentsTyped(f, args)
    requires |gf.locals| == |f.localTypes|
    requires forall s :: 0 <= s < |f.localTypes| ==> Alike(strict, f.localTypes[s], tf.locals[s], gf.locals[s])
    requires !UsesUnset(b.instructions[k], gf) && !ComparesUnset(b.instructions[k], gf)
    requires Elidable(b.instructions[k].opcode) && b.instructions[k].result in safe ==> StepSafe(b.instructions[k], a)
    ensures var i := b.instructions[k];
            SameEffect(strict, f, i, tf, gf, TypedExec(safe, i, args, tf), GenericExec(true, i, args, gf))
  {
    hide TypedExec, GenericExec, SameEffect, StepSafe, TypeOf;
    var i := b.instructions[k];
    assert Strict(i.opcode) ==> OperandsAgree(i, tf, gf);
    if Elidable(i.opcode) {
      ArithmeticAgrees(strict, f, safe, b, k, args, a, tf, gf);
    } else if i.opcode.DivideInt? || i.opcode.RemainderInt? {
      DivisionAgrees(strict, f, safe, b, k, args, a, tf, gf);
    } else if IsComparison(i.opcode) {
      ComparisonAgrees(strict, f, safe, b, k, args, a, tf, gf);
    } else if i.opcode.LogicalNot? {
      NotAgrees(strict, f, safe, i, args, tf, gf);
    } else if i.opcode.Equal? || i.opcode.NotEqual? {
      EqualityAgrees(strict, f, safe, i, args, tf, gf);
    } else {
      MoveAgrees(strict, f, safe, i, args, tf, gf);
    }
  }

  lemma UsesAgree(strict: bool, f: Function, b: nat, k: nat, tf: Frame, gf: Frame)
    requires Analyzable(f) && b < |f.blocks| && k < |f.blocks[b].instructions| && Agree(strict, f, b, k, tf, gf)
    ensures OperandsAlike(strict, f, f.blocks[b].instructions[k], tf, gf)
  {
    hide TypeOf, Alike;
    OperandsDefined(f, b, k);
    InstructionBounds(f, b, k);
  }

  /** Registers that hold typed values hold something. */
  lemma SetOperandsAreSet(f: Function, i: Instruction, tf: Frame, gf: Frame)
    requires FrameTyped(f, tf) && InstructionTyped(f, i) && OperandsAlike(true, f, i, tf, gf)
    ensures !UsesUnset(i, gf) && !ComparesUnset(i, gf)
  {
    hide TypeOf;
    forall u | 0 <= u < |i.operands| ensures !Operand(i, gf, u).Unit? {
      assert HasType(TypeOf(f, i.operands[u]), tf.registers[i.operands[u]]);
    }
  }

  lemma ValidView(f: Function)
    requires Analyzable(f)
    ensures Ssa.Valid(View(f))
  {
  }

  lemma StepAgrees(strict: bool, f: Function, b: nat, k: nat, tf: Frame, gf: Frame, t: StepResult, g: StepResult)
    requires Analyzable(f) && b < |f.blocks| && k < |f.blocks[b].instructions| && Agree(strict, f, b, k, tf, gf)
    requires SameEffect(strict, f, f.blocks[b].instructions[k], tf, gf, t, g) && t.Next?
    ensures Agree(strict, f, b, k + 1, t.frame, g.frame)
  {
    hide TypeOf, Accepted, Supported, ConstantsFit, RegisterCount, Ssa.Valid, Ssa.Available, Alike;
    var i := f.blocks[b].instructions[k];
    var view := View(f);
    ValidView(f);
    assert view[b].steps[k] == StepOf(i);
    var tv, gv :| Writes(strict, f, i, tf, gf, t.frame, g.frame, tv, gv);
    if !i.opcode.StoreLocal? { ResultTyped(f, b, k); }
    forall v | 0 <= v < RegisterCount(f) && Ssa.Available(view, f.blocks[b].id, k + 1, v)
      ensures Alike(strict, TypeOf(f, v), t.frame.registers[v], g.frame.registers[v])
    {
      Ssa.StepAvailability(view, b, k, v);
    }
  }

  // ----- edges -----

  /** What both lowerings have when they stand before instruction k of block b. */
  ghost predicate InStep(strict: bool, f: Function, a: Analysis, b: nat, k: nat, tf: Frame, gf: Frame) {
    && Shaped(f, a) && b < |f.blocks| && k <= |f.blocks[b].instructions| && a.hasEntry[b]
    && Holds(f, f.blocks[b], k, AbsAt(f, f.blocks[b], a.entryLocals[b], k), tf)
    && Agree(strict, f, b, k, tf, gf)
  }

  lemma EdgeArguments(f: Function, b: nat, e: nat)
    requires Analyzable(f) && b < |f.blocks| && e < |EdgesOf(f.blocks[b].terminator)|
    ensures var edge := EdgesOf(f.blocks[b].terminator)[e];
            var t := BlockIndex(f, edge.target);
            t >= 0 && |edge.args| == |f.blocks[t].parameters| &&
            forall j :: 0 <= j < |edge.args| ==>
              && 0 <= edge.args[j] < RegisterCount(f)
              && Ssa.Available(View(f), f.blocks[b].id, |f.blocks[b].instructions|, edge.args[j])
              && 0 <= f.blocks[t].parameters[j].value < RegisterCount(f)
              && TypeOf(f, edge.args[j]) == f.blocks[t].parameters[j].ty
              && TypeOf(f, f.blocks[t].parameters[j].value) == f.blocks[t].parameters[j].ty
  {
    var view := View(f);
    var edge := EdgesOf(f.blocks[b].terminator)[e];
    assert BlockOk(f, f.blocks[b]);
    var t := BlockIndex(f, edge.target);
    assert EdgeOk(f, edge.target, edge.args);
    assert Ssa.UsesAvailable(view, b) && view[b].edges[e] == edge;
    TerminatorBounds(f, b);
    forall j | 0 <= j < |edge.args|
      ensures 0 <= edge.args[j] < RegisterCount(f)
      ensures Ssa.Available(view, f.blocks[b].id, |f.blocks[b].instructions|, edge.args[j])
      ensures 0 <= f.blocks[t].parameters[j].value < RegisterCount(f)
      ensures TypeOf(f, f.blocks[t].parameters[j].value) == f.blocks[t].parameters[j].ty
    {
      assert Ssa.Available(view, view[b].id, |view[b].steps|, view[b].edges[e].args[j]);
      Ssa.AvailableIsDefined(view, f.blocks[b].id, |f.blocks[b].instructions|, edge.args[j]);
      Ssa.ParamType(view, t, j);
      assert view[t].params[j].reg == f.blocks[t].parameters[j].value;
      ParameterBounds(f, t, j);
    }
  }

  lemma TerminatorBounds(f: Function, b: nat)
    requires b < |f.blocks|
    ensures forall e :: 0 <= e < |EdgesOf(f.blocks[b].terminator)| ==>
              MaxId(EdgesOf(f.blocks[b].terminator)[e].args) < RegisterCount(f)
    ensures forall u :: 0 <= u < |TerminatorUses(f.blocks[b].terminator)| ==>
              TerminatorUses(f.blocks[b].terminator)[u] < RegisterCount(f)
  {
    assert BlockMax(f.blocks[b]) <= BlocksMax(f.blocks);
    assert TerminatorMax(f.blocks[b].terminator) <= BlockMax(f.blocks[b]);
  }

  lemma ParameterBounds(f: Function, b: nat, j: nat)
    requires b < |f.blocks| && j < |f.blocks[b].parameters|
    ensures f.blocks[b].parameters[j].value < RegisterCount(f)
  {
    assert BlockMax(f.blocks[b]) <= BlocksMax(f.blocks);
    assert ParametersMax(f.blocks[b].parameters) <= BlockMax(f.blocks[b]);
  }

  lemma ParametersApart(f: Function, t: nat)
    requires Analyzable(f) && t < |f.blocks|
    ensures forall i, j :: 0 <= i < j < |f.blocks[t].parameters| ==>
              f.blocks[t].parameters[i].value != f.blocks[t].parameters[j].value
  {
    Ssa.ParamsDefineApart(View(f), t);
    forall i, j | 0 <= i < j < |f.blocks[t].parameters|
      ensures f.blocks[t].parameters[i].value != f.blocks[t].parameters[j].value
    {
      assert View(f)[t].params[i].reg != View(f)[t].params[j].reg;
    }
  }

  function Saved(fr: Frame, arguments: seq<ValueId>): seq<Value> {
    seq(|arguments|, j requires 0 <= j < |arguments| => Register(fr, arguments[j]))
  }

  lemma TransferAt(f: Function, t: nat, fr: Frame, arguments: seq<ValueId>, v: ValueId)
    requires Analyzable(f) && t < |f.blocks| && |arguments| == |f.blocks[t].parameters|
    requires 0 <= v < |fr.registers|
    ensures var after := Transfer(fr, f.blocks[t].parameters, arguments);
            && after.locals == fr.locals && |after.registers| == |fr.registers|
            && (forall j :: 0 <= j < |arguments| && f.blocks[t].parameters[j].value == v
                            ==> after.registers[v] == Register(fr, arguments[j]))
            && ((forall j :: 0 <= j < |arguments| ==> f.blocks[t].parameters[j].value != v)
                 ==> after.registers[v] == fr.registers[v])
  {
    ParametersApart(f, t);
    TransferIsParallel(fr, f.blocks[t].parameters, Saved(fr, arguments), |arguments|, v);
  }

  lemma TransferTyped(f: Function, b: nat, e: nat, fr: Frame)
    requires Analyzable(f) && b < |f.blocks| && e < |EdgesOf(f.blocks[b].terminator)| && FrameTyped(f, fr)
    requires 0 <= BlockIndex(f, EdgesOf(f.blocks[b].terminator)[e].target)
    ensures var edge := EdgesOf(f.blocks[b].terminator)[e];
            var after := Transfer(fr, f.blocks[BlockIndex(f, edge.target)].parameters, edge.args);
            FrameTyped(f, after) && after.locals == fr.locals
  {
    hide TypeOf, Accepted, Supported, ConstantsFit, RegisterCount, Ssa.Valid, Ssa.Available;
    EdgeArguments(f, b, e);
    var edge := EdgesOf(f.blocks[b].terminator)[e];
    var t := BlockIndex(f, edge.target);
    var after := Transfer(fr, f.blocks[t].parameters, edge.args);
    ParametersApart(f, t);
    TransferIsParallel(fr, f.blocks[t].parameters, Saved(fr, edge.args), |edge.args|, 0);
    forall v | 0 <= v < |after.registers| ensures HasType(TypeOf(f, v), after.registers[v]) {
      TransferAt(f, t, fr, edge.args, v);
      if j :| 0 <= j < |edge.args| && f.blocks[t].parameters[j].value == v {
        assert after.registers[v] == fr.registers[edge.args[j]];
      }
    }
  }

  lemma TransferAgrees(strict: bool, f: Function, b: nat, e: nat, tf: Frame, gf: Frame)
    requires Analyzable(f) && b < |f.blocks| && e < |EdgesOf(f.blocks[b].terminator)|
    requires Agree(strict, f, b, |f.blocks[b].instructions|, tf, gf)
    requires 0 <= BlockIndex(f, EdgesOf(f.blocks[b].terminator)[e].target)
    ensures var edge := EdgesOf(f.blocks[b].terminator)[e];
            var t := BlockIndex(f, edge.target);
            Agree(strict, f, t, 0, Transfer(tf, f.blocks[t].parameters, edge.args), Transfer(gf, f.blocks[t].parameters, edge.args))
  {
    hide TypeOf, Alike, Accepted, Supported, ConstantsFit, RegisterCount, Ssa.Valid, Ssa.Available;
    ValidView(f);
    EdgeArguments(f, b, e);
    var view := View(f);
    var edge := EdgesOf(f.blocks[b].terminator)[e];
    var t := BlockIndex(f, edge.target);
    var ta, ga := Transfer(tf, f.blocks[t].parameters, edge.args), Transfer(gf, f.blocks[t].parameters, edge.args);
    ParametersApart(f, t);
    TransferIsParallel(tf, f.blocks[t].parameters, Saved(tf, edge.args), |edge.args|, 0);
    TransferIsParallel(gf, f.blocks[t].parameters, Saved(gf, edge.args), |edge.args|, 0);
    forall v | 0 <= v < RegisterCount(f) && Ssa.Available(view, f.blocks[t].id, 0, v)
      ensures Alike(strict, TypeOf(f, v), ta.registers[v], ga.registers[v])
    {
      TransferAt(f, t, tf, edge.args, v);
      TransferAt(f, t, gf, edge.args, v);
      if j :| 0 <= j < |edge.args| && f.blocks[t].parameters[j].value == v {
        assert ga.registers[v] == gf.registers[edge.args[j]] && ta.registers[v] == tf.registers[edge.args[j]];
      } else {
        assert view[b].edges[e] == edge;
        Ssa.EdgeAvailability(view, b, e, t, v);
        if j :| 0 <= j < |view[t].params| && view[t].params[j].reg == v {
          assert f.blocks[t].parameters[j].value == v;
        }
      }
    }
  }

  /** Following an edge whose target covers the locals keeps the two lowerings in step. */
  lemma EdgeInStep(strict: bool, f: Function, a: Analysis, b: nat, e: nat, locals: seq<Range>, tf: Frame, gf: Frame)
    requires Analyzable(f) && Shaped(f, a) && b < |f.blocks| && e < |EdgesOf(f.blocks[b].terminator)|
    requires FrameTyped(f, tf) && LocalsHold(f, locals, tf) && Agree(strict, f, b, |f.blocks[b].instructions|, tf, gf)
    requires CoversTarget(f, a, EdgesOf(f.blocks[b].terminator)[e].target, locals)
    ensures var edge := EdgesOf(f.blocks[b].terminator)[e];
            var t := BlockIndex(f, edge.target);
            t >= 0 && InStep(strict, f, a, t, 0, Transfer(tf, f.blocks[t].parameters, edge.args),
                             Transfer(gf, f.blocks[t].parameters, edge.args))
  {
    EdgeArguments(f, b, e);
    var edge := EdgesOf(f.blocks[b].terminator)[e];
    var t := BlockIndex(f, edge.target);
    var after := Transfer(tf, f.blocks[t].parameters, edge.args);
    TransferTyped(f, b, e, tf);
    TransferAgrees(strict, f, b, e, tf, gf);
    assert LocalsHold(f, a.entryLocals[t], after);
    StartHolds(f, f.blocks[t], a.entryLocals[t], after);
  }

  // ----- leaving a block -----

  /** Both lowerings leave by the same exit, and are in step where it leads. */
  ghost predicate SameExit(strict: bool, f: Function, a: Analysis, t: Exit, g: Exit) {
    match t
    case Goto(block, frame) => g.Goto? && g.block == block && InStep(strict, f, a, block, 0, frame, g.frame)
    case _ => t == g
  }

  lemma TerminatorValueAgrees(strict: bool, f: Function, b: nat, tf: Frame, gf: Frame)
    requires Analyzable(f) && b < |f.blocks| && FrameTyped(f, tf) && Agree(strict, f, b, |f.blocks[b].instructions|, tf, gf)
    ensures forall u :: 0 <= u < |TerminatorUses(f.blocks[b].terminator)| ==>
              var v := TerminatorUses(f.blocks[b].terminator)[u];
              Alike(strict, TypeOf(f, v), Register(tf, v), Register(gf, v)) && HasType(TypeOf(f, v), Register(tf, v))
  {
    hide TypeOf, Alike;
    var view := View(f);
    TerminatorBounds(f, b);
    assert Ssa.UsesAvailable(view, b) && view[b].termUses == TerminatorUses(f.blocks[b].terminator);
    forall u | 0 <= u < |TerminatorUses(f.blocks[b].terminator)|
      ensures var v := TerminatorUses(f.blocks[b].terminator)[u];
              Alike(strict, TypeOf(f, v), Register(tf, v), Register(gf, v)) && HasType(TypeOf(f, v), Register(tf, v))
    {
      var v := TerminatorUses(f.blocks[b].terminator)[u];
      assert Ssa.Available(view, view[b].id, |view[b].steps|, view[b].termUses[u]);
      Ssa.AvailableIsDefined(view, f.blocks[b].id, |f.blocks[b].instructions|, v);
    }
  }

  /** A value that is set is returned by both; one that is not is a zero in the typed lowering. */
  lemma ReturnAgrees(strict: bool, f: Function, safe: set<ValueId>, b: nat, tf: Frame, gf: Frame)
    requires Analyzable(f) && b < |f.blocks| && FrameTyped(f, tf) && Agree(strict, f, b, |f.blocks[b].instructions|, tf, gf)
    requires f.blocks[b].terminator.ReturnValue?
    ensures var t, g := Leave(Typed(safe), f, f.blocks[b].terminator, tf), Leave(Generic, f, f.blocks[b].terminator, gf);
            && t.Return? && g.Return? && (LeavesUnset(f.blocks[b].terminator, gf) <==> t != g)
            && (LeavesUnset(f.blocks[b].terminator, gf) ==> g.value == Unit && !strict)
  {
    TerminatorValueAgrees(strict, f, b, tf, gf);
    var v := f.blocks[b].terminator.value;
    assert TerminatorUses(f.blocks[b].terminator)[0] == v;
    assert BlockOk(f, f.blocks[b]);
    assert TypeOf(f, v) == f.returnType && IsTypedPrimitive(f.returnType);
  }

  /** The condition is a truth value in the typed run, and the same one or not set in the generic run. */
  lemma ConditionAgrees(strict: bool, f: Function, b: nat, tf: Frame, gf: Frame)
    requires Analyzable(f) && b < |f.blocks| && FrameTyped(f, tf) && Agree(strict, f, b, |f.blocks[b].instructions|, tf, gf)
    requires f.blocks[b].terminator.Branch?
    ensures var c := f.blocks[b].terminator.condition;
            Register(tf, c).BoolValue? && (Register(gf, c) == Register(tf, c) || (!strict && Register(gf, c).Unit?))
  {
    hide Agree, FrameTyped, Supported, ConstantsFit;
    TerminatorValueAgrees(strict, f, b, tf, gf);
    assert TerminatorUses(f.blocks[b].terminator)[0] == f.blocks[b].terminator.condition;
    assert BlockOk(f, f.blocks[b]);
  }

  lemma LocalsArePrimitive(f: Function)
    requires Analyzable(f)
    ensures forall s :: 0 <= s < |f.localTypes| ==> IsTypedPrimitive(f.localTypes[s])
  {
    hide TypeOf;
  }

  /** The refined locals of the edge that is taken are true, and its target covers them. */
  lemma TakenEdgeCovered(f: Function, a: Analysis, b: nat, t: Terminator, out: State, fr: Frame) returns (locals: seq<Range>)
    requires b < |f.blocks| && t.Branch? && Shaped(f, a) && ExitsCovered(f, a, t, out)
    requires Holds(f, f.blocks[b], |f.blocks[b].instructions|, out, fr)
    requires forall s :: 0 <= s < |f.localTypes| ==> IsTypedPrimitive(f.localTypes[s])
    ensures FrameTyped(f, fr) && LocalsHold(f, locals, fr)
    ensures CoversTarget(f, a, if AsBool(Register(fr, t.condition)) then t.target else t.falseTarget, locals)
  {
    hide RefinedLocals, CoversTarget, LocalsHold, FrameTyped, ValuesHold, OriginsHold, ComparisonsHold;
    locals := out.locals;
    if t.condition in out.comparisons {
      RefinementHolds(f, f.blocks[b], |f.blocks[b].instructions|, out, fr, t.condition);
      locals := RefinedLocals(out, out.comparisons[t.condition], AsBool(Register(fr, t.condition))).locals;
    }
  }

  lemma TakenEdgeInStep(strict: bool, f: Function, a: Analysis, b: nat, tf: Frame, gf: Frame)
    requires Analyzable(f) && IsFixpoint(f, a) && b < |f.blocks| && f.blocks[b].terminator.Branch?
    requires InStep(strict, f, a, b, |f.blocks[b].instructions|, tf, gf)
    ensures var e := if AsBool(Register(tf, f.blocks[b].terminator.condition)) then 0 else 1;
            var edge := EdgesOf(f.blocks[b].terminator)[e];
            var t := BlockIndex(f, edge.target);
            t >= 0 && InStep(strict, f, a, t, 0, Transfer(tf, f.blocks[t].parameters, edge.args),
                             Transfer(gf, f.blocks[t].parameters, edge.args))
  {
    hide Analyzable, Agree, Transfer, Holds, AbsAt, FrameTyped, LocalsHold, ExitsCovered, CoversTarget, Covers;
    LocalsArePrimitive(f);
    var t, out := f.blocks[b].terminator, OutState(f, a, b);
    var locals := TakenEdgeCovered(f, a, b, t, out, tf);
    EdgeInStep(strict, f, a, b, if AsBool(Register(tf, t.condition)) then 0 else 1, locals, tf, gf);
  }

  lemma BranchAgrees(strict: bool, f: Function, a: Analysis, safe: set<ValueId>, b: nat, tf: Frame, gf: Frame)
    requires Analyzable(f) && IsFixpoint(f, a) && b < |f.blocks| && f.blocks[b].terminator.Branch?
    requires InStep(strict, f, a, b, |f.blocks[b].instructions|, tf, gf)
    ensures var t, g := Leave(Typed(safe), f, f.blocks[b].terminator, tf), Leave(Generic, f, f.blocks[b].terminator, gf);
            if LeavesUnset(f.blocks[b].terminator, gf) then g == Abort(TypeMismatch) && !t.Return? && t != g && !strict
            else SameExit(strict, f, a, t, g)
  {
    hide Analyzable, IsFixpoint, Agree, Holds, AbsAt, FrameTyped, Transfer;
    HeldFramesAreTyped(f, a, b, tf);
    ConditionAgrees(strict, f, b, tf, gf);
    TakenEdgeInStep(strict, f, a, b, tf, gf);
  }

  /** Both leave alike, but for what is not set: the generic lowering then fails, or returns it. */
  lemma LeaveAgrees(strict: bool, f: Function, a: Analysis, safe: set<ValueId>, b: nat, tf: Frame, gf: Frame)
    requires Analyzable(f) && IsFixpoint(f, a) && b < |f.blocks|
    requires InStep(strict, f, a, b, |f.blocks[b].instructions|, tf, gf)
    ensures var t, g := Leave(Typed(safe), f, f.blocks[b].terminator, tf), Leave(Generic, f, f.blocks[b].terminator, gf);
            if LeavesUnset(f.blocks[b].terminator, gf)
            then (g == Abort(TypeMismatch) || g == Return(Unit)) && t != g && (t.Return? ==> g.Return?) && !strict
            else SameExit(strict, f, a, t, g)
  {
    hide Agree, Holds, AbsAt, Analyzable, FrameTyped;
    var t := f.blocks[b].terminator;
    HeldFramesAreTyped(f, a, b, tf);
    if t.Branch? {
      BranchAgrees(strict, f, a, safe, b, tf, gf);
    } else if t.Jump? {
      JumpAgrees(strict, f, a, safe, b, tf, gf);
    } else if t.ReturnValue? {
      ReturnAgrees(strict, f, safe, b, tf, gf);
    }
  }

  lemma HeldFramesAreTyped(f: Function, a: Analysis, b: nat, fr: Frame)
    requires Shaped(f, a) && b < |f.blocks| && a.hasEntry[b]
    requires Holds(f, f.blocks[b], |f.blocks[b].instructions|, AbsAt(f, f.blocks[b], a.entryLocals[b], |f.blocks[b].instructions|), fr)
    ensures FrameTyped(f, fr)
  {
  }

  lemma JumpAgrees(strict: bool, f: Function, a: Analysis, safe: set<ValueId>, b: nat, tf: Frame, gf: Frame)
    requires Analyzable(f) && IsFixpoint(f, a) && b < |f.blocks| && f.blocks[b].terminator.Jump?
    requires InStep(strict, f, a, b, |f.blocks[b].instructions|, tf, gf)
    ensures SameExit(strict, f, a, Leave(Typed(safe), f, f.blocks[b].terminator, tf), Leave(Generic, f, f.blocks[b].terminator, gf))
  {
    hide Compilable;
    var t := f.blocks[b].terminator;
    assert ExitsCovered(f, a, t, OutState(f, a, b));
    EdgeInStep(strict, f, a, b, 0, OutState(f, a, b).locals, tf, gf);
  }

  // ----- the theorem -----

  lemma SafeIsSafeHere(f: Function, a: Analysis, safe: set<ValueId>, b: nat, k: nat)
    requires Certified(f, a, safe) && b < |f.blocks| && k < |f.blocks[b].instructions| && a.hasEntry[b]
    requires InstructionTyped(f, f.blocks[b].instructions[k])
    ensures Elidable(f.blocks[b].instructions[k].opcode) && f.blocks[b].instructions[k].result in safe ==>
              StepSafe(f.blocks[b].instructions[k], AbsAt(f, f.blocks[b], a.entryLocals[b], k))
  {
    var i := f.blocks[b].instructions[k];
    if Elidable(i.opcode) && i.result in safe {
      UnsafeListed(f, f.blocks[b], a.entryLocals[b], k, |f.blocks[b].instructions|);
      assert SafeAtFixpoint(f, a, i.result);
    }
  }

  /** One instruction that uses nothing unset: in step before and after, but at INT_MIN % -1. */
  lemma SetInstructionInStep(
    strict: bool, f: Function, a: Analysis, safe: set<ValueId>, args: seq<Value>, b: nat, k: nat, tf: Frame, gf: Frame)
    requires Analyzable(f) && Certified(f, a, safe) && ArgumentsTyped(f, args) && InStep(strict, f, a, b, k, tf, gf)
    requires k < |f.blocks[b].instructions|
    requires var i := f.blocks[b].instructions[k];
      InstructionTyped(f, i) && OperandsAlike(strict, f, i, tf, gf) && !UsesUnset(i, gf) && !ComparesUnset(i, gf)
    ensures var i := f.blocks[b].instructions[k];
            var t, g := Exec(Typed(safe), i, args, tf), Exec(Generic, i, args, gf);
            if IsMinRemainder(i, gf) then t == Fault(IntegerOverflow) && g.Next?
            else (t.Fault? && g.Fault? && t.code == g.code) ||
                 (t.Next? && g.Next? && InStep(strict, f, a, b, k + 1, t.frame, g.frame))
  {
    hide TypedExec, GenericExec, AbsStep, StepSafe, TypeOf, InstructionTyped, Holds, Agree, UsesUnset, ComparesUnset, Alike,
      OperandsAlike, IsMinRemainder, Analyzable;
    var block := f.blocks[b];
    var i, state := block.instructions[k], AbsAt(f, block, a.entryLocals[b], k);
    HeldIsTyped(f, block, k, state, tf);
    CompiledDefinesApart(f, b);
    SafeIsSafeHere(f, a, safe, b, k);
    LikeLocals(strict, f, b, k, tf, gf);
    ExecAgrees(strict, f, safe, block, k, args, state, tf, gf);
    var t, g := TypedExec(safe, i, args, tf), GenericExec(true, i, args, gf);
    if IsMinRemainder(i, gf) {
      RemainderParts(strict, f, safe, i, args, tf, gf);
    } else {
      TrappingElsewhere(i, args, gf);
      if t.Next? {
        StepHolds(f, safe, block, k, args, state, tf);
        StepAgrees(strict, f, b, k, tf, gf, t, g);
      }
    }
  }

  /** One instruction: in step before and after, unless the lowerings depart at it. */
  lemma InstructionInStep(
    strict: bool, f: Function, a: Analysis, safe: set<ValueId>, args: seq<Value>, b: nat, k: nat, tf: Frame, gf: Frame)
    requires Analyzable(f) && Certified(f, a, safe) && ArgumentsTyped(f, args) && InStep(strict, f, a, b, k, tf, gf)
    requires k < |f.blocks[b].instructions|
    ensures var i := f.blocks[b].instructions[k];
            var t, g := Exec(Typed(safe), i, args, tf), Exec(Generic, i, args, gf);
            if IsMinRemainder(i, gf) then t == Fault(IntegerOverflow) && g.Next?
            else if UsesUnset(i, gf) then !strict && g == Fault(TypeMismatch) && (t.Fault? ==> !t.code.TypeMismatch?)
            else if ComparesUnset(i, gf) then !strict
            else (t.Fault? && g.Fault? && t.code == g.code) ||
                 (t.Next? && g.Next? && InStep(strict, f, a, b, k + 1, t.frame, g.frame))
  {
    hide TypedExec, GenericExec, AbsAt, TypeOf, InstructionTyped, Holds, Agree, UsesUnset, ComparesUnset, Alike, OperandsAlike,
      IsMinRemainder, Analyzable;
    var block := f.blocks[b];
    var i := block.instructions[k];
    CompiledInstructionTyped(f, b, k);
    UsesAgree(strict, f, b, k, tf, gf);
    HeldIsTyped(f, block, k, AbsAt(f, block, a.entryLocals[b], k), tf);
    if strict { SetOperandsAreSet(f, i, tf, gf); }
    if IsMinRemainder(i, gf) { RemainderIsSet(f, i, gf); }
    if UsesUnset(i, gf) {
      UnsetMismatches(f, safe, i, args, tf, gf);
    } else if !ComparesUnset(i, gf) {
      SetInstructionInStep(strict, f, a, safe, args, b, k, tf, gf);
    }
  }

  lemma HeldIsTyped(f: Function, b: BasicBlock, k: nat, a: State, fr: Frame)
    requires k <= |b.instructions| && Holds(f, b, k, a, fr)
    ensures FrameTyped(f, fr)
  {
  }

  lemma RemainderIsSet(f: Function, i: Instruction, fr: Frame)
    requires InstructionTyped(f, i) && IsMinRemainder(i, fr)
    ensures !UsesUnset(i, fr) && !ComparesUnset(i, fr)
  {
  }

  lemma UnsetMismatches(f: Function, safe: set<ValueId>, i: Instruction, args: seq<Value>, tf: Frame, gf: Frame)
    requires InstructionTyped(f, i) && UsesUnset(i, gf)
    ensures GenericExec(false, i, args, gf) == Fault(TypeMismatch)
    ensures TypedExec(safe, i, args, tf).Fault? ==> !TypedExec(safe, i, args, tf).code.TypeMismatch?
  {
    hide GenericExec, TypedExec;
    UnsetIsMismatch(f, i, args, gf);
    TypedNeverMismatches(safe, i, args, tf);
  }

  lemma RemainderParts(strict: bool, f: Function, safe: set<ValueId>, i: Instruction, args: seq<Value>, tf: Frame, gf: Frame)
    requires IsMinRemainder(i, gf)
    requires SameEffect(strict, f, i, tf, gf, TypedExec(safe, i, args, tf), GenericExec(true, i, args, gf))
    ensures TypedExec(safe, i, args, tf) == Fault(IntegerOverflow) && GenericExec(false, i, args, gf).Next?
  {
  }

  lemma LikeLocals(strict: bool, f: Function, b: nat, k: nat, tf: Frame, gf: Frame)
    requires b < |f.blocks| && Agree(strict, f, b, k, tf, gf)
    ensures |tf.locals| == |gf.locals| == |f.localTypes|
    ensures forall s :: 0 <= s < |f.localTypes| ==> Alike(strict, f.localTypes[s], tf.locals[s], gf.locals[s])
  {
  }

  lemma GoesToABlock(l: Lowering, f: Function, t: Terminator, fr: Frame)
    requires Leave(l, f, t, fr).Goto?
    ensures Leave(l, f, t, fr).block < |f.blocks|
  {
  }

  /** What the typed run makes of the generic run, from frames that agree: the same, up to where the
      generic run departs, and something else if it departs at a remainder or at an unset use. */
  lemma {:induction false} StaysInStep(
    strict: bool, f: Function, a: Analysis, safe: set<ValueId>, args: seq<Value>, budget: nat, b: nat, k: nat,
    tf: Frame, gf: Frame, executed: nat)
    requires Analyzable(f) && Certified(f, a, safe) && ArgumentsTyped(f, args) && InStep(strict, f, a, b, k, tf, gf)
    ensures RunsCompare(FirstDeparture(f, args, budget, b, k, gf, executed),
                        Run(Typed(safe), f, args, budget, b, k, tf, executed), Run(Generic, f, args, budget, b, k, gf, executed))
    ensures strict ==> !FirstDeparture(f, args, budget, b, k, gf, executed).AtUnset?
    ensures strict ==> !FirstDeparture(f, args, budget, b, k, gf, executed).AtEquality?
    decreases budget - executed
  {
    hide TypedExec, GenericExec, Holds, Agree, Analyzable, Leave, UsesUnset, ComparesUnset, LeavesUnset, AbsAt;
    if executed < budget {
      var block := f.blocks[b];
      if k < |block.instructions| {
        InstructionInStep(strict, f, a, safe, args, b, k, tf, gf);
        var i := block.instructions[k];
        var t, g := Exec(Typed(safe), i, args, tf), Exec(Generic, i, args, gf);
        if IsMinRemainder(i, gf) {
          RunCharges(Generic, f, args, budget, b, k + 1, g.frame, executed + 1);
        } else if UsesUnset(i, gf) {
          if t.Next? { RunCharges(Typed(safe), f, args, budget, b, k + 1, t.frame, executed + 1); }
        } else if !ComparesUnset(i, gf) && t.Next? {
          StaysInStep(strict, f, a, safe, args, budget, b, k + 1, t.frame, g.frame, executed + 1);
        }
      } else {
        LeaveAgrees(strict, f, a, safe, b, tf, gf);
        var t, g := Leave(Typed(safe), f, block.terminator, tf), Leave(Generic, f, block.terminator, gf);
        if t.Goto? {
          if LeavesUnset(block.terminator, gf) {
            GoesToABlock(Typed(safe), f, block.terminator, tf);
            RunCharges(Typed(safe), f, args, budget, t.block, 0, t.frame, executed + 1);
          } else {
            StaysInStep(strict, f, a, safe, args, budget, t.block, 0, t.frame, g.frame, executed + 1);
          }
        }
      }
    }
  }

  /** How the outcomes compare when the generic run departs there. */
  predicate RunsCompare(d: Departure, typed: Outcome, generic: Outcome) {
    match d
    case Nowhere => typed == generic
    case AtRemainder => typed != generic && typed.result == Failed(IntegerOverflow)
    case AtUnset => typed != generic && (generic.result == Failed(TypeMismatch) || generic.result == Returned(Unit))
    case AtEquality => true
  }

  /** At every point the typed run comes to: the block has an entry, the locals and values lie in the
      recorded ranges, and an operation whose check is dropped stays inside int32. */
  ghost predicate RangesHoldAlong(
    f: Function, a: Analysis, safe: set<ValueId>, args: seq<Value>, budget: nat, b: nat, k: nat, fr: Frame, executed: nat)
    requires Shaped(f, a) && b < |f.blocks| && k <= |f.blocks[b].instructions|
    decreases budget - executed
  {
    var block := f.blocks[b];
    && a.hasEntry[b] && Holds(f, block, k, AbsAt(f, block, a.entryLocals[b], k), fr)
    && (executed < budget ==>
          if k < |block.instructions| then
            && ChecksPass(safe, block.instructions[k], fr)
            && match Exec(Typed(safe), block.instructions[k], args, fr)
               case Fault(_) => true
               case Next(after) => RangesHoldAlong(f, a, safe, args, budget, b, k + 1, after, executed + 1)
          else
            match Leave(Typed(safe), f, block.terminator, fr)
            case Goto(t, after) => RangesHoldAlong(f, a, safe, args, budget, t, 0, after, executed + 1)
            case _ => true)
  }

  /** A dropped check would have passed. */
  ghost predicate ChecksPass(safe: set<ValueId>, i: Instruction, fr: Frame) {
    ProvenSafe(safe, i) && Elidable(i.opcode) ==>
      var x, y := AsInt(Operand(i, fr, 0)), AsInt(Operand(i, fr, 1));
      InInt32(if i.opcode.NegateInt? then -x else Compute(i.opcode, x, y))
  }

  lemma DroppedCheckPasses(f: Function, a: Analysis, safe: set<ValueId>, b: nat, k: nat, fr: Frame)
    requires Analyzable(f) && Certified(f, a, safe) && InStep(true, f, a, b, k, fr, fr) && k < |f.blocks[b].instructions|
    ensures ChecksPass(safe, f.blocks[b].instructions[k], fr)
  {
    hide TypeOf, AbsStep, Analyzable, Agree;
    var i, state := f.blocks[b].instructions[k], AbsAt(f, f.blocks[b], a.entryLocals[b], k);
    CompiledInstructionTyped(f, b, k);
    SafeIsSafeHere(f, a, safe, b, k);
    if ProvenSafe(safe, i) && Elidable(i.opcode) {
      ArithmeticOnInts(f, i);
      OperandHolds(f, f.blocks[b], k, state, fr, i, 0);
      if !i.opcode.NegateInt? { OperandHolds(f, f.blocks[b], k, state, fr, i, 1); }
      SafeMeansInRange(i, state, AsInt(Operand(i, fr, 0)), AsInt(Operand(i, fr, 1)));
    }
  }

  lemma InStepAlone(strict: bool, f: Function, a: Analysis, b: nat, k: nat, tf: Frame, gf: Frame)
    requires InStep(strict, f, a, b, k, tf, gf)
    ensures InStep(true, f, a, b, k, tf, tf)
  {
  }

  lemma {:induction false} RangesSoundFrom(
    f: Function, a: Analysis, safe: set<ValueId>, args: seq<Value>, budget: nat, b: nat, k: nat, fr: Frame, executed: nat)
    requires Analyzable(f) && Certified(f, a, safe) && ArgumentsTyped(f, args) && InStep(true, f, a, b, k, fr, fr)
    ensures RangesHoldAlong(f, a, safe, args, budget, b, k, fr, executed)
    decreases budget - executed
  {
    hide TypedExec, GenericExec, Holds, Analyzable, Leave, ChecksPass, Agree, AbsAt, UsesUnset, ComparesUnset, LeavesUnset;
    if executed < budget {
      var block := f.blocks[b];
      if k < |block.instructions| {
        DroppedCheckPasses(f, a, safe, b, k, fr);
        InstructionInStep(true, f, a, safe, args, b, k, fr, fr);
        var t := Exec(Typed(safe), block.instructions[k], args, fr);
        if t.Next? {
          InStepAlone(true, f, a, b, k + 1, t.frame, Exec(Generic, block.instructions[k], args, fr).frame);
          RangesSoundFrom(f, a, safe, args, budget, b, k + 1, t.frame, executed + 1);
        }
      } else {
        LeaveAgrees(true, f, a, safe, b, fr, fr);
        var t := Leave(Typed(safe), f, block.terminator, fr);
        if t.Goto? {
          InStepAlone(true, f, a, t.block, 0, t.frame, Leave(Generic, f, block.terminator, fr).frame);
          RangesSoundFrom(f, a, safe, args, budget, t.block, 0, t.frame, executed + 1);
        }
      }
    }
  }

  /** Range analysis is sound: in every run from int32 arguments, loops back to bb0 included. */
  lemma RangesAreSound(f: Function, a: Analysis, safe: set<ValueId>, args: seq<Value>, budget: nat, executed: nat)
    requires Analyzable(f) && Certified(f, a, safe) && ArgumentsTyped(f, args)
    ensures BlockIndex(f, 0) >= 0
    ensures RangesHoldAlong(f, a, safe, args, budget, BlockIndex(f, 0), 0, EntryFrame(Typed(safe), f), executed)
  {
    EntryInStep(f, a, safe);
    InStepAlone(EntryTakesNothing(f), f, a, BlockIndex(f, 0), 0, EntryFrame(Typed(safe), f), EntryFrame(Generic, f));
    RangesSoundFrom(f, a, safe, args, budget, BlockIndex(f, 0), 0, EntryFrame(Typed(safe), f), executed);
  }

  /** With nothing passed to bb0, nothing set is needed there; else its parameters are zeros against
      what is not set. */
  lemma EntryAgrees(f: Function, safe: set<ValueId>)
    requires Analyzable(f)
    ensures BlockIndex(f, 0) >= 0
    ensures Agree(EntryTakesNothing(f), f, BlockIndex(f, 0), 0, EntryFrame(Typed(safe), f), EntryFrame(Generic, f))
  {
    hide TypeOf, Supported, ConstantsFit, RegisterCount, Ssa.Available;
    if EntryTakesNothing(f) {
      forall v ensures !Ssa.Available(View(f), 0, 0, v) {
        Ssa.EntryAvailability(View(f), BlockIndex(f, 0), v);
      }
    }
  }

  lemma EntryHolds(f: Function, a: Analysis, safe: set<ValueId>, b: nat)
    requires Analyzable(f) && IsFixpoint(f, a) && b == BlockIndex(f, 0)
    ensures a.hasEntry[b]
    ensures Holds(f, f.blocks[b], 0, AbsAt(f, f.blocks[b], a.entryLocals[b], 0), EntryFrame(Typed(safe), f))
  {
    hide Accepted;
    var tf := EntryFrame(Typed(safe), f);
    assert LocalsHold(f, InitialLocals(f), tf);
    assert LocalsHold(f, a.entryLocals[b], tf);
    StartHolds(f, f.blocks[b], a.entryLocals[b], tf);
  }

  lemma EntryInStep(f: Function, a: Analysis, safe: set<ValueId>)
    requires Analyzable(f) && IsFixpoint(f, a)
    ensures BlockIndex(f, 0) >= 0
    ensures InStep(EntryTakesNothing(f), f, a, BlockIndex(f, 0), 0, EntryFrame(Typed(safe), f), EntryFrame(Generic, f))
  {
    hide Analyzable, Holds, AbsAt, Agree, EntryTakesNothing;
    EntryAgrees(f, safe);
    EntryHolds(f, a, safe, BlockIndex(f, 0));
  }

  predicate MeetsMinRemainderInCall(f: Function, args: seq<Value>, budget: nat, executed: nat) {
    var entry := BlockIndex(f, 0);
    entry >= 0 && MeetsMinRemainder(f, args, budget, entry, 0, EntryFrame(Generic, f), executed)
  }

  /** Calling the typed lowering: batched charges under fast accounting, unit charges otherwise. */
  function CallTyped(
    fast: bool, safe: set<ValueId>, f: Function, args: seq<Value>, budget: nat, executed: nat): Outcome
  {
    var entry := BlockIndex(f, 0);
    if !fast || entry < 0 then Call(Typed(safe), f, args, budget, executed)
    else RunFast(safe, f, args, budget, entry, EntryFrame(Typed(safe), f), executed)
  }

  /** Where a call of the generic lowering departs from the typed one. */
  function DepartureOfCall(f: Function, args: seq<Value>, budget: nat, executed: nat): Departure {
    var entry := BlockIndex(f, 0);
    if entry < 0 then Nowhere else FirstDeparture(f, args, budget, entry, 0, EntryFrame(Generic, f), executed)
  }

  /** For every verified, supported function, parameters on bb0 or not, every call and every budget, under
      either accounting: as long as the generic run does not first come to an equality between what
      is not set and a zero, the lowerings end alike if and only if it comes to neither INT_MIN % -1
      nor a use of what is not set. */
  lemma LoweringsAgreeExactly(
    f: Function, a: Analysis, safe: set<ValueId>, fast: bool, args: seq<Value>, budget: nat, executed: nat)
    requires Analyzable(f) && Certified(f, a, safe) && ArgumentsTyped(f, args)
    ensures RunsCompare(DepartureOfCall(f, args, budget, executed),
                        CallTyped(fast, safe, f, args, budget, executed), Call(Generic, f, args, budget, executed))
    ensures !DepartureOfCall(f, args, budget, executed).AtEquality? ==>
            (CallTyped(fast, safe, f, args, budget, executed) == Call(Generic, f, args, budget, executed)
             <==> DepartureOfCall(f, args, budget, executed).Nowhere?)
    ensures EntryTakesNothing(f) ==>
            !DepartureOfCall(f, args, budget, executed).AtUnset? && !DepartureOfCall(f, args, budget, executed).AtEquality?
  {
    hide Analyzable, InStep, EntryTakesNothing, FirstDeparture, Run;
    EntryInStep(f, a, safe);
    var b := BlockIndex(f, 0);
    var tf, gf := EntryFrame(Typed(safe), f), EntryFrame(Generic, f);
    StaysInStep(EntryTakesNothing(f), f, a, safe, args, budget, b, 0, tf, gf, executed);
    FastIsUnit(safe, f, args, budget, b, 0, tf, executed, executed);
  }

  /** For every verified, supported function whose entry takes nothing, every call and every budget,
      under either accounting: the typed lowering ends with the same value or error code and the same
      instruction count as the generic lowering if and only if the generic run does not come to
      INT_MIN % -1.  When it does, the typed call ends there with an overflow. */
  lemma TypedPreservesMeaning(
    f: Function, a: Analysis, safe: set<ValueId>, fast: bool, args: seq<Value>, budget: nat, executed: nat)
    requires Compilable(f) && Certified(f, a, safe) && ArgumentsTyped(f, args)
    ensures CallTyped(fast, safe, f, args, budget, executed) == Call(Generic, f, args, budget, executed)
            <==> !MeetsMinRemainderInCall(f, args, budget, executed)
    ensures MeetsMinRemainderInCall(f, args, budget, executed)
            ==> CallTyped(fast, safe, f, args, budget, executed).result == Failed(IntegerOverflow)
  {
    hide Analyzable, EntryTakesNothing, FirstDeparture, MeetsMinRemainder, Run;
    LoweringsAgreeExactly(f, a, safe, fast, args, budget, executed);
    if BlockIndex(f, 0) >= 0 {
      DepartsAtRemainder(f, args, budget, BlockIndex(f, 0), 0, EntryFrame(Generic, f), executed);
    }
  }

  /** The analysis and the theorem together: what the analysis returns may be compiled with. */
  method SafeSetOf(f: Function) returns (safe: set<ValueId>)
    requires Analyzable(f)
    ensures forall fast: bool, args, budget: nat, executed: nat :: ArgumentsTyped(f, args) ==>
              RunsCompare(DepartureOfCall(f, args, budget, executed),
                          CallTyped(fast, safe, f, args, budget, executed), Call(Generic, f, args, budget, executed))
    ensures EntryTakesNothing(f) ==> forall fast: bool, args, budget: nat, executed: nat :: ArgumentsTyped(f, args) ==>
              (CallTyped(fast, safe, f, args, budget, executed) == Call(Generic, f, args, budget, executed)
               <==> !MeetsMinRemainderInCall(f, args, budget, executed))
  {
    hide Analyzable, Certified, CallTyped, Call, RunsCompare, DepartureOfCall, MeetsMinRemainderInCall, ArgumentsTyped,
      EntryTakesNothing;
    safe := AnalyzeTypedIntegerRanges(f);
    ghost var a :| Certified(f, a, safe);
    forall fast: bool, args, budget: nat, executed: nat | ArgumentsTyped(f, args)
      ensures RunsCompare(DepartureOfCall(f, args, budget, executed),
                          CallTyped(fast, safe, f, args, budget, executed), Call(Generic, f, args, budget, executed))
      ensures EntryTakesNothing(f) ==>
              (CallTyped(fast, safe, f, args, budget, executed) == Call(Generic, f, args, budget, executed)
               <==> !MeetsMinRemainderInCall(f, args, budget, executed))
    {
      LoweringsAgreeExactly(f, a, safe, fast, args, budget, executed);
      if EntryTakesNothing(f) { TypedPreservesMeaning(f, a, safe, fast, args, budget, executed); }
    }
  }

  /** A function without a remainder operation has no input on which the lowerings part. */
  lemma {:induction false} NoRemainderNoMeeting(
    f: Function, args: seq<Value>, budget: nat, b: nat, k: nat, fr: Frame, executed: nat)
    requires b < |f.blocks| && k <= |f.blocks[b].instructions|
    requires forall c, j :: 0 <= c < |f.blocks| && 0 <= j < |f.blocks[c].instructions| ==>
               !f.blocks[c].instructions[j].opcode.RemainderInt?
    ensures !MeetsMinRemainder(f, args, budget, b, k, fr, executed)
    decreases budget - executed
  {
    hide GenericExec;
    if executed < budget {
      if k < |f.blocks[b].instructions| {
        match Exec(Generic, f.blocks[b].instructions[k], args, fr)
        case Fault(_) =>
        case Next(after) => NoRemainderNoMeeting(f, args, budget, b, k + 1, after, executed + 1);
      } else {
        match Leave(Generic, f, f.blocks[b].terminator, fr)
        case Goto(t, after) => NoRemainderNoMeeting(f, args, budget, t, 0, after, executed + 1);
        case _ =>
      }
    }
  }
}
