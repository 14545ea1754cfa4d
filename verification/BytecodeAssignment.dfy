/** Locals and definite assignment, which the bytecode verifier does not check: when the slots of a
    frame are cleared beforehand (src/runtime/Interpreter.cpp:146-157), types hold exactly as long as
    every loaded local was stored before; and a function whose every path stores before it loads is
    well typed whatever the slots hold. */
module BytecodeAssignment {
  import opened Scalars
  import opened Bytecode
  import opened BytecodeRuns
  import opened BytecodeSafety
  import Mir
  import Ssa

  // ----- stores and loads along a run -----

  predicate StoresNow(m: Machine, f: Function, s: State, slot: nat) {
    BeforeInstruction(m, f, s) && Current(m, f, s).opcode.StoreLocal? && Current(m, f, s).index == slot
  }

  /** One of the first n steps stores into the slot. */
  ghost predicate StoredBy(m: Machine, f: Function, n: nat, slot: nat) {
    exists k: nat :: k < n && StoresNow(m, f, After(m, f, k), slot)
  }

  predicate LoadsNow(m: Machine, f: Function, s: State, slot: nat) {
    BeforeInstruction(m, f, s) && Current(m, f, s).opcode.LoadLocal? && Current(m, f, s).index == slot
  }

  /** Each of the first n steps that loads a local loads one that was stored before on the run. */
  ghost predicate LoadsFollowStores(m: Machine, f: Function, n: nat) {
    forall k: nat, slot: nat :: k < n && LoadsNow(m, f, After(m, f, k), slot) ==> StoredBy(m, f, k, slot)
  }

  lemma StoredLast(m: Machine, f: Function, n: nat, slot: nat)
    requires n > 0
    ensures StoredBy(m, f, n, slot) <==> StoredBy(m, f, n - 1, slot) || StoresNow(m, f, After(m, f, n - 1), slot)
  {
    hide After, StoresNow;
    if StoresNow(m, f, After(m, f, n - 1), slot) { assert n - 1 < n; }
  }

  /** A slot that was not stored into holds what it held before the call. */
  lemma {:induction false} UntouchedSlot(m: Machine, f: Function, n: nat, slot: nat)
    requires After(m, f, n).At? && slot < |f.localTypes| && !StoredBy(m, f, n, slot)
    ensures |After(m, f, n).frame.locals| == |f.localTypes|
    ensures After(m, f, n).frame.locals[slot] == SlotOr(m.staleLocals, slot, Unset)
  {
    if n > 0 {
      hide Evaluate, Read, StoredBy;
      StoredLast(m, f, n, slot);
      UntouchedSlot(m, f, n - 1, slot);
    }
  }

  /** A slot that was stored into holds a value of its type. */
  lemma {:induction false} StoredSlot(fit: bool, m: Machine, f: Function, n: nat, slot: nat)
    requires Accepted(f) && EntryTakesNothing(f) && (fit ==> ConstantsFit(f) && ArgumentsFit(m))
    requires NoForeignLoads(fit, m, f, n) && After(m, f, n).At? && slot < |f.localTypes| && StoredBy(m, f, n, slot)
    ensures |After(m, f, n).frame.locals| == |f.localTypes|
    ensures Conforms(fit, After(m, f, n).frame.locals[slot], f.localTypes[slot])
  {
    hide Accepted, EntryTakesNothing, StoredBy, Conforms, ConstantsFit, ArgumentsFit, LoadsForeign, After;
    NothingStoredYet(m, f, slot);
    StoredLast(m, f, n, slot);
    LocalsShape(fit, m, f, n);
    LocalsShape(fit, m, f, n - 1);
    var s := After(m, f, n - 1);
    StepFrom(m, f, n);
    if StoresNow(m, f, s, slot) {
      AlwaysWellWritten(m, f, n - 1);
      StaysWellTyped(fit, m, f, n - 1);
      StoreConforms(fit, m, f, s);
    } else {
      StoredSlot(fit, m, f, n - 1, slot);
      OtherSlotsStay(m, f, s, slot);
    }
  }

  lemma NothingStoredYet(m: Machine, f: Function, slot: nat)
    ensures !StoredBy(m, f, 0, slot)
  {
  }

  lemma StepFrom(m: Machine, f: Function, n: nat)
    requires n > 0 && After(m, f, n).At?
    ensures After(m, f, n) == Step(m, f, After(m, f, n - 1)) && After(m, f, n - 1).At?
  {
  }

  lemma LocalsShape(fit: bool, m: Machine, f: Function, n: nat)
    requires Accepted(f) && EntryTakesNothing(f) && (fit ==> ConstantsFit(f) && ArgumentsFit(m))
    requires NoForeignLoads(fit, m, f, n)
    ensures After(m, f, n).At? ==> |After(m, f, n).frame.locals| == |f.localTypes|
  {
    hide Accepted, EntryTakesNothing, ConstantsFit, ArgumentsFit, LoadsForeign, After;
    StaysWellTyped(fit, m, f, n);
  }

  lemma StoreConforms(fit: bool, m: Machine, f: Function, s: State)
    requires Accepted(f) && BeforeInstruction(m, f, s) && WellWritten(f, s) && WellTyped(fit, m, f, s)
    requires Current(m, f, s).opcode.StoreLocal?
    ensures var slot := Current(m, f, s).index;
            var t := Step(m, f, s);
            slot < |f.localTypes| && t.At? && slot < |t.frame.locals| && Conforms(fit, t.frame.locals[slot], f.localTypes[slot])
  {
    hide WellWritten, Ssa.Valid, AllDefined, TablesOk;
    OperandsHold(fit, m, f, s);
    assert BlockOk(f, f.blocks[s.block]);
    assert InstructionOk(f, Current(m, f, s));
  }

  lemma OtherSlotsStay(m: Machine, f: Function, s: State, slot: nat)
    requires InBounds(f, s) && s.At? && Step(m, f, s).At? && slot < |s.frame.locals| && !StoresNow(m, f, s, slot)
    ensures slot < |Step(m, f, s).frame.locals| && Step(m, f, s).frame.locals[slot] == s.frame.locals[slot]
  {
    hide Evaluate, Read;
  }

  /** Where every load follows a store, no load is foreign, whatever the slots held before. */
  lemma {:induction false} StoredLoadsAreTyped(fit: bool, m: Machine, f: Function, n: nat)
    requires Accepted(f) && EntryTakesNothing(f) && (fit ==> ConstantsFit(f) && ArgumentsFit(m))
    requires LoadsFollowStores(m, f, n)
    ensures NoForeignLoads(fit, m, f, n)
  {
    hide Accepted, EntryTakesNothing, StoredBy, Conforms, ConstantsFit, ArgumentsFit, After;
    if n > 0 {
      StoredLoadsAreTyped(fit, m, f, n - 1);
      var s := After(m, f, n - 1);
      if LoadsForeign(fit, m, f, s) {
        assert LoadsNow(m, f, s, Current(m, f, s).index);
        StoredSlot(fit, m, f, n - 1, Current(m, f, s).index);
      }
    }
  }

  /** With the slots cleared before the call, registers hold their types throughout a run if and only
      if every local the run loads was stored before on it. */
  lemma ClearedSlotsExactly(fit: bool, m: Machine, f: Function, n: nat)
    requires Accepted(f) && EntryTakesNothing(f) && (fit ==> ConstantsFit(f) && ArgumentsFit(m))
    requires forall k: nat :: SlotOr(m.staleLocals, k, Unset).Unset?
    ensures NoForeignLoads(fit, m, f, n) <==> LoadsFollowStores(m, f, n)
    ensures (forall k: nat :: k <= n ==> WellTyped(fit, m, f, After(m, f, k))) <==> LoadsFollowStores(m, f, n)
  {
    hide Accepted, EntryTakesNothing, StoredBy, ConstantsFit, ArgumentsFit, After, WellTyped;
    TypesHoldExactly(fit, m, f, n);
    if LoadsFollowStores(m, f, n) {
      StoredLoadsAreTyped(fit, m, f, n);
    }
    if NoForeignLoads(fit, m, f, n) {
      forall k: nat, slot: nat | k < n && LoadsNow(m, f, After(m, f, k), slot) ensures StoredBy(m, f, k, slot) {
        if !StoredBy(m, f, k, slot) { UntouchedLoadIsForeign(fit, m, f, k, slot); }
      }
    }
  }

  lemma UntouchedLoadIsForeign(fit: bool, m: Machine, f: Function, n: nat, slot: nat)
    requires Accepted(f) && LoadsNow(m, f, After(m, f, n), slot) && !StoredBy(m, f, n, slot)
    requires SlotOr(m.staleLocals, slot, Unset).Unset?
    ensures LoadsForeign(fit, m, f, After(m, f, n))
  {
    hide Accepted, StoredBy, After;
    LoadInRange(m, f, After(m, f, n));
    UntouchedSlot(m, f, n, slot);
  }

  lemma LoadInRange(m: Machine, f: Function, s: State)
    requires Accepted(f) && BeforeInstruction(m, f, s) && Current(m, f, s).opcode.LoadLocal?
    ensures Current(m, f, s).index < |f.localTypes|
  {
    hide Ssa.Valid, AllDefined, TablesOk;
    assert BlockOk(f, f.blocks[s.block]);
    assert InstructionOk(f, Current(m, f, s));
  }

  // ----- definite assignment, read off the function -----

  /** Among its first k instructions the block stores into the slot. */
  predicate StoresIn(b: BasicBlock, k: nat, slot: nat)
    requires k <= |b.instructions|
  {
    exists j :: 0 <= j < k && b.instructions[j].opcode.StoreLocal? && b.instructions[j].index == slot
  }

  /** A block that the path has left behind stores into the slot. */
  ghost predicate StoresAlong(f: Function, path: seq<nat>, slot: nat) {
    exists q, i :: 0 <= q < |path| - 1 && 0 <= i < |f.blocks| && f.blocks[i].id == path[q] &&
                   StoresIn(f.blocks[i], |f.blocks[i].instructions|, slot)
  }

  /** On every path from bb0 to a load, its slot is stored into first. */
  ghost predicate DefinitelyAssigned(f: Function) {
    forall path, i | 0 <= i < |f.blocks| && Ssa.PathTo(View(f), path, f.blocks[i].id) ::
      forall k | 0 <= k < |f.blocks[i].instructions| && f.blocks[i].instructions[k].opcode.LoadLocal? ::
        var slot := f.blocks[i].instructions[k].index;
        StoresIn(f.blocks[i], k, slot) || StoresAlong(f, path, slot)
  }

  /** A path from bb0 to the block of s, such that the run has stored into whatever the path and the
      block so far store into. */
  ghost predicate Follows(m: Machine, f: Function, n: nat, path: seq<nat>) {
    var s := After(m, f, n);
    s.At? ==>
      && Ssa.PathTo(View(f), path, f.blocks[s.block].id)
      && (forall slot: nat :: StoresAlong(f, path, slot) || StoresIn(f.blocks[s.block], s.index, slot) ==>
            StoredBy(m, f, n, slot))
  }

  lemma {:induction false} RunsFollowPaths(m: Machine, f: Function, n: nat) returns (path: seq<nat>)
    requires Accepted(f)
    ensures Follows(m, f, n, path)
  {
    hide Accepted, Follows, AfterInstruction, AfterTerminator, After;
    if n == 0 {
      path := [0];
      StartFollows(m, f);
    } else {
      path := RunsFollowPaths(m, f, n - 1);
      var s := After(m, f, n - 1);
      if After(m, f, n).At? {
        StepFrom(m, f, n);
        if BeforeInstruction(m, f, s) {
          InstructionFollows(m, f, n, path);
        } else {
          EdgeFollows(m, f, n, path);
          path := path + [f.blocks[After(m, f, n).block].id];
        }
      } else {
        FinishedFollows(m, f, n, path);
      }
    }
  }

  lemma FinishedFollows(m: Machine, f: Function, n: nat, path: seq<nat>)
    requires After(m, f, n).Finished?
    ensures Follows(m, f, n, path)
  {
  }

  lemma StartFollows(m: Machine, f: Function)
    requires Accepted(f)
    ensures Follows(m, f, 0, [0])
  {
    var s := After(m, f, 0);
    if s.At? { assert View(f)[s.block].id == 0; }
  }

  lemma InstructionFollows(m: Machine, f: Function, n: nat, path: seq<nat>)
    requires n > 0 && Follows(m, f, n - 1, path) && After(m, f, n).At? && BeforeInstruction(m, f, After(m, f, n - 1))
    requires After(m, f, n) == AfterInstruction(m, f, After(m, f, n - 1))
    ensures Follows(m, f, n, path)
  {
    hide After, Evaluate, StoredBy, StoresAlong, Ssa.PathTo;
    var s := After(m, f, n - 1);
    forall slot: nat | StoresAlong(f, path, slot) || StoresIn(f.blocks[s.block], s.index + 1, slot)
      ensures StoredBy(m, f, n, slot)
    {
      StoredLast(m, f, n, slot);
      if !StoresAlong(f, path, slot) && !StoresIn(f.blocks[s.block], s.index, slot) {
        assert StoresNow(m, f, s, slot);
      }
    }
  }

  lemma EdgeFollows(m: Machine, f: Function, n: nat, path: seq<nat>)
    requires Accepted(f) && n > 0 && Follows(m, f, n - 1, path)
    requires var s := After(m, f, n - 1); s.At? && s.executed < m.budget && !BeforeInstruction(m, f, s)
    requires After(m, f, n).At? && After(m, f, n) == AfterTerminator(m, f, After(m, f, n - 1))
    ensures Follows(m, f, n, path + [f.blocks[After(m, f, n).block].id])
  {
    hide After, AfterTerminator, StoredBy, StoresAlong, StoresIn, Accepted, Ssa.PathTo, View;
    var s, t := After(m, f, n - 1), After(m, f, n);
    TakenEdge(m, f, s);
    NothingStoredAtStart(f.blocks[t.block]);
    Ssa.PathExtends(View(f), path, f.blocks[s.block].id, f.blocks[t.block].id);
    forall slot: nat | StoresAlong(f, path + [f.blocks[t.block].id], slot) ensures StoredBy(m, f, n, slot) {
      StoredLast(m, f, n, slot);
      OneMoreBlock(f, path, s.block, f.blocks[t.block].id, slot);
    }
  }

  lemma NothingStoredAtStart(b: BasicBlock)
    ensures forall slot :: !StoresIn(b, 0, slot)
  {
  }

  lemma OneMoreBlock(f: Function, path: seq<nat>, b: nat, next: nat, slot: nat)
    requires Accepted(f) && b < |f.blocks| && Ssa.PathTo(View(f), path, f.blocks[b].id)
    requires StoresAlong(f, path + [next], slot)
    ensures StoresAlong(f, path, slot) || StoresIn(f.blocks[b], |f.blocks[b].instructions|, slot)
  {
    hide StoresIn, BlockOk, TablesOk, AllDefined;
    var longer, view := path + [next], View(f);
    var q, i :| 0 <= q < |longer| - 1 && 0 <= i < |f.blocks| && f.blocks[i].id == longer[q] &&
      StoresIn(f.blocks[i], |f.blocks[i].instructions|, slot);
    if q == |path| - 1 {
      assert view[i].id == view[b].id;
    } else {
      assert f.blocks[i].id == path[q];
    }
  }

  lemma TakenEdge(m: Machine, f: Function, s: State)
    requires Accepted(f) && InBounds(f, s) && s.At? && AfterTerminator(m, f, s).At?
    ensures AfterTerminator(m, f, s).index == 0
    ensures Ssa.HasEdge(View(f), f.blocks[s.block].id, f.blocks[AfterTerminator(m, f, s).block].id)
  {
    hide BlockOk, TablesOk, AllDefined, Read, Ssa.Valid, Saved, Assign;
    var view, t := View(f), AfterTerminator(m, f, s);
    var edges := Mir.EdgesOf(f.blocks[s.block].terminator);
    assert view[t.block].id == f.blocks[t.block].id;
    var e :| 0 <= e < |edges| && edges[e].target == f.blocks[t.block].id;
    assert Ssa.EdgeAt(view, s.block, e, f.blocks[s.block].id, f.blocks[t.block].id);
  }

  /** A function that assigns definitely: its registers hold values of their types throughout every
      run, whatever another call left in the slots of its locals. */
  lemma {:induction false} AssignedFunctionsAreTyped(fit: bool, m: Machine, f: Function, n: nat)
    requires Accepted(f) && EntryTakesNothing(f) && (fit ==> ConstantsFit(f) && ArgumentsFit(m))
    requires DefinitelyAssigned(f)
    ensures LoadsFollowStores(m, f, n) && NoForeignLoads(fit, m, f, n)
    ensures forall k: nat :: k <= n ==> WellTyped(fit, m, f, After(m, f, k))
  {
    hide Accepted, EntryTakesNothing, StoredBy, ConstantsFit, ArgumentsFit, After, WellTyped;
    forall k: nat, slot: nat | k < n && LoadsNow(m, f, After(m, f, k), slot) ensures StoredBy(m, f, k, slot) {
      var path := RunsFollowPaths(m, f, k);
    }
    StoredLoadsAreTyped(fit, m, f, n);
    TypesHoldExactly(fit, m, f, n);
  }
}
