# RealScript: verified models

Dafny models of the parts of RealScript whose correctness everything else leans on, and proofs of what
they promise. `dafny verify dfyconfig.toml` checks the project.

| part | modules | main results |
|---|---|---|
| Ahead-of-time compiler: interval analysis, dropped overflow checks, batched accounting, edge copies | `Scalars`, `Ssa`, `Mir`, `AotSemantics`, `TypedRanges`, `RangeAnalysis`, `RangePrecision`, `RangeTightness`, `AotBatching`, `AotDepartures`, `AotPreservation`, `MirRules`, `AotExamples` | `AotPreservation.TypedPreservesMeaning`, `AotPreservation.LoweringsAgreeExactly`, `AotPreservation.RangesAreSound`, `RangeTightness.AnalysisIsTight`, `RangePrecision.SafeExactly`, `AotBatching.FastIsUnit` |
| Bytecode verifier and what accepted functions do when they run | `Ssa`, `Bytecode`, `BytecodeRuns`, `BytecodeSafety`, `BytecodeAssignment`, `BytecodeRules`, `BytecodeAnswers`, `BytecodeExamples` | `Ssa.ComputeDominators`, `BytecodeRules.RulesAreExact`, `BytecodeSafety.UnwrittenExactly`, `BytecodeSafety.TypesHoldExactly`, `BytecodeAssignment.AssignedFunctionsAreTyped`, `BytecodeSafety.RunsEndWell` |
| Gameplay kernel: timers, events, the host's linked maps, sequences, snapshots | `Ordered`, `Timers`, `Sequences`, `Scheduler`, `Events`, `HostLinks`, `HostState`, `HostPlans`, `HostDispatch`, `Host`, `HostRuns`, `HostLimits`, `HostSequences`, `HostEvents`, `HostTheorems` | `HostTheorems.Run`, `HostEvents.HeardOnce`, `HostEvents.FirstSentFirstHeard`, `HostLimits.RoomMeansRestorable`, `HostSequences.SequenceDispatchesInOrder`, `HostSequences.SequenceMissesNothing`, `HostTheorems.ReplayRepeats`, `Timers.CountedTaskFires` |
| Random streams | `Random`, `RandomOutput` | `Random.ReturnsExactly`, `Random.EveryStateComes`, `Random.RandomStream.NextInt`, `RandomOutput.OutputBits`, `RandomOutput.EveryWordEquallyOften`, `RandomOutput.ResultsEquallyOften` |
| Save format | `Wire`, `WireLayout`, `SaveFormat`, `SaveContainer`, `SaveLayout`, `SaveCodec` | `SaveContainer.DecodeAfterEncode`, `SaveContainer.EncodeAfterDecode`, `SaveLayout.DecodesExactly`, `SaveLayout.DamageIsFound` |
| Function bodies in bytecode files | `WireLayout`, `BodyFormat`, `BodyLayout`, `BodyCodec` | `BodyFormat.BodiesRoundTrip`, `BodyLayout.SectionHasLayout`, `BodyFormat.OverlapCheckIsExact` |
| Multicast delegates | `Delegates` | `Delegates.DelegateHeap.CombineThenRemove`, `Delegates.FlattensExactly` |
| Debug session handshake | `DebugSession` | `DebugSession.AlwaysConsistent`, `DebugSession.StopsAfterTerminate`, `DebugSession.TerminateTakesHold`, `DebugSession.PauseTakesHold` |
| Struct layouts | `StructLayout` | `StructLayout.CheckLayouts` |
| Fixed-point library | `FixedMath` | `FixedMath.Sqrt64`, `FixedMath.MoveStaysInBox`, `FixedMath.ReachesExactly`, `FixedMath.SucceedsExactly` |

Code that updates state in place is modelled by classes and methods with loops; each is proved against a
specification function or an exact condition, and the theorems are about those. Two verifiers share one SSA
check, so `Ssa` cites the bytecode one; the MIR one has the same text (src/mir/MirVerifier.cpp:275-548).
`Options` holds the one optional type the modules share. The host is modelled twice: `Host` is the class with
its maps and loops, `HostRuns` says as a function what each operation makes of a host and hands to the scripts;
`HostTheorems.PerformAll` ties the two, and the theorems about whole runs are about the function. What a
specification function computes is stated once more without it: `MirRules` and `BytecodeAnswers` say what the
operations answer, `RangePrecision` how narrow an interval is, `WireLayout` and the two layouts at which byte each
field stands.

## Where the code falls short

Five intended properties are false of the code as it stands. Each has a concrete input that shows it, and
theorems say when the property does hold.

- The typed lowering overflows on INT_MIN % -1, where the generic one returns 0
  (`AotExamples.LoweringsPart`). The two agree on a call if and only if its run does not come to that
  operation (`AotPreservation.TypedPreservesMeaning`).
- Neither verifier forbids parameters on bb0. The caller passes nothing to them, so they are unset in the
  generic lowering and zero in the typed one (`AotExamples.EntryParametersPart`). With or without them, unless
  the generic run first compares an unset value with a zero for equality, the lowerings agree if and only if
  the run neither comes to INT_MIN % -1 nor uses an unset value as an operand, a condition or a result
  (`AotPreservation.LoweringsAgreeExactly`). At such an equality the results differ, and the runs may end alike
  or not (`AotExamples.EqualityDecidesNothing`). In bytecode, a register that is read has not been written if
  and only if it is a parameter of bb0 and no edge has come back to bb0 (`BytecodeSafety.UnwrittenExactly`).
- The bytecode verifier does not check definite assignment of locals, and with fast accounting the arena does
  not clear them, so a function can hand out another call's value (`BytecodeExamples.LeftoverLocalEscapes`).
  Types hold throughout a run if and only if the run loads no slot whose content is not of the local's type
  (`BytecodeSafety.TypesHoldExactly`). With cleared slots that is so if and only if every load follows a store
  of the run (`BytecodeAssignment.ClearedSlotsExactly`); and whatever the slots hold it is so for a function
  that stores into a slot on every path to a load of it (`BytecodeAssignment.AssignedFunctionsAreTyped`).
- The verifier accepts the negation of an unsigned value, which always fails
  (`BytecodeExamples.UnsignedNegationFails`); it is the only type mismatch an accepted function meets
  (`BytecodeSafety.EvaluationSound`), and the only instruction that is accepted and never goes well
  (`BytecodeRules.RulesAreExact`).
- A repeating timer whose next due tick would overflow is dropped while its call stays, and the host then
  refuses its own snapshot (`HostTheorems.OverflowLosesTimer`). A host's snapshot is accepted if and only if
  every call still has its timer and no counter has wrapped (`HostTheorems.SnapshotsAreAccepted`). A run keeps
  the timers until a drain takes that branch (`HostLimits.AttachedUntilOverflow`); none does when every drain's
  tick leaves room for the longest interval scheduled, and then, with fewer than 2^64 - 1 ids asked for, every
  snapshot of the run is accepted (`HostLimits.RoomMeansRestorable`).

## Model

| member | source | states |
|---|---|---|
| Scalars.TruncDivMod | src/aot_cpp/AotRuntime.cpp:2016-2033 | quotient times divisor plus remainder is the dividend, and the remainder is smaller than the divisor; Scalars.TruncationIsUnique adds the rounding |
| Scalars.TruncatesTowardsZero | src/aot_cpp/AotRuntime.cpp:2016-2033 | the remainder is zero or has the sign of the dividend, and the quotient times the divisor is no larger than the dividend |
| Scalars.TruncationIsUnique | src/aot_cpp/AotRuntime.cpp:2016-2033 | a quotient and a remainder that recompose the dividend, the remainder smaller than the divisor and of the dividend's sign or zero, are these and no others |
| Scalars.TruncDivFits | src/aot_cpp/AotRuntime.cpp:2016-2033 | the quotient of two int32 values is int32 if and only if it is not INT_MIN / -1; the remainder always is |
| Ssa.BuildEdges | src/bytecode/BytecodeVerifier.cpp:793-808 | successor and predecessor lists hold exactly the edges between existing blocks |
| Ssa.ComputeReachable | src/bytecode/BytecodeVerifier.cpp:839-853 | breadth-first search finds exactly the blocks some path from bb0 leads to |
| Ssa.MeetPredecessors | src/bytecode/BytecodeVerifier.cpp:880-895 | intersects the predecessors' sets exactly, and adds the block itself |
| Ssa.Sweep | src/bytecode/BytecodeVerifier.cpp:875-900 | a sweep keeps every true dominator; if it changes anything the sets shrink, and if not every block is settled |
| Ssa.SettledIsExact | src/bytecode/BytecodeVerifier.cpp:873-901 | at the fixpoint the set of a reachable block is exactly the blocks that lie on every path to it |
| Ssa.ComputeDominators | src/bytecode/BytecodeVerifier.cpp:863-901 | the dominator loop ends, and its sets are the path-defined dominators of every reachable block, both ways |
| Ssa.CollectDefinitions | src/bytecode/BytecodeVerifier.cpp:727-775 | succeeds exactly when no register is defined twice; the table is then the definitions of the function |
| Ssa.CheckUseIsAvailable | src/bytecode/BytecodeVerifier.cpp:913-947 | checkUse passes exactly where the definition comes before the use on every path |
| Ssa.CheckBlockUses | src/bytecode/BytecodeVerifier.cpp:986-1008 | all uses of a block pass exactly when all of them are available where they stand |
| Ssa.Verify | src/bytecode/BytecodeVerifier.cpp:726-1008 | the verdict of the SSA part is exactly validity, stated over paths and not over the algorithm |
| Ssa.EntryAvailability | src/bytecode/BytecodeVerifier.cpp:913-947 | at the start of bb0 nothing is available but its own parameters |
| Ssa.StepAvailability | src/bytecode/BytecodeVerifier.cpp:913-947 | an instruction makes available the register it defines and no other |
| Ssa.EdgeAvailability | src/bytecode/BytecodeVerifier.cpp:949-984 | an edge makes available the parameters of its target and nothing else |
| Mir.VerifyFunction | src/mir/MirVerifier.cpp:275-560 | for functions of the scalar opcodes the typed lowering supports: accepts exactly those that are valid SSA with well-typed operations and edges |
| TypedRanges.InstructionBounds | src/aot_cpp/AotCpp.cpp:202-219 | every value id an instruction mentions lies below the register count, so the emitted registers cover it |
| AotSemantics.TransferIsParallel | src/aot_cpp/AotCpp.cpp:799-821 | two-phase edge copies are one parallel assignment: every parameter ends with what its argument held before, other registers keep their values |
| AotSemantics.RunCharges | src/aot_cpp/AotRuntime.cpp:290-298 | a run never charges past the budget, and a run that charges nothing ends in a budget fault |
| AotSemantics.BudgetIsExact | src/aot_cpp/AotRuntime.cpp:290-298 | a run that ends by itself after n charges ends so under every budget of at least n, and under a smaller one with a budget fault when that is used up |
| AotSemantics.TrappingIsGeneric | src/aot_cpp/AotRuntime.cpp:2026-2033 | generic arithmetic and arithmetic that traps on INT_MIN % -1 give equal runs exactly when no run step evaluates it; else the trapping run ends there with an overflow |
| TypedRanges.SafeMeansInRange | src/aot_cpp/AotCpp.cpp:530-574 | an operation called safe stays in int32 and in the interval computed for it |
| TypedRanges.ArithmeticHolds | src/aot_cpp/AotCpp.cpp:530-574 | intervals, origins and recorded comparisons stay true across arithmetic, checked or elided |
| TypedRanges.CompareHolds | src/aot_cpp/AotCpp.cpp:575-588 | a recorded comparison stays true of the compared registers |
| TypedRanges.StoreHolds | src/aot_cpp/AotCpp.cpp:523-529 | a store invalidates by version exactly the origins of its slot, and keeps all records true |
| TypedRanges.StepHolds | src/aot_cpp/AotCpp.cpp:502-596 | whatever the analysis records stays true across every instruction that does not fail |
| TypedRanges.RefinementHolds | src/aot_cpp/AotCpp.cpp:598-677 | the branch really taken is never judged unreachable, and its version-guarded refined intervals hold |
| RangeAnalysis.Insert | src/aot_cpp/AotCpp.cpp:373-386 | inserting into the sorted thresholds keeps order and adds that element only |
| RangeAnalysis.BuildThresholds | src/aot_cpp/AotCpp.cpp:373-388 | the thresholds are exactly int32 bounds, zero and each clamped constant with its neighbours, in order |
| RangeAnalysis.UpperBound | src/aot_cpp/AotCpp.cpp:445-448 | the first threshold greater than a bound |
| RangeAnalysis.LowerBound | src/aot_cpp/AotCpp.cpp:458-461 | the first threshold not less than a bound |
| RangeAnalysis.WideningCovers | src/aot_cpp/AotCpp.cpp:444-466 | a widened bound is a threshold at or beyond the bound, inside int32 |
| RangeAnalysis.CountsShrink | src/aot_cpp/AotCpp.cpp:444-466 | widening a bound outwards never adds thresholds beyond it, and moving onto one takes it away |
| RangeAnalysis.MergeSlotSound | src/aot_cpp/AotCpp.cpp:436-472 | a merged interval covers both, and changes only by using up room: un-widened updates left, or thresholds beyond a bound |
| RangeAnalysis.MergeEntry | src/aot_cpp/AotCpp.cpp:424-475 | merging covers the incoming intervals, queues the block if and only if something changed, and uses up room if it did |
| RangeAnalysis.TransferBlock | src/aot_cpp/AotCpp.cpp:477-596 | one pass over a block gives its exit state and exactly the evaluated and the unsafe results |
| RangeAnalysis.AbsWithin | src/aot_cpp/AotCpp.cpp:502-596 | the transfer is monotone: wider entry intervals give wider states |
| RangeAnalysis.UnsafeGrows | src/aot_cpp/AotCpp.cpp:495-500 | what is unsafe for narrow entry intervals is unsafe for wider ones |
| RangeAnalysis.LeaveBlock | src/aot_cpp/AotCpp.cpp:679-696 | the terminator's merges cover every branch the pass found reachable, and only grow entries |
| RangeAnalysis.ProcessBlock | src/aot_cpp/AotCpp.cpp:477-697 | one turn of the worklist keeps all its invariants and either uses up room or leaves entries and worklist alone |
| RangeAnalysis.DrainedIsCertified | src/aot_cpp/AotCpp.cpp:699-704 | with the worklist drained, the safe set is what the fixpoint alone decides |
| RangeAnalysis.AnalyzeTypedIntegerRanges | src/aot_cpp/AotCpp.cpp:361-705 | the analysis ends on every function, loops included, and returns the set that the fixpoint its own turns reach certifies; RangeTightness.AnalysisIsTight adds how narrow that is |
| RangePrecision.EndsAreAttained | src/aot_cpp/AotCpp.cpp:530-574 | both ends of the interval of an operation are results of operands within their intervals |
| RangePrecision.ResultsAreInside | src/aot_cpp/AotCpp.cpp:530-574 | and every such result lies in it |
| RangePrecision.SafeExactly | src/aot_cpp/AotCpp.cpp:495-574 | an overflow check is dropped exactly when no operands within their intervals give a result outside int32 |
| RangePrecision.RecordsAreTight | src/aot_cpp/AotCpp.cpp:502-596 | the ends of what is recorded of a register can be given by its instruction; only arithmetic that may overflow is recorded as all of int32 |
| RangePrecision.StoresAreTight | src/aot_cpp/AotCpp.cpp:523-529 | a store hands its operand's interval to its local and leaves the others alone |
| RangePrecision.RefinedExactly | src/aot_cpp/AotCpp.cpp:598-677 | the interval of a local in a branch holds exactly the values it held before with which the comparison can come out that way |
| RangePrecision.UnreachableExactly | src/aot_cpp/AotCpp.cpp:598-677 | a branch is judged unreachable exactly when the interval of a local the comparison speaks of is empty there |
| RangePrecision.WidensToNearest | src/aot_cpp/AotCpp.cpp:444-466 | a widened bound is the nearest threshold at or beyond it |
| RangePrecision.MergeIsLeast | src/aot_cpp/AotCpp.cpp:436-472 | a bound moves only when it has to: to the incoming one for its first eight moves, to the nearest threshold beyond that later |
| RangeTightness.AnalysisIsTight | src/aot_cpp/AotCpp.cpp:361-705 | at the fixpoint each bound of the interval of an entered block is one that some way into the block hands over or, after more than eight moves, the nearest threshold |
| RangeTightness.AnalyzeTightly | src/aot_cpp/AotCpp.cpp:361-705 | what the analysis returns is certified by such a fixpoint |
| RangeTightness.RefinementGrows | src/aot_cpp/AotCpp.cpp:598-677 | branch refinement is monotone |
| AotBatching.BatchEnd | src/aot_cpp/AotCpp.cpp:886-903 | a batch ends at the first operation that can fail, or at the terminator |
| AotBatching.TypedRawConsumeBatches | src/aot_cpp/AotCpp.cpp:905-919 | the loop puts a batch's whole size at its first position and zero elsewhere |
| AotBatching.ChargesAddUp | src/aot_cpp/AotCpp.cpp:905-919 | the charges of a block add up to its instructions and its terminator |
| AotBatching.SteadyNeverFails | src/aot_cpp/AotCpp.cpp:886-903 | an instruction inside a batch cannot fail |
| AotBatching.ShortBudgetEnds | include/realscript/aot_cpp/AotRuntime.h:204-219 | a batch the budget cannot cover: unit charging also ends inside that batch, with a budget fault and the budget used up |
| AotBatching.FastIsUnit | src/aot_cpp/AotCpp.cpp:832-841 | batched accounting gives the same result, first error and final count as charging one instruction at a time, from any position with any budget |
| AotPreservation.ExecAgrees | src/aot_cpp/AotCpp.cpp:991-1104 | each emitted statement has the effect of the generic operation on agreeing operands, elided checks included |
| AotPreservation.TransferAgrees | src/aot_cpp/AotCpp.cpp:1191-1213 | typed and generic edge copies carry agreement over to the target block |
| AotDepartures.DepartsAtRemainder | src/aot_cpp/AotCpp.cpp:1059-1063 | a run that departs at a remainder meets INT_MIN % -1, and one that departs nowhere does not |
| AotDepartures.UnsetIsMismatch | src/aot_cpp/AotRuntime.cpp:1999-2002 | an operation that uses an unset value is a type mismatch in the generic lowering |
| AotPreservation.InstructionInStep | src/aot_cpp/AotCpp.cpp:983-1104 | one instruction, from frames that agree but for unset values against zeros: same failure or frames that agree again, unless the lowerings depart at it |
| AotPreservation.StaysInStep | src/aot_cpp/AotCpp.cpp:921-1155 | whole runs from such frames, for every budget: equal when the generic run departs nowhere, unequal when it departs at INT_MIN % -1 or at a use of an unset value |
| AotPreservation.DroppedCheckPasses | src/aot_cpp/AotCpp.cpp:1038-1048 | the overflow check that was left out would have passed |
| AotPreservation.RangesAreSound | src/aot_cpp/AotCpp.cpp:361-705 | in every run from int32 arguments, parameters on bb0 or not, the locals on entry to each block lie in its intervals and no elided check would have failed |
| AotPreservation.LoweringsAgreeExactly | src/aot_cpp/AotCpp.cpp:921-1155 | for every verified, supported function, call and budget, under either accounting: unless the generic run first comes to an equality of an unset value and a zero, the lowerings end alike if and only if it comes to neither INT_MIN % -1 nor another use of an unset value; without parameters on bb0 it comes to no unset value |
| AotPreservation.TypedPreservesMeaning | src/aot_cpp/AotCpp.cpp:921-1155 | for every such function without parameters on bb0, call and budget, and either accounting: typed and generic lowering give the same result or error and the same count if and only if the run does not come to INT_MIN % -1; if it does, the typed call overflows there |
| AotPreservation.SafeSetOf | src/aot_cpp/AotCpp.cpp:361-1155 | the set the analysis returns is one the two theorems above hold for: compiled with it, typed and generic lowering end alike exactly as they say |
| AotPreservation.NoRemainderNoMeeting | src/aot_cpp/AotCpp.cpp:1052-1068 | a function without a remainder never comes to INT_MIN % -1 |
| MirRules.RulesAreExact | src/mir/MirVerifier.cpp:545-1220 | over int and bool an instruction is accepted if and only if from all typed frames it gives a value of its type or an arithmetic fault, but for equality of an int and a bool, which is refused, and int constants beyond int32, which are accepted |
| MirRules.SupportedAre | src/aot_cpp/AotCpp.cpp:707-777 | of the accepted functions exactly those without handlers and throws, over int and bool, with checked arithmetic get the typed lowering |
| MirRules.MovesAnswer | src/aot_cpp/AotCpp.cpp:991-1032 | constants, arguments, loads and stores put exactly that value in both lowerings, and nothing else changes |
| MirRules.Answers | src/aot_cpp/AotRuntime.cpp:1787-2041 | both lowerings negate, test for equality and order as the operators of the language do |
| MirRules.CheckedAnswers | src/aot_cpp/AotRuntime.cpp:2003-2015 | sum, difference, product and negative are exact or overflow, in both lowerings; a dropped check gives the exact result |
| MirRules.UncheckedAnswers | src/aot_cpp/AotRuntime.cpp:2003-2015 | unchecked arithmetic gives the int that differs from the exact result by a multiple of 2^32 |
| MirRules.DivisionAnswers | src/aot_cpp/AotRuntime.cpp:2016-2033 | the errors of a zero divisor and of INT_MIN / -1, INT_MIN % -1 in each lowering, and otherwise quotient towards zero and remainder |
| MirRules.LeavesAnswer | src/aot_cpp/AotCpp.cpp:1105-1151 | both lowerings leave a block alike: a true condition goes to the first target with its arguments handed over in parallel, a return gives its value |
| MirRules.CanFailExactly | src/aot_cpp/AotCpp.cpp:886-903 | a batch ends exactly at the operations that fail for some operands, and at the difference of a value and itself |
| AotExamples.LoweringsPart | src/aot_cpp/AotCpp.cpp:1059-1063 | a concrete accepted function on which generic lowering returns 0 and typed lowering overflows, whatever checks are dropped |
| AotExamples.EntryParametersPart | src/aot_cpp/AotCpp.cpp:959-963 | a concrete accepted function with a parameter on bb0 on which the lowerings return different values, whatever checks are dropped |
| AotExamples.EqualityDecidesNothing | src/aot_cpp/AotCpp.cpp:959-963 | two concrete accepted functions that compare an unset value with a zero: one ends alike under both lowerings, the other does not |
| AotExamples.SumDropsItsCheck | src/aot_cpp/AotCpp.cpp:530-545 | a concrete function that adds two constants: every certified analysis drops its overflow check |
| Bytecode.CheckAllDefined | src/bytecode/BytecodeVerifier.cpp:776-784 | passes exactly when every register of the table has a definition |
| Bytecode.VerifyFunction | src/bytecode/BytecodeVerifier.cpp:726-1741 | for one function of the scalar opcodes, without handlers: accepts exactly when it is valid SSA, fully defined, and well typed by the rules that BytecodeRules proves exact |
| BytecodeRules.RulesAreExact | src/bytecode/BytecodeVerifier.cpp:990-1738 | an instruction is accepted if and only if on all operands of the declared types it gives a value of its register's type or an arithmetic fault, and on some a value; but for floating-point remainders, conversions of a type to itself and equality of different types, which are refused, and negation of unsigned values, which is accepted |
| BytecodeRules.StoresAreExact | src/bytecode/BytecodeVerifier.cpp:990-1738 | a store is accepted exactly when its local then always holds a value of its type |
| BytecodeRules.EdgesAreExact | src/bytecode/BytecodeVerifier.cpp:949-984 | an edge is accepted exactly when its target exists and takes as many values as are passed, each always of its parameter's type |
| BytecodeRules.TerminatorsAreExact | src/bytecode/BytecodeVerifier.cpp:1688-1738 | a branch is accepted exactly when its edges are and its condition is always a truth value; a return when its value is always of the function's type |
| BytecodeRules.NoMoreOperandsAreRead | src/runtime/Interpreter.cpp:1206-1318 | operands beyond an opcode's count make no difference |
| BytecodeRules.NoFewerOperandsDo | src/runtime/Interpreter.cpp:1206-1318 | with one operand fewer only an equality goes well |
| BytecodeRules.ModeMatters | src/runtime/Interpreter.cpp:1206-1318 | unchecked mode makes no difference to the opcodes for which it is refused |
| BytecodeRules.ArithmeticGives | src/runtime/Interpreter.cpp:2083-2302 | integer arithmetic is exact where the result fits its type; otherwise it overflows in checked mode and is taken modulo the size of the type in unchecked mode |
| BytecodeAnswers.ComparisonGives | src/runtime/Interpreter.cpp:2083-2302 | integers of one type compare as numbers |
| BytecodeAnswers.NegationGives | src/runtime/Interpreter.cpp:2012-2037 | the negative where the type has it; the least value overflows or stays |
| BytecodeAnswers.IntegerConverts | src/runtime/Interpreter.cpp:2772-2928 | a number stays the same in any integer type that has it; otherwise it overflows or is taken modulo the size of the type |
| BytecodeAnswers.FloatingConverts | src/runtime/Interpreter.cpp:2772-2928 | a floating-point number loses its fraction; one outside the type overflows or is taken modulo its size |
| BytecodeAnswers.ValuesGiven | src/runtime/Interpreter.cpp:1206-1318 | parameters, constants, locals, widenings, logical not and equality, value by value |
| BytecodeAnswers.InstructionSteps | src/runtime/Interpreter.cpp:1206-1318 | a step changes its result register or its local and nothing else, and is charged once |
| BytecodeAnswers.TerminatorSteps | src/runtime/Interpreter.cpp:2487-2592 | a true condition goes to the first target; parameters take their arguments' values all at once; a return gives its value |
| BytecodeSafety.AlwaysWritten | src/bytecode/BytecodeVerifier.cpp:913-984 | in every run of an accepted function an available register was written by its own definition, unless it is a parameter of bb0 and no edge has come back to bb0 |
| BytecodeSafety.UnwrittenExactly | src/bytecode/BytecodeVerifier.cpp:913-984 | a register that a step reads has not been written on the run if and only if it is a parameter of bb0 and no edge has come back to bb0 |
| BytecodeSafety.AlwaysWellWritten | src/bytecode/BytecodeVerifier.cpp:913-947 | in every run of an accepted function without parameters on bb0 every available register was written, by its own definition |
| BytecodeSafety.ReadsAreAvailable | src/bytecode/BytecodeVerifier.cpp:986-1008 | whatever an instruction, terminator or edge reads is available where it stands |
| BytecodeSafety.WriterIsUnique | src/bytecode/BytecodeVerifier.cpp:727-775 | a register of a valid function has one definition |
| BytecodeSafety.ReadsFollowWrites | src/bytecode/BytecodeVerifier.cpp:913-984 | without parameters on bb0, every register read in a run was written before on that run by its one definition |
| BytecodeSafety.StaleRegistersNeverMatter | src/runtime/Interpreter.cpp:146-157 | register slots left uncleared by the arena never change a run |
| BytecodeSafety.StepReadsOnly | src/runtime/Interpreter.cpp:2330-2600 | a step depends on the arguments, the locals and the registers it reads, and on nothing else |
| BytecodeSafety.ArithmeticSound | src/runtime/Interpreter.cpp:2083-2302 | checked or wrapping integer arithmetic yields an in-range value of its type or an arithmetic fault |
| BytecodeSafety.ConversionSound | src/runtime/Interpreter.cpp:2772-2928 | a numeric conversion yields a value of the target type or a conversion fault |
| BytecodeSafety.EvaluationSound | src/runtime/Interpreter.cpp:1206-1318 | an instruction of a typed state yields a value of its register's type, and meets a type mismatch exactly when it negates an unsigned value |
| BytecodeSafety.TypesHoldExactly | src/bytecode/BytecodeVerifier.cpp:1010-1684 | without parameters on bb0, registers hold values of their declared types throughout a run exactly as long as the run loads no slot whose content is not of the local's type |
| BytecodeSafety.TypedSlotsNeverForeign | src/runtime/Interpreter.cpp:146-157 | with the slots of the locals typed beforehand no load is foreign |
| BytecodeSafety.ForeignLoadBreaksTyping | src/runtime/Interpreter.cpp:146-157 | a foreign load puts a leftover value into a typed register |
| BytecodeAssignment.StoredLoadsAreTyped | src/runtime/Interpreter.cpp:146-157 | a run whose every load follows a store of the run into the same slot has no foreign load, whatever the slots held before |
| BytecodeAssignment.ClearedSlotsExactly | src/runtime/Interpreter.cpp:146-157 | with the slots cleared beforehand, types hold throughout a run if and only if every local it loads was stored before on the run |
| BytecodeAssignment.RunsFollowPaths | src/bytecode/BytecodeVerifier.cpp:793-853 | a run has come along a path from bb0 and has stored into whatever that path stores into |
| BytecodeAssignment.AssignedFunctionsAreTyped | src/bytecode/BytecodeVerifier.cpp:1010-1684 | a function that stores into a slot on every path from bb0 to a load of it keeps its types in every run, whatever the slots held before |
| BytecodeSafety.RunsEndWell | src/bytecode/BytecodeVerifier.cpp:1010-1738 | a run without foreign loads, of an accepted function without handlers and without parameters on bb0, ends in a value of the declared type, a budget fault, an arithmetic fault, or a mismatch exactly at an unsigned negation; never as an invalid program |
| BytecodeExamples.UnsignedNegationFails | src/runtime/Interpreter.cpp:2012-2037 | a concrete accepted function, negating an unsigned value, whose every call fails |
| BytecodeExamples.LeftoverLocalEscapes | src/runtime/Interpreter.cpp:146-157 | a concrete accepted function that returns what another call left in its local's slot |
| Timers.NextDue | src/game/GameplayPrimitives.cpp:332-336 | the due task that no other due task precedes, by due tick and then by id |
| Timers.BudgetSplits | src/game/GameplayPrimitives.cpp:327-359 | running with budget a and then b equals running with a + b |
| Timers.FiredInOrder | src/game/GameplayPrimitives.cpp:327-359 | fired keys strictly increase and precede all that stays; an unspent run leaves nothing due |
| Timers.FiredByTickThenId | src/game/GameplayPrimitives.cpp:327-359 | timers fire by due tick, on one tick by id, none before it is due; what stays is later, and with budget left not due |
| Timers.NextExactly | src/game/GameplayPrimitives.cpp:340-356 | a task goes on exactly while firings are left and its next due tick is a tick, one interval later with one firing fewer |
| Timers.PlayKeepsTimeline | src/game/GameplayPrimitives.cpp:327-359 | over any history in which it is not cancelled a task fires as if it were alone |
| Timers.FiresInClosedForm | src/game/GameplayPrimitives.cpp:339-356 | firing k of a task comes at due + k * interval, and a task that asked for n firings has n |
| Timers.CountedTaskFires | src/game/GameplayPrimitives.cpp:327-359 | a count-n task fires exactly at due + k * interval for k below n, whatever other timers, ticks and budgets |
| Scheduler.FrontIsNextDue | src/game/GameplayPrimitives.cpp:332-336 | the front of the queue is the next due task, and an empty or later front means none is due |
| Scheduler.TurnAgrees | src/game/GameplayPrimitives.cpp:335-357 | firing keeps exactly one queue key for each task |
| Scheduler.TickScheduler.ScheduleAt | src/game/GameplayPrimitives.cpp:280-294 | refuses a repeat without interval and a spent counter; else adds exactly one fresh task and draws its id |
| Scheduler.TickScheduler.ScheduleAfter | src/game/GameplayPrimitives.cpp:296-307 | the same at the saturated due tick |
| Scheduler.TickScheduler.Cancel | src/game/GameplayPrimitives.cpp:309-315 | removes exactly the named task from both indexes and says whether it was there |
| Scheduler.TickScheduler.Clear | src/game/GameplayPrimitives.cpp:321-325 | leaves no task and the counter at 1 |
| Scheduler.TickScheduler.RunQueue | src/game/GameplayPrimitives.cpp:327-359 | the loop over the queue refines the specification of the next due task, task by task |
| Scheduler.TickScheduler.Snapshot | src/game/GameplayPrimitives.cpp:361-367 | the counter and all tasks in order of id |
| Scheduler.TickScheduler.Restore | src/game/GameplayPrimitives.cpp:369-389 | accepts exactly the restorable states, rebuilds both indexes, and changes nothing when it refuses |
| Scheduler.Rebuild | src/game/GameplayPrimitives.cpp:371-384 | the loop accepts exactly lists of well-formed tasks with distinct ids, and finds the largest id |
| Scheduler.SnapshotRoundTrips | src/game/GameplayPrimitives.cpp:361-389 | a snapshot restores to the same tasks, and is accepted exactly when the id counter has not wrapped |
| Ordered.ListingRoundTrips | src/game/GameplayPrimitives.cpp:361-389 | listing a map by key and filling a map from the list gives the map back |
| Sequences.OnlyItsTurn | src/game/GameplayScripting.cpp:115-153 | of a sequence's timers the one whose turn it is comes first |
| Sequences.TurnPassesOn | src/game/GameplayScripting.cpp:115-153 | firing it passes the turn to the next step, or to the next cycle |
| Sequences.SequenceFiresInOrder | src/game/GameplayScripting.cpp:115-153 | over any history of runs, other timers and cancellations a sequence's timers fire in turn |
| Sequences.ExpectedInStepOrder | src/game/GameplayScripting.cpp:115-153 | firing number c * n + x is step x of cycle c at its planned tick |
| Events.DeterministicEventQueue.Enqueue | src/game/GameplayPrimitives.cpp:425-449 | exactly when a number is given, which one, and that only this event was added |
| Events.DeterministicEventQueue.Cancel | src/game/GameplayPrimitives.cpp:451-460 | removes exactly the event of that number |
| Events.DeterministicEventQueue.PopDue | src/game/GameplayPrimitives.cpp:462-474 | takes as many events as are due and within budget, by due tick and on one tick by number; what stays comes after all of them, and with budget left is not due |
| Events.SplitInOrder | src/game/GameplayPrimitives.cpp:462-474 | any front part of the queue is ordered by due tick and then number, and goes before what is behind it |
| Events.EnqueueBoth | src/game/GameplayPrimitives.cpp:425-474 | of two events enqueued without a number the first comes out first unless it is due later |
| Events.DeterministicEventQueue.Restore | src/game/GameplayPrimitives.cpp:489-508 | accepts exactly distinctly numbered events below the counter, and puts them in order; changes nothing when it refuses |
| Events.OrderIsUnique | src/game/GameplayPrimitives.cpp:446-447 | there is one way to order a set of events |
| Events.DeterministicEventQueue.Snapshot | src/game/GameplayPrimitives.cpp:481-487 | the counter and the events in their order; the queue's own snapshot can always be restored |
| Events.CopyThroughState | src/game/GameplayPrimitives.cpp:481-508 | a queue's snapshot is accepted by any queue, itself included, and gives back the same events in the same order and the same counter |
| HostLinks.EraseKeepsLinked | src/game/GameplayScripting.cpp:88-113 | erasing a call takes one entry from each map and keeps the five maps consistent, inside a half-built sequence too |
| HostLinks.EraseEachKeepsLinked | src/game/GameplayScripting.cpp:155-164 | erasing a list of timers keeps the maps consistent and the surviving calls unchanged |
| HostLinks.RunIsReported | src/game/GameplayPrimitives.cpp:345-354 | what a run reports fits the tasks, and a task disappears without a last firing exactly when the overflow branch is taken |
| HostLinks.RoomMeansNoOverflow | src/game/GameplayPrimitives.cpp:350-354 | no task is lost when no interval reaches past the last tick |
| HostPlans.TicksIncrease | src/game/GameplayScripting.cpp:132-134 | step offsets strictly increase |
| HostPlans.StepsAreApart | src/game/GameplayScripting.cpp:31-39 | each step comes its delay after the one before it, and one tick after it where the delay is 0 |
| HostPlans.EraseUnbuilds | src/game/GameplayScripting.cpp:142-147 | cancelling the first timer of a half-built sequence takes that step back and nothing else |
| HostPlans.StartedInProgress | src/game/GameplayScripting.cpp:132-152 | a started sequence stands before step 0, with the repeat interval equal to the last offset |
| HostDispatch.StillCalled | src/game/GameplayScripting.cpp:223-243 | a timer that fires still finds its own call, whatever fired before it |
| HostDispatch.DrainKeepsOwned | src/game/GameplayScripting.cpp:220-243 | after a drain every task has its call, and every call its task if and only if the run took no overflow branch |
| HostDispatch.EndedIdsAre | src/game/GameplayScripting.cpp:242-242 | exactly the tasks whose last firing was reported have their calls erased |
| HostDispatch.SubscribersInOrder | src/game/GameplayScripting.cpp:258-269 | exactly the topic's subscriptions are served, by priority and then by id |
| HostEvents.EventReaches | src/game/GameplayScripting.cpp:245-279 | a direct event is one call of its target; a published one a call for each subscription of its topic and no other, smaller priority first and on equal priority smaller id first, with its arguments and number |
| HostState.RebuildCalls | src/game/GameplayScripting.cpp:312-325 | accepts exactly calls that are valid, distinct and each the payload of its task, below the counter |
| HostState.RebuildSubscriptions | src/game/GameplayScripting.cpp:327-337 | accepts exactly valid distinct subscriptions below the counter |
| HostState.LinkTimers | src/game/GameplayScripting.cpp:347-354 | accepts exactly distinct timers of calls that belong to no sequence yet |
| HostState.RebuildSequences | src/game/GameplayScripting.cpp:339-357 | accepts exactly disjoint non-empty sequences over timers of calls, below the counter |
| HostState.RestoredIsLinked | src/game/GameplayScripting.cpp:339-357 | the maps restore fills are consistent |
| Host.CycleTicksOf | src/game/GameplayScripting.cpp:120-127 | succeeds exactly when every step has a callback and the delays sum below the last tick |
| Host.GameplayHost.constructor | src/game/GameplayScripting.cpp:49-53 | a fresh host is consistent and empty |
| Host.GameplayHost.StepClock | src/game/GameplayPrimitives.cpp:176-179 | the tick goes up by one and saturates |
| Host.GameplayHost.ScheduleCall | src/game/GameplayScripting.cpp:55-86 | exactly when a call is refused; else one task and one call, linked, and nothing else changes but the counters |
| Host.GameplayHost.DetachTimerFromSequences | src/game/GameplayScripting.cpp:103-113 | takes the timer out of its sequence, and the sequence away with its last timer |
| Host.GameplayHost.EraseCall | src/game/GameplayScripting.cpp:88-97 | removes exactly this call, its links and, if asked, its task; consistency is kept |
| Host.GameplayHost.CancelCall | src/game/GameplayScripting.cpp:99-101 | the same with the task cancelled |
| Host.GameplayHost.StartSequence | src/game/GameplayScripting.cpp:115-153 | starts exactly when startable, with one task and call for each step; otherwise maps and tasks are as before; says in either case how far the counters are |
| Host.GameplayHost.StartSteps | src/game/GameplayScripting.cpp:130-150 | the loop over the steps builds all of them or, when the ids run out, takes all of them back |
| Host.GameplayHost.TakeBack | src/game/GameplayScripting.cpp:142-147 | cancelling the timers of a half-built sequence restores the maps and tasks it started from |
| Host.GameplayHost.StartStep | src/game/GameplayScripting.cpp:133-150 | one step adds its task, call and link, or fails leaving everything as it was |
| Host.GameplayHost.CancelSequence | src/game/GameplayScripting.cpp:155-164 | removes the sequence, its timers' calls and tasks, and nothing else |
| Host.GameplayHost.Subscribe | src/game/GameplayScripting.cpp:166-179 | exactly when a subscription is refused; else it is added under a fresh id |
| Host.GameplayHost.Unsubscribe | src/game/GameplayScripting.cpp:181-183 | removes exactly this subscription |
| Host.GameplayHost.Publish | src/game/GameplayScripting.cpp:185-195 | adds one event at the saturated tick, or nothing |
| Host.GameplayHost.EnqueueDirect | src/game/GameplayScripting.cpp:197-209 | adds one direct event, or nothing |
| Host.GameplayHost.CancelEvent | src/game/GameplayScripting.cpp:211-213 | removes exactly the event of that number |
| Host.GameplayHost.DrainTimers | src/game/GameplayScripting.cpp:220-243 | dispatches the run's firings in order, each with its own call, and erases exactly the calls that ended |
| Host.GameplayHost.DispatchEvents | src/game/GameplayScripting.cpp:245-279 | a direct event gives one dispatch, a topic one for each subscriber in serving order |
| Host.GameplayHost.DrainDue | src/game/GameplayScripting.cpp:215-280 | timers first and then events, each within its budget and due; consistency is kept, and calls keep their timers exactly without overflow |
| Host.GameplayHost.Snapshot | src/game/GameplayScripting.cpp:282-297 | the whole state, each map in key order |
| Host.Rebuilt | src/game/GameplayScripting.cpp:299-357 | the checking part of restore accepts exactly the acceptable states |
| Host.GameplayHost.Restore | src/game/GameplayScripting.cpp:299-369 | accepts exactly the acceptable states, gives back every map, and changes nothing when it refuses |
| HostRuns.OperateIsSound | src/game/GameplayScripting.cpp:55-369 | every operation, restoring included, keeps maps, scheduler, queue and counters consistent; and every call keeps its timer unless the operation is a drain that takes the overflow branch, and then one does not |
| HostRuns.ScheduledWhenDue | src/game/GameplayScripting.cpp:55-87 | an accepted call is due after its delay, one tick from now where that is 0, and no later than the last tick; its interval, count and call are as asked for |
| HostRuns.OperateAllIsSound | src/game/GameplayScripting.cpp:55-369 | so does every run of operations |
| HostRuns.BuiltIsConsistent | src/game/GameplayScripting.cpp:130-150 | the steps of a start keep a half-built sequence linked, one by one |
| HostRuns.DrainedIsSound | src/game/GameplayScripting.cpp:215-243 | a drain keeps the maps consistent, and every call its timer if and only if it takes no overflow branch |
| HostRuns.RunsCompose | src/game/GameplayScripting.cpp:55-369 | a run of operations is the run of its first part followed by the run of the rest, in state and in dispatches |
| HostLimits.AttachedUntilOverflow | src/game/GameplayPrimitives.cpp:350-354 | in every run, through saving and restoring, calls keep their timers as long as no drain takes the overflow branch, and the first that takes it leaves a call without |
| HostLimits.RoomMeansNoneLost | src/game/GameplayPrimitives.cpp:350-354 | no drain takes the branch when its tick leaves room for the longest interval that the operations schedule |
| HostLimits.FewDrawsNoWrap | src/game/GameplayScripting.cpp:55-179 | no id counter wraps in a run that asks for few enough ids |
| HostLimits.RestorableExactly | src/game/GameplayScripting.cpp:299-369 | in every run of a new host without the overflow branch, its state and every saved one can be restored exactly while no counter has wrapped |
| HostLimits.RoomMeansRestorable | src/game/GameplayScripting.cpp:55-369 | with room for the longest interval at every drain, and fewer than 2^64 - 1 ids asked for, the state and every saved one can be restored |
| HostSequences.OperationSpares | src/game/GameplayScripting.cpp:55-280 | an operation that does not cancel a sequence or its timers, or go back, leaves every call of it that is still there as planned, never gives its ids again, and leaves its timers alone unless it drains |
| HostSequences.DrainAsPlanned | src/game/GameplayScripting.cpp:215-243 | what a drain dispatches of a sequence is, firing by firing, the planned callback and arguments |
| HostSequences.SequenceDispatchesInOrder | src/game/GameplayScripting.cpp:115-280 | after a start, over any operations that spare the sequence, the drains' dispatches of its timers are in order number c * n + x step x of cycle c: callback, arguments, timer and planned tick |
| HostSequences.SequenceMissesNothing | src/game/GameplayScripting.cpp:115-280 | and when a last drain leaves some of its timer budget, every step of every cycle planned up to its tick has been dispatched |
| HostEvents.SentWaits | src/game/GameplayScripting.cpp:185-209 | an event that is sent waits under the next number until its delay has passed, one tick where that is 0, and no longer than to the last tick |
| HostEvents.WaitsOrReaches | src/game/GameplayScripting.cpp:245-279 | an operation that leaves a waiting event alone lets it wait and tells nothing of it, or is a drain that reaches exactly its hearers and spends its number |
| HostEvents.HeardOnce | src/game/GameplayScripting.cpp:185-280 | over any operations that leave it alone an event is heard once, by those subscribed when a drain gets to it, or it waits and was not heard |
| HostEvents.HeardInTheEnd | src/game/GameplayScripting.cpp:215-280 | and it has been heard when a last drain at or after its due tick leaves some of its event budget |
| HostEvents.SpentStays | src/game/GameplayPrimitives.cpp:425-449 | a number once given is not told of again |
| HostEvents.RunKeepsOrder | src/game/GameplayPrimitives.cpp:462-474 | over any run without going back no call of an event comes before one of an event that is due no later and has the smaller number |
| HostEvents.FirstSentFirstHeard | src/game/GameplayScripting.cpp:185-280 | of two events the one sent first, with a delay no longer, is heard first, whatever is done before, between and after |
| HostTheorems.SnapshotsAreAccepted | src/game/GameplayScripting.cpp:282-369 | restore accepts a host's snapshot exactly when every call has its timer and no counter has wrapped, and rebuilds identical maps |
| HostTheorems.RestoreState | src/game/GameplayScripting.cpp:299-369 | restoring a state saved of a host gives back that host, every map, counter and event, or is refused and changes nothing |
| HostTheorems.CopyThroughSnapshot | src/game/GameplayScripting.cpp:282-369 | saving one host and restoring into another, or into itself, makes them equal |
| HostTheorems.Perform | src/game/GameplayScripting.cpp:55-369 | every host operation does to the state, and dispatches, what its specification says |
| HostTheorems.PerformAll | src/game/GameplayScripting.cpp:55-369 | so does every run of operations on a valid host, with the states it saved |
| HostTheorems.Run | src/game/GameplayScripting.cpp:55-369 | in every run of operations from a fresh host, own snapshots restored included: the state stays consistent; if no drain takes the overflow branch the final snapshot and every saved one are acceptable exactly while no counter had wrapped; if drains leave room and few enough ids are drawn, all are acceptable |
| HostTheorems.RollBack | src/game/GameplayScripting.cpp:282-369 | a host goes back to a snapshot it took, after any operations, exactly when that snapshot could be restored when it was taken |
| HostTheorems.ReplayRepeats | src/game/GameplayScripting.cpp:215-369 | a host that saves, does anything and goes back is where it was, and the same operations then dispatch what they would have dispatched at once |
| HostTheorems.OverflowLosesTimer | src/game/GameplayPrimitives.cpp:350-354 | a concrete run after which the host refuses its own snapshot |
| Random.ReturnsExactly | src/game/GameplayPrimitives.cpp:232-234 | with an odd increment the state returns after n steps if and only if 2^64 divides n |
| Random.StatesDiffer | src/game/GameplayPrimitives.cpp:232-234 | no state comes twice within a period |
| Random.EveryStateComes | src/game/GameplayPrimitives.cpp:232-234 | every 64-bit state is reached within one period |
| Random.TopStateDrawsTopWord | src/game/GameplayPrimitives.cpp:235-239 | a state whose output is the largest word |
| Random.AcceptedDrawComes | src/game/GameplayPrimitives.cpp:248-252 | for every range some draw of the period is accepted |
| Random.RandomStream.constructor | src/game/GameplayPrimitives.cpp:222-230 | seeding leaves an odd increment and the twice-stirred state |
| Random.RandomStream.NextUInt | src/game/GameplayPrimitives.cpp:232-240 | one step of the generator and the permuted output of the old state |
| Random.RandomStream.NextInt | src/game/GameplayPrimitives.cpp:242-255 | always ends; the first draw at or above the threshold decides, the words before it are all below the range, and a first word of at least the range is always taken |
| Random.RandomStream.Restore | src/game/GameplayPrimitives.cpp:266-271 | accepts exactly odd increments and changes nothing when it refuses |
| Random.ThresholdCutsEvenly | src/game/GameplayPrimitives.cpp:248-248 | the accepted words are a multiple of the range |
| Random.ThresholdIsLeast | src/game/GameplayPrimitives.cpp:248-248 | fewer words than the range has results are thrown away, and no other threshold below the range leaves a multiple of it |
| Random.FirstLargeDecides | src/game/GameplayPrimitives.cpp:249-252 | only words below the range are ever drawn again |
| Random.ResultsAreUnbiased | src/game/GameplayPrimitives.cpp:246-254 | every result of the range comes from equally many accepted words |
| RandomOutput.FourFolds | src/game/GameplayPrimitives.cpp:235-236 | folding the high bits in four times gives back the state: folding loses nothing |
| RandomOutput.OutputBits | src/game/GameplayPrimitives.cpp:235-239 | each bit of a drawn word: two bits of the state, 18 apart, one against the other, at a place turned by the topmost five bits |
| RandomOutput.EveryWordFromAsManyStates | src/game/GameplayPrimitives.cpp:232-240 | each 32-bit word is drawn by exactly 2^32 of the 2^64 states |
| RandomOutput.EveryWordEquallyOften | src/game/GameplayPrimitives.cpp:232-240 | in every period, from every seed, each word is drawn exactly 2^32 times |
| RandomOutput.ResultsEquallyOften | src/game/GameplayPrimitives.cpp:242-255 | in every period, for every range, each result comes from the same number of accepted draws |
| Wire.ReadNumberExact | src/game/GameplayStateCodec.cpp:166-183 | a number is read exactly where its bytes stand |
| Wire.Writer.Unsigned | src/game/GameplayStateCodec.cpp:57-66 | appends the number low byte first |
| Wire.Reader.Unsigned | src/game/GameplayStateCodec.cpp:161-183 | reads the number, or fails exactly when bytes are missing |
| Wire.ReadCountedExact | src/game/GameplayStateCodec.cpp:202-212 | a counted list is read exactly where it was written, within its limit |
| WireLayout.Stands8 | src/game/GameplayStateCodec.cpp:57-66 | the eight bytes of a number stand where each of them is the next eight bits, low ones first |
| WireLayout.StandsList | src/game/GameplayStateCodec.cpp:71-82 | a list stands where its count and then its elements do, one after the other |
| SaveFormat.ValueExact | src/game/GameplayStateCodec.cpp:89-272 | a tagged value is read exactly where it was written |
| SaveFormat.TaskExact | src/game/GameplayStateCodec.cpp:342-348 | a task is read exactly where it was written |
| SaveFormat.SubscriptionExact | src/game/GameplayStateCodec.cpp:461-467 | a subscription is read exactly where it was written |
| SaveFormat.PayloadExact | src/game/GameplayStateCodec.cpp:309-545 | a whole state is read exactly where it was written: format and reader are inverse both ways |
| SaveLayout.StandsValue | src/game/GameplayStateCodec.cpp:89-112 | the tag of each kind of value and the bytes behind it |
| SaveLayout.StandsTask | src/game/GameplayStateCodec.cpp:342-348 | a task's fields stand at 0, 8, 16, 24 and 28 of its 36 bytes |
| SaveLayout.StandsEvent | src/game/GameplayStateCodec.cpp:355-361 | an event's numbers stand at 0, 8 and 16, its topic at 24, its arguments behind it |
| SaveLayout.StandsCall | src/game/GameplayStateCodec.cpp:447-453 | a call's numbers stand at 0, 8 and 16, its callback at 24, its arguments behind it |
| SaveLayout.StandsSubscription | src/game/GameplayStateCodec.cpp:461-467 | the place of each field of a subscription, its priority in two's complement |
| SaveLayout.StandsSequence | src/game/GameplayStateCodec.cpp:472-480 | a sequence's id, its count of timers and eight bytes for each |
| SaveLayout.StandsState | src/game/GameplayStateCodec.cpp:309-482 | a whole state stands exactly where every field of every part has its place |
| SaveContainer.CanonicalIsIdempotent | src/game/GameplayPrimitives.cpp:33-40 | canonical doubles are canonical |
| SaveContainer.CanonicalBitsExactly | src/game/GameplayPrimitives.cpp:33-40 | zeros of either sign become 0 and NaNs the quiet one; every other pattern is left as it is |
| SaveContainer.EntitiesExactly | src/game/GameplayPrimitives.cpp:92-118 | a registry can be restored exactly when its free list is the list of its dead slots in order, its count that of the others, and no slot is in generation 0 |
| SaveContainer.CanonicalRestores | src/game/GameplayScripting.cpp:299-369 | validation does not look at what canonicalising changes |
| SaveContainer.DecodeAfterEncode | src/game/GameplayStateCodec.cpp:569-667 | decoding an accepted encoding gives the same state with canonical doubles, and never a hash mismatch |
| SaveContainer.EncodeAfterDecode | src/game/GameplayStateCodec.cpp:569-667 | re-encoding a decoded container gives back its bytes exactly when its doubles were canonical |
| SaveLayout.EncodingHasLayout | src/game/GameplayStateCodec.cpp:547-596 | an encoding is the letters RSGS, version 1, the hash, the number of bytes to come and the canonical state, each at its place |
| SaveLayout.DecodesExactly | src/game/GameplayStateCodec.cpp:605-667 | bytes decode to a state exactly when they keep to the limits, have that layout, and the state can be restored |
| SaveLayout.DamageIsFound | src/game/GameplayStateCodec.cpp:605-667 | a container cut short, continued, or with other letters, version or hash is refused, each with its own error |
| SaveCodec.WriteValue | src/game/GameplayStateCodec.cpp:89-112 | appends the tagged value, its double canonical, or fails on a limit |
| SaveCodec.WriteArguments | src/game/GameplayStateCodec.cpp:114-125 | appends the counted arguments, or fails exactly on a count, a text or the size |
| SaveCodec.WriteSequences | src/game/GameplayStateCodec.cpp:469-481 | the nested loop appends every sequence with its timers |
| SaveCodec.WriteCore | src/game/GameplayStateCodec.cpp:309-364 | appends the core state or fails on a limit |
| SaveCodec.WriteHost | src/game/GameplayStateCodec.cpp:434-482 | appends the payload of the canonical state and succeeds only if every count and the size keep to their limits; when it fails one of them does not |
| SaveCodec.EncodeGameplayHostState | src/game/GameplayStateCodec.cpp:569-596 | the encoder gives exactly the specified container or error |
| SaveCodec.ReadGameplayValue | src/game/GameplayStateCodec.cpp:224-272 | reads what the format says, or gives its first error |
| SaveCodec.ReadArgumentList | src/game/GameplayStateCodec.cpp:274-290 | the loop reads what the format says, or gives its first error |
| SaveCodec.ReadSequences | src/game/GameplayStateCodec.cpp:527-544 | the nested loop reads what the format says, or gives its first error |
| SaveCodec.ReadHost | src/game/GameplayStateCodec.cpp:366-545 | the reader gives exactly the specified state, position or first error |
| SaveCodec.DecodeGameplayHostState | src/game/GameplayStateCodec.cpp:605-667 | the decoder gives exactly the specified state or error |
| Delegates.FlattenGivesLeaves | src/aot_cpp/AotRuntime.cpp:899-938 | flattening yields leaves only |
| Delegates.ChainFlattens | src/aot_cpp/AotRuntime.cpp:899-938 | a rebuilt n-leaf chain flattens back exactly when n is at most 1025 |
| Delegates.FlattensExactly | src/aot_cpp/AotRuntime.cpp:899-938 | flattening succeeds exactly when every reachable object is a delegate at most 1024 pairs down, and then gives every leaf once, first delegates before second |
| Delegates.RemoveLast | src/aot_cpp/AotRuntime.cpp:960-984 | deletes the last contiguous match, or nothing |
| Delegates.RemovalIsUnique | src/aot_cpp/AotRuntime.cpp:960-984 | there is one such result |
| Delegates.RemovesByKey | src/aot_cpp/AotRuntime.cpp:940-984 | leaves are told apart by their compared fields alone: the last stretch with the same ones goes, and nothing when there is none |
| Delegates.RemovalUndoesAppend | src/aot_cpp/AotRuntime.cpp:957-984 | removing what was just appended leaves the front |
| Delegates.DelegateHeap.Rebuild | src/aot_cpp/AotRuntime.cpp:985-1013 | rebuilds a left-leaning chain of exactly these leaves and touches no old delegate |
| Delegates.DelegateHeap.CombineDelegates | src/aot_cpp/AotRuntime.cpp:883-1014 | combine concatenates both leaf lists, remove deletes the last match; fails exactly when an operand does not flatten |
| Delegates.DelegateHeap.CombineThenRemove | src/aot_cpp/AotRuntime.cpp:883-1014 | remove(combine(a, b), b) has exactly the leaves of a, and works exactly up to 1025 leaves in all |
| DebugSession.AlwaysConsistent | src/debug/Debugger.cpp:338-448 | over all interleavings: paused exactly while the worker waits with nothing pending; a resume answers its own stop and at most one answers a stop |
| DebugSession.ResumeIsConsumed | src/debug/Debugger.cpp:403-447 | a resume is consumed by the stop it answers, and a second one has no effect |
| DebugSession.NoPauseAfterTerminate | src/debug/Debugger.cpp:420-448 | once terminate was requested no stop pauses |
| DebugSession.StopsAfterTerminate | src/debug/Debugger.cpp:420-448 | over all interleavings: from the moment terminate is requested every stop returns Terminate that had no answer by then, waiting, on its way in or still to come |
| DebugSession.LeavingRuns | src/debug/Debugger.cpp:254-282 | a leaving worker passes no further sequence point in any continuation, and its steps are bounded |
| DebugSession.TerminateTakesHold | src/debug/Debugger.cpp:420-448 | over all interleavings: after a terminate call has returned the worker comes to at most one more sequence point, takes at most four more steps, and the stop it may make returns Terminate |
| DebugSession.LeavingStaysLeaving | src/debug/Debugger.cpp:254-282 | a leaving worker is never paused again and each of its steps brings it nearer to its end |
| DebugSession.LeavingIsNeverStuck | src/debug/Debugger.cpp:254-282 | a leaving worker always has a step |
| DebugSession.PointStopsExactly | src/debug/Debugger.cpp:150-196 | a sequence point stops the worker exactly when the entry stop is due, a pause was requested, a breakpoint is there or a step ends; an entry stop leaves the pause for the next point |
| DebugSession.PauseTakesHold | src/debug/Debugger.cpp:130-168 | over all interleavings: after a pause was asked for the next sequence point stops the worker |
| DebugSession.EntryStopsFirst | src/debug/Debugger.cpp:124-164 | over all interleavings: launched with a stop on entry, the worker stops at its first point |
| DebugSession.NoCauseNoStop | src/debug/Debugger.cpp:150-196 | over all interleavings: without a request, a breakpoint or a step that ends there is no stop |
| StructLayout.LayeredIsAcyclic | src/compiler/Compilation.cpp:4497-4532 | a finish order in which fields only point back admits no cycle |
| StructLayout.EdgesExactly | src/compiler/Compilation.cpp:4500-4507 | one struct lies in another exactly when a field of struct type names it |
| StructLayout.LayoutCheck.ReportCycle | src/compiler/Compilation.cpp:4513-4528 | the path printed is a genuine cycle taken from the stack |
| StructLayout.LayoutCheck.Visit | src/compiler/Compilation.cpp:4500-4532 | the coloured search ends, restores the stack, finishes the struct and forgets no diagnostic |
| StructLayout.CheckLayouts | src/compiler/Compilation.cpp:4481-4537 | RS2487 is reported exactly when the value-field graph has a cycle; every printed path is one without detours, and no two begin at the same struct |
| FixedMath.Sqrt64 | src/compiler/Compilation.cpp:1226-1241 | the exact integer square root of every 64-bit n, without overflow |
| FixedMath.MoveTowardsByScript | src/compiler/Compilation.cpp:1673-1678 | the checked script arithmetic gives the specified move or fails |
| FixedMath.StepIsBounded | src/compiler/Compilation.cpp:1350-1364 | a coordinate's step points towards the target and is no longer than its share |
| FixedMath.SquaredStep | src/compiler/Compilation.cpp:1673-1678 | the squared step stays below (m + 1)^2 |
| FixedMath.MoveStaysInBox | src/compiler/Compilation.cpp:1673-1678 | a move that does not fail stays in the box between current and target, and its raw step satisfies sx^2 + sy^2 < (m + 1)^2 |
| FixedMath.StepNearlyReaches | src/compiler/Compilation.cpp:1350-1364 | rounding takes less than one unit and 256 / dist from a coordinate's share |
| FixedMath.NearTargetIsReached | src/compiler/Compilation.cpp:1673-1678 | a target nearer than maxDelta plus one unit is reached |
| FixedMath.ReachesExactly | src/compiler/Compilation.cpp:1673-1678 | a move that does not fail ends at the target exactly then |
| FixedMath.SucceedsExactly | src/compiler/Compilation.cpp:1673-1678 | a move fails exactly when a difference, the distance or, away from the target, a first product does not fit |
| FixedMath.NegativeMovesAway | src/compiler/Compilation.cpp:1673-1678 | with a negative maxDelta a move never comes nearer to the target |
| BodyFormat.ReadsWords | src/bytecode/BytecodeCodec.cpp:289-302 | a register list is read back, its guard passed |
| BodyFormat.ReadsInstruction | src/bytecode/BytecodeCodec.cpp:814-831 | an instruction is read back, through types, immediates, flags and the string table |
| BodyFormat.ReadsTerminator | src/bytecode/BytecodeCodec.cpp:832-838 | a terminator is read back |
| BodyFormat.ReadsBlock | src/bytecode/BytecodeCodec.cpp:805-839 | a block is read back, its minimum-size guards passed |
| BodyFormat.ReadsHandler | src/bytecode/BytecodeCodec.cpp:840-854 | an exception handler is read back |
| BodyFormat.ReadsBody | src/bytecode/BytecodeCodec.cpp:1666-1786 | a function body is read back to its last byte |
| BodyFormat.OverlapCheckIsExact | src/bytecode/BytecodeCodec.cpp:1655-1663 | comparing neighbours in sorted order finds an overlap exactly when some two ranges overlap |
| BodyFormat.RangeIsPlace | src/bytecode/BytecodeCodec.cpp:800-859 | each recorded range is where its body stands |
| BodyFormat.BodiesRoundTrip | src/bytecode/BytecodeCodec.cpp:800-859 | for every list of functions the decoder recovers every block, instruction, terminator and handler, and no check turns the encoding away |
| BodyLayout.StandsInstruction | src/bytecode/BytecodeCodec.cpp:814-831 | the place of each field of an instruction, by its number of operands; types by their tags, strings by their first place in the table |
| BodyLayout.StandsTerminator | src/bytecode/BytecodeCodec.cpp:832-838 | the place of each field of a terminator |
| BodyLayout.StandsBlock | src/bytecode/BytecodeCodec.cpp:805-839 | the place of each part of a block |
| BodyLayout.StandsHandler | src/bytecode/BytecodeCodec.cpp:840-854 | the place of each field of an exception handler |
| BodyLayout.SectionHasLayout | src/bytecode/BytecodeCodec.cpp:800-859 | in the code section every body stands where its recorded range is, every field of it at its place, and the ranges follow one another |
| BodyCodec.EncodeBodies | src/bytecode/BytecodeCodec.cpp:800-859 | the nested loops write exactly the specified section and ranges |
| BodyCodec.EncodeInstruction | src/bytecode/BytecodeCodec.cpp:814-831 | writes exactly the specified bytes |
| BodyCodec.Reader.constructor | src/bytecode/BytecodeCodec.cpp:82-91 | a reader over a range that does not fit is invalid from the start |
| BodyCodec.Reader.Number | src/bytecode/BytecodeCodec.cpp:108-121 | reads low byte first; an exhausted reader turns invalid and yields zeros |
| BodyCodec.WordsStayValid | src/bytecode/BytecodeCodec.cpp:294-302 | once the count has passed its guard no word is missing |
| BodyCodec.ReadRegisters | src/bytecode/BytecodeCodec.cpp:294-302 | the loop reads what the format says or refuses |
| BodyCodec.DecodeInstruction | src/bytecode/BytecodeCodec.cpp:1691-1740 | reads what the format says or refuses |
| BodyCodec.ReadBody | src/bytecode/BytecodeCodec.cpp:1666-1786 | the nested loops read what the format says or refuse |
| BodyCodec.DecodeCode | src/bytecode/BytecodeCodec.cpp:1645-1786 | the decoder's handling of the code section is exactly the specified one |

## Left out

Assumptions the theorems state:

- The typed lowering: integer arguments and constants lie in int32, and error codes are compared, not messages.
- Floating point: a `FloatUnit` of given functions in the bytecode semantics, with only the facts a conversion needs; in saved states doubles are bit patterns, and the comparison of the clock's accumulator with a tick's length is a given predicate.
- The state hash: a given function of the canonical state; nothing is said about collisions.
- Restoring a host: a state whose saved timers do not all belong to saved calls is accepted by the code and its maps are consistent, but the orphaned timers are outside the host's invariant; `Host.GameplayHost.Restore` says exactly when the restored host is valid again.
- Scheduling through the core behind the host's back is outside the host's operations for the same reason.

Contracts stated weaker than one might ask:

- BytecodeSafety.RunsEndWell: functions without exception handlers and without parameters on bb0, since the verifier adds handler edges for whole blocks although a throw can happen in the middle of one.
- BytecodeSafety.TypesHoldExactly: functions without parameters on bb0, as for the theorems of BytecodeAssignment, and the scalar types only; type identities, objects, arrays, strings, calls and dispatch are not part of the model.
- Bytecode.VerifyFunction: scalar opcodes only, one function at a time; which diagnostics are reported, and in what order, is not modelled, only whether there are any.
- Mir.VerifyFunction: the scalar opcodes that the typed lowering supports, without type identities.
- BytecodeRules.RulesAreExact: scalar registers, the operand count and mode of the opcode, and a floating-point unit for which zero is a number; what the count and the mode rules mean is stated by `BytecodeRules.NoMoreOperandsAreRead`, `BytecodeRules.NoFewerOperandsDo` and `BytecodeRules.ModeMatters`.
- MirRules.RulesAreExact: functions over int and bool, operands and result among the registers, and the operand count and mode of the opcode.
- Host.GameplayHost.DrainDue: a callback's text and arguments are copied, where the code moves them out of a call it erases right after.
- SaveCodec.EncodeGameplayHostState: asks for what the C++ types already say of a state: numbers within their widths and strings of bytes.
- SaveCodec.WriteHost: what was already appended when writing fails is not described; the code drops it.
- Delegates.DelegateHeap.CombineDelegates: allocation succeeds and nothing is collected; operands already have the delegate type.
- HostSequences.SequenceDispatchesInOrder: the last step of the first cycle lies within the tick range, and drains of a repeating sequence leave room for one more cycle; beyond that ticks saturate and timers are dropped.
- AotPreservation.LoweringsAgreeExactly: says nothing of a call whose generic run first compares an unset value with a zero; both outcomes occur.
- HostEvents.HeardOnce: operations that neither cancel the event nor go back to a saved state; a host that goes back gives the same numbers again.
- DebugSession.PointStopsExactly: whether a step ends at a point is given; the comparison of locations and call depths behind it is not modelled.
- DebugSession.AlwaysConsistent: each locked region is one step, and condition variables wake whoever can go on; timeouts of waitForStop are not modelled.
- StructLayout.CheckLayouts: a printed path is the list of its names, not the joined text.
- BodyFormat.BodiesRoundTrip: counts, ids and the section's size lie below 2^32; an instruction carries a string only if it is a string constant, and the string is in the module's table of fewer than 2^32 strings.

Not modelled:

- C++ text, line directives, source maps, manifests, ABI tables and name sanitising of the generated code: the model is the meaning of the emitted statements.
- Superinstructions, quickened opcodes, profiling, tracing, determinism digests and external bindings of the runtimes.
- The managed heap and its collector.
- Exception routing, virtual and interface dispatch, and the object, array and field opcodes.
- FixedTickClock::accumulate: the clock is a tick that steps; its doubles are carried and validated only.
- EntityRegistry operations: only the validation of a saved registry appears, in `SaveContainer.Restores`.
- nextUInt64 and nextUnitDouble of random streams.
- The rest of a bytecode module file: sections, string, type and function tables, debug data.
- The ScriptObjectState codec, which repeats the save format's pattern.
- The other operators of the fixed-point library.
- Parser, binder, generic specialisation, sequence lowering, language and debug servers, scene callbacks and tools.
