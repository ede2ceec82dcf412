# Verified models of the memory-safety hardening and analysis passes

The repository hardens compiled programs against speculative execution, splits the stack into a
safe and an unsafe part, and analyses value ranges, aliasing, control dependence and the
instructions that lie within a speculation window. This project models the algorithms at the
centre of those passes and proves what they are for.

`dafny verify dfyconfig.toml` checks everything.

## What is modelled

**Speculative load hardening** (`LLVM_FIX/X86SpeculativeLoadHardening.cpp`). `Machine` is a small
SSA machine language: blocks with ordered terminators and a layout order, PHIs, virtual registers,
EFLAGS, memory, and one 64-bit predicate state. The arithmetic of ordinary instructions comes from
an environment, so every theorem holds for all of them. A run is a path: the exit taken from each
block is a free choice, so mispredicted runs are runs like any other.
`PhiEntries`, `CondInfo`, `SplitEdge`, `CheckCodes`, `Instrumented`, `SplitStep` and `TraceCfg` are the
first half of the pass, which threads the state through the control-flow graph; `Exactness` says
what the state is on every path. The functions accepted (`Instrumented.Acceptable`) are those the pass
finds after canonicalization: canonical PHIs, an entry without predecessors, and no traced block that
falls off the end of the layout. `Liveness`, `Masking`, `Harden`, `PostLoad`, `HardenPass`,
`HardenWalk` and `HardenBlocks` are the second half, which masks addresses and loaded values;
`Simulation` carries the proof that unpoisoned runs are unchanged, `Coverage` that every instruction
is treated as was chosen for it, and `Blinding` what that means for a poisoned run. `Hardening` puts
everything together: for every function as the pass finds it, runs on which no check fails are kept,
and after the first one that does every chosen load the run meets is blind. `SpTransport` is the
state's way through calls in the high bits of the stack pointer, `Indirect` the check at the targets of indirect jumps, and `Sink` the
search that moves the hardening of a loaded value down its block.

**Safe stack** (`LLVM_FIX/SafeStack.cpp`). `UnsafeStack` is the allocator discipline of the code the
pass emits, as a state machine over runs with nested frames. `SafeAlloca` is the use-def search that
decides which objects may stay on the safe stack, with its wrapping range arithmetic.

**Analyses** (`Unified-Memory-Safety-Validation`). `Dataflow` is the recursive, context-keyed work-list
solver; `Interval` the 64-bit interval operators; `ControlDep` control dependence by walking the
post-dominator tree; `AliasSets` the subset-pruned alias sets; `Recursion` the recursion test with its
cache; `Window`, `WindowWalk`, `WindowExact`, `WindowPass` and `WindowCases` the window-bounded
interprocedural walk, what it finds, its two loops over a function, and two modules on which it goes
astray. `Options` and `FiniteSets` hold what several modules share.

## What the proofs found

- A block with at most one successor, or with a terminator that is not a branch, is not traced.
  `Exactness.AllViolationsCheckedIff` proves of the rewritten function that exactly the other blocks,
  and those without a conditional branch, poison on every wrong exit; `Exactness.ReturnHidesBranch`
  is a block with two successors whose wrong exit leaves the state as it was.
- A branch is checked by its own condition only. When two conditions of a block can hold at once, as
  those of JNE and JP can, taking the second branch is a misprediction that no check sees
  (`Exactness.SecondBranchUnseen`); `Exactness.AllMispredictionsCheckedIff` is the exact condition.
- When the base and the index of a load are the same register, only the base operand is rewritten.
  `Coverage.FullyMaskedIff` says exactly when all address registers end up masked,
  `Coverage.DoubledBaseUnmasked` is an instance.
- The stack-pointer encoding takes any pointer of the upper half for a poisoned one
  (`SpTransport.ExtractIff`); the theorem is for pointers of the lower half.
- `hardenStandAloneGEP` and `hardenPostLoad` rewrite to the same program iff nothing but the load
  defines the old register (`PostLoad.RewritesCoincide`), which SSA form guarantees.
- The safe-stack search has no case for atomic instructions, callbr and resume, and looks at no operand
  of a call but its arguments: such uses are accepted though the pointer escapes or the access leaves
  the object (`SafeAlloca.AtomicStoreAccepted`, `SafeAlloca.AtomicOutOfBoundsAccepted`). `SafeAlloca.SafeIff`
  says exactly when a yes means safe.
- An access size of two to the pointer width or more is truncated before it is checked;
  `SafeAlloca.TrustedIff` says for which sizes the check can be trusted.
- `SDiv` by a range around zero is sound iff the dividend range does not start at the least integer
  (`Interval.SoundIff`).
- `WorkList::add` never records its element, so a block can be queued several times
  (`Dataflow.QueuedTwice`); the solver still ends, by its budgets (`Dataflow.Solver.Solve`).
- Control dependence leaves a branch that post-dominates its own successor out of its own
  dependents, except for a self-loop (`ControlDep.AgainstUsualDefinition`); the header of any while
  loop is such a branch (`ControlDep.LoopHeaderLeftOut`).
- The window walk prunes by instruction and step and ignores the call stack: when two blocks call a
  function that ends in an invoke, what follows the second call is not taken out
  (`WindowCases.SecondCallMissed`). A dropped entry loses nothing iff its stack leads to no instruction
  that the first one's does not (`WindowPass.EnterTwice`), which holds in particular when no
  function entered by a call has an invoke (`WindowExact.NoNestedInvokeSuffices`).
- The walks from recursive and indirect calls do not clear the call stack, so a walk cut off inside a
  callee leaves its stack to the first branch target, which then takes out an instruction that is within
  the window of no root (`WindowCases.LeftoverMisleads`). The stack makes no difference when the
  target's walk stays in its function (`WindowExact.LeftoverHarmless`), and is followed when it does not
  (`WindowExact.LeftoverFollowed`).

## Model

| member | source | states |
|---|---|---|
| `Machine.Opposite` | LLVM_FIX/X86SpeculativeLoadHardening.cpp:951-953 | the opposite condition holds exactly when the condition does not |
| `Machine.Actual` | LLVM_FIX/X86SpeculativeLoadHardening.cpp:868-875 | the exit the processor takes: the first branch whose condition holds, or the last exit when none does |
| `CondInfo.ScannedIsInfo` | LLVM_FIX/X86SpeculativeLoadHardening.cpp:789-829 | the backward scan with its resets collects exactly the conditional branches, last first, and the unconditional one |
| `CondInfo.ScanTerminators` | LLVM_FIX/X86SpeculativeLoadHardening.cpp:791-829 | the loop over the terminators computes that scan |
| `CondInfo.CollectBlockCondInfo` | LLVM_FIX/X86SpeculativeLoadHardening.cpp:758-841 | one summary for each traced block, in layout order, and none for the others |
| `PhiEntries.RemovalKeepsFirst` | LLVM_FIX/X86SpeculativeLoadHardening.cpp:446-483 | removing the duplicate operands backwards and in place keeps exactly the first entry of every predecessor |
| `PhiEntries.FirstEntriesCanonical` | LLVM_FIX/X86SpeculativeLoadHardening.cpp:440-446 | afterwards each predecessor has one entry, with the value that was found for it before |
| `PhiEntries.CanonicalizeEntries` | LLVM_FIX/X86SpeculativeLoadHardening.cpp:454-479 | the two loops over one PHI leave the first entries |
| `PhiEntries.CanonicalizePhiOperands` | LLVM_FIX/X86SpeculativeLoadHardening.cpp:446-483 | every PHI of the function is so treated and nothing else changes |
| `PhiEntries.CanonRun` | LLVM_FIX/X86SpeculativeLoadHardening.cpp:440-483 | canonicalization changes no run of the function, on any path |
| `SplitEdge.InsertAfterNext` | LLVM_FIX/X86SpeculativeLoadHardening.cpp:349-354 | the new block becomes the fallthrough of the source and falls through to the source's old layout successor; every other fallthrough is as before |
| `SplitEdge.FixEntriesCorrect` | LLVM_FIX/X86SpeculativeLoadHardening.cpp:404-427 | PHI entries stay one per predecessor, the new block delivers the source's value, and no other predecessor's value changes |
| `SplitEdge.FixEntriesValues` | LLVM_FIX/X86SpeculativeLoadHardening.cpp:404-427 | splitting introduces no PHI value that was not there |
| `TraceCfg.FixOperands` | LLVM_FIX/X86SpeculativeLoadHardening.cpp:404-427 | the operand loop, with its early exits, computes the specified entries |
| `TraceCfg.SplitFunction` | LLVM_FIX/X86SpeculativeLoadHardening.cpp:341-436 | the in-place updates add up to the split: terminators, injected jump, successor sets, layout and PHIs |
| `SplitStep.SplitFlow` | LLVM_FIX/X86SpeculativeLoadHardening.cpp:354-402 | after a split only the split exit leads to the new block, the new block leads only to the old target, and every other exit of every block leads where it did |
| `SplitStep.SplitCanonical` | LLVM_FIX/X86SpeculativeLoadHardening.cpp:404-427 | after a split every PHI of every block still has exactly one entry per predecessor |
| `SplitStep.SplitPhis` | LLVM_FIX/X86SpeculativeLoadHardening.cpp:404-427 | after a split every PHI still delivers the original value along each original edge, through whatever block the edge now takes |
| `SplitStep.SplitStepOk` | LLVM_FIX/X86SpeculativeLoadHardening.cpp:341-436 | a split keeps the whole instrumentation invariant: layout, flow, PHIs, owners of checks and bodies |
| `Instrumented.InvInit` | LLVM_FIX/X86SpeculativeLoadHardening.cpp:850-868 | the untouched function satisfies the instrumentation invariant |
| `Instrumented.ReuseStep` | LLVM_FIX/X86SpeculativeLoadHardening.cpp:889-899 | checking inside a successor with a single predecessor keeps the invariant too |
| `CheckCodes.SortUniqueSet` | LLVM_FIX/X86SpeculativeLoadHardening.cpp:983-986 | sorting and deduplicating gives a strictly ascending sequence of the same codes |
| `CheckCodes.ExecChecks` | LLVM_FIX/X86SpeculativeLoadHardening.cpp:906-939 | a chain of CMOVs changes nothing but the state, which becomes poison iff one of the codes holds |
| `CheckCodes.EdgeChecksExact` | LLVM_FIX/X86SpeculativeLoadHardening.cpp:946-990 | the checks of an edge poison iff a conditional edge's own condition is false or, on the fallthrough, any condition is true; deduplication does not matter |
| `CheckCodes.OnlyLastKills` | LLVM_FIX/X86SpeculativeLoadHardening.cpp:922-925 | exactly the last CMOV of an edge kills EFLAGS |
| `CheckCodes.ActualNotViolated` | LLVM_FIX/X86SpeculativeLoadHardening.cpp:946-990 | the exit the processor would take never fails its checks |
| `TraceCfg.CountSuccessors` | LLVM_FIX/X86SpeculativeLoadHardening.cpp:876-881 | the counts are the numbers of edges still to be split to each successor |
| `TraceCfg.CountOne` | LLVM_FIX/X86SpeculativeLoadHardening.cpp:955-963 | when the count of a successor is one, no other exit of the block leads to it any more |
| `TraceCfg.BuildCheckingBlock` | LLVM_FIX/X86SpeculativeLoadHardening.cpp:883-944 | the lambda computes the specified checked edge, splitting it or reusing the successor |
| `TraceCfg.TraceBlock` | LLVM_FIX/X86SpeculativeLoadHardening.cpp:859-991 | all exits of a block are checked, counts stay right so that exactly one edge to the unconditional successor is left at the assertion, and other blocks are untouched |
| `TraceCfg.TraceFunction` | LLVM_FIX/X86SpeculativeLoadHardening.cpp:850-994 | the result instruments the input: the invariant holds, and exactly the edges of traced blocks are checked |
| `TraceCfg.MachineFunction.TracePredStateThroughCfg` | LLVM_FIX/X86SpeculativeLoadHardening.cpp:850-994 | the same, for the function updated in place |
| `Exactness.ExpandPath` | LLVM_FIX/X86SpeculativeLoadHardening.cpp:341-436 | every path of the original expands to a path of the rewritten graph between the same blocks, and erasing inserted blocks gives it back |
| `Exactness.ErasePath` | LLVM_FIX/X86SpeculativeLoadHardening.cpp:341-436 | every path of the rewritten graph between original blocks erases to an original path whose expansion it is: a bijection |
| `Exactness.EdgeExact` | LLVM_FIX/X86SpeculativeLoadHardening.cpp:850-994 | across one edge the rewritten function reaches the same block with the same registers, memory and flags, and with the promised state |
| `Exactness.StateExact` | LLVM_FIX/X86SpeculativeLoadHardening.cpp:850-994 | over every path from the entry, predicted rightly or wrongly, the same, and the settled state is the promised one |
| `Exactness.SpecStateIff` | LLVM_FIX/X86SpeculativeLoadHardening.cpp:843-994 | the promised state is all-ones iff some traversed edge of a traced block failed its check, else it is the state at entry |
| `Exactness.PredictedUnpoisoned` | LLVM_FIX/X86SpeculativeLoadHardening.cpp:843-994 | a correctly predicted run keeps the state it started with |
| `Exactness.AcrossExact` | LLVM_FIX/X86SpeculativeLoadHardening.cpp:850-994 | across one edge of the rewritten function the settled state becomes all-ones iff the block is traced and the exit fails its check, and else stays as it was |
| `Exactness.AllViolationsCheckedIff` | LLVM_FIX/X86SpeculativeLoadHardening.cpp:764-802 | every wrong exit of a block leaves the settled state of the rewritten function all-ones iff the block has more than one successor and only branch terminators, or no conditional branch |
| `Exactness.UnseenIff` | LLVM_FIX/X86SpeculativeLoadHardening.cpp:946-990 | a misprediction goes unseen exactly when the branch taken and an earlier branch both have true conditions |
| `Exactness.AllMispredictionsCheckedIff` | LLVM_FIX/X86SpeculativeLoadHardening.cpp:764-990 | every exit other than the one the processor takes leaves the state all-ones iff moreover no two conditions of the block can hold at once, or it has no conditional branch |
| `Exactness.SecondBranchUnseen` | LLVM_FIX/X86SpeculativeLoadHardening.cpp:946-953 | JNE then JP: the second branch taken in place of the first fails no check |
| `Exactness.ReturnHidesBranch` | LLVM_FIX/X86SpeculativeLoadHardening.cpp:798-802 | a block with two successors and a terminator that is no branch: however it is instrumented, its wrong exit leaves the state as it was |
| `Exactness.HidingInstrumented` | LLVM_FIX/X86SpeculativeLoadHardening.cpp:798-802 | and it can be instrumented: the pass leaves it alone |
| `Liveness.IsEflagsLive` | LLVM_FIX/X86SpeculativeLoadHardening.cpp:1378-1400 | the backward scan agrees with liveness computed forwards over the block |
| `Liveness.LiveIff` | LLVM_FIX/X86SpeculativeLoadHardening.cpp:1378-1400 | EFLAGS are live at the end of a block exactly when the last instruction that defines or kills them is a live definition, or there is none and they are live in |
| `Liveness.InstrumentedLive` | LLVM_FIX/X86SpeculativeLoadHardening.cpp:896-925 | after instrumentation every reader of EFLAGS still finds them live |
| `Simulation.BlockwiseSimulates` | LLVM_FIX/X86SpeculativeLoadHardening.cpp:1488-1502 | if every block's rewritten body agrees with it while the state is zero, every unpoisoned run of the function is matched |
| `Simulation.SimulatesChain` | LLVM_FIX/X86SpeculativeLoadHardening.cpp:1488-1502 | rewrites that each preserve unpoisoned runs do so together, their renamings composed |
| `Masking.MaskCodeEffect` | LLVM_FIX/X86SpeculativeLoadHardening.cpp:2306-2443 | with the state at zero the inserted OR or SHRX code copies its sources, keeps all older registers, and keeps EFLAGS when they are live |
| `Masking.PlanEffect` | LLVM_FIX/X86SpeculativeLoadHardening.cpp:2279-2304 | with registers reused or freshly masked, the rewritten address is the original one while the state is zero |
| `Masking.PlanReuses` | LLVM_FIX/X86SpeculativeLoadHardening.cpp:2290-2304 | only registers without a mask are masked, each once; registers that have one are replaced by it; and afterwards every register of the address has one |
| `Masking.MaskKinds` | LLVM_FIX/X86SpeculativeLoadHardening.cpp:2306-2443 | OR when EFLAGS are dead, SHRX when they are live and it is available, else OR with the flags saved before and restored behind |
| `Harden.AddrBodySim` | LLVM_FIX/X86SpeculativeLoadHardening.cpp:2233-2443 | a block body with one load's address masked agrees with the original body in every unpoisoned run |
| `Harden.KnownAddr` | LLVM_FIX/X86SpeculativeLoadHardening.cpp:2290-2304 | masked registers recorded for reuse still hold the values of their originals |
| `PostLoad.PostBodySim` | LLVM_FIX/X86SpeculativeLoadHardening.cpp:2580-2657 | a block body with one loaded value masked agrees with the original body in every unpoisoned run |
| `PostLoad.RenSimulates` | LLVM_FIX/X86SpeculativeLoadHardening.cpp:2651-2653 | replacing a register by a fresh one everywhere preserves every unpoisoned run |
| `PostLoad.RewritesCoincide` | LLVM_FIX/X86SpeculativeLoadHardening.cpp:2204-2231 | selective use rewriting and define-then-replace give the same function iff nothing but the load defines the old register |
| `PostLoad.OldRegisterGone` | LLVM_FIX/X86SpeculativeLoadHardening.cpp:2651-2653 | afterwards no instruction and no PHI entry or result names the old register, every former reader reads the hardened one, and every PHI delivers what it did along each edge |
| `HardenPass.AddrPass` | LLVM_FIX/X86SpeculativeLoadHardening.cpp:2233-2443 | masking an address keeps the invariant of the whole pass |
| `HardenPass.PostPass` | LLVM_FIX/X86SpeculativeLoadHardening.cpp:2631-2657 | masking a value keeps the invariant of the whole pass |
| `HardenPass.PostLoadIsRename` | LLVM_FIX/X86SpeculativeLoadHardening.cpp:2631-2657 | the rewrite is masking under the old name followed by a renaming |
| `Blinding.MaskBlinds` | LLVM_FIX/X86SpeculativeLoadHardening.cpp:2401-2428 | in a poisoned state a masked register holds all ones, or with SHRX one bit of its source |
| `Coverage.AddrPieceOk` | LLVM_FIX/X86SpeculativeLoadHardening.cpp:2244-2443 | a hardened load is masks and then the load itself, with each address register replaced by one whose last definition in the block is a mask |
| `Coverage.NewMasks` | LLVM_FIX/X86SpeculativeLoadHardening.cpp:2290-2304 | no register is masked twice in a block |
| `Coverage.ValuePieceOk` | LLVM_FIX/X86SpeculativeLoadHardening.cpp:2580-2657 | a load whose value is masked is the load into a register of its own and then the masked copy, whose register is known as masked |
| `Coverage.FullyMaskedIff` | LLVM_FIX/X86SpeculativeLoadHardening.cpp:2279-2282 | no unmasked register is left in the address iff base and index are not one and the same unmasked register |
| `Coverage.DoubledBaseUnmasked` | LLVM_FIX/X86SpeculativeLoadHardening.cpp:2279-2282 | a load from a register plus itself keeps the register, unmasked, as its index |
| `Coverage.RenTreated` | LLVM_FIX/X86SpeculativeLoadHardening.cpp:2651-2653 | later renamings to fresh registers keep a block treated, its instructions renamed with it |
| `HardenWalk.StepStage` | LLVM_FIX/X86SpeculativeLoadHardening.cpp:1815-1914 | whatever is chosen for an instruction, its step keeps the pass invariant, SSA form and the recorded masks |
| `HardenBlocks.StepCovers` | LLVM_FIX/X86SpeculativeLoadHardening.cpp:1815-1914 | and the instruction is treated as was chosen: masked in its address, masked in its value, or kept as it is up to the renaming |
| `HardenBlocks.StepOthers` | LLVM_FIX/X86SpeculativeLoadHardening.cpp:1815-1914 | while every other block stays treated, or is renamed and nothing else |
| `HardenBlocks.HardenBlock` | LLVM_FIX/X86SpeculativeLoadHardening.cpp:1810-1914 | one block: whatever the instructions compute, unpoisoned runs are preserved; every instruction is treated as chosen; other blocks are only renamed |
| `HardenBlocks.HardenFunction` | LLVM_FIX/X86SpeculativeLoadHardening.cpp:1501-1530 | all blocks in layout order: unpoisoned runs preserved; wherever the caller chose an action for every instruction of a block, each instruction with a memory operand or a result has its address or its value masked as chosen and every other is kept; a block without choices is only renamed |
| `Blinding.TreatedBlinds` | LLVM_FIX/X86SpeculativeLoadHardening.cpp:1810-1914 | when a treated block runs with the state all-ones once its checks are over, each chosen load executes with its address registers all ones or one bit, an index equal to the base apart, and each chosen value is all ones behind its load |
| `Blinding.PoisonedRunBlind` | LLVM_FIX/X86SpeculativeLoadHardening.cpp:1501-1530 | the same, for the choices of the caller, at every block that a run reaches from a poisoned one, by whatever exits |
| `Hardening.CanonicalizationSuffices` | LLVM_FIX/X86SpeculativeLoadHardening.cpp:440-483 | canonical PHIs are what the rest of the pass needs |
| `Hardening.PredictedUnseen` | LLVM_FIX/X86SpeculativeLoadHardening.cpp:843-994 | a correctly predicted run from state zero fails no check |
| `Hardening.MeaningPreserved` | LLVM_FIX/X86SpeculativeLoadHardening.cpp:516-718 | every run from state zero on which no check fails, so every correctly predicted one, from any start state, visits the same original blocks and has the same registers, memory and live flags after both halves of the pass |
| `Hardening.WrongTurnBlinds` | LLVM_FIX/X86SpeculativeLoadHardening.cpp:516-718 | after any run on which no check fails, mispredictions that no check sees included, and one wrong exit of a traced block, every chosen load the hardened function meets from then on is blind, whatever exits it goes on to take |
| `Hardening.UnseenOrTurns` | LLVM_FIX/X86SpeculativeLoadHardening.cpp:516-718 | there is no third case: every run from state zero fails no check or has a first wrong exit of a traced block |
| `Hardening.HardenSpeculativeLoads` | LLVM_FIX/X86SpeculativeLoadHardening.cpp:516-718 | canonicalization, tracing and hardening composed, for every function as the pass finds it and every choice of actions for its instructions: every choice is carried out, runs on which no check fails are kept, and after a wrong exit every choice is blind, for all instructions, start states, runs and continuations |
| `SpTransport.X86Lawful` | LLVM_FIX/X86SpeculativeLoadHardening.cpp:2158-2202 | SHL 47, OR and SAR 63 on 64-bit words set and read the poison bits of a lower-half pointer, and stack adjustments keep them |
| `SpTransport.StackGrowsDown` | LLVM_FIX/X86SpeculativeLoadHardening.cpp:2728-2884 | pushing subtracts from the pointer, popping undoes it, and a call pushes eight bytes |
| `SpTransport.CallAgrees` | LLVM_FIX/X86SpeculativeLoadHardening.cpp:2728-2884 | the state recovered after a call is all-ones iff the caller was poisoned, the callee's run became so, or the return address mismatched |
| `SpTransport.CallTreeExact` | LLVM_FIX/X86SpeculativeLoadHardening.cpp:2682-2884 | over every tree of nested calls: each recovered state is as it should be; at every call, return, tail call and at the end the pointer is canonical, carries a poisoned state iff something was mispredicted before, and else is bit for bit the pointer of the plain run |
| `SpTransport.TaintSticks` | LLVM_FIX/X86SpeculativeLoadHardening.cpp:2728-2884 | what was mispredicted before one transfer of control was so before every later one, and a run without misprediction is clean throughout |
| `SpTransport.ExtractIff` | LLVM_FIX/X86SpeculativeLoadHardening.cpp:2180-2202 | exactly the pointers with the top bit set are read as poisoned |
| `Indirect.TraceThroughIndirectBranches` | LLVM_FIX/X86SpeculativeLoadHardening.cpp:1120-1367 | the step succeeds exactly on supported functions, checks exactly the targets of indirect jumps, and every predecessor of a target carries the right register; a fault names a block that has it |
| `Indirect.EntryExact` | LLVM_FIX/X86SpeculativeLoadHardening.cpp:1266-1362 | entering a block poisons the state iff it comes through an indirect jump whose register held another address; a synthesized address never does |
| `Indirect.IndirectExact` | LLVM_FIX/X86SpeculativeLoadHardening.cpp:1120-1367 | the same over every path: poisoned iff it started so or some indirect jump went elsewhere |
| `Sink.SinkCheckToSingleUse` | LLVM_FIX/X86SpeculativeLoadHardening.cpp:2454-2522 | gives up exactly when a reader is neither masked nor in the block, data invariant, with dead flags, one result and that maskable, when a masked invariant load uses the value as an address, or when two entries are not masked; otherwise names the one reader left, or none |
| `Sink.SinkPostLoadHardenedInst` | LLVM_FIX/X86SpeculativeLoadHardening.cpp:2445-2532 | ends, moves strictly later, stops only where it must, answers only instructions with one maskable result and dead flags, and hardening the result covers every reader of the unmasked value; no result means they are covered already |
| `Sink.NeedNotStay` | LLVM_FIX/X86SpeculativeLoadHardening.cpp:2496-2518 | a load whose single reader can take the masking is not where it stops, whatever else is masked |
| `Sink.HardenMarked` | LLVM_FIX/X86SpeculativeLoadHardening.cpp:1874-1912 | the walk over a block masks or sinks every marked load; at its end every marked value is covered, every masked instruction can be masked, and no load is masked whose masking could have been moved on |
| `Sink.UnmaskedFlowsAreBenign` | LLVM_FIX/X86SpeculativeLoadHardening.cpp:2445-2532 | along any chain of reads, an unmasked value reaches only later instructions of the block that leak nothing through timing, flags or addresses |
| `UnsafeStack.StepKeepsInv` | LLVM_FIX/SafeStack.cpp:456-742 | every operation keeps the frame discipline: alignment, order of objects, dynamic top below the pointer, valid save tokens |
| `UnsafeStack.RunSafe` | LLVM_FIX/SafeStack.cpp:456-866 | over every run, live objects never overlap and lie above the pointer, tops are 16-byte aligned, and no dynamic top exceeds the pointer |
| `UnsafeStack.LiveDisjoint` | LLVM_FIX/SafeStack.cpp:535-669 | any two live objects, of any frames and kinds, are disjoint |
| `UnsafeStack.StaticsDistinct` | LLVM_FIX/SafeStack.cpp:535-586 | no two live static objects share an address, even when they have no bytes |
| `UnsafeStack.StaticAligned` | LLVM_FIX/SafeStack.cpp:571-586 | static objects get the alignment they ask for, also above 16 |
| `UnsafeStack.RemIsMod` | LLVM_FIX/SafeStack.cpp:577-585 | the bits an alignment clears are the remainder of dividing by it |
| `UnsafeStack.FrameSizeLeast` | LLVM_FIX/SafeStack.cpp:655-668 | the frame is the least multiple of 16 that holds the static objects, and nothing without any |
| `UnsafeStack.CallDelivers` | LLVM_FIX/SafeStack.cpp:572-668 | a call puts the base as high as the alignment of the objects allows and the pointer a frame below it, and leaves all other frames alone |
| `UnsafeStack.AllocaDelivers` | LLVM_FIX/SafeStack.cpp:675-716 | a dynamic alloca gets its size and alignment at the new pointer, and the dynamic top follows |
| `UnsafeStack.AllocaHighest` | LLVM_FIX/SafeStack.cpp:675-716 | no higher address has the alignments asked for and room for the object |
| `UnsafeStack.ObjectsStay` | LLVM_FIX/SafeStack.cpp:535-716 | calls, allocas and saves leave every live object in place, and a change of lifetimes makes exactly the named static objects live |
| `UnsafeStack.RestoresWhatWasSaved` | LLVM_FIX/SafeStack.cpp:456-491 | resuming loads the dynamic top where the function keeps one and else the static top; a stack restore brings back the saved pointer and objects |
| `UnsafeStack.ResumeKeeps` | LLVM_FIX/SafeStack.cpp:456-491 | resuming at a restore point keeps every live object of the surviving frames above the pointer |
| `UnsafeStack.ReturnRestores` | LLVM_FIX/SafeStack.cpp:862-866 | a call, anything it does and its return leave the state as it was before the call, even when the base was re-aligned |
| `SafeAlloca.AddSound` | LLVM_FIX/SafeStack.cpp:247-250 | every sum of elements of two wrapping ranges is in their sum |
| `SafeAlloca.ContainsSound` | LLVM_FIX/SafeStack.cpp:251-253 | containment of ranges is inclusion |
| `SafeAlloca.AccessSound` | LLVM_FIX/SafeStack.cpp:241-268 | an accepted access touches, modulo the pointer width, only offsets below the object's size |
| `SafeAlloca.TrustedIff` | LLVM_FIX/SafeStack.cpp:246-253 | acceptance implies that for all address ranges iff the access size is not truncated, the object is at least that large, or the truncated size exceeds it |
| `SafeAlloca.CheckUse` | LLVM_FIX/SafeStack.cpp:270-372 | one use is refused exactly when it stores or returns the pointer, accesses it with a range that is not contained in the object or of unknown length, or passes it to a callee that may capture or access it; atomics, callbr and resume are never refused |
| `SafeAlloca.IsSafeStackAlloca` | LLVM_FIX/SafeStack.cpp:290-378 | the search ends and answers no exactly when some value it follows from the object has such a use |
| `SafeAlloca.SafeIff` | LLVM_FIX/SafeStack.cpp:241-378 | after a yes, no derived pointer escapes and every access stays inside iff no reached use is an atomic that stores the pointer or leaves the object, a capturing callbr, a resume, an operand of a call that is no argument, or an access of a size cut down to the pointer width |
| `SafeAlloca.AcceptedIff` | LLVM_FIX/SafeStack.cpp:241-268 | where nothing wraps around, an access is accepted exactly when all its bytes are inside the object |
| `SafeAlloca.HarmlessAccepted` | LLVM_FIX/SafeStack.cpp:290-378 | an object whose reached uses are in-bounds accesses that do not wrap, markers, va_arg, arguments left alone, and derivations of such pointers is accepted |
| `SafeAlloca.AtomicStoreAccepted` | LLVM_FIX/SafeStack.cpp:369-371 | an object whose address is stored by an atomic instruction is accepted |
| `SafeAlloca.AtomicOutOfBoundsAccepted` | LLVM_FIX/SafeStack.cpp:369-371 | so is one accessed out of bounds by an atomic instruction |
| `Dataflow.WorkList.Add` | Unified-Memory-Safety-Validation/DataflowAnalysis.h:92-96 | an element is appended unless it is one of the listed ones, and is not listed itself |
| `Dataflow.WorkList.Take` | Unified-Memory-Safety-Validation/DataflowAnalysis.h:99-105 | the oldest element is taken and no longer listed |
| `Dataflow.QueuedTwice` | Unified-Memory-Safety-Validation/DataflowAnalysis.h:92-96 | an element added twice waits twice |
| `Dataflow.Requeue` | Unified-Memory-Safety-Validation/DataflowAnalysis.h:471-486 | successors are queued at the cost of their budgets: all of them wait afterwards, or one has used up its 101 |
| `Dataflow.FollowedUpSnoc` | Unified-Memory-Safety-Validation/DataflowAnalysis.h:364-486 | as visits go on, a successor of a changed block is taken again later or still waits |
| `Dataflow.Solver.Solve` | Unified-Memory-Safety-Validation/DataflowAnalysis.h:322-508 | ends for every policy, is never entered for an active pair, restores the active set, takes all reachable blocks in order first and none more than 102 times; its visits account for every change of the store; and unless some block is asked for more than 100 times, every successor of a block whose exit a visit changed is taken again later |
| `Dataflow.Solver.Process` | Unified-Memory-Safety-Validation/DataflowAnalysis.h:364-469 | one visit: nothing when the merged entry state was seen before; else it is saved and pushed through every instruction and call, and the exit is stored, and reported as changed, exactly when it differs from the old one |
| `Dataflow.Solver.AnalyzeCall` | Unified-Memory-Safety-Validation/DataflowAnalysis.h:531-568 | arguments are passed; the callee is solved in its context, from the store they are in, exactly when that pair is not active and needs it; and the result is taken from the very store that solution leaves |
| `Dataflow.SolveAll` | Unified-Memory-Safety-Validation/DataflowAnalysis.h:232-253 | the entry points are solved in order, each in the context without calls and from the store the one before left, and that accounts for every change of the store |
| `Dataflow.PairsClosed` | Unified-Memory-Safety-Validation/DataflowAnalysis.h:532-541 | the pairs of a context and a function are finitely many and calls do not leave them |
| `Dataflow.LastSites` | Unified-Memory-Safety-Validation/DataflowAnalysis.h:532-541 | after any sequence of calls the context holds the last call sites, as many as it is long, the latest one last |
| `Interval.FromCorners` | Unified-Memory-Safety-Validation/ValueRange.cpp:528-543 | infinite if a candidate overflowed, else exactly from the least to the greatest candidate |
| `Interval.Evaluate` | Unified-Memory-Safety-Validation/ValueRange.cpp:483-585 | computes the specified range, which is sound except in the one case `SoundIff` names, whose result is spelled out; infinite when an operand is and not both are constant, else unknown |
| `Interval.SoundIff` | Unified-Memory-Safety-Validation/ValueRange.cpp:497-585 | whenever the result is constant, every exact result fits 64 bits and lies in it, iff it is not a division of the least integer by a range around zero |
| `Interval.Tight` | Unified-Memory-Safety-Validation/ValueRange.cpp:497-585 | both ends of a constant result are attained by operands in the ranges |
| `Interval.InfinityIff` | Unified-Memory-Safety-Validation/ValueRange.cpp:497-585 | the result is infinite exactly when some result overflows or the divisor range ends at zero |
| `ControlDep.NearestCommonDominator` | Unified-Memory-Safety-Validation/program-dependence-graph/src/ControlDependencyGraph.cpp:54-54 | the ancestors of the result are exactly the common ancestors |
| `ControlDep.AddControlDepFromNodeToBB` | Unified-Memory-Safety-Validation/program-dependence-graph/src/ControlDependencyGraph.cpp:14-25 | an edge is added to every instruction of the block that has a node |
| `ControlDep.DependOnEdge` | Unified-Memory-Safety-Validation/program-dependence-graph/src/ControlDependencyGraph.cpp:54-61 | the walk reaches exactly the ancestors of the target that are not ancestors of the source, and the source of a self-loop |
| `ControlDep.ComputeControlDependencies` | Unified-Memory-Safety-Validation/program-dependence-graph/src/ControlDependencyGraph.cpp:34-66 | the edges are exactly those of the definition by paths: the block post-dominates the target of a conditional edge and not its source, or the edge is a self-loop |
| `ControlDep.AgainstUsualDefinition` | Unified-Memory-Safety-Validation/program-dependence-graph/src/ControlDependencyGraph.cpp:42-61 | this is the usual definition but for a branch that post-dominates its own successor |
| `ControlDep.LoopHeaderLeftOut` | Unified-Memory-Safety-Validation/program-dependence-graph/src/ControlDependencyGraph.cpp:42-61 | the header of a while loop depends on itself by the usual definition, and no edge says so |
| `AliasSets.Group` | Unified-Memory-Safety-Validation/program-dependence-graph/src/DataDependencyGraph.cpp:39-58 | the map sends each object to exactly the instructions that may point to it |
| `AliasSets.Absorb` | Unified-Memory-Safety-Validation/program-dependence-graph/src/DataDependencyGraph.cpp:68-84 | in any order of search, the new set and every kept set lie inside a kept set afterwards |
| `AliasSets.Prune` | Unified-Memory-Safety-Validation/program-dependence-graph/src/DataDependencyGraph.cpp:65-85 | in any processing order, the kept sets are given sets and each given set lies inside one |
| `AliasSets.PrunedShare` | Unified-Memory-Safety-Validation/program-dependence-graph/src/DataDependencyGraph.cpp:65-85 | two instructions share a kept set iff they share a points-to object |
| `AliasSets.AliasEdges` | Unified-Memory-Safety-Validation/program-dependence-graph/src/DataDependencyGraph.cpp:39-106 | the edges are exactly the type-filtered pairs that share an object, and symmetric |
| `AliasSets.NonAliased` | Unified-Memory-Safety-Validation/Uriah.cpp:378-461 | the result is exactly the call and invoke results, without the call results that another pointer may alias by the query or that share an object with another call result |
| `Recursion.Dfs` | Unified-Memory-Safety-Validation/OutOfWindow.cpp:100-118 | a hit is a real call chain; after a miss everything newly visited has been searched completely |
| `Recursion.RecursionAnalysis.IsRecursive` | Unified-Memory-Safety-Validation/OutOfWindow.cpp:75-88 | true exactly when the function reaches itself by one or more calls of defined functions, and the cache always agrees with a fresh search |
| `Recursion.NotFoundNotReached` | Unified-Memory-Safety-Validation/OutOfWindow.cpp:100-118 | a failed search from an empty visited set proves that there is no cycle |
| `WindowWalk.MoveInside` | Unified-Memory-Safety-Validation/OutOfWindow.cpp:346-384 | a step inside a block is a move of the walk relation and brings the next counted instruction nearer |
| `Window.NextEarlier` | Unified-Memory-Safety-Validation/OutOfWindow.cpp:189-344 | every move, also from the end of a block to its successors, to both destinations of an invoke, into a callee or back to a caller, leads to a place of the module and is progress |
| `Window.NextIff` | Unified-Memory-Safety-Validation/OutOfWindow.cpp:189-384 | the moves are exactly these: entering a function that has a body and is not recursive, skipping a debug call, counting any other instruction, going on to the next block, splitting at an invoke without a body to enter, returning behind the last call, and climbing to non-recursive callers |
| `WindowWalk.NextEntering` | Unified-Memory-Safety-Validation/OutOfWindow.cpp:189-344 | what follows where the loop is left, by a fork or into callers, is an entry of the walk |
| `WindowWalk.Explore` | Unified-Memory-Safety-Validation/OutOfWindow.cpp:178-386 | ends on every module; what it takes out is met within the window by a walk over entries not made before; a pruned entry changes nothing, and every new key is carried through to the end of the window |
| `WindowWalk.ExploreCallers` | Unified-Memory-Safety-Validation/OutOfWindow.cpp:244-294 | with an empty call stack, every non-recursive call site is entered |
| `WindowPass.WalkCalls` | Unified-Memory-Safety-Validation/OutOfWindow.cpp:127-141 | the first loop: every recursive or indirect call is walked from, each walk on the stack that the one before left |
| `WindowPass.WalkTargets` | Unified-Memory-Safety-Validation/OutOfWindow.cpp:143-175 | the second loop: every branch target is walked from, the first on the left-over stack and the others on an empty one |
| `WindowPass.OutOfWindow.AnalyzeFunction` | Unified-Memory-Safety-Validation/OutOfWindow.cpp:120-176 | the analysis of one function starts from its indirect and recursive calls and invokes and from every successor of its conditional branches and switch cases, told by the instructions, and from nowhere else; all of them are visited; what is taken out is within the window of one of those walks, and the stacks they start on are the ones named |
| `WindowExact.NothingMissed` | Unified-Memory-Safety-Validation/OutOfWindow.cpp:178-386 | where entries at the same instruction and step lead to the same instructions, everything within the window of a walked root is taken out |
| `WindowPass.AnalysisExact` | Unified-Memory-Safety-Validation/OutOfWindow.cpp:120-176 | there, the analysis of a function takes out a counted instruction iff it is within the window of one of its walks |
| `WindowPass.FlatAnalysisExact` | Unified-Memory-Safety-Validation/OutOfWindow.cpp:120-176 | in particular where no function entered by a call has an invoke and no stack is left over: a counted instruction is taken out iff it is within the window of such a call or successor |
| `WindowPass.EnterTwice` | Unified-Memory-Safety-Validation/OutOfWindow.cpp:178-187 | of two entries at one key with different stacks the second changes nothing; where the first is complete, exactly what the second sees and the first does not is lost, so nothing is lost iff there is no such instruction |
| `WindowExact.NoNestedInvokeSuffices` | Unified-Memory-Safety-Validation/OutOfWindow.cpp:178-386 | if no function entered by a call has an invoke, entries at the same key are the same |
| `WindowExact.LeftoverHarmless` | Unified-Memory-Safety-Validation/OutOfWindow.cpp:127-141 | a walk on a left-over stack that does not leave its function meets what it would meet on an empty one |
| `WindowExact.LeftoverFollowed` | Unified-Memory-Safety-Validation/OutOfWindow.cpp:127-141 | a walk that does leave its function goes on behind the call left on the stack |
| `WindowCases.SecondCallMissed` | Unified-Memory-Safety-Validation/OutOfWindow.cpp:178-187 | a module in which an instruction within the window is not taken out because a second entry is pruned |
| `WindowCases.LeftoverMisleads` | Unified-Memory-Safety-Validation/OutOfWindow.cpp:127-175 | a module in which the left-over stack takes out an instruction within the window of neither root |

## Left out

- The first walk over a block, which decides how each load is hardened (LLVM_FIX/X86SpeculativeLoadHardening.cpp:1530-1810): the second walk is proved for every choice.
- LFENCE modes, fence-only calls, vector, x87 and narrow register classes, 32-bit mode, EH-pad edges and blocks ending in an indirect jump after conditional jumps.
- hardenBranch, hardenVariantTimingInstr, hardenFixedAddress, hardenStore and the dummy-marker bookkeeping: opcode plumbing around the same masking.
- The SSA updater for the predicate state: the state is one location of the machine, so its PHIs are implicit.
- Block probabilities, debug locations, statistics and command-line options.
- The assertions of the indirect-branch step are modelled as faults that stop the pass.
- Stack layout, lifetime analysis, scalar evolution, points-to sets, data-invariance tables and the post-dominator builder enter as contracts or parameters.
- The rewriting of uses and debug information when an alloca moves to the unsafe stack, and inlining of the pointer-address call: the model is of the emitted pointer updates.
- UnsafeStack.Step: addresses are naturals and operations need the space they take, so exhaustion of the address space is not modelled.
- Abstract states, meets and transfers of the value-range analysis: the solver is proved for all of them.
- Rescheduling of callers (Unified-Memory-Safety-Validation/DataflowAnalysis.h:494-503): both results compared are the same map slot, so nothing is rescheduled in the model.
- Narrower widths, masking by AND, unsigned division, casts, stores and branch constraints of the value-range analysis.
- Alias edges from the under-approximating query (Unified-Memory-Safety-Validation/program-dependence-graph/src/DataDependencyGraph.cpp:117-145): only the edges from pruned sets are modelled.
- WindowExact.NothingMissed: stated where entries at one instruction and step lead to the same instructions; for other modules the exact condition is given for one dropped entry at a time (`WindowPass.EnterTwice`), not for a whole analysis.
- Terminators with several successors besides switch, conditional branch and invoke (callbr, indirectbr) in the window walk.
- Minimal distances, graph node indexes, IDL generation, boundary data, instrumentation and statistics.
