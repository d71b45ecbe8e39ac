# Bytecode back end: model and proofs

This Dafny project models the part of the compiler that turns Bitcoin Script instruction streams into smaller streams
meant to behave the same, and proves that they do. `dafny verify dfyconfig.toml` checks all of it.

What is modelled, by module:

- `Hex`, `ScriptCodec`, `ScriptSplit`, `BytecodeIr`, `LegacyAdapter`: hex text, the push codec, the two independently
  written script splitters, the typed instructions, and the bridge between text and typed instructions.
- `CondMachine`, `IfTree`, `IfTailOptimizer`, `IfTailMeaning`, `IfTailPlan`, `IfTailPaths`, `IfTailNormalForm`,
  `IfTailPass`: common-tail hoisting over IF regions. The flat machine has a stack of conditions; what an ordinary
  instruction does is a parameter that may depend only on its normalised text. The tree, the parser, the optimizer, the
  provenance plan and its validation follow the source; `IfTailPaths` reads the branch decisions of the plan off the flat
  text and off its runs; `IfTailPass` holds the loops and the object that is updated in place.
- `ScriptVm`, `PeepholeRules`, `PeepholeMeaning`, `PeepholeSound`, `PeepholeRounds`, `PeepholeWindows`,
  `PeepholeBoundary`, `PeepholePass`, `PeepholeProvenance`, `PeepholeExecute`: the peephole pass on a concrete virtual
  machine with a byte-string stack, partial number decoding and failing underflow. Signature checks, the number format and
  unknown opcodes are parameters of the machine; `Sane` says what the rewrites rely on (0, 1, 2 and -1 decode as usual,
  and only OP_RETURN, OP_CODESEPARATOR and text that is not hex may notice the conditional depth), and
  `StackOnVm.SuitableMachineExists` exhibits such a machine. Rounds, hoisting and the whole pass are functions of the
  optimizable code alone; `PeepholeBoundary` shows that the boundary the source reads again in every round, from the
  artifact or from the text, is always the end of that code, `PeepholeWindows` says which windows a round cannot leave
  behind, and `PeepholeExecute` holds the loops over text and artifact.
- `Permutations`, `StackSteps`, `StackOnVm`, `CheapestSearch`, `MoveTable`, `MovePlans`, `CopySteps`, `CopySearch`: the stack
  planner. Both priority-queue searches share one search invariant. Window sizes are not bounded in the searches; the
  limits of 8 and 6 appear only where the source refuses larger requests. Items of equal cost may leave the queue in any
  order, so the results hold for every tie-breaking.
- `DeleteLowering`: lowering of Delete, with the compile-time stacks edited while code is emitted.
- `ArtifactRewriter`, `Materializer`, `FinalizeLayout`: provenance of typed artifacts, the linker of canonical templates,
  the compile-time layout pass.
- `RangePlan`: ranges over int64 in wrapping uint64 arithmetic.
- `ScopeState`: control-flow snapshots of the compile-time scope, on heap objects with a shared altstack.

Stacks are written top first. Where the code and its documentation differ, or where a hoped-for property needs a
condition, the model follows the code:

- The two splitters agree on a fragment the strict one accepts if and only if the fragment is bare hex: the lenient one
  returns nothing for a `0x` prefix or a placeholder (`ScriptSplit.SplitTextsAgree`).
- The duplicate-push rule does not always save a byte (`PeepholeRounds.DuplicateKeepsLength`); it does if and only if the
  push is written in more than one byte (`PeepholeRounds.DuplicateSaves`). Rounds decrease (instructions, pushes)
  instead (`PeepholeRounds.RoundImproves`).
- Finalization is idempotent with a typed artifact (`FinalizeLayout.LayoutIsIdempotent`), but without one only when the
  code needs no padding: old padding is then taken for data (`FinalizeLayout.TextLayoutRepeats`, `TextLayoutGrows`).
- The typed boundary is read from bodies and the rules look at text, so results about a carried artifact ask that an
  executable instruction is typed OP_RETURN exactly when its text is (`LegacyAdapter.ReturnsAreTyped`). Import and the
  spelling of typed code establish it (`LegacyAdapter.ImportedReturns`, `SynthesizedReturns`), and every rewrite keeps
  it.
- An opcode that pushes a constant and the push of that constant share an encoding; reading back sees the push
  (`BytecodeIr.AsRead`).

## Model

| member | source | states |
|---|---|---|
| `IfTailMeaning.OptimizePreservesMeaning` | src/bytecode/structured_if_tail_optimizer.cpp:623-652 | For every instruction list, well nested or not, every start status and every machine whose instructions depend only on their normalised text and whose safe instructions (pure hex but OP_RETURN and OP_CODESEPARATOR, and bound placeholders) ignore the conditional depth, running the optimizer's output ends exactly as running its input: same state, halt or failure (also lines 131-220, 359-458). |
| `IfTailMeaning.FlatRunsTree` | src/bytecode/structured_if_tail_optimizer.cpp:442-458 | Running the flat text of a parsed tree from any status, including inside a skipped branch, is evaluating the tree (also lines 141-216). |
| `IfTailMeaning.HoistMeaning` | src/bytecode/structured_if_tail_optimizer.cpp:359-425 | The hoist law: moving the merged common tail of both branches behind ENDIF changes no outcome, although the tail then runs one conditional level higher. |
| `IfTailMeaning.SafeEval` | src/bytecode/structured_if_tail_optimizer.cpp:263-293 | Code accepted by extractionSafe behaves the same at every conditional depth. |
| `IfTailMeaning.EquivEval` | src/bytecode/structured_if_tail_optimizer.cpp:222-261 | Sequences the optimizer calls equivalent have the same effect. |
| `IfTailOptimizer.CommonTailIsMaximal` | src/bytecode/structured_if_tail_optimizer.cpp:384-406 | However many nodes two branches share at their ends, whole regions included, the counted tail is at least as long. |
| `IfTailPlan.RewritePlanIsAlwaysValid` | src/bytecode/structured_if_tail_optimizer.cpp:560-621 | The defensive validation never rejects: on every structurally valid input the normalised plan passes, so the rewritten text is the one returned (also lines 322-357, 427-515, 639-646). |
| `IfTailPlan.FaithfulPlanIsValid` | src/bytecode/structured_if_tail_optimizer.cpp:560-621 | A rewrite that keeps every old position once, under atoms of the same normalised text, with branch openers before their bodies, has a plan that normalises and validates (also lines 470-515). |
| `IfTailPlan.OptimizeCount` | src/bytecode/structured_if_tail_optimizer.cpp:359-425 | Hoisting and merging neither lose nor repeat an old position (also lines 322-357). |
| `IfTailPlan.EveryInstructionIsKept` | src/bytecode/structured_if_tail_optimizer.cpp:427-458 | Every input position maps to an output instruction that is the same up to spelling (also lines 517-534). |
| `IfTailNormalForm.OptimizeIsIdempotent` | src/bytecode/structured_if_tail_optimizer.cpp:359-425 | One pass reaches the normal form: optimizing the output changes nothing and merges nothing (also lines 623-652). |
| `IfTailNormalForm.ChangedMeansShorter` | src/bytecode/structured_if_tail_optimizer.cpp:359-425 | A change is reported exactly when the output is shorter; otherwise the output is the input (also lines 623-652). |
| `IfTailNormalForm.OutputIsNormal` | src/bytecode/structured_if_tail_optimizer.cpp:359-425 | The output is balanced code in which no region with two safe branches ends alike in both, whether in one instruction or in a whole nested region. |
| `IfTailNormalForm.EquivByText` | src/bytecode/structured_if_tail_optimizer.cpp:222-261 | Two pieces of balanced code are called equivalent exactly when their texts are the same up to spelling, instruction by instruction. |
| `IfTailNormalForm.SafeByText` | src/bytecode/structured_if_tail_optimizer.cpp:263-293 | Code may leave its branch exactly when each of its instructions, markers included, is safe by its text. |
| `IfTailNormalForm.SkippedTailsRemain` | src/bytecode/structured_if_tail_optimizer.cpp:359-425 | The reported number of skipped tails is the number of regions whose branches still end alike in the output. |
| `IfTailPaths.PlanIsExact` | src/bytecode/structured_if_tail_optimizer.cpp:470-515 | Behind each output the plan lists, ascending and once each, exactly the old positions sent there, each with the branch decisions a scan of the flat input finds open at it, their openers renumbered for the output (also lines 427-458, 517-534). |
| `IfTailPaths.DecisionsAreTaken` | src/bytecode/structured_if_tail_optimizer.h:20-60 | In every run that reaches a position, each decision recorded for it agrees with what its opener tested exactly when the condition now in force says so. |
| `IfTailPaths.MalformedIsKept` | src/bytecode/structured_if_tail_optimizer.cpp:536-558 | Code that is not well nested comes back as it is, with nothing counted and a valid plan that maps every position to itself (also lines 629-632). |
| `IfTree.ParseSound` | src/bytecode/structured_if_tail_optimizer.cpp:131-220 | A successful parse is a well-formed tree whose flattening is the input text, each atom carrying its own position (also lines 427-458). |
| `IfTree.ParseComplete` | src/bytecode/structured_if_tail_optimizer.cpp:131-220 | The flattening of every well-formed tree parses, and gives the tree back up to provenance (also lines 427-458). |
| `IfTree.Parser.ParseAll` | src/bytecode/structured_if_tail_optimizer.cpp:131-220 | The parser with its moving index returns exactly the recursive parse, failures included. |
| `IfTailPass.CountCommonTail` | src/bytecode/structured_if_tail_optimizer.cpp:384-406 | The backward loop returns the count that CommonTailIsMaximal shows to be the longest. |
| `IfTailPass.RewriteResult.OptimizeSequence` | src/bytecode/structured_if_tail_optimizer.cpp:359-425 | The in-place pass builds the hoisted sequence and counts merged and skipped regions. |
| `IfTailPass.RewriteResult.FlattenInto` | src/bytecode/structured_if_tail_optimizer.cpp:427-458 | Flattening appends the text, the provenance lists and the position map of the tree. |
| `IfTailPass.Validate` | src/bytecode/structured_if_tail_optimizer.cpp:560-621 | The validating loops accept exactly the plans that are valid. |
| `IfTailPass.RunOptimizer` | src/bytecode/structured_if_tail_optimizer.cpp:623-652 | The whole optimizer computes the specified result, and its plan is valid. |
| `PeepholeExecute.Execute` | src/bytecode_peephole_pass.h:37-443 | The pass on text and, when there is one, the typed artifact: the code in front of the boundary read from the artifact (or, without one, from the text) is replaced by its optimized form, everything behind it is kept, the artifact that comes out mirrors the text that comes out, shows the new boundary, and carries in each instruction the origins, region and identity of the input instructions it stands for, however many rewrites lie between. Only an artifact with repeated identities or conflicting placeholder sizes is ever refused, and then nothing changes. |
| `PeepholePass.PassPreservesBehaviour` | src/bytecode_peephole_pass.h:150-438 | That optimized form (capped rounds, hoisting, clean-up rounds, rollback) has the behaviour of the original code from every status on every machine, underflow and invalid numbers included. |
| `PeepholePass.PassKeepsScriptNonEmpty` | src/bytecode_peephole_pass.h:405-438 | A script that has bytes and holds an OP_1 VERIFY pair which may be elided never loses all of its bytes. |
| `PeepholePass.PassTakesEffect` | src/bytecode_peephole_pass.h:150-438 | Only such a script is ever rolled back; otherwise what comes out is no longer than what hoisting leaves of the rounds' result, and no further round changes it unless the cap on rounds was met. |
| `PeepholePass.HoistTakesEffect` | src/bytecode_peephole_pass.h:206-381 | Whatever common-tail merging shortens stays at least that short after clean-up. |
| `PeepholeExecute.LocalRewriter.RunRounds` | src/bytecode_peephole_pass.h:150-193 | The loop with its cap computes the specified rounds, boundary and artifact moving along; no round's rewrite is refused unless the artifact was unfit from the start. |
| `PeepholeExecute.LocalRewriter.HoistTails` | src/bytecode_peephole_pass.h:206-381 | Hoisting with its provenance, its restore on refusal and the clean-up rounds computes the specified code with the artifact in step. |
| `PeepholeExecute.LocalRewriter.RunOnePass` | src/bytecode_peephole_pass.h:1230-1331 | The scanning loop produces the specified text, position map and change flag for the boundary it reads. |
| `PeepholeRules.HasProvenStackDepth` | src/bytecode_peephole_pass.h:934-971 | The depth loop the scan calls before deleting DUP DROP or SWAP SWAP decides exactly the proven bound. |
| `PeepholeBoundary.OptimizablePrefixLength` | src/bytecode_peephole_pass.h:550-591 | Both ways of finding the end of optimizable code: the typed scan with its refusal of disordered regions, and the search for the last OP_RETURN in the text. |
| `PeepholeBoundary.TypedBoundaryMoves` | src/bytecode_peephole_pass.h:556-575 | When code is replaced and the artifact follows, the typed reading ends at the end of the new code. |
| `PeepholeBoundary.TextBoundaryMoves` | src/bytecode_peephole_pass.h:577-590 | Without an artifact the text reading does. |
| `PeepholeBoundary.RoundContinues` | src/bytecode_peephole_pass.h:1230-1331 | A round keeps a final OP_RETURN final and writes none that was not there, in any spelling. |
| `PeepholePass.HoistContinues` | src/bytecode_peephole_pass.h:206-226 | So does hoisting. |
| `PeepholeRounds.RoundOfPrefix` | src/bytecode_peephole_pass.h:1230-1331 | A round over a script is a round over its optimizable code, with the rest in place. |
| `PeepholeRounds.RoundBehaves` | src/bytecode_peephole_pass.h:1230-1331 | A round over optimizable code keeps its behaviour from every status. |
| `PeepholeRounds.SettleIsFixed` | src/bytecode_peephole_pass.h:150-193 | Without its cap the loop ends in code no round changes, with the input's behaviour and no more bytes. |
| `PeepholeRounds.CappedOrSettled` | src/bytecode_peephole_pass.h:150-193 | The capped loop either reaches that fixed code or still has a changing round left. |
| `PeepholeRounds.DuplicateSaves` | src/bytecode_peephole_pass.h:841-866 | An accepted duplicate push saves a byte exactly when the push is written in more than one byte; the exceptions are the one-byte constants other than OP_0 under the legacy policy. |
| `PeepholeRounds.DuplicateAccepted` | src/bytecode_peephole_pass.h:831-866 | A repeated push is replaced under the legacy policy exactly when it pushes anything, under the canonical policy exactly when nothing pushes it in one byte. |
| `PeepholeRounds.DuplicatePlaceholderAccepted` | src/bytecode_peephole_pass.h:831-866 | A repeated placeholder is replaced exactly when its payload is longer than nothing, or under the canonical policy than one byte. |
| `PeepholeRounds.DuplicateKeepsLength` | src/bytecode_peephole_pass.h:841-847 | The repeated push 51 becomes 51 76 under the legacy policy, which is no shorter. |
| `PeepholePass.PassShrinks` | src/bytecode_peephole_pass.h:150-438 | The pass never adds an instruction. |
| `PeepholeProvenance.RewriteFollows` | src/bytecode/bytecode_artifact_rewriter.h:45-236 | Whatever replaces optimizable code one source list per output, the rewritten artifact mirrors the new text, can be rewritten again, and marks the new code as what is optimizable. |
| `PeepholeProvenance.RoundIsRewritable` | src/bytecode_peephole_pass.h:157-173 | After any round every output has one source and the rewriter accepts the map. |
| `PeepholeProvenance.HoistIsAccepted` | src/bytecode_peephole_pass.h:226-319 | After any hoist of the code an artifact marks, the rewriter accepts the provenance. |
| `PeepholeSound.RoundSound` | src/bytecode_peephole_pass.h:1230-1331 | One round behaves as its input on any executable end, and the text past that end is the same. |
| `PeepholeSound.MoveSound` | src/bytecode_peephole_pass.h:1230-1331 | Each step of the scan emits text that acts as the text it consumes, in the context the emitted text guarantees. |
| `PeepholeSound.TripleSound` | src/bytecode_peephole_pass.h:1025-1076 | Every three-instruction rewrite has the effect of its window on every stack. |
| `PeepholeSound.PairSound` | src/bytecode_peephole_pass.h:1115-1227 | Every two-instruction rewrite has the effect of its window whenever its context condition holds, the inverted IF included. |
| `PeepholeWindows.RoundFindsWindows` | src/bytecode_peephole_pass.h:1230-1331 | A round changes code if and only if one of the listed triple, pair or context windows is present, so code that has settled has none (also lines 1025-1076, 1115-1227). |
| `PeepholeWindows.InheritedPosition` | src/bytecode_peephole_pass.h:868-895 | Every emitted instruction is its source letter for letter or a new opcode that inherits from the last instruction of its window (also lines 1078-1091). |
| `PeepholeWindows.DepthIsExact` | src/bytecode_peephole_pass.h:934-971 | On straight code of pushes, DUP, DROP and SWAP the proven depth is the height of the stack the code builds. |
| `PeepholeWindows.ProducersAreExact` | src/bytecode_peephole_pass.h:611-637 | An opcode is listed as a producer exactly when no sane machine lets it leave anything but a canonical boolean. |
| `PeepholeMeaning.AfterProducer` | src/bytecode_peephole_pass.h:611-637 | After an instruction listed as a boolean producer the top is a canonical boolean, if execution goes on at all. |
| `PeepholeMeaning.DepthIsProven` | src/bytecode_peephole_pass.h:934-971 | The scanned depth is a true lower bound of the stack height whenever the emitted code runs on. |
| `PeepholeMeaning.SamePayload` | src/bytecode_peephole_pass.h:786-829 | Payload texts are equal exactly when the pushes push the same item, whatever their encodings. |
| `PeepholeMeaning.PushReadersAgree` | src/bytecode_peephole_pass.h:699-751 | The pass's own push reader recognises exactly what the codec decodes. |
| `PeepholeRounds.RoundImproves` | src/bytecode_peephole_pass.h:1230-1331 | A changing round strictly decreases (instructions, pushes and placeholders), an unchanged one returns its input, and neither adds a concrete byte (also lines 831-866, 1078-1091). |
| `PeepholeRounds.RemapIsMonotoneAndOnto` | src/bytecode_peephole_pass.h:1230-1331 | Kept positions map in increasing order, and every output position has exactly one source (also lines 868-895, 1078-1091). |
| `PeepholeProvenance.HoistIsRewritable` | src/bytecode_peephole_pass.h:241-245 | Passing the hoist's own validation is enough for the artifact rewriter to accept its provenance (also lines 264-291, 318-319). |
| `Permutations.RankUnrankInverse` | src/bytecode/stack_permutation_planner.cpp:98-129 | Ranking and unranking are mutually inverse bijections between the permutations of n and [0, n!). |
| `Permutations.IdentityHasRankZero` | src/bytecode/stack_permutation_planner.cpp:98-112 | A permutation has rank 0 exactly when it is the identity. |
| `Permutations.RankPermutation` | src/bytecode/stack_permutation_planner.cpp:98-112 | The counting loops compute the rank. |
| `Permutations.UnrankPermutation` | src/bytecode/stack_permutation_planner.cpp:114-129 | The erasing loop computes the permutation of a rank. |
| `StackSteps.ActAllSelect` | src/bytecode/stack_permutation_planner.cpp:345-474 | Steps act the same on slot numbers and on what the slots hold, above any other content of both stacks (also lines 131-169). |
| `StackSteps.MakePlan` | src/bytecode/stack_permutation_planner.cpp:60-71 | The summed fields of a plan are the cost of its steps, which CostIsText reads off the text. |
| `StackSteps.CostIsText` | src/bytecode/stack_permutation_planner.cpp:52-58 | Bytes and instructions of any run of steps are those of the text it is written in, its depth the deepest slot a step touches (also lines 639-690). |
| `StackSteps.CheaperText` | src/bytecode/stack_permutation_planner.cpp:29-58 | One run of steps costs no more than another exactly when its text has fewer bytes, or as many in fewer instructions, or as many of both reaching no deeper. |
| `StackSteps.TouchedIsNeeded` | src/bytecode/stack_permutation_planner.cpp:669-690 | The depth a step touches is the deepest main slot it needs: it works exactly on stacks that reach it (the return from the altstack needs only an altstack entry) (also lines 131-169). |
| `StackSteps.NumberIsShortest` | src/bytecode/bytecode_helper_fun.h:26-45 | No other number item of the same value is shorter than the one written for a depth. |
| `StackOnVm.StepsOnVm` | src/bytecode/stack_permutation_planner.cpp:691-758 | The emitted instructions of a plan have on the running stacks the effect of its steps. |
| `StackSteps.NumberRoundTrip` | src/bytecode/bytecode_helper_fun.h:26-45 | The shortest script number of a depth reads back as that depth. |
| `CheapestSearch.Improve` | src/bytecode/stack_permutation_planner.cpp:233-261 | Relaxing one edge keeps the search invariant: queue items never beat their entry, settled entries stay relaxed and off the queue, every other entry is queued. |
| `CheapestSearch.StartExpanding` | src/bytecode/stack_permutation_planner.cpp:233-243 | Only the least live item starts an expansion, so a settled entry is never improved again. |
| `CheapestSearch.EmptyQueueIsClosed` | src/bytecode/stack_permutation_planner.cpp:233-265 | When the queue is empty no step improves any entry. |
| `MoveTable.BuildMoveTable` | src/bytecode/stack_permutation_planner.cpp:223-265 | The priority-queue search terminates with a table that is closed under all moves and whose predecessor links are sound. |
| `MoveTable.ClosedIsLowerBound` | src/bytecode/stack_permutation_planner.cpp:223-265 | No run of moves beats the table: its cost is at least what the table says of where it ends. |
| `MoveTable.ClosedIsTotal` | src/bytecode/stack_permutation_planner.cpp:223-265 | Every permutation has an entry (also lines 784-788). |
| `MoveTable.CanonicalMove` | src/bytecode/stack_permutation_planner.cpp:131-191 | A move outside the searched list (ROLL 0, 1 or 2) is free or equals a listed one in effect and cost. |
| `MoveTable.PlanMoveOnly` | src/bytecode/stack_permutation_planner.cpp:761-802 | A plan is returned for exactly the permutations within the window limit; it turns the identity into the target and is cheapest among all move sequences by (bytes, instructions, depth) of the emitted text. |
| `MovePlans.PlanBetween` | src/bytecode/stack_permutation_planner.cpp:805-834 | The same between two windows of ids: a plan exactly when both hold the same distinct ids, and then a cheapest one. |
| `MovePlans.MovePlanOnVm` | src/bytecode/stack_permutation_planner.cpp:761-802 | The instructions of a plan rearrange any items on the running stack and leave everything below and the altstack alone (also lines 745-758). |
| `CopySteps.SolutionIsExact` | src/bytecode/stack_permutation_planner.cpp:345-474 | A solution overwrites the target slot with a copy of the source slot on any main stack and above any altstack, and changes nothing else (also lines 311-318). |
| `CopySteps.StepStaysOnTrack` | src/bytecode/stack_permutation_planner.cpp:476-513 | On the way to the goal only the source token can be copied and only the target token deleted. |
| `CopySteps.CanonicalStep` | src/bytecode/stack_permutation_planner.cpp:476-526 | Any such step is free or equals one the search tries, in effect and cost, so restricting the search loses no solution. |
| `CopySteps.PlainStepsSolve` | src/bytecode/stack_permutation_planner.cpp:858-874 | A solution exists for every pair of different slots. |
| `CopySteps.PlainStepsCost` | src/bytecode/stack_permutation_planner.cpp:858-874 | That solution costs no more bytes than the legacy sequence (also lines 639-645). |
| `CopySteps.CopyKeyIsInjective` | src/bytecode/stack_permutation_planner.cpp:294-309 | The text key of a search state tells all states apart. |
| `CopySearch.CopyNeighbours` | src/bytecode/stack_permutation_planner.cpp:476-526 | The neighbour loops list exactly the allowed steps with the states they lead to. |
| `CopySearch.SolutionIsQueued` | src/bytecode/stack_permutation_planner.cpp:528-580 | Until the goal is expanded, every solution below the limit passes through a queued state that costs no more. |
| `CopySearch.SearchCopyAssignment` | src/bytecode/stack_permutation_planner.cpp:528-608 | The bounded search terminates with a cheapest solution below the limit, or proves there is none. |
| `CopySearch.PlanCopyAssignment` | src/bytecode/stack_permutation_planner.cpp:837-856 | A plan is returned exactly when some solution beats the caller's limit; it is a cheapest solution. |
| `CopySearch.LegacyIsBeatenOrMet` | src/bytecode/stack_permutation_planner.cpp:858-874 | Some solution never costs more than the legacy sequence, so the internal limit always finds one (also lines 849-855). |
| `CopySearch.CopyPlanOnVm` | src/bytecode/stack_permutation_planner.cpp:837-856 | The instructions of a copy plan overwrite one slot of any running stack and nothing else (also lines 745-758). |
| `DeleteLowering.Lowering.Delete` | src/bytecode/bytecode_builtin_function.h:985-1244 | Given the visible leaf names and whether they come from one argument: two targets in one slot are refused with nothing touched; otherwise each name takes its nearest slot, shadowed slots of the same name stay, survivors keep their order, and the emitted code takes the original slots to the same place (also lines 937-983, 1384-1593). |
| `DeleteLowering.Lowering.NamesOneSlotTwice` | src/bytecode/bytecode_builtin_function.h:937-983 | The check before any edit finds exactly the calls that name one slot twice. |
| `DeleteLowering.Lowering.DeleteFields` | src/bytecode/bytecode_builtin_function.h:1087-1236 | The struct loop (2DROP, NIP, deepest single) ends with exactly the doomed slots removed; thanks to the deepest-first order no target moves before its turn unless one of the two top slots goes. |
| `DeleteLowering.Lowering.DeleteMany` | src/bytecode/bytecode_builtin_function.h:1384-1593 | The multi-argument loop with its partner strategy ends in the same stack. |
| `DeleteLowering.Lowering.DeleteFromAlt` | src/bytecode/bytecode_builtin_function.h:700-870 | Deleting inside the altstack restores everything above the deleted entry and the main stack. |
| `DeleteLowering.Lowering.EmitPairDrop` | src/bytecode/bytecode_builtin_function.h:1494-1547 | Rolling a partner up and one 2DROP removes the top and the partner, on both the compile-time and the running stack. |
| `DeleteLowering.BestPartner` | src/bytecode/bytecode_builtin_function.h:1471-1492 | The partner found is the nearest target and cheapest to bring up. |
| `DeleteLowering.TrackRemoval` | src/bytecode/bytecode_builtin_function.h:1200-1228 | Renumbering the remaining targets after one removal tracks where their slots are now (also lines 1552-1590). |
| `DeleteLowering.TrackPair` | src/bytecode/bytecode_builtin_function.h:1119-1144 | The same after two removals at once (also lines 1496-1545). |
| `DeleteLowering.DeleteOnVm` | src/bytecode/bytecode_builtin_function.h:1384-1593 | The emitted instructions remove, on any running stacks, exactly the items of the other slots and leave everything below (also lines 700-870, 1087-1236). |
| `ScriptCodec.EncodeDecode` | src/bytecode/script_codec.h:79-159 | Every payload below 2^32 bytes decodes back from both policies' encodings, also when followed by other bytes (also lines 172-278). |
| `ScriptCodec.CanonicalIsShortest` | src/bytecode/script_codec.h:124-159 | The canonical encoding is the one shortest of all structurally valid encodings of a payload (also lines 172-262). |
| `ScriptCodec.CanonicalAccepts` | src/bytecode/script_codec.h:249-262 | The canonical decoder accepts an encoding exactly when it is the canonical encoding of some payload. |
| `ScriptCodec.EncodePush` | src/bytecode/script_codec.h:124-170 | The encoder's text is the encoding, lower case, and missing only for oversized payloads. |
| `Hex.PrintParse` | src/bytecode/script_codec.h:294-338 | Printing then parsing any non-empty byte string gives it back. |
| `Hex.ParsePrint` | src/bytecode/script_codec.h:294-338 | Parsing then printing gives the text without prefix and in lower case. |
| `Hex.KeyDeterminesBytes` | src/bytecode/structured_if_tail_optimizer.cpp:18-50 | Texts with the same normalised key are the same bytes. |
| `ScriptSplit.UniqueDecoding` | src/bytecode/legacy_bytecode_adapter.h:130-198 | A concatenation of complete instructions splits back into exactly those instructions. |
| `ScriptSplit.SplitOfJoin` | src/bytecode/legacy_bytecode_adapter.h:130-198 | The same for text: splitting joined instruction texts gives them back letter for letter. |
| `ScriptSplit.SplitConcat` | src/bytecode/legacy_bytecode_adapter.h:151-197 | The pieces of a successful split concatenate to the input. |
| `ScriptSplit.PiecesAreComplete` | src/bytecode/legacy_bytecode_adapter.h:151-197 | Every piece of a successful split is one complete instruction. |
| `ScriptSplit.SplitFailsThere` | src/bytecode/legacy_bytecode_adapter.h:151-197 | A refused split names the first place where no instruction can be read; everything in front of it splits. |
| `ScriptSplit.SplittersAgree` | src/bytecode/bytecode_instruction_utils.h:135-194 | Wherever the strict splitter succeeds, the independently written one finds the same boundaries. |
| `ScriptSplit.SplitTextsAgree` | src/bytecode/bytecode_instruction_utils.h:135-194 | On fragments the strict splitter accepts, the two return the same pieces if and only if the fragment is bare hex. |
| `ScriptSplit.SplittersDisagree` | src/bytecode/bytecode_instruction_utils.h:135-194 | They disagree on 0x51 and on a placeholder. |
| `LegacyAdapter.ImportScript` | src/bytecode/legacy_bytecode_adapter.h:45-75 | The import loop returns exactly what ImportMarksSuffix describes, atom by atom. |
| `LegacyAdapter.ImportMarksSuffix` | src/bytecode/legacy_bytecode_adapter.h:45-75 | An atom is marked immutable exactly when some atom before it is OP_RETURN and none from it on is; there it is raw data unless it is a placeholder, elsewhere it is read on its own. Each atom keeps its text and is its own origin, and identities are distinct. |
| `LegacyAdapter.AtomIsOnePiece` | src/bytecode/legacy_bytecode_adapter.h:77-91 | An atom is read as an instruction exactly when the splitter takes it for a single piece, and then as that piece; otherwise it is a barrier. |
| `LegacyAdapter.ExportOfImport` | src/bytecode/legacy_bytecode_adapter.h:45-92 | Text survives import and export letter for letter. |
| `LegacyAdapter.SynthesizedReads` | src/bytecode/legacy_bytecode_adapter.h:93-114 | The spelling made up for a typed instruction reads back as that instruction, up to opcodes that push constants; data is spelled as a plain push (also lines 222-246). |
| `LegacyAdapter.ImportedReturns` | src/bytecode/legacy_bytecode_adapter.h:45-114 | In an imported script an executable instruction is typed OP_RETURN exactly when its text is, and placeholders have no sizes yet. |
| `ScriptSplit.SplitScriptFragment` | src/bytecode/legacy_bytecode_adapter.h:130-198 | The strict splitting loop returns the specified pieces, numbered, or the first error with its offset. |
| `ScriptSplit.SplitHexScriptIntoInstructions` | src/bytecode/bytecode_instruction_utils.h:135-194 | The lenient splitting loop returns the specified pieces. |
| `ArtifactRewriter.Rewrite` | src/bytecode/bytecode_artifact_rewriter.h:45-236 | Succeeds exactly on acceptable provenance; then every output has the union of its sources' origins, the identity of its first source and their region, or fresh identities above all old ones, identities are unique, and the duplicate-identity error is unreachable. |
| `ArtifactRewriter.RewriteKeepsSizes` | src/bytecode/bytecode_artifact_rewriter.h:94-119 | A rewritten artifact has consistent placeholder sizes, so it can be rewritten again (also lines 223-231). |
| `ArtifactRewriter.OutputMirrors` | src/bytecode/bytecode_artifact_rewriter.h:181-222 | Outputs keep the region of their sources, are written as asked, and are typed OP_RETURN exactly when their text is. |
| `ArtifactRewriter.SecondRewriteOrigins` | src/bytecode/bytecode_artifact_rewriter.h:105-232 | Two rewrites give each output the origins of its original sources, plus those the first rewrite made up. |
| `ArtifactRewriter.RewritesCompose` | src/bytecode/bytecode_artifact_rewriter.h:105-232 | The same over any list of outputs of the first rewrite. |
| `ArtifactRewriter.InheritsCompose` | src/bytecode/bytecode_artifact_rewriter.h:105-232 | Inheriting origins, region and identity from what itself inherited is inheriting from the composed sources. |
| `ArtifactRewriter.ScanInputs` | src/bytecode/bytecode_artifact_rewriter.h:62-119 | The first pass accepts exactly unique identities and consistent placeholder sizes, and finds what is free above them. |
| `ArtifactRewriter.ReverseMapping` | src/bytecode/bytecode_artifact_rewriter.h:26-43 | The reversed map lists each output's sources in ascending order, or is empty when a position is out of range. |
| `Materializer.Materialize` | src/bytecode/bytecode_materializer.cpp:423-519 | Succeeds exactly on linkable templates with the specified result; every error reported is a fault the template has; padding construction never fails. |
| `Materializer.EncodesExactly` | src/bytecode/bytecode_materializer.cpp:72-200 | An instruction encodes exactly when its opcode is below OP_INVALIDOPCODE and no push prefix, its binding is there and of the expected size, its payload fits, or it is raw hex in the suffix; otherwise the error names which of these fails. |
| `Materializer.LinkedSuffixReads` | src/bytecode/bytecode_materializer.cpp:163-194 | Behind OP_RETURN raw data is linked byte for byte and everything else reads as its bound instruction, in its own region (also lines 454-514). |
| `Materializer.LinkedReadsBack` | src/bytecode/bytecode_materializer.cpp:454-514 | The executable text with padding splits into one piece per instruction and padding push; the instructions read as the template's opcodes and bound payloads in order, the padding as pushes (also lines 72-200, 209-394). |
| `Materializer.LinkedIsAligned` | src/bytecode/bytecode_materializer.cpp:454-514 | Executable part plus padding fills whole alignment blocks and wastes less than one. |
| `Materializer.LinkedSources` | src/bytecode/bytecode_materializer.cpp:209-352 | Every template instruction is linked exactly once and in order, and nothing else but padding is (also lines 481-497). |
| `Materializer.SuffixNeverMovesPadding` | src/bytecode/bytecode_materializer.cpp:454-460 | Rebinding names only the suffix uses changes neither the executable part nor the padding (also lines 217-220). |
| `Materializer.PaddingIsExact` | src/bytecode/bytecode_materializer.cpp:354-394 | Padding has exactly the requested length and consists of complete pushes. |
| `Materializer.MakePadding` | src/bytecode/bytecode_materializer.cpp:354-394 | The chunking loop never fails, whatever the length. |
| `Materializer.MaterializeRegions` | src/bytecode/bytecode_materializer.cpp:209-352 | The two encoding passes and the rules about the final OP_RETURN accept exactly the fitting templates. |
| `FinalizeLayout.LayoutEnginesAgree` | src/bytecode_finalize_pass.h:113-305 | On a canonically written artifact without padding, the layout pass and the linker at alignment 64 produce the same script (also lines 632-667). |
| `FinalizeLayout.LayoutFillsBlocks` | src/bytecode_finalize_pass.h:192-243 | A layout keeps code and suffix, and code with padding fills whole blocks of 64 bytes and wastes less than one. |
| `FinalizeLayout.TextLayoutFillsBlocks` | src/bytecode_finalize_pass.h:156-243 | The same for the layout without an artifact. |
| `FinalizeLayout.CountIsSize` | src/bytecode_finalize_pass.h:583-630 | The byte count is known exactly when every instruction is ignored or reads as bytes, and then it is the number of those bytes. |
| `FinalizeLayout.LayoutIsIdempotent` | src/bytecode_finalize_pass.h:113-305 | Laying out what a layout with its artifact leaves behind changes no text and maps every position to itself, and the layout applies again when the artifact mirrored its text. |
| `FinalizeLayout.SecondLayoutKeepsArtifact` | src/bytecode_finalize_pass.h:246-274 | The second layout is always accepted and keeps identities, regions and origins. |
| `FinalizeLayout.TextLayoutRepeats` | src/bytecode_finalize_pass.h:156-243 | Without an artifact a second layout changes nothing if and only if the code needed no padding. |
| `FinalizeLayout.TextLayoutGrows` | src/bytecode_finalize_pass.h:156-243 | A lone OP_RETURN is padded again by a second layout. |
| `FinalizeLayout.LayoutIsRewritable` | src/bytecode_finalize_pass.h:247-263 | The artifact rewriter accepts the layout's map whenever identities are distinct, placeholder sizes consistent and one identity and one origin are still free. |
| `FinalizeLayout.FinalizeArtifact` | src/bytecode_finalize_pass.h:111-305 | Text and artifact are laid out together with the new padding marked, or neither is touched. |
| `FinalizeLayout.Finalize` | src/bytecode_finalize_pass.h:113-243 | The region scan, byte count and map loops compute the specified layout and map. |
| `FinalizeLayout.FinalizeText` | src/bytecode_finalize_pass.h:156-243 | The same without an artifact, from the last OP_RETURN in the text. |
| `FinalizeLayout.RemapKeepsAtoms` | src/bytecode_finalize_pass.h:211-228 | The position map sends every code and suffix atom to a position with the same text, and old padding into the new padding or, when there is none, nowhere. |
| `FinalizeLayout.SamePadding` | src/bytecode_finalize_pass.h:632-667 | The pass and the linker write the same padding text. |
| `RangePlan.BuildIsExact` | src/compiler/range_plan.cpp:64-110 | A plan is refused exactly for a zero step or a count above the limit, otherwise its count is the number of terms of the mathematical range; counting never overflows (also lines 16-33). |
| `RangePlan.ValueIsExact` | src/compiler/range_plan.cpp:112-158 | Below the count the value is the mathematical term and no overflow is reported; the next term is not before stop. |
| `RangePlan.TermsAre` | src/compiler/range_plan.cpp:64-110 | The mathematical range has the ceiling-divided number of terms, each start plus a multiple of step. |
| `RangePlan.GrantedFits` | src/compiler/range_plan.cpp:47-62 | Over any run of requests the consumed total is the sum of the granted requests and stays within the limit. |
| `RangePlan.RangeExpansionBudget.Consume` | src/compiler/range_plan.cpp:47-62 | A request is refused exactly when it exceeds what remains, and then changes nothing. |
| `ScopeState.Scope.RestoreControlFlowState` | src/bytecode/scope.cpp:508-532 | At the captured depth main, alt, fixed, metadata and sizes are back to the captured values and the snapshot is as good as before; otherwise nothing changes. |
| `ScopeState.Scope.EnterScope` | src/bytecode/scope.cpp:447-455 | The enclosing main, fixed and metadata are kept aside, the state goes on with an empty record of its own symbols, and the altstack stays shared. |
| `ScopeState.Scope.ExitScope` | src/bytecode/scope.cpp:457-469 | Main, fixed and metadata of the enclosing scope are back with its altstack, the scopes around it are untouched, and the table left is handed out in objects of its own; leaving the outermost scope starts from nothing. |
| `ScopeState.Scope.RunInScope` | src/bytecode/scope.cpp:447-469 | Whatever happens in a scope that closes what it opens, leaving it brings back main, fixed and metadata. |
| `ScopeState.Scope.CaptureControlFlowState` | src/bytecode/scope.cpp:482-498 | A snapshot holds the state in objects nothing the scope does can reach, although the altstack stays shared. |
| `ScopeState.Scope.CaptureControlFlowStateAndExitScope` | src/bytecode/scope.cpp:500-506 | The same for the variant that leaves the scope. |
| `ScopeState.Scope.RunBranch` | src/bytecode/scope.cpp:508-532 | After any run of pushes, pops, rolls, renames, altstack moves and scope changes a restore succeeds exactly at the captured depth, brings the captured state back, and leaves the snapshot as good as before. |
| `ScopeState.Scope.RunBranches` | src/bytecode/scope.cpp:482-532 | Two branches from one snapshot: after balanced branches both restores succeed and both bring the captured state back; in general each succeeds exactly when the depth reached is the captured one. |
| `ScopeState.DepthReached` | src/bytecode/scope.cpp:449-474 | The depth a run of commands leads to, from its openings and closings alone, leaving the outermost scope included. |
| `ScopeState.SymbolTable.Copy` | src/bytecode/symtab.h:241-276 | A copied table owns its main and fixed stacks and shares the altstack. |

## Left out

- Atoms that hold several opcodes, or text that mixes placeholders with hex: the virtual machine treats such text as an unknown instruction, and a control opcode hidden inside it is not seen.
- Effects of OP_CODESEPARATOR, OP_CHECKSIG and the signed script hash on each other, and resource limits of the script machine: signature checks are functions of the stacks alone.
- The number format of the virtual machine is a parameter; planner and Delete results on the machine ask that it reads the shortest form of numbers of up to four bytes.
- PeepholeExecute.Execute: models everything but the debug information carried along, its rejection fallbacks, and the choice of the push policy and of placeholder sizes from the context, which are parameters.
- MoveTable.BuildMoveTable: models the priority queue as a set from which any least item is taken, and unreached entries as absent; the fixed tables of factorials and the caching of tables are not modelled.
- CopySearch.SearchCopyAssignment: files states under themselves instead of their text keys (`CopySteps.CopyKeyIsInjective` shows the keys tell them apart).
- DeleteLowering.Lowering.Delete: takes names as stack entries; the expansion of struct roots and bound parameters into visible leaf names, the comparison of argument names with each other as roots and fields, symbol-table cleanup and the joining of the emitted text into one fragment are not modelled. A plain variable is the one-leaf case of the struct loop, which emits the same code.
- Materializer.Materialize: does not model the size_t overflow checks, which no script that fits in memory reaches.
- FinalizeLayout.Finalize: does not model placeholder labels and their size suffixes; text that is not hex has no known size and stops the layout. The deferral of canonical templates is not modelled.
- ArtifactRewriter.Rewrite: formats, schemas and layout directives, which are copied unchanged, are left out.
- ScopeState.Scope.Execute: metadata is one value that may change arbitrarily; the meaning of symbols, bindings and arrays, stack size limits and the comparison of branch states are not modelled.
- IfTailPass.Validate: sorting and removing duplicates of provenance lists are library calls in the source and functions here.
- Logging, debugger builds, command line, files, the AST visitor, the lexer and parser, the lifetime planner and the constant folder: not part of this model.
