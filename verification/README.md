# Verification of the decompiler's analysis core

This project models the analysis middle of the PVM decompiler in Dafny and proves what its passes
promise. The middle is a small compiler: decoded instructions become basic blocks and a control-flow
graph; the graph is split into functions; liveness, dominators, SSA values, strongly connected
components and loops are computed on it; expressions are folded, simplified and printed; setup code
before a halt and suppressed blocks are cleaned up.

Specifications are stated over paths and runs, independently of how a pass computes its answer:

- a block dominates another when it is on every path from the entry;
- a register is live where some path reaches a read with no earlier write;
- an instruction writes registers and acts on the machine as its shape says, with no expression involved, and
  lifted code is right when it follows every run of the instructions;
- a definition may be folded when on every run the expression has the value of what it replaces, and
  folded code is right when, run without the definitions it leaves out, it has the runs of the original, along
  which stores, calls and raw text change memory;
- two blocks are in one component when each reaches the other, or when an undirected path joins them;
- printed text means what a left-to-right reader with its own table of precedences makes of it.

Passes that work by updating maps, stacks and queues are methods with loops and invariants; passes
that are recursion over trees are functions with lemmas. The two objects whose fields a pass rewrites
(the lifted program's expressions and its suppressed blocks) are classes.

`dafny verify dfyconfig.toml` checks everything.

## Files

| file | contents |
|---|---|
| `instructions.dfy` | operand shapes of classified instructions, registers read and written |
| `graph.dfy` | control-flow graphs, paths, reachability, dominance |
| `collections.dfy` | options, sorted listings, distinct sequences |
| `decoder.dfy`, `cfg_build.dfy` | mask splitting; leaders, blocks and edges |
| `components.dfy`, `assignment.dfy`, `splitting.dfy`, `function_cfg.dfy` | splitting a program into functions and their graphs |
| `idom_forest.dfy`, `dominators.dfy` | chains of immediate dominators; the iterative computation |
| `depth_first.dfy`, `scc.dfy`, `loops.dfy`, `irreducible.dfy` | components, natural loops, regions without a header |
| `liveness.dfy` | worklist liveness |
| `ssa.dfy`, `ssa_convergence.dfy`, `ssa_build.dfy` | sweeps towards the SSA fixed point, how many it takes, the loop around them |
| `ssa_reaching.dfy` | what the value recorded for a use means |
| `words.dfy`, `expressions.dfy` | 64-bit arithmetic, expression trees, substitution |
| `semantics.dfy` | what instructions do to registers and the machine; the tables of registers read and written |
| `folding.dfy`, `fold_runs.dfy` | runs of lifted code with definitions left out; when rewritten code has the original's runs |
| `availability.dfy`, `single_reader.dfy` | what has been defined where it is read; lifting; values read once |
| `lifted_runs.dfy` | what lifted expressions compute; runs of the instructions as runs of lifted code |
| `fold_step.dfy`, `fold_round.dfy`, `fold_pass.dfy` | one cross-block fold, one round of them, the pass |
| `fold_failures.dfy`, `entry_loop.dfy` | programs on which the fold goes wrong |
| `simplify.dfy`, `printer.dfy` | the simplifier and the printer with its reader |
| `halt_setup.dfy`, `unsuppress.dfy` | dead setup before a halt; un-suppression |

## Results that contradict an expectation

- Printing `x op (y inner z)` without parentheses changes the value for `*` over division, remainder and
  upper multiplication and for `+` over `neg+`, and for no other pair (`Printer.RegroupsExactly`). The
  offending operator may also be buried in a chain: `x + ((y neg+ z) + z)` prints as
  `x + y neg+ z + z` (`Printer.BuriedMisread`).
- Lifting drops the width of an operator, so a 32-bit form is lifted to what may come to something else: a
  lifted expression comes to what its instruction writes exactly when the width does not matter
  (`LiftedRuns.LiftComputes`), and `LiftedRuns.WidthIsDropped` is a sum that wraps and is lifted to one that
  does not. The LLVM output of the same program does truncate (`src/llvm_lift.rs:588-607`). Growing the heap
  is lifted to a pure operator on its operand, though growing it twice returns two addresses
  (`LiftedRuns.GrowthIsDropped`). Where neither happens, lifted code follows every run of the instructions
  (`LiftedRuns.LiftedRunsLike`).
- Simplifying twice may do more than once: what negating a comparison makes is not simplified again
  (`Simplifier.SecondTimeDoesMore`). The normal form of the result leaves that out
  (`Simplifier.SimplifyNormal`).
- Not every parenthesis printed is needed: `0 <u x + y` is shown as `(x + y) != 0`
  (`Printer.SpareParens`).
- A collapsed double negation keeps the value exactly when what is under it is 0 or 1
  (`Simplifier.NegationKeptExactly`, `Simplifier.DoubleNegationOfTwo`).
- The SSA construction treats an entry block that has predecessors like any other, so the initial
  register contents are lost there, and a use need not be preceded by its definition. A use is preceded
  by its recorded definition exactly when every path from the entry to it writes the register, whatever the
  entry looks like (`SsaReaching.PlainUsePreceded`); an entry without predecessors also suffices
  (`SsaReaching.FreshEntryPrecedes`). `EntryLoop` has a program on which neither holds: the builder makes
  its graph (`EntryLoop.Built3`), no expression of it is a constant, a copy or simplifiable
  (`EntryLoop.Simplified3`), and what the pass returns does not run like it (`EntryLoop.PassRunsDiffer3`).
- The cross-block fold gathers its candidates once a round and then folds them in order of address, so a
  definition may be folded into a reader that the same round has already folded away; and it leaves a
  definition out even where its reader is raw text, which substitution does not change. Both leave kept
  code that mentions a variable nothing defines any more. A second round never folds anything
  (`FoldPass.NoSecondRound`), so the candidates there are before the pass decide: where readers mention
  what they read, the pass misses nothing exactly when no candidate's reader is the definition of a
  candidate at a lower address and none names the candidate in raw text (`FoldPass.PassIntactExactly`), and
  code that misses nothing runs like the original (`FoldRuns.IntactRunsLike`). `FoldFailures` has a chain
  of sums whose last reader is raw text or not; either way what the pass returns does not run like it
  (`FoldFailures.PassRunsDiffer`).
- The halt clean-up removes heap growth (`sbrk`) as if it were arithmetic, and takes a conditional move to
  overwrite its destination. It is invisible whenever neither matters (`HaltSetup.HaltSetupIsDead`); with
  no conditional move kept, exactly when the result of every `sbrk` is read by what is kept
  (`HaltSetup.InvisibleExactly`). `HaltSetup.SbrkIsRemoved` and `HaltSetup.CmovKeepsRemovedValue` show
  the two failures.
- The comment in `assign_blocks_to_entries` announces that the smaller entry address wins a tie. The queue
  only ever takes strictly shorter distances, so the entry listed first wins. The smallest wins exactly
  where it is listed first of those tied (`Assignment.SmallestWinsExactly`), so always when entries are
  listed in increasing order. The caller lists the component's own entry before the sorted prologues, so
  the smallest wins unless the component's entry is tied with a smaller one
  (`Splitting.LargerOwnsExactly`); `Splitting.LargerEntryWins` has a program where it is.

## Model

| member | source | states |
|---|---|---|
| Decoder.MaskBytes | src/decoder.rs:222-224 | a mask byte is the sum of the powers of two in the places of its marks, the first address in the lowest place |
| Decoder.FindInstructionLength | src/decoder.rs:260-277 | the length reaches to the next marked address or the end of the code, and is never 0 |
| Decoder.Split | src/decoder.rs:217-256 | the pieces follow each other from the first mark to the end of the code without gap or overlap |
| Decoder.TilesAreMarks | src/decoder.rs:217-256 | the pieces are in order and one starts at every mark and nowhere else |
| Decoder.TilesCover | src/decoder.rs:217-256 | concatenated, the pieces are the code from the first mark on |
| Decoder.Decode | src/decoder.rs:217-256 | instruction addresses are exactly the marks below the code length, increasing: what the graph builder needs |
| CfgBuild.IdentifyLeaders | src/cfg.rs:70-98 | the leaders are 0, every branch target, and every address after a terminator |
| CfgBuild.CollectRange | src/cfg.rs:115-121 | filtering by address gives a contiguous piece of the program |
| CfgBuild.CreateBlocks | src/cfg.rs:100-136 | the blocks are consecutive nonempty pieces that make up the program, each starts at a leader, and a piece is cut at the first instruction at or after each leader and nowhere else |
| CfgBuild.SuccessorsOf | src/cfg.rs:161-195 | a block's successors are where its last instruction branches to a block start, or the next block when it falls through |
| CfgBuild.ConnectBlocks | src/cfg.rs:138-219 | edges are what the last instructions say, and predecessor lists hold exactly their inverse |
| CfgBuild.Build | src/cfg.rs:46-68 | the graph is the program cut at leaders, only there, and connected by last instructions |
| CfgBuild.CutsExactly | src/cfg.rs:70-136 | blocks are as long as they can be: an instruction begins a block if and only if it is the first at or after some leader |
| CfgBuild.LeavesByShape | src/cfg.rs:161-195 | by the shape of a block's last instruction: its successors are the block at the named target of a jump or branch and, unless it is a trap or a jump, the next block; none after a trap or an indirect jump |
| CfgBuild.LeadersByShape | src/cfg.rs:70-98 | the leaders are 0, the named targets, and the addresses after what traps, jumps or branches, shape by shape |
| CfgBuild.EndsBlock | src/instruction.rs:1300-1311 | an instruction of one of those seven shapes is the last of its block |
| CfgBuild.BuiltWellFormed | src/cfg.rs:199-218 | predecessors are the inverse of successors, every edge leads to a block, addresses are unique, and the entry is a block when the first instruction is at 0 |
| CfgBuild.BlocksHoldProgram | src/cfg.rs:100-136 | the blocks' instruction lists in order concatenate to the decoded program |
| CfgBuild.TerminatorsAreLast | src/cfg.rs:86-95 | no terminator is followed by another instruction of its block |
| CfgBuild.StepIsCovered | src/cfg.rs:161-195 | every static step of the program is between neighbours in a block or across a recorded edge into a block's first instruction |
| CfgBuild.RunIsWalk | src/cfg.rs:40-68 | every run of static steps is a walk through the graph |
| CfgBuild.EdgesAreSteps | src/cfg.rs:161-195 | an edge joins two blocks if and only if the last instruction of one branches to the start of the other or falls through to it |
| CfgBuild.IsBuilt | src/cfg.rs:46-68 | conversely, blocks that tile the program, one for each leader, with such edges are what the builder makes of it |
| Components.BfsComponent | src/functions.rs:117-148 | the search finds exactly what is connected to its start, edges taken both ways |
| Components.FindConnectedComponents | src/functions.rs:86-114 | a partition of the blocks into connected components, the entry's first |
| Components.AnyMemberNames | src/functions.rs:86-114 | a component is the same whichever of its blocks the search starts from |
| Assignment.SearchFrom | src/functions.rs:303-341 | the pruned search from one entry terminates with every edge relaxed, and changes only what it brings strictly closer |
| Assignment.TieNeverWins | src/functions.rs:313-320 | a queued block at its recorded distance already belongs to the searching entry, so the tie clause never takes a block over |
| Assignment.AssignBlocksToEntries | src/functions.rs:294-344 | recorded distances are the least over all entries of in-component path length; the owner attains it by a path through its own blocks; among equals the entry listed first owns the block |
| Assignment.SmallestWinsExactly | src/functions.rs:294-344 | a block belongs to the smallest of its nearest entries if and only if that one is listed first of them |
| Assignment.IncreasingEntriesWin | src/functions.rs:188-193 | with entries listed in increasing order the smallest always wins a tie |
| Splitting.FindComponentEntry | src/functions.rs:217-238 | the least block that no block of the component leads to, or the least of all |
| Splitting.ListEntries | src/functions.rs:165-192 | the component's entry first, then in increasing order exactly the blocks that start with a stack prologue and are jumped to |
| Splitting.SplitAtPrologues | src/functions.rs:156-215 | the whole component as one function, or one for each entry with exactly the blocks nearest to it |
| Splitting.EntryOwnsItself | src/functions.rs:199-211 | every entry is in its own function, so none is dropped as empty |
| Splitting.AssignedExactly | src/functions.rs:194-205 | a block gets a function if and only if some entry leads to it inside the component |
| Splitting.LargerOwnsExactly | src/functions.rs:188-197 | on the caller's list the owner is the smallest of a block's nearest entries unless the component's entry is one of them and larger than another |
| Splitting.SplitsDoNotDangle | src/functions.rs:546-635 | functions made this way have no edge with one end missing, whatever the calls |
| Splitting.JoiningBuilt | src/cfg.rs:46-68 | the builder makes the graph of the next row of its instructions |
| Splitting.JoiningIsComponent | src/functions.rs:86-148 | all its blocks but the program's entry are one component |
| Splitting.LargerEntryWins | src/functions.rs:188-197 | there the caller lists 20 before 10, and 20 takes a block both are next to |
| FunctionCfg.Restrict | src/functions.rs:552-565 | restriction keeps exactly the edges with both ends in the function, passing over blocks the program does not have |
| FunctionCfg.LinkKeeps | src/functions.rs:574-583 | recording an edge at whichever ends exist adds that edge to both lists and nothing else, and keeps predecessors the inverse of successors unless only one end exists |
| FunctionCfg.ChooseOrphan | src/functions.rs:602-619 | the first orphan after the caller, or else the first of all |
| FunctionCfg.BuildFunctionCfg | src/functions.rs:546-635 | the blocks are the program's that the function lists, unchanged; successor and predecessor lists hold exactly the kept edges, those over returning calls, and the continuations; the result is well formed if and only if no such edge has one end that is not a block |
| FunctionCfg.NoneDanglesInside | src/functions.rs:546-635 | a function made of the program's blocks has no edge with one end missing |
| FunctionCfg.ContinuedMatches | src/functions.rs:594-632 | bouncing calls get distinct orphans as continuations, as many as calls and orphans allow |
| FunctionCfg.ContinuationHasOneSource | src/functions.rs:594-632 | an adopted orphan is entered from its call only and is never the entry |
| Dominators.Intersect | src/structuring/analysis.rs:113-130 | terminates at a node whose chain is the intersection of the two chains |
| Dominators.MeetPredecessors | src/structuring/analysis.rs:46-67 | the nearest common ancestor of all processed predecessors, if there is one |
| Dominators.ComputeRpo | src/structuring/analysis.rs:132-159 | lists the reachable blocks, entry first, every other one after one of its predecessors; an edge leads back in the order only where its target leads to its source by edges that lead on |
| Dominators.UpdateLifts | src/structuring/analysis.rs:69-72 | every update moves a block's parent up the block's own chain: why the outer loop ends |
| Dominators.UpdateKeepsInv | src/structuring/analysis.rs:34-73 | across updates every true dominator stays on its block's chain, and a parent still leads to its child by blocks placed after it |
| Dominators.Sweep | src/structuring/analysis.rs:36-74 | a pass that changes something lowers the total rank of parents; one that does not is at the fixed point |
| Dominators.Compute | src/structuring/analysis.rs:24-95 | terminates at the fixed point on every graph |
| Dominators.Dominates | src/structuring/analysis.rs:98-111 | the query answers whether the first block is on the second's chain |
| Dominators.ChainOnPath | src/structuring/analysis.rs:34-73 | at the fixed point a block's whole chain lies on every path from the entry to it |
| Dominators.DominatesIsDominance | src/structuring/analysis.rs:24-111 | for reachable blocks the query holds exactly when every path from the entry to the second goes through the first |
| Dominators.ParentIsImmediate | src/structuring/analysis.rs:69-72 | the recorded parent is the immediate dominator |
| DepthFirst.DfsFrom | src/structuring/analysis.rs:251-276 | the explicit-stack search visits everything reachable and keeps the finish order Kosaraju needs |
| StronglyConnected.LastFinishedIsReached | src/structuring/analysis.rs:278-295 | among blocks not yet placed, those reaching the last finished one are reached by it too |
| StronglyConnected.CollectComponent | src/structuring/analysis.rs:280-294 | the backward sweep collects unplaced blocks that reach the start, and leaves no unplaced predecessor of one out |
| StronglyConnected.CollectedIsClass | src/structuring/analysis.rs:278-295 | from the last finished unplaced block, what such a sweep collects is exactly the start's mutual-reachability class |
| StronglyConnected.ComputeSccs | src/structuring/analysis.rs:226-298 | a partition of all blocks whose members are exactly the mutual-reachability classes, ordered by least block |
| Irreducible.CollectIrreducible | src/structuring/analysis.rs:333-360 | the blocks of every component of two or more blocks entered at several of them |
| Irreducible.MultiEntryMeansNoHeader | src/structuring/analysis.rs:330-360 | with every block reachable, a component has several entries if and only if no block of it dominates the others |
| Loops.CollectLoopBody | src/structuring/analysis.rs:450-471 | the body is the header and what reaches the latch without passing the header |
| Loops.CheckReducible | src/structuring/analysis.rs:418-448 | accepted exactly when the header dominates the body and is the one block entered from outside, or is the entry |
| Loops.HeaderDominatesBody | src/structuring/analysis.rs:371-388 | a header that dominates the latch dominates every block of the loop |
| Loops.EnteredOnlyAtHeader | src/structuring/analysis.rs:450-471 | no edge enters a natural loop but at its header |
| Loops.BackEdgeLoopAccepted | src/structuring/analysis.rs:371-388 | with every block reachable, each dominance back-edge yields an accepted loop |
| Loops.AcceptedHasOneEntry | src/structuring/analysis.rs:418-448 | in any graph, every path into an accepted region passes its header |
| Loops.DetectLoops | src/structuring/analysis.rs:363-416 | a loop is recorded for a header exactly when some eligible back-edge leads to it, with that edge's natural loop as body |
| Loops.EveryBackEdgeIsEligible | src/structuring/analysis.rs:371-388 | with every block reachable and no dispatch code, the eligible edges are the dominance back-edges |
| Liveness.ComputeBlockUseDef | src/dataflow.rs:374-404 | registers read before any write in the block, and registers written |
| Liveness.LiveInFold | src/dataflow.rs:83-86 | a register is live into a block exactly when the block reads it before writing it, or does not write it and it is live into a successor |
| Liveness.PathLivenessIsLeast | src/dataflow.rs:83-86 | path liveness is below every solution of the equations |
| Liveness.SoundSolutionIsExact | src/dataflow.rs:140-179 | masks within path liveness that solve the equations are path liveness |
| Liveness.ReversePostorder | src/dataflow.rs:190-232 | lists every block once in reverse post-order: a block comes before each successor that does not reach back to it |
| Liveness.PredecessorMap | src/dataflow.rs:121-128 | predecessor lists are the inverse of successors, as long in all as there are edges |
| Liveness.TransferGrows | src/dataflow.rs:152-168 | masks only grow, and a block seen before gains a live-out register whenever it changes |
| Liveness.Process | src/dataflow.rs:147-178 | one step keeps the masks within path liveness and every block off the worklist balanced, and spends what it queues |
| Liveness.ComputeLiveness | src/dataflow.rs:90-188 | masks never exceed path liveness, even at the cutoff; an emptied worklist gives the least solution; pops are at most the listed blocks plus 14 per edge, so the cutoff cannot strike when there are no more edges than blocks |
| Ssa.BlockIn | src/ir/ssa.rs:123-161 | a block's incoming values: the parameters, nothing, the one incoming value, or a phi |
| Ssa.BlockOut | src/ir/ssa.rs:168-178 | after the block a register holds its last definition there, or what came in |
| Ssa.Sweep | src/ir/ssa.rs:114-185 | a pass reports a change exactly when one of its visits makes one; without one it is at the fixed point, with a phi for every merge of several values |
| Ssa.InsertPhiOperands | src/ir/ssa.rs:187-217 | a phi's operands are the values merged there and no others, and uses by phis are exactly these |
| Ssa.RecordInstr | src/ir/ssa.rs:232-249 | each register an instruction reads is mapped to the value current there, and listed as a use of it |
| SsaConvergence.ForwardSettles | src/ir/ssa.rs:111-185 | where every edge leads forward in the order swept, the second sweep changes nothing |
| SsaConvergence.LoopsSettle | src/ir/ssa.rs:109-185 | in a depth-first order of blocks all reached from an entry nothing leads to, whatever the loops, one of the first 13 sweeps a block and 2 more changes nothing, and the cap of 20 a block is beyond that |
| SsaConvergence.OwnersCount | src/ir/ssa.rs:114-185 | each sweep but the first that changes something gives one more block and register its own phi for good |
| SsaConvergence.TreeOrderSettles | src/structuring/analysis.rs:132-159 | the order the dominator computation hands over is such a one |
| SsaBuild.Build | src/ir/ssa.rs:48-272 | the loop stops at the first sweep that changes nothing, and otherwise only after all of the cap, each of which changed something; it says which; it does settle, within 2 sweeps where every edge leads forward and 13 a block and 2 more in a depth-first order with loops; then the recorded reads and phi uses are exactly those of the fixed point |
| Ssa.SingleInstructionUsePc | src/ir/ssa.rs:304-323 | an address is returned exactly when the value's one use is an instruction there |
| SsaReaching.EdgeFeeds | src/ir/ssa.rs:134-159 | a value reaching the end of a block is, or feeds through phi operands, the value at the start of each successor |
| SsaReaching.PathFeeds | src/ir/ssa.rs:111-185 | along every entry path, the last definition feeds the value at the end of the path |
| SsaReaching.ReachingDefinition | src/ir/ssa.rs:111-257 | on every entry path to a use, the last definition of the register is in the operand closure of the use's value |
| SsaReaching.RecordedReaches | src/ir/ssa.rs:187-217 | the same over the operands the program records |
| SsaReaching.PlainUseReads | src/ir/ssa.rs:219-257 | a use mapped to an instruction's value reads that instruction's write on every path that carries one |
| SsaReaching.PlainUseDominated | src/ir/ssa.rs:325-346 | for a reachable use of an instruction's value, the dominance check holds if and only if every run reads that definition there |
| SsaReaching.PlainUsePreceded | src/ir/ssa.rs:325-346 | a reachable use of an instruction's value is dominated by it, or follows it in its block, if and only if every path from the entry to the use writes the register |
| SsaReaching.FreshEntryPrecedes | src/ir/ssa.rs:123-133 | with an entry without predecessors every such use is |
| Expressions.SubstituteEval | src/lifting.rs:2029-2073 | where the variable holds what the replacement evaluates to, substitution changes nothing |
| Expressions.SubstituteVars | src/lifting.rs:2029-2073 | exactly which variables are mentioned afterwards: the replaced one survives in raw text only, unless the replacement brings it back, and the replacement's come in where it stood |
| Expressions.PureIgnoresState | src/lifting.rs:2346-2353 | an expression without side effects comes to the same in any two states of memory and the outside |
| Expressions.LoadSeesState | src/lifting.rs:2346-2353 | a load does not, which is why it counts as having them |
| Semantics.ChangesOnlyDefs | src/instruction.rs:1268-1297 | an instruction leaves every register not listed as defined as it is |
| Semantics.LooksOnlyAtUses | src/instruction.rs:1268-1297 | what it writes depends only on the registers listed as used, and for a conditional move on its destination |
| Semantics.ActsOnlyByUses | src/instruction.rs:1268-1297 | so do what it does to the machine and what decides where control goes |
| Folding.PureInRun | src/lifting.rs:988-996 | at any two points of a run, with stores and calls between them, a pure expression over the same contents comes to the same |
| Folding.OperandSteady | src/lifting.rs:1020-1062 | from the last execution of a dominating definition to its use, no operand available at it changes, instruction values and phis alike |
| Folding.DefinitionSteady | src/lifting.rs:1033-1036 | what the definition stored on its last execution is what the use sees |
| Folding.FoldKeepsValue | src/lifting.rs:1052-1062 | where the use executes, the definition's variable holds what its expression would evaluate to there, whatever has happened to memory since |
| Folding.FoldIsFaithful | src/lifting.rs:1052-1062 | substituting a faithful definition into a faithful use gives an expression with the original's value on every run |
| Folding.HistoriesExist | src/lifting.rs:952-966 | code, whatever it leaves out, executes along every entry path from any initial contents |
| FoldRuns.RunsMatch | src/lifting.rs:943-951 | when values stand and nothing is missed, each run of the original is matched by one of the rewritten code, without the definitions it leaves out: same path, same contents at the start, same value at every kept instruction and same memory throughout |
| FoldRuns.RunsAreOriginal | src/lifting.rs:943-951 | and each run of the rewritten code by one of the original |
| FoldRuns.IntactRunsLike | src/lifting.rs:943-951 | so the two have the same runs |
| SingleReaders.SingleReader | src/ir/ssa.rs:304-323 | when the single use is at u, every undisturbed read of the definition's register is the read at u |
| Availability.ReadsAreAvailable | src/ir/ssa.rs:111-257 | what a reachable instruction reads, phis included, has been defined on every run, when every path there writes the register or the entry has no predecessors |
| Availability.LiftReads | src/lifting.rs:526-690 | an expression mentions only values its instruction reads |
| Availability.LiftMentions | src/lifting.rs:526-690 | and every one of them, raw text included, except for host calls, unknown opcodes and loads of the capture slot |
| LiftedRuns.LiftComputes | src/lifting.rs:526-690 | where registers hold their values' contents, a lifted expression comes to what its instruction writes if and only if its width, or the heap it grows, does not matter |
| LiftedRuns.LiftedStore | src/lifting.rs:760-803 | a store's expression names the address and the value stored |
| LiftedRuns.LiftedControl | src/lifting.rs:526-690 | the text of a jump or branch shows what decides it |
| LiftedRuns.WidthIsDropped | src/lifting.rs:526-690 | a 32-bit sum that comes to 0 is lifted to one that comes to 2 to the 32 |
| LiftedRuns.GrowthIsDropped | src/lifting.rs:526-690 | growing the heap twice by as much is lifted to expressions that come to the same |
| LiftedRuns.LiftedRunsLike | src/lifting.rs:526-690 | every run of the instructions is one of freshly lifted code, where widths and heap growth do not matter: the machine is in the same state throughout, and a register holds what the value graph says it does |
| Availability.LiftedStands | src/lifting.rs:526-690 | freshly lifted code stands for itself on every run, when each register read is written on every path there or the entry has no predecessors |
| FoldStep.LiftedIsRecorded | src/ir/ssa.rs:219-257 | freshly lifted code mentions a variable only where a use of it is recorded |
| FoldStep.FoldStands | src/lifting.rs:1052-1062 | one fold under the pass's proof obligations keeps, at every reachable instruction, the value it has on every run of the original |
| FoldStep.FoldIntact | src/lifting.rs:1052-1062 | a fold into a kept reader that does not name the variable in raw text misses nothing: no kept instruction mentions a definition that is left out, and no phi takes one |
| FoldRound.RoundStep | src/lifting.rs:1050-1064 | every candidate of a round is still there when its turn comes, and folding it keeps all values |
| FoldRound.FoldAllStep | src/lifting.rs:1050-1064 | the order of addresses leaves no choice: a round has one outcome |
| FoldRound.CleanRound | src/lifting.rs:1050-1064 | a round whose readers are neither raw text nor definitions of candidates at lower addresses misses nothing |
| FoldRound.DoomedRound | src/lifting.rs:1050-1064 | a round that is not like that, and whose readers mention what they read, ends with kept code mentioning a definition that is left out |
| FoldRound.RoundDeepens | src/lifting.rs:1050-1064 | a round leaves every expression at least as deep as it was |
| FoldPass.DefinitionDominatesUse | src/ir/ssa.rs:325-346 | parameters dominate everything, undefined values nothing, and others what their block dominates |
| FoldPass.LiftedProgram.GatherCandidates | src/lifting.rs:980-1048 | the candidates are exactly the pairs meeting every condition |
| FoldPass.LiftedProgram.FoldInto | src/lifting.rs:1052-1062 | the use's expression becomes the substituted one and the definition is left out, nothing else changes |
| FoldPass.LiftedProgram.FoldCandidates | src/lifting.rs:1050-1064 | the round's one outcome: values are kept, what is left out are the candidates, nothing is missed if the round is clean, something is if it is not and readers mention what they read, and a change is reported exactly when there is one |
| FoldPass.LiftedProgram.FoldGathered | src/lifting.rs:966-1064 | one turn of the loop: gathers and folds exactly one round, leaving fewer definitions unless there was nothing to fold |
| FoldPass.LiftedProgram.FoldCrossBlock | src/lifting.rs:943-1066 | the pass terminates with exactly the candidates there were before it folded, and none left; every expression has its original value on every run, and only single-reader definitions it was entitled to are left out; if those candidates are clean the result has the runs of the original, and if not, and readers mention what they read, it mentions a definition left out |
| FoldPass.OrderlyIsClean | src/lifting.rs:980-1064 | if no single reader in another block is raw text naming the variable or a variable's definition at a lower address, the candidates are clean whatever the dominator tree and loops |
| FoldPass.LiftedReadersMention | src/lifting.rs:526-690 | freshly lifted readers mention what they read, with the exceptions above |
| FoldPass.NoSecondRound | src/lifting.rs:966-1064 | after a round nothing is ready to fold |
| FoldPass.RoundsAreOne | src/lifting.rs:966-1064 | however many rounds there are, the first does all the folding |
| FoldPass.PassIntactExactly | src/lifting.rs:966-1064 | after any number of rounds nothing is missed if and only if the candidates there were before them are clean; otherwise something kept mentions a definition left out |
| FoldFailures.ChainBuilt | src/cfg.rs:46-68 | the builder makes the chain of its instructions |
| FoldFailures.ChainSimplified | src/lifting.rs:218-237 | no expression of the chain is a constant or a copy, or one that simplification changes |
| FoldFailures.ChainIsNotClean | src/lifting.rs:1016-1064 | on a chain of three sums, whatever tree and tables the earlier passes end with, the candidates hold a stale one, and one named in raw text exactly if the last reader is raw text |
| FoldFailures.ChainSetting | src/lifting.rs:943-978 | the program meets everything the pass relies on |
| FoldFailures.PassMisses | src/lifting.rs:966-1064 | after any number of rounds the result mentions a definition that is left out |
| FoldFailures.PassResult | src/lifting.rs:1050-1064 | the round folds 50 into 70, 70 into 90, and 100 into 50, which is no longer there |
| FoldFailures.PassRunsDiffer | src/lifting.rs:943-1066 | what the pass returns on the chain does not run like it: the last reader sees another operand, with the last reader raw text and without |
| EntryLoop.Built3 | src/cfg.rs:46-68 | the builder makes the program's graph of its instructions |
| EntryLoop.Simplified3 | src/lifting.rs:218-237 | no expression of it is a constant or a copy, or one that simplification changes |
| EntryLoop.UseNotPreceded | src/ir/ssa.rs:123-133 | that program jumps to its entry, where a read's recorded definition comes after it |
| EntryLoop.FoldChangesValue | src/lifting.rs:1002-1062 | whatever tree and tables the earlier passes end with, the pass makes one fold on it, after which the reader comes to something else on the first trip, with any contents of r2 but 0 |
| EntryLoop.PassRunsDiffer3 | src/lifting.rs:943-1066 | so what the pass returns does not run like the program |
| Simplifier.BooleanIsFlag | src/lifting.rs:1711-1740 | expressions recognised as boolean evaluate to 0 or 1 |
| Simplifier.SimplifyBinOpKeeps | src/lifting.rs:1744-1841 | every rule for binary operators keeps the 64-bit value, whatever the operands |
| Simplifier.SimplifyUnaryOpKeeps | src/lifting.rs:1843-1893 | the rules for negation keep the value if and only if a collapsed double negation is of 0 or 1 |
| Simplifier.AbsorbedAddress | src/lifting.rs:1894-1948 | moving a constant into the 32-bit offset leaves the 32-bit address the same |
| Simplifier.SimplifyKeepsValue | src/lifting.rs:1742-1956 | simplification keeps the value of every expression whose collapsed negations are of 0 or 1 |
| Simplifier.SimplifyNormal | src/lifting.rs:1742-1956 | in what is simplified no operator has two constants to add, subtract or multiply, a neutral operand or one that decides it, no sum of a constant ends in another, and no address holds a constant that fits into the offset |
| Simplifier.SecondTimeDoesMore | src/lifting.rs:1845-1893 | yet simplifying again may do more, after a comparison has been negated |
| Simplifier.ComparisonsTurn | src/lifting.rs:1801-1833 | constants on the left of a comparison are turned to the right, and comparisons below 1 become negations |
| Simplifier.NegationKeptExactly | src/lifting.rs:1845-1852 | at a negation whose operand is simplified soundly, the value is kept if and only if nothing is collapsed or it is 0 or 1 |
| Simplifier.DoubleNegationOfTwo | src/lifting.rs:1845-1852 | negating 2 twice gives 1, and is simplified to 2 |
| Simplifier.NegatedBooleansAreFlags | src/lifting.rs:1711-1740 | if what is under every collapsed negation is recognised as boolean, the condition for keeping values holds |
| Printer.ReadPrinted | src/lifting.rs:2427-2496 | text of an expression, before anything that binds no tighter, is read as one tree, with bare right operands of equal precedence joining the chain on their left |
| Printer.ParensAreNeeded | src/lifting.rs:2754-2823 | for every pair of operators, parentheses go round a left operand if and only if the reader would tear it apart, and round a right one too, but for one of the same level under a commutative operator |
| Printer.SpareParens | src/lifting.rs:2479-2488 | those of `(x + y) != 0` are not needed |
| Printer.PrintedIsRead | src/lifting.rs:2427-2496 | printed text is always readable to its end |
| Printer.LayoutKeepsValue | src/lifting.rs:2434-2489 | showing a negative addend as a subtraction and `0 <u e` as `e != 0` keeps the value |
| Printer.ReassociateValue | src/lifting.rs:2787-2792 | the operator pairs allowed to regroup do so on all words |
| Printer.PrintRoundTrip | src/lifting.rs:2427-2496 | reading back what is printed gives the same value, for every tree in which nothing is regrouped across an operator that does not allow it |
| Printer.RegroupsExactly | src/lifting.rs:2754-2785 | for a commutative operator over a right operand of equal precedence, the value survives if and only if the pair reassociates |
| Printer.BuriedMisread | src/lifting.rs:2754-2785 | the misread operator may head a chain rather than be the right operand itself |
| HaltSetup.ScanBlock | src/lib.rs:395-424 | the backward loop finds what the specification of the scan calls redundant |
| HaltSetup.RedundantHaltSetupPcs | src/lib.rs:379-429 | the result is the union of what is redundant in the halt blocks |
| HaltSetup.HaltSetupIsDead | src/lib.rs:379-429 | if nothing removed grows the heap or sets what a kept conditional move may leave in place, running a halt block without it leaves the same memory and shows stores, host calls and jumps the same operands |
| HaltSetup.StepIsSemantics | src/instruction.rs:1268-1297 | the machines the scan is judged by include the instruction set, shown to each instruction through the registers it lists |
| HaltSetup.SideEffectsAct | src/lib.rs:522-540 | what counts as having effects is what ends a block or acts on the machine, heap growth excepted |
| HaltSetup.StaysExactly | src/lib.rs:402-423 | an instruction before the halt stays if and only if it has effects or defines a register that what is kept after it reads |
| HaltSetup.NeededIsRead | src/lib.rs:402-423 | a register is needed if and only if what is kept reads it before writing it |
| HaltSetup.ScanIsIdempotent | src/lib.rs:395-424 | scanning what is kept removes nothing more |
| HaltSetup.InvisibleExactly | src/lib.rs:542-558 | where no conditional move is kept, the removal is invisible if and only if what is kept reads the result of every heap growth |
| HaltSetup.SbrkIsRemoved | src/lib.rs:395-424 | a heap growth just before a halt is removed, and the heap ends one growth smaller |
| HaltSetup.CmovHidesItsDestination | src/lib.rs:413-423 | a load overwritten only by a conditional move is dropped, whatever follows |
| HaltSetup.CmovKeepsRemovedValue | src/lib.rs:413-423 | a halt block, at any addresses, that stores another value after the removal |
| Unsuppress.LiftedBlocks.UnsuppressLive | src/lib.rs:480-520 | unsuppresses exactly the blocks reached, through suppressed blocks only, from one with a live incoming edge that is not an abstracted call, whatever the order of visiting |
| Unsuppress.StillHiddenIsLargestSealed | src/lib.rs:480-520 | what stays suppressed is the largest set of suppressed blocks entered only by abstracted calls of visible code |

## Left out

- Register masks are sets of registers rather than 16-bit words; SSA values are named by what they are rather than by index into a vector.
- SsaBuild.Build: that the cap is never reached is shown where edges lead forward or all blocks are reached from an entry nothing leads to; elsewhere its second result says whether it was, and what is proved of the values holds when it was not.
- SsaBuild.Build: conditional moves do not count their destination as a use, as in the code; statements about runs leave the value a conditional move stores to the program's expression for it.
- Folding works on variables named by SSA value; name coalescing and display names of phis are not modelled, and the loop bodies the pass avoids are a parameter. Raw text is an arbitrary function of the variables it names.
- The printer's later repair of references to eliminated variables, in conditions, operands of additions and call arguments, is not modelled; nor are the passes between lifting and the cross-block fold.
- FoldPass.PassIntactExactly: missing nothing implies the runs of the original; that missing something shows in a run is proved on the chains of `FoldFailures`, not in general, since a mentioned variable need not matter to the value (as under `x * 0`).
- FoldPass.LiftedReadersMention: a definition whose one reader is a host call, an unknown opcode or a load of the capture slot may be left out without a trace, as the text these are lifted to does not name what they read; the runs here, which see only the text, cannot show it.
- FunctionCfg.BuildFunctionCfg: that a call naming a block the program does not have would leave an edge recorded at one end is stated for completeness; functions as they are split are made of the program's blocks (`Splitting.SplitsDoNotDangle`).
- Availability.LiftReads: an indirect jump recognised as a halt is lifted like any other, to text naming its register; in the code its text is `halt()`.
- Dominators.Compute: the children lists and the linear order kept beside the tree are not part of this model.
- Loops.DetectLoops: one loop per header is kept as in the code, for whichever back-edge is met first; the condition attached to a loop is not modelled.
- LiftedRuns.LiftedRunsLike: what 32-bit operators come to, and what host calls and unknown opcodes do, is arbitrary; what these and conditional moves leave in registers the lifted code is given, as its text computes nothing.
- Expression values: loads, stores, host calls, raw text and the operators no rewrite looks into are functions of their operands and of the machine's state, which any instruction with side effects may change. An expression acts on the machine only as a whole instruction, so dropping a host call under `x * 0` is not visible there, and a load cannot fault.
- Printer.PrintRoundTrip: text is a sequence of tokens; the digits of constants and the spelling of names are not modelled, and the expression forms are variables, constants and operators with an empty formatting context. The negated constant wraps, where a build with overflow checks would stop at the least 64-bit constant.
- CfgBuild.Build: backward targets stop at 0 as in the code; the overflow of negating the least 32-bit offset is not modelled.
- HaltSetup.HaltSetupIsDead: for kept conditional moves the condition is sufficient, not shown necessary; a block counts as a halt block by its last two instructions, as the epilogue detector has it.
- Recognising call patterns and epilogues, naming functions, and the call graph are heuristics over instruction patterns and are not modelled.
- Instruction decoding and classification tables, variable-length integers, headers and metadata are not modelled; `Decoder.Decode` takes the meaning of an instruction's bytes as a parameter.
- Def-use chains are capped and skip their own block through a loop, so completeness is not intended.
- Store-to-load forwarding and folding inside a block are readability heuristics without an aliasing model.
- LLVM text emission, code structuring output, type and variable naming, switch and join-point detection, command line, model refinement and foreign bindings are not modelled.
