# Middle end of the Cminusf compiler

The repository compiles Cminusf, a small C, to a light IR of functions made of basic blocks, and
optimizes that IR. This project models the part that builds and rewrites functions, and proves that
the rewriting keeps their meaning.

- **The IR and its meaning** (`Cfg`, `IR`, `ArithLaws`). A function is a list of blocks of loads, stores, integer
  arithmetic, comparisons, calls and phis, ended by a terminator. Running it is defined block by
  block; phis are read in parallel on the edge by which the block is entered. Calls go to an oracle
  on the memory and the trace of what has been printed, so equal results mean equal effects. A run
  that is not over after the given number of blocks still has its effects compared.
- **Dominators** (`Dominators`, with `IdomTree`, `IdomFixpoint`, `Frontier`): the class with its
  post-order numbering, the two-finger intersection, the iteration, the frontier walks and the
  tree children. What it computes is compared with dominance as defined by paths.
- **SSA construction** (`Mem2Reg`, with `PhiPlacement`, `Renaming`, `RenameSteps`, `RenameState`,
  `RenameBlock`, `RenamingMeaning`, `Mem2RegMeaning`, `SsaInput`, `SsaOutput`, `Initialised`): the
  class with its phi worklist, its stack per variable, the in-place edits of the instruction lists
  and the recursion over the dominator tree. `EmptyStacks`, `PhiSites`, `StackTrace` and
  `EmptyStackExample` say when the assertion on empty stacks fails.
- **Value numbering** (`Gvn*`, `EmptyJoinExample`): the class `GVN` with its counter, its partitions and
  its rounds, which values its partitions have by paths through the function, and what they mean for
  executions along a path. `GvnComplete` and `GvnCongruent` say what is found equal, `GvnRedirect` which
  uses are replaced and by what.
- **Code generation** (`SourceLang`, `CodeSpec`, `Builder`, `CodeFrame`, `CodeShape`, `CodeExpr`,
  `CodeRun`, `CodeMeaning`, `CodeCorrect`, `CodeTheorem`, `CodeLaws`, `GcdExample`): the visitor with its insertion block,
  current value and scope stack, the meaning of source statements, and the proof that the two agree.
  `Pipeline` puts code generation and SSA construction together.
- **Dead code and purity** (`DeadCode`, `FuncInfo`, `PuritySound`, `PurityUse`): the two worklists,
  what they compute, and what the results mean for executions.
- **Use lists** (`UseList`): operand vectors and use lists as objects that refer to each other.

A pass that works step by step is a class whose methods have the loops, the fields and the order of
edits of the source. Each method is proved against functions or predicates of its inputs, and the
lemmas are about those. Where a function is shared by a method and its theorems, a law says what the
function is without it: in arithmetic (`ArithLaws`, `CodeLaws`, `GcdExample`), by chains of uses
(`DeadCode`), of addresses and calls (`FuncInfo`), by what classes hold (`GvnComplete`), or use by use
(`GvnRedirect`).

## Model

| member | source | states |
|---|---|---|
| DominatorAnalysis.Dominators.Run | src/optimization/Dominators.cpp:6-27 | `idom` holds exactly the reachable blocks; each links to the immediate dominator defined by paths; tree children are the converse of the links; `b` is in the frontier of `x` exactly if `x` dominates a predecessor of `b` and does not strictly dominate `b` |
| DominatorAnalysis.Dominators.CreateIdom | src/optimization/Dominators.cpp:84-123 | from a depth-first numbering the iteration ends, and its links are exactly the immediate dominators by paths |
| DominatorAnalysis.Dominators.Intersect | src/optimization/Dominators.cpp:126-139 | the block returned is an ancestor of both, and its ancestors are exactly the common ones of the two arguments |
| Frontier.WalksAreFrontier | src/optimization/Dominators.cpp:144-150 | the blocks passed by the walks from the predecessors of `b` to its immediate dominator are exactly those that have `b` in their dominance frontier |
| Frontier.AllWalksEndIff | src/optimization/Dominators.cpp:144-150 | every walk of a graph ends if and only if each predecessor of each reachable join is reachable |
| Frontier.ReturningLoopWalkNeverEnds | src/optimization/Dominators.cpp:146-150 | on a concrete graph the walk from an unreachable predecessor never meets the immediate dominator |
| Pipeline.ReturningLoopIsGenerated | src/cminusfc/cminusf_builder.cpp:195-251 | that graph is the one generated for a loop whose body is an if with a return in both branches |
| Mem2RegPass.Mem2Reg.Run | src/optimization/Mem2Reg.cpp:16-31 | the result returns and prints what the input does, for all arguments and oracles; it is valid SSA by paths, has no scalar alloca and no store to a local left, and no load of one either if loads are initialised; a phi has an operand for exactly the predecessors at whose end its variable has a value; a stack is read while empty exactly on the traversals that `FailsOn` describes, some traversal does exactly if `MayFail`, and none does if loads and the edges into phis are initialised |
| Mem2RegPass.Mem2Reg.GeneratePhi | src/optimization/Mem2Reg.cpp:33-77 | the phis in front of the old code are, per variable, exactly those on the iterated frontier of the storing blocks, one for each block and variable, with new registers |
| Mem2RegPass.Mem2Reg.PlacePhis | src/optimization/Mem2Reg.cpp:57-76 | the growing worklist ends, and the blocks given a phi are the least set closed under the frontiers from the storing blocks |
| Mem2RegPass.Mem2Reg.ReName | src/optimization/Mem2Reg.cpp:79-158 | after the subtree every stack is as before; exactly its blocks are renamed and have handed their values to the phis of their successors; the blocks were visited in a preorder, and empty reads are recorded exactly |
| Mem2RegPass.Mem2Reg.RemoveAlloca | src/optimization/Mem2Reg.cpp:160-179 | the allocas of scalars are gone from every block, and every other instruction is there as often as before |
| Renaming.NoPhiSameValue | src/optimization/Mem2Reg.cpp:57-76 | with phis on closed frontiers, a variable without phi in `b` has at the end of every predecessor the value it has at the end of the immediate dominator |
| Renaming.NoPhiNoDefinition | src/optimization/Mem2Reg.cpp:57-76 | if `b` has no phi for a variable, no path from its immediate dominator to `b` that does not return to it passes a block defining the variable |
| Mem2RegMeaning.Mem2RegPreservesMeaning | src/optimization/Mem2Reg.cpp:79-179 | a function renamed along exact dominator links, and stripped of allocas, runs as the one with memory cells: same result, same effects, block for block |
| SsaOutput.WholePassAchieves | src/optimization/Mem2Reg.cpp:16-31 | the end state of renaming, without allocas, refines the input, is valid SSA without locals, and has complete phis |
| EmptyStacks.SomeTraversalFails | src/optimization/Mem2Reg.cpp:96-131 | some order of the tree children makes renaming read an existing empty stack if and only if a reachable block looks for a variable that no dominator has defined while a reachable block it does not dominate assigns it |
| PhiSites.ReadsIff | src/optimization/Mem2Reg.cpp:96-131 | what renaming finds missing on its stacks is what paths and iterated frontiers of the input leave undefined |
| StackTrace.EndOfRenaming | src/optimization/Mem2Reg.cpp:124-125 | after a traversal the failure flag is set exactly if the traversal meets the path condition, and never if loads and phi edges are initialised |
| EmptyStackExample.GeneratedMayFail | src/optimization/Mem2Reg.cpp:124 | `int f(int a) { if (a) { int x; x = 1; } return a; }` is well formed, its generated code is a valid input, and some traversal fails on it |
| Gvn.JoinIsMeet | src/optimization/GVN.cpp:132-150 | two values share a class of the join exactly if they share one in both partitions |
| Gvn.JoinIsValid | src/optimization/GVN.cpp:132-192 | the classes of the join are disjoint, not empty, in the order of their numbers, and none is lost to a taken number |
| Gvn.JoinKeeps | src/optimization/GVN.cpp:152-192 | the class of a value in the join has exactly the values its two classes share, the expression and the leader they agree on, and their number if it is one; otherwise a new number, a leader among its members unless they agree, and the two leaders, front first, for its value phi |
| GvnPass.GVN.Join | src/optimization/GVN.cpp:132-150 | it fails exactly where the source reads the first class of a partition that has none: the front one, or the back one if the front one is not top; top is the identity on either side; otherwise there is one class for every pair of classes that meet, numbered in order by the counter, and classes with nothing in common stay so |
| GvnJoin.JoinIsSound | src/optimization/GVN.cpp:152-192 | if the partition of the predecessor one comes from is true of the execution, so is the join, a new class having the side of its value phi that belongs to that predecessor |
| GvnJoin.JoinBlockExact | src/optimization/GVN.cpp:387-453 | the partition after a block is true of its execution if and only if each instruction agrees with the class it is put into |
| GvnJoin.GuardedAgrees | src/optimization/GVN.cpp:455-534 | an instruction agrees if the value phis it consults, and the class it goes to, belong to joins entered by the side this one was |
| GvnJoin.JoinBlockSound | src/optimization/GVN.cpp:387-534 | with that guard on every instruction the partition after the block is true, through folding, pure calls, loads, calls and the recursion over predecessors |
| GvnJoin.AgreesBySides | src/optimization/GVN.cpp:406-430 | an instruction whose value phi decides agrees exactly if the operation on the chosen sides of the operands' phis yields the chosen side of its own |
| GvnJoin.SidesDecide | src/optimization/GVN.cpp:455-524 | an instruction put into a class of this join for the value phi that the search has built: it agrees exactly if the operation yields the same on the sides of its operands' joins as on the side by which the block was entered, and whatever values stand on the four sides, exactly if the operands' joins were entered by that side |
| GvnPath.WalkExact | src/optimization/GVN.cpp:255-309 | on a path from the entry, with the copies for phis and the joins on it, all partitions are true if and only if every instruction agrees |
| GvnPath.StraightWalkAgrees | src/optimization/GVN.cpp:387-453 | on a path without joins every instruction agrees |
| GvnPath.GuardedWalkAgrees | src/optimization/GVN.cpp:387-534 | on a path through joins every instruction agrees if it meets the guard |
| GvnPath.WalkReplaced | src/optimization/GVN.cpp:542-570 | where the instructions agree, the function with members replaced by leaders, in instructions, in the operands of phis and in those of terminators, takes the path with the same values and effects, and leaves its end with the same condition or result |
| GvnPath.GuardedWalkReplaced | src/optimization/GVN.cpp:261-303 | from the classes of arguments and globals on, with no join on the path or the guard met at each, replacing keeps every value and effect of the path |
| GvnExample.InheritedPhiMisleads | src/optimization/GVN.cpp:455-534 | on a concrete function with the partitions the pass computes, replacing changes a computed 9 into 49 |
| GvnPass.GVN.OneRound | src/optimization/GVN.cpp:281-306 | one round over the blocks, the first or a later one: it reports a change exactly if at the end of some block the number of classes is another, or a leader is gone; it stops at the first join where `LooksIntoEmpty` holds, and what it computes for settled blocks is solved from their predecessors |
| GvnPass.GVN.FirstRound | src/optimization/GVN.cpp:255-307 | from initial partitions on, for every function: the round stops at the first join where `GvnFlow.LooksIntoEmpty` holds, reading an empty partition there, and at no other; if it visits all blocks there is no such join, what it has computed for settled blocks is what paths through the function rely on, and in each of them instructions that do the same to equal operands, by the classes at its end, are in one class |
| GvnPass.GVN.DetectEquivalences | src/optimization/GVN.cpp:255-309 | any number of rounds, until one changes no leader, on functions whose blocks come after their predecessors: no round reads an empty partition unless `LooksIntoEmpty` holds somewhere, the partitions after the last round are those that paths rely on, and what is equal in a settled block has been found |
| GvnComplete.StepSettles | src/optimization/GVN.cpp:387-453 | an instruction that no class knows goes to the first class that has its operator on the leaders of its operands, or its value phi, and to no other; if there is none, and for a load, it gets a class of its own, led by the constant that arithmetic gives when its operands are constants or led by constants, and by itself otherwise |
| GvnComplete.BlockPlaces | src/optimization/GVN.cpp:387-453 | at the end of a block every instruction but a load is in the first class that has its operator on the names of its operands there, or its value phi |
| GvnComplete.BlockCongruent | src/optimization/GVN.cpp:387-453 | so two instructions of a block with the same operator and operands that are the same, share a class or are the same constant are in one class at its end: arithmetic, comparisons, extensions, address computations and pure calls |
| GvnComplete.BlockFinds | src/optimization/GVN.cpp:404-412 | an instruction whose operation a class has from before the block joins the members of that class, unless a class with a smaller number has the operation or the value phi |
| GvnComplete.JoinsByPhi | src/optimization/GVN.cpp:455-534 | at a join: when the leaders of both operands have value phis, and at the end of each predecessor the operation on the sides that come from there has a name, by a class with that operation, else by one with its value phi, else the value phi itself, then the instruction joins the first class whose value phi is made of these two names, unless a class before it has its operation |
| GvnComplete.CopiesAreKnown | src/optimization/GVN.cpp:194-253 | after the copies each phi of a successor is known by the name of the value it takes from the block, and all other values keep theirs |
| GvnCongruent.RoundFinds | src/optimization/GVN.cpp:255-307 | after a round, in each settled block: instructions that do the same to equal operands are in one class at its end, copies included, each instruction with a value is in a class, and the phis of its successors are known there as what they take from it |
| GvnRound.KeptMeans | src/optimization/GVN.cpp:132-140 | a partition that has exactly the values not missing by paths is empty exactly if something leads to the end of the block and every value is missing there, and it is top exactly if nothing leads there |
| GvnFlow.MissingStep | src/optimization/GVN.cpp:255-307 | by paths: a value is missing at the end of a block exactly if the block does not make it and either nothing is known before it, or it is missing at a predecessor where something is known |
| GvnFlow.EntryIsEmptyIff | src/optimization/GVN.cpp:261-278 | at the end of a block without predecessors every value is missing exactly if there are no arguments and globals, no instruction with a value and no phi that takes a value from it |
| EmptyJoinExample.GeneratedReadsEmpty | src/cminusfc/cminusf_builder.cpp:195-251 | `int main(void) { if (input()) return 1; else return 2; while (input()) { output(1); } return 0; }` is well formed, and in its generated code the join at the test of the loop looks into the empty partition of the block after the if |
| EmptyJoinExample.NumberMain | src/optimization/GVN.cpp:132-140 | every run of the first round on that function ends by reading there |
| GvnTidy.JoinTidy | src/optimization/GVN.cpp:132-192 | a join of tidy partitions is tidy: disjoint, numbered in order, each leader in its own class only, constants leading their classes |
| GvnPass.GVN.VisitEntry | src/optimization/GVN.cpp:261-278 | any block without predecessors, at any state of the counter: a class for each argument and global, the transfer function and the copies; the values it ends with are exactly those not missing by paths; it cannot fail without a division; instructions that do the same to equal operands end in one class |
| GvnPass.GVN.VisitBlock | src/optimization/GVN.cpp:288-303 | a block with one or two predecessors, whatever is known of them: it reads an empty partition exactly where `LooksIntoEmpty` says; otherwise it gets the partition of the one or the join, then the transfer function and the copies, other blocks keep theirs, numbers stand for the same class everywhere, and the values it ends with are exactly those not missing by paths; from a tidy partition, instructions of the block that do the same to equal operands end in one class |
| GvnPass.GVN.ValuePhiFunc | src/optimization/GVN.cpp:455-524 | the search through the predecessors, number by number, is the function whose agreement with executions is decided above |
| GvnWhole.SearchEnds | src/optimization/GVN.cpp:455-534 | from a block all of whose ancestors were visited before, the search ends within as many steps as there are blocks before it |
| GvnWhole.SearchStays | src/optimization/GVN.cpp:455-534 | allowing more steps does not change an answer |
| GvnWhole.RoundWalkSolved | src/optimization/GVN.cpp:255-307 | after a round on a function in SSA form every path through settled blocks consists of blocks solved from their predecessors: tidy partitions, joins that identify numbers, the transfer function and the copies |
| GvnWhole.RoundReplaced | src/optimization/GVN.cpp:255-309 | so on such a path without joins, or with the guard met at each, replacing after the round keeps every value and effect |
| GvnWhole.RoundRedirected | src/optimization/GVN.cpp:542-570 | what replacing after the round is, use by use: in a settled block every operand of an instruction and of the terminator, and every phi operand that comes from it, is the leader of its class at the end of the block, or is as before where the value leads its class, is in none, or is a phi in a class without value phi; of a member that gives way no use is left there |
| GvnPass.GVN.ReplaceMembers | src/optimization/GVN.cpp:542-570 | the loops over classes and uses of a block do just that, and leave no use of any member that gives way |
| GvnPass.InTurnIsAtOnce | src/optimization/GVN.cpp:542-570 | rewriting uses class after class gives each value its own class's leader, never the leader of a leader |
| DeadCodePass.DeadCode.Mark | include/optimization/DeadCode.h:32-64 | an instruction is marked exactly if a chain of uses leads to it from a store, from a call of a function that is not pure, or from what a terminator reads; that is the least set closed under uses |
| DeadCodePass.DeadCode.Run | include/optimization/DeadCode.h:16-30 | an instruction survives exactly if such a chain leads to it, in the order it was in; nothing that survives uses what was removed, and there are at most two rounds |
| DeadCodePass.SecondRoundKeepsAll | include/optimization/DeadCode.h:19-27 | marking what a round left marks all of it |
| DeadCodePass.SweptRefines | include/optimization/DeadCode.h:32-100 | the swept function returns and prints what the original does, cycles of dead phis and unused pure calls gone |
| FuncInfoPass.FuncInfo.Run | include/optimization/FuncInfo.h:18-31 | a function is left pure exactly if no chain of calls leads from it to one without body, main, one with a parameter that is no number, or one with a load or store whose address is not computed, step by step, from an alloca; none is queued twice |
| FuncInfoPass.BaseIsUnique | include/optimization/FuncInfo.h:112-127 | an address is local exactly if the base its chain of address computations ends in is an alloca |
| PuritySound.PurityIsSound | include/optimization/FuncInfo.h:46-127 | two calls of a function left pure with the same scalar arguments, on any two memories, both return or both do not, with the same value, and leave all the memory that existed before as it was |
| PurityUse.PureCallIsFunction | include/optimization/FuncInfo.h:18-31 | for a caller, a call of a function left pure is a function of its arguments that leaves memory and trace alone |
| PurityUse.MarkedMeetPureCalls | include/optimization/DeadCode.h:86-100 | the functions left pure meet what dead code elimination relies on for the calls it removes |
| CodeTheorem.CodeGenerationCorrect | src/cminusfc/cminusf_builder.cpp:89-161 | the generated function returns a value with certain effects if and only if the source does: assignments as expressions, shadowed scopes, if, while, early and missing return |
| CodeLaws.OperationCode | src/cminusfc/cminusf_builder.cpp:343-486 | running the code of an arithmetic or relational expression, whose left operand yields a and then the right one b, leaves a + b, a - b, a * b, the quotient rounded towards zero, or 1 or 0 as the relation holds; it is stuck exactly for division by zero |
| CodeLaws.WriteThenRead | src/cminusfc/cminusf_builder.cpp:322-341 | what is assigned to a variable is read from it, and other variables keep their values |
| ArithLaws.ComputeResults | src/optimization/GVN.cpp:28-59 | folding and running compute these numbers and no others: the quotient q of a by b is the one with a = b * q + m, m smaller than b and of the sign of a |
| GcdExample.CompiledGcd | src/cminusfc/cminusf_builder.cpp:89-251 | the code generated for Euclid's algorithm, with its loop, local variable and division, returns for any two numbers one that divides both and that every common divisor divides |
| CodeTheorem.WellFormedFlow | src/cminusfc/cminusf_builder.cpp:152-251 | every block ends in one terminator, edge lists mirror the terminators, the entry has no predecessor, no block has more than two, each register is defined once and before its uses |
| CodeTheorem.GeneratedIsValidInput | src/cminusfc/cminusf_builder.cpp:89-161 | every generated function meets what SSA construction asks of its input |
| Builder.CminusfBuilder.VisitFunDeclaration | src/cminusfc/cminusf_builder.cpp:89-161 | the visitor, with its insertion block, current value and scope stack, builds the function of the declaration that the theorems are about, and leaves the scope stack as it was |
| Builder.CminusfBuilder.VisitIf | src/cminusfc/cminusf_builder.cpp:195-229 | blocks, edges and scopes after an if, with jumps to the end only from branches left open |
| Builder.CminusfBuilder.VisitWhile | src/cminusfc/cminusf_builder.cpp:231-251 | blocks, edges and scopes after a while |
| SourceLang.LevelIsInnermost | include/cminusf_builder.hpp:14-45 | a name is found at the innermost level that has it |
| Pipeline.Compile | src/cminusfc/cminusf_builder.cpp:89-161 | code generation followed by SSA construction: the result returns what the source returns and is valid SSA, and an empty stack can only have been read where `MayFail` holds |
| UseLists.MoveKeepsMirror | src/lightir/Value.cpp:14-40 | moving the entries and slots of chosen users from one value to another keeps use lists and operand slots exact inverses |
| UseLists.FillKeepsMirror | src/lightir/User.cpp:15-26 | so does filling an empty slot or appending one |
| UseLists.WithdrawKeepsMirror | src/lightir/User.cpp:30-34 | so does withdrawing the uses of a value about to be deleted |
| UseLists.DeadCanGo | include/optimization/DeadCode.h:79-82 | once the uses of dead values are withdrawn and no other slot holds one, the rest without them mirrors itself |
| UseLists.EntriesAreSlots | src/lightir/Value.cpp:10-40 | when they mirror each other, `(u, i)` is in the list of `v` exactly if slot `i` of `u` is `v`, and once |
| UseLists.Value.ReplaceUseWithWhen | src/lightir/Value.cpp:28-40 | exactly the slots of chosen users that held this value change, to the new one, and exactly their entries move, in order |

## Findings

What the code was found to do where it does not do what it is for. Each has a lemma with an input and
a theorem that says when it happens.

| place | what happens | input | exactly when |
|---|---|---|---|
| src/optimization/Dominators.cpp:146-150 | the frontier walk never ends | `Pipeline.ReturningLoopIsGenerated`: `while (a) { if (b) return 1; else return 2; }` | `Frontier.AllWalksEndIff`: some predecessor of a reachable join is unreachable |
| src/optimization/Mem2Reg.cpp:100, src/optimization/Mem2Reg.cpp:124 | an existing empty stack is read: undefined behaviour, or the assertion fails | `EmptyStackExample.GeneratedMayFail` | `EmptyStacks.SomeTraversalFails`, and on a given traversal `StackTrace.EndOfRenaming`; the comment at line 127 expects an undefined operand, which the phi gets on the other traversals |
| src/optimization/GVN.cpp:455-534 | a value phi made at an earlier join is taken for one of this join, and values that differ share a class | `GvnExample.InheritedPhiMisleads` | `GvnJoin.SidesDecide`: for an instruction put into a class of this join, the join of one of its operands was entered by another side than this one; for any class `GvnJoin.AgreesBySides`, and for a whole path `GvnPath.WalkExact` |
| src/optimization/GVN.cpp:135, src/optimization/GVN.cpp:138 | a join reads the first class of an empty partition | `EmptyJoinExample.GeneratedReadsEmpty`, `EmptyJoinExample.NumberMain` | in the first round `GvnFlow.LooksIntoEmpty` (`GvnPass.GVN.FirstRound`): on a path of visits from a block that starts with nothing known to the front predecessor, or to the back one if something is known at the front one, each value is not made; in no later round of a function whose blocks come after their predecessors (`GvnPass.GVN.DetectEquivalences`) |

## Left out

- Floats, conversions between int and float, signed overflow: integers are mathematical, and division by zero is stuck on both sides.
- Arrays in code generation and SSA construction, with the trap for negative indices; addresses with a base appear in `FuncInfo` and `PuritySound`, opaque address computations in value numbering.
- GvnPass.GVN.DetectEquivalences: asks that blocks come after their predecessors. On other functions the first round alone is modelled: later rounds give numbers out anew beside partitions that still have the old ones, and what they do then, reading empty partitions included, is left out. So is whether rounds ever stop changing.
- GvnPath.WalkReplaced: the operand of a phi is replaced by the partition of the predecessor it comes from. The source looks it up in the partition of the other predecessor, too; that this changes nothing more is left out.
- GvnWhole.RoundReplaced: the same, and it is about paths through settled blocks, on which every block comes after its predecessors, so not about going round a loop.
- GvnPass.GVN.ValuePhiFunc: carries a bound on the depth of the recursion through predecessors; `GvnWhole.SearchEnds` says when a bound is enough, and elsewhere an answer that would need more is `TooDeep`.
- The value counter and the indices of blocks and registers do not wrap around; a round that would give out the number of the top class counts as stuck.
- Value expressions are built from leaders, one level deep, as `valueExpr` builds them.
- `User::remove_operands` has no caller; it is not part of this model.
- Which children of a block `re_name` visits first depends on pointers; the model takes any order, and theorems about failing are about all of them.
- Instructions whose address is a global variable or an element are `Memory` operations with an address operand, and calls go to an oracle; types, names and printing are left out.
- `Dominators::create_doms`, the driver, the lexer, the parser and the printing of trees.
- Mem2RegPass.Mem2Reg.Run: asks that every predecessor of a reachable join is reachable, because the analysis does not end otherwise (see Findings).
- FuncInfoPass.FuncInfo.Run: asks that chains of address computations end, because `get_first_addr` does not end otherwise.
- Builder.CminusfBuilder.VisitFunDeclaration: the global scope is the one after the visitor has pushed the function's own name (src/cminusfc/cminusf_builder.cpp:122), so a function calls itself if `globals` has it.
