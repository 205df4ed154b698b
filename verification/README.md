# Bistra loop-nest compiler: a verified model

Bistra is a small compiler for loop nests. A program is a tree of loops, range-ifs, stores and
calls over tensors and local variables, and a set of rewrites is meant to change the shape of
the nest without changing what it computes. This project models that IR with an executable
meaning and proves, rewrite by rewrite, when the meaning survives. Three more parts of the
compiler are modelled beside it: the bytecode format, the owning handles of the syntax tree,
and the printer and parser of expressions.

## How it is organised

- **The IR and its meaning.** `IR` holds expressions, statements, types, `verify`'s rules and
  replacement of a loop index. `Semantics` runs a program: a loop runs its body at
  0, stride, 2*stride, ... below its end, a range-if tests a half-open range, a store writes its
  lanes (adding to memory when it accumulates), a call is appended to a trace. Arithmetic is
  exact; transcendental functions, powers of reals and division by zero are parameters of the
  machine. `Families` is the theory of repeated state transformers (splitting, blocking,
  distributing and interchanging iterations); `Substitution`, `Clone`, `Context`, `Footprint`,
  `Types` and `Hiding` say what replacing an index, cloning, working inside a larger program,
  disjoint memory and hidden locals do to a run. `Scopes` is the statement list that the
  rewrites edit in place.
- **The rewrites.** `Tiling`, `Peeling` (peelLoop and unrollLoop), `Distribution` and
  `DistributeAll`, `Interchange` (hoist and sink), `Ranges`, `Dependence`, `Fusion` and
  `FuseTree`, `Decided` (runs whose ifs are decided beforehand), `Instances`, `Sites` (the statements and
  conditions of a nest), `Widening`,
  `Polynomials` (index expressions in normal form), `Vectorizing`, `KeptGuards` (ifs inside a loop
  that is grouped), `VectorTypes` and `Strides`, `Locals`, `Sinking`, `Licm` and `Promotion`
  (promoteLICM), `SimplifyExpr`, `Safety`, `ExprPass`, `StmtPasses`, `Simplify` and
  `Definedness`, `Relabel` and `Layouts` (row-major flattening and changeLayout), `Estimate` (estimateCompute).
  Each has a function that says what the rewrite produces, a method that produces it by editing
  scopes step by step as the C++ does, and theorems about the function. `SameIn(t, a, b)` says
  that a and b end in the same state from every state and for all index values allowed by the
  ranges t of the enclosing loops; `SameBut(T, t, a, b)` allows the locals named in T to differ;
  `Follows(t, a, b)` compares the runs of a that divide nothing by zero.
- **The bytecode.** `Streams` (bytes, words, strings), `Interning` (the id tables), `Records` and
  the four `Bytecode*` modules, which end in the round trip of whole programs; `Headers` writes
  and reads the header in place.
- **The tree.** `Trees` is the child relation as a map, and what each edit does to it. `Handles`
  has the heap objects themselves: nodes, handles and their mutual references, and the scope
  edits. `Handles.Tree` reads the map off the heap, and the contract of every scope edit says
  which edit of the map it is.
- **The text.** `Lexing`, `Parsing` and `Printing`.

Some rewrites do not do what they are meant to do on every input. In those places the model
follows the code, a lemma gives a concrete input, and a second one says exactly when the code is
right; `Pitfalls`, `Strides` and `KeptGuards` collect the ones about fuse, widen and vectorize, and
the rows whose name ends in `Unsound` or `Unreported` name inputs. So do `Peeling.PeelAllIsIllFormed`,
answered by `Peeling.PeelWf`, and `Widening.WidenStrideTooLarge`, answered by `Widening.WidenWf`. A row
whose name ends in `Exactly` is an if and only if: when the code is right, or which inputs a rewrite
accepts, said without the tests that it makes.

## Model

| member | source | states |
|---|---|---|
| Context.TripRange | lib/Backends/LLVMBackend/LLVMBackend.cpp:319-354 | iteration k exists exactly when its index value lies below the end |
| Context.PlugSame | lib/Program/Program.cpp:257-315 | replacing the body of any scope by an equivalent one keeps the program around it |
| Context.PlugWf | lib/Program/Program.cpp:900-931 | replacing the body of any scope by a well-formed one with the same loops keeps the program around it well formed |
| Footprint.ConfinedCommute | lib/Backends/LLVMBackend/LLVMBackend.cpp:253-267 | two blocks whose reads and writes do not conflict can run in either order |
| Substitution.ExecSubst | lib/Program/Program.cpp:1118-1121 | replacing every use of a loop index by an index expression runs the block at the value of that expression |
| Clone.CloneWf | lib/Program/Program.cpp:768-875 | a clone of a well-formed block is well formed and declares only new loops |
| Clone.CloneExec | lib/Program/Program.cpp:768-875 | a clone does what the original does, with the mapped loops in place of the originals |
| Families.IterDistribute | lib/Transforms/Transforms.cpp:103-175 | loop distribution: running f and g together in every iteration equals all of f and then all of g when no reversed pair is affected |
| Families.IterInterchange | lib/Transforms/Transforms.cpp:191-240 | loop interchange: rows first equals columns first when every pair whose order is reversed commutes |
| Scopes.Scope.TakeContent | lib/Program/Program.cpp:265-274 | the statements of the other scope are appended in order, and the other scope is empty |
| Scopes.Scope.InsertAllBefore | lib/Program/Program.cpp:304-308 | inserting statements one by one before a position splices the list in there |
| Scopes.SplicedWf | lib/Program/Program.cpp:900-931 | replacing one statement by well-formed ones with new loops keeps the scope well formed |
| Tiling.TilePreserves | lib/Transforms/Transforms.cpp:21-70 | for every block size and stride, dividing the range or not, tiling runs exactly the original iterations in order; no dependence condition |
| Tiling.TileWf | lib/Transforms/Transforms.cpp:21-70 | the tiled loop passes verify again |
| Tiling.Tile | lib/Transforms/Transforms.cpp:21-70 | tile refuses exactly when the block covers the loop or is no multiple of the stride; otherwise the loop is replaced in place by a loop over just enough tiles around one over a block, and the scope is equivalent and well formed |
| Peeling.PeelPreserves | lib/Transforms/Transforms.cpp:279-318 | the two loops run the original iterations with the original index values in order |
| Peeling.PeelWf | lib/Transforms/Transforms.cpp:279-318 | both loops pass verify exactly when the cut lies below the end |
| Peeling.PeelAllIsIllFormed | lib/Transforms/Transforms.cpp:279-318 | what peeling everything leaves (k = 0 and k = End) is an empty loop that verify rejects; every other accepted k is fine |
| Peeling.PeelLoop | lib/Transforms/Transforms.cpp:279-318 | a positive k is where the first loop ends, any other -k is what the second loop gets; refusal exactly when k > End, -k >= End, or k is no multiple of the stride; the scope is equivalent, and well formed exactly when k is neither 0 nor End |
| Peeling.UnrollPreserves | lib/Transforms/Transforms.cpp:242-277 | the copies run the original iterations with the original index values in order |
| Peeling.UnrolledPart | lib/Transforms/Transforms.cpp:254-276 | the copies are as many statements as the body has, once per iteration, and the k-th run of them does what iteration k did |
| Peeling.UnrollLoop | lib/Transforms/Transforms.cpp:242-277 | unrolls exactly when the end is at most the limit; the loop is replaced in place by one clone of the body per iteration, and the scope is equivalent and well formed |
| Distribution.PacketsPartition | lib/Transforms/Transforms.cpp:125-146 | packets keep every statement in order; each is one scope or a run of other statements |
| Distribution.PacketCount | lib/Transforms/Transforms.cpp:125-150 | the number of packets is the number of statements that are a scope or follow one or come first |
| Distribution.DistributePackets | lib/Transforms/Transforms.cpp:119-175 | all packets in every iteration equals each packet for all iterations, when earlier packets at later iterations commute with later packets at earlier ones |
| Distribution.SplitPreserves | lib/Transforms/Transforms.cpp:119-175 | splitScopes keeps the program under that condition |
| Distribution.SplitWf | lib/Transforms/Transforms.cpp:119-175 | one well-formed new loop per packet, with new loop identities |
| Distribution.SplitScopes | lib/Transforms/Transforms.cpp:119-175 | changes the scope exactly when there are two packets or more, into the packet loops in order; equivalent whenever the packets commute |
| DistributeAll.RestartLowersWeight | lib/Transforms/Transforms.cpp:103-117 | every restart strictly lowers the sum over loops of depth * (packets - 1, floored at zero) |
| DistributeAll.SplitFirstWeight | lib/Transforms/Transforms.cpp:103-117 | the weight falls even after the enclosing loop pays for its new packets |
| DistributeAll.DistributedIff | lib/Transforms/Transforms.cpp:103-117 | nothing can be split exactly when every loop body is a single scope or has no scope |
| DistributeAll.RunCorrect | lib/Transforms/Transforms.cpp:103-117 | the whole run ends in a well-formed distributed program, equivalent when every split made is legal |
| DistributeAll.DistributeAllLoops | lib/Transforms/Transforms.cpp:103-117 | the loop with restarts terminates, computes that run, and reports a change exactly when there was something to split |
| Interchange.HoistPreserves | lib/Transforms/Transforms.cpp:214-240 | hoist keeps the whole program when the instances whose order it reverses commute and a guard it passes keeps its value |
| Interchange.HoistPermutes | lib/Transforms/Transforms.cpp:214-240 | the loop moves up exactly min(levels, available) places; the scopes it passes keep their order around its old content |
| Interchange.AvailableExactly | lib/Transforms/Transforms.cpp:218-229 | m places are available exactly when m scopes enclose the loop, it is alone in the innermost, and each of the others holds nothing but the next |
| Interchange.IndexGuardLegal | lib/Transforms/Transforms.cpp:214-240 | a guard over loop indices alone may always move into the loop |
| Interchange.Cursor.Hoist | lib/Transforms/Transforms.cpp:214-240 | the step-by-step hoist moves the loop up min(levels, available) places with the passed scopes inside it, and reports a change exactly when one step was possible; the program stays well formed |
| Interchange.SinkPreserves | lib/Transforms/Transforms.cpp:191-212 | sink keeps the program under the same condition for every exchange it makes |
| Interchange.Sink | lib/Transforms/Transforms.cpp:191-212 | in place of a perfect nest the loop ends exactly min(levels, loops directly inside it) places down: the passed loops are around it in their order, the others and the innermost body inside it; the result is well formed with the same loops |
| Interchange.SinkPermutes | lib/Transforms/Transforms.cpp:191-212 | the same of the function that says where sink ends |
| Interchange.InnerLoopsNest | lib/Transforms/Transforms.cpp:195-203 | the loops directly inside are all there are: they nest around a body that is not one more loop |
| Interchange.SwapWf | lib/Transforms/Transforms.cpp:229-235 | an exchange keeps the nest well formed and declares the same loops |
| Interchange.HoistWf | lib/Transforms/Transforms.cpp:214-240 | after any number of levels the whole program is well formed and declares the same loops |
| Interchange.SinkWf | lib/Transforms/Transforms.cpp:191-212 | so it is after sink |
| Ranges.KnownRangeSound | lib/Analysis/Value.cpp:373-460 | for Max-free expressions without 32-bit overflow a returned interval is ordered and contains the value, for every assignment of live loops to their multiples and frozen loops to 0 |
| Ranges.KnownExactly | lib/Analysis/Value.cpp:373-460 | a range is known exactly of constants, indices, and sums, differences, products, minima and maxima of such |
| Ranges.RangeTightest | lib/Analysis/Value.cpp:402-446 | the interval of a sum, difference, product or minimum is the least that contains the results for all operands in their intervals |
| Ranges.MaxRangeUnsound | lib/Analysis/Value.cpp:447-452 | max(0, 5) is 5 and its interval is [0, 0] |
| Ranges.MaxRangeExactly | lib/Analysis/Value.cpp:447-452 | for max of two operands that rise with their indices (sums, minima, and products that are not negative) the interval is right exactly when both have the same upper end |
| Ranges.MaxRangeCovers | lib/Analysis/Value.cpp:447-452 | for any operands with known ranges, equal upper ends are enough |
| Ranges.SubsetExactly | lib/Analysis/Value.cpp:462-476 | the answer Subset is right exactly when the interval ends strictly below the bound |
| Ranges.RelationExactly | lib/Analysis/Value.cpp:462-476 | Subset exactly when every index is in the range or at its bound, else Disjoint exactly when none lies above the start, else Intersect |
| Ranges.DisjointExactly | lib/Analysis/Value.cpp:462-476 | the answer Disjoint is right exactly when the interval ends strictly below the start or the range is empty |
| Dependence.CheckWeakSIV | lib/Transforms/Dependence.cpp:37-77 | the loop over dimensions with early exits answers NoDep exactly for different buffers; Equals only when in every dimension both subscripts are the bare indices, or the values of one all lie below those of the other, or neither changes with its loop; and, for subscripts that rise with their indices from wherever they start, exactly when every dimension is aligned like that |
| Dependence.EqualsMeans | lib/Transforms/Dependence.cpp:48-76 | what Equals says of the values, and that it says nothing less where every use of an index counts |
| Dependence.EqualsIffAligned | lib/Transforms/Dependence.cpp:48-76 | for rising subscripts of any start: Equals exactly when every dimension is aligned, SomeDep otherwise |
| Dependence.UnmovedExactly | lib/Transforms/Dependence.cpp:67-72 | a subscript in which every use of an index counts stays while the loop runs exactly when it does not use the index |
| Dependence.ShiftExactly | lib/Transforms/Dependence.cpp:56-72 | A[i] against A[j + c]: Equals exactly when c reaches past the last index on either side; for a multiple of the stride that is exactly when the accesses never meet, and for any other c they never meet |
| Dependence.SeparatedNeverMeet | lib/Transforms/Dependence.cpp:37-77 | a dimension that is the bare index on both sides, or has disjoint known ranges, keeps different iterations on different elements |
| Dependence.EqualsExactly | lib/Transforms/Dependence.cpp:67-76 | for subscripts that are the bare indices, or rise with their indices from ranges that are disjoint or start at the same value, the verdict Equals is right exactly when some dimension separates the accesses |
| Fusion.FuseChecks | lib/Transforms/Transforms.cpp:652-700 | the nested tests pass exactly when bounds agree, locals do not interfere and no store/store, store/load or load/store pair depends |
| Fusion.ChecksExactly | lib/Transforms/Transforms.cpp:652-700 | loops that pass have one shape, do not share a written local, and are aligned in every dimension wherever they share a buffer that one of them writes; loops with rising subscripts pass exactly then |
| Fusion.SeparatedCommute | lib/Transforms/Transforms.cpp:666-700 | with separated accesses, a later iteration of the first body passes an earlier one of the second |
| Fusion.FusePreserves | lib/Transforms/Transforms.cpp:642-721 | merging two loops that pass the checks, with conflicting accesses separated, leaves the final state unchanged |
| FuseTree.FuseAtPreserves | lib/Transforms/Transforms.cpp:642-721 | so does the whole fusion with the children it goes on to fuse |
| FuseTree.FuseAtWf | lib/Transforms/Transforms.cpp:642-721 | the result is well formed and declares no new loop |
| FuseTree.Fuse | lib/Transforms/Transforms.cpp:642-721 | fuse succeeds exactly when the next statement is a loop and the checks pass: only on aligned loops, and on all aligned loops with rising subscripts; the two become one, in which the first children that can be fused are fused; meaning is kept when every merge is legal |
| FuseTree.CanFuseExactly | lib/Transforms/Transforms.cpp:642-700 | the same of the test alone |
| FuseTree.FirstChildFused | lib/Transforms/Transforms.cpp:702-720 | the merged loop takes the place of the two, and in it the first child that can be fused, if there is one, has been |
| Pitfalls.FuseEqualsUnsound | lib/Transforms/Dependence.cpp:67-76 | A[0] += 1 against B[j] = A[0] passes the checks of fuse, and fusing changes the result |
| Decided.DecidedRun | include/bistra/Program/Program.h:262-264 | where nothing that a block runs changes the answer of an if in it, it runs as the ifs were decided at its start |
| Instances.GroupRuns | lib/Transforms/Transforms.cpp:534-604 | mapping every store site of a nest with ifs to its image does what a group of iterations does, when the store instances that the ifs let through at its start commute and leave the answers of the ifs as they are |
| Widening.GroupedPreserves | lib/Transforms/Transforms.cpp:583-604 | strip mining: the grouped loop computes what the loop does over whole groups |
| Widening.GroupedLoopsPreserve | lib/Transforms/Transforms.cpp:583-604 | so does the grouped loop followed by the peeled tail |
| Widening.OneStoreLegal | lib/Transforms/Transforms.cpp:534-551 | a loop over one store that uses the index meets all that widen needs: nothing has to commute |
| Widening.WidenPreserves | lib/Transforms/Transforms.cpp:553-604 | widen, with nested loops, ifs and tail, keeps memory when every store uses the index, no store changes the answer of an if in the loop, and store instances of different iterations commute or there is only one store |
| Widening.WidenWf | lib/Transforms/Transforms.cpp:553-604 | the grouped loop and the tail pass verify exactly when stride * factor stays below the limit of strides |
| Widening.WidenStrideTooLarge | lib/Program/Program.cpp:900-906 | a loop over 0..2048 with stride 512 is accepted for factor four, and verify rejects the result |
| Widening.Widen | lib/Transforms/Transforms.cpp:553-604 | widen succeeds exactly when the loop reads and writes no local, is long enough for one group, and uses its index in stores only; L keeps whole groups, less than a group is peeled, and every store that uses the index is there once per iteration of a group; equivalent when legal; the scope passes verify exactly when stride * factor stays below 1024 |
| Widening.CanWidenExactly | lib/Transforms/Transforms.cpp:558-580 | the same of the tests alone, with the sets of locals that the footprint theorems are about |
| Widening.WidenedCount | lib/Transforms/Transforms.cpp:586-598 | every store that uses the index becomes as many as a group has iterations, and nothing else is added |
| Sites.InstanceLeaf | lib/Analysis/Value.cpp:32-53 | every statement that a block runs is among the collected ones |
| Sites.InstanceMoves | lib/Transforms/Transforms.cpp:345-364 | where no if uses the index, iteration j runs, at its own index, exactly what iteration i runs |
| Pitfalls.LocalsRefused | lib/Transforms/Transforms.cpp:558-563 | for i in 0..4 { v += 1; A[i] = v } is refused: it leaves 1, 2, 3, 4 in A and 4 in v, and duplicating its store by two would leave 1, 1, 2, 2 and 2 |
| Pitfalls.IndexFreeStoreExactly | lib/Transforms/Transforms.cpp:574-604 | a store that never uses the index runs fewer times: in any loop, A[x, y, ...] = c with fixed subscripts survives, and A[x, y, ...] += c exactly when c is zero |
| Strides.ProductAccepted | lib/Analysis/Value.cpp:73-85 | i*3 is called consecutive; vectorizing A[i*3] = r is then seen by a read, and so is A[i*3] += r, except when r is zero |
| Polynomials.StepsByOneExactly | lib/Analysis/Value.cpp:73-85 | an index expression of constants, indices, sums, differences and products grows by one with the index, whatever the other indices are, exactly when the coefficient of the index is one |
| Strides.VectorizeExactly | lib/Transforms/Transforms.cpp:475-529 | for a loop over one store with a last subscript affine in the index, inside loops with any ranges: every read after the vector loop and its tail gives what it gave exactly when, for all index values of the loops around it, the subscript steps by one, or the store accumulates and only the first lane of each group adds something; with a step of one the states are the same |
| Strides.AnywhereExactly | lib/Transforms/Transforms.cpp:475-529 | where the loops around it have no known range, and for a store that does not accumulate, that is exactly when the coefficient of the index is one |
| Vectorizing.LaneValue | lib/Transforms/Transforms.cpp:396-458 | lane k of the vectorized value is the scalar value k iterations later |
| Vectorizing.LanesRun | lib/Transforms/Transforms.cpp:460-473 | after n lanes of a vector store memory is what n iterations leave, when no iteration reads or writes what another writes |
| Vectorizing.VectorizePreserves | lib/Transforms/Transforms.cpp:475-529 | the vector loop with its scalar tail computes the same memory as the scalar loop, when the stores step by one, iterations touch nothing in common with a write, and no store changes the answer of an if in the loop |
| KeptGuards.SteadyKept | lib/Transforms/Transforms.cpp:475-604 | ifs over indices, locals and buffers that the loop does not write keep their answers, whatever the stores do |
| KeptGuards.GuardedStoreExactly | lib/Transforms/Transforms.cpp:475-604 | widen and vectorize keep a loop over if (B[x] in a..b) { A[i] = c }, with any stride and tail, exactly when the loop does not itself write B[x] with a value outside a..b at an iteration that is grouped and not the last of its group |
| KeptGuards.FillingLegal | lib/Transforms/Transforms.cpp:475-604 | that loop meets every other condition, so the ifs alone are what goes wrong |
| KeptGuards.GuardNotKept | lib/Transforms/Transforms.cpp:475-604 | for i in 0..2 { if (B[0] in 0..1) { B[i] = 1 } } is well formed, widen and vectorize accept it by two, and both change what it does |
| Vectorizing.VectorizeWf | lib/Transforms/Transforms.cpp:475-529 | the vector loop and its tail pass verify exactly when the width stays below the limit of strides |
| VectorTypes.VectorizeTyped | lib/Transforms/Transforms.cpp:396-473 | and they follow the type rules: vector operands of one width, scalar subscripts, scalar broadcasts |
| Vectorizing.Vectorize | lib/Transforms/Transforms.cpp:475-529 | vectorize succeeds exactly on stride one, a range of one vector or more, nothing but stores inside, no if that uses the index, and scalar stores whose accesses, if the store uses the index, use it in the last subscript only, below sums and products; then no leading subscript of such a store or of a load in its value moves with the loop; stores with uniform accesses, or additive in the last subscript, are all accepted; L keeps whole vectors, and exactly the stores that use the index become vector stores; equivalent under the conditions of VectorizePreserves; the scope passes verify, for the widths below 64 that vectorize accepts |
| Vectorizing.KindExactly | lib/Analysis/Value.cpp:59-99 | uniform means constants and other indices; consecutive means that the index stands below sums and products only; anything else is other |
| Vectorizing.BodyExactly | lib/Transforms/Transforms.cpp:324-394 | the recursive tests accept exactly the bodies so described |
| Vectorizing.AcceptedStays | lib/Transforms/Transforms.cpp:324-343 | in an accepted loop the leading subscripts of every store that uses the index, and of every load in its value, have the same value at all indices, in every environment |
| Vectorizing.StraightAccepted | lib/Transforms/Transforms.cpp:324-394 | bodies of scalar stores whose accesses are uniform, or additive in the last subscript, are accepted |
| Vectorizing.VectorLeaves | lib/Transforms/Transforms.cpp:460-473 | exactly the stores that use the index become stores of vectors, to the same place and in the same way |
| Pitfalls.VectorStoreExactly | lib/Transforms/Transforms.cpp:324-343 | every read after a vector store gives what it gives after its iterations exactly when the last subscript uses the index, or the store accumulates and all lanes but the first add zero |
| Locals.FirstFreeIs | lib/Program/Program.cpp:87-97 | a new local gets the first numbered name that is not taken |
| Locals.VarTable.AddTempVar | lib/Program/Program.cpp:87-97 | the variable list grows by one variable with an unused name |
| Licm.HoistSame | lib/Transforms/Transforms.cpp:723-761 | hoisting loads whose subscripts do not use the loop, out of a loop whose loads and stores are disjoint, keeps the buffers |
| Sinking.SinkOneSame | lib/Transforms/Transforms.cpp:763-814 | zero-initialise, accumulate locally and flush once equals storing every iteration |
| Licm.SinkSame | lib/Transforms/Transforms.cpp:763-814 | the same for all stores of a body with at most one store per buffer |
| Promotion.PromotePreserves | lib/Transforms/Transforms.cpp:816-827 | promoteLICM on a whole program keeps all buffers; only fresh locals differ |
| Promotion.WfReady | lib/Transforms/Transforms.cpp:816-827 | verify gives the part of its conditions that is about loops; what is left is about the stores |
| Hiding.SameBuffers | lib/Transforms/Transforms.cpp:816-827 | agreement but for some locals means equal final buffers and equal calls |
| Promotion.TwoStoresExactly | lib/Transforms/Transforms.cpp:801-804 | flushes come out in reverse, so two stores of values that read no memory, to one buffer at fixed subscripts, survive exactly when they always hit different elements, or both accumulate, or the one that accumulates adds zero (in all iterations before a plain store, in the last one after it), or both last store the same value |
| Promotion.HoistLoads | lib/Transforms/Transforms.cpp:723-761 | exactly in a loop of stores that reads no buffer it writes, the in-place hoist puts the saves before the loop and rewrites the loads, and every load it leaves uses the index |
| Promotion.SinkStores | lib/Transforms/Transforms.cpp:763-814 | exactly in such a loop, the in-place sink produces initialisers, loop and flushes in the order of the source, turns every store into a save whose subscripts do not use the index, and reports a change exactly when there is one |
| Promotion.PromoteLICM | lib/Transforms/Transforms.cpp:816-827 | both, over every loop of any program in place; the flag says whether a store was sunk, and the program is modified exactly when one was sunk or a load was hoisted; buffers kept under the conditions above |
| Promotion.PromoteSettles | lib/Transforms/Transforms.cpp:816-827 | afterwards, in every loop of stores that reads no buffer it writes, every store and every load uses the index |
| Promotion.ReportExactly | include/bistra/Transforms/Transforms.h:69-71 | the flag, meant to say whether the program was modified, is right exactly when some store is sunk or no load is hoisted |
| Promotion.HoistUnreported | lib/Transforms/Transforms.cpp:723-761 | for i in 0..4 { A[i] = B[0] } is modified, and no change is reported |
| SimplifyExpr.SimplifySame | lib/Transforms/Simplify.cpp:13-108 | simplifyExpr keeps type, scope and, where nothing is divided by zero, the value |
| SimplifyExpr.SimplifyIdempotent | lib/Transforms/Simplify.cpp:13-108 | simplifying twice changes nothing more |
| SimplifyExpr.SimplifyNormal | lib/Transforms/Simplify.cpp:13-108 | no pair of constants, constant on the wrong side, factor zero or one, zero summand, zero dividend or divisor one is left |
| SimplifyExpr.UnchangedExactly | lib/Transforms/Simplify.cpp:13-108 | an expression is left alone exactly when it has none of these |
| SimplifyExpr.SimplifySize | lib/Transforms/Simplify.cpp:13-108 | a changed root means strictly fewer nodes |
| SimplifyExpr.FloatPairExactly | lib/Transforms/Simplify.cpp:51-69 | folding two float constants is undefined exactly for Min, Max, Pow and a zero divisor |
| SimplifyExpr.ZeroQuotientExactly | lib/Transforms/Simplify.cpp:73-108 | 0 / i becomes 0, which is right for every i exactly when 0 / 0 is 0 |
| SimplifyExpr.PlainDefined | lib/Transforms/Simplify.cpp:13-108 | simplifyExpr is defined, and keeps this form, without powers, float minima and maxima, and divisors other than non-zero constants |
| Definedness.SimplifyDefined | lib/Transforms/Simplify.cpp:254-275 | on every well-formed, well-typed program of such expressions all rounds of simplify are defined |
| ExprPass.ExprsFollow | lib/Transforms/Simplify.cpp:110-150 | simplifying every expression of a program keeps its runs |
| StmtPasses.EmptyFollows | lib/Transforms/Simplify.cpp:155-170 | removing empty loops keeps the runs |
| StmtPasses.TripOneFollows | lib/Transforms/Simplify.cpp:172-204 | replacing a loop that runs once by its body at index 0 keeps the runs |
| StmtPasses.IfsFollow | lib/Transforms/Simplify.cpp:206-252 | removing ifs whose relation is decided rightly keeps the runs |
| StmtPasses.IfRemovalExactly | lib/Transforms/Simplify.cpp:206-252 | for a condition that rises with its indices, removing the if as always true, or as never true, is right exactly when the last value lies strictly below the bound it is compared with |
| Simplify.RoundSize | lib/Transforms/Simplify.cpp:254-275 | a round that reports a change leaves strictly fewer nodes |
| Simplify.SimplifyPreserves | lib/Transforms/Simplify.cpp:254-275 | simplify to the end keeps the runs, well-formedness and types, over any number of rounds |
| Simplify.SimplifyFinal | lib/Transforms/Simplify.cpp:254-275 | on return no loop is empty, no loop runs once, no if is decided, and simplify again is the identity |
| Simplify.ExprSimplify | lib/Transforms/Simplify.cpp:126-150 | the in-place pass over the expressions |
| Simplify.RemoveEmptyLoops | lib/Transforms/Simplify.cpp:155-170 | the in-place pass; it reports a change exactly when a loop was empty |
| Simplify.RemoveTrip1Loops | lib/Transforms/Simplify.cpp:172-204 | the in-place pass; it reports a change exactly when a loop ran once |
| Simplify.SimplifyIfs | lib/Transforms/Simplify.cpp:206-252 | the in-place pass; it reports a change exactly when an if was decided |
| Simplify.SimplifyScope | lib/Transforms/Simplify.cpp:254-275 | the recursion terminates and computes the result above; the program is modified exactly when a change is reported or some expression had an operand to simplify |
| Simplify.SimplifyReportExactly | include/bistra/Transforms/Simplify.h:16-19 | the flag is right about the program being modified exactly when an expression gets a new root, a loop is empty or runs once, an if is decided for its simplified condition, or no expression has anything to simplify |
| Simplify.OperandUnreported | lib/Transforms/Simplify.cpp:124-131 | v = (x + 0.0) + y becomes v = x + y, and no change is reported |
| Layouts.IndexOffset | lib/Backends/LLVMBackend/LLVMBackend.cpp:87-108 | the nested loops compute the row-major offset |
| Layouts.OffsetInside | lib/Backends/LLVMBackend/LLVMBackend.cpp:87-108 | in-range subscripts have an offset inside the buffer |
| Layouts.OffsetStep | lib/Backends/LLVMBackend/LLVMBackend.cpp:87-108 | row-major: one step in a dimension goes past all elements of the dimensions after it |
| Layouts.UnflattenOffset | lib/Backends/LLVMBackend/LLVMBackend.cpp:87-108 | subscripts are recovered from their offset |
| Layouts.OffsetUnflatten | lib/Backends/LLVMBackend/LLVMBackend.cpp:87-108 | every offset below the size is the offset of in-range subscripts |
| Layouts.LoweringPreserves | lib/Backends/LLVMBackend/LLVMBackend.cpp:85-108 | running a program over flat buffers gives the flattened result, for in-range accesses |
| Relabel.ExecLaidOut | lib/Transforms/Transforms.cpp:843-870 | any sound renaming of accesses, applied to a program, commutes with running it |
| Layouts.SwizzleInPlace | lib/Transforms/Transforms.cpp:829-841 | the move-out, move-back loops permute the elements in place |
| Layouts.ShuffleReaches | lib/Transforms/Transforms.cpp:829-841 | a shuffle without repetition reaches every position |
| Layouts.SwizzleInjective | lib/Transforms/Transforms.cpp:829-841 | different subscripts stay different |
| Layouts.ChangeLayoutPreserves | lib/Transforms/Transforms.cpp:843-870 | the changed program on the re-laid-out flat buffer leaves every element where the new layout puts the original result: dimension i is the old dimension shuffle[i], and subscript i the old subscript shuffle[i]; other buffers are equal |
| Estimate.EstimateS | lib/Analysis/Value.cpp:537-616 | the visitor's running totals compute the cost of a statement |
| Estimate.EstimateB | lib/Analysis/Value.cpp:537-616 | and the sum over a scope, times its passes |
| Estimate.EstimateCounts | lib/Analysis/Value.cpp:480-624 | without ifs the estimate equals the operations counted over every run from every state |
| Estimate.AccumulateCost | lib/Analysis/Value.cpp:589-602 | A[x] += v costs what A[x] = A[x] + v costs |
| Estimate.EstimateBounds | lib/Analysis/Value.cpp:558-574 | with ifs no run does more than the estimate |
| Estimate.PlugCost | lib/Analysis/Value.cpp:537-616 | replacing statements by others of equal cost keeps the estimate of the whole program |
| Estimate.TileCostExactly | lib/Transforms/Transforms.cpp:21-70 | tile keeps the estimate exactly when the tiles divide the range or the body is free |
| Estimate.PeelCost | lib/Transforms/Transforms.cpp:279-318 | the two loops cost together what the loop did |
| Estimate.UnrollCost | lib/Transforms/Transforms.cpp:242-277 | so do the unrolled copies |
| Estimate.SplitCost | lib/Transforms/Transforms.cpp:119-175 | so do the packet loops |
| Estimate.SwapCostExactly | lib/Transforms/Transforms.cpp:229-235 | changing places with a loop keeps the estimate; with a guard exactly when the loop runs once or the guard is free |
| Estimate.HoistCost | lib/Transforms/Transforms.cpp:214-240 | hoist past any number of loops keeps the estimate of the program, whatever encloses them |
| Estimate.SinkCost | lib/Transforms/Transforms.cpp:191-212 | so does sink |
| Estimate.FuseAtCost | lib/Transforms/Transforms.cpp:642-721 | so does fuse, with the children it fuses |
| Streams.WordBack | lib/Bytecode/Bytecode.cpp:13-46 | a word is read back modulo 2^32, whatever follows it |
| Streams.StrBack | lib/Bytecode/Bytecode.cpp:29-68 | a string that can be written is read back |
| Streams.StreamWriter.WriteStr | lib/Bytecode/Bytecode.cpp:29-35 | appends the length and the characters |
| Streams.StreamReader.ReadStr | lib/Bytecode/Bytecode.cpp:60-68 | advances past exactly what the string took |
| Interning.InternedIs | include/bistra/Bytecode/Bytecode.h:33-43 | a looked-up element has a number, at which an equal entry is found; entries stay distinct |
| Interning.FindStays | include/bistra/Bytecode/Bytecode.h:33-43 | growing the table never changes a number |
| Interning.Reinterned | include/bistra/Bytecode/Bytecode.h:33-50 | looking up the entries of a table one by one builds the same table |
| Interning.IdTable.GetIdFor | include/bistra/Bytecode/Bytecode.h:35-43 | the scan with the push returns that number and grows the table as specified |
| Records.HeaderBack | lib/Bytecode/Bytecode.cpp:72-195 | the header is read back as written |
| Headers.BytecodeHeader.Serialize | lib/Bytecode/Bytecode.cpp:72-118 | looks up the names of the dimensions, locks the strings, and writes exactly the bytes of that header |
| Headers.BytecodeHeader.Deserialize | lib/Bytecode/Bytecode.cpp:120-171 | the nested reading loops fill and lock the three tables as the header says, and stop right after it |
| Records.ExprBack | lib/Bytecode/Bytecode.cpp:232-353 | an expression record is read back exactly when it is no string constant |
| Records.StringFallsThrough | lib/Bytecode/Bytecode.cpp:454-468 | a string record is read as a binary operator with its number, from the bytes after the string |
| Records.StmtBack | lib/Bytecode/Bytecode.cpp:355-435 | a statement record is read back exactly when it is no if with a non-empty range |
| BytecodeExprs.ExprBuilt | lib/Bytecode/Bytecode.cpp:437-528 | the records of an expression, in order, build that expression again under its number |
| BytecodeExprs.CodesAreOrdinals | include/bistra/Program/Program.h:495 | an operator is written as its place in its declaration |
| Bytecode.BlockRestored | lib/Bytecode/Bytecode.cpp:530-613 | the records of a block, in order, put its statements back below their parents, in sibling order |
| BytecodeProgram.RoundTrip | lib/Bytecode/Bytecode.cpp:615-731 | deserialize(serialize(p)) has p's name, arguments and variables, and p's body up to the identity of loops |
| BytecodeProgram.LoopsStayApart | lib/Bytecode/Bytecode.cpp:615-731 | different loops stay different, so that identity is one-to-one |
| Handles.OneOwner | include/bistra/Program/UseDef.h:78-81 | no node is owned twice |
| Handles.SetReference | include/bistra/Program/UseDef.h:28-45 | the whole effect on all handles and owners; the correspondence is kept |
| Handles.Take | include/bistra/Program/UseDef.h:60-66 | the node is handed out without an owner |
| Handles.Move | include/bistra/Program/UseDef.h:86-95 | the node changes its handle, and the parent comes with it |
| Handles.Replay | include/bistra/Program/UseDef.h:28-95 | any sequence of set, take and move keeps handles and owned nodes in one-to-one correspondence |
| Handles.TakeContent | lib/Program/Program.cpp:265-274 | the owned statements are moved in order, none lost, none doubled, no other handle touched; in a good heap the tree changes by exactly that move, and stays acyclic exactly when the taking scope is not inside a statement it takes |
| Handles.RemoveStmt | lib/Program/Program.cpp:278-290 | exactly that statement leaves the scope, and the tree; the tree stays acyclic |
| Handles.InsertAt | lib/Program/Program.cpp:304-315 | the statement is owned at that place, and only there, also when this scope or another owned it before; the tree stays acyclic exactly when the scope is not inside the statement |
| Handles.HoistStep | lib/Transforms/Transforms.cpp:231-235 | clear, takeContent, addStmt and setReference exchange loop and scope; no other handle is touched |
| Handles.HoistOnce | lib/Transforms/Transforms.cpp:231-235 | in a good heap the tree changes by exactly that exchange: it stays acyclic, loses no statement and lists none twice |
| Handles.HeldOnce | include/bistra/Program/UseDef.h:78-81 | in a good heap no statement is listed twice, in one scope or in two |
| Trees.TakeContentAcyclic | lib/Program/Program.cpp:265-274 | moving the children keeps the tree acyclic exactly when the taking scope is not inside one of them |
| Trees.InsertAcyclic | lib/Program/Program.cpp:304-315 | inserting keeps the tree acyclic exactly when the scope is not inside the inserted statement |
| Trees.PutAcyclic | lib/Program/Program.cpp:304-315 | so does inserting a statement that is first taken out of its old place |
| Trees.RemoveAcyclic | lib/Program/Program.cpp:278-290 | removing keeps it acyclic |
| Trees.HoistAcyclic | lib/Transforms/Transforms.cpp:231-235 | so does hoist |
| Trees.HoistKeepsStatements | lib/Transforms/Transforms.cpp:231-235 | hoist loses no statement and lists none twice |
| Lexing.LexWord | lib/Parser/Lexer.cpp:59-92 | a word followed by something that ends it is one token, reserved or not |
| Lexing.LexDigitsExactly | lib/Parser/Lexer.cpp:94-120 | exactly when digits are a token of their own: a minus sign after the first digit is taken in |
| Lexing.Lexer.NextToken | lib/Parser/Lexer.cpp:141-302 | the moving pointer yields the token and stops right after it |
| Parsing.Parser.Expr | lib/Parser/Parser.cpp:168-216 | the precedence-climbing loop computes the specified parse |
| Parsing.Parser.Primary | lib/Parser/Parser.cpp:357-465 | so does the parser of primary expressions |
| Parsing.Parser.List | lib/Parser/Parser.cpp:470-498 | and the loop over subscripts and arguments |
| Printing.ParsePrinted | lib/Program/Program.cpp:720-752 | lexing and parsing what dump prints yields the same expression and uses all text |
| Printing.ParseSpare | lib/Parser/Parser.cpp:168-216 | an infix tree written with only the parentheses it needs is read back: products before sums, each from the left |
| Printing.ConstExactly | lib/Parser/Parser.cpp:85-92 | a constant comes back exactly when it fits an int |

## Left out

- LLVM code generation, the JIT, object files, timing and targets; only the offset formula and the meaning of loops and stores are used.
- The auto-tuning search, the command-line drivers, diagnostics, hashing and pretty-printed numbers.
- Statement-level printing and parsing: dump writes `0..N` for a loop, which the lexer reads as a float literal.
- Parser error recovery, let and var clauses, pragmas, and float and string literals: the parser of the model fails where the source reports an error and goes on.
- Floating-point rounding, NaN and 64-bit wrap-around. Arithmetic is over `int` and `real`; 32-bit limits are explicit in the interval analysis and in parsed integers.
- The meaning of a range-if is the half-open range of its declaration in include/bistra/Program/Program.h; the LLVM lowering joins the two tests with Or.
- A call is an entry in a trace; what it does to memory is not part of this model.
- Memory is indexed by subscripts, and the lanes of a vector access are consecutive in the last one; `Layouts` connects that to flat buffers for in-range accesses.
- Generated loop names. Loops are identities, and names matter only in the bytecode.
- Parts of a program are values; scopes whose list is edited and the handles of `Handles` are heap objects. Rewiring operands inside simplifyExpr and inside vectorizeExpr is therefore modelled on values, and so is the freeing of removed nodes.
- hoistLoads on a load whose subscript holds another load that is hoisted as well: the source uses the inner load after it is freed, and the model asks for bodies without such loads.
- Programs with vector index expressions: cloning makes them scalar (lib/Program/Program.cpp:827-830), so the theorems ask for scalar ones. Vector loads, stores and broadcasts are covered.
- The `levels` parameter of fuse, which the source counts down and never tests.
- The whole-program writer and reader of the bytecode are functions over bytes; the streams, the id tables and the header are also classes with methods.
- Range-ifs inside a bytecode program, whose start the writer repeats in place of the end; `Records.StmtBack` says when a record survives.
- Entries of the cost heatmap for inner nodes: the methods return the cost of the node they are given.
- PeelLoop: its contract does not promise a well-formed scope for k = 0 or k = End, because the code leaves an empty loop there (`Peeling.PeelAllIsIllFormed`).
- KnownRangeSound: asks for Max-free expressions, because the interval of Max is wrong (`Ranges.MaxRangeExactly`).
- FusePreserves: asks that conflicting accesses be separated in some dimension, because the dependence test does not (`Dependence.EqualsExactly`, `Pitfalls.FuseEqualsUnsound`).
- WidenPreserves: asks that every store use the loop index (`Pitfalls.IndexFreeStoreExactly`), and that the stores leave the answers of the ifs in the loop as they are (`KeptGuards.GuardedStoreExactly`, `KeptGuards.GuardNotKept`).
- VectorizePreserves: asks that the stores leave the answers of the ifs in the loop as they are (`KeptGuards.GuardedStoreExactly`), and that the last subscript of every store step by one: additions only with the index once, or a polynomial with coefficient one (`Pitfalls.VectorStoreExactly`, `Strides.VectorizeExactly`, `Strides.ProductAccepted`).
- VectorizeExactly: speaks of subscripts that are affine in the index (i*i steps by one between 0 and 1 only, so whether a loop over it survives depends on its length), of stores that do not read the buffer they store to (A[i*3] = A[i*3] + 0.0 survives), and, for an accumulated value that uses the index, of steps other than zero (with i*0 all iterations add to one element, and what they add may cancel out).
- VectorStoreExactly: a store whose last subscript does not use the index does not read the buffer it stores to.
- PromotePreserves: asks for at most one store per buffer in a promoted body (`Promotion.TwoStoresExactly`).
- SimplifyPreserves: speaks of runs without a division by zero and of ifs that are decided rightly (`SimplifyExpr.ZeroQuotientExactly`, `StmtPasses.IfRemovalExactly`).
- HoistCost: the scopes that are passed are loops; the exact case of a guard is `Estimate.SwapCostExactly`.
- RoundTrip: speaks of programs without range-ifs and string constants, with fields within their written widths (`Records.ExprBack`, `Records.StmtBack`); how a float becomes 32 bits is a parameter.
- ParsePrinted: speaks of integer expressions whose names are not reserved and stand for one thing each, and of constants that fit an int (`Printing.ConstExactly`).
- EqualsExactly: where overlapping ranges start at different values, whether they meet depends on how the dimensions share their indices, and is not decided.
- EqualsMeans: says exactly what Equals means in values where every use of an index counts; for a use that does not (i*0, or below a minimum) the code still answers SomeDep, and `Dependence.EqualsIffAligned` is stated with the uses.
