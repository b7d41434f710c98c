# Verification of Pequin's compiler and prover algorithms

Pequin compiles C programs to arithmetic constraints over a prime field and runs a prover that fills in the values of
their variables.  This project models, in Dafny, the parts of it whose correctness is an argument about all inputs, and
proves those arguments.  `dafny verify dfyconfig.toml` checks everything.

- **Loop flattening** (`LoopNest`, `StateMachine`, `Flattening`, `FlatteningGuard`, `FlatteningProof`, `Flattener`,
  `CsrProduct`).  A small C with assignments, `if`, blocks, the three loops, `break` and `continue`, with the loop and
  jump semantics of sections 6.8.5, 6.8.6.2 and 6.8.6.3 of ISO C99; the list of `if (state == k)` blocks it becomes;
  the translation, the visitors that emit it, and the proof that it preserves meaning and how many passes it takes.
- **Waksman permutation network** (`Powers`, `WaksmanNetwork`, `WaksmanChain`, `WaksmanPlacement`, `WaksmanRouter`,
  `WaksmanLevel`, `WaksmanRoute`, `WakBuilder`).  The prover's router on its flat switch and wire arrays, the compiler's
  list of switches, and the proof that both are the same network.
- **Offline memory checking** (`MemoryOp`, `MemoryCheck`, `MemoryGadgets`, `MemoryTrace`, `VerifiedMemory`).  The emitted
  checks, the prover's memory, and the whole argument through the network.
- **Field gadgets** (`Field`, `Gadgets`, `SplitGadget`, `DivisionGadget`).  Field elements are integers modulo a prime;
  each gadget has a soundness side (what satisfying values mean) and a completeness side (the prover's values satisfy it).
- **Polynomial evaluation** (`PolySpec`, `PolyExpansion`, `PolyEval`, `PolyWorksheet`).  The compiler's expansion into
  monomials, the prover's stack evaluation, and worksheet lines.
- **Authenticated storage** (`AvlSpec`, `AvlTree`, `AvlResults`, `AvlScan`, `MerkleRam`, `GghHash`).  The AVL tree in a
  content-addressed store with a collision-free hash, the Merkle memory over any hash with its verified accesses, and
  the chained block hash.
- **Sorting and alignment** (`Quicksort`, `ExternalMerge`, `Lcs`).

Where code and comments disagree the model follows the code.  In the memory checks the comment at
compiler/backend/zcc_parser.py:900-906 has the cases of a new and a repeated address the other way round.

## Model

| member | source | states |
|---|---|---|
| `FlatteningProof.FlatteningPreservesMeaning` | compiler/buffetfsm/AttributedStmtVisitor.cpp:246-493 | whenever a loop nest terminates, the flattened state machine run for more passes than the nest takes backward jumps stands just past its last block with the store the nest leaves and the break guard down; with fewer passes it is still inside |
| `FlatteningProof.FinishedOnlyIfTerminates` | compiler/buffetfsm/AttributedStmtVisitor.cpp:104-129 | a machine that stands past its last block after some passes comes from a nest that terminates |
| `FlatteningProof.StatesAsCounted` | compiler/buffetfsm/AttributedStmtVisitor.cpp:219-244 | the emitted blocks are numbered 0, 1, ... and are as many as countStates says, for every nest |
| `FlatteningProof.RewriteRuns` | compiler/buffetfsm/BreakContinueRewriteVisitor.cpp:28-92 | rewritten loop-free code does what the statement does, and turns a break or continue into the state that, after the increment at the end of the block, lies behind or on the continue state |
| `FlatteningProof.RewriteBlockRuns` | compiler/buffetfsm/BreakContinueRewriteVisitor.cpp:116-152 | the guard around the children after a jumping one skips exactly what the jump skips |
| `FlatteningProof.StateRuns` | compiler/buffetfsm/AttributedStmtVisitor.cpp:438-493 | one state runs what was collected for it and then its last child, and moves on to the next state number |
| `FlatteningProof.HeadRuns` | compiler/buffetfsm/AttributedStmtVisitor.cpp:302-346 | the first state of a loop enters the body or leaves the loop as its condition says |
| `FlatteningProof.TailRuns` | compiler/buffetfsm/AttributedStmtVisitor.cpp:350-390 | the continue state goes back to the first body state or leaves the loop |
| `FlatteningProof.SimLoop` | compiler/buffetfsm/AttributedStmtVisitor.cpp:246-260 | from the first state of a loop the machine follows every execution of the loop, backward jump by backward jump |
| `FlatteningProof.SimBlock` | compiler/buffetfsm/AttributedStmtVisitor.cpp:438-493 | the same for the children of a compound statement, with a state under way |
| `Flattening.FlattenLoopShape` | compiler/buffetfsm/AttributedStmtVisitor.cpp:261-390 | the blocks of a loop are consecutive and as many as counted |
| `Flattening.FlattenBlockShape` | compiler/buffetfsm/AttributedStmtVisitor.cpp:438-493 | the blocks of a compound statement are consecutive and as many as counted, given the state under way |
| `FlatteningGuard.RewriteGuards` | compiler/buffetfsm/BreakContinueRewriteVisitor.cpp:13-26 | rewritten code sets the guard somewhere if and only if the statement has a break or continue, and mentions it only then |
| `FlatteningGuard.LoopGuards` | compiler/buffetfsm/AttributedStmtVisitor.cpp:104-129 | some state of a nest sets the guard if and only if the nest has a jump, and a state that mentions the guard sets it |
| `FlatteningGuard.NeighboursShare` | compiler/buffetfsm/AttributedStmtVisitor.cpp:219-244 | anywhere in a compound statement, a plain child whose code sets no guard stands in one state with a plain child after it |
| `StateMachine.JumpsAsPasses` | compiler/buffetfsm/AttributedStmtVisitor.cpp:104-129 | running the blocks in textual order once per pass, a run with b backward jumps ends in pass b + 1 and not before |
| `Flattener.BreakContinueRewriter.DoRewrite` | compiler/buffetfsm/BreakContinueRewriteVisitor.cpp:13-26 | with target 0 only reports whether a jump is below; otherwise also emits the translation, which sets the guard exactly if it reports a jump |
| `Flattener.BreakContinueRewriter.Traverse` | compiler/buffetfsm/BreakContinueRewriteVisitor.cpp:28-114 | emits the rewriting of one statement and leaves in foundStmt whether it was set or a jump was met |
| `Flattener.BreakContinueRewriter.TraverseCompound` | compiler/buffetfsm/BreakContinueRewriteVisitor.cpp:116-152 | saving, clearing and restoring foundStmt around the children yields the nested guards of the translation |
| `Flattener.LoopFlattener.FlattenAttributed` | compiler/buffetfsm/AttributedStmtVisitor.cpp:104-129 | the visitor emits exactly the blocks of the translation, numbered from 0, and declares the guard if and only if some block sets it, which every block that mentions it does |
| `Flattener.LoopFlattener.FlattenLoopStmt` | compiler/buffetfsm/AttributedStmtVisitor.cpp:246-390 | appends the blocks of a loop, ends at stateCnt plus the counted states, and meets the assertion on the continue state |
| `Flattener.LoopFlattener.FlattenBodyStmt` | compiler/buffetfsm/AttributedStmtVisitor.cpp:392-436 | appends the blocks of a loop body and ends on the target state |
| `Flattener.LoopFlattener.FlattenCompoundStmt` | compiler/buffetfsm/AttributedStmtVisitor.cpp:438-493 | appends the blocks of a compound statement |
| `Flattener.LoopFlattener.FlattenChild` | compiler/buffetfsm/AttributedStmtVisitor.cpp:438-493 | one child: closes, extends or opens a state as the translation does |
| `CsrProduct.PassBound` | pepper/apps/sparse_matvec_flat.c:13-28 | the flattened sparse product is finished after exactly N + K minus the number of nonempty rows passes, with the matrix-vector product in out; so N + K - 1 passes are enough if and only if K > 0 |
| `CsrProduct.ProductRuns` | pepper/apps/sparse_matvec_flat.c:19-28 | the nest itself terminates, computes the product and takes N - 1 + K minus the nonempty rows backward jumps |
| `CsrProduct.RowSumIsDense` | pepper/apps/sparse_matvec_flat.c:22-27 | summing the stored elements of a row is multiplying the dense row by the vector |
| `Powers.CeilLog2Least` | pepper/common/waksman_router.cpp:323-329 | the rounded-up logarithm is the least exponent whose power of two reaches the number |
| `WaksmanNetwork.LogSumIsSwitches` | pepper/common/waksman_router.cpp:323-330 | the sum of ceil(log2 i) satisfies S(n) = n - 1 + S(floor(n/2)) + S(ceil(n/2)) |
| `WaksmanNetwork.NumSwitches` | pepper/common/waksman_router.cpp:323-330 | the loop counts the switches of the recursive construction |
| `WaksmanNetwork.WiresSplit` | pepper/common/waksman_router.cpp:303-309 | the wires of a network are those of its level and of its two subnetworks, 2 S(n) - n in all |
| `WaksmanNetwork.EquationsDetermineOutputs` | compiler/backend/zcc_parser.py:829-847 | wires that satisfy both equations of every switch carry to the outputs exactly what the network computes |
| `WaksmanNetwork.EvalPermutes` | compiler/backend/wak.py:38-107 | whatever the switches, the outputs are the inputs in some order |
| `WaksmanChain.ChainBegins` | pepper/common/waksman_router.cpp:77-108 | sending the last output back through the bottom subnetwork starts a chain that meets the invariant |
| `WaksmanChain.LeftStep` | pepper/common/waksman_router.cpp:111-203 | a left-to-right step of the chain keeps a proper assignment to the two subnetworks and leads to the right-hand phase |
| `WaksmanChain.RightStep` | pepper/common/waksman_router.cpp:205-298 | a right-to-left step keeps it and leads to the left-hand phase |
| `WaksmanRouter.Decide` | pepper/common/waksman_router.cpp:144-158 | the side a packet leaves decides its subnetwork by its switch, which is set to straight when nothing set it before |
| `WaksmanRouter.Obey` | pepper/common/waksman_router.cpp:172-191 | the switch on the far side is set to follow, or is already set so: the assertions hold |
| `WaksmanRouter.Choose` | pepper/common/waksman_router.cpp:112-124 | the next position is the partner of the last one, or else the first unrouted one, or none |
| `WaksmanRouter.FirstPacket` | pepper/common/waksman_router.cpp:77-108 | the first packet is written where the invariant expects it |
| `WaksmanRouter.Rightward` | pepper/common/waksman_router.cpp:124-203 | routes one packet from left to right: switches, wires and packet arrays as the step of the chain says |
| `WaksmanRouter.Leftward` | pepper/common/waksman_router.cpp:219-298 | routes one packet from right to left |
| `WaksmanRouter.RouteLevel` | pepper/common/waksman_router.cpp:63-301 | the loop ends with every packet routed, every pair split between the subnetworks, and nothing written outside the level's own slices |
| `WaksmanLevel.SubnetworkMatched` | pepper/common/waksman_router.cpp:195-203 | each subnetwork receives exactly one packet of each pair on either side, and the same packets on both sides |
| `WaksmanLevel.LevelLeftOk` | pepper/common/waksman_router.cpp:138-160 | the wires behind the left switches satisfy both switch equations |
| `WaksmanLevel.LevelRightOk` | pepper/common/waksman_router.cpp:162-193 | the wires in front of the right switches do, also in width 3 where two wires are merged and one slot is written twice |
| `WaksmanLevel.SubnetworkInputs` | pepper/common/waksman_router.cpp:195-203 | what the wires feed into the subnetworks is what the router hands to them |
| `WaksmanLevel.SubnetworkOutputs` | pepper/common/waksman_router.cpp:290-298 | what it expects from them is what the right switches are fed with |
| `WaksmanRoute.SwitchesNest` | pepper/common/waksman_router.cpp:303-309 | level, top and bottom switch slices are disjoint and cover the network's slice |
| `WaksmanRoute.WiresNest` | pepper/common/waksman_router.cpp:303-309 | so are the wire slices |
| `WaksmanRoute.Route` | pepper/common/waksman_router.cpp:43-321 | for every width and every permutation the call terminates, no assertion fails, and the written switches and wires satisfy all switch equations of the network between the two packet arrays; nothing else is written |
| `WaksmanRoute.RouteLarge` | pepper/common/waksman_router.cpp:63-321 | the same for a network with subnetworks |
| `WaksmanRoute.RouteHalves` | pepper/common/waksman_router.cpp:303-320 | both recursive calls, the second of which leaves the first one's result intact |
| `WaksmanRoute.MakePackets` | pepper/common/waksman_router.cpp:31-41 | sources and destinations that match on both sides |
| `WaksmanRoute.WakRoute` | pepper/common/waksman_router.cpp:345-377 | the outputs are the inputs in the given order, the arrays satisfy every switch equation, and evaluating the network under the chosen switches yields those outputs; below width 2 nothing is written |
| `WaksmanRoute.ReorderedAt` | pepper/common/waksman_router.cpp:31-41 | every input stands at its destination |
| `WakBuilder.LinesCount` | compiler/backend/wak.py:38-107 | the list has two lines for each of the S(n) switches |
| `WakBuilder.ListIsEquations` | compiler/backend/wak.py:38-107 | the constraints of the list hold of an assignment exactly when the router's switch equations hold of its switch and wire slices |
| `WakBuilder.FirstAppearanceIsSlotOrder` | compiler/backend/zcc_parser.py:747-800 | entering the list's wires into the variable table in order of appearance, each once, gives the router's slot order |
| `WakBuilder.TableIsSlots` | compiler/backend/zcc_parser.py:747-800 | the table has one entry for each of the 2 S(n) - n wire slots |
| `WakBuilder.RouterMeetsList` | compiler/backend/zcc_parser.py:829-847 | read through that table, an array satisfies every constraint of the compiler's list exactly when it satisfies the network's equations |
| `WakBuilder.Waksman` | compiler/backend/wak.py:9-26 | builds the list of a network of width n from fresh counters |
| `WakBuilder.NetworkBuilder.BuildWak` | compiler/backend/wak.py:38-53 | appends the list of one network, patching the duplicated wire of a width-1 subnetwork, and advances both counters |
| `WakBuilder.NetworkBuilder.BuildLarge` | compiler/backend/wak.py:55-107 | the same for a network with subnetworks |
| `WakBuilder.NetworkBuilder.HookLeft` | compiler/backend/wak.py:78-89 | the left switches with their new wires |
| `WakBuilder.NetworkBuilder.HookRight` | compiler/backend/wak.py:91-102 | the right switches with theirs |
| `WakBuilder.NetworkBuilder.Distribute` | compiler/backend/wak.py:86-102 | even positions go to the top, odd ones and the last one of an odd width to the bottom |
| `MemoryCheck.MemoryChecked` | compiler/backend/zcc_parser.py:857-968 | for any reordering of a trace some values satisfy all checks if and only if it is strictly sorted by address and time and every load carries the value of the latest earlier operation on its address, or 0; then the prover's values satisfy them |
| `MemoryCheck.FirstMeans` | compiler/backend/zcc_parser.py:879-885 | the check on the first operation forces a load to carry 0 |
| `MemoryCheck.FirstFills` | compiler/backend/zcc_parser.py:879-885 | and the prover's values pass it when it does |
| `MemoryCheck.PairMeans` | compiler/backend/zcc_parser.py:951-966 | the check on a pair forces the order, and a load to carry the value before it on the same address or 0 on a new one |
| `MemoryCheck.PairFills` | compiler/backend/zcc_parser.py:951-966 | and the prover's values pass it when they do |
| `MemoryCheck.NeighboursMean` | compiler/backend/zcc_parser.py:1159-1167 | the checks on neighbours amount to the property of the whole trace |
| `MemoryCheck.LoadsCarryReordered` | compiler/backend/zcc_parser.py:1154-1167 | that property does not depend on the order in which the trace is listed |
| `MemoryTrace.ChecksAreMemory` | compiler/backend/zcc_parser.py:889-906 | for a trace in order of time in which a skipped store carries the current contents whenever it is the last operation on an address before a load of it, the checked property holds exactly when every load returns the last value stored at its address, or 0 |
| `MemoryTrace.ChecksSuffice` | compiler/backend/zcc_parser.py:889-906 | for a trace in order of time that has the checked property, every load returns the last value stored if and only if that condition on skipped stores holds; skipped stores that all carry the contents are enough |
| `MemoryTrace.BackToLast` | compiler/backend/zcc_parser.py:889-906 | an operation against the last one before it on its address: after a store, or none, reading the memory and carrying its value are the same; otherwise any two of the three facts, the earlier one reads, the later one reads, the later one carries, give the third |
| `MemoryTrace.SkipHidesStore` | compiler/backend/zcc_parser.py:1105-1127 | the condition can fail: here a skipped store hides the store before it from a load, and the checks still hold |
| `MemoryTrace.Memory.Get` | pepper/libv/computation_p.cpp:787-812 | returns and records the current contents, 0 for an unwritten address |
| `MemoryTrace.Memory.Put` | pepper/libv/computation_p.cpp:814-885 | a put of either branch stores and records a store exactly when its condition selects the branch, and otherwise records a skipped one with the current contents; the memory stays that of the trace if and only if it is not an executed false-branch put whose target, left as it was, holds another value |
| `MemoryTrace.RecordedTracesPass` | pepper/libv/computation_p.cpp:787-885 | every recorded trace, once sorted, passes the checks |
| `VerifiedMemory.CheckedTraceReads` | compiler/backend/zcc_parser.py:1137-1167 | given wires that satisfy the equations of every switch, and variables that satisfy all checks, every load of the input trace returned the last stored value if and only if the skipped stores that loads look back to carry the contents |
| `MemoryGadgets.PairConstraintsMean` | compiler/backend/zcc_parser.py:951-966 | the constraints of a pair, those of its comparisons included, force its order and what its load carries, for operations within their declared widths |
| `MemoryGadgets.FirstConstraintsMean` | compiler/backend/zcc_parser.py:879-885 | the constraints on the first operation force a load to carry 0 |
| `MemoryGadgets.ConstraintsForceOrder` | compiler/backend/zcc_parser.py:1158-1167 | all of them together force the outputs to be sorted and every load to carry the latest value |
| `VerifiedMemory.ConstraintsVerifyMemory` | compiler/backend/zcc_parser.py:1137-1167 | the same from the equations of every switch and the raw constraints of the checks, those of their comparisons included |
| `MemoryGadgets.FillConstraints` | compiler/backend/zcc_parser.py:1158-1167 | outputs that are sorted, with loads that carry the latest value, satisfy all of them for the values that the prover computes |
| `VerifiedMemory.RouteRecorded` | pepper/common/waksman_router.cpp:345-377 | a recorded trace routed by address and time satisfies the equations of every switch and all checks |
| `VerifiedMemory.RouteAndFill` | pepper/common/waksman_router.cpp:345-377 | and the raw constraints inside the comparisons, for operations within their declared widths |
| `Field.ProductZero` | compiler/backend/zcc_parser.py:477-520 | Euclid's lemma: a product is zero modulo a prime only if a factor is |
| `Field.BezoutInverse` | pepper/libv/computation_p.cpp:1347-1353 | the Bezout coefficient is the inverse of a nonzero element |
| `Gadgets.NotEqualForces` | compiler/backend/zcc_parser.py:590-611 | the constraints leave the target 1 when the operands differ in the field and 0 otherwise |
| `Gadgets.ComputeNotEqual` | pepper/libv/computation_p.cpp:1331-1355 | the prover's values satisfy them |
| `Gadgets.LessThanForces` | compiler/backend/zcc_parser.py:477-520 | for any field elements the constraints confine the difference to N bits and the target to its sign |
| `Gadgets.LessThanMeans` | compiler/backend/zcc_parser.py:477-520 | with p > 2^N the target is 1 exactly when x < y |
| `Gadgets.WidthSuffices` | compiler/backend/zcc_parser.py:441-464 | for every pair of integer types or constants the chosen width N bounds the difference by 2^(N-1) |
| `Gadgets.WidthLeast` | compiler/backend/zcc_parser.py:441-464 | and it is the least for numbers of the counted bits: some pair of them differs by more than one bit less holds |
| `Gadgets.SignedBitsSuffice` | compiler/backend/zcc_parser.py:2028-2040 | the number of bits counted for a type or constant holds every value of it |
| `Gadgets.SignedBitsLeast` | compiler/backend/zcc_parser.py:441-449 | and no fewer do, except for the constant 0: some value does not fit one bit less |
| `DivisionGadget.DivisionWidths` | compiler/backend/zcc_parser.py:633-645 | the comparisons of a division with zero take the bits of the operand, two at least, and that of magnitudes one more |
| `Gadgets.LessThanDecides` | compiler/backend/zcc_parser.py:466-475 | the emitted comparison decides x < y |
| `Gadgets.ComputeLessThan` | pepper/libv/computation_p.cpp:390-451 | the prover's bits and flags satisfy the constraints modulo every p, and the target is the comparison |
| `SplitGadget.SplitForces` | compiler/backend/zcc_parser.py:672-713 | any solution stands for a number of N bits and is, bit by bit, its two's-complement form |
| `SplitGadget.SplitUnique` | compiler/backend/zcc_parser.py:672-713 | with p > 2^N an in-range input has exactly one solution, its two's-complement form |
| `SplitGadget.ComputeSplit` | pepper/libv/computation_p.cpp:340-388 | the prover's loop produces that form, and leaves nothing over exactly for in-range inputs |
| `DivisionGadget.QuotientUnique` | pepper/libv/computation_p.cpp:1371-1381 | the truncating quotient is the only one whose remainder is below the divisor and has the sign of the dividend (section 6.5.5 of ISO C99) |
| `DivisionGadget.DivisionForces` | compiler/backend/zcc_parser.py:613-670 | with p above the product bound, any solution is the truncating quotient and remainder; with a zero divisor the remainder is 0 |
| `DivisionGadget.ComputeDivision` | compiler/backend/zcc_parser.py:2066-2131 | the worksheet's values are the truncating quotient and remainder, or 0 and 0 for a zero divisor, and satisfy all constraints |
| `PolySpec.ComputedIsValue` | pepper/libv/computation_p.cpp:216-302 | the prover's evaluation of a well-formed expression is its value |
| `PolyExpansion.ExpandedSum` | compiler/backend/zcc_parser.py:1290-1337 | what the expansion of every well-formed expression sums to, groups by recursion: a term without a factor of empty expansion gives its signed product, any other the product, without its sign, of the factors after the last such one, and 0 if that is its last factor |
| `PolyExpansion.TermAgrees` | compiler/backend/zcc_parser.py:1300-1335 | term by term, where the groups in it agree: the expansion has the value of the term if and only if no factor has an empty expansion, or the last one has, or the product of those after the last such factor is 0 |
| `PolyExpansion.EvaluatorsDiffer` | compiler/backend/zcc_parser.py:1290-1392 | the whole expression, where its groups agree: compiler and prover differ by exactly the sum of those products, so they agree if and only if it is 0 |
| `PolyExpansion.ExpandedIsValue` | compiler/backend/zcc_parser.py:1290-1337 | the sum of the expansion is the value of every expression in which each term that has a factor with an empty expansion ends with one |
| `PolyExpansion.KeptFrom` | compiler/backend/zcc_parser.py:1300-1335 | that condition, pair by pair: after a factor with an empty expansion and another factor, the term has a factor with an empty expansion again |
| `PolyExpansion.EvaluatorsAgree` | compiler/backend/zcc_parser.py:1290-1392 | and there both evaluators agree |
| `PolyExpansion.VanishingFactorForgotten` | compiler/backend/zcc_parser.py:1300-1335 | an expression on which they do not: ( x - x ) * y expands to y |
| `PolyExpansion.SignForgotten` | compiler/backend/zcc_parser.py:1312-1325 | the sign is lost with the factor: - ( x - x ) * y expands to y as well |
| `PolyExpansion.AddTermValue` | compiler/backend/zcc_parser.py:1339-1360 | merging like terms and dropping zero ones keeps the sum |
| `PolyExpansion.ExpandedCollects` | compiler/backend/zcc_parser.py:1339-1360 | in every expansion the variables of a term ascend and no two terms have the same variables in whatever order, so like terms are merged |
| `PolyExpansion.MultiplyAllValue` | compiler/backend/zcc_parser.py:1304-1310 | the products of all pairs of terms sum to the product of the sums |
| `PolyExpansion.ProductTermValue` | compiler/backend/zcc_parser.py:1362-1392 | a product of terms, or none when its constant is 0, has the product of the values |
| `PolyEval.ExpandPolynomial` | compiler/backend/zcc_parser.py:1290-1337 | reading tokens up to the matching parenthesis yields that expansion, with like terms merged, for every balanced stream |
| `PolyEval.ComputePoly` | pepper/libv/computation_p.cpp:216-302 | reading tokens up to the end leaves the prover's value in its temporary, within the stack of temporaries, and every lower temporary as it was |
| `PolyWorksheet.LineHolds` | compiler/backend/zcc_parser.py:2411-2450 | a worksheet line with a fresh target satisfies its own expanded constraint A * B + C = 0 |
| `PolyWorksheet.ConstraintInField` | compiler/backend/zcc_parser.py:1255-1277 | a constraint that holds over the rationals holds for their images in the field |
| `PolyWorksheet.Converted` | pepper/common/utility.cpp:244-255 | the conversion yields the image of a rational whose denominator is invertible |
| `PolyWorksheet.LineInField` | compiler/backend/zcc_parser.py:2411-2450 | together: the prover's value of a fresh target, converted into the field like the other variables, satisfies the emitted A * B + C = 0 modulo the prime |
| `AvlSpec.InsertCorrect` | pepper/include/avl_tree.cpp:521-554 | an accepted insertion keeps a search tree ordered, balanced and within the depth limit, and adds exactly the requested value to the key's values |
| `AvlSpec.InsertBalances` | pepper/include/avl_tree.cpp:323-365 | a subtree made taller leans to one side, so one rotation restores the balance |
| `AvlSpec.InsertIsListInsert` | pepper/include/avl_tree.cpp:218-245 | inserting into the tree is inserting into the sorted list of its entries |
| `AvlSpec.InsertHeight` | pepper/include/avl_tree.cpp:29-146 | rotations never make a tree taller than its old height or the new path |
| `AvlSpec.SearchFinds` | pepper/include/avl_tree.cpp:218-245 | a search ends at the key's node exactly when the tree has the key |
| `AvlSpec.AcceptedMeans` | pepper/include/avl_tree.cpp:521-554 | which insertions are accepted: for a key that is there, exactly those of a value it lacks while it has room; of a new key all, unless the tree has its full height |
| `AvlSpec.RoomForKeys` | pepper/include/avl_tree.cpp:533-545 | with fewer than 376 keys every new key is accepted |
| `AvlSpec.BalancedNodes` | pepper/include/avl_tree.cpp:533-545 | a balanced tree has at least the Fibonacci-like number of nodes of its height, 376 at the depth limit |
| `AvlTree.OlderRootsStay` | pepper/include/avl_tree.cpp:320-322 | a root denotes its old tree after any later puts |
| `AvlTree.DenotesOnce` | pepper/include/avl_tree.cpp:218-245 | a root denotes at most one tree |
| `AvlTree.RotateLeftLeft` | pepper/include/avl_tree.cpp:29-40 | the node returned represents the rotated tree with exact heights, in a store that only grew |
| `AvlTree.RotateRightRight` | pepper/include/avl_tree.cpp:53-64 | the same for its mirror image |
| `AvlTree.RotateLeftRight` | pepper/include/avl_tree.cpp:77-105 | the same for the double rotation |
| `AvlTree.RotateRightLeft` | pepper/include/avl_tree.cpp:118-146 | and its mirror image |
| `AvlTree.CopyValue` | pepper/include/avl_tree.cpp:148-166 | adds the value unless it is present or the node is full, and says so |
| `AvlTree.FindPath` | pepper/include/avl_tree.cpp:218-245 | the path holds, node by node, the subtrees a search visits, and the key is found exactly when it is there |
| `AvlTree.RecomputePath` | pepper/include/avl_tree.cpp:323-365 | relinking and rotating from the deepest node up yields a root that denotes the tree after insertion |
| `AvlTree.SearchTree.Insert` | pepper/include/avl_tree.cpp:521-554 | reports success for a key that is there exactly if it lacks the value and has room, and for a new key whenever the tree is below full height or has fewer than 376 keys; then the root denotes the new tree and the contents gain exactly the requested value, otherwise nothing changes; the store only grows |
| `AvlScan.PathSplitsOrder` | pepper/include/avl_tree.cpp:270-318 | a path splits the entries into those before, in and after its last subtree |
| `AvlScan.FindNextBelow` | pepper/include/avl_tree.cpp:270-295 | moves to the leftmost node of the right subtree, if there is one |
| `AvlScan.FindNextAbove` | pepper/include/avl_tree.cpp:297-309 | otherwise to the nearest ancestor whose left branch was taken |
| `AvlScan.FindNext` | pepper/include/avl_tree.cpp:311-318 | moves to the in-order successor from any path, or stays and reports that there is none |
| `AvlScan.SearchPosition` | pepper/include/avl_tree.cpp:214-245 | the entries before the end of a search path have smaller keys, those after it larger ones |
| `AvlScan.ScanReturns` | pepper/include/avl_tree.cpp:475-485 | visiting the wanted entries in order and copying what fits returns a prefix of the wanted results, and exactly the first ones that fit if no node has been emptied |
| `AvlResults.ResultsSound` | pepper/include/avl_tree.cpp:475-485 | the first results of the selected entries are values of selected keys in the order of keys |
| `AvlResults.ResultsComplete` | pepper/include/avl_tree.cpp:475-485 | and every value of a selected key is among them, unless results of keys up to it take all the room |
| `AvlScan.CopyResult` | pepper/include/avl_tree.cpp:192-203 | appends a result if there is room |
| `AvlScan.CopyResults` | pepper/include/avl_tree.cpp:205-212 | appends the values of a node as far as they fit |
| `AvlScan.FindGreater` | pepper/include/avl_tree.cpp:461-487 | every result is a value of a key above the given one, or of that key if asked for, in the order of keys; when no node has been emptied, every value of every such key is returned, or five results with keys up to it are |
| `AvlScan.FindRange` | pepper/include/avl_tree.cpp:489-519 | the same for the keys between two bounds, for all bounds with low below high, equal bounds of the same kind, and crossed exclusive bounds |
| `AvlScan.ImproperRange` | pepper/include/avl_tree.cpp:500-504 | for every other pair of bounds there is a tree on which the query returns an entry outside the range |
| `MerkleRam.Ram.constructor` | pepper/storage/ram_impl.cpp:39-46 | the least number of levels whose last one has room for all cells, a complete correct cache and the Merkle root of the memory |
| `MerkleRam.Ram.Put` | pepper/storage/ram_impl.cpp:76-80 | after any put to an address below the capacity of the last level, every cached hash is the one recomputed from memory and the root hash is the Merkle root |
| `MerkleRam.Ram.UpdateSubtree` | pepper/storage/ram_impl.cpp:154-177 | returns the hash of the subtree and caches every existing node below it |
| `MerkleRam.Ram.InvalidateHashes` | pepper/storage/ram_impl.cpp:142-146 | removes exactly the nodes on the path to the cell |
| `MerkleRam.Ram.Get` | pepper/storage/ram_impl.cpp:60-74 | the content of a cell, blank if unwritten; addresses past the size are refused, the size itself is not |
| `MerkleRam.Ram.GetSiblingHash` | pepper/storage/ram_impl.cpp:100-130 | finds the sibling's hash exactly when a cell lies below it, and then it is the recomputed one; otherwise the caller's hash stays |
| `MerkleRam.Ram.GetSiblingHashes` | compiler/Gocode/src/vericomp/merkle/merkle.go:290-296 | the siblings from the root down are all found exactly when a cell lies below each, always with a power-of-two size, and then they fold from the cell to the root hash |
| `MerkleRam.Ram.UpdateVerified` | compiler/Gocode/src/vericomp/merkle/merkle.go:272-288 | the siblings fetched before an update fold from the old cell to the old root hash and from the new cell to the new root hash |
| `MerkleRam.AccessVerified` | compiler/Gocode/src/vericomp/merkle/merkle.go:298-319 | any claimed cell and siblings that pass the check of a path have the true leaf hash, and yield the root hash of the updated memory for any new value, or at a level returned the claimed pair of hashes differs from the true pair and has the same hash |
| `MerkleRam.PathDetermined` | compiler/Gocode/src/vericomp/merkle/merkle.go:309-319 | whatever folds to the root hash is the true path, hash by hash, or collides with it at the level returned |
| `MerkleRam.OffPath` | pepper/storage/ram_impl.cpp:142-146 | nodes off the path keep their hash when a cell changes |
| `MerkleRam.PutKeeps` | pepper/storage/ram_impl.cpp:76-80 | so what the invalidation leaves in the cache is still correct and complete below |
| `MerkleRam.IndexLevel` | pepper/storage/ram_impl.cpp:90-98 | distinct nodes have distinct cache indices |
| `MerkleRam.IndexChildren` | pepper/storage/ram_impl.cpp:90-98 | nodes are numbered from the root 0, the children of node i as 2i + 1 and 2i + 2 |
| `MerkleRam.SiblingsFold` | compiler/Gocode/src/vericomp/merkle/merkle.go:309-319 | the sibling hashes of a cell fold from its leaf hash to the root, for every size |
| `MerkleRam.UpdatedFold` | compiler/Gocode/src/vericomp/merkle/merkle.go:284-287 | a write changes no hash beside its path, so the same siblings fold from the new cell to the new root |
| `MerkleRam.FullTree` | pepper/storage/ram_impl.cpp:154-159 | with a power-of-two size every node exists, so every sibling is found |
| `MerkleRam.RootLists` | pepper/storage/ram_impl.cpp:154-177 | what the root is computed from: with hashes that list their inputs it is the list of all cells, each once, in the order of addresses |
| `MerkleRam.MerkleLists` | pepper/storage/ram_impl.cpp:154-177 | the same for every node and the cells below it |
| `GghHash.HashBits` | pepper/storage/ggh_hash.cpp:103-147 | computes the fold of the compression over the chunks of length, input and final 1, whatever bits are left in the reused block |
| `GghHash.HashBlock` | pepper/storage/ggh_hash.cpp:57-92 | compresses the given prefix of the block as if it were padded with zeros; bits 19i to 19i + 18 of the result, least significant first, are the sum of row i modulo Q |
| `GghHash.SumRow` | pepper/storage/ggh_hash.cpp:78-88 | the 32-bit sum of a row is the exact sum |
| `GghHash.RowSumFits` | pepper/storage/ggh_hash.cpp:84-87 | no row sum reaches 2^32 when matrix entries are below Q |
| `GghHash.RowSumBit` | pepper/storage/ggh_hash.cpp:78-82 | a block with only bit j set has row sum the matrix entry in row i and column j |
| `GghHash.RowSumDisjoint` | pepper/storage/ggh_hash.cpp:78-82 | blocks with no common bit add up |
| `GghHash.CompressedRow` | pepper/storage/ggh_hash.cpp:78-91 | part i of the compression, read as a number, is the sum of row i modulo Q |
| `GghHash.LowBitsValue` | pepper/storage/ggh_hash.cpp:88-91 | the low n bits of a number, least significant first, denote it modulo 2^n |
| `GghHash.FillBlock` | pepper/storage/ggh_hash.cpp:113-143 | the block is the digest, the length if first, the input that fits, and the 1 if there is room |
| `GghHash.EqualDigests` | pepper/storage/ggh_hash.cpp:94-102 | distinct inputs with equal digests: returns a block that was compressed for the one and a block compressed for the other that differ and have the same compression, or one of which compresses to the initial value |
| `Quicksort.Sort` | pepper/storage/external_sort.cpp:52-78 | terminates, sorts the range and rearranges nothing else, for every total preorder |
| `Quicksort.Partition` | pepper/storage/external_sort.cpp:55-72 | splits the range strictly inside its bounds around a pivot |
| `Quicksort.ScanUp` | pepper/storage/external_sort.cpp:63 | the upward scan stops within bounds |
| `Quicksort.ScanDown` | pepper/storage/external_sort.cpp:64 | the downward scan stops within bounds |
| `Quicksort.SortAll` | pepper/storage/external_sort.cpp:80-82 | sorts a whole buffer and keeps its entries |
| `ExternalMerge.FindSmallest` | pepper/storage/external_sort.cpp:176-192 | finds the least current entry, the first of equal ones |
| `ExternalMerge.TakeFrom` | pepper/storage/external_sort.cpp:193-215 | takes the head of a chunk and refills its buffer, keeping the rest in order |
| `ExternalMerge.Merge` | pepper/storage/external_sort.cpp:144-227 | the merged output is sorted and holds exactly the entries of all chunks, for every positive buffer size |
| `ExternalMerge.ExternalSort` | pepper/storage/external_sort.cpp:229-235 | sorting the chunks and merging them sorts the whole |
| `Lcs.Neighbours` | pepper/apps/dna_align.c:69-78 | neighbouring table entries differ by at most 1 |
| `Lcs.DownOrRight` | pepper/apps/dna_align.c:69-78 | so taking right unless down is one more is taking the larger |
| `Lcs.LengthBounds` | pepper/apps/dna_align.c:46-81 | no common subsequence is longer than the table entry |
| `Lcs.WalkIsLongest` | pepper/apps/dna_align.c:83-103 | the walk along the choices picks a longest common subsequence |
| `Lcs.FillTable` | pepper/apps/dna_align.c:46-81 | every entry of both tables is right |
| `Lcs.WalkBack` | pepper/apps/dna_align.c:83-103 | the nested loops write the characters of that walk and zeros between them |
| `Lcs.Pack` | pepper/apps/dna_align.c:105-116 | moves the zeros to the end and keeps the order of the rest |
| `Lcs.Compute` | pepper/apps/dna_align.c:29-117 | for strings that do not both contain the zero character the output is a longest common subsequence in order, padded with zeros |

## Left out

- Keys and proofs of the argument system, block stores on disk, spawned programs, templates, file parsing and timing. Files are sequences, stores are maps.
- Flattening: positions and comment insertion of the source rewriter, declaration hoisting, fresh names, loops inside `if` branches (nothing else is excluded, FlatteningGuard.AcceptedMeans), unbraced jumps, and nested attributes that start machines of their own. The state variable and the break guard are kept beside the program's variables, so their freshness is not a proof obligation; the overflow of C integers is not modelled.
- WaksmanRoute.WakRoute: the order that the library sort produces is a parameter, with its inverse, and the packet arrays are sequences; the floating-point logarithms and divisions of the counts are exact.
- The emission loop of the network's constraints (compiler/backend/zcc_parser.py:815-853), which yields constraints only for switches whose two sources are both internal. The equations of all switches are a hypothesis of VerifiedMemory.CheckedTraceReads and VerifiedMemory.ConstraintsVerifyMemory; nothing is stated about the emitted set.
- MemoryCheck.MemoryChecked: the results of the comparisons are taken to be 0 or 1 in the field; that their own constraints force this is proved in module MemoryGadgets, for operations within their declared widths.
- MemoryTrace.ChecksAreMemory: requires something of skipped stores that the prover's puts keep and the emitted constraints do not enforce; MemoryTrace.ChecksSuffice shows that exactly this is needed.
- Comparison and division of rationals; the bounds on the prime are hypotheses of the gadgets.
- DivisionGadget.DivisionForces: says nothing about the quotient by zero, which C leaves undefined and the constraints leave open within its width. DivisionGadget.ComputeDivision takes the variables of quotient and remainder to be 0 before the division.
- Gadgets.WidthSuffices: the logarithm that counts the bits of a constant is exact.
- PolyEval.ExpandPolynomial: requires balanced parentheses; the exception for a missing one is not modelled. The dictionary of terms is the list of its values.
- PolySpec.ComputedIsValue: for expressions in which every term, in every group too, has a factor (PolySpec.WellFormedMeans); a sign without a factor after it has no value.
- PolyEval.ComputePoly: requires balanced parentheses and a nesting within the stack of temporaries; beyond it the code writes past the stack before it reports the error, which is not modelled.
- PolyWorksheet.LineHolds: takes the line's expressions as already split at their parentheses, where a term that has a factor with an empty expansion ends with one; PolyWorksheet.LineInField does the same.
- AVL deletion, update, `tree_find_lt`, `tree_balance` and the unbalanced insertions. Keys are integers, and the heights never come near 8 bits.
- AvlTree.SearchTree.Insert: the hash is collision-free and never the null hash; unlinked nodes stay in the store, as in the source.
- MerkleRam.Ram.Put: for addresses below the capacity of the last level; the number of cells is positive and 32-bit shifts do not overflow. Serialisation of hashes and the cache's eviction are left out.
- GghHash.HashBits: the matrix and the initial value are parameters; the length is below 2^64 and the counters do not overflow.
- ExternalMerge.Merge: no chunk is empty, because the code leaves the pointer of an empty chunk unset. Splitting the file into chunks and the byte layout of entries are left out.
- Lcs.Compute: the string lengths are parameters instead of the compiled-in constant.
- The SHA-256 and key-value code, KMP, Horspool, binary search and hash map programs, query translators and bulk index building: not part of this model.
