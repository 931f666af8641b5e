# Models of a compiler, alias analyses and a branch-record driver

This project models the parts of the repository whose behaviour is hardest to get right, in
Dafny, and proves what they are for.

- **The BrainF compiler** (`BrainF*.dfy`). `BrainFSource` gives the language a meaning one
  character at a time; `BrainFIR` is a small machine for basic blocks with phi nodes;
  `BrainFParser` is the one-pass compiler, an object whose methods append instructions at an
  insert point. The compiler is proved equal to a specification (`BrainFTranslation`), whose
  output is well formed (`BrainFShape`) and simulates the text and is simulated by it
  (`BrainFSync`, `BrainFCompiler`, `BrainFSimulation`).
- **Alias sets** (`AliasSet*.dfy`). The union-find with forwarding, reference counts, must and
  may sets and saturation: `AliasSets` specifies each operation on a value, `AliasSetTracking`
  is the mutable tracker, the other files prove what every operation keeps over whole runs, and
  `AliasSetGrowth` exactly when sets stay apart, `AliasSetInsts` what holds of instructions, and
  `AliasSetPrecise` that sets are not merged without need.
- **Address arithmetic in the basic alias analysis** (`Modular`, `Gep*.dfy`). From index
  expressions to the answer about two accesses, for every valuation of the variables, in
  wrapping arithmetic; exactly when each answer is given (`GepAnswers`) and when it is right
  (`OddMultiples`, `GepReach`); and the recursive query over a value graph with its cache
  (`AliasQuery`), which can trust that answer (`AliasTail`).
- **Several analyses asked as one** (`AliasAggregation`).
- **A thread barrier** (`ThreadBarrier`), as a state machine over all interleavings.
- **Exception tables** (`LebDecoding`, `LsdaPersonality`, `LsdaEncoding`): section 7.6 of
  DWARF 3 (Variable Length Data) and section 1.6 of the Itanium C++ ABI: Exception Handling.
- **Mangled names** (`ItaniumNames`): nested names of section 5.1 of the Itanium C++ ABI.
- **Branch records** (`LbrDevice`): the ring dump and the device that hands it out.

`dafny verify dfyconfig.toml` checks all of it.

## How the code is read

- Integers are unbounded in Dafny. Where the code wraps, the model says so: cells modulo 256,
  offsets and scales in 64-bit two's complement, addresses modulo the pointer width, 48-bit
  addresses in branch records. Run lengths in the BrainF compiler, reference counts and thread
  counters are taken not to overflow.
- Pointers of the BrainF machine are offsets into the tape; `AddressTestsAgree` relates the two
  bounds tests on offsets to the tests on wrapped addresses. Allocation is taken to succeed.
- Answers of code outside the model are parameters: the oracle of the alias sets, known bits,
  known signs and value equality in the address arithmetic, early exits and other analyses in
  the recursive query, the analyses that are combined. What is asked of each is a predicate
  (`Lawful`, `TouchesLawfully`, `OnlySame`, `Trusted`, `AllSound`). Known bits and signs are not asked of all
  valuations: the theorems are about the valuations that the facts are true of (`TrueBits`,
  `TrueOf`), and the query's about the executions that the program has (`happens`).
- In the alias sets, a set keeps its pointers as a sequence in list order, and sets have the
  numbers in which they were made, which is the order of the tracker's list.
- `Same` in `GepPointers` stands for whatever the walk looks through without changing the
  address: casts, aliases, calls that return an argument, instructions that simplify.
- The barrier's threads wake only by a broadcast. The code does not test a condition again after
  waiting, so it relies on this.
- Symbol names contain no line breaks, so `.` in a pattern matches any character.
- The third bit of mod/ref information (must alias) is carried along, also where the code
  compares whole values, but nothing is claimed about it.

## Findings

- With an empty tape the checked BrainF program still faults: the initial head is never tested
  (`CheckedNeverFaults` is an equivalence with a non-empty tape).
- Alias sets can come to overlap after a tracked pointer grows, because a must-alias set is asked
  through its first pointer only: when a later pointer grows beyond the first
  (`GrowthOfLaterPointerBreaksSets`), and when a pointer grows from an empty access, which aliased
  nothing, into a set with a larger one (`GrowthFromNothingBreaksSets`). `SafeExactly` is the exact
  condition: no live must-alias set has a pointer larger than its first.
- An instruction that does not interfere with itself, added twice, is listed in two live sets
  (`SingleExactly`). A pointer that aliases nothing, such as undef, can grow into the reach of an
  instruction and stays in another set (`TouchedBreaksSets`); `InstsApartExactly` is the condition.
- For pointers narrower than 64 bits the two constant offsets are cut to the pointer's width one
  by one but not their sum; `SumOfOffsetsIsNotCut` is an access answered not to alias itself,
  and `ConstantIsRightExactly` says when the answer is right.
- A call known by one analysis to only read and by another not to read keeps its ref bit: the
  second is only looked at where the first does not hold (`NeitherKeepsRef`).
- The barrier finishes every thread on every run only if exactly as many workers come as the
  releaser waits for: one that comes late waits for ever (`FinishesExactly`).
- The all-positive rule is right only where the difference of the addresses, as index arithmetic
  gives it, does not go around memory. Addresses that do not wrap around are not enough: in
  `IndexWrapBreaksPositive` the index wraps and the two accesses are the same. For variables as
  wide as a pointer of which at most the sign is known, `NoAliasExactly` and
  `VerdictIsRightExactly` say exactly when no value of them makes the answer wrong: when the
  modulo rule, which is tried before, applies already; in addition only for a single odd scale
  whose wrong-signed values alone would bring the accesses together (`UnitExactly` for scales of
  one and minus one), or for single bytes at one distance and two same or opposite odd scales.
- The constant offset rule has the same defect. For variables as wide as a pointer the distance is
  a constant, and `ConstantOffsetIsRightExactly` is the condition on it.
- The same-base rule compares fields and elements without regard to index arithmetic that goes
  around memory: `IndexWrapBreaksFields`. `FieldRuleInMemory` and `ElementRuleInMemory` are the
  exact conditions: on the largest power of two in the structure's size, and on single bytes.

## Model

| member | source | states |
|---|---|---|
| `BrainFParser.BrainF.Parse` | llvm/examples/BrainF/BrainF.cpp:53-63 | compilation reports success if and only if the brackets balance, an extra bracket if and only if some prefix closes more than it opens, and a missing one if and only if none does and the text ends inside a loop; the function built is then well formed (one terminator a block, one phi entry a predecessor, one definition a register, every use in scope) and equivalent to the text: for every input and every content of fresh memory each run of one is covered by a run of the other, with the same output, the same end and the same final tape |
| `BrainFParser.BrainF.Header` | llvm/examples/BrainF/BrainF.cpp:65-190 | the entry block allocates, clears and bounds the tape and puts the head in the middle; end and error blocks exist; this start is a correct partial compilation of the empty prefix |
| `BrainFParser.BrainF.ReadLoop` | llvm/examples/BrainF/BrainF.cpp:192-476 | the one-pass loop over symbols, with its recursion for brackets, builds exactly the function that the specification `CompileFrom` builds, and fails exactly when it does |
| `BrainFParser.BrainF.ReadNext` | llvm/examples/BrainF/BrainF.cpp:320-423 | the reader turns a maximal run of `+ -` or `< >`, comments included, into one symbol with the sum of its directions, keeping at most one symbol read ahead |
| `BrainFParser.BrainF.WriteOut` | llvm/examples/BrainF/BrainF.cpp:204-318 | the code written for one symbol is the specification's code for it |
| `BrainFParser.BrainF.EmitMove` | llvm/examples/BrainF/BrainF.cpp:246-276 | a move is one address computation, followed under bounds checking by the two tests, their disjunction and a branch to the error block |
| `BrainFParser.BrainF.EmitChange` | llvm/examples/BrainF/BrainF.cpp:278-290 | a change is a load, an 8-bit addition and a store at the current head |
| `BrainFParser.BrainF.EmitRead` | llvm/examples/BrainF/BrainF.cpp:209-224 | a read calls getchar, truncates and stores |
| `BrainFParser.BrainF.EmitWrite` | llvm/examples/BrainF/BrainF.cpp:226-244 | a write loads, sign extends and calls putchar |
| `BrainFParser.BrainF.BeginLoop` | llvm/examples/BrainF/BrainF.cpp:292-311 | opening a loop creates test and body blocks and the half-finished phi with the entry edge |
| `BrainFParser.BrainF.FinishLoop` | llvm/examples/BrainF/BrainF.cpp:426-467 | closing a loop adds the back edge to the phi, writes the test block and goes on in an exit block with its own phi |
| `BrainFTranslation.CompileLoop` | llvm/examples/BrainF/BrainF.cpp:292-312 | compiling a bracketed loop extends a correct partial compilation over the whole loop, for any nesting |
| `BrainFTranslation.CompileRest` | llvm/examples/BrainF/BrainF.cpp:202-470 | compiling a balanced rest ends in a complete function in step with the text at every symbol |
| `BrainFTranslation.StatusIsExact` | llvm/examples/BrainF/BrainF.cpp:426-475 | in terms of depth alone: where reading meets a bracket that closes nothing some prefix closes too much, where it meets one that is never closed none does and the text ends inside a loop, and every text read to its end balances |
| `BrainFCompiler.LoopBegun` | llvm/examples/BrainF/BrainF.cpp:292-312 | the blocks of an opened loop keep the partial compilation correct and well shaped |
| `BrainFCompiler.LoopEnded` | llvm/examples/BrainF/BrainF.cpp:426-467 | the finished phi, test and exit blocks make the loop's brackets agree with the text |
| `BrainFCompiler.ChangeEmitted` | llvm/examples/BrainF/BrainF.cpp:278-290 | the code of a run of changes moves the partial compilation past the whole run |
| `BrainFCompiler.MoveEmitted` | llvm/examples/BrainF/BrainF.cpp:246-251 | the code of a run of moves, unchecked, moves the partial compilation past the whole run |
| `BrainFCompiler.CheckedMovePlaced` | llvm/examples/BrainF/BrainF.cpp:253-274 | the tests and the continuation block after a checked move keep the partial compilation well shaped |
| `BrainFSimulation.ChangeRun` | llvm/examples/BrainF/BrainF.cpp:278-290 | a character-by-character run over merged changes adds their sum to the cell modulo 256 |
| `BrainFSimulation.MoveRun` | llvm/examples/BrainF/BrainF.cpp:246-251 | a character-by-character run over merged moves adds their sum to the head |
| `BrainFSimulation.InStep` | llvm/examples/BrainF/BrainF.cpp:202-424 | from a matched pair of states, text and machine reach a matched pair again after one symbol, in a bounded number of steps of each |
| `BrainFSimulation.CompleteIsEquivalent` | llvm/examples/BrainF/BrainF.cpp:192-476 | every complete compilation is equivalent to its text, in both directions, including runs that fault or leave the tape |
| `BrainFSimulation.CheckedNeverFaults` | llvm/examples/BrainF/BrainF.cpp:118-127 | with bounds checking no text accesses memory outside the tape on any input if and only if the tape has at least one cell; the initial head is not tested, so an empty tape faults |
| `BrainFSimulation.CompiledNeverFaults` | llvm/examples/BrainF/BrainF.cpp:246-275 | with bounds checking and a non-empty tape no run of a compiled function loads or stores outside the tape, or gets stuck on an undefined register or a phi without the edge taken |
| `BrainFIR.AddressTestsAgree` | llvm/examples/BrainF/BrainF.cpp:256-266 | the unsigned comparisons of wrapped 64-bit addresses find the same heads off the tape as the comparisons of offsets that the machine makes |
| `BrainFShape.EntryIsDominated` | llvm/examples/BrainF/BrainF.cpp:292-312 | what a block counts on is defined on every path that leads to it |
| `BrainFShape.UseIsDominated` | llvm/examples/BrainF/BrainF.cpp:439-463 | every register an instruction uses is defined earlier in its block, by its phi, or on every path from the entry |
| `BrainFShape.ConditionIsDominated` | llvm/examples/BrainF/BrainF.cpp:447-453 | the condition of a branch is defined on every path to the branch |
| `BrainFShape.IncomingIsDominated` | llvm/examples/BrainF/BrainF.cpp:303-308 | what a phi picks for an edge is defined on every path to the start of the edge |
| `BrainFShape.OneDefinition` | llvm/examples/BrainF/BrainF.cpp:246-312 | in a finished function two instructions that define the same register are the same one, and no phi defines it too |
| `BrainFSource.CloseSkipsLoop` | llvm/examples/BrainF/BrainF.cpp:400-416 | matching a bracket skips a nested loop as a whole |
| `BrainFSource.OpenOfClose` | llvm/examples/BrainF/BrainF.cpp:400-416 | the bracket found backwards from a closing one is the one it closes |
| `AliasSetTracking.AliasSetTracker.MergeSetIn` | llvm/lib/Analysis/AliasSetTracker.cpp:49-109 | merging forwards one set to the other, splices the lists and changes counts, kinds and the size counter as the specification says, on states where both sets are live |
| `AliasSetTracking.AliasSetTracker.DropRef` | llvm/include/llvm/Analysis/AliasSetTracker.h:185-189 | dropping the last reference removes the set and follows the forwarding chain |
| `AliasSetTracking.AliasSetTracker.GetForwardedTarget` | llvm/include/llvm/Analysis/AliasSetTracker.h:276-286 | following a chain shortens it and moves references from the old target to the new one |
| `AliasSetTracking.AliasSetTracker.GetAliasSet` | llvm/include/llvm/Analysis/AliasSetTracker.h:106-115 | a pointer's record is pointed at the live set its set forwards to |
| `AliasSetTracking.AliasSetTracker.AliasesPointer` | llvm/lib/Analysis/AliasSetTracker.cpp:185-220 | a must-alias set answers by its first pointer, a may-alias set by any pointer or unknown instruction |
| `AliasSetTracking.AliasSetTracker.MergeAliasSets` | llvm/lib/Analysis/AliasSetTracker.cpp:264-303 | every live set that the new location or instruction may touch is merged into the first such set |
| `AliasSetTracking.AliasSetTracker.AddToSet` | llvm/lib/Analysis/AliasSetTracker.cpp:128-164 | adding to a must-alias set checks one representative and either keeps the set or turns it into a may-alias set |
| `AliasSetTracking.AliasSetTracker.GetAliasSetForPointer` | llvm/lib/Analysis/AliasSetTracker.cpp:305-348 | saturated, known and new pointers; a known pointer that grows merges the sets it now touches |
| `AliasSetTracking.AliasSetTracker.MergeAllAliasSets` | llvm/lib/Analysis/AliasSetTracker.cpp:554-589 | saturation redirects forwarding sets and merges live ones into one new set |
| `AliasSetTracking.AliasSetTracker.AddPointer` | llvm/lib/Analysis/AliasSetTracker.cpp:591-606 | adds the location and saturates when the counter passes the threshold |
| `AliasSetTracking.AliasSetTracker.AddUnknown` | llvm/lib/Analysis/AliasSetTracker.cpp:427-454 | adds an instruction without a location to the sets it touches, or to a new one; what that keeps apart is in the rows of `AliasSetInsts` |
| `AliasSetInsts.RunKeepsInstsApart` | llvm/lib/Analysis/AliasSetTracker.cpp:222-249 | in every run none of whose states has a live must-alias set with a pointer larger than its first, an instruction touches no pointer of another live set, at its recorded size, and interferes with no instruction there; for lawful oracles that touch pointers that must alias alike and do not touch a pointer that aliases nothing for being larger |
| `AliasSetInsts.InstsApartExactly` | llvm/lib/Analysis/AliasSetTracker.cpp:318-333 | all safe runs keep instructions apart so if and only if pointers that alias nothing are not touched for being larger |
| `AliasSetInsts.TouchedBreaksSets` | llvm/lib/Analysis/AliasSetTracker.cpp:318-333 | a pointer that aliases nothing grows into the reach of an instruction of another live set and stays in its own |
| `AliasSetInsts.RunIsQuiet` | llvm/lib/Analysis/AliasSetTracker.cpp:222-249 | instructions of different live sets do not interfere, in every run and for every oracle |
| `AliasSetInsts.InstIsListed` | llvm/lib/Analysis/AliasSetTracker.cpp:427-454 | in every run an instruction is listed in some live set if and only if it was added and accesses memory; added once, it is listed in one only |
| `AliasSetInsts.SingleExactly` | llvm/lib/Analysis/AliasSetTracker.cpp:222-249 | no run lists an instruction in two live sets if and only if it interferes with itself; one that does not can be added twice |
| `AliasSetPrecise.RunIsPure` | llvm/lib/Analysis/AliasSetTracker.cpp:185-303 | sets are no coarser than they must be: as long as the tracker is not saturated, no live set has members on both sides of a division of pointers and instructions that nothing aliases, touches or interferes across, at any sizes |
| `AliasSetPrecise.SaturatesOnlyAbove` | llvm/lib/Analysis/AliasSetTracker.cpp:591-606 | a tracker saturates only when it tracks more pointers than the threshold |
| `AliasSetRefs.DropRefKeeps` | llvm/include/llvm/Analysis/AliasSetTracker.h:185-189 | removing sets along a chain keeps every count exact and removes a set only when nothing refers to it |
| `AliasSetRefs.MergeKeeps` | llvm/lib/Analysis/AliasSetTracker.cpp:81-109 | after a merge each count is again records plus forwarding sets plus one for unknown instructions, chains still end in live sets, and no other set changes |
| `AliasSetRefs.MergeHitsKeeps` | llvm/lib/Analysis/AliasSetTracker.cpp:264-280 | merging all touched sets keeps the invariant and leaves no second set that is touched |
| `AliasSetOps.FoundIsFirst` | llvm/lib/Analysis/AliasSetTracker.cpp:264-280 | sets are merged into the first of those that the query hits |
| `AliasSetOps.ForwardedKeeps` | llvm/include/llvm/Analysis/AliasSetTracker.h:276-286 | path shortening keeps counts, chains and members, and the set then forwards to the live set directly |
| `AliasSetOps.ResolveKeeps` | llvm/include/llvm/Analysis/AliasSetTracker.h:106-115 | looking up a pointer's set keeps counts, chains and members, and its record then names the live set |
| `AliasSetOps.AbsorbVisitsWhatIsThere` | llvm/lib/Analysis/AliasSetTracker.cpp:571-586 | while saturating, every set of the collected list is still there when it is visited, although references are dropped on the way |
| `AliasSetOps.MergeAllKeeps` | llvm/lib/Analysis/AliasSetTracker.cpp:554-589 | saturation keeps the invariant and leaves one live set |
| `AliasSetOps.RunKeeps` | llvm/lib/Analysis/AliasSetTracker.cpp:81-121 | in every state that pointer and instruction additions can reach: each count is exact, forwarding is acyclic and ends in a live set, nothing refers to a removed set, and the tracked pointers are exactly those added |
| `AliasSetCounter.TotalIsExact` | llvm/lib/Analysis/AliasSetTracker.cpp:53-79 | the counter is the sum of the sizes of the live may-alias sets in every run that adds only pointers, and never above it in any run |
| `AliasSetCounter.SaturationIsTotal` | llvm/lib/Analysis/AliasSetTracker.cpp:554-604 | a saturated tracker has exactly one live set, which holds every pointer ever added; an unsaturated one that only added pointers is at most at the threshold |
| `AliasSetDisjoint.RunIsDisjoint` | llvm/lib/Analysis/AliasSetTracker.cpp:185-220 | pointers in different live sets never alias, for every oracle that is symmetric, monotone and whose must-alias is a congruence, in every run none of whose states has a live must-alias set with a pointer larger than its first (pointers that alias nothing at all aside) |
| `AliasSetDisjoint.FixedIsSafe` | llvm/lib/Analysis/AliasSetTracker.cpp:305-348 | runs with one fixed size per pointer are such runs, and so disjoint |
| `AliasSetDisjoint.StepIsSafe` | llvm/lib/Analysis/AliasSetTracker.cpp:305-348 | only a growth of a tracked pointer can end the safety of a run |
| `AliasSetGrowth.SafeExactly` | llvm/lib/Analysis/AliasSetTracker.cpp:185-220 | after a run that was safe so far, whatever location comes next and whatever a lawful oracle says of it leaves disjoint sets if and only if no live must-alias set has a pointer larger than its first |
| `AliasSetGrowth.BrokenIsNotRobust` | llvm/lib/Analysis/AliasSetTracker.cpp:185-198 | from a state that breaks the condition, some lawful oracle that differs on one untracked pointer, and one more location, make two live sets overlap |
| `AliasSetGrowth.ByAddressIsLawful` | llvm/lib/Analysis/AliasSetTracker.cpp:128-148 | comparing byte ranges at fixed addresses is such an oracle |
| `AliasSetGrowth.GrowthOfLaterPointerBreaksSets` | llvm/lib/Analysis/AliasSetTracker.cpp:318-333 | a concrete run in which a later member of a must-alias set grows ends with two live sets that overlap: only the first member's size is asked |
| `AliasSetGrowth.GrowthFromNothingBreaksSets` | llvm/lib/Analysis/AliasSetTracker.cpp:58-73 | a concrete run in which the only pointer of a set grows from an empty access: two sets of the same address become one must-alias set with the smaller pointer first, and the next location is missed |
| `GepDecomposition.LinearIsExact` | llvm/lib/Analysis/BasicAliasAnalysis.cpp:221-302 | scale times variable plus offset is the value of the index for every valuation that the known bits are true of, modulo the width, also where the depth limit stops the walk |
| `GepDecomposition.LinearIsDeepest` | llvm/lib/Analysis/BasicAliasAnalysis.cpp:221-302 | the walk stops at the first value it cannot look into, or after six operations, and not before |
| `GepPointers.AdjustIsWrap` | llvm/lib/Analysis/BasicAliasAnalysis.cpp:365-369 | shifting up and arithmetically down again is two's complement in the pointer's width |
| `GepPointers.AddVariable` | llvm/lib/Analysis/BasicAliasAnalysis.cpp:498-520 | a scaled variable joins its earlier entry, is cut to pointer width and dropped at zero; the sum is kept for every valuation and no variable has two entries or a zero scale |
| `GepPointers.WalkIndices` | llvm/lib/Analysis/BasicAliasAnalysis.cpp:446-529 | the fields, constants and variables of one address computation are moved into the collected offsets without changing the address, for every valuation that the known bits are true of |
| `GepPointers.Decompose` | llvm/lib/Analysis/BasicAliasAnalysis.cpp:384-539 | base plus struct offset plus other offset plus scaled variables is the address modulo the pointer width for every valuation that the known bits are true of, also when the lookup limit stops the walk; keys are distinct and scales non-zero, and each variable is what the walk into an index of the chain stops at; the base is the underlying object and the limit is reported exactly when the chain has six or more steps |
| `GepDifference.GetIndexDifference` | llvm/lib/Analysis/BasicAliasAnalysis.cpp:1737-1771 | the result is the first sum minus the second for every valuation, in wrapping 64-bit arithmetic, without zero scales and within pointer width; if values are known to be equal to themselves, no variable has two entries |
| `GepVerdict.ConstantIsRight` | llvm/lib/Analysis/BasicAliasAnalysis.cpp:1296-1326 | without variables the four answers are right for every placement, wherever accesses wrap around, as long as the offset fits a pointer |
| `GepVerdict.ModuloDivides` | llvm/lib/Analysis/BasicAliasAnalysis.cpp:1333-1364 | the lowest set bit of the disjunction of the scales is a power of two below the pointer's modulus and divides every scale |
| `GepVerdict.ModuloIsRight` | llvm/lib/Analysis/BasicAliasAnalysis.cpp:1364-1373 | the modulo rule's no-alias holds for every valuation, wherever addresses wrap around |
| `GepVerdict.PositiveIsRight` | llvm/lib/Analysis/BasicAliasAnalysis.cpp:1339-1379 | the all-positive rule's no-alias holds for every valuation that the known signs are true of and whose difference does not go around memory |
| `GepVerdict.GapBounds` | llvm/lib/Analysis/BasicAliasAnalysis.cpp:1785-1817 | two values that differ by a constant in their own width, equally extended, are never closer than the wrap-around minimum distance, for every valuation that the known bits are true of |
| `GepVerdict.ConstantOffsetIsRight` | llvm/lib/Analysis/BasicAliasAnalysis.cpp:1773-1825 | a true result of the constant offset rule means disjoint accesses for every valuation whose difference does not go around memory |
| `GepVerdict.NoAliasIsRightExactly` | llvm/lib/Analysis/BasicAliasAnalysis.cpp:1371-1383 | about accesses a given difference apart, no alias is right if and only if the difference, cut to a pointer, keeps them apart |
| `GepVerdict.ConstantOffsetIsRightExactly` | llvm/lib/Analysis/BasicAliasAnalysis.cpp:1773-1825 | for two variables as wide as a pointer that are the same but for a constant, in every valuation that the known bits are true of: no alias is right if and only if offset plus scaled constant, cut to a pointer, keeps the accesses apart, a condition without variables |
| `GepVerdict.BoundedIsWithin` | llvm/lib/Analysis/BasicAliasAnalysis.cpp:1375-1383 | for variables narrower than a pointer: a bound on offset, scales and widths under which no valuation takes the difference around memory |
| `GepAlias.VerdictIsRight` | llvm/lib/Analysis/BasicAliasAnalysis.cpp:1296-1389 | no alias means no common byte, partial alias a common byte, must alias the same address, for every valuation that the facts are true of and all sizes, known or unknown; the two modular rules wherever addresses wrap around, the others where the difference does not go around memory |
| `GepAlias.BoundedVerdictIsRight` | llvm/lib/Analysis/BasicAliasAnalysis.cpp:1328-1389 | under the bound for narrow variables every answer is right for every valuation that the facts are true of |
| `GepAlias.ConstantIsRightExactly` | llvm/lib/Analysis/BasicAliasAnalysis.cpp:1296-1326 | with known sizes the constant-offset answer is right if and only if the offset fits a pointer or, cut to one, still keeps the accesses apart |
| `GepAlias.SumOfOffsetsIsNotCut` | llvm/lib/Analysis/BasicAliasAnalysis.cpp:1184-1185 | with 32-bit pointers, a member half the memory away and an element half the memory back from a pointer are the pointer itself; the two offsets, each cut to a pointer but not their sum, are a difference of the two that makes the access no alias of itself |
| `GepAlias.IndexWrapBreaksPositive` | llvm/lib/Analysis/BasicAliasAnalysis.cpp:1375-1379 | an element 2x+8 bytes after a pointer and the pointer itself: x is known and true not to be negative, both accesses lie flat at the same address, the index wraps around, and the all-positive rule answers no alias |
| `OddMultiples.TwoOdd` | llvm/lib/Analysis/BasicAliasAnalysis.cpp:1364-1379 | two odd scales with factors below half of memory reach every residue modulo the pointer's modulus but one, and miss that one only if the scales are the same or opposite: what the exact condition for the rules rests on |
| `GepReach.NoAliasExactly` | llvm/lib/Analysis/BasicAliasAnalysis.cpp:1328-1379 | for any list of variables as wide as a pointer that are independent and of which at most the sign is known, and known sizes: no alias is right for all their values if and only if the modulo rule applies, or the single scale is odd and only values of the wrong sign bring the accesses together, or the accesses are single bytes at the one distance that two same or opposite odd scales miss; all of this is computed from scales, signs, offset and sizes |
| `GepReach.VerdictIsRightExactly` | llvm/lib/Analysis/BasicAliasAnalysis.cpp:1328-1389 | the answer is right for all values of such variables if and only if that condition holds or the guard of the all-positive rule does not; the constant offset rule never applies to them |
| `GepReach.PointersAreRightExactly` | llvm/lib/Analysis/BasicAliasAnalysis.cpp:1173-1389 | the same about two pointers with one base: for every valuation and wherever the base is |
| `GepReach.UnitExactly` | llvm/lib/Analysis/BasicAliasAnalysis.cpp:1375-1379 | one variable of known sign with scale one or minus one: the all-positive rule's no alias is right for all its values if and only if the offset plus the first access is at most half of memory, plus one for a scale of one |
| `GepReach.OpaqueIsFree` | llvm/lib/Analysis/BasicAliasAnalysis.cpp:1344-1361 | different values that are not looked into, with facts about their signs only, are such variables |
| `GepReach.ExampleIsNotKeptApart` | llvm/lib/Analysis/BasicAliasAnalysis.cpp:1375-1379 | the failing input of the all-positive rule has such variables and does not meet the condition |
| `GepAnswers.VerdictAnswers` | llvm/lib/Analysis/BasicAliasAnalysis.cpp:1296-1389 | when each answer is given, on difference, scales, sizes and facts: must alias for no difference; partial alias for a constant that is too small; no alias for one that is not, for a remainder modulo the largest power of two in all scales that leaves room on both sides, for signs that only add to an offset that clears the access, or for two variables whose least distance, scaled, clears both; may alias otherwise |
| `GepAlias.Judge` | llvm/lib/Analysis/BasicAliasAnalysis.cpp:1296-1389 | the rules are tried in the source's order; the single pass over the variables computes the modulus and the signs; the answer is the one that the conditions call for |
| `GepAlias.AliasGep` | llvm/lib/Analysis/BasicAliasAnalysis.cpp:1173-1389 | for two computed addresses with must-alias bases, or one and its base: the returned offset and variables are the difference for every valuation that the facts are true of, the variables being those of the two chains; unless a chain is too deep the answer is the one that the conditions on them call for, and it is justified for every such valuation and placement |
| `GepFields.FieldRuleIsExact` | llvm/lib/Analysis/BasicAliasAnalysis.cpp:1087-1103 | the rule answers yes if and only if the two fields are apart for every distance between their structures |
| `GepFields.StridesDivide` | llvm/lib/Analysis/BasicAliasAnalysis.cpp:1002-1013 | every step through arrays is a multiple of the size of what lies at the end |
| `GepFields.AliasSameBase` | llvm/lib/Analysis/BasicAliasAnalysis.cpp:960-1104 | two paths of the same type from the same pointer: no alias is answered exactly when both go through arrays only, to different elements of one array or to members that the field rule keeps apart; the accesses are then apart for every valuation in which values known to differ do and in which the difference of the addresses, before it is cut to a pointer, does not go around memory |
| `GepFields.FieldPathsApart` | llvm/lib/Analysis/BasicAliasAnalysis.cpp:1062-1103 | paths to fields of structures are told apart if and only if the fields are apart for every distance between their structures |
| `GepFields.ElementPathsApart` | llvm/lib/Analysis/BasicAliasAnalysis.cpp:1017-1060 | paths to elements of one array are told apart if and only if whole elements are accessed, all indices but the last are the same, and the last are constants that differ or are known to |
| `GepFields.IndexWrapBreaksFields` | llvm/lib/Analysis/BasicAliasAnalysis.cpp:1087-1103 | different words of twelve-byte structures in an array are answered no alias, and for an index that takes the address around memory they are the same word |
| `GepFields.FieldRuleInMemory` | llvm/lib/Analysis/BasicAliasAnalysis.cpp:1087-1103 | in addresses cut to a pointer two fields are apart for every distance between their structures if and only if they lie in different parts of every block of the largest power of two that divides the structure's size |
| `GepFields.ElementRuleInMemory` | llvm/lib/Analysis/BasicAliasAnalysis.cpp:1015-1060 | in addresses cut to a pointer elements at any two different indices are apart if and only if they are single bytes an odd distance apart |
| `AliasQuery.Query.AliasCheck` | llvm/lib/Analysis/BasicAliasAnalysis.cpp:1548-1699 | every query ends on every graph, cyclic or not, because each recursing call first caches a new pair; cached answers stay; on graphs without phi nodes the answer is right in every execution of the program, if the other parts are; accesses of unknown size are never said to overlap in part; an early answer is the answer, then a cached one; a new pair is given the answer that early answers about its parts call for (`Tells`): over bases that are apart, over one base by comparison, at the same offsets, arm by arm, edge by edge, source by source, or else the best of other analyses |
| `AliasQuery.Query.Climb` | llvm/lib/Analysis/BasicAliasAnalysis.cpp:1644-1698 | after any rule fails the next is tried with the sides as they were swapped, and every answer is right in every execution of a program without phi nodes; what early answers about the parts call for is answered |
| `AliasQuery.Query.AliasComputed` | llvm/lib/Analysis/BasicAliasAnalysis.cpp:1173-1289 | no alias for a base at a negative offset and over bases that are apart; the comparison's answer over bases that are the same, unless an address is too deep; no alias over bases that are apart for these sizes and at the same offsets; the answer for bases with unknown sizes is never a partial alias, as the source asserts |
| `AliasQuery.Query.AliasSelect` | llvm/lib/Analysis/BasicAliasAnalysis.cpp:1406-1438 | arm by arm under a common condition, else both arms against the other side, and the merged answer if the first says anything |
| `AliasQuery.Query.AliasPhi` | llvm/lib/Analysis/BasicAliasAnalysis.cpp:1442-1544 | termination and the existence of a first source; the answer that all sources have, with an unknown size if the phi node may advance one, unless one is another phi node; no other cached answer changes |
| `AliasQuery.Query.AliasPhis` | llvm/lib/Analysis/BasicAliasAnalysis.cpp:1455-1487 | the asserted cache entry exists, edges are asked with no alias in it, it keeps that if they are all apart, and gets back what it had if not |
| `AliasQuery.Query.Alias` | llvm/lib/Analysis/BasicAliasAnalysis.cpp:729-750 | a cached pair is answered from the cache and leaves it as it was; any other query leaves it empty |
| `AliasQuery.MergeIsGood` | llvm/lib/Analysis/BasicAliasAnalysis.cpp:1392-1402 | merging the answers for two arms is right for the value that is one of them |
| `AliasQuery.MergeSaysMost` | llvm/lib/Analysis/BasicAliasAnalysis.cpp:1392-1402 | of all answers that follow from either of two, the merged one says most |
| `AliasQuery.NoAliasIsAnswered` | llvm/lib/Analysis/BasicAliasAnalysis.cpp:1406-1438 | on a program with two objects and a selection between two pointers into the first, whose other parts can be trusted and which has executions, the query answers that the selection and the second object are apart |
| `AliasQuery.ComparisonIsAnswered` | llvm/lib/Analysis/BasicAliasAnalysis.cpp:1237-1389 | on a program with two members of one object, whose other parts can be trusted and which has executions, the query goes on from the base to the comparison and answers that they are apart |
| `AliasTail.Tail` | llvm/lib/Analysis/BasicAliasAnalysis.cpp:1173-1389 | paths from the same pointer are compared first, then the difference; the answer is what the recursive query asks of its comparison, in every execution in which the facts are true and objects take less than half of memory, if no execution takes the difference more than half of memory away before it is cut |
| `AliasTail.TailOfPaths` | llvm/lib/Analysis/BasicAliasAnalysis.cpp:1246-1254 | the same for the comparison of paths from the same pointer |
| `AliasTail.VerdictSays` | llvm/lib/Analysis/BasicAliasAnalysis.cpp:1296-1389 | the rules are right about two places in an object that are the computed difference apart, for all sizes including unknown ones |
| `AliasAggregation.ChainAlias` | llvm/lib/Analysis/AliasAnalysis.cpp:102-110 | the first answer that is not may alias; no alias only if the places share no cell |
| `AliasAggregation.ChainConstant` | llvm/lib/Analysis/AliasAnalysis.cpp:112-119 | true exactly when some analysis says so, and then the place is never written |
| `AliasAggregation.ChainArgument` | llvm/lib/Analysis/AliasAnalysis.cpp:121-133 | covers every access through the argument and claims exactly what no analysis rules out, in spite of the early exit |
| `AliasAggregation.ChainBehaviour` | llvm/lib/Analysis/AliasAnalysis.cpp:341-353 | covers every access of the call in kind and place, and leaves exactly what no analysis rules out |
| `AliasAggregation.ThroughArguments` | llvm/lib/Analysis/AliasAnalysis.cpp:180-203 | covers whatever the call does to the place through any of its arguments, and claims exactly what an argument that is not answered apart from the place may do |
| `AliasAggregation.CallPlace` | llvm/lib/Analysis/AliasAnalysis.cpp:156-216 | if each analysis is sound, every real write or read of the place by the call has its bit set; and a bit is set if and only if nothing rules it out: an analysis of the two, what is known of the call, its arguments if it goes through nothing else that has a place, or a place that is never written |
| `AliasAggregation.NeitherKeepsRef` | llvm/lib/Analysis/AliasAnalysis.cpp:163-176 | a call known to only read by one analysis and to not read by another, which so does neither, keeps its ref bit |
| `AliasAggregation.SecondThroughArguments` | llvm/lib/Analysis/AliasAnalysis.cpp:256-298 | every dependence through the second call's arguments is claimed, and exactly those that what is known of each argument leaves possible, in spite of the early exit |
| `AliasAggregation.FirstThroughArguments` | llvm/lib/Analysis/AliasAnalysis.cpp:302-336 | every dependence through the first call's arguments is claimed, and exactly those that what is known of each argument leaves possible, in spite of the early exit |
| `AliasAggregation.CallCall` | llvm/lib/Analysis/AliasAnalysis.cpp:218-339 | if each analysis is sound and the calls touch a common cell that one of them writes, the bit for what the first call does to it is set; and, with behaviours that are not marked must alias, a bit is set if and only if nothing rules it out: an analysis of the two, what is known of either, the arguments of the second call if it only uses those, else the arguments of the first if it does |
| `ThreadBarrier.WaitForThreads.Block` | llvm/examples/ParallelJIT/ParallelJIT.cpp:166-191 | the assertion on the counter holds; counting the thread and releasing or not as the counters say |
| `ThreadBarrier.WaitForThreads.ReleaseThreads` | llvm/examples/ParallelJIT/ParallelJIT.cpp:196-216 | releases when enough threads are counted, else records how many to wait for |
| `ThreadBarrier.BlockIsTwoMoves` | llvm/examples/ParallelJIT/ParallelJIT.cpp:166-191 | the machine's two moves of a worker that has the mutex, which nobody can come between, do what the call does |
| `ThreadBarrier.ReleaseIsOneMove` | llvm/examples/ParallelJIT/ParallelJIT.cpp:196-216 | the machine's move of a releaser that has the mutex does what the call does |
| `ThreadBarrier.CounterHolds` | llvm/examples/ParallelJIT/ParallelJIT.cpp:174-175 | for any threads calling either operation with any numbers and under every interleaving, the asserted counter property holds and one thread at most has the mutex |
| `ThreadBarrier.NobodyPassesEarly` | llvm/examples/ParallelJIT/ParallelJIT.cpp:164-233 | with as many workers as the one releaser waits for, under every interleaving nobody passes before all workers were counted and the releaser has called |
| `ThreadBarrier.NoDeadlock` | llvm/examples/ParallelJIT/ParallelJIT.cpp:164-233 | in every such state some thread can move unless all are done |
| `ThreadBarrier.EveryRunEnds` | llvm/examples/ParallelJIT/ParallelJIT.cpp:164-233 | no run is longer than six moves a thread, and a run that cannot go on has finished every thread |
| `ThreadBarrier.CanFinish` | llvm/examples/ParallelJIT/ParallelJIT.cpp:164-233 | from every such state all threads can finish |
| `ThreadBarrier.SomeRunIsStuck` | llvm/examples/ParallelJIT/ParallelJIT.cpp:164-233 | with fewer or more workers than the releaser waits for, some run ends with a thread waiting for ever |
| `ThreadBarrier.FinishesExactly` | llvm/examples/ParallelJIT/ParallelJIT.cpp:164-233 | every run that cannot go on has finished everyone if and only if there are exactly as many workers as the one releaser waits for |
| `LebDecoding.ReadULEB128` | llvm/examples/ExceptionDemo/ExceptionDemo.cpp:335-351 | decodes any encoding in up to four bytes to its value and moves past it, with shifts that fit 32 bits |
| `LebDecoding.ReadSLEB128` | llvm/examples/ExceptionDemo/ExceptionDemo.cpp:359-379 | the same with the sign of the last group extended to 64 bits |
| `LebDecoding.EncodeULEB128` | llvm/examples/ExceptionDemo/ExceptionDemo.cpp:335-351 | every number that fits has an encoding of each length with room for it that denotes the number, which with the reader is a round trip |
| `LebDecoding.EncodeSLEB128` | llvm/examples/ExceptionDemo/ExceptionDemo.cpp:359-379 | the same for signed numbers |
| `LsdaPersonality.HandleActionValue` | llvm/examples/ExceptionDemo/ExceptionDemo.cpp:502-582 | the position of the first action of the chain whose type is the thrown one, through the encoded displacements |
| `LsdaPersonality.ChainFollows` | llvm/examples/ExceptionDemo/ExceptionDemo.cpp:528-579 | an action chain starts where it is entered, goes on where each action says, and ends where one says so |
| `LsdaPersonality.HandleLsda` | llvm/examples/ExceptionDemo/ExceptionDemo.cpp:596-764 | on any byte encoding of call-site, action and type tables the answer is the lookup in the abstract tables |
| `LsdaPersonality.PhasesAgree` | llvm/examples/ExceptionDemo/ExceptionDemo.cpp:700-756 | the search phase reports a handler exactly when the cleanup phase installs a positive selector, and exactly when the first site in range has a matching action; the selector is the position of the first one; the cleanup phase installs a landing pad if and only if some site is in range, that of the first one, with selector zero if and only if the exception is foreign or nothing in the site's chain matches |
| `LsdaPersonality.SelectorIsFirst` | llvm/examples/ExceptionDemo/ExceptionDemo.cpp:528-579 | a positive selector names a matching action and none before it matches; zero means that none matches |
| `LsdaPersonality.FindSiteIsFirst` | llvm/examples/ExceptionDemo/ExceptionDemo.cpp:653-691 | sites without a landing pad are passed over; the one found is the first in range |
| `LsdaEncoding.EncodeIsEncoding` | llvm/examples/ExceptionDemo/ExceptionDemo.cpp:625-662 | a concrete encoder's bytes are an encoding of every table that fits |
| `LsdaEncoding.HandleEncoded` | llvm/examples/ExceptionDemo/ExceptionDemo.cpp:596-764 | encoding tables and running the routine on the bytes is looking in the tables |
| `ItaniumNames.ParseName` | llvm/utils/extract_symbols.py:224-242 | the three patterns split the string into a name and the rest, and fail exactly on an E and on strings too short to be split |
| `ItaniumNames.SkipItaniumTemplate` | llvm/utils/extract_symbols.py:246-276 | ends on every string and does what the recursive specification does |
| `ItaniumNames.ParseItaniumNestedName` | llvm/utils/extract_symbols.py:280-318 | ends on every string and does what the recursive specification does |
| `ItaniumNames.NameRead` | llvm/utils/extract_symbols.py:226-231 | a length and an identifier that does not start with a digit are read back whatever follows |
| `ItaniumNames.PartRead` | llvm/utils/extract_symbols.py:224-236 | so are constructors and destructors |
| `ItaniumNames.OperatorRead` | llvm/utils/extract_symbols.py:237-241 | anything else is a name up to the E that ends the nesting, or up to the last character if there is none |
| `ItaniumNames.NestedRead` | llvm/utils/extract_symbols.py:286-296 | a substitution and qualifiers at the start are skipped and nothing else is |
| `ItaniumNames.ArgsSkipped` | llvm/utils/extract_symbols.py:246-276 | printed template arguments, nested to any depth, are skipped up to their end and no further, and are found too complex if and only if there is an expression among them |
| `ItaniumNames.NestedParsed` | llvm/utils/extract_symbols.py:280-318 | parsing a printed nested name gives its parts with the right template flags and the untouched rest, or finds it too complex, exactly if there is an expression in it |
| `LbrDevice.ReadLbr` | module_lbr_chardev/module/lbr_tools.h:200-245 | each place of the dump is filled, oldest first: place j holds ring entry (tos + 1 + j) mod 32 |
| `LbrDevice.DumpIsRotation` | module_lbr_chardev/module/lbr_tools.h:200-245 | each ring entry is dumped at exactly one place |
| `LbrDevice.DumpedAddresses` | module_lbr_chardev/module/lbr_tools.h:138-148 | the addresses in a dumped entry are the low 48 bits of the registers |
| `LbrDevice.Device.Read` | module_lbr_chardev/module/lbr_dumper.c:96-112 | one read delivers the bytes from the index on, from the start again at the end, as many as are asked for up to the end of the buffer, and moves the index past them |
| `LbrDevice.Device.Ioctl` | module_lbr_chardev/module/lbr_dumper.c:71-84 | after a dump, reads of any lengths deliver the ring, oldest entry first, over and over |
| `LbrDevice.Device.Session` | module_lbr_chardev/module/lbr_dumper.c:71-112 | a dump followed by any reads: byte j of all they deliver is the byte of the ring entry that many places after the oldest, and there are as many as the reads deliver each |
| `LbrDevice.DeliveredSize` | module_lbr_chardev/module/lbr_dumper.c:96-112 | a sequence of reads delivers the sum of what its reads do, on lengths and index alone |
| `LbrDevice.SomethingDelivered` | module_lbr_chardev/module/lbr_dumper.c:96-112 | every read that asks for something gets something |
| `LbrDevice.ReadsDeliverTheDump` | module_lbr_chardev/module/lbr_dumper.c:96-112 | any reads of any lengths deliver a prefix of the dump repeated for ever |
| `LbrDevice.StreamIsTheRing` | module_lbr_chardev/module/lbr_dumper.c:71-112 | each byte of the stream after a dump is the byte of the ring entry that many places after the oldest |

## Left out

- SafeExactly: stated for states whose counter is not above the threshold, as in every run that adds only pointers; above it the next pointer saturates the tracker into one set.
- AliasCheck: rightness is stated for graphs without phi nodes; with them only termination, the cache and the absence of partial answers for unknown sizes are, because speculation about phi nodes needs a meaning across loop iterations and a reachability analysis that is not part of this model.
- PositiveIsRight: for differences that do not go around memory; exactly when the answer is right otherwise is in `VerdictIsRightExactly`, for variables as wide as a pointer that are independent and of which at most the sign is known, and known sizes. Where more is known of them, or they are extended, only this and `BoundedIsWithin` are stated.
- ConstantOffsetIsRight: for differences that do not go around memory, like the rule before, with `ConstantOffsetIsRightExactly` for variables as wide as a pointer; negating or taking the magnitude of the smallest 64-bit number, which is undefined in the source, is mathematical here.
- AliasSameBase: for differences that do not go around memory, with `FieldRuleInMemory` and `ElementRuleInMemory` for exactly when its two rules hold without that.
- CallCall: exactness is stated for behaviours not marked must alias, as all the source's are.
- ReadULEB128: encodings in at most four bytes; with a fifth the source shifts a 32-bit integer beyond its width, which is undefined.
- ReadSLEB128: encodings in at most four bytes, for the same reason.
- HandleActionValue: type entries of four unsigned bytes, as in the next line.
- HandleLsda: call sites and type entries of four unsigned bytes and numbers in at most four bytes; other pointer encodings, a landing pad base and filters are not modelled, and action chains end.
- LinearIsExact: operators that keep the width, with a constant on the right; sign and zero extensions are not looked through, and the no-wrap flags that only matter for them are not kept.
- Decompose: index expressions as wide as a pointer.
- The rule for a base at a negative offset and the same-offset rule for may-alias bases in `aliasGEP`, except as trusted answers in `AliasQuery`: they rest on what inbounds means and on object sizes.
- Tags and access kinds of alias sets, their deletion and copying of values, and bulk addition of another tracker: the invariants do not depend on the first, and the second are maintenance outside a run.
- Value simplification, capture analysis, known bits, object sizes and library information: other libraries, taken as parameters.
- The Must bit's meaning, and mod/ref queries for loads, stores, fences and captured calls: precision, or one alias query each.
- The shuffle/select fuzz generator: straight-line evaluation that would only add easy members.
- Printing of operators in the round trip of mangled names: the parser's own text calls this part imprecise; `OperatorRead` says what it reads.
- The branch-shadow experiment, enclave code, kernel threads, register instructions and ioctl plumbing: reads of registers are array reads; a device without a buffer is not modelled.
- Drivers, printers, pass registration and JIT examples: declarations and input or output.
