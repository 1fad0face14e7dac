# Verified models of the Micronix toolchain

This project models the parts of the repository whose correctness is least
obvious and proves what they promise. Each module stands for one component:

| module | component |
|---|---|
| `Common` | bytes, words and wrap-around |
| `Heap`, `HeapRun`, `HeapBand`, `HeapExamples` | the HI-TECH C allocator: a ring of headers, lazy merging, growth by `sbrk`, `realloc` over its own data; its clients; sizes whose growth wraps; runs on which it fails |
| `Asm`, `Peephole` | emitted Q/C code with a step semantics, and the streaming jump peephole |
| `Stmt`, `StmtLabels`, `StmtProof`, `StmtPeep` | the Q/C statement parser's labels and jumps, and the parser combined with the peephole |
| `Expr`, `ExprLaws`, `ExprGen`, `ShortCircuit` | Q/C expression and assignment code for HL, DE and the stack, and the short-circuit operators |
| `Program` | statements, expressions and peephole together: the compiler end to end |
| `TypeLists`, `TypeTable` | the Q/C compiler's reference-counted, hash-consed type table |
| `FreeList`, `Ownership`, `FileSystem` | the Micronix file system library: free list, block mapping, freeing, file contents |
| `Quicksort` | the C library's `qsort` with its twenty-entry stack |
| `BlockCopy` | LDIR and LDDR in the Z80 emulator, stopped and resumed under cycle budgets |
| `CpmFile` | byte streams over CP/M's 128-byte records |
| `IntelHex` | the Intel HEX writer and reader |
| `DeltaImage` | IMD disk images with their delta file |

State that the C code updates in place is held in classes whose methods follow
the source's steps; what they do is stated through functions and predicates on
values, and the theorems are about those. `dafny verify dfyconfig.toml` checks
everything.

Several properties one would expect turn out to be false of the code. For each
the exact condition is proved, and where a short example exists it is given:

- `malloc` of more than 65530 bytes wraps the size (`Heap.RequestHonoured`), and
  from 65275 to 65530 one growth is not enough (`Heap.GrowthSuffices`). Up to
  65529 it is of no bytes: a request that does not fit, with the stack not near,
  is searched for without end or breaks the ring (`HeapBand.Malloc`,
  `HeapExamples.SearchesForEver`, `HeapExamples.FirstCallBreaksRing`).
- A failing `malloc` can merge away the header its search pointer names
  (`Heap.Allocator.Malloc`, `HeapExamples.SearchPointerIsLost`), after which two
  live blocks can overlap (`HeapExamples.LiveBlocksOverlap`).
- `realloc` loses the first cell when the split header lands on it
  (`Heap.Allocator.Realloc`, `Heap.LandingIsFirstFit`,
  `HeapExamples.FirstCellIsLost`).
- A loop whose body is just `break` jumps to a label the peephole removed
  (`StmtPeep.SafeIffNoBareBreak`, `StmtPeep.WhileBreakExample`).
- `x || y == z` has the value of x after an unrelated comparison, whose test is
  taken for x's own; the failing expressions are exactly characterised (`ShortCircuit.Or`, `ShortCircuit.StaleTestExample`).
- LDIR with BC = 0 runs past 65536 bytes when the budget lets it
  (`BlockCopy.Cpu.Slice`).
- A failed `balloc` loses the sentinel (`FileSystem.Volume.Balloc`,
  `FreeList.ExhaustionLosesSentinel`).
- `bmap` reads a later indirect block back uncleared (`FileSystem.Volume.Bmap`,
  `FileSystem.StaleIndirectExample`), and from logical block 1792 up it indexes
  outside its address array (`FileSystem.MappableExactly`).
- `imd_write` with a delta file that could only be opened for reading changes
  memory alone and reports success (`DeltaImage.Image.Write`,
  `DeltaImage.StrayWrite`).
- `filefree` keeps the double indirect block (`FileSystem.Volume.Filefree`,
  `FileSystem.LeakExample`).

## Model

| member | source | states |
|---|---|---|
| `Heap.RequestHonoured` | extra/hitechc/malloc.c:57 | the rounded block holds the n bytes asked for exactly when n <= 65530 (the 16-bit size wraps above), and rounds to nothing exactly for 65531..65533 |
| `Heap.GrowthSuffices` | extra/hitechc/malloc.c:80 | one growth covers the request and a header, except exactly for 65275..65530, where the size wraps and at most one quantum is asked for |
| `Heap.RoundingIsTight` | extra/hitechc/malloc.c:57 | sizes and growths are rounded up to the next multiple of 3 and of 255 bytes and no further, short of where they wrap |
| `Heap.BusyBit` | extra/hitechc/malloc.c:26-30 | marking a block busy or free changes its busy bit and nothing else |
| `Heap.MergeKeepsSound` | extra/hitechc/malloc.c:62-66 | joining a free block with its free successor keeps the heap invariant (one ascending ring, busy ends, live blocks whole) |
| `Heap.NothingFits` | extra/hitechc/malloc.c:60-79 | after a fruitless full pass, no run of adjacent free blocks of the original ring holds the request, so lazy merging misses nothing |
| `Heap.MergedIsRun` | extra/hitechc/malloc.c:62-69 | conversely every merged free block is a run of adjacent free blocks of the ring the search started from |
| `Heap.PassRemovesAbsorbable` | extra/hitechc/malloc.c:60-79 | a full fruitless pass removes a header from the ring if and only if it is free and follows a free block |
| `Heap.FirstFitIsUnique` | extra/hitechc/malloc.c:60-79 | the first fit from a header is one block, so a search's result is determined by the ring it starts from |
| `HeapExamples.SearchPointerIsLost` | extra/hitechc/malloc.c:82-88 | a run from a fresh heap (malloc, malloc, free, free, then a request that cannot be met) after which the search pointer is off the ring |
| `HeapExamples.LiveBlocksOverlap` | extra/hitechc/malloc.c:60-110 | what follows: the search from the lost pointer, run step by step, hands out a block for malloc(3) and then one for malloc(243) that contains it |
| `Heap.CarveKeepsSound` | extra/hitechc/malloc.c:100-110 | splitting a free block keeps the invariant and makes exactly that block live |
| `Heap.ExtendKeepsSound` | extra/hitechc/malloc.c:90-98 | hanging fresh arena on the top keeps the invariant, whether it adjoins the old top or leaves a gap noted as a busy block |
| `Heap.LiveBlocksDisjoint` | extra/hitechc/malloc.c:45-111 | two live blocks share no cell and both lie in the arena |
| `Heap.BodyWritesAreSafe` | extra/hitechc/malloc.c:45-127 | a client that writes only inside a live block's body keeps the whole invariant |
| `Heap.MoveTransfers` | extra/hitechc/malloc.c:145-151 | the copy followed by restoring the rescued cell moves every common cell of the old block, also when the blocks overlap and the split header was written into the old data, except the first cell when the header landed on it |
| `Heap.LandedLoses` | extra/hitechc/malloc.c:149-150 | when the split header lands on the old block's first cell, the new block's first cell holds the header |
| `Heap.LandingNeedsRun` | extra/hitechc/malloc.c:80-110 | a split header lands on the block just freed only when the run it is cut from was there before the search: never after a growth |
| `Heap.LandingIsFirstFit` | extra/hitechc/malloc.c:129-152 | the landing happens if and only if it can be foretold from the heap before the search |
| `Heap.CarriedOver` | extra/hitechc/malloc.c:145-151 | copy and rescue keep the heap invariant and every other live block |
| `Heap.Allocator.Coalesce` | extra/hitechc/malloc.c:62-66 | the inner loop leaves the block followed by a busy header, having only coarsened the ring |
| `Heap.Allocator.Scan` | extra/hitechc/malloc.c:60-79 | a pass, ended by the second wrap, finds a block if and only if a run of free blocks of the ring it started from holds the request, and then the first one in circular order; otherwise every header has been checked |
| `Heap.Allocator.Sbrk` | extra/hitechc/sbrk.as:1-54 | the break moves up by the size asked for, or not at all when it would come near the stack |
| `Heap.Allocator.Search` | extra/hitechc/malloc.c:60-99 | the block found is the first fit of the ring as it was, or, exactly when nothing fitted there, of the ring grown by one chunk; where a growth covers the request it is found if and only if a run fits or the break can be raised |
| `Heap.Allocator.Cut` | extra/hitechc/malloc.c:100-110 | the block found becomes live with exactly the rounded size, the rest stays free, and the overwritten cell is saved |
| `Heap.Allocator.Malloc` | extra/hitechc/malloc.c:44-111 | invariant kept, the new block is cut from the first fit, disjoint from all live ones, no live cell changed; fails if and only if no run fits and the break cannot move, or the growth is smaller than the request; after a failure the search pointer is on the ring if and only if it was not absorbable |
| `Heap.Allocator.Free` | extra/hitechc/malloc.c:115-127 | only the busy bit changes; the block leaves the live set and the search resumes there |
| `Heap.Allocator.Bmove` | extra/hitechc/bmove.as:1-22 | a forward copy of whole cells, right for non-overlapping and downward moves |
| `Heap.Allocator.Realloc` | extra/hitechc/malloc.c:129-152 | every cell common to the old and the new block is kept, but for the old first cell exactly when the new block ends there; that happens if and only if, in the heap with the block freed, the first fit from it starts just that far below; all other live blocks are untouched; fails if and only if no run of that heap fits and the break cannot move |
| `HeapRun.SizesExactly` | extra/hitechc/malloc.c:57-80 | the sizes a client can ask for are all but 65275..65529 and 65531..65533; all of these but 65530 are met by one growth |
| `HeapRun.Client.Alloc` | extra/hitechc/malloc.c:44-111 | the new block is distinct from those held and no cell of any live block changes |
| `HeapRun.Client.Release` | extra/hitechc/malloc.c:115-127 | no cell of any other live block changes, and the search pointer is on the ring again |
| `HeapRun.Client.Resize` | extra/hitechc/malloc.c:129-152 | the block's cells are transferred, or the block is lost when there is no room; no cell of any other live block changes |
| `HeapRun.Client.Put` | extra/hitechc/malloc.c:44-127 | a write to a cell of a held block changes that cell only |
| `HeapRun.Client.Perform` | extra/hitechc/malloc.c:44-152 | one operation keeps the book of blocks and written cells right, and says when an allocation fails |
| `HeapRun.OpenedIsBooked` | extra/hitechc/malloc.c:44-127 | such a book can be opened at any time with everything the held blocks contain, so cells never written keep their value too |
| `HeapRun.Run` | extra/hitechc/malloc.c:44-152 | over every sequence of malloc, free, realloc, writes and outside break moves, every block held has the address and size handed out, and each cell the value last put there since, carried through every realloc but for the first cell when the new block ends where the old began; no request fails while the break, raised by all requests so far, would stay clear of the stack, and malloc answers 0 exactly when nothing fits and the break cannot move |
| `HeapExamples.FirstCellIsLost` | extra/hitechc/malloc.c:145-151 | a run from a fresh heap (malloc of 3, 3 and 237, free of the first, realloc of the second to 6) after which the new block does not hold the old block's only cell |
| `HeapBand.Turn` | extra/hitechc/malloc.c:60-99 | for a request whose growth is of no bytes, one turn of the loop at an adjoining break hands out the first fit, fails near the stack, or leaves a valid heap in which the request still does not fit |
| `HeapBand.Turns` | extra/hitechc/malloc.c:60-99 | so does any number of turns: a request that does not fit, with the stack out of reach, is never answered |
| `HeapBand.GapBreaksRing` | extra/hitechc/malloc.c:90-98 | above a gap the same growth leaves memory in which no ring runs through the old top and the new header |
| `HeapBand.BandHasNoGrowth` | extra/hitechc/malloc.c:80 | the growth is of no bytes exactly for requests of 65275..65529 bytes |
| `HeapBand.WalkGivesUp` | extra/hitechc/malloc.c:60-79 | on that memory the next pass, run step by step, comes to the header at the break and returns NULL |
| `HeapBand.Malloc` | extra/hitechc/malloc.c:44-111 | malloc for those sizes on any valid heap, exactly: the first fit if one fits, else NULL if the stack is near, else endless at an adjoining break, else NULL with a broken ring; live blocks keep their cells throughout |
| `HeapExamples.SearchesForEver` | extra/hitechc/malloc.c:60-99 | after malloc(3), malloc(65275) is still searching after any number of turns |
| `HeapExamples.FirstCallBreaksRing` | extra/hitechc/malloc.c:60-99 | as a program's first call, malloc(65275) breaks the ring |
| `Asm.MoreFuel` | extra/qc/cc7.c:585-672 | the execution of emitted code is determinate: more steps never change an outcome |
| `Peephole.Emitter.Jump` | extra/qc/cc7.c:585-609 | a jump after a jump is dropped, after a conditional jump it is held back as the second part of the pattern |
| `Peephole.Emitter.JumpCond` | extra/qc/cc7.c:633-651 | pending text is dumped and the conditional jump becomes the first part of a pattern |
| `Peephole.Emitter.LineLabel` | extra/qc/cc7.c:653-672 | the label completing `JP cc,A; JP B; A:` turns the pattern into one inverted jump and is itself not written |
| `Peephole.Emitter.Translate` | extra/qc/cc8.c:168-185 | the streaming buffer, line by line, writes exactly the peephole translation of the whole stream |
| `Peephole.LookupKept` | extra/qc/cc7.c:585-672 | a label that is not swallowed leads to the translation of the code it led to |
| `Peephole.LookupLost` | extra/qc/cc7.c:659-667 | a swallowed label is defined nowhere in the output |
| `Peephole.SafeFusionIsExact` | extra/qc/cc7.c:653-672 | no swallowed label is still jumped to if and only if every jump left has its target |
| `Peephole.PeepholePreserves` | extra/qc/cc7.c:585-672 | when fusion is safe, the output reaches an outcome if and only if the naive code does, for every machine and start state |
| `Peephole.SingleReferencesAreSafe` | extra/qc/cc7.c:653-672 | labels with one reference each are enough for that |
| `Stmt.Parser.AddSwq` | extra/qc/cc5.c:319-330 | the loop is queued, or the overflow is an error and nothing is queued |
| `Stmt.Parser.Statement` | extra/qc/cc3.c:33-98 | the instructions, labels, queue and errors the recursive parser leaves are those of the lowering function |
| `Stmt.Parser.DoIfElse` | extra/qc/cc3.c:99-116 | if with else, emitted step by step |
| `Stmt.Parser.DoWhileLoop` | extra/qc/cc3.c:118-131 | while, with its queue entry pushed and popped |
| `Stmt.Parser.DoFor` | extra/qc/cc3.c:133-176 | for, in all four layouts of missing test and increment |
| `Stmt.Parser.DoDoWhile` | extra/qc/cc3.c:178-195 | do-while, with continue leading to the test |
| `Stmt.ErrorFreeIsBalanced` | extra/qc/cc5.c:319-345 | no error is reported if and only if nesting fits the queue and break/continue are inside loops, and then the queue ends as it began |
| `StmtLabels.LowerLabels` | extra/qc/cc5.c:313-318 | every label of a statement is new and defined once |
| `StmtLabels.ProgramIsUnique` | extra/qc/cc5.c:313-318 | a whole statement defines each of its labels once |
| `StmtProof.Sim` | extra/qc/cc3.c:99-195 | from the start of a statement's code the machine reaches the right place (after it, or the loop's exit or continue label) in the state the source semantics gives |
| `StmtProof.LoweringPreserves` | extra/qc/cc3.c:99-231 | the emitted labels and jumps end with an outcome if and only if the source statement does, so divergence is preserved too |
| `StmtPeep.StmtKeepsTotal` | extra/qc/cc3.c:99-195 | feeding a statement through the peephole piecewise accounts exactly for the labels swallowed and the jumps written |
| `StmtPeep.StmtSafe` | extra/qc/cc3.c:99-195 | a statement keeps the peephole safe exactly when it contains no bare break |
| `StmtPeep.SafeIffNoBareBreak` | extra/qc/cc7.c:653-672 | the peephole is safe on a compiled statement if and only if no loop body reduces to a break |
| `StmtPeep.CompilationPreserves` | extra/qc/cc3.c:99-231 | parser plus peephole preserve the meaning of every such statement, both ways |
| `StmtPeep.BareBreakLosesLabel` | extra/qc/cc3.c:211-219 | every statement with a bare break is compiled into a jump to an undefined label |
| `StmtPeep.WhileBreakExample` | extra/qc/cc3.c:118-131 | `while (c) break;` in full |
| `Program.MeansTheSame` | extra/qc/cc3.c:99-195 | a C statement and its form with compiled expressions end alike, with the same memory, or both run out of time |
| `Program.ProgramRuns` | extra/qc/cc3.c:33-231 | the instructions emitted for a statement, expression code, labels and jumps, after the peephole, halt if and only if the C statement ends, with its memory and the stack as before |
| `Program.Compile` | extra/qc/cc3.c:33-195 | every well-typed statement is compiled into one that theorem applies to |
| `Expr.ExecSnoc` | extra/qc/cc6.c:700-710 | running emitted code is running what was emitted before, then the last instruction |
| `ExprLaws.BitwiseLaws` | extra/qc/cc6.c:553-690 | or, exclusive or and and: the laws that relate them to each other and to the sum |
| `ExprLaws.BitOfBits` | extra/qc/cc6.c:553-690 | each bit of the result is the operator on the two bits there |
| `ExprLaws.NumberOfWord` | extra/qc/cc6.c:553-690 | a word stands for the number in its signed or unsigned range congruent to it |
| `ExprLaws.DivisionTruncates` | extra/qc/cc6.c:553-690 | quotient and remainder: their sum, the bound on the remainder and its sign |
| `ExprLaws.ShiftRightFloors` | extra/qc/cc6.c:553-690 | shifting right divides by the power of two, rounding down |
| `ExprLaws.ShiftLeftDoubles` | extra/qc/cc6.c:553-690 | shifting left doubles once for each place |
| `ExprLaws.UnsignedIsContagious` | extra/qc/cc4.c:201-405 | an operation is unsigned exactly when an operand is unsigned or a pointer |
| `ExprGen.Generator.Savepreg` | extra/qc/cc6.c:691-698 | HL is pushed exactly when it is in use |
| `ExprGen.Generator.Rvalp` | extra/qc/cc6.c:435-459 | the place's value ends in HL and HL is pushed exactly when it was in use, with exactly the code that takes: none for a value already there or a variable just stored from HL |
| `ExprGen.Generator.Rvals` | extra/qc/cc6.c:472-484 | a constant or the value HL points at goes to DE |
| `ExprGen.Generator.Loadops` | extra/qc/cc6.c:358-434 | in all sixteen combinations of operand places both values end in the registers, in the order reported, with the stack as before the left operand plus HL if it was in use |
| `ExprGen.Generator.Addconst` | extra/qc/cc6.c:526-551 | increments, decrements and the general case all add the constant modulo 2^16, and each is emitted exactly for its constants |
| `ExprGen.Generator.Multconst` | extra/qc/cc6.c:270-294 | doublings and the general case all multiply modulo 2^16, and each is emitted exactly for its constants |
| `ExprGen.Generator.Doadd` | extra/qc/cc6.c:138-194 | the sum of the two expressions, folded for constants |
| `ExprGen.Generator.Dosub` | extra/qc/cc6.c:212-248 | the difference, by adding the negative for a constant and by swapping reversed operands |
| `ExprGen.Generator.Domult` | extra/qc/cc6.c:249-268 | the product |
| `ExprGen.Generator.Operate` | extra/qc/cc6.c:37-93 | every other operator computes its value in either operand order, signed or unsigned, and the remembered test flags are true |
| `ExprGen.Generator.EqualConstant` | extra/qc/cc6.c:112-131 | equality with -1, 0 and 1 by a logical not, and with other constants, is equality |
| `ExprGen.Generator.Binop` | extra/qc/cc6.c:20-96 | the operator applied to the values of both expressions, or both constants reported unchanged |
| `ExprGen.Generator.Heir` | extra/qc/cc4.c:201-405 | for every well-typed expression and every start state the code leaves the value where the operand says, memory unchanged, HL saved exactly when it was in use; constants and variables cost no code; and the test flag afterwards is a function of the expression and of the flag before |
| `ExprGen.Generator.Expression` | extra/qc/cc4.c:19-30 | HL ends as the expression's value modulo 2^16 and the stack as before |
| `ExprGen.Generator.Dotest` | extra/qc/cc7.c:613-627 | the zero flag says whether HL is zero, with exactly the code the remembered flags make necessary |
| `ExprGen.Generator.Condition` | extra/qc/cc7.c:633-640 | a condition's zero flag says whether the expression is zero |
| `ExprGen.Generator.AssignVar` | extra/qc/cc7.c:260-318 | assignment to a variable, with the constant shortcut for automatic ones |
| `ExprGen.Generator.AssignDeref` | extra/qc/cc7.c:260-318 | assignment through a pointer whose address waits in HL or on the stack |
| `ExprGen.Generator.Assignments` | extra/qc/cc7.c:260-318 | any sequence of assignments changes memory as the source says and leaves the stack, across the load elision between statements |
| `ShortCircuit.Operands` | extra/qc/cc4.c:136-199 | each operand is in HL and tested at its jump, provided those before it did not divide by zero; the result counts as set exactly when every operand ends in a test, that of a first operand without code being the one before it |
| `ShortCircuit.And` | extra/qc/cc4.c:171-199 | HL is 1 or 0 as all operands are nonzero, the zero flag agrees, later operands are not run, memory and stack as before |
| `ShortCircuit.Or` | extra/qc/cc4.c:136-169 | the zero flag is always right; HL is 1 or 0 as well unless the first operand is above 1, costs no code, a test was done before it and all other operands end in a test: exactly then HL is that operand |
| `ShortCircuit.AndIsRight` | extra/qc/cc4.c:171-199 | code with such jumps computes the conjunction from every state |
| `ShortCircuit.OrIsRight` | extra/qc/cc4.c:136-169 | and the disjunction, with the exact condition on its value |
| `ShortCircuit.StaleTestExample` | extra/qc/cc4.c:136-169 | after the test `a == b`, the code of the OR of x and `y == z` gives x instead of 1 when x is 2 |
| `FreeList.SecmapPermutesTracks` | src/lib/fslib.c:197-212 | the skew permutes the blocks of every track for every track size, with an explicit inverse |
| `FreeList.SecmapInterleaves` | src/lib/fslib.c:197-212 | without skew a block is where its number says; with it the first half of a track goes to the even places and the second half to the odd ones, in order |
| `FreeList.HoldsFrame` | src/lib/fslib.c:774-828 | writes to blocks off the free list do not change what it holds |
| `FreeList.EmptyIffSentinel` | src/lib/fslib.c:780-795 | the top entry is the sentinel if and only if no block is free; otherwise it is the top of the stack |
| `FreeList.PopLink` | src/lib/fslib.c:797-809 | taking a link block brings in the hundred entries below and leaves the rest of the chain intact |
| `FreeList.PushLink` | src/lib/fslib.c:819-828 | a full superblock spilled into the freed block represents the longer stack |
| `FreeList.ExhaustionLosesSentinel` | src/lib/fslib.c:780-795 | an empty list is sound before a failed allocation and no list at all after it |
| `Ownership.AddSlot` | src/lib/fslib.c:859-866 | a new block in an inode address keeps every pointer with its own block and every owned block with its own pointer |
| `Ownership.AddEntry` | src/lib/fslib.c:921-924 | the same for an entry of an indirect block |
| `Ownership.RemoveEntry` | src/lib/fslib.c:941-946 | a block without pointers can be let go once its entry is cleared |
| `Ownership.Convert` | src/lib/fslib.c:871-881 | turning a small file into a large one keeps ownership |
| `Ownership.ConvertChangesNone` | src/lib/fslib.c:871-881 | and changes the mapping of no file |
| `Ownership.LookupOwned` | src/lib/fslib.c:849-926 | a mapped block is a data block belonging to this place of this file |
| `Ownership.LookupInjective` | src/lib/fslib.c:849-926 | the mapping is injective over all files and logical blocks |
| `Ownership.EntryChangesOne` | src/lib/fslib.c:921-924 | writing an indirect entry remaps exactly one logical block of one file |
| `Ownership.MarkSmall` | src/lib/fslib.c:986-990 | an emptied inode can be marked small, a leftover double indirect block becoming its last data block |
| `FileSystem.StaleIndirectExample` | src/lib/fslib.c:907-919 | a valid volume on which a fresh second indirect block is read back with an old block number in it |
| `FileSystem.LeakExample` | src/lib/fslib.c:978-984 | a valid large file that still maps a block after being freed |
| `FileSystem.Volume.Balloc` | src/lib/fslib.c:771-811 | pops the stack of free blocks; the list is sound afterwards if and only if a block was free |
| `FileSystem.Volume.Bfree` | src/lib/fslib.c:813-828 | pushes the block and writes no other |
| `FileSystem.Volume.Grow` | src/lib/fslib.c:871-881 | conversion: mapping, data and the set of all blocks kept, cache equal to the new block on disk; stops the program if and only if no block is free |
| `FileSystem.Volume.MapEntry` | src/lib/fslib.c:916-925 | an entry through the one-block cache, filled from the free list when it is a hole; the cache equals its block on disk |
| `FileSystem.MappableExactly` | src/lib/fslib.c:882-906 | the mapping is defined for a logical block if and only if bmap answers before it looks into its address array or looks inside it |
| `FileSystem.Volume.MapFresh` | src/lib/fslib.c:907-925 | through an indirect hole, with two free blocks: right if and only if the block taken is clear on disk or comes off the list as a link; with one, nothing is mapped and the list is spent; with none the program stops |
| `FileSystem.Volume.Bmap` | src/lib/fslib.c:849-926 | without allocation nothing changes and the result is the mapping; with it, only the requested place may change, a hole gets a block off the free list, all other mappings, all data and the set of all blocks are kept, if and only if the indirect blocks met are clear; one block short it returns 0 with mapping and data kept, and it stops the program if and only if more are lacking |
| `FileSystem.Volume.Iblkfree` | src/lib/fslib.c:928-951 | an indirect block and all it lists go to the free list, the pointer is cleared, other files are untouched |
| `FileSystem.Volume.Filefree` | src/lib/fslib.c:953-991 | the free list grows by exactly the file's blocks, each once, all other files read as before, and the inode maps nothing if and only if it had no double indirect block |
| `FileSystem.Volume.Fileread` | src/lib/fslib.c:1191-1202 | reads the block's contents, zeros for a hole |
| `FileSystem.Volume.Filewrite` | src/lib/fslib.c:1204-1216 | through clear indirect blocks: the block reads as written, every other block of every file as before, no block lost, or the program stops, if and only if there are too few free blocks |
| `FileSystem.LooksClearIsClear` | src/lib/fslib.c:797-808 | the superblock and the blocks it names tell beforehand whether the indirect blocks a map will take are clear |
| `FileSystem.Volume.LookAhead` | src/lib/fslib.c:907-919 | so a client can check for it, and has no need to below logical block 256 |
| `FileSystem.Volume.Perform` | src/lib/fslib.c:953-1216 | one operation of a run, and when it stops the program |
| `FileSystem.Volume.Run` | src/lib/fslib.c:774-991 | any run of writes, reads and frees on any files below the double indirect range reads back what a plain array of blocks would, up to the first write that finds the volume full or an indirect block that is not clear; it ends there only because there are fewer free blocks than that write needs, or the block is not clear; neither occurs with three free blocks for each operation, or below logical block 256 |
| `TypeLists.MoveToFree` | extra/qc/cc5.c:861-873 | unlinking a node and pushing it on the free list keeps every node on exactly one list, the one for its code |
| `TypeLists.TakeFree` | extra/qc/cc5.c:834-839 | taking the first free node leaves all others on their lists |
| `TypeTable.BaseIsLive` | extra/qc/cc5.c:781-790 | a live node's count covers the nodes based on it, so its base is live |
| `TypeTable.DoomKeeps` | extra/qc/cc5.c:786-790 | an unreferenced node can start dying: its reference to its base is now one to give up |
| `TypeTable.CollectKeeps` | extra/qc/cc5.c:883-899 | collecting an unreferenced node and lowering its base's count keeps all counts exact |
| `TypeTable.SweptFacts` | extra/qc/cc5.c:874-903 | collecting a list frees its unreferenced nodes, raises no count and touches no node of another code |
| `TypeTable.PlacedAmongFree` | extra/qc/cc5.c:817-841 | while a node is free, entering a type changes no other node's code |
| `TypeTable.MeaningKept` | extra/qc/cc5.c:753-779 | every node that survives an operation stands for the same type, even when a free node is reused |
| `TypeTable.ReferencedSurvives` | extra/qc/cc5.c:786-790 | a type referenced from outside, and what it is built from, is never freed |
| `TypeTable.EqualTypesAreOneNode` | extra/qc/cc5.c:753-765 | apart from structures and unions, two live nodes stand for equal types if and only if they are the same node |
| `TypeTable.Table.Unreftype` | extra/qc/cc5.c:786-790 | invariant and outside counts kept; the node is freed if and only if this was its last reference; besides it only a node based on it can go, along the chain, and none without references is left behind |
| `TypeTable.Table.Scraptype` | extra/qc/cc5.c:843-859 | a dying node is removed after its base was given up, also when the base was on the same list |
| `TypeTable.Table.Findtype` | extra/qc/cc5.c:801-816 | returns a node with that code, base and size, or -1 if and only if there is none |
| `TypeTable.Table.Typecollect` | extra/qc/cc5.c:874-903 | codes and counts afterwards are those of one look at each node, list by list: every node left was referenced; nodes were freed if and only if the count returned is positive, and then some node was idle |
| `TypeTable.Table.Alloctype` | extra/qc/cc5.c:817-841 | fails if and only if no node is free and every node other than the base is referenced; otherwise a free node becomes the type, and nodes are collected first only when none was free; nothing else is disturbed |
| `TypeTable.Table.Uniquetype` | extra/qc/cc5.c:766-780 | enters a new node on the list for its code, or falls back to int exactly when the table is full; no node is freed while one is free |
| `TypeTable.Table.Addtype` | extra/qc/cc5.c:752-765 | returns the existing node if there is one, else a new one with the right meaning; while a node is free no other is touched, and a node referenced from outside always stays, with its meaning; all other survivors keep theirs |
| `Quicksort.SplitPending` | extra/hitechc/qsort.c:48-62 | replacing a segment by its two parts keeps all disorder within pending segments |
| `Quicksort.MiddleCut` | extra/hitechc/qsort.c:37-47 | after the scans pass, every position between them separates smaller from larger |
| `Quicksort.SmallerIsHalved` | extra/hitechc/qsort.c:48-61 | going on with the smaller part halves the length for each stacked frame |
| `Quicksort.StackSuffices` | extra/hitechc/qsort.c:48-61 | a frame at index d needs 2^(d+1) elements, so twenty frames suffice below 2^21 |
| `Quicksort.ScanUp` | extra/hitechc/qsort.c:38-39 | the unguarded scan upward stops within the segment, at a value not smaller |
| `Quicksort.ScanDown` | extra/hitechc/qsort.c:40-41 | the unguarded scan downward likewise |
| `Quicksort.Partition` | extra/hitechc/qsort.c:33-47 | a permutation that keeps all cuts outside the segment and makes new ones inside; both ends move |
| `Quicksort.Step` | extra/hitechc/qsort.c:33-61 | one partition with its push keeps stack and segment in order with less work left |
| `Quicksort.Qsort` | extra/hitechc/qsort.c:6-65 | terminates with a sorted permutation for any total preorder; without a pivot buffer nothing changes |
| `BlockCopy.StepsRegisters` | src/lib/z80emu.c:443-472 | registers, PC and cycles after k single-byte steps, with address wrap-around |
| `BlockCopy.CopyRepeats` | src/lib/z80emu.c:495-504 | a copy, overlapping or not and up or down, repeats the source with the period of the destination's lead |
| `BlockCopy.CopyIsFaithful` | src/lib/z80emu.c:495-504 | with a lead of at least BC every byte arrives |
| `BlockCopy.CopyFills` | extra/hitechc/write.c:54-55 | with a lead of one the first byte fills the area |
| `BlockCopy.InstructionKept` | src/lib/z80emu.c:529-538 | a copy that does not touch its own bytes finds them again when resumed |
| `BlockCopy.UntouchedIsIntact` | src/lib/z80emu.c:529-538 | so such a copy finds its instruction at every resumption |
| `BlockCopy.Cpu.CopyBytes` | src/lib/z80emu.c:490-540 | the loop copies as many bytes as the budget allows, at least one |
| `BlockCopy.Cpu.Slice` | src/lib/z80emu.c:474-555 | one call equals that many single steps in memory and registers; said outright: HL and DE move by the bytes copied, BC goes down by them, PC stays exactly when P/V is set, which is exactly when bytes are left; H and N are clear, S, Z and C kept, X and Y from the last byte plus A, the refresh register counts twice for each; with BC = 0 it follows the 65536-byte copy if and only if the budget ends it before the last byte, and runs past it otherwise |
| `BlockCopy.Cpu.Complete` | src/lib/z80emu.c:2143-2155 | under any budgets, stopping and resuming gives what BC single steps give (65536 for BC = 0), in 21*(BC-1)+16 cycles, with BC at 0, P/V clear, and HL and DE past the areas |
| `CpmFile.StorePiece` | extra/hitechc/write.c:42-66 | patching one record extends the stored bytes by one piece and pads a new record with ^Z |
| `CpmFile.StoredIsHeld` | extra/hitechc/write.c:38-71 | bytes stored are bytes held |
| `CpmFile.ReadPiece` | extra/hitechc/read.c:46-71 | slicing one record extends the bytes read by one piece |
| `CpmFile.File.Write` | extra/hitechc/write.c:38-71 | exactly the bytes [rwp, rwp+count) change, new records are padded with ^Z, and the count is short if and only if BDOS refuses one of the records, in which case it covers exactly the records before the refused one |
| `CpmFile.File.Read` | extra/hitechc/read.c:42-75 | returns the bytes at rwp up to the first missing record |
| `CpmFile.File.Lseek` | extra/hitechc/seek.c:25-55 | the new position for each origin, or -1 and no change when it would be negative |
| `CpmFile.File.RoundTrip` | extra/hitechc/write.c:38-71 | write, seek back, read returns exactly the bytes written, also when BDOS refuses a record and the count is short |
| `CpmFile.File.Perform` | extra/hitechc/read.c:42-75 | one operation answers as a plain array of bytes with holes does |
| `CpmFile.File.Run` | extra/hitechc/write.c:38-71 | any sequence of writes, some refused, reads and seeks answers as that array does and leaves what it leaves |
| `IntelHex.ChecksumIsZero` | src/tools/dump.c:38-57 | the bytes of every record sum to 0 modulo 256 |
| `IntelHex.ValueOfWord` | extra/tools/input.c:158-183 | four digits give back the word, and the checksum gains both of its bytes |
| `IntelHex.EmptyRecord` | src/tools/dump.c:94-95 | the last line written is a data record without data |
| `IntelHex.DigitCases` | extra/tools/input.c:128-153 | digits are written in upper case and read in either |
| `IntelHex.RecordIsAccepted` | src/tools/dump.c:38-57 | a record as the writer makes it is accepted, with its address and its bytes |
| `IntelHex.Dumper.Record` | src/tools/dump.c:38-57 | writes the text of a data record with its checksum |
| `IntelHex.Dumper.Dump` | src/tools/dump.c:86-96 | one record for each piece read, at consecutive addresses from 0x100, then the last line |
| `IntelHex.Loader.Put` | extra/tools/input.c:107-127 | stores the byte, grows the buffer by 4K steps, keeps what fits and tracks the highest address, with 16-bit sizes |
| `IntelHex.Loader.Gethex` | extra/tools/input.c:154-183 | the value of the digits and the checksum gained, or -1 if and only if one of them is no digit |
| `IntelHex.Loader.DoIntelHex` | extra/tools/input.c:1015-1141 | on any text: accepted if and only if there is a colon, a header of a known type, the digits it asks for and a checksum that brings the sum to 0; a refused record ends the reading; the data of a record are at its address, nothing below changed, even when its checksum is then refused; the cursor passes the line ends, and reading goes on unless the text or an end record ends it |
| `IntelHex.Loader.Decode` | extra/tools/input.c:1176-1197 | decoding what the writer produced, for any division into pieces, puts byte i at 0x100+i and the highest address at the last byte |
| `DeltaImage.SlotsDisjoint` | src/include/imd.h:50-61 | flags and slots of different sectors are disjoint from each other and from the map |
| `DeltaImage.FileLayout` | src/include/imd.h:50-61 | the place of each flag and slot in the delta file, in bytes |
| `DeltaImage.RecordedAt` | src/lib/imdlib.c:338-346 | a write sets its own flag and slot and no other |
| `DeltaImage.WriteKeeps` | src/lib/imdlib.c:333-346 | memory stays the newest of base and delta |
| `DeltaImage.ReloadAgrees` | src/lib/imdlib.c:217-246 | two images loaded coherently from the same base and delta have the same contents |
| `DeltaImage.LoadNext` | src/lib/imdlib.c:223-243 | reading one more flag overlays one more sector |
| `DeltaImage.Image.constructor` | src/lib/imdlib.c:160-252 | loading base and delta gives a coherent image: each sector is the delta's where its flag is set, else the base's; without a delta file there are no flags |
| `DeltaImage.Image.TranslateSector` | src/lib/imdlib.c:278-306 | the last place with that number, or 0 if and only if there is none |
| `DeltaImage.Image.Write` | src/lib/imdlib.c:312-350 | one sector of memory changes, and its flag and slot at their places in the delta file; nothing changes out of range or without a delta file; with one opened for reading only memory changes alone, and stays in step with the file if and only if the sector already held those bytes |
| `DeltaImage.Image.Read` | src/lib/imdlib.c:356-381 | returns the sector's bytes, or as many zeros when it is absent, changing no contents |
| `DeltaImage.Image.Reopen` | src/lib/imdlib.c:160-252 | a reload after any sequence of operations has the contents in memory |
| `DeltaImage.Image.Perform` | src/lib/imdlib.c:312-381 | one write, read or reopening against a map from tracks and places to sectors |
| `DeltaImage.Image.Reload` | src/lib/imdlib.c:160-252 | closing and loading again keeps what the map shows |
| `DeltaImage.Image.Run` | src/lib/imdlib.c:160-381 | over any run of writes, reads and reopenings a read returns what was last written to that sector, and before that what the image held there, zeros if it was absent |
| `DeltaImage.StrayWrite` | src/lib/imdlib.c:333-346 | storing a sector in memory only keeps memory and file in step if and only if it changes nothing |
| `DeltaImage.LastWritten` | src/lib/imdlib.c:312-381 | a sector reads as the last write to it left it |

## Left out

- Heap: the cells of fresh arena hold anything, the debug assertions are off, and `sbrk` is taken at its assembly code with the stack pointer and outside break moves as parameters.
- HeapRun.Run: after a failed `malloc` the client frees or resizes something before it asks again, because the search pointer may be off the ring until then; requests that round to nothing or grow by nothing are skipped.
- Heap.Allocator.Malloc: 65275..65529, whose growth is of no bytes, are the subject of `HeapBand.Malloc`.
- HeapBand.Malloc: excludes a gap of one or two bytes below the break, where the header written there overlaps the top header; a call that does not return is followed for any number of turns.
- Heap.Allocator.Realloc: excludes sizes that round to nothing or grow by nothing, and a block that was freed and then merged.
- Heap.Allocator.Bmove: is stated for whole cells, the only use `realloc` makes of it; the byte-level routine is `BlockCopy`.
- Stmt.Parser.Statement: `switch`, `goto`, `return` and statement labels are not modelled.
- Program.Compile: each condition and each run of assignments is compiled with nothing remembered from the code before, so a load or test left out across a statement's own jump is not modelled; conditions have no `&&` or `||`.
- ShortCircuit.Or: `&&` and `||` are whole expressions over operands without them; nested and mixed ones are not modelled.
- Expr: library routines are taken at the meaning their comments give (`extra/qc/cc6.c:553-690`), division by zero is excluded by `Defined` and leaves some value, a routine's leftover DE is 0 and never used, memory is a map of 16-bit cells apart from the stack, and compile-time arithmetic is 16-bit. An operator is unsigned when either operand is, shifts included, which is how the compiler types it.
- Expr: one-byte variables, pointer scaling, address constants, function calls, `?:`, `++`, `--`, compound and nested assignment, register variables and automatic variables beyond the index range are not modelled; operand records are values instead of structures updated in place.
- ExprGen.Generator.Heir: increments, address-of, calls and one-byte operands are among those.
- ExprGen.Generator.Doadd: does not scale an integer added to a pointer or fold an address with a constant.
- ExprGen.Generator.Dosub: does not scale, and has no pointer difference.
- ExprGen.Generator.AssignVar: the load elision is modelled for two-byte variables identified by their address.
- TypeTable: reference counts are unbounded integers, sizes of structures are not changed after entry, and the named types entered at start-up are left to `Addtype` and `Reftype`.
- TypeTable.Table.Uniquetype: a type that is not a structure or union must not be in the table yet; of its callers, `addtype` has just looked for it, and the other two enter structures and unions only (`extra/qc/cc1.c:616`, `extra/qc/cc1.c:658`).
- TypeTable.Table.Alloctype: the same, since only `uniquetype` calls it.
- FileSystem.Volume.Bmap: excludes exactly the calls that index outside an array, which are the logical blocks from 1792 up other than reads answered before; what is on disk after the program has been stopped is not described.
- FileSystem.Volume.Filewrite: what a write through an indirect block that is not clear does is stated by `Bmap` only as far as that it is not right.
- FileSystem.Volume.Run: the look ahead before a write is the client's; what happens after a write through an indirect block that is not clear is not described.
- FileSystem: inode blocks, the inode cache and writing inodes back are a map of inodes in memory, one copy for each inode; directories, links and file sizes are not modelled.
- Quicksort.Qsort: indices are unbounded integers, at most 2 * (nel - 1) in the sum of two, so 16-bit code is covered up to 16384 elements; the source requires at least one element, since with none it reads element 0 and those below it.
- BlockCopy.Cpu.Complete: with BC = 0 the first budget must stop the copy, since otherwise the source runs past its end (`BlockCopy.Cpu.Slice`).
- BlockCopy.Cpu.Slice: ends with the copy, where the emulator goes on to the next instruction if budget is left; all other instructions are not modelled.
- CpmFile: counts are unbounded integers where the source returns 16-bit ones; devices, user numbers and BDOS error codes are not modelled; a random read of a missing record fails and leaves the buffer alone, and a random write fails as a parameter says.
- CpmFile.File.Lseek: the record count BDOS reports is a parameter.
- IntelHex.Loader.DoIntelHex: what is stored of a data record whose digits end early, or whose addresses pass 16 bits, is not described; start address, segment list and messages are not modelled, and bytes gained by growing the buffer are zeros. The skipped 0x26 after a record is `&`, as in the code, though ^Z was probably meant.
- IntelHex.Loader.Decode: the text is the one the writer produces, for a file of at most 0xff00 bytes.
- DeltaImage: reading the track headers and sector codes of an IMD file is not modelled; an image is a map of tracks of at most 32 sectors and 1024 bytes on 80 cylinders and 2 heads, and the delta file ends with its last slot (the source makes it longer).
- DeltaImage.Image.Run: the delta file is open for writing or there is none; one open for reading only is the subject of `DeltaImage.Image.Write`.
- The terminal, debugger and disk hardware code, the disassemblers and opcode tables, the floating-point library, the lexer, preprocessor and assembler text of Q/C, and the ad hoc conversion tools are not part of this model.
