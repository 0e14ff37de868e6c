# Proofs about c68k

c68k compiles C to the MC68000. This project models the parts of it that transform,
encode or decode something, and proves that they keep its meaning. `dafny verify
dfyconfig.toml` checks everything.

## The back end

Expressions of the IR (`Ir.dfy`) have a big-step meaning over 32-bit words, memory,
promoted registers and a trace of calls; linear items (`Items.dfy`) have a stepped
meaning over them; emitted instructions run on a small 68000 (`M68k.dfy`: D0-D7, A0-A7,
the flags that Scc and Bcc read, big-endian memory, labels, calls). Called functions and
the runtime's multiply and divide helpers are assumed to do what their calling convention
says: result in D0, callee-saved registers kept, the other scratch registers and a called
function's argument slots arbitrary.

The chain of theorems, each in the module it is named with:

1. `LowerProof.BodyOk`, `BodyStops`: the items of a structured statement reach its
   big-step outcome, and stop exactly when it does.
2. `FoldProof.FoldOk`, `OptimizeProof.OptimizeKeepsRuns`: constant folding, constant
   branches, graph rebuild, unreachable-block and dead-evaluation removal keep every run;
   `OptimizeSettles`: they leave nothing more to do of the kind.
3. `Selection.ExprOk`, `CondOk`, `Registers.CodeKeeps`: the code of every expression, over
   every tile, computes it, and branches on it.
4. `Compile.CompileOk` joins 1-3: statement to machine.
5. `PeepholeProof.PeepholeKeepsMeaning`, `Scratch.BodyScratch`, `Pipeline.PipelineOk`: the
   peephole keeps the meaning of lines that do not rely on A0 after a direct load; the
   back end emits only such lines; so 4 also holds of the lines the peephole leaves.
6. `RegAlloc.RegAllocator.RaLiveness`, `ColorGlobal`, `Sharing.SharingSafe`: the fixpoint
   is exact path liveness, the matrix exactly the conflicts, and on every path every use
   reads what the variable's private slot would hold.
7. `Promotion.EvalTracks`, `PromotedRuns.PromotionOk`, `ColoredCode.ColoredLinesOk`: an
   environment can give every promoted variable a cell of its own; runs with the registers
   that were assigned are the same runs, down to the lines the peephole leaves. The
   condition is that the assignment keeps apart every pair of variables that meets as the
   code performs its events, which is exactly when it is right (`ExactSharing.SafeIff`).
8. `ColoredCode.PrivateOk` joins all of it: from a statement whose promoted variables are
   private to the lines that are left. `Build.BuildBody` is the back end as one method, and
   `Build.BodyMeans` is that theorem about what it returns.

## The other parts

- `Layout`, `Bitfield`, `BitfieldCode`: struct layout of bit-fields against the emitted
  read-modify-write, down to single bits of memory.
- `Dwarf`: LEB128 and the line-number program against the consuming state machine of
  sections 6.2 and 7.6 of DWARF version 4.
- `Macros`: object-like macro expansion with hidesets, its termination measure, and what
  hidesets mean (section 6.10.3.4 of C11).
- `HashMap`: linear probing with tombstones and rehash against a finite map, over whole
  histories.
- `Calendar`, `Time`: civil dates, time zones with daylight saving, mktime.
- `Utf8`, `Uchar`: the restartable conversions against section 4 of RFC 3629 and section 2
  of RFC 2781.
- `HexFloat`, `FloatPrint`: %a output and its reading back (section 7.21.6.1 of C11).

## Where the code does not do what one would expect

Each has a lemma with a concrete input and, beside it, the condition under which the code
is right.

- The allocator's comment says that events are walked in evaluation order
  (`src/ir68k.c:1729`), but it lists left operands and first arguments first, while the
  code evaluates the right operand and the last argument first. For

      do { x = 1; y = x; } while (!y); return y + (x = 5);

  it puts x and y both in D2 (`SharedSum.Allocate`), and the function returns 10 instead of
  6 (`SharedSum.WrongSum`). An assignment of registers is right on every path if and only if
  it keeps apart every pair that meets in the order of evaluation (`ExactSharing.SafeIff`),
  and all assignments that respect the listed conflicts are right if and only if these hold
  every such pair (`ExactSharing.ListedEnoughIff`). They do where right operands only use
  candidates that the left ones do not define, or left ones use none
  (`Coloring.ListedOkEnough`), and with one register a variable nothing is needed
  (`Coloring.ApartRuns`).
- Putting a key that is stored behind a tombstone of its probe path makes a second entry;
  deleting the key brings the old value back (`HashMap.StaleHistory`; exactly when:
  `HashMap.StoreUnique`), and a rehash before that ends the compiler at its own assertion
  (exactly when: `HashMap.HashMap.Rehash`). `#define` and `#undef` make such histories.
- A macro with an empty replacement list hands its place in the line on: a directive behind
  it is lost (`Macros.LostDirective`), or a `#` becomes one (`Macros.MadeDirective`; exactly
  when, for one replacement and for whole runs: `Macros.ReplacementKeepsDirectives`,
  `StopsAtFirstIff`).
- localtime tests the rule against local standard time. It differs from the rule exactly
  between the ends of daylight saving that the two offsets give: the repeated hour where
  daylight saving moves the clock forward (`Time.RepeatedHour`), the hour before its end
  where it moves it back (`Time.HourBefore`; exactly when: `Time.DstDecision`). mktime makes
  the same choice, so `Time.MktimeUndoesLocaltime` holds without exception.
- c16rtomb drops a high surrogate that another one follows (`Uchar.StrayHighAccepted`;
  exactly when that shows: `Uchar.AcceptsWellFormedIff`).
- mbrtoc32 and mbrtoc16 ask for more after bytes that no continuation makes a character, such
  as E0 80 (`Uchar.HopelessHeld`; exactly which: `Utf8.PotentialIff`), where section 7.28.1 of
  C11 reserves that answer for potentially valid input.

One limit is not reached by usable frames: the loop that clears a local counts a 16-bit
register, so the sizes up to 65536 are exactly the right ones
(`SelectProof.ClearsExactlyIff`, `Effects.LargeLocal`), while frames end at the assembler's
16-bit displacements.

Two more conditions are hypotheses of the theorems above, with the reason for each:

- Folding the right operand into an instruction reads it after the left operand, all other
  operators before. C leaves that order open; the IR's meaning here fixes it, and
  `Order.OrdersAgreeIff`, `Untouched` and `StoreToFolded` say when the two agree.
- The peephole's direct-load rule looks one line ahead for a use of A0, so it needs lines
  that do not rely on A0 later (`PeepholeProof.ScratchNeeded`). The back end emits only such
  lines (`Scratch.BodyScratch`).

## Model

| member | source | states |
|---|---|---|
| `Emitter.Codegen.IrExpr` | src/ir68k.c:1149-1298 | appends exactly the code the proofs below are about, uses up the same label numbers, leaves the eval depth as it was |
| `Emitter.Codegen.IrCond` | src/ir68k.c:1302-1368 | same, for the branching form, with the recursion through !, && and || and the skip labels |
| `Emitter.Codegen.IrBinop` | src/ir68k.c:1031-1091 | tries constant right, constant left, memory operand and generic form in that order |
| `Emitter.Codegen.ConstBinop` | src/ir68k.c:833-951 | emits nothing and takes no label when the operator is not specialized for the constant; otherwise the operand and the specialized tail |
| `Emitter.Codegen.ConstMul` | src/ir68k.c:883-910 | emits the operand and its multiplication, or nothing, for exactly the constants of `SpecializedIff` |
| `Emitter.Codegen.IrCall` | src/ir68k.c:1093-1114 | arguments pushed last to first, callee, call, one stack adjustment; depth restored |
| `Emitter.Codegen.IrMemzero` | src/ir68k.c:1116-1146 | the three shapes of clearing code by size |
| `Emitter.Codegen.Push` | src/codegen68k.c:140-143 | one push raises the eval depth by one |
| `Emitter.Codegen.Pop` | src/codegen68k.c:146-149 | one pop lowers it by one |
| `Words.CountTrailingZeros` | src/ir68k.c:139-143 | the loop computes the exponent of the lowest set bit |
| `Words.Pow2Test` | src/ir68k.c:137 | v & (v-1) == 0 with v nonzero holds exactly for the 32 powers of two, and the bit count then gives the exponent |
| `Tiles.AddImmOk` | src/ir68k.c:145-154 | D0 plus the constant, modulo 2^32, for all seven forms of the constant |
| `Tiles.ShiftByOk` | src/ir68k.c:156-165 | a shift by 0..31 through at most one scratch load equals one shift by that count |
| `Tiles.MulTailOk` | src/ir68k.c:883-910 | strength-reduced multiplication equals multiplication modulo 2^32 for every constant it takes |
| `Tiles.DivTailOk` | src/ir68k.c:917-926 | bias, test and arithmetic shift equal signed division truncating toward zero |
| `Tiles.ModTailOk` | src/ir68k.c:934-947 | mask between two negations equals the signed remainder with the sign of the dividend |
| `Tiles.RelationSet` | src/ir68k.c:862-869 | the Scc chosen for a relation, after the compare, yields its truth, signed or unsigned |
| `Tiles.ConstTailOk` | src/ir68k.c:833-951 | every constant-right tile leaves exactly `x op c` in D0 |
| `Tiles.SpecializedIff` | src/ir68k.c:833-951 | which operators and constants have such a tile, exactly: for multiplication the powers of two modulo 2^32, 0, -1 and the neighbours of powers up to 256 |
| `Selection.BinopConstRightOk` | src/ir68k.c:1033-1034 | operand code and constant tile together mean the operator |
| `Selection.BinopConstLeftOk` | src/ir68k.c:955-968 | a commuted operator or reversed condition on a left constant means the operator |
| `Selection.BinopMemoryOk` | src/ir68k.c:972-1011 | folding the right operand into the instruction means the operator, the operand being read after the left one |
| `Selection.BinopGenericOk` | src/ir68k.c:1040-1091 | right operand pushed, left in D0, popped to D1: every operator, with division by the runtime helpers |
| `Selection.CompareOk` | src/ir68k.c:1334-1358 | the flags after the compare are those of the operands, in reversed order exactly when the constant is on the left |
| `Selection.IndexedOk` | src/ir68k.c:1015-1029 | *(base + index) through (A0,D1.L) reads what the general load would |
| `Selection.LoadOk` | src/ir68k.c:1163-1175 | promoted, indexed and general loads |
| `Selection.StoreOk` | src/ir68k.c:1176-1206 | promoted, direct and general stores, the destination address kept on the stack meanwhile |
| `Selection.UnaryOk` | src/ir68k.c:1210-1221 | negation, complement and logical not |
| `Selection.CastOk` | src/ir68k.c:1266-1277 | narrowing casts and conversion to bool |
| `Selection.ShortCircuitOk` | src/ir68k.c:1222-1251 | && and || evaluate the right operand exactly when needed and give 0 or 1 |
| `Selection.CondExprOk` | src/ir68k.c:1252-1261 | only the chosen arm runs |
| `Selection.ArgsOk` | src/ir68k.c:1093-1114 | after the pushes the stack holds the argument values in order |
| `Selection.CallDirectOk` | src/ir68k.c:1093-1114 | a call by name has the callee's effect, its result in D0 and the stack pointer restored |
| `Selection.CallIndirectOk` | src/ir68k.c:1093-1114 | same through a computed address, evaluated after the arguments |
| `Effects.MemzeroOk` | src/ir68k.c:1116-1146 | clearing a local has its meaning, in a register or in memory, whenever the size is one the code gets right |
| `Effects.MemzeroClears` | src/ir68k.c:1116-1146 | for every size, the number of bytes the code really clears |
| `Effects.LargeLocal` | src/ir68k.c:1140-1145 | the loop's limit, beyond usable frames: of 70000 bytes it clears 4464 |
| `SelectProof.ClearsExactlyIff` | src/ir68k.c:1116-1146 | that number is the size if and only if the size is at most 65536 in the byte loop, and non-zero there |
| `Selection.CondPairOk` | src/ir68k.c:1307-1330 | && and || as branches, with and without a skip label |
| `Selection.CondRelationOk` | src/ir68k.c:1332-1362 | a relation branches when its truth equals `when`, for constants on either side and both signednesses |
| `Selection.CondOk` | src/ir68k.c:1302-1368 | control reaches the label exactly when truth equals `when`, and the end of the code otherwise, at any nesting |
| `Selection.ExprOk` | src/ir68k.c:1149-1298 | for every well-typed expression: value in D0, same memory, promoted registers and call trace, stack pointer and the stack above it restored |
| `Registers.CodeKeeps` | src/ir68k.c:1149-1298 | no D2-D7 or A2-A5 register changes but those of stored promoted variables and value temporaries |
| `Labels.ExprLabels` | src/ir68k.c:1149-1298 | labels in the code of an expression are unique and come from the label numbers it takes |
| `Labels.CondLabels` | src/ir68k.c:1302-1368 | same for branching code |
| `Order.OrderOk` | src/ir68k.c:972-1011 | where no left operand disturbs a folded variable, the order of the tiles gives the right-first meaning |
| `Order.OrdersAgreeIff` | src/ir68k.c:972-1011 | for an addition or subtraction the two orders agree in a state if and only if the left operand leaves the folded variable with the value it had |
| `Order.Untouched` | src/ir68k.c:972-1011 | in every state: a left operand without a store to the variable, a store through a pointer or a call, as a test on the tree, leaves it alone |
| `Order.StoreToFolded` | src/ir68k.c:972-1011 | where the left operand stores to the folded variable itself, the orders agree exactly in the states where the value stored is the one it holds |
| `Order.OrderMatters` | src/ir68k.c:972-1011 | (x = 5) + x: the two orders differ |
| `Order.ClearLeftsUndisturbed` | src/ir68k.c:972-1011 | that test on every operator of a tree makes the order of operands invisible in every state |
| `FoldProof.PureQuiet` | src/ir68k.c:2043-2055 | an expression accepted by ie_pure changes no memory, register or trace |
| `FoldProof.TrivialPure` | src/ir68k.c:2059-2077 | an expression accepted by ie_trivial is pure |
| `FoldProof.EqualMeaning` | src/ir68k.c:2081-2105 | expressions accepted by ie_equal mean the same in every state |
| `FoldProof.FoldBinopOk` | src/ir68k.c:2110-2151 | a folded operator on two constants has the machine value, wrap-around and truncation included |
| `FoldProof.DoubleOk` | src/ir68k.c:2154-2174 | x + x as x << 1, given purity and equality |
| `FoldProof.IdentityOk` | src/ir68k.c:2165-2204 | every algebraic identity keeps value and effects, x*0 and x&0 included |
| `FoldProof.FoldUnaryOk` | src/ir68k.c:2230-2236 | folded unary operators have the machine value |
| `FoldProof.FoldOk` | src/ir68k.c:2207-2262 | folding a whole tree keeps the value, memory, registers and call trace |
| `FoldSettles.TreeSettles` | src/ir68k.c:2110-2262 | and nothing is left to fold in it: no operator on constants but those without a result, no identity, no choice that a constant decides |
| `FoldSettles.SettledIff` | src/ir68k.c:2207-2262 | trees of that kind are exactly those that folding leaves alone, so folding twice is folding once |
| `Lower.Builder.Stmt` | src/ir68k.c:555-616 | appends the items the proofs below are about |
| `Lower.Builder.IfStmt` | src/ir68k.c:569-581 | items and label number of an if |
| `Lower.Builder.ForStmt` | src/ir68k.c:582-597 | items and label number of a loop, with and without initialization, condition and increment |
| `LowerProof.LoweredOnce` | src/ir68k.c:555-616 | each label is defined once |
| `LowerProof.StmtOk` | src/ir68k.c:555-616 | stepping the lowered items reaches the big-step outcome and state of the statement, at any nesting |
| `LowerProof.ForTurnsOk` | src/ir68k.c:582-597 | all turns of a loop, with break and continue |
| `LowerProof.ScopedOutcome` | src/ir68k.c:555-616 | break and continue never leave the loop whose label they name |
| `LowerProof.BodyOk` | src/ir68k.c:555-616 | a whole body: same value, memory, registers and trace |
| `LowerProof.BodyStops` | src/ir68k.c:555-616 | the items stop exactly when the statement does |
| `Optimize.IrFunction.MarkLeaders` | src/ir68k.c:635-645 | the first item, labels and items after transfers |
| `Optimize.IrFunction.PartitionItems` | src/ir68k.c:651-663 | contiguous non-empty blocks that start exactly at the leaders |
| `Optimize.IrFunction.AddSuccessors` | src/ir68k.c:666-691 | edges by the last item of each block |
| `Optimize.IrFunction.AddPredecessors` | src/ir68k.c:693-711 | predecessors are the converse of successors |
| `Optimize.IrFunction.BuildCfg` | src/ir68k.c:630-712 | blocks partition the items and carry exactly the edges |
| `Items.StepFollowsEdges` | src/ir68k.c:630-712 | no step leaves a block but along one of its edges |
| `Items.BlockStarts` | src/ir68k.c:635-663 | blocks start at the first item, at labels and behind jumps, branches and returns, and nowhere else |
| `Items.BlockEdges` | src/ir68k.c:666-711 | the successors are the next block, unless the last item jumps or returns, and the block that starts at the first definition of its label; predecessors are the converse |
| `Optimize.IrFunction.FoldExprs` | src/ir68k.c:2265-2269 | folds every item |
| `Optimize.IrFunction.FoldBranches` | src/ir68k.c:2274-2285 | a branch on a constant becomes a jump or nothing, and none is left |
| `Optimize.IrFunction.MarkReachable` | src/ir68k.c:2291-2303 | the work stack marks exactly the blocks some path from the entry reaches |
| `Optimize.IrFunction.DceUnreachable` | src/ir68k.c:2288-2312 | clears exactly the other blocks |
| `Optimize.IrFunction.DceDeadEval` | src/ir68k.c:2315-2321 | clears evaluations accepted by ie_trivial |
| `Optimize.IrFunction.IrOptimize` | src/ir68k.c:2323-2329 | the passes in order, the graph rebuilt in between |
| `OptimizeProof.BranchStep` | src/ir68k.c:2274-2285 | folding a branch keeps every step |
| `OptimizeProof.LiveStep` | src/ir68k.c:2288-2312 | a run stays in blocks the entry reaches |
| `OptimizeProof.UnreachableStep` | src/ir68k.c:2288-2312 | removing the others keeps every such step, label lookup included |
| `OptimizeProof.DeadStep` | src/ir68k.c:2315-2321 | removing a trivial evaluation keeps every step |
| `OptimizeProof.OptimizeKeepsRuns` | src/ir68k.c:2323-2329 | all passes together: after any number of steps the same place, memory, registers, trace and returned value |
| `OptimizeProof.OptimizeSettles` | src/ir68k.c:2265-2321 | all passes together leave nothing to fold, no branch on a constant, no evaluation of a trivial expression, and only no-ops where no path leads |
| `Function.EmitItems` | src/ir68k.c:2447-2459 | emits the items in order |
| `Function.BodyRunOk` | src/ir68k.c:2447-2459 | a run of the items is a run of the machine, to the epilogue, with the value in D0 |
| `Function.BodyUnique` | src/ir68k.c:2447-2459 | the emitted body defines each label once |
| `Compile.LoweredTargets` | src/ir68k.c:555-616 | every jump in a scoped body has a target |
| `Compile.OptimizedTargets` | src/ir68k.c:2323-2329 | jumps that survive optimization keep their labels |
| `Compile.FoldFits` | src/ir68k.c:2207-2262 | folding keeps operands well-formed and needs no more stack |
| `Compile.ClearLeftsRun` | src/ir68k.c:972-1011 | the test on the items alone makes the order condition hold on every run |
| `Compile.BuiltRuns` | src/ir68k.c:2422-2445 | the items that are left for emission, optimized at -O3 and as lowered below it, run to the big-step outcome in the order of the tiles |
| `Compile.CompileOk` | src/ir68k.c:2422-2459 | statement to machine: lowering, optimization and emission give the big-step result |
| `Liveness.BeforeIs` | src/ir68k.c:1795-1833 | the backward transfer of a block is: exposed uses, and what is live after and not killed |
| `Liveness.LiveInSolution` | src/ir68k.c:1815-1833 | everything live along some path is in every solution of the equations |
| `RegAlloc.RegAllocator.Walk` | src/ir68k.c:1732-1785 | events of an expression, in listed order, cut at 4096 |
| `RegAlloc.RegAllocator.BlockUseDef` | src/ir68k.c:1795-1813 | exposed uses and must-kills of a block |
| `RegAlloc.RegAllocator.Sweep` | src/ir68k.c:1817-1832 | sets only grow and hold only live candidates; unchanged means the equations hold |
| `RegAlloc.FixpointSolves` | src/ir68k.c:1815-1833 | a sweep without change has found exactly the live sets |
| `RegAlloc.RegAllocator.BlockConflicts` | src/ir68k.c:1839-1858 | the matrix gains exactly the pairs where one is defined while the other lives |
| `RegAlloc.RegAllocator.EntryConflicts` | src/ir68k.c:1861-1866 | and the pairs live together on entry |
| `RegAlloc.RegAllocator.RaLiveness` | src/ir68k.c:1789-1872 | terminates; sets are exact path liveness and the matrix is exactly the conflict relation |
| `RegAlloc.RegAllocator.Rank` | src/ir68k.c:1885-1901 | the colourable candidates by uses, ties in declaration order |
| `RegAlloc.RankedIs` | src/ir68k.c:1885-1901 | that is every candidate used in a loop whose address is not taken, once, more uses first |
| `RegAlloc.RegAllocator.Choose` | src/ir68k.c:1905-1918 | the first pool register that no earlier conflicting candidate holds |
| `RegAlloc.RegAllocator.ColorGlobal` | src/ir68k.c:1881-1922 | liveness, ranking and colouring; returns the highest data register |
| `RegAlloc.RegAllocator.SelectByUse` | src/ir68k.c:1988-2005 | the selection without liveness |
| `Sharing.BlockSafe` | src/ir68k.c:1839-1858 | within a block, any sub-list of the events that keeps the must-defs reads every candidate's own value |
| `Sharing.SharingSafe` | src/ir68k.c:1881-1922 | along every path from the entry, every use reads what the candidate's private slot would hold |
| `Sharing.MemoryWhenFull` | src/ir68k.c:1905-1918 | every register below the one a candidate gets, or every one if it stays in memory, is held by a candidate in conflict with it that has more uses, or as many and an earlier declaration |
| `Sharing.SelectedInTurn` | src/ir68k.c:1988-2005 | the same of the selection without liveness, whatever the conflicts |
| `Sharing.AllInterfere` | src/ir68k.c:1988-2005 | if all interfere, colouring and plain selection give the same registers and the same return value |
| `ExactSharing.SafeIff` | src/ir68k.c:1732-1922 | an assignment of registers, the allocator's or any other, is right on every path of the order in which events are performed if and only if it keeps every pair that meets in that order apart |
| `ExactSharing.ListedEnoughIff` | src/ir68k.c:1732-1922 | so all assignments that keep listed conflicts apart are right if and only if every pair that meets is a listed conflict |
| `PromotedRuns.RunsApartIff` | src/ir68k.c:1732-1922 | the condition of the theorems below is that one: the items' own events are safe in these registers on every path |
| `SharedSum.Lowers` | src/ir68k.c:598-607 | the items of do { x = 1; y = x; } while (!y); return y + (x = 5); |
| `SharedSum.HasCfg` | src/ir68k.c:630-712 | their blocks and edges |
| `SharedSum.Unchanged` | src/ir68k.c:2323-2329 | the optimizer leaves them as they are |
| `SharedSum.Allocate` | src/ir68k.c:1881-1922 | the allocator, run on them, puts x and y both in D2 |
| `SharedSum.WrongSum` | src/ir68k.c:1779-1783 | in those registers the function returns 10; with private variables the statement and its items give 6 |
| `EventOrder.RunMilder` | src/ir68k.c:1732-1785 | where right operands only use candidates the left ones do not define, the order of evaluation demands no more than the listed order |
| `SharedSum.NotListed` | src/ir68k.c:1779-1783 | its sum fails that condition |
| `Coloring.ListedOkEnough` | src/ir68k.c:1732-1785 | under that condition on every item, the listed conflicts are enough in the sense of the equivalence above |
| `Coloring.ColorRegs` | src/ir68k.c:1966-2006 | when off, no register at all; else only candidates used in a loop whose address is not taken get one, each the lowest that no candidate ahead of it denies it: by liveness those in conflict with it, otherwise all; the highest data register is the result |
| `Promotion.EvalTracks` | src/ir68k.c:1789-1922 | evaluation with shared registers and with a private cell for every variable agree on success, value, memory, trace and all live variables |
| `PromotedRuns.BuiltFlows` | src/ir68k.c:2422-2445 | the blocks carry every step of the items left for emission, whatever the optimizer removed after they were built |
| `PromotedRuns.PromotionOk` | src/ir68k.c:1789-1922 | a whole run, stuck or not, with registers that keep apart what meets is the run with private variables |
| `Coloring.ColoredRuns` | src/ir68k.c:1881-1922 | corollary: every run of a function coloured by liveness for which the listed conflicts are enough |
| `Coloring.ListedApart` | src/ir68k.c:1881-1922 | and a function coloured by liveness whose operands' order is harmless keeps apart what meets |
| `Coloring.ApartRuns` | src/ir68k.c:1988-2005 | so is every run with one register a variable, in whatever order events are listed |
| `ColoredCode.ColoredCodeOk` | src/ir68k.c:2422-2459 | down to the machine: the code of a body whose registers keep apart what meets gives the result of the items' run with private variables |
| `ColoredCode.ColoredLinesOk` | src/codegen68k.c:1894-1986 | and so do the lines the peephole leaves of it |
| `ColoredCode.PrivateOk` | src/ir68k.c:2422-2459 | the whole back end: whenever the statement finishes by its big-step meaning with every promoted variable private, the machine leaves the lowered, optimized, coloured, emitted and peepholed lines with the same value, memory and calls |
| `Build.BuildItems` | src/ir68k.c:2422-2433 | lowering, blocks, and at -O3 the optimizer |
| `Build.EmitLines` | src/ir68k.c:2447-2459 | emission and peephole: a rewriting of the emitted code to which no rule applies |
| `Build.BuildBody` | src/ir68k.c:2422-2459 | one function through all of it: registers as above, nothing promoted when off, the optimizer from -O3 on, and what comes out meets the hypotheses of the theorems above |
| `Build.RegsTied` | src/ir68k.c:1905-1918 | the registers left with the variables are those the theorems speak of |
| `Build.BodyMeans` | src/ir68k.c:2422-2459 | what BuildBody leaves means what the statement means with private variables, given tests on the trees alone for the order of operands |
| `Peephole.PeepNext` | src/codegen68k.c:1876-1881 | the next undeleted line |
| `Peephole.DropDead` | src/codegen68k.c:1967-1983 | deletes the instructions between a transfer and the next label or directive |
| `Peephole.PeepPass` | src/codegen68k.c:1896-1985 | one pass; each change removes one line; no change means no rule applies anywhere |
| `Peephole.Peephole` | src/codegen68k.c:1894-1986 | passes until nothing changes: terminates, and the result is a rewriting of the input to which no rule applies |
| `PeepholeProof.RuleMeans` | src/codegen68k.c:1907-1983 | when each rule applies and what it leaves |
| `PeepholeProof.RewriteKeepsScratch` | src/codegen68k.c:1907-1983 | a rewrite keeps the condition on A0, so it needs to hold only once |
| `PeepholeProof.PeepholeKeepsMeaning` | src/codegen68k.c:1894-1986 | the rewritten lines leave exactly when the original does, with the same registers but A0, memory and trace |
| `PeepholeProof.ScratchNeeded` | src/codegen68k.c:1924-1941 | without the condition: a program whose result the direct-load rule changes |
| `Scratch.BodyScratch` | src/ir68k.c:2447-2459 | every body the back end emits meets the condition |
| `Pipeline.PipelineOk` | src/codegen68k.c:1894-1986 | lowering, optimization, emission and peephole together |
| `Layout.PlaceMember` | src/parse.c:2712-2737 | one member: an ordinary one at the least multiple of its alignment behind what precedes it, a bit-field at the next free bit or, if it would straddle its unit, at the next unit, a zero width at a multiple of its unit |
| `Layout.StructDecl` | src/parse.c:2702-2741 | every member so, behind the one before; the alignment is the largest, that of a member or the one given; the size is the least multiple of it that holds them |
| `Layout.MembersDisjoint` | src/parse.c:2702-2741 | members occupy disjoint ranges of bits |
| `Layout.FieldPlaced` | src/parse.c:2716-2727 | offset and big-endian bit offset denote the field's first bit inside one aligned unit |
| `Bitfield.MergeBits` | src/codegen68k.c:1088-1106 | masking and or-ing replace exactly the field's bits of the unit |
| `Bitfield.IsolateIs` | src/codegen68k.c:1040-1047 | up to bit 31 and back is the field, sign- or zero-extended |
| `Bitfield.StoreFieldBits` | src/codegen68k.c:1085-1112 | in memory, the bits of the field become those of the value and no other bit changes |
| `Bitfield.StoreThenLoad` | src/codegen68k.c:1085-1117 | a load after a store gives the value truncated to the width and extended |
| `Bitfield.OtherFieldKept` | src/codegen68k.c:1085-1117 | and leaves every disjoint field's value alone |
| `Bitfield.MembersIndependent` | src/parse.c:2702-2741 | for the members as laid out: a store to one changes no bit of another |
| `BitfieldCode.LoadOk` | src/codegen68k.c:1036-1048 | the emitted load leaves the field's value in D0 |
| `BitfieldCode.StoredThenLoaded` | src/parse.c:2702-2741 | for members where struct_decl puts them: the emitted store, then the emitted load of the same or another field, gives the value truncated and extended, or what the other held |
| `BitfieldCode.StoreOk` | src/codegen68k.c:1085-1117 | the emitted store rewrites the unit, keeps the rest of memory and leaves the field's value in D0 |
| `Dwarf.UlebRoundTrip` | src/emit_elf.c:53-61 | unsigned LEB128 reads back, whatever follows |
| `Dwarf.SlebRoundTrip` | src/emit_elf.c:62-73 | signed LEB128 reads back |
| `Dwarf.LebExamples` | src/emit_elf.c:53-73 | the examples that section 7.6 of DWARF version 4 gives for both |
| `Dwarf.Buf.Need` | src/emit_elf.c:27-32 | the buffer grows and keeps its bytes |
| `Dwarf.Buf.PutUleb` | src/emit_elf.c:53-61 | the loop appends the encoding |
| `Dwarf.Buf.PutSleb` | src/emit_elf.c:62-73 | the loop appends the encoding |
| `Dwarf.Buf.Patch32` | src/emit_elf.c:1034-1039 | writes four bytes in place and no other |
| `Dwarf.Assembler.Loc` | src/emit_elf.c:816-831 | records the row, overwriting the last one at the same address |
| `Dwarf.RecordedAscends` | src/emit_elf.c:816-831 | addresses of recorded rows increase strictly |
| `Dwarf.RecordedMeans` | src/emit_elf.c:816-831 | one row per address, with the line last given there |
| `Dwarf.RowsRun` | src/emit_elf.c:1116-1135 | executing the emitted opcodes yields the rows |
| `Dwarf.ProgramExample` | src/emit_elf.c:1113-1135 | the bytes of a program of one row, numbers big-endian |
| `Dwarf.UnitReadsBack` | src/emit_elf.c:1089-1136 | a consumer of the unit sees exactly the recorded rows in order and an end_sequence row at the end of text, wherever text is placed |
| `Dwarf.TablesReadBack` | src/emit_elf.c:1101-1110 | the header lists no directory and one file, the name given, and nothing else is in it |
| `Dwarf.LengthsSuit` | src/emit_elf.c:1101-1103 | the opcode lengths are those of the state machine: skipping that many operands leads where executing the opcode does |
| `Dwarf.Relocated` | src/emit_elf.c:1113-1115 | the relocation touches the four address bytes and gives the unit for that base |
| `Dwarf.Assembler.BuildLine` | src/emit_elf.c:1089-1136 | what is appended is that unit |
| `Macros.HidesetContains` | src/preprocess.c:121-126 | membership |
| `Macros.HidesetUnion` | src/preprocess.c:111-119 | a union, as a list ending in the second operand |
| `Macros.MarkAll` | src/preprocess.c:138-148 | adds the names to every token's hideset |
| `Macros.ReplacedLighter` | src/preprocess.c:630-655 | the measure: a replacement makes the list lighter, weighing each token by the macros absent from its hideset |
| `Macros.HidesetsNest` | src/preprocess.c:630-655 | hidesets act as the set of macros being replaced around a token, as section 6.10.3.4 of C11 has it |
| `Macros.ReplacedMeans` | src/preprocess.c:630-655 | replacing the first token does not change the whole expansion |
| `Macros.WriteReplaced` | src/preprocess.c:646-655 | nor does it change what is written, spacing included |
| `Macros.WrittenAsIs` | src/preprocess.c:839-858 | tokens that no macro touches are written unchanged |
| `Macros.WrittenInPlace` | src/preprocess.c:646-655 | the first token written for a macro has the place in the line the macro had, and if nothing is written the token behind gets it |
| `Macros.WrittenBare` | src/preprocess.c:839-858 | and but for the places, what is written is the expansion |
| `Macros.Preprocessor.ExpandMacro` | src/preprocess.c:630-655 | replaces exactly macro names that are not in their own hideset, by their list with the name and the hideset added to every token's, the first token in the macro's place |
| `Macros.Preprocessor.Preprocess2` | src/preprocess.c:839-858 | terminates for every table; what is written, with the line starts and spaces of each token, is the token-by-token expansion; every macro name left is in its own hideset |
| `Macros.ReplacementKeepsDirectives` | src/preprocess.c:646-655 | one replacement keeps the directive status of every token behind it if and only if its list is not empty, or the next token is no "#" or has the macro's place in its line |
| `Macros.StopsAtFirstIff` | src/preprocess.c:839-858 | the loop stops at the first directive of its input if and only if no macro in front of it starts one of its own, and none with an empty list, or with one at the end of its list, takes it off the start of its line |
| `Macros.EmptyMacroHidesDirective` | src/preprocess.c:649-655 | an empty macro hands its place in the line to the token behind it, and leaves the expansion as it was |
| `Macros.LostDirective` | src/preprocess.c:839-858 | "x E", then "# define Y" on the next line, with E empty: the directive is passed through as text |
| `Macros.MadeDirective` | src/preprocess.c:839-858 | "E # define Y" on one line: it becomes a directive |
| `HashMap.FnvHash` | src/hashmap.c:17-24 | the loop computes the 64-bit hash, wrapping |
| `HashMap.HashIs` | src/hashmap.c:17-24 | FNV-1 with its 64-bit constants: multiply, then exclusive or |
| `HashMap.SlotIs` | src/hashmap.c:67 | wrap-around of the 64-bit sum does not disturb the probe order |
| `HashMap.HashMap.GetEntry` | src/hashmap.c:60-74 | finds the key's entry or none; the loop never runs out |
| `HashMap.HashMap.Get2` | src/hashmap.c:112-115 | the value the finite map has, or null |
| `HashMap.HashMap.Insert` | src/hashmap.c:86-105 | stops at the key, a tombstone or a free slot, whichever is first, and changes that slot alone |
| `HashMap.HashMap.GetOrInsert` | src/hashmap.c:76-106 | same after making room: 16 slots at first, a rehash from 70 per cent on, the same table below that |
| `HashMap.HashMap.Put2` | src/hashmap.c:121-124 | keys stay unique exactly when the key is not stored behind a tombstone of its own probe path; then the map gains the pair |
| `HashMap.HashMap.Delete2` | src/hashmap.c:130-134 | the map loses the key, probe paths stay closed |
| `HashMap.HashMap.NewCapacity` | src/hashmap.c:35-38 | doubles until below 50 per cent |
| `HashMap.HashMap.Rehash` | src/hashmap.c:28-53 | the assertion on the count holds if and only if no two entries have one key; then same contents, no tombstones, less than half full |
| `HashMap.StoreUnique` | src/hashmap.c:86-105 | the exact condition under which a store keeps keys unique |
| `HashMap.StaleValueReturns` | src/hashmap.c:86-105 | when it fails, deleting the key brings its old value back |
| `HashMap.StaleHistory` | src/hashmap.c:76-134 | put a, put q, delete a, put q, delete q: a get of q answers its first value |
| `HashMap.Replay` | src/hashmap.c:108-134 | every history in which a put after a delete uses an absent key answers like a finite map |
| `Calendar.DaysInverse` | libc/core/time.c:35-58 | from any day to a valid date and back |
| `Calendar.CivilInverse` | libc/core/time.c:35-58 | from any valid date to a day and back |
| `Calendar.EpochIsZero` | libc/core/time.c:35-42 | 1970-01-01 is day 0 |
| `Calendar.NextDayNumber` | libc/core/time.c:35-42 | the next date of the Gregorian calendar has the next number |
| `Calendar.LaterIs` | libc/core/time.c:35-58 | the date n numbers on is the one n days later |
| `Time.NthRule` | libc/core/time.c:244-263 | an Mm.w.d rule names the w-th such weekday of the month, or the last |
| `Time.JulianRule` | libc/core/time.c:244-263 | a Jn rule names the same month and day every year |
| `Time.JulianDay` | libc/core/time.c:244-263 | in a year of 365 days, its n-th |
| `Time.DayOfYearRule` | libc/core/time.c:244-263 | an n rule names the day n days after January 1, leap years included |
| `Time.DstDecision` | libc/core/time.c:266-274 | the local-time test differs from the rule in universal time exactly between the ends that the two offsets give, for every pair of offsets |
| `Time.RepeatedHour` | libc/core/time.c:337-354 | EST5EDT, 2023-11-05 06:00 in universal time: reported as daylight saving, an hour late |
| `Time.HourBefore` | libc/core/time.c:337-354 | IST-1GMT0, 2024-03-31 00:30 in universal time: the winter time is left early |
| `Time.GmFields` | libc/core/time.c:312-335 | fields in range, the weekday counted from a Thursday, the day of the year counted from January 1, and together they are the time |
| `Time.MonthCarry` | libc/core/time.c:356-366 | months outside 0..11 carry into the year |
| `Time.ReadingCounts` | libc/core/time.c:356-368 | a reading counts seconds, minutes, hours and days from the first of the month that its months carry to, whatever their values |
| `Time.TimeLib.TzTransDays` | libc/core/time.c:244-263 | computes the day of a rule, last-week loop included |
| `Time.TimeLib.TzIsdstLocal` | libc/core/time.c:266-274 | computes the test in both hemispheres |
| `Time.TimeLib.Gmtime` | libc/core/time.c:312-335 | fills the shared buffer: each field is the one the day and the second of the day have |
| `Time.TimeLib.Localtime` | libc/core/time.c:337-354 | fills the shared buffer |
| `Time.TimeLib.Mktime` | libc/core/time.c:356-377 | the reading is the time by the standard offset if isdst is zero, by the daylight offset if it is positive; normalizes the caller's structure, and a second call agrees |
| `Time.MktimeReadsBackIff` | libc/core/time.c:356-377 | with isdst negative, localtime after mktime shows the reading given exactly when mktime's test of it and the test localtime then makes agree, for every reading, zone and rule |
| `Time.MktimeReadsBack` | libc/core/time.c:356-377 | within a year: exactly when the clock shows it |
| `Time.MktimeUndoesLocaltime` | libc/core/time.c:337-377 | mktime(localtime(t)) is t for every t, zone and rule |
| `Utf8.AcceptsGrammar` | libc/core/uchar.c:6-40 | a character is accepted exactly when its bytes are one by section 4 of RFC 3629 |
| `Utf8.PotentialIff` | libc/core/uchar.c:42-83 | more is asked for exactly of beginnings that can become a character and of the listed ones that cannot |
| `Utf8.EncodesGrammar` | libc/core/uchar.c:85-106 | every scalar's encoding is one character of that grammar with its value |
| `Utf8.DecodesEncoded` | libc/core/uchar.c:6-106 | decoding an encoding gives the scalar and its length, whatever follows |
| `Utf8.DecodePrefix` | libc/core/uchar.c:42-83 | more input does not change a decision |
| `Utf8.DecodeAllInverts` | libc/core/uchar.c:6-125 | decoding a whole encoded string |
| `Utf8.EncodeAllInverts` | libc/core/uchar.c:6-125 | a cleanly decoded string is the encoding of its code points |
| `Utf8.PairInverse` | libc/core/uchar.c:127-155 | section 2 of RFC 2781: a pair gives back the code point |
| `Utf8.PairIsScalar` | libc/core/uchar.c:168-195 | every pair is a code point with that pair |
| `Uchar.MbState.DecodeStream` | libc/core/uchar.c:42-83 | held bytes and new input together decide; what is undecided is held |
| `Uchar.MbState.Mbrtoc32` | libc/core/uchar.c:110-125 | return values and state in every case, the reset by a null string included |
| `Uchar.HopelessHeld` | libc/core/uchar.c:42-83 | E0 80: more is asked for, though nothing that follows makes a character |
| `Uchar.MbState.Mbrtoc16` | libc/core/uchar.c:127-155 | the low surrogate is delivered by the next call; a null string resets |
| `Uchar.MbState.C32rtomb` | libc/core/uchar.c:157-166 | bytes of a scalar, error otherwise; 1 without a buffer |
| `Uchar.MbState.C16rtomb` | libc/core/uchar.c:168-195 | holds a high surrogate, joins it with a low one; resets without a buffer |
| `Uchar.DecodeChunks` | libc/core/uchar.c:110-125 | code points and verdict do not depend on how the input is cut |
| `Uchar.UnitsRebuildBytes` | libc/core/uchar.c:127-195 | UTF-16 units written back give the bytes |
| `Uchar.Through16` | libc/core/uchar.c:127-195 | mbrtoc16 then c16rtomb rebuilds every clean string |
| `Uchar.Dropped` | libc/core/uchar.c:168-195 | a high surrogate that another one follows is dropped, wherever it stands: the bytes are those of the string without it |
| `Uchar.AcceptsCollapsed` | libc/core/uchar.c:168-195 | c16rtomb accepts exactly the strings that are well-formed without those, from any state |
| `Uchar.AcceptsWellFormedIff` | libc/core/uchar.c:168-195 | so it accepts exactly well-formed UTF-16 if and only if no two high surrogates meet or the rest is ill-formed |
| `Uchar.StrayHighAccepted` | libc/core/uchar.c:168-195 | 0041 D800 D801 DC00 is accepted |
| `HexFloat.NearestEven` | libc/core/vformat.c:160-173 | rounding 13 digits to n gives the nearest number, halves to even |
| `HexFloat.DigitsSpell` | libc/core/vformat.c:144-151 | the thirteen digits spell the 52-bit fraction |
| `HexFloat.ScHexfloat` | libc/core/vsscanf.c:80-125 | sign, mantissa and exponent of a token, for every string |
| `HexFloat.TokenMeans` | libc/core/vsscanf.c:80-125 | a token without a sign: all its digits, of either case, as one integer, scaled by its exponent and by the digits behind the point |
| `HexFloat.ExponentMeans` | libc/core/vsscanf.c:110-122 | no exponent adds nothing, no sign of it means plus |
| `HexFloat.SignInFront` | libc/core/vsscanf.c:80-87 | "-" in front of a token negates it, "+" changes nothing |
| `HexFloat.ReadsBack` | libc/core/vsscanf.c:80-125 | reading a printed text gives its digits as an integer and its exponent |
| `HexFloat.TextLaid` | libc/core/vformat.c:199-222 | the prefix, a leading 0 or 1, a point exactly when digits follow, letters of one case, a sign behind the p, an exponent without leading zeros |
| `FloatPrint.Nibbles` | libc/core/vformat.c:144-151 | extracts the digits |
| `FloatPrint.AddOne` | libc/core/vformat.c:175-183 | the carry loop adds one |
| `FloatPrint.RoundTo` | libc/core/vformat.c:160-193 | rounding decision, carry and renormalization of 2.0 |
| `FloatPrint.PutExp` | libc/core/vformat.c:210-220 | the exponent in decimal |
| `FloatPrint.FmtHex` | libc/core/vformat.c:119-223 | writes a text of that shape, with prec digits, 50 at most, or in exact mode at most 13 of which the last is not 0; then the terminator, and no byte after it |
| `FloatPrint.PrintsNearest` | libc/core/vformat.c:119-223 | below 13 digits the text denotes the nearest value with that many digits, halves to even, carry into the lead digit included |
| `FloatPrint.ExactReadsBack` | libc/core/vformat.c:119-223 | in exact mode, and from 13 digits on, what sc_hexfloat reads denotes the value itself, its exponent 0 for zero and else that of a leading digit before the point, its mantissa below 2^53 in exact mode |
| `FloatPrint.ValueDetermines` | libc/core/vformat.c:127-142 | a finite double is determined by its value |
| `FloatPrint.ExactTextsDiffer` | libc/core/vformat.c:119-223 | so different finite doubles never print alike in exact mode |

## Left out

- IrExpr: trees are values. ie_fold rewrites nodes in place and ie_equal compares names and variables by pointer; sharing between trees is not modelled.
- Machine: the flags after arithmetic, logic, shift and extend instructions, and after a call all scratch registers, are arbitrary functions of the state (no emitted code reads those flags); address-error exceptions on odd word accesses, the 16-bit displacement of branches, and timing are not modelled. Displacements from A6 are unbounded, while the assembler keeps 16 bits of them (`src/emit_elf.c:405`): frames are taken to be smaller than 32768 bytes. `Exit` stands for the epilogue after the return label.
- Jsr: carries its argument count, so that the callee's argument area is known; the source pushes and adjusts the stack without one.
- Eval: has no result for an expression that touches the stack space reserved for generated code or uses a value that is not there; division by zero and INT_MIN / -1 give an arbitrary but fixed word.
- PeepholeKeepsMeaning: arbitrary results of calls and helpers do not depend on A0, which the calling convention lets them clobber, nor on the program counter.
- Peephole: lines are instructions, labels and directives as a datatype; matching of their text, and 8-byte loads, are not modelled.
- PrivateOk: private variables hold whole words, as registers do; that a variable in a frame slot of its own size would hold the same is not stated. Which variables are promoted is given.
- SharingSafe: bitset words are sets, and the 256-candidate limit is not modelled; the 4096-event limit is, and `Coloring.ListedOkEnough` asks for items below it.
- RegAllocator: candidates and their counts are given; ra_walk, ra_add_cand and fa_find, which collect them, are not modelled, nor are the parameter loads of the prologue (`Entered` states what they establish) and ra_has_user_jump.
- Stmt: no user goto or label, switch, statement expression or variable-length array; build_expr, expr_ok and stmt_ok, which make the IR from the parser's nodes, are not modelled.
- Codegen: opt_level is 2 or more, as it is wherever the IR is used; the single-pass generator of `src/codegen68k.c` repeats the same tiles and only its bit-field sequences are modelled.
- Vdef: value temporaries are modelled as expressions; ir_vtemp_new, which finds them a free register, is a hypothesis (`TempsApart`).
- StructDecl: packed structs, 8-byte units and widths above the unit are not modelled; memory is larger than the struct.
- StoreOk: the code of the address and of the value, which comes before, is not repeated here.
- BuildLine: the section is built with base 0 and relocated; symbol tables, the other debug sections and file writing are not modelled. Addresses and lengths below 2^32.
- Preprocess2: up to the first directive. Function-like macros, #, ##, includes, dynamic builtins and the directives themselves are not modelled; token lists are sequences, so a body shared by two expansions is not, nor are the line_delta and filename of a written token.
- HashMap: keys are values, so a caller that changes a key's bytes later is not modelled; capacities stay at most 2^24, where `used * 100` does not overflow.
- Replay: a history of at most 2^20 operations, within those capacities.
- MktimeReadsBack: the form with the clock's intervals leaves out readings within an hour of the turn of the year, where two years' rules meet, and readings whose days or hours carry them into another year than their months do; `MktimeReadsBackIff` covers them, in terms of the two tests.
- Time: integers do not overflow; a rule naming a month above 12 indexes outside its table and is excluded; parsing of the TZ string, the clock and strftime are not modelled.
- Mbrtoc32: a null state pointer, which selects the library's own state, and errno are not modelled.
- ScHexfloat: the mantissa is an integer. The source accumulates it in a double, which is exact below 2^53 and for trailing zeros; ldexp is not modelled.
- FmtHex: the double is given as its two words.
- Floating-point and 64-bit code, struct values, setjmp, ELF writing, the driver, stdio and the operating-system seams: not modelled.
