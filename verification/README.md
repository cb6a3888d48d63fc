# Verified models

Dafny models of the core of Lua 5.3.4, of two C++ structures and of a few smaller pieces
kept in this repository, with proofs of what they are for. `dafny verify dfyconfig.toml`
checks everything.

**Garbage collector** (`ObjectHeap`, `GcInvariant`, `GcSweep`, `GcMutator`, `GcProgram`,
`Collector`).
The incremental tri-colour collector as a class whose fields are the heap, the gray lists,
the list of all objects, the sweep position, the phase and the current white. Objects are
records with a kind, a colour, a metatable, slots and table nodes; tables may be strong,
with weak values, or ephemerons. Program steps (allocation, stores with their forward or
backward barrier, stack and root changes, interning) are interleaved with collector steps
in any order. Safety holds over all runs; a full collection from any phase leaves exactly
what the roots reach. `GcProgram` says what each action does to the state: every run agrees
with the same program run without a collector, and a program without weak tables cannot
tell the two apart. The assertion at the start of `atomic` that no weak table is linked
yet (`lgc.c:985`) can fail, because the propagation just before it already links weak tables;
`AssertionFails` is a run that gets there and `LastPropagation` says when the assertion
holds. The collection is correct nevertheless.

**Code generator** (`LuaVM`, `JumpLists`, `ShortCircuit`, `CodegenSteps`, `CodegenState`,
`LogicalExpr`, `Codegen`). The generator for logical expressions: jump lists kept inside the
jumps, delayed patching, TESTSET turned into TEST, the removal of a pending `not`. Opcode
meaning is that of the comments in `lopcodes.h`. For every expression and every
environment the code delivers the value of the expression.

**Tables** (`TableNodes`, `TableSizes`, `TableContents`, `LuaTable`). Array part and hash
part with Brent's variation, relative links, the cursor of free nodes, and the rehash that
inserts again. The table agrees with a finite map; insertion ends.

**Red-black tree** (`TreeMemory`, `RedBlack`, `TreeOrder`, `RbTree`). Nodes in memory with
parent links; insertion, iterators and the checker. The two mirror images of a rotation and
of a repair step are written once, with a direction.

**Huffman compression** (`OptimalTrees`, `HuffmanHeap`, `HuffmanTree`, `PrefixCodes`,
`FileCompress`). Optimality of the tree that the heap builds, and the round trip of files. A
file with a single byte value cannot be decompressed, because the decoder always steps to
a child; a file with two different byte values always can.

**Pattern matching** (`PatternItems`, `PatternSearch`, `PatternMatch`, `PatternSyntax`,
`PatternMeaning`). The backtracking matcher against a declarative meaning: a pattern is a
sequence of items, a way says how often each is taken, and the result is that of the most
preferred way. `PatternSyntax` says how patterns are written and what their classes accept,
and `PatternMeaning` what a written pattern matches.

**Quoting** (`QuotedPieces`, `StringLexer`, `StringQuoting`), **packing** (`PackIntegers`,
`StringPack`, `PackLayout`), **precedence climbing** (`Precedence`, `PrecedenceRanks`):
printers and their parsers. `PackLayout` says where each option of a format is written and
with which bytes; `PrecedenceRanks` says, by the levels of section 3.4.8 of the Lua 5.3
Reference Manual alone, how an expression without parentheses is grouped. Unpacking
the option `z` where no zero byte follows succeeds with a position beyond the end of the
data; `StringPack.EndPosition` says for every format and data when that happens.

**String interning** (`StringTable`), **pool allocator** (`PoolMemory`, `PoolSupply`,
`PoolAllocator`), **worker pool** (`ThreadPool`). The pool of workers is a state machine;
whatever the schedule, every request is accounted for until it is processed.

Results of the system's `malloc`, the schedule of threads and the hash seed are parameters.
Functions named after a loop are the specification of the method of that loop; what is
promised is proved about the function.

## Model

| member | source | states |
|---|---|---|
| Collector.GlobalState.Run | DataStruct/ThreadTree/lua-5.3.4/src/lgc.c:155-176 | every run of program steps and collector steps has a trace of such updates, and its end agrees with the same program steps done without any collector, but for collected objects, weak references and keys of empty entries; everything that any chain of references from the roots leads to is still in the heap and alive, and no reference dangles |
| GcProgram.RunRefines | DataStruct/ThreadTree/lua-5.3.4/src/lgc.c:155-176 | in every run the heap has what the same program would have without a collector, but for collected objects, weak references and keys of empty entries |
| GcProgram.Transparent | DataStruct/ThreadTree/lua-5.3.4/src/lgc.h:15-25 | a program without weak tables cannot see the collector: its roots reach the same objects with the same contents as if nothing had ever been freed |
| GcProgram.AccessibleUsable | DataStruct/ThreadTree/lua-5.3.4/src/lgc.h:15-25 | whatever the program can reach by any references is alive, so that no action with it is refused |
| Collector.GlobalState.Act | DataStruct/ThreadTree/lua-5.3.4/src/lgc.c:208-216 | each action does exactly its update of the state: allocation, a store with its barrier, stack and root changes and interning change what they say and nothing else, or nothing if they are not possible; a collector step and a full collection remove only what cannot be reached and weak references to it, in the order of the phases |
| Collector.GlobalState.Safe | DataStruct/ThreadTree/lua-5.3.4/src/lgc.h:15-25 | the invariant implies that nothing reachable is dead or freed |
| Collector.GlobalState.FullGC | DataStruct/ThreadTree/lua-5.3.4/src/lgc.c:1158-1174 | from any phase, a full collection leaves exactly the objects reachable from the roots, all of the current white; from them only weak references to collected objects were removed; the phase loop ends |
| Collector.GlobalState.SingleStep | DataStruct/ThreadTree/lua-5.3.4/src/lgc.c:1044-1096 | one step keeps the invariant, follows the order of the phases, keeps everything reachable with its contents, and decreases a measure while the phase stays the same; only the atomic step exchanges the whites |
| Collector.GlobalState.CycleStep | DataStruct/ThreadTree/lua-5.3.4/src/lgc.c:1103-1107 | during a cycle that began with a known heap, what is alive after the atomic phase is exactly what was reachable at its start |
| Collector.GlobalState.WholeCycle | DataStruct/ThreadTree/lua-5.3.4/src/lgc.c:1167-1170 | from one pause to the next the cycle relation to the heap at the start is kept |
| Collector.GlobalState.FinishPending | DataStruct/ThreadTree/lua-5.3.4/src/lgc.c:1162-1166 | a cycle under way is swept or finished before the full one begins, and the reachable objects are the same |
| Collector.GlobalState.ReallyMark | DataStruct/ThreadTree/lua-5.3.4/src/lgc.c:86-129 | a white object is marked; marking stays inside every closed set that bounds it; the number of unmarked objects decreases |
| Collector.GlobalState.MarkValue | DataStruct/ThreadTree/lua-5.3.4/src/lgc.c:83-86 | what a value refers to is marked and no other object changes its color unless it is reachable from it |
| Collector.GlobalState.TraverseStrongTable | DataStruct/ThreadTree/lua-5.3.4/src/lgc.c:433-448 | all references of a strong table are marked and it keeps its entries, except that empty entries lose dead keys |
| Collector.GlobalState.TraverseWeakValue | DataStruct/ThreadTree/lua-5.3.4/src/lgc.c:361-381 | a table with weak values keeps its keys alive and is put on the list that its phase wants |
| Collector.GlobalState.TraverseEphemeron | DataStruct/ThreadTree/lua-5.3.4/src/lgc.c:394-430 | an ephemeron table marks the values of marked keys; it reports whether it marked one, and afterwards is on the list for what is left |
| Collector.GlobalState.EphemeronEntry | DataStruct/ThreadTree/lua-5.3.4/src/lgc.c:408-421 | one entry: the value is marked only if the key is, and the flags say what is left of the entries so far |
| Collector.GlobalState.LinkEphemeron | DataStruct/ThreadTree/lua-5.3.4/src/lgc.c:422-429 | the list a traversed ephemeron table goes to, by phase and by what is left |
| Collector.GlobalState.TraverseTable | DataStruct/ThreadTree/lua-5.3.4/src/lgc.c:451-471 | by the kind of weakness; the metatable is marked |
| Collector.GlobalState.TraverseThread | DataStruct/ThreadTree/lua-5.3.4/src/lgc.c:530-552 | the stack of a thread is marked; outside of the last phase the thread stays gray and is on the list of objects to be traversed again, in front of those that were there |
| Collector.GlobalState.TraverseFunction | DataStruct/ThreadTree/lua-5.3.4/src/lgc.c:500-527 | what a function refers to is marked, and it is a black object that points to no white one |
| Collector.GlobalState.PropagateMark | DataStruct/ThreadTree/lua-5.3.4/src/lgc.c:559-600 | one gray object is traversed: no black object points to a white one afterwards, every gray object is on a list, and the work left decreases |
| Collector.GlobalState.PropagateAll | DataStruct/ThreadTree/lua-5.3.4/src/lgc.c:603-605 | the gray list is emptied; propagation ends |
| Collector.GlobalState.ConvergeEphemerons | DataStruct/ThreadTree/lua-5.3.4/src/lgc.c:608-623 | the passes end, and no ephemeron entry is left with a marked key and an unmarked value |
| Collector.GlobalState.ConvergePass | DataStruct/ThreadTree/lua-5.3.4/src/lgc.c:610-622 | one pass over the ephemeron tables either marks a value or leaves all of them converged |
| Collector.GlobalState.ClearValues | DataStruct/ThreadTree/lua-5.3.4/src/lgc.c:657-674 | in the tables on a list all values that are left are marked; nothing else is removed |
| Collector.GlobalState.ClearKeys | DataStruct/ThreadTree/lua-5.3.4/src/lgc.c:639-650 | in the tables on a list all entries with unmarked keys are gone; nothing else is removed |
| Collector.GlobalState.RemoveEntry | DataStruct/ThreadTree/lua-5.3.4/src/lgc.c:125-129 | the key of an empty entry becomes dead when it is a white object |
| Collector.GlobalState.RestartCollection | DataStruct/ThreadTree/lua-5.3.4/src/lgc.c:337-344 | the gray lists are empty but for the roots that were marked |
| Collector.GlobalState.AtomicPhase | DataStruct/ThreadTree/lua-5.3.4/src/lgc.c:981-1025 | afterwards the marked objects are closed under references, contain the roots, lie in every closed set that contains the roots, and the whites are exchanged |
| Collector.GlobalState.SweepList | DataStruct/ThreadTree/lua-5.3.4/src/lgc.c:723-751 | a slice of the sweep removes only dead objects and makes the others of the current white; it advances by the number of objects looked at |
| Collector.GlobalState.EnterSweep | DataStruct/ThreadTree/lua-5.3.4/src/lgc.c:958-963 | the sweep starts with no live object lost |
| Collector.GlobalState.SweepStep | DataStruct/ThreadTree/lua-5.3.4/src/lgc.c:1028-1041 | a part of the current list is swept or the next list is begun |
| Collector.GlobalState.Barrier | DataStruct/ThreadTree/lua-5.3.4/src/lgc.c:155-164 | after a store into a black object the forward barrier restores the invariant and changes nothing but colors |
| Collector.GlobalState.BarrierBack | DataStruct/ThreadTree/lua-5.3.4/src/lgc.c:171-176 | after a store into a black table the backward barrier restores the invariant and changes nothing but colors |
| Collector.GlobalState.NewObj | DataStruct/ThreadTree/lua-5.3.4/src/lgc.c:208-216 | a new object is of the current white, at the front of the list of all objects, and the sweep position stays valid |
| Collector.GlobalState.SetVal | DataStruct/ThreadTree/lua-5.3.4/src/lgc.h:122-124 | a store into a table with its backward barrier changes that entry only and keeps the invariant |
| Collector.GlobalState.SetUpvalue | DataStruct/ThreadTree/lua-5.3.4/src/lgc.h:118-120 | a store into another object with its forward barrier changes that slot only and keeps the invariant |
| Collector.GlobalState.PushStack | DataStruct/ThreadTree/lua-5.3.4/src/lgc.c:530-552 | a thread is never black, so a store into its stack needs no barrier |
| Collector.GlobalState.Intern | DataStruct/ThreadTree/lua-5.3.4/src/lstring.c:175-180 | a string that is dead but not yet freed becomes alive again |
| Collector.GlobalState.LastPropagation | DataStruct/ThreadTree/lua-5.3.4/src/lgc.c:1061-1063 | the propagation before `atomic`: it ends with the weak lists empty, as the assertion at its start wants, if no weak table that can still be traversed has an array part, clearable values or white values with clearable keys; if they end empty, every weak table that the gray list leads to through white objects has no array part and only values that may be marked; where no table falls between the two, the assertion holds if and only if the first condition does |
| Collector.AssertionFails | DataStruct/ThreadTree/lua-5.3.4/src/lgc.c:981-986 | a run from a new state, through collector steps, an allocation and a store into a black function, that reaches the assertion at the start of `atomic` with a weak table on a list: it fails |
| GcMutator.AccessibleAlive | DataStruct/ThreadTree/lua-5.3.4/src/lgc.h:15-25 | what any reference leads to from live roots is live |
| GcMutator.StepRewrite | DataStruct/ThreadTree/lua-5.3.4/src/lgc.h:87-101 | a store of references to existing objects keeps the marking invariant, with a black object exempt until its barrier |
| GcMutator.StepForward | DataStruct/ThreadTree/lua-5.3.4/src/lgc.c:155-164 | marking the stored object ends the exemption |
| GcMutator.StepBack | DataStruct/ThreadTree/lua-5.3.4/src/lgc.c:171-176 | turning the black table gray again ends the exemption |
| GcInvariant.ConvergedClosed | DataStruct/ThreadTree/lua-5.3.4/src/lgc.c:608-623 | with converged ephemeron tables and cleared weak tables the marked objects are closed |
| GcInvariant.FinalFacts | DataStruct/ThreadTree/lua-5.3.4/src/lgc.c:1002-1024 | what the atomic phase has established when its lists are done |
| GcSweep.AtomicPreserved | DataStruct/ThreadTree/lua-5.3.4/src/lgc.c:981-1025 | the atomic phase with a part of the sweep keeps all that was reachable, with its contents but for weak references |
| GcSweep.SweptReachable | DataStruct/ThreadTree/lua-5.3.4/src/lgc.c:723-751 | sweeping does not change what is reachable |
| ObjectHeap.ReachableClosed | DataStruct/ThreadTree/lua-5.3.4/src/lgc.c:608-623 | the least set that contains the roots and is closed, with ephemeron entries, is itself closed |
| Codegen.FuncState.Subexpr | DataStruct/ThreadTree/lua-5.3.4/src/lparser.c:1048-1075 | for every expression of constants, locals, upvalues, arithmetic, comparisons, `not`, `and` and `or`: in all environments and registers the code delivers the value of the expression, from its start and from every jump that was pending to it; errors are limits only |
| Codegen.FuncState.RetStat | DataStruct/ThreadTree/lua-5.3.4/src/lparser.c:1504-1534 | for `return a`, a run reaches the RETURN at the end with the value of `a` in its register and lower registers unchanged; every jump of the statement goes forward to an instruction of the code, and the code before the statement is kept but for the jumps that were pending |
| Codegen.FuncState.LocalStat | DataStruct/ThreadTree/lua-5.3.4/src/lparser.c:1442-1459 | for `local x = a`, the next free register gets the value of `a`, the others below are unchanged, no TESTSET is left without a register |
| Codegen.FuncState.StoreVar | DataStruct/ThreadTree/lua-5.3.4/src/lcode.c:782-803 | an assignment to a local puts the value into its register and keeps the others |
| Codegen.FuncState.Logical | DataStruct/ThreadTree/lua-5.3.4/src/lcode.c:1124-1140 | `and` and `or` with their short circuit: the second operand is run only if the first does not decide |
| Codegen.FuncState.InfixLogical | DataStruct/ThreadTree/lua-5.3.4/src/lcode.c:1086-1099 | the first operand falls through exactly when the second one is needed, otherwise it leaves through a list with its value |
| Codegen.FuncState.PosfixLogical | DataStruct/ThreadTree/lua-5.3.4/src/lcode.c:1124-1140 | the lists of both operands are joined and the code delivers the value of the whole |
| Codegen.FuncState.InfixOperand | DataStruct/ThreadTree/lua-5.3.4/src/lcode.c:1100-1114 | the first operand of a comparison or of arithmetic is in a register or a constant before the second is read |
| Codegen.FuncState.PosfixCompare | DataStruct/ThreadTree/lua-5.3.4/src/lcode.c:1037-1060 | a comparison, with `>` and `>=` exchanged and `~=` negated, delivers its value as a jump |
| Codegen.FuncState.PosfixArith | DataStruct/ThreadTree/lua-5.3.4/src/lcode.c:1022-1030 | an arithmetic operation delivers its value, folded or not |
| Codegen.FuncState.PrefixValue | DataStruct/ThreadTree/lua-5.3.4/src/lcode.c:1066-1079 | a unary operation delivers its value, folded or not |
| Codegen.FuncState.PrefixNot | DataStruct/ThreadTree/lua-5.3.4/src/lcode.c:910-939 | `not a` delivers the negation |
| Codegen.FuncState.CodeNot | DataStruct/ThreadTree/lua-5.3.4/src/lcode.c:910-939 | the main value is negated, the lists exchanged, and no list carries a value any more |
| Codegen.FuncState.JumpOnCond | DataStruct/ThreadTree/lua-5.3.4/src/lcode.c:839-851 | a jump is taken exactly when the value is as wanted; a pending `not` is removed from the code |
| Codegen.FuncState.GoIfTrue | DataStruct/ThreadTree/lua-5.3.4/src/lcode.c:857-878 | the code goes on exactly when the value is true, otherwise it leaves through the false list |
| Codegen.FuncState.GoIfFalse | DataStruct/ThreadTree/lua-5.3.4/src/lcode.c:884-904 | the code goes on exactly when the value is false, otherwise it leaves through the true list |
| CodegenState.StepNotCompare | DataStruct/ThreadTree/lua-5.3.4/src/lcode.c:825-830 | with the comparison before its jump flipped, an expression that is a jump delivers the negation of its value at that jump, in every environment; lists, pending jumps and earlier code are kept |
| CodegenState.StepDemote | DataStruct/ThreadTree/lua-5.3.4/src/lcode.c:195-216 | with the lists exchanged and every TESTSET on them turned into a TEST, a negated main value becomes the negation of the whole expression, in every environment |
| Codegen.FuncState.Exp2Reg | DataStruct/ThreadTree/lua-5.3.4/src/lcode.c:675-696 | the value of an expression with its pending lists is in the register, in every environment and from every pending jump, and both lists are empty |
| Codegen.FuncState.Exp2RegExits | DataStruct/ThreadTree/lua-5.3.4/src/lcode.c:679-695 | two boolean loads end the code exactly when a jump of one of the lists carries no value, with a jump around them if there is a main value; otherwise nothing is emitted; the value is in the register and both lists are empty |
| Codegen.FuncState.Exp2NextReg | DataStruct/ThreadTree/lua-5.3.4/src/lcode.c:703-708 | the value is in the next free register |
| Codegen.FuncState.Exp2AnyReg | DataStruct/ThreadTree/lua-5.3.4/src/lcode.c:715-727 | the value is in some register |
| Codegen.FuncState.Exp2Val | DataStruct/ThreadTree/lua-5.3.4/src/lcode.c:744-749 | the value is in a register if there are jumps, else anywhere |
| Codegen.FuncState.Exp2RK | DataStruct/ThreadTree/lua-5.3.4/src/lcode.c:758-776 | the value is in a register or a constant with an index that fits an operand |
| Codegen.FuncState.DischargeVars | DataStruct/ThreadTree/lua-5.3.4/src/lcode.c:556-588 | a variable becomes a value with the same meaning |
| Codegen.FuncState.Discharge2Reg | DataStruct/ThreadTree/lua-5.3.4/src/lcode.c:595-635 | the value without its jumps is in the register |
| Codegen.FuncState.NeedValue | DataStruct/ThreadTree/lua-5.3.4/src/lcode.c:659-665 | whether a jump of the list carries no value |
| Codegen.FuncState.CodeLoadBools | DataStruct/ThreadTree/lua-5.3.4/src/lcode.c:683-688 | the two boolean loads and the jump around them |
| Codegen.FuncState.PatchExits | DataStruct/ThreadTree/lua-5.3.4/src/lcode.c:689-691 | both lists end at the current position with the value in the register |
| Codegen.FuncState.PatchListAux | DataStruct/ThreadTree/lua-5.3.4/src/lcode.c:224-234 | each jump of the list goes to one of two targets, by whether it carries a value |
| Codegen.FuncState.RemoveValues | DataStruct/ThreadTree/lua-5.3.4/src/lcode.c:213-216 | no jump of the list carries a value |
| Codegen.FuncState.Concat | DataStruct/ThreadTree/lua-5.3.4/src/lcode.c:116-127 | two jump lists become one that has the jumps of both |
| Codegen.FuncState.FixJump | DataStruct/ThreadTree/lua-5.3.4/src/lcode.c:103-110 | a jump gets its destination, or the offset does not fit |
| Codegen.FuncState.Jump | DataStruct/ThreadTree/lua-5.3.4/src/lcode.c:136-143 | a new jump takes over the jumps that were pending to its position |
| Codegen.FuncState.DischargeJpc | DataStruct/ThreadTree/lua-5.3.4/src/lcode.c:242-245 | the jumps pending to the current position get it as their destination |
| Codegen.FuncState.Code | DataStruct/ThreadTree/lua-5.3.4/src/lcode.c:293-305 | an instruction is appended after the pending jumps were patched to it |
| Codegen.FuncState.PatchToHere | DataStruct/ThreadTree/lua-5.3.4/src/lcode.c:252-255 | a list becomes pending to the current position |
| Codegen.FuncState.AddK | DataStruct/ThreadTree/lua-5.3.4/src/lcode.c:428-452 | a constant is found or added; no other constant changes |
| Codegen.FuncState.CheckStack | DataStruct/ThreadTree/lua-5.3.4/src/lcode.c:361-369 | the stack size covers the registers or the limit is exceeded |
| LogicalExpr.CompileJunction | DataStruct/ThreadTree/lua-5.3.4/src/lcode.c:1124-1140 | compiled operands joined by a short circuit are a compiled expression |
| LogicalExpr.CompileNot | DataStruct/ThreadTree/lua-5.3.4/src/lcode.c:910-939 | a compiled operand negated is a compiled expression |
| LogicalExpr.CompileBinary | DataStruct/ThreadTree/lua-5.3.4/src/lcode.c:1022-1060 | two placed operands with their instruction are a compiled expression |
| LogicalExpr.CompileFolded | DataStruct/ThreadTree/lua-5.3.4/src/lcode.c:978-996 | a folded operation has the value of the operation |
| LogicalExpr.CompileAssign | DataStruct/ThreadTree/lua-5.3.4/src/lcode.c:675-696 | an expression in its register is an assignment |
| LogicalExpr.CompileReturn | DataStruct/ThreadTree/lua-5.3.4/src/lcode.c:149-151 | an assignment with a RETURN behind it is a return |
| LogicalExpr.IntegerComparisons | DataStruct/ThreadTree/lua-5.3.4/src/lcode.c:1037-1060 | where the machine compares integers by their order, each of the six comparisons of two integers has the value that its sign says |
| ShortCircuit.PatchRun | DataStruct/ThreadTree/lua-5.3.4/src/lcode.c:224-234 | patched code runs like the code before, and goes on where the patched jumps lead |
| LuaVM.Resume | DataStruct/ThreadTree/lua-5.3.4/src/lopcodes.h:171-214 | a run to a larger set of stops composes with the run from there |
| CodegenSteps.Settle | DataStruct/ThreadTree/lua-5.3.4/src/lcode.c:675-696 | patching both lists at the end of the code delivers the value into the register |
| CodegenSteps.Sequence | DataStruct/ThreadTree/lua-5.3.4/src/lcode.c:1126-1140 | code that goes on with a second expression delivers what that one delivers |
| CodegenSteps.Negated | DataStruct/ThreadTree/lua-5.3.4/src/lcode.c:910-939 | exchanging the lists without values negates |
| CodegenSteps.Relink | DataStruct/ThreadTree/lua-5.3.4/src/lcode.c:839-851 | a test and its jump added to a list are an exit with the right value |
| JumpLists.Join | DataStruct/ThreadTree/lua-5.3.4/src/lcode.c:116-127 | linking the last jump of a list to another list joins the lists |
| LuaTable.Table.Run | DataStruct/ThreadTree/lua-5.3.4/src/ltable.c:442-491 | any sequence of assignments to an empty table, through any number of rehashes, leaves it in agreement with a finite map, as long as fewer than 2^30 - 1 keys have values at a time |
| LuaTable.FewKeys | DataStruct/ThreadTree/lua-5.3.4/src/ltable.c:308-316 | a run whose keys are fewer than 2^30 - 1 never has more of them at a time, however long it is |
| LuaTable.Table.Put | DataStruct/ThreadTree/lua-5.3.4/src/ltable.c:591-596 | a table set changes the finite map at that key only; a nil key is the only error |
| LuaTable.Table.Read | DataStruct/ThreadTree/lua-5.3.4/src/ltable.c:570-584 | a get delivers the value of the map |
| LuaTable.Table.GetInt | DataStruct/ThreadTree/lua-5.3.4/src/ltable.c:497-514 | the cell of an integer key in either part, or proof that there is none |
| LuaTable.Table.Get | DataStruct/ThreadTree/lua-5.3.4/src/ltable.c:570-584 | the cell of any key, or proof that there is none |
| LuaTable.Table.SearchChain | DataStruct/ThreadTree/lua-5.3.4/src/ltable.c:541-553 | the search along the chain of the main position finds every key there is |
| LuaTable.Table.Set | DataStruct/ThreadTree/lua-5.3.4/src/ltable.c:591-596 | the cell of a key, a new one if needed; the map is the same |
| LuaTable.Table.NewKey | DataStruct/ThreadTree/lua-5.3.4/src/ltable.c:442-491 | a new key is inserted, at most one rehash is made, and the retried insertion always finds a place |
| LuaTable.Table.Place | DataStruct/ThreadTree/lua-5.3.4/src/ltable.c:455-485 | without growth: the key takes its free main position, or a free node, or the place of a colliding node that moves; fails only without a free node |
| LuaTable.Table.MoveColliding | DataStruct/ThreadTree/lua-5.3.4/src/ltable.c:465-477 | a colliding node out of its main position moves to the free node; all keys are found as before |
| LuaTable.Table.ChainNew | DataStruct/ThreadTree/lua-5.3.4/src/ltable.c:478-485 | the new key is chained behind the main position; all keys are found as before |
| LuaTable.Table.GetFreePos | DataStruct/ThreadTree/lua-5.3.4/src/ltable.c:422-431 | a free node below the cursor, or there is none at all |
| LuaTable.Table.Rehash | DataStruct/ThreadTree/lua-5.3.4/src/ltable.c:376-393 | the map is the same, the array part gets the optimal size for the keys with the new one, and there is room for it |
| LuaTable.Table.Resize | DataStruct/ThreadTree/lua-5.3.4/src/ltable.c:333-365 | both parts get their sizes, all keys are inserted again with their values, and no rehash happens meanwhile |
| LuaTable.Table.Reinsert | DataStruct/ThreadTree/lua-5.3.4/src/ltable.c:354-362 | one old key is inserted again without growth |
| LuaTable.Table.SetNodeVector | DataStruct/ThreadTree/lua-5.3.4/src/ltable.c:308-330 | a vector of free nodes of at least the size, a power of two, or the shared empty node |
| LuaTable.Table.NumUseArray | DataStruct/ThreadTree/lua-5.3.4/src/ltable.c:257-280 | the number of values in the array part, by slices |
| LuaTable.Table.NumUseHash | DataStruct/ThreadTree/lua-5.3.4/src/ltable.c:283-296 | the number of keys in the hash part, and of those that could be in the array part |
| LuaTable.Table.CountInt | DataStruct/ThreadTree/lua-5.3.4/src/ltable.c:241-249 | a key is counted in its slice exactly when it can be an array index |
| LuaTable.Table.FindIndex | DataStruct/ThreadTree/lua-5.3.4/src/ltable.c:159-183 | the number of the place behind a key, in spite of dead keys with the same address |
| LuaTable.Table.Next | DataStruct/ThreadTree/lua-5.3.4/src/ltable.c:186-203 | the first entry with a value behind a key |
| LuaTable.Table.Traverse | DataStruct/ThreadTree/lua-5.3.4/src/ltable.c:186-203 | a traversal visits every key with a value exactly once |
| LuaTable.Table.KillKey | DataStruct/ThreadTree/lua-5.3.4/src/lgc.c:125-129 | a key marked dead changes no lookup |
| LuaTable.Table.GetN | DataStruct/ThreadTree/lua-5.3.4/src/ltable.c:641-657 | the length is a border: its key has a value and the next one has none |
| LuaTable.Table.UnboundSearch | DataStruct/ThreadTree/lua-5.3.4/src/ltable.c:613-634 | the doubling search ends with a border |
| TableSizes.ComputeSizes | DataStruct/ThreadTree/lua-5.3.4/src/ltable.c:219-238 | the largest power of two with more than half of its slots in use, and the exact number of keys that go there |
| TableSizes.CeilLog2 | DataStruct/ThreadTree/lua-5.3.4/src/lobject.c:65-80 | the least exponent whose power of two is not below the argument |
| TableNodes.InsertFree | DataStruct/ThreadTree/lua-5.3.4/src/ltable.c:455-456 | a key in its free main position keeps all chains and all lookups |
| TableNodes.InsertChained | DataStruct/ThreadTree/lua-5.3.4/src/ltable.c:478-485 | a chained key keeps all chains acyclic, each key on the chain of its main position, and all lookups |
| TableNodes.InsertMoved | DataStruct/ThreadTree/lua-5.3.4/src/ltable.c:465-477 | the same after a colliding node has moved |
| TableNodes.FirstMatch | DataStruct/ThreadTree/lua-5.3.4/src/ltable.c:159-183 | on a chain the first node with a live key is its entry, even with dead keys about |
| TableNodes.KillNode | DataStruct/ThreadTree/lua-5.3.4/src/lgc.c:125-129 | marking a key dead keeps the chains and the lookups |
| TableContents.OutFacts | DataStruct/ThreadTree/lua-5.3.4/src/ltable.c:376-393 | how many keys are left for the hash part |
| RbTree.RbTree.Insert | DataStruct/RBTree/rb_tree.h:136-222 | the tree stays a search tree with a black root, no red node with a red child, equal black counts and consistent parent links; the set becomes the old one with the value; false exactly when the value was there, and then nothing changed |
| RbTree.RbTree.Repair | DataStruct/RBTree/rb_tree.h:165-220 | the recolouring and rotation loop ends without a fault, with the same values in the same order |
| RbTree.RbTree.Recolor | DataStruct/RBTree/rb_tree.h:171-181 | a red parent and uncle become black, and the fault is gone or two levels higher |
| RbTree.RbTree.RotateInner | DataStruct/RBTree/rb_tree.h:184-188 | an inner child is rotated up; the fault is then an outer one |
| RbTree.RbTree.RotateOuter | DataStruct/RBTree/rb_tree.h:189-191 | the grandparent is rotated down and the fault is gone |
| RbTree.RbTree.Rotate | DataStruct/RBTree/rb_tree.h:284-330 | a rotation relinks parent, child and inner grandchild and keeps the order |
| RbTree.RbTree.Descend | DataStruct/RBTree/rb_tree.h:144-154 | the search finds the value or the only place where it can be |
| RbTree.RbTree.Link | DataStruct/RBTree/rb_tree.h:155-161 | a new red leaf is linked on the right side; the red parent is the only possible fault |
| RbTree.RbTree.Next | DataStruct/RBTree/rb_tree.h:46-69 | ++ goes to the next node in ascending order, or to the end |
| RbTree.RbTree.Prev | DataStruct/RBTree/rb_tree.h:71-98 | -- goes to the node before, or to the end |
| RbTree.RbTree.Begin | DataStruct/RBTree/rb_tree.h:243-252 | the least node |
| RbTree.RbTree.ReverseBegin | DataStruct/RBTree/rb_tree.h:256-263 | the greatest node |
| RbTree.RbTree.Iterate | DataStruct/RBTree/rb_tree.h:243-255 | from begin to end every value is visited once, in ascending order |
| RbTree.RbTree.IsRbTree | DataStruct/RBTree/rb_tree.h:231-242 | the checker is true exactly when no red node has a red child and all ways have the same number of black nodes; it is true on every red-black tree; it does not look at the colour of the root |
| RbTree.RbTree.CheckFrom | DataStruct/RBTree/rb_tree.h:372-394 | the same for a subtree below a number of black nodes |
| RedBlack.HeightBound | DataStruct/RBTree/rb_tree.h:136-222 | 2 to the height is at most the square of the number of nodes plus one |
| RedBlack.RecolorFault | DataStruct/RBTree/rb_tree.h:171-181 | what recolouring does to the fault |
| RedBlack.InnerFault | DataStruct/RBTree/rb_tree.h:184-188 | what the inner rotation does to the fault |
| RedBlack.OuterFault | DataStruct/RBTree/rb_tree.h:189-191 | what the outer rotation does to the fault |
| TreeOrder.Backwards | DataStruct/RBTree/rb_tree.h:71-98 | the order of -- is that of ++ backwards |
| TreeOrder.NodeValues | DataStruct/RBTree/rb_tree.h:46-69 | the nodes in iteration order have the values of the tree in ascending order |
| HuffmanTree.Optimal | FileComPress/huffmantree.h:36-60 | the tree has the non-zero counts at its leaves, and no full binary tree with these weights has a smaller weighted path length |
| HuffmanTree.GreedyOptimal | FileComPress/huffmantree.h:44-57 | from any heap the greedy merging is at least as good as any tree over the roots of the heap |
| OptimalTrees.Merge | FileComPress/huffmantree.h:44-57 | the exchange argument: in any tree the two lightest leaves can be merged and the tree becomes shorter by at least their sum |
| HuffmanTree.TreeContents | FileComPress/huffmantree.h:36-60 | one leaf for each byte that occurs; the root weighs the number of bytes |
| HuffmanTree.HuffmanTree.constructor | FileComPress/huffmantree.h:36-60 | the loop over the mutable heap builds the tree of the greedy function |
| HuffmanHeap.Heap.Push | FileComPress/heap.h:62-66 | pushing is sifting up |
| HuffmanHeap.Heap.Pop | FileComPress/heap.h:68-79 | popping is moving the last element to the front and sifting down |
| HuffmanHeap.Heap.Top | FileComPress/heap.h:56-60 | the top of a heap is a lightest element |
| HuffmanHeap.Heap.FromArray | FileComPress/heap.h:34-45 | an array becomes a heap with the same contents |
| HuffmanHeap.Heap.AdjustUp | FileComPress/heap.h:81-95 | the loop is the sifting function |
| HuffmanHeap.Heap.AdjustDown | FileComPress/heap.h:97-114 | the loop is the sifting function |
| HuffmanHeap.UpHeap | FileComPress/heap.h:81-95 | sifting up restores the heap order |
| HuffmanHeap.DownHeap | FileComPress/heap.h:97-114 | sifting down restores the heap order |
| HuffmanHeap.PushedSum | FileComPress/heap.h:62-66 | pushing adds the element and nothing else: every sum over the contents changes by its share |
| HuffmanHeap.PoppedSum | FileComPress/heap.h:68-79 | popping removes the first element and nothing else |
| FileCompress.RoundTrip | FileComPress/filecompress.h:72-164 | decompressing the compressed file gives the file back exactly when it has two different bytes |
| FileCompress.FileCompress.Compress | FileComPress/filecompress.h:72-111 | the file has the counts and the packed codes; only an empty file fails |
| FileCompress.FileCompress.Uncompress | FileComPress/filecompress.h:113-164 | as many bytes as counted, and their codes are the beginning of the stream; fails exactly with less than two different bytes |
| FileCompress.FileCompress.Decode | FileComPress/filecompress.h:139-161 | the codes of the output are what was read, bit by bit |
| FileCompress.FileCompress.CompressToFile | FileComPress/filecompress.h:198-237 | the codes of all bytes, then that of the byte 255 for the read past the end, then zeros up to a whole byte |
| FileCompress.FileCompress.Conversion | FileComPress/filecompress.h:167-196 | the traversal with a stack stores for each leaf its way from the root |
| FileCompress.FileCompress.ConfigurationFileInformation | FileComPress/filecompress.h:239-251 | a record for each byte that occurs, and the terminator |
| FileCompress.FileCompress.CountBytes | FileComPress/filecompress.h:87-92 | how often each byte occurs |
| FileCompress.TwoBytes | FileComPress/filecompress.h:144-148 | the condition on the counts is that the file has two different bytes |
| FileCompress.AssignedCode | FileComPress/filecompress.h:184-188 | the stored code of a byte is its way from the root, and no other byte is touched |
| FileCompress.HeaderReads | FileComPress/filecompress.h:127-134 | the written header gives the same counts back |
| PrefixCodes.PrefixFree | FileComPress/filecompress.h:167-196 | no code is the beginning of another one |
| PrefixCodes.UniqueReading | FileComPress/filecompress.h:144-161 | a stream has only one reading as a text of a given length |
| PrefixCodes.ShiftLeftBits | FileComPress/filecompress.h:233-236 | the last byte is filled up with zero bits |
| PatternMatch.StrFindAux | DataStruct/ThreadTree/lua-5.3.4/src/lstrlib.c:607-651 | for every well-formed pattern, unless the cap on nested calls is reached: the match is at the first place where any way of matching exists, and there it is the most preferred one; otherwise there is none anywhere. What a way is for a written pattern: `PatternMeaning.WrittenSearch` |
| PatternMeaning.WrittenSearch | DataStruct/ThreadTree/lua-5.3.4/src/lstrlib.c:425-524 | for a pattern written from parts: nothing is found at a place exactly when no way of taking its parts leads on from there, and a match is found exactly when the most preferred way leads to it; a way takes classes as often as their suffix allows, captures, balanced pairs, frontiers and references, each by its meaning in the text |
| PatternMeaning.OutcomeLeads | DataStruct/ThreadTree/lua-5.3.4/src/lstrlib.c:425-524 | the same for the rest of a pattern at any place with any captures, way by way |
| PatternMeaning.ScanCloses | DataStruct/ThreadTree/lua-5.3.4/src/lstrlib.c:341-358 | a balanced pair ends at the first place where as many brackets were closed as opened, counted in the text |
| PatternSyntax.PartsRead | DataStruct/ThreadTree/lua-5.3.4/src/lstrlib.c:425-524 | a pattern written from parts is read as those parts: captures, positions, pairs, frontiers, references, classes with their suffixes, and the end mark |
| PatternSyntax.SetRead | DataStruct/ThreadTree/lua-5.3.4/src/lstrlib.c:302-338 | a class written as a character, a dot, an escape, or a set of characters, ranges and classes, negated or not, accepts exactly its characters |
| PatternSyntax.Letters | DataStruct/ThreadTree/lua-5.3.4/src/lstrlib.c:282-299 | `%l` accepts what `[a-z]` accepts, and `%u` what `[A-Z]` accepts |
| PatternSyntax.Digits | DataStruct/ThreadTree/lua-5.3.4/src/lstrlib.c:282-299 | `%d` accepts what `[0-9]` accepts, `%g` what `[!-~]` accepts, and `%z` the zero byte |
| PatternSyntax.Unions | DataStruct/ThreadTree/lua-5.3.4/src/lstrlib.c:282-299 | `%a` accepts what either `%l` or `%u` accepts, `%w` what either `%a` or `%d` accepts, and `%p` what `%g` but not `%w` accepts |
| PatternSyntax.HexDigits | DataStruct/ThreadTree/lua-5.3.4/src/lstrlib.c:282-299 | `%x` accepts what `[0-9]`, `[a-f]` or `[A-F]` accepts |
| PatternSyntax.Spaces | DataStruct/ThreadTree/lua-5.3.4/src/lstrlib.c:282-299 | `%s` accepts the blank and the bytes from tab to return, and `%c` the bytes below 128 that `[ -~]` does not accept |
| PatternSyntax.Capitals | DataStruct/ThreadTree/lua-5.3.4/src/lstrlib.c:297-298 | the capital of each class letter accepts the complement |
| PatternMatch.MatchState.Match | DataStruct/ThreadTree/lua-5.3.4/src/lstrlib.c:425-524 | for every pattern whose items are well-formed, from every place and with all captures: an answer that is no error is the answer of the search over items, and there is no error if the cap on nested calls is not exceeded; after a failure the captures are as on entry, also for malformed patterns |
| PatternSearch.FirstIsBest | DataStruct/ThreadTree/lua-5.3.4/src/lstrlib.c:361-386 | the search succeeds exactly when some way of repeating the items matches, and its result is that of the way preferred item by item: more repetitions first, fewer first for `-` |
| PatternMatch.MatchState.MaxExpand | DataStruct/ThreadTree/lua-5.3.4/src/lstrlib.c:361-373 | the longest repetition after which the rest matches |
| PatternMatch.MatchState.MinExpand | DataStruct/ThreadTree/lua-5.3.4/src/lstrlib.c:376-386 | the shortest repetition after which the rest matches |
| PatternMatch.MatchState.StartCapture | DataStruct/ThreadTree/lua-5.3.4/src/lstrlib.c:389-400 | the rest is matched with a new capture, which is undone on failure |
| PatternMatch.MatchState.EndCapture | DataStruct/ThreadTree/lua-5.3.4/src/lstrlib.c:403-411 | the rest is matched with the last open capture closed, which is undone on failure |
| PatternMatch.MatchState.MatchCapture | DataStruct/ThreadTree/lua-5.3.4/src/lstrlib.c:414-422 | the text of a closed capture is matched; a position never is; an open or missing one is an error |
| PatternMatch.MatchState.MatchBalance | DataStruct/ThreadTree/lua-5.3.4/src/lstrlib.c:341-358 | the loop is the balanced scan, which `PatternMeaning.ScanCloses` gives its meaning |
| PatternMatch.MatchState.CaptureToClose | DataStruct/ThreadTree/lua-5.3.4/src/lstrlib.c:250-255 | the last open capture |
| PatternMatch.MatchState.ClassStep | DataStruct/ThreadTree/lua-5.3.4/src/lstrlib.c:484-518 | a class with its suffix does what its item means |
| PatternMatch.MatchState.EscapeStep | DataStruct/ThreadTree/lua-5.3.4/src/lstrlib.c:448-483 | balanced strings, frontiers and capture references do what their items mean, for every well-formed pattern |
| PatternItems.FindClassEnd | DataStruct/ThreadTree/lua-5.3.4/src/lstrlib.c:258-279 | the loop finds the end of a class, or that it is malformed |
| PatternItems.MatchBracketClass | DataStruct/ThreadTree/lua-5.3.4/src/lstrlib.c:302-322 | the loop decides membership in a set |
| PatternSearch.LongestRun | DataStruct/ThreadTree/lua-5.3.4/src/lstrlib.c:361-365 | which repetitions of a class are possible |
| StringQuoting.ReadBack | DataStruct/ThreadTree/lua-5.3.4/src/lstrlib.c:908-928 | the lexer reads a quoted string back, for all bytes and whatever comes behind it |
| StringQuoting.QuotedReads | DataStruct/ThreadTree/lua-5.3.4/src/lstrlib.c:908-928 | a quoted string is a sequence of pieces that the lexer reads one by one, control characters before digits included |
| StringQuoting.AddQuoted | DataStruct/ThreadTree/lua-5.3.4/src/lstrlib.c:908-928 | the text of the pieces for the bytes |
| StringLexer.LexState.ReadString | DataStruct/ThreadTree/lua-5.3.4/src/llex.c:366-426 | it succeeds exactly when the input is a sequence of pieces and the delimiter, and then the string is what the pieces stand for and the input behind the delimiter is left |
| StringLexer.LexState.ReadEscape | DataStruct/ThreadTree/lua-5.3.4/src/llex.c:378-421 | an escape sequence is read as the piece it is, or none begins there |
| StringLexer.LexState.ReadDecEsc | DataStruct/ThreadTree/lua-5.3.4/src/llex.c:353-363 | up to three digits, as many as there are; an error exactly above 255 |
| StringLexer.LexState.ReadHexaEsc | DataStruct/ThreadTree/lua-5.3.4/src/llex.c:319-324 | two hexadecimal digits or an error |
| StringLexer.LexState.ReadUtf8Esc | DataStruct/ThreadTree/lua-5.3.4/src/llex.c:327-342 | a code point in braces, or there is none |
| StringLexer.LexState.IncLineNumber | DataStruct/ThreadTree/lua-5.3.4/src/llex.c:151-159 | a line break of one or two characters, as long as possible |
| StringLexer.LexState.SkipSpaces | DataStruct/ThreadTree/lua-5.3.4/src/llex.c:396-405 | all spaces are skipped |
| StringLexer.Utf8Encode | DataStruct/ThreadTree/lua-5.3.4/src/lobject.c:346-361 | the encoding of section 3 of RFC 3629 |
| QuotedPieces.SameReading | DataStruct/ThreadTree/lua-5.3.4/src/llex.c:366-426 | a string literal has only one reading |
| QuotedPieces.Names | DataStruct/ThreadTree/lua-5.3.4/src/llex.c:381-392 | the escape letters a, b, t, n, v, f and r stand for the bytes 7 to 13, quotes and the backslash for themselves, and no other character has a name |
| QuotedPieces.HexDigits | DataStruct/ThreadTree/lua-5.3.4/src/lobject.c:163-166 | the hexadecimal digits and their values, in both cases |
| Precedence.ParsePrint | DataStruct/ThreadTree/lua-5.3.4/src/lparser.c:1048-1080 | parsing a printed expression gives the expression and leaves what is behind it |
| Precedence.Needed | DataStruct/ThreadTree/lua-5.3.4/src/lparser.c:1025-1041 | where the printer writes parentheses, the expression without them is read as something else |
| Precedence.LexState.Subexpr | DataStruct/ThreadTree/lua-5.3.4/src/lparser.c:1048-1075 | the loop and the recursion over the tokens are the parsing function, whose grouping is that of `PrecedenceRanks.ReadsExactly` |
| PrecedenceRanks.ReadsExactly | DataStruct/ThreadTree/lua-5.3.4/src/lparser.c:1025-1075 | tokens without parentheses are read as an expression exactly when they are its tokens and it is grouped by the twelve levels and the associativities of section 3.4.8 of the Lua 5.3 Reference Manual |
| PrecedenceRanks.GroupedReads | DataStruct/ThreadTree/lua-5.3.4/src/lparser.c:1048-1075 | an expression grouped by the levels is read from its tokens alone, without parentheses |
| PrecedenceRanks.Pairs | DataStruct/ThreadTree/lua-5.3.4/src/lparser.c:1025-1041 | of two operators the second takes the operand between them exactly if its level is higher, or the same and it is `^` or `..` |
| PrecedenceRanks.UnaryPairs | DataStruct/ThreadTree/lua-5.3.4/src/lparser.c:1041-1056 | a unary operator takes a binary operation as its operand exactly if that is a power |
| Precedence.LexState.Simpleexp | DataStruct/ThreadTree/lua-5.3.4/src/lparser.c:871-890 | a name or an expression in parentheses |
| Precedence.PrintAndParse | DataStruct/ThreadTree/lua-5.3.4/src/lparser.c:1048-1080 | the round trip as a run of the parser |
| Precedence.PrintReads | DataStruct/ThreadTree/lua-5.3.4/src/lparser.c:1062-1073 | in any context the printed operand is read, and reading goes on with the operators behind it |
| StringTable.Table.InternShrStr | DataStruct/ThreadTree/lua-5.3.4/src/lstring.c:167-193 | the string with the content, alive: the one that was there or a new one; at most one string has a content; the count of strings is exact; the table doubles exactly when a new string comes and it is full |
| StringTable.Table.Resize | DataStruct/ThreadTree/lua-5.3.4/src/lstring.c:71-96 | rehashing in place keeps every string, in the bucket of its hash for the new size |
| StringTable.Table.MoveBucket | DataStruct/ThreadTree/lua-5.3.4/src/lstring.c:79-89 | the strings of one bucket move; those not yet moved and those moved are apart |
| StringTable.AllMoved | DataStruct/ThreadTree/lua-5.3.4/src/lstring.c:90-94 | the vanishing slice is empty |
| StringTable.NotAhead | DataStruct/ThreadTree/lua-5.3.4/src/lstring.c:84-86 | no string moves to a bucket that has still to be rehashed |
| StringTable.Table.Remove | DataStruct/ThreadTree/lua-5.3.4/src/lstring.c:154-161 | exactly that string leaves the table |
| StringTable.Table.CheckSizes | DataStruct/ThreadTree/lua-5.3.4/src/lgc.c:777-784 | the table is halved when less than a quarter is used |
| StringTable.LuaHash | DataStruct/ThreadTree/lua-5.3.4/src/lstring.c:49-55 | the loop is the hash function, which `StringTable.HashSamples` describes |
| StringTable.HashSamples | DataStruct/ThreadTree/lua-5.3.4/src/lstring.c:49-55 | the hash is a fold in unsigned arithmetic of 32 bits over fewer than 32 bytes of the string, evenly spaced from the last one down |
| StringTable.HashVectors | DataStruct/ThreadTree/lua-5.3.4/src/lstring.c:49-55 | the hashes of three strings |
| PoolAllocator.Allocator.Allocate | DataStruct/Alloc.h/stl_alloc.h:348-378 | the block is new, whole and aligned, no other block changes hands; it is the first of its free list, or else the first of a chunk of up to 20 objects, the most that fit, of which the others make up the list; it fails exactly when `malloc` fails twice and neither the pool nor a list has a block of the size |
| PoolAllocator.Allocator.Deallocate | DataStruct/Alloc.h/stl_alloc.h:381-396 | the block is the first of its free list; nothing else changes |
| PoolAllocator.Allocator.Renew | DataStruct/Alloc.h/stl_alloc.h:348-396 | a block that was given back is the next one delivered for its size, and then lists, pool and heap size are as before |
| PoolSupply.FitsMost | DataStruct/Alloc.h/stl_alloc.h:436-445 | as many objects are cut off the pool as fit, up to the number wanted |
| PoolSupply.BytesToGet | DataStruct/Alloc.h/stl_alloc.h:447-448 | twice what is needed and one sixteenth of what there is, with less than one alignment more |
| PoolSupply.FirstFree | DataStruct/Alloc.h/stl_alloc.h:461-478 | the smallest free block that is large enough |
| PoolAllocator.Allocator.Refill | DataStruct/Alloc.h/stl_alloc.h:495-524 | the list it fills was empty; one block goes to the client and the others of the chunk, in a row, are the list |
| PoolAllocator.Allocator.BuildList | DataStruct/Alloc.h/stl_alloc.h:507-523 | the objects of the chunk after the first one are linked into the list in the order of their addresses |
| PoolAllocator.Allocator.ChunkAlloc | DataStruct/Alloc.h/stl_alloc.h:427-489 | a chunk at the start of the pool, of 1 to the wanted number of objects, the most that fit; the recursion ends after one replacement of the pool |
| PoolAllocator.Allocator.Replenish | DataStruct/Alloc.h/stl_alloc.h:446-488 | the pool is replaced by a region from `malloc`, or by the smallest free block that is large enough, or by the second attempt, which may throw; what was left of the old one is in a list |
| PoolAllocator.Allocator.FindFree | DataStruct/Alloc.h/stl_alloc.h:461-475 | the smallest free block of at least the size becomes the pool and leaves its list, or there is none |
| PoolAllocator.Allocator.SaveLeftOver | DataStruct/Alloc.h/stl_alloc.h:449-456 | the rest of the pool becomes a block of a smaller list |
| PoolAllocator.Allocator.Accounts | DataStruct/Alloc.h/stl_alloc.h:427-489 | the blocks can be listed, each once, and for every such list client blocks, free blocks and the pool are together as large as all memory got from the system |
| PoolAllocator.Allocator.ClientWrite | DataStruct/Alloc.h/stl_alloc.h:294-297 | a client that writes into its block does not harm the free lists, whose links are in free blocks only |
| ThreadPool.Pool.Run | HTTPD2.0/thread_pool.h:96-155 | every schedule of possible events leads to the state that the events say; requests leave in the order in which they came, each once, and every request given to `append` was refused, or is on its way, in the queue or in the hands of a worker, or was processed, as often as it was given; no worker finds the queue empty unless a wait was interrupted, and then not more often |
| ThreadPool.AllServed | HTTPD2.0/thread_pool.h:96-155 | when all threads are outside or wait and the queue is empty, every request was processed as often as it was given to `append` and not refused |
| ThreadPool.AfterBalanced | HTTPD2.0/thread_pool.h:96-155 | every event keeps, for every request, the balance of calls, refusals, requests on their way, in the queue and with workers, and those processed |
| ThreadPool.AfterKept | HTTPD2.0/thread_pool.h:96-155 | every event keeps the order of the queue, mutual exclusion and the balance of all requests |
| ThreadPool.Pool.Happen | HTTPD2.0/thread_pool.h:96-155 | one event changes the state as it says and keeps: queue length plus interruptions equals semaphore, producers before post, workers after wait and empty finds; mutual exclusion; at most the maximum plus one requests; `append` refuses exactly above the maximum |
| ThreadPool.Pool.AppendStep | HTTPD2.0/thread_pool.h:96-121 | a step of `append`: the request that the caller gave is the one pushed or refused |
| ThreadPool.Pool.RunStep | HTTPD2.0/thread_pool.h:132-155 | a step of a worker: the request taken out of the queue is the one processed, unless it is a null pointer |
| ThreadPool.Pool.NotEmpty | HTTPD2.0/thread_pool.h:138-141 | a worker behind its wait finds a request, unless a wait was interrupted |
| ThreadPool.Pool.NoLostWakeup | HTTPD2.0/thread_pool.h:115-119 | with requests in the queue and nobody on the way the semaphore is positive |
| ThreadPool.Pool.Progress | HTTPD2.0/thread_pool.h:132-155 | with requests in the queue and a worker some thread can step |
| StringPack.RoundTrip | DataStruct/ThreadTree/lua-5.3.4/src/lstrlib.c:1330-1537 | unpacking what was packed gives as many values back as the format has options that take an argument, and they are the arguments; the position is behind them; fixed-size strings come with their padding |
| StringPack.ReadsBack | DataStruct/ThreadTree/lua-5.3.4/src/lstrlib.c:1476-1537 | the same for any rest of a format at any offset, in any data that has the packed bytes there |
| StringPack.SignedReads | DataStruct/ThreadTree/lua-5.3.4/src/lstrlib.c:1295-1309 | a signed integer of 1 to 16 bytes in either order is read as it was written |
| StringPack.UnsignedReads | DataStruct/ThreadTree/lua-5.3.4/src/lstrlib.c:1295-1309 | an unsigned integer is read as it was written |
| StringPack.SizeIsLength | DataStruct/ThreadTree/lua-5.3.4/src/lstrlib.c:1417-1439 | the size of a fixed format is the length of every string packed with it |
| StringPack.Pack | DataStruct/ThreadTree/lua-5.3.4/src/lstrlib.c:1330-1414 | the loop over the options is the packing function, whose bytes are those of `PackLayout.Layout` |
| PackLayout.Layout | DataStruct/ThreadTree/lua-5.3.4/src/lstrlib.c:1330-1414 | for every format and its arguments: each option begins at the least multiple of its alignment not below the total so far, with zeros before it, and has the size of its letter; byte j of an integer n is n / 256^j % 256, counted from the first byte after `<` or `=` and from the last one after `>`; counted, fixed and zero-terminated strings likewise; nothing else is written |
| PackLayout.OptionSort | DataStruct/ThreadTree/lua-5.3.4/src/lstrlib.c:1221-1255 | what each option letter is and its size: 1, 2, 4 or 8 bytes, or the number behind it |
| PackLayout.OptionHeader | DataStruct/ThreadTree/lua-5.3.4/src/lstrlib.c:1249-1252 | `<` and `=` set little endian, `>` big endian, `!` the largest alignment, and no other letter changes them |
| PackLayout.DetailsSort | DataStruct/ThreadTree/lua-5.3.4/src/lstrlib.c:1269-1287 | an option goes to the least multiple of its alignment, in the byte order that counts there |
| PackLayout.SignedOctets | DataStruct/ThreadTree/lua-5.3.4/src/lstrlib.c:1300-1306 | a negative number with its sign in the extra bytes has the bytes of two's complement of any size |
| StringPack.PackItem | DataStruct/ThreadTree/lua-5.3.4/src/lstrlib.c:1341-1405 | one option with its checks of the argument |
| StringPack.Unpack | DataStruct/ThreadTree/lua-5.3.4/src/lstrlib.c:1476-1537 | the loop over the options is the unpacking function |
| StringPack.UnpackItem | DataStruct/ThreadTree/lua-5.3.4/src/lstrlib.c:1492-1533 | one option with its checks of the data |
| StringPack.PackSize | DataStruct/ThreadTree/lua-5.3.4/src/lstrlib.c:1417-1439 | the loop adds sizes and paddings, and refuses options without a fixed size |
| StringPack.ReadNum | DataStruct/ThreadTree/lua-5.3.4/src/lstrlib.c:1182-1192 | the loop reads a numeral |
| StringPack.ExpectedArgs | DataStruct/ThreadTree/lua-5.3.4/src/lstrlib.c:1377-1386 | which values come back: the arguments, with zeros appended to fixed-size strings only |
| StringPack.EndPosition | DataStruct/ThreadTree/lua-5.3.4/src/lstrlib.c:1476-1537 | for every format, data and start: the position delivered is at most one beyond the end of the data, and it is beyond exactly when the last option read is `z` at a place with no zero byte from there on |
| StringPack.StaysInside | DataStruct/ThreadTree/lua-5.3.4/src/lstrlib.c:1522-1527 | a format without the letter z delivers a position within the data |
| StringPack.ZeroEnds | DataStruct/ThreadTree/lua-5.3.4/src/lstrlib.c:1522-1527 | so does data that ends in a zero byte, if the last option begins before its end |
| StringPack.ZeroTaken | DataStruct/ThreadTree/lua-5.3.4/src/lstrlib.c:1522-1527 | data that ends in a zero byte is not enough: an option before the `z` may have taken that byte |
| PackIntegers.PackInt | DataStruct/ThreadTree/lua-5.3.4/src/lstrlib.c:1295-1309 | the bytes of the number in two's complement in the given order, with the sign in the bytes beyond the eighth |
| PackIntegers.UnpackInt | DataStruct/ThreadTree/lua-5.3.4/src/lstrlib.c:1450-1473 | the number in two's complement, if it fits into 64 bits |
| PackIntegers.ExtraBytes | DataStruct/ThreadTree/lua-5.3.4/src/lstrlib.c:1464-1471 | the check of the bytes beyond the eighth is exact |

## Left out

- Collector: finalizers and the lists they use (empty here), all-weak tables, open and shared upvalues, fixed objects, the prototype cache, debt and pacing, emergency collections, changes of a table's mode, and the sizes of strings and tables.
- Collector: objects are records in a map and are named by identifiers; memory reuse of a freed address is not modelled. Some C functions are split into methods (MarkRoots, MarkMain, MarkAll, ClearAll, StepPause to FinishCycle).
- Collector.GlobalState.LastPropagation: between its two conditions it depends on the order of the traversal whether a value is marked before its table is reached, and nothing is said for such tables.
- Collector.GlobalState.Write: a store without its barrier, only a part of the program steps that follow it.
- Codegen: the merging of LOADNIL, concatenation, indexed variables, calls and varargs, upvalue closing and `goto`, the 32-bit encoding of instructions, metamethods, float constants, loops and backward jumps.
- Codegen: comparison and arithmetic opcodes are functions of the environment; what the compiler folds must agree with them.
- LuaTable.Table.Put: the number of keys with values is below 2^30 - 1, where the error "table overflow" is not reached; `LuaTable.Table.Run` asks the same of every step.
- LuaTable: float keys, metamethod caches and barriers; the search for short strings is the generic one.
- RbTree: freeing the tree and printing it; nodes are cells of a map from addresses.
- HuffmanTree: tree nodes are values; the parent pointers used by the traversal are replaced by the code kept on the stack.
- FileCompress: the layout of a record in memory, file names and I/O errors; a compressed file is a sequence of records and a sequence of bytes.
- PatternMatch.StrFindAux: nothing is promised for patterns with a malformed item or an illegal capture, which the source may answer without an error when it never reaches that item. Plain search, the conversion of negative positions and the results on the stack are left out.
- PatternMatch.MatchState.Match: the same holds for it; for such patterns only the captures after a failure are stated.
- PatternMatch.MatchState.EscapeStep: the same.
- StringLexer: the limits on the size of a token and on the number of lines; after an error nothing is said about the state.
- StringPack: floating-point options are accepted by the format but packing and unpacking them fails here; sizes are those of a 64-bit little-endian machine.
- PatternMeaning.WrittenSearch: a pattern is written from parts, in which a character that is no letter and no digit is escaped and the ends of a range are letters or digits; other spellings are covered by the items only.
- PackLayout.Layout: the size of a fixed string is the number behind its letter only below a tenth of the largest size, where the reading of numbers stops.
- Precedence: a primary expression is a name or parentheses; suffixes, constants and constructors are left out, as is the code generated.
- StringTable: long strings, the cache of API strings, and strings that the collector removes by itself.
- PoolAllocator: reallocate, locking, and what `malloc` does for large requests beyond its result.
- ThreadPool: the destructor and the stop flag, failures of the system calls other than an interrupted wait.
- The remaining files: I/O, sockets, the crawler, and textbook structures that would only add easy members.
