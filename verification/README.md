# Polyloft BVM, verified models

A Dafny project about the parts of the Polyloft toolchain that transform programs or
share state: the single-pass compiler and its bytecode, the tiering JIT, the module
class file, deep copies and futures, the UI task queue, and two pieces of the parser.
Code that changes fields, arrays or byte buffers in place is modelled by classes and
loops that are proved against specification functions; the results are lemmas about
those functions. `dafny verify dfyconfig.toml` checks everything.

**Compiler.** `Machine` is the interpreter over raw code bytes. `Source` is the
statement subset with direct evaluation over named, scoped variables. `CodeGen` gives
the code of every construct as a function, `Assembly` lays it out in bytes, and
`SinglePass.Compiler` is the compiler itself: it appends bytes, deletes and rewrites the
bytes at the end when it emits a conditional jump, and back-patches jumps. `RawCode`
says what bytes it leaves, whatever those windows hold; the laid-out code is proved to do
what evaluation says (`Pipeline.CompileScript` joins both), including programs that run
forever.

The byte rewrite of a compare before a jump looks at raw bytes at fixed distances. It
misfires when an operand byte looks like the opcode it wants. A script that declares
eight int locals and tests `a + h < b`, or seven and tests `a + 5 < b`, evaluates without
error, and its bytes fault (`Misfires.SlotSevenScript`, `Misfires.ConstantSevenScript`).
In general the rewrite cuts an instruction in two, and its place is taken by a read of
the local or constant whose number is the jump's opcode: that read is all that happens,
and it fails exactly when there is no such local or constant (`Misreads.MisreadScript`).
`Aligned` is the exact condition under which the bytes of one jump are those of the
rewritten instructions (`Peephole.JumpExactlyOnAligned`), `Alignment.BlockAligned` asks
it of every jump of a script, and the script's bytes are its laid-out program if and only
if it holds (`SinglePass.Compiler.CompileProgram`): a misread window leaves the code too
short, or a wrong opcode that no later patch repairs (`RawExact.SeenInBytes`). It holds
wherever no operand of the laid-out code has a byte 7 or 99 (`CleanScript.CleanAligned`),
so for every loop-free script with at most seven locals and seven constants. What the arithmetic and the names mean is
stated apart from both evaluation and machine (`Arithmetic`, `Meanings`). The fused
comparison reads doubles where the instructions that it replaces compare integers;
`JumpMeaning.RewriteExactly` says exactly when that shows.

**JIT.** Lowering to indexed instructions, both encodings, the executor's loop, and the
engine's cache. The executor leaves the operand of SET_LOCAL on its stack, so the
simulation relates stacks by "the bytecode's stack is on top". `JitSound.Verified` is a
condition on the bytes alone, an operand depth for every offset; under it the executor
and the interpreter agree step for step exactly as long as no negated integer loses
digits as a double (`JitSound.VerifiedRuns`), and compiled scripts meet it
(`JitCompiled.CompiledInJit`). What it excludes differs: `JitLimits` has a function for
each of the four divergences, and the exact condition of its step. Which code is accepted
at all is exact (`JitAccepts.AcceptedExactly`).

**Modules.** The search over the cyclic graph of functions and classes, and the class
file in bytes: constant pool, fields, methods, attributes with their lengths, line tables
and classes. `WireFormats` puts formats together from parts and proves that each reads
back what was written, and stops right behind it, if and only if its counts and numbers
fit; `Sections` are the formats of the file, `ModuleFiles.FileReads` is the whole file. A
module written to bytes and read back is the reachable graph with every node replaced by
the new one of its number, method slots included (`ModuleRoundTrips.SaveAndLoad`).

**Concurrency.** `UiTasks` and `Futures` are state machines whose steps are the sections
between lock operations, in any interleaving; `UiApp` and `FutureHandles.Future` are the
objects.

## Model

| member | source | states |
|---|---|---|
| Pipeline.CompileScript | internal/compiler/compiler.go:91-120 | a script is rejected exactly when it has a break or continue outside a loop or a range without one to three arguments; otherwise the bytes are the laid-out program if and only if every conditional jump sees its own window, which clean operands ensure, and then, when the code fits 16-bit distances and 256 slots, running them on any frame ends with exactly the variables of direct evaluation and returns nil, or keeps running as long as evaluation does |
| SinglePass.Compiler.CompileProgram | internal/compiler/compiler.go:91-120 | the imperative compiler leaves one line number per byte although it deletes bytes, the line of the text for every byte but the last two, which end the script and have line 0; the constants, locals and maximum slot count of the specification, and in every case the bytes that RawCode says, which are those of the laid-out program if and only if all windows are aligned |
| SinglePass.Compiler.CompileStmt | internal/compiler/compiler.go:138-345 | compiling any statement appends the specified instructions and constants, keeps the locals of outer scopes, adds only its own waiting jumps to the innermost loop, leaves the bytes that RawCode says whatever the windows hold, and fails exactly on a stray break or continue or a range without one to three arguments |
| SinglePass.Compiler.CompileIf | internal/compiler/compiler.go:553-578 | if and else: both forward jumps are patched to the ends of the right blocks |
| SinglePass.Compiler.CompileLoop | internal/compiler/compiler.go:3703-3728 | loop: the exit jump, every break and every continue inside are patched or emitted to the right place, and the enclosing loop's lists are untouched |
| SinglePass.Compiler.CompileDoLoop | internal/compiler/compiler.go:3730-3753 | do-loop: continues wait for the condition and breaks for the end |
| SinglePass.Compiler.CompileFastRangeFor | internal/compiler/compiler.go:3598-3701 | for over range with one to three arguments and an optional filter: hidden slots, the next instruction's exit and the filter's jump all end up as specified |
| SinglePass.Compiler.EmitJump | internal/compiler/compiler.go:4636-4651 | a conditional jump behind code that is laid out: the bytes are those of the rewritten instructions if and only if the window is aligned; on any other code they are what the byte rewrites leave |
| SinglePass.Compiler.PeepholeLocalLocalCmp | internal/compiler/compiler.go:4719-4755 | on any bytes: when the five-byte window matches, exactly when its opcodes are two local reads and a comparison of numbers, it is replaced by the fused jump on its two slots, with the line list cut by the same amount; otherwise nothing changes |
| SinglePass.Compiler.PatchJump | internal/compiler/compiler.go:4763-4766 | patching overwrites the two operand bytes so that the jump lands at the present end of the code, and changes no other instruction |
| SinglePass.Compiler.EmitLoop | internal/compiler/compiler.go:4757-4761 | the backward distance leads to the instruction that starts at the loop's start |
| SinglePass.Compiler.EndScope | internal/compiler/compiler.go:3104-3109 | leaving a scope drops exactly the locals declared in it |
| SinglePass.Compiler.CompileLocalAssign | internal/compiler/compiler.go:271-345 | assignment to a local chooses among the add-constant, add-local, to-local and plain forms as specified and updates the slot's type |
| StmtCorrect.StmtRuns | internal/compiler/compiler.go:138-345 | the code of any statement, run from its start, does what evaluation says: at the end, at the break target or at the continue target, with the same operand stack and the slots of loop machinery untouched; it runs at least as long as evaluation when evaluation does not end |
| StmtCorrect.ForRangeRuns | internal/compiler/compiler.go:3598-3701 | the same for range loops with filter, break and continue |
| StmtParts.AssignRuns | internal/compiler/compiler.go:1737-1839 | every fast path of a local assignment stores the value that evaluating the assigned expression gives |
| Meanings.AddsConstant | internal/compiler/compiler.go:1737-1800 | adding an integer literal to a numeric local, in any of the three spellings, is one instruction: increment, decrement, or add-constant with that constant |
| Meanings.SubtractsConstant | internal/compiler/compiler.go:1737-1800 | subtracting one is the same with the negative constant |
| Meanings.AddsLocal | internal/compiler/compiler.go:1802-1851 | adding an int local to an int local is one instruction |
| Meanings.UpdatesLocal | internal/compiler/compiler.go:1578-1624 | other updates of a numeric local by a numeric local load the one and update the other in place |
| Meanings.FastConditions | internal/compiler/compiler.go:1853-1978 | an if on a local at most a literal, or divisible by one, tests it in one instruction |
| StmtParts.DivisibleMeans | internal/compiler/compiler.go:1944-1978 | the remainder-test pattern is recognised only where the fused jump decides like the condition |
| ExprCorrect.ExprRuns | internal/compiler/compiler.go:1385-1475 | the code of an expression pushes its value and changes nothing else, short-circuit operators included |
| ExprCorrect.JumpRuns | internal/compiler/compiler.go:4636-4755 | a condition followed by its rewritten jump falls through or jumps by the condition's truth value |
| ExprCorrect.ConstAgrees | internal/compiler/compiler.go:1137-1170 | a constant-folded expression has the value of the unfolded one |
| Arithmetic.EvalRemainder | internal/vm/vm.go:3907-3911 | a remainder in a script fails on 0; otherwise it is what is left of the left operand after taking away a multiple of the right one, smaller than it and with the sign of the left one, and there is only one such number |
| Arithmetic.MachineRemainder | internal/vm/vm.go:3907-3911 | the same number is pushed by the interpreter's remainder instructions, returned by the JIT's, and left by constant folding |
| Arithmetic.DivisibleJump | internal/vm/vm.go:393-407 | the fused divisibility test falls through exactly when the local is a multiple of the constant |
| Arithmetic.WrapIs | internal/vm/vm.go:3896-3906 | 64-bit wrap-around gives the one 64-bit integer that differs from the result by a multiple of 2^64 |
| Arithmetic.F64Nearest | internal/vm/vm.go:302-333 | conversion to double gives a number of at most 53 significant bits that no other such number is nearer than, with an even last bit where two are equally near |
| Meanings.FindsInnermost | internal/compiler/compiler.go:3156-3163 | evaluation reads, of several variables of one name, the one declared last |
| Meanings.SlotInnermost | internal/compiler/compiler.go:3156-3163 | the compiler resolves a name to the slot of the last local with that name, or to none when there is none |
| Meanings.OnlyFalseFails | internal/value/value.go:630-639 | an if takes its else branch exactly when its condition is false: the number 0 holds |
| Meanings.OnlyFalseJumps | internal/value/value.go:630-639 | the popping conditional jumps go by the same rule: only nil and false fail |
| Meanings.TypedOperator | internal/compiler/compiler.go:1385-1475 | an operator on two locals is the instruction for numbers exactly when both are declared int or number |
| Meanings.LetInfers | internal/compiler/compiler.go:3369-3515 | the type that a let without one infers for its local, form by form |
| Meanings.GlobalsRead | internal/compiler/compiler.go:1096-1116 | the constants at the indices of an expression's global instructions are, in order, exactly the names in it that are no locals |
| Meanings.GlobalAssigned | internal/compiler/compiler.go:271-401 | an assignment to a name that is no local ends in writing that name, after reading it once more in an update |
| ScriptCorrect.CompiledScript | internal/compiler/compiler.go:91-120 | whole programs in bytes: normal ends and endless runs both agree with evaluation |
| ScriptCorrect.ReturnedScript | internal/compiler/compiler.go:91-120 | the converse: if the bytes return, evaluation ends with the variables found in the slots, or it failed |
| Layout.BlockPlaced | internal/compiler/compiler.go:590-609 | code is generated exactly for blocks whose breaks and continues are in loops and whose ranges have one to three arguments |
| Layout.ProgramFits | internal/compiler/compiler.go:4757-4766 | every program below 65536 bytes with at most 256 slots has all jump distances in 16 bits, all targets inside the code and all operands in their widths |
| Assembly.RunAssembled | internal/vm/vm.go:765-853 | running bytes with relative byte distances is running instructions with relative instruction distances, step for step |
| Assembly.SplitsIntoInstructions | internal/bytecode/chunk.go:203-327 | walking compiled code with the disassembler's lengths visits exactly the instruction starts |
| Assembly.JumpsLandOnInstructions | internal/compiler/compiler.go:4757-4766 | every jump and LOOP lands on one of those starts or at the end of the code |
| Peephole.JumpExactlyOnAligned | internal/compiler/compiler.go:4636-4755 | the raw-byte rewrites give the bytes of the rewritten instructions if and only if the window is aligned on instructions |
| Peephole.SlotSevenMisfires | internal/compiler/compiler.go:4719-4755 | for any locals: the bytes of the condition `x + y < z` with y in slot 7, run alone, fault after two steps |
| Misfires.SlotSevenScript | internal/compiler/compiler.go:4719-4755 | a script of eight to 26 int locals and `if a + h < b` compiles without error and evaluates normally; its bytes are not the laid-out program and fault on every frame of up to 109 slots |
| Misfires.ConstantSevenScript | internal/compiler/compiler.go:4719-4755 | the same for seven int locals and `if a + n < b` with any literal n, whose constant has index 7 |
| Misreads.MisreadRuns | internal/compiler/compiler.go:4677-4755 | any condition misread by its jump, wherever it is: a run that comes to it evaluates it up to the instruction that was cut, whose place is a read of the local or constant named by the jump's opcode; the run fails there if and only if there is none, and otherwise goes on |
| Misreads.MisreadScript | internal/compiler/compiler.go:4677-4755 | for whole scripts: after any statements that were compiled right, an if whose condition is misread, with any branches and anything behind it, on any frame: the run comes to the cut instruction with the locals of evaluation, and fails there if and only if that local or constant does not exist |
| RawExact.SeenInBytes | internal/compiler/compiler.go:4636-4766 | if the bytes of a script are its laid-out program, no jump misread its window: a window misread anywhere is never repaired by what is emitted or patched later |
| RawExact.StmtGrows | internal/compiler/compiler.go:138-345 | any statement on any buffer: never more bytes than its laid-out code, earlier bytes out of reach unchanged, and a misread window shows as fewer bytes or as the opcode of a local read where another instruction belongs |
| RawBounds.CondGrows | internal/compiler/compiler.go:4636-4755 | the same for one condition and its rewritten jump |
| CleanCode.CleanWindow | internal/compiler/compiler.go:4677-4755 | where no operand byte is 7 or 99, forward distances apart, the byte windows match only what they are meant for |
| CleanScript.CleanAligned | internal/compiler/compiler.go:4636-4755 | a script whose laid-out code is clean in this sense has every window aligned |
| CleanScript.FewNamesAligned | internal/compiler/compiler.go:4636-4755 | with at most seven locals at once and seven constants, only distances of backward jumps can be unclean |
| CleanScript.SmallScriptAligned | internal/compiler/compiler.go:4636-4755 | without loops, at most seven locals at once and seven constants, every window is aligned |
| JumpMeaning.RewriteExactly | internal/compiler/compiler.go:4653-4755 | for any code in front and any locals, the rewritten jump and the unrewritten sequence reach the same locals and operands, and take the same way exactly unless the jump was fused and two different integers with the same double are compared |
| JumpMeaning.FoldedPeekDiffers | internal/compiler/compiler.go:4653-4675 | folding NOT into the operand-keeping jump, which the compiler never emits, would always leave another operand |
| Doubles.FusedExactly | internal/vm/vm.go:302-333 | comparing rounded doubles decides like comparing the integers exactly unless the doubles are equal and the integers ordered |
| Doubles.FusedOnSafe | internal/vm/vm.go:302-333 | so it always does within 2^53 of zero, and does not for 2^53 and 2^53 + 1 |
| Emission.PatchBytes | internal/bytecode/chunk.go:182-185 | overwriting two bytes of a laid-out program is the laid-out program with that one jump resolved |
| CompilerState.Sequence | internal/compiler/compiler.go:827-834 | compiling one construct after another composes their code, constants, locals and waiting jumps |
| LoopState.WhileCompiled | internal/compiler/compiler.go:3703-3728 | after all patches of a loop, its code is the specified one inside the enclosing program |
| RangeLoops.RangeYields | internal/vm/vm.go:1178-1272 | a fast range over one to three 64-bit arguments, with wrapping arithmetic: in any run value k is start + k * step, wrapped, and the loop goes on exactly when the next value is before the end |
| RangeLoops.LoopEnds | internal/vm/vm.go:1178-1272 | the values do not wrap up to the rounded-up number of steps from start to end; the loop ends there if and only if the value after the last one is a 64-bit integer, and otherwise goes on |
| RangeLoops.ShortLoopsEnd | internal/vm/vm.go:1178-1272 | with one or two arguments it always ends, after as many values as end is away from start, or none below 0 |
| StackDepth.ExprDepth | internal/compiler/compiler.go:1385-1475 | every instruction of an expression's code has one operand depth whatever path leads to it, and the end is one above the start |
| StmtDepth.StmtDepths | internal/compiler/compiler.go:138-345 | statements, their breaks and continues included, begin and end without operands, and SET_LOCAL finds only its own |
| StmtDepth.GlobalAssignDepth | internal/compiler/compiler.go:271-401 | except `x op= e` on a name that is no local: its value is compiled twice and one operand is left behind |
| JitSound.VerifiedRuns | internal/jit/compiler.go:165-585 | every accepted function with scalar constants whose bytes have operand depths, from any locals and for any number of steps: executor and interpreter have the same locals, stacks equal above the leftovers, the same result and the same failure after every step, if and only if the run never negates an integer that its double rounds |
| JitCompiled.CompiledInJit | internal/jit/compiler.go:165-585 | compiled scripts without step ranges and in-place updates of globals have these depths; where lowering accepts them, the executor ends, or runs on, as evaluation says |
| JitCorrect.StepSimulated | internal/jit/compiler.go:644-1037 | one turn of the executor is one bytecode instruction through the offset map, where the step conditions of JitLimits hold |
| JitCorrect.SetLocalExactly | internal/jit/compiler.go:682-691 | leaving the operand keeps the relation if and only if the remaining operands repeat; with one operand always |
| JitLimits.SetLocalDiverges | internal/jit/compiler.go:682-691 | a function of five bytes that is accepted and returns false in the executor, true in the interpreter |
| JitLimits.UnderflowDiverges | internal/jit/compiler.go:682-691 | a function of four bytes that is accepted and returns true in the executor, the operand that SET_LOCAL took; the interpreter, whose frames share a stack, returns an operand of the callers, and fails in the outermost frame |
| JitLimits.ReturnExactly | internal/jit/compiler.go:644-1037 | RETURN without an operand of the frame's own does the same in both if and only if neither has any operand, or the callers' last one is the leftover |
| JitLimits.UnderflowExactly | internal/jit/compiler.go:644-1037 | on an empty operand stack, as the outermost frame may have it, RETURN, POP and NOT do the same in both if and only if the executor has no leftover |
| JitLimits.NegationDiverges | internal/jit/compiler.go:644-1037 | -(2^53 + 1) is accepted, and the results are one apart |
| JitLimits.NegationExactly | internal/jit/compiler.go:644-1037 | NEGATE does the same in both if and only if the operand is no number or its double negates to the same integer |
| JitLimits.StepRangeDiverges | internal/jit/compiler.go:342-348 | a range with a step argument is accepted, runs in the interpreter and fails in the executor |
| JitLimits.StepRangeExactly | internal/jit/compiler.go:342-348 | RANGE_INIT_FAST does the same in both if and only if it has no step argument or the interpreter fails |
| JitLower.LowerCorresponds | internal/jit/compiler.go:165-585 | each instruction of the lowered program stands for the bytecode at its offset, successive offsets map to successive indices, and patched jumps lead to the index of their target |
| JitAccepts.AcceptedExactly | internal/jit/compiler.go:165-585 | lowering accepts code if and only if there is a walk over it from the first byte to the first RETURN: known opcodes one behind the other, constants in the pool, at every instruction as many operands as it needs, counted along the way and along earlier jumps, jumps to instructions of the walk or to the end, and nothing but dead code behind |
| JitLower.KeyInjective | internal/jit/compiler.go:626-642 | scalar constants with the same cache key are the same constant, so deduplication never merges two |
| JitCompile.LowerBytecode | internal/jit/compiler.go:165-585 | the loop that appends instructions, pools and patches accepts and produces exactly what the lowering function says |
| JitCompile.PatchJumps | internal/jit/compiler.go:165-585 | patching in place succeeds exactly when every target offset starts an instruction, and sets each jump to the index of its target |
| JitCompile.HasOnlyDeadEpilogue | internal/jit/compiler.go:587-598 | the loop over what follows the first RETURN accepts exactly NIL and RETURN |
| JitIr.DispatchFinds | internal/jit/backend.go:170-261 | on both backends the executor's switch finds the operation that was encoded, so no two operations share a code |
| JitIr.OpcodeInCatalog | internal/jit/backend.go:427-441 | the code found by walking the built catalog is the operation's position on that backend |
| JitExec.EncodeInstructions | internal/jit/backend.go:162-168 | encoding keeps operands and uses the backend's codes |
| JitExec.ExecuteProgram | internal/jit/compiler.go:644-1037 | the executor's loop over an array of locals ends in the state of the step function after as many turns, on either encoding |
| JitEngine.Engine.TryExecute | internal/jit/compiler.go:83-129 | a function is executed from its warm-up call on exactly when it is accepted, and is rejected for good exactly when it is not; the result is the executor's on locals that hold argument i in slot i and nil elsewhere, and for functions with operand depths the interpreter's; a wrong number of arguments or a failing instruction is an error; all counters |
| JitEngine.ResultsAgree | internal/jit/compiler.go:83-129 | for accepted code with operand depths, called with the right number of arguments: it returns in the executor exactly what it returns in the interpreter, and fails exactly when it does, from locals that hold the arguments and then nil, unless the call rounds in a negation |
| JitEngine.OneOutcome | internal/jit/compiler.go:83-129 | a call has one outcome in the executor: one result, an error, or neither within the steps |
| JitEngine.AcceptedExactly | internal/jit/compiler.go:155-163 | a function is accepted exactly when it captures nothing and there is a legal walk over its code |
| DeepCopies.DeepCopy | internal/value/deepcopy.go:5-92 | copying any closed heap graph terminates, changes no existing object, and gives fresh objects with the same shape whose fields are the copies of the original's |
| DeepCopies.Copier.CopyObject | internal/value/deepcopy.go:10-92 | the memo table gains exactly complete copies, also while cycles are still open |
| DeepCopies.PathsCorrespond | internal/value/deepcopy.go:10-92 | the same field paths exist in original and copy and end in corresponding values |
| DeepCopies.EveryPath | internal/value/deepcopy.go:10-92 | paths leave nothing out: every element, field and entry of an object at the end of a path is at the end of a path |
| DeepCopies.SharingKept | internal/value/deepcopy.go:10-92 | two paths end in one object of the original if and only if they do in the copy |
| DeepCopies.NothingShared | internal/value/deepcopy.go:10-92 | no object of the original is reachable from the copy, except kinds that are never copied |
| FutureHandles.HandOff | internal/runtime/concurrent_module.go:24-63 | completing with a value and awaiting it later: the same paths, ending in the same scalars and in objects of the same kind, the same sharing, and no object in common with the original or with what the future holds, whatever happened in between, but those that are never copied |
| FutureHandles.Deliver | internal/runtime/concurrent_module.go:24-63 | completing and awaiting on the heap deliver this: all paths, where they end, and the sharing, apart from every earlier object |
| FutureHandles.Future.Resolve | internal/runtime/concurrent_module.go:24-36 | only the first resolution changes anything; it stores a copy |
| FutureHandles.Future.Await | internal/runtime/concurrent_module.go:50-66 | an await on a finished future changes nothing and reports the error, empty texts included, or a copy of the result |
| Futures.ResolvedOnce | internal/runtime/concurrent_module.go:24-48 | in every interleaving at most one resolution of a future succeeds, and it is done exactly from then on |
| Futures.AwaitsAgree | internal/runtime/concurrent_module.go:50-66 | every await that returns reports the outcome of that one resolution, which came before it |
| Futures.ContinuationsPass | internal/runtime/concurrent_module.go:262-340 | in every interleaving: the future of then, catch or finally has no outcome before its continuation has finished; then errors pass through then and values through catch without a call, otherwise the callback was called and its outcome is the future's, but that finally passes its parent's outcome on unless its callback fails |
| UiTasks.AlwaysConserved | internal/runtime/ui_module.go:336-409 | in every interleaving of posts, cancels and runners, every posted task is in exactly one of queue, one runner, consumed, cancelled |
| UiTasks.RunsOnce | internal/runtime/ui_module.go:368-409 | no task is consumed twice |
| UiTasks.CancelledNeverRuns | internal/runtime/ui_module.go:356-366 | a task whose cancellation succeeded is never consumed afterwards |
| UiTasks.BatchComesFirst | internal/runtime/ui_module.go:368-409 | a batch is as many tasks as the limit allows; those in it, in their order, have higher priority than the ones behind them and than all that go back, or the same and were posted earlier; none is lost |
| UiTasks.PostingOrder | internal/runtime/ui_module.go:368-409 | with one runner, equal-priority tasks are consumed in posting order over every run with ticks, requeues and cancellations |
| UiTasks.TwoRunnersReorder | internal/runtime/ui_module.go:368-409 | with two runners they need not be: a run of eight steps that reverses two tasks |
| UiTasks.UiApp.CancelTask | internal/runtime/ui_module.go:356-366 | the in-place cut removes the first task with that id and reports whether there was one: the machine's cancel step |
| UiTasks.UiApp.RunOnUiThread | internal/runtime/ui_module.go:368-409 | an undisturbed call is one take and one requeue of the machine; on tasks with different sequence numbers its batch is the first of them by priority and posting, in that order, and the rest stays queued |
| ModuleRoundTrips.SaveAndLoad | internal/classfile/module_codec.go:846-894 | writing a module to bytes and reading the bytes, with every count and length in its field: it succeeds exactly when every reachable constant can be stored and every text can be written, and gives the metadata and new functions and classes that are the reachable graph renamed: same code, captures, constants, lines and declarations, every reference to the new node of the old one's number |
| ModuleRoundTrips.Save | internal/classfile/module_codec.go:846-894 | the records that are written are exactly those of the reachable graph, and there are none exactly when a constant is unsupported or the pool has too long a string |
| ModuleFiles.FileReads | internal/classfile/module_codec.go:1382-1489 | reading the bytes of any file within its limits, global fields included, gives its pool, its methods as their records say, its classes, entry and metadata, and stops at the end of the file |
| ModuleFiles.ReadModule | internal/classfile/module_codec.go:1382-1489 | on any bytes: an error exactly when they are no class file or have no entry method; otherwise all nodes are new and filled in from the file |
| ModuleFiles.ParseFile | internal/classfile/module_codec.go:1382-1470 | the loops over methods and attributes read what the reading functions say, errors included |
| ModuleFiles.FieldsSkipped | internal/classfile/module_codec.go:1508-1535 | passing over the written fields ends right behind them |
| ModuleFiles.WireClasses | internal/classfile/module_codec.go:576-606 | listing every map of a class, in any order, and binding the lists again gives the class |
| ClassFiles.MethodsRead | internal/classfile/module_codec.go:939-964 | reading the written methods gives each as its record says and consumes exactly the written bytes |
| ClassFiles.MethodReads | internal/classfile/module_codec.go:1537-1589 | one method: both attributes, their lengths included, and nothing behind them is touched |
| ClassFiles.CodeReads | internal/classfile/module_codec.go:1616-1661 | the code attribute gives code, frame size and the expanded line table |
| ClassFiles.ReadMethods | internal/classfile/module_codec.go:1432-1443 | the loop over the methods of any file reads what the reading function says |
| Sections.ClassesExact | internal/classfile/module_codec.go:1150-1230 | the bytes of any classes, wherever they are in a file, are read back as those classes, and reading stops right behind them, if and only if every count fits 16 bits |
| Sections.MetaExact | internal/classfile/module_codec.go:1054-1101 | the same for a method's owner, result, captures, global slots, interfaces and constants |
| SectionLimits.ClassesLimits | internal/classfile/module_codec.go:1150-1230 | classes fit their bytes exactly when there are fewer than 65536 and each of their lists, nested ones included, has fewer than 65536 items |
| SectionLimits.MetaLimits | internal/classfile/module_codec.go:1054-1101 | a method's declarations fit exactly when each of their lists has fewer than 65536 items and the kinds of its constants are bytes |
| SectionOrders.ClassInOrder | internal/classfile/module_codec.go:1150-1230 | the parts of a class in the order in which they are in the file |
| SectionOrders.MethodsInOrder | internal/classfile/module_codec.go:1191-1214 | the same of a class's methods, overloads, constructors and special methods |
| SectionOrders.MetaInOrder | internal/classfile/module_codec.go:1054-1101 | the same of a method's declarations |
| SectionOrders.FirstBytes | internal/classfile/module_codec.go:852-860 | a file begins with the bytes of PFBC, minor version 0 and major version 1 |
| SectionOrders.EntryInOrder | internal/classfile/module_codec.go:149-193 | tag, length and bytes of every kind of pool entry, high byte first |
| WireFormats.ManyExact | internal/classfile/module_codec.go:1347-1369 | a counted list of any exact format is exact, the count's limit included |
| WireFormats.TextExact | internal/classfile/module_codec.go:2330-2352 | a text is read back from its length and bytes wherever it was written |
| ModuleRoundTrips.FunctionBack | internal/classfile/module_codec.go:2137-2161 | a function that was written and populated has the original's name, or <script> if it had none, its code, captures and constants up to the renaming, and its lines when they fit |
| ModuleRoundTrips.ClassBack | internal/classfile/module_codec.go:2086-2135 | a class comes back with its superclass, method, overload, static, constructor and special-method references renamed and its method order; absent overloads are dropped; when its slots were in order, index and table are rebuilt as they were, so every slot runs the renamed function |
| ModuleReaders.PopulateMethods | internal/classfile/module_codec.go:2119-2128 | entering the methods in any order fills exactly the slots of the names that have them |
| ModuleGraphs.Numbering.CollectReachable | internal/classfile/module_codec.go:445-500 | the search ends on cycles, in any order of map iteration, having numbered exactly the nodes that every closed set with the entry contains, each once |
| ModuleGraphs.Numbering.CollectClass | internal/classfile/module_codec.go:467-500 | when a class has been visited, everything it refers to has been, and so has everything newly visited |
| ModuleCodecs.WriteModule | internal/classfile/module_codec.go:411-443 | there are no records exactly when a reachable constant is unsupported or a pool string too long; otherwise they are exactly the numbered functions and classes, every attribute name resolves, and the pool is the final one |
| ModuleCodecs.WriteMethods | internal/classfile/module_codec.go:939-964 | looking up the attribute names while methods are written, after the pool, adds nothing to the pool |
| ModuleCodecs.EncodeConstant | internal/classfile/module_codec.go:550-574 | the stored index resolves to the constant, and earlier entries stay |
| ModuleReaders.Populate | internal/classfile/module_codec.go:1471-1490 | new functions and classes, distinct, filled in from what was read, constants and references resolved through the tables |
| ConstantPools.PoolRoundTrip | internal/classfile/module_codec.go:149-246 | reading a written pool gives the same entries at the same indices, two-slot gaps included, and stops right after it, if and only if the pool has at most 65534 entries |
| ConstantPools.WrittenExactly | internal/classfile/module_codec.go:149-193 | a pool can be written exactly when every string has at most 65535 bytes |
| PoolCodec.ReadCP | internal/classfile/module_codec.go:199-246 | the loop that fills the entries reads exactly what the reading function says, errors included |
| PoolCodec.WriteCP | internal/classfile/module_codec.go:149-193 | the loop that skips gaps writes the specified bytes |
| PoolBuilders.CpBuilder.AddString | internal/classfile/module_codec.go:101-109 | the returned index resolves to the string, a known string gets its old index and adds nothing, and all earlier indices keep their meaning |
| PoolBuilders.StoredOnce | internal/classfile/module_codec.go:74-147 | no value is stored twice |
| PoolBuilders.TablesKept | internal/classfile/module_codec.go:74-147 | entering a new value keeps every lookup table exact for its kind of entry |
| LineTables.LinesRoundTrip | internal/classfile/module_codec.go:1039-1052 | expanding the compacted table at the code's length gives back every line, for lines and run offsets in 16 bits and fewer than 65536 runs |
| LineTables.RunsTell | internal/classfile/module_codec.go:1039-1052 | the compacted table has one entry per run: the first at offset 0, each with the line of all its offsets up to the next one's, neighbours with different lines |
| LineTables.DecodeLines | internal/classfile/module_codec.go:1663-1692 | the nested loops expand the table as specified, for any table |
| Captures.FollowsToLexical | internal/compiler/compiler.go:3174-3200 | a captured name resolves exactly when an enclosing function has a local of that name, and its index, followed through the capture lists as closures are created, ends at the last local of that name in the nearest such function |
| Captures.LexicalSelects | internal/compiler/compiler.go:3165-3172 | the search from the last local to the first, function by function outwards, finds the variable that scoping selects, or there is none |
| Captures.LaterCapturesKeep | internal/compiler/compiler.go:3192-3200 | later captures never change what an earlier index means |
| Captures.SameIndexSameVariable | internal/compiler/compiler.go:3192-3200 | two names share an index if and only if scoping selects one variable for both |
| Captures.ResolveUpvalueFrom | internal/compiler/compiler.go:3179-3190 | the recursion through the enclosing compilers changes their capture lists as specified and nothing else |
| ClassLayout.StaticSlots | internal/compiler/compiler.go:2306-2341 | for any inheritance chain, a method slot taken from a class runs on any subclass the last instance method of that name in the last class that declares one, and a field keeps its slot |
| ClassLayout.MostDerivedRuns | internal/compiler/compiler.go:2306-2341 | the most derived function of a name is that of the last instance method in the last class that declares one, and there is none exactly when no class does |
| ClassLayout.CompileClass | internal/compiler/compiler.go:2306-2481 | a class's field order is its superclass's, then an enum's name and ordinal, then the instance fields that are new, each once; likewise the method order; indices are positions, and the table and the method map both hold the most derived function for every name |
| Ladder.ParsesExactly | internal/parser/parser.go:1783-1963 | a rung of the precedence ladder returns a tree and a position if and only if the tree respects the ladder, its tokens are exactly the ones consumed, and the next token does not continue it |
| Ladder.ParseFlattened | internal/parser/parser.go:1783-1963 | parsing the tokens of a tree that respects the ladder gives that tree and stops after it |
| Ladder.FlattenParsed | internal/parser/parser.go:1783-1963 | what was parsed, flattened, is exactly the consumed tokens |
| Ladder.FlattenInjective | internal/parser/parser.go:1783-1963 | no two such trees have the same tokens |
| Ladder.TwoOperators | internal/parser/parser.go:1783-1963 | two operators in a row, named tier by tier: the tighter one takes the middle operand; of one tier the left one, but the right one for powers |
| Ladder.SignFirst | internal/parser/parser.go:1920-1963 | a sign takes only the operand behind it, whatever operator follows |
| ExpressionParser.Parser.LeftRung | internal/parser/parser.go:1783-1918 | the loops that advance the position and grow the left operand do what the ladder function says, errors included |
| TypeText.PrintedExactly | internal/modules/loader.go:874-902 | a type reference is read back from its text if and only if the parser can produce it: in a union, a bounded wildcard can only be last |
| TypeText.PrintedParse | internal/parser/parser.go:311-381 | whatever was parsed, its text is parsed to the same reference |
| TypeText.ArraysParsed | internal/parser/parser.go:349-381 | a name with its arguments, or a wildcard, followed by n pairs of brackets parses to n nested arrays of it |
| TypeParsers.TypeParser.ParseTypeRef | internal/parser/parser.go:349-381 | the loops over brackets and options do what the parsing function says |

## Left out

- Pipeline.CompileScript: what the bytes of a script with a misread window do is given by `RawCode` and, up to the cut instruction, by Misreads.MisreadRuns for any run that comes to the condition and Misreads.MisreadScript for an if behind code that was compiled right. What happens behind a read that succeeds, a cut that reaches into code before the condition, and whole scripts whose first misread window is a loop's are not given in general. Ranges with no or more than three arguments go through the generic iterator, which is not part of this model.
- StmtCorrect.StmtRuns: promises nothing when evaluation fails; evaluation fails on undeclared names, type errors and integers beyond ±2^53, because some instructions compute through doubles there.
- JitSound.VerifiedRuns: asks for operand depths with one operand at SET_LOCAL, no step argument and no ADD_LOCAL_MUL_LOCAL, which the interpreter does not implement. One operand at SET_LOCAL is sufficient and not necessary: the stacks stay related if and only if the operands below repeat it (JitCorrect.SetLocalExactly). The step conditions for missing operands, negation and step ranges are exact (JitLimits); as conditions on whole functions all of them are sufficient.
- JitCorrect.StepSimulated: holds at states where the instruction finds its operands, SET_LOCAL one, and where no rounding negation, step range or ADD_LOCAL_MUL_LOCAL comes next; JitLimits says exactly when the others part.
- JitCompiled.CompiledInJit: lowering rejects the popping and fused jumps of conditions, so it accepts compiled scripts only without conditions.
- SinglePass.Compiler.CompileFastRangeFor: instanceof filters with bindings and guards are not modelled.
- JitEngine.Engine.TryExecute: the lock and the calls that overlap while a function is being compiled are not modelled.
- JitLimits.UnderflowExactly: the interpreter's pop has no check and its frames share one stack (internal/vm/vm.go:3535-3538); POP and NOT without an operand of the frame's own are modelled for the outermost frame only, where they fail; in a callee they would take the caller's operand. RETURN is exact for callees too (JitLimits.ReturnExactly).
- ModuleRoundTrips.SaveAndLoad: the limits are those of the records, `FileFits`: short lists (SectionLimits), and attributes below 2^32 bytes. The global field table is empty here; ModuleFiles.FileReads reads over any. What a function and a class declare besides code and references (owner, result, global slots, interfaces, class flags, fields, visibilities, annotations) is held as it is stored, its maps as lists in the order that they are written in; the flags that a class's booleans are computed from, and those that the file does not hold (a final field, a record, an abstract class), are not part of this model. A method of more than 65535 line runs is written with the runs that its wrapped count covers.
- ModuleFiles.WireClasses: a class's methods, overloads and static methods are listed in any order; the code sorts the names.
- JitEngine.ResultsAgree: takes the condition of JitSound.VerifiedRuns, operand depths; JitLimits says what happens without them.
- FutureHandles.Future.Await: blocking is a precondition; timeouts and polls are steps of the state machine in Futures.
- UiTasks.AlwaysConserved: callbacks' effects, the clock and channels are not modelled; a runner is its snapshot and its batch.
- UiTasks.UiApp.RunOnUiThread: covers an undisturbed call up to its batch; other threads between its locked sections are steps of the state machine.
- Captures.FollowsToLexical: holds up to 256 captures per function; the index of a later one wraps, as in the code.
- ClassLayout.CompileClass: native methods get no slot, as in the code; the comment at internal/compiler/compiler.go:2411-2416 says that they do. Constructors, overload lists, visibilities and the precomputed fast plans are not modelled.
- Ladder.ParsesExactly: literals, parentheses, unary and binary operators only; calls, indexing, tuples, casts, lambdas, the range shortcut and instanceof would make some token sequences parse differently, and a parenthesis after an operand is an error here.
- TypeText.PrintedExactly: speaks of the printed tokens; lexing the text is not modelled.
- SinglePass.Compiler.CompileStmt: the declared types are int, number, bool, none, and one that stands for every other name and is never numeric; `float`, `Integer` and `Double`, which the compiler also takes for numeric (internal/compiler/compiler.go:3495-3502), are not among those. Names are let and var locals, script-level ones that no function captures included; const, final and def names, captures in compound assignments, strings, floats, division and instanceof conditions are left out, and global instructions only exist as far as assignments to unknown names emit them (the machine raises).
- SinglePass.Compiler.CompileLocalAssign: a slot's type is looked up by position, which differs from the code only past 256 locals.
- Machine semantics of fused instructions on operands that are not numbers: the interpreter reads a zero field; the model raises, and no proved run gets there.
- A program with names that start with `__range_`: they could collide with the hidden names of range loops.
- The array-field rewrite can misfire too, after a LOOP whose distance ends in byte 99; it is part of `Aligned` and of the emission model, without a separate counterexample.
- SinglePass.Compiler.CompileProgram: the whole script is on one line; the code gives every byte the line of its own token.
- JIT: globals, fields, calls, closures, casts and collections are rejected by the model; an out-of-range constant index, a panic in the code, is a rejection.
- DeepCopy of bound methods, single-method adapters and iterators: they register in the table after their parts, so sharing is not their contract.
- Method descriptors are opaque texts; their own parsing is not modelled.
- Thread handles and channels: they add a started flag and a buffered queue around the same copies.
- HTTP, files, windows and layout, import resolution, bundles, the CLI and the other library modules.
