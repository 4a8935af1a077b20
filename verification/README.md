# Models of the open firmware tree's compiler examples and loaders

This project models, in Dafny, the parts of the repository whose behaviour is hard to see
from reading one function, and proves what they are for.

* **BrainF** (`BrainFSource`, `BrainFIR`, `BrainFGen`, `BrainFCompiler`, `BrainFCorrect`,
  `BrainFChecks`, `BrainFSSA`). The one-pass compiler is a class that reads a text with one
  symbol held back, merges runs, and appends blocks to a control-flow graph with phi nodes.
  It is proved to leave a function that behaves as the text does, under a small-step meaning
  of the emitted instructions with addresses modulo the address space, and that is in static
  single assignment form. `BrainFSource.Exec` is the independent reference: the eight
  commands as C statements on a tape.
* **The exception demo** (`Leb128`, `Lsda`, `ActionTables`, `JitTables`, `CatchWrappers`). The
  readers of the language specific data area work on bytes and are proved against lists; what
  the JIT writes, with actions shared between landing pads, is proved to be what they read. On top of that the generated try/catch/finally functions are
  executed, in any nest and for any catch lists, with the selectors the personality computes.
* **The barrier of ParallelJIT** (`Barrier`): threads interleaved step by step, over any number
  of rounds, and the class whose methods take those steps.
* **Use lists and their way marks** (`UseLists`, `Waymarks`): the intrusive lists on the heap,
  and the tag bits from which a slot finds the end of its operand array.
* **The firmware loaders and the register monitor** (`Fucload`, `Monitor`, `GpcMonitor`):
  register access traces with arbitrary answers and what the engines make of them, and
  the shadow copies with their change logs.

Where a property does not hold of the code, the input that shows it and the exact extent are
stated: merged bounds checks (`BrainFChecks.DirectExact`), 32-bit shifts in the LEB128 readers
(`Leb128.RoundTripU`, `Leb128.RoundTripS`), a tape without cells
(`BrainFCorrect.CheckedCrashes`), waiting under `if` (`Barrier.KeptExactly`), and the
log of the GPCs (`GpcMonitor.GpcLogExact`).

Conventions. Numbers are unbounded integers where the source's cannot overflow, and reduced
explicitly where they can. `|` of operands without a common bit is written as addition
(`Leb128.OrIsSum`, `Leb128.SignIsSum`, `Fucload.OrIsSum`). Several methods carry ghost
parameters for what their callers know, such as the decoded form of the bytes to be read.
Paths are relative to the root of the repository.

## Model

| member | source | states |
|---|---|---|
| BrainFSource.AcceptedIffBalanced | compiler/llvm/examples/BrainF/BrainF.cpp:418-467 | a text parses to its end exactly when no prefix closes a bracket it has not opened and the whole text opens as many as it closes |
| BrainFSource.StrayIffNegative | compiler/llvm/examples/BrainF/BrainF.cpp:418-422 | the parse stops at an extra `]` exactly when some prefix has more closing than opening brackets |
| BrainFSource.ParseSpells | compiler/llvm/examples/BrainF/BrainF.cpp:312-415 | what has been parsed, written out again, is the command characters of exactly the stretch of text that was consumed: none is lost, repeated or reordered |
| BrainFSource.UnparseParses | compiler/llvm/examples/BrainF/BrainF.cpp:329-413 | the inverse: any command sequence, written out anywhere in a text, is read back as itself |
| BrainFSource.CommandTable | compiler/llvm/examples/BrainF/BrainF.cpp:12-22 | each of the six characters does to the head, the cell and the streams what the table of the language says, wrapping at 0 and 255 |
| BrainFSource.MergeJoins | compiler/llvm/examples/BrainF/BrainF.cpp:336-372 | after merging, no two moves and no two changes stand side by side, at any depth |
| BrainFSource.MergeRefines | compiler/llvm/examples/BrainF/BrainF.cpp:336-372 | merged runs end like single commands, in output, input, tape and head, on every run that a check after each single move does not stop; without checks, on every run |
| BrainFSource.MergedCheckIsWeaker | compiler/llvm/examples/BrainF/BrainF.cpp:237-265 | `<>` from the first cell: the check after each move stops it, the compiled check does not |
| BrainFSource.CheckedStaysOnTape | compiler/llvm/examples/BrainF/BrainF.cpp:244-265 | under bounds checks a run that starts on the tape accesses no cell outside it, and ends on it |
| BrainFSource.Drift | compiler/llvm/examples/BrainF/BrainF.cpp:237-243 | the tape keeps its size, and the head never strays further off it than the moves between two accesses lead |
| BrainFSource.JoinedWithin | compiler/llvm/examples/BrainF/BrainF.cpp:237-243 | merged code lets the head stray no further than its longest move |
| BrainFCorrect.ShortTextsFit | compiler/llvm/examples/BrainF/BrainF.cpp:353-373 | no text of less than 2^31 characters has a longer move than it has characters |
| BrainFCompiler.BrainF.Parse | compiler/llvm/examples/BrainF/BrainF.cpp:40-50 | compilation completes exactly on balanced texts, reports an extra `]` exactly when a prefix has one, consumes the whole text, and leaves the function whose meaning and shape the lemmas below are about |
| BrainFCompiler.BrainF.Readloop | compiler/llvm/examples/BrainF/BrainF.cpp:184-468 | one call, at any nesting depth, consumes exactly the text its parse consumes, ends as the bracket that stopped it demands, and leaves the blocks of that part of the program; it terminates because each step consumes a character or the symbol held back |
| BrainFCompiler.BrainF.ReadSymbols | compiler/llvm/examples/BrainF/BrainF.cpp:312-415 | the current symbol with its value, the symbol held back, and the text not yet read together always stand for the same commands; afterwards the run in hand is complete |
| BrainFCompiler.BrainF.TakeCharacter | compiler/llvm/examples/BrainF/BrainF.cpp:330-413 | every character either extends the run in hand, starts one, is held back, or is ignored |
| BrainFCompiler.TakenCharacter | compiler/llvm/examples/BrainF/BrainF.cpp:330-413 | taking a character does not change which commands are still to be emitted |
| BrainFCompiler.BrainF.WriteRead | compiler/llvm/examples/BrainF/BrainF.cpp:201-215 | a read emits its three instructions and touches nothing else |
| BrainFCompiler.BrainF.WriteWrite | compiler/llvm/examples/BrainF/BrainF.cpp:217-235 | a write likewise |
| BrainFCompiler.BrainF.WriteChange | compiler/llvm/examples/BrainF/BrainF.cpp:269-281 | a change likewise, with the sum of its run modulo 256 |
| BrainFCompiler.BrainF.WriteMove | compiler/llvm/examples/BrainF/BrainF.cpp:237-267 | a move makes its new head the current one, and under bounds checks continues in a new block behind the test |
| BrainFCompiler.BrainF.StartLoop | compiler/llvm/examples/BrainF/BrainF.cpp:283-304 | `[` leaves a test block with a half-finished phi of the head, which becomes the current head, and an empty body block |
| BrainFCompiler.BrainF.EndLoop | compiler/llvm/examples/BrainF/BrainF.cpp:424-456 | `]` completes that phi from wherever the body has ended, and writes the test and the exit block |
| BrainFCompiler.BrainF.WriteHeader | compiler/llvm/examples/BrainF/BrainF.cpp:52-182 | the entry, return and error blocks every function starts from: malloc, memset, the pointers, and a return block that frees the tape |
| BrainFGen.Gen | compiler/llvm/examples/BrainF/BrainF.cpp:194-310 | emission only extends the current block and adds blocks; it never rewrites another one, so that outer loops stay half finished until their own `]` |
| BrainFCorrect.AddressExact | compiler/llvm/examples/BrainF/BrainF.cpp:106-115 | with addresses modulo the address space, an address lies in [arr, arrmax) exactly when the head is on the tape, although the head may have strayed |
| BrainFCorrect.ChangeRuns | compiler/llvm/examples/BrainF/BrainF.cpp:269-281 | the emitted i8 add does to the cell what a change of the same sum does; off the tape it is an access outside the object |
| BrainFCorrect.WriteRuns | compiler/llvm/examples/BrainF/BrainF.cpp:217-235 | load, sign extension and putchar show the byte of the cell |
| BrainFCorrect.ReadRuns | compiler/llvm/examples/BrainF/BrainF.cpp:201-215 | getchar, truncation and store put the next byte, or 255 at the end of input, into the cell |
| BrainFCorrect.CheckedBranchRuns | compiler/llvm/examples/BrainF/BrainF.cpp:244-265 | the three comparisons and the branch lead to the error block exactly when the head has left the tape |
| BrainFCorrect.LeavingMoveRuns | compiler/llvm/examples/BrainF/BrainF.cpp:132-181 | a failed check reports the error once and returns without another tape access |
| BrainFCorrect.TestRuns | compiler/llvm/examples/BrainF/BrainF.cpp:436-455 | the loop test enters the body on a nonzero cell and leaves the loop on zero, with the head from the right phi operand |
| BrainFCorrect.SimulateLoop | compiler/llvm/examples/BrainF/BrainF.cpp:283-304 | a compiled loop, phis resolved by incoming edge, does what the source loop does, any number of times round |
| BrainFCorrect.ProgramRuns | compiler/llvm/examples/BrainF/BrainF.cpp:40-50 | any run of a compiled function follows the source run, to its end if it has one, and otherwise goes on at least as long |
| BrainFCorrect.CompiledIffSource | compiler/llvm/examples/BrainF/BrainF.cpp:12-22 | a compiled function ends exactly when its program does, with the same tape, remaining input, output and errors, and accesses memory outside its tape exactly when the program does |
| BrainFCorrect.TapeFreed | compiler/llvm/examples/BrainF/BrainF.cpp:119-129 | and whenever it returns, after a failed check too, it has freed the tape it allocated, once, and not accessed it afterwards |
| BrainFCorrect.UncheckedIsFaithful | compiler/llvm/examples/BrainF/BrainF.cpp:12-22 | without bounds checks this holds of the text read one character at a time, for every text, tape and input |
| BrainFCorrect.CheckedIsFaithful | compiler/llvm/examples/BrainF/BrainF.cpp:237-265 | with bounds checks it holds of every run that a check after each single move does not stop |
| BrainFCorrect.CheckedNeverCrashes | compiler/llvm/examples/BrainF/BrainF.cpp:106-115 | with bounds checks and at least one cell, no compiled program accesses memory outside its tape |
| BrainFCorrect.EmptyTapeCrashes | compiler/llvm/examples/BrainF/BrainF.cpp:237-281 | on a tape without cells, a program accesses memory outside it exactly if its first command is not a move, for no check comes before that access |
| BrainFCorrect.CheckedCrashes | compiler/llvm/examples/BrainF/BrainF.cpp:106-115 | so, under bounds checks, an access outside the tape happens exactly for those programs on a tape without cells, whatever the size otherwise and the input |
| BrainFChecks.DirectExact | compiler/llvm/examples/BrainF/BrainF.cpp:237-265 | a merged run of moves is checked as its single moves are, from every cell of every tape, if and only if it never leaves the stretch between its start and its end |
| BrainFChecks.DirectAlike | compiler/llvm/examples/BrainF/BrainF.cpp:237-265 | so a program all of whose runs are such is stopped at the same point by either kind of check |
| BrainFChecks.DirectIsFaithful | compiler/llvm/examples/BrainF/BrainF.cpp:237-265 | and is compiled faithfully, failing checks included, for every input; on a tape without cells every program is |
| BrainFSSA.ProgramWellFormed | compiler/llvm/examples/BrainF/BrainF.cpp:283-304 | every block ends in one terminator, no branch leads outside or to the entry, each phi lists exactly the predecessors of its block once each, and no register has two definitions, also where bounds checks split blocks inside loops |
| BrainFSSA.InstructionUsesDominated | compiler/llvm/examples/BrainF/BrainFDriver.cpp:128-147 | on every path from the entry to an instruction, each register it reads has been defined |
| BrainFSSA.EdgeUsesDominated | compiler/llvm/examples/BrainF/BrainF.cpp:430-455 | the same of branch conditions, and of phi operands at the end of the block they come from |
| Leb128.ReadULEB128 | compiler/llvm/examples/ExceptionDemo/ExceptionDemo.cpp:372-388 | the loop reads the number that the groups of seven bits stand for, up to the first byte without the continuation bit, as far as shifting an int allows |
| Leb128.ReadSLEB128 | compiler/llvm/examples/ExceptionDemo/ExceptionDemo.cpp:396-416 | the same with the sign extended |
| Leb128.RoundTripU | compiler/llvm/examples/ExceptionDemo/ExceptionDemo.cpp:372-388 | decoding inverts the canonical encoding of section 7.6 of DWARF Version 3, inside any longer buffer and advancing by exactly its length, if and only if the number is below 2^31 |
| Leb128.RoundTripS | compiler/llvm/examples/ExceptionDemo/ExceptionDemo.cpp:396-416 | for signed numbers, if and only if it lies in [-2^27, 2^31) |
| Leb128.OrIsSum | compiler/llvm/examples/ExceptionDemo/ExceptionDemo.cpp:378-383 | on the words that occur, setting the bits of the next group, shifted as an int and widened with its sign, adds it, because none of them is set |
| Leb128.SignIsSum | compiler/llvm/examples/ExceptionDemo/ExceptionDemo.cpp:411-413 | and setting the sign bits adds the negative power of two |
| Lsda.HandleActionValue | compiler/llvm/examples/ExceptionDemo/ExceptionDemo.cpp:522-595 | on every chain that ends, the walk returns i + 1 for the first action i whose type is the thrown one, and false if there is none or the exception is foreign |
| Lsda.Selected | compiler/llvm/examples/ExceptionDemo/ExceptionDemo.cpp:552-592 | the position returned is that of the first match, and 0 exactly when nothing matches |
| Lsda.ReadEncodedPointer | compiler/llvm/examples/ExceptionDemo/ExceptionDemo.cpp:425-473 | a pointer without base or indirection is read in each of its fixed-width and variable-length formats, with its width and sign |
| JitTables.FixedRoundTrip | compiler/llvm/examples/ExceptionDemo/ExceptionDemo.cpp:431-467 | a number written in any of the seven fixed-width formats is read back, the signed ones with its sign, advancing by the width, for every number the format holds |
| JitTables.Formats | compiler/llvm/examples/ExceptionDemo/ExceptionDemo.cpp:429-473 | the widths of the formats by their numbers, and what each holds; an omitted pointer is zero and takes no bytes; no other format is read here |
| JitTables.VariableRoundTrip | compiler/llvm/examples/ExceptionDemo/ExceptionDemo.cpp:436-442 | one written in a variable-length format likewise, within what the LEB128 readers read |
| Lsda.WalkTable | compiler/llvm/examples/ExceptionDemo/ExceptionDemo.cpp:669-781 | walking the bytes of a call-site table picks the entry that a search of the decoded list picks; every entry takes at least one byte |
| Lsda.FoundFirst | compiler/llvm/examples/ExceptionDemo/ExceptionDemo.cpp:687-708 | which is the first entry with a landing pad such that the offset is at least its start and below its end, in 64-bit arithmetic, if there is one |
| Lsda.FoundExactly | compiler/llvm/examples/ExceptionDemo/ExceptionDemo.cpp:687-708 | where sites are in order and do not overlap, exactly the one that the offset lies in: an offset where one site ends and the next begins belongs to the next |
| Lsda.HandleLsda | compiler/llvm/examples/ExceptionDemo/ExceptionDemo.cpp:609-784 | either phase answers as the decoded frame demands, and cleanup sets the two result registers and the instruction pointer, search nothing |
| Lsda.PhasesAgree | compiler/llvm/examples/ExceptionDemo/ExceptionDemo.cpp:726-777 | search claims a frame exactly when cleanup enters it with a nonzero selector; a foreign exception is never claimed and gets selector 0; without a landing pad both phases pass on (section 1.6 of the Itanium C++ ABI: Exception Handling) |
| Leb128.EmitULEB128Bytes | compiler/llvm/include/llvm/CodeGen/JITCodeEmitter.h:175-191 | the loop writes the canonical encoding the round trips are about |
| Leb128.EmitSLEB128Bytes | compiler/llvm/include/llvm/CodeGen/JITCodeEmitter.h:193-206 | so does the signed one, which stops where only the sign is left and the last group shows it |
| Leb128.GetSLEB128Size | compiler/llvm/lib/MC/MCAsmInfo.cpp:92-104 | and the size the emitter reckons with is that of what is written |
| ActionTables.PadLT | compiler/llvm/lib/ExecutionEngine/JIT/JITDwarfEmitter.cpp:154-166 | landing pads are ordered lexicographically by their type ids |
| ActionTables.SharedTypeIds | compiler/llvm/lib/ExecutionEngine/JIT/JITDwarfEmitter.cpp:138-151 | what two landing pads have in common is their longest common beginning |
| ActionTables.BackToShared | compiler/llvm/lib/ExecutionEngine/JIT/JITDwarfEmitter.cpp:252-265 | walking back over the actions that are not shared arrives at the action of what is, and at its distance from the end of the table |
| ActionTables.ComputeActions | compiler/llvm/lib/ExecutionEngine/JIT/JITDwarfEmitter.cpp:236-292 | for any sorted landing pads, each gets the first action of a chain for exactly its list, none if the list is empty; no list has two actions, and every action belongs to some landing pad |
| ActionTables.OneForEach | compiler/llvm/lib/ExecutionEngine/JIT/JITDwarfEmitter.cpp:209-292 | so the table has one action for each list that begins a landing pad's, and no others: everything that can be shared is |
| ActionTables.EmitActions | compiler/llvm/lib/ExecutionEngine/JIT/JITDwarfEmitter.cpp:441-449 | the table's bytes are those of its actions in order |
| ActionTables.ChainReads | compiler/llvm/lib/ExecutionEngine/JIT/JITDwarfEmitter.cpp:267-285 | from any action of the written table the reader follows the displacements, over whatever other chains have in between, to the end of its chain |
| ActionTables.ChainIds | compiler/llvm/lib/ExecutionEngine/JIT/JITDwarfEmitter.cpp:267-285 | which is the list the action stands for, last type id first |
| JitTables.SitesRead | compiler/llvm/lib/ExecutionEngine/JIT/JITDwarfEmitter.cpp:405-439 | the call-site table is read back as it was written |
| JitTables.HeaderReads | compiler/llvm/lib/ExecutionEngine/JIT/JITDwarfEmitter.cpp:393-403 | so is the header |
| JitTables.AnyHeaderReads | compiler/llvm/examples/ExceptionDemo/ExceptionDemo.cpp:637-664 | a header with or without a start of landing pads and type infos, any call-site format and any table length below 2^32 is read as it was written |
| JitTables.ExampleArea | compiler/llvm/lib/ExecutionEngine/JIT/JITDwarfEmitter.cpp:388-449 | the bytes of an area, one by one, for a function with one protected call |
| JitTables.EmittedFrame | compiler/llvm/lib/ExecutionEngine/JIT/JITDwarfEmitter.cpp:388-449 | the whole area, written anywhere in memory for any landing pads and call sites, is read as the frame it was written for |
| JitTables.SelectedIsFirst | compiler/llvm/lib/CodeGen/MachineModuleInfo.cpp:426-449 | the selector of a frame is the position of the thrown type in its catch list |
| JitTables.EmittedPersonality | compiler/llvm/examples/ExceptionDemo/ExceptionDemo.cpp:1253-1274 | the personality's answer for a call protected by one of the landing pads, in both phases, depends on the catch list of that landing pad alone, whatever the others share with it |
| CatchWrappers.Generator.CreateFinallyBlock | compiler/llvm/examples/ExceptionDemo/ExceptionDemo.cpp:968-1026 | the finally block switches on the state to the end or to resuming, and the entry initialises both slots |
| CatchWrappers.Generator.CreateCatchBlock | compiler/llvm/examples/ExceptionDemo/ExceptionDemo.cpp:1041-1071 | a catch block marks the exception caught and goes to the finally block |
| CatchWrappers.Generator.CreateCatchWrappedInvokeFunction | compiler/llvm/examples/ExceptionDemo/ExceptionDemo.cpp:1094-1363 | creating the blocks first and filling them in afterwards yields the wrapper whose behaviour follows, for any number of types |
| CatchWrappers.SwitchCases | compiler/llvm/examples/ExceptionDemo/ExceptionDemo.cpp:1343-1357 | selector i leads to catch block i - 1 and every other value to the finally block |
| CatchWrappers.SearchFindsInnermost | compiler/llvm/examples/ExceptionDemo/ExceptionDemo.cpp:726-777 | the search phase stops at the innermost wrapper that lists the thrown type |
| CatchWrappers.SelectorAt | compiler/llvm/examples/ExceptionDemo/ExceptionDemo.cpp:741-756 | in cleanup, exactly the wrapper where search stopped gets a selector |
| CatchWrappers.LandingPadRuns | compiler/llvm/examples/ExceptionDemo/ExceptionDemo.cpp:1232-1357 | a wrapper entered at its landing pad catches and frees, or runs its finally block and passes the exception on; it cannot get stuck |
| CatchWrappers.NormalRuns | compiler/llvm/examples/ExceptionDemo/ExceptionDemo.cpp:1209-1220 | a wrapper whose call returned runs its finally block and frees nothing |
| CatchWrappers.HarnessRuns | compiler/llvm/examples/ExceptionDemo/ExceptionDemo.cpp:1601-1634 | for any nest and any thrown type, the complete sequence of messages, allocations and frees |
| CatchWrappers.ExactlyOnce | compiler/llvm/examples/ExceptionDemo/ExceptionDemo.cpp:1094-1363 | the exception reaches the catch block for its type in the innermost wrapper that lists it and no other; wrappers inside resume, wrappers outside see a normal return, and every finally block runs exactly once |
| CatchWrappers.Conserved | compiler/llvm/examples/ExceptionDemo/ExceptionDemo.cpp:322-364 | one of our exceptions is allocated once, and freed once if some wrapper lists its type and never otherwise, in which case the harness gets it; a foreign one is neither allocated nor freed |
| CatchWrappers.PersonalityOfWrapper | compiler/llvm/examples/ExceptionDemo/ExceptionDemo.cpp:798-831 | the selectors these results rest on are what the personality computes from a frame emitted for a function with the wrapper's landing pad, wherever the landing pads are in its code |
| CatchWrappers.OurPersonality | compiler/llvm/examples/ExceptionDemo/ExceptionDemo.cpp:798-831 | the same starting from the bytes of the area: answer and selector are those the execution of the nest uses, and the instruction pointer is set to the landing pad of the call site |
| Barrier.StepInv | compiler/llvm/examples/ParallelJIT/ParallelJIT.cpp:149-213 | every step of every thread keeps mutual exclusion and the meaning of both counters |
| Barrier.CountersHold | compiler/llvm/examples/ParallelJIT/ParallelJIT.cpp:149-196 | whatever number is waited for, while waiting ends only by a broadcast, `n` counts the workers inside and `waitFor` is set only while the releaser waits |
| Barrier.AssertionHolds | compiler/llvm/examples/ParallelJIT/ParallelJIT.cpp:149-156 | in any interleaving, with any spurious wakeups and whatever number is waited for, `waitFor == 0 || n <= waitFor` holds wherever a thread stands at the assertion, and at most one thread is inside the mutex |
| Barrier.ReleaseFindsAll | compiler/llvm/examples/ParallelJIT/ParallelJIT.cpp:157-191 | when the barrier opens for N, all N workers and the releaser are inside |
| Barrier.BarrierSafe | compiler/llvm/examples/ParallelJIT/ParallelJIT.cpp:149-196 | without spurious wakeups, in any interleaving of any number of rounds all threads have been let through equally often, so nobody leaves its j-th call before all have begun theirs |
| Barrier.TooFewNeverPass | compiler/llvm/examples/ParallelJIT/ParallelJIT.cpp:181-196 | a releaser that waits for more than there are workers lets nobody through |
| Barrier.StepProgress | compiler/llvm/examples/ParallelJIT/ParallelJIT.cpp:149-213 | every step decreases a measure |
| Barrier.EveryRunEnds | compiler/llvm/examples/ParallelJIT/ParallelJIT.cpp:157-212 | every run, with any wakeups and whatever number is waited for, takes at most six steps per call |
| Barrier.EveryRunFinishes | compiler/llvm/examples/ParallelJIT/ParallelJIT.cpp:157-212 | where a run without wakeups, or with harmless ones only, cannot go on, all threads are back from all their calls, with both counters zero and the mutex free |
| Barrier.SpuriousWakeupBreaks | compiler/llvm/examples/ParallelJIT/ParallelJIT.cpp:163-168 | one spurious wakeup, which POSIX allows, lets a worker through while nobody else has begun, for any number of workers |
| Barrier.KeptExactly | compiler/llvm/examples/ParallelJIT/ParallelJIT.cpp:149-196 | exactly: in a run with any wakeups nobody ever leaves a call before everybody has begun it, if and only if whoever wakes by itself has at that moment begun no more calls than anybody else |
| Barrier.FairExactly | compiler/llvm/examples/ParallelJIT/ParallelJIT.cpp:149-196 | the stronger property, that all threads have been let through equally often at every moment, holds if and only if there is no spurious wakeup at all |
| Barrier.WaitForThreads.Block | compiler/llvm/examples/ParallelJIT/ParallelJIT.cpp:149-173 | `block` under the mutex takes exactly its two steps, and its assertion holds |
| Barrier.WaitForThreads.ReleaseThreads | compiler/llvm/examples/ParallelJIT/ParallelJIT.cpp:178-196 | `releaseThreads` under the mutex takes exactly its step |
| Barrier.WaitForThreads.UnblockThreads | compiler/llvm/examples/ParallelJIT/ParallelJIT.cpp:199-213 | both counters are zero and every waiting thread has been signalled |
| UseLists.Use.AddToList | compiler/llvm/include/llvm/Use.h:128-133 | the slot becomes the first node; all back links are right again and other lists are untouched |
| UseLists.Use.RemoveFromList | compiler/llvm/include/llvm/Use.h:134-138 | two writes through the back link take out the slot alone, wherever it stands |
| UseLists.Use.Set | compiler/llvm/include/llvm/Value.h:323-327 | afterwards every list is well linked and holds exactly the slots with its value; the slot leads its new list and all other slots keep their order |
| UseLists.Use.Swap | compiler/llvm/lib/VMCore/Use.cpp:22-45 | the two slots exchange values, and nothing changes if they hold the same |
| UseLists.User.SetOperand | compiler/llvm/include/llvm/User.h:107-113 | the same of an operand |
| UseLists.User.DropAllReferences | compiler/llvm/include/llvm/User.h:144-147 | no operand holds a value, and every list has lost exactly the operands, in order |
| UseLists.Value.GetNumUses | compiler/llvm/lib/VMCore/Value.cpp:123-125 | walking a list ends and passes each use once |
| UseLists.Value.ReplaceAllUsesWith | compiler/llvm/lib/VMCore/Value.cpp:294-315 | where no user is a uniqued constant, the other value takes over all slots, last first, ahead of its own |
| UseLists.Members | compiler/llvm/include/llvm/Use.h:70-72 | a list holds a slot if and only if the slot holds its value |
| UseLists.ListsFollowHistory | compiler/llvm/include/llvm/Use.h:128-138 | after any history of assignments a list holds exactly the slots whose last assignment was its value, each once, the latest first |
| Waymarks.TableIsTags | compiler/llvm/lib/VMCore/Use.cpp:92-98 | the precomputed tags are the ones the loop would have laid |
| Waymarks.InitTags | compiler/llvm/lib/VMCore/Use.cpp:88-120 | for an array of any size every slot gets the tag its distance from the end demands |
| Waymarks.GetImpliedUser | compiler/llvm/lib/VMCore/Use.cpp:51-82 | from every slot of an array of any size, the walk over the tags stays inside the array and computes its end; from a slot at distance d from the end it looks at no more than 2 log2(d + 1) + 5 slots |
| Fucload.WordsOfImage | loader_firmware/fucload.c:84-95 | packing four bytes at a time inverts laying words out in memory |
| Fucload.ImageOfWords | loader_firmware/fucload.c:115-116 | and the other way round, for images of whole words |
| Fucload.OrIsSum | loader_firmware/fucload.c:115-116 | the shifted bytes do not overlap, so that combining them is adding them |
| Fucload.LittleEndian | loader_firmware/fucload.c:115-116 | and the byte at the lowest address is the least significant one |
| Fucload.LowestCleared | loader_firmware/fucload.c:106-106 | clearing the lowest bit is subtracting the remainder modulo 2 |
| Fucload.UploadCode | loader_firmware/fucload.c:102-131 | the byte loop reads register 0x260 and writes the code trace of the image's words between clearing and restoring it, and leaves its padding loop nothing to do |
| Fucload.UploadData | loader_firmware/fucload.c:134-148 | the same of data |
| Fucload.LoadMicrocode | loader_firmware/fucload.c:58-99 | the word loops write the same traces, for one engine or for both, in one bracket |
| Fucload.MicrocodeLoaded | loader_firmware/fucload.c:58-99 | after them the engine of the GPCs, and with the hub's blob that of the hub, hold their images, and otherwise what they held |
| Fucload.BracketedRestores | loader_firmware/fucload.c:104-130 | if register 0x260 answers with what it holds, an upload leaves it as it was, and its lowest bit is clear at every write to another register |
| Fucload.MicrocodeRestores | loader_firmware/fucload.c:61-98 | so do the word loops for both engines |
| Fucload.LoadRestores | loader/fucload.c:225-282 | and whole runs, whichever files fit |
| Fucload.UploadsAgree | loader_firmware/fucload.c:84-119 | byte-indexed and word-indexed uploads of one image are the same trace, after which the memory they are for, code or data, holds the image byte for byte and the other what it held |
| Fucload.CodeArrives | loader_firmware/fucload.c:102-120 | every section write finds the device already at that section, every word comes in with its own section selected, and the words end up at their addresses |
| Fucload.DataArrives | loader_firmware/fucload.c:134-148 | data words end up at their addresses |
| Fucload.EngineLoaded | loader_firmware/fucload.c:563-594 | an engine's uploads leave both its memories with exactly their images, whatever they held |
| Fucload.BothLoaded | loader/fucload.c:225-282 | after a whole run both engines hold their images: the first its files over zeros, the second its files over what the first one's left in the buffers |
| Fucload.ReadBinfile | loader_firmware/fucload.c:443-469 | a file replaces the front of the buffer, and one that is too large replaces nothing |
| Fucload.SectionSizes | loader_firmware/fucload.c:565-568 | the lowest byte of register 0x620 counts the code section in units of 256 bytes, the next one the data section |
| Fucload.SizeBits | loader_firmware/fucload.c:565-568 | which is what the masks and shifts compute |
| Fucload.LoadEngine | loader_firmware/fucload.c:563-594 | an engine's two sizes are read from its register 0x620, its uploads happen exactly when its files fit them, and stay inside the buffers |
| Fucload.BothSizes | loader/fucload.c:225-260 | in a whole run each engine's own register 0x620 decides about its files, whatever the other one's holds |
| Fucload.Load | loader/fucload.c:225-282 | both engines go through the same buffers, starting from zeros: the complete trace, whichever of the four files fit |
| Fucload.LeftoverOfFirst | loader/fucload.c:263-281 | behind a shorter second file the second engine is sent what is left of the first one's |
| Monitor.HubMonitor.DebugUnit | monitor/monitor2.c:64-104 | a poll prints and stores exactly the changed registers among those it scans, stops at the first full line where its prints and skips reach the limit, otherwise at the end of the window, so that it scans everything if fewer than 198 registers have changed; replaying all that was ever printed rebuilds the shadow array |
| Monitor.PollEndUnique | monitor/monitor2.c:78-79 | this determines where it stops |
| Monitor.ChangesRefresh | monitor/monitor2.c:80-96 | replaying the changes of a poll over the old shadow gives the new one |
| Monitor.ChangesOrdered | monitor/monitor2.c:80-96 | entries come in address order, once each, and each differs from what was known |
| GpcMonitor.DebugUnitGpc | monitor/monitor2.c:107-148 | a GPC's eleven registers are brought up to date and exactly the changed ones printed, in order |
| GpcMonitor.DebugGpcs | monitor/monitor2.c:197-201 | a poll of all four prints a line for each that has changed |
| GpcMonitor.LineTells | monitor/monitor2.c:107-148 | to a reader who knows the shadow and the GPC, a line tells all its registers |
| GpcMonitor.GpcLogExact | monitor/monitor2.c:107-148 | but a line does not name its GPC: a poll tells all registers if and only if no line could have come from a silent neighbour of the GPC that printed it, whatever the shadows |
| GpcMonitor.FirstPollExact | monitor/monitor2.c:107-148 | with equal shadows, as at the first poll, if and only if none of the four or all have printed a line |
| GpcMonitor.GpcLogAmbiguous | monitor/monitor2.c:107-148 | for one, a device with a single register set leaves it open which GPC that is in |

## Left out

- BrainFCompiler.BrainF.Parse: `curvalue` and `nextvalue` are unbounded; the source's int would overflow on a run of 2^31 commands. The size of the tape is not negative; the driver passes 65536. An abort is a verdict, and the messages are not kept.
- BrainFCorrect.CompiledIffSource: requires the tape and each merged move to be below 2^31, as the source's constants do, and the tape and the longest merged move together to be smaller than the address space, which they are at 32 bits and more; malloc succeeds. Whether an access outside the tape is noticed is not modelled: it ends the run.
- BrainFCorrect.CheckedIsFaithful: says nothing of runs that a check after each single move stops; `BrainFChecks.DirectIsFaithful` covers those for texts whose runs of moves are direct.
- Leb128.ReadULEB128: numbers of more than five bytes, which shift an int by more than its width, are not read; negative signed numbers of more than four bytes likewise.
- Lsda.HandleActionValue: requires the chain to end, as emitted chains do; on a cyclic one the source does not return. Negative type indices (filters) violate the source's assertion.
- Lsda.ReadEncodedPointer: pc-relative and indirect encodings, which read host memory, and the reading of type info pointers: the types of a frame are given as a list.
- CatchWrappers.Conserved: counts what the generated code frees; what the C++ runtime does with an exception that the harness catches is not modelled.
- CatchWrappers.Harness: the unwinder is modelled as search and cleanup over the nest, without forced unwinding or stack layout; the text of messages is left out.
- ActionTables.ComputeActions: filters (negative type ids) are left out, and the link from an action to the one before it is a position in the table, not a pointer. That the landing pads are sorted is required, and std::sort not modelled.
- JitTables.EmittedFrame: type ids are below 2^31 and the action table takes at most 2^27 bytes, so that the readers can read them. Which call sites a function has, the type info table behind the actions and alignment padding are left out, and labels are given as offsets.
- Barrier.BarrierSafe: assumes no spurious wakeups, which `Barrier.KeptExactly` is about; results of the pthread calls other than success, and scheduling fairness, are left out.
- Barrier.WaitForThreads: a call that blocks is split into the stretches between its blocking points, because a method cannot wait.
- UseLists.Value.ReplaceAllUsesWith: users that are uniqued constants, value handles and type checks are left out.
- UseLists.Value: the list of a value is also kept as a ghost sequence; allocation and destruction of users and slots are left out.
- Waymarks.InitTags: the tags are an array of their own, not the low bits of the back links, which the list operations leave alone.
- Fucload.CodeArrives: that bit 24 of an index makes a port move on, that the low bits are an address, and what selecting a section does, is how the device is modelled; the programs only write the registers.
- Fucload.Load: device reset, file errors other than a missing or too large file, the interactive command loop and waiting for registers are left out; a read that succeeds delivers the whole file.
- Monitor.HubMonitor: the time stamp, the exit condition and sleeping are left out; within a poll each register is read once, so that the device is a function of the address.
- LLVM behind the interfaces (type system, verifier, pass managers, optimisations, JIT code generation, bitcode) is left out.
- PCI mapping, volatile accesses, command lines and printing are left out.
- Attributes, alignment, inline assembly flags and subclass data are left out.
