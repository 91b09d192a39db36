# Verified model of Aleph 0

Aleph 0 is a 16-bit computer: a microcoded CPU simulator, an assembler, a linker, object formats, two loaders, a disk
of chained sectors, a small operating system and programs in assembly. This project models those layers in Dafny and
proves that each is what the next one takes it to be.

The layers, and the modules that hold them:

- **Machine.** `ControlRom` fills the control store with the loops of the simulator, `Tick` is the bus machine (a class
  whose methods update the registers and memories of the simulator, checked against a pure tick), `Isa` is the
  instruction set a programmer sees. `Refinement` and `Cycles` prove that the microcode performs exactly one instruction
  per run of the step counter, over whole executions. `Registers` says in plain arithmetic, bit by bit, what registers,
  memory and disk hold after an instruction. `Calls` proves that calls nest.
- **Compiler on the machine.** `Brainfuck` gives programs their direct meaning, `Commands` tells it by the characters of
  the text, `Coalescing` is the run-length pass of the just-in-time compiler with its signed counts, `JitCompiler` is
  the compiler as a class over its buffers, and `JitFragments`, `JitCorrect` run the bytes it emits on the instruction
  set; `JitLimits` tells when its buffer overflows.
- **Toolchain.** `Assembler` and `Linker` are classes over the tables of the originals. `Assembly` and `Linking` say
  what programs and objects mean, `AssemblerLimits` which programs are accepted; `LinkingCorrect`, `Toolchain`,
  `Loading`, `Jumps` and `EndToEnd` carry that meaning from labels in source text to the addresses the machine jumps to;
  `Placement` does the same for every other bytecode, numbers and data. `DebugInfo` shows what debug symbols cannot
  change.
- **Assembly text.** `Tokenizer` (over `Tokens`, `Tokenizing`, with comments and macros) and `Parser` (over `Parsing`)
  read text, `Printing` writes it. `RoundTrip` and `Accepted` prove that each undoes the other, on exactly what the
  parser can return. `Lexical` covers what printing never writes: comments, other literals, quoted characters and
  macros. `Mnemonics` holds the two name tables.
- **Storage.** `Formats`, `FormatsExact` and `FormatFiles` are the byte formats, `FormatLayout` their fields byte by
  byte, `Sectors` the disk, `FileReader` the machine's file reading, `PageLoader` the machine's program loader with the
  proof that it agrees with the host's.
- **Operating system and library.** `Processes` (over `Bitmaps`) is nested `execute` and `exit` with maps and stacks,
  `PathLookup` the path matcher (`Paths` says what a path leads to), `MathRoutines` the assembled `div` and `mul` on the
  machine (through `StackCode`, a simulation of stack routines, and `Division`), `Decimal` number output and input,
  `Rule110` the in-place automaton.
- **Analysis.** `StackDepth` is the control-flow walk of the code analyzer; `StackEffect` ties its nodes to the machine.

Bytes and words are integers with explicit wrap-around (`Words`). Files, keyboards and I/O routines appear as
parameters. Where the program stops at a failed assertion or a fatal error the model returns a status.

Some results are about where the code does not do what one would expect, with the exact condition under which it does:

- `JitCorrect.TracksIffMovesFit`: the compiler emits one byte of the count of a pointer move, so compiled code follows
  the program exactly when every move executed has a count below 256; `JitCorrect.CancelledMoveGoesWrong` shows the
  three characters `><<` going wrong.
- `Division.DividedExactly`: the sign test in `div` is right exactly for divisors up to 0x8000, and beyond that for a
  zero dividend, or for 0x8001 with the dividend's top bit set.
- `Accepted.ReprintedReadsBack`: a quoted character of 128 or more is a negative argument, which is printed with four
  digits and then refused (`Accepted.NegativeCharacterIsLost`); every other program read from text survives printing.
- `Toolchain.GlobalIsSetExactly`: the assembler accepts a name declared both global and extern, but then writes it as a
  global without a position (`Toolchain.GlobalAndExtern`, `AssemblerLimits.BothWaysAccepted`).
- `JitLimits.OverrunExactly`: the compiler's test for a full buffer is made after single bytes only and is jumped over
  by an operand from 510 to 512; `JitLimits.FiftyOnePointsOverrun` is a program that does so.
- `Processes.OwnBitClearedIff`: `exit` computes the page to free from the SP two words below its own; near the bottom of
  a page that is the page below, whose bit it then clears (`Processes.WrongPageCleared`).
- `StackEffect.ChangeIsMachines`: the analyzer takes `A_SP` to leave the stack depth alone, which is right exactly when A
  is SP; every other instruction but calls and returns moves SP by the recorded change.
- `Lexical.QuotedPair`: of two quoted characters as a word operand the second becomes the high byte only if the first is
  below 128; otherwise the high byte is 0xFF.
- `FileReader.File.ReadU8`: a last sector filled to its end would lose its last byte; the host never writes one
  (`Sectors.Disk.EncodeFile`). The documentation (docs/README.md, File Sector) allows a maximal index of 0xFF there.
- The comment in asm/bfjit.asm:259 speaks of `diff_code + 2`; the code writes `diff_code`, so a skipped loop lands on
  the test of its own end (`JitFragments.LoopSkipped`), which is right because A is still zero.

## Model

| member | source | states |
|---|---|---|
| ControlRom.SetInstructionFlags | src/runtime.c:177-183 | the words of one instruction and step change exactly for the flag values with (or without) a masked bit |
| ControlRom.SetInstructionAllFlag | src/runtime.c:185-189 | the words of one instruction and step change for all flag values, no other word does |
| ControlRom.SetConditional | src/runtime.c:295-336 | taken and not-taken words of a conditional jump end up under the flag values that select them |
| ControlRom.SetControlRom | src/runtime.c:191-413 | every word of the control store is the one its opcode, step and flags call for, all others are empty |
| Tick.Simulator.Tick | src/runtime.c:564-708 | one tick of the class equals the pure tick of its state, with every ROM, RAM and storage index in range |
| Tick.Simulator.DriveBus | src/runtime.c:569-633 | the value each output word puts on the bus, the last driver winning |
| Tick.Simulator.ApplyEarly | src/runtime.c:574-671 | the part of a tick before the step counter can be reset |
| Tick.Simulator.ApplyLate | src/runtime.c:676-707 | the part that a reset of the step counter skips |
| Refinement.EveryInstructionRefines | src/runtime.c:191-413 | the words of every straight-line opcode together have that instruction's architectural effect |
| Refinement.EffectOfStackRelative | src/runtime.c:238-249 | PEEKAR and PUSHAR access the stack at an offset and overwrite the flags by the address addition |
| Refinement.EffectOfRelativeCall | src/runtime.c:391-396 | CALLR pushes the operand's address and jumps relative to it, the addition setting the flags |
| Refinement.EffectOfReturn | src/runtime.c:397-402 | RET continues two bytes behind the popped address |
| Cycles.StraightTicks | src/runtime.c:564-708 | successive ticks apply the words of an instruction in order until the step counter resets |
| Cycles.IdleTicks | src/runtime.c:706 | an empty word idles the machine until the step counter wraps at sixteen |
| Cycles.SkippedTicks | src/runtime.c:295-336 | a conditional jump not taken skips its operand |
| Cycles.LandedTicks | src/runtime.c:295-336 | a taken jump whose own addition changed the flags finishes under the new flags, idling if that word is empty |
| Cycles.HaltInstruction | src/runtime.c:412 | HLT clears running and leaves the step counter at one |
| Cycles.UnusedInstruction | src/runtime.c:191-195 | opcodes 59 to 62 only move past themselves, in sixteen ticks |
| Cycles.MicrocodeRefinesIsa | src/runtime.c:177-413 | from any instruction boundary the next one is reached in exactly CycleCount ticks, having done one instruction |
| Cycles.TotalCycles | src/runtime.c:564-708 | a run of n instructions takes between 3n and 16n ticks |
| Cycles.RunsRefine | src/runtime.c:564-708 | n instructions of the architecture are TotalCycles ticks of the machine, over whole runs |
| Cycles.BoundariesAreRuns | src/runtime.c:564-708 | conversely every tick count with the step counter at zero is the end of a run of instructions |
| Registers.AndBits | src/runtime.c:595-597 | a conjunction has exactly the bits both words have, and none beyond its width |
| Registers.AndStep | src/runtime.c:276-279 | AND leaves in A exactly the bits that A and B have both, the flags telling the result, nothing else changing |
| Registers.SumStep | src/runtime.c:600-611 | SUM and SHL give the integer sum, the carry being its seventeenth bit |
| Registers.DifferenceStep | src/runtime.c:600-611 | SUB gives the integer difference up to a borrow; the carry is set when nothing is borrowed and something taken |
| Registers.HalfStep | src/runtime.c:598-599 | SHR halves A, the bit lost going into the carry |
| Registers.WordAccess | src/runtime.c:587-593 | a word is stored and read with its low byte at the even address, no other byte changing |
| Registers.PushThenPop | src/runtime.c:227-256 | a pushed word is popped again, at any SP |
| Registers.DiskRead | src/runtime.c:622-624 | the storage is a disk of 256-byte sectors, read at the sector and index registers |
| Registers.DiskWritten | src/runtime.c:682-684 | writing changes that byte of that sector only |
| Registers.SectorSelected | src/runtime.c:676-678 | the sector selected for a pointer is its low twelve bits, as path lookup takes it |
| Coalescing.StacksCorrespond | asm/bfjit.asm:69-116 | the open loops of the text and of the coalesced tokens correspond after every prefix |
| Coalescing.TokensBalanced | asm/bfjit.asm:69-116 | coalescing a well-nested program gives balanced tokens |
| CoalescingCorrect.ActMore | asm/bfjit.asm:48-51 | one more equal command is one more in the pending count modulo 2^16 |
| CoalescingCorrect.ActLess | asm/bfjit.asm:31-41 | an opposite command is one less in the pending count, also through zero |
| CoalescingCorrect.TextStepSimulated | asm/bfjit.asm:31-116 | tokens still pending together with the tokens done follow each step of the text |
| CoalescingCorrect.TextRunSimulated | asm/bfjit.asm:31-116 | the same for runs of any length |
| CoalescingCorrect.CoalescingIsCorrect | asm/bfjit.asm:31-116 | a program and its coalesced tokens end with the same tape, pointer and I/O |
| JitFragments.AddMany | asm/bfjit.asm:150-161 | the emitted bytes of a long run of plus add its count to the cell |
| JitFragments.SubtractMany | asm/bfjit.asm:169-181 | the emitted bytes of a long run of minus subtract its count from the cell |
| JitFragments.MoveMany | asm/bfjit.asm:189-223 | the emitted bytes of a long pointer move go by the low byte of its count |
| JitFragments.FragmentIsExactIff | asm/bfjit.asm:150-223 | a repeated command's bytes have its effect exactly when it is no pointer move or its count fits a byte |
| JitFragments.LoopEntered | asm/bfjit.asm:225-239 | with a non-zero cell an open bracket falls into its loop |
| JitFragments.LoopSkipped | asm/bfjit.asm:225-262 | with a zero cell it lands on the test of its matching close bracket and leaves the loop |
| JitFragments.LoopRepeated | asm/bfjit.asm:241-262 | a close bracket with a non-zero cell goes back behind the open bracket's operand |
| JitFragments.LoopLeft | asm/bfjit.asm:241-262 | a close bracket with a zero cell falls out of its loop |
| JitFragments.InputFragment | asm/bfjit.asm:264-272 | a comma stores the next input character in the cell |
| JitFragments.OutputFragment | asm/bfjit.asm:274-282 | a point sends the cell to the output |
| JitEncoding.Appended | asm/bfjit.asm:142-295 | emitting a fragment keeps all earlier ones and their targets |
| JitEncoding.Closed | asm/bfjit.asm:241-262 | closing a loop patches the two displacements and nothing else |
| JitEncoding.Finished | asm/bfjit.asm:113-118 | once every loop is closed the buffer is the translation of the tokens |
| JitCompiler.Compiler.PushInst | asm/bfjit.asm:290-300 | one byte goes to the code pointer; the end is noticed when the pointer reaches 511, and missed when it is already behind |
| JitCompiler.Compiler.PushOpen | asm/bfjit.asm:225-239 | an open bracket is emitted with its operand left open and remembered on the jump stack |
| JitCompiler.Compiler.PushClose | asm/bfjit.asm:241-262 | a close bracket takes the last open one and patches both operands, or finds none |
| JitCompiler.Compiler.CheckAndPush | asm/bfjit.asm:31-51 | a repeatable command joins, cancels or flushes the pending run, a cancelled run keeping its direction |
| JitCompiler.Compiler.PushChar | asm/bfjit.asm:69-112 | one character of the program advances the compiler as the scan says |
| JitCompiler.Compiler.Compile | asm/bfjit.asm:54-118 | compiling succeeds exactly for well-nested programs at most sixteen deep that fit (`Commands.AcceptedExactly` in characters), leaving their translation; any other ends as its first token that cannot be emitted |
| Commands.CommandStep | asm/bfjit.asm:69-112 | what each of the eight characters, and any other, does to cell, pointer, input, output and place, a loop being left or repeated at the bracket that encloses it |
| Commands.NestedExactly | asm/bfjit.asm:225-262 | well nested: no prefix of the text closes more brackets than it opens, and all are closed |
| Commands.MatchingEncloses | asm/bfjit.asm:225-262 | matching brackets are the pair between which the depth stays above that outside |
| Commands.AcceptedExactly | asm/bfjit.asm:54-118 | the programs the compiler takes, by depth counted in characters and size of code |
| Commands.RunToken | asm/bfjit.asm:31-51 | a run of equal `+`, `-`, `<` or `>` is one token with its length |
| Commands.CommandTokens | asm/bfjit.asm:88-112 | the other commands are tokens of their own, any other character is none |
| Commands.CommandCode | asm/bfjit.asm:150-282 | the machine code a single command is compiled to, character by character |
| JitLimits.OverrunExactly | asm/bfjit.asm:225-300 | the buffer is overrun unnoticed exactly when an operand takes the code pointer from 510 to 512: a bracket or point at offset 506, a comma at 508 |
| JitLimits.CodeExceedingExactly | asm/bfjit.asm:290-300 | code that is too long is reported exactly when the first fragment (or the epilogue) that does not fit runs into the tested address byte by byte |
| JitLimits.FiftyOnePointsOverrun | asm/bfjit.asm:274-282 | `+.` fifty times and one more `.` overrun the buffer |
| JitCorrect.TokenRuns | asm/bfjit.asm:142-287 | the bytes of each token do to the machine what the token does to the tape, and arrive at the next token's bytes |
| JitCorrect.TracksIffMovesFit | asm/bfjit.asm:189-223 | the machine follows a safe run of the tokens exactly when every pointer move executed fits its byte |
| JitCorrect.CompiledCodeReturns | asm/bfjit.asm:54-120 | a program that ends: the compiled code returns with the same tape, pointer, input position and output |
| JitCorrect.CompiledCodeKeepsRunning | asm/bfjit.asm:54-120 | a program still running after k steps' worth of text: the compiled code has not returned within k steps |
| JitCorrect.CancelledMoveGoesWrong | asm/bfjit.asm:31-41 | the program `><<` ends one cell left of its start, its compiled code 255 cells right of it |
| ObjectFiles.PatchedWords | src/link.c:284-288 | after patching with relocations that agree wherever they meet every site holds its word |
| ObjectFiles.UnpatchedByte | src/link.c:284-288 | a byte no site covers is unchanged |
| ObjectFiles.PatchCode | src/link.c:284-288 | the in-place patching loop performs the relocations in order |
| Linking.ImageAt | src/link.c:75-78 | every object's bytes stand in the image at its even offset |
| Linking.Packed | src/link.c:75-78 | objects follow each other closely, with one zero byte where the next would stand at an odd position |
| Linking.ExportFound | src/link.c:38-48 | the position of an exported name is that of the first export of the name, 0xFFFF for lack of one |
| Linker.Linker.AddSymbolOffset | src/link.c:50-67 | a new symbol is appended with position and sites shifted, unless the table is full |
| Linker.Linker.MergeExterns | src/link.c:88-112 | an object's externs become references by name, their sites joined to earlier ones |
| Linker.Linker.MergeGlobals | src/link.c:114-142 | an object's globals become definitions, refused only for a name that has one |
| Linker.Linker.LinkObj | src/link.c:69-160 | linking an object extends image, local relocations and tables exactly by it, with or without debug symbols |
| Linker.Linker.LinkSo | src/link.c:162-176 | a library's exports are remembered; the table holds a single library |
| Linker.Linker.FindExport | src/link.c:38-48 | the searching loop finds the position of the first export of the name |
| Linker.Linker.LinkLibrary | src/link.c:213-244 | one dynamic entry per library in use with all sites of the names left to it, or exactly when too many, a failure |
| Linker.Linker.CheckResolved | src/link.c:246-256 | succeeds exactly when every reference not taken by a library has a definition |
| Linker.Linker.LinkStatic | src/link.c:258-268 | the sites of every defined reference become relocations, in order |
| Linker.Linker.CheckExe | src/link.c:207-289 | how resolving ends, each failure in its turn; on success code, relocations and dynamic entries are those linking means |
| Linker.Linker.Link | src/linker.c:37-79 | a whole run, named libraries first, then objects, then the standard library: how it ends, full tables included, is a function of these; its outcomes, each for its reason, and the executable it leaves |
| LinkingCorrect.DefinitionPos | src/link.c:50-67 | a defined name's position is its object's offset plus its position there |
| LinkingCorrect.UndefinedExactly | src/link.c:246-256 | a name is unset exactly when no object defines it |
| LinkingCorrect.RelocsAreCoherent | src/link.c:207-289 | relocations of well-formed objects fit the image and any two are apart or the same, duplicates included |
| LinkingCorrect.LocalSiteResolved | src/link.c:80-83 | a local site holds its own object's offset plus its target |
| LinkingCorrect.ExternSiteResolved | src/link.c:258-268 | an extern site of a defined name holds the defining object's offset plus its position, whatever libraries offer |
| LinkingCorrect.OtherBytesUnchanged | src/link.c:284-288 | every byte outside the settled sites is copied unchanged |
| LinkingCorrect.SharedSiteListed | src/link.c:213-244 | each site of a name left to a library is in that library's entry, with the position of the library's first export of that name |
| LinkingCorrect.SharedSiteOnly | src/link.c:213-244 | dynamic entries hold nothing else: sites of names left to their library, with the position of its first export of the name |
| Assembly.SiteShape | src/assemble.c:401-416 | label operands are even, inside the code, right behind their opcode |
| Assembly.SitesApart | src/assemble.c:401-416 | operands of different instructions never overlap |
| Assembly.LabelStands | src/assemble.c:428-435 | in an accepted program a label's position is where it was set |
| Assembly.PatchesReach | src/assemble.c:459-496 | right patches reaching every operand, in any order and number, leave every operand in and other bytes alone |
| Assembler.Assembler.AddSymbol | src/assemble.c:335-355 | a name is found or appended and set, refused exactly when it is set already or the table is full |
| Assembler.Assembler.AddSite | src/assemble.c:357-379 | a use is recorded under its label, known or new |
| Assembler.Assembler.Compile | src/assemble.c:381-457 | one bytecode extends code and symbol tables as the program extended by it requires (what the bytes do: `Placement`) |
| Assembler.Assembler.CheckExterns | src/assemble.c:465-475 | succeeds exactly when externs are unset and never relative, marking their sites |
| Assembler.Assembler.CheckSymbol | src/assemble.c:476-495 | a symbol's distances and positions are written, local sites listed; it fails exactly when unset or the table is full |
| Assembler.Assembler.Check | src/assemble.c:459-496 | every operand patched and every local site listed, no more and no fewer; each failure for its reason |
| Assembler.Assembler.Strip | src/assemble.c:498-519 | stripping keeps globals and externs with fresh indices |
| Assembler.Assembler.Assemble | src/assemble.c:522-553 | an assembled object is its program's; its relocations, in order, and every failure depend on the source only, not on debug symbols |
| AssemblerLimits.AcceptedExactly | src/assemble.c:381-496 | a program is accepted exactly when it makes sense and its names, declarations, sites and relocations fit the tables |
| AssemblerLimits.BothWaysAccepted | src/assemble.c:436-447 | a program declaring one name both global and extern is accepted |
| Toolchain.AssembledIsWellFormed | src/assemble.c:459-520 | assembled objects are what the linker expects |
| Toolchain.GlobalIsSetExactly | src/assemble.c:436-447 | a declared global has a position exactly when it is not declared extern too |
| Toolchain.GlobalAndExtern | src/assemble.c:436-447 | the object of a program declaring one name both ways has a global without a position |
| Toolchain.BootstrapStands | src/link.c:178-205 | the start-up object stands for the program that jumps to `_start` |
| Toolchain.AbsoluteOperandLinked | src/link.c:207-289 | a linked absolute operand is the address of its label, in its own program or the one defining it |
| Toolchain.RelativeOperandLinked | src/assemble.c:478-482 | a linked relative operand is still the distance to its label |
| Loading.ExeReloc | src/runtime.c:880-899 | the host loader accepts exactly executables with the one library entry and rebases both kinds of relocations |
| Loading.LoadedWords | src/runtime.c:880-899 | after loading every site holds its word plus the base of its kind |
| Loading.SettledLoaded | src/runtime.c:886-891 | a static site of a linked program holds its target plus the start address |
| Loading.SharedLoaded | src/runtime.c:893-898 | a site left to the library holds the position of the library's first export of the name plus the library's address |
| Jumps.FetchWord | src/runtime.c:587-593 | the word fetch that ignores the lowest address bit reads an even operand exactly |
| Jumps.AbsoluteJumpsLand | src/runtime.c:288-290 | an assembled, linked and loaded JMP or CALL sets IP to the loaded address of its label |
| Jumps.RelativeJumpsLand | src/runtime.c:291-336 | a taken relative jump or CALLR does so at any even load address |
| Placement.ProgramPlaced | src/assemble.c:381-456 | every byte of every bytecode but label operands stands in the memory of a running program, bytecode behind bytecode |
| Placement.Spans | src/assemble.c:381-456 | how many bytes each bytecode takes, word operands ending at an even address |
| Placement.NumberLoads | src/assemble.c:394-400 | `RAM_A 0x1234` in an assembled, linked and loaded program puts 0x1234 into A, `RAM_B` into B, nothing else changing, and goes on behind the operand |
| Placement.SmallNumberLoads | src/assemble.c:390-393 | each instruction with an 8-bit operand takes the low byte of its number, into the register or memory it names |
| Placement.PlainInstruction | src/assemble.c:387-389 | an instruction without operand is what the machine executes there |
| Placement.LabelLoads | src/assemble.c:401-408 | `RAM_A name` and `RAM_B name` load the address of the label, of their own program or another |
| Placement.LabelAddress | src/assemble.c:429-436 | the address of a label is that of the bytecode behind it |
| Placement.DataAtLabel | src/assemble.c:417-428 | numbers, text and space behind a label stand byte by byte from its address on, words with their low byte first |
| Placement.WordRead | src/assemble.c:420-422 | a word of data at an even label is what rB_A reads there |
| Placement.OperandsAreRead | src/instructions.c:202-231 | how far the machine moves IP, or where it jumps, is what the argument kind of each instruction says |
| Calls.StepStacked | src/runtime.c:386-402 | one instruction of a nested run keeps all open return words and the SP of the activations |
| Calls.CallsNest | src/runtime.c:386-402 | in any properly nested run every RET resumes behind the operand of its own CALL or CALLR with the caller's SP, even or odd, outer return words intact |
| Calls.CallsReturn | src/runtime.c:386-402 | a call with everything nested in it comes back behind its operand with its SP |
| EndToEnd.LinkedIsLoadable | asm/execute.asm:36-82 | linked programs meet every need of the machine's loader |
| EndToEnd.LoadedPageRuns | asm/execute.asm:36-82 | a page the loader has filled is the running program of the jump theorems |
| EndToEnd.ExecutableBoots | src/link.c:178-205 | entered at its start, an executable is two instructions later at `_start` |
| DebugInfo.SameSourceAlike | src/assemble.c:498-519 | two objects of one source, with and without debug symbols, have the same code, relocations, globals and externs |
| DebugInfo.DebugInformationIsInert | src/link.c:85-157 | programs of such objects link, or fail to, alike: same code, relocations and dynamic entries |
| DebugInfo.Build | src/assemble.c:522-553 | sources assembled and linked with any debug symbols end as the sources alone say, or with a table filled by the linker's debug symbols |
| DebugInfo.FatesAlike | src/link.c:69-160 | linking objects that differ in debug symbols only ends alike, full tables included |
| DebugInfo.PlainBuildsAgree | src/assemble.c:498-519 | debug symbols at assembling never change the outcome: the same failure, or the same code, relocations and dynamic entries |
| DebugInfo.DebugCanOnlyFill | src/link.c:207-289 | those of the linker never do either, but for filling one of its tables |
| DebugInfo.BuildBothWays | src/link.c:85-157 | from a list of sources, building without and with debug symbols at either stage gives the same result, unless the linker's own fill a table |
| Mnemonics.OpcodeOf | src/instructions.c:75-200 | a name that is found is the mnemonic of the opcode returned |
| Mnemonics.OpcodeOfMnemonic | src/instructions.c:8-200 | the mnemonic of every instruction is found again, so the two tables are inverse to each other |
| Tokenizing.Next | src/assemble.c:59-205 | a token other than the end always uses up text, or else a token of the macro being replayed, and keeps earlier macros |
| Tokenizer.Tokenizer.TokenNext | src/assemble.c:59-205 | the tokenizer's buffer, macros and replay position move as tokenizing says, each error for its reason |
| Tokenizer.Tokenizer.DefineMacro | src/assemble.c:97-113 | a macro definition, nested or calling other macros, collects its tokens up to the limits |
| Tokenizer.Tokenizer.CutToken | src/assemble.c:114-205 | strings, numbers in three bases, words and signs are cut off with their values |
| Parser.BytecodeOf | src/assemble.c:216-314 | one bytecode is taken off the tokenizer, or the end, or an error |
| Parser.ReadProgram | src/assemble.c:525-545 | the parsing loop ends with all bytecodes of the text, or its first error |
| Lexical.CommentSkipped | src/assemble.c:126-134 | a comment, from two dashes to the end of its line, is as if it were not there |
| Lexical.WordCharacters | src/assemble.c:168-172 | which characters words, numbers and gaps are made of |
| Lexical.ByteLiteral | src/assemble.c:136-152 | two hexadecimal digits of either case are a byte, the first the more significant |
| Lexical.WordLiteral | src/assemble.c:136-152 | four of them are a word |
| Lexical.BinaryLiteral | src/assemble.c:153-164 | eight binary digits are a byte |
| Lexical.PrintedByte | src/instructions.c:312-329 | a byte is printed with two upper-case digits |
| Lexical.QuotedCharacter | src/assemble.c:240-241 | a quoted character is assembled to its code |
| Lexical.QuotedPair | src/assemble.c:262-263 | two quoted characters are a word with the first as its low byte; the high byte is the second if the first is below 128, else 0xFF |
| Lexical.OddOffset | src/assemble.c:251-253 | an odd offset of PEEKAR or PUSHAR is refused, an even one taken |
| Lexical.MacroDefined | src/assemble.c:97-113 | a definition adds the macro with the tokens it spells and yields nothing itself |
| Lexical.MacroCalled | src/assemble.c:181-190 | the name of a macro yields the tokens of the macro in order, and then what follows the name |
| Lexical.MacroLimits | src/assemble.c:97-113 | there is room for 31 macros of 31 tokens, more are refused |
| RoundTrip.Stream.BytecodeToAsm | src/instructions.c:312-329 | the text appended for a well-formed bytecode is parsed back to it, whatever follows behind a gap |
| RoundTrip.BytecodeRead | src/instructions.c:312-329 | a printed bytecode in front of a gap is parsed back, the rest untouched, unless its argument has too many digits |
| RoundTrip.ListingRead | src/assemble.c:216-314 | a listing is read back exactly when every 8-bit argument fits |
| Accepted.NextSound | src/assemble.c:59-205 | every token of any text is well-formed, also out of macros |
| Accepted.ParseBytecodeSound | src/assemble.c:216-314 | every bytecode parsed from any text has the argument its instruction takes |
| Accepted.ReprintedReadsBack | src/assemble.c:59-314 | printing what was parsed from any source text and parsing it again gives the same program exactly when every 8-bit argument fits |
| Accepted.ReadBackIff | src/instructions.c:312-329 | a program survives printing and parsing exactly when it is well-formed and its 8-bit arguments fit |
| Accepted.NegativeCharacterIsLost | src/assemble.c:240-241 | `RAM_AL "\u00e9"` is parsed to an argument that cannot be read back |
| Formats.ExeRoundTrip | src/files.c:291-370 | decoding an encoded executable returns it and leaves trailing bytes unread |
| Formats.ObjRoundTrip | src/files.c:207-269 | the same for objects |
| Formats.SoRoundTrip | src/files.c:403-459 | the same for shared objects |
| Formats.FrontSymbols | src/files.c:121-159 | the same for symbol lists |
| FormatsExact.ExeExactly | src/files.c:291-370 | an executable is decoded from exactly the bytes it is encoded to, whatever follows them |
| FormatsExact.ObjExactly | src/files.c:207-269 | the same for objects |
| FormatsExact.SoExactly | src/files.c:403-459 | the same for shared objects |
| FormatsExact.ExesArePrefixFree | src/files.c:338-370 | no executable's encoding is another's followed by more bytes |
| FormatsExact.ObjsArePrefixFree | src/files.c:245-269 | the same for objects |
| FormatsExact.SosArePrefixFree | src/files.c:438-459 | the same for shared objects |
| FormatLayout.ExeLayout | src/files.c:338-370 | every field of an executable, from `EXE` to the last symbol, at its place, words low byte first, and nothing behind |
| FormatLayout.ObjLayout | src/files.c:245-269 | the same for objects |
| FormatLayout.SoLayout | src/files.c:438-459 | the same for shared objects |
| FormatFiles.Output.EncodeExe | src/files.c:338-370 | the writer appends exactly the encoding |
| FormatFiles.Input.DecodeExe | src/files.c:291-325 | the reader succeeds exactly in front of an encoding, returns what is encoded, and stands behind it |
| FormatFiles.Input.DecodeObj | src/files.c:207-232 | the same for objects |
| FormatFiles.Input.DecodeSo | src/files.c:403-425 | the same for shared objects |
| Sectors.Disk.EncodeFile | src/encodemem.c:55-80 | a file takes size / 252 + 1 consecutive fresh sectors that chain its bytes, no other sector changing |
| Sectors.Disk.EncodeFiles | src/encodemem.c:55-80 | later files leave all earlier chains intact |
| Sectors.Disk.DecodeFile | src/decodemem.c:61-76 | following a chain gives the file's bytes and ends |
| Sectors.ByteOnDisk | src/encodemem.c:55-80 | byte n of a file is byte 4 + n % 252 of the (n / 252)-th sector of its chain |
| Sectors.ChainEnds | src/encodemem.c:74-77 | the last sector of a chain has 0xFFFF for its successor and tells where its data end |
| FileReader.File.ReadU8 | asm/read_file.asm:11-43 | each read gives the next byte of the chain, then 0xFFFF forever |
| FileReader.File.ReadU16 | asm/read_file.asm:49-69 | two bytes at a time, a single last one alone |
| PageLoader.CopyCode | asm/execute.asm:39-51 | the code is copied to the page word by word, nothing else changing |
| PageLoader.RelocatePage | asm/execute.asm:52-60 | the relocations read from the file are performed on the page, rebased |
| PageLoader.LinkDynamic | asm/execute.asm:63-82 | the library entry is rebased on the address in memory; another library is refused |
| PageLoader.LoadPage | asm/execute.asm:36-82 | the machine's loader leaves in the page what the reference loader makes of the code, and refuses non-executables |
| PageLoader.StoreAndLoad | asm/execute.asm:36-82 | the two loaders agree end to end, through encoding, disk and file reading |
| Bitmaps.ShiftLeft | asm/execute.asm:141-147 | a left shift carries out the map's next bit |
| Bitmaps.Search | asm/execute.asm:90-95 | the search finds the first clear bit after the top one, with its mask and its place |
| Bitmaps.MaskOf | asm/exit.asm:17-20 | the mask loop gives the bit of an index |
| Processes.ChainReachesOs | asm/execute.asm:97-100 | the parent chain from the running process reaches the operating system after all others, and ends |
| Processes.Os.AllocatePage | asm/execute.asm:134-155 | a free page is taken and marked, or the machine halts exactly when there is none |
| Processes.Os.Execute | asm/execute.asm:84-126 | a new process owns a fresh struct and page; field by field the struct has the caller's directory and redirections, the caller's struct as parent and no SP; of the caller's struct only the SP changes, of the others nothing; the process has its argument on its stack and starts at its page; the caller waits with its SP saved and its return word on its stack |
| Processes.Os.Exit | asm/exit.asm:11-52 | with room for the words exit pushes, the process's bits are cleared and its parent goes on behind the operand of its CALL, at its SP, with the exit code |
| Processes.Os.ClearBits | asm/exit.asm:12-44 | the exit code and the two bits are pushed, the page being computed from the SP below the first two, and taken off the maps |
| Processes.OwnBitClearedIff | asm/exit.asm:17-30 | exit clears the bit of the process's own page exactly when its SP is at least four bytes into the page, otherwise that of the page below |
| Processes.WrongPageCleared | asm/exit.asm:17-30 | at offset 2 of page 3 the bit of page 2 is cleared |
| Processes.Os.Run | asm/exit.asm:11-52 | any nesting of calls leaves maps, processes, structs and the pages of waiting processes as before, each call returning behind its CALL with its code and SP |
| PathLookup.MatchEntry | asm/solve_path.asm:32-68 | the byte loop tells whether an entry's name equals the path component, and ends behind the name |
| PathLookup.FindEntry | asm/solve_path.asm:32-76 | the first entry with the component's name over a directory and its continuation sectors, or none |
| PathLookup.SolvePath | asm/solve_path.asm:19-88 | the matcher is lookup component by component, with its two errors exactly where they belong, and ends |
| Paths.ComponentsJoin | asm/solve_path.asm:32-40 | the components of a path hold no slash and, joined by slashes, are the path |
| Paths.DirectoryBytes | asm/solve_path.asm:41-76 | the bytes of a directory: entries with name, zero and pointer from byte 3 on, the continuation in bytes 1 and 2 |
| Paths.LookupFollows | asm/solve_path.asm:19-88 | a lookup goes through directories, each by the first entry of its component's name, and ends at the first component that is missing, is no directory though more follow, or is the last |
| StackCode.StepSimulated | src/runtime.c:197-336 | one instruction of a stack routine is one step of the machine, memory changing in its stack words only |
| StackCode.RunSimulated | src/runtime.c:564-708 | the same for runs |
| StackCode.ReturnSimulated | src/runtime.c:397-402 | the routine's RET returns behind the call's operand |
| Division.RoundsDivide | asm/math.asm:12-29 | sixteen rounds give quotient and remainder whenever the sign test is faithful |
| Division.DividedExactly | asm/math.asm:7-33 | the exact set of divisors and dividends for which the result is right |
| Division.ProductIsSum | asm/math.asm:36-48 | shift and add is the product modulo 2^16 |
| MathRoutines.DivReturns | asm/math.asm:7-33 | the assembled div, called on the machine, returns with the stack restored and that result |
| MathRoutines.MulReturns | asm/math.asm:36-48 | the assembled mul returns the product modulo 2^16 with the stack restored |
| Decimal.PrintInt | asm/print.asm:70-85 | the digits printed have the number's value |
| Decimal.ParseInt | asm/string.asm:58-78 | the value of any digit text modulo 2^16, 0xFFFF for any other |
| Decimal.PrintThenParse | asm/string.asm:58-78 | parsing undoes printing for every word |
| Rule110.Iterate | asm/rule110.asm:29-64 | the in-place pass is the synchronous update of the ring |
| Rule110.Run | asm/rule110.asm:24-66 | any number of passes is that many generations |
| Rule110.RuleIsItsNumber | asm/rule110.asm:46-64 | the three cells, read as a binary number, select the bit of 110 that the cell becomes, on a ring |
| StackDepth.Analyzer.Path | src/code_analyzer.c:86-276 | the walk ends, visits everything reachable that was not visited, each at the depth of some walk, and warns on the way exactly of negative depths and missing nodes met |
| StackDepth.Analyzer.Connect | src/code_analyzer.c:278-283 | visited nodes are exactly those reachable from the entry points, depths are those of walks, and all warnings are exactly those due |
| StackDepth.Analyze | src/code_analyzer.c:86-283 | if consistent depths exist the recorded ones are they, and return warnings are exactly the unbalanced returns |
| StackDepth.SearchFinds | src/code_analyzer.c:72-84 | the node of a label is that of the first label of the name |
| StackEffect.ChangeIsMachines | src/code_analyzer.c:200-263 | but for calls and returns SP moves by the change recorded, for A_SP exactly when A is SP |
| StackEffect.NextIsMachines | src/code_analyzer.c:120-269 | in a placed program the machine goes on at the next node of an instruction that is not left by a jump, SP moved by the change |
| StackEffect.CallsPush | src/code_analyzer.c:183-197 | exactly the edges marked as calls push where they come from, no jump moves SP |
| StackEffect.PeekReads | src/code_analyzer.c:214-225 | a peek is reported exactly when the word it reads is not among the bytes the routine has pushed |
| StackEffect.NumericJumpLands | src/code_analyzer.c:149-171 | a numeric relative jump leads to the node at the code position the machine jumps to |

## Left out

- Screen, window, real time, step mode and the simulator's own test commands: user interface.
- Reading the keyboard with an empty queue: the simulator then shifts an empty buffer; boundaries before KEY_A assume a key.
- Tokenizing.Next: locations, which only appear in messages, are not modelled; decimal numbers beyond the host's integers are refused.
- Parsing.ParseBytecode: names and strings are not cut to the 128 characters of the original's buffer.
- `so_reloc`, library images and `disassemble`: the first repeats the host loader's loop, the last has no clean inverse.
- JitCompiler.Compiler.Compile: when an operand jumps the code pointer over the one address that is checked for a full buffer (`JitLimits.OverrunExactly`) the original goes on and overwrites its own code pointer; the model stops there with the status Overrun.
- JitCorrect.CompiledCodeReturns: input and output routines are an oracle that keeps the stack, the code and the tape, and the tape accesses of the program stay on the tape.
- Assembler.Assembler.Assemble: programs whose code passes the 16-bit size are not modelled, the original's counter would wrap.
- Linker.Linker.Link: when debug symbols fill a table is not characterised, without them the outcome is exact; programs whose image reaches 0xFFFF are not modelled, an address there would read as unset.
- Linker.Linker.AddDebugSymbols: the prefixed names are not cut to the label length.
- FormatFiles.Input.DecodeExe: counts beyond the fixed tables, where the original writes past its arrays, are read as longer lists.
- FormatFiles.Input.DecodeObj: the same.
- FormatFiles.Input.DecodeSo: the same.
- PageLoader.LoadPage: code of odd or zero size, odd sites and an empty library entry, which the machine's loader does not handle, are excluded; the file structure and the stack are apart from the page.
- DebugInfo.DebugCanOnlyFill: when the linker's debug symbols fill a table is not characterised.
- MathRoutines.DivReturns: the bytes of `div` and `mul` are listed as assembled, not derived from their bytecodes.
- DebugInfo.BuildBothWays: sources that declare a name both global and extern, or reach the unset mark, are not compared.
- Processes.Os.Execute: what the loader itself writes on the stack is assumed to stay in the page of the caller; the stacks are kept apart from the maps and structs, which lie in the operating system's own page; the file is taken to be found and loaded, and a free process struct to exist, as the original does not check; pages beyond the first sixteen, whose map is not implemented there, are not used.
- FileReader, PageLoader, Processes, PathLookup, Decimal, Rule110: these routines are modelled as methods over the cells they change, not instruction by instruction; div and mul are, and so is everything the compiler emits.
- Directory encoding, file writing, allocation, the expression and game programs, and the host's own path lookup.
