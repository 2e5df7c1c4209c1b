# mikode: assembler, expression compiler and emulator

mikode assembles an AVR-like language into an image and emulates it. The assembler and the emulator
describe the same encoding independently of each other; this project proves that they agree, up to
the statement that a loaded image runs exactly as its source reads.

## The modules

- `Words`, `Isa`: bytes, words and flags; the instruction set as the emulator runs it, with the
  ordered chain of masks, the fields, the effect of each handler, and runs under arbitrary input.
- `Machine`: the emulator itself, with one method per handler updating registers and memory in place,
  each proved against `Isa`. The table below lists the dispatcher, which calls them all, and those with a
  control flow of their own.
- `Arithmetic`, `Bytes`, `Chains`, `Vectors`, `InRuns`: what results and flags mean; additions, subtractions,
  comparisons and shifts over numbers in registers and over byte vectors of any length; both inside runs.
- `Manual`, `Steps`: what every mnemonic does, from its operands as written to registers, flags, memory and the
  next line, in numbers and bits.
- `Departures`: where results and flags are not what one expects, exactly when.
- `Frames`, `Stack`: what an instruction can write; the stack as a stack; calls and returns that match.
- `TinyExpr`, `Folder`, `Grammar`, `Prefixes`, `Descent`, `Printer`, `Fewest`, `Symbols`, `Parser`, `Precedence`,
  `Operators`: expressions, the folder on values and in place, the grammar, the recursive descent as functions and as
  it runs, printing, how operators bind, and what they compute.
- `Source`, `Encoder`, `Operand`, `Agreement`, `Correct`: lines and what their mnemonics mean, how they
  are encoded (as functions and in place), and that the emulator decodes them to just that.
- `Assembler`, `Image`, `Layout`, `Listing`: the two passes, the file, and the memory that is loaded from it; both
  byte by byte; the words that the listing of the first example program gives.
- `Simulation`, `Control`, `EndToEnd`, `AddressSplit`, `CopyLoop`, `Example`: runs of the source against runs
  of the image; labels and returns at the level of the source; all parts in one go; two idioms of the example
  programs followed from text to registers; and a program of two lines for which every premise holds.

A source-level state is a line number with the registers, flags, stack pointer and memory. A source-level
run is stuck, and the theorems then say nothing more, when control leaves the instruction lines, or when a
store, a push, a call or an input hits an instruction.

Expressions are undefined where C leaves them so: division by zero, shift counts outside 0..31, signed
overflow. The value is then `Crash`, and such a source is not accepted.

## Where the code does not do what one might expect

The model follows the code. Each point names the theorem that says exactly when the code does what one
expects, and the input for which it does not.

- Subtract, SubtractImm and SubtractImmWord count a C left from before: `Arithmetic.SubtractCarry`,
  `Vectors.VectorDifference`, `Arithmetic.SubtractImmWordCarry`; `Departures.SubtractCarryWrong`,
  `Departures.SubtractImmWordCarryWrong`.
- No subtraction sets Z: `Arithmetic.SubtractZero`, `Arithmetic.SubtractImmWordZero`; `Departures.SubtractZeroWrong`,
  `Departures.SubtractImmWordZeroWrong`.
- Compare, CompareImm and CompareCarry compute V by the rule for additions: `Arithmetic.CompareSign`;
  `Departures.CompareSignWrong`.
- The shifts set V after S and only OR into it: `Departures.ShiftsExact`; `Departures.ShiftSignWrong`.
- A pre-decrement borrows at the wrong value: `Departures.DecPairSubtracts`; `Departures.DecPairWrong`.
- Swap moves the low nibble up and ORs it with the high one: `Departures.SwapExchanges`; `Departures.SwapWrong`.
- The range check of word immediates sees the low byte only: `Correct.WordImmediate`;
  `Correct.WordImmediateTruncated`.
- Byte immediates are not checked: `Correct.ByteImmediate`; `Correct.ByteImmediateTruncated`.
- A comma ends an operand expression even within parentheses, so that the comma operator is never reached there:
  `AddressSplit.HalfMeaning` says what becomes of a call.
- A symbol named low or high makes every call of that function an error: `AddressSplit.HalfMeaning` without such
  a symbol, `AddressSplit.HiddenHalf` with one.
- `.org 0` counts as no `.org`: `Image.OrgHonoured`; `Image.OrgZeroIgnored`.
- load clears the screen after reading the file: `Image.ReadBackExactly`; `Image.ScreenLosesData`.
- An odd number of minuses drops the tildes of a prefix, and tildes count once: `Prefixes.PrefixKept`;
  `Prefixes.TildeDropped`.
- The lower bound of the stack pointer has no effect, although the documentation gives the stack the range 0xf000
  to 0xffff: `Departures.PushStaysInRange`; `Departures.PushLeavesRange`. All 65535 bytes can be used
  (`Stack.RefinesFromStart`), and the next push makes the stack look empty (`Stack.OverflowLooksEmpty`).

The documentation has random bytes at 0xe004 to 0xe007; the code stores two, at 0xe004 and 0xe005. The
documentation's example uses a mnemonic AddWithCarry; the table has AddWithC. The tests for lsl, sbr and ser never
succeed (`Machine.RunState.Choose`), and those for clrf and setf are commented out; ClearReg and the
other names for these instructions are encoded as others (`Correct.EncodeAgrees`).

## Model

| member | source | states |
|---|---|---|
| `EndToEnd.BuildAndRun` | src/parse.c:193-327 | compiling, writing, loading and executing in one go, on the methods that do it: accepts exactly the sources that assemble, and the run matches the run of the source line by line |
| `Simulation.ImageRunsAsSource` | src/execute.c:892-1175 | for every program that assembles with its code outside the screen and not overlapped by other segments further down, and an instruction at 0, every event list and every previous memory: the byte-level run equals the source-level run, with ip the address of the current line and registers, flags, sp and memory equal, until the source is stuck |
| `Simulation.InstructionBoundaries` | src/execute.c:892-1175 | while the source is not stuck, after every turn ip is the address of an instruction line, no opcode is unrecognized and no fetch leaves the memory |
| `Simulation.RunMatches` | src/execute.c:892-1175 | the simulation from any line and any state with the code in memory, for runs of any length, with the code intact at the end |
| `Simulation.CycleMatches` | src/execute.c:1163-1175 | one turn with the stores of the outside world keeps the simulation unless they hit code |
| `Simulation.StepMatches` | src/execute.c:900-1162 | one fetch, decode and execute is one line of the source: fall-through over labels, branches, skips, calls, returns and jumps included |
| `Simulation.CodeStays` | src/execute.c:900-1162 | code survives everything a step may write, as long as the written cells are not instructions |
| `Simulation.FetchLine` | src/run_misc.c:67-77 | for every assembled line the four views of its length agree (pass 1, bytes written, ip advance, check_32), and what is decoded at its address is what its mnemonic means |
| `Simulation.SkipMatches` | src/execute.c:304-314 | a skip goes over exactly the next source line, be it two or four bytes long |
| `Simulation.NextAddress` | src/parse.c:211-226 | falling through reaches an instruction at address plus size modulo 65536: the next one of the segment, or whichever starts there |
| `Simulation.OnlyLineAt` | src/parse.c:211-226 | no two instructions share an address, so a jump to an address enters one line only |
| `Simulation.ReturnAddressLine` | src/execute.c:216-226 | entering at a pushed return address is falling through behind the call |
| `Simulation.SrcStep` | src/execute.c:900-1162 | the line reached by a step of the source is always an instruction line |
| `Steps.StuckExactly` | src/execute.c:900-1162 | a line of the source gets stuck if and only if its instruction would write where an instruction stands, or the machine would not go on at the start of one, or there is none to skip |
| `Steps.EqualSkipLine` | src/execute.c:304-314 | CompareSkipEqu sets the flags of the difference and passes over the next line iff its registers are equal |
| `Steps.BitSkipLine` | src/execute.c:746-774 | SkipBitRegClr and SkipBitRegSet pass over the next line iff the binary digit of the register is 0, and 1 |
| `Steps.SkippedExactly` | src/execute.c:304-314 | the same three on the machine: ip+2, or two or four bytes further |
| `Steps.BranchLine` | src/execute.c:143-184 | each of the 16 branches by name goes to its label iff its flag, by number, is set, or clear, as its name says |
| `Steps.BitBranchLine` | src/execute.c:143-184 | the same for a flag by number |
| `Steps.BranchAfterCompare` | src/execute.c:259-272 | after a comparison a branch goes to its label iff the two bytes are equal, unequal, below or not, or their difference is negative or not, as its name says |
| `Steps.BranchAfterSubtract` | src/execute.c:855-867 | after a subtraction BranchLessThan and BranchGrEqu compare as signed numbers |
| `Steps.JumpLine` | src/execute.c:216-226 | Call and Jump enter the line at the written address; Call leaves the address behind its four bytes, low byte first |
| `Steps.IndirectLine` | src/execute.c:345-365 | the same for IndCall and IndJump through r15:r14 |
| `Steps.EndLine` | src/execute.c:650-657 | Return enters the line at the address on the stack and takes it off; Break ends the run |
| `Steps.LineDone` | src/execute.c:900-1162 | a line that computes goes on to the next one with what its instruction leaves |
| `Steps.FallsTo` | src/parse.c:211-226 | control falls through to an instruction if and only if only empty lines, and no .org, lie between |
| `Steps.HitsExactly` | src/write.c:107-127 | a store hits the code if and only if its cell lies within the bytes of an instruction |
| `Correct.EncodeAgrees` | src/operand.c:147-720 | for all mnemonics, all operands, tables and addresses: accepted if and only if the line is legal and its branch reaches, and then the two words decode to the meaning of the mnemonic with the same registers, bits and immediates, with the right size, and never as the mark of an empty line |
| `Correct.WordImmediate` | src/parse.c:313-324 | a word immediate is accepted iff the low byte of its value is at most 63, and the emulator adds the written value iff that is at most 63 |
| `Correct.WordImmediateTruncated` | src/parse.c:313-324 | 256 is accepted and means 0 |
| `Correct.ByteImmediate` | src/parse.c:296-303 | every byte immediate is accepted, and the emulator uses the written value iff that is at most 255 |
| `Correct.ByteImmediateTruncated` | src/parse.c:296-303 | LoadImm of 300 loads 44 |
| `Correct.RegisterBitUsed` | src/operand.c:430-464 | a bit operand is accepted iff its expression is known and at most 7, and the decoded instruction works on the bit with just that number |
| `Correct.StatusBitUsed` | src/operand.c:413-429 | the same for flags by number |
| `Correct.BranchBitUsed` | src/operand.c:369-412 | the same for branches on a flag by number, which must also reach |
| `Listing.LoadsListed` | examples/example1.asm.list:11-48 | every LoadImm of the listing of the repository's first example gives the word printed there |
| `Listing.RegistersListed` | examples/example1.asm.list:28-34 | its words for Push, Pop and Decrement |
| `Listing.PairsListed` | examples/example1.asm.list:32-40 | its words for Add, AddWithC and Move |
| `Listing.JumpsGive` | examples/example1.asm.list:18-36 | its words for Call and Jump, for every address and wherever they stand |
| `Listing.EqualBranchListed` | examples/example1.asm.list:35 | its word for the forward branch |
| `Listing.BackBranchListed` | examples/example1.asm.list:51 | its word for the backward branch |
| `Listing.OthersListed` | examples/example1.asm.list:38-42 | its words for Break, Return and StoreIndX |
| `Agreement.BranchCodes` | src/parse.c:276-291 | any base opcode, flag bit and addresses: with a displacement in -64..63 the patched word decodes to a branch on that bit to exactly the 16-bit target |
| `Agreement.BranchReaches` | src/parse.c:276-291 | the 7-bit displacement leads back from the branch to its target modulo 65536 |
| `Agreement.ByteAgrees` | src/execute.c:239-246 | the immediate group, with ClearBitsReg as and-with-complement and SetBitsReg as or |
| `Agreement.DoubledAgrees` | src/operand.c:188-198 | ClearReg, LogicalShiftLt, RotateLeft and TestZero select the handlers of eor, add, adc and and with one register twice |
| `Agreement.SingleAgrees` | src/operand.c:147-157 | the one-register group, with SetAllReg selecting ldi of 0xff |
| `Agreement.PairMoveAgrees` | src/operand.c:284-356 | MoveWord decodes to both pairs and never to the case that stops the machine |
| `Operand.LineRecord.GetOperand` | src/operand.c:147-717 | once the operands are read: the fields filled in place are those of the encoding function, for every type and operand; an error exactly where that has none |
| `Operand.LineRecord.constructor` | src/opcode.c:15-206 | type and base opcode of the mnemonic's row, nothing patched yet |
| `Example.MachineHalts` | src/execute.c:892-1175 | the premises can be met: NOP and Break, assembled, written and loaded over any memory, halt with ip 4 whatever the inputs |
| `Example.SourceEnds` | src/execute.c:186-191 | its source-level run falls from the first line to the second and ends there |
| `Example.Accepted` | src/parse.c:193-327 | both lines are accepted with the meanings of their mnemonics |
| `Assembler.Compiler.Compile` | src/parse.c:193-327 | both passes accept exactly when every address fits and every line encodes, and leave every line with its final words, address and data index |
| `Assembler.Compiler.Pass1` | src/parse.c:197-229 | accepts exactly when every line parses with an address that fits; sizes and addresses are those of the recursive definition, .org 0 counting as none |
| `Assembler.Compiler.ParseLine` | src/parse.c:78-110 | once its parts are read, one line changes its own record, the table and the data blocks as specified and nothing else |
| `Assembler.Compiler.CollectLabels` | src/parse.c:239-254 | the table becomes all .equ entries and then all labels with their addresses, in the order of the lines |
| `Assembler.Compiler.Pass2` | src/parse.c:231-327 | every line patched with the complete table, or a failure |
| `Assembler.Compiler.PatchLine` | src/parse.c:255-327 | the value of the expression goes into the fields of the patch kind, with its range check |
| `Assembler.FinalIsCodeAt` | src/parse.c:193-327 | the record after both passes holds the words of the encoding function at the line's address, or its data block |
| `Assembler.PlacedMeansFits` | src/parse.c:211-226 | a source that parses has addresses that fit, and an accepted one parses |
| `Steps.AcceptedExactly` | src/parse.c:193-327 | a source is accepted if and only if no address is above 65535, every instruction is legal, and every branch has its label at most 64 bytes before it or 63 behind it modulo 65536 |
| `Steps.LastAddress` | src/parse.c:211-226 | a byte may stand at 65535, and no line behind it |
| `Image.PrefixSum` | src/parse.c:211-226 | within a segment, addresses are prefix sums of sizes |
| `Image.LinesDisjoint` | src/parse.c:211-226 | lines of a segment never overlap, so that disjoint segments make all byte ranges disjoint |
| `Image.LineDisjoint` | src/parse.c:211-226 | the same for one line and those further down |
| `Image.LineLength` | src/write.c:86-129 | a line puts as many bytes into the file as the first pass counted |
| `Image.LineSurvives` | src/write.c:86-129 | the bytes of a line that no later line overlaps are in the file at address + 8 whatever is written later |
| `Image.HeaderSurvives` | src/write.c:76-82 | the header stays in place |
| `Image.NothingDropped` | src/write.c:94-127 | what the record loop writes for a line is its data, opcode and second word; no instruction is taken for an empty line |
| `Image.WriteAsm` | src/write.c:84-129 | the seeking and writing loops give the file of the specification, for every accepted program |
| `Image.WriteLine` | src/write.c:88-127 | one line at its position: data bytes, opcode, second word |
| `Image.WriteBlock` | src/write.c:94-106 | the data bytes one after the other |
| `Image.Load` | src/load.c:20-57 | memory after load, over any previous content: header check, size limit, copy, cleared screen |
| `Image.CopyBody` | src/load.c:33-40 | copies the file body and gives up after 65536 bytes |
| `Image.ClearScreen` | src/load.c:50-52 | zeroes 0xc000 to 0xd7ff and nothing else |
| `Image.ReadBack` | src/load.c:33-52 | every line outside the screen that no later line overlaps reads back its opcode, second word or data at its address |
| `Layout.InstructionInFile` | src/write.c:107-127 | opcode and second word stand at address + 8 in the file, low byte first |
| `Layout.HeaderBytes` | src/write.c:76-82 | the file starts with basm and four zeros |
| `Layout.LoadedByCell` | src/load.c:20-57 | every cell of memory after load: the file from its ninth byte on, zeros from 0xc000 to 0xd7ff, and what was there before |
| `Layout.DataInMemory` | src/write.c:94-106 | data off the screen stands in memory byte by byte in its order |
| `Layout.BootState` | src/execute.c:893-900 | the machine starts at 0 with an empty stack, registers 0 and flags clear |
| `Layout.EventByCell` | src/display.c:72-117 | the inputs cell by cell: the key, the two random bytes, the low one first, the port |
| `Layout.TurnByCell` | src/execute.c:1163-1175 | a turn is its instruction and then the inputs, or the wish to stop, which changes nothing else |
| `AddressSplit.PairLoaded` | src/tinyexpr_bitw.c:196-210 | LoadImm lo,low(e) and LoadImm hi,high(e), assembled and executed with the outside world storing after each, leave the value of e in the pair and change nothing else but those cells, wherever the labels of e stand |
| `AddressSplit.PairHolds` | src/tinyexpr_bitw.c:196-210 | the pair then reads as that value modulo 65536 |
| `AddressSplit.HalfMeaning` | src/expression.c:36-98 | low(e) and high(e) of any accepted expression are the two bytes of its value if and only if there is no comma in it; with one the call is not accepted |
| `AddressSplit.HiddenHalf` | src/tinyexpr_bitw.c:414-423 | a symbol named low or high hides the function, and then no such call is accepted |
| `CopyLoop.LoopCopies` | examples/shootit.asm:78-82 | the loop ends after count rounds (256 for 0), has copied every byte, advanced both pointers modulo 65536 and changed no other memory, with the outside world storing between all instructions |
| `CopyLoop.LoopAssembled` | examples/shootit.asm:78-82 | the four source lines, assembled anywhere, are that loop |
| `CopyLoop.Round` | src/execute.c:316-330 | one round: one byte copied, both pointers and the count moved, the code intact |
| `Arithmetic.IncPairCounts` | src/run_misc.c:98-104 | inc_reg is addition of 1 on the 16-bit pair |
| `Stack.RefinesFromStart` | src/execute.c:899 | from sp = 0xffff any pushes and pops within 65535 bytes are last in, first out, with sp = 0xffff - depth, and popping the empty stack leaves it empty |
| `Stack.Refines` | src/run_misc.c:79-96 | the refinement from any stack held in memory |
| `Stack.InstructionRefines` | src/execute.c:631-648 | Push puts its register on top of the stack; Pop moves the top into its register and changes no other; popping the empty stack finds the byte at 0xffff |
| `Stack.InstructionsRefine` | src/execute.c:631-648 | any sequence of Push and Pop that never finds the stack full is last in, first out, from registers to registers |
| `Stack.PerformedInOrder` | src/execute.c:900-1175 | the same on the running machine, with inputs stored below the stack after every instruction |
| `Stack.MatchedPop` | src/execute.c:631-640 | a Pop at the depth of a Push gives its byte back, after any run in between that writes nothing else where it was put |
| `Stack.OverflowLooksEmpty` | src/run_misc.c:88-96 | one push more wraps to the pointer of the empty stack; the clamp at 0xf000 does nothing |
| `Stack.MatchedReturn` | src/execute.c:650-657 | after a call, any run that stays below its frame and does not store into it, until a return at that depth, resumes after the call with sp restored; nesting, pushes and pops are arbitrary |
| `Stack.SparedReturn` | src/execute.c:650-657 | the same for every run that leaves the two bytes of the return address alone, wherever the stack pointer goes in between |
| `Stack.RunSpares` | src/execute.c:900-1175 | a run in which no store, push, call or input writes into given cells leaves them as they were |
| `Stack.StepWrites` | src/execute.c:900-1162 | one instruction changes memory at most where its store, its push or its call writes |
| `Stack.RunKeepsFrame` | src/execute.c:216-226 | a run that stays below the frame and does not store into it leaves the return address alone |
| `Stack.CallMakesFrame` | src/execute.c:216-226 | a call leaves its return address in the two cells below which the stack goes on |
| `Stack.ReturnStep` | src/execute.c:650-657 | a return at that depth resumes at the saved address |
| `Arithmetic.AddIsExact` | src/execute.c:8-41 | byte, C, Z, N, V and S of Add and AddWithC are those of the unbounded sums; S iff the signed sum is negative |
| `Arithmetic.SubtractIsExact` | src/execute.c:678-692 | the same for Subtract and SubtractWithC; Z is never set |
| `Arithmetic.BranchLessThanAfterSubtract` | src/execute.c:143-164 | BranchLessThan after Subtract branches iff Rd < Rr as signed numbers |
| `Arithmetic.SubtractCarry` | src/run_misc.c:60-63 | C after any subtraction is the borrow if and only if the operands differ or the C of before is what was subtracted |
| `Arithmetic.SubtractsInto` | src/execute.c:855-881 | Subtract and SubtractImm are that subtraction without a borrow |
| `Arithmetic.SubtractsWithCInto` | src/execute.c:678-707 | SubtractWithC and SubtractImmC are it with the carry as borrow |
| `Arithmetic.SubtractZero` | src/run_misc.c:49-50 | Z after any subtraction tells of zero if and only if the byte is not zero, or Z was set before and nothing is borrowed |
| `Arithmetic.CompareIsExact` | src/execute.c:259-302 | C, Z and N of the comparisons |
| `Arithmetic.CompareSign` | src/run_misc.c:35-38 | exactly when S after Compare, CompareImm and CompareCarry is the sign of the difference, given the addition rule for V |
| `Arithmetic.ComparisonsCompare` | src/execute.c:259-302 | the three comparisons are that one on their operands |
| `Arithmetic.AddImmWordIsExact` | src/execute.c:44-67 | AddImmWord is 16-bit addition on the pair, with C, Z, N, V and S exact for every K in 0..63 |
| `Arithmetic.SubtractImmWordSubtracts` | src/execute.c:709-730 | SubtractImmWord is 16-bit subtraction on the pair |
| `Arithmetic.SubtractUndoesAdd` | src/execute.c:709-730 | SubtractImmWord by the same K restores the pair |
| `Arithmetic.SubtractImmWordCarry` | src/run_misc.c:60-63 | exactly when C after SubtractImmWord is the borrow |
| `Arithmetic.SubtractImmWordZero` | src/execute.c:709-730 | Z after SubtractImmWord tells of a zero pair if and only if the pair is not zero or Z was set before |
| `Arithmetic.SubtractImmWordSigns` | src/execute.c:709-730 | N, V and S after SubtractImmWord are those of the 16-bit difference, for every K in 0..63 |
| `Vectors.VectorChain` | src/execute.c:8-41 | byte vectors of any length, for all three kinds of chain: whatever is loaded and stored between its instructions, as long as the carry is handed on, the numbers found, the number left and the carries in and out are those of the sum, difference or comparison |
| `Vectors.VectorSum` | src/execute.c:8-41 | Add and then AddWithC over byte vectors of any length: the sum modulo 256^n, C the carry out |
| `Vectors.SumWithCarry` | src/execute.c:8-24 | an AddWithC chain with any incoming carry |
| `Vectors.DifferenceWithBorrow` | src/execute.c:678-692 | a SubtractWithC chain of any length with any incoming borrow: the difference modulo 256^n, C the borrow |
| `Vectors.VectorDifference` | src/run_misc.c:60-63 | a chain of any length that starts with Subtract is right if and only if Subtract does not count a stale carry |
| `Vectors.VectorLess` | src/execute.c:259-288 | Compare and then CompareCarry over vectors of any length: C iff A < B unsigned |
| `Vectors.ComparisonWithBorrow` | src/execute.c:274-288 | a CompareCarry chain with any incoming borrow |
| `Vectors.VectorHalf` | src/execute.c:484-502 | LogicalShiftRt and then RotateRight halve a vector of any length, C the bit shifted out |
| `Vectors.VectorRotation` | src/execute.c:659-676 | a RotateRight chain of any length with any incoming carry |
| `Vectors.RegistersAreVectors` | src/execute.c:8-41 | a chain over numbers that the registers hold all at once is an instance |
| `Chains.Addition` | src/execute.c:8-41 | the sum of numbers held in registers, with only the destination registers changed |
| `Chains.SubtractionWithBorrow` | src/execute.c:678-692 | the same for differences with a borrow |
| `Chains.Subtraction` | src/run_misc.c:60-63 | the same with the condition for a stale carry |
| `Chains.Comparison` | src/execute.c:259-288 | the same for comparisons, which change no register |
| `Chains.Halving` | src/execute.c:484-502 | the same for halving |
| `InRuns.ChainInRun` | src/execute.c:900-1175 | a carry chain whose instructions are executed anywhere in a run, with any instructions and inputs in between that hand on the carry, computes the sum, difference or comparison of the bytes it finds |
| `InRuns.SumInRun` | src/execute.c:8-24 | for AddWithC, the bytes it leaves are the sum modulo 256^n |
| `InRuns.SignedComparisonRuns` | src/execute.c:143-164 | Subtract and BranchLessThan, assembled and executed with inputs stored after each, go to the label iff Rd < Rr as signed numbers |
| `Chains.RotateLeftUndoes` | src/execute.c:8-24 | RotateLeft undoes RotateRight on the register and C |
| `Frames.EffectWrites` | src/execute.c:794-853 | a computing instruction changes memory at most in the cells listed for it |
| `Frames.OthersKeepMemory` | src/execute.c:8-891 | all others leave memory alone |
| `Frames.EventWritesFew` | src/display.c:10-174 | the outside world changes only its I/O cells |
| `Machine.RunState.Execute` | src/execute.c:893-1175 | the loop, for any number of turns, ends in the state and for the reason of the specification run from sp = 0xffff |
| `Machine.RunState.Turn` | src/execute.c:902-1175 | fetch, second word, dispatch and I/O are one cycle of the specification |
| `Machine.RunState.Choose` | src/execute.c:910-1161 | the ordered chain with all its tests: it selects what the specification selects, and the tests of lsl, sbr and ser are dead where they stand |
| `Machine.RunState.Dispatch` | src/execute.c:910-1156 | the selected handler is called with its words and leaves what its decoded instruction demands |
| `Machine.RunState.CheckZsnf` | src/run_misc.c:4-21 | Z and N of the byte, S from N and the V of before; all other bits kept |
| `Machine.RunState.CheckCv` | src/run_misc.c:23-40 | C from bit 8, V by the addition rule; all other bits kept |
| `Machine.RunState.CheckSubf` | src/run_misc.c:42-65 | V, Z only cleared, N, S, and C counting the incoming C |
| `Machine.RunState.PushVal` | src/run_misc.c:88-96 | the byte at sp, and sp one lower modulo 65536 |
| `Machine.RunState.PopVal` | src/run_misc.c:79-86 | sp one higher but not past 0xffff, and the byte there |
| `Machine.RunState.IncReg` | src/run_misc.c:98-104 | carry into the next register when the low one wraps |
| `Machine.RunState.DecReg` | src/run_misc.c:106-112 | the borrow taken when the low byte becomes 0 |
| `Machine.RunState.Check32` | src/run_misc.c:67-77 | is a four-byte instruction next; no answer past the memory |
| `Machine.RunState.Adiw` | src/execute.c:44-67 | the constant is added to the low byte and its carry to the high one; Z only if both bytes are 0 |
| `Machine.RunState.Asr` | src/execute.c:96-116 | halved with the sign kept, C the bit shifted out, and N xor C ORed into V after S was computed |
| `Machine.RunState.Branchs` | src/execute.c:143-164 | taken if the bit is set, to ip plus the displacement in two's complement; otherwise ip+2 |
| `Machine.RunState.Branchc` | src/execute.c:166-184 | the same for a clear bit |
| `Machine.RunState.Call` | src/execute.c:216-226 | the address after the four bytes goes onto the stack low byte first, and ip becomes the second word |
| `Machine.RunState.Cpse` | src/execute.c:304-314 | compares and skips on equality, over four bytes if check_32 says so; a look past the memory gives no result |
| `Machine.RunState.Icall` | src/execute.c:345-357 | call to the address in r15:r14 |
| `Machine.RunState.Lddx` | src/execute.c:391-416 | load through r13:r12 in all four modes; the fourth encoding does nothing |
| `Machine.RunState.Lddy` | src/execute.c:418-443 | the same through r15:r14 |
| `Machine.RunState.Movw` | src/execute.c:515-530 | both bytes copied low first; stops the machine when a number is above 14 |
| `Machine.RunState.Neg` | src/execute.c:580-597 | two's complement, 0x80 left as it is; C iff the result is not 0 |
| `Machine.RunState.Ret` | src/execute.c:650-657 | ip gets the two bytes above sp, high byte first popped |
| `Machine.RunState.Sbiw` | src/execute.c:709-730 | the constant is taken from the low byte and its borrow from the high one |
| `Machine.RunState.Sbrc` | src/execute.c:746-759 | skips if the bit is clear, over four bytes if check_32 says so |
| `Machine.RunState.Sbrs` | src/execute.c:761-774 | skips if the bit is set |
| `Machine.RunState.Stdx` | src/execute.c:794-818 | store through r13:r12 in all four modes |
| `Machine.RunState.Stdy` | src/execute.c:820-844 | the same through r15:r14 |
| `Departures.DecPairSubtracts` | src/run_misc.c:106-112 | dec_reg subtracts 1 from the pair if and only if the low byte is at least 2 |
| `Departures.DecPairWrong` | src/run_misc.c:106-112 | pairs with low bytes 0 and 1 for which it does not |
| `Departures.LoadPreDecrements` | src/execute.c:391-443 | a load with pre-decrement reads the right cell, and leaves the right pointer if and only if the low byte was at least 2 |
| `Departures.StorePreDecrements` | src/execute.c:794-844 | the same for a store |
| `Departures.ShiftSign` | src/execute.c:498-499 | S is N xor V after a shift if and only if V was set before or the shift does not set it |
| `Departures.ShiftOverflow` | src/execute.c:498-499 | V is N xor C after a shift if and only if no V of before stays |
| `Departures.ShiftsExact` | src/execute.c:96-116 | both conditions on the operands of ArithShiftRt, LogicalShiftRt and RotateRight |
| `Departures.ShiftSignWrong` | src/execute.c:484-502 | a LogicalShiftRt for which S is not N xor V |
| `Departures.SwapExchanges` | src/execute.c:883-891 | Swap exchanges the nibbles if and only if the high one is 0 |
| `Departures.SwapWrong` | src/execute.c:883-891 | 0x12 becomes 0x30 |
| `Departures.SubtractCarryWrong` | src/run_misc.c:60-63 | a subtraction that keeps a stale C |
| `Departures.SubtractZeroWrong` | src/run_misc.c:49-50 | a result of 0 that does not set Z |
| `Departures.SubtractImmWordCarryWrong` | src/run_misc.c:60-63 | a word subtraction that keeps a stale C |
| `Departures.SubtractImmWordZeroWrong` | src/run_misc.c:49-50 | a pair that becomes 0 without setting Z |
| `Departures.CompareSignWrong` | src/run_misc.c:35-38 | -127 compared with -128 sets S |
| `Departures.PushStaysInRange` | src/run_misc.c:88-96 | a push stays in the documented range if and only if sp is above its lower bound, or 0 |
| `Departures.PushLeavesRange` | src/run_misc.c:88-96 | a push at 0xf000 moves sp to 0xefff |
| `Image.ReadBackExactly` | src/load.c:50-52 | a line reads back if and only if it has only zeros in the screen, or the file is too large to be cleared |
| `Image.ScreenLosesData` | src/load.c:50-52 | a byte of data at 0xc000 that is lost |
| `Image.OrgHonoured` | src/parse.c:211-226 | a .org sets its address if and only if that is not 0, or is the address anyway |
| `Image.OrgZeroIgnored` | src/parse.c:214 | a .org 0 that has no effect |
| `Prefixes.PrefixKept` | src/tinyexpr_bitw.c:671-707 | for any string of prefix operators: parsed, it means for all operands what the operators mean one by one, if and only if the tildes cancel out or amount to one |
| `Prefixes.MinusesKept` | src/tinyexpr_bitw.c:671-707 | a prefix without a tilde is always kept |
| `Prefixes.OneTildeLost` | src/tinyexpr_bitw.c:671-707 | one with a single tilde and an odd number of minuses never is |
| `Prefixes.OneTildeKept` | src/tinyexpr_bitw.c:671-707 | one with a single tilde and an even number of minuses is, if and only if an even number of them stands before the tilde |
| `Prefixes.TildeDropped` | src/tinyexpr_bitw.c:671-707 | -~5 is -5 and not 6 |
| `Bytes.MultiplyIsExact` | src/execute.c:532-554 | the whole unsigned product in r1:r0, C its top bit, Z exact, no other register changed |
| `Bytes.MultiplySIsExact` | src/execute.c:556-578 | the product of the signed numbers in r1:r0, C its sign, Z exact |
| `Bytes.NegateIsExact` | src/execute.c:580-597 | negation is exact if and only if the byte is not 0x80; V tells of that one, C of all but 0, S is the exact sign always |
| `Bytes.IncrementIsExact` | src/execute.c:367-382 | 1 more modulo 256, V and S of the signed sum, C kept |
| `Bytes.DecrementIsExact` | src/execute.c:316-330 | 1 less modulo 256, V and S of the signed difference, C kept |
| `Bytes.ComplimentIsExact` | src/execute.c:247-257 | -1 - x as a signed number, with C set, V clear and S exact |
| `Bytes.ArithShiftHalves` | src/execute.c:96-116 | twice the signed result and C make the operand |
| `Bytes.AndIsExact` | src/execute.c:69-93 | And and AndImm on their operands: every bit, V clear, C kept, Z, N and S exact, nothing else changed |
| `Bytes.OrIsExact` | src/execute.c:606-629 | the same for Or and OrImm |
| `Bytes.XorIsExact` | src/execute.c:332-343 | the same for ExclusiveOr |
| `Bytes.SwapIsOr` | src/execute.c:883-891 | Swap clears the low nibble and leaves in each bit of the high one the or of itself and the bit four below |
| `Bytes.BitTravels` | src/execute.c:128-141 | BitStoreT and then BitLoad copy one bit to another register and keep all its other bits |
| `Bytes.BitIsDigit` | src/execute.c:746-774 | bit b of a byte is its binary digit for 2 to the b |
| `Manual.AddLine` | src/execute.c:8-41 | Add, AddWithC, LogicalShiftLt and RotateLeft as written: the sum of their operands with all flags |
| `Manual.SubtractLine` | src/execute.c:678-707 | Subtract, SubtractWithC, SubtractImm and SubtractImmC as written: the difference, and flags as the source sets them |
| `Manual.CompareLine` | src/execute.c:259-302 | Compare, CompareCarry and CompareImm as written: C, Z and N of the difference, and nothing else but flags changed |
| `Manual.AndLine` | src/execute.c:69-93 | And, AndImm and ClearBitsReg as written, bit by bit |
| `Manual.OrLine` | src/execute.c:606-629 | Or, OrImm and SetBitsReg as written, bit by bit |
| `Manual.XorLine` | src/execute.c:332-343 | ExclusiveOr bit by bit; ClearReg leaves 0; TestZero changes flags only |
| `Manual.ShiftLine` | src/execute.c:484-502 | LogicalShiftRt, ArithShiftRt and RotateRight as written: the byte, and all flags by what they were |
| `Manual.ByteOpLine` | src/execute.c:316-330 | Increment, Decrement, Compliment, Negate and SetAllReg as written, with all flags |
| `Manual.SwapLine` | src/execute.c:883-891 | Swap as written, nibble by nibble |
| `Manual.MultiplyLine` | src/execute.c:532-578 | Multiply and MultiplyS as written: the whole product in r1:r0, C and Z |
| `Manual.WordOpLine` | src/execute.c:44-67 | AddImmWord and SubtractImmWord as written: 16 bits on the pair, nothing else changed |
| `Manual.WordPairs` | src/operand.c:252-256 | the pairs that they accept are r9:r8, r11:r10, r13:r12 and r15:r14; MoveWord takes all even ones |
| `Manual.MoveLine` | src/execute.c:504-513 | Move copies its second register into its first; LoadImm loads its constant |
| `Manual.DirectLine` | src/execute.c:455-462 | LoadDirect and StoreDirect copy between a register and the cell at the written address |
| `Manual.PairMoveLine` | src/execute.c:515-530 | MoveWord copies an even pair |
| `Manual.PointerLine` | src/execute.c:391-443 | LoadIndX, LoadIndY, StoreIndX and StoreIndY in all modes: which cell, which register, and what becomes of the pointer |
| `Manual.StackLine` | src/execute.c:631-648 | Push and Pop as written, cell and pointer |
| `Manual.FlagLine` | src/execute.c:118-126 | BitSetSreg and BitClear make the flag with the written number 1 and 0 and keep all others |
| `Manual.FlagNameLine` | src/opcode.c:15-206 | the fourteen instructions named after a flag do that to it; NOP changes nothing |
| `Manual.TransferLine` | src/execute.c:128-141 | BitStoreT copies the binary digit of a register to T, BitLoad copies T to a bit, and both keep all else |
| `Manual.HighFlagsKept` | src/run_misc.c:4-65 | H, T and I are kept by all instructions that are not about one flag |
| `Control.LabelFound` | src/parse.c:239-254 | a name stands for the label of a line if and only if no .equ and no line above has it |
| `Control.LabelLeadsHome` | src/parse.c:239-254 | such a label means the address of its line, and a jump there enters the first instruction from that line on |
| `Control.EquateMeans` | src/directive.c:80-105 | a name means the value of its first .equ, whatever labels and later .equ lines have it |
| `Control.EquateMeansEarly` | src/directive.c:80-105 | and so it does for bit operands on every line below that .equ |
| `Control.EquateUnknownAbove` | src/expression.c:65-84 | on the lines above it a bit operand with the name is an error |
| `Control.SourceReturn` | src/execute.c:650-657 | the matched return for runs of the source: a return at the depth of the call goes on behind the call with sp restored, whatever happened below the frame in between |
| `TinyExpr.FoldPreserves` | src/tinyexpr_bitw.c:938-969 | wherever evaluation is defined, folding is and the folded tree has the same value; undefined stays undefined |
| `TinyExpr.FoldDefined` | src/tinyexpr_bitw.c:938-969 | a tree that evaluates anywhere can be folded |
| `TinyExpr.FoldIdempotent` | src/tinyexpr_bitw.c:938-969 | folding a folded tree changes nothing |
| `TinyExpr.FoldNormal` | src/tinyexpr_bitw.c:938-969 | nothing foldable is left |
| `TinyExpr.FoldsToConstant` | src/tinyexpr_bitw.c:961-967 | a tree becomes a constant if and only if it has no variable and no call |
| `TinyExpr.FoldKeepsCalls` | src/tinyexpr_bitw.c:947-948 | the low and high subtrees are left untouched, in their order |
| `Folder.Node.Optimize` | src/tinyexpr_bitw.c:938-969 | the in-place folder on heap nodes leaves exactly the folded tree, or hits something undefined exactly where the function does |
| `Descent.ParserDecidesGrammar` | src/tinyexpr_bitw.c:547-835 | for all symbol strings and trees: accepted with a tree if and only if the grammar derives all of it with that tree |
| `Descent.GrammarUnambiguous` | src/tinyexpr_bitw.c:547-835 | one string has one tree |
| `Descent.ListComplete` | src/tinyexpr_bitw.c:821-835 | whatever the grammar derives is parsed, with any rest left alone |
| `Descent.ListSound` | src/tinyexpr_bitw.c:821-835 | whatever is parsed is derived |
| `Printer.ParseInvertsFull` | src/tinyexpr_bitw.c:547-835 | parsing inverts printing with full parentheses, for every tree over the operators |
| `Printer.ParseInvertsMinimal` | src/tinyexpr_bitw.c:547-835 | and printing with parentheses only where a level is too low for its place, by the two precedence levels and left associativity |
| `Fewest.FewestParentheses` | src/tinyexpr_bitw.c:547-835 | no text with fewer parentheses parses to the same tree, so that none of those printed can be left out |
| `Symbols.FindIsFirst` | src/tinyexpr_bitw.c:280-296 | the first entry with the name is found, and none only if there is none |
| `Parser.State.FindLookup` | src/tinyexpr_bitw.c:280-296 | the search loop finds the first entry |
| `Parser.State.NextToken` | src/tinyexpr_bitw.c:404-430 | one symbol further, with names looked up in the table first and among the functions then |
| `Parser.State.ParseBase` | src/tinyexpr_bitw.c:547-668 | the tree and the rest, or the error symbol that sticks |
| `Parser.State.ParsePower` | src/tinyexpr_bitw.c:671-707 | the loop over prefixes: an odd number of minuses negates and drops any tilde, tildes count once |
| `Parser.State.ParseTerm` | src/tinyexpr_bitw.c:779-796 | left associativity of the product operators |
| `Parser.State.ParseSum` | src/tinyexpr_bitw.c:799-818 | left associativity of all other operators, on one level |
| `Parser.State.ParseList` | src/tinyexpr_bitw.c:821-835 | comma lists, keeping the last value |
| `Parser.TeCompile` | src/tinyexpr_bitw.c:972-1002 | a folded tree exactly for the strings that the list uses up |
| `Parser.GetExpr` | src/expression.c:36-98 | the text is cut at its first comma; then the value of the unfolded parse on the table's values, cut to 16 bits; an error exactly for texts that do not parse |
| `Operators.SumsAreExact` | src/tinyexpr_bitw.c:336-352 | from text to value: x+y, x-y and x*y are exact, and undefined iff they do not fit into 32 bits |
| `Operators.QuotientsTruncate` | src/tinyexpr_bitw.c:354-358 | x/y is rounded towards zero, and undefined iff y is 0 or the quotient is 2^31 |
| `Operators.BitsCombine` | src/tinyexpr_bitw.c:312-328 | the bitwise exclusive or, or and and: each of the 32 bits of the two's complement result |
| `Operators.ShiftsMultiply` | src/tinyexpr_bitw.c:300-310 | x<<y and x>>y: the unsigned 32-bit pattern times and divided by 2^y, defined iff y is in 0..31 |
| `Operators.UnariesAreExact` | src/tinyexpr_bitw.c:330-364 | ~x, +x and -x |
| `Operators.WordOfValue` | src/expression.c:80-87 | an operand takes the value modulo 65536, and an undefined one is not accepted |
| `Precedence.OperatorsBind` | src/tinyexpr_bitw.c:779-818 | for all numbers and all pairs of the nine operators: the second binds first iff it is * or / and the first is neither |
| `Precedence.OperandsGroup` | src/tinyexpr_bitw.c:671-818 | the same for operands of any kind with any prefix |
| `Precedence.ParenthesesGroup` | src/tinyexpr_bitw.c:647-658 | parentheses group whatever the operators are |
| `Precedence.CommasGroup` | src/tinyexpr_bitw.c:821-835 | commas go from left to right |
| `Precedence.ListValue` | src/tinyexpr_bitw.c:366-371 | a list has the value of its last expression, if all are defined |
| `Precedence.MayPrecede` | src/tinyexpr_bitw.c:671-707 | one symbol may stand before a number iff it is +, -, ~, low or high |
| `Precedence.ErrorsStick` | src/tinyexpr_bitw.c:547-835 | no string with an error symbol in it is accepted, wherever it stands |
| `Precedence.UnknownIsInvalid` | src/tinyexpr_bitw.c:404-430 | so a character that is no symbol, or an unknown name, anywhere before the first comma is an error |

## Left out

- Operand.LineRecord.GetOperand: does not read operand text or `.db` lists; a line starts with its operands, a
  register as the byte that `get_reg` returns, and data as bytes. The pointer letter of an indirect operand, which
  the assembler reads but does not compare with the mnemonic, goes with it.
- Operand.LineRecord.constructor: does not search the table of `src/opcode.c` for a name; types and base opcodes
  of all its rows are modelled.
- Assembler.Compiler.ParseLine: does not split a line into label, mnemonic, operands and comment; `.def` goes with it.
- Parser.State.NextToken: does not read characters or digits; the text is a list of lexed tokens.
- Limits: 255 symbols, names of 10 characters, expressions of 100 characters, the block buffers.
- A quoted comma ends an operand expression in the source too; characters are not modelled.
- `te_compile` builds its tree on values; only the folder works on heap nodes. Closures, functions with more than
  two parameters, and the operators that are never lexed (power, remainder) are not part of the model.
- The line records of the passes are an array of values; only the operand reader fills fields in place.
- `run_io` is any store of a key to 0xe000, of random bytes to 0xe004 and 0xe005, and of a port to 0xe102, or a
  wish to stop; display, timing, GPIO devices, command line, listing and debug output are not part of this model.
- Memory has 65536 bytes; `load` allocates one byte less. A read past the end is the outcome `Wild`.
- Load: the result tells whether the file was accepted; the source returns 0 in both cases and uses the memory.
- Files are sequences of bytes and never fail to open or to be written.
- A GPIO failure leaves the loop after the random bytes were stored; the model knows only the user's wish to stop.
