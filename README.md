# DLX assembler and emulator, modelled in Dafny

This project models the two programs of the DLX tool set:

* **dasm** is the assembler. A line lexer splits DLX assembly text into
  comment, label and instruction tokens. Stream extractors parse labels,
  mnemonics, registers and immediates. The assembler keeps a location
  counter and a symbol table, handles the `.equ`, `.start`, `.word` and
  `.space` directives, and encodes register-to-register and immediate
  instructions into 32-bit words. The object writer turns bytes into the
  `.abs` text image: 16 bytes per line, each line prefixed by an 8-digit
  hexadecimal address, and a trailing `.start` line.
* **demu** is the emulator. A machine has 32 registers, a program counter,
  an instruction register and a memory made of address blocks. It fetches
  a big-endian word, advances the program counter by 4 and dispatches on
  the opcode through a 54-entry table. Opcode 0 goes through the modifier
  table of register-to-register instructions. `run` steps until `halt`.
  The loader reads the `.abs` text back into memory.

Both programs are proved against specification functions:

* Every method that changes state in the C++ (the stream, the lexer, the
  assembler, the object writer, the memory, the machine and the loader) is
  a Dafny `class` method. Its `ensures` ties the new state to a function of
  the old one.
* The properties are lemmas about those functions:
  * instruction encodings decode back to their fields;
  * a text image produced by the writer, read back line by line, loads the
    same bytes at the same addresses and sets the program counter;
  * each instruction's effect on the registers and the program counter;
  * the sample program in the emulator's self test halts with `r1 = 3000`
    and `r2 = 1000`.

## Files

| file | module | what it holds |
|---|---|---|
| wrappers.dfy | Wrappers | `Option` |
| fixed_width.dfy | FixedWidth | 32-bit signed/unsigned views, wrap-around, bitwise operators |
| text.dfy | Text | character classes, hexadecimal and decimal numerals, scanning helpers |
| instruction_layout.dfy | InstructionLayout | the R, I and L views of an instruction word |
| register.dfy | Registers | the emulator's `Register` class and its operators |
| execution.dfy | Execution | the opcode and modifier tables and what every instruction does |
| semantics.dfy | InstructionSemantics | lemmas that state each instruction group's meaning |
| memory.dfy | MemoryUnit | `MemoryBlock` and `Memory`, block lookup |
| machine.dfy | Emulator | `DLXMachine`: fetch, step and run |
| loader.dfy | Loader | `LoadDlxFile`: reading an `.abs` image into memory |
| program_test.dfy | ProgramTest | the emulator's self test, proved to halt with its expected registers |
| streams.dfy | Streams | the input-stream operations the assembler relies on |
| assembly_types.dfy | AssemblyTypes | tokens, labels, registers, instructions, operands |
| instruction_table.dfy | InstructionTable | the mnemonic table and its registration |
| parser.dfy | Parsing | the stream extractors |
| lexer.dfy | Lexing | `Lexer::Next` |
| assembler.dfy | Assembly | directives, encoding, the assemble loop, the symbol dump |
| object_writer.dfy | ObjectWriting | `ObjectWriter` and the shape of its text |
| round_trip.dfy | RoundTrip | encode/decode and write/load round trips |
| encoding_examples.dfy | EncodingExamples | the assembler driver's `clr` and `movi` encoding checks |

## Where the model follows the code rather than the documented design

* **Register operand order.** Operands are read as `rk, ri, rj`. The word
  is built as `modifier + (rk << 11) + (rj << 16) + (ri << 21) + (opcode << 26)`
  (dasm/Assembler.cpp:173-189). The immediate form reads `rj, ri, immediate`
  and places the first register at bit 16 (dasm/Assembler.cpp:207-212). The
  documented layout puts the first source register at bit 16 and the
  second at bit 21. The model encodes exactly what the code does. The
  documented sample words for `add r1,r2` and `jr r31` therefore do not
  follow from the code, and the model does not claim them.
* **Long immediates are never encoded.** The documented design encodes
  them with a 24-bit mask. The code prints the mnemonic, writes no word and
  advances the counter by 4 (dasm/Assembler.cpp:216-220). The model records
  a `NotEncoded` report.
* **Immediates are literals.** Symbolic operands are meant to go through
  expression evaluation and symbol lookup. The code uses the parsed 16-bit
  literal only, and the declared `evaluate` (dasm/Assembler.hpp:47-48) has
  no definition.
* **Unknown mnemonics.** The documented design reports them as errors. The
  code prints a message, gives format `Unknown` and still advances the
  counter by 4.
* **Opcode table size.** The opcode table has 54 entries
  (demu/hardware/Instructions.cpp:992-1047), not 64. Indexing it with
  opcodes 54 to 63 is undefined behaviour, and the model returns
  `UndefinedBehaviour` for them.
* **A program counter outside memory.** `step` throws `std::out_of_range`
  (demu/demu.cpp:47-52). The model returns the `OutOfRange` status and
  leaves the state unchanged. A word that starts inside a block but runs
  past its end reads past the storage. That is undefined behaviour, and the
  model returns `UndefinedBehaviour` for it.
* **Addresses are scanned with `%08X`.** Data lines use `sscanf("%08X")`
  (demu/demu.cpp:171) and the `.start` line `sscanf(".start %08X")`
  (demu/demu.cpp:219-231). The field after white space is at most eight
  characters: an optional sign, an optional `0x` or `0X`, then hex digits.
  A minus sign negates the value modulo 2^32. So `.start 0x40` sets the
  program counter to 0x40, and a line `-1 ...` is an address line for
  0xFFFFFFFF. The writer pads the start address only to two digits
  (dasm/writer/ObjectWriter.cpp:34-36). The round trip lemmas cover both.
* **`sge` computes `ri > rj`.** Its body stores 0 when `ri <= rj` and 1
  otherwise (demu/hardware/Instructions.cpp:666-673), which is `sgt`, not
  `ri >= rj`. `InstructionSemantics.SgeIsSgt` states this.
* **The "unsigned" set instructions compare signed values.** `Register`
  holds an `int32_t` (demu/hardware/Register.hpp:37) and `Ksgn` is an
  `int16_t` (demu/hardware/Instruction.hpp:46). So `sequ` to `sgeu` compare
  the signed register values, and `sequi` to `sgeui` compare `ri` with the
  sign-extended `Ksgn`, not with `Kusn`
  (demu/hardware/Instructions.cpp:648-849).
* **`srl` and `srli` are arithmetic shifts.** Both shift the signed value
  with `>>`, exactly like `sra` and `srai`
  (demu/hardware/Instructions.cpp:885-917). The model gives them the floor
  of the value divided by 2^count.
* **A malformed data line** ends the whole load. The bytes already stored,
  including the earlier bytes of that line, stay in memory
  (demu/demu.cpp:199-215).
* **The assembler never feeds the writer.** `Assembler::assemble` never
  calls an `ObjectWriter` (dasm/Assembler.cpp:134-226). The assembler and
  the writer are therefore modelled separately, and the writer-to-loader
  round trip is stated for any byte sequence.
* **A text that ends in a newline never finishes assembling.** When the
  last line ends in `'\n'`, the `getline` that reads it consumes the
  newline without setting the end-of-file bit. The assemble loop tests only
  `eof()` (dasm/Assembler.cpp:136), so it calls `Lexer::Next` again. No
  non-empty line is left, and the blank-line loop of `Lexer::Next`
  (dasm/parser/Lexer.cpp:41-44) goes on calling `getline` forever. This
  includes the driver's own sample at dasm/dasm.cpp:65.
  `Assembly.NewlineAtEndHangs` proves it. The encoding examples therefore
  go through the instruction step only.

## Model

| member | source | states |
|---|---|---|
| FixedWidth.ToUnsigned | demu/hardware/Instruction.hpp:60-69 | the unsigned view of a signed 32-bit value is congruent to it modulo 2^32 |
| FixedWidth.ToSigned | demu/hardware/Instruction.hpp:60-69 | the signed view of an unsigned 32-bit value is congruent to it modulo 2^32 |
| FixedWidth.Wrap32 | demu/demu.cpp:68 | unsigned 32-bit arithmetic wraps modulo 2^32 |
| FixedWidth.SignedOfUnsigned | demu/hardware/Instruction.hpp:60-69 | reading a signed value through the unsigned view and back gives the same value |
| FixedWidth.UnsignedOfSigned | demu/hardware/Instruction.hpp:60-69 | reading an unsigned value through the signed view and back gives the same value |
| FixedWidth.AndBitsMeaning | demu/hardware/Register.hpp:59-67 | bit i of a bitwise and is the product of the operands' bits |
| FixedWidth.OrBitsMeaning | demu/hardware/Register.hpp:69-77 | bit i of a bitwise or is set exactly when either operand's bit i is set |
| FixedWidth.XorBitsMeaning | demu/hardware/Instructions.cpp:974-981 | bit i of a bitwise exclusive or is set exactly when the operands' bits differ |
| FixedWidth.BitwiseIdentities | demu/hardware/Register.hpp:59-77 | and is idempotent, or with 0 and xor with itself are identities, and all three commute |
| Text.ToUpper | demu/demu.cpp:199-215 | upper-casing keeps hexadecimal digits and spaces and yields only 0-9 and A-F |
| Text.HexChar | dasm/writer/ObjectWriter.hpp:58-62 | an upper-case hexadecimal digit whose value is the given nibble |
| Text.HexDigitsValue | dasm/writer/ObjectWriter.cpp:61 | a value below 16^width printed in width hexadecimal digits reads back as that value |
| Text.HexNumeral | dasm/writer/ObjectWriter.cpp:34-36 | a zero-padded hexadecimal numeral consists of upper-case digits and reads back as its value |
| Text.HexNoLeadingZero | dasm/Assembler.cpp:253 | a number that needs more digits than the field width is printed without a leading 0 |
| Text.HexValue | demu/demu.cpp:199-215 | a hexadecimal numeral of n digits denotes a value below 16^n |
| Text.HexDigits | dasm/writer/ObjectWriter.cpp:61 | a numeral printed with `setw(n)` and fill '0' has n digits |
| Text.Hex | dasm/writer/ObjectWriter.cpp:34-36 | a numeral printed with `setw` is at least the width, longer when the value needs it |
| Text.SkipSpace | demu/demu.cpp:171 | the first position that is not white space |
| Text.HexRun | demu/demu.cpp:171 | the leading hexadecimal digits, up to the field width |
| Text.DigitRun | dasm/parser/Parser.cpp:186 | the leading decimal digits |
| Text.WordRun | dasm/parser/Parser.cpp:135 | the leading run of non-space characters |
| Text.IndexOf | dasm/parser/Lexer.cpp:52-68 | the first occurrence of a character, or the length |
| Text.Decimal | dasm/Assembler.cpp:153-154 | `to_string` of a count is a non-empty digit string whose value is the count |
| Text.DecimalShape | dasm/Assembler.cpp:153-154 | a decimal numeral starts with 0 only for zero |
| Text.ScanHex | demu/demu.cpp:171-180 | a `%08X` field, after white space, is an optional sign, an optional `0x` and hex digits, eight characters in all, and scans to a value below 2^32 |
| Text.ScanField | demu/demu.cpp:172 | an empty field, or one that opens with neither a sign nor a hex digit, does not convert; an unsigned field's value fits in the field's width of digits; every value is below 2^32 |
| Text.ScanHexSigned | demu/demu.cpp:171-180 | a sign takes one character of the field: `-` and up to seven digits scan to the value negated modulo 2^32, `+` and the digits to the value |
| Text.ScanHexPrefixed | demu/demu.cpp:219-231 | `0x` or `0X` takes two characters of the field, and up to six digits after it scan to their value |
| Text.ScanHexDigits | demu/demu.cpp:171-180 | scanning a zero-padded numeral of the scan width yields the value, whatever follows |
| Text.ScanHexNumeral | demu/demu.cpp:219-231 | scanning any numeral of at most eight digits yields its value |
| InstructionLayout.SignExtend | demu/hardware/Instruction.hpp:42-52 | a signed field is within its half range, equals the raw field or the raw field less the full range, and is negative exactly when the top bit is set |
| InstructionLayout.DecodeR | demu/hardware/Instruction.hpp:32-40 | every R-view field is within its bit width |
| InstructionLayout.DecodeI | demu/hardware/Instruction.hpp:42-52 | every I-view field is within its bit width and Ksgn is signed 16-bit |
| InstructionLayout.DecodeL | demu/hardware/Instruction.hpp:54-58 | the L view holds a signed 26-bit offset and a 6-bit opcode |
| InstructionLayout.DecodeRFields | demu/hardware/Instruction.hpp:16-18 | the R-view fields, weighted by their bit positions, recompose the word |
| InstructionLayout.DecodeIFields | demu/hardware/Instruction.hpp:42-52 | the I-view fields, weighted by their bit positions, recompose the word |
| InstructionLayout.DecodeLFields | demu/hardware/Instruction.hpp:54-58 | the L-view fields recompose the word |
| InstructionLayout.ViewsAgree | demu/hardware/Instruction.hpp:60-78 | the three views share the opcode, and the R and I views share ri and rj |
| Registers.Register.constructor | demu/hardware/Register.hpp:27 | a fresh register holds 0 |
| Registers.Register.FromValue | demu/hardware/Register.hpp:28 | a register built from a value holds it |
| Registers.Register.Assign | demu/hardware/Register.hpp:30-31 | assigning a value stores it |
| Registers.Register.AssignRegister | demu/hardware/Register.hpp:33-34 | assigning a register copies its value |
| Registers.Plus | demu/hardware/Register.hpp:39-47 | `+` gives the int32_t sum of the values, and no value exactly when the sum overflows int32_t |
| Registers.Minus | demu/hardware/Register.hpp:49-57 | `-` gives the int32_t difference, and no value exactly when it overflows |
| Registers.PlusMinusAreModular | demu/hardware/Register.hpp:39-57 | where defined, `+` and `-` agree with adding or subtracting the 32-bit patterns modulo 2^32 and reading the result signed |
| Registers.PlusMinusInverse | demu/hardware/Register.hpp:39-57 | subtracting what was added gives the register's value back with no overflow, and adding back what was subtracted likewise |
| Registers.BitwiseOperators | demu/hardware/Register.hpp:59-77 | the register `&` and `|` are idempotent or neutral with 0, and commutative |
| Registers.SelfTest | demu/demu.cpp:247-267 | after a = 125, b = a - 2 and a = a - b, a holds 2 and b holds 123 |
| Execution.ModifierTable | demu/hardware/Instructions.cpp:1049-1114 | every modifier slot runs an instruction or is the illegal-instruction handler |
| Execution.OpcodeTable | demu/hardware/Instructions.cpp:992-1047 | slot 0, and only slot 0, hands the word to the register-to-register table, slot 1, and only slot 1, to the floating-point handler, and no instruction is reached from both the opcode and the modifier table |
| Execution.ShiftLeft | demu/hardware/Instructions.cpp:744-812 | a result exists exactly for a count in 0..31 and a non-negative ri whose product with 2^count fits int32_t, and is otherwise undefined; it goes to the target register, and a zero count keeps the value |
| Execution.ShiftRight | demu/hardware/Instructions.cpp:885-917 | a result exists exactly for a count in 0..31, and is otherwise undefined; it goes to the target register, keeps ri's sign and does not grow its magnitude |
| Execution.Arithmetic | demu/hardware/Instructions.cpp:420-427 | a register operator's result is written to the target exactly when there is one; an overflow is undefined behaviour |
| Execution.Flag | demu/hardware/Instructions.cpp:631-638 | a set instruction writes 1 when its condition holds and 0 when it does not |
| Execution.ShiftLeftBits | demu/hardware/Instructions.cpp:797-804 | a left shift by zero keeps the value |
| Execution.ShiftRightArithmetic | demu/hardware/Instructions.cpp:885-892 | an arithmetic right shift keeps the sign and does not grow the magnitude |
| Execution.Execute | demu/hardware/Instructions.cpp:420-989 | every instruction's effect names a register in range |
| Execution.Dispatch | demu/demu.cpp:71-104 | dispatching through the opcode table yields an effect that can be applied |
| Execution.Apply | demu/hardware/Instructions.cpp:420-989 | an effect changes only its target register, or only the program counter, or r31 and the program counter for a link, or nothing |
| InstructionSemantics.RegisterFormatSlots | demu/hardware/Instructions.cpp:29-44 | opcode 0 runs the modifier table's instruction, and an illegal modifier does nothing |
| InstructionSemantics.UnusedSlotsDoNothing | demu/hardware/Instructions.cpp:46-55 | opcode 1 and the table's illegal slots leave registers and program counter unchanged |
| InstructionSemantics.OpcodesPastTable | demu/hardware/Instructions.cpp:992-1047 | opcodes beyond the 54-entry table are undefined behaviour |
| InstructionSemantics.AluResult | demu/hardware/Instructions.cpp:420-471 | the logical operations never overflow |
| InstructionSemantics.RegisterAlu | demu/hardware/Instructions.cpp:420-463 | add, addu, sub, subu, and, or and xor store rk := ri op rj, and signed overflow is undefined |
| InstructionSemantics.ImmediateAlu | demu/hardware/Instructions.cpp:429-471 | the immediate forms store rj := ri op Ksgn with the same overflow rule |
| InstructionSemantics.ApplyChangesOnlyItsTarget | demu/hardware/Instructions.cpp:420-989 | every other register keeps its value, and the program counter only changes for branches and jumps |
| InstructionSemantics.RegisterCompare | demu/hardware/Instructions.cpp:631-821 | seq, sne, slt, sgt, sle and sge store 1 exactly when the signed comparison of ri and rj holds |
| InstructionSemantics.RegisterCompareUnsigned | demu/hardware/Instructions.cpp:648-841 | sequ, sneu, sltu, sgtu, sleu and sgeu store 1 exactly when the comparison of the signed values of ri and rj holds, like their signed forms |
| InstructionSemantics.ImmediateCompare | demu/hardware/Instructions.cpp:640-832 | the immediate set instructions compare ri with Ksgn |
| InstructionSemantics.ImmediateCompareUnsigned | demu/hardware/Instructions.cpp:657-849 | sequi, sneui, sltui, sgtui, sleui and sgeui store 1 exactly when the signed value of ri relates to the sign-extended Ksgn |
| InstructionSemantics.SgeIsSgt | demu/hardware/Instructions.cpp:666-673 | sge behaves as sgt, as written: it stores ri > rj |
| InstructionSemantics.ShiftLeftBitsIsProduct | demu/hardware/Instructions.cpp:797-804 | a left shift by n multiplies by 2^n modulo 2^32 |
| InstructionSemantics.ShiftRightIsFloorDivision | demu/hardware/Instructions.cpp:885-892 | an arithmetic right shift by n is floor division by 2^n |
| InstructionSemantics.ShiftLeftMeaning | demu/hardware/Instructions.cpp:744-812 | a shift is defined exactly for a count in 0..31 and a non-negative ri whose product with 2^count fits int32_t; the target then gets ri * 2^count, which is also the bit pattern shifted modulo 2^32 |
| InstructionSemantics.ShiftRightMeaning | demu/hardware/Instructions.cpp:885-917 | a shift count outside 0..31 is undefined; otherwise the target gets the floor of ri / 2^count, for sra and srl alike |
| InstructionSemantics.Branches | demu/hardware/Instructions.cpp:473-493 | beqz and bnez add Ksgn to the program counter exactly when ri is (not) zero, and otherwise change nothing |
| InstructionSemantics.Jumps | demu/hardware/Instructions.cpp:506-527 | jal stores the return address in r31 and jumps by Lsgn; jr jumps to ri |
| InstructionSemantics.StubsChangeNothing | demu/hardware/Instructions.cpp:495-621 | j, jalr, halt, nop, wait, lhi, rfe, trap, movi2s and movs2i are empty bodies |
| InstructionSemantics.LoadsAndStoresChangeNothing | demu/hardware/Instructions.cpp:529-575 | the loads and stores are empty bodies |
| MemoryUnit.FindBlock | demu/hardware/Memory.cpp:17-25 | the first block containing the address, or none exactly when no block contains it |
| MemoryUnit.FindBlockFirst | demu/hardware/Memory.cpp:17-25 | a containing block with no earlier containing block is the one found |
| MemoryUnit.MemoryBlock.constructor | demu/hardware/Memory.hpp:35 | a default block is empty and has no storage |
| MemoryUnit.MemoryBlock.Move | demu/hardware/Memory.hpp:37-42 | the move constructor takes the range and the storage and leaves the source without storage |
| MemoryUnit.Memory.constructor | demu/hardware/Memory.cpp:27-35 | a memory holds one zeroed block spanning start to end |
| MemoryUnit.Memory.Lookup | demu/hardware/Memory.cpp:17-25 | `operator[]` returns the block FindBlock names, or null |
| MemoryUnit.Memory.Refresh | demu/hardware/Memory.cpp:17-25 | the view of a block's bytes is brought up to date and nothing else changes |
| MemoryUnit.Memory.StoreByte | demu/demu.cpp:199-215 | writing one byte changes that byte of that block only |
| MemoryUnit.CopyToFirstBlock | demu/demu.cpp:294-295 | `memcpy` into block 0 replaces its first bytes and keeps the rest |
| Emulator.SwapBytesOfHostWord | demu/demu.cpp:30-36 | swapping a little-endian host word gives the big-endian reading of the same bytes |
| Emulator.SwapBytesInvolution | demu/demu.cpp:30-36 | swapping bytes twice gives the original word |
| Emulator.SwapBytes | demu/demu.cpp:30-36 | the result is the word's four bytes in reverse order |
| Emulator.ReadWord | demu/demu.cpp:57-65 | the fetched word is the big-endian reading of four consecutive bytes |
| Emulator.FetchSpec | demu/demu.cpp:47-65 | a fetch is unmapped exactly when no block contains the program counter |
| Emulator.FetchAt | demu/demu.cpp:61-65 | the word index is the offset divided by 4, and a word past the block's end is not fetched |
| Emulator.StepSpec | demu/demu.cpp:44-105 | a step fails with OutOfRange exactly when the program counter is unmapped, and then changes nothing |
| Emulator.ExecuteWord | demu/demu.cpp:65-104 | a fetched word lands in the instruction register |
| Emulator.RetireSpec | demu/demu.cpp:68-104 | undefined behaviour keeps the registers, advances the program counter and records the word |
| Emulator.ExecuteWordRetires | demu/demu.cpp:65-104 | executing a word retires the effect its dispatch computes |
| Emulator.StepSpecPastEnd | demu/demu.cpp:57-65 | a word running past its block's end is undefined behaviour and changes nothing |
| Emulator.IsHalt | demu/demu.cpp:114-115 | the halt test holds exactly for opcode 0 with modifier 1 in the register-to-register view |
| Emulator.RunLoop | demu/demu.cpp:111-118 | a run that halts stops on a halt word |
| Emulator.RunLoopTurn | demu/demu.cpp:114-118 | a non-halting successful step is one turn of the loop |
| Emulator.Decode | demu/demu.cpp:71-104 | the effect computed is the one ExecuteWord retires |
| Emulator.RunSpec | demu/demu.cpp:107-127 | a halted run stops on a halt word, and a run clears the instruction register first, so even an earlier halt word does not stop it before a step |
| Emulator.DLXMachine.ExecuteFetched | demu/demu.cpp:65-104 | the state and status after a fetched word are those of ExecuteWord |
| Emulator.DLXMachine.constructor | demu/demu.cpp:38-42 | a new machine has zero registers, program counter 2^32-1 and one zeroed block |
| Emulator.DLXMachine.SetProgramCounter | demu/hardware/Machine.hpp:72-74 | the program counter takes the address |
| Emulator.DLXMachine.SetRegister | demu/hardware/Machine.hpp:52-54 | one register takes the value and the others keep theirs |
| Emulator.DLXMachine.Block | demu/hardware/Machine.hpp:70 | the block containing the address, or null |
| Emulator.DLXMachine.FetchInstruction | demu/demu.cpp:47-65 | the fetch agrees with FetchSpec |
| Emulator.Fetch | demu/demu.cpp:57-65 | a word is fetched exactly when the program counter lies within the whole words of the block's buffer; it is the four bytes at the counter's offset rounded down to a multiple of 4, most significant first |
| Emulator.DLXMachine.Step | demu/demu.cpp:44-105 | the new state and status are those of StepSpec |
| Emulator.DLXMachine.Retire | demu/demu.cpp:68-104 | the new state and status are those of RetireSpec |
| Emulator.DLXMachine.Run | demu/demu.cpp:107-127 | the new state and status are those of RunSpec |
| ProgramTest.ProgramImage | demu/demu.cpp:284-295 | the host words laid into memory by `memcpy` read big-endian as the program's instructions |
| ProgramTest.StepProgram | demu/demu.cpp:44-105 | a step at word i of the loaded program executes the i-th instruction |
| ProgramTest.LoadedMachine | demu/demu.cpp:279-297 | the machine of the test holds the program in block 0 and starts at address 0 |
| ProgramTest.FetchProgram | demu/demu.cpp:284-295 | fetching word i of the loaded program gives the i-th instruction |
| ProgramTest.AddImmediateWords | demu/demu.cpp:285-286 | the first two words copy r0 into r1 and into r2 |
| ProgramTest.IncrementWords | demu/demu.cpp:287-288 | the third word sets r1 to r1 + 3 and the fourth r2 to r2 + 1, wherever the sum fits int32_t |
| ProgramTest.SetLessWord | demu/demu.cpp:289 | the fifth word sets r3 to whether r2 < 1000 |
| ProgramTest.BranchWord | demu/demu.cpp:290 | the sixth word branches back 16 bytes when r3 is non-zero |
| ProgramTest.HaltWord | demu/demu.cpp:291 | the last word is halt |
| ProgramTest.LoopHalts | demu/demu.cpp:270-278 | from any turn of the loop the program halts, with r1 = 3000 and r2 = 1000 |
| ProgramTest.StepAdd | demu/demu.cpp:297-312 | the machine's first steps set r1 and r2 as the test asserts |
| ProgramTest.StepSlti | demu/demu.cpp:314-318 | the compare step sets r3 as the test asserts |
| ProgramTest.StepBnez | demu/demu.cpp:320-326 | the branch step returns to the loop when r3 is set |
| ProgramTest.RunToHalt | demu/demu.cpp:328 | `run` from the loop halts with r1 = 3000 and r2 = 1000 |
| ProgramTest.Tests | demu/demu.cpp:279-328 | the whole self test halts with sum 3000 and count 1000 |
| Loader.DecodeFrom | demu/demu.cpp:184-217 | decoding a data field fails only on a bad digit or an unpaired digit |
| Loader.Splice | demu/demu.cpp:199-215 | storing data at an offset changes exactly those bytes |
| Loader.StoreLine | demu/demu.cpp:184-217 | storing a line keeps the block's size and ends with a known status |
| Loader.SelectBlock | demu/demu.cpp:152-180 | the current block is kept when it contains the address, otherwise the first one that does, or none exactly when none does |
| Loader.AddressLine | demu/demu.cpp:171-218 | an address line keeps the memory layout and the program counter |
| Loader.OtherLine | demu/demu.cpp:232-236 | an unrecognised line leaves memory alone and adds at most one diagnostic |
| Loader.LoadLine | demu/demu.cpp:165-237 | one line keeps the layout and adds at most one diagnostic |
| Loader.LoadLines | demu/demu.cpp:165-237 | the lines keep the layout, with at most one diagnostic per line |
| Loader.Load | demu/demu.cpp:133-238 | a file fails as not absolute exactly when its first line is not `.abs`, and then changes nothing |
| Loader.LoadLinesAppend | demu/demu.cpp:165-237 | loading a + b is loading a, then, if it succeeded, b |
| Loader.LoadStops | demu/demu.cpp:165-237 | after a failing line nothing further is loaded |
| Loader.AddressLineStores | demu/demu.cpp:171-218 | a well-formed address line stores its bytes in the block that contains the address |
| Loader.NotAnAddress | demu/demu.cpp:171 | a line starting with none of white space, a sign or a hexadecimal digit is not an address line |
| Loader.ScanAddress | demu/demu.cpp:171-172 | `%08X` into an unsigned int keeps the scanned value, which fits 32 bits, and a line of white space only has no address |
| Loader.StartAddress | demu/demu.cpp:222 | a space and eight hex digits scan as the address they spell, whatever follows them |
| Loader.SignedAddressLine | demu/demu.cpp:171-178 | a line opening with `-` and hex digits is an address line for the negated address, so `-1` stores at 0xFFFFFFFF or stops the load |
| Loader.StartPrefixed | demu/demu.cpp:219-224 | `.start 0x` and up to six digits sets the program counter to the digits' value |
| Loader.StartLineSetsPc | demu/demu.cpp:219-231 | `.start` with eight digits sets the program counter to that address |
| Loader.StartDirective | demu/demu.cpp:219-231 | any `.start` line whose address scans sets the program counter and nothing else |
| Loader.EmptyLineSkipped | demu/demu.cpp:165-169 | an empty line changes nothing |
| Loader.PairByte | demu/demu.cpp:199-215 | two hexadecimal digits make the byte they denote |
| Loader.StoreFromSplice | demu/demu.cpp:184-217 | the in-place store loop writes the decoded bytes that fit and reports a bad or past-the-end line |
| Loader.StoreFrom | demu/demu.cpp:184-217 | storing keeps the buffer's size and every byte before the line's address, and a rest of white space only stores nothing and succeeds |
| Loader.WriteLineData | demu/demu.cpp:184-217 | the store loop over the block's storage computes StoreLine |
| Loader.StoreLineData | demu/demu.cpp:184-217 | storing through the memory changes only that block, as StoreLine says |
| Loader.ChooseBlock | demu/demu.cpp:152-180 | the block chosen is the one SelectBlock names |
| Loader.LoadAddressLine | demu/demu.cpp:171-218 | the machine's new memory and status are those of AddressLine |
| Loader.LoadOneLine | demu/demu.cpp:165-237 | the machine's new memory, program counter and status are those of LoadLine |
| Loader.LoadDlxFile | demu/demu.cpp:133-238 | the machine's new memory, program counter and status are those of Load |
| Streams.Open | dasm/Assembler.cpp:151 | a fresh string stream is good and at position 0 |
| Streams.PeekSpec | dasm/parser/Parser.cpp:129 | peek yields the next character of a good stream, otherwise nothing and sets eof |
| Streams.GetSpec | dasm/parser/Parser.cpp:169 | get advances one character of a good stream, otherwise fails in place |
| Streams.FieldStart | dasm/parser/Parser.cpp:169 | the first non-space position at or after the current one |
| Streams.WordSpec | dasm/parser/Parser.cpp:135 | `>> string` reads a non-empty run of non-space characters after the spaces, and fails exactly when there is none |
| Streams.CharSpec | dasm/parser/Parser.cpp:185 | `>> char` reads the first non-space character |
| Streams.UnsignedValue | dasm/parser/Parser.cpp:206 | `>> unsigned short` keeps values below 2^16, saturates larger ones and negates modulo 2^16 |
| Streams.UnsignedSpec | dasm/parser/Parser.cpp:206 | a number read from an exhausted stream fails and keeps the old value |
| Streams.GetLineSpec | dasm/parser/Lexer.cpp:43 | getline yields the text up to the delimiter and fails on a stream that is not good |
| Streams.InputStream.constructor | dasm/Assembler.cpp:151 | a new string stream is in the Open state |
| Streams.InputStream.Set | dasm/parser/Parser.cpp:184 | the stream takes the given state |
| Streams.InputStream.Peek | dasm/parser/Parser.cpp:129 | the method agrees with PeekSpec |
| Streams.InputStream.Get | dasm/parser/Parser.cpp:169 | the method agrees with GetSpec |
| Streams.InputStream.ReadWord | dasm/parser/Parser.cpp:147 | the result and new state are those of WordSpec |
| Streams.InputStream.ReadChar | dasm/parser/Parser.cpp:185 | the method agrees with CharSpec |
| Streams.InputStream.ReadUnsigned | dasm/parser/Parser.cpp:206 | the result and new state are those of UnsignedSpec |
| Streams.InputStream.GetLine | dasm/parser/Parser.cpp:155 | the result and new state are those of GetLineSpec |
| Streams.InputStream.Current | dasm/parser/Parser.cpp:61 | `sgetc`: the character at the position, if any |
| Streams.InputStream.Advance | dasm/parser/Parser.cpp:62 | `snextc`: the position moves on by one |
| Streams.InputStream.SetState | dasm/parser/Parser.cpp:102 | `setstate` only adds state bits |
| InstructionTable.Insert | dasm/parser/Instructions.cpp:29-49 | inserting keeps an existing entry and otherwise adds the new one |
| InstructionTable.RegisterAll | dasm/parser/Instructions.cpp:17-27 | registering definitions never removes a mnemonic and keeps every entry filed under its own mnemonic |
| InstructionTable.Registry.constructor | dasm/parser/Instructions.cpp:17-27 | the table starts empty |
| InstructionTable.Registry.All | dasm/parser/Instructions.cpp:23-27 | every entry of the map is the definition of its own mnemonic, an invariant the constructor and both definition methods keep |
| InstructionTable.FirstDefinition | dasm/parser/Instructions.cpp:17-27 | the index of the first definition of a mnemonic |
| InstructionTable.FirstDefinitionWins | dasm/parser/Instructions.cpp:17-27 | a mnemonic defined twice keeps its first definition |
| InstructionTable.Registry.DefineWithFormat | dasm/parser/Instructions.cpp:29-39 | a definition with format and modifier 0 is registered unless the mnemonic already is |
| InstructionTable.Registry.DefineWithModifier | dasm/parser/Instructions.cpp:41-49 | a register-to-register definition with its modifier is registered unless the mnemonic already is |
| Parsing.FieldEnd | dasm/parser/Parser.cpp:69-80 | the first ',' or ';' of the text, or its end |
| Parsing.DropBlanks | dasm/parser/Parser.cpp:87-92 | spaces and tabs are dropped from a field |
| Parsing.DropBlanksNone | dasm/parser/Parser.cpp:87-92 | a field without spaces or tabs is read back whole |
| Parsing.ReadFromField | dasm/parser/Parser.cpp:61-99 | `read` appends the field up to the delimiter with blanks dropped and consumes the delimiter |
| Parsing.ReadSpec | dasm/parser/Parser.cpp:42-103 | read fails in place on a bad stream, appends only non-blank field characters, fails exactly when nothing was consumed, and reaches eof exactly when no delimiter follows |
| Parsing.ReadKeepsFirst | dasm/parser/Parser.cpp:93-97 | a field that starts with a significant character yields it first |
| Parsing.Read | dasm/parser/Parser.cpp:42-103 | the character loop agrees with ReadSpec |
| Parsing.FormatFromMnemonic | dasm/parser/Parser.cpp:106-124 | a leading '.' is a directive; otherwise the table's format or Unknown |
| Parsing.SkipSpacesSpec | dasm/parser/Parser.cpp:169 | skipping stops at the first non-space, and at eof when none |
| Parsing.SkipSpaces | dasm/parser/Parser.cpp:169 | the loop agrees with SkipSpacesSpec |
| Parsing.RegisterOfWord | dasm/parser/Parser.cpp:182-186 | the register kind is the first character, and its number the digits that follow, or 0 |
| Parsing.RegisterSpec | dasm/parser/Parser.cpp:165-189 | a register operand only moves the stream forward; it is missing or of kind 'r' or 'f', and it is missing on a stream that is not good |
| Parsing.MissingRegister | dasm/parser/Parser.cpp:172-177 | an operand not starting with 'r' or 'f' is missing ('m', 0) and only spaces are consumed |
| Parsing.RegisterIsField | dasm/parser/Parser.cpp:179-186 | a register operand is the field up to the next ',' parsed as kind and number |
| Parsing.ExtractRegister | dasm/parser/Parser.cpp:165-189 | the extractor agrees with RegisterSpec |
| Parsing.ImmediateSpec | dasm/parser/Parser.cpp:191-216 | a '-' or a digit reads Kusn; anything else reads an expression word; nothing left gives Kusn 0 and fails |
| Parsing.WordAfterSkip | dasm/parser/Parser.cpp:197-213 | skipping spaces before `>>` does not change the word read |
| Parsing.ExtractImmediate | dasm/parser/Parser.cpp:191-216 | the extractor agrees with ImmediateSpec |
| Parsing.LongImmediateSpec | dasm/parser/Parser.cpp:218-227 | the long immediate is the next word, or unchanged on failure |
| Parsing.ExtractLongImmediate | dasm/parser/Parser.cpp:218-227 | the extractor agrees with LongImmediateSpec |
| Parsing.LabelSpec | dasm/parser/Parser.cpp:132-142 | a label is the next word without a final ':' |
| Parsing.ExtractLabel | dasm/parser/Parser.cpp:132-142 | the extractor agrees with LabelSpec |
| Parsing.InstructionSpec | dasm/parser/Parser.cpp:144-150 | the mnemonic is the next word and its format comes from FormatFromMnemonic |
| Parsing.ExtractInstruction | dasm/parser/Parser.cpp:144-150 | the extractor agrees with InstructionSpec |
| Parsing.LeadingBlanks | dasm/parser/Parser.cpp:157 | the first position that is not a space or a tab |
| Parsing.CommentSpec | dasm/parser/Parser.cpp:152-163 | the remark is the text up to the delimiter: exactly its leading blanks are dropped when it holds a non-blank, and a text of blanks only is kept whole |
| Parsing.ExtractComment | dasm/parser/Parser.cpp:152-163 | the extractor agrees with CommentSpec |
| Parsing.StartsWithLabelSpec | dasm/parser/Parser.cpp:126-130 | a label starts exactly when the next character of a good stream is a letter |
| Parsing.StartsWithLabel | dasm/parser/Parser.cpp:126-130 | the method agrees with StartsWithLabelSpec |
| Lexing.LeadingNewlines | dasm/parser/Lexer.cpp:41-44 | the empty lines before the next line |
| Lexing.LineStart | dasm/parser/Lexer.cpp:41-44 | the start of the next non-empty line |
| Lexing.NextLine | dasm/parser/Lexer.cpp:41-44 | the loop yields a non-empty line and moves the stream forward |
| Lexing.NextLineIsFirstLine | dasm/parser/Lexer.cpp:41-44 | the line taken is the first non-empty line after the position |
| Lexing.PendingLine | dasm/parser/Lexer.cpp:33-44 | the leftovers come first, then the next non-empty line |
| Lexing.NextSpec | dasm/parser/Lexer.cpp:29-93 | each call consumes input or shortens the leftovers |
| Lexing.NextClassifies | dasm/parser/Lexer.cpp:47-92 | ';' gives a comment, a blank gives the instruction up to ';', and a letter gives the label word and keeps the rest as leftovers |
| Lexing.LeftOversClassifiable | dasm/parser/Lexer.cpp:69-90 | after a label, the rest of the line can be classified exactly when it starts with a space or a tab |
| Lexing.LeftOversFirst | dasm/parser/Lexer.cpp:33-37 | leftovers are classified as a line of their own without reading the stream |
| Lexing.LabelThenInstruction | dasm/parser/Lexer.cpp:69-91 | a label followed by text on the same line is followed by an instruction token for that text |
| Lexing.Lexer.constructor | dasm/parser/Lexer.hpp:56 | a new lexer has no leftovers |
| Lexing.Lexer.Next | dasm/parser/Lexer.cpp:29-93 | the getline loop and the classification agree with NextSpec |
| Assembly.Initial | dasm/Assembler.cpp:120-132 | an empty symbol table, counter 0, no output |
| Assembly.EncodeR | dasm/Assembler.cpp:187-189 | in-range fields land in their own bits: the modifier in 0-5, zero in 6-10, rk in 11-15, rj in 16-20, ri in 21-25 and the opcode in 26-31 |
| Assembly.EncodeI | dasm/Assembler.cpp:210-212 | in-range fields land in their own bits: Kusn in 0-15, rj in 16-20, ri in 21-25 and the opcode in 26-31 |
| Assembly.ThreeRegisters | dasm/Assembler.cpp:173-174 | each operand is a missing register or one of kind 'r' or 'f', and on a stream that is not good all three are missing |
| Assembly.ImmediateOperands | dasm/Assembler.cpp:207-209 | both registers are missing or of kind 'r' or 'f'; on a stream that is not good both are missing and the immediate is 0 |
| Assembly.SpaceSize | dasm/Assembler.cpp:88-113 | `.space` reads a count that saturates at the largest unsigned long long |
| Assembly.DirectiveSpec | dasm/Assembler.cpp:50-118 | `.equ` binds the previous label, the first `.start` records the start, `.word` adds 4, `.space` adds its count or reports, and others report |
| Assembly.StartFirstWins | dasm/Assembler.cpp:61-78 | a second `.start` is reported and does not replace the first |
| Assembly.MnemonicOf | dasm/Assembler.cpp:159-161 | the mnemonic is read from a stream over the token's own text |
| Assembly.Assembler.RecordWord | dasm/Assembler.cpp:187-220 | a word, or a report when there is none, is recorded at the counter, which then grows by 4 |
| Assembly.LabelStep | dasm/Assembler.cpp:148-156 | a label binds its name to the decimal location counter and changes nothing else |
| Assembly.EncodedWord | dasm/Assembler.cpp:170-219 | exactly the register-to-register and immediate formats give a word |
| Assembly.InstructionStep | dasm/Assembler.cpp:157-223 | an instruction adds 4 to the counter and records its word or a report |
| Assembly.InstructionStepDirective | dasm/Assembler.cpp:162-167 | a directive token runs the directive with its operand |
| Assembly.InstructionStepWord | dasm/Assembler.cpp:168-220 | a machine instruction records the word at the counter and adds 4 |
| Assembly.TokenSpec | dasm/Assembler.cpp:138-224 | tokens only add to the symbols, the counter and the output, and a comment changes nothing |
| Assembly.LabelBinds | dasm/Assembler.cpp:148-156 | a label token binds its name to the current counter |
| Assembly.InstructionAdvances | dasm/Assembler.cpp:157-223 | an instruction token adds 4 to the counter and leaves the symbols alone |
| Assembly.AssembleSpec | dasm/Assembler.cpp:134-226 | when assembling ends, the stream is at eof and everything has only grown |
| Assembly.NewlineAtEndHangs | dasm/Assembler.cpp:136 | a text ending in a newline never reaches eof, so assembling does not end |
| Assembly.NextKeepsGoing | dasm/parser/Lexer.cpp:41-44 | on such a text every token leaves the stream good |
| Assembly.DisplayValue | dasm/Assembler.cpp:228-269 | decimal values are shown in hexadecimal without leading zeros, `16#` values without the prefix, and others as they are |
| Assembly.SymbolDump | dasm/Assembler.cpp:228-269 | every symbol except the reserved names is shown with its display value |
| Assembly.LabelShownInHex | dasm/Assembler.cpp:228-269 | a label's address, shown in the dump, reads back as the address |
| Assembly.Assembler.constructor | dasm/Assembler.cpp:120-132 | a new assembler reads the given source with a fresh lexer and starts in the Initial state |
| Assembly.Assembler.HandleDirective | dasm/Assembler.cpp:50-118 | the method agrees with DirectiveSpec |
| Assembly.Assembler.ProcessToken | dasm/Assembler.cpp:138-224 | the method agrees with TokenSpec |
| Assembly.Assembler.ProcessInstruction | dasm/Assembler.cpp:157-223 | the method agrees with InstructionStep |
| Assembly.Assembler.Encode | dasm/Assembler.cpp:170-215 | the operands read from the token give EncodedWord |
| Assembly.Assembler.Assemble | dasm/Assembler.cpp:134-226 | the loop ends in the state AssembleSpec says |
| ObjectWriting.Fresh | dasm/writer/ObjectWriter.cpp:15-24 | a new writer has written `.abs` and a newline, with no byte and no start address |
| ObjectWriting.PreByteSpec | dasm/writer/ObjectWriter.cpp:46-65 | the byte count cycles through 1..16 and the line address grows by 16 per full line |
| ObjectWriting.ByteSpec | dasm/writer/ObjectWriter.hpp:57-62 | a byte extends the output, which then ends in exactly its two hex digits, and keeps the writer consistent with at least one byte on the line |
| ObjectWriting.ByteAt | dasm/writer/ObjectWriter.hpp:58 | `(value >> i) & 0xFF` is the floor of value / 2^i modulo 256 |
| ObjectWriting.ShiftIsFloorDivision | dasm/writer/ObjectWriter.hpp:58 | i halvings that round down are one floor division by 2^i |
| ObjectWriting.StartLine | dasm/writer/ObjectWriter.cpp:34-36 | the trailer line is ".start " and at least two hex digits whose value is the start address |
| ObjectWriting.PreByteText | dasm/writer/ObjectWriter.cpp:46-65 | a full line is broken with the next address, a started one gets a space, an empty one gets the address |
| ObjectWriting.WriteBytes | dasm/writer/ObjectWriter.hpp:51-64 | writing bytes keeps the start address and the writer's invariant |
| ObjectWriting.BytesOf | dasm/writer/ObjectWriter.hpp:55-62 | an integer is written most significant byte first |
| ObjectWriting.Trailer | dasm/writer/ObjectWriter.cpp:26-38 | the destructor writes a trailer exactly when a start address is known |
| ObjectWriting.ObjectWriter.constructor | dasm/writer/ObjectWriter.cpp:15-24 | the writer starts in the Fresh state |
| ObjectWriting.ObjectWriter.SetStartAddress | dasm/writer/ObjectWriter.cpp:40-44 | the start address is recorded and nothing else changes |
| ObjectWriting.ObjectWriter.PreByteWritten | dasm/writer/ObjectWriter.cpp:46-65 | the method agrees with PreByteSpec |
| ObjectWriting.ObjectWriter.Out | dasm/writer/ObjectWriter.hpp:51-64 | the loop writes the value's bytes as WriteBytes says |
| ObjectWriting.ObjectWriter.WriteByte | dasm/writer/ObjectWriter.hpp:57-62 | the writer's new state is that of ByteSpec |
| ObjectWriting.ObjectWriter.Close | dasm/writer/ObjectWriter.cpp:26-38 | closing appends the trailer |
| ObjectWriting.WriteBytesAppend | dasm/writer/ObjectWriter.hpp:51-64 | writing a + b is writing a then b |
| ObjectWriting.ByteCount | dasm/writer/ObjectWriter.cpp:46-65 | after n bytes the line holds (n-1) mod 16 + 1 bytes at address 16 * ((n-1) div 16) |
| ObjectWriting.StartCommutes | dasm/writer/ObjectWriter.cpp:40-44 | setting the start address before or after the bytes makes no difference |
| ObjectWriting.BytesOfValue | dasm/writer/ObjectWriter.hpp:55-62 | the bytes written for a value that fits read back big-endian as the value |
| ObjectWriting.WordBytes | dasm/writer/ObjectWriter.hpp:55-62 | a 4-byte value is written as its four bytes from the top |
| ObjectWriting.FirstWordLine | dasm/dasm.cpp:63-97 | the word 0x20010000 is written as `.abs` then `00000000  20 01 00 00` |
| ObjectWriting.DataLines | dasm/writer/ObjectWriter.cpp:46-65 | there is one line per 16 bytes, rounded up |
| ObjectWriting.LineWritten | dasm/writer/ObjectWriter.cpp:46-65 | up to 16 bytes from a line boundary produce exactly one address line |
| ObjectWriting.LinesWritten | dasm/writer/ObjectWriter.cpp:46-65 | any bytes from a line boundary produce the address lines of 16-byte chunks |
| ObjectWriting.JoinAppend | dasm/writer/ObjectWriter.cpp:46-65 | joining lines distributes over concatenation |
| ObjectWriting.ImageText | dasm/writer/ObjectWriter.cpp:15-65 | a writer's text with a start address is `.abs`, the data lines, the blank lines and the `.start` line |
| ObjectWriting.ImageJoin | dasm/writer/ObjectWriter.cpp:26-38 | the image's lines joined with newlines give that text |
| RoundTrip.EncodeRDecodes | dasm/Assembler.cpp:187-189 | the emulator's R view of an assembled register word gives back modifier, rk, rj, ri and opcode |
| RoundTrip.DecodeREncodes | demu/hardware/Instruction.hpp:32-40 | re-encoding the R view of a word whose unused field is 0 gives the word |
| RoundTrip.EncodeIDecodes | dasm/Assembler.cpp:210-212 | the I view of an assembled immediate word gives back Kusn, its sign extension, rj, ri and opcode |
| RoundTrip.DecodeIEncodes | demu/hardware/Instruction.hpp:42-52 | re-encoding the I view of any word gives the word |
| RoundTrip.SplitJoin | demu/demu.cpp:165-168 | reading back lines joined with newlines gives the lines |
| RoundTrip.ImageReadsBack | demu/demu.cpp:165-168 | reading the writer's text line by line gives its image lines |
| RoundTrip.PairsDecode | demu/demu.cpp:184-217 | the writer's byte pairs decode to the bytes |
| RoundTrip.DataLineDecodes | demu/demu.cpp:184-217 | the data of a written line decodes to its bytes |
| RoundTrip.DataLineAddress | demu/demu.cpp:171-180 | a written line's address scans as that address |
| RoundTrip.DataLinesLoad | demu/demu.cpp:165-218 | loading the written data lines stores the bytes at their addresses |
| RoundTrip.StartLineLoads | demu/demu.cpp:219-231 | the written `.start` line sets the program counter to the start address |
| RoundTrip.TailLoads | demu/demu.cpp:219-236 | the blank lines and the `.start` line only set the program counter |
| RoundTrip.ImageLoads | demu/demu.cpp:133-238 | loading an image stores its bytes from address 0 and sets the program counter |
| RoundTrip.WrittenBytesLoad | dasm/writer/ObjectWriter.cpp:15-65 | bytes written by the writer and loaded by the emulator end up at the same addresses, and the start address is the program counter |
| EncodingExamples.ImmediateWord | dasm/Assembler.cpp:200-212 | an immediate instruction's word is built from its parsed operands |
| EncodingExamples.MoviAssembles | dasm/dasm.cpp:281-290 | `movi r2,1` is assembled to 0x20020001 at the location counter |
| EncodingExamples.ClrAssembles | dasm/dasm.cpp:259-268 | `clr r1` is assembled to 0x20010000 and written as `00000000  20 01 00 00` |

## Left out

* Console output is not modelled: the listing, the `Executing` trace, the
  register dump after `run`, and the diagnostics written to `std::cerr`.
  The loader's diagnostics are kept as a sequence of values.
* The command-line driver and argument parsing are not modelled
  (dasm/dasm.cpp `main`, ArgumentParser, demu's `main`).
* File I/O is not modelled. Source text and `.abs` images are strings.
  The loader receives the file already split into lines: `getline` is
  modelled by splitting on `'\n'`. A `'\r'` is an ordinary character.
* Assembly.InstructionStep: the encodings shift signed `int` register
  numbers left by up to 21 and opcodes by 26. A large opcode can overflow
  a signed int. The model takes the result modulo 2^32.
* Assembly.SpaceSize and InstructionStep model the location counter as an
  unbounded number. The C++ `unsigned long long` would wrap after 2^64
  bytes. `.space` saturates at that maximum, as `istream` does.
* Assembly.Assembler.Assemble requires that assembling finishes.
  `NewlineAtEndHangs` proves that a text ending in a newline never finishes.
  AssembleSpec is also `None` on the inputs below. The C++ behaviour is
  undefined on each of them, so the model gives them no result.
* Lexing.Classifiable: a line whose first character is not ';', a space,
  a tab or a letter is classified by no branch of `Lexer::Next`
  (dasm/parser/Lexer.cpp:47-90). `Token::type` is then read uninitialised.
  Examples are a directive such as `.start` in column 0, a line that starts
  with a digit, and a label ended by `'\r'`, which leaves leftovers
  starting with `'\r'` (Lexing.LeftOversClassifiable).
* Assembly.DirectiveDefined and Assembly.TokenDefined: a `.space` with no
  operand passes the all-digits test, because an empty operand has no
  non-digit. `stream >> value` then fails in the sentry and leaves the
  uninitialised `unsigned long long` unread (dasm/Assembler.cpp:96-106).
* Parsing.LabelSpec requires a non-empty label word. `*label.name.rbegin()`
  on an empty name is undefined (dasm/parser/Parser.cpp:135-136).
* Assembly.DisplayValue and Assembly.SymbolDump require a non-empty value.
  An empty value, which a `.equ` without an operand binds, passes the
  all-digits test and reads an uninitialised `long long`
  (dasm/Assembler.cpp:244-253).
* Assembly.SymbolDump states the set of names shown and their values. The
  order (a `std::map`, sorted by name) and the column padding are not
  modelled.
* `read`'s `max_size` branch (dasm/parser/Parser.cpp:81-86) cannot be
  reached by strings of a size that can be represented, and is left out.
* Parsing.ImmediateSpec: `>> unsigned short` is modelled by
  Streams.UnsignedValue, which covers a minus sign, overflow and digits.
  Locale and base prefixes are outside the model.
* The assembler's `Lexer::Line()` and `Column()` and the unused
  `SymbolTable` header are not part of this model.
* Stale header declarations are not part of this model:
  * `Types.hpp` lacks the `Directive` format value that Parser.cpp uses.
  * The emulator's Instructions.hpp declares handlers differently from
    Instructions.cpp.
  * dasm/parser/Instructions.hpp declares a `struct InstructionDef` and its
    mnemonic table, while dasm/parser/Instructions.cpp defines
    `InstructionDefinition`. Because the two do not fit together, the
    mnemonic table is a parameter (an InstructionMap) of
    Parsing.FormatFromMnemonic and Assembly.TokenSpec. It is not a fixed
    constant.
* Execution.ShiftLeft claims a result only where every C++ standard
  before C++20 defines `<<` on `int32_t`: a non-negative value whose
  product with 2^count fits `int32_t`. C++14 also defines products up to
  2^32 - 1, and C++20 defines every shift by 0..31 as the bit pattern
  modulo 2^32. The model leaves those shifts `Undefined`, because the
  sources name no language standard. Where it does give a value, that
  value is the C++20 one too (InstructionSemantics.ShiftLeftMeaning).
* Text.ScanHex follows the C library reading of a `0x` prefix with no
  digit after it: the 0 alone is the value. Locale-specific digits are
  not modelled.
* Registers.Register's `operator==` and `operator!=` compare the stored
  values. The model writes them as Dafny's `==` and `!=` on the values in
  Execution.Execute, and gives them no members of their own.
* Emulator.DLXMachine: the C++ program counter is a `Register` holding a
  signed 32-bit value, so `pc += 4` past 2^31-1 is signed overflow. The
  model keeps the program counter as an unsigned 32-bit value that wraps.
* `Registers()` and `ConstRegisters()` are one array in the model.
* Emulator.DLXMachine.Run takes a fuel bound, and a run that uses up its
  fuel ends with `Exhausted`. The self test's run is proved to halt well
  within its bound.
* MemoryUnit.Memory.constructor requires `start <= end`. A reversed range
  would make the C++ allocate a wrapped-around size.
* Loads and stores, `trap`, `rfe` and the floating-point format have empty
  bodies in the C++. The model gives them no effect, and the
  floating-point registers are not modelled.
* ObjectWriting.WriteBytes: the line address is unbounded, while the C++
  `size_t` would wrap after 2^64 bytes.
