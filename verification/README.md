# vehement in Dafny

A model of the vehement toolchain for a small 16-bit virtual machine. It has
five parts:

- **Instruction set.** Opcodes, mnemonics, registers and flag bits.
- **`Word` cell.** Unsigned, signed and half-float views of one 16-bit
  pattern, with the arithmetic operators.
- **Program header.** 13 bytes: the magic `BE EF CA FE`, the version, the
  endianness, 32-bit options and the static segment size.
- **Interpreter.** Both copies are modelled as one `Step` function with a
  `Variant`:
  - `Current` is vehement/VM.cs: twelve registers, comparisons and
    conditional jumps, `DUP`, and half-float arithmetic.
  - `Legacy` is VASM/VM.cs: eleven registers and a reduced opcode set.
  The interpreter also has run loops, the loader and state snapshots.
- **Assembler and disassembler.**
  - The assembler turns source text into cleaned lines. It splits them into
    a static segment and named sections, encodes each line, lays the
    sections out in map order and patches label references with section
    addresses. The image is header + static bytes + code.
  - The disassembler decodes the code after the header into text. It
    generates `_Label_n` names for jump and call targets and prints them
    before the instructions at those offsets.

Every C# exception is an `Err` of a `Result`. Fixed-width integers are
`int` subranges, and every truncating cast is written out (`Wrap16`,
`WrapS16`, `Wrap8`). .NET library calls are replaced by explicit
definitions: `Split`, `Trim`, `ToUpper`, `Convert.ToUInt16(s, 16)`, the
regular expressions, `{v:X}` formatting, `Encoding.ASCII` and
`SortedDictionary`.

The model follows the code where the code and its documentation differ:

- The opcodes are numbered consecutively, 0 to 44, in declaration order. No
  bits of the opcode byte encode the operand shape.
- A write into the read-only program segment halts the machine and still
  stores both bytes (vehement/VM.cs:81-93).
- Sections are laid out and linked in sorted-name order, because both maps
  are `SortedDictionary` (VASM/Assembler.cs:15-16, 33-63).
- `MOV [addr] reg` encodes the register byte from the destination token, not
  the source (VASM/Assembler.cs:265).
- `IsSpecialRegister` compares with `"RBP"`, without the dollar sign, so
  `$RBP` is not a register operand (VASM/Assembler.cs:304).

## Model

| member | source | states |
|---|---|---|
| IsaFacts.DecodeOpInvertsCode | VehmCommon/Ops.cs:96-156 | Decoding the byte of any opcode gives that opcode back, and every opcode byte is below 45. |
| IsaFacts.CodeInvertsDecodeOp | VehmCommon/Ops.cs:96-156 | A byte names an opcode exactly when it is below 45 (`Enum.IsDefined`), and then encoding that opcode gives the byte back. |
| IsaFacts.CodeInjective | VehmCommon/Ops.cs:96-156 | Distinct opcodes have distinct byte values. |
| IsaFacts.MovFamilyIsMov | VehmCommon/Ops.cs:9-12 | All four MOV opcodes map to the mnemonic `MOV`. |
| IsaFacts.MnemonicMapNotInjective | VehmCommon/Ops.cs:16-35 | Integer and half-float arithmetic share mnemonics, and all eight unsigned and float comparisons print as `CMP`. |
| IsaFacts.MissingMnemonics | VehmCommon/Ops.cs:5-61 | `GetMnemonic` fails exactly for the opcodes missing from the mnemonic table: the four signed arithmetic and the four signed comparison opcodes. |
| IsaFacts.OwnMnemonicsDistinct | VehmCommon/Ops.cs:5-56 | An opcode whose mnemonic no other opcode uses is the only opcode with that mnemonic. |
| IsaFacts.SoleOpOfOwn | VehmCommon/Ops.cs:5-56 | The mnemonic-to-opcode lookup inverts `GetMnemonic` on opcodes that own their mnemonic. |
| IsaFacts.SoleOpInverts | VehmCommon/Ops.cs:5-56 | Whenever the reverse lookup answers, it answers with the opcode the mnemonic came from. |
| IsaFacts.RegisterIndices | VehmCommon/Reg.cs:4-18 | The twelve registers have indices 0 to 11 in order. `Pc`, `Sp`, `Sb` and `Flags` are 8 to 11. The backups of `Sb`, `Sp` and the return address are `Reg6` to `Reg8` (indices 5 to 7, vehement/VM.cs:11-13). |
| IsaFacts.FlagsAreBits | VehmCommon/Reg.cs:20-31 | Each flag is a single distinct bit of a byte. Equal is bit 0, less-than bit 1 and greater-than bit 2. |
| IsaFacts.FlagsFillByte | VehmCommon/Reg.cs:20-31 | The eight flags cover bits 0 to 7, and their masks sum to 0xFF. |
| Bytes.SplitJoin | VASM/Assembler.cs:283 | Splitting a word into low and high bytes and joining them back gives the word. |
| Bytes.JoinSplit | vehement/VM.cs:95-100 | Joining two bytes as `hi << 8 \| lo` and splitting the result gives both bytes back. |
| Bytes.SetBit | vehement/VM.cs:64-74 | Adding `2^k` to a number whose bit `k` is clear sets bit `k` and leaves every other bit as it was. |
| Bytes.ClearBit | vehement/VM.cs:64-74 | Subtracting `2^k` from a number whose bit `k` is set clears bit `k` and leaves every other bit as it was. |
| Words.FromUShort | VehmCommon/Word.cs:111-114 | The unsigned view of the built word is the value, with the requested tag. |
| Words.FromShort | VehmCommon/Word.cs:106-109 | The signed view of the built word is the value, with the requested tag. |
| Words.FromBytes | VehmCommon/Word.cs:116-119 | `Low` and `High` of the built word are the two bytes, and its unsigned value is `low + 256 * high`. |
| Words.Quotient | VehmCommon/Word.cs:81-92 | Integer division fails exactly on a zero divisor and never for the half-float tag. The result keeps the left tag. It truncates toward zero, in the unsigned or the signed view as the tag says. |
| WordFacts.ViewsOverlay | VehmCommon/Word.cs:20-36 | The signed view is the unsigned one shifted down by 2^16 exactly when the top bit is set. Both agree modulo 2^16, and the `int` conversion is the unsigned view. |
| WordFacts.IntegerArithIsModular | VehmCommon/Word.cs:38-78 | Under either integer tag, `+`, `-` and `*` give `(left.bits op right.bits) mod 2^16`, and the result keeps the left tag. |
| WordFacts.SignedUnsignedSameBits | VehmCommon/Word.cs:38-78 | Signed and unsigned `+`, `-` and `*` produce the same 16 bits. |
| WordFacts.RightTagIgnored | VehmCommon/Word.cs:38-92 | The operator variant depends only on the left tag: two right operands with equal bits give equal results. |
| WordFacts.BytesRoundTrip | VehmCommon/Word.cs:30-31 | Rebuilding a word from its `Low` and `High` bytes and its tag gives the word back. |
| ProgramHeaders.ToBytes | VehmCommon/Header.cs:21-38 | The header is 13 bytes: the magic, then the version, endianness and static size at their little-endian positions. |
| ProgramHeaders.MatchMagic | VehmCommon/Header.cs:55-56 | The short-circuit magic test succeeds exactly when the first four bytes are the magic. It throws exactly when the input is a proper prefix of the magic. |
| ProgramHeaders.FromBytes | VehmCommon/Header.cs:53-73 | Parsing fails, with `ArgumentOutOfRange` as the indexer of a byte array throws, exactly on an input of fewer than 13 bytes that starts like the magic. It gives null exactly when the magic differs. Otherwise it reads every field and sets `SizeBytes` to 13. |
| HeaderFacts.OptionsBytesReassemble | VehmCommon/Header.cs:29-32 | The four option bytes written by `ToBytes` reassemble into the 32-bit options value, including negative options. |
| HeaderFacts.HeaderRoundTrip | VehmCommon/Header.cs:21-73 | Parsing a serialised header, whatever follows it, gives back every field, with `SizeBytes` 13. |
| HeaderFacts.FromBytesIgnoresTrailing | VehmCommon/Header.cs:53-73 | Parsing reads only the first 13 bytes. |
| HeaderFacts.MagicDecides | VehmCommon/Header.cs:55-56 | With at least 13 bytes, parsing never throws, and it yields null exactly when the magic differs. |
| Machine.SetReg | vehement/VM.cs:157-160 | Writing a register keeps the register count, the memory size and the layout. |
| Machine.WriteRegister | vehement/VM.cs:157-160 | Writing succeeds exactly for an index inside the register array, and changes only that register. |
| Machine.Read16 | vehement/VM.cs:95-100 | A word read succeeds exactly when both bytes lie inside memory. |
| Machine.Write16 | vehement/VM.cs:81-93 | A write succeeds exactly when both bytes lie inside memory. It stores the low and high byte and halts the machine when the address lies in a read-only program segment. |
| Machine.ProgramByte | vehement/VM.cs:77 | Reading byte `k` of the program span succeeds exactly when the span fits memory and `k` lies inside it, and then gives the memory byte at the program offset plus `k`. |
| Machine.AdvancePc | vehement/VM.cs:179 | Advancing `Pc` keeps the shape of the machine. |
| Machine.SetFlag | vehement/VM.cs:64-74 | Setting or clearing one flag makes that flag read back as the value and leaves every other flag as it was. |
| Machine.SetFlagBits | vehement/VM.cs:68 | OR-ing a clear flag's mask into the flags byte sets exactly that bit and stays below 256. |
| Machine.ClearFlagBits | vehement/VM.cs:72 | AND-ing out a set flag's mask clears exactly that bit. |
| Machine.Step | vehement/VM.cs:162-167 | A halted machine is returned unchanged. A malformed register file is an index error. A `Pc` outside the executable range is refused. A successful step keeps the register count and memory size. |
| Machine.Execute | vehement/VM.cs:176-430 | Every implemented opcode's case keeps the shape of the machine. |
| Machine.InitialLayout | vehement/VM.cs:471-485 | The program sits at 0 and spans the whole input. The stack follows with 4096 bytes, and the heap runs to the end of the 65535-byte memory. The static size comes from the header, and both protections are on. |
| Machine.LoadedHeader | vehement/VM.cs:501-510 | Loading fails exactly when the header cannot be parsed, with `ArgumentOutOfRange` as the indexer throws. Otherwise the header is the parsed one, or the default one when the magic does not match, and it fits the input. |
| Machine.Load | vehement/VM.cs:499-516 | Loading succeeds exactly when the header parses and the code fits memory. A truncated header is `ArgumentOutOfRange`; code too large for memory is the `ArgumentException` of `Array.Copy`. Memory then holds the code minus its header at address 0 and zeros after it. `Pc` is the static size and every other register is 0. |
| Machine.RunUntilHalt | vehement/VM.cs:463-469 | An answer that is a machine is a halted machine. |
| MachineFacts.StepDispatch | vehement/VM.cs:169-176 | Past the halted and `Pc` checks, a step fetches the opcode byte. An unknown or unimplemented byte is an "unrecognized instruction" error, and an implemented one runs its case. |
| MachineFacts.CurrentUnimplemented | vehement/VM.cs:176-430 | The current interpreter has no case for exactly the signed arithmetic, the signed and float comparisons, `JUMP_ZERO`, `JUMP_NOT_ZERO` and `PRINT`. |
| MachineFacts.LegacyIsSubset | VASM/VM.cs:151-310 | Every opcode the legacy interpreter runs, the current one runs too. The new ones are exactly `DUP`, half-float arithmetic, the four comparisons and the six conditional jumps. |
| MachineFacts.PcAtProgramEnd | VASM/VM.cs:143-146 | At `Pc == ProgramSize` the current machine refuses the `Pc` (vehement/VM.cs:166). The legacy check `Pc > ProgramSize` lets it through, and the fetch then fails. |
| MachineFacts.LegacyHasNoFlagsRegister | VASM/VM.cs:14 | With eleven registers, reading or writing the flags index fails, while every lower index works. |
| MachineFacts.HaltedStaysPut | vehement/VM.cs:454-469 | A halted machine is unchanged by a step, by any run of steps and by running until halt. |
| MachineFacts.HaltOnlyHalts | vehement/VM.cs:425-427 | `HALT` sets the halted flag and changes nothing else, not even `Pc`. |
| MachineFacts.WriteThenRead | vehement/VM.cs:81-100 | Reading a word just written at the same address gives it back. |
| MachineFacts.WriteElsewhere | vehement/VM.cs:81-100 | A write that touches neither byte of another address leaves the read there unchanged. |
| MachineFacts.StoreIntoProgramHalts | vehement/VM.cs:353-365 | `MOV [addr] reg` aimed into the read-only program segment halts the machine, and the word is still stored. |
| MachineFacts.StepRuns | vehement/VM.cs:169-176 | Past the checks, an implemented opcode byte runs exactly that opcode's case. |
| MachineFacts.MovMemRegEffect | vehement/VM.cs:353-365 | `MOV [addr] reg` stores the register's word at the address it names. It halts exactly when the address is in a read-only program segment. |
| MachineFacts.ArithIsWordArith | vehement/VM.cs:214-309 | `ADD`, `SUB`, `MUL` and `DIV` compute what the unsigned `Word` operators compute. `DIV` fails exactly on a zero divisor. |
| MachineFacts.ArithFrame | vehement/VM.cs:214-309 | An arithmetic instruction writes its destination register with the computed value and advances `Pc` by 4. Memory and every other register are unchanged. |
| MachineFacts.WriteThenAdvance | vehement/VM.cs:330-376 | Writing one register and then advancing `Pc` changes that register only, also when the register is `Pc` itself. |
| MachineFacts.MovRegRegEffect | vehement/VM.cs:330-339 | `MOV reg reg` copies the source register into the destination and advances `Pc` by 3. Memory, layout, halted flag and every other register are unchanged. |
| MachineFacts.MovRegMemEffect | vehement/VM.cs:340-352 | `MOV reg [addr]` loads the word at the address into the destination and advances `Pc` by 4. Nothing else changes. |
| MachineFacts.MovRegMemWrites | vehement/VM.cs:340-352 | `MOV reg [addr]` is one register write followed by a 4-byte `Pc` advance. |
| MachineFacts.MovRegImmEffect | vehement/VM.cs:366-376 | `MOV reg imm` loads the operand word into the destination and advances `Pc` by 4. Nothing else changes. |
| MachineFacts.MovRegImmWrites | vehement/VM.cs:366-376 | `MOV reg imm` is one register write followed by a 4-byte `Pc` advance. |
| MachineFacts.MovToMissingRegisterFails | vehement/VM.cs:157-160 | A register move whose destination byte names no register fails. |
| MachineFacts.DivideByZeroFails | vehement/VM.cs:286-297 | Integer `DIV` by a zero register is a divide-by-zero error. |
| MachineFacts.CompareFlagsExact | vehement/VM.cs:317-320 | After a comparison exactly one of equal, greater-than and less-than is set, matching the relation of the two words. The other five flags keep their values, and the high byte of the register is cleared. |
| MachineFacts.CompareEffect | vehement/VM.cs:310-329 | A comparison succeeds exactly when reading its operands does. It then sets the flags register from the two words, advances `Pc` by 1 plus the operand width, and changes nothing else. |
| MachineFacts.CmpReadsStack | vehement/VM.cs:522-526 | `CMP` compares the word at stack offset `Sp - 4` with the word at `Sp - 2`, both wrapped to 16 bits, and has no operand bytes. |
| MachineFacts.CmpRegRegReads | vehement/VM.cs:539-544 | `CMP reg reg` compares the two registers over two operand bytes. |
| MachineFacts.CmpRegMemReads | vehement/VM.cs:533-538 | `CMP reg [addr]` compares the register with the word at the address over three operand bytes. |
| MachineFacts.CmpMemRegReads | vehement/VM.cs:527-532 | `CMP [addr] reg` compares the word at the address with the register over three operand bytes. |
| MachineFacts.JumpFollowsCompare | vehement/VM.cs:438-452 | After comparing `x` with `y`, `JUMP` is always taken. Each conditional jump is taken exactly when its relation between `x` and `y` holds. |
| MachineFacts.JumpTaken | vehement/VM.cs:384-393 | A taken jump loads its operand word into `Pc` and changes nothing else. |
| MachineFacts.JumpNotTaken | vehement/VM.cs:394-400 | A jump not taken skips its operand without reading it, advancing `Pc` by 3. |
| MachineFacts.PushEffect | vehement/VM.cs:181-191 | `PUSH r` stores `r` at stack offset `Sp`, adds 2 to `Sp` and to `Pc`, and keeps the layout and every other register. |
| MachineFacts.PopEffect | vehement/VM.cs:192-202 | `POP s` subtracts 2 from `Sp`, loads the word now at stack offset `Sp` into `s`, and advances `Pc` by 2. |
| MachineFacts.PushPopRoundTrip | vehement/VM.cs:181-202 | `PUSH r` followed by `POP s` copies `r` into `s` and puts `Sp` back. |
| MachineFacts.PopAfterPush | vehement/VM.cs:192-202 | The `POP` half of that round trip, from what `PUSH` establishes. |
| MachineFacts.DupCopiesTop | vehement/VM.cs:203-213 | `DUP` copies the top word one slot up, keeps the original and grows the stack by one word. |
| MachineFacts.CallRetRoundTrip | vehement/VM.cs:402-424 | `CALL` jumps to its operand with `Sb = Sp` and the old `Sb`, `Sp` and return address `Pc + 3` in registers 6 to 8. `RET` then returns to `Pc + 3` with `Sb` and `Sp` restored. Every register other than `Pc` and the three backup registers is as before. |
| MachineFacts.RunComposes | vehement/VM.cs:454-461 | Running `a` steps and then `b` more is running `a + b` steps. |
| MachineFacts.RunKeepsShape | vehement/VM.cs:454-461 | A run keeps a well-formed machine well-formed, with the same register count and memory size. |
| MachineFacts.RunUntilHaltAgrees | vehement/VM.cs:463-469 | With `fuel` steps, running until halt answers exactly when `RunInstructions(fuel)` halts or fails, and then with the same result. |
| MachineFacts.RunUntilHaltMonotone | vehement/VM.cs:463-469 | More fuel never changes an answer already given. |
| Snapshots.Create | vehement/VM.Snapshotting.cs:28-46 | A snapshot's halted field is never set. |
| Snapshots.Restore | vehement/VM.Snapshotting.cs:56-70 | Restoring keeps the live halted flag and the live "no execution outside the program" setting. |
| Snapshots.RestoreAfterCreate | vehement/VM.Snapshotting.cs:28-70 | Restoring a snapshot of `saved` into `live` gives `saved` back, except for the halted flag and the commented-out execution setting. It gives exactly `saved` when those two agree. |
| Snapshots.RestoreReplays | vehement/VM.Snapshotting.cs:28-70 | When those two parts agree, a restored machine runs exactly as the saved one would. |
| Snapshots.CreateAfterRestore | vehement/VM.Snapshotting.cs:28-70 | A snapshot of a restored machine is the restored snapshot, up to the one layout setting restore does not copy. |
| Snapshots.RestoreKeepsHalt | vehement/VM.Snapshotting.cs:56-70 | Restoring never un-halts a halted machine, so it stays put. |
| SortedMaps.Get | VASM/Assembler.StaticData.cs:26 | A lookup fails exactly for a missing key, and a found value is stored under that key. |
| SortedMaps.Insert | VASM/Assembler.StaticData.cs:31 | Insertion adds exactly one entry. |
| SortedMaps.Add | VASM/Assembler.StaticData.cs:31 | `Add` refuses a key already present and otherwise adds exactly the new entry. |
| SortedMapFacts.InsertKeepsSorted | VASM/Assembler.StaticData.cs:21 | Inserting a new key keeps the keys strictly increasing. |
| SortedMapFacts.InsertGreatest | VASM/Assembler.StaticData.cs:21 | A key that follows every present key is appended at the end. |
| SortedMapFacts.GetAfterInsert | VASM/Assembler.StaticData.cs:21 | A lookup after an insertion sees the new entry under its key and the old map elsewhere. |
| SortedMapFacts.SortedIsCanonical | VASM/Assembler.cs:15-16 | Two sorted maps with the same entries are the same sequence, so enumeration order does not depend on insertion order. |
| SortedMapFacts.SortedKeysDistinct | VASM/Assembler.cs:15-16 | The keys of a sorted map are distinct. |
| SortedMapFacts.OrdinalIsStrictTotalOrder | VASM/Assembler.cs:15-16 | The ordinal comparison of strings is a strict total order. |
| Statics.Add | VASM/Assembler.StaticData.cs:29-33 | `Add` fails exactly on a duplicate identifier. Otherwise the new entries are the old ones plus exactly one entry for the item, stored with the old size as its offset, and the size grows by the item's length. |
| Statics.GetOffset | VASM/Assembler.StaticData.cs:24-27 | The lookup fails exactly for an unknown identifier, and otherwise gives the offset recorded for it. |
| StaticsFacts.ConcatAppend | VASM/Assembler.StaticData.cs:22 | The bytes of two item runs are the bytes of the first, then those of the second. |
| StaticsFacts.ConcatInsertLength | VASM/Assembler.StaticData.cs:22 | Inserting an item adds exactly its byte count to `AllBytes`. |
| StaticsFacts.AddKeepsValid | VASM/Assembler.StaticData.cs:29-33 | `Add` keeps the segment valid: keys sorted, each item under its own identifier, and `size` equal to the length of `AllBytes`. |
| StaticsFacts.ItemAtOffset | VASM/Assembler.StaticData.cs:22-27 | Where offsets describe the layout, each item's bytes sit in `AllBytes` at its offset. |
| StaticsFacts.AddInOrder | VASM/Assembler.StaticData.cs:22-33 | Adding identifiers in increasing order keeps every recorded offset equal to the item's position in `AllBytes`. |
| StaticsFacts.OutOfOrderOffsets | VASM/Assembler.StaticData.cs:22-33 | Adding `b` and then `a` stamps `a` with offset 2, yet `AllBytes` puts `a` first: offsets and layout disagree. |
| Text.TrimStart | VASM/Assembler.cs:108 | The result is a suffix of the input. Only whitespace was dropped, and it starts with a non-whitespace character. |
| Text.TrimEnd | VASM/Assembler.cs:185 | The result is a prefix of the input. Only whitespace was dropped, and it ends with a non-whitespace character. |
| Text.TrimStartChar | VASM/Assembler.cs:108 | Only copies of the character were dropped from the front, and no copy remains first. |
| Text.TrimEndChar | VASM/Assembler.cs:148 | Only copies of the character were dropped from the end, and no copy remains last. |
| Text.Split | VASM/Assembler.cs:107 | There is at least one piece, and no piece contains the separator. |
| Text.CommentStart | VASM/Assembler.cs:185 | The position is the first `//` at or after the start, or the end of the string. |
| Text.BeforeComment | VASM/Assembler.cs:185 | `Split("//")[0]` is the longest prefix containing no `//`, cut exactly at the first one. |
| Text.ToUpper | VASM/Assembler.cs:196 | Upper-casing keeps the length and maps each character on its own. |
| Text.AsciiBytes | VASM/Assembler.cs:113 | One byte per character: its code below 0x80 and `?` otherwise. |
| Text.ParseHex | VASM/Assembler.cs:301 | A parsed value never exceeds the maximum and is the value of a non-empty hexadecimal suffix of the input. A plain run of hex digits within range parses to its value. |
| Text.HexUpper | VASM/Disassembler.cs:151 | `{v:X}` is a non-empty upper-case hexadecimal string with no leading zero, whose value is `v`. |
| Text.Decimal | VASM/Disassembler.cs:155 | `{n}` is a non-empty decimal string whose value is `n`. |
| TextFacts.JoinSplit | VASM/Assembler.cs:107-109 | Joining the pieces of a split with the same separator restores the string. |
| TextFacts.SplitJoin | VASM/Assembler.cs:107-109 | Splitting a join of separator-free pieces gives the pieces back. |
| TextFacts.FirstPiece | VASM/Assembler.cs:107-108 | The first piece of a split is the text before the first separator. |
| TextFacts.TrimIdempotent | VASM/Assembler.cs:185 | Trimming twice is trimming once, and a trimmed string has no whitespace at either end. |
| TextFacts.BlankIffTrimsToEmpty | VASM/Assembler.cs:186 | A string is blank exactly when trimming empties it. |
| TextFacts.ToUpperIdempotent | VASM/Assembler.cs:196 | Upper-casing twice is upper-casing once. |
| TextFacts.HexDigitsRoundTrip | VASM/Assembler.cs:301 | Parsing the `{v:X}` digits of a value within range gives the value back. |
| TextFacts.HexRoundTrip | VASM/Disassembler.cs:151 | A number printed as `0x{v:X}` and upper-cased by the assembler reads back as `v` through `ImmediateToUShort` (VASM/Assembler.cs:301). |
| TextFacts.HexValueBound | VASM/Assembler.cs:303 | Four hexadecimal digits or fewer always fit a 16-bit word. |
| TextFacts.DecimalInjective | VASM/Disassembler.cs:155 | Distinct numbers print as distinct decimals. |
| Assembly.SplitToBytes | VASM/Assembler.cs:283 | The two bytes join back to the value, low byte first. |
| Assembly.SpecialRegisterToByte | VASM/Assembler.cs:286-299 | It succeeds exactly for `$RBP`, `$RSP` and `$RPC`, which map to `Sb`, `Sp` and `Pc`. |
| Assembly.RegisterToByte | VASM/Assembler.cs:284 | A special register goes by name. A shorter name fails on the substring. Otherwise the hexadecimal number after the fourth character, as a byte, minus one with wrap-around. |
| Assembly.ImmediateToUShort | VASM/Assembler.cs:301 | Succeeds exactly when the text parses as hexadecimal within 16 bits, with that value. |
| Assembly.MemoryAddressToUShort | VASM/Assembler.cs:302 | The same conversion applied after the first character; an empty operand fails. |
| Assembly.Tokens | VASM/Assembler.cs:196 | No token is blank or contains a space. |
| Assembly.ThreeRegisters | VASM/Assembler.cs:203-218 | `ADD` and `MUL` emit exactly the opcode followed by the `RegisterToByte` bytes of the three operands, with no label. They fail when an operand is missing or `RegisterToByte` rejects it. |
| Assembly.OneRegister | VASM/Assembler.cs:234-239 | `PUSH` and `POP` succeed exactly when the one operand converts, emitting the opcode and the register byte. |
| Assembly.EncodeCall | VASM/Assembler.cs:219-230 | `CALL` of an immediate succeeds exactly when the immediate converts, and emits the opcode followed by the address low byte first. `CALL` of a label reference emits a placeholder at offset 1 to resolve. Any other operand emits nothing, and a missing operand fails. |
| Assembly.EncodeMov | VASM/Assembler.cs:240-270 | The operand shapes choose one of the four MOV opcodes, tried in the order of the source. Each branch succeeds exactly when its conversions do, and emits exactly the opcode and the converted operands: `reg reg` gives both register bytes, `reg imm` and `reg [addr]` the register byte then the value low byte first, and `[addr] reg` the address then `RegisterToByte` of the memory operand itself (line 265). No label is left to resolve. A missing operand fails, and any other shape pair is an invalid-operands error. |
| Assembly.Encode | VASM/Assembler.cs:192-280 | An empty line has no mnemonic and fails. `JUMP` emits its opcode and a two-byte placeholder for the label at offset 1, and fails without an operand. `RET` and `HALT` emit their opcode alone. `ADD`, `MUL`, `CALL`, `PUSH`, `POP` and `MOV` go to their encoders. Only `JUMP` and `CALL` leave a label to resolve, at offset 1 of three bytes. An unknown mnemonic emits nothing. |
| Assembly.AsmToBytecode | VASM/Assembler.cs:192-280 | The same facts for one source line, after upper-casing and splitting on spaces, including the exact bytes of `JUMP`, `RET` and `HALT`. |
| AssemblyFacts.AssembledMnemonic | VASM/Assembler.cs:196-273 | The first byte emitted for a line decodes to an opcode whose mnemonic is the line's first word. |
| Assembly.CleanLine | VASM/Assembler.cs:185 | A cleaned line contains no `//` and no character the raw line lacked. |
| Assembly.CleanLines | VASM/Assembler.cs:184-187 | The kept lines are no more than the raw ones; each is non-blank, comment-free and cleaned. |
| Assembly.CleanLinesWithout | VASM/Assembler.cs:184-187 | A character absent from every raw line is absent from every kept line. |
| Assembly.Normalize | VASM/Assembler.cs:182-187 | The prepared lines are non-blank, contain no newline and contain no `//`. |
| Assembly.StaticLine | VASM/Assembler.cs:103-123 | A static line succeeds exactly when its value is a string literal. Its bytes are a length byte (wrapped to 8 bits), then ASCII bytes below 0x80. |
| Assembly.LengthPrefixed | VASM/Assembler.cs:112-117 | One length byte, wrapped to 8 bits, followed by one ASCII byte per character. |
| Assembly.AddStaticLine | VASM/Assembler.cs:124 | A successful line grows the segment. |
| Assembly.StaticEnd | VASM/Assembler.cs:103 | The loop's stopping line: every line it passes starts with `$`, and the line it stops at, if any, does not. |
| Assembly.ParseStaticSegment | VASM/Assembler.cs:99-127 | On success the loop ends exactly at `StaticEnd`, so it consumes the whole run of `$` lines and nothing after it. The size never shrinks. |
| Assembly.SectionEnd | VASM/Assembler.cs:166-174 | A section runs to the next label line or the end, and contains no label line. |
| Assembly.ParseSections | VASM/Assembler.cs:129-164 | Parsing never loses sections or a static segment already collected. |
| Assembly.CompileSection | VASM/Assembler.cs:77-88 | Compiling a section succeeds exactly when every line compiles, giving one result per line in order. |
| Assembly.CompileSections | VASM/Assembler.cs:90-97 | Every section is compiled under its own name, in map order. |
| Assembly.Bases | VASM/Assembler.cs:32-40 | One address per section under its name. The first section starts right after the static bytes. |
| Assembly.Patch | VASM/Assembler.cs:46-59 | A result with no label is emitted as is. An unknown label fails. A known label's address is written little-endian over the placeholder, and the length is kept. |
| Assembly.EmitSection | VASM/Assembler.cs:44-62 | A section emits exactly as many bytes as its results hold. |
| Assembly.EmittedHeader | VASM/Assembler.cs:65-71 | Version 1, with the static size truncated to 16 bits. |
| AssemblyFacts.RegisterOperand | VASM/Assembler.cs:284 | `$REGd` is a register operand, and it converts to `d - 1` wrapped to a byte. |
| AssemblyFacts.RegisterOperandEdges | VASM/Assembler.cs:284 | `$REG0` wraps to 255, `$REG1` is `Reg1` and `$REG9` is `Pc`. |
| AssemblyFacts.SpecialRegisters | VASM/Assembler.cs:304 | `$RSP` and `$RPC` are recognised. `$RBP` is not a register operand and fails to convert. The dollar-less `RBP` passes the test and then fails in `SpecialRegisterToByte`. |
| AssemblyFacts.EncodedWidth | VASM/Assembler.cs:192-280 | Every non-empty encoding is one of the twelve (opcode, width) pairs the encoder emits. |
| AssemblyFacts.MovToMemoryUsesDestination | VASM/Assembler.cs:261-265 | `MOV $0X12 $REG3` encodes register byte 1, converted from the destination `$0X12`, instead of `$REG3`. |
| AssemblyFacts.MovToMemoryFourDigits | VASM/Assembler.cs:261-265 | With a four-digit address, the same conversion overflows a byte and the line fails. |
| AssemblyFacts.BasesArePrefixSums | VASM/Assembler.cs:32-40 | Each section's address is the start plus the sizes of the sections before it. |
| AssemblyFacts.SectionPlacement | VASM/Assembler.cs:43-63 | The second pass emits every section whole, back to back, at its address relative to the code. |
| AssemblyFacts.EmitSectionsLength | VASM/Assembler.cs:43-63 | The code is as long as all sections together. |
| AssemblyFacts.EmittedImage | VASM/Assembler.cs:18-75 | The image is the 13-byte header, then the static bytes, then the patched sections. |
| AssemblyFacts.EmittedHeaderDecodes | VASM/Assembler.cs:65-73 | The image's header parses back as version 1 with the static size. |
| AssemblyFacts.CompiledProgramImage | VASM/Assembler.cs:18-75 | The same facts for the program `EmitCompiledProgram` writes from its static data. |
| AssemblyFacts.ResultPlacement | VASM/Assembler.cs:44-62 | Within a section, result `i` is emitted after the bytes of the results before it. |
| AssemblyFacts.PlaceholderInSection | VASM/Assembler.cs:49-58 | Within a section, a result's placeholder holds the address of the section its label names. |
| AssemblyFacts.PlaceholderInCode | VASM/Assembler.cs:43-63 | The same in the emitted code, at the section's offset plus the result's. |
| AssemblyFacts.SectionInImage | VASM/Assembler.cs:18-75 | Section `j`'s bytes sit in the image at its address, counted from the start of the static segment, plus 13. |
| AssemblyFacts.LinkedReferenceReachesSection | VASM/Assembler.cs:18-75 | Linking is correct: the placeholder of a reference to section `j` holds `j`'s address, and the image holds `j`'s code there. |
| AssemblyFacts.LoadEmittedImage | vehement/VM.cs:499-516 | Loading an assembled image succeeds exactly when static bytes and code fit memory. `Pc` then starts at the first code byte. |
| AssemblyFacts.ParseSectionsInvariant | VASM/Assembler.cs:129-174 | Parsing keeps the section map sorted and free of label lines. |
| AssemblyFacts.ParsedSectionsSorted | VASM/Assembler.cs:182-189 | Parsing a source from the start yields a sorted section map with distinct names. |
| AssemblyFacts.ParseStaticSegmentValid | VASM/Assembler.cs:99-127 | The static segment's loop keeps the segment valid. |
| Disassembly.Hex2 | VASM/Disassembler.cs:147 | `{b:X2}` has exactly two hexadecimal digits and the value `b`. |
| Disassembly.RenderArgs | VASM/Disassembler.cs:139-166 | The only failure is an index error. On success it consumes exactly the operands' bytes, makes one label per label operand, and names them `_Label_{n}` with consecutive `n`. |
| Disassembly.DecodeFrom | VASM/Disassembler.cs:120-170 | Decoding covers the rest of the program exactly, every instruction takes at least one byte, and labels are numbered consecutively. Past the end the listing is empty. A byte that is not an opcode is `InvalidOpCode` of that byte, and an opcode missing from the operand table is `KeyNotFound`. |
| Disassembly.Start | VASM/Disassembler.cs:213-229 | Decoding starts at 0 without a header and past the header and static segment with one. It fails exactly when the header cannot be read, with `ArgumentOutOfRange`. |
| Disassembly.Rows | VASM/Disassembler.cs:190-202 | One row per instruction, in order. A label is printed only before the instruction at its target offset. |
| Disassembly.Disassemble | VASM/Disassembler.cs:120-206 | Disassembly succeeds exactly when the start is found and the decoding loop succeeds. |
| DisassemblyFacts.RenderArgsOk | VASM/Disassembler.cs:139-166 | Reading the operands succeeds exactly when they fit the program and every register byte names a printed register. |
| DisassemblyFacts.FirstInstruction | VASM/Disassembler.cs:126-137 | A decoded instruction's opcode is in the table, and its size is one plus its operand bytes. |
| DisassemblyFacts.LabelNamesDistinct | VASM/Disassembler.cs:155-157 | Every generated label has its own name, so adding it to `_labelRefs` never throws. |
| DisassemblyFacts.SortByTargetSorted | VASM/Disassembler.cs:179 | The label order is sorted by target. |
| DisassemblyFacts.SortByTargetPermutes | VASM/Disassembler.cs:179 | No label is lost or added by the sort. |
| DisassemblyFacts.SortByTargetStable | VASM/Disassembler.cs:179 | Labels with the same target keep the order in which they were made. |
| DisassemblyFacts.PrintedInOrder | VASM/Disassembler.cs:190-202 | The printed labels are a run of the sorted order, starting at the next unprinted one. |
| DisassemblyFacts.EveryLabelPrinted | VASM/Disassembler.cs:190-202 | When targets are distinct and each is an instruction offset, every remaining label is printed, in order. |
| DisassemblyFacts.PassedLabelBlocks | VASM/Disassembler.cs:192 | Once the offset has moved past the next label's target, no further label is printed. |
| DisassemblyFacts.SharedTargetBlocks | VASM/Disassembler.cs:192-197 | When two labels share a target, at most one label is printed from there on. |
| DisassemblyFacts.ListingPrintsEveryLabel | VASM/Disassembler.cs:177-205 | A listing whose targets are distinct instruction offsets prints every label exactly once, in target order. |
| DisassemblyFacts.StartLabelFirst | VASM/Disassembler.cs:184-188 | Unless the start section is implicit, the listing opens with `_start:`. |
| Agreement.EncodedWidthMatchesTable | VASM/Disassembler.cs:86-110 | Every instruction the assembler emits has an opcode in the disassembler's table, whose operands take exactly the rest of the encoding. |
| Agreement.ArithWidthMatchesPcAdvance | VASM/Disassembler.cs:95-98 | For `ADD`, `SUB`, `MUL` and `DIV` whose destination is not `Pc`, the interpreter advances `Pc` by the width the disassembler gives. |
| Agreement.MovRegRegWidthMatchesPcAdvance | VASM/Disassembler.cs:93 | The same for `MOV reg reg` with a destination other than `Pc` (vehement/VM.cs:334). |
| Agreement.MovRegMemWidthMatchesPcAdvance | VASM/Disassembler.cs:91 | The same for `MOV reg [addr]` with a destination other than `Pc` (vehement/VM.cs:347). |
| Agreement.MovMemRegWidthMatchesPcAdvance | VASM/Disassembler.cs:90 | The same for `MOV [addr] reg` (vehement/VM.cs:360). |
| Agreement.MovRegImmWidthMatchesPcAdvance | VASM/Disassembler.cs:92 | The same for `MOV reg imm` with a destination other than `Pc` (vehement/VM.cs:372). |
| Agreement.PushWidthMatchesPcAdvance | VASM/Disassembler.cs:103 | The same for `PUSH` (vehement/VM.cs:186). |
| Agreement.PopWidthMatchesPcAdvance | VASM/Disassembler.cs:104 | The same for `POP` into a register other than `Pc` (vehement/VM.cs:197). |
| Agreement.EncodedArithRuns | VASM/Assembler.cs:203-218 | Once the bytes the assembler emits for `ADD` or `MUL` sit at `Pc`, one step of the interpreter (vehement/VM.cs:214-225, 262-273) stores the sum or product of the two source registers in the destination register and advances `Pc` by 4, for a destination other than `Pc`. Memory, the halted flag and every other register stay the same. |
| Agreement.EncodedMovRegRegRuns | VASM/Assembler.cs:244-248 | The emitted `MOV reg reg` copies the source register into the destination and advances `Pc` by 3, changing nothing else (vehement/VM.cs:330-339). |
| Agreement.EncodedMovRegImmRuns | VASM/Assembler.cs:249-254 | The emitted `MOV reg imm` loads the immediate into the destination and advances `Pc` by 4, changing nothing else (vehement/VM.cs:366-376). |
| Agreement.EncodedMovRegMemRuns | VASM/Assembler.cs:255-260 | The emitted `MOV reg [addr]` loads the word at the address into the destination and advances `Pc` by 4, changing nothing else (vehement/VM.cs:340-352). |
| Agreement.EncodedMovMemRegRuns | VASM/Assembler.cs:261-266 | Whenever the emitted `MOV [addr] reg` runs, the word stored at the address is the register named by `RegisterToByte` of the memory operand, not the source register (vehement/VM.cs:353-365). |
| Agreement.EncodedPushRuns | VASM/Assembler.cs:234-236 | The emitted `PUSH reg` stores that register's word at the stack top, raises `Sp` by 2 and advances `Pc` by 2 (vehement/VM.cs:181-191). |
| Agreement.EncodedPopRuns | VASM/Assembler.cs:237-239 | The emitted `POP reg` into a register other than `Pc` and `Sp` loads the word below `Sp` into that register, lowers `Sp` by 2 and advances `Pc` by 2 (vehement/VM.cs:192-202). |
| Agreement.EncodedCallRuns | VASM/Assembler.cs:221-225 | The emitted `CALL imm` jumps to the immediate and leaves the return address `Pc + 3` in the return-address register (vehement/VM.cs:402-415). |
| Agreement.PatchedTransferRuns | VASM/Assembler.cs:200-229 | A `JUMP` or `CALL` to a label, once its placeholder is patched with the section's base address, sets `Pc` to that address (vehement/VM.cs:377-415). |
| Agreement.EncodedBareRuns | VASM/Assembler.cs:231-233 | The emitted `RET` restores `Sb` and `Sp` from their backup registers and `Pc` from the return-address register, and the emitted `HALT` only sets the halted flag (vehement/VM.cs:416-428). |
| Agreement.GeneralRegisterNamesRoundTrip | VASM/Disassembler.cs:73 | The disassembler's names for the eight general registers read back, once upper-cased, as the same register bytes through `RegisterToByte`. |
| Agreement.SpecialRegisterNamesDisagree | VASM/Disassembler.cs:73 | `$rsp` (byte 9) reads back as 9. `$rbp` (byte 8) fails to read back. `$rpc` (byte 10) reads back as 8, because the printed labels put `Sb` where the register enum has `Pc`. |

## Left out

- Console output is not modelled. This covers the `VERBOSE` traces, `Debug.WriteLine`, the `PRINT` opcode (which neither interpreter implements) and `Console.WriteLine` on an illegal write.
- File and process I/O are not modelled: `Assembler.FromFile`, the two `Program.cs` entry points and the `TestFibo` demo program.
- The `OnBeforeStep` / `OnAfterStep` hooks are not modelled. They register callbacks that `Step` never calls.
- `HeapRead8/16`, `HeapWrite8/16`, `StackRead8` and `StackWrite8` are not modelled. They are thin wrappers no instruction uses.
- `DisassembleStaticSegment` is not modelled. It is a stub that prints a fixed `.static` header and is never called.
- The disassembler's unused `_sections`, `_staticRefs` and `_mainSection` bookkeeping is not modelled. Only the instruction list and the label list it feeds are modelled.
- `Debug.Assert` checks on operand counts are modelled as release builds behave. A missing operand is an index error and extra operands are ignored.
- Machine.Step: any error returns a bare `Err` and discards the state. The C# code can leave a partly mutated machine behind the exception:
  - `Write16` sets `_halted` and may store the low byte before the high byte's store throws (vehement/VM.cs:85, 91-92).
  - `POP` does `Sp -= 2` before `StackRead16` can throw (vehement/VM.cs:194).
  - No caller catches these exceptions.
- Machine.RunUntilHalt: the C# loop never returns on a program that never halts. The model takes a `fuel` bound and answers `None` when the fuel runs out before a halt. `RunUntilHaltAgrees` and `RunUntilHaltMonotone` relate it to `RunInstructions`.
- Machine.Step: the arithmetic behind `ADDF`, `SUBF`, `MULF` and `DIVF` is the `HalfOps` parameter, not IEEE 754 binary16. `System.Half` is foreign code, so only the bit-pattern plumbing around it is modelled. The same parameter serves the `F16` branches of `Words.Plus`, `Words.Minus`, `Words.Times` and `Words.Quotient`.
- Words.Plus: the contract of the integer branches restates the cast. Callers should rely on `WordFacts.IntegerArithIsModular` and `WordFacts.SignedUnsignedSameBits`. The same holds for `Words.Minus` and `Words.Times`.
- Text.ToUpper: only ASCII letters are upper-cased. .NET's culture-sensitive `ToUpper` (VASM/Assembler.cs:137, 148, 196) also maps non-ASCII letters, so section names and tokens that contain them may compare differently from the model.
- Text.IsWhiteSpace: the Unicode White_Space characters are listed explicitly, and `\d` in the register pattern is read as an ASCII digit only (.NET's `\d` also matches other Unicode decimal digits).
- SortedMaps.Insert: `SortedDictionary` with the default culture-sensitive string comparer is modelled as an association list over an abstract strict total order `lt`. Culture collation is foreign code. `SortedMaps.Ordinal` is one instance that is proved to qualify.
- Disassembly.Joined: `AppendLine` is modelled as appending `"\n"`. The platform newline of `Environment.NewLine` is not modelled.
- Snapshots.Create: snapshots are immutable values, not objects holding cloned arrays (vehement/VM.Snapshotting.cs:42-43). "Later steps never change a captured snapshot" holds by construction, so nothing about aliasing or freshness is proved.
- Snapshots.Restore: the same value semantics stand in for the `Clone()` calls on restore (vehement/VM.Snapshotting.cs:68-69).
- Dictionary enumeration order of `_labelRefs` is modelled as insertion order, which is what .NET's `Dictionary` gives when nothing is removed.
- Text.StartsWith: the static-segment test `StartsWith("$")` (VASM/Assembler.cs:103) is modelled as an ordinal comparison of the first character. .NET's default `StartsWith(string)` is culture-sensitive and skips ignorable code points, so a line that opens with, say, U+00AD SOFT HYPHEN before `$` counts as static data in C# but not in the model. Culture collation is foreign code.
