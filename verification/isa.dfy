/** The instruction-set tables shared by the assembler, the interpreters and
    the disassembler: opcode bytes, mnemonics, register indices and flag bits
    (VehmCommon/Ops.cs and VehmCommon/Reg.cs). */
module Isa {
  import opened Results
  import opened Bytes

  /** Every opcode, in declaration order. The C# enum assigns them the
      consecutive byte values 0..44; no bits of the byte encode the operand
      shape. */
  datatype Op =
    | Noop
    | MovRegImm | MovRegReg | MovRegMem | MovMemReg
    | Dup
    | Add | Sub | Mul | Div
    | AddS | SubS | MulS | DivS
    | AddF | SubF | MulF | DivF
    | Cmp | CmpRegReg | CmpRegMem | CmpMemReg
    | CmpF | CmpFRegReg | CmpFRegMem | CmpFMemReg
    | CmpS | CmpSRegReg | CmpSRegMem | CmpSMemReg
    | Jump | JumpZero | JumpNotZero
    | JumpEq | JumpNeq | JumpGt | JumpLt
    | JumpGeq | JumpLeq
    | Push | Pop
    | Call | Ret
    | Print
    | Halt

  /** Number of defined opcodes. */
  const OpCount := 45

  /** The byte value of an opcode, `(byte)op`. */
  function Code(op: Op): byte {
    match op
    case Noop => 0
    case MovRegImm => 1
    case MovRegReg => 2
    case MovRegMem => 3
    case MovMemReg => 4
    case Dup => 5
    case Add => 6
    case Sub => 7
    case Mul => 8
    case Div => 9
    case AddS => 10
    case SubS => 11
    case MulS => 12
    case DivS => 13
    case AddF => 14
    case SubF => 15
    case MulF => 16
    case DivF => 17
    case Cmp => 18
    case CmpRegReg => 19
    case CmpRegMem => 20
    case CmpMemReg => 21
    case CmpF => 22
    case CmpFRegReg => 23
    case CmpFRegMem => 24
    case CmpFMemReg => 25
    case CmpS => 26
    case CmpSRegReg => 27
    case CmpSRegMem => 28
    case CmpSMemReg => 29
    case Jump => 30
    case JumpZero => 31
    case JumpNotZero => 32
    case JumpEq => 33
    case JumpNeq => 34
    case JumpGt => 35
    case JumpLt => 36
    case JumpGeq => 37
    case JumpLeq => 38
    case Push => 39
    case Pop => 40
    case Call => 41
    case Ret => 42
    case Print => 43
    case Halt => 44
  }

  /** The opcode a byte names, if any (`Enum.IsDefined` followed by the cast). */
  function DecodeOp(b: byte): Option<Op> {
    match b
    case 0 => Some(Noop)
    case 1 => Some(MovRegImm)
    case 2 => Some(MovRegReg)
    case 3 => Some(MovRegMem)
    case 4 => Some(MovMemReg)
    case 5 => Some(Dup)
    case 6 => Some(Add)
    case 7 => Some(Sub)
    case 8 => Some(Mul)
    case 9 => Some(Div)
    case 10 => Some(AddS)
    case 11 => Some(SubS)
    case 12 => Some(MulS)
    case 13 => Some(DivS)
    case 14 => Some(AddF)
    case 15 => Some(SubF)
    case 16 => Some(MulF)
    case 17 => Some(DivF)
    case 18 => Some(Cmp)
    case 19 => Some(CmpRegReg)
    case 20 => Some(CmpRegMem)
    case 21 => Some(CmpMemReg)
    case 22 => Some(CmpF)
    case 23 => Some(CmpFRegReg)
    case 24 => Some(CmpFRegMem)
    case 25 => Some(CmpFMemReg)
    case 26 => Some(CmpS)
    case 27 => Some(CmpSRegReg)
    case 28 => Some(CmpSRegMem)
    case 29 => Some(CmpSMemReg)
    case 30 => Some(Jump)
    case 31 => Some(JumpZero)
    case 32 => Some(JumpNotZero)
    case 33 => Some(JumpEq)
    case 34 => Some(JumpNeq)
    case 35 => Some(JumpGt)
    case 36 => Some(JumpLt)
    case 37 => Some(JumpGeq)
    case 38 => Some(JumpLeq)
    case 39 => Some(Push)
    case 40 => Some(Pop)
    case 41 => Some(Call)
    case 42 => Some(Ret)
    case 43 => Some(Print)
    case 44 => Some(Halt)
    case _ => None
  }

  /** The mnemonics of the assembly language. */
  datatype Mnemonic =
    | NOOP | MOV | DUP
    | ADD | SUB | MUL | DIV
    | CMP | JUMP | JUMPZ | JUMPNZ
    | JUMPEQ | JUMPNEQ | JUMPGT | JUMPLT | JUMPGEQ | JUMPLEQ
    | PUSH | POP | CALL | RET | PRINT | HALT

  /** `OpsMapper.GetMnemonic`: a dictionary lookup that fails for opcodes
      without an entry. */
  function MnemonicOf(op: Op): Option<Mnemonic> {
    match op
    case Noop => Some(NOOP)
    case MovMemReg => Some(MOV)
    case MovRegMem => Some(MOV)
    case MovRegImm => Some(MOV)
    case MovRegReg => Some(MOV)
    case Dup => Some(DUP)
    case Add => Some(ADD)
    case Sub => Some(SUB)
    case Mul => Some(MUL)
    case Div => Some(DIV)
    case AddF => Some(ADD)
    case SubF => Some(SUB)
    case MulF => Some(MUL)
    case DivF => Some(DIV)
    case Cmp => Some(CMP)
    case CmpF => Some(CMP)
    case CmpRegReg => Some(CMP)
    case CmpRegMem => Some(CMP)
    case CmpMemReg => Some(CMP)
    case CmpFRegReg => Some(CMP)
    case CmpFRegMem => Some(CMP)
    case CmpFMemReg => Some(CMP)
    case Jump => Some(JUMP)
    case JumpZero => Some(JUMPZ)
    case JumpNotZero => Some(JUMPNZ)
    case JumpEq => Some(JUMPEQ)
    case JumpNeq => Some(JUMPNEQ)
    case JumpGt => Some(JUMPGT)
    case JumpLt => Some(JUMPLT)
    case JumpGeq => Some(JUMPGEQ)
    case JumpLeq => Some(JUMPLEQ)
    case Push => Some(PUSH)
    case Pop => Some(POP)
    case Call => Some(CALL)
    case Ret => Some(RET)
    case Print => Some(PRINT)
    case Halt => Some(HALT)
    case _ => None
  }

  /** `Mnemonic.ToString()`: the enum member's name. */
  function MnemonicName(m: Mnemonic): string {
    match m
    case NOOP => "NOOP"
    case MOV => "MOV"
    case DUP => "DUP"
    case ADD => "ADD"
    case SUB => "SUB"
    case MUL => "MUL"
    case DIV => "DIV"
    case CMP => "CMP"
    case JUMP => "JUMP"
    case JUMPZ => "JUMPZ"
    case JUMPNZ => "JUMPNZ"
    case JUMPEQ => "JUMPEQ"
    case JUMPNEQ => "JUMPNEQ"
    case JUMPGT => "JUMPGT"
    case JUMPLT => "JUMPLT"
    case JUMPGEQ => "JUMPGEQ"
    case JUMPLEQ => "JUMPLEQ"
    case PUSH => "PUSH"
    case POP => "POP"
    case CALL => "CALL"
    case RET => "RET"
    case PRINT => "PRINT"
    case HALT => "HALT"
  }

  /** The register file's named slots (`Reg`). */
  datatype Reg = Reg1 | Reg2 | Reg3 | Reg4 | Reg5 | Reg6 | Reg7 | Reg8 | Pc | Sp | Sb | Flags

  /** Index of a register in the register file, `(int)reg`. */
  function RegIndex(r: Reg): nat {
    match r
    case Reg1 => 0
    case Reg2 => 1
    case Reg3 => 2
    case Reg4 => 3
    case Reg5 => 4
    case Reg6 => 5
    case Reg7 => 6
    case Reg8 => 7
    case Pc => 8
    case Sp => 9
    case Sb => 10
    case Flags => 11
  }

  const AllRegs: seq<Reg> := [Reg1, Reg2, Reg3, Reg4, Reg5, Reg6, Reg7, Reg8, Pc, Sp, Sb, Flags]

  /** The call convention's backup registers (`REGISTER_SB_BACKUP`,
      `REGISTER_SP_BACKUP`, `REGISTER_RETURN_ADDRESS`). */
  const SbBackup := RegIndex(Reg6)
  const SpBackup := RegIndex(Reg7)
  const ReturnAddress := RegIndex(Reg8)

  /** The `[Flags]` enum `FlagsValue`. */
  datatype FlagsValue =
    | CmpEqual | CmpLessThan | CmpGreaterThan | Interrupt
    | Reserved2 | Reserved3 | Reserved4 | Reserved5

  const AllFlags: seq<FlagsValue> :=
    [CmpEqual, CmpLessThan, CmpGreaterThan, Interrupt, Reserved2, Reserved3, Reserved4, Reserved5]

  /** The mask value of a flag as written in the enum. */
  function FlagMask(f: FlagsValue): byte {
    match f
    case CmpEqual => 0x01
    case CmpLessThan => 0x02
    case CmpGreaterThan => 0x04
    case Interrupt => 0x08
    case Reserved2 => 0x10
    case Reserved3 => 0x20
    case Reserved4 => 0x40
    case Reserved5 => 0x80
  }

  /** Bit position of a flag. */
  function FlagBit(f: FlagsValue): nat {
    match f
    case CmpEqual => 0
    case CmpLessThan => 1
    case CmpGreaterThan => 2
    case Interrupt => 3
    case Reserved2 => 4
    case Reserved3 => 5
    case Reserved4 => 6
    case Reserved5 => 7
  }
}
