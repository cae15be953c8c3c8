/** Properties of the instruction-set tables. */
module IsaFacts {
  import opened Results
  import opened Bytes
  import opened Isa

  /** The enum values are the consecutive bytes `0..44` in declaration
      order: decoding inverts `Code`, and no byte from 45 up names an opcode. */
  lemma DecodeOpInvertsCode(op: Op)
    ensures DecodeOp(Code(op)) == Some(op)
    ensures Code(op) < OpCount
  {
    match op
    case Noop =>
    case MovRegImm =>
    case MovRegReg =>
    case MovRegMem =>
    case MovMemReg =>
    case Dup =>
    case Add =>
    case Sub =>
    case Mul =>
    case Div =>
    case AddS =>
    case SubS =>
    case MulS =>
    case DivS =>
    case AddF =>
    case SubF =>
    case MulF =>
    case DivF =>
    case Cmp =>
    case CmpRegReg =>
    case CmpRegMem =>
    case CmpMemReg =>
    case CmpF =>
    case CmpFRegReg =>
    case CmpFRegMem =>
    case CmpFMemReg =>
    case CmpS =>
    case CmpSRegReg =>
    case CmpSRegMem =>
    case CmpSMemReg =>
    case Jump =>
    case JumpZero =>
    case JumpNotZero =>
    case JumpEq =>
    case JumpNeq =>
    case JumpGt =>
    case JumpLt =>
    case JumpGeq =>
    case JumpLeq =>
    case Push =>
    case Pop =>
    case Call =>
    case Ret =>
    case Print =>
    case Halt =>
  }

  lemma CodeInvertsDecodeOp(b: byte)
    ensures DecodeOp(b).None? <==> b >= OpCount
    ensures DecodeOp(b).Some? ==> Code(DecodeOp(b).value) == b
  {
  }

  /** Distinct opcodes have distinct bytes. */
  lemma CodeInjective(a: Op, b: Op)
    ensures Code(a) == Code(b) ==> a == b
  {
    DecodeOpInvertsCode(a);
    DecodeOpInvertsCode(b);
  }

  /** All four `MOV_*` opcodes share the mnemonic `MOV`. */
  lemma MovFamilyIsMov()
    ensures MnemonicOf(MovRegImm) == MnemonicOf(MovRegReg) == MnemonicOf(MovRegMem)
         == MnemonicOf(MovMemReg) == Some(MOV)
  {
  }

  /** Float arithmetic shares the integer mnemonics and every compare maps to
      `CMP`, so the table is not injective. */
  lemma MnemonicMapNotInjective()
    ensures MnemonicOf(AddF) == MnemonicOf(Add) == Some(ADD)
    ensures MnemonicOf(SubF) == MnemonicOf(Sub) == Some(SUB)
    ensures MnemonicOf(MulF) == MnemonicOf(Mul) == Some(MUL)
    ensures MnemonicOf(DivF) == MnemonicOf(Div) == Some(DIV)
    ensures forall op | op in {Cmp, CmpRegReg, CmpRegMem, CmpMemReg, CmpF, CmpFRegReg, CmpFRegMem, CmpFMemReg} ::
              MnemonicOf(op) == Some(CMP)
  {
    CompareMnemonics();
  }

  /** Every compare opcode, integer or float, maps to `CMP`. */
  lemma CompareMnemonics()
    ensures forall op | op in {Cmp, CmpRegReg, CmpRegMem, CmpMemReg, CmpF, CmpFRegReg, CmpFRegMem, CmpFMemReg} ::
              MnemonicOf(op) == Some(CMP)
  {
  }

  /** The signed arithmetic and signed compare opcodes have no entry, so the
      lookup fails on exactly these. */
  lemma MissingMnemonics(op: Op)
    ensures MnemonicOf(op).None? <==>
            op in {AddS, SubS, MulS, DivS, CmpS, CmpSRegReg, CmpSRegMem, CmpSMemReg}
  {
  }

  /** The opcodes that have a mnemonic of their own. */
  predicate OwnMnemonic(op: Op) {
    match op
    case Noop | Dup | Jump | JumpZero | JumpNotZero | JumpEq | JumpNeq | JumpGt | JumpLt | JumpGeq | JumpLeq
       | Push | Pop | Call | Ret | Print | Halt => true
    case _ => false
  }

  /** Each jump variant, `PUSH`, `POP`, `CALL`, `RET`, `PRINT`, `HALT`, `NOOP`
      and `DUP` has its own mnemonic, shared with no other opcode. */
  lemma OwnMnemonicsDistinct(a: Op, b: Op)
    requires OwnMnemonic(a)
    ensures MnemonicOf(a).Some?
    ensures MnemonicOf(b) == MnemonicOf(a) ==> a == b
  {
    SoleOpOfOwn(a);
    SoleOpInverts(b);
  }

  /** The one opcode behind each mnemonic that is not shared. */
  function SoleOp(m: Mnemonic): Option<Op> {
    match m
    case NOOP => Some(Noop)
    case DUP => Some(Dup)
    case JUMP => Some(Jump)
    case JUMPZ => Some(JumpZero)
    case JUMPNZ => Some(JumpNotZero)
    case JUMPEQ => Some(JumpEq)
    case JUMPNEQ => Some(JumpNeq)
    case JUMPGT => Some(JumpGt)
    case JUMPLT => Some(JumpLt)
    case JUMPGEQ => Some(JumpGeq)
    case JUMPLEQ => Some(JumpLeq)
    case PUSH => Some(Push)
    case POP => Some(Pop)
    case CALL => Some(Call)
    case RET => Some(Ret)
    case PRINT => Some(Print)
    case HALT => Some(Halt)
    case _ => None
  }

  lemma SoleOpOfOwn(a: Op)
    requires OwnMnemonic(a)
    ensures MnemonicOf(a).Some? && SoleOp(MnemonicOf(a).value) == Some(a)
  {
  }

  lemma SoleOpInverts(b: Op)
    ensures MnemonicOf(b).Some? && SoleOp(MnemonicOf(b).value).Some? ==> SoleOp(MnemonicOf(b).value) == Some(b)
  {
  }

  /** `Reg1..Reg8` are 0..7, then `Pc`, `Sp`, `Sb`, `Flags` are 8..11. */
  lemma RegisterIndices()
    ensures forall i | 0 <= i < |AllRegs| :: RegIndex(AllRegs[i]) == i
    ensures |AllRegs| == 12
    ensures RegIndex(Pc) == 8 && RegIndex(Sp) == 9 && RegIndex(Sb) == 10 && RegIndex(Flags) == 11
    ensures SbBackup == 5 && SpBackup == 6 && ReturnAddress == 7
  {
  }

  /** The eight flags are distinct single bits that together fill a byte. */
  lemma FlagsAreBits(f: FlagsValue, g: FlagsValue)
    ensures FlagMask(f) == Pow2(FlagBit(f)) && FlagBit(f) < 8
    ensures f != g ==> FlagBit(f) != FlagBit(g)
    ensures FlagBit(CmpEqual) == 0 && FlagBit(CmpLessThan) == 1 && FlagBit(CmpGreaterThan) == 2
  {
    assert Pow2(7) == 128 by {
      assert Pow2(3) == 8;
    }
  }

  lemma FlagsFillByte()
    ensures |AllFlags| == 8
    ensures forall i | 0 <= i < 8 :: FlagBit(AllFlags[i]) == i
    ensures Sum(AllFlags) == 0xFF
  {
  }

  function Sum(fs: seq<FlagsValue>): nat {
    if fs == [] then 0 else FlagMask(fs[0]) + Sum(fs[1..])
  }
}
