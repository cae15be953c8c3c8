/** How the assembler, the disassembler and the interpreter agree (and
    where they do not): instruction widths, register names and the offsets
    the disassembler counts labels against. */
module Agreement {
  import opened Results
  import opened Bytes
  import opened Isa
  import IsaFacts
  import opened Text
  import opened Compilation
  import opened Assembly
  import AssemblyFacts
  import opened Disassembly
  import opened Words
  import opened Machine
  import MachineFacts
  import opened SortedMaps

  // ---------------------------------------------------------------------
  // Widths

  /** The disassembler's width of an opcode. */
  predicate TableWidth(code: seq<byte>) {
    && |code| > 0
    && DecodeOp(code[0]).Some?
    && Operands(DecodeOp(code[0]).value).Some?
    && |code| == 1 + ArgsSize(Operands(DecodeOp(code[0]).value).value)
  }

  lemma WidthOf(op: Op, code: seq<byte>)
    requires |code| > 0 && code[0] == Code(op)
    requires Operands(op).Some? && |code| == 1 + ArgsSize(Operands(op).value)
    ensures TableWidth(code)
  {
    IsaFacts.DecodeOpInvertsCode(op);
  }

  /** Every instruction the assembler emits has an opcode in the
      disassembler's table, and is exactly as long as the table says. */
  lemma EncodedWidthMatchesTable(tokens: seq<string>)
    requires Encode(tokens).Ok? && |Encode(tokens).value.bytecode| > 0
    ensures TableWidth(Encode(tokens).value.bytecode)
  {
    var code := Encode(tokens).value.bytecode;
    AssemblyFacts.EncodedWidth(tokens);
    EncodedWidthsMatchTable(code);
  }

  /** Every (opcode, width) pair the encoder can emit is one the table
      agrees with. */
  lemma EncodedWidthsMatchTable(code: seq<byte>)
    requires |code| > 0 && (code[0], |code|) in EncodedWidths
    ensures TableWidth(code)
  {
    var w := (code[0], |code|);
    if w in {(Code(Jump), 3), (Code(Add), 4), (Code(Mul), 4), (Code(Call), 3)} {
      BranchWidthsMatchTable(code);
    } else if w in {(Code(Ret), 1), (Code(Push), 2), (Code(Pop), 2), (Code(Halt), 1)} {
      StackWidthsMatchTable(code);
    } else {
      MoveWidthsMatchTable(code);
    }
  }

  lemma BranchWidthsMatchTable(code: seq<byte>)
    requires |code| > 0 && (code[0], |code|) in {(Code(Jump), 3), (Code(Add), 4), (Code(Mul), 4), (Code(Call), 3)}
    ensures TableWidth(code)
  {
    var w := (code[0], |code|);
    if w == (Code(Jump), 3) { WidthOf(Jump, code); }
    else if w == (Code(Add), 4) { WidthOf(Add, code); }
    else if w == (Code(Mul), 4) { WidthOf(Mul, code); }
    else { WidthOf(Call, code); }
  }

  lemma StackWidthsMatchTable(code: seq<byte>)
    requires |code| > 0 && (code[0], |code|) in {(Code(Ret), 1), (Code(Push), 2), (Code(Pop), 2), (Code(Halt), 1)}
    ensures TableWidth(code)
  {
    var w := (code[0], |code|);
    if w in {(Code(Ret), 1), (Code(Halt), 1)} { BareWidthsMatchTable(code); }
    else { RegisterWidthsMatchTable(code); }
  }

  lemma BareWidthsMatchTable(code: seq<byte>)
    requires |code| > 0 && (code[0], |code|) in {(Code(Ret), 1), (Code(Halt), 1)}
    ensures TableWidth(code)
  {
    if code[0] == Code(Ret) { WidthOf(Ret, code); } else { WidthOf(Halt, code); }
  }

  lemma RegisterWidthsMatchTable(code: seq<byte>)
    requires |code| > 0 && (code[0], |code|) in {(Code(Push), 2), (Code(Pop), 2)}
    ensures TableWidth(code)
  {
    if code[0] == Code(Push) { WidthOf(Push, code); } else { WidthOf(Pop, code); }
  }

  lemma MoveWidthsMatchTable(code: seq<byte>)
    requires |code| > 0 && (code[0], |code|) in {(Code(MovRegReg), 3), (Code(MovRegImm), 4), (Code(MovRegMem), 4), (Code(MovMemReg), 4)}
    ensures TableWidth(code)
  {
    var w := (code[0], |code|);
    if w == (Code(MovRegReg), 3) { WidthOf(MovRegReg, code); }
    else if w == (Code(MovRegImm), 4) { WidthOf(MovRegImm, code); }
    else if w == (Code(MovRegMem), 4) { WidthOf(MovRegMem, code); }
    else { WidthOf(MovMemReg, code); }
  }

  /** For the straight-line instructions both interpreters run, `Pc` moves
      on by exactly the disassembler's width (unless the instruction wrote
      `Pc` itself): arithmetic. */
  lemma ArithWidthMatchesPcAdvance(v: Variant, half: HalfOps, vm: Vm, op: Op)
    requires vm.WellFormed(v) && op in {Add, Sub, Mul, Div}
    requires ProgramByte(vm, vm.Pc() + 1) != Ok(PcIdx)
    requires ExecArith(vm, op, half).Ok?
    ensures Operands(op).Some?
    ensures ExecArith(vm, op, half).value.Pc() == Wrap16(vm.Pc() + 1 + ArgsSize(Operands(op).value))
  {
  }

  /** The same for `MOV reg reg` (unless the destination is `Pc`). */
  lemma MovRegRegWidthMatchesPcAdvance(vm: Vm)
    requires |vm.regs| > SbIdx && ProgramByte(vm, vm.Pc() + 1) != Ok(PcIdx)
    ensures Operands(MovRegReg).Some?
    ensures ExecMovRegReg(vm).Ok? ==> ExecMovRegReg(vm).value.Pc() == Wrap16(vm.Pc() + 1 + ArgsSize(Operands(MovRegReg).value))
  {
    if ExecMovRegReg(vm).Ok? {
      var reg := ProgramByte(vm, vm.Pc() + 1).value;
      var value := vm.regs[ProgramByte(vm, vm.Pc() + 2).value];
      assert ExecMovRegReg(vm).value == AdvancePc(vm.(regs := vm.regs[reg := value]), 3);
      MachineFacts.WriteThenAdvance(vm, reg, value, 3);
    }
  }

  /** The same for `MOV reg [addr]`. */
  lemma MovRegMemWidthMatchesPcAdvance(vm: Vm)
    requires |vm.regs| > SbIdx && ProgramByte(vm, vm.Pc() + 1) != Ok(PcIdx)
    ensures Operands(MovRegMem).Some?
    ensures ExecMovRegMem(vm).Ok? ==> ExecMovRegMem(vm).value.Pc() == Wrap16(vm.Pc() + 1 + ArgsSize(Operands(MovRegMem).value))
  {
    if ExecMovRegMem(vm).Ok? {
      var reg := ProgramByte(vm, vm.Pc() + 1).value;
      var addr := Join16(ProgramByte(vm, vm.Pc() + 2).value, ProgramByte(vm, vm.Pc() + 3).value);
      var value := Read16(vm, addr).value;
      assert ExecMovRegMem(vm).value == AdvancePc(vm.(regs := vm.regs[reg := value]), 4);
      MachineFacts.WriteThenAdvance(vm, reg, value, 4);
    }
  }

  /** The same for `MOV [addr] reg`, which writes no register. */
  lemma MovMemRegWidthMatchesPcAdvance(vm: Vm)
    requires |vm.regs| > SbIdx
    ensures Operands(MovMemReg).Some?
    ensures ExecMovMemReg(vm).Ok? ==> ExecMovMemReg(vm).value.Pc() == Wrap16(vm.Pc() + 1 + ArgsSize(Operands(MovMemReg).value))
  {
  }

  /** The same for `MOV reg imm`. */
  lemma MovRegImmWidthMatchesPcAdvance(vm: Vm)
    requires |vm.regs| > SbIdx && ProgramByte(vm, vm.Pc() + 1) != Ok(PcIdx)
    ensures Operands(MovRegImm).Some?
    ensures ExecMovRegImm(vm).Ok? ==> ExecMovRegImm(vm).value.Pc() == Wrap16(vm.Pc() + 1 + ArgsSize(Operands(MovRegImm).value))
  {
    if ExecMovRegImm(vm).Ok? {
      var reg := ProgramByte(vm, vm.Pc() + 1).value;
      var value := Join16(ProgramByte(vm, vm.Pc() + 2).value, ProgramByte(vm, vm.Pc() + 3).value);
      assert ExecMovRegImm(vm).value == AdvancePc(vm.(regs := vm.regs[reg := value]), 4);
      MachineFacts.WriteThenAdvance(vm, reg, value, 4);
    }
  }

  /** The same for `PUSH`, which writes only `Sp`. */
  lemma PushWidthMatchesPcAdvance(vm: Vm)
    requires |vm.regs| > SbIdx
    ensures Operands(Push).Some?
    ensures ExecPush(vm).Ok? ==> ExecPush(vm).value.Pc() == Wrap16(vm.Pc() + 1 + ArgsSize(Operands(Push).value))
  {
    if ExecPush(vm).Ok? {
      var value := vm.regs[ProgramByte(vm, vm.Pc() + 1).value];
      var vm1 := StackWrite16(vm, vm.Sp(), value).value;
      assert vm1.regs == vm.regs;
      assert ExecPush(vm).value == AdvancePc(SetReg(vm1, SpIdx, Wrap16(vm1.Sp() + 2)), 2);
    }
  }

  /** The same for `POP`. */
  lemma PopWidthMatchesPcAdvance(vm: Vm)
    requires |vm.regs| > SbIdx && ProgramByte(vm, vm.Pc() + 1) != Ok(PcIdx)
    ensures Operands(Pop).Some?
    ensures ExecPop(vm).Ok? ==> ExecPop(vm).value.Pc() == Wrap16(vm.Pc() + 1 + ArgsSize(Operands(Pop).value))
  {
  }

  // ---------------------------------------------------------------------
  // Encoded operands

  /** `code` is the program text from `Pc` on. */
  predicate CodeAtPc(vm: Vm, code: seq<byte>)
    requires |vm.regs| > SbIdx
  {
    forall k | 0 <= k < |code| :: ProgramByte(vm, vm.Pc() + k) == Ok(code[k])
  }

  /** The opcode an arithmetic mnemonic assembles to. */
  function ArithOp(mnemonic: string): Op {
    if mnemonic == "ADD" then Add else Mul
  }

  /** An assembled `ADD` or `MUL` line placed at `Pc` writes the register its
      first operand names with the sum or product of the registers its
      second and third operands name: the interpreter reads the operand
      bytes in the order the assembler writes them. */
  lemma EncodedArithRuns(v: Variant, half: HalfOps, vm: Vm, tokens: seq<string>)
    requires |tokens| >= 4 && tokens[0] in {"ADD", "MUL"}
    requires vm.WellFormed(v) && !vm.halted && !PcNotExecutable(v, vm)
    requires Encode(tokens).Ok? && CodeAtPc(vm, Encode(tokens).value.bytecode)
    requires RegisterToByte(tokens[1]).Ok? && RegisterToByte(tokens[2]).Ok? && RegisterToByte(tokens[3]).Ok?
    requires var d := RegisterToByte(tokens[1]).value;
             d < |vm.regs| && d != PcIdx
             && RegisterToByte(tokens[2]).value < |vm.regs| && RegisterToByte(tokens[3]).value < |vm.regs|
    ensures Step(v, half, vm).Ok?
    ensures var d := RegisterToByte(tokens[1]).value;
            var r := Step(v, half, vm).value;
            && r.regs[d] == ArithValue(ArithOp(tokens[0]), vm.regs[RegisterToByte(tokens[2]).value],
                                       vm.regs[RegisterToByte(tokens[3]).value], half).value
            && r.Pc() == Wrap16(vm.Pc() + 4)
            && r.mem == vm.mem && r.halted == vm.halted
            && (forall i | 0 <= i < |vm.regs| && i != d && i != PcIdx :: r.regs[i] == vm.regs[i])
  {
    ArithBytes(tokens);
    ArithCodeRuns(v, half, vm, ArithOp(tokens[0]),
                  RegisterToByte(tokens[1]).value, RegisterToByte(tokens[2]).value, RegisterToByte(tokens[3]).value);
  }

  lemma ArithBytes(tokens: seq<string>)
    requires |tokens| >= 4 && tokens[0] in {"ADD", "MUL"} && Encode(tokens).Ok?
    ensures RegisterToByte(tokens[1]).Ok? && RegisterToByte(tokens[2]).Ok? && RegisterToByte(tokens[3]).Ok?
    ensures Encode(tokens).value.bytecode
            == [Code(ArithOp(tokens[0])), RegisterToByte(tokens[1]).value,
                RegisterToByte(tokens[2]).value, RegisterToByte(tokens[3]).value]
  {
  }

  lemma ArithCodeRuns(v: Variant, half: HalfOps, vm: Vm, op: Op, d: byte, x: byte, y: byte)
    requires vm.WellFormed(v) && !vm.halted && !PcNotExecutable(v, vm)
    requires op in {Add, Mul} && CodeAtPc(vm, [Code(op), d, x, y])
    requires d < |vm.regs| && d != PcIdx && x < |vm.regs| && y < |vm.regs|
    ensures Step(v, half, vm).Ok?
    ensures var r := Step(v, half, vm).value;
            && r.regs[d] == ArithValue(op, vm.regs[x], vm.regs[y], half).value
            && r.Pc() == Wrap16(vm.Pc() + 4)
            && r.mem == vm.mem && r.halted == vm.halted
            && (forall i | 0 <= i < |vm.regs| && i != d && i != PcIdx :: r.regs[i] == vm.regs[i])
  {
    var code := [Code(op), d, x, y];
    assert ProgramByte(vm, vm.Pc() + 0) == Ok(code[0]);
    assert ProgramByte(vm, vm.Pc() + 1) == Ok(code[1]);
    assert ProgramByte(vm, vm.Pc() + 2) == Ok(code[2]);
    assert ProgramByte(vm, vm.Pc() + 3) == Ok(code[3]);
    MachineFacts.StepRuns(v, half, vm, op);
    MachineFacts.ArithIsWordArith(vm.regs[x], vm.regs[y], half);
    MachineFacts.ArithFrame(vm, op, half, d, x, y);
  }

  /** An assembled `MOV reg reg` copies the second register into the first. */
  lemma EncodedMovRegRegRuns(v: Variant, half: HalfOps, vm: Vm, tokens: seq<string>)
    requires |tokens| >= 3 && tokens[0] == "MOV" && IsRegister(tokens[1]) && IsRegister(tokens[2])
    requires vm.WellFormed(v) && !vm.halted && !PcNotExecutable(v, vm)
    requires Encode(tokens).Ok? && CodeAtPc(vm, Encode(tokens).value.bytecode)
    requires RegisterToByte(tokens[1]).Ok? && RegisterToByte(tokens[2]).Ok?
    requires RegisterToByte(tokens[1]).value < |vm.regs| && RegisterToByte(tokens[2]).value < |vm.regs|
    ensures Step(v, half, vm).Ok?
    ensures MachineFacts.MovedInto(vm, Step(v, half, vm).value, RegisterToByte(tokens[1]).value,
                                   vm.regs[RegisterToByte(tokens[2]).value], 3)
  {
    MovBytes(tokens);
    MovRegRegCodeRuns(v, half, vm, RegisterToByte(tokens[1]).value, RegisterToByte(tokens[2]).value);
  }

  lemma MovRegRegCodeRuns(v: Variant, half: HalfOps, vm: Vm, d: byte, s: byte)
    requires vm.WellFormed(v) && !vm.halted && !PcNotExecutable(v, vm)
    requires CodeAtPc(vm, [Code(MovRegReg), d, s])
    requires d < |vm.regs| && s < |vm.regs|
    ensures Step(v, half, vm).Ok?
    ensures MachineFacts.MovedInto(vm, Step(v, half, vm).value, d, vm.regs[s], 3)
  {
    var code := [Code(MovRegReg), d, s];
    assert ProgramByte(vm, vm.Pc() + 0) == Ok(code[0]);
    assert ProgramByte(vm, vm.Pc() + 1) == Ok(code[1]);
    assert ProgramByte(vm, vm.Pc() + 2) == Ok(code[2]);
    MachineFacts.StepRuns(v, half, vm, MovRegReg);
    MachineFacts.MovRegRegEffect(vm, d, s);
  }

  /** The bytes of each `MOV` form, read off the line's operands. */
  lemma MovBytes(tokens: seq<string>)
    requires |tokens| >= 3 && tokens[0] == "MOV" && Encode(tokens).Ok?
    ensures var code := Encode(tokens).value.bytecode;
            && (IsRegister(tokens[1]) && IsRegister(tokens[2]) ==>
                  code == [Code(MovRegReg), RegisterToByte(tokens[1]).value, RegisterToByte(tokens[2]).value])
            && (IsRegister(tokens[1]) && !IsRegister(tokens[2]) && IsImmediate(tokens[2]) ==>
                  var value := ImmediateToUShort(tokens[2]).value;
                  code == [Code(MovRegImm), RegisterToByte(tokens[1]).value, Lo(value), Hi(value)])
            && (IsRegister(tokens[1]) && !IsRegister(tokens[2]) && !IsImmediate(tokens[2]) && IsMemory(tokens[2]) ==>
                  var addr := MemoryAddressToUShort(tokens[2]).value;
                  code == [Code(MovRegMem), RegisterToByte(tokens[1]).value, Lo(addr), Hi(addr)])
            && (!IsRegister(tokens[1]) && IsMemory(tokens[1]) && IsRegister(tokens[2]) ==>
                  var addr := MemoryAddressToUShort(tokens[1]).value;
                  code == [Code(MovMemReg), Lo(addr), Hi(addr), RegisterToByte(tokens[1]).value])
  {
  }

  /** An assembled `MOV reg imm` loads the immediate into the register. */
  lemma EncodedMovRegImmRuns(v: Variant, half: HalfOps, vm: Vm, tokens: seq<string>)
    requires |tokens| >= 3 && tokens[0] == "MOV"
    requires IsRegister(tokens[1]) && !IsRegister(tokens[2]) && IsImmediate(tokens[2])
    requires vm.WellFormed(v) && !vm.halted && !PcNotExecutable(v, vm)
    requires Encode(tokens).Ok? && CodeAtPc(vm, Encode(tokens).value.bytecode)
    requires RegisterToByte(tokens[1]).Ok? && ImmediateToUShort(tokens[2]).Ok?
    requires RegisterToByte(tokens[1]).value < |vm.regs|
    ensures Step(v, half, vm).Ok?
    ensures MachineFacts.MovedInto(vm, Step(v, half, vm).value, RegisterToByte(tokens[1]).value,
                                   ImmediateToUShort(tokens[2]).value, 4)
  {
    MovBytes(tokens);
    MovRegImmCodeRuns(v, half, vm, RegisterToByte(tokens[1]).value, ImmediateToUShort(tokens[2]).value);
  }

  lemma MovRegImmCodeRuns(v: Variant, half: HalfOps, vm: Vm, d: byte, value: u16)
    requires vm.WellFormed(v) && !vm.halted && !PcNotExecutable(v, vm)
    requires CodeAtPc(vm, [Code(MovRegImm), d, Lo(value), Hi(value)])
    requires d < |vm.regs|
    ensures Step(v, half, vm).Ok?
    ensures MachineFacts.MovedInto(vm, Step(v, half, vm).value, d, value, 4)
  {
    var code := [Code(MovRegImm), d, Lo(value), Hi(value)];
    assert ProgramByte(vm, vm.Pc() + 0) == Ok(code[0]);
    assert ProgramByte(vm, vm.Pc() + 1) == Ok(code[1]);
    assert ProgramByte(vm, vm.Pc() + 2) == Ok(code[2]);
    assert ProgramByte(vm, vm.Pc() + 3) == Ok(code[3]);
    MachineFacts.StepRuns(v, half, vm, MovRegImm);
    MachineFacts.MovRegImmEffect(vm, d, value);
  }

  /** An assembled `MOV reg [addr]` loads the word stored at the address. */
  lemma EncodedMovRegMemRuns(v: Variant, half: HalfOps, vm: Vm, tokens: seq<string>)
    requires |tokens| >= 3 && tokens[0] == "MOV"
    requires IsRegister(tokens[1]) && !IsRegister(tokens[2]) && !IsImmediate(tokens[2]) && IsMemory(tokens[2])
    requires vm.WellFormed(v) && !vm.halted && !PcNotExecutable(v, vm)
    requires Encode(tokens).Ok? && CodeAtPc(vm, Encode(tokens).value.bytecode)
    requires RegisterToByte(tokens[1]).Ok? && MemoryAddressToUShort(tokens[2]).Ok?
    requires RegisterToByte(tokens[1]).value < |vm.regs|
    requires MemoryAddressToUShort(tokens[2]).value + 1 < |vm.mem|
    ensures Step(v, half, vm).Ok?
    ensures MachineFacts.MovedInto(vm, Step(v, half, vm).value, RegisterToByte(tokens[1]).value,
                                   Read16(vm, MemoryAddressToUShort(tokens[2]).value).value, 4)
  {
    MovBytes(tokens);
    MovRegMemCodeRuns(v, half, vm, RegisterToByte(tokens[1]).value, MemoryAddressToUShort(tokens[2]).value);
  }

  lemma MovRegMemCodeRuns(v: Variant, half: HalfOps, vm: Vm, d: byte, addr: u16)
    requires vm.WellFormed(v) && !vm.halted && !PcNotExecutable(v, vm)
    requires CodeAtPc(vm, [Code(MovRegMem), d, Lo(addr), Hi(addr)])
    requires d < |vm.regs| && addr + 1 < |vm.mem|
    ensures Read16(vm, addr).Ok?
    ensures Step(v, half, vm).Ok?
    ensures MachineFacts.MovedInto(vm, Step(v, half, vm).value, d, Read16(vm, addr).value, 4)
  {
    var code := [Code(MovRegMem), d, Lo(addr), Hi(addr)];
    assert ProgramByte(vm, vm.Pc() + 0) == Ok(code[0]);
    assert ProgramByte(vm, vm.Pc() + 1) == Ok(code[1]);
    assert ProgramByte(vm, vm.Pc() + 2) == Ok(code[2]);
    assert ProgramByte(vm, vm.Pc() + 3) == Ok(code[3]);
    MachineFacts.StepRuns(v, half, vm, MovRegMem);
    MachineFacts.MovRegMemEffect(vm, d, addr, Read16(vm, addr).value);
  }

  /** An assembled `MOV [addr] reg` stores, at the address, the register
      that the assembler derived from the address operand itself, whatever
      the source operand names. */
  lemma EncodedMovMemRegRuns(v: Variant, half: HalfOps, vm: Vm, tokens: seq<string>)
    requires |tokens| >= 3 && tokens[0] == "MOV"
    requires !IsRegister(tokens[1]) && IsMemory(tokens[1]) && IsRegister(tokens[2])
    requires vm.WellFormed(v) && !vm.halted && !PcNotExecutable(v, vm)
    requires Encode(tokens).Ok? && CodeAtPc(vm, Encode(tokens).value.bytecode)
    requires RegisterToByte(tokens[1]).Ok? && MemoryAddressToUShort(tokens[1]).Ok?
    requires RegisterToByte(tokens[1]).value < |vm.regs|
    requires MemoryAddressToUShort(tokens[1]).value + 1 < |vm.mem|
    ensures Step(v, half, vm).Ok?
    ensures Read16(Step(v, half, vm).value, MemoryAddressToUShort(tokens[1]).value)
            == Ok(vm.regs[RegisterToByte(tokens[1]).value])
  {
    MovBytes(tokens);
    MovMemRegCodeRuns(v, half, vm, MemoryAddressToUShort(tokens[1]).value, RegisterToByte(tokens[1]).value);
  }

  lemma MovMemRegCodeRuns(v: Variant, half: HalfOps, vm: Vm, addr: u16, d: byte)
    requires vm.WellFormed(v) && !vm.halted && !PcNotExecutable(v, vm)
    requires CodeAtPc(vm, [Code(MovMemReg), Lo(addr), Hi(addr), d])
    requires d < |vm.regs| && addr + 1 < |vm.mem|
    ensures Step(v, half, vm).Ok?
    ensures Read16(Step(v, half, vm).value, addr) == Ok(vm.regs[d])
  {
    var code := [Code(MovMemReg), Lo(addr), Hi(addr), d];
    assert ProgramByte(vm, vm.Pc() + 0) == Ok(code[0]);
    assert ProgramByte(vm, vm.Pc() + 1) == Ok(code[1]);
    assert ProgramByte(vm, vm.Pc() + 2) == Ok(code[2]);
    assert ProgramByte(vm, vm.Pc() + 3) == Ok(code[3]);
    Bytes.SplitJoin(addr);
    MachineFacts.StepRuns(v, half, vm, MovMemReg);
    MachineFacts.MovMemRegEffect(vm, Lo(addr), Hi(addr), d);
  }

  /** An assembled `PUSH reg` stores the register at stack offset `Sp`. */
  lemma EncodedPushRuns(v: Variant, half: HalfOps, vm: Vm, tokens: seq<string>)
    requires |tokens| >= 2 && tokens[0] == "PUSH"
    requires vm.WellFormed(v) && !vm.halted && !PcNotExecutable(v, vm)
    requires Encode(tokens).Ok? && CodeAtPc(vm, Encode(tokens).value.bytecode)
    requires RegisterToByte(tokens[1]).Ok? && RegisterToByte(tokens[1]).value < |vm.regs|
    requires 0 <= vm.layout.stackOffset && vm.layout.stackOffset + vm.Sp() + 1 < |vm.mem|
    ensures Step(v, half, vm).Ok?
    ensures var p := Step(v, half, vm).value;
            && Read16(p, vm.layout.stackOffset + vm.Sp()) == Ok(vm.regs[RegisterToByte(tokens[1]).value])
            && p.Sp() == Wrap16(vm.Sp() + 2) && p.Pc() == Wrap16(vm.Pc() + 2)
  {
    StackBytes(tokens);
    PushCodeRuns(v, half, vm, RegisterToByte(tokens[1]).value);
  }

  /** `PUSH` and `POP` emit their opcode, then the register byte. */
  lemma StackBytes(tokens: seq<string>)
    requires |tokens| >= 2 && tokens[0] in {"PUSH", "POP"} && Encode(tokens).Ok?
    ensures RegisterToByte(tokens[1]).Ok?
    ensures Encode(tokens).value.bytecode
            == [Code(if tokens[0] == "PUSH" then Push else Pop), RegisterToByte(tokens[1]).value]
  {
  }

  lemma PushCodeRuns(v: Variant, half: HalfOps, vm: Vm, r: byte)
    requires vm.WellFormed(v) && !vm.halted && !PcNotExecutable(v, vm)
    requires CodeAtPc(vm, [Code(Push), r])
    requires r < |vm.regs|
    requires 0 <= vm.layout.stackOffset && vm.layout.stackOffset + vm.Sp() + 1 < |vm.mem|
    ensures Step(v, half, vm).Ok?
    ensures var p := Step(v, half, vm).value;
            && Read16(p, vm.layout.stackOffset + vm.Sp()) == Ok(vm.regs[r])
            && p.Sp() == Wrap16(vm.Sp() + 2) && p.Pc() == Wrap16(vm.Pc() + 2)
  {
    var code := [Code(Push), r];
    assert ProgramByte(vm, vm.Pc() + 0) == Ok(code[0]);
    assert ProgramByte(vm, vm.Pc() + 1) == Ok(code[1]);
    StepPush(v, half, vm);
    MachineFacts.PushEffect(vm, r);
  }

  /** An assembled `POP reg` loads the word below `Sp` into the register. */
  lemma EncodedPopRuns(v: Variant, half: HalfOps, vm: Vm, tokens: seq<string>)
    requires |tokens| >= 2 && tokens[0] == "POP"
    requires vm.WellFormed(v) && !vm.halted && !PcNotExecutable(v, vm)
    requires Encode(tokens).Ok? && CodeAtPc(vm, Encode(tokens).value.bytecode)
    requires RegisterToByte(tokens[1]).Ok?
    requires var s := RegisterToByte(tokens[1]).value; s < |vm.regs| && s != PcIdx && s != SpIdx
    requires 0 <= vm.layout.stackOffset && vm.layout.stackOffset + Wrap16(vm.Sp() - 2) + 1 < |vm.mem|
    ensures Read16(vm, vm.layout.stackOffset + Wrap16(vm.Sp() - 2)).Ok?
    ensures Step(v, half, vm).Ok?
    ensures var p := Step(v, half, vm).value;
            && p.regs[RegisterToByte(tokens[1]).value] == Read16(vm, vm.layout.stackOffset + Wrap16(vm.Sp() - 2)).value
            && p.Sp() == Wrap16(vm.Sp() - 2) && p.Pc() == Wrap16(vm.Pc() + 2)
  {
    StackBytes(tokens);
    PopCodeRuns(v, half, vm, RegisterToByte(tokens[1]).value);
  }

  lemma PopCodeRuns(v: Variant, half: HalfOps, vm: Vm, s: byte)
    requires vm.WellFormed(v) && !vm.halted && !PcNotExecutable(v, vm)
    requires CodeAtPc(vm, [Code(Pop), s])
    requires s < |vm.regs| && s != PcIdx && s != SpIdx
    requires 0 <= vm.layout.stackOffset && vm.layout.stackOffset + Wrap16(vm.Sp() - 2) + 1 < |vm.mem|
    ensures Read16(vm, vm.layout.stackOffset + Wrap16(vm.Sp() - 2)).Ok?
    ensures Step(v, half, vm).Ok?
    ensures var p := Step(v, half, vm).value;
            && p.regs[s] == Read16(vm, vm.layout.stackOffset + Wrap16(vm.Sp() - 2)).value
            && p.Sp() == Wrap16(vm.Sp() - 2) && p.Pc() == Wrap16(vm.Pc() + 2)
  {
    var code := [Code(Pop), s];
    assert ProgramByte(vm, vm.Pc() + 0) == Ok(code[0]);
    assert ProgramByte(vm, vm.Pc() + 1) == Ok(code[1]);
    StepPop(v, half, vm);
    MachineFacts.PopEffect(vm, s);
  }

  /** An assembled `CALL` with an immediate target jumps to that address and
      keeps the return address past its three bytes. */
  lemma EncodedCallRuns(v: Variant, half: HalfOps, vm: Vm, tokens: seq<string>)
    requires |tokens| >= 2 && tokens[0] == "CALL" && IsImmediate(tokens[1])
    requires vm.WellFormed(v) && !vm.halted && !PcNotExecutable(v, vm)
    requires Encode(tokens).Ok? && CodeAtPc(vm, Encode(tokens).value.bytecode)
    requires ImmediateToUShort(tokens[1]).Ok?
    ensures Step(v, half, vm).Ok?
    ensures var p := Step(v, half, vm).value;
            && p.Pc() == ImmediateToUShort(tokens[1]).value
            && p.regs[ReturnAddress] == Wrap16(vm.Pc() + 3)
  {
    CallBytes(tokens);
    var addr := ImmediateToUShort(tokens[1]).value;
    Bytes.SplitJoin(addr);
    TransferCodeRuns(v, half, vm, Call, Lo(addr), Hi(addr));
  }

  lemma CallBytes(tokens: seq<string>)
    requires |tokens| >= 2 && tokens[0] == "CALL" && IsImmediate(tokens[1]) && Encode(tokens).Ok?
    ensures ImmediateToUShort(tokens[1]).Ok?
    ensures var addr := ImmediateToUShort(tokens[1]).value;
            Encode(tokens).value.bytecode == [Code(Call), Lo(addr), Hi(addr)]
  {
  }

  /** `JUMP` or `CALL` with operand bytes `lo hi` continues at the word they
      spell, low byte first. */
  lemma TransferCodeRuns(v: Variant, half: HalfOps, vm: Vm, op: Op, lo: byte, hi: byte)
    requires vm.WellFormed(v) && !vm.halted && !PcNotExecutable(v, vm)
    requires op in {Jump, Call} && CodeAtPc(vm, [Code(op), lo, hi])
    ensures Step(v, half, vm).Ok?
    ensures Step(v, half, vm).value.Pc() == Join16(lo, hi)
    ensures op == Call ==> Step(v, half, vm).value.regs[ReturnAddress] == Wrap16(vm.Pc() + 3)
  {
    var code := [Code(op), lo, hi];
    assert ProgramByte(vm, vm.Pc() + 0) == Ok(code[0]);
    assert ProgramByte(vm, vm.Pc() + 1) == Ok(code[1]);
    assert ProgramByte(vm, vm.Pc() + 2) == Ok(code[2]);
    if op == Jump {
      MachineFacts.StepRuns(v, half, vm, Jump);
      assert ShouldJump(vm, Jump);
      assert ExecJump(vm, Jump) == Ok(SetReg(vm, PcIdx, Join16(lo, hi)));
    } else {
      MachineFacts.StepRuns(v, half, vm, Call);
      MachineFacts.CallRetRoundTrip(vm, lo, hi);
    }
  }

  /** A linked `JUMP` or `CALL` placed at `Pc` transfers control to the base
      of the section its label names: the linker writes the address in the
      byte order the interpreter reads it. */
  lemma PatchedTransferRuns(v: Variant, half: HalfOps, vm: Vm, tokens: seq<string>, bases: seq<Entry<int>>)
    requires vm.WellFormed(v) && !vm.halted && !PcNotExecutable(v, vm)
    requires Encode(tokens).Ok? && Encode(tokens).value.labelToResolve.Some?
    requires Patch(Encode(tokens).value, bases).Ok? && CodeAtPc(vm, Patch(Encode(tokens).value, bases).value)
    requires |tokens| >= 2 && Get(bases, tokens[1]).Some?
    ensures Step(v, half, vm).Ok?
    ensures Step(v, half, vm).value.Pc() == Wrap16(Get(bases, tokens[1]).value)
  {
    var code := Patch(Encode(tokens).value, bases).value;
    PatchedBytes(Encode(tokens).value, tokens[1], bases);
    TransferCodeRuns(v, half, vm, DecodeOp(code[0]).value, code[1], code[2]);
  }

  lemma PatchedBytes(res: CompilationResult, target: string, bases: seq<Entry<int>>)
    requires |res.bytecode| == 3 && res.bytecode[0] in {Code(Jump), Code(Call)}
    requires res.labelToResolve == Some(Relocation(target, 1))
    requires Patch(res, bases).Ok?
    ensures var code := Patch(res, bases).value;
            && |code| == 3 && code[0] == res.bytecode[0]
            && DecodeOp(code[0]).Some? && DecodeOp(code[0]).value in {Jump, Call}
            && code == [Code(DecodeOp(code[0]).value), code[1], code[2]]
            && Get(bases, target).Some? && Join16(code[1], code[2]) == Wrap16(Get(bases, target).value)
  {
    IsaFacts.DecodeOpInvertsCode(Jump);
    IsaFacts.DecodeOpInvertsCode(Call);
  }

  /** `RET` and `HALT` have no operands: the one byte assembled for each runs
      that instruction. */
  lemma EncodedBareRuns(v: Variant, half: HalfOps, vm: Vm, tokens: seq<string>)
    requires |tokens| >= 1 && tokens[0] in {"RET", "HALT"}
    requires vm.WellFormed(v) && !vm.halted && !PcNotExecutable(v, vm)
    requires Encode(tokens).Ok? && CodeAtPc(vm, Encode(tokens).value.bytecode)
    ensures tokens[0] == "RET" ==> Step(v, half, vm) == Ok(ExecRet(vm))
    ensures tokens[0] == "HALT" ==> Step(v, half, vm) == Ok(vm.(halted := true))
  {
    BareBytes(tokens);
    var code := Encode(tokens).value.bytecode;
    assert ProgramByte(vm, vm.Pc() + 0) == Ok(code[0]);
    if tokens[0] == "RET" {
      StepRet(v, half, vm);
    } else {
      MachineFacts.HaltOnlyHalts(v, half, vm);
    }
  }

  lemma BareBytes(tokens: seq<string>)
    requires |tokens| >= 1 && tokens[0] in {"RET", "HALT"}
    ensures Encode(tokens).Ok?
    ensures Encode(tokens).value.bytecode == [Code(if tokens[0] == "RET" then Ret else Halt)]
  {
  }

  lemma StepPush(v: Variant, half: HalfOps, vm: Vm)
    requires vm.WellFormed(v) && !vm.halted && !PcNotExecutable(v, vm)
    requires ProgramByte(vm, vm.Pc()) == Ok(Code(Push))
    ensures Step(v, half, vm) == ExecPush(vm)
  {
    MachineFacts.StepRuns(v, half, vm, Push);
  }

  lemma StepPop(v: Variant, half: HalfOps, vm: Vm)
    requires vm.WellFormed(v) && !vm.halted && !PcNotExecutable(v, vm)
    requires ProgramByte(vm, vm.Pc()) == Ok(Code(Pop))
    ensures Step(v, half, vm) == ExecPop(vm)
  {
    MachineFacts.StepRuns(v, half, vm, Pop);
  }

  lemma StepRet(v: Variant, half: HalfOps, vm: Vm)
    requires vm.WellFormed(v) && !vm.halted && !PcNotExecutable(v, vm)
    requires ProgramByte(vm, vm.Pc()) == Ok(Code(Ret))
    ensures Step(v, half, vm) == Ok(ExecRet(vm))
  {
    MachineFacts.StepRuns(v, half, vm, Ret);
    ExecuteRet(v, half, vm);
  }

  lemma ExecuteRet(v: Variant, half: HalfOps, vm: Vm)
    requires vm.WellFormed(v)
    ensures Execute(v, half, vm, Ret) == Ok(ExecRet(vm))
  {
  }

  // ---------------------------------------------------------------------
  // Register names

  /** The disassembler's names for the eight general registers, read back
      by the assembler (which upper-cases every line first), give the same
      byte. */
  lemma GeneralRegisterNamesRoundTrip(b: nat)
    requires b < 8
    ensures RegisterToByte(ToUpper(RegisterLabels[b])) == Ok(b)
  {
    var c := DecimalChar(b + 1);
    GeneralRegisterLabel(b);
    UpperRegisterLabel(c);
    assert ToUpper(RegisterLabels[b]) == "$REG" + [c];
    AssemblyFacts.RegisterOperand(c);
    assert DigitValue(c) - 1 == b;
    assert Wrap8(b) == b;
  }

  lemma GeneralRegisterLabel(b: nat)
    requires b < 8
    ensures RegisterLabels[b] == "$reg" + [DecimalChar(b + 1)]
  {
  }

  lemma UpperRegisterLabel(c: char)
    requires IsDecimalDigit(c)
    ensures ToUpper("$reg" + [c]) == "$REG" + [c]
  {
  }

  /** The three special names: `$rsp` (byte 9) comes back unchanged, but
      `$rbp` (byte 8) is not accepted and `$rpc` (byte 10) reads as byte 8,
      because the name table and `Reg` disagree on where `Pc` and `Sb` sit. */
  lemma SpecialRegisterNamesDisagree()
    ensures RegisterToByte(ToUpper(RegisterLabels[9])) == Ok(9)
    ensures RegisterToByte(ToUpper(RegisterLabels[8])).Err?
    ensures RegisterToByte(ToUpper(RegisterLabels[10])) == Ok(8)
    ensures RegIndex(Pc) == 8 && RegIndex(Sb) == 10
  {
    assert ToUpper(RegisterLabels[8]) == "$RBP";
    assert ToUpper(RegisterLabels[9]) == "$RSP";
    assert ToUpper(RegisterLabels[10]) == "$RPC";
    AssemblyFacts.SpecialRegisters();
  }
}
