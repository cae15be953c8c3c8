/** What the interpreter's instructions do, stated against independent
    descriptions: the comparison/jump table, stack and call round trips,
    the program-write guard, and how runs compose. */
module MachineFacts {
  import opened Results
  import opened Bytes
  import opened Isa
  import opened Words
  import opened Machine

  // ---------------------------------------------------------------------
  // Dispatch

  /** Past the halted and Pc checks, `Step` fetches one byte and either runs
      the opcode's case or refuses the byte. */
  lemma StepDispatch(v: Variant, half: HalfOps, vm: Vm)
    requires vm.WellFormed(v) && !vm.halted && !PcNotExecutable(v, vm)
    ensures ProgramByte(vm, vm.Pc()).Err? ==> Step(v, half, vm) == Err(ProgramByte(vm, vm.Pc()).error)
    ensures ProgramByte(vm, vm.Pc()).Ok? ==>
              var b := ProgramByte(vm, vm.Pc()).value;
              match DecodeOp(b)
              case None => Step(v, half, vm) == Err(UnrecognizedInstruction(b))
              case Some(op) =>
                Step(v, half, vm) == if Implemented(v, op) then Execute(v, half, vm, op) else Err(UnrecognizedInstruction(b))
  {
  }

  /** The opcodes the current interpreter has no case for. */
  lemma CurrentUnimplemented(op: Op)
    ensures !Implemented(Current, op) <==>
              op in {AddS, SubS, MulS, DivS, CmpF, CmpFRegReg, CmpFRegMem, CmpFMemReg,
                     CmpS, CmpSRegReg, CmpSRegMem, CmpSMemReg, JumpZero, JumpNotZero, Print}
  {
  }

  /** Everything the legacy interpreter runs, the current one runs too; the
      comparisons, conditional jumps, `DUP` and the half-float arithmetic are
      new. */
  lemma LegacyIsSubset(op: Op)
    ensures Implemented(Legacy, op) ==> Implemented(Current, op)
    ensures Implemented(Current, op) && !Implemented(Legacy, op) <==>
              op in {Dup, AddF, SubF, MulF, DivF, Cmp, CmpRegReg, CmpRegMem, CmpMemReg,
                     JumpEq, JumpNeq, JumpGt, JumpLt, JumpGeq, JumpLeq}
  {
  }

  /** The Pc bound differs by one: at `Pc == ProgramSize` the current machine
      refuses before fetching, the legacy one passes the check and then fails
      to fetch outside the program span. */
  lemma PcAtProgramEnd(half: HalfOps, cur: Vm, legacy: Vm)
    requires cur.WellFormed(Current) && legacy.WellFormed(Legacy)
    requires !cur.halted && !legacy.halted
    requires cur.Pc() == cur.layout.programSize && legacy.Pc() == legacy.layout.programSize
    requires cur.Pc() >= cur.layout.staticSegmentSize && legacy.Pc() >= legacy.layout.staticSegmentSize
    requires 0 <= legacy.layout.programOffset && legacy.layout.programOffset + legacy.layout.programSize <= |legacy.mem|
    ensures Step(Current, half, cur) == Err(NonExecutablePc(cur.Pc()))
    ensures Step(Legacy, half, legacy) == Err(IndexOutOfRange)
  {
    assert !PcNotExecutable(Legacy, legacy);
    StepDispatch(Legacy, half, legacy);
  }

  /** The legacy machine has eleven registers, so the flags register's index
      is out of range there. */
  lemma LegacyHasNoFlagsRegister(vm: Vm, value: u16)
    requires vm.WellFormed(Legacy)
    ensures ReadRegister(vm, FlagsIdx).Err? && WriteRegister(vm, FlagsIdx, value).Err?
    ensures forall r | 0 <= r < FlagsIdx :: ReadRegister(vm, r) == Ok(vm.regs[r])
  {
  }

  // ---------------------------------------------------------------------
  // Halting

  /** A halted machine stays where it is, however long it is run. */
  lemma HaltedStaysPut(v: Variant, half: HalfOps, vm: Vm, count: int, fuel: nat)
    requires vm.halted
    ensures Step(v, half, vm) == Ok(vm)
    ensures RunInstructions(Stepper(v, half), vm, count) == Ok(vm)
    ensures RunUntilHalt(Stepper(v, half), vm, fuel) == Some(Ok(vm))
  {
  }

  /** `HALT` sets the flag and touches nothing else. */
  lemma HaltOnlyHalts(v: Variant, half: HalfOps, vm: Vm)
    requires vm.WellFormed(v) && !vm.halted && !PcNotExecutable(v, vm)
    requires ProgramByte(vm, vm.Pc()) == Ok(Code(Halt))
    ensures Step(v, half, vm) == Ok(vm.(halted := true))
  {
    IsaFacts.DecodeOpInvertsCode(Halt);
    StepDispatch(v, half, vm);
  }

  // ---------------------------------------------------------------------
  // Memory and the program-write guard

  /** `Read16` after `Write16` at the same address gives back the word. */
  lemma WriteThenRead(vm: Vm, addr: int, value: u16)
    requires 0 <= addr && addr + 1 < |vm.mem|
    ensures Write16(vm, addr, value).Ok?
    ensures Read16(Write16(vm, addr, value).value, addr) == Ok(value)
  {
    SplitJoin(value);
  }

  /** A write that leaves both bytes alone elsewhere does not disturb a read. */
  lemma WriteElsewhere(vm: Vm, addr: int, value: u16, other: int)
    requires 0 <= addr && addr + 1 < |vm.mem|
    requires other + 1 < addr || addr + 1 < other
    ensures Write16(vm, addr, value).Ok?
    ensures Read16(Write16(vm, addr, value).value, other) == Read16(vm, other)
  {
  }

  /** `MOV_MEM_REG` aimed into the read-only program segment halts the
      machine, and the word is stored all the same. */
  lemma StoreIntoProgramHalts(v: Variant, half: HalfOps, vm: Vm, lo: byte, hi: byte, reg: byte)
    requires vm.WellFormed(v) && !vm.halted && !PcNotExecutable(v, vm)
    requires ProgramByte(vm, vm.Pc()) == Ok(Code(MovMemReg))
    requires ProgramByte(vm, vm.Pc() + 1) == Ok(lo)
    requires ProgramByte(vm, vm.Pc() + 2) == Ok(hi)
    requires ProgramByte(vm, vm.Pc() + 3) == Ok(reg)
    requires reg < |vm.regs| && Join16(lo, hi) + 1 < |vm.mem|
    requires vm.layout.programSegmentReadonly && InProgramSegment(vm.layout, Join16(lo, hi))
    ensures Step(v, half, vm).Ok?
    ensures Step(v, half, vm).value.halted
    ensures Read16(Step(v, half, vm).value, Join16(lo, hi)) == Ok(vm.regs[reg])
  {
    StepRuns(v, half, vm, MovMemReg);
    MovMemRegEffect(vm, lo, hi, reg);
  }

  /** Past the halted and Pc checks, a byte that encodes an implemented
      opcode runs that opcode's case. */
  lemma StepRuns(v: Variant, half: HalfOps, vm: Vm, op: Op)
    requires vm.WellFormed(v) && !vm.halted && !PcNotExecutable(v, vm)
    requires ProgramByte(vm, vm.Pc()) == Ok(Code(op)) && Implemented(v, op)
    ensures Step(v, half, vm) == Execute(v, half, vm, op)
  {
    IsaFacts.DecodeOpInvertsCode(op);
    StepDispatch(v, half, vm);
  }

  /** `MOV_MEM_REG` stores the register's word at the address it names. */
  lemma MovMemRegEffect(vm: Vm, lo: byte, hi: byte, reg: byte)
    requires |vm.regs| > SbIdx
    requires ProgramByte(vm, vm.Pc() + 1) == Ok(lo)
    requires ProgramByte(vm, vm.Pc() + 2) == Ok(hi)
    requires ProgramByte(vm, vm.Pc() + 3) == Ok(reg)
    requires reg < |vm.regs| && Join16(lo, hi) + 1 < |vm.mem|
    ensures ExecMovMemReg(vm).Ok?
    ensures ExecMovMemReg(vm).value.halted == (vm.halted || (vm.layout.programSegmentReadonly && InProgramSegment(vm.layout, Join16(lo, hi))))
    ensures Read16(ExecMovMemReg(vm).value, Join16(lo, hi)) == Ok(vm.regs[reg])
  {
    WriteThenRead(vm, Join16(lo, hi), vm.regs[reg]);
  }

  // ---------------------------------------------------------------------
  // Arithmetic

  /** The machine's integer arithmetic is `Word` arithmetic on unsigned
      words. */
  lemma ArithIsWordArith(a: u16, b: u16, half: HalfOps)
    ensures ArithValue(Add, a, b, half) == Ok(Plus(FromUShort(a), FromUShort(b), half).bits)
    ensures ArithValue(Sub, a, b, half) == Ok(Minus(FromUShort(a), FromUShort(b), half).bits)
    ensures ArithValue(Mul, a, b, half) == Ok(Times(FromUShort(a), FromUShort(b), half).bits)
    ensures b != 0 ==> ArithValue(Div, a, b, half) == Ok(Quotient(FromUShort(a), FromUShort(b), half).value.bits)
    ensures b == 0 <==> ArithValue(Div, a, b, half).Err?
  {
  }

  /** An arithmetic instruction writes its destination, advances `Pc` by
      four, and leaves memory and every other register alone. */
  lemma ArithFrame(vm: Vm, op: Op, half: HalfOps, d: byte, x: byte, y: byte)
    requires |vm.regs| > SbIdx
    requires op in {Add, Sub, Mul, Div, AddF, SubF, MulF, DivF}
    requires ProgramByte(vm, vm.Pc() + 1) == Ok(d)
    requires ProgramByte(vm, vm.Pc() + 2) == Ok(x)
    requires ProgramByte(vm, vm.Pc() + 3) == Ok(y)
    requires d < |vm.regs| && x < |vm.regs| && y < |vm.regs| && d != PcIdx
    requires ArithValue(op, vm.regs[x], vm.regs[y], half).Ok?
    ensures ExecArith(vm, op, half).Ok?
    ensures var r := ExecArith(vm, op, half).value;
            && r.regs[d] == ArithValue(op, vm.regs[x], vm.regs[y], half).value
            && r.Pc() == Wrap16(vm.Pc() + 4)
            && r.mem == vm.mem && r.halted == vm.halted
            && (forall i | 0 <= i < |vm.regs| && i != d && i != PcIdx :: r.regs[i] == vm.regs[i])
  {
  }

  // ---------------------------------------------------------------------
  // Register moves

  /** `r` is `vm` after `value` went into register `dst` and `Pc` moved on
      by `width` from its value at that point: memory, layout, the halted
      flag and every other register are as before. Moving into `Pc` makes
      the instruction skip `width` bytes past the moved value. */
  ghost predicate MovedInto(vm: Vm, r: Vm, dst: nat, value: u16, width: nat)
    requires |vm.regs| > SbIdx && dst < |vm.regs|
  {
    && |r.regs| == |vm.regs| && r.mem == vm.mem && r.layout == vm.layout && r.halted == vm.halted
    && (dst != PcIdx ==> r.regs[dst] == value && r.Pc() == Wrap16(vm.Pc() + width))
    && (dst == PcIdx ==> r.Pc() == Wrap16(value + width))
    && (forall i | 0 <= i < |vm.regs| && i != dst && i != PcIdx :: r.regs[i] == vm.regs[i])
  }

  /** Writing a register and then advancing `Pc` is such a move. */
  lemma WriteThenAdvance(vm: Vm, dst: nat, value: u16, width: nat)
    requires |vm.regs| > SbIdx && dst < |vm.regs|
    ensures MovedInto(vm, AdvancePc(vm.(regs := vm.regs[dst := value]), width), dst, value, width)
  {
  }

  /** `MOV_REG_REG dst src` copies one register into another. */
  lemma MovRegRegEffect(vm: Vm, dst: byte, src: byte)
    requires |vm.regs| > SbIdx
    requires ProgramByte(vm, vm.Pc() + 1) == Ok(dst) && ProgramByte(vm, vm.Pc() + 2) == Ok(src)
    requires dst < |vm.regs| && src < |vm.regs|
    ensures ExecMovRegReg(vm).Ok?
    ensures MovedInto(vm, ExecMovRegReg(vm).value, dst, vm.regs[src], 3)
  {
    assert ExecMovRegReg(vm) == Ok(AdvancePc(vm.(regs := vm.regs[dst := vm.regs[src]]), 3));
    WriteThenAdvance(vm, dst, vm.regs[src], 3);
  }

  /** `MOV_REG_MEM dst lo hi` loads the word `w` stored at the address
      `addr` its two operand bytes spell. */
  lemma MovRegMemEffect(vm: Vm, dst: byte, addr: u16, w: u16)
    requires |vm.regs| > SbIdx
    requires ProgramByte(vm, vm.Pc() + 1) == Ok(dst)
    requires ProgramByte(vm, vm.Pc() + 2) == Ok(Lo(addr)) && ProgramByte(vm, vm.Pc() + 3) == Ok(Hi(addr))
    requires dst < |vm.regs| && Read16(vm, addr) == Ok(w)
    ensures ExecMovRegMem(vm).Ok?
    ensures MovedInto(vm, ExecMovRegMem(vm).value, dst, w, 4)
  {
    Bytes.SplitJoin(addr);
    MovRegMemWrites(vm, dst, Lo(addr), Hi(addr), w);
    WriteThenAdvance(vm, dst, w, 4);
  }

  lemma MovRegMemWrites(vm: Vm, dst: byte, lo: byte, hi: byte, w: u16)
    requires |vm.regs| > SbIdx
    requires ProgramByte(vm, vm.Pc() + 1) == Ok(dst)
    requires ProgramByte(vm, vm.Pc() + 2) == Ok(lo) && ProgramByte(vm, vm.Pc() + 3) == Ok(hi)
    requires dst < |vm.regs| && Read16(vm, Join16(lo, hi)) == Ok(w)
    ensures ExecMovRegMem(vm) == Ok(AdvancePc(vm.(regs := vm.regs[dst := w]), 4))
  {
    assert ProgramByte(vm, vm.Pc() + 1).value == dst;
    assert ProgramByte(vm, vm.Pc() + 2).value == lo;
    assert ProgramByte(vm, vm.Pc() + 3).value == hi;
    assert WriteRegister(vm, dst as int, w) == Ok(vm.(regs := vm.regs[dst := w]));
  }

  /** `MOV_REG_IMM dst lo hi` loads the operand word `value` itself. */
  lemma MovRegImmEffect(vm: Vm, dst: byte, value: u16)
    requires |vm.regs| > SbIdx
    requires ProgramByte(vm, vm.Pc() + 1) == Ok(dst)
    requires ProgramByte(vm, vm.Pc() + 2) == Ok(Lo(value)) && ProgramByte(vm, vm.Pc() + 3) == Ok(Hi(value))
    requires dst < |vm.regs|
    ensures ExecMovRegImm(vm).Ok?
    ensures MovedInto(vm, ExecMovRegImm(vm).value, dst, value, 4)
  {
    Bytes.SplitJoin(value);
    MovRegImmWrites(vm, dst, Lo(value), Hi(value));
    WriteThenAdvance(vm, dst, value, 4);
  }

  lemma MovRegImmWrites(vm: Vm, dst: byte, lo: byte, hi: byte)
    requires |vm.regs| > SbIdx
    requires ProgramByte(vm, vm.Pc() + 1) == Ok(dst)
    requires ProgramByte(vm, vm.Pc() + 2) == Ok(lo) && ProgramByte(vm, vm.Pc() + 3) == Ok(hi)
    requires dst < |vm.regs|
    ensures ExecMovRegImm(vm) == Ok(AdvancePc(vm.(regs := vm.regs[dst := Join16(lo, hi)]), 4))
  {
    assert ProgramByte(vm, vm.Pc() + 1).value == dst;
    assert ProgramByte(vm, vm.Pc() + 2).value == lo;
    assert ProgramByte(vm, vm.Pc() + 3).value == hi;
    assert WriteRegister(vm, dst as int, Join16(lo, hi)) == Ok(vm.(regs := vm.regs[dst := Join16(lo, hi)]));
  }

  /** A register move whose destination byte names no register fails. */
  lemma MovToMissingRegisterFails(vm: Vm, dst: byte)
    requires |vm.regs| > SbIdx
    requires ProgramByte(vm, vm.Pc() + 1) == Ok(dst) && dst >= |vm.regs|
    ensures ExecMovRegReg(vm).Err? && ExecMovRegMem(vm).Err? && ExecMovRegImm(vm).Err?
  {
  }

  /** Integer division by a zero register is an error. */
  lemma DivideByZeroFails(vm: Vm, half: HalfOps, d: byte, x: byte, y: byte)
    requires |vm.regs| > SbIdx
    requires ProgramByte(vm, vm.Pc() + 1) == Ok(d)
    requires ProgramByte(vm, vm.Pc() + 2) == Ok(x)
    requires ProgramByte(vm, vm.Pc() + 3) == Ok(y)
    requires x < |vm.regs| && y < |vm.regs| && vm.regs[y] == 0
    ensures ExecArith(vm, Div, half) == Err(VmError.DivideByZero)
  {
  }

  // ---------------------------------------------------------------------
  // Comparison and jumps

  /** A comparison leaves exactly the one relation flag that holds set, keeps
      the other five flag bits, and clears the register's high byte. */
  lemma CompareFlagsExact(flags: u16, x: u16, y: u16)
    ensures var f := CompareFlags(flags, x, y);
            && f < 0x100
            && GetFlag(f, CmpEqual) == (x == y)
            && GetFlag(f, CmpGreaterThan) == (x > y)
            && GetFlag(f, CmpLessThan) == (x < y)
            && (forall g | g !in {CmpEqual, CmpGreaterThan, CmpLessThan} :: GetFlag(f, g) == GetFlag(flags, g))
  {
  }

  /** A comparison sets the flags register from the two words it reads,
      moves `Pc` past its operands, and changes nothing else; it fails
      exactly when reading the words fails. */
  lemma CompareEffect(vm: Vm, op: Op)
    requires |vm.regs| > FlagsIdx && op in {Cmp, CmpRegReg, CmpRegMem, CmpMemReg}
    ensures ExecCompare(vm, op).Ok? <==> ComparisonProperties(vm, op).Ok?
    ensures ExecCompare(vm, op).Ok? ==>
              var (x, y, k) := ComparisonProperties(vm, op).value;
              var r := ExecCompare(vm, op).value;
              && r.regs == vm.regs[FlagsIdx := CompareFlags(vm.regs[FlagsIdx], x, y)][PcIdx := Wrap16(vm.Pc() + 1 + k)]
              && r.mem == vm.mem && r.layout == vm.layout && r.halted == vm.halted
  {
  }

  /** `CMP` compares the word at stack offset `Sp - 4` with the one at
      `Sp - 2` and has no operand bytes. */
  lemma CmpReadsStack(vm: Vm)
    requires |vm.regs| > FlagsIdx
    ensures var a := vm.layout.stackOffset + Wrap16(vm.Sp() - 4);
            var b := vm.layout.stackOffset + Wrap16(vm.Sp() - 2);
            && (ComparisonProperties(vm, Cmp).Ok? <==> Read16(vm, a).Ok? && Read16(vm, b).Ok?)
            && (ComparisonProperties(vm, Cmp).Ok? ==>
                  ComparisonProperties(vm, Cmp).value == (Read16(vm, a).value, Read16(vm, b).value, 0))
  {
  }

  /** `CMP_REG_REG r1 r2` compares two registers over two operand bytes. */
  lemma CmpRegRegReads(vm: Vm, r1: byte, r2: byte)
    requires |vm.regs| > FlagsIdx
    requires ProgramByte(vm, vm.Pc() + 1) == Ok(r1) && ProgramByte(vm, vm.Pc() + 2) == Ok(r2)
    requires r1 < |vm.regs| && r2 < |vm.regs|
    ensures ComparisonProperties(vm, CmpRegReg) == Ok((vm.regs[r1], vm.regs[r2], 2))
  {
  }

  /** `CMP_REG_MEM reg lo hi` compares a register with the word `w` at the
      address `addr` over three operand bytes. */
  lemma CmpRegMemReads(vm: Vm, reg: byte, addr: u16, w: u16)
    requires |vm.regs| > FlagsIdx
    requires ProgramByte(vm, vm.Pc() + 1) == Ok(reg)
    requires ProgramByte(vm, vm.Pc() + 2) == Ok(Lo(addr)) && ProgramByte(vm, vm.Pc() + 3) == Ok(Hi(addr))
    requires reg < |vm.regs| && Read16(vm, addr) == Ok(w)
    ensures ComparisonProperties(vm, CmpRegMem) == Ok((vm.regs[reg], w, 3))
  {
    Bytes.SplitJoin(addr);
    CmpRegMemBytes(vm, reg, Lo(addr), Hi(addr), w);
  }

  lemma CmpRegMemBytes(vm: Vm, reg: byte, lo: byte, hi: byte, w: u16)
    requires |vm.regs| > FlagsIdx
    requires ProgramByte(vm, vm.Pc() + 1) == Ok(reg)
    requires ProgramByte(vm, vm.Pc() + 2) == Ok(lo) && ProgramByte(vm, vm.Pc() + 3) == Ok(hi)
    requires reg < |vm.regs| && Read16(vm, Join16(lo, hi)) == Ok(w)
    ensures ComparisonProperties(vm, CmpRegMem) == Ok((vm.regs[reg], w, 3))
  {
    assert ProgramByte(vm, vm.Pc() + 1).value == reg;
    assert ProgramByte(vm, vm.Pc() + 2).value == lo;
    assert ProgramByte(vm, vm.Pc() + 3).value == hi;
    assert ReadRegister(vm, reg as int) == Ok(vm.regs[reg]);
  }

  /** `CMP_MEM_REG lo hi reg`: the word `w` at the address `addr` against a
      register. */
  lemma CmpMemRegReads(vm: Vm, addr: u16, reg: byte, w: u16)
    requires |vm.regs| > FlagsIdx
    requires ProgramByte(vm, vm.Pc() + 1) == Ok(Lo(addr)) && ProgramByte(vm, vm.Pc() + 2) == Ok(Hi(addr))
    requires ProgramByte(vm, vm.Pc() + 3) == Ok(reg)
    requires reg < |vm.regs| && Read16(vm, addr) == Ok(w)
    ensures ComparisonProperties(vm, CmpMemReg) == Ok((w, vm.regs[reg], 3))
  {
    Bytes.SplitJoin(addr);
    CmpMemRegBytes(vm, Lo(addr), Hi(addr), reg, w);
  }

  lemma CmpMemRegBytes(vm: Vm, lo: byte, hi: byte, reg: byte, w: u16)
    requires |vm.regs| > FlagsIdx
    requires ProgramByte(vm, vm.Pc() + 1) == Ok(lo) && ProgramByte(vm, vm.Pc() + 2) == Ok(hi)
    requires ProgramByte(vm, vm.Pc() + 3) == Ok(reg)
    requires reg < |vm.regs| && Read16(vm, Join16(lo, hi)) == Ok(w)
    ensures ComparisonProperties(vm, CmpMemReg) == Ok((w, vm.regs[reg], 3))
  {
    assert ProgramByte(vm, vm.Pc() + 1).value == lo;
    assert ProgramByte(vm, vm.Pc() + 2).value == hi;
    assert ProgramByte(vm, vm.Pc() + 3).value == reg;
    assert ReadRegister(vm, reg as int) == Ok(vm.regs[reg]);
  }

  /** After a comparison of `x` with `y`, each conditional jump is taken
      exactly when its relation holds. */
  lemma JumpFollowsCompare(vm: Vm, before: u16, x: u16, y: u16)
    requires |vm.regs| > FlagsIdx
    requires vm.regs[FlagsIdx] == CompareFlags(before, x, y)
    ensures ShouldJump(vm, Jump)
    ensures ShouldJump(vm, JumpEq) <==> x == y
    ensures ShouldJump(vm, JumpNeq) <==> x != y
    ensures ShouldJump(vm, JumpGt) <==> x > y
    ensures ShouldJump(vm, JumpLt) <==> x < y
    ensures ShouldJump(vm, JumpGeq) <==> x >= y
    ensures ShouldJump(vm, JumpLeq) <==> x <= y
  {
    CompareFlagsExact(before, x, y);
  }

  /** A taken jump loads its operand into `Pc` and changes nothing else. */
  lemma JumpTaken(vm: Vm, op: Op, lo: byte, hi: byte)
    requires |vm.regs| > FlagsIdx && ShouldJump(vm, op)
    requires ProgramByte(vm, vm.Pc() + 1) == Ok(lo) && ProgramByte(vm, vm.Pc() + 2) == Ok(hi)
    ensures ExecJump(vm, op) == Ok(vm.(regs := vm.regs[PcIdx := Join16(lo, hi)]))
  {
    assert ProgramByte(vm, vm.Pc() + 1).value == lo;
    assert ProgramByte(vm, vm.Pc() + 2).value == hi;
  }

  /** A jump not taken skips its operand without reading it. */
  lemma JumpNotTaken(vm: Vm, op: Op)
    requires |vm.regs| > FlagsIdx && !ShouldJump(vm, op)
    ensures ExecJump(vm, op) == Ok(vm.(regs := vm.regs[PcIdx := Wrap16(vm.Pc() + 3)]))
  {
  }

  // ---------------------------------------------------------------------
  // Stack

  /** `PUSH r` stores `r` at stack offset `Sp`, then grows the stack by a
      word and skips its operand. */
  lemma PushEffect(vm: Vm, r: byte)
    requires |vm.regs| > SbIdx
    requires ProgramByte(vm, vm.Pc() + 1) == Ok(r) && r < |vm.regs|
    requires 0 <= vm.layout.stackOffset && vm.layout.stackOffset + vm.Sp() + 1 < |vm.mem|
    ensures ExecPush(vm).Ok?
    ensures var p := ExecPush(vm).value;
            && SameShape(vm, p)
            && Read16(p, vm.layout.stackOffset + vm.Sp()) == Ok(vm.regs[r])
            && p.Sp() == Wrap16(vm.Sp() + 2)
            && p.Pc() == Wrap16(vm.Pc() + 2)
            && (forall i | 0 <= i < |vm.regs| && i != SpIdx && i != PcIdx :: p.regs[i] == vm.regs[i])
  {
    PushWrites(vm, r);
    WriteThenRead(vm, vm.layout.stackOffset + vm.Sp(), vm.regs[r]);
  }

  /** `PUSH` is one stack write followed by register updates. */
  lemma PushWrites(vm: Vm, r: byte)
    requires |vm.regs| > SbIdx
    requires ProgramByte(vm, vm.Pc() + 1) == Ok(r) && r < |vm.regs|
    requires 0 <= vm.layout.stackOffset && vm.layout.stackOffset + vm.Sp() + 1 < |vm.mem|
    ensures var addr := vm.layout.stackOffset + vm.Sp();
            && Write16(vm, addr, vm.regs[r]).Ok?
            && ExecPush(vm).Ok?
            && ExecPush(vm).value.mem == Write16(vm, addr, vm.regs[r]).value.mem
            && ExecPush(vm).value.layout == vm.layout
            && ExecPush(vm).value.regs == vm.regs[SpIdx := Wrap16(vm.Sp() + 2)][PcIdx := Wrap16(vm.Pc() + 2)]
  {
  }

  /** `POP s` shrinks the stack by a word and loads the word now at offset
      `Sp` into `s`. */
  lemma PopEffect(vm: Vm, s: byte)
    requires |vm.regs| > SbIdx
    requires ProgramByte(vm, vm.Pc() + 1) == Ok(s) && s < |vm.regs| && s != PcIdx && s != SpIdx
    requires 0 <= vm.layout.stackOffset && vm.layout.stackOffset + Wrap16(vm.Sp() - 2) + 1 < |vm.mem|
    ensures ExecPop(vm).Ok?
    ensures var p := ExecPop(vm).value;
            && p.regs[s] == Read16(vm, vm.layout.stackOffset + Wrap16(vm.Sp() - 2)).value
            && p.Sp() == Wrap16(vm.Sp() - 2)
            && p.Pc() == Wrap16(vm.Pc() + 2)
  {
    PopReads(vm, s);
  }

  /** `POP` is one stack read followed by register updates. */
  lemma PopReads(vm: Vm, s: byte)
    requires |vm.regs| > SbIdx
    requires ProgramByte(vm, vm.Pc() + 1) == Ok(s) && s < |vm.regs| && s != PcIdx
    requires 0 <= vm.layout.stackOffset && vm.layout.stackOffset + Wrap16(vm.Sp() - 2) + 1 < |vm.mem|
    ensures var sp := Wrap16(vm.Sp() - 2);
            && Read16(vm, vm.layout.stackOffset + sp).Ok?
            && ExecPop(vm).Ok?
            && ExecPop(vm).value.regs
               == vm.regs[SpIdx := sp][s := Read16(vm, vm.layout.stackOffset + sp).value][PcIdx := Wrap16(vm.Pc() + 2)]
  {
  }

  /** `PUSH r` followed by `POP s` copies `r` into `s` and puts `Sp` back. */
  lemma PushPopRoundTrip(vm: Vm, r: byte, s: byte)
    requires |vm.regs| > SbIdx
    requires ProgramByte(vm, vm.Pc() + 1) == Ok(r) && r < |vm.regs|
    requires 0 <= vm.layout.stackOffset && vm.layout.stackOffset + vm.Sp() + 1 < |vm.mem|
    requires ExecPush(vm).Ok? ==> ProgramByte(ExecPush(vm).value, ExecPush(vm).value.Pc() + 1) == Ok(s)
    requires s < |vm.regs| && s != PcIdx && s != SpIdx
    ensures ExecPush(vm).Ok?
    ensures ExecPop(ExecPush(vm).value).Ok?
    ensures var after := ExecPop(ExecPush(vm).value).value;
            && after.regs[s] == vm.regs[r]
            && after.Sp() == vm.Sp()
            && after.Pc() == Wrap16(Wrap16(vm.Pc() + 2) + 2)
  {
    PushEffect(vm, r);
    PopAfterPush(vm, ExecPush(vm).value, r, s);
  }

  /** The `POP` half of the round trip, from the facts `PUSH` establishes. */
  lemma PopAfterPush(vm: Vm, pushed: Vm, r: byte, s: byte)
    requires |vm.regs| > SbIdx && r < |vm.regs|
    requires SameShape(vm, pushed)
    requires 0 <= vm.layout.stackOffset && vm.layout.stackOffset + vm.Sp() + 1 < |vm.mem|
    requires Read16(pushed, vm.layout.stackOffset + vm.Sp()) == Ok(vm.regs[r])
    requires pushed.Sp() == Wrap16(vm.Sp() + 2)
    requires ProgramByte(pushed, pushed.Pc() + 1) == Ok(s)
    requires s < |vm.regs| && s != PcIdx && s != SpIdx
    ensures ExecPop(pushed).Ok?
    ensures ExecPop(pushed).value.regs[s] == vm.regs[r]
    ensures ExecPop(pushed).value.Sp() == vm.Sp()
    ensures ExecPop(pushed).value.Pc() == Wrap16(pushed.Pc() + 2)
  {
    UndoAdvance(vm.Sp());
    PopEffect(pushed, s);
  }

  /** Moving a 16-bit counter up by a word and back down returns it. */
  lemma UndoAdvance(x: u16)
    ensures Wrap16(Wrap16(x + 2) - 2) == x
  {
  }

  /** `DUP` copies the top word one slot up and grows the stack by one word. */
  lemma DupCopiesTop(vm: Vm)
    requires |vm.regs| > SbIdx
    requires 2 <= vm.Sp()
    requires 0 <= vm.layout.stackOffset && vm.layout.stackOffset + vm.Sp() + 1 < |vm.mem|
    ensures ExecDup(vm).Ok?
    ensures var r := ExecDup(vm).value;
            && r.Sp() == Wrap16(vm.Sp() + 2)
            && StackRead16(r, vm.Sp()) == StackRead16(vm, vm.Sp() - 2)
            && StackRead16(r, vm.Sp() - 2) == StackRead16(vm, vm.Sp() - 2)
  {
    var top := vm.layout.stackOffset + vm.Sp() - 2;
    var value := Read16(vm, top).value;
    DupWrites(vm);
    WriteThenRead(vm, top + 2, value);
    WriteElsewhere(vm, top + 2, value, top);
  }

  /** `DUP` is one stack write followed by register updates. */
  lemma DupWrites(vm: Vm)
    requires |vm.regs| > SbIdx
    requires 2 <= vm.Sp()
    requires 0 <= vm.layout.stackOffset && vm.layout.stackOffset + vm.Sp() + 1 < |vm.mem|
    ensures var top := vm.layout.stackOffset + vm.Sp() - 2;
            && Read16(vm, top).Ok?
            && Write16(vm, top + 2, Read16(vm, top).value).Ok?
            && ExecDup(vm).Ok?
            && ExecDup(vm).value.mem == Write16(vm, top + 2, Read16(vm, top).value).value.mem
            && ExecDup(vm).value.layout == vm.layout
            && ExecDup(vm).value.Sp() == Wrap16(vm.Sp() + 2)
  {
    assert Wrap16(vm.Sp() - 2) == vm.Sp() - 2;
  }

  // ---------------------------------------------------------------------
  // Calls

  /** `CALL` followed by `RET` returns to the instruction after the call with
      `Sb` and `Sp` restored; inside the call the frame base is the caller's
      `Sp` and the backups sit in the fixed registers. */
  lemma CallRetRoundTrip(vm: Vm, lo: byte, hi: byte)
    requires |vm.regs| > SbIdx
    requires ProgramByte(vm, vm.Pc() + 1) == Ok(lo) && ProgramByte(vm, vm.Pc() + 2) == Ok(hi)
    ensures ExecCall(vm).Ok?
    ensures var inside := ExecCall(vm).value;
            && inside.Pc() == Join16(lo, hi)
            && inside.Sb() == vm.Sp() && inside.Sp() == vm.Sp()
            && inside.regs[SbBackup] == vm.Sb()
            && inside.regs[SpBackup] == vm.Sp()
            && inside.regs[ReturnAddress] == Wrap16(vm.Pc() + 3)
            && inside.mem == vm.mem
    ensures var back := ExecRet(ExecCall(vm).value);
            && back.Pc() == Wrap16(vm.Pc() + 3)
            && back.Sb() == vm.Sb()
            && back.Sp() == vm.Sp()
            && (forall i | 0 <= i < |vm.regs| && i !in {SbBackup, SpBackup, ReturnAddress, PcIdx} :: back.regs[i] == vm.regs[i])
  {
  }

  // ---------------------------------------------------------------------
  // Runs

  /** Running `a` steps and then `b` more is running `a + b` steps. */
  lemma {:induction false} RunComposes(step: Vm -> Result<Vm, VmError>, vm: Vm, a: nat, b: nat)
    ensures RunInstructions(step, vm, a + b) ==
              match RunInstructions(step, vm, a)
              case Err(e) => Err(e)
              case Ok(mid) => RunInstructions(step, mid, b)
    decreases a
  {
    if a > 0 && !vm.halted {
      match step(vm)
      case Err(_) =>
      case Ok(next) =>
        RunComposes(step, next, a - 1, b);
        assert a + b - 1 == (a - 1) + b;
    }
  }

  /** A run of one interpreter keeps the shape of the state it started
      from. */
  lemma RunKeepsShape(v: Variant, half: HalfOps, vm: Vm, count: int)
    requires vm.WellFormed(v)
    ensures RunInstructions(Stepper(v, half), vm, count).Ok? ==>
              var r := RunInstructions(Stepper(v, half), vm, count).value;
              r.WellFormed(v) && SameShape(vm, r)
  {
    StepperKeepsShape(v, half);
    RunKeepsShapeOf(Stepper(v, half), v, vm, count);
  }

  /** A step function that keeps well-formed states well-formed and their
      shape unchanged. */
  ghost predicate KeepsShape(step: Vm -> Result<Vm, VmError>, v: Variant) {
    forall vm: Vm | vm.WellFormed(v) && step(vm).Ok? :: step(vm).value.WellFormed(v) && SameShape(vm, step(vm).value)
  }

  lemma StepperKeepsShape(v: Variant, half: HalfOps)
    ensures KeepsShape(Stepper(v, half), v)
  {
    forall vm: Vm | vm.WellFormed(v) && Stepper(v, half)(vm).Ok?
      ensures Stepper(v, half)(vm).value.WellFormed(v) && SameShape(vm, Stepper(v, half)(vm).value)
    {
      assert Stepper(v, half)(vm) == Step(v, half, vm);
    }
  }

  lemma {:induction false} RunKeepsShapeOf(step: Vm -> Result<Vm, VmError>, v: Variant, vm: Vm, count: int)
    requires KeepsShape(step, v) && vm.WellFormed(v)
    ensures RunInstructions(step, vm, count).Ok? ==>
              var r := RunInstructions(step, vm, count).value;
              r.WellFormed(v) && SameShape(vm, r)
    decreases count
  {
    if count > 0 && !vm.halted && step(vm).Ok? {
      RunKeepsShapeOf(step, v, step(vm).value, count - 1);
    }
  }

  /** `RunUntilHalt` with `fuel` steps agrees with `RunInstructions(fuel)`:
      it answers exactly when that run halts or fails. */
  lemma {:induction false} RunUntilHaltAgrees(step: Vm -> Result<Vm, VmError>, vm: Vm, fuel: nat)
    ensures RunUntilHalt(step, vm, fuel).Some? ==>
              RunUntilHalt(step, vm, fuel).value == RunInstructions(step, vm, fuel)
    ensures RunUntilHalt(step, vm, fuel).None? <==>
              RunInstructions(step, vm, fuel).Ok? && !RunInstructions(step, vm, fuel).value.halted
    decreases fuel
  {
    if !vm.halted && fuel > 0 {
      match step(vm)
      case Err(_) =>
      case Ok(next) =>
        RunUntilHaltAgrees(step, next, fuel - 1);
    }
  }

  /** More fuel never changes an answer `RunUntilHalt` has given. */
  lemma {:induction false} RunUntilHaltMonotone(step: Vm -> Result<Vm, VmError>, vm: Vm, fuel: nat, more: nat)
    requires fuel <= more
    requires RunUntilHalt(step, vm, fuel).Some?
    ensures RunUntilHalt(step, vm, more) == RunUntilHalt(step, vm, fuel)
    decreases fuel
  {
    if !vm.halted && fuel > 0 {
      match step(vm)
      case Err(_) =>
      case Ok(next) =>
        RunUntilHaltMonotone(step, next, fuel - 1, more - 1);
    }
  }
}
