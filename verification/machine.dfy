/** The interpreter (vehement/VM.cs), with the older copy in VASM/VM.cs as a
    `Legacy` variant of the same step function. The machine is an immutable
    record; every C# mutation becomes a new record and every exception an
    `Err`. */
module Machine {
  import opened Results
  import opened Bytes
  import opened Isa
  import opened Words
  import ProgramHeaders
  import IsaFacts

  /** `DEFAULT_MEMORY_SIZE` (`ushort.MaxValue`) and `DEFAULT_STACK_SIZE`. */
  const DefaultMemorySize := 0xFFFF
  const DefaultStackSize := 4096

  const PcIdx := RegIndex(Pc)
  const SpIdx := RegIndex(Sp)
  const SbIdx := RegIndex(Sb)
  const FlagsIdx := RegIndex(Flags)

  /** Which of the two interpreters: `Current` is vehement/VM.cs, `Legacy` is
      the older VASM/VM.cs. */
  datatype Variant = Current | Legacy

  /** `TOTAL_REGISTER_COUNT`: the legacy machine has no flags register. */
  function RegisterCount(v: Variant): nat {
    match v
    case Current => 12
    case Legacy => 11
  }

  /** The segment configuration fields of the VM class. */
  datatype Layout = Layout(
    memorySize: int,
    staticSegmentSize: int,
    programOffset: int,
    programSize: int,
    stackOffset: int,
    stackSize: int,
    heapOffset: int,
    heapSize: int,
    programSegmentReadonly: bool,
    disallowExecutingOutsideProgramSegment: bool)

  /** Registers, memory, layout and the halted flag. */
  datatype Vm = Vm(layout: Layout, regs: seq<u16>, mem: seq<byte>, halted: bool) {

    predicate WellFormed(v: Variant) {
      |regs| == RegisterCount(v)
    }

    function Pc(): u16
      requires |regs| > SbIdx
    {
      regs[PcIdx]
    }

    function Sp(): u16
      requires |regs| > SbIdx
    {
      regs[SpIdx]
    }

    function Sb(): u16
      requires |regs| > SbIdx
    {
      regs[SbIdx]
    }
  }

  /** What the C# interpreter throws. */
  datatype VmError =
    | NonExecutablePc(pc: u16)
    | UnrecognizedInstruction(opcode: byte)
    | IndexOutOfRange
    | ArgumentOutOfRange
    | Argument            // `ArgumentException`
    | DivideByZero

  /** A successor state keeps the shape of its predecessor. */
  ghost predicate SameShape(vm: Vm, vm': Vm) {
    && |vm'.regs| == |vm.regs|
    && vm'.layout == vm.layout
    && |vm'.mem| == |vm.mem|
  }

  // ---------------------------------------------------------------------
  // Registers and memory

  function SetReg(vm: Vm, i: nat, value: u16): (r: Vm)
    requires i < |vm.regs|
    ensures SameShape(vm, r)
  {
    vm.(regs := vm.regs[i := value])
  }

  /** `ReadRegister`: indexing the register array. */
  function ReadRegister(vm: Vm, r: int): Result<u16, VmError> {
    if 0 <= r < |vm.regs| then Ok(vm.regs[r]) else Err(IndexOutOfRange)
  }

  /** `WriteRegister`. */
  function WriteRegister(vm: Vm, r: int, value: u16): (res: Result<Vm, VmError>)
    ensures res.Ok? <==> 0 <= r < |vm.regs|
    ensures res.Ok? ==> res.value == vm.(regs := vm.regs[r := value])
  {
    if 0 <= r < |vm.regs| then Ok(vm.(regs := vm.regs[r := value])) else Err(IndexOutOfRange)
  }

  /** The read-only program range `[ProgramOffset, ProgramOffset + ProgramSize)`. */
  predicate InProgramSegment(layout: Layout, addr: int) {
    layout.programOffset <= addr < layout.programOffset + layout.programSize
  }

  /** `Read16`: little-endian word at a raw memory address. */
  function Read16(vm: Vm, addr: int): (r: Result<u16, VmError>)
    ensures r.Ok? <==> 0 <= addr && addr + 1 < |vm.mem|
  {
    if 0 <= addr && addr + 1 < |vm.mem| then Ok(vm.mem[addr] as int + vm.mem[addr + 1] as int * 0x100)
    else Err(IndexOutOfRange)
  }

  /** `Write16`: a write into the read-only program range halts the machine,
      yet both bytes are still stored. */
  function Write16(vm: Vm, addr: int, value: u16): (r: Result<Vm, VmError>)
    ensures r.Ok? <==> 0 <= addr && addr + 1 < |vm.mem|
    ensures r.Ok? ==>
              && SameShape(vm, r.value)
              && 0 <= addr && addr + 1 < |vm.mem|
              && r.value.halted == (vm.halted || (vm.layout.programSegmentReadonly && InProgramSegment(vm.layout, addr)))
              && r.value.mem[addr] == Lo(value) && r.value.mem[addr + 1] == Hi(value)
              && (forall i | 0 <= i < |vm.mem| && i != addr && i != addr + 1 :: r.value.mem[i] == vm.mem[i])
              && r.value.regs == vm.regs
  {
    var halted := vm.halted || (vm.layout.programSegmentReadonly && InProgramSegment(vm.layout, addr));
    if 0 <= addr && addr + 1 < |vm.mem| then
      Ok(vm.(halted := halted, mem := vm.mem[addr := Lo(value)][addr + 1 := Hi(value)]))
    else Err(IndexOutOfRange)
  }

  /** `StackRead16` / `StackWrite16`: offsets from the stack segment start;
      the memory array, not the stack span, bounds them. */
  function StackRead16(vm: Vm, offset: u16): Result<u16, VmError> {
    Read16(vm, vm.layout.stackOffset + offset)
  }

  function StackWrite16(vm: Vm, offset: u16, value: u16): Result<Vm, VmError> {
    Write16(vm, vm.layout.stackOffset + offset, value)
  }

  /** `Program[k]`: the program span is cut out of memory (which fails when it
      does not fit) and then indexed. */
  function ProgramByte(vm: Vm, k: int): (r: Result<byte, VmError>)
    ensures r.Ok? <==> 0 <= vm.layout.programOffset && 0 <= k < vm.layout.programSize && vm.layout.programOffset + vm.layout.programSize <= |vm.mem|
    ensures r.Ok? ==> 0 <= vm.layout.programOffset + k < |vm.mem| && r.value == vm.mem[vm.layout.programOffset + k]
  {
    var l := vm.layout;
    if l.programOffset < 0 || l.programSize < 0 || l.programOffset + l.programSize > |vm.mem| then
      Err(ArgumentOutOfRange)
    else if 0 <= k < l.programSize then Ok(vm.mem[l.programOffset + k])
    else Err(IndexOutOfRange)
  }

  function AdvancePc(vm: Vm, n: nat): (r: Vm)
    requires |vm.regs| > SbIdx
    ensures SameShape(vm, r)
  {
    SetReg(vm, PcIdx, Wrap16(vm.Pc() + n))
  }

  // ---------------------------------------------------------------------
  // Flags

  /** `GetFlag`: `HasFlag` on the byte-sized view of the flags register. */
  predicate GetFlag(flags: u16, f: FlagsValue) {
    HasBit(flags % 0x100, FlagBit(f))
  }

  /** `SetFlag`: the getter casts the register to the byte-sized enum, so the
      register's high byte is dropped; then one bit is set or cleared and the
      others are kept. */
  function SetFlag(flags: u16, f: FlagsValue, value: bool): (r: byte)
    ensures GetFlag(r, f) == value
    ensures forall g | g != f :: GetFlag(r, g) == GetFlag(flags, g)
  {
    var low := flags % 0x100;
    assert low % 0x100 == low;
    if HasBit(low, FlagBit(f)) == value then
      low
    else if value then
      SetFlagBits(low, f);
      var r := low + FlagMask(f);
      assert r % 0x100 == r;
      r
    else
      ClearFlagBits(low, f);
      var r := low - FlagMask(f);
      assert r % 0x100 == r;
      r
  }

  lemma SetFlagBits(low: byte, f: FlagsValue)
    requires !HasBit(low, FlagBit(f))
    ensures low + FlagMask(f) < 0x100
    ensures HasBit(low + FlagMask(f), FlagBit(f))
    ensures forall g | g != f :: HasBit(low + FlagMask(f), FlagBit(g)) == HasBit(low, FlagBit(g))
  {
    IsaFacts.FlagsAreBits(f, f);
    assert Pow2(8) == 0x100 by {
      assert Pow2(4) == 16;
    }
    SetBitBound(low, FlagBit(f), 8);
    SetBit(low, FlagBit(f), FlagBit(f));
    forall g | g != f
      ensures HasBit(low + FlagMask(f), FlagBit(g)) == HasBit(low, FlagBit(g))
    {
      IsaFacts.FlagsAreBits(f, g);
      SetBit(low, FlagBit(f), FlagBit(g));
    }
  }

  lemma ClearFlagBits(low: byte, f: FlagsValue)
    requires HasBit(low, FlagBit(f))
    ensures low >= FlagMask(f)
    ensures !HasBit(low - FlagMask(f), FlagBit(f))
    ensures forall g | g != f :: HasBit(low - FlagMask(f), FlagBit(g)) == HasBit(low, FlagBit(g))
  {
    IsaFacts.FlagsAreBits(f, f);
    ClearBit(low, FlagBit(f), FlagBit(f));
    forall g | g != f
      ensures HasBit(low - FlagMask(f), FlagBit(g)) == HasBit(low, FlagBit(g))
    {
      IsaFacts.FlagsAreBits(f, g);
      ClearBit(low, FlagBit(f), FlagBit(g));
    }
  }

  /** `ShouldJump`. `JUMP` does not consult the flags at all. */
  predicate ShouldJump(vm: Vm, op: Op)
    requires op == Jump || |vm.regs| > FlagsIdx
  {
    if op == Jump then true
    else
      var flags := vm.regs[FlagsIdx];
      || (op == JumpEq && GetFlag(flags, CmpEqual))
      || (op == JumpNeq && !GetFlag(flags, CmpEqual))
      || (op == JumpGt && GetFlag(flags, CmpGreaterThan))
      || (op == JumpLt && GetFlag(flags, CmpLessThan))
      || (op == JumpGeq && !GetFlag(flags, CmpLessThan))
      || (op == JumpLeq && !GetFlag(flags, CmpGreaterThan))
  }

  // ---------------------------------------------------------------------
  // Instructions

  /** The opcodes each interpreter has a `case` for. */
  predicate Implemented(v: Variant, op: Op) {
    match v
    case Current =>
      op in {Noop, Push, Pop, Dup, Add, AddF, Sub, SubF, Mul, MulF, Div, DivF,
             CmpMemReg, CmpRegMem, CmpRegReg, Cmp, MovRegReg, MovRegMem, MovMemReg, MovRegImm,
             Jump, JumpEq, JumpNeq, JumpGt, JumpLt, JumpLeq, JumpGeq, Call, Ret, Halt}
    case Legacy =>
      op in {Noop, Push, Pop, Add, Sub, Mul, Div,
             MovRegReg, MovRegMem, MovMemReg, MovRegImm, Jump, Call, Ret, Halt}
  }

  /** The checked Pc range: the current machine refuses `Pc >= ProgramSize`,
      the legacy one only `Pc > ProgramSize`. */
  predicate PcNotExecutable(v: Variant, vm: Vm)
    requires |vm.regs| > SbIdx
  {
    var l := vm.layout;
    var below := l.disallowExecutingOutsideProgramSegment && vm.Pc() < l.staticSegmentSize;
    match v
    case Current => below || vm.Pc() >= l.programSize
    case Legacy => below || vm.Pc() > l.programSize
  }

  /** `Step`. The register array always has the variant's length; a state
      whose array is shorter fails like the array access would. */
  function Step(v: Variant, half: HalfOps, vm: Vm): (r: Result<Vm, VmError>)
    ensures vm.halted ==> r == Ok(vm)
    ensures !vm.halted && !vm.WellFormed(v) ==> r == Err(IndexOutOfRange)
    ensures !vm.halted && vm.WellFormed(v) && PcNotExecutable(v, vm) ==> r == Err(NonExecutablePc(vm.Pc()))
    ensures r.Ok? && !vm.halted ==> r.value.WellFormed(v) && SameShape(vm, r.value)
  {
    if vm.halted then Ok(vm)
    else if !vm.WellFormed(v) then Err(IndexOutOfRange)
    else if PcNotExecutable(v, vm) then Err(NonExecutablePc(vm.Pc()))
    else
      var b :- ProgramByte(vm, vm.Pc());
      match DecodeOp(b)
      case None => Err(UnrecognizedInstruction(b))
      case Some(op) =>
        if Implemented(v, op) then Execute(v, half, vm, op) else Err(UnrecognizedInstruction(b))
  }

  /** `Step` of one interpreter as a value, for the run loops. */
  function Stepper(v: Variant, half: HalfOps): Vm -> Result<Vm, VmError> {
    vm => Step(v, half, vm)
  }

  /** The body of the `switch` for one implemented opcode. */
  function Execute(v: Variant, half: HalfOps, vm: Vm, op: Op): (r: Result<Vm, VmError>)
    requires vm.WellFormed(v) && Implemented(v, op)
    ensures r.Ok? ==> SameShape(vm, r.value)
  {
    match op
    case Noop => Ok(AdvancePc(vm, 1))
    case Push => ExecPush(vm)
    case Pop => ExecPop(vm)
    case Dup => ExecDup(vm)
    case Add => ExecArith(vm, op, half)
    case Sub => ExecArith(vm, op, half)
    case Mul => ExecArith(vm, op, half)
    case Div => ExecArith(vm, op, half)
    case AddF => ExecArith(vm, op, half)
    case SubF => ExecArith(vm, op, half)
    case MulF => ExecArith(vm, op, half)
    case DivF => ExecArith(vm, op, half)
    case Cmp => ExecCompare(vm, op)
    case CmpRegReg => ExecCompare(vm, op)
    case CmpRegMem => ExecCompare(vm, op)
    case CmpMemReg => ExecCompare(vm, op)
    case MovRegReg => ExecMovRegReg(vm)
    case MovRegMem => ExecMovRegMem(vm)
    case MovMemReg => ExecMovMemReg(vm)
    case MovRegImm => ExecMovRegImm(vm)
    case Jump => ExecJump(vm, op)
    case JumpEq => ExecJump(vm, op)
    case JumpNeq => ExecJump(vm, op)
    case JumpGt => ExecJump(vm, op)
    case JumpLt => ExecJump(vm, op)
    case JumpGeq => ExecJump(vm, op)
    case JumpLeq => ExecJump(vm, op)
    case Call => ExecCall(vm)
    case Ret => Ok(ExecRet(vm))
    case Halt => Ok(vm.(halted := true))
    case _ => Err(UnrecognizedInstruction(Code(op)))
  }

  /** `PUSH reg`: store at stack offset `Sp`, then `Sp += 2`. */
  function ExecPush(vm: Vm): (r: Result<Vm, VmError>)
    requires |vm.regs| > SbIdx
    ensures r.Ok? ==> SameShape(vm, r.value)
  {
    var reg :- ProgramByte(vm, vm.Pc() + 1);
    var value :- ReadRegister(vm, reg);
    var vm1 :- StackWrite16(vm, vm.Sp(), value);
    var vm2 := SetReg(vm1, SpIdx, Wrap16(vm1.Sp() + 2));
    Ok(AdvancePc(vm2, 2))
  }

  /** `POP reg`: `Sp -= 2`, then load from stack offset `Sp`. */
  function ExecPop(vm: Vm): (r: Result<Vm, VmError>)
    requires |vm.regs| > SbIdx
    ensures r.Ok? ==> SameShape(vm, r.value)
  {
    var reg :- ProgramByte(vm, vm.Pc() + 1);
    var vm1 := SetReg(vm, SpIdx, Wrap16(vm.Sp() - 2));
    var value :- StackRead16(vm1, vm1.Sp());
    var vm2 :- WriteRegister(vm1, reg, value);
    Ok(AdvancePc(vm2, 2))
  }

  /** `DUP`: copy the word at `Sp - 2` to `Sp`, then `Sp += 2`. */
  function ExecDup(vm: Vm): (r: Result<Vm, VmError>)
    requires |vm.regs| > SbIdx
    ensures r.Ok? ==> SameShape(vm, r.value)
  {
    var value :- StackRead16(vm, Wrap16(vm.Sp() - 2));
    var vm1 :- StackWrite16(vm, vm.Sp(), value);
    var vm2 := SetReg(vm1, SpIdx, Wrap16(vm1.Sp() + 2));
    Ok(AdvancePc(vm2, 1))
  }

  /** The value an arithmetic opcode computes from its two source registers. */
  function ArithValue(op: Op, a: u16, b: u16, half: HalfOps): Result<u16, VmError>
    requires op in {Add, Sub, Mul, Div, AddF, SubF, MulF, DivF}
  {
    match op
    case Add => Ok(Wrap16(a + b))
    case Sub => Ok(Wrap16(a - b))
    case Mul => Ok(Wrap16(a * b))
    case Div => if b == 0 then Err(VmError.DivideByZero) else Ok(Wrap16(a / b))
    case AddF => Ok(half.add(a, b))
    case SubF => Ok(half.sub(a, b))
    case MulF => Ok(half.mul(a, b))
    case DivF => Ok(half.div(a, b))
  }

  /** `ADD`/`SUB`/`MUL`/`DIV` and their half-float twins: `r1 := r2 op r3`. */
  function ExecArith(vm: Vm, op: Op, half: HalfOps): (r: Result<Vm, VmError>)
    requires |vm.regs| > SbIdx
    requires op in {Add, Sub, Mul, Div, AddF, SubF, MulF, DivF}
    ensures r.Ok? ==> SameShape(vm, r.value)
  {
    var d :- ProgramByte(vm, vm.Pc() + 1);
    var x :- ProgramByte(vm, vm.Pc() + 2);
    var y :- ProgramByte(vm, vm.Pc() + 3);
    var a :- ReadRegister(vm, x);
    var b :- ReadRegister(vm, y);
    var value :- ArithValue(op, a, b, half);
    var vm1 :- WriteRegister(vm, d, value);
    Ok(AdvancePc(vm1, 4))
  }

  /** `GetComparisonProperties`: the two compared words and the operand
      length. */
  function ComparisonProperties(vm: Vm, op: Op): Result<(u16, u16, nat), VmError>
    requires |vm.regs| > SbIdx
    requires op in {Cmp, CmpRegReg, CmpRegMem, CmpMemReg}
  {
    match op
    case Cmp =>
      var x :- StackRead16(vm, Wrap16(vm.Sp() - 4));
      var y :- StackRead16(vm, Wrap16(vm.Sp() - 2));
      Ok((x, y, 0))
    case CmpMemReg =>
      var lo :- ProgramByte(vm, vm.Pc() + 1);
      var hi :- ProgramByte(vm, vm.Pc() + 2);
      var x :- Read16(vm, Join16(lo, hi));
      var reg :- ProgramByte(vm, vm.Pc() + 3);
      var y :- ReadRegister(vm, reg);
      Ok((x, y, 3))
    case CmpRegMem =>
      var reg :- ProgramByte(vm, vm.Pc() + 1);
      var x :- ReadRegister(vm, reg);
      var lo :- ProgramByte(vm, vm.Pc() + 2);
      var hi :- ProgramByte(vm, vm.Pc() + 3);
      var y :- Read16(vm, Join16(lo, hi));
      Ok((x, y, 3))
    case CmpRegReg =>
      var r1 :- ProgramByte(vm, vm.Pc() + 1);
      var x :- ReadRegister(vm, r1);
      var r2 :- ProgramByte(vm, vm.Pc() + 2);
      var y :- ReadRegister(vm, r2);
      Ok((x, y, 2))
  }

  /** The flags register after comparing `x` with `y`: equal, greater-than and
      less-than are set or cleared in that order. */
  function CompareFlags(flags: u16, x: u16, y: u16): byte {
    var f1 := SetFlag(flags, CmpEqual, x == y);
    var f2 := SetFlag(f1, CmpGreaterThan, x > y);
    SetFlag(f2, CmpLessThan, x < y)
  }

  /** `CMP`, `CMP_REG_REG`, `CMP_REG_MEM`, `CMP_MEM_REG`. */
  function ExecCompare(vm: Vm, op: Op): (r: Result<Vm, VmError>)
    requires |vm.regs| > FlagsIdx
    requires op in {Cmp, CmpRegReg, CmpRegMem, CmpMemReg}
    ensures r.Ok? ==> SameShape(vm, r.value)
  {
    var props :- ComparisonProperties(vm, op);
    var (x, y, offset) := props;
    var vm1 := SetReg(vm, FlagsIdx, CompareFlags(vm.regs[FlagsIdx], x, y));
    Ok(AdvancePc(vm1, 1 + offset))
  }

  /** `MOV_REG_REG dst src`. */
  function ExecMovRegReg(vm: Vm): (r: Result<Vm, VmError>)
    requires |vm.regs| > SbIdx
    ensures r.Ok? ==> SameShape(vm, r.value)
  {
    var reg :- ProgramByte(vm, vm.Pc() + 1);
    var reg2 :- ProgramByte(vm, vm.Pc() + 2);
    var value :- ReadRegister(vm, reg2);
    var vm1 :- WriteRegister(vm, reg, value);
    Ok(AdvancePc(vm1, 3))
  }

  /** `MOV_REG_MEM reg lo hi`. */
  function ExecMovRegMem(vm: Vm): (r: Result<Vm, VmError>)
    requires |vm.regs| > SbIdx
    ensures r.Ok? ==> SameShape(vm, r.value)
  {
    var reg :- ProgramByte(vm, vm.Pc() + 1);
    var lo :- ProgramByte(vm, vm.Pc() + 2);
    var hi :- ProgramByte(vm, vm.Pc() + 3);
    var value :- Read16(vm, Join16(lo, hi));
    var vm1 :- WriteRegister(vm, reg, value);
    Ok(AdvancePc(vm1, 4))
  }

  /** `MOV_MEM_REG lo hi reg`. */
  function ExecMovMemReg(vm: Vm): (r: Result<Vm, VmError>)
    requires |vm.regs| > SbIdx
    ensures r.Ok? ==> SameShape(vm, r.value)
  {
    var lo :- ProgramByte(vm, vm.Pc() + 1);
    var hi :- ProgramByte(vm, vm.Pc() + 2);
    var reg :- ProgramByte(vm, vm.Pc() + 3);
    var value :- ReadRegister(vm, reg);
    var vm1 :- Write16(vm, Join16(lo, hi), value);
    Ok(AdvancePc(vm1, 4))
  }

  /** `MOV_REG_IMM reg lo hi`. */
  function ExecMovRegImm(vm: Vm): (r: Result<Vm, VmError>)
    requires |vm.regs| > SbIdx
    ensures r.Ok? ==> SameShape(vm, r.value)
  {
    var reg :- ProgramByte(vm, vm.Pc() + 1);
    var lo :- ProgramByte(vm, vm.Pc() + 2);
    var hi :- ProgramByte(vm, vm.Pc() + 3);
    var vm1 :- WriteRegister(vm, reg, Join16(lo, hi));
    Ok(AdvancePc(vm1, 4))
  }

  /** `JUMP` and the conditional jumps: the operand is read only when the
      jump is taken. */
  function ExecJump(vm: Vm, op: Op): (r: Result<Vm, VmError>)
    requires |vm.regs| > SbIdx
    requires op == Jump || |vm.regs| > FlagsIdx
    ensures r.Ok? ==> SameShape(vm, r.value)
  {
    if ShouldJump(vm, op) then
      var lo :- ProgramByte(vm, vm.Pc() + 1);
      var hi :- ProgramByte(vm, vm.Pc() + 2);
      Ok(SetReg(vm, PcIdx, Join16(lo, hi)))
    else Ok(AdvancePc(vm, 3))
  }

  /** `CALL target`: back up `Sb`, `Sp` and the return address into the
      fixed registers, start a frame at `Sp` and jump. */
  function ExecCall(vm: Vm): (r: Result<Vm, VmError>)
    requires |vm.regs| > SbIdx
    ensures r.Ok? ==> SameShape(vm, r.value)
  {
    var lo :- ProgramByte(vm, vm.Pc() + 1);
    var hi :- ProgramByte(vm, vm.Pc() + 2);
    var vm1 := SetReg(vm, SbBackup, vm.Sb());
    var vm2 := SetReg(vm1, SpBackup, vm1.Sp());
    var vm3 := SetReg(vm2, ReturnAddress, Wrap16(vm2.Pc() + 3));
    var vm4 := SetReg(vm3, SbIdx, vm3.Sp());
    Ok(SetReg(vm4, PcIdx, Join16(lo, hi)))
  }

  /** `RET`: restore `Sb`, `Sp` and `Pc` from the backup registers. */
  function ExecRet(vm: Vm): (r: Vm)
    requires |vm.regs| > SbIdx
    ensures SameShape(vm, r)
  {
    var vm1 := SetReg(vm, SbIdx, vm.regs[SbBackup]);
    var vm2 := SetReg(vm1, SpIdx, vm1.regs[SpBackup]);
    SetReg(vm2, PcIdx, vm2.regs[ReturnAddress])
  }

  // ---------------------------------------------------------------------
  // Running

  /** `RunInstructions`: `count` steps, stopping early once the machine
      halts. Both interpreters share this loop, so it takes the step
      function as a parameter. */
  function RunInstructions(step: Vm -> Result<Vm, VmError>, vm: Vm, count: int): (r: Result<Vm, VmError>)
    decreases count
  {
    if count <= 0 || vm.halted then Ok(vm)
    else
      var vm1 :- step(vm);
      RunInstructions(step, vm1, count - 1)
  }

  /** `RunUntilHalt`, which loops forever on a program that never halts; the
      model gives up with `None` once `fuel` steps are spent. */
  function RunUntilHalt(step: Vm -> Result<Vm, VmError>, vm: Vm, fuel: nat): (r: Option<Result<Vm, VmError>>)
    ensures r.Some? && r.value.Ok? ==> r.value.value.halted
    decreases fuel
  {
    if vm.halted then Some(Ok(vm))
    else if fuel == 0 then None
    else
      match step(vm)
      case Err(e) => Some(Err(e))
      case Ok(vm1) => RunUntilHalt(step, vm1, fuel - 1)
  }

  // ---------------------------------------------------------------------
  // Loading

  /** `InitializeMemoryLayout`: program at 0 spanning the whole input
      (header included), the stack right after it, the heap to the end of
      memory. */
  function InitialLayout(h: ProgramHeaders.ProgramHeader, programLength: nat): (l: Layout)
    ensures l.memorySize == DefaultMemorySize
    ensures l.programOffset == 0 && l.programSize == programLength
    ensures l.stackOffset == l.programOffset + l.programSize && l.stackSize == DefaultStackSize
    ensures l.heapOffset == l.stackOffset + l.stackSize
    ensures l.heapOffset + l.heapSize == l.memorySize
    ensures l.staticSegmentSize == h.staticSegmentSize
    ensures l.programSegmentReadonly && l.disallowExecutingOutsideProgramSegment
  {
    var heapOffset := programLength + DefaultStackSize;
    Layout(DefaultMemorySize, h.staticSegmentSize, 0, programLength,
           programLength, DefaultStackSize, heapOffset, DefaultMemorySize - heapOffset,
           true, true)
  }

  /** The header the constructor runs with: the parsed one, or the default
      when the input does not start with the magic number. */
  function LoadedHeader(program: seq<byte>): (r: Result<ProgramHeaders.ProgramHeader, VmError>)
    ensures r.Ok? ==> r.value.sizeBytes <= |program|
    ensures r.Ok? && r.value.sizeBytes == 0 ==> r.value == ProgramHeaders.Default()
    ensures r.Err? <==> ProgramHeaders.FromBytes(program).Err?
    ensures r.Err? ==> r.error == ArgumentOutOfRange
    ensures ProgramHeaders.FromBytes(program) == Ok(None) ==> r == Ok(ProgramHeaders.Default())
    ensures ProgramHeaders.FromBytes(program).Ok? && ProgramHeaders.FromBytes(program).value.Some? ==>
              r == Ok(ProgramHeaders.FromBytes(program).value.value)
  {
    match ProgramHeaders.FromBytes(program)
    case Err(_) => Err(ArgumentOutOfRange)
    case Ok(None) => Ok(ProgramHeaders.Default())
    case Ok(Some(h)) => Ok(h)
  }

  /** The `VM(byte[])` constructor: a zeroed memory of `DefaultMemorySize`
      bytes receives the input minus its header at address 0, and `Pc`
      starts past the static segment. */
  function Load(v: Variant, program: seq<byte>): (r: Result<Vm, VmError>)
    ensures r.Ok? <==>
              LoadedHeader(program).Ok? && |program| - LoadedHeader(program).value.sizeBytes <= DefaultMemorySize
    ensures r.Ok? ==>
              var h := LoadedHeader(program).value;
              var code := program[h.sizeBytes..];
              && r.value.WellFormed(v)
              && !r.value.halted
              && r.value.layout == InitialLayout(h, |program|)
              && |r.value.mem| == DefaultMemorySize
              && r.value.mem[..|code|] == code
              && (forall i | |code| <= i < DefaultMemorySize :: r.value.mem[i] == 0)
              && r.value.regs[PcIdx] == h.staticSegmentSize
              && (forall i | 0 <= i < |r.value.regs| && i != PcIdx :: r.value.regs[i] == 0)
    ensures LoadedHeader(program).Err? ==> r == Err(ArgumentOutOfRange)
    ensures LoadedHeader(program).Ok? && |program| - LoadedHeader(program).value.sizeBytes > DefaultMemorySize ==>
              r == Err(Argument)
  {
    var h :- LoadedHeader(program);
    var code := program[h.sizeBytes..];
    if |code| > DefaultMemorySize then Err(Argument)
    else
      var mem := code + seq(DefaultMemorySize - |code|, _ => 0);
      var regs := seq(RegisterCount(v), _ => 0)[PcIdx := h.staticSegmentSize];
      Ok(Vm(InitialLayout(h, |program|), regs, mem, false))
  }
}
