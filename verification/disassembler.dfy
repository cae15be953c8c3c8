/** The disassembler (VASM/Disassembler.cs): the code after the header and
    the static segment is decoded instruction by instruction from a table of
    operand kinds, every jump or call target becomes a fresh `_Label_n`, and
    the listing is printed with each label placed before the instruction
    whose offset equals its target. */
module Disassembly {
  import opened Results
  import opened Bytes
  import opened Isa
  import opened Text
  import ProgramHeaders

  /** The kinds of operand an instruction carries (`ArgType`). */
  datatype ArgType = Literal8 | Literal16 | LabelRef | RegArg

  /** `_argSizes`: bytes an operand occupies. */
  function ArgSize(a: ArgType): nat {
    match a
    case RegArg => 1
    case Literal8 => 1
    case Literal16 => 2
    case LabelRef => 2
  }

  /** Bytes a list of operands occupies. */
  function ArgsSize(args: seq<ArgType>): nat {
    if |args| == 0 then 0 else ArgSize(args[0]) + ArgsSize(args[1..])
  }

  /** How many of the operands are label references. */
  function LabelRefCount(args: seq<ArgType>): nat {
    if |args| == 0 then 0 else (if args[0] == LabelRef then 1 else 0) + LabelRefCount(args[1..])
  }

  /** `InstructionInfos`: the operand kinds of the opcodes the disassembler
      knows; every other opcode is missing from the dictionary. Every listed
      opcode has a mnemonic (`OperandsNamed`), so building the table never
      fails. */
  function Operands(op: Op): Option<seq<ArgType>> {
    match op
    case Noop => Some([])
    case MovMemReg => Some([Literal16, RegArg])
    case MovRegMem => Some([RegArg, Literal16])
    case MovRegImm => Some([RegArg, Literal16])
    case MovRegReg => Some([RegArg, RegArg])
    case Add => Some([RegArg, RegArg, RegArg])
    case Sub => Some([RegArg, RegArg, RegArg])
    case Mul => Some([RegArg, RegArg, RegArg])
    case Div => Some([RegArg, RegArg, RegArg])
    case Jump => Some([LabelRef])
    case JumpZero => Some([LabelRef])
    case JumpNotZero => Some([LabelRef])
    case Push => Some([RegArg])
    case Pop => Some([RegArg])
    case Call => Some([LabelRef])
    case Ret => Some([])
    case Print => Some([Literal16])
    case Halt => Some([])
    case _ => None
  }

  lemma OperandsNamed(op: Op)
    requires Operands(op).Some?
    ensures MnemonicOf(op).Some?
  {
  }

  /** `_registerLabels`: the printed name of each register byte. */
  const RegisterLabels: seq<string> :=
    ["$reg1", "$reg2", "$reg3", "$reg4", "$reg5", "$reg6", "$reg7", "$reg8", "$rbp", "$rsp", "$rpc"]

  /** The exceptions the disassembler can raise. */
  datatype DisasmError =
    | InvalidOpCode(code: byte)   // a byte that names no opcode
    | KeyNotFound                 // an opcode without a table entry
    | IndexOutOfRange             // reading past the program or the register names
    | ArgumentOutOfRange          // reading past a truncated header

  /** A decoded instruction: its text and how many bytes it took. */
  datatype Instruction = Instruction(asm: string, size: nat)

  /** A generated label and the address it refers to. */
  datatype Label = Label(name: string, target: nat)

  /** The name of the `n`-th label, `_Label_{n}`. */
  function LabelName(n: nat): string {
    "_Label_" + Decimal(n)
  }

  /** `{b:X2}`: upper-case hexadecimal, padded to two digits. */
  function Hex2(b: byte): (s: string)
    ensures |s| == 2 && AllHex(s) && HexValue(s) == b
  {
    var s := [HexChar(b / 16), HexChar(b % 16)];
    assert s[..1] == [HexChar(b / 16)] && s[..1][..0] == [];
    assert HexValue(s[..1]) == b / 16;
    s
  }

  /** The operands of one instruction as printed, where decoding stopped and
      the labels it created (the label counter is threaded through). */
  datatype Rendered = Rendered(text: string, pc: nat, count: nat, labels: seq<Label>)

  /** The operand loop of `Disassemble` from program offset `pc`. */
  function RenderArgs(program: seq<byte>, pc: nat, args: seq<ArgType>, count: nat): (r: Result<Rendered, DisasmError>)
    requires pc <= |program|
    ensures r.Err? ==> r.error == IndexOutOfRange
    ensures r.Ok? ==> r.value.pc == pc + ArgsSize(args) <= |program|
    ensures r.Ok? ==> |r.value.labels| == LabelRefCount(args) && r.value.count == count + |r.value.labels|
    ensures r.Ok? ==> forall k | 0 <= k < |r.value.labels| :: r.value.labels[k].name == LabelName(count + k + 1)
    decreases |args|
  {
    if |args| == 0 then Ok(Rendered("", pc, count, []))
    else
      match args[0]
      case RegArg =>
        if pc >= |program| || program[pc] >= |RegisterLabels| then Err(IndexOutOfRange)
        else
          var rest :- RenderArgs(program, pc + 1, args[1..], count);
          Ok(rest.(text := RegisterLabels[program[pc]] + " " + rest.text))
      case Literal8 =>
        if pc >= |program| then Err(IndexOutOfRange)
        else
          var rest :- RenderArgs(program, pc + 1, args[1..], count);
          Ok(rest.(text := "0x" + Hex2(program[pc]) + " " + rest.text))
      case Literal16 =>
        if pc + 1 >= |program| then Err(IndexOutOfRange)
        else
          var rest :- RenderArgs(program, pc + 2, args[1..], count);
          Ok(rest.(text := "0x" + HexUpper(Join16(program[pc], program[pc + 1])) + " " + rest.text))
      case LabelRef =>
        if pc + 1 >= |program| then Err(IndexOutOfRange)
        else
          var made := Label(LabelName(count + 1), Join16(program[pc], program[pc + 1]));
          var rest :- RenderArgs(program, pc + 2, args[1..], count + 1);
          Ok(rest.(text := made.name + " " + rest.text, labels := [made] + rest.labels))
  }

  /** The decoded instructions and the labels, in the order they were made. */
  datatype Listing = Listing(instructions: seq<Instruction>, labels: seq<Label>)

  /** Bytes taken by a run of instructions. */
  function TotalSize(instrs: seq<Instruction>): nat {
    if |instrs| == 0 then 0 else instrs[0].size + TotalSize(instrs[1..])
  }

  /** The decoding loop of `Disassemble`, from `pc` to the end of the
      program, with `count` labels made so far. */
  function DecodeFrom(program: seq<byte>, pc: nat, count: nat): (r: Result<Listing, DisasmError>)
    ensures r.Ok? ==> TotalSize(r.value.instructions) == if pc < |program| then |program| - pc else 0
    ensures r.Ok? ==> forall i | 0 <= i < |r.value.instructions| :: r.value.instructions[i].size >= 1
    ensures r.Ok? ==> forall k | 0 <= k < |r.value.labels| :: r.value.labels[k].name == LabelName(count + k + 1)
    ensures pc >= |program| ==> r == Ok(Listing([], []))
    ensures pc < |program| && DecodeOp(program[pc]).None? ==> r == Err(InvalidOpCode(program[pc]))
    ensures pc < |program| && DecodeOp(program[pc]).Some? && Operands(DecodeOp(program[pc]).value).None? ==>
              r == Err(KeyNotFound)
    decreases |program| - pc
  {
    if pc >= |program| then Ok(Listing([], []))
    else
      match DecodeOp(program[pc])
      case None => Err(InvalidOpCode(program[pc]))
      case Some(op) =>
        match Operands(op)
        case None => Err(KeyNotFound)
        case Some(args) =>
          var operands :- RenderArgs(program, pc + 1, args, count);
          OperandsNamed(op);
          var instr := Instruction(MnemonicName(MnemonicOf(op).value) + " " + operands.text, operands.pc - pc);
          var rest :- DecodeFrom(program, operands.pc, operands.count);
          Ok(Listing([instr] + rest.instructions, operands.labels + rest.labels))
  }

  /** The constructor: without a header decoding starts at byte 0, with one
      just after the header and the static segment; a truncated header
      throws. */
  function Start(program: seq<byte>): (r: Result<nat, DisasmError>)
    ensures r.Err? <==> ProgramHeaders.FromBytes(program).Err?
    ensures r.Err? ==> r.error == ArgumentOutOfRange
    ensures ProgramHeaders.FromBytes(program) == Ok(None) ==> r == Ok(0)
    ensures ProgramHeaders.FromBytes(program).Ok? && ProgramHeaders.FromBytes(program).value.Some? ==>
              r == Ok(ProgramHeaders.DefaultHeaderSize + ProgramHeaders.FromBytes(program).value.value.staticSegmentSize)
  {
    match ProgramHeaders.FromBytes(program)
    case Err(_) => Err(ArgumentOutOfRange)
    case Ok(None) => Ok(0)
    case Ok(Some(h)) => Ok(h.sizeBytes + h.staticSegmentSize)
  }

  // ---------------------------------------------------------------------
  // Listing

  /** Places `l` before the first label whose target is not smaller, so it
      precedes the labels with its own target. */
  function InsertByTarget(l: Label, sorted: seq<Label>): (r: seq<Label>)
    ensures |r| == |sorted| + 1
  {
    if |sorted| == 0 || l.target <= sorted[0].target then [l] + sorted
    else [sorted[0]] + InsertByTarget(l, sorted[1..])
  }

  /** `OrderBy(kvp => kvp.Value)`: a stable sort by target. */
  function SortByTarget(labels: seq<Label>): (r: seq<Label>)
    ensures |r| == |labels|
  {
    if |labels| == 0 then [] else InsertByTarget(labels[0], SortByTarget(labels[1..]))
  }

  /** One instruction of the listing, with the label printed before it, if
      any, and the indentation in force. */
  datatype Row = Row(heading: Option<Label>, indent: string, instr: Instruction)

  const Indent := "    "

  /** The printing loop: `next` is the first label not yet printed and
      `offset` the offset of the current instruction, counted from 0. At most
      one label is printed per instruction, and only the next one in order. */
  function Rows(instrs: seq<Instruction>, sorted: seq<Label>, next: nat, offset: nat, indent: string): (rows: seq<Row>)
    ensures |rows| == |instrs|
    ensures forall i {:trigger rows[i]} | 0 <= i < |rows| :: rows[i].instr == instrs[i]
    ensures forall i | 0 <= i < |rows| :: rows[i].heading.Some? ==> rows[i].heading.value.target == offset + TotalSize(instrs[..i])
    decreases |instrs|
  {
    if |instrs| == 0 then []
    else
      var here := next < |sorted| && offset == sorted[next].target;
      var indent' := if here then Indent else indent;
      var row := Row(if here then Some(sorted[next]) else None, indent', instrs[0]);
      var rest := Rows(instrs[1..], sorted, if here then next + 1 else next, offset + instrs[0].size, indent');
      var rows := [row] + rest;
      assert forall i | 1 <= i < |instrs| :: instrs[..i][1..] == instrs[1..][..i - 1];
      assert instrs[..0] == [];
      rows
  }

  /** The text lines of one row. */
  function RowLines(row: Row): seq<string> {
    (match row.heading
     case Some(l) => [l.name + ":"]
     case None => [])
    + [row.indent + row.instr.asm]
  }

  function AllLines(rows: seq<Row>): seq<string> {
    if |rows| == 0 then [] else RowLines(rows[0]) + AllLines(rows[1..])
  }

  /** `AppendLine` of every line, with `\n` as the line terminator. */
  function Joined(lines: seq<string>): string {
    if |lines| == 0 then "" else lines[0] + "\n" + Joined(lines[1..])
  }

  /** The rows of a decoded listing: `_start:` first unless the start section
      is implicit, which also sets the indentation. */
  function ListingRows(listing: Listing, implicitStart: bool): seq<Row> {
    Rows(listing.instructions, SortByTarget(listing.labels), 0, 0, if implicitStart then "" else Indent)
  }

  function ListingLines(listing: Listing, implicitStart: bool): seq<string> {
    (if implicitStart then [] else ["_start:"]) + AllLines(ListingRows(listing, implicitStart))
  }

  /** `new Disassembler(program, options).Disassemble()`. */
  function Disassemble(program: seq<byte>, implicitStart: bool): (r: Result<string, DisasmError>)
    ensures r.Ok? <==> Start(program).Ok? && DecodeFrom(program, Start(program).value, 0).Ok?
  {
    var start :- Start(program);
    var listing :- DecodeFrom(program, start, 0);
    var lines := ListingLines(listing, implicitStart);
    Ok(Joined(lines))
  }
}
