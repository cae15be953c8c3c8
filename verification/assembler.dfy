/** The assembler (VASM/Assembler.cs): source text is cleaned into lines,
    split into named sections and an optional static segment, each line is
    encoded on its own, and the sections are laid out after the static data
    with section references patched to absolute addresses. */
module Assembly {
  import opened Results
  import opened Bytes
  import opened Isa
  import opened Text
  import opened SortedMaps
  import opened Compilation
  import Statics
  import ProgramHeaders

  /** The exceptions the assembler can raise. */
  datatype AsmError =
    | MissingOperand                            // indexing past the tokens of a line
    | SubstringOutOfRange                       // `Substring` on a too-short operand
    | BadNumber(reason: NumberError)            // `Convert.ToByte` / `Convert.ToUInt16`
    | InvalidSpecialRegister(name: string)
    | InvalidMovOperands(dst: string, src: string)
    | UnsupportedStaticData
    | DuplicateStaticIdentifier(identifier: string)
    | DuplicateSection(name: string)
    | LabelNotFound(target: string)
    | PatchOutOfRange                           // a relocation offset outside its bytecode

  function Number(r: Result<nat, NumberError>): (n: Result<nat, AsmError>)
    ensures n.Ok? <==> r.Ok?
    ensures n.Ok? ==> n.value == r.value
  {
    match r
    case Ok(v) => Ok(v)
    case Err(e) => Err(BadNumber(e))
  }

  // ---------------------------------------------------------------------
  // The operand patterns

  /** A regular expression `^P$`: .NET's `$` also matches just before a
      final newline. */
  predicate Anchored(s: string, shape: string -> bool) {
    shape(s) || (|s| > 0 && s[|s| - 1] == '\n' && shape(s[..|s| - 1]))
  }

  predicate AllUpperHex(s: string) {
    forall i | 0 <= i < |s| :: IsUpperHexDigit(s[i])
  }

  predicate IsLetter(c: char) {
    ('a' <= c <= 'z') || ('A' <= c <= 'Z')
  }

  predicate IsIdentStart(c: char) {
    IsLetter(c) || c == '_'
  }

  predicate IsIdentChar(c: char) {
    IsLetter(c) || IsDecimalDigit(c) || c == '_'
  }

  /** `[a-zA-Z_][a-zA-Z0-9_]*` */
  predicate IdentShape(s: string) {
    |s| >= 1 && IsIdentStart(s[0]) && forall i | 1 <= i < |s| :: IsIdentChar(s[i])
  }

  /** `0X[0-9A-F]{1,4}` */
  predicate ImmediateShape(s: string) {
    3 <= |s| <= 6 && s[..2] == "0X" && AllUpperHex(s[2..])
  }

  /** `\$0X[0-9A-F]{1,4}` */
  predicate MemoryShape(s: string) {
    4 <= |s| <= 7 && s[..3] == "$0X" && AllUpperHex(s[3..])
  }

  /** `\$REG\d`, with `\d` read as an ASCII digit. */
  predicate RegisterShape(s: string) {
    |s| == 5 && s[..4] == "$REG" && IsDecimalDigit(s[4])
  }

  /** `\.?[a-zA-Z_][a-zA-Z0-9_]*:` */
  predicate LabelShape(s: string) {
    && |s| >= 2 && s[|s| - 1] == ':'
    && (IdentShape(s[..|s| - 1]) || (s[0] == '.' && IdentShape(s[1..|s| - 1])))
  }

  /** `".*"` (the dot excludes the newline). */
  predicate StringLiteralShape(s: string) {
    |s| >= 2 && s[0] == '"' && s[|s| - 1] == '"' && '\n' !in s[1..|s| - 1]
  }

  predicate IsImmediate(s: string) {
    Anchored(s, ImmediateShape)
  }

  /** Compares with `RBP` without the dollar sign, as written. */
  predicate IsSpecialRegister(s: string) {
    s == "$RSP" || s == "RBP" || s == "$RPC"
  }

  predicate IsRegister(s: string) {
    IsSpecialRegister(s) || Anchored(s, RegisterShape)
  }

  predicate IsMemory(s: string) {
    Anchored(s, MemoryShape)
  }

  predicate IsLabelReference(s: string) {
    Anchored(s, IdentShape)
  }

  predicate IsLabel(s: string) {
    Anchored(s, LabelShape)
  }

  predicate IsStringLiteral(s: string) {
    Anchored(s, StringLiteralShape)
  }

  // ---------------------------------------------------------------------
  // Operand conversions

  /** `SplitToBytes`: low byte first. */
  function SplitToBytes(value: u16): (r: (byte, byte))
    ensures Join16(r.0, r.1) == value
  {
    (Lo(value), Hi(value))
  }

  /** `SpecialRegisterToByte`: `$RBP`, `$RSP` and `$RPC` name the base,
      stack and program-counter registers; anything else is refused. */
  function SpecialRegisterToByte(s: string): (r: Result<byte, AsmError>)
    ensures r.Ok? <==> s in {"$RBP", "$RSP", "$RPC"}
    ensures s == "$RBP" ==> r == Ok(RegIndex(Sb))
    ensures s == "$RSP" ==> r == Ok(RegIndex(Sp))
    ensures s == "$RPC" ==> r == Ok(RegIndex(Pc))
  {
    if s == "$RBP" then Ok(RegIndex(Sb))
    else if s == "$RSP" then Ok(RegIndex(Sp))
    else if s == "$RPC" then Ok(RegIndex(Pc))
    else Err(InvalidSpecialRegister(s))
  }

  /** `RegisterToByte`: a special register by name; otherwise the hex number
      after the fourth character, minus one, truncated to a byte. */
  function RegisterToByte(s: string): (r: Result<byte, AsmError>)
    ensures IsSpecialRegister(s) ==> r == SpecialRegisterToByte(s)
    ensures !IsSpecialRegister(s) && |s| < 4 ==> r == Err(SubstringOutOfRange)
    ensures !IsSpecialRegister(s) && |s| >= 4 ==>
              (r.Ok? <==> ParseHex(s[4..], 255).Ok?)
              && (r.Ok? ==> r.value == Wrap8(ParseHex(s[4..], 255).value - 1))
  {
    if IsSpecialRegister(s) then SpecialRegisterToByte(s)
    else if |s| < 4 then Err(SubstringOutOfRange)
    else
      var v :- Number(ParseHex(s[4..], 255));
      Ok(Wrap8(v - 1))
  }

  /** `ImmediateToUShort`: `Convert.ToUInt16(s, 16)`. */
  function ImmediateToUShort(s: string): (r: Result<u16, AsmError>)
    ensures r.Ok? <==> ParseHex(s, 0xFFFF).Ok?
    ensures r.Ok? ==> r.value == ParseHex(s, 0xFFFF).value
  {
    var v :- Number(ParseHex(s, 0xFFFF));
    Ok(v)
  }

  /** `MemoryAddressToUShort`: the number after the leading `$`. */
  function MemoryAddressToUShort(s: string): (r: Result<u16, AsmError>)
    ensures |s| == 0 ==> r == Err(SubstringOutOfRange)
    ensures |s| > 0 ==> r == ImmediateToUShort(s[1..])
  {
    if |s| == 0 then Err(SubstringOutOfRange) else ImmediateToUShort(s[1..])
  }

  // ---------------------------------------------------------------------
  // One line

  /** The non-blank pieces, in order. */
  function NonBlank(parts: seq<string>): (r: seq<string>)
    ensures forall i | 0 <= i < |r| :: r[i] in parts && !IsBlank(r[i])
    ensures |r| <= |parts|
  {
    if |parts| == 0 then []
    else
      var rest := NonBlank(parts[1..]);
      if IsBlank(parts[0]) then rest else [parts[0]] + rest
  }

  /** The upper-cased line split on spaces, blank pieces dropped. */
  function Tokens(asm: string): (t: seq<string>)
    ensures forall i | 0 <= i < |t| :: !IsBlank(t[i]) && ' ' !in t[i]
  {
    NonBlank(Split(ToUpper(asm), ' '))
  }

  function Operand(tokens: seq<string>, k: nat): (r: Result<string, AsmError>)
    ensures r.Ok? <==> k < |tokens|
    ensures r.Ok? ==> r.value == tokens[k]
  {
    if k < |tokens| then Ok(tokens[k]) else Err(MissingOperand)
  }

  /** The mnemonics the encoder knows. */
  const KnownMnemonics: set<string> := {"JUMP", "ADD", "MUL", "CALL", "RET", "PUSH", "POP", "MOV", "HALT"}

  /** `ADD` and `MUL`: three register operands, converted left to right. */
  function ThreeRegisters(op: Op, tokens: seq<string>): (r: Result<CompilationResult, AsmError>)
    ensures r.Ok? ==> |r.value.bytecode| == 4 && r.value.bytecode[0] == Code(op)
    ensures r.Ok? ==> r.value.labelToResolve.None?
    ensures r.Ok? <==> |tokens| >= 4 && RegisterToByte(tokens[1]).Ok?
                       && RegisterToByte(tokens[2]).Ok? && RegisterToByte(tokens[3]).Ok?
    ensures r.Ok? ==> r.value.bytecode == [Code(op), RegisterToByte(tokens[1]).value,
                                           RegisterToByte(tokens[2]).value, RegisterToByte(tokens[3]).value]
  {
    var t1 :- Operand(tokens, 1);
    var x :- RegisterToByte(t1);
    var t2 :- Operand(tokens, 2);
    var y :- RegisterToByte(t2);
    var t3 :- Operand(tokens, 3);
    var z :- RegisterToByte(t3);
    Ok(Plain([Code(op), x, y, z]))
  }

  /** `PUSH` and `POP`: one register operand. */
  function OneRegister(op: Op, tokens: seq<string>): (r: Result<CompilationResult, AsmError>)
    ensures r.Ok? <==> |tokens| >= 2 && RegisterToByte(tokens[1]).Ok?
    ensures r.Ok? ==> r.value == Plain([Code(op), RegisterToByte(tokens[1]).value])
  {
    var t :- Operand(tokens, 1);
    var reg :- RegisterToByte(t);
    Ok(Plain([Code(op), reg]))
  }

  /** `CALL`: an immediate address is encoded in place, a label reference
      leaves a placeholder to patch, anything else encodes nothing. */
  function EncodeCall(tokens: seq<string>): (r: Result<CompilationResult, AsmError>)
    ensures r.Ok? ==> |r.value.bytecode| in {0, 3}
    ensures r.Ok? && |r.value.bytecode| == 3 ==> r.value.bytecode[0] == Code(Call)
    ensures r.Ok? && r.value.labelToResolve.Some? ==> |tokens| >= 2 && r.value == WithLabel([Code(Call), 0, 0], tokens[1], 1)
    ensures |tokens| >= 2 && !IsImmediate(tokens[1]) && IsLabelReference(tokens[1]) ==>
              r == Ok(WithLabel([Code(Call), 0, 0], tokens[1], 1))
    ensures |tokens| >= 2 && IsImmediate(tokens[1]) && ImmediateToUShort(tokens[1]).Ok? ==>
              r.Ok? && r.value.labelToResolve.None? && |r.value.bytecode| == 3
              && Join16(r.value.bytecode[1], r.value.bytecode[2]) == ImmediateToUShort(tokens[1]).value
    ensures |tokens| >= 2 && IsImmediate(tokens[1]) ==>
              (r.Ok? <==> ImmediateToUShort(tokens[1]).Ok?)
              && (r.Ok? ==> var addr := ImmediateToUShort(tokens[1]).value;
                            r.value == Plain([Code(Call), Lo(addr), Hi(addr)]))
    ensures |tokens| >= 2 && !IsImmediate(tokens[1]) && !IsLabelReference(tokens[1]) ==> r == Ok(Plain([]))
    ensures |tokens| < 2 ==> r == Err(MissingOperand)
  {
    var target :- Operand(tokens, 1);
    if IsImmediate(target) then
      var addr :- ImmediateToUShort(target);
      var (lo, hi) := SplitToBytes(addr);
      Ok(Plain([Code(Call), lo, hi]))
    else if IsLabelReference(target) then
      Ok(WithLabel([Code(Call), 0, 0], target, 1))
    else
      Ok(Plain([]))
  }

  /** `MOV dst src`: the operand shapes choose the opcode; the memory
      destination form converts `dst` (not `src`) to the register byte. */
  function EncodeMov(tokens: seq<string>): (r: Result<CompilationResult, AsmError>)
    ensures r.Ok? ==> r.value.labelToResolve.None?
    ensures r.Ok? ==> |r.value.bytecode| > 0 && (r.value.bytecode[0], |r.value.bytecode|)
                      in {(Code(MovRegReg), 3), (Code(MovRegImm), 4), (Code(MovRegMem), 4), (Code(MovMemReg), 4)}
    ensures |tokens| >= 3 && !(IsRegister(tokens[1]) && (IsRegister(tokens[2]) || IsImmediate(tokens[2]) || IsMemory(tokens[2])))
            && !(IsMemory(tokens[1]) && IsRegister(tokens[2])) ==>
              r == Err(InvalidMovOperands(tokens[1], tokens[2]))
    ensures |tokens| < 3 ==> r == Err(MissingOperand)
    // `MOV reg reg`
    ensures |tokens| >= 3 && IsRegister(tokens[1]) && IsRegister(tokens[2]) ==>
              (r.Ok? <==> RegisterToByte(tokens[1]).Ok? && RegisterToByte(tokens[2]).Ok?)
              && (r.Ok? ==> r.value == Plain([Code(MovRegReg), RegisterToByte(tokens[1]).value, RegisterToByte(tokens[2]).value]))
    // `MOV reg imm`
    ensures |tokens| >= 3 && IsRegister(tokens[1]) && !IsRegister(tokens[2]) && IsImmediate(tokens[2]) ==>
              (r.Ok? <==> ImmediateToUShort(tokens[2]).Ok? && RegisterToByte(tokens[1]).Ok?)
              && (r.Ok? ==> var v := ImmediateToUShort(tokens[2]).value;
                            r.value == Plain([Code(MovRegImm), RegisterToByte(tokens[1]).value, Lo(v), Hi(v)]))
    // `MOV reg [addr]`
    ensures |tokens| >= 3 && IsRegister(tokens[1]) && !IsRegister(tokens[2]) && !IsImmediate(tokens[2])
            && IsMemory(tokens[2]) ==>
              (r.Ok? <==> MemoryAddressToUShort(tokens[2]).Ok? && RegisterToByte(tokens[1]).Ok?)
              && (r.Ok? ==> var a := MemoryAddressToUShort(tokens[2]).value;
                            r.value == Plain([Code(MovRegMem), RegisterToByte(tokens[1]).value, Lo(a), Hi(a)]))
    // `MOV [addr] reg`: the register byte is converted from the destination
    ensures |tokens| >= 3 && !(IsRegister(tokens[1]) && (IsRegister(tokens[2]) || IsImmediate(tokens[2]) || IsMemory(tokens[2])))
            && IsMemory(tokens[1]) && IsRegister(tokens[2]) ==>
              (r.Ok? <==> MemoryAddressToUShort(tokens[1]).Ok? && RegisterToByte(tokens[1]).Ok?)
              && (r.Ok? ==> var a := MemoryAddressToUShort(tokens[1]).value;
                            r.value == Plain([Code(MovMemReg), Lo(a), Hi(a), RegisterToByte(tokens[1]).value]))
  {
    var dst :- Operand(tokens, 1);
    var src :- Operand(tokens, 2);
    if IsRegister(dst) && IsRegister(src) then
      var d :- RegisterToByte(dst);
      var s :- RegisterToByte(src);
      Ok(Plain([Code(MovRegReg), d, s]))
    else if IsRegister(dst) && IsImmediate(src) then
      var value :- ImmediateToUShort(src);
      var d :- RegisterToByte(dst);
      Ok(Plain([Code(MovRegImm), d, Lo(value), Hi(value)]))
    else if IsRegister(dst) && IsMemory(src) then
      var addr :- MemoryAddressToUShort(src);
      var d :- RegisterToByte(dst);
      Ok(Plain([Code(MovRegMem), d, Lo(addr), Hi(addr)]))
    else if IsMemory(dst) && IsRegister(src) then
      var addr :- MemoryAddressToUShort(dst);
      var d :- RegisterToByte(dst);
      Ok(Plain([Code(MovMemReg), Lo(addr), Hi(addr), d]))
    else
      Err(InvalidMovOperands(dst, src))
  }

  /** The opcodes the encoder emits, each with the length of its encoding. */
  const EncodedWidths: set<(byte, nat)> :=
    {(Code(Jump), 3), (Code(Add), 4), (Code(Mul), 4), (Code(Call), 3), (Code(Ret), 1),
     (Code(Push), 2), (Code(Pop), 2), (Code(MovRegReg), 3), (Code(MovRegImm), 4),
     (Code(MovRegMem), 4), (Code(MovMemReg), 4), (Code(Halt), 1)}

  /** Encodes a line's tokens; the first token is the mnemonic. */
  function Encode(tokens: seq<string>): (r: Result<CompilationResult, AsmError>)
    ensures tokens == [] ==> r == Err(MissingOperand)
    ensures r.Ok? && r.value.labelToResolve.Some? ==>
              && |r.value.bytecode| == 3 && |tokens| >= 2
              && r.value.bytecode[0] in {Code(Jump), Code(Call)}
              && r.value.bytecode[1..] == [0, 0]
              && r.value.labelToResolve.value == Relocation(tokens[1], 1)
    ensures tokens != [] && tokens[0] !in KnownMnemonics ==> r == Ok(Plain([]))
    ensures tokens != [] && tokens[0] == "JUMP" ==>
              r == if |tokens| >= 2 then Ok(WithLabel([Code(Jump), 0, 0], tokens[1], 1)) else Err(MissingOperand)
    ensures tokens != [] && tokens[0] == "RET" ==> r == Ok(Plain([Code(Ret)]))
    ensures tokens != [] && tokens[0] == "HALT" ==> r == Ok(Plain([Code(Halt)]))
    ensures tokens != [] && tokens[0] == "ADD" ==> r == ThreeRegisters(Add, tokens)
    ensures tokens != [] && tokens[0] == "MUL" ==> r == ThreeRegisters(Mul, tokens)
    ensures tokens != [] && tokens[0] == "CALL" ==> r == EncodeCall(tokens)
    ensures tokens != [] && tokens[0] == "PUSH" ==> r == OneRegister(Push, tokens)
    ensures tokens != [] && tokens[0] == "POP" ==> r == OneRegister(Pop, tokens)
    ensures tokens != [] && tokens[0] == "MOV" ==> r == EncodeMov(tokens)
  {
    var mnemonic :- Operand(tokens, 0);
    if mnemonic == "JUMP" then
      var target :- Operand(tokens, 1);
      Ok(WithLabel([Code(Jump), 0, 0], target, 1))
    else if mnemonic == "ADD" then ThreeRegisters(Add, tokens)
    else if mnemonic == "MUL" then ThreeRegisters(Mul, tokens)
    else if mnemonic == "CALL" then EncodeCall(tokens)
    else if mnemonic == "RET" then Ok(Plain([Code(Ret)]))
    else if mnemonic == "PUSH" then OneRegister(Push, tokens)
    else if mnemonic == "POP" then OneRegister(Pop, tokens)
    else if mnemonic == "MOV" then EncodeMov(tokens)
    else if mnemonic == "HALT" then Ok(Plain([Code(Halt)]))
    else Ok(Plain([]))
  }

  /** `AsmToBytecode`: one line to bytes. Only section references carry a
      relocation, always a two-byte placeholder right after a `JUMP` or
      `CALL` opcode; an unknown mnemonic encodes nothing. */
  function AsmToBytecode(asm: string): (r: Result<CompilationResult, AsmError>)
    ensures Tokens(asm) == [] ==> r == Err(MissingOperand)
    ensures r.Ok? && r.value.labelToResolve.Some? ==>
              && |r.value.bytecode| == 3
              && r.value.bytecode[0] in {Code(Jump), Code(Call)}
              && r.value.bytecode[1..] == [0, 0]
              && r.value.labelToResolve.value.offset == 1
    ensures Tokens(asm) != [] && Tokens(asm)[0] !in KnownMnemonics ==> r == Ok(Plain([]))
    ensures Tokens(asm) != [] && Tokens(asm)[0] == "JUMP" ==>
              r == if |Tokens(asm)| >= 2 then Ok(WithLabel([Code(Jump), 0, 0], Tokens(asm)[1], 1)) else Err(MissingOperand)
    ensures Tokens(asm) != [] && Tokens(asm)[0] == "RET" ==> r == Ok(Plain([Code(Ret)]))
    ensures Tokens(asm) != [] && Tokens(asm)[0] == "HALT" ==> r == Ok(Plain([Code(Halt)]))
  {
    Encode(Tokens(asm))
  }

  // ---------------------------------------------------------------------
  // Source lines

  /** One raw line, trimmed, cut at its first `//`. */
  function CleanLine(line: string): (r: string)
    ensures forall i | 0 <= i < |r| :: !CommentAt(r, i)
    ensures forall c | c in r :: c in line
  {
    var front := TrimStart(line);
    var t := TrimEnd(front);
    var r := BeforeComment(t);
    forall i | 0 <= i < |r|
      ensures !CommentAt(r, i)
    {
      assert !CommentAt(t, i);
      if i + 1 < |r| {
        assert r[i] == t[i] && r[i + 1] == t[i + 1];
      }
    }
    forall c | c in r
      ensures c in line
    {
      var i :| 0 <= i < |r| && r[i] == c;
      assert t[i] == front[i] == line[|line| - |front| + i];
    }
    r
  }

  /** The filter of the constructor: no blank lines, no comment lines. */
  predicate KeepLine(l: string) {
    !IsBlank(l) && !StartsWith(l, "//")
  }

  /** A line the constructor keeps, as `CleanLine` leaves it. */
  predicate Cleaned(l: string) {
    KeepLine(l) && forall k | 0 <= k < |l| :: !CommentAt(l, k)
  }

  function CleanLines(raw: seq<string>): (lines: seq<string>)
    ensures |lines| <= |raw|
    ensures forall i | 0 <= i < |lines| :: Cleaned(lines[i])
  {
    if |raw| == 0 then []
    else
      var rest := CleanLines(raw[1..]);
      var line := CleanLine(raw[0]);
      if KeepLine(line) then [line] + rest else rest
  }

  /** Cleaning adds no character: one absent from every raw line is absent
      from every kept line. */
  lemma {:induction false} CleanLinesWithout(raw: seq<string>, c: char)
    requires forall i | 0 <= i < |raw| :: c !in raw[i]
    ensures forall i | 0 <= i < |CleanLines(raw)| :: c !in CleanLines(raw)[i]
  {
    if |raw| > 0 {
      assert forall i | 0 <= i < |raw[1..]| :: raw[1..][i] == raw[i + 1];
      CleanLinesWithout(raw[1..], c);
      var line := CleanLine(raw[0]);
      assert c !in raw[0];
      assert c !in line;
      var rest := CleanLines(raw[1..]);
      var lines := CleanLines(raw);
      assert lines == if KeepLine(line) then [line] + rest else rest;
      forall i | 0 <= i < |lines|
        ensures c !in lines[i]
      {
        if KeepLine(line) && i > 0 {
          assert lines[i] == rest[i - 1];
        }
      }
    }
  }

  /** The constructor's line preparation: split on `\n`, trim, drop what
      follows `//`, keep the non-blank lines. */
  function Normalize(source: string): (lines: seq<string>)
    ensures forall i | 0 <= i < |lines| :: !IsBlank(lines[i]) && '\n' !in lines[i]
    ensures forall i, k | 0 <= i < |lines| && 0 <= k < |lines[i]| :: !CommentAt(lines[i], k)
  {
    var raw := Split(source, '\n');
    CleanLinesWithout(raw, '\n');
    CleanLines(raw)
  }

  // ---------------------------------------------------------------------
  // Sections and the static segment

  /** One `$identifier: "text"` line: the identifier, and the text's ASCII
      bytes behind a one-byte length. */
  function StaticLine(line: string): (r: Result<(string, seq<byte>), AsmError>)
    ensures r.Ok? ==> |r.value.1| >= 1 && r.value.1[0] == Wrap8(|r.value.1| - 1)
    ensures r.Ok? ==> forall k | 1 <= k < |r.value.1| :: r.value.1[k] < 0x80
    ensures r.Ok? <==> IsStringLiteral(Trim(Join(':', Split(line, ':')[1..])))
  {
    var parts := Split(line, ':');
    var identifier := Trim(TrimStartChar(parts[0], '$'));
    var value := Trim(Join(':', parts[1..]));
    if !IsStringLiteral(value) then Err(UnsupportedStaticData)
    else
      Ok((identifier, LengthPrefixed(TrimChar(value, '"'))))
  }

  /** The stored form of a static string: its length as one byte, then its
      ASCII bytes. */
  function LengthPrefixed(text: string): (b: seq<byte>)
    ensures |b| == |text| + 1 && b[0] == Wrap8(|text|)
    ensures forall k | 1 <= k < |b| :: b[k] < 0x80
  {
    var bytes := AsciiBytes(text);
    assert forall k | 0 <= k < |bytes| :: bytes[k] < 0x80;
    [Wrap8(|text|)] + bytes
  }

  /** One iteration of the static segment's loop: a duplicate identifier
      makes the dictionary throw. */
  function AddStaticLine(lt: Less, d: Statics.StaticData, line: string): (r: Result<Statics.StaticData, AsmError>)
    ensures r.Ok? ==> r.value.size > d.size
  {
    var item :- StaticLine(line);
    match Statics.Add(lt, d, item.0, item.1)
    case None => Err(DuplicateStaticIdentifier(item.0))
    case Some(d') => Ok(d')
  }

  /** Where the static segment's loop stops: the first line at or after `i`
      that does not start with `$`, or the end. */
  function StaticEnd(lines: seq<string>, i: nat): (j: nat)
    requires i <= |lines|
    ensures i <= j <= |lines|
    ensures j < |lines| ==> !StartsWith(lines[j], "$")
    ensures forall k | i <= k < j :: StartsWith(lines[k], "$")
    decreases |lines| - i
  {
    if i == |lines| || !StartsWith(lines[i], "$") then i else StaticEnd(lines, i + 1)
  }

  /** `ParseStaticSegment`: consumes the lines starting with `$` from `i`
      on, adding each to `d`; returns the segment and the first line it did
      not consume. */
  function ParseStaticSegment(lt: Less, lines: seq<string>, i: nat, d: Statics.StaticData)
    : (r: Result<(Statics.StaticData, nat), AsmError>)
    requires i <= |lines|
    ensures r.Ok? ==> r.value.1 == StaticEnd(lines, i)
    ensures r.Ok? ==> r.value.0.size >= d.size
    decreases |lines| - i
  {
    if i == |lines| || !StartsWith(lines[i], "$") then Ok((d, i))
    else
      match AddStaticLine(lt, d, lines[i])
      case Err(e) => Err(e)
      case Ok(d') => ParseStaticSegment(lt, lines, i + 1, d')
  }

  /** `ParseSection`'s stopping point: the first label line at or after
      `i`, or the end. */
  function SectionEnd(lines: seq<string>, i: nat): (j: nat)
    requires i <= |lines|
    ensures i <= j <= |lines|
    ensures j < |lines| ==> IsLabel(lines[j])
    ensures forall k | i <= k < j :: !IsLabel(lines[k])
    decreases |lines| - i
  {
    if i == |lines| || IsLabel(lines[i]) then i else SectionEnd(lines, i + 1)
  }

  /** What parsing collects: the last static segment seen, and the source
      lines of each section by upper-cased name. */
  datatype Parsed = Parsed(staticData: Option<Statics.StaticData>, sections: seq<Entry<seq<string>>>)

  /** The name a section starting at `line` gets. */
  function SectionName(line: string): string {
    if IsLabel(line) then ToUpper(TrimEndChar(line, ':')) else "_START"
  }

  /** `ParseSections` from line `i` on. A `.static` line (in any case) starts
      a new static segment; a label line starts the section it names; any
      other line starts the implicit `_START` section. */
  function ParseSections(lt: Less, lines: seq<string>, i: nat, acc: Parsed): (r: Result<Parsed, AsmError>)
    requires i <= |lines|
    ensures r.Ok? ==> |r.value.sections| >= |acc.sections|
    ensures r.Ok? && acc.staticData.Some? ==> r.value.staticData.Some?
    decreases |lines| - i
  {
    if i == |lines| then Ok(acc)
    else if ToUpper(lines[i]) == ".STATIC" then
      var segment :- ParseStaticSegment(lt, lines, i + 1, Statics.Empty());
      ParseSections(lt, lines, segment.1, acc.(staticData := Some(segment.0)))
    else
      var start := if IsLabel(lines[i]) then i + 1 else i;
      var name := SectionName(lines[i]);
      if HasKey(acc.sections, name) then Err(DuplicateSection(name))
      else
        var end := SectionEnd(lines, start);
        var section := Entry(name, lines[start..end]);
        ParseSections(lt, lines, end, acc.(sections := Insert(lt, acc.sections, section)))
  }

  // ---------------------------------------------------------------------
  // Compiling and linking

  /** `CompileSection`: each line on its own. */
  function CompileSection(lines: seq<string>): (r: Result<seq<CompilationResult>, AsmError>)
    ensures r.Ok? <==> forall k | 0 <= k < |lines| :: AsmToBytecode(lines[k]).Ok?
    ensures r.Ok? ==> |r.value| == |lines|
    ensures r.Ok? ==> forall k | 0 <= k < |lines| :: AsmToBytecode(lines[k]) == Ok(r.value[k])
  {
    MapAll(lines, AsmToBytecode)
  }

  /** `CompileSections`: every section in map order, under the same name. */
  function CompileSections(sections: seq<Entry<seq<string>>>): (r: Result<seq<Entry<seq<CompilationResult>>>, AsmError>)
    ensures r.Ok? ==> |r.value| == |sections|
    ensures r.Ok? ==> forall k | 0 <= k < |sections| ::
              r.value[k].key == sections[k].key && CompileSection(sections[k].value) == Ok(r.value[k].value)
  {
    if |sections| == 0 then Ok([])
    else
      var first :- CompileSection(sections[0].value);
      var rest :- CompileSections(sections[1..]);
      Ok([Entry(sections[0].key, first)] + rest)
  }

  /** The number of bytes a compiled section occupies. */
  function SectionSize(results: seq<CompilationResult>): nat {
    if |results| == 0 then 0 else |results[0].bytecode| + SectionSize(results[1..])
  }

  /** The bytes of all sections. */
  function TotalSize(sections: seq<Entry<seq<CompilationResult>>>): nat {
    if |sections| == 0 then 0 else SectionSize(sections[0].value) + TotalSize(sections[1..])
  }

  /** The first pass of `EmitCompiledProgram`: each section's address, the
      sections laid out back to back from `start` in map order. */
  function Bases(sections: seq<Entry<seq<CompilationResult>>>, start: int): (bases: seq<Entry<int>>)
    ensures |bases| == |sections|
    ensures forall k {:trigger bases[k]} | 0 <= k < |sections| :: bases[k].key == sections[k].key
    ensures |sections| > 0 ==> bases[0].value == start
  {
    if |sections| == 0 then []
    else [Entry(sections[0].key, start)] + Bases(sections[1..], start + SectionSize(sections[0].value))
  }

  /** Writes a section's address over a result's placeholder; a reference
      to a section that does not exist is an error. */
  function Patch(result: CompilationResult, bases: seq<Entry<int>>): (r: Result<seq<byte>, AsmError>)
    ensures result.labelToResolve.None? ==> r == Ok(result.bytecode)
    ensures result.labelToResolve.Some? && !HasKey(bases, result.labelToResolve.value.target) ==>
              r == Err(LabelNotFound(result.labelToResolve.value.target))
    ensures r.Ok? ==> |r.value| == |result.bytecode|
    ensures r.Ok? && result.labelToResolve.Some? ==>
              var at := result.labelToResolve.value.offset;
              var base := Get(bases, result.labelToResolve.value.target);
              && base.Some? && 0 <= at && at + 1 < |r.value|
              && Join16(r.value[at], r.value[at + 1]) == Wrap16(base.value)
              && forall k | 0 <= k < |r.value| && k != at && k != at + 1 :: r.value[k] == result.bytecode[k]
  {
    match result.labelToResolve
    case None => Ok(result.bytecode)
    case Some(rel) =>
      match Get(bases, rel.target)
      case None => Err(LabelNotFound(rel.target))
      case Some(base) =>
        if !(0 <= rel.offset && rel.offset + 1 < |result.bytecode|) then Err(PatchOutOfRange)
        else
          var (lo, hi) := SplitToBytes(Wrap16(base));
          Ok(result.bytecode[rel.offset := lo][rel.offset + 1 := hi])
  }

  /** A section's bytes with every placeholder patched. */
  function EmitSection(results: seq<CompilationResult>, bases: seq<Entry<int>>): (r: Result<seq<byte>, AsmError>)
    ensures r.Ok? ==> |r.value| == SectionSize(results)
  {
    if |results| == 0 then Ok([])
    else
      var first :- Patch(results[0], bases);
      var rest :- EmitSection(results[1..], bases);
      Ok(first + rest)
  }

  /** The second pass: all sections in map order. */
  function EmitSections(sections: seq<Entry<seq<CompilationResult>>>, bases: seq<Entry<int>>): (r: Result<seq<byte>, AsmError>)
  {
    if |sections| == 0 then Ok([])
    else
      var first :- EmitSection(sections[0].value, bases);
      var rest :- EmitSections(sections[1..], bases);
      Ok(first + rest)
  }

  /** The header the assembler writes: version 1, little-endian, no
      options, the static segment's size truncated to 16 bits. */
  function EmittedHeader(staticSize: nat): (h: ProgramHeaders.ProgramHeader)
    ensures h.staticSegmentSize == staticSize % 0x1_0000
    ensures h.version == ProgramHeaders.Version
  {
    ProgramHeaders.ProgramHeader(ProgramHeaders.Version, 0, 0, Wrap16(staticSize), 0)
  }

  /** The static segment's bytes; none when no `.static` line was seen. */
  function StaticBytes(staticData: Option<Statics.StaticData>): seq<byte> {
    if staticData.Some? then Statics.AllBytes(staticData.value) else []
  }

  /** `EmitCompiledProgram`: header, then the static bytes, then the
      sections laid out from the end of the static data. */
  function EmitCompiledProgram(staticData: Option<Statics.StaticData>, compiled: seq<Entry<seq<CompilationResult>>>)
    : (r: Result<seq<byte>, AsmError>)
  {
    EmitImage(StaticBytes(staticData), compiled)
  }

  /** The image for given static bytes. */
  function EmitImage(staticBytes: seq<byte>, compiled: seq<Entry<seq<CompilationResult>>>): (r: Result<seq<byte>, AsmError>)
  {
    var bases := Bases(compiled, |staticBytes|);
    var code :- EmitSections(compiled, bases);
    Ok(ProgramHeaders.ToBytes(EmittedHeader(|staticBytes|)) + staticBytes + code)
  }

  /** `new Assembler(source)` followed by `EmitCompiledProgram`. */
  function Assemble(lt: Less, source: string): (r: Result<seq<byte>, AsmError>)
  {
    var parsed :- ParseSections(lt, Normalize(source), 0, Parsed(None, []));
    var compiled :- CompileSections(parsed.sections);
    EmitCompiledProgram(parsed.staticData, compiled)
  }
}
