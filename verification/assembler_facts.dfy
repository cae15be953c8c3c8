/** Properties of the assembler: how operands name registers (including the
    quirks of the special registers and of `MOV` to memory), the layout of
    an emitted image, and what loading it into the machine yields. */
module AssemblyFacts {
  import opened Results
  import opened Bytes
  import opened Isa
  import opened Text
  import opened SortedMaps
  import opened SortedMapFacts
  import opened Compilation
  import opened Assembly
  import Statics
  import StaticsFacts
  import ProgramHeaders
  import HeaderFacts
  import Machine
  import IsaFacts

  // ---------------------------------------------------------------------
  // Register operands

  /** `$REGn` is register index `n - 1`, so `$REG0` wraps to 255 and `$REG9`
      is the program counter's index. */
  lemma RegisterOperand(c: char)
    requires IsDecimalDigit(c)
    ensures RegisterShape("$REG" + [c])
    ensures RegisterToByte("$REG" + [c]) == Ok(Wrap8(DigitValue(c) - 1))
  {
    var s := "$REG" + [c];
    assert s[4..] == [c];
    assert !IsSpecialRegister(s);
    assert HexValue([c]) == DigitValue(c) by {
      assert [c][..0] == [];
    }
  }

  lemma RegisterOperandEdges()
    ensures RegisterToByte("$REG0") == Ok(255)
    ensures RegisterToByte("$REG1") == Ok(RegIndex(Reg1))
    ensures RegisterToByte("$REG9") == Ok(RegIndex(Pc))
  {
    RegisterDigit('0', "$REG0");
    RegisterDigit('1', "$REG1");
    RegisterDigit('9', "$REG9");
  }

  lemma RegisterDigit(c: char, name: string)
    requires IsDecimalDigit(c) && name == "$REG" + [c]
    ensures RegisterToByte(name) == Ok(Wrap8(DigitValue(c) - 1))
  {
    RegisterOperand(c);
  }

  /** `$RSP` and `$RPC` are recognised, but `$RBP` is not (the test looks for
      `RBP`): `$RBP` fails as an empty number, and `RBP` is special yet has
      no conversion. */
  lemma SpecialRegisters()
    ensures RegisterToByte("$RSP") == Ok(RegIndex(Sp))
    ensures RegisterToByte("$RPC") == Ok(RegIndex(Pc))
    ensures !IsRegister("$RBP")
    ensures RegisterToByte("$RBP") == Err(BadNumber(EmptyInput))
    ensures IsRegister("RBP") && RegisterToByte("RBP") == Err(InvalidSpecialRegister("RBP"))
  {
    assert "$RBP"[4..] == "";
    assert !RegisterShape("$RBP");
  }

  // ---------------------------------------------------------------------
  // MOV to memory

  /** Every non-empty encoding starts with one of the twelve opcodes the
      encoder knows and is exactly as long as that opcode's form. */
  lemma EncodedWidth(tokens: seq<string>)
    requires Encode(tokens).Ok? && |Encode(tokens).value.bytecode| > 0
    ensures (Encode(tokens).value.bytecode[0], |Encode(tokens).value.bytecode|) in EncodedWidths
  {
    var m := tokens[0];
    if m == "CALL" {
      assert Encode(tokens) == EncodeCall(tokens);
    } else if m == "MOV" {
      assert Encode(tokens) == EncodeMov(tokens);
    } else if m in {"ADD", "MUL"} {
      assert Encode(tokens) == ThreeRegisters(if m == "ADD" then Add else Mul, tokens);
    } else if m in {"PUSH", "POP"} {
      assert Encode(tokens) == OneRegister(if m == "PUSH" then Push else Pop, tokens);
    }
  }

  /** The opcode of every assembled instruction carries, in the mnemonic
      table, the mnemonic the line was written with: disassembling an
      assembled line prints its mnemonic back. */
  lemma AssembledMnemonic(asm: string)
    requires AsmToBytecode(asm).Ok? && |AsmToBytecode(asm).value.bytecode| > 0
    ensures var b := AsmToBytecode(asm).value.bytecode[0];
            && DecodeOp(b).Some? && MnemonicOf(DecodeOp(b).value).Some?
            && MnemonicName(MnemonicOf(DecodeOp(b).value).value) == Tokens(asm)[0]
  {
    EncodedMnemonic(Tokens(asm));
  }

  lemma EncodedMnemonic(tokens: seq<string>)
    requires Encode(tokens).Ok? && |Encode(tokens).value.bytecode| > 0
    ensures var b := Encode(tokens).value.bytecode[0];
            && DecodeOp(b).Some? && MnemonicOf(DecodeOp(b).value).Some?
            && MnemonicName(MnemonicOf(DecodeOp(b).value).value) == tokens[0]
  {
    var m, b := tokens[0], Encode(tokens).value.bytecode[0];
    assert m in KnownMnemonics;
    var op: Op;
    if m == "MOV" {
      EncodeRoutesMov(tokens);
      op := if b == Code(MovRegReg) then MovRegReg
            else if b == Code(MovRegImm) then MovRegImm
            else if b == Code(MovRegMem) then MovRegMem
            else MovMemReg;
      assert b == Code(op);
      IsaFacts.MovFamilyIsMov();
      assert MnemonicName(MOV) == "MOV";
    } else {
      op := NamedOp(m);
      assert b == Code(op);
      NamedOpMnemonic(m);
    }
    IsaFacts.DecodeOpInvertsCode(op);
  }

  lemma NamedOpMnemonic(m: string)
    requires m in KnownMnemonics - {"MOV"}
    ensures MnemonicOf(NamedOp(m)).Some? && MnemonicName(MnemonicOf(NamedOp(m)).value) == m
  {
    if m == "JUMP" { OpMnemonic(Jump, JUMP); }
    else if m == "ADD" { OpMnemonic(Add, ADD); }
    else if m == "MUL" { OpMnemonic(Mul, MUL); }
    else if m == "CALL" { OpMnemonic(Call, CALL); }
    else if m == "RET" { OpMnemonic(Ret, RET); }
    else if m == "PUSH" { OpMnemonic(Push, PUSH); }
    else if m == "POP" { OpMnemonic(Pop, POP); }
    else { OpMnemonic(Halt, HALT); }
  }

  lemma OpMnemonic(op: Op, n: Mnemonic)
    requires (op, n) in {(Jump, JUMP), (Add, ADD), (Mul, MUL), (Call, CALL), (Ret, RET), (Push, PUSH), (Pop, POP), (Halt, HALT)}
    ensures MnemonicOf(op) == Some(n)
  {
    match op
    case Jump =>
    case Add =>
    case Mul =>
    case Call =>
    case Ret =>
    case Push =>
    case Pop =>
    case Halt =>
  }

  /** The one opcode each mnemonic other than `MOV` assembles to. */
  function NamedOp(m: string): Op {
    if m == "JUMP" then Jump
    else if m == "ADD" then Add
    else if m == "MUL" then Mul
    else if m == "CALL" then Call
    else if m == "RET" then Ret
    else if m == "PUSH" then Push
    else if m == "POP" then Pop
    else Halt
  }

  /** `Encode` hands a `MOV` line to `EncodeMov`. */
  lemma EncodeRoutesMov(tokens: seq<string>)
    requires |tokens| > 0 && tokens[0] == "MOV"
    ensures Encode(tokens) == EncodeMov(tokens)
  {
  }

  /** `MOV $0X12 $REG3` takes its register byte from the destination
      operand: `"$0X12"` minus its first four characters is `"2"`, so the
      register byte is 1 (register 2), not 2 (register 3). */
  lemma MovToMemoryUsesDestination()
    ensures Encode(["MOV", "$0X12", "$REG3"]) == Ok(Plain([Code(MovMemReg), 0x12, 0x00, 1]))
  {
    EncodeRoutesMov(["MOV", "$0X12", "$REG3"]);
    MovOperandsTwoDigits();
  }

  lemma MovOperandsTwoDigits()
    ensures EncodeMov(["MOV", "$0X12", "$REG3"]) == Ok(Plain([Code(MovMemReg), 0x12, 0x00, 1]))
  {
    var tokens := ["MOV", "$0X12", "$REG3"];
    assert Operand(tokens, 1) == Ok("$0X12") && Operand(tokens, 2) == Ok("$REG3");
    TwoDigitShapes();
    TwoDigitValues();
    assert Lo(0x12) == 0x12 && Hi(0x12) == 0x00;
  }

  lemma TwoDigitShapes()
    ensures IsMemory("$0X12") && !IsRegister("$0X12") && IsRegister("$REG3")
  {
    assert MemoryShape("$0X12");
    assert "$0X12"[..4][1] != "$REG"[1];
    assert RegisterShape("$REG3");
  }

  lemma TwoDigitValues()
    ensures MemoryAddressToUShort("$0X12") == Ok(0x12)
    ensures RegisterToByte("$0X12") == Ok(1)
  {
    TwoDigitMemory();
    TwoDigitRegister();
  }

  lemma TwoDigitMemory()
    ensures MemoryAddressToUShort("$0X12") == Ok(0x12)
  {
    assert "$0X12"[1..] == "0X12";
    TwoDigitAddress();
  }

  lemma TwoDigitRegister()
    ensures RegisterToByte("$0X12") == Ok(1)
  {
    assert "$0X12"[4..] == "2";
    OneDigitRegister();
    assert !IsSpecialRegister("$0X12");
  }

  lemma TwoDigitAddress()
    ensures ParseHex("0X12", 0xFFFF) == Ok(0x12)
  {
    assert "0X12"[2..] == "12";
    assert "12"[..1] == "1";
    assert "1"[..0] == "";
  }

  lemma OneDigitRegister()
    ensures ParseHex("2", 255) == Ok(2)
  {
    assert "2"[..0] == "";
  }

  /** With a four-digit address the same conversion overflows a byte. */
  lemma MovToMemoryFourDigits()
    ensures Encode(["MOV", "$0X1234", "$REG1"]) == Err(BadNumber(Overflow))
  {
    EncodeRoutesMov(["MOV", "$0X1234", "$REG1"]);
    MovOperandsFourDigits();
  }

  lemma MovOperandsFourDigits()
    ensures EncodeMov(["MOV", "$0X1234", "$REG1"]) == Err(BadNumber(Overflow))
  {
    assert IsMemory("$0X1234") by {
      assert MemoryShape("$0X1234");
    }
    assert !IsRegister("$0X1234") by {
      assert |"$0X1234"| != 5;
    }
    assert IsRegister("$REG1") by {
      assert RegisterShape("$REG1");
    }
    assert "$0X1234"[1..] == "0X1234";
    FourDigitAddress();
    assert "$0X1234"[4..] == "234";
    ThreeDigitRegister();
  }

  lemma FourDigitAddress()
    ensures ParseHex("0X1234", 0xFFFF) == Ok(0x1234)
  {
    var d := "0X1234"[2..];
    assert d == "1234";
    assert d[..3] == "123" && d[..2] == "12" && d[..1] == "1" && d[..0] == "";
    assert "123"[..2] == "12" && "12"[..1] == "1" && "1"[..0] == "";
    assert HexValue("1") == 1;
    assert HexValue("12") == 0x12;
    assert HexValue("123") == 0x123;
    assert HexValue(d) == 0x1234;
  }

  lemma ThreeDigitRegister()
    ensures ParseHex("234", 255) == Err(Overflow)
  {
    var d := "234";
    assert d[..2] == "23" && "23"[..1] == "2" && "2"[..0] == "";
    assert HexValue("2") == 2;
    assert HexValue("23") == 0x23;
    assert HexValue(d) == 0x234;
  }


  // ---------------------------------------------------------------------
  // Layout of an emitted image

  lemma {:induction false} TotalSizeSplit(sections: seq<Entry<seq<CompilationResult>>>, k: nat)
    requires k < |sections|
    ensures TotalSize(sections[..k + 1]) == TotalSize(sections[..k]) + SectionSize(sections[k].value)
    decreases k
  {
    if k > 0 {
      assert sections[..k + 1][1..] == sections[1..][..k];
      assert sections[..k][1..] == sections[1..][..k - 1];
      TotalSizeSplit(sections[1..], k - 1);
    } else {
      assert sections[..1][1..] == [];
    }
  }

  /** Each section's address is the start plus the sizes of the sections
      before it in map order. */
  lemma BasesArePrefixSums(sections: seq<Entry<seq<CompilationResult>>>, start: int, k: nat)
    requires k < |sections|
    ensures Bases(sections, start)[k].value == start + TotalSize(sections[..k])
  {
    BasesAreSizeSums(sections, start, k);
    SizeUpToIsPrefixSize(sections, k);
  }

  /** The sizes of the first `k` sections, summed without cutting the list. */
  ghost function SizeUpTo(sections: seq<Entry<seq<CompilationResult>>>, k: nat): int
    requires k <= |sections|
  {
    if k == 0 then 0 else SectionSize(sections[0].value) + SizeUpTo(sections[1..], k - 1)
  }

  lemma {:induction false} BasesAreSizeSums(sections: seq<Entry<seq<CompilationResult>>>, start: int, k: nat)
    requires k < |sections|
    ensures Bases(sections, start)[k].value == start + SizeUpTo(sections, k)
    decreases k
  {
    if k > 0 {
      BasesAreSizeSums(sections[1..], start + SectionSize(sections[0].value), k - 1);
      BasesTail(sections, start, k);
    }
  }

  lemma {:induction false} SizeUpToIsPrefixSize(sections: seq<Entry<seq<CompilationResult>>>, k: nat)
    requires k <= |sections|
    ensures SizeUpTo(sections, k) == TotalSize(sections[..k])
    decreases k
  {
    if k > 0 {
      SizeUpToIsPrefixSize(sections[1..], k - 1);
      TotalSizeHead(sections, k);
    } else {
      assert sections[..0] == [];
    }
  }

  lemma BasesTail(sections: seq<Entry<seq<CompilationResult>>>, start: int, k: nat)
    requires 0 < k < |sections|
    ensures Bases(sections, start)[k] == Bases(sections[1..], start + SectionSize(sections[0].value))[k - 1]
  {
  }

  lemma TotalSizeHead(sections: seq<Entry<seq<CompilationResult>>>, k: nat)
    requires 0 < k <= |sections|
    ensures TotalSize(sections[..k]) == SectionSize(sections[0].value) + TotalSize(sections[1..][..k - 1])
  {
    assert sections[..k][1..] == sections[1..][..k - 1];
  }

  /** Consecutive sections are back to back. */
  lemma BasesStep(sections: seq<Entry<seq<CompilationResult>>>, start: int, k: nat)
    requires k + 1 < |sections|
    ensures Bases(sections, start)[k + 1].value == Bases(sections, start)[k].value + SectionSize(sections[k].value)
  {
    BasesArePrefixSums(sections, start, k);
    BasesArePrefixSums(sections, start, k + 1);
    TotalSizeSplit(sections, k);
  }

  /** The second pass emits every section whole, back to back: section `k`
      starts after the bytes of the sections before it. */
  lemma {:induction false} SectionPlacement(sections: seq<Entry<seq<CompilationResult>>>, bases: seq<Entry<int>>, k: nat)
    requires EmitSections(sections, bases).Ok? && k < |sections|
    ensures var code := EmitSections(sections, bases).value;
            && EmitSection(sections[k].value, bases).Ok?
            && TotalSize(sections[..k]) + SectionSize(sections[k].value) <= |code|
            && code[TotalSize(sections[..k])..TotalSize(sections[..k]) + SectionSize(sections[k].value)]
               == EmitSection(sections[k].value, bases).value
    decreases k
  {
    var first := EmitSection(sections[0].value, bases).value;
    var rest := EmitSections(sections[1..], bases).value;
    assert EmitSections(sections, bases).value == first + rest;
    assert |first| == SectionSize(sections[0].value);
    if k == 0 {
      assert TotalSize(sections[..0]) == 0 by { assert sections[..0] == []; }
      assert (first + rest)[0..|first|] == first;
    } else {
      SectionPlacement(sections[1..], bases, k - 1);
      assert sections[1..][k - 1] == sections[k];
      TotalSizeHead(sections, k);
      ShiftedSlice(EmitSections(sections, bases).value, first, rest, TotalSize(sections[1..][..k - 1]),
                   TotalSize(sections[..k]), SectionSize(sections[k].value), EmitSection(sections[k].value, bases).value);
    }
  }

  /** A slice of the second part of a concatenation is the slice of the
      whole shifted by the first part's length. */
  lemma ShiftedSlice<T>(whole: seq<T>, first: seq<T>, rest: seq<T>, a: nat, start: nat, size: nat, part: seq<T>)
    requires whole == first + rest && a + size <= |rest| && rest[a..a + size] == part
    requires start == |first| + a
    ensures start + size <= |whole| && whole[start..start + size] == part
  {
    assert whole[start..start + size] == rest[a..a + size];
  }

  lemma {:induction false} EmitSectionsLength(sections: seq<Entry<seq<CompilationResult>>>, bases: seq<Entry<int>>)
    requires EmitSections(sections, bases).Ok?
    ensures |EmitSections(sections, bases).value| == TotalSize(sections)
    decreases |sections|
  {
    if |sections| > 0 {
      EmitSectionsLength(sections[1..], bases);
    }
  }

  /** The emitted image is a 13-byte header, the static bytes, then the
      sections laid out from the end of the static bytes. */
  lemma EmittedImage(sb: seq<byte>, compiled: seq<Entry<seq<CompilationResult>>>)
    requires EmitImage(sb, compiled).Ok?
    ensures var out := EmitImage(sb, compiled).value;
            && |out| == ProgramHeaders.DefaultHeaderSize + |sb| + TotalSize(compiled)
            && out[13..13 + |sb|] == sb
            && out[13 + |sb|..] == EmitSections(compiled, Bases(compiled, |sb|)).value
  {
    EmittedParts(sb, compiled);
    var code := EmitSections(compiled, Bases(compiled, |sb|)).value;
    EmitSectionsLength(compiled, Bases(compiled, |sb|));
    ImageOf(EmitImage(sb, compiled).value, EmittedHeader(|sb|), sb, code);
  }

  /** The emitted header announces the static size (truncated to 16 bits)
      and decodes back to what was written. */
  lemma EmittedHeaderDecodes(sb: seq<byte>, compiled: seq<Entry<seq<CompilationResult>>>)
    requires EmitImage(sb, compiled).Ok?
    ensures ProgramHeaders.FromBytes(EmitImage(sb, compiled).value) == Ok(Some(EmittedHeader(|sb|).(sizeBytes := 13)))
  {
    EmittedParts(sb, compiled);
    var code := EmitSections(compiled, Bases(compiled, |sb|)).value;
    ImageOf(EmitImage(sb, compiled).value, EmittedHeader(|sb|), sb, code);
  }

  /** The same for the program `EmitCompiledProgram` writes. */
  lemma CompiledProgramImage(staticData: Option<Statics.StaticData>, compiled: seq<Entry<seq<CompilationResult>>>)
    requires EmitCompiledProgram(staticData, compiled).Ok?
    ensures var out := EmitCompiledProgram(staticData, compiled).value;
            var sb := StaticBytes(staticData);
            && |out| == ProgramHeaders.DefaultHeaderSize + |sb| + TotalSize(compiled)
            && out[13..13 + |sb|] == sb
            && out[13 + |sb|..] == EmitSections(compiled, Bases(compiled, |sb|)).value
            && ProgramHeaders.FromBytes(out) == Ok(Some(EmittedHeader(|sb|).(sizeBytes := 13)))
  {
    EmittedImage(StaticBytes(staticData), compiled);
    EmittedHeaderDecodes(StaticBytes(staticData), compiled);
  }

  /** `ImageParts` for an image known to be so assembled. */
  lemma ImageOf(out: seq<byte>, h: ProgramHeaders.ProgramHeader, sb: seq<byte>, code: seq<byte>)
    requires out == ProgramHeaders.ToBytes(h) + sb + code
    ensures |out| == 13 + |sb| + |code|
    ensures out[13..13 + |sb|] == sb
    ensures out[13 + |sb|..] == code
    ensures ProgramHeaders.FromBytes(out) == Ok(Some(h.(sizeBytes := 13)))
  {
    ImageParts(h, sb, code);
  }

  /** The image is the serialised header, the static bytes and the
      sections, concatenated. */
  lemma EmittedParts(sb: seq<byte>, compiled: seq<Entry<seq<CompilationResult>>>)
    requires EmitImage(sb, compiled).Ok?
    ensures && EmitSections(compiled, Bases(compiled, |sb|)).Ok?
            && EmitImage(sb, compiled).value
               == ProgramHeaders.ToBytes(EmittedHeader(|sb|)) + sb + EmitSections(compiled, Bases(compiled, |sb|)).value
  {
    var code := EmitSections(compiled, Bases(compiled, |sb|));
    assert code.Ok?;
    assert code.Extract() == code.value;
  }

  /** A serialised header followed by two byte runs: each run sits where
      the lengths say and the header reads back. */
  lemma ImageParts(h: ProgramHeaders.ProgramHeader, sb: seq<byte>, code: seq<byte>)
    ensures var out := ProgramHeaders.ToBytes(h) + sb + code;
            && |out| == 13 + |sb| + |code|
            && out[13..13 + |sb|] == sb
            && out[13 + |sb|..] == code
            && ProgramHeaders.FromBytes(out) == Ok(Some(h.(sizeBytes := 13)))
  {
    var head := ProgramHeaders.ToBytes(h);
    assert head + sb + code == head + (sb + code);
    HeaderFacts.HeaderRoundTrip(h, sb + code);
  }

  lemma {:induction false} SectionSizeSplit(results: seq<CompilationResult>, i: nat)
    requires i < |results|
    ensures SectionSize(results[..i + 1]) == SectionSize(results[..i]) + |results[i].bytecode|
    decreases i
  {
    if i > 0 {
      assert results[..i + 1][1..] == results[1..][..i];
      assert results[..i][1..] == results[1..][..i - 1];
      SectionSizeSplit(results[1..], i - 1);
    } else {
      assert results[..1][1..] == [];
    }
  }

  /** Within a section, result `i` is emitted after the bytes of the results
      before it. */
  lemma {:induction false} ResultPlacement(results: seq<CompilationResult>, bases: seq<Entry<int>>, i: nat)
    requires EmitSection(results, bases).Ok? && i < |results|
    ensures var code := EmitSection(results, bases).value;
            && Patch(results[i], bases).Ok?
            && SectionSize(results[..i]) + |results[i].bytecode| <= |code|
            && code[SectionSize(results[..i])..SectionSize(results[..i]) + |results[i].bytecode|]
               == Patch(results[i], bases).value
    decreases i
  {
    EmitSectionCons(results, bases);
    var first := Patch(results[0], bases).value;
    var rest := EmitSection(results[1..], bases).value;
    if i == 0 {
      assert results[..0] == [];
      assert (first + rest)[..|first|] == first;
    } else {
      ResultPlacement(results[1..], bases, i - 1);
      SectionSizeCons(results, i);
      assert results[1..][i - 1] == results[i];
      var a := SectionSize(results[1..][..i - 1]);
      AppendSlice(first, rest, a, a + |results[i].bytecode|);
    }
  }

  /** A section's bytes are its first result's, then the rest's. */
  lemma EmitSectionCons(results: seq<CompilationResult>, bases: seq<Entry<int>>)
    requires EmitSection(results, bases).Ok? && |results| > 0
    ensures Patch(results[0], bases).Ok? && EmitSection(results[1..], bases).Ok?
    ensures EmitSection(results, bases).value == Patch(results[0], bases).value + EmitSection(results[1..], bases).value
    ensures |Patch(results[0], bases).value| == |results[0].bytecode|
  {
  }

  lemma SectionSizeCons(results: seq<CompilationResult>, i: nat)
    requires 0 < i <= |results|
    ensures SectionSize(results[..i]) == |results[0].bytecode| + SectionSize(results[1..][..i - 1])
  {
    assert results[..i][1..] == results[1..][..i - 1];
  }

  /** A slice of the second part of a concatenation, shifted by the first. */
  lemma AppendSlice(first: seq<byte>, rest: seq<byte>, a: nat, b: nat)
    requires a <= b <= |rest|
    ensures (first + rest)[|first| + a..|first| + b] == rest[a..b]
  {
  }

  /** With distinct section names, looking a name up among the addresses
      finds that section's address. */
  lemma GetBase(sections: seq<Entry<seq<CompilationResult>>>, start: int, j: nat)
    requires forall a, b | 0 <= a < b < |sections| :: sections[a].key != sections[b].key
    requires j < |sections|
    ensures Get(Bases(sections, start), sections[j].key) == Some(Bases(sections, start)[j].value)
  {
    var bases := Bases(sections, start);
    assert HasKey(bases, sections[j].key) by {
      assert bases[j].key == sections[j].key;
    }
    var v := Get(bases, sections[j].key).value;
    var x :| 0 <= x < |bases| && bases[x] == Entry(sections[j].key, v);
    assert bases[x].key == sections[x].key;
    assert x == j;
  }

  /** A byte of a slice is the byte of the whole at the shifted index. */
  lemma SliceAt(whole: seq<byte>, start: nat, part: seq<byte>, p: nat)
    requires start + |part| <= |whole| && whole[start..start + |part|] == part && p < |part|
    ensures whole[start + p] == part[p]
  {
    assert whole[start..start + |part|][p] == whole[start + p];
  }

  /** Within a section, the placeholder of result `i` holds the address its
      relocation names. */
  lemma PlaceholderInSection(results: seq<CompilationResult>, bases: seq<Entry<int>>, i: nat)
    requires EmitSection(results, bases).Ok?
    requires i < |results| && results[i].labelToResolve.Some?
    ensures var section := EmitSection(results, bases).value;
            var rel := results[i].labelToResolve.value;
            var at := SectionSize(results[..i]) + rel.offset;
            var base := Get(bases, rel.target);
            && base.Some?
            && 0 <= at && at + 1 < |section|
            && Join16(section[at], section[at + 1]) == Wrap16(base.value)
  {
    ResultPatches(results, bases, i);
    var rel := results[i].labelToResolve.value;
    ResultWordInSection(results, bases, i, rel.offset, Wrap16(Get(bases, rel.target).value));
  }

  /** When a section emits, each of its results patches. */
  lemma ResultPatches(results: seq<CompilationResult>, bases: seq<Entry<int>>, i: nat)
    requires EmitSection(results, bases).Ok? && i < |results|
    ensures Patch(results[i], bases).Ok?
  {
    ResultPlacement(results, bases, i);
  }

  /** A 16-bit word of result `i`'s patched bytes is the same word of the
      section, shifted by the sizes of the results before it. */
  lemma ResultWordInSection(results: seq<CompilationResult>, bases: seq<Entry<int>>, i: nat, at: int, w: u16)
    requires EmitSection(results, bases).Ok? && i < |results|
    requires Patch(results[i], bases).Ok?
    requires var patched := Patch(results[i], bases).value;
             0 <= at && at + 1 < |patched| && Join16(patched[at], patched[at + 1]) == w
    ensures var section := EmitSection(results, bases).value;
            var pos := SectionSize(results[..i]) + at;
            0 <= pos && pos + 1 < |section| && Join16(section[pos], section[pos + 1]) == w
  {
    ResultPlacement(results, bases, i);
    var patched := Patch(results[i], bases).value;
    PatchedAt(EmitSection(results, bases).value, SectionSize(results[..i]), |patched|, patched, at, SectionSize(results[..i]) + at, w);
  }

  /** A 16-bit word inside a slice is the same word of the whole. */
  lemma PatchedAt(whole: seq<byte>, start: nat, len: nat, part: seq<byte>, at: int, pos: int, w: u16)
    requires len == |part| && start + len <= |whole| && whole[start..start + len] == part
    requires 0 <= at && at + 1 < |part| && Join16(part[at], part[at + 1]) == w
    requires pos == start + at
    ensures 0 <= pos && pos + 1 < |whole| && Join16(whole[pos], whole[pos + 1]) == w
  {
    SliceAt(whole, start, part, at);
    SliceAt(whole, start, part, at + 1);
  }

  /** In the emitted sections, the placeholder of result `i` of section `k`
      holds the address its relocation names. */
  lemma PlaceholderInCode(compiled: seq<Entry<seq<CompilationResult>>>, bases: seq<Entry<int>>, k: nat, i: nat)
    requires EmitSections(compiled, bases).Ok?
    requires k < |compiled| && i < |compiled[k].value|
    requires compiled[k].value[i].labelToResolve.Some?
    ensures var code := EmitSections(compiled, bases).value;
            var rel := compiled[k].value[i].labelToResolve.value;
            var at := TotalSize(compiled[..k]) + (SectionSize(compiled[k].value[..i]) + rel.offset);
            var base := Get(bases, rel.target);
            && base.Some?
            && 0 <= at && at + 1 < |code|
            && Join16(code[at], code[at + 1]) == Wrap16(base.value)
  {
    SectionEmits(compiled, bases, k);
    PlaceholderInSection(compiled[k].value, bases, i);
    SectionWordInCode(compiled, bases, k,
      SectionSize(compiled[k].value[..i]) + compiled[k].value[i].labelToResolve.value.offset,
      Wrap16(Get(bases, compiled[k].value[i].labelToResolve.value.target).value));
  }

  /** When all sections emit, so does each one. */
  lemma SectionEmits(compiled: seq<Entry<seq<CompilationResult>>>, bases: seq<Entry<int>>, k: nat)
    requires EmitSections(compiled, bases).Ok? && k < |compiled|
    ensures EmitSection(compiled[k].value, bases).Ok?
  {
    SectionPlacement(compiled, bases, k);
  }

  /** A 16-bit word of section `k`'s bytes is the same word of the emitted
      code, shifted by the sizes of the sections before it. */
  lemma SectionWordInCode(compiled: seq<Entry<seq<CompilationResult>>>, bases: seq<Entry<int>>, k: nat, at: int, w: u16)
    requires EmitSections(compiled, bases).Ok? && k < |compiled|
    requires EmitSection(compiled[k].value, bases).Ok?
    requires var section := EmitSection(compiled[k].value, bases).value;
             0 <= at && at + 1 < |section| && Join16(section[at], section[at + 1]) == w
    ensures var code := EmitSections(compiled, bases).value;
            var pos := TotalSize(compiled[..k]) + at;
            0 <= pos && pos + 1 < |code| && Join16(code[pos], code[pos + 1]) == w
  {
    SectionPlacement(compiled, bases, k);
    var section := EmitSection(compiled[k].value, bases).value;
    PatchedAt(EmitSections(compiled, bases).value, TotalSize(compiled[..k]), |section|, section, at, TotalSize(compiled[..k]) + at, w);
  }

  /** A slice of a suffix is a slice of the whole. */
  lemma SuffixSlice(whole: seq<byte>, offset: nat, suffix: seq<byte>, a: nat, b: nat)
    requires offset <= |whole| && whole[offset..] == suffix && a <= b <= |suffix|
    ensures offset + b <= |whole| && whole[offset + a..offset + b] == suffix[a..b]
  {
    assert whole[offset..][a..b] == whole[offset + a..offset + b];
  }

  /** Section `j`'s bytes sit in the image at its address counted from the
      end of the header, when the sections follow `staticSize` bytes of
      static data there. */
  lemma SectionInImage(out: seq<byte>, code: seq<byte>, compiled: seq<Entry<seq<CompilationResult>>>, staticSize: nat, j: nat)
    requires EmitSections(compiled, Bases(compiled, staticSize)) == Ok(code)
    requires 13 + staticSize <= |out| && out[13 + staticSize..] == code
    requires j < |compiled|
    ensures EmitSection(compiled[j].value, Bases(compiled, staticSize)).Ok?
    ensures var base := Bases(compiled, staticSize)[j].value;
            && base == staticSize + TotalSize(compiled[..j])
            && 13 + base + SectionSize(compiled[j].value) <= |out|
            && out[13 + base..13 + base + SectionSize(compiled[j].value)]
               == EmitSection(compiled[j].value, Bases(compiled, staticSize)).value
  {
    var bases := Bases(compiled, staticSize);
    BasesArePrefixSums(compiled, staticSize, j);
    SectionPlacement(compiled, bases, j);
    var start := TotalSize(compiled[..j]);
    var size := SectionSize(compiled[j].value);
    SuffixSlice(out, 13 + staticSize, code, start, start + size);
  }

  /** Linking is correct: the placeholder of a reference to section `j`
      receives section `j`'s address (truncated to 16 bits), which is where
      `SectionInImage` puts section `j`'s bytes. */
  lemma LinkedReferenceReachesSection(
    out: seq<byte>, code: seq<byte>, compiled: seq<Entry<seq<CompilationResult>>>, staticSize: nat,
    k: nat, i: nat, j: nat)
    requires EmitSections(compiled, Bases(compiled, staticSize)) == Ok(code)
    requires 13 + staticSize <= |out| && out[13 + staticSize..] == code
    requires forall a, b | 0 <= a < b < |compiled| :: compiled[a].key != compiled[b].key
    requires k < |compiled| && i < |compiled[k].value| && j < |compiled|
    requires compiled[k].value[i].labelToResolve.Some?
    requires compiled[k].value[i].labelToResolve.value.target == compiled[j].key
    ensures var at := 13 + staticSize + (TotalSize(compiled[..k]) + (SectionSize(compiled[k].value[..i])
                      + compiled[k].value[i].labelToResolve.value.offset));
            && 0 <= at && at + 1 < |out|
            && Join16(out[at], out[at + 1]) == Wrap16(Bases(compiled, staticSize)[j].value)
  {
    var bases := Bases(compiled, staticSize);
    PlaceholderInCode(compiled, bases, k, i);
    GetBase(compiled, staticSize, j);
    var at := TotalSize(compiled[..k]) + (SectionSize(compiled[k].value[..i])
              + compiled[k].value[i].labelToResolve.value.offset);
    SuffixAt(out, 13 + staticSize, code, at);
    SuffixAt(out, 13 + staticSize, code, at + 1);
  }

  /** A byte of a suffix is the byte of the whole at the shifted index. */
  lemma SuffixAt(whole: seq<byte>, offset: nat, suffix: seq<byte>, p: nat)
    requires offset <= |whole| && whole[offset..] == suffix && p < |suffix|
    ensures offset + p < |whole| && whole[offset + p] == suffix[p]
  {
  }

  /** Loading an image whose header `EmittedImage` describes: it fits when
      its static data and code fit the machine's memory; the memory then
      starts with the static data followed by the code, and `Pc` points
      past the static data, where the first section in map order sits. */
  lemma LoadEmittedImage(v: Machine.Variant, out: seq<byte>, staticSize: nat, codeSize: nat)
    requires |out| == 13 + staticSize + codeSize
    requires ProgramHeaders.FromBytes(out) == Ok(Some(EmittedHeader(staticSize).(sizeBytes := 13)))
    ensures Machine.Load(v, out).Ok? <==> staticSize + codeSize <= Machine.DefaultMemorySize
    ensures Machine.Load(v, out).Ok? ==>
              && Machine.Load(v, out).value.mem[..staticSize + codeSize] == out[13..]
              && Machine.Load(v, out).value.regs[Machine.PcIdx] == staticSize % 0x1_0000
  {
    assert Machine.LoadedHeader(out) == Ok(EmittedHeader(staticSize).(sizeBytes := 13));
  }

  // ---------------------------------------------------------------------
  // Parsing

  /** No section line is a label: `ParseSection` stops at the next one. */
  ghost predicate NoLabelLines(sections: seq<Entry<seq<string>>>) {
    forall e, l | e in sections && l in e.value :: !IsLabel(l)
  }

  /** Parsing keeps the section map sorted, so section names are distinct,
      and every collected line is a non-label line. */
  lemma {:induction false} ParseSectionsInvariant(lt: Less, lines: seq<string>, i: nat, acc: Parsed)
    requires StrictTotalOrder(lt) && i <= |lines|
    requires Sorted(lt, acc.sections) && NoLabelLines(acc.sections)
    requires ParseSections(lt, lines, i, acc).Ok?
    ensures Sorted(lt, ParseSections(lt, lines, i, acc).value.sections)
    ensures NoLabelLines(ParseSections(lt, lines, i, acc).value.sections)
    decreases |lines| - i
  {
    if i == |lines| {
    } else if ToUpper(lines[i]) == ".STATIC" {
      var segment := ParseStaticSegment(lt, lines, i + 1, Statics.Empty()).value;
      ParseSectionsInvariant(lt, lines, segment.1, acc.(staticData := Some(segment.0)));
    } else {
      var start := if IsLabel(lines[i]) then i + 1 else i;
      var name := SectionName(lines[i]);
      var end := SectionEnd(lines, start);
      var section := Entry(name, lines[start..end]);
      var sections := Insert(lt, acc.sections, section);
      InsertKeepsSorted(lt, acc.sections, section);
      forall e, l | e in sections && l in e.value
        ensures !IsLabel(l)
      {
        assert e in multiset(sections);
        if e != section {
          assert e in multiset(acc.sections);
        }
      }
      ParseSectionsInvariant(lt, lines, end, acc.(sections := sections));
    }
  }

  /** Parsing from the start yields a sorted section map. */
  lemma ParsedSectionsSorted(lt: Less, source: string)
    requires StrictTotalOrder(lt)
    requires ParseSections(lt, Normalize(source), 0, Parsed(None, [])).Ok?
    ensures var sections := ParseSections(lt, Normalize(source), 0, Parsed(None, [])).value.sections;
            && Sorted(lt, sections)
            && (forall a, b | 0 <= a < b < |sections| :: sections[a].key != sections[b].key)
            && NoLabelLines(sections)
  {
    ParseSectionsInvariant(lt, Normalize(source), 0, Parsed(None, []));
  }

  /** The static segment's loop keeps it valid. */
  lemma {:induction false} ParseStaticSegmentValid(lt: Less, lines: seq<string>, i: nat, d: Statics.StaticData)
    requires StrictTotalOrder(lt) && i <= |lines| && Statics.Valid(lt, d)
    requires ParseStaticSegment(lt, lines, i, d).Ok?
    ensures Statics.Valid(lt, ParseStaticSegment(lt, lines, i, d).value.0)
    decreases |lines| - i
  {
    if i < |lines| && StartsWith(lines[i], "$") {
      var item := StaticLine(lines[i]).value;
      StaticsFacts.AddKeepsValid(lt, d, item.0, item.1);
      var d' := AddStaticLine(lt, d, lines[i]).value;
      ParseStaticSegmentValid(lt, lines, i + 1, d');
    }
  }
}
