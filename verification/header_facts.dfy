/** Round trip and locality of the program header codec. */
module HeaderFacts {
  import opened Results
  import opened Bytes
  import opened ProgramHeaders

  /** One base-256 digit split off `x`. */
  lemma DivStep(x: int, q: int)
    requires x >= 0 && q == x / 0x100
    ensures x == 0x100 * q + x % 0x100 && 0 <= x % 0x100 < 0x100
  {
  }

  /** A 32-bit pattern is the sum of its four base-256 digits. */
  lemma Digits(u: int)
    requires 0 <= u < 0x1_0000_0000
    ensures u % 0x100 + 0x100 * ((u / 0x100) % 0x100) + 0x1_0000 * ((u / 0x1_0000) % 0x100)
            + 0x100_0000 * ((u / 0x100_0000) % 0x100) == u
  {
    var q1 := u / 0x100;
    var q2 := q1 / 0x100;
    var q3 := q2 / 0x100;
    DivStep(u, q1);
    DivStep(q1, q2);
    DivStep(q2, q3);
    assert u == 0x1_0000 * q2 + (0x100 * (q1 % 0x100) + u % 0x100);
    assert u / 0x1_0000 == q2;
    assert u == 0x100_0000 * q3 + (0x1_0000 * (q2 % 0x100) + 0x100 * (q1 % 0x100) + u % 0x100);
    assert u / 0x100_0000 == q3;
    assert q3 < 0x100;
  }

  /** The four option bytes reassemble the 32-bit pattern of the options. */
  lemma OptionsBytesReassemble(options: i32)
    ensures ToInt32(LittleEndian32(OptionsByte(options, 0), OptionsByte(options, 1),
                                   OptionsByte(options, 2), OptionsByte(options, 3))) == options
  {
    Digits(options % 0x1_0000_0000);
  }

  /** Serialising then parsing reproduces every field, with `SizeBytes`
      set to 13; whatever follows the header is ignored. */
  lemma {:induction false} HeaderRoundTrip(h: ProgramHeader, rest: seq<byte>)
    ensures FromBytes(ToBytes(h) + rest) == Ok(Some(h.(sizeBytes := 13)))
  {
    var bytes := ToBytes(h) + rest;
    assert bytes[..4] == Magic;
    assert bytes[..13] == ToBytes(h);
    OptionsBytesReassemble(h.options);
  }

  /** Parsing reads only the first 13 bytes. */
  lemma {:induction false} FromBytesIgnoresTrailing(bytes: seq<byte>)
    requires |bytes| >= 13
    ensures FromBytes(bytes) == FromBytes(bytes[..13])
  {
    var head := bytes[..13];
    assert head[..4] == bytes[..4];
    assert forall i | 4 <= i < 13 :: head[i] == bytes[i];
  }

  /** With at least 13 bytes, parsing never fails, and it yields null exactly
      when the first four bytes are not the magic. */
  lemma MagicDecides(bytes: seq<byte>)
    requires |bytes| >= 13
    ensures FromBytes(bytes).Ok?
    ensures FromBytes(bytes).value.None? <==> bytes[..4] != Magic
  {
  }
}
