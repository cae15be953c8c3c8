/** The 13-byte program header (VehmCommon/Header.cs): magic, version,
    endianness, options and static-segment size, all little-endian. */
module ProgramHeaders {
  import opened Results
  import opened Bytes

  datatype ProgramHeader = ProgramHeader(
    version: u16,
    endianness: byte,
    options: i32,
    staticSegmentSize: u16,
    /** Bytes the header occupied in the image it was read from: 13 when
        parsed, 0 for the default header. */
    sizeBytes: i32)

  /** What the `IList<byte>` indexer of an array throws past its end:
      `ArgumentOutOfRangeException`. */
  datatype HeaderError = ArgumentOutOfRange

  const Magic: seq<byte> := [0xBE, 0xEF, 0xCA, 0xFE]
  const Version: u16 := 1
  const DefaultHeaderSize := 4 + 2 + 1 + 4 + 2

  /** A freshly constructed header; also `ProgramHeader.Default()`, which sets
      the same values explicitly. */
  function Default(): ProgramHeader {
    ProgramHeader(Version, 0, 0, 0, 0)
  }

  /** `(byte)((options >> 8 * k) & 0xFF)`: byte `k` of the two's-complement
      representation. */
  function OptionsByte(options: i32, k: nat): byte
    requires k < 4
  {
    var u := options % 0x1_0000_0000;
    match k
    case 0 => u % 0x100
    case 1 => (u / 0x100) % 0x100
    case 2 => (u / 0x1_0000) % 0x100
    case 3 => (u / 0x100_0000) % 0x100
  }

  /** Reading a 32-bit pattern as a C# `int`. */
  function ToInt32(u: int): i32
    requires 0 <= u < 0x1_0000_0000
  {
    if u >= 0x8000_0000 then u - 0x1_0000_0000 else u
  }

  /** `ToBytes`. */
  function ToBytes(h: ProgramHeader): (r: seq<byte>)
    ensures |r| == DefaultHeaderSize == 13
    ensures r[..4] == Magic
    ensures Join16(r[4], r[5]) == h.version
    ensures r[6] == h.endianness
    ensures Join16(r[11], r[12]) == h.staticSegmentSize
  {
    Magic
    + [Lo(h.version), Hi(h.version)]
    + [h.endianness]
    + [OptionsByte(h.options, 0), OptionsByte(h.options, 1),
       OptionsByte(h.options, 2), OptionsByte(h.options, 3)]
    + [Lo(h.staticSegmentSize), Hi(h.staticSegmentSize)]
  }

  /** The short-circuit magic comparison from position `i` on: `Ok(false)` at
      the first differing byte, an index error when the buffer ends while
      every byte so far matched. */
  function MatchMagic(bytes: seq<byte>, i: nat): (r: Result<bool, HeaderError>)
    requires i <= 4 && i <= |bytes|
    requires bytes[..i] == Magic[..i]
    ensures r == Ok(true) <==> 4 <= |bytes| && bytes[..4] == Magic
    ensures r.Err? <==> |bytes| < 4 && bytes == Magic[..|bytes|]
    decreases 4 - i
  {
    if i == 4 then Ok(true)
    else if i == |bytes| then Err(ArgumentOutOfRange)
    else if bytes[i] != Magic[i] then Ok(false)
    else
      assert bytes[..i + 1] == bytes[..i] + [bytes[i]];
      assert Magic[..i + 1] == Magic[..i] + [Magic[i]];
      MatchMagic(bytes, i + 1)
  }

  /** `b0 | (b1 << 8) | (b2 << 16) | (b3 << 24)` as an unsigned pattern. */
  function LittleEndian32(b0: byte, b1: byte, b2: byte, b3: byte): (u: int)
    ensures 0 <= u < 0x1_0000_0000
  {
    b0 as int + 0x100 * b1 as int + 0x1_0000 * b2 as int + 0x100_0000 * b3 as int
  }

  function Min(a: int, b: int): int {
    if a < b then a else b
  }

  /** `FromBytes`: null (here `None`) when the magic does not match, the
      decoded header otherwise; reading past the buffer throws. */
  function FromBytes(bytes: seq<byte>): (r: Result<Option<ProgramHeader>, HeaderError>)
    ensures r.Err? <==> |bytes| < 13 && bytes[..Min(4, |bytes|)] == Magic[..Min(4, |bytes|)]
    ensures r == Ok(None) <==> bytes[..Min(4, |bytes|)] != Magic[..Min(4, |bytes|)]
    ensures r.Ok? && r.value.Some? ==>
              var h := r.value.value;
              && |bytes| >= 13
              && h.version == bytes[4] as int + 0x100 * bytes[5] as int
              && h.endianness == bytes[6]
              && h.options % 0x1_0000_0000
                 == LittleEndian32(bytes[7], bytes[8], bytes[9], bytes[10])
              && h.staticSegmentSize == bytes[11] as int + 0x100 * bytes[12] as int
              && h.sizeBytes == 13
  {
    var isMagic :- MatchMagic(bytes, 0);
    if !isMagic then Ok(None)
    else if |bytes| < 13 then Err(ArgumentOutOfRange)
    else
      var pattern := LittleEndian32(bytes[7], bytes[8], bytes[9], bytes[10]);
      ToInt32Pattern(pattern);
      Ok(Some(ProgramHeader(
        Join16(bytes[4], bytes[5]),
        bytes[6],
        ToInt32(pattern),
        Join16(bytes[11], bytes[12]),
        13)))
  }

  /** Reading a pattern as an `int` keeps its bits. */
  lemma ToInt32Pattern(u: int)
    requires 0 <= u < 0x1_0000_0000
    ensures ToInt32(u) % 0x1_0000_0000 == u
  {
  }
}
