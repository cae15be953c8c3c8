/** The 16-bit `Word` cell (VehmCommon/Word.cs): one bit pattern with an
    unsigned, a signed and a half-float view, plus a tag that selects which
    variant the arithmetic operators use. */
module Words {
  import opened Results
  import opened Bytes

  /** `Word.MathType`. */
  datatype MathType = U16 | I16 | F16

  /** Half-precision arithmetic on raw bit patterns. IEEE 754 binary16 is a
      foreign type in the C# code (`System.Half`); the model takes it as a
      parameter instead of defining it. */
  datatype HalfOps = HalfOps(
    add: (u16, u16) -> u16,
    sub: (u16, u16) -> u16,
    mul: (u16, u16) -> u16,
    div: (u16, u16) -> u16)

  /** The explicit-layout struct: the 16 bits overlaid by `u16`, `i16` and
      `f16`, and the tag. */
  datatype Word = Word(bits: u16, mathType: MathType) {

    /** The `u16` field. */
    function U16(): u16 {
      bits
    }

    /** The `i16` field: the same bits read as two's complement. */
    function I16(): i16 {
      if bits >= 0x8000 then bits - 0x1_0000 else bits
    }

    /** `Low`. */
    function Low(): byte {
      Lo(bits)
    }

    /** `High`. */
    function High(): byte {
      Hi(bits)
    }

    /** The implicit conversion to `int`. */
    function ToInt(): int {
      bits
    }
  }

  /** Error of the integer division operator. */
  datatype ArithError = DivideByZero

  /** `new Word(ushort value, mathType = U16)`. */
  function FromUShort(value: u16, mathType: MathType := MathType.U16): (w: Word)
    ensures w.U16() == value && w.mathType == mathType
  {
    Word(value, mathType)
  }

  /** `new Word(short value, mathType = I16)`. */
  function FromShort(value: i16, mathType: MathType := MathType.I16): (w: Word)
    ensures w.I16() == value && w.mathType == mathType
  {
    Word(value % 0x1_0000, mathType)
  }

  /** `new Word(byte low, byte high, mathType = U16)`. */
  function FromBytes(low: byte, high: byte, mathType: MathType := MathType.U16): (w: Word)
    ensures w.Low() == low && w.High() == high
    ensures w.U16() == low + 0x100 * high
    ensures w.mathType == mathType
  {
    Word(Join16(low, high), mathType)
  }

  /** `operator +`: the variant is chosen by the left operand's tag. */
  function Plus(left: Word, right: Word, half: HalfOps): (r: Word)
    ensures left.mathType == MathType.U16 ==>
              r.mathType == MathType.U16 && r.U16() == (left.U16() + right.U16()) % 0x1_0000
    ensures left.mathType == MathType.I16 ==>
              r.mathType == MathType.I16 && r.I16() == WrapS16(left.I16() + right.I16())
    ensures left.mathType == MathType.F16 ==>
              r.mathType == MathType.F16 && r.bits == half.add(left.bits, right.bits)
  {
    match left.mathType
    case F16 => Word(half.add(left.bits, right.bits), MathType.F16)
    case I16 => FromShort(WrapS16(left.I16() + right.I16()), MathType.I16)
    case U16 => FromUShort(Wrap16(left.U16() + right.U16()))
  }

  /** `operator -`. */
  function Minus(left: Word, right: Word, half: HalfOps): (r: Word)
    ensures left.mathType == MathType.U16 ==>
              r.mathType == MathType.U16 && r.U16() == (left.U16() - right.U16()) % 0x1_0000
    ensures left.mathType == MathType.I16 ==>
              r.mathType == MathType.I16 && r.I16() == WrapS16(left.I16() - right.I16())
    ensures left.mathType == MathType.F16 ==>
              r.mathType == MathType.F16 && r.bits == half.sub(left.bits, right.bits)
  {
    match left.mathType
    case F16 => Word(half.sub(left.bits, right.bits), MathType.F16)
    case I16 => FromShort(WrapS16(left.I16() - right.I16()), MathType.I16)
    case U16 => FromUShort(Wrap16(left.U16() - right.U16()))
  }

  /** `operator *`. */
  function Times(left: Word, right: Word, half: HalfOps): (r: Word)
    ensures left.mathType == MathType.U16 ==>
              r.mathType == MathType.U16 && r.U16() == (left.U16() * right.U16()) % 0x1_0000
    ensures left.mathType == MathType.I16 ==>
              r.mathType == MathType.I16 && r.I16() == WrapS16(left.I16() * right.I16())
    ensures left.mathType == MathType.F16 ==>
              r.mathType == MathType.F16 && r.bits == half.mul(left.bits, right.bits)
  {
    match left.mathType
    case F16 => Word(half.mul(left.bits, right.bits), MathType.F16)
    case I16 => FromShort(WrapS16(left.I16() * right.I16()), MathType.I16)
    case U16 => FromUShort(Wrap16(left.U16() * right.U16()))
  }

  /** `operator /`: integer division truncates and throws on a zero divisor;
      the half-float variant never throws. */
  function Quotient(left: Word, right: Word, half: HalfOps): (r: Result<Word, ArithError>)
    ensures r.Err? <==> left.mathType != MathType.F16 && right.bits == 0
    ensures r.Ok? ==> r.value.mathType == left.mathType
    ensures r.Ok? && left.mathType == MathType.U16 ==>
              r.value.U16() == TruncDiv(left.U16(), right.U16())
    ensures r.Ok? && left.mathType == MathType.I16 ==>
              r.value.I16() == WrapS16(TruncDiv(left.I16(), right.I16()))
  {
    match left.mathType
    case F16 => Ok(Word(half.div(left.bits, right.bits), MathType.F16))
    case I16 =>
      if right.I16() == 0 then Err(DivideByZero)
      else Ok(FromShort(WrapS16(TruncDiv(left.I16(), right.I16())), MathType.I16))
    case U16 =>
      if right.U16() == 0 then Err(DivideByZero)
      else Ok(FromUShort(Wrap16(left.U16() / right.U16())))
  }
}
