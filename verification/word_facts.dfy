/** Properties of the `Word` views and operators. */
module WordFacts {
  import opened Bytes
  import opened Words

  /** `i16` and `u16` overlay the same 16 bits: the signed view is the
      unsigned one shifted down by 2^16 exactly when the top bit is set. */
  lemma ViewsOverlay(w: Word)
    ensures w.U16() >= 0x8000 ==> w.I16() == w.U16() - 0x1_0000
    ensures w.U16() < 0x8000 ==> w.I16() == w.U16()
    ensures w.I16() % 0x1_0000 == w.U16()
    ensures w.ToInt() == w.U16()
  {
  }

  const M := 0x1_0000

  /** Adding a multiple of 2^16 does not change a remainder. */
  lemma ModShift(x: int, k: int)
    ensures (x + M * k) % M == x % M
  {
    var q, r := x / M, x % M;
    assert x == M * q + r;
    assert x + M * k == M * (q + k) + r;
  }

  /** Sums, differences and products respect congruence modulo 2^16. */
  lemma CongruentArith(a: int, b: int, c: int, d: int)
    requires a % M == c % M && b % M == d % M
    ensures (a + b) % M == (c + d) % M
    ensures (a - b) % M == (c - d) % M
    ensures (a * b) % M == (c * d) % M
  {
    var ka, kb := a / M - c / M, b / M - d / M;
    assert a == c + M * ka;
    assert b == d + M * kb;
    ModShift(c + d, ka + kb);
    ModShift(c - d, ka - kb);
    var t := c * kb + d * ka + M * ka * kb;
    assert a * b == c * d + M * t by {
      calc {
        a * b;
        (c + M * ka) * (d + M * kb);
        c * d + M * (c * kb) + M * (d * ka) + M * M * ka * kb;
      }
    }
    ModShift(c * d, t);
  }

  /** The signed cast keeps the bit pattern of the unsigned one. */
  lemma WrapS16Bits(x: int)
    ensures WrapS16(x) % 0x1_0000 == x % 0x1_0000
  {
  }

  /** Signed and unsigned `+`, `-` and `*` produce the same 16 bits; only the
      tag of the result differs. */
  lemma SignedUnsignedSameBits(a: u16, b: u16, right: MathType, half: HalfOps)
    ensures Plus(Word(a, MathType.I16), Word(b, right), half).bits
         == Plus(Word(a, MathType.U16), Word(b, right), half).bits
    ensures Minus(Word(a, MathType.I16), Word(b, right), half).bits
         == Minus(Word(a, MathType.U16), Word(b, right), half).bits
    ensures Times(Word(a, MathType.I16), Word(b, right), half).bits
         == Times(Word(a, MathType.U16), Word(b, right), half).bits
  {
    PlusSameBits(a, b, right, half);
    MinusSameBits(a, b, right, half);
    TimesSameBits(a, b, right, half);
  }

  lemma PlusSameBits(a: u16, b: u16, right: MathType, half: HalfOps)
    ensures Plus(Word(a, MathType.I16), Word(b, right), half).bits
         == Plus(Word(a, MathType.U16), Word(b, right), half).bits
  {
    var sa: int, sb: int := Word(a, MathType.I16).I16(), Word(b, right).I16();
    ViewsOverlay(Word(a, MathType.I16));
    ViewsOverlay(Word(b, right));
    CongruentArith(sa, sb, a, b);
    WrapS16Bits(sa + sb);
  }

  lemma MinusSameBits(a: u16, b: u16, right: MathType, half: HalfOps)
    ensures Minus(Word(a, MathType.I16), Word(b, right), half).bits
         == Minus(Word(a, MathType.U16), Word(b, right), half).bits
  {
    var sa: int, sb: int := Word(a, MathType.I16).I16(), Word(b, right).I16();
    ViewsOverlay(Word(a, MathType.I16));
    ViewsOverlay(Word(b, right));
    CongruentArith(sa, sb, a, b);
    WrapS16Bits(sa - sb);
  }

  lemma TimesSameBits(a: u16, b: u16, right: MathType, half: HalfOps)
    ensures Times(Word(a, MathType.I16), Word(b, right), half).bits
         == Times(Word(a, MathType.U16), Word(b, right), half).bits
  {
    var sa: int, sb: int := Word(a, MathType.I16).I16(), Word(b, right).I16();
    ViewsOverlay(Word(a, MathType.I16));
    ViewsOverlay(Word(b, right));
    CongruentArith(sa, sb, a, b);
    WrapS16Bits(sa * sb);
  }

  /** Whatever the integer tag, `+`, `-` and `*` are 16-bit modular
      arithmetic on the bit patterns, and the result keeps the left tag. */
  lemma IntegerArithIsModular(left: Word, right: Word, half: HalfOps)
    requires left.mathType != MathType.F16
    ensures Plus(left, right, half).mathType == left.mathType
    ensures Minus(left, right, half).mathType == left.mathType
    ensures Times(left, right, half).mathType == left.mathType
    ensures Plus(left, right, half).bits == (left.bits + right.bits) % M
    ensures Minus(left, right, half).bits == (left.bits - right.bits) % M
    ensures Times(left, right, half).bits == (left.bits * right.bits) % M
  {
    if left.mathType == MathType.I16 {
      SignedUnsignedSameBits(left.bits, right.bits, right.mathType, half);
    }
  }

  /** The operator variant depends only on the left operand's tag: the right
      operand contributes its bits and nothing else. */
  lemma RightTagIgnored(left: Word, r1: Word, r2: Word, half: HalfOps)
    requires r1.bits == r2.bits
    ensures Plus(left, r1, half) == Plus(left, r2, half)
    ensures Minus(left, r1, half) == Minus(left, r2, half)
    ensures Times(left, r1, half) == Times(left, r2, half)
    ensures Quotient(left, r1, half) == Quotient(left, r2, half)
  {
  }

  /** A word built from a byte pair gives the pair back. */
  lemma BytesRoundTrip(w: Word)
    ensures FromBytes(w.Low(), w.High(), w.mathType) == w
  {
  }
}
