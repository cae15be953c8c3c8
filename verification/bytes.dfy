/** Fixed-width integers of the C# code, written out explicitly over `int`. */
module Bytes {

  /** C# `byte`. */
  type byte = x: int | 0 <= x < 0x100

  /** C# `ushort`. */
  type u16 = x: int | 0 <= x < 0x1_0000

  /** C# `short`. */
  type i16 = x: int | -0x8000 <= x < 0x8000

  /** C# `int`. */
  type i32 = x: int | -0x8000_0000 <= x < 0x8000_0000

  /** Low byte of a 16-bit value, `(byte)(w & 0xFF)`. */
  function Lo(w: u16): byte {
    w % 0x100
  }

  /** High byte of a 16-bit value, `(byte)(w >> 8)`. */
  function Hi(w: u16): byte {
    w / 0x100
  }

  /** Little-endian pair to 16-bit value, `(ushort)(hi << 8 | lo)`. */
  function Join16(lo: byte, hi: byte): u16 {
    lo + hi * 0x100
  }

  /** The truncating cast `(ushort)x`. */
  function Wrap16(x: int): u16 {
    x % 0x1_0000
  }

  /** The truncating cast `(short)x`: wrap into the signed 16-bit range. */
  function WrapS16(x: int): i16 {
    var m := x % 0x1_0000;
    if m >= 0x8000 then m - 0x1_0000 else m
  }

  /** The truncating cast `(byte)x`. */
  function Wrap8(x: int): byte {
    x % 0x100
  }

  /** Integer division rounding toward zero, as C# `/` on `int`. */
  function TruncDiv(a: int, b: int): int
    requires b != 0
  {
    var q := Abs(a) / Abs(b);
    if (a < 0) == (b < 0) then q else -q
  }

  function Abs(x: int): nat {
    if x < 0 then -x else x
  }

  function Pow2(k: nat): (r: nat)
    ensures r >= 1
  {
    if k == 0 then 1 else 2 * Pow2(k - 1)
  }

  /** Bit `k` of a non-negative number. */
  predicate HasBit(x: nat, k: nat) {
    if k == 0 then x % 2 == 1 else HasBit(x / 2, k - 1)
  }

  /** Adding `2^k` to a number whose bit `k` is clear sets that bit and no
      other. */
  lemma {:induction false} SetBit(x: nat, k: nat, j: nat)
    requires !HasBit(x, k)
    ensures HasBit(x + Pow2(k), j) == (j == k || HasBit(x, j))
    decreases k
  {
    if k == 0 {
      if j > 0 {
        assert (x + 1) / 2 == x / 2;
      }
    } else if j > 0 {
      assert (x + Pow2(k)) / 2 == x / 2 + Pow2(k - 1);
      SetBit(x / 2, k - 1, j - 1);
    }
  }

  /** Subtracting `2^k` from a number whose bit `k` is set clears that bit
      and no other. */
  lemma {:induction false} ClearBit(x: nat, k: nat, j: nat)
    requires HasBit(x, k)
    ensures x >= Pow2(k)
    ensures HasBit(x - Pow2(k), j) == (j != k && HasBit(x, j))
    decreases k
  {
    if k == 0 {
      if j > 0 {
        assert (x - 1) / 2 == x / 2;
      }
    } else {
      ClearBit(x / 2, k - 1, if j > 0 then j - 1 else 0);
      if j > 0 {
        assert (x - Pow2(k)) / 2 == x / 2 - Pow2(k - 1);
      }
    }
  }

  /** Setting a clear bit below `n` keeps a number below `2^n`. */
  lemma {:induction false} SetBitBound(x: nat, k: nat, n: nat)
    requires !HasBit(x, k) && k < n && x < Pow2(n)
    ensures x + Pow2(k) < Pow2(n)
    decreases k
  {
    assert Pow2(n) == 2 * Pow2(n - 1);
    if k > 0 {
      assert x == 2 * (x / 2) + x % 2 && Pow2(k) == 2 * Pow2(k - 1);
      SetBitBound(x / 2, k - 1, n - 1);
    } else {
      assert x % 2 == 0;
    }
  }

  lemma SplitJoin(w: u16)
    ensures Join16(Lo(w), Hi(w)) == w
  {
  }

  lemma JoinSplit(lo: byte, hi: byte)
    ensures Lo(Join16(lo, hi)) == lo && Hi(Join16(lo, hi)) == hi
  {
  }
}
