/**
 * Fixed-width integers of the DLX tools: bytes, 16- and 32-bit unsigned
 * words and 32-bit two's-complement signed words, the conversions C++
 * performs between them, and bitwise operations defined one bit at a time.
 */
module FixedWidth {

  const TWO_15: int := 0x8000
  const TWO_16: int := 0x1_0000
  const TWO_25: int := 0x200_0000
  const TWO_26: int := 0x400_0000
  const TWO_31: int := 0x8000_0000
  const TWO_32: int := 0x1_0000_0000

  type Byte = x: int | 0 <= x < 0x100
  type Uint16 = x: int | 0 <= x < 0x1_0000
  type Uint32 = x: int | 0 <= x < 0x1_0000_0000
  type Int32 = x: int | -0x8000_0000 <= x < 0x8000_0000

  predicate InInt32(x: int) { -TWO_31 <= x < TWO_31 }

  /** The uint32_t that an int32_t converts to: the same bits, read unsigned. */
  function ToUnsigned(x: Int32): (u: Uint32)
    ensures (u - x) % TWO_32 == 0
  {
    if x < 0 then x + TWO_32 else x
  }

  /** The int32_t that a uint32_t converts to (two's complement). */
  function ToSigned(u: Uint32): (x: Int32)
    ensures (u - x) % TWO_32 == 0
  {
    if u < TWO_31 then u else u - TWO_32
  }

  /** Reduction of any integer modulo 2^32: what a conversion to uint32_t does. */
  function Wrap32(x: int): (u: Uint32)
    ensures (u - x) % TWO_32 == 0
  {
    x % TWO_32
  }

  /** Wrapping leaves a value that already fits unchanged. */
  lemma Wrap32Small(x: int)
    requires 0 <= x < TWO_32
    ensures Wrap32(x) == x
  {
  }

  lemma SignedOfUnsigned(x: Int32)
    ensures ToSigned(ToUnsigned(x)) == x
  {
  }

  lemma UnsignedOfSigned(u: Uint32)
    ensures ToUnsigned(ToSigned(u)) == u
  {
  }

  function Pow2(n: nat): (r: nat)
    ensures r >= 1
  {
    if n == 0 then 1 else 2 * Pow2(n - 1)
  }

  lemma Pow2Values()
    ensures Pow2(8) == 0x100 && Pow2(16) == TWO_16 && Pow2(32) == TWO_32
  {
    assert Pow2(4) == 16;
    assert Pow2(8) == 256;
    assert Pow2(16) == 256 * 256 by { Pow2Add(8, 8); }
    assert Pow2(32) == TWO_16 * TWO_16 by { Pow2Add(16, 16); }
  }

  lemma {:induction false} Pow2Add(m: nat, n: nat)
    ensures Pow2(m + n) == Pow2(m) * Pow2(n)
    decreases m
  {
    if m > 0 {
      Pow2Add(m - 1, n);
    }
  }

  /** The quotient is determined by any decomposition with a remainder in range. */
  lemma DivUnique(x: int, d: int, q: int, r: int)
    requires d > 0 && x == q * d + r && 0 <= r < d
    ensures x / d == q
  {
    var q' := x / d;
    var r' := x % d;
    assert x == q' * d + r';
    assert (q - q') * d == r' - r;
    if q > q' {
      assert (q - q') * d >= d by { MulAtLeast(q - q', d); }
    } else if q < q' {
      assert (q' - q) * d >= d by { MulAtLeast(q' - q, d); }
    }
  }

  lemma MulAtLeast(k: int, d: int)
    requires k >= 1 && d > 0
    ensures k * d >= d
  {
  }

  lemma HalveThenDivide(x: int, b: int)
    requires b > 0
    ensures (x / 2) / b == x / (2 * b)
  {
    var q := (x / 2) / b;
    var r2 := (x / 2) % b;
    var r1 := x % 2;
    assert x / 2 == q * b + r2;
    assert x == q * (2 * b) + (2 * r2 + r1);
    DivUnique(x, 2 * b, q, 2 * r2 + r1);
  }

  /** Bit i of x (0 is the least significant). */
  function Bit(x: nat, i: nat): (b: nat)
    ensures b < 2
  {
    if i == 0 then x % 2 else Bit(x / 2, i - 1)
  }

  /** The low n bits of the bitwise AND of x and y. */
  function AndBits(x: nat, y: nat, n: nat): nat
  {
    if n == 0 then 0 else (x % 2) * (y % 2) + 2 * AndBits(x / 2, y / 2, n - 1)
  }

  /** The low n bits of the bitwise inclusive OR of x and y. */
  function OrBits(x: nat, y: nat, n: nat): nat
  {
    if n == 0 then 0
    else (if x % 2 == 1 || y % 2 == 1 then 1 else 0) + 2 * OrBits(x / 2, y / 2, n - 1)
  }

  /** The low n bits of the bitwise exclusive OR of x and y. */
  function XorBits(x: nat, y: nat, n: nat): nat
  {
    if n == 0 then 0
    else (if x % 2 != y % 2 then 1 else 0) + 2 * XorBits(x / 2, y / 2, n - 1)
  }

  lemma {:induction false} AndBitsMeaning(x: nat, y: nat, n: nat, i: nat)
    requires i < n
    ensures AndBits(x, y, n) < Pow2(n)
    ensures Bit(AndBits(x, y, n), i) == Bit(x, i) * Bit(y, i)
    decreases n
  {
    var r := AndBits(x / 2, y / 2, n - 1);
    if n > 1 {
      AndBitsMeaning(x / 2, y / 2, n - 1, if i == 0 then 0 else i - 1);
    } else {
      assert r == 0;
    }
    assert AndBits(x, y, n) == (x % 2) * (y % 2) + 2 * r;
    assert (AndBits(x, y, n)) / 2 == r;
  }

  lemma {:induction false} OrBitsMeaning(x: nat, y: nat, n: nat, i: nat)
    requires i < n
    ensures OrBits(x, y, n) < Pow2(n)
    ensures Bit(OrBits(x, y, n), i) == (if Bit(x, i) == 1 || Bit(y, i) == 1 then 1 else 0)
    decreases n
  {
    var r := OrBits(x / 2, y / 2, n - 1);
    if n > 1 {
      OrBitsMeaning(x / 2, y / 2, n - 1, if i == 0 then 0 else i - 1);
    } else {
      assert r == 0;
    }
    assert OrBits(x, y, n) / 2 == r;
  }

  lemma {:induction false} XorBitsMeaning(x: nat, y: nat, n: nat, i: nat)
    requires i < n
    ensures XorBits(x, y, n) < Pow2(n)
    ensures Bit(XorBits(x, y, n), i) == (if Bit(x, i) != Bit(y, i) then 1 else 0)
    decreases n
  {
    var r := XorBits(x / 2, y / 2, n - 1);
    if n > 1 {
      XorBitsMeaning(x / 2, y / 2, n - 1, if i == 0 then 0 else i - 1);
    } else {
      assert r == 0;
    }
    assert XorBits(x, y, n) / 2 == r;
  }

  /** AND with itself keeps every one of the low n bits. */
  lemma {:induction false} AndBitsSelf(x: nat, n: nat)
    requires x < Pow2(n)
    ensures AndBits(x, x, n) == x
    decreases n
  {
    if n > 0 {
      AndBitsSelf(x / 2, n - 1);
    }
  }

  /** OR with zero keeps every one of the low n bits. */
  lemma {:induction false} OrBitsZero(x: nat, n: nat)
    requires x < Pow2(n)
    ensures OrBits(x, 0, n) == x
    decreases n
  {
    if n > 0 {
      OrBitsZero(x / 2, n - 1);
    }
  }

  /** XOR with itself clears every bit. */
  lemma {:induction false} XorBitsSelf(x: nat, n: nat)
    ensures XorBits(x, x, n) == 0
    decreases n
  {
    if n > 0 {
      XorBitsSelf(x / 2, n - 1);
    }
  }

  /** AND and OR are commutative. */
  lemma {:induction false} BitsCommute(x: nat, y: nat, n: nat)
    ensures AndBits(x, y, n) == AndBits(y, x, n)
    ensures OrBits(x, y, n) == OrBits(y, x, n)
    ensures XorBits(x, y, n) == XorBits(y, x, n)
    decreases n
  {
    if n > 0 {
      BitsCommute(x / 2, y / 2, n - 1);
    }
  }

  lemma {:induction false} BitsBound(x: nat, y: nat, n: nat)
    ensures AndBits(x, y, n) < Pow2(n)
    ensures OrBits(x, y, n) < Pow2(n)
    ensures XorBits(x, y, n) < Pow2(n)
    decreases n
  {
    if n > 0 {
      BitsBound(x / 2, y / 2, n - 1);
    }
  }

  /** The bitwise operators of two int32_t values, on their 32-bit patterns. */
  function BitAnd(a: Int32, b: Int32): (r: Int32)
  {
    Pow2Values();
    BitsBound(ToUnsigned(a), ToUnsigned(b), 32);
    ToSigned(AndBits(ToUnsigned(a), ToUnsigned(b), 32))
  }

  function BitOr(a: Int32, b: Int32): (r: Int32)
  {
    Pow2Values();
    BitsBound(ToUnsigned(a), ToUnsigned(b), 32);
    ToSigned(OrBits(ToUnsigned(a), ToUnsigned(b), 32))
  }

  function BitXor(a: Int32, b: Int32): (r: Int32)
  {
    Pow2Values();
    BitsBound(ToUnsigned(a), ToUnsigned(b), 32);
    ToSigned(XorBits(ToUnsigned(a), ToUnsigned(b), 32))
  }

  /** Identities of the 32-bit bitwise operators: x & x == x, x | 0 == x, x ^ x == 0, commutativity. */
  lemma BitwiseIdentities(a: Int32, b: Int32)
    ensures BitAnd(a, a) == a && BitOr(a, 0) == a && BitXor(a, a) == 0
    ensures BitAnd(a, b) == BitAnd(b, a) && BitOr(a, b) == BitOr(b, a) && BitXor(a, b) == BitXor(b, a)
  {
    Pow2Values();
    AndBitsSelf(ToUnsigned(a), 32);
    OrBitsZero(ToUnsigned(a), 32);
    XorBitsSelf(ToUnsigned(a), 32);
    BitsCommute(ToUnsigned(a), ToUnsigned(b), 32);
    SignedOfUnsigned(a);
  }
}
