/** The C integer semantics the driver relies on, written out over Dafny's
    unbounded integers: the `char` octets the bus delivers, `int16_t`, the
    32-bit `int` that `<<` and `|` promote to, and the conversions between
    them. Bitwise OR is defined bit by bit so that its interaction with
    two's-complement sign bits can be reasoned about. */
module CInt {

  /** One octet as delivered by the bus. Plain `char` is unsigned on the ARM
      target, so an octet is 0..255. */
  type Byte = x: int | 0 <= x < 0x100

  /** The C type int16_t. */
  type Int16 = x: int | -0x8000 <= x < 0x8000

  /** The C type int (32 bits on the target). */
  type Int32 = x: int | -0x8000_0000 <= x < 0x8000_0000

  /** The width of int on the target. */
  const IntWidth: nat := 32

  const TwoTo16: nat := 0x1_0000
  const TwoTo32: nat := 0x1_0000_0000

  function Pow2(k: nat): (p: nat)
    ensures p >= 1
  {
    if k == 0 then 1 else 2 * Pow2(k - 1)
  }

  lemma {:induction false} Pow2Add(a: nat, b: nat)
    ensures Pow2(a + b) == Pow2(a) * Pow2(b)
    decreases a
  {
    if a > 0 {
      Pow2Add(a - 1, b);
      assert Pow2(a + b) == 2 * Pow2(a - 1 + b);
    }
  }

  /** The widths used by the driver: an octet, a 16-bit word, a 32-bit int. */
  lemma Pow2Widths()
    ensures Pow2(8) == 0x100 && Pow2(16) == TwoTo16 && Pow2(IntWidth) == TwoTo32
  {
    assert Pow2(2) == 4;
    Pow2Add(2, 2);
    Pow2Add(4, 4);
    Pow2Add(8, 8);
    Pow2Add(16, 16);
  }

  /** Conversion of an integer value to int16_t: the low 16 bits read as two's
      complement (implementation-defined before C++20, modular on the ARM and
      GCC compilers, and the only behaviour C++20 allows). */
  function Wrap16(v: int): (r: Int16)
    ensures (r - v) % TwoTo16 == 0
    ensures -0x8000 <= v < 0x8000 ==> r == v
  {
    var m := v % TwoTo16;
    if m < 0x8000 then m else m - TwoTo16
  }

  /** The 32-bit pattern of an int: its residue modulo 2^32. */
  function Bits32(v: Int32): (u: nat)
    ensures u < TwoTo32
    ensures (u - v) % TwoTo32 == 0
    ensures 0 <= v ==> u == v
    ensures v < 0 ==> u == v + TwoTo32
  {
    v % TwoTo32
  }

  /** The int whose 32-bit pattern is u. */
  function FromBits32(u: nat): (v: Int32)
    requires u < TwoTo32
    ensures Bits32(v) == u
  {
    if u < 0x8000_0000 then u else u - TwoTo32
  }

  /** The OR of the low n bits of a and b, bit by bit from the least
      significant. */
  function OrBits(a: nat, b: nat, n: nat): (r: nat)
    decreases n
  {
    if n == 0 then 0
    else (if a % 2 == 1 || b % 2 == 1 then 1 else 0) + 2 * OrBits(a / 2, b / 2, n - 1)
  }

  /** C's `a | b` on two int operands: the int whose 32-bit pattern has a
      bit set exactly where either operand's pattern has it set. */
  function BitOr(a: Int32, b: Int32): (r: Int32)
    ensures Bits32(r) == OrBits(Bits32(a), Bits32(b), IntWidth)
  {
    Pow2Widths();
    assert OrBits(Bits32(a), Bits32(b), IntWidth) < TwoTo32 by {
      OrBitsBound(Bits32(a), Bits32(b), IntWidth);
    }
    FromBits32(OrBits(Bits32(a), Bits32(b), IntWidth))
  }

  lemma {:induction false} OrBitsBound(a: nat, b: nat, n: nat)
    ensures OrBits(a, b, n) < Pow2(n)
    decreases n
  {
    if n > 0 {
      OrBitsBound(a / 2, b / 2, n - 1);
    }
  }

  /** OR-ing in nothing keeps the value. */
  lemma {:induction false} OrBitsZero(a: nat, n: nat)
    requires a < Pow2(n)
    ensures OrBits(a, 0, n) == a
    decreases n
  {
    if n > 0 {
      OrBitsZero(a / 2, n - 1);
    }
  }

  lemma {:induction false} Pow2Monotone(k: nat, n: nat)
    requires k <= n
    ensures Pow2(k) <= Pow2(n)
    decreases n
  {
    if k < n {
      Pow2Monotone(k, n - 1);
    }
  }

  /** When a is a multiple of 2^k (its low k bits are clear) and b fits in k
      bits, OR is addition. */
  lemma {:induction false} OrBitsDisjoint(a: nat, m: nat, b: nat, n: nat, k: nat)
    requires k <= n && a < Pow2(n)
    requires a == m * Pow2(k) && b < Pow2(k)
    ensures OrBits(a, b, n) == a + b
    decreases k
  {
    if k == 0 {
      OrBitsZero(a, n);
    } else {
      var p := Pow2(k - 1);
      assert a == 2 * (m * p);
      assert a / 2 == m * p;
      OrBitsDisjoint(a / 2, m, b / 2, n - 1, k - 1);
    }
  }

  /** OR with all n bits set gives all n bits set. */
  lemma {:induction false} OrBitsAllOnes(a: nat, n: nat)
    requires a < Pow2(n)
    ensures OrBits(a, Pow2(n) - 1, n) == Pow2(n) - 1
    decreases n
  {
    if n > 0 {
      assert (Pow2(n) - 1) / 2 == Pow2(n - 1) - 1;
      OrBitsAllOnes(a / 2, n - 1);
    }
  }

  /** When a is a multiple of 2^k and b has every bit from k up to n set, the
      OR is b: a contributes nothing. */
  lemma {:induction false} OrBitsHighOnes(a: nat, m: nat, b: nat, c: nat, n: nat, k: nat)
    requires k <= n && a < Pow2(n)
    requires a == m * Pow2(k) && c < Pow2(k)
    requires b == Pow2(n) - Pow2(k) + c
    ensures OrBits(a, b, n) == b
    decreases k
  {
    if k == 0 {
      OrBitsAllOnes(a, n);
    } else {
      var p := Pow2(k - 1);
      var h := Pow2(n - 1);
      Pow2Monotone(k - 1, n - 1);
      assert a == 2 * (m * p);
      assert a / 2 == m * p;
      assert b == 2 * (h - p + c / 2) + c % 2;
      OrBitsHighOnes(a / 2, m, b / 2, c / 2, n - 1, k - 1);
    }
  }

  /** C's `|` on a first operand with its low 8 bits clear and a second in
      0..255 is addition. */
  lemma OrLowByteIsSum(a: Int32, lo: Byte)
    requires a % 0x100 == 0
    ensures BitOr(a, lo) == a + lo
  {
    Pow2Widths();
    var u := Bits32(a);
    assert u % 0x100 == 0;
    OrBitsDisjoint(u, u / 0x100, lo, IntWidth, 8);
    AddLowByte(a, lo);
  }

  /** Adding an octet to an int with clear low byte does not carry out of the
      32-bit pattern. */
  lemma AddLowByte(a: Int32, lo: Byte)
    requires a % 0x100 == 0
    ensures Bits32(a) + lo < TwoTo32
    ensures FromBits32(Bits32(a) + lo) == a + lo
  {
  }

  /** C's `|` on a first operand with its low 8 bits clear and a second that
      is a sign-extended negative octet (-128..-1) is the second operand: the
      24 copied sign bits swallow whatever the first operand held. */
  lemma OrNegativeByteSwallows(a: Int32, s: int)
    requires a % 0x100 == 0
    requires -0x80 <= s < 0
    ensures BitOr(a, s) == s
  {
    Pow2Widths();
    var u := Bits32(a);
    assert u % 0x100 == 0;
    OrBitsHighOnes(u, u / 0x100, Bits32(s), s + 0x100, IntWidth, 8);
  }
}
