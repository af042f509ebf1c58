/**
 * Fixed-width integers of the C++ client and the C conversions it applies to them:
 * the `(uint8_t)` cast, big-endian splitting with `>> 8u` and `& 0x00FFu`,
 * truncating division, unsigned wrap-around, and the bits of a byte.
 */
module Bytes {

  type byte = x: int | 0 <= x < 0x100
  type uint16 = x: int | 0 <= x < 0x1_0000
  type uint32 = x: int | 0 <= x < 0x1_0000_0000
  type int32 = x: int | -0x8000_0000 <= x < 0x8000_0000

  /** The C cast `(uint8_t)x`: x modulo 256, also for negative x (two's complement). */
  function Trunc8(x: int): byte
  {
    x % 0x100
  }

  lemma {:induction false} Trunc8OfByte(x: int)
    requires 0 <= x < 0x100
    ensures Trunc8(x) == x
  {
  }

  /** `(uint8_t)(x >> 8u)` followed by `(uint8_t)(x & 0x00FFu)`: the low 16 bits of x, high byte first. */
  function BigEndian16(x: nat): seq<byte>
  {
    [Trunc8(x / 0x100), Trunc8(x)]
  }

  /** The 16-bit value a receiver reads from a high and a low byte. */
  function Word(hi: byte, lo: byte): uint16
  {
    hi * 0x100 + lo
  }

  /** Reading back the two bytes of BigEndian16 yields x modulo 2^16. */
  lemma {:induction false} WordOfBigEndian16(x: nat)
    ensures Word(BigEndian16(x)[0], BigEndian16(x)[1]) == x % 0x1_0000
  {
    var q := x / 0x1_0000;
    var r := x % 0x1_0000;
    assert x == q * 0x1_0000 + r;
    assert x / 0x100 == q * 0x100 + r / 0x100;
    assert (x / 0x100) % 0x100 == r / 0x100;
    assert x % 0x100 == r % 0x100;
  }

  /** The two bytes of a 16-bit value, high byte first, read back as a word. */
  lemma {:induction false} WordOfBytes(v: uint16)
    ensures Word(Trunc8(v / 0x100), Trunc8(v)) == v
  {
    WordOfBigEndian16(v);
    assert BigEndian16(v)[0] == Trunc8(v / 0x100) && BigEndian16(v)[1] == Trunc8(v);
  }

  /** `x++` on a `uint32_t`: wraps from 2^32 - 1 to 0. */
  function Next(x: uint32): uint32
  {
    (x + 1) % 0x1_0000_0000
  }

  /** Counting on from a counter that has already wrapped is counting on and wrapping once. */
  lemma {:induction false} NextOfWrapped(x: nat)
    ensures Next(x % 0x1_0000_0000) == (x + 1) % 0x1_0000_0000
  {
  }

  /** C integer division, which truncates toward zero (Dafny's `/` is Euclidean). */
  function TruncDiv(a: int, b: nat): int
    requires b > 0
  {
    if a >= 0 then a / b else -((-a) / b)
  }

  /** How ceil(i / 8) moves when i grows by one: it grows exactly when i is a multiple of 8. */
  lemma {:induction false} CeilStep(i: nat, n: nat)
    requires 0 < i <= n
    ensures (i - 1) / 8 < (n + 7) / 8
    ensures (i - 1) % 8 == 0 ==> (i - 1) / 8 == (i - 1 + 7) / 8 && (i + 7) / 8 == (i - 1 + 7) / 8 + 1
    ensures (i - 1) % 8 != 0 ==> (i - 1) / 8 + 1 == (i - 1 + 7) / 8 && (i + 7) / 8 == (i - 1 + 7) / 8
  {
  }

  /** Index i < n splits into byte i / 8 and bit i % 8, and that byte is among the ceil(n / 8) bytes. */
  lemma {:induction false} DivMod8(i: nat, n: nat)
    requires i < n
    ensures 8 * (i / 8) + i % 8 == i && i % 8 < 8
    ensures i / 8 < (n + 7) / 8
  {
  }

  function Pow2(n: nat): nat
  {
    if n == 0 then 1 else 2 * Pow2(n - 1)
  }

  /** `x << n` without overflow: x times 2^n. */
  function ShiftLeft(x: nat, n: nat): nat
  {
    if n == 0 then x else 2 * ShiftLeft(x, n - 1)
  }

  lemma {:induction false} ShiftLeftOfBit(b: nat, n: nat)
    requires b <= 1
    ensures ShiftLeft(b, n) == if b == 0 then 0 else Pow2(n)
  {
    if n > 0 {
      ShiftLeftOfBit(b, n - 1);
    }
  }

  /** Bit j of x, counting from the least significant bit. */
  function Bit(x: nat, j: nat): (b: nat)
    ensures b <= 1
  {
    if j == 0 then x % 2 else Bit(x / 2, j - 1)
  }

  lemma {:induction false} BitOfZero(j: nat)
    ensures Bit(0, j) == 0
  {
    if j > 0 {
      BitOfZero(j - 1);
    }
  }

  lemma {:induction false} Pow2Monotone(a: nat, b: nat)
    requires a <= b
    ensures Pow2(a) <= Pow2(b)
  {
    if a < b {
      Pow2Monotone(a, b - 1);
    }
  }

  /** Reducing modulo 2^32 first does not change the low 16 bits. */
  lemma {:induction false} LowBitsOfWrapped(x: nat)
    ensures x % 0x1_0000_0000 % 0x1_0000 == x % 0x1_0000
  {
    var q := x / 0x1_0000_0000;
    assert x == q * 0x1_0000_0000 + x % 0x1_0000_0000;
    assert q * 0x1_0000_0000 == (q * 0x1_0000) * 0x1_0000;
  }

  /** Truncating to a byte changes exactly the values of 256 and more. */
  lemma {:induction false} Trunc8Exact(n: nat)
    ensures Trunc8(n) == n <==> n < 0x100
  {
    if n < 0x100 {
      Trunc8OfByte(n);
    }
  }

  /** The high byte of a 16-bit value needs no truncation. */
  lemma {:induction false} HighByte(v: uint16)
    ensures Trunc8(v / 0x100) == v / 0x100
  {
    Trunc8OfByte(v / 0x100);
  }

  /** Updating one element inside a slice updates the slice at the shifted index. */
  lemma {:induction false} SliceOfUpdate(before: seq<byte>, lo: nat, hi: nat, j: nat, v: byte)
    requires lo <= j < hi <= |before|
    ensures before[j := v][lo..hi] == before[lo..hi][j - lo := v]
  {
  }
}
