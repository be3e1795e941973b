/**
 * The integer macros of user/user.h: packing two 16-bit halves into a
 * 32-bit message parameter, taking them apart again, and MIN/MAX.
 *
 * C's casts to unsigned types reduce modulo 2^16 or 2^32; Dafny's `%` on
 * `int` is Euclidean (never negative), which is exactly that reduction.
 */
module Words {

  const TwoTo16: int := 0x1_0000
  const TwoTo32: int := 0x1_0000_0000

  type U16 = x: int | 0 <= x < 0x1_0000
  type U32 = x: int | 0 <= x < 0x1_0000_0000

  /** `(uint16_t)v` */
  function ToU16(v: int): (r: U16)
    ensures (r - v) % TwoTo16 == 0
  {
    v % TwoTo16
  }

  /** `(int16_t)v` for a 16-bit value: the upper half of the range is negative. */
  function ToI16(v: U16): (r: int)
    ensures -0x8000 <= r < 0x8000
    ensures ToU16(r) == v
  {
    if v < 0x8000 then v else v - TwoTo16
  }

  /** `(int)v` for a 32-bit unsigned value: the upper half of the range is negative. */
  function ToI32(v: U32): (r: int)
    ensures -0x8000_0000 <= r < 0x8000_0000
    ensures (r - v) % TwoTo32 == 0
  {
    if v < 0x8000_0000 then v else v - TwoTo32
  }

  /** C's `/` on `int` with a positive divisor: the quotient is rounded toward zero. */
  function CDiv(a: int, b: int): (q: int)
    requires b > 0
    ensures a >= 0 ==> q * b <= a < q * b + b
    ensures a < 0 ==> q * b - b < a <= q * b
  {
    if a >= 0 then
      var q := a / b;
      assert q * b + a % b == a;
      q
    else
      var q := (-a) / b;
      assert q * b + (-a) % b == -a;
      assert (-q) * b == -(q * b);
      -q
  }

  /** LOWORD: the low 16 bits. */
  function LoWord(l: U32): U16 {
    l % TwoTo16
  }

  /** HIWORD: bits 16..31. */
  function HiWord(l: U32): U16 {
    (l / TwoTo16) % TwoTo16
  }

  /** MAKEDWORD: each argument is first cast to `uint16_t`. */
  function MakeDword(low: int, high: int): (r: U32)
    ensures LoWord(r) == ToU16(low) && HiWord(r) == ToU16(high)
  {
    ToU16(low) + ToU16(high) * TwoTo16
  }

  /** The two halves of a 16-bit pair come back unchanged. */
  lemma PackUnpack(low: U16, high: U16)
    ensures LoWord(MakeDword(low, high)) == low
    ensures HiWord(MakeDword(low, high)) == high
  {
  }

  /** Every 32-bit value is the packing of its own halves. */
  lemma UnpackPack(v: U32)
    ensures MakeDword(LoWord(v), HiWord(v)) == v
  {
    assert v / TwoTo16 < TwoTo16;
  }

  /** Negative coordinates wrap to 16 bits before packing. */
  lemma NegativeWraps(low: int)
    requires -0x8000 <= low < 0
    ensures LoWord(MakeDword(low, 0)) == low + TwoTo16
    ensures ToI16(LoWord(MakeDword(low, 0))) == low
  {
  }

  /** MIN */
  function Min(a: int, b: int): (r: int)
    ensures r <= a && r <= b && (r == a || r == b)
  {
    if a < b then a else b
  }

  /** MAX */
  function Max(a: int, b: int): (r: int)
    ensures r >= a && r >= b && (r == a || r == b)
  {
    if a > b then a else b
  }

  /** The values the tests check (tests/basic_test.c). */
  lemma ConcreteWords()
    ensures LoWord(0x12345678) == 0x5678 && HiWord(0x12345678) == 0x1234
    ensures MakeDword(0x5678, 0x1234) == 0x12345678
    ensures Min(5, 10) == 5 && Min(10, 5) == 5 && Min(7, 7) == 7
    ensures Max(5, 10) == 10 && Max(10, 5) == 10 && Max(7, 7) == 7
  {
  }
}
