/** Java's fixed-width integer types and the two narrowing conversions the
    JSON coercions use: two's-complement wrap-around (long to int) and the
    saturating conversion from a floating-point value. */
module JavaInts {

  const TWO_32: int := 0x1_0000_0000
  const TWO_64: int := 0x1_0000_0000_0000_0000

  type Int8 = x: int | -0x80 <= x < 0x80
  type Int16 = x: int | -0x8000 <= x < 0x8000
  type Int32 = x: int | -0x8000_0000 <= x < 0x8000_0000
  type Int64 = x: int | -0x8000_0000_0000_0000 <= x < 0x8000_0000_0000_0000

  /** `(int) x` for a long `x`: keeps the low 32 bits, read as two's complement. */
  function WrapInt32(x: int): (r: Int32)
    ensures (r - x) % TWO_32 == 0
    ensures -0x8000_0000 <= x < 0x8000_0000 ==> r == x
  {
    var m := x % TWO_32;
    if m < 0x8000_0000 then m else m - TWO_32
  }

  /** `(int) d` for a floating-point `d` already truncated toward zero to `t`:
      Java clamps to the int range instead of wrapping. */
  function SaturateInt32(t: int): (r: Int32)
    ensures -0x8000_0000 <= t < 0x8000_0000 ==> r == t
    ensures t >= 0x8000_0000 ==> r == 0x7FFF_FFFF
    ensures t < -0x8000_0000 ==> r == -0x8000_0000
  {
    if t >= 0x8000_0000 then 0x7FFF_FFFF
    else if t < -0x8000_0000 then -0x8000_0000
    else t
  }

  /** `(long) d` for a floating-point `d` already truncated toward zero to `t`. */
  function SaturateInt64(t: int): (r: Int64)
    ensures -0x8000_0000_0000_0000 <= t < 0x8000_0000_0000_0000 ==> r == t
    ensures t >= 0x8000_0000_0000_0000 ==> r == 0x7FFF_FFFF_FFFF_FFFF
    ensures t < -0x8000_0000_0000_0000 ==> r == -0x8000_0000_0000_0000
  {
    if t >= 0x8000_0000_0000_0000 then 0x7FFF_FFFF_FFFF_FFFF
    else if t < -0x8000_0000_0000_0000 then -0x8000_0000_0000_0000
    else t
  }

  /** Wrapping is the identity on values that already fit and forgets
      multiples of 2^32, so a long that differs from an int by 2^32 reads
      back as that int. */
  lemma WrapInt32Periodic(x: int, k: int)
    ensures WrapInt32(x + k * TWO_32) == WrapInt32(x)
  {
    assert (x + k * TWO_32) % TWO_32 == x % TWO_32;
  }
}
