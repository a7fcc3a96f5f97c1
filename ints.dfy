/**
 * The fixed-width integers of C# as ranges of `int`, with the two's-complement reinterpretations that
 * the unchecked casts between the signed and unsigned types perform.
 */
module Ints {
  const Two8: int := 0x100
  const Two16: int := 0x1_0000
  const Two32: int := 0x1_0000_0000
  const Two64: int := 0x1_0000_0000_0000_0000

  type byte = x: int | 0 <= x < Two8
  type uint16 = x: int | 0 <= x < Two16
  type uint32 = x: int | 0 <= x < Two32
  type uint64 = x: int | 0 <= x < Two64
  type sbyte = x: int | -Two8 / 2 <= x < Two8 / 2
  type int16 = x: int | -Two16 / 2 <= x < Two16 / 2
  type int32 = x: int | -Two32 / 2 <= x < Two32 / 2
  type int64 = x: int | -Two64 / 2 <= x < Two64 / 2

  /** An unchecked cast from a signed to the unsigned type of `2^bits` values: the same bits read as unsigned. */
  function ToUnsigned(x: int, modulus: int): (r: int)
    requires modulus > 1 && -modulus / 2 <= x < modulus / 2
    ensures 0 <= r < modulus
    ensures x >= 0 ==> r == x
    ensures x < 0 ==> r == x + modulus
  {
    if x < 0 then x + modulus else x
  }

  /** An unchecked cast from an unsigned to the signed type of the same width. */
  function ToSigned(u: int, modulus: int): (r: int)
    requires modulus > 1 && modulus % 2 == 0 && 0 <= u < modulus
    ensures -modulus / 2 <= r < modulus / 2
    ensures u < modulus / 2 ==> r == u
    ensures u >= modulus / 2 ==> r == u - modulus
  {
    if u >= modulus / 2 then u - modulus else u
  }

  /** Unchecked C# `int` arithmetic: the 32-bit two's-complement value congruent to `x`. */
  function Wrap32(x: int): (r: int)
    ensures -Two32 / 2 <= r < Two32 / 2
    ensures (x - r) % Two32 == 0
    ensures -Two32 / 2 <= x < Two32 / 2 ==> r == x
  {
    ToSigned(x % Two32, Two32)
  }

  /** Reinterpreting the bits twice gives the value back, in both directions. */
  lemma SignedRoundTrip(x: int, u: int, modulus: int)
    requires modulus > 1 && modulus % 2 == 0
    requires -modulus / 2 <= x < modulus / 2 && 0 <= u < modulus
    ensures ToSigned(ToUnsigned(x, modulus), modulus) == x
    ensures ToUnsigned(ToSigned(u, modulus), modulus) == u
  {
  }
}
