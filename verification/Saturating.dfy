/** The unsigned 64-bit operations that stop at their bounds. */
module Saturating {

  const MAX64: nat := 0xFFFF_FFFF_FFFF_FFFF

  type u64 = n: nat | n <= MAX64

  function SaturatingAdd(a: nat, b: nat): nat {
    if a + b > MAX64 then MAX64 else a + b
  }

  function SaturatingMul(a: nat, b: nat): nat {
    if a * b > MAX64 then MAX64 else a * b
  }
}
