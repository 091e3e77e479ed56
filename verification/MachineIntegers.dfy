/** Fixed-width unsigned arithmetic as the client uses it. */
module MachineIntegers {
  const U32_LIMIT: nat := 0x1_0000_0000
  const U32_MAX: nat := U32_LIMIT - 1
  const U64_LIMIT: nat := 0x1_0000_0000_0000_0000
  const U64_MAX: nat := U64_LIMIT - 1

  type u32 = n: nat | n < U32_LIMIT

  function Min(a: int, b: int): int { if a <= b then a else b }

  function Max(a: int, b: int): int { if a <= b then b else a }

  /** What an overflowing 32-bit sum leaves in a build without overflow checks. */
  function Wrapped(n: nat): u32 {
    n % U32_LIMIT
  }

  function SaturatingAdd(a: u32, b: u32): u32 {
    if a + b < U32_LIMIT then a + b else U32_MAX
  }

  function SaturatingMul(a: u32, b: u32): u32 {
    if a * b < U32_LIMIT then a * b else U32_MAX
  }
}
