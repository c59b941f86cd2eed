// Shared value types and machine-integer constants.

module Common {

  datatype Option<+T> = None | Some(value: T)

  // Number of values of std::uint64_t and std::size_t.
  const TWO64: nat := 0x1_0000_0000_0000_0000

  const U64_MAX: nat := 0xFFFF_FFFF_FFFF_FFFF

  const TWO32: nat := 0x1_0000_0000

  type byte = x: int | 0 <= x < 256

  type uint64 = x: int | 0 <= x < 0x1_0000_0000_0000_0000

  type uint32 = x: int | 0 <= x < 0x1_0000_0000

  type uint16 = x: int | 0 <= x < 0x1_0000

  // Unsigned 64-bit addition.
  function Add64(a: uint64, b: uint64): (sum: uint64)
    ensures sum == (a + b) % TWO64
  {
    if a + b < TWO64 then a + b else a + b - TWO64
  }
}
