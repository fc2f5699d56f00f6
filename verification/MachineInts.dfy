/** Fixed-width integers of the source. */
module MachineInts {
  const TWO_32 := 0x1_0000_0000

  /** The value a 32-bit signed variable holds after wrapping. */
  function Int32(x: int): (r: int)
    ensures -0x8000_0000 <= r < 0x8000_0000
    ensures x - r == TWO_32 * ((x + 0x8000_0000) / TWO_32)
    ensures -0x8000_0000 <= x < 0x8000_0000 ==> r == x
  {
    (x + 0x8000_0000) % TWO_32 - 0x8000_0000
  }

  function Uint32(x: nat): nat {
    x % TWO_32
  }

  function Uint8(x: int): nat {
    x % 0x100
  }

  predicate IsInt32(x: int) {
    -0x8000_0000 <= x < 0x8000_0000
  }
}
