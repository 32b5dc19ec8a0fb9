/** Machine words, and the conversions of Go between them. */
module Words {

  const TWO31: int := 0x8000_0000
  const TWO32: int := 0x1_0000_0000
  const TWO63: int := 0x8000_0000_0000_0000
  const TWO64: int := 0x1_0000_0000_0000_0000

  function AsUint64(x: int): int {
    x % TWO64
  }

  /** Reinterprets a word as signed. */
  function AsInt64(x: int): int {
    if x % TWO64 < TWO63 then x % TWO64 else x % TWO64 - TWO64
  }

  function AsInt32(x: int): int {
    if x % TWO32 < TWO31 then x % TWO32 else x % TWO32 - TWO32
  }
}
