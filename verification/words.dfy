/** Machine words as integers: masks and shifts of the program are remainders and quotients. */
module Words {
  type byte = x: int | 0 <= x < 256
  type u32 = x: int | 0 <= x < 0x1_0000_0000

  const TWO32 := 0x1_0000_0000

  /** Conversion to 32 bits. */
  function Wrap(x: int): u32 {
    x % 0x1_0000_0000
  }

  /** A byte read as a signed number. */
  function Signed8(b: byte): int {
    if b < 128 then b else b - 256
  }

  /** A word read as a signed number. */
  function Signed32(x: u32): int {
    if x < 0x8000_0000 then x else x - 0x1_0000_0000
  }
}
