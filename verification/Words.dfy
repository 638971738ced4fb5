/** Machine numbers as integers in their range. */
module Words {
  type byte = x: int | 0 <= x < 0x100
  type half = x: int | 0 <= x < 0x1_0000
  type word = x: int | 0 <= x < 0x1_0000_0000

  /** What a 32-bit register keeps of x. */
  function Wrap(x: int): word { x % 0x1_0000_0000 }
}
