/** Fixed-width unsigned values of the CHIP-8 machine, modelled as bounded
    integers, together with the truncating conversions the C++ code relies on
    when it stores an `int` result into a narrower field. */
module Bits {

  /** `uint8_t`: memory bytes, registers, the stack pointer and the timers. */
  type Byte = b: int | 0 <= b < 0x100

  /** `uint16_t`: the program counter, the index register, stack entries and
      the fetched opcode. */
  type Word = w: int | 0 <= w < 0x1_0000

  /** `uint32_t`: one framebuffer cell. */
  type Cell = c: int | 0 <= c < 0x1_0000_0000

  /** A 4-bit field of an opcode (a register number or a sprite height). */
  type Nibble = n: int | 0 <= n < 0x10

  /** Storing an `int` into a `uint8_t` keeps its low 8 bits. */
  function Wrap8(n: int): (b: Byte)
    ensures 0 <= n < 0x100 ==> b == n
    ensures (b - n) % 0x100 == 0
  {
    n % 0x100
  }

  /** Storing an `int` into a `uint16_t` keeps its low 16 bits. */
  function Wrap16(n: int): (w: Word)
    ensures 0 <= n < 0x1_0000 ==> w == n
    ensures (w - n) % 0x1_0000 == 0
  {
    n % 0x1_0000
  }

  /** `a | b` on bytes. */
  function BitOr(a: Byte, b: Byte): Byte
  {
    ((a as bv8) | (b as bv8)) as int
  }

  /** `a & b` on bytes. */
  function BitAnd(a: Byte, b: Byte): Byte
  {
    ((a as bv8) & (b as bv8)) as int
  }

  /** `a ^ b` on bytes. */
  function BitXor(a: Byte, b: Byte): Byte
  {
    ((a as bv8) ^ (b as bv8)) as int
  }

  /** The two masks the `8XYn` shifts apply: `& 0x1` keeps bit 0 and
      `(& 0x80) / 0x80` is bit 7. */
  lemma BitAndMasks(a: Byte)
    ensures BitAnd(a, 0x1) == a % 2
    ensures BitAnd(a, 0x80) / 0x80 == a / 0x80
  {
  }

  /** Bit `7 - col` of a sprite row, the test `(pixel & (0x80 >> col)) != 0`. */
  predicate SpriteBit(pixel: Byte, col: nat)
    requires col < 8
  {
    (pixel as bv8) & ((0x80 as bv8) >> col) != 0
  }

  /** Column 0 of a sprite row is its top bit and column 7 its bottom bit. */
  lemma SpriteBitEnds(pixel: Byte)
    ensures SpriteBit(pixel, 0) <==> pixel >= 0x80
    ensures SpriteBit(pixel, 7) <==> pixel % 2 == 1
  {
  }

  /** `cell ^= 1` on a framebuffer cell: only its lowest bit is toggled. */
  function Flip(c: Cell): (r: Cell)
    ensures r / 2 == c / 2 && r % 2 != c % 2
    ensures c == 0 <==> r == 1
  {
    if c % 2 == 0 then c + 1 else c - 1
  }
}
