/** Decoding of a 16-bit CHIP-8 opcode into the instruction that
    `Chip8::EmulateCycle` dispatches on. The nested `switch` of the C++ code
    becomes one function from the opcode word to an instruction value; every
    word the switch sends to a `default` branch decodes to `Ignored`. */
module Opcodes {
  import opened Bits

  /** A 12-bit address operand `NNN`. */
  type Addr = a: int | 0 <= a < 0x1000

  /** The register-register operations of the `8XYn` group. */
  datatype AluOp =
    | Assign      // 8XY0
    | Or          // 8XY1
    | And         // 8XY2
    | Xor         // 8XY3
    | AddCarry    // 8XY4
    | Sub         // 8XY5
    | ShiftRight  // 8XY6
    | SubReverse  // 8XY7
    | ShiftLeft   // 8XYE

  datatype Instr =
    | ClearScreen                            // 00E0
    | Return                                 // 00EE
    | Jump(addr: Addr)                       // 1NNN
    | Call(addr: Addr)                       // 2NNN
    | SkipEqImm(x: Nibble, nn: Byte)         // 3XNN
    | SkipNeImm(x: Nibble, nn: Byte)         // 4XNN
    | SkipEqReg(x: Nibble, y: Nibble)        // 5XYn
    | LoadImm(x: Nibble, nn: Byte)           // 6XNN
    | AddImm(x: Nibble, nn: Byte)            // 7XNN
    | Alu(op: AluOp, x: Nibble, y: Nibble)   // 8XY0-8XY7, 8XYE
    | SkipNeReg(x: Nibble, y: Nibble)        // 9XYn
    | LoadIndex(addr: Addr)                  // ANNN
    | Draw(x: Nibble, y: Nibble, n: Nibble)  // DXYN
    | Ignored                                // every opcode sent to a default branch

  /** `opcode & 0xF000`, shifted down: the instruction group. */
  function Group(op: Word): Nibble { op / 0x1000 }

  /** `(opcode & 0x0F00) >> 8` */
  function X(op: Word): Nibble { (op / 0x100) % 0x10 }

  /** `(opcode & 0x00F0) >> 4` */
  function Y(op: Word): Nibble { (op / 0x10) % 0x10 }

  /** `opcode & 0x000F` */
  function N(op: Word): Nibble { op % 0x10 }

  /** `opcode & 0x00FF` */
  function NN(op: Word): Byte { op % 0x100 }

  /** `opcode & 0x0FFF` */
  function NNN(op: Word): Addr { op % 0x1000 }

  /** The operation selected by `opcode & 0xF00F` inside the `8XYn` group,
      if the code implements one. */
  function AluOpOf(n: Nibble): (r: Option<AluOp>)
    ensures r.None? <==> 8 <= n < 0xE || n == 0xF
  {
    match n
    case 0 => Some(Assign)
    case 1 => Some(Or)
    case 2 => Some(And)
    case 3 => Some(Xor)
    case 4 => Some(AddCarry)
    case 5 => Some(Sub)
    case 6 => Some(ShiftRight)
    case 7 => Some(SubReverse)
    case 0xE => Some(ShiftLeft)
    case _ => None
  }

  datatype Option<T> = None | Some(value: T)

  /** The branch of the dispatch in `Chip8::EmulateCycle` that `op` takes. */
  function Decode(op: Word): Instr
  {
    match Group(op)
    case 0x0 =>
      if NN(op) == 0xE0 then ClearScreen
      else if NN(op) == 0xEE then Return
      else Ignored
    case 0x1 => Jump(NNN(op))
    case 0x2 => Call(NNN(op))
    case 0x3 => SkipEqImm(X(op), NN(op))
    case 0x4 => SkipNeImm(X(op), NN(op))
    case 0x5 => SkipEqReg(X(op), Y(op))
    case 0x6 => LoadImm(X(op), NN(op))
    case 0x7 => AddImm(X(op), NN(op))
    case 0x8 =>
      (match AluOpOf(N(op))
       case Some(alu) => Alu(alu, X(op), Y(op))
       case None => Ignored)
    case 0x9 => SkipNeReg(X(op), Y(op))
    case 0xA => LoadIndex(NNN(op))
    case 0xD => Draw(X(op), Y(op), N(op))
    case _ => Ignored
  }

  /** The low nibble that selects an `8XYn` operation. */
  function AluCode(alu: AluOp): (n: Nibble)
    ensures AluOpOf(n) == Some(alu)
  {
    match alu
    case Assign => 0
    case Or => 1
    case And => 2
    case Xor => 3
    case AddCarry => 4
    case Sub => 5
    case ShiftRight => 6
    case SubReverse => 7
    case ShiftLeft => 0xE
  }

  /** The canonical opcode of an instruction: zero for the nibbles the
      dispatch ignores, and `0000` for `Ignored`. */
  function Encode(i: Instr): Word
  {
    match i
    case ClearScreen => 0x00E0
    case Return => 0x00EE
    case Jump(a) => 0x1000 + a
    case Call(a) => 0x2000 + a
    case SkipEqImm(x, nn) => 0x3000 + x * 0x100 + nn
    case SkipNeImm(x, nn) => 0x4000 + x * 0x100 + nn
    case SkipEqReg(x, y) => 0x5000 + x * 0x100 + y * 0x10
    case LoadImm(x, nn) => 0x6000 + x * 0x100 + nn
    case AddImm(x, nn) => 0x7000 + x * 0x100 + nn
    case Alu(alu, x, y) => 0x8000 + x * 0x100 + y * 0x10 + AluCode(alu)
    case SkipNeReg(x, y) => 0x9000 + x * 0x100 + y * 0x10
    case LoadIndex(a) => 0xA000 + a
    case Draw(x, y, n) => 0xD000 + x * 0x100 + y * 0x10 + n
    case Ignored => 0x0000
  }

  /** Every instruction is decoded back from its canonical opcode. */
  lemma {:induction false} DecodeEncode(i: Instr)
    ensures Decode(Encode(i)) == i
  {
    var op := Encode(i);
    match i
    case ClearScreen => FieldsOf(op, 0, 0, 0xE, 0);
    case Return => FieldsOf(op, 0, 0, 0xE, 0xE);
    case Jump(a) => DivMod(op, 0x1000, 1, a);
    case Call(a) => DivMod(op, 0x1000, 2, a);
    case SkipEqImm(x, nn) => ByteFieldsOf(op, 3, x, nn);
    case SkipNeImm(x, nn) => ByteFieldsOf(op, 4, x, nn);
    case SkipEqReg(x, y) => FieldsOf(op, 5, x, y, 0);
    case LoadImm(x, nn) => ByteFieldsOf(op, 6, x, nn);
    case AddImm(x, nn) => ByteFieldsOf(op, 7, x, nn);
    case Alu(alu, x, y) => FieldsOf(op, 8, x, y, AluCode(alu));
    case SkipNeReg(x, y) => FieldsOf(op, 9, x, y, 0);
    case LoadIndex(a) => DivMod(op, 0x1000, 0xA, a);
    case Draw(x, y, n) => FieldsOf(op, 0xD, x, y, n);
    case Ignored => FieldsOf(op, 0, 0, 0, 0);
  }

  /** Division by a field width is determined by quotient and remainder. */
  lemma DivMod(a: int, d: int, q: int, r: int)
    requires d == 0x10 || d == 0x100 || d == 0x1000
    requires 0 <= r < d && a == q * d + r
    ensures a / d == q && a % d == r
  {
    if d == 0x10 {
      assert a == q * 0x10 + r;
    } else if d == 0x100 {
      assert a == q * 0x100 + r;
    } else {
      assert a == q * 0x1000 + r;
    }
  }

  /** The fields of a word assembled from four nibbles. */
  lemma FieldsOf(op: Word, g: Nibble, x: Nibble, y: Nibble, n: Nibble)
    requires op == g * 0x1000 + x * 0x100 + y * 0x10 + n
    ensures Group(op) == g && X(op) == x && Y(op) == y && N(op) == n
    ensures NN(op) == y * 0x10 + n && NNN(op) == x * 0x100 + y * 0x10 + n
  {
    DivMod(op, 0x1000, g, x * 0x100 + y * 0x10 + n);
    DivMod(op, 0x100, g * 0x10 + x, y * 0x10 + n);
    DivMod(g * 0x10 + x, 0x10, g, x);
    DivMod(op, 0x10, g * 0x100 + x * 0x10 + y, n);
    DivMod(g * 0x100 + x * 0x10 + y, 0x10, g * 0x10 + x, y);
  }

  /** The fields of a word assembled from a group, a register and a byte. */
  lemma ByteFieldsOf(op: Word, g: Nibble, x: Nibble, nn: Byte)
    requires op == g * 0x1000 + x * 0x100 + nn
    ensures Group(op) == g && X(op) == x && NN(op) == nn
  {
    DivMod(op, 0x1000, g, x * 0x100 + nn);
    DivMod(op, 0x100, g * 0x10 + x, nn);
    DivMod(g * 0x10 + x, 0x10, g, x);
  }

  /** Every word is the sum of its four nibbles. */
  lemma NibblesOf(op: Word)
    ensures op == Group(op) * 0x1000 + X(op) * 0x100 + Y(op) * 0x10 + N(op)
  {
    var q1 := op / 0x10;
    var q2 := q1 / 0x10;
    assert op == q1 * 0x10 + N(op);
    assert q1 == q2 * 0x10 + Y(op);
    assert q1 == op / 0x10;
    DivMod(op, 0x100, q2, Y(op) * 0x10 + N(op));
    assert q2 == q2 / 0x10 * 0x10 + X(op);
    DivMod(op, 0x1000, q2 / 0x10, X(op) * 0x100 + Y(op) * 0x10 + N(op));
  }

  /** The opcodes the dispatch leaves to a `default` branch: `0NNN` other
      than `00E0`/`00EE` in the low byte, `8XYn` with `n` outside 0-7 and E,
      and the whole B, C, E and F groups. */
  lemma IgnoredOpcodes(op: Word)
    ensures Decode(op) == Ignored <==>
      || (Group(op) == 0x0 && NN(op) != 0xE0 && NN(op) != 0xEE)
      || (Group(op) == 0x8 && (8 <= N(op) < 0xE || N(op) == 0xF))
      || Group(op) in {0xB, 0xC, 0xE, 0xF}
  {
  }

  /** The two register-comparison skips read only `X` and `Y`: the low
      nibble of `5XYn` and `9XYn` is not examined. */
  lemma RegisterSkipsIgnoreLowNibble(op: Word)
    requires Group(op) == 0x5 || Group(op) == 0x9
    ensures Decode(op) == Decode(op - N(op))
  {
    NibblesOf(op);
    FieldsOf(op - N(op), Group(op), X(op), Y(op), 0);
  }
}
