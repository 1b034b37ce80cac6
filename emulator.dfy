/** The `Chip8` class: the machine's arrays and registers as fields updated
    in place. Each method is proved to take the abstract state `Abs()` to the
    function of the `Machine` module that specifies it. */
module Emulator {
  import opened Bits
  import opened Opcodes
  import opened Sprite
  import opened Machine

  /** `std::fill` over a whole array. */
  method Fill<T>(a: array<T>, v: T)
    modifies a
    ensures a[..] == seq(a.Length, _ => v)
  {
    for k := 0 to a.Length
      invariant forall j | 0 <= j < k :: a[j] == v
    {
      a[k] := v;
    }
  }

  class Chip8 {
    const memory: array<Byte>
    const registers: array<Byte>
    const stack: array<Word>
    const gfx: array<Cell>
    const keypad: array<Byte>
    var pc: Word
    var I: Word
    var sp: Byte
    var delayTimer: Byte
    var soundTimer: Byte

    /** The array sizes of the declaration, three distinct byte arrays, and
        a stack pointer within the stack. */
    ghost predicate Valid()
      reads this
    {
      && memory.Length == MEMORY_SIZE
      && registers.Length == REGISTERS
      && stack.Length == STACK_DEPTH
      && gfx.Length == PIXELS
      && keypad.Length == 16
      && memory != registers && memory != keypad && registers != keypad
      && sp <= STACK_DEPTH
    }

    /** The machine state the fields hold. */
    ghost function Abs(): (s: State)
      reads this, memory, registers, stack, gfx, keypad
      requires Valid()
      ensures WellFormed(s)
    {
      State(memory[..], registers[..], stack[..], gfx[..], keypad[..],
            pc, I, sp, delayTimer, soundTimer)
    }

    /** A new object: every field with a `{}` initializer is zero; the
        framebuffer has none, so nothing is known about its cells. */
    constructor ()
      ensures Valid()
      ensures fresh(memory) && fresh(registers) && fresh(stack) && fresh(gfx) && fresh(keypad)
      ensures pc == 0 && I == 0 && sp == 0 && delayTimer == 0 && soundTimer == 0
      ensures forall a | 0 <= a < MEMORY_SIZE :: memory[a] == 0
      ensures forall j | 0 <= j < REGISTERS :: registers[j] == 0
      ensures forall j | 0 <= j < STACK_DEPTH :: stack[j] == 0
      ensures forall j | 0 <= j < 16 :: keypad[j] == 0
    {
      memory := new Byte[MEMORY_SIZE](_ => 0);
      registers := new Byte[REGISTERS](_ => 0);
      stack := new Word[STACK_DEPTH](_ => 0);
      gfx := new Cell[PIXELS];
      keypad := new Byte[16](_ => 0);
      pc, I, sp := 0, 0, 0;
      delayTimer, soundTimer := 0, 0;
    }

    /** `Chip8::Initialize` */
    method Initialize()
      requires Valid()
      modifies this, memory, gfx, stack, registers, keypad
      ensures Valid() && Abs() == Reset(old(Abs()))
    {
      pc := PROGRAM_START;
      I := 0;
      sp := 0;
      Fill(memory, 0);
      Fill(gfx, 0);
      Fill(stack, 0);
      Fill(registers, 0);
      Fill(keypad, 0);
      CopyFont();
    }

    /** The font loop of `Chip8::Initialize`, on a zeroed memory. */
    method CopyFont()
      requires Valid() && memory[..] == seq(MEMORY_SIZE, _ => 0)
      modifies memory
      ensures memory[..] == InitialMemory()
    {
      for i := 0 to |FONTSET|
        invariant forall j | 0 <= j < i :: memory[FONT_START + j] == FONTSET[j]
        invariant forall a | 0 <= a < MEMORY_SIZE && !(FONT_START <= a < FONT_START + i) :: memory[a] == 0
      {
        memory[FONT_START + i] := FONTSET[i];
      }
      assert forall a | FONT_START <= a < FONT_START + |FONTSET| :: memory[a] == memory[FONT_START + (a - FONT_START)];
    }

    /** The copy loop of `Chip8::LoadROM`, given the bytes of the file. */
    method LoadROM(rom: seq<Byte>)
      requires Valid() && |rom| <= MEMORY_SIZE - PROGRAM_START
      modifies memory
      ensures Valid() && Abs() == Load(old(Abs()), rom)
    {
      for i := 0 to |rom|
        invariant forall a | 0 <= a < MEMORY_SIZE ::
          memory[a] == if PROGRAM_START <= a < PROGRAM_START + i then rom[a - PROGRAM_START] else old(memory[a])
      {
        memory[PROGRAM_START + i] := rom[i];
      }
      ghost var m0 := old(memory[..]);
      assert memory[..] == m0[..PROGRAM_START] + rom + m0[PROGRAM_START + |rom|..];
    }

    /** `Chip8::EmulateCycle`; `beep` is the "Beep" line it prints. */
    method EmulateCycle() returns (beep: bool)
      requires Valid() && Defined(Abs())
      modifies this, registers, stack, gfx
      ensures Valid() && Abs() == Step(old(Abs()))
      ensures beep == Beeps(old(Abs()))
    {
      var opcode: Word := memory[pc] as int * 0x100 + memory[pc + 1];
      assert opcode == Fetch(Abs());
      Dispatch(Decode(opcode));
      if delayTimer > 0 {
        delayTimer := delayTimer - 1;
      }
      beep := false;
      if soundTimer > 0 {
        if soundTimer == 1 {
          beep := true;
        }
        soundTimer := soundTimer - 1;
      }
    }

    /** The `switch` of `Chip8::EmulateCycle` on a decoded opcode. */
    method Dispatch(i: Instr)
      requires Valid() && CanExecute(Abs(), i)
      modifies this, registers, stack, gfx
      ensures Valid() && Abs() == Execute(old(Abs()), i)
    {
      match i
      case ClearScreen =>
        Fill(gfx, 0);
        assert gfx[..] == seq(PIXELS, _ => 0);
        pc := Advance(pc, 2);
      case Return =>
        sp := sp - 1;
        pc := stack[sp];
        pc := Advance(pc, 2);
      case Jump(a) =>
        pc := a;
      case Call(a) =>
        stack[sp] := pc;
        sp := sp + 1;
        pc := a;
      case SkipEqImm(x, nn) =>
        if registers[x] == nn { pc := Advance(pc, 4); } else { pc := Advance(pc, 2); }
      case SkipNeImm(x, nn) =>
        if registers[x] != nn { pc := Advance(pc, 4); } else { pc := Advance(pc, 2); }
      case SkipEqReg(x, y) =>
        if registers[x] == registers[y] { pc := Advance(pc, 4); } else { pc := Advance(pc, 2); }
      case LoadImm(x, nn) =>
        registers[x] := nn;
        pc := Advance(pc, 2);
      case AddImm(x, nn) =>
        registers[x] := Wrap8(registers[x] + nn);
        pc := Advance(pc, 2);
      case Alu(op, x, y) =>
        ExecuteAlu(op, x, y);
        pc := Advance(pc, 2);
      case SkipNeReg(x, y) =>
        if registers[x] != registers[y] { pc := Advance(pc, 4); } else { pc := Advance(pc, 2); }
      case LoadIndex(a) =>
        I := a;
        pc := Advance(pc, 2);
      case Draw(x, y, n) =>
        DrawSpriteAt(x, y, n);
        pc := Advance(pc, 2);
      case Ignored =>
        pc := Advance(pc, 2);
    }

    /** The `8XYn` group, each register write in the order of the code. */
    method ExecuteAlu(op: AluOp, x: Nibble, y: Nibble)
      requires Valid()
      modifies registers
      ensures registers[..] == AluResult(old(registers[..]), op, x, y)
    {
      match op
      case Assign =>
        registers[x] := registers[y];
      case Or =>
        registers[x] := BitOr(registers[x], registers[y]);
      case And =>
        registers[x] := BitAnd(registers[x], registers[y]);
      case Xor =>
        registers[x] := BitXor(registers[x], registers[y]);
      case AddCarry =>
        var sum: Word := registers[x] as int + registers[y];
        if sum > 0xFF { registers[VF] := 1; } else { registers[VF] := 0; }
        registers[x] := Wrap8(sum);
      case Sub =>
        if registers[x] > registers[y] { registers[VF] := 1; } else { registers[VF] := 0; }
        registers[x] := Wrap8(registers[x] as int - registers[y]);
      case ShiftRight =>
        registers[VF] := BitAnd(registers[x], 0x1);
        registers[x] := registers[x] / 2;
      case SubReverse =>
        if registers[y] > registers[x] { registers[VF] := 0; } else { registers[VF] := 1; }
        registers[x] := Wrap8(registers[y] as int - registers[x]);
      case ShiftLeft =>
        registers[VF] := BitAnd(registers[x], 0x80) / 0x80;
        registers[x] := Wrap8(registers[x] as int * 2);
    }

    /** `DXYN`: the row/column loop that XORs the sprite at `I` onto the
        framebuffer and sets VF on a collision. */
    method DrawSpriteAt(vx: Nibble, vy: Nibble, height: Nibble)
      requires Valid() && (height == 0 || I + height <= MEMORY_SIZE)
      modifies registers, gfx
      ensures
        var d := DrawSprite(old(gfx[..]), SpriteRows(memory[..], I, height), old(registers[vx]), old(registers[vy]));
        && gfx[..] == d.gfx
        && registers[..] == old(registers[..])[VF := if d.collision then 1 else 0]
    {
      var x := registers[vx];
      var y := registers[vy];
      registers[VF] := 0;
      ghost var sprite := SpriteRows(memory[..], I, height);
      ghost var g0 := gfx[..];
      ghost var r0 := old(registers[..]);
      for row := 0 to height
        invariant Drawing(g0, sprite, x, y, r0, 8 * row)
      {
        var pixel := memory[I + row];
        DrawRow(x, y, row, pixel, g0, sprite, r0);
      }
      assert gfx[..] == DrawSprite(g0, sprite, x, y).gfx;
      assert registers[..] == r0[VF := registers[VF]];
    }

    /** The framebuffer and VF hold the draw loop's state after `p`
        positions, for a draw that started from `g0` and register file `r0`. */
    ghost predicate Drawing(g0: seq<Cell>, sprite: seq<Byte>, x: Byte, y: Byte, r0: seq<Byte>, p: nat)
      reads this, gfx, registers
      requires Valid() && |g0| == PIXELS && |r0| == REGISTERS && p <= 8 * |sprite|
    {
      var d := DrawPrefix(g0, sprite, x, y, p);
      && (forall k | 0 <= k < PIXELS :: gfx[k] == d.gfx[k])
      && registers[VF] == (if d.collision then 1 else 0)
      && (forall j | 0 <= j < REGISTERS && j != VF :: registers[j] == r0[j])
    }

    /** The column loop of `DXYN` for sprite row `row`, whose byte is `pixel`. */
    method DrawRow(x: Byte, y: Byte, row: nat, pixel: Byte,
                   ghost g0: seq<Cell>, ghost sprite: seq<Byte>, ghost r0: seq<Byte>)
      requires Valid() && |g0| == PIXELS && |r0| == REGISTERS
      requires row < |sprite| && sprite[row] == pixel
      requires Drawing(g0, sprite, x, y, r0, 8 * row)
      modifies registers, gfx
      ensures Drawing(g0, sprite, x, y, r0, 8 * row + 8)
    {
      for col := 0 to 8
        invariant Drawing(g0, sprite, x, y, r0, 8 * row + col)
      {
        DrawPrefixNext(g0, sprite, x, y, row, col);
        if SpriteBit(pixel, col) {
          var px := (x + col) % WIDTH;
          var py := (y + row) % HEIGHT;
          var index := px + py * WIDTH;
          assert index == PixelIndex(x, y, row, col);
          if gfx[index] == 1 {
            registers[VF] := 1;
          }
          gfx[index] := Flip(gfx[index]);
        }
      }
    }
  }
}
