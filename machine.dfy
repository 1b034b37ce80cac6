/** The CHIP-8 machine state of the `Chip8` class and the effect of each of
    its operations, as functions on values. `Reset` is `Chip8::Initialize`,
    `Load` the copy loop of `Chip8::LoadROM`, and `Step` one call of
    `Chip8::EmulateCycle`: fetch, decode, execute, then one timer tick. The
    class in the `Emulator` module is proved to follow these functions; the
    lemmas here state what they promise. */
module Machine {
  import opened Bits
  import opened Opcodes
  import opened Sprite

  const MEMORY_SIZE: nat := 4096
  const FONT_START: nat := 0x50
  const PROGRAM_START: nat := 0x200
  const REGISTERS: nat := 16
  const STACK_DEPTH: nat := 16
  /** The flag register VF. */
  const VF: Nibble := 0xF

  /** The built-in sprites for the hex digits 0-F, five rows each. */
  const FONTSET: seq<Byte> := [
    0xF0, 0x90, 0x90, 0x90, 0xF0, // 0
    0x20, 0x60, 0x20, 0x20, 0x70, // 1
    0xF0, 0x10, 0xF0, 0x80, 0xF0, // 2
    0xF0, 0x10, 0xF0, 0x10, 0xF0, // 3
    0x90, 0x90, 0xF0, 0x10, 0x10, // 4
    0xF0, 0x80, 0xF0, 0x10, 0xF0, // 5
    0xF0, 0x80, 0xF0, 0x90, 0xF0, // 6
    0xF0, 0x10, 0x20, 0x40, 0x40, // 7
    0xF0, 0x90, 0xF0, 0x90, 0xF0, // 8
    0xF0, 0x90, 0xF0, 0x10, 0xF0, // 9
    0xF0, 0x90, 0xF0, 0x90, 0x90, // A
    0xE0, 0x90, 0xE0, 0x90, 0xE0, // B
    0xF0, 0x80, 0x80, 0x80, 0xF0, // C
    0xE0, 0x90, 0x90, 0x90, 0xE0, // D
    0xF0, 0x80, 0xF0, 0x80, 0xF0, // E
    0xF0, 0x80, 0xF0, 0x80, 0x80  // F
  ]

  datatype State = State(
    memory: seq<Byte>,
    registers: seq<Byte>,
    stack: seq<Word>,
    gfx: seq<Cell>,
    keypad: seq<Byte>,
    pc: Word,
    I: Word,
    sp: Byte,
    delayTimer: Byte,
    soundTimer: Byte)

  /** The array sizes of the class declaration, and a stack pointer that
      never passes the 16 stack slots. */
  predicate WellFormed(s: State)
  {
    && |s.memory| == MEMORY_SIZE
    && |s.registers| == REGISTERS
    && |s.stack| == STACK_DEPTH
    && |s.gfx| == PIXELS
    && |s.keypad| == 16
    && s.sp <= STACK_DEPTH
  }

  /** Memory after reset: the font at 0x50, zero everywhere else. */
  function InitialMemory(): (m: seq<Byte>)
    ensures |m| == MEMORY_SIZE
    ensures forall j | 0 <= j < |FONTSET| :: m[FONT_START + j] == FONTSET[j]
    ensures forall a | 0 <= a < MEMORY_SIZE && !(FONT_START <= a < FONT_START + |FONTSET|) :: m[a] == 0
  {
    seq(MEMORY_SIZE, a => if FONT_START <= a < FONT_START + |FONTSET| then FONTSET[a - FONT_START] else 0)
  }

  /** `Chip8::Initialize`. The timers are not among the fields it resets. */
  function Reset(s: State): (r: State)
    ensures WellFormed(r)
    ensures r.pc == PROGRAM_START && r.I == 0 && r.sp == 0
    ensures r.delayTimer == s.delayTimer && r.soundTimer == s.soundTimer
  {
    State(
      memory := InitialMemory(),
      registers := seq(REGISTERS, _ => 0),
      stack := seq(STACK_DEPTH, _ => 0),
      gfx := seq(PIXELS, _ => 0),
      keypad := seq(16, _ => 0),
      pc := PROGRAM_START,
      I := 0,
      sp := 0,
      delayTimer := s.delayTimer,
      soundTimer := s.soundTimer)
  }

  /** The copy loop of `Chip8::LoadROM`: `rom` is written from 0x200 on. The
      code checks no size, so the program must fit. */
  function Load(s: State, rom: seq<Byte>): (r: State)
    requires WellFormed(s) && |rom| <= MEMORY_SIZE - PROGRAM_START
    ensures WellFormed(r)
    ensures r.memory[PROGRAM_START .. PROGRAM_START + |rom|] == rom
    ensures r == s.(memory := r.memory)
  {
    s.(memory := s.memory[..PROGRAM_START] + rom + s.memory[PROGRAM_START + |rom|..])
  }

  /** The opcode at `pc`, high byte first. */
  function Fetch(s: State): (op: Word)
    requires WellFormed(s) && s.pc + 1 < MEMORY_SIZE
    ensures op / 0x100 == s.memory[s.pc] && op % 0x100 == s.memory[s.pc + 1]
  {
    s.memory[s.pc] as int * 0x100 + s.memory[s.pc + 1]
  }

  /** The rows of the sprite a `DXYN` with height `n` reads from `I`. */
  function SpriteRows(memory: seq<Byte>, I: Word, n: Nibble): (rows: seq<Byte>)
    requires |memory| == MEMORY_SIZE && (n == 0 || I + n <= MEMORY_SIZE)
    ensures |rows| == n
    ensures forall r | 0 <= r < n :: rows[r] == memory[I + r]
  {
    if n == 0 then [] else memory[I .. I + n]
  }

  /** What the C++ code needs for an instruction to stay inside its arrays:
      a free stack slot for a call, a pushed address for a return, and
      sprite rows inside memory for a draw. */
  predicate CanExecute(s: State, i: Instr)
  {
    match i
    case Return => s.sp > 0
    case Call(_) => s.sp < STACK_DEPTH
    case Draw(_, _, n) => n == 0 || s.I + n <= MEMORY_SIZE
    case _ => true
  }

  /** One cycle is well defined: both opcode bytes lie in memory, and the
      instruction they encode can execute. */
  predicate Defined(s: State)
  {
    && WellFormed(s)
    && s.pc + 1 < MEMORY_SIZE
    && CanExecute(s, Decode(Fetch(s)))
  }

  /** The register file after an `8XYn` operation. VF is written first, and
      the operations that read their operands after that write (`-=`, `>>=`,
      `<<=`, `Vy - Vx`) see the new VF when X or Y is F. */
  function AluResult(regs: seq<Byte>, op: AluOp, x: Nibble, y: Nibble): (r: seq<Byte>)
    requires |regs| == REGISTERS
    ensures |r| == REGISTERS
    ensures forall j | 0 <= j < REGISTERS && j != x && j != VF :: r[j] == regs[j]
    ensures op in {Assign, Or, And, Xor} ==> r[VF] == regs[VF] || x == VF
  {
    match op
    case Assign => regs[x := regs[y]]
    case Or => regs[x := BitOr(regs[x], regs[y])]
    case And => regs[x := BitAnd(regs[x], regs[y])]
    case Xor => regs[x := BitXor(regs[x], regs[y])]
    case AddCarry =>
      var sum := regs[x] as int + regs[y];
      var f := regs[VF := if sum > 0xFF then 1 else 0];
      f[x := Wrap8(sum)]
    case Sub =>
      var f := regs[VF := if regs[x] > regs[y] then 1 else 0];
      f[x := Wrap8(f[x] - f[y])]
    case ShiftRight =>
      var f := regs[VF := BitAnd(regs[x], 0x1)];
      f[x := f[x] / 2]
    case SubReverse =>
      var f := regs[VF := if regs[y] > regs[x] then 0 else 1];
      f[x := Wrap8(f[y] - f[x])]
    case ShiftLeft =>
      var f := regs[VF := BitAnd(regs[x], 0x80) / 0x80];
      f[x := Wrap8(f[x] * 2)]
  }

  /** `pc += k` on the 16-bit program counter. */
  function Advance(pc: Word, k: nat): (r: Word)
    ensures pc + k < 0x1_0000 ==> r == pc + k
    ensures (r - pc - k) % 0x1_0000 == 0
  {
    Wrap16(pc + k)
  }

  /** One branch of the dispatch. No instruction writes memory, the keypad
      or the timers, and the stack pointer stays within the 16 slots. */
  function Execute(s: State, i: Instr): (r: State)
    requires WellFormed(s) && CanExecute(s, i)
    ensures WellFormed(r)
    ensures r.memory == s.memory && r.keypad == s.keypad
    ensures r.delayTimer == s.delayTimer && r.soundTimer == s.soundTimer
  {
    match i
    case ClearScreen => s.(gfx := seq(PIXELS, _ => 0), pc := Advance(s.pc, 2))
    case Return =>
      var sp := s.sp - 1;
      s.(sp := sp, pc := Advance(s.stack[sp], 2))
    case Jump(a) => s.(pc := a)
    case Call(a) => s.(stack := s.stack[s.sp := s.pc], sp := s.sp + 1, pc := a)
    case SkipEqImm(x, nn) => s.(pc := Advance(s.pc, if s.registers[x] == nn then 4 else 2))
    case SkipNeImm(x, nn) => s.(pc := Advance(s.pc, if s.registers[x] != nn then 4 else 2))
    case SkipEqReg(x, y) =>
      s.(pc := Advance(s.pc, if s.registers[x] == s.registers[y] then 4 else 2))
    case LoadImm(x, nn) => s.(registers := s.registers[x := nn], pc := Advance(s.pc, 2))
    case AddImm(x, nn) =>
      s.(registers := s.registers[x := Wrap8(s.registers[x] + nn)], pc := Advance(s.pc, 2))
    case Alu(op, x, y) => s.(registers := AluResult(s.registers, op, x, y), pc := Advance(s.pc, 2))
    case SkipNeReg(x, y) =>
      s.(pc := Advance(s.pc, if s.registers[x] != s.registers[y] then 4 else 2))
    case LoadIndex(a) => s.(I := a, pc := Advance(s.pc, 2))
    case Draw(x, y, n) =>
      var d := DrawSprite(s.gfx, SpriteRows(s.memory, s.I, n), s.registers[x], s.registers[y]);
      s.(registers := s.registers[VF := if d.collision then 1 else 0], gfx := d.gfx,
         pc := Advance(s.pc, 2))
    case Ignored => s.(pc := Advance(s.pc, 2))
  }

  /** A timer that is above zero counts down by one. */
  function CountDown(t: Byte): (r: Byte)
    ensures r <= t && t <= r + 1
    ensures r == t <==> t == 0
  {
    if t > 0 then t - 1 else 0
  }

  /** The timer update that ends every cycle. */
  function Tick(s: State): (r: State)
    ensures r == s.(delayTimer := r.delayTimer, soundTimer := r.soundTimer)
    ensures r.delayTimer <= s.delayTimer && r.soundTimer <= s.soundTimer
  {
    s.(delayTimer := CountDown(s.delayTimer), soundTimer := CountDown(s.soundTimer))
  }

  /** The cycle prints "Beep" when the sound timer is 1 before the tick. */
  predicate Beeps(s: State)
    ensures Beeps(s) ==> 0 < s.soundTimer && Tick(s).soundTimer == 0
  {
    s.soundTimer == 1
  }

  /** One `Chip8::EmulateCycle`. */
  function Step(s: State): (r: State)
    requires Defined(s)
    ensures WellFormed(r)
  {
    Tick(Execute(s, Decode(Fetch(s))))
  }
}
