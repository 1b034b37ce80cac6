/** What `Chip8::Initialize`, the load loop and `Chip8::EmulateCycle`
    promise, stated on the functions of the `Machine` module. Each
    instruction lemma starts from the raw opcode's nibbles, so it covers
    fetch, decode and dispatch together, and says which parts of the state
    change and which do not. */
module Properties {
  import opened Bits
  import opened Opcodes
  import opened Sprite
  import opened Machine

  // ---------------------------------------------------------------- reset

  /** After `Initialize`: pc = 0x200, I = 0, sp = 0, registers, stack,
      framebuffer and keypad all zero, the font at 0x50..0x9F and every other
      memory byte zero. The timers keep their values. */
  lemma ResetState(s: State)
    ensures var r := Reset(s);
      && r.pc == 0x200 && r.I == 0 && r.sp == 0
      && (forall j | 0 <= j < 16 :: r.registers[j] == 0 && r.stack[j] == 0 && r.keypad[j] == 0)
      && (forall k | 0 <= k < PIXELS :: r.gfx[k] == 0)
      && (forall i | 0 <= i < 80 :: r.memory[0x50 + i] == FONTSET[i])
      && (forall a | 0 <= a < MEMORY_SIZE && !(0x50 <= a < 0xA0) :: r.memory[a] == 0)
      && r.delayTimer == s.delayTimer && r.soundTimer == s.soundTimer
  {
  }

  // ----------------------------------------------------------------- load

  /** The load loop writes `rom[i]` at 0x200 + i and nothing else. */
  lemma LoadPlacesProgram(s: State, rom: seq<Byte>)
    requires WellFormed(s) && |rom| <= MEMORY_SIZE - PROGRAM_START
    ensures var r := Load(s, rom);
      && (forall i | 0 <= i < |rom| :: r.memory[PROGRAM_START + i] == rom[i])
      && (forall a | 0 <= a < MEMORY_SIZE && !(PROGRAM_START <= a < PROGRAM_START + |rom|) ::
            r.memory[a] == s.memory[a])
      && r == s.(memory := r.memory)
  {
    var r := Load(s, rom);
    forall i | 0 <= i < |rom| ensures r.memory[PROGRAM_START + i] == rom[i] {
      assert r.memory[PROGRAM_START + i] == (s.memory[..PROGRAM_START] + rom)[PROGRAM_START + i];
    }
  }

  /** After a reset and a load of at least two bytes, the first cycle
      fetches the first two program bytes, high byte first, and the font is
      still in place. */
  lemma FirstFetchAfterLoad(s: State, rom: seq<Byte>)
    requires 2 <= |rom| <= MEMORY_SIZE - PROGRAM_START
    ensures var t := Load(Reset(s), rom);
      && t.pc == PROGRAM_START
      && Fetch(t) == rom[0] as int * 0x100 + rom[1]
      && (forall i | 0 <= i < 80 :: t.memory[0x50 + i] == FONTSET[i])
  {
    var r := Reset(s);
    ResetState(s);
    LoadPlacesProgram(r, rom);
    assert Load(r, rom).memory[PROGRAM_START + 1] == rom[1];
  }

  // ---------------------------------------------------- plain instructions

  /** `00E0` (any `0NE0`: only the low byte is compared) blanks every cell;
      only the framebuffer and pc change. */
  lemma ClearScreenStep(s: State)
    requires Defined(s) && Group(Fetch(s)) == 0 && NN(Fetch(s)) == 0xE0
    ensures forall k | 0 <= k < PIXELS :: Step(s).gfx[k] == 0
    ensures Step(s) == Tick(s.(gfx := Step(s).gfx, pc := Advance(s.pc, 2)))
  {
  }

  /** `6XNN` sets Vx = NN; nothing else but pc changes. */
  lemma LoadImmStep(s: State)
    requires Defined(s) && Group(Fetch(s)) == 6
    ensures var op := Fetch(s);
      Step(s) == Tick(s.(registers := s.registers[X(op) := NN(op)], pc := Advance(s.pc, 2)))
  {
  }

  /** `8XY0`..`8XY3` assign, OR, AND and XOR Vy into Vx and never touch
      VF unless X is F. */
  lemma LogicStep(s: State)
    requires Defined(s) && Group(Fetch(s)) == 8 && N(Fetch(s)) <= 3
    ensures var op := Fetch(s);
      var vx, vy := s.registers[X(op)], s.registers[Y(op)];
      var v := match N(op)
        case 0 => vy
        case 1 => BitOr(vx, vy)
        case 2 => BitAnd(vx, vy)
        case _ => BitXor(vx, vy);
      Step(s) == Tick(s.(registers := s.registers[X(op) := v], pc := Advance(s.pc, 2)))
  {
  }

  /** `8XX3` XORs a register with itself, which zeroes it. */
  lemma XorSelfClears(s: State)
    requires Defined(s) && Group(Fetch(s)) == 8 && N(Fetch(s)) == 3 && X(Fetch(s)) == Y(Fetch(s))
    ensures Step(s) == Tick(s.(registers := s.registers[X(Fetch(s)) := 0], pc := Advance(s.pc, 2)))
  {
    var vx := s.registers[X(Fetch(s))];
    assert BitXor(vx, vx) == 0;
  }

  /** `ANNN` sets I = NNN; nothing else but pc changes. */
  lemma LoadIndexStep(s: State)
    requires Defined(s) && Group(Fetch(s)) == 0xA
    ensures Step(s) == Tick(s.(I := NNN(Fetch(s)), pc := Advance(s.pc, 2)))
  {
  }

  /** An opcode of a `default` branch only moves pc on by 2 (and the
      timers tick). */
  lemma IgnoredStep(s: State)
    requires Defined(s) && Decode(Fetch(s)) == Ignored
    ensures Step(s) == Tick(s.(pc := Advance(s.pc, 2)))
  {
  }

  // --------------------------------------------------------- control flow

  /** `1NNN` sets pc = NNN and changes nothing else. */
  lemma JumpStep(s: State)
    requires Defined(s) && Group(Fetch(s)) == 1
    ensures Step(s) == Tick(s.(pc := NNN(Fetch(s))))
  {
  }

  /** `2NNN` pushes the address of the call itself, increments sp and jumps. */
  lemma CallStep(s: State)
    requires Defined(s) && Group(Fetch(s)) == 2
    ensures s.sp < STACK_DEPTH
    ensures Step(s) == Tick(s.(stack := s.stack[s.sp := s.pc], sp := s.sp + 1, pc := NNN(Fetch(s))))
  {
  }

  /** `00EE` (any `0NEE`) pops and resumes after the popped call. */
  lemma ReturnStep(s: State)
    requires Defined(s) && Group(Fetch(s)) == 0 && NN(Fetch(s)) == 0xEE
    ensures 0 < s.sp
    ensures Step(s) == Tick(s.(sp := s.sp - 1, pc := Advance(s.stack[s.sp - 1], 2)))
  {
  }

  /** A call followed by a return at the called address comes back to the
      instruction after the call with the stack pointer, the registers, I,
      memory and framebuffer as they were; only the slot the call used keeps
      the call's address. */
  lemma CallThenReturn(s: State)
    requires Defined(s) && Group(Fetch(s)) == 2
    requires NNN(Fetch(s)) + 1 < MEMORY_SIZE
    requires s.memory[NNN(Fetch(s))] < 0x10 && s.memory[NNN(Fetch(s)) + 1] == 0xEE
    ensures Defined(Step(s))
    ensures var u := Step(Step(s));
      && u.pc == Advance(s.pc, 2) && u.sp == s.sp
      && u.stack == s.stack[s.sp := s.pc]
      && u.registers == s.registers && u.I == s.I
      && u.memory == s.memory && u.gfx == s.gfx
  {
    var a := NNN(Fetch(s));
    CallStep(s);
    var t := Step(s);
    assert t.pc == a && t.sp == s.sp + 1 && t.memory == s.memory;
    assert Fetch(t) / 0x100 == s.memory[a];
    assert Group(Fetch(t)) == 0 && NN(Fetch(t)) == 0xEE;
    ReturnStep(t);
  }

  /** `3XNN`, `4XNN`, `5XYn` and `9XYn` move pc on by 4 when their
      comparison holds and by 2 otherwise, and change nothing else. */
  lemma SkipStep(s: State)
    requires Defined(s) && Group(Fetch(s)) in {3, 4, 5, 9}
    ensures var op := Fetch(s);
      var vx, vy := s.registers[X(op)], s.registers[Y(op)];
      var taken := match Group(op)
        case 3 => vx == NN(op)
        case 4 => vx != NN(op)
        case 5 => vx == vy
        case _ => vx != vy;
      Step(s) == Tick(s.(pc := Advance(s.pc, if taken then 4 else 2)))
  {
  }

  // ----------------------------------------------------------- arithmetic

  /** `7XNN` adds NN modulo 256 and never affects VF unless X is F. */
  lemma AddImmStep(s: State)
    requires Defined(s) && Group(Fetch(s)) == 7
    ensures var op := Fetch(s);
      Step(s) == Tick(s.(registers := s.registers[X(op) := (s.registers[X(op)] + NN(op)) % 256],
                         pc := Advance(s.pc, 2)))
    ensures X(Fetch(s)) != VF ==> Step(s).registers[VF] == s.registers[VF]
  {
  }

  /** `8XY4`: VF = 1 exactly when Vx + Vy exceeds 255, then Vx = the sum
      modulo 256; for X = F the sum's low byte overwrites the flag. */
  lemma AddCarryStep(s: State)
    requires Defined(s) && Group(Fetch(s)) == 8 && N(Fetch(s)) == 4
    ensures var op := Fetch(s);
      var vx: int, vy: int := s.registers[X(op)], s.registers[Y(op)];
      var r := Step(s).registers;
      && (X(op) != VF ==> r[VF] == (if vx + vy > 255 then 1 else 0) && r[X(op)] == (vx + vy) % 256)
      && (X(op) == VF ==> r[VF] == (vx + vy) % 256)
      && (forall j | 0 <= j < REGISTERS && j != X(op) && j != VF :: r[j] == s.registers[j])
      && Step(s) == Tick(s.(registers := r, pc := Advance(s.pc, 2)))
  {
  }

  /** `8XY5`: VF = 1 exactly when Vx > Vy (so equal operands give 0), then
      Vx = Vx - Vy modulo 256. */
  lemma SubStep(s: State)
    requires Defined(s) && Group(Fetch(s)) == 8 && N(Fetch(s)) == 5
    requires X(Fetch(s)) != VF && Y(Fetch(s)) != VF
    ensures var op := Fetch(s);
      var vx: int, vy: int := s.registers[X(op)], s.registers[Y(op)];
      var r := Step(s).registers;
      && r[VF] == (if vx > vy then 1 else 0)
      && r[X(op)] == (vx - vy) % 256
      && r == s.registers[VF := r[VF]][X(op) := r[X(op)]]
      && Step(s) == Tick(s.(registers := r, pc := Advance(s.pc, 2)))
  {
  }

  /** `8XF5`: the flag is written before the subtraction reads Vy, so the
      subtrahend is the new flag rather than the old VF. */
  lemma SubFromFlagRegister(s: State)
    requires Defined(s) && Group(Fetch(s)) == 8 && N(Fetch(s)) == 5
    requires X(Fetch(s)) != VF && Y(Fetch(s)) == VF
    ensures var op := Fetch(s);
      var vx := s.registers[X(op)];
      var flag := if vx > s.registers[VF] then 1 else 0;
      && Step(s).registers == s.registers[VF := flag][X(op) := (vx - flag) % 256]
      && Step(s) == Tick(s.(registers := Step(s).registers, pc := Advance(s.pc, 2)))
  {
  }

  /** `8FYn` with n = 5, 6, 7 or E: the result overwrites the flag just
      written, and any read of VF after that write sees the new flag. So
      `8FY6` always leaves VF = 0, `8FYE` leaves twice the old top bit, and
      the subtractions use the fresh flag as VF and, for Y = F, as Vy. */
  lemma FlagRegisterAsDestination(s: State)
    requires Defined(s) && Group(Fetch(s)) == 8 && X(Fetch(s)) == VF
    requires N(Fetch(s)) in {5, 6, 7, 0xE}
    ensures var op := Fetch(s);
      var vf: int, vy: int := s.registers[VF], s.registers[Y(op)];
      var r := Step(s).registers;
      && (N(op) == 5 ==>
            var flag := if vf > vy then 1 else 0;
            r == s.registers[VF := (flag - (if Y(op) == VF then flag else vy)) % 256])
      && (N(op) == 6 ==> r == s.registers[VF := 0])
      && (N(op) == 7 ==>
            var flag := if vy > vf then 0 else 1;
            r == s.registers[VF := ((if Y(op) == VF then flag else vy) - flag) % 256])
      && (N(op) == 0xE ==> r == s.registers[VF := 2 * (vf / 0x80)])
      && Step(s) == Tick(s.(registers := r, pc := Advance(s.pc, 2)))
  {
    BitAndMasks(s.registers[VF]);
  }

  /** `8XY7`: VF = 0 exactly when Vy > Vx, then Vx = Vy - Vx modulo 256. */
  lemma SubReverseStep(s: State)
    requires Defined(s) && Group(Fetch(s)) == 8 && N(Fetch(s)) == 7
    requires X(Fetch(s)) != VF && Y(Fetch(s)) != VF
    ensures var op := Fetch(s);
      var vx: int, vy: int := s.registers[X(op)], s.registers[Y(op)];
      var r := Step(s).registers;
      && r[VF] == (if vy > vx then 0 else 1)
      && r[X(op)] == (vy - vx) % 256
      && r == s.registers[VF := r[VF]][X(op) := r[X(op)]]
      && Step(s) == Tick(s.(registers := r, pc := Advance(s.pc, 2)))
  {
  }

  /** `8XF7`: the flag is written before the subtraction reads Vy, so Vx
      is subtracted from the new flag rather than from the old VF. */
  lemma SubReverseFromFlag(s: State)
    requires Defined(s) && Group(Fetch(s)) == 8 && N(Fetch(s)) == 7
    requires X(Fetch(s)) != VF && Y(Fetch(s)) == VF
    ensures var op := Fetch(s);
      var vx: int := s.registers[X(op)];
      var flag: int := if s.registers[VF] > vx then 0 else 1;
      && Step(s).registers == s.registers[VF := flag][X(op) := (flag - vx) % 256]
      && Step(s) == Tick(s.(registers := Step(s).registers, pc := Advance(s.pc, 2)))
  {
  }

  /** `8XY6` shifts Vx (not Vy) right: VF = bit 0 of Vx, Vx = Vx / 2. */
  lemma ShiftRightStep(s: State)
    requires Defined(s) && Group(Fetch(s)) == 8 && N(Fetch(s)) == 6 && X(Fetch(s)) != VF
    ensures var op := Fetch(s);
      var vx: int := s.registers[X(op)];
      var r := Step(s).registers;
      && r == s.registers[VF := vx % 2][X(op) := vx / 2]
      && Step(s) == Tick(s.(registers := r, pc := Advance(s.pc, 2)))
  {
    BitAndMasks(s.registers[X(Fetch(s))]);
  }

  /** `8XYE` shifts Vx (not Vy) left: VF = bit 7 of Vx, Vx = 2 Vx modulo 256. */
  lemma ShiftLeftStep(s: State)
    requires Defined(s) && Group(Fetch(s)) == 8 && N(Fetch(s)) == 0xE && X(Fetch(s)) != VF
    ensures var op := Fetch(s);
      var vx: int := s.registers[X(op)];
      var r := Step(s).registers;
      && r == s.registers[VF := vx / 128][X(op) := (vx * 2) % 256]
      && Step(s) == Tick(s.(registers := r, pc := Advance(s.pc, 2)))
  {
    BitAndMasks(s.registers[X(Fetch(s))]);
  }

  // ----------------------------------------------------------------- draw

  /** `DXYN` toggles exactly the cells covered by the set bits of the N
      sprite rows at I, placed at (Vx, Vy) as read before VF is cleared;
      VF = 1 exactly when one of those cells held 1; nothing else but pc
      changes. */
  lemma DrawStep(s: State)
    requires Defined(s) && Group(Fetch(s)) == 0xD
    ensures var op := Fetch(s);
      var x, y := s.registers[X(op)], s.registers[Y(op)];
      var rows := SpriteRows(s.memory, s.I, N(op));
      var t := Step(s);
      && (forall k | 0 <= k < PIXELS ::
            t.gfx[k] == if Covers(rows, x, y, k) then Flip(s.gfx[k]) else s.gfx[k])
      && (t.registers[VF] == 1 <==> exists k | 0 <= k < PIXELS :: Covers(rows, x, y, k) && s.gfx[k] == 1)
      && (t.registers[VF] == 0 || t.registers[VF] == 1)
      && t == Tick(s.(registers := s.registers[VF := t.registers[VF]], gfx := t.gfx,
                      pc := Advance(s.pc, 2)))
  {
    var op := Fetch(s);
    DrawSpriteEffect(s.gfx, SpriteRows(s.memory, s.I, N(op)), s.registers[X(op)], s.registers[Y(op)]);
  }

  /** The same `DXYN` executed twice in a row (the opcode repeated at
      pc + 2) leaves the framebuffer as it was, provided neither coordinate
      register is VF, which the first draw overwrites. */
  lemma DrawTwiceRestoresScreen(s: State)
    requires Defined(s) && Group(Fetch(s)) == 0xD
    requires X(Fetch(s)) != VF && Y(Fetch(s)) != VF
    requires s.pc + 3 < MEMORY_SIZE
    requires s.memory[s.pc + 2] == s.memory[s.pc] && s.memory[s.pc + 3] == s.memory[s.pc + 1]
    ensures Defined(Step(s)) && Step(Step(s)).gfx == s.gfx
  {
    var op := Fetch(s);
    var t := Step(s);
    assert t.pc == s.pc + 2;
    assert Fetch(t) == op;
    var rows := SpriteRows(s.memory, s.I, N(op));
    assert SpriteRows(t.memory, t.I, N(op)) == rows;
    DrawTwiceRestores(s.gfx, rows, s.registers[X(op)], s.registers[Y(op)]);
  }

  /** A framebuffer of 0s and 1s stays one, whatever the instruction. */
  lemma StepKeepsScreenBinary(s: State)
    requires Defined(s) && Binary(s.gfx)
    ensures Binary(Step(s).gfx)
  {
    match Decode(Fetch(s))
    case Draw(x, y, n) => DrawKeepsBinary(s.gfx, SpriteRows(s.memory, s.I, n), s.registers[x], s.registers[y]);
    case _ =>
  }

  // --------------------------------------------------------------- timers

  /** Every cycle ends with a tick: each timer above zero counts down by
      one, a zero timer stays zero, and nothing else touches them. */
  lemma StepTicksTimers(s: State)
    requires Defined(s)
    ensures Step(s).delayTimer == if s.delayTimer > 0 then s.delayTimer - 1 else 0
    ensures Step(s).soundTimer == if s.soundTimer > 0 then s.soundTimer - 1 else 0
  {
  }

  /** The beep fires exactly on the cycle that takes the sound timer from
      above zero down to zero, so never on two cycles in a row. */
  lemma BeepOnLastTick(s: State)
    requires Defined(s)
    ensures Beeps(s) <==> s.soundTimer > 0 && Step(s).soundTimer == 0
    ensures Beeps(s) ==> !Beeps(Step(s))
  {
  }
}
