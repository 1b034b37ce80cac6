# CHIP-8 virtual machine in Dafny

This project models the core of a small CHIP-8 emulator written in C++: the
`Chip8` class (`include/chip8.hpp`) and its three operations in
`src/chip8.cpp`. `Initialize` resets the machine and installs the hex font.
The copy loop of `LoadROM` places a program at 0x200. `EmulateCycle` fetches
one big-endian opcode, decodes it, executes it and then ticks both timers.

The model has two layers.

- **Values** (`bits.dfy`, `opcodes.dfy`, `sprite.dfy`, `machine.dfy`). The
  state is a `State` datatype holding sequences. `Reset`, `Load` and
  `Step = Tick(Execute(s, Decode(Fetch(s))))` give each operation's effect as
  a function. Fixed-width integers are bounded integer types (`Byte`, `Word`,
  `Cell`). The C++ wrap-around is written out with `Wrap8` and `Wrap16`.
- **Objects** (`emulator.dfy`). The class `Chip8` holds the same fields in
  arrays and updates them in place. `Initialize`, `LoadROM` and
  `EmulateCycle` are proved to take the abstract state `Abs()` to `Reset`,
  `Load` and `Step` of the old state. `DXYN`'s nested row/column loop keeps
  its loops.

`properties.dfy` proves what the operations promise. Each instruction lemma
starts from the nibbles of the fetched word, so it covers fetch, decode and
dispatch together. It says what changes and that nothing else does.

The draw is specified twice. `DrawPrefix` follows the loop one
(row, column) position at a time. `Covers` is the closed form: a cell is hit
when the sprite row `(k / 64 - y) mod 32` and column `(k % 64 - x) mod 64`
are in range and that bit is set. The lemmas prove that the loop flips exactly
the covered cells, and that it raises VF exactly when one of them held 1.
From this follow: drawing twice restores the screen, a 0/1 screen stays 0/1,
and a redraw on a blank screen collides exactly when the sprite has a set bit.

Behaviour of the code worth knowing, where CHIP-8 interpreters often differ:

- Timers tick once per `EmulateCycle`, not on a separate 60 Hz call.
- `Initialize` does not reset the timers.
- `8XY5` sets VF with a strict `>`, so equal operands give VF = 0.
- `8XY6` and `8XYE` shift Vx, not Vy.
- There is no F group, no BCD and no key wait. Those opcodes, like
  `BNNN`, `CXNN`, the E group and every unlisted `0NNN` or `8XYn`, only move
  pc on by 2.
- `00E0` and `00EE` are recognised by the low byte alone, so `0NE0` clears
  the screen and `0NEE` returns for any N.
- VF is written before the result. An `8XYn` whose result reads Vx or Vy
  again after that write sees the new flag when X or Y is F (see
  `SubFromFlagRegister`, `SubReverseFromFlag` and `FlagRegisterAsDestination`). So `8FY6` always
  leaves VF = 0, `8FYE` leaves twice the old top bit of VF, `8FY5` and
  `8FY7` subtract with the fresh flag in place of the old VF, and `8XF5` and
  `8XF7` use the fresh flag as Vy.
- `LoadROM` checks no size.

The cases where the C++ code has undefined behaviour become preconditions.
These are `Machine.Defined` and `Machine.CanExecute`, and the size bound of
`Load`:

- both opcode bytes must lie in memory (`pc + 1 < 4096`);
- a call needs `sp < 16`;
- a return needs `sp > 0`;
- a draw of N > 0 rows needs `I + N <= 4096`;
- a program must fit in `4096 - 0x200` bytes.

The stack pointer then never exceeds 16, and `WellFormed` carries that as an
invariant.

## Model

| member | source | states |
|---|---|---|
| Emulator.Chip8.constructor | include/chip8.hpp:11-27 | a new object has every `{}`-initialised field zero (memory, registers, stack, keypad, pc, I, sp, timers); nothing is promised about the framebuffer, which has no initializer |
| Emulator.Chip8.Initialize | src/chip8.cpp:25-41 | the new abstract state is `Reset` of the old one: only the timers survive |
| Emulator.Fill | src/chip8.cpp:32-36 | `std::fill` sets every element of the array to the value |
| Emulator.Chip8.CopyFont | src/chip8.cpp:38-40 | on zeroed memory, the font loop leaves exactly the reset memory image: the 80 font bytes at 0x50, zero elsewhere |
| Machine.WellFormed | include/chip8.hpp:11-24 | the sizes of the declared arrays (4096 bytes of memory, 16 registers, 16 stack slots, 64 × 32 cells, 16 keys) and sp <= 16; Execute, Step, Reset and Load keep it |
| Emulator.Chip8.Valid | include/chip8.hpp:11-24 | the object's arrays have the declared sizes, the byte arrays are distinct, and sp <= 16 |
| Emulator.Chip8.Abs | include/chip8.hpp:11-27 | the fields as a State value, which is always well-formed |
| Machine.InitialMemory | src/chip8.cpp:6-40 | memory after reset: the 80 bytes of `Chip8_fontset` (the constant `FONTSET`, lines 6-23) at 0x50 + j, every other byte 0 |
| Machine.Reset | src/chip8.cpp:25-41 | the state `Initialize` produces: pc = 0x200, I = 0, sp = 0, and both timers keep their values |
| Properties.ResetState | src/chip8.cpp:25-41 | after reset pc = 0x200, I = 0, sp = 0; registers, stack, framebuffer and keypad are zero; memory[0x50 + i] = fontset[i] for i < 80 and every other byte is 0; the timers keep their values |
| Emulator.Chip8.LoadROM | src/chip8.cpp:60-61 | the new abstract state is `Load` of the old one and the bytes; the program must fit below 4096 |
| Machine.Load | src/chip8.cpp:60-61 | bytes 0x200 .. 0x200 + \|rom\| of memory become rom, and nothing but memory changes |
| Properties.LoadPlacesProgram | src/chip8.cpp:60-61 | memory[0x200 + i] = rom[i] for every i < \|rom\|, every other byte and every other field unchanged |
| Properties.FirstFetchAfterLoad | src/chip8.cpp:70 | after reset and load, the first cycle fetches rom[0] * 256 + rom[1] from 0x200, and the font is still intact |
| Machine.Fetch | src/chip8.cpp:70 | the opcode's high byte is memory[pc] and its low byte memory[pc + 1] |
| Opcodes.Group | src/chip8.cpp:72 | `opcode & 0xF000` as a nibble; FieldsOf and NibblesOf tie it to the opcode's top four bits |
| Opcodes.X | src/chip8.cpp:283 | `(opcode & 0x0F00) >> 8`; FieldsOf and NibblesOf tie it to the second nibble |
| Opcodes.Y | src/chip8.cpp:284 | `(opcode & 0x00F0) >> 4`; FieldsOf and NibblesOf tie it to the third nibble |
| Opcodes.N | src/chip8.cpp:285 | `opcode & 0x000F`; FieldsOf and NibblesOf tie it to the low nibble |
| Opcodes.NN | src/chip8.cpp:117 | `opcode & 0x00FF`; FieldsOf and ByteFieldsOf give it as the low byte |
| Opcodes.NNN | src/chip8.cpp:102 | `opcode & 0x0FFF`; FieldsOf gives it as the low 12 bits |
| Opcodes.FieldsOf | src/chip8.cpp:72-285 | a word built from four nibbles g, x, y, n has Group g, X x, Y y, N n, NN = 16y + n and NNN = 256x + 16y + n |
| Opcodes.ByteFieldsOf | src/chip8.cpp:114-163 | a word built from group g, register x and byte nn has Group g, X x and NN nn |
| Opcodes.NibblesOf | src/chip8.cpp:72-285 | every opcode is the sum of its four nibble fields at their places |
| Opcodes.Decode | src/chip8.cpp:72-313 | the branch of the switch an opcode takes; its meaning is stated by DecodeEncode, IgnoredOpcodes and RegisterSkipsIgnoreLowNibble |
| Opcodes.AluOpOf | src/chip8.cpp:169-258 | the `8XYn` switch implements exactly n in 0..7 and E; n in 8..D and F go to its default |
| Opcodes.DecodeEncode | src/chip8.cpp:72-314 | every instruction has a canonical opcode that decodes back to it (Decode is a left inverse of Encode; the converse fails, e.g. `5XY1` re-encodes as `5XY0`) |
| Opcodes.IgnoredOpcodes | src/chip8.cpp:72-313 | an opcode reaches a `default` branch if and only if it is 0NNN with low byte not E0/EE, 8XYn with n outside 0..7 and E, or in the B, C, E or F group |
| Opcodes.RegisterSkipsIgnoreLowNibble | src/chip8.cpp:136-145 | `5XYn` and `9XYn` decode the same whatever n is |
| Machine.CanExecute | src/chip8.cpp:84-112 | the instruction stays inside its arrays: a return needs sp > 0 (lines 86-87), a call needs sp < 16 (line 108), a draw of N > 0 rows needs I + N <= 4096 (line 290) |
| Machine.Defined | src/chip8.cpp:70 | a cycle is defined when both opcode bytes lie in memory and the decoded instruction satisfies CanExecute; EmulateCycle and every step lemma require it |
| Machine.Advance | src/chip8.cpp:114-121 | `pc += k` on a uint16_t: pc + k when that fits, otherwise the same value modulo 65536 |
| Machine.AluResult | src/chip8.cpp:165-260 | an `8XYn` changes only Vx and VF, and the four logic operations do not touch VF unless X is F |
| Machine.Execute | src/chip8.cpp:72-314 | no instruction writes memory, the keypad or the timers, and the stack pointer stays at most 16 |
| Machine.Step | src/chip8.cpp:67-327 | a well-defined cycle keeps the state well-formed (array sizes, sp <= 16) |
| Machine.SpriteRows | src/chip8.cpp:289-290 | a draw of height N reads exactly the N bytes from I on |
| Emulator.Chip8.EmulateCycle | src/chip8.cpp:67-327 | the new abstract state is `Step` of the old one, and it beeps exactly when the sound timer was 1 |
| Emulator.Chip8.Dispatch | src/chip8.cpp:72-314 | the switch on the decoded opcode takes the state to `Execute` of the old state |
| Emulator.Chip8.ExecuteAlu | src/chip8.cpp:165-260 | the register writes of the `8XYn` group, in the code's order, give `AluResult` of the old registers |
| Emulator.Chip8.DrawSpriteAt | src/chip8.cpp:281-308 | the framebuffer becomes `DrawSprite` of the old one with the N rows at I placed at (Vx, Vy), and VF is 1 exactly when that draw collided, 0 otherwise |
| Emulator.Chip8.DrawRow | src/chip8.cpp:291-303 | the column loop for one row advances the loop state `DrawPrefix` by 8 positions |
| Machine.CountDown | src/chip8.cpp:317-325 | a timer drops by at most one, and stays put exactly when it is 0 |
| Machine.Tick | src/chip8.cpp:316-326 | only the two timers change, and neither increases |
| Machine.Beeps | src/chip8.cpp:320-324 | a beep only comes when the sound timer is above 0 and the tick takes it to 0 |
| Properties.ClearScreenStep | src/chip8.cpp:77-82 | `00E0` sets every cell to 0; only the framebuffer and pc (+2) change, then the timers tick |
| Properties.LoadImmStep | src/chip8.cpp:147-154 | `6XNN` sets Vx = NN; nothing else but pc (+2) and the timers changes |
| Properties.LogicStep | src/chip8.cpp:171-197 | `8XY0`..`8XY3` set Vx to Vy, Vx OR Vy, Vx AND Vy or Vx XOR Vy; nothing else but pc and the timers changes |
| Properties.XorSelfClears | src/chip8.cpp:192-196 | `8XX3` sets Vx to 0; nothing else but pc (+2) and the timers changes |
| Properties.LoadIndexStep | src/chip8.cpp:273-279 | `ANNN` sets I = NNN; nothing else but pc and the timers changes |
| Properties.IgnoredStep | src/chip8.cpp:310-313 | an opcode of a default branch changes nothing but pc (+2) and the timers |
| Properties.JumpStep | src/chip8.cpp:100-104 | `1NNN` sets pc = NNN and changes nothing else but the timers |
| Properties.CallStep | src/chip8.cpp:106-112 | `2NNN` stores the call's own address in stack[sp], increments sp and sets pc = NNN |
| Properties.ReturnStep | src/chip8.cpp:84-90 | `00EE` decrements sp and sets pc to the popped address + 2 |
| Properties.CallThenReturn | src/chip8.cpp:84-112 | a call followed by a return at the target resumes at call site + 2 with sp, registers, I, memory and framebuffer restored |
| Properties.SkipStep | src/chip8.cpp:114-271 | `3XNN`, `4XNN`, `5XYn` and `9XYn` add 4 to pc when their comparison holds and 2 otherwise, and change no register |
| Properties.AddImmStep | src/chip8.cpp:156-163 | `7XNN` sets Vx = (Vx + NN) mod 256 and leaves VF alone unless X is F |
| Properties.AddCarryStep | src/chip8.cpp:199-211 | `8XY4`: VF = 1 iff Vx + Vy > 255 and Vx = (Vx + Vy) mod 256; for X = F the sum's low byte overwrites the flag; no other register changes |
| Properties.SubStep | src/chip8.cpp:213-224 | `8XY5` (X, Y not F): VF = 1 iff Vx > Vy, and Vx = (Vx - Vy) mod 256 |
| Properties.SubFromFlagRegister | src/chip8.cpp:213-224 | `8XF5` subtracts the freshly written flag, not the old VF; nothing else but Vx, VF, pc (+2) and the timers changes |
| Properties.FlagRegisterAsDestination | src/chip8.cpp:213-253 | for X = F: `8FY6` leaves VF = 0, `8FYE` leaves 2 × bit 7 of the old VF, `8FY5` and `8FY7` leave the difference with the fresh flag (which is also Vy when Y = F); nothing else but pc (+2) and the timers changes |
| Properties.SubReverseStep | src/chip8.cpp:234-245 | `8XY7` (X, Y not F): VF = 0 iff Vy > Vx, and Vx = (Vy - Vx) mod 256 |
| Properties.SubReverseFromFlag | src/chip8.cpp:234-245 | `8XF7` (X not F): VF = 0 iff the old VF > Vx, then Vx = (flag - Vx) mod 256 with the fresh flag as Vy; nothing else but pc (+2) and the timers changes |
| Properties.ShiftRightStep | src/chip8.cpp:226-232 | `8XY6` (X not F): VF = bit 0 of Vx and Vx = Vx / 2; Vy plays no part |
| Properties.ShiftLeftStep | src/chip8.cpp:247-253 | `8XYE` (X not F): VF = bit 7 of Vx and Vx = 2 Vx mod 256; Vy plays no part |
| Properties.DrawStep | src/chip8.cpp:281-308 | `DXYN` toggles exactly the cells covered by set sprite bits at (Vx, Vy) read before VF is cleared; VF = 1 iff one of them held 1; VF is 0 or 1; nothing else but pc and the timers changes |
| Properties.DrawTwiceRestoresScreen | src/chip8.cpp:281-308 | executing the same `DXYN` twice in a row restores the framebuffer (when neither coordinate register is VF) |
| Properties.StepKeepsScreenBinary | src/chip8.cpp:298-301 | if every cell is 0 or 1 before a cycle, it is after it |
| Properties.StepTicksTimers | src/chip8.cpp:316-326 | after every cycle each timer is max(t - 1, 0) of its old value |
| Properties.BeepOnLastTick | src/chip8.cpp:320-326 | the beep fires exactly on the cycle that takes the sound timer from above zero to zero, never on two cycles in a row |
| Sprite.Lit | src/chip8.cpp:290-292 | loop position p = 8 row + col is a set bit of sprite row `row`; DrawFlipsLitPixel states what a lit position does |
| Sprite.DrawSprite | src/chip8.cpp:287-304 | the whole row/column loop over 8N positions; DrawSpriteEffect gives its closed form |
| Sprite.PixelIndex | src/chip8.cpp:294-296 | the cell index `(x + col) % 64 + ((y + row) % 32) * 64` is always inside the 2048-cell framebuffer |
| Sprite.DrawPrefix | src/chip8.cpp:289-304 | the loop state after p positions; the framebuffer keeps its 2048 cells |
| Sprite.PixelIndexInverse | src/chip8.cpp:294-296 | the cell of sprite bit (row, col) gives back row and col, for row < 32 and col < 64 |
| Sprite.PixelIndexOf | src/chip8.cpp:294-296 | every cell is the cell of its own sprite row and column |
| Sprite.CoverStep | src/chip8.cpp:289-304 | each loop position adds only its own cell to the covered set, and that cell was not covered before |
| Sprite.DrawPrefixCells | src/chip8.cpp:289-304 | after p positions, exactly the cells covered by those positions are flipped |
| Sprite.DrawPrefixCollision | src/chip8.cpp:287-300 | after p positions, the flag is set iff some cell covered by them held 1 |
| Sprite.DrawSpriteEffect | src/chip8.cpp:287-304 | the whole draw flips exactly the covered cells and collides iff one of them held 1 |
| Sprite.DrawFlipsLitPixel | src/chip8.cpp:292-301 | every set bit (row, col) toggles cell `((x + col) mod 64) + ((y + row) mod 32) * 64` |
| Sprite.DrawTwiceRestores | src/chip8.cpp:289-304 | drawing a sprite twice at the same place restores the framebuffer |
| Sprite.DrawKeepsBinary | src/chip8.cpp:298-301 | a framebuffer of 0s and 1s stays one |
| Sprite.DrawTwiceOnBlank | src/chip8.cpp:287-304 | on a blank screen the first draw does not collide and the second collides iff the sprite has a set bit |
| Bits.Wrap8 | src/chip8.cpp:160 | storing an int into a uint8_t: the value itself when it fits, otherwise the same value modulo 256 |
| Bits.Wrap16 | src/chip8.cpp:88 | storing an int into a uint16_t: the value itself when it fits, otherwise the same value modulo 65536 |
| Bits.BitOr | src/chip8.cpp:180 | `\|=` on two bytes, computed on 8-bit vectors; LogicStep states that `8XY1` stores it in Vx |
| Bits.BitAnd | src/chip8.cpp:187 | `&=` on two bytes, computed on 8-bit vectors; LogicStep states that `8XY2` stores it in Vx, BitAndMasks what the shift masks give |
| Bits.BitXor | src/chip8.cpp:194 | `^=` on two bytes, computed on 8-bit vectors; LogicStep states that `8XY3` stores it in Vx, XorSelfClears that `8XX3` zeroes Vx |
| Bits.BitAndMasks | src/chip8.cpp:228-249 | `& 0x1` is bit 0 (the `8XY6` flag) and `(& 0x80) >> 7` is bit 7 (the `8XYE` flag) |
| Bits.SpriteBit | src/chip8.cpp:292 | the test `(pixel & (0x80 >> col)) != 0`; SpriteBitEnds states its end columns |
| Bits.SpriteBitEnds | src/chip8.cpp:292 | column 0 is the top bit of the row byte and column 7 the bottom bit |
| Bits.Flip | src/chip8.cpp:301 | `^= 1` toggles only the lowest bit, so 0 and 1 swap |

## Left out

- File handling in `LoadROM` (opening, sizing, reading and freeing the buffer) is I/O; the bytes are taken as a parameter.
- The `printf("Beep")` is I/O; `EmulateCycle` returns a boolean `beep` instead.
- `src/main.cpp` (window, renderer, event loop, frame delay) is presentation glue over SDL. It is not part of this model.
- The `keypad` array is modelled and zeroed by `Initialize`, but no implemented instruction reads it.
- The scratch `opcode` field is a local variable of `EmulateCycle`.
- The `GetMemory` accessor, which hands out a raw pointer to memory, is not modelled, so aliasing through it is not either.
- Out-of-range fetches, stack overflow and underflow, and sprite reads past memory are undefined in the C++ code. They are preconditions, not behaviour.
- Opcodes the code does not implement (`BNNN`, `CXNN`, the E and F groups) are modelled only as the `pc += 2` they get.
- `LoadROM` is declared with a `const char*` parameter in the header but defined with a filesystem path; only the copy loop is modelled.
