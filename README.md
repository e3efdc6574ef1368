# CHIP-8 engine, modelled in Dafny

This project models the engine of a browser CHIP-8 emulator, together with
its two opcode disassemblers:

- **`Chip8` (src/Chip8.ts).** This is the machine state:
  - 4 KiB of memory;
  - sixteen 8-bit registers V0..VF;
  - PC, SP and I;
  - a 16-entry return stack;
  - a 64×32 video buffer;
  - 16 key slots;
  - the delay and sound timers.

  Besides the state it has the constructor, `copyFontset`, `reset` and
  `loadRom`, and one `cycle`. A cycle fetches a big-endian opcode, advances
  PC by 2, dispatches on the opcode's nibbles to an `OP_*` handler, and
  counts both timers down.
- **`getMnemonic` (src/utils.ts).** It turns an opcode into a fixed
  assembler name. The engine uses it when it logs each instruction.
- **`getMnemonic` (src/getMnemonic.ts).** A richer variant that embeds
  operands in decimal and in upper-case hexadecimal.

The project has three layers:

- **Values.** `Machine` holds the whole engine state as a datatype, with one
  function per handler (`Op00E0` … `OpFx65`). The cycle is
  `Fetch`/`Execute`/`Tick` with the same dispatch as the source. This
  includes the group 0xE dispatch, which compares a 4-bit nibble against
  0x9e and 0xa1, so it never reaches SKP or SKNP.
- **Engine.** `Engine.Chip8` is a class with the source's fields. Its
  memory, keypad, video, stack and register arrays are updated in place.
  Every handler and cycle method is proved to leave the object in exactly
  the state that the `Machine` function of the same name computes from the
  old state. Three groups of methods have no `Machine` function of their
  own name:
  - `CopyFontset` is specified by `Machine.CopyInto` on the old memory;
  - `Reset` and the constructor are specified by `Machine.InitialState`;
  - `DrawSprite`, `DrawSpriteRow` and `DrawSpritePixel` are specified by
    `Machine.DrawRows`, `Machine.DrawRow` and `Machine.DrawPixel`, read
    back through the predicate `Shows` (screen and VF).

  The
  loops of `copyFontset`, `loadRom`, `OP_Dxyn`, `OP_Fx0A`, `OP_Fx55` and
  `OP_Fx65` carry their own invariants.
- **Properties.** These are proved about the `Machine` functions in the
  modules `ArithmeticFacts`, `ControlFacts`, `MemoryFacts`, `DrawFacts` and
  `CycleFacts`. The two disassemblers are `Utils.GetMnemonic` and
  `Mnemonic.GetMnemonic`. The module `Format` models
  `toString(radix)`, `toUpperCase` and `padStart`, and proves that a
  rendered number reads back as itself.

Supporting modules:

- `Bits` models the byte operators `&`, `|` and `^` by arithmetic on bits,
  least significant bit first.
- `Byte` and `Word` are the 8- and 16-bit ranges of `Uint8Array` and
  `Uint16Array`.
- A register write that wraps in the source (`-`, `<<`) is written out
  with `Wrap8` or `% 0x100`.

Random bytes are a parameter: `Cycle(s, rnd)` and `OpCxkk(s, rnd)` take the
byte that `getRandomByte` would return.

## Model

| member | source | states |
|---|---|---|
| Engine.Chip8.constructor | src/Chip8.ts:29-42 | the new object is the initial machine state `InitialState(font)`, with five fresh arrays of the source's sizes |
| Engine.Chip8.CopyFontset | src/Chip8.ts:43-48 | memory afterwards is the old memory with the 80 font bytes written from 0x50, nothing else changed |
| Engine.Chip8.Reset | src/Chip8.ts:49-63 | whatever the state before, the object is afterwards exactly `InitialState(font)` |
| Engine.Chip8.LoadRom | src/Chip8.ts:64-76 | the object afterwards is `Machine.LoadRom` of the old state: ROM bytes from 0x200 on, bytes past 0xFFF dropped |
| Engine.Chip8.Cycle | src/Chip8.ts:77-241 | one cycle leaves the object in the state `Machine.Cycle(old, rnd)` (fetch, dispatch, timer countdown) |
| Engine.Chip8.Execute | src/Chip8.ts:113-232 | the outer `switch (nibble3)` computes `Machine.Execute` |
| Engine.Chip8.Execute0 | src/Chip8.ts:114-123 | group 0 selects 00E0 or 00EE by the last nibble, anything else is a no-op |
| Engine.Chip8.Execute8 | src/Chip8.ts:145-175 | group 8 selects the register handler by the last nibble, anything else is a no-op |
| Engine.Chip8.ExecuteE | src/Chip8.ts:191-200 | the state is unchanged: both cases compare a 4-bit nibble with 0x9e and 0xa1 and are dead |
| Engine.Chip8.ExecuteF | src/Chip8.ts:201-231 | group F selects its handler by the low byte, anything else is a no-op |
| Engine.Chip8.Op00E0 | src/Chip8.ts:251-256 | computes `Machine.Op00E0`: all video cells 0 |
| Engine.Chip8.Op00EE | src/Chip8.ts:257-263 | computes `Machine.Op00EE`: SP decremented, PC from the popped slot |
| Engine.Chip8.Op1nnn | src/Chip8.ts:264-270 | computes `Machine.Op1nnn` |
| Engine.Chip8.Op2nnn | src/Chip8.ts:271-280 | computes `Machine.Op2nnn`: PC pushed (16-bit slot), SP incremented, PC = nnn |
| Engine.Chip8.Op3xkk | src/Chip8.ts:281-294 | computes `Machine.Op3xkk` |
| Engine.Chip8.Op4xkk | src/Chip8.ts:295-305 | computes `Machine.Op4xkk` |
| Engine.Chip8.Op5xy0 | src/Chip8.ts:306-316 | computes `Machine.Op5xy0` |
| Engine.Chip8.Op6xkk | src/Chip8.ts:317-323 | computes `Machine.Op6xkk` |
| Engine.Chip8.Op7xkk | src/Chip8.ts:324-331 | computes `Machine.Op7xkk`, the sum wrapped by the byte store |
| Engine.Chip8.Op8xy0 | src/Chip8.ts:332-339 | computes `Machine.Op8xy0` |
| Engine.Chip8.Op8xy1 | src/Chip8.ts:340-346 | computes `Machine.Op8xy1` |
| Engine.Chip8.Op8xy2 | src/Chip8.ts:347-353 | computes `Machine.Op8xy2` |
| Engine.Chip8.Op8xy3 | src/Chip8.ts:354-360 | computes `Machine.Op8xy3` |
| Engine.Chip8.Op8xy4 | src/Chip8.ts:361-376 | computes `Machine.Op8xy4`: carry into VF first, then the masked sum into Vx |
| Engine.Chip8.Op8xy5 | src/Chip8.ts:377-393 | computes `Machine.Op8xy5`: VF first, then Vx -= Vy wrapped |
| Engine.Chip8.Op8xy6 | src/Chip8.ts:394-404 | computes `Machine.Op8xy6`: VF = old bit 0, then Vx >> 1 |
| Engine.Chip8.Op8xy7 | src/Chip8.ts:405-422 | computes `Machine.Op8xy7`: VF first, then Vy - Vx wrapped |
| Engine.Chip8.Op8xyE | src/Chip8.ts:423-432 | computes `Machine.Op8xyE`: VF = old bit 7, then Vx << 1 wrapped |
| Engine.Chip8.Op9xy0 | src/Chip8.ts:433-442 | computes `Machine.Op9xy0` |
| Engine.Chip8.OpAnnn | src/Chip8.ts:443-450 | computes `Machine.OpAnnn` |
| Engine.Chip8.OpBnnn | src/Chip8.ts:451-458 | computes `Machine.OpBnnn`, PC = V0 + nnn unmasked |
| Engine.Chip8.OpCxkk | src/Chip8.ts:459-467 | computes `Machine.OpCxkk` with the oracle byte |
| Engine.Chip8.OpDxyn | src/Chip8.ts:468-505 | computes `Machine.OpDxyn`: VF cleared, then the nested row and bit loops |
| Engine.Chip8.DrawSprite | src/Chip8.ts:487-504 | after the outer loop the screen and VF are `DrawRows` of all n sprite rows |
| Engine.Chip8.DrawSpriteRow | src/Chip8.ts:489-503 | after the inner loop the screen and VF are `DrawRow` of the eight bits of one row |
| Engine.Chip8.DrawSpritePixel | src/Chip8.ts:490-502 | one pixel is XORed and VF raised on a lit pixel, as `DrawPixel` |
| Engine.Chip8.OpEx9E | src/Chip8.ts:506-515 | computes `Machine.OpEx9E` |
| Engine.Chip8.OpExA1 | src/Chip8.ts:516-525 | computes `Machine.OpExA1` |
| Engine.Chip8.OpFx0A | src/Chip8.ts:526-543 | computes `Machine.OpFx0A`: the key scan with `break`, PC rewound when no key is down |
| Engine.Chip8.OpFx07 | src/Chip8.ts:544-549 | computes `Machine.OpFx07` |
| Engine.Chip8.OpFx15 | src/Chip8.ts:550-555 | computes `Machine.OpFx15` |
| Engine.Chip8.OpFx18 | src/Chip8.ts:556-561 | computes `Machine.OpFx18` |
| Engine.Chip8.OpFx1E | src/Chip8.ts:562-567 | computes `Machine.OpFx1E` |
| Engine.Chip8.OpFx29 | src/Chip8.ts:568-574 | computes `Machine.OpFx29` |
| Engine.Chip8.OpFx33 | src/Chip8.ts:575-591 | computes `Machine.OpFx33` |
| Engine.Chip8.OpFx55 | src/Chip8.ts:592-598 | the store loop computes `Machine.OpFx55` |
| Engine.Chip8.OpFx65 | src/Chip8.ts:599-606 | the load loop computes `Machine.OpFx65` |
| Machine.InitialState | src/Chip8.ts:49-63 | PC = 0x200, SP = I = OPCODE = 0, timers 0, registers, keypad, video and stack all 0, memory 0 except the font at 0x50 |
| Machine.LoadRom | src/Chip8.ts:64-76 | only memory changes; address a holds rom[a - 0x200] inside the ROM's span and its old byte elsewhere |
| Machine.CopyInto | src/Chip8.ts:45-47 | an element-by-element copy into a fixed-size array: the span gets the source, the rest is kept, the length is unchanged |
| Machine.Op00E0 | src/Chip8.ts:251-256 | every video cell is 0 and nothing but the screen changes |
| Machine.Op2nnn | src/Chip8.ts:271-280 | SP goes up by one and the pushed slot holds PC |
| Machine.Op3xkk | src/Chip8.ts:281-294 | PC moves by 2 exactly when Vx equals kk |
| Machine.OpAnnn | src/Chip8.ts:443-450 | I is below 0x1000; `MemoryFacts.LoadIndex` gives I = nnn and the frame |
| Machine.Op00EE | src/Chip8.ts:257-263 | SP goes down by one and PC is the popped slot; nothing else changes |
| Machine.Op1nnn | src/Chip8.ts:264-270 | only PC changes, and it lies inside the address space |
| Machine.Op4xkk | src/Chip8.ts:295-305 | PC moves by 2 exactly when Vx differs from kk; nothing else changes |
| Machine.Op5xy0 | src/Chip8.ts:306-316 | only PC changes |
| Machine.Op6xkk | src/Chip8.ts:317-323 | only the register file changes |
| Machine.Op7xkk | src/Chip8.ts:324-331 | only the register file changes, each register still a byte |
| Machine.Op8xy0 | src/Chip8.ts:332-339 | only the register file changes |
| Machine.Op8xy1 | src/Chip8.ts:340-346 | only the register file changes |
| Machine.Op8xy2 | src/Chip8.ts:347-353 | only the register file changes |
| Machine.Op8xy3 | src/Chip8.ts:354-360 | only the register file changes |
| Machine.Op8xy4 | src/Chip8.ts:361-376 | only the register file changes, each register still a byte |
| Machine.Op8xy5 | src/Chip8.ts:377-393 | only the register file changes, each register still a byte |
| Machine.Op8xy6 | src/Chip8.ts:394-404 | only the register file changes |
| Machine.Op8xy7 | src/Chip8.ts:405-422 | only the register file changes, each register still a byte |
| Machine.Op8xyE | src/Chip8.ts:423-432 | only the register file changes, each register still a byte |
| Machine.Op9xy0 | src/Chip8.ts:433-442 | only PC changes |
| Machine.OpBnnn | src/Chip8.ts:451-458 | only PC changes, to a target between nnn and nnn + 255; `ControlFacts.JumpOffset` gives PC = V0 + nnn |
| Machine.OpCxkk | src/Chip8.ts:459-467 | only the register file changes |
| Machine.DrawPixel | src/Chip8.ts:490-502 | the screen keeps its size and a raised collision flag stays raised |
| Machine.DrawRow | src/Chip8.ts:489-503 | the screen keeps its size and a raised collision flag stays raised |
| Machine.DrawRows | src/Chip8.ts:487-504 | the screen keeps its size |
| Machine.OpDxyn | src/Chip8.ts:468-505 | only the screen and the registers change, and VF ends 0 or 1 |
| Machine.KeyPressed | src/Chip8.ts:506-525 | a key index past the keypad never reads as pressed |
| Machine.OpEx9E | src/Chip8.ts:506-515 | only PC changes |
| Machine.OpExA1 | src/Chip8.ts:516-525 | only PC changes |
| Machine.OpFx0A | src/Chip8.ts:526-543 | only the registers and PC change |
| Machine.OpFx07 | src/Chip8.ts:544-549 | only the register file changes; `ArithmeticFacts.LoadDelay` gives Vx = the delay timer |
| Machine.OpFx15 | src/Chip8.ts:550-555 | only the delay timer changes |
| Machine.OpFx18 | src/Chip8.ts:556-561 | only the sound timer changes |
| Machine.OpFx1E | src/Chip8.ts:562-567 | only I changes, and it never decreases |
| Machine.OpFx29 | src/Chip8.ts:568-574 | only I changes, and it points at or past the font start 0x50 |
| Machine.OpFx33 | src/Chip8.ts:575-591 | only memory changes, and it stays 4096 bytes |
| Machine.OpFx55 | src/Chip8.ts:592-598 | only memory changes, and it stays 4096 bytes |
| Machine.OpFx65 | src/Chip8.ts:599-606 | only the register file changes |
| Machine.Fetch | src/Chip8.ts:85-99 | only the opcode and PC change, and PC advances by 2 |
| Machine.Execute | src/Chip8.ts:113-232 | no handler the dispatch selects writes the keypad or the opcode |
| Machine.Execute0 | src/Chip8.ts:114-123 | the keypad and the opcode are kept |
| Machine.Execute8 | src/Chip8.ts:145-175 | the keypad and the opcode are kept |
| Machine.ExecuteE | src/Chip8.ts:191-200 | the state is unchanged, because both cases are dead |
| Machine.ExecuteF | src/Chip8.ts:201-231 | the keypad and the opcode are kept |
| Machine.Tick | src/Chip8.ts:235-240 | each timer drops by one and stops at 0; nothing else changes |
| Machine.Cycle | src/Chip8.ts:77-241 | a cycle never writes the keypad |
| Machine.PixelIndex | src/Chip8.ts:491-494 | the wrapped pixel index lies inside the 64×32 buffer |
| Machine.SpriteBitIsMask | src/Chip8.ts:490 | `spriteByte & (0b10000000 >> bitPos)` is non-zero exactly when bit 7 - bitPos of the byte is set |
| Machine.FirstPressed | src/Chip8.ts:532-538 | the result is the lowest pressed key index at or after `from`, and None exactly when none is pressed |
| Machine.NibblesRebuildOpcode | src/Chip8.ts:106-110 | the four nibbles, each below 16, rebuild the opcode, and so do nibble 3 with nnn, or x with kk |
| ArithmeticFacts.LoadImmediate | src/Chip8.ts:317-323 | Vx = kk, only Vx changes |
| ArithmeticFacts.AddImmediate | src/Chip8.ts:324-331 | Vx = (Vx + kk) mod 256, VF untouched, only Vx changes |
| ArithmeticFacts.Copy | src/Chip8.ts:332-339 | Vx = Vy, only Vx changes |
| ArithmeticFacts.Bitwise | src/Chip8.ts:340-360 | each bit of the OR, AND, XOR result is the OR, AND, XOR of the operand bits; only Vx changes |
| ArithmeticFacts.AddWithCarry | src/Chip8.ts:361-376 | for x != F: Vx = (a+b) mod 256, VF = 1 iff a+b > 255, Vx + 256·VF = a+b, only Vx and VF change |
| ArithmeticFacts.AddIntoFlag | src/Chip8.ts:361-376 | for x = F the sum overwrites the carry: VF = (VF + Vy) mod 256 |
| ArithmeticFacts.Subtract | src/Chip8.ts:377-393 | for x, y != F: VF = 1 iff a > b (0 iff a <= b), Vx = (a-b) mod 256, a borrow adds 256 |
| ArithmeticFacts.SubtractFlagOperand | src/Chip8.ts:377-393 | for x != F, y = F: the subtraction reads the freshly written flag, Vx = (a - flag) mod 256; only Vx and VF change |
| ArithmeticFacts.SubtractIntoFlag | src/Chip8.ts:377-393 | for x = F: VF = (flag - Vy) mod 256 with flag = 1 iff old VF > Vy, and 0 for y = F; only VF changes |
| ArithmeticFacts.SubtractReversed | src/Chip8.ts:405-422 | for x, y != F: VF = 1 iff b >= a (0 iff b < a), Vx = (b-a) mod 256, a borrow adds 256 |
| ArithmeticFacts.SubtractReversedFlagOperand | src/Chip8.ts:405-422 | for x != F, y = F: VF = 1 iff old VF >= Vx, then Vx = (flag - a) mod 256; only Vx and VF change |
| ArithmeticFacts.SubtractReversedIntoFlag | src/Chip8.ts:405-422 | for x = F: VF = (Vy - flag) mod 256 with flag = 1 iff Vy >= old VF, and 0 for y = F; only VF changes |
| ArithmeticFacts.ShiftRight | src/Chip8.ts:394-404 | for x != F: VF = old bit 0, Vx = a/2, 2·Vx + VF = a |
| ArithmeticFacts.ShiftRightIntoFlag | src/Chip8.ts:394-404 | for x = F: the flag bit is shifted too, so VF always ends 0; only VF changes |
| ArithmeticFacts.ShiftLeft | src/Chip8.ts:423-432 | for x != F: VF = old bit 7, Vx = 2a mod 256, Vx + 256·VF = 2a |
| ArithmeticFacts.ShiftLeftIntoFlag | src/Chip8.ts:423-432 | for x = F: VF = 2 when bit 7 of the old VF was set, 0 otherwise; only VF changes |
| ArithmeticFacts.LoadDelay | src/Chip8.ts:544-549 | Vx = the delay timer, only Vx changes |
| ArithmeticFacts.RandomMasked | src/Chip8.ts:459-467 | for every oracle byte, Vx <= kk and bit j of Vx is set iff it is set in both the byte and kk |
| ControlFacts.SkipOnByte | src/Chip8.ts:281-305 | 3xkk skips exactly when Vx = kk, 4xkk exactly when not; only PC changes |
| ControlFacts.SkipOnRegister | src/Chip8.ts:306-316 | 5xy0 skips exactly when Vx = Vy, 9xy0 exactly when not; only PC changes |
| ControlFacts.SkipOnKey | src/Chip8.ts:506-525 | Ex9E skips exactly when key Vx is down, ExA1 exactly when not; a key index past 15 counts as up |
| ControlFacts.Jump | src/Chip8.ts:264-270 | PC = nnn, inside the address space, nothing else changes |
| ControlFacts.JumpOffset | src/Chip8.ts:451-458 | PC = V0 + nnn unmasked and nothing else changes; the target lies between nnn and nnn + 255 and reaches 0x10FE for V0 = 0xFF, nnn = 0xFFF |
| ControlFacts.CallThenReturn | src/Chip8.ts:257-280 | CALL then RET restores SP and PC and everything else, except that the pushed stack slot keeps the return address |
| ControlFacts.ReturnAddressWraps | src/Chip8.ts:271-280 | the pushed PC is kept modulo 2^16 by the 16-bit stack |
| MemoryFacts.LoadRomTruncates | src/Chip8.ts:64-76 | a ROM longer than 3584 bytes fills memory from 0x200 with its first 3584 bytes; memory below 0x200 is kept |
| MemoryFacts.LoadRomKeepsFont | src/Chip8.ts:64-76 | after `reset`, loading a ROM leaves the font at 0x50..0x9F in place |
| MemoryFacts.BinaryCodedDecimal | src/Chip8.ts:575-591 | the three digits are each below 10 and 100·d0 + 10·d1 + d2 = Vx; no other byte or field changes |
| MemoryFacts.StoreRegisters | src/Chip8.ts:592-598 | memory[I+w] = Vw for w <= x, the rest of memory and the state are kept |
| MemoryFacts.LoadRegisters | src/Chip8.ts:599-606 | Vw = memory[I+w] for w <= x, the registers above x and the rest of the state are kept |
| MemoryFacts.StoreThenLoad | src/Chip8.ts:592-606 | Fx65 after Fx55 changes nothing further |
| MemoryFacts.LoadThenStore | src/Chip8.ts:592-606 | Fx55 after Fx65 changes nothing further |
| MemoryFacts.FontGlyph | src/Chip8.ts:568-574 | I = 0x50 + 5·Vx for every Vx and nothing else changes; for a digit below 16, I points at its five-byte glyph inside the font |
| MemoryFacts.LoadIndex | src/Chip8.ts:443-450 | I = nnn, below 0x1000, and nothing else changes |
| MemoryFacts.AddToIndex | src/Chip8.ts:562-567 | I grows by Vx and is never masked |
| DrawFacts.Draw | src/Chip8.ts:468-505 | a pixel flips exactly when a lit sprite bit lands on it (with wrap-around); VF = 1 exactly when one of those pixels was lit; nothing but the screen and VF changes |
| DrawFacts.DrawRowsPixel | src/Chip8.ts:487-504 | after k rows a pixel is flipped exactly when a lit bit of those rows lands on it |
| DrawFacts.DrawRowsCollision | src/Chip8.ts:487-504 | after k rows the collision flag is set exactly when a lit bit of those rows met a lit pixel |
| DrawFacts.PixelIndexInjective | src/Chip8.ts:491-494 | the eight columns and at most 32 rows of one sprite land on distinct pixels |
| DrawFacts.DrawKeepsScreenBinary | src/Chip8.ts:495-502 | a screen of zeros and ones stays so |
| DrawFacts.DrawTwiceRestores | src/Chip8.ts:468-505 | drawing the same sprite twice at the same place restores the screen, also when Vx or Vy is VF (VF is cleared before the coordinates are read) |
| CycleFacts.FetchBigEndian | src/Chip8.ts:85-99 | the opcode's high byte is memory[PC] and its low byte memory[PC+1]; only the opcode and PC + 2 change |
| CycleFacts.SequentialAdvance | src/Chip8.ts:113-232 | non-branching instructions leave PC two past the instruction after a cycle |
| CycleFacts.Timers | src/Chip8.ts:235-240 | each timer after a cycle is max(t-1, 0) of its value, or of Vx when Fx15/Fx18 set it; both stay below 0xFF |
| CycleFacts.ExecuteTimers | src/Chip8.ts:550-561 | only Fx15 writes the delay timer and only Fx18 the sound timer |
| CycleFacts.ExecuteKeepsInput | src/Chip8.ts:113-232 | no handler writes the keypad or the opcode |
| CycleFacts.WaitForKey | src/Chip8.ts:526-543 | over a cycle with Fx0A: no key down means only the opcode and the timers change (net PC change 0); otherwise Vx = the lowest pressed key and PC + 2 |
| CycleFacts.KeySkipsIgnored | src/Chip8.ts:191-200 | a cycle on an 0xE opcode only advances PC and ticks the timers |
| CycleFacts.RandomOnlyForCxkk | src/Chip8.ts:607-610 | the oracle byte influences nothing but Cxkk |
| Bits.XorTwice | src/Chip8.ts:501 | XORing the same byte twice gives back the original |
| Bits.BitwiseBit | src/Chip8.ts:340-360 | bit j of the byte AND, OR and XOR is the AND, OR and XOR of the operands' bits j |
| Format.ToRadix | src/getMnemonic.ts:23 | `n.toString(base)` is a non-empty string of digits |
| Format.ToUpper | src/getMnemonic.ts:23 | `toUpperCase` keeps the length |
| Format.Decimal | src/getMnemonic.ts:38 | `n.toString(10)`; it has no contract of its own, and `DecimalField` states what it gives |
| Format.Hex | src/getMnemonic.ts:23 | `n.toString(16).toUpperCase().padStart(width, "0")`; it has no contract of its own, and `HexField`, `HexWidth` and `HexInjective` state what it gives |
| Format.ParseToRadix | src/getMnemonic.ts:23 | `n.toString(base)` read back in that base is n |
| Format.ToRadixInjective | src/getMnemonic.ts:38 | different numbers have different renderings in a base |
| Format.ParseToUpper | src/getMnemonic.ts:23 | `toUpperCase` on hex digits gives upper-case digits of the same value |
| Format.PadStart | src/getMnemonic.ts:23 | `padStart` gives the wider of the two lengths, ends with the input and is padded in front |
| Format.ParseLeadingZeros | src/getMnemonic.ts:23 | leading zeros do not change the value read |
| Format.DecimalField | src/getMnemonic.ts:38 | a decimal rendering is non-empty, all decimal digits, and reads back as n |
| Format.HexField | src/getMnemonic.ts:23 | the padded upper-case hex field is all upper-case hex digits and reads back as n |
| Format.HexWidth | src/getMnemonic.ts:23 | a number below 16^width fills exactly `width` digits (3 for nnn, 2 for kk) |
| Format.HexInjective | src/getMnemonic.ts:41 | different numbers give different padded hex fields |
| Utils.GetMnemonic | src/utils.ts:10-79 | computes the name; it has no contract of its own, and the lemmas below state what it gives |
| Utils.NamedExactly | src/utils.ts:10-79 | the name is non-empty exactly for 0nn0 and 0nnE (any middle nibbles), groups 1-7 and 9-D, 8xy0 and Fxy7 |
| Utils.LastNibbleNames | src/utils.ts:11-48 | group 0: "CLS" iff nibble0 = 0, "RET" iff nibble0 = E, else ""; group 8: "LD Vx, Vy" iff nibble0 = 0, else "" |
| Utils.KeySkipsUnnamed | src/utils.ts:65-71 | every 0xE opcode gets "": a nibble never equals 0x9e |
| Utils.DelayNamedByLastNibble | src/utils.ts:72-78 | group F reads "LD Vx, DT" iff nibble0 = 7, so 0xF017 is named so too |
| Utils.OperandsHidden | src/utils.ts:21-60 | outside group D the name depends only on the first and last nibble |
| Utils.FixedGroupNames | src/utils.ts:21-60 | in groups 1-7 and 9-C every opcode of the group gets the same non-empty name, whatever x, y, n, kk or nnn are |
| Utils.DrawNameDeterminesOpcode | src/utils.ts:61-64 | the DRW name shows x, y and n in decimal, so two Dxyn opcodes with the same name are equal |
| Mnemonic.GetMnemonic | src/getMnemonic.ts:11-80 | computes the numbered name; it has no contract of its own, and the lemmas below state what it gives |
| Mnemonic.NamedExactly | src/getMnemonic.ts:11-80 | the name is non-empty exactly for the opcodes utils.ts names, plus Ex9E |
| Mnemonic.NameShowsGroup | src/getMnemonic.ts:22-79 | outside group 0 a name begins with the group as an upper-case hex digit |
| Mnemonic.AddressShown | src/getMnemonic.ts:22-58 | JP, LD I and JP V0 show nnn as three upper-case hex digits at a fixed column that read back as nnn (JP V0 shows it twice) |
| Mnemonic.AddressNameDeterminesOpcode | src/getMnemonic.ts:22-58 | in groups 1, A and B equal names mean equal opcodes |
| Mnemonic.AddNameShowsByteOnly | src/getMnemonic.ts:40-42 | two 7xkk names are equal iff the kk bytes are |
| Mnemonic.ByteNameDeterminesOpcode | src/getMnemonic.ts:37-61 | in groups 6 and C equal names mean equal opcodes |
| Mnemonic.RegisterNameDeterminesOperands | src/getMnemonic.ts:43-52 | equal 8xy0 or 9xy_ names have equal x and y (for 8xy0, equal opcodes) |
| Mnemonic.DrawNameDeterminesOpcode | src/getMnemonic.ts:62-65 | equal Dxyn names mean equal opcodes |
| Mnemonic.SkipKeyNamed | src/getMnemonic.ts:66-72 | group E reads "E9e) SKP Vx" iff the low byte is 0x9E, otherwise "" |
| Mnemonic.DelayNamedByLastNibble | src/getMnemonic.ts:73-79 | group F reads "F07) LD Vx, DT" iff nibble0 = 7, so 0xF017 too |
| Mnemonic.AgreesWithUtils | src/getMnemonic.ts:12-36 | group 0 names equal those of utils.ts; groups 2-5 add "<group>) " in front; group D adds "D)" |

## Left out

- `console.log` calls in `copyFontset`, `reset`, `loadRom` and `cycle` are not modelled. They do not affect state; the mnemonic that `cycle` logs is modelled on its own, as `Utils.GetMnemonic`.
- `getRandomByte` is not modelled, because it draws on `Math.random`. Its byte is the parameter `rnd` of `Cycle`, `Execute` and `OpCxkk`.
- The `FONTSET` table from ./Fontset is not part of this model. It is the 80-byte constructor parameter `font`.
- src/main.ts (page, canvas, keyboard and ROM fetching) and scripts/buildRomListJsonFile.js (build script) are not part of this model.
- Typed-array reads and writes out of range are excluded by preconditions rather than modelled with JavaScript's `undefined` and dropped writes. These are:
  - a fetch with PC past memory;
  - RET with SP = 0, or CALL with SP = 16;
  - Dxyn, Fx33, Fx55 or Fx65 reaching past address 0xFFF from I.

  `CanCycle` and `CanExecute` state these conditions.
- `loadRom` has no size check: each byte goes to 0x200 + index of the 4096-byte `Uint8Array` (src/Chip8.ts:67-68), and the array ignores a write at an index past 0xFFF. The model does the same: those bytes are dropped and the rest are kept.
- The `switch` in `cycle` and the loop body of `OP_Dxyn` are split into helper methods (`Execute`, `Execute0`, `Execute8`, `ExecuteE`, `ExecuteF`, `DrawSprite`, `DrawSpriteRow`, `DrawSpritePixel`). They run the same statements in the same order.
- The masks and shifts that extract nibbles (`& 0x0f00) >> 8`, etc.) are written as `/` and `%` on the 16-bit opcode. `Machine.NibblesRebuildOpcode` ties the fields back together.
- `OpFx33`: the source divides with floating point, and the byte store truncates the result. For 0..255 that is integer division, which the model uses.
- Both `getMnemonic` functions are modelled for 16-bit opcodes only, the values `cycle` passes them.
- `toString(radix)` is modelled for radices 2 to 16, and `toUpperCase` only on the characters such a rendering contains.
- `Engine.Chip8.ExecuteE`: its two cases are unreachable, so `OP_Ex9E` and `OP_ExA1` are never called from `cycle`. The handlers themselves are modelled, and proved by `ControlFacts.SkipOnKey`.
