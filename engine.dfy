/** The `Chip8` class of src/Chip8.ts: the engine object whose methods
    update its registers and its typed arrays in place.

    `Abs()` reads the whole object as a `Machine.State`; every method is
    proved to leave behind exactly the state that the function of the same
    name in module `Machine` computes from the state it started in. */
module Engine {
  import opened Bits
  import Machine

  class Chip8 {
    /** The 80-byte font table imported from ./Fontset. */
    const font: seq<Byte>
    const memory: array<Byte>
    const keypadMemory: array<Byte>
    const videoMemory: array<Byte>
    const stackMemory: array<Word>
    const reg: array<Byte>
    var pc: int
    var sp: int
    var i: nat
    var opcode: Word
    var audioTimer: Byte
    var delayTimer: Byte

    /** The array sizes of the constructor, five distinct arrays, and a
        stack pointer inside the stack or just above it. */
    ghost predicate Valid()
      reads this
    {
      && |font| == Machine.FONTSET_SIZE
      && memory.Length == Machine.MEMORY_SIZE
      && keypadMemory.Length == Machine.KEYPAD_SIZE
      && videoMemory.Length == Machine.VIDEO_W * Machine.VIDEO_H
      && stackMemory.Length == Machine.STACK_SIZE
      && reg.Length == Machine.REGISTER_COUNT
      && memory != keypadMemory && memory != videoMemory && memory != reg
      && keypadMemory != videoMemory && keypadMemory != reg && videoMemory != reg
      && 0 <= sp <= Machine.STACK_SIZE
    }

    ghost function Abs(): Machine.State
      reads this, memory, keypadMemory, videoMemory, stackMemory, reg
    {
      Machine.State(memory[..], keypadMemory[..], videoMemory[..], stackMemory[..],
                    pc, sp, i, reg[..], opcode, audioTimer, delayTimer)
    }

    constructor (font: seq<Byte>)
      requires |font| == Machine.FONTSET_SIZE
      ensures Valid() && Abs() == Machine.InitialState(font)
      ensures fresh(memory) && fresh(keypadMemory) && fresh(videoMemory) && fresh(stackMemory) && fresh(reg)
    {
      this.font := font;
      memory := new Byte[Machine.MEMORY_SIZE](_ => 0);
      keypadMemory := new Byte[Machine.KEYPAD_SIZE](_ => 0);
      videoMemory := new Byte[Machine.VIDEO_W * Machine.VIDEO_H](_ => 0);
      stackMemory := new Word[Machine.STACK_SIZE](_ => 0);
      reg := new Byte[Machine.REGISTER_COUNT](_ => 0);
      pc, sp, i, opcode, audioTimer, delayTimer := 0, 0, 0, 0, 0, 0;
      new;
      CopyFontset();
      pc := Machine.START_ADDRESS;
      assert memory[..] == Machine.CopyInto(Machine.Zeros(Machine.MEMORY_SIZE), Machine.FONTSET_START_ADDRESS, font);
      assert reg[..] == Machine.Zeros(Machine.REGISTER_COUNT);
    }

    /** Copies the font table into memory from address 0x50. */
    method CopyFontset()
      requires Valid()
      modifies memory
      ensures Valid()
      ensures memory[..] == Machine.CopyInto(old(memory[..]), Machine.FONTSET_START_ADDRESS, font)
    {
      var index := 0;
      while index < |font|
        invariant 0 <= index <= |font|
        invariant memory[..] == Machine.CopyInto(old(memory[..]), Machine.FONTSET_START_ADDRESS, font[..index])
      {
        Machine.CopyIntoStep(old(memory[..]), Machine.FONTSET_START_ADDRESS, font, index);
        memory[Machine.FONTSET_START_ADDRESS + index] := font[index];
        index := index + 1;
      }
      assert font[..index] == font;
    }

    method Reset()
      requires Valid()
      modifies this, memory, keypadMemory, videoMemory, stackMemory, reg
      ensures Valid() && Abs() == Machine.InitialState(font)
    {
      forall a | 0 <= a < memory.Length { memory[a] := 0; }
      forall a | 0 <= a < keypadMemory.Length { keypadMemory[a] := 0; }
      forall a | 0 <= a < videoMemory.Length { videoMemory[a] := 0; }
      forall a | 0 <= a < stackMemory.Length { stackMemory[a] := 0; }
      assert memory[..] == Machine.Zeros(Machine.MEMORY_SIZE);
      CopyFontset();
      opcode := 0;
      forall a | 0 <= a < reg.Length { reg[a] := 0; }
      audioTimer, delayTimer := 0, 0;
      pc := Machine.START_ADDRESS;
      i := 0;
      sp := 0;
      assert keypadMemory[..] == Machine.Zeros(Machine.KEYPAD_SIZE);
      assert videoMemory[..] == Machine.Zeros(Machine.VIDEO_W * Machine.VIDEO_H);
      assert reg[..] == Machine.Zeros(Machine.REGISTER_COUNT);
    }

    /** Copies the ROM to 0x200 onwards; a byte whose address is past the
        end of memory is dropped, as the typed array drops the write. */
    method LoadRom(romBytes: seq<Byte>)
      requires Valid()
      modifies memory
      ensures Valid() && Abs() == Machine.LoadRom(old(Abs()), romBytes)
    {
      var index := 0;
      while index < |romBytes|
        invariant 0 <= index <= |romBytes|
        invariant memory[..] == Machine.CopyInto(old(memory[..]), Machine.START_ADDRESS, romBytes[..index])
      {
        Machine.CopyIntoStep(old(memory[..]), Machine.START_ADDRESS, romBytes, index);
        if Machine.START_ADDRESS + index < memory.Length {
          memory[Machine.START_ADDRESS + index] := romBytes[index];
        }
        index := index + 1;
      }
      assert romBytes[..index] == romBytes;
    }

    /** One fetch-decode-execute step followed by the timer countdown.
        `rnd` is the byte that `getRandomByte` supplies to Cxkk. */
    method Cycle(rnd: Byte)
      requires Valid() && Machine.CanCycle(Abs())
      modifies this, memory, videoMemory, stackMemory, reg
      ensures Valid() && Abs() == Machine.Cycle(old(Abs()), rnd)
    {
      var highByte: int := memory[pc];
      var lowByte: int := memory[pc + 1];
      opcode := highByte * 0x100 + lowByte;
      pc := pc + 2;
      ghost var fetched := Abs();
      assert fetched == Machine.Fetch(old(Abs()));
      Execute(rnd);
      assert Abs() == Machine.Execute(fetched, rnd);
      if delayTimer > 0 {
        delayTimer := delayTimer - 1;
      }
      if audioTimer > 0 {
        audioTimer := audioTimer - 1;
      }
    }

    /** The `switch (nibble3)` of `cycle`. */
    method Execute(rnd: Byte)
      requires Valid() && Machine.CanExecute(Abs())
      modifies this, memory, videoMemory, stackMemory, reg
      ensures Valid() && Abs() == Machine.Execute(old(Abs()), rnd)
    {
      var nibble3 := Machine.Nibble3(opcode);
      match nibble3 {
        case 0x0 => Execute0();
        case 0x1 => Op1nnn();
        case 0x2 => Op2nnn();
        case 0x3 => Op3xkk();
        case 0x4 => Op4xkk();
        case 0x5 => Op5xy0();
        case 0x6 => Op6xkk();
        case 0x7 => Op7xkk();
        case 0x8 => Execute8();
        case 0x9 => Op9xy0();
        case 0xA => OpAnnn();
        case 0xB => OpBnnn();
        case 0xC => OpCxkk(rnd);
        case 0xD => OpDxyn();
        case 0xE => ExecuteE();
        case 0xF => ExecuteF();
        case _ =>
      }
    }

    /** `switch (nibble0)` inside `case 0x0`. */
    method Execute0()
      requires Valid() && Machine.CanExecute(Abs()) && Machine.Nibble3(opcode) == 0x0
      modifies this, stackMemory, videoMemory
      ensures Valid() && Abs() == Machine.Execute0(old(Abs()))
    {
      var nibble0 := Machine.Nibble0(opcode);
      match nibble0 {
        case 0x0 => Op00E0();
        case 0xE => Op00EE();
        case _ =>
      }
    }

    /** `switch (nibble0)` inside `case 8`. */
    method Execute8()
      requires Valid() && Machine.Nibble3(opcode) == 0x8
      modifies reg
      ensures Valid() && Abs() == Machine.Execute8(old(Abs()))
    {
      var nibble0 := Machine.Nibble0(opcode);
      match nibble0 {
        case 0x0 => Op8xy0();
        case 0x1 => Op8xy1();
        case 0x2 => Op8xy2();
        case 0x3 => Op8xy3();
        case 0x4 => Op8xy4();
        case 0x5 => Op8xy5();
        case 0x6 => Op8xy6();
        case 0x7 => Op8xy7();
        case 0xE => Op8xyE();
        case _ =>
      }
    }

    /** `switch (nibble0)` inside `case 0xe`: its cases 0x9e and 0xa1 are
        out of reach of a 4-bit value, so the handlers `OpEx9E` and
        `OpExA1` are never called from here. */
    method ExecuteE()
      requires Valid() && Machine.Nibble3(opcode) == 0xE
      ensures Abs() == Machine.ExecuteE(Abs())
    {
      var nibble0 := Machine.Nibble0(opcode);
      match nibble0 {
        case 0x9e => assert false;
        case 0xa1 => assert false;
        case _ =>
      }
    }

    /** `switch (lowByteFromOpcode)` inside `case 0xf`. */
    method ExecuteF()
      requires Valid() && Machine.CanExecute(Abs()) && Machine.Nibble3(opcode) == 0xF
      modifies this, memory, reg
      ensures Valid() && Abs() == Machine.ExecuteF(old(Abs()))
    {
      var lowByteFromOpcode := Machine.LowByte(opcode);
      match lowByteFromOpcode {
        case 0x07 => OpFx07();
        case 0x0a => OpFx0A();
        case 0x15 => OpFx15();
        case 0x18 => OpFx18();
        case 0x1e => OpFx1E();
        case 0x29 => OpFx29();
        case 0x33 => OpFx33();
        case 0x55 => OpFx55();
        case 0x65 => OpFx65();
        case _ =>
      }
    }

    // ----- opcode handlers; each reads its operands from `opcode`

    method Op00E0()
      requires Valid()
      modifies videoMemory
      ensures Valid() && Abs() == Machine.Op00E0(old(Abs()))
    {
      forall p | 0 <= p < videoMemory.Length { videoMemory[p] := 0; }
      assert videoMemory[..] == Machine.Zeros(Machine.VIDEO_W * Machine.VIDEO_H);
    }

    method Op00EE()
      requires Valid() && sp > 0
      modifies this
      ensures Valid() && Abs() == Machine.Op00EE(old(Abs()))
    {
      sp := sp - 1;
      pc := stackMemory[sp];
    }

    method Op1nnn()
      requires Valid()
      modifies this
      ensures Valid() && Abs() == Machine.Op1nnn(old(Abs()))
    {
      var address := Machine.Address(opcode);
      pc := address;
    }

    method Op2nnn()
      requires Valid() && sp < Machine.STACK_SIZE
      modifies this, stackMemory
      ensures Valid() && Abs() == Machine.Op2nnn(old(Abs()))
    {
      var address := Machine.Address(opcode);
      stackMemory[sp] := pc % 0x1_0000;
      sp := sp + 1;
      pc := address;
    }

    method Op3xkk()
      requires Valid()
      modifies this
      ensures Valid() && Abs() == Machine.Op3xkk(old(Abs()))
    {
      var vx := Machine.Vx(opcode);
      var byte := Machine.LowByte(opcode);
      if reg[vx] == byte {
        pc := pc + 2;
      }
    }

    method Op4xkk()
      requires Valid()
      modifies this
      ensures Valid() && Abs() == Machine.Op4xkk(old(Abs()))
    {
      var vx := Machine.Vx(opcode);
      var byte := Machine.LowByte(opcode);
      if reg[vx] != byte {
        pc := pc + 2;
      }
    }

    method Op5xy0()
      requires Valid()
      modifies this
      ensures Valid() && Abs() == Machine.Op5xy0(old(Abs()))
    {
      var vx, vy := Machine.Vx(opcode), Machine.Vy(opcode);
      if reg[vx] == reg[vy] {
        pc := pc + 2;
      }
    }

    method Op6xkk()
      requires Valid()
      modifies reg
      ensures Valid() && Abs() == Machine.Op6xkk(old(Abs()))
    {
      var vx := Machine.Vx(opcode);
      var byte := Machine.LowByte(opcode);
      reg[vx] := byte;
    }

    method Op7xkk()
      requires Valid()
      modifies reg
      ensures Valid() && Abs() == Machine.Op7xkk(old(Abs()))
    {
      var vx := Machine.Vx(opcode);
      var byte := Machine.LowByte(opcode);
      reg[vx] := (reg[vx] as int + byte) % 0x100;
    }

    method Op8xy0()
      requires Valid()
      modifies reg
      ensures Valid() && Abs() == Machine.Op8xy0(old(Abs()))
    {
      var vx, vy := Machine.Vx(opcode), Machine.Vy(opcode);
      reg[vx] := reg[vy];
    }

    method Op8xy1()
      requires Valid()
      modifies reg
      ensures Valid() && Abs() == Machine.Op8xy1(old(Abs()))
    {
      var vx, vy := Machine.Vx(opcode), Machine.Vy(opcode);
      reg[vx] := Or(reg[vx], reg[vy]);
    }

    method Op8xy2()
      requires Valid()
      modifies reg
      ensures Valid() && Abs() == Machine.Op8xy2(old(Abs()))
    {
      var vx, vy := Machine.Vx(opcode), Machine.Vy(opcode);
      reg[vx] := And(reg[vx], reg[vy]);
    }

    method Op8xy3()
      requires Valid()
      modifies reg
      ensures Valid() && Abs() == Machine.Op8xy3(old(Abs()))
    {
      var vx, vy := Machine.Vx(opcode), Machine.Vy(opcode);
      reg[vx] := Xor(reg[vx], reg[vy]);
    }

    method Op8xy4()
      requires Valid()
      modifies reg
      ensures Valid() && Abs() == Machine.Op8xy4(old(Abs()))
    {
      var vx, vy := Machine.Vx(opcode), Machine.Vy(opcode);
      var sum := reg[vx] as int + reg[vy];
      if sum > 255 {
        reg[Machine.FLAG] := 1;
      } else {
        reg[Machine.FLAG] := 0;
      }
      reg[vx] := sum % 0x100;
    }

    method Op8xy5()
      requires Valid()
      modifies reg
      ensures Valid() && Abs() == Machine.Op8xy5(old(Abs()))
    {
      var vx, vy := Machine.Vx(opcode), Machine.Vy(opcode);
      if reg[vx] > reg[vy] {
        reg[Machine.FLAG] := 1;
      } else {
        reg[Machine.FLAG] := 0;
      }
      reg[vx] := Wrap8(reg[vx] as int - reg[vy]);
    }

    method Op8xy6()
      requires Valid()
      modifies reg
      ensures Valid() && Abs() == Machine.Op8xy6(old(Abs()))
    {
      var vx := Machine.Vx(opcode);
      reg[Machine.FLAG] := And(reg[vx], 1);
      reg[vx] := reg[vx] / 2;
    }

    method Op8xy7()
      requires Valid()
      modifies reg
      ensures Valid() && Abs() == Machine.Op8xy7(old(Abs()))
    {
      var vx, vy := Machine.Vx(opcode), Machine.Vy(opcode);
      if reg[vy] >= reg[vx] {
        reg[Machine.FLAG] := 1;
      } else {
        reg[Machine.FLAG] := 0;
      }
      reg[vx] := Wrap8(reg[vy] as int - reg[vx]);
    }

    method Op8xyE()
      requires Valid()
      modifies reg
      ensures Valid() && Abs() == Machine.Op8xyE(old(Abs()))
    {
      var vx := Machine.Vx(opcode);
      var bit7 := And(reg[vx], BitMask(7)) / 0x80;
      reg[Machine.FLAG] := bit7;
      reg[vx] := Wrap8(reg[vx] as int * 2);
    }

    method Op9xy0()
      requires Valid()
      modifies this
      ensures Valid() && Abs() == Machine.Op9xy0(old(Abs()))
    {
      var vx, vy := Machine.Vx(opcode), Machine.Vy(opcode);
      if reg[vx] != reg[vy] {
        pc := pc + 2;
      }
    }

    method OpAnnn()
      requires Valid()
      modifies this
      ensures Valid() && Abs() == Machine.OpAnnn(old(Abs()))
    {
      var address := Machine.Address(opcode);
      i := address;
    }

    method OpBnnn()
      requires Valid()
      modifies this
      ensures Valid() && Abs() == Machine.OpBnnn(old(Abs()))
    {
      var address := Machine.Address(opcode);
      pc := reg[0] + address;
    }

    method OpCxkk(rnd: Byte)
      requires Valid()
      modifies reg
      ensures Valid() && Abs() == Machine.OpCxkk(old(Abs()), rnd)
    {
      var vx := Machine.Vx(opcode);
      var byte := Machine.LowByte(opcode);
      reg[vx] := And(rnd, byte);
    }

    method OpDxyn()
      requires Valid() && i + Machine.Nibble0(opcode) <= Machine.MEMORY_SIZE
      modifies reg, videoMemory
      ensures Valid() && Abs() == Machine.OpDxyn(old(Abs()))
    {
      ghost var s0 := Abs();
      var vx, vy := Machine.Vx(opcode), Machine.Vy(opcode);
      var numRows := Machine.Nibble0(opcode);
      reg[Machine.FLAG] := 0;
      ghost var cleared := reg[..];
      var startX := reg[vx] % Machine.VIDEO_W;
      var startY := reg[vy] % Machine.VIDEO_H;
      ghost var sprite := memory[i..i + numRows];
      DrawSprite(startX, startY, numRows, sprite, s0.video, cleared);
      ghost var d := Machine.DrawRows(s0.video, sprite, startX, startY, numRows);
      assert Machine.OpDxyn(s0).video == d.video;
      assert Machine.OpDxyn(s0).reg == cleared[Machine.FLAG := if d.collision then 1 else 0];
    }

    /** The outer loop of `OP_Dxyn`: the `numRows` bytes at I, one row
        each, top row first. */
    method DrawSprite(startX: nat, startY: nat, numRows: nat,
                      ghost sprite: seq<Byte>, ghost video0: seq<Byte>, ghost cleared: seq<Byte>)
      requires Valid() && i + numRows <= memory.Length && sprite == memory[i..i + numRows]
      requires video0 == videoMemory[..] && reg[..] == cleared && cleared[Machine.FLAG] == 0
      modifies reg, videoMemory
      ensures Valid() && Shows(Machine.DrawRows(video0, sprite, startX, startY, numRows), cleared)
    {
      ghost var drawn := Machine.Drawn(video0, false);
      assert cleared[Machine.FLAG := 0] == cleared;
      var spriteRow := 0;
      while spriteRow < numRows
        invariant 0 <= spriteRow <= numRows
        invariant drawn == Machine.DrawRows(video0, sprite, startX, startY, spriteRow)
        invariant Valid() && Shows(drawn, cleared)
      {
        var spriteByte := memory[i + spriteRow];
        assert spriteByte == sprite[spriteRow];
        DrawSpriteRow(spriteByte, startX, startY, spriteRow, drawn, cleared);
        drawn := Machine.DrawRow(drawn, spriteByte, startX, startY, spriteRow, Machine.SPRITE_W);
        spriteRow := spriteRow + 1;
      }
    }

    /** The video buffer shows `d.video` and VF is `d.collision`, every
        other register holding its value in `cleared`. */
    ghost predicate Shows(d: Machine.Drawn, cleared: seq<Byte>)
      reads this, videoMemory, reg
    {
      && |cleared| == Machine.REGISTER_COUNT
      && videoMemory[..] == d.video
      && reg[..] == cleared[Machine.FLAG := if d.collision then 1 else 0]
    }

    /** The inner loop of `OP_Dxyn`: the eight pixels of sprite row
        `spriteRow`, leftmost (bit 7) first, each XORed onto the screen,
        raising VF when the pixel was lit. */
    method DrawSpriteRow(spriteByte: Byte, startX: nat, startY: nat, spriteRow: nat,
                         ghost rowStart: Machine.Drawn, ghost cleared: seq<Byte>)
      requires Valid() && |cleared| == reg.Length && Shows(rowStart, cleared)
      modifies reg, videoMemory
      ensures Valid() && Shows(Machine.DrawRow(rowStart, spriteByte, startX, startY, spriteRow, Machine.SPRITE_W), cleared)
    {
      ghost var drawn := rowStart;
      var bitPos := 0;
      while bitPos < 8
        invariant 0 <= bitPos <= 8
        invariant drawn == Machine.DrawRow(rowStart, spriteByte, startX, startY, spriteRow, bitPos)
        invariant Shows(drawn, cleared)
      {
        DrawSpritePixel(spriteByte, startX, startY, spriteRow, bitPos, drawn, cleared);
        drawn := Machine.DrawPixel(drawn, spriteByte, startX, startY, spriteRow, bitPos);
        bitPos := bitPos + 1;
      }
    }

    /** The body of the inner loop of `OP_Dxyn`: XOR one sprite pixel onto
        the screen and raise VF if it was lit. */
    method DrawSpritePixel(spriteByte: Byte, startX: nat, startY: nat, spriteRow: nat, bitPos: nat,
                           ghost drawn: Machine.Drawn, ghost cleared: seq<Byte>)
      requires Valid() && bitPos < 8 && |cleared| == reg.Length && Shows(drawn, cleared)
      modifies reg, videoMemory
      ensures Valid() && Shows(Machine.DrawPixel(drawn, spriteByte, startX, startY, spriteRow, bitPos), cleared)
    {
      // spriteByte & (0b10000000 >> bitPos)
      var spritePixel := And(spriteByte, BitMask(7 - bitPos));
      Machine.SpriteBitIsMask(spriteByte, bitPos);
      // ((startY + spriteRow) % VIDEO_H) * VIDEO_W + (startX + bitPos) % VIDEO_W
      var videoMemoryIndex := Machine.PixelIndex(startX, startY, spriteRow, bitPos);
      if spritePixel != 0 {
        if videoMemory[videoMemoryIndex] == 1 {
          reg[Machine.FLAG] := 1;
        }
        videoMemory[videoMemoryIndex] := Xor(videoMemory[videoMemoryIndex], 1);
      }
    }

    method OpEx9E()
      requires Valid()
      modifies this
      ensures Valid() && Abs() == Machine.OpEx9E(old(Abs()))
    {
      var vx := Machine.Vx(opcode);
      var key := reg[vx];
      if key < keypadMemory.Length && keypadMemory[key] != 0 {
        pc := pc + 2;
      }
    }

    method OpExA1()
      requires Valid()
      modifies this
      ensures Valid() && Abs() == Machine.OpExA1(old(Abs()))
    {
      var vx := Machine.Vx(opcode);
      var key := reg[vx];
      if !(key < keypadMemory.Length && keypadMemory[key] != 0) {
        pc := pc + 2;
      }
    }

    method OpFx0A()
      requires Valid()
      modifies this, reg
      ensures Valid() && Abs() == Machine.OpFx0A(old(Abs()))
    {
      var vx := Machine.Vx(opcode);
      var keyFound := false;
      var k := 0;
      while k < Machine.KEYPAD_SIZE
        invariant 0 <= k <= Machine.KEYPAD_SIZE
        invariant !keyFound && reg[..] == old(reg[..])
        invariant Machine.FirstPressed(keypadMemory[..], k) == Machine.FirstPressed(keypadMemory[..], 0)
      {
        if keypadMemory[k] != 0 {
          reg[vx] := k;
          keyFound := true;
          break;
        }
        k := k + 1;
      }
      if !keyFound {
        pc := pc - 2;
      }
    }

    method OpFx07()
      requires Valid()
      modifies reg
      ensures Valid() && Abs() == Machine.OpFx07(old(Abs()))
    {
      var vx := Machine.Vx(opcode);
      reg[vx] := delayTimer;
    }

    method OpFx15()
      requires Valid()
      modifies this
      ensures Valid() && Abs() == Machine.OpFx15(old(Abs()))
    {
      var vx := Machine.Vx(opcode);
      delayTimer := reg[vx];
    }

    method OpFx18()
      requires Valid()
      modifies this
      ensures Valid() && Abs() == Machine.OpFx18(old(Abs()))
    {
      var vx := Machine.Vx(opcode);
      audioTimer := reg[vx];
    }

    method OpFx1E()
      requires Valid()
      modifies this
      ensures Valid() && Abs() == Machine.OpFx1E(old(Abs()))
    {
      var vx := Machine.Vx(opcode);
      i := i + reg[vx];
    }

    method OpFx29()
      requires Valid()
      modifies this
      ensures Valid() && Abs() == Machine.OpFx29(old(Abs()))
    {
      var vx := Machine.Vx(opcode);
      var digit := reg[vx];
      i := Machine.FONTSET_START_ADDRESS + Machine.BYTES_PER_CHAR * digit;
    }

    method OpFx33()
      requires Valid() && i + 3 <= Machine.MEMORY_SIZE
      modifies memory
      ensures Valid() && Abs() == Machine.OpFx33(old(Abs()))
    {
      var vx := Machine.Vx(opcode);
      var value := reg[vx];
      memory[i + 0] := value / 100;
      memory[i + 1] := (value / 10) % 10;
      memory[i + 2] := value % 10;
    }

    method OpFx55()
      requires Valid() && i + Machine.Vx(opcode) + 1 <= Machine.MEMORY_SIZE
      modifies memory
      ensures Valid() && Abs() == Machine.OpFx55(old(Abs()))
    {
      var vx := Machine.Vx(opcode);
      var w := 0;
      while w <= vx
        invariant 0 <= w <= vx + 1
        invariant memory[..] == Machine.CopyInto(old(memory[..]), i, reg[..w])
      {
        Machine.CopyIntoStep(old(memory[..]), i, reg[..vx + 1], w);
        assert reg[..vx + 1][..w] == reg[..w] && reg[..vx + 1][..w + 1] == reg[..w + 1];
        memory[i + w] := reg[w];
        w := w + 1;
      }
    }

    method OpFx65()
      requires Valid() && i + Machine.Vx(opcode) + 1 <= Machine.MEMORY_SIZE
      modifies reg
      ensures Valid() && Abs() == Machine.OpFx65(old(Abs()))
    {
      var vx := Machine.Vx(opcode);
      ghost var source := memory[i..i + vx + 1];
      var w := 0;
      while w <= vx
        invariant 0 <= w <= vx + 1
        invariant reg[..] == Machine.CopyInto(old(reg[..]), 0, source[..w])
      {
        Machine.CopyIntoStep(old(reg[..]), 0, source, w);
        reg[w] := memory[i + w];
        w := w + 1;
      }
      assert source[..w] == source;
    }
  }
}
