/** Value-level semantics of the CHIP-8 engine of src/Chip8.ts.

    A `State` holds every field of the engine object; each `Op...` function
    gives the state after the matching `OP_...` handler, `Fetch`, `Execute`
    and `Tick` are the three phases of `cycle`, and `InitialState` is what
    the constructor and `reset` produce.  The class in module `Engine` is
    proved to compute exactly these functions. */
module Machine {
  import opened Bits

  const VIDEO_W: nat := 64
  const VIDEO_H: nat := 32
  const MEMORY_SIZE: nat := 4096
  const KEYPAD_SIZE: nat := 16
  const STACK_SIZE: nat := 16
  const REGISTER_COUNT: nat := 16
  const START_ADDRESS: nat := 0x200
  const FONTSET_START_ADDRESS: nat := 0x50
  const FONTSET_SIZE: nat := 80
  const BYTES_PER_CHAR: nat := 5
  /** Pixels per sprite row, one per bit of a sprite byte. */
  const SPRITE_W: nat := 8
  /** Register VF, the carry, borrow and collision flag. */
  const FLAG: nat := 0xF

  datatype Option<T> = None | Some(value: T)

  /** Every field of a `Chip8` object. Typed arrays become sequences of
      their element type; `R_PC`, `R_SP` and `R_I` are plain numbers. */
  datatype State = State(
    memory: seq<Byte>,
    keypad: seq<Byte>,
    video: seq<Byte>,
    stack: seq<Word>,
    pc: int,
    sp: int,
    i: nat,
    reg: seq<Byte>,
    opcode: Word,
    audioTimer: Byte,
    delayTimer: Byte)

  /** The array sizes fixed by the constructor, and a stack pointer that
      indexes the 16-entry stack or sits just above it. */
  ghost predicate WellFormed(s: State)
  {
    && |s.memory| == MEMORY_SIZE
    && |s.keypad| == KEYPAD_SIZE
    && |s.video| == VIDEO_W * VIDEO_H
    && |s.stack| == STACK_SIZE
    && |s.reg| == REGISTER_COUNT
    && 0 <= s.sp <= STACK_SIZE
  }

  // ----- operand fields of a 16-bit opcode 0xABCD = [nibble3][nibble2][nibble1][nibble0]

  /** `(op & 0xf000) >> 12` */
  function Nibble3(op: Word): nat { op / 0x1000 }
  /** `(op & 0x0f00) >> 8`, the register operand Vx */
  function Vx(op: Word): nat { (op / 0x100) % 0x10 }
  /** `(op & 0x00f0) >> 4`, the register operand Vy */
  function Vy(op: Word): nat { (op / 0x10) % 0x10 }
  /** `op & 0x000f` */
  function Nibble0(op: Word): nat { op % 0x10 }
  /** `op & 0x00ff`, the byte operand kk */
  function LowByte(op: Word): Byte { op % 0x100 }
  /** `op & 0x0fff`, the address operand nnn */
  function Address(op: Word): nat { op % 0x1000 }

  /** The four nibbles put back together give the opcode. */
  lemma NibblesRebuildOpcode(op: Word)
    ensures op == 0x1000 * Nibble3(op) + 0x100 * Vx(op) + 0x10 * Vy(op) + Nibble0(op)
    ensures op == 0x1000 * Nibble3(op) + Address(op) && Address(op) == 0x100 * Vx(op) + LowByte(op)
    ensures Nibble3(op) < 0x10 && Vx(op) < 0x10 && Vy(op) < 0x10 && Nibble0(op) < 0x10
  {
    var high, low := op / 0x100, op % 0x100;
    assert op == 0x100 * high + low;
    assert high == 0x10 * Nibble3(op) + Vx(op);
    var tens := op / 0x10;
    assert op == 0x10 * tens + Nibble0(op);
    assert tens == 0x10 * high + low / 0x10;
    assert low == 0x10 * Vy(op) + Nibble0(op);
  }

  function Zeros(n: nat): seq<Byte>
  {
    seq(n, _ => 0)
  }

  /** `src` written element by element into `dst` from offset `base`;
      writes past the end of `dst` are dropped, as a typed array drops them. */
  function CopyInto<T>(dst: seq<T>, base: nat, src: seq<T>): (r: seq<T>)
    ensures |r| == |dst|
    ensures forall a | 0 <= a < |dst| && base <= a < base + |src| :: r[a] == src[a - base]
    ensures forall a | 0 <= a < |dst| && !(base <= a < base + |src|) :: r[a] == dst[a]
  {
    seq(|dst|, a requires 0 <= a < |dst| => if base <= a < base + |src| then src[a - base] else dst[a])
  }

  /** One more element copied: the step of a `forEach` copy loop. */
  lemma CopyIntoStep<T>(dst: seq<T>, base: nat, src: seq<T>, w: nat)
    requires w < |src|
    ensures CopyInto(dst, base, src[..w + 1])
         == if base + w < |dst| then CopyInto(dst, base, src[..w])[base + w := src[w]]
            else CopyInto(dst, base, src[..w])
  {
  }

  // ----- lifecycle

  /** The state built by the constructor and restored by `reset`: all zero,
      the font copied to 0x50, PC at 0x200. */
  function InitialState(font: seq<Byte>): (s: State)
    requires |font| == FONTSET_SIZE
    ensures WellFormed(s)
    ensures s.pc == START_ADDRESS && s.sp == 0 && s.i == 0 && s.opcode == 0
    ensures s.audioTimer == 0 && s.delayTimer == 0
    ensures forall r | 0 <= r < |s.reg| :: s.reg[r] == 0
    ensures forall k | 0 <= k < |s.keypad| :: s.keypad[k] == 0
    ensures forall p | 0 <= p < |s.video| :: s.video[p] == 0
    ensures forall e | 0 <= e < |s.stack| :: s.stack[e] == 0
    ensures forall a | 0 <= a < |s.memory| ::
              s.memory[a] == if FONTSET_START_ADDRESS <= a < FONTSET_START_ADDRESS + FONTSET_SIZE
                             then font[a - FONTSET_START_ADDRESS] else 0
  {
    State(
      memory := CopyInto(Zeros(MEMORY_SIZE), FONTSET_START_ADDRESS, font),
      keypad := Zeros(KEYPAD_SIZE),
      video := Zeros(VIDEO_W * VIDEO_H),
      stack := seq(STACK_SIZE, _ => 0),
      pc := START_ADDRESS,
      sp := 0,
      i := 0,
      reg := Zeros(REGISTER_COUNT),
      opcode := 0,
      audioTimer := 0,
      delayTimer := 0)
  }

  /** `loadRom`: the ROM bytes go to 0x200 onwards; bytes that would land
      past address 4095 are dropped. Nothing else changes. */
  function LoadRom(s: State, rom: seq<Byte>): (r: State)
    requires WellFormed(s)
    ensures WellFormed(r) && r == s.(memory := r.memory)
    ensures forall a | 0 <= a < MEMORY_SIZE ::
              r.memory[a] == if START_ADDRESS <= a < START_ADDRESS + |rom| then rom[a - START_ADDRESS] else s.memory[a]
  {
    s.(memory := CopyInto(s.memory, START_ADDRESS, rom))
  }

  // ----- the opcode handlers

  function Op00E0(s: State): (r: State)
    requires WellFormed(s)
    ensures WellFormed(r)
    ensures forall p | 0 <= p < |r.video| :: r.video[p] == 0
    ensures r == s.(video := r.video)
  {
    s.(video := Zeros(VIDEO_W * VIDEO_H))
  }

  function Op00EE(s: State): (r: State)
    requires WellFormed(s) && s.sp > 0
    ensures WellFormed(r) && r.sp == s.sp - 1
    ensures r == s.(sp := r.sp, pc := r.pc) && r.pc == s.stack[s.sp - 1]
  {
    var sp := s.sp - 1;
    s.(sp := sp, pc := s.stack[sp])
  }

  function Op1nnn(s: State): (r: State)
    requires WellFormed(s)
    ensures WellFormed(r) && 0 <= r.pc < 0x1000
    ensures r == s.(pc := r.pc)
  {
    s.(pc := Address(s.opcode))
  }

  /** The return address is stored into a `Uint16Array`, hence modulo 2^16. */
  function Op2nnn(s: State): (r: State)
    requires WellFormed(s) && s.sp < STACK_SIZE
    ensures WellFormed(r) && r.sp == s.sp + 1
    ensures 0 <= s.pc < 0x1_0000 ==> r.stack[s.sp] == s.pc
  {
    s.(stack := s.stack[s.sp := s.pc % 0x1_0000], sp := s.sp + 1, pc := Address(s.opcode))
  }

  function Op3xkk(s: State): (r: State)
    requires WellFormed(s)
    ensures WellFormed(r) && r.pc == if s.reg[Vx(s.opcode)] == LowByte(s.opcode) then s.pc + 2 else s.pc
  {
    if s.reg[Vx(s.opcode)] == LowByte(s.opcode) then s.(pc := s.pc + 2) else s
  }

  function Op4xkk(s: State): (r: State)
    requires WellFormed(s)
    ensures WellFormed(r)
    ensures r.pc == if s.reg[Vx(s.opcode)] != LowByte(s.opcode) then s.pc + 2 else s.pc
    ensures r == s.(pc := r.pc)
  {
    if s.reg[Vx(s.opcode)] != LowByte(s.opcode) then s.(pc := s.pc + 2) else s
  }

  function Op5xy0(s: State): (r: State)
    requires WellFormed(s)
    ensures WellFormed(r)
    ensures r == s.(pc := r.pc)
  {
    if s.reg[Vx(s.opcode)] == s.reg[Vy(s.opcode)] then s.(pc := s.pc + 2) else s
  }

  function Op6xkk(s: State): (r: State)
    requires WellFormed(s)
    ensures WellFormed(r)
    ensures r == s.(reg := r.reg)
  {
    s.(reg := s.reg[Vx(s.opcode) := LowByte(s.opcode)])
  }

  function Op7xkk(s: State): (r: State)
    requires WellFormed(s)
    ensures WellFormed(r)
    ensures r == s.(reg := r.reg)
  {
    var x := Vx(s.opcode);
    s.(reg := s.reg[x := (s.reg[x] + LowByte(s.opcode)) % 0x100])
  }

  function Op8xy0(s: State): (r: State)
    requires WellFormed(s)
    ensures WellFormed(r)
    ensures r == s.(reg := r.reg)
  {
    s.(reg := s.reg[Vx(s.opcode) := s.reg[Vy(s.opcode)]])
  }

  function Op8xy1(s: State): (r: State)
    requires WellFormed(s)
    ensures WellFormed(r)
    ensures r == s.(reg := r.reg)
  {
    var x, y := Vx(s.opcode), Vy(s.opcode);
    s.(reg := s.reg[x := Or(s.reg[x], s.reg[y])])
  }

  function Op8xy2(s: State): (r: State)
    requires WellFormed(s)
    ensures WellFormed(r)
    ensures r == s.(reg := r.reg)
  {
    var x, y := Vx(s.opcode), Vy(s.opcode);
    s.(reg := s.reg[x := And(s.reg[x], s.reg[y])])
  }

  function Op8xy3(s: State): (r: State)
    requires WellFormed(s)
    ensures WellFormed(r)
    ensures r == s.(reg := r.reg)
  {
    var x, y := Vx(s.opcode), Vy(s.opcode);
    s.(reg := s.reg[x := Xor(s.reg[x], s.reg[y])])
  }

  /** ADD with carry: the sum is taken before VF is written, and Vx is
      written last, so for x = F the carry is overwritten by the sum. */
  function Op8xy4(s: State): (r: State)
    requires WellFormed(s)
    ensures WellFormed(r)
    ensures r == s.(reg := r.reg)
  {
    var x, y := Vx(s.opcode), Vy(s.opcode);
    var sum := s.reg[x] as int + s.reg[y];
    var flagged := s.reg[FLAG := if sum > 255 then 1 else 0];
    s.(reg := flagged[x := sum % 0x100])
  }

  /** SUB: VF is written first, then Vx -= Vy reads both registers again
      (so an operand that is VF reads the new flag), wrapping modulo 256. */
  function Op8xy5(s: State): (r: State)
    requires WellFormed(s)
    ensures WellFormed(r)
    ensures r == s.(reg := r.reg)
  {
    var x, y := Vx(s.opcode), Vy(s.opcode);
    var flagged := s.reg[FLAG := if s.reg[x] > s.reg[y] then 1 else 0];
    s.(reg := flagged[x := Wrap8(flagged[x] - flagged[y])])
  }

  /** SHR: VF = Vx & 1 taken before the shift, then Vx >>= 1. */
  function Op8xy6(s: State): (r: State)
    requires WellFormed(s)
    ensures WellFormed(r)
    ensures r == s.(reg := r.reg)
  {
    var x := Vx(s.opcode);
    var flagged := s.reg[FLAG := And(s.reg[x], 1)];
    s.(reg := flagged[x := flagged[x] / 2])
  }

  /** SUBN: VF = 1 iff Vy >= Vx, then Vx = Vy - Vx wrapping modulo 256. */
  function Op8xy7(s: State): (r: State)
    requires WellFormed(s)
    ensures WellFormed(r)
    ensures r == s.(reg := r.reg)
  {
    var x, y := Vx(s.opcode), Vy(s.opcode);
    var flagged := s.reg[FLAG := if s.reg[y] >= s.reg[x] then 1 else 0];
    s.(reg := flagged[x := Wrap8(flagged[y] - flagged[x])])
  }

  /** SHL: VF = (Vx & 0x80) >> 7 taken before the shift, then Vx <<= 1
      wrapping modulo 256. */
  function Op8xyE(s: State): (r: State)
    requires WellFormed(s)
    ensures WellFormed(r)
    ensures r == s.(reg := r.reg)
  {
    var x := Vx(s.opcode);
    var flagged := s.reg[FLAG := And(s.reg[x], BitMask(7)) / 0x80];
    s.(reg := flagged[x := Wrap8(flagged[x] * 2)])
  }

  function Op9xy0(s: State): (r: State)
    requires WellFormed(s)
    ensures WellFormed(r)
    ensures r == s.(pc := r.pc)
  {
    if s.reg[Vx(s.opcode)] != s.reg[Vy(s.opcode)] then s.(pc := s.pc + 2) else s
  }

  function OpAnnn(s: State): (r: State)
    requires WellFormed(s)
    ensures WellFormed(r) && r.i < 0x1000
  {
    s.(i := Address(s.opcode))
  }

  /** JP V0, nnn: the target is not masked and may exceed 0xFFF. */
  function OpBnnn(s: State): (r: State)
    requires WellFormed(s)
    ensures WellFormed(r)
    ensures r == s.(pc := r.pc)
    ensures Address(s.opcode) <= r.pc <= Address(s.opcode) + 0xFF
  {
    s.(pc := s.reg[0] + Address(s.opcode))
  }

  /** RND: `rnd` stands for the byte drawn by `getRandomByte`. */
  function OpCxkk(s: State, rnd: Byte): (r: State)
    requires WellFormed(s)
    ensures WellFormed(r)
    ensures r == s.(reg := r.reg)
  {
    s.(reg := s.reg[Vx(s.opcode) := And(rnd, LowByte(s.opcode))])
  }

  // ----- sprite drawing

  /** Index into the video buffer of sprite pixel (row, col) drawn at
      (startX, startY), each coordinate wrapping around the screen. */
  function PixelIndex(startX: nat, startY: nat, row: nat, col: nat): (p: nat)
    ensures p < VIDEO_W * VIDEO_H
  {
    ((startY + row) % VIDEO_H) * VIDEO_W + (startX + col) % VIDEO_W
  }

  /** Bit `bitPos` of a sprite byte, counted from the most significant
      bit: the pixel in column `bitPos` of that sprite row is lit.  Lemma
      `SpriteBitIsMask` shows it is the test `spriteByte & (0b10000000 >> bitPos)`
      of the source. */
  predicate SpriteBit(spriteByte: Byte, bitPos: nat)
    requires bitPos < 8
  {
    BitAt(spriteByte, 7 - bitPos) == 1
  }

  lemma SpriteBitIsMask(spriteByte: Byte, bitPos: nat)
    requires bitPos < 8
    ensures SpriteBit(spriteByte, bitPos) <==> And(spriteByte, BitMask(7 - bitPos)) != 0
  {
    AndBit(spriteByte, 7 - bitPos);
  }

  datatype Drawn = Drawn(video: seq<Byte>, collision: bool)

  /** One iteration of the inner loop of `OP_Dxyn`: if bit `col` of the
      sprite byte is set, the pixel it lands on is XORed with 1, and the
      collision flag is raised if that pixel was 1. */
  function DrawPixel(d: Drawn, spriteByte: Byte, startX: nat, startY: nat, row: nat, col: nat): (r: Drawn)
    requires |d.video| == VIDEO_W * VIDEO_H && col < 8
    ensures |r.video| == |d.video|
    ensures d.collision ==> r.collision
  {
    if SpriteBit(spriteByte, col) then
      var p := PixelIndex(startX, startY, row, col);
      Drawn(d.video[p := Xor(d.video[p], 1)], d.collision || d.video[p] == 1)
    else d
  }

  /** The video buffer and collision flag after the first `b` bits of one
      sprite row, in the order of the inner loop of `OP_Dxyn`. */
  function DrawRow(d: Drawn, spriteByte: Byte, startX: nat, startY: nat, row: nat, b: nat): (r: Drawn)
    requires |d.video| == VIDEO_W * VIDEO_H && b <= 8
    ensures |r.video| == |d.video|
    ensures d.collision ==> r.collision
  {
    if b == 0 then d
    else DrawPixel(DrawRow(d, spriteByte, startX, startY, row, b - 1), spriteByte, startX, startY, row, b - 1)
  }

  /** The video buffer and collision flag after the first `rows` rows of
      the sprite, in the order of the outer loop of `OP_Dxyn`. */
  function DrawRows(video: seq<Byte>, sprite: seq<Byte>, startX: nat, startY: nat, rows: nat): (d: Drawn)
    requires |video| == VIDEO_W * VIDEO_H && rows <= |sprite|
    ensures |d.video| == |video|
  {
    if rows == 0 then Drawn(video, false)
    else DrawRow(DrawRows(video, sprite, startX, startY, rows - 1), sprite[rows - 1], startX, startY, rows - 1, SPRITE_W)
  }

  /** DRW Vx, Vy, n: VF is cleared first, the start coordinates are read
      afterwards (so Vx = VF or Vy = VF reads 0), the n sprite bytes come
      from memory[I..I+n], and VF ends as 1 iff some pixel collided. */
  function OpDxyn(s: State): (r: State)
    requires WellFormed(s) && s.i + Nibble0(s.opcode) <= MEMORY_SIZE
    ensures WellFormed(r)
    ensures r == s.(video := r.video, reg := r.reg) && r.reg[FLAG] <= 1
  {
    var x, y, n := Vx(s.opcode), Vy(s.opcode), Nibble0(s.opcode);
    var cleared := s.reg[FLAG := 0];
    var d := DrawRows(s.video, s.memory[s.i..s.i + n], cleared[x] % VIDEO_W, cleared[y] % VIDEO_H, n);
    s.(video := d.video, reg := cleared[FLAG := if d.collision then 1 else 0])
  }

  // ----- keypad

  /** `keypadMemory[key]` is truthy; a key index past the keypad reads
      `undefined`, which is falsy. */
  predicate KeyPressed(keypad: seq<Byte>, key: nat)
    ensures KeyPressed(keypad, key) ==> key < |keypad|
  {
    key < |keypad| && keypad[key] != 0
  }

  function OpEx9E(s: State): (r: State)
    requires WellFormed(s)
    ensures WellFormed(r)
    ensures r == s.(pc := r.pc)
  {
    if KeyPressed(s.keypad, s.reg[Vx(s.opcode)]) then s.(pc := s.pc + 2) else s
  }

  function OpExA1(s: State): (r: State)
    requires WellFormed(s)
    ensures WellFormed(r)
    ensures r == s.(pc := r.pc)
  {
    if !KeyPressed(s.keypad, s.reg[Vx(s.opcode)]) then s.(pc := s.pc + 2) else s
  }

  /** The scan of `OP_Fx0A`: the first pressed key at index `from` or above. */
  function FirstPressed(keypad: seq<Byte>, from: nat): (r: Option<nat>)
    requires |keypad| == KEYPAD_SIZE && from <= KEYPAD_SIZE
    ensures r.Some? ==> from <= r.value < KEYPAD_SIZE && keypad[r.value] != 0
    ensures r.Some? ==> forall j | from <= j < r.value :: keypad[j] == 0
    ensures r.None? <==> forall j | from <= j < KEYPAD_SIZE :: keypad[j] == 0
    decreases KEYPAD_SIZE - from
  {
    if from == KEYPAD_SIZE then None
    else if keypad[from] != 0 then Some(from)
    else FirstPressed(keypad, from + 1)
  }

  /** LD Vx, K: store the lowest pressed key, or step PC back by 2 so that
      the instruction runs again on the next cycle. */
  function OpFx0A(s: State): (r: State)
    requires WellFormed(s)
    ensures WellFormed(r)
    ensures r == s.(reg := r.reg, pc := r.pc)
  {
    match FirstPressed(s.keypad, 0)
    case Some(k) => s.(reg := s.reg[Vx(s.opcode) := k])
    case None => s.(pc := s.pc - 2)
  }

  // ----- timers, index register and memory transfers

  function OpFx07(s: State): (r: State)
    requires WellFormed(s)
    ensures WellFormed(r)
    ensures r == s.(reg := r.reg)
  {
    s.(reg := s.reg[Vx(s.opcode) := s.delayTimer])
  }

  function OpFx15(s: State): (r: State)
    requires WellFormed(s)
    ensures WellFormed(r)
    ensures r == s.(delayTimer := r.delayTimer)
  {
    s.(delayTimer := s.reg[Vx(s.opcode)])
  }

  function OpFx18(s: State): (r: State)
    requires WellFormed(s)
    ensures WellFormed(r)
    ensures r == s.(audioTimer := r.audioTimer)
  {
    s.(audioTimer := s.reg[Vx(s.opcode)])
  }

  /** ADD I, Vx: I is a plain number and is never masked. */
  function OpFx1E(s: State): (r: State)
    requires WellFormed(s)
    ensures WellFormed(r)
    ensures r == s.(i := r.i) && r.i >= s.i
  {
    s.(i := s.i + s.reg[Vx(s.opcode)])
  }

  /** LD F, Vx: I = 0x50 + 5 * Vx, unmasked even for Vx > 15. */
  function OpFx29(s: State): (r: State)
    requires WellFormed(s)
    ensures WellFormed(r)
    ensures r == s.(i := r.i) && r.i >= FONTSET_START_ADDRESS
  {
    s.(i := FONTSET_START_ADDRESS + BYTES_PER_CHAR * s.reg[Vx(s.opcode)])
  }

  /** LD B, Vx: the quotients are JavaScript floating-point divisions,
      truncated when stored into the byte array; for 0..255 that is
      integer division. */
  function OpFx33(s: State): (r: State)
    requires WellFormed(s) && s.i + 3 <= MEMORY_SIZE
    ensures WellFormed(r)
    ensures r == s.(memory := r.memory)
  {
    var value := s.reg[Vx(s.opcode)];
    s.(memory := s.memory[s.i := value / 100][s.i + 1 := (value / 10) % 10][s.i + 2 := value % 10])
  }

  /** LD [I], Vx: V0..Vx go to memory[I..I+x]. */
  function OpFx55(s: State): (r: State)
    requires WellFormed(s) && s.i + Vx(s.opcode) + 1 <= MEMORY_SIZE
    ensures WellFormed(r)
    ensures r == s.(memory := r.memory)
  {
    s.(memory := CopyInto(s.memory, s.i, s.reg[..Vx(s.opcode) + 1]))
  }

  /** LD Vx, [I]: memory[I..I+x] goes to V0..Vx. */
  function OpFx65(s: State): (r: State)
    requires WellFormed(s) && s.i + Vx(s.opcode) + 1 <= MEMORY_SIZE
    ensures WellFormed(r)
    ensures r == s.(reg := r.reg)
  {
    s.(reg := CopyInto(s.reg, 0, s.memory[s.i..s.i + Vx(s.opcode) + 1]))
  }

  // ----- one cycle

  /** PC and PC+1 address memory. */
  ghost predicate CanFetch(s: State)
  {
    WellFormed(s) && 0 <= s.pc && s.pc + 1 < MEMORY_SIZE
  }

  /** Fetch: the big-endian opcode at PC, and PC advanced by 2. */
  function Fetch(s: State): (r: State)
    requires CanFetch(s)
    ensures WellFormed(r)
    ensures r == s.(opcode := r.opcode, pc := r.pc) && r.pc == s.pc + 2
  {
    var high: int, low: int := s.memory[s.pc], s.memory[s.pc + 1];
    s.(opcode := high * 0x100 + low, pc := s.pc + 2)
  }

  /** What the handler `Execute` selects needs of the state: no stack
      underflow or overflow, and memory operands inside the 4096 bytes. */
  ghost predicate CanExecute(s: State)
    requires WellFormed(s)
  {
    var op := s.opcode;
    match Nibble3(op)
    case 0x0 => Nibble0(op) == 0xE ==> s.sp > 0
    case 0x2 => s.sp < STACK_SIZE
    case 0xD => s.i + Nibble0(op) <= MEMORY_SIZE
    case 0xF =>
      && (LowByte(op) == 0x33 ==> s.i + 3 <= MEMORY_SIZE)
      && (LowByte(op) == 0x55 || LowByte(op) == 0x65 ==> s.i + Vx(op) + 1 <= MEMORY_SIZE)
    case _ => true
  }

  /** Dispatch on the opcode's high nibble as `cycle` does; groups 0x0,
      0x8, 0xE and 0xF dispatch again on a second field. Unlisted
      combinations leave the state alone. */
  function Execute(s: State, rnd: Byte): (r: State)
    requires WellFormed(s) && CanExecute(s)
    ensures WellFormed(r)
    ensures r.keypad == s.keypad && r.opcode == s.opcode
  {
    match Nibble3(s.opcode)
    case 0x0 => Execute0(s)
    case 0x1 => Op1nnn(s)
    case 0x2 => Op2nnn(s)
    case 0x3 => Op3xkk(s)
    case 0x4 => Op4xkk(s)
    case 0x5 => Op5xy0(s)
    case 0x6 => Op6xkk(s)
    case 0x7 => Op7xkk(s)
    case 0x8 => Execute8(s)
    case 0x9 => Op9xy0(s)
    case 0xA => OpAnnn(s)
    case 0xB => OpBnnn(s)
    case 0xC => OpCxkk(s, rnd)
    case 0xD => OpDxyn(s)
    case 0xE => ExecuteE(s)
    case 0xF => ExecuteF(s)
    case _ => s
  }

  /** Group 0x0, selected by the low nibble: 00E0 and 00EE. */
  function Execute0(s: State): (r: State)
    requires WellFormed(s) && CanExecute(s) && Nibble3(s.opcode) == 0x0
    ensures WellFormed(r)
    ensures r.keypad == s.keypad && r.opcode == s.opcode
  {
    match Nibble0(s.opcode)
    case 0x0 => Op00E0(s)
    case 0xE => Op00EE(s)
    case _ => s
  }

  /** Group 0x8, selected by the low nibble. */
  function Execute8(s: State): (r: State)
    requires WellFormed(s) && Nibble3(s.opcode) == 0x8
    ensures WellFormed(r)
    ensures r.keypad == s.keypad && r.opcode == s.opcode
  {
    match Nibble0(s.opcode)
    case 0x0 => Op8xy0(s)
    case 0x1 => Op8xy1(s)
    case 0x2 => Op8xy2(s)
    case 0x3 => Op8xy3(s)
    case 0x4 => Op8xy4(s)
    case 0x5 => Op8xy5(s)
    case 0x6 => Op8xy6(s)
    case 0x7 => Op8xy7(s)
    case 0xE => Op8xyE(s)
    case _ => s
  }

  /** Group 0xE compares the low nibble, which is at most 15, with 0x9e
      and 0xa1, so neither `OpEx9E` nor `OpExA1` is ever selected: both
      cases are dead and every 0xE opcode leaves the state alone. */
  function ExecuteE(s: State): (r: State)
    requires WellFormed(s) && Nibble3(s.opcode) == 0xE
    ensures WellFormed(r)
    ensures r == s
  {
    match Nibble0(s.opcode)
    case 0x9e => assert false; s
    case 0xa1 => assert false; s
    case _ => s
  }

  /** Group 0xF, selected by the low byte. */
  function ExecuteF(s: State): (r: State)
    requires WellFormed(s) && CanExecute(s) && Nibble3(s.opcode) == 0xF
    ensures WellFormed(r)
    ensures r.keypad == s.keypad && r.opcode == s.opcode
  {
    match LowByte(s.opcode)
    case 0x07 => OpFx07(s)
    case 0x0a => OpFx0A(s)
    case 0x15 => OpFx15(s)
    case 0x18 => OpFx18(s)
    case 0x1e => OpFx1E(s)
    case 0x29 => OpFx29(s)
    case 0x33 => OpFx33(s)
    case 0x55 => OpFx55(s)
    case 0x65 => OpFx65(s)
    case _ => s
  }

  /** Each timer above zero counts down by one. */
  function Tick(s: State): (r: State)
    ensures r == s.(delayTimer := r.delayTimer, audioTimer := r.audioTimer)
    ensures r.delayTimer == if s.delayTimer > 0 then s.delayTimer - 1 else 0
    ensures r.audioTimer == if s.audioTimer > 0 then s.audioTimer - 1 else 0
  {
    s.(delayTimer := if s.delayTimer > 0 then s.delayTimer - 1 else 0,
       audioTimer := if s.audioTimer > 0 then s.audioTimer - 1 else 0)
  }

  ghost predicate CanCycle(s: State)
  {
    CanFetch(s) && CanExecute(Fetch(s))
  }

  /** `cycle`: fetch, execute, then count the timers down. `rnd` is the
      byte `getRandomByte` would return should the opcode be Cxkk. */
  function Cycle(s: State, rnd: Byte): (r: State)
    requires CanCycle(s)
    ensures WellFormed(r)
    ensures r.keypad == s.keypad
  {
    Tick(Execute(Fetch(s), rnd))
  }
}
