/** Memory traffic of src/Chip8.ts: the state after construction, ROM
    loading, the BCD split of Fx33, and the register block transfers of
    Fx55 and Fx65, which undo each other. */
module MemoryFacts {
  import opened Bits
  import opened Machine

  /** A ROM longer than the 3584 bytes between 0x200 and the end of memory
      is cut short: only its first 3584 bytes are kept, and they fill the
      rest of memory. */
  lemma LoadRomTruncates(s: State, rom: seq<Byte>)
    requires WellFormed(s) && |rom| >= MEMORY_SIZE - START_ADDRESS
    ensures LoadRom(s, rom).memory[START_ADDRESS..] == rom[..MEMORY_SIZE - START_ADDRESS]
    ensures LoadRom(s, rom).memory[..START_ADDRESS] == s.memory[..START_ADDRESS]
  {
    var r := LoadRom(s, rom);
    assert forall a | 0 <= a < MEMORY_SIZE - START_ADDRESS ::
      r.memory[START_ADDRESS..][a] == r.memory[START_ADDRESS + a];
  }

  /** Loading a ROM after `reset` keeps the font at 0x50 in place. */
  lemma LoadRomKeepsFont(font: seq<Byte>, rom: seq<Byte>)
    requires |font| == FONTSET_SIZE
    ensures var m := LoadRom(InitialState(font), rom).memory;
            m[FONTSET_START_ADDRESS..FONTSET_START_ADDRESS + FONTSET_SIZE] == font
  {
    var m := LoadRom(InitialState(font), rom).memory;
    var glyphs := m[FONTSET_START_ADDRESS..FONTSET_START_ADDRESS + FONTSET_SIZE];
    assert forall j | 0 <= j < FONTSET_SIZE :: glyphs[j] == m[FONTSET_START_ADDRESS + j];
  }

  /** LD B, Vx: the three bytes at I are the hundreds, tens and units
      digits of Vx, each below 10, reassembling Vx; no other byte of memory
      and no other part of the state changes. */
  lemma BinaryCodedDecimal(s: State)
    requires WellFormed(s) && s.i + 3 <= MEMORY_SIZE
    ensures var v, m := s.reg[Vx(s.opcode)], OpFx33(s).memory;
            && m[s.i] < 10 && m[s.i + 1] < 10 && m[s.i + 2] < 10
            && 100 * m[s.i] + 10 * m[s.i + 1] + m[s.i + 2] == v
    ensures forall a | 0 <= a < MEMORY_SIZE && !(s.i <= a < s.i + 3) :: OpFx33(s).memory[a] == s.memory[a]
    ensures OpFx33(s) == s.(memory := OpFx33(s).memory)
  {
    var v: int := s.reg[Vx(s.opcode)];
    var h, t, u := v / 100, (v / 10) % 10, v % 10;
    assert v / 10 == 10 * h + t;
    assert v == 10 * (v / 10) + u;
  }

  /** LD [I], Vx: V0..Vx are stored at I..I+x and nothing else changes. */
  lemma StoreRegisters(s: State)
    requires WellFormed(s) && s.i + Vx(s.opcode) + 1 <= MEMORY_SIZE
    ensures forall w | 0 <= w <= Vx(s.opcode) :: OpFx55(s).memory[s.i + w] == s.reg[w]
    ensures forall a | 0 <= a < MEMORY_SIZE && !(s.i <= a <= s.i + Vx(s.opcode)) :: OpFx55(s).memory[a] == s.memory[a]
    ensures OpFx55(s) == s.(memory := OpFx55(s).memory)
  {
  }

  /** LD Vx, [I]: V0..Vx are loaded from I..I+x and nothing else changes. */
  lemma LoadRegisters(s: State)
    requires WellFormed(s) && s.i + Vx(s.opcode) + 1 <= MEMORY_SIZE
    ensures forall w | 0 <= w <= Vx(s.opcode) :: OpFx65(s).reg[w] == s.memory[s.i + w]
    ensures forall w | Vx(s.opcode) < w < REGISTER_COUNT :: OpFx65(s).reg[w] == s.reg[w]
    ensures OpFx65(s) == s.(reg := OpFx65(s).reg)
  {
  }

  /** A store followed by a load of the same block changes nothing more
      than the store did: the registers come back unchanged. */
  lemma StoreThenLoad(s: State)
    requires WellFormed(s) && s.i + Vx(s.opcode) + 1 <= MEMORY_SIZE
    ensures OpFx65(OpFx55(s)) == OpFx55(s)
  {
    var stored := OpFx55(s);
    var loaded := OpFx65(stored);
    assert loaded.reg == s.reg;
  }

  /** A load followed by a store of the same block leaves memory as it was. */
  lemma LoadThenStore(s: State)
    requires WellFormed(s) && s.i + Vx(s.opcode) + 1 <= MEMORY_SIZE
    ensures OpFx55(OpFx65(s)) == OpFx65(s)
  {
    var loaded := OpFx65(s);
    var stored := OpFx55(loaded);
    assert stored.memory == s.memory;
  }

  /** LD F, Vx: for a hexadecimal digit, I points at the digit's five-byte
      glyph inside the font area. */
  lemma FontGlyph(s: State)
    requires WellFormed(s)
    ensures OpFx29(s) == s.(i := FONTSET_START_ADDRESS + BYTES_PER_CHAR * s.reg[Vx(s.opcode)])
    ensures var i := OpFx29(s).i;
            s.reg[Vx(s.opcode)] < 0x10 ==>
              FONTSET_START_ADDRESS <= i && i + BYTES_PER_CHAR <= FONTSET_START_ADDRESS + FONTSET_SIZE
  {
  }

  /** LD I, nnn sets I to the 12-bit operand and changes nothing else. */
  lemma LoadIndex(s: State)
    requires WellFormed(s)
    ensures OpAnnn(s) == s.(i := Address(s.opcode))
    ensures OpAnnn(s).i == s.opcode % 0x1000
  {
  }

  /** ADD I, Vx never wraps I. */
  lemma AddToIndex(s: State)
    requires WellFormed(s)
    ensures OpFx1E(s) == s.(i := s.i + s.reg[Vx(s.opcode)])
    ensures OpFx1E(s).i >= s.i
  {
  }
}
