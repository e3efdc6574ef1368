/** One call of `cycle` in src/Chip8.ts, seen from outside: how the opcode
    is fetched, which instructions move PC by two, how the timers count
    down, how Fx0A waits for a key, that group 0xE is ignored by the
    dispatch, and that the random byte matters to Cxkk alone. */
module CycleFacts {
  import opened Bits
  import opened Machine

  /** The opcode is the big-endian word at PC and PC+1: its high byte is
      the byte at PC and its low byte the byte after it. Fetch changes
      nothing else but PC, which moves past the two bytes. */
  lemma FetchBigEndian(s: State)
    requires CanFetch(s)
    ensures Fetch(s).opcode / 0x100 == s.memory[s.pc]
    ensures Fetch(s).opcode % 0x100 == s.memory[s.pc + 1]
    ensures Fetch(s) == s.(opcode := Fetch(s).opcode, pc := s.pc + 2)
  {
  }

  /** The register handlers, the index and memory handlers and 00E0 leave
      PC where the fetch put it, two past the instruction. */
  ghost predicate Sequential(op: Word)
  {
    || (Nibble3(op) == 0x0 && Nibble0(op) != 0xE)
    || Nibble3(op) == 0x6 || Nibble3(op) == 0x7 || Nibble3(op) == 0x8
    || Nibble3(op) == 0xA || Nibble3(op) == 0xC || Nibble3(op) == 0xD
    || Nibble3(op) == 0xE
    || (Nibble3(op) == 0xF && LowByte(op) != 0x0A)
  }

  lemma SequentialAdvance(s: State, rnd: Byte)
    requires CanCycle(s) && Sequential(Fetch(s).opcode)
    ensures Cycle(s, rnd).pc == s.pc + 2
  {
    var f := Fetch(s);
    match Nibble3(f.opcode)
    case 0x0 =>
    case 0x8 =>
    case 0xF =>
    case _ =>
  }

  /** The delay timer after a cycle: Fx15 first loads it from Vx, then it
      counts down by one unless it is already zero. */
  ghost function DelayAfter(s: State): (t: int)
    requires CanFetch(s)
  {
    var op := Fetch(s).opcode;
    var loaded := if Nibble3(op) == 0xF && LowByte(op) == 0x15 then s.reg[Vx(op)] else s.delayTimer;
    if loaded > 0 then loaded - 1 else 0
  }

  /** The sound timer after a cycle: Fx18 first loads it from Vx, then it
      counts down by one unless it is already zero. */
  ghost function AudioAfter(s: State): (t: int)
    requires CanFetch(s)
  {
    var op := Fetch(s).opcode;
    var loaded := if Nibble3(op) == 0xF && LowByte(op) == 0x18 then s.reg[Vx(op)] else s.audioTimer;
    if loaded > 0 then loaded - 1 else 0
  }

  /** No instruction but Fx15 and Fx18 touches a timer, and every cycle
      counts both down, stopping at zero. */
  lemma Timers(s: State, rnd: Byte)
    requires CanCycle(s)
    ensures Cycle(s, rnd).delayTimer == DelayAfter(s)
    ensures Cycle(s, rnd).audioTimer == AudioAfter(s)
    ensures 0 <= Cycle(s, rnd).delayTimer <= 0xFE && 0 <= Cycle(s, rnd).audioTimer <= 0xFE
  {
    var f := Fetch(s);
    var e := Execute(f, rnd);
    assert e.delayTimer == (if Nibble3(f.opcode) == 0xF && LowByte(f.opcode) == 0x15 then s.reg[Vx(f.opcode)] else s.delayTimer) by {
      ExecuteTimers(f, rnd);
    }
    assert e.audioTimer == (if Nibble3(f.opcode) == 0xF && LowByte(f.opcode) == 0x18 then s.reg[Vx(f.opcode)] else s.audioTimer) by {
      ExecuteTimers(f, rnd);
    }
  }

  /** Which instructions write the timers, one dispatch group at a time. */
  lemma ExecuteTimers(s: State, rnd: Byte)
    requires WellFormed(s) && CanExecute(s)
    ensures Execute(s, rnd).delayTimer
         == if Nibble3(s.opcode) == 0xF && LowByte(s.opcode) == 0x15 then s.reg[Vx(s.opcode)] else s.delayTimer
    ensures Execute(s, rnd).audioTimer
         == if Nibble3(s.opcode) == 0xF && LowByte(s.opcode) == 0x18 then s.reg[Vx(s.opcode)] else s.audioTimer
  {
    match Nibble3(s.opcode)
    case 0x0 =>
    case 0x8 =>
    case 0xF =>
    case _ =>
  }

  /** No instruction changes the keypad or the opcode register. */
  lemma ExecuteKeepsInput(s: State, rnd: Byte)
    requires WellFormed(s) && CanExecute(s)
    ensures Execute(s, rnd).keypad == s.keypad
    ensures Execute(s, rnd).opcode == s.opcode
  {
    match Nibble3(s.opcode)
    case 0x0 =>
    case 0x8 =>
    case 0xF =>
    case _ =>
  }

  /** LD Vx, K over a whole cycle. With no key down the cycle only loads
      the opcode and ticks the timers, so PC stays on the instruction and
      it runs again; otherwise Vx receives the lowest pressed key and PC
      moves on. */
  lemma WaitForKey(s: State, rnd: Byte)
    requires CanCycle(s)
    requires Nibble3(Fetch(s).opcode) == 0xF && LowByte(Fetch(s).opcode) == 0x0A
    ensures var f, r := Fetch(s), Cycle(s, rnd);
            (forall k | 0 <= k < KEYPAD_SIZE :: s.keypad[k] == 0) ==> r == Tick(s.(opcode := f.opcode))
    ensures var f, r := Fetch(s), Cycle(s, rnd);
            forall k | 0 <= k < KEYPAD_SIZE && s.keypad[k] != 0 && (forall j | 0 <= j < k :: s.keypad[j] == 0) ::
              && r.reg == s.reg[Vx(f.opcode) := k]
              && r.pc == s.pc + 2
  {
  }

  /** The dispatch of group 0xE never reaches SKP or SKNP: an 0xE opcode
      only advances PC and ticks the timers. */
  lemma KeySkipsIgnored(s: State, rnd: Byte)
    requires CanCycle(s) && Nibble3(Fetch(s).opcode) == 0xE
    ensures Cycle(s, rnd) == Tick(Fetch(s))
  {
  }

  /** The random byte is drawn for Cxkk alone: every other instruction
      gives the same next state whatever the generator would return. */
  lemma RandomOnlyForCxkk(s: State, rnd1: Byte, rnd2: Byte)
    requires CanCycle(s) && Nibble3(Fetch(s).opcode) != 0xC
    ensures Cycle(s, rnd1) == Cycle(s, rnd2)
  {
    var f := Fetch(s);
    match Nibble3(f.opcode)
    case 0x0 =>
    case 0x8 =>
    case 0xF =>
    case _ =>
  }
}
