/** Control flow of the handlers of src/Chip8.ts: the conditional skips
    come in complementary pairs, jumps land where their operand says, and
    a CALL is undone by a RET. */
module ControlFacts {
  import opened Bits
  import opened Machine

  /** The handler either skips the next instruction (PC + 2) or does
      nothing; in no case does it touch anything but PC. */
  ghost predicate SkipsOrNot(s: State, r: State, skip: bool)
  {
    r == s.(pc := if skip then s.pc + 2 else s.pc)
  }

  /** SE Vx, byte and SNE Vx, byte: exactly one of the two skips. */
  lemma SkipOnByte(s: State)
    requires WellFormed(s)
    ensures var equal := s.reg[Vx(s.opcode)] == LowByte(s.opcode);
            SkipsOrNot(s, Op3xkk(s), equal) && SkipsOrNot(s, Op4xkk(s), !equal)
    ensures Op3xkk(s).pc + Op4xkk(s).pc == 2 * s.pc + 2
  {
  }

  /** SE Vx, Vy and SNE Vx, Vy: exactly one of the two skips. */
  lemma SkipOnRegister(s: State)
    requires WellFormed(s)
    ensures var equal := s.reg[Vx(s.opcode)] == s.reg[Vy(s.opcode)];
            SkipsOrNot(s, Op5xy0(s), equal) && SkipsOrNot(s, Op9xy0(s), !equal)
    ensures Op5xy0(s).pc + Op9xy0(s).pc == 2 * s.pc + 2
  {
  }

  /** SKP Vx and SKNP Vx: exactly one of the two skips. The key index is
      the value of Vx; an index past the sixteen keys counts as released. */
  lemma SkipOnKey(s: State)
    requires WellFormed(s)
    ensures var key := s.reg[Vx(s.opcode)];
            var down := key < KEYPAD_SIZE && s.keypad[key] != 0;
            SkipsOrNot(s, OpEx9E(s), down) && SkipsOrNot(s, OpExA1(s), !down)
    ensures OpEx9E(s).pc + OpExA1(s).pc == 2 * s.pc + 2
  {
  }

  /** JP nnn lands on the 12-bit operand, inside the 4 KiB address space. */
  lemma Jump(s: State)
    requires WellFormed(s)
    ensures Op1nnn(s) == s.(pc := s.opcode % 0x1000)
    ensures 0 <= Op1nnn(s).pc < MEMORY_SIZE
  {
  }

  /** JP V0, nnn sets PC to V0 + nnn and changes nothing else. The sum is
      not masked, so the target can lie past the last address; with
      V0 = 0xFF and nnn = 0xFFF it is 0x10FE. */
  lemma JumpOffset(s: State)
    requires WellFormed(s)
    ensures OpBnnn(s) == s.(pc := s.reg[0] + Address(s.opcode))
    ensures Op1nnn(s).pc <= OpBnnn(s).pc <= Op1nnn(s).pc + 0xFF
    ensures s.reg[0] == 0xFF && Address(s.opcode) == 0xFFF ==> OpBnnn(s).pc == 0x10FE
  {
  }

  /** CALL then RET: the stack pointer is back where it was, PC is the
      address that followed the CALL, and the return address stays in the
      stack slot that was pushed. Registers, memory, I and the screen are
      untouched by the pair. */
  lemma CallThenReturn(s: State)
    requires WellFormed(s) && s.sp < STACK_SIZE && 0 <= s.pc < 0x1_0000
    ensures var called := Op2nnn(s);
            && called.pc == Address(s.opcode)
            && called.stack[s.sp] == s.pc
            && Op00EE(called) == s.(stack := called.stack)
    ensures forall e | 0 <= e < STACK_SIZE && e != s.sp :: Op2nnn(s).stack[e] == s.stack[e]
  {
  }

  /** The return address is stored in a 16-bit slot: a CALL made with PC
      at or past 0x10000 returns to PC modulo 0x10000. */
  lemma ReturnAddressWraps(s: State)
    requires WellFormed(s) && s.sp < STACK_SIZE && s.pc >= 0
    ensures Op00EE(Op2nnn(s)).pc == s.pc % 0x1_0000
  {
  }
}
