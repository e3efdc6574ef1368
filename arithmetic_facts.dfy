/** What the register handlers of src/Chip8.ts compute, stated as
    arithmetic on the operand values rather than as updates of the
    register file. `a` is the old Vx, `b` the old Vy, `kk` the byte operand. */
module ArithmeticFacts {
  import opened Bits
  import opened Machine

  /** Every register other than `x` keeps its value, and only the register
      file changed. */
  ghost predicate OnlyRegisterChanged(s: State, r: State, x: nat)
    requires WellFormed(s) && WellFormed(r)
  {
    && r == s.(reg := r.reg)
    && forall j | 0 <= j < REGISTER_COUNT && j != x :: r.reg[j] == s.reg[j]
  }

  /** Every register other than `x` and VF keeps its value, and only the
      register file changed. */
  ghost predicate OnlyRegisterAndFlagChanged(s: State, r: State, x: nat)
    requires WellFormed(s) && WellFormed(r)
  {
    && r == s.(reg := r.reg)
    && forall j | 0 <= j < REGISTER_COUNT && j != x && j != FLAG :: r.reg[j] == s.reg[j]
  }

  /** LD Vx, byte. */
  lemma LoadImmediate(s: State)
    requires WellFormed(s)
    ensures Op6xkk(s).reg[Vx(s.opcode)] == LowByte(s.opcode)
    ensures OnlyRegisterChanged(s, Op6xkk(s), Vx(s.opcode))
  {
  }

  /** ADD Vx, byte wraps modulo 256 and leaves VF alone: no carry flag. */
  lemma AddImmediate(s: State)
    requires WellFormed(s)
    ensures var a: int, kk: int := s.reg[Vx(s.opcode)], LowByte(s.opcode);
            Op7xkk(s).reg[Vx(s.opcode)] == (a + kk) % 0x100
    ensures OnlyRegisterChanged(s, Op7xkk(s), Vx(s.opcode))
  {
  }

  /** LD Vx, Vy. VF is not touched unless it is the destination. */
  lemma Copy(s: State)
    requires WellFormed(s)
    ensures Op8xy0(s).reg[Vx(s.opcode)] == s.reg[Vy(s.opcode)]
    ensures OnlyRegisterChanged(s, Op8xy0(s), Vx(s.opcode))
  {
  }

  /** OR, AND and XOR act bit by bit on Vx and Vy, and leave VF alone
      unless it is the destination. */
  lemma Bitwise(s: State, j: nat)
    requires WellFormed(s) && j < 8
    ensures var x, y := Vx(s.opcode), Vy(s.opcode);
            var a, b := BitAt(s.reg[x], j) == 1, BitAt(s.reg[y], j) == 1;
            && (BitAt(Op8xy1(s).reg[x], j) == 1 <==> a || b)
            && (BitAt(Op8xy2(s).reg[x], j) == 1 <==> a && b)
            && (BitAt(Op8xy3(s).reg[x], j) == 1 <==> a != b)
    ensures OnlyRegisterChanged(s, Op8xy1(s), Vx(s.opcode))
    ensures OnlyRegisterChanged(s, Op8xy2(s), Vx(s.opcode))
    ensures OnlyRegisterChanged(s, Op8xy3(s), Vx(s.opcode))
  {
    BitwiseBit(s.reg[Vx(s.opcode)], s.reg[Vy(s.opcode)], j);
  }

  /** ADD Vx, Vy with x != F: Vx is the low byte of the sum, VF the carry,
      and together they hold the exact sum. */
  lemma AddWithCarry(s: State)
    requires WellFormed(s) && Vx(s.opcode) != FLAG
    ensures var x, y := Vx(s.opcode), Vy(s.opcode);
            var a: int, b: int, r := s.reg[x], s.reg[y], Op8xy4(s);
            && r.reg[x] == (a + b) % 0x100
            && r.reg[FLAG] == (if a + b > 0xFF then 1 else 0)
            && r.reg[x] + 0x100 * (r.reg[FLAG] as int) == a + b
    ensures OnlyRegisterAndFlagChanged(s, Op8xy4(s), Vx(s.opcode))
  {
  }

  /** ADD VF, Vy: the sum is written after the carry, so the carry is lost. */
  lemma AddIntoFlag(s: State)
    requires WellFormed(s) && Vx(s.opcode) == FLAG
    ensures Op8xy4(s).reg[FLAG] == (s.reg[FLAG] as int + s.reg[Vy(s.opcode)]) % 0x100
    ensures OnlyRegisterChanged(s, Op8xy4(s), FLAG)
  {
  }

  /** SUB Vx, Vy with neither operand VF: VF is 1 exactly when Vx > Vy, and
      Vx is the difference modulo 256. When the operands differ, VF is the
      "no borrow" bit: a borrow adds 256. Equal operands give 0 with VF = 0. */
  lemma Subtract(s: State)
    requires WellFormed(s) && Vx(s.opcode) != FLAG && Vy(s.opcode) != FLAG
    ensures var x, y := Vx(s.opcode), Vy(s.opcode);
            var a: int, b: int, r := s.reg[x], s.reg[y], Op8xy5(s);
            && (r.reg[FLAG] == 1 <==> a > b)
            && (r.reg[FLAG] == 0 <==> a <= b)
            && r.reg[x] == (a - b) % 0x100
            && (a != b ==> r.reg[x] == a - b + 0x100 * (1 - r.reg[FLAG] as int))
    ensures OnlyRegisterAndFlagChanged(s, Op8xy5(s), Vx(s.opcode))
  {
  }

  /** SUB Vx, VF: the subtraction reads VF after it was overwritten with
      the comparison of Vx against the old VF. */
  lemma SubtractFlagOperand(s: State)
    requires WellFormed(s) && Vx(s.opcode) != FLAG && Vy(s.opcode) == FLAG
    ensures var x := Vx(s.opcode);
            var flag: int := if s.reg[x] > s.reg[FLAG] then 1 else 0;
            && Op8xy5(s).reg[FLAG] == flag
            && Op8xy5(s).reg[x] == (s.reg[x] - flag) % 0x100
    ensures OnlyRegisterAndFlagChanged(s, Op8xy5(s), Vx(s.opcode))
  {
  }

  /** SUB VF, Vy: the difference is written after the comparison, so VF
      ends up as the comparison bit minus Vy, modulo 256; SUB VF, VF gives 0. */
  lemma SubtractIntoFlag(s: State)
    requires WellFormed(s) && Vx(s.opcode) == FLAG
    ensures var y := Vy(s.opcode);
            var flag: int := if s.reg[FLAG] > s.reg[y] then 1 else 0;
            && (y != FLAG ==> Op8xy5(s).reg[FLAG] == (flag - s.reg[y]) % 0x100)
            && (y == FLAG ==> Op8xy5(s).reg[FLAG] == 0)
    ensures OnlyRegisterChanged(s, Op8xy5(s), FLAG)
  {
  }

  /** SUBN Vx, Vy with neither operand VF: VF is 1 exactly when Vy >= Vx,
      and Vx is Vy - Vx modulo 256, 256 added on a borrow. */
  lemma SubtractReversed(s: State)
    requires WellFormed(s) && Vx(s.opcode) != FLAG && Vy(s.opcode) != FLAG
    ensures var x, y := Vx(s.opcode), Vy(s.opcode);
            var a: int, b: int, r := s.reg[x], s.reg[y], Op8xy7(s);
            && (r.reg[FLAG] == 1 <==> b >= a)
            && (r.reg[FLAG] == 0 <==> b < a)
            && r.reg[x] == (b - a) % 0x100
            && r.reg[x] == b - a + 0x100 * (1 - r.reg[FLAG] as int)
    ensures OnlyRegisterAndFlagChanged(s, Op8xy7(s), Vx(s.opcode))
  {
  }

  /** SUBN Vx, VF: the subtraction reads VF after it was overwritten with
      the comparison of the old VF against Vx. */
  lemma SubtractReversedFlagOperand(s: State)
    requires WellFormed(s) && Vx(s.opcode) != FLAG && Vy(s.opcode) == FLAG
    ensures var x := Vx(s.opcode);
            var flag: int := if s.reg[FLAG] >= s.reg[x] then 1 else 0;
            && Op8xy7(s).reg[FLAG] == flag
            && Op8xy7(s).reg[x] == (flag - s.reg[x]) % 0x100
    ensures OnlyRegisterAndFlagChanged(s, Op8xy7(s), Vx(s.opcode))
  {
  }

  /** SUBN VF, Vy: VF ends up as Vy minus the comparison bit, modulo 256;
      SUBN VF, VF gives 0. */
  lemma SubtractReversedIntoFlag(s: State)
    requires WellFormed(s) && Vx(s.opcode) == FLAG
    ensures var y := Vy(s.opcode);
            var flag: int := if s.reg[y] >= s.reg[FLAG] then 1 else 0;
            && (y != FLAG ==> Op8xy7(s).reg[FLAG] == (s.reg[y] - flag) % 0x100)
            && (y == FLAG ==> Op8xy7(s).reg[FLAG] == 0)
    ensures OnlyRegisterChanged(s, Op8xy7(s), FLAG)
  {
  }

  /** SHR Vx with x != F: VF receives the bit shifted out, taken before the
      shift, and the two together give back the old Vx. */
  lemma ShiftRight(s: State)
    requires WellFormed(s) && Vx(s.opcode) != FLAG
    ensures var x := Vx(s.opcode);
            var a: int, r := s.reg[x], Op8xy6(s);
            && r.reg[FLAG] == a % 2
            && r.reg[x] == a / 2
            && 2 * r.reg[x] + r.reg[FLAG] == a
    ensures OnlyRegisterAndFlagChanged(s, Op8xy6(s), Vx(s.opcode))
  {
    AndOne(s.reg[Vx(s.opcode)]);
  }

  /** SHL Vx with x != F: VF receives bit 7, taken before the shift, Vx is
      doubled modulo 256, and the two together give twice the old Vx. */
  lemma ShiftLeft(s: State)
    requires WellFormed(s) && Vx(s.opcode) != FLAG
    ensures var x := Vx(s.opcode);
            var a: int, r := s.reg[x], Op8xyE(s);
            && r.reg[FLAG] == a / 0x80
            && r.reg[x] == (2 * a) % 0x100
            && r.reg[x] + 0x100 * (r.reg[FLAG] as int) == 2 * a
    ensures OnlyRegisterAndFlagChanged(s, Op8xyE(s), Vx(s.opcode))
  {
    var a := s.reg[Vx(s.opcode)];
    AndHighBit(a);
    DoubleSplits(a);
  }

  /** Doubling a byte splits into bit 7, carried out, and the low byte. */
  lemma DoubleSplits(a: Byte)
    ensures Wrap8(a * 2) == (2 * a) % 0x100
    ensures (2 * a) % 0x100 + 0x100 * (a / 0x80) == 2 * a
  {
    assert a == 0x80 * (a / 0x80) + a % 0x80;
    assert 2 * a == 0x100 * (a / 0x80) + 2 * (a % 0x80);
  }

  /** SHR VF: the shifted-out bit is written first and then shifted itself,
      so VF always ends up 0. */
  lemma ShiftRightIntoFlag(s: State)
    requires WellFormed(s) && Vx(s.opcode) == FLAG
    ensures Op8xy6(s).reg[FLAG] == 0
    ensures OnlyRegisterChanged(s, Op8xy6(s), FLAG)
  {
    AndOne(s.reg[FLAG]);
  }

  /** SHL VF: bit 7 of VF is written first and then doubled, so VF ends up
      2 when bit 7 was set and 0 otherwise. */
  lemma ShiftLeftIntoFlag(s: State)
    requires WellFormed(s) && Vx(s.opcode) == FLAG
    ensures Op8xyE(s).reg[FLAG] == 2 * (s.reg[FLAG] / 0x80)
    ensures Op8xyE(s).reg[FLAG] == 2 <==> s.reg[FLAG] >= 0x80
    ensures OnlyRegisterChanged(s, Op8xyE(s), FLAG)
  {
    AndHighBit(s.reg[FLAG]);
    DoubleSplits(s.reg[FLAG]);
  }

  /** LD Vx, DT copies the delay timer into Vx; VF is not touched unless
      it is the destination. */
  lemma LoadDelay(s: State)
    requires WellFormed(s)
    ensures OpFx07(s).reg[Vx(s.opcode)] == s.delayTimer
    ensures OnlyRegisterChanged(s, OpFx07(s), Vx(s.opcode))
  {
  }

  /** RND Vx, byte: whatever byte the generator returns, Vx only has bits
      that are set in kk, so it never exceeds kk. */
  lemma RandomMasked(s: State, rnd: Byte, j: nat)
    requires WellFormed(s) && j < 8
    ensures var x, kk := Vx(s.opcode), LowByte(s.opcode);
            && OpCxkk(s, rnd).reg[x] <= kk
            && (BitAt(OpCxkk(s, rnd).reg[x], j) == 1 <==> BitAt(rnd, j) == 1 && BitAt(kk, j) == 1)
    ensures OnlyRegisterChanged(s, OpCxkk(s, rnd), Vx(s.opcode))
  {
    AndAtMost(rnd, LowByte(s.opcode));
    BitwiseBit(rnd, LowByte(s.opcode), j);
  }
}
