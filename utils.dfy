/** `getMnemonic` of src/utils.ts: the assembler name of an opcode, used by
    the debugger view. Only some instructions are named; every other
    opcode gives the empty string. */
module Utils {
  import opened Bits
  import opened Machine
  import opened Format

  function GetMnemonic(opcode: Word): (mnemonic: string)
  {
    var nibble3, nibble2, nibble1, nibble0 := Nibble3(opcode), Vx(opcode), Vy(opcode), Nibble0(opcode);
    match nibble3
    case 0x0 =>
      (match nibble0
       case 0x0 => "CLS"
       case 0xe => "RET"
       case _ => "")
    case 0x1 => "JP nnn"
    case 0x2 => "CALL nnn"
    case 0x3 => "SE Vx, byte"
    case 0x4 => "SNE Vx, byte"
    case 0x5 => "SE Vx, Vy"
    case 0x6 => "LD Vx, byte"
    case 0x7 => "ADD Vx, byte"
    case 0x8 =>
      (match nibble0
       case 0x0 => "LD Vx, Vy"
       case _ => "")
    case 0x9 => "SNE Vx, Vy"
    case 0xa => "LD I, address"
    case 0xb => "JP V0, nnn"
    case 0xc => "RND Vx, byte"
    case 0xd => DrawName(nibble2, nibble1, nibble0)
    case 0xe =>
      (match nibble0
       case 0x9e => "SKP Vx"
       case _ => "")
    case 0xf =>
      (match nibble0
       case 0x07 => "LD Vx, DT"
       case _ => "")
    case _ => ""
  }

  /** The one name that shows operands: Vx, Vy and the height in decimal. */
  function DrawName(x: nat, y: nat, n: nat): string
  {
    "DRW Vx=" + Decimal(x) + ", Vy=" + Decimal(y) + ", h=" + Decimal(n)
  }

  /** The opcodes this table names: 00E0 and 00EE, every opcode of groups
      1 to 7 and 9 to D, 8xy0, and the group F opcodes whose last nibble
      is 7. */
  ghost predicate Named(opcode: Word)
  {
    var group, last := Nibble3(opcode), Nibble0(opcode);
    || (group == 0x0 && (last == 0x0 || last == 0xE))
    || (0x1 <= group <= 0x7) || (0x9 <= group <= 0xD)
    || (group == 0x8 && last == 0x0)
    || (group == 0xF && last == 0x7)
  }

  /** A name is given exactly to the opcodes of `Named`. */
  lemma NamedExactly(opcode: Word)
    ensures GetMnemonic(opcode) != "" <==> Named(opcode)
  {
    NibblesRebuildOpcode(opcode);
  }

  /** In groups 0x0 and 0x8 the last nibble alone picks the name: CLS for
      00E0, RET for 00EE, LD Vx, Vy for 8xy0, and nothing otherwise. */
  lemma LastNibbleNames(opcode: Word)
    ensures Nibble3(opcode) == 0x0 ==>
              && (GetMnemonic(opcode) == "CLS" <==> Nibble0(opcode) == 0x0)
              && (GetMnemonic(opcode) == "RET" <==> Nibble0(opcode) == 0xE)
              && (GetMnemonic(opcode) == "" <==> Nibble0(opcode) != 0x0 && Nibble0(opcode) != 0xE)
    ensures Nibble3(opcode) == 0x8 ==>
              && (GetMnemonic(opcode) == "LD Vx, Vy" <==> Nibble0(opcode) == 0x0)
              && (GetMnemonic(opcode) == "" <==> Nibble0(opcode) != 0x0)
  {
  }

  /** Group 0xE compares its last nibble, at most 15, with 0x9e: SKP and
      SKNP are never named. */
  lemma KeySkipsUnnamed(opcode: Word)
    requires Nibble3(opcode) == 0xE
    ensures GetMnemonic(opcode) == ""
  {
  }

  /** Group 0xF is named by its last nibble alone, so Fx07 and every
      other Fxy7 (F017, FA27, ...) all read "LD Vx, DT". */
  lemma DelayNamedByLastNibble(opcode: Word)
    requires Nibble3(opcode) == 0xF
    ensures GetMnemonic(opcode) == "LD Vx, DT" <==> Nibble0(opcode) == 0x7
    ensures GetMnemonic(0xF017) == "LD Vx, DT" && LowByte(0xF017) != 0x07
  {
  }

  /** Only DRW shows its operands: two opcodes of another group that
      agree in their first and last nibble get the same name. */
  lemma OperandsHidden(op1: Word, op2: Word)
    requires Nibble3(op1) == Nibble3(op2) != 0xD && Nibble0(op1) == Nibble0(op2)
    ensures GetMnemonic(op1) == GetMnemonic(op2)
  {
  }

  /** Groups 1 to 7 and 9 to C have one fixed name each, whatever the
      operands: the name does not depend on x, y, kk or nnn. */
  lemma FixedGroupNames(op1: Word, op2: Word)
    requires Nibble3(op1) == Nibble3(op2)
    requires 0x1 <= Nibble3(op1) <= 0x7 || 0x9 <= Nibble3(op1) <= 0xC
    ensures GetMnemonic(op1) == GetMnemonic(op2) != ""
  {
  }

  /** The DRW name spells out Vx, Vy and the height in decimal, and it
      can be read back: two DRW opcodes with the same name are the same
      opcode. */
  lemma DrawNameDeterminesOpcode(op1: Word, op2: Word)
    requires Nibble3(op1) == 0xD && Nibble3(op2) == 0xD
    requires GetMnemonic(op1) == GetMnemonic(op2)
    ensures op1 == op2
  {
    DrawNameDetermines(Vx(op1), Vy(op1), Nibble0(op1), Vx(op2), Vy(op2), Nibble0(op2));
    NibblesRebuildOpcode(op1);
    NibblesRebuildOpcode(op2);
  }

  lemma DrawNameDetermines(x1: nat, y1: nat, n1: nat, x2: nat, y2: nat, n2: nat)
    requires DrawName(x1, y1, n1) == DrawName(x2, y2, n2)
    ensures x1 == x2 && y1 == y2 && n1 == n2
  {
    var p, vy, h := "DRW Vx=", ", Vy=", ", h=";
    var c1, c2 := Decimal(n1), Decimal(n2);
    var front1, front2 := p + Decimal(x1) + vy + Decimal(y1), p + Decimal(x2) + vy + Decimal(y2);
    assert DrawName(x1, y1, n1) == front1 + h + c1 == front1 + (h + c1);
    assert DrawName(x2, y2, n2) == front2 + h + c2 == front2 + (h + c2);
    DecimalPair(p, vy, x1, y1, h + c1, x2, y2, h + c2);
    StripPrefix(h, c1, c2);
    ToRadixInjective(n1, n2, 10);
  }
}
