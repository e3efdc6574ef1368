/** `getMnemonic` of src/getMnemonic.ts: the numbered variant of the
    opcode names, which also prints the address and byte operands in
    upper-case hexadecimal and the register operands in decimal. */
module Mnemonic {
  import opened Bits
  import opened Machine
  import opened Format
  import Utils

  function GetMnemonic(opcode: Word): (mnemonic: string)
  {
    var nibble3, nibble2, nibble1, nibble0 := Nibble3(opcode), Vx(opcode), Vy(opcode), Nibble0(opcode);
    var lowByte := LowByte(opcode);
    match nibble3
    case 0x0 =>
      (match nibble0
       case 0x0 => "CLS"
       case 0xe => "RET"
       case _ => "")
    case 0x1 => JumpName(Address(opcode))
    case 0x2 => "2) CALL nnn"
    case 0x3 => "3) SE Vx, byte"
    case 0x4 => "4) SNE Vx, byte"
    case 0x5 => "5) SE Vx, Vy"
    case 0x6 => LoadByteName(nibble2, lowByte)
    case 0x7 => AddByteName(lowByte)
    case 0x8 =>
      (match nibble0
       case 0x0 => CopyName(nibble2, nibble1)
       case _ => "")
    case 0x9 => SkipNotEqualName(nibble2, nibble1)
    case 0xa => LoadIndexName(Address(opcode))
    case 0xb => JumpOffsetName(Address(opcode))
    case 0xc => RandomName(nibble2, lowByte)
    case 0xd => DrawName(nibble2, nibble1, nibble0)
    case 0xe =>
      (match lowByte
       case 0x9E => "E9e) SKP Vx"
       case _ => "")
    case 0xf =>
      (match nibble0
       case 0x07 => "F07) LD Vx, DT"
       case _ => "")
    case _ => ""
  }

  // The names that show operands, one per instruction.

  function JumpName(nnn: nat): string
  {
    "1) JP nnn (0x" + Hex(nnn, 3) + ")"
  }

  function LoadByteName(x: nat, kk: nat): string
  {
    "6) LD Vx, byte (Vx=" + Decimal(x) + ", byte=" + Hex(kk, 2) + ")"
  }

  function AddByteName(kk: nat): string
  {
    "7) ADD Vx, byte (0x" + Hex(kk, 2) + ")"
  }

  function CopyName(x: nat, y: nat): string
  {
    "80) LD Vx, Vy (Vx=" + Decimal(x) + ", Vy=" + Decimal(y) + ")"
  }

  function SkipNotEqualName(x: nat, y: nat): string
  {
    "9)SNE Vx, Vy (Vx=" + Decimal(x) + ", Vy=" + Decimal(y) + ")"
  }

  function LoadIndexName(nnn: nat): string
  {
    "A) LD I, address (I=" + Hex(nnn, 3) + ")"
  }

  function JumpOffsetName(nnn: nat): string
  {
    "B) JP V0, nnn (PC=" + Hex(nnn, 3) + (" = 0x" + Hex(nnn, 3) + ")")
  }

  function RandomName(x: nat, kk: nat): string
  {
    "C) RND Vx, byte (Vx=" + Decimal(x) + ", byte=" + (Hex(kk, 2) + (" = 0x" + Hex(kk, 2) + ")"))
  }

  function DrawName(x: nat, y: nat, n: nat): string
  {
    "D)DRW Vx=" + Decimal(x) + ", Vy=" + Decimal(y) + ", h=" + Decimal(n)
  }

  /** The opcodes this table names: those of the table in src/utils.ts,
      plus Ex9E, which is selected here by the whole low byte. */
  ghost predicate Named(opcode: Word)
  {
    Utils.Named(opcode) || (Nibble3(opcode) == 0xE && LowByte(opcode) == 0x9E)
  }

  /** A name is given exactly to the opcodes of `Named`. */
  lemma NamedExactly(opcode: Word)
    ensures GetMnemonic(opcode) != "" <==> Named(opcode)
  {
    NibblesRebuildOpcode(opcode);
  }

  /** Every name but CLS and RET starts with the opcode's group as an
      upper-case hexadecimal digit, so the group can be read off the name. */
  lemma NameShowsGroup(opcode: Word)
    requires GetMnemonic(opcode) != "" && Nibble3(opcode) != 0x0
    ensures IsUpperHexDigit(GetMnemonic(opcode)[0])
    ensures DigitValue(GetMnemonic(opcode)[0]) == Nibble3(opcode)
  {
    var m := GetMnemonic(opcode);
    NibblesRebuildOpcode(opcode);
    match Nibble3(opcode)
    case 0x1 => assert m[0] == '1';
    case 0x6 => assert m[0] == '6';
    case 0x7 => assert m[0] == '7';
    case 0x8 => assert m[0] == '8';
    case 0x9 => assert m[0] == '9';
    case 0xA => assert m[0] == 'A';
    case 0xB => assert m[0] == 'B';
    case 0xC => assert m[0] == 'C';
    case 0xD => assert m[0] == 'D';
    case _ =>
  }

  /** From column `k` on, `m` shows `nnn` as three upper-case hexadecimal
      digits. */
  ghost predicate ShowsAddress(m: string, k: nat, nnn: nat)
  {
    && k + 3 <= |m|
    && var field := m[k..k + 3];
    && (forall j | 0 <= j < 3 :: IsUpperHexDigit(field[j]))
    && AllHexDigits(field)
    && ParseRadix(field, 16) == nnn
  }

  /** A three-digit field after a fixed text reads back as its number. */
  lemma AddressField(p: string, nnn: nat, rest: string)
    requires nnn < 0x1000
    ensures ShowsAddress(p + Hex(nnn, 3) + rest, |p|, nnn)
  {
    var h := Hex(nnn, 3);
    HexWidth(nnn, 3);
    HexField(nnn, 3);
    var m := p + h + rest;
    assert m[|p|..|p| + 3] == h;
  }

  /** Where the three address digits start in the names of groups 1, A and B. */
  function AddressColumn(group: nat): nat
  {
    if group == 0x1 then 13 else if group == 0xA then 20 else 18
  }

  /** JP nnn, LD I, addr and JP V0, addr show nnn as three upper-case
      hexadecimal digits that read back as nnn; JP V0, addr shows it twice. */
  lemma AddressShown(opcode: Word)
    requires Nibble3(opcode) == 0x1 || Nibble3(opcode) == 0xA || Nibble3(opcode) == 0xB
    ensures ShowsAddress(GetMnemonic(opcode), AddressColumn(Nibble3(opcode)), Address(opcode))
    ensures Nibble3(opcode) == 0xB ==> ShowsAddress(GetMnemonic(opcode), 26, Address(opcode))
  {
    var nnn := Address(opcode);
    if Nibble3(opcode) == 0x1 {
      assert GetMnemonic(opcode) == JumpName(nnn);
      JumpShown(nnn);
    } else if Nibble3(opcode) == 0xA {
      assert GetMnemonic(opcode) == LoadIndexName(nnn);
      LoadIndexShown(nnn);
    } else {
      assert GetMnemonic(opcode) == JumpOffsetName(nnn);
      JumpOffsetShown(nnn);
    }
  }

  lemma JumpShown(nnn: nat)
    requires nnn < 0x1000
    ensures ShowsAddress(JumpName(nnn), 13, nnn)
  {
    AddressField("1) JP nnn (0x", nnn, ")");
  }

  lemma LoadIndexShown(nnn: nat)
    requires nnn < 0x1000
    ensures ShowsAddress(LoadIndexName(nnn), 20, nnn)
  {
    AddressField("A) LD I, address (I=", nnn, ")");
  }

  lemma JumpOffsetShown(nnn: nat)
    requires nnn < 0x1000
    ensures ShowsAddress(JumpOffsetName(nnn), 18, nnn) && ShowsAddress(JumpOffsetName(nnn), 26, nnn)
  {
    var p, h, eq := "B) JP V0, nnn (PC=", Hex(nnn, 3), " = 0x";
    AddressField(p, nnn, eq + h + ")");
    AddressField(p + h + eq, nnn, ")");
    HexWidth(nnn, 3);
    Regroup(p + h, eq, h, ")");
  }

  /** In groups 1, A and B the name determines the opcode. */
  lemma AddressNameDeterminesOpcode(op1: Word, op2: Word)
    requires Nibble3(op1) == Nibble3(op2)
    requires Nibble3(op1) == 0x1 || Nibble3(op1) == 0xA || Nibble3(op1) == 0xB
    requires GetMnemonic(op1) == GetMnemonic(op2)
    ensures op1 == op2
  {
    AddressShown(op1);
    AddressShown(op2);
    NibblesRebuildOpcode(op1);
    NibblesRebuildOpcode(op2);
  }

  /** ADD Vx, byte shows the byte as two upper-case hexadecimal digits but
      not the register: two 7xkk opcodes get the same name exactly when
      their bytes agree. */
  lemma AddNameShowsByteOnly(op1: Word, op2: Word)
    requires Nibble3(op1) == 0x7 && Nibble3(op2) == 0x7
    ensures GetMnemonic(op1) == GetMnemonic(op2) <==> LowByte(op1) == LowByte(op2)
  {
    assert GetMnemonic(op1) == AddByteName(LowByte(op1)) && GetMnemonic(op2) == AddByteName(LowByte(op2));
    if AddByteName(LowByte(op1)) == AddByteName(LowByte(op2)) {
      AddByteNameDetermines(LowByte(op1), LowByte(op2));
    }
  }

  lemma AddByteNameDetermines(kk1: nat, kk2: nat)
    requires kk1 < 0x100 && kk2 < 0x100 && AddByteName(kk1) == AddByteName(kk2)
    ensures kk1 == kk2
  {
    var p, h1, h2 := "7) ADD Vx, byte (0x", Hex(kk1, 2), Hex(kk2, 2);
    assert p + h1 + ")" == p + (h1 + ")");
    assert p + h2 + ")" == p + (h2 + ")");
    StripPrefix(p, h1 + ")", h2 + ")");
    ByteFieldDetermines(kk1, ")", kk2, ")");
  }

  /** A byte field of two digits, read back from the text after it. */
  lemma ByteFieldDetermines(kk1: nat, r1: string, kk2: nat, r2: string)
    requires kk1 < 0x100 && kk2 < 0x100
    requires Hex(kk1, 2) + r1 == Hex(kk2, 2) + r2
    ensures kk1 == kk2
  {
    HexWidth(kk1, 2);
    HexWidth(kk2, 2);
    assert (Hex(kk1, 2) + r1)[..2] == Hex(kk1, 2);
    assert (Hex(kk2, 2) + r2)[..2] == Hex(kk2, 2);
    HexInjective(kk1, kk2, 2);
  }

  /** LD Vx, byte and RND Vx, byte show Vx in decimal and the byte in
      hexadecimal; the name determines the opcode. */
  lemma ByteNameDeterminesOpcode(op1: Word, op2: Word)
    requires Nibble3(op1) == Nibble3(op2) && (Nibble3(op1) == 0x6 || Nibble3(op1) == 0xC)
    requires GetMnemonic(op1) == GetMnemonic(op2)
    ensures op1 == op2
  {
    var x1, kk1, x2, kk2 := Vx(op1), LowByte(op1), Vx(op2), LowByte(op2);
    if Nibble3(op1) == 0x6 {
      LoadByteNamed(op1);
      LoadByteNamed(op2);
      LoadByteNameDetermines(x1, kk1, x2, kk2);
    } else {
      RandomNamed(op1);
      RandomNamed(op2);
      RandomNameDetermines(x1, kk1, x2, kk2);
    }
    SameByteFields(op1, op2);
  }

  lemma LoadByteNamed(op: Word)
    requires Nibble3(op) == 0x6
    ensures GetMnemonic(op) == LoadByteName(Vx(op), LowByte(op))
  {
  }

  lemma RandomNamed(op: Word)
    requires Nibble3(op) == 0xC
    ensures GetMnemonic(op) == RandomName(Vx(op), LowByte(op))
  {
  }

  /** An opcode is its group, its Vx nibble and its low byte. */
  lemma SameByteFields(op1: Word, op2: Word)
    requires Nibble3(op1) == Nibble3(op2) && Vx(op1) == Vx(op2) && LowByte(op1) == LowByte(op2)
    ensures op1 == op2
  {
    NibblesRebuildOpcode(op1);
    NibblesRebuildOpcode(op2);
  }

  lemma LoadByteNameDetermines(x1: nat, kk1: nat, x2: nat, kk2: nat)
    requires kk1 < 0x100 && kk2 < 0x100 && LoadByteName(x1, kk1) == LoadByteName(x2, kk2)
    ensures x1 == x2 && kk1 == kk2
  {
    var p, sep := "6) LD Vx, byte (Vx=", ", byte=";
    var h1, h2 := Hex(kk1, 2), Hex(kk2, 2);
    var f1, f2 := p + Decimal(x1) + sep, p + Decimal(x2) + sep;
    assert f1 + h1 + ")" == f1 + (h1 + ")");
    assert f2 + h2 + ")" == f2 + (h2 + ")");
    DecimalThen(p, sep, x1, h1 + ")", x2, h2 + ")");
    ByteFieldDetermines(kk1, ")", kk2, ")");
  }

  lemma RandomNameDetermines(x1: nat, kk1: nat, x2: nat, kk2: nat)
    requires kk1 < 0x100 && kk2 < 0x100 && RandomName(x1, kk1) == RandomName(x2, kk2)
    ensures x1 == x2 && kk1 == kk2
  {
    var p, sep, eq := "C) RND Vx, byte (Vx=", ", byte=", " = 0x";
    var h1, h2 := Hex(kk1, 2), Hex(kk2, 2);
    var t1, t2 := h1 + (eq + h1 + ")"), h2 + (eq + h2 + ")");
    DecimalThen(p, sep, x1, t1, x2, t2);
    ByteFieldDetermines(kk1, eq + h1 + ")", kk2, eq + h2 + ")");
  }

  /** LD Vx, Vy and SNE Vx, Vy show both registers in decimal; the name
      determines them. The last nibble of a 9xyn opcode is not shown. */
  lemma RegisterNameDeterminesOperands(op1: Word, op2: Word)
    requires Nibble3(op1) == Nibble3(op2)
    requires (Nibble3(op1) == 0x8 && Nibble0(op1) == 0 && Nibble0(op2) == 0) || Nibble3(op1) == 0x9
    requires GetMnemonic(op1) == GetMnemonic(op2)
    ensures Vx(op1) == Vx(op2) && Vy(op1) == Vy(op2)
    ensures Nibble3(op1) == 0x8 ==> op1 == op2
  {
    var p := if Nibble3(op1) == 0x8 then "80) LD Vx, Vy (Vx=" else "9)SNE Vx, Vy (Vx=";
    DecimalPair(p, ", Vy=", Vx(op1), Vy(op1), ")", Vx(op2), Vy(op2), ")");
    NibblesRebuildOpcode(op1);
    NibblesRebuildOpcode(op2);
  }

  /** The DRW name spells out Vx, Vy and the height in decimal; the name
      determines the opcode. */
  lemma DrawNameDeterminesOpcode(op1: Word, op2: Word)
    requires Nibble3(op1) == 0xD && Nibble3(op2) == 0xD
    requires GetMnemonic(op1) == GetMnemonic(op2)
    ensures op1 == op2
  {
    AgreesWithUtils(op1);
    AgreesWithUtils(op2);
    StripPrefix("D)", Utils.GetMnemonic(op1), Utils.GetMnemonic(op2));
    Utils.DrawNameDeterminesOpcode(op1, op2);
  }

  /** Group 0xE compares the whole low byte: SKP Vx is named, SKNP Vx and
      every other 0xE opcode are not. */
  lemma SkipKeyNamed(opcode: Word)
    requires Nibble3(opcode) == 0xE
    ensures GetMnemonic(opcode) == "E9e) SKP Vx" <==> LowByte(opcode) == 0x9E
    ensures GetMnemonic(opcode) != "E9e) SKP Vx" ==> GetMnemonic(opcode) == ""
  {
  }

  /** Group 0xF is named by its last nibble alone, as in src/utils.ts:
      F017 reads "F07) LD Vx, DT" as Fx07 does. */
  lemma DelayNamedByLastNibble(opcode: Word)
    requires Nibble3(opcode) == 0xF
    ensures GetMnemonic(opcode) == "F07) LD Vx, DT" <==> Nibble0(opcode) == 0x7
    ensures GetMnemonic(0xF017) == "F07) LD Vx, DT" && LowByte(0xF017) != 0x07
  {
  }

  /** The two tables agree where neither shows operands: CLS and RET are
      the same, the names of groups 2 to 5 are the plain names with the
      group and ")" in front, and DRW gets "D)" in front. */
  lemma AgreesWithUtils(opcode: Word)
    ensures Nibble3(opcode) == 0x0 ==> GetMnemonic(opcode) == Utils.GetMnemonic(opcode)
    ensures 0x2 <= Nibble3(opcode) <= 0x5 ==>
              GetMnemonic(opcode) == [('0' as int + Nibble3(opcode)) as char] + ") " + Utils.GetMnemonic(opcode)
    ensures Nibble3(opcode) == 0xD ==> GetMnemonic(opcode) == "D)" + Utils.GetMnemonic(opcode)
  {
    if Nibble3(opcode) == 0xD {
      DrawNamesAgree(Vx(opcode), Vy(opcode), Nibble0(opcode));
    } else if 0x2 <= Nibble3(opcode) <= 0x5 {
      NumberedNames(opcode);
    }
  }

  lemma NumberedNames(opcode: Word)
    requires 0x2 <= Nibble3(opcode) <= 0x5
    ensures GetMnemonic(opcode) == [('0' as int + Nibble3(opcode)) as char] + ") " + Utils.GetMnemonic(opcode)
  {
    var m, u := GetMnemonic(opcode), Utils.GetMnemonic(opcode);
    match Nibble3(opcode)
    case 0x2 => assert m == "2) " + u;
    case 0x3 => assert m == "3) " + u;
    case 0x4 => assert m == "4) " + u;
    case 0x5 => assert m == "5) " + u;
  }

  lemma DrawNamesAgree(x: nat, y: nat, n: nat)
    ensures DrawName(x, y, n) == "D)" + Utils.DrawName(x, y, n)
  {
  }
}
