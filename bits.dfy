/** Fixed-width unsigned integers and the bitwise operators of the engine.
    JavaScript's `&`, `|` and `^` on byte values are defined here bit by bit,
    least significant bit first, so that their meaning can be reasoned about
    with ordinary integer arithmetic. */
module Bits {

  /** A value held by an element of a `Uint8Array`. */
  type Byte = x: int | 0 <= x < 0x100

  /** A value held by an element of a `Uint16Array`. */
  type Word = x: int | 0 <= x < 0x1_0000

  function Pow2(k: nat): (r: nat)
    ensures r >= 1
  {
    if k == 0 then 1 else 2 * Pow2(k - 1)
  }

  /** Storing an integer into a `Uint8Array` keeps it modulo 256 (ToUint8). */
  function Wrap8(v: int): (r: Byte)
    ensures (r - v) % 0x100 == 0
  {
    v % 0x100
  }

  datatype BitOp = AndOp | OrOp | XorOp

  function ApplyBit(op: BitOp, p: bool, q: bool): bool
  {
    match op
    case AndOp => p && q
    case OrOp => p || q
    case XorOp => p != q
  }

  /** The low `width` bits of `a op b`, computed one bit at a time. */
  function Combine(op: BitOp, a: nat, b: nat, width: nat): (r: nat)
    ensures r < Pow2(width)
    decreases width
  {
    if width == 0 then 0
    else (if ApplyBit(op, a % 2 == 1, b % 2 == 1) then 1 else 0) + 2 * Combine(op, a / 2, b / 2, width - 1)
  }

  lemma Pow2Eight()
    ensures Pow2(8) == 0x100
  {
  }

  function And(a: Byte, b: Byte): Byte
  {
    Pow2Eight();
    Combine(AndOp, a, b, 8)
  }

  function Or(a: Byte, b: Byte): Byte
  {
    Pow2Eight();
    Combine(OrOp, a, b, 8)
  }

  function Xor(a: Byte, b: Byte): Byte
  {
    Pow2Eight();
    Combine(XorOp, a, b, 8)
  }

  /** Masking never sets a bit the mask lacks: `a & b` is at most `b`. */
  lemma {:induction false} CombineAndAtMost(a: nat, b: nat, width: nat)
    ensures Combine(AndOp, a, b, width) <= b
    decreases width
  {
    if width > 0 {
      CombineAndAtMost(a / 2, b / 2, width - 1);
    }
  }

  lemma AndAtMost(a: Byte, b: Byte)
    ensures And(a, b) <= b && And(a, b) <= a
  {
    CombineAndAtMost(a, b, 8);
    CombineAndCommutes(a, b, 8);
    CombineAndAtMost(b, a, 8);
  }

  lemma {:induction false} CombineAndCommutes(a: nat, b: nat, width: nat)
    ensures Combine(AndOp, a, b, width) == Combine(AndOp, b, a, width)
    decreases width
  {
    if width > 0 {
      CombineAndCommutes(a / 2, b / 2, width - 1);
    }
  }

  /** Bit `j` of `b`, counting from the least significant bit. */
  function BitAt(b: nat, j: nat): (r: nat)
    ensures r < 2
  {
    if j == 0 then b % 2 else BitAt(b / 2, j - 1)
  }

  /** The single-bit mask `2^j` of a byte, for `j < 8`. */
  function BitMask(j: nat): Byte
    requires j < 8
  {
    Pow2Eight();
    Pow2Monotone(j, 8);
    Pow2(j)
  }

  /** Masking with a single bit `2^j` isolates bit `j`. */
  lemma {:induction false} CombineAndPow2(b: nat, j: nat, width: nat)
    requires j < width
    ensures Combine(AndOp, b, Pow2(j), width) == if BitAt(b, j) == 1 then Pow2(j) else 0
    decreases width
  {
    if j == 0 {
      CombineWithZero(b / 2, width - 1);
    } else {
      var half := Pow2(j - 1);
      assert Pow2(j) == 2 * half && Pow2(j) % 2 == 0 && Pow2(j) / 2 == half;
      assert Combine(AndOp, b, Pow2(j), width) == 2 * Combine(AndOp, b / 2, half, width - 1);
      CombineAndPow2(b / 2, j - 1, width - 1);
    }
  }

  /** Masking with zero clears every bit. */
  lemma {:induction false} CombineWithZero(a: nat, width: nat)
    ensures Combine(AndOp, a, 0, width) == 0
    decreases width
  {
    if width > 0 {
      CombineWithZero(a / 2, width - 1);
    }
  }

  /** `b & 2^j` is nonzero exactly when bit `j` of `b` is set. */
  lemma AndBit(b: Byte, j: nat)
    requires j < 8
    ensures And(b, BitMask(j)) == BitMask(j) * BitAt(b, j)
    ensures And(b, BitMask(j)) != 0 <==> BitAt(b, j) == 1
  {
    CombineAndPow2(b, j, 8);
    if BitAt(b, j) == 0 {
      assert BitMask(j) * BitAt(b, j) == 0;
    } else {
      assert BitMask(j) * BitAt(b, j) == BitMask(j);
    }
  }

  lemma {:induction false} Pow2Monotone(j: nat, k: nat)
    requires j < k
    ensures Pow2(j) < Pow2(k)
    decreases k
  {
    if j < k - 1 {
      Pow2Monotone(j, k - 1);
    }
  }

  /** Exclusive or with the same operand twice gives back a value of `width` bits. */
  lemma {:induction false} CombineXorTwice(a: nat, b: nat, width: nat)
    requires a < Pow2(width)
    ensures Combine(XorOp, Combine(XorOp, a, b, width), b, width) == a
    decreases width
  {
    if width > 0 {
      var inner := Combine(XorOp, a, b, width);
      var rest := Combine(XorOp, a / 2, b / 2, width - 1);
      assert inner % 2 == (if (a % 2 == 1) != (b % 2 == 1) then 1 else 0);
      assert inner / 2 == rest;
      CombineXorTwice(a / 2, b / 2, width - 1);
    }
  }

  lemma XorTwice(a: Byte, b: Byte)
    ensures Xor(Xor(a, b), b) == a
  {
    Pow2Eight();
    CombineXorTwice(a, b, 8);
  }

  /** Exclusive or of two zeros is zero. */
  lemma {:induction false} CombineXorZeros(width: nat)
    ensures Combine(XorOp, 0, 0, width) == 0
    decreases width
  {
    if width > 0 {
      CombineXorZeros(width - 1);
    }
  }

  /** The reference meaning of `Combine`: bit `j` of the result is the
      operator applied to bit `j` of each operand. */
  lemma {:induction false} CombineBit(op: BitOp, a: nat, b: nat, width: nat, j: nat)
    requires j < width
    ensures BitAt(Combine(op, a, b, width), j) == if ApplyBit(op, BitAt(a, j) == 1, BitAt(b, j) == 1) then 1 else 0
    decreases j
  {
    var low := if ApplyBit(op, a % 2 == 1, b % 2 == 1) then 1 else 0;
    var rest := Combine(op, a / 2, b / 2, width - 1);
    assert Combine(op, a, b, width) == low + 2 * rest;
    if j > 0 {
      assert (low + 2 * rest) / 2 == rest;
      CombineBit(op, a / 2, b / 2, width - 1, j - 1);
    }
  }

  /** Bitwise operators on bytes act bit by bit. */
  lemma BitwiseBit(a: Byte, b: Byte, j: nat)
    requires j < 8
    ensures BitAt(And(a, b), j) == if BitAt(a, j) == 1 && BitAt(b, j) == 1 then 1 else 0
    ensures BitAt(Or(a, b), j) == if BitAt(a, j) == 1 || BitAt(b, j) == 1 then 1 else 0
    ensures BitAt(Xor(a, b), j) == if BitAt(a, j) != BitAt(b, j) then 1 else 0
  {
    CombineBit(AndOp, a, b, 8, j);
    CombineBit(OrOp, a, b, 8, j);
    CombineBit(XorOp, a, b, 8, j);
  }

  /** Bit 7 of a byte is its quotient by 128. */
  lemma BitSeven(v: Byte)
    ensures BitAt(v, 7) == v / 0x80
  {
    var v1 := v / 2;
    var v2 := v1 / 2;
    var v3 := v2 / 2;
    var v4 := v3 / 2;
    var v5 := v4 / 2;
    var v6 := v5 / 2;
    var v7 := v6 / 2;
    assert BitAt(v, 7) == BitAt(v1, 6) == BitAt(v2, 5) == BitAt(v3, 4);
    assert BitAt(v3, 4) == BitAt(v4, 3) == BitAt(v5, 2) == BitAt(v6, 1) == BitAt(v7, 0);
    assert v7 == v / 0x80;
  }

  /** `v & 1` is the lowest bit of a byte. */
  lemma AndOne(v: Byte)
    ensures And(v, 1) == v % 2
  {
    AndBit(v, 0);
  }

  /** `(v & 0x80) >> 7` is the highest bit of a byte, its quotient by 128. */
  lemma AndHighBit(v: Byte)
    ensures And(v, BitMask(7)) / 0x80 == v / 0x80
  {
    AndBit(v, 7);
    BitSeven(v);
  }
}
