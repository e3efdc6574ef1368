/** The JavaScript number formatting used by the mnemonic functions:
    `n.toString(radix)` (lower-case digits, no leading zeros),
    `toUpperCase()` and `padStart(width, "0")`, with a parser that reads
    the digits back. */
module Format {

  predicate IsDecimalDigit(c: char)
  {
    '0' <= c <= '9'
  }

  predicate IsHexDigit(c: char)
  {
    IsDecimalDigit(c) || 'a' <= c <= 'f' || 'A' <= c <= 'F'
  }

  predicate IsUpperHexDigit(c: char)
  {
    IsDecimalDigit(c) || 'A' <= c <= 'F'
  }

  predicate AllHexDigits(s: string)
  {
    forall i | 0 <= i < |s| :: IsHexDigit(s[i])
  }

  /** The value of one digit, in either case. */
  function DigitValue(c: char): (v: nat)
    requires IsHexDigit(c)
    ensures v < 16
    ensures IsDecimalDigit(c) <==> v < 10
  {
    if IsDecimalDigit(c) then c as int - '0' as int
    else if 'a' <= c <= 'f' then c as int - 'a' as int + 10
    else c as int - 'A' as int + 10
  }

  /** The digit `toString` writes for `d`: `0`-`9`, then `a`-`f`. */
  function DigitChar(d: nat): (c: char)
    requires d < 16
    ensures IsHexDigit(c) && DigitValue(c) == d
    ensures !('A' <= c <= 'F')
  {
    if d < 10 then ('0' as int + d) as char else ('a' as int + d - 10) as char
  }

  /** `n.toString(base)` for a non-negative integer: most significant
      digit first, lower-case letters. */
  function ToRadix(n: nat, base: nat): (r: string)
    requires 2 <= base <= 16
    ensures |r| >= 1 && AllHexDigits(r)
    decreases n
  {
    if n < base then [DigitChar(n)]
    else DivideByBase(n, base); ToRadix(n / base, base) + [DigitChar(n % base)]
  }

  /** The number a string of digits denotes in `base`. */
  function ParseRadix(s: string, base: nat): nat
    requires AllHexDigits(s)
    decreases |s|
  {
    if |s| == 0 then 0
    else ParseRadix(s[..|s| - 1], base) * base + DigitValue(s[|s| - 1])
  }

  /** Reading back what `toString` wrote gives the number. */
  lemma {:induction false} ParseToRadix(n: nat, base: nat)
    requires 2 <= base <= 16
    ensures ParseRadix(ToRadix(n, base), base) == n
    decreases n
  {
    var r := ToRadix(n, base);
    if n < base {
      assert r[..0] == [];
    } else {
      var q, d := n / base, n % base;
      DivideByBase(n, base);
      var front := ToRadix(q, base);
      assert r == front + [DigitChar(d)];
      assert r[..|r| - 1] == front;
      ParseToRadix(q, base);
      assert ParseRadix(r, base) == ParseRadix(front, base) * base + d;
    }
  }

  /** Division by the base splits off the last digit and shrinks the number. */
  lemma DivideByBase(n: nat, base: nat)
    requires 2 <= base <= n
    ensures n == n / base * base + n % base
    ensures n / base < n
  {
    var q, d := n / base, n % base;
    assert n == q * base + d;
  }

  /** Every digit `toString` writes is a digit of the base, and never an
      upper-case letter. */
  lemma {:induction false} ToRadixDigits(n: nat, base: nat)
    requires 2 <= base <= 16
    ensures forall i | 0 <= i < |ToRadix(n, base)| ::
              DigitValue(ToRadix(n, base)[i]) < base && !('A' <= ToRadix(n, base)[i] <= 'F')
    decreases n
  {
    if n >= base {
      ToRadixDigits(n / base, base);
    }
  }

  /** Distinct numbers are written differently. */
  lemma ToRadixInjective(m: nat, n: nat, base: nat)
    requires 2 <= base <= 16 && ToRadix(m, base) == ToRadix(n, base)
    ensures m == n
  {
    ParseToRadix(m, base);
    ParseToRadix(n, base);
  }

  /** JavaScript's `toUpperCase` on the characters that can occur here. */
  function Upper(c: char): (u: char)
    ensures IsHexDigit(c) ==> IsUpperHexDigit(u) && IsHexDigit(u) && DigitValue(u) == DigitValue(c)
  {
    if 'a' <= c <= 'z' then (c as int - 'a' as int + 'A' as int) as char else c
  }

  function ToUpper(s: string): (r: string)
    ensures |r| == |s|
  {
    seq(|s|, i requires 0 <= i < |s| => Upper(s[i]))
  }

  /** Upper-casing a string of digits keeps its value. */
  lemma {:induction false} ParseToUpper(s: string, base: nat)
    requires AllHexDigits(s)
    ensures AllHexDigits(ToUpper(s))
    ensures forall i | 0 <= i < |s| :: IsUpperHexDigit(ToUpper(s)[i])
    ensures ParseRadix(ToUpper(s), base) == ParseRadix(s, base)
    decreases |s|
  {
    if |s| > 0 {
      var front := s[..|s| - 1];
      assert ToUpper(s)[..|s| - 1] == ToUpper(front);
      ParseToUpper(front, base);
    }
  }

  /** `s.padStart(width, pad)` for a one-character pad: `pad` repeated in
      front of `s` up to `width` characters; a longer `s` is kept whole. */
  function PadStart(s: string, width: nat, pad: char): (r: string)
    ensures |r| == if |s| >= width then |s| else width
    ensures r[|r| - |s|..] == s
    ensures forall i | 0 <= i < |r| - |s| :: r[i] == pad
  {
    if |s| >= width then s else seq(width - |s|, _ => pad) + s
  }

  /** Leading zeros do not change the value. */
  lemma {:induction false} ParseLeadingZeros(zeros: string, s: string, base: nat)
    requires forall i | 0 <= i < |zeros| :: zeros[i] == '0'
    requires AllHexDigits(s)
    ensures AllHexDigits(zeros + s)
    ensures ParseRadix(zeros + s, base) == ParseRadix(s, base)
    decreases |s|
  {
    if |s| == 0 {
      assert zeros + s == zeros;
      ParseZeros(zeros, base);
    } else {
      var front := s[..|s| - 1];
      assert (zeros + s)[..|zeros + s| - 1] == zeros + front;
      ParseLeadingZeros(zeros, front, base);
    }
  }

  lemma {:induction false} ParseZeros(zeros: string, base: nat)
    requires forall i | 0 <= i < |zeros| :: zeros[i] == '0'
    ensures AllHexDigits(zeros) && ParseRadix(zeros, base) == 0
    decreases |zeros|
  {
    if |zeros| > 0 {
      ParseZeros(zeros[..|zeros| - 1], base);
    }
  }

  /** `n.toString(10)`. */
  function Decimal(n: nat): (r: string)
  {
    ToRadix(n, 10)
  }

  /** `n.toString(16).toUpperCase().padStart(width, "0")`. */
  function Hex(n: nat, width: nat): (r: string)
  {
    PadStart(ToUpper(ToRadix(n, 16)), width, '0')
  }

  /** A decimal field holds decimal digits only and reads back as its number. */
  lemma DecimalField(n: nat)
    ensures |Decimal(n)| >= 1
    ensures forall i | 0 <= i < |Decimal(n)| :: IsDecimalDigit(Decimal(n)[i])
    ensures ParseRadix(Decimal(n), 10) == n
  {
    ParseToRadix(n, 10);
    ToRadixDigits(n, 10);
  }

  /** A hexadecimal field holds upper-case digits only and reads back as
      its number. */
  lemma HexField(n: nat, width: nat)
    ensures AllHexDigits(Hex(n, width))
    ensures forall i | 0 <= i < |Hex(n, width)| :: IsUpperHexDigit(Hex(n, width)[i])
    ensures ParseRadix(Hex(n, width), 16) == n
  {
    var digits := ToUpper(ToRadix(n, 16));
    var h := Hex(n, width);
    ParseToRadix(n, 16);
    ParseToUpper(ToRadix(n, 16), 16);
    var zeros := h[..|h| - |digits|];
    assert h == zeros + digits;
    ParseLeadingZeros(zeros, digits, 16);
  }

  /** A number below 16^3 gives a three-digit field, below 16^2 a two-digit one. */
  lemma HexWidth(n: nat, width: nat)
    requires (width == 2 && n < 0x100) || (width == 3 && n < 0x1000)
    ensures |Hex(n, width)| == width
  {
    var digits := ToRadix(n, 16);
    if n >= 16 {
      var high := n / 16;
      assert digits == ToRadix(high, 16) + [DigitChar(n % 16)];
      if high < 16 {
        assert |digits| == 2;
      } else {
        assert high / 16 < 16;
        assert |ToRadix(high, 16)| == 2;
      }
    }
  }

  /** Two fields of the same width that read the same are the same number. */
  lemma HexInjective(m: nat, n: nat, width: nat)
    requires Hex(m, width) == Hex(n, width)
    ensures m == n
  {
    HexField(m, width);
    HexField(n, width);
  }

  /** Text made of a run of decimal digits followed by a non-digit splits
      in one way only: two such texts are equal only if their digit runs
      and their remainders are. */
  lemma SplitAfterDigits(a: string, x: string, b: string, y: string)
    requires forall i | 0 <= i < |a| :: IsDecimalDigit(a[i])
    requires forall i | 0 <= i < |b| :: IsDecimalDigit(b[i])
    requires (|x| > 0 && !IsDecimalDigit(x[0])) || |x| == 0
    requires (|y| > 0 && !IsDecimalDigit(y[0])) || |y| == 0
    requires a + x == b + y
    ensures a == b && x == y
  {
    assert a == (a + x)[..|a|];
    assert b == (b + y)[..|b|];
    assert x == (a + x)[|a|..];
    assert y == (b + y)[|b|..];
  }

  /** A decimal field followed by text that does not start with a digit
      can be read back in one way only. */
  lemma SplitDecimal(m: nat, x: string, n: nat, y: string)
    requires |x| == 0 || !IsDecimalDigit(x[0])
    requires |y| == 0 || !IsDecimalDigit(y[0])
    requires Decimal(m) + x == Decimal(n) + y
    ensures m == n && x == y
  {
    DecimalField(m);
    DecimalField(n);
    SplitAfterDigits(Decimal(m), x, Decimal(n), y);
    ToRadixInjective(m, n, 10);
  }

  /** Equal texts with the same prefix agree after it. */
  lemma StripPrefix(p: string, x: string, y: string)
    requires p + x == p + y
    ensures x == y
  {
    assert x == (p + x)[|p|..];
    assert y == (p + y)[|p|..];
  }

  /** Two decimal fields between fixed separators can be read back in one
      way only. */
  lemma DecimalPair(p: string, q: string, a1: nat, b1: nat, r1: string, a2: nat, b2: nat, r2: string)
    requires |q| > 0 && !IsDecimalDigit(q[0])
    requires |r1| == 0 || !IsDecimalDigit(r1[0])
    requires |r2| == 0 || !IsDecimalDigit(r2[0])
    requires p + Decimal(a1) + q + Decimal(b1) + r1 == p + Decimal(a2) + q + Decimal(b2) + r2
    ensures a1 == a2 && b1 == b2 && r1 == r2
  {
    var x1, y1, x2, y2 := Decimal(a1), Decimal(b1), Decimal(a2), Decimal(b2);
    assert p + x1 + q + y1 + r1 == p + (x1 + (q + (y1 + r1)));
    assert p + x2 + q + y2 + r2 == p + (x2 + (q + (y2 + r2)));
    StripPrefix(p, x1 + (q + (y1 + r1)), x2 + (q + (y2 + r2)));
    SplitDecimal(a1, q + (y1 + r1), a2, q + (y2 + r2));
    StripPrefix(q, y1 + r1, y2 + r2);
    SplitDecimal(b1, r1, b2, r2);
  }

  /** A decimal field between a fixed text and a fixed separator can be
      read back in one way only. */
  lemma DecimalThen(p: string, sep: string, a1: nat, t1: string, a2: nat, t2: string)
    requires |sep| > 0 && !IsDecimalDigit(sep[0])
    requires p + Decimal(a1) + sep + t1 == p + Decimal(a2) + sep + t2
    ensures a1 == a2 && t1 == t2
  {
    var x1, x2 := Decimal(a1), Decimal(a2);
    assert p + x1 + sep + t1 == p + (x1 + (sep + t1));
    assert p + x2 + sep + t2 == p + (x2 + (sep + t2));
    StripPrefix(p, x1 + (sep + t1), x2 + (sep + t2));
    SplitDecimal(a1, sep + t1, a2, sep + t2);
    StripPrefix(sep, t1, t2);
  }

  /** Regrouping a concatenation of four texts. */
  lemma Regroup<T>(a: seq<T>, b: seq<T>, c: seq<T>, d: seq<T>)
    ensures a + (b + c + d) == a + b + c + d
  {
  }
}
