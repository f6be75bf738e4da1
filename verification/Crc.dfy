/** Exclusive or, and the CRC of RFC 1952 section 8, by table and by definition. */
module Crc {
  import opened Bits

  function Xor(a: nat, b: nat): nat
    decreases a + b
  {
    if a == 0 && b == 0 then 0
    else (if a % 2 == b % 2 then 0 else 1) + 2 * Xor(a / 2, b / 2)
  }

  lemma {:induction false} XorComm(a: nat, b: nat)
    ensures Xor(a, b) == Xor(b, a)
    decreases a + b
  {
    if a != 0 || b != 0 {
      XorComm(a / 2, b / 2);
    }
  }

  lemma {:induction false} XorZero(a: nat)
    ensures Xor(a, 0) == a
  {
    if a != 0 {
      XorZero(a / 2);
    }
  }

  lemma {:induction false} XorAssoc(a: nat, b: nat, c: nat)
    ensures Xor(Xor(a, b), c) == Xor(a, Xor(b, c))
    decreases a + b + c
  {
    if a != 0 || b != 0 || c != 0 {
      XorHalf(a, b);
      XorHalf(b, c);
      XorHalf(Xor(a, b), c);
      XorHalf(a, Xor(b, c));
      hide Xor;
      XorAssoc(a / 2, b / 2, c / 2);
      SameHalves(Xor(Xor(a, b), c), Xor(a, Xor(b, c)));
    }
  }

  lemma SameHalves(x: nat, y: nat)
    requires x % 2 == y % 2 && x / 2 == y / 2
    ensures x == y
  {
  }

  lemma XorHalf(a: nat, b: nat)
    ensures Xor(a, b) / 2 == Xor(a / 2, b / 2)
    ensures Xor(a, b) % 2 == if a % 2 == b % 2 then 0 else 1
  {
    if a == 0 && b == 0 {
      assert Xor(0, 0) == 0;
    }
  }

  lemma {:induction false} XorBound(a: nat, b: nat, k: nat)
    requires a < Pow2(k) && b < Pow2(k)
    ensures Xor(a, b) < Pow2(k)
    decreases k
  {
    if k > 0 && (a != 0 || b != 0) {
      XorBound(a / 2, b / 2, k - 1);
    }
  }

  lemma HalfFits(a: nat, h: nat, k: nat)
    requires a < Pow2(k) && k > 0
    ensures a / 2 < Pow2(k - 1) && Shl(h, k) == 2 * Shl(h, k - 1)
  {
  }

  lemma {:induction false} XorDisjoint(a: nat, h: nat, k: nat)
    requires a < Pow2(k)
    ensures Xor(a, Shl(h, k)) == a + Shl(h, k)
    decreases k
  {
    if k > 0 {
      HalfFits(a, h, k);
      hide Pow2, Shl, Xor;
      XorDisjoint(a / 2, h, k - 1);
      XorHalf(a, Shl(h, k));
      SameHalves(Xor(a, Shl(h, k)), a + Shl(h, k));
    } else {
      XorComm(0, h);
      XorZero(h);
    }
  }

  // ----- the definition

  const POLYNOMIAL: Word := 0xedb88320

  lemma XorWord(a: Word, b: Word)
    ensures Xor(a, b) < 0x1_0000_0000
  {
    Pow2Values();
    XorBound(a, b, 32);
  }

  /** One bit through the shift register. */
  function CrcBit(c: Word): Word {
    XorWord(c / 2, POLYNOMIAL);
    if c % 2 == 1 then Xor(c / 2, POLYNOMIAL) else c / 2
  }

  function CrcBits(c: Word, n: nat): Word
    decreases n
  {
    if n == 0 then c else CrcBits(CrcBit(c), n - 1)
  }

  function CrcByte(c: Word, b: Byte): Word {
    XorWord(c, b);
    CrcBits(Xor(c, b), 8)
  }

  /** The register after a string of bytes. */
  function CrcOf(c: Word, s: seq<Byte>): Word {
    if s == [] then c else CrcByte(CrcOf(c, s[..|s| - 1]), s[|s| - 1])
  }

  lemma {:induction false} CrcConcat(c: Word, a: seq<Byte>, b: seq<Byte>)
    ensures CrcOf(c, a + b) == CrcOf(CrcOf(c, a), b)
    decreases |b|
  {
    hide CrcByte;
    if b == [] {
      assert a + b == a;
    } else {
      CrcConcat(c, a, b[..|b| - 1]);
      assert (a + b)[..|a + b| - 1] == a + b[..|b| - 1];
    }
  }

  // ----- by table

  /** High bits only move down while low bits are consumed. */
  lemma {:induction false} CrcHigh(a: Word, h: Word, n: nat)
    requires Shl(h, n) < 0x1_0000_0000
    ensures Xor(a, Shl(h, n)) < 0x1_0000_0000 && Xor(CrcBits(a, n), h) < 0x1_0000_0000
    ensures CrcBits(Xor(a, Shl(h, n)), n) == Xor(CrcBits(a, n), h)
    decreases n
  {
    XorWord(a, Shl(h, n));
    XorWord(CrcBits(a, n), h);
    if n > 0 {
      var x: Word := Shl(h, n - 1);
      XorHalf(a, Shl(h, n));
      hide Xor;
      XorSwap(a / 2, x);
      CrcHigh(CrcBit(a), h, n - 1);
    }
  }

  lemma XorSwap(a: Word, x: Word)
    ensures Xor(Xor(a, x), POLYNOMIAL) == Xor(Xor(a, POLYNOMIAL), x)
  {
    hide Xor;
    XorAssoc(a, x, POLYNOMIAL);
    XorComm(x, POLYNOMIAL);
    XorAssoc(a, POLYNOMIAL, x);
  }

  function TableIndex(c: Word, b: Byte): Byte {
    Pow2Values();
    XorBound(Low(c, 8), b, 8);
    Xor(Low(c, 8), b)
  }

  /** One table step is eight bits through the shift register. */
  lemma CrcByTable(c: Word, b: Byte)
    ensures Xor(CrcBits(TableIndex(c, b), 8), Shr(c, 8)) == CrcByte(c, b)
  {
    var lo, hi := Low(c, 8), Shr(c, 8);
    LowShr(c, 8);
    ShlGe(hi, 8);
    XorDisjoint(lo, hi, 8);
    hide Xor, CrcBits, Low, Shr, Shl;
    XorAssoc(lo, Shl(hi, 8), b);
    XorComm(Shl(hi, 8), b);
    XorAssoc(lo, b, Shl(hi, 8));
    CrcHigh(TableIndex(c, b), hi, 8);
  }

  lemma ShlGe(h: nat, k: nat)
    ensures h <= Shl(h, k)
  {
  }

  ghost predicate CrcTable(table: seq<Word>) {
    |table| == 256 && forall i: Byte :: table[i] == CrcBits(i, 8)
  }

  /** crc32_filltable, little endian. */
  method FillTable() returns (table: array<Word>)
    ensures fresh(table) && CrcTable(table[..])
  {
    hide CrcBits, CrcBit;
    table := new Word[256];
    for i := 0 to 256
      invariant forall k: nat :: k < i ==> table[k] == CrcBits(k, 8)
    {
      var c: Word := i;
      var j := 8;
      while j != 0
        invariant 0 <= j <= 8 && CrcBits(c, j) == CrcBits(i, 8)
        invariant forall k: nat :: k < i ==> table[k] == CrcBits(k, 8)
      {
        CrcBitsStep(c, j);
        XorWord(c / 2, POLYNOMIAL);
        c := if c % 2 == 1 then Xor(c / 2, POLYNOMIAL) else c / 2;
        j := j - 1;
      }
      CrcBitsNone(c);
      table[i] := c;
    }
  }

  lemma CrcBitsStep(c: Word, n: nat)
    requires n > 0
    ensures Xor(c / 2, POLYNOMIAL) < 0x1_0000_0000
    ensures CrcBits(c, n) == CrcBits(if c % 2 == 1 then Xor(c / 2, POLYNOMIAL) else c / 2, n - 1)
  {
    XorWord(c / 2, POLYNOMIAL);
  }

  lemma CrcBitsNone(c: Word)
    ensures CrcBits(c, 0) == c
  {
  }

  lemma {:induction false} XorSelf(a: nat)
    ensures Xor(a, a) == 0
  {
    if a > 0 {
      XorSelf(a / 2);
    }
  }

  lemma {:induction false} CrcOfZero(n: nat)
    ensures CrcBits(0, n) == 0
  {
    if n > 0 {
      CrcOfZero(n - 1);
    }
  }

  /** A byte that equals the low end of the register only moves the rest down. */
  lemma Cancelled(c: Word, b: Byte)
    requires b == c % 256
    ensures CrcByte(c, b) == c / 256
  {
    Pow2Values();
    ShrDiv(c, 8);
    hide Low, Shr, Pow2, Xor, CrcBits, CrcByte;
    XorSelf(b);
    CrcByTable(c, b);
    CrcOfZero(8);
    XorComm(0, c / 256);
    XorZero(c / 256);
  }

  // ----- what the definition means, bit by bit

  lemma {:induction false} XorAt(a: nat, b: nat, n: nat, i: nat)
    requires i < n
    ensures ToBits(Xor(a, b), n)[i] == (ToBits(a, n)[i] != ToBits(b, n)[i])
    decreases n
  {
    XorHalf(a, b);
    hide Xor;
    if i > 0 {
      XorAt(a / 2, b / 2, n - 1, i - 1);
    }
  }

  /** The polynomial is x^32 + x^26 + x^23 + x^22 + x^16 + x^12 + x^11 + x^10 + x^8 + x^7 + x^5
      + x^4 + x^2 + x + 1, and x^k has the weight 2^(31 - k); x^32 is the bit that drops out. */
  lemma PolynomialTerms()
    ensures POLYNOMIAL
         == Pow2(31 - 26) + Pow2(31 - 23) + Pow2(31 - 22) + Pow2(31 - 16) + Pow2(31 - 12) + Pow2(31 - 11) + Pow2(31 - 10)
            + Pow2(31 - 8) + Pow2(31 - 7) + Pow2(31 - 5) + Pow2(31 - 4) + Pow2(31 - 2) + Pow2(31 - 1) + Pow2(31 - 0)
  {
    Pow2Values();
    hide Pow2;
    HighPower(3);
    HighPower(4);
    HighPower(5);
    HighPower(7);
    HighPower(8);
    HighPower(10);
    HighPower(11);
    HighPower(13);
    HighPower(14);
    HighPower(15);
  }

  lemma HighPower(j: nat)
    ensures Pow2(16 + j) == 65536 * Pow2(j)
  {
    Pow2Values();
    Pow2Add(j, 16);
    ShlMul(Pow2(j), 16);
  }

  /** One step divides by the polynomial: every bit moves down by one, and if a bit drops
      out, the terms of the polynomial are subtracted. */
  lemma CrcBitAt(c: Word, i: nat)
    requires i < 32
    ensures var b := ToBits(c, 32);
            ToBits(CrcBit(c), 32)[i]
            == ((i < 31 && b[i + 1]) != (b[0] && ToBits(POLYNOMIAL, 32)[i]))
  {
    ToBitsStep(c, 32);
    TopBit(c / 2);
    if i < 31 {
      HalfBits(c, i);
      assert ToBits(c / 2, 32)[i] == ToBits(c / 2, 32)[..31][i];
    }
    XorAt(c / 2, POLYNOMIAL, 32, i);
    hide ToBits, Xor, POLYNOMIAL;
  }

  lemma TopBit(h: nat)
    requires h < 0x8000_0000
    ensures !ToBits(h, 32)[31] && ToBits(h, 32)[..31] == ToBits(h, 31)
  {
    Pow2Values();
    LowSmall(h, 31);
    ShrDiv(h, 31);
    Pow2Add(1, 31);
    assert Pow2(1) == 2;
    ToBitsSplit(h, 31, 1);
    assert h / Pow2(31) == 0;
    assert ToBits(0, 1) == [false];
    hide ToBits, Shr, Low;
  }

  lemma HalfBits(c: Word, i: nat)
    requires i < 31
    ensures ToBits(c / 2, 31)[i] == ToBits(c, 32)[i + 1]
  {
    ToBitsStep(c, 32);
    hide ToBits;
  }

  /** crc32_block_endian0 over part of a buffer. */
  method BlockEndian0(val0: Word, buf: array<Byte>, start: nat, len: nat, table: seq<Word>) returns (val: Word)
    requires CrcTable(table) && start + len <= buf.Length
    ensures val == CrcOf(val0, buf[start..start + len])
  {
    hide CrcBits, CrcByte, Low, Shr, Xor, TableIndex;
    val := val0;
    for i := 0 to len
      invariant val == CrcOf(val0, buf[start..start + i])
    {
      var b := buf[start + i];
      CrcByTable(val, b);
      assert buf[start..start + i + 1][..i] == buf[start..start + i];
      val := Xor(table[TableIndex(val, b)], Shr(val, 8));
    }
  }
}
