/** The rolling hash of three bytes that UPDATE_HASH keeps. */
module Hashing {
  import opened Bits
  import opened BitWriting
  import opened Crc

  const HASH_BITS: nat := 13
  const HASH_SIZE: nat := 8192
  const H_SHIFT: nat := 5

  /** UPDATE_HASH */
  function UpdateHash(h: nat, c: Byte): (r: nat)
    ensures r < HASH_SIZE
  {
    Pow2Values();
    Low(Xor(Shl(h, H_SHIFT), c), HASH_BITS)
  }

  function Hash2(a: Byte, b: Byte): nat {
    UpdateHash(UpdateHash(0, a), b)
  }

  /** The hash of three bytes, starting from nothing. */
  function Hash3(a: Byte, b: Byte, c: Byte): (r: nat)
    ensures r < HASH_SIZE
  {
    UpdateHash(Hash2(a, b), c)
  }

  lemma {:induction false} LowXorLeft(a: nat, a': nat, c: nat, k: nat)
    requires Low(a, k) == Low(a', k)
    ensures Low(Xor(a, c), k) == Low(Xor(a', c), k)
    decreases k
  {
    if k > 0 {
      XorHalf(a, c);
      XorHalf(a', c);
      LowXorLeft(a / 2, a' / 2, c / 2, k - 1);
    }
  }

  lemma {:induction false} LowXorCancel(a: nat, c: nat, c': nat, k: nat)
    requires Low(Xor(a, c), k) == Low(Xor(a, c'), k)
    ensures Low(c, k) == Low(c', k)
    decreases k
  {
    if k > 0 {
      XorHalf(a, c);
      XorHalf(a, c');
      LowXorCancel(a / 2, c / 2, c' / 2, k - 1);
    }
  }

  /** Equal hashes with equal first two bytes mean equal third bytes. */
  lemma HashDecides(a: Byte, b: Byte, c: Byte, c': Byte)
    requires Hash3(a, b, c) == Hash3(a, b, c')
    ensures c == c'
  {
    LowXorCancel(Shl(Hash2(a, b), H_SHIFT), c, c', HASH_BITS);
    ByteLow(c);
    ByteLow(c');
  }

  lemma ByteLow(c: Byte)
    ensures Low(c, HASH_BITS) == c
  {
    Pow2Values();
    LowSmall(c, HASH_BITS);
  }

  /** All that the next update sees of a hash. */
  function Kept(h: nat): nat {
    Low(h, 8)
  }

  lemma KeptDecides(h: nat, h': nat, c: Byte)
    requires Kept(h) == Kept(h')
    ensures UpdateHash(h, c) == UpdateHash(h', c)
  {
    LowShl(h, 5, 8);
    LowShl(h', 5, 8);
    hide Low, Shl, Xor;
    LowXorLeft(Shl(h, 5), Shl(h', 5), c, 13);
  }

  lemma {:induction false} LowLow(v: nat, a: nat, b: nat)
    requires a <= b
    ensures Low(Low(v, b), a) == Low(v, a)
    decreases a
  {
    if a > 0 {
      LowHalf(v, b);
      LowLow(v / 2, a - 1, b - 1);
    }
  }

  lemma LowHalf(v: nat, b: nat)
    requires b > 0
    ensures Low(v, b) / 2 == Low(v / 2, b - 1) && Low(v, b) % 2 == v % 2
  {
  }

  /** After two updates, nothing of the hash before them matters any more. */
  lemma HashForgets(h: nat, h': nat, b: Byte, c: Byte)
    ensures Kept(UpdateHash(UpdateHash(h, b), c)) == Kept(UpdateHash(UpdateHash(h', b), c))
  {
    LowThree(h, b);
    LowThree(h', b);
    hide UpdateHash, Low, Shl, Xor;
    LowEight(UpdateHash(h, b), UpdateHash(h', b), c);
  }

  lemma LowThree(h: nat, b: Byte)
    ensures Low(UpdateHash(h, b), 3) == Low(Xor(0, b), 3)
  {
    LowOfShl(h);
    hide Low, Shl, Xor;
    OneUpdate(h, b);
    LowXorLeft(Shl(h, 5), 0, b, 3);
  }

  lemma LowEight(x: nat, x': nat, c: Byte)
    requires Low(x, 3) == Low(x', 3)
    ensures Kept(UpdateHash(x, c)) == Kept(UpdateHash(x', c))
  {
    hide Low, Shl, Xor;
    LowShl(x, 5, 3);
    LowShl(x', 5, 3);
    LowXorLeft(Shl(x, 5), Shl(x', 5), c, 8);
    LowLow(Xor(Shl(x, 5), c), 8, 13);
    LowLow(Xor(Shl(x', 5), c), 8, 13);
  }

  lemma LowOfShl(h: nat)
    ensures Low(Shl(h, 5), 3) == 0 == Low(0, 3)
  {
    LowShrUnique(0, h, 5);
    LowLow(Shl(h, 5), 3, 5);
  }

  lemma OneUpdate(h: nat, b: Byte)
    ensures Low(UpdateHash(h, b), 3) == Low(Xor(Shl(h, 5), b), 3)
  {
    LowLow(Xor(Shl(h, 5), b), 3, 13);
  }
}
