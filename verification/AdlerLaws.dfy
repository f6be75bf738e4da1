/** The checksum in closed form, and its modulus. */
module AdlerLaws {
  import opened Bits
  import opened Factoring
  import opened Adler

  // ----- the two sums

  function ByteSum(data: seq<Byte>): nat {
    if data == [] then 0 else data[0] as nat + ByteSum(data[1..])
  }

  /** The first byte counts as often as there are bytes, the last one once. */
  function Weighted(data: seq<Byte>): nat {
    if data == [] then 0 else |data| * data[0] as nat + Weighted(data[1..])
  }

  lemma {:induction false} SumsMore(data: seq<Byte>, x: Byte)
    ensures ByteSum(data + [x]) == ByteSum(data) + x
    ensures Weighted(data + [x]) == Weighted(data) + ByteSum(data) + x
    decreases |data|
  {
    if data == [] {
      assert data + [x] == [x] && [x][1..] == [];
    } else {
      SumsMore(data[1..], x);
      assert (data + [x])[1..] == data[1..] + [x];
      OnceMore(|data|, data[0]);
    }
  }

  lemma OnceMore(n: nat, x: nat)
    ensures (n + 1) * x == n * x + x
  {
  }

  lemma {:induction false} RawSums(s: Sums, data: seq<Byte>)
    ensures Raw(s, data) == Sums(s.a + ByteSum(data), s.b + |data| * s.a + Weighted(data))
    decreases |data|
  {
    if data != [] {
      var d, x := data[..|data| - 1], data[|data| - 1];
      RawSums(s, d);
      SumsMore(d, x);
      assert data == d + [x];
      OnceMore(|d|, s.a);
    }
  }

  lemma Residues(s: Sums, data: seq<Byte>)
    requires data != []
    ensures var t, r := Adler.Adler(s, data), Raw(s, data);
            t.a == r.a % 65521 && t.b == r.b % 65521 && t.a < 65536 && t.b < 65536
  {
    RawIsAdler(s, data);
    hide Adler.Adler, Raw;
  }

  lemma ChecksumIs(adler: Word, data: seq<Byte>)
    requires Adler.Adler(Unpack(adler), data).a < 65536 && Adler.Adler(Unpack(adler), data).b < 65536
    ensures Checksum(adler, data) == Pack(Adler.Adler(Unpack(adler), data))
  {
    hide Adler.Adler, Unpack, Pack;
  }

  /** Section 2.2 of RFC 1950: in the low half the sum of the bytes, in the high half the sum
      of those sums, both modulo 65521, and both continued from the halves of `adler`. */
  lemma ClosedForm(adler: Word, data: seq<Byte>)
    requires data != []
    ensures var a, b := adler % 0x1_0000, adler / 0x1_0000;
            Checksum(adler, data)
            == (b + |data| * a + Weighted(data)) % 65521 * 0x1_0000 + (a + ByteSum(data)) % 65521
  {
    hide *;
    var s := Unpack(adler);
    HalvesOf(adler);
    RawSums(s, data);
    Residues(s, data);
    PackedValue(Adler.Adler(s, data));
    ChecksumIs(adler, data);
  }

  lemma HalvesOf(adler: Word)
    ensures Unpack(adler) == Sums(adler % 0x1_0000, adler / 0x1_0000)
  {
    Pow2Values();
    ShrDiv(adler, 16);
    ShrLess(adler, 16, 16);
    LowSmall(Shr(adler, 16), 16);
    hide Pow2, Low, Shr;
  }

  lemma PackedValue(s: Sums)
    requires s.a < 0x1_0000 && s.b < 0x1_0000
    ensures Pack(s) == s.b * 0x1_0000 + s.a
  {
    Pow2Values();
    PackFits(s);
    PackIs(s);
    ShlMul(s.b, 16);
    hide Pow2, Pack;
  }

  // ----- the modulus

  lemma RoughBelow64()
    ensures Rough(65521, 64)
  {
  }

  lemma RoughBelow128()
    ensures Rough(65521, 128)
  {
    RoughBelow64();
    assert forall d :: 64 <= d < 128 ==> !Divides(d, 65521);
    hide Divides;
  }

  lemma RoughBelow192()
    ensures Rough(65521, 192)
  {
    RoughBelow128();
    assert forall d :: 128 <= d < 192 ==> !Divides(d, 65521);
    hide Divides;
  }

  lemma RoughBelow256()
    ensures Rough(65521, 256)
  {
    RoughBelow192();
    assert forall d :: 192 <= d < 256 ==> !Divides(d, 65521);
    hide Divides;
  }

  /** LZO_BASE is the largest prime below 65536. */
  lemma LargestPrime(n: nat)
    requires LZO_BASE < n < 65536
    ensures Prime(LZO_BASE) && !Prime(n)
  {
    RoughBelow256();
    RoughRootPrime(65521, 255);
    hide Rough, Prime;
    if n % 2 == 0 {
      Composite(2, n);
    } else if n % 3 == 0 {
      Composite(3, n);
    } else {
      assert n == 65525 || n == 65527 || n == 65531 || n == 65533;
      Composite(if n == 65525 then 5 else if n == 65527 then 7 else if n == 65531 then 19 else 13, n);
    }
  }

  lemma Composite(d: nat, n: nat)
    requires 2 <= d < n && n % d == 0
    ensures !Prime(n)
  {
    assert Divides(d, n);
  }
}
