/** lzo_adler32: the checksum of section 2.2 of RFC 1950, with the divisions put off
    as long as 32 bits allow. */
module Adler {
  import opened Bits

  const LZO_BASE: nat := 65521
  const LZO_NMAX: nat := 5552

  /** The two running sums. */
  datatype Sums = Sums(a: nat, b: nat)

  /** The definition: both sums modulo LZO_BASE after every byte. */
  function Step(s: Sums, x: Byte): Sums {
    var a := (s.a + x) % LZO_BASE;
    Sums(a, (s.b + a) % LZO_BASE)
  }

  function Adler(s: Sums, data: seq<Byte>): Sums {
    if data == [] then s else Step(Adler(s, data[..|data| - 1]), data[|data| - 1])
  }

  /** What the inner loop computes: no division at all. */
  function Raw(s: Sums, data: seq<Byte>): Sums {
    if data == [] then s
    else
      var r := Raw(s, data[..|data| - 1]);
      Sums(r.a + data[|data| - 1], r.b + r.a + data[|data| - 1])
  }

  lemma {:induction false} AdlerConcat(s: Sums, x: seq<Byte>, y: seq<Byte>)
    ensures Adler(s, x + y) == Adler(Adler(s, x), y)
    decreases |y|
  {
    if y == [] {
      assert x + y == x;
    } else {
      AdlerConcat(s, x, y[..|y| - 1]);
      assert (x + y)[..|x + y| - 1] == x + y[..|y| - 1];
    }
  }

  lemma ModAdd(x: nat, y: nat, d: nat)
    requires d > 0
    ensures (x % d + y) % d == (x + y) % d
  {
    var q, r := x / d, x % d;
    var t := (r + y) / d;
    assert x + y == (q + t) * d + (r + y) % d;
    DivUnique(x + y, d, q + t, (r + y) % d);
  }

  lemma RawLast(s: Sums, data: seq<Byte>)
    requires data != []
    ensures var r, x := Raw(s, data[..|data| - 1]), data[|data| - 1]; Raw(s, data) == Sums(r.a + x, r.b + r.a + x)
  {
  }

  lemma AdlerLast(s: Sums, data: seq<Byte>)
    requires data != []
    ensures Adler(s, data) == Step(Adler(s, data[..|data| - 1]), data[|data| - 1])
  {
    hide Step;
  }

  lemma StepBound(t: Sums, x: Byte)
    ensures Step(t, x).a < LZO_BASE && Step(t, x).b < LZO_BASE
    ensures Step(t, x).a % LZO_BASE == Step(t, x).a && Step(t, x).b % LZO_BASE == Step(t, x).b
  {
  }

  /** Putting off the division changes nothing modulo LZO_BASE. */
  lemma {:induction false} RawIsAdler(s: Sums, data: seq<Byte>)
    ensures Raw(s, data).a % LZO_BASE == Adler(s, data).a % LZO_BASE
    ensures Raw(s, data).b % LZO_BASE == Adler(s, data).b % LZO_BASE
    ensures data != [] ==> Adler(s, data).a < LZO_BASE && Adler(s, data).b < LZO_BASE
    decreases |data|
  {
    if data != [] {
      var d, x := data[..|data| - 1], data[|data| - 1];
      RawLast(s, data);
      AdlerLast(s, data);
      StepBound(Adler(s, d), x);
      hide *;
      RawIsAdler(s, d);
      SameStep(Raw(s, d), Adler(s, d), x);
    }
  }

  lemma SameStep(r: Sums, t: Sums, x: Byte)
    requires r.a % LZO_BASE == t.a % LZO_BASE && r.b % LZO_BASE == t.b % LZO_BASE
    ensures (r.a + x) % LZO_BASE == Step(t, x).a
    ensures (r.b + r.a + x) % LZO_BASE == Step(t, x).b
  {
    ModAdd(r.a, x, LZO_BASE);
    ModAdd(t.a, x, LZO_BASE);
    ModAdd(r.b, r.a + x, LZO_BASE);
    ModAdd(t.b, r.a + x, LZO_BASE);
    ModAdd(r.a + x, t.b, LZO_BASE);
  }

  // ----- the sums fit 32 bits, and only just

  function Triangle(n: nat): nat {
    if n == 0 then 0 else Triangle(n - 1) + n
  }

  lemma {:induction false} TriangleIs(n: nat)
    ensures 2 * Triangle(n) == n * (n + 1)
  {
    if n > 0 {
      TriangleIs(n - 1);
    }
  }

  lemma {:induction false} TriangleMono(m: nat, n: nat)
    requires m <= n
    ensures Triangle(m) <= Triangle(n)
    decreases n
  {
    if m < n {
      TriangleMono(m, n - 1);
    }
  }

  lemma {:induction false} RawBound(s: Sums, data: seq<Byte>, top: nat)
    requires s.a <= top && s.b <= top
    ensures Raw(s, data).a <= top + 255 * |data|
    ensures Raw(s, data).b <= top + top * |data| + 255 * Triangle(|data|)
    decreases |data|
  {
    if data != [] {
      RawBound(s, data[..|data| - 1], top);
      assert top * |data| == top * (|data| - 1) + top;
    }
  }

  /** Whatever 16-bit sums it starts from, a chunk of LZO_NMAX bytes cannot overflow. */
  lemma ChunkFits(s: Sums, data: seq<Byte>)
    requires s.a < 0x1_0000 && s.b < 0x1_0000 && |data| <= LZO_NMAX
    ensures Raw(s, data).a < 0x1_0000_0000 && Raw(s, data).b < 0x1_0000_0000
  {
    RawBound(s, data, 65535);
    TriangleIs(LZO_NMAX);
    TriangleMono(|data|, LZO_NMAX);
  }

  /** The sums of a run of 255s. */
  lemma {:induction false} RawOfLargest(s: Sums, data: seq<Byte>)
    requires forall i :: 0 <= i < |data| ==> data[i] == 255
    ensures Raw(s, data).a == s.a + 255 * |data|
    ensures Raw(s, data).b == s.b + s.a * |data| + 255 * Triangle(|data|)
    decreases |data|
  {
    if data != [] {
      RawOfLargest(s, data[..|data| - 1]);
      assert s.a * |data| == s.a * (|data| - 1) + s.a;
    }
  }

  /** With one byte more, reduced sums can overflow: LZO_NMAX is the largest chunk. */
  lemma ChunkIsTight(data: seq<Byte>)
    requires |data| == LZO_NMAX + 1 && forall i :: 0 <= i < |data| ==> data[i] == 255
    ensures Raw(Sums(LZO_BASE - 1, LZO_BASE - 1), data).b >= 0x1_0000_0000
  {
    RawOfLargest(Sums(LZO_BASE - 1, LZO_BASE - 1), data);
    TriangleIs(LZO_NMAX + 1);
  }

  // ----- the code

  function Unpack(adler: Word): (s: Sums)
    ensures s.a < 0x1_0000 && s.b < 0x1_0000
  {
    Pow2Values();
    Sums(Low(adler, 16), Low(Shr(adler, 16), 16))
  }

  function Pack(s: Sums): Word
    requires s.a < 0x1_0000 && s.b < 0x1_0000
  {
    PackFits(s);
    BitOr(Shl(s.b, 16), s.a)
  }

  lemma PackFits(s: Sums)
    requires s.a < 0x1_0000 && s.b < 0x1_0000
    ensures BitOr(Shl(s.b, 16), s.a) == s.a + Shl(s.b, 16) < 0x1_0000_0000
  {
    Pow2Values();
    BitOrComm(Shl(s.b, 16), s.a);
    BitOrDisjoint(s.a, s.b, 16);
    ShlMul(s.b, 16);
  }

  lemma {:induction false} BitOrComm(a: nat, b: nat)
    ensures BitOr(a, b) == BitOr(b, a)
    decreases a + b
  {
    if a != 0 && b != 0 {
      BitOrComm(a / 2, b / 2);
    }
  }

  lemma Halves(a: nat, b: nat)
    requires a < 0x1_0000 && b < 0x1_0000
    ensures var n := Shl(b, 16) + a; Low(n, 16) == a && Low(Shr(n, 16), 16) == b
  {
    Pow2Values();
    hide *;
    LowShrUnique(a, b, 16);
    LowSmall(b, 16);
  }

  /** Packing loses nothing. */
  lemma UnpackPack(s: Sums)
    requires s.a < 0x1_0000 && s.b < 0x1_0000
    ensures Unpack(Pack(s)) == s
  {
    hide *;
    PackFits(s);
    PackIs(s);
    UnpackIs(Pack(s));
    Halves(s.a, s.b);
  }

  lemma PackUnpack(adler: Word)
    ensures Pack(Unpack(adler)) == adler
  {
    Pow2Values();
    LowShr(adler, 16);
    ShrLess(adler, 16, 16);
    LowSmall(Shr(adler, 16), 16);
    PackFits(Unpack(adler));
  }

  /** The checksum of `data`, continued from `adler`. */
  function Checksum(adler: Word, data: seq<Byte>): Word {
    RawIsAdler(Unpack(adler), data);
    Pack(Adler(Unpack(adler), data))
  }

  /** No bytes leave a checksum as it is. */
  lemma NothingMore(adler: Word)
    ensures Checksum(adler, []) == adler
  {
    hide Unpack, Pack;
    PackUnpack(adler);
    AdlerNone(Unpack(adler));
  }

  /** Checksums can be computed piece by piece. */
  lemma Incremental(adler: Word, x: seq<Byte>, y: seq<Byte>)
    ensures Checksum(Checksum(adler, x), y) == Checksum(adler, x + y)
  {
    RawIsAdler(Unpack(adler), x);
    UnpackPack(Adler(Unpack(adler), x));
    AdlerConcat(Unpack(adler), x, y);
  }

  /** The inner loop over one chunk, in 32-bit arithmetic. */
  method SumChunk(s1: Word, s2: Word, buf: array<Byte>, start: nat, k: nat) returns (t1: Word, t2: Word)
    requires s1 < 0x1_0000 && s2 < 0x1_0000 && k <= LZO_NMAX && start + k <= buf.Length
    ensures Sums(t1, t2) == Raw(Sums(s1, s2), buf[start..start + k])
  {
    hide Raw;
    t1, t2 := s1, s2;
    RawNone(Sums(s1, s2));
    assert buf[start..start] == [];
    for i := 0 to k
      invariant Sums(t1, t2) == Raw(Sums(s1, s2), buf[start..start + i])
    {
      RawSnoc(Sums(s1, s2), buf[start..start + i], buf[start + i]);
      assert buf[start..start + i + 1] == buf[start..start + i] + [buf[start + i]];
      ChunkFits(Sums(s1, s2), buf[start..start + i + 1]);
      t1 := U32(t1 + buf[start + i]);
      t2 := U32(t2 + t1);
    }
  }

  lemma RawNone(s: Sums)
    ensures Raw(s, []) == s
  {
  }

  lemma RawSnoc(s: Sums, data: seq<Byte>, x: Byte)
    ensures Raw(s, data + [x]) == Sums(Raw(s, data).a + x, Raw(s, data).b + Raw(s, data).a + x)
  {
    assert (data + [x])[..|data|] == data;
  }

  /** After a chunk the sums are reduced, and they are those of everything so far. */
  lemma ChunkStep(s: Sums, done: seq<Byte>, piece: seq<Byte>, before: Sums)
    requires before == Adler(s, done) && piece != []
    ensures var r := Raw(before, piece); Sums(r.a % LZO_BASE, r.b % LZO_BASE) == Adler(s, done + piece)
  {
    RawIsAdler(before, piece);
    AdlerConcat(s, done, piece);
    hide Raw, Adler;
    var t := Adler(before, piece);
    Reduced(t.a);
    Reduced(t.b);
  }

  lemma Reduced(x: nat)
    requires x < LZO_BASE
    ensures x % LZO_BASE == x
  {
  }

  /** lzo_adler32; without a buffer it gives the checksum to start from. */
  method LzoAdler32(adler: Word, buf: array?<Byte>, start: nat, len0: nat) returns (r: Word)
    requires buf != null ==> start + len0 <= buf.Length
    ensures buf == null ==> r == 1
    ensures buf != null ==> r == Checksum(adler, buf[start..start + len0])
  {
    hide Raw, Adler, Unpack, Pack, Low, Shr, Shl, BitOr;
    if buf == null {
      return 1;
    }
    ghost var s := Unpack(adler);
    UnpackIs(adler);
    var s1: Word, s2: Word := Low(adler, 16), Low(Shr(adler, 16), 16);
    var at, len := start, len0;
    AdlerNone(s);
    assert buf[start..start] == [];
    while len > 0
      invariant at + len == start + len0 && start <= at && 0 <= len && s1 < 0x1_0000 && s2 < 0x1_0000
      invariant Sums(s1, s2) == Adler(s, buf[start..at])
    {
      var k := if len < LZO_NMAX then len else LZO_NMAX;
      len := len - k;
      ghost var piece := buf[at..at + k];
      ghost var before := Sums(s1, s2);
      s1, s2 := SumChunk(s1, s2, buf, at, k);
      ChunkStep(s, buf[start..at], piece, before);
      assert buf[start..at + k] == buf[start..at] + piece;
      s1, s2 := s1 % LZO_BASE, s2 % LZO_BASE;
      at := at + k;
    }
    PackFits(Sums(s1, s2));
    PackIs(Sums(s1, s2));
    r := BitOr(Shl(s2, 16), s1);
  }

  lemma UnpackIs(adler: Word)
    ensures Low(adler, 16) < 0x1_0000 && Low(Shr(adler, 16), 16) < 0x1_0000
    ensures Unpack(adler) == Sums(Low(adler, 16), Low(Shr(adler, 16), 16))
  {
    Pow2Values();
  }

  lemma PackIs(s: Sums)
    requires s.a < 0x1_0000 && s.b < 0x1_0000
    ensures Pack(s) == BitOr(Shl(s.b, 16), s.a)
  {
  }

  lemma AdlerNone(s: Sums)
    ensures Adler(s, []) == s
  {
  }
}
