/** A decoder for the compressed format, written from RFC 1951 and knowing
    nothing of the compressor.  It is strict: it refuses any code that is over-
    or under-subscribed, any length or distance outside the tables, and any
    distance reaching before the start of the output. */
module Inflate {
  import opened Bits
  import opened Canonical

  // ----- the tables of sections 3.2.5 and 3.2.7

  const LEN_BASE: seq<nat> :=
    [3, 4, 5, 6, 7, 8, 9, 10, 11, 13, 15, 17, 19, 23, 27, 31, 35, 43, 51, 59, 67, 83, 99, 115, 131, 163, 195, 227, 258]

  const LEN_EXTRA: seq<nat> :=
    [0, 0, 0, 0, 0, 0, 0, 0, 1, 1, 1, 1, 2, 2, 2, 2, 3, 3, 3, 3, 4, 4, 4, 4, 5, 5, 5, 5, 0]

  const DIST_BASE: seq<nat> :=
    [1, 2, 3, 4, 5, 7, 9, 13, 17, 25, 33, 49, 65, 97, 129, 193, 257, 385, 513, 769, 1025, 1537, 2049, 3073,
     4097, 6145, 8193, 12289, 16385, 24577]

  const DIST_EXTRA: seq<nat> :=
    [0, 0, 0, 0, 1, 1, 2, 2, 3, 3, 4, 4, 5, 5, 6, 6, 7, 7, 8, 8, 9, 9, 10, 10, 11, 11, 12, 12, 13, 13]


  const END_OF_BLOCK: nat := 256

  const LEN_CODES: nat := 29
  const DIST_CODES: nat := 30

  function LenBase(c: nat): nat
    requires c < LEN_CODES
  {
    LEN_BASE[c]
  }

  function LenExtra(c: nat): nat
    requires c < LEN_CODES
  {
    LEN_EXTRA[c]
  }

  function DistBase(d: nat): nat
    requires d < DIST_CODES
  {
    DIST_BASE[d]
  }

  function DistExtra(d: nat): nat
    requires d < DIST_CODES
  {
    DIST_EXTRA[d]
  }

  lemma DistBasePositive(d: nat)
    requires d < DIST_CODES
    ensures DistBase(d) >= 1
  {
  }

  function ReadBits(bits: seq<bool>, pos: nat, n: nat): (r: Option<(nat, nat)>)
    ensures r.Some? ==> r.value.0 < Pow2(n) && r.value.1 == pos + n <= |bits|
  {
    if pos + n <= |bits| then Some((FromBits(bits[pos..pos + n]), pos + n)) else None
  }

  // ----- literals, lengths and distances

  /** A back reference copies byte by byte, so it may overlap what it writes. */
  function CopyMatch(out: seq<Byte>, len: nat, dist: nat): (r: seq<Byte>)
    requires 1 <= dist <= |out|
    ensures |r| == |out| + len
    decreases len
  {
    if len == 0 then out else CopyMatch(out + [out[|out| - dist]], len - 1, dist)
  }

  /** The rest of a match after its length symbol `s`: length, distance, position. */
  function DecodeMatch(bits: seq<bool>, pos: nat, dd: seq<nat>, s: nat): (r: Option<(nat, nat, nat)>)
    requires s > END_OF_BLOCK
    ensures r.Some? ==> r.value.1 >= 1 && pos < r.value.2 <= |bits|
  {
    if s - 257 >= LEN_CODES then None
    else
      var (e, p) :- ReadBits(bits, pos, LenExtra(s - 257));
      var (d, p) :- DecodeSym(dd, bits, p);
      if d >= DIST_CODES then None
      else
        var (x, p) :- ReadBits(bits, p, DistExtra(d));
        DistBasePositive(d);
        Some((LenBase(s - 257) + e, DistBase(d) + x, p))
  }

  /** The data of a compressed block, up to and including the end symbol. */
  function DecodeData(bits: seq<bool>, pos: nat, ll: seq<nat>, dd: seq<nat>, out: seq<Byte>)
    : (r: Option<(nat, seq<Byte>)>)
    ensures r.Some? ==> pos < r.value.0 <= |bits|
    decreases |bits| - pos
  {
    var (s, p) :- DecodeSym(ll, bits, pos);
    if s < END_OF_BLOCK then DecodeData(bits, p, ll, dd, out + [s])
    else if s == END_OF_BLOCK then Some((p, out))
    else
      var (len, dist, q) :- DecodeMatch(bits, p, dd, s);
      if dist > |out| then None else DecodeData(bits, q, ll, dd, CopyMatch(out, len, dist))
  }

  // ----- dynamic block headers

  function Repeat(x: nat, n: nat): (r: seq<nat>)
    ensures |r| == n
  {
    seq(n, _ => x)
  }

  /** Code lengths, run-length coded, until there are `n` of them. */
  function DecodeLens(bits: seq<bool>, pos: nat, cl: seq<nat>, n: nat, acc: seq<nat>)
    : (r: Option<(nat, seq<nat>)>)
    ensures r.Some? ==> pos <= r.value.0 && |r.value.1| == n
    ensures r.Some? && |acc| < n ==> r.value.0 <= |bits|
    decreases |bits| - pos
  {
    if |acc| == n then Some((pos, acc))
    else if |acc| > n then None
    else
      var (s, p) :- DecodeSym(cl, bits, pos);
      if s < 16 then DecodeLens(bits, p, cl, n, acc + [s])
      else if s == 16 then
        if acc == [] then None
        else
          var (x, q) :- ReadBits(bits, p, 2);
          DecodeLens(bits, q, cl, n, acc + Repeat(acc[|acc| - 1], 3 + x))
      else if s == 17 then
        var (x, q) :- ReadBits(bits, p, 3);
        DecodeLens(bits, q, cl, n, acc + Repeat(0, 3 + x))
      else if s == 18 then
        var (x, q) :- ReadBits(bits, p, 7);
        DecodeLens(bits, q, cl, n, acc + Repeat(0, 11 + x))
      else None
  }

  /** Whose length comes `rank`-th in the code length code: 16, 17, 18, 0, and then from the
      middle outwards, 8 and up at even ranks, 7 and down at odd ones. */
  function ClOrder(rank: nat): (s: nat)
    requires rank < 19
    ensures s < 19
  {
    if rank < 3 then 16 + rank
    else if rank == 3 then 0
    else if rank % 2 == 0 then 8 + (rank - 4) / 2
    else 7 - (rank - 5) / 2
  }

  /** The lengths of the code length code: three bits each. */
  function DecodeCl(bits: seq<bool>, pos: nat, rank: nat, n: nat, acc: seq<nat>): (r: Option<(nat, seq<nat>)>)
    requires rank <= n <= 19 && |acc| == 19
    ensures r.Some? ==> pos <= r.value.0 && |r.value.1| == 19
    ensures r.Some? && rank < n ==> r.value.0 <= |bits|
    decreases n - rank
  {
    if rank == n then Some((pos, acc))
    else
      var (x, p) :- ReadBits(bits, pos, 3);
      DecodeCl(bits, p, rank + 1, n, acc[ClOrder(rank) := x])
  }

  /** The two codes of a dynamic block and the position of its data. */
  function DecodeHeader(bits: seq<bool>, pos: nat): (r: Option<(nat, seq<nat>, seq<nat>)>)
    ensures r.Some? ==> pos <= r.value.0
  {
    var (hlit, p) :- ReadBits(bits, pos, 5);
    var (hdist, p) :- ReadBits(bits, p, 5);
    var (hclen, p) :- ReadBits(bits, p, 4);
    if hlit + 257 > 286 || hdist + 1 > 30 || hclen + 4 > 19 then None
    else
      var (p, cl) :- DecodeCl(bits, p, 0, hclen + 4, Repeat(0, 19));
      if !Complete(cl, 7) then None
      else
        var (p, lens) :- DecodeLens(bits, p, cl, hlit + 257 + hdist + 1, []);
        var ll, dd := lens[..hlit + 257], lens[hlit + 257..];
        if !Complete(ll, MAX_BITS) || !Complete(dd, MAX_BITS) || ll[END_OF_BLOCK] == 0 then None
        else Some((p, ll, dd))
  }

  // ----- the fixed codes of section 3.2.6

  function FixedLit(): (r: seq<nat>)
    ensures |r| == 288
  {
    Repeat(8, 144) + Repeat(9, 112) + Repeat(7, 24) + Repeat(8, 8)
  }

  function FixedDist(): (r: seq<nat>)
    ensures |r| == 32
  {
    Repeat(5, 32)
  }

  // ----- blocks

  function AlignUp(pos: nat): (r: nat)
    ensures pos <= r < pos + 8 && r % 8 == 0
  {
    (pos + 7) / 8 * 8
  }

  function ReadBytes(bits: seq<bool>, pos: nat, n: nat): (r: Option<(nat, seq<Byte>)>)
    ensures r.Some? ==> r.value.0 == pos + 8 * n && |r.value.1| == n && (n > 0 ==> r.value.0 <= |bits|)
    decreases n
  {
    if n == 0 then Some((pos, []))
    else if pos + 8 > |bits| then None
    else
      var b := FromBits(bits[pos..pos + 8]);
      assert b < 256 by { Pow2Values(); }
      var (p, rest) :- ReadBytes(bits, pos + 8, n - 1);
      Some((p, [b] + rest))
  }

  /** A stored block: from the next byte boundary, LEN, its complement, the bytes. */
  function DecodeStored(bits: seq<bool>, pos: nat, out: seq<Byte>): (r: Option<(nat, seq<Byte>)>)
    ensures r.Some? ==> pos <= r.value.0 <= |bits|
  {
    var (len, p) :- ReadBits(bits, AlignUp(pos), 16);
    var (nlen, p) :- ReadBits(bits, p, 16);
    if len + nlen != 65535 then None
    else
      var (p, data) :- ReadBytes(bits, p, len);
      Some((p, out + data))
  }

  datatype BlockResult = BlockResult(final: bool, pos: nat, out: seq<Byte>)

  function DecodeBlock(bits: seq<bool>, pos: nat, out: seq<Byte>): (r: Option<BlockResult>)
    ensures r.Some? ==> pos < r.value.pos <= |bits|
  {
    var (final, p) :- ReadBits(bits, pos, 1);
    var (kind, p) :- ReadBits(bits, p, 2);
    if kind == 0 then
      var (p, out') :- DecodeStored(bits, p, out);
      Some(BlockResult(final == 1, p, out'))
    else if kind == 1 then
      var (p, out') :- DecodeData(bits, p, FixedLit(), FixedDist(), out);
      Some(BlockResult(final == 1, p, out'))
    else if kind == 2 then
      var (p, ll, dd) :- DecodeHeader(bits, p);
      var (p, out') :- DecodeData(bits, p, ll, dd, out);
      Some(BlockResult(final == 1, p, out'))
    else None
  }

  /** Whole streams: blocks up to and including the final one. */
  function Decode(bits: seq<bool>, pos: nat, out: seq<Byte>): (r: Option<(nat, seq<Byte>)>)
    ensures r.Some? ==> pos < r.value.0 <= |bits|
    decreases |bits| - pos
  {
    var b :- DecodeBlock(bits, pos, out);
    if b.final then Some((b.pos, b.out)) else Decode(bits, b.pos, b.out)
  }
}
