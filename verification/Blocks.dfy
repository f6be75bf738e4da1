/** The three kinds of block as bit strings, and that each decodes to what it stands for. */
module Blocks {
  import opened Bits
  import opened Canonical
  import opened Inflate
  import opened Tokens
  import opened RunLengths
  import opened BitWriting
  import opened Tables

  const STORED_BLOCK: nat := 0
  const STATIC_TREES: nat := 1
  const DYN_TREES: nat := 2

  /** Whatever follows, the block between `before` and `after` turns `out` into `out'`. */
  ghost predicate BlockDecodes(before: seq<bool>, after: seq<bool>, out: seq<Byte>, out': seq<Byte>, final: bool) {
    forall bits: seq<bool> :: after <= bits ==>
      DecodeBlock(bits, |before|, out) == Some(BlockResult(final, |after|, out'))
  }

  lemma AtPrefix(bits: seq<bool>, a: seq<bool>, b: seq<bool>)
    requires a + b <= bits
    ensures At(bits, |a|, b)
  {
    assert bits[..|a + b|] == a + b;
  }

  // ----- the three header bits

  function KindBits(kind: nat, final: bool): (b: seq<bool>)
    ensures |b| == 3
  {
    ToBits(kind * 2 + (if final then 1 else 0), 3)
  }

  lemma KindDecodes(bits: seq<bool>, pos: nat, kind: nat, final: bool)
    requires kind < 4 && At(bits, pos, KindBits(kind, final))
    ensures ReadBits(bits, pos, 1) == Some((if final then 1 else 0, pos + 1))
    ensures ReadBits(bits, pos + 1, 2) == Some((kind, pos + 3))
  {
    var e := if final then 1 else 0;
    Pow2Values();
    assert Shl(kind, 1) == 2 * kind;
    ToBitsConcat(e, 1, kind, 2);
    AtConcat(bits, pos, ToBits(e, 1), ToBits(kind, 2));
    ReadBitsCorrect(bits, pos, e, 1);
    ReadBitsCorrect(bits, pos + 1, kind, 2);
  }

  // ----- stored blocks

  lemma {:induction false} ReadBytesCorrect(bits: seq<bool>, pos: nat, data: seq<Byte>)
    requires At(bits, pos, BytesBits(data))
    ensures ReadBytes(bits, pos, |data|) == Some((pos + 8 * |data|, data))
    decreases |data|
  {
    if data != [] {
      AtConcat(bits, pos, ToBits(data[0], 8), BytesBits(data[1..]));
      ByteReads(data[0]);
      ReadBytesCorrect(bits, pos + 8, data[1..]);
      assert data == [data[0]] + data[1..];
    }
  }

  lemma ByteReads(b: Byte)
    ensures FromBits(ToBits(b, 8)) == b
  {
    Pow2Values();
    FromToBits(b, 8);
  }

  function StoredBits(before: seq<bool>, data: seq<Byte>, final: bool): seq<bool>
    requires |data| < 0x1_0000
  {
    Pad(before + KindBits(STORED_BLOCK, final)) + ToBits(|data|, 16) + ToBits(65535 - |data|, 16) + BytesBits(data)
  }

  lemma PadAlign(s: seq<bool>)
    ensures |Pad(s)| == AlignUp(|s|)
  {
  }

  /** A stored block decodes to its bytes. */
  lemma StoredDecodes(before: seq<bool>, data: seq<Byte>, final: bool, out: seq<Byte>)
    requires |data| < 0x1_0000
    ensures BlockDecodes(before, StoredBits(before, data, final), out, out + data, final)
  {
    var after := StoredBits(before, data, final);
    forall bits: seq<bool> | after <= bits
      ensures DecodeBlock(bits, |before|, out) == Some(BlockResult(final, |after|, out + data))
    {
      StoredBlockAt(bits, before, data, final, out);
    }
  }

  lemma StoredBlockAt(bits: seq<bool>, before: seq<bool>, data: seq<Byte>, final: bool, out: seq<Byte>)
    requires |data| < 0x1_0000 && StoredBits(before, data, final) <= bits
    ensures DecodeBlock(bits, |before|, out) == Some(BlockResult(final, |StoredBits(before, data, final)|, out + data))
  {
    hide At, Pad, ReadBits, BytesBits, ToBits, KindBits, ReadBytes, AlignUp, Pow2;
    var k := KindBits(STORED_BLOCK, final);
    var p := Pad(before + k);
    var l, n, d := ToBits(|data|, 16), ToBits(65535 - |data|, 16), BytesBits(data);
    assert before + k <= p + l + n + d;
    AtPrefix(bits, before, k);
    KindDecodes(bits, |before|, STORED_BLOCK, final);
    assert (p + l) <= p + l + n + d;
    AtPrefix(bits, p, l);
    AtPrefix(bits, p + l, n);
    AtPrefix(bits, p + l + n, d);
    PadAlign(before + k);
    WordFits(|data|);
    ReadBitsCorrect(bits, |p|, |data|, 16);
    ReadBitsCorrect(bits, |p| + 16, 65535 - |data|, 16);
    ReadBytesCorrect(bits, |p| + 32, data);
    StoredSteps(bits, |before| + 3, data, out);
  }

  lemma WordFits(n: nat)
    requires n < 0x1_0000
    ensures n < Pow2(16) && 65535 - n < Pow2(16)
  {
    Pow2Values();
  }

  lemma StoredSteps(bits: seq<bool>, pos: nat, data: seq<Byte>, out: seq<Byte>)
    requires |data| < 0x1_0000 && AlignUp(pos) + 32 <= |bits|
    requires ReadBits(bits, AlignUp(pos), 16) == Some((|data|, AlignUp(pos) + 16))
    requires ReadBits(bits, AlignUp(pos) + 16, 16) == Some((65535 - |data|, AlignUp(pos) + 32))
    requires ReadBytes(bits, AlignUp(pos) + 32, |data|) == Some((AlignUp(pos) + 32 + 8 * |data|, data))
    ensures DecodeStored(bits, pos, out) == Some((AlignUp(pos) + 32 + 8 * |data|, out + data))
  {
    hide ReadBits, ReadBytes, AlignUp;
  }

  // ----- blocks with the fixed codes

  function FixedBits(before: seq<bool>, ts: seq<Token>, final: bool): seq<bool>
    requires AllCodable(FixedLit(), FixedDist(), ts)
  {
    before + KindBits(STATIC_TREES, final) + DataBits(FixedLit(), FixedDist(), ts)
  }

  lemma FixedDecodes(before: seq<bool>, ts: seq<Token>, final: bool, out: seq<Byte>)
    requires AllCodable(FixedLit(), FixedDist(), ts) && Meaningful(out, ts)
    ensures BlockDecodes(before, FixedBits(before, ts, final), out, Expand(out, ts), final)
  {
    var after := FixedBits(before, ts, final);
    forall bits: seq<bool> | after <= bits
      ensures DecodeBlock(bits, |before|, out) == Some(BlockResult(final, |after|, Expand(out, ts)))
    {
      FixedBlockAt(bits, before, ts, final, out);
    }
  }

  lemma FixedFit()
    ensures Fits(FixedLit(), MAX_BITS) && Fits(FixedDist(), MAX_BITS) && FixedLit()[END_OF_BLOCK] > 0
  {
    hide FixedLit, FixedDist, Complete, Fits;
    FixedLitSums();
    FixedDistCodes(0);
    CompleteFits(FixedLit(), MAX_BITS, MAX_BITS);
    CompleteFits(FixedDist(), MAX_BITS, MAX_BITS);
  }

  lemma FixedBlockAt(bits: seq<bool>, before: seq<bool>, ts: seq<Token>, final: bool, out: seq<Byte>)
    requires AllCodable(FixedLit(), FixedDist(), ts) && Meaningful(out, ts)
    requires FixedBits(before, ts, final) <= bits
    ensures DecodeBlock(bits, |before|, out) == Some(BlockResult(final, |FixedBits(before, ts, final)|, Expand(out, ts)))
  {
    hide At, ReadBits, DataBits, KindBits, DecodeData, FixedLit, FixedDist, Fits, AllCodable, Meaningful, Expand, Pow2;
    var k, d := KindBits(STATIC_TREES, final), DataBits(FixedLit(), FixedDist(), ts);
    assert before + k <= bits;
    AtPrefix(bits, before, k);
    AtPrefix(bits, before + k, d);
    KindDecodes(bits, |before|, STATIC_TREES, final);
    FixedFit();
    DataDecodes(bits, |before| + 3, FixedLit(), FixedDist(), out, ts);
  }

  // ----- the header of a block with its own codes

  function ClBits(cl: seq<nat>, rank: nat, n: nat): seq<bool>
    requires |cl| == BL_CODES && rank <= n <= BL_CODES
    decreases n - rank
  {
    if rank == n then [] else ToBits(cl[Order(rank)], 3) + ClBits(cl, rank + 1, n)
  }

  // bl_order
  const BL_ORDER: seq<nat> := [16, 17, 18, 0, 8, 7, 9, 6, 10, 5, 11, 4, 12, 3, 13, 2, 14, 1, 15]

  function Order(rank: nat): (s: nat)
    requires rank < BL_CODES
    ensures s < BL_CODES
  {
    BL_ORDER[rank]
  }

  /** The table of the compressor has the order of the decoder. */
  lemma OrderIs(r: nat)
    requires r < BL_CODES
    ensures Order(r) == ClOrder(r)
  {
    assert r == 0 || r == 1 || r == 2 || r == 3 || r == 4 || r == 5 || r == 6 || r == 7 || r == 8 || r == 9 || r == 10
      || r == 11 || r == 12 || r == 13 || r == 14 || r == 15 || r == 16 || r == 17 || r == 18;
  }

  /** The order is a permutation. */
  lemma OrderCovers(s: nat) returns (r: nat)
    requires s < BL_CODES
    ensures r < BL_CODES && Order(r) == s
  {
    assert s == 0 || s == 1 || s == 2 || s == 3 || s == 4 || s == 5 || s == 6 || s == 7 || s == 8 || s == 9 || s == 10
      || s == 11 || s == 12 || s == 13 || s == 14 || s == 15 || s == 16 || s == 17 || s == 18;
    r := if s < 3 then [3, 17, 15][s] else if s < 8 then [13, 11, 9, 7, 5][s - 3]
         else [4, 6, 8, 10, 12, 14, 16, 18, 0, 1, 2][s - 8];
  }

  lemma OrderInjective(q: nat, r: nat)
    requires q < BL_CODES && r < BL_CODES && q != r
    ensures Order(q) != Order(r)
  {
    assert q == 0 || q == 1 || q == 2 || q == 3 || q == 4 || q == 5 || q == 6 || q == 7 || q == 8 || q == 9 || q == 10
      || q == 11 || q == 12 || q == 13 || q == 14 || q == 15 || q == 16 || q == 17 || q == 18;
  }

  /** What the decoder has of the code length code after `rank` entries. */
  ghost predicate ClSoFar(cl: seq<nat>, acc: seq<nat>, rank: nat, n: nat) {
    |cl| == BL_CODES && |acc| == BL_CODES && rank <= n <= BL_CODES
    && (forall r :: 0 <= r < rank ==> acc[Order(r)] == cl[Order(r)])
    && (forall r :: rank <= r < BL_CODES ==> acc[Order(r)] == 0)
    && (forall r :: n <= r < BL_CODES ==> cl[Order(r)] == 0)
  }

  lemma ClStep(cl: seq<nat>, acc: seq<nat>, rank: nat, n: nat)
    requires ClSoFar(cl, acc, rank, n) && rank < n
    ensures ClSoFar(cl, acc[Order(rank) := cl[Order(rank)]], rank + 1, n)
  {
    hide Order;
    forall r | 0 <= r < BL_CODES && r != rank ensures Order(r) != Order(rank) {
      OrderInjective(r, rank);
    }
  }

  lemma ClDone(cl: seq<nat>, acc: seq<nat>, n: nat)
    requires ClSoFar(cl, acc, n, n)
    ensures acc == cl
  {
    hide Order;
    forall s | 0 <= s < BL_CODES ensures acc[s] == cl[s] {
      var r := OrderCovers(s);
    }
  }

  lemma NoMoreCl(bits: seq<bool>, pos: nat, cl: seq<nat>, acc: seq<nat>, n: nat)
    requires |cl| == |acc| == BL_CODES && n <= BL_CODES
    ensures ClBits(cl, n, n) == [] && DecodeCl(bits, pos, n, n, acc) == Some((pos, acc))
  {
  }

  lemma ClFirst(bits: seq<bool>, pos: nat, cl: seq<nat>, rank: nat, n: nat)
    requires |cl| == BL_CODES && rank < n <= BL_CODES && At(bits, pos, ClBits(cl, rank, n))
    ensures At(bits, pos, ToBits(cl[Order(rank)], 3)) && At(bits, pos + 3, ClBits(cl, rank + 1, n))
    ensures |ClBits(cl, rank, n)| == 3 + |ClBits(cl, rank + 1, n)|
  {
    hide ToBits, Order, At;
    AtParts(bits, pos, ClBits(cl, rank, n), ToBits(cl[Order(rank)], 3), ClBits(cl, rank + 1, n));
  }

  lemma ReadCl(bits: seq<bool>, pos: nat, acc: seq<nat>, rank: nat, n: nat, x: nat)
    requires |acc| == BL_CODES && rank < n <= BL_CODES && ReadBits(bits, pos, 3) == Some((x, pos + 3))
    ensures DecodeCl(bits, pos, rank, n, acc) == DecodeCl(bits, pos + 3, rank + 1, n, acc[Order(rank) := x])
  {
    hide ReadBits, Order, ClOrder;
    OrderIs(rank);
  }

  lemma {:induction false} ClDecodes(bits: seq<bool>, pos: nat, cl: seq<nat>, acc: seq<nat>, rank: nat, n: nat)
    requires ClSoFar(cl, acc, rank, n) && (forall s :: 0 <= s < BL_CODES ==> cl[s] < 8)
    requires At(bits, pos, ClBits(cl, rank, n))
    ensures DecodeCl(bits, pos, rank, n, acc) == Some((pos + |ClBits(cl, rank, n)|, cl))
    decreases n - rank
  {
    hide *;
    ClSizes(cl, acc, rank, n);
    if rank == n {
      ClDone(cl, acc, n);
      NoMoreCl(bits, pos, cl, acc, n);
    } else {
      var x := cl[Order(rank)];
      EightFits(x);
      ClFirst(bits, pos, cl, rank, n);
      ReadBitsCorrect(bits, pos, x, 3);
      ReadCl(bits, pos, acc, rank, n, x);
      ClStep(cl, acc, rank, n);
      ClDecodes(bits, pos + 3, cl, acc[Order(rank) := x], rank + 1, n);
    }
  }

  lemma ClSizes(cl: seq<nat>, acc: seq<nat>, rank: nat, n: nat)
    requires ClSoFar(cl, acc, rank, n)
    ensures |cl| == BL_CODES && |acc| == BL_CODES && rank <= n <= BL_CODES
  {
  }

  lemma EightFits(x: nat)
    requires x < 8
    ensures x < Pow2(3)
  {
    Pow2Values();
  }

  /** The lengths of a dynamic block's codes, ready to be sent. */
  ghost predicate Sendables(ll: seq<nat>, dd: seq<nat>, cl: seq<nat>, n: nat) {
    257 <= |ll| <= 286 && 1 <= |dd| <= 30 && 4 <= n <= BL_CODES && |cl| == BL_CODES
    && Complete(ll, MAX_BITS) && Complete(dd, MAX_BITS) && Complete(cl, 7) && ll[END_OF_BLOCK] > 0
    && AllSendable(cl, Ops(ll) + Ops(dd))
    && forall r :: n <= r < BL_CODES ==> cl[Order(r)] == 0
  }

  function CountBits(l: nat, d: nat, n: nat): (b: seq<bool>)
    requires l >= 257 && d >= 1 && n >= 4
    ensures |b| == 14
  {
    ToBits(l - 257, 5) + ToBits(d - 1, 5) + ToBits(n - 4, 4)
  }

  function HeaderBits(ll: seq<nat>, dd: seq<nat>, cl: seq<nat>, n: nat): seq<bool>
    requires Sendables(ll, dd, cl, n)
  {
    CountBits(|ll|, |dd|, n) + ClBits(cl, 0, n) + OpsBits(cl, Ops(ll) + Ops(dd))
  }

  lemma CountsDecode(bits: seq<bool>, pos: nat, l: nat, d: nat, n: nat)
    requires 257 <= l <= 286 && 1 <= d <= 30 && 4 <= n <= 19 && At(bits, pos, CountBits(l, d, n))
    ensures ReadBits(bits, pos, 5) == Some((l - 257, pos + 5))
    ensures ReadBits(bits, pos + 5, 5) == Some((d - 1, pos + 10))
    ensures ReadBits(bits, pos + 10, 4) == Some((n - 4, pos + 14))
  {
    CountsFit(l, d, n);
    var a, b, c := ToBits(l - 257, 5), ToBits(d - 1, 5), ToBits(n - 4, 4);
    assert CountBits(l, d, n) == (a + b) + c;
    hide *;
    AtConcat(bits, pos, a + b, c);
    AtConcat(bits, pos, a, b);
    ReadBitsCorrect(bits, pos, l - 257, 5);
    ReadBitsCorrect(bits, pos + 5, d - 1, 5);
    ReadBitsCorrect(bits, pos + 10, n - 4, 4);
  }

  lemma CountsFit(l: nat, d: nat, n: nat)
    requires 257 <= l <= 286 && 1 <= d <= 30 && 4 <= n <= 19
    ensures l - 257 < Pow2(5) && d - 1 < Pow2(5) && n - 4 < Pow2(4)
  {
    Pow2Values();
  }

  lemma ClStart(cl: seq<nat>, n: nat)
    requires |cl| == BL_CODES && n <= BL_CODES && (forall r :: n <= r < BL_CODES ==> cl[Order(r)] == 0) && Complete(cl, 7)
    ensures ClSoFar(cl, Repeat(0, 19), 0, n) && (forall s :: 0 <= s < BL_CODES ==> cl[s] < 8)
  {
    hide Order, Kraft;
  }

  lemma BothOps(ll: seq<nat>, dd: seq<nat>)
    requires Complete(ll, MAX_BITS) && Complete(dd, MAX_BITS)
    ensures Acceptable([], Ops(ll) + Ops(dd)) && OpsLens([], Ops(ll) + Ops(dd)) == ll + dd
  {
    hide Kraft, Ops, Acceptable, OpsLens;
    OpsRoundTrip([], ll);
    assert [] + ll == ll;
    OpsRoundTrip(ll, dd);
    OpsConcat([], Ops(ll), Ops(dd));
  }

  /** The header decodes to exactly the two codes that were sent. */
  lemma HeaderDecodes(bits: seq<bool>, pos: nat, ll: seq<nat>, dd: seq<nat>, cl: seq<nat>, n: nat)
    requires Sendables(ll, dd, cl, n) && At(bits, pos, HeaderBits(ll, dd, cl, n))
    ensures DecodeHeader(bits, pos) == Some((pos + |HeaderBits(ll, dd, cl, n)|, ll, dd))
  {
    hide At, ReadBits, ClBits, OpsBits, Ops, DecodeCl, DecodeLens, Complete, CountBits, Order, Repeat, Acceptable, OpsLens, Fits;
    var a, b, c := CountBits(|ll|, |dd|, n), ClBits(cl, 0, n), OpsBits(cl, Ops(ll) + Ops(dd));
    AtConcat(bits, pos, a + b, c);
    AtConcat(bits, pos, a, b);
    CountsDecode(bits, pos, |ll|, |dd|, n);
    ClStart(cl, n);
    ClDecodes(bits, pos + 14, cl, Repeat(0, 19), 0, n);
    BothOps(ll, dd);
    CompleteFits(cl, 7, 7);
    OpsDecode(bits, pos + |a + b|, cl, Ops(ll) + Ops(dd), |ll| + |dd|, []);
    HeaderSteps(bits, pos, ll, dd, cl, n, pos + 14 + |b|, pos + 14 + |b| + |c|);
  }

  lemma HeaderSteps(bits: seq<bool>, pos: nat, ll: seq<nat>, dd: seq<nat>, cl: seq<nat>, n: nat, p: nat, q: nat)
    requires 257 <= |ll| <= 286 && 1 <= |dd| <= 30 && 4 <= n <= BL_CODES && |cl| == BL_CODES
    requires Complete(ll, MAX_BITS) && Complete(dd, MAX_BITS) && Complete(cl, 7) && ll[END_OF_BLOCK] > 0
    requires ReadBits(bits, pos, 5) == Some((|ll| - 257, pos + 5))
    requires ReadBits(bits, pos + 5, 5) == Some((|dd| - 1, pos + 10))
    requires ReadBits(bits, pos + 10, 4) == Some((n - 4, pos + 14))
    requires DecodeCl(bits, pos + 14, 0, n, Repeat(0, 19)) == Some((p, cl))
    requires DecodeLens(bits, p, cl, |ll| + |dd|, []) == Some((q, ll + dd))
    ensures DecodeHeader(bits, pos) == Some((q, ll, dd))
  {
    hide ReadBits, DecodeCl, DecodeLens, Complete, Repeat;
    assert (ll + dd)[..|ll|] == ll && (ll + dd)[|ll|..] == dd;
  }

  // ----- blocks with their own codes

  function DynamicBits(before: seq<bool>, ll: seq<nat>, dd: seq<nat>, cl: seq<nat>, n: nat, ts: seq<Token>, final: bool): seq<bool>
    requires Sendables(ll, dd, cl, n) && AllCodable(ll, dd, ts)
  {
    before + KindBits(DYN_TREES, final) + HeaderBits(ll, dd, cl, n) + DataBits(ll, dd, ts)
  }

  lemma DynamicDecodes(before: seq<bool>, ll: seq<nat>, dd: seq<nat>, cl: seq<nat>, n: nat, ts: seq<Token>, final: bool, out: seq<Byte>)
    requires Sendables(ll, dd, cl, n) && AllCodable(ll, dd, ts) && Meaningful(out, ts)
    ensures BlockDecodes(before, DynamicBits(before, ll, dd, cl, n, ts, final), out, Expand(out, ts), final)
  {
    var after := DynamicBits(before, ll, dd, cl, n, ts, final);
    forall bits: seq<bool> | after <= bits
      ensures DecodeBlock(bits, |before|, out) == Some(BlockResult(final, |after|, Expand(out, ts)))
    {
      DynamicBlockAt(bits, before, ll, dd, cl, n, ts, final, out);
    }
  }

  lemma DynamicBlockAt(bits: seq<bool>, before: seq<bool>, ll: seq<nat>, dd: seq<nat>, cl: seq<nat>, n: nat, ts: seq<Token>,
                       final: bool, out: seq<Byte>)
    requires Sendables(ll, dd, cl, n) && AllCodable(ll, dd, ts) && Meaningful(out, ts)
    requires DynamicBits(before, ll, dd, cl, n, ts, final) <= bits
    ensures DecodeBlock(bits, |before|, out)
         == Some(BlockResult(final, |DynamicBits(before, ll, dd, cl, n, ts, final)|, Expand(out, ts)))
  {
    hide At, ReadBits, DataBits, KindBits, HeaderBits, DecodeHeader, DecodeData, Complete, Fits, AllCodable, Meaningful, Expand,
         AllSendable, Ops, Order;
    var k, h, d := KindBits(DYN_TREES, final), HeaderBits(ll, dd, cl, n), DataBits(ll, dd, ts);
    assert before + k <= bits;
    AtPrefix(bits, before, k);
    assert before + k + h <= bits;
    AtPrefix(bits, before + k, h);
    AtPrefix(bits, before + k + h, d);
    KindDecodes(bits, |before|, DYN_TREES, final);
    HeaderDecodes(bits, |before| + 3, ll, dd, cl, n);
    CompleteFits(ll, MAX_BITS, MAX_BITS);
    CompleteFits(dd, MAX_BITS, MAX_BITS);
    DataDecodes(bits, |before| + 3 + |h|, ll, dd, out, ts);
  }

  // ----- whole streams

  /** After some blocks that are not final, the decoder has got from the end of `head`
      to the end of `sent` with `out`. */
  ghost predicate Emitted(head: seq<bool>, sent: seq<bool>, out: seq<Byte>) {
    head <= sent
    && forall bits: seq<bool> :: sent <= bits ==> Decode(bits, |head|, []) == Decode(bits, |sent|, out)
  }

  lemma EmittedStart(head: seq<bool>)
    ensures Emitted(head, head, [])
  {
  }

  lemma EmittedBlock(head: seq<bool>, sent: seq<bool>, out: seq<Byte>, after: seq<bool>, out': seq<Byte>)
    requires Emitted(head, sent, out) && BlockDecodes(sent, after, out, out', false) && sent <= after
    ensures Emitted(head, after, out')
  {
    hide DecodeBlock;
    PrefixTrans(head, sent, after);
    forall bits: seq<bool> | after <= bits ensures Decode(bits, |head|, []) == Decode(bits, |after|, out') {
      PrefixTrans(sent, after, bits);
      assert DecodeBlock(bits, |sent|, out) == Some(BlockResult(false, |after|, out'));
      assert Decode(bits, |head|, []) == Decode(bits, |sent|, out);
    }
  }

  lemma PrefixTrans<T>(a: seq<T>, b: seq<T>, c: seq<T>)
    requires a <= b <= c
    ensures a <= c
  {
    assert c[..|b|] == b && c[..|a|] == b[..|a|];
  }

  /** With the final block the whole stream decodes. */
  lemma EmittedFinal(head: seq<bool>, sent: seq<bool>, out: seq<Byte>, after: seq<bool>, out': seq<Byte>, bits: seq<bool>)
    requires Emitted(head, sent, out) && BlockDecodes(sent, after, out, out', true) && sent <= after <= bits
    ensures Decode(bits, |head|, []) == Some((|after|, out'))
  {
    hide DecodeBlock;
    PrefixTrans(sent, after, bits);
    assert DecodeBlock(bits, |sent|, out) == Some(BlockResult(true, |after|, out'));
  }
}
