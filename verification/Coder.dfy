/** The coding half of the compressor: ct_tally collects tokens, flush_block
    writes them as one block of whichever kind is shortest. */
module Coding {
  import opened Bits
  import opened Canonical
  import opened Inflate
  import opened Tokens
  import opened BitWriting
  import opened TreeCoding
  import opened RunLengths
  import opened Combining
  import opened BitLengths
  import opened Tables
  import opened Blocks
  import opened Accounting
  import opened Buffers
  import opened Sending
  import opened DynamicTrees
  import opened Guessing

  lemma TallyLit(ts: seq<Token>, t: Token, fcL: seq<nat>, fcD: seq<nat>, fcB: seq<nat>)
    requires Tallied(ts, fcL, fcD, fcB) && t.Lit?
    ensures t.b < |fcL| && Tallied(ts + [t], fcL[t.b := fcL[t.b] + 1], fcD, fcB)
  {
    CountsSnoc(ts, t);
  }

  lemma TallyMatch(ts: seq<Token>, t: Token, fcL: seq<nat>, fcD: seq<nat>, fcB: seq<nat>)
    requires Tallied(ts, fcL, fcD, fcB) && t.Match? && WellFormed(t)
    ensures Sym(t) < |fcL| && DistCode(t.dist) < |fcD|
    ensures Tallied(ts + [t], fcL[Sym(t) := fcL[Sym(t)] + 1], fcD[DistCode(t.dist) := fcD[DistCode(t.dist)] + 1], fcB)
  {
    hide LenCode, DistCode;
    CountsSnoc(ts, t);
  }

  lemma CodeLookup(st: Constants, lc: Byte, dist: nat)
    requires st.Valid() && 1 <= dist <= 32768
    ensures |st.lengthCode| == 256 && |st.distCode| == 512
    ensures st.lengthCode[lc] + END_OF_BLOCK + 1 == Sym(Match(lc + MIN_MATCH, dist))
    ensures DCode(st.distCode, dist - 1) == DistCode(dist)
  {
    hide LenCode, DistCode, Coded, DCode;
  }

  lemma EighthToken(n: nat, f: nat)
    requires 8 * f <= n < 8 * f + 8
    ensures (n + 1) % 8 == 0 <==> n + 1 == 8 * f + 8
  {
  }

  function TokenOf(dist: nat, lc: Byte): (t: Token)
    requires dist <= 32768
    ensures WellFormed(t) && (t.Match? <==> dist != 0)
  {
    if dist == 0 then Lit(lc) else Match(lc + MIN_MATCH, dist)
  }

  lemma TokenParts(dist: nat, lc: Byte)
    requires dist <= 32768
    ensures TokenOf(dist, lc).Lit? ==> TokenOf(dist, lc).b == lc
    ensures TokenOf(dist, lc).Match? ==> TokenOf(dist, lc).len - MIN_MATCH == lc && TokenOf(dist, lc).dist == dist
  {
  }

  lemma BufferSizes(ts: seq<Token>, lBuf: seq<Byte>, dBuf: seq<nat>, flagBuf: seq<Byte>,
                    lastLit: nat, lastDist: nat, lastFlags: nat, flags: nat, flagBit: nat)
    requires Buffered(ts, lBuf, dBuf, flagBuf, lastLit, lastDist, lastFlags, flags, flagBit)
    ensures lastDist <= lastLit == |ts| < LIT_BUFSIZE && 8 * lastFlags <= lastLit < 8 * lastFlags + 8
    ensures lastFlags < LIT_BUFSIZE / 8 && flags < 256 && AllWell(ts)
  {
    FlagByteBound(ts, lastFlags);
    hide FlagByte;
    forall i | 0 <= i < |ts| ensures WellFormed(ts[i]) {
      assert Stored(ts[i], lBuf[i], dBuf, Matches(ts[..i]));
    }
  }

  /** Once the last flags are in their buffer as well, everything can be sent. */
  lemma PackedFrom(ts: seq<Token>, lBuf: seq<Byte>, dBuf: seq<nat>, flagBuf: seq<Byte>,
                   lastLit: nat, lastDist: nat, lastFlags: nat, flags: nat, flagBit: nat)
    requires Buffered(ts, lBuf, dBuf, flagBuf, lastLit, lastDist, lastFlags, flags, flagBit)
    requires lastFlags < |flagBuf| && flags < 256
    ensures Packed(ts, lBuf, dBuf, flagBuf[lastFlags := flags])
  {
    hide FlagByte, Stored;
  }

  lemma {:induction false} ExpandBound(out: seq<Byte>, ts: seq<Token>)
    requires Meaningful(out, ts)
    ensures |out| <= |Expand(out, ts)| <= |out| + MAX_MATCH * |ts|
    decreases |ts|
  {
    if ts != [] {
      ExpandBound(Apply(out, ts[0]), ts[1..]);
    }
  }

  lemma KindFits(kind: nat, final: bool)
    requires kind == STORED_BLOCK || kind == STATIC_TREES || kind == DYN_TREES
    ensures kind * 2 + (if final then 1 else 0) < Pow2(3)
    ensures KindBits(kind, final) == ToBits(kind * 2 + (if final then 1 else 0), 3)
  {
    Pow2Values();
  }

  /** The tables of ct_init: length and distance codes, and the fixed codes. */
  method InitConstants(blCount: array<nat>) returns (st: Constants)
    requires blCount.Length == MAX_BITS + 1 && forall b :: 0 <= b <= MAX_BITS ==> blCount[b] == 0
    modifies blCount
    ensures st.Valid()
  {
    hide LengthTables, DistTables, CodeTree.Ready, FixedLit, FixedDist, Coded;
    var lengthCode, baseLength := InitLengths();
    var distCode, baseDist := InitDistances();
    var fs, ds := InitStaticLit(blCount);
    var fd, dd := InitStaticDist();
    FixedReady(fs[..], ds[..], fd[..], dd[..]);
    st := Constants(lengthCode[..], baseLength[..], distCode[..], baseDist[..],
                    CodeTree(fs[..], ds[..]), CodeTree(fd[..], dd[..]));
  }

  class Coder {
    const w: BitWriter
    const trees: Trees
    const st: Constants
    const lBuf: array<Byte>
    const dBuf: array<nat>
    const flagBuf: array<Byte>
    var lastLit: nat
    var lastDist: nat
    var lastFlags: nat
    var flags: nat
    var flagBit: nat
    ghost var tokens: seq<Token>  // what the buffers hold

    ghost predicate Apart() {
      lBuf.Length == LIT_BUFSIZE && dBuf.Length == LIT_BUFSIZE && flagBuf.Length == LIT_BUFSIZE / 8
      && lBuf !in {flagBuf, w.outbuf} && flagBuf != w.outbuf && dBuf !in trees.Repr && trees.Apart() && st.Valid()
    }

    ghost predicate Pending()
      reads this, lBuf, dBuf, flagBuf
    {
      Buffered(tokens, lBuf[..], dBuf[..], flagBuf[..], lastLit, lastDist, lastFlags, flags, flagBit)
    }

    ghost predicate Valid()
      reads this, w, lBuf, dBuf, flagBuf, trees.Repr
    {
      Apart() && w.Valid() && Pending() && trees.Counts(tokens) && trees.counters.optLen == trees.counters.staticLen == 0
    }

    /** ct_init: the constant tables, the fixed codes, and an empty first block. */
    constructor (w: BitWriter)
      requires w.Valid()
      ensures Valid() && this.w == w && tokens == []
      ensures fresh(trees.Repr) && fresh(lBuf) && fresh(dBuf) && fresh(flagBuf)
    {
      hide Constants.Valid, Buffered, Tallied, Pow2;
      this.w := w;
      var count := new nat[MAX_BITS + 1](_ => 0);
      var tables := InitConstants(count);
      st := tables;
      trees := new Trees(count);
      lBuf, dBuf, flagBuf := new Byte[LIT_BUFSIZE], new nat[LIT_BUFSIZE], new Byte[LIT_BUFSIZE / 8];
      new;
      InitBlock();
    }

    /** init_block: counts and buffers of an empty block. */
    method InitBlock()
      requires Apart() && w.Valid()
      modifies this, trees.fcL, trees.fcD, trees.fcB, trees.counters
      ensures Valid() && tokens == []
    {
      hide Constants.Valid, Buffered, Pow2, Tallied;
      trees.Reset();
      lastLit, lastDist, lastFlags := 0, 0, 0;
      flags := 0;
      flagBit := 1;
      tokens := [];
      BufferedNone(lBuf[..], dBuf[..], flagBuf[..]);
    }

    // ----- ct_tally

    /** The guess whether it pays to end the block. */
    method Guess(strstart: nat, blockStart: int) returns (flush: bool)
      requires lastLit == |tokens| < LIT_BUFSIZE && lastDist == Matches(tokens) && AllWell(tokens) && lastLit % 0x1000 == 0
      requires trees.fcD.Length >= DIST_CODES && forall d: nat :: d < DIST_CODES ==> trees.fcD[d] == DistCount(tokens, d)
      ensures flush == Promising(tokens, U32(strstart - blockStart))
    {
      hide GuessUpTo, GuessBits, DistCount, DistExtra, ExtraDBits, U32, Matches, WellFormed;
      GuessBySymbols(tokens);
      GuessStart(tokens);
      NoWrap(8 * lastLit);
      var outLength: Word := U32(lastLit * 8);
      var inLength := U32(strstart - blockStart);
      for dcode := 0 to DIST_CODES
        invariant outLength == GuessUpTo(tokens, dcode)
      {
        ExtraDIs(dcode);
        GuessStep(tokens, dcode);
        GuessBelow(tokens, dcode + 1);
        NoWrap(GuessUpTo(tokens, dcode + 1));
        outLength := U32(outLength + trees.fcD[dcode] * (5 + ExtraDBits(dcode)));
      }
      outLength := outLength / 8;
      flush := lastDist < lastLit / 2 && outLength < inLength / 2;
    }

    /** Saves a token and counts its symbols; true if the block must be flushed, because the
        buffers are full or because it seems to pay. */
    method CtTally(dist: nat, lc: Byte, strstart: nat, blockStart: int) returns (flush: bool)
      requires Valid() && lastLit + 1 < LIT_BUFSIZE && dist <= 32768
      modifies this, lBuf, dBuf, flagBuf, trees.fcL, trees.fcD
      ensures Valid() && tokens == old(tokens) + [TokenOf(dist, lc)]
      ensures lastLit == old(lastLit) + 1 == |tokens| && w.Sent() == old(w.Sent())
      ensures AllWell(tokens) && (flush <==> |tokens| == LIT_BUFSIZE - 1 || Promising(tokens, U32(strstart - blockStart)))
    {
      hide Buffered, Tallied, Constants.Valid, TokenOf, Promising, AllWell, U32;
      BufferSizes(tokens, lBuf[..], dBuf[..], flagBuf[..], lastLit, lastDist, lastFlags, flags, flagBit);
      Count(dist, lc);
      Store(dist, lc);
      ToGuess();
      if lastLit % 0x1000 != 0 {
        NotPromising(tokens, U32(strstart - blockStart));
      }
      if lastLit % 0x1000 == 0 {
        var guess := Guess(strstart, blockStart);
        if guess {
          return true;
        }
      }
      flush := lastLit == LIT_BUFSIZE - 1 || lastDist == LIT_BUFSIZE;
    }

    lemma ToGuess()
      requires Valid()
      ensures lastLit == |tokens| < LIT_BUFSIZE && lastDist == Matches(tokens) <= |tokens| && AllWell(tokens)
      ensures trees.fcD.Length >= DIST_CODES && forall d: nat :: d < DIST_CODES ==> trees.fcD[d] == DistCount(tokens, d)
    {
      hide StoredAll, Grouped, FlagByte, AllWell, DistCount, LitCount, Matches, Constants.Valid;
      BufferSizes(tokens, lBuf[..], dBuf[..], flagBuf[..], lastLit, lastDist, lastFlags, flags, flagBit);
    }

    lemma StoreSizes()
      requires Apart() && Pending()
      ensures lBuf.Length == LIT_BUFSIZE == dBuf.Length && flagBuf.Length == LIT_BUFSIZE / 8 && lBuf != flagBuf
      ensures Buffered(tokens, lBuf[..], dBuf[..], flagBuf[..], lastLit, lastDist, lastFlags, flags, flagBit)
    {
      hide Buffered, Constants.Valid, Trees.Apart;
    }

    lemma PendingFrom()
      requires Buffered(tokens, lBuf[..], dBuf[..], flagBuf[..], lastLit, lastDist, lastFlags, flags, flagBit)
      ensures Pending()
    {
    }

    /** The buffer half of ct_tally. */
    method Store(dist: nat, lc: Byte)
      requires Apart() && Pending() && lastLit + 1 < LIT_BUFSIZE && dist <= 32768
      modifies this, lBuf, dBuf, flagBuf
      ensures Pending() && tokens == old(tokens) + [TokenOf(dist, lc)] && lastLit == old(lastLit) + 1
    {
      hide *;
      StoreSizes();
      TokenParts(dist, lc);
      ghost var t := TokenOf(dist, lc);
      ghost var ts, ls, ds, fs := tokens, lBuf[..], dBuf[..], flagBuf[..];
      ghost var lit0, dist0, flags0, fl0, bit0 := lastLit, lastDist, lastFlags, flags, flagBit;
      BufferSizes(ts, ls, ds, fs, lit0, dist0, flags0, fl0, bit0);
      lBuf[lastLit] := lc;
      lastLit := lastLit + 1;
      if dist != 0 {
        dBuf[lastDist] := dist - 1;
        lastDist := lastDist + 1;
        flags := BitOr(flags, flagBit);
      }
      flagBit := flagBit * 2;
      tokens := ts + [t];
      EighthToken(lit0, flags0);
      if lastLit % 8 == 0 {
        BufferEighth(ts, t, ls, ds, fs, lit0, dist0, flags0, fl0, bit0, lBuf[..], dBuf[..], flags, lc);
        flagBuf[lastFlags] := flags;
        lastFlags := lastFlags + 1;
        flags := 0;
        flagBit := 1;
      } else {
        BufferToken(ts, t, ls, ds, fs, lit0, dist0, flags0, fl0, bit0, lBuf[..], dBuf[..], flags, lc);
      }
      PendingFrom();
    }

    /** The counting half of ct_tally. */
    method Count(dist: nat, lc: Byte)
      requires Apart() && trees.Counts(tokens) && dist <= 32768
      modifies trees.fcL, trees.fcD
      ensures trees.Counts(tokens + [TokenOf(dist, lc)])
    {
      hide Tallied, LenCode, DistCode, Constants.Valid, DCode;
      ghost var fl, fd, t := trees.fcL[..], trees.fcD[..], TokenOf(dist, lc);
      if dist == 0 {
        TallyLit(tokens, t, fl, fd, trees.fcB[..]);
        trees.fcL[lc] := trees.fcL[lc] + 1;
        assert trees.fcL[..] == fl[lc := fl[lc] + 1];
      } else {
        TallyMatch(tokens, t, fl, fd, trees.fcB[..]);
        CodeLookup(st, lc, dist);
        var lcode := st.lengthCode[lc] + END_OF_BLOCK + 1;
        var dcode := DCode(st.distCode, dist - 1);
        trees.fcL[lcode] := trees.fcL[lcode] + 1;
        trees.fcD[dcode] := trees.fcD[dcode] + 1;
        assert trees.fcL[..] == fl[lcode := fl[lcode] + 1] && trees.fcD[..] == fd[dcode := fd[dcode] + 1];
      }
    }

    // ----- flush_block

    /** What flush_block knows when it has built its trees. */
    ghost predicate Built(ts: seq<Token>, ll: seq<nat>, dd: seq<nat>, n: nat)
      reads trees.Repr, lBuf, dBuf, flagBuf
    {
      trees.Apart()
      && AllTrees(ts, CodeTree(trees.fcL[..], trees.dlL[..]), CodeTree(trees.fcD[..], trees.dlD[..]),
                  CodeTree(trees.fcB[..], trees.dlB[..]), ll, dd, n)
      && st.Valid() && Packed(ts, lBuf[..], dBuf[..], flagBuf[..])
      && AllCodable(ll, dd, ts) && END_OF_BLOCK < |ll| && Sendables(ll, dd, trees.dlB[..BL_CODES], n)
      && trees.counters.optLen == |HeaderBits(ll, dd, trees.dlB[..BL_CODES], n)| + |DataBits(ll, dd, ts)| < 1_500_000
      && AllCodable(FixedLit(), FixedDist(), ts) && END_OF_BLOCK < |FixedLit()|
      && trees.counters.staticLen == |DataBits(FixedLit(), FixedDist(), ts)| < 300_000
    }

    /** The first half of flush_block: the trees and the two lengths. */
    method BuildTrees() returns (maxL: nat, maxD: nat, maxBlindex: nat, ghost ll: seq<nat>, ghost dd: seq<nat>)
      requires Valid()
      modifies trees.Repr, flagBuf
      ensures maxL + 1 == |ll| && maxD + 1 == |dd| && Built(tokens, ll, dd, maxBlindex + 1)
    {
      hide Buffered, Tallied, Constants.Valid, AllCodable, AllTrees, MainTrees, Sendables, DataBits, HeaderBits, CodeTree.Ready, Packed, AllWell,
           FixedLit, FixedDist;
      ghost var fs: seq<Byte> := flagBuf[..];
      BufferSizes(tokens, lBuf[..], dBuf[..], fs, lastLit, lastDist, lastFlags, flags, flagBit);
      PackedFrom(tokens, lBuf[..], dBuf[..], fs, lastLit, lastDist, lastFlags, flags, flagBit);
      flagBuf[lastFlags] := flags;
      assert flagBuf[..] == fs[lastFlags := flags];
      TalliedParts(tokens, trees.fcL[..], trees.fcD[..], trees.fcB[..]);
      maxL, maxD := trees.BuildMain(tokens);
      ll, dd := trees.dlL[..maxL + 1], trees.dlD[..maxD + 1];
      maxBlindex := trees.BuildBlTree(maxL, maxD, tokens, ll, dd);
    }

    /** A block of the bytes themselves. */
    method EmitStored(buf: array<Byte>, start: nat, storedLen: nat, eof: bool, ghost out: seq<Byte>)
      requires w.Valid() && buf != w.outbuf && start + storedLen <= buf.Length && storedLen < 0x1_0000
      modifies w`outcnt, w`file, w`biBuf, w`biValid, w.outbuf
      ensures w.Valid() && old(w.Sent()) <= w.Sent()
      ensures BlockDecodes(old(w.Sent()), w.Sent(), out, out + old(buf[start..start + storedLen]), eof)
      ensures |w.Sent()| <= |old(w.Sent())| + 8 * (storedLen + 4) + 10
    {
      hide *;
      ghost var before, data := w.Sent(), buf[start..start + storedLen];
      KindFits(STORED_BLOCK, eof);
      w.SendBits(STORED_BLOCK * 2 + (if eof then 1 else 0), 3);
      w.CopyBlock(buf, start, storedLen);
      StoredSent(before, data, eof, out, w.Sent());
    }

    /** A block with the fixed codes. */
    method EmitStatic(eof: bool, ghost out: seq<Byte>, ghost ll: seq<nat>, ghost dd: seq<nat>, ghost n: nat)
      requires Apart() && w.Valid() && Built(tokens, ll, dd, n) && lastLit == |tokens| && Meaningful(out, tokens)
      modifies w`outcnt, w`file, w`biBuf, w`biValid, w.outbuf
      ensures w.Valid() && old(w.Sent()) <= w.Sent()
      ensures BlockDecodes(old(w.Sent()), w.Sent(), out, Expand(out, tokens), eof)
      ensures |w.Sent()| == |old(w.Sent())| + 3 + trees.counters.staticLen
    {
      hide *;
      ghost var before, ts := w.Sent(), tokens;
      var ls, ds, fs := lBuf[..], dBuf[..], flagBuf[..];
      MainOf(ll, dd, n);
      CanSendFixed(ts, st);
      KindFits(STATIC_TREES, eof);
      w.SendBits(STATIC_TREES * 2 + (if eof then 1 else 0), 3);
      CompressBlock(w, st, ls, ds, fs, lastLit, st.ltree, st.dtree, FixedLit(), FixedDist(), ts);
      FixedSent(before, ts, eof, out, w.Sent());
    }

    /** A block with its own codes. */
    method EmitDynamic(maxL: nat, maxD: nat, maxBlindex: nat, eof: bool,
                       ghost out: seq<Byte>, ghost ll: seq<nat>, ghost dd: seq<nat>)
      requires Apart() && w.Valid() && Built(tokens, ll, dd, maxBlindex + 1) && lastLit == |tokens| && Meaningful(out, tokens)
      requires maxL + 1 == |ll| && maxD + 1 == |dd|
      modifies w`outcnt, w`file, w`biBuf, w`biValid, w.outbuf
      ensures w.Valid() && old(w.Sent()) <= w.Sent()
      ensures BlockDecodes(old(w.Sent()), w.Sent(), out, Expand(out, tokens), eof)
      ensures |w.Sent()| == |old(w.Sent())| + 3 + trees.counters.optLen
    {
      hide *;
      MainOf(ll, dd, maxBlindex + 1);
      ghost var before, ts, cl := w.Sent(), tokens, trees.dlB[..BL_CODES];
      var ls, ds, fs := lBuf[..], dBuf[..], flagBuf[..];
      var ltree, dtree := CodeTree(trees.fcL[..], trees.dlL[..]), CodeTree(trees.fcD[..], trees.dlD[..]);
      KindFits(DYN_TREES, eof);
      w.SendBits(DYN_TREES * 2 + (if eof then 1 else 0), 3);
      trees.SendAllTrees(w, maxL + 1, maxD + 1, maxBlindex + 1, ts, ll, dd);
      CompressBlock(w, st, ls, ds, fs, lastLit, ltree, dtree, ll, dd, ts);
      DynamicSent(before, ll, dd, cl, maxBlindex + 1, ts, eof, out, w.Sent());
    }

    lemma MainOf(ll: seq<nat>, dd: seq<nat>, n: nat)
      requires Apart() && Built(tokens, ll, dd, n)
      ensures AllCodable(FixedLit(), FixedDist(), tokens) && lBuf != w.outbuf && flagBuf != w.outbuf
      ensures CanSend(CodeTree(trees.fcL[..], trees.dlL[..]), CodeTree(trees.fcD[..], trees.dlD[..]), ll, dd, tokens)
      ensures END_OF_BLOCK < |ll| && END_OF_BLOCK < |FixedLit()|
      ensures trees.counters.optLen == |HeaderBits(ll, dd, trees.dlB[..BL_CODES], n)| + |DataBits(ll, dd, tokens)|
      ensures trees.counters.staticLen == |DataBits(FixedLit(), FixedDist(), tokens)|
      ensures trees.Apart() && st.Valid() && Packed(tokens, lBuf[..], dBuf[..], flagBuf[..]) && trees.dlB.Length >= BL_CODES
      ensures AllTrees(tokens, CodeTree(trees.fcL[..], trees.dlL[..]), CodeTree(trees.fcD[..], trees.dlD[..]),
                       CodeTree(trees.fcB[..], trees.dlB[..]), ll, dd, n)
      ensures Sendables(ll, dd, trees.dlB[..BL_CODES], n) && AllCodable(ll, dd, tokens)
    {
      hide CanSend, Sendables, AllCodable, Constants.Valid, Packed, HeaderBits, DataBits, Guarded, CodeTable, Complete;
    }

    /** The second half of flush_block: the cheapest kind of block. */
    method EmitBlock(buf: array<Byte>, start: int, storedLen: nat, eof: bool, maxL: nat, maxD: nat, maxBlindex: nat,
                     ghost out: seq<Byte>, ghost ll: seq<nat>, ghost dd: seq<nat>)
      requires Meaningful(out, tokens) && |Expand(out, tokens)| == |out| + storedLen
      requires start >= 0 ==> start + storedLen <= buf.Length && Expand(out, tokens) == out + buf[start..start + storedLen]
      requires maxL + 1 == |ll| && maxD + 1 == |dd| && lastLit == |tokens| < LIT_BUFSIZE && buf != w.outbuf
      requires Apart() && w.Valid() && Built(tokens, ll, dd, maxBlindex + 1)
      modifies w`outcnt, w`file, w`biBuf, w`biValid, w.outbuf
      ensures w.Valid() && old(w.Sent()) <= w.Sent()
      ensures BlockDecodes(old(w.Sent()), w.Sent(), out, Expand(out, old(tokens)), eof)
      ensures var used := |w.Sent()| - |old(w.Sent())|;
              used <= Whole(trees.counters.optLen) + 10 && used <= Whole(trees.counters.staticLen) + 10
              && (start >= 0 ==> used <= 8 * (storedLen + 4) + 10)
    {
      hide *;
      ghost var opt, stat := trees.counters.optLen, trees.counters.staticLen;
      MainOf(ll, dd, maxBlindex + 1);
      Lengths(ll, dd, maxBlindex + 1);
      BytesNoWrap(opt);
      BytesNoWrap(stat);
      StoredNoWrap(out, tokens, storedLen);
      var optLenb := U32(trees.counters.optLen + 3 + 7) / 8;
      var staticLenb := U32(trees.counters.staticLen + 3 + 7) / 8;
      if staticLenb <= optLenb {
        optLenb := staticLenb;
      }
      if U32(storedLen + 4) <= optLenb && start >= 0 {
        PriceStored(opt, stat, storedLen + 4);
        EmitStored(buf, start, storedLen, eof, out);
      } else if staticLenb == optLenb {
        PriceStatic(opt, stat, storedLen + 4);
        EmitStatic(eof, out, ll, dd, maxBlindex + 1);
      } else {
        PriceDynamic(opt, stat, storedLen + 4);
        EmitDynamic(maxL, maxD, maxBlindex, eof, out, ll, dd);
      }
    }

    lemma FromValid()
      requires Valid()
      ensures Apart() && w.Valid() && lastLit == |tokens| < LIT_BUFSIZE && w.outbuf !in {lBuf, flagBuf}
    {
      hide Constants.Valid, Tallied, FlagByte, StoredAll, Grouped, Matches, BitWriter.Valid;
    }

    lemma ToWriter()
      requires Valid()
      ensures Apart() && w.Valid()
    {
      hide Constants.Valid, Tallied, Buffered, BitWriter.Valid;
    }

    /** The memory of the trees is not that of anything else. */
    lemma OfTrees(buf: array<Byte>)
      requires Apart()
      ensures this !in trees.Repr && w !in trees.Repr && w.outbuf !in trees.Repr && buf !in trees.Repr && lBuf !in trees.Repr
      ensures dBuf !in trees.Repr && flagBuf !in trees.Repr && {trees.fcL, trees.fcD, trees.fcB, trees.counters} <= trees.Repr
      ensures lBuf != w.outbuf && flagBuf != w.outbuf
    {
      hide Constants.Valid;
    }

    /** What the writer does with its buffer does not touch the rest. */
    twostate lemma StillValid()
      requires old(Valid()) && w.Valid() && lBuf[..] == old(lBuf[..]) && dBuf[..] == old(dBuf[..]) && flagBuf[..] == old(flagBuf[..])
      requires unchanged(this) && unchanged(trees.Repr)
      ensures Valid()
    {
    }

    /** The pending tokens as one block, with everything but the state of the next one. */
    method PutBlock(buf: array<Byte>, start: int, storedLen: nat, eof: bool, ghost out: seq<Byte>)
      requires Meaningful(out, tokens) && |Expand(out, tokens)| == |out| + storedLen
      requires start >= 0 ==> start + storedLen <= buf.Length && Expand(out, tokens) == out + buf[start..start + storedLen]
      requires Valid() && buf !in {w.outbuf, lBuf, flagBuf}
      modifies trees.Repr, flagBuf, w`outcnt, w`file, w`biBuf, w`biValid, w.outbuf
      ensures w.Valid() && old(w.Sent()) <= w.Sent()
      ensures BlockDecodes(old(w.Sent()), w.Sent(), out, Expand(out, old(tokens)), eof)
      ensures WithinFixed(old(tokens), |old(w.Sent())|, |w.Sent()|)
      ensures start >= 0 ==> |w.Sent()| <= |old(w.Sent())| + 8 * (storedLen + 4) + 10
    {
      hide *;
      FromValid();
      OfTrees(buf);
      var maxL, maxD, maxBlindex;
      ghost var ll, dd;
      maxL, maxD, maxBlindex, ll, dd := BuildTrees();
      MainOf(ll, dd, maxBlindex + 1);
      EmitBlock(buf, start, storedLen, eof, maxL, maxD, maxBlindex, out, ll, dd);
      InFixed(tokens, |old(w.Sent())|, |w.Sent()|);
    }

    /** flush_block: writes the pending tokens as one block of the cheapest kind. */
    method FlushBlock(buf: array<Byte>, start: int, storedLen: nat, eof: bool, ghost out: seq<Byte>) returns (ghost mid: seq<bool>)
      requires Meaningful(out, tokens) && |Expand(out, tokens)| == |out| + storedLen
      requires start >= 0 ==> start + storedLen <= buf.Length && Expand(out, tokens) == out + buf[start..start + storedLen]
      requires Valid() && buf !in {w.outbuf, lBuf, flagBuf}
      modifies this, trees.Repr, flagBuf, w`outcnt, w`file, w`biBuf, w`biValid, w.outbuf
      ensures Valid() && tokens == []
      ensures old(w.Sent()) <= mid && BlockDecodes(old(w.Sent()), mid, out, Expand(out, old(tokens)), eof)
      ensures WithinFixed(old(tokens), |old(w.Sent())|, |mid|)
      ensures start >= 0 ==> |mid| <= |old(w.Sent())| + 8 * (storedLen + 4) + 10
      ensures w.Sent() == if eof then Pad(mid) else mid
      ensures eof ==> BytesBits(w.Bytes()) == w.Sent() && w.biValid == 0
    {
      hide *;
      ToWriter();
      OfTrees(buf);
      PutBlock(buf, start, storedLen, eof, out);
      mid := w.Sent();
      InitBlock();
      ToWriter();
      if eof {
        label ready:
        w.BiWindup();
        StillValid@ready();
      }
    }

    lemma Lengths(ll: seq<nat>, dd: seq<nat>, n: nat)
      requires Built(tokens, ll, dd, n)
      ensures trees.counters.optLen < 1_500_000 && trees.counters.staticLen < 300_000
    {
    }
  }

  /** The bits of a block with that many bits of data, rounded up to whole bytes. */
  function Whole(bits: nat): nat {
    8 * ((bits + 3 + 7) / 8)
  }

  /** What is sent is at most ten bits longer than a block of the tokens in the fixed code. */
  ghost predicate WithinFixed(ts: seq<Token>, before: nat, after: nat) {
    && AllCodable(FixedLit(), FixedDist(), ts) && END_OF_BLOCK < |FixedLit()|
    && after <= before + Whole(|DataBits(FixedLit(), FixedDist(), ts)|) + 10
  }

  lemma InFixed(ts: seq<Token>, before: nat, after: nat)
    requires AllCodable(FixedLit(), FixedDist(), ts) && END_OF_BLOCK < |FixedLit()|
    requires after <= before + Whole(|DataBits(FixedLit(), FixedDist(), ts)|) + 10
    ensures WithinFixed(ts, before, after)
  {
  }

  lemma NoWrap(x: int)
    requires 0 <= x < 0x1_0000_0000
    ensures U32(x) == x
  {
  }

  lemma NotPromising(ts: seq<Token>, inLength: nat)
    requires AllWell(ts) && |ts| % 0x1000 != 0
    ensures !Promising(ts, inLength)
  {
  }

  lemma BytesNoWrap(bits: nat)
    requires bits < 1_500_000
    ensures U32(bits + 3 + 7) == bits + 10
  {
  }

  /** The length of a block does not wrap around. */
  lemma StoredNoWrap(out: seq<Byte>, ts: seq<Token>, storedLen: nat)
    requires Meaningful(out, ts) && |ts| < LIT_BUFSIZE && |Expand(out, ts)| == |out| + storedLen
    ensures U32(storedLen + 4) == storedLen + 4
  {
    ExpandBound(out, ts);
    hide Meaningful, Expand;
  }

  lemma PriceStored(opt: nat, stat: nat, stored: nat)
    requires stored <= (opt + 10) / 8 && stored <= (stat + 10) / 8
    ensures 8 * stored <= Whole(opt) && 8 * stored <= Whole(stat)
  {
  }

  lemma PriceStatic(opt: nat, stat: nat, stored: nat)
    requires (stat + 10) / 8 <= (opt + 10) / 8
    ensures 3 + stat <= Whole(stat) <= Whole(opt) && ((stat + 10) / 8 < stored ==> 3 + stat <= 8 * stored)
  {
  }

  lemma PriceDynamic(opt: nat, stat: nat, stored: nat)
    requires (opt + 10) / 8 < (stat + 10) / 8
    ensures 3 + opt <= Whole(opt) <= Whole(stat) && ((opt + 10) / 8 < stored ==> 3 + opt <= 8 * stored)
  {
  }

  lemma StoredSize(before: seq<bool>, data: seq<Byte>, final: bool, sent: seq<bool>)
    requires |data| < 0x1_0000
    requires sent == Pad(before + KindBits(STORED_BLOCK, final)) + ToBits(|data|, 16) + ToBits(65535 - |data|, 16) + BytesBits(data)
    ensures before <= sent && |sent| <= |before| + 8 * (|data| + 4) + 10
    ensures sent == StoredBits(before, data, final)
  {
    assert sent == StoredBits(before, data, final);
    hide *;
    var kind := before + KindBits(STORED_BLOCK, final);
    var padded := Pad(kind);
    assert |padded| < |kind| + 8 && |kind| == |before| + 3;
    assert before <= kind <= padded;
  }

  lemma StoredSent(before: seq<bool>, data: seq<Byte>, final: bool, out: seq<Byte>, sent: seq<bool>)
    requires |data| < 0x1_0000
    requires sent == Pad(before + KindBits(STORED_BLOCK, final)) + ToBits(|data|, 16) + ToBits(65535 - |data|, 16) + BytesBits(data)
    ensures before <= sent && BlockDecodes(before, sent, out, out + data, final)
    ensures |sent| <= |before| + 8 * (|data| + 4) + 10
  {
    hide *;
    StoredSize(before, data, final, sent);
    StoredDecodes(before, data, final, out);
  }

  lemma FixedSent(before: seq<bool>, ts: seq<Token>, final: bool, out: seq<Byte>, sent: seq<bool>)
    requires AllCodable(FixedLit(), FixedDist(), ts) && END_OF_BLOCK < |FixedLit()| && Meaningful(out, ts)
    requires sent == before + KindBits(STATIC_TREES, final) + DataBits(FixedLit(), FixedDist(), ts)
    ensures before <= sent && BlockDecodes(before, sent, out, Expand(out, ts), final)
    ensures |sent| == |before| + 3 + |DataBits(FixedLit(), FixedDist(), ts)|
  {
    assert |KindBits(STATIC_TREES, final)| == 3;
    hide DataBits, KindBits, FixedLit, FixedDist, AllCodable, BlockDecodes, Meaningful, Expand;
    FixedDecodes(before, ts, final, out);
  }

  lemma DynamicSent(before: seq<bool>, ll: seq<nat>, dd: seq<nat>, cl: seq<nat>, n: nat, ts: seq<Token>, final: bool,
                    out: seq<Byte>, sent: seq<bool>)
    requires Sendables(ll, dd, cl, n) && AllCodable(ll, dd, ts) && END_OF_BLOCK < |ll| && Meaningful(out, ts)
    requires sent == before + KindBits(DYN_TREES, final) + HeaderBits(ll, dd, cl, n) + DataBits(ll, dd, ts)
    ensures before <= sent && BlockDecodes(before, sent, out, Expand(out, ts), final)
    ensures |sent| == |before| + 3 + |HeaderBits(ll, dd, cl, n)| + |DataBits(ll, dd, ts)|
  {
    assert |KindBits(DYN_TREES, final)| == 3;
    hide DataBits, KindBits, HeaderBits, Sendables, AllCodable, BlockDecodes, Meaningful, Expand;
    DynamicDecodes(before, ll, dd, cl, n, ts, final, out);
  }

  lemma CanSendFixed(ts: seq<Token>, st: Constants)
    requires st.Valid() && AllCodable(FixedLit(), FixedDist(), ts)
    ensures CanSend(st.ltree, st.dtree, FixedLit(), FixedDist(), ts) && END_OF_BLOCK < |FixedLit()|
  {
    hide CodeTree.Ready, AllCodable, LengthTables, DistTables;
  }

  lemma FixedReady(fs: seq<nat>, ds: seq<nat>, fd: seq<nat>, dd: seq<nat>)
    requires ds == FixedLit() && Coded(fs, FixedLit()) && |fs| == 288
    requires |fd| == |dd| == DIST_CODES && (forall n :: 0 <= n < DIST_CODES ==> dd[n] == 5) && Coded(fd, FixedDist())
    ensures CodeTree(fs, ds).Ready(FixedLit()) && CodeTree(fd, dd).Ready(FixedDist())
  {
    hide Coded, FixedLit;
  }
}
