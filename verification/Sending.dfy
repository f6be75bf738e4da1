/** compress_block: the pending tokens as code words. */
module Sending {
  import opened Bits
  import opened Canonical
  import opened Inflate
  import opened Tokens
  import opened BitWriting
  import opened TreeCoding
  import opened Tables
  import opened Buffers

  /** Codes and lengths of an alphabet: the part of a ct_data table that SEND_CODE reads. */
  datatype CodeTree = CodeTree(codes: seq<nat>, dl: seq<nat>)
  {
    ghost predicate Ready(lens: seq<nat>) {
      Coded(codes, lens) && forall c :: 0 <= c < |codes| && c < |lens| ==> c < |dl| && dl[c] == lens[c]
    }
  }

  /** What ct_init sets up once and for all. */
  datatype Constants = Constants(lengthCode: seq<nat>, baseLength: seq<nat>, distCode: seq<nat>, baseDist: seq<nat>,
                                 ltree: CodeTree, dtree: CodeTree)
  {
    ghost predicate Valid() {
      LengthTables(lengthCode, baseLength) && DistTables(distCode, baseDist)
      && |ltree.codes| == 288 && ltree.Ready(FixedLit()) && |dtree.codes| == DIST_CODES && dtree.Ready(FixedDist())
    }
  }

  /** A pair of codes that can send the tokens `ts`. */
  ghost predicate CanSend(ltree: CodeTree, dtree: CodeTree, ll: seq<nat>, dd: seq<nat>, ts: seq<Token>) {
    ltree.Ready(ll) && dtree.Ready(dd) && L_CODES <= |ltree.codes| && DIST_CODES <= |dtree.codes|
    && END_OF_BLOCK < |ll| && ll[END_OF_BLOCK] > 0 && AllCodable(ll, dd, ts)
  }

  /** All tokens are in the buffers, and all their flags in flag_buf. */
  ghost predicate Packed(ts: seq<Token>, lBuf: seq<Byte>, dBuf: seq<nat>, flagBuf: seq<Byte>) {
    |ts| < |lBuf| == LIT_BUFSIZE && |flagBuf| == LIT_BUFSIZE / 8
    && (forall i :: 0 <= i < |ts| ==> Stored(ts[i], lBuf[i], dBuf, Matches(ts[..i])))
    && (forall j :: 0 <= j && 8 * j < |ts| ==> flagBuf[j] == FlagByte(ts, j))
  }

  /** SEND_CODE for a ready table. */
  method SendSym(w: BitWriter, tree: CodeTree, c: nat, ghost lens: seq<nat>)
    requires w.Valid() && tree.Ready(lens) && c < |tree.codes| && c < |lens| && lens[c] > 0
    modifies w`outcnt, w`file, w`biBuf, w`biValid, w.outbuf
    ensures w.Valid() && w.Sent() == old(w.Sent()) + CodeWord(lens, c)
  {
    hide Coded, CodeWord, BitWriter.Sent, BitWriter.Valid;
    SendCode(w, tree.codes, tree.dl, c, lens);
  }

  lemma LengthFacts(st: Constants, lc: Byte, c: nat)
    requires st.Valid() && c == LenCode(lc + MIN_MATCH)
    ensures lc < |st.lengthCode| && st.lengthCode[lc] == c && LenExtra(c) <= 5
    ensures lc + MIN_MATCH - LenBase(c) < Pow2(LenExtra(c))
    ensures LenExtra(c) > 0 ==> c < |st.baseLength| && lc - st.baseLength[c] == lc + MIN_MATCH - LenBase(c)
  {
    hide LenCode, LenBase, LenExtra, DistTables, FixedLit, FixedDist;
    LenTable(c);
    LenFits(lc + MIN_MATCH);
  }

  /** The length code and its extra bits. */
  method SendLength(w: BitWriter, st: Constants, ltree: CodeTree, lc0: Byte, ghost ll: seq<nat>, ghost c: nat)
    requires w.Valid() && st.Valid() && ltree.Ready(ll) && L_CODES <= |ltree.codes|
    requires c == LenCode(lc0 + MIN_MATCH) && 257 + c < |ll| && ll[257 + c] > 0
    modifies w`outcnt, w`file, w`biBuf, w`biValid, w.outbuf
    ensures w.Valid()
    ensures w.Sent() == old(w.Sent()) + CodeWord(ll, 257 + c) + ToBits(lc0 + MIN_MATCH - LenBase(c), LenExtra(c))
  {
    hide LenCode, LenBase, LenExtra, ExtraLBits, CodeTree.Ready, Constants.Valid, CodeWord, ToBits, Pow2, BitWriter.Sent, BitWriter.Valid;
    LengthFacts(st, lc0, c);
    var lc: nat := lc0;
    var code := st.lengthCode[lc];
    SendSym(w, ltree, code + END_OF_BLOCK + 1, ll);
    ExtraLIs(code);
    var extra := ExtraLBits(code);
    if extra != 0 {
      lc := lc - st.baseLength[code];
      w.SendBits(lc, extra);
    } else {
      NoBits(lc0 + MIN_MATCH - LenBase(c));
    }
  }

  lemma DistFacts(st: Constants, dist: nat, d: nat)
    requires st.Valid() && dist < 32768 && d == DistCode(dist + 1)
    ensures |st.distCode| == 512 && DCode(st.distCode, dist) == d && DistExtra(d) <= 13
    ensures dist + 1 - DistBase(d) < Pow2(DistExtra(d)) && d < |st.baseDist| && dist - st.baseDist[d] == dist + 1 - DistBase(d)
  {
    hide DistCode, DistBase, DistExtra, LengthTables, FixedLit, FixedDist, DCode;
    DistTable(d);
    DistFits(dist + 1);
  }

  /** The distance code and its extra bits. */
  method SendDist(w: BitWriter, st: Constants, dtree: CodeTree, dist0: nat, ghost dd: seq<nat>, ghost d: nat)
    requires w.Valid() && st.Valid() && dtree.Ready(dd) && DIST_CODES <= |dtree.codes|
    requires dist0 < 32768 && d == DistCode(dist0 + 1) && d < |dd| && dd[d] > 0
    modifies w`outcnt, w`file, w`biBuf, w`biValid, w.outbuf
    ensures w.Valid()
    ensures w.Sent() == old(w.Sent()) + CodeWord(dd, d) + ToBits(dist0 + 1 - DistBase(d), DistExtra(d))
  {
    hide DistCode, DistBase, DistExtra, ExtraDBits, CodeTree.Ready, Constants.Valid, CodeWord, ToBits, Pow2, BitWriter.Sent, BitWriter.Valid, DCode;
    DistFacts(st, dist0, d);
    var dist := dist0;
    var code := DCode(st.distCode, dist);
    SendSym(w, dtree, code, dd);
    ExtraDIs(code);
    var extra := ExtraDBits(code);
    if extra != 0 {
      dist := dist - st.baseDist[code];
      w.SendBits(dist, extra);
    } else {
      NoBits(dist0 + 1 - DistBase(d));
    }
  }

  lemma TokenFacts(ltree: CodeTree, dtree: CodeTree, ll: seq<nat>, dd: seq<nat>, ts: seq<Token>, i: nat)
    requires CanSend(ltree, dtree, ll, dd, ts) && i < |ts|
    ensures ltree.Ready(ll) && dtree.Ready(dd) && L_CODES <= |ltree.codes| && DIST_CODES <= |dtree.codes|
    ensures WellFormed(ts[i]) && Codable(ll, dd, ts[i])
    ensures Sym(ts[i]) < |ll| && Sym(ts[i]) < |ltree.codes| && ll[Sym(ts[i])] > 0
    ensures ts[i].Match? ==> DistCode(ts[i].dist) < |dd| && dd[DistCode(ts[i].dist)] > 0
  {
    hide CodeTree.Ready, LenCode, DistCode;
  }

  lemma LitToken(ll: seq<nat>, dd: seq<nat>, b: Byte)
    requires Codable(ll, dd, Lit(b))
    ensures Sym(Lit(b)) == b && TokenBits(ll, dd, Lit(b)) == CodeWord(ll, b)
  {
  }

  lemma MatchToken(a: seq<bool>, ll: seq<nat>, dd: seq<nat>, len: nat, dist: nat)
    requires Codable(ll, dd, Match(len, dist))
    ensures MIN_MATCH <= len <= MAX_MATCH && 1 <= dist <= 32768 && Sym(Match(len, dist)) == 257 + LenCode(len)
    ensures var c, d := LenCode(len), DistCode(dist);
            a + TokenBits(ll, dd, Match(len, dist))
            == a + CodeWord(ll, 257 + c) + ToBits(len - LenBase(c), LenExtra(c))
               + CodeWord(dd, d) + ToBits(dist - DistBase(d), DistExtra(d))
  {
    hide LenCode, DistCode, LenBase, DistBase, LenExtra, DistExtra, CodeWord, ToBits;
  }

  /** One token, literal or match. */
  method SendToken(w: BitWriter, st: Constants, ltree: CodeTree, dtree: CodeTree, lc: Byte, dist: nat, match_: bool,
                   ghost ll: seq<nat>, ghost dd: seq<nat>, ghost ts: seq<Token>, ghost i: nat)
    requires w.Valid() && st.Valid() && CanSend(ltree, dtree, ll, dd, ts) && i < |ts|
    requires ts[i] == if match_ then Match(lc + MIN_MATCH, dist + 1) else Lit(lc)
    modifies w`outcnt, w`file, w`biBuf, w`biValid, w.outbuf
    ensures w.Valid() && Codable(ll, dd, ts[i]) && w.Sent() == old(w.Sent()) + TokenBits(ll, dd, ts[i])
  {
    hide *;
    TokenFacts(ltree, dtree, ll, dd, ts, i);
    if !match_ {
      LitToken(ll, dd, lc);
      SendSym(w, ltree, lc, ll);
    } else {
      MatchToken(w.Sent(), ll, dd, lc + MIN_MATCH, dist + 1);
      SendLength(w, st, ltree, lc, ll, LenCode(lc + MIN_MATCH));
      SendDist(w, st, dtree, dist, dd, DistCode(dist + 1));
    }
  }

  // ----- the flags

  /** The flag register of compress_block before token `i`, the `g`-th byte being loaded. */
  ghost predicate FlagsAt(ts: seq<Token>, flag: nat, i: nat, g: nat) {
    8 * g <= i <= 8 * g + 8 && 8 * g <= |ts| && flag == Shr(FlagByte(ts, g), i - 8 * g)
  }

  lemma FlagOf(ts: seq<Token>, i: nat, g: nat)
    requires 8 * g <= i < |ts| && i < 8 * g + 8
    ensures var b := Flags(ts)[8 * g..Least(8 * g + 8, |ts|)];
            FlagByte(ts, g) == FromBits(b) && i - 8 * g < |b| && b[i - 8 * g] == ts[i].Match?
  {
    hide FromBits;
  }

  lemma FlagRead(ts: seq<Token>, flag: nat, i: nat, g: nat)
    requires FlagsAt(ts, flag, i, g) && i < |ts| && i < 8 * g + 8
    ensures flag % 2 == 1 <==> ts[i].Match?
    ensures FlagsAt(ts, flag / 2, i + 1, g)
  {
    var b := Flags(ts)[8 * g..Least(8 * g + 8, |ts|)];
    FlagOf(ts, i, g);
    hide Flags, FromBits, Shr, FlagByte;
    FromBitsAt(b, i - 8 * g);
    ShrSnoc(FromBits(b), i - 8 * g);
  }

  lemma FlagLoaded(ts: seq<Token>, lBuf: seq<Byte>, dBuf: seq<nat>, flagBuf: seq<Byte>, lx: nat, fx: nat)
    requires Packed(ts, lBuf, dBuf, flagBuf) && lx < |ts| && lx <= 8 * fx < lx + 8
    ensures lx % 8 == 0 ==> lx == 8 * fx && fx < |flagBuf| && FlagsAt(ts, flagBuf[fx], lx, fx)
    ensures lx % 8 != 0 ==> fx > 0 && lx < 8 * fx
  {
    hide FlagByte, Stored, Flags;
  }

  lemma TokenAt(ts: seq<Token>, lBuf: seq<Byte>, dBuf: seq<nat>, flagBuf: seq<Byte>, i: nat, k: nat)
    requires Packed(ts, lBuf, dBuf, flagBuf) && i < |ts| && k == Matches(ts[..i])
    ensures i < |lBuf| && Matches(ts[..i + 1]) == k + (if ts[i].Match? then 1 else 0)
    ensures ts[i].Lit? ==> ts[i] == Lit(lBuf[i])
    ensures ts[i].Match? ==> k < |dBuf| && ts[i] == Match(lBuf[i] + MIN_MATCH, dBuf[k] + 1)
  {
    hide FlagByte, Flags;
    MatchesPrefix(ts, i);
    assert Stored(ts[i], lBuf[i], dBuf, k);
  }

  // ----- the loop

  lemma DataBitsCons(a: seq<bool>, ll: seq<nat>, dd: seq<nat>, ts: seq<Token>, i: nat)
    requires AllCodable(ll, dd, ts) && END_OF_BLOCK < |ll| && i < |ts|
    ensures AllCodable(ll, dd, ts[i..]) && AllCodable(ll, dd, ts[i + 1..]) && Codable(ll, dd, ts[i])
    ensures a + DataBits(ll, dd, ts[i..]) == a + TokenBits(ll, dd, ts[i]) + DataBits(ll, dd, ts[i + 1..])
  {
    hide TokenBits, Codable;
    assert ts[i..][1..] == ts[i + 1..];
  }

  /** What is still to be sent at token `i`. */
  ghost predicate Remaining(sent: seq<bool>, ll: seq<nat>, dd: seq<nat>, ts: seq<Token>, i: nat, goal: seq<bool>) {
    i <= |ts| && END_OF_BLOCK < |ll| && AllCodable(ll, dd, ts[i..]) && sent + DataBits(ll, dd, ts[i..]) == goal
  }

  lemma RemainingStart(sent: seq<bool>, ltree: CodeTree, dtree: CodeTree, ll: seq<nat>, dd: seq<nat>, ts: seq<Token>)
    requires CanSend(ltree, dtree, ll, dd, ts)
    ensures AllCodable(ll, dd, ts) && END_OF_BLOCK < |ll| && Remaining(sent, ll, dd, ts, 0, sent + DataBits(ll, dd, ts))
    ensures Matches(ts[..0]) == 0
  {
    hide CodeTree.Ready, Codable;
    assert ts[0..] == ts;
  }

  lemma RemainingStep(sent: seq<bool>, ltree: CodeTree, dtree: CodeTree, ll: seq<nat>, dd: seq<nat>, ts: seq<Token>, i: nat,
                      goal: seq<bool>)
    requires CanSend(ltree, dtree, ll, dd, ts) && Remaining(sent, ll, dd, ts, i, goal) && i < |ts|
    ensures Codable(ll, dd, ts[i]) && Remaining(sent + TokenBits(ll, dd, ts[i]), ll, dd, ts, i + 1, goal)
  {
    hide CodeTree.Ready, Codable, TokenBits, DataBits;
    DataBitsCons(sent, ll, dd, ts, i);
  }

  lemma RemainingEnd(sent: seq<bool>, ltree: CodeTree, dtree: CodeTree, ll: seq<nat>, dd: seq<nat>, ts: seq<Token>,
                      goal: seq<bool>)
    requires CanSend(ltree, dtree, ll, dd, ts) && Remaining(sent, ll, dd, ts, |ts|, goal)
    ensures ltree.Ready(ll) && END_OF_BLOCK < |ltree.codes| && END_OF_BLOCK < |ll| && ll[END_OF_BLOCK] > 0
    ensures sent + CodeWord(ll, END_OF_BLOCK) == goal
  {
    hide CodeTree.Ready, Codable, CodeWord;
    assert ts[|ts|..] == [];
  }

  /** compress_block: sends all tokens and the end symbol. */
  method CompressBlock(w: BitWriter, st: Constants, lBuf: seq<Byte>, dBuf: seq<nat>, flagBuf: seq<Byte>, lastLit: nat,
                       ltree: CodeTree, dtree: CodeTree, ghost ll: seq<nat>, ghost dd: seq<nat>, ghost ts: seq<Token>)
    requires w.Valid() && st.Valid() && Packed(ts, lBuf, dBuf, flagBuf) && lastLit == |ts|
    requires CanSend(ltree, dtree, ll, dd, ts)
    modifies w`outcnt, w`file, w`biBuf, w`biValid, w.outbuf
    ensures w.Valid() && AllCodable(ll, dd, ts) && END_OF_BLOCK < |ll|
    ensures w.Sent() == old(w.Sent()) + DataBits(ll, dd, ts)
  {
    hide *;
    RemainingStart(w.Sent(), ltree, dtree, ll, dd, ts);
    ghost var goal := w.Sent() + DataBits(ll, dd, ts);
    var lx, dx, fx, flag := 0, 0, 0, 0;
    while lx < lastLit
      invariant lx <= lastLit && dx == Matches(ts[..lx]) && lx <= 8 * fx < lx + 8
      invariant lx < 8 * fx ==> FlagsAt(ts, flag, lx, fx - 1)
      invariant w.Valid() && Remaining(w.Sent(), ll, dd, ts, lx, goal)
    {
      FlagLoaded(ts, lBuf, dBuf, flagBuf, lx, fx);
      if lx % 8 == 0 {
        flag := flagBuf[fx];
        fx := fx + 1;
      }
      TokenAt(ts, lBuf, dBuf, flagBuf, lx, dx);
      FlagRead(ts, flag, lx, fx - 1);
      RemainingStep(w.Sent(), ltree, dtree, ll, dd, ts, lx, goal);
      var lc := lBuf[lx];
      if flag % 2 == 0 {
        SendToken(w, st, ltree, dtree, lc, 0, false, ll, dd, ts, lx);
      } else {
        SendToken(w, st, ltree, dtree, lc, dBuf[dx], true, ll, dd, ts, lx);
        dx := dx + 1;
      }
      lx := lx + 1;
      flag := flag / 2;
    }
    RemainingEnd(w.Sent(), ltree, dtree, ll, dd, ts, goal);
    SendSym(w, ltree, END_OF_BLOCK, ll);
  }
}
