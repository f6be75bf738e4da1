/** Where the bits of the format are and what the codes are, said in numbers: laws that the
    tables and definitions of decoder and compressor have to meet. */
module Layout {
  import opened Bits
  import opened Canonical
  import opened Inflate
  import opened Tokens
  import opened RunLengths
  import opened BitWriting
  import opened Tables
  import opened Blocks

  // ----- bits and bytes

  /** The bits of a file: byte by byte, the bit of least weight first. */
  lemma {:induction false} FileBits(s: seq<Byte>, i: nat, j: nat)
    requires i < |s| && j < 8
    ensures BytesBits(s)[8 * i + j] <==> s[i] / Pow2(j) % 2 == 1
  {
    hide Pow2, ToBits;
    if i == 0 {
      ToBitsAt(s[0], 8, j);
    } else {
      FileBits(s[1..], i - 1, j);
      assert BytesBits(s)[8 * i + j] == BytesBits(s[1..])[8 * (i - 1) + j];
    }
  }

  /** The bits of a code: the bit of greatest weight first. */
  lemma {:induction false} CodeBitsAt(c: nat, n: nat, i: nat)
    requires i < n
    ensures CodeBits(c, n)[i] <==> c / Pow2(n - 1 - i) % 2 == 1
    decreases n
  {
    if i < n - 1 {
      CodeBitsAt(c / 2, n - 1, i);
      HalfDiv(c, Pow2(n - 2 - i));
    }
  }

  // ----- code words

  /** `x` comes before `y` in lexicographic order, and is no prefix of it. */
  ghost predicate Before(x: seq<bool>, y: seq<bool>) {
    exists i :: 0 <= i < |x| && i < |y| && x[..i] == y[..i] && !x[i] && y[i]
  }

  lemma BeforeAt(x: seq<bool>, y: seq<bool>, i: nat)
    requires i < |x| && i < |y| && x[..i] == y[..i] && !x[i] && y[i]
    ensures Before(x, y)
  {
  }

  lemma BeforeMore(x: seq<bool>, y: seq<bool>, x': seq<bool>, y': seq<bool>)
    requires Before(x, y) && x <= x' && y <= y'
    ensures Before(x', y')
  {
    var i :| 0 <= i < |x| && i < |y| && x[..i] == y[..i] && !x[i] && y[i];
    assert x'[..i] == x[..i] && y'[..i] == y[..i];
    BeforeAt(x', y', i);
  }

  lemma {:induction false} SmallerFirst(a: nat, b: nat, n: nat)
    requires a < b < Pow2(n)
    ensures Before(CodeBits(a, n), CodeBits(b, n))
    decreases n
  {
    hide Before;
    var x, y := CodeBits(a / 2, n - 1), CodeBits(b / 2, n - 1);
    if a / 2 < b / 2 {
      SmallerFirst(a / 2, b / 2, n - 1);
      BeforeMore(x, y, CodeBits(a, n), CodeBits(b, n));
    } else {
      assert CodeBits(a, n)[..n - 1] == x == y == CodeBits(b, n)[..n - 1];
      BeforeAt(CodeBits(a, n), CodeBits(b, n), n - 1);
    }
  }

  /** The two rules of RFC 1951 section 3.2.2: the codes of one length follow each other in
      the order of the symbols, and shorter codes come before longer ones. */
  lemma CanonicalOrder(lens: seq<nat>, L: nat, s: nat, t: nat)
    requires Fits(lens, L) && s < |lens| && t < |lens| && 0 < lens[s]
    requires lens[s] < lens[t] || (lens[s] == lens[t] && s < t)
    ensures Before(CodeWord(lens, s), CodeWord(lens, t))
  {
    hide Before, Fits, CodeBits;
    var a, b := lens[s], lens[t];
    CodeBounds(lens, L, s);
    CodeBounds(lens, L, t);
    if a == b {
      assert lens[..t][..s] == lens[..s];
      CountSplit(lens[..t], s, a);
      SmallerFirst(Code(lens, s), Code(lens, t), a);
    } else {
      var high := Shr(Code(lens, t), b - a);
      StartGap(lens, a, b);
      ShrGe(Code(lens, t), Start(lens, a) + Count(lens, a), b - a);
      ShrLess(Code(lens, t), b - a, a);
      SmallerFirst(Code(lens, s), high, a);
      CodeBitsPrefix(Code(lens, t), b, a);
      BeforeMore(CodeWord(lens, s), CodeBits(high, a), CodeWord(lens, s), CodeWord(lens, t));
    }
  }

  /** The fixed codes of section 3.2.6, as they are listed there. */
  lemma FixedCodes(s: nat)
    requires s < 288
    ensures FixedLit()[s] == (if s < 144 then 8 else if s < 256 then 9 else if s < 280 then 7 else 8)
    ensures Code(FixedLit(), s) == (if s < 144 then 0x30 + s else if s < 256 then 0x190 + (s - 144)
                                    else if s < 280 then s - 256 else 0xC0 + (s - 280))
  {
    FixedStarts();
    FixedBefore(s);
    hide Count, Start;
  }

  lemma FixedStarts()
    ensures Start(FixedLit(), 7) == 0 && Start(FixedLit(), 8) == 0x30 && Start(FixedLit(), 9) == 0x190
  {
    FixedLitSums();
    hide FixedLit, Count, Complete;
    var l := FixedLit();
    assert Start(l, 1) == 0 && Start(l, 2) == 0 && Start(l, 3) == 0 && Start(l, 4) == 0;
    assert Start(l, 5) == 0 && Start(l, 6) == 0;
  }

  lemma FixedPrefix(s: nat)
    requires s < 288
    ensures var l, a, b, c := FixedLit()[..s], Repeat(8, 144), Repeat(9, 112), Repeat(7, 24);
            if s < 144 then l == Repeat(8, s) && FixedLit()[s] == 8
            else if s < 256 then l == a + Repeat(9, s - 144) && FixedLit()[s] == 9
            else if s < 280 then l == a + b + Repeat(7, s - 256) && FixedLit()[s] == 7
            else l == a + b + c + Repeat(8, s - 280) && FixedLit()[s] == 8
  {
  }

  /** How many symbols before `s` have a code of the same length. */
  lemma FixedBefore(s: nat)
    requires s < 288
    ensures Count(FixedLit()[..s], FixedLit()[s])
         == if s < 144 then s else if s < 256 then s - 144 else if s < 280 then s - 256 else s - 280 + 144
  {
    hide *;
    var a, b, c := Repeat(8, 144), Repeat(9, 112), Repeat(7, 24);
    FixedPrefix(s);
    RepeatSums(8, 144, 15);
    RepeatSums(9, 112, 15);
    RepeatSums(7, 24, 15);
    if s < 144 {
      RepeatSums(8, s, 15);
    } else if s < 256 {
      RepeatSums(9, s - 144, 15);
      CountConcat(a, Repeat(9, s - 144), 9);
    } else if s < 280 {
      RepeatSums(7, s - 256, 15);
      CountConcat(a + b, Repeat(7, s - 256), 7);
      CountConcat(a, b, 7);
    } else {
      RepeatSums(8, s - 280, 15);
      CountConcat(a + b + c, Repeat(8, s - 280), 8);
      CountConcat(a + b, c, 8);
      CountConcat(a, b, 8);
    }
  }

  // ----- lengths and distances

  /** The table of length codes of section 3.2.5. */
  lemma LengthCodes(c: nat)
    requires c < LEN_CODES
    ensures LenExtra(c) == (if c < 4 || c == 28 then 0 else c / 4 - 1)
    ensures LenBase(c) == (if c < 4 then 3 + c else if c == 28 then 258 else 3 + (4 + c % 4) * Pow2(c / 4 - 1))
  {
    Pow2Values();
    if c < 15 {
      assert c == 0 || c == 1 || c == 2 || c == 3 || c == 4 || c == 5 || c == 6 || c == 7 || c == 8 || c == 9 || c == 10 || c == 11 || c == 12 || c == 13 || c == 14;
    } else {
      assert c == 15 || c == 16 || c == 17 || c == 18 || c == 19 || c == 20 || c == 21 || c == 22 || c == 23 || c == 24 || c == 25 || c == 26 || c == 27 || c == 28;
    }
  }

  /** The table of distance codes of section 3.2.5. */
  lemma DistanceCodes(d: nat)
    requires d < DIST_CODES
    ensures DistExtra(d) == (if d < 2 then 0 else d / 2 - 1)
    ensures DistBase(d) == (if d < 2 then 1 + d else 1 + (2 + d % 2) * Pow2(d / 2 - 1))
  {
    Pow2Values();
    if d < 15 {
      assert d == 0 || d == 1 || d == 2 || d == 3 || d == 4 || d == 5 || d == 6 || d == 7 || d == 8 || d == 9 || d == 10 || d == 11 || d == 12 || d == 13 || d == 14;
    } else {
      assert d == 15 || d == 16 || d == 17 || d == 18 || d == 19 || d == 20 || d == 21 || d == 22 || d == 23 || d == 24 || d == 25 || d == 26 || d == 27 || d == 28 || d == 29;
    }
  }

  /** A match repeats what stands `dist` bytes before, whatever it has just written included. */
  lemma {:induction false} MatchRepeats(out: seq<Byte>, len: nat, dist: nat, k: nat)
    requires 1 <= dist <= |out| && k < |out| + len
    ensures CopyMatch(out, len, dist)[k] == if k < |out| then out[k] else CopyMatch(out, len, dist)[k - dist]
    decreases len
  {
    if len > 0 {
      var more := out + [out[|out| - dist]];
      MatchRepeats(more, len - 1, dist, k);
      if k == |out| {
        MatchRepeats(more, len - 1, dist, k - dist);
      }
    }
  }

  // ----- blocks

  /** One bit says whether a block is the last, two bits its kind. */
  lemma KindLayout(final: bool)
    ensures KindBits(STORED_BLOCK, final) == [final, false, false]
    ensures KindBits(STATIC_TREES, final) == [final, true, false]
    ensures KindBits(DYN_TREES, final) == [final, false, true]
  {
    KindIs(STORED_BLOCK, final);
    KindIs(STATIC_TREES, final);
    KindIs(DYN_TREES, final);
  }

  lemma KindIs(kind: nat, final: bool)
    requires kind < 4
    ensures KindBits(kind, final) == [final, kind % 2 == 1, kind >= 2]
  {
    var v := kind * 2 + (if final then 1 else 0);
    ToBitsStep(v, 3);
    ToBitsStep(v / 2, 2);
    ToBitsStep(v / 4, 1);
    assert v / 2 == kind && (v / 2) / 2 == kind / 2 && v / 4 == kind / 2;
  }

  lemma StoredIs(before: seq<bool>, data: seq<Byte>, final: bool)
    requires |data| < 0x1_0000 && KindBits(STORED_BLOCK, final) == [final, false, false]
    ensures StoredBits(before, data, final)
         == Pad(before + [final, false, false]) + ToBits(|data|, 16) + ToBits(65535 - |data|, 16) + BytesBits(data)
  {
    hide ToBits, BytesBits, Pad, KindBits;
  }

  lemma PaddedTo(s: seq<bool>, p: nat)
    requires p % 8 == 0 && |s| <= p < |s| + 8
    ensures |Pad(s)| == p && s <= Pad(s) && forall i :: |s| <= i < p ==> !Pad(s)[i]
  {
  }

  lemma FourParts(a: seq<bool>, b: seq<bool>, c: seq<bool>, d: seq<bool>)
    ensures var s := a + b + c + d;
            && |s| == |a| + |b| + |c| + |d| && a <= s && s[..|a|] == a && s[|a|..|a| + |b|] == b
            && s[|a| + |b|..|a| + |b| + |c|] == c && s[|a| + |b| + |c|..] == d
  {
  }

  lemma PrefixKept(x: seq<bool>, h: seq<bool>, b: seq<bool>, from: nat)
    requires x <= h <= b && from == |x| && forall i :: from <= i < |h| ==> !h[i]
    ensures x <= b && forall i :: from <= i < |h| ==> !b[i]
  {
  }

  /** A stored block: at the next byte LEN and its complement in 16 bits each, then the bytes. */
  lemma StoredLayout(before: seq<bool>, data: seq<Byte>, final: bool, p: nat)
    requires |data| < 0x1_0000 && p % 8 == 0 && |before| + 3 <= p < |before| + 11
    ensures var b := StoredBits(before, data, final);
            && |b| == p + 32 + 8 * |data|
            && before + [final, false, false] <= b && (forall i :: |before| + 3 <= i < p ==> !b[i])
            && FromBits(b[p..p + 16]) == |data| && FromBits(b[p + 16..p + 32]) == 65535 - |data|
            && b[p + 32..] == BytesBits(data)
  {
    hide *;
    KindLayout(final);
    WordFits(|data|);
    FromToBits(|data|, 16);
    FromToBits(65535 - |data|, 16);
    StoredIs(before, data, final);
    PaddedTo(before + [final, false, false], p);
    var x := before + [final, false, false];
    FourParts(Pad(x), ToBits(|data|, 16), ToBits(65535 - |data|, 16), BytesBits(data));
    PrefixKept(x, Pad(x), StoredBits(before, data, final), |before| + 3);
  }

  /** The header of a block with its own codes: how many lengths there are of each kind, and
      from bit 14 on, in three bits each, the lengths of the code length code. */
  lemma HeaderLayout(ll: seq<nat>, dd: seq<nat>, cl: seq<nat>, n: nat, r: nat)
    requires Sendables(ll, dd, cl, n) && r < n
    ensures var h := HeaderBits(ll, dd, cl, n);
            && |h| >= 14 + 3 * n
            && FromBits(h[0..5]) == |ll| - 257 && FromBits(h[5..10]) == |dd| - 1 && FromBits(h[10..14]) == n - 4
            && FromBits(h[14 + 3 * r..14 + 3 * r + 3])
            == cl[if r < 3 then 16 + r else if r == 3 then 0 else if r % 2 == 0 then 8 + (r - 4) / 2 else 7 - (r - 5) / 2]
  {
    hide *;
    SendableSizes(ll, dd, cl, n);
    OrderFormula(r);
    LengthsBelow(cl);
    EightFits(cl[Order(r)]);
    FromToBits(cl[Order(r)], 3);
    ClBitsAt(cl, 0, n, r);
    CountsLayout(ll, dd, cl, n);
    var h, c := HeaderBits(ll, dd, cl, n), ClBits(cl, 0, n);
    Slices(h, h[..14], c, h[14 + |c|..], 3 * r);
  }

  lemma OrderFormula(r: nat)
    requires r < BL_CODES
    ensures Order(r) == if r < 3 then 16 + r else if r == 3 then 0 else if r % 2 == 0 then 8 + (r - 4) / 2 else 7 - (r - 5) / 2
  {
    OrderIs(r);
    hide Order;
  }

  lemma LengthsBelow(cl: seq<nat>)
    requires Complete(cl, 7)
    ensures forall s :: 0 <= s < |cl| ==> cl[s] < 8
  {
    hide Kraft;
  }

  /** A piece in the middle. */
  lemma Slices(h: seq<bool>, a: seq<bool>, b: seq<bool>, c: seq<bool>, i: nat)
    requires h == a + b + c && i + 3 <= |b|
    ensures h[|a| + i..|a| + i + 3] == b[i..i + 3]
  {
  }

  lemma {:induction false} ClBitsAt(cl: seq<nat>, rank: nat, n: nat, r: nat)
    requires |cl| == BL_CODES && rank <= r < n <= BL_CODES
    ensures |ClBits(cl, rank, n)| == 3 * (n - rank)
    ensures ClBits(cl, rank, n)[3 * (r - rank)..3 * (r - rank) + 3] == ToBits(cl[Order(r)], 3)
    decreases n - rank
  {
    hide ToBits, Order;
    var w, rest := ToBits(cl[Order(rank)], 3), ClBits(cl, rank + 1, n);
    ClBitsSize(cl, rank + 1, n);
    if rank == r {
      assert (w + rest)[..3] == w;
    } else {
      ClBitsAt(cl, rank + 1, n, r);
      var i := 3 * (r - rank);
      assert (w + rest)[i..i + 3] == rest[i - 3..i];
    }
  }

  lemma {:induction false} ClBitsSize(cl: seq<nat>, rank: nat, n: nat)
    requires |cl| == BL_CODES && rank <= n <= BL_CODES
    ensures |ClBits(cl, rank, n)| == 3 * (n - rank)
    decreases n - rank
  {
    hide ToBits, Order;
    if rank < n {
      ClBitsSize(cl, rank + 1, n);
    }
  }

  lemma CountsLayout(ll: seq<nat>, dd: seq<nat>, cl: seq<nat>, n: nat)
    requires Sendables(ll, dd, cl, n)
    ensures var h, c := HeaderBits(ll, dd, cl, n), ClBits(cl, 0, n);
            && |c| == 3 * n && |h| >= 14 + |c| && h == h[..14] + c + h[14 + |c|..]
            && FromBits(h[0..5]) == |ll| - 257 && FromBits(h[5..10]) == |dd| - 1 && FromBits(h[10..14]) == n - 4
  {
    hide *;
    SendableSizes(ll, dd, cl, n);
    CountsFit(|ll|, |dd|, n);
    FromToBits(|ll| - 257, 5);
    FromToBits(|dd| - 1, 5);
    FromToBits(n - 4, 4);
    ClBitsSize(cl, 0, n);
    HeaderIs(ll, dd, cl, n);
    FiveParts(ToBits(|ll| - 257, 5), ToBits(|dd| - 1, 5), ToBits(n - 4, 4), ClBits(cl, 0, n), OpsAsBits(ll, dd, cl, n));
  }

  lemma HeaderIs(ll: seq<nat>, dd: seq<nat>, cl: seq<nat>, n: nat)
    requires Sendables(ll, dd, cl, n)
    ensures HeaderBits(ll, dd, cl, n)
         == ToBits(|ll| - 257, 5) + ToBits(|dd| - 1, 5) + ToBits(n - 4, 4) + ClBits(cl, 0, n) + OpsAsBits(ll, dd, cl, n)
  {
    hide ToBits, ClBits, OpsBits, Ops, Complete, AllSendable;
  }

  lemma FiveParts(a: seq<bool>, b: seq<bool>, c: seq<bool>, d: seq<bool>, e: seq<bool>)
    requires |a| == 5 && |b| == 5 && |c| == 4
    ensures var s := a + b + c + d + e;
            && |s| >= 14 + |d| && s[0..5] == a && s[5..10] == b && s[10..14] == c && s == s[..14] + d + s[14 + |d|..]
  {
  }

  function OpsAsBits(ll: seq<nat>, dd: seq<nat>, cl: seq<nat>, n: nat): seq<bool>
    requires Sendables(ll, dd, cl, n)
  {
    OpsBits(cl, Ops(ll) + Ops(dd))
  }

  lemma SendableSizes(ll: seq<nat>, dd: seq<nat>, cl: seq<nat>, n: nat)
    requires Sendables(ll, dd, cl, n)
    ensures 257 <= |ll| <= 286 && 1 <= |dd| <= 30 && 4 <= n <= BL_CODES == 19 == |cl| && Complete(cl, 7)
  {
    hide Complete, AllSendable, Ops;
  }

  /** Symbols 16 to 18 of section 3.2.7: the length before 3 to 6 times, 3 to 10 zeros, 11 to 138. */
  lemma RepeatCodes(cl: seq<nat>, acc: seq<nat>, x: nat)
    requires |cl| == BL_CODES && acc != []
    ensures x < 4 && cl[16] > 0 ==> Sendable(cl, ClOp(16, x)) && OpBits(cl, ClOp(16, x)) == CodeWord(cl, 16) + ToBits(x, 2)
    ensures x < 8 && cl[17] > 0 ==> Sendable(cl, ClOp(17, x)) && OpBits(cl, ClOp(17, x)) == CodeWord(cl, 17) + ToBits(x, 3)
    ensures x < 128 && cl[18] > 0 ==> Sendable(cl, ClOp(18, x)) && OpBits(cl, ClOp(18, x)) == CodeWord(cl, 18) + ToBits(x, 7)
    ensures OpLens(acc, ClOp(16, x)) == acc + Repeat(acc[|acc| - 1], 3 + x)
    ensures OpLens(acc, ClOp(17, x)) == acc + Repeat(0, 3 + x) && OpLens(acc, ClOp(18, x)) == acc + Repeat(0, 11 + x)
  {
    Pow2Values();
    hide CodeWord, ToBits, Pow2;
  }
}
