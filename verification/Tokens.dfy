/** What the match finder hands to the coder, what it means, and the bits it
    becomes: decoding those bits gives the meaning back. */
module Tokens {
  import opened Bits
  import opened Canonical
  import opened Inflate

  const MIN_MATCH: nat := 3
  const MAX_MATCH: nat := 258

  datatype Token = Lit(b: Byte) | Match(len: nat, dist: nat)

  predicate WellFormed(t: Token) {
    t.Match? ==> MIN_MATCH <= t.len <= MAX_MATCH && 1 <= t.dist <= 32768
  }

  function Apply(out: seq<Byte>, t: Token): (r: seq<Byte>)
    requires t.Match? ==> 1 <= t.dist <= |out|
  {
    match t
    case Lit(b) => out + [b]
    case Match(len, dist) => CopyMatch(out, len, dist)
  }

  /** Every match refers to bytes that exist by then. */
  predicate Meaningful(out: seq<Byte>, ts: seq<Token>)
    decreases |ts|
  {
    ts == []
    || (WellFormed(ts[0]) && (ts[0].Match? ==> ts[0].dist <= |out|)
        && Meaningful(Apply(out, ts[0]), ts[1..]))
  }

  function Expand(out: seq<Byte>, ts: seq<Token>): (r: seq<Byte>)
    requires Meaningful(out, ts)
    decreases |ts|
  {
    if ts == [] then out else Expand(Apply(out, ts[0]), ts[1..])
  }

  lemma {:induction false} ExpandConcat(out: seq<Byte>, a: seq<Token>, b: seq<Token>)
    requires Meaningful(out, a) && Meaningful(Expand(out, a), b)
    ensures Meaningful(out, a + b) && Expand(out, a + b) == Expand(Expand(out, a), b)
    decreases |a|
  {
    if a == [] {
      assert a + b == b;
    } else {
      ExpandConcat(Apply(out, a[0]), a[1..], b);
      assert (a + b)[1..] == a[1..] + b;
    }
  }

  lemma ExpandSnoc(out: seq<Byte>, ts: seq<Token>, t: Token)
    requires Meaningful(out, ts) && WellFormed(t)
    requires t.Match? ==> t.dist <= |Expand(out, ts)|
    ensures Meaningful(out, ts + [t]) && Expand(out, ts + [t]) == Apply(Expand(out, ts), t)
  {
    assert [t][1..] == [];
    ExpandConcat(out, ts, [t]);
  }

  // ----- symbols

  /** The last entry up to `c` of an ascending table that does not exceed `v`. */
  function CodeFor(base: seq<nat>, v: nat, c: nat): (r: nat)
    requires c < |base| && base[0] <= v
    ensures r <= c && base[r] <= v && (r < c ==> v < base[r + 1])
  {
    if base[c] <= v then c else CodeFor(base, v, c - 1)
  }

  function LenCode(len: nat): (c: nat)
    requires MIN_MATCH <= len <= MAX_MATCH
    ensures c < LEN_CODES && LenBase(c) <= len && (c + 1 < LEN_CODES ==> len < LenBase(c + 1))
  {
    CodeFor(LEN_BASE, len, LEN_CODES - 1)
  }

  function DistCode(dist: nat): (d: nat)
    requires 1 <= dist
    ensures d < DIST_CODES && DistBase(d) <= dist && (d + 1 < DIST_CODES ==> dist < DistBase(d + 1))
  {
    CodeFor(DIST_BASE, dist, DIST_CODES - 1)
  }

  lemma LenTable(c: nat)
    requires c < LEN_CODES
    ensures c < 27 ==> LenBase(c + 1) == LenBase(c) + Pow2(LenExtra(c))
    ensures c == 27 ==> LenBase(c + 1) + 1 == LenBase(c) + Pow2(LenExtra(c))
    ensures c + 1 == LEN_CODES ==> LenBase(c) + Pow2(LenExtra(c)) == MAX_MATCH + 1
    ensures LenExtra(c) <= 5
  {
    Pow2Values();
    if c < 15 {
      assert c == 0 || c == 1 || c == 2 || c == 3 || c == 4 || c == 5 || c == 6 || c == 7 || c == 8 || c == 9 || c == 10 || c == 11 || c == 12 || c == 13 || c == 14;
    } else {
      assert c == 15 || c == 16 || c == 17 || c == 18 || c == 19 || c == 20 || c == 21 || c == 22 || c == 23 || c == 24 || c == 25 || c == 26 || c == 27 || c == 28;
    }
  }

  lemma DistTable(c: nat)
    requires c < DIST_CODES
    ensures c + 1 < DIST_CODES ==> DistBase(c + 1) == DistBase(c) + Pow2(DistExtra(c))
    ensures c + 1 == DIST_CODES ==> DistBase(c) + Pow2(DistExtra(c)) == 32769
    ensures DistExtra(c) <= 13
  {
    if c < 15 {
      DistTableLow(c);
    } else {
      DistTableHigh(c);
    }
  }

  lemma DistTableLow(c: nat)
    requires c < 15
    ensures DistBase(c + 1) == DistBase(c) + Pow2(DistExtra(c)) && DistExtra(c) <= 6
  {
    Pow2Values();
    assert c == 0 || c == 1 || c == 2 || c == 3 || c == 4 || c == 5 || c == 6 || c == 7 || c == 8 || c == 9 || c == 10 || c == 11 || c == 12 || c == 13 || c == 14;
  }

  lemma DistTableHigh(c: nat)
    requires 15 <= c < DIST_CODES
    ensures c + 1 < DIST_CODES ==> DistBase(c + 1) == DistBase(c) + Pow2(DistExtra(c))
    ensures c + 1 == DIST_CODES ==> DistBase(c) + Pow2(DistExtra(c)) == 32769
    ensures DistExtra(c) <= 13
  {
    Pow2Values();
    assert c == 15 || c == 16 || c == 17 || c == 18 || c == 19 || c == 20 || c == 21 || c == 22 || c == 23 || c == 24 || c == 25 || c == 26 || c == 27 || c == 28 || c == 29;
  }

  lemma LenFits(len: nat)
    requires MIN_MATCH <= len <= MAX_MATCH
    ensures len - LenBase(LenCode(len)) < Pow2(LenExtra(LenCode(len)))
  {
    LenTable(LenCode(len));
  }

  lemma DistFits(dist: nat)
    requires 1 <= dist <= 32768
    ensures dist - DistBase(DistCode(dist)) < Pow2(DistExtra(DistCode(dist)))
  {
    DistTable(DistCode(dist));
  }

  /** The literal/length symbol of a token. */
  function Sym(t: Token): (s: nat)
    requires WellFormed(t)
    ensures s < 286 && s != END_OF_BLOCK
  {
    match t
    case Lit(b) => b
    case Match(len, _) => 257 + LenCode(len)
  }

  // ----- bits

  predicate Codable(ll: seq<nat>, dd: seq<nat>, t: Token) {
    WellFormed(t) && Sym(t) < |ll| && ll[Sym(t)] > 0
    && (t.Match? ==> DistCode(t.dist) < |dd| && dd[DistCode(t.dist)] > 0)
  }

  ghost predicate AllCodable(ll: seq<nat>, dd: seq<nat>, ts: seq<Token>) {
    forall i :: 0 <= i < |ts| ==> Codable(ll, dd, ts[i])
  }

  function TokenBits(ll: seq<nat>, dd: seq<nat>, t: Token): seq<bool>
    requires Codable(ll, dd, t)
  {
    CodeWord(ll, Sym(t)) + (if t.Lit? then [] else MatchBits(dd, t.len, t.dist))
  }

  /** What follows the length symbol of a match. */
  function MatchBits(dd: seq<nat>, len: nat, dist: nat): seq<bool>
    requires WellFormed(Match(len, dist)) && DistCode(dist) < |dd|
  {
    var c, d := LenCode(len), DistCode(dist);
    ToBits(len - LenBase(c), LenExtra(c)) + (CodeWord(dd, d) + ToBits(dist - DistBase(d), DistExtra(d)))
  }

  function DataBits(ll: seq<nat>, dd: seq<nat>, ts: seq<Token>): seq<bool>
    requires AllCodable(ll, dd, ts) && END_OF_BLOCK < |ll|
    decreases |ts|
  {
    if ts == [] then CodeWord(ll, END_OF_BLOCK) else TokenBits(ll, dd, ts[0]) + DataBits(ll, dd, ts[1..])
  }

  // ----- decoding them

  lemma ReadBitsCorrect(bits: seq<bool>, pos: nat, v: nat, n: nat)
    requires v < Pow2(n) && At(bits, pos, ToBits(v, n))
    ensures ReadBits(bits, pos, n) == Some((v, pos + n))
  {
    FromToBits(v, n);
  }

  lemma MatchFieldsDecode(bits: seq<bool>, pos: nat, dd: seq<nat>, c: nat, e: nat, d: nat, x: nat)
    requires c < LEN_CODES && d < DIST_CODES && Fits(dd, MAX_BITS) && d < |dd| && dd[d] > 0
    requires e < Pow2(LenExtra(c)) && x < Pow2(DistExtra(d))
    requires At(bits, pos, ToBits(e, LenExtra(c)) + (CodeWord(dd, d) + ToBits(x, DistExtra(d))))
    ensures DecodeMatch(bits, pos, dd, 257 + c)
         == Some((LenBase(c) + e, DistBase(d) + x, pos + LenExtra(c) + dd[d] + DistExtra(d)))
  {
    hide *;
    var b0, b1, b2 := ToBits(e, LenExtra(c)), CodeWord(dd, d), ToBits(x, DistExtra(d));
    AtConcat(bits, pos, b0, b1 + b2);
    AtConcat(bits, pos + |b0|, b1, b2);
    ReadBitsCorrect(bits, pos, e, LenExtra(c));
    DecodeSymCorrect(dd, MAX_BITS, d, bits, pos + |b0|);
    ReadBitsCorrect(bits, pos + |b0| + |b1|, x, DistExtra(d));
    MatchSteps(bits, pos, dd, c, e, pos + |b0|, d, pos + |b0| + |b1|, x, pos + |b0| + |b1| + |b2|);
  }

  lemma MatchSteps(bits: seq<bool>, pos: nat, dd: seq<nat>, c: nat, e: nat, p: nat, d: nat, q: nat, x: nat, r: nat)
    requires c < LEN_CODES && d < DIST_CODES
    requires ReadBits(bits, pos, LenExtra(c)) == Some((e, p)) && DecodeSym(dd, bits, p) == Some((d, q))
    requires ReadBits(bits, q, DistExtra(d)) == Some((x, r))
    ensures DecodeMatch(bits, pos, dd, 257 + c) == Some((LenBase(c) + e, DistBase(d) + x, r))
  {
    hide ReadBits, DecodeSym, LenBase, LenExtra, DistBase, DistExtra;
  }

  lemma MatchDecodes(bits: seq<bool>, pos: nat, dd: seq<nat>, len: nat, dist: nat)
    requires WellFormed(Match(len, dist)) && Fits(dd, MAX_BITS)
    requires DistCode(dist) < |dd| && dd[DistCode(dist)] > 0
    requires At(bits, pos, MatchBits(dd, len, dist))
    ensures DecodeMatch(bits, pos, dd, 257 + LenCode(len))
         == Some((len, dist, pos + |MatchBits(dd, len, dist)|))
  {
    hide ToBits, CodeWord, Fits, Pow2, DecodeMatch, At, LenBase, LenExtra, DistBase, DistExtra;
    var c, d := LenCode(len), DistCode(dist);
    LenFits(len);
    DistFits(dist);
    MatchFieldsDecode(bits, pos, dd, c, len - LenBase(c), d, dist - DistBase(d));
  }

  lemma DataEnd(bits: seq<bool>, pos: nat, ll: seq<nat>, dd: seq<nat>, out: seq<Byte>)
    requires Fits(ll, MAX_BITS) && END_OF_BLOCK < |ll| && ll[END_OF_BLOCK] > 0 && AllCodable(ll, dd, [])
    requires At(bits, pos, DataBits(ll, dd, []))
    ensures DecodeData(bits, pos, ll, dd, out) == Some((pos + |DataBits(ll, dd, [])|, Expand(out, [])))
  {
    hide CodeWord, Fits, DecodeMatch, DecodeSym, At;
    DecodeSymCorrect(ll, MAX_BITS, END_OF_BLOCK, bits, pos);
  }

  lemma DataFirst(bits: seq<bool>, pos: nat, ll: seq<nat>, dd: seq<nat>, out: seq<Byte>, ts: seq<Token>)
    requires END_OF_BLOCK < |ll| && AllCodable(ll, dd, ts) && Meaningful(out, ts) && ts != []
    requires At(bits, pos, DataBits(ll, dd, ts))
    ensures Codable(ll, dd, ts[0]) && AllCodable(ll, dd, ts[1..]) && (ts[0].Match? ==> 1 <= ts[0].dist <= |out|)
    ensures Meaningful(Apply(out, ts[0]), ts[1..]) && Expand(out, ts) == Expand(Apply(out, ts[0]), ts[1..])
    ensures At(bits, pos, TokenBits(ll, dd, ts[0]))
    ensures At(bits, pos + |TokenBits(ll, dd, ts[0])|, DataBits(ll, dd, ts[1..]))
    ensures |DataBits(ll, dd, ts)| == |TokenBits(ll, dd, ts[0])| + |DataBits(ll, dd, ts[1..])|
  {
    hide Apply, TokenBits, At;
    AtParts(bits, pos, DataBits(ll, dd, ts), TokenBits(ll, dd, ts[0]), DataBits(ll, dd, ts[1..]));
  }

  /** The bits of one token are read as the token. */
  lemma TokenDecodes(bits: seq<bool>, pos: nat, ll: seq<nat>, dd: seq<nat>, out: seq<Byte>, t: Token)
    requires Fits(ll, MAX_BITS) && Fits(dd, MAX_BITS) && Codable(ll, dd, t) && (t.Match? ==> 1 <= t.dist <= |out|)
    requires At(bits, pos, TokenBits(ll, dd, t))
    ensures DecodeData(bits, pos, ll, dd, out) == DecodeData(bits, pos + |TokenBits(ll, dd, t)|, ll, dd, Apply(out, t))
  {
    hide CodeWord, Fits, DecodeMatch, DecodeSym, At, MatchBits, LenCode, DistCode, LenBase, DistBase, CopyMatch;
    var w := CodeWord(ll, Sym(t));
    AtConcat(bits, pos, w, TokenBits(ll, dd, t)[|w|..]);
    DecodeSymCorrect(ll, MAX_BITS, Sym(t), bits, pos);
    if t.Match? {
      MatchDecodes(bits, pos + |w|, dd, t.len, t.dist);
    }
  }

  /** The bits of a block's tokens decode to what the tokens mean. */
  lemma {:induction false} DataDecodes(bits: seq<bool>, pos: nat, ll: seq<nat>, dd: seq<nat>, out: seq<Byte>, ts: seq<Token>)
    requires Fits(ll, MAX_BITS) && Fits(dd, MAX_BITS)
    requires END_OF_BLOCK < |ll| && ll[END_OF_BLOCK] > 0 && AllCodable(ll, dd, ts)
    requires Meaningful(out, ts)
    requires At(bits, pos, DataBits(ll, dd, ts))
    ensures DecodeData(bits, pos, ll, dd, out) == Some((pos + |DataBits(ll, dd, ts)|, Expand(out, ts)))
    decreases |ts|
  {
    hide *;
    if ts == [] {
      DataEnd(bits, pos, ll, dd, out);
    } else {
      var t := ts[0];
      DataFirst(bits, pos, ll, dd, out, ts);
      TokenDecodes(bits, pos, ll, dd, out, t);
      DataDecodes(bits, pos + |TokenBits(ll, dd, t)|, ll, dd, Apply(out, t), ts[1..]);
    }
  }
}
