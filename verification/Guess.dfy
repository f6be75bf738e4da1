/** The guess of ct_tally whether it pays to end a block early. */
module Guessing {
  import opened Bits
  import opened Inflate
  import opened Tokens
  import opened BitLengths
  import opened Sums
  import opened Tables
  import opened Accounting
  import opened Buffers
  import opened DynamicTrees

  /** What a token is taken to cost: a byte, and for a match five bits and the extra bits of
      its distance. */
  function TokenGuess(t: Token): nat
    requires WellFormed(t)
  {
    8 + if t.Match? then 5 + DistExtra(DistCode(t.dist)) else 0
  }

  function GuessBits(ts: seq<Token>): nat
    requires AllWell(ts)
  {
    if ts == [] then 0
    else
      var n := |ts| - 1;
      assert AllWell(ts[..n]) && WellFormed(ts[n]);
      GuessBits(ts[..n]) + TokenGuess(ts[n])
  }

  /** Few matches, and less than half of the input they stand for. */
  predicate Promising(ts: seq<Token>, inLength: nat)
    requires AllWell(ts)
  {
    |ts| % 0x1000 == 0 && Matches(ts) < |ts| / 2 && GuessBits(ts) / 8 < inLength / 2
  }

  /** The guess so far, summed over the first `n` distance codes. */
  ghost function GuessUpTo(ts: seq<Token>, n: nat): int {
    8 * |ts| + Sum(Range(0, n), DistCostAt(ts, FixedDist()))
  }

  lemma ExtraIs(d: nat)
    requires d < DIST_CODES
    ensures DDesc().Extra(d) == DistExtra(d) <= 13
  {
  }

  lemma FiveEach(d: nat)
    requires d < DIST_CODES
    ensures d < |FixedDist()| && FixedDist()[d] == 5
  {
  }

  /** Summed by codes or by tokens, the guess is the same, and it cannot wrap around. */
  lemma {:induction false} GuessBySymbols(ts: seq<Token>)
    requires AllWell(ts)
    ensures GuessUpTo(ts, DIST_CODES) == GuessBits(ts) <= 26 * |ts|
    decreases |ts|
  {
    hide Sum, Range, DistCostAt, FixedDist, DistCode, DistExtra, DDesc, FixedLit;
    if ts == [] {
      EndIsCoded();
      NoTokensCost(FixedLit(), FixedDist());
    } else {
      var n := |ts| - 1;
      var rest, t := ts[..n], ts[n];
      assert AllWell(rest) && ts == rest + [t];
      GuessBySymbols(rest);
      if t.Match? {
        CodeInRange(t.dist);
        ExtraIs(DistCode(t.dist));
        FiveEach(DistCode(t.dist));
      }
      DistCostSnoc(rest, t, FixedDist());
    }
  }

  lemma EndIsCoded()
    ensures END_OF_BLOCK < |FixedLit()|
  {
  }

  lemma CodeInRange(dist: nat)
    requires 1 <= dist <= 32768
    ensures DistCode(dist) < DIST_CODES
  {
  }

  /** One more code. */
  lemma GuessStep(ts: seq<Token>, n: nat)
    requires n < DIST_CODES
    ensures GuessUpTo(ts, n + 1) == GuessUpTo(ts, n) + DistCount(ts, n) * (5 + DistExtra(n))
  {
    assert Range(0, n + 1) == Range(0, n) + [n];
    ExtraIs(n);
    FiveEach(n);
    hide Range, FixedDist, DistExtra, DDesc, DistCount;
    var f := DistCostAt(ts, FixedDist());
    SumConcat(Range(0, n), [n], f);
    SumOne(n, f);
  }

  lemma GuessStart(ts: seq<Token>)
    ensures GuessUpTo(ts, 0) == 8 * |ts|
  {
  }

  /** No part of the sum exceeds the whole. */
  lemma {:induction false} GuessBelow(ts: seq<Token>, n: nat)
    requires n <= DIST_CODES
    ensures 0 <= GuessUpTo(ts, n) <= GuessUpTo(ts, DIST_CODES)
    decreases DIST_CODES - n
  {
    hide GuessUpTo, DistExtra, DistCount;
    NotNegative(ts, n);
    if n < DIST_CODES {
      GuessBelow(ts, n + 1);
      GuessStep(ts, n);
      TimesNat(DistCount(ts, n), 5 + DistExtra(n));
    }
  }

  lemma TimesNat(a: nat, b: nat)
    ensures a * b >= 0
  {
  }

  lemma {:induction false} NotNegative(ts: seq<Token>, n: nat)
    requires n <= DIST_CODES
    ensures GuessUpTo(ts, n) >= 0
  {
    hide *;
    if n == 0 {
      GuessStart(ts);
    } else {
      NotNegative(ts, n - 1);
      GuessStep(ts, n - 1);
      TimesNat(DistCount(ts, n - 1), 5 + DistExtra(n - 1));
    }
  }
}
