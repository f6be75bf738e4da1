/** Counting symbols, and the exact lengths of what will be sent. */
module Accounting {
  import opened Bits
  import opened Canonical
  import opened Inflate
  import opened Tokens
  import opened RunLengths
  import opened TreeCoding
  import opened Sums
  import opened BitLengths
  import opened Tables
  import opened Blocks

  // ----- the three tree descriptions

  const EXTRA_BLBITS: seq<nat> := [0, 0, 0, 0, 0, 0, 0, 0, 0, 0, 0, 0, 0, 0, 0, 0, 2, 3, 7]

  function LDesc(): TreeDesc {
    TreeDesc(L_CODES, MAX_BITS, 257, EXTRA_LBITS, true, FixedLit())
  }

  function DDesc(): TreeDesc {
    TreeDesc(DIST_CODES, MAX_BITS, 0, EXTRA_DBITS, true, FixedDist())
  }

  function BDesc(): TreeDesc {
    TreeDesc(BL_CODES, 7, 0, EXTRA_BLBITS, false, [])
  }

  lemma LDescValid()
    ensures LDesc().Valid()
  {
    Pow2Values();
    assert forall n :: 0 <= n < 3 ==> LDesc().Extra(n) == 0;
  }

  lemma DDescValid()
    ensures DDesc().Valid()
  {
    Pow2Values();
    assert EXTRA_DBITS[0] == 0 && EXTRA_DBITS[1] == 0 && EXTRA_DBITS[2] == 0;
  }

  lemma BDescValid()
    ensures BDesc().Valid()
  {
    Pow2Values();
    assert EXTRA_BLBITS[0] == 0 && EXTRA_BLBITS[1] == 0 && EXTRA_BLBITS[2] == 0;
  }

  lemma DescsValid()
    ensures LDesc().Valid() && DDesc().Valid() && BDesc().Valid()
  {
    LDescValid();
    DDescValid();
    BDescValid();
    hide *;
  }

  // ----- how often symbols occur

  predicate HasSym(t: Token, s: nat) {
    WellFormed(t) && Sym(t) == s
  }

  predicate HasDist(t: Token, d: nat) {
    WellFormed(t) && t.Match? && DistCode(t.dist) == d
  }

  /** Occurrences of a literal/length symbol; the end symbol occurs once. */
  function LitCount(ts: seq<Token>, s: nat): nat {
    if ts == [] then if s == END_OF_BLOCK then 1 else 0
    else LitCount(ts[..|ts| - 1], s) + (if HasSym(ts[|ts| - 1], s) then 1 else 0)
  }

  function DistCount(ts: seq<Token>, d: nat): nat {
    if ts == [] then 0 else DistCount(ts[..|ts| - 1], d) + (if HasDist(ts[|ts| - 1], d) then 1 else 0)
  }

  lemma CountsSnoc(ts: seq<Token>, t: Token)
    ensures forall s: nat :: LitCount(ts + [t], s) == LitCount(ts, s) + (if HasSym(t, s) then 1 else 0)
    ensures forall d: nat :: DistCount(ts + [t], d) == DistCount(ts, d) + (if HasDist(t, d) then 1 else 0)
  {
    assert (ts + [t])[..|ts|] == ts;
  }

  lemma {:induction false} CountedSymbols(ts: seq<Token>, i: nat)
    requires i < |ts| && WellFormed(ts[i])
    ensures LitCount(ts, Sym(ts[i])) > 0
    ensures ts[i].Match? ==> DistCount(ts, DistCode(ts[i].dist)) > 0
    decreases |ts|
  {
    if i < |ts| - 1 {
      CountedSymbols(ts[..|ts| - 1], i);
    }
  }

  lemma {:induction false} EndCounted(ts: seq<Token>)
    ensures LitCount(ts, END_OF_BLOCK) > 0
  {
    if ts != [] {
      EndCounted(ts[..|ts| - 1]);
    }
  }

  // ----- the length of the data

  ghost function LitCostAt(ts: seq<Token>, ll: seq<nat>): nat -> int {
    (s: nat) => if s < |ll| then LitCount(ts, s) * (ll[s] + LDesc().Extra(s)) else 0
  }

  ghost function DistCostAt(ts: seq<Token>, dd: seq<nat>): nat -> int {
    (d: nat) => if d < |dd| then DistCount(ts, d) * (dd[d] + DDesc().Extra(d)) else 0
  }

  lemma {:induction false} DataBitsSnoc(ll: seq<nat>, dd: seq<nat>, ts: seq<Token>, t: Token)
    requires AllCodable(ll, dd, ts + [t]) && END_OF_BLOCK < |ll|
    ensures AllCodable(ll, dd, ts) && Codable(ll, dd, t)
    ensures |DataBits(ll, dd, ts + [t])| == |DataBits(ll, dd, ts)| + |TokenBits(ll, dd, t)|
    decreases |ts|
  {
    var all := ts + [t];
    assert all[|ts|] == t;
    assert forall i :: 0 <= i < |ts| ==> all[i] == ts[i];
    hide Codable, TokenBits;
    if ts == [] {
      assert all == [t] && all[1..] == [];
    } else {
      assert all[1..] == ts[1..] + [t] && all[0] == ts[0];
      DataBitsSnoc(ll, dd, ts[1..], t);
    }
  }

  lemma SymExtra(t: Token)
    requires WellFormed(t)
    ensures LDesc().Extra(Sym(t)) == if t.Lit? then 0 else LenExtra(LenCode(t.len))
    ensures t.Match? ==> DDesc().Extra(DistCode(t.dist)) == DistExtra(DistCode(t.dist))
    ensures LDesc().Extra(END_OF_BLOCK) == 0
  {
  }

  lemma TokenLength(ll: seq<nat>, dd: seq<nat>, t: Token)
    requires Codable(ll, dd, t)
    ensures |TokenBits(ll, dd, t)|
         == ll[Sym(t)] + LDesc().Extra(Sym(t))
            + (if t.Match? then dd[DistCode(t.dist)] + DDesc().Extra(DistCode(t.dist)) else 0)
  {
    hide LDesc, DDesc, LenCode, DistCode, LenBase, DistBase, CodeWord;
    SymExtra(t);
  }

  lemma LitCostOne(ts: seq<Token>, t: Token, ll: seq<nat>)
    requires WellFormed(t) && Sym(t) < |ll|
    ensures forall s: nat :: s != Sym(t) ==> LitCostAt(ts + [t], ll)(s) == LitCostAt(ts, ll)(s)
    ensures LitCostAt(ts + [t], ll)(Sym(t)) == LitCostAt(ts, ll)(Sym(t)) + ll[Sym(t)] + LDesc().Extra(Sym(t))
  {
    CountsSnoc(ts, t);
    hide LDesc, LenCode, LitCount, WellFormed, Sym;
    OneMore(LitCount(ts, Sym(t)), ll[Sym(t)] + LDesc().Extra(Sym(t)));
  }

  lemma LitCostSnoc(ts: seq<Token>, t: Token, ll: seq<nat>)
    requires WellFormed(t) && Sym(t) < |ll|
    ensures Sum(Range(0, L_CODES), LitCostAt(ts + [t], ll))
         == Sum(Range(0, L_CODES), LitCostAt(ts, ll)) + ll[Sym(t)] + LDesc().Extra(Sym(t))
  {
    var s := Sym(t);
    var f, g := LitCostAt(ts, ll), LitCostAt(ts + [t], ll);
    LitCostOne(ts, t, ll);
    RangeDistinct(0, L_CODES);
    assert Range(0, L_CODES)[s] == s;
    hide *;
    SumUpdate(Range(0, L_CODES), s, f, g);
  }

  lemma OneMore(n: nat, c: nat)
    ensures (n + 1) * c == n * c + c
  {
  }

  lemma DistCostOne(ts: seq<Token>, t: Token, dd: seq<nat>)
    requires WellFormed(t) && (t.Match? ==> DistCode(t.dist) < |dd|)
    ensures forall d: nat :: t.Lit? || d != DistCode(t.dist) ==> DistCostAt(ts + [t], dd)(d) == DistCostAt(ts, dd)(d)
    ensures t.Match? ==>
              var d := DistCode(t.dist);
              DistCostAt(ts + [t], dd)(d) == DistCostAt(ts, dd)(d) + dd[d] + DDesc().Extra(d)
  {
    CountsSnoc(ts, t);
    hide DDesc, DistCode, DistCount, WellFormed;
    if t.Match? {
      var d := DistCode(t.dist);
      OneMore(DistCount(ts, d), dd[d] + DDesc().Extra(d));
    }
  }

  lemma DistCostSnoc(ts: seq<Token>, t: Token, dd: seq<nat>)
    requires WellFormed(t) && (t.Match? ==> DistCode(t.dist) < |dd|)
    ensures Sum(Range(0, DIST_CODES), DistCostAt(ts + [t], dd))
         == Sum(Range(0, DIST_CODES), DistCostAt(ts, dd))
            + (if t.Match? then dd[DistCode(t.dist)] + DDesc().Extra(DistCode(t.dist)) else 0)
  {
    var f, g := DistCostAt(ts, dd), DistCostAt(ts + [t], dd);
    DistCostOne(ts, t, dd);
    RangeDistinct(0, DIST_CODES);
    if t.Match? {
      var d := DistCode(t.dist);
      assert Range(0, DIST_CODES)[d] == d;
      hide *;
      SumUpdate(Range(0, DIST_CODES), d, f, g);
    } else {
      hide *;
      SumCong(Range(0, DIST_CODES), f, g);
    }
  }

  lemma NoTokens(ll: seq<nat>, dd: seq<nat>)
    ensures forall s: nat :: s < |ll| ==> LitCostAt([], ll)(s) == if s == END_OF_BLOCK then ll[s] else 0
    ensures forall d: nat :: d < |dd| ==> DistCostAt([], dd)(d) == 0
  {
    assert LDesc().Extra(END_OF_BLOCK) == 0;
    hide LDesc, DDesc;
  }

  lemma NoTokensCost(ll: seq<nat>, dd: seq<nat>)
    requires END_OF_BLOCK < |ll|
    ensures Sum(Range(0, L_CODES), LitCostAt([], ll)) == ll[END_OF_BLOCK]
    ensures Sum(Range(0, DIST_CODES), DistCostAt([], dd)) == 0
  {
    var r, zero, f, g := Range(0, L_CODES), (s: nat) => 0, LitCostAt([], ll), DistCostAt([], dd);
    RangeDistinct(0, L_CODES);
    assert r[END_OF_BLOCK] == END_OF_BLOCK;
    NoTokens(ll, dd);
    hide Sum, LDesc, DDesc, Range, LitCount, DistCount;
    forall s | s in r && s != END_OF_BLOCK ensures f(s) == 0 {
    }
    assert f(END_OF_BLOCK) == ll[END_OF_BLOCK];
    SumUpdate(r, END_OF_BLOCK, zero, f);
    SumZero(r, zero);
    SumZero(Range(0, DIST_CODES), g);
  }

  /** The data of a block takes, for every symbol, its count times its length. */
  lemma {:induction false} DataLength(ll: seq<nat>, dd: seq<nat>, ts: seq<Token>)
    requires AllCodable(ll, dd, ts) && END_OF_BLOCK < |ll|
    ensures |DataBits(ll, dd, ts)|
         == Sum(Range(0, L_CODES), LitCostAt(ts, ll)) + Sum(Range(0, DIST_CODES), DistCostAt(ts, dd))
    decreases |ts|
  {
    hide Sum, Range, LitCostAt, DistCostAt, LDesc, DDesc, TokenBits;
    if ts == [] {
      NoTokensCost(ll, dd);
    } else {
      var rest, t := ts[..|ts| - 1], ts[|ts| - 1];
      assert ts == rest + [t];
      DataBitsSnoc(ll, dd, rest, t);
      DataLength(ll, dd, rest);
      TokenLength(ll, dd, t);
      LitCostSnoc(rest, t, ll);
      DistCostSnoc(rest, t, dd);
    }
  }

  /** A token takes at most two codes and 5 + 13 extra bits. */
  lemma TokenBound(ll: seq<nat>, dd: seq<nat>, t: Token, a: nat, b: nat)
    requires Codable(ll, dd, t)
    requires forall s :: 0 <= s < |ll| ==> ll[s] <= b && (s >= 256 ==> ll[s] <= a)
    requires forall d :: 0 <= d < |dd| ==> dd[d] <= a
    requires b <= a + a
    ensures |TokenBits(ll, dd, t)| <= a + 5 + a + 13
  {
    TokenLength(ll, dd, t);
    SymExtra(t);
    if t.Match? {
      LenTable(LenCode(t.len));
      DistTable(DistCode(t.dist));
    }
  }

  lemma {:induction false} DataBound(ll: seq<nat>, dd: seq<nat>, ts: seq<Token>, a: nat, b: nat)
    requires AllCodable(ll, dd, ts) && END_OF_BLOCK < |ll|
    requires forall s :: 0 <= s < |ll| ==> ll[s] <= b && (s >= 256 ==> ll[s] <= a)
    requires forall d :: 0 <= d < |dd| ==> dd[d] <= a
    requires b <= a + a
    ensures |DataBits(ll, dd, ts)| <= (a + 5 + a + 13) * |ts| + a
    decreases |ts|
  {
    hide TokenBits, Codable, CodeWord;
    if ts == [] {
      assert |CodeWord(ll, END_OF_BLOCK)| == ll[END_OF_BLOCK];
    } else {
      DataBound(ll, dd, ts[1..], a, b);
      TokenBound(ll, dd, ts[0], a, b);
      OneMore(|ts| - 1, a + 5 + a + 13);
      assert |DataBits(ll, dd, ts)| == |TokenBits(ll, dd, ts[0])| + |DataBits(ll, dd, ts[1..])|;
    }
  }

  // ----- the length of the code lengths

  ghost function OpCostAt(ops: seq<ClOp>, cl: seq<nat>): nat -> int {
    (s: nat) => if s < |cl| then CountOps(ops, s) * (cl[s] + BDesc().Extra(s)) else 0
  }

  lemma OpExtra(s: nat)
    requires s < BL_CODES
    ensures BDesc().Extra(s) == ExtraBits(s)
  {
    assert s == 0 || s == 1 || s == 2 || s == 3 || s == 4 || s == 5 || s == 6 || s == 7 || s == 8 || s == 9 || s == 10
      || s == 11 || s == 12 || s == 13 || s == 14 || s == 15 || s == 16 || s == 17 || s == 18;
  }

  /** The same for the run-length symbols. */
  lemma {:induction false} OpsLength(cl: seq<nat>, ops: seq<ClOp>)
    requires AllSendable(cl, ops) && |cl| == BL_CODES
    ensures |OpsBits(cl, ops)| == Sum(Range(0, BL_CODES), OpCostAt(ops, cl))
    decreases |ops|
  {
    hide BDesc, Sum, Range, ExtraBits;
    var r := Range(0, BL_CODES);
    if ops == [] {
      RangeMembers(0, BL_CODES);
      SumZero(r, OpCostAt(ops, cl));
    } else {
      OpsLength(cl, ops[1..]);
      var s := ops[0].sym;
      assert Sendable(cl, ops[0]);
      RangeDistinct(0, BL_CODES);
      assert r[s] == s;
      SumUpdate(r, s, OpCostAt(ops[1..], cl), OpCostAt(ops, cl));
      OpExtra(s);
      OneMore(CountOps(ops[1..], s), cl[s] + BDesc().Extra(s));
    }
  }

  lemma {:induction false} OpsBound(cl: seq<nat>, ops: seq<ClOp>)
    requires AllSendable(cl, ops) && forall s :: 0 <= s < |cl| ==> cl[s] <= 7
    ensures |OpsBits(cl, ops)| <= 14 * |ops|
    decreases |ops|
  {
    if ops != [] {
      OpsBound(cl, ops[1..]);
      assert Sendable(cl, ops[0]);
    }
  }

  /** Every operation stands for at least one length. */
  lemma {:induction false} OpsShort(acc: seq<nat>, ops: seq<ClOp>)
    ensures |OpsLens(acc, ops)| >= |acc| + |ops|
    decreases |ops|
  {
    if ops != [] {
      OpsShort(OpLens(acc, ops[0]), ops[1..]);
    }
  }

  lemma {:induction false} ClLength(cl: seq<nat>, rank: nat, n: nat)
    requires |cl| == BL_CODES && rank <= n <= BL_CODES
    ensures |ClBits(cl, rank, n)| == 3 * (n - rank)
    decreases n - rank
  {
    if rank < n {
      ClLength(cl, rank + 1, n);
    }
  }
}
