/** The three trees of a block with its own codes: built by flush_block and
    build_bl_tree, sent by send_all_trees, and paid for in opt_len and static_len. */
module DynamicTrees {
  import opened Bits
  import opened Canonical
  import opened Inflate
  import opened Tokens
  import opened RunLengths
  import opened BitWriting
  import opened TreeCoding
  import opened Sums
  import opened Forests
  import opened BitLengths
  import opened Optimality
  import opened Combining
  import opened TreeBuilding
  import opened Tables
  import opened Blocks
  import opened Accounting
  import opened Buffers
  import opened Sending

  /** The frequency tables count the pending tokens. */
  ghost predicate Tallied(ts: seq<Token>, fcL: seq<nat>, fcD: seq<nat>, fcB: seq<nat>) {
    |fcL| == 2 * L_CODES + 1 && |fcD| == 2 * DIST_CODES + 1 && |fcB| == 2 * BL_CODES + 1
    && (forall s: nat :: s < L_CODES ==> fcL[s] == LitCount(ts, s))
    && (forall d: nat :: d < DIST_CODES ==> fcD[d] == DistCount(ts, d))
    && (forall b: nat :: b < BL_CODES ==> fcB[b] == 0)
  }

  ghost predicate AllWell(ts: seq<Token>) {
    forall i :: 0 <= i < |ts| ==> WellFormed(ts[i])
  }

  // ----- totals fit 16-bit counters

  ghost function LitCountAt(ts: seq<Token>): nat -> int {
    (s: nat) => LitCount(ts, s)
  }

  ghost function DistCountAt(ts: seq<Token>): nat -> int {
    (d: nat) => DistCount(ts, d)
  }

  lemma LitAt(s: nat)
    requires s < L_CODES
    ensures |Range(0, L_CODES)| == L_CODES && Range(0, L_CODES)[s] == s
  {
  }

  lemma NoLitCounts()
    ensures forall s: nat :: s != END_OF_BLOCK ==> LitCountAt([])(s) == 0
    ensures LitCountAt([])(END_OF_BLOCK) == 1
  {
    NoLits();
    hide LitCount;
  }

  lemma LitCountMore(ts: seq<Token>, t: Token)
    requires WellFormed(t)
    ensures forall s: nat :: s != Sym(t) ==> LitCountAt(ts + [t])(s) == LitCountAt(ts)(s)
    ensures LitCountAt(ts + [t])(Sym(t)) == LitCountAt(ts)(Sym(t)) + 1
  {
    CountsSnoc(ts, t);
    hide LitCount, WellFormed, Sym;
  }

  lemma {:induction false} LitTotal(ts: seq<Token>)
    requires AllWell(ts)
    ensures Sum(Range(0, L_CODES), LitCountAt(ts)) == |ts| + 1
    decreases |ts|
  {
    hide Sum, LitCount, WellFormed, Range, LitCountAt;
    var r, g := Range(0, L_CODES), LitCountAt(ts);
    RangeDistinct(0, L_CODES);
    if ts == [] {
      var zero := (s: nat) => 0;
      LitAt(END_OF_BLOCK);
      NoLitCounts();
      SumUpdate(r, END_OF_BLOCK, zero, g);
      SumZero(r, zero);
    } else {
      var rest, t := ts[..|ts| - 1], ts[|ts| - 1];
      assert ts == rest + [t];
      LitTotal(rest);
      LitCountMore(rest, t);
      LitAt(Sym(t));
      SumUpdate(r, Sym(t), LitCountAt(rest), g);
    }
  }

  lemma NoLits()
    ensures forall s: nat :: LitCount([], s) == if s == END_OF_BLOCK then 1 else 0
  {
  }

  lemma DistAt(d: nat)
    requires d < DIST_CODES
    ensures |Range(0, DIST_CODES)| == DIST_CODES && Range(0, DIST_CODES)[d] == d
  {
  }

  lemma NoDistCounts()
    ensures forall d: nat :: DistCountAt([])(d) == 0
  {
  }

  /** One more token. */
  lemma DistCountMore(ts: seq<Token>, t: Token)
    requires WellFormed(t)
    ensures t.Lit? ==> forall d: nat :: DistCountAt(ts + [t])(d) == DistCountAt(ts)(d)
    ensures t.Match? ==> DistCode(t.dist) < DIST_CODES && DistCountAt(ts + [t])(DistCode(t.dist)) == DistCountAt(ts)(DistCode(t.dist)) + 1
    ensures t.Match? ==> forall d: nat :: d != DistCode(t.dist) ==> DistCountAt(ts + [t])(d) == DistCountAt(ts)(d)
  {
    CountsSnoc(ts, t);
    hide DistCount;
  }

  lemma {:induction false} DistTotal(ts: seq<Token>)
    requires AllWell(ts)
    ensures Sum(Range(0, DIST_CODES), DistCountAt(ts)) <= |ts|
    decreases |ts|
  {
    hide Sum, Range, DistCount, DistCountAt, WellFormed, DistCode;
    var r, g := Range(0, DIST_CODES), DistCountAt(ts);
    RangeDistinct(0, DIST_CODES);
    if ts == [] {
      NoDistCounts();
      SumZero(r, g);
    } else {
      var rest, t := ts[..|ts| - 1], ts[|ts| - 1];
      assert ts == rest + [t];
      DistTotal(rest);
      DistCountMore(rest, t);
      if t.Match? {
        DistAt(DistCode(t.dist));
        SumUpdate(r, DistCode(t.dist), DistCountAt(rest), g);
      } else {
        SumCong(r, DistCountAt(rest), g);
      }
    }
  }

  lemma {:induction false} OpsTotal(ops: seq<ClOp>)
    ensures Sum(Range(0, BL_CODES), (s: nat) => CountOps(ops, s)) <= |ops|
    decreases |ops|
  {
    var r, g := Range(0, BL_CODES), (s: nat) => CountOps(ops, s);
    RangeDistinct(0, BL_CODES);
    if ops == [] {
      SumZero(r, g);
    } else {
      hide Sum;
      OpsTotal(ops[1..]);
      var s, f := ops[0].sym, (s: nat) => CountOps(ops[1..], s);
      if s < BL_CODES {
        assert r[s] == s;
        SumUpdate(r, s, f, g);
      } else {
        SumCong(r, f, g);
      }
    }
  }

  /** The totals build_tree is given. */
  lemma TallyTotals(ts: seq<Token>, fcL: seq<nat>, fcD: seq<nat>, fcB: seq<nat>)
    requires Tallied(ts, fcL, fcD, fcB) && AllWell(ts) && |ts| < LIT_BUFSIZE
    ensures Sum(Range(0, L_CODES), FreqAt(fcL)) + 2 < 0x1_0000
    ensures Sum(Range(0, DIST_CODES), FreqAt(fcD)) + 2 < 0x1_0000
  {
    hide LitCount, DistCount, Sum;
    LitTotal(ts);
    DistTotal(ts);
    RangeMembers(0, L_CODES);
    RangeMembers(0, DIST_CODES);
    SumCong(Range(0, L_CODES), LitCountAt(ts), FreqAt(fcL));
    SumCong(Range(0, DIST_CODES), DistCountAt(ts), FreqAt(fcD));
  }

  // ----- what the first two trees give

  lemma LitTree(ts: seq<Token>, f0: seq<nat>, freq: seq<nat>, leaves: seq<nat>, codes: seq<nat>, dl: seq<nat>, c: seq<nat>,
                maxCode: nat)
    requires TreeBuilt(f0, freq, leaves, codes, dl, c, LDesc(), maxCode) && |f0| == |codes| == |dl| == 2 * L_CODES + 1
    requires forall s: nat :: s < L_CODES ==> f0[s] == LitCount(ts, s)
    ensures maxCode < L_CODES && Complete(dl[..maxCode + 1], MAX_BITS)
    ensures CodeTree(codes, dl).Ready(dl[..maxCode + 1])
    ensures forall s: nat :: s < L_CODES && LitCount(ts, s) > 0 ==> s <= maxCode && dl[s] > 0
    ensures Sum(Range(0, L_CODES), CostAt(f0, dl, LDesc())) == Sum(Range(0, L_CODES), LitCostAt(ts, dl[..maxCode + 1]))
  {
    hide Forced, LitCount, Complete, CountsMatch, Sum, Coded, FixedLit, Range, CostAt, LitCostAt, TreeDesc.Extra;
    LitCosts(ts, f0, dl, maxCode);
  }

  lemma LitCosts(ts: seq<Token>, f0: seq<nat>, dl: seq<nat>, maxCode: nat)
    requires |f0| == |dl| == 2 * L_CODES + 1 && maxCode < L_CODES && forall s: nat :: s < L_CODES ==> f0[s] == LitCount(ts, s)
    requires forall s: nat :: maxCode < s < L_CODES ==> f0[s] == 0
    ensures Sum(Range(0, L_CODES), CostAt(f0, dl, LDesc())) == Sum(Range(0, L_CODES), LitCostAt(ts, dl[..maxCode + 1]))
  {
    hide LitCount, Sum, TreeDesc.Extra, FixedLit, Range;
    RangeMembers(0, L_CODES);
    SumCong(Range(0, L_CODES), CostAt(f0, dl, LDesc()), LitCostAt(ts, dl[..maxCode + 1]));
  }

  lemma DistTree(ts: seq<Token>, f0: seq<nat>, freq: seq<nat>, leaves: seq<nat>, codes: seq<nat>, dl: seq<nat>, c: seq<nat>,
                 maxCode: nat)
    requires TreeBuilt(f0, freq, leaves, codes, dl, c, DDesc(), maxCode) && |f0| == |codes| == |dl| == 2 * DIST_CODES + 1
    requires forall s: nat :: s < DIST_CODES ==> f0[s] == DistCount(ts, s)
    ensures maxCode < DIST_CODES && Complete(dl[..maxCode + 1], MAX_BITS)
    ensures CodeTree(codes, dl).Ready(dl[..maxCode + 1])
    ensures forall s: nat :: s < DIST_CODES && DistCount(ts, s) > 0 ==> s <= maxCode && dl[s] > 0
    ensures Sum(Range(0, DIST_CODES), CostAt(f0, dl, DDesc())) == Sum(Range(0, DIST_CODES), DistCostAt(ts, dl[..maxCode + 1]))
  {
    hide Forced, DistCount, Complete, CountsMatch, Sum, Coded, FixedDist, Range, TreeDesc.Extra, EXTRA_DBITS;
    RangeMembers(0, DIST_CODES);
    SumCong(Range(0, DIST_CODES), CostAt(f0, dl, DDesc()), DistCostAt(ts, dl[..maxCode + 1]));
  }

  lemma CodableFrom(ts: seq<Token>, ll: seq<nat>, dd: seq<nat>)
    requires AllWell(ts)
    requires forall s: nat :: s < L_CODES && LitCount(ts, s) > 0 ==> s < |ll| && ll[s] > 0
    requires forall d: nat :: d < DIST_CODES && DistCount(ts, d) > 0 ==> d < |dd| && dd[d] > 0
    ensures AllCodable(ll, dd, ts) && END_OF_BLOCK < |ll| && ll[END_OF_BLOCK] > 0
  {
    hide LitCount, DistCount, LenCode, DistCode;
    EndCounted(ts);
    forall i | 0 <= i < |ts| ensures Codable(ll, dd, ts[i]) {
      CountedSymbols(ts, i);
    }
  }

  lemma FixedCodable(ts: seq<Token>)
    requires AllWell(ts)
    ensures AllCodable(FixedLit(), FixedDist(), ts)
    ensures END_OF_BLOCK < |FixedLit()| && FixedLit()[END_OF_BLOCK] > 0
  {
    hide LenCode, DistCode;
    forall i | 0 <= i < |ts| ensures Codable(FixedLit(), FixedDist(), ts[i]) {
    }
  }

  /** static_len is the exact length of the data in the fixed codes. */
  lemma StaticLength(ts: seq<Token>, fcL: seq<nat>, fcD: seq<nat>, fcB: seq<nat>)
    requires Tallied(ts, fcL, fcD, fcB) && AllWell(ts)
    ensures AllCodable(FixedLit(), FixedDist(), ts) && END_OF_BLOCK < |FixedLit()|
    ensures Sum(Range(0, L_CODES), StaticCostAt(fcL, LDesc())) + Sum(Range(0, DIST_CODES), StaticCostAt(fcD, DDesc()))
         == |DataBits(FixedLit(), FixedDist(), ts)|
  {
    hide LitCount, DistCount, Sum, FixedLit, FixedDist, Range, TreeDesc.Extra, EXTRA_DBITS, EXTRA_LBITS, DataBits, AllCodable,
         WellFormed;
    FixedCodable(ts);
    DataLength(FixedLit(), FixedDist(), ts);
    RangeMembers(0, L_CODES);
    RangeMembers(0, DIST_CODES);
    SumCong(Range(0, L_CODES), StaticCostAt(fcL, LDesc()), LitCostAt(ts, FixedLit()));
    SumCong(Range(0, DIST_CODES), StaticCostAt(fcD, DDesc()), DistCostAt(ts, FixedDist()));
  }

  /** Data of at most 8191 tokens is far below 2^32 bits. */
  lemma DataSmall(ll: seq<nat>, dd: seq<nat>, ts: seq<Token>)
    requires AllCodable(ll, dd, ts) && END_OF_BLOCK < |ll| && |ts| < LIT_BUFSIZE
    requires Bounded(ll, MAX_BITS) && Bounded(dd, MAX_BITS)
    ensures |DataBits(ll, dd, ts)| < 500_000
  {
    hide DataBits, AllCodable;
    DataBound(ll, dd, ts, 15, 15);
  }

  /** In the fixed codes it is small enough for a stored block to be shorter than 64K. */
  lemma FixedDataSmall(ts: seq<Token>)
    requires AllCodable(FixedLit(), FixedDist(), ts) && END_OF_BLOCK < |FixedLit()| && |ts| < LIT_BUFSIZE
    ensures |DataBits(FixedLit(), FixedDist(), ts)| < 300_000
  {
    hide DataBits, AllCodable;
    DataBound(FixedLit(), FixedDist(), ts, 8, 9);
  }

  // ----- what the third tree gives

  lemma {:induction false} ZerosAfter(lens: seq<nat>, cl: seq<nat>, L: nat)
    requires |lens| <= |cl| && cl[..|lens|] == lens && forall i :: |lens| <= i < |cl| ==> cl[i] == 0
    ensures Kraft(cl, L) == Kraft(lens, L)
    ensures forall b: nat :: b > 0 ==> Count(cl, b) == Count(lens, b)
    decreases |cl|
  {
    if |lens| < |cl| {
      var c := cl[..|cl| - 1];
      assert c[..|lens|] == lens;
      ZerosAfter(lens, c, L);
    } else {
      assert cl == lens;
    }
  }

  lemma {:induction false} SameStart(a: seq<nat>, c: seq<nat>, b: nat)
    requires forall b: nat :: b > 0 ==> Count(a, b) == Count(c, b)
    ensures Start(a, b) == Start(c, b)
  {
    hide Count;
    if b > 1 {
      SameStart(a, c, b - 1);
    }
  }

  /** Symbols without a code at the end of a table change nothing. */
  lemma Extended(codes: seq<nat>, lens: seq<nat>, cl: seq<nat>, L: nat)
    requires Complete(lens, L) && L <= MAX_BITS && Coded(codes, lens) && |cl| <= |codes|
    requires |lens| <= |cl| && cl[..|lens|] == lens && forall i :: |lens| <= i < |cl| ==> cl[i] == 0
    ensures Complete(cl, L) && Coded(codes, cl)
  {
    ZerosAfter(lens, cl, L);
    assert Bounded(cl, L) by {
      assert forall i :: 0 <= i < |lens| ==> cl[i] == lens[i];
    }
    hide Kraft, Count, Bounded, Reverse;
    CompleteFits(cl, L, MAX_BITS);
    hide Complete, Fits, Code;
    forall n | 0 <= n < |cl| && cl[n] > 0 ensures codes[n] == Reverse(Code(cl, n), cl[n]) {
      SameCode(lens, cl, n);
    }
  }

  lemma SameCode(lens: seq<nat>, cl: seq<nat>, n: nat)
    requires |lens| <= |cl| && cl[..|lens|] == lens && n < |cl| && cl[n] > 0
    requires forall i :: |lens| <= i < |cl| ==> cl[i] == 0
    requires forall b: nat :: b > 0 ==> Count(cl, b) == Count(lens, b)
    ensures n < |lens| && lens[n] == cl[n] && Code(lens, n) == Code(cl, n)
  {
    hide Count, Start;
    assert n < |lens|;
    assert cl[n] == lens[n];
    assert lens[..n] == cl[..n];
    SameStart(cl, lens, cl[n]);
  }

  lemma {:induction false} OpCounted(ops: seq<ClOp>, i: nat)
    requires i < |ops|
    ensures CountOps(ops, ops[i].sym) > 0
  {
    if i > 0 {
      OpCounted(ops[1..], i - 1);
    }
  }

  lemma BlTree(ops: seq<ClOp>, f0: seq<nat>, freq: seq<nat>, leaves: seq<nat>, codes: seq<nat>, dl: seq<nat>, c: seq<nat>,
               maxCode: nat)
    requires TreeBuilt(f0, freq, leaves, codes, dl, c, BDesc(), maxCode) && |f0| == |codes| == |dl| == 2 * BL_CODES + 1
    requires forall s: nat :: s < BL_CODES ==> f0[s] == CountOps(ops, s)
    requires forall i :: 0 <= i < |ops| ==> Legal(ops[i])
    ensures Complete(dl[..BL_CODES], 7) && CodeTable(codes, dl, dl[..BL_CODES])
    ensures AllSendable(dl[..BL_CODES], ops)
    ensures Sum(Range(0, BL_CODES), CostAt(f0, dl, BDesc())) == |OpsBits(dl[..BL_CODES], ops)|
  {
    hide Forced, CountOps, Complete, CountsMatch, Sum, Coded, OpsBits, Range, CostAt, OpCostAt, TreeDesc.Extra;
    var cl := dl[..BL_CODES];
    assert cl[..maxCode + 1] == dl[..maxCode + 1];
    Extended(codes, dl[..maxCode + 1], cl, 7);
    forall i | 0 <= i < |ops| ensures Sendable(cl, ops[i]) {
      OpCounted(ops, i);
    }
    OpsLength(cl, ops);
    BlCost(ops, f0, dl);
  }

  lemma BlCost(ops: seq<ClOp>, f0: seq<nat>, dl: seq<nat>)
    requires |f0| == |dl| == 2 * BL_CODES + 1 && forall s: nat :: s < BL_CODES ==> f0[s] == CountOps(ops, s)
    ensures Sum(Range(0, BL_CODES), CostAt(f0, dl, BDesc())) == Sum(Range(0, BL_CODES), OpCostAt(ops, dl[..BL_CODES]))
  {
    hide CountOps, Sum, TreeDesc.Extra;
    RangeMembers(0, BL_CODES);
    SumCong(Range(0, BL_CODES), CostAt(f0, dl, BDesc()), OpCostAt(ops, dl[..BL_CODES]));
  }

  lemma {:induction false} AcceptableLegal(acc: seq<nat>, ops: seq<ClOp>)
    requires Acceptable(acc, ops)
    ensures forall i :: 0 <= i < |ops| ==> Legal(ops[i])
    decreases |ops|
  {
    if ops != [] {
      hide OpLens, Legal;
      AcceptableLegal(OpLens(acc, ops[0]), ops[1..]);
      assert forall i :: 1 <= i < |ops| ==> ops[i] == ops[1..][i - 1];
    }
  }

  ghost predicate AllZero(s: seq<nat>) {
    forall i :: 0 <= i < |s| ==> s[i] == 0
  }

  lemma {:induction false} ZeroOps(acc: seq<nat>, ops: seq<ClOp>)
    requires AllZero(acc) && forall i :: 0 <= i < |ops| ==> ops[i].sym >= 16
    ensures AllZero(OpsLens(acc, ops))
    decreases |ops|
  {
    if ops != [] {
      ZeroOps(OpLens(acc, ops[0]), ops[1..]);
    }
  }

  /** At least four code length code lengths have to be sent. */
  lemma AtLeastFour(ll: seq<nat>, dd: seq<nat>, cl: seq<nat>, m: nat)
    requires Complete(ll, MAX_BITS) && Complete(dd, MAX_BITS) && END_OF_BLOCK < |ll| && ll[END_OF_BLOCK] > 0
    requires AllSendable(cl, Ops(ll) + Ops(dd)) && |cl| == BL_CODES
    requires 2 <= m < BL_CODES && forall r :: m < r < BL_CODES ==> cl[Order(r)] == 0
    ensures m >= 3
  {
    hide Complete, Ops, OpsLens, Acceptable, Order;
    assert (ll + dd)[END_OF_BLOCK] == ll[END_OF_BLOCK];
    if m == 2 {
      var ops := Ops(ll) + Ops(dd);
      BothOps(ll, dd);
      forall i | 0 <= i < |ops| ensures ops[i].sym >= 16 {
        assert Sendable(cl, ops[i]);
        var r := OrderCovers(ops[i].sym);
        FirstThree(r);
      }
      ZeroOps([], ops);
      assert false;
    }
  }

  lemma FirstThree(r: nat)
    requires r < 3
    ensures Order(r) >= 16
  {
  }

  // ----- building and sending them

  /** The literal/length and distance trees can send the tokens. */
  ghost predicate MainTrees(ts: seq<Token>, ltree: CodeTree, dtree: CodeTree, ll: seq<nat>, dd: seq<nat>) {
    CanSend(ltree, dtree, ll, dd, ts) && Complete(ll, MAX_BITS) && Complete(dd, MAX_BITS)
    && 257 <= |ll| <= L_CODES && 1 <= |dd| <= DIST_CODES
    && |ltree.dl| == 2 * L_CODES + 1 && |dtree.dl| == 2 * DIST_CODES + 1
    && ll == ltree.dl[..|ll|] && dd == dtree.dl[..|dd|]
  }

  lemma MainTreesFrom(ts: seq<Token>, ltree: CodeTree, dtree: CodeTree, maxL: nat, maxD: nat)
    requires AllWell(ts) && maxL < L_CODES && maxD < DIST_CODES
    requires |ltree.dl| == |ltree.codes| == 2 * L_CODES + 1 && |dtree.dl| == |dtree.codes| == 2 * DIST_CODES + 1
    requires ltree.Ready(ltree.dl[..maxL + 1]) && dtree.Ready(dtree.dl[..maxD + 1])
    requires Complete(ltree.dl[..maxL + 1], MAX_BITS) && Complete(dtree.dl[..maxD + 1], MAX_BITS)
    requires forall s: nat :: s < L_CODES && LitCount(ts, s) > 0 ==> s <= maxL && ltree.dl[s] > 0
    requires forall d: nat :: d < DIST_CODES && DistCount(ts, d) > 0 ==> d <= maxD && dtree.dl[d] > 0
    ensures MainTrees(ts, ltree, dtree, ltree.dl[..maxL + 1], dtree.dl[..maxD + 1])
  {
    hide Complete, CodeTree.Ready, AllCodable, LitCount, DistCount, AllWell;
    CodableFrom(ts, ltree.dl[..maxL + 1], dtree.dl[..maxD + 1]);
  }

  /** The accounts after the first two trees. */
  lemma MainCosts(ts: seq<Token>, fcL: seq<nat>, fcD: seq<nat>, fcB: seq<nat>, ltree: CodeTree, dtree: CodeTree,
                  ll: seq<nat>, dd: seq<nat>, opt: Word, stat: Word)
    requires Tallied(ts, fcL, fcD, fcB) && AllWell(ts) && |ts| < LIT_BUFSIZE && MainTrees(ts, ltree, dtree, ll, dd)
    requires opt == U32(U32(Sum(Range(0, L_CODES), LitCostAt(ts, ll))) + Sum(Range(0, DIST_CODES), DistCostAt(ts, dd)))
    requires stat == U32(U32(Sum(Range(0, L_CODES), StaticCostAt(fcL, LDesc())))
                         + Sum(Range(0, DIST_CODES), StaticCostAt(fcD, DDesc())))
    ensures AllCodable(ll, dd, ts) && END_OF_BLOCK < |ll| && opt == |DataBits(ll, dd, ts)| < 500_000
    ensures AllCodable(FixedLit(), FixedDist(), ts) && END_OF_BLOCK < |FixedLit()|
    ensures stat == |DataBits(FixedLit(), FixedDist(), ts)| < 300_000
  {
    hide Sum, Range, Kraft, CodeTree.Ready, AllCodable, LitCostAt, DistCostAt, StaticCostAt, LDesc, DDesc, DataBits, FixedLit, FixedDist,
         Tallied, AllWell;
    DataLength(ll, dd, ts);
    DataSmall(ll, dd, ts);
    StaticLength(ts, fcL, fcD, fcB);
    FixedDataSmall(ts);
    U32Add(Sum(Range(0, L_CODES), LitCostAt(ts, ll)), Sum(Range(0, DIST_CODES), DistCostAt(ts, dd)));
    U32Add(Sum(Range(0, L_CODES), StaticCostAt(fcL, LDesc())), Sum(Range(0, DIST_CODES), StaticCostAt(fcD, DDesc())));
  }

  /** The length tables after scan_tree put its guard behind the lengths. */
  lemma Guards(dl: seq<nat>, lens: seq<nat>, dl': seq<nat>)
    requires |lens| < |dl| && lens == dl[..|lens|] && lens != [] && Complete(lens, MAX_BITS)
    requires dl' == dl[|lens| := GUARD]
    ensures Guarded(dl', lens) && Lengths(lens)
  {
    hide Kraft;
  }

  lemma StillReady(tree: CodeTree, lens: seq<nat>, dl': seq<nat>)
    requires tree.Ready(lens) && |lens| <= |tree.dl| && |lens| <= |tree.codes| && |dl'| >= |lens| && dl'[..|lens|] == tree.dl[..|lens|]
    ensures CodeTree(tree.codes, dl').Ready(lens)
  {
    hide Coded;
    forall c | 0 <= c < |lens| ensures dl'[c] == lens[c] {
      assert dl'[c] == dl'[..|lens|][c] == tree.dl[..|lens|][c];
    }
  }

  /** All a block with its own codes needs. */
  ghost predicate AllTrees(ts: seq<Token>, ltree: CodeTree, dtree: CodeTree, btree: CodeTree, ll: seq<nat>, dd: seq<nat>, n: nat)
  {
    MainTrees(ts, ltree, dtree, ll, dd) && Guarded(ltree.dl, ll) && Guarded(dtree.dl, dd)
    && |btree.dl| == 2 * BL_CODES + 1 && CodeTable(btree.codes, btree.dl, btree.dl[..BL_CODES])
    && Sendables(ll, dd, btree.dl[..BL_CODES], n)
  }

  lemma AllTreesFrom(ts: seq<Token>, ltree: CodeTree, dtree: CodeTree, btree: CodeTree, ll: seq<nat>, dd: seq<nat>, m: nat,
                     dlL: seq<nat>, dlD: seq<nat>)
    requires MainTrees(ts, ltree, dtree, ll, dd) && dlL == ltree.dl[|ll| := GUARD] && dlD == dtree.dl[|dd| := GUARD]
    requires |ltree.codes| == 2 * L_CODES + 1 && |dtree.codes| == 2 * DIST_CODES + 1
    requires |btree.dl| == 2 * BL_CODES + 1 && CodeTable(btree.codes, btree.dl, btree.dl[..BL_CODES])
    requires Complete(btree.dl[..BL_CODES], 7) && AllSendable(btree.dl[..BL_CODES], Ops(ll) + Ops(dd))
    requires 2 <= m < BL_CODES && forall r :: m < r < BL_CODES ==> btree.dl[Order(r)] == 0
    ensures m >= 3 && AllTrees(ts, CodeTree(ltree.codes, dlL), CodeTree(dtree.codes, dlD), btree, ll, dd, m + 1)
  {
    hide Complete, CodeTree.Ready, CodeTable, AllCodable, AllSendable, Ops, Guarded, Order;
    var cl := btree.dl[..BL_CODES];
    forall r | m < r < BL_CODES ensures cl[Order(r)] == 0 {
      assert cl[Order(r)] == btree.dl[Order(r)];
    }
    Guards(ltree.dl, ll, dlL);
    Guards(dtree.dl, dd, dlD);
    StillReady(ltree, ll, dlL);
    StillReady(dtree, dd, dlD);
    AtLeastFour(ll, dd, cl, m);
  }

  /** The frequencies of the run-length symbols, and how many there are. */
  lemma OpsTallied(ll: seq<nat>, dd: seq<nat>, f0: seq<nat>, f1: seq<nat>, f2: seq<nat>)
    requires Complete(ll, MAX_BITS) && Complete(dd, MAX_BITS) && |ll| <= L_CODES && |dd| <= DIST_CODES
    requires |f0| == 2 * BL_CODES + 1 && (forall b: nat :: b < BL_CODES ==> f0[b] == 0)
    requires Counted(f0, Ops(ll), f1) && Counted(f1, Ops(dd), f2)
    ensures |f2| == |f0| && (forall s: nat :: s < BL_CODES ==> f2[s] == CountOps(Ops(ll) + Ops(dd), s))
    ensures Sum(Range(0, BL_CODES), FreqAt(f2)) + 2 < 0x1_0000
    ensures forall i :: 0 <= i < |Ops(ll) + Ops(dd)| ==> Legal((Ops(ll) + Ops(dd))[i])
    ensures |Ops(ll) + Ops(dd)| <= L_CODES + DIST_CODES
  {
    hide Complete, Ops, OpsLens, Acceptable, CountOps, Sum, Legal;
    var ops := Ops(ll) + Ops(dd);
    CountedConcat(f0, Ops(ll), f1, Ops(dd), f2);
    BothOps(ll, dd);
    OpsShort([], ops);
    AcceptableLegal([], ops);
    OpsTotal(ops);
    RangeMembers(0, BL_CODES);
    SumCong(Range(0, BL_CODES), FreqAt(f2), (s: nat) => CountOps(ops, s));
  }

  /** opt_len with the trees. */
  lemma HeaderCost(ts: seq<Token>, ltree: CodeTree, dtree: CodeTree, btree: CodeTree, ll: seq<nat>, dd: seq<nat>, n: nat,
                   data: Word, opt: Word)
    requires AllTrees(ts, ltree, dtree, btree, ll, dd, n) && data < 500_000
    requires AllSendable(btree.dl[..BL_CODES], Ops(ll) + Ops(dd)) && |Ops(ll) + Ops(dd)| <= L_CODES + DIST_CODES
    requires opt == U32(U32(data + |OpsBits(btree.dl[..BL_CODES], Ops(ll) + Ops(dd))|) + 3 * n + 14)
    ensures Sendables(ll, dd, btree.dl[..BL_CODES], n) && opt == data + |HeaderBits(ll, dd, btree.dl[..BL_CODES], n)|
    ensures opt < 1_000_000
  {
    hide MainTrees, Guarded, CodeTable, AllSendable, Ops, OpsBits, Order, Complete, ClBits;
    var cl := btree.dl[..BL_CODES];
    assert forall s :: 0 <= s < |cl| ==> cl[s] <= 7 by {
      ClStart(cl, n);
    }
    ClLength(cl, 0, n);
    OpsBound(cl, Ops(ll) + Ops(dd));
  }

  class Trees {
    const counters: Counters
    const heap: array<nat>
    const depth: array<nat>
    const blCount: array<nat>
    const fcL: array<nat>
    const dlL: array<nat>
    const fcD: array<nat>
    const dlD: array<nat>
    const fcB: array<nat>
    const dlB: array<nat>
    ghost const Repr: set<object>  // this object's memory

    ghost predicate Apart() {
      Repr == {counters, heap, depth, blCount, fcL, dlL, fcD, dlD, fcB, dlB}
      && heap.Length == HEAP_SIZE && depth.Length == HEAP_SIZE && blCount.Length == MAX_BITS + 1
      && fcL.Length == dlL.Length == 2 * L_CODES + 1 && fcD.Length == dlD.Length == 2 * DIST_CODES + 1
      && fcB.Length == dlB.Length == 2 * BL_CODES + 1
      && heap !in {depth, blCount, fcL, dlL, fcD, dlD, fcB, dlB} && depth !in {blCount, fcL, dlL, fcD, dlD, fcB, dlB}
      && blCount !in {fcL, dlL, fcD, dlD, fcB, dlB} && fcL !in {dlL, fcD, dlD, fcB, dlB} && dlL !in {fcD, dlD, fcB, dlB}
      && fcD !in {dlD, fcB, dlB} && dlD !in {fcB, dlB} && fcB != dlB
    }

    /** The counts of an empty block. */
    ghost predicate Counts(ts: seq<Token>)
      reads fcL, fcD, fcB
    {
      Tallied(ts, fcL[..], fcD[..], fcB[..])
    }

    constructor (count: array<nat>)
      requires count.Length == MAX_BITS + 1
      ensures Apart() && blCount == count && fresh(Repr - {count})
    {
      counters := new Counters();
      heap, depth, blCount := new nat[HEAP_SIZE], new nat[HEAP_SIZE], count;
      fcL, dlL := new nat[2 * L_CODES + 1], new nat[2 * L_CODES + 1];
      fcD, dlD := new nat[2 * DIST_CODES + 1], new nat[2 * DIST_CODES + 1];
      fcB, dlB := new nat[2 * BL_CODES + 1], new nat[2 * BL_CODES + 1];
      Repr := {counters, heap, depth, blCount, fcL, dlL, fcD, dlD, fcB, dlB};
    }

    /** The counting half of init_block. */
    method Reset()
      requires Apart()
      modifies fcL, fcD, fcB, counters
      ensures Counts([]) && counters.optLen == counters.staticLen == 0
    {
      for n := 0 to L_CODES
        invariant forall i :: 0 <= i < n ==> fcL[i] == 0
      {
        fcL[n] := 0;
      }
      for n := 0 to DIST_CODES
        invariant forall i :: 0 <= i < L_CODES ==> fcL[i] == 0
        invariant forall i :: 0 <= i < n ==> fcD[i] == 0
      {
        fcD[n] := 0;
      }
      for n := 0 to BL_CODES
        invariant forall i :: 0 <= i < L_CODES ==> fcL[i] == 0
        invariant forall i :: 0 <= i < DIST_CODES ==> fcD[i] == 0
        invariant forall i :: 0 <= i < n ==> fcB[i] == 0
      {
        fcB[n] := 0;
      }
      fcL[END_OF_BLOCK] := 1;
      counters.optLen, counters.staticLen := 0, 0;
    }

    /** The literal/length tree. */
    method BuildLit(ghost ts: seq<Token>) returns (maxL: nat)
      requires Apart() && (forall s: nat :: s < L_CODES ==> fcL[s] == LitCount(ts, s))
      requires LDesc().Valid() && LDesc().elems == L_CODES && Sum(Range(0, L_CODES), FreqAt(fcL[..])) + 2 < 0x1_0000
      modifies heap, depth, blCount, fcL, dlL, counters
      ensures maxL < L_CODES && Complete(dlL[..maxL + 1], MAX_BITS) && CodeTree(fcL[..], dlL[..]).Ready(dlL[..maxL + 1])
      ensures forall s: nat :: s < L_CODES && LitCount(ts, s) > 0 ==> s <= maxL && dlL[s] > 0
      ensures counters.optLen == U32(old(counters.optLen) + Sum(Range(0, L_CODES), LitCostAt(ts, dlL[..maxL + 1])))
      ensures counters.staticLen == U32(old(counters.staticLen) + Sum(Range(0, L_CODES), StaticCostAt(old(fcL[..]), LDesc())))
    {
      hide Sum, Range, FreqAt, TreeBuilt, LitCostAt, CostAt, StaticCostAt, LDesc, Complete, CodeTree.Ready, LitCount, Height, AtLeast,
           Weights, TreeDesc.Valid, BestTree, Depths, U32;
      ghost var fl := fcL[..];
      ghost var leaves, freq, t;
      maxL, leaves, freq, t := BuildTree(heap, depth, blCount, fcL, dlL, counters, LDesc());
      LitTree(ts, fl, freq, leaves, fcL[..], dlL[..], blCount[..], maxL);
    }

    /** The distance tree. */
    method BuildDist(ghost ts: seq<Token>) returns (maxD: nat)
      requires Apart() && (forall d: nat :: d < DIST_CODES ==> fcD[d] == DistCount(ts, d))
      requires DDesc().Valid() && DDesc().elems == DIST_CODES && Sum(Range(0, DIST_CODES), FreqAt(fcD[..])) + 2 < 0x1_0000
      modifies heap, depth, blCount, fcD, dlD, counters
      ensures maxD < DIST_CODES && Complete(dlD[..maxD + 1], MAX_BITS) && CodeTree(fcD[..], dlD[..]).Ready(dlD[..maxD + 1])
      ensures forall d: nat :: d < DIST_CODES && DistCount(ts, d) > 0 ==> d <= maxD && dlD[d] > 0
      ensures counters.optLen == U32(old(counters.optLen) + Sum(Range(0, DIST_CODES), DistCostAt(ts, dlD[..maxD + 1])))
      ensures counters.staticLen == U32(old(counters.staticLen) + Sum(Range(0, DIST_CODES), StaticCostAt(old(fcD[..]), DDesc())))
    {
      hide Sum, Range, FreqAt, TreeBuilt, DistCostAt, CostAt, StaticCostAt, DDesc, Complete, CodeTree.Ready, DistCount, Height, AtLeast,
           Weights, TreeDesc.Valid, BestTree, Depths, U32;
      ghost var fd := fcD[..];
      ghost var leaves, freq, t;
      maxD, leaves, freq, t := BuildTree(heap, depth, blCount, fcD, dlD, counters, DDesc());
      DistTree(ts, fd, freq, leaves, fcD[..], dlD[..], blCount[..], maxD);
    }

    /** Builds the literal/length tree and the distance tree. */
    method BuildMain(ghost ts: seq<Token>) returns (maxL: nat, maxD: nat)
      requires Apart() && Counts(ts) && AllWell(ts) && |ts| < LIT_BUFSIZE && counters.optLen == counters.staticLen == 0
      modifies heap, depth, blCount, fcL, dlL, fcD, dlD, counters
      ensures END_OF_BLOCK <= maxL < L_CODES && maxD < DIST_CODES
      ensures MainTrees(ts, CodeTree(fcL[..], dlL[..]), CodeTree(fcD[..], dlD[..]), dlL[..maxL + 1], dlD[..maxD + 1])
      ensures AllCodable(dlL[..maxL + 1], dlD[..maxD + 1], ts)
      ensures counters.optLen == |DataBits(dlL[..maxL + 1], dlD[..maxD + 1], ts)| < 500_000
      ensures AllCodable(FixedLit(), FixedDist(), ts) && END_OF_BLOCK < |FixedLit()|
      ensures counters.staticLen == |DataBits(FixedLit(), FixedDist(), ts)| < 300_000
    {
      hide Tallied, AllWell, Sum, Range, FreqAt, TreeBuilt, LitCostAt, DistCostAt, CostAt, StaticCostAt, LDesc, DDesc, Complete,
           CodeTree.Ready, LitCount, DistCount, Height, AtLeast, Weights, TreeDesc.Valid, DataBits, AllCodable, FixedLit, FixedDist;
      ghost var fl, fd := fcL[..], fcD[..];
      TallyTotals(ts, fl, fd, fcB[..]);
      TalliedParts(ts, fl, fd, fcB[..]);
      DescsValid();
      DescElems();
      maxL := BuildLit(ts);
      maxD := BuildDist(ts);
      MainTreesFrom(ts, CodeTree(fcL[..], dlL[..]), CodeTree(fcD[..], dlD[..]), maxL, maxD);
      MainCosts(ts, fl, fd, fcB[..], CodeTree(fcL[..], dlL[..]), CodeTree(fcD[..], dlD[..]),
                dlL[..maxL + 1], dlD[..maxD + 1], counters.optLen, counters.staticLen);
    }

    /** build_bl_tree: counts the run-length symbols of both length tables, builds their
        tree, and finds how many of its lengths have to be sent. */
    method BuildBlTree(maxL: nat, maxD: nat, ghost ts: seq<Token>, ghost ll: seq<nat>, ghost dd: seq<nat>)
      returns (maxBlindex: nat)
      requires Apart() && maxL + 1 == |ll| && maxD + 1 == |dd| && (forall b: nat :: b < BL_CODES ==> fcB[b] == 0)
      requires MainTrees(ts, CodeTree(fcL[..], dlL[..]), CodeTree(fcD[..], dlD[..]), ll, dd) && counters.optLen < 500_000
      modifies heap, depth, blCount, dlL, dlD, fcB, dlB, counters
      ensures AllTrees(ts, CodeTree(fcL[..], dlL[..]), CodeTree(fcD[..], dlD[..]), CodeTree(fcB[..], dlB[..]), ll, dd, maxBlindex + 1)
      ensures Sendables(ll, dd, dlB[..BL_CODES], maxBlindex + 1)
      ensures counters.optLen == old(counters.optLen) + |HeaderBits(ll, dd, dlB[..BL_CODES], maxBlindex + 1)| < 1_000_000
      ensures counters.staticLen == old(counters.staticLen)
    {
      hide AllCodable, CodeTree.Ready, Complete, Guarded, Ops, CodeTable, AllSendable, OpsBits, Order, Counted, CountOps, Sum, Range, FreqAt,
           TreeBuilt, CostAt, StaticCostAt, BDesc, Height, AtLeast, Weights, TreeDesc.Valid, HeaderBits, Lengths, Legal, AllTrees, MainTrees,
           Sendables;
      ghost var ltree, dtree, f0 := CodeTree(fcL[..], dlL[..]), CodeTree(fcD[..], dlD[..]), fcB[..];
      MainLengths(ts, ltree, dtree, ll, dd);
      ScanTree(dlL, maxL, fcB);
      ghost var f1 := fcB[..];
      ScanTree(dlD, maxD, fcB);
      ghost var f2, data := fcB[..], counters.optLen;
      OpsTallied(ll, dd, f0, f1, f2);
      DescsValid();
      DescElems();
      NoStatic(f2);
      ghost var maxB, leaves, freq, t;
      maxB, leaves, freq, t := BuildTree(heap, depth, blCount, fcB, dlB, counters, BDesc());
      ghost var btree, ops := CodeTree(fcB[..], dlB[..]), Ops(ll) + Ops(dd);
      BlTree(ops, f2, freq, leaves, fcB[..], dlB[..], blCount[..], maxB);
      maxBlindex := LastLength();
      counters.optLen := U32(counters.optLen + (3 * (maxBlindex + 1) + 5 + 5 + 4));
      AllTreesFrom(ts, ltree, dtree, btree, ll, dd, maxBlindex, dlL[..], dlD[..]);
      HeaderCost(ts, CodeTree(fcL[..], dlL[..]), CodeTree(fcD[..], dlD[..]), btree, ll, dd, maxBlindex + 1, data, counters.optLen);
    }

    /** The loop of build_bl_tree: the last code length code length that is not zero. */
    method LastLength() returns (m: nat)
      requires Apart()
      ensures 2 <= m < BL_CODES && forall r :: m < r < BL_CODES ==> dlB[Order(r)] == 0
    {
      hide Order;
      m := BL_CODES - 1;
      while m >= 3
        invariant 2 <= m < BL_CODES && forall r :: m < r < BL_CODES ==> dlB[Order(r)] == 0
      {
        if dlB[Order(m)] != 0 {
          break;
        }
        m := m - 1;
      }
    }

    /** send_all_trees */
    method SendAllTrees(w: BitWriter, lcodes: nat, dcodes: nat, blcodes: nat,
                        ghost ts: seq<Token>, ghost ll: seq<nat>, ghost dd: seq<nat>)
      requires Apart() && w.Valid() && lcodes == |ll| && dcodes == |dd|
      requires AllTrees(ts, CodeTree(fcL[..], dlL[..]), CodeTree(fcD[..], dlD[..]), CodeTree(fcB[..], dlB[..]), ll, dd, blcodes)
      requires Sendables(ll, dd, dlB[..BL_CODES], blcodes)
      modifies w`outcnt, w`file, w`biBuf, w`biValid, w.outbuf
      ensures w.Valid() && w.Sent() == old(w.Sent()) + HeaderBits(ll, dd, dlB[..BL_CODES], blcodes)
    {
      hide *;
      TreesToSend(ts, CodeTree(fcL[..], dlL[..]), CodeTree(fcD[..], dlD[..]), CodeTree(fcB[..], dlB[..]), ll, dd, blcodes);
      SendHeader(w, lcodes, dcodes, blcodes, dlL[..], dlD[..], fcB[..], dlB[..], ll, dd, dlB[..BL_CODES]);
    }
  }

  /** send_all_trees, with the tables it reads. */
  method SendHeader(w: BitWriter, lcodes: nat, dcodes: nat, blcodes: nat, dlL: seq<nat>, dlD: seq<nat>,
                    fcB: seq<nat>, dlB: seq<nat>, ghost ll: seq<nat>, ghost dd: seq<nat>, ghost cl: seq<nat>)
    requires w.Valid() && lcodes == |ll| && dcodes == |dd|
    requires 257 <= |ll| <= L_CODES && 1 <= |dd| <= DIST_CODES && 4 <= blcodes <= BL_CODES <= |dlB| && cl == dlB[..BL_CODES]
    requires |ll| < |dlL| && ll == dlL[..|ll|] && Guarded(dlL, ll) && |dd| < |dlD| && dd == dlD[..|dd|] && Guarded(dlD, dd)
    requires CodeTable(fcB, dlB, cl) && AllSendable(cl, Ops(ll)) && AllSendable(cl, Ops(dd))
    requires (forall s :: 0 <= s < BL_CODES ==> cl[s] < 8) && Sendables(ll, dd, cl, blcodes)
    modifies w`outcnt, w`file, w`biBuf, w`biValid, w.outbuf
    ensures w.Valid() && w.Sent() == old(w.Sent()) + HeaderBits(ll, dd, cl, blcodes)
  {
    hide *;
    ghost var start := w.Sent();
    SendCounts(w, lcodes, dcodes, blcodes);
    SendLengths(w, dlB, blcodes, cl);
    SendTree(w, dlL, lcodes - 1, fcB, dlB, cl);
    SendTree(w, dlD, dcodes - 1, fcB, dlB, cl);
    HeaderSent(start, ll, dd, cl, blcodes);
  }

  lemma MainLengths(ts: seq<Token>, ltree: CodeTree, dtree: CodeTree, ll: seq<nat>, dd: seq<nat>)
    requires MainTrees(ts, ltree, dtree, ll, dd)
    ensures |ll| <= L_CODES && |dd| <= DIST_CODES && Complete(ll, MAX_BITS) && Complete(dd, MAX_BITS)
    ensures ll == ltree.dl[..|ll|] && dd == dtree.dl[..|dd|] && Lengths(ll) && Lengths(dd)
  {
    hide Kraft, CodeTree.Ready, AllCodable;
  }

  lemma NoStatic(f: seq<nat>)
    ensures Sum(Range(0, BL_CODES), StaticCostAt(f, BDesc())) == 0
  {
    SumZero(Range(0, BL_CODES), StaticCostAt(f, BDesc()));
  }

  /** How many lengths of each kind there are. */
  method SendCounts(w: BitWriter, lcodes: nat, dcodes: nat, blcodes: nat)
    requires w.Valid() && 257 <= lcodes <= L_CODES && 1 <= dcodes <= DIST_CODES && 4 <= blcodes <= BL_CODES
    modifies w`outcnt, w`file, w`biBuf, w`biValid, w.outbuf
    ensures w.Valid()
    ensures w.Sent() == old(w.Sent()) + ToBits(lcodes - 257, 5) + ToBits(dcodes - 1, 5) + ToBits(blcodes - 4, 4)
  {
    hide ToBits, BitWriter.Sent, BitWriter.Valid, Pow2;
    CountsFit(lcodes, dcodes, blcodes);
    w.SendBits(lcodes - 257, 5);
    w.SendBits(dcodes - 1, 5);
    w.SendBits(blcodes - 4, 4);
  }

  /** The code length code's lengths, in their order. */
  method SendLengths(w: BitWriter, dlB: seq<nat>, blcodes: nat, ghost cl: seq<nat>)
    requires w.Valid() && |dlB| >= BL_CODES && cl == dlB[..BL_CODES] && blcodes <= BL_CODES
    requires forall s :: 0 <= s < BL_CODES ==> cl[s] < 8
    modifies w`outcnt, w`file, w`biBuf, w`biValid, w.outbuf
    ensures w.Valid() && w.Sent() == old(w.Sent()) + ClBits(cl, 0, blcodes)
  {
    hide ToBits, Pow2, Order, BitWriter.Valid, BitWriter.Sent;
    ghost var start := w.Sent();
    for rank := 0 to blcodes
      invariant w.Valid() && w.Sent() + ClBits(cl, rank, blcodes) == start + ClBits(cl, 0, blcodes)
    {
      var len := dlB[Order(rank)];
      assert len == cl[Order(rank)];
      EightFits(len);
      Assoc(w.Sent(), ToBits(len, 3), ClBits(cl, rank + 1, blcodes));
      w.SendBits(len, 3);
    }
  }

  lemma TreesToSend(ts: seq<Token>, ltree: CodeTree, dtree: CodeTree, btree: CodeTree, ll: seq<nat>, dd: seq<nat>, n: nat)
    requires AllTrees(ts, ltree, dtree, btree, ll, dd, n)
    ensures 257 <= |ll| <= L_CODES && 1 <= |dd| <= DIST_CODES && 4 <= n <= BL_CODES <= |btree.dl|
    ensures |ll| < |ltree.dl| && ll == ltree.dl[..|ll|] && Guarded(ltree.dl, ll)
    ensures |dd| < |dtree.dl| && dd == dtree.dl[..|dd|] && Guarded(dtree.dl, dd)
    ensures CodeTable(btree.codes, btree.dl, btree.dl[..BL_CODES])
    ensures AllSendable(btree.dl[..BL_CODES], Ops(ll)) && AllSendable(btree.dl[..BL_CODES], Ops(dd))
    ensures forall s :: 0 <= s < BL_CODES ==> btree.dl[..BL_CODES][s] < 8
  {
    hide Kraft, CodeTree.Ready, AllCodable, AllSendable, Ops, OpsBits, CodeTable, Order, Lengths;
    SendableParts(btree.dl[..BL_CODES], Ops(ll), Ops(dd));
  }

  lemma HeaderSent(start: seq<bool>, ll: seq<nat>, dd: seq<nat>, cl: seq<nat>, n: nat)
    requires Sendables(ll, dd, cl, n)
    ensures AllSendable(cl, Ops(ll)) && AllSendable(cl, Ops(dd))
    ensures start + ToBits(|ll| - 257, 5) + ToBits(|dd| - 1, 5) + ToBits(n - 4, 4) + ClBits(cl, 0, n) + OpsBits(cl, Ops(ll)) + OpsBits(cl, Ops(dd))
         == start + HeaderBits(ll, dd, cl, n)
  {
    hide Complete, AllSendable, Ops, OpsBits, ClBits, ToBits, Order;
    SendableParts(cl, Ops(ll), Ops(dd));
  }

  lemma DescElems()
    ensures LDesc().elems == L_CODES && DDesc().elems == DIST_CODES && BDesc().elems == BL_CODES && !BDesc().hasStatic
  {
  }

  lemma TalliedParts(ts: seq<Token>, fcL: seq<nat>, fcD: seq<nat>, fcB: seq<nat>)
    requires Tallied(ts, fcL, fcD, fcB)
    ensures |fcL| == 2 * L_CODES + 1 && |fcD| == 2 * DIST_CODES + 1 && |fcB| == 2 * BL_CODES + 1
    ensures (forall s: nat :: s < L_CODES ==> fcL[s] == LitCount(ts, s))
    ensures (forall d: nat :: d < DIST_CODES ==> fcD[d] == DistCount(ts, d))
    ensures (forall b: nat :: b < BL_CODES ==> fcB[b] == 0)
  {
  }
}
