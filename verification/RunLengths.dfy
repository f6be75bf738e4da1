/** The run-length code of RFC 1951 section 3.2.7 for lists of code lengths, as
    scan_tree counts it and send_tree sends it. */
module RunLengths {
  import opened Bits
  import opened Canonical
  import opened Inflate
  import opened Tokens

  const REP_3_6: nat := 16
  const REPZ_3_10: nat := 17
  const REPZ_11_138: nat := 18
  const BL_CODES: nat := 19

  /** One symbol of the code length alphabet with its repeat count field. */
  datatype ClOp = ClOp(sym: nat, extra: nat)

  function ExtraBits(sym: nat): (n: nat)
    ensures n <= 7
  {
    if sym == REP_3_6 then 2 else if sym == REPZ_3_10 then 3 else if sym == REPZ_11_138 then 7 else 0
  }

  predicate Legal(op: ClOp) {
    op.sym < BL_CODES && op.extra < Pow2(ExtraBits(op.sym))
  }

  /** What an operation adds to the lengths before it. */
  function OpLens(acc: seq<nat>, op: ClOp): (r: seq<nat>)
    ensures |r| > |acc|
  {
    if op.sym < 16 then acc + [op.sym]
    else if op.sym == REP_3_6 then acc + Repeat(if acc == [] then 0 else acc[|acc| - 1], 3 + op.extra)
    else if op.sym == REPZ_3_10 then acc + Repeat(0, 3 + op.extra)
    else acc + Repeat(0, 11 + op.extra)
  }

  /** Operations a decoder accepts after `acc`. */
  predicate Acceptable(acc: seq<nat>, ops: seq<ClOp>)
    decreases |ops|
  {
    ops == []
    || (Legal(ops[0]) && (ops[0].sym == REP_3_6 ==> acc != []) && Acceptable(OpLens(acc, ops[0]), ops[1..]))
  }

  function OpsLens(acc: seq<nat>, ops: seq<ClOp>): (r: seq<nat>)
    ensures |r| >= |acc| && (ops != [] ==> |r| > |acc|)
    decreases |ops|
  {
    if ops == [] then acc else OpsLens(OpLens(acc, ops[0]), ops[1..])
  }

  lemma {:induction false} OpsConcat(acc: seq<nat>, a: seq<ClOp>, b: seq<ClOp>)
    ensures OpsLens(acc, a + b) == OpsLens(OpsLens(acc, a), b)
    ensures Acceptable(acc, a) && Acceptable(OpsLens(acc, a), b) ==> Acceptable(acc, a + b)
    decreases |a|
  {
    if a == [] {
      assert a + b == b;
    } else {
      OpsConcat(OpLens(acc, a[0]), a[1..], b);
      assert (a + b)[1..] == a[1..] + b;
    }
  }

  // ----- the bits

  predicate Sendable(cl: seq<nat>, op: ClOp) {
    Legal(op) && op.sym < |cl| && cl[op.sym] > 0
  }

  ghost predicate AllSendable(cl: seq<nat>, ops: seq<ClOp>) {
    forall i :: 0 <= i < |ops| ==> Sendable(cl, ops[i])
  }

  function OpBits(cl: seq<nat>, op: ClOp): seq<bool>
    requires Sendable(cl, op)
  {
    CodeWord(cl, op.sym) + ToBits(op.extra, ExtraBits(op.sym))
  }

  function OpsBits(cl: seq<nat>, ops: seq<ClOp>): seq<bool>
    requires AllSendable(cl, ops)
    decreases |ops|
  {
    if ops == [] then [] else OpBits(cl, ops[0]) + OpsBits(cl, ops[1..])
  }

  lemma {:induction false} OpsBitsConcat(cl: seq<nat>, a: seq<ClOp>, b: seq<ClOp>)
    requires AllSendable(cl, a) && AllSendable(cl, b)
    ensures AllSendable(cl, a + b) && OpsBits(cl, a + b) == OpsBits(cl, a) + OpsBits(cl, b)
    decreases |a|
  {
    if a == [] {
      assert a + b == b;
      assert [] + OpsBits(cl, b) == OpsBits(cl, b);
    } else {
      assert (a + b)[1..] == a[1..] + b && (a + b)[0] == a[0];
      hide OpBits, Sendable;
      OpsBitsConcat(cl, a[1..], b);
      Assoc(OpBits(cl, a[0]), OpsBits(cl, a[1..]), OpsBits(cl, b));
    }
  }

  lemma OpDecodes(bits: seq<bool>, pos: nat, cl: seq<nat>, op: ClOp, n: nat, acc: seq<nat>)
    requires Fits(cl, 7) && Sendable(cl, op) && (op.sym == REP_3_6 ==> acc != [])
    requires At(bits, pos, OpBits(cl, op)) && |acc| < n
    ensures DecodeLens(bits, pos, cl, n, acc)
         == DecodeLens(bits, pos + |OpBits(cl, op)|, cl, n, OpLens(acc, op))
  {
    hide CodeWord, Fits, DecodeSym, ReadBits, At, ToBits, Pow2;
    var w, e := CodeWord(cl, op.sym), ToBits(op.extra, ExtraBits(op.sym));
    AtConcat(bits, pos, w, e);
    DecodeSymCorrect(cl, 7, op.sym, bits, pos);
    ReadBitsCorrect(bits, pos + |w|, op.extra, ExtraBits(op.sym));
  }

  lemma NoOps(bits: seq<bool>, pos: nat, cl: seq<nat>, acc: seq<nat>)
    ensures AllSendable(cl, []) && OpsBits(cl, []) == [] && OpsLens(acc, []) == acc
    ensures DecodeLens(bits, pos, cl, |acc|, acc) == Some((pos, acc))
  {
  }

  lemma OpsFirst(bits: seq<bool>, pos: nat, cl: seq<nat>, ops: seq<ClOp>, acc: seq<nat>)
    requires AllSendable(cl, ops) && Acceptable(acc, ops) && ops != [] && At(bits, pos, OpsBits(cl, ops))
    ensures Sendable(cl, ops[0]) && AllSendable(cl, ops[1..]) && At(bits, pos, OpBits(cl, ops[0]))
    ensures At(bits, pos + |OpBits(cl, ops[0])|, OpsBits(cl, ops[1..]))
    ensures |OpsBits(cl, ops)| == |OpBits(cl, ops[0])| + |OpsBits(cl, ops[1..])|
    ensures (ops[0].sym == REP_3_6 ==> acc != []) && Acceptable(OpLens(acc, ops[0]), ops[1..])
    ensures OpsLens(acc, ops) == OpsLens(OpLens(acc, ops[0]), ops[1..]) && |OpsLens(acc, ops)| > |acc|
  {
    hide OpBits, OpLens, Sendable, Legal, At;
    AtParts(bits, pos, OpsBits(cl, ops), OpBits(cl, ops[0]), OpsBits(cl, ops[1..]));
  }

  lemma {:induction false} OpsDecode(bits: seq<bool>, pos: nat, cl: seq<nat>, ops: seq<ClOp>, n: nat, acc: seq<nat>)
    requires Fits(cl, 7) && AllSendable(cl, ops) && Acceptable(acc, ops)
    requires At(bits, pos, OpsBits(cl, ops)) && |OpsLens(acc, ops)| == n
    ensures DecodeLens(bits, pos, cl, n, acc) == Some((pos + |OpsBits(cl, ops)|, OpsLens(acc, ops)))
    decreases |ops|
  {
    hide *;
    if ops == [] {
      NoOps(bits, pos, cl, acc);
    } else {
      OpsFirst(bits, pos, cl, ops, acc);
      OpDecodes(bits, pos, cl, ops[0], n, acc);
      OpsDecode(bits, pos + |OpBits(cl, ops[0])|, cl, ops[1..], n, OpLens(acc, ops[0]));
    }
  }

  // ----- scan_tree and send_tree

  /** Longest run one step may cover: by length, and whether it continues the last one. */
  function MaxCount(next: int, prev: int): (c: nat)
    ensures c >= 6
  {
    if next == 0 then 138 else if next == prev then 6 else 7
  }

  /** Shorter runs are spelled out. */
  function MinCount(next: int, prev: int): (c: nat)
    ensures 3 <= c <= 4
  {
    if next == 0 || next == prev then 3 else 4
  }

  /** The symbols for a run of `c` times `cur` after a run of `prev`. */
  function Run(cur: nat, prev: int, c: nat): seq<ClOp>
    requires 1 <= c <= MaxCount(cur, prev)
  {
    if c < MinCount(cur, prev) then Spell(cur, c)
    else if cur != 0 then
      if cur != prev then [ClOp(cur, 0), ClOp(REP_3_6, c - 4)] else [ClOp(REP_3_6, c - 3)]
    else if c <= 10 then [ClOp(REPZ_3_10, c - 3)]
    else [ClOp(REPZ_11_138, c - 11)]
  }

  function Spell(cur: nat, c: nat): seq<ClOp> {
    if c == 0 then [] else [ClOp(cur, 0)] + Spell(cur, c - 1)
  }

  ghost predicate Lengths(lens: seq<nat>) {
    forall i :: 0 <= i < |lens| ==> lens[i] < 16
  }

  /** The symbols for `lens[n..]`, when the `count` lengths before it are a run
      of the same length still waiting to be sent and `prev` was sent last. */
  function Rle(lens: seq<nat>, n: nat, prev: int, count: nat): seq<ClOp>
    requires n <= |lens| && (n < |lens| ==> count < MaxCount(lens[n], prev))
    decreases |lens| - n
  {
    if n == |lens| then []
    else if count + 1 < MaxCount(lens[n], prev) && n + 1 < |lens| && lens[n + 1] == lens[n] then
      Rle(lens, n + 1, prev, count + 1)
    else Run(lens[n], prev, count + 1) + Rle(lens, n + 1, lens[n], 0)
  }

  function Ops(lens: seq<nat>): seq<ClOp> {
    Rle(lens, 0, -1, 0)
  }

  // ----- the run code is right

  lemma {:induction false} SpellLens(acc: seq<nat>, cur: nat, c: nat)
    requires cur < 16
    ensures Acceptable(acc, Spell(cur, c)) && OpsLens(acc, Spell(cur, c)) == acc + Repeat(cur, c)
    decreases c
  {
    if c > 0 {
      SpellLens(acc + [cur], cur, c - 1);
      assert acc + [cur] + Repeat(cur, c - 1) == acc + Repeat(cur, c);
      assert Spell(cur, c)[1..] == Spell(cur, c - 1);
    } else {
      assert acc + Repeat(cur, 0) == acc;
    }
  }

  ghost predicate EndsIn(acc: seq<nat>, prev: int) {
    prev == -1 || (acc != [] && acc[|acc| - 1] == prev)
  }

  lemma OneOp(acc: seq<nat>, op: ClOp)
    ensures OpsLens(acc, [op]) == OpLens(acc, op)
    ensures Legal(op) && (op.sym == REP_3_6 ==> acc != []) ==> Acceptable(acc, [op])
  {
    assert [op][1..] == [];
  }

  lemma PairLens(acc: seq<nat>, cur: nat, c: nat)
    requires 0 < cur < 16 && 4 <= c <= 7
    ensures var ops := [ClOp(cur, 0), ClOp(REP_3_6, c - 4)];
            Acceptable(acc, ops) && OpsLens(acc, ops) == acc + Repeat(cur, c)
  {
    Pow2Values();
    var a, b := ClOp(cur, 0), ClOp(REP_3_6, c - 4);
    OneOp(acc, a);
    OneOp(acc + [cur], b);
    OpsConcat(acc, [a], [b]);
    assert [a] + [b] == [a, b];
    assert acc + [cur] + Repeat(cur, c - 1) == acc + Repeat(cur, c);
  }

  lemma SingleLens(acc: seq<nat>, cur: nat, prev: int, c: nat)
    requires cur < 16 && MinCount(cur, prev) <= c <= MaxCount(cur, prev) && EndsIn(acc, prev) && (cur == 0 || cur == prev)
    ensures Acceptable(acc, Run(cur, prev, c)) && OpsLens(acc, Run(cur, prev, c)) == acc + Repeat(cur, c)
  {
    Pow2Values();
    OneOp(acc, Run(cur, prev, c)[0]);
    hide OpsLens, Acceptable;
  }

  lemma RunLens(acc: seq<nat>, cur: nat, prev: int, c: nat)
    requires cur < 16 && 1 <= c <= MaxCount(cur, prev) && EndsIn(acc, prev)
    ensures Acceptable(acc, Run(cur, prev, c)) && OpsLens(acc, Run(cur, prev, c)) == acc + Repeat(cur, c)
  {
    if c < MinCount(cur, prev) {
      SpellLens(acc, cur, c);
    } else if cur != 0 && cur != prev {
      PairLens(acc, cur, c);
    } else {
      SingleLens(acc, cur, prev, c);
    }
  }

  /** Decoding the run code gives the lengths back. */
  lemma {:induction false} RleLens(acc: seq<nat>, lens: seq<nat>, n: nat, prev: int, count: nat)
    requires Lengths(lens) && EndsIn(acc, prev)
    requires count <= n <= |lens| && (n == |lens| ==> count == 0)
    requires n < |lens| ==> count < MaxCount(lens[n], prev)
    requires forall k :: n - count <= k < n ==> lens[k] == lens[n]
    ensures Acceptable(acc, Rle(lens, n, prev, count))
    ensures OpsLens(acc, Rle(lens, n, prev, count)) == acc + lens[n - count..]
    decreases |lens| - n
  {
    hide Run, Acceptable, OpsLens;
    if n == |lens| {
      RleEnd(acc, lens);
    } else if count + 1 < MaxCount(lens[n], prev) && n + 1 < |lens| && lens[n + 1] == lens[n] {
      RleLens(acc, lens, n + 1, prev, count + 1);
    } else {
      var cur, c := lens[n], count + 1;
      RunLens(acc, cur, prev, c);
      var acc' := acc + Repeat(cur, c);
      assert acc'[|acc'| - 1] == cur;
      RleLens(acc', lens, n + 1, cur, 0);
      OpsConcat(acc, Run(cur, prev, c), Rle(lens, n + 1, cur, 0));
      assert lens[n - count..] == Repeat(cur, c) + lens[n + 1..];
      Assoc(acc, Repeat(cur, c), lens[n + 1..]);
    }
  }

  lemma RleEnd(acc: seq<nat>, lens: seq<nat>)
    ensures Acceptable(acc, []) && OpsLens(acc, []) == acc + lens[|lens|..]
  {
  }

  lemma OpsRoundTrip(acc: seq<nat>, lens: seq<nat>)
    requires Lengths(lens)
    ensures Acceptable(acc, Ops(lens)) && OpsLens(acc, Ops(lens)) == acc + lens
  {
    RleLens(acc, lens, 0, -1, 0);
  }
}
