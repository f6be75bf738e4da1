/** scan_tree and send_tree: the same walk over a table of code lengths, once to
    count the run-length symbols and once to send them. */
module TreeCoding {
  import opened Bits
  import opened Canonical
  import opened RunLengths
  import opened BitWriting

  const GUARD: nat := 0xffff

  /** How often a run-length symbol occurs. */
  function CountOps(ops: seq<ClOp>, s: nat): nat {
    if ops == [] then 0 else (if ops[0].sym == s then 1 else 0) + CountOps(ops[1..], s)
  }

  lemma {:induction false} CountOpsConcat(a: seq<ClOp>, b: seq<ClOp>, s: nat)
    ensures CountOps(a + b, s) == CountOps(a, s) + CountOps(b, s)
  {
    if a == [] {
      assert a + b == b;
    } else {
      CountOpsConcat(a[1..], b, s);
      assert (a + b)[1..] == a[1..] + b;
    }
  }

  lemma {:induction false} CountSpell(cur: nat, c: nat, s: nat)
    ensures CountOps(Spell(cur, c), s) == if s == cur then c else 0
    decreases c
  {
    if c > 0 {
      CountSpell(cur, c - 1, s);
      assert Spell(cur, c)[1..] == Spell(cur, c - 1);
    }
  }

  lemma CountPair(a: ClOp, b: ClOp, s: nat)
    ensures CountOps([a], s) == if a.sym == s then 1 else 0
    ensures CountOps([a, b], s) == (if a.sym == s then 1 else 0) + (if b.sym == s then 1 else 0)
  {
    assert [a][1..] == [] && [a, b][1..] == [b] && [b][1..] == [];
  }

  /** `freq` after counting `ops` on top of `was`. */
  ghost predicate Counted(was: seq<nat>, ops: seq<ClOp>, freq: seq<nat>) {
    |freq| == |was| && forall s :: 0 <= s < |freq| ==> freq[s] == was[s] + CountOps(ops, s)
  }

  lemma CountedConcat(was: seq<nat>, a: seq<ClOp>, mid: seq<nat>, b: seq<ClOp>, freq: seq<nat>)
    requires Counted(was, a, mid) && Counted(mid, b, freq)
    ensures Counted(was, a + b, freq)
  {
    forall s | 0 <= s < |freq| ensures freq[s] == was[s] + CountOps(a + b, s) {
      CountOpsConcat(a, b, s);
    }
  }

  /** The length table as the loops see it: `max_code + 1` lengths, then a guard. */
  ghost predicate Guarded(dl: seq<nat>, lens: seq<nat>) {
    |lens| < |dl| && Lengths(lens) && lens != [] && lens == dl[..|lens|] && dl[|lens|] == GUARD
  }

  /** Counts the symbols of one finished run. */
  method CountRun(cur: nat, prev: int, count: nat, minCount: nat, freq: array<nat>)
    requires cur < 16 && 1 <= count <= MaxCount(cur, prev) && minCount == MinCount(cur, prev)
    requires freq.Length >= BL_CODES
    modifies freq
    ensures Counted(old(freq[..]), Run(cur, prev, count), freq[..])
  {
    if count < minCount {
      freq[cur] := freq[cur] + count;
    } else if cur != 0 {
      if cur != prev {
        freq[cur] := freq[cur] + 1;
      }
      freq[REP_3_6] := freq[REP_3_6] + 1;
    } else if count <= 10 {
      freq[REPZ_3_10] := freq[REPZ_3_10] + 1;
    } else {
      freq[REPZ_11_138] := freq[REPZ_11_138] + 1;
    }
    forall s: nat ensures CountOps(Run(cur, prev, count), s) == RunCount(cur, prev, count, s) {
      CountOfRun(cur, prev, count, s);
    }
  }

  function RunCount(cur: nat, prev: int, c: nat, s: nat): nat
    requires 1 <= c <= MaxCount(cur, prev)
  {
    if c < MinCount(cur, prev) then if s == cur then c else 0
    else if cur != 0 then (if cur != prev && s == cur then 1 else 0) + (if s == REP_3_6 then 1 else 0)
    else if s == (if c <= 10 then REPZ_3_10 else REPZ_11_138) then 1 else 0
  }

  lemma CountOfRun(cur: nat, prev: int, c: nat, s: nat)
    requires cur < 16 && 1 <= c <= MaxCount(cur, prev)
    ensures CountOps(Run(cur, prev, c), s) == RunCount(cur, prev, c, s)
  {
    if c < MinCount(cur, prev) {
      CountSpell(cur, c, s);
    } else if cur != 0 && cur != prev {
      CountPair(ClOp(cur, 0), ClOp(REP_3_6, c - 4), s);
    } else {
      CountPair(Run(cur, prev, c)[0], ClOp(0, 0), s);
    }
  }

  lemma RleUnfold(lens: seq<nat>, n: nat, prev: int, count: nat)
    requires n < |lens| && count < MaxCount(lens[n], prev)
    ensures Rle(lens, n, prev, count)
         == if count + 1 < MaxCount(lens[n], prev) && n + 1 < |lens| && lens[n + 1] == lens[n]
            then Rle(lens, n + 1, prev, count + 1)
            else Run(lens[n], prev, count + 1) + Rle(lens, n + 1, lens[n], 0)
  {
  }

  /** Where a walk is: what it has still to send, with its running limits. */
  ghost predicate Walking(dl: seq<nat>, lens: seq<nat>, n: nat, prev: int, next: nat, count: nat, max: nat, min: nat) {
    Guarded(dl, lens) && n <= |lens| && next == dl[n]
    && (n < |lens| ==> count < max && max == MaxCount(next, prev) && min == MinCount(next, prev))
  }

  lemma WalkStep(dl: seq<nat>, lens: seq<nat>, n: nat, prev: int, next: nat, count: nat, max: nat, min: nat)
    requires Walking(dl, lens, n, prev, next, count, max, min) && n < |lens|
    ensures next < 16 && next == lens[n]
    ensures count + 1 < max && next == dl[n + 1] ==>
              Walking(dl, lens, n + 1, prev, dl[n + 1], count + 1, max, min)
              && Rle(lens, n, prev, count) == Rle(lens, n + 1, prev, count + 1)
    ensures !(count + 1 < max && next == dl[n + 1]) ==>
              Walking(dl, lens, n + 1, next, dl[n + 1], 0, MaxCount(dl[n + 1], next), MinCount(dl[n + 1], next))
              && Rle(lens, n, prev, count) == Run(next, prev, count + 1) + Rle(lens, n + 1, next, 0)
  {
    hide Run, Rle;
    RleUnfold(lens, n, prev, count);
    assert dl[n] == lens[n];
    assert n + 1 < |lens| ==> dl[n + 1] == lens[n + 1];
  }

  /** scan_tree: counts the run-length symbols of a length table. */
  method ScanTree(dl: array<nat>, maxCode: nat, freq: array<nat>)
    requires dl != freq && maxCode + 1 < dl.Length && Lengths(dl[..maxCode + 1]) && freq.Length >= BL_CODES
    modifies dl, freq
    ensures dl[..] == old(dl[..])[maxCode + 1 := GUARD]
    ensures Counted(old(freq[..]), Ops(old(dl[..maxCode + 1])), freq[..])
  {
    hide Counted, Run, Rle, MaxCount, MinCount;
    ghost var lens := dl[..maxCode + 1];
    ghost var was := freq[..];
    var prevLen: int := -1;
    var nextLen := dl[0];
    var count, maxCount, minCount := 0, 7, 4;
    if nextLen == 0 {
      maxCount, minCount := 138, 3;
    }
    dl[maxCode + 1] := GUARD;
    ghost var table := dl[..];
    assert lens == table[..maxCode + 1];
    StartWalk(table, lens, maxCount, minCount);
    CountedNone(was);
    ghost var done: seq<ClOp> := [];
    for n := 0 to maxCode + 1
      invariant dl[..] == table
      invariant Walking(table, lens, n, prevLen, nextLen, count, maxCount, minCount)
      invariant Counted(was, done, freq[..])
      invariant done + Rle(lens, n, prevLen, count) == Ops(lens)
    {
      WalkStep(table, lens, n, prevLen, nextLen, count, maxCount, minCount);
      var curLen := nextLen;
      nextLen := dl[n + 1];
      count := count + 1;
      if count < maxCount && curLen == nextLen {
        continue;
      }
      ghost var mid := freq[..];
      CountRun(curLen, prevLen, count, minCount, freq);
      CountedConcat(was, done, mid, Run(curLen, prevLen, count), freq[..]);
      Assoc(done, Run(curLen, prevLen, count), Rle(lens, n + 1, curLen, 0));
      done := done + Run(curLen, prevLen, count);
      count := 0;
      prevLen := curLen;
      maxCount, minCount := 7, 4;
      if nextLen == 0 {
        maxCount, minCount := 138, 3;
      } else if curLen == nextLen {
        maxCount, minCount := 6, 3;
      }
      Limits(nextLen, curLen);
    }
    RleDone(lens, prevLen, count);
    assert done == Ops(lens);
  }

  lemma Limits(next: nat, prev: int)
    ensures next == 0 ==> MaxCount(next, prev) == 138 && MinCount(next, prev) == 3
    ensures next != 0 && next == prev ==> MaxCount(next, prev) == 6 && MinCount(next, prev) == 3
    ensures next != 0 && next != prev ==> MaxCount(next, prev) == 7 && MinCount(next, prev) == 4
  {
  }

  lemma StartWalk(dl: seq<nat>, lens: seq<nat>, max: nat, min: nat)
    requires Guarded(dl, lens)
    requires max == (if dl[0] == 0 then 138 else 7) && min == (if dl[0] == 0 then 3 else 4)
    ensures Walking(dl, lens, 0, -1, dl[0], 0, max, min)
    ensures [] + Rle(lens, 0, -1, 0) == Ops(lens)
  {
  }

  lemma CountedNone(was: seq<nat>)
    ensures Counted(was, [], was)
  {
  }

  lemma RleDone(lens: seq<nat>, prev: int, count: nat)
    ensures Rle(lens, |lens|, prev, count) == []
  {
  }

  // ----- sending

  /** SEND_CODE.  The tables are only read, so they are passed by value. */
  method SendCode(w: BitWriter, codes: seq<nat>, dl: seq<nat>, c: nat, ghost lens: seq<nat>)
    requires w.Valid() && c < |codes| && c < |dl|
    requires c < |lens| && lens[c] > 0 && Coded(codes, lens) && dl[c] == lens[c]
    modifies w`outcnt, w`file, w`biBuf, w`biValid, w.outbuf
    ensures w.Valid() && w.Sent() == old(w.Sent()) + CodeWord(lens, c)
  {
    hide ToBits, Pow2, Reverse, Fits, CodeBits, BytesBits, Code;
    CodeSent(codes, lens, c);
    w.SendBits(codes[c], dl[c]);
  }

  lemma CodeSent(codes: seq<nat>, lens: seq<nat>, c: nat)
    requires Coded(codes, lens) && c < |lens| && c < |codes| && lens[c] > 0
    ensures lens[c] <= MAX_BITS && codes[c] < Pow2(lens[c])
    ensures ToBits(codes[c], lens[c]) == CodeWord(lens, c)
  {
    CodeBounds(lens, MAX_BITS, c);
    ReverseSent(Code(lens, c), lens[c]);
  }

  lemma SendableParts(cl: seq<nat>, a: seq<ClOp>, b: seq<ClOp>)
    requires AllSendable(cl, a + b)
    ensures AllSendable(cl, a) && AllSendable(cl, b)
    ensures OpsBits(cl, a + b) == OpsBits(cl, a) + OpsBits(cl, b)
  {
    hide Sendable, OpsBits;
    forall i | 0 <= i < |a| ensures Sendable(cl, a[i]) {
      assert (a + b)[i] == a[i];
    }
    forall i | 0 <= i < |b| ensures Sendable(cl, b[i]) {
      assert (a + b)[|a| + i] == b[i];
    }
    OpsBitsConcat(cl, a, b);
  }

  /** Sends one operation: its code and its repeat count. */
  method SendOp(w: BitWriter, codes: seq<nat>, dl: seq<nat>, ghost cl: seq<nat>, op: ClOp)
    requires w.Valid() && Sendable(cl, op) && CodeTable(codes, dl, cl)
    modifies w`outcnt, w`file, w`biBuf, w`biValid, w.outbuf
    ensures w.Valid() && w.Sent() == old(w.Sent()) + OpBits(cl, op)
  {
    hide ToBits, Pow2, Fits, CodeWord, BytesBits, Coded;
    ghost var sent := w.Sent();
    assert dl[op.sym] == cl[op.sym];
    SendCode(w, codes, dl, op.sym, cl);
    if op.sym >= REP_3_6 {
      w.SendBits(op.extra, ExtraBits(op.sym));
      Assoc(sent, CodeWord(cl, op.sym), ToBits(op.extra, ExtraBits(op.sym)));
    } else {
      NoBits(op.extra);
    }
  }

  ghost predicate CodeTable(codes: seq<nat>, dl: seq<nat>, cl: seq<nat>) {
    |cl| <= |codes| && |cl| <= |dl| && Coded(codes, cl) && dl[..|cl|] == cl
  }

  lemma SentMore(a: seq<bool>, cl: seq<nat>, op: ClOp, ops: seq<ClOp>)
    requires AllSendable(cl, [op] + ops)
    ensures Sendable(cl, op) && AllSendable(cl, ops)
    ensures (a + OpBits(cl, op)) + OpsBits(cl, ops) == a + OpsBits(cl, [op] + ops)
  {
    SendableParts(cl, [op], ops);
    assert ([op] + ops)[0] == op && ([op] + ops)[1..] == ops;
    Assoc(a, OpBits(cl, op), OpsBits(cl, ops));
  }

  lemma SentNothing(a: seq<bool>, cl: seq<nat>)
    ensures a + OpsBits(cl, []) == a
  {
  }

  /** Sends the symbols of one finished run. */
  method SendRun(w: BitWriter, codes: seq<nat>, dl: seq<nat>, ghost cl: seq<nat>, cur: nat, prev: int, n: nat, minCount: nat)
    requires w.Valid() && CodeTable(codes, dl, cl) && minCount == MinCount(cur, prev)
    requires 1 <= n <= MaxCount(cur, prev) && AllSendable(cl, Run(cur, prev, n))
    modifies w`outcnt, w`file, w`biBuf, w`biValid, w.outbuf
    ensures w.Valid() && w.Sent() == old(w.Sent()) + OpsBits(cl, Run(cur, prev, n))
  {
    hide Sendable, Coded, OpBits, OpsBits, MaxCount, ToBits, BytesBits;
    ghost var start, ops := w.Sent(), Run(cur, prev, n);
    var count := n;
    if count < minCount {
      while count > 0
        invariant w.Valid() && AllSendable(cl, Spell(cur, count))
        invariant w.Sent() + OpsBits(cl, Spell(cur, count)) == start + OpsBits(cl, ops)
      {
        SpellMore(cur, count);
        SentMore(w.Sent(), cl, ClOp(cur, 0), Spell(cur, count - 1));
        SendOp(w, codes, dl, cl, ClOp(cur, 0));
        count := count - 1;
      }
      SentNothing(w.Sent(), cl);
      return;
    }
    if cur != 0 && cur != prev {
      assert ops == [ClOp(cur, 0)] + [ClOp(REP_3_6, count - 4)];
      SentMore(w.Sent(), cl, ClOp(cur, 0), [ClOp(REP_3_6, count - 4)]);
      SendOp(w, codes, dl, cl, ClOp(cur, 0));
      count := count - 1;
    }
    var op := if cur != 0 then ClOp(REP_3_6, count - 3)
              else if count <= 10 then ClOp(REPZ_3_10, count - 3) else ClOp(REPZ_11_138, count - 11);
    SentMore(w.Sent(), cl, op, []);
    assert [op] + [] == [op];
    SendOp(w, codes, dl, cl, op);
    SentNothing(w.Sent(), cl);
  }

  lemma SpellMore(cur: nat, c: nat)
    requires c > 0
    ensures Spell(cur, c) == [ClOp(cur, 0)] + Spell(cur, c - 1)
  {
  }

  /** send_tree: sends a length table, run-length coded, by the code in `codes`. */
  method SendTree(w: BitWriter, dl: seq<nat>, maxCode: nat, codes: seq<nat>, blDl: seq<nat>, ghost cl: seq<nat>)
    requires w.Valid() && maxCode + 1 < |dl| && Guarded(dl, dl[..maxCode + 1])
    requires CodeTable(codes, blDl, cl) && AllSendable(cl, Ops(dl[..maxCode + 1]))
    modifies w`outcnt, w`file, w`biBuf, w`biValid, w.outbuf
    ensures w.Valid() && w.Sent() == old(w.Sent()) + OpsBits(cl, Ops(dl[..maxCode + 1]))
  {
    hide CodeTable, Run, Rle, MaxCount, MinCount, OpsBits, AllSendable, ToBits, BytesBits;
    ghost var lens, start := dl[..maxCode + 1], w.Sent();
    var prevLen: int := -1;
    var nextLen := dl[0];
    var count, maxCount, minCount := 0, 7, 4;
    if nextLen == 0 {
      maxCount, minCount := 138, 3;
    }
    StartWalk(dl, lens, maxCount, minCount);
    for n := 0 to maxCode + 1
      invariant w.Valid()
      invariant Walking(dl, lens, n, prevLen, nextLen, count, maxCount, minCount)
      invariant AllSendable(cl, Rle(lens, n, prevLen, count))
      invariant w.Sent() + OpsBits(cl, Rle(lens, n, prevLen, count)) == start + OpsBits(cl, Ops(lens))
    {
      WalkStep(dl, lens, n, prevLen, nextLen, count, maxCount, minCount);
      var curLen := nextLen;
      nextLen := dl[n + 1];
      count := count + 1;
      if count < maxCount && curLen == nextLen {
        continue;
      }
      ghost var ops, rest := Run(curLen, prevLen, count), Rle(lens, n + 1, curLen, 0);
      SendableParts(cl, ops, rest);
      Assoc(w.Sent(), OpsBits(cl, ops), OpsBits(cl, rest));
      SendRun(w, codes, blDl, cl, curLen, prevLen, count, minCount);
      count := 0;
      prevLen := curLen;
      if nextLen == 0 {
        maxCount, minCount := 138, 3;
      } else if curLen == nextLen {
        maxCount, minCount := 6, 3;
      } else {
        maxCount, minCount := 7, 4;
      }
      Limits(nextLen, curLen);
    }
    RleDone(lens, prevLen, count);
    SentNothing(w.Sent(), cl);
  }
}
