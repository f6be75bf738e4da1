/** Canonical Huffman codes: the numbering of RFC 1951 section 3.2.2, why it is
    prefix free, and gen_codes, which computes it. */
module Canonical {
  import opened Bits

  const MAX_BITS: nat := 15

  /** How many symbols have a code of `b` bits. */
  function Count(lens: seq<nat>, b: nat): (c: nat)
    ensures c <= |lens|
  {
    if lens == [] then 0
    else Count(lens[..|lens| - 1], b) + (if lens[|lens| - 1] == b then 1 else 0)
  }

  /** The numerically first code of `b` bits; length 0 means no code at all. */
  function Start(lens: seq<nat>, b: nat): nat {
    if b <= 1 then 0 else 2 * (Start(lens, b - 1) + Count(lens, b - 1))
  }

  /** Codes of one length are consecutive, in symbol order. */
  function Code(lens: seq<nat>, s: nat): nat
    requires s < |lens|
  {
    Start(lens, lens[s]) + Count(lens[..s], lens[s])
  }

  function CodeWord(lens: seq<nat>, s: nat): (w: seq<bool>)
    requires s < |lens|
    ensures |w| == lens[s]
  {
    CodeBits(Code(lens, s), lens[s])
  }

  /** The Kraft sum in units of 2^-L. */
  function Kraft(lens: seq<nat>, L: nat): nat {
    if lens == [] then 0
    else
      var x := lens[|lens| - 1];
      Kraft(lens[..|lens| - 1], L) + (if 0 < x <= L then Pow2(L - x) else 0)
  }

  predicate Bounded(lens: seq<nat>, L: nat) {
    forall i :: 0 <= i < |lens| ==> lens[i] <= L
  }

  /** The code words use up the code space exactly. */
  predicate Complete(lens: seq<nat>, L: nat) {
    Bounded(lens, L) && Kraft(lens, L) == Pow2(L)
  }

  /** No more code words than there is room for. */
  ghost predicate Fits(lens: seq<nat>, L: nat) {
    Bounded(lens, L) && Kraft(lens, L) <= Pow2(L)
  }

  // ----- counts

  lemma {:induction false} CountSplit(lens: seq<nat>, s: nat, b: nat)
    requires s <= |lens|
    ensures Count(lens[..s], b) <= Count(lens, b)
    ensures s < |lens| && lens[s] == b ==> Count(lens[..s], b) < Count(lens, b)
    decreases |lens|
  {
    if s == |lens| {
      assert lens[..s] == lens;
    } else {
      var l := lens[..|lens| - 1];
      assert l[..s] == lens[..s];
      CountSplit(l, s, b);
    }
  }

  lemma CountSnoc(lens: seq<nat>, n: nat, b: nat)
    requires n < |lens|
    ensures Count(lens[..n + 1], b) == Count(lens[..n], b) + (if lens[n] == b then 1 else 0)
  {
    assert lens[..n + 1][..n] == lens[..n];
  }

  // ----- the Kraft sum, by length

  function KraftUpTo(lens: seq<nat>, L: nat, b: nat): nat
    requires b <= L
  {
    if b == 0 then 0 else KraftUpTo(lens, L, b - 1) + Shl(Count(lens, b), L - b)
  }

  lemma {:induction false} KraftUpToMono(lens: seq<nat>, L: nat, b: nat, c: nat)
    requires b <= c <= L
    ensures KraftUpTo(lens, L, b) <= KraftUpTo(lens, L, c)
    decreases c
  {
    if b < c {
      KraftUpToMono(lens, L, b, c - 1);
    }
  }

  lemma {:induction false} KraftUpToSnoc(lens: seq<nat>, x: nat, L: nat, b: nat)
    requires b <= L
    ensures KraftUpTo(lens + [x], L, b) == KraftUpTo(lens, L, b) + (if 0 < x <= b then Pow2(L - x) else 0)
  {
    if b > 0 {
      KraftUpToSnoc(lens, x, L, b - 1);
      assert (lens + [x])[..|lens|] == lens;
      ShlAdd(Count(lens, b), 1, L - b);
      ShlOne(L - b);
    }
  }

  /** Summing 2^-len over symbols is summing count * 2^-len over lengths. */
  lemma {:induction false} KraftByLength(lens: seq<nat>, L: nat)
    ensures Kraft(lens, L) == KraftUpTo(lens, L, L)
  {
    if lens == [] {
      KraftUpToNil(L, L);
    } else {
      var l, x := lens[..|lens| - 1], lens[|lens| - 1];
      KraftByLength(l, L);
      KraftUpToSnoc(l, x, L, L);
      assert lens == l + [x];
    }
  }

  lemma {:induction false} KraftUpToNil(L: nat, b: nat)
    requires b <= L
    ensures KraftUpTo([], L, b) == 0
  {
    if b > 0 {
      KraftUpToNil(L, b - 1);
      ShlOne(L - b);
    }
  }

  /** The codes up to `b` bits take exactly their Kraft share of the code space. */
  lemma {:induction false} StartSum(lens: seq<nat>, L: nat, b: nat)
    requires 1 <= b <= L
    ensures Shl(Start(lens, b) + Count(lens, b), L - b) == KraftUpTo(lens, L, b)
  {
    if b == 1 {
      assert KraftUpTo(lens, L, 0) == 0;
    } else {
      StartSum(lens, L, b - 1);
      var e := Start(lens, b - 1) + Count(lens, b - 1);
      ShlTwice(e, 1, L - b);
      assert Shl(e, 1) == 2 * e;
      ShlAdd(2 * e, Count(lens, b), L - b);
    }
  }

  /** If the Kraft inequality holds, the codes of `b` bits fit in `b` bits. */
  lemma {:induction false} StartFits(lens: seq<nat>, L: nat, b: nat)
    requires Fits(lens, L) && 1 <= b <= L
    ensures Start(lens, b) + Count(lens, b) <= Pow2(b)
  {
    KraftByLength(lens, L);
    StartSum(lens, L, b);
    KraftUpToMono(lens, L, b, L);
    Pow2Add(b, L - b);
    ShlMono(Pow2(b), Start(lens, b) + Count(lens, b), L - b);
  }

  lemma CodeBounds(lens: seq<nat>, L: nat, s: nat)
    requires Fits(lens, L) && s < |lens| && lens[s] > 0
    ensures Start(lens, lens[s]) <= Code(lens, s) < Start(lens, lens[s]) + Count(lens, lens[s])
    ensures Code(lens, s) < Pow2(lens[s])
  {
    CountSplit(lens, s, lens[s]);
    StartFits(lens, L, lens[s]);
  }

  /** Longer codes start above every extension of the shorter ones. */
  lemma {:induction false} StartGap(lens: seq<nat>, a: nat, b: nat)
    requires 1 <= a < b
    ensures Shl(Start(lens, a) + Count(lens, a), b - a) <= Start(lens, b)
    decreases b
  {
    if a + 1 < b {
      StartGap(lens, a, b - 1);
    }
  }

  lemma ShrGe(v: nat, q: nat, k: nat)
    requires Shl(q, k) <= v
    ensures q <= Shr(v, k)
  {
    LowShr(v, k);
    ShlMono(Shr(v, k), q, k);
  }

  /** Codes of one length are different numbers. */
  lemma CodesDistinct(lens: seq<nat>, s: nat, t: nat)
    requires s < |lens| && t < |lens| && s != t && lens[s] == lens[t]
    ensures Code(lens, s) != Code(lens, t)
  {
    var lo, hi := if s < t then s else t, if s < t then t else s;
    assert lens[..hi][..lo] == lens[..lo];
    CountSplit(lens[..hi], lo, lens[s]);
  }

  /** No code word is a prefix of another. */
  lemma PrefixFree(lens: seq<nat>, L: nat, s: nat, t: nat)
    requires Fits(lens, L)
    requires s < |lens| && t < |lens| && s != t && 0 < lens[s] <= lens[t]
    ensures CodeWord(lens, t)[..lens[s]] != CodeWord(lens, s)
  {
    var a, b := lens[s], lens[t];
    var cs, ct := Code(lens, s), Code(lens, t);
    CodeBounds(lens, L, s);
    CodeBounds(lens, L, t);
    CodeBitsPrefix(ct, b, a);
    ShrLess(ct, b - a, a);
    if CodeWord(lens, t)[..a] == CodeWord(lens, s) {
      CodeBitsInjective(Shr(ct, b - a), cs, a);
      if a == b {
        CodesDistinct(lens, s, t);
      } else {
        StartGap(lens, a, b);
        ShrGe(ct, Start(lens, a) + Count(lens, a), b - a);
      }
      assert false;
    }
  }

  // ----- reading one symbol

  predicate At(bits: seq<bool>, pos: nat, w: seq<bool>) {
    pos + |w| <= |bits| && bits[pos..pos + |w|] == w
  }

  /** The symbol from `s` on whose code word is next in the input. */
  function FindSym(lens: seq<nat>, bits: seq<bool>, pos: nat, s: nat): (r: Option<nat>)
    requires s <= |lens|
    ensures r.Some? ==> s <= r.value < |lens| && lens[r.value] > 0 && At(bits, pos, CodeWord(lens, r.value))
    decreases |lens| - s
  {
    if s == |lens| then None
    else if lens[s] > 0 && At(bits, pos, CodeWord(lens, s)) then Some(s)
    else FindSym(lens, bits, pos, s + 1)
  }

  /** Reads one Huffman-coded symbol: the symbol and the position after it. */
  function DecodeSym(lens: seq<nat>, bits: seq<bool>, pos: nat): (r: Option<(nat, nat)>)
    ensures r.Some? ==> r.value.0 < |lens| && pos < r.value.1 <= |bits|
  {
    match FindSym(lens, bits, pos, 0)
    case None => None
    case Some(s) => Some((s, pos + lens[s]))
  }

  lemma AtConcat(bits: seq<bool>, pos: nat, a: seq<bool>, b: seq<bool>)
    requires At(bits, pos, a + b)
    ensures At(bits, pos, a) && At(bits, pos + |a|, b)
  {
    assert bits[pos..pos + |a + b|][..|a|] == bits[pos..pos + |a|];
    assert bits[pos..pos + |a + b|][|a|..] == bits[pos + |a|..pos + |a| + |b|];
  }

  /** The same, for bits that are known to be put together from two parts. */
  lemma AtParts(bits: seq<bool>, pos: nat, w: seq<bool>, a: seq<bool>, b: seq<bool>)
    requires At(bits, pos, w) && w == a + b
    ensures At(bits, pos, a) && At(bits, pos + |a|, b) && |w| == |a| + |b|
  {
    AtConcat(bits, pos, a, b);
  }

  lemma AtTwo(lens: seq<nat>, L: nat, s: nat, t: nat, bits: seq<bool>, pos: nat)
    requires Fits(lens, L)
    requires s < |lens| && t < |lens| && lens[s] > 0 && lens[t] > 0
    requires At(bits, pos, CodeWord(lens, s)) && At(bits, pos, CodeWord(lens, t))
    ensures s == t
  {
    if s != t {
      var (x, y) := if lens[s] <= lens[t] then (s, t) else (t, s);
      assert bits[pos..pos + lens[y]][..lens[x]] == bits[pos..pos + lens[x]];
      PrefixFree(lens, L, x, y);
      assert false;
    }
  }

  /** A written code word reads back as its symbol, whatever follows it. */
  lemma DecodeSymCorrect(lens: seq<nat>, L: nat, s: nat, bits: seq<bool>, pos: nat)
    requires Fits(lens, L)
    requires s < |lens| && lens[s] > 0 && At(bits, pos, CodeWord(lens, s))
    ensures DecodeSym(lens, bits, pos) == Some((s, pos + lens[s]))
  {
    FindSymFinds(lens, bits, pos, s, 0);
    var t := FindSym(lens, bits, pos, 0).value;
    AtTwo(lens, L, s, t, bits, pos);
  }

  lemma {:induction false} FindSymFinds(lens: seq<nat>, bits: seq<bool>, pos: nat, s: nat, from: nat)
    requires from <= s < |lens| && lens[s] > 0 && At(bits, pos, CodeWord(lens, s))
    ensures FindSym(lens, bits, pos, from).Some?
    decreases s - from
  {
    if from < s {
      FindSymFinds(lens, bits, pos, s, from + 1);
    }
  }

  // ----- gen_codes

  ghost predicate CountsMatch(blCount: seq<nat>, lens: seq<nat>) {
    |blCount| == MAX_BITS + 1 && blCount[0] == 0
    && forall b :: 1 <= b <= MAX_BITS ==> blCount[b] == Count(lens, b)
  }

  /** gen_codes, first half: the start code of each length. */
  method StartCodes(blCount: array<nat>, ghost lens: seq<nat>) returns (nextCode: array<nat>)
    requires blCount.Length == MAX_BITS + 1 && CountsMatch(blCount[..], lens)
    ensures fresh(nextCode) && nextCode.Length == MAX_BITS + 1
    ensures forall b :: 1 <= b <= MAX_BITS ==> nextCode[b] == Start(lens, b)
  {
    hide Count;
    nextCode := new nat[MAX_BITS + 1];
    var code := 0;
    for bits := 1 to MAX_BITS + 1
      invariant code == Start(lens, bits - 1)
      invariant forall b :: 1 <= b < bits ==> nextCode[b] == Start(lens, b)
    {
      code := (code + blCount[bits - 1]) * 2;
      nextCode[bits] := code;
    }
  }

  ghost predicate NextCodes(nextCode: seq<nat>, lens: seq<nat>, n: nat)
    requires n <= |lens|
  {
    |nextCode| == MAX_BITS + 1
    && forall b :: 1 <= b <= MAX_BITS ==> nextCode[b] == Start(lens, b) + Count(lens[..n], b)
  }

  lemma NextCodesStep(nextCode: seq<nat>, lens: seq<nat>, n: nat)
    requires n < |lens| && NextCodes(nextCode, lens, n) && lens[n] <= MAX_BITS
    ensures lens[n] == 0 ==> NextCodes(nextCode, lens, n + 1)
    ensures lens[n] > 0 ==> nextCode[lens[n]] == Code(lens, n)
    ensures lens[n] > 0 ==> NextCodes(nextCode[lens[n] := Code(lens, n) + 1], lens, n + 1)
  {
    forall b: nat ensures Count(lens[..n + 1], b) == Count(lens[..n], b) + if lens[n] == b then 1 else 0 {
      CountSnoc(lens, n, b);
    }
  }

  /** Symbols below `n` have their codes; everything else is as it was. */
  ghost predicate CodedUpTo(was: seq<nat>, codes: seq<nat>, lens: seq<nat>, n: nat) {
    |codes| == |was| && n <= |lens| <= |codes|
    && (forall k :: 0 <= k < n && lens[k] > 0 ==> codes[k] == Reverse(Code(lens, k), lens[k]))
    && (forall k :: 0 <= k < |codes| && (k >= n || lens[k] == 0) ==> codes[k] == was[k])
  }

  lemma CodedStep(was: seq<nat>, codes: seq<nat>, lens: seq<nat>, n: nat)
    requires CodedUpTo(was, codes, lens, n) && n < |lens|
    ensures lens[n] == 0 ==> CodedUpTo(was, codes, lens, n + 1)
    ensures lens[n] > 0 ==> CodedUpTo(was, codes[n := Reverse(Code(lens, n), lens[n])], lens, n + 1)
  {
  }

  /** gen_codes: first the start code of each length, then the codes in symbol
      order, bit-reversed. */
  method GenCodes(fc: array<nat>, dl: array<nat>, maxCode: nat, blCount: array<nat>)
    requires fc != dl && fc != blCount && maxCode < fc.Length && maxCode < dl.Length
    requires blCount.Length == MAX_BITS + 1
    requires CountsMatch(blCount[..], dl[..maxCode + 1])
    requires Fits(dl[..maxCode + 1], MAX_BITS)
    modifies fc
    ensures CodedUpTo(old(fc[..]), fc[..], dl[..maxCode + 1], maxCode + 1)
  {
    hide Reverse, Code, Kraft, Start, Count;
    ghost var lens := dl[..maxCode + 1];
    ghost var was := fc[..];
    var nextCode := StartCodes(blCount, lens);
    for n := 0 to maxCode + 1
      invariant NextCodes(nextCode[..], lens, n)
      invariant CodedUpTo(was, fc[..], lens, n)
    {
      var len := dl[n];
      assert len == lens[n];
      ghost var codes, next := fc[..], nextCode[..];
      NextCodesStep(next, lens, n);
      CodedStep(was, codes, lens, n);
      if len != 0 {
        CodeBounds(lens, MAX_BITS, n);
        fc[n] := BiReverse(nextCode[len], len);
        nextCode[len] := nextCode[len] + 1;
        assert fc[..] == codes[n := Reverse(Code(lens, n), len)];
        assert nextCode[..] == next[len := next[len] + 1];
      }
    }
  }

  /** The table holds, for every symbol with a code, the reversed code word. */
  ghost predicate Coded(codes: seq<nat>, lens: seq<nat>) {
    Fits(lens, MAX_BITS)
    && forall n :: 0 <= n < |lens| && n < |codes| && lens[n] > 0 ==> codes[n] == Reverse(Code(lens, n), lens[n])
  }

  lemma CodedDone(was: seq<nat>, codes: seq<nat>, lens: seq<nat>)
    requires CodedUpTo(was, codes, lens, |lens|) && Fits(lens, MAX_BITS)
    ensures Coded(codes, lens)
  {
  }

  /** The Kraft sum in finer units. */
  lemma {:induction false} KraftScale(lens: seq<nat>, L: nat, M: nat)
    requires Bounded(lens, L) && L <= M
    ensures Kraft(lens, M) == Shl(Kraft(lens, L), M - L)
  {
    if lens == [] {
      ShlOne(M - L);
    } else {
      var l, x := lens[..|lens| - 1], lens[|lens| - 1];
      KraftScale(l, L, M);
      if x > 0 {
        ShlAdd(Kraft(l, L), Pow2(L - x), M - L);
        Pow2Add(L - x, M - L);
      }
    }
  }

  lemma CompleteFits(lens: seq<nat>, L: nat, M: nat)
    requires Complete(lens, L) && L <= M
    ensures Fits(lens, M) && Complete(lens, M)
  {
    hide Kraft;
    KraftScale(lens, L, M);
    Pow2Add(L, M - L);
  }
}
