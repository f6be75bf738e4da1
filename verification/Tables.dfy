/** ct_init: the tables from lengths and distances to codes, and the fixed codes. */
module Tables {
  import opened Bits
  import opened Canonical
  import opened Inflate
  import opened Tokens

  const L_CODES: nat := 286

  // extra_lbits, extra_dbits
  const EXTRA_LBITS: seq<nat> :=
    [0, 0, 0, 0, 0, 0, 0, 0, 1, 1, 1, 1, 2, 2, 2, 2, 3, 3, 3, 3, 4, 4, 4, 4, 5, 5, 5, 5, 0]
  const EXTRA_DBITS: seq<nat> :=
    [0, 0, 0, 0, 1, 1, 2, 2, 3, 3, 4, 4, 5, 5, 6, 6, 7, 7, 8, 8, 9, 9, 10, 10, 11, 11, 12, 12, 13, 13]

  function ExtraLBits(c: nat): nat
    requires c < LEN_CODES
  {
    EXTRA_LBITS[c]
  }

  function ExtraDBits(d: nat): nat
    requires d < DIST_CODES
  {
    EXTRA_DBITS[d]
  }

  /** The tables of the compressor are those of the decoder. */
  lemma ExtraLIs(c: nat)
    requires c < LEN_CODES
    ensures ExtraLBits(c) == LenExtra(c)
  {
  }

  lemma ExtraDIs(d: nat)
    requires d < DIST_CODES
    ensures ExtraDBits(d) == DistExtra(d)
  {
  }

  // ----- the code tables are inverse to the base tables

  lemma {:induction false} LenBaseMono(c: nat, d: nat)
    requires c <= d < LEN_CODES
    ensures LenBase(c) <= LenBase(d) && (c < d ==> LenBase(c) < LenBase(d))
    decreases d - c
  {
    hide LenBase, LenExtra, Pow2;
    LastLenBase();
    if c < d {
      LenTable(c);
      LenBaseMono(c + 1, d);
    }
  }

  lemma LenCodeUnique(len: nat, c: nat)
    requires MIN_MATCH <= len <= MAX_MATCH && c < LEN_CODES && LenBase(c) <= len
    requires c + 1 < LEN_CODES ==> len < LenBase(c + 1)
    ensures LenCode(len) == c
  {
    hide LenBase;
    var d := LenCode(len);
    if d < c {
      LenBaseMono(d + 1, c);
    } else if c < d {
      LenBaseMono(c + 1, d);
    }
  }

  lemma {:induction false} DistBaseMono(c: nat, d: nat)
    requires c <= d < DIST_CODES
    ensures DistBase(c) <= DistBase(d)
    decreases d - c
  {
    hide DistBase, DistExtra, Pow2;
    if c < d {
      DistTable(c);
      DistBaseMono(c + 1, d);
    }
  }

  lemma DistCodeUnique(dist: nat, c: nat)
    requires 1 <= dist && c < DIST_CODES && DistBase(c) <= dist
    requires c + 1 < DIST_CODES ==> dist < DistBase(c + 1)
    ensures DistCode(dist) == c
  {
    hide DistBase;
    var d := DistCode(dist);
    if d < c {
      DistBaseMono(d + 1, c);
    } else if c < d {
      DistBaseMono(c + 1, d);
    }
  }

  /** length_code[lc] is the length code of lc + 3, base_length its first length. */
  ghost predicate LengthTables(lengthCode: seq<nat>, baseLength: seq<nat>) {
    |lengthCode| == 256 && |baseLength| == LEN_CODES
    && (forall lc :: 0 <= lc < 256 ==> lengthCode[lc] == LenCode(lc + MIN_MATCH))
    && (forall c :: 0 <= c < LEN_CODES && LenExtra(c) > 0 ==> baseLength[c] + MIN_MATCH == LenBase(c))
  }

  /** The part of the length tables filled so far. */
  ghost predicate LengthsTo(lengthCode: seq<nat>, length: nat, code: nat) {
    length <= |lengthCode| && code < LEN_CODES
    && forall i :: 0 <= i < length ==>
         lengthCode[i] <= code && lengthCode[i] + 1 < LEN_CODES
         && LenBase(lengthCode[i]) <= i + MIN_MATCH < LenBase(lengthCode[i]) + Pow2(LenExtra(lengthCode[i]))
  }

  lemma LengthsDone(lengthCode: seq<nat>, i: nat)
    requires LengthsTo(lengthCode, 256, 27) && i < 255
    ensures lengthCode[i] == LenCode(i + MIN_MATCH)
  {
    hide LenBase, LenExtra, Pow2;
    var c := lengthCode[i];
    LenTable(c);
    LastLenBase();
    LenCodeUnique(i + MIN_MATCH, c);
  }

  lemma LastLenBase()
    ensures LenBase(0) == 3 && LenBase(27) == 227 && LenExtra(27) == 5 && LenBase(28) == 258 && LenExtra(28) == 0
    ensures LenCode(MAX_MATCH) == 28
  {
  }

  /** The mapping length -> length code. */
  method InitLengths() returns (lengthCode: array<nat>, baseLength: array<nat>)
    ensures fresh(lengthCode) && fresh(baseLength)
    ensures LengthTables(lengthCode[..], baseLength[..])
  {
    hide LenBase, LenExtra, ExtraLBits, Pow2, LenCode;
    lengthCode, baseLength := new nat[256], new nat[LEN_CODES](_ => 0);
    LastLenBase();
    FiveBits();
    var length: nat, code: nat := 0, 0;
    while code < LEN_CODES - 1
      invariant code < LEN_CODES && length <= 256
      invariant length + MIN_MATCH == if code < 28 then LenBase(code) else 259
      invariant code == 0 ==> length == 0
      invariant code > 0 ==> LengthsTo(lengthCode[..], length, code - 1)
      invariant forall c :: 0 <= c < code ==> baseLength[c] + MIN_MATCH == LenBase(c)
    {
      LenTable(code);
      LenUpper(code);
      baseLength[code] := length;
      ExtraLIs(code);
      length := FillLengths(lengthCode, length, code, ExtraLBits(code));
      code := code + 1;
    }
    forall i | 0 <= i < 255 ensures lengthCode[i] == LenCode(i + MIN_MATCH) {
      LengthsDone(lengthCode[..], i);
    }
    lengthCode[length - 1] := code;
  }

  lemma FiveBits()
    ensures Pow2(5) == 32
  {
    Pow2Values();
  }

  lemma LenUpper(c: nat)
    requires c < 28
    ensures LenBase(c) + Pow2(LenExtra(c)) <= 259
  {
    hide LenBase, LenExtra, Pow2;
    LenTable(c);
    LastLenBase();
    if c < 27 {
      LenBaseMono(c + 1, 27);
    }
  }

  /** All lengths of one code. */
  method FillLengths(lengthCode: array<nat>, length0: nat, code: nat, extra: nat) returns (length: nat)
    requires lengthCode.Length == 256 && code < LEN_CODES - 1 && extra == LenExtra(code)
    requires length0 + MIN_MATCH == LenBase(code) && length0 + Pow2(extra) <= 256
    requires code == 0 ==> length0 == 0
    requires code > 0 ==> LengthsTo(lengthCode[..], length0, code - 1)
    modifies lengthCode
    ensures length == length0 + Pow2(extra) && LengthsTo(lengthCode[..], length, code)
  {
    hide LenBase, LenExtra, Pow2;
    length := length0;
    for n := 0 to Pow2(extra)
      invariant length == length0 + n && LengthsTo(lengthCode[..], length, code)
    {
      lengthCode[length] := code;
      length := length + 1;
    }
  }

  // ----- distances

  /** D_CODE */
  function DCode(distCode: seq<nat>, dist: nat): nat
    requires |distCode| == 512 && dist < 32768
  {
    if dist < 256 then distCode[dist] else distCode[256 + dist / 128]
  }

  ghost predicate DistTables(distCode: seq<nat>, baseDist: seq<nat>) {
    |distCode| == 512 && |baseDist| == DIST_CODES
    && (forall d: nat :: d < 32768 ==> DCode(distCode, d) == DistCode(d + 1))
    && (forall c :: 0 <= c < DIST_CODES ==> baseDist[c] + 1 == DistBase(c))
  }

  /** Entries for single distances. */
  ghost predicate NearTo(distCode: seq<nat>, dist: nat, code: nat) {
    |distCode| == 512 && dist <= 256 && code < DIST_CODES
    && forall i :: 0 <= i < dist ==>
         distCode[i] <= code && DistBase(distCode[i]) <= i + 1 < DistBase(distCode[i]) + Pow2(DistExtra(distCode[i]))
  }

  /** Entries for 128 distances each. */
  ghost predicate FarTo(distCode: seq<nat>, dist: nat, code: nat) {
    |distCode| == 512 && dist <= 256 && code < DIST_CODES
    && forall j :: 258 <= j < 256 + dist ==>
         distCode[j] <= code
         && DistBase(distCode[j]) <= 128 * (j - 256) + 1
         && 128 * (j - 255) < DistBase(distCode[j]) + Pow2(DistExtra(distCode[j]))
  }

  lemma FarExtra(c: nat)
    requires 14 <= c < DIST_CODES
    ensures DistExtra(c) >= 6
    ensures c >= 16 ==> DistExtra(c) >= 7 && Pow2(DistExtra(c)) == 128 * Pow2(DistExtra(c) - 7)
    ensures DistBase(0) == 1 && DistBase(16) == 257
  {
    if c >= 16 {
      var e := DistExtra(c);
      assert e >= 7;
      Pow2Add(e - 7, 7);
      ShlMul(Pow2(e - 7), 7);
      Pow2Values();
    }
  }

  lemma CodeFromRange(dist: nat, c: nat)
    requires 1 <= dist && c < DIST_CODES && DistBase(c) <= dist < DistBase(c) + Pow2(DistExtra(c))
    ensures DistCode(dist) == c
  {
    hide DistBase, DistExtra, Pow2;
    DistTable(c);
    DistCodeUnique(dist, c);
  }

  lemma Within128(d: nat, i: nat)
    requires i == d / 128 && 256 <= d < 32768
    ensures 2 <= i < 256 && 128 * i <= d < 128 * (i + 1)
  {
  }

  lemma FarAt(distCode: seq<nat>, j: nat)
    requires FarTo(distCode, 256, 29) && 258 <= j < 512
    ensures distCode[j] < DIST_CODES && DistBase(distCode[j]) <= 128 * (j - 256) + 1
    ensures 128 * (j - 255) < DistBase(distCode[j]) + Pow2(DistExtra(distCode[j]))
  {
    hide DistBase, DistExtra, Pow2;
  }

  lemma DistDone(distCode: seq<nat>, d: nat)
    requires NearTo(distCode, 256, 15) && FarTo(distCode, 256, 29) && d < 32768
    ensures DCode(distCode, d) == DistCode(d + 1)
  {
    hide DistBase, DistExtra, Pow2, DistCode;
    if d < 256 {
      CodeFromRange(d + 1, distCode[d]);
    } else {
      var i := d / 128;
      Within128(d, i);
      FarAt(distCode, 256 + i);
      CodeFromRange(d + 1, distCode[256 + i]);
    }
  }

  /** The mapping distance -> distance code. */
  method InitDistances() returns (distCode: array<nat>, baseDist: array<nat>)
    ensures fresh(distCode) && fresh(baseDist)
    ensures DistTables(distCode[..], baseDist[..])
  {
    hide DistBase, DistExtra, ExtraDBits, Pow2, DCode;
    distCode, baseDist := new nat[512], new nat[DIST_CODES];
    FarExtra(16);
    var dist: nat, code: nat := 0, 0;
    while code < 16
      invariant code <= 16 && dist <= 256 && dist + 1 == DistBase(code)
      invariant code == 0 ==> dist == 0
      invariant code > 0 ==> NearTo(distCode[..], dist, code - 1)
      invariant forall c :: 0 <= c < code ==> baseDist[c] + 1 == DistBase(c)
    {
      DistTable(code);
      DistBaseMono(code + 1, 16);
      baseDist[code] := dist;
      ExtraDIs(code);
      dist := FillNear(distCode, dist, code, ExtraDBits(code));
      code := code + 1;
    }
    dist := dist / 128;
    while code < DIST_CODES
      invariant 16 <= code <= DIST_CODES && 2 <= dist <= 256
      invariant 128 * dist + 1 == if code < DIST_CODES then DistBase(code) else 32769
      invariant code == 16 ==> dist == 2
      invariant NearTo(distCode[..], 256, 15)
      invariant code > 16 ==> FarTo(distCode[..], dist, code - 1)
      invariant forall c :: 0 <= c < code ==> baseDist[c] + 1 == DistBase(c)
    {
      DistTable(code);
      FarExtra(code);
      DistUpper(code);
      baseDist[code] := dist * 128;
      ExtraDIs(code);
      dist := FillFar(distCode, dist, code, ExtraDBits(code));
      code := code + 1;
    }
    forall d: nat | d < 32768 ensures DCode(distCode[..], d) == DistCode(d + 1) {
      DistDone(distCode[..], d);
    }
  }

  lemma DistUpper(c: nat)
    requires c < DIST_CODES
    ensures DistBase(c) + Pow2(DistExtra(c)) <= 32769
  {
    hide DistBase, DistExtra, Pow2;
    DistTable(c);
    DistTable(29);
    if c < 29 {
      DistBaseMono(c + 1, 29);
    }
  }

  method FillNear(distCode: array<nat>, dist0: nat, code: nat, extra: nat) returns (dist: nat)
    requires distCode.Length == 512 && code < 16 && extra == DistExtra(code)
    requires dist0 + 1 == DistBase(code) && dist0 + Pow2(extra) <= 256
    requires code == 0 ==> dist0 == 0
    requires code > 0 ==> NearTo(distCode[..], dist0, code - 1)
    modifies distCode
    ensures dist == dist0 + Pow2(extra) && NearTo(distCode[..], dist, code)
  {
    hide DistBase, DistExtra, Pow2;
    dist := dist0;
    for n := 0 to Pow2(extra)
      invariant dist == dist0 + n && NearTo(distCode[..], dist, code)
    {
      distCode[dist] := code;
      dist := dist + 1;
    }
  }

  method FillFar(distCode: array<nat>, dist0: nat, code: nat, extra: nat) returns (dist: nat)
    requires distCode.Length == 512 && 16 <= code < DIST_CODES && extra == DistExtra(code) && extra >= 7
    requires Pow2(extra) == 128 * Pow2(extra - 7)
    requires 2 <= dist0 && 128 * dist0 + 1 == DistBase(code) && 128 * dist0 + Pow2(extra) <= 32768
    requires NearTo(distCode[..], 256, 15)
    requires code == 16 ==> dist0 == 2
    requires code > 16 ==> FarTo(distCode[..], dist0, code - 1)
    modifies distCode
    ensures dist == dist0 + Pow2(extra - 7) && FarTo(distCode[..], dist, code) && NearTo(distCode[..], 256, 15)
  {
    hide DistBase, DistExtra, Pow2;
    dist := dist0;
    for n := 0 to Pow2(extra - 7)
      invariant dist == dist0 + n && dist <= 256 && FarTo(distCode[..], dist, code) && NearTo(distCode[..], 256, 15)
    {
      distCode[256 + dist] := code;
      dist := dist + 1;
    }
  }

  // ----- the fixed codes

  lemma {:induction false} CountConcat(a: seq<nat>, b: seq<nat>, x: nat)
    ensures Count(a + b, x) == Count(a, x) + Count(b, x)
    decreases |b|
  {
    if b == [] {
      assert a + b == a;
    } else {
      var b' := b[..|b| - 1];
      assert (a + b)[..|a + b| - 1] == a + b';
      CountConcat(a, b', x);
    }
  }

  lemma {:induction false} KraftConcat(a: seq<nat>, b: seq<nat>, L: nat)
    ensures Kraft(a + b, L) == Kraft(a, L) + Kraft(b, L)
    decreases |b|
  {
    if b == [] {
      assert a + b == a;
    } else {
      var b' := b[..|b| - 1];
      assert (a + b)[..|a + b| - 1] == a + b';
      KraftConcat(a, b', L);
    }
  }

  lemma {:induction false} RepeatSums(x: nat, n: nat, L: nat)
    requires 0 < x <= L
    ensures Kraft(Repeat(x, n), L) == n * Pow2(L - x)
    ensures forall b: nat :: Count(Repeat(x, n), b) == if b == x then n else 0
  {
    if n > 0 {
      RepeatSums(x, n - 1, L);
      assert Repeat(x, n)[..n - 1] == Repeat(x, n - 1);
    }
  }

  lemma FixedLitSums()
    ensures Complete(FixedLit(), MAX_BITS)
    ensures forall b: nat :: Count(FixedLit(), b) == if b == 7 then 24 else if b == 8 then 152 else if b == 9 then 112 else 0
    ensures FixedLit()[END_OF_BLOCK] == 7
  {
    var a, b, c, d := Repeat(8, 144), Repeat(9, 112), Repeat(7, 24), Repeat(8, 8);
    assert Bounded(FixedLit(), MAX_BITS);
    assert FixedLit() == ((a + b) + c) + d;
    assert FixedLit()[END_OF_BLOCK] == 7;
    RepeatSums(8, 144, MAX_BITS);
    RepeatSums(9, 112, MAX_BITS);
    RepeatSums(7, 24, MAX_BITS);
    RepeatSums(8, 8, MAX_BITS);
    hide Repeat, Kraft, Count, Bounded;
    Pow2Values();
    hide Pow2;
    KraftConcat((a + b) + c, d, MAX_BITS);
    KraftConcat(a + b, c, MAX_BITS);
    KraftConcat(a, b, MAX_BITS);
    forall x: nat ensures Count(FixedLit(), x) == Count(a, x) + Count(b, x) + Count(c, x) + Count(d, x) {
      CountConcat((a + b) + c, d, x);
      CountConcat(a + b, c, x);
      CountConcat(a, b, x);
    }
  }

  /** The lengths of the fixed literal/length code. */
  method StaticLengths(dl: array<nat>)
    requires dl.Length == 288
    modifies dl
    ensures dl[..] == FixedLit()
  {
    var n := 0;
    while n <= 143
      invariant n <= 144 && forall i :: 0 <= i < n ==> dl[i] == 8
    {
      dl[n] := 8;
      n := n + 1;
    }
    while n <= 255
      invariant 144 <= n <= 256 && forall i :: 0 <= i < n ==> dl[i] == if i <= 143 then 8 else 9
    {
      dl[n] := 9;
      n := n + 1;
    }
    while n <= 279
      invariant 256 <= n <= 280 && forall i :: 0 <= i < n ==> dl[i] == if i <= 143 then 8 else if i <= 255 then 9 else 7
    {
      dl[n] := 7;
      n := n + 1;
    }
    while n <= 287
      invariant 280 <= n <= 288
      invariant forall i :: 0 <= i < n ==> dl[i] == if i <= 143 then 8 else if i <= 255 then 9 else if i <= 279 then 7 else 8
    {
      dl[n] := 8;
      n := n + 1;
    }
    assert dl[..] == FixedLit();
  }

  /** The fixed literal/length code, by gen_codes. */
  method InitStaticLit(blCount: array<nat>) returns (fc: array<nat>, dl: array<nat>)
    requires blCount.Length == MAX_BITS + 1 && forall b :: 0 <= b <= MAX_BITS ==> blCount[b] == 0
    modifies blCount
    ensures fresh(fc) && fresh(dl) && fc != dl && fc.Length == dl.Length == 288
    ensures dl[..] == FixedLit() && Coded(fc[..], FixedLit())
  {
    hide Complete, Fits, CountsMatch, FixedLit, Coded, CodedUpTo, Count, Kraft;
    fc, dl := new nat[L_CODES + 2](_ => 0), new nat[L_CODES + 2];
    StaticLengths(dl);
    assert dl[..287 + 1] == dl[..];
    FixedLitSums();
    CompleteFits(FixedLit(), MAX_BITS, MAX_BITS);
    blCount[7] := 279 - 255;
    blCount[8] := (143 + 1) + (287 - 279);
    blCount[9] := 255 - 143;
    StaticCounts(blCount[..]);
    ghost var was := fc[..];
    GenCodes(fc, dl, L_CODES + 1, blCount);
    CodedDone(was, fc[..], FixedLit());
  }

  lemma StaticCounts(c: seq<nat>)
    requires |c| == MAX_BITS + 1 && c[7] == 24 && c[8] == 152 && c[9] == 112
    requires forall b :: 0 <= b <= MAX_BITS && b != 7 && b != 8 && b != 9 ==> c[b] == 0
    ensures CountsMatch(c, FixedLit()) && L_CODES == 286 && MAX_BITS == 15
  {
    FixedLitSums();
    hide Count, FixedLit;
  }

  /** The fixed distance code numbers the symbols themselves. */
  lemma FixedDistCodes(d: nat)
    requires d < 32
    ensures Complete(FixedDist(), MAX_BITS) && FixedDist()[d] == 5 && Code(FixedDist(), d) == d && d < Pow2(5)
  {
    RepeatSums(5, 32, MAX_BITS);
    RepeatSums(5, d, MAX_BITS);
    Pow2Values();
    assert FixedDist()[..d] == Repeat(5, d);
    hide Kraft;
    assert Bounded(FixedDist(), MAX_BITS);
    hide Repeat, Count, Pow2;
    assert Start(FixedDist(), 5) == 0;
  }

  method InitStaticDist() returns (fc: array<nat>, dl: array<nat>)
    ensures fresh(fc) && fresh(dl) && fc != dl && fc.Length == dl.Length == DIST_CODES
    ensures (forall n :: 0 <= n < DIST_CODES ==> dl[n] == 5) && Coded(fc[..], FixedDist())
  {
    hide *;
    fc, dl := new nat[DIST_CODES], new nat[DIST_CODES];
    FixedDistSize();
    for n := 0 to DIST_CODES
      invariant forall i :: 0 <= i < n ==> dl[i] == 5 && fc[i] == Reverse(i, 5)
    {
      FixedDistCodes(n);
      dl[n] := 5;
      fc[n] := BiReverse(n, 5);
    }
    FixedDistCoded(fc[..]);
  }

  lemma FixedDistSize()
    ensures DIST_CODES == 30 && |FixedDist()| == 32
  {
  }

  lemma FixedDistCoded(codes: seq<nat>)
    requires |codes| == DIST_CODES && forall i :: 0 <= i < DIST_CODES ==> codes[i] == Reverse(i, 5)
    ensures Coded(codes, FixedDist())
  {
    hide Reverse, Code, Complete, Fits, FixedDist;
    FixedDistCodes(0);
    CompleteFits(FixedDist(), MAX_BITS, MAX_BITS);
    forall n | 0 <= n < |FixedDist()| && n < |codes|
      ensures FixedDist()[n] == 5 && codes[n] == Reverse(Code(FixedDist(), n), 5)
    {
      FixedDistCodes(n);
    }
  }
}
