/** gen_bitlen: code lengths from the finished tree, cut to the limit and repaired. */
module BitLengths {
  import opened Bits
  import opened Canonical
  import opened Sums
  import opened Forests
  import opened Repairs

  /** The constant part of a tree_desc. */
  datatype TreeDesc = TreeDesc(elems: nat, maxLength: nat, extraBase: nat, extraBits: seq<nat>,
                               hasStatic: bool, staticLens: seq<nat>)
  {
    ghost predicate Valid() {
      3 <= elems <= 286 && elems <= Pow2(maxLength) && 1 <= maxLength <= MAX_BITS
      && extraBase <= elems && |extraBits| == elems - extraBase
      && (hasStatic ==> |staticLens| >= elems)
      && (forall n :: 0 <= n < 3 ==> Extra(n) == 0)
    }

    function Extra(n: nat): nat {
      if n >= extraBase && n - extraBase < |extraBits| then extraBits[n - extraBase] else 0
    }

    function StaticLen(n: nat): nat {
      if hasStatic && n < |staticLens| then staticLens[n] else 0
    }
  }

  /** Bits a symbol takes in all its occurrences. */
  ghost function CostAt(fc: seq<nat>, len: seq<nat>, desc: TreeDesc): nat -> int {
    (x: nat) => if x < desc.elems && x < |fc| && x < |len| then fc[x] * (len[x] + desc.Extra(x)) else 0
  }

  ghost function StaticCostAt(fc: seq<nat>, desc: TreeDesc): nat -> int {
    (x: nat) => if desc.hasStatic && x < desc.elems && x < |fc| then fc[x] * (desc.StaticLen(x) + desc.Extra(x)) else 0
  }

  /** The symbols that occur, and a table that is zero for all others. */
  ghost predicate Symbols(leaves: seq<nat>, fc: seq<nat>, table: seq<nat>, elems: nat, maxCode: nat) {
    elems <= |fc| && elems <= |table| && maxCode < elems && Distinct(leaves) && |leaves| <= elems
    && (forall s :: s in leaves ==> s <= maxCode)
    && (forall s: nat :: s < elems ==> (s in leaves <==> fc[s] != 0))
    && (forall s: nat :: s < elems && s !in leaves ==> table[s] == 0)
  }

  // ----- sums over the tree are sums over the symbols

  lemma BuiltSum(full: seq<nat>, dad: seq<nat>, t: Tree, leaves: seq<nat>, elems: nat, f: nat -> int)
    requires Built(full, dad, t, leaves, elems) && forall x: nat :: x >= elems ==> f(x) == 0
    ensures Sum(full, f) == Sum(leaves, f)
  {
    hide Fathered, WellNumbered, Nodes;
    var inner := Range(elems, t.id + 1);
    assert multiset(leaves + inner) == multiset(leaves) + multiset(inner);
    SumPerm(full, leaves + inner, f);
    SumConcat(leaves, inner, f);
    SumZero(inner, f);
  }

  lemma {:induction false} RangeDistinct(a: nat, b: nat)
    requires a <= b
    ensures Distinct(Range(a, b))
  {
  }

  lemma LeavesSum(leaves: seq<nat>, fc: seq<nat>, table: seq<nat>, elems: nat, maxCode: nat, n: nat, f: nat -> int)
    requires Symbols(leaves, fc, table, elems, maxCode) && maxCode < n <= elems
    requires forall s: nat :: s < elems && s !in leaves ==> f(s) == 0
    ensures Sum(leaves, f) == Sum(Range(0, n), f)
  {
    RangeMembers(0, n);
    RangeDistinct(0, n);
    SumSupport(leaves, Range(0, n), f);
  }

  lemma {:induction false} CountIsSum(len: seq<nat>, elems: nat, b: nat, n: nat)
    requires n <= elems <= |len|
    ensures Count(len[..n], b) == Sum(Range(0, n), LenIs(len, b, elems))
    decreases n
  {
    if n > 0 {
      CountIsSum(len, elems, b, n - 1);
      CountSnoc(len, n - 1, b);
      SumSnoc(Range(0, n - 1), n - 1, LenIs(len, b, elems));
    }
  }

  lemma {:induction false} KraftIsSum(len: seq<nat>, elems: nat, L: nat, n: nat)
    requires n <= elems <= |len|
    ensures Kraft(len[..n], L) == Sum(Range(0, n), KraftAt(len, L, elems))
    decreases n
  {
    if n > 0 {
      KraftIsSum(len, elems, L, n - 1);
      assert len[..n][..n - 1] == len[..n - 1];
      SumSnoc(Range(0, n - 1), n - 1, KraftAt(len, L, elems));
    }
  }

  /** Counting lengths over the tree counts them over the symbols. */
  lemma BuiltCount(full: seq<nat>, dad: seq<nat>, t: Tree, leaves: seq<nat>, desc: TreeDesc,
                   fc: seq<nat>, len: seq<nat>, maxCode: nat, b: nat)
    requires Built(full, dad, t, leaves, desc.elems) && Symbols(leaves, fc, len, desc.elems, maxCode) && b > 0
    ensures Count(len[..maxCode + 1], b) == Sum(full, LenIs(len, b, desc.elems))
  {
    hide Built, Count;
    BuiltSum(full, dad, t, leaves, desc.elems, LenIs(len, b, desc.elems));
    LeavesSum(leaves, fc, len, desc.elems, maxCode, maxCode + 1, LenIs(len, b, desc.elems));
    CountIsSum(len, desc.elems, b, maxCode + 1);
  }

  lemma BuiltKraft(full: seq<nat>, dad: seq<nat>, t: Tree, leaves: seq<nat>, desc: TreeDesc,
                   fc: seq<nat>, len: seq<nat>, maxCode: nat)
    requires Built(full, dad, t, leaves, desc.elems) && Symbols(leaves, fc, len, desc.elems, maxCode)
    ensures Kraft(len[..maxCode + 1], desc.maxLength) == Sum(full, KraftAt(len, desc.maxLength, desc.elems))
  {
    hide Built, Kraft, Pow2;
    BuiltSum(full, dad, t, leaves, desc.elems, KraftAt(len, desc.maxLength, desc.elems));
    LeavesSum(leaves, fc, len, desc.elems, maxCode, maxCode + 1, KraftAt(len, desc.maxLength, desc.elems));
    KraftIsSum(len, desc.elems, desc.maxLength, maxCode + 1);
  }

  // ----- the table the first loop computes

  ghost predicate LensUpTo(full: seq<nat>, n: nat, dad: seq<nat>, len: seq<nat>, L: nat) {
    1 <= n <= |full| && |len| == |dad| && full[0] < |len| && len[full[0]] == 0
    && (forall i :: 1 <= i < n ==>
          full[i] < |len| && dad[full[i]] < |len| && len[full[i]] == Min(len[dad[full[i]]] + 1, L))
    && (forall i :: n <= i < |full| ==> full[i] < |len| && len[full[i]] == dad[full[i]])
    && (forall x: nat :: x < |dad| && x !in full ==> len[x] == dad[x])
  }

  /** Fathers stand before their sons. */
  ghost predicate TopDown(full: seq<nat>, dad: seq<nat>) {
    Distinct(full) && (forall i :: 0 <= i < |full| ==> full[i] < |dad|)
    && forall i :: 1 <= i < |full| ==> dad[full[i]] in full[..i]
  }

  lemma FatherEarlier(full: seq<nat>, dad: seq<nat>, i: nat, n: nat)
    requires TopDown(full, dad) && 1 <= i <= n < |full|
    ensures dad[full[i]] < |dad| && dad[full[i]] != full[n]
  {
    var d := dad[full[i]];
    assert d in full[..i];
    var j :| 0 <= j < i && full[..i][j] == d;
    assert full[j] == d;
  }

  /** Node `n` is neither another node nor the father of itself or an earlier one. */
  ghost predicate Fresh(full: seq<nat>, dad: seq<nat>, n: nat)
    requires n < |full|
  {
    full[n] < |dad|
    && (forall i :: 0 <= i < |full| && i != n ==> full[i] != full[n])
    && forall i :: 1 <= i <= n ==> full[i] < |dad| && dad[full[i]] < |dad| && dad[full[i]] != full[n]
  }

  lemma TopDownFresh(full: seq<nat>, dad: seq<nat>, n: nat)
    requires TopDown(full, dad) && n < |full|
    ensures Fresh(full, dad, n)
  {
    forall i | 1 <= i <= n ensures full[i] < |dad| && dad[full[i]] < |dad| && dad[full[i]] != full[n] {
      FatherEarlier(full, dad, i, n);
    }
  }

  lemma LensStep(full: seq<nat>, n: nat, dad: seq<nat>, len: seq<nat>, L: nat)
    requires 1 <= n < |full| && Fresh(full, dad, n) && LensUpTo(full, n, dad, len, L)
    ensures LensUpTo(full, n + 1, dad, len[full[n] := Min(len[dad[full[n]]] + 1, L)], L)
  {
  }

  /** There is exactly one table of cut depths; here it is, for the loop to agree with. */
  lemma {:induction false} MakeLens(full: seq<nat>, n: nat, dad: seq<nat>, L: nat) returns (len: seq<nat>)
    requires TopDown(full, dad) && 1 <= n <= |full|
    ensures LensUpTo(full, n, dad, len, L)
  {
    hide *;
    if n == 1 {
      len := LensBase(full, dad, L);
    } else {
      var prev := MakeLens(full, n - 1, dad, L);
      len := LensNext(full, n - 1, dad, prev, L);
    }
  }

  lemma LensBase(full: seq<nat>, dad: seq<nat>, L: nat) returns (len: seq<nat>)
    requires TopDown(full, dad) && full != []
    ensures LensUpTo(full, 1, dad, len, L)
  {
    TopDownFresh(full, dad, 0);
    hide TopDown;
    len := dad[full[0] := 0];
    assert full[0] in full;
  }

  lemma LensNext(full: seq<nat>, n: nat, dad: seq<nat>, len: seq<nat>, L: nat) returns (len': seq<nat>)
    requires TopDown(full, dad) && 1 <= n < |full| && LensUpTo(full, n, dad, len, L)
    ensures LensUpTo(full, n + 1, dad, len', L)
  {
    TopDownFresh(full, dad, n);
    LensStep(full, n, dad, len, L);
    hide TopDown;
    len' := len[full[n] := Min(len[dad[full[n]]] + 1, L)];
  }

  lemma LensAll(full: seq<nat>, dad: seq<nat>, len: seq<nat>, L: nat)
    requires LensUpTo(full, |full|, dad, len, L)
    ensures LensFrom(full, dad, len, L)
  {
    forall x | x in full[1..]
      ensures x < |len| && x < |dad| && dad[x] < |len| && len[x] == Min(len[dad[x]] + 1, L)
    {
      var i :| 0 <= i < |full| - 1 && full[1..][i] == x;
      assert full[i + 1] == x;
    }
  }

  /** The counts after the first loop. */
  ghost predicate FirstCounts(c: seq<nat>, part: seq<nat>, len: seq<nat>, elems: nat) {
    |c| == MAX_BITS + 1 && forall b :: 0 <= b <= MAX_BITS ==> c[b] == Sum(part, LenIs(len, b, elems))
  }

  lemma FirstCountsStep(c: seq<nat>, part: seq<nat>, len: seq<nat>, elems: nat, n: nat)
    requires FirstCounts(c, part, len, elems) && n < |len| && len[n] <= MAX_BITS
    ensures n < elems ==> FirstCounts(c[len[n] := c[len[n]] + 1], part + [n], len, elems)
    ensures n >= elems ==> FirstCounts(c, part + [n], len, elems)
  {
    forall b: nat | b <= MAX_BITS
      ensures Sum(part + [n], LenIs(len, b, elems)) == Sum(part, LenIs(len, b, elems)) + LenIs(len, b, elems)(n)
    {
      SumSnoc(part, n, LenIs(len, b, elems));
    }
  }

  /** After the first loop the Kraft sum is too large by half the overflow. */
  lemma FirstPassDone(full: seq<nat>, dad: seq<nat>, t: Tree, leaves: seq<nat>, desc: TreeDesc,
                      fc: seq<nat>, len: seq<nat>, maxCode: nat, c: seq<nat>, overflow: int) returns (k: nat)
    requires desc.Valid() && Built(full, dad, t, leaves, desc.elems) && LensFrom(full, dad, len, desc.maxLength)
    requires Symbols(leaves, fc, len, desc.elems, maxCode)
    requires FirstCounts(c, full[1..], len, desc.elems)
    requires overflow == Sum(full[1..], OverflowAt(len, dad, desc.maxLength))
    ensures overflow == 2 * k
    ensures Kraft(len[..maxCode + 1], desc.maxLength) == Pow2(desc.maxLength) + k
    ensures forall b :: 1 <= b <= MAX_BITS ==> c[b] == Count(len[..maxCode + 1], b)
    ensures c[0] == 0
    ensures k > 0 ==> c[desc.maxLength] > k
  {
    var L, elems := desc.maxLength, desc.elems;
    BuiltDepths(full, dad, t, leaves, elems, len, L);
    TreeSums(full, dad, t, leaves, elems, len, L);
    k := Sum(Nodes(t), CappedAt(len, L, elems));
    hide Built, Symbols, Depths, LensFrom, Sum, Nodes, Kraft, Count, Pow2;
    BuiltKraft(full, dad, t, leaves, desc, fc, len, maxCode);
    forall b: nat | b <= MAX_BITS
      ensures c[b] == Sum(full, LenIs(len, b, elems)) && (b > 0 ==> c[b] == Count(len[..maxCode + 1], b))
    {
      WithoutRoot(full, dad, t, leaves, elems, LenIs(len, b, elems));
      if b > 0 {
        BuiltCount(full, dad, t, leaves, desc, fc, len, maxCode, b);
      }
    }
    NoneAtZero(full, dad, t, leaves, elems, len, L);
  }

  lemma WithoutRoot(full: seq<nat>, dad: seq<nat>, t: Tree, leaves: seq<nat>, elems: nat, f: nat -> int)
    requires Built(full, dad, t, leaves, elems) && (forall x: nat :: x >= elems ==> f(x) == 0)
    ensures Sum(full[1..], f) == Sum(full, f)
  {
    hide Fathered, WellNumbered, Nodes;
    assert full[0] == t.id;
  }

  lemma NoneAtZero(full: seq<nat>, dad: seq<nat>, t: Tree, leaves: seq<nat>, elems: nat, len: seq<nat>, L: nat)
    requires Built(full, dad, t, leaves, elems) && LensFrom(full, dad, len, L) && L > 0
    ensures Sum(full, LenIs(len, 0, elems)) == 0
  {
    hide Fathered, WellNumbered, Nodes;
    WithoutRoot(full, dad, t, leaves, elems, LenIs(len, 0, elems));
    SumZero(full[1..], LenIs(len, 0, elems));
  }

  lemma BuiltFacts(full: seq<nat>, dad: seq<nat>, t: Tree, leaves: seq<nat>, elems: nat)
    requires Built(full, dad, t, leaves, elems)
    ensures multiset(full) == multiset(Nodes(t)) && WellNumbered(t, elems) && Fathered(t, dad) && t.Node?
    ensures full != [] && full[0] == t.id
  {
  }

  lemma MinZero(L: nat)
    ensures Min(0, L) == 0
  {
  }

  lemma TreeSums(full: seq<nat>, dad: seq<nat>, t: Tree, leaves: seq<nat>, elems: nat, len: seq<nat>, L: nat)
    requires Built(full, dad, t, leaves, elems) && Depths(t, 0, len, L) && L > 0
    ensures Sum(full, KraftAt(len, L, elems)) == Pow2(L) + Sum(Nodes(t), CappedAt(len, L, elems))
    ensures Sum(full[1..], OverflowAt(len, dad, L)) == 2 * Sum(Nodes(t), CappedAt(len, L, elems))
    ensures Sum(Nodes(t), CappedAt(len, L, elems)) >= 0
    ensures Sum(Nodes(t), CappedAt(len, L, elems)) > 0 ==>
              Sum(full, LenIs(len, L, elems)) > Sum(Nodes(t), CappedAt(len, L, elems))
  {
    hide *;
    BuiltFacts(full, dad, t, leaves, elems);
    MinZero(L);
    SumPerm(full, Nodes(t), KraftAt(len, L, elems));
    SumPerm(full, Nodes(t), OverflowAt(len, dad, L));
    SumPerm(full, Nodes(t), LenIs(len, L, elems));
    SumHead(full, OverflowAt(len, dad, L));
    KraftTree(t, 0, len, L, elems);
    OverflowTree(t, 0, len, dad, L, elems);
    CappedLeaves(t, 0, len, L, elems);
  }

  /** A node of the tree is a symbol exactly when it does not exceed max_code. */
  lemma FullKinds(full: seq<nat>, dad: seq<nat>, t: Tree, leaves: seq<nat>, desc: TreeDesc,
                  fc: seq<nat>, table: seq<nat>, maxCode: nat, n: nat)
    requires Built(full, dad, t, leaves, desc.elems) && Symbols(leaves, fc, table, desc.elems, maxCode) && n in full
    ensures n < desc.elems <==> n <= maxCode
    ensures n < desc.elems ==> n in leaves
  {
    if n < desc.elems {
      SymbolsInFull(full, dad, t, leaves, desc.elems, n);
    }
  }

  lemma SymbolsInFull(full: seq<nat>, dad: seq<nat>, t: Tree, leaves: seq<nat>, elems: nat, n: nat)
    requires Built(full, dad, t, leaves, elems) && n < elems
    ensures n in full <==> n in leaves
  {
    hide Fathered, WellNumbered, Nodes;
    RangeMembers(elems, t.id + 1);
    assert n in full <==> n in multiset(full);
    assert n in leaves <==> n in multiset(leaves);
    assert n !in multiset(Range(elems, t.id + 1));
  }

  lemma BuiltTopDown(full: seq<nat>, dad: seq<nat>, t: Tree, leaves: seq<nat>, elems: nat)
    requires Built(full, dad, t, leaves, elems)
    ensures TopDown(full, dad) && full != []
  {
  }

  /** `len` on the nodes before `i`, the fathers from there on. */
  ghost predicate Mixed(dl: seq<nat>, len: seq<nat>, dad: seq<nat>, full: seq<nat>, i: nat) {
    |dl| == |len| == |dad|
    && (forall j :: 0 <= j < |full| ==> full[j] < |dl| && dl[full[j]] == if j < i then len[full[j]] else dad[full[j]])
    && (forall x: nat :: x < |dl| && x !in full ==> dl[x] == len[x])
  }

  lemma MixedStep(dl: seq<nat>, len: seq<nat>, dad: seq<nat>, full: seq<nat>, i: nat, L: nat)
    requires Mixed(dl, len, dad, full, i) && TopDown(full, dad) && 1 <= i < |full|
    requires LensUpTo(full, |full|, dad, len, L)
    ensures full[i] < |dl| && dl[full[i]] == dad[full[i]] && dad[full[i]] < |dl|
    ensures dl[dad[full[i]]] == len[dad[full[i]]] && len[full[i]] == Min(len[dad[full[i]]] + 1, L)
    ensures Mixed(dl[full[i] := len[full[i]]], len, dad, full, i + 1)
  {
    TopDownFresh(full, dad, i);
    var d := dad[full[i]];
    assert d in full[..i];
    var j :| 0 <= j < i && full[..i][j] == d;
    assert full[j] == d;
    assert full[i] in full;
    hide TopDown;
  }

  lemma MixedStart(dl: seq<nat>, len: seq<nat>, dad: seq<nat>, full: seq<nat>, L: nat)
    requires full != [] && dl == dad && TopDown(full, dad) && LensUpTo(full, |full|, dad, len, L)
    ensures full[0] < |dl| && Mixed(dl[full[0] := 0], len, dad, full, 1)
  {
    TopDownFresh(full, dad, 0);
    assert full[0] in full;
    hide TopDown;
  }

  lemma MixedDone(dl: seq<nat>, len: seq<nat>, dad: seq<nat>, full: seq<nat>)
    requires Mixed(dl, len, dad, full, |full|)
    ensures dl == len
  {
    forall x | 0 <= x < |dl| ensures dl[x] == len[x] {
      if x in full {
        var j :| 0 <= j < |full| && full[j] == x;
      }
    }
  }

  // ----- after the repair: handing the lengths out again

  ghost function LeafAt(elems: nat): nat -> int {
    (x: nat) => if x < elems then 1 else 0
  }

  /** Lengths above `bits` are handed out, `n` symbols of length `bits` and all
      of the shorter ones are still to come, in `full[..i]`. */
  ghost predicate HandedOut(full: seq<nat>, i: nat, dl: seq<nat>, elems: nat, c: seq<nat>, L: nat, bits: nat, n: nat) {
    i <= |full| && 1 <= bits <= L < |c| && n <= c[bits]
    && (forall b :: bits < b <= L ==> Sum(full[i..], LenIs(dl, b, elems)) == c[b])
    && Sum(full[i..], LenIs(dl, bits, elems)) == c[bits] - n
    && (forall b: nat :: b < bits ==> Sum(full[i..], LenIs(dl, b, elems)) == 0)
    && (forall x :: x in full[i..] && x < elems ==> x < |dl| && 1 <= dl[x] <= L)
    && Sum(full[..i], LeafAt(elems)) == n + Total(c, bits - 1)
  }

  lemma HandNext(full: seq<nat>, i: nat, dl: seq<nat>, elems: nat, c: seq<nat>, L: nat, bits: nat)
    requires HandedOut(full, i, dl, elems, c, L, bits, 0) && bits > 1
    ensures HandedOut(full, i, dl, elems, c, L, bits - 1, c[bits - 1])
  {
  }

  lemma HandStart(full: seq<nat>, dl: seq<nat>, elems: nat, c: seq<nat>, L: nat)
    requires 1 <= L < |c| && Sum(full, LeafAt(elems)) == Total(c, L)
    ensures HandedOut(full, |full|, dl, elems, c, L, L, c[L])
  {
    var rest := full[|full|..];
    assert rest == [];
    assert full[..|full|] == full;
    forall b: nat ensures Sum(rest, LenIs(dl, b, elems)) == 0 {
    }
    assert Total(c, L) == Total(c, L - 1) + c[L];
  }

  lemma PrefixSum(full: seq<nat>, i: nat, f: nat -> int)
    requires 1 <= i <= |full|
    ensures Sum(full[..i], f) == Sum(full[..i - 1], f) + f(full[i - 1])
    ensures Sum(full[i - 1..], f) == f(full[i - 1]) + Sum(full[i..], f)
  {
    assert full[..i] == full[..i - 1] + [full[i - 1]];
    SumSnoc(full[..i - 1], full[i - 1], f);
    assert full[i - 1..] == [full[i - 1]] + full[i..];
    assert full[i - 1..][1..] == full[i..];
  }

  lemma HandSkip(full: seq<nat>, i: nat, dl: seq<nat>, elems: nat, c: seq<nat>, L: nat, bits: nat, n: nat)
    requires HandedOut(full, i, dl, elems, c, L, bits, n) && 1 <= i && full[i - 1] >= elems
    ensures HandedOut(full, i - 1, dl, elems, c, L, bits, n)
  {
    hide Sum;
    PrefixSum(full, i, LeafAt(elems));
    forall b: nat ensures Sum(full[i - 1..], LenIs(dl, b, elems)) == Sum(full[i..], LenIs(dl, b, elems)) {
      PrefixSum(full, i, LenIs(dl, b, elems));
    }
    assert full[i - 1..] == [full[i - 1]] + full[i..];
  }

  lemma HandGive(full: seq<nat>, i: nat, dl: seq<nat>, elems: nat, c: seq<nat>, L: nat, bits: nat, n: nat)
    requires HandedOut(full, i, dl, elems, c, L, bits, n) && 1 <= i && full[i - 1] < elems && full[i - 1] < |dl|
    requires n > 0 && Distinct(full)
    ensures HandedOut(full, i - 1, dl[full[i - 1] := bits], elems, c, L, bits, n - 1)
  {
    hide Sum;
    var m := full[i - 1];
    var dl' := dl[m := bits];
    assert m !in full[i..];
    PrefixSum(full, i, LeafAt(elems));
    forall b: nat
      ensures Sum(full[i - 1..], LenIs(dl', b, elems)) == Sum(full[i..], LenIs(dl, b, elems)) + (if b == bits then 1 else 0)
    {
      PrefixSum(full, i, LenIs(dl', b, elems));
      SumCong(full[i..], LenIs(dl, b, elems), LenIs(dl', b, elems));
    }
    assert full[i - 1..] == [m] + full[i..];
  }

  lemma HandLeft(full: seq<nat>, i: nat, dl: seq<nat>, elems: nat, c: seq<nat>, L: nat, bits: nat, n: nat)
    requires HandedOut(full, i, dl, elems, c, L, bits, n) && n > 0
    ensures i > 0
  {
    assert full[..0] == [];
  }

  lemma HandDone(full: seq<nat>, i: nat, dl: seq<nat>, elems: nat, c: seq<nat>, L: nat)
    requires HandedOut(full, i, dl, elems, c, L, 1, 0)
    ensures forall b :: 1 <= b <= L ==> Sum(full, LenIs(dl, b, elems)) == c[b]
    ensures forall x :: x in full && x < elems ==> x < |dl| && 1 <= dl[x] <= L
  {
    assert Total(c, 0) == 0;
    SumNonNegative(full[..i], LeafAt(elems));
    assert forall x :: x in full[..i] ==> x >= elems;
    forall x | x in full && x < elems ensures x < |dl| && 1 <= dl[x] <= L {
      InSuffix(full, i, x);
    }
    forall b: nat ensures Sum(full, LenIs(dl, b, elems)) == Sum(full[i..], LenIs(dl, b, elems)) {
      assert full == full[..i] + full[i..];
      SumConcat(full[..i], full[i..], LenIs(dl, b, elems));
      SumZero(full[..i], LenIs(dl, b, elems));
    }
  }

  // ----- the result

  /** Every occurring symbol has a length within the limit, no other symbol has
      one, the code is complete and bl_count counts its lengths. */
  ghost predicate LensReady(leaves: seq<nat>, fc: seq<nat>, dl: seq<nat>, desc: TreeDesc, maxCode: nat, c: seq<nat>) {
    Symbols(leaves, fc, dl, desc.elems, maxCode)
    && (forall s :: s in leaves ==> 1 <= dl[s] <= desc.maxLength)
    && Complete(dl[..maxCode + 1], desc.maxLength)
    && CountsMatch(c, dl[..maxCode + 1])
  }

  lemma {:induction false} KraftOfCounts(c: seq<nat>, lens: seq<nat>, L: nat, b: nat)
    requires b <= L < |c| && forall j :: 1 <= j <= b ==> c[j] == Count(lens, j)
    ensures KraftOf(c, L, b) == KraftUpTo(lens, L, b)
  {
    if b > 0 {
      KraftOfCounts(c, lens, L, b - 1);
    }
  }

  ghost function LenBetween(len: seq<nat>, b: nat, elems: nat): nat -> int {
    (x: nat) => if x < elems && x < |len| && 1 <= len[x] <= b then 1 else 0
  }

  lemma {:induction false} TotalIs(c: seq<nat>, full: seq<nat>, len: seq<nat>, elems: nat, b: nat)
    requires b < |c| && forall j :: 1 <= j <= b ==> c[j] == Sum(full, LenIs(len, j, elems))
    ensures Total(c, b) == Sum(full, LenBetween(len, b, elems))
  {
    if b == 0 {
      SumZero(full, LenBetween(len, b, elems));
    } else {
      TotalIs(c, full, len, elems, b - 1);
      SumPlus(full, LenBetween(len, b - 1, elems), LenIs(len, b, elems), LenBetween(len, b, elems));
    }
  }

  lemma {:induction false} SumOfOnes(s: seq<nat>, f: nat -> int)
    requires forall x :: x in s ==> f(x) == 1
    ensures Sum(s, f) == |s|
  {
    if s != [] {
      SumOfOnes(s[1..], f);
    }
  }

  lemma {:induction false} CountNone(lens: seq<nat>, L: nat, b: nat)
    requires Bounded(lens, L) && b > L
    ensures Count(lens, b) == 0
  {
    if lens != [] {
      CountNone(lens[..|lens| - 1], L, b);
    }
  }

  /** The cut depths of the symbols are within the limit. */
  lemma CutDepthsInRange(full: seq<nat>, dad: seq<nat>, t: Tree, leaves: seq<nat>, elems: nat, len: seq<nat>, L: nat)
    requires Built(full, dad, t, leaves, elems) && LensFrom(full, dad, len, L) && L > 0
    ensures forall s :: s in leaves ==> s < |len| && 1 <= len[s] <= L
  {
    hide Fathered, WellNumbered, Nodes;
    forall s | s in leaves ensures s < |len| && 1 <= len[s] <= L {
      SymbolsInFull(full, dad, t, leaves, elems, s);
      var i :| 0 <= i < |full| && full[i] == s;
      assert i > 0;
      assert full[1..][i - 1] == s;
    }
  }

  /** Once the counts are right, the code is complete. */
  lemma CompleteFromCounts(lens: seq<nat>, c: seq<nat>, L: nat)
    requires Bounded(lens, L) && Excess(c, L, 0) && forall b :: 1 <= b <= L ==> c[b] == Count(lens, b)
    ensures Complete(lens, L) && CountsMatch(c, lens)
  {
    hide Kraft, Count, KraftOf, KraftUpTo, Total, Pow2;
    KraftByLength(lens, L);
    KraftOfCounts(c, lens, L, L);
    forall b | L < b <= MAX_BITS ensures c[b] == Count(lens, b) {
      CountNone(lens, L, b);
    }
  }

  lemma BoundedPrefix(leaves: seq<nat>, fc: seq<nat>, dl: seq<nat>, elems: nat, maxCode: nat, L: nat)
    requires Symbols(leaves, fc, dl, elems, maxCode) && forall s :: s in leaves ==> dl[s] <= L
    ensures Bounded(dl[..maxCode + 1], L)
  {
    forall i | 0 <= i <= maxCode ensures dl[i] <= L {
      if i !in leaves {
        assert dl[i] == 0;
      }
    }
  }

  /** The counts of the first loop are `k` units over, and repairable. */
  lemma FirstPassExcess(full: seq<nat>, dad: seq<nat>, t: Tree, leaves: seq<nat>, desc: TreeDesc,
                        fc: seq<nat>, len: seq<nat>, maxCode: nat, c: seq<nat>, k: nat)
    requires desc.Valid() && Built(full, dad, t, leaves, desc.elems) && LensFrom(full, dad, len, desc.maxLength)
    requires Symbols(leaves, fc, len, desc.elems, maxCode) && |c| == MAX_BITS + 1 && c[0] == 0
    requires Kraft(len[..maxCode + 1], desc.maxLength) == Pow2(desc.maxLength) + k
    requires forall b :: 1 <= b <= MAX_BITS ==> c[b] == Count(len[..maxCode + 1], b)
    requires k > 0 ==> c[desc.maxLength] > k
    ensures Excess(c, desc.maxLength, k)
    ensures Total(c, desc.maxLength) == Sum(full, LeafAt(desc.elems)) == |leaves|
    ensures Bounded(len[..maxCode + 1], desc.maxLength)
  {
    var L, lens := desc.maxLength, len[..maxCode + 1];
    CutDepthsInRange(full, dad, t, leaves, desc.elems, len, L);
    BoundedPrefix(leaves, fc, len, desc.elems, maxCode, L);
    hide LensFrom, Built, Kraft, Count, KraftOf, Total, Pow2, KraftUpTo, Sum;
    KraftByLength(lens, L);
    KraftOfCounts(c, lens, L, L);
    forall b | L < b <= MAX_BITS ensures c[b] == 0 {
      CountNone(lens, L, b);
    }
    forall b | 1 <= b <= L ensures c[b] == Sum(full, LenIs(len, b, desc.elems)) {
      BuiltCount(full, dad, t, leaves, desc, fc, len, maxCode, b);
    }
    TotalIs(c, full, len, desc.elems, L);
    BuiltSum(full, dad, t, leaves, desc.elems, LenBetween(len, L, desc.elems));
    BuiltSum(full, dad, t, leaves, desc.elems, LeafAt(desc.elems));
    SumOfOnes(leaves, LenBetween(len, L, desc.elems));
    SumOfOnes(leaves, LeafAt(desc.elems));
  }

  /** The part of the table gen_bitlen must not touch keeps the symbols' zeros. */
  lemma SymbolsKept(leaves: seq<nat>, fc: seq<nat>, dad: seq<nat>, len: seq<nat>, desc: TreeDesc, maxCode: nat,
                    full: seq<nat>, t: Tree)
    requires Built(full, dad, t, leaves, desc.elems) && Symbols(leaves, fc, dad, desc.elems, maxCode)
    requires |len| == |dad| && forall x: nat :: x < |dad| && x !in full ==> len[x] == dad[x]
    ensures Symbols(leaves, fc, len, desc.elems, maxCode)
  {
    forall s: nat | s < desc.elems && s !in leaves ensures len[s] == 0 {
      SymbolsInFull(full, dad, t, leaves, desc.elems, s);
    }
  }

  // ----- the methods

  class Counters {
    var optLen: Word      // opt_len
    var staticLen: Word   // static_len

    constructor ()
      ensures optLen == 0 && staticLen == 0
    {
      optLen, staticLen := 0, 0;
    }

    /** One symbol's share of the block lengths. */
    method AddCost(f: nat, bits: nat, n: nat, desc: TreeDesc)
      modifies this
      ensures optLen == U32(old(optLen) + f * (bits + desc.Extra(n)))
      ensures staticLen == if desc.hasStatic then U32(old(staticLen) + f * (desc.StaticLen(n) + desc.Extra(n)))
                           else old(staticLen)
    {
      var xbits := desc.Extra(n);
      optLen := U32(optLen + f * (bits + xbits));
      if desc.hasStatic {
        staticLen := U32(staticLen + f * (desc.StaticLen(n) + xbits));
      }
    }
  }

  /** What the counters should hold after the nodes in `part`. */
  ghost predicate Charged(opt: Word, stat: Word, opt0: Word, stat0: Word, part: seq<nat>, fc: seq<nat>, len: seq<nat>, desc: TreeDesc) {
    opt == U32(opt0 + Sum(part, CostAt(fc, len, desc)))
    && stat == U32(stat0 + Sum(part, StaticCostAt(fc, desc)))
  }

  lemma CostsOf(n: nat, fc: seq<nat>, len: seq<nat>, desc: TreeDesc)
    requires n < |fc| && n < |len|
    ensures CostAt(fc, len, desc)(n) == if n < desc.elems then fc[n] * (len[n] + desc.Extra(n)) else 0
    ensures StaticCostAt(fc, desc)(n)
         == if n < desc.elems && desc.hasStatic then fc[n] * (desc.StaticLen(n) + desc.Extra(n)) else 0
  {
    hide TreeDesc.Extra, TreeDesc.StaticLen;
  }

  lemma ChargeStep(opt: Word, stat: Word, opt0: Word, stat0: Word, part: seq<nat>, n: nat, fc: seq<nat>, len: seq<nat>,
                   desc: TreeDesc, opt': Word, stat': Word)
    requires Charged(opt, stat, opt0, stat0, part, fc, len, desc)
    requires n < |fc| && n < |len|
    requires n < desc.elems ==> opt' == U32(opt + fc[n] * (len[n] + desc.Extra(n)))
    requires n < desc.elems && desc.hasStatic ==> stat' == U32(stat + fc[n] * (desc.StaticLen(n) + desc.Extra(n)))
    requires n < desc.elems && !desc.hasStatic ==> stat' == stat
    requires n >= desc.elems ==> opt' == opt && stat' == stat
    ensures Charged(opt', stat', opt0, stat0, part + [n], fc, len, desc)
  {
    var f, g := CostAt(fc, len, desc), StaticCostAt(fc, desc);
    CostsOf(n, fc, len, desc);
    hide *;
    SumSnoc(part, n, f);
    SumSnoc(part, n, g);
    U32Add(opt0 + Sum(part, f), f(n));
    U32Add(stat0 + Sum(part, g), g(n));
    ChargedIs(opt, stat, opt0, stat0, part, fc, len, desc);
    ChargedIs(opt', stat', opt0, stat0, part + [n], fc, len, desc);
  }

  lemma ChargedIs(opt: Word, stat: Word, opt0: Word, stat0: Word, part: seq<nat>, fc: seq<nat>, len: seq<nat>, desc: TreeDesc)
    ensures Charged(opt, stat, opt0, stat0, part, fc, len, desc)
       <==> opt == U32(opt0 + Sum(part, CostAt(fc, len, desc))) && stat == U32(stat0 + Sum(part, StaticCostAt(fc, desc)))
  {
  }

  /** The first loop with the nodes before `i` done. */
  ghost predicate PassState(dl: seq<nat>, c: seq<nat>, overflow: nat, opt: Word, stat: Word, opt0: Word, stat0: Word,
                            full: seq<nat>, i: nat, len: seq<nat>, dad: seq<nat>, fc: seq<nat>, desc: TreeDesc)
  {
    1 <= i <= |full|
    && Mixed(dl, len, dad, full, i)
    && FirstCounts(c, full[1..i], len, desc.elems)
    && overflow == Sum(full[1..i], OverflowAt(len, dad, desc.maxLength))
    && Charged(opt, stat, opt0, stat0, full[1..i], fc, len, desc)
  }

  /** What doing node `n` may change. */
  ghost predicate PassNode(n: nat, bits: nat, dl: seq<nat>, c: seq<nat>, overflow: nat, opt: Word, stat: Word,
                           dl': seq<nat>, c': seq<nat>, overflow': nat, opt': Word, stat': Word,
                           fc: seq<nat>, desc: TreeDesc)
  {
    n < |dl| && dl[n] < |dl| && n < |fc|
    && bits == Min(dl[dl[n]] + 1, desc.maxLength) && bits < |c|
    && dl' == dl[n := bits]
    && overflow' == overflow + (if dl[dl[n]] + 1 > desc.maxLength then 1 else 0)
    && c' == (if n < desc.elems then c[bits := c[bits] + 1] else c)
    && opt' == (if n < desc.elems then U32(opt + fc[n] * (bits + desc.Extra(n))) else opt)
    && stat' == (if n < desc.elems && desc.hasStatic then U32(stat + fc[n] * (desc.StaticLen(n) + desc.Extra(n))) else stat)
  }

  lemma PassStep(dl: seq<nat>, c: seq<nat>, overflow: nat, opt: Word, stat: Word, opt0: Word, stat0: Word,
                 full: seq<nat>, i: nat, len: seq<nat>, dad: seq<nat>, fc: seq<nat>, desc: TreeDesc,
                 bits: nat, dl': seq<nat>, c': seq<nat>, overflow': nat, opt': Word, stat': Word)
    requires PassState(dl, c, overflow, opt, stat, opt0, stat0, full, i, len, dad, fc, desc) && i < |full|
    requires PassNode(full[i], bits, dl, c, overflow, opt, stat, dl', c', overflow', opt', stat', fc, desc)
    requires TopDown(full, dad) && LensUpTo(full, |full|, dad, len, desc.maxLength) && desc.maxLength <= MAX_BITS
    ensures PassState(dl', c', overflow', opt', stat', opt0, stat0, full, i + 1, len, dad, fc, desc)
  {
    hide TopDown, LensUpTo, Mixed, FirstCounts, Charged, Sum, OverflowAt, U32, Min, TreeDesc.Extra, TreeDesc.StaticLen;
    var n, part := full[i], full[1..i];
    PartMore(full, i);
    MixedStep(dl, len, dad, full, i, desc.maxLength);
    MixedSize(dl, len, dad, full, i);
    LenBound(len, n, dad, desc.maxLength);
    FirstCountsStep(c, part, len, desc.elems, n);
    SumSnoc(part, n, OverflowAt(len, dad, desc.maxLength));
    ChargeStep(opt, stat, opt0, stat0, part, n, fc, len, desc, opt', stat');
  }

  lemma PartMore(full: seq<nat>, i: nat)
    requires 1 <= i < |full|
    ensures full[1..i + 1] == full[1..i] + [full[i]]
  {
  }

  lemma MixedSize(dl: seq<nat>, len: seq<nat>, dad: seq<nat>, full: seq<nat>, i: nat)
    requires Mixed(dl, len, dad, full, i)
    ensures |dl| == |len| == |dad|
  {
  }

  lemma LenBound(len: seq<nat>, n: nat, dad: seq<nat>, L: nat)
    requires n < |len| && n < |dad| && dad[n] < |len| && len[n] == Min(len[dad[n]] + 1, L)
    ensures OverflowAt(len, dad, L)(n) == if len[dad[n]] + 1 > L then 1 else 0
    ensures len[n] <= L
  {
  }

  /** The tables the first loop walks over, the tree in them, and its depths. */
  ghost predicate PassTables(full: seq<nat>, dad: seq<nat>, t: Tree, leaves: seq<nat>, fc: seq<nat>, desc: TreeDesc,
                             maxCode: nat, len: seq<nat>)
  {
    desc.Valid() && |fc| == |dad| && TopDown(full, dad) && full != []
    && Built(full, dad, t, leaves, desc.elems)
    && Symbols(leaves, fc, dad, desc.elems, maxCode)
    && LensUpTo(full, |full|, dad, len, desc.maxLength)
  }

  lemma NodeFacts(full: seq<nat>, dad: seq<nat>, t: Tree, leaves: seq<nat>, fc: seq<nat>, desc: TreeDesc,
                  maxCode: nat, len: seq<nat>, i: nat, dl: seq<nat>)
    requires PassTables(full, dad, t, leaves, fc, desc, maxCode, len) && 1 <= i < |full|
    requires Mixed(dl, len, dad, full, i)
    ensures full[i] < |dl| == |fc| && dl[full[i]] < |dl| && (full[i] < desc.elems <==> full[i] <= maxCode)
    ensures Min(dl[dl[full[i]]] + 1, desc.maxLength) <= desc.maxLength <= MAX_BITS
  {
    hide Built, TopDown, LensUpTo, Symbols, Mixed;
    MixedStep(dl, len, dad, full, i, desc.maxLength);
    MixedSize(dl, len, dad, full, i);
    FullKinds(full, dad, t, leaves, desc, fc, dad, maxCode, full[i]);
  }

  lemma PassStart(dl: seq<nat>, c: seq<nat>, opt: Word, stat: Word, full: seq<nat>, t: Tree, leaves: seq<nat>, fc: seq<nat>,
                  desc: TreeDesc, maxCode: nat, len: seq<nat>)
    requires PassTables(full, dl, t, leaves, fc, desc, maxCode, len)
    requires |c| == MAX_BITS + 1 && forall b :: 0 <= b <= MAX_BITS ==> c[b] == 0
    ensures full[0] < |dl|
    ensures PassState(dl[full[0] := 0], c, 0, opt, stat, opt, stat, full, 1, len, dl, fc, desc)
  {
    hide Built, TopDown, LensUpTo, Symbols, Mixed;
    MixedStart(dl, len, dl, full, desc.maxLength);
    assert full[1..1] == [];
  }

  lemma PassDone(dl: seq<nat>, c: seq<nat>, overflow: nat, opt: Word, stat: Word, opt0: Word, stat0: Word,
                 full: seq<nat>, len: seq<nat>, dad: seq<nat>, fc: seq<nat>, desc: TreeDesc)
    requires PassState(dl, c, overflow, opt, stat, opt0, stat0, full, |full|, len, dad, fc, desc)
    ensures dl == len && FirstCounts(c, full[1..], len, desc.elems)
    ensures overflow == Sum(full[1..], OverflowAt(len, dad, desc.maxLength))
    ensures Charged(opt, stat, opt0, stat0, full[1..], fc, len, desc)
  {
    hide FirstCounts, Charged, Sum;
    MixedDone(dl, len, dad, full);
    assert full[1..|full|] == full[1..];
  }

  /** The body of the first loop. */
  method DoNode(n: nat, fc: array<nat>, dl: array<nat>, blCount: array<nat>, counters: Counters, desc: TreeDesc,
                maxCode: nat, overflow0: nat)
    returns (bits: nat, overflow: nat)
    requires dl != fc && dl != blCount && blCount != fc && n < dl.Length == fc.Length && dl[n] < dl.Length
    requires desc.maxLength < blCount.Length && (n < desc.elems <==> n <= maxCode)
    modifies dl, blCount, counters
    ensures PassNode(n, bits, old(dl[..]), old(blCount[..]), overflow0, old(counters.optLen), old(counters.staticLen),
                     dl[..], blCount[..], overflow, counters.optLen, counters.staticLen, fc[..], desc)
  {
    overflow := overflow0;
    bits := dl[dl[n]] + 1;
    if bits > desc.maxLength {
      bits := desc.maxLength;
      overflow := overflow + 1;
    }
    dl[n] := bits;
    if n > maxCode {
      return;  // not a leaf node
    }
    blCount[bits] := blCount[bits] + 1;
    counters.AddCost(fc[n], bits, n, desc);
  }

  /** One round of the first loop. */
  method PassRound(heap: array<nat>, h: nat, fc: array<nat>, dl: array<nat>, blCount: array<nat>, counters: Counters,
                   desc: TreeDesc, maxCode: nat, overflow0: nat, ghost full: seq<nat>, ghost i: nat, ghost dad: seq<nat>,
                   ghost t: Tree, ghost leaves: seq<nat>, ghost len: seq<nat>, ghost opt0: Word, ghost stat0: Word)
    returns (overflow: nat)
    requires dl != fc && dl != blCount && blCount != fc
    requires h < heap.Length && 1 <= i < |full| && heap[h] == full[i] && blCount.Length == MAX_BITS + 1
    requires PassTables(full, dad, t, leaves, fc[..], desc, maxCode, len)
    requires PassState(dl[..], blCount[..], overflow0, counters.optLen, counters.staticLen, opt0, stat0,
                       full, i, len, dad, fc[..], desc)
    modifies dl, blCount, counters
    ensures PassState(dl[..], blCount[..], overflow, counters.optLen, counters.staticLen, opt0, stat0,
                      full, i + 1, len, dad, fc[..], desc)
  {
    hide *;
    var n := heap[h];
    ghost var dls, c, opt, stat := dl[..], blCount[..], counters.optLen, counters.staticLen;
    StateMixed(dls, c, overflow0, opt, stat, opt0, stat0, full, i, len, dad, fc[..], desc);
    NodeFacts(full, dad, t, leaves, fc[..], desc, maxCode, len, i, dls);
    TableFacts(full, dad, t, leaves, fc[..], desc, maxCode, len);
    var bits;
    bits, overflow := DoNode(n, fc, dl, blCount, counters, desc, maxCode, overflow0);
    PassStep(dls, c, overflow0, opt, stat, opt0, stat0, full, i, len, dad, fc[..], desc,
             bits, dl[..], blCount[..], overflow, counters.optLen, counters.staticLen);
  }

  /** gen_bitlen's first loop: depths from the root down, cut at the limit. */
  method FirstPass(heap: array<nat>, heapMax: nat, fc: array<nat>, dl: array<nat>, blCount: array<nat>, counters: Counters,
                   desc: TreeDesc, maxCode: nat, ghost full: seq<nat>, ghost t: Tree, ghost leaves: seq<nat>, ghost len: seq<nat>)
    returns (overflow: nat)
    requires dl != heap && dl != fc && dl != blCount && blCount != heap && blCount != fc
    requires heapMax < heap.Length && full == heap[heapMax..]
    requires PassTables(full, dl[..], t, leaves, fc[..], desc, maxCode, len)
    requires blCount.Length == MAX_BITS + 1 && forall b :: 0 <= b <= MAX_BITS ==> blCount[b] == 0
    modifies dl, blCount, counters
    ensures dl[..] == len
    ensures FirstCounts(blCount[..], full[1..], len, desc.elems)
    ensures overflow == Sum(full[1..], OverflowAt(len, old(dl[..]), desc.maxLength))
    ensures Charged(counters.optLen, counters.staticLen, old(counters.optLen), old(counters.staticLen),
                    full[1..], fc[..], len, desc)
  {
    hide *;
    ghost var dad, fcs := dl[..], fc[..];
    ghost var opt0, stat0 := counters.optLen, counters.staticLen;
    PassStart(dad, blCount[..], opt0, stat0, full, t, leaves, fcs, desc, maxCode, len);
    dl[heap[heapMax]] := 0;
    overflow := 0;
    assert dl[..] == dad[full[0] := 0];
    for h := heapMax + 1 to heap.Length
      invariant heap[..] == old(heap[..]) && fc[..] == fcs
      invariant PassState(dl[..], blCount[..], overflow, counters.optLen, counters.staticLen, opt0, stat0,
                          full, h - heapMax, len, dad, fcs, desc)
    {
      overflow := PassRound(heap, h, fc, dl, blCount, counters, desc, maxCode, overflow, full, h - heapMax, dad, t, leaves,
                            len, opt0, stat0);
    }
    PassDone(dl[..], blCount[..], overflow, counters.optLen, counters.staticLen, opt0, stat0, full, len, dad, fcs, desc);
  }

  lemma StateMixed(dl: seq<nat>, c: seq<nat>, overflow: nat, opt: Word, stat: Word, opt0: Word, stat0: Word,
                   full: seq<nat>, i: nat, len: seq<nat>, dad: seq<nat>, fc: seq<nat>, desc: TreeDesc)
    requires PassState(dl, c, overflow, opt, stat, opt0, stat0, full, i, len, dad, fc, desc)
    ensures Mixed(dl, len, dad, full, i) && 1 <= i <= |full|
  {
  }

  lemma TableFacts(full: seq<nat>, dad: seq<nat>, t: Tree, leaves: seq<nat>, fc: seq<nat>, desc: TreeDesc,
                   maxCode: nat, len: seq<nat>)
    requires PassTables(full, dad, t, leaves, fc, desc, maxCode, len)
    ensures TopDown(full, dad) && LensUpTo(full, |full|, dad, len, desc.maxLength) && desc.maxLength <= MAX_BITS
  {
  }

  // ----- the second half of gen_bitlen

  /** Handing out, with the symbols in `full[..i]` to come; opt_len follows the changes. */
  ghost predicate HandState(full: seq<nat>, i: nat, dl: seq<nat>, c: seq<nat>, bits: nat, n: nat, opt: Word, opt1: Word,
                            fc: seq<nat>, len: seq<nat>, desc: TreeDesc)
  {
    HandedOut(full, i, dl, desc.elems, c, desc.maxLength, bits, n)
    && |dl| == |len| && (forall x: nat :: x < |dl| && x !in full ==> dl[x] == len[x])
    && opt == U32(opt1 + Sum(full, CostAt(fc, dl, desc)) - Sum(full, CostAt(fc, len, desc)))
  }

  lemma CostOne(dl: seq<nat>, m: nat, bits: nat, fc: seq<nat>, desc: TreeDesc)
    requires m < desc.elems && m < |fc| && m < |dl|
    ensures forall x: nat :: x != m ==> CostAt(fc, dl[m := bits], desc)(x) == CostAt(fc, dl, desc)(x)
    ensures CostAt(fc, dl[m := bits], desc)(m) == CostAt(fc, dl, desc)(m) + (bits - dl[m]) * fc[m]
  {
    hide TreeDesc.Extra;
    Reprice(fc[m], bits, dl[m], desc.Extra(m));
  }

  lemma Reprice(x: nat, a: nat, b: nat, e: nat)
    ensures x * (a + e) == x * (b + e) + (a - b) * x
  {
  }

  lemma CostChange(full: seq<nat>, i: nat, dl: seq<nat>, bits: nat, fc: seq<nat>, desc: TreeDesc)
    requires Distinct(full) && i < |full| && full[i] < desc.elems && full[i] < |fc| && full[i] < |dl|
    ensures Sum(full, CostAt(fc, dl[full[i] := bits], desc))
         == Sum(full, CostAt(fc, dl, desc)) + (bits - dl[full[i]]) * fc[full[i]]
  {
    var m := full[i];
    var f, g := CostAt(fc, dl, desc), CostAt(fc, dl[m := bits], desc);
    CostOne(dl, m, bits, fc, desc);
    hide *;
    SumUpdate(full, i, f, g);
  }

  lemma HandStateGive(full: seq<nat>, i: nat, dl: seq<nat>, c: seq<nat>, bits: nat, n: nat, opt: Word, opt1: Word,
                      fc: seq<nat>, len: seq<nat>, desc: TreeDesc)
    requires HandState(full, i, dl, c, bits, n, opt, opt1, fc, len, desc) && Distinct(full) && 1 <= i && n > 0
    requires full[i - 1] < desc.elems && full[i - 1] < |dl| && full[i - 1] < |fc|
    ensures HandState(full, i - 1, dl[full[i - 1] := bits], c, bits, n - 1,
                      U32(opt + (bits - dl[full[i - 1]]) * fc[full[i - 1]]), opt1, fc, len, desc)
  {
    hide HandedOut, Sum;
    HandGive(full, i, dl, desc.elems, c, desc.maxLength, bits, n);
    HandedSize(full, i, dl, desc.elems, c, desc.maxLength, bits, n);
    CostChange(full, i - 1, dl, bits, fc, desc);
    assert full[i - 1] in full;
    hide CostAt;
    U32Add(opt1 + Sum(full, CostAt(fc, dl, desc)) - Sum(full, CostAt(fc, len, desc)),
           (bits - dl[full[i - 1]]) * fc[full[i - 1]]);
  }

  lemma HandStateSkip(full: seq<nat>, i: nat, dl: seq<nat>, c: seq<nat>, bits: nat, n: nat, opt: Word, opt1: Word,
                      fc: seq<nat>, len: seq<nat>, desc: TreeDesc)
    requires HandState(full, i, dl, c, bits, n, opt, opt1, fc, len, desc) && 1 <= i <= |full| && full[i - 1] >= desc.elems
    ensures HandState(full, i - 1, dl, c, bits, n, opt, opt1, fc, len, desc)
  {
    hide HandedOut, Sum;
    HandSkip(full, i, dl, desc.elems, c, desc.maxLength, bits, n);
  }

  lemma HandStateNext(full: seq<nat>, i: nat, dl: seq<nat>, c: seq<nat>, bits: nat, opt: Word, opt1: Word,
                      fc: seq<nat>, len: seq<nat>, desc: TreeDesc)
    requires HandState(full, i, dl, c, bits, 0, opt, opt1, fc, len, desc) && bits > 1
    ensures bits - 1 < |c| && HandState(full, i, dl, c, bits - 1, c[bits - 1], opt, opt1, fc, len, desc)
  {
    hide Sum;
    HandNext(full, i, dl, desc.elems, c, desc.maxLength, bits);
  }

  lemma HandedSize(full: seq<nat>, i: nat, dl: seq<nat>, elems: nat, c: seq<nat>, L: nat, bits: nat, n: nat)
    requires HandedOut(full, i, dl, elems, c, L, bits, n)
    ensures i <= |full| && 1 <= bits <= L < |c|
  {
  }

  lemma HandStateFacts(full: seq<nat>, i: nat, dl: seq<nat>, c: seq<nat>, bits: nat, n: nat, opt: Word, opt1: Word,
                       fc: seq<nat>, len: seq<nat>, desc: TreeDesc)
    requires HandState(full, i, dl, c, bits, n, opt, opt1, fc, len, desc)
    ensures i <= |full| && |dl| == |len| && (n > 0 ==> i > 0)
    ensures 1 <= bits <= desc.maxLength < |c|
  {
    hide Sum;
    HandedSize(full, i, dl, desc.elems, c, desc.maxLength, bits, n);
    if n > 0 {
      HandLeft(full, i, dl, desc.elems, c, desc.maxLength, bits, n);
    }
  }

  /** The nodes of the tree and which of them are symbols. */
  ghost predicate Kinds(full: seq<nat>, size: nat, desc: TreeDesc, maxCode: nat) {
    Distinct(full) && forall x :: x in full ==> x < size && (x < desc.elems <==> x <= maxCode)
  }

  /** One step of the second loop: the next node down the heap, if it is a symbol,
      gets the current length. */
  method HandRound(heap: array<nat>, h0: nat, fc: array<nat>, dl: array<nat>, counters: Counters, desc: TreeDesc, maxCode: nat,
                   bits: nat, n0: nat, ghost full: seq<nat>, ghost i: nat, ghost c: seq<nat>, ghost opt1: Word, ghost len: seq<nat>)
    returns (h: nat, n: nat)
    requires dl != fc && dl != heap && dl.Length == fc.Length && Kinds(full, dl.Length, desc, maxCode)
    requires 1 <= h0 <= heap.Length && 1 <= i <= |full| && heap[h0 - 1] == full[i - 1] && n0 > 0
    requires HandState(full, i, dl[..], c, bits, n0, counters.optLen, opt1, fc[..], len, desc)
    modifies dl, counters
    ensures h == h0 - 1 && n <= n0
    ensures HandState(full, i - 1, dl[..], c, bits, n, counters.optLen, opt1, fc[..], len, desc)
    ensures counters.staticLen == old(counters.staticLen)
  {
    hide HandState;
    ghost var dls, opt := dl[..], counters.optLen;
    h, n := h0 - 1, n0;
    var m := heap[h];
    assert m in full;
    if m > maxCode {
      HandStateSkip(full, i, dls, c, bits, n0, opt, opt1, fc[..], len, desc);
      return;
    }
    HandStateGive(full, i, dls, c, bits, n0, opt, opt1, fc[..], len, desc);
    if dl[m] != bits {
      counters.optLen := U32(counters.optLen + (bits - dl[m]) * fc[m]);
      dl[m] := bits;
    }
    assert dl[..] == dls[m := bits];
    n := n - 1;
  }

  /** The second loop: lengths handed out again, longest first, in the order of
      increasing frequency. */
  method HandOut(heap: array<nat>, heapMax: nat, fc: array<nat>, dl: array<nat>, blCount: array<nat>, counters: Counters,
                 desc: TreeDesc, maxCode: nat, ghost full: seq<nat>)
    returns (ghost left: nat)
    requires dl != fc && dl != heap && dl != blCount && dl.Length == fc.Length && Kinds(full, dl.Length, desc, maxCode)
    requires heapMax <= heap.Length && full == heap[heapMax..]
    requires 1 <= desc.maxLength < blCount.Length
    requires Sum(full, LeafAt(desc.elems)) == Total(blCount[..], desc.maxLength)
    modifies dl, counters
    ensures HandState(full, left, dl[..], blCount[..], 1, 0, counters.optLen, old(counters.optLen), fc[..], old(dl[..]), desc)
    ensures counters.staticLen == old(counters.staticLen)
  {
    hide HandState, Sum, Total, Kinds;
    ghost var c, len, fcs, opt1 := blCount[..], dl[..], fc[..], counters.optLen;
    HandStateStart(full, len, c, opt1, fcs, desc);
    var h := heap.Length;
    var bits := desc.maxLength;
    var n := blCount[bits];
    while true
      invariant heapMax <= h <= heap.Length && 1 <= bits <= desc.maxLength && n == c[bits]
      invariant HandState(full, h - heapMax, dl[..], c, bits, n, counters.optLen, opt1, fcs, len, desc)
      invariant counters.staticLen == old(counters.staticLen)
      decreases bits
    {
      h, n := HandLength(heap, heapMax, h, fc, dl, counters, desc, maxCode, bits, n, full, c, opt1, len);
      if bits == 1 {
        left := h - heapMax;
        return;
      }
      HandStateNext(full, h - heapMax, dl[..], c, bits, counters.optLen, opt1, fcs, len, desc);
      bits := bits - 1;
      n := blCount[bits];
    }
  }

  /** The inner loop: the next `n0` symbols get length `bits`. */
  method HandLength(heap: array<nat>, heapMax: nat, h0: nat, fc: array<nat>, dl: array<nat>, counters: Counters,
                    desc: TreeDesc, maxCode: nat, bits: nat, n0: nat,
                    ghost full: seq<nat>, ghost c: seq<nat>, ghost opt1: Word, ghost len: seq<nat>)
    returns (h: nat, n: nat)
    requires dl != fc && dl != heap && dl.Length == fc.Length && Kinds(full, dl.Length, desc, maxCode)
    requires heapMax <= h0 <= heap.Length && full == heap[heapMax..]
    requires HandState(full, h0 - heapMax, dl[..], c, bits, n0, counters.optLen, opt1, fc[..], len, desc)
    modifies dl, counters
    ensures heapMax <= h <= h0 && n == 0
    ensures HandState(full, h - heapMax, dl[..], c, bits, 0, counters.optLen, opt1, fc[..], len, desc)
    ensures counters.staticLen == old(counters.staticLen)
  {
    hide *;
    h, n := h0, n0;
    while n != 0
      invariant heapMax <= h <= h0
      invariant HandState(full, h - heapMax, dl[..], c, bits, n, counters.optLen, opt1, fc[..], len, desc)
      invariant counters.staticLen == old(counters.staticLen)
      decreases h
    {
      HandStateFacts(full, h - heapMax, dl[..], c, bits, n, counters.optLen, opt1, fc[..], len, desc);
      h, n := HandRound(heap, h, fc, dl, counters, desc, maxCode, bits, n, full, h - heapMax, c, opt1, len);
    }
  }

  lemma HandStateStart(full: seq<nat>, dl: seq<nat>, c: seq<nat>, opt: Word, fc: seq<nat>, desc: TreeDesc)
    requires 1 <= desc.maxLength < |c| && Sum(full, LeafAt(desc.elems)) == Total(c, desc.maxLength)
    ensures HandState(full, |full|, dl, c, desc.maxLength, c[desc.maxLength], opt, opt, fc, dl, desc)
  {
    HandStart(full, dl, desc.elems, c, desc.maxLength);
    hide HandedOut, Sum;
    var s := Sum(full, CostAt(fc, dl, desc));
    assert opt == U32(opt + s - s);
    assert HandedOut(full, |full|, dl, desc.elems, c, desc.maxLength, desc.maxLength, c[desc.maxLength]);
    assert forall x: nat :: x < |dl| && x !in full ==> dl[x] == dl[x];
  }

  lemma KindsOf(full: seq<nat>, dad: seq<nat>, t: Tree, leaves: seq<nat>, desc: TreeDesc, fc: seq<nat>, maxCode: nat)
    requires Built(full, dad, t, leaves, desc.elems) && Symbols(leaves, fc, dad, desc.elems, maxCode)
    ensures Kinds(full, |dad|, desc, maxCode)
  {
    forall n | n in full ensures n < |dad| && (n < desc.elems <==> n <= maxCode) {
      FullKinds(full, dad, t, leaves, desc, fc, dad, maxCode, n);
    }
  }

  /** Without overflow the first loop already leaves everything ready. */
  lemma ReadyAtOnce(full: seq<nat>, dad: seq<nat>, t: Tree, leaves: seq<nat>, desc: TreeDesc,
                    fc: seq<nat>, len: seq<nat>, maxCode: nat, c: seq<nat>)
    requires desc.Valid() && Built(full, dad, t, leaves, desc.elems) && LensFrom(full, dad, len, desc.maxLength)
    requires Symbols(leaves, fc, len, desc.elems, maxCode)
    requires Excess(c, desc.maxLength, 0) && Bounded(len[..maxCode + 1], desc.maxLength)
    requires forall b :: 1 <= b <= MAX_BITS ==> c[b] == Count(len[..maxCode + 1], b)
    ensures LensReady(leaves, fc, len, desc, maxCode, c)
  {
    hide LensFrom, Built, Excess, Count;
    CutDepthsInRange(full, dad, t, leaves, desc.elems, len, desc.maxLength);
    CompleteFromCounts(len[..maxCode + 1], c, desc.maxLength);
  }

  /** After the repair, handing the lengths out again leaves everything ready. */
  lemma ReadyAfterRepair(full: seq<nat>, dad: seq<nat>, t: Tree, leaves: seq<nat>, desc: TreeDesc,
                         fc: seq<nat>, len: seq<nat>, maxCode: nat, c: seq<nat>,
                         i: nat, dl: seq<nat>, opt: Word, opt1: Word)
    requires desc.Valid() && Built(full, dad, t, leaves, desc.elems)
    requires Symbols(leaves, fc, len, desc.elems, maxCode)
    requires Excess(c, desc.maxLength, 0)
    requires HandState(full, i, dl, c, 1, 0, opt, opt1, fc, len, desc)
    ensures LensReady(leaves, fc, dl, desc, maxCode, c)
    ensures opt == U32(opt1 + Sum(full, CostAt(fc, dl, desc)) - Sum(full, CostAt(fc, len, desc)))
  {
    hide Built, Excess, Count, Sum;
    var L := desc.maxLength;
    HandDone(full, i, dl, desc.elems, c, L);
    forall s: nat | s < desc.elems ensures s !in leaves ==> dl[s] == 0
      ensures s in leaves ==> 1 <= dl[s] <= L
    {
      SymbolsInFull(full, dad, t, leaves, desc.elems, s);
    }
    assert Symbols(leaves, fc, dl, desc.elems, maxCode);
    BoundedPrefix(leaves, fc, dl, desc.elems, maxCode, L);
    forall b | 1 <= b <= L ensures c[b] == Count(dl[..maxCode + 1], b) {
      BuiltCount(full, dad, t, leaves, desc, fc, dl, maxCode, b);
    }
    CompleteFromCounts(dl[..maxCode + 1], c, L);
  }

  /** The costs over the tree are the costs over the symbols. */
  lemma CostOverSymbols(full: seq<nat>, dad: seq<nat>, t: Tree, leaves: seq<nat>, desc: TreeDesc, fc: seq<nat>, len: seq<nat>)
    requires Built(full, dad, t, leaves, desc.elems)
    ensures Sum(full[1..], CostAt(fc, len, desc)) == Sum(full, CostAt(fc, len, desc)) == Sum(leaves, CostAt(fc, len, desc))
    ensures Sum(full[1..], StaticCostAt(fc, desc)) == Sum(leaves, StaticCostAt(fc, desc))
  {
    hide Built;
    WithoutRoot(full, dad, t, leaves, desc.elems, CostAt(fc, len, desc));
    BuiltSum(full, dad, t, leaves, desc.elems, CostAt(fc, len, desc));
    WithoutRoot(full, dad, t, leaves, desc.elems, StaticCostAt(fc, desc));
    BuiltSum(full, dad, t, leaves, desc.elems, StaticCostAt(fc, desc));
  }

  /** Something overflows exactly if the tree is higher than the limit. */
  lemma OverflowIfHigh(full: seq<nat>, dad: seq<nat>, t: Tree, leaves: seq<nat>, elems: nat, len: seq<nat>, L: nat)
    requires Built(full, dad, t, leaves, elems) && LensFrom(full, dad, len, L) && L > 0
    ensures Depths(t, 0, len, L)
    ensures Height(t) <= L <==> Sum(full[1..], OverflowAt(len, dad, L)) == 0
  {
    hide LensFrom;
    BuiltDepths(full, dad, t, leaves, elems, len, L);
    TreeSums(full, dad, t, leaves, elems, len, L);
    if Height(t) <= L {
      LowTree(t, 0, len, L, elems);
    } else {
      HighTree(t, 0, len, L, elems);
    }
  }

  /** gen_bitlen */
  method GenBitlen(heap: array<nat>, heapMax: nat, fc: array<nat>, dl: array<nat>, blCount: array<nat>, counters: Counters,
                   desc: TreeDesc, maxCode: nat, ghost full: seq<nat>, ghost t: Tree, ghost leaves: seq<nat>)
    requires dl != heap && dl != fc && dl != blCount && blCount != heap && blCount != fc && fc.Length == dl.Length
    requires heapMax < heap.Length && full == heap[heapMax..] && blCount.Length == MAX_BITS + 1
    requires desc.Valid() && Built(full, dl[..], t, leaves, desc.elems)
    requires Symbols(leaves, fc[..], dl[..], desc.elems, maxCode)
    modifies dl, blCount, counters
    ensures LensReady(leaves, fc[..], dl[..], desc, maxCode, blCount[..])
    ensures counters.optLen == U32(old(counters.optLen) + Sum(leaves, CostAt(fc[..], dl[..], desc)))
    ensures counters.staticLen == U32(old(counters.staticLen) + Sum(leaves, StaticCostAt(fc[..], desc)))
    ensures if Height(t) <= desc.maxLength then Depths(t, 0, dl[..], desc.maxLength) else blCount[desc.maxLength] > 0
  {
    hide *;
    ghost var dad, fcs, L := dl[..], fc[..], desc.maxLength;
    ghost var opt0 := counters.optLen;
    ZeroCounts(blCount);
    ghost var len := GenBitlenTables(full, dad, t, leaves, fcs, desc, maxCode);
    var overflow := FirstPass(heap, heapMax, fc, dl, blCount, counters, desc, maxCode, full, t, leaves, len);
    ghost var c, opt1 := blCount[..], counters.optLen;
    ghost var k := GenBitlenFirst(full, dad, t, leaves, desc, fcs, len, maxCode, c, overflow,
                                  opt1, counters.staticLen, opt0, old(counters.staticLen));
    if overflow == 0 {
      return;
    }
    RepairCounts(blCount, desc.maxLength, overflow);
    ghost var i := HandOut(heap, heapMax, fc, dl, blCount, counters, desc, maxCode, full);
    ReadyAfterRepair(full, dad, t, leaves, desc, fcs, len, maxCode, blCount[..], i, dl[..], counters.optLen, opt1);
    CostOverSymbols(full, dad, t, leaves, desc, fcs, dl[..]);
    CostOverSymbols(full, dad, t, leaves, desc, fcs, len);
    U32Add(opt0 + Sum(leaves, CostAt(fcs, len, desc)), Sum(full, CostAt(fcs, dl[..], desc)) - Sum(full, CostAt(fcs, len, desc)));
  }

  method ZeroCounts(blCount: array<nat>)
    requires blCount.Length == MAX_BITS + 1
    modifies blCount
    ensures forall b :: 0 <= b <= MAX_BITS ==> blCount[b] == 0
  {
    for bits := 0 to blCount.Length
      invariant forall b :: 0 <= b < bits ==> blCount[b] == 0
    {
      blCount[bits] := 0;
    }
  }

  lemma GenBitlenTables(full: seq<nat>, dad: seq<nat>, t: Tree, leaves: seq<nat>, fc: seq<nat>, desc: TreeDesc, maxCode: nat)
    returns (len: seq<nat>)
    requires desc.Valid() && Built(full, dad, t, leaves, desc.elems) && |fc| == |dad|
    requires Symbols(leaves, fc, dad, desc.elems, maxCode)
    ensures PassTables(full, dad, t, leaves, fc, desc, maxCode, len)
    ensures LensFrom(full, dad, len, desc.maxLength) && Symbols(leaves, fc, len, desc.elems, maxCode) && |len| == |dad|
    ensures Kinds(full, |dad|, desc, maxCode)
  {
    BuiltTopDown(full, dad, t, leaves, desc.elems);
    hide Built, Symbols, TopDown;
    len := MakeLens(full, |full|, dad, desc.maxLength);
    LensAll(full, dad, len, desc.maxLength);
    SymbolsKept(leaves, fc, dad, len, desc, maxCode, full, t);
    KindsOf(full, dad, t, leaves, desc, fc, maxCode);
  }

  lemma FirstSizes(full: seq<nat>, dad: seq<nat>, desc: TreeDesc, len: seq<nat>, c: seq<nat>)
    requires desc.Valid() && LensFrom(full, dad, len, desc.maxLength) && FirstCounts(c, full[1..], len, desc.elems)
    ensures 1 <= desc.maxLength <= MAX_BITS && |c| == MAX_BITS + 1 && full != []
  {
    hide Sum;
  }

  /** Everything known after the first loop. */
  lemma GenBitlenFirst(full: seq<nat>, dad: seq<nat>, t: Tree, leaves: seq<nat>, desc: TreeDesc, fc: seq<nat>,
                       len: seq<nat>, maxCode: nat, c: seq<nat>, overflow: nat, opt: Word, stat: Word, opt0: Word, stat0: Word)
    returns (k: nat)
    requires desc.Valid() && Built(full, dad, t, leaves, desc.elems) && LensFrom(full, dad, len, desc.maxLength)
    requires Symbols(leaves, fc, len, desc.elems, maxCode)
    requires FirstCounts(c, full[1..], len, desc.elems)
    requires overflow == Sum(full[1..], OverflowAt(len, dad, desc.maxLength))
    requires Charged(opt, stat, opt0, stat0, full[1..], fc, len, desc)
    ensures overflow == 2 * k && Excess(c, desc.maxLength, k) && 1 <= desc.maxLength <= MAX_BITS
    ensures Total(c, desc.maxLength) == Sum(full, LeafAt(desc.elems))
    ensures opt == U32(opt0 + Sum(leaves, CostAt(fc, len, desc))) && stat == U32(stat0 + Sum(leaves, StaticCostAt(fc, desc)))
    ensures k == 0 ==> LensReady(leaves, fc, len, desc, maxCode, c)
    ensures (Height(t) <= desc.maxLength <==> k == 0) && Depths(t, 0, len, desc.maxLength)
  {
    hide *;
    FirstSizes(full, dad, desc, len, c);
    k := FirstPassDone(full, dad, t, leaves, desc, fc, len, maxCode, c, overflow);
    FirstPassExcess(full, dad, t, leaves, desc, fc, len, maxCode, c, k);
    CostOverSymbols(full, dad, t, leaves, desc, fc, len);
    ChargedIs(opt, stat, opt0, stat0, full[1..], fc, len, desc);
    OverflowIfHigh(full, dad, t, leaves, desc.elems, len, desc.maxLength);
    if k == 0 {
      ReadyAtOnce(full, dad, t, leaves, desc, fc, len, maxCode, c);
    }
  }
}
