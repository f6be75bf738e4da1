/** The length-limit repair of gen_bitlen, on the table of length counts. */
module Repairs {
  import opened Bits
  import opened Canonical

  /** The Kraft sum of the lengths up to `b`, in units of 2^-L. */
  function KraftOf(c: seq<nat>, L: nat, b: nat): nat
    requires b <= L && b < |c|
  {
    if b == 0 then 0 else KraftOf(c, L, b - 1) + Shl(c[b], L - b)
  }

  function Total(c: seq<nat>, b: nat): nat
    requires b < |c|
  {
    if b == 0 then 0 else Total(c, b - 1) + c[b]
  }

  lemma {:induction false} KraftOfUpdate(c: seq<nat>, L: nat, b: nat, i: nat, v: nat)
    requires 1 <= i && b <= L && b < |c| && i < |c| && i <= L
    ensures KraftOf(c[i := v], L, b) + (if i <= b then Shl(c[i], L - i) else 0)
         == KraftOf(c, L, b) + (if i <= b then Shl(v, L - i) else 0)
  {
    if b > 0 {
      KraftOfUpdate(c, L, b - 1, i, v);
    }
  }

  lemma {:induction false} TotalUpdate(c: seq<nat>, b: nat, i: nat, v: nat)
    requires 1 <= i < |c| && b < |c|
    ensures Total(c[i := v], b) + (if i <= b then c[i] else 0) == Total(c, b) + (if i <= b then v else 0)
  {
    if b > 0 {
      TotalUpdate(c, b - 1, i, v);
    }
  }

  /** Counts whose Kraft sum is `k` units too large. */
  ghost predicate Excess(c: seq<nat>, L: nat, k: nat) {
    |c| == MAX_BITS + 1 && 1 <= L <= MAX_BITS && c[0] == 0
    && (forall b :: L < b <= MAX_BITS ==> c[b] == 0)
    && KraftOf(c, L, L) == Pow2(L) + k
    && Total(c, L) <= Pow2(L)
    && (k > 0 ==> c[L] > k)
  }

  lemma {:induction false} KraftOfZeros(c: seq<nat>, L: nat, b: nat)
    requires b <= L && b < |c| && forall i :: 1 <= i <= b ==> c[i] == 0
    ensures KraftOf(c, L, b) == 0 && Total(c, b) == 0
  {
    if b > 0 {
      KraftOfZeros(c, L, b - 1);
      ShlOne(L - b);
    }
  }

  /** Some length below the limit is in use: not every symbol can be at the limit. */
  lemma ShorterExists(c: seq<nat>, L: nat, k: nat)
    requires Excess(c, L, k) && k > 0
    ensures exists b :: 1 <= b < L && c[b] > 0
  {
    assert Shl(c[L], 0) == c[L];
    if forall b :: 1 <= b < L ==> c[b] == 0 {
      KraftOfZeros(c, L, L - 1);
      assert false;
    }
  }

  function Moved(c: seq<nat>, L: nat, b: nat): seq<nat>
    requires 1 <= b < L < |c| && c[b] > 0 && c[L] > 0
  {
    var c1 := c[b := c[b] - 1];
    var c2 := c1[b + 1 := c1[b + 1] + 2];
    c2[L := c2[L] - 1]
  }

  /** Moving one leaf down and one up from the limit takes off exactly one unit. */
  lemma MoveKraft(c: seq<nat>, L: nat, b: nat)
    requires 1 <= b < L < |c| && c[b] > 0 && c[L] > 0
    ensures KraftOf(Moved(c, L, b), L, L) + 1 == KraftOf(c, L, L)
  {
    hide KraftOf, Shl, Pow2;
    var c1 := c[b := c[b] - 1];
    var c2 := c1[b + 1 := c1[b + 1] + 2];
    KraftOfUpdate(c, L, L, b, c[b] - 1);
    KraftOfUpdate(c1, L, L, b + 1, c1[b + 1] + 2);
    KraftOfUpdate(c2, L, L, L, c2[L] - 1);
    MoveUnits(c[b], c1[b + 1], c2[L], L, b);
  }

  lemma MoveTotal(c: seq<nat>, L: nat, b: nat)
    requires 1 <= b < L < |c| && c[b] > 0 && c[L] > 0
    ensures Total(Moved(c, L, b), L) == Total(c, L)
  {
    hide Total;
    var c1 := c[b := c[b] - 1];
    var c2 := c1[b + 1 := c1[b + 1] + 2];
    TotalUpdate(c, L, b, c[b] - 1);
    TotalUpdate(c1, L, b + 1, c1[b + 1] + 2);
    TotalUpdate(c2, L, L, c2[L] - 1);
  }

  lemma MoveStep(c: seq<nat>, L: nat, k: nat, b: nat)
    requires Excess(c, L, k) && k > 0 && 1 <= b < L && c[b] > 0
    ensures Excess(Moved(c, L, b), L, k - 1)
    ensures Total(Moved(c, L, b), L) == Total(c, L) && Moved(c, L, b)[L] > 0
  {
    hide KraftOf, Total, Pow2;
    MoveKraft(c, L, b);
    MoveTotal(c, L, b);
  }

  lemma MoveUnits(x: nat, y: nat, z: nat, L: nat, b: nat)
    requires x > 0 && z > 0 && b < L
    ensures Shl(x, L - b) == Shl(x - 1, L - b) + Pow2(L - b)
    ensures Shl(y + 2, L - (b + 1)) == Shl(y, L - (b + 1)) + Pow2(L - b)
    ensures Shl(z, L - L) == Shl(z - 1, L - L) + 1
  {
    ShlAdd(x - 1, 1, L - b);
    ShlOne(L - b);
    ShlAdd(y, 2, L - b - 1);
    ShlAdd(1, 1, L - b - 1);
    ShlOne(L - b - 1);
  }

  /** The repair loop: one leaf moves down and takes an overflowing one along,
      until nothing overflows; then the Kraft sum is exactly one. */
  method RepairCounts(blCount: array<nat>, maxLength: nat, overflow0: nat)
    requires overflow0 > 0 && overflow0 % 2 == 0
    requires Excess(blCount[..], maxLength, overflow0 / 2)
    modifies blCount
    ensures Excess(blCount[..], maxLength, 0) && Total(blCount[..], maxLength) == Total(old(blCount[..]), maxLength)
    ensures blCount[maxLength] > 0
  {
    hide KraftOf, Total, Pow2;
    var overflow: int := overflow0;
    ghost var k := overflow0 / 2;
    while true
      invariant overflow == 2 * k && k > 0
      invariant Excess(blCount[..], maxLength, k)
      invariant Total(blCount[..], maxLength) == Total(old(blCount[..]), maxLength)
      decreases k
    {
      ghost var c := blCount[..];
      ShorterExists(c, maxLength, k);
      var bits := maxLength - 1;
      while blCount[bits] == 0
        decreases bits
        invariant 0 <= bits < maxLength && forall b :: bits < b < maxLength ==> c[b] == 0
      {
        bits := bits - 1;
      }
      assert bits >= 1;
      MoveStep(c, maxLength, k, bits);
      blCount[bits] := blCount[bits] - 1;
      blCount[bits + 1] := blCount[bits + 1] + 2;
      blCount[maxLength] := blCount[maxLength] - 1;
      assert blCount[..] == Moved(c, maxLength, bits);
      overflow := overflow - 2;
      k := k - 1;
      if overflow <= 0 {
        break;
      }
    }
  }
}
