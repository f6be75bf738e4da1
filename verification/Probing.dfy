/** Double hashing with a prime table size: make_hash, the probe sequence, and why it
    reaches every slot. */
module Probing {
  import opened Bits
  import opened Factoring

  // ----- Euclid's lemma

  lemma DividesDifference(p: nat, x: nat, y: nat)
    requires Divides(p, x) && Divides(p, y) && y <= x
    ensures Divides(p, x - y)
  {
    var a, b := x / p, y / p;
    Whole(x, p);
    Whole(y, p);
    if a < b {
      MulMono(a, b, p);
      DividesTimes(p, 0);
    } else {
      MulLess(p, a, b);
      DividesTimes(p, a - b);
    }
  }

  lemma Whole(x: nat, p: nat)
    requires Divides(p, x)
    ensures x == p * (x / p) == (x / p) * p
  {
  }

  lemma MulLess(p: nat, a: nat, b: nat)
    requires b <= a
    ensures p * (a - b) == p * a - p * b
  {
  }

  /** A prime that divides a product divides one of the factors. */
  lemma {:induction false} Euclid(p: nat, a: nat, b: nat)
    requires Prime(p) && 0 < a < p && Divides(p, a * b)
    ensures Divides(p, b)
    decreases a
  {
    if a > 1 {
      var q, s := p / a, p % a;
      assert p == q * a + s;
      assert s != 0 by {
        assert !Divides(a, p);
      }
      var x, y, z := p * b, (a * b) * q, s * b;
      DividesTimes(p, b);
      DividesTrans2(p, a * b, q);
      Spread(q, a, s, b);
      assert x == y + z;
      DividesDifference(p, x, y);
      assert x - y == z;
      Euclid(p, s, b);
    }
  }

  lemma DividesTrans2(p: nat, x: nat, q: nat)
    requires Divides(p, x)
    ensures Divides(p, x * q)
  {
    var k := x / p;
    assert x == p * k;
    Regroup(p, k, q);
    DividesTimes(p, k * q);
  }

  lemma Spread(q: nat, a: nat, s: nat, b: nat)
    ensures (q * a + s) * b == (a * b) * q + s * b
  {
    assert (q * a + s) * b == (q * a) * b + s * b;
    assert (q * a) * b == q * (a * b);
  }

  // ----- the probe sequence

  /** One probe further down, around the end of the table. */
  function Previous(a: nat, d: nat, p: nat): nat
    requires d < p
  {
    if a >= d then a - d else a + p - d
  }

  function Probe(start: nat, d: nat, p: nat, k: nat): (a: nat)
    requires start < p && d < p
    ensures a < p
  {
    if k == 0 then start else Previous(Probe(start, d, p, k - 1), d, p)
  }

  /** How often the first `k` probes went around. */
  function Turns(start: nat, d: nat, p: nat, k: nat): nat
    requires start < p && d < p
  {
    if k == 0 then 0 else Turns(start, d, p, k - 1) + (if Probe(start, d, p, k - 1) >= d then 0 else 1)
  }

  lemma Once(n: nat, d: nat)
    requires n > 0
    ensures n * d == (n - 1) * d + d
  {
  }

  lemma {:induction false} ProbeSum(start: nat, d: nat, p: nat, k: nat)
    requires start < p && d < p
    ensures Probe(start, d, p, k) + k * d == start + Turns(start, d, p, k) * p
  {
    if k > 0 {
      ProbeSum(start, d, p, k - 1);
      Once(k, d);
      Once(Turns(start, d, p, k - 1) + 1, p);
    }
  }

  lemma {:induction false} TurnsMono(start: nat, d: nat, p: nat, i: nat, j: nat)
    requires start < p && d < p && i <= j
    ensures Turns(start, d, p, i) <= Turns(start, d, p, j)
    decreases j
  {
    if i < j {
      TurnsMono(start, d, p, i, j - 1);
    }
  }

  /** The first `p` probes are all different. */
  lemma ProbesDistinct(start: nat, d: nat, p: nat, i: nat, j: nat)
    requires Prime(p) && start < p && 0 < d < p && i < j < p
    ensures Probe(start, d, p, i) != Probe(start, d, p, j)
  {
    if Probe(start, d, p, i) == Probe(start, d, p, j) {
      ProbeSum(start, d, p, i);
      ProbeSum(start, d, p, j);
      TurnsMono(start, d, p, i, j);
      var m, t := j - i, Turns(start, d, p, j) - Turns(start, d, p, i);
      assert j * d == i * d + m * d by {
        assert j == i + m;
      }
      assert m * d == p * t by {
        assert Turns(start, d, p, j) * p == Turns(start, d, p, i) * p + t * p;
      }
      DividesTimes(p, t);
      assert m * d == d * m;
      Euclid(p, d, m);
      DivisorSmall(p, m);
    }
  }

  ghost function Probed(start: nat, d: nat, p: nat, n: nat): set<nat>
    requires start < p && d < p
  {
    set k: nat | 0 <= k < n :: Probe(start, d, p, k)
  }

  lemma {:induction false} ProbedCount(start: nat, d: nat, p: nat, n: nat)
    requires Prime(p) && start < p && 0 < d < p && n <= p
    ensures |Probed(start, d, p, n)| == n
  {
    if n > 0 {
      ProbedCount(start, d, p, n - 1);
      var a := Probe(start, d, p, n - 1);
      if a in Probed(start, d, p, n - 1) {
        var i: nat :| i < n - 1 && Probe(start, d, p, i) == a;
        ProbesDistinct(start, d, p, i, n - 1);
      }
      assert Probed(start, d, p, n) == Probed(start, d, p, n - 1) + {a};
    }
  }

  ghost function Below(n: nat): set<nat> {
    if n == 0 then {} else Below(n - 1) + {n - 1}
  }

  lemma {:induction false} BelowCount(n: nat)
    ensures |Below(n)| == n && forall k: nat :: k in Below(n) <==> k < n
  {
    if n > 0 {
      BelowCount(n - 1);
    }
  }

  lemma SubsetAll(a: set<nat>, b: set<nat>)
    requires a <= b && |a| == |b|
    ensures a == b
  {
    var c := b - a;
    assert b == a + c;
  }

  /** Every slot is probed within the first `p` probes. */
  lemma ProbesCover(start: nat, d: nat, p: nat, t: nat) returns (k: nat)
    requires Prime(p) && start < p && 0 < d < p && t < p
    ensures k < p && Probe(start, d, p, k) == t
  {
    ProbedCount(start, d, p, p);
    BelowCount(p);
    assert Probed(start, d, p, p) <= Below(p);
    SubsetAll(Probed(start, d, p, p), Below(p));
    assert t in Below(p);
    k :| 0 <= k < p && Probe(start, d, p, k) == t;
  }

  // ----- make_hash

  /** How many values an unsigned long can have: it has 32 bits or 64, and which is left open. */
  type LongSize = n: nat | n == 0x1_0000_0000 || n == 0x1_0000_0000_0000_0000 witness 0x1_0000_0000

  const LONG_VALUES: LongSize

  function ToLong(x: nat): (r: nat)
    ensures r < LONG_VALUES
  {
    x % LONG_VALUES
  }

  /** The hash of the first `n` characters of a key. */
  function HashNum(key: string, n: nat): nat
    requires n <= |key|
  {
    if n == 0 then 0
    else if n == 1 then ToLong(key[0] as nat)
    else
      ToLong(HashNum(key, n - 1) + Shl(key[n - 1] as nat + key[n - 2] as nat, (key[n - 1] as nat * (n - 1)) % 24))
  }

  function Start(key: string, prime: nat): (r: nat)
    requires prime > 1
    ensures r < prime
  {
    U32(HashNum(key, |key|)) % prime
  }

  function Decrement(key: string, prime: nat): (r: nat)
    requires prime > 1
    ensures 0 < r < prime
  {
    1 + HashNum(key, |key|) % (prime - 1)
  }

  /** What character `i` adds to the hash. */
  function HashTerm(key: string, i: nat): nat
    requires i < |key|
  {
    if i == 0 then key[0] as nat else (key[i] as nat + key[i - 1] as nat) * Pow2(key[i] as nat * i % 24)
  }

  function HashTotal(key: string, n: nat): nat
    requires n <= |key|
  {
    if n == 0 then 0 else HashTotal(key, n - 1) + HashTerm(key, n - 1)
  }

  lemma NoHash(key: string)
    ensures HashTotal(key, 0) % LONG_VALUES == 0
  {
  }

  lemma TermIs(key: string, i: nat)
    requires 1 <= i < |key|
    ensures HashTerm(key, i) == Shl(key[i] as nat + key[i - 1] as nat, (key[i] as nat * i) % 24)
  {
    ShlMul(key[i] as nat + key[i - 1] as nat, (key[i] as nat * i) % 24);
  }

  lemma TotalNext(key: string, n: nat)
    requires 1 <= n <= |key|
    ensures HashTotal(key, n) == HashTotal(key, n - 1) + HashTerm(key, n - 1)
    ensures HashNum(key, n) == (HashNum(key, n - 1) + HashTerm(key, n - 1)) % LONG_VALUES
  {
    hide Shl, Pow2, HashNum;
    if n == 1 {
      HashFirst(key);
    } else {
      HashNext(key, n);
      TermIs(key, n - 1);
    }
  }

  /** Cut to the width of the type at every step or once at the end, the hash is the same. */
  lemma {:induction false} HashIsTotal(key: string, n: nat)
    requires n <= |key|
    ensures HashNum(key, n) == HashTotal(key, n) % LONG_VALUES
  {
    hide Shl, Pow2, HashNum, ToLong, HashTotal, HashTerm;
    if n == 0 {
      HashFirst(key);
      NoHash(key);
    } else {
      HashIsTotal(key, n - 1);
      TotalNext(key, n);
      CutOnce(HashTotal(key, n - 1), HashTerm(key, n - 1), LONG_VALUES);
    }
  }

  lemma CutOnce(x: nat, y: nat, m: nat)
    requires m > 0
    ensures (x % m + y) % m == (x + y) % m
  {
    var q, r := x / m, x % m;
    var t := (r + y) / m;
    assert x + y == (q + t) * m + (r + y) % m;
    DivUnique(x + y, m, q + t, (r + y) % m);
  }

  lemma HashFirst(key: string)
    ensures HashNum(key, 0) == 0 && (key != [] ==> HashNum(key, 1) == ToLong(key[0] as nat))
  {
  }

  lemma HashNext(key: string, n: nat)
    requires 2 <= n <= |key|
    ensures HashNum(key, n)
         == ToLong(HashNum(key, n - 1) + Shl(key[n - 1] as nat + key[n - 2] as nat, (key[n - 1] as nat * (n - 1)) % 24))
  {
    hide Shl, ToLong;
  }

  lemma Hashed(key: string, prime: nat)
    requires prime > 1
    ensures Start(key, prime) == U32(HashNum(key, |key|)) % prime && Decrement(key, prime) == 1 + HashNum(key, |key|) % (prime - 1)
  {
    hide HashNum;
  }

  /** make_hash */
  method MakeHash(key: string, prime: nat) returns (start: nat, decrement: nat)
    requires prime > 1
    ensures start == Start(key, prime) < prime && 0 < decrement == Decrement(key, prime) < prime
  {
    hide HashNum, Shl, ToLong, Start, Decrement;
    HashFirst(key);
    var hashNum := if key == [] then 0 else ToLong(key[0] as nat);
    var i := 1;
    while i < |key|
      invariant 1 <= i && (i <= |key| || key == []) && hashNum == HashNum(key, if key == [] then 0 else i)
    {
      HashNext(key, i + 1);
      hashNum := ToLong(hashNum + Shl(key[i] as nat + key[i - 1] as nat, (key[i] as nat * i) % 24));
      i := i + 1;
    }
    Hashed(key, prime);
    start := U32(hashNum) % prime;
    decrement := 1 + hashNum % (prime - 1);
  }
}
