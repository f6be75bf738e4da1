/** factor: trial division along the wheel, with a shortcut for perfect squares. */
module Factoring {
  import opened Bits
  import opened Wheels

  // ----- divisibility

  predicate Divides(d: nat, n: nat) {
    d > 0 && n % d == 0
  }

  predicate Prime(p: nat) {
    p >= 2 && forall d :: 2 <= d < p ==> !Divides(d, p)
  }

  /** No divisor from 2 up to, not including, `f`. */
  ghost predicate Rough(n: nat, f: nat) {
    forall d :: 2 <= d < f ==> !Divides(d, n)
  }

  lemma DividesTimes(d: nat, k: nat)
    requires d > 0
    ensures Divides(d, d * k)
  {
    DivUnique(d * k, d, k, 0);
  }

  lemma DividesTrans(a: nat, b: nat, c: nat)
    requires Divides(a, b) && Divides(b, c)
    ensures Divides(a, c)
  {
    var x, y := b / a, c / b;
    assert b == a * x && c == b * y;
    Regroup(a, x, y);
    DividesTimes(a, x * y);
  }

  lemma Regroup(a: nat, x: nat, y: nat)
    ensures (a * x) * y == a * (x * y)
  {
  }

  lemma Quotient(n: nat, f: nat)
    requires Divides(f, n) && n > 0
    ensures n == f * (n / f) && n / f > 0 && (f > 1 ==> n / f < n) && Divides(n / f, n)
  {
    var q := n / f;
    assert n == f * q;
    if q == 0 {
      assert false;
    }
    DividesTimes(q, f);
    assert q * f == n;
    if f > 1 {
      MulMono(2, f, q);
    }
  }

  lemma DivisorSmall(d: nat, n: nat)
    requires Divides(d, n) && n > 0
    ensures d <= n
  {
    Quotient(n, d);
    MulMono(1, n / d, d);
  }

  /** A divisor of a factor is a divisor; dividing keeps a number rough. */
  lemma RoughQuotient(n: nat, f: nat)
    requires Divides(f, n) && n > 0 && Rough(n, f)
    ensures Rough(n / f, f)
  {
    Quotient(n, f);
    forall d | 2 <= d < f ensures !Divides(d, n / f) {
      if Divides(d, n / f) {
        DividesTrans(d, n / f, n);
      }
    }
  }

  /** The least divisor is prime. */
  lemma LeastDivisorPrime(n: nat, f: nat)
    requires f >= 2 && Divides(f, n) && Rough(n, f)
    ensures Prime(f)
  {
    forall d | 2 <= d < f ensures !Divides(d, f) {
      if Divides(d, f) {
        DividesTrans(d, f, n);
      }
    }
  }

  // ----- square roots

  ghost predicate Root(n: nat, s: nat) {
    s * s <= n < (s + 1) * (s + 1)
  }

  lemma Squares(a: nat, b: nat)
    ensures a <= b ==> a * a <= b * b
  {
    if a <= b {
      MulMono(a, b, a);
      MulMono(a, b, b);
    }
  }

  lemma ProductSize(a: nat, b: nat, c: nat, d: nat)
    requires a <= c && b <= d
    ensures a * b <= c * d
  {
    MulMono(a, c, b);
    MulMono(b, d, c);
  }

  /** A number without divisors up to its square root is prime. */
  lemma RoughRootPrime(n: nat, s: nat)
    requires n >= 2 && Root(n, s) && Rough(n, s + 1)
    ensures Prime(n)
  {
    forall d | 2 <= d < n ensures !Divides(d, n) {
      if Divides(d, n) {
        Quotient(n, d);
        ProductSize(s + 1, s + 1, d, n / d);
      }
    }
  }

  /** isqrt: two bits of the argument and one of the root at a time. */
  method Isqrt(n: nat) returns (x: nat)
    requires n < 0x1_0000_0000_0000_0000
    ensures Root(n, x) && x < 0x1_0000_0000
  {
    hide Root, Shr;
    var shift: int := 64 - 2;
    x := 0;
    RootStart(n);
    while shift >= 0
      invariant -2 <= shift <= 62 && shift % 2 == 0
      invariant Root(Shr(n, shift + 2), x)
      decreases shift
    {
      RootStep(n, shift, x);
      x := x * 2 + 1;
      if x * x > Shr(n, shift) {
        x := x - 1;
      }
      shift := shift - 2;
    }
    RootEnd(n, x);
  }

  lemma RootStart(n: nat)
    requires n < 0x1_0000_0000_0000_0000
    ensures Root(Shr(n, 64), 0)
  {
    BigPow();
    LowSmall(n, 64);
  }

  lemma BigPow()
    ensures Pow2(64) == 0x1_0000_0000_0000_0000
  {
    Pow2Values();
    Pow2Add(32, 32);
    ShlMul(Pow2(32), 32);
  }

  lemma EvenSquares(x: nat)
    ensures (2 * x) * (2 * x) == 4 * (x * x)
    ensures (2 * x + 1 + 1) * (2 * x + 1 + 1) == 4 * ((x + 1) * (x + 1))
  {
  }

  lemma RootStep(n: nat, shift: nat, x: nat)
    requires Root(Shr(n, shift + 2), x)
    ensures Root(Shr(n, shift), if (2 * x + 1) * (2 * x + 1) > Shr(n, shift) then 2 * x else 2 * x + 1)
  {
    ShrSnoc(n, shift);
    ShrSnoc(n, shift + 1);
    hide Shr;
    var m, v := Shr(n, shift + 2), Shr(n, shift);
    assert 4 * m <= v < 4 * m + 4;
    EvenSquares(x);
  }

  lemma RootEnd(n: nat, x: nat)
    requires n < 0x1_0000_0000_0000_0000 && Root(Shr(n, 0), x)
    ensures Root(n, x) && x < 0x1_0000_0000
  {
    if x >= 0x1_0000_0000 {
      Squares(0x1_0000_0000, x);
    }
  }

  // ----- powers and products

  function Pow(b: nat, e: nat): nat {
    if e == 0 then 1 else b * Pow(b, e - 1)
  }

  lemma {:induction false} PowMul(a: nat, b: nat, e: nat)
    ensures Pow(a * b, e) == Pow(a, e) * Pow(b, e)
  {
    if e > 0 {
      PowMul(a, b, e - 1);
      var x, y := Pow(a, e - 1), Pow(b, e - 1);
      assert (a * b) * (x * y) == (a * x) * (b * y) by {
        Shuffle(a, b, x, y);
      }
    }
  }

  lemma Shuffle(a: nat, b: nat, x: nat, y: nat)
    ensures (a * b) * (x * y) == (a * x) * (b * y)
  {
    assert (a * b) * (x * y) == a * (b * (x * y));
    assert b * (x * y) == x * (b * y);
  }

  lemma {:induction false} PowAdd(a: nat, e: nat, f: nat)
    ensures Pow(a, e + f) == Pow(a, e) * Pow(a, f)
  {
    if e > 0 {
      PowAdd(a, e - 1, f);
      Regroup(a, Pow(a, e - 1), Pow(a, f));
    }
  }

  lemma PowSquare(s: nat, e: nat)
    ensures Pow(s * s, e) == Pow(s, 2 * e)
  {
    PowMul(s, s, e);
    PowAdd(s, e, e);
  }

  function Product(s: seq<nat>): nat {
    if s == [] then 1 else Product(s[..|s| - 1]) * s[|s| - 1]
  }

  lemma {:induction false} ProductConcat(a: seq<nat>, b: seq<nat>)
    ensures Product(a + b) == Product(a) * Product(b)
    decreases |b|
  {
    if b == [] {
      assert a + b == a;
    } else {
      var b', x := b[..|b| - 1], b[|b| - 1];
      ProductConcat(a, b');
      assert (a + b)[..|a + b| - 1] == a + b';
      Regroup(Product(a), Product(b'), x);
    }
  }

  function Repeated(n: nat, k: nat): (r: seq<nat>)
    ensures |r| == k && forall x :: x in r ==> x == n
  {
    seq(k, _ => n)
  }

  lemma {:induction false} ProductRepeated(n: nat, k: nat)
    ensures Product(Repeated(n, k)) == Pow(n, k)
  {
    if k > 0 {
      assert Repeated(n, k)[..k - 1] == Repeated(n, k - 1);
      ProductRepeated(n, k - 1);
    }
  }

  ghost predicate Ascending(s: seq<nat>) {
    forall i, j :: 0 <= i < j < |s| ==> s[i] <= s[j]
  }

  /** `s` is the prime factors of `n`, each repeated `c` times as often, in order. */
  ghost predicate Factorization(s: seq<nat>, n: nat, c: nat) {
    Ascending(s) && Product(s) == Pow(n, c) && forall p :: p in s ==> Prime(p) && Divides(p, n)
  }

  // ----- what the main loop keeps

  /** What isqrt_odd returns for a number that is not a square. */
  function OddRoot(s: nat): nat {
    if s % 2 == 1 then s else if s == 0 then 0 else s - 1
  }

  /** `n` is what is left of `n0` after dividing out `printed`, all at most `f`; it has no
      divisor below `f`. */
  ghost predicate Progress(n0: nat, n: nat, f: nat, printed: seq<nat>, c: nat) {
    n >= 1 && f >= 2 && Divides(n, n0) && Rough(n, f) && Ascending(printed)
    && Product(printed) * Pow(n, c) == Pow(n0, c)
    && forall p :: p in printed ==> p <= f && Prime(p) && Divides(p, n0)
  }

  lemma AscendingConcat(a: seq<nat>, b: seq<nat>, f: nat)
    requires Ascending(a) && Ascending(b) && (forall x :: x in a ==> x <= f) && forall y :: y in b ==> f <= y
    ensures Ascending(a + b)
  {
    var s := a + b;
    forall i, j | 0 <= i < j < |s| ensures s[i] <= s[j] {
      if i < |a| <= j {
        assert a[i] in a && b[j - |a|] in b;
      }
    }
  }

  /** Dividing by `f` and printing it keeps the progress. */
  lemma DivideOut(n0: nat, n: nat, f: nat, printed: seq<nat>, c: nat)
    requires Progress(n0, n, f, printed, c) && Divides(f, n)
    ensures Progress(n0, n / f, f, printed + Repeated(f, c), c) && n / f < n
  {
    Quotient(n, f);
    var q, r := n / f, Repeated(f, c);
    DividesTrans(q, n, n0);
    DividesTrans(f, n, n0);
    RoughQuotient(n, f);
    LeastDivisorPrime(n, f);
    AscendingConcat(printed, r, f);
    ProductConcat(printed, r);
    ProductRepeated(f, c);
    PowMul(f, q, c);
    Regroup(Product(printed), Pow(f, c), Pow(q, c));
    hide Divides, Rough, Prime, Product, Pow, Ascending;
    forall p | p in printed + r ensures p <= f && Prime(p) && Divides(p, n0) {
    }
  }

  /** The rest of the factors complete the list. */
  lemma Complete(n0: nat, n: nat, f: nat, printed: seq<nat>, rest: seq<nat>, c: nat)
    requires Progress(n0, n, f, printed, c) && Factorization(rest, n, c)
    ensures Factorization(printed + rest, n0, c)
  {
    forall p | p in rest ensures f <= p && Divides(p, n0) {
      DividesTrans(p, n, n0);
      assert Prime(p) && Divides(p, n);
    }
    AscendingConcat(printed, rest, f);
    ProductConcat(printed, rest);
    hide Divides, Rough, Prime, Product, Pow, Ascending;
  }

  lemma PrimeAlone(n: nat, c: nat)
    requires Prime(n)
    ensures Factorization(Repeated(n, c), n, c)
  {
    ProductRepeated(n, c);
    DividesTimes(n, 1);
  }

  lemma {:induction false} One(c: nat)
    ensures Pow(1, c) == 1 && Factorization([], 1, c)
  {
    if c > 0 {
      One(c - 1);
    }
  }

  lemma SmallPrime(n: nat)
    requires 2 <= n < 4
    ensures Prime(n)
  {
  }

  /** Testing up to the odd-rounded square root is enough. */
  lemma StopPrime(n: nat, s: nat, f: nat)
    requires n >= 2 && Root(n, s) && s * s != n && 2 <= f && OddRoot(s) <= f && Rough(n, f + 1)
    ensures Prime(n)
  {
    forall d | 2 <= d < s + 1 ensures !Divides(d, n) {
      if d > f && Divides(d, n) {
        assert d == s && s % 2 == 0;
        DividesTrans(2, s, n);
      }
    }
    RoughRootPrime(n, s);
  }

  /** The first steps of the wheel: 2, 3, 5, 7, 11, 13. */
  predicate FirstStep(f: nat, gap: nat) {
    f >= 11 || (f == 2 && gap == 1) || (f == 3 && gap == 2) || (f == 5 && gap == 2) || (f == 7 && gap == 4)
  }

  /** Nothing between two positions of the wheel can be a divisor. */
  lemma SkipIsSafe(n: nat, f: nat, gap: nat)
    requires Rough(n, f + 1) && FirstStep(f, gap) && forall d :: f < d < f + gap ==> SmallFactor(d)
    ensures Rough(n, f + gap)
  {
    hide SmallFactor;
    forall d | 2 <= d < f + gap ensures !Divides(d, n) {
      if d > f && Divides(d, n) {
        var p := SmallPart(d, f);
        DividesTrans(p, d, n);
      }
    }
  }

  lemma SmallPart(d: nat, f: nat) returns (p: nat)
    requires SmallFactor(d) && f < d
    requires f < 11 ==> (f == 3 && d == 4) || (f == 5 && d == 6) || (f == 7 && d <= 10)
    ensures 2 <= p <= f && Divides(p, d)
  {
    p := if d % 2 == 0 then 2 else if d % 3 == 0 then 3 else if d % 5 == 0 then 5 else if d % 7 == 0 then 7 else 11;
  }

  // ----- the wheel under the loop

  lemma {:induction false} LaterPosition(w: nat)
    requires WHEEL_START <= w <= WHEEL_SIZE
    ensures Position(w) >= 13
  {
    hide Position, Gap, Skips;
    WheelTurn();
    if w > WHEEL_START {
      LaterPosition(w - 1);
      WheelStep(w - 1);
    }
  }

  lemma SkipsSize(a: nat, gap: nat)
    requires Skips(a, gap)
    ensures 2 <= gap <= 14 && gap % 2 == 0
  {
  }

  /** One increment on a later turn of the wheel skips what it skips on the first. */
  lemma TurnedStep(w: nat, q: nat, d: nat)
    requires 2 <= w < WHEEL_SIZE && Position(w) % 2 == 1 && Position(w) + 2310 * q < d < Position(w) + 2310 * q + Gap(w)
    ensures SmallFactor(d)
  {
    hide Position, Gap, Skips, SmallFactor;
    WheelStep(w);
    SkipsMeans(Position(w), Gap(w), d - 2310 * q);
    SmallFactorPeriod(d - 2310 * q, q);
  }

  /** Following the table, the wheel stays on its track and skips only multiples of small primes. */
  lemma WheelAdvance(tab: seq<nat>, w: nat, f: nat)
    requires WheelTable(tab) && OnWheel(w, f)
    ensures w < |tab| && f >= 2 && 1 <= tab[w] <= 14 && FirstStep(f, tab[w]) && forall d :: f < d < f + tab[w] ==> SmallFactor(d)
    ensures OnWheel(if w + 1 < WHEEL_SIZE then w + 1 else WHEEL_START, f + tab[w])
  {
    hide Position, Gap, Skips;
    WheelTurn();
    if w == 1 {
      assert f + tab[w] == Position(2) + 2310 * 0;
    }
    if w >= 2 {
      var q: nat :| (w < WHEEL_START ==> q == 0) && f == Position(w) + 2310 * q && Position(w) % 2 == 1;
      WheelLater(w, q);
      forall d | f < d < f + tab[w] ensures SmallFactor(d) {
        TurnedStep(w, q, d);
      }
    }
  }

  lemma WheelLater(w: nat, q: nat)
    requires 2 <= w < WHEEL_SIZE && (w < WHEEL_START ==> q == 0) && Position(w) % 2 == 1
    ensures 2 <= Gap(w) <= 14 && Position(w) >= 5 && FirstStep(Position(w) + 2310 * q, Gap(w))
    ensures OnWheel(if w + 1 < WHEEL_SIZE then w + 1 else WHEEL_START, Position(w) + 2310 * q + Gap(w))
  {
    hide Position, Gap, Skips;
    WheelTurn();
    WheelStep(w);
    SkipsSize(Position(w), Gap(w));
    if w >= WHEEL_START {
      LaterPosition(w);
    }
    if w + 1 == WHEEL_SIZE {
      assert Position(w) + 2310 * q + Gap(w) == Position(WHEEL_START) + 2310 * (q + 1);
    } else {
      assert Position(w) + 2310 * q + Gap(w) == Position(w + 1) + 2310 * q;
    }
  }

  // ----- factorize

  /** How large a number can be after `depth` square roots of a 64-bit one. */
  function Limit(depth: nat): nat
    requires depth <= 5
  {
    [0x1_0000_0000_0000_0000, 0x1_0000_0000, 0x1_0000, 0x100, 0x10, 4][depth]
  }

  lemma RootLimit(n: nat, s: nat, depth: nat)
    requires depth < 5 && s * s == n < Limit(depth)
    ensures s < Limit(depth + 1)
  {
    var l := Limit(depth + 1);
    assert depth == 0 || depth == 1 || depth == 2 || depth == 3 || depth == 4;
    if s >= l {
      Squares(l, s);
    }
  }

  lemma DepthCount(depth: nat)
    requires depth <= 5
    ensures 1 <= Pow2(depth) <= 32 && (depth < 5 ==> (Pow2(depth) * 2) % 256 == Pow2(depth + 1))
  {
    Pow2Values();
    assert depth == 0 || depth == 1 || depth == 2 || depth == 3 || depth == 4 || depth == 5;
  }

  lemma NothingPrinted(n: nat, c: nat)
    requires n > 0
    ensures Progress(n, n, 2, [], c)
  {
    DividesTimes(n, 1);
  }

  /** The bound in use belongs to the number being factored. */
  ghost predicate Looking(n: nat, root: nat, maxFactor: nat) {
    n >= 2 && Root(n, root) && root * root != n && maxFactor == OddRoot(root) && root < 0x1_0000_0000
  }

  lemma LookingFrom(n: nat, root: nat, maxFactor: nat)
    requires n >= 2 && Root(n, root) && root * root != n && maxFactor == OddRoot(root) && root < 0x1_0000_0000
    ensures Looking(n, root, maxFactor)
  {
  }

  lemma WheelStart()
    ensures OnWheel(0, 2) && WHEEL_SIZE == 485
  {
  }

  lemma ProgressSizes(n0: nat, n: nat, f: nat, printed: seq<nat>, c: nat)
    requires Progress(n0, n, f, printed, c)
    ensures n >= 1 && f >= 2
  {
  }

  lemma DividesIs(f: nat, n: nat)
    requires f > 0 && n % f == 0
    ensures Divides(f, n)
  {
  }

  lemma NotDividesIs(f: nat, n: nat)
    requires f > 0 && n % f != 0
    ensures !Divides(f, n)
  {
  }

  /** Adding a gap to a 32-bit divisor, and how an overflow shows. */
  lemma NextDivisor(f: nat, gap: nat)
    requires f < 0x1_0000_0000 && 1 <= gap <= 14
    ensures if f + gap < 0x1_0000_0000 then U32(f + gap) == f + gap else U32(f + gap) < f
  {
  }

  lemma NotDivided(n0: nat, n: nat, f: nat, printed: seq<nat>, c: nat)
    requires Progress(n0, n, f, printed, c) && !Divides(f, n)
    ensures Rough(n, f + 1)
  {
  }

  lemma AdvanceTo(n0: nat, n: nat, f: nat, printed: seq<nat>, c: nat, fw: nat)
    requires Progress(n0, n, f, printed, c) && Rough(n, fw) && f <= fw
    ensures Progress(n0, n, fw, printed, c)
  {
    hide Divides, Rough, Prime, Product, Pow, Ascending;
  }

  lemma TableSize(tab: seq<nat>)
    requires WheelTable(tab)
    ensures |tab| == WHEEL_SIZE
  {
  }

  lemma StopHere(n: nat, root: nat, maxFactor: nat, f: nat)
    requires Looking(n, root, maxFactor) && 2 <= f && maxFactor <= f && Rough(n, f + 1)
    ensures Prime(n)
  {
    StopPrime(n, root, f);
  }

  /** If the next divisor would not fit in 32 bits, it is beyond the square root. */
  lemma StopAtOverflow(n: nat, root: nat, maxFactor: nat, f: nat)
    requires Looking(n, root, maxFactor) && f >= 0x1_0000_0000 && Rough(n, f)
    ensures Prime(n)
  {
    RoughRootPrime(n, root);
  }

  class Factorizer {
    const wheelTab: array<nat>
    var squareCount: nat      // a uint8_t: how often each factor is printed
    var out: seq<nat>         // the factors printed
    var newlines: nat

    constructor ()
      ensures WheelTable(wheelTab[..]) && squareCount == 1 && out == [] && newlines == 0
    {
      var tab := UnpackWheel();
      wheelTab, squareCount, out, newlines := tab, 1, [], 0;
    }

    /** print_w and print_h */
    method PrintW(n: nat)
      requires squareCount > 0
      modifies this`out
      ensures out == old(out) + Repeated(n, squareCount)
    {
      var rep := squareCount;
      while true
        invariant 1 <= rep <= squareCount && out == old(out) + Repeated(n, squareCount - rep)
        decreases rep
      {
        out := out + [n];
        rep := rep - 1;
        if rep == 0 {
          break;
        }
      }
    }

    /** isqrt_odd: the root to test up to, or 0 if `n` was a square and has been dealt with. */
    method IsqrtOdd(n: nat, ghost depth: nat) returns (s: nat, ghost root: nat, ghost printed: seq<nat>)
      requires WheelTable(wheelTab[..]) && depth < 5 && squareCount == Pow2(depth) && 1 <= n < Limit(depth)
      modifies this`squareCount, this`out, this`newlines
      ensures s == 0 ==> Factorization(printed, n, old(squareCount)) && out == old(out) + printed && newlines == old(newlines) + 1
      ensures s != 0 ==> squareCount == old(squareCount) && out == old(out) && newlines == old(newlines)
      ensures s != 0 ==> n >= 2 && Root(n, root) && root * root != n && s == OddRoot(root) && root < 0x1_0000_0000
      decreases n, 0
    {
      hide Factorization, WheelTable, Pow2, OddRoot, Root;
      BigLimit(depth);
      s := Isqrt(n);
      root := s;
      if s * s == n {
        DepthCount(depth);
        RootLimit(n, s, depth);
        squareCount := squareCount * 2 % 256;
        if n >= 4 {
          SmallerRoot(n, s);
        }
        printed := Factorize(s, depth + 1);
        SquareFactors(printed, s, Pow2(depth));
        return 0, root, printed;
      }
      RootPositive(n, s);
      printed := [];
      // (s - 1) | 1
      OddRoots(s);
      s := if (s - 1) % 2 == 0 then s - 1 + 1 else s - 1;
    }

    /** The inner loop of factorize: takes a factor out as often as it divides. A `maxFactor`
        of 0 says that a square was met and everything has been printed. */
    method TakeOut(ghost n0: nat, n1: nat, factor: nat, ghost before: seq<nat>, maxFactor1: nat, ghost root1: nat, ghost depth: nat)
      returns (n: nat, maxFactor: nat, ghost root: nat, ghost more: seq<nat>)
      requires WheelTable(wheelTab[..]) && depth < 5 && squareCount == Pow2(depth) && 0 < n1 <= n0 < Limit(depth)
      requires Progress(n0, n1, factor, before, squareCount) && Looking(n1, root1, maxFactor1) && factor >= 2
      modifies this`squareCount, this`out, this`newlines
      ensures out == old(out) + more
      ensures maxFactor == 0 ==> Factorization(before + more, n0, old(squareCount)) && newlines == old(newlines) + 1
      ensures maxFactor != 0 ==> Progress(n0, n, factor, before + more, squareCount) && Looking(n, root, maxFactor)
      ensures maxFactor != 0 ==> 0 < n <= n1 && !Divides(factor, n) && newlines == old(newlines) && squareCount == old(squareCount)
      decreases n1, 1
    {
      hide Progress, Factorization, WheelTable, Pow2, Looking, Divides;
      ghost var c := squareCount;
      n, maxFactor, root, more := n1, maxFactor1, root1, [];
      assert before + [] == before;
      RootIsPositive(n1, root1, maxFactor1);
      while n % factor == 0
        invariant Progress(n0, n, factor, before + more, c) && Looking(n, root, maxFactor) && 0 < n <= n1 && maxFactor != 0
        invariant out == old(out) + more && newlines == old(newlines) && squareCount == c
        decreases n
      {
        DividesIs(factor, n);
        DivideOut(n0, n, factor, before + more, c);
        n := n / factor;
        PrintW(factor);
        Assoc(before, more, Repeated(factor, c));
        more := more + Repeated(factor, c);
        ProgressSizes(n0, n, factor, before + more, c);
        ghost var rest;
        maxFactor, root, rest := IsqrtOdd(n, depth);
        if maxFactor == 0 {
          Complete(n0, n, factor, before + more, rest, c);
          Assoc(before, more, rest);
          more := more + rest;
          return;
        }
        LookingFrom(n, root, maxFactor);
      }
      NotDividesIs(factor, n);
    }

    lemma RootIsPositive(n: nat, root: nat, maxFactor: nat)
      requires Looking(n, root, maxFactor)
      ensures maxFactor != 0
    {
    }

    /** The outer loop of factorize: tries the divisors on the wheel. Unless a square was met
        and everything has been printed, a prime or 1 is left. */
    method Search(n0: nat, maxFactor0: nat, ghost root0: nat, ghost depth: nat)
      returns (n: nat, done: bool, ghost last: nat, ghost printed: seq<nat>)
      requires WheelTable(wheelTab[..]) && depth < 5 && squareCount == Pow2(depth) && 4 <= n0 < Limit(depth)
      requires Looking(n0, root0, maxFactor0)
      modifies this`squareCount, this`out, this`newlines
      ensures out == old(out) + printed
      ensures done ==> Factorization(printed, n0, old(squareCount)) && newlines == old(newlines) + 1
      ensures !done ==> Progress(n0, n, last, printed, squareCount) && Prime(n)
      ensures !done ==> newlines == old(newlines) && squareCount == old(squareCount)
      decreases n0, 2
    {
      hide Progress, Factorization, WheelTable, OnWheel, Pow2, Prime, Looking, Rough, Divides, U32, FirstStep, SmallFactor;
      ghost var c := squareCount;
      DepthCount(depth);
      NothingPrinted(n0, c);
      var maxFactor: nat, factor: nat, w: nat := maxFactor0, 2, 0;
      ghost var root, more := root0, [];
      n, printed := n0, [];
      WheelStart();
      while true
        invariant Progress(n0, n, factor, printed, c) && Looking(n, root, maxFactor) && n <= n0
        invariant out == old(out) + printed && newlines == old(newlines) && squareCount == c
        invariant OnWheel(w, factor) && factor < 0x1_0000_0000
        decreases 0x1_0000_0000 - factor
      {
        ProgressSizes(n0, n, factor, printed, c);
        n, maxFactor, root, more := TakeOut(n0, n, factor, printed, maxFactor, root, depth);
        printed := printed + more;
        if maxFactor == 0 {
          return n, true, factor, printed;
        }
        WheelAdvance(wheelTab[..], w, factor);
        NotDivided(n0, n, factor, printed, c);
        if factor >= maxFactor {
          StopHere(n, root, maxFactor, factor);
          return n, false, factor, printed;
        }
        TableSize(wheelTab[..]);
        SkipIsSafe(n, factor, wheelTab[w]);
        NextDivisor(factor, wheelTab[w]);
        var fw := U32(factor + wheelTab[w]);
        if fw < factor {
          StopAtOverflow(n, root, maxFactor, factor + wheelTab[w]);
          return n, false, factor, printed;
        }
        AdvanceTo(n0, n, factor, printed, c, fw);
        factor := fw;
        w := w + 1;
        if w < WHEEL_SIZE {
          continue;
        }
        w := WHEEL_START;
      }
    }

    /** factorize: prints the prime factors of `n0` in order, each squareCount times. */
    method Factorize(n0: nat, ghost depth: nat) returns (ghost printed: seq<nat>)
      requires WheelTable(wheelTab[..]) && depth <= 5 && squareCount == Pow2(depth) && n0 < Limit(depth)
      modifies this`squareCount, this`out, this`newlines
      ensures out == old(out) + printed && newlines == old(newlines) + 1
      ensures n0 > 0 ==> Factorization(printed, n0, old(squareCount))
      ensures n0 == 0 ==> printed == []
      decreases if n0 < 4 then 0 else n0, 3
    {
      hide Progress, Factorization, WheelTable, Pow2, Prime, Looking, Divides;
      ghost var c := squareCount;
      BigLimit(depth);
      DepthCount(depth);
      var n: nat := n0;
      ghost var factor: nat := 2;
      printed := [];
      if n0 > 0 {
        NothingPrinted(n0, c);
      }
      if n >= 4 {
        var maxFactor, done;
        ghost var root, rest;
        maxFactor, root, rest := IsqrtOdd(n, depth);
        if maxFactor == 0 {
          return rest;
        }
        LookingFrom(n, root, maxFactor);
        n, done, factor, printed := Search(n, maxFactor, root, depth);
        if done {
          return;
        }
        ProgressSizes(n0, n, factor, printed, c);
      } else if n >= 2 {
        SmallPrime(n);
      }
      One(c);
      if n > 1 {
        PrimeAlone(n, c);
        PrintW(n);
        Complete(n0, n, factor, printed, Repeated(n, c), c);
        printed := printed + Repeated(n, c);
      } else if n == 1 {
        Complete(n0, n, factor, printed, [], c);
        assert printed + [] == printed;
      }
      newlines := newlines + 1;
    }
  }

  lemma BigLimit(depth: nat)
    requires depth <= 5
    ensures 4 <= Limit(depth) <= 0x1_0000_0000_0000_0000 && Limit(5) == 4
  {
    assert depth == 0 || depth == 1 || depth == 2 || depth == 3 || depth == 4 || depth == 5;
  }

  lemma SmallerRoot(n: nat, s: nat)
    requires s * s == n && n >= 4
    ensures s < n
  {
    if s >= n {
      MulMono(4, s, s);
    }
  }

  lemma OddRoots(s: nat)
    requires s >= 1
    ensures OddRoot(s) == if (s - 1) % 2 == 0 then s - 1 + 1 else s - 1
    ensures OddRoot(s) > 0
  {
  }

  lemma RootPositive(n: nat, s: nat)
    requires n >= 1 && Root(n, s) && s * s != n
    ensures s >= 1 && n >= 2
  {
    if n == 1 && s > 1 {
      Squares(2, s);
    }
  }

  /** Twice the factors of the root are the factors of the square. */
  lemma SquareFactors(printed: seq<nat>, s: nat, c: nat)
    requires s > 0 && Factorization(printed, s, 2 * c)
    ensures Factorization(printed, s * s, c)
  {
    PowSquare(s, c);
    DividesTimes(s, s);
    forall p | p in printed ensures Divides(p, s * s) {
      DividesTrans(p, s, s * s);
    }
  }
}
