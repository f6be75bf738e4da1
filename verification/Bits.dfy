/** Bit strings, as RFC 1951 section 3.1.1 reads them: numbers go in least
    significant bit first, Huffman codes most significant bit first. */
module Bits {

  type Byte = x: nat | x < 256

  /** uint32_t, and cutting an integer to it. */
  type Word = x: nat | x < 0x1_0000_0000

  function U32(x: int): Word {
    x % 0x1_0000_0000
  }

  lemma U32Add(a: int, b: int)
    ensures U32(U32(a) + b) == U32(a + b)
  {
  }

  datatype Option<+T> = None | Some(value: T) {
    predicate IsFailure() {
      None?
    }

    function PropagateFailure<U>(): Option<U>
      requires None?
    {
      None
    }

    function Extract(): T
      requires Some?
    {
      value
    }
  }

  function Pow2(n: nat): (r: nat)
    ensures r >= 1
  {
    if n == 0 then 1 else 2 * Pow2(n - 1)
  }

  /** `c << k` */
  function Shl(c: nat, k: nat): (r: nat)
    ensures r >= c
    decreases k, c
  {
    if k == 0 then c else 2 * Shl(c, k - 1)
  }

  lemma {:induction false} ShlAdd(a: nat, b: nat, k: nat)
    ensures Shl(a + b, k) == Shl(a, k) + Shl(b, k)
  {
    if k > 0 {
      ShlAdd(a, b, k - 1);
    }
  }

  lemma ShlMono(a: nat, b: nat, k: nat)
    ensures a <= b ==> Shl(a, k) <= Shl(b, k)
    ensures a < b ==> Shl(a, k) + Pow2(k) <= Shl(b, k)
  {
    if a < b {
      ShlAdd(a, b - a, k);
      ShlAdd(1, b - a - 1, k);
      ShlOne(k);
    }
  }

  lemma {:induction false} ShlOne(k: nat)
    ensures Shl(1, k) == Pow2(k) && Shl(0, k) == 0
  {
    if k > 0 {
      ShlOne(k - 1);
    }
  }

  lemma {:induction false} ShlTwice(c: nat, j: nat, k: nat)
    ensures Shl(Shl(c, j), k) == Shl(c, j + k)
  {
    if k > 0 {
      ShlTwice(c, j, k - 1);
    }
  }

  lemma TwiceProduct(a: nat, b: nat)
    ensures 2 * (a * b) == a * (2 * b)
  {
  }

  lemma {:induction false} ShlMul(c: nat, k: nat)
    ensures Shl(c, k) == c * Pow2(k)
  {
    if k > 0 {
      ShlMul(c, k - 1);
      TwiceProduct(c, Pow2(k - 1));
    }
  }

  lemma Pow2Add(a: nat, b: nat)
    ensures Pow2(a + b) == Shl(Pow2(a), b)
  {
    ShlOne(a);
    ShlOne(a + b);
    ShlTwice(1, a, b);
  }

  lemma {:induction false} Pow2Mono(a: nat, b: nat)
    requires a <= b
    ensures Pow2(a) <= Pow2(b)
    ensures a < b ==> 2 * Pow2(a) <= Pow2(b)
    decreases b - a
  {
    if a < b {
      Pow2Mono(a + 1, b);
    }
  }

  lemma Pow2Values()
    ensures Pow2(0) == 1 && Pow2(1) == 2 && Pow2(2) == 4 && Pow2(3) == 8 && Pow2(4) == 16
    ensures Pow2(5) == 32 && Pow2(6) == 64 && Pow2(7) == 128 && Pow2(8) == 256
    ensures Pow2(9) == 512 && Pow2(10) == 1024 && Pow2(11) == 2048 && Pow2(12) == 4096 && Pow2(13) == 8192
    ensures Pow2(14) == 16384 && Pow2(15) == 32768 && Pow2(16) == 65536
    ensures Pow2(32) == 0x1_0000_0000
  {
    assert Pow2(8) == 256;
    assert Pow2(16) == 65536;
    Pow2Add(16, 16);
    ShlMul(65536, 16);
  }

  // ----- numbers, least significant bit first

  function ToBits(v: nat, n: nat): (b: seq<bool>)
    ensures |b| == n
    decreases n, v
  {
    if n == 0 then [] else [v % 2 == 1] + ToBits(v / 2, n - 1)
  }

  function FromBits(b: seq<bool>): (v: nat)
    ensures v < Pow2(|b|)
  {
    if b == [] then 0 else (if b[0] then 1 else 0) + 2 * FromBits(b[1..])
  }

  lemma {:induction false} FromToBits(v: nat, n: nat)
    requires v < Pow2(n)
    ensures FromBits(ToBits(v, n)) == v
    decreases n
  {
    if n > 0 {
      FromToBits(v / 2, n - 1);
      assert ToBits(v, n)[1..] == ToBits(v / 2, n - 1);
    }
  }

  lemma {:induction false} ToFromBits(b: seq<bool>)
    ensures ToBits(FromBits(b), |b|) == b
  {
    if b != [] {
      ToFromBits(b[1..]);
      assert b == [b[0]] + b[1..];
    }
  }

  lemma ToBitsStep(v: nat, n: nat)
    requires n > 0
    ensures ToBits(v, n) == [v % 2 == 1] + ToBits(v / 2, n - 1)
  {
  }

  lemma ShlStep(lo: nat, hi: nat, a: nat)
    requires a > 0
    ensures (lo + Shl(hi, a)) % 2 == lo % 2
    ensures (lo + Shl(hi, a)) / 2 == lo / 2 + Shl(hi, a - 1)
  {
  }

  /** A field of `a` bits below a field of `b` bits is the two fields in turn. */
  lemma {:induction false} ToBitsConcat(lo: nat, a: nat, hi: nat, b: nat)
    requires lo < Pow2(a)
    ensures ToBits(lo + Shl(hi, a), a + b) == ToBits(lo, a) + ToBits(hi, b)
    decreases a
  {
    if a > 0 {
      ToBitsConcat(lo / 2, a - 1, hi, b);
      ToBitsStep(lo, a);
      ToBitsStep(lo + Shl(hi, a), a + b);
      ShlStep(lo, hi, a);
      hide *;
      Assoc([lo % 2 == 1], ToBits(lo / 2, a - 1), ToBits(hi, b));
    }
  }

  /** `v >> k` */
  function Shr(v: nat, k: nat): nat
    decreases k, v
  {
    if k == 0 then v else Shr(v / 2, k - 1)
  }

  /** `v & ((1 << k) - 1)` */
  function Low(v: nat, k: nat): (r: nat)
    ensures r < Pow2(k)
    decreases k, v
  {
    if k == 0 then 0 else v % 2 + 2 * Low(v / 2, k - 1)
  }

  lemma {:induction false} LowShr(v: nat, k: nat)
    ensures v == Low(v, k) + Shl(Shr(v, k), k)
    decreases k
  {
    if k > 0 {
      LowShr(v / 2, k - 1);
    }
  }

  lemma {:induction false} LowShrUnique(lo: nat, hi: nat, k: nat)
    requires lo < Pow2(k)
    ensures Low(lo + Shl(hi, k), k) == lo && Shr(lo + Shl(hi, k), k) == hi
    decreases k
  {
    if k > 0 {
      var v := lo + Shl(hi, k);
      LowShrUnique(lo / 2, hi, k - 1);
      assert v / 2 == lo / 2 + Shl(hi, k - 1);
      assert v % 2 == lo % 2;
    }
  }

  lemma {:induction false} ShrDiv(v: nat, k: nat)
    ensures Shr(v, k) == v / Pow2(k) && Low(v, k) == v % Pow2(k)
  {
    LowShr(v, k);
    ShlMul(Shr(v, k), k);
    DivUnique(v, Pow2(k), Shr(v, k), Low(v, k));
  }

  lemma DivUnique(v: nat, m: nat, q: nat, r: nat)
    requires m > 0 && v == q * m + r && r < m
    ensures v / m == q && v % m == r
  {
    var q' := v / m;
    var r' := v % m;
    assert v == q' * m + r';
    if q' < q {
      MulMono(q' + 1, q, m);
    } else if q' > q {
      MulMono(q + 1, q', m);
    }
  }

  /** The bit of weight 2^i. */
  lemma {:induction false} ToBitsAt(v: nat, n: nat, i: nat)
    requires i < n
    ensures ToBits(v, n)[i] <==> v / Pow2(i) % 2 == 1
    decreases n
  {
    if i > 0 {
      ToBitsAt(v / 2, n - 1, i - 1);
      HalfDiv(v, Pow2(i - 1));
    }
  }

  lemma HalfDiv(v: nat, p: nat)
    requires p > 0
    ensures v / 2 / p == v / (2 * p)
  {
    var q, r := v / 2 / p, v / 2 % p;
    assert v / 2 == q * p + r;
    assert v == q * (2 * p) + (2 * r + v % 2);
    DivUnique(v, 2 * p, q, 2 * r + v % 2);
  }

  /** Any number splits at any bit position. */
  lemma {:induction false} ToBitsSplit(v: nat, a: nat, b: nat)
    ensures ToBits(v, a + b) == ToBits(Low(v, a), a) + ToBits(Shr(v, a), b)
  {
    LowShr(v, a);
    ToBitsConcat(Low(v, a), a, Shr(v, a), b);
  }

  lemma {:induction false} ShrLess(v: nat, a: nat, b: nat)
    requires v < Pow2(a + b)
    ensures Shr(v, a) < Pow2(b)
    decreases a
  {
    if a > 0 {
      ShrLess(v / 2, a - 1, b);
    }
  }

  lemma {:induction false} ShrSnoc(v: nat, k: nat)
    ensures Shr(v, k + 1) == Shr(v, k) / 2
    ensures Low(v, k + 1) == Low(v, k) + Shl(Shr(v, k) % 2, k)
    decreases k
  {
    if k > 0 {
      ShrSnoc(v / 2, k - 1);
    }
  }

  lemma {:induction false} LowSmall(v: nat, k: nat)
    requires v < Pow2(k)
    ensures Low(v, k) == v && Shr(v, k) == 0
    decreases k
  {
    if k > 0 {
      LowSmall(v / 2, k - 1);
    }
  }

  function Zeros(n: nat): (r: seq<bool>)
    ensures |r| == n && forall i :: 0 <= i < n ==> !r[i]
  {
    seq(n, _ => false)
  }

  lemma {:induction false} ToBitsZero(n: nat)
    ensures ToBits(0, n) == Zeros(n)
  {
    if n > 0 {
      ToBitsZero(n - 1);
    }
  }

  lemma MulMono(a: nat, b: nat, c: nat)
    requires a <= b
    ensures a * c <= b * c
  {
    assert b * c == a * c + (b - a) * c;
  }

  // ----- bytes

  function BytesBits(s: seq<Byte>): (b: seq<bool>)
    ensures |b| == 8 * |s|
  {
    if s == [] then [] else ToBits(s[0], 8) + BytesBits(s[1..])
  }

  lemma Assoc<T>(a: seq<T>, b: seq<T>, c: seq<T>)
    ensures (a + b) + c == a + (b + c)
  {
  }

  lemma {:induction false} BytesBitsConcat(a: seq<Byte>, b: seq<Byte>)
    ensures BytesBits(a + b) == BytesBits(a) + BytesBits(b)
  {
    if a == [] {
      assert a + b == b;
    } else {
      BytesBitsConcat(a[1..], b);
      assert (a + b)[1..] == a[1..] + b;
      Assoc(ToBits(a[0], 8), BytesBits(a[1..]), BytesBits(b));
    }
  }

  lemma BytesBitsSnoc(a: seq<Byte>, x: Byte)
    ensures BytesBits(a + [x]) == BytesBits(a) + ToBits(x, 8)
  {
    BytesBitsConcat(a, [x]);
    assert [x][1..] == [];
    assert BytesBits([x]) == ToBits(x, 8) + [];
  }

  // ----- bitwise or

  function BitOr(a: nat, b: nat): nat
    decreases a + b
  {
    if a == 0 then b else if b == 0 then a
    else (if a % 2 == 1 || b % 2 == 1 then 1 else 0) + 2 * BitOr(a / 2, b / 2)
  }

  /** Or-ing in a field that starts above all bits of `a` is adding it. */
  lemma {:induction false} BitOrDisjoint(a: nat, b: nat, k: nat)
    requires a < Pow2(k)
    ensures BitOr(a, Shl(b, k)) == a + Shl(b, k)
    decreases k
  {
    if k > 0 && a > 0 && Shl(b, k) > 0 {
      BitOrDisjoint(a / 2, b, k - 1);
    }
  }

  // ----- Huffman code words, most significant bit first

  function CodeBits(code: nat, len: nat): (b: seq<bool>)
    ensures |b| == len
    decreases len, code
  {
    if len == 0 then [] else CodeBits(code / 2, len - 1) + [code % 2 == 1]
  }

  lemma {:induction false} CodeBitsInjective(a: nat, b: nat, len: nat)
    requires a < Pow2(len) && b < Pow2(len)
    requires CodeBits(a, len) == CodeBits(b, len)
    ensures a == b
    decreases len
  {
    if len > 0 {
      assert CodeBits(a, len)[..len - 1] == CodeBits(a / 2, len - 1);
      assert CodeBits(b, len)[..len - 1] == CodeBits(b / 2, len - 1);
      assert CodeBits(a, len)[len - 1] == (a % 2 == 1);
      assert CodeBits(b, len)[len - 1] == (b % 2 == 1);
      CodeBitsInjective(a / 2, b / 2, len - 1);
    }
  }

  /** The first bits of a code word are the high bits of the code. */
  lemma {:induction false} CodeBitsPrefix(code: nat, len: nat, k: nat)
    requires k <= len
    ensures CodeBits(code, len)[..k] == CodeBits(Shr(code, len - k), k)
    decreases len
  {
    if k < len {
      CodeBitsPrefix(code / 2, len - 1, k);
      assert CodeBits(code, len)[..k] == CodeBits(code / 2, len - 1)[..k];
    }
  }

  /** What the low-bit-first writer must be given so that `code` goes out
      high bit first. */
  function Reverse(code: nat, len: nat): (r: nat)
    ensures r < Pow2(len)
  {
    FromBits(CodeBits(code, len))
  }

  lemma ReverseSent(code: nat, len: nat)
    ensures ToBits(Reverse(code, len), len) == CodeBits(code, len)
  {
    ToFromBits(CodeBits(code, len));
  }

  lemma LastBit(v: nat, i: nat)
    ensures CodeBits(v, i + 1) == CodeBits(v / 2, i) + [v % 2 == 1]
  {
  }

  /** Halving a code keeps its top bit. */
  lemma HalfTop(c: nat, hi: nat, i: nat)
    requires c < Pow2(i) && hi < 2 && i > 0
    ensures (c + Shl(hi, i)) / 2 == c / 2 + Shl(hi, i - 1) && (c + Shl(hi, i)) % 2 == c % 2 && c / 2 < Pow2(i - 1)
  {
  }

  /** The top bit of a code comes first. */
  lemma {:induction false} CodeBitsTop(c: nat, hi: nat, i: nat)
    requires c < Pow2(i) && hi < 2
    ensures CodeBits(c + Shl(hi, i), i + 1) == [hi == 1] + CodeBits(c, i)
    decreases i
  {
    var v := c + Shl(hi, i);
    LastBit(v, i);
    if i == 0 {
      assert CodeBits(v / 2, 0) == [];
    } else {
      HalfTop(c, hi, i);
      LastBit(c, i - 1);
      hide Pow2, Shl, CodeBits;
      CodeBitsTop(c / 2, hi, i - 1);
    }
  }

  lemma ReverseTop(c: nat, hi: nat, i: nat)
    requires c < Pow2(i) && hi < 2
    ensures Reverse(c + Shl(hi, i), i + 1) == hi + 2 * Reverse(c, i)
  {
    CodeBitsTop(c, hi, i);
    assert ([hi == 1] + CodeBits(c, i))[1..] == CodeBits(c, i);
  }

  /** bi_reverse: shift bits out of `code` at the bottom and into `res`. */
  method BiReverse(code: nat, len: nat) returns (res: nat)
    requires 1 <= len && code < Pow2(len)
    ensures res == Reverse(code, len)
  {
    res := 0;
    var c, n := code, len;
    ghost var i := 0;
    ghost var rev := 0;  // the first i bits, reversed
    while true
      invariant 1 <= n && i + n == len
      invariant ReversedSoFar(code, i, c, rev)
      invariant res == 2 * rev
      decreases n
    {
      ReverseStep(code, i, c, rev);
      BitOrEven(rev, c % 2);
      rev := c % 2 + 2 * rev;
      res := BitOr(res, c % 2);
      n := n - 1;
      i := i + 1;
      if n <= 0 {
        ReverseDone(code, i, c / 2, rev);
        return;
      }
      c := c / 2;
      res := res * 2;
    }
  }

  ghost predicate ReversedSoFar(code: nat, i: nat, c: nat, rev: nat) {
    c == Shr(code, i) && rev == Reverse(Low(code, i), i)
  }

  lemma ReverseDone(code: nat, i: nat, c: nat, rev: nat)
    requires ReversedSoFar(code, i, c, rev) && code < Pow2(i)
    ensures rev == Reverse(code, i)
  {
    LowSmall(code, i);
  }

  lemma BitOrEven(r: nat, b: nat)
    requires b < 2
    ensures BitOr(2 * r, b) == b + 2 * r
  {
  }

  lemma ReverseStep(code: nat, i: nat, c: nat, rev: nat)
    requires ReversedSoFar(code, i, c, rev)
    ensures ReversedSoFar(code, i + 1, c / 2, c % 2 + 2 * rev)
  {
    ShrSnoc(code, i);
    ReverseTop(Low(code, i), c % 2, i);
  }
}
