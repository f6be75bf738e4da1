/** Debian version ordering: the code, the rule of section 5.6.12 of the Debian Policy
    Manual, and that it is a total preorder. */
module Versions {
  import opened Bits

  predicate Digit(c: char) {
    '0' <= c <= '9'
  }

  predicate Alpha(c: char) {
    'a' <= c <= 'z' || 'A' <= c <= 'Z'
  }

  /** A string as C holds it: bytes, none of them zero. */
  predicate CText(s: string) {
    forall i :: 0 <= i < |s| ==> '\0' < s[i] < 256 as char
  }

  /** order() */
  function Order(x: char): int {
    if x == '~' then -1 else if x == '\0' then 0 else if Digit(x) then 0 else if Alpha(x) then x as int else x as int + 256
  }

  /** The character at `i`, or the end of the string. */
  function At(s: string, i: nat): char {
    if i < |s| then s[i] else '\0'
  }

  // ----- numbers

  function Value(s: string): nat {
    if s == [] then 0 else 10 * Value(s[..|s| - 1]) + (if Digit(s[|s| - 1]) then s[|s| - 1] as nat - '0' as nat else 0)
  }

  function Pow10(n: nat): nat {
    if n == 0 then 1 else 10 * Pow10(n - 1)
  }

  /** How many digits a string starts with. */
  function DigitRun(s: string): (n: nat)
    ensures n <= |s| && (forall i :: 0 <= i < n ==> Digit(s[i])) && (n < |s| ==> !Digit(s[n]))
  {
    if s == [] || !Digit(s[0]) then 0 else 1 + DigitRun(s[1..])
  }

  lemma {:induction false} RunUnique(s: string, n: nat)
    requires n <= |s| && (forall i :: 0 <= i < n ==> Digit(s[i])) && (n < |s| ==> !Digit(s[n]))
    ensures DigitRun(s) == n
  {
    if n > 0 {
      RunUnique(s[1..], n - 1);
    }
  }

  lemma {:induction false} RunLonger(s: string, n: nat)
    requires n < |s| && forall i :: 0 <= i <= n ==> Digit(s[i])
    ensures DigitRun(s) > n
  {
    if n > 0 {
      RunLonger(s[1..], n - 1);
    }
  }

  /** The digits of a number. */
  function NatText(n: nat): (s: string)
    ensures s != []
  {
    (if n < 10 then "" else NatText(n / 10)) + [('0' as nat + n % 10) as char]
  }

  lemma NatTextLast(n: nat)
    ensures var s := NatText(n); var m := |s| - 1;
            s[..m] == (if n < 10 then "" else NatText(n / 10)) && Digit(s[m]) && s[m] as nat - '0' as nat == n % 10
  {
    hide Value, DigitRun;
    var s, front := NatText(n), if n < 10 then "" else NatText(n / 10);
    assert s == front + [('0' as nat + n % 10) as char];
    hide NatText;
    assert s[..|s| - 1] == front;
  }

  lemma ValueLast(s: string)
    requires s != [] && Digit(s[|s| - 1])
    ensures Value(s) == 10 * Value(s[..|s| - 1]) + (s[|s| - 1] as nat - '0' as nat)
  {
  }

  lemma NoValue()
    ensures Value("") == 0
  {
  }

  /** They are digits, and they read as the number. */
  lemma {:induction false} NatTextReads(n: nat)
    ensures DigitRun(NatText(n)) == |NatText(n)| && Value(NatText(n)) == n
    ensures forall i :: 0 <= i < |NatText(n)| ==> Digit(NatText(n)[i])
  {
    NatTextLast(n);
    hide NatText, Value, DigitRun, Digit;
    var s := NatText(n);
    var m := |s| - 1;
    ValueLast(s);
    if n >= 10 {
      NatTextReads(n / 10);
    } else {
      NoValue();
    }
    assert forall i :: 0 <= i < m ==> s[i] == s[..m][i];
    RunUnique(s, |s|);
  }

  /** The first of several digits counts most. */
  lemma {:induction false} ValueFirst(c: char, s: string)
    requires Digit(c)
    ensures Value([c] + s) == (c as nat - '0' as nat) * Pow10(|s|) + Value(s)
  {
    var t := [c] + s;
    if s == [] {
      assert t[..0] == [] && Value([]) == 0 && Pow10(0) == 1;
    } else {
      var n := |s| - 1;
      ValueFirst(c, s[..n]);
      assert t[..|t| - 1] == [c] + s[..n] && t[|t| - 1] == s[n];
      TenTimes(c as nat - '0' as nat, Pow10(n));
    }
  }

  lemma TenTimes(d: nat, p: nat)
    ensures 10 * (d * p) == d * (10 * p)
  {
  }

  lemma {:induction false} ValueBound(s: string)
    ensures Value(s) < Pow10(|s|)
  {
    if s != [] {
      ValueBound(s[..|s| - 1]);
    }
  }

  lemma {:induction false} ValueLow(s: string)
    requires s != [] && Digit(s[0]) && s[0] != '0'
    ensures Value(s) >= Pow10(|s| - 1)
  {
    if |s| > 1 {
      ValueLow(s[..|s| - 1]);
    }
  }

  lemma {:induction false} ValueMore(s: string, n: nat)
    requires n <= |s| && forall i :: 0 <= i < n ==> s[i] == '0'
    ensures Value(s) == Value(s[n..])
    decreases |s|
  {
    if n == |s| {
      ValueZeros(s);
    } else {
      var t := s[..|s| - 1];
      ValueMore(t, n);
      assert s[n..][..|s| - n - 1] == t[n..];
    }
  }

  lemma {:induction false} ValueZeros(s: string)
    requires forall i :: 0 <= i < |s| ==> s[i] == '0'
    ensures Value(s) == 0
  {
    if s != [] {
      ValueZeros(s[..|s| - 1]);
    }
  }

  // ----- versions as sequences of numbers

  /** What a version part is compared by: for each run of non-digits their orders, and
      after it 0 and the value of the digits. */
  function Rank(s: string): (r: seq<int>)
    decreases |s|
  {
    if s == [] then []
    else if !Digit(s[0]) then [Order(s[0])] + Rank(s[1..])
    else [0, Value(s[..DigitRun(s)])] + Rank(s[DigitRun(s)..])
  }

  function Head(x: seq<int>): int {
    if x == [] then 0 else x[0]
  }

  function Tail(x: seq<int>): seq<int> {
    if x == [] then [] else x[1..]
  }

  function Sign(x: int): int {
    if x < 0 then -1 else if x > 0 then 1 else 0
  }

  /** Lexicographic comparison; the shorter sequence goes on with zeros. */
  function Cmp(x: seq<int>, y: seq<int>): (r: int)
    decreases |x| + |y|
  {
    if x == [] && y == [] then 0
    else if Head(x) != Head(y) then Sign(Head(x) - Head(y))
    else Cmp(Tail(x), Tail(y))
  }

  lemma CmpStep(x: seq<int>, y: seq<int>)
    ensures Cmp(x, y) == if Head(x) != Head(y) then Sign(Head(x) - Head(y)) else Cmp(Tail(x), Tail(y))
  {
  }

  lemma {:induction false} CmpAntisymmetric(x: seq<int>, y: seq<int>)
    ensures Cmp(y, x) == -Cmp(x, y)
    decreases |x| + |y|
  {
    if x != [] || y != [] {
      CmpAntisymmetric(Tail(x), Tail(y));
    }
  }

  lemma {:induction false} CmpTransitive(x: seq<int>, y: seq<int>, z: seq<int>)
    requires Cmp(x, y) <= 0 && Cmp(y, z) <= 0
    ensures Cmp(x, z) <= 0
    ensures Cmp(x, z) == 0 ==> Cmp(x, y) == 0 && Cmp(y, z) == 0
    decreases |x| + |y| + |z|
  {
    CmpStep(x, y);
    CmpStep(y, z);
    CmpStep(x, z);
    if (x != [] || y != [] || z != []) && Head(x) == Head(y) == Head(z) {
      CmpTransitive(Tail(x), Tail(y), Tail(z));
    }
  }

  function Padded(x: seq<int>, k: nat): int {
    if k < |x| then x[k] else 0
  }

  /** Only sequences that agree up to zeros at the end compare as equal. */
  lemma {:induction false} CmpEqual(x: seq<int>, y: seq<int>)
    ensures Cmp(x, y) == 0 <==> forall k: nat :: Padded(x, k) == Padded(y, k)
    decreases |x| + |y|
  {
    if x != [] || y != [] {
      var s, t := Tail(x), Tail(y);
      CmpEqual(s, t);
      assert Padded(x, 0) == Head(x) && Padded(y, 0) == Head(y);
      if Head(x) == Head(y) {
        forall k: nat ensures Padded(s, k) == Padded(x, k + 1) && Padded(t, k) == Padded(y, k + 1) {
        }
        if Cmp(s, t) == 0 {
          forall k: nat ensures Padded(x, k) == Padded(y, k) {
            if k > 0 {
              assert Padded(s, k - 1) == Padded(t, k - 1);
            }
          }
        }
      }
    }
  }

  // ----- version_compare_part

  lemma RankNonDigit(s: string, i: nat)
    requires i < |s| && CText(s) && !Digit(s[i])
    ensures Rank(s[i..]) == [Order(s[i])] + Rank(s[i + 1..]) && Order(s[i]) != 0
  {
    assert s[i..][1..] == s[i + 1..];
  }

  lemma RankHead(s: string, i: nat)
    requires i <= |s| && CText(s)
    ensures Head(Rank(s[i..])) == Order(At(s, i))
    ensures Order(At(s, i)) == 0 <==> i == |s| || Digit(s[i])
  {
    if i < |s| && !Digit(s[i]) {
      RankNonDigit(s, i);
    }
  }

  /** The number that comes next, 0 if there is none, and what follows it. */
  function Number(s: string, i: nat): nat
    requires i <= |s|
  {
    Value(s[i..i + DigitRun(s[i..])])
  }

  function After(s: string, i: nat): (j: nat)
    requires i <= |s|
    ensures i <= j <= |s|
  {
    i + DigitRun(s[i..])
  }

  lemma RankDigits(t: string)
    requires t != [] && Digit(t[0])
    ensures Rank(t) == [0, Value(t[..DigitRun(t)])] + Rank(t[DigitRun(t)..])
  {
    hide Value, Order;
  }

  lemma RankNumber(s: string, i: nat)
    requires i <= |s| && CText(s) && (i < |s| ==> Digit(s[i]))
    ensures Head(Rank(s[i..])) == 0 && Head(Tail(Rank(s[i..]))) == Number(s, i)
    ensures Tail(Tail(Rank(s[i..]))) == Rank(s[After(s, i)..])
  {
    if i < |s| {
      hide *;
      NumberIs(s, i);
      RankDigits(s[i..]);
      TwoFirst(Number(s, i), Rank(s[After(s, i)..]));
    } else {
      assert s[i..] == [];
    }
  }

  lemma NumberIs(s: string, i: nat)
    requires i < |s| && Digit(s[i])
    ensures s[i..] != [] && Digit(s[i..][0])
    ensures Number(s, i) == Value(s[i..][..DigitRun(s[i..])]) && s[After(s, i)..] == s[i..][DigitRun(s[i..])..]
  {
    var n := DigitRun(s[i..]);
    hide Value, DigitRun;
    assert s[i..][..n] == s[i..i + n];
    assert s[i..][n..] == s[i + n..];
  }

  lemma TwoFirst(v: int, rest: seq<int>)
    ensures Head([0, v] + rest) == 0 && Head(Tail([0, v] + rest)) == v && Tail(Tail([0, v] + rest)) == rest
  {
  }

  /** The numbers have been compared; if they are equal, the rest decides. */
  lemma NumbersCompared(val: string, ref: string, i: nat, j: nat)
    requires i <= |val| && j <= |ref| && CText(val) && CText(ref)
    requires (i < |val| ==> Digit(val[i])) && (j < |ref| ==> Digit(ref[j]))
    ensures Cmp(Rank(val[i..]), Rank(ref[j..]))
         == if Number(val, i) != Number(ref, j) then Sign(Number(val, i) - Number(ref, j))
            else Cmp(Rank(val[After(val, i)..]), Rank(ref[After(ref, j)..]))
  {
    RankNumber(val, i);
    RankNumber(ref, j);
    var x, y := Rank(val[i..]), Rank(ref[j..]);
    hide Rank;
    CmpStep(x, y);
    CmpStep(Tail(x), Tail(y));
  }

  /** The first inner loop: text is compared by order, the end of a part counting 0. */
  method CompareText(val: string, ref: string, i0: nat, j0: nat) returns (i: nat, j: nat, r: int)
    requires i0 <= |val| && j0 <= |ref| && CText(val) && CText(ref)
    ensures i0 <= i <= |val| && j0 <= j <= |ref|
    ensures r != 0 ==> Sign(r) == Cmp(Rank(val[i0..]), Rank(ref[j0..]))
    ensures r == 0 ==> (i < |val| ==> Digit(val[i])) && (j < |ref| ==> Digit(ref[j]))
                       && Cmp(Rank(val[i0..]), Rank(ref[j0..])) == Cmp(Rank(val[i..]), Rank(ref[j..]))
  {
    hide Rank, Cmp, Order, CText;
    i, j, r := i0, j0, 0;
    while (i < |val| && !Digit(val[i])) || (j < |ref| && !Digit(ref[j]))
      invariant i0 <= i <= |val| && j0 <= j <= |ref|
      invariant Cmp(Rank(val[i0..]), Rank(ref[j0..])) == Cmp(Rank(val[i..]), Rank(ref[j..]))
      decreases |val| - i + |ref| - j
    {
      RankHead(val, i);
      RankHead(ref, j);
      CmpStep(Rank(val[i..]), Rank(ref[j..]));
      var vc, rc := Order(At(val, i)), Order(At(ref, j));
      if vc != rc {
        r := vc - rc;
        return;
      }
      RankNonDigit(val, i);
      RankNonDigit(ref, j);
      i := i + 1;
      j := j + 1;
    }
  }

  /** Leading zeros do not count. */
  method SkipZeros(s: string, i0: nat) returns (i: nat)
    requires i0 <= |s|
    ensures i0 <= i <= |s| && Number(s, i) == Number(s, i0) && After(s, i) == After(s, i0)
    ensures i < |s| ==> s[i] != '0'
  {
    hide Value;
    i := i0;
    while At(s, i) == '0'
      invariant i0 <= i <= |s| && forall k :: i0 <= k < i ==> s[k] == '0'
      decreases |s| - i
    {
      i := i + 1;
    }
    ZerosSkipped(s, i0, i);
  }

  lemma RunOverZeros(t: string, z: nat)
    requires z <= |t| && forall k :: 0 <= k < z ==> t[k] == '0'
    ensures DigitRun(t) == z + DigitRun(t[z..])
  {
    RunUnique(t, z + DigitRun(t[z..]));
  }

  lemma ValueOverZeros(s: string, i: nat, j: nat, k: nat)
    requires i <= j <= k <= |s| && forall m :: i <= m < j ==> s[m] == '0'
    ensures Value(s[i..k]) == Value(s[j..k])
  {
    hide Value;
    ValueMore(s[i..k], j - i);
    assert s[i..k][j - i..] == s[j..k];
  }

  lemma ZerosSkipped(s: string, i0: nat, i: nat)
    requires i0 <= i <= |s| && forall k :: i0 <= k < i ==> s[k] == '0'
    ensures Number(s, i) == Number(s, i0) && After(s, i) == After(s, i0)
  {
    assert s[i0..][i - i0..] == s[i..];
    RunOverZeros(s[i0..], i - i0);
    hide Value, DigitRun;
    ValueOverZeros(s, i0, i, i + DigitRun(s[i..]));
  }

  /** Two runs of digits read side by side: how their values compare so far. */
  ghost predicate SideBySide(x: string, y: string, diff: int) {
    |x| == |y| && Sign(diff) == Sign(Value(x) as int - Value(y) as int)
  }

  lemma SideStep(x: string, y: string, diff: int, c: char, d: char)
    requires SideBySide(x, y, diff) && Digit(c) && Digit(d)
    ensures SideBySide(x + [c], y + [d], if diff == 0 then c as int - d as int else diff)
  {
    assert (x + [c])[..|x|] == x && (y + [d])[..|y|] == y;
  }

  /** The last inner loop: digit by digit, the longer number is larger. */
  method CompareDigits(val: string, ref: string, i0: nat, j0: nat) returns (i: nat, j: nat, r: int)
    requires i0 <= |val| && j0 <= |ref| && (i0 < |val| ==> val[i0] != '0') && (j0 < |ref| ==> ref[j0] != '0')
    ensures Sign(r) == Sign(Number(val, i0) as int - Number(ref, j0) as int)
    ensures i0 <= i <= |val| && j0 <= j <= |ref| && (r == 0 ==> i == After(val, i0) && j == After(ref, j0))
  {
    hide Value;
    var firstDiff := 0;
    i, j := i0, j0;
    NoDigits();
    assert val[i0..i0] == "" && ref[j0..j0] == "";
    while Digit(At(val, i)) && Digit(At(ref, j))
      invariant i0 <= i <= |val| && j0 <= j <= |ref| && SideBySide(val[i0..i], ref[j0..j], firstDiff)
      invariant forall k :: i0 <= k < i ==> Digit(val[k])
      invariant forall k :: j0 <= k < j ==> Digit(ref[k])
      decreases |val| - i
    {
      SideStep(val[i0..i], ref[j0..j], firstDiff, val[i], ref[j]);
      assert val[i0..i + 1] == val[i0..i] + [val[i]] && ref[j0..j + 1] == ref[j0..j] + [ref[j]];
      if firstDiff == 0 {
        firstDiff := val[i] as int - ref[j] as int;
      }
      i := i + 1;
      j := j + 1;
    }
    RunsEnd(val, ref, i0, j0, i, j, firstDiff);
    if Digit(At(val, i)) {
      return i, j, 1;
    }
    if Digit(At(ref, j)) {
      return i, j, -1;
    }
    r := firstDiff;
  }

  lemma NoDigits()
    ensures SideBySide("", "", 0)
  {
  }

  lemma RunsEnd(val: string, ref: string, i0: nat, j0: nat, i: nat, j: nat, diff: int)
    requires i0 <= i <= |val| && j0 <= j <= |ref| && SideBySide(val[i0..i], ref[j0..j], diff)
    requires (i0 < |val| ==> val[i0] != '0') && (j0 < |ref| ==> ref[j0] != '0')
    requires (forall k :: i0 <= k < i ==> Digit(val[k])) && forall k :: j0 <= k < j ==> Digit(ref[k])
    requires !(Digit(At(val, i)) && Digit(At(ref, j)))
    ensures !Digit(At(val, i)) ==> i == After(val, i0) && Number(val, i0) == Value(val[i0..i])
    ensures !Digit(At(ref, j)) ==> j == After(ref, j0) && Number(ref, j0) == Value(ref[j0..j])
    ensures Digit(At(val, i)) ==> Number(val, i0) > Number(ref, j0)
    ensures Digit(At(ref, j)) ==> Number(ref, j0) > Number(val, i0)
  {
    if !Digit(At(val, i)) {
      RunUnique(val[i0..], i - i0);
    } else {
      LongerRun(val, i0, i);
    }
    if !Digit(At(ref, j)) {
      RunUnique(ref[j0..], j - j0);
    } else {
      LongerRun(ref, j0, j);
    }
    ValueBound(val[i0..i]);
    ValueBound(ref[j0..j]);
  }

  /** A number without leading zeros that goes on past its first digits. */
  lemma LongerRun(s: string, i0: nat, i: nat)
    requires i0 <= i < |s| && s[i0] != '0' && forall k :: i0 <= k <= i ==> Digit(s[k])
    ensures Number(s, i0) >= Pow10(i - i0)
  {
    var n := DigitRun(s[i0..]);
    RunLonger(s[i0..], i - i0);
    ValueLow(s[i0..i0 + n]);
    Pow10Mono(i - i0, n - 1);
  }

  lemma {:induction false} Pow10Mono(a: nat, b: nat)
    requires a <= b
    ensures Pow10(a) <= Pow10(b)
    decreases b
  {
    if a < b {
      Pow10Mono(a, b - 1);
    }
  }

  /** version_compare_part */
  method VersionComparePart(val: string, ref: string) returns (r: int)
    requires CText(val) && CText(ref)
    ensures Sign(r) == Cmp(Rank(val), Rank(ref))
  {
    hide Rank, Cmp, Order, Value, CText, Number, After;
    var i: nat, j: nat := 0, 0;
    assert val[0..] == val && ref[0..] == ref;
    while i < |val| || j < |ref|
      invariant i <= |val| && j <= |ref| && Cmp(Rank(val), Rank(ref)) == Cmp(Rank(val[i..]), Rank(ref[j..]))
      decreases |val| - i + |ref| - j
    {
      ghost var i1, j1 := i, j;
      i, j, r := CompareText(val, ref, i, j);
      if r != 0 {
        return;
      }
      NumbersCompared(val, ref, i, j);
      SomeProgress(val, ref, i1, j1, i, j);
      ghost var i2, j2 := i, j;
      i := SkipZeros(val, i);
      j := SkipZeros(ref, j);
      i, j, r := CompareDigits(val, ref, i, j);
      if r != 0 {
        return;
      }
    }
    AtTheEnd(val, ref, i, j);
    r := 0;
  }

  lemma AtTheEnd(val: string, ref: string, i: nat, j: nat)
    requires i == |val| && j == |ref|
    ensures Cmp(Rank(val[i..]), Rank(ref[j..])) == 0
  {
  }

  /** A round of the outer loop gets on: past text, or past a number. */
  lemma SomeProgress(val: string, ref: string, i1: nat, j1: nat, i: nat, j: nat)
    requires i1 <= i <= |val| && j1 <= j <= |ref| && (i1 < |val| || j1 < |ref|)
    requires (i < |val| ==> Digit(val[i])) && (j < |ref| ==> Digit(ref[j]))
    ensures After(val, i) > i1 || After(ref, j) > j1
  {
  }

  // ----- the rule of the Debian Policy Manual

  /** How many non-digits a string starts with. */
  function TextRun(s: string): (n: nat)
    ensures n <= |s| && (forall i :: 0 <= i < n ==> !Digit(s[i])) && (n < |s| ==> Digit(s[n]))
  {
    if s == [] || Digit(s[0]) then 0 else 1 + TextRun(s[1..])
  }

  /** A tilde sorts before the end of a part, that before letters, those before the rest. */
  function CharClass(s: string): nat {
    if s == [] then 1 else if s[0] == '~' then 0 else if Alpha(s[0]) then 2 else 3
  }

  /** The modified ASCII order of two parts without digits. */
  function Lexical(x: string, y: string): int
    decreases |x| + |y|
  {
    if x == [] && y == [] then 0
    else if CharClass(x) != CharClass(y) then Sign(CharClass(x) - CharClass(y))
    else if x[0] != y[0] then Sign(x[0] as int - y[0] as int)
    else Lexical(x[1..], y[1..])
  }

  /** Section 5.6.12: compare the text both start with, then the numbers after it, and so
      on with what is left. */
  function Policy(a: string, b: string): int
    decreases |a| + |b|
  {
    if a == [] && b == [] then 0
    else
      var i, j := TextRun(a), TextRun(b);
      var c := Lexical(a[..i], b[..j]);
      if c != 0 then c
      else if Number(a, i) != Number(b, j) then Sign(Number(a, i) as int - Number(b, j) as int)
      else
        RoundShrinks(a, b);
        Policy(a[After(a, i)..], b[After(b, j)..])
  }

  lemma RoundShrinks(a: string, b: string)
    ensures a != [] ==> After(a, TextRun(a)) > 0
    ensures b != [] ==> After(b, TextRun(b)) > 0
  {
  }

  lemma SameOrder(x: string, y: string)
    requires CText(x) && CText(y) && x + y != []
    requires (x != [] ==> !Digit(x[0])) && (y != [] ==> !Digit(y[0]))
    ensures var d := Order(At(x, 0)) - Order(At(y, 0));
            if CharClass(x) != CharClass(y) then d != 0 && Sign(d) == Sign(CharClass(x) - CharClass(y))
            else x != [] && y != [] && (d == 0 <==> x[0] == y[0]) && Sign(d) == Sign(x[0] as int - y[0] as int)
    ensures var d := Order(At(x, 0)) - Order(At(y, 0)); d != 0 ==> Sign(d) != 0
  {
  }

  lemma FirstOrder(a: string)
    requires CText(a)
    ensures Head(Rank(a)) == Order(At(a, 0)) && (Order(At(a, 0)) == 0 <==> a == [] || Digit(a[0]))
  {
    RankHead(a, 0);
    assert a[0..] == a;
  }

  lemma NoText(a: string, b: string)
    ensures a[..0] == b[..0] == [] && a[0..] == a && b[0..] == b && Lexical([], []) == 0
  {
  }

  /** Text without digits compares as its orders do, followed by whatever starts with 0. */
  lemma {:induction false} TextIsCmp(a: string, b: string, i: nat, j: nat)
    requires CText(a) && CText(b) && i <= |a| && j <= |b|
    requires (forall k :: 0 <= k < i ==> !Digit(a[k])) && (i < |a| ==> Digit(a[i]))
    requires (forall k :: 0 <= k < j ==> !Digit(b[k])) && (j < |b| ==> Digit(b[j]))
    ensures Cmp(Rank(a), Rank(b))
         == if Lexical(a[..i], b[..j]) != 0 then Lexical(a[..i], b[..j]) else Cmp(Rank(a[i..]), Rank(b[j..]))
    decreases i + j
  {
    hide *;
    TextPrefix(a, i);
    TextPrefix(b, j);
    if i + j > 0 {
      var x, y := a[..i], b[..j];
      FirstOrder(a);
      FirstOrder(b);
      CmpStep(Rank(a), Rank(b));
      SameOrder(x, y);
      LexicalStep(x, y);
      if CharClass(x) == CharClass(y) && x[0] == y[0] {
        FirstRank(a);
        FirstRank(b);
        StillCText(a, 1);
        StillCText(b, 1);
        TextIsCmp(a[1..], b[1..], i - 1, j - 1);
      }
    } else {
      NoText(a, b);
    }
  }

  lemma TextPrefix(a: string, i: nat)
    requires CText(a) && i <= |a| && (forall k :: 0 <= k < i ==> !Digit(a[k])) && (i < |a| ==> Digit(a[i]))
    ensures CText(a[..i]) && (i > 0 ==> a[..i][0] == a[0] && !Digit(a[0])) && Order(At(a, 0)) == Order(At(a[..i], 0))
    ensures i > 0 ==> a[..i][1..] == a[1..][..i - 1] && a[1..][i - 1..] == a[i..]
    ensures i > 0 ==> (forall k :: 0 <= k < i - 1 ==> !Digit(a[1..][k])) && (i < |a| ==> Digit(a[1..][i - 1]))
  {
  }

  lemma FirstRank(a: string)
    requires a != [] && !Digit(a[0])
    ensures Tail(Rank(a)) == Rank(a[1..])
  {
  }

  lemma LexicalStep(x: string, y: string)
    requires x + y != []
    ensures Lexical(x, y)
         == if CharClass(x) != CharClass(y) then Sign(CharClass(x) - CharClass(y))
            else if x[0] != y[0] then Sign(x[0] as int - y[0] as int)
            else Lexical(x[1..], y[1..])
  {
  }

  /** The code's order is the rule's. */
  lemma {:induction false} PolicyIsCmp(a: string, b: string)
    requires CText(a) && CText(b)
    ensures Policy(a, b) == Cmp(Rank(a), Rank(b))
    decreases |a| + |b|
  {
    if a != [] || b != [] {
      var i, j := TextRun(a), TextRun(b);
      PolicyStep(a, b, i, j);
      hide *;
      TextIsCmp(a, b, i, j);
      NumbersCompared(a, b, i, j);
      if Lexical(a[..i], b[..j]) == 0 && Number(a, i) == Number(b, j) {
        StillCText(a, After(a, i));
        StillCText(b, After(b, j));
        PolicyIsCmp(a[After(a, i)..], b[After(b, j)..]);
      }
    }
  }

  lemma PolicyStep(a: string, b: string, i: nat, j: nat)
    requires (a != [] || b != []) && i == TextRun(a) && j == TextRun(b)
    ensures (a != [] ==> After(a, i) > 0) && (b != [] ==> After(b, j) > 0)
    ensures Policy(a, b)
         == var c := Lexical(a[..i], b[..j]);
            if c != 0 then c
            else if Number(a, i) != Number(b, j) then Sign(Number(a, i) as int - Number(b, j) as int)
            else Policy(a[After(a, i)..], b[After(b, j)..])
  {
    RoundShrinks(a, b);
    hide Lexical, Number, After;
  }

  lemma StillCText(s: string, n: nat)
    requires CText(s) && n <= |s|
    ensures CText(s[n..])
  {
  }

  // ----- whole versions: epoch, upstream version, Debian revision

  function FirstIndex(s: string, c: char): (n: nat)
    ensures n <= |s| && (n < |s| ==> s[n] == c) && forall i :: 0 <= i < n ==> s[i] != c
  {
    if s == [] || s[0] == c then 0 else 1 + FirstIndex(s[1..], c)
  }

  /** One past the last occurrence, 0 if there is none. */
  function LastIndex(s: string, c: char): (n: nat)
    ensures n <= |s| && (n > 0 ==> s[n - 1] == c) && forall i :: n <= i < |s| ==> s[i] != c
  {
    if s == [] then 0 else if s[|s| - 1] == c then |s| else LastIndex(s[..|s| - 1], c)
  }

  predicate Space(c: char) {
    c == ' ' || 9 <= c as nat <= 13
  }

  /** atoi */
  function Atoi(s: string): int {
    if s == [] then 0
    else if Space(s[0]) then Atoi(s[1..])
    else if s[0] == '-' then -(Number(s, 1) as int)
    else if s[0] == '+' then Number(s, 1)
    else Number(s, 0)
  }

  datatype VersionKey = VersionKey(epoch: nat, upstream: seq<int>, revision: seq<int>)

  function KeyOf(v: string): VersionKey {
    VersionKey(EpochOf(v), Rank(Upstream(AfterEpoch(v))), Rank(Revision(AfterEpoch(v))))
  }

  function EpochOf(v: string): nat {
    if FirstIndex(v, ':') < |v| then U32(Atoi(v)) else 0
  }

  function AfterEpoch(v: string): string {
    if FirstIndex(v, ':') < |v| then v[FirstIndex(v, ':') + 1..] else v
  }

  function Upstream(v: string): string {
    if LastIndex(v, '-') > 0 then v[..LastIndex(v, '-') - 1] else v
  }

  function Revision(v: string): string {
    if LastIndex(v, '-') > 0 then v[LastIndex(v, '-')..] else ""
  }

  function CmpKey(x: VersionKey, y: VersionKey): int {
    if x.epoch != y.epoch then Sign(x.epoch as int - y.epoch as int)
    else if Cmp(x.upstream, y.upstream) != 0 then Cmp(x.upstream, y.upstream)
    else Cmp(x.revision, y.revision)
  }

  /** strchr */
  method StrChr(s: string, c: char) returns (n: nat)
    ensures n == FirstIndex(s, c)
  {
    n := 0;
    while n < |s| && s[n] != c
      invariant n <= |s| && forall i :: 0 <= i < n ==> s[i] != c
    {
      n := n + 1;
    }
    FirstUnique(s, c, n);
  }

  lemma FirstUnique(s: string, c: char, n: nat)
    requires n <= |s| && (n < |s| ==> s[n] == c) && forall i :: 0 <= i < n ==> s[i] != c
    ensures n == FirstIndex(s, c)
  {
    var m := FirstIndex(s, c);
  }

  /** strrchr, counting from 1. */
  method StrRChr(s: string, c: char) returns (n: nat)
    ensures n == LastIndex(s, c)
  {
    n := |s|;
    while n > 0 && s[n - 1] != c
      invariant n <= |s| && forall i :: n <= i < |s| ==> s[i] != c
    {
      n := n - 1;
    }
    LastUnique(s, c, n);
  }

  lemma LastUnique(s: string, c: char, n: nat)
    requires n <= |s| && (n > 0 ==> s[n - 1] == c) && forall i :: n <= i < |s| ==> s[i] != c
    ensures n == LastIndex(s, c)
  {
    var m := LastIndex(s, c);
  }

  /** Cuts the epoch off the front of a version. */
  method SplitEpoch(v: string) returns (epoch: nat, rest: string)
    requires CText(v)
    ensures epoch == EpochOf(v) && rest == AfterEpoch(v) && CText(rest)
  {
    hide FirstIndex, Atoi;
    epoch, rest := 0, v;
    var colon := StrChr(v, ':');
    if colon < |v| {
      epoch := U32(Atoi(v));
      rest := v[colon + 1..];
    }
  }

  /** Cuts the Debian revision off the end. */
  method SplitRevision(v: string) returns (upstream: string, deb: string)
    requires CText(v)
    ensures upstream == Upstream(v) && CText(upstream) && deb == Revision(v) && CText(deb)
  {
    hide LastIndex;
    upstream, deb := v, "";
    var dash := StrRChr(v, '-');
    if dash > 0 {
      deb := v[dash..];
      upstream := v[..dash - 1];
    }
  }

  // ----- versions as they are written

  /** A version in its parts: the text of the epoch, if there is one, the upstream version,
      and the Debian revision, if there is one. */
  datatype Version = Version(epoch: Option<string>, upstream: string, revision: Option<string>)

  function WriteVersion(v: Version): string {
    (if v.epoch.Some? then v.epoch.value + ":" else "") + WriteRest(v.upstream, v.revision)
  }

  function WriteRest(upstream: string, revision: Option<string>): string {
    upstream + (if revision.Some? then "-" + revision.value else "")
  }

  /** Each part ends where the next one begins: the first colon is behind the epoch, and the
      last hyphen in front of the revision. */
  predicate Parted(v: Version) {
    (if v.epoch.Some? then ':' !in v.epoch.value else ':' !in WriteRest(v.upstream, v.revision))
    && (if v.revision.Some? then '-' !in v.revision.value else '-' !in v.upstream)
  }

  /** The number of an epoch; no epoch is epoch 0. */
  function EpochNumber(epoch: Option<string>): Word {
    if epoch.Some? then U32(Atoi(epoch.value)) else 0
  }

  /** Debian Policy section 5.6.12: the epochs as numbers; then, by the rule for parts, the
      upstream versions; then the revisions, where none counts as the empty text. */
  function VersionOrder(v: Version, w: Version): int {
    var e, f := EpochNumber(v.epoch) as int, EpochNumber(w.epoch) as int;
    var upstream := Policy(v.upstream, w.upstream);
    if e < f then -1
    else if e > f then 1
    else if upstream != 0 then upstream
    else Policy(if v.revision.Some? then v.revision.value else "", if w.revision.Some? then w.revision.value else "")
  }

  /** Every text is a version, in one way. */
  lemma EveryVersion(s: string) returns (v: Version)
    ensures Parted(v) && WriteVersion(v) == s
  {
    hide FirstIndex, LastIndex;
    var i := FirstIndex(s, ':');
    var rest := AfterEpoch(s);
    var j := LastIndex(rest, '-');
    v := Version(if i < |s| then Some(s[..i]) else None, Upstream(rest), if j > 0 then Some(Revision(rest)) else None);
    assert WriteRest(v.upstream, v.revision) == rest;
    assert i < |s| ==> s == s[..i] + ":" + rest;
  }

  lemma AtoiDigits(t: string)
    requires t != [] && DigitRun(t) == |t|
    ensures Atoi(t) == Value(t)
  {
    assert Digit(t[0]) && t[0..] == t;
    assert t[0..0 + DigitRun(t[0..])] == t;
    hide Value, DigitRun;
  }

  lemma EpochIs(t: string, n: Word)
    requires Atoi(t) == n
    ensures EpochNumber(Some(t)) == n
  {
    hide Atoi;
  }

  /** The number of an epoch is the number its digits write. */
  lemma EpochReads(n: Word)
    ensures EpochNumber(Some(NatText(n))) == n
  {
    hide *;
    NatTextReads(n);
    AtoiDigits(NatText(n));
    EpochIs(NatText(n), n);
  }

  /** atoi stops at a colon. */
  lemma {:induction false} AtoiToColon(e: string, rest: string)
    requires ':' !in e
    ensures Atoi(e + (":" + rest)) == Atoi(e)
  {
    var s := e + (":" + rest);
    if e == [] {
      NumberToColon(e, rest, 0);
      assert s[0] == ':' && Number(e, 0) == 0;
    } else {
      assert s[0] == e[0];
      if Space(e[0]) {
        AtoiToColon(e[1..], rest);
        assert s[1..] == e[1..] + (":" + rest);
      } else {
        NumberToColon(e, rest, 0);
        NumberToColon(e, rest, 1);
      }
    }
  }

  lemma RunToColon(t: string, rest: string)
    ensures DigitRun(t + (":" + rest)) == DigitRun(t)
  {
    hide DigitRun;
    RunUnique(t + (":" + rest), DigitRun(t));
  }

  lemma NumberToColon(e: string, rest: string, i: nat)
    requires i <= |e| && ':' !in e
    ensures Number(e + (":" + rest), i) == Number(e, i)
  {
    hide Value, DigitRun;
    var s, t := e + (":" + rest), e[i..];
    assert s[i..] == t + (":" + rest);
    RunToColon(t, rest);
    assert s[i..i + DigitRun(t)] == e[i..i + DigitRun(t)];
  }

  /** The parts of a version are found again. */
  lemma PartsFound(v: Version)
    requires Parted(v)
    ensures EpochOf(WriteVersion(v)) == EpochNumber(v.epoch)
    ensures AfterEpoch(WriteVersion(v)) == WriteRest(v.upstream, v.revision)
  {
    var s, rest := WriteVersion(v), WriteRest(v.upstream, v.revision);
    hide WriteRest, FirstIndex, Atoi;
    if v.epoch.Some? {
      var e := v.epoch.value;
      assert s == e + (":" + rest);
      FirstUnique(s, ':', |e|);
      AtoiToColon(e, rest);
      assert s[|e| + 1..] == rest;
    } else {
      assert s == rest;
      FirstUnique(s, ':', |s|);
    }
  }

  lemma RestFound(upstream: string, revision: Option<string>)
    requires if revision.Some? then '-' !in revision.value else '-' !in upstream
    ensures Upstream(WriteRest(upstream, revision)) == upstream
    ensures Revision(WriteRest(upstream, revision)) == if revision.Some? then revision.value else ""
  {
    var s := WriteRest(upstream, revision);
    hide LastIndex;
    if revision.Some? {
      LastUnique(s, '-', |upstream| + 1);
    } else {
      assert s == upstream;
      LastUnique(s, '-', 0);
    }
  }

  /** version_compare orders versions by their parts. */
  lemma OrderIs(v: Version, w: Version)
    requires Parted(v) && Parted(w) && CText(WriteVersion(v)) && CText(WriteVersion(w))
    ensures CmpKey(KeyOf(WriteVersion(v)), KeyOf(WriteVersion(w))) == VersionOrder(v, w)
  {
    hide WriteVersion, WriteRest, EpochNumber, EpochOf, AfterEpoch, Upstream, Revision, Rank, Cmp, Policy, CText;
    PartsFound(v);
    PartsFound(w);
    PartedRest(v);
    PartedRest(w);
    RestFound(v.upstream, v.revision);
    RestFound(w.upstream, w.revision);
    PartsCText(v);
    PartsCText(w);
    PolicyIsCmp(v.upstream, w.upstream);
    PolicyIsCmp(if v.revision.Some? then v.revision.value else "", if w.revision.Some? then w.revision.value else "");
  }

  lemma PartedRest(v: Version)
    requires Parted(v)
    ensures if v.revision.Some? then '-' !in v.revision.value else '-' !in v.upstream
  {
  }

  lemma PartsCText(v: Version)
    requires CText(WriteVersion(v))
    ensures CText(v.upstream) && CText(if v.revision.Some? then v.revision.value else "")
  {
    var s := WriteVersion(v);
    var k := if v.epoch.Some? then |v.epoch.value| + 1 else 0;
    assert s[k..] == WriteRest(v.upstream, v.revision);
    assert s[k..k + |v.upstream|] == v.upstream;
    if v.revision.Some? {
      assert s[k + |v.upstream| + 1..] == v.revision.value;
    }
  }

  /** version_compare, on the strings its arguments stand for. */
  method VersionCompare(ver1: string, ver2: string) returns (result: int)
    requires CText(ver1) && CText(ver2)
    ensures Sign(result) == CmpKey(KeyOf(ver1), KeyOf(ver2))
    ensures forall v, w :: Parted(v) && Parted(w) && WriteVersion(v) == ver1 && WriteVersion(w) == ver2 ==>
              Sign(result) == VersionOrder(v, w)
  {
    hide Cmp, Rank, CText, EpochOf, AfterEpoch, Upstream, Revision, Parted, WriteVersion, VersionOrder;
    forall v, w | Parted(v) && Parted(w) && WriteVersion(v) == ver1 && WriteVersion(w) == ver2
      ensures CmpKey(KeyOf(ver1), KeyOf(ver2)) == VersionOrder(v, w)
    {
      OrderIs(v, w);
    }
    var epoch1, rest1 := SplitEpoch(ver1);
    var epoch2, rest2 := SplitEpoch(ver2);
    var upstream1, deb1 := SplitRevision(rest1);
    var upstream2, deb2 := SplitRevision(rest2);
    if epoch1 < epoch2 {
      return -1;
    }
    if epoch1 > epoch2 {
      return 1;
    }
    result := VersionComparePart(upstream1, upstream2);
    if result == 0 {
      result := VersionComparePart(deb1, deb2);
    }
  }

  /** The order of versions is total: it is antisymmetric in sign, */
  lemma KeyAntisymmetric(x: VersionKey, y: VersionKey)
    ensures CmpKey(y, x) == -CmpKey(x, y)
  {
    CmpAntisymmetric(x.upstream, y.upstream);
    CmpAntisymmetric(x.revision, y.revision);
    hide Cmp;
  }

  /** and transitive. */
  lemma KeyTransitive(x: VersionKey, y: VersionKey, z: VersionKey)
    requires CmpKey(x, y) <= 0 && CmpKey(y, z) <= 0
    ensures CmpKey(x, z) <= 0 && (CmpKey(x, z) == 0 ==> CmpKey(x, y) == 0 && CmpKey(y, z) == 0)
  {
    if x.epoch == y.epoch == z.epoch {
      CmpTransitive(x.upstream, y.upstream, z.upstream);
      if Cmp(x.upstream, z.upstream) == 0 {
        CmpTransitive(x.revision, y.revision, z.revision);
      }
    }
    hide Cmp;
  }

  // ----- test_version

  const VER_EQUAL: nat := 1
  const VER_LESS: nat := 2
  const VER_LESS_EQUAL: nat := 3
  const VER_MORE: nat := 4
  const VER_MORE_EQUAL: nat := 5
  const VER_ANY: nat := 6

  /** What the numbers of the operators ask of an order. */
  predicate AsksFor(op: nat, c: int) {
    op == VER_ANY || (op == VER_EQUAL && c == 0) || (op == VER_LESS && c < 0) || (op == VER_LESS_EQUAL && c <= 0)
    || (op == VER_MORE && c > 0) || (op == VER_MORE_EQUAL && c >= 0)
  }

  predicate Accepts(version: string, wanted: string, op: nat) {
    AsksFor(op, CmpKey(KeyOf(version), KeyOf(wanted)))
  }

  /** The relation written with an operator holds, where the versions stand in that order. */
  predicate Relates(relation: string, order: int) {
    match relation
    case "=" => order == 0
    case "<<" => order < 0
    case "<=" => order <= 0
    case ">>" => order > 0
    case ">=" => order >= 0
    case _ => relation == ""
  }

  /** The number of an operator. */
  function OperatorNumber(relation: string): nat {
    match relation
    case "=" => VER_EQUAL
    case "<<" => VER_LESS
    case "<=" => VER_LESS_EQUAL
    case ">>" => VER_MORE
    case ">=" => VER_MORE_EQUAL
    case _ => VER_ANY
  }

  lemma AcceptsBy(version: string, wanted: string, op: nat)
    ensures Accepts(version, wanted, op) == AsksFor(op, CmpKey(KeyOf(version), KeyOf(wanted)))
  {
    hide CmpKey, KeyOf;
  }

  lemma RelatesIs(relation: string, c: int)
    requires relation in ["", "=", "<<", "<=", ">>", ">="]
    ensures Relates(relation, c) == AsksFor(OperatorNumber(relation), c)
  {
  }

  /** A version is accepted exactly if the relation holds between it and the one wanted. */
  lemma AcceptsIs(v: Version, relation: string, w: Version)
    requires Parted(v) && Parted(w) && CText(WriteVersion(v)) && CText(WriteVersion(w))
    requires relation in ["", "=", "<<", "<=", ">>", ">="]
    ensures Accepts(WriteVersion(v), WriteVersion(w), OperatorNumber(relation)) <==> Relates(relation, VersionOrder(v, w))
  {
    hide *;
    OrderIs(v, w);
    AcceptsBy(WriteVersion(v), WriteVersion(w), OperatorNumber(relation));
    RelatesIs(relation, VersionOrder(v, w));
  }

  /** test_version */
  method TestVersion(version1: string, version2: string, operator: nat) returns (r: bool)
    requires CText(version1) && CText(version2)
    ensures r == Accepts(version1, version2, operator)
  {
    hide KeyOf, CmpKey;
    var result := VersionCompare(version1, version2);
    if operator == VER_ANY {
      return true;
    }
    r := if operator == VER_EQUAL then result == 0
         else if operator == VER_LESS then result < 0
         else if operator == VER_LESS_EQUAL then result <= 0
         else if operator == VER_MORE then result > 0
         else if operator == VER_MORE_EQUAL then result >= 0
         else false;
  }
}
