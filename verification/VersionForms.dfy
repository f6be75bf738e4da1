/** When the code takes two version parts for the same: exactly when they have the same
    canonical form. */
module VersionForms {
  import opened Bits
  import opened Versions

  /** A number without the zeros it begins with. */
  function Significant(s: string): string {
    if s == [] || s[0] != '0' then s else Significant(s[1..])
  }

  /** Leading zeros of numbers are dropped; a number that is zero stays as one zero, or
      vanishes at the end of the part. */
  function Canon(s: string): string
    decreases |s|
  {
    if s == [] then []
    else if !Digit(s[0]) then [s[0]] + Canon(s[1..])
    else WithNumber(Significant(s[..DigitRun(s)]), Canon(s[DigitRun(s)..]))
  }

  function WithNumber(digits: string, rest: string): string {
    if digits != [] then digits + rest else if rest != [] then "0" + rest else []
  }

  predicate AllDigits(s: string) {
    forall i :: 0 <= i < |s| ==> Digit(s[i])
  }

  /** Digits that do not begin with a zero. */
  predicate Reduced(s: string) {
    AllDigits(s) && (s != [] ==> s[0] != '0')
  }

  lemma {:induction false} SignificantIs(s: string)
    requires AllDigits(s)
    ensures Reduced(Significant(s)) && Value(Significant(s)) == Value(s)
  {
    if s != [] && s[0] == '0' {
      ValueMore(s, 1);
      SignificantIs(s[1..]);
    }
  }

  lemma {:induction false} Pow10Increases(a: nat, b: nat)
    requires a <= b
    ensures 1 <= Pow10(a) <= Pow10(b)
    decreases b
  {
    if a < b {
      Pow10Increases(a, b - 1);
    } else if a > 0 {
      Pow10Increases(a - 1, b - 1);
    }
  }

  lemma LengthFromValue(x: string, y: string)
    requires Reduced(x) && Reduced(y) && Value(x) == Value(y)
    ensures |x| <= |y|
  {
    hide Value, Pow10;
    if |x| > |y| {
      ValueLow(x);
      ValueBound(y);
      Pow10Increases(|y|, |x| - 1);
    }
  }

  /** Digits of one length that have the same value are the same. */
  lemma {:induction false} DigitsFromValue(x: string, y: string)
    requires AllDigits(x) && AllDigits(y) && |x| == |y| && Value(x) == Value(y)
    ensures x == y
    decreases |x|
  {
    if x != [] {
      var n := |x| - 1;
      LastDigit(x, y);
      DigitsFromValue(x[..n], y[..n]);
      assert x == x[..n] + [x[n]] && y == y[..n] + [y[n]];
    }
  }

  lemma LastDigit(x: string, y: string)
    requires x != [] && y != [] && AllDigits(x) && AllDigits(y) && Value(x) == Value(y)
    ensures x[|x| - 1] == y[|y| - 1] && Value(x[..|x| - 1]) == Value(y[..|y| - 1])
  {
    var c, d := x[|x| - 1], y[|y| - 1];
    assert Digit(c) && Digit(d);
    var u, v, a, b := Value(x[..|x| - 1]), Value(y[..|y| - 1]), c as nat - '0' as nat, d as nat - '0' as nat;
    assert 10 * u + a == 10 * v + b && a < 10 && b < 10;
  }

  lemma SameNumber(x: string, y: string)
    requires AllDigits(x) && AllDigits(y)
    ensures Value(x) == Value(y) <==> Significant(x) == Significant(y)
  {
    hide Value, Significant;
    SignificantIs(x);
    SignificantIs(y);
    var s, t := Significant(x), Significant(y);
    if Value(x) == Value(y) {
      LengthFromValue(s, t);
      LengthFromValue(t, s);
      DigitsFromValue(s, t);
    }
  }

  // ----- one step of the comparison

  /** Nothing but a number that is zero compares as equal to nothing. */
  lemma {:induction false} LikeNothing(s: string)
    requires CText(s)
    ensures Cmp(Rank(s), []) == 0 <==> Canon(s) == []
    decreases |s|
  {
    if s != [] {
      CmpStep(Rank(s), []);
      if !Digit(s[0]) {
        RankHead(s, 0);
        assert s[0..] == s;
      } else {
        var n := DigitRun(s);
        NumberStep(s);
        StillCText(s, n);
        CmpStep(Tail(Rank(s)), []);
        LikeNothing(s[n..]);
        SignificantIs(s[..n]);
        NoDigits(s[..n]);
      }
    }
  }

  lemma NoDigits(s: string)
    requires AllDigits(s)
    ensures Value(s) == 0 <==> Significant(s) == []
  {
    SameNumber(s, []);
  }

  lemma NumberStep(s: string)
    requires s != [] && Digit(s[0])
    ensures 0 < DigitRun(s) && AllDigits(s[..DigitRun(s)])
    ensures Head(Rank(s)) == 0 && Head(Tail(Rank(s))) == Value(s[..DigitRun(s)])
    ensures Tail(Tail(Rank(s))) == Rank(s[DigitRun(s)..]) && Rank(s) != [] && Tail(Rank(s)) != []
  {
    RankDigits(s);
    hide Rank, Value;
  }

  lemma TextStep(s: string)
    requires s != [] && !Digit(s[0]) && CText(s)
    ensures Head(Rank(s)) == Order(s[0]) != 0 && Tail(Rank(s)) == Rank(s[1..])
    ensures Canon(s) == [s[0]] + Canon(s[1..])
  {
    RankNonDigit(s, 0);
    assert s[0..] == s;
    hide Rank;
  }

  /** Characters that are not digits are told apart by their orders. */
  lemma OrderTells(c: char, d: char)
    requires !Digit(c) && !Digit(d) && '\0' < c < 256 as char && '\0' < d < 256 as char
    ensures Order(c) == Order(d) <==> c == d
  {
  }

  /** A canonical form begins with a digit only if the part does. */
  lemma CanonFirst(s: string)
    requires s != [] && Canon(s) != []
    ensures Digit(Canon(s)[0]) <==> Digit(s[0])
  {
    if Digit(s[0]) {
      SignificantIs(s[..DigitRun(s)]);
    }
  }

  lemma DigitsSplit(x: string, a: string, y: string, b: string)
    requires AllDigits(x) && AllDigits(y)
    requires (a == [] || !Digit(a[0])) && (b == [] || !Digit(b[0]))
    ensures x + a == y + b <==> x == y && a == b
  {
    if x + a == y + b {
      RunUnique(x + a, |x|);
      RunUnique(y + b, |y|);
      assert x == (x + a)[..|x|] && y == (y + b)[..|y|];
      assert a == (x + a)[|x|..] && b == (y + b)[|y|..];
    }
  }

  /** The parts of a canonical form that begins with a number can be told from it. */
  lemma NumbersTell(x: string, a: string, y: string, b: string)
    requires Reduced(x) && Reduced(y)
    requires (a == [] || !Digit(a[0])) && (b == [] || !Digit(b[0]))
    ensures WithNumber(x, a) == WithNumber(y, b) <==> x == y && a == b
  {
    var u, v := if x == [] && a != [] then "0" else x, if y == [] && b != [] then "0" else y;
    assert WithNumber(x, a) == u + a && WithNumber(y, b) == v + b;
    DigitsSplit(u, a, v, b);
  }

  /** The code takes two parts for the same exactly if they have the same canonical form. */
  lemma {:induction false} SameForm(a: string, b: string)
    requires CText(a) && CText(b)
    ensures Cmp(Rank(a), Rank(b)) == 0 <==> Canon(a) == Canon(b)
    decreases |a| + |b|
  {
    if a == [] {
      LikeNothing(b);
      CmpAntisymmetric(Rank(b), []);
    } else if b == [] {
      LikeNothing(a);
    } else if Digit(a[0]) && Digit(b[0]) {
      SameFormNumbers(a, b);
    } else if !Digit(a[0]) && !Digit(b[0]) {
      TextStep(a);
      TextStep(b);
      OrderTells(a[0], b[0]);
      StillCText(a, 1);
      StillCText(b, 1);
      SameForm(a[1..], b[1..]);
      hide *;
      CmpStep(Rank(a), Rank(b));
      HeadsTell(a[0], Canon(a[1..]), b[0], Canon(b[1..]));
    } else {
      DifferentKinds(a, b);
    }
  }

  lemma HeadsTell(c: char, a: string, d: char, b: string)
    ensures [c] + a == [d] + b <==> c == d && a == b
  {
    assert ([c] + a)[0] == c && ([d] + b)[0] == d && ([c] + a)[1..] == a && ([d] + b)[1..] == b;
  }

  lemma DifferentKinds(a: string, b: string)
    requires CText(a) && CText(b) && a != [] && b != [] && (Digit(a[0]) <==> !Digit(b[0]))
    ensures Cmp(Rank(a), Rank(b)) != 0 && Canon(a) != Canon(b)
  {
    RankHead(a, 0);
    RankHead(b, 0);
    assert a[0..] == a && b[0..] == b;
    hide Rank, CText;
    CmpStep(Rank(a), Rank(b));
    if Canon(a) == Canon(b) {
      assert Canon(a) != [];
      CanonFirst(a);
      CanonFirst(b);
    }
  }

  lemma SameFormNumbers(a: string, b: string)
    requires CText(a) && CText(b) && a != [] && b != [] && Digit(a[0]) && Digit(b[0])
    ensures Cmp(Rank(a), Rank(b)) == 0 <==> Canon(a) == Canon(b)
    decreases |a| + |b|, 0
  {
    var m, n := DigitRun(a), DigitRun(b);
    NumberStep(a);
    NumberStep(b);
    StillCText(a, m);
    StillCText(b, n);
    SameForm(a[m..], b[n..]);
    SameNumber(a[..m], b[..n]);
    SignificantIs(a[..m]);
    SignificantIs(b[..n]);
    RestFirst(a);
    RestFirst(b);
    hide Rank, Value, Significant, CText, Reduced;
    CmpStep(Rank(a), Rank(b));
    CmpStep(Tail(Rank(a)), Tail(Rank(b)));
    NumbersTell(Significant(a[..m]), Canon(a[m..]), Significant(b[..n]), Canon(b[n..]));
  }

  lemma RestFirst(s: string)
    ensures var rest := Canon(s[DigitRun(s)..]); rest == [] || !Digit(rest[0])
  {
    var t := s[DigitRun(s)..];
    if t != [] && Canon(t) != [] {
      CanonFirst(t);
    }
  }
}
