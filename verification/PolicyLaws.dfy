/** The rule for comparing the parts of versions, as section 5.6.12 of the Debian Policy
    Manual puts it: what decides, character by character and number by number. */
module PolicyLaws {
  import opened Bits
  import opened Versions

  predicate NoDigitFirst(x: string) {
    x == "" || !Digit(x[0])
  }

  lemma {:induction false} RankConcat(a: string, x: string)
    requires NoDigitFirst(x)
    ensures Rank(a + x) == Rank(a) + Rank(x)
    decreases |a|
  {
    hide Rank, Value, Order;
    if a == "" {
      RankNone();
      assert a + x == x;
    } else if !Digit(a[0]) {
      RankConcat(a[1..], x);
      assert (a + x)[1..] == a[1..] + x;
      RankText(a);
      RankText(a + x);
    } else {
      var n := DigitRun(a);
      RunStops(a, x);
      RankConcat(a[n..], x);
      assert (a + x)[..n] == a[..n] && (a + x)[n..] == a[n..] + x;
      RankDigits(a);
      RankDigits(a + x);
    }
  }

  lemma RankNone()
    ensures Rank("") == []
  {
  }

  lemma RunStops(a: string, x: string)
    requires a != "" && Digit(a[0]) && NoDigitFirst(x)
    ensures 0 < DigitRun(a) == DigitRun(a + x)
  {
    var n := DigitRun(a);
    RunUnique(a + x, n);
  }

  lemma RankText(s: string)
    requires s != "" && !Digit(s[0])
    ensures Rank(s) == [Order(s[0])] + Rank(s[1..])
  {
    hide Value, Order;
  }

  lemma {:induction false} CmpPrefix(p: seq<int>, u: seq<int>, v: seq<int>)
    ensures Cmp(p + u, p + v) == Cmp(u, v)
    decreases |p|
  {
    if p == [] {
      assert p + u == u && p + v == v;
    } else {
      CmpPrefix(p[1..], u, v);
      assert Tail(p + u) == p[1..] + u && Tail(p + v) == p[1..] + v;
    }
  }

  /** What two parts have in common in front does not matter. */
  lemma CommonPrefix(a: string, x: string, y: string)
    requires CText(a + x) && CText(a + y) && CText(x) && CText(y) && NoDigitFirst(x) && NoDigitFirst(y)
    ensures Policy(a + x, a + y) == Policy(x, y)
  {
    hide Policy, Rank, Cmp, CText;
    PolicyIsCmp(a + x, a + y);
    PolicyIsCmp(x, y);
    RankConcat(a, x);
    RankConcat(a, y);
    CmpPrefix(Rank(a), Rank(x), Rank(y));
  }

  /** A tilde comes before anything else, even before the end. */
  lemma TildeFirst(x: string, y: string)
    requires CText(x) && CText(y) && x != "" && x[0] == '~' && (y == "" || y[0] != '~')
    ensures Policy(x, y) == -1
  {
    PolicyIsCmp(x, y);
    FirstRank(x);
    FirstRank(y);
    hide Policy, Rank, Value;
  }

  /** The end, or a number, comes before any other character. */
  lemma EndNext(x: string, y: string)
    requires CText(x) && CText(y) && (x == "" || Digit(x[0])) && y != "" && y[0] != '~' && !Digit(y[0])
    ensures Policy(x, y) == -1
  {
    PolicyIsCmp(x, y);
    FirstRank(x);
    FirstRank(y);
    hide Policy, Rank, Value;
  }

  /** Letters come before what is neither letter nor digit; among themselves, letters and
      such characters are in the order of ASCII. */
  lemma LettersNext(x: string, y: string)
    requires CText(x) && CText(y) && x != "" && y != "" && x[0] != '~' && y[0] != '~' && !Digit(x[0]) && !Digit(y[0])
    ensures var a := 'a' <= x[0] <= 'z' || 'A' <= x[0] <= 'Z'; var b := 'a' <= y[0] <= 'z' || 'A' <= y[0] <= 'Z';
            (if a == b then x[0] < y[0] else a) ==> Policy(x, y) == -1
  {
    PolicyIsCmp(x, y);
    FirstRank(x);
    FirstRank(y);
    hide Policy, Rank, Value;
  }

  lemma FirstRank(x: string)
    requires CText(x)
    ensures Head(Rank(x)) == if x == "" || Digit(x[0]) then 0 else Order(x[0])
    ensures x == "" <==> Rank(x) == []
  {
    hide Value;
  }

  /** Numbers are compared by value, and what follows them decides if they are equal. */
  lemma NumbersDecide(t: string, u: string, x: string, y: string)
    requires CText(t + x) && CText(u + y) && CText(x) && CText(y) && NoDigitFirst(x) && NoDigitFirst(y)
    requires t != "" && u != "" && DigitRun(t) == |t| && DigitRun(u) == |u|
    ensures Policy(t + x, u + y)
         == if Value(t) < Value(u) then -1 else if Value(t) > Value(u) then 1 else Policy(x, y)
  {
    hide Policy, Value, CText;
    PolicyIsCmp(t + x, u + y);
    PolicyIsCmp(x, y);
    NumberRank(t, x);
    NumberRank(u, y);
    hide Rank, DigitRun;
    CmpTwo(Rank(t + x), Value(t), Rank(x), Rank(u + y), Value(u), Rank(y));
  }

  lemma NumberRank(t: string, x: string)
    requires t != "" && DigitRun(t) == |t| && NoDigitFirst(x)
    ensures Rank(t + x) == [0, Value(t)] + Rank(x)
  {
    assert Digit(t[0]);
    RankConcat(t, x);
    RankDigits(t);
    assert t[..|t|] == t && t[|t|..] == "" && Rank("") == [];
    hide Value, Rank;
  }

  lemma CmpTwo(a: seq<int>, m: nat, x: seq<int>, b: seq<int>, n: nat, y: seq<int>)
    requires a == [0, m] + x && b == [0, n] + y
    ensures Cmp(a, b) == if m < n then -1 else if m > n then 1 else Cmp(x, y)
  {
    assert Tail(a) == [m] + x && Tail(b) == [n] + y;
    assert Tail(Tail(a)) == x && Tail(Tail(b)) == y;
  }
}
