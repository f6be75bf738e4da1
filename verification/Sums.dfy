/** Sums over lists of node numbers; only which nodes occur matters, not their order. */
module Sums {

  function Sum(s: seq<nat>, f: nat -> int): int {
    if s == [] then 0 else f(s[0]) + Sum(s[1..], f)
  }

  lemma {:induction false} SumConcat(a: seq<nat>, b: seq<nat>, f: nat -> int)
    ensures Sum(a + b, f) == Sum(a, f) + Sum(b, f)
  {
    if a == [] {
      assert a + b == b;
    } else {
      SumConcat(a[1..], b, f);
      assert (a + b)[1..] == a[1..] + b;
    }
  }

  lemma SumOne(x: nat, f: nat -> int)
    ensures Sum([x], f) == f(x)
  {
    assert [x][1..] == [];
  }

  lemma SumSnoc(a: seq<nat>, x: nat, f: nat -> int)
    ensures Sum(a + [x], f) == Sum(a, f) + f(x)
  {
    SumConcat(a, [x], f);
    SumOne(x, f);
  }

  lemma SumHead(s: seq<nat>, f: nat -> int)
    requires s != []
    ensures Sum(s, f) == f(s[0]) + Sum(s[1..], f)
  {
  }

  lemma SumDrop(s: seq<nat>, i: nat, f: nat -> int)
    requires i < |s|
    ensures Sum(s, f) == f(s[i]) + Sum(s[..i] + s[i + 1..], f)
  {
    assert s == s[..i] + ([s[i]] + s[i + 1..]);
    SumConcat(s[..i], [s[i]] + s[i + 1..], f);
    SumConcat([s[i]], s[i + 1..], f);
    SumConcat(s[..i], s[i + 1..], f);
    SumOne(s[i], f);
  }

  lemma MultisetFirst<T>(a: seq<T>)
    requires a != []
    ensures multiset(a) == multiset{a[0]} + multiset(a[1..])
  {
    assert a == [a[0]] + a[1..];
  }

  lemma Cancel<T>(x: multiset<T>, a: multiset<T>, b: multiset<T>)
    requires x + a == x + b
    ensures a == b
  {
    assert a == (x + a) - x;
    assert b == (x + b) - x;
  }

  lemma PermDrop<T>(a: seq<T>, b: seq<T>, i: nat)
    requires multiset(a) == multiset(b) && a != [] && i < |b| && b[i] == a[0]
    ensures multiset(a[1..]) == multiset(b[..i] + b[i + 1..])
  {
    MultisetRemove(b, i);
    MultisetFirst(a);
    Cancel(multiset{a[0]}, multiset(a[1..]), multiset(b[..i] + b[i + 1..]));
  }

  /** Only which elements occur how often matters. */
  lemma {:induction false} SumPerm(a: seq<nat>, b: seq<nat>, f: nat -> int)
    requires multiset(a) == multiset(b)
    ensures Sum(a, f) == Sum(b, f)
    decreases |a|
  {
    if a == [] {
      assert |multiset(b)| == 0;
    } else {
      assert a[0] in multiset(b);
      var i :| 0 <= i < |b| && b[i] == a[0];
      PermDrop(a, b, i);
      SumPerm(a[1..], b[..i] + b[i + 1..], f);
      SumDrop(b, i, f);
    }
  }

  lemma MultisetRemove<T>(b: seq<T>, i: nat)
    requires i < |b|
    ensures multiset(b) == multiset{b[i]} + multiset(b[..i] + b[i + 1..])
  {
    assert b == b[..i] + [b[i]] + b[i + 1..];
  }

  lemma {:induction false} SumCong(s: seq<nat>, f: nat -> int, g: nat -> int)
    requires forall x :: x in s ==> f(x) == g(x)
    ensures Sum(s, f) == Sum(s, g)
  {
    if s != [] {
      SumCong(s[1..], f, g);
    }
  }

  lemma {:induction false} SumPlus(s: seq<nat>, f: nat -> int, g: nat -> int, h: nat -> int)
    requires forall x :: x in s ==> h(x) == f(x) + g(x)
    ensures Sum(s, h) == Sum(s, f) + Sum(s, g)
  {
    if s != [] {
      SumPlus(s[1..], f, g, h);
    }
  }

  lemma {:induction false} SumZero(s: seq<nat>, f: nat -> int)
    requires forall x :: x in s ==> f(x) == 0
    ensures Sum(s, f) == 0
  {
    if s != [] {
      SumZero(s[1..], f);
    }
  }

  lemma {:induction false} SumNonNegative(s: seq<nat>, f: nat -> int)
    requires forall x :: x in s ==> f(x) >= 0
    ensures Sum(s, f) >= 0
    ensures forall x :: x in s ==> f(x) <= Sum(s, f)
  {
    if s != [] {
      SumNonNegative(s[1..], f);
    }
  }

  /** a, a + 1, ..., b - 1 */
  function Range(a: nat, b: nat): (r: seq<nat>)
    requires a <= b
    ensures |r| == b - a && forall i :: 0 <= i < |r| ==> r[i] == a + i
    decreases b - a
  {
    if a == b then [] else Range(a, b - 1) + [b - 1]
  }

  lemma RangeMembers(a: nat, b: nat)
    requires a <= b
    ensures forall x: nat :: x in Range(a, b) <==> a <= x < b
  {
    forall x: nat | a <= x < b ensures x in Range(a, b) {
      assert Range(a, b)[x - a] == x;
    }
  }

  ghost predicate Distinct<T>(s: seq<T>) {
    forall i, j :: 0 <= i < j < |s| ==> s[i] != s[j]
  }

  lemma {:induction false} DistinctMultiset<T>(s: seq<T>)
    ensures Distinct(s) <==> forall x :: x in multiset(s) ==> multiset(s)[x] == 1
  {
    if s != [] {
      var t, x := s[1..], s[0];
      assert s == [x] + t;
      DistinctMultiset(t);
      if Distinct(s) {
        assert forall j :: 0 <= j < |t| ==> t[j] == s[j + 1];
        assert Distinct(t);
        assert x !in t;
      }
      if forall y :: y in multiset(s) ==> multiset(s)[y] == 1 {
        forall y | y in multiset(t) ensures multiset(t)[y] == 1 {
          assert multiset(s)[y] == 1;
        }
        assert multiset(s)[x] == 1;
        assert x !in multiset(t);
        forall i, j | 0 <= i < j < |s| ensures s[i] != s[j] {
          assert s[j] == t[j - 1] && t[j - 1] in t;
          if i > 0 {
            assert s[i] == t[i - 1];
          }
        }
      }
    }
  }

  lemma {:induction false} DistinctDrop<T>(s: seq<T>, i: nat)
    requires Distinct(s) && i < |s|
    ensures Distinct(s[..i] + s[i + 1..]) && s[i] !in s[..i] + s[i + 1..]
  {
    var r := s[..i] + s[i + 1..];
    forall j | 0 <= j < |r| ensures r[j] == if j < i then s[j] else s[j + 1] {
    }
  }

  /** Elements where `f` is zero do not matter. */
  lemma {:induction false} SumSupport(a: seq<nat>, b: seq<nat>, f: nat -> int)
    requires Distinct(a) && Distinct(b)
    requires forall x :: x in a ==> x in b
    requires forall x :: x in b && x !in a ==> f(x) == 0
    ensures Sum(a, f) == Sum(b, f)
    decreases |a|
  {
    if a == [] {
      SumZero(b, f);
    } else {
      var x := a[0];
      assert x in b;
      var i :| 0 <= i < |b| && b[i] == x;
      var rest := b[..i] + b[i + 1..];
      DistinctDrop(b, i);
      DistinctDrop(a, 0);
      assert a[..0] + a[1..] == a[1..];
      SumDrop(b, i, f);
      forall y | y in a[1..] ensures y in rest {
        assert y in b && y != x;
        var j :| 0 <= j < |b| && b[j] == y;
        assert rest[if j < i then j else j - 1] == y;
      }
      forall y | y in rest ensures y in b && y != x {
      }
      SumSupport(a[1..], rest, f);
    }
  }

  /** Changing the value at one element changes the sum by as much. */
  lemma SumUpdate(s: seq<nat>, i: nat, f: nat -> int, g: nat -> int)
    requires Distinct(s) && i < |s|
    requires forall x :: x in s && x != s[i] ==> f(x) == g(x)
    ensures Sum(s, g) == Sum(s, f) + g(s[i]) - f(s[i])
  {
    var rest := s[..i] + s[i + 1..];
    DistinctDrop(s, i);
    SumDrop(s, i, f);
    SumDrop(s, i, g);
    forall x | x in rest ensures f(x) == g(x) {
      assert x in s && x != s[i];
    }
    SumCong(rest, f, g);
  }

  lemma TailMembers<T>(s: seq<T>)
    requires s != []
    ensures s[0] in s && forall x :: x in s[1..] ==> x in s
  {
    assert s == [s[0]] + s[1..];
  }

  lemma InSuffix<T>(s: seq<T>, i: nat, x: T)
    requires i <= |s| && x in s && x !in s[..i]
    ensures x in s[i..]
  {
    var j :| 0 <= j < |s| && s[j] == x;
    assert s == s[..i] + s[i..];
  }
}
