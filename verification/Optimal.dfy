/** Why combining the two least frequent nodes gives the shortest total length. */
module Optimality {
  import opened Bits
  import opened Sums

  /** The Kraft sum of a list of lengths, in units of 2^-M. */
  function KraftSum(ls: seq<nat>, M: nat): nat {
    if ls == [] then 0 else (if ls[0] <= M then Pow2(M - ls[0]) else 0) + KraftSum(ls[1..], M)
  }

  /** Lengths that satisfy the Kraft inequality: exactly those a prefix code can have. */
  ghost predicate Feasible(ls: seq<nat>, M: nat) {
    (forall i :: 0 <= i < |ls| ==> ls[i] <= M) && KraftSum(ls, M) <= Pow2(M)
  }

  function Cost(ws: seq<nat>, ls: seq<nat>): nat
    requires |ws| == |ls|
  {
    if ws == [] then 0 else ws[0] * ls[0] + Cost(ws[1..], ls[1..])
  }

  /** No code for symbols of these weights has a total length below `c`. */
  ghost predicate AtLeast(ws: seq<nat>, c: int) {
    forall ls: seq<nat>, M: nat :: |ls| == |ws| && Feasible(ls, M) ==> Cost(ws, ls) >= c
  }

  // ----- changing one length

  lemma {:induction false} KraftUpdate(ls: seq<nat>, M: nat, i: nat, v: nat)
    requires i < |ls| && ls[i] <= M && v <= M
    ensures KraftSum(ls[i := v], M) + Pow2(M - ls[i]) == KraftSum(ls, M) + Pow2(M - v)
    decreases i
  {
    if i > 0 {
      KraftUpdate(ls[1..], M, i - 1, v);
      assert ls[i := v][1..] == ls[1..][i - 1 := v];
    } else {
      assert ls[i := v][1..] == ls[1..];
    }
  }

  lemma {:induction false} CostUpdate(ws: seq<nat>, ls: seq<nat>, i: nat, v: nat)
    requires |ws| == |ls| && i < |ls|
    ensures Cost(ws, ls[i := v]) == Cost(ws, ls) + ws[i] * v - ws[i] * ls[i]
    decreases i
  {
    if i > 0 {
      CostUpdate(ws[1..], ls[1..], i - 1, v);
      assert ls[i := v][1..] == ls[1..][i - 1 := v];
    } else {
      assert ls[i := v][1..] == ls[1..];
    }
  }

  /** One scale down, if nothing is that long. */
  lemma {:induction false} KraftHalve(ls: seq<nat>, M: nat)
    requires M > 0 && forall i :: 0 <= i < |ls| ==> ls[i] < M
    ensures KraftSum(ls, M) == 2 * KraftSum(ls, M - 1)
  {
    if ls != [] {
      KraftHalve(ls[1..], M);
    }
  }

  // ----- the exchange

  function Swap(ls: seq<nat>, i: nat, j: nat): seq<nat>
    requires i < |ls| && j < |ls|
  {
    ls[i := ls[j]][j := ls[i]]
  }

  /** Giving the lighter symbol the longer code costs nothing. */
  lemma SwapCheaper(ws: seq<nat>, ls: seq<nat>, M: nat, i: nat, j: nat)
    requires |ws| == |ls| && i < |ls| && j < |ls| && i != j && Feasible(ls, M)
    requires ws[i] <= ws[j] && ls[i] <= ls[j]
    ensures Feasible(Swap(ls, i, j), M) && Cost(ws, Swap(ls, i, j)) <= Cost(ws, ls)
  {
    hide KraftSum, Cost, Pow2;
    var l1 := ls[i := ls[j]];
    KraftUpdate(ls, M, i, ls[j]);
    KraftUpdate(l1, M, j, ls[i]);
    CostUpdate(ws, ls, i, ls[j]);
    CostUpdate(ws, l1, j, ls[i]);
    Exchange(ws[i], ws[j], ls[i], ls[j]);
  }

  lemma Exchange(u: nat, v: nat, a: nat, b: nat)
    requires u <= v && a <= b
    ensures u * b - u * a + v * a - v * b <= 0
  {
    assert (v - u) * (b - a) >= 0;
    assert (v - u) * (b - a) == v * b - v * a - u * b + u * a;
  }

  /** Two symbols of the greatest length exist, or some length can be cut. */
  ghost predicate Lightest(ws: seq<nat>) {
    |ws| >= 2 && (forall i :: 0 <= i < |ws| ==> ws[0] <= ws[i]) && (forall i :: 1 <= i < |ws| ==> ws[1] <= ws[i])
  }

  function Combined(ws: seq<nat>): seq<nat>
    requires |ws| >= 2
  {
    [ws[0] + ws[1]] + ws[2..]
  }

  lemma KraftTwoFirst(ls: seq<nat>, M: nat)
    requires |ls| >= 2 && ls[0] == M && ls[1] == M && Feasible(ls, M)
    ensures M > 0 && Feasible([M - 1] + ls[2..], M)
  {
    assert ls[1..][1..] == ls[2..];
    assert KraftSum(ls, M) == 2 + KraftSum(ls[2..], M);
    if M > 0 {
      assert ([M - 1] + ls[2..])[1..] == ls[2..];
      assert Pow2(1) == 2;
    }
  }

  lemma CostFirst(ws: seq<nat>, ls: seq<nat>)
    requires |ws| == |ls| > 0
    ensures Cost(ws, ls) == ws[0] * ls[0] + Cost(ws[1..], ls[1..])
  {
  }

  lemma OneLess(a: nat, b: nat, m: nat)
    requires m > 0
    ensures (a + b) * (m - 1) + a + b == a * m + b * m
  {
  }

  lemma CostTwoFirst(ws: seq<nat>, ls: seq<nat>, M: nat)
    requires |ws| == |ls| >= 2 && ls[0] == M && ls[1] == M && M > 0
    ensures Cost(ws, ls) == Cost(Combined(ws), [M - 1] + ls[2..]) + ws[0] + ws[1]
  {
    assert ls[1..][1..] == ls[2..] && ws[1..][1..] == ws[2..];
    assert Combined(ws)[1..] == ws[2..] && ([M - 1] + ls[2..])[1..] == ls[2..];
    CostFirst(ws, ls);
    CostFirst(ws[1..], ls[1..]);
    CostFirst(Combined(ws), [M - 1] + ls[2..]);
    hide Cost;
    OneLess(ws[0], ws[1], M);
  }

  /** When two of the longest codes are there, hand them to the two lightest symbols. */
  lemma JoinLongest(ws: seq<nat>, ls: seq<nat>, M: nat, i: nat, j: nat) returns (ls': seq<nat>)
    requires |ws| == |ls| && Lightest(ws) && Feasible(ls, M)
    requires i < |ls| && j < |ls| && i != j && ls[i] == M && ls[j] == M
    ensures |ls'| == |ws| - 1 && Feasible(ls', M)
    ensures Cost(ws, ls) >= Cost(Combined(ws), ls') + ws[0] + ws[1]
  {
    hide KraftSum, Cost, Combined;
    var l1, q := ls, if i != 0 then i else j;
    if ls[0] != M {
      SwapCheaper(ws, ls, M, 0, i);
      l1, q := Swap(ls, 0, i), j;
    }
    assert l1[0] == M && q != 0 && l1[q] == M;
    var l2 := l1;
    if q != 1 {
      SwapCheaper(ws, l1, M, 1, q);
      l2 := Swap(l1, 1, q);
    }
    KraftTwoFirst(l2, M);
    CostTwoFirst(ws, l2, M);
    ls' := [M - 1] + l2[2..];
  }

  /** Every code for `ws` yields a code for the combined weights that is shorter
      by at least the two lightest weights. */
  lemma {:induction false} CombineLens(ws: seq<nat>, ls: seq<nat>, M: nat) returns (ls': seq<nat>, M': nat)
    requires |ws| == |ls| && Lightest(ws) && Feasible(ls, M)
    ensures |ls'| == |ws| - 1 && Feasible(ls', M')
    ensures Cost(ws, ls) >= Cost(Combined(ws), ls') + ws[0] + ws[1]
    decreases M
  {
    hide KraftSum, Cost, Combined;
    if i :| 0 <= i < |ls| && ls[i] == M {
      if j :| 0 <= j < |ls| && j != i && ls[j] == M {
        ls' := JoinLongest(ws, ls, M, i, j);
        M' := M;
      } else {
        CutSingle(ls, M, i);
        CostUpdate(ws, ls, i, M - 1);
        MulMono(M - 1, M, ws[i]);
        ls', M' := CombineLens(ws, ls[i := M - 1], M - 1);
      }
    } else {
      Shrink(ls, M);
      ls', M' := CombineLens(ws, ls, M - 1);
    }
  }

  lemma Shrink(ls: seq<nat>, M: nat)
    requires ls != [] && Feasible(ls, M) && forall i :: 0 <= i < |ls| ==> ls[i] != M
    ensures M > 0 && Feasible(ls, M - 1)
  {
    assert ls[0] < M;
    KraftHalve(ls, M);
  }

  /** A single longest code can be cut by one: the Kraft sum was odd. */
  lemma CutSingle(ls: seq<nat>, M: nat, i: nat)
    requires |ls| >= 2 && Feasible(ls, M) && i < |ls| && ls[i] == M
    requires forall j :: 0 <= j < |ls| && j != i ==> ls[j] != M
    ensures M > 0 && Feasible(ls[i := M - 1], M - 1)
  {
    var other := if i == 0 then 1 else 0;
    assert ls[other] < M;
    KraftUpdate(ls, M, i, M - 1);
    KraftHalve(ls[i := M - 1], M);
    assert Pow2(1) == 2 && Pow2(0) == 1;
  }

  lemma CombineAtLeast(ws: seq<nat>, c: int)
    requires Lightest(ws) && AtLeast(Combined(ws), c)
    ensures AtLeast(ws, c + ws[0] + ws[1])
  {
    forall ls: seq<nat>, M: nat | |ls| == |ws| && Feasible(ls, M) ensures Cost(ws, ls) >= c + ws[0] + ws[1] {
      var ls', M' := CombineLens(ws, ls, M);
    }
  }

  // ----- order does not matter

  lemma {:induction false} CostDrop(ws: seq<nat>, ls: seq<nat>, i: nat)
    requires |ws| == |ls| && i < |ls|
    ensures Cost(ws, ls) == ws[i] * ls[i] + Cost(ws[..i] + ws[i + 1..], ls[..i] + ls[i + 1..])
  {
    if i == 0 {
      assert ws[..0] + ws[1..] == ws[1..] && ls[..0] + ls[1..] == ls[1..];
    } else {
      CostDrop(ws[1..], ls[1..], i - 1);
      assert (ws[..i] + ws[i + 1..])[1..] == ws[1..][..i - 1] + ws[1..][i..];
      assert (ls[..i] + ls[i + 1..])[1..] == ls[1..][..i - 1] + ls[1..][i..];
    }
  }

  lemma {:induction false} KraftDrop(ls: seq<nat>, M: nat, i: nat)
    requires i < |ls| && ls[i] <= M
    ensures KraftSum(ls, M) == Pow2(M - ls[i]) + KraftSum(ls[..i] + ls[i + 1..], M)
  {
    if i == 0 {
      assert ls[..0] + ls[1..] == ls[1..];
    } else {
      KraftDrop(ls[1..], M, i - 1);
      assert (ls[..i] + ls[i + 1..])[1..] == ls[1..][..i - 1] + ls[1..][i..];
    }
  }

  /** The same lengths for the same weights in another order. */
  lemma {:induction false} PermLens(a: seq<nat>, b: seq<nat>, ls: seq<nat>, M: nat) returns (ls': seq<nat>)
    requires multiset(a) == multiset(b) && |ls| == |b| && forall i :: 0 <= i < |ls| ==> ls[i] <= M
    ensures |ls'| == |a| && Cost(a, ls') == Cost(b, ls) && KraftSum(ls', M) == KraftSum(ls, M)
    ensures forall i :: 0 <= i < |ls'| ==> ls'[i] <= M
    decreases |a|
  {
    if a == [] {
      assert |multiset(b)| == 0;
      ls' := [];
    } else {
      assert a[0] in multiset(b);
      var i :| 0 <= i < |b| && b[i] == a[0];
      PermDrop(a, b, i);
      CostDrop(b, ls, i);
      KraftDrop(ls, M, i);
      assert |multiset(a)| == |multiset(b)|;
      var rest := PermLens(a[1..], b[..i] + b[i + 1..], ls[..i] + ls[i + 1..], M);
      ls' := [ls[i]] + rest;
      assert ls'[1..] == rest;
    }
  }

  lemma AtLeastPerm(a: seq<nat>, b: seq<nat>, c: int)
    requires multiset(a) == multiset(b) && AtLeast(a, c)
    ensures AtLeast(b, c)
  {
    forall ls: seq<nat>, M: nat | |ls| == |b| && Feasible(ls, M) ensures Cost(b, ls) >= c {
      var ls' := PermLens(a, b, ls, M);
      assert |multiset(a)| == |multiset(b)|;
      assert Feasible(ls', M);
    }
  }

  // ----- the whole run

  /** Bounds for `ws` carry over to `ws0`, raised by `acc`. */
  ghost predicate Reduces(ws0: seq<nat>, ws: seq<nat>, acc: int) {
    forall c :: AtLeast(ws, c) ==> AtLeast(ws0, c + acc)
  }

  lemma LightestFirst(n: nat, m: nat, rest: seq<nat>)
    requires n <= m && forall x :: x in rest ==> m <= x
    ensures Lightest([n, m] + rest)
  {
    var s: seq<nat> := [n, m] + rest;
    forall i: nat | 2 <= i < |s| ensures m <= s[i] {
      assert s[i] == rest[i - 2] && rest[i - 2] in rest;
    }
  }

  lemma ReduceStep(ws0: seq<nat>, ws: seq<nat>, ws': seq<nat>, acc: int, n: nat, m: nat, rest: seq<nat>)
    requires Reduces(ws0, ws, acc)
    requires multiset(ws) == multiset([n, m] + rest) && multiset(ws') == multiset([n + m] + rest)
    requires n <= m && forall x :: x in rest ==> m <= x
    ensures Reduces(ws0, ws', acc + n + m)
  {
    var s := [n, m] + rest;
    assert s[2..] == rest;
    forall c | AtLeast(ws', c) ensures AtLeast(ws0, c + (acc + n + m)) {
      AtLeastPerm(ws', [n + m] + rest, c);
      assert Combined(s) == [n + m] + rest;
      LightestFirst(n, m, rest);
      CombineAtLeast(s, c);
      AtLeastPerm(s, ws, c + n + m);
    }
  }

  lemma ReduceDone(ws0: seq<nat>, w: nat, acc: int)
    requires Reduces(ws0, [w], acc)
    ensures AtLeast(ws0, acc)
  {
    assert AtLeast([w], 0);
  }

  // ----- prefix codes satisfy the Kraft inequality

  ghost predicate PrefixCode(words: seq<seq<bool>>) {
    forall i, j :: 0 <= i < |words| && 0 <= j < |words| && i != j ==> !(words[i] <= words[j])
  }

  function Lens(words: seq<seq<bool>>): (ls: seq<nat>)
    ensures |ls| == |words|
  {
    if words == [] then [] else [|words[0]|] + Lens(words[1..])
  }

  /** The words that start with `b`, without it. */
  function Tails(words: seq<seq<bool>>, b: bool): seq<seq<bool>> {
    if words == [] then []
    else (if words[0] != [] && words[0][0] == b then [words[0][1..]] else []) + Tails(words[1..], b)
  }

  lemma {:induction false} TailsMembers(words: seq<seq<bool>>, b: bool)
    ensures forall w :: w in Tails(words, b) ==> [b] + w in words
  {
    if words != [] {
      TailsMembers(words[1..], b);
      forall w | w in Tails(words, b) ensures [b] + w in words {
        if words[0] != [] && words[0][0] == b && w == words[0][1..] {
          assert [b] + w == words[0];
        } else {
          assert w in Tails(words[1..], b);
          assert [b] + w in words[1..];
        }
      }
    }
  }

  lemma PrefixCodeMore(w: seq<bool>, t: seq<seq<bool>>)
    requires PrefixCode(t) && forall i :: 0 <= i < |t| ==> !(w <= t[i]) && !(t[i] <= w)
    ensures PrefixCode([w] + t)
  {
    var all := [w] + t;
    forall i, j | 0 <= i < |all| && 0 <= j < |all| && i != j ensures !(all[i] <= all[j]) {
      assert i > 0 ==> all[i] == t[i - 1];
      assert j > 0 ==> all[j] == t[j - 1];
    }
  }

  lemma {:induction false} TailsPrefixCode(words: seq<seq<bool>>, b: bool)
    requires PrefixCode(words)
    ensures PrefixCode(Tails(words, b))
  {
    if words != [] {
      var rest := words[1..];
      assert forall i :: 0 <= i < |rest| ==> rest[i] == words[i + 1];
      TailsPrefixCode(rest, b);
      TailsMembers(rest, b);
      if words[0] != [] && words[0][0] == b {
        var w, t := words[0][1..], Tails(rest, b);
        assert [b] + w == words[0];
        forall i | 0 <= i < |t| ensures !(w <= t[i]) && !(t[i] <= w) {
          assert [b] + t[i] in rest;
          var j :| 0 <= j < |rest| && rest[j] == [b] + t[i];
          assert words[j + 1] == [b] + t[i];
          assert !(words[0] <= words[j + 1]) && !(words[j + 1] <= words[0]);
          PrefixTail(b, w, t[i]);
          PrefixTail(b, t[i], w);
        }
        PrefixCodeMore(w, t);
      } else {
        assert Tails(words, b) == Tails(rest, b);
      }
    }
  }

  lemma PrefixTail(b: bool, v: seq<bool>, w: seq<bool>)
    ensures v <= w ==> [b] + v <= [b] + w
  {
  }

  lemma TailsStep(words: seq<seq<bool>>, b: bool, M: nat)
    requires M > 0 && words != [] && 0 < |words[0]| <= M
    ensures KraftSum(Lens(Tails(words, b)), M - 1)
         == KraftSum(Lens(Tails(words[1..], b)), M - 1) + if words[0][0] == b then Pow2(M - |words[0]|) else 0
  {
    if words[0][0] == b {
      var all := [words[0][1..]] + Tails(words[1..], b);
      assert Tails(words, b) == all && all[1..] == Tails(words[1..], b);
      assert Lens(all)[1..] == Lens(all[1..]);
    } else {
      assert Tails(words, b) == Tails(words[1..], b);
    }
  }

  lemma {:induction false} KraftTails(words: seq<seq<bool>>, M: nat)
    requires M > 0 && forall i :: 0 <= i < |words| ==> 0 < |words[i]| <= M
    ensures KraftSum(Lens(words), M)
         == KraftSum(Lens(Tails(words, false)), M - 1) + KraftSum(Lens(Tails(words, true)), M - 1)
  {
    if words != [] {
      KraftTails(words[1..], M);
      TailsStep(words, false, M);
      TailsStep(words, true, M);
      hide Tails;
      assert Lens(words)[1..] == Lens(words[1..]);
    }
  }

  lemma TailsShort(words: seq<seq<bool>>, b: bool, M: nat)
    requires M > 0 && forall i :: 0 <= i < |words| ==> |words[i]| <= M
    ensures forall i :: 0 <= i < |Tails(words, b)| ==> |Tails(words, b)[i]| <= M - 1
  {
    TailsMembers(words, b);
    forall i | 0 <= i < |Tails(words, b)| ensures |Tails(words, b)[i]| <= M - 1 {
      var w := Tails(words, b)[i];
      assert w in Tails(words, b);
      assert [b] + w in words;
    }
  }

  lemma EmptyWord(words: seq<seq<bool>>, i: nat, j: nat)
    requires i < |words| && j < |words| && i != j && words[i] == []
    ensures !PrefixCode(words)
  {
    assert words[i] <= words[j];
  }

  /** Kraft's inequality. */
  lemma {:induction false} KraftInequality(words: seq<seq<bool>>, M: nat)
    requires PrefixCode(words) && forall i :: 0 <= i < |words| ==> |words[i]| <= M
    ensures KraftSum(Lens(words), M) <= Pow2(M)
    decreases M
  {
    if words == [] {
    } else if i :| 0 <= i < |words| && words[i] == [] {
      if |words| > 1 {
        var j := if i == 0 then 1 else 0;
        EmptyWord(words, i, j);
        assert false;
      }
      assert words == [[]];
      assert Lens(words) == [0];
      assert Lens(words)[1..] == [];
    } else {
      assert words[0] != [];
      KraftTails(words, M);
      TailsShort(words, false, M);
      TailsShort(words, true, M);
      TailsPrefixCode(words, false);
      TailsPrefixCode(words, true);
      KraftInequality(Tails(words, false), M - 1);
      KraftInequality(Tails(words, true), M - 1);
    }
  }

  /** A total length that is least among all lengths Kraft allows is least among all
      prefix codes: no assignment of words, none a prefix of another, is shorter. */
  lemma NoPrefixCodeIsShorter(ws: seq<nat>, c: int, words: seq<seq<bool>>)
    requires AtLeast(ws, c) && PrefixCode(words) && |words| == |ws|
    ensures |Lens(words)| == |ws| && Cost(ws, Lens(words)) >= c
  {
    var M := Longest(words);
    KraftInequality(words, M);
    LensAre(words);
    assert Feasible(Lens(words), M);
  }

  lemma {:induction false} LensAre(words: seq<seq<bool>>)
    ensures |Lens(words)| == |words| && forall i :: 0 <= i < |words| ==> Lens(words)[i] == |words[i]|
  {
    if words != [] {
      LensAre(words[1..]);
    }
  }

  function Longest(words: seq<seq<bool>>): (n: nat)
    ensures forall i :: 0 <= i < |words| ==> |words[i]| <= n
  {
    if words == [] then 0
    else
      var n := Longest(words[1..]);
      assert forall i :: 1 <= i < |words| ==> words[i] == words[1..][i - 1];
      if |words[0]| > n then |words[0]| else n
  }
}
