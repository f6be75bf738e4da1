/** What expr computes, said about its arguments alone: the laws of its operators, their
    precedence, and the errors, for operands that are written as they are. */
module ExpressionLaws {
  import opened Bits
  import opened Versions
  import opened Expressions

  /** An argument that stands for itself wherever an operand is wanted. */
  predicate Operand(x: string) {
    x !in ["(", ")", "quote", "length", "match", "index", "substr"]
  }

  /** A number as expr prints it. */
  function Decimal(i: int): string {
    Text(Int(i))
  }

  // ----- numbers as text

  lemma FirstDigit(n: nat)
    ensures Digit(NatText(n)[0])
  {
    NatTextReads(n);
  }

  /** Digits are a number, with a sign or spaces before them too, and cut to 64 bits. */
  lemma NumberForms(t: string)
    requires t != [] && forall i :: 0 <= i < |t| ==> Digit(t[i])
    ensures var n := Versions.Value(t) as int;
            && ParseInt(t) == Some(if n > 0x7FFF_FFFF_FFFF_FFFF then 0x7FFF_FFFF_FFFF_FFFF else n)
            && ParseInt("-" + t) == Some(if n > 0x8000_0000_0000_0000 then -0x8000_0000_0000_0000 else -n)
            && ParseInt("+" + t) == ParseInt(" " + t) == ParseInt(t)
  {
    RunUnique(t, |t|);
    hide *;
    Unsigned(t);
    WithMinus(t);
    WithPlus(t);
    WithSpace(t);
    ClampIs(Versions.Value(t));
    ClampIs(-(Versions.Value(t) as int));
  }

  lemma ClampIs(i: int)
    ensures Clamp(i) == if i < -0x8000_0000_0000_0000 then -0x8000_0000_0000_0000
                        else if i > 0x7FFF_FFFF_FFFF_FFFF then 0x7FFF_FFFF_FFFF_FFFF else i
  {
  }

  lemma Unsigned(t: string)
    requires t != [] && DigitRun(t) == |t|
    ensures ParseInt(t) == Some(Clamp(Versions.Value(t)))
  {
    assert Digit(t[0]);
    hide Versions.Value, DigitRun, Clamp;
  }

  lemma WithMinus(t: string)
    requires t != [] && DigitRun(t) == |t|
    ensures ParseInt("-" + t) == Some(Clamp(-(Versions.Value(t) as int)))
  {
    hide Versions.Value, DigitRun, Clamp;
    var s := "-" + t;
    assert s[1..] == t && s[0] == '-';
  }

  lemma WithPlus(t: string)
    requires t != [] && DigitRun(t) == |t|
    ensures ParseInt("+" + t) == Some(Clamp(Versions.Value(t)))
  {
    hide Versions.Value, DigitRun, Clamp;
    var s := "+" + t;
    assert s[1..] == t && s[0] == '+';
  }

  lemma WithSpace(t: string)
    requires t != [] && DigitRun(t) == |t|
    ensures ParseInt(" " + t) == ParseInt(t)
  {
    hide Versions.Value, DigitRun, Clamp;
    var s := " " + t;
    assert s[1..] == t && s[0] == ' ';
  }

  lemma OperandByFirst(d: string)
    requires d != "" && (d[0] == '-' || Digit(d[0]))
    ensures Operand(d)
  {
    forall k | k in ["(", ")", "quote", "length", "match", "index", "substr"] ensures d != k {
      assert k[0] in "()qlmis";
    }
  }

  /** What is printed for a number is read as that number. */
  lemma NumberText(i: int)
    requires InArith(i)
    ensures ParseInt(Decimal(i)) == Some(i) && Operand(Decimal(i)) && Coerced(Str(Decimal(i))) == Int(i)
  {
    hide ParseInt, NatText, Versions.Value, DigitRun, Operand;
    var n: nat := if i < 0 then -i else i;
    NatTextReads(n);
    FirstDigit(n);
    NumberForms(NatText(n));
    OperandByFirst(Decimal(i));
  }

  // ----- two operands

  /** An operator between two operands. */
  lemma TwoOperands(env: Environment, x: string, op: string, y: string)
    requires Operand(x) && Operand(y) && LevelOf(op).Some?
    ensures Outcome(env, [x, op, y]) == Apply(env, op, Str(x), Str(y))
  {
    var e := Bin(op, Lit(x), Lit(y));
    ExprEvaluates(env, e);
    hide Outcome, Apply, LevelOf;
    OperandArgs(x, 0);
    assert Args(e, 0) == Plain(e);
    OperandArgs(x, LevelOf(op).value);
    OperandArgs(y, LevelOf(op).value + 1);
    assert Plain(e) == [x] + [op] + [y] == [x, op, y];
  }

  lemma OperandArgs(x: string, level: nat)
    requires Operand(x) && level <= 6
    ensures Args(Lit(x), level) == [x]
  {
  }

  lemma Numbers(env: Environment, i: int, op: string, j: int)
    requires InArith(i) && InArith(j) && op in ["+", "-", "*", "/", "%"]
    ensures Outcome(env, [Decimal(i), op, Decimal(j)]) == (match Arith(env, op, i, j) case None => None case Some(c) => Some(Int(c)))
  {
    NumberText(i);
    NumberText(j);
    ArithmeticLevel(op);
    hide Outcome, Apply, ParseInt, Arith, LevelOf, Operand, Text;
    TwoOperands(env, Decimal(i), op, Decimal(j));
    ApplyArithmetic(env, Str(Decimal(i)), Str(Decimal(j)), op);
  }

  /** Addition. */
  lemma Plus(env: Environment, i: int, j: int)
    requires InArith(i) && InArith(j) && InArith(i + j)
    ensures Outcome(env, [Decimal(i), "+", Decimal(j)]) == Some(Int(i + j))
  {
    Numbers(env, i, "+", j);
    hide Outcome, Decimal;
  }

  /** Subtraction: what gives the left side back when the right side is added. */
  lemma Minus(env: Environment, i: int, j: int, k: int)
    requires InArith(i) && InArith(j) && InArith(k) && k + j == i
    ensures Outcome(env, [Decimal(i), "-", Decimal(j)]) == Some(Int(k))
  {
    Numbers(env, i, "-", j);
    hide Outcome, Decimal;
  }

  /** `i` added up `n` times. */
  function Repeatedly(i: int, n: nat): int {
    if n == 0 then 0 else Repeatedly(i, n - 1) + i
  }

  lemma {:induction false} RepeatedlyIs(i: int, n: nat)
    ensures Repeatedly(i, n) == i * n
  {
    if n > 0 {
      RepeatedlyIs(i, n - 1);
      OnceMore(i, n);
    }
  }

  lemma OnceMore(i: int, n: nat)
    requires n > 0
    ensures i * (n - 1) + i == i * n
  {
  }

  /** Multiplication is repeated addition, of the opposite if the right side is negative. */
  lemma Times(env: Environment, i: int, j: int, k: int)
    requires InArith(i) && InArith(j) && InArith(k) && k == if j >= 0 then Repeatedly(i, j) else Repeatedly(-i, -j)
    ensures Outcome(env, [Decimal(i), "*", Decimal(j)]) == Some(Int(k))
  {
    if j >= 0 {
      RepeatedlyIs(i, j);
    } else {
      RepeatedlyIs(-i, -j);
      Negate(i, -j);
      Negate(i, j);
    }
    assert k == i * j;
    Numbers(env, i, "*", j);
    hide Outcome, Decimal, Repeatedly;
  }

  /** Division with remainder, towards zero. */
  lemma Division(env: Environment, i: int, j: int, q: int, r: int)
    requires InArith(i) && InArith(j) && InArith(q) && j != 0
    requires i == q * j + r && Abs(r) < Abs(j) && (r > 0 ==> i > 0) && (r < 0 ==> i < 0)
    ensures Outcome(env, [Decimal(i), "/", Decimal(j)]) == Some(Int(q))
    ensures Outcome(env, [Decimal(i), "%", Decimal(j)]) == Some(Int(r))
  {
    QuotUnique(i, j, q);
    QuotFitsExactly(i, j);
    Numbers(env, i, "/", j);
    Numbers(env, i, "%", j);
    hide Outcome, Decimal, Quot, Abs;
  }

  /** Division by zero is an error, and so is arithmetic with what is no number. */
  lemma ArithmeticErrors(env: Environment, x: string, op: string, y: string)
    requires Operand(x) && Operand(y) && op in ["+", "-", "*", "/", "%"]
    ensures ParseInt(x).None? || ParseInt(y).None? ==> Outcome(env, [x, op, y]) == None
    ensures op in ["/", "%"] && ParseInt(y) == Some(0) ==> Outcome(env, [x, op, y]) == None
  {
    ArithmeticLevel(op);
    TwoOperands(env, x, op, y);
    ApplyArithmetic(env, Str(x), Str(y), op);
    hide Outcome, Apply, ParseInt, LevelOf, Operand, Quot;
  }

  // ----- comparisons

  /** The comparison `op` holds, where two things stand so to each other. */
  predicate Holds(op: string, less: bool, same: bool) {
    match op
    case "<" => less
    case "<=" => less || same
    case ">" => !less && !same
    case ">=" => !less
    case "!=" => !same
    case _ => same
  }

  lemma ComparesAs(env: Environment, x: string, op: string, y: string)
    requires Operand(x) && Operand(y) && op in ["<", "<=", "=", "==", "!=", ">=", ">"]
    ensures LevelOf(op) == Some(2) && Outcome(env, [x, op, y]) == Apply(env, op, Str(x), Str(y))
  {
    assert LevelOf(op) == Some(2);
    hide Apply, Outcome;
    TwoOperands(env, x, op, y);
  }

  lemma AppliesComparison(env: Environment, op: string, l: Value, r: Value)
    requires LevelOf(op) == Some(2)
    ensures var a, b := Coerced(l), Coerced(r);
            Apply(env, op, l, r)
            == Some(Int(if Compare(op, if a.Int? && b.Int? then a.i - b.i else StrCmp(Text(a), Text(b))) then 1 else 0))
  {
    hide LevelOf, Coerced, Compare, StrCmp, Text;
  }

  lemma CompareHolds(op: string, c: int)
    requires op in ["<", "<=", "=", "==", "!=", ">=", ">"]
    ensures Compare(op, c) == Holds(op, c < 0, c == 0)
  {
  }

  /** Numbers are compared by value. */
  lemma ComparesNumbers(env: Environment, i: int, op: string, j: int)
    requires InArith(i) && InArith(j) && op in ["<", "<=", "=", "==", "!=", ">=", ">"]
    ensures Outcome(env, [Decimal(i), op, Decimal(j)]) == Some(Int(if Holds(op, i < j, i == j) then 1 else 0))
  {
    hide *;
    NumberText(i);
    NumberText(j);
    ComparesAs(env, Decimal(i), op, Decimal(j));
    AppliesComparison(env, op, Str(Decimal(i)), Str(Decimal(j)));
    CompareHolds(op, i - j);
  }

  /** The order of a dictionary: the first difference decides, and a text comes before those
      that go on from it. */
  ghost predicate TextLess(x: string, y: string) {
    exists k :: 0 <= k <= |x| && k < |y| && x[..k] == y[..k] && (k == |x| || x[k] < y[k])
  }

  lemma TextLessAt(x: string, y: string, k: nat)
    requires k <= |x| && k < |y| && x[..k] == y[..k] && (k == |x| || x[k] < y[k])
    ensures TextLess(x, y)
  {
  }

  lemma {:induction false} StrCmpIs(x: string, y: string)
    ensures (StrCmp(x, y) < 0 <==> TextLess(x, y)) && (StrCmp(x, y) == 0 <==> x == y)
    decreases |x|
  {
    hide TextLess;
    if x != [] && y != [] && x[0] == y[0] {
      StrCmpIs(x[1..], y[1..]);
      assert x == [x[0]] + x[1..] && y == [y[0]] + y[1..];
      TextLessTail(x, y);
    } else {
      TextLessFirst(x, y);
    }
  }

  lemma TextLessFirst(x: string, y: string)
    requires x == [] || y == [] || x[0] != y[0]
    ensures TextLess(x, y) <==> y != [] && (x == [] || x[0] < y[0])
  {
    if y != [] && (x == [] || x[0] < y[0]) {
      TextLessAt(x, y, 0);
    }
    if TextLess(x, y) {
      var k :| 0 <= k <= |x| && k < |y| && x[..k] == y[..k] && (k == |x| || x[k] < y[k]);
      SameFirst(x, y, k);
    }
  }

  lemma SameFirst(x: string, y: string, k: nat)
    requires k <= |x| && k <= |y| && x[..k] == y[..k]
    ensures k > 0 ==> x != [] && y != [] && x[0] == y[0]
  {
    if k > 0 {
      assert x[..k][0] == x[0] && y[..k][0] == y[0];
    }
  }

  lemma TextLessTail(x: string, y: string)
    requires x != [] && y != [] && x[0] == y[0]
    ensures TextLess(x, y) <==> TextLess(x[1..], y[1..])
  {
    if TextLess(x, y) {
      var k :| 0 <= k <= |x| && k < |y| && x[..k] == y[..k] && (k == |x| || x[k] < y[k]);
      assert k > 0;
      PrefixTail(x, y, k);
      TextLessAt(x[1..], y[1..], k - 1);
    }
    if TextLess(x[1..], y[1..]) {
      var k :| 0 <= k <= |x[1..]| && k < |y[1..]| && x[1..][..k] == y[1..][..k] && (k == |x[1..]| || x[1..][k] < y[1..][k]);
      PrefixTail(x, y, k + 1);
      TextLessAt(x, y, k + 1);
    }
  }

  lemma PrefixTail(x: string, y: string, k: nat)
    requires 0 < k <= |x| && k <= |y| && x[0] == y[0]
    ensures x[..k] == y[..k] <==> x[1..][..k - 1] == y[1..][..k - 1]
  {
    assert x[..k] == [x[0]] + x[1..][..k - 1] && y[..k] == [y[0]] + y[1..][..k - 1];
    if x[..k] == y[..k] {
      assert x[1..][..k - 1] == x[..k][1..] && y[1..][..k - 1] == y[..k][1..];
    }
  }

  /** A number is compared as it is printed when the other side is none. */
  function Normal(x: string): string {
    var n := ParseInt(x);
    if n.Some? then Decimal(n.value) else x
  }

  lemma NormalText(x: string)
    ensures Text(Coerced(Str(x))) == Normal(x) && (Coerced(Str(x)).Int? <==> ParseInt(x).Some?)
  {
    hide ParseInt, NatText;
  }

  /** Anything but two numbers is compared as text. */
  lemma ComparesTexts(env: Environment, x: string, op: string, y: string)
    requires Operand(x) && Operand(y) && op in ["<", "<=", "=", "==", "!=", ">=", ">"]
    requires ParseInt(x).None? || ParseInt(y).None?
    ensures Outcome(env, [x, op, y]) == Some(Int(if Holds(op, TextLess(Normal(x), Normal(y)), Normal(x) == Normal(y)) then 1 else 0))
  {
    hide *;
    ComparesAs(env, x, op, y);
    AppliesComparison(env, op, Str(x), Str(y));
    NormalText(x);
    NormalText(y);
    var c := StrCmp(Normal(x), Normal(y));
    StrCmpIs(Normal(x), Normal(y));
    CompareHolds(op, c);
  }

  // ----- or, and, matching

  /** The left side, unless it is null. */
  lemma Or(env: Environment, x: string, y: string)
    requires Operand(x) && Operand(y)
    ensures Outcome(env, [x, "|", y]) == Some(Str(if x == "" || x == "0" then y else x))
  {
    TwoOperands(env, x, "|", y);
    hide Outcome, Operand;
  }

  /** The left side, unless one of the sides is null. */
  lemma And(env: Environment, x: string, y: string)
    requires Operand(x) && Operand(y)
    ensures Outcome(env, [x, "&", y]) == Some(if x in ["", "0"] || y in ["", "0"] then Int(0) else Str(x))
  {
    TwoOperands(env, x, "&", y);
    hide Outcome, Operand;
  }

  lemma SumLooseOr()
    ensures |OPERATORS| == 6 && "+" in OPERATORS[3] && "|" in OPERATORS[0]
  {
  }

  lemma OrNumber(env: Environment, k: int, y: string)
    ensures Then(env, "|", Some(Int(k)), Some(Str(y))) == Some(if k == 0 then Str(y) else Int(k))
  {
  }

  /** The number 0 is null as well, and no other number. */
  lemma NullNumber(env: Environment, i: int, j: int, y: string)
    requires InArith(i) && InArith(j) && InArith(i + j) && Operand(y)
    ensures Outcome(env, [Decimal(i), "+", Decimal(j), "|", y]) == Some(if i + j == 0 then Str(y) else Int(i + j))
  {
    hide *;
    NumberText(i);
    NumberText(j);
    Plus(env, i, j);
    SumLooseOr();
    Precedence(env, Decimal(i), "+", Decimal(j), "|", y, 3, 0);
    OrNumber(env, i + j, y);
  }

  lemma Colon(env: Environment, x: string, y: string)
    requires Operand(x) && Operand(y)
    ensures Outcome(env, [x, ":", y]) == Outcome(env, ["match", x, y]) == env.colon(x, y)
  {
    TwoOperands(env, x, ":", y);
    ExprEvaluates(env, Match(Lit(x), Lit(y)));
    hide Outcome;
    OperandArgs(x, 6);
    OperandArgs(y, 6);
    assert Args(Match(Lit(x), Lit(y)), 0) == ["match"] + [x] + [y] == ["match", x, y];
  }

  // ----- keywords

  /** quote takes anything as it is. */
  lemma Quote(env: Environment, x: string)
    ensures Outcome(env, ["quote", x]) == Some(Str(x))
  {
    ExprEvaluates(env, Lit(x));
    if Operand(x) {
      QuoteNeedless(env, x);
    }
  }

  lemma QuoteNeedless(env: Environment, x: string)
    ensures Outcome(env, ["quote", x]) == Some(Str(x))
  {
    var toks := ["quote", x];
    assert toks[1..] == [x] && toks[1..][0] == x && toks[1..][1..] == [];
    assert ParseKeyword(env, "quote", toks[1..]) == Some((Str(x), []));
    assert Parse(env, 6, toks) == Some((Str(x), []));
    LoopStops(env, 6, Some(Str(x)), []);
    Descend(env, toks, 0, 6, Some(Str(x)), []);
    LoopStops(env, 0, Some(Str(x)), []);
    hide Parse, ParseKeyword;
  }

  lemma Length(env: Environment, x: string)
    requires Operand(x)
    ensures Outcome(env, ["length", x]) == Some(Int(|x|))
  {
    ExprEvaluates(env, Expr.Length(Lit(x)));
    hide Outcome;
    OperandArgs(x, 6);
    assert Args(Expr.Length(Lit(x)), 0) == ["length"] + [x] == ["length", x];
  }

  /** index: the first position, counted from 1, that holds one of the characters; else 0. */
  lemma Index(env: Environment, x: string, y: string, p: nat)
    requires Operand(x) && Operand(y)
    requires p <= |x| && (if p == 0 then forall i :: 0 <= i < |x| ==> x[i] !in y
                          else x[p - 1] in y && forall i :: 0 <= i < p - 1 ==> x[i] !in y)
    ensures Outcome(env, ["index", x, y]) == Some(Int(p))
  {
    ExprEvaluates(env, Expr.Index(Lit(x), Lit(y)));
    SpanIs(x, y, if p == 0 then |x| else p - 1);
    hide Outcome, Span;
    OperandArgs(x, 6);
    OperandArgs(y, 6);
    assert Args(Expr.Index(Lit(x), Lit(y)), 0) == ["index"] + [x] + [y] == ["index", x, y];
  }

  lemma {:induction false} SpanIs(s: string, t: string, n: nat)
    requires n <= |s| && (n < |s| ==> s[n] in t) && forall i :: 0 <= i < n ==> s[i] !in t
    ensures Span(s, t) == n
  {
    if n > 0 {
      SpanIs(s[1..], t, n - 1);
    }
  }

  /** substr: the characters from position `i`, counted from 1, at most `n` of them; nothing
      if the position is not in the text or the length not positive. */
  lemma Substr(env: Environment, x: string, i: int, n: int, s: string)
    requires Operand(x) && InArith(i) && InArith(n)
    requires if i < 1 || i > |x| || n < 1 then s == ""
             else |s| == (if n < |x| - i + 1 then n else |x| - i + 1) && forall k :: 0 <= k < |s| ==> s[k] == x[i - 1 + k]
    ensures Outcome(env, ["substr", x, Decimal(i), Decimal(n)]) == Some(Str(s))
  {
    hide *;
    NumberText(i);
    NumberText(n);
    SubstrOutcome(env, x, Decimal(i), Decimal(n));
    SubStrIs(x, Decimal(i), Decimal(n), i, n, s);
  }

  lemma SubStrIs(x: string, l: string, r: string, i: int, n: int, s: string)
    requires ParseInt(l) == Some(i) && ParseInt(r) == Some(n)
    requires if i < 1 || i > |x| || n < 1 then s == ""
             else |s| == (if n < |x| - i + 1 then n else |x| - i + 1) && forall k :: 0 <= k < |s| ==> s[k] == x[i - 1 + k]
    ensures SubStr(x, Str(l), Str(r)) == Str(s)
  {
    hide ParseInt;
    if 1 <= i <= |x| && n >= 1 {
      assert s == x[i - 1..if i - 1 + n < |x| then i - 1 + n else |x|];
    }
  }

  lemma SubstrOutcome(env: Environment, x: string, i: string, n: string)
    requires Operand(x) && Operand(i) && Operand(n)
    ensures Outcome(env, ["substr", x, i, n]) == Some(SubStr(x, Str(i), Str(n)))
  {
    var e := Expr.Substr(Lit(x), Lit(i), Lit(n));
    ExprEvaluates(env, e);
    hide Outcome, SubStr;
    OperandArgs(x, 6);
    OperandArgs(i, 6);
    OperandArgs(n, 6);
    assert Args(e, 0) == ["substr"] + [x] + [i] + [n] == ["substr", x, i, n];
  }

  // ----- precedence

  // from the loosest to the tightest
  const OPERATORS: seq<seq<string>> := [["|"], ["&"], ["<", "<=", "=", "==", "!=", ">=", ">"], ["+", "-"], ["*", "/", "%"], [":"]]

  lemma LevelIs(op: string, i: nat)
    requires i < 6 && op in OPERATORS[i]
    ensures LevelOf(op) == Some(i)
  {
  }

  /** The value of `y` when the operator is applied to `x` and `y`, each of which may have none. */
  function Then(env: Environment, op: string, x: Option<Value>, y: Option<Value>): Option<Value> {
    if x.None? || y.None? then None else Apply(env, op, x.value, y.value)
  }

  /** The tighter operator takes its operands first, and of two of a kind the left one. */
  lemma Precedence(env: Environment, x: string, o1: string, y: string, o2: string, z: string, i: nat, j: nat)
    requires Operand(x) && Operand(y) && Operand(z) && i < 6 && j < 6 && o1 in OPERATORS[i] && o2 in OPERATORS[j]
    ensures Outcome(env, [x, o1, y, o2, z])
         == if i < j then Then(env, o1, Some(Str(x)), Outcome(env, [y, o2, z]))
            else Then(env, o2, Outcome(env, [x, o1, y]), Some(Str(z)))
  {
    LevelIs(o1, i);
    LevelIs(o2, j);
    hide Outcome, Apply, LevelOf, Operand, OPERATORS;
    if i < j {
      TwoOperands(env, y, o2, z);
    } else {
      TwoOperands(env, x, o1, y);
    }
    ThreeOperands(env, x, o1, y, o2, z);
  }

  lemma ThreeOperands(env: Environment, x: string, o1: string, y: string, o2: string, z: string)
    requires Operand(x) && Operand(y) && Operand(z) && LevelOf(o1).Some? && LevelOf(o2).Some?
    ensures Outcome(env, [x, o1, y, o2, z])
         == if LevelOf(o1).value < LevelOf(o2).value then Then(env, o1, Some(Str(x)), Apply(env, o2, Str(y), Str(z)))
            else Then(env, o2, Apply(env, o1, Str(x), Str(y)), Some(Str(z)))
  {
    hide *;
    LevelBound(o1);
    LevelBound(o2);
    if LevelOf(o1).value < LevelOf(o2).value {
      RightFirst(env, x, o1, y, o2, z);
    } else {
      LeftFirst(env, x, o1, y, o2, z);
    }
  }

  lemma LevelBound(op: string)
    requires LevelOf(op).Some?
    ensures LevelOf(op).value <= 5
  {
  }

  lemma EvalBin(env: Environment, op: string, l: Expr, r: Expr)
    ensures Eval(env, Bin(op, l, r)) == Then(env, op, Eval(env, l), Eval(env, r))
    ensures Legal(l) && Legal(r) && LevelOf(op).Some? ==> Legal(Bin(op, l, r))
  {
    hide Apply, LevelOf;
  }

  lemma EvalLit(env: Environment, x: string)
    ensures Eval(env, Lit(x)) == Some(Str(x)) && Legal(Lit(x))
  {
  }

  lemma ThenIs(env: Environment, op: string, x: Value, y: Value)
    ensures Then(env, op, Some(x), Some(y)) == Apply(env, op, x, y)
  {
    hide Apply;
  }

  lemma RightFirst(env: Environment, x: string, o1: string, y: string, o2: string, z: string)
    requires Operand(x) && Operand(y) && Operand(z) && LevelOf(o1).Some? && LevelOf(o2).Some?
    requires LevelOf(o1).value < LevelOf(o2).value <= 5
    ensures Outcome(env, [x, o1, y, o2, z]) == Then(env, o1, Some(Str(x)), Apply(env, o2, Str(y), Str(z)))
  {
    hide *;
    var r := Bin(o2, Lit(y), Lit(z));
    EvalLit(env, x);
    EvalLit(env, y);
    EvalLit(env, z);
    EvalBin(env, o2, Lit(y), Lit(z));
    ThenIs(env, o2, Str(y), Str(z));
    EvalBin(env, o1, Lit(x), r);
    ExprEvaluates(env, Bin(o1, Lit(x), r));
    BinArgs(y, o2, z, LevelOf(o1).value + 1);
    BothArgs(o1, Lit(x), r);
    OperandArgs(x, LevelOf(o1).value);
    assert [x] + [o1] + [y, o2, z] == [x, o1, y, o2, z];
  }

  lemma LeftFirst(env: Environment, x: string, o1: string, y: string, o2: string, z: string)
    requires Operand(x) && Operand(y) && Operand(z) && LevelOf(o1).Some? && LevelOf(o2).Some?
    requires LevelOf(o2).value <= LevelOf(o1).value <= 5
    ensures Outcome(env, [x, o1, y, o2, z]) == Then(env, o2, Apply(env, o1, Str(x), Str(y)), Some(Str(z)))
  {
    hide *;
    var l := Bin(o1, Lit(x), Lit(y));
    EvalLit(env, x);
    EvalLit(env, y);
    EvalLit(env, z);
    EvalBin(env, o1, Lit(x), Lit(y));
    ThenIs(env, o1, Str(x), Str(y));
    EvalBin(env, o2, l, Lit(z));
    ExprEvaluates(env, Bin(o2, l, Lit(z)));
    BinArgs(x, o1, y, LevelOf(o2).value);
    BothArgs(o2, l, Lit(z));
    OperandArgs(z, LevelOf(o2).value + 1);
    assert [x, o1, y] + [o2] + [z] == [x, o1, y, o2, z];
  }

  lemma BothArgs(op: string, l: Expr, r: Expr)
    requires LevelOf(op).Some? && Legal(l) && Legal(r)
    ensures Args(Bin(op, l, r), 0) == Args(l, LevelOf(op).value) + [op] + Args(r, LevelOf(op).value + 1)
  {
    hide LevelOf;
  }

  /** Two operands with an operator at least as tight as wanted need no parentheses. */
  lemma BinArgs(x: string, op: string, y: string, level: nat)
    requires Operand(x) && Operand(y) && LevelOf(op).Some? && level <= LevelOf(op).value
    ensures Args(Bin(op, Lit(x), Lit(y)), level) == [x, op, y]
  {
    hide LevelOf, Operand;
    OperandArgs(x, LevelOf(op).value);
    OperandArgs(y, LevelOf(op).value + 1);
    assert [x] + [op] + [y] == [x, op, y];
  }

  lemma LeftEnclosed(env: Environment, x: string, o1: string, y: string, o2: string, z: string)
    requires Operand(x) && Operand(y) && Operand(z) && LevelOf(o1).Some? && LevelOf(o2).Some?
    requires LevelOf(o1).value < LevelOf(o2).value <= 5
    ensures Outcome(env, ["(", x, o1, y, ")", o2, z]) == Then(env, o2, Apply(env, o1, Str(x), Str(y)), Some(Str(z)))
  {
    hide *;
    var l, j := Bin(o1, Lit(x), Lit(y)), LevelOf(o2).value;
    EvalLit(env, x);
    EvalLit(env, y);
    EvalLit(env, z);
    EvalBin(env, o1, Lit(x), Lit(y));
    ThenIs(env, o1, Str(x), Str(y));
    EvalBin(env, o2, l, Lit(z));
    ExprEvaluates(env, Bin(o2, l, Lit(z)));
    BothArgs(o2, l, Lit(z));
    Enclosed(x, o1, y, j);
    OperandArgs(z, j + 1);
    assert ["(", x, o1, y, ")"] + [o2] + [z] == ["(", x, o1, y, ")", o2, z];
  }

  lemma RightEnclosed(env: Environment, x: string, o1: string, y: string, o2: string, z: string)
    requires Operand(x) && Operand(y) && Operand(z) && LevelOf(o1).Some? && LevelOf(o2).Some?
    requires LevelOf(o2).value <= LevelOf(o1).value <= 5
    ensures Outcome(env, [x, o1, "(", y, o2, z, ")"]) == Then(env, o1, Some(Str(x)), Apply(env, o2, Str(y), Str(z)))
  {
    hide *;
    var r, i := Bin(o2, Lit(y), Lit(z)), LevelOf(o1).value;
    EvalLit(env, x);
    EvalLit(env, y);
    EvalLit(env, z);
    EvalBin(env, o2, Lit(y), Lit(z));
    ThenIs(env, o2, Str(y), Str(z));
    EvalBin(env, o1, Lit(x), r);
    ExprEvaluates(env, Bin(o1, Lit(x), r));
    BothArgs(o1, Lit(x), r);
    Enclosed(y, o2, z, i + 1);
    OperandArgs(x, i);
    assert [x] + [o1] + ["(", y, o2, z, ")"] == [x, o1, "(", y, o2, z, ")"];
  }

  /** Parentheses make the looser operator go first. */
  lemma Parentheses(env: Environment, x: string, o1: string, y: string, o2: string, z: string, i: nat, j: nat)
    requires Operand(x) && Operand(y) && Operand(z) && i < 6 && j < 6 && o1 in OPERATORS[i] && o2 in OPERATORS[j]
    ensures i < j ==> Outcome(env, ["(", x, o1, y, ")", o2, z]) == Then(env, o2, Outcome(env, [x, o1, y]), Some(Str(z)))
    ensures i >= j ==> Outcome(env, [x, o1, "(", y, o2, z, ")"]) == Then(env, o1, Some(Str(x)), Outcome(env, [y, o2, z]))
  {
    LevelIs(o1, i);
    LevelIs(o2, j);
    hide *;
    TwoOperands(env, x, o1, y);
    TwoOperands(env, y, o2, z);
    if i < j {
      LeftEnclosed(env, x, o1, y, o2, z);
    } else {
      RightEnclosed(env, x, o1, y, o2, z);
    }
  }

  lemma Enclosed(x: string, op: string, y: string, level: nat)
    requires Operand(x) && Operand(y) && LevelOf(op).Some? && LevelOf(op).value < level <= 6
    ensures Args(Bin(op, Lit(x), Lit(y)), level) == ["(", x, op, y, ")"]
  {
    hide LevelOf, Operand;
    OperandArgs(x, LevelOf(op).value);
    OperandArgs(y, LevelOf(op).value + 1);
    assert ["("] + ([x] + [op] + [y]) + [")"] == ["(", x, op, y, ")"];
  }

  /** A keyword takes one operand, and operators come after it. */
  lemma KeywordFirst(env: Environment, x: string, op: string, y: string)
    requires Operand(x) && Operand(y) && LevelOf(op).Some?
    ensures Outcome(env, ["length", x, op, y]) == Apply(env, op, Int(|x|), Str(y))
  {
    var l := Expr.Length(Lit(x));
    LengthForms(env, x);
    EvalLit(env, y);
    LevelBound(op);
    hide *;
    EvalBin(env, op, l, Lit(y));
    ThenIs(env, op, Int(|x|), Str(y));
    ExprEvaluates(env, Bin(op, l, Lit(y)));
    BothArgs(op, l, Lit(y));
    OperandArgs(y, LevelOf(op).value + 1);
    assert ["length", x] + [op] + [y] == ["length", x, op, y];
  }

  lemma LengthForms(env: Environment, x: string)
    requires Operand(x)
    ensures Legal(Expr.Length(Lit(x))) && Eval(env, Expr.Length(Lit(x))) == Some(Int(|x|))
    ensures forall level: nat :: level <= 6 ==> Args(Expr.Length(Lit(x)), level) == ["length", x]
  {
    OperandArgs(x, 6);
    assert ["length"] + [x] == ["length", x];
    hide Operand;
  }

  // ----- errors

  lemma NothingAtAll(env: Environment)
    ensures Outcome(env, []) == None
  {
    NoArguments(env);
  }

  /** Arguments that do not continue an expression are an error. */
  lemma LeftOver(env: Environment, e: Expr, rest: seq<string>)
    requires Legal(e) && rest != [] && LevelOf(rest[0]).None?
    ensures Outcome(env, Args(e, 0) + rest) == None
  {
    ArgsParse(env, e, 0, rest);
    LoopStops(env, 0, Eval(env, e), rest);
    hide Parse, Args, Eval;
  }

  /** A parenthesis that is not closed is an error. */
  lemma Unclosed(env: Environment, e: Expr)
    requires Legal(e)
    ensures Outcome(env, ["("] + Args(e, 0)) == None
  {
    var toks := ["("] + Args(e, 0);
    RoundTrip(env, e);
    assert toks[1..] == Args(e, 0);
    OpensOnly(env, toks);
    hide Parse, Args, Eval, LevelOf;
    Descend(env, toks, 0, 6, None, []);
  }

  lemma OpensOnly(env: Environment, toks: seq<string>)
    requires toks != [] && toks[0] == "("
    requires Parse(env, 0, toks[1..]).None? || Parse(env, 0, toks[1..]).value.1 == []
    ensures Parse(env, 6, toks) == None
  {
    hide Loop, ParseKeyword;
    assert !Keyword("(");
    assert Parse(env, 6, toks) == Parse(env, 7, toks);
  }
}
