/** expr: a recursive descent parser that evaluates as it goes, and why that is the same
    as building the expression and evaluating it afterwards. */
module Expressions {
  import opened Bits
  import opened Versions

  datatype Value = Int(i: int) | Str(s: string)

  /** What is left open: what docolon does with a string and a pattern, None if the pattern
      is not valid; and what becomes of a result that does not fit, None if it stops expr. */
  datatype Environment = Environment(colon: (string, string) -> Option<Value>, overflow: (string, int, int) -> Option<int>)

  // arith_t
  const MIN_ARITH: int := -0x8000_0000_0000_0000
  const MAX_ARITH: int := 0x7FFF_FFFF_FFFF_FFFF

  // ----- values

  /** tostring */
  function Text(v: Value): string {
    match v
    case Str(s) => s
    case Int(i) => if i < 0 then "-" + NatText(-i) else NatText(i)
  }

  predicate InArith(i: int) {
    MIN_ARITH <= i <= MAX_ARITH
  }

  /** What strtoll makes of a number out of range. */
  function Clamp(i: int): int {
    if i < MIN_ARITH then MIN_ARITH else if i > MAX_ARITH then MAX_ARITH else i
  }

  /** strtoll, when it uses up the whole string. */
  function ParseInt(s: string): Option<int> {
    if s == [] then None
    else if Space(s[0]) then ParseInt(s[1..])
    else
      var t := if s[0] == '-' || s[0] == '+' then s[1..] else s;
      if t == [] || DigitRun(t) < |t| then None
      else Some(Clamp(if s[0] == '-' then -(Versions.Value(t) as int) else Versions.Value(t)))
  }

  /** toarith: the number a value stands for, if it does. */
  function Number(v: Value): Option<int> {
    match v
    case Int(i) => Some(i)
    case Str(s) => ParseInt(s)
  }

  function Coerced(v: Value): Value {
    match Number(v)
    case Some(i) => Int(i)
    case None => v
  }

  /** null */
  predicate Null(v: Value) {
    match v
    case Int(i) => i == 0
    case Str(s) => s == "" || s == "0"
  }

  /** The sign of strcmp. */
  function StrCmp(s: string, t: string): int {
    if s == [] && t == [] then 0
    else if s == [] then -1
    else if t == [] then 1
    else if s[0] != t[0] then if s[0] < t[0] then -1 else 1
    else StrCmp(s[1..], t[1..])
  }

  // ----- operators

  /** The precedence of a binary operator, from | up to :. */
  function LevelOf(tok: string): (l: Option<nat>)
    ensures l.Some? ==> l.value <= 5
  {
    if tok == "|" then Some(0)
    else if tok == "&" then Some(1)
    else if tok in ["<", "<=", "=", "==", "!=", ">=", ">"] then Some(2)
    else if tok == "+" || tok == "-" then Some(3)
    else if tok == "*" || tok == "/" || tok == "%" then Some(4)
    else if tok == ":" then Some(5)
    else None
  }

  /** C division, towards zero. */
  function Quot(a: int, b: int): int
    requires b != 0
  {
    if a >= 0 then a / b else -((-a) / b)
  }

  /** The quotient is cut towards zero, and the remainder is smaller than the divisor and
      has the sign of the dividend. */
  lemma QuotTruncates(a: int, b: int)
    requires b != 0
    ensures var r := a - Quot(a, b) * b;
            Abs(r) < Abs(b) && Abs(Quot(a, b) * b) <= Abs(a) && (r > 0 ==> a > 0) && (r < 0 ==> a < 0)
  {
    var m, q := Abs(a), Abs(a) / b;
    DivParts(m, b);
    if a < 0 {
      Negate(q, b);
    }
  }

  lemma DivParts(m: nat, b: int)
    requires b != 0
    ensures 0 <= (m / b) * b <= m < (m / b) * b + Abs(b)
  {
    var q, r := m / b, m % b;
    assert m == q * b + r && 0 <= r < Abs(b);
    if q * b < 0 {
      SmallMultiple(q, b);
    }
  }

  lemma Negate(k: int, b: int)
    ensures (-k) * b == -(k * b) == k * (-b)
  {
  }

  /** No other quotient has such a remainder. */
  lemma QuotUnique(a: int, b: int, q: int)
    requires b != 0
    requires var r := a - q * b; Abs(r) < Abs(b) && (r > 0 ==> a > 0) && (r < 0 ==> a < 0)
    ensures q == Quot(a, b)
  {
    QuotTruncates(a, b);
    var p := Quot(a, b);
    var r, s := a - q * b, a - p * b;
    assert Abs(r - s) < Abs(b);
    Distribute(p, q, b);
    SmallMultiple(p - q, b);
  }

  lemma Distribute(p: int, q: int, b: int)
    ensures (p - q) * b == p * b - q * b
  {
  }

  lemma SmallMultiple(k: int, b: int)
    requires Abs(k * b) < Abs(b)
    ensures k == 0
  {
    Negate(k, b);
    if k >= 1 {
      MulAtLeast(k, Abs(b));
    } else if k <= -1 {
      MulAtLeast(-k, Abs(b));
      Negate(-k, -b);
    }
  }

  lemma MulAtLeast(k: nat, c: nat)
    requires k >= 1
    ensures k * c >= c
  {
    assert k * c == (k - 1) * c + c;
  }

  function Abs(x: int): nat {
    if x < 0 then -x else x
  }

  function Compare(op: string, c: int): bool {
    if op == "<" then c < 0
    else if op == "<=" then c <= 0
    else if op == "=" || op == "==" then c == 0
    else if op == "!=" then c != 0
    else if op == ">" then c > 0
    else c >= 0
  }

  /** The quotient of the least number and -1 is the only one that does not fit; C leaves
      its remainder open as well. */
  predicate QuotFits(a: int, b: int) {
    a != MIN_ARITH || b != -1
  }

  function Arith(env: Environment, op: string, a: int, b: int): Option<int> {
    if op == "+" then Fitting(env, op, a, b, a + b)
    else if op == "-" then Fitting(env, op, a, b, a - b)
    else if op == "*" then Fitting(env, op, a, b, a * b)
    else if b == 0 then None
    else if !QuotFits(a, b) then env.overflow(op, a, b)
    else if op == "/" then Some(Quot(a, b))
    else Some(a - Quot(a, b) * b)
  }

  /** The result `c` of an operation, if it fits. */
  function Fitting(env: Environment, op: string, a: int, b: int, c: int): Option<int> {
    if InArith(c) then Some(c) else env.overflow(op, a, b)
  }

  /** No other quotient of numbers that fit is too large. */
  lemma QuotFitsExactly(a: int, b: int)
    requires InArith(a) && InArith(b) && b != 0
    ensures InArith(Quot(a, b)) <==> QuotFits(a, b)
  {
    QuotTruncates(a, b);
    if Abs(b) >= 2 {
      Halves(Quot(a, b), b);
    }
  }

  lemma Halves(q: int, b: int)
    requires Abs(b) >= 2
    ensures 2 * Abs(q) <= Abs(q * b)
  {
    var x, y := Abs(q), Abs(b);
    Negate(q, b);
    Negate(q, -b);
    assert x * y == Abs(q * b);
    assert x * y == x * (y - 2) + 2 * x;
  }

  /** What a binary operator does; None if expr stops with an error. */
  function Apply(env: Environment, op: string, l: Value, r: Value): Option<Value> {
    match LevelOf(op)
    case Some(0) => Some(if Null(l) then r else l)
    case Some(1) => Some(if Null(l) || Null(r) then Int(0) else l)
    case Some(2) =>
      var a, b := Coerced(l), Coerced(r);
      var c := if a.Int? && b.Int? then a.i - b.i else StrCmp(Text(a), Text(b));
      Some(Int(if Compare(op, c) then 1 else 0))
    case Some(3) => Numeric(env, op, l, r)
    case Some(4) => Numeric(env, op, l, r)
    case _ => env.colon(Text(l), Text(r))
  }

  function Numeric(env: Environment, op: string, l: Value, r: Value): Option<Value> {
    var a :- Number(l);
    var b :- Number(r);
    var c :- Arith(env, op, a, b);
    Some(Int(c))
  }

  function Member(c: char, t: string): bool {
    c in t
  }

  /** strcspn */
  function Span(s: string, t: string): (n: nat)
    ensures n <= |s|
  {
    if s == [] || Member(s[0], t) then 0 else 1 + Span(s[1..], t)
  }

  function IndexOf(s: string, t: string): Value {
    if Span(s, t) == |s| then Int(0) else Int(Span(s, t) + 1)
  }

  function SubStr(s: string, i: Value, n: Value): Value {
    match (Number(i), Number(n))
    case (Some(a), Some(b)) =>
      if a > |s| || a <= 0 || b <= 0 then Str("")
      else Str(s[a - 1..if a - 1 + b < |s| then a - 1 + b else |s|])
    case _ => Str("")
  }

  // ----- expressions, and how to write them down

  datatype Expr = Lit(s: string) | Bin(op: string, l: Expr, r: Expr)
                | Length(e: Expr) | Match(e: Expr, p: Expr) | Index(e: Expr, p: Expr) | Substr(e: Expr, p: Expr, q: Expr)

  ghost predicate Legal(e: Expr) {
    match e
    case Lit(_) => true
    case Bin(op, l, r) => LevelOf(op).Some? && Legal(l) && Legal(r)
    case Length(x) => Legal(x)
    case Match(x, p) => Legal(x) && Legal(p)
    case Index(x, p) => Legal(x) && Legal(p)
    case Substr(x, p, q) => Legal(x) && Legal(p) && Legal(q)
  }

  function Eval(env: Environment, e: Expr): Option<Value> {
    match e
    case Lit(s) => Some(Str(s))
    case Bin(op, l, r) =>
      var a :- Eval(env, l);
      var b :- Eval(env, r);
      Apply(env, op, a, b)
    case Length(x) =>
      var a :- Eval(env, x);
      Some(Int(|Text(a)|))
    case Match(x, p) =>
      var a :- Eval(env, x);
      var b :- Eval(env, p);
      env.colon(Text(a), Text(b))
    case Index(x, p) =>
      var a :- Eval(env, x);
      var b :- Eval(env, p);
      Some(IndexOf(Text(a), Text(b)))
    case Substr(x, p, q) =>
      var a :- Eval(env, x);
      var b :- Eval(env, p);
      var c :- Eval(env, q);
      Some(SubStr(Text(a), b, c))
  }

  /** As if every result that does not fit stopped expr. */
  function Strict(env: Environment): Environment {
    env.(overflow := (op, a, b) => None)
  }

  /** If an operation stays in range, its result is the exact one, whatever overflow does. */
  lemma ApplyStrict(env: Environment, op: string, l: Value, r: Value)
    requires Apply(Strict(env), op, l, r).Some?
    ensures Apply(env, op, l, r) == Apply(Strict(env), op, l, r)
  {
    hide Number, Quot, Coerced, StrCmp, Text;
  }

  /** An expression none of whose operations leaves the range has the value exact arithmetic
      gives it, whatever becomes of an overflow. */
  lemma {:induction false} NoOverflow(env: Environment, e: Expr)
    requires Eval(Strict(env), e).Some?
    ensures Eval(env, e) == Eval(Strict(env), e)
  {
    hide Apply, IndexOf, SubStr;
    match e {
      case Lit(_) =>
      case Bin(op, l, r) =>
        NoOverflow(env, l);
        NoOverflow(env, r);
        ApplyStrict(env, op, Eval(env, l).value, Eval(env, r).value);
      case Length(x) => NoOverflow(env, x);
      case Match(x, p) =>
        NoOverflow(env, x);
        NoOverflow(env, p);
      case Index(x, p) =>
        NoOverflow(env, x);
        NoOverflow(env, p);
      case Substr(x, p, q) =>
        NoOverflow(env, x);
        NoOverflow(env, p);
        NoOverflow(env, q);
    }
  }

  predicate Keyword(tok: string) {
    tok in ["quote", "length", "match", "index", "substr"]
  }

  /** The arguments for an expression where an operand of precedence `level` is wanted:
      parentheses and `quote` only where they are needed. */
  function Args(e: Expr, level: nat): (a: seq<string>)
    requires Legal(e) && level <= 6
    ensures a != []
    decreases e, 1
  {
    match e
    case Bin(op, _, _) => if LevelOf(op).value >= level then Plain(e) else ["("] + Plain(e) + [")"]
    case _ => Plain(e)
  }

  function Plain(e: Expr): (a: seq<string>)
    requires Legal(e)
    ensures a != []
    decreases e, 0
  {
    match e
    case Lit(s) => if Keyword(s) || s == "(" || s == ")" then ["quote", s] else [s]
    case Bin(op, l, r) => Args(l, LevelOf(op).value) + [op] + Args(r, LevelOf(op).value + 1)
    case Length(x) => ["length"] + Args(x, 6)
    case Match(x, p) => ["match"] + Args(x, 6) + Args(p, 6)
    case Index(x, p) => ["index"] + Args(x, 6) + Args(p, 6)
    case Substr(x, p, q) => ["substr"] + Args(x, 6) + Args(p, 6) + Args(q, 6)
  }

  // ----- the parser as a function of the arguments that are left

  /** eval to eval7 as levels 0 to 7: the value and the arguments after it. */
  function Parse(env: Environment, level: nat, toks: seq<string>): (r: Option<(Value, seq<string>)>)
    requires level <= 7
    ensures r.Some? ==> |r.value.1| < |toks|
    decreases |toks|, 8 - level
  {
    if level <= 5 then
      var (l, rest) :- Parse(env, level + 1, toks);
      Loop(env, level, l, rest)
    else if level == 6 then
      if toks == [] || !Keyword(toks[0]) then Parse(env, 7, toks) else ParseKeyword(env, toks[0], toks[1..])
    else if toks == [] || toks[0] == ")" then None
    else if toks[0] == "(" then
      var (v, rest) :- Parse(env, 0, toks[1..]);
      if rest == [] || rest[0] != ")" then None else Some((v, rest[1..]))
    else Some((Str(toks[0]), toks[1..]))
  }

  /** Operators of one level, from the left. */
  function Loop(env: Environment, level: nat, l: Value, toks: seq<string>): (r: Option<(Value, seq<string>)>)
    requires level <= 5
    ensures r.Some? ==> |r.value.1| <= |toks|
    decreases |toks|, 8 - level
  {
    if toks == [] || LevelOf(toks[0]) != Some(level) then Some((l, toks))
    else
      var (r, rest) :- Parse(env, level + 1, toks[1..]);
      var v :- Apply(env, toks[0], l, r);
      Loop(env, level, v, rest)
  }

  function ParseKeyword(env: Environment, key: string, toks: seq<string>): (r: Option<(Value, seq<string>)>)
    ensures r.Some? ==> |r.value.1| < |toks|
    decreases |toks|, 3
  {
    if key == "quote" then if toks == [] then None else Some((Str(toks[0]), toks[1..]))
    else
      var (a, rest) :- Parse(env, 6, toks);
      if key == "length" then Some((Int(|Text(a)|), rest))
      else
        var (b, rest) :- Parse(env, 6, rest);
        if key == "match" then
          var v :- env.colon(Text(a), Text(b));
          Some((v, rest))
        else if key == "index" then Some((IndexOf(Text(a), Text(b)), rest))
        else
          var (c, rest) :- Parse(env, 6, rest);
          Some((SubStr(Text(a), b, c), rest))
  }

  // ----- parsing what was written down

  /** What follows does not bind tighter than `level`. */
  predicate Fits(level: nat, rest: seq<string>) {
    rest == [] || LevelOf(rest[0]).None? || LevelOf(rest[0]).value <= level
  }

  /** A value is there; the operators of `level` that follow are applied to it. */
  function Continue(env: Environment, level: nat, v: Option<Value>, rest: seq<string>): Option<(Value, seq<string>)>
    requires level <= 6
  {
    if v.None? then None else if level <= 5 then Loop(env, level, v.value, rest) else Some((v.value, rest))
  }

  lemma LoopStops(env: Environment, level: nat, v: Option<Value>, rest: seq<string>)
    requires level <= 6 && (rest == [] || LevelOf(rest[0]) != Some(level))
    ensures Continue(env, level, v, rest) == if v.None? then None else Some((v.value, rest))
  {
    hide Apply;
  }

  /** Coming down from a tighter level changes nothing. */
  lemma {:induction false} Descend(env: Environment, toks: seq<string>, level: nat, m: nat, v: Option<Value>, rest: seq<string>)
    requires level <= m <= 6 && Fits(level, rest) && Parse(env, m, toks) == Continue(env, m, v, rest)
    ensures Parse(env, level, toks) == Continue(env, level, v, rest)
    decreases m - level
  {
    if level < m {
      Descend(env, toks, level + 1, m, v, rest);
      LoopStops(env, level + 1, v, rest);
      hide Loop, ParseKeyword, LevelOf;
    }
  }

  /** The precedence a plain form is read at. */
  function Own(e: Expr): (l: nat)
    requires Legal(e)
    ensures l <= 6
  {
    if e.Bin? then LevelOf(e.op).value else 6
  }

  /** One operator and its right operand. */
  lemma OneOperator(env: Environment, lev: nat, op: string, l: Value, toks: seq<string>, r: Option<Value>, rest: seq<string>)
    requires LevelOf(op) == Some(lev) && Fits(lev, rest) && Parse(env, lev + 1, toks) == Continue(env, lev + 1, r, rest)
    ensures Loop(env, lev, l, [op] + toks)
         == if r.None? then None else Continue(env, lev, Apply(env, op, l, r.value), rest)
  {
    LoopStops(env, lev + 1, r, rest);
    assert ([op] + toks)[1..] == toks;
    hide Parse, Apply, LevelOf;
  }

  lemma OperatorLevel(op: string)
    requires LevelOf(op).Some?
    ensures LevelOf(op).value <= 5
  {
  }

  lemma PlainBin(op: string, l: Expr, r: Expr, rest: seq<string>)
    requires LevelOf(op).Some? && Legal(l) && Legal(r)
    ensures Legal(Bin(op, l, r)) && Fits(LevelOf(op).value, [op] + (Args(r, LevelOf(op).value + 1) + rest))
    ensures Plain(Bin(op, l, r)) + rest == Args(l, LevelOf(op).value) + ([op] + (Args(r, LevelOf(op).value + 1) + rest))
  {
    hide LevelOf, Args;
  }

  /** What is left to do once the left operand has been read. */
  lemma BinValue(env: Environment, op: string, l: Expr, r: Expr, lev: nat, toks: seq<string>, rest: seq<string>)
    requires lev <= 5
    ensures var a, b := Eval(env, l), Eval(env, r);
            && Continue(env, lev, a, toks) == (if a.None? then None else Loop(env, lev, a.value, toks))
            && Eval(env, Bin(op, l, r)) == (if a.None? || b.None? then None else Apply(env, op, a.value, b.value))
            && Continue(env, lev, None, rest) == None
  {
    hide Loop, Apply;
  }

  lemma {:induction false} BinParses(env: Environment, op: string, l: Expr, r: Expr, rest: seq<string>)
    requires LevelOf(op).Some? && Legal(l) && Legal(r) && Fits(LevelOf(op).value, rest)
    ensures Parse(env, LevelOf(op).value, Plain(Bin(op, l, r)) + rest)
         == Continue(env, LevelOf(op).value, Eval(env, Bin(op, l, r)), rest)
    decreases Bin(op, l, r), 0
  {
    hide Parse, Loop, Apply, Plain, LevelOf, Args, Eval, Continue, Legal;
    var lev := LevelOf(op).value;
    OperatorLevel(op);
    var x, y := Args(l, lev), Args(r, lev + 1);
    PlainBin(op, l, r, rest);
    ArgsParse(env, l, lev, [op] + (y + rest));
    ArgsParse(env, r, lev + 1, rest);
    BinValue(env, op, l, r, lev, [op] + (y + rest), rest);
    if Eval(env, l).Some? {
      OneOperator(env, lev, op, Eval(env, l).value, y + rest, Eval(env, r), rest);
    }
  }

  lemma {:induction false} PlainParses(env: Environment, e: Expr, rest: seq<string>)
    requires Legal(e) && Fits(Own(e), rest)
    ensures Parse(env, Own(e), Plain(e) + rest) == Continue(env, Own(e), Eval(env, e), rest)
    decreases e, 1
  {
    hide Parse, Loop, Plain, LevelOf, Args, Eval, Continue;
    match e {
      case Lit(s) =>
        LitParses(env, s, rest);
      case Bin(op, l, r) =>
        BinParses(env, op, l, r, rest);
      case Length(x) =>
        LengthParses(env, x, rest);
      case Match(x, p) =>
        MatchParses(env, x, p, rest);
      case Index(x, p) =>
        IndexParses(env, x, p, rest);
      case Substr(x, p, q) =>
        SubstrParses(env, x, p, q, rest);
    }
  }

  lemma {:induction false} LengthParses(env: Environment, x: Expr, rest: seq<string>)
    requires Legal(x)
    ensures Parse(env, 6, Plain(Length(x)) + rest) == Continue(env, 6, Eval(env, Length(x)), rest)
    decreases Length(x), 0
  {
    hide Parse, Loop, Apply, Plain, LevelOf, Args;
    PlainKeyword(Length(x), rest);
    KeywordParses(env, Length(x), "length", Args(x, 6) + rest, rest);
    Operand(env, x, rest);
  }

  lemma {:induction false} MatchParses(env: Environment, x: Expr, p: Expr, rest: seq<string>)
    requires Legal(x) && Legal(p)
    ensures Parse(env, 6, Plain(Match(x, p)) + rest) == Continue(env, 6, Eval(env, Match(x, p)), rest)
    decreases Match(x, p), 0
  {
    hide Parse, Loop, Apply, Plain, LevelOf, Args;
    var t := Args(p, 6) + rest;
    PlainKeyword(Match(x, p), rest);
    KeywordParses(env, Match(x, p), "match", Args(x, 6) + t, rest);
    Operand(env, x, t);
    Operand(env, p, rest);
  }

  lemma {:induction false} IndexParses(env: Environment, x: Expr, p: Expr, rest: seq<string>)
    requires Legal(x) && Legal(p)
    ensures Parse(env, 6, Plain(Index(x, p)) + rest) == Continue(env, 6, Eval(env, Index(x, p)), rest)
    decreases Index(x, p), 0
  {
    hide Parse, Loop, Apply, Plain, LevelOf, Args;
    var t := Args(p, 6) + rest;
    PlainKeyword(Index(x, p), rest);
    KeywordParses(env, Index(x, p), "index", Args(x, 6) + t, rest);
    Operand(env, x, t);
    Operand(env, p, rest);
  }

  lemma {:induction false} SubstrParses(env: Environment, x: Expr, p: Expr, q: Expr, rest: seq<string>)
    requires Legal(x) && Legal(p) && Legal(q)
    ensures Parse(env, 6, Plain(Substr(x, p, q)) + rest) == Continue(env, 6, Eval(env, Substr(x, p, q)), rest)
    decreases Substr(x, p, q), 0
  {
    hide Parse, Loop, Apply, Plain, LevelOf, Args;
    var t := Args(q, 6) + rest;
    var u := Args(p, 6) + t;
    PlainKeyword(Substr(x, p, q), rest);
    KeywordParses(env, Substr(x, p, q), "substr", Args(x, 6) + u, rest);
    Operand(env, x, u);
    Operand(env, p, t);
    Operand(env, q, rest);
  }

  lemma QuoteParses(env: Environment, toks: seq<string>)
    requires |toks| >= 2 && toks[0] == "quote"
    ensures Parse(env, 6, toks) == Some((Str(toks[1]), toks[2..]))
  {
    assert toks[1..][1..] == toks[2..];
  }

  lemma PlainKeyword(e: Expr, rest: seq<string>)
    requires Legal(e)
    ensures e.Length? ==> Plain(e) + rest == ["length"] + (Args(e.e, 6) + rest)
    ensures e.Match? ==> Plain(e) + rest == ["match"] + (Args(e.e, 6) + (Args(e.p, 6) + rest))
    ensures e.Index? ==> Plain(e) + rest == ["index"] + (Args(e.e, 6) + (Args(e.p, 6) + rest))
    ensures e.Substr? ==> Plain(e) + rest == ["substr"] + (Args(e.e, 6) + (Args(e.p, 6) + (Args(e.q, 6) + rest)))
  {
    hide Args, LevelOf;
  }

  lemma LitParses(env: Environment, s: string, rest: seq<string>)
    ensures Parse(env, 6, Plain(Lit(s)) + rest) == Continue(env, 6, Eval(env, Lit(s)), rest)
  {
    var toks := Plain(Lit(s)) + rest;
    if Keyword(s) || s == "(" || s == ")" {
      assert toks == ["quote", s] + rest;
      assert toks[1..] == [s] + rest && toks[1..][1..] == rest;
    } else {
      assert toks == [s] + rest && toks[1..] == rest;
    }
  }

  lemma KeywordParses(env: Environment, e: Expr, key: string, toks: seq<string>, rest: seq<string>)
    requires Legal(e) && Keyword(key) && Plain(e) + rest == [key] + toks
    ensures Parse(env, 6, Plain(e) + rest) == ParseKeyword(env, key, toks)
  {
    assert ([key] + toks)[1..] == toks;
    hide ParseKeyword;
  }

  /** The operand of a keyword. */
  lemma {:induction false} Operand(env: Environment, e: Expr, rest: seq<string>)
    requires Legal(e)
    ensures Parse(env, 6, Args(e, 6) + rest) == if Eval(env, e).None? then None else Some((Eval(env, e).value, rest))
    decreases e, 3
  {
    ArgsParse(env, e, 6, rest);
  }

  /** Reading an expression back where an operand of precedence `level` is wanted gives
      its value and leaves exactly what follows. */
  lemma {:induction false} ArgsParse(env: Environment, e: Expr, level: nat, rest: seq<string>)
    requires Legal(e) && level <= 6 && Fits(level, rest)
    ensures Parse(env, level, Args(e, level) + rest) == Continue(env, level, Eval(env, e), rest)
    decreases e, 2
  {
    var v := Eval(env, e);
    ArgsIs(e, level);
    hide Parse, Loop, Apply, Plain, Args, Eval, Legal;
    if Own(e) >= level {
      PlainParses(env, e, rest);
      Descend(env, Plain(e) + rest, level, Own(e), v, rest);
    } else {
      var close := [")"] + rest;
      PlainParses(env, e, close);
      InParentheses(env, Plain(e), Own(e), level, v, rest);
    }
  }

  lemma CloseFits(rest: seq<string>)
    ensures Fits(0, [")"] + rest) && LevelOf(([")"] + rest)[0]) != Some(0)
  {
  }

  lemma InParentheses(env: Environment, plain: seq<string>, own: nat, level: nat, v: Option<Value>, rest: seq<string>)
    requires own <= 6 && level <= 6 && Fits(level, rest)
    requires Parse(env, own, plain + ([")"] + rest)) == Continue(env, own, v, [")"] + rest)
    ensures Parse(env, level, ["("] + plain + [")"] + rest) == Continue(env, level, v, rest)
  {
    var close := [")"] + rest;
    CloseFits(rest);
    hide *;
    Descend(env, plain + close, 0, own, v, close);
    LoopStops(env, 0, v, close);
    Parenthesized(env, plain + close, v, rest);
    Assoc(["("], plain, close);
    Assoc(["("] + plain, [")"], rest);
    Descend(env, ["("] + plain + [")"] + rest, level, 6, v, rest);
  }

  lemma ArgsIs(e: Expr, level: nat)
    requires Legal(e) && level <= 6
    ensures Args(e, level) == if Own(e) >= level then Plain(e) else ["("] + Plain(e) + [")"]
  {
    hide Plain;
  }

  lemma Parenthesized(env: Environment, toks: seq<string>, v: Option<Value>, rest: seq<string>)
    requires Parse(env, 0, toks) == if v.None? then None else Some((v.value, [")"] + rest))
    ensures Parse(env, 6, ["("] + toks) == Continue(env, 6, v, rest)
  {
    assert (["("] + toks)[1..] == toks && ([")"] + rest)[1..] == rest;
    hide Loop, ParseKeyword;
    assert !Keyword("(");
    assert Parse(env, 6, ["("] + toks) == Parse(env, 7, ["("] + toks);
  }

  /** The whole command line: exactly the arguments of the expression, and its value. */
  lemma RoundTrip(env: Environment, e: Expr)
    requires Legal(e)
    ensures Parse(env, 0, Args(e, 0)) == if Eval(env, e).None? then None else Some((Eval(env, e).value, []))
  {
    ArgsParse(env, e, 0, []);
    LoopStops(env, 0, Eval(env, e), []);
    assert Args(e, 0) + [] == Args(e, 0);
  }

  // ----- the program

  lemma ApplyArithmetic(env: Environment, l: Value, r: Value, op: string)
    requires op in ["+", "-", "*", "/", "%"]
    ensures Apply(env, op, l, r) == Numeric(env, op, l, r)
  {
    hide Numeric, Coerced;
    ArithmeticLevel(op);
    hide LevelOf;
  }

  lemma ArithmeticLevel(op: string)
    requires op in ["+", "-", "*", "/", "%"]
    ensures LevelOf(op) == Some(3) || LevelOf(op) == Some(4)
  {
    assert op == "+" || op == "-" || op == "*" || op == "/" || op == "%";
  }

  /** arithmetic_common */
  method ArithmeticCommon(env: Environment, l: Value, r: Value, op: string) returns (v: Option<Value>)
    requires op in ["+", "-", "*", "/", "%"]
    ensures v == Apply(env, op, l, r)
  {
    hide ParseInt, Quot, Apply, Number;
    ApplyArithmetic(env, l, r, op);
    var li, ri := Number(l), Number(r);
    if li.None? || ri.None? {
      return None;
    }
    var a, b, c := li.value, ri.value, None;
    if op == "+" {
      c := Fitting(env, op, a, b, a + b);
    } else if op == "-" {
      c := Fitting(env, op, a, b, a - b);
    } else if op == "*" {
      c := Fitting(env, op, a, b, a * b);
    } else if b == 0 {
      return None;
    } else if !QuotFits(a, b) {
      c := env.overflow(op, a, b);
    } else if op == "/" {
      c := Some(Quot(a, b));
    } else {
      c := Some(a - Quot(a, b) * b);
    }
    v := if c.Some? then Some(Int(c.value)) else None;
  }

  /** Both sides to numbers if they can be, then cmp_common. */
  method CmpCommon(env: Environment, l0: Value, r0: Value, op: string) returns (v: Value)
    requires LevelOf(op) == Some(2)
    ensures Apply(env, op, l0, r0) == Some(v)
  {
    var l, r := Coerced(l0), Coerced(r0);
    var ll, rr := 0, 0;
    if l.Int? && r.Int? {
      ll, rr := l.i, r.i;
    } else {
      ll := StrCmp(Text(l), Text(r));
    }
    var holds :=
      if op == "<" then ll < rr
      else if op == "<=" then ll <= rr
      else if op == "=" || op == "==" then ll == rr
      else if op == "!=" then ll != rr
      else if op == ">" then ll > rr
      else ll >= rr;
    v := Int(if holds then 1 else 0);
  }

  /** Fused parsing and evaluation, along the array of arguments. */
  class Evaluator {
    const env: Environment
    const args: seq<string>
    var pos: nat  // G.args

    constructor (env: Environment, args: seq<string>)
      ensures this.env == env && this.args == args && pos == 0
    {
      this.env, this.args, pos := env, args, 0;
    }

    /** What a call at some level has done, when it started at `from`. */
    ghost predicate Did(level: nat, from: nat, v: Option<Value>)
      requires level <= 7
      reads this
    {
      from <= |args| && pos <= |args|
      && Parse(env, level, args[from..]) == if v.None? then None else Some((v.value, args[pos..]))
    }

    /** nextarg */
    method NextArg(str: string) returns (r: bool)
      requires pos <= |args|
      ensures r <==> pos < |args| && args[pos] == str
    {
      r := pos < |args| && args[pos] == str;
    }

    /** Bare operands and parentheses. */
    method Eval7() returns (v: Option<Value>)
      requires pos <= |args|
      modifies this`pos
      ensures Did(7, old(pos), v) && (v.Some? ==> pos > old(pos))
      decreases |args| - pos, 1
    {
      if pos == |args| {
        return None;
      }
      var open := NextArg("(");
      if open {
        pos := pos + 1;
        v := Eval0();
        if v.None? {
          return;
        }
        var close := NextArg(")");
        if !close {
          return None;
        }
        pos := pos + 1;
        return;
      }
      var stray := NextArg(")");
      if stray {
        return None;
      }
      v := Some(Str(args[pos]));
      pos := pos + 1;
    }

    /** The loop of some level has computed `l` and is now at `pos`. */
    ghost predicate Going(level: nat, from: nat, l: Value)
      requires level <= 5
      reads this
    {
      from < pos <= |args| && Parse(env, level, args[from..]) == Loop(env, level, l, args[pos..])
    }

    lemma Started(level: nat, from: nat, l: Option<Value>)
      requires level <= 5 && Did(level + 1, from, l) && (l.Some? ==> from < pos)
      ensures l.None? ==> Did(level, from, None)
      ensures l.Some? ==> Going(level, from, l.value)
    {
      hide Loop;
    }

    lemma Stopped(level: nat, from: nat, l: Value)
      requires level <= 5 && Going(level, from, l) && (pos == |args| || LevelOf(args[pos]) != Some(level))
      ensures Did(level, from, Some(l))
    {
      hide Parse;
    }

    /** The operator at `at` and its right operand have been read and applied. */
    lemma Applied(level: nat, from: nat, at: nat, l: Value, r: Option<Value>, v: Option<Value>)
      requires level <= 5 && from < at < |args| && LevelOf(args[at]) == Some(level)
      requires Parse(env, level, args[from..]) == Loop(env, level, l, args[at..])
      requires Did(level + 1, at + 1, r) && (r.Some? ==> at + 1 < pos)
      requires v == if r.None? then None else Apply(env, args[at], l, r.value)
      ensures v.None? ==> Did(level, from, None)
      ensures v.Some? ==> Going(level, from, v.value)
    {
      assert args[at..][1..] == args[at + 1..] && args[at..][0] == args[at];
      hide Parse, Apply;
    }

    /** The keywords. */
    method Eval6() returns (v: Option<Value>)
      requires pos <= |args|
      modifies this`pos
      ensures Did(6, old(pos), v) && (v.Some? ==> pos > old(pos))
      decreases |args| - pos, 2
    {
      hide Loop;
      ghost var from := pos;
      if pos == |args| || !Keyword(args[pos]) {
        v := Eval7();
        return;
      }
      var key := args[pos];
      pos := pos + 1;
      assert args[from..][1..] == args[pos..];
      if key == "quote" {
        if pos == |args| {
          assert args[pos..] == [];
          return None;
        }
        v := Some(Str(args[pos]));
        pos := pos + 1;
        QuoteParses(env, args[from..]);
        return;
      }
      v := EvalKeyword(key);
    }

    /** length, match, index and substr, after the keyword. */
    method EvalKeyword(key: string) returns (v: Option<Value>)
      requires pos <= |args| && Keyword(key) && key != "quote"
      modifies this`pos
      ensures pos <= |args| && (v.Some? ==> pos > old(pos))
      ensures ParseKeyword(env, key, args[old(pos)..]) == if v.None? then None else Some((v.value, args[pos..]))
      decreases |args| - pos, 3
    {
      hide Loop, Parse;
      var l := Eval6();
      if l.None? {
        return None;
      }
      if key == "length" {
        return Some(Int(|Text(l.value)|));
      }
      var r := Eval6();
      if r.None? {
        return None;
      }
      if key == "match" {
        v := env.colon(Text(l.value), Text(r.value));
        return;
      }
      if key == "index" {
        return Some(IndexOf(Text(l.value), Text(r.value)));
      }
      var i2 := Eval6();
      if i2.None? {
        return None;
      }
      v := Some(SubStr(Text(l.value), r.value, i2.value));
    }

    /** : pattern matching */
    method Eval5() returns (v: Option<Value>)
      requires pos <= |args|
      modifies this`pos
      ensures Did(5, old(pos), v) && (v.Some? ==> pos > old(pos))
      decreases |args| - pos, 3
    {
      hide Parse, Loop;
      ghost var from := pos;
      v := Eval6();
      Started(5, from, v);
      if v.None? {
        return;
      }
      var l := v.value;
      while true
        invariant from < pos <= |args| && Going(5, from, l)
        decreases |args| - pos
      {
        var next := NextArg(":");
        if !next {
          Stopped(5, from, l);
          return Some(l);
        }
        var op := ":";
        ghost var at := pos;
        pos := pos + 1;
        var r := Eval6();
        Applied(5, from, at, l, r, if r.None? then None else Apply(env, op, l, r.value));
        if r.None? {
          return None;
        }
        v := env.colon(Text(l), Text(r.value));
        if v.None? {
          return;
        }
        l := v.value;
      }
    }

    /** * / % */
    method Eval4() returns (v: Option<Value>)
      requires pos <= |args|
      modifies this`pos
      ensures Did(4, old(pos), v) && (v.Some? ==> pos > old(pos))
      decreases |args| - pos, 4
    {
      hide Parse, Loop;
      ghost var from := pos;
      v := Eval5();
      Started(4, from, v);
      if v.None? {
        return;
      }
      var l := v.value;
      while true
        invariant from < pos <= |args| && Going(4, from, l)
        decreases |args| - pos
      {
        var op := "*";
        var next := NextArg(op);
        if !next {
          op := "/";
          next := NextArg(op);
        }
        if !next {
          op := "%";
          next := NextArg(op);
        }
        if !next {
          Stopped(4, from, l);
          return Some(l);
        }
        ghost var at := pos;
        pos := pos + 1;
        var r := Eval5();
        Applied(4, from, at, l, r, if r.None? then None else Apply(env, op, l, r.value));
        if r.None? {
          return None;
        }
        v := ArithmeticCommon(env, l, r.value, op);
        if v.None? {
          return;
        }
        l := v.value;
      }
    }

    /** + and - */
    method Eval3() returns (v: Option<Value>)
      requires pos <= |args|
      modifies this`pos
      ensures Did(3, old(pos), v) && (v.Some? ==> pos > old(pos))
      decreases |args| - pos, 5
    {
      hide Parse, Loop;
      ghost var from := pos;
      v := Eval4();
      Started(3, from, v);
      if v.None? {
        return;
      }
      var l := v.value;
      while true
        invariant from < pos <= |args| && Going(3, from, l)
        decreases |args| - pos
      {
        var op := "+";
        var next := NextArg(op);
        if !next {
          op := "-";
          next := NextArg(op);
        }
        if !next {
          Stopped(3, from, l);
          return Some(l);
        }
        ghost var at := pos;
        pos := pos + 1;
        var r := Eval4();
        Applied(3, from, at, l, r, if r.None? then None else Apply(env, op, l, r.value));
        if r.None? {
          return None;
        }
        v := ArithmeticCommon(env, l, r.value, op);
        if v.None? {
          return;
        }
        l := v.value;
      }
    }

    /** Which of the comparisons comes next, if any does. */
    method NextComparison() returns (op: string, next: bool)
      requires pos <= |args|
      ensures next ==> pos < |args| && args[pos] == op && LevelOf(op) == Some(2)
      ensures !next ==> pos == |args| || LevelOf(args[pos]) != Some(2)
    {
      op := "<";
      next := NextArg(op);
      if !next {
        op := "<=";
        next := NextArg(op);
      }
      if !next {
        op := "=";
        next := NextArg(op);
      }
      if !next {
        op := "==";
        next := NextArg(op);
      }
      if !next {
        op := "!=";
        next := NextArg(op);
      }
      if !next {
        op := ">=";
        next := NextArg(op);
      }
      if !next {
        op := ">";
        next := NextArg(op);
      }
    }

    /** Comparisons */
    method Eval2() returns (v: Option<Value>)
      requires pos <= |args|
      modifies this`pos
      ensures Did(2, old(pos), v) && (v.Some? ==> pos > old(pos))
      decreases |args| - pos, 6
    {
      hide Parse, Loop;
      ghost var from := pos;
      v := Eval3();
      Started(2, from, v);
      if v.None? {
        return;
      }
      var l := v.value;
      while true
        invariant from < pos <= |args| && Going(2, from, l)
        decreases |args| - pos
      {
        var op, next := NextComparison();
        if !next {
          Stopped(2, from, l);
          return Some(l);
        }
        ghost var at := pos;
        pos := pos + 1;
        var r := Eval3();
        Applied(2, from, at, l, r, if r.None? then None else Apply(env, op, l, r.value));
        if r.None? {
          return None;
        }
        l := CmpCommon(env, l, r.value, op);
      }
    }

    /** & */
    method Eval1() returns (v: Option<Value>)
      requires pos <= |args|
      modifies this`pos
      ensures Did(1, old(pos), v) && (v.Some? ==> pos > old(pos))
      decreases |args| - pos, 7
    {
      hide Parse, Loop;
      ghost var from := pos;
      v := Eval2();
      Started(1, from, v);
      if v.None? {
        return;
      }
      var l := v.value;
      while true
        invariant from < pos <= |args| && Going(1, from, l)
        decreases |args| - pos
      {
        var next := NextArg("&");
        if !next {
          Stopped(1, from, l);
          return Some(l);
        }
        var op := "&";
        ghost var at := pos;
        pos := pos + 1;
        var r := Eval2();
        Applied(1, from, at, l, r, if r.None? then None else Apply(env, op, l, r.value));
        if r.None? {
          return None;
        }
        if Null(l) || Null(r.value) {
          l := Int(0);
        }
      }
    }

    /** | */
    method Eval0() returns (v: Option<Value>)
      requires pos <= |args|
      modifies this`pos
      ensures Did(0, old(pos), v) && (v.Some? ==> pos > old(pos))
      decreases |args| - pos, 8
    {
      hide Parse, Loop;
      ghost var from := pos;
      v := Eval1();
      Started(0, from, v);
      if v.None? {
        return;
      }
      var l := v.value;
      while true
        invariant from < pos <= |args| && Going(0, from, l)
        decreases |args| - pos
      {
        var next := NextArg("|");
        if !next {
          Stopped(0, from, l);
          return Some(l);
        }
        var op := "|";
        ghost var at := pos;
        pos := pos + 1;
        var r := Eval1();
        Applied(0, from, at, l, r, if r.None? then None else Apply(env, op, l, r.value));
        if r.None? {
          return None;
        }
        if Null(l) {
          l := r.value;
        }
      }
    }
  }
  /** What expr makes of its arguments; None if it stops with an error. */
  function Outcome(env: Environment, args: seq<string>): Option<Value> {
    var (v, rest) :- Parse(env, 0, args);
    if rest == [] then Some(v) else None
  }

  /** expr_main, up to printing */
  method ExprMain(env: Environment, args: seq<string>) returns (v: Option<Value>)
    ensures v == Outcome(env, args)
  {
    hide Parse;
    if args == [] {
      NoArguments(env);
      return None;
    }
    var e := new Evaluator(env, args);
    assert args[0..] == args;
    v := e.Eval0();
    if v.Some? && e.pos < |args| {
      return None;
    }
  }

  lemma {:induction false} NoArguments(env: Environment)
    ensures Outcome(env, []) == None
  {
    NothingParses(env, 0);
  }

  lemma {:induction false} NothingParses(env: Environment, level: nat)
    requires level <= 7
    ensures Parse(env, level, []) == None
    decreases 7 - level
  {
    if level < 7 {
      NothingParses(env, level + 1);
    }
  }

  /** Running expr on an expression written down gives the expression's value. */
  lemma ExprEvaluates(env: Environment, e: Expr)
    requires Legal(e)
    ensures Outcome(env, Args(e, 0)) == Eval(env, e)
  {
    RoundTrip(env, e);
    hide Parse, Args, Eval;
  }
}
