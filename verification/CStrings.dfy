/** The functions of the C library that dpkg takes its fields apart with, on strings
    without a terminating zero. */
module CStrings {
  import opened Bits

  /** strspn: how many characters at the beginning are in `accept`. */
  function Span(s: string, accept: string, from: nat := 0): (n: nat)
    requires from <= |s|
    ensures from <= n <= |s| && (n < |s| ==> s[n] !in accept)
    ensures forall i :: from <= i < n ==> s[i] in accept
    decreases |s| - from
  {
    if from == |s| || s[from] !in accept then from else Span(s, accept, from + 1)
  }

  /** strcspn: how many characters at the beginning are not in `reject`. */
  function CSpan(s: string, reject: string, from: nat := 0): (n: nat)
    requires from <= |s|
    ensures from <= n <= |s| && (n < |s| ==> s[n] in reject)
    ensures forall i :: from <= i < n ==> s[i] !in reject
    decreases |s| - from
  {
    if from == |s| || s[from] in reject then from else CSpan(s, reject, from + 1)
  }

  predicate AllIn(s: string, chars: string) {
    forall i :: 0 <= i < |s| ==> s[i] in chars
  }

  predicate NoneIn(s: string, chars: string) {
    forall i :: 0 <= i < |s| ==> s[i] !in chars
  }

  lemma SpanOver(a: string, b: string, accept: string)
    requires AllIn(a, accept) && (b == "" || b[0] !in accept)
    ensures Span(a + b, accept) == |a| && (a + b)[|a|..] == b && (a + b)[..|a|] == a
  {
    var n := Span(a + b, accept);
    assert forall i :: 0 <= i < |a| ==> (a + b)[i] == a[i];
    assert b != "" ==> (a + b)[|a|] == b[0];
  }

  lemma CSpanOver(a: string, b: string, reject: string)
    requires NoneIn(a, reject) && (b == "" || b[0] in reject)
    ensures CSpan(a + b, reject) == |a| && (a + b)[|a|..] == b && (a + b)[..|a|] == a
  {
    var n := CSpan(a + b, reject);
    assert forall i :: 0 <= i < |a| ==> (a + b)[i] == a[i];
    assert b != "" ==> (a + b)[|a|] == b[0];
  }

  /** A string without the spaces it begins with. */
  function Stripped(s: string): (r: string)
    ensures |r| <= |s| && (r != "" ==> r[0] != ' ')
  {
    s[Span(s, " ")..]
  }

  // ----- strtok_r

  /** strtok_r on what is left of a string: the next piece, and what is left after it. */
  function NextPiece(s: string, d: char): (r: Option<(string, string)>)
    ensures r.Some? ==> |r.value.1| < |s| && r.value.0 != "" && d !in r.value.0
  {
    var a := s[Span(s, [d])..];
    var n := CSpan(a, [d]);
    if a == "" then None else Some((a[..n], if n < |a| then a[n + 1..] else ""))
  }

  /** All pieces, in order. */
  function Pieces(s: string, d: char): seq<string>
    decreases |s|
  {
    var r := NextPiece(s, d);
    if r.None? then [] else [r.value.0] + Pieces(r.value.1, d)
  }

  function Join(xs: seq<string>, d: char): string {
    if xs == [] then "" else if |xs| == 1 then xs[0] else xs[0] + ([d] + Join(xs[1..], d))
  }

  predicate Piecelike(xs: seq<string>, d: char) {
    forall i :: 0 <= i < |xs| ==> xs[i] != "" && d !in xs[i]
  }

  /** The first piece of a string that begins with it. */
  lemma FirstPiece(x: string, rest: string, d: char)
    requires x != "" && d !in x && (rest == "" || rest[0] == d)
    ensures NextPiece(x + rest, d) == Some((x, if rest == "" then "" else rest[1..]))
  {
    var s := x + rest;
    NoSpan(s, d);
    NoneOf(x, d);
    CSpanOver(x, rest, [d]);
    hide Span, CSpan;
    DropOne(s, |x|, rest);
  }

  lemma NoSpan(s: string, d: char)
    requires s != "" && s[0] != d
    ensures Span(s, [d]) == 0 && s[0..] == s
  {
    assert s[0] !in [d];
  }

  lemma NoneOf(x: string, d: char)
    requires x != "" && d !in x
    ensures NoneIn(x, [d]) && x[0] != d
  {
    assert x[0] in x;
  }

  lemma DropOne(s: string, n: nat, rest: string)
    requires n <= |s| && s[n..] == rest
    ensures rest != "" ==> n < |s| && s[n + 1..] == rest[1..]
  {
  }

  lemma NoPieces(d: char)
    ensures Pieces("", d) == []
  {
  }

  /** Taking a string apart gives back the pieces it was put together from. */
  lemma {:induction false} PiecesOfJoin(xs: seq<string>, d: char)
    requires Piecelike(xs, d)
    ensures Pieces(Join(xs, d), d) == xs
  {
    hide NextPiece;
    NoPieces(d);
    if xs != [] {
      var x, rest := xs[0], if |xs| == 1 then "" else [d] + Join(xs[1..], d);
      assert Join(xs, d) == x + rest by {
        assert x + "" == x;
      }
      FirstPiece(x, rest, d);
      PiecesOfJoin(xs[1..], d);
      assert xs == [x] + xs[1..];
    }
  }
}
