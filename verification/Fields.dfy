/** How dpkg reads a Depends field: add_split_dependencies, from the text of the field to
    the edges of a package. */
module Fields {
  import opened Bits
  import opened CStrings
  import opened Versions
  import opened Depends

  /** One alternative of a clause, as the text of a field names it. */
  datatype Alternative = Alternative(name: string, version: string, operator: nat)

  /** What stands between two commas; `several` if the text holds more than its first piece. */
  datatype Entry = Entry(text: string, several: bool, alternatives: seq<Alternative>)

  // ----- reading

  /** The operator characters in front of a version; None is the fatal error. */
  function ReadOperator(op: string): Option<nat> {
    if op == "=" then Some(VER_EQUAL)
    else if op == "<<" || op == "<" then Some(VER_LESS)
    else if op == "<=" then Some(VER_LESS_EQUAL)
    else if op == ">>" || op == ">" then Some(VER_MORE)
    else if op == ">=" then Some(VER_MORE_EQUAL)
    else None
  }

  /** Version and operator, from the opening parenthesis on. Without an operator the field
      of the new edge keeps what its memory held: `junk`. */
  function ReadVersion(text: string, junk: nat): Option<(string, nat)> {
    var v := text[Span(text, " (")..];
    var n := Span(v, "<=>");
    var w := Stripped(v[n..]);
    var version := w[..CSpan(w, " )")];
    if n == 0 then Some((version, junk))
    else
      var operator := ReadOperator(v[..n]);
      if operator.None? then None else Some((version, operator.value))
  }

  function ReadAlternative(piece: string, junk: nat): Option<Alternative> {
    var f := Stripped(piece);
    var name, i := f[..CSpan(f, " (")], CSpan(f, "(");
    if i == |f| then Some(Alternative(name, "ANY", VER_ANY))
    else
      var v := ReadVersion(f[i..], junk);
      if v.None? then None else Some(Alternative(name, v.value.0, v.value.1))
  }

  function ReadAlternatives(pieces: seq<string>, junk: nat): (r: Option<seq<Alternative>>)
    ensures r.Some? ==> |r.value| == |pieces|
  {
    if pieces == [] then Some([])
    else Before(ReadAlternative(pieces[0], junk), ReadAlternatives(pieces[1..], junk))
  }

  function Before<T>(x: Option<T>, xs: Option<seq<T>>): Option<seq<T>> {
    if x.None? || xs.None? then None else Some([x.value] + xs.value)
  }

  function ReadEntry(piece: string, junk: nat): Option<Entry> {
    var text := Stripped(piece);
    var pieces := Pieces(text, '|');
    var xs := ReadAlternatives(pieces, junk);
    if xs.None? then None else Some(Entry(text, pieces == [] || text != pieces[0], xs.value))
  }

  function ReadEntries(pieces: seq<string>, junk: nat): Option<seq<Entry>> {
    if pieces == [] then Some([])
    else Before(ReadEntry(pieces[0], junk), ReadEntries(pieces[1..], junk))
  }

  /** What the text of a field says; None if an operator is not known. */
  function ReadField(line: string, junk: nat): Option<seq<Entry>> {
    ReadEntries(Pieces(line, ','), junk)
  }

  /** There is something in the field, and in each of its clauses. */
  predicate Readable(line: string) {
    Pieces(line, ',') != [] && AllReadable(Pieces(line, ','))
  }

  predicate AllReadable(pieces: seq<string>) {
    forall i :: 0 <= i < |pieces| ==> Pieces(Stripped(pieces[i]), '|') != []
  }

  // ----- writing

  function WriteOperator(operator: nat): string {
    if operator == VER_EQUAL then "="
    else if operator == VER_LESS then "<<"
    else if operator == VER_LESS_EQUAL then "<="
    else if operator == VER_MORE then ">>"
    else ">="
  }

  function WriteRelation(x: Alternative): string {
    if x.operator == VER_ANY then "" else " (" + (WriteOperator(x.operator) + (" " + (x.version + ")")))
  }

  function WriteAlternative(x: Alternative): string {
    x.name + WriteRelation(x)
  }

  /** The alternatives of a clause, with the spaces around the bars between them. */
  function WritePieces(xs: seq<Alternative>, lead: string): (r: seq<string>)
    ensures |r| == |xs|
  {
    if xs == [] then []
    else [lead + (WriteAlternative(xs[0]) + if |xs| == 1 then "" else " ")] + WritePieces(xs[1..], " ")
  }

  function WriteClause(xs: seq<Alternative>): string {
    Join(WritePieces(xs, ""), '|')
  }

  function WriteClauses(field: seq<seq<Alternative>>, lead: string): (r: seq<string>)
    ensures |r| == |field|
  {
    if field == [] then [] else [lead + WriteClause(field[0])] + WriteClauses(field[1..], " ")
  }

  /** A field as the Policy Manual writes it: `a (>= 1.0) | b, c`. */
  function WriteField(field: seq<seq<Alternative>>): string {
    Join(WriteClauses(field, ""), ',')
  }

  predicate WellFormed(x: Alternative) {
    x.name != "" && NoneIn(x.name, " (|,") && NoneIn(x.version, " )|,")
    && VER_EQUAL <= x.operator <= VER_ANY && (x.operator == VER_ANY ==> x.version == "ANY")
  }

  predicate AllWellFormed(xs: seq<Alternative>) {
    forall i :: 0 <= i < |xs| ==> WellFormed(xs[i])
  }

  predicate FieldWellFormed(field: seq<seq<Alternative>>) {
    forall i :: 0 <= i < |field| ==> field[i] != [] && AllWellFormed(field[i])
  }

  function EntryOf(xs: seq<Alternative>): Entry {
    Entry(WriteClause(xs), |xs| > 1, xs)
  }

  function EntriesOf(field: seq<seq<Alternative>>): (r: seq<Entry>)
    ensures |r| == |field|
  {
    if field == [] then [] else [EntryOf(field[0])] + EntriesOf(field[1..])
  }

  // ----- what is written is read

  lemma OperatorRead(operator: nat)
    requires VER_EQUAL <= operator < VER_ANY
    ensures ReadOperator(WriteOperator(operator)) == Some(operator)
    ensures AllIn(WriteOperator(operator), "<=>") && WriteOperator(operator) != "" && NoneIn(WriteOperator(operator), " (|,")
  {
  }

  lemma VersionRead(x: Alternative, trail: string, junk: nat)
    requires WellFormed(x) && x.operator != VER_ANY
    ensures ReadVersion("(" + (WriteOperator(x.operator) + (" " + (x.version + (")" + trail)))), junk) == Some((x.version, x.operator))
  {
    hide Span, CSpan, ReadOperator, WriteOperator;
    var op := WriteOperator(x.operator);
    var close := ")" + trail;
    var version := x.version + close;
    var spaced := " " + version;
    OperatorRead(x.operator);
    FirstOf(op, spaced);
    SpanOver("(", op + spaced, " (");
    SpanOver(op, spaced, "<=>");
    FirstOf(x.version, close);
    SpanOver(" ", version, " ");
    CSpanOver(x.version, close, " )");
  }

  lemma FirstOf(a: string, b: string)
    requires b != ""
    ensures (a + b)[0] == if a == "" then b[0] else a[0]
  {
  }

  lemma AlternativeRead(x: Alternative, lead: string, trail: string, junk: nat)
    requires WellFormed(x) && AllIn(lead, " ") && AllIn(trail, " ")
    ensures ReadAlternative(lead + (WriteAlternative(x) + trail), junk) == Some(x)
  {
    hide Span, CSpan, ReadVersion, WriteOperator;
    var f := WriteAlternative(x) + trail;
    assert f[0] == x.name[0];
    SpanOver(lead, f, " ");
    if x.operator == VER_ANY {
      assert f == x.name + trail;
      CSpanOver(x.name, trail, " (");
      assert NoneIn(f, "(");
      CSpanOver(f, "", "(");
      assert f + "" == f;
    } else {
      var rest := "(" + (WriteOperator(x.operator) + (" " + (x.version + (")" + trail))));
      VersionText(x, trail);
      assert f == x.name + (" " + rest);
      CSpanOver(x.name, " " + rest, " (");
      assert f == (x.name + " ") + rest;
      CSpanOver(x.name + " ", rest, "(");
      VersionRead(x, trail, junk);
    }
  }

  lemma VersionText(x: Alternative, trail: string)
    requires x.operator != VER_ANY
    ensures WriteRelation(x) + trail == " " + ("(" + (WriteOperator(x.operator) + (" " + (x.version + (")" + trail)))))
  {
    hide WriteOperator;
  }

  /** No bar and no comma is written inside an alternative. */
  lemma AlternativeText(x: Alternative)
    requires WellFormed(x)
    ensures NoneIn(WriteAlternative(x), "|,") && WriteAlternative(x) != "" && WriteAlternative(x)[0] != ' '
  {
    hide WriteOperator;
    assert x.name[0] !in " (|,";
    if x.operator != VER_ANY {
      OperatorRead(x.operator);
      assert NoneIn(x.name + (" (" + (WriteOperator(x.operator) + (" " + (x.version + ")")))), "|,");
    }
  }

  lemma {:induction false} PiecesText(xs: seq<Alternative>, lead: string)
    requires AllWellFormed(xs) && AllIn(lead, " ")
    ensures Piecelike(WritePieces(xs, lead), '|')
    ensures forall i :: 0 <= i < |xs| ==> ',' !in WritePieces(xs, lead)[i]
  {
    hide WriteAlternative;
    if xs != [] {
      AlternativeText(xs[0]);
      PiecesText(xs[1..], " ");
    }
  }

  lemma {:induction false} PiecesRead(xs: seq<Alternative>, lead: string, junk: nat)
    requires AllWellFormed(xs) && AllIn(lead, " ")
    ensures ReadAlternatives(WritePieces(xs, lead), junk) == Some(xs)
  {
    hide WriteAlternative, ReadAlternative, WellFormed;
    if xs != [] {
      AlternativeRead(xs[0], lead, if |xs| == 1 then "" else " ", junk);
      PiecesRead(xs[1..], " ", junk);
      assert xs == [xs[0]] + xs[1..];
    }
  }

  lemma {:induction false} JoinWithout(xs: seq<string>, d: char, c: char)
    requires d != c && forall i :: 0 <= i < |xs| ==> c !in xs[i]
    ensures c !in Join(xs, d)
  {
    if |xs| > 1 {
      JoinWithout(xs[1..], d, c);
    }
  }

  lemma ClauseText(xs: seq<Alternative>)
    requires xs != [] && AllWellFormed(xs)
    ensures ',' !in WriteClause(xs) && WriteClause(xs) != "" && WriteClause(xs)[0] != ' '
    ensures Pieces(WriteClause(xs), '|') == WritePieces(xs, "")
    ensures |xs| == 1 <==> WriteClause(xs) == WritePieces(xs, "")[0]
  {
    hide Pieces, WellFormed, WriteAlternative;
    var ps := WritePieces(xs, "");
    PiecesText(xs, "");
    PiecesOfJoin(ps, '|');
    JoinWithout(ps, '|', ',');
    assert WellFormed(xs[0]);
    AlternativeText(xs[0]);
    if |xs| > 1 {
      assert |WriteClause(xs)| > |ps[0]|;
    }
  }

  lemma EntryRead(xs: seq<Alternative>, lead: string, junk: nat)
    requires xs != [] && AllWellFormed(xs) && AllIn(lead, " ")
    ensures ReadEntry(lead + WriteClause(xs), junk) == Some(EntryOf(xs))
    ensures Pieces(Stripped(lead + WriteClause(xs)), '|') != []
  {
    hide Pieces, WriteClause, ReadAlternatives, WritePieces, Span, AllWellFormed;
    ClauseText(xs);
    PiecesRead(xs, "", junk);
    SpanOver(lead, WriteClause(xs), " ");
  }

  lemma {:induction false} EntriesRead(field: seq<seq<Alternative>>, lead: string, junk: nat)
    requires FieldWellFormed(field) && AllIn(lead, " ")
    ensures ReadEntries(WriteClauses(field, lead), junk) == Some(EntriesOf(field))
    ensures Piecelike(WriteClauses(field, lead), ',') && AllReadable(WriteClauses(field, lead))
  {
    hide WriteClause, ReadEntry, EntryOf, AllWellFormed, Pieces, Stripped;
    if field != [] {
      EntryRead(field[0], lead, junk);
      ClauseText(field[0]);
      EntriesRead(field[1..], " ", junk);
    }
  }

  /** A field that is written as it should be is read as what it says. */
  lemma FieldRoundTrip(field: seq<seq<Alternative>>, junk: nat)
    requires FieldWellFormed(field)
    ensures ReadField(WriteField(field), junk) == Some(EntriesOf(field))
    ensures field != [] ==> Readable(WriteField(field))
  {
    hide Pieces, WriteClauses, ReadEntries, EntriesOf, FieldWellFormed, AllReadable;
    EntriesRead(field, "", junk);
    PiecesOfJoin(WriteClauses(field, ""), ',');
  }

  // ----- the clauses of a field

  predicate Dependency(kind: nat) {
    kind == EDGE_DEPENDS || kind == EDGE_PRE_DEPENDS
  }

  function EdgeOf(x: Alternative, kind: nat): Edge {
    Edge(kind, x.name, x.version, x.operator, 0)
  }

  function EdgesOf(xs: seq<Alternative>, kind: nat): (es: seq<Edge>)
    ensures |es| == |xs| && forall i :: 0 <= i < |es| ==> es[i] == EdgeOf(xs[i], kind)
  {
    seq(|xs|, i requires 0 <= i < |xs| => EdgeOf(xs[i], kind))
  }

  /** Several alternatives of a dependency are one clause; everything else stands by itself. */
  function ClausesOf(entries: seq<Entry>, kind: nat): seq<Clause> {
    if entries == [] then [] else EntryClauses(entries[0], kind) + ClausesOf(entries[1..], kind)
  }

  function EntryClauses(e: Entry, kind: nat): seq<Clause> {
    if Dependency(kind) && e.several then
      [Any(Edge(kind + 1, e.text, "", 0, |e.alternatives|), EdgesOf(e.alternatives, kind))]
    else Singles(e.alternatives, kind)
  }

  function Singles(xs: seq<Alternative>, kind: nat): (cs: seq<Clause>)
    ensures |cs| == |xs|
    ensures forall i :: 0 <= i < |cs| ==> cs[i] == if Dependency(kind) then One(EdgeOf(xs[i], kind)) else Other(EdgeOf(xs[i], kind))
  {
    seq(|xs|, i requires 0 <= i < |xs| => if Dependency(kind) then One(EdgeOf(xs[i], kind)) else Other(EdgeOf(xs[i], kind)))
  }

  /** The edges of one clause, the root counting the alternatives after it. */
  function EntryEdges(e: Entry, kind: nat): seq<Edge> {
    RootEdge(Dependency(kind) && e.several, e.text, |e.alternatives|, kind) + EdgesOf(e.alternatives, kind)
  }

  function RootEdge(present: bool, text: string, count: nat, kind: nat): seq<Edge> {
    if present then [Edge(kind + 1, text, "", 0, count)] else []
  }

  lemma {:induction false} FlattenConcat(a: seq<Clause>, b: seq<Clause>)
    ensures Flatten(a + b) == Flatten(a) + Flatten(b)
  {
    hide ClauseEdges;
    if a == [] {
      assert a + b == b;
    } else {
      FlattenConcat(a[1..], b);
      assert (a + b)[1..] == a[1..] + b;
      Assoc(ClauseEdges(a[0]), Flatten(a[1..]), Flatten(b));
    }
  }

  lemma {:induction false} FlattenSingles(xs: seq<Alternative>, kind: nat)
    ensures Flatten(Singles(xs, kind)) == EdgesOf(xs, kind)
  {
    if xs != [] {
      FlattenSingles(xs[1..], kind);
      assert Singles(xs, kind)[1..] == Singles(xs[1..], kind);
      assert EdgesOf(xs, kind) == [EdgeOf(xs[0], kind)] + EdgesOf(xs[1..], kind);
    }
  }

  lemma FlattenEntry(e: Entry, kind: nat)
    ensures Flatten(EntryClauses(e, kind)) == EntryEdges(e, kind)
  {
    if Dependency(kind) && e.several {
      var cs := EntryClauses(e, kind);
      assert cs[1..] == [] && Flatten(cs[1..]) == [];
      assert Flatten(cs) == ClauseEdges(cs[0]) + [];
    } else {
      FlattenSingles(e.alternatives, kind);
    }
  }

  lemma {:induction false} ClausesConcat(a: seq<Entry>, e: Entry, kind: nat)
    ensures ClausesOf(a + [e], kind) == ClausesOf(a, kind) + EntryClauses(e, kind)
  {
    hide EntryClauses;
    if a == [] {
      assert a + [e] == [e] && [e][1..] == [];
    } else {
      ClausesConcat(a[1..], e, kind);
      assert (a + [e])[1..] == a[1..] + [e];
    }
  }

  /** One more entry. */
  lemma FlattenMore(a: seq<Entry>, e: Entry, kind: nat)
    ensures Flatten(ClausesOf(a + [e], kind)) == Flatten(ClausesOf(a, kind)) + EntryEdges(e, kind)
  {
    ClausesConcat(a, e, kind);
    FlattenConcat(ClausesOf(a, kind), EntryClauses(e, kind));
    FlattenEntry(e, kind);
  }

  /** Some alternative of every clause is met. */
  ghost predicate FieldMet(t: Tables, field: seq<seq<Alternative>>, kind: nat)
    requires t.StatusSound()
  {
    forall i :: 0 <= i < |field| ==> SomeMet(t, field[i], kind)
  }

  ghost predicate SomeMet(t: Tables, xs: seq<Alternative>, kind: nat)
    requires t.StatusSound()
  {
    exists k :: 0 <= k < |xs| && t.Met(EdgeOf(xs[k], kind))
  }

  lemma EntryMeaning(t: Tables, xs: seq<Alternative>, kind: nat)
    requires t.StatusSound() && Dependency(kind) && xs != []
    ensures AllMet(t, EntryClauses(EntryOf(xs), kind)) <==> SomeMet(t, xs, kind)
  {
    hide Tables.Met, EdgeOf, WriteClause;
    var cs := EntryClauses(EntryOf(xs), kind);
    assert |cs| == 1 && (AllMet(t, cs) <==> ClauseMet(t, cs[0]));
  }

  lemma AllMetConcat(t: Tables, a: seq<Clause>, b: seq<Clause>)
    requires t.StatusSound()
    ensures AllMet(t, a + b) <==> AllMet(t, a) && AllMet(t, b)
  {
    hide ClauseMet;
    if AllMet(t, a + b) {
      assert forall i :: 0 <= i < |a| ==> (a + b)[i] == a[i];
      assert forall i :: 0 <= i < |b| ==> (a + b)[|a| + i] == b[i];
    }
  }

  /** The clauses of a field are met exactly if each of them has an alternative that is. */
  lemma {:induction false} FieldMeaning(t: Tables, field: seq<seq<Alternative>>, kind: nat)
    requires t.StatusSound() && Dependency(kind) && forall i :: 0 <= i < |field| ==> field[i] != []
    ensures AllMet(t, ClausesOf(EntriesOf(field), kind)) <==> FieldMet(t, field, kind)
  {
    hide EntryClauses, AllMet, SomeMet, EntryOf, Tables.StatusSound;
    if field == [] {
      NothingToMeet(t);
    } else {
      EntryMeaning(t, field[0], kind);
      FieldMeaning(t, field[1..], kind);
      var entries := EntriesOf(field);
      assert entries[1..] == EntriesOf(field[1..]);
      AllMetConcat(t, EntryClauses(entries[0], kind), ClausesOf(entries[1..], kind));
      assert field == [field[0]] + field[1..];
    }
  }

  lemma NothingToMeet(t: Tables)
    requires t.StatusSound()
    ensures AllMet(t, [])
  {
  }

  // ----- what is read is sound

  ghost predicate EntrySound(e: Entry) {
    e.alternatives != [] && (e.several || |e.alternatives| == 1)
    && forall k :: 0 <= k < |e.alternatives| ==> CText(e.alternatives[k].version)
  }

  ghost predicate EntriesSound(entries: seq<Entry>) {
    forall i :: 0 <= i < |entries| ==> EntrySound(entries[i])
  }

  lemma {:induction false} ClausesSound(entries: seq<Entry>, kind: nat)
    requires EntriesSound(entries) && kind != EDGE_OR_DEPENDS && kind != EDGE_OR_PRE_DEPENDS
    ensures AllSound(ClausesOf(entries, kind))
  {
    hide CText;
    if entries != [] {
      ClausesSound(entries[1..], kind);
      assert EntrySound(entries[0]);
    }
  }

  lemma {:induction false} PiecesCText(s: string, d: char)
    requires CText(s)
    ensures forall i :: 0 <= i < |Pieces(s, d)| ==> CText(Pieces(s, d)[i])
    decreases |s|
  {
    var r := NextPiece(s, d);
    if r.Some? {
      PiecesCText(r.value.1, d);
    }
  }

  lemma VersionCText(text: string, junk: nat)
    requires CText(text) && ReadVersion(text, junk).Some?
    ensures CText(ReadVersion(text, junk).value.0)
  {
    hide CText, Span, CSpan, ReadOperator;
    var v := text[Span(text, " (")..];
    SliceCText(text, Span(text, " ("), |text|);
    var w := v[Span(v, "<=>")..];
    SliceCText(v, Span(v, "<=>"), |v|);
    SliceCText(w, Span(w, " "), |w|);
    SliceCText(Stripped(w), 0, CSpan(Stripped(w), " )"));
  }

  lemma AlternativeCText(piece: string, junk: nat)
    requires CText(piece) && ReadAlternative(piece, junk).Some?
    ensures CText(ReadAlternative(piece, junk).value.version)
  {
    assert CText("ANY");
    hide CText, Span, CSpan, ReadVersion;
    var f := Stripped(piece);
    SliceCText(piece, Span(piece, " "), |piece|);
    var i := CSpan(f, "(");
    if i < |f| {
      SliceCText(f, i, |f|);
      VersionCText(f[i..], junk);
    }
  }

  lemma SliceCText(s: string, i: nat, j: nat)
    requires CText(s) && i <= j <= |s|
    ensures CText(s[i..j])
    ensures j == |s| ==> s[i..j] == s[i..]
  {
  }

  lemma {:induction false} AlternativesCText(pieces: seq<string>, junk: nat)
    requires (forall i :: 0 <= i < |pieces| ==> CText(pieces[i])) && ReadAlternatives(pieces, junk).Some?
    ensures forall k :: 0 <= k < |pieces| ==> CText(ReadAlternatives(pieces, junk).value[k].version)
  {
    hide CText, ReadAlternative;
    if pieces != [] {
      AlternativeCText(pieces[0], junk);
      AlternativesCText(pieces[1..], junk);
    }
  }

  /** A text that is its own first piece is its only piece. */
  lemma OnlyPiece(text: string, d: char)
    requires Pieces(text, d) != [] && text == Pieces(text, d)[0]
    ensures Pieces(text, d) == [text]
  {
    var r := NextPiece(text, d);
    assert r.value.0 == text && Span(text, [d]) == 0;
    assert r.value.1 == "";
    assert Pieces("", d) == [];
  }

  lemma EntryIsSound(piece: string, junk: nat)
    requires CText(piece) && Pieces(Stripped(piece), '|') != [] && ReadEntry(piece, junk).Some?
    ensures EntrySound(ReadEntry(piece, junk).value)
  {
    hide CText, ReadAlternatives, Span, Pieces;
    var text := Stripped(piece);
    SliceCText(piece, Span(piece, " "), |piece|);
    var ps := Pieces(text, '|');
    PiecesCText(text, '|');
    AlternativesCText(ps, junk);
    if text == ps[0] {
      OnlyPiece(text, '|');
    }
  }

  lemma {:induction false} EntriesAreSound(pieces: seq<string>, junk: nat)
    requires AllReadable(pieces) && forall i :: 0 <= i < |pieces| ==> CText(pieces[i])
    requires ReadEntries(pieces, junk).Some?
    ensures EntriesSound(ReadEntries(pieces, junk).value)
  {
    hide CText, ReadEntry, EntrySound, Pieces;
    if pieces != [] {
      EntryIsSound(pieces[0], junk);
      EntriesAreSound(pieces[1..], junk);
    }
  }

  /** The edges of a readable field stand for its clauses, as the dependency check needs it. */
  lemma FieldSound(line: string, kind: nat, junk: nat)
    requires CText(line) && Readable(line) && ReadField(line, junk).Some?
    requires kind != EDGE_OR_DEPENDS && kind != EDGE_OR_PRE_DEPENDS
    ensures AllSound(ClausesOf(ReadField(line, junk).value, kind))
  {
    hide CText, ClausesOf, ReadEntries;
    PiecesCText(line, ',');
    EntriesAreSound(Pieces(line, ','), junk);
    ClausesSound(ReadField(line, junk).value, kind);
  }

  // ----- add_split_dependencies

  /** The pieces still to come in a loop over strtok_r. */
  function Left(next: Option<(string, string)>, d: char): seq<string> {
    if next.None? then [] else [next.value.0] + Pieces(next.value.1, d)
  }

  function Following<T>(done: seq<T>, r: Option<seq<T>>): Option<seq<T>> {
    if r.None? then None else Some(done + r.value)
  }

  lemma FollowingBefore<T>(done: seq<T>, x: Option<T>, r: Option<seq<T>>)
    ensures x.None? ==> Following(done, Before(x, r)).None?
    ensures x.Some? ==> Following(done, Before(x, r)) == Following(done + [x.value], r)
  {
    if x.Some? && r.Some? {
      Assoc(done, [x.value], r.value);
    }
  }

  lemma FollowingNone<T>(r: Option<seq<T>>)
    ensures Following([], r) == r
  {
    assert r.Some? ==> [] + r.value == r.value;
  }

  lemma FollowingAll<T>(done: seq<T>, r: Option<seq<T>>)
    ensures r == Some([]) ==> Following(done, r) == Some(done)
  {
    assert done + [] == done;
  }

  /** strncmp(version, pattern, n) == 0, with n characters at least in `version`. */
  predicate Agrees(version: string, pattern: string, n: nat)
    requires n <= |version|
  {
    version[..n] <= pattern
  }

  /** The chain of comparisons that finds the operator in front of a version. */
  method FindOperator(version: string, n: nat) returns (r: Option<nat>)
    requires 0 < n <= |version|
    ensures r == ReadOperator(version[..n])
  {
    if Agrees(version, "=", n) {
      r := Some(VER_EQUAL);
    } else if Agrees(version, "<<", n) {
      r := Some(VER_LESS);
    } else if Agrees(version, "<=", n) {
      r := Some(VER_LESS_EQUAL);
    } else if Agrees(version, ">>", n) {
      r := Some(VER_MORE);
    } else if Agrees(version, ">=", n) {
      r := Some(VER_MORE_EQUAL);
    } else {
      r := None;
    }
  }

  lemma PlainRead(x: Alternative, junk: nat)
    requires WellFormed(x)
    ensures ReadAlternative(WriteAlternative(x), junk) == Some(x)
  {
    hide ReadAlternative, WriteAlternative;
    AlternativeRead(x, "", "", junk);
    assert "" + (WriteAlternative(x) + "") == WriteAlternative(x);
  }

  /** The body of the inner loop: the edge of one alternative, or the fatal error. */
  method MakeEdge(piece: string, kind: nat, junk: nat) returns (r: Option<Edge>)
    ensures r == match ReadAlternative(piece, junk) case None => None case Some(x) => Some(EdgeOf(x, kind))
    ensures forall x :: WellFormed(x) && piece == WriteAlternative(x) ==> r == Some(Edge(kind, x.name, x.version, x.operator, 0))
  {
    hide Span, CSpan, ReadOperator, WellFormed, WriteAlternative;
    forall x | WellFormed(x) && piece == WriteAlternative(x) ensures ReadAlternative(piece, junk) == Some(x) {
      PlainRead(x, junk);
    }
    var operator := junk;
    var field2 := piece[Span(piece, " ")..];
    var version;
    var open := CSpan(field2, "(");
    if open == |field2| {
      operator := VER_ANY;
      version := "ANY";
    } else {
      version := field2[open..];
      version := version[Span(version, " (")..];
      var offset := Span(version, "<=>");
      if offset > 0 {
        var known := FindOperator(version, offset);
        if known.None? {
          return None;
        }
        operator := known.value;
      }
      version := version[offset..];
      version := version[Span(version, " ")..];
      version := version[..CSpan(version, " )")];
    }
    field2 := field2[..CSpan(field2, " (")];
    r := Some(Edge(kind, field2, version, operator, 0));
  }

  /** common_node_t, as far as its edges go. */
  class Node {
    var edges: seq<Edge>

    constructor ()
      ensures edges == []
    {
      edges := [];
    }

    /** add_edge_to_node */
    method AddEdge(e: Edge)
      modifies this
      ensures edges == old(edges) + [e]
    {
      edges := edges + [e];
    }

    /** The body of the outer loop: what stands between two commas. */
    method AddEntry(piece: string, kind: nat, junk: nat) returns (ok: bool)
      requires Pieces(Stripped(piece), '|') != []
      modifies this
      ensures ok <==> ReadEntry(piece, junk).Some?
      ensures ok ==> edges == old(edges) + EntryEdges(ReadEntry(piece, junk).value, kind)
    {
      hide ReadAlternative, Span, EdgeOf, EdgesOf, RootEdge, Pieces, NextPiece, Following;
      var field := piece[Span(piece, " ")..];
      var next := NextPiece(field, '|');
      FirstLeft(field, '|');
      var root, orEdge := false, |edges|;
      if Dependency(kind) && field != next.value.0 {
        root := true;
        AddEdge(Edge(kind + 1, field, "", 0, 0));
      }
      ghost var done: seq<Alternative> := [];
      ghost var all := ReadAlternatives(Pieces(field, '|'), junk);
      FollowingNone(all);
      NoneYet(root, field, kind);
      while next.Some?
        invariant Following(done, ReadAlternatives(Left(next, '|'), junk)) == all
        invariant edges == old(edges) + (RootEdge(root, field, |done|, kind) + EdgesOf(done, kind))
        decreases if next.Some? then 1 + |next.value.1| else 0
      {
        var edge := MakeEdge(next.value.0, kind, junk);
        FollowingBefore(done, ReadAlternative(next.value.0, junk), ReadAlternatives(Pieces(next.value.1, '|'), junk));
        NextLeft(next, '|');
        if edge.None? {
          return false;
        }
        OneMore(old(edges), edges, root, field, kind, done, ReadAlternative(next.value.0, junk).value);
        if root {
          edges := edges[orEdge := edges[orEdge].(count := edges[orEdge].count + 1)];
        }
        AddEdge(edge.value);
        done := done + [ReadAlternative(next.value.0, junk).value];
        next := NextPiece(next.value.1, '|');
      }
      FollowingAll(done, ReadAlternatives([], junk));
      ok := true;
    }

    /** add_split_dependencies: the edges of a field are appended, and they are those of its
        clauses; false is the fatal error of an operator that is not known. */
    method AddSplitDependencies(wholeLine: string, kind: nat, junk: nat) returns (ok: bool)
      requires Readable(wholeLine)
      modifies this
      ensures ok <==> ReadField(wholeLine, junk).Some?
      ensures ok ==> edges == old(edges) + Flatten(ClausesOf(ReadField(wholeLine, junk).value, kind))
    {
      hide ReadEntry, Flatten, ClausesOf, EntryEdges, NextPiece, Stripped, AllReadable, Pieces;
      var next := NextPiece(wholeLine, ',');
      ghost var done: seq<Entry> := [];
      ghost var all := ReadField(wholeLine, junk);
      FirstLeft(wholeLine, ',');
      FollowingNone(all);
      NoClauses(kind);
      while next.Some?
        invariant AllReadable(Left(next, ','))
        invariant Following(done, ReadEntries(Left(next, ','), junk)) == all
        invariant edges == old(edges) + Flatten(ClausesOf(done, kind))
        decreases if next.Some? then 1 + |next.value.1| else 0
      {
        NextReadable(Left(next, ','));
        var added := AddEntry(next.value.0, kind, junk);
        FollowingBefore(done, ReadEntry(next.value.0, junk), ReadEntries(Pieces(next.value.1, ','), junk));
        NextLeft(next, ',');
        if !added {
          return false;
        }
        FlattenMore(done, ReadEntry(next.value.0, junk).value, kind);
        done := done + [ReadEntry(next.value.0, junk).value];
        next := NextPiece(next.value.1, ',');
      }
      assert done + [] == done;
      ok := true;
    }
  }

  lemma NextReadable(pieces: seq<string>)
    requires AllReadable(pieces) && pieces != []
    ensures Pieces(Stripped(pieces[0]), '|') != [] && AllReadable(pieces[1..])
  {
    hide Pieces, Stripped;
  }

  /** One more alternative: the root counts it, and its edge is appended. */
  lemma OneMore(before: seq<Edge>, edges: seq<Edge>, root: bool, text: string, kind: nat, done: seq<Alternative>, x: Alternative)
    requires edges == before + (RootEdge(root, text, |done|, kind) + EdgesOf(done, kind))
    ensures root ==> |before| < |edges|
    ensures (if root then edges[|before| := edges[|before|].(count := edges[|before|].count + 1)] else edges) + [EdgeOf(x, kind)]
         == before + (RootEdge(root, text, |done + [x]|, kind) + EdgesOf(done + [x], kind))
  {
    hide EdgeOf;
    assert EdgesOf(done + [x], kind) == EdgesOf(done, kind) + [EdgeOf(x, kind)];
  }

  lemma NoneYet(root: bool, text: string, kind: nat)
    ensures RootEdge(root, text, 0, kind) + EdgesOf([], kind) == if root then [Edge(kind + 1, text, "", 0, 0)] else []
  {
  }

  lemma NoClauses(kind: nat)
    ensures Flatten(ClausesOf([], kind)) == []
  {
  }

  lemma FirstLeft(s: string, d: char)
    ensures Left(NextPiece(s, d), d) == Pieces(s, d)
  {
  }

  lemma NextLeft(next: Option<(string, string)>, d: char)
    requires next.Some?
    ensures Left(next, d)[0] == next.value.0 && Left(next, d)[1..] == Left(NextPiece(next.value.1, d), d) == Pieces(next.value.1, d)
    ensures NextPiece(next.value.1, d).Some? ==> |NextPiece(next.value.1, d).value.1| < |next.value.1|
  {
  }
}
