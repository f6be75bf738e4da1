/** What the dependency check decides, said about the text of the control data alone: the
    names and relations in the fields, the versions of the packages, and the status words. */
module Requirements {
  import opened Bits
  import opened CStrings
  import opened Versions
  import opened Depends
  import opened Fields
  import opened Control

  /** A package that a field names: with a relation to a version, or "" for any version. */
  datatype Need = Need(name: string, relation: string, version: string)

  /** A field: its name, and the packages, in alternatives and clauses. */
  datatype Declared = Declared(name: string, needs: seq<seq<Need>>)

  // ----- the text of a field

  function NeedText(n: Need): string {
    if n.relation == "" then n.name else n.name + " (" + n.relation + " " + n.version + ")"
  }

  /** Texts with a separator between them. */
  function Listed(texts: seq<string>, separator: string): string {
    if texts == [] then "" else if |texts| == 1 then texts[0] else texts[0] + separator + Listed(texts[1..], separator)
  }

  function Texts(xs: seq<Need>): (r: seq<string>)
    ensures |r| == |xs|
  {
    if xs == [] then [] else [NeedText(xs[0])] + Texts(xs[1..])
  }

  function ClauseTexts(needs: seq<seq<Need>>): (r: seq<string>)
    ensures |r| == |needs|
  {
    if needs == [] then [] else [Listed(Texts(needs[0]), " | ")] + ClauseTexts(needs[1..])
  }

  /** Alternatives with bars between them, clauses with commas. */
  function FieldText(needs: seq<seq<Need>>): string {
    Listed(ClauseTexts(needs), ", ")
  }

  predicate ProperNeed(n: Need) {
    n.name != "" && NoneIn(n.name, " (|,") && NoneIn(n.version, " )|,") && n.relation in ["", "=", "<<", "<=", ">>", ">="]
    && CText(n.version)
  }

  ghost predicate ProperClause(xs: seq<Need>) {
    xs != [] && forall i :: 0 <= i < |xs| ==> ProperNeed(xs[i])
  }

  ghost predicate ProperDeclared(d: Declared) {
    d.needs != [] && (forall i :: 0 <= i < |d.needs| ==> ProperClause(d.needs[i])) && CText(FieldText(d.needs))
  }

  // ----- what the fields ask for

  /** The relation holds between two versions, by their parts. */
  ghost predicate Fits(version: string, relation: string, wanted: string) {
    exists v, w :: Parted(v) && Parted(w) && WriteVersion(v) == version && WriteVersion(w) == wanted
      && Relates(relation, VersionOrder(v, w))
  }

  /** One of the fields lists the name as provided. */
  ghost predicate Offers(info: seq<Declared>, name: string) {
    exists f :: 0 <= f < |info| && info[f].name == "Provides" && Names(info[f].needs, name)
  }

  ghost predicate Names(needs: seq<seq<Need>>, name: string) {
    exists i, k :: 0 <= i < |needs| && 0 <= k < |needs[i]| && needs[i][k].name == name
  }

  /** There is a package of that name in a version that fits, or one that provides the name,
      and its status has the word in the place. */
  ghost predicate Answered(t: Tables, infos: seq<seq<Declared>>, n: Need, num: nat, word: string)
    requires t.StatusSound() && |infos| == |t.packages| && num >= 1
  {
    exists b: nat :: Answers(t, infos, n, num, word, b)
  }

  ghost predicate Answers(t: Tables, infos: seq<seq<Declared>>, n: Need, num: nat, word: string, b: nat)
    requires t.StatusSound() && |infos| == |t.packages| && num >= 1
  {
    b < |t.packages| && t.packages[b].Some?
    && (var p := t.packages[b].value;
        (p.name == n.name && (n.relation == "" || Fits(p.version, n.relation, n.version))) || Offers(infos[b], n.name))
    && t.HasStatus(t.packages[b].value.name, num, word)
  }

  /** Each clause of the field has an alternative that is answered. */
  ghost predicate Fulfilled(t: Tables, infos: seq<seq<Declared>>, needs: seq<seq<Need>>, num: nat, word: string)
    requires t.StatusSound() && |infos| == |t.packages| && num >= 1
  {
    forall i :: 0 <= i < |needs| ==> SomeAnswered(t, infos, needs[i], num, word)
  }

  ghost predicate SomeAnswered(t: Tables, infos: seq<seq<Declared>>, xs: seq<Need>, num: nat, word: string)
    requires t.StatusSound() && |infos| == |t.packages| && num >= 1
  {
    exists k :: 0 <= k < |xs| && Answered(t, infos, xs[k], num, word)
  }

  /** What a package asks for is there: what it depends on is to be installed, what it
      pre-depends on is installed. */
  ghost predicate Content(t: Tables, infos: seq<seq<Declared>>, info: seq<Declared>)
    requires t.StatusSound() && |infos| == |t.packages|
  {
    forall f :: 0 <= f < |info| ==>
      (info[f].name == "Depends" ==> Fulfilled(t, infos, info[f].needs, 1, "install"))
      && (info[f].name == "Pre-Depends" ==> Fulfilled(t, infos, info[f].needs, 3, "installed"))
  }

  // ----- the text is what the field of alternatives writes

  function AlternativeOf(n: Need): Alternative {
    Alternative(n.name, if n.relation == "" then "ANY" else n.version, OperatorNumber(n.relation))
  }

  function ClauseOf(xs: seq<Need>): (r: seq<Alternative>)
    ensures |r| == |xs| && forall k :: 0 <= k < |r| ==> r[k] == AlternativeOf(xs[k])
  {
    seq(|xs|, k requires 0 <= k < |xs| => AlternativeOf(xs[k]))
  }

  function ClausesFor(needs: seq<seq<Need>>): (r: seq<seq<Alternative>>)
    ensures |r| == |needs| && forall i :: 0 <= i < |r| ==> r[i] == ClauseOf(needs[i])
  {
    seq(|needs|, i requires 0 <= i < |needs| => ClauseOf(needs[i]))
  }

  lemma NeedWritten(n: Need)
    requires ProperNeed(n)
    ensures WriteAlternative(AlternativeOf(n)) == NeedText(n) && WellFormed(AlternativeOf(n))
  {
    hide CText;
    RelationWritten(n.relation);
    hide OperatorNumber, WriteOperator;
    if n.relation != "" {
      var o, v := n.relation, n.version;
      assert n.name + (" (" + (o + (" " + (v + ")")))) == n.name + " (" + o + " " + v + ")";
    }
  }

  lemma RelationWritten(relation: string)
    requires relation in ["", "=", "<<", "<=", ">>", ">="]
    ensures VER_EQUAL <= OperatorNumber(relation) <= VER_ANY && (OperatorNumber(relation) == VER_ANY <==> relation == "")
    ensures relation != "" ==> WriteOperator(OperatorNumber(relation)) == relation
  {
  }

  lemma {:induction false} ClauseWritten(xs: seq<Need>, lead: string)
    requires ProperClause(xs)
    ensures Join(WritePieces(ClauseOf(xs), lead), '|') == lead + Listed(Texts(xs), " | ")
    ensures AllWellFormed(ClauseOf(xs))
    decreases |xs|
  {
    hide WriteAlternative, NeedText, AlternativeOf, ProperNeed, WellFormed;
    var ys, rest := ClauseOf(xs), xs[1..];
    forall k | 0 <= k < |ys| ensures WellFormed(ys[k]) {
      assert ProperNeed(xs[k]);
      NeedWritten(xs[k]);
    }
    NeedWritten(xs[0]);
    if |xs| == 1 {
      assert WritePieces(ys, lead) == [lead + (WriteAlternative(ys[0]) + "")];
      assert WriteAlternative(ys[0]) + "" == WriteAlternative(ys[0]);
      assert Texts(xs) == [NeedText(xs[0])];
    } else {
      ClauseWritten(rest, " ");
      assert ys[1..] == ClauseOf(rest);
      MorePieces(ys, lead);
      assert Texts(xs)[1..] == Texts(rest);
      Joined(lead, NeedText(xs[0]), Listed(Texts(rest), " | "));
    }
  }

  lemma Joined(lead: string, x: string, rest: string)
    ensures (lead + (x + " ")) + (['|'] + (" " + rest)) == lead + (x + " | " + rest)
  {
  }

  lemma MorePieces(ys: seq<Alternative>, lead: string)
    requires |ys| > 1
    ensures Join(WritePieces(ys, lead), '|')
         == (lead + (WriteAlternative(ys[0]) + " ")) + (['|'] + Join(WritePieces(ys[1..], " "), '|'))
  {
    hide WriteAlternative;
    var p := WritePieces(ys, lead);
    assert p[1..] == WritePieces(ys[1..], " ");
  }

  lemma {:induction false} FieldWritten(needs: seq<seq<Need>>, lead: string)
    requires needs != [] && forall i :: 0 <= i < |needs| ==> ProperClause(needs[i])
    ensures Join(WriteClauses(ClausesFor(needs), lead), ',') == lead + Listed(ClauseTexts(needs), ", ")
    ensures FieldWellFormed(ClausesFor(needs))
    decreases |needs|
  {
    hide Texts, Listed, ClauseOf, ProperClause, WritePieces, Join, WriteClauses, ClauseTexts, AllWellFormed;
    var field, rest := ClausesFor(needs), needs[1..];
    forall i | 0 <= i < |field| ensures field[i] != [] && AllWellFormed(field[i]) {
      assert ProperClause(needs[i]);
      ClauseWritten(needs[i], "");
      ClauseLength(needs[i]);
    }
    ClauseWritten(needs[0], "");
    FirstClause(field, lead, needs);
    if |needs| > 1 {
      FieldWritten(rest, " ");
      assert field[1..] == ClausesFor(rest);
      ListedMore(ClauseTexts(needs), ", ");
      JoinedClauses(lead, Listed(Texts(needs[0]), " | "), Listed(ClauseTexts(rest), ", "));
    }
  }

  lemma ClauseLength(xs: seq<Need>)
    requires ProperClause(xs)
    ensures ClauseOf(xs) != []
  {
    hide ProperNeed;
  }

  lemma FirstClause(field: seq<seq<Alternative>>, lead: string, needs: seq<seq<Need>>)
    requires field == ClausesFor(needs) && needs != []
    requires WriteClause(field[0]) == "" + Listed(Texts(needs[0]), " | ")
    ensures ClauseTexts(needs) == [Listed(Texts(needs[0]), " | ")] + ClauseTexts(needs[1..])
    ensures var x := Listed(Texts(needs[0]), " | ");
            Join(WriteClauses(field, lead), ',')
            == if |needs| == 1 then lead + x else (lead + x) + ([','] + Join(WriteClauses(field[1..], " "), ','))
    ensures |needs| == 1 ==> Listed(ClauseTexts(needs), ", ") == Listed(Texts(needs[0]), " | ")
  {
    hide Texts, WriteClause;
    var w := WriteClauses(field, lead);
    assert "" + Listed(Texts(needs[0]), " | ") == Listed(Texts(needs[0]), " | ");
    assert w == [lead + WriteClause(field[0])] + WriteClauses(field[1..], " ");
    assert w[1..] == WriteClauses(field[1..], " ");
  }

  lemma ListedMore(texts: seq<string>, separator: string)
    requires |texts| > 1
    ensures Listed(texts, separator) == texts[0] + separator + Listed(texts[1..], separator)
  {
  }

  lemma JoinedClauses(lead: string, x: string, rest: string)
    ensures (lead + x) + ([','] + (" " + rest)) == lead + (x + ", " + rest)
  {
  }

  /** The field of alternatives is written as the text says. */
  lemma TextWritten(needs: seq<seq<Need>>)
    requires needs != [] && forall i :: 0 <= i < |needs| ==> ProperClause(needs[i])
    ensures WriteField(ClausesFor(needs)) == FieldText(needs) && FieldWellFormed(ClausesFor(needs))
  {
    hide ProperClause, Join, WriteClauses, ClausesFor, FieldWellFormed;
    FieldWritten(needs, "");
    assert "" + Listed(ClauseTexts(needs), ", ") == Listed(ClauseTexts(needs), ", ");
  }

  // ----- what the edges of a package list

  ghost predicate Lists(edges: seq<Edge>, name: string) {
    exists j :: 0 <= j < |edges| && edges[j].kind == EDGE_PROVIDES && edges[j].name == name
  }

  lemma ListsConcat(a: seq<Edge>, b: seq<Edge>, name: string)
    ensures Lists(a + b, name) <==> Lists(a, name) || Lists(b, name)
  {
    var s := a + b;
    if Lists(a, name) {
      var j :| 0 <= j < |a| && a[j].kind == EDGE_PROVIDES && a[j].name == name;
      assert s[j] == a[j];
    }
    if Lists(b, name) {
      var j :| 0 <= j < |b| && b[j].kind == EDGE_PROVIDES && b[j].name == name;
      assert s[|a| + j] == b[j];
    }
  }

  ghost predicate InClause(xs: seq<Need>, name: string) {
    exists k :: 0 <= k < |xs| && xs[k].name == name
  }

  lemma ClauseLists(xs: seq<Need>, kind: nat, name: string)
    ensures Lists(EdgesOf(ClauseOf(xs), kind), name) <==> kind == EDGE_PROVIDES && InClause(xs, name)
  {
    hide AlternativeOf;
    var es := EdgesOf(ClauseOf(xs), kind);
    forall k | 0 <= k < |xs| ensures es[k].kind == kind && es[k].name == xs[k].name {
      assert es[k] == EdgeOf(AlternativeOf(xs[k]), kind);
      AlternativeName(xs[k]);
    }
  }

  lemma AlternativeName(n: Need)
    ensures AlternativeOf(n).name == n.name
  {
  }

  lemma EntryLists(xs: seq<Need>, kind: nat, name: string)
    ensures Lists(Flatten(EntryClauses(EntryOf(ClauseOf(xs)), kind)), name) <==> kind == EDGE_PROVIDES && InClause(xs, name)
  {
    hide Lists, InClause, ClauseOf, EdgesOf, WriteClause, EntryClauses, Flatten;
    var e := EntryOf(ClauseOf(xs));
    FlattenEntry(e, kind);
    var root := RootEdge(Dependency(kind) && e.several, e.text, |e.alternatives|, kind);
    RootLists(Dependency(kind) && e.several, e.text, |e.alternatives|, kind, name);
    ListsConcat(root, EdgesOf(e.alternatives, kind), name);
    ClauseLists(xs, kind, name);
  }

  lemma RootLists(present: bool, text: string, count: nat, kind: nat, name: string)
    requires present ==> Dependency(kind)
    ensures !Lists(RootEdge(present, text, count, kind), name)
  {
  }

  lemma NamesMore(needs: seq<seq<Need>>, name: string)
    requires needs != []
    ensures Names(needs, name) <==> InClause(needs[0], name) || Names(needs[1..], name)
  {
    if Names(needs[1..], name) {
      var i, k :| 0 <= i < |needs[1..]| && 0 <= k < |needs[1..][i]| && needs[1..][i][k].name == name;
      assert needs[i + 1][k].name == name;
    }
    if Names(needs, name) {
      var i, k :| 0 <= i < |needs| && 0 <= k < |needs[i]| && needs[i][k].name == name;
      if i > 0 {
        assert needs[1..][i - 1][k].name == name;
      }
    }
    if InClause(needs[0], name) {
      var k :| 0 <= k < |needs[0]| && needs[0][k].name == name;
      assert needs[0][k].name == name;
    }
  }

  lemma {:induction false} FieldLists(needs: seq<seq<Need>>, kind: nat, name: string)
    ensures Lists(Flatten(ClausesOf(EntriesOf(ClausesFor(needs)), kind)), name) <==> kind == EDGE_PROVIDES && Names(needs, name)
    decreases |needs|
  {
    hide Lists, InClause, ClauseOf, EntryClauses, Names, EntryOf, ClausesFor;
    if needs == [] {
      NoClauses(kind, name);
    } else {
      EntryLists(needs[0], kind, name);
      FieldLists(needs[1..], kind, name);
      NamesMore(needs, name);
      FirstEntry(needs, kind);
      hide ClausesOf, EntriesOf, Flatten;
      ListsConcat(Flatten(EntryClauses(EntryOf(ClauseOf(needs[0])), kind)),
                  Flatten(ClausesOf(EntriesOf(ClausesFor(needs[1..])), kind)), name);
    }
  }

  lemma NoClauses(kind: nat, name: string)
    ensures !Lists(Flatten(ClausesOf(EntriesOf(ClausesFor([])), kind)), name) && !Names([], name)
  {
    assert ClausesFor([]) == [];
  }

  lemma FirstEntry(needs: seq<seq<Need>>, kind: nat)
    requires needs != []
    ensures Flatten(ClausesOf(EntriesOf(ClausesFor(needs)), kind))
         == Flatten(EntryClauses(EntryOf(ClauseOf(needs[0])), kind)) + Flatten(ClausesOf(EntriesOf(ClausesFor(needs[1..])), kind))
  {
    hide EntryClauses, EntryOf, ClauseOf, Flatten;
    var cs := ClausesFor(needs);
    assert cs[1..] == ClausesFor(needs[1..]);
    var es := EntriesOf(cs);
    assert es[0] == EntryOf(ClauseOf(needs[0])) && es[1..] == EntriesOf(cs[1..]);
    FlattenConcat(EntryClauses(es[0], kind), ClausesOf(es[1..], kind));
  }

  // ----- the fields of a package

  function FieldOf(d: Declared): Field {
    Field(d.name, ClausesFor(d.needs))
  }

  function FieldsOf(info: seq<Declared>): (r: seq<Field>)
    ensures |r| == |info| && forall i :: 0 <= i < |r| ==> r[i] == FieldOf(info[i])
  {
    seq(|info|, i requires 0 <= i < |info| => FieldOf(info[i]))
  }

  /** The fields as they stand in the control data. */
  function LinesOf(info: seq<Declared>): (r: seq<Line>)
    ensures |r| == |info| && forall i :: 0 <= i < |r| ==> r[i] == Line(info[i].name, FieldText(info[i].needs))
  {
    seq(|info|, i requires 0 <= i < |info| => Line(info[i].name, FieldText(info[i].needs)))
  }

  ghost predicate ProperInfo(info: seq<Declared>) {
    forall i :: 0 <= i < |info| ==> ProperDeclared(info[i])
  }

  lemma LinesWritten(info: seq<Declared>)
    requires ProperInfo(info)
    ensures Written(FieldsOf(info)) == LinesOf(info) && AllProper(FieldsOf(info))
  {
    hide FieldText, WriteField, ClausesFor, ProperClause, FieldWellFormed, CText, KindOf;
    var fs := FieldsOf(info);
    forall i | 0 <= i < |info|
      ensures WriteField(ClausesFor(info[i].needs)) == FieldText(info[i].needs) && Proper(fs[i])
    {
      assert ProperDeclared(info[i]);
      TextWritten(info[i].needs);
      SameLength(info[i].needs);
    }
  }

  lemma SameLength(needs: seq<seq<Need>>)
    ensures |ClausesFor(needs)| == |needs|
  {
  }

  lemma OffersMore(info: seq<Declared>, name: string)
    requires info != []
    ensures Offers(info, name) <==> (info[0].name == "Provides" && Names(info[0].needs, name)) || Offers(info[1..], name)
  {
    hide Names;
    if Offers(info[1..], name) {
      var f :| 0 <= f < |info[1..]| && info[1..][f].name == "Provides" && Names(info[1..][f].needs, name);
      assert info[f + 1] == info[1..][f];
    }
    if Offers(info, name) {
      var f :| 0 <= f < |info| && info[f].name == "Provides" && Names(info[f].needs, name);
      assert f > 0 ==> info[1..][f - 1] == info[f];
    }
  }

  /** The edges of a package list exactly what its fields offer. */
  lemma {:induction false} EdgesOffer(info: seq<Declared>, name: string, junk: nat)
    requires ProperInfo(info)
    ensures Lists(Flatten(AllClauses(LinesOf(info), junk)), name) <==> Offers(info, name)
    decreases |info|
  {
    hide Lists, Offers, Names, LineClauses, FieldText, ProperDeclared, Flatten;
    var ls := LinesOf(info);
    if info == [] {
      NothingOffered(name, junk);
    } else {
      EdgesOffer(info[1..], name, junk);
      assert ls[1..] == LinesOf(info[1..]) && ls[0] == Line(info[0].name, FieldText(info[0].needs));
      FlattenConcat(LineClauses(ls[0], junk), AllClauses(ls[1..], junk));
      ListsConcat(Flatten(LineClauses(ls[0], junk)), Flatten(AllClauses(ls[1..], junk)), name);
      LineOffers(info[0], name, junk);
      OffersMore(info, name);
    }
  }

  lemma NothingOffered(name: string, junk: nat)
    ensures !Lists(Flatten(AllClauses(LinesOf([]), junk)), name) && !Offers([], name)
  {
  }

  lemma LineOffers(d: Declared, name: string, junk: nat)
    requires ProperDeclared(d)
    ensures Lists(Flatten(LineClauses(Line(d.name, FieldText(d.needs)), junk)), name)
       <==> d.name == "Provides" && Names(d.needs, name)
  {
    hide Names, FieldText, WriteField, ReadField, ClausesOf, EntriesOf, ClausesFor, ProperClause, CText, KindOf, Lists, Flatten;
    TextWritten(d.needs);
    FieldRoundTrip(ClausesFor(d.needs), junk);
    ProvidesKind(d.name);
    if KindOf(d.name).Some? {
      FieldLists(d.needs, KindOf(d.name).value, name);
    } else {
      NoneListed(name);
    }
  }

  lemma ProvidesKind(name: string)
    ensures KindOf(name) == Some(EDGE_PROVIDES) <==> name == "Provides"
  {
  }

  lemma NoneListed(name: string)
    ensures !Lists(Flatten([]), name)
  {
  }

  // ----- meeting a need

  /** A version is accepted for a need exactly if the relation holds. */
  lemma FitsIs(version: string, n: Need)
    requires ProperNeed(n) && CText(version)
    ensures var x := AlternativeOf(n);
            Accepts(version, x.version, x.operator) <==> n.relation == "" || Fits(version, n.relation, n.version)
  {
    hide *;
    NeedParts(n);
    if n.relation == "" {
      AnyVersion(version, "ANY");
    } else {
      var v := EveryVersion(version);
      var w := EveryVersion(n.version);
      AcceptsIs(v, n.relation, w);
      FitsOf(version, n.relation, n.version, v, w);
    }
  }

  lemma NeedParts(n: Need)
    requires ProperNeed(n)
    ensures n.relation in ["", "=", "<<", "<=", ">>", ">="] && CText(n.version)
    ensures n.relation == "" ==> AlternativeOf(n).version == "ANY" && AlternativeOf(n).operator == VER_ANY
    ensures n.relation != "" ==> AlternativeOf(n).version == n.version && AlternativeOf(n).operator == OperatorNumber(n.relation)
  {
    hide CText;
  }

  /** Whatever parts one finds, they are in the same order. */
  lemma FitsOf(version: string, relation: string, wanted: string, v: Version, w: Version)
    requires Parted(v) && Parted(w) && WriteVersion(v) == version && WriteVersion(w) == wanted && CText(version) && CText(wanted)
    ensures Fits(version, relation, wanted) <==> Relates(relation, VersionOrder(v, w))
  {
    hide Parted, WriteVersion, VersionOrder, Relates, CText, CmpKey, KeyOf;
    OrderIs(v, w);
    if Fits(version, relation, wanted) {
      var x, y :| Parted(x) && Parted(y) && WriteVersion(x) == version && WriteVersion(y) == wanted
        && Relates(relation, VersionOrder(x, y));
      OrderIs(x, y);
    }
  }

  /** The control data of all packages, as far as they name other packages: where a package
      has a node, its edges are those of its fields. */
  ghost predicate Known(t: Tables, infos: seq<seq<Declared>>, junk: nat) {
    |infos| == |t.packages|
    && forall a: nat :: a < |infos| && t.packages[a].Some? ==>
         ProperInfo(infos[a]) && t.packages[a].value.edges == Flatten(AllClauses(LinesOf(infos[a]), junk))
  }

  /** A dependency is met exactly if it is answered. */
  lemma AnsweredIs(t: Tables, infos: seq<seq<Declared>>, junk: nat, n: Need, kind: nat, num: nat, word: string)
    requires t.Valid() && Known(t, infos, junk) && ProperNeed(n) && num >= 1
    requires (kind == EDGE_DEPENDS && num == 1 && word == "install") || (kind == EDGE_PRE_DEPENDS && num == 3 && word == "installed")
    ensures t.StatusSound() && (t.Met(EdgeOf(AlternativeOf(n), kind)) <==> Answered(t, infos, n, num, word))
  {
    hide *;
    Sound(t);
    KnownSize(t, infos, junk);
    forall b: nat ensures MeetsAt(t, EdgeOf(AlternativeOf(n), kind), b) <==> Answers(t, infos, n, num, word, b) {
      AnswersIs(t, infos, junk, n, kind, num, word, b);
    }
    MetAt(t, EdgeOf(AlternativeOf(n), kind));
    AnsweredAt(t, infos, n, num, word);
  }

  lemma KnownSize(t: Tables, infos: seq<seq<Declared>>, junk: nat)
    requires Known(t, infos, junk)
    ensures |infos| == |t.packages|
  {
  }

  ghost predicate MeetsAt(t: Tables, e: Edge, b: nat)
    requires t.StatusSound()
  {
    b < |t.packages| && t.packages[b].Some?
    && (t.Matches(t.packages[b].value, e) || t.Provides(t.packages[b].value, e.name)) && t.Available(t.packages[b].value.name, e.kind)
  }

  lemma MetAt(t: Tables, e: Edge)
    requires t.StatusSound()
    ensures t.Met(e) <==> exists b: nat :: MeetsAt(t, e, b)
  {
    hide Tables.StatusSound, Tables.Matches, Tables.Provides, Tables.Available;
    if t.Met(e) {
      var b: nat :| b < |t.packages| && t.packages[b].Some?
        && (t.Matches(t.packages[b].value, e) || t.Provides(t.packages[b].value, e.name)) && t.Available(t.packages[b].value.name, e.kind);
      assert MeetsAt(t, e, b);
    }
  }

  lemma AnsweredAt(t: Tables, infos: seq<seq<Declared>>, n: Need, num: nat, word: string)
    requires t.StatusSound() && |infos| == |t.packages| && num >= 1
    ensures Answered(t, infos, n, num, word) <==> exists b: nat :: Answers(t, infos, n, num, word, b)
  {
    hide Answers;
  }

  lemma AnswersIs(t: Tables, infos: seq<seq<Declared>>, junk: nat, n: Need, kind: nat, num: nat, word: string, b: nat)
    requires t.Valid() && t.StatusSound() && Known(t, infos, junk) && |infos| == |t.packages| && ProperNeed(n) && num >= 1
    requires (kind == EDGE_DEPENDS && num == 1 && word == "install") || (kind == EDGE_PRE_DEPENDS && num == 3 && word == "installed")
    ensures MeetsAt(t, EdgeOf(AlternativeOf(n), kind), b) <==> Answers(t, infos, n, num, word, b)
  {
    if b < |t.packages| && t.packages[b].Some? {
      var p := t.packages[b].value;
      VersionCText(t, b);
      hide Tables.Valid, Tables.StatusSound, ProperNeed, Fits, Offers, Lists, Tables.HasStatus, Tables.Available, Accepts, AlternativeOf,
           Flatten, AllClauses, LinesOf, ProperInfo;
      FitsIs(p.version, n);
      EdgesOffer(infos[b], n.name, junk);
      ProvidesLists(t, p, n.name);
      AvailableIs(t, p.name);
      AlternativeName(n);
    }
  }

  lemma VersionCText(t: Tables, b: nat)
    requires t.Valid() && b < |t.packages| && t.packages[b].Some?
    ensures CText(t.packages[b].value.version)
  {
  }

  lemma ProvidesLists(t: Tables, p: Package, name: string)
    ensures t.Provides(p, name) <==> Lists(p.edges, name)
  {
  }

  lemma FulfilledIs(t: Tables, infos: seq<seq<Declared>>, junk: nat, needs: seq<seq<Need>>, kind: nat, num: nat, word: string)
    requires t.Valid() && Known(t, infos, junk) && num >= 1 && forall i :: 0 <= i < |needs| ==> ProperClause(needs[i])
    requires (kind == EDGE_DEPENDS && num == 1 && word == "install") || (kind == EDGE_PRE_DEPENDS && num == 3 && word == "installed")
    ensures t.StatusSound() && (FieldMet(t, ClausesFor(needs), kind) <==> Fulfilled(t, infos, needs, num, word))
  {
    Sound(t);
    KnownSize(t, infos, junk);
    hide Tables.Valid, Tables.StatusSound, Known, SomeAnswered, SomeMet, ProperClause;
    forall i | 0 <= i < |needs|
      ensures SomeMet(t, ClausesFor(needs)[i], kind) <==> SomeAnswered(t, infos, needs[i], num, word)
    {
      SomeMetIs(t, infos, junk, needs[i], kind, num, word);
    }
  }

  lemma SomeMetIs(t: Tables, infos: seq<seq<Declared>>, junk: nat, xs: seq<Need>, kind: nat, num: nat, word: string)
    requires t.Valid() && t.StatusSound() && Known(t, infos, junk) && |infos| == |t.packages| && num >= 1 && ProperClause(xs)
    requires (kind == EDGE_DEPENDS && num == 1 && word == "install") || (kind == EDGE_PRE_DEPENDS && num == 3 && word == "installed")
    ensures SomeMet(t, ClauseOf(xs), kind) <==> SomeAnswered(t, infos, xs, num, word)
  {
    hide Tables.Valid, Tables.StatusSound, Known, Answered, Tables.Met, EdgeOf, AlternativeOf, ProperNeed;
    var ys := ClauseOf(xs);
    forall k | 0 <= k < |xs| ensures t.Met(EdgeOf(ys[k], kind)) <==> Answered(t, infos, xs[k], num, word) {
      AnsweredIs(t, infos, junk, xs[k], kind, num, word);
    }
  }

  lemma ContentIs(t: Tables, infos: seq<seq<Declared>>, junk: nat, info: seq<Declared>)
    requires t.Valid() && Known(t, infos, junk) && ProperInfo(info)
    ensures t.StatusSound() && (AllFieldsMet(t, FieldsOf(info)) <==> Content(t, infos, info))
  {
    Sound(t);
    KnownSize(t, infos, junk);
    hide Tables.Valid, Tables.StatusSound, Known, FieldMet, Fulfilled, ProperDeclared, ClausesFor;
    forall f | 0 <= f < |info|
      ensures FieldMet(t, ClausesFor(info[f].needs), EDGE_DEPENDS) <==> Fulfilled(t, infos, info[f].needs, 1, "install")
      ensures FieldMet(t, ClausesFor(info[f].needs), EDGE_PRE_DEPENDS) <==> Fulfilled(t, infos, info[f].needs, 3, "installed")
    {
      DeclaredClauses(info[f]);
      FulfilledIs(t, infos, junk, info[f].needs, EDGE_DEPENDS, 1, "install");
      FulfilledIs(t, infos, junk, info[f].needs, EDGE_PRE_DEPENDS, 3, "installed");
    }
    assert forall f :: 0 <= f < |info| ==> FieldsOf(info)[f] == FieldOf(info[f]);
  }

  lemma DeclaredClauses(d: Declared)
    requires ProperDeclared(d)
    ensures forall i :: 0 <= i < |d.needs| ==> ProperClause(d.needs[i])
  {
    hide ProperClause, CText, FieldText;
  }

  // ----- the check

  ghost function AllFieldsOf(infos: seq<seq<Declared>>): (r: seq<seq<Field>>)
    ensures |r| == |infos| && forall a :: 0 <= a < |r| ==> r[a] == FieldsOf(infos[a])
  {
    seq(|infos|, a requires 0 <= a < |infos| => FieldsOf(infos[a]))
  }

  lemma KnownFilled(t: Tables, infos: seq<seq<Declared>>, junk: nat)
    requires Known(t, infos, junk)
    ensures FilledFrom(t, AllFieldsOf(infos), junk)
  {
    hide Flatten, AllClauses, ProperInfo, AllProper, Written, LinesOf;
    forall a: nat | a < |infos| && t.packages[a].Some? ensures Filled(t.packages[a].value, AllFieldsOf(infos)[a], junk) {
      LinesWritten(infos[a]);
    }
  }

  lemma KnownProper(t: Tables, infos: seq<seq<Declared>>, junk: nat, a: nat)
    requires Known(t, infos, junk) && a < |t.packages| && t.packages[a].Some?
    ensures ProperInfo(infos[a])
  {
    hide ProperInfo, Flatten, AllClauses;
  }

  /** The dependency half of check_deps, from the text of the control data: it passes exactly
      if every package whose status begins with "install" has, for each clause of its Depends
      and Pre-Depends fields, an alternative that is answered. */
  method CheckControl(t: Tables, ghost infos: seq<seq<Declared>>, ghost junk: nat) returns (ok: bool)
    requires t.Valid() && Known(t, infos, junk)
    ensures t.StatusSound() && |infos| == |t.packages|
    ensures ok <==> forall a: nat | a < |t.packages| && t.packages[a].Some? && t.HasStatus(t.packages[a].value.name, 1, "install") ::
                      Content(t, infos, infos[a])
  {
    hide Tables.Valid, Tables.StatusSound, Known, FilledFrom, AllFieldsMet, Content, Tables.HasStatus, ProperInfo;
    Sound(t);
    KnownSize(t, infos, junk);
    KnownFilled(t, infos, junk);
    ok := CheckFields(t, AllFieldsOf(infos), junk);
    forall a: nat | Wanted(t, a) ensures AllFieldsMet(t, FieldsOf(infos[a])) <==> Content(t, infos, infos[a]) {
      KnownProper(t, infos, junk, a);
      ContentIs(t, infos, junk, infos[a]);
    }
  }
}
