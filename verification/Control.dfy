/** From the control data of packages to the dependency check: the fields of a package
    become its edges, and the check passes exactly if what the fields ask for is met. */
module Control {
  import opened Bits
  import opened CStrings
  import opened Versions
  import opened Depends
  import opened Fields

  const EDGE_REPLACES: nat := 5
  const EDGE_CONFLICTS: nat := 9
  const EDGE_SUGGESTS: nat := 11
  const EDGE_RECOMMENDS: nat := 13
  const EDGE_ENHANCES: nat := 15

  /** A field of a control file. */
  datatype Line = Line(name: string, text: string)

  /** The fields of fill_package_struct that go through add_split_dependencies, and the kind
      of edge each gives. */
  function KindOf(name: string): Option<nat> {
    if name == "Pre-Depends" then Some(EDGE_PRE_DEPENDS)
    else if name == "Depends" then Some(EDGE_DEPENDS)
    else if name == "Replaces" then Some(EDGE_REPLACES)
    else if name == "Provides" then Some(EDGE_PROVIDES)
    else if name == "Conflicts" then Some(EDGE_CONFLICTS)
    else if name == "Suggests" then Some(EDGE_SUGGESTS)
    else if name == "Recommends" then Some(EDGE_RECOMMENDS)
    else if name == "Enhances" then Some(EDGE_ENHANCES)
    else None
  }

  ghost predicate LineSound(l: Line, junk: nat) {
    KindOf(l.name).Some? ==> CText(l.text) && Readable(l.text) && ReadField(l.text, junk).Some?
  }

  ghost predicate LinesSound(ls: seq<Line>, junk: nat) {
    forall i :: 0 <= i < |ls| ==> LineSound(ls[i], junk)
  }

  /** The clauses of one field; none if it is not about other packages or cannot be read. */
  function LineClauses(l: Line, junk: nat): seq<Clause> {
    var kind, r := KindOf(l.name), ReadField(l.text, junk);
    if kind.None? || r.None? then [] else ClausesOf(r.value, kind.value)
  }

  function AllClauses(ls: seq<Line>, junk: nat): seq<Clause> {
    if ls == [] then [] else LineClauses(ls[0], junk) + AllClauses(ls[1..], junk)
  }

  // ----- the edges of a package

  lemma {:induction false} AllClausesSnoc(ls: seq<Line>, l: Line, junk: nat)
    ensures AllClauses(ls + [l], junk) == AllClauses(ls, junk) + LineClauses(l, junk)
  {
    hide LineClauses;
    if ls == [] {
      assert ls + [l] == [l] && [l][1..] == [];
    } else {
      AllClausesSnoc(ls[1..], l, junk);
      assert (ls + [l])[1..] == ls[1..] + [l];
    }
  }

  /** One more field. */
  lemma EdgesMore(ls: seq<Line>, l: Line, junk: nat)
    ensures Flatten(AllClauses(ls + [l], junk)) == Flatten(AllClauses(ls, junk)) + Flatten(LineClauses(l, junk))
  {
    AllClausesSnoc(ls, l, junk);
    FlattenConcat(AllClauses(ls, junk), LineClauses(l, junk));
  }

  lemma SoundConcat(a: seq<Clause>, b: seq<Clause>)
    requires AllSound(a) && AllSound(b)
    ensures AllSound(a + b)
  {
    hide ClauseSound;
  }

  /** The clauses of all fields are what the dependency loop relies on. */
  lemma {:induction false} AllClausesSound(ls: seq<Line>, junk: nat)
    requires LinesSound(ls, junk)
    ensures AllSound(AllClauses(ls, junk))
  {
    hide LineSound, AllSound, LineClauses;
    if ls == [] {
      NoneSound();
    } else {
      LineClausesSound(ls[0], junk);
      AllClausesSound(ls[1..], junk);
      SoundConcat(LineClauses(ls[0], junk), AllClauses(ls[1..], junk));
    }
  }

  lemma NoneSound()
    ensures AllSound([])
  {
  }

  lemma LineClausesSound(l: Line, junk: nat)
    requires LineSound(l, junk)
    ensures AllSound(LineClauses(l, junk))
  {
    hide CText, Readable, ReadField, AllSound, ClausesOf;
    if KindOf(l.name).Some? {
      FieldSound(l.text, KindOf(l.name).value, junk);
    } else {
      NoneSound();
    }
  }

  /** fill_package_struct, as far as the edges go: the fields are split one after another. */
  method FillEdges(node: Node, lines: seq<Line>, junk: nat) returns (ok: bool)
    requires forall i :: 0 <= i < |lines| && KindOf(lines[i].name).Some? ==> Readable(lines[i].text)
    modifies node
    ensures ok <==> forall i :: 0 <= i < |lines| && KindOf(lines[i].name).Some? ==> ReadField(lines[i].text, junk).Some?
    ensures ok ==> node.edges == old(node.edges) + Flatten(AllClauses(lines, junk))
  {
    hide Readable, ReadField, AllClauses, LineClauses, ClausesOf, Flatten, KindOf;
    NoEdges(junk);
    assert lines[..0] == [];
    for i := 0 to |lines|
      invariant forall k :: 0 <= k < i && KindOf(lines[k].name).Some? ==> ReadField(lines[k].text, junk).Some?
      invariant node.edges == old(node.edges) + Flatten(AllClauses(lines[..i], junk))
    {
      var kind := KindOf(lines[i].name);
      EdgesMore(lines[..i], lines[i], junk);
      assert lines[..i + 1] == lines[..i] + [lines[i]];
      LineEdges(lines[i], junk);
      if kind.Some? {
        var read := node.AddSplitDependencies(lines[i].text, kind.value, junk);
        if !read {
          return false;
        }
      }
    }
    assert lines[..|lines|] == lines;
    ok := true;
  }

  lemma LineEdges(l: Line, junk: nat)
    ensures var kind, r := KindOf(l.name), ReadField(l.text, junk);
            && (kind.None? ==> Flatten(LineClauses(l, junk)) == [])
            && (kind.Some? && r.Some? ==> LineClauses(l, junk) == ClausesOf(r.value, kind.value))
  {
    hide KindOf, ReadField, ClausesOf;
  }

  lemma NoEdges(junk: nat)
    ensures Flatten(AllClauses([], junk)) == []
  {
  }

  // ----- well-formed fields

  /** A field by what it says: alternatives, in clauses. */
  datatype Field = Field(name: string, clauses: seq<seq<Alternative>>)

  ghost predicate Proper(f: Field) {
    KindOf(f.name).Some? ==> f.clauses != [] && FieldWellFormed(f.clauses) && CText(WriteField(f.clauses))
  }

  ghost predicate AllProper(fs: seq<Field>) {
    forall i :: 0 <= i < |fs| ==> Proper(fs[i])
  }

  function Written(fs: seq<Field>): (ls: seq<Line>)
    ensures |ls| == |fs| && forall i :: 0 <= i < |ls| ==> ls[i] == Line(fs[i].name, WriteField(fs[i].clauses))
  {
    seq(|fs|, i requires 0 <= i < |fs| => Line(fs[i].name, WriteField(fs[i].clauses)))
  }

  ghost predicate NeedsMet(t: Tables, f: Field)
    requires t.StatusSound()
  {
    (f.name == "Depends" ==> FieldMet(t, f.clauses, EDGE_DEPENDS))
    && (f.name == "Pre-Depends" ==> FieldMet(t, f.clauses, EDGE_PRE_DEPENDS))
  }

  /** Every Depends and Pre-Depends field has an alternative that is met in each clause. */
  ghost predicate AllFieldsMet(t: Tables, fs: seq<Field>)
    requires t.StatusSound()
  {
    forall i :: 0 <= i < |fs| ==> NeedsMet(t, fs[i])
  }

  lemma WrittenSound(fs: seq<Field>, junk: nat)
    requires AllProper(fs)
    ensures LinesSound(Written(fs), junk)
  {
    hide FieldWellFormed, WriteField, CText, Readable, ReadField, KindOf;
    forall i | 0 <= i < |fs| ensures LineSound(Written(fs)[i], junk) {
      assert Proper(fs[i]);
      if KindOf(fs[i].name).Some? {
        FieldRoundTrip(fs[i].clauses, junk);
      }
    }
  }

  /** A field that is no dependency asks for nothing. */
  lemma {:induction false} OthersMet(t: Tables, entries: seq<Entry>, kind: nat)
    requires t.StatusSound() && !Dependency(kind)
    ensures AllMet(t, ClausesOf(entries, kind))
  {
    hide Tables.StatusSound, Tables.Met;
    if entries != [] {
      OthersMet(t, entries[1..], kind);
      AllMetConcat(t, EntryClauses(entries[0], kind), ClausesOf(entries[1..], kind));
    }
  }

  lemma LineMeaning(t: Tables, f: Field, junk: nat)
    requires t.StatusSound() && Proper(f)
    ensures AllMet(t, LineClauses(Line(f.name, WriteField(f.clauses)), junk)) <==> NeedsMet(t, f)
  {
    hide Tables.StatusSound, AllMet, FieldMet, ReadField, WriteField, ClausesOf, EntriesOf, CText, KindOf, FieldWellFormed;
    KindsOf(f.name);
    var kind := KindOf(f.name);
    if kind.None? {
      NothingToMeet(t);
    } else {
      FieldRoundTrip(f.clauses, junk);
      if Dependency(kind.value) {
        EachSome(f.clauses);
        FieldMeaning(t, f.clauses, kind.value);
      } else {
        OthersMet(t, EntriesOf(f.clauses), kind.value);
      }
    }
  }

  lemma EachSome(clauses: seq<seq<Alternative>>)
    requires FieldWellFormed(clauses)
    ensures forall i :: 0 <= i < |clauses| ==> clauses[i] != []
  {
    hide AllWellFormed;
  }

  lemma KindsOf(name: string)
    ensures name == "Depends" ==> KindOf(name) == Some(EDGE_DEPENDS)
    ensures name == "Pre-Depends" ==> KindOf(name) == Some(EDGE_PRE_DEPENDS)
    ensures KindOf(name).Some? && Dependency(KindOf(name).value) ==> name == "Depends" || name == "Pre-Depends"
  {
  }

  /** All clauses of a package are met exactly if all of its dependency fields are. */
  lemma {:induction false} FieldsMeaning(t: Tables, fs: seq<Field>, junk: nat)
    requires t.StatusSound() && AllProper(fs)
    ensures AllMet(t, AllClauses(Written(fs), junk)) <==> AllFieldsMet(t, fs)
  {
    hide Tables.StatusSound, AllMet, Proper, LineClauses, NeedsMet, WriteField;
    if fs == [] {
      NothingToMeet(t);
    } else {
      var ls := Written(fs);
      assert ls[1..] == Written(fs[1..]) && ls[0] == Line(fs[0].name, WriteField(fs[0].clauses));
      LineMeaning(t, fs[0], junk);
      FieldsMeaning(t, fs[1..], junk);
      AllMetConcat(t, LineClauses(ls[0], junk), AllClauses(ls[1..], junk));
      assert fs == [fs[0]] + fs[1..];
    }
  }

  // ----- the check

  /** The edges of every package are those of its fields. */
  ghost predicate FilledFrom(t: Tables, fields: seq<seq<Field>>, junk: nat) {
    |fields| == |t.packages|
    && forall a: nat :: a < |fields| && t.packages[a].Some? ==> Filled(t.packages[a].value, fields[a], junk)
  }

  ghost predicate Filled(p: Package, fs: seq<Field>, junk: nat) {
    AllProper(fs) && p.edges == Flatten(AllClauses(Written(fs), junk))
  }

  ghost function ClausesFrom(fields: seq<seq<Field>>, junk: nat): (cs: seq<seq<Clause>>)
    ensures |cs| == |fields| && forall a: nat :: a < |cs| ==> cs[a] == AllClauses(Written(fields[a]), junk)
  {
    seq(|fields|, a requires 0 <= a < |fields| => AllClauses(Written(fields[a]), junk))
  }

  lemma FilledClauses(t: Tables, fields: seq<seq<Field>>, junk: nat)
    requires FilledFrom(t, fields, junk)
    ensures Clauses(t, ClausesFrom(fields, junk))
  {
    hide AllClauses, AllSound, Flatten, Written, LinesSound, AllProper;
    var cs := ClausesFrom(fields, junk);
    forall a: nat | a < |cs| && t.packages[a].Some?
      ensures AllSound(cs[a]) && t.packages[a].value.edges == Flatten(cs[a])
    {
      assert Filled(t.packages[a].value, fields[a], junk);
      WrittenSound(fields[a], junk);
      AllClausesSound(Written(fields[a]), junk);
    }
  }

  /** The check of the dependencies, from the fields of the packages: it passes exactly if
      every Depends and Pre-Depends field of every wanted package is met. */
  method CheckFields(t: Tables, ghost fields: seq<seq<Field>>, ghost junk: nat) returns (ok: bool)
    requires t.Valid() && FilledFrom(t, fields, junk)
    ensures t.StatusSound()
    ensures ok <==> forall a: nat :: Wanted(t, a) ==> AllFieldsMet(t, fields[a])
  {
    hide Tables.Valid, Tables.StatusSound, Clauses, AllMet, AllFieldsMet, Tables.Available, Flatten, AllClauses, AllProper, Written;
    FilledClauses(t, fields, junk);
    ghost var cs := ClausesFrom(fields, junk);
    ok := CheckDependencies(t, cs);
    forall a: nat | Wanted(t, a) ensures AllMet(t, cs[a]) <==> AllFieldsMet(t, fields[a]) {
      assert Filled(t.packages[a].value, fields[a], junk);
      FieldsMeaning(t, fields[a], junk);
    }
  }
}
