/** The dependency check of dpkg: the package and status tables, the edge lists that
    stand for Depends fields, and the loop that decides whether all of them are met. */
module Depends {
  import opened Bits
  import opened CStrings
  import opened Factoring
  import opened Probing
  import opened Interning
  import opened Versions

  const EDGE_PRE_DEPENDS: nat := 1
  const EDGE_OR_PRE_DEPENDS: nat := 2
  const EDGE_DEPENDS: nat := 3
  const EDGE_OR_DEPENDS: nat := 4
  const EDGE_PROVIDES: nat := 7

  /** edge_t, with the strings its indices stand for; the root of a list of alternatives
      keeps their number in `count`. */
  datatype Edge = Edge(kind: nat, name: string, version: string, operator: nat, count: nat)

  datatype Package = Package(name: string, version: string, edges: seq<Edge>)

  /** The status of a package: words for what is wanted, a flag, and the actual state. */
  datatype Status = Status(package: nat, text: string)

  // ----- get_status

  /** What is left of a status after one word and the spaces behind it. */
  function NextWord(text: string): string {
    Stripped(text[CSpan(text, " ")..])
  }

  /** The word of that number, counting from 1. */
  function StatusWord(text: string, num: nat): string
    requires num >= 1
    decreases num
  {
    if num == 1 then text[..CSpan(text, " \n")] else StatusWord(NextWord(text), num - 1)
  }

  /** get_status */
  method GetStatus(statusString: string, num: nat) returns (r: string)
    requires num >= 1
    ensures r == StatusWord(statusString, num)
  {
    hide StatusWord, Span, CSpan;
    var text := statusString;
    for i := 1 to num
      invariant StatusWord(text, num - i + 1) == StatusWord(statusString, num)
    {
      WordsByRecursion(text, num - i + 1);
      text := text[CSpan(text, " ")..];
      text := text[Span(text, " ")..];
    }
    WordsByRecursion(text, 1);
    r := text[..CSpan(text, " \n")];
  }

  lemma SpaceFirst(s: string)
    ensures (" " + s)[0] in " \n" && " " + s != ""
  {
    assert " \n"[0] == ' ';
  }

  lemma FirstIs(word: string, tail: string)
    requires word != "" && NoneIn(word, " \n")
    ensures word + tail != "" && (word + tail)[0] != ' '
  {
    assert " \n"[0] == ' ';
    assert word[0] !in " \n";
  }

  /** A status as it is written: what is wanted, a flag, and the state, with spaces between. */
  function WriteStatus(want: string, flag: string, state: string, tail: string): string {
    want + (" " + (flag + (" " + (state + tail))))
  }

  /** A status is read as its three words. */
  lemma StatusWords(want: string, flag: string, state: string, tail: string)
    requires NoneIn(want, " \n") && NoneIn(flag, " \n") && NoneIn(state, " \n") && flag != "" && state != ""
    requires tail == "" || tail[0] in " \n"
    ensures var text := WriteStatus(want, flag, state, tail);
            StatusWord(text, 1) == want && StatusWord(text, 2) == flag && StatusWord(text, 3) == state
  {
    var third := state + tail;
    var second := flag + (" " + third);
    assert WriteStatus(want, flag, state, tail) == want + (" " + second);
    hide *;
    SpaceFirst(second);
    SpaceFirst(third);
    FirstIs(flag, " " + third);
    FirstIs(state, tail);
    OneWord(want, " " + second);
    OneWord(flag, " " + third);
    OneWord(state, tail);
    WordThenMore(want, second);
    WordThenMore(flag, third);
    WordsByRecursion(want + (" " + second), 2);
    WordsByRecursion(want + (" " + second), 3);
    WordsByRecursion(second, 2);
  }

  lemma OneWord(word: string, tail: string)
    requires NoneIn(word, " \n") && (tail == "" || tail[0] in " \n")
    ensures StatusWord(word + tail, 1) == word
  {
    CSpanOver(word, tail, " \n");
  }

  lemma WordThenMore(word: string, rest: string)
    requires NoneIn(word, " \n") && rest != "" && rest[0] != ' '
    ensures NextWord(word + (" " + rest)) == rest
  {
    CSpanOver(word, " " + rest, " ");
    SpanOver(" ", rest, " ");
  }

  lemma WordsByRecursion(text: string, num: nat)
    requires num >= 1
    ensures StatusWord(text, num) == if num == 1 then text[..CSpan(text, " \n")] else StatusWord(NextWord(text), num - 1)
  {
  }

  /** The package and status tables; the check only reads them. */
  datatype Tables = Tables(packages: seq<Option<Package>>, statuses: seq<Option<Status>>)
  {
    function PackageKeys(): (k: seq<Option<string>>)
      ensures |k| == |packages|
      ensures forall a: nat :: a < |packages| ==> k[a] == if packages[a].None? then None else Some(packages[a].value.name)
    {
      seq(|packages|, a requires 0 <= a < |packages| => if packages[a].None? then None else Some(packages[a].value.name))
    }

    ghost predicate StatusSound() {
      forall s: nat :: s < |statuses| && statuses[s].Some? ==>
        statuses[s].value.package < |packages| && packages[statuses[s].value.package].Some?
    }

    function StatusName(s: Status): string
      requires s.package < |packages| && packages[s.package].Some?
    {
      packages[s.package].value.name
    }

    function StatusKeys(): (k: seq<Option<string>>)
      requires StatusSound()
      ensures |k| == |statuses|
      ensures forall a: nat :: a < |statuses| ==> k[a] == if statuses[a].None? then None else Some(StatusName(statuses[a].value))
    {
      seq(|statuses|, a requires 0 <= a < |statuses| => if statuses[a].None? then None else Some(StatusName(statuses[a].value)))
    }

    /** Both tables are filled by open addressing and have a free slot; a package has one
        status at most. */
    ghost predicate Valid() {
      |packages| == PACKAGE_HASH_PRIME && |statuses| == STATUS_HASH_PRIME && StatusSound()
      && Placed(PackageKeys()) && Placed(StatusKeys()) && Unique(StatusKeys())
      && (exists f: nat :: f < |packages| && packages[f].None?) && (exists f: nat :: f < |statuses| && statuses[f].None?)
      && (forall a: nat :: a < |packages| && packages[a].Some? ==> CText(packages[a].value.version))
    }

    // ----- what it means for a dependency to be met

    /** The state that counts: installed for a pre-dependency, to be installed for a dependency. */
    predicate Suits(s: Status, kind: nat) {
      (kind == EDGE_PRE_DEPENDS && StatusWord(s.text, 3) == "installed")
      || (kind == EDGE_DEPENDS && StatusWord(s.text, 1) == "install")
    }

    ghost predicate Available(name: string, kind: nat)
      requires StatusSound()
    {
      exists s: nat :: s < |statuses| && StatusKeys()[s] == Some(name) && Suits(statuses[s].value, kind)
    }

    /** The status of that package has this word in that place. */
    ghost predicate HasStatus(name: string, num: nat, word: string)
      requires StatusSound() && num >= 1
    {
      exists s: nat :: s < |statuses| && statuses[s].Some? && StatusName(statuses[s].value) == name
        && StatusWord(statuses[s].value.text, num) == word
    }

    predicate Provides(p: Package, name: string) {
      exists j :: 0 <= j < |p.edges| && p.edges[j].kind == EDGE_PROVIDES && p.edges[j].name == name
    }

    predicate Matches(p: Package, e: Edge) {
      p.name == e.name && Accepts(p.version, e.version, e.operator)
    }

    /** Some package of that name and version, or one that provides it, is available. */
    ghost predicate Met(e: Edge)
      requires StatusSound()
    {
      exists a: nat :: a < |packages| && packages[a].Some?
        && (Matches(packages[a].value, e) || Provides(packages[a].value, e.name)) && Available(packages[a].value.name, e.kind)
    }
  }

  // ----- search_package_hashtable and search_status_hashtable

  /** search_package_hashtable: a package of that name in an accepted version, or a free slot. */
  method SearchPackage(t: Tables, e: Edge) returns (address: nat)
    requires t.Valid() && CText(e.version)
    ensures address < |t.packages|
    ensures t.packages[address].Some? ==> t.Matches(t.packages[address].value, e)
    ensures t.packages[address].None? ==> forall a: nat :: a < |t.packages| && t.packages[a].Some? ==> !t.Matches(t.packages[a].value, e)
  {
    hide Place, Placed, Prime, Unique, Accepts, CText;
    PackagePrime();
    ghost var keys := t.PackageKeys();
    ghost var free: nat :| free < |t.packages| && t.packages[free].None?;
    var decrement;
    address, decrement := MakeHash(e.name, PACKAGE_HASH_PRIME);
    ghost var k := 0;
    PlaceStart(e.name, PACKAGE_HASH_PRIME);
    while t.packages[address].Some?
      invariant address == Place(e.name, PACKAGE_HASH_PRIME, k) && Passed(keys, e.name, k)
      invariant forall i: nat :: i < k ==> Misses(t, Place(e.name, PACKAGE_HASH_PRIME, i), e)
      decreases PACKAGE_HASH_PRIME - k
    {
      SearchEnds(keys, e.name, k, free);
      var p := t.packages[address].value;
      if p.name == e.name {
        if e.operator == VER_ANY {
          AnyVersion(p.version, e.version);
          return;
        }
        var right := TestVersion(p.version, e.version, e.operator);
        if right {
          return;
        }
      }
      PlaceNext(e.name, PACKAGE_HASH_PRIME, k);
      PassedNext(keys, e.name, k);
      var next: int := address - decrement;
      if next < 0 {
        next := next + PACKAGE_HASH_PRIME;
      }
      address := next;
      k := k + 1;
    }
    forall a: nat | a < |t.packages| && t.packages[a].Some? ensures !t.Matches(t.packages[a].value, e) {
      if t.packages[a].value.name == e.name {
        var i := NotBeyond(keys, e.name, k, a);
        assert Misses(t, Place(e.name, PACKAGE_HASH_PRIME, i), e);
      }
    }
  }

  predicate Misses(t: Tables, a: nat, e: Edge) {
    a < |t.packages| && t.packages[a].Some? ==> !t.Matches(t.packages[a].value, e)
  }

  lemma AnyVersion(v: string, w: string)
    ensures Accepts(v, w, VER_ANY)
  {
  }

  /** search_status_hashtable: the status of a package, or a free slot. */
  method SearchStatus(t: Tables, key: string) returns (address: nat)
    requires t.Valid()
    ensures address < |t.statuses|
    ensures t.statuses[address].Some? ==> t.StatusKeys()[address] == Some(key)
    ensures t.statuses[address].None? ==> Some(key) !in t.StatusKeys()
  {
    hide Place, Placed, Prime, Unique;
    StatusPrime();
    ghost var keys := t.StatusKeys();
    ghost var free: nat :| free < |t.statuses| && t.statuses[free].None?;
    var decrement;
    address, decrement := MakeHash(key, STATUS_HASH_PRIME);
    ghost var k := 0;
    PlaceStart(key, STATUS_HASH_PRIME);
    while t.statuses[address].Some?
      invariant address == Place(key, STATUS_HASH_PRIME, k) && Passed(keys, key, k)
      invariant forall i: nat :: i < k ==> keys[Place(key, STATUS_HASH_PRIME, i)] != Some(key)
      decreases STATUS_HASH_PRIME - k
    {
      SearchEnds(keys, key, k, free);
      if key == t.StatusName(t.statuses[address].value) {
        break;
      }
      PlaceNext(key, STATUS_HASH_PRIME, k);
      PassedNext(keys, key, k);
      var next: int := address - decrement;
      if next < 0 {
        next := next + STATUS_HASH_PRIME;
      }
      address := next;
      k := k + 1;
    }
    if t.statuses[address].None? {
      NotThere(keys, key, k);
    }
  }

  /** None of the words is cut short, and only the first may be missing. */
  predicate ThreeWords(want: string, flag: string, state: string, tail: string) {
    NoneIn(want, " \n") && NoneIn(flag, " \n") && NoneIn(state, " \n") && flag != "" && state != ""
    && (tail == "" || tail[0] in " \n")
  }

  /** Slot `s` holds the status of the package of that name, written so. */
  ghost predicate StatusOf(t: Tables, name: string, s: nat, want: string, flag: string, state: string, tail: string)
    requires t.StatusSound()
  {
    s < |t.statuses| && t.statuses[s].Some? && t.StatusName(t.statuses[s].value) == name
    && ThreeWords(want, flag, state, tail) && t.statuses[s].value.text == WriteStatus(want, flag, state, tail)
  }

  /** As a package has one status at most, its words decide. */
  lemma WordsDecide(t: Tables, name: string, s: nat, want: string, flag: string, state: string, tail: string)
    requires t.Valid() && StatusOf(t, name, s, want, flag, state, tail)
    ensures t.Available(name, EDGE_DEPENDS) <==> want == "install"
    ensures t.Available(name, EDGE_PRE_DEPENDS) <==> state == "installed"
  {
    hide *;
    Sound(t);
    StatusIs(t, name, s, want, flag, state, tail);
    StatusWords(want, flag, state, tail);
    SuitsDecides(t, name, EDGE_DEPENDS, s);
    SuitsDecides(t, name, EDGE_PRE_DEPENDS, s);
    InstallSuits(t, s);
  }

  lemma StatusIs(t: Tables, name: string, s: nat, want: string, flag: string, state: string, tail: string)
    requires t.StatusSound() && StatusOf(t, name, s, want, flag, state, tail)
    ensures s < |t.statuses| && t.statuses[s].Some? && t.StatusKeys()[s] == Some(name)
    ensures ThreeWords(want, flag, state, tail) && t.statuses[s].value.text == WriteStatus(want, flag, state, tail)
    ensures NoneIn(want, " \n") && NoneIn(flag, " \n") && NoneIn(state, " \n") && flag != "" && state != ""
    ensures tail == "" || tail[0] in " \n"
  {
    hide NoneIn, WriteStatus;
  }

  lemma AvailableIs(t: Tables, name: string)
    requires t.StatusSound()
    ensures t.Available(name, EDGE_DEPENDS) <==> t.HasStatus(name, 1, "install")
    ensures t.Available(name, EDGE_PRE_DEPENDS) <==> t.HasStatus(name, 3, "installed")
  {
    hide StatusWord;
    if t.Available(name, EDGE_DEPENDS) {
      var s: nat :| s < |t.statuses| && t.StatusKeys()[s] == Some(name) && t.Suits(t.statuses[s].value, EDGE_DEPENDS);
      assert t.statuses[s].Some?;
    }
    if t.Available(name, EDGE_PRE_DEPENDS) {
      var s: nat :| s < |t.statuses| && t.StatusKeys()[s] == Some(name) && t.Suits(t.statuses[s].value, EDGE_PRE_DEPENDS);
      assert t.statuses[s].Some?;
    }
    if t.HasStatus(name, 1, "install") {
      var s: nat :| s < |t.statuses| && t.statuses[s].Some? && t.StatusName(t.statuses[s].value) == name
        && StatusWord(t.statuses[s].value.text, 1) == "install";
      assert t.StatusKeys()[s] == Some(name);
    }
    if t.HasStatus(name, 3, "installed") {
      var s: nat :| s < |t.statuses| && t.statuses[s].Some? && t.StatusName(t.statuses[s].value) == name
        && StatusWord(t.statuses[s].value.text, 3) == "installed";
      assert t.StatusKeys()[s] == Some(name);
    }
  }

  /** package_satisfies_dependency */
  method Satisfies(t: Tables, a: nat, kind: nat) returns (r: bool)
    requires t.Valid() && a < |t.packages| && t.packages[a].Some?
    ensures r == t.Available(t.packages[a].value.name, kind)
    ensures forall s, want, flag, state, tail :: StatusOf(t, t.packages[a].value.name, s, want, flag, state, tail) ==>
              (kind == EDGE_DEPENDS ==> r == (want == "install")) && (kind == EDGE_PRE_DEPENDS ==> r == (state == "installed"))
  {
    var name := t.packages[a].value.name;
    forall s, want, flag, state, tail | StatusOf(t, name, s, want, flag, state, tail)
      ensures t.Available(name, EDGE_DEPENDS) <==> want == "install"
      ensures t.Available(name, EDGE_PRE_DEPENDS) <==> state == "installed"
    {
      WordsDecide(t, name, s, want, flag, state, tail);
    }
    hide StatusOf;
    var s := SearchStatus(t, name);
    if t.statuses[s].None? {
      NoStatus(t, name, kind);
      return false;
    }
    SuitsDecides(t, name, kind, s);
    r := false;
    if kind == EDGE_PRE_DEPENDS {
      var state := GetStatus(t.statuses[s].value.text, 3);
      r := state == "installed";
    } else if kind == EDGE_DEPENDS {
      var want := GetStatus(t.statuses[s].value.text, 1);
      r := want == "install";
    }
  }

  lemma NoStatus(t: Tables, name: string, kind: nat)
    requires t.StatusSound() && Some(name) !in t.StatusKeys()
    ensures !t.Available(name, kind)
  {
    hide StatusWord, Tables.Suits;
    assert forall s: nat :: s < |t.statuses| ==> t.StatusKeys()[s] in t.StatusKeys();
  }

  lemma SuitsDecides(t: Tables, name: string, kind: nat, s: nat)
    requires t.Valid() && s < |t.statuses| && t.statuses[s].Some? && t.StatusKeys()[s] == Some(name)
    ensures t.Available(name, kind) <==> t.Suits(t.statuses[s].value, kind)
  {
    hide Placed, StatusWord;
    assert forall i: nat :: i < |t.statuses| && t.StatusKeys()[i] == Some(name) ==> i == s;
  }

  /** search_for_provides: the next package from `startAt + 1` on that provides `needle`, or -1. */
  method SearchForProvides(t: Tables, needle: string, startAt: int) returns (r: int)
    requires -1 <= startAt
    ensures r == -1 || (startAt < r < |t.packages| && t.packages[r].Some? && t.Provides(t.packages[r].value, needle))
    ensures forall a: nat :: startAt < a < (if r == -1 then |t.packages| else r) && t.packages[a].Some? ==>
              !t.Provides(t.packages[a].value, needle)
  {
    var i := startAt + 1;
    while i < |t.packages|
      invariant startAt < i
      invariant forall a: nat :: startAt < a < i && a < |t.packages| && t.packages[a].Some? ==> !t.Provides(t.packages[a].value, needle)
    {
      if t.packages[i].Some? {
        var p := t.packages[i].value;
        for j := 0 to |p.edges|
          invariant forall k :: 0 <= k < j ==> !(p.edges[k].kind == EDGE_PROVIDES && p.edges[k].name == needle)
        {
          if p.edges[j].kind == EDGE_PROVIDES && p.edges[j].name == needle {
            return i;
          }
        }
      }
      i := i + 1;
    }
    r := -1;
  }

  /** The middle of the loop of check_deps: is this dependency met, by the package itself or
      by one that provides it? */
  method EdgeMet(t: Tables, e: Edge) returns (r: bool)
    requires t.Valid() && CText(e.version)
    ensures r == t.Met(e)
  {
    hide Placed, Accepts, CText, Tables.Available, Tables.Provides, Tables.Valid;
    r := false;
    Sound(t);
    var num := SearchPackage(t, e);
    if t.packages[num].Some? {
      r := Satisfies(t, num, e.kind);
    }
    if !r {
      var provider := -1;
      while true
        invariant -1 <= provider < |t.packages|
        invariant forall a: nat :: a <= provider && t.packages[a].Some? && t.Provides(t.packages[a].value, e.name) ==>
                    !t.Available(t.packages[a].value.name, e.kind)
        decreases |t.packages| - provider
      {
        provider := SearchForProvides(t, e.name, provider);
        if provider == -1 {
          break;
        }
        r := Satisfies(t, provider, e.kind);
        if r {
          break;
        }
      }
    }
  }

  lemma Sound(t: Tables)
    requires t.Valid()
    ensures t.StatusSound()
  {
  }

  // ----- edge lists

  predicate Plain(e: Edge) {
    e.kind == EDGE_PRE_DEPENDS || e.kind == EDGE_DEPENDS
  }

  predicate Root(e: Edge) {
    e.kind == EDGE_OR_PRE_DEPENDS || e.kind == EDGE_OR_DEPENDS
  }

  /** One clause of a field: a dependency, several alternatives, or another kind of edge. */
  datatype Clause = One(e: Edge) | Any(root: Edge, alternatives: seq<Edge>) | Other(e: Edge)

  ghost predicate ClauseSound(c: Clause) {
    match c
    case One(e) => Plain(e) && CText(e.version)
    case Any(root, alts) =>
      Root(root) && alts != [] && root.count == |alts|
      && forall i :: 0 <= i < |alts| ==> alts[i].kind + 1 == root.kind && CText(alts[i].version)
    case Other(e) => !Plain(e) && !Root(e) && CText(e.version)
  }

  function ClauseEdges(c: Clause): seq<Edge> {
    match c
    case One(e) => [e]
    case Any(root, alts) => [root] + alts
    case Other(e) => [e]
  }

  function Flatten(cs: seq<Clause>): seq<Edge> {
    if cs == [] then [] else ClauseEdges(cs[0]) + Flatten(cs[1..])
  }

  ghost predicate AllSound(cs: seq<Clause>) {
    forall i :: 0 <= i < |cs| ==> ClauseSound(cs[i])
  }

  /** At least one alternative of the clause is met. */
  ghost predicate ClauseMet(t: Tables, c: Clause)
    requires t.StatusSound()
  {
    match c
    case One(e) => t.Met(e)
    case Any(_, alts) => exists i :: 0 <= i < |alts| && t.Met(alts[i])
    case Other(_) => true
  }

  ghost predicate AllMet(t: Tables, cs: seq<Clause>)
    requires t.StatusSound()
  {
    forall i :: 0 <= i < |cs| ==> ClauseMet(t, cs[i])
  }

  /** The first `n` clauses are met. */
  ghost predicate MetUpTo(t: Tables, cs: seq<Clause>, n: nat)
    requires t.StatusSound()
  {
    n <= |cs| && forall i :: 0 <= i < n ==> ClauseMet(t, cs[i])
  }

  /** The loop is at the beginning of clause `c`. */
  ghost predicate AtClause(t: Tables, cs: seq<Clause>, c: nat, edges: seq<Edge>, j: nat)
    requires t.StatusSound()
  {
    c <= |cs| && j <= |edges| && edges[j..] == Flatten(cs[c..]) && MetUpTo(t, cs, c)
  }

  /** The loop has `number` alternatives of clause `c` before it, and met none so far. */
  ghost predicate Within(t: Tables, cs: seq<Clause>, c: nat, edges: seq<Edge>, j: nat, number: nat, root: Option<Edge>)
    requires t.StatusSound()
  {
    c < |cs| && j <= |edges| && MetUpTo(t, cs, c) && cs[c].Any? && root == Some(cs[c].root) && 0 < number <= |cs[c].alternatives|
    && edges[j..] == cs[c].alternatives[|cs[c].alternatives| - number..] + Flatten(cs[c + 1..])
    && forall i :: 0 <= i < |cs[c].alternatives| - number ==> !t.Met(cs[c].alternatives[i])
  }

  /** number_of_alternatives and root_of_alternatives are those of a list of alternatives. */
  predicate Inside(number: nat, root: Option<Edge>) {
    number > 0 && root.Some?
  }

  lemma NextClause(t: Tables, cs: seq<Clause>, c: nat, edges: seq<Edge>, j: nat)
    requires t.StatusSound() && AtClause(t, cs, c, edges, j) && AllSound(cs) && j < |edges|
    ensures c < |cs| && ClauseSound(cs[c]) && ClauseEdges(cs[c]) != [] && edges[j] == ClauseEdges(cs[c])[0]
    ensures edges[j + 1..] == ClauseEdges(cs[c])[1..] + Flatten(cs[c + 1..])
  {
    hide Tables.Met, CText, ClauseMet, MetUpTo;
    assert c < |cs|;
    assert cs[c..][1..] == cs[c + 1..] && cs[c..][0] == cs[c];
    assert ClauseSound(cs[c]);
    FirstEdge(edges[j..], ClauseEdges(cs[c]), Flatten(cs[c + 1..]));
    assert edges[j..][1..] == edges[j + 1..];
  }

  lemma FirstEdge(es: seq<Edge>, a: seq<Edge>, b: seq<Edge>)
    requires es == a + b && a != []
    ensures es[0] == a[0] && es[1..] == a[1..] + b
  {
  }

  /** The root of a list of alternatives. */
  lemma EnterClause(t: Tables, cs: seq<Clause>, c: nat, edges: seq<Edge>, j: nat)
    requires t.StatusSound() && AtClause(t, cs, c, edges, j) && AllSound(cs) && j < |edges| && Root(edges[j])
    ensures Within(t, cs, c, edges, j + 1, edges[j].count, Some(edges[j]))
  {
    NextClause(t, cs, c, edges, j);
    hide Tables.Met, Flatten;
    assert ClauseEdges(cs[c])[1..] == cs[c].alternatives;
  }

  /** An edge that is a clause of its own and is met, or is of no interest. */
  lemma LeaveClause(t: Tables, cs: seq<Clause>, c: nat, edges: seq<Edge>, j: nat)
    requires t.StatusSound() && AtClause(t, cs, c, edges, j) && AllSound(cs) && j < |edges| && !Root(edges[j])
    requires Plain(edges[j]) ==> t.Met(edges[j])
    ensures AtClause(t, cs, c + 1, edges, j + 1)
  {
    NextClause(t, cs, c, edges, j);
    hide Tables.Met, Flatten;
    assert ClauseMet(t, cs[c]);
  }

  lemma ClauseFails(t: Tables, cs: seq<Clause>, c: nat, edges: seq<Edge>, j: nat)
    requires t.StatusSound() && AtClause(t, cs, c, edges, j) && AllSound(cs) && j < |edges| && Plain(edges[j]) && !t.Met(edges[j])
    ensures !AllMet(t, cs)
  {
    NextClause(t, cs, c, edges, j);
    hide Tables.Met, Flatten;
    assert !ClauseMet(t, cs[c]);
  }

  lemma NextAlternative(t: Tables, cs: seq<Clause>, c: nat, edges: seq<Edge>, j: nat, number: nat, root: Option<Edge>)
    requires t.StatusSound() && Within(t, cs, c, edges, j, number, root) && AllSound(cs)
    ensures j + number <= |edges| && Plain(edges[j]) && edges[j].kind + 1 == root.value.kind && CText(edges[j].version)
    ensures !Root(edges[j])
    ensures t.Met(edges[j]) ==> AtClause(t, cs, c + 1, edges, j + number)
    ensures !t.Met(edges[j]) && number == 1 ==> !AllMet(t, cs)
    ensures !t.Met(edges[j]) && number > 1 ==> Within(t, cs, c, edges, j + 1, number - 1, root)
  {
    hide Tables.Met, Flatten, CText;
    var alts, rest := cs[c].alternatives, Flatten(cs[c + 1..]);
    var k := |alts| - number;
    assert ClauseSound(cs[c]);
    assert edges[j..][0] == alts[k..][0] == alts[k];
    assert edges[j] == alts[k];
    assert edges[j..][number..] == edges[j + number..];
    assert edges[j..][1..] == edges[j + 1..];
    if t.Met(edges[j]) {
      assert ClauseMet(t, cs[c]);
    } else if number == 1 {
      assert !ClauseMet(t, cs[c]);
    }
  }

  /** The dependencies of one package: true exactly if every clause has an alternative that is met. */
  method CheckEdges(t: Tables, edges: seq<Edge>, ghost cs: seq<Clause>) returns (ok: bool)
    requires t.Valid() && AllSound(cs) && edges == Flatten(cs)
    ensures t.StatusSound() && (ok <==> AllMet(t, cs))
  {
    hide Tables.Valid, Tables.Met, Tables.StatusSound, Flatten, AllMet, AtClause, Within, AllSound, CText, MetUpTo;
    Sound(t);
    var number, root := 0, None;
    var j := 0;
    ghost var c := 0;
    FirstClause(t, cs, edges);
    while j < |edges|
      invariant t.StatusSound() && (number <= 1 || root.Some?)
      invariant if Inside(number, root) then Within(t, cs, c, edges, j, number, root) else AtClause(t, cs, c, edges, j)
      decreases |edges| - j
    {
      var e := edges[j];
      if Inside(number, root) {
        NextAlternative(t, cs, c, edges, j, number, root);
      } else {
        NextKind(t, cs, c, edges, j);
      }
      if Root(e) {
        EnterClause(t, cs, c, edges, j);
        RootCount(t, cs, c, edges, j + 1, e.count, Some(e));
        number := e.count;
        root := Some(e);
        j := j + 1;
        continue;
      }
      if number == 0 {
        number := 1;
        root := None;
      }
      if Plain(e) {
        if root.Some? && e.kind != root.value.kind - 1 {
          assert false;  // package dependencies corrupt
        }
        var met := EdgeMet(t, e);
        number := number - 1;
        if root.None? {
          if !met {
            ClauseFails(t, cs, c, edges, j);
          } else {
            LeaveClause(t, cs, c, edges, j);
          }
        }
        if !met && number == 0 {
          return false;
        }
        if met {
          c := c + 1;
        }
        if met && number > 0 {
          j := j + number;
          number := 0;
        }
      } else {
        LeaveClause(t, cs, c, edges, j);
        c := c + 1;
      }
      j := j + 1;
    }
    LastClause(t, cs, c, edges, j, number, root);
    ok := true;
  }

  lemma FirstClause(t: Tables, cs: seq<Clause>, edges: seq<Edge>)
    requires t.StatusSound() && edges == Flatten(cs)
    ensures AtClause(t, cs, 0, edges, 0)
  {
    assert cs[0..] == cs && edges[0..] == edges;
  }

  lemma NextKind(t: Tables, cs: seq<Clause>, c: nat, edges: seq<Edge>, j: nat)
    requires t.StatusSound() && AtClause(t, cs, c, edges, j) && AllSound(cs) && j < |edges|
    ensures !Root(edges[j]) ==> CText(edges[j].version)
  {
    NextClause(t, cs, c, edges, j);
    hide Flatten, CText;
  }

  lemma RootCount(t: Tables, cs: seq<Clause>, c: nat, edges: seq<Edge>, j: nat, number: nat, root: Option<Edge>)
    requires t.StatusSound() && Within(t, cs, c, edges, j, number, root)
    ensures number > 0
  {
  }

  lemma LastClause(t: Tables, cs: seq<Clause>, c: nat, edges: seq<Edge>, j: nat, number: nat, root: Option<Edge>)
    requires t.StatusSound() && j >= |edges| && AllSound(cs)
    requires if Inside(number, root) then Within(t, cs, c, edges, j, number, root) else AtClause(t, cs, c, edges, j)
    ensures AllMet(t, cs)
  {
    hide Tables.Met;
    assert edges[j..] == [];
    if !Inside(number, root) {
      FlattenSize(cs[c..]);
    }
  }

  lemma {:induction false} FlattenSize(cs: seq<Clause>)
    requires AllSound(cs)
    ensures |Flatten(cs)| >= |cs|
  {
    if cs != [] {
      FlattenSize(cs[1..]);
      assert ClauseSound(cs[0]);
    }
  }

  // ----- the loop over the packages

  /** The clauses that the edges of each package stand for. */
  ghost predicate Clauses(t: Tables, fields: seq<seq<Clause>>) {
    |fields| == |t.packages|
    && forall a: nat :: a < |fields| && t.packages[a].Some? ==>
         AllSound(fields[a]) && t.packages[a].value.edges == Flatten(fields[a])
  }

  /** A package that is to be installed: "install" is the first word of its status. */
  ghost predicate Wanted(t: Tables, a: nat)
    requires t.StatusSound()
  {
    a < |t.packages| && t.packages[a].Some? && t.HasStatus(t.packages[a].value.name, 1, "install")
  }

  /** With the status written in three words, that is the word for what is wanted. */
  lemma WantedIs(t: Tables, a: nat, s: nat, want: string, flag: string, state: string, tail: string)
    requires t.Valid() && a < |t.packages| && t.packages[a].Some?
    requires StatusOf(t, t.packages[a].value.name, s, want, flag, state, tail)
    ensures Wanted(t, a) <==> want == "install"
  {
    WordsDecide(t, t.packages[a].value.name, s, want, flag, state, tail);
    hide *;
    WantedAvailable(t, a);
  }

  lemma WantedAvailable(t: Tables, a: nat)
    requires t.StatusSound() && a < |t.packages| && t.packages[a].Some?
    ensures Wanted(t, a) <==> t.Available(t.packages[a].value.name, EDGE_DEPENDS)
  {
    AvailableIs(t, t.packages[a].value.name);
    hide Tables.HasStatus, Tables.Available;
  }

  /** The dependency half of check_deps: it passes exactly if every wanted package has, in
      every clause, an alternative that is met. */
  method CheckDependencies(t: Tables, ghost fields: seq<seq<Clause>>) returns (ok: bool)
    requires t.Valid() && Clauses(t, fields)
    ensures t.StatusSound()
    ensures ok <==> forall a: nat :: Wanted(t, a) ==> AllMet(t, fields[a])
  {
    hide Tables.Valid, Tables.StatusSound, AllMet, Flatten, AllSound, Tables.Available, Tables.HasStatus, Tables.Suits, StatusWord,
         Tables.StatusName;
    Sound(t);
    TableSizes(t);
    ok := true;
    for i := 0 to PACKAGE_HASH_PRIME
      invariant forall a: nat :: a < i && Wanted(t, a) ==> AllMet(t, fields[a])
    {
      if t.packages[i].None? {
        continue;
      }
      WantedAvailable(t, i);
      var name := t.packages[i].value.name;
      var statusNum := SearchStatus(t, name);
      if t.statuses[statusNum].None? {
        NoStatus(t, name, EDGE_DEPENDS);
        continue;
      }
      SuitsDecides(t, name, EDGE_DEPENDS, statusNum);
      var want := GetStatus(t.statuses[statusNum].value.text, 1);
      InstallSuits(t, statusNum);
      if want != "install" {
        continue;
      }
      var met := CheckEdges(t, t.packages[i].value.edges, fields[i]);
      if !met {
        assert Wanted(t, i);
        return false;
      }
    }
  }

  lemma InstallSuits(t: Tables, s: nat)
    requires s < |t.statuses| && t.statuses[s].Some?
    ensures t.Suits(t.statuses[s].value, EDGE_DEPENDS) <==> StatusWord(t.statuses[s].value.text, 1) == "install"
    ensures t.Suits(t.statuses[s].value, EDGE_PRE_DEPENDS) <==> StatusWord(t.statuses[s].value.text, 3) == "installed"
  {
    hide StatusWord;
  }

  lemma TableSizes(t: Tables)
    requires t.Valid()
    ensures |t.packages| == PACKAGE_HASH_PRIME
  {
  }
}
