/** The name table of dpkg: strings become small numbers, by open addressing. */
module Interning {
  import opened Bits
  import opened Factoring
  import opened Probing

  const NAME_HASH_PRIME: nat := 16381
  const PACKAGE_HASH_PRIME: nat := 10007
  const STATUS_HASH_PRIME: nat := 8191

  // ----- the table sizes are prime

  lemma NameRoughLow()
    ensures Rough(16381, 64)
  {
  }

  lemma NameRough()
    ensures Rough(16381, 128)
  {
    NameRoughLow();
    assert forall d :: 64 <= d < 128 ==> !Divides(d, 16381);
    hide Divides;
  }

  lemma NamePrime()
    ensures Prime(NAME_HASH_PRIME)
  {
    NameRough();
    RoughRootPrime(16381, 127);
  }

  lemma PackageRoughLow()
    ensures Rough(10007, 52)
  {
  }

  lemma PackageRough()
    ensures Rough(10007, 101)
  {
    PackageRoughLow();
    assert forall d :: 52 <= d < 101 ==> !Divides(d, 10007);
    hide Divides;
  }

  lemma PackagePrime()
    ensures Prime(PACKAGE_HASH_PRIME)
  {
    PackageRough();
    RoughRootPrime(10007, 100);
  }

  lemma StatusRoughLow()
    ensures Rough(8191, 46)
  {
  }

  lemma StatusRough()
    ensures Rough(8191, 91)
  {
    StatusRoughLow();
    assert forall d :: 46 <= d < 91 ==> !Divides(d, 8191);
    hide Divides;
  }

  lemma StatusPrime()
    ensures Prime(STATUS_HASH_PRIME)
  {
    StatusRough();
    RoughRootPrime(8191, 90);
  }

  // ----- open addressing

  /** Where key `k` is looked for at the `i`-th attempt. */
  function Place(key: string, p: nat, i: nat): (a: nat)
    requires p > 1
    ensures a < p
  {
    Probe(Start(key, p), Decrement(key, p), p, i)
  }

  /** Every key in the table is reached before any free slot of its probe sequence. */
  ghost predicate Placed(keys: seq<Option<string>>) {
    |keys| > 1
    && forall a: nat :: a < |keys| && keys[a].Some? ==> Reached(keys, keys[a].value, a)
  }

  ghost predicate Reached(keys: seq<Option<string>>, key: string, a: nat)
    requires |keys| > 1
  {
    exists k: nat :: Place(key, |keys|, k) == a && Passed(keys, key, k)
  }

  /** The first `k` attempts all meet occupied slots. */
  ghost predicate Passed(keys: seq<Option<string>>, key: string, k: nat)
    requires |keys| > 1
  {
    forall i: nat :: i < k ==> keys[Place(key, |keys|, i)].Some?
  }

  lemma PassedAt(keys: seq<Option<string>>, key: string, k: nat, i: nat)
    requires |keys| > 1 && Passed(keys, key, k)
    ensures i < k ==> keys[Place(key, |keys|, i)].Some?
  {
  }

  /** A search that has come to a free slot has passed every place of its key. */
  lemma NotBeyond(keys: seq<Option<string>>, key: string, k: nat, a: nat) returns (i: nat)
    requires Placed(keys) && keys[Place(key, |keys|, k)].None?
    requires a < |keys| && keys[a] == Some(key)
    ensures i < k && Place(key, |keys|, i) == a
  {
    hide Place;
    assert Reached(keys, key, a);
    i :| Place(key, |keys|, i) == a && Passed(keys, key, i);
    PassedAt(keys, key, i, k);
  }

  /** While there is a free slot, a search cannot pass a whole table of occupied ones. */
  lemma SearchEnds(keys: seq<Option<string>>, key: string, k: nat, free: nat)
    requires Prime(|keys|) && Passed(keys, key, k) && free < |keys|
    requires keys[free].None? || (keys[free] == Some(key) && forall i: nat :: i < k ==> keys[Place(key, |keys|, i)] != Some(key))
    ensures k < |keys|
  {
    var i := ProbesCover(Start(key, |keys|), Decrement(key, |keys|), |keys|, free);
    assert Place(key, |keys|, i) == free;
  }

  /** The loop of a search ends at some attempt: at a free slot or at the key. */
  ghost predicate Stops(keys: seq<Option<string>>, key: string)
    requires |keys| > 1
  {
    exists k: nat :: StopsAt(keys, key, k)
  }

  predicate StopsAt(keys: seq<Option<string>>, key: string, k: nat)
    requires |keys| > 1
  {
    keys[Place(key, |keys|, k)].None? || keys[Place(key, |keys|, k)] == Some(key)
  }

  /** A search ends exactly if some slot is free or holds its key: in a full table, looking
      for a new string goes round for ever. */
  lemma StopsExactly(keys: seq<Option<string>>, key: string)
    requires Prime(|keys|)
    ensures Stops(keys, key) <==> None in keys || Some(key) in keys
  {
    if None in keys || Some(key) in keys {
      var t: nat :| t < |keys| && (keys[t].None? || keys[t] == Some(key));
      var i := ProbesCover(Start(key, |keys|), Decrement(key, |keys|), |keys|, t);
      assert Place(key, |keys|, i) == t && StopsAt(keys, key, i);
    }
  }

  /** Filling the free slot a search ended at keeps every key in reach. */
  lemma Fill(keys: seq<Option<string>>, key: string, k: nat)
    requires Placed(keys) && Passed(keys, key, k) && keys[Place(key, |keys|, k)].None?
    ensures Placed(keys[Place(key, |keys|, k) := Some(key)])
  {
    hide Place;
    var slot := Place(key, |keys|, k);
    var keys' := keys[slot := Some(key)];
    forall a: nat | a < |keys'| && keys'[a].Some? ensures Reached(keys', keys'[a].value, a) {
      var x := keys'[a].value;
      var i: nat := k;
      if a != slot {
        assert Reached(keys, x, a);
        i :| Place(x, |keys|, i) == a && Passed(keys, x, i);
      }
      forall j: nat | j < i ensures keys'[Place(x, |keys'|, j)].Some? {
        assert keys[Place(x, |keys|, j)].Some?;
      }
      assert Passed(keys', x, i);
    }
  }

  // ----- the name table

  ghost predicate Unique(keys: seq<Option<string>>) {
    forall a, b :: 0 <= a < b < |keys| && keys[a].Some? ==> keys[a] != keys[b]
  }

  class NameTable {
    const slots: array<Option<string>>

    ghost predicate Valid()
      reads slots
    {
      slots.Length == NAME_HASH_PRIME && Placed(slots[..]) && Unique(slots[..])
    }

    constructor ()
      ensures Valid() && fresh(slots) && forall a :: 0 <= a < slots.Length ==> slots[a] == None
    {
      slots := new Option<string>[NAME_HASH_PRIME](_ => None);
    }

    /** search_name_hashtable: the index of a string, the same for equal strings only; a
        string that is new takes a free slot, and no index ever changes its meaning. */
    method Search(key: string, ghost free: nat) returns (address: nat)
      requires Valid() && free < slots.Length && (slots[free] == None || slots[free] == Some(key))
      modifies slots
      ensures Valid() && address < slots.Length && slots[address] == Some(key)
      ensures forall a :: 0 <= a < slots.Length && a != address ==> slots[a] == old(slots[a])
      ensures old(slots[address]) == None || old(slots[address]) == Some(key)
      ensures forall a :: 0 <= a < slots.Length && old(slots[a]) == Some(key) ==> a == address
    {
      hide Place, Placed, Prime, Unique;
      NamePrime();
      ghost var keys := slots[..];
      var decrement;
      address, decrement := MakeHash(key, NAME_HASH_PRIME);
      ghost var k := 0;
      PlaceStart(key, NAME_HASH_PRIME);
      while slots[address] != None
        invariant slots[..] == keys && address == Place(key, NAME_HASH_PRIME, k) && Passed(keys, key, k)
        invariant forall i: nat :: i < k ==> keys[Place(key, NAME_HASH_PRIME, i)] != Some(key)
        decreases NAME_HASH_PRIME - k
      {
        SearchEnds(keys, key, k, free);
        if slots[address] == Some(key) {
          FoundOnce(keys, key, address);
          return;
        }
        PlaceNext(key, NAME_HASH_PRIME, k);
        PassedNext(keys, key, k);
        var next: int := address - decrement;
        if next < 0 {
          next := next + NAME_HASH_PRIME;
        }
        address := next;
        k := k + 1;
      }
      NotThere(keys, key, k);
      Fill(keys, key, k);
      StillUnique(keys, key, address);
      slots[address] := Some(key);
      assert slots[..] == keys[address := Some(key)];
    }

    /** Over any run of calls, equal strings get equal indices and different ones different,
        as long as there is a free slot for every new string. */
    method SearchAll(keys: seq<string>, ghost free: set<nat>) returns (ids: seq<nat>)
      requires Valid() && |free| >= |NewKeys(slots[..], keys)|
      requires forall a: nat :: a in free ==> a < slots.Length && slots[a] == None
      modifies slots
      ensures Valid() && |ids| == |keys|
      ensures forall i, j :: 0 <= i < |ids| && 0 <= j < |ids| ==> (ids[i] == ids[j] <==> keys[i] == keys[j])
      ensures forall a :: 0 <= a < slots.Length && old(slots[a]) != None ==> slots[a] == old(slots[a])
    {
      hide Placed;
      ids := [];
      ghost var left := free;
      assert keys[0..] == keys;
      for n := 0 to |keys|
        invariant Valid() && |ids| == n && |left| >= |NewKeys(slots[..], keys[n..])|
        invariant forall a: nat :: a in left ==> a < slots.Length && slots[a] == None
        invariant forall i :: 0 <= i < n ==> ids[i] < slots.Length && slots[ids[i]] == Some(keys[i])
        invariant forall a :: 0 <= a < slots.Length && old(slots[a]) != None ==> slots[a] == old(slots[a])
      {
        ghost var before := slots[..];
        ghost var f := RoomFor(before, keys, n, left);
        var id := Search(keys[n], f);
        FewerNew(before, slots[..], keys, n, id);
        left := left - {id};
        ids := ids + [id];
      }
      OneEach(slots[..], keys, ids);
    }
  }

  /** The strings that are not in the table yet. */
  ghost function NewKeys(slots: seq<Option<string>>, keys: seq<string>): set<string> {
    set k | k in keys && Some(k) !in slots
  }

  /** A slot that is free or holds the next string. */
  lemma RoomFor(slots: seq<Option<string>>, keys: seq<string>, n: nat, left: set<nat>) returns (f: nat)
    requires n < |keys| && |left| >= |NewKeys(slots, keys[n..])|
    requires forall a: nat :: a in left ==> a < |slots| && slots[a] == None
    ensures f < |slots| && (slots[f] == None || slots[f] == Some(keys[n]))
  {
    if Some(keys[n]) in slots {
      f :| f < |slots| && slots[f] == Some(keys[n]);
    } else {
      assert keys[n] == keys[n..][0] && keys[n] in NewKeys(slots, keys[n..]);
      f :| f in left;
    }
  }

  /** A string that is put into the table is not new any more. */
  lemma FewerNew(slots: seq<Option<string>>, slots': seq<Option<string>>, keys: seq<string>, n: nat, id: nat)
    requires n < |keys| && id < |slots| == |slots'| && slots' == slots[id := Some(keys[n])]
    requires slots[id] == None || slots[id] == Some(keys[n])
    ensures NewKeys(slots', keys[n + 1..]) <= NewKeys(slots, keys[n..])
    ensures |NewKeys(slots', keys[n + 1..])| + (if slots[id] == None && Some(keys[n]) !in slots then 1 else 0) <= |NewKeys(slots, keys[n..])|
  {
    var a, b := NewKeys(slots', keys[n + 1..]), NewKeys(slots, keys[n..]);
    assert keys[n..] == [keys[n]] + keys[n + 1..];
    assert slots'[id] == Some(keys[n]);
    assert forall i :: 0 <= i < |slots| && slots[i].Some? ==> slots'[i] == slots[i] && slots[i] in slots';
    if slots[id] == None && Some(keys[n]) !in slots {
      Smaller(a, b, keys[n]);
    } else {
      Fewer(a, b);
    }
  }

  lemma Fewer(a: set<string>, b: set<string>)
    requires a <= b
    ensures |a| <= |b|
  {
    assert b == a + (b - a);
  }

  lemma Smaller(a: set<string>, b: set<string>, x: string)
    requires a <= b && x in b && x !in a
    ensures |a| < |b|
  {
    Fewer(a, b - {x});
  }

  lemma OneEach(slots: seq<Option<string>>, keys: seq<string>, ids: seq<nat>)
    requires Unique(slots) && |ids| == |keys|
    requires forall i :: 0 <= i < |ids| ==> ids[i] < |slots| && slots[ids[i]] == Some(keys[i])
    ensures forall i, j :: 0 <= i < |ids| && 0 <= j < |ids| ==> (ids[i] == ids[j] <==> keys[i] == keys[j])
  {
  }

  lemma PlaceStart(key: string, p: nat)
    requires p > 1
    ensures Place(key, p, 0) == Start(key, p)
  {
  }

  lemma PlaceNext(key: string, p: nat, k: nat)
    requires p > 1
    ensures Place(key, p, k + 1) == Previous(Place(key, p, k), Decrement(key, p), p)
  {
  }

  lemma PassedNext(keys: seq<Option<string>>, key: string, k: nat)
    requires |keys| > 1 && Passed(keys, key, k) && keys[Place(key, |keys|, k)].Some?
    ensures Passed(keys, key, k + 1)
  {
    hide Place;
  }

  lemma FoundOnce(keys: seq<Option<string>>, key: string, a: nat)
    requires Unique(keys) && a < |keys| && keys[a] == Some(key)
    ensures forall b :: 0 <= b < |keys| && keys[b] == Some(key) ==> b == a
  {
  }

  lemma NotThere(keys: seq<Option<string>>, key: string, k: nat)
    requires Placed(keys) && keys[Place(key, |keys|, k)].None?
    requires forall i: nat :: i < k ==> keys[Place(key, |keys|, i)] != Some(key)
    ensures Some(key) !in keys
  {
    hide Place;
    if Some(key) in keys {
      var a: nat :| a < |keys| && keys[a] == Some(key);
      var i := NotBeyond(keys, key, k, a);
    }
  }

  lemma StillUnique(keys: seq<Option<string>>, key: string, a: nat)
    requires Unique(keys) && Some(key) !in keys && a < |keys|
    ensures Unique(keys[a := Some(key)])
  {
  }
}
