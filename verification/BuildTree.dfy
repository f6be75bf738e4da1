/** build_tree: from frequencies to lengths and codes. */
module TreeBuilding {
  import opened Bits
  import opened Canonical
  import opened Sums
  import opened Forests
  import opened Heaps
  import opened BitLengths
  import opened Optimality
  import opened Combining

  const HEAP_SIZE: nat := 573

  // ----- the combining loop

  /** Facts about a state that the code of one round relies on. */
  lemma RoundFacts(s: State, leaves: seq<nat>, elems: nat, maxCode: nat, total: nat, acc: int)
    requires s.Inv(leaves, elems, maxCode, total, acc) && s.len >= 2 && total < 0x1_0000
    ensures s.Sized(leaves, elems) && Ordered(s.heap, s.len, 1, s.fc, s.depth)
    ensures |s.tr| < |s.fc| && s.max >= s.len + 2
    ensures forall j :: 1 <= j <= s.len ==> s.heap[j] < |s.tr|
    ensures forall j :: 1 <= j <= s.len ==> s.fc[s.heap[1]] <= s.fc[s.heap[j]]
  {
    hide Part, FreqAt, Reduces, Weights, Sum, Range, Symbols;
    RootsBelow(s, leaves, elems);
    forall j | 1 <= j <= s.len ensures s.fc[s.heap[1]] <= s.fc[s.heap[j]] {
      FirstIsLeast(s.heap, s.len, s.fc, s.depth, j);
    }
  }

  lemma RootsBelow(s: State, leaves: seq<nat>, elems: nat)
    requires s.len < |s.heap| && s.max <= |s.heap| && Forest(s.Roots(), s.Order(), s.dl, s.tr, leaves, elems)
    ensures forall j :: 1 <= j <= s.len ==> s.heap[j] < |s.tr|
  {
    ForestKnows(s.Roots(), s.Order(), s.dl, s.tr, leaves, elems);
    hide Forest;
    forall j | 1 <= j <= s.len ensures s.heap[j] < |s.tr| {
      assert s.Roots()[j - 1] == s.heap[j];
      assert s.heap[j] in s.Roots();
    }
  }

  lemma RootsAre(s: State, leaves: seq<nat>, elems: nat, maxCode: nat, total: nat, acc: int)
    requires s.Inv(leaves, elems, maxCode, total, acc)
    ensures 1 <= s.len < |s.heap| && |s.tr| <= |s.fc| && Ordered(s.heap, s.len, 1, s.fc, s.depth)
    ensures Sum(Part(s.heap, s.len), FreqAt(s.fc)) == total
    ensures forall x :: x in Part(s.heap, s.len) ==> x < |s.tr|
  {
    hide Reduces, Weights, Range, Symbols, Sum, State.Weighed, Part, FreqAt, Ordered;
    RootsInOrder(s, leaves, elems);
  }

  /** After the least node is gone: the next one, and the sum of the two. */
  lemma AfterRemove(s: State, h1: seq<nat>, leaves: seq<nat>, elems: nat, maxCode: nat, total: nat, acc: int)
    requires s.Inv(leaves, elems, maxCode, total, acc) && s.len >= 2 && total < 0x1_0000 && |h1| == |s.heap|
    requires multiset(Part(s.heap, s.len)) == multiset{s.heap[1]} + multiset(Part(h1, s.len - 1))
    requires Ordered(h1, s.len - 1, 1, s.fc, s.depth)
    ensures forall j :: 1 <= j < s.len ==> h1[j] < |s.tr|
    ensures |s.tr| <= |s.fc| && s.fc[s.heap[1]] <= s.fc[h1[1]]
    ensures forall j :: 1 <= j < s.len ==> s.fc[s.heap[1]] + s.fc[h1[j]] <= total
    ensures forall x :: x in h1[2..s.len] ==> x < |s.tr| && s.fc[h1[1]] <= s.fc[x]
  {
    hide *;
    RootsAre(s, leaves, elems, maxCode, total, acc);
    var n, p, roots := s.heap[1], Part(h1, s.len - 1), Part(s.heap, s.len);
    PartMembers(s.heap, s.len + 1);
    LeastOf(s.heap, s.len, s.fc, s.depth);
    LeastOf(h1, s.len - 1, s.fc, s.depth);
    PairSums(roots, p, s.fc, n, |s.tr|, total);
    RestOf(h1, s.len);
    PartMembers(h1, s.len);
  }

  lemma PartMembers(h: seq<nat>, len: nat)
    requires 2 <= len <= |h|
    ensures |Part(h, len - 1)| == len - 1 && Part(h, len - 1)[0] == h[1]
    ensures forall j :: 1 <= j < len ==> h[j] in Part(h, len - 1)
  {
    var p := Part(h, len - 1);
    forall j | 1 <= j < len ensures h[j] in p {
      assert p[j - 1] == h[j];
    }
  }

  lemma RootsInOrder(s: State, leaves: seq<nat>, elems: nat)
    requires s.len < |s.heap| && s.max <= |s.heap| && Forest(s.Roots(), s.Order(), s.dl, s.tr, leaves, elems)
    ensures forall x :: x in s.Roots() ==> x < |s.tr|
  {
    ForestKnows(s.Roots(), s.Order(), s.dl, s.tr, leaves, elems);
  }

  lemma RestOf(h: seq<nat>, len: nat)
    requires 2 <= len <= |h|
    ensures |Part(h, len - 1)| == len - 1 && forall j :: 1 <= j < len ==> Part(h, len - 1)[j - 1] == h[j]
    ensures forall x :: x in h[2..len] ==> x in Part(h, len - 1)
  {
    assert h[1..len] == [h[1]] + h[2..len];
  }

  /** The least node and any other together weigh no more than all. */
  lemma PairSums(roots: seq<nat>, p: seq<nat>, fc: seq<nat>, n: nat, node: nat, total: nat)
    requires multiset(roots) == multiset{n} + multiset(p) && Sum(roots, FreqAt(fc)) == total && node <= |fc|
    requires forall x :: x in roots ==> x < node
    ensures n < node && forall x :: x in p ==> x in roots && x < node && fc[n] + fc[x] <= total
  {
    assert multiset([n] + p) == multiset{n} + multiset(p);
    SumFirst(roots, n, p, FreqAt(fc));
    SumNonNegative(p, FreqAt(fc));
    hide Sum;
    assert n in multiset(roots);
    assert n in roots;
    forall x | x in p ensures x in roots && x < node && fc[n] + fc[x] <= total {
      assert x in multiset(p);
      assert x in multiset(roots);
      assert x in roots;
      assert FreqAt(fc)(x) == fc[x];
    }
  }

  /** The depth of a node, which decides between equal frequencies, is its height: as long as
      heights fit in a byte, and symbols have height 0. */
  ghost predicate Deep(depth: seq<nat>, tr: seq<Tree>, leaves: seq<nat>, elems: nat) {
    |tr| <= |depth| && (forall x :: x in leaves ==> x < |depth| && depth[x] == 0)
    && forall p :: elems <= p < |tr| && Height(tr[p]) < 0x100 ==> depth[p] == Height(tr[p])
  }

  /** A node whose depth is known: a symbol in use, or a father. */
  ghost predicate Rooted(tr: seq<Tree>, leaves: seq<nat>, elems: nat, x: nat) {
    x < |tr| && (if x < elems then x in leaves && tr[x].Leaf? else true)
  }

  lemma DeepFather(depth: seq<nat>, tr: seq<Tree>, leaves: seq<nat>, elems: nat, n: nat, m: nat)
    requires Deep(depth, tr, leaves, elems) && |tr| < |depth| && elems <= |tr| && forall x :: x in leaves ==> x < elems
    requires Rooted(tr, leaves, elems, n) && Rooted(tr, leaves, elems, m)
    ensures Deep(depth[|tr| := ((if depth[n] < depth[m] then depth[m] else depth[n]) + 1) % 0x100],
                 tr + [Node(|tr|, tr[n], tr[m])], leaves, elems)
  {
    DepthIs(depth, tr, leaves, elems, n);
    DepthIs(depth, tr, leaves, elems, m);
    var p := Node(|tr|, tr[n], tr[m]);
    assert Height(p) == 1 + if Height(tr[n]) < Height(tr[m]) then Height(tr[m]) else Height(tr[n]);
    hide Height;
  }

  lemma DepthIs(depth: seq<nat>, tr: seq<Tree>, leaves: seq<nat>, elems: nat, x: nat)
    requires Deep(depth, tr, leaves, elems) && Rooted(tr, leaves, elems, x)
    ensures x < |depth| && (Height(tr[x]) < 0x100 ==> depth[x] == Height(tr[x]))
  {
    if x < elems {
      assert Height(tr[x]) == 0;
    }
    hide Height;
  }

  lemma RootedRoot(s: State, leaves: seq<nat>, elems: nat, x: nat)
    requires s.len < |s.heap| && s.max <= |s.heap| && Forest(s.Roots(), s.Order(), s.dl, s.tr, leaves, elems)
    requires x in Part(s.heap, s.len)
    ensures elems <= |s.tr| && Rooted(s.tr, leaves, elems, x) && forall y :: y in leaves ==> y < elems
  {
    hide Planted, FathersFirst, Part;
    RangeMembers(elems, |s.tr|);
    var order, roots, range := s.Order(), s.Roots(), Range(elems, |s.tr|);
    assert x in multiset(order) + multiset(roots);
    assert x in multiset(leaves) + multiset(range);
    assert x in leaves || x in range;
    assert x < |s.tr| && s.tr[x].id == x && WellNumbered(s.tr[x], elems);
  }

  /** The two nodes that get a father. */
  lemma BothRooted(s: State, h1: seq<nat>, leaves: seq<nat>, elems: nat, maxCode: nat, total: nat, acc: int)
    requires s.Inv(leaves, elems, maxCode, total, acc) && s.len >= 2 && |h1| == |s.heap| && s.len < |s.heap|
    requires multiset(Part(s.heap, s.len)) == multiset{s.heap[1]} + multiset(Part(h1, s.len - 1))
    ensures elems <= |s.tr| && forall y :: y in leaves ==> y < elems
    ensures Rooted(s.tr, leaves, elems, s.heap[1]) && Rooted(s.tr, leaves, elems, h1[1])
  {
    hide *;
    PartMembers(s.heap, s.len + 1);
    PartMembers(h1, s.len);
    assert h1[1] in multiset(Part(h1, s.len - 1));
    assert h1[1] in multiset(Part(s.heap, s.len));
    InvForest(s, leaves, elems, maxCode, total, acc);
    RootedRoot(s, leaves, elems, s.heap[1]);
    RootedRoot(s, leaves, elems, h1[1]);
  }

  lemma InvForest(s: State, leaves: seq<nat>, elems: nat, maxCode: nat, total: nat, acc: int)
    requires s.Inv(leaves, elems, maxCode, total, acc)
    ensures s.len < |s.heap| && s.max <= |s.heap| && Forest(s.Roots(), s.Order(), s.dl, s.tr, leaves, elems)
  {
    hide Forest, Ordered, Symbols, Reduces, Sum, Weights, State.Weighed;
  }

  /** One round of the loop: the two least nodes get a father. */
  method Round(heap: array<nat>, len0: nat, max0: nat, fc: array<nat>, depth: array<nat>, dl: array<nat>, node: nat,
               ghost tr: seq<Tree>, ghost leaves: seq<nat>, ghost elems: nat, ghost maxCode: nat, ghost total: nat, ghost acc: int)
    returns (len: nat, max: nat, ghost tr': seq<Tree>, ghost acc': int)
    requires heap != fc && heap != depth && heap != dl && fc != depth && fc != dl && depth != dl
    requires len0 >= 2 && node == |tr| && total < 0x1_0000
    requires State(heap[..], len0, max0, fc[..], dl[..], depth[..], tr).Inv(leaves, elems, maxCode, total, acc)
    requires Deep(depth[..], tr, leaves, elems)
    modifies heap, fc, depth, dl
    ensures len == len0 - 1 && |tr'| == node + 1 && Deep(depth[..], tr', leaves, elems)
    ensures State(heap[..], len, max, fc[..], dl[..], depth[..], tr').Inv(leaves, elems, maxCode, total, acc')
    ensures forall x :: 0 <= x < elems && x < fc.Length ==> fc[x] == old(fc[x])
  {
    hide *;
    ghost var s := State(heap[..], len0, max0, fc[..], dl[..], depth[..], tr);
    RoundFacts(s, leaves, elems, maxCode, total, acc);
    SizedIs(s, leaves, elems);
    len, max := len0 - 1, max0 - 2;
    var n := PqRemove(heap, len0, fc, depth);
    ghost var h1 := heap[..];
    AfterRemove(s, h1, leaves, elems, maxCode, total, acc);
    tr', acc' := FatherRound(heap, len, max0, fc, depth, dl, n, node, s, h1, leaves, elems, maxCode, total, acc);
  }

  /** The second half of a round: the father of the two least nodes. */
  method FatherRound(heap: array<nat>, len: nat, max0: nat, fc: array<nat>, depth: array<nat>, dl: array<nat>, n: nat, node: nat,
                     ghost s: State, ghost h1: seq<nat>, ghost leaves: seq<nat>, ghost elems: nat, ghost maxCode: nat,
                     ghost total: nat, ghost acc: int)
    returns (ghost tr': seq<Tree>, ghost acc': int)
    requires heap != fc && heap != depth && heap != dl && fc != depth && fc != dl && depth != dl
    requires s.Inv(leaves, elems, maxCode, total, acc) && s.Sized(leaves, elems) && s.len >= 2 && len == s.len - 1 && max0 == s.max
    requires node == |s.tr| && heap[..] == h1 && |h1| == |s.heap| && fc[..] == s.fc && dl[..] == s.dl && depth[..] == s.depth
    requires s.len < |s.heap| && 2 <= s.max <= |s.heap| && n == s.heap[1] && n < node && node < fc.Length && |s.dl| == |s.fc|
    requires elems <= node && total < 0x1_0000 && Ordered(h1, len, 1, s.fc, s.depth)
    requires multiset(Part(s.heap, s.len)) == multiset{n} + multiset(Part(h1, len))
    requires forall i :: s.len < i < |s.heap| ==> h1[i] == s.heap[i]
    requires (forall j :: 1 <= j < s.len ==> h1[j] < node) && forall j :: 1 <= j < s.len ==> s.fc[n] + s.fc[h1[j]] <= total
    requires s.fc[n] <= s.fc[h1[1]] && forall x :: x in h1[2..s.len] ==> x < node && s.fc[h1[1]] <= s.fc[x]
    requires Deep(s.depth, s.tr, leaves, elems) && |s.fc| <= |s.depth|
    modifies heap, fc, depth, dl
    ensures |tr'| == node + 1 && max0 >= 2 && Deep(depth[..], tr', leaves, elems)
    ensures State(heap[..], len, max0 - 2, fc[..], dl[..], depth[..], tr').Inv(leaves, elems, maxCode, total, acc')
    ensures forall x :: 0 <= x < elems && x < fc.Length ==> fc[x] == old(fc[x])
  {
    hide *;
    var m := PutFather(heap, len, max0, fc, depth, dl, n, node, s, leaves, elems);
    BothRooted(s, h1, leaves, elems, maxCode, total, acc);
    DeepFather(s.depth, s.tr, leaves, elems, n, m);
    tr' := s.tr + [Node(node, s.tr[n], s.tr[m])];
    acc' := acc + s.fc[n] + s.fc[m];
    ghost var s' := State(heap[..], len, max0 - 2, fc[..], dl[..], depth[..], tr');
    RoundKeeps(s, s', h1, n, m, leaves, elems, maxCode, total, acc);
  }

  /** What the two halves of a round leave behind is the state after it. */
  lemma RoundKeeps(s: State, s': State, h1: seq<nat>, n: nat, m: nat, leaves: seq<nat>, elems: nat, maxCode: nat, total: nat, acc: int)
    requires s.Inv(leaves, elems, maxCode, total, acc) && s.Sized(leaves, elems) && s.len >= 2 && |h1| == |s.heap| == |s'.heap|
    requires s.len < |s.heap| && 2 <= s.max <= |s.heap| && n < |s.tr| && m < |s.tr| && |s.tr| < |s.dl| == |s.fc|
    requires n == s.heap[1] && m == h1[1] && s'.len == s.len - 1 && s'.max == s.max - 2 && |s'.depth| == |s.depth|
    requires multiset(Part(s.heap, s.len)) == multiset{n} + multiset(Part(h1, s.len - 1))
    requires forall i :: s.len < i < |s.heap| ==> h1[i] == s.heap[i]
    requires multiset(Part(s'.heap, s.len - 1)) == multiset([|s.tr|] + h1[2..s.len])
    requires forall i :: s.len <= i < |s.heap| ==> s'.heap[i] == h1[s.max - 1 := n][s.max - 2 := m][i]
    requires Ordered(s'.heap, s'.len, 1, s'.fc, s'.depth)
    requires s'.fc == s.fc[|s.tr| := s.fc[n] + s.fc[m]] && s'.dl == s.dl[n := |s.tr|][m := |s.tr|]
    requires s'.tr == s.tr + [Node(|s.tr|, s.tr[n], s.tr[m])]
    requires s.fc[n] <= s.fc[m] && forall x :: x in h1[2..s.len] ==> x < |s.tr| && s.fc[m] <= s.fc[x]
    ensures s'.Inv(leaves, elems, maxCode, total, acc + s.fc[n] + s.fc[m])
  {
    hide *;
    RoundHeaps(s, h1, s'.heap, n, m, |s.tr|, leaves, elems);
    MergedIs(s, s', n, m, h1[2..s.len]);
    MergedInv(s, s', n, m, h1[2..s.len], leaves, elems, maxCode, total, acc);
  }

  lemma SizedIs(s: State, leaves: seq<nat>, elems: nat)
    ensures s.Sized(leaves, elems)
       <==> (1 <= s.len < s.max <= |s.heap| && elems <= |s.tr|
             && s.len + (|s.tr| - elems) == |leaves| && |s.heap| - s.max == 2 * (|s.tr| - elems)
             && 2 * |leaves| < |s.heap| && elems + |leaves| <= |s.fc| == |s.dl| <= |s.depth|)
  {
  }

  lemma MergedIs(s: State, s': State, n: nat, m: nat, rest: seq<nat>)
    requires s.len < |s.heap| && s.max <= |s.heap| && s.len >= 2 && s.max >= 2
    requires |s'.heap| == |s.heap| && s'.len == s.len - 1 && s'.max == s.max - 2 && |s'.depth| == |s.depth|
    requires n < |s.tr| && m < |s.tr| && |s.tr| < |s.dl| == |s.fc|
    requires Merging(Part(s.heap, s.len), Part(s'.heap, s'.len), n, m, |s.tr|, rest)
    requires s'.heap[s'.max..] == [m, n] + s.heap[s.max..]
    requires s'.fc == s.fc[|s.tr| := s.fc[n] + s.fc[m]]
    requires s'.dl == s.dl[n := |s.tr|][m := |s.tr|]
    requires s'.tr == s.tr + [Node(|s.tr|, s.tr[n], s.tr[m])]
    ensures Merged(s, s', n, m, rest)
  {
    hide Part, Merging;
  }

  /** The finished tree, and what it weighs. */
  lemma LoopDone(s: State, leaves: seq<nat>, elems: nat, maxCode: nat, total: nat, acc: int)
    requires s.Inv(leaves, elems, maxCode, total, acc) && s.len == 1 && |leaves| >= 2
    ensures |s.tr| > elems && s.heap[1] == |s.tr| - 1 && 1 < s.max <= |s.heap|
    ensures Built([s.heap[1]] + s.Order(), s.dl, s.tr[s.heap[1]], leaves, elems)
    ensures AtLeast(Weights(leaves, s.fc), acc)
    ensures acc == Sum(Range(elems, |s.tr|), FreqAt(s.fc))
    ensures Symbols(leaves, s.fc, s.dl, elems, maxCode) && s.Weighed(elems)
  {
    hide Forest, Ordered, Symbols, Reduces, Sum, Range, FreqAt, Weights;
    var root := s.heap[1];
    assert s.Roots() == [root];
    assert |s.tr| - 1 in s.Roots();
    assert Weights([root], s.fc) == [Weights([root], s.fc)[0]];
    ReduceDone(Weights(leaves, s.fc), Weights([root], s.fc)[0], acc);
    hide State.Weighed;
    Finish(root, s.Order(), s.dl, s.tr, leaves, elems);
  }

  /** Combines until one node is left. */
  method CombineAll(heap: array<nat>, len0: nat, fc: array<nat>, depth: array<nat>, dl: array<nat>, elems: nat,
                    ghost leaves: seq<nat>, ghost maxCode: nat, ghost total: nat)
    returns (len: nat, max: nat, ghost tr: seq<Tree>, ghost acc: int)
    requires heap != fc && heap != depth && heap != dl && fc != depth && fc != dl && depth != dl
    requires len0 >= 2 && total < 0x1_0000
    requires State(heap[..], len0, heap.Length, fc[..], dl[..], depth[..], Saplings(elems)).Inv(leaves, elems, maxCode, total, 0)
    requires Deep(depth[..], Saplings(elems), leaves, elems)
    modifies heap, fc, depth, dl
    ensures Deep(depth[..], tr, leaves, elems)
    ensures len == 1 && State(heap[..], 1, max, fc[..], dl[..], depth[..], tr).Inv(leaves, elems, maxCode, total, acc)
    ensures forall x :: 0 <= x < elems && x < fc.Length ==> fc[x] == old(fc[x])
  {
    hide State.Inv, Deep;
    len, max := len0, heap.Length;
    var node := elems;
    tr, acc := Saplings(elems), 0;
    while true
      invariant len >= 2 && node == |tr| && Deep(depth[..], tr, leaves, elems)
      invariant State(heap[..], len, max, fc[..], dl[..], depth[..], tr).Inv(leaves, elems, maxCode, total, acc)
      invariant forall x :: 0 <= x < elems && x < fc.Length ==> fc[x] == old(fc[x])
      decreases len
    {
      len, max, tr, acc := Round(heap, len, max, fc, depth, dl, node, tr, leaves, elems, maxCode, total, acc);
      node := node + 1;
      if len < 2 {
        return;
      }
    }
  }

  /** Before the first round every symbol is a tree of its own. */
  ghost function Saplings(elems: nat): (tr: seq<Tree>)
    ensures |tr| == elems && forall i :: 0 <= i < elems ==> tr[i] == Leaf(i)
  {
    seq(elems, i requires 0 <= i < elems => Leaf(i))
  }

  lemma {:induction false} SaplingOccurs(roots: seq<nat>, elems: nat, x: nat)
    requires forall y :: y in roots ==> y < elems
    ensures Sum(roots, Occurs(Saplings(elems), x)) == multiset(roots)[x]
  {
    if roots != [] {
      TailMembers(roots);
      SaplingOccurs(roots[1..], elems, x);
      assert roots == [roots[0]] + roots[1..];
      assert Nodes(Saplings(elems)[roots[0]]) == [roots[0]];
    }
  }

  lemma StartForest(leaves: seq<nat>, dl: seq<nat>, elems: nat)
    requires Distinct(leaves) && (forall x :: x in leaves ==> x < elems) && elems <= |dl|
    ensures Forest(leaves, [], dl, Saplings(elems), leaves, elems)
  {
    forall x: nat ensures Sum(leaves, Occurs(Saplings(elems), x)) == multiset(leaves)[x] {
      SaplingOccurs(leaves, elems, x);
    }
    hide Saplings;
    assert Planted(leaves, [], Saplings(elems));
    assert multiset(Range(elems, elems)) == multiset{};
  }

  lemma StartInv(s: State, leaves: seq<nat>, elems: nat, maxCode: nat, total: nat)
    requires s.tr == Saplings(elems) && s.max == |s.heap| && s.Sized(leaves, elems)
    requires multiset(s.Roots()) == multiset(leaves) && Symbols(leaves, s.fc, s.dl, elems, maxCode)
    requires Ordered(s.heap, s.len, 1, s.fc, s.depth) && total == Sum(leaves, FreqAt(s.fc))
    ensures s.Inv(leaves, elems, maxCode, total, 0)
  {
    assert Distinct(leaves) && elems <= |s.dl| && forall x :: x in leaves ==> x < elems;
    hide Part, Saplings, Symbols;
    StartForest(leaves, s.dl, elems);
    StartRoots(leaves, s.Roots(), s.Order(), s.dl, elems);
    SumPerm(s.Roots(), leaves, FreqAt(s.fc));
    WeightsPerm(leaves, s.Roots(), s.fc);
    StartReduces(Weights(leaves, s.fc), Weights(s.Roots(), s.fc));
    assert Range(elems, elems) == [];
    hide *;
    InvIs(s, leaves, elems, maxCode, total, 0);
    NoneWeighed(s, elems);
  }

  lemma NoneWeighed(s: State, elems: nat)
    requires |s.tr| == elems <= |s.fc|
    ensures s.Weighed(elems) && Sum(Range(elems, elems), FreqAt(s.fc)) == 0
  {
  }

  lemma StartReduces(ws0: seq<nat>, ws: seq<nat>)
    requires multiset(ws0) == multiset(ws)
    ensures Reduces(ws0, ws, 0)
  {
    forall c | AtLeast(ws, c) ensures AtLeast(ws0, c + 0) {
      AtLeastPerm(ws, ws0, c);
    }
  }

  lemma StartRoots(leaves: seq<nat>, roots: seq<nat>, order: seq<nat>, dl: seq<nat>, elems: nat)
    requires Forest(leaves, [], dl, Saplings(elems), leaves, elems) && order == []
    requires multiset(roots) == multiset(leaves)
    ensures Forest(roots, order, dl, Saplings(elems), leaves, elems)
  {
    hide Trees, Saplings;
    forall x: nat ensures Sum(roots, Occurs(Saplings(elems), x)) == multiset(order)[x] + multiset(roots)[x] {
      SumPerm(roots, leaves, Occurs(Saplings(elems), x));
      assert Sum(leaves, Occurs(Saplings(elems), x)) == multiset([])[x] + multiset(leaves)[x];
    }
  }

  // ----- the first two loops: which symbols occur

  /** The symbols below `n` that occur, in ascending order; the others have length 0. */
  ghost predicate Found(leaves: seq<nat>, fc: seq<nat>, dl: seq<nat>, n: nat, maxCode: int) {
    n <= |fc| && n <= |dl|
    && |leaves| <= n && (forall i, j :: 0 <= i < j < |leaves| ==> leaves[i] < leaves[j])
    && (forall s: nat :: s < n ==> (s in leaves <==> fc[s] != 0))
    && (forall s :: s in leaves ==> s < n)
    && (forall s: nat :: s < n && s !in leaves ==> dl[s] == 0)
    && maxCode == (if leaves == [] then -1 else leaves[|leaves| - 1])
  }

  lemma FoundStep(leaves: seq<nat>, fc: seq<nat>, dl: seq<nat>, n: nat, maxCode: int)
    requires Found(leaves, fc, dl, n, maxCode) && n < |fc| && n < |dl|
    ensures fc[n] != 0 ==> Found(leaves + [n], fc, dl, n + 1, n)
    ensures fc[n] == 0 ==> Found(leaves, fc, dl[n := 0], n + 1, maxCode)
  {
    if fc[n] != 0 {
      var l := leaves + [n];
      forall s: nat | s < n + 1 ensures s in l <==> fc[s] != 0 {
      }
      forall i, j | 0 <= i < j < |l| ensures l[i] < l[j] {
        if j == |leaves| {
          assert leaves[i] in leaves;
        }
      }
    }
  }

  /** Symbols have depth 0. */
  ghost predicate Flat(leaves: seq<nat>, depth: seq<nat>) {
    forall x :: x in leaves ==> x < |depth| && depth[x] == 0
  }

  lemma FlatMore(leaves: seq<nat>, depth: seq<nat>, n: nat)
    requires Flat(leaves, depth) && n < |depth|
    ensures Flat(leaves + [n], depth[n := 0])
  {
  }

  /** Puts the occurring symbols into the heap. */
  method InitHeap(heap: array<nat>, depth: array<nat>, fc: array<nat>, dl: array<nat>, elems: nat)
    returns (len: nat, maxCode: int)
    requires heap != fc && heap != depth && heap != dl && fc != depth && fc != dl && depth != dl
    requires elems <= fc.Length == dl.Length <= depth.Length && elems < heap.Length
    modifies heap, depth, dl
    ensures len <= elems && Found(Part(heap[..], len), fc[..], dl[..], elems, maxCode)
    ensures Flat(Part(heap[..], len), depth[..])
  {
    hide Found, Flat;
    len, maxCode := 0, -1;
    NoneFlat(depth[..]);
    FoundNone(fc[..], dl[..]);
    assert Part(heap[..], 0) == [];
    for n := 0 to elems
      invariant len <= n && Found(Part(heap[..], len), fc[..], dl[..], n, maxCode) && Flat(Part(heap[..], len), depth[..])
    {
      ghost var leaves, dls := Part(heap[..], len), dl[..];
      FlatMore(leaves, depth[..], n);
      FoundStep(leaves, fc[..], dls, n, maxCode);
      if fc[n] != 0 {
        len := len + 1;
        maxCode := n;
        heap[len] := n;
        ghost var dps := depth[..];
        depth[n] := 0;
        assert depth[..] == dps[n := 0];
        assert Part(heap[..], len) == leaves + [n];
      } else {
        dl[n] := 0;
        assert dl[..] == dls[n := 0];
      }
    }
  }

  lemma NoneFlat(depth: seq<nat>)
    ensures Flat([], depth)
  {
  }

  lemma FoundNone(fc: seq<nat>, dl: seq<nat>)
    ensures Found([], fc, dl, 0, -1)
  {
  }

  ghost function StaticLenAt(desc: TreeDesc): nat -> int {
    (s: nat) => desc.StaticLen(s)
  }

  /** At least two symbols; `forced` are those that were added, with frequency 1. */
  ghost predicate ForcedTwo(leaves: seq<nat>, forced: seq<nat>, f0: seq<nat>, fc: seq<nat>, desc: TreeDesc) {
    |fc| == |f0| && Distinct(forced) && (forced != [] ==> |leaves| <= 2)
    && (forall s :: s in forced ==> s < 3 && s < |f0| && s in leaves && f0[s] == 0 && fc[s] == 1)
    && (forall s: nat :: s < desc.elems && s < |f0| && s !in forced ==> fc[s] == f0[s])
  }

  /** The symbols in the heap, whatever their order. */
  ghost predicate Listed(leaves: seq<nat>, fc: seq<nat>, dl: seq<nat>, elems: nat, maxCode: int) {
    elems <= |fc| && elems <= |dl| && Distinct(leaves) && |leaves| <= elems && maxCode < elems && maxCode >= -1
    && (forall s :: s in leaves ==> s < elems && s <= maxCode)
    && (maxCode >= 0 ==> maxCode in leaves)
    && (forall s: nat :: s < elems ==> (s in leaves <==> fc[s] != 0))
    && (forall s: nat :: s < elems && s !in leaves ==> dl[s] == 0)
  }

  lemma FoundListed(leaves: seq<nat>, fc: seq<nat>, dl: seq<nat>, elems: nat, maxCode: int, desc: TreeDesc)
    requires Found(leaves, fc, dl, elems, maxCode)
    ensures Listed(leaves, fc, dl, elems, maxCode) && ForcedTwo(leaves, [], fc, fc, desc)
  {
    if leaves != [] {
      assert leaves[|leaves| - 1] in leaves;
    }
    forall s | s in leaves ensures s <= maxCode {
      var i :| 0 <= i < |leaves| && leaves[i] == s;
    }
  }

  lemma ForceStep(leaves: seq<nat>, forced: seq<nat>, f0: seq<nat>, fc: seq<nat>, dl: seq<nat>, desc: TreeDesc, maxCode: int,
                  n: nat)
    requires Listed(leaves, fc, dl, desc.elems, maxCode) && ForcedTwo(leaves, forced, f0, fc, desc)
    requires |leaves| < 2 && desc.elems >= 3 && n == (if maxCode < 2 then maxCode + 1 else 0)
    ensures n < 3 && n !in leaves && n !in forced
    ensures Listed(leaves + [n], fc[n := 1], dl, desc.elems, if maxCode < 2 then n else maxCode)
    ensures ForcedTwo(leaves + [n], forced + [n], f0, fc[n := 1], desc)
  {
    assert maxCode >= 2 ==> forall s :: s in leaves ==> s == leaves[0] == maxCode;
    var l, fc' := leaves + [n], fc[n := 1];
    forall s: nat | s < desc.elems ensures s in l <==> fc'[s] != 0 {
    }
  }

  /** Forces at least two symbols of non-zero frequency. */
  method ForceSymbols(heap: array<nat>, depth: array<nat>, fc: array<nat>, ghost dl: seq<nat>, counters: Counters,
                      desc: TreeDesc, len0: nat, maxCode0: int)
    returns (len: nat, maxCode: int, ghost forced: seq<nat>)
    requires heap != fc && heap != depth && fc != depth && desc.Valid()
    requires desc.elems <= fc.Length <= depth.Length && desc.elems < heap.Length && len0 < heap.Length
    requires Listed(Part(heap[..], len0), fc[..], dl, desc.elems, maxCode0)
    requires ForcedTwo(Part(heap[..], len0), [], fc[..], fc[..], desc) && Flat(Part(heap[..], len0), depth[..])
    modifies heap, depth, fc, counters
    ensures len < heap.Length && Flat(Part(heap[..], len), depth[..])
    ensures 2 <= len <= desc.elems && Listed(Part(heap[..], len), fc[..], dl, desc.elems, maxCode)
    ensures ForcedTwo(Part(heap[..], len), forced, old(fc[..]), fc[..], desc)
    ensures counters.optLen == U32(old(counters.optLen) - |forced|)
    ensures counters.staticLen == U32(old(counters.staticLen) - Sum(forced, StaticLenAt(desc)))
  {
    hide Listed, ForcedTwo, Part, Sum, Flat;
    len, maxCode, forced := len0, maxCode0, [];
    ghost var opt0, stat0 := counters.optLen, counters.staticLen;
    NothingForced(desc, opt0, stat0);
    ListedSize(heap[..], len0, fc[..], dl, desc.elems, maxCode0);
    while len < 2
      invariant len <= desc.elems && -1 <= maxCode < desc.elems && Listed(Part(heap[..], len), fc[..], dl, desc.elems, maxCode)
      invariant ForcedTwo(Part(heap[..], len), forced, old(fc[..]), fc[..], desc) && Flat(Part(heap[..], len), depth[..])
      invariant counters.optLen == U32(opt0 - |forced|)
      invariant counters.staticLen == U32(stat0 - Sum(forced, StaticLenAt(desc)))
    {
      ghost var h, fcs, dps := heap[..], fc[..], depth[..];
      var n: nat := if maxCode < 2 then maxCode + 1 else 0;
      PartSize(h, len);
      ForceStep(Part(h, len), forced, old(fc[..]), fcs, dl, desc, maxCode, n);
      maxCode := if maxCode < 2 then n else maxCode;
      len := len + 1;
      heap[len] := n;
      PartSnoc(h, len - 1, n);
      fc[n] := 1;
      depth[n] := 0;
      assert fc[..] == fcs[n := 1] && heap[..] == h[len := n] && depth[..] == dps[n := 0];
      FlatMore(Part(h, len - 1), dps, n);
      SumSnoc(forced, n, StaticLenAt(desc));
      U32Add(opt0 - |forced|, -1);
      U32Add(stat0 - Sum(forced, StaticLenAt(desc)), -(desc.StaticLen(n) as int));
      counters.optLen := U32(counters.optLen - 1);
      if desc.hasStatic {
        counters.staticLen := U32(counters.staticLen - desc.StaticLen(n));
      }
      forced := forced + [n];
      ListedSize(heap[..], len, fc[..], dl, desc.elems, maxCode);
    }
  }

  lemma NothingForced(desc: TreeDesc, opt: Word, stat: Word)
    ensures Sum([], StaticLenAt(desc)) == 0 && U32(opt) == opt && U32(stat) == stat
  {
  }

  lemma PartSize(h: seq<nat>, len: nat)
    requires len < |h|
    ensures |Part(h, len)| == len
  {
  }

  lemma PartSnoc(h: seq<nat>, len: nat, x: nat)
    requires len + 1 < |h|
    ensures Part(h[len + 1 := x], len + 1) == Part(h, len) + [x]
  {
  }

  lemma ListedSize(h: seq<nat>, len: nat, fc: seq<nat>, dl: seq<nat>, elems: nat, maxCode: int)
    requires len < |h| && Listed(Part(h, len), fc, dl, elems, maxCode)
    ensures len <= elems && -1 <= maxCode < elems
  {
  }

  /** Sub-heaps of increasing size. */
  method Heapify(heap: array<nat>, len: nat, fc: array<nat>, depth: array<nat>)
    requires heap != fc && heap != depth && 2 <= len < heap.Length && fc.Length <= depth.Length
    requires forall j :: 1 <= j <= len ==> heap[j] < fc.Length
    modifies heap
    ensures Ordered(heap[..], len, 1, fc[..], depth[..])
    ensures multiset(Part(heap[..], len)) == multiset(Part(old(heap[..]), len))
  {
    hide Part;
    var n: int := len / 2;
    while n >= 1
      invariant 0 <= n <= len / 2 && Ordered(heap[..], len, n + 1, fc[..], depth[..])
      invariant multiset(Part(heap[..], len)) == multiset(Part(old(heap[..]), len))
    {
      hide Ordered;
      PqDownHeap(heap, len, fc, depth, n);
      n := n - 1;
    }
  }

  // ----- accounting for the forced symbols

  /** A complete code with two symbols gives each of them one bit. */
  lemma TwoLens(a: nat, b: nat, L: nat)
    requires 1 <= a <= L && 1 <= b <= L && Pow2(L - a) + Pow2(L - b) == Pow2(L)
    ensures a == 1 && b == 1
  {
    Pow2Mono(L - a, L - 1);
    Pow2Mono(L - b, L - 1);
  }

  /** What the leaves' Kraft sum is, once the code is complete. */
  lemma LeavesKraft(leaves: seq<nat>, fc: seq<nat>, dl: seq<nat>, desc: TreeDesc, maxCode: nat, c: seq<nat>)
    requires LensReady(leaves, fc, dl, desc, maxCode, c)
    ensures Sum(leaves, KraftAt(dl, desc.maxLength, desc.elems)) == Pow2(desc.maxLength)
  {
    hide Kraft, Pow2, CountsMatch;
    var L := desc.maxLength;
    LeavesSum(leaves, fc, dl, desc.elems, maxCode, maxCode + 1, KraftAt(dl, L, desc.elems));
    KraftIsSum(dl, desc.elems, L, maxCode + 1);
  }

  lemma ForcedOneBit(leaves: seq<nat>, forced: seq<nat>, f0: seq<nat>, fc: seq<nat>, dl: seq<nat>, desc: TreeDesc,
                     maxCode: nat, c: seq<nat>)
    requires LensReady(leaves, fc, dl, desc, maxCode, c) && ForcedTwo(leaves, forced, f0, fc, desc) && |leaves| >= 2
    ensures forall s :: s in forced ==> s < |dl| && dl[s] == 1
  {
    LeavesKraft(leaves, fc, dl, desc, maxCode, c);
    if forced != [] {
      var a, b := leaves[0], leaves[1];
      assert a in leaves && b in leaves;
      hide Pow2, Complete, CountsMatch;
      assert leaves == [a] + [b];
      SumConcat([a], [b], KraftAt(dl, desc.maxLength, desc.elems));
      SumOne(a, KraftAt(dl, desc.maxLength, desc.elems));
      SumOne(b, KraftAt(dl, desc.maxLength, desc.elems));
      TwoLens(dl[a], dl[b], desc.maxLength);
    }
  }

  ghost function InAt(s: seq<nat>, f: nat -> int): nat -> int {
    (x: nat) => if x in s then f(x) else 0
  }

  /** A forced symbol costs one bit more than its count of zero does, any other symbol the same. */
  lemma ForcedAt(leaves: seq<nat>, forced: seq<nat>, f0: seq<nat>, fc: seq<nat>, dl: seq<nat>, desc: TreeDesc, s: nat)
    requires ForcedTwo(leaves, forced, f0, fc, desc) && desc.Valid() && s < desc.elems && desc.elems <= |dl| && desc.elems <= |fc|
    requires s in forced ==> dl[s] == 1
    ensures CostAt(fc, dl, desc)(s) == CostAt(f0, dl, desc)(s) + (if s in forced then 1 else 0)
  {
    if s in forced {
      assert desc.Extra(s) == 0;
    }
  }

  /** The added symbols cost what was taken off beforehand: together the counters
      hold the cost of the symbols that really occur. */
  lemma ForcedCost(leaves: seq<nat>, forced: seq<nat>, f0: seq<nat>, fc: seq<nat>, dl: seq<nat>, desc: TreeDesc,
                   maxCode: nat, c: seq<nat>)
    requires LensReady(leaves, fc, dl, desc, maxCode, c) && ForcedTwo(leaves, forced, f0, fc, desc) && |leaves| >= 2
    requires desc.Valid()
    ensures Sum(leaves, CostAt(fc, dl, desc)) - |forced| == Sum(Range(0, desc.elems), CostAt(f0, dl, desc))
  {
    ForcedOneBit(leaves, forced, f0, fc, dl, desc, maxCode, c);
    var elems, one := desc.elems, InAt(forced, (x: nat) => 1);
    hide Complete, CountsMatch, Pow2, CostAt, Sum, Range, TreeDesc.Extra;
    LeavesSum(leaves, fc, dl, elems, maxCode, elems, CostAt(fc, dl, desc));
    RangeMembers(0, elems);
    RangeDistinct(0, elems);
    forall s | s in Range(0, elems) ensures CostAt(fc, dl, desc)(s) == CostAt(f0, dl, desc)(s) + one(s) {
      ForcedAt(leaves, forced, f0, fc, dl, desc, s);
    }
    SumPlus(Range(0, elems), CostAt(f0, dl, desc), one, CostAt(fc, dl, desc));
    SumSupport(forced, Range(0, elems), one);
    SumOfOnes(forced, one);
  }

  lemma ForcedStaticCost(leaves: seq<nat>, forced: seq<nat>, f0: seq<nat>, fc: seq<nat>, dl: seq<nat>, desc: TreeDesc,
                         maxCode: nat, c: seq<nat>)
    requires LensReady(leaves, fc, dl, desc, maxCode, c) && ForcedTwo(leaves, forced, f0, fc, desc) && desc.Valid()
    ensures Sum(leaves, StaticCostAt(fc, desc)) - Sum(forced, StaticLenAt(desc))
         == Sum(Range(0, desc.elems), StaticCostAt(f0, desc))
  {
    var elems, part := desc.elems, InAt(forced, StaticLenAt(desc));
    hide Complete, CountsMatch, Pow2, Sum, Range;
    LeavesSum(leaves, fc, dl, elems, maxCode, elems, StaticCostAt(fc, desc));
    RangeMembers(0, elems);
    RangeDistinct(0, elems);
    StaticParts(leaves, forced, f0, fc, desc);
    SumPlus(Range(0, elems), StaticCostAt(f0, desc), part, StaticCostAt(fc, desc));
    SumSupport(forced, Range(0, elems), part);
    SumCong(forced, part, StaticLenAt(desc));
  }

  lemma StaticParts(leaves: seq<nat>, forced: seq<nat>, f0: seq<nat>, fc: seq<nat>, desc: TreeDesc)
    requires ForcedTwo(leaves, forced, f0, fc, desc) && desc.Valid()
    ensures forall s: nat :: s < desc.elems ==>
              StaticCostAt(fc, desc)(s) == StaticCostAt(f0, desc)(s) + InAt(forced, StaticLenAt(desc))(s)
  {
    forall s: nat | s < desc.elems
      ensures StaticCostAt(fc, desc)(s) == StaticCostAt(f0, desc)(s) + InAt(forced, StaticLenAt(desc))(s)
    {
      if s in forced {
        assert desc.Extra(s) == 0;
      }
    }
  }

  // ----- the tree is optimal

  ghost function LenCostAt(fc: seq<nat>, len: seq<nat>, elems: nat): nat -> int {
    (x: nat) => if x < elems && x < |fc| && x < |len| then fc[x] * len[x] else 0
  }

  ghost function InnerAt(fc: seq<nat>, elems: nat): nat -> int {
    (x: nat) => if elems <= x < |fc| then fc[x] else 0
  }

  ghost predicate Heavy(t: Tree, fc: seq<nat>) {
    t.id < |fc|
    && (t.Node? ==> t.left.id < |fc| && t.right.id < |fc| && fc[t.id] == fc[t.left.id] + fc[t.right.id]
                    && Heavy(t.left, fc) && Heavy(t.right, fc))
  }

  lemma {:induction false} TreeHeavy(s: State, elems: nat, p: nat)
    requires s.max <= |s.heap| && s.Weighed(elems) && p < |s.tr| && Trees(s.Order(), s.dl, s.tr, elems)
    ensures Heavy(s.tr[p], s.fc)
    decreases p
  {
    assert WellNumbered(s.tr[p], elems);
    assert s.tr[p].id == p;
    if s.tr[p].Node? {
      assert Joined(p, s.Order(), s.dl, s.tr);
      TreeHeavy(s, elems, s.tr[p].left.id);
      TreeHeavy(s, elems, s.tr[p].right.id);
    }
  }

  /** Frequency times depth, summed over the leaves, is the weight of all inner nodes. */
  lemma {:induction false} TreeCost(t: Tree, d: nat, fc: seq<nat>, len: seq<nat>, L: nat, elems: nat)
    requires WellNumbered(t, elems) && Depths(t, d, len, L) && Heavy(t, fc) && d + Height(t) <= L
    ensures Sum(Nodes(t), LenCostAt(fc, len, elems)) == fc[t.id] * d + Sum(Nodes(t), InnerAt(fc, elems))
    decreases t
  {
    var f, g := LenCostAt(fc, len, elems), InnerAt(fc, elems);
    if t.Leaf? {
      SumOne(t.id, f);
      SumOne(t.id, g);
    } else {
      TreeCost(t.left, d + 1, fc, len, L, elems);
      TreeCost(t.right, d + 1, fc, len, L, elems);
      SumNode(t, f);
      SumNode(t, g);
      NodeCost(fc[t.left.id], fc[t.right.id], d);
      assert f(t.id) == 0 && g(t.id) == fc[t.id];
    }
  }

  lemma NodeCost(a: nat, b: nat, d: nat)
    ensures a * (d + 1) + b * (d + 1) == (a + b) * d + (a + b)
  {
  }

  /** Without overflow, no prefix code at all is shorter in total. */
  lemma HuffmanIsOptimal(s: State, leaves: seq<nat>, elems: nat, maxCode: nat, total: nat, acc: int,
                         len: seq<nat>, L: nat)
    requires s.Inv(leaves, elems, maxCode, total, acc) && s.len == 1 && |leaves| >= 2
    requires s.heap[1] < |s.tr| && Height(s.tr[s.heap[1]]) <= L && Depths(s.tr[s.heap[1]], 0, len, L)
    ensures AtLeast(Weights(leaves, s.fc), Sum(leaves, LenCostAt(s.fc, len, elems)))
  {
    hide Reduces, Weights, Symbols, Sum, Range, FreqAt, Height, Depths, AtLeast, Built;
    LoopDone(s, leaves, elems, maxCode, total, acc);
    var root, t, full := s.heap[1], s.tr[s.heap[1]], [s.heap[1]] + s.Order();
    InvParts(s, leaves, elems, maxCode, total, acc);
    TreeHeavy(s, elems, root);
    assert WellNumbered(t, elems) && t.id == root;
    hide State.Inv, Trees, Heavy, WellNumbered;
    TreeCost(t, 0, s.fc, len, L, elems);
    BuiltParts(full, s.dl, t, leaves, elems);
    var f, g := LenCostAt(s.fc, len, elems), InnerAt(s.fc, elems);
    SumPerm(full, Nodes(t), f);
    SumPerm(full, Nodes(t), g);
    BuiltSum(full, s.dl, t, leaves, elems, f);
    InnerSum(full, s.dl, t, leaves, elems, s.fc);
  }

  /** A tree over exactly these symbols whose depths are the best lengths there are. */
  ghost predicate BestTree(t: Tree, leaves: seq<nat>, fc: seq<nat>, elems: nat) {
    elems <= t.id && WellNumbered(t, elems) && multiset(Nodes(t)) == multiset(leaves) + multiset(Range(elems, t.id + 1))
    && exists len: seq<nat> :: BestLens(t, leaves, fc, elems, len)
  }

  ghost predicate BestLens(t: Tree, leaves: seq<nat>, fc: seq<nat>, elems: nat, len: seq<nat>) {
    Depths(t, 0, len, Height(t)) && AtLeast(Weights(leaves, fc), Sum(leaves, LenCostAt(fc, len, elems)))
  }

  /** Whatever its height, the tree is the best one. */
  lemma TreeIsBest(s: State, leaves: seq<nat>, elems: nat, maxCode: nat, total: nat, acc: int)
    requires s.Inv(leaves, elems, maxCode, total, acc) && s.len == 1 && |leaves| >= 2 && s.heap[1] < |s.tr|
    ensures BestTree(s.tr[s.heap[1]], leaves, s.fc, elems)
  {
    hide *;
    LoopDone(s, leaves, elems, maxCode, total, acc);
    var full, t := [s.heap[1]] + s.Order(), s.tr[s.heap[1]];
    BuiltTopDown(full, s.dl, t, leaves, elems);
    var len := MakeLens(full, |full|, s.dl, Height(t));
    LensAll(full, s.dl, len, Height(t));
    BuiltDepths(full, s.dl, t, leaves, elems, len, Height(t));
    HuffmanIsOptimal(s, leaves, elems, maxCode, total, acc, len, Height(t));
    BestFrom(full, s.dl, t, leaves, s.fc, elems, len);
  }

  lemma BuiltShape(full: seq<nat>, dad: seq<nat>, t: Tree, leaves: seq<nat>, elems: nat)
    requires Built(full, dad, t, leaves, elems)
    ensures elems <= t.id && WellNumbered(t, elems) && multiset(Nodes(t)) == multiset(leaves) + multiset(Range(elems, t.id + 1))
  {
    hide WellNumbered, Fathered, Nodes, Range, Distinct;
  }

  lemma BestWith(t: Tree, leaves: seq<nat>, fc: seq<nat>, elems: nat, len: seq<nat>)
    requires elems <= t.id && WellNumbered(t, elems) && multiset(Nodes(t)) == multiset(leaves) + multiset(Range(elems, t.id + 1))
    requires Depths(t, 0, len, Height(t)) && AtLeast(Weights(leaves, fc), Sum(leaves, LenCostAt(fc, len, elems)))
    ensures BestTree(t, leaves, fc, elems)
  {
    hide WellNumbered, Depths, AtLeast, Height, Weights, Sum, Nodes, Range;
    assert BestLens(t, leaves, fc, elems, len);
  }

  lemma BestFrom(full: seq<nat>, dad: seq<nat>, t: Tree, leaves: seq<nat>, fc: seq<nat>, elems: nat, len: seq<nat>)
    requires Built(full, dad, t, leaves, elems) && Depths(t, 0, len, Height(t))
    requires AtLeast(Weights(leaves, fc), Sum(leaves, LenCostAt(fc, len, elems)))
    ensures BestTree(t, leaves, fc, elems)
  {
    BuiltShape(full, dad, t, leaves, elems);
    hide *;
    BestWith(t, leaves, fc, elems, len);
  }

  lemma BuiltParts(full: seq<nat>, dad: seq<nat>, t: Tree, leaves: seq<nat>, elems: nat)
    requires Built(full, dad, t, leaves, elems)
    ensures multiset(full) == multiset(Nodes(t))
  {
  }

  lemma InnerSum(full: seq<nat>, dad: seq<nat>, t: Tree, leaves: seq<nat>, elems: nat, fc: seq<nat>)
    requires Built(full, dad, t, leaves, elems) && t.id < |fc|
    ensures Sum(full, InnerAt(fc, elems)) == Sum(Range(elems, t.id + 1), FreqAt(fc))
  {
    hide Fathered, WellNumbered, Nodes;
    var inner := Range(elems, t.id + 1);
    assert multiset(leaves + inner) == multiset(leaves) + multiset(inner);
    SumPerm(full, leaves + inner, InnerAt(fc, elems));
    SumConcat(leaves, inner, InnerAt(fc, elems));
    SumZero(leaves, InnerAt(fc, elems));
    RangeMembers(elems, t.id + 1);
    SumCong(inner, InnerAt(fc, elems), FreqAt(fc));
  }

  /** Adding at most two symbols adds at most two to the total frequency. */
  lemma ForcedTotal(leaves: seq<nat>, forced: seq<nat>, f0: seq<nat>, fc: seq<nat>, dl: seq<nat>, desc: TreeDesc, maxCode: nat)
    requires Symbols(leaves, fc, dl, desc.elems, maxCode) && ForcedTwo(leaves, forced, f0, fc, desc)
    ensures 0 <= Sum(leaves, FreqAt(fc)) <= Sum(Range(0, desc.elems), FreqAt(f0)) + 2
  {
    var elems, one := desc.elems, InAt(forced, (x: nat) => 1);
    SumNonNegative(leaves, FreqAt(fc));
    LeavesSum(leaves, fc, dl, elems, maxCode, elems, FreqAt(fc));
    RangeMembers(0, elems);
    RangeDistinct(0, elems);
    SumPlus(Range(0, elems), FreqAt(f0), one, FreqAt(fc));
    SumSupport(forced, Range(0, elems), one);
    SumOfOnes(forced, one);
    DistinctSubset(forced, leaves);
  }

  lemma {:induction false} DistinctSubset(a: seq<nat>, b: seq<nat>)
    requires Distinct(a) && Distinct(b) && forall x :: x in a ==> x in b
    ensures |a| <= |b|
  {
    var f, g := InAt(a, (x: nat) => 1), (x: nat) => 1;
    SumSupport(a, b, f);
    SumOfOnes(a, f);
    SumOfOnes(b, g);
    SumLess(b, f, g);
  }

  lemma {:induction false} SumLess(s: seq<nat>, f: nat -> int, g: nat -> int)
    requires forall x :: x in s ==> f(x) <= g(x)
    ensures Sum(s, f) <= Sum(s, g)
  {
    if s != [] {
      SumLess(s[1..], f, g);
    }
  }

  lemma ListedSymbols(leaves: seq<nat>, fc: seq<nat>, dl: seq<nat>, elems: nat, maxCode: int)
    requires Listed(leaves, fc, dl, elems, maxCode) && leaves != []
    ensures 0 <= maxCode < elems && Symbols(leaves, fc, dl, elems, maxCode) && maxCode in leaves
  {
    assert leaves[0] in leaves;
  }

  /** Everything build_tree promises about one tree, `f0` being the frequencies it
      was given and `freq` those with the forced symbols. */
  ghost predicate TreeBuilt(f0: seq<nat>, freq: seq<nat>, leaves: seq<nat>, codes: seq<nat>, dl: seq<nat>, c: seq<nat>,
                            desc: TreeDesc, maxCode: nat)
  {
    LensReady(leaves, freq, dl, desc, maxCode, c)
    && Coded(codes, dl[..maxCode + 1])
    && |leaves| >= 2 && maxCode in leaves
    && |f0| == |freq| && (forall s: nat :: s < desc.elems && s < |f0| && f0[s] != 0 ==> s in leaves)
    && Forced(f0, freq, leaves, desc.elems)
  }

  /** The frequencies with the forced symbols: nothing is changed unless fewer than two
      symbols were in use, and then a symbol that is added counts once. */
  ghost predicate Forced(f0: seq<nat>, freq: seq<nat>, leaves: seq<nat>, elems: nat) {
    |f0| == |freq|
    && (forall s: nat :: s < elems && s < |f0| ==> freq[s] == if f0[s] != 0 then f0[s] else if s in leaves then 1 else 0)
    && (|leaves| > 2 ==> forall s: nat :: s in leaves && s < |f0| ==> f0[s] != 0)
  }

  lemma TreeBuiltFrom(f0: seq<nat>, freq: seq<nat>, leaves: seq<nat>, forced: seq<nat>, was: seq<nat>, codes: seq<nat>,
                      dl: seq<nat>, c: seq<nat>, desc: TreeDesc, maxCode: nat)
    requires LensReady(leaves, freq, dl, desc, maxCode, c) && ForcedTwo(leaves, forced, f0, freq, desc)
    requires Fits(dl[..maxCode + 1], MAX_BITS) && CodedUpTo(was, codes, dl[..maxCode + 1], maxCode + 1)
    requires |leaves| >= 2 && maxCode in leaves
    ensures TreeBuilt(f0, freq, leaves, codes, dl, c, desc, maxCode)
  {
    hide Complete, CountsMatch, CodedUpTo, Fits;
    assert |dl[..maxCode + 1]| == maxCode + 1;
    CodedDone(was, codes, dl[..maxCode + 1]);
  }

  /** The first half of build_tree: the heap of the symbols, forced ones included. */
  method ListSymbols(heap: array<nat>, depth: array<nat>, fc: array<nat>, dl: array<nat>, counters: Counters, desc: TreeDesc)
    returns (len: nat, maxCode: nat, ghost leaves: seq<nat>, ghost forced: seq<nat>, ghost total: nat)
    requires heap != fc && heap != depth && heap != dl && fc != depth && fc != dl && depth != dl
    requires desc.Valid() && heap.Length == HEAP_SIZE && depth.Length == HEAP_SIZE && fc.Length == dl.Length == 2 * desc.elems + 1
    requires Sum(Range(0, desc.elems), FreqAt(fc[..])) + 2 < 0x1_0000
    modifies heap, depth, fc, dl, counters
    ensures len >= 2 && |leaves| >= 2 && maxCode in leaves && maxCode < desc.elems && total < 0x1_0000
    ensures ForcedTwo(leaves, forced, old(fc[..]), fc[..], desc)
    ensures counters.optLen == U32(old(counters.optLen) - |forced|)
    ensures counters.staticLen == U32(old(counters.staticLen) - Sum(forced, StaticLenAt(desc)))
    ensures State(heap[..], len, heap.Length, fc[..], dl[..], depth[..], Saplings(desc.elems)).Inv(leaves, desc.elems, maxCode, total, 0)
    ensures Deep(depth[..], Saplings(desc.elems), leaves, desc.elems)
  {
    hide *;
    HeapSizes(desc);
    var code;
    len, code := InitHeap(heap, depth, fc, dl, desc.elems);
    FoundListed(Part(heap[..], len), fc[..], dl[..], desc.elems, code, desc);
    len, code, forced := ForceSymbols(heap, depth, fc, dl[..], counters, desc, len, code);
    leaves := Part(heap[..], len);
    ghost var freq := fc[..];
    PartSize(heap[..], len);
    ListedSymbols(leaves, freq, dl[..], desc.elems, code);
    maxCode := code;
    ForcedTotal(leaves, forced, old(fc[..]), freq, dl[..], desc, maxCode);
    total := Sum(leaves, FreqAt(freq));
    SymbolsInHeap(heap[..], len, freq, dl[..], desc.elems, maxCode);
    Heapify(heap, len, fc, depth);
    ghost var s0 := State(heap[..], len, heap.Length, fc[..], dl[..], depth[..], Saplings(desc.elems));
    StartSized(s0, leaves, desc.elems);
    StartInv(s0, leaves, desc.elems, maxCode, total);
    StartDeep(leaves, depth[..], desc.elems);
  }

  lemma StartDeep(leaves: seq<nat>, depth: seq<nat>, elems: nat)
    requires Flat(leaves, depth) && elems <= |depth|
    ensures Deep(depth, Saplings(elems), leaves, elems)
  {
  }

  /** build_tree, up to the call of gen_bitlen: the tree in the arrays. */
  method GrowTree(heap: array<nat>, depth: array<nat>, fc: array<nat>, dl: array<nat>, counters: Counters, desc: TreeDesc)
    returns (maxCode: nat, max: nat, ghost leaves: seq<nat>, ghost forced: seq<nat>, ghost t: Tree,
             ghost s: State, ghost total: nat, ghost acc: int)
    requires heap != fc && heap != depth && heap != dl && fc != depth && fc != dl && depth != dl
    requires desc.Valid() && heap.Length == HEAP_SIZE && depth.Length == HEAP_SIZE && fc.Length == dl.Length == 2 * desc.elems + 1
    requires Sum(Range(0, desc.elems), FreqAt(fc[..])) + 2 < 0x1_0000
    modifies heap, depth, fc, dl, counters
    ensures max < HEAP_SIZE && Built(heap[max..], dl[..], t, leaves, desc.elems)
    ensures Symbols(leaves, fc[..], dl[..], desc.elems, maxCode) && maxCode in leaves && |leaves| >= 2
    ensures maxCode < desc.elems && ForcedTwo(leaves, forced, old(fc[..]), fc[..], desc)
    ensures counters.optLen == U32(old(counters.optLen) - |forced|)
    ensures counters.staticLen == U32(old(counters.staticLen) - Sum(forced, StaticLenAt(desc)))
    ensures s.Inv(leaves, desc.elems, maxCode, total, acc) && s.len == 1 && s.fc == fc[..]
    ensures s.heap[1] < |s.tr| && s.tr[s.heap[1]] == t
  {
    hide *;
    HeapSizes(desc);
    var len;
    len, maxCode, leaves, forced, total := ListSymbols(heap, depth, fc, dl, counters, desc);
    ghost var freq := fc[..];
    ghost var tr;
    len, max, tr, acc := CombineAll(heap, len, fc, depth, dl, desc.elems, leaves, maxCode, total);
    s := State(heap[..], 1, max, fc[..], dl[..], depth[..], tr);
    LoopDone(s, leaves, desc.elems, maxCode, total, acc);
    ForcedKept(leaves, forced, old(fc[..]), freq, fc[..], desc);
    t := tr[heap[1]];
    max := max - 1;
    heap[max] := heap[1];
    assert heap[max..] == [s.heap[1]] + s.heap[max + 1..];
    OrderIs(s);
  }

  lemma ForcedKept(leaves: seq<nat>, forced: seq<nat>, f0: seq<nat>, fc: seq<nat>, fc': seq<nat>, desc: TreeDesc)
    requires ForcedTwo(leaves, forced, f0, fc, desc) && |fc'| == |fc| && desc.Valid()
    requires forall x: nat :: x < desc.elems && x < |fc| ==> fc'[x] == fc[x]
    ensures ForcedTwo(leaves, forced, f0, fc', desc)
  {
  }

  lemma HeapSizes(desc: TreeDesc)
    requires desc.Valid()
    ensures 3 <= desc.elems <= 286 && 2 * desc.elems < HEAP_SIZE == 573 && 1 <= desc.maxLength <= MAX_BITS == 15
  {
  }

  lemma OrderIs(s: State)
    requires s.max <= |s.heap|
    ensures s.Order() == s.heap[s.max..]
  {
  }

  lemma SymbolsInHeap(h: seq<nat>, len: nat, fc: seq<nat>, dl: seq<nat>, elems: nat, maxCode: nat)
    requires len < |h| && Symbols(Part(h, len), fc, dl, elems, maxCode)
    ensures elems <= |fc| && elems <= |dl| && len <= elems && forall j :: 1 <= j <= len ==> h[j] < elems
  {
    forall j | 1 <= j <= len ensures h[j] < elems {
      assert Part(h, len)[j - 1] == h[j];
      assert h[j] in Part(h, len);
    }
  }

  lemma StartSized(s: State, leaves: seq<nat>, elems: nat)
    requires |s.tr| == elems && s.len == |leaves| && 2 <= s.len <= elems && s.max == |s.heap| && 2 * elems < |s.heap|
    requires 2 * elems <= |s.fc| == |s.dl| <= |s.depth|
    ensures s.Sized(leaves, elems)
    ensures s.Roots() == Part(s.heap, s.len)
  {
  }

  /** build_tree */
  method BuildTree(heap: array<nat>, depth: array<nat>, blCount: array<nat>, fc: array<nat>, dl: array<nat>,
                   counters: Counters, desc: TreeDesc)
    returns (maxCode: nat, ghost leaves: seq<nat>, ghost freq: seq<nat>, ghost t: Tree)
    requires heap != fc && heap != depth && heap != dl && fc != depth && fc != dl && depth != dl
    requires blCount != heap && blCount != depth && blCount != fc && blCount != dl && blCount.Length == MAX_BITS + 1
    requires desc.Valid() && heap.Length == HEAP_SIZE && depth.Length == HEAP_SIZE && fc.Length == dl.Length == 2 * desc.elems + 1
    requires Sum(Range(0, desc.elems), FreqAt(fc[..])) + 2 < 0x1_0000
    modifies heap, depth, blCount, fc, dl, counters
    ensures TreeBuilt(old(fc[..]), freq, leaves, fc[..], dl[..], blCount[..], desc, maxCode)
    ensures counters.optLen
         == U32(old(counters.optLen) + Sum(Range(0, desc.elems), CostAt(old(fc[..]), dl[..], desc)))
    ensures counters.staticLen
         == U32(old(counters.staticLen) + Sum(Range(0, desc.elems), StaticCostAt(old(fc[..]), desc)))
    ensures BestTree(t, leaves, freq, desc.elems)
    ensures Height(t) <= desc.maxLength ==>
              Depths(t, 0, dl[..], desc.maxLength)
              && AtLeast(Weights(leaves, freq), Sum(leaves, LenCostAt(freq, dl[..], desc.elems)))
    ensures (forall n :: 0 <= n < desc.elems ==> dl[n] < desc.maxLength) ==> Height(t) <= desc.maxLength
  {
    hide *;
    ghost var f0, opt0, stat0 := fc[..], counters.optLen, counters.staticLen;
    var max;
    ghost var forced, s, total, acc;
    maxCode, max, leaves, forced, t, s, total, acc := GrowTree(heap, depth, fc, dl, counters, desc);
    freq := fc[..];
    GenBitlen(heap, max, fc, dl, blCount, counters, desc, maxCode, heap[max..], t, leaves);
    FinishCosts(f0, freq, forced, leaves, dl[..], desc, maxCode, blCount[..], opt0, stat0);
    TreeIsBest(s, leaves, desc.elems, maxCode, total, acc);
    HeapSizes(desc);
    if Height(t) > desc.maxLength {
      LimitReached(leaves, freq, dl[..], desc, maxCode, blCount[..]);
    } else {
      HuffmanIsOptimal(s, leaves, desc.elems, maxCode, total, acc, dl[..], desc.maxLength);
    }
    ReadyCodes(leaves, freq, dl[..], desc, maxCode, blCount[..]);
    GenCodes(fc, dl, maxCode, blCount);
    TreeBuiltFrom(f0, freq, leaves, forced, freq, fc[..], dl[..], blCount[..], desc, maxCode);
  }

  /** If some symbol has a length of `b` by the counts, some symbol has it in the table. */
  lemma {:induction false} CountFinds(lens: seq<nat>, b: nat)
    requires Count(lens, b) > 0
    ensures exists n :: 0 <= n < |lens| && lens[n] == b
    decreases |lens|
  {
    var n := |lens| - 1;
    if lens[n] != b {
      CountFinds(lens[..n], b);
    }
  }

  lemma LimitReached(leaves: seq<nat>, fc: seq<nat>, dl: seq<nat>, desc: TreeDesc, maxCode: nat, c: seq<nat>)
    requires LensReady(leaves, fc, dl, desc, maxCode, c) && desc.Valid() && c[desc.maxLength] > 0
    ensures exists n :: 0 <= n < desc.elems && dl[n] == desc.maxLength
  {
    hide Complete, Count;
    CountFinds(dl[..maxCode + 1], desc.maxLength);
  }

  lemma ReadyCodes(leaves: seq<nat>, fc: seq<nat>, dl: seq<nat>, desc: TreeDesc, maxCode: nat, c: seq<nat>)
    requires LensReady(leaves, fc, dl, desc, maxCode, c) && desc.Valid()
    ensures Fits(dl[..maxCode + 1], MAX_BITS) && CountsMatch(c, dl[..maxCode + 1])
  {
    hide Complete, CountsMatch, Pow2;
    CompleteFits(dl[..maxCode + 1], desc.maxLength, MAX_BITS);
  }

  /** Taking off in advance and paying later, modulo 2^32. */
  lemma Settle(start: int, off: int, paid: int, due: int)
    requires paid - off == due
    ensures U32(U32(start - off) + paid) == U32(start + due)
  {
    U32Add(start - off, paid);
    assert start - off + paid == start + due;
  }

  lemma FinishCosts(f0: seq<nat>, freq: seq<nat>, forced: seq<nat>, leaves: seq<nat>,
                    dl: seq<nat>, desc: TreeDesc, maxCode: nat, c: seq<nat>, opt0: Word, stat0: Word)
    requires LensReady(leaves, freq, dl, desc, maxCode, c) && ForcedTwo(leaves, forced, f0, freq, desc) && |leaves| >= 2
    requires desc.Valid()
    ensures U32(U32(opt0 - |forced|) + Sum(leaves, CostAt(freq, dl, desc)))
         == U32(opt0 + Sum(Range(0, desc.elems), CostAt(f0, dl, desc)))
    ensures U32(U32(stat0 - Sum(forced, StaticLenAt(desc))) + Sum(leaves, StaticCostAt(freq, desc)))
         == U32(stat0 + Sum(Range(0, desc.elems), StaticCostAt(f0, desc)))
  {
    hide *;
    ForcedCost(leaves, forced, f0, freq, dl, desc, maxCode, c);
    ForcedStaticCost(leaves, forced, f0, freq, dl, desc, maxCode, c);
    var a, b := Sum(leaves, CostAt(freq, dl, desc)), Sum(Range(0, desc.elems), CostAt(f0, dl, desc));
    Settle(opt0, |forced|, a, b);
    var u, v := Sum(leaves, StaticCostAt(freq, desc)), Sum(Range(0, desc.elems), StaticCostAt(f0, desc));
    Settle(stat0, Sum(forced, StaticLenAt(desc)), u, v);
  }
}
