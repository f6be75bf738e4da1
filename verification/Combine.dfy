/** The combining loop of build_tree. */
module Combining {
  import opened Bits
  import opened Sums
  import opened Forests
  import opened Heaps
  import opened BitLengths
  import opened Optimality

  ghost function FreqAt(fc: seq<nat>): nat -> int {
    (x: nat) => if x < |fc| then fc[x] else 0
  }

  /** The frequencies of a list of nodes. */
  ghost function Weights(s: seq<nat>, fc: seq<nat>): (w: seq<nat>)
    ensures |w| == |s|
  {
    if s == [] then [] else [if s[0] < |fc| then fc[s[0]] else 0] + Weights(s[1..], fc)
  }

  lemma WeightsFirst(s: seq<nat>, fc: seq<nat>)
    requires s != []
    ensures Weights(s, fc) == [if s[0] < |fc| then fc[s[0]] else 0] + Weights(s[1..], fc)
  {
  }

  lemma {:induction false} WeightsConcat(a: seq<nat>, b: seq<nat>, fc: seq<nat>)
    ensures Weights(a + b, fc) == Weights(a, fc) + Weights(b, fc)
  {
    if a == [] {
      assert a + b == b;
      assert [] + Weights(b, fc) == Weights(b, fc);
    } else {
      assert (a + b)[1..] == a[1..] + b && (a + b)[0] == a[0];
      WeightsFirst(a, fc);
      WeightsFirst(a + b, fc);
      hide Weights;
      WeightsConcat(a[1..], b, fc);
      Assoc([if a[0] < |fc| then fc[a[0]] else 0], Weights(a[1..], fc), Weights(b, fc));
    }
  }

  lemma {:induction false} WeightsPerm(a: seq<nat>, b: seq<nat>, fc: seq<nat>)
    requires multiset(a) == multiset(b)
    ensures multiset(Weights(a, fc)) == multiset(Weights(b, fc))
    decreases |a|
  {
    if a == [] {
      assert |multiset(b)| == 0;
    } else {
      assert a[0] in multiset(b);
      var i :| 0 <= i < |b| && b[i] == a[0];
      PermDrop(a, b, i);
      WeightsPerm(a[1..], b[..i] + b[i + 1..], fc);
      WeightsDrop(b, i, fc);
      assert Weights(a, fc) == [Weights([a[0]], fc)[0]] + Weights(a[1..], fc);
    }
  }

  lemma WeightsDrop(b: seq<nat>, i: nat, fc: seq<nat>)
    requires i < |b|
    ensures multiset(Weights(b, fc)) == multiset(Weights([b[i]], fc)) + multiset(Weights(b[..i] + b[i + 1..], fc))
  {
    assert b == b[..i] + ([b[i]] + b[i + 1..]);
    WeightsConcat(b[..i], [b[i]] + b[i + 1..], fc);
    WeightsConcat([b[i]], b[i + 1..], fc);
    WeightsConcat(b[..i], b[i + 1..], fc);
  }

  lemma {:induction false} WeightsSame(s: seq<nat>, fc: seq<nat>, fc': seq<nat>)
    requires |fc| == |fc'| && forall x :: x in s && x < |fc| ==> fc[x] == fc'[x]
    ensures Weights(s, fc) == Weights(s, fc')
  {
    if s != [] {
      WeightsSame(s[1..], fc, fc');
    }
  }

  lemma {:induction false} WeightsMember(s: seq<nat>, fc: seq<nat>)
    ensures forall w :: w in Weights(s, fc) ==> exists x :: x in s && w == (if x < |fc| then fc[x] else 0)
  {
    if s != [] {
      WeightsMember(s[1..], fc);
      forall w | w in Weights(s, fc) ensures exists x :: x in s && w == (if x < |fc| then fc[x] else 0) {
        if w != Weights(s, fc)[0] {
          assert w in Weights(s[1..], fc);
          var x :| x in s[1..] && w == (if x < |fc| then fc[x] else 0);
        } else {
          assert s[0] in s;
        }
      }
    }
  }

  // ----- the state of the loop

  /** The arrays of build_tree at some point of the loop, and the trees built so far. */
  datatype State = State(heap: seq<nat>, len: nat, max: nat, fc: seq<nat>, dl: seq<nat>, depth: seq<nat>, tr: seq<Tree>)
  {
    /** What is in the queue. */
    function Roots(): seq<nat>
      requires len < |heap|
    {
      Part(heap, len)
    }

    /** What has been taken out, last first. */
    function Order(): seq<nat>
      requires max <= |heap|
    {
      heap[max..]
    }

    /** The queue and the sorted part share the array without touching. */
    predicate Sized(leaves: seq<nat>, elems: nat) {
      1 <= len < max <= |heap| && elems <= |tr|
      && len + (|tr| - elems) == |leaves| && |heap| - max == 2 * (|tr| - elems)
      && 2 * |leaves| < |heap| && elems + |leaves| <= |fc| == |dl| <= |depth|
    }

    /** Every inner node weighs as much as its sons together. */
    ghost predicate Weighed(elems: nat) {
      |tr| <= |fc|
      && forall p :: elems <= p < |tr| ==>
           tr[p].Node? && tr[p].left.id < p && tr[p].right.id < p && fc[p] == fc[tr[p].left.id] + fc[tr[p].right.id]
    }

    ghost predicate Inv(leaves: seq<nat>, elems: nat, maxCode: nat, total: nat, acc: int) {
      Sized(leaves, elems)
      && Forest(Roots(), Order(), dl, tr, leaves, elems)
      && Ordered(heap, len, 1, fc, depth)
      && Symbols(leaves, fc, dl, elems, maxCode)
      && Weighed(elems)
      && Sum(Roots(), FreqAt(fc)) == total
      && acc == Sum(Range(elems, |tr|), FreqAt(fc))
      && Reduces(Weights(leaves, fc), Weights(Roots(), fc), acc)
      && (|tr| > elems ==> |tr| - 1 in Roots())
    }
  }

  /** `s'` is `s` after the two least nodes `n` and `m` got a father. */
  ghost predicate Merged(s: State, s': State, n: nat, m: nat, rest: seq<nat>) {
    s.len < |s.heap| && s.max <= |s.heap| && s.len >= 2 && s.max >= 2
    && |s'.heap| == |s.heap| && s'.len == s.len - 1 && s'.max == s.max - 2 && |s'.depth| == |s.depth|
    && n < |s.tr| && m < |s.tr| && |s.tr| < |s.dl| == |s.fc|
    && Merging(s.Roots(), s'.Roots(), n, m, |s.tr|, rest)
    && s'.Order() == [m, n] + s.Order()
    && s'.fc == s.fc[|s.tr| := s.fc[n] + s.fc[m]]
    && s'.dl == s.dl[n := |s.tr|][m := |s.tr|]
    && s'.tr == s.tr + [Node(|s.tr|, s.tr[n], s.tr[m])]
  }

  lemma MergedSums(s: State, s': State, n: nat, m: nat, rest: seq<nat>, total: nat, elems: nat)
    requires Merged(s, s', n, m, rest) && Sum(s.Roots(), FreqAt(s.fc)) == total && elems <= |s.tr|
    requires forall x :: x in rest ==> x < |s.tr|
    ensures Sum(s'.Roots(), FreqAt(s'.fc)) == total
    ensures Sum(Range(elems, |s'.tr|), FreqAt(s'.fc)) == Sum(Range(elems, |s.tr|), FreqAt(s.fc)) + s.fc[n] + s.fc[m]
  {
    hide Sum, Range;
    var node, f, g := |s.tr|, FreqAt(s.fc), FreqAt(s'.fc);
    SumTwo(s.Roots(), n, m, rest, f);
    SumFirst(s'.Roots(), node, rest, g);
    SumCong(rest, f, g);
    RangeSnoc(elems, node);
    SumSnoc(Range(elems, node), node, g);
    RangeMembers(elems, node);
    SumCong(Range(elems, node), f, g);
  }

  lemma RangeSnoc(a: nat, b: nat)
    requires a <= b
    ensures Range(a, b + 1) == Range(a, b) + [b]
  {
  }

  lemma HeavierRest(rest: seq<nat>, fc: seq<nat>, node: nat, least: nat)
    requires node < |fc| && forall x :: x in rest ==> x < node && least <= fc[x]
    ensures forall w :: w in Weights(rest, fc) ==> least <= w
  {
    hide *;
    RestWeights(rest, fc, least);
  }

  lemma MergedWeights(s: State, s': State, n: nat, m: nat, rest: seq<nat>, leaves: seq<nat>, acc: int)
    requires Merged(s, s', n, m, rest) && forall x :: x in rest || x in leaves ==> x < |s.tr|
    requires Reduces(Weights(leaves, s.fc), Weights(s.Roots(), s.fc), acc)
    requires s.fc[n] <= s.fc[m] && forall x :: x in rest ==> x < |s.tr| && s.fc[m] <= s.fc[x]
    ensures Reduces(Weights(leaves, s'.fc), Weights(s'.Roots(), s'.fc), acc + s.fc[n] + s.fc[m])
  {
    hide *;
    MergedBounds(s, s', n, m, rest);
    LeafWeights(s, s', n, m, rest, leaves);
    OldWeights(s, s', n, m, rest);
    NewWeights(s, s', n, m, rest);
    HeavierRest(rest, s.fc, |s.tr|, s.fc[m]);
    ReduceStep(Weights(leaves, s.fc), Weights(s.Roots(), s.fc), Weights(s'.Roots(), s'.fc), acc, s.fc[n], s.fc[m],
               Weights(rest, s.fc));
  }

  lemma MergedBounds(s: State, s': State, n: nat, m: nat, rest: seq<nat>)
    requires Merged(s, s', n, m, rest)
    ensures s.len < |s.heap| && s'.len < |s'.heap| && n < |s.fc| && m < |s.fc|
    ensures s.max <= |s.heap| && s'.max <= |s'.heap| && |s.tr| < |s.fc| && |s'.tr| == |s.tr| + 1
    ensures Merging(s.Roots(), s'.Roots(), n, m, |s.tr|, rest)
    ensures n < |s.tr| && m < |s.tr| && |s.tr| < |s.dl| && s'.Order() == [m, n] + s.Order()
    ensures s'.dl == s.dl[n := |s.tr|][m := |s.tr|] && s'.tr == s.tr + [Node(|s.tr|, s.tr[n], s.tr[m])]
  {
  }

  lemma LeafWeights(s: State, s': State, n: nat, m: nat, rest: seq<nat>, leaves: seq<nat>)
    requires Merged(s, s', n, m, rest) && forall x :: x in leaves ==> x < |s.tr|
    ensures Weights(leaves, s'.fc) == Weights(leaves, s.fc)
  {
    hide Weights, Part, Merging;
    WeightsSame(leaves, s.fc, s'.fc);
  }

  lemma OldWeights(s: State, s': State, n: nat, m: nat, rest: seq<nat>)
    requires Merged(s, s', n, m, rest)
    ensures multiset(Weights(s.Roots(), s.fc)) == multiset([s.fc[n], s.fc[m]] + Weights(rest, s.fc))
  {
    hide Weights;
    WeightsPerm(s.Roots(), [n, m] + rest, s.fc);
    WeightsTwo(n, m, rest, s.fc);
  }

  lemma MergedRoots(s: State, s': State, n: nat, m: nat, rest: seq<nat>)
    requires Merged(s, s', n, m, rest)
    ensures multiset(s'.Roots()) == multiset([|s.tr|] + rest)
    ensures |s.tr| < |s.fc| && s'.fc == s.fc[|s.tr| := s.fc[n] + s.fc[m]]
  {
    hide Part;
  }

  lemma NewWeightsOf(roots: seq<nat>, rest: seq<nat>, node: nat, fc: seq<nat>, fc': seq<nat>, v: nat)
    requires node < |fc| && fc' == fc[node := v] && multiset(roots) == multiset([node] + rest) && forall x :: x in rest ==> x < node
    ensures multiset(Weights(roots, fc')) == multiset([v] + Weights(rest, fc))
  {
    hide *;
    WeightsSame(rest, fc, fc');
    WeightsPerm(roots, [node] + rest, fc');
    WeightsFirst([node] + rest, fc');
    assert ([node] + rest)[1..] == rest;
  }

  lemma NewWeights(s: State, s': State, n: nat, m: nat, rest: seq<nat>)
    requires Merged(s, s', n, m, rest) && forall x :: x in rest ==> x < |s.tr|
    ensures multiset(Weights(s'.Roots(), s'.fc)) == multiset([s.fc[n] + s.fc[m]] + Weights(rest, s.fc))
  {
    MergedRoots(s, s', n, m, rest);
    hide *;
    NewWeightsOf(s'.Roots(), rest, |s.tr|, s.fc, s'.fc, s.fc[n] + s.fc[m]);
  }

  lemma RestWeights(rest: seq<nat>, fc: seq<nat>, least: nat)
    requires forall x :: x in rest ==> x < |fc| && least <= fc[x]
    ensures forall w :: w in Weights(rest, fc) ==> least <= w
  {
    WeightsMember(rest, fc);
  }

  lemma WeightsTwo(n: nat, m: nat, rest: seq<nat>, fc: seq<nat>)
    requires n < |fc| && m < |fc|
    ensures Weights([n, m] + rest, fc) == [fc[n], fc[m]] + Weights(rest, fc)
  {
    assert ([n, m] + rest)[1..] == [m] + rest;
    assert ([m] + rest)[1..] == rest;
  }

  lemma MergedWeighed(s: State, s': State, n: nat, m: nat, rest: seq<nat>, elems: nat, leaves: seq<nat>)
    requires Merged(s, s', n, m, rest) && s.Weighed(elems) && Trees(s.Order(), s.dl, s.tr, elems)
    ensures s'.Weighed(elems)
  {
    hide Merging, Part, WellNumbered, Joined;
    var node := |s.tr|;
    assert s.tr[n].id == n && s.tr[m].id == m;
    forall p | elems <= p < |s'.tr|
      ensures s'.tr[p].Node? && s'.tr[p].left.id < p && s'.tr[p].right.id < p
              && s'.fc[p] == s'.fc[s'.tr[p].left.id] + s'.fc[s'.tr[p].right.id]
    {
      if p < node {
        assert s'.tr[p] == s.tr[p];
      } else {
        assert s'.tr[p] == Node(node, s.tr[n], s.tr[m]);
      }
    }
  }

  lemma MergedSymbols(s: State, s': State, n: nat, m: nat, rest: seq<nat>, leaves: seq<nat>, elems: nat, maxCode: nat)
    requires Merged(s, s', n, m, rest) && Symbols(leaves, s.fc, s.dl, elems, maxCode) && elems <= |s.tr|
    requires n < elems ==> n in leaves
    requires m < elems ==> m in leaves
    ensures Symbols(leaves, s'.fc, s'.dl, elems, maxCode)
  {
    hide Merging, Part;
  }

  lemma RootKinds(roots: seq<nat>, order: seq<nat>, leaves: seq<nat>, elems: nat, node: nat)
    requires Accounted(roots, order, leaves, elems, node)
    ensures forall x: nat :: x in roots && x < elems ==> x in leaves
    ensures forall x :: x in roots ==> x < node
  {
    AccountedOnce(roots, order, leaves, elems, node);
    forall x: nat | x in roots && x < elems ensures x in leaves {
      assert x in multiset(roots);
      assert (multiset(leaves) + multiset(Range(elems, node)))[x] == (multiset(order) + multiset(roots))[x] > 0;
      RangeMultiset(elems, node);
      assert x in multiset(leaves);
    }
  }

  lemma InMerging(roots: seq<nat>, roots': seq<nat>, n: nat, m: nat, node: nat, rest: seq<nat>)
    requires Merging(roots, roots', n, m, node, rest)
    ensures n in roots && m in roots && node in roots'
    ensures forall x :: x in rest ==> x in roots
  {
    assert n in multiset([n, m] + rest) && m in multiset([n, m] + rest) && node in multiset([node] + rest);
    forall x | x in rest ensures x in roots {
      assert x in multiset(rest);
      assert multiset([n, m] + rest) == multiset([n, m]) + multiset(rest);
      assert x in multiset(roots);
    }
  }

  lemma InvParts(s: State, leaves: seq<nat>, elems: nat, maxCode: nat, total: nat, acc: int)
    requires s.Inv(leaves, elems, maxCode, total, acc)
    ensures Accounted(s.Roots(), s.Order(), leaves, elems, |s.tr|)
    ensures Trees(s.Order(), s.dl, s.tr, elems)
  {
  }

  /** One round keeps everything. */
  lemma MergedInv(s: State, s': State, n: nat, m: nat, rest: seq<nat>,
                  leaves: seq<nat>, elems: nat, maxCode: nat, total: nat, acc: int)
    requires s.Inv(leaves, elems, maxCode, total, acc) && Merged(s, s', n, m, rest)
    requires Ordered(s'.heap, s'.len, 1, s'.fc, s'.depth)
    requires s.fc[n] <= s.fc[m] && forall x :: x in rest ==> x < |s.tr| && s.fc[m] <= s.fc[x]
    ensures s'.Inv(leaves, elems, maxCode, total, acc + s.fc[n] + s.fc[m])
  {
    hide *;
    MergedBounds(s, s', n, m, rest);
    MergedSized(s, s', n, m, rest, leaves, elems, maxCode, total, acc);
    InvIs(s, leaves, elems, maxCode, total, acc);
    ForestKnows(s.Roots(), s.Order(), s.dl, s.tr, leaves, elems);
    InMerging(s.Roots(), s'.Roots(), n, m, |s.tr|, rest);
    Merge(s.Roots(), s.Order(), s.dl, s.tr, leaves, elems, s'.Roots(), n, m, rest);
    MergedSums(s, s', n, m, rest, total, elems);
    MergedWeights(s, s', n, m, rest, leaves, acc);
    MergedWeighed(s, s', n, m, rest, elems, leaves);
    MergedSymbols(s, s', n, m, rest, leaves, elems, maxCode);
    InvIs(s', leaves, elems, maxCode, total, acc + s.fc[n] + s.fc[m]);
  }

  lemma MergedSized(s: State, s': State, n: nat, m: nat, rest: seq<nat>,
                    leaves: seq<nat>, elems: nat, maxCode: nat, total: nat, acc: int)
    requires s.Inv(leaves, elems, maxCode, total, acc) && Merged(s, s', n, m, rest)
    ensures s.Sized(leaves, elems) && s'.Sized(leaves, elems)
  {
  }

  lemma ForestKnows(roots: seq<nat>, order: seq<nat>, dl: seq<nat>, tr: seq<Tree>, leaves: seq<nat>, elems: nat)
    requires Forest(roots, order, dl, tr, leaves, elems)
    ensures Trees(order, dl, tr, elems) && elems <= |tr| <= |dl|
    ensures forall x :: x in leaves ==> x < |tr|
    ensures forall x: nat :: x in roots && x < elems ==> x in leaves
    ensures forall x :: x in roots ==> x < |tr|
  {
    RootKinds(roots, order, leaves, elems, |tr|);
  }

  lemma InvIs(s: State, leaves: seq<nat>, elems: nat, maxCode: nat, total: nat, acc: int)
    requires s.Sized(leaves, elems)
    ensures s.len < |s.heap| && s.max <= |s.heap| && elems <= |s.tr|
    ensures s.Inv(leaves, elems, maxCode, total, acc)
       <==> (Forest(s.Roots(), s.Order(), s.dl, s.tr, leaves, elems)
             && Ordered(s.heap, s.len, 1, s.fc, s.depth)
             && Symbols(leaves, s.fc, s.dl, elems, maxCode)
             && s.Weighed(elems)
             && Sum(s.Roots(), FreqAt(s.fc)) == total
             && acc == Sum(Range(elems, |s.tr|), FreqAt(s.fc))
             && Reduces(Weights(leaves, s.fc), Weights(s.Roots(), s.fc), acc)
             && (|s.tr| > elems ==> |s.tr| - 1 in s.Roots()))
  {
  }

  // ----- what one round does to the heap array

  lemma PartEnds(h: seq<nat>, len: nat)
    requires 1 <= len < |h|
    ensures len >= 2 ==> Part(h, len) == [h[1]] + h[2..len] + [h[len]]
  {
  }

  lemma LastInFront(h: seq<nat>, len: nat)
    requires 2 <= len < |h|
    ensures Part(h[1 := h[len]], len - 1) == [h[len]] + h[2..len]
  {
  }

  lemma BothEnds(x: nat, mid: seq<nat>, y: nat)
    ensures multiset([x] + mid + [y]) == multiset{x} + multiset([y] + mid)
  {
    assert multiset([x] + mid + [y]) == multiset{x} + multiset(mid) + multiset{y};
    assert multiset([y] + mid) == multiset{y} + multiset(mid);
  }

  lemma RemoveFirst(h: seq<nat>, len: nat)
    requires 2 <= len < |h|
    ensures multiset(Part(h, len)) == multiset{h[1]} + multiset(Part(h[1 := h[len]], len - 1))
  {
    PartEnds(h, len);
    LastInFront(h, len);
    hide Part;
    BothEnds(h[1], h[2..len], h[len]);
  }

  lemma FirstAndRest(h: seq<nat>, len: nat)
    requires 1 <= len < |h|
    ensures Part(h, len) == [h[1]] + h[2..len + 1]
  {
  }

  lemma ReplaceFirst(h: seq<nat>, len: nat, x: nat)
    requires 1 <= len < |h|
    ensures Part(h[1 := x], len) == [x] + h[2..len + 1]
  {
  }

  lemma OrderedWithoutFirst(h: seq<nat>, len: nat, x: nat, fc: seq<nat>, depth: seq<nat>, fc': seq<nat>, depth': seq<nat>, len': nat)
    requires Ordered(h, len, 1, fc, depth) && 1 <= len' <= len
    requires |fc'| == |fc| && |depth'| == |depth| && x < |fc'|
    requires forall j :: 2 <= j <= len' ==> fc'[h[j]] == fc[h[j]] && depth'[h[j]] == depth[h[j]]
    ensures Ordered(h[1 := x], len', 2, fc', depth')
  {
  }

  lemma OrderedRegion(h: seq<nat>, g: seq<nat>, len: nat, k: nat, fc: seq<nat>, depth: seq<nat>)
    requires Ordered(h, len, k, fc, depth) && |g| == |h| && forall j :: 1 <= j <= len ==> g[j] == h[j]
    ensures Ordered(g, len, k, fc, depth) && Part(g, len) == Part(h, len)
  {
  }

  lemma LeastOf(h: seq<nat>, len: nat, fc: seq<nat>, depth: seq<nat>)
    requires Ordered(h, len, 1, fc, depth) && 1 <= len
    ensures forall x :: x in Part(h, len) ==> x < |fc| && fc[h[1]] <= fc[x]
  {
    forall x | x in Part(h, len) ensures x < |fc| && fc[h[1]] <= fc[x] {
      var j :| 0 <= j < len && Part(h, len)[j] == x;
      FirstIsLeast(h, len, fc, depth, j + 1);
    }
  }

  /** PQREMOVE: takes the least node out of the queue. */
  method PqRemove(heap: array<nat>, len: nat, fc: array<nat>, depth: array<nat>) returns (top: nat)
    requires heap != fc && heap != depth && 2 <= len < heap.Length && Ordered(heap[..], len, 1, fc[..], depth[..])
    modifies heap
    ensures Ordered(heap[..], len - 1, 1, fc[..], depth[..])
    ensures top == old(heap[1])
    ensures multiset(Part(old(heap[..]), len)) == multiset{top} + multiset(Part(heap[..], len - 1))
    ensures forall i :: len < i < heap.Length ==> heap[i] == old(heap[i])
  {
    hide Ordered, Part;
    ghost var h := heap[..];
    RemoveFirst(h, len);
    OrderedBound(h, len, fc[..], depth[..]);
    OrderedWithoutFirst(h, len, h[len], fc[..], depth[..], fc[..], depth[..], len - 1);
    top := heap[1];
    heap[1] := heap[len];
    assert heap[..] == h[1 := h[len]];
    PqDownHeap(heap, len - 1, fc, depth, 1);
  }

  lemma OrderedBound(h: seq<nat>, len: nat, fc: seq<nat>, depth: seq<nat>)
    requires Ordered(h, len, 1, fc, depth)
    ensures len < |h| && |fc| <= |depth| && forall j :: 1 <= j <= len ==> h[j] < |fc|
  {
  }

  /** The heap before, between and after: what the two halves of a round add up to. */
  lemma RoundHeaps(s: State, h1: seq<nat>, h2: seq<nat>, n: nat, m: nat, node: nat, leaves: seq<nat>, elems: nat)
    requires s.Sized(leaves, elems) && s.len >= 2 && |h1| == |s.heap| == |h2|
    requires n == s.heap[1] && m == h1[1]
    requires multiset(Part(s.heap, s.len)) == multiset{n} + multiset(Part(h1, s.len - 1))
    requires forall i :: s.len < i < |s.heap| ==> h1[i] == s.heap[i]
    requires multiset(Part(h2, s.len - 1)) == multiset([node] + h1[2..s.len])
    requires forall i :: s.len <= i < |s.heap| ==> h2[i] == h1[s.max - 1 := n][s.max - 2 := m][i]
    ensures Merging(Part(s.heap, s.len), Part(h2, s.len - 1), n, m, node, h1[2..s.len])
    ensures h2[s.max - 2..] == [m, n] + s.heap[s.max..]
  {
    RoundMultisets(Part(s.heap, s.len), Part(h1, s.len - 1), Part(h2, s.len - 1), n, m, node, h1[2..s.len], h1, s.len);
    hide *;
    assert h2[s.max - 2..] == [m, n] + s.heap[s.max..];
  }

  lemma MultisetOne(x: nat, s: seq<nat>)
    ensures multiset([x] + s) == multiset{x} + multiset(s)
  {
  }

  lemma PrependTwo(n: nat, m: nat, s: seq<nat>)
    ensures multiset([n, m] + s) == multiset{n} + multiset([m] + s)
  {
    assert [n, m] + s == [n] + ([m] + s);
  }

  lemma RoundMultisets(a: seq<nat>, b: seq<nat>, c: seq<nat>, n: nat, m: nat, node: nat, rest: seq<nat>, h1: seq<nat>, len: nat)
    requires 2 <= len < |h1| && m == h1[1] && b == Part(h1, len - 1) && rest == h1[2..len]
    requires multiset(a) == multiset{n} + multiset(b) && multiset(c) == multiset([node] + rest)
    ensures Merging(a, c, n, m, node, rest)
  {
    FirstAndRest(h1, len - 1);
    hide Part;
    PrependTwo(n, m, rest);
    MultisetOne(m, rest);
  }

  /** The new father goes to the top of the queue and sinks to its place. */
  method PutFather(heap: array<nat>, len: nat, max: nat, fc: array<nat>, depth: array<nat>, dl: array<nat>, n: nat, node: nat,
                   ghost s: State, ghost leaves: seq<nat>, ghost elems: nat)
    returns (m: nat)
    requires heap != fc && heap != depth && heap != dl && fc != depth && fc != dl && depth != dl
    requires s.Sized(leaves, elems) && s.len >= 2 && len == s.len - 1 && max == s.max && node == |s.tr|
    requires fc[..] == s.fc && dl[..] == s.dl && depth[..] == s.depth && |heap[..]| == |s.heap|
    requires n < node < fc.Length && forall j :: 1 <= j <= len ==> heap[j] < node
    requires Ordered(heap[..], len, 1, fc[..], depth[..])
    requires forall j :: 1 <= j <= len ==> fc[n] + fc[heap[j]] < 0x1_0000
    modifies heap, fc, depth, dl
    ensures m == old(heap[1])
    ensures Ordered(heap[..], len, 1, fc[..], depth[..])
    ensures multiset(Part(heap[..], len)) == multiset([node] + old(heap[..])[2..len + 1])
    ensures forall i :: len < i < heap.Length ==> heap[i] == old(heap[..])[max - 1 := n][max - 2 := m][i]
    ensures fc[..] == s.fc[node := s.fc[n] + s.fc[m]]
    ensures dl[..] == s.dl[n := node][m := node]
    ensures depth[..] == s.depth[node := ((if s.depth[n] < s.depth[m] then s.depth[m] else s.depth[n]) + 1) % 0x100]
  {
    hide Ordered, Part;
    ghost var h := heap[..];
    m := heap[1];
    heap[max - 1] := n;
    heap[max - 2] := m;
    fc[node] := (fc[n] + fc[m]) % 0x1_0000;
    depth[node] := ((if depth[n] < depth[m] then depth[m] else depth[n]) + 1) % 0x100;
    dl[n] := node;
    dl[m] := node;
    heap[1] := node;
    ghost var g := h[1 := node];
    OrderedWithoutFirst(h, len, node, s.fc, s.depth, fc[..], depth[..], len);
    OrderedRegion(g, heap[..], len, 2, fc[..], depth[..]);
    ReplaceFirst(h, len, node);
    PqDownHeap(heap, len, fc, depth, 1);
  }
}
