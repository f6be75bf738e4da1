/** The priority queue inside build_tree: pqdownheap. */
module Heaps {
  import opened Sums

  /** SMALLER: by frequency, then by depth of the subtree. */
  predicate Smaller(fc: seq<nat>, depth: seq<nat>, n: nat, m: nat)
    requires n < |fc| <= |depth| && m < |fc|
  {
    fc[n] < fc[m] || (fc[n] == fc[m] && depth[n] <= depth[m])
  }

  ghost predicate InHeap(heap: seq<nat>, len: nat, bound: nat) {
    len < |heap| && forall j :: 1 <= j <= len ==> heap[j] < bound
  }

  /** No son below position `k` is smaller than its father. */
  ghost predicate Ordered(heap: seq<nat>, len: nat, k: nat, fc: seq<nat>, depth: seq<nat>) {
    |fc| <= |depth| && InHeap(heap, len, |fc|)
    && forall j :: 2 <= j <= len && j / 2 >= k ==> Smaller(fc, depth, heap[j / 2], heap[j])
  }

  /** Ordered below `k` except around the hole, whose sons already fit its father. */
  ghost predicate Hole(h: seq<nat>, len: nat, k: nat, hole: nat, fc: seq<nat>, depth: seq<nat>) {
    |fc| <= |depth| && InHeap(h, len, |fc|) && 1 <= k <= hole <= len
    && (forall j :: 2 <= j <= len && j / 2 >= k && j / 2 != hole ==> Smaller(fc, depth, h[j / 2], h[j]))
    && (forall j :: 2 <= j <= len && j / 2 == hole && hole / 2 >= k ==> Smaller(fc, depth, h[hole / 2], h[j]))
  }

  lemma SwapMultiset(a: seq<nat>, i: nat, j: nat)
    requires i < |a| && j < |a|
    ensures multiset(a[i := a[j]][j := a[i]]) == multiset(a)
  {
  }

  /** Elements 1 to len. */
  function Part(h: seq<nat>, len: nat): seq<nat>
    requires len < |h|
  {
    h[1..len + 1]
  }

  lemma SwapPart(h: seq<nat>, len: nat, i: nat, j: nat)
    requires 1 <= i <= len < |h| && 1 <= j <= len
    ensures multiset(Part(h[i := h[j]][j := h[i]], len)) == multiset(Part(h, len))
  {
    SwapMultiset(Part(h, len), i - 1, j - 1);
    assert Part(h[i := h[j]][j := h[i]], len) == Part(h, len)[i - 1 := h[j]][j - 1 := h[i]];
  }

  /** Moving the smaller son up moves the hole down. */
  lemma SiftStep(h: seq<nat>, len: nat, k: nat, hole: nat, j: nat, fc: seq<nat>, depth: seq<nat>)
    requires Hole(h, len, k, hole, fc, depth) && 2 <= j <= len && j / 2 == hole
    requires !Smaller(fc, depth, h[hole], h[j])
    requires forall s :: 2 <= s <= len && s / 2 == hole ==> Smaller(fc, depth, h[j], h[s])
    ensures Hole(h[hole := h[j]][j := h[hole]], len, k, j, fc, depth)
  {
    var g := h[hole := h[j]][j := h[hole]];
    forall i | 2 <= i <= len && i / 2 >= k && i / 2 != j ensures Smaller(fc, depth, g[i / 2], g[i]) {
      if i / 2 == hole {
        assert g[i / 2] == h[j];
      } else if i == hole {
        assert g[i] == h[j];
      } else {
        assert g[i / 2] == h[i / 2] && g[i] == h[i];
      }
    }
    forall i | 2 <= i <= len && i / 2 == j ensures Smaller(fc, depth, g[j / 2], g[i]) {
      assert g[i] == h[i];
    }
  }

  lemma SiftDone(h: seq<nat>, len: nat, k: nat, hole: nat, fc: seq<nat>, depth: seq<nat>)
    requires Hole(h, len, k, hole, fc, depth)
    requires forall s :: 2 <= s <= len && s / 2 == hole ==> Smaller(fc, depth, h[hole], h[s])
    ensures Ordered(h, len, k, fc, depth)
  {
  }

  /** pqdownheap: sinks the element at `k` until the order holds from `k` on. */
  method PqDownHeap(heap: array<nat>, heapLen: nat, fc: array<nat>, depth: array<nat>, k0: nat)
    requires heap != fc && heap != depth && 1 <= k0 <= heapLen < heap.Length
    requires Ordered(heap[..], heapLen, k0 + 1, fc[..], depth[..])
    modifies heap
    ensures Ordered(heap[..], heapLen, k0, fc[..], depth[..])
    ensures multiset(Part(heap[..], heapLen)) == multiset(Part(old(heap[..]), heapLen))
    ensures forall i :: 0 <= i < heap.Length && !(1 <= i <= heapLen) ==> heap[i] == old(heap[i])
  {
    hide Ordered, Hole, Part;
    ghost var fcs, dps, was := fc[..], depth[..], heap[..];
    OrderedNodes(was, heapLen, k0 + 1, fcs, dps);
    var v := heap[k0];
    var k := k0;
    var j := k * 2;
    ghost var h := heap[..];  // the heap with v in the hole
    assert h == heap[..][k := v];
    StartHole(h, heapLen, k0, fcs, dps);
    while j <= heapLen
      invariant fc[..] == fcs && depth[..] == dps && |fcs| <= |dps| && v < |fcs|
      invariant j == 2 * k && 1 <= k <= heapLen
      invariant h == heap[..][k := v] && InHeap(h, heapLen, |fcs|)
      invariant Hole(h, heapLen, k0, k, fcs, dps)
      invariant multiset(Part(h, heapLen)) == multiset(Part(was, heapLen))
      invariant forall i :: 0 <= i < heap.Length && !(1 <= i <= heapLen) ==> heap[i] == was[i]
    {
      assert h[j] == heap[j];
      if j < heapLen {
        assert h[j + 1] == heap[j + 1];
        if Smaller(fc[..], depth[..], heap[j + 1], heap[j]) {
          j := j + 1;
        }
      }
      SmallerSon(h, heapLen, k, j, fcs, dps);
      if Smaller(fc[..], depth[..], v, heap[j]) {
        SmallerBoth(h, heapLen, k, j, fcs, dps);
        break;
      }
      SiftStep(h, heapLen, k0, k, j, fcs, dps);
      SwapPart(h, heapLen, k, j);
      heap[k] := heap[j];
      h := h[k := h[j]][j := v];
      k := j;
      j := j * 2;
    }
    heap[k] := v;
    assert heap[..] == h;
    SiftDone(h, heapLen, k0, k, fcs, dps);
  }

  lemma OrderedNodes(h: seq<nat>, len: nat, k: nat, fc: seq<nat>, depth: seq<nat>)
    requires Ordered(h, len, k, fc, depth)
    ensures |fc| <= |depth| && InHeap(h, len, |fc|)
  {
  }

  lemma StartHole(h: seq<nat>, len: nat, k: nat, fc: seq<nat>, depth: seq<nat>)
    requires 1 <= k <= len && Ordered(h, len, k + 1, fc, depth)
    ensures Hole(h, len, k, k, fc, depth)
  {
  }

  lemma SmallerSon(h: seq<nat>, len: nat, k: nat, j: nat, fc: seq<nat>, depth: seq<nat>)
    requires |fc| <= |depth| && InHeap(h, len, |fc|) && 1 <= k && 2 * k <= j <= 2 * k + 1 && j <= len
    requires j == 2 * k && j < len ==> !Smaller(fc, depth, h[j + 1], h[j])
    requires j == 2 * k + 1 ==> Smaller(fc, depth, h[j], h[j - 1])
    ensures forall s :: 2 <= s <= len && s / 2 == k ==> Smaller(fc, depth, h[j], h[s])
  {
    forall s | 2 <= s <= len && s / 2 == k ensures Smaller(fc, depth, h[j], h[s]) {
      assert s == 2 * k || s == 2 * k + 1;
    }
  }

  lemma SmallerBoth(h: seq<nat>, len: nat, k: nat, j: nat, fc: seq<nat>, depth: seq<nat>)
    requires |fc| <= |depth| && InHeap(h, len, |fc|) && 1 <= k <= len && 2 <= j <= len
    requires forall s :: 2 <= s <= len && s / 2 == k ==> Smaller(fc, depth, h[j], h[s])
    requires Smaller(fc, depth, h[k], h[j])
    ensures forall s :: 2 <= s <= len && s / 2 == k ==> Smaller(fc, depth, h[k], h[s])
  {
  }

  /** The first element of an ordered heap has the least frequency, and of those that have it
      the least depth. */
  lemma {:induction false} FirstIsLeast(h: seq<nat>, len: nat, fc: seq<nat>, depth: seq<nat>, j: nat)
    requires Ordered(h, len, 1, fc, depth) && 1 <= j <= len
    ensures fc[h[1]] < fc[h[j]] || (fc[h[1]] == fc[h[j]] && depth[h[1]] <= depth[h[j]])
    decreases j
  {
    if j > 1 {
      FirstIsLeast(h, len, fc, depth, j / 2);
      assert Smaller(fc, depth, h[j / 2], h[j]);
    }
  }
}
