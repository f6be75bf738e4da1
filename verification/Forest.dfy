/** The forest that build_tree grows in its arrays, and what a pass from the
    root down makes of it. */
module Forests {
  import opened Bits
  import opened Sums

  datatype Tree = Leaf(id: nat) | Node(id: nat, left: Tree, right: Tree)

  function Nodes(t: Tree): seq<nat> {
    match t
    case Leaf(id) => [id]
    case Node(id, l, r) => [id] + (Nodes(l) + Nodes(r))
  }

  /** Leaves are symbols; inner nodes are numbered after them, sons before fathers. */
  ghost predicate WellNumbered(t: Tree, elems: nat) {
    match t
    case Leaf(id) => id < elems
    case Node(id, l, r) =>
      elems <= id && l.id < id && r.id < id && WellNumbered(l, elems) && WellNumbered(r, elems)
  }

  /** How often node `x` occurs in the tree of a root. */
  ghost function Occurs(tr: seq<Tree>, x: nat): nat -> int {
    (r: nat) => if r < |tr| then multiset(Nodes(tr[r]))[x] as int else 0
  }

  /** Inner node `p` has the fathers' table of its sons pointing to it. */
  ghost predicate Joined(p: nat, order: seq<nat>, dl: seq<nat>, tr: seq<Tree>)
    requires p < |tr|
  {
    tr[p].Node?
    && var l, r := tr[p].left.id, tr[p].right.id;
    l < p && r < p && tr[p].left == tr[l] && tr[p].right == tr[r]
    && p < |dl| && dl[l] == p && dl[r] == p && l in order && r in order
  }

  ghost predicate Trees(order: seq<nat>, dl: seq<nat>, tr: seq<Tree>, elems: nat) {
    elems <= |tr| <= |dl|
    && (forall p :: 0 <= p < |tr| ==> tr[p].id == p && WellNumbered(tr[p], elems))
    && (forall p :: elems <= p < |tr| ==> Joined(p, order, dl, tr))
  }

  /** Every node of `roots` and `order` exactly once: the symbols and the inner nodes. */
  ghost predicate Accounted(roots: seq<nat>, order: seq<nat>, leaves: seq<nat>, elems: nat, node: nat) {
    elems <= node && Distinct(leaves) && (forall x :: x in leaves ==> x < elems)
    && multiset(order) + multiset(roots) == multiset(leaves) + multiset(Range(elems, node))
  }

  /** The trees of the roots hold exactly the listed nodes. */
  ghost predicate Planted(roots: seq<nat>, order: seq<nat>, tr: seq<Tree>) {
    forall x: nat :: Sum(roots, Occurs(tr, x)) == multiset(order)[x] + multiset(roots)[x]
  }

  /** Fathers come before their sons, or are still in the heap. */
  ghost predicate FathersFirst(roots: seq<nat>, order: seq<nat>, dl: seq<nat>) {
    forall i :: 0 <= i < |order| ==>
      order[i] < |dl| && (dl[order[i]] in order[..i] || dl[order[i]] in roots)
  }

  /** `roots` are in the heap, `order` is the sorted part above heap_max. */
  ghost predicate Forest(roots: seq<nat>, order: seq<nat>, dl: seq<nat>, tr: seq<Tree>, leaves: seq<nat>, elems: nat) {
    Trees(order, dl, tr, elems)
    && Accounted(roots, order, leaves, elems, |tr|)
    && Planted(roots, order, tr)
    && FathersFirst(roots, order, dl)
  }

  lemma {:induction false} RangeMultiset(a: nat, b: nat)
    requires a <= b
    ensures forall x: nat :: multiset(Range(a, b))[x] == if a <= x < b then 1 else 0
    decreases b - a
  {
    if a < b {
      RangeMultiset(a, b - 1);
    }
  }

  lemma AccountedOnce(roots: seq<nat>, order: seq<nat>, leaves: seq<nat>, elems: nat, node: nat)
    requires Accounted(roots, order, leaves, elems, node)
    ensures forall x: nat :: multiset(order)[x] + multiset(roots)[x] <= 1
    ensures forall x: nat :: x in order || x in roots ==> x < node
  {
    DistinctMultiset(leaves);
    RangeMultiset(elems, node);
    forall x: nat
      ensures multiset(order)[x] + multiset(roots)[x] <= 1
      ensures x in order || x in roots ==> x < node
    {
      var a, b := multiset(leaves)[x], multiset(Range(elems, node))[x];
      assert multiset(order)[x] + multiset(roots)[x] == (multiset(order) + multiset(roots))[x] == a + b;
      if a > 0 {
        assert x in multiset(leaves);
        assert x in leaves;
      }
      if x in order {
        assert x in multiset(order);
      }
      if x in roots {
        assert x in multiset(roots);
      }
    }
  }

  /** Taking `n` and `m` out of the heap and putting their new father in. */
  ghost predicate Merging(roots: seq<nat>, roots': seq<nat>, n: nat, m: nat, node: nat, rest: seq<nat>) {
    multiset(roots) == multiset([n, m] + rest) && multiset(roots') == multiset([node] + rest)
  }

  function One(x: nat, y: nat): nat {
    if x == y then 1 else 0
  }

  lemma TwoMore(n: nat, m: nat, s: seq<nat>, x: nat)
    ensures multiset([n, m] + s)[x] == One(n, x) + One(m, x) + multiset(s)[x]
  {
    assert multiset([n, m] + s) == multiset{n} + multiset{m} + multiset(s);
  }

  lemma MergeCounts(roots: seq<nat>, order: seq<nat>, roots': seq<nat>, n: nat, m: nat, node: nat, rest: seq<nat>, x: nat)
    requires Merging(roots, roots', n, m, node, rest)
    ensures multiset(roots)[x] == One(n, x) + One(m, x) + multiset(rest)[x]
    ensures multiset(roots')[x] == One(node, x) + multiset(rest)[x]
    ensures multiset([m, n] + order)[x] == One(m, x) + One(n, x) + multiset(order)[x]
  {
    TwoMore(n, m, rest, x);
    TwoMore(m, n, order, x);
    assert multiset([node] + rest) == multiset{node} + multiset(rest);
  }

  lemma MergeAccounted(roots: seq<nat>, order: seq<nat>, leaves: seq<nat>, elems: nat, node: nat,
                       roots': seq<nat>, n: nat, m: nat, rest: seq<nat>)
    requires Accounted(roots, order, leaves, elems, node) && Merging(roots, roots', n, m, node, rest)
    ensures Accounted(roots', [m, n] + order, leaves, elems, node + 1)
    ensures n != m && n !in order && m !in order && n < node && m < node
    ensures forall x :: x in rest ==> x < node
  {
    AccountedOnce(roots, order, leaves, elems, node);
    MergeCounts(roots, order, roots', n, m, node, rest, n);
    MergeCounts(roots, order, roots', n, m, node, rest, m);
    assert n in multiset(roots) && m in multiset(roots);
    assert n in order ==> n in multiset(order);
    assert m in order ==> m in multiset(order);
    forall x | x in rest ensures x < node {
      MergeCounts(roots, order, roots', n, m, node, rest, x);
      assert x in multiset(rest);
      assert x in multiset(roots);
      assert x in roots;
    }
    var all, all' := multiset(leaves) + multiset(Range(elems, node)), multiset(leaves) + multiset(Range(elems, node + 1));
    forall x: nat ensures (multiset([m, n] + order) + multiset(roots'))[x] == all'[x] {
      MergeCounts(roots, order, roots', n, m, node, rest, x);
      RangeMultiset(elems, node);
      RangeMultiset(elems, node + 1);
      assert all[x] == (multiset(order) + multiset(roots))[x];
    }
    assert multiset([m, n] + order) + multiset(roots') == all';
  }

  lemma MergePlanted(roots: seq<nat>, order: seq<nat>, tr: seq<Tree>, roots': seq<nat>, n: nat, m: nat, rest: seq<nat>)
    requires Planted(roots, order, tr) && Merging(roots, roots', n, m, |tr|, rest)
    requires n < |tr| && m < |tr| && forall x :: x in rest ==> x < |tr|
    ensures Planted(roots', [m, n] + order, tr + [Node(|tr|, tr[n], tr[m])])
  {
    var t := Node(|tr|, tr[n], tr[m]);
    var tr' := tr + [t];
    forall x: nat ensures Sum(roots', Occurs(tr', x)) == multiset([m, n] + order)[x] + multiset(roots')[x] {
      PlantedOnce(roots, tr, roots', n, m, rest, x);
      MergeCounts(roots, order, roots', n, m, |tr|, rest, x);
    }
  }

  lemma PlantedOnce(roots: seq<nat>, tr: seq<Tree>, roots': seq<nat>, n: nat, m: nat, rest: seq<nat>, x: nat)
    requires Merging(roots, roots', n, m, |tr|, rest)
    requires n < |tr| && m < |tr| && forall y :: y in rest ==> y < |tr|
    ensures Sum(roots', Occurs(tr + [Node(|tr|, tr[n], tr[m])], x)) == Sum(roots, Occurs(tr, x)) + One(|tr|, x)
  {
    hide Nodes, Sum;
    var node, t := |tr|, Node(|tr|, tr[n], tr[m]);
    var f, g := Occurs(tr, x), Occurs(tr + [t], x);
    SumTwo(roots, n, m, rest, f);
    SumFirst(roots', node, rest, g);
    SumCong(rest, f, g);
    NodesOccur(t, x);
  }

  lemma SumFirst(s: seq<nat>, x: nat, rest: seq<nat>, f: nat -> int)
    requires multiset(s) == multiset([x] + rest)
    ensures Sum(s, f) == f(x) + Sum(rest, f)
  {
    SumPerm(s, [x] + rest, f);
  }

  lemma SumTwo(s: seq<nat>, x: nat, y: nat, rest: seq<nat>, f: nat -> int)
    requires multiset(s) == multiset([x, y] + rest)
    ensures Sum(s, f) == f(x) + f(y) + Sum(rest, f)
  {
    assert [x, y] + rest == [x] + ([y] + rest);
    SumFirst(s, x, [y] + rest, f);
    SumFirst([y] + rest, y, rest, f);
  }

  lemma NodesOccur(t: Tree, x: nat)
    requires t.Node?
    ensures multiset(Nodes(t))[x] == One(t.id, x) + multiset(Nodes(t.left))[x] + multiset(Nodes(t.right))[x]
  {
    assert multiset(Nodes(t)) == multiset{t.id} + (multiset(Nodes(t.left)) + multiset(Nodes(t.right)));
  }

  lemma MergeTrees(order: seq<nat>, dl: seq<nat>, tr: seq<Tree>, elems: nat, n: nat, m: nat)
    requires Trees(order, dl, tr, elems) && |tr| < |dl|
    requires n < |tr| && m < |tr| && n !in order && m !in order
    ensures Trees([m, n] + order, dl[n := |tr|][m := |tr|], tr + [Node(|tr|, tr[n], tr[m])], elems)
  {
    var node, order' := |tr|, [m, n] + order;
    var dl', tr' := dl[n := node][m := node], tr + [Node(node, tr[n], tr[m])];
    assert order'[0] == m && order'[1] == n;
    forall x | x in order ensures x in order' {
      var i :| 0 <= i < |order| && order[i] == x;
      assert order'[i + 2] == x;
    }
    forall p | elems <= p < |tr'| ensures Joined(p, order', dl', tr') {
      if p < node {
        assert Joined(p, order, dl, tr);
        assert tr'[p] == tr[p];
      }
    }
  }

  lemma MergeFathers(roots: seq<nat>, order: seq<nat>, dl: seq<nat>, roots': seq<nat>, n: nat, m: nat, node: nat, rest: seq<nat>)
    requires FathersFirst(roots, order, dl) && Merging(roots, roots', n, m, node, rest)
    requires n < |dl| && m < |dl| && n !in order && m !in order
    ensures FathersFirst(roots', [m, n] + order, dl[n := node][m := node])
  {
    var order', dl' := [m, n] + order, dl[n := node][m := node];
    assert node in roots' by {
      assert node in multiset(roots');
    }
    forall i | 0 <= i < |order'|
      ensures order'[i] < |dl'| && (dl'[order'[i]] in order'[..i] || dl'[order'[i]] in roots')
    {
      if i >= 2 {
        var x := order[i - 2];
        assert x in order && order'[i] == x;
        var d := dl[x];
        assert dl'[x] == d;
        assert order'[..i] == [m, n] + order[..i - 2];
        if d in roots && d !in order[..i - 2] {
          assert d in multiset([n, m] + rest);
          assert d == n || d == m || d in rest;
          if d in rest {
            assert d in multiset([node] + rest);
            assert d in roots';
          }
        }
      }
    }
  }

  /** One round of the combining loop keeps the forest. */
  lemma Merge(roots: seq<nat>, order: seq<nat>, dl: seq<nat>, tr: seq<Tree>, leaves: seq<nat>, elems: nat,
              roots': seq<nat>, n: nat, m: nat, rest: seq<nat>)
    requires Forest(roots, order, dl, tr, leaves, elems) && |tr| < |dl|
    requires Merging(roots, roots', n, m, |tr|, rest)
    ensures n != m && n < |tr| && m < |tr|
    ensures Forest(roots', [m, n] + order, dl[n := |tr|][m := |tr|], tr + [Node(|tr|, tr[n], tr[m])], leaves, elems)
  {
    hide Trees, Accounted, Planted, FathersFirst, Merging;
    MergeAccounted(roots, order, leaves, elems, |tr|, roots', n, m, rest);
    MergePlanted(roots, order, tr, roots', n, m, rest);
    TreesBound(order, dl, tr, elems);
    MergeTrees(order, dl, tr, elems, n, m);
    MergeFathers(roots, order, dl, roots', n, m, |tr|, rest);
  }

  lemma TreesBound(order: seq<nat>, dl: seq<nat>, tr: seq<Tree>, elems: nat)
    requires Trees(order, dl, tr, elems)
    ensures |tr| <= |dl|
  {
  }

  // ----- the finished tree

  /** The sons of every inner node name it as their father. */
  ghost predicate Fathered(t: Tree, dad: seq<nat>) {
    t.Node? ==>
      t.left.id < |dad| && t.right.id < |dad| && dad[t.left.id] == t.id && dad[t.right.id] == t.id
      && Fathered(t.left, dad) && Fathered(t.right, dad)
  }

  lemma {:induction false} TreeFathered(order: seq<nat>, dl: seq<nat>, tr: seq<Tree>, elems: nat, p: nat)
    requires Trees(order, dl, tr, elems) && p < |tr|
    ensures Fathered(tr[p], dl)
    decreases p
  {
    if tr[p].Node? {
      assert WellNumbered(tr[p], elems);
      assert Joined(p, order, dl, tr);
      TreeFathered(order, dl, tr, elems, tr[p].left.id);
      TreeFathered(order, dl, tr, elems, tr[p].right.id);
    }
  }

  /** The node list `full`, root first, is the tree `t` with fathers `dad`. */
  ghost predicate Built(full: seq<nat>, dad: seq<nat>, t: Tree, leaves: seq<nat>, elems: nat) {
    full != [] && full[0] == t.id && t.Node?
    && WellNumbered(t, elems) && Fathered(t, dad)
    && multiset(full) == multiset(Nodes(t))
    && Distinct(full)
    && (forall x :: x in leaves ==> x < elems)
    && elems <= t.id
    && multiset(full) == multiset(leaves) + multiset(Range(elems, t.id + 1))
    && (forall i :: 0 <= i < |full| ==> full[i] < |dad|)
    && (forall i :: 1 <= i < |full| ==> dad[full[i]] in full[..i])
  }

  lemma Finish(root: nat, order: seq<nat>, dl: seq<nat>, tr: seq<Tree>, leaves: seq<nat>, elems: nat)
    requires Forest([root], order, dl, tr, leaves, elems) && elems < |tr| && root + 1 == |tr|
    ensures Built([root] + order, dl, tr[root], leaves, elems)
  {
    hide Forest, WellNumbered, Fathered, Nodes, Range, Distinct;
    FinishNodes(root, order, dl, tr, leaves, elems);
    FinishOrder(root, order, dl, tr, leaves, elems);
    assert tr[root].Node? && tr[root].id == root && WellNumbered(tr[root], elems) && Fathered(tr[root], dl) by {
      FinishTree(root, order, dl, tr, leaves, elems);
    }
  }

  lemma FinishTree(root: nat, order: seq<nat>, dl: seq<nat>, tr: seq<Tree>, leaves: seq<nat>, elems: nat)
    requires Forest([root], order, dl, tr, leaves, elems) && elems < |tr| && root + 1 == |tr|
    ensures tr[root].Node? && tr[root].id == root && WellNumbered(tr[root], elems) && Fathered(tr[root], dl)
    ensures forall x :: x in leaves ==> x < elems
  {
    assert Joined(root, order, dl, tr);
    TreeFathered(order, dl, tr, elems, root);
  }

  lemma FinishNodes(root: nat, order: seq<nat>, dl: seq<nat>, tr: seq<Tree>, leaves: seq<nat>, elems: nat)
    requires Forest([root], order, dl, tr, leaves, elems) && elems < |tr| && root + 1 == |tr|
    ensures multiset([root] + order) == multiset(Nodes(tr[root])) && Distinct([root] + order)
    ensures multiset([root] + order) == multiset(leaves) + multiset(Range(elems, root + 1))
    ensures forall x :: x in leaves ==> x < elems
  {
    hide *;
    ForestParts([root], order, dl, tr, leaves, elems);
    FinishAccounted(root, order, leaves, elems);
    FinishPlanted(root, order, tr);
  }

  lemma ForestParts(roots: seq<nat>, order: seq<nat>, dl: seq<nat>, tr: seq<Tree>, leaves: seq<nat>, elems: nat)
    requires Forest(roots, order, dl, tr, leaves, elems)
    ensures Accounted(roots, order, leaves, elems, |tr|) && Planted(roots, order, tr) && |tr| <= |dl|
    ensures forall x :: x in leaves ==> x < elems
  {
  }

  lemma FinishPlanted(root: nat, order: seq<nat>, tr: seq<Tree>)
    requires Planted([root], order, tr) && root < |tr|
    ensures multiset([root] + order) == multiset(Nodes(tr[root]))
  {
    hide Nodes;
    assert multiset([root] + order) == multiset([root]) + multiset(order);
    forall x: nat ensures multiset([root] + order)[x] == multiset(Nodes(tr[root]))[x] {
      SumOne(root, Occurs(tr, x));
    }
  }

  lemma FinishAccounted(root: nat, order: seq<nat>, leaves: seq<nat>, elems: nat)
    requires Accounted([root], order, leaves, elems, root + 1) && elems <= root
    ensures Distinct([root] + order)
    ensures multiset([root] + order) == multiset(leaves) + multiset(Range(elems, root + 1))
  {
    hide Range;
    AccountedOnce([root], order, leaves, elems, root + 1);
    var full: seq<nat> := [root] + order;
    assert multiset(full) == multiset([root]) + multiset(order);
    DistinctMultiset(full);
  }

  lemma FinishOrder(root: nat, order: seq<nat>, dl: seq<nat>, tr: seq<Tree>, leaves: seq<nat>, elems: nat)
    requires Forest([root], order, dl, tr, leaves, elems) && elems < |tr| && root + 1 == |tr|
    ensures var full := [root] + order;
            (forall i :: 0 <= i < |full| ==> full[i] < |dl|)
            && (forall i :: 1 <= i < |full| ==> dl[full[i]] in full[..i])
  {
    hide WellNumbered, Joined;
    var full: seq<nat> := [root] + order;
    forall i | 1 <= i < |full| ensures full[i] < |dl| && dl[full[i]] in full[..i] {
      var x := order[i - 1];
      assert x == full[i];
      assert full[..i] == [root] + order[..i - 1];
      assert dl[x] in order[..i - 1] || dl[x] in [root];
    }
  }

  // ----- depths

  function Min(a: nat, b: nat): nat {
    if a < b then a else b
  }

  /** Every node has its depth, cut at `L`. */
  ghost predicate Depths(t: Tree, d: nat, len: seq<nat>, L: nat) {
    t.id < |len| && len[t.id] == Min(d, L)
    && (t.Node? ==> Depths(t.left, d + 1, len, L) && Depths(t.right, d + 1, len, L))
  }

  /** What the first loop of gen_bitlen computes: father's length plus one, cut at `L`. */
  ghost predicate LensFrom(full: seq<nat>, dad: seq<nat>, len: seq<nat>, L: nat) {
    full != [] && full[0] < |len| && len[full[0]] == 0
    && forall x :: x in full[1..] ==> x < |len| && x < |dad| && dad[x] < |len| && len[x] == Min(len[dad[x]] + 1, L)
  }

  lemma {:induction false} NodesMembers(t: Tree)
    ensures t.id in Nodes(t)
    ensures t.Node? ==> forall x :: x in Nodes(t.left) || x in Nodes(t.right) ==> x in Nodes(t)
  {
  }

  lemma {:induction false} DepthsFrom(t: Tree, d: nat, full: seq<nat>, dad: seq<nat>, len: seq<nat>, L: nat, elems: nat)
    requires LensFrom(full, dad, len, L) && WellNumbered(t, elems) && Fathered(t, dad)
    requires t.id <= full[0] && t.id < |len| && len[t.id] == Min(d, L)
    requires forall x :: x in Nodes(t) ==> x in full
    ensures Depths(t, d, len, L)
    decreases t
  {
    if t.Node? {
      NodesMembers(t);
      NodesMembers(t.left);
      NodesMembers(t.right);
      SonLen(t, t.left, d, full, dad, len, L);
      SonLen(t, t.right, d, full, dad, len, L);
      DepthsFrom(t.left, d + 1, full, dad, len, L, elems);
      DepthsFrom(t.right, d + 1, full, dad, len, L, elems);
    }
  }

  lemma SonLen(t: Tree, s: Tree, d: nat, full: seq<nat>, dad: seq<nat>, len: seq<nat>, L: nat)
    requires LensFrom(full, dad, len, L) && t.id <= full[0] && t.id < |len| && len[t.id] == Min(d, L)
    requires s.id < t.id && s.id < |dad| && dad[s.id] == t.id && s.id in full
    ensures s.id < |len| && len[s.id] == Min(d + 1, L)
  {
    var i :| 0 <= i < |full| && full[i] == s.id;
    assert full[1..][i - 1] == s.id;
  }

  lemma BuiltDepths(full: seq<nat>, dad: seq<nat>, t: Tree, leaves: seq<nat>, elems: nat, len: seq<nat>, L: nat)
    requires Built(full, dad, t, leaves, elems) && LensFrom(full, dad, len, L)
    ensures Depths(t, 0, len, L)
  {
    forall x | x in Nodes(t) ensures x in full {
      assert x in multiset(Nodes(t));
    }
    DepthsFrom(t, 0, full, dad, len, L, elems);
  }

  // ----- the Kraft sum and the overflow

  ghost function KraftAt(len: seq<nat>, L: nat, elems: nat): nat -> int {
    (x: nat) => if x < elems && x < |len| && 0 < len[x] <= L then Pow2(L - len[x]) else 0
  }

  /** Inner nodes that sit at the length limit. */
  ghost function CappedAt(len: seq<nat>, L: nat, elems: nat): nat -> int {
    (x: nat) => if x >= elems && x < |len| && len[x] == L then 1 else 0
  }

  ghost function LenIs(len: seq<nat>, b: nat, elems: nat): nat -> int {
    (x: nat) => if x < elems && x < |len| && len[x] == b then 1 else 0
  }

  /** Nodes whose true depth exceeds the limit. */
  ghost function OverflowAt(len: seq<nat>, dad: seq<nat>, L: nat): nat -> int {
    (x: nat) => if x < |dad| && dad[x] < |len| && len[dad[x]] + 1 > L then 1 else 0
  }

  lemma SumNode(t: Tree, f: nat -> int)
    requires t.Node?
    ensures Sum(Nodes(t), f) == f(t.id) + Sum(Nodes(t.left), f) + Sum(Nodes(t.right), f)
  {
    SumConcat([t.id], Nodes(t.left) + Nodes(t.right), f);
    SumConcat(Nodes(t.left), Nodes(t.right), f);
    SumOne(t.id, f);
  }

  /** Cutting depths at L adds 2^-L to the Kraft sum for every inner node at the limit. */
  lemma {:induction false} KraftTree(t: Tree, d: nat, len: seq<nat>, L: nat, elems: nat)
    requires WellNumbered(t, elems) && Depths(t, d, len, L) && L > 0 && (d > 0 || t.Node?)
    ensures Sum(Nodes(t), KraftAt(len, L, elems))
         == Pow2(L - Min(d, L)) + Sum(Nodes(t), CappedAt(len, L, elems))
    decreases t
  {
    var f, g := KraftAt(len, L, elems), CappedAt(len, L, elems);
    if t.Leaf? {
      SumOne(t.id, f);
      SumOne(t.id, g);
    } else {
      SumNode(t, f);
      SumNode(t, g);
      KraftTree(t.left, d + 1, len, L, elems);
      KraftTree(t.right, d + 1, len, L, elems);
    }
  }

  /** Nodes below the limit come in pairs, two for every inner node at the limit. */
  lemma {:induction false} OverflowTree(t: Tree, d: nat, len: seq<nat>, dad: seq<nat>, L: nat, elems: nat)
    requires WellNumbered(t, elems) && Depths(t, d, len, L) && Fathered(t, dad)
    ensures Sum(Nodes(t), OverflowAt(len, dad, L))
         == OverflowAt(len, dad, L)(t.id) + 2 * Sum(Nodes(t), CappedAt(len, L, elems))
    decreases t
  {
    var f, g := OverflowAt(len, dad, L), CappedAt(len, L, elems);
    if t.Leaf? {
      SumOne(t.id, f);
      SumOne(t.id, g);
    } else {
      SumNode(t, f);
      SumNode(t, g);
      OverflowTree(t.left, d + 1, len, dad, L, elems);
      OverflowTree(t.right, d + 1, len, dad, L, elems);
    }
  }

  /** More symbols than inner nodes sit at the limit. */
  lemma {:induction false} CappedLeaves(t: Tree, d: nat, len: seq<nat>, L: nat, elems: nat)
    requires WellNumbered(t, elems) && Depths(t, d, len, L)
    ensures Sum(Nodes(t), LenIs(len, L, elems))
         >= Sum(Nodes(t), CappedAt(len, L, elems)) + (if d >= L then 1 else 0)
    ensures Sum(Nodes(t), CappedAt(len, L, elems)) >= 0
    ensures Sum(Nodes(t), CappedAt(len, L, elems)) > 0 ==>
              Sum(Nodes(t), LenIs(len, L, elems)) > Sum(Nodes(t), CappedAt(len, L, elems))
    decreases t
  {
    var f, g := LenIs(len, L, elems), CappedAt(len, L, elems);
    if t.Leaf? {
      SumOne(t.id, f);
      SumOne(t.id, g);
    } else {
      SumNode(t, f);
      SumNode(t, g);
      CappedLeaves(t.left, d + 1, len, L, elems);
      CappedLeaves(t.right, d + 1, len, L, elems);
    }
  }

  function Height(t: Tree): nat {
    match t
    case Leaf(_) => 0
    case Node(_, l, r) => 1 + if Height(l) < Height(r) then Height(r) else Height(l)
  }

  /** A tree no higher than the limit has no inner node at the limit. */
  lemma {:induction false} LowTree(t: Tree, d: nat, len: seq<nat>, L: nat, elems: nat)
    requires WellNumbered(t, elems) && Depths(t, d, len, L) && d + Height(t) <= L
    ensures Sum(Nodes(t), CappedAt(len, L, elems)) == 0
    decreases t
  {
    if t.Leaf? {
      SumOne(t.id, CappedAt(len, L, elems));
    } else {
      SumNode(t, CappedAt(len, L, elems));
      LowTree(t.left, d + 1, len, L, elems);
      LowTree(t.right, d + 1, len, L, elems);
    }
  }

  /** A higher tree has one. */
  lemma {:induction false} HighTree(t: Tree, d: nat, len: seq<nat>, L: nat, elems: nat)
    requires WellNumbered(t, elems) && Depths(t, d, len, L) && d <= L < d + Height(t)
    ensures Sum(Nodes(t), CappedAt(len, L, elems)) > 0
    decreases t
  {
    var g := CappedAt(len, L, elems);
    SumNode(t, g);
    SumNonNegative(Nodes(t.left), g);
    SumNonNegative(Nodes(t.right), g);
    if d < L {
      if Height(t.left) < Height(t.right) {
        HighTree(t.right, d + 1, len, L, elems);
      } else {
        HighTree(t.left, d + 1, len, L, elems);
      }
    }
  }
}
