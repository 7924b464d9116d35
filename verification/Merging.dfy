/**
 The merging half of Huffman's algorithm with two queues, as `tdefl_calculate_minimum_redundancy`
 (miniz.c) does it: frequencies in one queue, merged weights in the other, both in order.
 */
module Merging {
  function Sum(s: seq<nat>): nat
  {
    if s == [] then 0 else s[0] + Sum(s[1..])
  }

  function Fib(n: nat): nat
  {
    if n < 2 then n else Fib(n - 1) + Fib(n - 2)
  }

  lemma {:induction false} SumAppend(s: seq<nat>, x: nat)
    ensures Sum(s + [x]) == Sum(s) + x
  {
    if s != [] {
      SumAppend(s[1..], x);
      assert (s + [x])[1..] == s[1..] + [x];
    }
  }

  // ---------------------------------------------------------------- the tree of internal nodes

  /** Parents of internal nodes `0 .. |p|`; node `|p|` is the root. Children are queued in order, two each. */
  ghost predicate Forest(p: seq<nat>)
  {
    && (forall k :: 0 <= k < |p| ==> k < p[k] <= |p|)
    && Queued(p)
  }

  ghost predicate Queued(p: seq<nat>)
  {
    && (forall k, l :: 0 <= k < l < |p| ==> p[k] <= p[l])
    && (forall k, l {:trigger p[k], p[l]} :: 0 <= k && k + 2 <= l < |p| ==> p[k] < p[l])
  }

  ghost function Depth(p: seq<nat>, k: nat): (d: nat)
    requires Forest(p) && k <= |p|
    ensures d <= |p| - k
    decreases |p| - k
  {
    if k == |p| then 0 else 1 + Depth(p, p[k])
  }

  lemma {:induction false} DepthMono(p: seq<nat>, k: nat, l: nat)
    requires Forest(p) && k <= l <= |p|
    ensures Depth(p, l) <= Depth(p, k)
    decreases |p| - k
  {
    if k < l < |p| {
      DepthMono(p, p[k], p[l]);
    }
  }

  /** No more than two children of one node: `m` nodes in a row have parents at least `(m - 1) / 2` apart. */
  lemma {:induction false} ParentSpread(p: seq<nat>, lo: nat, hi: nat)
    requires Queued(p) && lo <= hi < |p|
    ensures p[hi] >= p[lo] + (hi - lo) / 2
    decreases hi - lo
  {
    if hi - lo >= 2 {
      ParentSpread(p, lo, hi - 2);
      assert p[hi - 2] < p[hi];
    }
  }

  // ---------------------------------------------------------------- phase one: merging

  /** Weights `w` and heavier children `b` of the merged nodes make the tree Fibonacci-balanced. */
  ghost predicate Weighted(w: seq<nat>, b: seq<nat>, p: seq<nat>)
  {
    && |w| == |b| >= |p|
    && (forall k :: 0 <= k < |w| ==> 1 <= b[k] && b[k] < w[k] <= 2 * b[k])
    && (forall k :: 0 <= k < |p| ==> k < p[k] < |w| && w[p[k]] >= w[k] + b[k] && b[p[k]] >= w[k])
  }

  /**
   The two queues while merging. `w[root..]` are the merged weights and `leaves[leaf..]` the
   frequencies still pending; `p` links the nodes `0 .. root` already consumed to their parents, and
   `ls[j]` says how many leaves had been consumed before node `j` was made.
   */
  datatype Queues = Queues(leaves: seq<nat>, root: nat, leaf: nat, w: seq<nat>, b: seq<nat>, p: seq<nat>, ls: seq<nat>)
  {
    ghost predicate Shape()
    {
      |p| == root <= |w| == |b| && leaf <= |leaves|
    }

    ghost predicate FromRoot()
      requires Shape()
    {
      leaf >= |leaves| || (root < |w| && w[root] < leaves[leaf])
    }

    ghost predicate Empty()
    {
      root == |w| && leaf == |leaves|
    }

    /** The least pending weight. */
    ghost function Front(): nat
      requires Shape() && !Empty()
    {
      if FromRoot() then w[root] else leaves[leaf]
    }

    ghost function Take(): (q: Queues)
      requires Shape() && !Empty()
      ensures q.Shape() && q.w == w && q.b == b && q.leaves == leaves && q.ls == ls
      ensures q.root + q.leaf == root + leaf + 1
    {
      if FromRoot() then this.(root := root + 1, p := p + [|w|]) else this.(leaf := leaf + 1)
    }

    /** Two fronts leave the queues and their sum joins the merged weights. */
    ghost function Merge(): (q: Queues)
      requires Shape() && !Empty() && !Take().Empty()
    {
      var q := Take().Take();
      q.(w := w + [Front() + Take().Front()], b := b + [Take().Front()], ls := ls + [q.leaf])
    }

    ghost function Pending(): nat
      requires Shape()
    {
      Sum(w[root..]) + Sum(leaves[leaf..])
    }

    ghost predicate Ordered()
    {
      && Shape() && |w| > 0
      && Ascending(w) && Ascending(b) && Ascending(leaves)
      && (root < |w| ==> b[|w| - 1] <= w[root])
      && (leaf < |leaves| ==> b[|w| - 1] <= leaves[leaf])
    }

    ghost predicate Valid()
    {
      Ordered() && Weighted(w, b, p) && Queued(p)
    }
  }

  ghost predicate Ascending(s: seq<nat>)
  {
    forall k, l :: 0 <= k < l < |s| ==> s[k] <= s[l]
  }

  lemma AscendingAppend(s: seq<nat>, x: nat)
    requires Ascending(s) && (|s| > 0 ==> s[|s| - 1] <= x)
    ensures Ascending(s + [x])
  {
  }

  /** Taking a front removes a least pending weight. */
  lemma TakeLeast(q: Queues)
    requires q.Shape() && !q.Empty() && Ascending(q.w) && Ascending(q.leaves)
    ensures q.Pending() == q.Front() + q.Take().Pending()
    ensures !q.Take().Empty() ==> q.Front() <= q.Take().Front()
    ensures q.Take().root < |q.w| ==> q.Front() <= q.w[q.Take().root]
    ensures q.Take().leaf < |q.leaves| ==> q.Front() <= q.leaves[q.Take().leaf]
  {
  }

  lemma MergePending(q: Queues)
    requires q.Ordered() && !q.Empty() && !q.Take().Empty()
    ensures q.Merge().Pending() == q.Pending()
    ensures q.Front() + q.Take().Front() <= q.Pending()
  {
    OrderedQueues(q);
    hide *;
    TakeLeast(q);
    TakeLeast(q.Take());
    MergeSum(q);
  }

  lemma MergeSum(q: Queues)
    requires q.Shape() && !q.Empty() && !q.Take().Empty()
    ensures q.Merge().Shape()
    ensures q.Merge().Pending() == q.Take().Take().Pending() + q.Front() + q.Take().Front()
  {
    hide Queues.FromRoot, Queues.Front, Queues.Take, Queues.Empty, Sum;
    var q2, x := q.Take().Take(), q.Front() + q.Take().Front();
    assert (q2.w + [x])[q2.root..] == q2.w[q2.root..] + [x];
    SumAppend(q2.w[q2.root..], x);
  }

  lemma OrderedQueues(q: Queues)
    requires q.Ordered()
    ensures q.Shape() && Ascending(q.w) && Ascending(q.leaves)
  {
  }

  lemma MergeFronts(q: Queues)
    requires q.Ordered() && !q.Empty() && !q.Take().Empty()
    ensures q.b[|q.w| - 1] <= q.Front() <= q.Take().Front()
    ensures var q' := q.Merge(); var x2 := q.Take().Front();
      && (q'.root < |q.w| ==> x2 <= q.w[q'.root]) && (q'.leaf < |q.leaves| ==> x2 <= q.leaves[q'.leaf])
  {
    TakeLeast(q);
    TakeLeast(q.Take());
  }

  lemma MergeOrdered(q: Queues)
    requires q.Ordered() && !q.Empty() && !q.Take().Empty()
    requires q.w[|q.w| - 1] <= 2 * q.b[|q.w| - 1]
    ensures q.Merge().Ordered()
  {
    MergeFronts(q);
    AscendingAppend(q.w, q.Front() + q.Take().Front());
    AscendingAppend(q.b, q.Take().Front());
    hide Ascending, Queues.Front, Queues.Take;
  }

  lemma MergeTree(q: Queues)
    requires q.Valid() && !q.Empty() && !q.Take().Empty()
    ensures Weighted(q.Merge().w, q.Merge().b, q.Merge().p) && Queued(q.Merge().p)
  {
    assert forall k :: 0 <= k < |q.p| ==> q.p[k] < |q.w|;
    LinksGrow(q);
    MergeFronts(q);
    var p', x1, x2 := q.Merge().p, q.Front(), q.Take().Front();
    assert q.Merge().w == q.w + [x1 + x2] && q.Merge().b == q.b + [x2] && |p'| <= |q.w|;
    hide *;
    QueuedGrows(q.p, p', |q.w|);
    WeightedGrows(q.w, q.b, q.p, p', x1, x2);
  }

  /** Merging keeps the queues in order and the tree Fibonacci-balanced. */
  lemma MergeValid(q: Queues)
    requires q.Valid() && !q.Empty() && !q.Take().Empty()
    ensures q.Merge().Valid() && q.Merge().Pending() == q.Pending()
  {
    assert q.w[|q.w| - 1] <= 2 * q.b[|q.w| - 1];
    hide Ascending, Queued, Weighted, Queues.Front, Queues.Take, Queues.Pending;
    MergePending(q);
    MergeOrdered(q);
    MergeTree(q);
  }

  lemma LinksGrow(q: Queues)
    requires q.Shape() && !q.Empty() && !q.Take().Empty()
    ensures |q.p| <= |q.Merge().p| <= |q.p| + 2 && q.p <= q.Merge().p
    ensures forall k :: |q.p| <= k < |q.Merge().p| ==> q.Merge().p[k] == |q.w|
    ensures |q.Merge().p| == |q.p| + 1 ==> |q.p| < |q.w| && (q.w[|q.p|] == q.Front() || q.w[|q.p|] == q.Take().Front())
    ensures |q.Merge().p| == |q.p| + 2 ==> |q.p| + 1 < |q.w| && q.w[|q.p|] == q.Front() && q.w[|q.p| + 1] == q.Take().Front()
  {
  }

  lemma QueuedGrows(p: seq<nat>, p': seq<nat>, next: nat)
    requires Queued(p) && forall k :: 0 <= k < |p| ==> p[k] < next
    requires p <= p' && |p'| <= |p| + 2 && forall k :: |p| <= k < |p'| ==> p'[k] == next
    ensures Queued(p')
  {
  }

  lemma WeightedGrows(w: seq<nat>, b: seq<nat>, p: seq<nat>, p': seq<nat>, x1: nat, x2: nat)
    requires Weighted(w, b, p) && |w| > 0 && Ascending(b) && b[|w| - 1] <= x1 <= x2
    requires p <= p' && |p| <= |p'| <= |p| + 2 && |p'| <= |w| && forall k :: |p| <= k < |p'| ==> p'[k] == |w|
    requires |p'| >= |p| + 1 ==> w[|p|] == x1 || w[|p|] == x2
    requires |p'| == |p| + 2 ==> w[|p|] == x1 && w[|p| + 1] == x2
    ensures Weighted(w + [x1 + x2], b + [x2], p')
  {
    var w', b' := w + [x1 + x2], b + [x2];
    forall k | 0 <= k < |p'|
      ensures k < p'[k] < |w'| && w'[p'[k]] >= w'[k] + b'[k] && b'[p'[k]] >= w'[k]
    {
      if k < |p| {
        assert p'[k] == p[k];
      } else {
        assert b[k] <= b[|w| - 1];
      }
    }
  }

  lemma {:induction false} Climb(w: seq<nat>, b: seq<nat>, p: seq<nat>, k: nat, j: nat)
    requires Weighted(w, b, p) && |w| == |p| + 1 && Forest(p) && k <= |p|
    requires w[k] >= Fib(j + 3) && b[k] >= Fib(j + 2)
    ensures w[|p|] >= Fib(j + Depth(p, k) + 3)
    decreases |p| - k
  {
    if k < |p| {
      assert w[p[k]] >= Fib(j + 4) && b[p[k]] >= Fib(j + 3);
      Climb(w, b, p, p[k], j + 1);
    }
  }

  lemma {:induction false} FibMono(m: nat, n: nat)
    requires m <= n
    ensures Fib(m) <= Fib(n)
  {
    if m < n {
      FibMono(m, n - 1);
    }
  }

  lemma Fib25()
    ensures Fib(25) == 75025
  {
    assert Fib(5) == 5 && Fib(6) == 8;
    assert Fib(10) == 55 && Fib(11) == 89;
    assert Fib(15) == 610 && Fib(16) == 987;
    assert Fib(20) == 6765 && Fib(21) == 10946;
  }

  lemma FirstWeight(w: seq<nat>, b: seq<nat>, p: seq<nat>)
    requires Weighted(w, b, p) && |w| > 0
    ensures |b| > 0 && w[0] >= Fib(3) && b[0] >= Fib(2)
  {
    assert Fib(3) == 2 && Fib(2) == 1;
  }

  /** A tree of total weight below 2^16 keeps every leaf within depth 22. */
  lemma DepthBound(w: seq<nat>, b: seq<nat>, p: seq<nat>)
    requires Weighted(w, b, p) && |w| == |p| + 1 && Forest(p) && w[|p|] < 0x1_0000
    ensures Depth(p, 0) <= 21
  {
    hide *;
    FirstWeight(w, b, p);
    Climb(w, b, p, 0, 0);
    if Depth(p, 0) >= 22 {
      FibMono(25, Depth(p, 0) + 3);
      Fib25();
    }
  }

  // ---------------------------------------------------------------- beginning and end

  ghost function Start(leaves: seq<nat>): Queues
    requires |leaves| >= 2
  {
    Queues(leaves, 0, 2, [leaves[0] + leaves[1]], [leaves[1]], [], [0, 2])
  }

  lemma StartValid(leaves: seq<nat>)
    requires |leaves| >= 2 && leaves[0] >= 1 && Ascending(leaves)
    ensures Start(leaves).Valid() && Start(leaves).Pending() == Sum(leaves)
    ensures leaves[0] + leaves[1] <= Sum(leaves)
  {
    assert leaves[1..][1..] == leaves[2..];
    assert [leaves[0] + leaves[1]][1..] == [];
  }

  /** All merged: one tree is left and its weight is the total. */
  lemma AllMerged(q: Queues)
    requires q.Valid() && |q.w| == |q.leaves| - 1 == q.root + 1 && q.leaf == |q.leaves|
    ensures Forest(q.p) && q.w[|q.p|] == q.Pending()
  {
    assert q.w[q.root..] == [q.w[q.root]];
    assert [q.w[q.root]][1..] == [];
    assert q.leaves[q.leaf..] == [];
  }

  // ---------------------------------------------------------------- what was merged into what

  /** How many merged nodes had been consumed before node `j` was made. */
  function Nodes(ls: seq<nat>, j: nat): int
    requires j < |ls|
  {
    2 * j - ls[j]
  }

  /** Node `j` is the sum of two things: leaves `ls[j] .. ls[j + 1]` and nodes `Nodes(j) .. Nodes(j + 1)`. */
  ghost predicate Made(q: Queues, j: nat)
  {
    && |q.ls| == |q.w| + 1 == |q.b| + 1 && j < |q.w|
    && q.ls[j] <= q.ls[j + 1] <= |q.leaves| && 0 <= Nodes(q.ls, j) <= Nodes(q.ls, j + 1) <= j && Nodes(q.ls, j + 1) <= |q.p|
    && q.w[j] == Sum(q.leaves[q.ls[j]..q.ls[j + 1]]) + Sum(q.w[Nodes(q.ls, j)..Nodes(q.ls, j + 1)])
    && (forall k :: Nodes(q.ls, j) <= k < Nodes(q.ls, j + 1) ==> q.p[k] == j)
    && (forall k :: q.ls[j] <= k < q.ls[j + 1] ==> q.leaves[k] <= q.b[j])
  }

  ghost predicate Traced(q: Queues)
  {
    && q.Shape() && |q.ls| == |q.w| + 1 && q.ls[0] == 0 && q.ls[|q.w|] == q.leaf && q.root + q.leaf == 2 * |q.w|
    && forall j :: 0 <= j < |q.w| ==> Made(q, j)
  }

  lemma MadeStays(q: Queues, r: Queues, j: nat)
    requires Made(q, j) && r.leaves == q.leaves && q.w <= r.w && q.b <= r.b && q.p <= r.p && q.ls <= r.ls
    requires |r.ls| == |r.w| + 1 == |r.b| + 1
    ensures Made(r, j)
  {
    assert r.w[Nodes(q.ls, j)..Nodes(q.ls, j + 1)] == q.w[Nodes(q.ls, j)..Nodes(q.ls, j + 1)];
  }

  /** The four ways in which two fronts can be taken. */
  lemma TwoTaken(q: Queues)
    requires q.Shape() && !q.Empty() && !q.Take().Empty() && q.root <= |q.w|
    ensures var r := q.Take().Take(); var x := q.Front() + q.Take().Front();
      && q.leaf <= r.leaf <= |q.leaves| && q.root <= r.root <= |q.w| && q.p <= r.p && |r.p| == r.root
      && x == Sum(q.leaves[q.leaf..r.leaf]) + Sum(q.w[q.root..r.root])
      && (forall k :: q.root <= k < r.root ==> r.p[k] == |q.w|)
      && (forall k :: q.leaf <= k < r.leaf ==> q.leaves[k] == q.Front() || q.leaves[k] == q.Take().Front())
  {
    hide Sum;
    SumFew(q.leaves, q.leaf);
    SumFew(q.w, q.root);
  }

  lemma SumFew(s: seq<nat>, i: nat)
    requires i <= |s|
    ensures Sum(s[i..i]) == 0
    ensures i + 1 <= |s| ==> Sum(s[i..i + 1]) == s[i]
    ensures i + 2 <= |s| ==> Sum(s[i..i + 2]) == s[i] + s[i + 1]
  {
    if i + 1 <= |s| {
      assert s[i..i + 1] == [s[i]] && [s[i]][1..] == [];
    }
    if i + 2 <= |s| {
      assert s[i..i + 2] == [s[i], s[i + 1]] && [s[i], s[i + 1]][1..] == [s[i + 1]] && [s[i + 1]][1..] == [];
    }
  }

  /** The node just made. */
  lemma NewMade(q: Queues, r: Queues, x1: nat, x2: nat)
    requires q.Shape() && |q.ls| == |q.w| + 1 == |q.b| + 1 && q.ls[|q.w|] == q.leaf && q.root + q.leaf == 2 * |q.w|
    requires r.w == q.w + [x1 + x2] && r.b == q.b + [x2] && r.leaves == q.leaves && r.ls == q.ls + [r.leaf] && x1 <= x2
    requires q.leaf <= r.leaf <= |q.leaves| && q.root <= r.root <= |q.w| && |r.p| == r.root && r.root + r.leaf == 2 * |r.w|
    requires x1 + x2 == Sum(q.leaves[q.leaf..r.leaf]) + Sum(q.w[q.root..r.root])
    requires forall k :: q.root <= k < r.root ==> r.p[k] == |q.w|
    requires forall k :: q.leaf <= k < r.leaf ==> q.leaves[k] <= x2
    ensures Made(r, |q.w|)
  {
    assert r.w[q.root..r.root] == q.w[q.root..r.root];
  }

  lemma AllMade(q: Queues, r: Queues)
    requires Traced(q) && r.Shape() && |r.w| == |q.w| + 1 && r.leaves == q.leaves && q.w <= r.w && q.b <= r.b && q.p <= r.p
    requires r.ls == q.ls + [r.leaf] && r.root + r.leaf == 2 * |r.w| && Made(r, |q.w|)
    ensures Traced(r)
  {
    hide Made;
    forall j | 0 <= j < |r.w|
      ensures Made(r, j)
    {
      if j < |q.w| {
        assert Made(q, j);
        MadeStays(q, r, j);
      }
    }
  }

  lemma MergeShape(q: Queues)
    requires q.Ordered() && !q.Empty() && !q.Take().Empty()
    ensures var r := q.Merge();
      && r.Shape() && r.w == q.w + [q.Front() + q.Take().Front()] && r.b == q.b + [q.Take().Front()] && r.leaves == q.leaves
      && r.ls == q.ls + [r.leaf] && r.root + r.leaf == q.root + q.leaf + 2 && q.root <= |q.w|
      && r.p == q.Take().Take().p && r.root == q.Take().Take().root && r.leaf == q.Take().Take().leaf
  {
  }

  lemma MergeTraced(q: Queues)
    requires q.Ordered() && Traced(q) && !q.Empty() && !q.Take().Empty()
    ensures Traced(q.Merge())
  {
    hide Queues.FromRoot, Queues.Front, Queues.Take, Queues.Merge, Queues.Empty, Sum, Made, Ascending;
    MergeShape(q);
    TwoTaken(q);
    MergeFronts(q);
    NewMade(q, q.Merge(), q.Front(), q.Take().Front());
    AllMade(q, q.Merge());
  }

  lemma StartTraced(leaves: seq<nat>)
    requires |leaves| >= 2 && Ascending(leaves)
    ensures Traced(Start(leaves))
  {
    var q := Start(leaves);
    SumFew(leaves, 0);
    SumFew(q.w, 0);
    assert Made(q, 0);
  }
}
