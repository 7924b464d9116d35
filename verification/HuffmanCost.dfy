/**
 What the merging achieves: the merged weights add up to the cost of the code that the depths of the
 leaves make, no code that Kraft's inequality allows costs less, and a leaf deep down is light.
 */
module HuffmanCost {
  import opened Bits
  import opened Merging
  import opened PrefixCost

  // ---------------------------------------------------------------- no code costs less

  /** All that is still to be merged. */
  ghost function Open(q: Queues): seq<nat>
    requires q.Shape()
  {
    q.w[q.root..] + q.leaves[q.leaf..]
  }

  ghost predicate Codes(q: Queues, t: seq<nat>, m: nat)
    requires q.Shape()
  {
    |t| == |Open(q)| && Feasible(t, m)
  }

  /** `s` leads to a code for what is still open that saves all the weights merged so far. */
  ghost predicate Saves(q: Queues, m: nat, s: seq<nat>)
    requires q.Shape() && |s| == |q.leaves|
  {
    exists t :: Codes(q, t, m) && Cost(Open(q), t) + Sum(q.w) <= Cost(q.leaves, s)
  }

  /** No code for the leaves costs less than the merging so far and the best way to go on. */
  ghost predicate Beats(q: Queues, m: nat)
    requires q.Shape()
  {
    forall s :: |s| == |q.leaves| && Feasible(s, m) ==> Saves(q, m, s)
  }

  /** Place of the least weight in what is open. */
  ghost function Place(q: Queues): nat
    requires q.Shape() && !q.Empty()
  {
    if q.FromRoot() then 0 else |q.w| - q.root
  }

  lemma TakeIsRemove(q: Queues)
    requires q.Shape() && !q.Empty() && Ascending(q.w) && Ascending(q.leaves)
    ensures Place(q) < |Open(q)| && Open(q)[Place(q)] == q.Front() && Open(q.Take()) == Remove(Open(q), Place(q))
    ensures forall k :: 0 <= k < |Open(q)| ==> q.Front() <= Open(q)[k]
  {
    if q.FromRoot() {
      assert Open(q.Take()) == q.w[q.root + 1..] + q.leaves[q.leaf..];
    } else {
      assert Open(q.Take()) == q.w[q.root..] + q.leaves[q.leaf + 1..];
    }
  }

  lemma OpenMerged(w: seq<nat>, leaves: seq<nat>, root: nat, leaf: nat, x: nat)
    requires root <= |w| && leaf <= |leaves|
    ensures (w + [x])[root..] + leaves[leaf..] == Insert(w[root..] + leaves[leaf..], |w| - root, x)
  {
    var s := w[root..] + leaves[leaf..];
    assert (w + [x])[root..] == w[root..] + [x];
    assert s[..|w| - root] == w[root..] && s[|w| - root..] == leaves[leaf..];
  }

  lemma MergeIs(q: Queues)
    requires q.Shape() && !q.Empty() && !q.Take().Empty()
    ensures var r, x := q.Take().Take(), q.Front() + q.Take().Front();
      && q.Merge().Shape() && q.Merge().w == q.w + [x] && q.Merge().leaves == q.leaves && q.Merge().root == r.root && q.Merge().leaf == r.leaf
      && r.w == q.w && r.leaves == q.leaves && r.root <= |q.w| && r.leaf <= |q.leaves|
  {
  }

  lemma MergeIsMerged(q: Queues)
    requires q.Shape() && !q.Empty() && !q.Take().Empty() && Ascending(q.w) && Ascending(q.leaves)
    ensures var r := q.Take().Take(); var pos := |q.w| - r.root;
      && |Open(q)| >= 2 && Place(q.Take()) < |Open(q)| - 1 && 0 <= pos <= |Open(q)| - 2
      && q.Merge().Shape() && Open(q.Merge()) == Merged(Open(q), Place(q), Place(q.Take()), pos)
      && q.Merge().w == q.w + [q.Front() + q.Take().Front()] && q.Merge().leaves == q.leaves
  {
    hide Queues.Front, Queues.Take, Queues.FromRoot, Queues.Merge, Queues.Empty, Remove, Insert, Place, Ascending;
    TakeIsRemove(q);
    TakeIsRemove(q.Take());
    MergeIs(q);
    var r, x := q.Take().Take(), q.Front() + q.Take().Front();
    OpenMerged(q.w, q.leaves, r.root, r.leaf, x);
  }

  lemma Saver(q: Queues, m: nat, s: seq<nat>) returns (t: seq<nat>)
    requires q.Shape() && |s| == |q.leaves| && Saves(q, m, s)
    ensures |t| == |Open(q)| && Feasible(t, m) && Cost(Open(q), t) + Sum(q.w) <= Cost(q.leaves, s)
  {
    t :| Codes(q, t, m) && Cost(Open(q), t) + Sum(q.w) <= Cost(q.leaves, s);
  }

  lemma BeSaved(q: Queues, m: nat, s: seq<nat>, t: seq<nat>)
    requires q.Shape() && |s| == |q.leaves| && |t| == |Open(q)| && Feasible(t, m) && Cost(Open(q), t) + Sum(q.w) <= Cost(q.leaves, s)
    ensures Saves(q, m, s)
  {
    assert Codes(q, t, m);
  }

  lemma MergeSaves(q: Queues, m: nat, s: seq<nat>)
    requires q.Shape() && !q.Empty() && !q.Take().Empty() && Ascending(q.w) && Ascending(q.leaves)
    requires |s| == |q.leaves| && Saves(q, m, s)
    ensures q.Merge().Shape() && q.Merge().leaves == q.leaves && Saves(q.Merge(), m, s)
  {
    hide *;
    MergeIs(q);
    MergeIsMerged(q);
    TakeIsRemove(q);
    TakeIsRemove(q.Take());
    var t := Saver(q, m, s);
    var u := MergeCheaper(Open(q), t, m, Place(q), Place(q.Take()), |q.w| - q.Take().Take().root);
    SumAppend(q.w, q.Front() + q.Take().Front());
    BeSaved(q.Merge(), m, s, u);
  }

  lemma MergeBeats(q: Queues, m: nat)
    requires q.Shape() && !q.Empty() && !q.Take().Empty() && Ascending(q.w) && Ascending(q.leaves) && Beats(q, m)
    ensures q.Merge().Shape() && Beats(q.Merge(), m)
  {
    hide *;
    MergeLeaves(q);
    forall s | |s| == |q.leaves| && Feasible(s, m)
      ensures Saves(q.Merge(), m, s)
    {
      BeatsIs(q, m);
      MergeSaves(q, m, s);
    }
    BeatsIs(q.Merge(), m);
  }

  lemma MergeLeaves(q: Queues)
    requires q.Shape() && !q.Empty() && !q.Take().Empty()
    ensures q.Merge().Shape() && q.Merge().leaves == q.leaves
  {
  }

  lemma BeatsIs(q: Queues, m: nat)
    requires q.Shape()
    ensures Beats(q, m) <==> forall s :: |s| == |q.leaves| && Feasible(s, m) ==> Saves(q, m, s)
  {
    hide Feasible, Saves;
  }

  /** Before anything is merged. */
  function Unmerged(leaves: seq<nat>): Queues
  {
    Queues(leaves, 0, 0, [], [], [], [0])
  }

  lemma StartBeats(leaves: seq<nat>, m: nat)
    requires |leaves| >= 2 && Ascending(leaves)
    ensures Start(leaves).Shape() && Beats(Start(leaves), m)
  {
    var q := Unmerged(leaves);
    assert Start(leaves) == q.Merge();
    hide *;
    UnmergedIs(leaves);
    UnmergedBeats(leaves, m);
    MergeBeats(q, m);
  }

  lemma UnmergedBeats(leaves: seq<nat>, m: nat)
    requires |leaves| >= 2
    ensures Unmerged(leaves).Shape() && Beats(Unmerged(leaves), m)
  {
    hide Cost, Feasible;
    var q := Unmerged(leaves);
    assert Open(q) == leaves;
    forall s | |s| == |leaves| && Feasible(s, m)
      ensures Saves(q, m, s)
    {
      assert Codes(q, s, m);
    }
  }

  lemma UnmergedIs(leaves: seq<nat>)
    requires |leaves| >= 2
    ensures var q := Unmerged(leaves); q.Shape() && !q.Empty() && !q.Take().Empty() && q.w == [] && q.leaves == leaves && Ascending(q.w)
  {
  }

  /** When one weight is left, the merged weights are a lower bound for every code. */
  lemma Optimal(q: Queues, m: nat, s: seq<nat>)
    requires q.Shape() && Beats(q, m) && |s| == |q.leaves| && Feasible(s, m)
    ensures Sum(q.w) <= Cost(q.leaves, s)
  {
    hide Feasible;
    assert Saves(q, m, s);
  }

  // ---------------------------------------------------------------- the cost of the tree

  /** `d` holds the depths of the leaves. */
  ghost predicate LeafDepths(q: Queues, d: seq<nat>)
  {
    && Forest(q.p) && |q.w| == |q.p| + 1 && |q.ls| == |q.w| + 1 && |d| == |q.leaves|
    && forall j :: 0 <= j < |q.w| ==> DepthsAt(q, d, j)
  }

  ghost predicate DepthsAt(q: Queues, d: seq<nat>, j: nat)
    requires Forest(q.p) && j <= |q.p| && j + 1 < |q.ls| && |d| == |q.leaves|
  {
    forall k :: 0 <= k < |d| && q.ls[j] <= k < q.ls[j + 1] ==> d[k] == Depth(q.p, j) + 1
  }

  /** Weights of the merged nodes `lo .. hi`, each times its depth. */
  ghost function NodeCost(q: Queues, lo: nat, hi: nat): nat
    requires Forest(q.p) && hi <= |q.w| == |q.p| + 1
    decreases hi
  {
    if hi <= lo then 0 else NodeCost(q, lo, hi - 1) + q.w[hi - 1] * Depth(q.p, hi - 1)
  }

  lemma {:induction false} CostEven(w: seq<nat>, s: seq<nat>, c: nat)
    requires |w| == |s| && forall i :: 0 <= i < |s| ==> s[i] == c
    ensures Cost(w, s) == c * Sum(w)
  {
    if w != [] {
      CostEven(w[1..], s[1..], c);
      Distrib(w[0], Sum(w[1..]), c);
      assert c * Sum(w) == (w[0] + Sum(w[1..])) * c;
    }
  }

  lemma {:induction false} SumConcat(v: seq<nat>, w: seq<nat>)
    ensures Sum(v + w) == Sum(v) + Sum(w)
  {
    if v == [] {
      assert v + w == w;
    } else {
      SumConcat(v[1..], w);
      assert (v + w)[1..] == v[1..] + w;
    }
  }

  lemma {:induction false} NodeCostSplit(q: Queues, lo: nat, mid: nat, hi: nat)
    requires Forest(q.p) && lo <= mid <= hi <= |q.w| == |q.p| + 1
    ensures NodeCost(q, lo, hi) == NodeCost(q, lo, mid) + NodeCost(q, mid, hi)
    decreases hi
  {
    if mid < hi {
      NodeCostSplit(q, lo, mid, hi - 1);
    }
  }

  lemma {:induction false} NodeCostEven(q: Queues, lo: nat, hi: nat, c: nat)
    requires Forest(q.p) && lo <= hi <= |q.w| == |q.p| + 1 && forall k :: lo <= k < hi ==> Depth(q.p, k) == c
    ensures NodeCost(q, lo, hi) == c * Sum(q.w[lo..hi])
    decreases hi
  {
    if lo < hi {
      hide Sum, Depth, Forest;
      NodeCostEven(q, lo, hi - 1, c);
      assert q.w[lo..hi] == q.w[lo..hi - 1] + [q.w[hi - 1]];
      SumAppend(q.w[lo..hi - 1], q.w[hi - 1]);
      Even(c, Sum(q.w[lo..hi - 1]), q.w[hi - 1]);
    }
  }

  lemma Even(c: nat, s: nat, x: nat)
    ensures c * (s + x) == c * s + x * c
  {
  }

  lemma LeavesOf(q: Queues, d: seq<nat>, j: nat)
    requires LeafDepths(q, d) && j < |q.w| && Made(q, j)
    ensures Cost(q.leaves[q.ls[j]..], d[q.ls[j]..])
         == (Depth(q.p, j) + 1) * Sum(q.leaves[q.ls[j]..q.ls[j + 1]]) + Cost(q.leaves[q.ls[j + 1]..], d[q.ls[j + 1]..])
  {
    hide Sum, Cost, Depth, Forest;
    var lo, hi := q.ls[j], q.ls[j + 1];
    assert DepthsAt(q, d, j);
    CostEven(q.leaves[lo..hi], d[lo..hi], Depth(q.p, j) + 1);
    CostConcat(q.leaves[lo..hi], q.leaves[hi..], d[lo..hi], d[hi..]);
    assert q.leaves[lo..] == q.leaves[lo..hi] + q.leaves[hi..] && d[lo..] == d[lo..hi] + d[hi..];
  }

  lemma NodesOf(q: Queues, j: nat)
    requires Forest(q.p) && |q.w| == |q.p| + 1 && j < |q.w| && Made(q, j)
    ensures NodeCost(q, Nodes(q.ls, j), j) + q.w[j] * Depth(q.p, j)
         == (Depth(q.p, j) + 1) * Sum(q.w[Nodes(q.ls, j)..Nodes(q.ls, j + 1)]) + NodeCost(q, Nodes(q.ls, j + 1), j + 1)
  {
    hide Sum;
    var lo, hi := Nodes(q.ls, j), Nodes(q.ls, j + 1);
    NodeCostSplit(q, lo, hi, j);
    NodeCostEven(q, lo, hi, Depth(q.p, j) + 1);
  }

  /** From the root down: what lies below the nodes from `j` on costs their weights. */
  lemma {:induction false} CostFrom(q: Queues, d: seq<nat>, j: nat)
    requires Traced(q) && LeafDepths(q, d) && q.leaf == |q.leaves| && q.root == |q.w| - 1 && j <= |q.w|
    ensures q.ls[j] <= |q.leaves| && 0 <= Nodes(q.ls, j) && Cost(q.leaves[q.ls[j]..], d[q.ls[j]..]) + NodeCost(q, Nodes(q.ls, j), j) == Sum(q.w[j..])
    decreases |q.w| - j
  {
    if j == |q.w| {
      assert q.leaves[q.ls[j]..] == [] && q.w[j..] == [];
      RootCost(q);
    } else {
      hide *;
      CostFrom(q, d, j + 1);
      CostStep(q, d, j);
    }
  }

  lemma CostStep(q: Queues, d: seq<nat>, j: nat)
    requires Traced(q) && LeafDepths(q, d) && j < |q.w|
    requires q.ls[j + 1] <= |q.leaves| && 0 <= Nodes(q.ls, j + 1)
    requires Cost(q.leaves[q.ls[j + 1]..], d[q.ls[j + 1]..]) + NodeCost(q, Nodes(q.ls, j + 1), j + 1) == Sum(q.w[j + 1..])
    ensures q.ls[j] <= |q.leaves| && 0 <= Nodes(q.ls, j) && Cost(q.leaves[q.ls[j]..], d[q.ls[j]..]) + NodeCost(q, Nodes(q.ls, j), j) == Sum(q.w[j..])
  {
    hide Cost, NodeCost, Sum, Depth, Forest, DepthsAt, Nodes;
    assert Made(q, j);
    LeavesOf(q, d, j);
    NodesOf(q, j);
    NodeOf(q, j);
    var c, x, y := Depth(q.p, j) + 1, Sum(q.leaves[q.ls[j]..q.ls[j + 1]]), Sum(q.w[Nodes(q.ls, j)..Nodes(q.ls, j + 1)]);
    assert q.w[j..] == [q.w[j]] + q.w[j + 1..];
    SumCons(q.w[j], q.w[j + 1..]);
    Total(x, y, q.w[j], Depth(q.p, j));
  }

  lemma NodeOf(q: Queues, j: nat)
    requires Made(q, j)
    ensures q.ls[j] <= q.ls[j + 1] <= |q.leaves| && 0 <= Nodes(q.ls, j) <= Nodes(q.ls, j + 1) <= j
    ensures q.w[j] == Sum(q.leaves[q.ls[j]..q.ls[j + 1]]) + Sum(q.w[Nodes(q.ls, j)..Nodes(q.ls, j + 1)])
  {
  }

  lemma Total(x: nat, y: nat, w: nat, d: nat)
    requires w == x + y
    ensures (d + 1) * x + (d + 1) * y == w * d + w
  {
  }

  lemma SumCons(x: nat, s: seq<nat>)
    ensures Sum([x] + s) == x + Sum(s)
  {
    assert ([x] + s)[1..] == s;
  }

  lemma RootCost(q: Queues)
    requires Forest(q.p) && |q.w| == |q.p| + 1
    ensures NodeCost(q, |q.w| - 1, |q.w|) == 0
  {
    assert Depth(q.p, |q.p|) == 0;
  }

  /** The code made of the leaves' depths costs the sum of the merged weights. */
  lemma TreeCost(q: Queues, d: seq<nat>)
    requires Traced(q) && LeafDepths(q, d) && q.leaf == |q.leaves| && q.root == |q.w| - 1
    ensures Cost(q.leaves, d) == Sum(q.w)
  {
    hide *;
    CostFrom(q, d, 0);
    TracedStart(q);
    assert q.leaves[0..] == q.leaves && d[0..] == d && q.w[0..] == q.w;
    FullTree(q, d);
    NoNodes(q);
  }

  lemma TracedStart(q: Queues)
    requires Traced(q)
    ensures |q.ls| > 0 && q.ls[0] == 0 && Nodes(q.ls, 0) == 0
  {
  }

  lemma FullTree(q: Queues, d: seq<nat>)
    requires LeafDepths(q, d)
    ensures Forest(q.p) && |q.w| == |q.p| + 1
  {
  }

  lemma NoNodes(q: Queues)
    ensures Forest(q.p) && |q.w| == |q.p| + 1 ==> NodeCost(q, 0, 0) == 0
  {
  }

  // ---------------------------------------------------------------- deep leaves are light

  lemma {:induction false} ClimbFrom(w: seq<nat>, b: seq<nat>, p: seq<nat>, k: nat, a: nat, x: nat)
    requires Weighted(w, b, p) && |w| == |p| + 1 && Forest(p) && k <= |p| && a >= 1
    requires w[k] >= x * Fib(a + 1) && b[k] >= x * Fib(a)
    ensures w[|p|] >= x * Fib(a + Depth(p, k) + 1)
    decreases |p| - k
  {
    RootDepth(p);
    if k < |p| {
      ClimbOne(w, b, p, k);
      NextFib(a, x);
      DepthUp(p, k);
      hide *;
      ClimbFrom(w, b, p, p[k], a + 1, x);
    }
  }

  lemma RootDepth(p: seq<nat>)
    requires Forest(p)
    ensures Depth(p, |p|) == 0
  {
  }

  lemma ClimbOne(w: seq<nat>, b: seq<nat>, p: seq<nat>, k: nat)
    requires Weighted(w, b, p) && k < |p|
    ensures k < p[k] < |w| == |b| && w[p[k]] >= w[k] + b[k] && b[p[k]] >= w[k]
  {
  }

  lemma NextFib(a: nat, x: nat)
    requires a >= 1
    ensures x * Fib(a + 2) == x * Fib(a + 1) + x * Fib(a)
  {
    Distrib(Fib(a + 1), Fib(a), x);
  }

  lemma DepthUp(p: seq<nat>, k: nat)
    requires Forest(p) && k < |p|
    ensures k < p[k] <= |p| && Depth(p, k) == 1 + Depth(p, p[k])
  {
  }

  /** Leaf `k`, child of node `j`. */
  lemma LeafLight(q: Queues, d: seq<nat>, j: nat, k: nat)
    requires q.Valid() && LeafDepths(q, d) && j < |q.w| && Made(q, j) && q.ls[j] <= k < q.ls[j + 1]
    ensures k < |d| && q.leaves[k] * Fib(d[k] + 1) <= q.w[|q.p|]
  {
    assert DepthsAt(q, d, j);
    assert Fib(2) == 1 && Fib(1) == 1;
    ClimbFrom(q.w, q.b, q.p, j, 1, q.leaves[k]);
  }

  /** Every leaf has a parent. */
  lemma {:induction false} ParentOf(q: Queues, k: nat, n: nat) returns (j: nat)
    requires Traced(q) && n <= |q.w| && k < q.ls[n]
    ensures j < n && q.ls[j] <= k < q.ls[j + 1]
  {
    if k >= q.ls[n - 1] {
      j := n - 1;
    } else {
      j := ParentOf(q, k, n - 1);
    }
  }

  /** A leaf at depth `d` weighs at most the total divided by a Fibonacci number. */
  lemma AllLight(q: Queues, d: seq<nat>)
    requires q.Valid() && Traced(q) && LeafDepths(q, d) && q.leaf == |q.leaves|
    ensures forall k :: 0 <= k < |d| ==> q.leaves[k] * Fib(d[k] + 1) <= q.w[|q.p|]
  {
    forall k | 0 <= k < |d|
      ensures q.leaves[k] * Fib(d[k] + 1) <= q.w[|q.p|]
    {
      var j := ParentOf(q, k, |q.w|);
      assert Made(q, j);
      LeafLight(q, d, j, k);
    }
  }
}
