/**
 Minimum-redundancy code lengths computed in place (miniz.c, `tdefl_calculate_minimum_redundancy`).

 The array first holds sorted frequencies. Phase one merges the two smallest weights again and
 again, leaving parent indices of the internal nodes; phase two turns parents into depths; phase
 three turns internal depths into leaf depths, which are the code lengths. All three share the array.
 */
module MinRedundancy {
  import opened Bits
  import opened RadixSort
  import opened Canonical
  import opened Merging
  import opened PrefixCost
  import opened HuffmanCost
  import opened LimitCost

  function Keys(s: seq<SymFreq>): (r: seq<nat>)
    ensures |r| == |s|
    ensures forall i :: 0 <= i < |s| ==> r[i] == s[i].key
  {
    seq(|s|, i requires 0 <= i < |s| => s[i].key)
  }

  // ---------------------------------------------------------------- the array while merging

  /** Parents, then pending weights, then stale entries, then pending leaves. */
  ghost predicate Layout(a: seq<SymFreq>, q: Queues)
  {
    && q.Shape() && |q.leaves| <= |a| && |q.w| <= q.leaf
    && (forall k :: 0 <= k < q.root ==> a[k].key == q.p[k])
    && (forall k :: q.root <= k < |q.w| ==> a[k].key == q.w[k])
    && (forall k :: q.leaf <= k < |q.leaves| ==> a[k].key == q.leaves[k])
  }

  /** Only keys below `n` may have changed. */
  ghost predicate SameSyms(a: seq<SymFreq>, b: seq<SymFreq>, n: nat)
  {
    && |a| == |b|
    && (forall k :: 0 <= k < |a| ==> a[k].sym == b[k].sym)
    && (forall k :: n <= k < |a| ==> a[k] == b[k])
  }

  lemma SameSymsTransitive(a: seq<SymFreq>, b: seq<SymFreq>, c: seq<SymFreq>, n: nat)
    requires SameSyms(a, b, n) && SameSyms(b, c, n)
    ensures SameSyms(a, c, n)
  {
  }

  /** Adds the front of one queue to `a[next]`; a consumed internal node becomes a link to its parent. */
  method TakeFront(a: array<SymFreq>, n: nat, next: u16, root0: nat, leaf0: nat, acc: nat, fromRoot: bool, ghost q: Queues)
    returns (root: nat, leaf: nat)
    requires Layout(a[..], q) && !q.Empty() && n == |q.leaves| <= a.Length
    requires next == |q.w| < q.leaf && root0 == q.root && leaf0 == q.leaf
    requires fromRoot == q.FromRoot() && acc + q.Front() < 0x1_0000
    modifies a
    ensures Layout(a[..], q.Take()) && root == q.Take().root && leaf == q.Take().leaf
    ensures a[next].key == acc + q.Front()
    ensures SameSyms(a[..], old(a[..]), n)
  {
    hide Weighted, Queued, Sum, Ascending;
    root, leaf := root0, leaf0;
    if fromRoot {
      a[next] := a[next].(key := acc + a[root].key);
      a[root] := a[root].(key := next);
      root := root + 1;
    } else {
      a[next] := a[next].(key := acc + a[leaf].key);
      leaf := leaf + 1;
    }
  }

  lemma LayoutMerged(a: seq<SymFreq>, q: Queues)
    requires q.Shape() && !q.Empty() && !q.Take().Empty()
    requires Layout(a, q.Take().Take()) && |q.w| < q.leaf && a[|q.w|].key == q.Front() + q.Take().Front()
    ensures Layout(a, q.Merge())
  {
    hide Weighted, Queued, Sum, Ascending;
  }

  /** One round of the merge loop: `a[next]` receives the sum of the two least pending weights. */
  method MergeStep(a: array<SymFreq>, n: nat, next: u16, root0: nat, leaf0: nat, ghost q: Queues)
    returns (root: nat, leaf: nat)
    requires q.Ordered() && Layout(a[..], q) && n == |q.leaves| <= a.Length
    requires 1 <= next == |q.w| <= n - 2 && root0 == q.root < next && leaf0 == q.leaf && root0 + leaf0 == 2 * next
    requires q.Pending() < 0x1_0000
    modifies a
    ensures !q.Empty() && !q.Take().Empty()
    ensures Layout(a[..], q.Merge()) && root == q.Merge().root && leaf == q.Merge().leaf
    ensures SameSyms(a[..], old(a[..]), n)
  {
    hide Weighted, Queued, Sum, Ascending;
    ghost var q1 := q.Take();
    MergePending(q);
    root, leaf := TakeFront(a, n, next, root0, leaf0, 0, leaf0 >= n || a[root0].key < a[leaf0].key, q);
    ghost var a1 := a[..];
    root, leaf := TakeFront(a, n, next, root, leaf, a[next].key, leaf >= n || (root < next && a[root].key < a[leaf].key), q1);
    SameSymsTransitive(a[..], a1, old(a[..]), n);
    LayoutMerged(a[..], q);
  }

  /** No code, however long its codes may be, costs less than what the merging comes to. */
  ghost predicate BeatsAll(q: Queues)
  {
    q.Shape() && forall m: nat :: Beats(q, m)
  }

  lemma StartBeatsAll(leaves: seq<nat>)
    requires |leaves| >= 2 && Ascending(leaves)
    ensures BeatsAll(Start(leaves))
  {
    hide Beats;
    forall m: nat
      ensures Start(leaves).Shape() && Beats(Start(leaves), m)
    {
      StartBeats(leaves, m);
    }
    StartBeats(leaves, 0);
  }

  lemma MergeGains(q: Queues)
    requires q.Ordered() && Traced(q) && !q.Empty() && !q.Take().Empty() && BeatsAll(q)
    ensures Traced(q.Merge()) && BeatsAll(q.Merge())
  {
    hide Beats, Queues.Merge, Traced, Queues.Empty;
    MergeTraced(q);
    OrderedQueues(q);
    MergeLeaves(q);
    forall m: nat
      ensures Beats(q.Merge(), m)
    {
      MergeBeats(q, m);
    }
  }

  /** The first two frequencies become the first merged weight. */
  method MergeFirst(a: array<SymFreq>, n: nat) returns (ghost q: Queues)
    requires 2 <= n <= a.Length && n < 0x1_0000
    requires SortedByKey(a[..n]) && a[0].key >= 1 && Sum(Keys(a[..n])) < 0x1_0000
    modifies a
    ensures SameSyms(a[..], old(a[..]), n) && Layout(a[..], q)
    ensures q.Valid() && q.leaves == Keys(old(a[..n])) && q.Pending() == Sum(q.leaves)
    ensures |q.w| == 1 && q.root == 0 && q.leaf == 2 && Traced(q) && BeatsAll(q)
  {
    ghost var leaves, a0 := Keys(a[..n]), a[..];
    assert Ascending(leaves) by {
      assert forall k :: 0 <= k < n ==> leaves[k] == a[..n][k].key;
    }
    assert leaves[0] == a[0].key && leaves[1] == a[1].key;
    StartValid(leaves);
    StartTraced(leaves);
    StartBeatsAll(leaves);
    q := Start(leaves);
    a[0] := a[0].(key := a[0].key + a[1].key);
    assert Layout(a[..], q) by {
      assert forall k :: 2 <= k < n ==> a[k].key == a0[..n][k].key;
    }
  }

  method MergePhase(a: array<SymFreq>, n: nat) returns (ghost q: Queues)
    requires 2 <= n <= a.Length && n < 0x1_0000
    requires SortedByKey(a[..n]) && a[0].key >= 1 && Sum(Keys(a[..n])) < 0x1_0000
    modifies a
    ensures SameSyms(a[..], old(a[..]), n)
    ensures q.Valid() && q.leaves == Keys(old(a[..n])) && |q.w| == n - 1 && |q.p| == n - 2 && Forest(q.p)
    ensures q.w[n - 2] == Sum(Keys(old(a[..n])))
    ensures forall k :: 0 <= k < n - 2 ==> a[k].key == q.p[k]
    ensures Traced(q) && q.root == n - 2 && q.leaf == n && BeatsAll(q)
  {
    hide Keys, Sum, Ascending, Queued, Weighted, SameSyms, SortedByKey, Queues.FromRoot, Made, BeatsAll;
    ghost var leaves, a0 := Keys(a[..n]), a[..];
    q := MergeFirst(a, n);
    var root, leaf := 0, 2;
    for next := 1 to n - 1
      invariant q.Valid() && q.leaves == leaves && q.Pending() == Sum(leaves)
      invariant |q.w| == next && root == q.root < next && leaf == q.leaf && root + leaf == 2 * next
      invariant Layout(a[..], q) && SameSyms(a[..], a0, n) && Traced(q) && BeatsAll(q)
    {
      ghost var a1 := a[..];
      root, leaf := MergeStep(a, n, next, root, leaf, q);
      SameSymsTransitive(a[..], a1, a0, n);
      MergeValid(q);
      MergeGains(q);
      q := q.Merge();
    }
    AllMerged(q);
  }

  // ---------------------------------------------------------------- phase two: depths of internal nodes

  method DepthPhase(a: array<SymFreq>, n: nat, ghost p: seq<nat>)
    requires 2 <= n <= a.Length && n < 0x1_0000 && Forest(p) && |p| == n - 2
    requires forall k :: 0 <= k < n - 2 ==> a[k].key == p[k]
    modifies a
    ensures SameSyms(a[..], old(a[..]), n)
    ensures forall k :: 0 <= k <= n - 2 ==> a[k].key == Depth(p, k)
  {
    a[n - 2] := a[n - 2].(key := 0);
    var next := n - 2;
    while next > 0
      invariant 0 <= next <= n - 2
      invariant SameSyms(a[..], old(a[..]), n)
      invariant forall k :: 0 <= k < next ==> a[k].key == p[k]
      invariant forall k :: next <= k <= n - 2 ==> a[k].key == Depth(p, k)
    {
      next := next - 1;
      a[next] := a[next].(key := a[a[next].key].key + 1);
    }
  }

  // ---------------------------------------------------------------- phase three: depths of leaves

  /** Node `root` is the last of depth `d` or more; nodes `root + 1 .. prev` are those of depth `d - 1`. */
  ghost predicate Level(p: seq<nat>, d: nat, root: int, prev: int)
  {
    && Forest(p) && -1 <= root <= prev <= |p|
    && (forall k :: 0 <= k <= root ==> Depth(p, k) >= d)
    && (forall k :: root < k <= |p| ==> 0 <= k && Depth(p, k) < d)
    && (forall k :: 0 <= k <= prev ==> Depth(p, k) + 1 >= d)
    && (forall k :: prev < k <= |p| ==> 0 <= k && Depth(p, k) + 1 < d)
    && (d == 0 ==> root == prev == |p|)
  }

  /** A level has at most twice as many internal nodes as the one above. */
  lemma LevelSize(p: seq<nat>, d: nat, root: int, prev: int, lo: nat)
    requires Level(p, d, root, prev) && d > 0 && lo <= root && Depth(p, lo) == d
    ensures root - lo + 1 <= 2 * (prev - root)
  {
    DepthMono(p, lo, root);
    assert Depth(p, root) == d;
    assert Depth(p, p[lo]) == d - 1 && Depth(p, p[root]) == d - 1;
    assert root < p[lo] && p[root] <= prev;
    ParentSpread(p, lo, root);
  }

  lemma LevelTop(p: seq<nat>, d: nat, root: int, prev: int)
    requires Level(p, d, root, prev) && root >= 0
    ensures Depth(p, root) == d
  {
  }

  /** `while (root >= 0 && A[root].m_key == dpth)`: consumes the internal nodes of one depth. */
  method CountLevel(a: array<SymFreq>, n: nat, root0: int, dpth: nat, avbl: nat, ghost p: seq<nat>, ghost prev: int)
    returns (root: int, used: nat)
    requires 2 <= n <= a.Length && |p| == n - 2 && Level(p, dpth, root0, prev)
    requires avbl == if dpth == 0 then 1 else 2 * (prev - root0)
    requires forall k :: 0 <= k <= root0 ==> a[k].key == Depth(p, k)
    ensures used <= avbl && root == root0 - used && Level(p, dpth + 1, root, root0)
    ensures used == 0 ==> root0 < 0
    ensures dpth == 0 ==> used == 1
  {
    root, used := root0, 0;
    while root >= 0 && a[root].key == dpth
      invariant -1 <= root && root == root0 - used && used <= avbl
      invariant forall k :: root < k <= root0 ==> 0 <= k && Depth(p, k) == dpth
    {
      if dpth > 0 {
        LevelSize(p, dpth, root0, prev, root);
      }
      used := used + 1;
      root := root - 1;
    }
    if root0 >= 0 {
      LevelTop(p, dpth, root0, prev);
    }
    forall k | 0 <= k <= root
      ensures Depth(p, k) >= dpth + 1
    {
      DepthMono(p, k, root);
    }
  }

  /** `t` is `t0` with some lengths `d` before it. */
  ghost predicate Prolongs(t: seq<nat>, t0: seq<nat>, d: nat)
  {
    |t| >= |t0| && t[|t| - |t0|..] == t0 && forall k :: 0 <= k < |t| - |t0| ==> t[k] == d
  }

  /** `while (avbl > used)`: gives the free slots of one depth to the rarest symbols left. */
  method FillLevel(a: array<SymFreq>, n: nat, next0: int, dpth: u16, avbl0: nat, used: nat, ghost t0: seq<nat>)
    returns (next: int, avbl: nat, ghost t: seq<nat>)
    requires n <= a.Length && next0 == n - 1 - |t0| && used <= avbl0 && avbl0 - used <= next0 + 1
    requires forall k :: 0 <= k < |t0| ==> a[n - |t0| + k].key == t0[k] <= dpth
    requires avbl0 + Used(t0, dpth) == Pow2(dpth)
    requires Descending(t0) && (dpth > 0 || avbl0 == used)
    modifies a
    ensures SameSyms(a[..], old(a[..]), n)
    ensures next == next0 - (avbl0 - used) && avbl == used && |t| == n - 1 - next
    ensures forall k :: 0 <= k < |t| ==> a[n - |t| + k].key == t[k] <= dpth
    ensures forall k :: 0 <= k <= next ==> a[k] == old(a[k])
    ensures Descending(t) && avbl + Used(t, dpth) == Pow2(dpth)
    ensures 0 in t ==> 0 in t0
    ensures Prolongs(t, t0, dpth)
  {
    hide Used, Descending, SameSyms, Prolongs;
    next, avbl, t := next0, avbl0, t0;
    ProlongsSame(t0, dpth);
    SameSymsSame(a[..], n);
    while avbl > used
      invariant used <= avbl && next == next0 - (avbl0 - avbl) && |t| == n - 1 - next && avbl - used <= next + 1
      invariant SameSyms(a[..], old(a[..]), n)
      invariant forall k :: 0 <= k < |t| ==> a[n - |t| + k].key == t[k] <= dpth
      invariant forall k :: 0 <= k <= next ==> a[k] == old(a[k])
      invariant Descending(t) && avbl + Used(t, dpth) == Pow2(dpth)
      invariant 0 in t ==> 0 in t0
      invariant Prolongs(t, t0, dpth)
    {
      ghost var a1 := a[..];
      ProlongsMore(t, t0, dpth);
      SameSymsKey(a1, old(a[..]), n, next, dpth);
      t := SetLeaf(a, n, next, dpth, t);
      next := next - 1;
      avbl := avbl - 1;
    }
  }

  lemma ProlongsSame(t: seq<nat>, d: nat)
    ensures Prolongs(t, t, d)
  {
  }

  lemma ProlongsMore(t: seq<nat>, t0: seq<nat>, d: nat)
    requires Prolongs(t, t0, d)
    ensures Prolongs([d] + t, t0, d)
  {
  }

  lemma SameSymsSame(a: seq<SymFreq>, n: nat)
    ensures SameSyms(a, a, n)
  {
  }

  lemma SameSymsKey(a: seq<SymFreq>, b: seq<SymFreq>, n: nat, i: nat, key: u16)
    requires SameSyms(a, b, n) && i < n && i < |a|
    ensures SameSyms(a[i := a[i].(key := key)], b, n)
  {
  }

  method SetLeaf(a: array<SymFreq>, n: nat, next: nat, dpth: u16, ghost t0: seq<nat>) returns (ghost t: seq<nat>)
    requires n <= a.Length && next == n - 1 - |t0|
    requires forall k :: 0 <= k < |t0| ==> a[n - |t0| + k].key == t0[k] <= dpth
    requires Descending(t0) && dpth > 0
    modifies a
    ensures a[..] == old(a[..])[next := old(a[next]).(key := dpth)]
    ensures t == [dpth as nat] + t0 && Descending(t) && Used(t, dpth) == Used(t0, dpth) + 1
    ensures forall k :: 0 <= k < |t| ==> a[n - |t| + k].key == t[k] <= dpth
  {
    hide Used;
    UsedPrepend(t0, dpth);
    a[next] := a[next].(key := dpth);
    t := [dpth as nat] + t0;
  }

  lemma {:induction false} UsedPrepend(t: seq<nat>, d: nat)
    ensures d > 0 ==> Used([d] + t, d) == Used(t, d) + 1
  {
    if d > 0 {
      forall k | 1 <= k <= d
        ensures Count([d] + t, k) == Count(t, k) + (if k == d then 1 else 0)
      {
        CountConcat([d], t, k);
        assert [d][..0] == [];
        assert Count([d], k) == if k == d then 1 else 0;
      }
      UsedSame([d] + t, t, d - 1);
    }
  }

  /** Before depth `dpth`: lengths `t` fill the array from the end, `avbl` slots are free at this depth. */
  ghost predicate LeafState(a: seq<SymFreq>, n: nat, p: seq<nat>, dpth: nat, avbl: nat, root: int, prev: int, next: int, t: seq<nat>)
  {
    && 2 <= n <= |a| && |p| == n - 2 && next == root + avbl == n - 1 - |t|
    && Level(p, dpth, root, prev) && avbl == (if dpth == 0 then 1 else 2 * (prev - root))
    && (forall k :: 0 <= k <= root ==> a[k].key == Depth(p, k))
    && (forall k :: 0 <= k < |t| ==> a[n - |t| + k].key == t[k] < dpth)
    && avbl + Used(t, dpth) == Pow2(dpth)
    && Descending(t) && 0 !in t
    && (avbl == 0 ==> root < 0)
    && dpth <= Depth(p, 0) + (if avbl > 0 then 1 else 2)
  }

  method LevelStep(a: array<SymFreq>, n: nat, root0: int, next0: int, dpth: u16, avbl0: nat,
                   ghost p: seq<nat>, ghost prev: int, ghost t0: seq<nat>)
    returns (root: int, next: int, avbl: nat, ghost t: seq<nat>)
    requires n <= a.Length && LeafState(a[..], n, p, dpth, avbl0, root0, prev, next0, t0) && avbl0 > 0
    modifies a
    ensures SameSyms(a[..], old(a[..]), n)
    ensures LeafState(a[..], n, p, dpth + 1, avbl, root, root0, next, t) && Prolongs(t, t0, dpth)
    ensures root < root0 || (root == root0 && avbl == 0)
  {
    hide *;
    LeafStateIs(a[..], n, p, dpth, avbl0, root0, prev, next0, t0);
    ghost var a0 := a[..];
    var used;
    root, used := CountLevel(a, n, root0, dpth, avbl0, p, prev);
    next, avbl, t := FillLevel(a, n, next0, dpth, avbl0, used, t0);
    LevelNext(a0, a[..], n, p, dpth, root0, prev, next0, t0, used, root, next, t);
    avbl := 2 * used;
  }

  lemma LeafStateIs(a: seq<SymFreq>, n: nat, p: seq<nat>, dpth: nat, avbl: nat, root: int, prev: int, next: int, t: seq<nat>)
    requires LeafState(a, n, p, dpth, avbl, root, prev, next, t)
    ensures 2 <= n <= |a| && |p| == n - 2 && next == root + avbl == n - 1 - |t| && -1 <= root
    ensures Level(p, dpth, root, prev) && avbl == (if dpth == 0 then 1 else 2 * (prev - root))
    ensures forall k :: 0 <= k <= root ==> a[k].key == Depth(p, k)
    ensures forall k :: 0 <= k < |t| ==> a[n - |t| + k].key == t[k] < dpth
    ensures avbl + Used(t, dpth) == Pow2(dpth) && Descending(t) && 0 !in t && (avbl == 0 ==> root < 0)
    ensures avbl > 0 ==> dpth <= Depth(p, 0) + 1
    ensures dpth == 0 ==> |t| == 0
  {
  }

  lemma LevelNext(a0: seq<SymFreq>, a: seq<SymFreq>, n: nat, p: seq<nat>, dpth: nat, root0: int, prev: int, next0: int, t0: seq<nat>,
                  used: nat, root: int, next: int, t: seq<nat>)
    requires 2 <= n <= |a| == |a0| && |p| == n - 2 && next == root0 + used == n - 1 - |t|
    requires Level(p, dpth, root0, prev) && Level(p, dpth + 1, root, root0) && root == root0 - used
    requires forall k :: 0 <= k <= root0 ==> a0[k].key == Depth(p, k)
    requires forall k :: 0 <= k <= next ==> a[k] == a0[k]
    requires forall k :: 0 <= k < |t| ==> a[n - |t| + k].key == t[k] <= dpth
    requires (used == 0 ==> root0 < 0) && dpth <= Depth(p, 0) + 1
    requires used + Used(t, dpth) == Pow2(dpth) && Descending(t) && 0 !in t
    ensures LeafState(a, n, p, dpth + 1, 2 * used, root, root0, next, t)
  {
    if used > 0 {
      DepthMono(p, 0, root0);
      LevelTopOf(p, dpth, root0, prev, root);
    }
    hide Depth, Level, Used, Descending, Forest;
    UsedNext(t, dpth);
  }

  lemma LevelTopOf(p: seq<nat>, d: nat, root0: int, prev: int, root: int)
    requires Level(p, d, root0, prev) && Level(p, d + 1, root, root0) && root < root0
    ensures root0 >= 0 && Depth(p, root0) == d
  {
  }

  /** All leaves are merged into one tree. */
  ghost predicate Built(q: Queues)
  {
    Traced(q) && Forest(q.p) && |q.w| == |q.p| + 1 && q.root == |q.p| && q.leaf == |q.leaves|
  }

  /** `t` holds the depths of the last leaves: those whose parents come after node `prev`. */
  ghost predicate TailDepths(q: Queues, t: seq<nat>, prev: int)
  {
    && Built(q) && -1 <= prev <= |q.p| && q.ls[prev + 1] + |t| == |q.leaves|
    && forall j, k {:trigger q.ls[j], t[k]} :: prev < j <= |q.p| && 0 <= k < |t| && q.ls[j] <= q.ls[prev + 1] + k < q.ls[j + 1] ==> t[k] == Depth(q.p, j) + 1
  }

  lemma {:induction false} NodeParent(q: Queues, k: nat, lo: nat, hi: nat) returns (j: nat)
    requires Traced(q) && Forest(q.p) && lo <= hi <= |q.w| && Nodes(q.ls, lo) <= k < Nodes(q.ls, hi)
    ensures lo <= j < hi && k < |q.p| && q.p[k] == j && Depth(q.p, k) == 1 + Depth(q.p, j)
    decreases hi
  {
    assert Made(q, hi - 1);
    if k >= Nodes(q.ls, hi - 1) {
      j := hi - 1;
    } else {
      j := NodeParent(q, k, lo, hi - 1);
    }
  }

  lemma {:induction false} LeavesMono(q: Queues, i: nat, j: nat)
    requires Traced(q) && i <= j <= |q.w|
    ensures q.ls[i] <= q.ls[j]
  {
    if i < j {
      assert Made(q, j - 1);
      LeavesMono(q, i, j - 1);
    }
  }

  /** Where the leaves of the levels done begin. */
  lemma LeafCut(q: Queues, d: nat, root: int, prev: int)
    requires Built(q) && d > 0 && Level(q.p, d, root, prev)
    ensures q.ls[prev + 1] == 2 * (prev + 1) - (root + 1)
  {
    hide *;
    LevelRange(q.p, d, root, prev);
    BuiltFacts(q, 0);
    BuiltFacts(q, prev + 1);
    var c := Nodes(q.ls, prev + 1);
    if c > 0 {
      var j := NodeParent(q, c - 1, 0, prev + 1);
      BelowLevel(q.p, d, root, prev, j, c - 1);
    }
    if c < |q.p| {
      var j := NodeParent(q, c, prev + 1, |q.w|);
      BelowLevel(q.p, d, root, prev, j, c);
    }
    if c == 0 || c == |q.p| {
      LevelEdges(q.p, d, root, prev);
    }
  }

  lemma BuiltFacts(q: Queues, i: nat)
    requires Built(q) && i <= |q.w|
    ensures Traced(q) && Forest(q.p) && |q.w| == |q.p| + 1 && |q.ls| == |q.w| + 1
    ensures Nodes(q.ls, |q.w|) == |q.p| && Nodes(q.ls, 0) == 0 && 0 <= Nodes(q.ls, i) <= |q.p| && q.ls[i] == 2 * i - Nodes(q.ls, i)
  {
    if i > 0 {
      assert Made(q, i - 1);
    }
  }

  /** Children of the level above and further up are on this level or above. */
  lemma BelowLevel(p: seq<nat>, d: nat, root: int, prev: int, j: nat, k: nat)
    requires Level(p, d, root, prev) && j <= |p| && k < |p| && Depth(p, k) == 1 + Depth(p, j)
    ensures j <= prev <==> k <= root
  {
    hide Depth, Forest;
  }

  lemma LevelEdges(p: seq<nat>, d: nat, root: int, prev: int)
    requires Level(p, d, root, prev) && d > 0
    ensures -1 <= root < |p|
  {
    assert Depth(p, |p|) == 0;
  }

  /** The leaves given length `d` are the children of the nodes at depth `d - 1`. */
  lemma LevelDepth(q: Queues, t0: seq<nat>, t: seq<nat>, d: nat, root0: int, prev: int, root: int, j: nat, k: nat)
    requires Built(q) && Level(q.p, d, root0, prev) && TailDepths(q, t0, prev) && Prolongs(t, t0, d)
    requires root0 < j <= |q.p| && k < |t| && q.ls[root0 + 1] + |t| == |q.leaves| && q.ls[j] <= q.ls[root0 + 1] + k < q.ls[j + 1]
    ensures t[k] == Depth(q.p, j) + 1
  {
    hide Made, Traced, Forest, Depth;
    var c := |t| - |t0|;
    if k >= c {
      assert t[k] == t0[k - c];
      if j <= prev {
        LeavesMono(q, j + 1, prev + 1);
      }
    } else if j > prev {
      LeavesMono(q, prev + 1, j);
    }
  }

  lemma LevelDepths(q: Queues, t0: seq<nat>, t: seq<nat>, d: nat, root0: int, prev: int, root: int)
    requires Built(q) && Level(q.p, d, root0, prev) && Level(q.p, d + 1, root, root0) && TailDepths(q, t0, prev) && Prolongs(t, t0, d)
    requires |t| == |q.leaves| - (2 * (root0 + 1) - (root + 1))
    ensures TailDepths(q, t, root0)
  {
    LeafCut(q, d + 1, root, root0);
    forall j: nat, k: nat | root0 < j <= |q.p| && k < |t| && q.ls[j] <= q.ls[root0 + 1] + k < q.ls[j + 1]
      ensures t[k] == Depth(q.p, j) + 1
    {
      hide *;
      LevelDepth(q, t0, t, d, root0, prev, root, j, k);
    }
  }

  lemma NextDepths(q: Queues, a0: seq<SymFreq>, a: seq<SymFreq>, n: nat, d: nat, avbl0: nat, root0: int, prev: int, next0: int, t0: seq<nat>,
                   avbl: nat, root: int, next: int, t: seq<nat>)
    requires Built(q) && |q.leaves| == n && LeafState(a0, n, q.p, d, avbl0, root0, prev, next0, t0)
    requires LeafState(a, n, q.p, d + 1, avbl, root, root0, next, t) && TailDepths(q, t0, prev) && Prolongs(t, t0, d)
    ensures TailDepths(q, t, root0)
  {
    hide Depth, Level, Used, Descending, Forest, Traced, TailDepths, Built, Prolongs;
    LevelDepths(q, t0, t, d, root0, prev, root);
  }

  lemma AllDepths(q: Queues, t: seq<nat>)
    requires TailDepths(q, t, -1)
    ensures LeafDepths(q, t)
  {
    forall j | 0 <= j < |q.w|
      ensures DepthsAt(q, t, j)
    {
    }
  }

  lemma NoDepths(q: Queues)
    requires Built(q)
    ensures TailDepths(q, [], |q.p|)
  {
  }

  method LeafPhase(a: array<SymFreq>, n: nat, ghost p: seq<nat>, ghost q: Queues)
    requires Built(q) && q.p == p && |q.leaves| == n
    requires 2 <= n <= a.Length && n < 0x1_0000 && Forest(p) && |p| == n - 2
    requires forall k :: 0 <= k <= n - 2 ==> a[k].key == Depth(p, k)
    modifies a
    ensures SameSyms(a[..], old(a[..]), n)
    ensures Complete(Keys(a[..n]), Depth(p, 0) + 1) && Descending(Keys(a[..n])) && 0 !in Keys(a[..n])
    ensures LeafDepths(q, Keys(a[..n]))
  {
    hide *;
    var avbl: nat, dpth: nat := 1, 0;
    var root: int, next: int := n - 2, n - 1;
    ghost var prev: int, t: seq<nat> := n - 2, [];
    FirstLeafState(a[..], n, q);
    while avbl > 0
      invariant n <= a.Length && LeafState(a[..], n, p, dpth, avbl, root, prev, next, t) && SameSyms(a[..], old(a[..]), n) && TailDepths(q, t, prev)
      decreases root + 1, avbl
    {
      LeafStateBounds(a[..], n, p, dpth, avbl, root, prev, next, t);
      ghost var root0, a0, avbl0, next0, t0 := root, a[..], avbl, next, t;
      root, next, avbl, t := LevelStep(a, n, root, next, dpth, avbl, p, prev, t);
      SameSymsTransitive(a[..], a0, old(a[..]), n);
      NextDepths(q, a0, a[..], n, dpth, avbl0, root0, prev, next0, t0, avbl, root, next, t);
      prev := root0;
      dpth := dpth + 1;
    }
    LastLeafState(a[..], n, q, dpth, root, prev, next, t);
  }

  lemma FirstLeafState(a: seq<SymFreq>, n: nat, q: Queues)
    requires Built(q) && 2 <= n <= |a| && n < 0x1_0000 && |q.p| == n - 2 && |q.leaves| == n
    requires forall k :: 0 <= k <= n - 2 ==> a[k].key == Depth(q.p, k)
    ensures LeafState(a, n, q.p, 0, 1, n - 2, n - 2, n - 1, []) && TailDepths(q, [], n - 2) && SameSyms(a, a, n)
  {
    assert Pow2(0) == 1;
    NoDepths(q);
  }

  lemma LeafStateBounds(a: seq<SymFreq>, n: nat, p: seq<nat>, dpth: nat, avbl: nat, root: int, prev: int, next: int, t: seq<nat>)
    requires LeafState(a, n, p, dpth, avbl, root, prev, next, t) && n < 0x1_0000
    ensures dpth < 0x1_0000 && -1 <= root
  {
  }

  lemma LevelRange(p: seq<nat>, d: nat, root: int, prev: int)
    requires Level(p, d, root, prev)
    ensures -1 <= root <= prev <= |p| && (d == 0 ==> root == |p|)
  {
  }

  lemma ShortTail(t: seq<nat>, d: nat, a: seq<SymFreq>, n: nat)
    requires |t| <= n <= |a| && forall k :: 0 <= k < |t| ==> a[n - |t| + k].key == t[k] < d
    ensures d > 0 ==> LensUpTo(t, d - 1)
  {
  }

  lemma LastLeafState(a: seq<SymFreq>, n: nat, q: Queues, dpth: nat, root: int, prev: int, next: int, t: seq<nat>)
    requires Built(q) && n <= |a| && LeafState(a, n, q.p, dpth, 0, root, prev, next, t) && TailDepths(q, t, prev)
    ensures Complete(Keys(a[..n]), Depth(q.p, 0) + 1) && Descending(Keys(a[..n])) && 0 !in Keys(a[..n])
    ensures LeafDepths(q, Keys(a[..n]))
  {
    hide SameSyms, Complete, Used, Depth, Traced, Forest, TailDepths, LeafDepths, Level;
    LevelRange(q.p, dpth, root, prev);
    assert Keys(a[..n]) == t;
    ShortTail(t, dpth, a, n);
    hide LeafState;
    AllDepths(q, t);
    LeavesComplete(t, dpth, Depth(q.p, 0) + 1);
  }

  lemma UsedNext(t: seq<nat>, d: nat)
    requires LensUpTo(t, d)
    ensures Used(t, d + 1) == 2 * Used(t, d)
  {
    CountAbsent(t, d + 1);
  }

  lemma LeavesComplete(t: seq<nat>, d: nat, m: nat)
    requires d > 0 && LensUpTo(t, d - 1) && Used(t, d) == Pow2(d) && d <= m + 1
    ensures Complete(t, m)
  {
    UsedNext(t, d - 1);
    CompleteRaise(t, d - 1, m);
  }

  // ---------------------------------------------------------------- the whole computation

  lemma MergedBound(q: Queues)
    requires q.Valid() && |q.w| == |q.p| + 1 && Forest(q.p) && q.w[|q.p|] < 0x1_0000
    ensures Depth(q.p, 0) <= 21
  {
    DepthBound(q.w, q.b, q.p);
  }

  /** No code within Kraft's inequality costs less. */
  ghost predicate Cheapest(w: seq<nat>, s: seq<nat>)
  {
    |s| == |w| && forall t: seq<nat>, m: nat :: |t| == |w| && Feasible(t, m) ==> Cost(w, s) <= Cost(w, t)
  }

  lemma BeBuilt(q: Queues)
    requires Traced(q) && Forest(q.p) && |q.w| == |q.p| + 1 && q.root == |q.p| && q.leaf == |q.leaves|
    ensures Built(q)
  {
  }

  lemma Results(q: Queues, d: seq<nat>)
    requires q.Valid() && Built(q) && LeafDepths(q, d) && BeatsAll(q) && q.w[|q.p|] == Sum(q.leaves)
    ensures Cheapest(q.leaves, d) && Light(q.leaves, d, Sum(q.leaves))
  {
    hide Sum, Cost, Feasible, Queues.Ordered, Weighted, Queued, Fib;
    TreeCost(q, d);
    AllLight(q, d);
    forall t: seq<nat>, m: nat | |t| == |q.leaves| && Feasible(t, m)
      ensures Cost(q.leaves, d) <= Cost(q.leaves, t)
    {
      Optimal(q, m, t);
    }
  }

  /** Merge, find the depths of the merged nodes, then those of the leaves, all in one array. */
  method ThreePhases(a: array<SymFreq>, n: nat)
    requires 2 <= n <= a.Length && n < 0x1_0000
    requires SortedByKey(a[..n]) && a[0].key >= 1 && Sum(Keys(a[..n])) < 0x1_0000
    modifies a
    ensures SameSyms(a[..], old(a[..]), n)
    ensures Complete(Keys(a[..n]), 22) && Descending(Keys(a[..n])) && 0 !in Keys(a[..n])
    ensures Cheapest(Keys(old(a[..n])), Keys(a[..n])) && Light(Keys(old(a[..n])), Keys(a[..n]), Sum(Keys(old(a[..n]))))
  {
    hide *;
    ghost var a0 := a[..];
    ghost var q := MergePhase(a, n);
    BeBuilt(q);
    MergedBound(q);
    ghost var a1 := a[..];
    DepthPhase(a, n, q.p);
    ghost var a2 := a[..];
    SameSymsTransitive(a2, a1, a0, n);
    LeafPhase(a, n, q.p, q);
    Results(q, Keys(a[..n]));
    SameSymsTransitive(a[..], a2, a0, n);
    CompleteRaise(Keys(a[..n]), Depth(q.p, 0) + 1, 22);
  }

  /**
   Sorted positive frequencies of total weight below 2^16 become code lengths: a complete prefix
   code of depth at most 22 in which a rarer symbol never has the shorter code.
   */
  method CalculateMinimumRedundancy(a: array<SymFreq>, n: nat)
    requires n <= a.Length && n < 0x1_0000
    requires SortedByKey(a[..n]) && Sum(Keys(a[..n])) < 0x1_0000
    requires forall k :: 0 <= k < n ==> a[k].key >= 1
    modifies a
    ensures SameSyms(a[..], old(a[..]), n)
    ensures n == 1 ==> a[0].key == 1
    ensures n >= 2 ==> Complete(Keys(a[..n]), 22)
    ensures n >= 2 ==> Cheapest(Keys(old(a[..n])), Keys(a[..n])) && Light(Keys(old(a[..n])), Keys(a[..n]), Sum(Keys(old(a[..n]))))
    ensures Descending(Keys(a[..n])) && 0 !in Keys(a[..n])
  {
    if n == 0 {
      return;
    } else if n == 1 {
      a[0] := a[0].(key := 1);
      return;
    }
    ThreePhases(a, n);
  }
}
