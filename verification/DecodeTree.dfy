/**
 The inflater's decoding table (miniz.c, the table building loop of `tinfl_decompress`): a lookup by
 the next 10 bits, and for longer codes a tree of two-slot nodes. This module says what such a table
 means and why adding one code after another keeps it right.
 */
module DecodeTree {
  import opened Bits
  import opened Canonical

  const FAST_BITS := 10
  const FAST_SIZE := 1024
  const MAX_LEN := 15

  /** Ghost view of a tree node: the bits leading to it, a symbol whose code passes through, its parent. */
  datatype Node = Node(path: seq<bool>, owner: nat, par: nat)

  /** The value by which a slot refers to node `k`; its slots are `2 * k` and `2 * k + 1`. */
  function Ref(k: nat): int { -1 - 2 * k }

  function NodeOf(v: int): int { (-v - 1) / 2 }

  predicate IsRef(v: int, n: nat)
  {
    v < 0 && 0 <= NodeOf(v) < n && v == Ref(NodeOf(v))
  }

  ghost predicate Sizes(s: seq<nat>, lk: seq<int>, tr: seq<int>, nodes: seq<Node>)
  {
    |s| <= 512 && LensUpTo(s, MAX_LEN) && |lk| == FAST_SIZE && 2 * |nodes| <= |tr|
  }

  /** A node lies strictly inside some code and is linked from where its path starts or from its parent. */
  ghost predicate NodeOk(s: seq<nat>, lk: seq<int>, tr: seq<int>, nodes: seq<Node>, k: nat)
    requires Sizes(s, lk, tr, nodes) && k < |nodes|
  {
    var nd := nodes[k];
    var p := nd.path;
    && FAST_BITS <= |p| < MAX_LEN && nd.owner < |s| && |p| < s[nd.owner] && p <= HuffBits(s, nd.owner)
    && if |p| == FAST_BITS then Index(p) < FAST_SIZE && lk[Index(p)] == Ref(k)
       else nd.par < k && nodes[nd.par].path == p[..|p| - 1] && tr[2 * nd.par + BitValue(p[|p| - 1])] == Ref(k)
  }

  function Index(p: seq<bool>): nat
  {
    FromBits(p)
  }

  ghost predicate LookupOk(s: seq<nat>, lk: seq<int>, tr: seq<int>, nodes: seq<Node>, x: nat)
    requires Sizes(s, lk, tr, nodes) && x < FAST_SIZE
  {
    var v := lk[x];
    && (v > 0 ==> v % 512 < |s| && 1 <= s[v % 512] == v / 512 <= FAST_BITS && HuffBits(s, v % 512) <= ToBits(x, FAST_BITS))
    && (v < 0 ==> IsRef(v, |nodes|) && nodes[NodeOf(v)].path == ToBits(x, FAST_BITS))
  }

  ghost predicate SlotOk(s: seq<nat>, lk: seq<int>, tr: seq<int>, nodes: seq<Node>, k: nat, b: nat)
    requires Sizes(s, lk, tr, nodes) && k < |nodes| && b < 2
  {
    var v, p := tr[2 * k + b], nodes[k].path + [b == 1];
    && (v > 0 ==> v < |s| && s[v] > 0 && HuffBits(s, v) == p)
    && (v < 0 ==> IsRef(v, |nodes|) && k < NodeOf(v) && nodes[NodeOf(v)].path == p)
  }

  /** Symbol `i` is found wherever a bit string begins with its code. */
  ghost predicate SymOk(s: seq<nat>, lk: seq<int>, tr: seq<int>, nodes: seq<Node>, home: seq<nat>, i: nat)
    requires Sizes(s, lk, tr, nodes) && |home| == |s| && i < |s|
  {
    s[i] > 0 ==>
      var h := HuffBits(s, i);
      if s[i] <= FAST_BITS then forall x :: 0 <= x < FAST_SIZE && h <= ToBits(x, FAST_BITS) ==> lk[x] == 512 * s[i] + i
      else home[i] < |nodes| && nodes[home[i]].path == h[..s[i] - 1] && tr[2 * home[i] + BitValue(h[s[i] - 1])] == i
  }

  ghost predicate Distinct(nodes: seq<Node>)
  {
    forall j, k :: 0 <= j < k < |nodes| ==> nodes[j].path != nodes[k].path
  }

  /** The table after the first `done` symbols. */
  ghost predicate Inv(s: seq<nat>, lk: seq<int>, tr: seq<int>, nodes: seq<Node>, home: seq<nat>, done: nat)
  {
    && Sizes(s, lk, tr, nodes) && Kraft(s, MAX_LEN) && |home| == |s| && done <= |s| && Distinct(nodes)
    && (forall k :: 0 <= k < |nodes| ==> NodeOk(s, lk, tr, nodes, k))
    && (forall x :: 0 <= x < FAST_SIZE ==> LookupOk(s, lk, tr, nodes, x))
    && (forall k, b :: 0 <= k < |nodes| && 0 <= b < 2 ==> SlotOk(s, lk, tr, nodes, k, b))
    && (forall i :: 0 <= i < done ==> SymOk(s, lk, tr, nodes, home, i))
    && (forall z :: 2 * |nodes| <= z < |tr| ==> tr[z] == 0)
  }

  // ---------------------------------------------------------------- prefix facts

  /** No code begins a proper prefix of another, nor equals one. */
  lemma NoCodeInside(s: seq<nat>, i: nat, w: nat, p: seq<bool>)
    requires Kraft(s, MAX_LEN) && i < |s| && s[i] > 0 && w < |s| && |p| < s[w] && p <= HuffBits(s, w)
    ensures !(HuffBits(s, i) <= p)
  {
    hide HuffBits, Kraft;
    if HuffBits(s, i) <= p {
      PrefixFree(s, i, w, HuffBits(s, w), MAX_LEN);
    }
  }

  lemma SameCode(s: seq<nat>, i: nat, j: nat)
    requires Kraft(s, MAX_LEN) && i < |s| && s[i] > 0 && j < |s| && s[j] > 0 && HuffBits(s, i) <= HuffBits(s, j)
    ensures i == j
  {
    hide HuffBits, Kraft;
    PrefixFree(s, i, j, HuffBits(s, j), MAX_LEN);
  }

  lemma IndexOf(x: nat)
    requires x < FAST_SIZE
    ensures Index(ToBits(x, FAST_BITS)) == x
  {
    Pow2Values();
    FromToBits(x, FAST_BITS);
  }

  lemma PathOf(p: seq<bool>)
    requires |p| == FAST_BITS
    ensures Index(p) < FAST_SIZE && ToBits(Index(p), FAST_BITS) == p
  {
    Pow2Values();
    FromBitsBound(p);
    ToFromBits(p);
  }

  lemma RefFacts(k: nat)
    ensures Ref(k) < 0 && NodeOf(Ref(k)) == k && IsRef(Ref(k), k + 1)
  {
  }

  // ---------------------------------------------------------------- a short code

  lemma InsertShort(s: seq<nat>, lk: seq<int>, tr: seq<int>, nodes: seq<Node>, home: seq<nat>, i: nat, lk': seq<int>)
    requires Inv(s, lk, tr, nodes, home, i) && i < |s| && 1 <= s[i] <= FAST_BITS && |lk'| == FAST_SIZE
    requires forall x :: 0 <= x < FAST_SIZE ==> lk'[x] == if HuffBits(s, i) <= ToBits(x, FAST_BITS) then 512 * s[i] + i else lk[x]
    ensures Inv(s, lk', tr, nodes, home, i + 1)
  {
    hide HuffBits, Kraft, ToBits, FromBits, Distinct, LensUpTo;
    assert Sizes(s, lk', tr, nodes);
    forall k | 0 <= k < |nodes|
      ensures NodeOk(s, lk', tr, nodes, k)
    {
      ShortKeepsNode(s, lk, tr, nodes, i, lk', k);
    }
    forall x | 0 <= x < FAST_SIZE
      ensures LookupOk(s, lk', tr, nodes, x)
    {
      assert LookupOk(s, lk, tr, nodes, x);
    }
    forall k, b | 0 <= k < |nodes| && 0 <= b < 2
      ensures SlotOk(s, lk', tr, nodes, k, b)
    {
      assert SlotOk(s, lk, tr, nodes, k, b);
    }
    forall j | 0 <= j < i + 1
      ensures SymOk(s, lk', tr, nodes, home, j)
    {
      if j < i {
        ShortKeepsSym(s, lk, tr, nodes, home, i, lk', j);
      }
    }
  }

  lemma ShortKeepsNode(s: seq<nat>, lk: seq<int>, tr: seq<int>, nodes: seq<Node>, i: nat, lk': seq<int>, k: nat)
    requires Sizes(s, lk, tr, nodes) && Sizes(s, lk', tr, nodes) && Kraft(s, MAX_LEN)
    requires k < |nodes| && NodeOk(s, lk, tr, nodes, k) && i < |s| && 1 <= s[i] <= FAST_BITS
    requires forall x :: 0 <= x < FAST_SIZE ==> lk'[x] == if HuffBits(s, i) <= ToBits(x, FAST_BITS) then 512 * s[i] + i else lk[x]
    ensures NodeOk(s, lk', tr, nodes, k)
  {
    hide HuffBits, Kraft, ToBits, FromBits;
    var p := nodes[k].path;
    if |p| == FAST_BITS {
      PathOf(p);
      NoCodeInside(s, i, nodes[k].owner, p);
    }
  }

  lemma ShortKeepsSym(s: seq<nat>, lk: seq<int>, tr: seq<int>, nodes: seq<Node>, home: seq<nat>, i: nat, lk': seq<int>, j: nat)
    requires Sizes(s, lk, tr, nodes) && Sizes(s, lk', tr, nodes) && Kraft(s, MAX_LEN)
    requires |home| == |s| && j < i < |s| && 1 <= s[i] <= FAST_BITS && SymOk(s, lk, tr, nodes, home, j)
    requires forall x :: 0 <= x < FAST_SIZE ==> lk'[x] == if HuffBits(s, i) <= ToBits(x, FAST_BITS) then 512 * s[i] + i else lk[x]
    ensures SymOk(s, lk', tr, nodes, home, j)
  {
    hide HuffBits, Kraft, ToBits, FromBits;
    if 0 < s[j] <= FAST_BITS {
      forall x | 0 <= x < FAST_SIZE && HuffBits(s, j) <= ToBits(x, FAST_BITS)
        ensures lk'[x] == 512 * s[j] + j
      {
        if HuffBits(s, i) <= ToBits(x, FAST_BITS) {
          PrefixFree(s, i, j, ToBits(x, FAST_BITS), MAX_LEN);
        }
      }
    }
  }

  // ---------------------------------------------------------------- growing the tree

  /** A table differs from another in one lookup entry or one slot, and perhaps by a new last node. */
  lemma AddRoot(s: seq<nat>, lk: seq<int>, tr: seq<int>, nodes: seq<Node>, home: seq<nat>, i: nat, p: seq<bool>)
    requires Inv(s, lk, tr, nodes, home, i) && i < |s| && s[i] > FAST_BITS && |p| == FAST_BITS && p <= HuffBits(s, i)
    requires 2 * (|nodes| + 1) <= |tr| && Index(p) < FAST_SIZE && lk[Index(p)] == 0
    ensures Inv(s, lk[Index(p) := Ref(|nodes|)], tr, nodes + [Node(p, i, 0)], home, i)
  {
    hide HuffBits, Kraft, ToBits, FromBits, LensUpTo;
    var n := |nodes|;
    var lk', nodes' := lk[Index(p) := Ref(n)], nodes + [Node(p, i, 0)];
    PathOf(p);
    RefFacts(n);
    assert Sizes(s, lk', tr, nodes');
    forall k | 0 <= k < n
      ensures nodes[k].path != p && NodeOk(s, lk', tr, nodes', k)
    {
      assert NodeOk(s, lk, tr, nodes, k);
      RefFacts(k);
    }
    assert NodeOk(s, lk', tr, nodes', n);
    forall x | 0 <= x < FAST_SIZE
      ensures LookupOk(s, lk', tr, nodes', x)
    {
      assert LookupOk(s, lk, tr, nodes, x);
    }
    forall k, b | 0 <= k < n + 1 && 0 <= b < 2
      ensures SlotOk(s, lk', tr, nodes', k, b)
    {
      if k < n {
        assert SlotOk(s, lk, tr, nodes, k, b);
      }
    }
    forall j | 0 <= j < i
      ensures SymOk(s, lk', tr, nodes', home, j)
    {
      assert SymOk(s, lk, tr, nodes, home, j);
      if 0 < s[j] <= FAST_BITS && HuffBits(s, j) <= p {
        NoCodeInside(s, j, i, p);
      }
    }
  }

  /** A new child below node `k`, on the way to symbol `i`. */
  lemma AddChild(s: seq<nat>, lk: seq<int>, tr: seq<int>, nodes: seq<Node>, home: seq<nat>, i: nat, k: nat, b: nat)
    requires Inv(s, lk, tr, nodes, home, i) && i < |s| && k < |nodes| && b < 2
    requires var p := nodes[k].path + [b == 1]; |p| < s[i] && p <= HuffBits(s, i)
    requires 2 * (|nodes| + 1) <= |tr| && tr[2 * k + b] == 0
    ensures Inv(s, lk, tr[2 * k + b := Ref(|nodes|)], nodes + [Node(nodes[k].path + [b == 1], i, k)], home, i)
  {
    hide HuffBits, Kraft, ToBits, FromBits, LensUpTo;
    var n, p := |nodes|, nodes[k].path + [b == 1];
    var tr', nodes' := tr[2 * k + b := Ref(n)], nodes + [Node(p, i, k)];
    RefFacts(n);
    assert NodeOk(s, lk, tr, nodes, k);
    assert s[i] <= MAX_LEN by { LenBound(s, i); }
    assert Sizes(s, lk, tr', nodes');
    forall m | 0 <= m < n
      ensures nodes[m].path != p && NodeOk(s, lk, tr', nodes', m)
    {
      ChildKeepsNode(s, lk, tr, nodes, i, k, b, m);
    }
    SnocParts(nodes[k].path, b == 1);
    assert NodeOk(s, lk, tr', nodes', n);
    forall x | 0 <= x < FAST_SIZE
      ensures LookupOk(s, lk, tr', nodes', x)
    {
      assert LookupOk(s, lk, tr, nodes, x);
    }
    forall m, c | 0 <= m < n + 1 && 0 <= c < 2
      ensures SlotOk(s, lk, tr', nodes', m, c)
    {
      if m < n {
        assert SlotOk(s, lk, tr, nodes, m, c);
        ChildKeepsSlot(s, lk, tr, nodes, i, k, b, m, c);
      }
    }
    forall j | 0 <= j < i
      ensures SymOk(s, lk, tr', nodes', home, j)
    {
      ChildKeepsSym(s, lk, tr, nodes, home, i, k, b, j);
    }
  }

  lemma LenBound(s: seq<nat>, i: nat)
    requires LensUpTo(s, MAX_LEN) && i < |s|
    ensures s[i] <= MAX_LEN
  {
  }

  lemma ChildKeepsNode(s: seq<nat>, lk: seq<int>, tr: seq<int>, nodes: seq<Node>, i: nat, k: nat, b: nat, m: nat)
    requires Sizes(s, lk, tr, nodes) && Distinct(nodes) && k < |nodes| && b < 2 && m < |nodes|
    requires NodeOk(s, lk, tr, nodes, m) && NodeOk(s, lk, tr, nodes, k) && tr[2 * k + b] == 0 && 2 * (|nodes| + 1) <= |tr|
    ensures nodes[m].path != nodes[k].path + [b == 1]
    ensures var tr', nodes' := tr[2 * k + b := Ref(|nodes|)], nodes + [Node(nodes[k].path + [b == 1], i, k)];
      Sizes(s, lk, tr', nodes') && NodeOk(s, lk, tr', nodes', m)
  {
    hide HuffBits, ToBits, FromBits, LensUpTo;
    RefFacts(m);
    SnocParts(nodes[k].path, b == 1);
  }

  lemma SnocParts(p: seq<bool>, x: bool)
    ensures (p + [x])[..|p + [x]| - 1] == p && (p + [x])[|p + [x]| - 1] == x
  {
  }

  lemma LastParts(h: seq<bool>)
    requires h != []
    ensures h == h[..|h| - 1] + [h[|h| - 1]]
  {
  }

  lemma ChildKeepsSlot(s: seq<nat>, lk: seq<int>, tr: seq<int>, nodes: seq<Node>, i: nat, k: nat, b: nat, m: nat, c: nat)
    requires Sizes(s, lk, tr, nodes) && k < |nodes| && b < 2 && m < |nodes| && c < 2 && 2 * (|nodes| + 1) <= |tr|
    requires SlotOk(s, lk, tr, nodes, m, c)
    ensures var tr', nodes' := tr[2 * k + b := Ref(|nodes|)], nodes + [Node(nodes[k].path + [b == 1], i, k)];
      Sizes(s, lk, tr', nodes') && SlotOk(s, lk, tr', nodes', m, c)
  {
    hide HuffBits, ToBits, FromBits, LensUpTo;
    RefFacts(|nodes|);
  }

  lemma ChildKeepsSym(s: seq<nat>, lk: seq<int>, tr: seq<int>, nodes: seq<Node>, home: seq<nat>, i: nat, k: nat, b: nat, j: nat)
    requires Sizes(s, lk, tr, nodes) && Kraft(s, MAX_LEN) && |home| == |s| && k < |nodes| && b < 2 && i < |s| && j < |s|
    requires var p := nodes[k].path + [b == 1]; |p| < s[i] && p <= HuffBits(s, i)
    requires SymOk(s, lk, tr, nodes, home, j) && 2 * (|nodes| + 1) <= |tr|
    ensures var tr', nodes' := tr[2 * k + b := Ref(|nodes|)], nodes + [Node(nodes[k].path + [b == 1], i, k)];
      Sizes(s, lk, tr', nodes') && SymOk(s, lk, tr', nodes', home, j)
  {
    hide HuffBits, Kraft, ToBits, FromBits, LensUpTo;
    if s[j] > FAST_BITS {
      NoCodeInside(s, j, i, nodes[k].path + [b == 1]);
      LastParts(HuffBits(s, j));
    }
  }

  /** The last bit of a long code: its slot receives the symbol. */
  lemma SetLeaf(s: seq<nat>, lk: seq<int>, tr: seq<int>, nodes: seq<Node>, home: seq<nat>, i: nat, k: nat, b: nat)
    requires Inv(s, lk, tr, nodes, home, i) && i < |s| && k < |nodes| && b < 2 && s[i] > FAST_BITS
    requires HuffBits(s, i) == nodes[k].path + [b == 1]
    ensures Inv(s, lk, tr[2 * k + b := i], nodes, home[i := k], i + 1)
  {
    hide HuffBits, Kraft, ToBits, FromBits, LensUpTo, Distinct;
    var tr', home', h := tr[2 * k + b := i], home[i := k], HuffBits(s, i);
    assert Sizes(s, lk, tr', nodes);
    forall m | 0 <= m < |nodes|
      ensures NodeOk(s, lk, tr', nodes, m)
    {
      LeafKeepsNode(s, lk, tr, nodes, i, k, b, m);
    }
    forall x | 0 <= x < FAST_SIZE
      ensures LookupOk(s, lk, tr', nodes, x)
    {
      assert LookupOk(s, lk, tr, nodes, x);
    }
    forall m, c | 0 <= m < |nodes| && 0 <= c < 2
      ensures SlotOk(s, lk, tr', nodes, m, c)
    {
      assert SlotOk(s, lk, tr, nodes, m, c);
    }
    forall j | 0 <= j < i + 1
      ensures SymOk(s, lk, tr', nodes, home', j)
    {
      if j < i {
        LeafKeepsSym(s, lk, tr, nodes, home, i, k, b, j);
      } else {
        assert h[..s[i] - 1] == nodes[k].path && h[s[i] - 1] == (b == 1);
      }
    }
  }

  lemma LeafKeepsNode(s: seq<nat>, lk: seq<int>, tr: seq<int>, nodes: seq<Node>, i: nat, k: nat, b: nat, m: nat)
    requires Sizes(s, lk, tr, nodes) && Kraft(s, MAX_LEN) && i < |s| && k < |nodes| && b < 2 && m < |nodes| && s[i] > FAST_BITS
    requires NodeOk(s, lk, tr, nodes, m) && HuffBits(s, i) == nodes[k].path + [b == 1]
    ensures Sizes(s, lk, tr[2 * k + b := i], nodes) && NodeOk(s, lk, tr[2 * k + b := i], nodes, m)
  {
    hide HuffBits, Kraft, ToBits, FromBits, LensUpTo;
    LastParts(nodes[m].path);
    NoCodeInside(s, i, nodes[m].owner, nodes[m].path);
  }

  lemma LeafKeepsSym(s: seq<nat>, lk: seq<int>, tr: seq<int>, nodes: seq<Node>, home: seq<nat>, i: nat, k: nat, b: nat, j: nat)
    requires Sizes(s, lk, tr, nodes) && Kraft(s, MAX_LEN) && |home| == |s| && j < i < |s| && k < |nodes| && b < 2 && s[i] > FAST_BITS
    requires SymOk(s, lk, tr, nodes, home, j) && HuffBits(s, i) == nodes[k].path + [b == 1]
    ensures Sizes(s, lk, tr[2 * k + b := i], nodes) && SymOk(s, lk, tr[2 * k + b := i], nodes, home[i := k], j)
  {
    hide HuffBits, Kraft, ToBits, FromBits, LensUpTo;
    if s[j] > FAST_BITS {
      LastParts(HuffBits(s, j));
      if HuffBits(s, j) <= HuffBits(s, i) {
        SameCode(s, j, i);
      }
    }
  }
}
