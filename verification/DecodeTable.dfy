/**
 Building and using the decoding table (miniz.c, the table building loop of `tinfl_decompress`,
 `TINFL_HUFF_DECODE` and `TINFL_HUFF_BITBUF_FILL`).
 */
module DecodeTables {
  import opened Bits
  import opened Canonical
  import opened DecodeTree
  import opened DecodeCount
  import I = InflateSpec
  import H = HuffTables
  import D = DeflateBits
  import L = InflateSlips

  // ---------------------------------------------------------------- finding a code

  /** Every prefix of a node's path from 10 bits on is the path of a node. */
  lemma {:induction false} AncestorAt(s: seq<nat>, lk: seq<int>, tr: seq<int>, nodes: seq<Node>, home: seq<nat>, done: nat, k: nat, m: nat)
    returns (j: nat)
    requires Inv(s, lk, tr, nodes, home, done) && k < |nodes| && FAST_BITS <= m <= |nodes[k].path|
    ensures j < |nodes| && nodes[j].path == nodes[k].path[..m]
    decreases k
  {
    hide HuffBits, Kraft, LookupOk, SlotOk, SymOk, Distinct, LensUpTo;
    var p := nodes[k].path;
    assert NodeOk(s, lk, tr, nodes, k);
    if m == |p| {
      j := k;
      assert p[..m] == p;
    } else {
      j := AncestorAt(s, lk, tr, nodes, home, done, nodes[k].par, m);
      assert p[..|p| - 1][..m] == p[..m];
    }
  }

  lemma SymAt(s: seq<nat>, lk: seq<int>, tr: seq<int>, nodes: seq<Node>, home: seq<nat>, i: nat)
    requires Inv(s, lk, tr, nodes, home, |s|) && i < |s|
    ensures Sizes(s, lk, tr, nodes) && |home| == |s|
    ensures SymOk(s, lk, tr, nodes, home, i) && Kraft(s, MAX_LEN)
  {
  }

  lemma NodeAt(s: seq<nat>, lk: seq<int>, tr: seq<int>, nodes: seq<Node>, home: seq<nat>, done: nat, k: nat)
    requires Inv(s, lk, tr, nodes, home, done) && k < |nodes|
    ensures Sizes(s, lk, tr, nodes) && NodeOk(s, lk, tr, nodes, k) && Kraft(s, MAX_LEN)
    ensures forall j :: 0 <= j < |nodes| && nodes[j].path == nodes[k].path ==> j == k
  {
  }

  /** The lookup entry settles codes of up to 10 bits and leads on for longer ones. */
  lemma AtLookup(s: seq<nat>, lk: seq<int>, tr: seq<int>, nodes: seq<Node>, home: seq<nat>, x: nat, bits: seq<bool>, i: nat)
    requires Inv(s, lk, tr, nodes, home, |s|) && x < FAST_SIZE && |bits| >= FAST_BITS && bits[..FAST_BITS] == ToBits(x, FAST_BITS)
    requires I.Begins(s, bits, i)
    ensures lk[x] >= 0 ==> s[i] <= FAST_BITS && lk[x] == 512 * s[i] + i
    ensures lk[x] < 0 ==> s[i] > FAST_BITS
  {
    hide HuffBits, Kraft, Inv, NodeOk, ToBits, Index;
    SymAt(s, lk, tr, nodes, home, i);
    var h := HuffBits(s, i);
    if s[i] <= FAST_BITS {
      assert h <= bits[..FAST_BITS];
    } else {
      var j := AncestorAt(s, lk, tr, nodes, home, |s|, home[i], FAST_BITS);
      assert nodes[j].path == h[..FAST_BITS] == bits[..FAST_BITS];
      NodeAt(s, lk, tr, nodes, home, |s|, j);
      RootAt(s, lk, tr, nodes, j, x);
    }
  }

  lemma RootAt(s: seq<nat>, lk: seq<int>, tr: seq<int>, nodes: seq<Node>, j: nat, x: nat)
    requires Sizes(s, lk, tr, nodes) && j < |nodes| && NodeOk(s, lk, tr, nodes, j) && x < FAST_SIZE && nodes[j].path == ToBits(x, FAST_BITS)
    ensures lk[x] == Ref(j) < 0
  {
    hide HuffBits, ToBits;
    IndexOf(x);
  }

  /** So does a slot of the tree, one bit at a time. */
  lemma AtSlot(s: seq<nat>, lk: seq<int>, tr: seq<int>, nodes: seq<Node>, home: seq<nat>, k: nat, t: nat, bits: seq<bool>, i: nat)
    requires Inv(s, lk, tr, nodes, home, |s|) && k < |nodes| && t < |bits| && nodes[k].path == bits[..t] && I.Begins(s, bits, i)
    ensures 2 * k + 1 < |tr|
    ensures var v := tr[2 * k + BitValue(bits[t])];
      && (v >= 0 ==> s[i] == t + 1 && v == i)
      && (v < 0 ==> s[i] > t + 1)
  {
    hide HuffBits, Kraft, Inv, NodeOk, ToBits;
    SymAt(s, lk, tr, nodes, home, i);
    NodeAt(s, lk, tr, nodes, home, |s|, k);
    var h := HuffBits(s, i);
    InnerSlot(s, lk, tr, nodes, k, i, bits, t);
    if s[i] == t + 1 {
      assert h[..t] == bits[..t];
    } else {
      var j := AncestorAt(s, lk, tr, nodes, home, |s|, home[i], t + 1);
      assert nodes[home[i]].path == h[..s[i] - 1] && nodes[j].path == h[..s[i] - 1][..t + 1] == bits[..t + 1];
      NodeAt(s, lk, tr, nodes, home, |s|, j);
      ChildAt(s, lk, tr, nodes, j, bits, t, k);
    }
  }

  lemma InnerSlot(s: seq<nat>, lk: seq<int>, tr: seq<int>, nodes: seq<Node>, k: nat, i: nat, bits: seq<bool>, t: nat)
    requires Sizes(s, lk, tr, nodes) && k < |nodes| && NodeOk(s, lk, tr, nodes, k) && Kraft(s, MAX_LEN)
    requires t < |bits| && nodes[k].path == bits[..t] && I.Begins(s, bits, i)
    ensures s[i] > t >= FAST_BITS && 2 * k + 1 < |tr| && t < MAX_LEN
  {
    hide HuffBits, Kraft;
    NoCodeInside(s, i, nodes[k].owner, nodes[k].path);
    PrefixShorter(HuffBits(s, i), bits, t);
  }

  lemma PrefixShorter(h: seq<bool>, bits: seq<bool>, t: nat)
    requires h <= bits && t <= |bits|
    ensures |h| <= t ==> h <= bits[..t]
  {
  }

  lemma ChildAt(s: seq<nat>, lk: seq<int>, tr: seq<int>, nodes: seq<Node>, j: nat, bits: seq<bool>, t: nat, k: nat)
    requires Sizes(s, lk, tr, nodes) && j < |nodes| && NodeOk(s, lk, tr, nodes, j)
    requires FAST_BITS <= t < |bits| && nodes[j].path == bits[..t + 1] && k < |nodes|
    requires forall m :: 0 <= m < |nodes| && nodes[m].path == bits[..t] ==> m == k
    ensures tr[2 * k + BitValue(bits[t])] == Ref(j) < 0
  {
    hide HuffBits;
    assert bits[..t + 1][..t] == bits[..t];
  }

  /** However the bits go on, if they begin with a code at all it is that of `sym`. */
  ghost predicate Settles(s: seq<nat>, bits: seq<bool>, sym: nat, len: nat)
  {
    forall b: seq<bool>, i: nat :: bits <= b && I.Begins(s, b, i) ==> sym == i && len == s[i]
  }

  /** The code the bits begin with; with none, symbol 0 and no bits or those walked in the tree. */
  ghost predicate Lands(s: seq<nat>, bits: seq<bool>, sym: nat, len: nat)
  {
    (I.Begins(s, bits, sym) && len == s[sym]) || (sym == 0 && L.SlipLength(s, len))
  }

  /** However the bits go on, they do not begin with a code of length up to `t`. */
  ghost predicate Beyond(s: seq<nat>, bits: seq<bool>, t: nat)
  {
    forall b: seq<bool>, i: nat :: bits <= b && I.Begins(s, b, i) ==> s[i] > t
  }

  /** The bits already begin with a code. */
  ghost predicate Settled(s: seq<nat>, bits: seq<bool>)
  {
    exists i: nat :: I.Begins(s, bits, i)
  }

  /** Where the tree leads from slot value `v`, `t` bits in: symbol and code length. */
  ghost function Follow(tr: seq<int>, v: int, bitBuf: nat, t: nat): (nat, nat)
    decreases MAX_LEN - t
  {
    if v >= 0 then (v, t)
    else
      var z := -v - 1 + bitBuf / Pow2(t) % 2;
      if t >= MAX_LEN || z >= |tr| then (0, t) else Follow(tr, tr[z], bitBuf, t + 1)
  }

  ghost function Result(lk: seq<int>, tr: seq<int>, bitBuf: nat): (nat, nat)
    requires |lk| == FAST_SIZE
  {
    var v := lk[bitBuf % FAST_SIZE];
    if v >= 0 then (v % 512, v / 512) else Follow(tr, v, bitBuf, FAST_BITS)
  }

  // ---------------------------------------------------------------- bits of a number

  lemma {:induction false} BitAt(v: nat, n: nat, t: nat)
    requires t < n
    ensures ToBits(v, n)[t] == (v / Pow2(t) % 2 == 1)
  {
    if t > 0 {
      BitAt(v / 2, n - 1, t - 1);
      DivDiv(v, 2, Pow2(t - 1));
      hide ToBits;
      BitsFrom(v, n);
    } else {
      assert v / Pow2(0) == v;
    }
  }

  lemma BitsFrom(v: nat, n: nat)
    requires n > 0
    ensures ToBits(v, n) == [v % 2 == 1] + ToBits(v / 2, n - 1)
  {
  }

  lemma {:induction false} LowBits(v: nat, n: nat, m: nat)
    requires m <= n
    ensures ToBits(v, n)[..m] == ToBits(v % Pow2(m), m) == ToBits(v, m)
  {
    hide ToBits, Pow2;
    var q, r := DivMod(v, Pow2(m));
    ToBitsJoin(r, m, q, n - m);
    ToBitsJoin(r, m, q, 0);
    assert ToBits(v, m + 0) == ToBits(r, m) + ToBits(q, 0) == ToBits(r, m) by { NoneOf(q); }
  }

  lemma NoneOf(v: nat)
    ensures ToBits(v, 0) == []
  {
  }

  /** A short code begins the 10-bit index `x` exactly when it is its low bits. */
  lemma ShortIndex(rev: nat, l: nat, x: nat)
    requires l <= FAST_BITS && rev < Pow2(l)
    ensures ToBits(rev, l) <= ToBits(x, FAST_BITS) <==> x % Pow2(l) == rev
  {
    hide ToBits, Pow2;
    LowBits(x, FAST_BITS, l);
    var q, r := DivMod(x, Pow2(l));
    FromToBits(rev, l);
    FromToBits(r, l);
    assert ToBits(rev, l) <= ToBits(x, FAST_BITS) <==> ToBits(rev, l) == ToBits(x, FAST_BITS)[..l];
  }

  lemma ModGap(x: nat, y: nat, p: nat)
    requires p > 0 && y <= x < y + p && x % p == y % p
    ensures x == y
  {
    var q, r := DivMod(x, p);
    var q', r' := DivMod(y, p);
    MulCancel(q, q' + 1, p);
    Distrib(q', 1, p);
    MulCancel(q', q, p);
  }

  lemma ModStep(y: nat, p: nat)
    requires p > 0
    ensures (y + p) % p == y % p
  {
    var q, r := DivMod(y, p);
    Distrib(q, 1, p);
    DivUnique(y + p, p, q + 1, r);
  }

  // ---------------------------------------------------------------- room

  lemma NewPath(s: seq<nat>, lk: seq<int>, tr: seq<int>, nodes: seq<Node>, home: seq<nat>, i: nat, k: nat, b: nat)
    requires Inv(s, lk, tr, nodes, home, i) && k < |nodes| && b < 2 && tr[2 * k + b] == 0
    ensures forall m :: 0 <= m < |nodes| ==> nodes[m].path != nodes[k].path + [b == 1]
    ensures |nodes[k].path| >= FAST_BITS
  {
    hide HuffBits, Kraft, LookupOk, SlotOk, SymOk, LensUpTo;
    assert NodeOk(s, lk, tr, nodes, k);
    SnocParts(nodes[k].path, b == 1);
    forall m | 0 <= m < |nodes|
      ensures nodes[m].path != nodes[k].path + [b == 1]
    {
      assert NodeOk(s, lk, tr, nodes, m);
      RefFacts(m);
    }
  }

  lemma NewRoot(s: seq<nat>, lk: seq<int>, tr: seq<int>, nodes: seq<Node>, home: seq<nat>, i: nat, p: seq<bool>)
    requires Inv(s, lk, tr, nodes, home, i) && |p| == FAST_BITS && Index(p) < FAST_SIZE && lk[Index(p)] == 0
    ensures forall m :: 0 <= m < |nodes| ==> nodes[m].path != p
  {
    hide HuffBits, Kraft, LookupOk, SlotOk, SymOk, LensUpTo, Index;
    forall m | 0 <= m < |nodes|
      ensures nodes[m].path != p
    {
      assert NodeOk(s, lk, tr, nodes, m);
      RefFacts(m);
    }
  }

  /** There is always room for one more node. */
  lemma Room(s: seq<nat>, lk: seq<int>, tr: seq<int>, nodes: seq<Node>, home: seq<nat>, i: nat, p: seq<bool>, par: nat)
    requires Inv(s, lk, tr, nodes, home, i) && I.TableOk(s) && i < |s| && FAST_BITS <= |p| < s[i] && p <= HuffBits(s, i)
    requires forall m :: 0 <= m < |nodes| ==> nodes[m].path != p
    requires |tr| >= 10 && |tr| >= 2 * |s|
    ensures 2 * (|nodes| + 1) <= |tr|
  {
    hide HuffBits, Kraft, LookupOk, SlotOk, SymOk, LensUpTo, I.TableOk;
    var nodes' := nodes + [Node(p, i, par)];
    forall k | 0 <= k < |nodes'|
      ensures nodes'[k].owner < |s| && FAST_BITS <= |nodes'[k].path| < s[nodes'[k].owner] && nodes'[k].path <= HuffBits(s, nodes'[k].owner)
    {
      if k < |nodes| {
        assert NodeOk(s, lk, tr, nodes, k);
      }
    }
    assert InsideCodes(s, nodes');
    EnoughSlots(s, nodes');
  }

  // ---------------------------------------------------------------- the table

  /** Every entry set for a short code, the others as they were. */
  ghost predicate ShortSet(lk: seq<int>, lk0: seq<int>, rev: nat, p: nat, below: nat, v: int)
    requires p > 0
  {
    |lk| == |lk0| == FAST_SIZE && forall x :: 0 <= x < FAST_SIZE ==> lk[x] == if x < below && x % p == rev then v else lk0[x]
  }

  lemma ShortNext(lk: seq<int>, lk0: seq<int>, rev: nat, p: nat, at: nat, v: int)
    requires p > 0 && ShortSet(lk, lk0, rev, p, at, v) && at % p == rev && at < FAST_SIZE
    ensures ShortSet(lk[at := v], lk0, rev, p, at + p, v)
  {
    forall x | 0 <= x < FAST_SIZE
      ensures lk[at := v][x] == if x < at + p && x % p == rev then v else lk0[x]
    {
      if at <= x < at + p && x % p == rev {
        ModGap(x, at, p);
      }
    }
  }

  lemma ShortStart(lk: seq<int>, rev: nat, p: nat, v: int)
    requires |lk| == FAST_SIZE && rev < p
    ensures ShortSet(lk, lk, rev, p, rev, v) && rev % p == rev
  {
    forall x | 0 <= x < rev
      ensures x % p != rev
    {
      DivUnique(x, p, 0, x);
    }
    DivUnique(rev, p, 0, rev);
  }

  lemma ShortDone(s: seq<nat>, lk: seq<int>, lk0: seq<int>, tr: seq<int>, nodes: seq<Node>, home: seq<nat>, i: nat, rev: nat, at: nat)
    requires Inv(s, lk0, tr, nodes, home, i) && i < |s| && 1 <= s[i] <= FAST_BITS && at >= FAST_SIZE
    requires rev < Pow2(s[i]) && ToBits(rev, s[i]) == HuffBits(s, i)
    requires ShortSet(lk, lk0, rev, Pow2(s[i]), at, 512 * s[i] + i)
    ensures Inv(s, lk, tr, nodes, home, i + 1)
  {
    hide HuffBits, Inv, Pow2, ToBits;
    forall x | 0 <= x < FAST_SIZE
      ensures lk[x] == if HuffBits(s, i) <= ToBits(x, FAST_BITS) then 512 * s[i] + i else lk0[x]
    {
      ShortIndex(rev, s[i], x);
    }
    InsertShort(s, lk0, tr, nodes, home, i, lk);
  }

  lemma InvSizes(s: seq<nat>, lk: seq<int>, tr: seq<int>, nodes: seq<Node>, home: seq<nat>, done: nat)
    requires Inv(s, lk, tr, nodes, home, done)
    ensures |s| <= 512 && |lk| == FAST_SIZE && 2 * |nodes| <= |tr| && |home| == |s| && done <= |s|
    ensures forall i :: 0 <= i < |s| ==> s[i] <= MAX_LEN
  {
  }

  /** An unused symbol changes nothing. */
  lemma SkipSymbol(s: seq<nat>, lk: seq<int>, tr: seq<int>, nodes: seq<Node>, home: seq<nat>, i: nat)
    requires Inv(s, lk, tr, nodes, home, i) && i < |s| && s[i] == 0
    ensures Inv(s, lk, tr, nodes, home, i + 1)
  {
    hide NodeOk, LookupOk, SlotOk, HuffBits, Kraft;
  }

  /** The lookup entry a long code starts from is free or leads to a node. */
  lemma RootEntry(s: seq<nat>, lk: seq<int>, tr: seq<int>, nodes: seq<Node>, home: seq<nat>, i: nat, x: nat)
    requires Inv(s, lk, tr, nodes, home, i) && i < |s| && s[i] > FAST_BITS && x < FAST_SIZE && ToBits(x, FAST_BITS) == HuffBits(s, i)[..FAST_BITS]
    ensures lk[x] == 0 || (IsRef(lk[x], |nodes|) && nodes[NodeOf(lk[x])].path == HuffBits(s, i)[..FAST_BITS])
    ensures Index(HuffBits(s, i)[..FAST_BITS]) == x
  {
    hide NodeOk, SlotOk, SymOk, HuffBits, Kraft, ToBits, Index;
    IndexOf(x);
    assert LookupOk(s, lk, tr, nodes, x);
    if lk[x] > 0 {
      SameCode(s, lk[x] % 512, i);
    }
  }

  lemma SlotEntry(s: seq<nat>, lk: seq<int>, tr: seq<int>, nodes: seq<Node>, home: seq<nat>, i: nat, k: nat, t: nat)
    requires Inv(s, lk, tr, nodes, home, i) && i < |s| && k < |nodes| && t + 1 < s[i] && nodes[k].path == HuffBits(s, i)[..t]
    ensures 2 * k + 1 < |tr|
    ensures var h := HuffBits(s, i); var b := BitValue(h[t]); var v := tr[2 * k + b];
      && nodes[k].path + [b == 1] == h[..t + 1]
      && (v == 0 || (IsRef(v, |nodes|) && nodes[NodeOf(v)].path == h[..t + 1]))
  {
    hide NodeOk, LookupOk, SymOk, HuffBits, Kraft;
    var h := HuffBits(s, i);
    var b := BitValue(h[t]);
    assert h[..t + 1] == h[..t] + [h[t]];
    assert SlotOk(s, lk, tr, nodes, k, b);
    if tr[2 * k + b] > 0 {
      NoCodeInside(s, tr[2 * k + b], i, h[..t + 1]);
    }
  }

  /** With Kraft sum exactly 1, every bit string decodes to the one symbol whose code it begins with. */
  lemma DecodesAll(s: seq<nat>, bits: seq<bool>, sym: nat, len: nat)
    requires Complete(s, MAX_LEN) && |bits| == MAX_LEN && Settles(s, bits, sym, len)
    ensures I.Begins(s, bits, sym) && len == s[sym]
  {
    hide Complete, HuffBits;
    var i := CompleteDecodes(s, bits, MAX_LEN);
    assert I.Begins(s, bits, i);
  }

  class DecodeTable {
    const lookup: array<int>
    const tree: array<int>
    ghost var lens: seq<nat>
    ghost var nodes: seq<Node>
    ghost var home: seq<nat>

    ghost predicate Shape()
    {
      lookup.Length == FAST_SIZE && tree.Length >= 10 && lookup != tree
    }

    ghost predicate Holds(done: nat)
      reads this, lookup, tree
    {
      Shape() && Inv(lens, lookup[..], tree[..], nodes, home, done) && I.TableOk(lens) && tree.Length >= 2 * |lens|
    }

    ghost predicate Valid()
      reads this, lookup, tree
    {
      Holds(|lens|)
    }

    constructor (slots: nat)
      requires slots >= 10
      ensures Shape() && tree.Length == slots && fresh(lookup) && fresh(tree)
    {
      lookup := new int[FAST_SIZE](_ => 0);
      tree := new int[slots](_ => 0);
    }

    lemma HoldsFacts(done: nat)
      requires Holds(done)
      ensures Shape() && Inv(lens, lookup[..], tree[..], nodes, home, done) && I.TableOk(lens) && tree.Length >= 2 * |lens|
      ensures |lens| <= 512 && 2 * |nodes| <= tree.Length && |home| == |lens| && done <= |lens|
      ensures forall i :: 0 <= i < |lens| ==> lens[i] <= MAX_LEN
      ensures lookup.Length == FAST_SIZE == 1024 && tree.Length >= 10 && lookup != tree && FAST_BITS == 10 && MAX_LEN == 15
    {
      InvSizes(lens, lookup[..], tree[..], nodes, home, done);
    }

    /** A code of at most 10 bits fills every lookup entry it begins. */
    method PlaceShort(i: nat, codeSize: nat, rev0: nat)
      requires Holds(i) && i < |lens| && 1 <= codeSize == lens[i] <= FAST_BITS
      requires rev0 < Pow2(codeSize) && ToBits(rev0, codeSize) == HuffBits(lens, i)
      modifies lookup
      ensures Holds(i + 1)
    {
      hide *;
      HoldsFacts(i);
      ghost var lk, tr := lookup[..], tree[..];
      var p, k, rev := Pow2(codeSize), 512 * codeSize + i, rev0;
      ShortStart(lk, rev, p, k);
      while rev < FAST_SIZE
        invariant ShortSet(lookup[..], lk, rev0, p, rev, k) && rev % p == rev0
        decreases FAST_SIZE - rev
      {
        ghost var now := lookup[..];
        ShortNext(now, lk, rev0, p, rev, k);
        ModStep(rev, p);
        lookup[rev] := k;
        assert lookup[..] == now[rev := k];
        rev := rev + p;
      }
      assert tree[..] == tr;
      ShortDone(lens, lookup[..], lk, tr, nodes, home, i, rev0, rev);
      BeHolding(this, i + 1);
    }

    /** The node for the first 10 bits of a long code, made if need be. */
    method Root(i: nat, x: nat, treeNext0: int) returns (cur: int, treeNext: int, ghost k: nat)
      requires Holds(i) && i < |lens| && lens[i] > FAST_BITS && x < FAST_SIZE
      requires ToBits(x, FAST_BITS) == HuffBits(lens, i)[..FAST_BITS] && treeNext0 == Ref(|nodes|)
      modifies lookup, this`nodes
      ensures Holds(i) && treeNext == Ref(|nodes|)
      ensures k < |nodes| && cur == Ref(k) && nodes[k].path == HuffBits(lens, i)[..FAST_BITS]
    {
      hide *;
      HoldsFacts(i);
      ghost var lk, tr, h := lookup[..], tree[..], HuffBits(lens, i);
      ghost var p := h[..FAST_BITS];
      RootEntry(lens, lk, tr, nodes, home, i, x);
      cur, treeNext := lookup[x], treeNext0;
      if cur == 0 {
        NewRoot(lens, lk, tr, nodes, home, i, p);
        Room(lens, lk, tr, nodes, home, i, p, 0);
        AddRoot(lens, lk, tr, nodes, home, i, p);
        lookup[x] := treeNext;
        assert lookup[..] == lk[x := treeNext] && tree[..] == tr;
        cur, k := treeNext, |nodes|;
        nodes := nodes + [Node(p, i, 0)];
        treeNext := treeNext - 2;
        RefNext(k);
        BeHolding(this, i);
      } else {
        RefIs(cur, |nodes|);
        k := NodeOf(cur);
      }
    }

    /** One bit further down, a node made if need be. */
    method Descend(i: nat, cur0: int, bit: nat, treeNext0: int, ghost k0: nat, ghost t: nat) returns (cur: int, treeNext: int, ghost k: nat)
      requires Holds(i) && i < |lens| && t + 1 < lens[i] && k0 < |nodes| && nodes[k0].path == HuffBits(lens, i)[..t]
      requires cur0 == Ref(k0) && treeNext0 == Ref(|nodes|) && bit == BitValue(HuffBits(lens, i)[t])
      modifies tree, this`nodes
      ensures Holds(i) && treeNext == Ref(|nodes|)
      ensures k < |nodes| && cur == Ref(k) && nodes[k].path == HuffBits(lens, i)[..t + 1]
    {
      hide *;
      HoldsFacts(i);
      ghost var lk, tr, h := lookup[..], tree[..], HuffBits(lens, i);
      ghost var p := h[..t + 1];
      BitIs(bit, h[t]);
      RefSlots(k0, cur0, bit);
      SlotEntry(lens, lk, tr, nodes, home, i, k0, t);
      var slot := -(cur0 - bit) - 1;
      cur, treeNext := tree[slot], treeNext0;
      if cur == 0 {
        NewPath(lens, lk, tr, nodes, home, i, k0, bit);
        Room(lens, lk, tr, nodes, home, i, p, k0);
        AddChild(lens, lk, tr, nodes, home, i, k0, bit);
        tree[slot] := treeNext;
        assert tree[..] == tr[slot := treeNext] && lookup[..] == lk;
        cur, k := treeNext, |nodes|;
        nodes := nodes + [Node(p, i, k0)];
        treeNext := treeNext - 2;
        RefNext(k);
        BeHolding(this, i);
      } else {
        RefIs(cur, |nodes|);
        k := NodeOf(cur);
      }
    }

    /** A longer code: 10 bits through the lookup, the rest through the tree. */
    method PlaceLong(i: nat, codeSize: nat, rev0: nat, treeNext0: int) returns (treeNext: int)
      requires Holds(i) && i < |lens| && FAST_BITS < codeSize == lens[i] && treeNext0 == Ref(|nodes|)
      requires rev0 < Pow2(codeSize) && ToBits(rev0, codeSize) == HuffBits(lens, i)
      modifies lookup, tree, this`nodes, this`home
      ensures Holds(i + 1) && treeNext == Ref(|nodes|)
    {
      hide *;
      HoldsFacts(i);
      ghost var h := HuffBits(lens, i);
      LongIndex(rev0, codeSize);
      var cur;
      ghost var k: nat, t: nat := 0, FAST_BITS;
      cur, treeNext, k := Root(i, rev0 % FAST_SIZE, treeNext0);
      var rev, j := rev0 / 512, codeSize;
      LongStart(rev0);
      while j > FAST_BITS + 1
        invariant FAST_BITS + 1 <= j <= codeSize && t == FAST_BITS + (codeSize - j) && Holds(i)
        invariant rev == rev0 / Pow2(t - 1) && treeNext == Ref(|nodes|)
        invariant k < |nodes| && cur == Ref(k) && nodes[k].path == h[..t]
      {
        NextBit(rev0, codeSize, t);
        rev := rev / 2;
        cur, treeNext, k := Descend(i, cur, rev % 2, treeNext, k, t);
        t := t + 1;
        j := j - 1;
      }
      NextBit(rev0, codeSize, t);
      rev := rev / 2;
      Leaf(i, cur, rev % 2, k, t);
    }

    method Leaf(i: nat, cur: int, bit: nat, ghost k: nat, ghost t: nat)
      requires Holds(i) && i < |lens| && t + 1 == lens[i] > FAST_BITS && k < |nodes| && nodes[k].path == HuffBits(lens, i)[..t]
      requires cur == Ref(k) && bit == BitValue(HuffBits(lens, i)[t])
      modifies tree, this`home
      ensures Holds(i + 1)
    {
      hide *;
      HoldsFacts(i);
      ghost var lk, tr, h := lookup[..], tree[..], HuffBits(lens, i);
      BitIs(bit, h[t]);
      RefSlots(k, cur, bit);
      LastParts(h);
      SetLeaf(lens, lk, tr, nodes, home, i, k, bit);
      tree[-(cur - bit) - 1] := i;
      home := home[i := k];
      assert tree[..] == tr[2 * k + bit := i] && lookup[..] == lk;
      BeHolding(this, i + 1);
    }

    /** Both tables cleared. */
    method Clear()
      requires Shape()
      modifies lookup, tree
      ensures forall x :: 0 <= x < lookup.Length ==> lookup[x] == 0
      ensures forall z :: 0 <= z < tree.Length ==> tree[z] == 0
    {
      for x := 0 to lookup.Length
        invariant forall y :: 0 <= y < x ==> lookup[y] == 0
      {
        lookup[x] := 0;
      }
      for z := 0 to tree.Length
        invariant forall y :: 0 <= y < z ==> tree[y] == 0
        invariant forall y :: 0 <= y < lookup.Length ==> lookup[y] == 0
      {
        tree[z] := 0;
      }
    }

    /** One symbol of the table building loop. */
    method Place(i: nat, codeSize: nat, nextCode: array<int>, treeNext0: int) returns (treeNext: int)
      requires Holds(i) && i < |lens| && codeSize == lens[i] && treeNext0 == Ref(|nodes|)
      requires nextCode.Length == 17 && nextCode != lookup && nextCode != tree && H.NextCodes(lens, nextCode[..], i, MAX_LEN)
      modifies lookup, tree, nextCode, this`nodes, this`home
      ensures Holds(i + 1) && treeNext == Ref(|nodes|) && H.NextCodes(lens, nextCode[..], i + 1, MAX_LEN)
    {
      hide *;
      HoldsFacts(i);
      treeNext := treeNext0;
      NextAfter(lens, nextCode[..], i, MAX_LEN);
      if codeSize == 0 {
        SkipSymbol(lens, lookup[..], tree[..], nodes, home, i);
        BeHolding(this, i + 1);
        return;
      }
      ghost var lk, tr, next := lookup[..], tree[..], nextCode[..];
      var curCode := nextCode[codeSize];
      nextCode[codeSize] := nextCode[codeSize] + 1;
      assert nextCode[..] == next[codeSize := curCode + 1];
      var rev := H.ReverseBits(curCode, codeSize);
      CodeIs(lens, i);
      assert lookup[..] == lk && tree[..] == tr;
      BeHolding(this, i);
      if codeSize <= FAST_BITS {
        PlaceShort(i, codeSize, rev);
      } else {
        treeNext := PlaceLong(i, codeSize, rev, treeNext);
      }
    }

    /**
     The table for the code lengths `codeSizes[..n]`, or failure for lengths that are not those of a
     complete code or of at most one symbol. The tree never outgrows its slots.
     */
    method Build(codeSizes: array<nat>, n: nat) returns (ok: bool)
      requires Shape() && n <= codeSizes.Length && n <= 512 && 2 * n <= tree.Length && LensUpTo(codeSizes[..n], MAX_LEN)
      modifies this, lookup, tree
      ensures ok <==> I.TableOk(codeSizes[..n])
      ensures ok ==> Valid() && lens == codeSizes[..n] && (I.UsedSyms(lens) > 1 ==> |nodes| <= n - 1)
    {
      ghost var s := codeSizes[..n];
      Clear();
      hide *;
      var nextCode, total, usedSyms := CountSizes(codeSizes, n);
      TableCheck(s);
      if 65536 != total && usedSyms > 1 {
        return false;
      }
      lens, nodes, home := s, [], seq(|s|, _ => 0);
      EmptyTable(this);
      var treeNext := -1;
      RefZero();
      for symIndex := 0 to n
        invariant Holds(symIndex) && treeNext == Ref(|nodes|) && H.NextCodes(s, nextCode[..], symIndex, MAX_LEN)
        invariant lens == s && codeSizes[..n] == s && fresh(nextCode) && nextCode.Length == 17
      {
        treeNext := Place(symIndex, codeSizes[symIndex], nextCode, treeNext);
      }
      BeValid(this);
      FewNodes(this);
      return true;
    }

    // -------------------------------------------------------------- decoding

    /** Symbol and code length that the tables give for the low bits of `bitBuf`. */
    ghost function Decoded(bitBuf: nat): (nat, nat)
      requires Shape()
      reads lookup, tree
    {
      Result(lookup[..], tree[..], bitBuf)
    }

    /** One step down the tree. */
    method DownOne(bitBuf: nat, temp0: int, t: nat, ghost k0: nat, ghost n: nat) returns (temp: int, ghost k: nat)
      requires Valid() && FAST_BITS <= t < MAX_LEN && t < n && k0 < |nodes| && temp0 == Ref(k0) && nodes[k0].path == ToBits(bitBuf, n)[..t]
      ensures temp >= 0 ==> (temp < |lens| || temp == 0) && Settles(lens, ToBits(bitBuf, n), temp, t + 1) && Lands(lens, ToBits(bitBuf, n), temp, t + 1)
      ensures temp < 0 ==> t + 1 < MAX_LEN && k0 < k < |nodes| && temp == Ref(k) && nodes[k].path == ToBits(bitBuf, n)[..t + 1]
      ensures temp < 0 ==> Beyond(lens, ToBits(bitBuf, n), t + 1)
      ensures Follow(tree[..], temp0, bitBuf, t) == Follow(tree[..], temp, bitBuf, t + 1)
    {
      hide *;
      ValidHolds(this);
      HoldsFacts(|lens|);
      FromSlot(lens, lookup[..], tree[..], nodes, home, bitBuf, k0, t, n);
      NotIs(temp0, k0);
      temp := tree[-temp0 - 1 + bitBuf / Pow2(t) % 2];
      SlotCases(lens, nodes, k0, t, ToBits(bitBuf, n), temp);
      FollowOne(tree[..], temp0, bitBuf, t, k0);
      k := if temp < 0 then NodeOf(temp) else 0;
    }

    /** The loop that follows the tree from slot value `v` on. */
    method FollowTree(bitBuf: nat, v: int) returns (sym: nat, codeLen: nat)
      requires Valid() && v == lookup[bitBuf % FAST_SIZE] < 0
      ensures FAST_BITS < codeLen <= MAX_LEN && (sym < |lens| || sym == 0) && Settles(lens, ToBits(bitBuf, MAX_LEN), sym, codeLen)
      ensures (sym, codeLen) == Decoded(bitBuf) && Lands(lens, ToBits(bitBuf, MAX_LEN), sym, codeLen)
    {
      hide *;
      ValidHolds(this);
      HoldsFacts(|lens|);
      FromLookup(lens, lookup[..], tree[..], nodes, home, bitBuf, MAX_LEN);
      ResultTree(this, bitBuf);
      var temp := v;
      codeLen := FAST_BITS;
      ghost var k: nat := NodeOf(temp);
      while true
        invariant FAST_BITS <= codeLen < MAX_LEN && k < |nodes| && temp == Ref(k) && nodes[k].path == ToBits(bitBuf, MAX_LEN)[..codeLen]
        invariant Decoded(bitBuf) == Follow(tree[..], temp, bitBuf, codeLen)
        decreases |nodes| - k
      {
        temp, k := DownOne(bitBuf, temp, codeLen, k, MAX_LEN);
        codeLen := codeLen + 1;
        if temp >= 0 {
          FollowEnd(tree[..], temp, bitBuf, codeLen);
          return temp, codeLen;
        }
      }
    }

    /** The end of `TINFL_HUFF_DECODE`: the symbol whose code the bits begin with, if there is one. */
    method Decode(bitBuf: nat) returns (sym: nat, codeLen: nat)
      requires Valid()
      ensures codeLen <= MAX_LEN && (sym < |lens| || sym == 0) && (codeLen == 0 ==> sym == 0)
      ensures Settles(lens, ToBits(bitBuf, MAX_LEN), sym, codeLen) && (sym, codeLen) == Decoded(bitBuf)
      ensures Lands(lens, ToBits(bitBuf, MAX_LEN), sym, codeLen)
      ensures Complete(lens, MAX_LEN) ==> I.Begins(lens, ToBits(bitBuf, MAX_LEN), sym) && codeLen == lens[sym]
    {
      hide *;
      sym, codeLen := LookUp(bitBuf);
      if Complete(lens, MAX_LEN) {
        DecodesAll(lens, ToBits(bitBuf, MAX_LEN), sym, codeLen);
      }
    }

    method LookUp(bitBuf: nat) returns (sym: nat, codeLen: nat)
      requires Valid()
      ensures codeLen <= MAX_LEN && (sym < |lens| || sym == 0) && (codeLen == 0 ==> sym == 0)
      ensures Settles(lens, ToBits(bitBuf, MAX_LEN), sym, codeLen) && (sym, codeLen) == Decoded(bitBuf)
      ensures Lands(lens, ToBits(bitBuf, MAX_LEN), sym, codeLen)
    {
      hide *;
      ValidHolds(this);
      HoldsFacts(|lens|);
      var temp := lookup[bitBuf % FAST_SIZE];
      if temp >= 0 {
        FromShort(lens, lookup[..], tree[..], nodes, home, bitBuf);
        ResultShort(this, bitBuf);
        return temp % 512, temp / 512;
      }
      sym, codeLen := FollowTree(bitBuf, temp);
    }

    /**
     The test inside `TINFL_HUFF_BITBUF_FILL`: whether the `numBits` bits at hand settle the next code.
     It never asks for more bits than a code takes.
     */
    method Resolved(bitBuf: nat, numBits: nat) returns (done: bool)
      requires Valid() && numBits <= MAX_LEN
      ensures done ==> Decoded(bitBuf).1 <= numBits && Settles(lens, ToBits(bitBuf, numBits), Decoded(bitBuf).0, Decoded(bitBuf).1)
      ensures !done ==> !Settled(lens, ToBits(bitBuf, numBits))
    {
      hide *;
      ValidHolds(this);
      HoldsFacts(|lens|);
      var temp := lookup[bitBuf % FAST_SIZE];
      if temp >= 0 {
        var codeLen := temp / 512;
        ShortResolved(lens, lookup[..], tree[..], nodes, home, bitBuf, numBits);
        ResultShort(this, bitBuf);
        return codeLen != 0 && numBits >= codeLen;
      }
      if numBits <= FAST_BITS {
        LongUnsettled(lens, lookup[..], tree[..], nodes, home, bitBuf, numBits);
        return false;
      }
      FromLookup(lens, lookup[..], tree[..], nodes, home, bitBuf, numBits);
      ResultTree(this, bitBuf);
      var codeLen := FAST_BITS;
      ghost var k: nat := NodeOf(temp);
      while true
        invariant FAST_BITS <= codeLen < numBits && k < |nodes| && temp == Ref(k) && nodes[k].path == ToBits(bitBuf, numBits)[..codeLen]
        invariant Decoded(bitBuf) == Follow(tree[..], temp, bitBuf, codeLen)
        decreases |nodes| - k
      {
        temp, k := DownOne(bitBuf, temp, codeLen, k, numBits);
        codeLen := codeLen + 1;
        if temp >= 0 {
          FollowEnd(tree[..], temp, bitBuf, codeLen);
          return true;
        }
        if numBits < codeLen + 1 {
          BeyondUnsettled(lens, ToBits(bitBuf, numBits), codeLen);
          return false;
        }
      }
    }
  }

  lemma BeHolding(t: DecodeTable, done: nat)
    requires t.Shape() && Inv(t.lens, t.lookup[..], t.tree[..], t.nodes, t.home, done) && I.TableOk(t.lens) && t.tree.Length >= 2 * |t.lens|
    ensures t.Holds(done)
  {
  }

  lemma RefNext(k: nat)
    ensures Ref(k) - 2 == Ref(k + 1)
  {
  }

  lemma RefIs(v: int, n: nat)
    requires IsRef(v, n)
    ensures 0 <= NodeOf(v) < n && v == Ref(NodeOf(v))
  {
  }

  lemma RefSlots(k: nat, cur: int, bit: nat)
    requires cur == Ref(k)
    ensures -(cur - bit) - 1 == 2 * k + bit
  {
  }

  lemma BitIs(bit: nat, x: bool)
    requires bit == BitValue(x)
    ensures bit < 2 && (bit == 1) == x
  {
  }

  lemma LongIndex(rev: nat, n: nat)
    requires n > FAST_BITS
    ensures rev % FAST_SIZE < FAST_SIZE && ToBits(rev % FAST_SIZE, FAST_BITS) == ToBits(rev, n)[..FAST_BITS]
  {
    Pow2Values();
    hide ToBits, Pow2;
    LowBits(rev, n, FAST_BITS);
  }

  lemma LongStart(rev: nat)
    ensures rev / 512 == rev / Pow2(FAST_BITS - 1)
  {
    Pow2Values();
  }

  lemma NextBit(rev0: nat, n: nat, t: nat)
    requires 0 < t < n
    ensures rev0 / Pow2(t - 1) / 2 == rev0 / Pow2(t)
    ensures rev0 / Pow2(t) % 2 == BitValue(ToBits(rev0, n)[t])
  {
    DivDiv(rev0, Pow2(t - 1), 2);
    hide ToBits;
    BitAt(rev0, n, t);
  }

  // ---------------------------------------------------------------- building

  lemma NextAfter(s: seq<nat>, next: seq<int>, i: nat, limit: nat)
    requires i < |s| && s[i] <= limit && H.NextCodes(s, next, i, limit)
    ensures limit < |next| && (s[i] > 0 ==> next[s[i]] == CodeOf(s, i) && H.NextCodes(s, next[s[i] := next[s[i]] + 1], i + 1, limit))
    ensures s[i] == 0 ==> H.NextCodes(s, next, i + 1, limit)
  {
    hide First;
    assert s[..i + 1][..i] == s[..i];
    forall l | 1 <= l <= limit
      ensures Count(s[..i + 1], l) == Count(s[..i], l) + if s[i] == l then 1 else 0
    {
    }
  }

  method CountSizes(codeSizes: array<nat>, n: nat) returns (nextCode: array<int>, total: nat, usedSyms: nat)
    requires n <= codeSizes.Length && LensUpTo(codeSizes[..n], MAX_LEN)
    ensures fresh(nextCode) && nextCode.Length == 17 && H.NextCodes(codeSizes[..n], nextCode[..], 0, MAX_LEN)
    ensures total == 2 * Used(codeSizes[..n], MAX_LEN) && usedSyms == I.UsedSyms(codeSizes[..n])
  {
    ghost var s := codeSizes[..n];
    var totalSyms := new nat[16](_ => 0);
    assert s[..0] == [];
    for i := 0 to n
      invariant codeSizes[..n] == s && forall l :: 0 <= l < 16 ==> totalSyms[l] == Count(s[..i], l)
    {
      assert s[..i + 1][..i] == s[..i] && s[i] == codeSizes[i];
      totalSyms[codeSizes[i]] := totalSyms[codeSizes[i]] + 1;
    }
    assert s[..n] == s;
    nextCode, total, usedSyms := FirstCodes(s, totalSyms);
  }

  method FirstCodes(ghost s: seq<nat>, totalSyms: array<nat>) returns (nextCode: array<int>, total: nat, usedSyms: nat)
    requires totalSyms.Length == 16 && LensUpTo(s, MAX_LEN) && forall l :: 0 <= l < 16 ==> totalSyms[l] == Count(s, l)
    ensures fresh(nextCode) && nextCode.Length == 17 && H.NextCodes(s, nextCode[..], 0, MAX_LEN)
    ensures total == 2 * Used(s, MAX_LEN) && usedSyms == I.UsedSyms(s)
  {
    nextCode := new int[17](_ => 0);
    usedSyms, total := 0, 0;
    for i := 1 to 16
      invariant total == 2 * Used(s, i - 1) && usedSyms == CodesUpTo(s, i - 1)
      invariant forall l :: 1 <= l <= i ==> nextCode[l] == First(s, l)
    {
      usedSyms := usedSyms + totalSyms[i];
      total := (total + totalSyms[i]) * 2;
      nextCode[i + 1] := total;
    }
    CodesAreUsed(s, MAX_LEN);
    hide First;
    NoneCounted(s);
  }

  lemma NoneCounted(s: seq<nat>)
    ensures forall l :: Count(s[..0], l) == 0
  {
  }

  lemma TableCheck(s: seq<nat>)
    requires LensUpTo(s, MAX_LEN)
    ensures I.TableOk(s) <==> !(65536 != 2 * Used(s, MAX_LEN) && I.UsedSyms(s) > 1)
  {
    hide Used, I.UsedSyms;
    Pow2Values();
  }

  lemma RefZero()
    ensures Ref(0) == -1
  {
  }

  lemma EmptyTable(t: DecodeTable)
    requires t.Shape() && t.nodes == [] && |t.home| == |t.lens| <= 512 && t.tree.Length >= 2 * |t.lens|
    requires LensUpTo(t.lens, MAX_LEN) && I.TableOk(t.lens)
    requires forall x :: 0 <= x < t.lookup.Length ==> t.lookup[x] == 0
    requires forall z :: 0 <= z < t.tree.Length ==> t.tree[z] == 0
    ensures t.Holds(0)
  {
    hide I.TableOk, Kraft;
    D.TableOkKraft(t.lens);
  }

  lemma BeValid(t: DecodeTable)
    requires t.Holds(|t.lens|)
    ensures t.Valid()
  {
  }

  /** Building used at most n - 1 nodes of two slots each. */
  lemma FewNodes(t: DecodeTable)
    requires t.Holds(|t.lens|)
    ensures I.UsedSyms(t.lens) > 1 ==> |t.nodes| <= |t.lens| - 1
  {
    hide HuffBits, Kraft, LookupOk, SlotOk, SymOk, Used, I.UsedSyms;
    forall k | 0 <= k < |t.nodes|
      ensures t.nodes[k].owner < |t.lens| && FAST_BITS <= |t.nodes[k].path| < t.lens[t.nodes[k].owner]
      ensures t.nodes[k].path <= HuffBits(t.lens, t.nodes[k].owner)
    {
      assert NodeOk(t.lens, t.lookup[..], t.tree[..], t.nodes, k);
    }
    assert InsideCodes(t.lens, t.nodes);
    if I.UsedSyms(t.lens) > 1 {
      NoneUsed(t.lens);
      CompleteNodes(t.lens, t.nodes);
    }
  }

  // ---------------------------------------------------------------- decoding

  lemma ValidHolds(t: DecodeTable)
    requires t.Valid()
    ensures t.Holds(|t.lens|)
  {
  }

  lemma SlotCases(s: seq<nat>, nodes: seq<Node>, k: nat, t: nat, bits: seq<bool>, v: int)
    requires t < |bits| && SlotMeans(s, nodes, k, t, bits, v)
    ensures v >= 0 ==> (v < |s| || v == 0) && Settles(s, bits, v, t + 1) && Lands(s, bits, v, t + 1)
    ensures v < 0 ==> t + 1 < MAX_LEN && k < NodeOf(v) < |nodes| && v == Ref(NodeOf(v)) && nodes[NodeOf(v)].path == bits[..t + 1]
    ensures v < 0 ==> Beyond(s, bits, t + 1)
  {
  }

  lemma NotIs(temp: int, k: nat)
    requires temp == Ref(k)
    ensures -temp - 1 == 2 * k
  {
  }

  lemma FollowOne(tr: seq<int>, v: int, bitBuf: nat, t: nat, k: nat)
    requires v == Ref(k) && t < MAX_LEN && 2 * k + bitBuf / Pow2(t) % 2 < |tr|
    ensures 2 * k + bitBuf / Pow2(t) % 2 >= 0 && Follow(tr, v, bitBuf, t) == Follow(tr, tr[2 * k + bitBuf / Pow2(t) % 2], bitBuf, t + 1)
  {
    hide Pow2;
  }

  lemma FollowEnd(tr: seq<int>, v: int, bitBuf: nat, t: nat)
    requires v >= 0
    ensures Follow(tr, v, bitBuf, t) == (v, t)
  {
  }

  lemma ResultTree(t: DecodeTable, bitBuf: nat)
    requires t.Shape() && t.lookup[bitBuf % FAST_SIZE] < 0
    ensures t.Decoded(bitBuf) == Follow(t.tree[..], t.lookup[bitBuf % FAST_SIZE], bitBuf, FAST_BITS)
  {
  }

  lemma ResultShort(t: DecodeTable, bitBuf: nat)
    requires t.Shape() && t.lookup[bitBuf % FAST_SIZE] >= 0
    ensures t.Decoded(bitBuf) == (t.lookup[bitBuf % FAST_SIZE] % 512, t.lookup[bitBuf % FAST_SIZE] / 512)
  {
  }

  /** The first 10 bits of any continuation are those of the index. */
  lemma IndexBits(bitBuf: nat, n: nat, b: seq<bool>)
    requires n >= FAST_BITS && ToBits(bitBuf, n) <= b
    ensures |b| >= FAST_BITS && b[..FAST_BITS] == ToBits(bitBuf % FAST_SIZE, FAST_BITS)
  {
    Pow2Values();
    hide ToBits, Pow2;
    LowBits(bitBuf, n, FAST_BITS);
    assert b[..n][..FAST_BITS] == b[..FAST_BITS];
  }

  lemma FromShort(s: seq<nat>, lk: seq<int>, tr: seq<int>, nodes: seq<Node>, home: seq<nat>, bitBuf: nat)
    requires Inv(s, lk, tr, nodes, home, |s|) && lk[bitBuf % FAST_SIZE] >= 0
    ensures var v := lk[bitBuf % FAST_SIZE];
      && v / 512 <= MAX_LEN && (v % 512 < |s| || v % 512 == 0) && (v / 512 == 0 ==> v % 512 == 0)
      && Settles(s, ToBits(bitBuf, MAX_LEN), v % 512, v / 512) && Lands(s, ToBits(bitBuf, MAX_LEN), v % 512, v / 512)
  {
    hide NodeOk, SlotOk, SymOk, HuffBits, Kraft, ToBits;
    var x := bitBuf % FAST_SIZE;
    assert LookupOk(s, lk, tr, nodes, x);
    forall b: seq<bool>, i: nat | ToBits(bitBuf, MAX_LEN) <= b && I.Begins(s, b, i)
      ensures lk[x] % 512 == i && lk[x] / 512 == s[i]
    {
      IndexBits(bitBuf, MAX_LEN, b);
      AtLookup(s, lk, tr, nodes, home, x, b, i);
    }
    IndexBits(bitBuf, MAX_LEN, ToBits(bitBuf, MAX_LEN));
    LandsShort(s, lk, tr, nodes, x, ToBits(bitBuf, MAX_LEN));
  }

  lemma LandsShort(s: seq<nat>, lk: seq<int>, tr: seq<int>, nodes: seq<Node>, x: nat, bits: seq<bool>)
    requires Sizes(s, lk, tr, nodes) && x < FAST_SIZE && LookupOk(s, lk, tr, nodes, x) && lk[x] >= 0
    requires |bits| >= FAST_BITS && bits[..FAST_BITS] == ToBits(x, FAST_BITS)
    ensures Lands(s, bits, lk[x] % 512, lk[x] / 512)
  {
    hide HuffBits, ToBits;
    if lk[x] > 0 {
      var h := HuffBits(s, lk[x] % 512);
      assert h == bits[..FAST_BITS][..|h|] == bits[..|h|];
    }
  }

  lemma LandsSlot(s: seq<nat>, lk: seq<int>, tr: seq<int>, nodes: seq<Node>, k: nat, t: nat, bits: seq<bool>)
    requires Sizes(s, lk, tr, nodes) && k < |nodes| && NodeOk(s, lk, tr, nodes, k) && t < |bits| && nodes[k].path == bits[..t]
    requires SlotOk(s, lk, tr, nodes, k, BitValue(bits[t])) && tr[2 * k + BitValue(bits[t])] >= 0
    ensures Lands(s, bits, tr[2 * k + BitValue(bits[t])], t + 1)
  {
    hide HuffBits;
    var v := tr[2 * k + BitValue(bits[t])];
    if v > 0 {
      assert HuffBits(s, v) == bits[..t] + [bits[t]] == bits[..t + 1];
    } else {
      assert s[nodes[k].owner] >= t + 1;
    }
  }

  lemma FromLookup(s: seq<nat>, lk: seq<int>, tr: seq<int>, nodes: seq<Node>, home: seq<nat>, bitBuf: nat, n: nat)
    requires Inv(s, lk, tr, nodes, home, |s|) && lk[bitBuf % FAST_SIZE] < 0 && n >= FAST_BITS
    ensures var v, bits := lk[bitBuf % FAST_SIZE], ToBits(bitBuf, n);
      0 <= NodeOf(v) < |nodes| && v == Ref(NodeOf(v)) && nodes[NodeOf(v)].path == bits[..FAST_BITS]
  {
    hide NodeOk, SlotOk, SymOk, HuffBits, Kraft, ToBits;
    IndexBits(bitBuf, n, ToBits(bitBuf, n));
    assert LookupOk(s, lk, tr, nodes, bitBuf % FAST_SIZE);
  }

  lemma ShortResolved(s: seq<nat>, lk: seq<int>, tr: seq<int>, nodes: seq<Node>, home: seq<nat>, bitBuf: nat, n: nat)
    requires Inv(s, lk, tr, nodes, home, |s|) && lk[bitBuf % FAST_SIZE] >= 0 && n <= MAX_LEN
    ensures var v := lk[bitBuf % FAST_SIZE]; var bits := ToBits(bitBuf, n);
      && (v / 512 != 0 && n >= v / 512 ==> Settles(s, bits, v % 512, v / 512))
      && (!(v / 512 != 0 && n >= v / 512) ==> !Settled(s, bits))
  {
    hide NodeOk, SlotOk, SymOk, HuffBits, Kraft, ToBits;
    var x := bitBuf % FAST_SIZE;
    var v, bits := lk[x], ToBits(bitBuf, n);
    assert LookupOk(s, lk, tr, nodes, x);
    SymKraft(s, lk, tr, nodes, home);
    LowBoth(bitBuf, n);
    if v > 0 && n >= v / 512 {
      ShortInside(HuffBits(s, v % 512), ToBits(x, FAST_BITS), bits);
      forall b: seq<bool>, i: nat | bits <= b && I.Begins(s, b, i)
        ensures v % 512 == i && v / 512 == s[i]
      {
        PrefixFree(s, v % 512, i, b, MAX_LEN);
      }
    } else {
      forall i: nat
        ensures !I.Begins(s, bits, i)
      {
        if I.Begins(s, bits, i) {
          var c := ToBits(bitBuf, MAX_LEN);
          IndexBits(bitBuf, MAX_LEN, c);
          LowBits(bitBuf, MAX_LEN, n);
          assert I.Begins(s, c, i);
          AtLookup(s, lk, tr, nodes, home, x, c, i);
        }
      }
    }
  }

  lemma SymKraft(s: seq<nat>, lk: seq<int>, tr: seq<int>, nodes: seq<Node>, home: seq<nat>)
    requires Inv(s, lk, tr, nodes, home, |s|)
    ensures Kraft(s, MAX_LEN)
  {
  }

  lemma LowBoth(bitBuf: nat, n: nat)
    ensures var m := if n <= FAST_BITS then n else FAST_BITS;
      ToBits(bitBuf % FAST_SIZE, FAST_BITS)[..m] == ToBits(bitBuf, n)[..m]
  {
    Pow2Values();
    hide ToBits, Pow2;
    var m := if n <= FAST_BITS then n else FAST_BITS;
    LowBits(bitBuf, FAST_BITS, FAST_BITS);
    LowBits(bitBuf, FAST_BITS, m);
    LowBits(bitBuf, n, m);
    assert ToBits(bitBuf, FAST_BITS)[..FAST_BITS] == ToBits(bitBuf, FAST_BITS);
  }

  lemma ShortInside(h: seq<bool>, a: seq<bool>, b: seq<bool>)
    requires h <= a && |h| <= |b| && a[..if |b| <= |a| then |b| else |a|] == b[..if |b| <= |a| then |b| else |a|]
    ensures h <= b
  {
    var m := if |b| <= |a| then |b| else |a|;
    assert a[..m][..|h|] == b[..m][..|h|];
    assert a[..|h|] == b[..|h|];
  }

  lemma LongUnsettled(s: seq<nat>, lk: seq<int>, tr: seq<int>, nodes: seq<Node>, home: seq<nat>, bitBuf: nat, n: nat)
    requires Inv(s, lk, tr, nodes, home, |s|) && lk[bitBuf % FAST_SIZE] < 0 && n <= FAST_BITS
    ensures !Settled(s, ToBits(bitBuf, n))
  {
    hide NodeOk, SlotOk, SymOk, HuffBits, Kraft, ToBits, Inv;
    var c := ToBits(bitBuf, MAX_LEN);
    IndexBits(bitBuf, MAX_LEN, c);
    LowBits(bitBuf, MAX_LEN, n);
    forall i: nat
      ensures !I.Begins(s, ToBits(bitBuf, n), i)
    {
      if I.Begins(s, ToBits(bitBuf, n), i) {
        assert I.Begins(s, c, i);
        AtLookup(s, lk, tr, nodes, home, bitBuf % FAST_SIZE, c, i);
      }
    }
  }

  lemma BeyondUnsettled(s: seq<nat>, bits: seq<bool>, t: nat)
    requires Beyond(s, bits, t) && |bits| <= t
    ensures !Settled(s, bits)
  {
    forall i: nat
      ensures !I.Begins(s, bits, i)
    {
      assert bits <= bits;
    }
  }

  lemma FromSlot(s: seq<nat>, lk: seq<int>, tr: seq<int>, nodes: seq<Node>, home: seq<nat>, bitBuf: nat, k: nat, t: nat, n: nat)
    requires Inv(s, lk, tr, nodes, home, |s|) && k < |nodes| && FAST_BITS <= t < MAX_LEN && t < n && nodes[k].path == ToBits(bitBuf, n)[..t]
    ensures var bit := bitBuf / Pow2(t) % 2; bit < 2 && 2 * k + bit < |tr| && SlotMeans(s, nodes, k, t, ToBits(bitBuf, n), tr[2 * k + bit])
  {
    hide LookupOk, SymOk, HuffBits, Kraft, ToBits, Pow2, NodeOk;
    var bits := ToBits(bitBuf, n);
    BitAt(bitBuf, n, t);
    var b := BitValue(bits[t]);
    var v := tr[2 * k + b];
    assert SlotOk(s, lk, tr, nodes, k, b);
    assert bits[..t + 1] == bits[..t] + [b == 1];
    if v < 0 {
      DepthBelow(s, lk, tr, nodes, home, NodeOf(v));
    }
    forall c: seq<bool>, i: nat | bits <= c && I.Begins(s, c, i)
      ensures (v >= 0 ==> v == i && s[i] == t + 1) && (v < 0 ==> s[i] > t + 1)
    {
      assert c[..t] == bits[..t] && c[t] == bits[t];
      AtSlot(s, lk, tr, nodes, home, k, t, c, i);
    }
    if v >= 0 {
      assert NodeOk(s, lk, tr, nodes, k);
      LandsSlot(s, lk, tr, nodes, k, t, bits);
    }
  }

  lemma DepthBelow(s: seq<nat>, lk: seq<int>, tr: seq<int>, nodes: seq<Node>, home: seq<nat>, j: nat)
    requires Inv(s, lk, tr, nodes, home, |s|) && j < |nodes|
    ensures |nodes[j].path| < MAX_LEN
  {
    hide LookupOk, SymOk, SlotOk, HuffBits, Kraft;
    assert NodeOk(s, lk, tr, nodes, j);
  }

  /** What a slot below node `k` says about bits that lead to it and one bit further. */
  ghost predicate SlotMeans(s: seq<nat>, nodes: seq<Node>, k: nat, t: nat, bits: seq<bool>, v: int)
    requires t < |bits|
  {
    && (v >= 0 ==> (v < |s| || v == 0) && Settles(s, bits, v, t + 1) && Lands(s, bits, v, t + 1))
    && (v < 0 ==> t + 1 < MAX_LEN && k < NodeOf(v) < |nodes| && v == Ref(NodeOf(v)) && nodes[NodeOf(v)].path == bits[..t + 1])
    && (v < 0 ==> Beyond(s, bits, t + 1))
  }
}
