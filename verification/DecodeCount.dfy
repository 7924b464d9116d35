/**
 Why building the decoding tree never runs out of slots: its nodes are distinct inner nodes of the
 code's binary tree, and a complete code of n symbols has exactly n - 1 of those.
 */
module DecodeCount {
  import opened Bits
  import opened Canonical
  import opened DecodeTree
  import I = InflateSpec

  // ---------------------------------------------------------------- inner nodes by depth

  /** Nodes at depth `l` that lie strictly inside a code. */
  function Inner(s: seq<nat>, l: nat): int
  {
    Pow2(l) - Used(s, l)
  }

  /** Inner nodes above depth `m`. */
  function InnerAbove(s: seq<nat>, m: nat): int
  {
    if m == 0 then 0 else InnerAbove(s, m - 1) + Inner(s, m - 1)
  }

  function CodesUpTo(s: seq<nat>, m: nat): nat
  {
    if m == 0 then 0 else CodesUpTo(s, m - 1) + Count(s, m)
  }

  /** Every inner node has two children, each an inner node or a code. */
  lemma {:induction false} InnerTotal(s: seq<nat>, m: nat)
    ensures CodesUpTo(s, m) + Inner(s, m) == InnerAbove(s, m) + 1
  {
    if m > 0 {
      InnerTotal(s, m - 1);
    }
  }

  lemma {:induction false} CodesAreUsed(s: seq<nat>, m: nat)
    requires LensUpTo(s, m)
    ensures CodesUpTo(s, m) == I.UsedSyms(s)
  {
    if s == [] {
      NoCodes(s, m);
    } else {
      var t, x := s[..|s| - 1], s[|s| - 1];
      CodesAreUsed(t, m);
      OneMore(s, m);
    }
  }

  lemma {:induction false} NoCodes(s: seq<nat>, m: nat)
    requires s == []
    ensures CodesUpTo(s, m) == 0
  {
    if m > 0 {
      NoCodes(s, m - 1);
    }
  }

  lemma {:induction false} OneMore(s: seq<nat>, m: nat)
    requires s != []
    ensures CodesUpTo(s, m) == CodesUpTo(s[..|s| - 1], m) + (if 0 < s[|s| - 1] <= m then 1 else 0)
  {
    if m > 0 {
      OneMore(s, m - 1);
    }
  }

  lemma {:induction false} UsedAtMostAll(s: seq<nat>)
    ensures I.UsedSyms(s) <= |s|
  {
    if s != [] {
      UsedAtMostAll(s[..|s| - 1]);
    }
  }

  lemma {:induction false} InnerMono(s: seq<nat>, l: nat, m: nat)
    requires l <= m <= MAX_LEN && Kraft(s, MAX_LEN)
    ensures 0 <= InnerAbove(s, l) <= InnerAbove(s, m)
    decreases m
  {
    hide Kraft, Used;
    if l < m {
      InnerMono(s, l, m - 1);
      UsedFits(s, m - 1, MAX_LEN);
    } else if l > 0 {
      InnerMono(s, l - 1, l - 1);
      UsedFits(s, l - 1, MAX_LEN);
    }
  }

  // ---------------------------------------------------------------- numbering the nodes

  /** The inner nodes, numbered by depth and then by value. */
  function Number(s: seq<nat>, p: seq<bool>): int
  {
    InnerAbove(s, |p|) + MsbValue(p) - Used(s, |p|)
  }

  /** A path strictly inside a code lies above all codes of its depth. */
  lemma InsideAbove(s: seq<nat>, w: nat, p: seq<bool>)
    requires Kraft(s, MAX_LEN) && w < |s| && |p| < s[w] && p <= HuffBits(s, w) && |p| > 0
    ensures Used(s, |p|) <= MsbValue(p) < Pow2(|p|)
  {
    CodeFits(s, w, MAX_LEN);
    BandsOrdered(s, |p|, s[w]);
    CodeIs(s, w);
    hide *;
    var c, d := CodeOf(s, w), s[w] - |p|;
    MsbValueBound(p);
    MsbValueCodeBits(c, s[w]);
    MsbValuePrefix(CodeBits(c, s[w]), |p|);
    PrefixTake(p, CodeBits(c, s[w]));
    BelowBand(c, Pow2(d), Used(s, |p|));
  }

  lemma CodeIs(s: seq<nat>, w: nat)
    requires w < |s| && s[w] > 0
    ensures HuffBits(s, w) == CodeBits(CodeOf(s, w), s[w]) && CodeOf(s, w) >= First(s, s[w])
  {
  }

  lemma PrefixTake(p: seq<bool>, h: seq<bool>)
    requires p <= h
    ensures h[..|p|] == p
  {
  }

  lemma NumberRange(s: seq<nat>, w: nat, p: seq<bool>)
    requires Kraft(s, MAX_LEN) && w < |s| && |p| < s[w] && p <= HuffBits(s, w) && |p| > 0
    ensures 0 <= InnerAbove(s, |p|) <= Number(s, p) < InnerAbove(s, |p| + 1) <= InnerAbove(s, MAX_LEN)
  {
    hide HuffBits, Kraft, Used;
    InsideAbove(s, w, p);
    LenBoundKraft(s, w);
    InnerMono(s, |p|, MAX_LEN);
    InnerMono(s, |p| + 1, MAX_LEN);
  }

  lemma LenBoundKraft(s: seq<nat>, w: nat)
    requires Kraft(s, MAX_LEN) && w < |s|
    ensures s[w] <= MAX_LEN
  {
  }

  lemma NumberInjective(s: seq<nat>, v: nat, p: seq<bool>, w: nat, q: seq<bool>)
    requires Kraft(s, MAX_LEN)
    requires v < |s| && 0 < |p| < s[v] && p <= HuffBits(s, v)
    requires w < |s| && 0 < |q| < s[w] && q <= HuffBits(s, w)
    requires Number(s, p) == Number(s, q)
    ensures p == q
  {
    hide HuffBits, Kraft, Used, InnerAbove, MsbValue;
    NumberRange(s, v, p);
    NumberRange(s, w, q);
    LenBoundKraft(s, v);
    LenBoundKraft(s, w);
    if |p| < |q| {
      InnerMono(s, |p| + 1, |q|);
    } else if |q| < |p| {
      InnerMono(s, |q| + 1, |p|);
    }
    CodeBitsMsbValue(p);
    CodeBitsMsbValue(q);
  }

  // ---------------------------------------------------------------- pigeons

  ghost predicate AllBelow(a: seq<int>, b: int)
  {
    forall i :: 0 <= i < |a| ==> 0 <= a[i] < b
  }

  ghost predicate NoRepeats(a: seq<int>)
  {
    forall i, j :: 0 <= i < j < |a| ==> a[i] != a[j]
  }

  lemma {:induction false} Pigeons(a: seq<int>, b: nat)
    requires AllBelow(a, b) && NoRepeats(a)
    ensures |a| <= b
    decreases b
  {
    if a != [] {
      assert 0 <= a[0] < b;
      if b - 1 in a {
        var i :| 0 <= i < |a| && a[i] == b - 1;
        var rest := a[..i] + a[i + 1..];
        assert forall j :: 0 <= j < |rest| ==> rest[j] == a[if j < i then j else j + 1];
        Pigeons(rest, b - 1);
      } else {
        Pigeons(a, b - 1);
      }
    }
  }

  // ---------------------------------------------------------------- the bound

  /** Nodes as the table keeps them: distinct paths, each strictly inside some code. */
  ghost predicate InsideCodes(s: seq<nat>, nodes: seq<Node>)
  {
    && Distinct(nodes)
    && forall k :: 0 <= k < |nodes| ==>
         nodes[k].owner < |s| && FAST_BITS <= |nodes[k].path| < s[nodes[k].owner] && nodes[k].path <= HuffBits(s, nodes[k].owner)
  }

  /** A complete code of n symbols fills at most 2 * (n - 1) slots. */
  lemma CompleteNodes(s: seq<nat>, nodes: seq<Node>)
    requires InsideCodes(s, nodes) && Complete(s, MAX_LEN) && |s| > 0
    ensures |nodes| <= I.UsedSyms(s) - 1 <= |s| - 1
  {
    hide HuffBits, Used, InnerAbove, CodesUpTo, I.UsedSyms, MsbValue, Pow2, Number, Complete, Kraft;
    CompleteInner(s, MAX_LEN);
    UsedAtMostAll(s);
    var a := seq(|nodes|, k requires 0 <= k < |nodes| => Number(s, nodes[k].path));
    forall k | 0 <= k < |nodes|
      ensures 0 <= a[k] < InnerAbove(s, MAX_LEN)
    {
      NumberRange(s, nodes[k].owner, nodes[k].path);
    }
    forall j, k | 0 <= j < k < |nodes|
      ensures a[j] != a[k]
    {
      if a[j] == a[k] {
        NumberInjective(s, nodes[j].owner, nodes[j].path, nodes[k].owner, nodes[k].path);
      }
    }
    InnerMono(s, 0, MAX_LEN);
    Pigeons(a, InnerAbove(s, MAX_LEN));
  }

  lemma CompleteInner(s: seq<nat>, m: nat)
    requires Complete(s, m)
    ensures InnerAbove(s, m) == I.UsedSyms(s) - 1 && Kraft(s, m)
  {
    hide Used, InnerAbove, CodesUpTo, I.UsedSyms, Pow2;
    InnerTotal(s, m);
    CodesAreUsed(s, m);
  }

  lemma {:induction false} OnlyUsed(s: seq<nat>, v: nat, w: nat)
    requires I.UsedSyms(s) <= 1 && v < |s| && w < |s| && s[v] > 0 && s[w] > 0
    ensures v == w
  {
    var n := |s| - 1;
    if v != w {
      if v < n && w < n {
        OnlyUsed(s[..n], v, w);
      } else {
        UsedAtLeast(s[..n], if v < n then v else w);
      }
    }
  }

  lemma {:induction false} UsedAtLeast(s: seq<nat>, v: nat)
    requires v < |s| && s[v] > 0
    ensures I.UsedSyms(s) >= 1
  {
    if v < |s| - 1 {
      UsedAtLeast(s[..|s| - 1], v);
    }
  }

  /** A code of a single symbol needs at most five nodes. */
  lemma SingleNodes(s: seq<nat>, nodes: seq<Node>)
    requires InsideCodes(s, nodes) && I.UsedSyms(s) <= 1 && LensUpTo(s, MAX_LEN)
    ensures |nodes| <= 5
  {
    hide HuffBits, I.UsedSyms;
    var a := seq(|nodes|, k requires 0 <= k < |nodes| => |nodes[k].path| - FAST_BITS);
    forall j, k | 0 <= j < k < |nodes|
      ensures a[j] != a[k]
    {
      OnlyUsed(s, nodes[j].owner, nodes[k].owner);
      var h, p, q := HuffBits(s, nodes[j].owner), nodes[j].path, nodes[k].path;
      assert p == h[..|p|] && q == h[..|q|];
    }
    Pigeons(a, 5);
  }

  /** The slots are always enough: twice the table size, and ten for a lone code. */
  lemma EnoughSlots(s: seq<nat>, nodes: seq<Node>)
    requires InsideCodes(s, nodes) && I.TableOk(s)
    ensures 2 * |nodes| <= 10 || 2 * |nodes| <= 2 * (|s| - 1)
  {
    hide HuffBits, Used, I.UsedSyms;
    if I.UsedSyms(s) <= 1 {
      SingleNodes(s, nodes);
    } else {
      assert s != [] by { NoneUsed(s); }
      CompleteNodes(s, nodes);
    }
  }

  lemma NoneUsed(s: seq<nat>)
    ensures s == [] ==> I.UsedSyms(s) == 0
  {
  }
}
