/**
 Starting a block (miniz.c, `tdefl_start_dynamic_block`, `tdefl_start_static_block`): the tables are
 built and, for a dynamic block, described in the header.
 */
module BlockHeader {
  import opened Bits
  import opened BitSinks
  import opened Canonical
  import opened CodeLengthRle
  import opened InflateSpec
  import opened HuffTables
  import opened DeflateBits
  import opened BlockWriter
  import LT = LzTokens
  import TB = TokenBuffers

  // ---------------------------------------------------------------- from tables to header facts

  /** The counts drive which symbols are used, so the inflater's check agrees. */
  lemma {:induction false} UsedCounted(counts: seq<nat>, sizes: seq<nat>, n: nat)
    requires n <= |counts| == |sizes| && forall i :: 0 <= i < n ==> (sizes[i] > 0 <==> counts[i] > 0)
    ensures UsedSyms(sizes[..n]) == NumUsed(counts, n)
  {
    if n > 0 {
      UsedCounted(counts, sizes, n - 1);
      assert sizes[..n][..n - 1] == sizes[..n - 1];
    }
  }

  lemma {:induction false} UsedPadding(s: seq<nat>, n: nat)
    requires n <= |s| && forall i :: n <= i < |s| ==> s[i] == 0
    ensures UsedSyms(s) == UsedSyms(s[..n])
  {
    if n < |s| {
      UsedPadding(s[..|s| - 1], n);
      assert s[..|s| - 1][..n] == s[..n];
    } else {
      assert s[..n] == s;
    }
  }

  /** A built table cut after its last used symbol is one the inflater accepts. */
  lemma OptimizedTableOk(counts: seq<nat>, sizes: seq<nat>, len: nat, limit: nat, n: nat)
    requires len <= |counts| == |sizes| && limit <= 15 && Optimized(counts, sizes, len, limit)
    requires n <= |sizes| && forall i :: n <= i < |sizes| ==> sizes[i] == 0
    ensures TableOk(sizes[..n])
  {
    UsedCounted(counts, sizes, len);
    UsedPadding(sizes, len);
    UsedPadding(sizes, n);
    CompletePadding(sizes, n, 15);
    if NumUsed(counts, len) >= 2 {
      CompleteRaise(sizes, limit, 15);
    }
  }

  /** `for (n = hi; n > lo; n--) if (sizes[n - 1]) break;` */
  method LastUsed(sizes: array<nat>, hi: nat, lo: nat) returns (n: nat)
    requires lo <= hi <= sizes.Length
    ensures lo <= n <= hi && forall i :: n <= i < hi ==> sizes[i] == 0
    ensures n > lo ==> sizes[n - 1] > 0
  {
    n := hi;
    while n > lo
      invariant lo <= n <= hi && forall i :: n <= i < hi ==> sizes[i] == 0
    {
      if sizes[n - 1] != 0 {
        return;
      }
      n := n - 1;
    }
  }

  method LastZig(sizes: array<nat>) returns (n: int)
    requires sizes.Length >= 19
    ensures -1 <= n <= 18 && forall i :: n < i < 19 ==> sizes[Zig(i)] == 0
    ensures n >= 0 ==> sizes[Zig(n)] > 0
  {
    hide Zig;
    n := 18;
    while n >= 0
      invariant -1 <= n <= 18 && forall i :: n < i < 19 ==> sizes[Zig(i)] == 0
    {
      if sizes[Zig(n)] != 0 {
        return;
      }
      n := n - 1;
    }
  }

  // ---------------------------------------------------------------- packing the lengths

  /** The two `memcpy` calls that line up both length tables. */
  method JoinSizes(lit: array<nat>, dist: array<nat>, n0: nat, n1: nat) returns (joined: array<nat>)
    requires n0 <= lit.Length && n1 <= dist.Length && n0 + n1 <= 320
    ensures fresh(joined) && joined.Length == 320 && joined[..n0 + n1] == lit[..n0] + dist[..n1]
  {
    joined := new nat[320](_ => 0);
    for i := 0 to n0
      invariant forall k :: 0 <= k < i ==> joined[k] == lit[k]
    {
      joined[i] := lit[i];
    }
    for i := 0 to n1
      invariant forall k :: 0 <= k < n0 ==> joined[k] == lit[k]
      invariant forall k :: 0 <= k < i ==> joined[n0 + k] == dist[k]
    {
      joined[n0 + i] := dist[i];
    }
  }

  /** The run-length loop. */
  method PackSizes(codeSizes: array<nat>, total: nat, counts: array<nat>) returns (packer: Packer)
    requires total <= codeSizes.Length == 320 && counts.Length == 288 && counts != codeSizes
    requires LensUpTo(codeSizes[..total], 15)
    modifies counts
    ensures fresh(packer) && fresh(packer.packed) && packer.counts == counts
    ensures packer.Shape() && packer.Recorded() && Expand(packer.items) == codeSizes[..total] && packer.items == PackLens(codeSizes[..total])
  {
    hide *;
    ghost var s := codeSizes[..total];
    packer := NewPacker(counts);
    assert codeSizes[..total] == s && s[..0] == [];
    for i := 0 to total
      invariant packer.counts == counts && fresh(packer) && fresh(packer.packed) && packer.Valid(s[..i]) && packer.Greedy(s[..i])
      invariant codeSizes[..total] == s
    {
      assert s[i] == codeSizes[i] && s[..i + 1] == s[..i] + [s[i]];
      SizeBound(s, i);
      packer.Put(codeSizes[i], s[..i]);
    }
    assert s[..total] == s;
    PackerShape(packer, s);
    packer.Finish(s);
  }

  method NewPacker(counts: array<nat>) returns (packer: Packer)
    requires counts.Length == 288
    modifies counts
    ensures fresh(packer) && fresh(packer.packed) && packer.counts == counts && packer.Valid([]) && packer.Greedy([])
  {
    for i := 0 to 19
      invariant forall k :: 0 <= k < i ==> counts[k] == 0
    {
      counts[i] := 0;
    }
    packer := new Packer(counts);
  }

  lemma SizeBound(s: seq<nat>, i: nat)
    requires LensUpTo(s, 15) && i < |s|
    ensures s[i] <= 15
  {
  }

  lemma PackerShape(p: Packer, done: seq<nat>)
    requires p.Valid(done)
    ensures p.Shape()
  {
  }

  // ---------------------------------------------------------------- sending the header

  lemma {:induction false} ClBitsSnoc(cl: seq<nat>, k: nat, n: nat)
    requires |cl| == 19 && k <= n < 19
    ensures ClBits(cl, k, n + 1) == ClBits(cl, k, n) + ToBits(cl[Zig(n)], 3)
    decreases n - k
  {
    hide ToBits, Zig;
    if k < n {
      ClBitsSnoc(cl, k + 1, n);
      var a := ToBits(cl[Zig(k)], 3);
      assert a + (ClBits(cl, k + 1, n) + ToBits(cl[Zig(n)], 3)) == a + ClBits(cl, k + 1, n) + ToBits(cl[Zig(n)], 3);
    } else {
      assert ToBits(cl[Zig(n)], 3) + [] == [] + ToBits(cl[Zig(n)], 3);
    }
  }

  /** `HLIT`, `HDIST` and `HCLEN` */
  method PutSizes(sink: BitSink, n0: nat, n1: nat, n2: nat)
    requires sink.Valid() && 257 <= n0 <= 286 && 1 <= n1 <= 30 && 4 <= n2 <= 19
    modifies sink, sink.out
    ensures sink.Valid() && Grew(old(sink.Snapshot()), sink.Snapshot(), SizesBits(n0, n1, n2))
  {
    hide *;
    SizesDef(n0, n1, n2);
    Pow2Values();
    ghost var a, x, y, z := sink.Snapshot(), ToBits(n0 - 257, 5), ToBits(n1 - 1, 5), ToBits(n2 - 4, 4);
    sink.PutBits(n0 - 257, 5);
    ghost var b := sink.Snapshot();
    sink.PutBits(n1 - 1, 5);
    ghost var c := sink.Snapshot();
    sink.PutBits(n2 - 4, 4);
    GrewTrans(b, c, sink.Snapshot(), y, z);
    GrewTrans(a, b, sink.Snapshot(), x, y + z);
  }

  lemma SizesDef(n0: nat, n1: nat, n2: nat)
    requires n0 >= 257 && n1 >= 1 && n2 >= 4
    ensures SizesBits(n0, n1, n2) == ToBits(n0 - 257, 5) + (ToBits(n1 - 1, 5) + ToBits(n2 - 4, 4))
  {
  }

  method PutClSizes(sink: BitSink, sizes: array<nat>, n2: nat)
    requires sink.Valid() && n2 <= 19 <= sizes.Length && forall i :: 0 <= i < 19 ==> sizes[i] < 8
    modifies sink, sink.out
    ensures sink.Valid() && Grew(old(sink.Snapshot()), sink.Snapshot(), ClBits(sizes[..19], 0, n2))
  {
    hide Grew, Zig, ToBits;
    ghost var cl, a := sizes[..19], sink.Snapshot();
    GrewNone(a);
    for i := 0 to n2
      invariant sink.Valid() && sizes[..19] == cl
      invariant Grew(a, sink.Snapshot(), ClBits(cl, 0, i))
    {
      ghost var b := sink.Snapshot();
      ClBitsSnoc(cl, 0, i);
      Pow2Values();
      assert cl[Zig(i)] == sizes[Zig(i)];
      sink.PutBits(sizes[Zig(i)], 3);
      GrewTrans(a, b, sink.Snapshot(), ClBits(cl, 0, i), ToBits(cl[Zig(i)], 3));
    }
  }

  /** The length table of the code-length code, as the inflater sees it. */
  ghost predicate ClReady(cl: HuffTable)
    reads cl.sizes, cl.codes
  {
    Ready(cl) && forall i :: 19 <= i < cl.sizes.Length ==> cl.sizes[i] == 0
  }

  lemma ClCode(cl: HuffTable, sym: nat)
    requires ClReady(cl) && cl.sizes.Length >= 19 && HasCode(cl.sizes[..19], sym)
    ensures HasCode(cl.sizes[..], sym) && HuffBits(cl.sizes[..19], sym) == HuffBits(cl.sizes[..], sym)
  {
    assert cl.sizes[..][..19] == cl.sizes[..19];
    HuffBitsPadding(cl.sizes[..], 19, sym);
  }

  method PutItem(sink: BitSink, cl: HuffTable, sym: nat, extra: nat, ghost it: Item)
    requires sink.Valid() && ClReady(cl) && cl.sizes.Length >= 19 && HasCode(cl.sizes[..19], sym) && it.Valid()
    requires sym == it.sym && (sym >= 16 ==> extra == it.extra)
    modifies sink, sink.out
    ensures sink.Valid() && Grew(old(sink.Snapshot()), sink.Snapshot(), ItemBits(cl.sizes[..19], it))
  {
    hide ClReady, Grew, HuffBits, ToBits;
    ghost var s, a := cl.sizes[..19], sink.Snapshot();
    ClCode(cl, sym);
    assert Ready(cl) by { ClIsReady(cl); }
    PutCode(sink, cl, sym);
    ghost var b := sink.Snapshot();
    if sym >= 16 {
      sink.PutBits(extra, ExtraBits(sym));
    } else {
      GrewNone(b);
      NoBits(it.extra);
    }
    assert cl.sizes[..19] == s;
    GrewTrans(a, b, sink.Snapshot(), HuffBits(s, sym), ToBits(it.extra, ExtraBits(sym)));
  }

  lemma ClIsReady(cl: HuffTable)
    requires ClReady(cl)
    ensures Ready(cl)
  {
  }

  lemma NoBits(v: nat)
    ensures ToBits(v, 0) == []
  {
  }

  lemma ItemsBitsSnoc(cl: seq<nat>, items: seq<Item>, k: nat)
    requires k < |items| && ItemsCodable(cl, items)
    ensures ItemsCodable(cl, items[..k]) && ItemsCodable(cl, items[..k + 1])
    ensures ItemsBits(cl, items[..k + 1]) == ItemsBits(cl, items[..k]) + ItemBits(cl, items[k])
  {
    assert items[..k + 1][..k] == items[..k];
  }

  /** The loop over the packed array, two entries at a time where a symbol carries extra bits. */
  method PutItems(sink: BitSink, cl: HuffTable, packed: array<nat>, num: nat, ghost items: seq<Item>)
    requires sink.Valid() && ClReady(cl) && cl.sizes.Length >= 19 && packed != cl.sizes && packed != cl.codes
    requires num <= packed.Length && packed[..num] == Flatten(items) && ValidItems(items) && ItemsCodable(cl.sizes[..19], items)
    modifies sink, sink.out
    ensures sink.Valid() && Grew(old(sink.Snapshot()), sink.Snapshot(), ItemsBits(cl.sizes[..19], items))
  {
    hide ClReady, Grew, ItemBits, Flatten;
    ghost var s, a, k, f := cl.sizes[..19], sink.Snapshot(), 0, packed[..num];
    var index := 0;
    GrewNone(a);
    assert items[..0] == [];
    FlattenNone();
    while index < num
      invariant sink.Valid() && ClReady(cl) && cl.sizes[..19] == s && packed[..num] == f
      invariant k <= |items| && index == |Flatten(items[..k])| <= num
      invariant Grew(a, sink.Snapshot(), ItemsBits(s, items[..k]))
      decreases |items| - k
    {
      ghost var b := sink.Snapshot();
      AllFlattened(items, k);
      FlattenPrefix(items, k);
      FlattenStep(items, k);
      ItemsBitsSnoc(s, items, k);
      var code := packed[index];
      assert f[index] == code;
      index := index + 1;
      if code >= 16 {
        assert f[index] == packed[index];
        PutItem(sink, cl, code, packed[index], items[k]);
        index := index + 1;
      } else {
        PutItem(sink, cl, code, 0, items[k]);
      }
      assert cl.sizes[..19] == s;
      GrewTrans(a, b, sink.Snapshot(), ItemsBits(s, items[..k]), ItemBits(s, items[k]));
      k := k + 1;
    }
    AllFlattened(items, k);
    assert items[..k] == items;
  }

  lemma FlattenNone()
    ensures Flatten([]) == []
  {
  }

  lemma FlattenStep(items: seq<Item>, k: nat)
    requires k < |items|
    ensures |Flatten(items[..k + 1])| == |Flatten(items[..k])| + (if items[k].sym < 16 then 1 else 2)
  {
    assert items[..k + 1][..k] == items[..k];
  }

  /** The whole array is read exactly when every item is. */
  lemma AllFlattened(items: seq<Item>, k: nat)
    requires k <= |items|
    ensures |Flatten(items[..k])| < |Flatten(items)| <==> k < |items|
  {
    FlattenPrefix(items, k);
    if k == |items| {
      assert items[..k] == items;
    }
  }

  // ---------------------------------------------------------------- counts and sums

  ghost function ItemCounts(items: seq<Item>, n: nat): (c: seq<nat>)
    ensures |c| == n && forall s :: 0 <= s < n ==> c[s] == Occurrences(items, s)
  {
    seq(n, s requires 0 <= s < n => Occurrences(items, s))
  }

  lemma {:induction false} ItemCountsSum(items: seq<Item>, n: nat)
    ensures SumTo(ItemCounts(items, n), n) <= |items|
  {
    if items == [] {
      SumToZero(ItemCounts(items, n), n);
    } else {
      var init, s := items[..|items| - 1], items[|items| - 1].sym;
      ItemCountsSum(init, n);
      if s < n {
        assert ItemCounts(items, n) == ItemCounts(init, n)[s := ItemCounts(init, n)[s] + 1];
        SumToBump(ItemCounts(init, n), s, n);
      } else {
        assert ItemCounts(items, n) == ItemCounts(init, n);
      }
    }
  }

  ghost function LitCounts(ts: seq<LT.Token>, n: nat): (c: seq<nat>)
    requires LT.AllOk(ts)
    ensures |c| == n && forall s :: 0 <= s < n ==> c[s] == TB.LitCount(ts, s)
  {
    seq(n, s requires 0 <= s < n => TB.LitCount(ts, s))
  }

  ghost function DistCounts(ts: seq<LT.Token>, n: nat): (c: seq<nat>)
    requires LT.AllOk(ts)
    ensures |c| == n && forall s :: 0 <= s < n ==> c[s] == TB.DistCount(ts, s)
  {
    seq(n, s requires 0 <= s < n => TB.DistCount(ts, s))
  }

  lemma {:induction false} TokenCountsSum(ts: seq<LT.Token>, n: nat)
    requires LT.AllOk(ts)
    ensures SumTo(LitCounts(ts, n), n) <= |ts| && SumTo(DistCounts(ts, n), n) <= |ts|
  {
    hide TB.LitSymOf, TB.DistSymOf;
    if ts == [] {
      SumToZero(LitCounts(ts, n), n);
      SumToZero(DistCounts(ts, n), n);
    } else {
      var init, t := ts[..|ts| - 1], ts[|ts| - 1];
      TokenCountsSum(init, n);
      var lc, dc := LitCounts(init, n), DistCounts(init, n);
      var s := TB.LitSymOf(t);
      if s < n {
        assert LitCounts(ts, n) == lc[s := lc[s] + 1];
        SumToBump(lc, s, n);
      } else {
        assert LitCounts(ts, n) == lc;
      }
      if t.Match? && TB.DistSymOf(t) < n {
        var d := TB.DistSymOf(t);
        assert DistCounts(ts, n) == dc[d := dc[d] + 1];
        SumToBump(dc, d, n);
      } else {
        assert DistCounts(ts, n) == dc;
      }
    }
  }

  /** Token counts: which entries are zero, and which are not. */
  lemma {:induction false} TokenCountsUse(ts: seq<LT.Token>)
    requires LT.AllOk(ts)
    ensures TB.LitCount(ts, 256) == 0
    ensures forall s :: s >= 286 ==> TB.LitCount(ts, s) == 0
    ensures forall s :: s >= 30 ==> TB.DistCount(ts, s) == 0
    ensures forall k :: 0 <= k < |ts| ==> TB.LitSymOf(ts[k]) < 286 && TB.LitCount(ts, TB.LitSymOf(ts[k])) > 0
    ensures forall k :: 0 <= k < |ts| && ts[k].Match? ==> TB.DistSymOf(ts[k]) < 30 && TB.DistCount(ts, TB.DistSymOf(ts[k])) > 0
  {
    hide LT.LenSym, LT.DistSym;
    if ts != [] {
      var init, t := ts[..|ts| - 1], ts[|ts| - 1];
      TokenCountsUse(init);
      if t.Match? {
        TB.SymsInRange(t.len, t.dist);
      }
    }
  }
}
