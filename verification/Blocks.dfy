/**
 One compressed block (miniz.c, `tdefl_compress_block`): dynamic or static tables, then the body.
 */
module Blocks {
  import opened Bits
  import opened BitSinks
  import opened Canonical
  import opened LzTokens
  import opened TokenBuffers
  import opened CodeLengthRle
  import opened InflateSpec
  import opened HuffTables
  import opened DeflateBits
  import opened BlockWriter
  import opened BlockHeader
  import opened BlockSpec
  import opened DynamicCost
  import StaticCost

  /** Every symbol the tokens use has a count, hence a code. */
  lemma CountedIsCodable(ts: seq<Token>, litCounts: seq<nat>, distCounts: seq<nat>, litSizes: seq<nat>, distSizes: seq<nat>)
    requires AllOk(ts) && |litCounts| == |litSizes| == |distCounts| == |distSizes| == 288
    requires litCounts == LitCounts(ts, 288)[256 := 1] && distCounts == DistCounts(ts, 288)
    requires Optimized(litCounts, litSizes, 288, 15) && Optimized(distCounts, distSizes, 32, 15)
    ensures AllCodable(litSizes, distSizes, ts) && HasCode(litSizes, 256)
    ensures litSizes[286] == litSizes[287] == 0
    ensures forall i :: 30 <= i < 288 ==> distSizes[i] == 0
  {
    TokenCountsUse(ts);
    forall k | 0 <= k < |ts|
      ensures Codable(litSizes, distSizes, ts[k])
    {
      assert litCounts[LitSymOf(ts[k])] > 0;
    }
  }

  lemma CountSums(ts: seq<Token>)
    requires AllOk(ts) && |ts| < 65535
    ensures SumTo(LitCounts(ts, 288)[256 := 1], 288) < 0x1_0000 && SumTo(DistCounts(ts, 288), 32) < 0x1_0000
  {
    TokenCountsSum(ts, 288);
    TokenCountsSum(ts, 32);
    TokenCountsUse(ts);
    var c := LitCounts(ts, 288);
    SumToBump(c, 256, 288);
    SumToPrefix(DistCounts(ts, 288), DistCounts(ts, 32), 32);
  }

  lemma {:induction false} SumToPrefix(c: seq<nat>, e: seq<nat>, n: nat)
    requires n <= |c| && n <= |e| && forall i :: 0 <= i < n ==> c[i] == e[i]
    ensures SumTo(c, n) == SumTo(e, n)
  {
    if n > 0 {
      SumToPrefix(c, e, n - 1);
    }
  }

  /** The cut tables mean the same codes as the full ones. */
  lemma {:induction false} CutTables(lit: seq<nat>, dist: seq<nat>, n0: nat, n1: nat, ts: seq<Token>)
    requires n0 <= |lit| && forall i :: n0 <= i < |lit| ==> lit[i] == 0
    requires n1 <= |dist| && forall i :: n1 <= i < |dist| ==> dist[i] == 0
    requires AllCodable(lit, dist, ts)
    ensures AllCodable(lit[..n0], dist[..n1], ts)
    ensures TokensBits(lit[..n0], dist[..n1], ts) == TokensBits(lit, dist, ts)
  {
    hide LitSymOf, DistSymOf, LenSym, DistSym, ExtraLow;
    if ts != [] {
      CutTables(lit, dist, n0, n1, ts[1..]);
      CutToken(lit, dist, n0, n1, ts[0]);
    }
  }

  lemma CutToken(lit: seq<nat>, dist: seq<nat>, n0: nat, n1: nat, t: Token)
    requires n0 <= |lit| && forall i :: n0 <= i < |lit| ==> lit[i] == 0
    requires n1 <= |dist| && forall i :: n1 <= i < |dist| ==> dist[i] == 0
    requires Codable(lit, dist, t)
    ensures Codable(lit[..n0], dist[..n1], t) && TokenBits(lit[..n0], dist[..n1], t) == TokenBits(lit, dist, t)
  {
    hide LenSym, DistSym, ExtraLow, HuffBits;
    HuffBitsPadding(lit, n0, LitSymOf(t));
    if t.Match? {
      HuffBitsPadding(dist, n1, DistSymOf(t));
    }
  }

  lemma CutBody(lit: seq<nat>, dist: seq<nat>, n0: nat, n1: nat, ts: seq<Token>)
    requires n0 <= |lit| && forall i :: n0 <= i < |lit| ==> lit[i] == 0
    requires n1 <= |dist| && forall i :: n1 <= i < |dist| ==> dist[i] == 0
    requires AllCodable(lit, dist, ts) && HasCode(lit, 256)
    ensures AllCodable(lit[..n0], dist[..n1], ts) && HasCode(lit[..n0], 256)
    ensures BodyBits(lit[..n0], dist[..n1], ts) == BodyBits(lit, dist, ts)
  {
    hide HuffBits, TokensBits;
    CutTables(lit, dist, n0, n1, ts);
    HuffBitsPadding(lit, n0, 256);
  }

  method PackJoined(lit: array<nat>, dist: array<nat>, n0: nat, n1: nat, counts: array<nat>) returns (packer: Packer)
    requires n0 <= lit.Length && n1 <= dist.Length && n0 + n1 <= 320 && counts.Length == 288
    requires LensUpTo(lit[..n0] + dist[..n1], 15)
    modifies counts
    ensures fresh(packer) && fresh(packer.packed) && packer.counts == counts
    ensures packer.Shape() && packer.Recorded() && Expand(packer.items) == old(lit[..n0] + dist[..n1])
    ensures packer.items == PackLens(old(lit[..n0] + dist[..n1]))
  {
    hide *;
    var joined := JoinSizes(lit, dist, n0, n1);
    packer := PackSizes(joined, n0 + n1, counts);
  }

  /** The three Huffman tables of the compressor. */
  class Coder {
    const lit: HuffTable
    const dist: HuffTable
    const cl: HuffTable

    ghost predicate Shape()
    {
      && lit.Valid() && dist.Valid() && cl.Valid()
      && lit.Arrays() !! dist.Arrays() && lit.Arrays() !! cl.Arrays() && dist.Arrays() !! cl.Arrays()
    }

    /** The counts of the open block's tokens. */
    ghost predicate Fed(ts: seq<Token>)
      requires Shape()
      reads lit.counts, dist.counts
    {
      AllOk(ts) && |ts| < 65535 && lit.counts[..] == LitCounts(ts, 288) && dist.counts[..] == DistCounts(ts, 288)
    }

    /** The distance table has 32 symbols. */
    ghost predicate DistTail()
      requires Shape()
      reads dist.sizes
    {
      forall i :: 32 <= i < 288 ==> dist.sizes[i] == 0
    }

    constructor ()
      ensures Shape() && fresh(lit.Arrays()) && fresh(dist.Arrays()) && fresh(cl.Arrays()) && DistTail()
      ensures forall i :: 0 <= i < 288 ==> lit.counts[i] == dist.counts[i] == 0
    {
      lit := new HuffTable();
      dist := new HuffTable();
      cl := new HuffTable();
    }

    /** New lengths and codes for both symbol tables. */
    method OptimizeBoth(ghost lc: seq<nat>, ghost dc: seq<nat>)
      requires Shape() && lit.counts[..] == lc && dist.counts[..] == dc
      requires SumTo(lc, 288) < 0x1_0000 && SumTo(dc, 32) < 0x1_0000
      modifies lit.sizes, lit.codes, dist.sizes, dist.codes
      ensures lit.counts[..] == lc && dist.counts[..] == dc
      ensures Optimized(lc, lit.sizes[..], 288, 15) && CodesAssigned(lit.sizes[..], lit.codes[..])
      ensures Optimized(dc, dist.sizes[..], 32, 15) && CodesAssigned(dist.sizes[..], dist.codes[..])
      ensures Economical(lc, lit.sizes[..], 288) && Economical(dc, dist.sizes[..], 32)
    {
      hide Optimized, CodesAssigned, SumTo, Economical;
      Pow2Values();
      lit.Optimize(288, 15);
      ghost var ls, cs := lit.sizes[..], lit.codes[..];
      assert dist.counts[..] == dc;
      dist.Optimize(32, 15);
      assert lit.counts[..] == lc && lit.sizes[..] == ls && lit.codes[..] == cs;
    }

    /** Both symbol tables of a dynamic block, and how much of each is sent. */
    method BuildTables(ghost ts: seq<Token>) returns (n0: nat, n1: nat)
      requires Shape() && Fed(ts)
      modifies lit.counts, lit.sizes, lit.codes, dist.sizes, dist.codes
      ensures Ready(lit) && Ready(dist) && DistTail()
      ensures AllCodable(lit.sizes[..], dist.sizes[..], ts) && HasCode(lit.sizes[..], 256)
      ensures SentSizes(lit.sizes[..], n0, 257, 286) && SentSizes(dist.sizes[..], n1, 1, 30)
      ensures Economical(BlockCounts(ts), lit.sizes[..], 288) && Economical(DistCounts(ts, 288), dist.sizes[..], 32)
    {
      ghost var lc, dc := BlockCounts(ts), DistCounts(ts, 288);
      assert lc == LitCounts(ts, 288)[256 := 1];
      CountSums(ts);
      lit.counts[256] := 1;
      assert lit.counts[..] == lc;
      assert dist.counts[..] == dc;
      hide *;
      OptimizeBoth(lc, dc);
      TablesReady(this, ts, lc, dc);
      n0 := LastUsed(lit.sizes, 286, 257);
      n1 := LastUsed(dist.sizes, 30, 1);
      SentOk(lit.sizes, lc, 288, n0, 257, 286);
      SentOk(dist.sizes, dc, 32, n1, 1, 30);
    }

    /** The run-length coded description of both tables, and the code it is sent in. */
    method BuildLengthCode(n0: nat, n1: nat) returns (packer: Packer, n2: nat)
      requires Shape() && SentSizes(lit.sizes[..], n0, 257, 286) && SentSizes(dist.sizes[..], n1, 1, 30)
      modifies cl.counts, cl.sizes, cl.codes
      ensures fresh(packer) && fresh(packer.packed) && packer.Shape() && packer.Recorded() && packer.counts == cl.counts
      ensures ClReady(cl) && Expand(packer.items) == lit.sizes[..n0] + dist.sizes[..n1]
      ensures DynamicHeaderOk(n0, n1, n2, cl.sizes[..19], packer.items)
      ensures 4 <= n2 <= 19 <= cl.sizes.Length && (n2 > 4 ==> cl.sizes[Zig(n2 - 1)] > 0)
      ensures packer.items == PackLens(lit.sizes[..n0] + dist.sizes[..n1])
    {
      SentLens(lit.sizes[..], dist.sizes[..], n0, n1);
      assert lit.sizes[..][..n0] == lit.sizes[..n0] && dist.sizes[..][..n1] == dist.sizes[..n1];
      assert cl.counts != cl.sizes && cl.counts != cl.codes && cl.counts.Length == 288;
      assert cl.counts != lit.sizes && cl.counts != dist.sizes && cl.sizes != lit.sizes && cl.sizes != dist.sizes;
      assert cl.codes != lit.sizes && cl.codes != dist.sizes;
      hide *;
      packer := PackJoined(lit.sizes, dist.sizes, n0, n1, cl.counts);
      PackedCounts(packer);
      n2 := FinishLengthCode(packer.items, n0, n1);
    }

    /** The code for the packed lengths and how many of its own lengths are sent. */
    method FinishLengthCode(ghost items: seq<Item>, n0: nat, n1: nat) returns (n2: nat)
      requires Shape() && CountsItems(cl.counts[..], items) && ValidItems(items)
      requires 257 <= n0 <= 286 && 1 <= n1 <= 30 && |Expand(items)| == n0 + n1
      requires TableOk(Expand(items)[..n0]) && TableOk(Expand(items)[n0..])
      modifies cl.sizes, cl.codes
      ensures ClReady(cl) && DynamicHeaderOk(n0, n1, n2, cl.sizes[..19], items)
      ensures 4 <= n2 <= 19 <= cl.sizes.Length && (n2 > 4 ==> cl.sizes[Zig(n2 - 1)] > 0)
    {
      ghost var cs := cl.counts[..];
      assert cl.Valid() && cl.counts != cl.sizes && cl.counts != cl.codes;
      hide *;
      ItemCountsFit(cs, items);
      Pow2Values();
      cl.Optimize(19, 7);
      assert cl.counts[..] == cs;
      var last := LastZig(cl.sizes);
      n2 := if last + 1 < 4 then 4 else last + 1;
      LengthCodeOk(cl, n0, n1, n2, items);
    }

    /** What both kinds of block leave ready for the body. */
    ghost predicate Prepared(b: Block)
      requires Shape()
      reads lit.sizes, lit.codes, dist.sizes, dist.codes
    {
      && Ready(lit) && Ready(dist) && DistTail() && !b.Stored? && BlockOk(b)
      && AllCodable(lit.sizes[..], dist.sizes[..], b.tokens) && HasCode(lit.sizes[..], 256)
      && BlockBits(b, 0) == OpeningBits(b) + BodyBits(lit.sizes[..], dist.sizes[..], b.tokens)
    }

    /** The three counts of a dynamic header, then the lengths of the length code. */
    method PutHeaderSizes(sink: BitSink, n0: nat, n1: nat, n2: nat)
      requires Shape() && sink.Valid() && 257 <= n0 <= 286 && 1 <= n1 <= 30 && 4 <= n2 <= 19
      requires forall i :: 0 <= i < 19 ==> cl.sizes[i] < 8
      modifies sink, sink.out
      ensures sink.Valid()
      ensures Grew(old(sink.Snapshot()), sink.Snapshot(), ToBits(2, 2) + (SizesBits(n0, n1, n2) + ClBits(cl.sizes[..19], 0, n2)))
    {
      hide *;
      Apart(this);
      ghost var a, l := sink.Snapshot(), cl.sizes[..19];
      Pow2Values();
      sink.PutBits(2, 2);
      ghost var b := sink.Snapshot();
      PutSizes(sink, n0, n1, n2);
      ghost var e := sink.Snapshot();
      assert cl.sizes[..19] == l;
      PutClSizes(sink, cl.sizes, n2);
      GrewTrans(b, e, sink.Snapshot(), SizesBits(n0, n1, n2), ClBits(l, 0, n2));
      GrewTrans(a, b, sink.Snapshot(), ToBits(2, 2), SizesBits(n0, n1, n2) + ClBits(l, 0, n2));
    }

    /** The whole header of a dynamic block. */
    method PutHeader(sink: BitSink, n0: nat, n1: nat, n2: nat, packer: Packer)
      requires Shape() && sink.Valid() && ClReady(cl) && 257 <= n0 <= 286 && 1 <= n1 <= 30 && 4 <= n2 <= 19
      requires packer.Shape() && packer.Recorded() && packer.packed != cl.sizes && packer.packed != cl.codes
      requires DynamicHeaderOk(n0, n1, n2, cl.sizes[..19], packer.items)
      modifies sink, sink.out
      ensures sink.Valid()
      ensures Grew(old(sink.Snapshot()), sink.Snapshot(), ToBits(2, 2) + DynamicBits(n0, n1, n2, cl.sizes[..19], packer.items))
    {
      hide *;
      Apart(this);
      ghost var l, items := cl.sizes[..19], packer.items;
      assert forall i :: 0 <= i < 19 ==> cl.sizes[i] == l[i];
      HeaderFacts(n0, n1, n2, l, items);
      PackedFlat(packer);
      ghost var a := sink.Snapshot();
      PutHeaderSizes(sink, n0, n1, n2);
      ghost var b := sink.Snapshot();
      assert cl.sizes[..19] == l;
      PutItems(sink, cl, packer.packed, packer.num, items);
      GrewTrans(a, b, sink.Snapshot(), ToBits(2, 2) + (SizesBits(n0, n1, n2) + ClBits(l, 0, n2)), ItemsBits(l, items));
      HeaderAssoc(n0, n1, n2, l, items);
    }

    /** `tdefl_start_dynamic_block` */
    method StartDynamic(sink: BitSink, ghost ts: seq<Token>) returns (ghost b: Block)
      requires Shape() && sink.Valid() && Fed(ts)
      modifies sink, sink.out, lit.counts, lit.sizes, lit.codes, dist.sizes, dist.codes, cl.counts, cl.sizes, cl.codes
      ensures Prepared(b) && b.Dynamic? && b.tokens == ts && Lean(b)
      ensures sink.Valid() && Grew(old(sink.Snapshot()), sink.Snapshot(), OpeningBits(b))
      ensures |Encoded(ts)| <= LZ_CODE_BUF_SIZE ==> |BlockBits(b, 0)| <= MAX_BLOCK_BITS
    {
      hide *;
      Apart(this);
      FedOk(this, ts);
      ghost var a := sink.Snapshot();
      var n0, n1 := BuildTables(ts);
      ghost var ls, ds := lit.sizes[..], dist.sizes[..];
      SentBounds(ls, ds, n0, n1);
      assert ls[..n0] == lit.sizes[..n0] && ds[..n1] == dist.sizes[..n1];
      var packer, n2 := BuildLengthCode(n0, n1);
      b := Dynamic(n0, n1, n2, cl.sizes[..19], packer.items, ts);
      HeaderBounds(n0, n1, n2, cl.sizes[..19], packer.items);
      BeLean(ls, ds, b, cl.sizes[..]);
      assert sink.Snapshot() == a;
      PutHeader(sink, n0, n1, n2, packer);
      DynamicPrepared(ls, ds, b);
      if |Encoded(ts)| <= LZ_CODE_BUF_SIZE {
        DynamicFits(ls, ds, b);
      }
      assert lit.sizes[..] == ls && dist.sizes[..] == ds;
      BePrepared(this, b);
    }

    /** The fixed lengths, and the codes computed from them. */
    method BuildFixed()
      requires Shape() && DistTail()
      modifies lit.sizes, lit.codes, dist.sizes, dist.codes
      ensures Ready(lit) && Ready(dist) && DistTail()
      ensures lit.sizes[..] == FixedLit() && dist.sizes[..32] == FixedDist()
    {
      Apart(this);
      FillFixed(lit.sizes, dist.sizes);
      ghost var ls, ds := lit.sizes[..], dist.sizes[..];
      FixedLens(ls, ds);
      hide FixedLit, FixedDist, CodesAssigned, LensUpTo;
      lit.AssignStatic(288, 15);
      ghost var lc := lit.codes[..];
      assert dist.sizes[..] == ds;
      dist.AssignStatic(32, 15);
      assert lit.sizes[..] == ls && dist.sizes[..] == ds && lit.codes[..] == lc;
    }

    /** `tdefl_start_static_block` */
    method StartStatic(sink: BitSink, ghost ts: seq<Token>) returns (ghost b: Block)
      requires Shape() && sink.Valid() && DistTail() && AllOk(ts)
      modifies sink, sink.out, lit.sizes, lit.codes, dist.sizes, dist.codes
      ensures Prepared(b) && b == Fixed(ts)
      ensures sink.Valid() && Grew(old(sink.Snapshot()), sink.Snapshot(), OpeningBits(b))
    {
      hide *;
      ghost var a := sink.Snapshot();
      BuildFixed();
      assert sink.Snapshot() == a;
      b := Fixed(ts);
      ghost var ls, ds := lit.sizes[..], dist.sizes[..];
      FixedPrepared(this, b);
      Pow2Values();
      sink.PutBits(1, 2);
      assert lit.sizes[..] == ls && dist.sizes[..] == ds;
      BePrepared(this, b);
    }

    /** `tdefl_compress_block`: true means the whole block is in the output buffer. */
    method CompressBlock(sink: BitSink, buf: array<u8>, end: nat, staticBlock: bool, ghost ts: seq<Token>)
      returns (fits: bool, ghost b: Block)
      requires Shape() && sink.Valid() && buf != sink.out && DistTail()
      requires end <= buf.Length && AllOk(ts) && buf[..end] == Encoded(ts) && (!staticBlock ==> Fed(ts))
      modifies sink, sink.out, lit.counts, lit.sizes, lit.codes, dist.sizes, dist.codes, cl.counts, cl.sizes, cl.codes
      ensures DistTail() && BlockOk(b) && !b.Stored? && b.tokens == ts && (staticBlock <==> b.Fixed?) && (b.Dynamic? ==> Lean(b))
      ensures sink.Valid() && Grew(old(sink.Snapshot()), sink.Snapshot(), BlockBits(b, 0))
      ensures fits <==> sink.Snapshot().fits
      ensures end <= LZ_CODE_BUF_SIZE ==> |BlockBits(b, 0)| <= MAX_BLOCK_BITS
    {
      hide *;
      ghost var a, codes := sink.Snapshot(), buf[..end];
      if staticBlock {
        b := StartStatic(sink, ts);
        if end <= LZ_CODE_BUF_SIZE {
          StaticCost.StaticFits(ts);
        }
        BlockLimit();
      } else {
        b := StartDynamic(sink, ts);
      }
      PreparedFacts(this, b);
      ghost var ls, ds, m := lit.sizes[..], dist.sizes[..], sink.Snapshot();
      assert buf[..end] == codes;
      fits := CompressLzCodes(sink, buf, end, lit, dist, ts);
      GrewTrans(a, m, sink.Snapshot(), OpeningBits(b), BodyBits(ls, ds, ts));
    }
  }

  lemma BlockLimit()
    ensures MAX_BLOCK_BITS == 8 * 85100
  {
  }

  lemma FedOk(c: Coder, ts: seq<Token>)
    requires c.Shape() && c.Fed(ts)
    ensures AllOk(ts)
  {
  }

  lemma PreparedFacts(c: Coder, b: Block)
    requires c.Shape() && c.Prepared(b)
    ensures Ready(c.lit) && Ready(c.dist) && c.DistTail() && !b.Stored? && BlockOk(b)
    ensures AllCodable(c.lit.sizes[..], c.dist.sizes[..], b.tokens) && HasCode(c.lit.sizes[..], 256)
    ensures BlockBits(b, 0) == OpeningBits(b) + BodyBits(c.lit.sizes[..], c.dist.sizes[..], b.tokens)
  {
  }

  /** The fixed code lengths of section 3.2.6 of RFC 1951, written in place. */
  method FillFixed(lit: array<nat>, dist: array<nat>)
    requires lit.Length == dist.Length == 288 && lit != dist
    modifies lit, dist
    ensures lit[..] == FixedLit() && dist[..32] == FixedDist()
    ensures forall i :: 32 <= i < 288 ==> dist[i] == old(dist[i])
  {
    for i := 0 to 288
      invariant forall k :: 0 <= k < i ==> lit[k] == FixedLen(k)
      invariant dist[..] == old(dist[..])
    {
      lit[i] := if i <= 143 then 8 else if i <= 255 then 9 else if i <= 279 then 7 else 8;
    }
    for i := 0 to 32
      invariant forall k :: 0 <= k < i ==> dist[k] == 5
      invariant forall k :: 32 <= k < 288 ==> dist[k] == old(dist[k])
      invariant forall k :: 0 <= k < 288 ==> lit[k] == FixedLen(k)
    {
      dist[i] := 5;
    }
    FixedLenIs();
    assert forall k :: 0 <= k < 288 ==> lit[..][k] == FixedLit()[k];
  }

  function FixedLen(i: nat): nat
  {
    if i <= 143 then 8 else if i <= 255 then 9 else if i <= 279 then 7 else 8
  }

  lemma FixedLenIs()
    ensures |FixedLit()| == 288 && forall k :: 0 <= k < 288 ==> FixedLit()[k] == FixedLen(k)
  {
  }

  lemma FixedLens(ls: seq<nat>, ds: seq<nat>)
    requires |ds| == 288 && ls == FixedLit() && ds[..32] == FixedDist() && forall i :: 32 <= i < 288 ==> ds[i] == 0
    ensures LensUpTo(ls, 15) && LensUpTo(ds, 15)
  {
    FixedLenIs();
    forall i | 0 <= i < 32
      ensures ds[i] == 5
    {
      assert ds[i] == ds[..32][i];
    }
  }

  lemma FixedPrepared(c: Coder, b: Block)
    requires c.Shape() && b.Fixed? && AllOk(b.tokens) && c.DistTail()
    requires c.lit.sizes[..] == FixedLit() && c.dist.sizes[..32] == FixedDist()
    ensures BlockOk(b) && OpeningBits(b) == ToBits(1, 2)
    ensures AllCodable(c.lit.sizes[..], c.dist.sizes[..], b.tokens) && HasCode(c.lit.sizes[..], 256)
    ensures BlockBits(b, 0) == OpeningBits(b) + BodyBits(c.lit.sizes[..], c.dist.sizes[..], b.tokens)
  {
    var ls, ds := c.lit.sizes[..], c.dist.sizes[..];
    assert ds[..32] == FixedDist() && ls[..288] == ls && forall i :: 32 <= i < 288 ==> ds[i] == 0;
    FixedCodable(b.tokens);
    hide FixedLit, FixedDist, ToBits, BodyBits;
    AllCodableWider(ls, ds, b.tokens, 32);
    CutBody(ls, ds, 288, 32, b.tokens);
  }

  lemma AllCodableWider(ls: seq<nat>, ds: seq<nat>, ts: seq<Token>, n: nat)
    requires n <= |ds| && AllCodable(ls, ds[..n], ts)
    ensures AllCodable(ls, ds, ts)
  {
    forall k | 0 <= k < |ts|
      ensures Codable(ls, ds, ts[k])
    {
      assert Codable(ls, ds[..n], ts[k]);
    }
  }

  lemma BePrepared(c: Coder, b: Block)
    requires c.Shape() && Ready(c.lit) && Ready(c.dist) && c.DistTail() && !b.Stored? && BlockOk(b)
    requires AllCodable(c.lit.sizes[..], c.dist.sizes[..], b.tokens) && HasCode(c.lit.sizes[..], 256)
    requires BlockBits(b, 0) == OpeningBits(b) + BodyBits(c.lit.sizes[..], c.dist.sizes[..], b.tokens)
    ensures c.Prepared(b)
  {
  }

  /** The header describes the tables cut after their last code; the body bits do not notice the cut. */
  lemma DynamicPrepared(ls: seq<nat>, ds: seq<nat>, b: Block)
    requires b.Dynamic? && DynamicHeaderOk(b.n0, b.n1, b.n2, b.cl, b.items)
    requires SentSizes(ls, b.n0, 257, 286) && SentSizes(ds, b.n1, 1, 30) && Expand(b.items) == ls[..b.n0] + ds[..b.n1]
    requires AllCodable(ls, ds, b.tokens) && HasCode(ls, 256)
    ensures BlockOk(b) && BlockBits(b, 0) == OpeningBits(b) + BodyBits(ls, ds, b.tokens)
    ensures OpeningBits(b) == ToBits(2, 2) + DynamicBits(b.n0, b.n1, b.n2, b.cl, b.items)
  {
    hide DynamicHeaderOk, AllCodable, HasCode, ToBits, DynamicBits, BodyBits, Expand, TableOk;
    var n0, n1, ts := b.n0, b.n1, b.tokens;
    var lens := Expand(b.items);
    assert lens[..n0] == ls[..n0] && lens[n0..] == ds[..n1];
    CutBody(ls, ds, n0, n1, ts);
    HeaderBounds(n0, n1, b.n2, b.cl, b.items);
    var k, h, d := ToBits(2, 2), DynamicBits(n0, n1, b.n2, b.cl, b.items), BodyBits(ls, ds, ts);
    assert k + (h + d) == k + h + d;
  }

  lemma HeaderAssoc(n0: nat, n1: nat, n2: nat, cl: seq<nat>, items: seq<Item>)
    requires n0 >= 257 && n1 >= 1 && 4 <= n2 <= 19 && |cl| == 19 && ItemsCodable(cl, items)
    ensures ToBits(2, 2) + (SizesBits(n0, n1, n2) + ClBits(cl, 0, n2)) + ItemsBits(cl, items) == ToBits(2, 2) + DynamicBits(n0, n1, n2, cl, items)
  {
    hide ToBits, SizesBits, ClBits, ItemsBits;
    Assoc3(ToBits(2, 2), SizesBits(n0, n1, n2), ClBits(cl, 0, n2), ItemsBits(cl, items));
  }

  lemma SentBounds(ls: seq<nat>, ds: seq<nat>, n0: nat, n1: nat)
    requires SentSizes(ls, n0, 257, 286) && SentSizes(ds, n1, 1, 30)
    ensures 257 <= n0 <= 286 <= |ls| && 1 <= n1 <= 30 <= |ds|
  {
  }

  /** The nine arrays of the three tables are distinct. */
  lemma Apart(c: Coder)
    requires c.Shape()
    ensures c.lit.Valid() && c.dist.Valid() && c.cl.Valid()
    ensures c.lit.sizes.Length == c.dist.sizes.Length == c.cl.sizes.Length == 288
    ensures var l, d, m := c.lit, c.dist, c.cl;
      && l.counts !in d.Arrays() + m.Arrays() && l.sizes !in d.Arrays() + m.Arrays() && l.codes !in d.Arrays() + m.Arrays()
      && d.counts !in m.Arrays() && d.sizes !in m.Arrays() && d.codes !in m.Arrays()
    ensures var l, d, m := c.lit, c.dist, c.cl;
      && l.Arrays() == {l.counts, l.sizes, l.codes} && d.Arrays() == {d.counts, d.sizes, d.codes} && m.Arrays() == {m.counts, m.sizes, m.codes}
  {
  }

  lemma PackedFlat(p: Packer)
    requires p.Shape() && p.Recorded()
    ensures p.num <= p.packed.Length && p.packed[..p.num] == Flatten(p.items)
  {
  }

  /** Both tables are within the inflater's limits, so the joined lengths can be packed. */
  lemma SentLens(lit: seq<nat>, dist: seq<nat>, n0: nat, n1: nat)
    requires SentSizes(lit, n0, 257, 286) && SentSizes(dist, n1, 1, 30)
    ensures n0 <= |lit| && n1 <= |dist| && n0 + n1 <= 320 && LensUpTo(lit[..n0] + dist[..n1], 15)
    ensures 257 <= n0 <= 286 && 1 <= n1 <= 30
    ensures var sent := lit[..n0] + dist[..n1]; TableOk(sent[..n0]) && TableOk(sent[n0..]) && |sent| == n0 + n1
  {
    hide Used, UsedSyms;
    var sent := lit[..n0] + dist[..n1];
    assert sent[..n0] == lit[..n0] && sent[n0..] == dist[..n1];
  }

  ghost predicate CountsItems(counts: seq<nat>, items: seq<Item>)
  {
    |counts| == 288 && forall s :: 0 <= s < 19 ==> counts[s] == Occurrences(items, s)
  }

  lemma PackedCounts(p: Packer)
    requires p.Shape() && p.Recorded()
    ensures CountsItems(p.counts[..], p.items) && ValidItems(p.items)
  {
  }

  lemma ItemCountsFit(counts: seq<nat>, items: seq<Item>)
    requires CountsItems(counts, items) && |Expand(items)| <= 320
    ensures SumTo(counts, 19) < 0x1_0000
  {
    hide Expand, Occurrences;
    PackedNoLonger(items);
    ItemCountsSum(items, 19);
    SumToPrefix(counts, ItemCounts(items, 19), 19);
  }

  lemma {:induction false} ItemOccurs(items: seq<Item>, k: nat)
    requires k < |items|
    ensures Occurrences(items, items[k].sym) > 0
  {
    if k < |items| - 1 {
      ItemOccurs(items[..|items| - 1], k);
    }
  }

  lemma LengthCodeOk(cl: HuffTable, n0: nat, n1: nat, n2: nat, items: seq<Item>)
    requires cl.Valid() && CountsItems(cl.counts[..], items) && ValidItems(items)
    requires Optimized(cl.counts[..], cl.sizes[..], 19, 7) && CodesAssigned(cl.sizes[..], cl.codes[..])
    requires 4 <= n2 <= 19 && forall i :: n2 <= i < 19 ==> cl.sizes[Zig(i)] == 0
    requires 257 <= n0 <= 286 && 1 <= n1 <= 30 && |Expand(items)| == n0 + n1
    requires TableOk(Expand(items)[..n0]) && TableOk(Expand(items)[n0..])
    ensures ClReady(cl) && DynamicHeaderOk(n0, n1, n2, cl.sizes[..19], items)
  {
    hide TableOk, Expand, Occurrences, Zig, CodesAssigned, Kraft, Complete;
    var counts, s, t := cl.counts[..], cl.sizes[..], cl.sizes[..19];
    assert s[..19] == t && (forall i :: 0 <= i < 288 ==> s[i] == cl.sizes[i]) && forall i :: 0 <= i < 19 ==> t[i] == s[i];
    OptimizedTableOk(counts, s, 19, 7, 19);
    forall k | 0 <= k < |items|
      ensures HasCode(t, items[k].sym)
    {
      ItemOccurs(items, k);
      assert items[k].Valid();
    }
    forall i | n2 <= i < 19
      ensures t[Zig(i)] == 0
    {
      assert cl.sizes[Zig(i)] == 0;
    }
  }

  /** No length is sent at the end of a table that could be left out, and the lengths are packed run by run. */
  ghost predicate Lean(b: Block)
    requires b.Dynamic?
  {
    && |Expand(b.items)| == b.n0 + b.n1 && b.n0 > 0 && b.n1 > 0 && 4 <= b.n2 <= 19 && |b.cl| == 19
    && (b.n0 > 257 ==> Expand(b.items)[b.n0 - 1] > 0) && (b.n1 > 1 ==> Expand(b.items)[b.n0 + b.n1 - 1] > 0)
    && (b.n2 > 4 ==> b.cl[Zig(b.n2 - 1)] > 0)
    && b.items == PackLens(Expand(b.items))
  }

  lemma BeLean(ls: seq<nat>, ds: seq<nat>, b: Block, cl: seq<nat>)
    requires b.Dynamic? && SentSizes(ls, b.n0, 257, 286) && SentSizes(ds, b.n1, 1, 30) && Expand(b.items) == ls[..b.n0] + ds[..b.n1]
    requires |cl| >= 19 && b.cl == cl[..19] && 4 <= b.n2 <= 19 && (b.n2 > 4 ==> cl[Zig(b.n2 - 1)] > 0)
    requires b.items == PackLens(ls[..b.n0] + ds[..b.n1])
    ensures Lean(b)
  {
    hide TableOk, Expand, PackLens, Zig;
  }

  /** The first `n` lengths are sent: the rest are zero, and the inflater accepts the table. */
  ghost predicate SentSizes(sizes: seq<nat>, n: nat, lo: nat, hi: nat)
  {
    && lo <= n <= hi <= |sizes| && (forall i :: n <= i < |sizes| ==> sizes[i] == 0) && TableOk(sizes[..n])
    && (n > lo ==> sizes[n - 1] > 0)
  }

  lemma TablesReady(c: Coder, ts: seq<Token>, lc: seq<nat>, dc: seq<nat>)
    requires c.Shape() && AllOk(ts) && lc == LitCounts(ts, 288)[256 := 1] && dc == DistCounts(ts, 288)
    requires Optimized(lc, c.lit.sizes[..], 288, 15) && CodesAssigned(c.lit.sizes[..], c.lit.codes[..])
    requires Optimized(dc, c.dist.sizes[..], 32, 15) && CodesAssigned(c.dist.sizes[..], c.dist.codes[..])
    ensures |lc| == |dc| == 288 && Ready(c.lit) && Ready(c.dist) && c.DistTail()
    ensures AllCodable(c.lit.sizes[..], c.dist.sizes[..], ts) && HasCode(c.lit.sizes[..], 256)
    ensures forall i :: 286 <= i < 288 ==> c.lit.sizes[i] == 0
    ensures forall i :: 30 <= i < 288 ==> c.dist.sizes[i] == 0
  {
    var ls, ds := c.lit.sizes[..], c.dist.sizes[..];
    hide Optimized, CodesAssigned, Ready, AllCodable, HasCode;
    CountedIsCodable(ts, lc, dc, ls, ds);
    OptimizedReady(lc, c.lit, 288);
    OptimizedReady(dc, c.dist, 32);
    assert ls[286] == c.lit.sizes[286] && ls[287] == c.lit.sizes[287];
    assert forall i :: 30 <= i < 288 ==> ds[i] == c.dist.sizes[i];
  }

  lemma OptimizedReady(counts: seq<nat>, t: HuffTable, len: nat)
    requires t.Valid() && len <= 288 == |counts|
    requires Optimized(counts, t.sizes[..], len, 15) && CodesAssigned(t.sizes[..], t.codes[..])
    ensures Ready(t) && forall i :: len <= i < 288 ==> t.sizes[i] == 0
  {
    assert forall i :: 0 <= i < 288 ==> t.sizes[..][i] == t.sizes[i];
  }

  lemma SentOk(sizes: array<nat>, counts: seq<nat>, len: nat, n: nat, lo: nat, hi: nat)
    requires sizes.Length == |counts| == 288 && len <= 288 && lo <= n <= hi <= 288
    requires Optimized(counts, sizes[..], len, 15)
    requires forall i :: n <= i < hi ==> sizes[i] == 0
    requires (forall i :: hi <= i < 288 ==> sizes[i] == 0) && (n > lo ==> sizes[n - 1] > 0)
    ensures SentSizes(sizes[..], n, lo, hi)
  {
    var s := sizes[..];
    assert forall i :: n <= i < 288 ==> s[i] == sizes[i] == 0;
    OptimizedTableOk(counts, s, len, 15, n);
  }
}
