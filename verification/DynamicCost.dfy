/**
 Why a dynamic block always fits as well. Its tables cost at most one bit a symbol more than any code,
 so the body is compared with a code of 9 bits for literals, 6 for lengths and 5 for distances.
 */
module DynamicCost {
  import opened Bits
  import opened Canonical
  import opened LzTokens
  import opened TokenBuffers
  import opened CodeLengthRle
  import opened PrefixCost
  import opened HuffTables
  import opened DeflateBits
  import opened BlockWriter
  import opened BlockHeader
  import opened BlockSpec
  import opened InflateSpec
  import StaticCost
  import LimitCost

  /** No block takes more, of whatever kind and with whatever tables. */
  const MAX_BLOCK_BITS := 8 * 85100

  // ---------------------------------------------------------------- sums over tokens

  lemma {:induction false} SymCostBump(c: seq<nat>, lens: seq<nat>, i: nat, n: nat)
    requires i < |c| && n <= |c| && n <= |lens|
    ensures SymCost(c[i := c[i] + 1], lens, n) == SymCost(c, lens, n) + (if i < n then lens[i] else 0)
  {
    if n > 0 {
      SymCostBump(c, lens, i, n - 1);
      if i == n - 1 {
        Distrib(c[i], 1, lens[i]);
      }
    }
  }

  lemma {:induction false} SymCostZero(c: seq<nat>, lens: seq<nat>, n: nat)
    requires n <= |c| && n <= |lens| && forall i :: 0 <= i < n ==> c[i] == 0
    ensures SymCost(c, lens, n) == 0
  {
    if n > 0 {
      SymCostZero(c, lens, n - 1);
    }
  }

  /** The bits of tokens in which a literal or length symbol costs `lit` and a distance symbol `dist`. */
  ghost function Bill(ts: seq<Token>, lit: seq<nat>, dist: seq<nat>): nat
    requires AllOk(ts) && |lit| == 288 && |dist| >= 32
  {
    SymCost(LitCounts(ts, 288), lit, 288) + SymCost(DistCounts(ts, 288), dist, 32)
  }

  lemma LitCountsSnoc(ts: seq<Token>)
    requires AllOk(ts) && ts != []
    ensures var init, t := ts[..|ts| - 1], ts[|ts| - 1]; var c := LitCounts(init, 288);
      AllOk(init) && LitSymOf(t) < 288 && LitCounts(ts, 288) == c[LitSymOf(t) := c[LitSymOf(t)] + 1]
  {
    hide LitSymOf;
    TokenCountsUse(ts);
  }

  lemma DistCountsSnoc(ts: seq<Token>)
    requires AllOk(ts) && ts != []
    ensures var init, t := ts[..|ts| - 1], ts[|ts| - 1]; var c := DistCounts(init, 288);
      && AllOk(init)
      && (t.Match? ==> DistSymOf(t) < 30 && DistCounts(ts, 288) == c[DistSymOf(t) := c[DistSymOf(t)] + 1])
      && (!t.Match? ==> DistCounts(ts, 288) == c)
  {
    hide DistSymOf;
    TokenCountsUse(ts);
  }

  lemma BillSnoc(ts: seq<Token>, lit: seq<nat>, dist: seq<nat>)
    requires AllOk(ts) && ts != [] && |lit| == 288 && |dist| >= 32
    ensures var init, t := ts[..|ts| - 1], ts[|ts| - 1];
      && AllOk(init) && LitSymOf(t) < 288 && (t.Match? ==> DistSymOf(t) < 30)
      && Bill(ts, lit, dist) == Bill(init, lit, dist) + lit[LitSymOf(t)] + (if t.Match? then dist[DistSymOf(t)] else 0)
  {
    LitCountsSnoc(ts);
    DistCountsSnoc(ts);
    hide LitSymOf, DistSymOf, LitCounts, DistCounts, SymCost;
    var init, t := ts[..|ts| - 1], ts[|ts| - 1];
    SymCostBump(LitCounts(init, 288), lit, LitSymOf(t), 288);
    if t.Match? {
      SymCostBump(DistCounts(init, 288), dist, DistSymOf(t), 32);
    }
  }

  lemma BillNone(lit: seq<nat>, dist: seq<nat>)
    requires |lit| == 288 && |dist| >= 32
    ensures Bill([], lit, dist) == 0
  {
    SymCostZero(LitCounts([], 288), lit, 288);
    SymCostZero(DistCounts([], 288), dist, 32);
  }

  // ---------------------------------------------------------------- the body

  lemma TokenSize(lit: seq<nat>, dist: seq<nat>, t: Token)
    requires Codable(lit, dist, t)
    ensures |TokenBits(lit, dist, t)| <= lit[LitSymOf(t)] + (if t.Match? then dist[DistSymOf(t)] + 18 else 0)
  {
    hide LenExtra, DistExtra, LenSym, DistSym, HuffBits;
    match t
    case Lit(b) =>
      StaticCost.HuffBitsLength(lit, b);
    case Match(len, d) =>
      StaticCost.ExtraBounds(len, d);
      StaticCost.HuffBitsLength(lit, LenSym(len - MIN_MATCH_LEN));
      StaticCost.HuffBitsLength(dist, DistSym(d - 1));
  }

  /** Extra bits, at most 18 a match, come on top. */
  lemma {:induction false} TokensSize(lit: seq<nat>, dist: seq<nat>, ts: seq<Token>)
    requires AllOk(ts) && AllCodable(lit, dist, ts) && |lit| == 288 && |dist| >= 32
    ensures |TokensBits(lit, dist, ts)| <= Bill(ts, lit, dist) + 18 * Matches(ts)
  {
    if ts == [] {
      BillNone(lit, dist);
    } else {
      var init, t := ts[..|ts| - 1], ts[|ts| - 1];
      hide Bill, TokenBits, TokensBits, LitSymOf, DistSymOf;
      assert Codable(lit, dist, t);
      assert ts == init + [t];
      BillSnoc(ts, lit, dist);
      TokensSize(lit, dist, init);
      TokenSize(lit, dist, t);
      TokensBitsSnoc(lit, dist, init, t);
      MatchesConcat(init, [t]);
      StaticCost.OneMatch(t);
    }
  }

  // ---------------------------------------------------------------- a code to compare with

  function PlainLit(): (r: seq<nat>)
    ensures |r| == 288 && forall i :: 0 <= i < 288 ==> r[i] == if i < 256 then 9 else 6
  {
    seq(288, i => if i < 256 then 9 else 6)
  }

  function PlainDist(): (r: seq<nat>)
    ensures |r| == 32 && forall i :: 0 <= i < 32 ==> r[i] == 5
  {
    seq(32, _ => 5)
  }

  lemma {:induction false} SharesEqual(s: seq<nat>, x: nat, m: nat)
    requires forall k :: 0 <= k < |s| ==> s[k] == x
    ensures Shares(s, m) == |s| * Share(x, m)
  {
    if s != [] {
      SharesEqual(s[1..], x, m);
      Distrib(1, |s| - 1, Share(x, m));
    }
  }

  lemma SmallShares()
    ensures Share(9, 9) == 1 && Share(6, 9) == 8 && Share(5, 5) == 1 && Pow2(9) == 512 && Pow2(5) == 32
  {
    hide Pow2;
    Pow2Values();
    Pow2Zero();
  }

  lemma Pow2Zero()
    ensures Pow2(0) == 1
  {
  }

  lemma PlainDistFeasible()
    ensures Feasible(PlainDist(), 5)
  {
    hide Shares, Share, Pow2, PlainDist;
    SmallShares();
    SharesEqual(PlainDist(), 5, 5);
  }

  lemma PlainLitFeasible()
    ensures Feasible(PlainLit(), 9)
  {
    hide Shares, Share, Pow2, PlainLit;
    var l := PlainLit();
    SmallShares();
    LimitCost.SharesSplit(l, 256, 9);
    SharesEqual(l[..256], 9, 9);
    SharesEqual(l[256..], 6, 9);
  }

  lemma PlainFeasible()
    ensures Feasible(PlainLit(), 9) && Feasible(PlainDist(), 5)
  {
    hide *;
    PlainLitFeasible();
    PlainDistFeasible();
  }

  lemma {:induction false} PlainBill(ts: seq<Token>)
    requires AllOk(ts)
    ensures SymCost(LitCounts(ts, 288), PlainLit(), 288) == 9 * |ts| - 3 * Matches(ts)
    ensures SymCost(DistCounts(ts, 288), PlainDist(), 32) == 5 * Matches(ts)
    ensures SumTo(LitCounts(ts, 288), 288) == |ts| && SumTo(DistCounts(ts, 288), 32) == Matches(ts)
    decreases |ts|, 1
  {
    if ts == [] {
      SymCostZero(LitCounts([], 288), PlainLit(), 288);
      SymCostZero(DistCounts([], 288), PlainDist(), 32);
      SumToZero(LitCounts([], 288), 288);
      SumToZero(DistCounts([], 288), 32);
    } else {
      PlainNext(ts);
    }
  }

  lemma LitSymKind(t: Token)
    requires t.Ok()
    ensures if t.Match? then 256 < LitSymOf(t) < 286 && DistSymOf(t) < 30 else LitSymOf(t) < 256
  {
    hide LenSym, DistSym;
    if t.Match? {
      SymsInRange(t.len, t.dist);
    }
  }

  lemma MatchesSnoc(ts: seq<Token>)
    requires ts != []
    ensures Matches(ts) == Matches(ts[..|ts| - 1]) + (if ts[|ts| - 1].Match? then 1 else 0)
  {
    var init, t := ts[..|ts| - 1], ts[|ts| - 1];
    assert ts == init + [t];
    MatchesConcat(init, [t]);
    StaticCost.OneMatch(t);
  }

  lemma LitNext(c: seq<nat>, i: nat)
    requires |c| == 288 && i < 288
    ensures SymCost(c[i := c[i] + 1], PlainLit(), 288) == SymCost(c, PlainLit(), 288) + (if i < 256 then 9 else 6)
    ensures SumTo(c[i := c[i] + 1], 288) == SumTo(c, 288) + 1
  {
    hide SymCost, SumTo;
    SymCostBump(c, PlainLit(), i, 288);
    SumToBump(c, i, 288);
  }

  lemma DistNext(c: seq<nat>, i: nat)
    requires |c| == 288 && i < 30
    ensures SymCost(c[i := c[i] + 1], PlainDist(), 32) == SymCost(c, PlainDist(), 32) + 5
    ensures SumTo(c[i := c[i] + 1], 32) == SumTo(c, 32) + 1
  {
    hide SymCost, SumTo;
    SymCostBump(c, PlainDist(), i, 32);
    SumToBump(c, i, 32);
  }

  lemma {:induction false} PlainNext(ts: seq<Token>)
    requires AllOk(ts) && ts != []
    ensures SymCost(LitCounts(ts, 288), PlainLit(), 288) == 9 * |ts| - 3 * Matches(ts)
    ensures SymCost(DistCounts(ts, 288), PlainDist(), 32) == 5 * Matches(ts)
    ensures SumTo(LitCounts(ts, 288), 288) == |ts| && SumTo(DistCounts(ts, 288), 32) == Matches(ts)
    decreases |ts|, 0
  {
    hide LitSymOf, DistSymOf, LitCounts, DistCounts, SymCost, SumTo, Matches, PlainLit, PlainDist;
    var init, t := ts[..|ts| - 1], ts[|ts| - 1];
    assert AllOk(init) && t.Ok();
    PlainBill(init);
    LitCountsSnoc(ts);
    DistCountsSnoc(ts);
    LitSymKind(t);
    MatchesSnoc(ts);
    LitNext(LitCounts(init, 288), LitSymOf(t));
    if t.Match? {
      DistNext(DistCounts(init, 288), DistSymOf(t));
    }
  }

  /** The counts of the open block with the end-of-block symbol. */
  ghost function BlockCounts(ts: seq<Token>): (c: seq<nat>)
    requires AllOk(ts)
    ensures |c| == 288
  {
    LitCounts(ts, 288)[256 := 1]
  }

  lemma EndCounted(ts: seq<Token>, lens: seq<nat>)
    requires AllOk(ts) && |lens| == 288
    ensures SymCost(BlockCounts(ts), lens, 288) == SymCost(LitCounts(ts, 288), lens, 288) + lens[256]
    ensures SumTo(BlockCounts(ts), 288) == SumTo(LitCounts(ts, 288), 288) + 1
  {
    hide SymCost, SumTo;
    TokenCountsUse(ts);
    SymCostBump(LitCounts(ts, 288), lens, 256, 288);
    SumToBump(LitCounts(ts, 288), 256, 288);
  }

  /** The body with economical tables. */
  lemma BodySize(lit: seq<nat>, dist: seq<nat>, ts: seq<Token>)
    requires AllOk(ts) && |lit| == |dist| == 288 && AllCodable(lit, dist, ts) && HasCode(lit, 256)
    requires Economical(BlockCounts(ts), lit, 288) && Economical(DistCounts(ts, 288), dist, 32)
    ensures |BodyBits(lit, dist, ts)| <= 10 * |ts| + 21 * Matches(ts) + 7
  {
    PlainFeasible();
    hide SymCost, SumTo, Feasible, LitCounts, DistCounts, BlockCounts, TokensBits, HuffBits, PlainLit, PlainDist;
    PlainBill(ts);
    EndCounted(ts, lit);
    EndCounted(ts, PlainLit());
    TokensSize(lit, dist, ts);
    StaticCost.HuffBitsLength(lit, 256);
    assert SymCost(BlockCounts(ts), lit, 288) <= SymCost(BlockCounts(ts), PlainLit(), 288) + SumTo(BlockCounts(ts), 288);
    assert SymCost(DistCounts(ts, 288), dist, 32) <= SymCost(DistCounts(ts, 288), PlainDist(), 32) + SumTo(DistCounts(ts, 288), 32);
    assert Bill(ts, lit, dist) == SymCost(LitCounts(ts, 288), lit, 288) + SymCost(DistCounts(ts, 288), dist, 32);
  }

  // ---------------------------------------------------------------- the header

  lemma ItemSize(cl: seq<nat>, it: Item)
    requires HasCode(cl, it.sym) && it.Valid() && cl[it.sym] < 8
    ensures |ItemBits(cl, it)| <= 14
  {
    hide HuffBits;
    StaticCost.HuffBitsLength(cl, it.sym);
  }

  lemma {:induction false} ItemsSize(cl: seq<nat>, items: seq<Item>)
    requires ItemsCodable(cl, items) && (forall k :: 0 <= k < |items| ==> items[k].Valid()) && forall i :: 0 <= i < |cl| ==> cl[i] < 8
    ensures |ItemsBits(cl, items)| <= 14 * |items|
  {
    if items != [] {
      hide ItemBits;
      ItemsSize(cl, items[..|items| - 1]);
      ItemSize(cl, items[|items| - 1]);
    }
  }

  /** A header has at most 320 items, of at most 14 bits each. */
  lemma OpeningSize(n0: nat, n1: nat, n2: nat, cl: seq<nat>, items: seq<Item>)
    requires DynamicHeaderOk(n0, n1, n2, cl, items)
    ensures |ToBits(2, 2) + DynamicBits(n0, n1, n2, cl, items)| <= 4553
  {
    hide TableOk, Expand, ItemsBits, ClBits;
    ClBitsLength(cl, 0, n2);
    ItemsSize(cl, items);
    PackedNoLonger(items);
  }

  // ---------------------------------------------------------------- the block

  /** A dynamic block whose tables are economical fits in the output buffer with room to spare. */
  lemma DynamicFits(lit: seq<nat>, dist: seq<nat>, b: Block)
    requires b.Dynamic? && AllOk(b.tokens) && |lit| == |dist| == 288 && AllCodable(lit, dist, b.tokens) && HasCode(lit, 256)
    requires Economical(BlockCounts(b.tokens), lit, 288) && Economical(DistCounts(b.tokens, 288), dist, 32)
    requires BlockOk(b) && BlockBits(b, 0) == OpeningBits(b) + BodyBits(lit, dist, b.tokens) && |Encoded(b.tokens)| <= LZ_CODE_BUF_SIZE
    ensures |BlockBits(b, 0)| <= MAX_BLOCK_BITS
  {
    assert OpeningBits(b) == ToBits(2, 2) + DynamicBits(b.n0, b.n1, b.n2, b.cl, b.items);
    hide Economical, AllCodable, BlockBits, BodyBits, OpeningBits, DynamicBits, DynamicHeaderOk, ToBits, Encoded;
    OpeningSize(b.n0, b.n1, b.n2, b.cl, b.items);
    BodySize(lit, dist, b.tokens);
    EncodedSize(b.tokens);
  }
}
