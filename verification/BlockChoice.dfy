/**
 Which kind of block a flush writes (miniz.c, the middle of `tdefl_flush_block`): a stored block when
 forced or when compression does not pay and the bytes are still in the dictionary, a static block
 for few bytes or when a dynamic one does not fit.
 */
module BlockChoice {
  import opened Bits
  import opened BitSinks
  import opened Windows
  import opened BlockSpec
  import opened RawBlocks
  import opened DynamicCost
  import B = Blocks
  import T = TokenBuffers
  import LT = LzTokens

  /** The tokens in the buffer stand for `total` input bytes from `start` on, all passed over. */
  ghost predicate Pending(ts: seq<LT.Token>, input: seq<u8>, start: nat, total: nat)
  {
    LT.AllOk(ts) && start + total <= |input| && LT.Expands(input[..start], ts, input[..start + total])
  }

  lemma Bounds()
    ensures MAX_BLOCK_BITS == 8 * 85100 && LT.DICT_SIZE == 32768
  {
  }

  lemma KindAt(b: Block, p: nat)
    requires BlockOk(b) && !b.Stored?
    ensures BlockBits(b, p) == BlockBits(b, 0)
  {
  }

  lemma TokensProduce(b: Block, ts: seq<LT.Token>, input: seq<u8>, start: nat, total: nat)
    requires Pending(ts, input, start, total) && !b.Stored? && b.tokens == ts
    ensures Produces(b, input[..start], input[..start + total])
  {
  }

  lemma RawProduces(input: seq<u8>, start: nat, total: nat)
    requires start + total <= |input|
    ensures Produces(Stored(input[start..start + total]), input[..start], input[..start + total])
  {
    assert input[..start + total] == input[..start] + input[start..start + total];
  }

  lemma RawSize(data: seq<u8>, pos: nat)
    requires |data| <= LT.DICT_SIZE
    ensures BlockOk(Stored(data)) && |BlockBits(Stored(data), pos)| <= MAX_BLOCK_BITS
  {
    hide BytesToBits, ToBits;
    RawBits(pos, data);
  }

  /**
   From `a` to `c` a block was written that takes the output from `input[..start]` to
   `input[..start + total]`, and it is no larger than any block may be.
   */
  ghost predicate Wrote(a: Snap, c: Snap, b: Block, input: seq<u8>, start: nat, total: nat)
  {
    && BlockOk(b) && start + total <= |input| && Produces(b, input[..start], input[..start + total])
    && Grew(a, c, BlockBits(b, a.total)) && c.total <= a.total + MAX_BLOCK_BITS
  }

  /** A compressed block, dynamic or static. */
  method TryBlock(sink: BitSink, coder: B.Coder, buf: array<u8>, end: nat, staticBlock: bool,
                  ghost ts: seq<LT.Token>, ghost input: seq<u8>, ghost start: nat, ghost total: nat)
    returns (fits: bool, ghost b: Block)
    requires coder.Shape() && sink.Valid() && buf != sink.out && coder.DistTail()
    requires end <= T.LZ_CODE_BUF_SIZE == buf.Length && Pending(ts, input, start, total)
    requires buf[..end] == LT.Encoded(ts) && (!staticBlock ==> coder.Fed(ts))
    modifies sink, sink.out, coder.lit.counts, coder.lit.sizes, coder.lit.codes, coder.dist.sizes, coder.dist.codes
    modifies coder.cl.counts, coder.cl.sizes, coder.cl.codes
    ensures coder.DistTail() && sink.Valid() && old(sink.Snapshot()).bytes <= sink.Snapshot().bytes
    ensures Wrote(old(sink.Snapshot()), sink.Snapshot(), b, input, start, total)
    ensures (staticBlock <==> b.Fixed?) && !b.Stored? && b.tokens == ts && (fits <==> sink.Snapshot().fits)
  {
    hide *;
    PendingOk(ts, input, start, total);
    ghost var a := sink.Snapshot();
    fits, b := coder.CompressBlock(sink, buf, end, staticBlock, ts);
    KindAt(b, a.total);
    TokensProduce(b, ts, input, start, total);
    ghost var c := sink.Snapshot();
    GrewBytes(a, c, BlockBits(b, 0));
    BeWrote(a, c, b, input, start, total);
  }

  lemma PendingOk(ts: seq<LT.Token>, input: seq<u8>, start: nat, total: nat)
    requires Pending(ts, input, start, total)
    ensures LT.AllOk(ts) && start + total <= |input|
  {
  }

  lemma GrewBytes(a: Snap, b: Snap, bits: seq<bool>)
    requires Grew(a, b, bits)
    ensures a.bytes <= b.bytes
  {
  }

  lemma BeWrote(a: Snap, c: Snap, b: Block, input: seq<u8>, start: nat, total: nat)
    requires BlockOk(b) && start + total <= |input| && Produces(b, input[..start], input[..start + total])
    requires Grew(a, c, BlockBits(b, a.total))
    requires |BlockBits(b, a.total)| <= MAX_BLOCK_BITS
    ensures Wrote(a, c, b, input, start, total)
  {
  }

  // ---------------------------------------------------------------- the decision

  /** The byte position of a bit position in an output buffer of `end` bytes. */
  function ByteAt(total: nat, end: nat): nat
  {
    if total / 8 < end then total / 8 else end
  }

  /** Written at bit `pos`, the compressed block `k` would take no fewer bytes than `n` less one. */
  ghost predicate Expanded(k: Block, pos: nat, end: nat, n: nat)
    requires BlockOk(k)
  {
    n != 0 && ByteAt(pos + |BlockBits(k, pos)|, end) - ByteAt(pos, end) + 1 >= n
  }

  /**
   Which block is written for the bytes `raw`: the stored one if it is forced or the compressed one (static
   if so asked) does not pay, and the bytes are still at hand; else the compressed one, or a static one if
   that does not fit.
   */
  ghost predicate Chosen(b: Block, k: Block, pos: nat, end: nat, raw: seq<u8>, inDict: bool, forceRaw: bool, staticBlock: bool, ts: seq<LT.Token>)
  {
    if forceRaw && inDict then b == Stored(raw)
    else
      && BlockOk(k) && !k.Stored? && k.tokens == ts && (k.Fixed? <==> staticBlock) && |BlockBits(k, pos)| <= MAX_BLOCK_BITS
      && if inDict && Expanded(k, pos, end, |raw|) then b == Stored(raw)
         else if (pos + |BlockBits(k, pos)|) / 8 < end then b == k
         else b == Fixed(ts)
  }

  lemma ChosenForced(b: Block, k: Block, pos: nat, end: nat, raw: seq<u8>, inDict: bool, forceRaw: bool, staticBlock: bool, ts: seq<LT.Token>)
    requires forceRaw && inDict && b == Stored(raw)
    ensures Chosen(b, k, pos, end, raw, inDict, forceRaw, staticBlock, ts)
  {
  }

  lemma ChosenRaw(b: Block, k: Block, pos: nat, end: nat, raw: seq<u8>, inDict: bool, forceRaw: bool, staticBlock: bool, ts: seq<LT.Token>)
    requires inDict && b == Stored(raw) && BlockOk(k) && !k.Stored? && k.tokens == ts && (k.Fixed? <==> staticBlock)
    requires Expanded(k, pos, end, |raw|) && |BlockBits(k, pos)| <= MAX_BLOCK_BITS
    ensures Chosen(b, k, pos, end, raw, inDict, forceRaw, staticBlock, ts)
  {
    hide BlockOk, BlockBits, Expanded;
  }

  lemma ChosenCoded(b: Block, k: Block, pos: nat, end: nat, raw: seq<u8>, inDict: bool, forceRaw: bool, staticBlock: bool, ts: seq<LT.Token>)
    requires !(forceRaw && inDict) && BlockOk(k) && !k.Stored? && k.tokens == ts && (k.Fixed? <==> staticBlock)
    requires !(inDict && Expanded(k, pos, end, |raw|)) && |BlockBits(k, pos)| <= MAX_BLOCK_BITS
    requires if (pos + |BlockBits(k, pos)|) / 8 < end then b == k else b == Fixed(ts)
    ensures Chosen(b, k, pos, end, raw, inDict, forceRaw, staticBlock, ts)
  {
    hide BlockOk, BlockBits, Expanded;
  }

  /** Where the compressed block ends in the output, and whether it has expanded. */
  lemma WroteEnds(a: Snap, c: Snap, k: Block, input: seq<u8>, start: nat, total: nat, end: nat, pos0: nat, pos: nat)
    requires Wrote(a, c, k, input, start, total) && pos0 == ByteAt(a.total, end) && pos == ByteAt(c.total, end)
    ensures BlockOk(k) && c.total == a.total + |BlockBits(k, a.total)| && |BlockBits(k, a.total)| <= MAX_BLOCK_BITS
    ensures total != 0 && pos - pos0 + 1 >= total <==> Expanded(k, a.total, end, total)
  {
    hide BlockOk, BlockBits, Produces;
  }

  lemma Positions(sink: BitSink)
    requires sink.Valid()
    ensures sink.pos == ByteAt(sink.Snapshot().total, sink.end) && sink.Snapshot().fits == (sink.Snapshot().total / 8 < sink.end)
    ensures sink.Snapshot().total == sink.total
  {
  }

  method WriteRaw(sink: BitSink, window: Window, start: nat, total: nat) returns (ghost b: Block)
    requires sink.Valid() && window.Valid() && sink.out != window.dict
    requires window.lookaheadPos - window.dictSize <= start && start + total <= window.lookaheadPos <= |window.input|
    requires total <= LT.DICT_SIZE
    modifies sink, sink.out
    ensures sink.Valid() && b == Stored(window.input[start..start + total]) && Wrote(old(sink.Snapshot()), sink.Snapshot(), b, window.input, start, total)
  {
    hide *;
    ghost var a := sink.Snapshot();
    SnapTotal(sink);
    Bounds();
    b := Stored(window.input[start..start + total]);
    RawProduces(window.input, start, total);
    RawSize(window.input[start..start + total], a.total);
    PutRaw(sink, window, start, total);
    BeWrote(a, sink.Snapshot(), b, window.input, start, total);
  }

  lemma WindowBounds(window: Window)
    requires window.Valid()
    ensures |window.input| >= window.lookaheadPos >= window.dictSize && window.dictSize <= LT.DICT_SIZE
  {
  }

  /** The first try, and whether the block has expanded. */
  method TryFirst(sink: BitSink, coder: B.Coder, buf: array<u8>, end: nat, staticBlock: bool, pos0: nat,
                  ghost ts: seq<LT.Token>, ghost input: seq<u8>, ghost start: nat, ghost total: nat)
    returns (fits: bool, ghost b: Block)
    requires coder.Shape() && sink.Valid() && buf != sink.out && coder.DistTail() && pos0 == sink.pos
    requires end <= T.LZ_CODE_BUF_SIZE == buf.Length && Pending(ts, input, start, total)
    requires buf[..end] == LT.Encoded(ts) && (!staticBlock ==> coder.Fed(ts))
    modifies sink, sink.out, coder.lit.counts, coder.lit.sizes, coder.lit.codes, coder.dist.sizes, coder.dist.codes
    modifies coder.cl.counts, coder.cl.sizes, coder.cl.codes
    ensures coder.DistTail() && sink.Valid() && old(sink.Snapshot()).bytes <= sink.Snapshot().bytes
    ensures Wrote(old(sink.Snapshot()), sink.Snapshot(), b, input, start, total)
    ensures (staticBlock <==> b.Fixed?) && !b.Stored? && b.tokens == ts && BlockOk(b)
    ensures var pos := old(sink.Snapshot()).total; var n := |BlockBits(b, pos)|;
      && n <= MAX_BLOCK_BITS && (fits <==> (pos + n) / 8 < sink.end)
      && (total != 0 && sink.pos - pos0 + 1 >= total <==> Expanded(b, pos, sink.end, total))
  {
    hide *;
    ghost var a := sink.Snapshot();
    Positions(sink);
    fits, b := TryBlock(sink, coder, buf, end, staticBlock, ts, input, start, total);
    Positions(sink);
    WroteEnds(a, sink.Snapshot(), b, input, start, total, sink.end, pos0, sink.pos);
  }

  /**
   Whichever block ends up in the buffer stands for exactly the pending bytes; `k` is the compressed block
   that was tried first, unless a stored one was forced.
   */
  method ChooseBlock(sink: BitSink, window: Window, coder: B.Coder, buf: array<u8>, end: nat, forceRaw: bool, forceStatic: bool,
                     start: nat, total: nat, ghost ts: seq<LT.Token>)
    returns (ghost b: Block, ghost k: Block)
    requires coder.Shape() && sink.Valid() && window.Valid() && buf != sink.out && sink.out != window.dict && coder.DistTail()
    requires end <= T.LZ_CODE_BUF_SIZE == buf.Length && Pending(ts, window.input, start, total)
    requires buf[..end] == LT.Encoded(ts) && coder.Fed(ts)
    requires start + total <= window.lookaheadPos
    modifies sink, sink.out, coder.lit.counts, coder.lit.sizes, coder.lit.codes, coder.dist.sizes, coder.dist.codes
    modifies coder.cl.counts, coder.cl.sizes, coder.cl.codes
    ensures coder.DistTail() && sink.Valid() && |window.input| >= window.lookaheadPos
    ensures Wrote(old(sink.Snapshot()), sink.Snapshot(), b, window.input, start, total)
    ensures Chosen(b, k, old(sink.Snapshot()).total, sink.end, window.input[start..start + total],
                   window.lookaheadPos - start <= window.dictSize, forceRaw, forceStatic || total < 48, ts)
  {
    hide *;
    Bounds();
    WindowBounds(window);
    ghost var a, codes, raw := sink.Snapshot(), buf[..end], window.input[start..start + total];
    var inDict := window.lookaheadPos - start <= window.dictSize;
    var useRaw, few := forceRaw && inDict, forceStatic || total < 48;
    Positions(sink);
    var pos0, bitBuffer0, bitsIn0 := sink.Save();
    var succeeded := false;
    b := Stored(raw);
    if !useRaw {
      succeeded, b := TryFirst(sink, coder, buf, end, few, pos0, ts, window.input, start, total);
    }
    k := b;
    assert sink.IsMark(pos0, bitBuffer0, bitsIn0, a);
    if (useRaw || (total != 0 && sink.pos - pos0 + 1 >= total)) && inDict {
      sink.Restore(pos0, bitBuffer0, bitsIn0, a);
      b := WriteRaw(sink, window, start, total);
      if useRaw {
        ChosenForced(b, k, a.total, sink.end, raw, inDict, forceRaw, few, ts);
      } else {
        ChosenRaw(b, k, a.total, sink.end, raw, inDict, forceRaw, few, ts);
      }
    } else {
      if !succeeded {
        sink.Restore(pos0, bitBuffer0, bitsIn0, a);
        assert buf[..end] == codes;
        succeeded, b := TryBlock(sink, coder, buf, end, true, ts, window.input, start, total);
      }
      ChosenCoded(b, k, a.total, sink.end, raw, inDict, forceRaw, few, ts);
    }
  }

  // ---------------------------------------------------------------- what the decision achieves

  lemma StoredSize(data: seq<u8>, pos: nat)
    requires |data| < 0x1_0000
    ensures BlockOk(Stored(data)) && |BlockBits(Stored(data), pos)| >= 34 + 8 * |data|
  {
    hide BytesToBits, ToBits;
    RawBits(pos, data);
  }

  /** The block takes no more bits than a stored one for the same bytes, if there are any. */
  ghost predicate PaysOff(b: Block, pos: nat, raw: seq<u8>)
  {
    raw != [] ==> BlockOk(b) && BlockOk(Stored(raw)) && |BlockBits(b, pos)| <= |BlockBits(Stored(raw), pos)|
  }

  /**
   In room enough: a forced stored block is stored, a static one never dynamic, few bytes never dynamic, and
   with the bytes at hand the block takes no more bits than storing them.
   */
  lemma ChosenWell(b: Block, k: Block, pos: nat, end: nat, raw: seq<u8>, inDict: bool, forceRaw: bool, staticBlock: bool, ts: seq<LT.Token>)
    requires Chosen(b, k, pos, end, raw, inDict, forceRaw, staticBlock, ts) && BlockOk(b)
    requires (pos + MAX_BLOCK_BITS) / 8 < end && (inDict ==> |raw| < 0x1_0000)
    ensures forceRaw && inDict ==> b.Stored?
    ensures staticBlock ==> !b.Dynamic?
    ensures b.Stored? ==> inDict && b.data == raw
    ensures inDict ==> PaysOff(b, pos, raw)
  {
    hide BlockBits, BlockOk;
    if inDict {
      StoredSize(raw, pos);
    }
  }
}
