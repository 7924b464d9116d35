/**
 The writing half of `tdefl_flush_block` (miniz.c): wrapper bytes, final bit, block, tail.
 */
module FlushWriter {
  import opened Bits
  import opened BitSinks
  import opened Windows
  import opened BlockSpec
  import opened RawBlocks
  import opened BlockChoice
  import opened InflateSpec
  import opened Streams
  import opened StaticCost
  import B = Blocks
  import T = TokenBuffers
  import LT = LzTokens

  /** `TDEFL_OUT_BUF_SIZE - 16` */
  const OUT_BUF_END := OUT_BUF_SIZE - 16

  /** The level hint `FLEVEL`, found by looking the probe count up in the table of the compression levels. */
  function LevelHint(probes: nat): (level: nat)
    ensures level < 4
  {
    if probes == 0 || probes == 1 then 0
    else if probes == 6 || probes == 32 || probes == 16 then 1
    else if probes == 128 then 2
    else 3
  }

  /** `s_tdefl_num_probes`: the probes of the compression levels 0 to 10 */
  const NUM_PROBES: seq<nat> := [0, 1, 6, 32, 16, 32, 128, 256, 512, 768, 1500]

  /** The hint is that of the first level with so many probes. */
  lemma LevelHintIs(probes: nat, i: nat)
    requires i <= 11 && (i < 11 ==> NUM_PROBES[i] == probes) && forall k :: 0 <= k < i ==> NUM_PROBES[k] != probes
    ensures LevelHint(probes) == if i < 2 then 0 else if i < 6 then 1 else if i == 6 then 2 else 3
  {
    if i > 4 {
      assert NUM_PROBES[0] != probes && NUM_PROBES[1] != probes && NUM_PROBES[2] != probes && NUM_PROBES[3] != probes && NUM_PROBES[4] != probes;
    }
    if i > 6 {
      assert NUM_PROBES[6] != probes;
    }
  }

  /** What a flush may rely on and must promise about the tables, the sink and the block. */
  ghost predicate Flushed(a: Snap, c: Snap, first: bool, zlib: bool, level: nat, flush: Flush, b: Block, adler: nat,
                          input: seq<u8>, start: nat, total: nat)
    requires level < 4
  {
    && BlockOk(b) && start + total <= |input| && Produces(b, input[..start], input[..start + total])
    && Grew(a, c, FlushBits(first, zlib, level, flush, b, a.total, adler))
  }

  lemma HeadSize(level: nat)
    requires level < 4
    ensures |ZlibBits(level)| == 16
  {
  }

  lemma WroteGrew(a: Snap, c: Snap, b: Block, input: seq<u8>, start: nat, total: nat)
    requires Wrote(a, c, b, input, start, total)
    ensures BlockOk(b) && start + total <= |input| && Produces(b, input[..start], input[..start + total])
    ensures Grew(a, c, BlockBits(b, a.total)) && c.total <= a.total + 8 * 85100
  {
  }

  method PutHead(sink: BitSink, first: bool, zlib: bool, probes: nat, ghost level: nat) returns (ghost head: seq<bool>)
    requires sink.Valid() && level == LevelHint(probes)
    modifies sink, sink.out
    ensures head == if first && zlib then ZlibBits(level) else []
    ensures sink.Valid() && Grew(old(sink.Snapshot()), sink.Snapshot(), head)
    ensures sink.Snapshot().total == old(sink.Snapshot().total) + if first && zlib then 16 else 0
  {
    hide Grew, ZlibBits;
    ghost var a := sink.Snapshot();
    if zlib && first {
      PutZlibHeader(sink, LevelHint(probes));
      head := ZlibBits(level);
      HeadSize(level);
      GrewTotal(a, sink.Snapshot(), head);
    } else {
      head := [];
      GrewNone(a);
    }
  }

  method PutFinal(sink: BitSink, final: bool)
    requires sink.Valid()
    modifies sink, sink.out
    ensures sink.Valid() && Grew(old(sink.Snapshot()), sink.Snapshot(), ToBits(BitValue(final), 1))
    ensures sink.Snapshot().total == old(sink.Snapshot().total) + 1
  {
    hide Grew, ToBits, Pow2;
    Pow2Values();
    ghost var a := sink.Snapshot();
    sink.PutBits(if final then 1 else 0, 1);
    GrewTotal(a, sink.Snapshot(), ToBits(BitValue(final), 1));
  }

  lemma EndSize(flush: Flush, zlib: bool, pos: nat, adler: nat)
    ensures |TailBits(flush, zlib, pos, adler)| <= 50
  {
    hide ToBits, BytesToBits, ToByteBoundary, BigEndian;
    RawBits(pos + 1, []);
    NoBytes();
  }

  lemma FitsUnderEnd(sink: BitSink)
    requires sink.Valid() && sink.end == OUT_BUF_END
    ensures sink.Snapshot().total < 8 * 85180 ==> sink.Snapshot().fits
    ensures sink.Snapshot().fits <==> sink.pos < sink.end
  {
  }

  lemma DictSize()
    ensures LT.DICT_SIZE < 0x1_0000
  {
  }

  lemma ChosenInRoom(b: Block, k: Block, pos: nat, raw: seq<u8>, inDict: bool, forceRaw: bool, staticBlock: bool, ts: seq<LT.Token>)
    requires Chosen(b, k, pos, OUT_BUF_END, raw, inDict, forceRaw, staticBlock, ts) && pos < 32 && BlockOk(b)
    requires inDict ==> |raw| < 0x1_0000
    ensures forceRaw && inDict ==> b.Stored?
    ensures staticBlock ==> !b.Dynamic?
    ensures b.Stored? ==> inDict && b.data == raw
    ensures inDict ==> PaysOff(b, pos, raw)
  {
    hide BlockBits, BlockOk, PaysOff, Expanded;
    assert OUT_BUF_END > 85104;
    ChosenWell(b, k, pos, OUT_BUF_END, raw, inDict, forceRaw, staticBlock, ts);
  }

  /** Block and tail. The output buffer is never full, so nothing is lost. */
  method WriteFlush(sink: BitSink, window: Window, coder: B.Coder, buf: array<u8>, end: nat,
                    probes: nat, zlib: bool, forceRaw: bool, forceStatic: bool, first: bool, flush: Flush, adler: nat,
                    start: nat, total: nat, ghost ts: seq<LT.Token>)
    returns (ghost b: Block, ghost k: Block)
    requires coder.Shape() && sink.Valid() && window.Valid() && buf != sink.out && sink.out != window.dict && coder.DistTail()
    requires sink.end == OUT_BUF_END && sink.Snapshot().total < 8
    requires end <= T.LZ_CODE_BUF_SIZE == buf.Length && Pending(ts, window.input, start, total)
    requires buf[..end] == LT.Encoded(ts) && coder.Fed(ts)
    requires start + total <= window.lookaheadPos && adler < 0x1_0000_0000
    modifies sink, sink.out, coder.lit.counts, coder.lit.sizes, coder.lit.codes, coder.dist.sizes, coder.dist.codes
    modifies coder.cl.counts, coder.cl.sizes, coder.cl.codes
    ensures coder.DistTail() && sink.Valid()
    ensures Flushed(old(sink.Snapshot()), sink.Snapshot(), first, zlib, LevelHint(probes), flush, b, adler, window.input, start, total)
    ensures sink.Snapshot().fits && |window.input| >= window.lookaheadPos
    ensures Chosen(b, k, old(sink.Snapshot()).total + (if first && zlib then 17 else 1), OUT_BUF_END, window.input[start..start + total],
                   window.lookaheadPos - start <= window.dictSize, forceRaw, forceStatic || total < 48, ts)
    ensures forceRaw && window.lookaheadPos - start <= window.dictSize ==> b.Stored?
    ensures forceStatic || total < 48 ==> !b.Dynamic?
    ensures b.Stored? ==> window.lookaheadPos - start <= window.dictSize && b.data == window.input[start..start + total]
    ensures window.lookaheadPos - start <= window.dictSize ==> PaysOff(b, old(sink.Snapshot()).total + (if first && zlib then 17 else 1), window.input[start..start + total])
  {
    hide *;
    ghost var a, codes, level := sink.Snapshot(), buf[..end], LevelHint(probes);
    ghost var head := PutHead(sink, first, zlib, probes, level);
    ghost var s1 := sink.Snapshot();
    PutFinal(sink, flush.Finish?);
    ghost var s2 := sink.Snapshot();
    assert buf[..end] == codes;
    b, k := ChooseBlock(sink, window, coder, buf, end, forceRaw, forceStatic, start, total, ts);
    ghost var s3 := sink.Snapshot();
    WroteGrew(s2, s3, b, window.input, start, total);
    WindowBounds(window);
    DictSize();
    ChosenInRoom(b, k, s2.total, window.input[start..start + total], window.lookaheadPos - start <= window.dictSize, forceRaw, forceStatic || total < 48, ts);
    SnapTotal(sink);
    PutTail(sink, flush, zlib, adler);
    FitsUnderEnd(sink);
    SumUp(a, s1, s2, s3, sink.Snapshot(), first, zlib, level, flush, b, adler, window.input, start, total);
  }

  lemma SumUp(a: Snap, s1: Snap, s2: Snap, s3: Snap, s4: Snap, first: bool, zlib: bool, level: nat, flush: Flush, b: Block, adler: nat,
              input: seq<u8>, start: nat, total: nat)
    requires level < 4 && a.total < 8
    requires Grew(a, s1, if first && zlib then ZlibBits(level) else []) && s1.total <= a.total + 16
    requires Grew(s1, s2, ToBits(BitValue(flush.Finish?), 1))
    requires BlockOk(b) && start + total <= |input| && Produces(b, input[..start], input[..start + total])
    requires Grew(s2, s3, BlockBits(b, s2.total)) && s3.total <= s2.total + 8 * 85100
    requires Grew(s3, s4, TailBits(flush, zlib, s3.total, adler))
    ensures Flushed(a, s4, first, zlib, level, flush, b, adler, input, start, total)
    ensures s4.total < 8 * 85180
  {
    hide Grew, ZlibBits, ToBits, BlockOk, Produces, BlockBits, TailBits;
    var head := if first && zlib then ZlibBits(level) else [];
    var f, k, t := ToBits(BitValue(flush.Finish?), 1), BlockBits(b, s2.total), TailBits(flush, zlib, s3.total, adler);
    GrewTotal(a, s1, head);
    GrewTotal(s1, s2, f);
    GrewTotal(s2, s3, k);
    GrewTotal(s3, s4, t);
    EndSize(flush, zlib, s3.total, adler);
    GrewTrans(s1, s2, s3, f, k);
    GrewTrans(s1, s3, s4, f + k, t);
    GrewTrans(a, s1, s4, head, f + k + t);
  }
}
