/**
 The compressor (miniz.c, `tdefl_compress_normal`, `tdefl_flush_block`, `tdefl_compress`), used with an
 output callback that always succeeds: every flushed buffer is appended to `delivered`.
 */
module Compressors {
  import opened Bits
  import opened LzTokens
  import opened Windows
  import opened TokenBuffers
  import opened BitSinks
  import opened BlockSpec
  import opened BlockChoice
  import opened Streams
  import opened FlushWriter
  import opened InflateSpec
  import A = Adler
  import B = Blocks
  import H = BlockHeader
  import HT = HuffTables
  import R = RawBlocks
  import StaticCost

  datatype Flags = Flags(probes: nat, zlib: bool, computeAdler: bool, greedy: bool, rle: bool, filter: bool, allStatic: bool, allRaw: bool, nondeterministic: bool)

  datatype Status = BadParam | Okay | AllDone

  // ---------------------------------------------------------------- what the parser keeps

  /**
   The tokens expand to exactly the bytes passed over since the last block, except that while a match
   is saved the byte before the lookahead is still owed: it will be a literal or start the saved match.
   */
  ghost predicate Parsed(ts: seq<Token>, input: seq<u8>, start: nat, total: nat, pos: nat, lookahead: nat,
                         savedLen: nat, savedDist: nat, savedLit: u8)
  {
    && Pending(ts, input, start, total) && pos + lookahead == |input|
    && start + total + (if savedLen > 0 then 1 else 0) == pos
    && (savedLen > 0 ==>
         && Match(savedLen, savedDist).Ok() && savedLen < 128 && savedLen - 1 <= lookahead
         && MatchAt(input, pos - 1, savedLen, savedDist) && savedLit == input[pos - 1])
  }

  lemma PassLiteral(ts: seq<Token>, input: seq<u8>, start: nat, total: nat, b: u8)
    requires Pending(ts, input, start, total) && start + total < |input| && b == input[start + total]
    ensures Pending(ts + [Lit(b)], input, start, total + 1)
  {
    hide Expands;
    ExpandsSnoc(input[..start], ts, input[..start + total], Lit(b));
    assert input[..start + total] + [b] == input[..start + total + 1];
  }

  lemma PassMatch(ts: seq<Token>, input: seq<u8>, start: nat, total: nat, len: nat, dist: nat)
    requires Pending(ts, input, start, total) && Match(len, dist).Ok() && MatchAt(input, start + total, len, dist)
    ensures Pending(ts + [Match(len, dist)], input, start, total + len)
  {
    hide Expands;
    CopyMatch(input, start + total, len, dist);
    ExpandsSnoc(input[..start], ts, input[..start + total], Match(len, dist));
  }

  /** More input changes nothing about the bytes passed over. */
  lemma ParsedMore(ts: seq<Token>, input: seq<u8>, start: nat, total: nat, pos: nat, lookahead: nat,
                   savedLen: nat, savedDist: nat, savedLit: u8, more: seq<u8>)
    requires Parsed(ts, input, start, total, pos, lookahead, savedLen, savedDist, savedLit)
    ensures Parsed(ts, input + more, start, total, pos, lookahead + |more|, savedLen, savedDist, savedLit)
  {
    hide Expands;
    var all := input + more;
    assert all[..start] == input[..start] && all[..start + total] == input[..start + total];
    if savedLen > 0 {
      forall i | pos - 1 <= i < pos - 1 + savedLen
        ensures all[i] == all[i - savedDist]
      {
        assert input[i] == input[i - savedDist];
      }
    }
  }

  /** What the match search hands to the decision. */
  ghost predicate Found(input: seq<u8>, pos: nat, lookahead: nat, savedLen: nat, dist: nat, len: nat)
  {
    && (dist == 0 ==> savedLen > 0 ==> len <= savedLen)
    && (dist > 0 ==> Match(len, dist).Ok() && len <= lookahead && MatchAt(input, pos, len, dist))
  }

  /** What a turn's search comes to, before matches not worth having are dropped. */
  datatype Search = Search(dist: nat, len: nat, probed: nat, best: nat, hits: set<nat>)

  /** Short matches from afar, the position itself, and under the filter all up to five bytes are dropped. */
  predicate Kept(s: Search, pos: nat, filter: bool, dist: nat, len: nat)
  {
    if (s.len == 3 && s.dist >= 8192) || s.dist == pos % 32768 || (filter && s.len <= 5) then dist == 0 && len == 0
    else dist == s.dist && len == s.len
  }

  /**
   The lazy and greedy parsing state machine. A saved match gives way to a longer one, its first byte a
   literal; otherwise it is recorded, one byte behind. A new match is saved unless parsing is eager or it has
   128 bytes. `out` is what is recorded, `n` how far the parser moves.
   */
  ghost predicate Decided(savedLen: nat, savedDist: nat, savedLit: u8, dist: nat, len: nat, cur: u8, eager: bool,
                          out: seq<Token>, n: nat, savedLen': nat, savedDist': nat, savedLit': u8)
  {
    if savedLen > 0 && len <= savedLen then
      out == [Match(savedLen, savedDist)] && n == savedLen - 1 && savedLen' == 0
    else if savedLen == 0 && dist == 0 then
      out == [Lit(cur)] && n == 1 && savedLen' == 0
    else
      var owed := if savedLen > 0 then [Lit(savedLit)] else [];
      if len >= 128 || (savedLen == 0 && eager) then out == owed + [Match(len, dist)] && n == len && savedLen' == 0
      else out == owed && n == 1 && savedLen' == len && savedDist' == dist && savedLit' == cur
  }

  lemma NothingYet(zlib: bool)
    ensures Drives(zlib, [], Between(true, zlib, 0, []))
    ensures BytesToBits([]) + (BytesToBits([]) + ToBits(0, 0)) == []
  {
    NothingDrives(zlib);
  }

  lemma MadeParser(c: Compressor)
    requires c.coder.Shape() && c.window.Valid() && c.tokens.Valid() && c.sink.end == OUT_BUF_END
    requires c.tokens.litCounts == c.coder.lit.counts && c.tokens.distCounts == c.coder.dist.counts
    requires c.window.dict != c.tokens.buf && c.window.dict != c.sink.out && c.tokens.buf != c.sink.out
    requires c.window.input == [] && c.window.lookaheadPos == 0 && c.tokens.Tokens() == []
    requires c.dictPos == 0 && c.savedLen == 0
    ensures c.Shape() && c.Parsing()
  {
  }

  lemma MadeWriter(c: Compressor)
    requires c.Shape() && c.sink.Valid() && c.sink.pos == 0 && c.sink.bitsIn == 0 && c.sink.total == 0 && c.coder.DistTail()
    requires c.window.input == [] && c.dictPos == 0 && c.blockIndex == 0 && c.delivered == []
    ensures c.Writing()
  {
    hide Drives, ToBits, BytesToBits;
    NothingYet(c.flags.zlib);
    assert c.sink.out[..0] == [] && c.sink.bitBuffer == 0;
  }

  lemma WindowFacts(w: Window)
    requires w.Valid()
    ensures |w.input| == w.lookaheadPos + w.lookaheadSize && w.dictSize + w.lookaheadSize <= DICT_SIZE
    ensures w.dictSize <= w.lookaheadPos && w.lookaheadSize <= MAX_MATCH_LEN
  {
  }

  lemma ShapeFacts(c: Compressor)
    requires c.Shape()
    ensures c.tokens.litCounts == c.coder.lit.counts && c.tokens.distCounts == c.coder.dist.counts
    ensures c.window.dict != c.tokens.buf && c.window.dict != c.sink.out && c.tokens.buf != c.sink.out
    ensures c.coder.dist.sizes != c.coder.lit.counts && c.coder.dist.sizes != c.coder.dist.counts
  {
  }

  lemma RunningFacts(c: Compressor)
    requires c.Shape() && c.Running()
    ensures c.Parsing() && c.Writing() && c.tokens.codePos <= LZ_CODE_BUF_SIZE - 8
  {
  }

  lemma ParsingFacts(c: Compressor)
    requires c.Shape() && c.Parsing()
    ensures c.window.Valid() && c.tokens.Valid() && c.window.lookaheadSize <= MAX_MATCH_LEN
    ensures c.tokens.buf != c.window.dict && LZ_CODE_BUF_SIZE == 65536 && MAX_MATCH_LEN == 258
    ensures Parsed(c.tokens.Tokens(), c.window.input, c.dictPos, c.tokens.totalBytes, c.window.lookaheadPos, c.window.lookaheadSize, c.savedLen, c.savedDist, c.savedLit)
  {
  }

  lemma SavedRange(c: Compressor)
    requires c.Shape() && c.Parsing()
    ensures c.savedLen == 0 || MIN_MATCH_LEN <= c.savedLen < 128
  {
  }

  lemma ReachedFacts(c: Compressor, flush: Flush)
    requires c.Reached(flush)
    ensures !flush.NoFlush? ==> c.dictPos == |c.window.input|
  {
  }

  lemma BeRunning(c: Compressor)
    requires c.Shape() && c.Parsing() && c.Writing() && c.tokens.codePos == 1 && c.dictPos == |c.window.input|
    ensures c.Running()
  {
  }

  lemma ValidFacts(c: Compressor)
    requires c.Valid()
    ensures c.Shape() && c.adler < 0x1_0000_0000 && (c.flags.zlib || c.flags.computeAdler ==> c.adler == A.Checksum(c.window.input))
    ensures c.prevStatus.Okay? ==> c.Running()
  {
  }

  lemma FedMore(in0: seq<u8>, src: seq<u8>, k: nat, i: nat)
    requires k <= i <= |src|
    ensures in0 + src[..k] + src[k..i] == in0 + src[..i]
  {
    assert src[..i] == src[..k] + src[k..i];
  }

  lemma AcceptsIs(c: Compressor, flush: Flush)
    ensures c.Accepts(flush) <==> c.prevStatus.Okay? && (c.wantsToFinish ==> flush.Finish?)
  {
  }

  lemma BeValid(c: Compressor)
    requires c.Shape() && c.adler < 0x1_0000_0000 && (c.flags.zlib || c.flags.computeAdler ==> c.adler == A.Checksum(c.window.input))
    requires c.prevStatus.Okay? ==> c.Running()
    requires c.prevStatus.AllDone? ==> c.Reached(Finish)
    ensures c.Valid()
  {
  }

  lemma BeParsing(c: Compressor)
    requires c.window.Valid() && c.tokens.Valid()
    requires Parsed(c.tokens.Tokens(), c.window.input, c.dictPos, c.tokens.totalBytes, c.window.lookaheadPos, c.window.lookaheadSize, c.savedLen, c.savedDist, c.savedLit)
    ensures c.Parsing()
  {
  }

  lemma WritingFacts(c: Compressor)
    requires c.Shape() && c.Writing()
    ensures c.sink.Valid() && c.sink.pos == 0 && c.sink.total == c.sink.bitsIn < 8 && c.coder.DistTail()
    ensures c.coder.Shape() && c.tokens.Shape() && c.sink.end == OUT_BUF_END && c.tokens.buf.Length == LZ_CODE_BUF_SIZE
    ensures c.tokens.buf != c.sink.out && c.sink.out != c.window.dict
    ensures c.tokens.litCounts == c.coder.lit.counts && c.tokens.distCounts == c.coder.dist.counts
    ensures c.dictPos <= |c.window.input|
    ensures c.sink.Snapshot().total < 8 && c.sink.Snapshot().bytes == [] && |c.Sent()| == 8 * |c.delivered| + c.sink.bitsIn
    ensures c.Sent() == BytesToBits(c.delivered) + c.sink.Snapshot().stream && c.sink.Snapshot().total == c.sink.bitsIn
    ensures c.blockIndex == 0 ==> c.Sent() == [] && c.dictPos == 0 && c.delivered == []
    ensures Drives(c.flags.zlib, c.Sent(), Between(c.blockIndex == 0, c.flags.zlib, |c.Sent()|, c.window.input[..c.dictPos]))
  {
    hide ToBits, BytesToBits, Drives;
    if c.blockIndex == 0 {
      NothingYet(c.flags.zlib);
    }
  }

  lemma ParsedFacts(ts: seq<Token>, input: seq<u8>, start: nat, total: nat, pos: nat, lookahead: nat,
                    savedLen: nat, savedDist: nat, savedLit: u8)
    requires Parsed(ts, input, start, total, pos, lookahead, savedLen, savedDist, savedLit)
    ensures Pending(ts, input, start, total) && AllOk(ts) && start + total <= pos <= |input|
    ensures lookahead == 0 ==> savedLen == 0 && start + total == |input|
  {
  }

  /** After the block the token buffer is empty and the next block starts where this one ended. */
  lemma StillParsed(ts: seq<Token>, input: seq<u8>, start: nat, total: nat, pos: nat, lookahead: nat,
                    savedLen: nat, savedDist: nat, savedLit: u8)
    requires Parsed(ts, input, start, total, pos, lookahead, savedLen, savedDist, savedLit)
    ensures Parsed([], input, start + total, 0, pos, lookahead, savedLen, savedDist, savedLit)
  {
    hide MatchAt;
  }

  lemma Counts(c: Compressor)
    requires c.Shape() && c.Parsing()
    ensures c.tokens.Shape() && c.tokens.Counted(c.tokens.Tokens())
  {
  }

  lemma BeFed(c: Compressor, ts: seq<Token>)
    requires c.Shape() && c.tokens.Counted(ts) && |ts| < 65535
    ensures c.coder.Fed(ts)
  {
    hide LitCount, DistCount;
    assert c.coder.lit.counts[..] == H.LitCounts(ts, 288);
    assert c.coder.dist.counts[..] == H.DistCounts(ts, 288);
  }

  /** What a flush that kept everything adds to the stream, and where it takes a decoder. */
  lemma SentGrew(a: Snap, c: Snap, sent: seq<bool>, d: seq<u8>, first: bool, zlib: bool, level: nat, flush: Flush, b: Block, adler: nat,
                 input: seq<u8>, start: nat, total: nat)
    requires level < 4 && Flushed(a, c, first, zlib, level, flush, b, adler, input, start, total) && c.fits
    requires adler < 0x1_0000_0000 && sent == BytesToBits(d) + a.stream && |sent| == 8 * |d| + a.total
    requires first ==> sent == [] && start == 0
    requires start <= |input| && Drives(zlib, sent, Between(first, zlib, |sent|, input[..start]))
    ensures start + total <= |input|
    ensures var new_ := BytesToBits(d) + c.stream;
      Drives(zlib, new_, AfterFlush(flush, zlib, |new_|, input[..start + total], adler))
  {
    hide Drives, BlockOk, Produces, FlushBits, BytesToBits;
    var more := FlushBits(first, zlib, level, flush, b, a.total, adler);
    FlushDrives(sent, first, zlib, level, flush, b, a.total, adler, input[..start], input[..start + total]);
    assert BytesToBits(d) + (a.stream + more) == sent + more;
  }

  /** Every flush but the plainest ends on a byte boundary. */
  lemma FlushEnds(a: Snap, c: Snap, first: bool, zlib: bool, level: nat, flush: Flush, b: Block, adler: nat,
                  input: seq<u8>, start: nat, total: nat, bitsIn: nat)
    requires level < 4 && Flushed(a, c, first, zlib, level, flush, b, adler, input, start, total)
    requires bitsIn < 8 && c.total % 8 == bitsIn
    ensures !flush.NoFlush? ==> bitsIn == 0
  {
    hide ToBits, BlockBits, TailBits, BlockOk, Produces, ZlibBits;
    if !flush.NoFlush? {
      var head := if first && zlib then ZlibBits(level) else [];
      var body := ToBits(BitValue(flush.Finish?), 1) + BlockBits(b, a.total + |head| + 1);
      TailAligned(flush, zlib, a.total + |head| + |body|, adler);
    }
  }

  lemma TailAligned(flush: Flush, zlib: bool, pos: nat, adler: nat)
    requires !flush.NoFlush?
    ensures (pos + |TailBits(flush, zlib, pos, adler)|) % 8 == 0
  {
    hide *;
    TailSize(flush, zlib, pos, adler);
    EndAligned(pos);
    EndAligned(pos + 3);
  }

  lemma EndAligned(pos: nat)
    ensures (pos + ToByteBoundary(pos)) % 8 == 0
  {
  }

  lemma TailSize(flush: Flush, zlib: bool, pos: nat, adler: nat)
    requires !flush.NoFlush?
    ensures var n := |TailBits(flush, zlib, pos, adler)|;
      n == if flush.Finish? then ToByteBoundary(pos) + (if zlib then 32 else 0) else 3 + ToByteBoundary(pos + 3) + 32
  {
    hide ToBits, BytesToBits, ToByteBoundary;
    if !flush.Finish? {
      R.RawBits(pos + 1, []);
      NoBytes();
    }
  }

  lemma SinkBits(sink: BitSink)
    requires sink.Valid()
    ensures sink.Snapshot().total % 8 == sink.bitsIn < 8
  {
  }

  lemma SentWhole(c: Compressor)
    requires c.sink.Valid() && c.sink.pos == 0 && c.sink.bitsIn == 0
    ensures c.Sent() == BytesToBits(c.delivered)
  {
    hide BytesToBits;
    NoBytes();
    assert c.sink.out[..0] == [] && ToBits(c.sink.bitBuffer, 0) == [];
    assert BytesToBits(c.delivered) + [] == BytesToBits(c.delivered);
  }

  lemma BeWriting(c: Compressor, flush: Flush)
    requires c.Shape() && c.sink.Valid() && c.sink.pos == 0 && c.sink.total == c.sink.bitsIn && c.coder.DistTail()
    requires c.blockIndex > 0 && !flush.Finish? && c.Reached(flush)
    ensures c.Writing()
  {
    hide Drives;
  }

  lemma Landed(k: Compressor, a: Snap, c: Snap, sent: seq<bool>, d: seq<u8>, first: bool, flush: Flush, b: Block, start: nat, total: nat)
    requires Flushed(a, c, first, k.flags.zlib, LevelHint(k.flags.probes), flush, b, k.adler, k.window.input, start, total)
    requires k.sink.Valid() && k.sink.pos == 0 && k.sink.total == k.sink.bitsIn == c.total % 8 && k.adler < 0x1_0000_0000
    requires k.dictPos == start + total && (!flush.NoFlush? ==> start + total == |k.window.input|)
    requires sent == BytesToBits(d) + a.stream && |sent| == 8 * |d| + a.total && (first ==> sent == [] && start == 0)
    requires start + total <= |k.window.input|
    requires c.fits && k.Sent() == BytesToBits(d) + c.stream
    requires Drives(k.flags.zlib, sent, Between(first, k.flags.zlib, |sent|, k.window.input[..start]))
    ensures k.Reached(flush)
  {
    hide *;
    FlushEnds(a, c, first, k.flags.zlib, LevelHint(k.flags.probes), flush, b, k.adler, k.window.input, start, total, k.sink.total);
    SentGrew(a, c, sent, d, first, k.flags.zlib, LevelHint(k.flags.probes), flush, b, k.adler, k.window.input, start, total);
    if k.sink.bitsIn == 0 {
      SentWhole(k);
    }
    BeReached(k, flush);
  }

  lemma BeReached(c: Compressor, flush: Flush)
    requires c.sink.Valid() && c.dictPos <= |c.window.input|
    requires !flush.NoFlush? ==> c.dictPos == |c.window.input| && c.Sent() == BytesToBits(c.delivered)
    requires Drives(c.flags.zlib, c.Sent(), AfterFlush(flush, c.flags.zlib, |c.Sent()|, c.window.input[..c.dictPos], c.adler))
    ensures c.Reached(flush)
  {
  }

  /** The owed byte becomes a literal. */
  lemma OwedLiteral(ts: seq<Token>, input: seq<u8>, start: nat, total: nat, pos: nat, lookahead: nat,
                    savedLen: nat, savedDist: nat, savedLit: u8)
    requires Parsed(ts, input, start, total, pos, lookahead, savedLen, savedDist, savedLit) && savedLen > 0
    ensures Parsed(ts + [Lit(savedLit)], input, start, total + 1, pos, lookahead, 0, 0, 0)
  {
    hide Expands, MatchAt;
    PassLiteral(ts, input, start, total, savedLit);
  }

  lemma FoundLonger(input: seq<u8>, pos: nat, lookahead: nat, savedLen: nat, dist: nat, len: nat)
    requires Found(input, pos, lookahead, savedLen, dist, len) && (savedLen > 0 ==> len > savedLen) && (savedLen == 0 ==> dist > 0)
    ensures dist > 0 && Match(len, dist).Ok() && 3 <= len <= lookahead && MatchAt(input, pos, len, dist)
  {
  }

  /** The current match is recorded and passed over. */
  lemma EndMatch(ts: seq<Token>, input: seq<u8>, start: nat, total: nat, pos: nat, lookahead: nat, dist: nat, len: nat, d: nat, l: u8)
    requires Parsed(ts, input, start, total, pos, lookahead, 0, 0, 0)
    requires Match(len, dist).Ok() && len <= lookahead && MatchAt(input, pos, len, dist)
    ensures Parsed(ts + [Match(len, dist)], input, start, total + len, pos + len, lookahead - len, 0, d, l)
  {
    hide Expands, MatchAt;
    PassMatch(ts, input, start, total, len, dist);
  }

  /** The current match is saved; its first byte is owed. */
  lemma SaveMatch(ts: seq<Token>, input: seq<u8>, start: nat, total: nat, pos: nat, lookahead: nat, dist: nat, len: nat)
    requires Parsed(ts, input, start, total, pos, lookahead, 0, 0, 0)
    requires Match(len, dist).Ok() && len <= lookahead && MatchAt(input, pos, len, dist) && len < 128
    ensures Parsed(ts, input, start, total, pos + 1, lookahead - 1, len, dist, input[pos])
  {
  }

  /** The saved match is recorded: one byte of it is already behind the lookahead. */
  lemma EndSaved(ts: seq<Token>, input: seq<u8>, start: nat, total: nat, pos: nat, lookahead: nat,
                 savedLen: nat, savedDist: nat, savedLit: u8, d: nat, l: u8)
    requires Parsed(ts, input, start, total, pos, lookahead, savedLen, savedDist, savedLit) && savedLen > 0
    ensures Match(savedLen, savedDist).Ok() && 3 <= savedLen <= lookahead + 1
    ensures Parsed(ts + [Match(savedLen, savedDist)], input, start, total + savedLen, pos + savedLen - 1, lookahead - (savedLen - 1), 0, d, l)
  {
    hide Expands, MatchAt;
    PassMatch(ts, input, start, total, savedLen, savedDist);
  }

  /** The current byte becomes a literal. */
  lemma EndLiteral(ts: seq<Token>, input: seq<u8>, start: nat, total: nat, pos: nat, lookahead: nat, d: nat, l: u8)
    requires Parsed(ts, input, start, total, pos, lookahead, 0, 0, 0) && lookahead > 0
    ensures Parsed(ts + [Lit(input[pos])], input, start, total + 1, pos + 1, lookahead - 1, 0, d, l)
  {
    hide Expands;
    PassLiteral(ts, input, start, total, input[pos]);
  }

  lemma NoneSaved(ts: seq<Token>, input: seq<u8>, start: nat, total: nat, pos: nat, lookahead: nat, d: nat, l: u8)
    requires Parsed(ts, input, start, total, pos, lookahead, 0, d, l)
    ensures Parsed(ts, input, start, total, pos, lookahead, 0, 0, 0)
  {
  }

  lemma DecidedIs(savedLen: nat, savedDist: nat, savedLit: u8, dist: nat, len: nat, cur: u8, eager: bool,
                  out: seq<Token>, n: nat, savedLen': nat, savedDist': nat, savedLit': u8)
    requires savedLen > 0 && len <= savedLen ==> out == [Match(savedLen, savedDist)] && n == savedLen - 1 && savedLen' == 0
    requires savedLen == 0 && dist == 0 ==> out == [Lit(cur)] && n == 1 && savedLen' == 0
    requires var owed := if savedLen > 0 then [Lit(savedLit)] else [];
      (savedLen > 0 && len > savedLen) || (savedLen == 0 && dist > 0) ==>
        if len >= 128 || (savedLen == 0 && eager) then out == owed + [Match(len, dist)] && n == len && savedLen' == 0
        else out == owed && n == 1 && savedLen' == len && savedDist' == dist && savedLit' == cur
    ensures Decided(savedLen, savedDist, savedLit, dist, len, cur, eager, out, n, savedLen', savedDist', savedLit')
  {
  }

  lemma KeptIs(c: Compressor, s: Search)
    ensures forall dist, len :: Kept(s, c.window.lookaheadPos, c.flags.filter, dist, len) <==>
      if (s.len == 3 && s.dist >= 8192) || s.dist == c.window.lookaheadPos % 32768 || (c.flags.filter && s.len <= 5) then dist == 0 && len == 0
      else dist == s.dist && len == s.len
  {
  }

  lemma WindowShape(c: Compressor)
    requires c.Shape()
    ensures c.window.Shape()
  {
  }

  method NewTokens() returns (coder: B.Coder, tokens: TokenBuffer)
    ensures coder.Shape() && coder.DistTail() && tokens.Valid() && tokens.Tokens() == [] && tokens.codePos == 1
    ensures tokens.litCounts == coder.lit.counts && tokens.distCounts == coder.dist.counts
    ensures fresh(tokens) && fresh(tokens.buf)
    ensures fresh({coder.lit.counts, coder.lit.sizes, coder.lit.codes})
    ensures fresh({coder.dist.counts, coder.dist.sizes, coder.dist.codes})
    ensures fresh({coder.cl.counts, coder.cl.sizes, coder.cl.codes})
  {
    hide *;
    coder := new B.Coder();
    ZeroCounts(coder);
    tokens := new TokenBuffer(coder.lit.counts, coder.dist.counts);
  }

  method NewSink() returns (sink: BitSink)
    ensures fresh(sink) && fresh(sink.out) && sink.Valid() && sink.end == OUT_BUF_END
    ensures sink.pos == 0 && sink.bitsIn == 0 && sink.total == 0
  {
    sink := new BitSink(StaticCost.OUT_BUF_SIZE, OUT_BUF_END);
  }

  lemma ZeroCounts(c: B.Coder)
    requires c.Shape()
    ensures c.lit.counts.Length == c.dist.counts.Length == HT.MAX_HUFF_SYMBOLS == 288 && c.lit.counts != c.dist.counts
    ensures c.lit.Arrays() == {c.lit.counts, c.lit.sizes, c.lit.codes} && c.dist.Arrays() == {c.dist.counts, c.dist.sizes, c.dist.codes}
    ensures c.cl.Arrays() == {c.cl.counts, c.cl.sizes, c.cl.codes}
  {
  }

  /** `tdefl_init` */
  method Init(flags: Flags) returns (c: Compressor)
    ensures fresh(c) && fresh(c.window) && fresh(c.window.dict) && fresh(c.window.next) && fresh(c.window.hash)
    ensures fresh(c.tokens) && fresh(c.tokens.buf) && fresh(c.sink) && fresh(c.sink.out)
    ensures fresh({c.coder.lit.counts, c.coder.lit.sizes, c.coder.lit.codes})
    ensures fresh({c.coder.dist.counts, c.coder.dist.sizes, c.coder.dist.codes})
    ensures fresh({c.coder.cl.counts, c.coder.cl.sizes, c.coder.cl.codes})
    ensures c.Shape() && c.Parsing() && c.Writing() && c.flags == flags
    ensures c.window.input == [] && c.delivered == [] && !c.finished && !c.wantsToFinish && c.prevStatus.Okay?
    ensures c.savedLen == 0 && c.adler == 1 && c.tokens.codePos == 1 && c.window.lookaheadPos == 0
  {
    hide *;
    var window := new Window(!flags.nondeterministic);
    var coder, tokens := NewTokens();
    var sink := NewSink();
    c := new Compressor(flags, window, tokens, coder, sink);
  }

  class Compressor {
    const flags: Flags
    const window: Window
    const tokens: TokenBuffer
    const coder: B.Coder
    const sink: BitSink
    var dictPos: nat
    var savedDist: nat
    var savedLen: nat
    var savedLit: u8
    var blockIndex: nat
    var adler: nat
    var finished: bool
    var wantsToFinish: bool
    var prevStatus: Status
    var delivered: seq<u8>

    ghost predicate Shape()
    {
      && coder.Shape() && window.Shape() && tokens.Shape() && sink.end == OUT_BUF_END
      && tokens.litCounts == coder.lit.counts && tokens.distCounts == coder.dist.counts
      && window.dict != tokens.buf && window.dict != sink.out && tokens.buf != sink.out
    }

    /** The parser's half of the invariant. */
    ghost predicate Parsing()
      reads this`dictPos, this`savedLen, this`savedDist, this`savedLit, window, window.dict, window.next, window.hash, tokens, tokens.buf, tokens.litCounts, tokens.distCounts
    {
      && window.Valid() && tokens.Valid()
      && Parsed(tokens.Tokens(), window.input, dictPos, tokens.totalBytes, window.lookaheadPos, window.lookaheadSize, savedLen, savedDist, savedLit)
    }

    /** The writer's half: every suitable decoder has read all complete blocks. */
    ghost predicate Writing()
      requires Shape()
      reads this`dictPos, this`blockIndex, this`delivered, window`input, sink, sink.out, coder.dist.sizes
    {
      && sink.Valid() && sink.pos == 0 && sink.total == sink.bitsIn && coder.DistTail()
      && dictPos <= |window.input|
      && (blockIndex == 0 ==> delivered == [] && sink.bitsIn == 0 && dictPos == 0)
      && Drives(flags.zlib, Sent(), Between(blockIndex == 0, flags.zlib, |Sent()|, window.input[..dictPos]))
    }

    /** The stream so far: bytes delivered and bits still in the bit buffer. */
    ghost function Sent(): seq<bool>
      requires sink.Valid()
      reads this`delivered, sink, sink.out
    {
      BytesToBits(delivered) + sink.Stream()
    }

    /** `tdefl_init`, its parts already made. */
    constructor (flags: Flags, window: Window, tokens: TokenBuffer, coder: B.Coder, sink: BitSink)
      requires coder.Shape() && window.Valid() && tokens.Valid() && sink.Valid() && sink.end == OUT_BUF_END && coder.DistTail()
      requires tokens.litCounts == coder.lit.counts && tokens.distCounts == coder.dist.counts
      requires window.dict != tokens.buf && window.dict != sink.out && tokens.buf != sink.out
      requires window.input == [] && window.lookaheadPos == 0 && tokens.Tokens() == []
      requires sink.pos == 0 && sink.bitsIn == 0 && sink.total == 0
      ensures Shape() && Parsing() && Writing()
      ensures this.flags == flags && this.window == window && this.tokens == tokens && this.coder == coder && this.sink == sink
      ensures delivered == [] && !finished && !wantsToFinish && prevStatus.Okay? && savedLen == 0 && adler == 1
    {
      hide *;
      this.flags, this.window, this.tokens, this.coder, this.sink := flags, window, tokens, coder, sink;
      dictPos, savedDist, savedLen, savedLit, blockIndex, adler := 0, 0, 0, 0, 0, 1;
      finished, wantsToFinish, prevStatus, delivered := false, false, Okay, [];
      new;
      MadeParser(this);
      MadeWriter(this);
    }

    // -------------------------------------------------------------- parsing

    /** The length of a match at hand before the search. */
    ghost function AtHand(): nat
      reads this`savedLen
    {
      if savedLen > 0 then savedLen else 2
    }

    /** The probes allowed: fewer if a match of 32 bytes is at hand. */
    ghost function Budget(): nat
      reads this`savedLen
    {
      if AtHand() >= 32 then 1 + (flags.probes / 4 + 2) / 3 else 1 + (flags.probes + 2) / 3
    }

    /** The search of a turn: none for stored blocks, a run for run-length parsing, else along the hash chain. */
    ghost predicate Searched(s: Search)
      requires window.Shape()
      reads this`savedLen, window, window.next
    {
      if flags.allRaw || (flags.rle && window.dictSize == 0) then s.dist == 0 && s.len == AtHand()
      else if flags.rle then exists n :: window.Run(n) && (if n < 3 then s.dist == 0 && s.len == 0 else s.dist == 1 && s.len == n)
      else
        && window.Found(0, AtHand(), s.dist, s.len, s.probed, s.best, s.hits)
        && window.Exhausted(Budget(), AtHand(), s.len, s.probed, s.hits)
    }

    /** The match at the start of the lookahead, if one is worth having. */
    method FindCurrent() returns (dist: nat, len: nat, ghost s: Search)
      requires Shape() && window.Valid() && window.Shape() && (savedLen == 0 || MIN_MATCH_LEN <= savedLen < 128)
      ensures Found(window.input, window.lookaheadPos, window.lookaheadSize, savedLen, dist, len)
      ensures Searched(s) && Kept(s, window.lookaheadPos, flags.filter, dist, len)
    {
      hide *;
      Limits();
      var len0 := if savedLen > 0 then savedLen else MIN_MATCH_LEN - 1;
      var curPos := window.lookaheadPos % DICT_SIZE;
      if flags.rle || flags.allRaw {
        dist, len := FindRun(len0);
        s := Search(dist, len, 0, 0, {});
      } else {
        dist, len, s := FindLongest(len0);
      }
      SearchWell(s);
      KeptIs(this, s);
      if (len == MIN_MATCH_LEN && dist >= 8192) || curPos == dist || (flags.filter && len <= 5) {
        dist, len := 0, 0;
      }
    }

    /** The run-length branch; with stored blocks only, no search at all. */
    method FindRun(len0: nat) returns (dist: nat, len: nat)
      requires Shape() && window.Valid() && window.Shape() && len0 == AtHand() && (flags.rle || flags.allRaw)
      ensures Searched(Search(dist, len, 0, 0, {}))
    {
      hide MatchAt, Window.Valid, Window.Run;
      dist, len := 0, len0;
      if window.dictSize != 0 && !flags.allRaw {
        len := window.RunLength();
        assert window.Run(len);
        if len < MIN_MATCH_LEN {
          len := 0;
        } else {
          dist := 1;
        }
      }
    }

    /** The branch with the match finder. */
    method FindLongest(len0: nat) returns (dist: nat, len: nat, ghost s: Search)
      requires Shape() && window.Valid() && window.Shape() && len0 == AtHand() < 128 && !flags.rle && !flags.allRaw
      ensures Searched(s) && s.dist == dist && s.len == len
    {
      hide Window.Valid, Window.Found, Window.Ends;
      AtHandIs();
      var probes := if len0 >= 32 then 1 + (flags.probes / 4 + 2) / 3 else 1 + (flags.probes + 2) / 3;
      ghost var probed, best, hits;
      dist, len, probed, best, hits := window.FindMatch(probes, 0, len0);
      window.BeExhausted(Budget(), len0, len, probed, hits);
      s := Search(dist, len, probed, best, hits);
    }

    lemma Limits()
      requires savedLen == 0 || MIN_MATCH_LEN <= savedLen < 128
      ensures DICT_SIZE == 32768 && MIN_MATCH_LEN == 3 && 2 <= AtHand() < 128
      ensures AtHand() == if savedLen > 0 then savedLen else MIN_MATCH_LEN - 1
    {
    }

    lemma AtHandIs()
      requires AtHand() < 128
      ensures AtHand() >= 1 && AtHand() <= MIRROR && MIRROR == 257
      ensures Budget() == if AtHand() >= 32 then 1 + (flags.probes / 4 + 2) / 3 else 1 + (flags.probes + 2) / 3
    {
    }

    /** Whatever is found is a true match, longer than what was at hand. */
    lemma SearchWell(s: Search)
      requires Shape() && window.Valid() && window.Shape() && Searched(s) && 2 <= AtHand()
      requires savedLen > 0 ==> AtHand() == savedLen
      ensures Found(window.input, window.lookaheadPos, window.lookaheadSize, savedLen, s.dist, s.len)
      ensures Found(window.input, window.lookaheadPos, window.lookaheadSize, savedLen, 0, 0)
    {
    }

    /** No match is saved: a literal, a match at once, or a match put off by one byte. */
    method RecordFresh(dist: nat, len: nat) returns (n: nat, ghost out: seq<Token>)
      requires Shape() && Parsing() && window.lookaheadSize > 0 && tokens.codePos <= LZ_CODE_BUF_SIZE - 8 && savedLen == 0
      requires Found(window.input, window.lookaheadPos, window.lookaheadSize, savedLen, dist, len)
      modifies this`savedDist, this`savedLen, this`savedLit, tokens, tokens.buf, tokens.litCounts, tokens.distCounts
      ensures window.Valid() && tokens.Valid() && 1 <= n <= window.lookaheadSize
      ensures Parsed(tokens.Tokens(), window.input, dictPos, tokens.totalBytes, window.lookaheadPos + n, window.lookaheadSize - n, savedLen, savedDist, savedLit)
      ensures tokens.Tokens() == old(tokens.Tokens()) + out && window.lookaheadPos < |window.input|
      ensures Decided(0, old(savedDist), old(savedLit), dist, len, window.input[window.lookaheadPos], flags.greedy || flags.rle, out, n, savedLen, savedDist, savedLit)
    {
      hide *;
      ghost var ts, input, total, pos, look := tokens.Tokens(), window.input, tokens.totalBytes, window.lookaheadPos, window.lookaheadSize;
      ParsingFacts(this);
      NoneSaved(ts, input, dictPos, total, pos, look, savedDist, savedLit);
      n := 1;
      out := [];
      var c := window.Current();
      if dist == 0 {
        EndLiteral(ts, input, dictPos, total, pos, look, savedDist, savedLit);
        tokens.RecordLiteral(c);
        out := [Lit(c)];
      } else {
        FoundLonger(input, pos, look, 0, dist, len);
        if flags.greedy || flags.rle || len >= 128 {
          EndMatch(ts, input, dictPos, total, pos, look, dist, len, savedDist, savedLit);
          tokens.RecordMatch(len, dist);
          n := len;
          out := [] + [Match(len, dist)];
        } else {
          SaveMatch(ts, input, dictPos, total, pos, look, dist, len);
          savedLit, savedDist, savedLen := c, dist, len;
          assert ts + [] == ts;
        }
      }
      DecidedIs(0, old(savedDist), old(savedLit), dist, len, c, flags.greedy || flags.rle, out, n, savedLen, savedDist, savedLit);
    }

    /** The lazy and greedy parsing state machine: what to record, what to save, how far to move. */
    method Record(dist: nat, len: nat) returns (n: nat, ghost out: seq<Token>)
      requires Shape() && Parsing() && window.lookaheadSize > 0 && tokens.codePos <= LZ_CODE_BUF_SIZE - 8
      requires Found(window.input, window.lookaheadPos, window.lookaheadSize, savedLen, dist, len)
      modifies this`savedDist, this`savedLen, this`savedLit, tokens, tokens.buf, tokens.litCounts, tokens.distCounts
      ensures window.Valid() && tokens.Valid() && 1 <= n <= window.lookaheadSize
      ensures Parsed(tokens.Tokens(), window.input, dictPos, tokens.totalBytes, window.lookaheadPos + n, window.lookaheadSize - n, savedLen, savedDist, savedLit)
      ensures tokens.Tokens() == old(tokens.Tokens()) + out && window.lookaheadPos < |window.input|
      ensures Decided(old(savedLen), old(savedDist), old(savedLit), dist, len, window.input[window.lookaheadPos], flags.greedy || flags.rle, out, n, savedLen, savedDist, savedLit)
    {
      hide *;
      ghost var ts, input, total, pos, look := tokens.Tokens(), window.input, tokens.totalBytes, window.lookaheadPos, window.lookaheadSize;
      ParsingFacts(this);
      n := 1;
      if savedLen > 0 {
        var c := window.Current();
        if len > savedLen {
          OwedLiteral(ts, input, dictPos, total, pos, look, savedLen, savedDist, savedLit);
          FoundLonger(input, pos, look, savedLen, dist, len);
          tokens.RecordLiteral(savedLit);
          out := [Lit(savedLit)];
          if len >= 128 {
            EndMatch(tokens.Tokens(), input, dictPos, tokens.totalBytes, pos, look, dist, len, savedDist, savedLit);
            tokens.RecordMatch(len, dist);
            savedLen := 0;
            n := len;
            assert ts + [Lit(old(savedLit))] + [Match(len, dist)] == ts + ([Lit(old(savedLit))] + [Match(len, dist)]);
            out := out + [Match(len, dist)];
          } else {
            SaveMatch(tokens.Tokens(), input, dictPos, tokens.totalBytes, pos, look, dist, len);
            savedLit, savedDist, savedLen := c, dist, len;
          }
        } else {
          EndSaved(ts, input, dictPos, total, pos, look, savedLen, savedDist, savedLit, savedDist, savedLit);
          tokens.RecordMatch(savedLen, savedDist);
          out := [Match(savedLen, savedDist)];
          n := savedLen - 1;
          savedLen := 0;
        }
        DecidedIs(old(savedLen), old(savedDist), old(savedLit), dist, len, c, flags.greedy || flags.rle, out, n, savedLen, savedDist, savedLit);
      } else {
        n, out := RecordFresh(dist, len);
      }
    }

    /** One turn of the parsing loop after the lookahead has been filled. */
    method Advance() returns (ghost s: Search, ghost dist: nat, ghost len: nat, ghost out: seq<Token>)
      requires Shape() && Parsing() && window.lookaheadSize > 0 && tokens.codePos <= LZ_CODE_BUF_SIZE - 8
      modifies this`savedDist, this`savedLen, this`savedLit, tokens, tokens.buf, tokens.litCounts, tokens.distCounts
      modifies window`lookaheadPos, window`lookaheadSize, window`dictSize
      ensures Parsing() && window.lookaheadSize < old(window.lookaheadSize)
      ensures window.lookaheadPos + window.lookaheadSize == old(window.lookaheadPos + window.lookaheadSize)
      ensures window.Shape() && old(Searched(s)) && Kept(s, old(window.lookaheadPos), flags.filter, dist, len)
      ensures tokens.Tokens() == old(tokens.Tokens()) + out && old(window.lookaheadPos) < |window.input|
      ensures Decided(old(savedLen), old(savedDist), old(savedLit), dist, len, window.input[old(window.lookaheadPos)], flags.greedy || flags.rle,
                      out, window.lookaheadPos - old(window.lookaheadPos), savedLen, savedDist, savedLit)
    {
      hide *;
      ParsingFacts(this);
      SavedRange(this);
      WindowShape(this);
      var d, l;
      d, l, s := FindCurrent();
      dist, len := d, l;
      var n;
      n, out := Record(d, l);
      WindowFacts(window);
      window.Move(n);
      BeParsing(this);
    }

    // -------------------------------------------------------------- writing

    /** The whole block is written to the output buffer, and the token buffer emptied. */
    method WriteBlock(flush: Flush, ghost ts: seq<Token>) returns (ghost b: Block)
      requires Shape() && Parsing() && Writing() && adler < 0x1_0000_0000 && ts == tokens.Tokens()
      modifies this`dictPos, this`blockIndex, tokens, tokens.buf, sink, sink.out
      modifies coder.lit.counts, coder.lit.sizes, coder.lit.codes, coder.dist.counts, coder.dist.sizes, coder.dist.codes
      modifies coder.cl.counts, coder.cl.sizes, coder.cl.codes
      ensures tokens.Valid() && tokens.Tokens() == [] && tokens.codePos == 1 && tokens.totalBytes == 0
      ensures dictPos == old(dictPos + tokens.totalBytes) && blockIndex == old(blockIndex) + 1
      ensures coder.DistTail() && sink.Valid()
      ensures Flushed(old(sink.Snapshot()), sink.Snapshot(), old(blockIndex) == 0, flags.zlib, LevelHint(flags.probes), flush, b, adler,
                      window.input, old(dictPos), old(tokens.totalBytes))
      ensures sink.Snapshot().fits
    {
      hide *;
      ParsingFacts(this);
      WritingFacts(this);
      ParsedFacts(ts, window.input, dictPos, tokens.totalBytes, window.lookaheadPos, window.lookaheadSize, savedLen, savedDist, savedLit);
      ghost var a := sink.Snapshot();
      Counts(this);
      var end := tokens.Close();
      StaticCost.StaticFits(ts);
      BeFed(this, ts);
      assert sink.Snapshot() == a;
      ghost var k;
      b, k := WriteFlush(sink, window, coder, tokens.buf, end, flags.probes, flags.zlib, flags.allRaw, flags.allStatic,
                      blockIndex == 0, flush, adler, dictPos, tokens.totalBytes, ts);
      dictPos := dictPos + tokens.totalBytes;
      B.Apart(coder);
      tokens.Reset();
      blockIndex := blockIndex + 1;
    }

    /**
     Where a flush leaves the stream: all complete blocks can be read; after any flush but the plainest
     that is every byte of the input, and no bit is held back.
     */
    ghost predicate Reached(flush: Flush)
      reads this`dictPos, this`delivered, this`adler, window`input, sink, sink.out
    {
      && sink.Valid() && dictPos <= |window.input|
      && (!flush.NoFlush? ==> dictPos == |window.input| && Sent() == BytesToBits(delivered))
      && Drives(flags.zlib, Sent(), AfterFlush(flush, flags.zlib, |Sent()|, window.input[..dictPos], adler))
    }

    /** The output buffer, which the source asserts is not full, goes to the callback. */
    method Deliver()
      requires sink.Valid() && sink.Snapshot().fits
      modifies sink`pos, sink`total, this`delivered
      ensures sink.Valid() && sink.pos == 0 && sink.total == sink.bitsIn
      ensures old(delivered) <= delivered && Sent() == BytesToBits(old(delivered)) + old(sink.Snapshot()).stream
    {
      hide ToBits, BytesToBits;
      assert sink.pos < sink.end;
      ghost var d := delivered;
      var bytes := sink.Drained();
      delivered := delivered + bytes;
      BytesToBitsConcat(d, bytes);
      assert BytesToBits(d) + BytesToBits(bytes) + sink.Stream() == BytesToBits(d) + (BytesToBits(bytes) + sink.Stream());
    }

    /** Block written and delivered: the stream has grown by exactly one flush. */
    method EmitBlock(flush: Flush)
      requires Shape() && Parsing() && Writing() && adler < 0x1_0000_0000 && (!flush.NoFlush? ==> window.lookaheadSize == 0)
      modifies this`dictPos, this`blockIndex, this`delivered, tokens, tokens.buf, sink, sink.out
      modifies coder.lit.counts, coder.lit.sizes, coder.lit.codes, coder.dist.counts, coder.dist.sizes, coder.dist.codes
      modifies coder.cl.counts, coder.cl.sizes, coder.cl.codes
      ensures tokens.Valid() && tokens.Tokens() == [] && tokens.codePos == 1 && tokens.totalBytes == 0
      ensures dictPos == old(dictPos + tokens.totalBytes) && blockIndex == old(blockIndex) + 1
      ensures old(delivered) <= delivered
      ensures coder.DistTail() && sink.Valid() && sink.pos == 0 && sink.total == sink.bitsIn && Reached(flush)
    {
      hide *;
      WritingFacts(this);
      ghost var ts, input, a, sent, start, total, first := tokens.Tokens(), window.input, sink.Snapshot(), Sent(), dictPos, tokens.totalBytes, blockIndex == 0;
      ParsingFacts(this);
      ParsedFacts(ts, input, start, total, window.lookaheadPos, window.lookaheadSize, savedLen, savedDist, savedLit);
      ghost var b := WriteBlock(flush, ts);
      ghost var c, d := sink.Snapshot(), delivered;
      SinkBits(sink);
      Deliver();
      Landed(this, a, c, sent, d, first, flush, b, start, total);
    }

    /** `tdefl_flush_block` */
    method FlushBlock(flush: Flush)
      requires Shape() && Parsing() && Writing() && adler < 0x1_0000_0000 && (!flush.NoFlush? ==> window.lookaheadSize == 0)
      modifies this`dictPos, this`blockIndex, this`delivered, tokens, tokens.buf, sink, sink.out
      modifies coder.lit.counts, coder.lit.sizes, coder.lit.codes, coder.dist.counts, coder.dist.sizes, coder.dist.codes
      modifies coder.cl.counts, coder.cl.sizes, coder.cl.codes
      ensures Parsing() && tokens.codePos == 1 && tokens.totalBytes == 0 && dictPos == old(dictPos + tokens.totalBytes)
      ensures old(delivered) <= delivered && blockIndex == old(blockIndex) + 1
      ensures !flush.Finish? ==> Writing()
      ensures Reached(flush)
    {
      hide *;
      ParsingFacts(this);
      WritingFacts(this);
      ghost var ts, input, start, total := tokens.Tokens(), window.input, dictPos, tokens.totalBytes;
      EmitBlock(flush);
      StillParsed(ts, input, start, total, window.lookaheadPos, window.lookaheadSize, savedLen, savedDist, savedLit);
      BeParsing(this);
      if !flush.Finish? {
        BeWriting(this, flush);
      }
    }

    // -------------------------------------------------------------- whole calls

    /** The invariant between calls, as far as parsing and blocks are concerned. */
    ghost predicate Running()
      requires Shape()
      reads this`dictPos, this`blockIndex, this`delivered, this`savedLen, this`savedDist, this`savedLit
      reads window, window.dict, window.next, window.hash, tokens, tokens.buf, tokens.litCounts, tokens.distCounts, sink, sink.out, coder.dist.sizes
    {
      Parsing() && Writing() && tokens.codePos <= LZ_CODE_BUF_SIZE - 8
    }

    /** Fills the lookahead; the parser's invariant does not notice. */
    method Refill(src: seq<u8>, i: nat) returns (j: nat)
      requires Shape() && Running() && i <= |src|
      modifies window, window.dict, window.next, window.hash
      ensures Running() && i <= j <= |src| && window.input == old(window.input) + src[i..j]
      ensures window.lookaheadSize == old(window.lookaheadSize) + (j - i)
      ensures window.lookaheadSize < MAX_MATCH_LEN ==> j == |src|
      ensures i < |src| ==> window.lookaheadSize > 0
    {
      hide Drives, Parsed, Window.Holds, TokenBuffer.Valid, BytesToBits, ToBits;
      WindowFacts(window);
      WritingFacts(this);
      ghost var w, in0, look := window.input[..dictPos], window.input, window.lookaheadSize;
      j := window.Fill(src, i);
      assert window.input[..dictPos] == w;
      ParsedMore(tokens.Tokens(), in0, dictPos, tokens.totalBytes, window.lookaheadPos, look, savedLen, savedDist, savedLit, src[i..j]);
      WindowFacts(window);
    }

    /** The token buffer, of 65536 bytes, is nearly full, or more than 31 kilobytes do not compress or are not to. */
    ghost predicate Due()
      reads tokens
    {
      || tokens.codePos > 65528
      || (tokens.totalBytes > 31744 && (flags.allRaw || tokens.codePos * 115 / 128 >= tokens.totalBytes))
    }

    /** Writes the block when it is due, and only then. */
    method FlushIfDue()
      requires Shape() && Parsing() && Writing() && adler < 0x1_0000_0000
      modifies this`dictPos, this`blockIndex, this`delivered, tokens, tokens.buf, sink, sink.out
      modifies coder.lit.counts, coder.lit.sizes, coder.lit.codes, coder.dist.counts, coder.dist.sizes, coder.dist.codes
      modifies coder.cl.counts, coder.cl.sizes, coder.cl.codes
      ensures Running() && old(delivered) <= delivered
      ensures blockIndex == old(blockIndex) + (if old(Due()) then 1 else 0) && !Due()
      ensures if old(Due()) then dictPos == old(dictPos + tokens.totalBytes) && tokens.codePos == 1
              else dictPos == old(dictPos) && delivered == old(delivered) && tokens.codePos == old(tokens.codePos) && tokens.totalBytes == old(tokens.totalBytes)
    {
      if tokens.codePos > LZ_CODE_BUF_SIZE - 8
        || (tokens.totalBytes > 31 * 1024 && (tokens.codePos * 115 / 128 >= tokens.totalBytes || flags.allRaw)) {
        FlushBlock(NoFlush);
      }
    }

    /** The rest of a turn of the loop: parse one step, then write the block if it is due. */
    method Turn(ghost flush: Flush)
      requires Shape() && Running() && window.lookaheadSize > 0 && adler < 0x1_0000_0000
      requires flush.NoFlush? ==> window.lookaheadSize == 258
      modifies this`dictPos, this`blockIndex, this`delivered, this`savedDist, this`savedLen, this`savedLit
      modifies tokens, tokens.buf, sink, sink.out, window`lookaheadPos, window`lookaheadSize, window`dictSize
      modifies coder.lit.counts, coder.lit.sizes, coder.lit.codes, coder.dist.counts, coder.dist.sizes, coder.dist.codes
      modifies coder.cl.counts, coder.cl.sizes, coder.cl.codes
      ensures Running() && old(delivered) <= delivered
      ensures window.lookaheadSize < old(window.lookaheadSize) && !Due()
    {
      hide *;
      RunningFacts(this);
      ShapeFacts(this);
      ghost var s, dist, len, out := Advance();
      FlushIfDue();
    }

    lemma LookaheadLimit()
      requires Shape() && Running()
      ensures MAX_MATCH_LEN == 258 && window.lookaheadSize <= 258
    {
      hide Parsed, Drives, TokenBuffer.Valid, BitSink.Valid;
    }

    /** `tdefl_compress_normal`: takes all of `src`, and with a flush parses all of it. */
    method CompressNormal(src: seq<u8>, flush: Flush)
      requires Shape() && Running() && adler < 0x1_0000_0000
      modifies this`dictPos, this`blockIndex, this`delivered, this`savedDist, this`savedLen, this`savedLit
      modifies tokens, tokens.buf, sink, sink.out, window, window.dict, window.next, window.hash
      modifies coder.lit.counts, coder.lit.sizes, coder.lit.codes, coder.dist.counts, coder.dist.sizes, coder.dist.codes
      modifies coder.cl.counts, coder.cl.sizes, coder.cl.codes
      ensures Running() && old(delivered) <= delivered
      ensures window.input == old(window.input) + src && (!flush.NoFlush? ==> window.lookaheadSize == 0)
      ensures flush.NoFlush? && (src != [] || old(window.lookaheadSize) < 258) ==> window.lookaheadSize < 258
    {
      hide *;
      LookaheadLimit();
      ghost var in0, d0 := window.input, delivered;
      var i := 0;
      assert src[..0] == [] && in0 + [] == in0;
      while i < |src| || (!flush.NoFlush? && window.lookaheadSize > 0)
        invariant Running() && i <= |src| && window.input == in0 + src[..i]
        invariant d0 <= delivered && (flush.NoFlush? && (i > 0 || old(window.lookaheadSize) < 258) ==> window.lookaheadSize < 258)
        decreases |src| - i + window.lookaheadSize
      {
        ghost var k := i;
        i := Refill(src, i);
        FedMore(in0, src, k, i);
        if flush.NoFlush? && window.lookaheadSize < MAX_MATCH_LEN {
          break;
        }
        LookaheadLimit();
        Turn(flush);
      }
      assert src[..|src|] == src;
    }

    /** The class invariant: the checksum covers all input so far; a finished stream stays as it is. */
    ghost predicate Valid()
      reads this, window, window.dict, window.next, window.hash, tokens, tokens.buf, tokens.litCounts, tokens.distCounts, sink, sink.out, coder.dist.sizes
    {
      && Shape() && adler < 0x1_0000_0000 && (flags.zlib || flags.computeAdler ==> adler == A.Checksum(window.input))
      && (prevStatus.Okay? ==> Running())
      && (prevStatus.AllDone? ==> Reached(Finish))
    }

    /** Running the checksum over the new piece gives the checksum of the whole input. */
    method AddChecksum(src: seq<u8>, ghost before: seq<u8>)
      requires adler < 0x1_0000_0000
      modifies this`adler
      ensures adler < 0x1_0000_0000
      ensures (flags.zlib || flags.computeAdler) && old(adler) == A.Checksum(before) ==> adler == A.Checksum(before + src)
    {
      if flags.zlib || flags.computeAdler {
        ghost var a0 := adler;
        adler := A.Adler32(adler, src);
        hide *;
        A.ChecksumConcat(before, src);
        if src == [] {
          assert before + src == before;
        }
      }
    }

    /** The flush at the end of a call, if one was asked for. */
    method FinishCall(flush: Flush)
      requires Shape() && Running() && adler < 0x1_0000_0000 && !flush.NoFlush? && window.lookaheadSize == 0
      modifies this`dictPos, this`blockIndex, this`delivered, tokens, tokens.buf, sink, sink.out
      modifies coder.lit.counts, coder.lit.sizes, coder.lit.codes, coder.dist.counts, coder.dist.sizes, coder.dist.codes
      modifies coder.cl.counts, coder.cl.sizes, coder.cl.codes, window`dictSize, window`base, window`tail, window.next, window.hash
      ensures Reached(flush) && (!flush.Finish? ==> Running())
      ensures old(delivered) <= delivered
    {
      hide *;
      RunningFacts(this);
      ParsingFacts(this);
      ghost var start := dictPos;
      FlushBlock(flush);
      ReachedFacts(this, flush);
      if flush.FullFlush? {
        ParsingFacts(this);
        window.Forget();
        BeParsing(this);
      }
      if !flush.Finish? {
        BeRunning(this);
      }
    }

    /** A stream that ended or failed takes no more calls, and one asked to finish must be finished. */
    ghost predicate Accepts(flush: Flush)
      reads this`prevStatus, this`wantsToFinish
    {
      prevStatus.Okay? && (wantsToFinish ==> flush.Finish?)
    }

    /** The part of `tdefl_compress` after its checks. */
    method Work(src: seq<u8>, flush: Flush)
      requires Shape() && Running() && adler < 0x1_0000_0000
      requires flags.zlib || flags.computeAdler ==> adler == A.Checksum(window.input)
      modifies this`dictPos, this`blockIndex, this`delivered, this`savedDist, this`savedLen, this`savedLit, this`adler
      modifies tokens, tokens.buf, sink, sink.out, window, window.dict, window.next, window.hash
      modifies coder.lit.counts, coder.lit.sizes, coder.lit.codes, coder.dist.counts, coder.dist.sizes, coder.dist.codes
      modifies coder.cl.counts, coder.cl.sizes, coder.cl.codes
      ensures adler < 0x1_0000_0000 && (flags.zlib || flags.computeAdler ==> adler == A.Checksum(window.input))
      ensures window.input == old(window.input) + src && old(delivered) <= delivered
      ensures !flush.Finish? ==> Running()
      ensures !flush.NoFlush? ==> Reached(flush)
    {
      hide *;
      ghost var before := window.input;
      CompressNormal(src, flush);
      AddChecksum(src, before);
      if !flush.NoFlush? {
        FinishCall(flush);
      }
    }

    /** A call that is accepted. */
    method Open(flush: Flush)
      requires Valid() && Accepts(flush)
      modifies this`wantsToFinish
      ensures Shape() && Running() && adler < 0x1_0000_0000
      ensures flags.zlib || flags.computeAdler ==> adler == A.Checksum(window.input)
    {
      hide *;
      ValidFacts(this);
      AcceptsIs(this, flush);
      wantsToFinish := wantsToFinish || flush.Finish?;
    }

    /** The status after a call's work. */
    method Close(flush: Flush) returns (status: Status)
      requires Shape() && adler < 0x1_0000_0000 && (flags.zlib || flags.computeAdler ==> adler == A.Checksum(window.input))
      requires if flush.Finish? then Reached(Finish) else Running()
      modifies this`finished, this`prevStatus
      ensures Valid() && prevStatus == status == if flush.Finish? then AllDone else Okay
    {
      hide *;
      finished := flush.Finish?;
      status := if finished then AllDone else Okay;
      prevStatus := status;
      BeValid(this);
    }

    method Accept(src: seq<u8>, flush: Flush) returns (status: Status)
      requires Valid() && Accepts(flush)
      modifies this, tokens, tokens.buf, sink, sink.out, window, window.dict, window.next, window.hash
      modifies coder.lit.counts, coder.lit.sizes, coder.lit.codes, coder.dist.counts, coder.dist.sizes, coder.dist.codes
      modifies coder.cl.counts, coder.cl.sizes, coder.cl.codes
      ensures Valid() && prevStatus == status == (if flush.Finish? then AllDone else Okay) && old(delivered) <= delivered
      ensures window.input == old(window.input) + src && (!flush.NoFlush? ==> Reached(flush))
    {
      hide *;
      Open(flush);
      Work(src, flush);
      status := Close(flush);
    }

    /** `tdefl_compress` */
    method Compress(src: seq<u8>, flush: Flush) returns (status: Status)
      requires Valid()
      modifies this, tokens, tokens.buf, sink, sink.out, window, window.dict, window.next, window.hash
      modifies coder.lit.counts, coder.lit.sizes, coder.lit.codes, coder.dist.counts, coder.dist.sizes, coder.dist.codes
      modifies coder.cl.counts, coder.cl.sizes, coder.cl.codes
      ensures Valid() && prevStatus == status && old(delivered) <= delivered
      ensures old(Accepts(flush)) ==> status == (if flush.Finish? then AllDone else Okay) && window.input == old(window.input) + src
      ensures old(Accepts(flush)) && !flush.NoFlush? ==> Reached(flush)
      ensures !old(Accepts(flush)) ==> status.BadParam? && window.input == old(window.input) && delivered == old(delivered)
    {
      hide *;
      AcceptsIs(this, flush);
      if !prevStatus.Okay? || (wantsToFinish && !flush.Finish?) {
        ValidFacts(this);
        prevStatus := BadParam;
        BeValid(this);
        return BadParam;
      }
      status := Accept(src, flush);
    }
  }

  /** One call with `TDEFL_FINISH` on a new compressor. */
  method CompressAll(flags: Flags, data: seq<u8>) returns (out: seq<u8>)
    ensures Drives(flags.zlib, BytesToBits(out), Core(Done(if flags.zlib then A.Checksum(data) else 1), 8 * |out|, data, true))
  {
    hide *;
    var c := Init(flags);
    StartValid(c);
    var status := c.Compress(data, Finish);
    out := c.delivered;
    AllRead(c, data);
  }

  lemma StartValid(c: Compressor)
    requires c.Shape() && c.Parsing() && c.Writing() && c.adler == 1 && c.prevStatus.Okay? && !c.wantsToFinish
    requires c.tokens.codePos == 1 && c.window.input == [] && c.window.lookaheadPos == 0
    ensures c.Valid() && c.Accepts(Finish)
  {
    hide Drives, Parsed;
    A.RunNone(A.Sums(1, 0));
  }

  lemma AllRead(c: Compressor, data: seq<u8>)
    requires c.Valid() && c.Reached(Finish) && [] + data == c.window.input
    ensures Drives(c.flags.zlib, BytesToBits(c.delivered), Core(Done(if c.flags.zlib then A.Checksum(data) else 1), 8 * |c.delivered|, data, true))
  {
    hide Drives, A.Checksum;
    assert [] + data == data && c.window.input[..c.dictPos] == data;
  }
}
