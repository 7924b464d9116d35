/**
 One-call use of the codec (miniz.c, `tinfl_decompress_mem_to_mem`, `tinfl_decompress_mem_to_callback`)
 and the round trip through both directions.
 */
module MemToMem {
  import opened Bits
  import opened Options
  import opened LzTokens
  import opened BitSources
  import opened Outputs
  import opened DecodeTables
  import opened InflateSpec
  import opened InflateSlips
  import opened InflateResults
  import opened Inflaters
  import S = Streams
  import A = Adler
  import C = Compressors

  function FlatBuffer(zlib: bool): Config
  {
    Config(zlib, false, 0)
  }

  /** The stream says `out`, and its checksum, if there is one, agrees. */
  ghost predicate Says(cfg: Config, stream: seq<u8>, out: seq<u8>)
  {
    exists t :: HasOutcome(cfg, stream, t) && Ends(cfg, t, out)
  }

  ghost predicate Ends(cfg: Config, t: State, out: seq<u8>)
  {
    t.core.loc.Done? && t.core.out == out && (cfg.zlib ==> t.core.loc.adler == A.Checksum(out))
  }

  /** The code, slips and all, comes to its end on the stream with `out`, and its checksum, if there is one, agrees. */
  ghost predicate Accepts(cfg: Config, stream: seq<u8>, out: seq<u8>)
  {
    exists c, p :: Ran(cfg, BytesToBits(stream), c, p) && c.loc.Done? && c.out == out && (cfg.zlib ==> c.loc.adler == A.Checksum(out))
  }

  lemma AcceptsIs(cfg: Config, stream: seq<u8>, c: Core, p: seq<bool>)
    requires Ran(cfg, BytesToBits(stream), c, p) && c.loc.Done? && (cfg.zlib ==> c.loc.adler == A.Checksum(c.out))
    ensures Accepts(cfg, stream, c.out)
  {
  }

  /** What an inflater at its end has accepted. */
  lemma EndAccepts(i: Inflater, stream: seq<u8>)
    requires i.Valid() && i.point.PDone? && i.src.taken <= stream && (i.cfg.zlib ==> i.zAdler == A.Checksum(i.dst.written))
    ensures Accepts(i.cfg, stream, i.dst.written)
  {
    hide *;
    ValidRuns(i);
    AtEnd(i);
    var rest := stream[|i.src.taken|..];
    assert stream == i.src.taken + rest;
    BytesToBitsConcat(i.src.taken, rest);
    RanMore(i.cfg, BytesToBits(i.src.taken), CoreBefore(i, 0), i.src.Pending(), BytesToBits(rest));
    AcceptsIs(i.cfg, stream, CoreBefore(i, 0), i.src.Pending() + BytesToBits(rest));
  }

  /** An accepted stream says something exactly if it does not stray. */
  ghost predicate Judged(cfg: Config, stream: seq<u8>, out: seq<u8>)
  {
    && Accepts(cfg, stream, out)
    && (Says(cfg, stream, out) <==> !Strays(cfg, BytesToBits(stream)))
    && (Strays(cfg, BytesToBits(stream)) ==> forall o :: !Says(cfg, stream, o))
    && (!cfg.wraps && FullTables(cfg, BytesToBits(stream)) ==> Says(cfg, stream, out))
  }

  lemma SaysNoStray(cfg: Config, stream: seq<u8>, out: seq<u8>)
    requires Says(cfg, stream, out)
    ensures !Strays(cfg, BytesToBits(stream))
  {
    hide *;
    var t := SaidBy(cfg, stream, out);
    NeverStrays(cfg, stream, t, stream);
  }

  lemma BeJudged(i: Inflater, stream: seq<u8>)
    requires i.Valid() && i.point.PDone? && i.src.taken <= stream && (i.cfg.zlib ==> i.zAdler == A.Checksum(i.dst.written))
    requires i.broken ==> Strays(i.cfg, BytesToBits(stream))
    ensures Judged(i.cfg, stream, i.dst.written)
  {
    hide *;
    EndAccepts(i, stream);
    forall o | Says(i.cfg, stream, o)
      ensures !Strays(i.cfg, BytesToBits(stream))
    {
      SaysNoStray(i.cfg, stream, o);
    }
    if !i.broken {
      var t := EndedThere(i, stream);
      EndsIs(i.cfg, t, i.dst.written);
      SaysIs(i.cfg, stream, t, i.dst.written);
    }
    if !i.cfg.wraps && FullTables(i.cfg, BytesToBits(stream)) {
      FullNeverStrays(i.cfg, BytesToBits(stream));
    }
    JudgedIs(i.cfg, stream, i.dst.written);
  }

  lemma JudgedIs(cfg: Config, stream: seq<u8>, out: seq<u8>)
    ensures Judged(cfg, stream, out) <==>
      && Accepts(cfg, stream, out)
      && (Says(cfg, stream, out) <==> !Strays(cfg, BytesToBits(stream)))
      && (Strays(cfg, BytesToBits(stream)) ==> forall o :: !Says(cfg, stream, o))
      && (!cfg.wraps && FullTables(cfg, BytesToBits(stream)) ==> Says(cfg, stream, out))
  {
    hide Accepts, Says, Strays, FullTables;
  }

  lemma EndsIs(cfg: Config, t: State, out: seq<u8>)
    ensures Ends(cfg, t, out) <==> t.core.loc.Done? && t.core.out == out && (cfg.zlib ==> t.core.loc.adler == A.Checksum(out))
  {
    hide A.Checksum;
  }

  lemma SaysIs(cfg: Config, stream: seq<u8>, t: State, out: seq<u8>)
    requires HasOutcome(cfg, stream, t) && Ends(cfg, t, out)
    ensures Says(cfg, stream, out)
  {
  }

  lemma SaidBy(cfg: Config, stream: seq<u8>, out: seq<u8>) returns (t: State)
    requires Says(cfg, stream, out)
    ensures HasOutcome(cfg, stream, t) && Ends(cfg, t, out)
  {
    t :| HasOutcome(cfg, stream, t) && Ends(cfg, t, out);
  }

  /** `tinfl_init` and the buffers of a new stream. */
  method NewInflater(zlib: bool, buf: array<u8>, wraps: bool) returns (i: Inflater)
    requires wraps ==> buf.Length >= DICT_SIZE
    ensures fresh(i) && fresh(i.src) && fresh(i.dst) && i.dst.buf == buf
    ensures fresh(i.litTable) && fresh(i.litTable.lookup) && fresh(i.litTable.tree) && fresh(i.distTable) && fresh(i.distTable.lookup) && fresh(i.distTable.tree)
    ensures fresh(i.clTable) && fresh(i.clTable.lookup) && fresh(i.clTable.tree)
    ensures fresh(i.litSizes) && fresh(i.distSizes) && fresh(i.clSizes) && fresh(i.lenCodes) && fresh(i.tableSizes) && fresh(i.rawHeader)
    ensures i.Valid() && i.Summed() && !i.broken && i.summed == [] && i.src.taken == [] && i.dst.written == []
    ensures i.cfg == Config(zlib, wraps, if wraps then buf.Length else 0)
  {
    hide *;
    var src := new BitSource();
    var dst := new Output(buf, wraps);
    var lit := new DecodeTable(576);
    var dist := new DecodeTable(64);
    var cl := new DecodeTable(38);
    i := new Inflater(Config(zlib, wraps, if wraps then buf.Length else 0), src, dst, lit, dist, cl);
    StartValid(i);
  }

  /** The end of a call that offered the whole stream to a new inflater. */
  lemma OneCall(i: Inflater, data: seq<u8>, status: Status, consumed: nat, produced: nat)
    requires i.Valid() && consumed <= |data| && i.src.taken == data[..consumed] && |i.dst.written| == produced
    requires i.Means(status, false, consumed == |data|, produced == i.dst.buf.Length)
    requires i.point.PDone? && i.cfg.zlib ==> (status.Finished? <==> i.zAdler == A.Checksum(i.dst.written))
    requires i.broken ==> Strays(i.cfg, BytesToBits(data))
    ensures forall out :: Says(i.cfg, data, out) && |out| <= i.dst.buf.Length ==> status.Finished? && i.dst.written == out
    ensures status.Finished? ==> Judged(i.cfg, data, i.dst.written)
  {
    hide *;
    assert data[..consumed] <= data && (consumed == |data| ==> data[..consumed] == data);
    MeansIs(i, status, false, consumed == |data|, produced == i.dst.buf.Length);
    forall out | Says(i.cfg, data, out) && |out| <= i.dst.buf.Length
      ensures status.Finished? && i.dst.written == out
    {
      SaysNoStray(i.cfg, data, out);
      var t := SaidBy(i.cfg, data, out);
      EndsIs(i.cfg, t, out);
      CallOutcome(i, status, false, consumed == |data|, produced == i.dst.buf.Length, true, data, t);
    }
    if status.Finished? {
      BeJudged(i, data);
    }
  }

  /**
     `tinfl_decompress_mem_to_mem`: every stream that says what fits is accepted; one that is accepted says
     what was written, unless it strays past a guard.
   */
  method Decompress(zlib: bool, data: seq<u8>, buf: array<u8>) returns (r: Option<nat>)
    modifies buf
    ensures forall out :: Says(FlatBuffer(zlib), data, out) && |out| <= buf.Length ==> r == Some(|out|) && buf[..|out|] == out
    ensures r.Some? ==> r.value <= buf.Length && Judged(FlatBuffer(zlib), data, buf[..r.value])
  {
    hide *;
    var i := NewInflater(zlib, buf, false);
    AreaIs(i, 0, buf.Length);
    FlatBufferIs(zlib);
    var status, consumed, produced := i.Decompress(data, 0, buf.Length, false);
    assert [] + data == data && [] + data[..consumed] == data[..consumed];
    assert [] + buf[0..0 + produced] == buf[..produced];
    MeansIs(i, status, false, consumed == |data|, produced == buf.Length);
    OneCall(i, data, status, consumed, produced);
    r := if status.Finished? then Some(produced) else None;
  }

  lemma FlatBufferIs(zlib: bool)
    ensures FlatBuffer(zlib) == Config(zlib, false, 0)
  {
  }

  /** What the compressor makes says its input, to a decoder with any suitable buffer. */
  lemma CompressedSays(cfg: Config, zlib: bool, bytes: seq<u8>, data: seq<u8>)
    requires S.Drives(zlib, BytesToBits(bytes), Core(Done(if zlib then A.Checksum(data) else 1), 8 * |bytes|, data, true))
    requires S.Suits(cfg, zlib)
    ensures Says(cfg, bytes, data)
  {
    hide A.Checksum, BytesToBits, Reaches;
    var t := State(Core(Done(if zlib then A.Checksum(data) else 1), 8 * |bytes|, data, true), []);
    assert HasOutcome(cfg, bytes, t) && Ends(cfg, t, data);
  }

  lemma FlatSuits(zlib: bool)
    ensures S.Suits(FlatBuffer(zlib), zlib)
  {
  }

  lemma WindowSuits(zlib: bool)
    ensures S.Suits(WindowBuffer(zlib), zlib)
  {
  }

  /** The same through a window, whatever the size of the data. */
  method WindowRoundTrip(flags: C.Flags, data: seq<u8>) returns (bytes: seq<u8>, ok: bool, put: seq<u8>)
    ensures ok && put == data
  {
    hide *;
    bytes := C.CompressAll(flags, data);
    WindowSuits(flags.zlib);
    CompressedSays(WindowBuffer(flags.zlib), flags.zlib, bytes, data);
    var used;
    ok, put, used := DecompressToCallback(flags.zlib, bytes, |data| + 1);
    Enough(|data|);
  }

  lemma Enough(n: nat)
    ensures (n + 1) * DICT_SIZE > n
  {
  }

  /** Inflating what the compressor makes gives back the input, whatever the mix of blocks. */
  method RoundTrip(flags: C.Flags, data: seq<u8>, buf: array<u8>) returns (bytes: seq<u8>, r: Option<nat>)
    requires |data| <= buf.Length
    modifies buf
    ensures r == Some(|data|) && buf[..|data|] == data
  {
    hide *;
    bytes := C.CompressAll(flags, data);
    FlatSuits(flags.zlib);
    CompressedSays(FlatBuffer(flags.zlib), flags.zlib, bytes, data);
    r := Decompress(flags.zlib, bytes, buf);
  }

  // ---------------------------------------------------------------- through a window

  function WindowBuffer(zlib: bool): Config
  {
    Config(zlib, true, DICT_SIZE)
  }

  /** The calls so far have taken the first `ofs` bytes and put out `put`. */
  ghost predicate Pumped(i: Inflater, zlib: bool, data: seq<u8>, ofs: nat, put: seq<u8>)
    reads i, i.src, i.dst, i.dst.buf, i.litTable, i.litTable.lookup, i.litTable.tree, i.distTable, i.distTable.lookup, i.distTable.tree
    reads i.clTable, i.clTable.lookup, i.clTable.tree, i.clSizes, i.lenCodes, i.tableSizes, i.rawHeader
  {
    && i.Valid() && i.Summed() && i.summed == i.dst.written && i.cfg == WindowBuffer(zlib) && i.dst.buf.Length == DICT_SIZE
    && ofs <= |data| && i.src.taken == data[..ofs] && i.dst.written == put && |put| % DICT_SIZE == 0
    && (i.broken ==> Strays(i.cfg, BytesToBits(data)))
  }

  lemma PumpedIs(i: Inflater, zlib: bool, data: seq<u8>, ofs: nat, put: seq<u8>)
    ensures Pumped(i, zlib, data, ofs, put) <==>
      && i.Valid() && i.Summed() && i.summed == i.dst.written && i.cfg == WindowBuffer(zlib) && i.dst.buf.Length == DICT_SIZE
      && ofs <= |data| && i.src.taken == data[..ofs] && i.dst.written == put && |put| % DICT_SIZE == 0
      && (i.broken ==> Strays(i.cfg, BytesToBits(data)))
  {
    hide Inflater.Valid, Inflater.Summed, Strays;
  }

  lemma WindowIs(zlib: bool)
    ensures WindowBuffer(zlib) == Config(zlib, true, DICT_SIZE) && DICT_SIZE == 32768
  {
  }

  /** The last call: the whole output is `put`, or the stream says nothing. */
  ghost predicate Told(cfg: Config, data: seq<u8>, ok: bool, put: seq<u8>)
  {
    (forall out :: Says(cfg, data, out) ==> ok && put == out) && (ok ==> Judged(cfg, data, put))
  }

  /** One turn of `tinfl_decompress_mem_to_callback`: a window's worth of output. */
  method Pump(i: Inflater, zlib: bool, data: seq<u8>, ofs: nat, ghost put: seq<u8>) returns (status: Status, consumed: nat, piece: seq<u8>)
    requires Pumped(i, zlib, data, ofs, put)
    modifies i, i.src, i.dst, i.dst.buf, i.litTable, i.litTable.lookup, i.litTable.tree
    modifies i.distTable, i.distTable.lookup, i.distTable.tree, i.clTable, i.clTable.lookup, i.clTable.tree
    modifies i.litSizes, i.distSizes, i.clSizes, i.lenCodes, i.tableSizes, i.rawHeader
    ensures ofs + consumed <= |data| && |piece| <= DICT_SIZE
    ensures forall out :: Says(WindowBuffer(zlib), data, out) ==> put + piece <= out
    ensures status.HasMoreOutput? ==> Pumped(i, zlib, data, ofs + consumed, put + piece) && |piece| == DICT_SIZE
    ensures !status.HasMoreOutput? ==> Told(WindowBuffer(zlib), data, status.Finished?, put + piece)
  {
    hide *;
    PumpedIs(i, zlib, data, ofs, put);
    WindowIs(zlib);
    AreaIs(i, 0, DICT_SIZE);
    assert data[..ofs] + data[ofs..] == data;
    var produced;
    status, consumed, produced := i.Decompress(data[ofs..], 0, DICT_SIZE, false);
    piece := i.dst.buf[0..0 + produced];
    assert data[..ofs] + data[ofs..][..consumed] == data[..ofs + consumed];
    MeansIs(i, status, false, consumed == |data[ofs..]|, produced == DICT_SIZE);
    WholeCall(i, data, ofs + consumed, status, produced == DICT_SIZE);
    if status.HasMoreOutput? {
      NextWindow(|put|);
      PumpedIs(i, zlib, data, ofs + consumed, put + piece);
    }
  }

  lemma NextWindow(n: nat)
    requires n % DICT_SIZE == 0
    ensures (n + DICT_SIZE) % DICT_SIZE == 0
  {
  }

  lemma WholeCall(i: Inflater, data: seq<u8>, ofs: nat, status: Status, full: bool)
    requires i.Valid() && ofs <= |data| && i.src.taken == data[..ofs] && (i.broken ==> Strays(i.cfg, BytesToBits(data)))
    requires i.Means(status, false, ofs == |data|, full)
    requires i.point.PDone? && i.cfg.zlib ==> (status.Finished? <==> i.zAdler == A.Checksum(i.dst.written))
    ensures forall out :: Says(i.cfg, data, out) ==> i.dst.written <= out
    ensures !status.HasMoreOutput? ==> Told(i.cfg, data, status.Finished?, i.dst.written)
  {
    hide *;
    assert data[..ofs] <= data && (ofs == |data| ==> data[..ofs] == data);
    MeansIs(i, status, false, ofs == |data|, full);
    forall out | Says(i.cfg, data, out)
      ensures i.dst.written <= out && (!status.HasMoreOutput? ==> status.Finished? && i.dst.written == out)
    {
      SaysNoStray(i.cfg, data, out);
      var t := SaidBy(i.cfg, data, out);
      EndsIs(i.cfg, t, out);
      CallOutcome(i, status, false, ofs == |data|, full, true, data, t);
    }
    if status.Finished? {
      BeJudged(i, data);
    }
    if !status.HasMoreOutput? {
      BeTold(i.cfg, data, status.Finished?, i.dst.written);
    }
  }

  lemma BeTold(cfg: Config, data: seq<u8>, ok: bool, put: seq<u8>)
    requires forall out :: Says(cfg, data, out) ==> ok && put == out
    requires ok ==> Judged(cfg, data, put)
    ensures Told(cfg, data, ok, put)
  {
    hide Says, Judged;
  }

  lemma ToldIs(cfg: Config, data: seq<u8>, ok: bool, put: seq<u8>)
    requires Told(cfg, data, ok, put)
    ensures forall out :: Says(cfg, data, out) ==> ok && put == out
    ensures ok ==> Judged(cfg, data, put)
  {
    hide Says, Judged;
  }

  /** `tinfl_decompress_mem_to_callback`; the callback takes `accepts` pieces and refuses any more. */
  method DecompressToCallback(zlib: bool, data: seq<u8>, accepts: nat) returns (ok: bool, put: seq<u8>, used: nat)
    ensures used <= |data|
    ensures forall out :: Says(WindowBuffer(zlib), data, out) ==> put <= out && (accepts * DICT_SIZE > |out| ==> ok && put == out)
    ensures ok ==> Judged(WindowBuffer(zlib), data, put)
  {
    hide *;
    WindowIs(zlib);
    var dict := new u8[DICT_SIZE](_ => 0);
    var i := NewInflater(zlib, dict, true);
    assert data[..0] == [];
    ok, put, used := false, [], 0;
    PumpedIs(i, zlib, data, 0, put);
    var left: nat := accepts;
    while true
      invariant Pumped(i, zlib, data, used, put) && used <= |data| && left <= accepts
      invariant |put| == (accepts - left) * DICT_SIZE && !ok
      invariant forall out :: Says(WindowBuffer(zlib), data, out) ==> put <= out
      invariant fresh(i) && fresh(i.src) && fresh(i.dst) && fresh(i.dst.buf)
      invariant fresh(i.litTable) && fresh(i.litTable.lookup) && fresh(i.litTable.tree) && fresh(i.distTable) && fresh(i.distTable.lookup) && fresh(i.distTable.tree)
      invariant fresh(i.clTable) && fresh(i.clTable.lookup) && fresh(i.clTable.tree)
      invariant fresh(i.litSizes) && fresh(i.distSizes) && fresh(i.clSizes) && fresh(i.lenCodes) && fresh(i.tableSizes) && fresh(i.rawHeader)
      decreases left
    {
      var status, consumed, piece := Pump(i, zlib, data, used, put);
      used := used + consumed;
      assert piece == [] ==> put + piece == put;
      if piece != [] {
        if left == 0 {
          return;
        }
        left := left - 1;
        put := put + piece;
      }
      if !status.HasMoreOutput? {
        ToldIs(WindowBuffer(zlib), data, status.Finished?, put);
        ok := status.Finished?;
        return;
      }
    }
  }
}
