/**
 When the inflater's checksum fails a sound stream (miniz.c, the end of `tinfl_decompress`): the output of
 a call that ends with an error status is left out of the running Adler-32, although the caller may go on.
 */
module ChecksumLapse {
  import opened Bits
  import opened Options
  import BitSources
  import opened InflateSpec
  import opened InflateSteps
  import opened InflateRun
  import opened InflateResults
  import opened Inflaters
  import opened MemToMem
  import A = Adler
  import C = Compressors
  import S = Streams

  /**
     A sound zlib stream, at its end, is reported as done exactly if the output summed has the checksum of
     the output.
   */
  lemma SoundEnds(i: Inflater, status: Status, stream: seq<u8>, out: seq<u8>)
    requires i.Valid() && !i.broken && i.cfg.zlib && i.point.PDone? && i.src.taken <= stream && Says(i.cfg, stream, out)
    requires status.Finished? <==> i.zAdler == A.Checksum(i.summed)
    ensures i.dst.written == out
    ensures status.Finished? <==> A.Checksum(i.summed) == A.Checksum(out)
  {
    hide *;
    var t := SaidBy(i.cfg, stream, out);
    EndsIs(i.cfg, t, out);
    NeverWrong(i, stream, t);
  }

  // ---------------------------------------------------------------- the last four bytes

  lemma {:induction false} LastStep(cfg: Config, s: State, t: State, n: nat) returns (p: State)
    requires ReachesIn(cfg, s, t, n) && n > 0
    ensures ReachesIn(cfg, s, p, n - 1) && Step(cfg, p) == Some(t)
    decreases n
  {
    hide *;
    Unfold(cfg, s, t, n);
    if n == 1 {
      Unfold(cfg, Step(cfg, s).value, t, 0);
      ReachesNone(cfg, s, s);
      p := s;
    } else {
      p := LastStep(cfg, Step(cfg, s).value, t, n - 1);
      StepReaches(cfg, s, Step(cfg, s).value, p, n - 2);
    }
  }

  /** Where the machine was a byte before the end, or before a byte of the trailer. */
  lemma IntoTrailer(cfg: Config, p: State, t: State)
    requires cfg.zlib && Step(cfg, p) == Some(t) && (t.core.loc.Done? || (t.core.loc.Trailer? && t.core.loc.k > 0))
    ensures p.core.loc.Trailer? && p.core.out == t.core.out && |p.rest| == |t.rest| + 8
    ensures t.core.loc.Done? ==> p.core.loc.k >= 3
    ensures t.core.loc.Trailer? ==> p.core.loc.k == t.core.loc.k - 1 < 3
  {
    hide *;
    ElsewhereStep(cfg, p);
    TrailerStep(cfg, p);
  }

  lemma StepReads(cfg: Config, p: State, n: nat)
    requires Step(cfg, p).Some? && Wants(p.core) == Bits(n)
    ensures n <= |p.rest| && |p.rest| == |Step(cfg, p).value.rest| + n
    ensures Next(cfg, p.core.(pos := p.core.pos + n), FromBits(p.rest[..n])) == Some(Step(cfg, p).value.core)
  {
    hide Wants, Next, FromBits;
  }

  lemma TrailerStep(cfg: Config, p: State)
    requires Step(cfg, p).Some? && p.core.loc.Trailer?
    ensures var t := Step(cfg, p).value; t.core.out == p.core.out && |p.rest| == |t.rest| + 8
    ensures var t := Step(cfg, p).value; if p.core.loc.k < 3 then t.core.loc.Trailer? && t.core.loc.k == p.core.loc.k + 1 else t.core.loc.Done?
  {
    hide Step, Next, Wants, FromBits;
    ReadsByte(p.core);
    StepReads(cfg, p, 8);
    AtTrailer(cfg, p.core, p.core.loc.k, p.core.loc.adler, FromBits(p.rest[..8]));
  }

  lemma ReadsByte(c: Core)
    requires c.loc.Trailer?
    ensures Wants(c) == Bits(8)
  {
  }

  lemma ElsewhereStep(cfg: Config, p: State)
    requires Step(cfg, p).Some? && cfg.zlib
    ensures var t := Step(cfg, p).value;
      p.core.loc.Trailer? || !(t.core.loc.Done? || (t.core.loc.Trailer? && t.core.loc.k > 0))
  {
    hide *;
    if p.core.loc.EndAlign? {
      AlignStep(cfg, p);
    } else if !p.core.loc.Trailer? {
      StepElsewhere(cfg, p);
    }
  }

  lemma AlignStep(cfg: Config, p: State)
    requires Step(cfg, p).Some? && cfg.zlib && p.core.loc.EndAlign?
    ensures Step(cfg, p).value.core.loc == Trailer(0, 1)
  {
    hide Step, Next, Wants, FromBits, ToByteBoundary;
    var n := ToByteBoundary(p.core.pos);
    AtEndAlign(cfg, p.core, 0);
    StepReads(cfg, p, n);
    AtEndAlign(cfg, p.core, FromBits(p.rest[..n]));
  }

  /** Four bytes before the end all output has been written. */
  lemma {:induction false} BeforeTrailer(cfg: Config, s: State, t: State, n: nat) returns (u: State, m: nat)
    requires cfg.zlib && ReachesIn(cfg, s, t, n) && s.core.loc.ZHeader0? && (t.core.loc.Done? || t.core.loc.Trailer?)
    ensures ReachesIn(cfg, s, u, m) && u.core.loc.Trailer? && u.core.loc.k == 0 && u.core.out == t.core.out
    ensures |u.rest| == |t.rest| + 8 * (if t.core.loc.Done? then 4 else t.core.loc.k)
    ensures t.core.loc.Trailer? ==> t.core.loc.k <= 3
    decreases n
  {
    hide *;
    u, m := t, n;
    Unfold(cfg, s, t, n);
    if !(t.core.loc.Trailer? && t.core.loc.k == 0) {
      var p := LastStep(cfg, s, t, n);
      IntoTrailer(cfg, p, t);
      u, m := BeforeTrailer(cfg, s, p, n - 1);
    }
  }

  lemma {:induction false} RestIsEnd(cfg: Config, s: State, t: State, n: nat)
    requires ReachesIn(cfg, s, t, n)
    ensures |t.rest| <= |s.rest| && t.rest == s.rest[|s.rest| - |t.rest|..]
    decreases n
  {
    hide *;
    Unfold(cfg, s, t, n);
    if n > 0 {
      var k := StepTakes(cfg, s);
      RestIsEnd(cfg, Step(cfg, s).value, t, n - 1);
    }
  }

  lemma CompressedRuns(bytes: seq<u8>, data: seq<u8>)
    requires S.Drives(true, BytesToBits(bytes), Core(Done(A.Checksum(data)), 8 * |bytes|, data, true))
    ensures HasOutcome(FlatBuffer(true), bytes, State(Core(Done(A.Checksum(data)), 8 * |bytes|, data, true), []))
  {
    hide A.Checksum, BytesToBits, Reaches;
    FlatSuits(true);
  }

  lemma StartsThere(cfg: Config)
    requires cfg.zlib
    ensures S.Start(cfg.zlib).loc.ZHeader0?
  {
  }

  /** All but the trailer of a zlib stream. */
  lemma WithoutTrailer(cfg: Config, bytes: seq<u8>, t: State) returns (u: Core)
    requires cfg.zlib && HasOutcome(cfg, bytes, t) && t.core.loc.Done? && t.rest == []
    ensures |bytes| >= 4 && Sound(cfg, BytesToBits(bytes[..|bytes| - 4]), u, []) && u.loc.Trailer? && u.out == t.core.out
  {
    hide *;
    OutcomeIs(cfg, bytes, t);
    StartsThere(cfg);
    var s := State(S.Start(cfg.zlib), BytesToBits(bytes));
    var n := SomeRun(cfg, s, t);
    var v, m := BeforeTrailer(cfg, s, t, n);
    RestIsEnd(cfg, s, v, m);
    var front, back := bytes[..|bytes| - 4], bytes[|bytes| - 4..];
    assert bytes == front + back;
    BytesToBitsConcat(front, back);
    assert s.rest[|s.rest| - 32..] == BytesToBits(back);
    u := v.core;
    BeSound(cfg, BytesToBits(front) + BytesToBits(back), v, m);
    assert v.rest == [] + BytesToBits(back);
    GiveBack(cfg, BytesToBits(front), u, [], BytesToBits(back));
  }

  lemma BeSound(cfg: Config, bits: seq<bool>, v: State, m: nat)
    requires ReachesIn(cfg, State(S.Start(cfg.zlib), bits), v, m)
    ensures Sound(cfg, bits, v.core, v.rest)
  {
    hide ReachesIn;
  }

  lemma WantsByte(cfg: Config, u: Core)
    requires u.loc.Trailer?
    ensures Step(cfg, State(u, [])) == None
  {
  }

  /** An inflater offered all but the trailer has written everything and waits for the trailer. */
  lemma WaitsThere(i: Inflater, front: seq<u8>, u: Core, status: Status, full: bool, bytes: seq<u8>, t: State)
    requires i.Valid() && !i.broken && i.src.taken <= front <= bytes && HasOutcome(i.cfg, bytes, t) && t.core.out == u.out
    requires Sound(i.cfg, BytesToBits(front), u, []) && u.loc.Trailer? && i.Means(status, false, i.src.taken == front, full)
    requires full ==> |i.dst.written| >= |u.out|
    ensures status.CannotProgress? && i.src.taken == front && i.dst.written == u.out
  {
    hide *;
    MeansIs(i, status, false, i.src.taken == front, full);
    NeverWrong(i, bytes, t);
    OnTheWay(i, front);
    PlaceIs(i, front);
    var p := Place(i, front);
    AtEnd(i);
    WantsByte(i.cfg, u);
    if status.CannotProgress? {
      StarvedStuck(i);
      SameStop(i.cfg, BytesToBits(front), p, u);
    } else if !status.HasMoreOutput? {
      HaltedIs(p);
      HaltedStops(i.cfg, p);
      SameStop(i.cfg, BytesToBits(front), p, u);
      assert false;
    }
  }

  lemma SameStop(cfg: Config, bits: seq<bool>, p: State, u: Core)
    requires Reaches(cfg, State(S.Start(cfg.zlib), bits), p) && Sound(cfg, bits, u, [])
    requires Step(cfg, p) == None && Step(cfg, State(u, [])) == None
    ensures p == State(u, [])
  {
    hide ReachesIn, Step;
    var s := State(S.Start(cfg.zlib), bits);
    var m: nat :| ReachesIn(cfg, s, p, m);
    var n: nat :| ReachesIn(cfg, s, State(u, []), n);
    StopsSame(cfg, s, p, State(u, []), m, n);
  }

  lemma EmptySum()
    ensures A.Checksum([]) == 1
  {
  }

  /**
     The compressor's stream in two pieces, the first without the trailer and offered as if it were all:
     the first call fails with everything written, and the second finds the checksum of nothing.
   */
  method Lapse(flags: C.Flags, data: seq<u8>, buf: array<u8>) returns (bytes: seq<u8>, first: Status, second: Status)
    requires flags.zlib && |data| <= buf.Length
    modifies buf
    ensures Says(FlatBuffer(true), bytes, data) && buf[..|data|] == data
    ensures first.CannotProgress? && second == if A.Checksum(data) == 1 then Finished else BadChecksum
  {
    hide *;
    bytes := C.CompressAll(flags, data);
    FlatBufferIs(true);
    ghost var t := State(Core(Done(A.Checksum(data)), 8 * |bytes|, data, true), []);
    CompressedRuns(bytes, data);
    EndsIs(FlatBuffer(true), t, data);
    SaysIs(FlatBuffer(true), bytes, t, data);
    ghost var u := WithoutTrailer(FlatBuffer(true), bytes, t);
    var i := NewInflater(true, buf, false);
    first := FirstPiece(i, bytes, t, u);
    second := LastPiece(i, bytes, data, t);
  }

  method FirstPiece(i: Inflater, bytes: seq<u8>, ghost t: State, ghost u: Core) returns (first: Status)
    requires i.Valid() && i.Summed() && !i.broken && i.summed == [] && i.src.taken == [] && i.dst.written == [] && i.cfg == FlatBuffer(true)
    requires |bytes| >= 4 && HasOutcome(i.cfg, bytes, t) && |t.core.out| <= i.dst.buf.Length
    requires Sound(i.cfg, BytesToBits(bytes[..|bytes| - 4]), u, []) && u.loc.Trailer? && u.out == t.core.out
    modifies i, i.src, i.dst, i.dst.buf, i.litTable, i.litTable.lookup, i.litTable.tree
    modifies i.distTable, i.distTable.lookup, i.distTable.tree, i.clTable, i.clTable.lookup, i.clTable.tree
    modifies i.litSizes, i.distSizes, i.clSizes, i.lenCodes, i.tableSizes, i.rawHeader
    ensures i.Valid() && i.Summed() && !i.broken && i.summed == [] && i.src.taken == bytes[..|bytes| - 4] && i.dst.written == t.core.out
    ensures first.CannotProgress? && i.dst.buf[..|t.core.out|] == t.core.out
  {
    hide *;
    var front := bytes[..|bytes| - 4];
    FlatBufferIs(true);
    AreaIs(i, 0, i.dst.buf.Length);
    var consumed, produced;
    first, consumed, produced := i.Decompress(front, 0, i.dst.buf.Length, false);
    assert [] + front == front && [] + front[..consumed] == front[..consumed];
    assert [] + i.dst.buf[0..0 + produced] == i.dst.buf[..produced];
    NeverStrays(i.cfg, bytes, t, front);
    assert consumed == |front| <==> i.src.taken == front by { assert |front[..consumed]| == consumed; }
    MeansIs(i, first, false, consumed == |front|, produced == i.dst.buf.Length);
    WaitsThere(i, front, u, first, produced == i.dst.buf.Length, bytes, t);
  }

  method LastPiece(i: Inflater, bytes: seq<u8>, data: seq<u8>, ghost t: State) returns (second: Status)
    requires i.Valid() && i.Summed() && !i.broken && i.summed == [] && i.cfg == FlatBuffer(true)
    requires |bytes| >= 4 && i.src.taken == bytes[..|bytes| - 4] && i.dst.written == data && i.dst.buf[..|data|] == data
    requires |data| <= i.dst.buf.Length
    requires HasOutcome(i.cfg, bytes, t) && Ends(i.cfg, t, data)
    modifies i, i.src, i.dst, i.dst.buf, i.litTable, i.litTable.lookup, i.litTable.tree
    modifies i.distTable, i.distTable.lookup, i.distTable.tree, i.clTable, i.clTable.lookup, i.clTable.tree
    modifies i.litSizes, i.distSizes, i.clSizes, i.lenCodes, i.tableSizes, i.rawHeader
    ensures second == if A.Checksum(data) == 1 then Finished else BadChecksum
    ensures i.dst.buf[..|data|] == data
  {
    hide *;
    var back := bytes[|bytes| - 4..];
    var size := i.dst.buf.Length - |data|;
    FlatBufferIs(true);
    EndsIs(i.cfg, t, data);
    AreaIs(i, |data|, size);
    var consumed, produced;
    second, consumed, produced := i.Decompress(back, |data|, size, false);
    assert bytes[..|bytes| - 4] + back == bytes;
    assert bytes[..|bytes| - 4] + back[..consumed] <= bytes;
    assert consumed == |back| ==> back[..consumed] == back;
    NeverStrays(i.cfg, bytes, t, bytes);
    MeansIs(i, second, false, consumed == |back|, produced == size);
    CallOutcome(i, second, false, consumed == |back|, produced == size, true, bytes, t);
    assert |i.dst.written| == |data| + produced;
    assert produced == 0;
    assert [] + i.dst.buf[|data|..|data| + 0] == [];
    EmptySum();
    WholeFlat(i);
  }

  /** A flat buffer holds all that was written. */
  lemma WholeFlat(i: Inflater)
    requires i.Valid() && !i.cfg.wraps
    ensures |i.dst.written| <= i.dst.buf.Length && i.dst.buf[..|i.dst.written|] == i.dst.written
  {
    hide Inflater.RunWith, Inflater.Tie, Inflater.FillsOk, BitSources.BitSource.Valid;
  }

  /** With the single byte 97, for one, the stream is reported as `TINFL_STATUS_ADLER32_MISMATCH`. */
  lemma OneByteLapses()
    ensures A.Checksum([97]) == 98 * 0x1_0000 + 98 != 1
  {
    assert A.Run(A.Sums(1, 0), []) == A.Sums(1, 0);
    assert [97][..0] == [];
  }
}
