/**
 What the inflater's invariant means for a stream as a whole: however input and output are cut into
 pieces, what has been written is the beginning of what the stream says, an error is reported only
 for a stream that is wrong, and a stream that is all there is decoded to its end.
 */
module InflateResults {
  import opened Bits
  import opened Options
  import opened Canonical
  import opened BitSources
  import opened LzTokens
  import opened Outputs
  import opened DecodeTables
  import opened InflateSpec
  import opened InflateRun
  import opened InflateSlips
  import opened Inflaters
  import S = Streams
  import A = Adler

  /** The stream has an outcome: the machine runs to its end on it. */
  ghost predicate HasOutcome(cfg: Config, stream: seq<u8>, t: State)
  {
    Halted(t) && Reaches(cfg, State(S.Start(cfg.zlib), BytesToBits(stream)), t)
  }

  lemma {:induction false} RunsOnIn(cfg: Config, s: State, u: State, t: State, m: nat, n: nat)
    requires ReachesIn(cfg, s, u, m) && ReachesIn(cfg, s, t, n) && Halted(t)
    ensures m <= n && ReachesIn(cfg, u, t, n - m)
    decreases m
  {
    hide *;
    Unfold(cfg, s, u, m);
    Unfold(cfg, s, t, n);
    HaltedStops(cfg, t);
    if m > 0 {
      RunsOnIn(cfg, Step(cfg, s).value, u, t, m - 1, n - 1);
    }
  }

  /** A state on the way to an outcome has that outcome itself. */
  lemma RunsOn(cfg: Config, s: State, u: State, t: State)
    requires Reaches(cfg, s, u) && Reaches(cfg, s, t) && Halted(t)
    ensures Reaches(cfg, u, t)
  {
    var m: nat :| ReachesIn(cfg, s, u, m);
    var n: nat :| ReachesIn(cfg, s, t, n);
    RunsOnIn(cfg, s, u, t, m, n);
  }

  lemma StepGrows(cfg: Config, s: State)
    requires Step(cfg, s).Some?
    ensures s.core.out <= Step(cfg, s).value.core.out
    ensures Pressed(s.core.loc) && !s.core.loc.RawCopy? ==> |Step(cfg, s).value.core.out| == |s.core.out| + 1
    ensures Pressed(s.core.loc) && s.core.loc.RawCopy? ==> Pressed(Step(cfg, s).value.core.loc) && !Step(cfg, s).value.core.loc.RawCopy?
  {
    hide Step, Next, Pressed;
    var v, k := StepIsNext(cfg, s);
    NextGrows(cfg, s.core.(pos := s.core.pos + k), v);
  }

  lemma StepIsNext(cfg: Config, s: State) returns (v: nat, k: nat)
    requires Step(cfg, s).Some?
    ensures Next(cfg, s.core.(pos := s.core.pos + k), v) == Some(Step(cfg, s).value.core)
  {
    hide Next, FromBits, HuffBits, Kraft;
    match Wants(s.core)
    case Nothing => v, k := 0, 0;
    case Bits(n) => v, k := FromBits(s.rest[..n]), n;
    case Code(lens) =>
      v := Decode(lens, s.rest).value;
      k := lens[v];
  }

  lemma NextGrows(cfg: Config, c: Core, v: nat)
    requires Next(cfg, c, v).Some?
    ensures c.out <= Next(cfg, c, v).value.out
    ensures Pressed(c.loc) && !c.loc.RawCopy? ==> |Next(cfg, c, v).value.out| == |c.out| + 1
    ensures Pressed(c.loc) && c.loc.RawCopy? ==> Pressed(Next(cfg, c, v).value.loc) && !Next(cfg, c, v).value.loc.RawCopy?
  {
    hide LensDone, TableOk, FixedLit, FixedDist, ZlibHeaderBad, LengthBase, LengthExtra, DistanceBase, DistanceExtra, NoLens;
  }

  lemma NotPressed(s: State)
    requires Halted(s)
    ensures !Pressed(s.core.loc)
  {
  }

  /** Output only grows, and grows for sure where a byte is about to follow. */
  lemma {:induction false} OutGrows(cfg: Config, s: State, t: State, n: nat)
    requires ReachesIn(cfg, s, t, n)
    ensures s.core.out <= t.core.out
    ensures Pressed(s.core.loc) && Halted(t) ==> |s.core.out| < |t.core.out|
    decreases n
  {
    hide *;
    Unfold(cfg, s, t, n);
    if n == 0 {
      if Halted(t) {
        NotPressed(t);
      }
    } else {
      StepGrows(cfg, s);
      OutGrows(cfg, Step(cfg, s).value, t, n - 1);
    }
  }

  /** The inflater's place in a whole stream it has taken the beginning of. */
  ghost function Place(i: Inflater, stream: seq<u8>): State
    requires i.src.taken <= stream
    reads i`loc, i`final, i.src`taken, i.src`bitBuf, i.src`numBits, i.dst`written
  {
    State(CoreBefore(i, 0), i.src.Pending() + BytesToBits(stream[|i.src.taken|..]))
  }

  lemma ValidRuns(i: Inflater)
    requires i.Valid()
    ensures i.broken || Sound(i.cfg, BytesToBits(i.src.taken), CoreBefore(i, 0), i.src.Pending())
    ensures Ran(i.cfg, BytesToBits(i.src.taken), CoreBefore(i, 0), i.src.Pending())
  {
    hide Sound, Ran, BytesToBits, ToBits, Inflater.Tie, Inflater.FillsOk, Output.Valid, BitSource.Valid;
  }

  lemma OnTheWay(i: Inflater, stream: seq<u8>)
    requires i.Valid() && !i.broken && i.src.taken <= stream
    ensures Reaches(i.cfg, State(S.Start(i.cfg.zlib), BytesToBits(stream)), Place(i, stream))
  {
    hide BytesToBits, Reaches, Inflater.Valid;
    ValidRuns(i);
    var rest := stream[|i.src.taken|..];
    assert stream == i.src.taken + rest;
    BytesToBitsConcat(i.src.taken, rest);
    TakeMore(i.cfg, BytesToBits(i.src.taken), CoreBefore(i, 0), i.src.Pending(), BytesToBits(rest));
  }

  lemma AtEnd(i: Inflater)
    requires i.Valid()
    ensures i.point.PDone? ==> i.loc == Done(i.zAdler) && (i.cfg.zlib || i.zAdler == 1)
    ensures i.point.PFailed? ==> i.loc == Failed
  {
    hide *;
    ValidIs(i);
    TieIs(i);
  }

  lemma HaltedIs(s: State)
    ensures Halted(s) <==> s.core.loc.Done? || s.core.loc.Failed?
  {
  }

  lemma PlaceIs(i: Inflater, stream: seq<u8>)
    requires i.src.taken <= stream
    ensures Place(i, stream).core.loc == i.loc && Place(i, stream).core.out == i.dst.written && Place(i, stream).core.final == i.final
    ensures i.src.taken == stream ==> Place(i, stream).rest == i.src.Pending() && Place(i, stream).core == CoreBefore(i, 0)
  {
    if i.src.taken == stream {
      assert stream[|i.src.taken|..] == [];
      NoBytes();
    }
  }

  lemma OutcomeIs(cfg: Config, stream: seq<u8>, t: State)
    ensures HasOutcome(cfg, stream, t) <==> Halted(t) && Reaches(cfg, State(S.Start(cfg.zlib), BytesToBits(stream)), t)
  {
  }

  lemma SomeRun(cfg: Config, s: State, t: State) returns (n: nat)
    requires Reaches(cfg, s, t)
    ensures ReachesIn(cfg, s, t, n)
  {
    n :| ReachesIn(cfg, s, t, n);
  }

  /**
     Safety: whatever the calls so far, the output is a prefix of the stream's outcome; at the end it
     is the whole of it, and a stream is given up only where it fails.
   */
  lemma NeverWrong(i: Inflater, stream: seq<u8>, t: State)
    requires i.Valid() && !i.broken && i.src.taken <= stream && HasOutcome(i.cfg, stream, t)
    ensures i.dst.written <= t.core.out
    ensures i.point.PDone? ==> t.core.loc == Done(i.zAdler) && i.dst.written == t.core.out
    ensures i.point.PFailed? ==> t.core.loc == Failed && i.dst.written == t.core.out
    ensures Pressed(i.loc) ==> |i.dst.written| < |t.core.out|
  {
    hide *;
    OutcomeIs(i.cfg, stream, t);
    OnTheWay(i, stream);
    var u := Place(i, stream);
    PlaceIs(i, stream);
    RunsOn(i.cfg, State(S.Start(i.cfg.zlib), BytesToBits(stream)), u, t);
    var n := SomeRun(i.cfg, u, t);
    OutGrows(i.cfg, u, t, n);
    AtEnd(i);
    HaltedIs(u);
    if i.point.PDone? || i.point.PFailed? {
      HaltedStops(i.cfg, u);
      Unfold(i.cfg, u, t, n);
    }
  }

  lemma StarvedStuck(i: Inflater)
    requires Starved(i)
    ensures Step(i.cfg, State(CoreBefore(i, 0), i.src.Pending())) == None
  {
    hide Wants, Next, Begins;
  }

  /** Progress: the inflater never asks for input beyond the end of a stream that has an outcome. */
  lemma NeverHungry(i: Inflater, stream: seq<u8>, t: State)
    requires i.Valid() && !i.broken && i.src.taken == stream && HasOutcome(i.cfg, stream, t) && Starved(i)
    ensures i.point.PDone? || i.point.PFailed?
  {
    hide *;
    OutcomeIs(i.cfg, stream, t);
    OnTheWay(i, stream);
    var u := Place(i, stream);
    PlaceIs(i, stream);
    StarvedStuck(i);
    RunsOn(i.cfg, State(S.Start(i.cfg.zlib), BytesToBits(stream)), u, t);
    var n := SomeRun(i.cfg, u, t);
    Unfold(i.cfg, u, t, n);
    HaltedIs(t);
    HaltedPoint(i);
  }

  lemma HaltedPoint(i: Inflater)
    requires i.Valid() && (i.loc.Done? || i.loc.Failed?)
    ensures i.point.PDone? || i.point.PFailed?
  {
    hide *;
    ValidIs(i);
    TieIs(i);
    TablesAre(i, i.loc);
    LenRunIs(i);
    LenCodesIs(i);
    ClLensIs(i);
    TableSizesIs(i);
    CopyingIs(i);
    EveryTable(i);
  }

  lemma EveryTable(i: Inflater)
    requires i.loc.Done? || i.loc.Failed?
    ensures !i.Tables(Symbol(i.litTable.lens, i.distTable.lens)) && !i.Tables(DistSymbol(i.litTable.lens, i.distTable.lens, i.counter))
    ensures i.counter < 256 ==> !i.Tables(Emit(i.litTable.lens, i.distTable.lens, i.counter))
    ensures !i.Tables(LengthBits(i.litTable.lens, i.distTable.lens, i.counter, i.numExtra))
    ensures !i.Tables(DistBits(i.litTable.lens, i.distTable.lens, i.counter, i.dist, i.numExtra))
    ensures !i.Tables(Copying(i.litTable.lens, i.distTable.lens, i.counter, i.dist))
  {
    hide DecodeTable.Valid;
  }

  /** A stream with an outcome never breaks the inflater. */
  lemma NeverStrays(cfg: Config, stream: seq<u8>, t: State, offered: seq<u8>)
    requires HasOutcome(cfg, stream, t) && offered <= stream
    ensures !Strays(cfg, BytesToBits(offered))
  {
    hide BytesToBits, Reaches, Strays;
    var rest := stream[|offered|..];
    assert stream == offered + rest;
    BytesToBitsConcat(offered, rest);
    if Strays(cfg, BytesToBits(offered)) {
      StraysDead(cfg, BytesToBits(offered));
    }
  }

  /**
     What a call's status tells about a stream with an outcome, whatever pieces it came in: `all` says
     that this call offered the rest of it.
   */
  lemma CallOutcome(i: Inflater, status: Status, hasMore: bool, allTaken: bool, full: bool, all: bool, stream: seq<u8>, t: State)
    requires i.Valid() && !i.broken && i.src.taken <= stream && HasOutcome(i.cfg, stream, t)
    requires i.Means(status, hasMore, allTaken, full) && (allTaken && all ==> i.src.taken == stream)
    ensures i.dst.written <= t.core.out
    ensures match status
      case Finished => t.core.loc == Done(i.zAdler) && i.dst.written == t.core.out
      case BadChecksum => t.core.loc == Done(i.zAdler) && i.dst.written == t.core.out
      case Rejected => t.core.loc == Failed && i.dst.written == t.core.out
      case HasMoreOutput => full && |i.dst.written| < |t.core.out|
      case NeedsMoreInput => hasMore && !all
      case CannotProgress => !hasMore && !all
  {
    hide *;
    MeansIs(i, status, hasMore, allTaken, full);
    NeverWrong(i, stream, t);
    if all && (status.NeedsMoreInput? || status.CannotProgress?) {
      NeverHungry(i, stream, t);
    }
  }

  /** The output buffer decides only whether a step fails. */
  lemma StepsAgree(cfg: Config, cfg': Config, s: State)
    requires cfg.zlib == cfg'.zlib && Step(cfg, s).Some? && Step(cfg', s).Some?
    ensures Step(cfg, s) == Step(cfg', s) || Step(cfg, s).value.core.loc.Failed? || Step(cfg', s).value.core.loc.Failed?
  {
    hide Decode, FromBits, LensDone, TableOk, FixedLit, FixedDist, ZlibHeaderBad;
  }

  lemma FailedStays(cfg: Config, s: State, t: State, n: nat)
    requires ReachesIn(cfg, s, t, n) && s.core.loc.Failed?
    ensures t == s
  {
    hide *;
    Unfold(cfg, s, t, n);
    HaltedIs(s);
    HaltedStops(cfg, s);
  }

  lemma {:induction false} RunsAgree(cfg: Config, cfg': Config, s: State, t: State, u: State, m: nat, n: nat)
    requires cfg.zlib == cfg'.zlib && ReachesIn(cfg, s, t, m) && ReachesIn(cfg', s, u, n)
    requires t.core.loc.Done? && u.core.loc.Done?
    ensures t == u
    decreases m
  {
    hide *;
    Unfold(cfg, s, t, m);
    Unfold(cfg', s, u, n);
    HaltedIs(t);
    HaltedIs(u);
    HaltedStops(cfg', t);
    HaltedStops(cfg, u);
    if m > 0 && n > 0 {
      StepsAgree(cfg, cfg', s);
      var a, b := Step(cfg, s).value, Step(cfg', s).value;
      if a.core.loc.Failed? {
        FailedStays(cfg, a, t, m - 1);
      } else if b.core.loc.Failed? {
        FailedStays(cfg', b, u, n - 1);
      } else {
        RunsAgree(cfg, cfg', a, t, u, m - 1, n - 1);
      }
    }
  }

  /**
     The same stream gives the same bytes, however two inflaters are fed, and whether they write into a
     flat buffer or round windows of any size.
   */
  lemma SplitsAgree(i: Inflater, j: Inflater, stream: seq<u8>)
    requires i.Valid() && j.Valid() && !i.broken && !j.broken && i.cfg.zlib == j.cfg.zlib
    requires i.src.taken <= stream && j.src.taken <= stream && i.point.PDone? && j.point.PDone?
    ensures i.dst.written == j.dst.written && i.zAdler == j.zAdler
  {
    hide *;
    var t, u := Place(i, stream), Place(j, stream);
    OnTheWay(i, stream);
    OnTheWay(j, stream);
    PlaceIs(i, stream);
    PlaceIs(j, stream);
    AtEnd(i);
    AtEnd(j);
    var s := State(S.Start(i.cfg.zlib), BytesToBits(stream));
    var m := SomeRun(i.cfg, s, t);
    var n := SomeRun(j.cfg, s, u);
    RunsAgree(i.cfg, j.cfg, s, t, u, m, n);
  }

  /** The end has been reached only where the stream has an outcome. */
  lemma EndedThere(i: Inflater, stream: seq<u8>) returns (t: State)
    requires i.Valid() && !i.broken && i.src.taken <= stream && (i.point.PDone? || i.point.PFailed?)
    ensures HasOutcome(i.cfg, stream, t) && t.core.out == i.dst.written
    ensures t.core.loc == if i.point.PDone? then Done(i.zAdler) else Failed
  {
    hide *;
    t := Place(i, stream);
    OnTheWay(i, stream);
    PlaceIs(i, stream);
    AtEnd(i);
    HaltedIs(t);
    OutcomeIs(i.cfg, stream, t);
  }

  // ---------------------------------------------------------------- no byte too many

  ghost predicate Aligned(c: Core)
  {
    c.loc.Trailer? || c.loc.Done? ==> c.pos % 8 == 0
  }

  lemma StepAligned(cfg: Config, s: State)
    requires Step(cfg, s).Some? && Aligned(s.core)
    ensures Aligned(Step(cfg, s).value.core)
  {
    hide Decode, FromBits, TableOk, FixedLit, FixedDist, ZlibHeaderBad, ToByteBoundary, LengthBase, LengthExtra, DistanceBase, DistanceExtra;
    var c := s.core;
    if c.loc.EndAlign? || c.loc.Trailer? {
      Boundary(c.pos);
      NextByte(c.pos);
    } else {
      StepElsewhere(cfg, s);
    }
  }

  lemma StepElsewhere(cfg: Config, s: State)
    requires Step(cfg, s).Some? && !s.core.loc.EndAlign? && !s.core.loc.Trailer?
    ensures !Step(cfg, s).value.core.loc.Trailer? && !Step(cfg, s).value.core.loc.Done?
  {
    hide Decode, FromBits, TableOk, FixedLit, FixedDist, ZlibHeaderBad, ToByteBoundary, LengthBase, LengthExtra, DistanceBase, DistanceExtra;
  }

  lemma Boundary(pos: nat)
    ensures (pos + ToByteBoundary(pos)) % 8 == 0
  {
  }

  lemma NextByte(pos: nat)
    ensures pos % 8 == 0 ==> (pos + 8) % 8 == 0
  {
  }

  lemma {:induction false} RunAligned(cfg: Config, s: State, t: State, n: nat)
    requires ReachesIn(cfg, s, t, n) && Aligned(s.core)
    ensures Aligned(t.core)
    decreases n
  {
    hide *;
    Unfold(cfg, s, t, n);
    if n > 0 {
      StepAligned(cfg, s);
      RunAligned(cfg, Step(cfg, s).value, t, n - 1);
    }
  }

  lemma StartAligned(cfg: Config)
    ensures Aligned(S.Start(cfg.zlib))
  {
  }

  lemma AlignedIs(c: Core)
    ensures Aligned(c) <==> (c.loc.Trailer? || c.loc.Done? ==> c.pos % 8 == 0)
  {
  }

  /**
     After the put-back of a call that took any input, the end of the stream is the end of what has been
     taken: no bits are left over, and no byte after the stream has been kept.
   */
  lemma NothingKept(i: Inflater)
    requires i.Valid() && !i.broken && i.point.PDone? && i.src.numBits < 8
    ensures i.src.numBits == 0 && CoreBefore(i, 0).pos == 8 * |i.src.taken|
  {
    hide *;
    var t := Place(i, i.src.taken);
    OnTheWay(i, i.src.taken);
    PlaceIs(i, i.src.taken);
    AtEnd(i);
    var n := SomeRun(i.cfg, State(S.Start(i.cfg.zlib), BytesToBits(i.src.taken)), t);
    StartAligned(i.cfg);
    RunAligned(i.cfg, State(S.Start(i.cfg.zlib), BytesToBits(i.src.taken)), t, n);
    AlignedIs(t.core);
    PendingShort(i);
  }

  lemma PendingShort(i: Inflater)
    requires i.Valid()
    ensures i.src.numBits <= 8 * |i.src.taken| && CoreBefore(i, 0).pos == 8 * |i.src.taken| - i.src.numBits
  {
    hide Sound, Ran, BytesToBits, ToBits, Inflater.Tie, Inflater.FillsOk, Output.Valid, BitSource.Valid;
  }

  /** A new inflater (`tinfl_init`). */
  lemma StartValid(i: Inflater)
    requires i.Shape() && i.src.Valid() && i.dst.Valid() && i.src.taken == [] && i.src.numBits == 0 && i.dst.written == []
    requires i.point == (if i.cfg.zlib then PZHeader0 else PHeader) && i.loc == (if i.cfg.zlib then ZHeader0 else Header)
    requires i.zAdler == 1 && !i.final && !i.filling && !i.broken && i.checkAdler == 1 && i.summed == []
    ensures i.Valid() && i.Summed()
  {
    hide *;
    StartRuns(i);
    FillsIs(i);
    TieIs(i);
    SummedIs(i);
    NoneSummed();
    ValidIs(i);
  }

  lemma NoneSummed()
    ensures A.Checksum([]) == 1
  {
  }

  lemma StartRuns(i: Inflater)
    requires i.src.Valid() && i.src.taken == [] && i.src.numBits == 0 && i.dst.written == []
    requires i.loc == (if i.cfg.zlib then ZHeader0 else Header) && !i.final && !i.broken
    ensures i.RunWith(i.src.Pending())
  {
    hide BitSource.Valid, Reaches, Ran, ToBits;
    NoBytes();
    StartSound(i.cfg);
    StartRan(i.cfg);
    assert i.src.Pending() == [];
  }
}
