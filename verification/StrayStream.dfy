/**
 A stream without meaning that the inflater accepts: in a window, three bytes (3, 2, 0) that say a match of
 length 3 at distance 1 before anything has been written.
 */
module StrayStream {
  import opened Bits
  import opened Options
  import opened Canonical
  import opened LzTokens
  import opened DecodeTables
  import opened InflateSpec
  import opened InflateSteps
  import opened InflateSlips
  import opened InflateResults
  import opened Inflaters
  import opened MemToMem
  import S = Streams
  import D = DeflateBits

  const FAR_MATCH: seq<u8> := [3, 2, 0]

  /** The first seven code lengths up to 7 in the fixed literal table belong to symbols from 256 on. */
  lemma FixedLitCode(i: nat)
    requires 256 <= i <= 257
    ensures |FixedLit()| == 288 && FixedLit()[i] == 7 && CodeOf(FixedLit(), i) == i - 256
  {
    var s := FixedLit();
    forall l | 1 <= l <= 6
      ensures Count(s, l) == 0
    {
      CountAbsent(s, l);
    }
    D.UsedEmpty(s, 6);
    CountAbsent(s[..256], 7);
    assert s[..257] == s[..256] + [7];
    assert s[..257][..256] == s[..256];
  }

  lemma FixedDistCode()
    ensures |FixedDist()| == 32 && FixedDist()[0] == 5 && CodeOf(FixedDist(), 0) == 0
  {
    var s := FixedDist();
    forall l | 1 <= l <= 4
      ensures Count(s, l) == 0
    {
      CountAbsent(s, l);
    }
    D.UsedEmpty(s, 4);
    assert s[..0] == [];
  }

  function Zeros(n: nat): (r: seq<bool>)
    ensures |r| == n && forall k :: 0 <= k < n ==> !r[k]
  {
    seq(n, _ => false)
  }

  lemma {:induction false} CodeZeros(n: nat)
    ensures CodeBits(0, n) == Zeros(n)
  {
    if n > 0 {
      CodeZeros(n - 1);
    }
  }

  lemma {:induction false} ZeroBits(n: nat)
    ensures ToBits(0, n) == Zeros(n)
  {
    if n > 0 {
      ZeroBits(n - 1);
    }
  }

  lemma FixedCodes()
    ensures HuffBits(FixedLit(), 256) == Zeros(7) && HuffBits(FixedLit(), 257) == Zeros(6) + [true]
    ensures HuffBits(FixedDist(), 0) == Zeros(5)
  {
    FixedLitCode(256);
    FixedLitCode(257);
    FixedDistCode();
    CodeZeros(5);
    CodeZeros(6);
    CodeZeros(7);
    hide FixedLit, FixedDist, CodeOf;
    assert CodeBits(1, 7) == CodeBits(0, 6) + [true];
  }

  /** The stream's bits: block header, match length, distance, end of block, padding. */
  ghost function Parts(): seq<bool>
  {
    CodeSizes();
    ToBits(3, 3) + (HuffBits(FixedLit(), 257) + (HuffBits(FixedDist(), 0) + (HuffBits(FixedLit(), 256) + ToBits(0, 2))))
  }

  lemma NextBit(v: nat, n: nat)
    requires n > 0
    ensures ToBits(v, n) == [v % 2 == 1] + ToBits(v / 2, n - 1)
  {
  }

  lemma SmallBits()
    ensures ToBits(3, 3) == [true, true, false] && ToBits(3, 8) == [true, true] + Zeros(6) && ToBits(2, 8) == [false, true] + Zeros(6)
    ensures ToBits(0, 8) == Zeros(8) && ToBits(0, 2) == Zeros(2)
  {
    ZeroBits(8);
    ZeroBits(6);
    ZeroBits(2);
    ZeroBits(1);
    hide ToBits;
    NextBit(3, 3);
    NextBit(1, 2);
    NextBit(3, 8);
    NextBit(1, 7);
    NextBit(2, 8);
  }

  lemma ThreeBytes(a: u8, b: u8, c: u8)
    ensures BytesToBits([a, b, c]) == ToBits(a, 8) + ToBits(b, 8) + ToBits(c, 8)
  {
    hide ToBits, BytesToBits;
    NoBytes();
    BytesSnoc([], a);
    BytesSnoc([a], b);
    BytesSnoc([a, b], c);
    assert [] + [a] == [a] && [a] + [b] == [a, b] && [a, b] + [c] == [a, b, c];
    assert [] + ToBits(a, 8) == ToBits(a, 8);
  }

  lemma FarMatchBits()
    ensures BytesToBits(FAR_MATCH) == Parts()
  {
    hide HuffBits, FixedLit, FixedDist, ToBits, BytesToBits;
    CodeSizes();
    FixedCodes();
    ThreeBytes(3, 2, 0);
    SmallBits();
    var x := [true, true] + Zeros(6) + ([false, true] + Zeros(6)) + Zeros(8);
    var y := [true, true, false] + ((Zeros(6) + [true]) + (Zeros(5) + (Zeros(7) + Zeros(2))));
    assert |x| == |y| == 24;
    forall k | 0 <= k < 24
      ensures x[k] == y[k]
    {
    }
    assert x == y;
  }

  lemma CodeSizes()
    ensures |FixedLit()| == 288 && FixedLit()[256] == FixedLit()[257] == 7 && |FixedDist()| == 32 && FixedDist()[0] == 5
  {
    FixedLitCode(256);
    FixedLitCode(257);
    FixedDistCode();
  }

  // ---------------------------------------------------------------- the only way through it

  /** The states the code passes through, with any three bytes for the match. */
  datatype Stage = Opening | Length | Distance | Copied(n: nat) | Ending | Closing | Over

  ghost function After(n: nat): seq<bool>
    requires n <= 4
  {
    CodeSizes();
    var b := ToBits(0, 2);
    if n == 0 then b
    else if n == 1 then HuffBits(FixedLit(), 256) + b
    else if n == 2 then HuffBits(FixedDist(), 0) + (HuffBits(FixedLit(), 256) + b)
    else if n == 3 then HuffBits(FixedLit(), 257) + (HuffBits(FixedDist(), 0) + (HuffBits(FixedLit(), 256) + b))
    else Parts()
  }

  ghost predicate At(s: State, g: Stage)
  {
    match g
    case Opening => s == State(Core(Header, 0, [], false), Parts())
    case Length => s == State(Core(Symbol(FixedLit(), FixedDist()), 3, [], true), After(3))
    case Distance => s == State(Core(DistSymbol(FixedLit(), FixedDist(), 3), 10, [], true), After(2))
    case Copied(n) => n <= 3 && |s.core.out| == n && s == State(Core(Copying(FixedLit(), FixedDist(), 3 - n, 1), 15, s.core.out, true), After(1))
    case Ending => |s.core.out| == 3 && s == State(Core(Symbol(FixedLit(), FixedDist()), 15, s.core.out, true), After(1))
    case Closing => |s.core.out| == 3 && s == State(Core(EndAlign, 22, s.core.out, true), After(0))
    case Over => |s.core.out| == 3 && s == State(Core(Done(1), 24, s.core.out, true), [])
  }

  ghost predicate OnTrail(s: State)
  {
    exists g :: At(s, g)
  }

  lemma ReadsBits(cfg: Config, s: State, t: State, n: nat, v: nat, rest: seq<bool>)
    requires Drift(cfg, s, t) && Wants(s.core) == Bits(n) && s.rest == ToBits(v, n) + rest && v < Pow2(n)
    ensures t.rest == rest && Onward(cfg, s.core.(pos := s.core.pos + n), v, t.core)
  {
    hide Wants, Onward, ToBits, FromBits;
    FromToBits(v, n);
    assert s.rest[..n] == ToBits(v, n);
  }

  /** A full table leaves no choice. */
  lemma ReadsCode(cfg: Config, s: State, t: State, lens: seq<nat>, v: nat, rest: seq<bool>)
    requires Drift(cfg, s, t) && Wants(s.core) == Code(lens) && Complete(lens, 15) && UsedSyms(lens) > 1
    requires v < |lens| && lens[v] > 0 && s.rest == HuffBits(lens, v) + rest
    ensures t.rest == rest && Onward(cfg, s.core.(pos := s.core.pos + lens[v]), v, t.core)
  {
    hide Wants, Onward, HuffBits, Kraft, UsedSyms, Complete;
    var k := |s.rest| - |t.rest|;
    var w: nat :| MayRead(s.core, s.rest, w, k) && Onward(cfg, s.core.(pos := s.core.pos + k), w, t.core);
    assert Begins(lens, s.rest, v);
    PrefixFree(lens, v, w, s.rest, 15);
  }

  lemma ReadsNothing(cfg: Config, s: State, t: State)
    requires Drift(cfg, s, t) && Wants(s.core) == Nothing
    ensures t.rest == s.rest && Onward(cfg, s.core, 0, t.core)
  {
    hide Wants, Onward;
    assert s.core.(pos := s.core.pos + 0) == s.core;
  }

  lemma ManyUsed(s: seq<nat>)
    requires |s| >= 2 && s[|s| - 1] > 0 && s[|s| - 2] > 0
    ensures UsedSyms(s) > 1
  {
    var a := s[..|s| - 1];
    assert UsedSyms(s) == UsedSyms(a) + 1 && UsedSyms(a) == UsedSyms(a[..|a| - 1]) + 1;
  }

  lemma FixedFull()
    ensures Complete(FixedLit(), 15) && UsedSyms(FixedLit()) > 1 && Complete(FixedDist(), 15) && UsedSyms(FixedDist()) > 1
  {
    hide Used, UsedSyms;
    D.FixedComplete();
    ManyUsed(FixedLit());
    ManyUsed(FixedDist());
  }

  lemma OnlyNext(cfg: Config, c: Core, v: nat, d: Core)
    requires Onward(cfg, c, v, d) && !c.loc.DistBits? && !c.loc.DistSymbol? && !c.loc.Copying?
    ensures Next(cfg, c, v) == Some(d)
  {
    hide Next;
  }

  lemma FromOpening(cfg: Config, s: State, t: State)
    requires Drift(cfg, s, t) && At(s, Opening)
    ensures At(t, Length)
  {
    hide Drift, Onward, Wants, Next, ToBits, FixedLit, FixedDist, HuffBits;
    CodeSizes();
    Pow2Values();
    AtHeader(cfg, s.core, 3);
    ReadsBits(cfg, s, t, 3, 3, After(3));
    OnlyNext(cfg, s.core.(pos := 3), 3, t.core);
  }

  lemma FromLength(cfg: Config, s: State, t: State)
    requires Drift(cfg, s, t) && At(s, Length)
    ensures At(t, Distance)
  {
    hide Drift, Onward, Wants, Next, ToBits, FixedLit, FixedDist, HuffBits, Complete, UsedSyms;
    CodeSizes();
    FixedFull();
    FirstLength();
    AtSymbol(cfg, s.core, FixedLit(), FixedDist(), 7, 257);
    ReadsCode(cfg, s, t, FixedLit(), 257, After(2));
    OnlyNext(cfg, s.core.(pos := 10), 257, t.core);
  }

  lemma FirstLength()
    ensures LengthBase(0) == 3 && LengthExtra(0) == 0 && DistanceBase(0) == 1 && DistanceExtra(0) == 0
  {
  }

  /** The distance is not checked. */
  lemma FromDistance(cfg: Config, s: State, t: State)
    requires Drift(cfg, s, t) && At(s, Distance) && cfg.wraps
    ensures At(t, Copied(0))
  {
    hide Drift, Onward, Wants, Next, ToBits, FixedLit, FixedDist, HuffBits, Complete, UsedSyms;
    CodeSizes();
    FixedFull();
    WantsWhere(s.core);
    ReadsCode(cfg, s, t, FixedDist(), 0, After(1));
    FarOnward(cfg, s.core.(pos := 15), t.core);
  }

  lemma FarOnward(cfg: Config, c: Core, d: Core)
    requires cfg.wraps && Onward(cfg, c, 0, d) && c.loc.DistSymbol? && c.out == []
    ensures d == c.(loc := Copying(c.loc.lit, c.loc.dist, c.loc.len, 1))
  {
    FirstLength();
  }

  lemma FromCopied(cfg: Config, s: State, t: State, n: nat)
    requires Drift(cfg, s, t) && At(s, Copied(n))
    ensures if n < 3 then At(t, Copied(n + 1)) else At(t, Ending)
  {
    hide Drift, Onward, Wants, Next, ToBits, FixedLit, FixedDist, HuffBits;
    WantsCopy(s.core);
    ReadsNothing(cfg, s, t);
    CopyOnward(cfg, s.core, t.core);
  }

  lemma WantsCopy(c: Core)
    requires c.loc.Copying?
    ensures Wants(c) == Nothing
  {
  }

  lemma CopyOnward(cfg: Config, c: Core, d: Core)
    requires Onward(cfg, c, 0, d) && c.loc.Copying?
    ensures c.loc.len == 0 ==> d == c.(loc := Symbol(c.loc.lit, c.loc.dist))
    ensures c.loc.len > 0 ==> |d.out| == |c.out| + 1 && d == c.(loc := Copying(c.loc.lit, c.loc.dist, c.loc.len - 1, c.loc.from), out := d.out)
  {
  }

  lemma FromEnding(cfg: Config, s: State, t: State)
    requires Drift(cfg, s, t) && At(s, Ending)
    ensures At(t, Closing)
  {
    hide Drift, Onward, Wants, Next, ToBits, FixedLit, FixedDist, HuffBits, Complete, UsedSyms;
    CodeSizes();
    FixedFull();
    AtSymbol(cfg, s.core, FixedLit(), FixedDist(), 7, 256);
    ReadsCode(cfg, s, t, FixedLit(), 256, After(0));
    OnlyNext(cfg, s.core.(pos := 22), 256, t.core);
  }

  lemma FromClosing(cfg: Config, s: State, t: State)
    requires Drift(cfg, s, t) && At(s, Closing) && !cfg.zlib
    ensures At(t, Over)
  {
    hide Drift, Onward, Wants, Next, ToBits;
    Pow2Values();
    TwoLeft();
    AtEndAlign(cfg, s.core, 0);
    assert ToBits(0, 2) + [] == ToBits(0, 2);
    ReadsBits(cfg, s, t, 2, 0, []);
    OnlyNext(cfg, s.core.(pos := 24), 0, t.core);
  }

  lemma TwoLeft()
    ensures ToByteBoundary(22) == 2
  {
  }

  lemma OverIsOver(cfg: Config, s: State, t: State)
    requires At(s, Over)
    ensures !Drift(cfg, s, t)
  {
    hide Drift;
    NoDrift(cfg, s, t);
  }

  lemma TrailGoesOn(cfg: Config, s: State, t: State)
    requires Drift(cfg, s, t) && OnTrail(s) && cfg.wraps && !cfg.zlib
    ensures OnTrail(t)
  {
    hide Drift, At;
    var g :| At(s, g);
    match g
    case Opening => FromOpening(cfg, s, t);
    case Length => FromLength(cfg, s, t);
    case Distance => FromDistance(cfg, s, t);
    case Copied(n) => FromCopied(cfg, s, t, n);
    case Ending => FromEnding(cfg, s, t);
    case Closing => FromClosing(cfg, s, t);
    case Over => OverIsOver(cfg, s, t);
  }

  lemma {:induction false} StaysOnTrail(cfg: Config, s: State, t: State, n: nat)
    requires DriftsIn(cfg, s, t, n) && OnTrail(s) && cfg.wraps && !cfg.zlib
    ensures OnTrail(t)
    decreases n
  {
    hide Drift, OnTrail;
    if n > 0 {
      var u :| Drift(cfg, s, u) && DriftsIn(cfg, u, t, n - 1);
      TrailGoesOn(cfg, s, u);
      StaysOnTrail(cfg, u, t, n - 1);
    }
  }

  /** Wherever a window decoder is with these bytes, it is on the trail. */
  lemma AlwaysOnTrail(c: Core, p: seq<bool>)
    requires Ran(WindowBuffer(false), BytesToBits(FAR_MATCH), c, p)
    ensures OnTrail(State(c, p))
  {
    hide DriftsIn, OnTrail, BytesToBits, Parts;
    FarMatchBits();
    var s := State(S.Start(false), Parts());
    TrailHead(s);
    var n: nat :| DriftsIn(WindowBuffer(false), s, State(c, p), n);
    StaysOnTrail(WindowBuffer(false), s, State(c, p), n);
  }

  lemma TrailHead(s: State)
    requires s == State(S.Start(false), Parts())
    ensures OnTrail(s)
  {
    hide Parts;
    assert At(s, Opening);
  }

  /** On the trail nothing fails, nothing is missing, and there are at most three bytes of output. */
  lemma TrailFacts(s: State)
    requires OnTrail(s)
    ensures |s.core.out| <= 3 && !s.core.loc.Failed?
    ensures Wants(s.core).Bits? ==> |s.rest| >= Wants(s.core).n
    ensures Wants(s.core).Code? ==> Settled(Wants(s.core).lens, s.rest)
  {
    hide FixedLit, FixedDist, HuffBits, ToBits;
    CodeSizes();
    TwoLeft();
    FirstCode(FixedLit(), 257, After(2));
    FirstCode(FixedDist(), 0, After(1));
    FirstCode(FixedLit(), 256, After(0));
  }

  lemma FirstCode(lens: seq<nat>, v: nat, rest: seq<bool>)
    requires v < |lens| && lens[v] > 0
    ensures Settled(lens, HuffBits(lens, v) + rest)
  {
    hide HuffBits;
    assert Begins(lens, HuffBits(lens, v) + rest, v);
  }

  // ---------------------------------------------------------------- the stream strays, and is accepted

  /** The machine comes to the distance with nothing written. */
  lemma FarMatchStrays()
    ensures Strays(WindowBuffer(false), BytesToBits(FAR_MATCH))
  {
    hide FixedLit, FixedDist, HuffBits, ToBits, BytesToBits, Reaches, Wants, Next, Kraft;
    var cfg := WindowBuffer(false);
    CodeSizes();
    FixedFull();
    FarMatchBits();
    Pow2Values();
    FirstLength();
    var a, b, c := Core(Header, 0, [], false), Core(Symbol(FixedLit(), FixedDist()), 3, [], true), Core(DistSymbol(FixedLit(), FixedDist(), 3), 10, [], true);
    AtHeader(cfg, a, 3);
    StepBits(cfg, a, b, 3, 3, After(3));
    AtSymbol(cfg, b, FixedLit(), FixedDist(), 7, 257);
    FullKraft();
    StepCode(cfg, b, c, FixedLit(), 257, After(2));
    ReachesTrans(cfg, State(a, Parts()), State(b, After(3)), State(c, After(2)));
    assert Begins(FixedDist(), After(2), 0);
    assert FarSymbol(c, After(2), 0);
    BeStray(cfg, Parts(), c, After(2));
  }

  lemma FullKraft()
    ensures Kraft(FixedLit(), 15) && Kraft(FixedDist(), 15)
  {
    hide FixedLit, FixedDist;
    FixedFull();
  }

  /** A window decoder accepts the stream, which says nothing. */
  method AcceptFarMatch() returns (status: Status)
    ensures status.Finished? && Strays(WindowBuffer(false), BytesToBits(FAR_MATCH)) && forall o :: !Says(WindowBuffer(false), FAR_MATCH, o)
  {
    hide *;
    WindowIs(false);
    var dict := new u8[DICT_SIZE](_ => 0);
    var i := NewInflater(false, dict, true);
    AreaIs(i, 0, DICT_SIZE);
    var consumed, produced;
    status, consumed, produced := i.Decompress(FAR_MATCH, 0, DICT_SIZE, false);
    assert [] + FAR_MATCH[..consumed] == FAR_MATCH[..consumed] && [] + dict[0..0 + produced] == dict[..produced];
    FarMatchStrays();
    forall o
      ensures !Says(WindowBuffer(false), FAR_MATCH, o)
    {
      if Says(WindowBuffer(false), FAR_MATCH, o) {
        SaysNoStray(WindowBuffer(false), FAR_MATCH, o);
      }
    }
    MeansIs(i, status, false, consumed == |FAR_MATCH|, produced == DICT_SIZE);
    MustFinish(i, consumed, status, produced == DICT_SIZE);
  }

  lemma MustFinish(i: Inflater, consumed: nat, status: Status, full: bool)
    requires i.Valid() && i.cfg == WindowBuffer(false) && consumed <= |FAR_MATCH| && i.src.taken == FAR_MATCH[..consumed]
    requires i.Means(status, false, consumed == |FAR_MATCH|, full) && (full ==> |i.dst.written| > 3)
    ensures status.Finished?
  {
    hide *;
    MeansIs(i, status, false, consumed == |FAR_MATCH|, full);
    ValidRuns(i);
    WindowIs(false);
    var front, rest := FAR_MATCH[..consumed], FAR_MATCH[consumed..];
    assert FAR_MATCH == front + rest;
    BytesToBitsConcat(front, rest);
    RanMore(i.cfg, BytesToBits(front), CoreBefore(i, 0), i.src.Pending(), BytesToBits(rest));
    var s := State(CoreBefore(i, 0), i.src.Pending() + BytesToBits(rest));
    AlwaysOnTrail(s.core, s.rest);
    TrailFacts(s);
    AtEnd(i);
    if status.CannotProgress? {
      NoBytes();
      assert rest == [] && s.rest == i.src.Pending();
      StarvedIs(i);
    }
  }

  lemma StarvedIs(i: Inflater)
    requires Starved(i)
    ensures var w := Wants(CoreBefore(i, 0));
      (w.Bits? && |i.src.Pending()| < w.n) || (w.Code? && !Settled(w.lens, i.src.Pending()) && |i.src.Pending()| < 15)
  {
    hide Wants, Settled;
  }
}
