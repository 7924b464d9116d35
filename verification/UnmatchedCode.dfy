/**
 Another stream without meaning that is accepted, here with a flat output buffer: its one distance code is
 a 0 bit, and a match comes with a 1 bit in that place. The bit is read as symbol 0, and read again.
 */
module UnmatchedCode {
  import opened Bits
  import opened Options
  import opened Canonical
  import opened LzTokens
  import opened CodeLengthRle
  import opened DecodeTables
  import opened InflateSpec
  import opened InflateSteps
  import opened InflateSlips
  import opened InflateResults
  import opened Inflaters
  import opened MemToMem
  import F = StrayStream
  import S = Streams
  import D = DeflateBits
  import N = DecodeCount

  // ---------------------------------------------------------------- runs without a choice

  /** The machine has a step here, and the code can do nothing else. */
  ghost predicate Firm(cfg: Config, s: State)
  {
    && Step(cfg, s).Some? && !cfg.wraps && (s.core.loc.Copying? ==> Near(s.core.out, s.core.loc.from))
    && (Wants(s.core).Code? ==> Complete(Wants(s.core).lens, 15) && UsedSyms(Wants(s.core).lens) > 1)
  }

  lemma FirmDrift(cfg: Config, s: State, t: State)
    requires Firm(cfg, s) && Drift(cfg, s, t)
    ensures Step(cfg, s) == Some(t)
  {
    hide Next, HuffBits, Kraft, UsedSyms, Complete;
    var k := |s.rest| - |t.rest|;
    var v: nat :| MayRead(s.core, s.rest, v, k) && Onward(cfg, s.core.(pos := s.core.pos + k), v, t.core);
    FirmOnward(cfg, s.core.(pos := s.core.pos + k), v, t.core);
    match Wants(s.core)
    case Nothing => assert s.core.(pos := s.core.pos + 0) == s.core;
    case Bits(n) =>
    case Code(lens) => DecodeUnique(lens, s.rest, v);
  }

  lemma FirmOnward(cfg: Config, c: Core, v: nat, d: Core)
    requires Onward(cfg, c, v, d) && !cfg.wraps && (c.loc.Copying? ==> Near(c.out, c.loc.from))
    ensures Next(cfg, c, v) == Some(d)
  {
    hide Next;
  }

  /** `n` firm steps lead from `s` to `x`. */
  ghost predicate FirmRun(cfg: Config, s: State, x: State, n: nat)
    decreases n
  {
    if n == 0 then s == x else Firm(cfg, s) && FirmRun(cfg, Step(cfg, s).value, x, n - 1)
  }

  ghost predicate Surely(cfg: Config, s: State, x: State)
  {
    exists n: nat :: FirmRun(cfg, s, x, n)
  }

  lemma SurelyThere(cfg: Config, s: State)
    ensures Surely(cfg, s, s)
  {
    assert FirmRun(cfg, s, s, 0);
  }

  lemma SurelyThen(cfg: Config, s: State, u: State, x: State)
    requires Firm(cfg, s) && Step(cfg, s) == Some(u) && Surely(cfg, u, x)
    ensures Surely(cfg, s, x)
  {
    hide Firm, Step;
    var n: nat :| FirmRun(cfg, u, x, n);
    assert FirmRun(cfg, s, x, n + 1);
  }

  lemma {:induction false} FirmReaches(cfg: Config, s: State, x: State, n: nat)
    requires FirmRun(cfg, s, x, n)
    ensures ReachesIn(cfg, s, x, n)
    decreases n
  {
    hide Step;
    if n > 0 {
      FirmReaches(cfg, Step(cfg, s).value, x, n - 1);
    }
  }

  /** Whatever the code does from `s`, it is on the firm run or has passed its end. */
  lemma {:induction false} Funnel(cfg: Config, s: State, x: State, n: nat, t: State, k: nat)
    requires FirmRun(cfg, s, x, n) && DriftsIn(cfg, s, t, k)
    ensures k < n ==> Firm(cfg, t) && t.core.out <= x.core.out
    ensures k >= n ==> DriftsIn(cfg, x, t, k - n)
    decreases n
  {
    hide Firm, Drift, Step;
    if n > 0 {
      if k > 0 {
        var u :| Drift(cfg, s, u) && DriftsIn(cfg, u, t, k - 1);
        FirmDrift(cfg, s, u);
        Funnel(cfg, u, x, n - 1, t, k - 1);
      } else {
        FirmReaches(cfg, s, x, n);
        OutGrows(cfg, s, x, n);
      }
    }
  }

  // ---------------------------------------------------------------- the stream

  const UNMATCHED: seq<u8> := [13, 192, 129, 0, 0, 0, 0, 128, 160, 252, 169, 63, 7, 0, 0]

  /** The code-length code: two bits for lengths 1 and 2, one for a run of zeros. */
  const CL: seq<nat> := [0, 2, 2, 0, 0, 0, 0, 0, 0, 0, 0, 0, 0, 0, 0, 0, 0, 0, 1]

  const DIST: seq<nat> := [1]

  /** Literal 0 in one bit, end of block and length 3 in two. */
  function Lit(): (r: seq<nat>)
    ensures |r| == 258 && r[0] == 1 && r[256] == r[257] == 2 && forall k :: 0 < k < 256 ==> r[k] == 0
  {
    [1] + Rep(0, 255) + [2, 2]
  }

  /** Its bytes, each from the lowest bit on. */
  const BYTE_BITS: seq<seq<bool>> := [
    [true, false, true, true, false, false, false, false],
    [false, false, false, false, false, false, true, true],
    [true, false, false, false, false, false, false, true],
    [false, false, false, false, false, false, false, false],
    [false, false, false, false, false, false, false, false],
    [false, false, false, false, false, false, false, false],
    [false, false, false, false, false, false, false, false],
    [false, false, false, false, false, false, false, true],
    [false, false, false, false, false, true, false, true],
    [false, false, true, true, true, true, true, true],
    [true, false, false, true, false, true, false, true],
    [true, true, true, true, true, true, false, false],
    [true, true, true, false, false, false, false, false],
    [false, false, false, false, false, false, false, false],
    [false, false, false, false, false, false, false, false]]

  ghost function Bit(i: nat): bool
  {
    i < 120 && |BYTE_BITS[i / 8]| == 8 && BYTE_BITS[i / 8][i % 8]
  }

  ghost function Stream(): (r: seq<bool>)
    ensures |r| == 120 && forall i :: 0 <= i < 120 ==> r[i] == Bit(i)
  {
    seq(120, i requires 0 <= i < 120 => Bit(i))
  }

  lemma {:induction false} ByteOf(s: seq<u8>, i: nat)
    requires i < 8 * |s|
    ensures BytesToBits(s)[i] == ToBits(s[i / 8], 8)[i % 8]
  {
    hide ToBits;
    var m := |s| - 1;
    if i < 8 * m {
      ByteOf(s[..m], i);
    } else {
      assert i / 8 == m && i % 8 == i - 8 * m;
    }
  }

  lemma EightBits(v: nat)
    ensures ToBits(v, 8) == [v % 2 == 1, v / 2 % 2 == 1, v / 4 % 2 == 1, v / 8 % 2 == 1, v / 16 % 2 == 1, v / 32 % 2 == 1, v / 64 % 2 == 1, v / 128 % 2 == 1]
  {
    Pow2Values();
    PowerZero();
    hide ToBits, Pow2;
    forall t | 0 <= t < 8
      ensures ToBits(v, 8)[t] == (v / (if t == 0 then 1 else if t == 1 then 2 else if t == 2 then 4 else if t == 3 then 8
                                       else if t == 4 then 16 else if t == 5 then 32 else if t == 6 then 64 else 128) % 2 == 1)
    {
      BitAt(v, 8, t);
    }
  }

  lemma ByteBits(j: nat)
    requires j < 15
    ensures BYTE_BITS[j] == ToBits(UNMATCHED[j], 8)
  {
    if j < 8 {
      FirstBytes(j);
    } else {
      LastBytes(j);
    }
  }

  lemma FirstBytes(j: nat)
    requires j < 8
    ensures BYTE_BITS[j] == ToBits(UNMATCHED[j], 8)
  {
    hide ToBits;
    EightBits(UNMATCHED[j]);
  }

  lemma LastBytes(j: nat)
    requires 8 <= j < 15
    ensures BYTE_BITS[j] == ToBits(UNMATCHED[j], 8)
  {
    hide ToBits;
    EightBits(UNMATCHED[j]);
  }

  lemma StreamBits()
    ensures BytesToBits(UNMATCHED) == Stream()
  {
    hide BytesToBits, ToBits;
    forall i | 0 <= i < 120
      ensures BytesToBits(UNMATCHED)[i] == Stream()[i]
    {
      ByteOf(UNMATCHED, i);
      ByteBits(i / 8);
    }
  }

  // ---------------------------------------------------------------- its fields

  ghost predicate Field(pos: nat, n: nat, v: nat)
  {
    pos + n <= 120 && v < Pow2(n) && Stream()[pos..pos + n] == ToBits(v, n)
  }

  lemma FieldIs(pos: nat, n: nat, v: nat)
    requires pos + n <= 120 && v < Pow2(n) && forall t :: 0 <= t < n ==> Bit(pos + t) == ToBits(v, n)[t]
    ensures Field(pos, n, v)
  {
    hide Bit, Pow2, ToBits;
  }

  lemma FieldValues()
    ensures ToBits(5, 3) == [true, false, true] && ToBits(1, 5) == [true, false, false, false, false] && ToBits(0, 5) == F.Zeros(5)
    ensures ToBits(14, 4) == [false, true, true, true] && ToBits(0, 3) == F.Zeros(3) && ToBits(0, 4) == F.Zeros(4)
    ensures ToBits(1, 3) == [true, false, false] && ToBits(2, 3) == [false, true, false]
  {
    F.ZeroBits(3);
    F.ZeroBits(4);
    F.ZeroBits(5);
    hide ToBits;
    LowOf(5, 3);
    LowOf(1, 5);
    LowOf(14, 4);
    LowOf(1, 3);
    LowOf(2, 3);
  }

  lemma RunValues()
    ensures ToBits(127, 7) == [true, true, true, true, true, true, true]
    ensures ToBits(106, 7) == [false, true, false, true, false, true, true]
  {
    hide ToBits;
    LowOf(127, 7);
    LowOf(106, 7);
  }

  lemma LowOf(v: nat, n: nat)
    requires n <= 8
    ensures ToBits(v, n) == [v % 2 == 1, v / 2 % 2 == 1, v / 4 % 2 == 1, v / 8 % 2 == 1, v / 16 % 2 == 1, v / 32 % 2 == 1, v / 64 % 2 == 1, v / 128 % 2 == 1][..n]
  {
    hide ToBits;
    EightBits(v);
    LowBits(v, 8, n);
  }

  lemma SizeFields()
    ensures Field(0, 3, 5) && Field(3, 5, 1) && Field(8, 5, 0) && Field(13, 4, 14)
  {
    Pow2Values();
    FieldValues();
    hide Pow2, Field, ToBits;
    FieldIs(0, 3, 5);
    FieldIs(3, 5, 1);
    FieldIs(8, 5, 0);
    FieldIs(13, 4, 14);
  }

  lemma LengthField(k: nat)
    requires k < 18
    ensures Zig(k) < 19 && Field(17 + 3 * k, 3, CL[Zig(k)])
  {
    Pow2Values();
    FieldValues();
    hide Pow2, Field, ToBits;
    if k == 2 {
      FieldIs(23, 3, 1);
    } else if k == 15 {
      FieldIs(62, 3, 2);
    } else if k == 17 {
      FieldIs(68, 3, 2);
    } else {
      ZeroField(k);
    }
  }

  lemma ZeroField(k: nat)
    requires k < 18 && k != 2 && k != 15 && k != 17
    ensures CL[Zig(k)] == 0 && Field(17 + 3 * k, 3, 0)
  {
    Pow2Values();
    FieldValues();
    hide Pow2, Field, ToBits;
    FieldIs(17 + 3 * k, 3, 0);
  }

  lemma RunFields()
    ensures Field(74, 7, 127) && Field(82, 7, 106) && Field(100, 4, 0)
  {
    Pow2Values();
    FieldValues();
    RunValues();
    hide Pow2, Field, ToBits;
    FieldIs(74, 7, 127);
    FieldIs(82, 7, 106);
    FieldIs(100, 4, 0);
  }

  // ---------------------------------------------------------------- its codes

  /** Three codes, one of one bit and two of two. */
  ghost predicate ThreeCodes(s: seq<nat>, a: nat, b: nat, c: nat)
  {
    && a < |s| && b < c < |s| && a != b && a != c && s[a] == 1 && s[b] == s[c] == 2
    && forall k :: 0 <= k < |s| && k != a && k != b && k != c ==> s[k] == 0
  }

  lemma CountOne(s: seq<nat>, l: nat, i: nat)
    requires l > 0 && i < |s| && s[i] == l && forall k :: 0 <= k < |s| && k != i ==> s[k] != l
    ensures Count(s, l) == 1
  {
    CountUpdate(s, i, 0, l);
    CountAbsent(s[i := 0], l);
  }

  lemma ThreeCounts(s: seq<nat>, a: nat, b: nat, c: nat)
    requires ThreeCodes(s, a, b, c)
    ensures Count(s, 1) == 1 && Count(s, 2) == 2 && Count(s[..a], 1) == 0 && Count(s[..b], 2) == 0 && Count(s[..c], 2) == 1
  {
    CountOne(s, 1, a);
    CountUpdate(s, b, 0, 2);
    CountOne(s[b := 0], 2, c);
    CountAbsent(s[..a], 1);
    CountAbsent(s[..b], 2);
    CountOne(s[..c], 2, b);
  }

  lemma ThreeAre(s: seq<nat>, a: nat, b: nat, c: nat)
    requires ThreeCodes(s, a, b, c)
    ensures HuffBits(s, a) == [false] && HuffBits(s, b) == [true, false] && HuffBits(s, c) == [true, true]
    ensures Complete(s, 15) && UsedSyms(s) > 1
  {
    ThreeCounts(s, a, b, c);
    ThreeOf(s, a, b, c);
    assert LensUpTo(s, 2);
    N.CodesAreUsed(s, 2);
    assert N.CodesUpTo(s, 0) == 0 && N.CodesUpTo(s, 1) == 1 && N.CodesUpTo(s, 2) == 3;
    assert Used(s, 0) == 0 && Used(s, 1) == 1 && Used(s, 2) == 4 && Pow2(2) == 4;
    hide Used, Complete;
    BeComplete(s, 2);
    CompleteRaise(s, 2, 15);
  }

  lemma BeComplete(s: seq<nat>, l: nat)
    requires LensUpTo(s, l) && Used(s, l) == Pow2(l)
    ensures Complete(s, l)
  {
  }

  lemma ThreeOf(s: seq<nat>, a: nat, b: nat, c: nat)
    requires ThreeCodes(s, a, b, c)
    ensures HuffBits(s, a) == [false] && HuffBits(s, b) == [true, false] && HuffBits(s, c) == [true, true]
  {
    ThreeCounts(s, a, b, c);
    hide Count;
    assert Used(s, 0) == 0 && Used(s, 1) == 1;
    hide Used;
    assert CodeOf(s, a) == 0 && CodeOf(s, b) == 2 && CodeOf(s, c) == 3;
    FirstCodes();
  }

  lemma FirstCodes()
    ensures CodeBits(0, 1) == [false] && CodeBits(2, 2) == [true, false] && CodeBits(3, 2) == [true, true]
  {
    assert CodeBits(1, 1) == [true];
  }

  lemma TheTables()
    ensures ThreeCodes(CL, 18, 1, 2) && ThreeCodes(Lit(), 0, 256, 257)
  {
  }

  /** The only distance code. */
  lemma OneDistance()
    ensures HuffBits(DIST, 0) == [false] && UsedSyms(DIST) == 1
  {
    assert Used(DIST, 0) == 0 && DIST[..0] == [];
    assert CodeBits(0, 1) == [false];
    assert UsedSyms(DIST[..0]) == 0;
  }

  /** A code stands at the position. */
  ghost predicate CodeAt(pos: nat, lens: seq<nat>, v: nat)
  {
    pos <= 120 && Begins(lens, Stream()[pos..], v)
  }

  lemma ShortCode(pos: nat, lens: seq<nat>, v: nat, x: bool)
    requires v < |lens| && lens[v] == 1 && HuffBits(lens, v) == [x] && pos < 120 && Bit(pos) == x
    ensures CodeAt(pos, lens, v)
  {
    hide Bit, HuffBits;
  }

  lemma LongCode(pos: nat, lens: seq<nat>, v: nat, x: bool, y: bool)
    requires v < |lens| && lens[v] == 2 && HuffBits(lens, v) == [x, y] && pos + 1 < 120 && Bit(pos) == x && Bit(pos + 1) == y
    ensures CodeAt(pos, lens, v)
  {
    hide Bit, HuffBits;
  }

  lemma CodeBitsThere()
    ensures Bit(71) && !Bit(72) && !Bit(73) && !Bit(81) && Bit(89) && Bit(90) && Bit(91) && Bit(92) && Bit(93) && !Bit(94)
    ensures !Bit(95) && Bit(96) && Bit(97) && Bit(98) && !Bit(99)
  {
  }

  lemma HeaderCodes()
    ensures CodeAt(71, CL, 1) && CodeAt(73, CL, 18) && CodeAt(81, CL, 18) && CodeAt(89, CL, 2) && CodeAt(91, CL, 2) && CodeAt(93, CL, 1)
  {
    TheTables();
    hide Bit, CodeAt;
    CodeBitsThere();
    ThreeOf(CL, 18, 1, 2);
    hide HuffBits, ThreeCodes;
    LongCode(71, CL, 1, true, false);
    ShortCode(73, CL, 18, false);
    ShortCode(81, CL, 18, false);
    LongCode(89, CL, 2, true, true);
    LongCode(91, CL, 2, true, true);
    LongCode(93, CL, 1, true, false);
  }

  lemma BodyCodes()
    ensures CodeAt(95, Lit(), 0) && CodeAt(96, Lit(), 257) && CodeAt(98, Lit(), 256)
  {
    TheTables();
    hide Bit, CodeAt;
    CodeBitsThere();
    ThreeOf(Lit(), 0, 256, 257);
    hide HuffBits, ThreeCodes;
    ShortCode(95, Lit(), 0, false);
    LongCode(96, Lit(), 257, true, true);
    LongCode(98, Lit(), 256, true, false);
  }

  // ---------------------------------------------------------------- up to the distance

  /** At bit `pos` of the stream, inside its only block. */
  ghost function There(pos: nat, loc: Loc, out: seq<u8>): State
    requires pos <= 120
  {
    State(Core(loc, pos, out, true), Stream()[pos..])
  }

  lemma FieldRead(pos: nat, n: nat, v: nat)
    requires Field(pos, n, v)
    ensures pos + n <= 120 && v < Pow2(n)
    ensures var rest := Stream()[pos..]; n <= |rest| && FromBits(rest[..n]) == v && rest[n..] == Stream()[pos + n..]
  {
    hide FromBits, ToBits, Bit, Pow2;
    FromToBits(v, n);
    assert Stream()[pos..][..n] == Stream()[pos..pos + n];
  }

  lemma GoBits(pos: nat, n: nat, v: nat, loc: Loc, next: Loc, out: seq<u8>, x: State)
    requires Field(pos, n, v) && pos + n <= 120 && !loc.Copying?
    requires ByBits(FlatBuffer(false), Core(loc, pos, out, true), n, v, Core(next, pos + n, out, true))
    requires Surely(FlatBuffer(false), There(pos + n, next, out), x)
    ensures Surely(FlatBuffer(false), There(pos, loc, out), x)
  {
    hide Field, Wants, Next, FromBits, Surely, Stream;
    FieldRead(pos, n, v);
    SurelyThen(FlatBuffer(false), There(pos, loc, out), There(pos + n, next, out), x);
  }

  lemma GoCode(pos: nat, lens: seq<nat>, v: nat, loc: Loc, next: Loc, out: seq<u8>, x: State)
    requires CodeAt(pos, lens, v) && v < |lens| && pos + lens[v] <= 120 && !loc.Copying? && Complete(lens, 15) && UsedSyms(lens) > 1
    requires ByCode(FlatBuffer(false), Core(loc, pos, out, true), lens, lens[v], v, Core(next, pos + lens[v], out, true))
    requires Surely(FlatBuffer(false), There(pos + lens[v], next, out), x)
    ensures Surely(FlatBuffer(false), There(pos, loc, out), x)
  {
    hide *;
    CodeStep(pos, lens, v, loc, next, out);
    SurelyThen(FlatBuffer(false), There(pos, loc, out), There(pos + lens[v], next, out), x);
  }

  lemma CodeStep(pos: nat, lens: seq<nat>, v: nat, loc: Loc, next: Loc, out: seq<u8>)
    requires CodeAt(pos, lens, v) && v < |lens| && pos + lens[v] <= 120 && !loc.Copying? && Complete(lens, 15) && UsedSyms(lens) > 1
    requires ByCode(FlatBuffer(false), Core(loc, pos, out, true), lens, lens[v], v, Core(next, pos + lens[v], out, true))
    ensures Step(FlatBuffer(false), There(pos, loc, out)) == Some(There(pos + lens[v], next, out)) && Firm(FlatBuffer(false), There(pos, loc, out))
  {
    hide *;
    FullIsKraft(lens);
    CodeAtIs(pos, lens, v, loc, next, out);
    StepOnCode(FlatBuffer(false), Core(loc, pos, out, true), Stream()[pos..], lens, v, Core(next, pos + lens[v], out, true));
    SliceTwice(Stream(), pos, lens[v]);
    ThereIs(pos, loc, out);
    ThereIs(pos + lens[v], next, out);
    FirmCode(There(pos, loc, out), lens);
  }

  lemma CodeAtIs(pos: nat, lens: seq<nat>, v: nat, loc: Loc, next: Loc, out: seq<u8>)
    requires CodeAt(pos, lens, v) && v < |lens|
    requires ByCode(FlatBuffer(false), Core(loc, pos, out, true), lens, lens[v], v, Core(next, pos + lens[v], out, true))
    ensures |Stream()| == 120 && pos <= 120 && Begins(lens, Stream()[pos..], v) && Wants(Core(loc, pos, out, true)) == Code(lens)
    ensures Next(FlatBuffer(false), Core(loc, pos + lens[v], out, true), v) == Some(Core(next, pos + lens[v], out, true))
  {
    hide Begins, Wants, Next, Bit;
  }

  lemma ThereIs(pos: nat, loc: Loc, out: seq<u8>)
    requires pos <= 120
    ensures |Stream()| == 120 && There(pos, loc, out) == State(Core(loc, pos, out, true), Stream()[pos..])
  {
  }

  lemma FirmCode(s: State, lens: seq<nat>)
    requires Step(FlatBuffer(false), s).Some? && !s.core.loc.Copying? && Wants(s.core) == Code(lens) && Complete(lens, 15) && UsedSyms(lens) > 1
    ensures Firm(FlatBuffer(false), s)
  {
    hide Step, Wants, Complete, UsedSyms;
  }

  lemma StepOnCode(cfg: Config, c: Core, rest: seq<bool>, lens: seq<nat>, v: nat, d: Core)
    requires Wants(c) == Code(lens) && Kraft(lens, 15) && Begins(lens, rest, v) && Next(cfg, c.(pos := c.pos + lens[v]), v) == Some(d)
    ensures lens[v] <= |rest| && Step(cfg, State(c, rest)) == Some(State(d, rest[lens[v]..]))
  {
    BeginsInside(lens, rest, v);
    hide Wants, Next, Kraft, Begins;
    DecodeUnique(lens, rest, v);
  }

  lemma BeginsInside(lens: seq<nat>, rest: seq<bool>, v: nat)
    requires Begins(lens, rest, v)
    ensures v < |lens| && lens[v] <= |rest|
  {
    hide HuffBits;
  }

  lemma SliceTwice(s: seq<bool>, a: nat, b: nat)
    requires a + b <= |s|
    ensures s[a..][b..] == s[a + b..]
  {
  }

  lemma FullIsKraft(lens: seq<nat>)
    requires Complete(lens, 15)
    ensures Kraft(lens, 15)
  {
  }

  lemma GoFreely(pos: nat, loc: Loc, next: Loc, out: seq<u8>, out': seq<u8>, x: State)
    requires pos <= 120 && (loc.Copying? ==> Near(out, loc.from))
    requires Freely(FlatBuffer(false), Core(loc, pos, out, true), Core(next, pos, out', true))
    requires Surely(FlatBuffer(false), There(pos, next, out'), x)
    ensures Surely(FlatBuffer(false), There(pos, loc, out), x)
  {
    hide Wants, Next, Surely, Stream;
    SurelyThen(FlatBuffer(false), There(pos, loc, out), There(pos, next, out'), x);
  }

  lemma LitParts()
    ensures [1] + Rep(0, 138) + Rep(0, 117) == [1] + Rep(0, 255) && [1] + Rep(0, 255) + [2] + [2] == Lit()
    ensures (Lit() + [1])[..258] == Lit() && (Lit() + [1])[258..] == DIST
  {
  }

  lemma TablesFine()
    ensures TableOk(CL) && TableOk(Lit()) && TableOk(DIST)
  {
    hide *;
    TheTables();
    ThreeAre(CL, 18, 1, 2);
    ThreeAre(Lit(), 0, 256, 257);
    FullIsOk(CL);
    FullIsOk(Lit());
    OneDistance();
    DistIsOk();
  }

  lemma FullIsOk(s: seq<nat>)
    requires Complete(s, 15)
    ensures TableOk(s)
  {
  }

  lemma DistIsOk()
    requires UsedSyms(DIST) == 1
    ensures TableOk(DIST)
  {
    hide UsedSyms;
  }

  /** One code length. */
  lemma LengthGo(pos: nat, v: nat, lens: seq<nat>, next: Loc, x: State)
    requires 1 <= v <= 2 && pos + 2 <= 120 && CodeAt(pos, CL, v) && Complete(CL, 15) && UsedSyms(CL) > 1
    requires next == MoreLens(258, 1, CL, lens + [v]) && Surely(FlatBuffer(false), There(pos + 2, next, []), x)
    ensures Surely(FlatBuffer(false), There(pos, LenCodes(258, 1, CL, lens), []), x)
  {
    hide Complete, UsedSyms, CodeAt, Surely, There, MoreLens;
    hide Wants, Next;
    AtLenCodes(FlatBuffer(false), Core(LenCodes(258, 1, CL, lens), pos, [], true), 258, 1, CL, lens, 2, v);
    GoCode(pos, CL, v, LenCodes(258, 1, CL, lens), next, [], x);
  }

  /** A run of zeros. */
  lemma ZerosGo(pos: nat, extra: nat, lens: seq<nat>, next: Loc, x: State)
    requires pos + 8 <= 120 && CodeAt(pos, CL, 18) && Complete(CL, 15) && UsedSyms(CL) > 1 && Field(pos + 1, 7, extra)
    requires next == MoreLens(258, 1, CL, lens + Rep(0, extra + 11)) && Surely(FlatBuffer(false), There(pos + 8, next, []), x)
    ensures Surely(FlatBuffer(false), There(pos, LenCodes(258, 1, CL, lens), []), x)
  {
    hide Complete, UsedSyms, CodeAt, Field, Surely, There, MoreLens;
    hide Wants, Next;
    var cfg, mid := FlatBuffer(false), LenRun(258, 1, CL, lens, 18);
    AtLenRun(cfg, Core(mid, pos + 1, [], true), 258, 1, CL, lens, 18, extra);
    GoBits(pos + 1, 7, extra, mid, next, [], x);
    AtLenCodes(cfg, Core(LenCodes(258, 1, CL, lens), pos, [], true), 258, 1, CL, lens, 1, 18);
    GoCode(pos, CL, 18, LenCodes(258, 1, CL, lens), mid, [], x);
  }

  lemma ClFull()
    ensures |CL| == 19 && Complete(CL, 15) && UsedSyms(CL) > 1 && TableOk(CL)
  {
    hide *;
    TheTables();
    ThreeAre(CL, 18, 1, 2);
    TablesFine();
    LastLength();
  }

  lemma LastLength()
    ensures |CL| == 19 && forall i :: 18 <= i < 19 ==> CL[Zig(i)] == 0
  {
    assert Zig(18) == 15;
  }

  lemma LitFull()
    ensures Complete(Lit(), 15) && UsedSyms(Lit()) > 1
  {
    hide *;
    TheTables();
    ThreeAre(Lit(), 0, 256, 257);
  }

  lemma StillMore(lens: seq<nat>)
    requires |lens| < 259
    ensures MoreLens(258, 1, CL, lens) == LenCodes(258, 1, CL, lens)
  {
  }

  lemma NoMore()
    ensures MoreLens(258, 1, CL, Lit() + [1]) == Symbol(Lit(), DIST)
  {
    hide TableOk;
    LitParts();
    TablesFine();
  }

  /** The code lengths, run by run. */
  lemma LengthsGo(x: State)
    requires Surely(FlatBuffer(false), There(95, Symbol(Lit(), DIST), []), x)
    ensures Surely(FlatBuffer(false), There(71, LenCodes(258, 1, CL, []), []), x)
  {
    hide *;
    ClFull();
    HeaderCodes();
    RunFields();
    LitParts();
    NoMore();
    var l2, l3, l4 := [1] + Rep(0, 138), [1] + Rep(0, 255), [1] + Rep(0, 255) + [2];
    StillMore([1]);
    StillMore(l2);
    StillMore(l3);
    StillMore(l4);
    StillMore(Lit());
    assert [] + [1] == [1];
    LengthGo(93, 1, Lit(), Symbol(Lit(), DIST), x);
    LengthGo(91, 2, l4, LenCodes(258, 1, CL, Lit()), x);
    LengthGo(89, 2, l3, LenCodes(258, 1, CL, l4), x);
    ZerosGo(81, 106, l2, LenCodes(258, 1, CL, l3), x);
    ZerosGo(73, 127, [1], LenCodes(258, 1, CL, l2), x);
    LengthGo(71, 1, [], LenCodes(258, 1, CL, [1]), x);
  }

  /** The lengths of the code-length code. */
  lemma {:induction false} CodeLengthsGo(k: nat, x: State)
    requires k < 18 && Surely(FlatBuffer(false), There(71, LenCodes(258, 1, CL, []), []), x)
    ensures Surely(FlatBuffer(false), There(17 + 3 * k, ClLens(258, 1, 18, D.Partial(CL, k), k), []), x)
    decreases 18 - k
  {
    hide *;
    ClFull();
    LastLength();
    LengthField(k);
    var cfg, loc := FlatBuffer(false), ClLens(258, 1, 18, D.Partial(CL, k), k);
    var next := if k + 1 < 18 then ClLens(258, 1, 18, D.Partial(CL, k + 1), k + 1) else LenCodes(258, 1, CL, []);
    if k + 1 < 18 {
      CodeLengthsGo(k + 1, x);
    }
    var pos := 17 + 3 * k;
    D.ClNext(cfg, Core(loc, pos, [], true), 258, 1, 18, CL, k);
    D.ClNext(cfg, Core(loc, pos + 3, [], true), 258, 1, 18, CL, k);
    BeByBits(cfg, Core(loc, pos, [], true), 3, CL[Zig(k)], Core(next, pos + 3, [], true));
    FieldRead(pos, 3, CL[Zig(k)]);
    GoBits(pos, 3, CL[Zig(k)], loc, next, [], x);
  }

  lemma BeByBits(cfg: Config, c: Core, n: nat, v: nat, d: Core)
    requires Wants(c) == Bits(n) && Next(cfg, c.(pos := c.pos + n), v) == Some(d)
    ensures ByBits(cfg, c, n, v, d)
  {
    hide Wants, Next;
  }

  /** The header of the block. */
  lemma HeaderGoes(x: State)
    requires Surely(FlatBuffer(false), There(95, Symbol(Lit(), DIST), []), x)
    ensures Surely(FlatBuffer(false), State(S.Start(false), Stream()), x)
  {
    hide *;
    LengthsGo(x);
    CodeLengthsGo(0, x);
    SizeFields();
    NoneYet();
    var cfg := FlatBuffer(false);
    AtTableSizes(cfg, Core(TableSizes([258, 1]), 13, [], true), [258, 1], 14);
    SizesSoFar();
    GoBits(13, 4, 14, TableSizes([258, 1]), ClLens(258, 1, 18, NoLens(), 0), [], x);
    AtTableSizes(cfg, Core(TableSizes([258]), 8, [], true), [258], 0);
    GoBits(8, 5, 0, TableSizes([258]), TableSizes([258, 1]), [], x);
    AtTableSizes(cfg, Core(TableSizes([]), 3, [], true), [], 1);
    GoBits(3, 5, 1, TableSizes([]), TableSizes([258]), [], x);
    OpensDynamic(x);
  }

  lemma NoneYet()
    ensures D.Partial(CL, 0) == NoLens()
  {
  }

  lemma SizesSoFar()
    ensures [] + [1 + MinTableSize(0)] == [258] && [258] + [0 + MinTableSize(1)] == [258, 1]
    ensures var s := [258, 1] + [14 + MinTableSize(2)]; s[0] == 258 && s[1] == 1 && s[2] == 18
    ensures TableSizeBits(0) == TableSizeBits(1) == 5 && TableSizeBits(2) == 4
  {
  }

  lemma OpensDynamic(x: State)
    requires Field(0, 3, 5) && Surely(FlatBuffer(false), There(3, TableSizes([]), []), x)
    ensures Surely(FlatBuffer(false), State(S.Start(false), Stream()), x)
  {
    hide Surely, Wants, Next, Field, Stream, FromBits;
    var cfg := FlatBuffer(false);
    FieldRead(0, 3, 5);
    assert Stream()[0..] == Stream();
    AtHeader(cfg, Core(Header, 0, [], false), 5);
    SurelyThen(cfg, State(S.Start(false), Stream()), There(3, TableSizes([]), []), x);
  }

  /** The literal and the match length. */
  lemma BodyGoes(x: State)
    requires x == There(98, DistSymbol(Lit(), DIST, 3), [0])
    ensures Surely(FlatBuffer(false), There(95, Symbol(Lit(), DIST), []), x)
  {
    hide Surely, There, CodeAt, Complete, UsedSyms, HuffBits, Wants, Next, LengthBase, LengthExtra, TableOk;
    LitFull();
    BodyCodes();
    F.FirstLength();
    var cfg, lit := FlatBuffer(false), Lit();
    hide Lit;
    var loc := Symbol(lit, DIST);
    SurelyThere(cfg, x);
    AtSymbol(cfg, Core(loc, 96, [0], true), lit, DIST, 2, 257);
    GoCode(96, lit, 257, loc, DistSymbol(lit, DIST, 3), [0], x);
    AtEmit(cfg, Core(Emit(lit, DIST, 0), 96, [], true), lit, DIST, 0);
    assert [] + [0] == [0];
    GoFreely(96, Emit(lit, DIST, 0), loc, [], [0], x);
    AtSymbol(cfg, Core(loc, 95, [], true), lit, DIST, 1, 0);
    GoCode(95, lit, 0, loc, Emit(lit, DIST, 0), [], x);
  }

  // ---------------------------------------------------------------- past the guard

  /** What can follow the length: the unmatched bit, the match, the end. */
  datatype Stage = Unmatched | Copied(n: nat) | Ending | Closing | Over

  ghost predicate At(s: State, g: Stage)
  {
    match g
    case Unmatched => s == There(98, DistSymbol(Lit(), DIST, 3), [0])
    case Copied(n) => n <= 3 && |s.core.out| == 1 + n && s == There(98, Copying(Lit(), DIST, 3 - n, 1), s.core.out)
    case Ending => |s.core.out| == 4 && s == There(98, Symbol(Lit(), DIST), s.core.out)
    case Closing => |s.core.out| == 4 && s == There(100, EndAlign, s.core.out)
    case Over => |s.core.out| == 4 && s == There(104, Done(1), s.core.out)
  }

  /** The bit there is not the code, and there is only one code. */
  lemma UnmatchedBit()
    ensures Stream()[98..] != [] && Misses(DIST, Stream()[98..]) && UsedSyms(DIST) == 1
    ensures forall v :: !Begins(DIST, Stream()[98..], v)
  {
    OneDistance();
    CodeBitsThere();
    hide HuffBits, Bit, UsedSyms;
    assert Stream()[98..][0] == Bit(98);
    forall v: nat
      ensures !Begins(DIST, Stream()[98..], v)
    {
    }
  }

  /** It is read as symbol 0 and stays where it is. */
  lemma FromUnmatched(s: State, t: State)
    requires Drift(FlatBuffer(false), s, t) && At(s, Unmatched)
    ensures At(t, Copied(0))
  {
    hide Lit, Wants, Onward, Stream, Misses, UsedSyms, Begins;
    UnmatchedBit();
    WantsWhere(s.core);
    var k := |s.rest| - |t.rest|;
    var v: nat :| MayRead(s.core, s.rest, v, k) && Onward(FlatBuffer(false), s.core.(pos := s.core.pos + k), v, t.core);
    assert k == 0 && v == 0;
    assert s.core.(pos := s.core.pos + 0) == s.core;
    SymbolZero(s.core, t.core);
  }

  lemma SymbolZero(c: Core, d: Core)
    requires Onward(FlatBuffer(false), c, 0, d) && c.loc.DistSymbol? && |c.out| == 1
    ensures d == c.(loc := Copying(c.loc.lit, c.loc.dist, c.loc.len, 1))
  {
    F.FirstLength();
  }

  lemma FromMatch(s: State, t: State, n: nat)
    requires Drift(FlatBuffer(false), s, t) && At(s, Copied(n))
    ensures if n < 3 then At(t, Copied(n + 1)) else At(t, Ending)
  {
    hide Drift, Onward, Wants, Next, Lit, Stream;
    F.WantsCopy(s.core);
    F.ReadsNothing(FlatBuffer(false), s, t);
    F.CopyOnward(FlatBuffer(false), s.core, t.core);
  }

  lemma FromEnd(s: State, t: State)
    requires Drift(FlatBuffer(false), s, t) && At(s, Ending)
    ensures At(t, Closing)
  {
    hide *;
    EndStep(s);
    FirmDrift(FlatBuffer(false), s, t);
  }

  lemma EndStep(s: State)
    requires At(s, Ending)
    ensures Firm(FlatBuffer(false), s) && Step(FlatBuffer(false), s).Some? && At(Step(FlatBuffer(false), s).value, Closing)
  {
    LitFull();
    BodyCodes();
    hide Firm, Step, Complete, UsedSyms, CodeAt, Wants, Next, Lit;
    var out := s.core.out;
    AtSymbol(FlatBuffer(false), Core(Symbol(Lit(), DIST), 98, out, true), Lit(), DIST, 2, 256);
    LitLength();
    CodeStep(98, Lit(), 256, Symbol(Lit(), DIST), EndAlign, out);
  }

  lemma LitLength()
    ensures |Lit()| == 258 && Lit()[256] == 2
  {
  }

  lemma FromAlign(s: State, t: State)
    requires Drift(FlatBuffer(false), s, t) && At(s, Closing)
    ensures At(t, Over)
  {
    hide *;
    AlignStep(s);
    FirmDrift(FlatBuffer(false), s, t);
  }

  lemma AlignStep(s: State)
    requires At(s, Closing)
    ensures Firm(FlatBuffer(false), s) && Step(FlatBuffer(false), s).Some? && At(Step(FlatBuffer(false), s).value, Over)
  {
    RunFields();
    FourLeft();
    hide Firm, Step, Field, Wants, Next, ToByteBoundary;
    var out := s.core.out;
    AtEndAlign(FlatBuffer(false), Core(EndAlign, 100, out, true), 0);
    BitsStep(100, 4, 0, EndAlign, Done(1), out);
  }

  lemma FourLeft()
    ensures ToByteBoundary(100) == 4
  {
  }

  lemma BitsStep(pos: nat, n: nat, v: nat, loc: Loc, next: Loc, out: seq<u8>)
    requires Field(pos, n, v) && pos + n <= 120 && !loc.Copying?
    requires ByBits(FlatBuffer(false), Core(loc, pos, out, true), n, v, Core(next, pos + n, out, true))
    ensures Step(FlatBuffer(false), There(pos, loc, out)) == Some(There(pos + n, next, out)) && Firm(FlatBuffer(false), There(pos, loc, out))
  {
    hide Field, Wants, Next, FromBits, Stream;
    FieldRead(pos, n, v);
  }

  lemma NothingAfter(s: State, t: State)
    requires At(s, Over)
    ensures !Drift(FlatBuffer(false), s, t)
  {
    hide Stream, Lit, Drift;
    NoDrift(FlatBuffer(false), s, t);
  }

  ghost predicate Beyond(s: State)
  {
    exists g :: At(s, g)
  }

  lemma BeyondGoesOn(s: State, t: State)
    requires Drift(FlatBuffer(false), s, t) && Beyond(s)
    ensures Beyond(t)
  {
    hide Drift, At;
    var g :| At(s, g);
    match g
    case Unmatched => FromUnmatched(s, t);
    case Copied(n) => FromMatch(s, t, n);
    case Ending => FromEnd(s, t);
    case Closing => FromAlign(s, t);
    case Over => NothingAfter(s, t);
  }

  lemma {:induction false} StaysBeyond(s: State, t: State, n: nat)
    requires DriftsIn(FlatBuffer(false), s, t, n) && Beyond(s)
    ensures Beyond(t)
    decreases n
  {
    hide Drift, Beyond;
    if n > 0 {
      var u :| Drift(FlatBuffer(false), s, u) && DriftsIn(FlatBuffer(false), u, t, n - 1);
      BeyondGoesOn(s, u);
      StaysBeyond(u, t, n - 1);
    }
  }

  // ---------------------------------------------------------------- the stream strays, and is accepted

  lemma ToTheBit()
    ensures Surely(FlatBuffer(false), State(S.Start(false), Stream()), There(98, DistSymbol(Lit(), DIST, 3), [0]))
  {
    hide *;
    var x := There(98, DistSymbol(Lit(), DIST, 3), [0]);
    BodyGoes(x);
    HeaderGoes(x);
  }

  lemma FirmWay(s: State, x: State) returns (n: nat)
    requires Surely(FlatBuffer(false), s, x)
    ensures FirmRun(FlatBuffer(false), s, x, n)
  {
    n :| FirmRun(FlatBuffer(false), s, x, n);
  }

  /** The machine comes to a bit that is not the one code of its table. */
  lemma UnmatchedStrays()
    ensures Strays(FlatBuffer(false), BytesToBits(UNMATCHED))
  {
    hide *;
    StreamBits();
    ToTheBit();
    var s, x := State(S.Start(false), Stream()), There(98, DistSymbol(Lit(), DIST, 3), [0]);
    var n := FirmWay(s, x);
    FirmReaches(FlatBuffer(false), s, x, n);
    StraysAt(x, n);
  }

  lemma StraysAt(x: State, n: nat)
    requires x == There(98, DistSymbol(Lit(), DIST, 3), [0]) && ReachesIn(FlatBuffer(false), State(S.Start(false), Stream()), x, n)
    ensures Strays(FlatBuffer(false), Stream())
  {
    UnmatchedBit();
    hide Lit, Stream, ReachesIn, Misses, UsedSyms;
    assert Reaches(FlatBuffer(false), State(S.Start(false), Stream()), x);
    BeStray(FlatBuffer(false), Stream(), x.core, x.rest);
  }

  /** Wherever a flat decoder is with these bytes, it is on the way to the bit or past it. */
  lemma AlwaysOnWay(c: Core, p: seq<bool>)
    requires Ran(FlatBuffer(false), BytesToBits(UNMATCHED), c, p)
    ensures (Firm(FlatBuffer(false), State(c, p)) && |c.out| <= 1) || Beyond(State(c, p))
  {
    hide *;
    StreamBits();
    ToTheBit();
    var s, x := State(S.Start(false), Stream()), There(98, DistSymbol(Lit(), DIST, 3), [0]);
    var n := FirmWay(s, x);
    var k := DriftWay(c, p);
    Funnel(FlatBuffer(false), s, x, n, State(c, p), k);
    ThereIs(98, DistSymbol(Lit(), DIST, 3), [0]);
    AtBit(x);
    if k >= n {
      StaysBeyond(x, State(c, p), k - n);
    }
  }

  lemma DriftWay(c: Core, p: seq<bool>) returns (k: nat)
    requires Ran(FlatBuffer(false), BytesToBits(UNMATCHED), c, p)
    ensures DriftsIn(FlatBuffer(false), State(S.Start(false), BytesToBits(UNMATCHED)), State(c, p), k)
  {
    hide DriftsIn, BytesToBits;
    k :| DriftsIn(FlatBuffer(false), State(S.Start(false), BytesToBits(UNMATCHED)), State(c, p), k);
  }

  lemma AtBit(x: State)
    requires x == There(98, DistSymbol(Lit(), DIST, 3), [0])
    ensures Beyond(x)
  {
    assert At(x, Unmatched);
  }

  /** Nothing fails there, nothing is missing, and there are at most four bytes of output. */
  lemma WayFacts(s: State)
    requires (Firm(FlatBuffer(false), s) && |s.core.out| <= 1) || Beyond(s)
    ensures |s.core.out| <= 4 && !s.core.loc.Failed?
    ensures Wants(s.core).Bits? ==> |s.rest| >= Wants(s.core).n
    ensures Wants(s.core).Code? ==> Settled(Wants(s.core).lens, s.rest) || |s.rest| >= 15
  {
    if Firm(FlatBuffer(false), s) {
      hide *;
      FirmFacts(s);
    } else {
      var g :| At(s, g);
      hide *;
      StageFacts(s, g);
    }
  }

  lemma FirmFacts(s: State)
    requires Firm(FlatBuffer(false), s)
    ensures !s.core.loc.Failed?
    ensures Wants(s.core).Bits? ==> |s.rest| >= Wants(s.core).n
    ensures Wants(s.core).Code? ==> Settled(Wants(s.core).lens, s.rest)
  {
    WantsWhere(s.core);
    hide Next, Wants, Complete, UsedSyms, Begins;
  }

  lemma StageFacts(s: State, g: Stage)
    requires At(s, g)
    ensures |s.core.out| <= 4 && !s.core.loc.Failed?
    ensures Wants(s.core).Bits? ==> |s.rest| >= Wants(s.core).n
    ensures Wants(s.core).Code? ==> |s.rest| >= 15
  {
    FourLeft();
    hide Lit, ToByteBoundary, Bit;
  }

  /** A decoder with a flat buffer accepts the stream, which says nothing. */
  method AcceptUnmatched(buf: array<u8>) returns (status: Status)
    requires buf.Length > 4
    modifies buf
    ensures status.Finished? && Strays(FlatBuffer(false), BytesToBits(UNMATCHED)) && forall o :: !Says(FlatBuffer(false), UNMATCHED, o)
  {
    hide *;
    FlatBufferIs(false);
    var i := NewInflater(false, buf, false);
    AreaIs(i, 0, buf.Length);
    var consumed, produced;
    status, consumed, produced := i.Decompress(UNMATCHED, 0, buf.Length, false);
    assert [] + UNMATCHED[..consumed] == UNMATCHED[..consumed] && [] + buf[0..0 + produced] == buf[..produced];
    UnmatchedStrays();
    forall o
      ensures !Says(FlatBuffer(false), UNMATCHED, o)
    {
      if Says(FlatBuffer(false), UNMATCHED, o) {
        SaysNoStray(FlatBuffer(false), UNMATCHED, o);
      }
    }
    MeansIs(i, status, false, consumed == |UNMATCHED|, produced == buf.Length);
    FinishesToo(i, consumed, status, produced == buf.Length);
  }

  lemma FinishesToo(i: Inflater, consumed: nat, status: Status, full: bool)
    requires i.Valid() && i.cfg == FlatBuffer(false) && consumed <= |UNMATCHED| && i.src.taken == UNMATCHED[..consumed]
    requires i.Means(status, false, consumed == |UNMATCHED|, full) && (full ==> |i.dst.written| > 4)
    ensures status.Finished?
  {
    hide *;
    MeansIs(i, status, false, consumed == |UNMATCHED|, full);
    ValidRuns(i);
    FlatBufferIs(false);
    var front, rest := UNMATCHED[..consumed], UNMATCHED[consumed..];
    assert UNMATCHED == front + rest;
    BytesToBitsConcat(front, rest);
    RanMore(i.cfg, BytesToBits(front), CoreBefore(i, 0), i.src.Pending(), BytesToBits(rest));
    var s := State(CoreBefore(i, 0), i.src.Pending() + BytesToBits(rest));
    AlwaysOnWay(s.core, s.rest);
    WayFacts(s);
    AtEnd(i);
    if status.CannotProgress? {
      NoBytes();
      assert rest == [] && s.rest == i.src.Pending();
      F.StarvedIs(i);
    }
  }
}
