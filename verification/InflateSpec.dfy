/**
 What a DEFLATE stream means (section 3.2 of RFC 1951, section 2.2 of RFC 1950), as a deterministic
 machine over bits. Its control points are those at which `tinfl_decompress` can be suspended.

 A step reads a fixed number of bits, or one Huffman code, or nothing; what it does next depends on
 the value read and never on the bits beyond it.
 */
module InflateSpec {
  import opened Bits
  import opened Canonical
  import opened LzTokens
  import opened CodeLengthRle
  import opened Options

  /** `wraps`: output goes round a window of `window` bytes; otherwise it is one flat buffer. */
  datatype Config = Config(zlib: bool, wraps: bool, window: nat)

  datatype Loc =
    | ZHeader0
    | ZHeader1(h0: nat)
    | Header
    | RawAlign
    | RawHeader(bytes: seq<nat>)
    | RawCopy(left: nat)
    | RawByte(left: nat, b: u8)
    | TableSizes(sizes: seq<nat>)
    | ClLens(n0: nat, n1: nat, n2: nat, cl: seq<nat>, k: nat)
    | LenCodes(n0: nat, n1: nat, cl: seq<nat>, lens: seq<nat>)
    | LenRun(n0: nat, n1: nat, cl: seq<nat>, lens: seq<nat>, sym: nat)
    | Symbol(lit: seq<nat>, dist: seq<nat>)
    | Emit(lit: seq<nat>, dist: seq<nat>, b: u8)
    | LengthBits(lit: seq<nat>, dist: seq<nat>, base: nat, extra: nat)
    | DistSymbol(lit: seq<nat>, dist: seq<nat>, len: nat)
    | DistBits(lit: seq<nat>, dist: seq<nat>, len: nat, base: nat, extra: nat)
    | Copying(lit: seq<nat>, dist: seq<nat>, len: nat, from: nat)
    | EndAlign
    | Trailer(k: nat, adler: nat)
    | Done(adler: nat)
    | Failed

  /** Everything but the unread bits: control point, bits read so far, output so far, final-block flag. */
  datatype Core = Core(loc: Loc, pos: nat, out: seq<u8>, final: bool)

  datatype State = State(core: Core, rest: seq<bool>)

  datatype Want = Bits(n: nat) | Code(lens: seq<nat>) | Nothing | Halt

  const DEZIGZAG: seq<nat> := [16, 17, 18, 0, 8, 7, 9, 6, 10, 5, 11, 4, 12, 3, 13, 2, 14, 1, 15]

  /** The symbol whose code length is sent in place `i`. */
  function Zig(i: nat): (x: nat)
    requires i < 19
    ensures x < 19
  {
    DEZIGZAG[i]
  }

  function ToByteBoundary(pos: nat): (n: nat)
    ensures n < 8 && (pos + n) % 8 == 0
  {
    (8 - pos % 8) % 8
  }

  function TableSizeBits(k: nat): nat { if k < 2 then 5 else 4 }

  function MinTableSize(k: nat): nat { if k == 0 then 257 else if k == 1 then 1 else 4 }

  function UsedSyms(s: seq<nat>): nat
  {
    if s == [] then 0 else UsedSyms(s[..|s| - 1]) + (if s[|s| - 1] > 0 then 1 else 0)
  }

  /** The inflater accepts a table of at most one code, or one with Kraft sum exactly 1. */
  predicate TableOk(s: seq<nat>)
  {
    (forall i :: 0 <= i < |s| ==> s[i] <= 15) && (UsedSyms(s) <= 1 || Used(s, 15) == Pow2(15))
  }

  function NoLens(): (r: seq<nat>)
    ensures |r| == 19 && forall i :: 0 <= i < 19 ==> r[i] == 0
  {
    seq(19, _ => 0)
  }

  function FixedLit(): seq<nat>
  {
    seq(144, _ => 8) + seq(112, _ => 9) + seq(24, _ => 7) + seq(8, _ => 8)
  }

  function FixedDist(): seq<nat>
  {
    seq(32, _ => 5)
  }

  predicate ZlibHeaderBad(cfg: Config, h0: nat, h1: nat)
  {
    || (h0 * 256 + h1) % 31 != 0 || (h1 / 32) % 2 == 1 || h0 % 16 != 8
    || (cfg.wraps && (Pow2(8 + h0 / 16) > 32768 || cfg.window < Pow2(8 + h0 / 16)))
  }

  /** What the machine reads at a control point. */
  function Wants(c: Core): Want
  {
    match c.loc
    case ZHeader0 => Bits(8)
    case ZHeader1(_) => Bits(8)
    case Header => Bits(3)
    case RawAlign => Bits(ToByteBoundary(c.pos))
    case RawHeader(_) => Bits(8)
    case RawCopy(left) => if left == 0 then Nothing else Bits(8)
    case RawByte(_, _) => Nothing
    case TableSizes(sizes) => Bits(TableSizeBits(|sizes|))
    case ClLens(_, _, _, _, _) => Bits(3)
    case LenCodes(_, _, cl, _) => Code(cl)
    case LenRun(_, _, _, _, sym) => Bits(ExtraBits(sym))
    case Symbol(lit, _) => Code(lit)
    case Emit(_, _, _) => Nothing
    case LengthBits(_, _, _, extra) => Bits(extra)
    case DistSymbol(_, dist, _) => Code(dist)
    case DistBits(_, _, _, _, extra) => Bits(extra)
    case Copying(_, _, _, _) => Nothing
    case EndAlign => Bits(ToByteBoundary(c.pos))
    case Trailer(_, _) => Bits(8)
    case Done(_) => Halt
    case Failed => Halt
  }

  function AfterBlock(c: Core): Core
  {
    c.(loc := if c.final then EndAlign else Header)
  }

  /** All lengths read: split them and check both tables. */
  function LensDone(n0: nat, n1: nat, lens: seq<nat>): Loc
  {
    if |lens| != n0 + n1 || !TableOk(lens[n0..]) || !TableOk(lens[..n0]) then Failed else Symbol(lens[..n0], lens[n0..])
  }

  function MoreLens(n0: nat, n1: nat, cl: seq<nat>, lens: seq<nat>): Loc
  {
    if |lens| < n0 + n1 then LenCodes(n0, n1, cl, lens) else LensDone(n0, n1, lens)
  }

  /** A reference before the start of the output is rejected in a flat buffer and undefined in a window. */
  function StartCopy(cfg: Config, c: Core, lit: seq<nat>, dist: seq<nat>, len: nat, from: nat): Option<Core>
  {
    if 1 <= from <= |c.out| then Some(c.(loc := Copying(lit, dist, len, from)))
    else if cfg.wraps then None
    else Some(c.(loc := Failed))
  }

  /** Where the machine goes after reading value `v`; `c.pos` already counts the bits read. */
  function Next(cfg: Config, c: Core, v: nat): Option<Core>
  {
    match c.loc
    case ZHeader0 => Some(c.(loc := ZHeader1(v)))
    case ZHeader1(h0) => Some(c.(loc := if ZlibHeaderBad(cfg, h0, v) then Failed else Header))
    case Header =>
      var c' := c.(final := v % 2 == 1);
      Some(c'.(loc :=
        if v / 2 == 0 then RawAlign
        else if v / 2 == 1 then Symbol(FixedLit(), FixedDist())
        else if v / 2 == 2 then TableSizes([])
        else Failed))
    case RawAlign => Some(c.(loc := RawHeader([])))
    case RawHeader(bytes) =>
      if |bytes| < 3 then Some(c.(loc := RawHeader(bytes + [v])))
      else if bytes[0] + 256 * bytes[1] != 65535 - (bytes[2] + 256 * v) then Some(c.(loc := Failed))
      else Some(c.(loc := RawCopy(bytes[0] + 256 * bytes[1])))
    case RawCopy(left) =>
      if left == 0 then Some(AfterBlock(c)) else Some(c.(loc := RawByte(left, v % 256)))
    case RawByte(left, b) => Some(c.(loc := RawCopy(if left > 0 then left - 1 else 0), out := c.out + [b]))
    case TableSizes(sizes) =>
      var sizes' := sizes + [v + MinTableSize(|sizes|)];
      if |sizes| < 2 then Some(c.(loc := TableSizes(sizes')))
      else Some(c.(loc := ClLens(sizes'[0], sizes'[1], sizes'[2], NoLens(), 0)))
    case ClLens(n0, n1, n2, cl, k) =>
      if k >= 19 || |cl| != 19 then None else
      var cl' := cl[Zig(k) := v];
      Some(c.(loc := if k + 1 < n2 then ClLens(n0, n1, n2, cl', k + 1)
                     else if TableOk(cl') then LenCodes(n0, n1, cl', [])
                     else Failed))
    case LenCodes(n0, n1, cl, lens) =>
      Some(c.(loc := if v < 16 then MoreLens(n0, n1, cl, lens + [v])
                     else if v == 16 && lens == [] then Failed
                     else LenRun(n0, n1, cl, lens, v)))
    case LenRun(n0, n1, cl, lens, sym) =>
      Some(c.(loc := MoreLens(n0, n1, cl, lens + ItemLens(lens, Item(sym, v)))))
    case Symbol(lit, dist) =>
      if v < 256 then Some(c.(loc := Emit(lit, dist, v)))
      else if v == 256 then Some(AfterBlock(c))
      else if v >= 288 then None
      else if LengthExtra(v - 257) == 0 then Some(c.(loc := DistSymbol(lit, dist, LengthBase(v - 257))))
      else Some(c.(loc := LengthBits(lit, dist, LengthBase(v - 257), LengthExtra(v - 257))))
    case Emit(lit, dist, b) => Some(c.(loc := Symbol(lit, dist), out := c.out + [b]))
    case LengthBits(lit, dist, base, _) => Some(c.(loc := DistSymbol(lit, dist, base + v)))
    case DistSymbol(lit, dist, len) =>
      if v >= 32 then None
      else if DistanceExtra(v) == 0 then StartCopy(cfg, c, lit, dist, len, DistanceBase(v))
      else Some(c.(loc := DistBits(lit, dist, len, DistanceBase(v), DistanceExtra(v))))
    case DistBits(lit, dist, len, base, _) => StartCopy(cfg, c, lit, dist, len, base + v)
    case Copying(lit, dist, len, from) =>
      if len == 0 then Some(c.(loc := Symbol(lit, dist)))
      else if 1 <= from <= |c.out| then Some(c.(loc := Copying(lit, dist, len - 1, from), out := c.out + [c.out[|c.out| - from]]))
      else None
    case EndAlign => Some(c.(loc := if cfg.zlib then Trailer(0, 1) else Done(1)))
    case Trailer(k, adler) =>
      var a := (adler * 256 + v) % 0x1_0000_0000;
      Some(c.(loc := if k < 3 then Trailer(k + 1, a) else Done(a)))
    case Done(_) => None
    case Failed => None
  }

  /** The symbol whose code the bits begin with. */
  ghost predicate Begins(lens: seq<nat>, bits: seq<bool>, i: nat)
  {
    i < |lens| && lens[i] > 0 && HuffBits(lens, i) <= bits
  }

  ghost function Decode(lens: seq<nat>, bits: seq<bool>): Option<nat>
  {
    if Kraft(lens, 15) && exists i :: Begins(lens, bits, i) then
      var i :| Begins(lens, bits, i); Some(i)
    else None
  }

  ghost function Step(cfg: Config, s: State): Option<State>
  {
    match Wants(s.core)
    case Halt => None
    case Nothing => With(Next(cfg, s.core, 0), s.rest)
    case Bits(n) =>
      if |s.rest| < n then None
      else With(Next(cfg, s.core.(pos := s.core.pos + n), FromBits(s.rest[..n])), s.rest[n..])
    case Code(lens) =>
      match Decode(lens, s.rest)
      case None => None
      case Some(i) => With(Next(cfg, s.core.(pos := s.core.pos + lens[i]), i), s.rest[lens[i]..])
  }

  function With(c: Option<Core>, rest: seq<bool>): Option<State>
  {
    match c
    case None => None
    case Some(c) => Some(State(c, rest))
  }

  // ---------------------------------------------------------------- runs

  ghost predicate ReachesIn(cfg: Config, s: State, t: State, n: nat)
    decreases n
  {
    if n == 0 then s == t
    else Step(cfg, s).Some? && ReachesIn(cfg, Step(cfg, s).value, t, n - 1)
  }

  ghost predicate Reaches(cfg: Config, s: State, t: State)
  {
    exists n: nat :: ReachesIn(cfg, s, t, n)
  }

  lemma ReachesRefl(cfg: Config, s: State)
    ensures Reaches(cfg, s, s)
  {
    assert ReachesIn(cfg, s, s, 0);
  }

  lemma {:induction false} ReachesInTrans(cfg: Config, s: State, t: State, u: State, m: nat, n: nat)
    requires ReachesIn(cfg, s, t, m) && ReachesIn(cfg, t, u, n)
    ensures ReachesIn(cfg, s, u, m + n)
    decreases m
  {
    hide Step;
    if m > 0 {
      ReachesInTrans(cfg, Step(cfg, s).value, t, u, m - 1, n);
    }
  }

  lemma ReachesTrans(cfg: Config, s: State, t: State, u: State)
    requires Reaches(cfg, s, t) && Reaches(cfg, t, u)
    ensures Reaches(cfg, s, u)
  {
    var m: nat :| ReachesIn(cfg, s, t, m);
    var n: nat :| ReachesIn(cfg, t, u, n);
    ReachesInTrans(cfg, s, t, u, m, n);
  }

  lemma ReachesStep(cfg: Config, s: State, t: State)
    requires Step(cfg, s) == Some(t)
    ensures Reaches(cfg, s, t)
  {
    assert ReachesIn(cfg, t, t, 0);
    assert ReachesIn(cfg, s, t, 1);
  }

  ghost predicate Halted(s: State)
  {
    s.core.loc.Done? || s.core.loc.Failed?
  }

  lemma Unfold(cfg: Config, s: State, t: State, n: nat)
    requires ReachesIn(cfg, s, t, n)
    ensures n == 0 ==> s == t
    ensures n > 0 ==> Step(cfg, s).Some? && ReachesIn(cfg, Step(cfg, s).value, t, n - 1)
  {
  }

  lemma HaltedStops(cfg: Config, s: State)
    requires Halted(s)
    ensures Step(cfg, s) == None
  {
    hide Next;
  }

  /** The machine is deterministic: a stream has one outcome. */
  lemma {:induction false} OutcomeInUnique(cfg: Config, s: State, t: State, u: State, m: nat, n: nat)
    requires ReachesIn(cfg, s, t, m) && ReachesIn(cfg, s, u, n) && Halted(t) && Halted(u)
    ensures t == u
    decreases m
  {
    hide *;
    Unfold(cfg, s, t, m);
    Unfold(cfg, s, u, n);
    HaltedStops(cfg, t);
    HaltedStops(cfg, u);
    if m > 0 && n > 0 {
      OutcomeInUnique(cfg, Step(cfg, s).value, t, u, m - 1, n - 1);
    }
  }

  lemma OutcomeUnique(cfg: Config, s: State, t: State, u: State)
    requires Reaches(cfg, s, t) && Reaches(cfg, s, u) && Halted(t) && Halted(u)
    ensures t == u
  {
    var m: nat :| ReachesIn(cfg, s, t, m);
    var n: nat :| ReachesIn(cfg, s, u, n);
    OutcomeInUnique(cfg, s, t, u, m, n);
  }

  // ---------------------------------------------------------------- reading ahead does not matter

  lemma DecodeUnique(lens: seq<nat>, bits: seq<bool>, i: nat)
    requires Kraft(lens, 15) && Begins(lens, bits, i)
    ensures Decode(lens, bits) == Some(i)
  {
    var j := Decode(lens, bits).value;
    PrefixFree(lens, i, j, bits, 15);
  }

  /** Appending bits to the stream changes no step. */
  lemma StepExtends(cfg: Config, s: State, more: seq<bool>)
    requires Step(cfg, s).Some?
    ensures var t := Step(cfg, s).value; Step(cfg, s.(rest := s.rest + more)) == Some(t.(rest := t.rest + more))
  {
    hide Next, HuffBits;
    match Wants(s.core)
    case Halt =>
    case Nothing =>
    case Bits(n) =>
      assert (s.rest + more)[..n] == s.rest[..n];
      assert (s.rest + more)[n..] == s.rest[n..] + more;
    case Code(lens) =>
      var i := Decode(lens, s.rest).value;
      assert Begins(lens, s.rest + more, i);
      DecodeUnique(lens, s.rest + more, i);
      assert (s.rest + more)[lens[i]..] == s.rest[lens[i]..] + more;
  }

  lemma {:induction false} ReachesInExtends(cfg: Config, s: State, t: State, n: nat, more: seq<bool>)
    requires ReachesIn(cfg, s, t, n)
    ensures ReachesIn(cfg, s.(rest := s.rest + more), t.(rest := t.rest + more), n)
    decreases n
  {
    hide Step;
    if n > 0 {
      StepExtends(cfg, s, more);
      ReachesInExtends(cfg, Step(cfg, s).value, t, n - 1, more);
    }
  }

  lemma ReachesExtends(cfg: Config, s: State, t: State, more: seq<bool>)
    requires Reaches(cfg, s, t)
    ensures Reaches(cfg, s.(rest := s.rest + more), t.(rest := t.rest + more))
  {
    var n: nat :| ReachesIn(cfg, s, t, n);
    ReachesInExtends(cfg, s, t, n, more);
  }

  // ---------------------------------------------------------------- single reads

  lemma StepNothing(cfg: Config, c: Core, c': Core, rest: seq<bool>)
    requires Wants(c) == Nothing && Next(cfg, c, 0) == Some(c')
    ensures Reaches(cfg, State(c, rest), State(c', rest))
  {
    ReachesStep(cfg, State(c, rest), State(c', rest));
  }

  lemma StepBits(cfg: Config, c: Core, c': Core, n: nat, v: nat, rest: seq<bool>)
    requires Wants(c) == Bits(n) && v < Pow2(n) && Next(cfg, c.(pos := c.pos + n), v) == Some(c')
    ensures Reaches(cfg, State(c, ToBits(v, n) + rest), State(c', rest))
  {
    var all := ToBits(v, n) + rest;
    assert all[..n] == ToBits(v, n) && all[n..] == rest;
    FromToBits(v, n);
    ReachesStep(cfg, State(c, all), State(c', rest));
  }

  lemma StepCode(cfg: Config, c: Core, c': Core, lens: seq<nat>, i: nat, rest: seq<bool>)
    requires Wants(c) == Code(lens) && Kraft(lens, 15) && i < |lens| && lens[i] > 0
    requires Next(cfg, c.(pos := c.pos + lens[i]), i) == Some(c')
    ensures Reaches(cfg, State(c, HuffBits(lens, i) + rest), State(c', rest))
  {
    var all := HuffBits(lens, i) + rest;
    assert Begins(lens, all, i);
    DecodeUnique(lens, all, i);
    assert all[lens[i]..] == rest;
    ReachesStep(cfg, State(c, all), State(c', rest));
  }
}
