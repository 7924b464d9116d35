/**
 The machine's steps, one control point at a time, as a decoder uses them.
 */
module InflateSteps {
  import opened Bits
  import opened InflateSpec
  import opened LzTokens
  import opened CodeLengthRle
  import opened Options

  /** Reading value `v` of `n` bits at `c` leads to `d`. */
  ghost predicate ByBits(cfg: Config, c: Core, n: nat, v: nat, d: Core)
  {
    Wants(c) == Bits(n) && Next(cfg, c.(pos := c.pos + n), v) == Some(d)
  }

  ghost predicate ByCode(cfg: Config, c: Core, lens: seq<nat>, len: nat, v: nat, d: Core)
  {
    Wants(c) == Code(lens) && Next(cfg, c.(pos := c.pos + len), v) == Some(d)
  }

  ghost predicate Freely(cfg: Config, c: Core, d: Core)
  {
    Wants(c) == Nothing && Next(cfg, c, 0) == Some(d)
  }

  function To(c: Core, loc: Loc, bits: nat): (d: Core)
    ensures d == Core(loc, c.pos + bits, c.out, c.final)
  {
    c.(loc := loc, pos := c.pos + bits)
  }

  lemma AtZHeader0(cfg: Config, c: Core, v: nat)
    requires c.loc == ZHeader0
    ensures ByBits(cfg, c, 8, v, To(c, ZHeader1(v), 8))
  {
  }

  lemma AtZHeader1(cfg: Config, c: Core, h0: nat, v: nat)
    requires c.loc == ZHeader1(h0)
    ensures ByBits(cfg, c, 8, v, To(c, if ZlibHeaderBad(cfg, h0, v) then Failed else Header, 8))
  {
  }

  lemma AtHeader(cfg: Config, c: Core, v: nat)
    requires c.loc == Header && v < 8
    ensures ByBits(cfg, c, 3, v, To(c, if v / 2 == 0 then RawAlign else if v / 2 == 1 then Symbol(FixedLit(), FixedDist())
                                       else if v / 2 == 2 then TableSizes([]) else Failed, 3).(final := v % 2 == 1))
  {
    hide FixedLit, FixedDist;
  }

  lemma AtRawAlign(cfg: Config, c: Core, v: nat)
    requires c.loc == RawAlign
    ensures ByBits(cfg, c, ToByteBoundary(c.pos), v, To(c, RawHeader([]), ToByteBoundary(c.pos)))
  {
  }

  lemma AtRawHeader(cfg: Config, c: Core, bytes: seq<nat>, v: nat)
    requires c.loc == RawHeader(bytes) && |bytes| <= 3
    ensures |bytes| < 3 ==> ByBits(cfg, c, 8, v, To(c, RawHeader(bytes + [v]), 8))
    ensures |bytes| == 3 ==> ByBits(cfg, c, 8, v, To(c, if bytes[0] + 256 * bytes[1] != 65535 - (bytes[2] + 256 * v) then Failed
                                                      else RawCopy(bytes[0] + 256 * bytes[1]), 8))
  {
  }

  lemma AtRawCopy(cfg: Config, c: Core, left: nat, v: nat)
    requires c.loc == RawCopy(left)
    ensures left == 0 ==> Freely(cfg, c, AfterBlock(c))
    ensures left > 0 && v < 256 ==> ByBits(cfg, c, 8, v, To(c, RawByte(left, v), 8))
  {
  }

  lemma AtRawByte(cfg: Config, c: Core, left: nat, b: u8)
    requires c.loc == RawByte(left, b) && left > 0
    ensures Freely(cfg, c, c.(loc := RawCopy(left - 1), out := c.out + [b]))
  {
  }

  lemma AtTableSizes(cfg: Config, c: Core, sizes: seq<nat>, v: nat)
    requires c.loc == TableSizes(sizes) && |sizes| <= 2
    ensures var n, s := TableSizeBits(|sizes|), sizes + [v + MinTableSize(|sizes|)];
      && (|sizes| < 2 ==> ByBits(cfg, c, n, v, To(c, TableSizes(s), n)))
      && (|sizes| == 2 ==> ByBits(cfg, c, n, v, To(c, ClLens(s[0], s[1], s[2], NoLens(), 0), n)))
  {
  }

  lemma AtClLens(cfg: Config, c: Core, n0: nat, n1: nat, n2: nat, cl: seq<nat>, k: nat, v: nat)
    requires c.loc == ClLens(n0, n1, n2, cl, k) && k < 19 && |cl| == 19
    ensures var cl' := cl[Zig(k) := v];
      ByBits(cfg, c, 3, v, To(c, if k + 1 < n2 then ClLens(n0, n1, n2, cl', k + 1) else if TableOk(cl') then LenCodes(n0, n1, cl', []) else Failed, 3))
  {
    hide TableOk;
  }

  lemma AtLenCodes(cfg: Config, c: Core, n0: nat, n1: nat, cl: seq<nat>, lens: seq<nat>, len: nat, v: nat)
    requires c.loc == LenCodes(n0, n1, cl, lens)
    ensures ByCode(cfg, c, cl, len, v, To(c, if v < 16 then MoreLens(n0, n1, cl, lens + [v]) else if v == 16 && lens == [] then Failed
                                             else LenRun(n0, n1, cl, lens, v), len))
  {
    hide TableOk;
  }

  lemma AtLenRun(cfg: Config, c: Core, n0: nat, n1: nat, cl: seq<nat>, lens: seq<nat>, sym: nat, v: nat)
    requires c.loc == LenRun(n0, n1, cl, lens, sym)
    ensures ByBits(cfg, c, ExtraBits(sym), v, To(c, MoreLens(n0, n1, cl, lens + ItemLens(lens, Item(sym, v))), ExtraBits(sym)))
  {
    hide TableOk;
  }

  lemma AtSymbol(cfg: Config, c: Core, lit: seq<nat>, dist: seq<nat>, len: nat, v: nat)
    requires c.loc == Symbol(lit, dist) && v < 288
    ensures v < 256 ==> ByCode(cfg, c, lit, len, v, To(c, Emit(lit, dist, v), len))
    ensures v == 256 ==> ByCode(cfg, c, lit, len, v, AfterBlock(To(c, c.loc, len)))
    ensures v > 256 && LengthExtra(v - 257) == 0 ==> ByCode(cfg, c, lit, len, v, To(c, DistSymbol(lit, dist, LengthBase(v - 257)), len))
    ensures v > 256 && LengthExtra(v - 257) > 0 ==>
      ByCode(cfg, c, lit, len, v, To(c, LengthBits(lit, dist, LengthBase(v - 257), LengthExtra(v - 257)), len))
  {
    hide LengthBase, LengthExtra;
  }

  lemma AtEmit(cfg: Config, c: Core, lit: seq<nat>, dist: seq<nat>, b: u8)
    requires c.loc == Emit(lit, dist, b)
    ensures Freely(cfg, c, c.(loc := Symbol(lit, dist), out := c.out + [b]))
  {
  }

  lemma AtLengthBits(cfg: Config, c: Core, lit: seq<nat>, dist: seq<nat>, base: nat, extra: nat, v: nat)
    requires c.loc == LengthBits(lit, dist, base, extra)
    ensures ByBits(cfg, c, extra, v, To(c, DistSymbol(lit, dist, base + v), extra))
  {
  }

  /** The outcome of a distance: a copy, a failure in a flat buffer, or nothing defined in a window. */
  lemma AtDistSymbol(cfg: Config, c: Core, lit: seq<nat>, dist: seq<nat>, len: nat, bits: nat, v: nat)
    requires c.loc == DistSymbol(lit, dist, len) && v < 32
    ensures DistanceExtra(v) > 0 ==> ByCode(cfg, c, dist, bits, v, To(c, DistBits(lit, dist, len, DistanceBase(v), DistanceExtra(v)), bits))
    ensures var from := DistanceBase(v); DistanceExtra(v) == 0 ==>
      && (1 <= from <= |c.out| ==> ByCode(cfg, c, dist, bits, v, To(c, Copying(lit, dist, len, from), bits)))
      && (!(1 <= from <= |c.out|) && !cfg.wraps ==> ByCode(cfg, c, dist, bits, v, To(c, Failed, bits)))
      && (!(1 <= from <= |c.out|) && cfg.wraps ==> Wants(c) == Code(dist) && Next(cfg, c.(pos := c.pos + bits), v) == None)
  {
    hide DistanceBase, DistanceExtra;
  }

  lemma AtDistBits(cfg: Config, c: Core, lit: seq<nat>, dist: seq<nat>, len: nat, base: nat, extra: nat, v: nat)
    requires c.loc == DistBits(lit, dist, len, base, extra)
    ensures var from := base + v;
      && (1 <= from <= |c.out| ==> ByBits(cfg, c, extra, v, To(c, Copying(lit, dist, len, from), extra)))
      && (!(1 <= from <= |c.out|) && !cfg.wraps ==> ByBits(cfg, c, extra, v, To(c, Failed, extra)))
      && (!(1 <= from <= |c.out|) && cfg.wraps ==> Wants(c) == Bits(extra) && Next(cfg, c.(pos := c.pos + extra), v) == None)
  {
  }

  lemma AtCopying(cfg: Config, c: Core, lit: seq<nat>, dist: seq<nat>, len: nat, from: nat)
    requires c.loc == Copying(lit, dist, len, from)
    ensures len == 0 ==> Freely(cfg, c, c.(loc := Symbol(lit, dist)))
    ensures len > 0 && 1 <= from <= |c.out| ==> Freely(cfg, c, c.(loc := Copying(lit, dist, len - 1, from), out := c.out + [c.out[|c.out| - from]]))
  {
  }

  lemma AtEndAlign(cfg: Config, c: Core, v: nat)
    requires c.loc == EndAlign
    ensures ByBits(cfg, c, ToByteBoundary(c.pos), v, To(c, if cfg.zlib then Trailer(0, 1) else Done(1), ToByteBoundary(c.pos)))
  {
  }

  lemma AtTrailer(cfg: Config, c: Core, k: nat, adler: nat, v: nat)
    requires c.loc == Trailer(k, adler)
    ensures var a := (adler * 256 + v) % 0x1_0000_0000; ByBits(cfg, c, 8, v, To(c, if k < 3 then Trailer(k + 1, a) else Done(a), 8))
  {
  }

  /** Extra bits never take a distance beyond 32768. */
  lemma DistanceLimit(v: nat, x: nat)
    requires v < 32 && x < Pow2(DistanceExtra(v))
    ensures DistanceExtra(v) <= 13 && DistanceBase(v) + x <= DICT_SIZE
  {
    Pow2Values();
    Pow2Large();
  }

  lemma LengthLimit(i: nat)
    requires i < 31
    ensures LengthExtra(i) <= 5
  {
  }
}
