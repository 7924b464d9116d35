/**
 A compressed stream as a sequence of flushes: what one flush adds to the stream, and that the
 inflating machine reads it back to exactly the bytes the flush stands for. Covers the zlib wrapper
 (section 2.2 of RFC 1950) and the empty stored block of a sync flush.
 */
module Streams {
  import opened Bits
  import opened InflateSpec
  import opened DeflateBits
  import opened BlockSpec
  import opened LzTokens

  datatype Flush = NoFlush | SyncFlush | FullFlush | Finish

  /** Decoders the stream is meant for: the same wrapper, and a window of at least 32 KB. */
  ghost predicate Suits(cfg: Config, zlib: bool)
  {
    cfg.zlib == zlib && (cfg.wraps ==> cfg.window >= DICT_SIZE)
  }

  function Start(zlib: bool): Core
  {
    Core(if zlib then ZHeader0 else Header, 0, [], false)
  }

  /** Every suitable decoder reads `bits` from the start and arrives at `c`. */
  ghost predicate Drives(zlib: bool, bits: seq<bool>, c: Core)
  {
    forall cfg :: Suits(cfg, zlib) ==> Reaches(cfg, State(Start(zlib), bits), State(c, []))
  }

  /** `more` takes every suitable decoder from `c` to `d`. */
  ghost predicate Leads(zlib: bool, c: Core, more: seq<bool>, d: Core)
  {
    forall cfg, rest :: Suits(cfg, zlib) ==> Reaches(cfg, State(c, more + rest), State(d, rest))
  }

  lemma DrivesFurther(zlib: bool, bits: seq<bool>, c: Core, more: seq<bool>, d: Core)
    requires Drives(zlib, bits, c) && Leads(zlib, c, more, d)
    ensures Drives(zlib, bits + more, d)
  {
    hide Reaches, Suits;
    assert [] + more == more && more + [] == more;
    forall cfg | Suits(cfg, zlib)
      ensures Reaches(cfg, State(Start(zlib), bits + more), State(d, []))
    {
      ReachesExtends(cfg, State(Start(zlib), bits), State(c, []), more);
      assert Reaches(cfg, State(c, more + []), State(d, []));
      ReachesTrans(cfg, State(Start(zlib), bits + more), State(c, more), State(d, []));
    }
  }

  lemma LeadsTrans(zlib: bool, a: Core, x: seq<bool>, b: Core, y: seq<bool>, c: Core)
    requires Leads(zlib, a, x, b) && Leads(zlib, b, y, c)
    ensures Leads(zlib, a, x + y, c)
  {
    hide Reaches, Suits;
    forall cfg, rest | Suits(cfg, zlib)
      ensures Reaches(cfg, State(a, x + y + rest), State(c, rest))
    {
      assert x + y + rest == x + (y + rest);
      ReachesTrans(cfg, State(a, x + (y + rest)), State(b, y + rest), State(c, rest));
    }
  }

  lemma LeadsNone(zlib: bool, c: Core)
    ensures Leads(zlib, c, [], c)
  {
    hide Reaches, Suits;
    forall cfg, rest | Suits(cfg, zlib)
      ensures Reaches(cfg, State(c, [] + rest), State(c, rest))
    {
      assert [] + rest == rest;
      ReachesRefl(cfg, State(c, rest));
    }
  }

  // ---------------------------------------------------------------- the zlib header

  /** The second header byte for a compression level hint. */
  function ZlibFlags(level: nat): (f: u8)
    requires level < 4
    ensures (0x7800 + f) % 31 == 0 && f / 32 % 2 == 0 && f / 64 == level
  {
    var header := 0x7800 + 64 * level;
    (header + (31 - header % 31)) % 256
  }

  ghost function ZlibBits(level: nat): seq<bool>
    requires level < 4
  {
    ToBits(0x78, 8) + ToBits(ZlibFlags(level), 8)
  }

  lemma ZlibLeads(level: nat)
    requires level < 4
    ensures Leads(true, Start(true), ZlibBits(level), Core(Header, 16, [], false))
  {
    hide ToBits, Reaches;
    Pow2Values();
    var f := ZlibFlags(level);
    forall cfg, rest | Suits(cfg, true)
      ensures Reaches(cfg, State(Start(true), ZlibBits(level) + rest), State(Core(Header, 16, [], false), rest))
    {
      var c1, c2 := Core(ZHeader1(0x78), 8, [], false), Core(Header, 16, [], false);
      ReachesRefl(cfg, State(c2, rest));
      BitsThen(cfg, c1, c2, State(c2, rest), 8, f, rest);
      BitsThen(cfg, Start(true), c1, State(c2, rest), 8, 0x78, ToBits(f, 8) + rest);
      assert ZlibBits(level) + rest == ToBits(0x78, 8) + (ToBits(f, 8) + rest);
    }
  }

  // ---------------------------------------------------------------- blocks

  function AfterBlockOf(c: Core, final: bool, to: seq<u8>, bits: nat): Core
  {
    AfterBlock(c.(final := final)).(out := to, pos := c.pos + bits)
  }

  lemma BlockLeads(zlib: bool, c: Core, final: bool, b: Block, to: seq<u8>)
    requires c.loc == Header && BlockOk(b) && Produces(b, c.out, to)
    ensures var bits := ToBits(BitValue(final), 1) + BlockBits(b, c.pos + 1);
      Leads(zlib, c, bits, AfterBlockOf(c, final, to, |bits|))
  {
    hide Reaches, Suits, BlockOk, Produces, BlockBits, ToBits;
    var bits := ToBits(BitValue(final), 1) + BlockBits(b, c.pos + 1);
    forall cfg, rest | Suits(cfg, zlib)
      ensures Reaches(cfg, State(c, bits + rest), State(AfterBlockOf(c, final, to, |bits|), rest))
    {
      BlockDecodes(cfg, c, final, b, to, rest);
    }
  }

  /** Only a stored block depends on where it starts, and only on the place within a byte. */
  lemma BlockBitsAt(b: Block, p: nat, q: nat)
    requires BlockOk(b) && p % 8 == q % 8
    ensures BlockBits(b, p) == BlockBits(b, q)
  {
    hide BlockOk, BodyBits, DynamicBits, ToBits;
    assert (p + 2) % 8 == (q + 2) % 8;
  }

  // ---------------------------------------------------------------- the end of a stream

  ghost function BigEndian(v: nat, k: nat): (r: seq<bool>)
    requires k <= 4
    ensures |r| == 8 * k
  {
    if k == 0 then [] else ToBits(v / Pow2(8 * (k - 1)) % 256, 8) + BigEndian(v, k - 1)
  }

  /** Padding to the byte boundary, then for zlib the four bytes of the checksum. */
  ghost function EndBits(zlib: bool, pos: nat, adler: nat): seq<bool>
  {
    ToBits(0, ToByteBoundary(pos)) + (if zlib then BigEndian(adler, 4) else [])
  }

  lemma TrailerByte(zlib: bool, c: Core, k: nat, hi: nat, b: nat, a: nat, d: Core)
    requires c.loc == Trailer(k, hi) && b < 256 && a == (hi * 256 + b) % 0x1_0000_0000
    requires d == At(c, if k < 3 then Trailer(k + 1, a) else Done(a), 8)
    ensures Leads(zlib, c, ToBits(b, 8), d)
  {
    hide Reaches, ToBits, Suits;
    Pow2Values();
    forall cfg, rest | Suits(cfg, zlib)
      ensures Reaches(cfg, State(c, ToBits(b, 8) + rest), State(d, rest))
    {
      ReachesRefl(cfg, State(d, rest));
      BitsThen(cfg, c, d, State(d, rest), 8, b, rest);
    }
  }

  /** The four bytes of a checksum, most significant first. */
  lemma AdlerBytes(adler: nat) returns (b3: nat, b2: nat, b1: nat, b0: nat)
    requires adler < 0x1_0000_0000
    ensures b3 < 256 && b2 < 256 && b1 < 256 && b0 < 256
    ensures adler == ((b3 * 256 + b2) * 256 + b1) * 256 + b0
    ensures BigEndian(adler, 4) == ToBits(b3, 8) + (ToBits(b2, 8) + (ToBits(b1, 8) + ToBits(b0, 8)))
  {
    hide ToBits;
    BigEndianAt(adler);
    Digits(adler);
    b3, b2, b1, b0 := adler / 0x100_0000, adler / 0x1_0000 % 256, adler / 256 % 256, adler % 256;
  }

  lemma Digits(v: nat)
    requires v < 0x1_0000_0000
    ensures v / 0x100_0000 < 256
    ensures v == ((v / 0x100_0000 * 256 + v / 0x1_0000 % 256) * 256 + v / 256 % 256) * 256 + v % 256
  {
    var q1, q2 := v / 256, v / 256 / 256;
    assert q2 == v / 0x1_0000 && q2 / 256 == v / 0x100_0000;
  }

  lemma BigEndianAt(adler: nat)
    requires adler < 0x1_0000_0000
    ensures BigEndian(adler, 4) == ToBits(adler / 0x100_0000, 8) + (ToBits(adler / 0x1_0000 % 256, 8) + (ToBits(adler / 256 % 256, 8) + ToBits(adler % 256, 8)))
  {
    hide ToBits;
    Pow2Values();
    Pow2Add(8, 16);
    assert Pow2(0) == 1 && Pow2(24) == 0x100_0000;
    var x := ToBits(adler % 256, 8);
    assert BigEndian(adler, 1) == x + [] == x;
    assert BigEndian(adler, 2) == ToBits(adler / 256 % 256, 8) + x;
    assert BigEndian(adler, 3) == ToBits(adler / 0x1_0000 % 256, 8) + BigEndian(adler, 2);
    assert adler / 0x100_0000 % 256 == adler / 0x100_0000;
  }

  lemma TrailerLeads(zlib: bool, c: Core, adler: nat)
    requires c.loc == Trailer(0, 1) && adler < 0x1_0000_0000
    ensures Leads(zlib, c, BigEndian(adler, 4), c.(loc := Done(adler), pos := c.pos + 32))
  {
    hide *;
    var b3, b2, b1, b0 := AdlerBytes(adler);
    TrailerRun(zlib, c, b3, b2, b1, b0);
  }

  lemma TrailerRun(zlib: bool, c: Core, b3: nat, b2: nat, b1: nat, b0: nat)
    requires c.loc == Trailer(0, 1) && b3 < 256 && b2 < 256 && b1 < 256 && b0 < 256
    ensures Leads(zlib, c, ToBits(b3, 8) + (ToBits(b2, 8) + (ToBits(b1, 8) + ToBits(b0, 8))),
                  c.(loc := Done(((b3 * 256 + b2) * 256 + b1) * 256 + b0), pos := c.pos + 32))
  {
    hide *;
    var a1, a2, a3, a4 := TrailerValue(b3, b2, b1, b0);
    var c1, c2, c3, c4 := TrailerCores(c, a1, a2, a3, a4);
    TrailerByte(zlib, c, 0, 1, b3, a1, c1);
    TrailerByte(zlib, c1, 1, a1, b2, a2, c2);
    TrailerByte(zlib, c2, 2, a2, b1, a3, c3);
    TrailerByte(zlib, c3, 3, a3, b0, a4, c4);
    LeadsTrans(zlib, c2, ToBits(b1, 8), c3, ToBits(b0, 8), c4);
    LeadsTrans(zlib, c1, ToBits(b2, 8), c2, ToBits(b1, 8) + ToBits(b0, 8), c4);
    LeadsTrans(zlib, c, ToBits(b3, 8), c1, ToBits(b2, 8) + (ToBits(b1, 8) + ToBits(b0, 8)), c4);
  }

  lemma TrailerCores(c: Core, a1: nat, a2: nat, a3: nat, a4: nat) returns (c1: Core, c2: Core, c3: Core, c4: Core)
    ensures c1 == At(c, Trailer(1, a1), 8) && c1.loc == Trailer(1, a1)
    ensures c2 == At(c1, Trailer(2, a2), 8) && c2.loc == Trailer(2, a2)
    ensures c3 == At(c2, Trailer(3, a3), 8) && c3.loc == Trailer(3, a3)
    ensures c4 == At(c3, Done(a4), 8) == c.(loc := Done(a4), pos := c.pos + 32)
  {
    c1 := At(c, Trailer(1, a1), 8);
    c2 := At(c1, Trailer(2, a2), 8);
    c3 := At(c2, Trailer(3, a3), 8);
    c4 := At(c3, Done(a4), 8);
  }

  /** The checksum register as the four bytes come in; the leading 1 is shifted out. */
  lemma TrailerValue(b3: nat, b2: nat, b1: nat, b0: nat) returns (a1: nat, a2: nat, a3: nat, a4: nat)
    requires b3 < 256 && b2 < 256 && b1 < 256 && b0 < 256
    ensures a1 == (1 * 256 + b3) % 0x1_0000_0000 && a2 == (a1 * 256 + b2) % 0x1_0000_0000
    ensures a3 == (a2 * 256 + b1) % 0x1_0000_0000 && a4 == (a3 * 256 + b0) % 0x1_0000_0000
    ensures a4 == ((b3 * 256 + b2) * 256 + b1) * 256 + b0
  {
    a1 := 256 + b3;
    a2 := a1 * 256 + b2;
    a3 := a2 * 256 + b1;
    a4 := ((b3 * 256 + b2) * 256 + b1) * 256 + b0;
    assert a3 * 256 + b0 == a4 + 0x1_0000_0000;
  }

  lemma EndLeads(zlib: bool, c: Core, adler: nat)
    requires c.loc == EndAlign && adler < 0x1_0000_0000
    ensures var bits := EndBits(zlib, c.pos, adler);
      Leads(zlib, c, bits, c.(loc := Done(if zlib then adler else 1), pos := c.pos + |bits|))
  {
    hide Reaches, ToBits, ToByteBoundary, BigEndian;
    var z := ToByteBoundary(c.pos);
    var c1 := At(c, if zlib then Trailer(0, 1) else Done(1), z);
    forall cfg, rest | Suits(cfg, zlib)
      ensures Reaches(cfg, State(c, ToBits(0, z) + rest), State(c1, rest))
    {
      ReachesRefl(cfg, State(c1, rest));
      BitsThen(cfg, c, c1, State(c1, rest), z, 0, rest);
    }
    hide Suits;
    if zlib {
      TrailerLeads(zlib, c1, adler);
      LeadsTrans(zlib, c, ToBits(0, z), c1, BigEndian(adler, 4), c1.(loc := Done(adler), pos := c1.pos + 32));
    } else {
      assert ToBits(0, z) + [] == ToBits(0, z);
    }
  }

  /** What a flush adds after its block. */
  ghost function TailBits(flush: Flush, zlib: bool, pos: nat, adler: nat): seq<bool>
  {
    match flush
    case NoFlush => []
    case Finish => EndBits(zlib, pos, adler)
    case _ => ToBits(0, 1) + BlockBits(Stored([]), pos + 1)
  }

  /** Where a flush leaves the decoder. */
  function AfterFlush(flush: Flush, zlib: bool, pos: nat, out: seq<u8>, adler: nat): Core
  {
    if flush.Finish? then Core(Done(if zlib then adler else 1), pos, out, true) else Core(Header, pos, out, false)
  }

  lemma TailLeads(flush: Flush, zlib: bool, c: Core, adler: nat)
    requires c.final == flush.Finish? && c.loc == (if c.final then EndAlign else Header) && adler < 0x1_0000_0000
    ensures var bits := TailBits(flush, zlib, c.pos, adler);
      Leads(zlib, c, bits, AfterFlush(flush, zlib, c.pos + |bits|, c.out, adler))
  {
    hide Leads, EndBits, BlockBits, ToBits;
    match flush
    case NoFlush => LeadsNone(zlib, c);
    case Finish => EndLeads(zlib, c, adler);
    case _ =>
      assert c.out + [] == c.out;
      assert BitValue(false) == 0;
      BlockLeads(zlib, c, false, Stored([]), c.out);
  }

  // ---------------------------------------------------------------- one flush

  /** Everything one call of `tdefl_flush_block` writes. `pos` may be any position with the right place in a byte. */
  ghost function FlushBits(first: bool, zlib: bool, level: nat, flush: Flush, b: Block, pos: nat, adler: nat): seq<bool>
    requires level < 4 && BlockOk(b)
  {
    var head := if first && zlib then ZlibBits(level) else [];
    var body := ToBits(BitValue(flush.Finish?), 1) + BlockBits(b, pos + |head| + 1);
    head + (body + TailBits(flush, zlib, pos + |head| + |body|, adler))
  }

  /** The decoder between two flushes. */
  function Between(first: bool, zlib: bool, pos: nat, out: seq<u8>): Core
  {
    if first then Start(zlib) else Core(Header, pos, out, false)
  }

  /** One flush appends exactly the bytes its block stands for. */
  lemma FlushLeads(first: bool, zlib: bool, level: nat, flush: Flush, b: Block, pos: nat, adler: nat, out: seq<u8>, to: seq<u8>)
    requires level < 4 && BlockOk(b) && Produces(b, out, to) && adler < 0x1_0000_0000
    requires first ==> pos == 0 && out == []
    ensures var bits := FlushBits(first, zlib, level, flush, b, pos, adler);
      Leads(zlib, Between(first, zlib, pos, out), bits, AfterFlush(flush, zlib, pos + |bits|, to, adler))
  {
    hide Leads, BlockOk, Produces, BlockBits, TailBits, ToBits;
    var head := if first && zlib then ZlibBits(level) else [];
    var p1 := pos + |head|;
    var body := ToBits(BitValue(flush.Finish?), 1) + BlockBits(b, p1 + 1);
    var tail := TailBits(flush, zlib, p1 + |body|, adler);
    var c0, c1 := Between(first, zlib, pos, out), Core(Header, p1, out, false);
    if first && zlib {
      ZlibLeads(level);
    } else {
      LeadsNone(zlib, c0);
    }
    BlockLeads(zlib, c1, flush.Finish?, b, to);
    var c2 := AfterBlockOf(c1, flush.Finish?, to, |body|);
    TailLeads(flush, zlib, c2, adler);
    var c3 := AfterFlush(flush, zlib, p1 + |body| + |tail|, to, adler);
    LeadsTrans(zlib, c1, body, c2, tail, c3);
    LeadsTrans(zlib, c0, head, c1, body + tail, c3);
  }

  lemma FlushBitsAt(first: bool, zlib: bool, level: nat, flush: Flush, b: Block, p: nat, q: nat, adler: nat)
    requires level < 4 && BlockOk(b) && p % 8 == q % 8
    ensures FlushBits(first, zlib, level, flush, b, p, adler) == FlushBits(first, zlib, level, flush, b, q, adler)
  {
    hide BlockOk, BlockBits, TailBits, ToBits, ZlibBits;
    var head := if first && zlib then ZlibBits(level) else [];
    SameShift(p, q, |head| + 1);
    BlockBitsAt(b, p + |head| + 1, q + |head| + 1);
    var body := ToBits(BitValue(flush.Finish?), 1) + BlockBits(b, p + |head| + 1);
    SameShift(p, q, |head| + |body|);
    TailBitsAt(flush, zlib, p + |head| + |body|, q + |head| + |body|, adler);
  }

  lemma SameShift(p: nat, q: nat, n: nat)
    requires p % 8 == q % 8
    ensures (p + n) % 8 == (q + n) % 8
  {
  }

  lemma TailBitsAt(flush: Flush, zlib: bool, p: nat, q: nat, adler: nat)
    requires p % 8 == q % 8
    ensures TailBits(flush, zlib, p, adler) == TailBits(flush, zlib, q, adler)
  {
    hide BlockBits, BigEndian, ToBits;
    assert (p + 1) % 8 == (q + 1) % 8;
    assert BlockOk(Stored([]));
    BlockBitsAt(Stored([]), p + 1, q + 1);
  }

  /** The theorem behind the compressor's invariant: a stream that decodes to `out`, and one more flush. */
  lemma FlushDrives(bits: seq<bool>, first: bool, zlib: bool, level: nat, flush: Flush, b: Block, pos: nat, adler: nat, out: seq<u8>, to: seq<u8>)
    requires level < 4 && BlockOk(b) && Produces(b, out, to) && adler < 0x1_0000_0000 && pos % 8 == |bits| % 8
    requires first ==> bits == [] && out == []
    requires Drives(zlib, bits, Between(first, zlib, |bits|, out))
    ensures var more := FlushBits(first, zlib, level, flush, b, pos, adler);
      Drives(zlib, bits + more, AfterFlush(flush, zlib, |bits + more|, to, adler))
  {
    hide *;
    FlushBitsAt(first, zlib, level, flush, b, pos, |bits|, adler);
    FlushLeads(first, zlib, level, flush, b, |bits|, adler, out, to);
    var more := FlushBits(first, zlib, level, flush, b, pos, adler);
    DrivesFurther(zlib, bits, Between(first, zlib, |bits|, out), more, AfterFlush(flush, zlib, |bits| + |more|, to, adler));
  }

  lemma NothingDrives(zlib: bool)
    ensures Drives(zlib, [], Start(zlib))
  {
    hide Reaches;
    forall cfg | Suits(cfg, zlib)
      ensures Reaches(cfg, State(Start(zlib), []), State(Start(zlib), []))
    {
      ReachesRefl(cfg, State(Start(zlib), []));
    }
  }
}
