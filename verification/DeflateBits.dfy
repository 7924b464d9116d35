/**
 The bit strings the compressor emits for tokens, block headers and stored blocks, and the proof
 that the inflating machine reads each of them back.
 */
module DeflateBits {
  import opened Bits
  import opened Canonical
  import opened LzTokens
  import opened CodeLengthRle
  import opened InflateSpec
  import opened Options
  import T = TokenBuffers

  // ---------------------------------------------------------------- tokens

  ghost predicate HasCode(lens: seq<nat>, i: nat)
  {
    i < |lens| && lens[i] > 0
  }

  ghost predicate Codable(lit: seq<nat>, dist: seq<nat>, t: Token)
  {
    && t.Ok() && HasCode(lit, T.LitSymOf(t))
    && (t.Match? ==> HasCode(dist, T.DistSymOf(t)))
  }

  ghost predicate AllCodable(lit: seq<nat>, dist: seq<nat>, ts: seq<Token>)
  {
    forall k :: 0 <= k < |ts| ==> Codable(lit, dist, ts[k])
  }

  ghost function ExtraLow(x: nat, n: nat): (r: seq<bool>)
    ensures |r| == n
  {
    ToBits(x % Pow2(n), n)
  }

  ghost function DistanceBits(dist: seq<nat>, d: nat): seq<bool>
    requires HasCode(dist, DistSym(d))
  {
    HuffBits(dist, DistSym(d)) + ExtraLow(d, DistExtra(d))
  }

  ghost function LengthCodeBits(lit: seq<nat>, x: nat): seq<bool>
    requires HasCode(lit, LenSym(x))
  {
    HuffBits(lit, LenSym(x)) + ExtraLow(x, LenExtra(x))
  }

  ghost function TokenBits(lit: seq<nat>, dist: seq<nat>, t: Token): seq<bool>
    requires Codable(lit, dist, t)
  {
    match t
    case Lit(b) => HuffBits(lit, b)
    case Match(len, d) => LengthCodeBits(lit, len - MIN_MATCH_LEN) + DistanceBits(dist, d - 1)
  }

  ghost function TokensBits(lit: seq<nat>, dist: seq<nat>, ts: seq<Token>): seq<bool>
    requires AllCodable(lit, dist, ts)
  {
    if ts == [] then [] else TokenBits(lit, dist, ts[0]) + TokensBits(lit, dist, ts[1..])
  }

  /** A read that leaves the output alone. */
  function At(c: Core, loc: Loc, bits: nat): Core
  {
    c.(loc := loc, pos := c.pos + bits)
  }

  lemma {:induction false} CopyRun(cfg: Config, c: Core, lit: seq<nat>, dist: seq<nat>, len: nat, from: nat, rest: seq<bool>)
    requires c.loc == Copying(lit, dist, len, from) && 1 <= from <= |c.out|
    ensures Reaches(cfg, State(c, rest), State(c.(loc := Symbol(lit, dist), out := Copy(c.out, len, from)), rest))
    decreases len
  {
    hide Reaches;
    if len == 0 {
      StepNothing(cfg, c, c.(loc := Symbol(lit, dist)), rest);
    } else {
      var c' := c.(loc := Copying(lit, dist, len - 1, from), out := c.out + [c.out[|c.out| - from]]);
      StepNothing(cfg, c, c', rest);
      CopyRun(cfg, c', lit, dist, len - 1, from, rest);
      ReachesTrans(cfg, State(c, rest), State(c', rest), State(c.(loc := Symbol(lit, dist), out := Copy(c.out, len, from)), rest));
    }
  }

  /** A Huffman symbol followed by `e` extra bits, `e` possibly zero: the machine goes from `c` to `ready`. */
  lemma SymbolWithExtra(cfg: Config, c: Core, mid: Core, ready: Core, lens: seq<nat>, sym: nat, e: nat, v: nat, rest: seq<bool>)
    requires Wants(c) == Code(lens) && Kraft(lens, 15) && HasCode(lens, sym) && v < Pow2(e)
    requires Next(cfg, c.(pos := c.pos + lens[sym]), sym) == Some(if e == 0 then ready else mid)
    requires e > 0 ==> Wants(mid) == Bits(e) && Next(cfg, mid.(pos := mid.pos + e), v) == Some(ready)
    ensures Reaches(cfg, State(c, HuffBits(lens, sym) + ToBits(v, e) + rest), State(ready, rest))
  {
    hide Reaches, Kraft, Next, Wants;
    var h, x := HuffBits(lens, sym), ToBits(v, e);
    assert h + x + rest == h + (x + rest);
    if e == 0 {
      assert x + rest == rest;
      StepCode(cfg, c, ready, lens, sym, rest);
    } else {
      StepCode(cfg, c, mid, lens, sym, x + rest);
      StepBits(cfg, mid, ready, e, v, rest);
      ReachesTrans(cfg, State(c, h + (x + rest)), State(mid, x + rest), State(ready, rest));
    }
  }

  lemma DistanceNext(cfg: Config, c: Core, lit: seq<nat>, dist: seq<nat>, len: nat, sym: nat, base: nat, e: nat, v: nat)
    requires c.loc == DistSymbol(lit, dist, len) && sym < 32 && DistanceExtra(sym) == e && DistanceBase(sym) == base
    requires 1 <= base + v <= |c.out| && (e == 0 ==> v == 0)
    ensures Next(cfg, c, sym) == Some(c.(loc := if e == 0 then Copying(lit, dist, len, base + v) else DistBits(lit, dist, len, base, e)))
  {
  }

  lemma DistanceWith(cfg: Config, c: Core, lit: seq<nat>, dist: seq<nat>, len: nat, sym: nat, base: nat, e: nat, v: nat, rest: seq<bool>)
    requires c.loc == DistSymbol(lit, dist, len) && sym < 32 && DistanceExtra(sym) == e && DistanceBase(sym) == base
    requires Kraft(dist, 15) && HasCode(dist, sym) && v < Pow2(e) && 1 <= base + v <= |c.out|
    ensures Reaches(cfg, State(c, HuffBits(dist, sym) + ToBits(v, e) + rest),
                    State(At(c, Copying(lit, dist, len, base + v), dist[sym] + e), rest))
  {
    hide Reaches, Kraft, HuffBits, DistanceBase, DistanceExtra;
    var mid := At(c, DistBits(lit, dist, len, base, e), dist[sym]);
    var ready := At(c, Copying(lit, dist, len, base + v), dist[sym] + e);
    DistanceNext(cfg, At(c, c.loc, dist[sym]), lit, dist, len, sym, base, e, v);
    assert Wants(mid) == Bits(e) && Next(cfg, mid.(pos := mid.pos + e), v) == Some(ready);
    SymbolWithExtra(cfg, c, mid, ready, dist, sym, e, v, rest);
  }

  /** The distance read, whether it has extra bits or not. */
  lemma DistanceReads(cfg: Config, c: Core, lit: seq<nat>, dist: seq<nat>, len: nat, from: nat, rest: seq<bool>) returns (ready: Core)
    requires c.loc == DistSymbol(lit, dist, len) && 1 <= from <= DICT_SIZE && from <= |c.out|
    requires Kraft(dist, 15) && HasCode(dist, DistSym(from - 1))
    ensures ready == c.(loc := Copying(lit, dist, len, from), pos := c.pos + |DistanceBits(dist, from - 1)|)
    ensures Reaches(cfg, State(c, DistanceBits(dist, from - 1) + rest), State(ready, rest))
  {
    hide Reaches, Kraft, HuffBits, DistSym, DistExtra, DistanceBase, DistanceExtra, ToBits, Pow2;
    var d := from - 1;
    var sym, e := DistSym(d), DistExtra(d);
    DistRoundTrip(from);
    DistanceWith(cfg, c, lit, dist, len, sym, DistanceBase(sym), e, d % Pow2(e), rest);
    ready := At(c, Copying(lit, dist, len, from), dist[sym] + e);
  }

  /** The distance part of a match, from the distance symbol to the end of the copy. */
  lemma DistanceDecodes(cfg: Config, c: Core, lit: seq<nat>, dist: seq<nat>, len: nat, from: nat, rest: seq<bool>)
    requires c.loc == DistSymbol(lit, dist, len) && 1 <= from <= DICT_SIZE && from <= |c.out|
    requires Kraft(dist, 15) && HasCode(dist, DistSym(from - 1))
    ensures Reaches(cfg, State(c, DistanceBits(dist, from - 1) + rest),
                    State(c.(loc := Symbol(lit, dist), out := Copy(c.out, len, from), pos := c.pos + |DistanceBits(dist, from - 1)|), rest))
  {
    hide *;
    var d := from - 1;
    var sym, e := DistSym(d), DistExtra(d);
    var ready := DistanceReads(cfg, c, lit, dist, len, from, rest);
    CopyRun(cfg, ready, lit, dist, len, from, rest);
    var end := ready.(loc := Symbol(lit, dist), out := Copy(c.out, len, from));
    ReachesTrans(cfg, State(c, DistanceBits(dist, d) + rest), State(ready, rest), State(end, rest));
  }

  lemma LengthNext(cfg: Config, c: Core, lit: seq<nat>, dist: seq<nat>, sym: nat, base: nat, e: nat, v: nat)
    requires c.loc == Symbol(lit, dist) && 257 <= sym < 288 && LengthExtra(sym - 257) == e && LengthBase(sym - 257) == base
    requires e == 0 ==> v == 0
    ensures Next(cfg, c, sym) == Some(c.(loc := if e == 0 then DistSymbol(lit, dist, base + v) else LengthBits(lit, dist, base, e)))
  {
  }

  lemma LengthWith(cfg: Config, c: Core, lit: seq<nat>, dist: seq<nat>, sym: nat, base: nat, e: nat, v: nat, rest: seq<bool>)
    requires c.loc == Symbol(lit, dist) && 257 <= sym < 288 && LengthExtra(sym - 257) == e && LengthBase(sym - 257) == base
    requires Kraft(lit, 15) && HasCode(lit, sym) && v < Pow2(e)
    ensures Reaches(cfg, State(c, HuffBits(lit, sym) + ToBits(v, e) + rest), State(At(c, DistSymbol(lit, dist, base + v), lit[sym] + e), rest))
  {
    hide Reaches, Kraft, HuffBits, LengthBase, LengthExtra;
    var mid := At(c, LengthBits(lit, dist, base, e), lit[sym]);
    var ready := At(c, DistSymbol(lit, dist, base + v), lit[sym] + e);
    LengthNext(cfg, At(c, c.loc, lit[sym]), lit, dist, sym, base, e, v);
    assert Wants(mid) == Bits(e) && Next(cfg, mid.(pos := mid.pos + e), v) == Some(ready);
    SymbolWithExtra(cfg, c, mid, ready, lit, sym, e, v, rest);
  }

  lemma LengthDecodes(cfg: Config, c: Core, lit: seq<nat>, dist: seq<nat>, len: nat, rest: seq<bool>)
    requires c.loc == Symbol(lit, dist) && MIN_MATCH_LEN <= len <= MAX_MATCH_LEN
    requires Kraft(lit, 15) && HasCode(lit, LenSym(len - MIN_MATCH_LEN))
    ensures var bits := LengthCodeBits(lit, len - MIN_MATCH_LEN);
      Reaches(cfg, State(c, bits + rest), State(At(c, DistSymbol(lit, dist, len), |bits|), rest))
  {
    hide LenSym, LenExtra, LengthBase, LengthExtra, Reaches, Kraft, HuffBits;
    var x := len - MIN_MATCH_LEN;
    LengthRoundTrip(len);
    LengthWith(cfg, c, lit, dist, LenSym(x), LengthBase(LenSym(x) - 257), LenExtra(x), x % Pow2(LenExtra(x)), rest);
  }

  lemma LiteralDecodes(cfg: Config, c: Core, lit: seq<nat>, dist: seq<nat>, b: u8, rest: seq<bool>)
    requires c.loc == Symbol(lit, dist) && Kraft(lit, 15) && HasCode(lit, b)
    ensures Reaches(cfg, State(c, HuffBits(lit, b) + rest), State(c.(out := c.out + [b], pos := c.pos + |HuffBits(lit, b)|), rest))
  {
    hide Reaches, Kraft, HuffBits;
    var bits := HuffBits(lit, b);
    var c1, end := At(c, Emit(lit, dist, b), |bits|), c.(out := c.out + [b], pos := c.pos + |bits|);
    StepCode(cfg, c, c1, lit, b, rest);
    StepNothing(cfg, c1, end, rest);
    ReachesTrans(cfg, State(c, bits + rest), State(c1, rest), State(end, rest));
  }

  lemma MatchDecodes(cfg: Config, c: Core, lit: seq<nat>, dist: seq<nat>, len: nat, from: nat, rest: seq<bool>)
    requires c.loc == Symbol(lit, dist) && Kraft(lit, 15) && Kraft(dist, 15)
    requires Codable(lit, dist, Match(len, from)) && from <= |c.out|
    ensures var bits := TokenBits(lit, dist, Match(len, from));
      Reaches(cfg, State(c, bits + rest), State(c.(out := Copy(c.out, len, from), pos := c.pos + |bits|), rest))
  {
    hide Reaches, Kraft, LengthCodeBits, DistanceBits, Copy;
    var l, d := LengthCodeBits(lit, len - MIN_MATCH_LEN), DistanceBits(dist, from - 1);
    assert TokenBits(lit, dist, Match(len, from)) + rest == l + (d + rest);
    var c1 := At(c, DistSymbol(lit, dist, len), |l|);
    LengthDecodes(cfg, c, lit, dist, len, d + rest);
    DistanceDecodes(cfg, c1, lit, dist, len, from, rest);
    var end := c.(out := Copy(c.out, len, from), pos := c.pos + |l| + |d|);
    ReachesTrans(cfg, State(c, l + (d + rest)), State(c1, d + rest), State(end, rest));
  }

  /** One token's bits make the machine perform that token. */
  lemma TokenDecodes(cfg: Config, c: Core, lit: seq<nat>, dist: seq<nat>, t: Token, rest: seq<bool>)
    requires c.loc == Symbol(lit, dist) && Kraft(lit, 15) && Kraft(dist, 15)
    requires Codable(lit, dist, t) && Applies(c.out, t)
    ensures var bits := TokenBits(lit, dist, t);
      Reaches(cfg, State(c, bits + rest), State(c.(out := Apply(c.out, t), pos := c.pos + |bits|), rest))
  {
    hide Reaches, Kraft, HuffBits, Copy;
    match t
    case Lit(b) => LiteralDecodes(cfg, c, lit, dist, b, rest);
    case Match(len, from) => MatchDecodes(cfg, c, lit, dist, len, from, rest);
  }

  /** All tokens of a block. */
  lemma {:induction false} TokensDecode(cfg: Config, c: Core, lit: seq<nat>, dist: seq<nat>, ts: seq<Token>, to: seq<u8>, rest: seq<bool>)
    requires c.loc == Symbol(lit, dist) && Kraft(lit, 15) && Kraft(dist, 15)
    requires AllCodable(lit, dist, ts) && Expands(c.out, ts, to)
    ensures var bits := TokensBits(lit, dist, ts);
      Reaches(cfg, State(c, bits + rest), State(c.(out := to, pos := c.pos + |bits|), rest))
    decreases |ts|
  {
    hide Reaches, Kraft, TokenBits, Apply, Applies, Codable;
    if ts == [] {
      assert TokensBits(lit, dist, ts) + rest == rest;
      ReachesRefl(cfg, State(c, rest));
    } else {
      var b, bs := TokenBits(lit, dist, ts[0]), TokensBits(lit, dist, ts[1..]);
      var c1 := c.(out := Apply(c.out, ts[0]), pos := c.pos + |b|);
      assert TokensBits(lit, dist, ts) + rest == b + (bs + rest);
      TokenDecodes(cfg, c, lit, dist, ts[0], bs + rest);
      TokensDecode(cfg, c1, lit, dist, ts[1..], to, rest);
      ReachesTrans(cfg, State(c, b + (bs + rest)), State(c1, bs + rest), State(c.(out := to, pos := c.pos + |b| + |bs|), rest));
    }
  }

  /** Tokens and the end-of-block symbol. */
  ghost function BodyBits(lit: seq<nat>, dist: seq<nat>, ts: seq<Token>): seq<bool>
    requires AllCodable(lit, dist, ts) && HasCode(lit, 256)
  {
    TokensBits(lit, dist, ts) + HuffBits(lit, 256)
  }

  lemma BodyDecodes(cfg: Config, c: Core, lit: seq<nat>, dist: seq<nat>, ts: seq<Token>, to: seq<u8>, rest: seq<bool>)
    requires c.loc == Symbol(lit, dist) && Kraft(lit, 15) && Kraft(dist, 15)
    requires AllCodable(lit, dist, ts) && HasCode(lit, 256) && Expands(c.out, ts, to)
    ensures var bits := BodyBits(lit, dist, ts);
      Reaches(cfg, State(c, bits + rest), State(AfterBlock(c).(out := to, pos := c.pos + |bits|), rest))
  {
    hide Reaches, Kraft, TokensBits, Expands;
    var bs, e := TokensBits(lit, dist, ts), HuffBits(lit, 256);
    hide HuffBits;
    assert BodyBits(lit, dist, ts) + rest == bs + (e + rest);
    TokensDecode(cfg, c, lit, dist, ts, to, e + rest);
    var c1 := c.(out := to, pos := c.pos + |bs|);
    var c2 := AfterBlock(c).(out := to, pos := c.pos + |bs| + |e|);
    StepCode(cfg, c1, c2, lit, 256, rest);
    ReachesTrans(cfg, State(c, bs + (e + rest)), State(c1, e + rest), State(c2, rest));
  }

  // ---------------------------------------------------------------- block headers

  /** `BFINAL` and `BTYPE` */
  ghost function HeaderBits(final: bool, kind: nat): (r: seq<bool>)
    ensures |r| == 3
  {
    ToBits(BitValue(final), 1) + ToBits(kind, 2)
  }

  lemma HeaderDecodes(cfg: Config, c: Core, final: bool, kind: nat, rest: seq<bool>)
    requires c.loc == Header && kind < 3
    ensures Reaches(cfg, State(c, HeaderBits(final, kind) + rest),
                    State(c.(final := final, pos := c.pos + 3,
                             loc := if kind == 0 then RawAlign else if kind == 1 then Symbol(FixedLit(), FixedDist()) else TableSizes([])), rest))
  {
    var f := BitValue(final);
    assert Pow2(1) == 2 && Pow2(3) == 8;
    ToBitsJoin(f, 1, kind, 2);
    hide Reaches, FixedLit, FixedDist, ToBits;
    StepBits(cfg, c, c.(final := final, pos := c.pos + 3,
             loc := if kind == 0 then RawAlign else if kind == 1 then Symbol(FixedLit(), FixedDist()) else TableSizes([])), 3, f + kind * 2, rest);
  }

  lemma {:induction false} CountRun(v: nat, n: nat, l: nat)
    ensures Count(seq(n, _ => v), l) == if v == l then n else 0
  {
    if n > 0 {
      CountRun(v, n - 1, l);
      assert seq(n, _ => v)[..n - 1] == seq(n - 1, _ => v);
    }
  }

  lemma FixedLitCounts(l: nat)
    ensures Count(FixedLit(), l) == (if l == 7 then 24 else if l == 8 then 152 else if l == 9 then 112 else 0)
  {
    var a, b, c, d := seq(144, _ => 8), seq(112, _ => 9), seq(24, _ => 7), seq(8, _ => 8);
    CountConcat(a + b + c, d, l);
    CountConcat(a + b, c, l);
    CountConcat(a, b, l);
    CountRun(8, 144, l);
    CountRun(9, 112, l);
    CountRun(7, 24, l);
    CountRun(8, 8, l);
  }

  lemma {:induction false} UsedEmpty(s: seq<nat>, l: nat)
    requires forall k :: 1 <= k <= l ==> Count(s, k) == 0
    ensures Used(s, l) == 0
  {
    if l > 0 {
      UsedEmpty(s, l - 1);
    }
  }

  lemma FixedComplete()
    ensures Complete(FixedLit(), 15) && Complete(FixedDist(), 15)
    ensures |FixedLit()| == 288 && |FixedDist()| == 32
  {
    forall l
      ensures Count(FixedLit(), l) == (if l == 7 then 24 else if l == 8 then 152 else if l == 9 then 112 else 0)
      ensures Count(FixedDist(), l) == if l == 5 then 32 else 0
    {
      FixedLitCounts(l);
      CountRun(5, 32, l);
    }
    UsedEmpty(FixedLit(), 6);
    assert Used(FixedLit(), 7) == 24 && Used(FixedLit(), 8) == 200 && Used(FixedLit(), 9) == 512;
    UsedEmpty(FixedDist(), 4);
    assert Used(FixedDist(), 5) == 32;
    assert Pow2(9) == 512 && Pow2(5) == 32;
    CompleteRaise(FixedLit(), 9, 15);
    CompleteRaise(FixedDist(), 5, 15);
  }

  // ---------------------------------------------------------------- dynamic headers

  ghost function SizesBits(n0: nat, n1: nat, n2: nat): seq<bool>
    requires n0 >= 257 && n1 >= 1 && n2 >= 4
  {
    ToBits(n0 - 257, 5) + (ToBits(n1 - 1, 5) + ToBits(n2 - 4, 4))
  }

  /** Read a field, then go on. */
  lemma BitsThen(cfg: Config, c: Core, c1: Core, t: State, n: nat, v: nat, rest: seq<bool>)
    requires Wants(c) == Bits(n) && v < Pow2(n) && Next(cfg, c.(pos := c.pos + n), v) == Some(c1)
    requires Reaches(cfg, State(c1, rest), t)
    ensures Reaches(cfg, State(c, ToBits(v, n) + rest), t)
  {
    StepBits(cfg, c, c1, n, v, rest);
    ReachesTrans(cfg, State(c, ToBits(v, n) + rest), State(c1, rest), t);
  }

  lemma SizeNext(cfg: Config, c: Core, sizes: seq<nat>, v: nat)
    requires c.loc == TableSizes(sizes) && |sizes| <= 2
    ensures Wants(c) == Bits(TableSizeBits(|sizes|))
    ensures var s := sizes + [v + MinTableSize(|sizes|)];
      Next(cfg, c, v) == Some(c.(loc := if |sizes| < 2 then TableSizes(s) else ClLens(s[0], s[1], s[2], NoLens(), 0)))
  {
  }

  lemma SizeStep(cfg: Config, c: Core, sizes: seq<nat>, v: nat, c1: Core, t: State, rest: seq<bool>)
    requires c.loc == TableSizes(sizes) && |sizes| <= 2 && v < Pow2(TableSizeBits(|sizes|))
    requires var s := sizes + [v + MinTableSize(|sizes|)];
      c1 == At(c, if |sizes| < 2 then TableSizes(s) else ClLens(s[0], s[1], s[2], NoLens(), 0), TableSizeBits(|sizes|))
    requires Reaches(cfg, State(c1, rest), t)
    ensures Reaches(cfg, State(c, ToBits(v, TableSizeBits(|sizes|)) + rest), t)
  {
    hide Reaches, ToBits, Next, Wants, Pow2;
    SizeNext(cfg, c, sizes, v);
    SizeNext(cfg, At(c, c.loc, TableSizeBits(|sizes|)), sizes, v);
    BitsThen(cfg, c, c1, t, TableSizeBits(|sizes|), v, rest);
  }

  lemma SizesDecode(cfg: Config, c: Core, n0: nat, n1: nat, n2: nat, t: State, rest: seq<bool>)
    requires c.loc == TableSizes([]) && 257 <= n0 < 289 && 1 <= n1 < 33 && 4 <= n2 < 20
    requires Reaches(cfg, State(At(c, ClLens(n0, n1, n2, NoLens(), 0), 14), rest), t)
    ensures Reaches(cfg, State(c, SizesBits(n0, n1, n2) + rest), t)
  {
    hide Reaches, ToBits, Next, Wants, Pow2, SizesBits, NoLens;
    Pow2Values();
    SizesAssoc(n0, n1, n2, rest);
    var b, d := ToBits(n1 - 1, 5), ToBits(n2 - 4, 4);
    var c1, c2 := At(c, TableSizes([n0]), 5), At(c, TableSizes([n0, n1]), 10);
    SizeStep(cfg, c2, [n0, n1], n2 - 4, At(c, ClLens(n0, n1, n2, NoLens(), 0), 14), t, rest);
    assert [n0] + [n1] == [n0, n1];
    SizeStep(cfg, c1, [n0], n1 - 1, c2, t, d + rest);
    assert [] + [n0] == [n0];
    SizeStep(cfg, c, [], n0 - 257, c1, t, b + (d + rest));
  }

  lemma SizesAssoc(n0: nat, n1: nat, n2: nat, rest: seq<bool>)
    requires n0 >= 257 && n1 >= 1 && n2 >= 4
    ensures SizesBits(n0, n1, n2) + rest == ToBits(n0 - 257, 5) + (ToBits(n1 - 1, 5) + (ToBits(n2 - 4, 4) + rest))
  {
    hide ToBits;
    Assoc3(ToBits(n0 - 257, 5), ToBits(n1 - 1, 5), ToBits(n2 - 4, 4), rest);
  }

  lemma Assoc3<X>(a: seq<X>, b: seq<X>, c: seq<X>, d: seq<X>)
    ensures a + (b + c) + d == a + (b + (c + d))
  {
  }

  /** The lengths of the code-length code in their transmission order, from position `k` on. */
  ghost function ClBits(cl: seq<nat>, k: nat, n2: nat): seq<bool>
    requires |cl| == 19 && n2 <= 19
    decreases n2 - k
  {
    if k >= n2 then [] else ToBits(cl[Zig(k)], 3) + ClBits(cl, k + 1, n2)
  }

  ghost function Partial(cl: seq<nat>, k: nat): (r: seq<nat>)
    requires |cl| == 19 && k <= 19
    ensures |r| == 19
  {
    if k == 0 then NoLens() else Partial(cl, k - 1)[Zig(k - 1) := cl[Zig(k - 1)]]
  }

  lemma {:induction false} PartialAt(cl: seq<nat>, k: nat, x: nat)
    requires |cl| == 19 && k <= 19 && x < 19
    ensures Partial(cl, k)[x] == 0 || Partial(cl, k)[x] == cl[x]
    ensures forall i :: 0 <= i < k && Zig(i) == x ==> Partial(cl, k)[x] == cl[x]
  {
    hide Zig;
    if k > 0 {
      PartialAt(cl, k - 1, x);
    }
  }

  lemma ZigOnto(x: nat) returns (i: nat)
    requires x < 19
    ensures i < 19 && Zig(i) == x
  {
    i := if x == 0 then 3 else if x >= 16 then x - 16 else if x >= 8 then 4 + 2 * (x - 8) else 19 - 2 * x;
  }

  lemma PartialWhole(cl: seq<nat>, n2: nat)
    requires |cl| == 19 && n2 <= 19 && forall i :: n2 <= i < 19 ==> cl[Zig(i)] == 0
    ensures Partial(cl, n2) == cl
  {
    hide Zig, Partial;
    forall x | 0 <= x < 19
      ensures Partial(cl, n2)[x] == cl[x]
    {
      PartialAt(cl, n2, x);
      var i := ZigOnto(x);
    }
  }

  lemma ClNext(cfg: Config, c: Core, n0: nat, n1: nat, n2: nat, cl: seq<nat>, k: nat)
    requires |cl| == 19 && k < n2 <= 19 && TableOk(cl)
    requires forall i :: n2 <= i < 19 ==> cl[Zig(i)] == 0
    requires c.loc == ClLens(n0, n1, n2, Partial(cl, k), k)
    ensures Wants(c) == Bits(3)
    ensures Next(cfg, c, cl[Zig(k)]) == Some(c.(loc := if k + 1 < n2 then ClLens(n0, n1, n2, Partial(cl, k + 1), k + 1) else LenCodes(n0, n1, cl, [])))
  {
    hide Zig, TableOk;
    if k + 1 == n2 {
      PartialWhole(cl, n2);
    }
  }

  lemma ClStep(cfg: Config, c: Core, n0: nat, n1: nat, n2: nat, cl: seq<nat>, k: nat, t: State, rest: seq<bool>)
    requires |cl| == 19 && k < n2 <= 19 && TableOk(cl) && cl[Zig(k)] < 8
    requires forall i :: n2 <= i < 19 ==> cl[Zig(i)] == 0
    requires c.loc == ClLens(n0, n1, n2, Partial(cl, k), k)
    requires Reaches(cfg, State(At(c, if k + 1 < n2 then ClLens(n0, n1, n2, Partial(cl, k + 1), k + 1) else LenCodes(n0, n1, cl, []), 3), rest), t)
    ensures Reaches(cfg, State(c, ToBits(cl[Zig(k)], 3) + rest), t)
  {
    hide Reaches, TableOk, Zig, Partial, Next, Wants, ToBits, Pow2;
    Pow2Values();
    ClNext(cfg, c, n0, n1, n2, cl, k);
    ClNext(cfg, At(c, c.loc, 3), n0, n1, n2, cl, k);
    BitsThen(cfg, c, At(c, if k + 1 < n2 then ClLens(n0, n1, n2, Partial(cl, k + 1), k + 1) else LenCodes(n0, n1, cl, []), 3), t, 3, cl[Zig(k)], rest);
  }

  lemma {:induction false} ClDecode(cfg: Config, c: Core, n0: nat, n1: nat, n2: nat, cl: seq<nat>, k: nat, t: State, rest: seq<bool>)
    requires |cl| == 19 && k < n2 <= 19 && TableOk(cl)
    requires forall i :: 0 <= i < 19 ==> cl[i] < 8
    requires forall i :: n2 <= i < 19 ==> cl[Zig(i)] == 0
    requires c.loc == ClLens(n0, n1, n2, Partial(cl, k), k)
    requires Reaches(cfg, State(At(c, LenCodes(n0, n1, cl, []), 3 * (n2 - k)), rest), t)
    ensures Reaches(cfg, State(c, ClBits(cl, k, n2) + rest), t)
    decreases n2 - k
  {
    hide Reaches, TableOk, Zig, Partial, Next, Wants, ToBits, Pow2;
    var b, bs := ToBits(cl[Zig(k)], 3), ClBits(cl, k + 1, n2);
    assert ClBits(cl, k, n2) + rest == b + (bs + rest);
    if k + 1 < n2 {
      var c1 := At(c, ClLens(n0, n1, n2, Partial(cl, k + 1), k + 1), 3);
      ClDecode(cfg, c1, n0, n1, n2, cl, k + 1, t, rest);
    } else {
      assert bs + rest == rest;
    }
    ClStep(cfg, c, n0, n1, n2, cl, k, t, bs + rest);
  }

  // ---------------------------------------------------------------- run-length coded lengths

  ghost function ItemBits(cl: seq<nat>, it: Item): seq<bool>
    requires HasCode(cl, it.sym)
  {
    HuffBits(cl, it.sym) + ToBits(it.extra, ExtraBits(it.sym))
  }

  ghost predicate ItemsCodable(cl: seq<nat>, items: seq<Item>)
  {
    forall k :: 0 <= k < |items| ==> HasCode(cl, items[k].sym)
  }

  ghost function ItemsBits(cl: seq<nat>, items: seq<Item>): seq<bool>
    requires ItemsCodable(cl, items)
  {
    if items == [] then [] else ItemsBits(cl, items[..|items| - 1]) + ItemBits(cl, items[|items| - 1])
  }

  lemma ItemDecodes(cfg: Config, c: Core, n0: nat, n1: nat, cl: seq<nat>, lens: seq<nat>, it: Item, rest: seq<bool>)
    requires c.loc == LenCodes(n0, n1, cl, lens) && Kraft(cl, 15) && HasCode(cl, it.sym) && it.Valid()
    requires it.sym == 16 ==> lens != []
    ensures Reaches(cfg, State(c, ItemBits(cl, it) + rest),
                    State(At(c, MoreLens(n0, n1, cl, lens + ItemLens(lens, it)), |ItemBits(cl, it)|), rest))
  {
    hide Reaches, Kraft, HuffBits, MoreLens, ItemLens;
    var e := ExtraBits(it.sym);
    var mid := At(c, LenRun(n0, n1, cl, lens, it.sym), cl[it.sym]);
    var ready := At(c, MoreLens(n0, n1, cl, lens + ItemLens(lens, it)), cl[it.sym] + e);
    ShortItem(lens, it);
    SymbolWithExtra(cfg, c, mid, ready, cl, it.sym, e, it.extra, rest);
  }

  lemma ShortItem(lens: seq<nat>, it: Item)
    ensures it.sym < 16 ==> ItemLens(lens, it) == [it.sym]
  {
  }

  lemma ItemsSplit(cl: seq<nat>, items: seq<Item>)
    requires items != [] && ItemsCodable(cl, items) && ValidItems(items)
    ensures var init, last := items[..|items| - 1], items[|items| - 1];
      && ItemsCodable(cl, init) && ValidItems(init) && last.Valid() && HasCode(cl, last.sym)
      && Expand(items) == Expand(init) + ItemLens(Expand(init), last) && |ItemLens(Expand(init), last)| > 0
      && ItemsBits(cl, items) == ItemsBits(cl, init) + ItemBits(cl, last)
      && (last.sym == 16 ==> Expand(init) != [])
      && (init == [] ==> Expand(init) == [] && ItemsBits(cl, init) == [])
  {
    PackedNoLonger(items[..|items| - 1]);
  }

  lemma {:induction false} ItemsDecode(cfg: Config, c: Core, n0: nat, n1: nat, cl: seq<nat>, items: seq<Item>, rest: seq<bool>)
    requires c.loc == LenCodes(n0, n1, cl, []) && Kraft(cl, 15) && ItemsCodable(cl, items) && ValidItems(items)
    requires items != [] && |Expand(items)| <= n0 + n1
    ensures Reaches(cfg, State(c, ItemsBits(cl, items) + rest),
                    State(At(c, MoreLens(n0, n1, cl, Expand(items)), |ItemsBits(cl, items)|), rest))
    decreases |items|
  {
    hide Reaches, Kraft, ItemBits, ItemsBits, Expand, ItemLens, ItemsCodable, ValidItems;
    ItemsSplit(cl, items);
    var init, last := items[..|items| - 1], items[|items| - 1];
    var done := Expand(init);
    var bs, b := ItemsBits(cl, init), ItemBits(cl, last);
    var c1, c2 := At(c, LenCodes(n0, n1, cl, done), |bs|), At(c, MoreLens(n0, n1, cl, Expand(items)), |bs| + |b|);
    assert bs + b + rest == bs + (b + rest);
    if init == [] {
      assert bs + (b + rest) == b + rest;
      ItemDecodes(cfg, c, n0, n1, cl, [], last, rest);
    } else {
      ItemsDecode(cfg, c, n0, n1, cl, init, b + rest);
      ItemDecodes(cfg, c1, n0, n1, cl, done, last, rest);
      ReachesTrans(cfg, State(c, bs + (b + rest)), State(c1, b + rest), State(c2, rest));
    }
  }

  // ---------------------------------------------------------------- tables the inflater accepts

  lemma {:induction false} UsedSnoc(s: seq<nat>, l: nat)
    requires s != []
    ensures var x := s[|s| - 1];
      Used(s, l) == Used(s[..|s| - 1], l) + (if 1 <= x <= l then Pow2(l - x) else 0)
  {
    if l > 0 {
      UsedSnoc(s, l - 1);
    }
  }

  lemma {:induction false} UsedAtMost(s: seq<nat>, l: nat)
    ensures Used(s, l) <= UsedSyms(s) * Pow2(l)
  {
    if s == [] {
      UsedEmpty(s, l);
    } else {
      var x := s[|s| - 1];
      UsedSnoc(s, l);
      UsedAtMost(s[..|s| - 1], l);
      if 1 <= x <= l {
        Pow2Mono(l - x, l);
      }
      Distrib(UsedSyms(s[..|s| - 1]), 1, Pow2(l));
    }
  }

  /** A table that passes the inflater's check decodes unambiguously. */
  lemma TableOkKraft(s: seq<nat>)
    requires TableOk(s)
    ensures Kraft(s, 15)
  {
    UsedAtMost(s, 15);
    if UsedSyms(s) <= 1 {
      MulMono(UsedSyms(s), 1, Pow2(15));
    }
  }

  // ---------------------------------------------------------------- whole blocks

  ghost function DynamicBits(n0: nat, n1: nat, n2: nat, cl: seq<nat>, items: seq<Item>): seq<bool>
    requires n0 >= 257 && n1 >= 1 && 4 <= n2 <= 19 && |cl| == 19 && ItemsCodable(cl, items)
  {
    SizesBits(n0, n1, n2) + (ClBits(cl, 0, n2) + ItemsBits(cl, items))
  }

  ghost predicate DynamicHeaderOk(n0: nat, n1: nat, n2: nat, cl: seq<nat>, items: seq<Item>)
  {
    && 257 <= n0 <= 288 && 1 <= n1 <= 32 && 4 <= n2 <= 19 && |cl| == 19
    && TableOk(cl) && ItemsCodable(cl, items) && ValidItems(items)
    && (forall i :: 0 <= i < 19 ==> cl[i] < 8)
    && (forall i :: n2 <= i < 19 ==> cl[Zig(i)] == 0)
    && |Expand(items)| == n0 + n1 && TableOk(Expand(items)[..n0]) && TableOk(Expand(items)[n0..])
  }

  lemma {:induction false} ClBitsLength(cl: seq<nat>, k: nat, n2: nat)
    requires |cl| == 19 && k <= n2 <= 19
    ensures |ClBits(cl, k, n2)| == 3 * (n2 - k)
    decreases n2 - k
  {
    if k < n2 {
      ClBitsLength(cl, k + 1, n2);
    }
  }

  lemma HeaderBounds(n0: nat, n1: nat, n2: nat, cl: seq<nat>, items: seq<Item>)
    requires DynamicHeaderOk(n0, n1, n2, cl, items)
    ensures 257 <= n0 <= 288 && 1 <= n1 <= 32 && 4 <= n2 <= 19 && |cl| == 19 && ItemsCodable(cl, items)
  {
  }

  lemma HeaderFacts(n0: nat, n1: nat, n2: nat, cl: seq<nat>, items: seq<Item>)
    requires DynamicHeaderOk(n0, n1, n2, cl, items)
    ensures 257 <= n0 <= 288 && 1 <= n1 <= 32 && 4 <= n2 <= 19 && |cl| == 19 && items != []
    ensures ItemsCodable(cl, items) && ValidItems(items) && TableOk(cl) && Kraft(cl, 15)
    ensures forall i :: 0 <= i < 19 ==> cl[i] < 8
    ensures forall i :: n2 <= i < 19 ==> cl[Zig(i)] == 0
    ensures |Expand(items)| == n0 + n1
    ensures MoreLens(n0, n1, cl, Expand(items)) == Symbol(Expand(items)[..n0], Expand(items)[n0..])
    ensures Partial(cl, 0) == NoLens() && |ClBits(cl, 0, n2)| == 3 * n2 && |SizesBits(n0, n1, n2)| == 14
  {
    TableOkKraft(cl);
    ClBitsLength(cl, 0, n2);
    SizesLength(n0, n1, n2);
  }

  lemma ClAndItemsDecode(cfg: Config, c: Core, n0: nat, n1: nat, n2: nat, cl: seq<nat>, items: seq<Item>, rest: seq<bool>)
    requires DynamicHeaderOk(n0, n1, n2, cl, items) && c.loc == ClLens(n0, n1, n2, NoLens(), 0)
    ensures Reaches(cfg, State(c, ClBits(cl, 0, n2) + (ItemsBits(cl, items) + rest)),
              State(At(c, MoreLens(n0, n1, cl, Expand(items)), 3 * n2 + |ItemsBits(cl, items)|), rest))
  {
    hide DynamicHeaderOk, Reaches, Kraft, TableOk, ClBits, ItemsBits, Expand, Zig, ItemsCodable, ValidItems, MoreLens, Partial, NoLens;
    HeaderFacts(n0, n1, n2, cl, items);
    var d := ItemsBits(cl, items);
    var c2 := At(c, LenCodes(n0, n1, cl, []), 3 * n2);
    var c3 := At(c2, MoreLens(n0, n1, cl, Expand(items)), |d|);
    ItemsDecode(cfg, c2, n0, n1, cl, items, rest);
    ClDecode(cfg, c, n0, n1, n2, cl, 0, State(c3, rest), d + rest);
  }

  /** A dynamic header hands the machine exactly the two tables it encodes. */
  lemma DynamicDecodes(cfg: Config, c: Core, n0: nat, n1: nat, n2: nat, cl: seq<nat>, items: seq<Item>, rest: seq<bool>)
    requires c.loc == TableSizes([]) && DynamicHeaderOk(n0, n1, n2, cl, items)
    ensures var bits, lens := DynamicBits(n0, n1, n2, cl, items), Expand(items);
      Reaches(cfg, State(c, bits + rest), State(At(c, Symbol(lens[..n0], lens[n0..]), |bits|), rest))
  {
    hide DynamicHeaderOk, Reaches, SizesBits, ClBits, ItemsBits, Expand, MoreLens, DynamicBits;
    HeaderBounds(n0, n1, n2, cl, items);
    HeaderFacts(n0, n1, n2, cl, items);
    DynamicAssoc(n0, n1, n2, cl, items, rest);
    DynamicRun(cfg, c, n0, n1, n2, cl, items, State(At(c, MoreLens(n0, n1, cl, Expand(items)), 14 + 3 * n2 + |ItemsBits(cl, items)|), rest), rest);
  }

  lemma DynamicAssoc(n0: nat, n1: nat, n2: nat, cl: seq<nat>, items: seq<Item>, rest: seq<bool>)
    requires n0 >= 257 && n1 >= 1 && 4 <= n2 <= 19 && |cl| == 19 && ItemsCodable(cl, items)
    ensures DynamicBits(n0, n1, n2, cl, items) + rest == SizesBits(n0, n1, n2) + (ClBits(cl, 0, n2) + (ItemsBits(cl, items) + rest))
    ensures |DynamicBits(n0, n1, n2, cl, items)| == |SizesBits(n0, n1, n2)| + |ClBits(cl, 0, n2)| + |ItemsBits(cl, items)|
  {
    hide ToBits, SizesBits, ClBits, ItemsBits;
    Assoc3(SizesBits(n0, n1, n2), ClBits(cl, 0, n2), ItemsBits(cl, items), rest);
  }

  lemma DynamicRun(cfg: Config, c: Core, n0: nat, n1: nat, n2: nat, cl: seq<nat>, items: seq<Item>, end: State, rest: seq<bool>)
    requires c.loc == TableSizes([]) && DynamicHeaderOk(n0, n1, n2, cl, items)
    requires end == State(At(c, MoreLens(n0, n1, cl, Expand(items)), 14 + 3 * n2 + |ItemsBits(cl, items)|), rest)
    ensures Reaches(cfg, State(c, SizesBits(n0, n1, n2) + (ClBits(cl, 0, n2) + (ItemsBits(cl, items) + rest))), end)
  {
    hide DynamicHeaderOk, Reaches, SizesBits, ClBits, ItemsBits, Expand, MoreLens, NoLens;
    HeaderBounds(n0, n1, n2, cl, items);
    ClAndItemsDecode(cfg, At(c, ClLens(n0, n1, n2, NoLens(), 0), 14), n0, n1, n2, cl, items, rest);
    SizesDecode(cfg, c, n0, n1, n2, end, ClBits(cl, 0, n2) + (ItemsBits(cl, items) + rest));
  }

  lemma SizesLength(n0: nat, n1: nat, n2: nat)
    requires n0 >= 257 && n1 >= 1 && n2 >= 4
    ensures |SizesBits(n0, n1, n2)| == 14
  {
  }

  // ---------------------------------------------------------------- stored blocks

  lemma RawByteDecodes(cfg: Config, c: Core, left: nat, b: u8, t: State, rest: seq<bool>)
    requires c.loc == RawCopy(left) && left > 0
    requires Reaches(cfg, State(c.(loc := RawCopy(left - 1), out := c.out + [b], pos := c.pos + 8), rest), t)
    ensures Reaches(cfg, State(c, ToBits(b, 8) + rest), t)
  {
    hide Reaches, ToBits, Pow2;
    Pow2Values();
    var c1 := At(c, RawByte(left, b), 8);
    var c2 := c1.(loc := RawCopy(left - 1), out := c.out + [b]);
    StepNothing(cfg, c1, c2, rest);
    ReachesTrans(cfg, State(c1, rest), State(c2, rest), t);
    BitsThen(cfg, c, c1, t, 8, b, rest);
  }

  lemma RawDataEnd(cfg: Config, c: Core, rest: seq<bool>)
    requires c.loc == RawCopy(0)
    ensures Reaches(cfg, State(c, BytesToBits([]) + rest), State(AfterBlock(c).(out := c.out + [], pos := c.pos), rest))
  {
    hide Reaches;
    assert c.out + [] == c.out && BytesToBits([]) + rest == rest;
    StepNothing(cfg, c, AfterBlock(c), rest);
  }

  lemma BytesHead(data: seq<u8>, rest: seq<bool>)
    requires data != []
    ensures BytesToBits(data) + rest == ToBits(data[0], 8) + (BytesToBits(data[1..]) + rest)
  {
    assert data == [data[0]] + data[1..];
    BytesToBitsConcat([data[0]], data[1..]);
    OneByte(data[0]);
  }

  lemma ConsAppend(out: seq<u8>, data: seq<u8>)
    requires data != []
    ensures out + [data[0]] + data[1..] == out + data
  {
  }

  lemma {:induction false} RawDataDecodes(cfg: Config, c: Core, data: seq<u8>, rest: seq<bool>)
    requires c.loc == RawCopy(|data|)
    ensures Reaches(cfg, State(c, BytesToBits(data) + rest), State(AfterBlock(c).(out := c.out + data, pos := c.pos + 8 * |data|), rest))
    decreases |data|
  {
    hide Reaches, BytesToBits, ToBits, Next, Wants;
    if data == [] {
      RawDataEnd(cfg, c, rest);
    } else {
      var b, more := data[0], data[1..];
      var c1 := c.(loc := RawCopy(|more|), out := c.out + [b], pos := c.pos + 8);
      BytesHead(data, rest);
      ConsAppend(c.out, data);
      RawDataDecodes(cfg, c1, more, rest);
      RawByteDecodes(cfg, c, |data|, b, State(AfterBlock(c).(out := c.out + data, pos := c.pos + 8 * |data|), rest), BytesToBits(more) + rest);
    }
  }

  lemma OneByte(b: u8)
    ensures BytesToBits([b]) == ToBits(b, 8)
  {
    assert [b][..0] == [] && [] + ToBits(b, 8) == ToBits(b, 8);
  }

  /** Padding to the byte boundary, the length and its complement, the bytes. */
  ghost function StoredBits(pos: nat, data: seq<u8>): seq<bool>
    requires |data| < 0x1_0000
  {
    ToBits(0, ToByteBoundary(pos)) + (ToBits(|data|, 16) + (ToBits(65535 - |data|, 16) + BytesToBits(data)))
  }

  lemma SixteenBits(v: nat)
    requires v < 0x1_0000
    ensures ToBits(v, 16) == ToBits(v % 256, 8) + ToBits(v / 256, 8)
  {
    assert Pow2(8) == 256;
    ToBitsJoin(v % 256, 8, v / 256, 8);
  }

  lemma RawHeaderNext(cfg: Config, c: Core, bytes: seq<nat>, v: nat)
    requires c.loc == RawHeader(bytes) && |bytes| <= 3
    ensures Wants(c) == Bits(8)
    ensures |bytes| < 3 ==> Next(cfg, c, v) == Some(c.(loc := RawHeader(bytes + [v])))
    ensures |bytes| == 3 && bytes[0] + 256 * bytes[1] == 65535 - (bytes[2] + 256 * v) ==> Next(cfg, c, v) == Some(c.(loc := RawCopy(bytes[0] + 256 * bytes[1])))
  {
  }

  /** Two header bytes sent as one 16-bit field. */
  lemma RawWordDecodes(cfg: Config, c: Core, bytes: seq<nat>, n: nat, c1: Core, c2: Core, t: State, rest: seq<bool>)
    requires c.loc == RawHeader(bytes) && |bytes| <= 2 && n < 0x1_0000 && c1 == At(c, RawHeader(bytes + [n % 256]), 8)
    requires if |bytes| < 2 then c2 == At(c, RawHeader(bytes + [n % 256] + [n / 256]), 16)
             else bytes[0] + 256 * bytes[1] == 65535 - n && c2 == At(c, RawCopy(bytes[0] + 256 * bytes[1]), 16)
    requires Reaches(cfg, State(c2, rest), t)
    ensures Reaches(cfg, State(c, ToBits(n, 16) + rest), t)
  {
    hide *;
    SixteenBits(n);
    var lo, hi := ToBits(n % 256, 8), ToBits(n / 256, 8);
    WordSteps(c, bytes, n, c1, c2);
    RawHeaderStep(cfg, c1, bytes + [n % 256], n / 256, c2, t, rest);
    RawHeaderStep(cfg, c, bytes, n % 256, c1, t, hi + rest);
    assert lo + hi + rest == lo + (hi + rest);
  }

  lemma WordSteps(c: Core, bytes: seq<nat>, n: nat, c1: Core, c2: Core)
    requires |bytes| <= 2 && n < 0x1_0000 && c1 == At(c, RawHeader(bytes + [n % 256]), 8)
    requires if |bytes| < 2 then c2 == At(c, RawHeader(bytes + [n % 256] + [n / 256]), 16)
             else bytes[0] + 256 * bytes[1] == 65535 - n && c2 == At(c, RawCopy(bytes[0] + 256 * bytes[1]), 16)
    ensures n % 256 < 256 && n / 256 < 256 && |bytes + [n % 256]| == |bytes| + 1 && c1.loc == RawHeader(bytes + [n % 256])
    ensures c1 == At(c, RawHeader(bytes + [n % 256]), 8)
    ensures var more := bytes + [n % 256];
      if |more| < 3 then c2 == At(c1, RawHeader(more + [n / 256]), 8)
      else more[0] + 256 * more[1] == 65535 - (more[2] + 256 * (n / 256)) && c2 == At(c1, RawCopy(more[0] + 256 * more[1]), 8)
  {
  }

  lemma RawHeaderDecodes(cfg: Config, c: Core, n: nat, t: State, rest: seq<bool>)
    requires c.loc == RawHeader([]) && n < 0x1_0000
    requires Reaches(cfg, State(At(c, RawCopy(n), 32), rest), t)
    ensures Reaches(cfg, State(c, ToBits(n, 16) + (ToBits(65535 - n, 16) + rest)), t)
  {
    hide Reaches, ToBits;
    var m := 65535 - n;
    var bytes := [n % 256, n / 256];
    assert [] + [n % 256] == [n % 256] && [] + [n % 256] + [n / 256] == bytes;
    var c2 := At(c, RawHeader(bytes), 16);
    RawWordDecodes(cfg, c2, bytes, m, At(c2, RawHeader(bytes + [m % 256]), 8), At(c, RawCopy(n), 32), t, rest);
    RawWordDecodes(cfg, c, [], n, At(c, RawHeader([n % 256]), 8), c2, t, ToBits(m, 16) + rest);
  }

  lemma RawHeaderStep(cfg: Config, c: Core, bytes: seq<nat>, v: nat, c1: Core, t: State, rest: seq<bool>)
    requires c.loc == RawHeader(bytes) && |bytes| <= 3 && v < 256
    requires if |bytes| < 3 then c1 == At(c, RawHeader(bytes + [v]), 8)
             else bytes[0] + 256 * bytes[1] == 65535 - (bytes[2] + 256 * v) && c1 == At(c, RawCopy(bytes[0] + 256 * bytes[1]), 8)
    requires Reaches(cfg, State(c1, rest), t)
    ensures Reaches(cfg, State(c, ToBits(v, 8) + rest), t)
  {
    hide Reaches, ToBits, Next, Wants, Pow2;
    Pow2Values();
    RawHeaderNext(cfg, c, bytes, v);
    RawHeaderNext(cfg, At(c, c.loc, 8), bytes, v);
    BitsThen(cfg, c, c1, t, 8, v, rest);
  }

  /** A stored block reproduces its bytes. */
  lemma StoredDecodes(cfg: Config, c: Core, data: seq<u8>, rest: seq<bool>)
    requires c.loc == RawAlign && |data| < 0x1_0000
    ensures var bits := StoredBits(c.pos, data);
      Reaches(cfg, State(c, bits + rest), State(AfterBlock(c).(out := c.out + data, pos := c.pos + |bits|), rest))
  {
    var z := ToByteBoundary(c.pos);
    var n := |data|;
    hide Reaches, ToBits, BytesToBits, ToByteBoundary;
    var pad, d := ToBits(0, z), BytesToBits(data);
    var c1, c2 := At(c, RawHeader([]), z), At(c, RawCopy(n), z + 32);
    var t := State(AfterBlock(c).(out := c.out + data, pos := c.pos + z + 32 + 8 * n), rest);
    assert StoredBits(c.pos, data) + rest == pad + (ToBits(n, 16) + (ToBits(65535 - n, 16) + (d + rest)));
    RawDataDecodes(cfg, c2, data, rest);
    RawHeaderDecodes(cfg, c1, n, t, d + rest);
    BitsThen(cfg, c, c1, t, z, 0, ToBits(n, 16) + (ToBits(65535 - n, 16) + (d + rest)));
  }
}
