/**
 LZ77 tokens: what they mean as bytes, their length and distance symbols (section 3.2.5 of
 RFC 1951), and the byte layout of the compressor's token buffer.
 */
module LzTokens {
  import opened Bits

  const MIN_MATCH_LEN := 3
  const MAX_MATCH_LEN := 258
  const DICT_SIZE := 32768

  datatype Token = Lit(b: u8) | Match(len: nat, dist: nat)
  {
    predicate Ok()
    {
      Match? ==> MIN_MATCH_LEN <= len <= MAX_MATCH_LEN && 1 <= dist <= DICT_SIZE
    }
  }

  // ---------------------------------------------------------------- meaning

  /** Copies `n` bytes from `dist` back, byte by byte, so a copy may overlap itself. */
  function Copy(out: seq<u8>, n: nat, dist: nat): (r: seq<u8>)
    requires 1 <= dist <= |out|
    ensures |r| == |out| + n && out <= r
    decreases n
  {
    if n == 0 then out else Copy(out + [out[|out| - dist]], n - 1, dist)
  }

  /** `r` is `out` and `n` bytes copied from `dist` back; a byte from where there is none may be any. */
  ghost predicate LooseCopy(out: seq<u8>, r: seq<u8>, n: nat, dist: nat)
  {
    |r| == |out| + n && out <= r && forall k :: |out| <= k < |r| && 1 <= dist <= k ==> r[k] == r[k - dist]
  }

  lemma LooseNone(out: seq<u8>, dist: nat)
    ensures LooseCopy(out, out, 0, dist)
  {
  }

  lemma LooseGrows(out: seq<u8>, r: seq<u8>, n: nat, dist: nat)
    requires LooseCopy(out, r, n, dist)
    ensures |r| == |out| + n && out <= r
  {
  }

  lemma LooseNext(out: seq<u8>, r: seq<u8>, n: nat, dist: nat, b: u8)
    requires LooseCopy(out, r, n, dist) && (1 <= dist <= |r| ==> b == r[|r| - dist])
    ensures LooseCopy(out, r + [b], n + 1, dist)
  {
  }

  /** One more byte of a copy. */
  lemma {:induction false} CopySnoc(out: seq<u8>, n: nat, dist: nat)
    requires 1 <= dist <= |out|
    ensures var c := Copy(out, n, dist); Copy(out, n + 1, dist) == c + [c[|c| - dist]]
    decreases n
  {
    if n > 0 {
      CopySnoc(out + [out[|out| - dist]], n - 1, dist);
    }
  }

  /** From a byte that has been written there is only one copy. */
  lemma {:induction false} LooseIsCopy(out: seq<u8>, r: seq<u8>, n: nat, dist: nat)
    requires LooseCopy(out, r, n, dist) && 1 <= dist <= |out|
    ensures r == Copy(out, n, dist)
  {
    if n > 0 {
      var m := |r| - 1;
      LooseIsCopy(out, r[..m], n - 1, dist);
      CopySnoc(out, n - 1, dist);
      assert r == r[..m] + [r[m]];
    } else {
      assert r == out;
    }
  }

  ghost predicate Applies(out: seq<u8>, t: Token)
  {
    t.Ok() && (t.Match? ==> t.dist <= |out|)
  }

  function Apply(out: seq<u8>, t: Token): (r: seq<u8>)
    requires Applies(out, t)
    ensures out <= r
  {
    match t
    case Lit(b) => out + [b]
    case Match(len, dist) => Copy(out, len, dist)
  }

  /** The tokens expand `from` to `to`. */
  ghost predicate Expands(from: seq<u8>, ts: seq<Token>, to: seq<u8>)
    decreases |ts|
  {
    if ts == [] then from == to
    else Applies(from, ts[0]) && Expands(Apply(from, ts[0]), ts[1..], to)
  }

  lemma {:induction false} ExpandsConcat(a: seq<u8>, ts: seq<Token>, b: seq<u8>, us: seq<Token>, c: seq<u8>)
    requires Expands(a, ts, b) && Expands(b, us, c)
    ensures Expands(a, ts + us, c)
    decreases |ts|
  {
    hide *;
    if ts == [] {
      ExpandsNone(a, ts, b);
      assert ts + us == us;
    } else {
      assert (ts + us)[1..] == ts[1..] + us && (ts + us)[0] == ts[0];
      ExpandsHead(a, ts, b);
      ExpandsConcat(Apply(a, ts[0]), ts[1..], b, us, c);
      ExpandsCons(a, ts + us, c);
    }
  }

  lemma ExpandsNone(a: seq<u8>, ts: seq<Token>, b: seq<u8>)
    requires Expands(a, ts, b) && ts == []
    ensures a == b
  {
  }

  lemma ExpandsHead(a: seq<u8>, ts: seq<Token>, b: seq<u8>)
    requires Expands(a, ts, b) && ts != []
    ensures Applies(a, ts[0]) && Expands(Apply(a, ts[0]), ts[1..], b)
  {
  }

  lemma ExpandsCons(a: seq<u8>, ts: seq<Token>, b: seq<u8>)
    requires ts != [] && Applies(a, ts[0]) && Expands(Apply(a, ts[0]), ts[1..], b)
    ensures Expands(a, ts, b)
  {
  }

  lemma ExpandsSnoc(a: seq<u8>, ts: seq<Token>, b: seq<u8>, t: Token)
    requires Expands(a, ts, b) && Applies(b, t)
    ensures Expands(a, ts + [t], Apply(b, t))
  {
    assert Expands(b, [t], Apply(b, t)) by {
      assert [t][1..] == [];
    }
    ExpandsConcat(a, ts, b, [t], Apply(b, t));
  }

  /** `len` bytes at `pos` equal those `dist` earlier. */
  ghost predicate MatchAt(s: seq<u8>, pos: nat, len: nat, dist: nat)
  {
    && 1 <= dist <= pos && pos + len <= |s|
    && forall i :: pos <= i < pos + len ==> s[i] == s[i - dist]
  }

  /** Copying a true match reproduces the bytes. */
  lemma {:induction false} CopyMatch(s: seq<u8>, pos: nat, len: nat, dist: nat)
    requires MatchAt(s, pos, len, dist)
    ensures Copy(s[..pos], len, dist) == s[..pos + len]
    decreases len
  {
    if len > 0 {
      assert s[..pos] + [s[pos - dist]] == s[..pos + 1];
      CopyMatch(s, pos + 1, len - 1, dist);
    }
  }

  // ---------------------------------------------------------------- symbols

  /** `s_tdefl_len_sym`, indexed by length minus 3 */
  function LenSym(x: nat): nat
  {
    if x < 8 then 257 + x
    else if x < 16 then 265 + (x - 8) / 2
    else if x < 32 then 269 + (x - 16) / 4
    else if x < 64 then 273 + (x - 32) / 8
    else if x < 128 then 277 + (x - 64) / 16
    else if x < 255 then 281 + (x - 128) / 32
    else 285
  }

  /** `s_tdefl_len_extra` */
  function LenExtra(x: nat): nat
  {
    if x < 8 then 0 else if x < 16 then 1 else if x < 32 then 2 else if x < 64 then 3
    else if x < 128 then 4 else if x < 255 then 5 else 0
  }

  /** `s_tdefl_small_dist_sym`, indexed by distance minus 1 below 512 */
  function SmallDistSym(d: nat): nat
  {
    if d < 4 then d
    else if d < 8 then 4 + (d - 4) / 2
    else if d < 16 then 6 + (d - 8) / 4
    else if d < 32 then 8 + (d - 16) / 8
    else if d < 64 then 10 + (d - 32) / 16
    else if d < 128 then 12 + (d - 64) / 32
    else if d < 256 then 14 + (d - 128) / 64
    else 16 + (d - 256) / 128
  }

  /** `s_tdefl_small_dist_extra` */
  function SmallDistExtra(d: nat): nat
  {
    if d < 4 then 0 else if d < 8 then 1 else if d < 16 then 2 else if d < 32 then 3
    else if d < 64 then 4 else if d < 128 then 5 else if d < 256 then 6 else 7
  }

  /** `s_tdefl_large_dist_sym`, indexed by (distance minus 1) / 256; entries 0 and 1 are not used */
  function LargeDistSym(k: nat): nat
  {
    if k < 2 then 0
    else if k < 4 then 18 + (k - 2)
    else if k < 8 then 20 + (k - 4) / 2
    else if k < 16 then 22 + (k - 8) / 4
    else if k < 32 then 24 + (k - 16) / 8
    else if k < 64 then 26 + (k - 32) / 16
    else 28 + (k - 64) / 32
  }

  /** `s_tdefl_large_dist_extra` */
  function LargeDistExtra(k: nat): nat
  {
    if k < 2 then 0 else if k < 4 then 8 else if k < 8 then 9 else if k < 16 then 10
    else if k < 32 then 11 else if k < 64 then 12 else 13
  }

  function DistSym(d: nat): nat
  {
    if d < 512 then SmallDistSym(d) else LargeDistSym(d / 256)
  }

  function DistExtra(d: nat): nat
  {
    if d < 512 then SmallDistExtra(d) else LargeDistExtra(d / 256)
  }

  /** The inflater's `s_length_base` and `s_length_extra` */
  const LENGTH_BASE: seq<nat> := [3, 4, 5, 6, 7, 8, 9, 10, 11, 13, 15, 17, 19, 23, 27, 31, 35, 43, 51, 59, 67, 83, 99, 115, 131, 163, 195, 227, 258, 0, 0]
  const LENGTH_EXTRA: seq<nat> := [0, 0, 0, 0, 0, 0, 0, 0, 1, 1, 1, 1, 2, 2, 2, 2, 3, 3, 3, 3, 4, 4, 4, 4, 5, 5, 5, 5, 0, 0, 0]

  /** The inflater's `s_dist_base` and `s_dist_extra` */
  const DIST_BASE: seq<nat> := [1, 2, 3, 4, 5, 7, 9, 13, 17, 25, 33, 49, 65, 97, 129, 193, 257, 385, 513, 769, 1025, 1537, 2049, 3073, 4097, 6145, 8193, 12289, 16385, 24577, 0, 0]
  const DIST_EXTRA: seq<nat> := [0, 0, 0, 0, 1, 1, 2, 2, 3, 3, 4, 4, 5, 5, 6, 6, 7, 7, 8, 8, 9, 9, 10, 10, 11, 11, 12, 12, 13, 13, 0, 0]

  function LengthBase(i: nat): nat
    requires i < 31
  {
    LENGTH_BASE[i]
  }

  function LengthExtra(i: nat): nat
    requires i < 31
  {
    LENGTH_EXTRA[i]
  }

  function DistanceBase(i: nat): nat
    requires i < 32
  {
    DIST_BASE[i]
  }

  function DistanceExtra(i: nat): nat
    requires i < 32
  {
    DIST_EXTRA[i]
  }

  /** A band of values from `lo` in two parts of `step` each. */
  lemma HalfBand(d: nat, lo: nat, step: nat)
    requires step > 0 && lo == 2 * step && lo <= d < 2 * lo
    ensures var k := (d - lo) / step; 0 <= k < 2 && d % step == d - lo - k * step && k * step == if k == 0 then 0 else step
  {
    if d < lo + step {
      DivUnique(d - lo, step, 0, d - lo);
      DivUnique(d, step, 2, d - lo);
    } else {
      DivUnique(d - lo, step, 1, d - lo - step);
      DivUnique(d, step, 3, d - lo - step);
    }
  }

  /** One in four parts. */
  lemma QuarterBand(d: nat, lo: nat, step: nat)
    requires step > 0 && lo == 4 * step && lo <= d < 2 * lo
    ensures var k := (d - lo) / step; 0 <= k < 4 && d % step == d - lo - k * step
    ensures var k := (d - lo) / step; k * step == if k == 0 then 0 else if k == 1 then step else if k == 2 then 2 * step else 3 * step
  {
    var k := if d < lo + step then 0 else if d < lo + 2 * step then 1 else if d < lo + 3 * step then 2 else 3;
    DivUnique(d - lo, step, k, d - lo - k * step);
    DivUnique(d, step, 4 + k, d - lo - k * step);
  }

  lemma ShortLengthRoundTrip(x: nat)
    requires x < 64
    ensures var sym := LenSym(x);
      && 257 <= sym <= 285 && LengthExtra(sym - 257) == LenExtra(x) <= 5
      && LengthBase(sym - 257) + x % Pow2(LenExtra(x)) == x + 3
  {
    Pow2Values();
    hide Pow2;
    PowerZero();
    if 8 <= x < 16 {
      QuarterBand(x, 8, 2);
    } else if 16 <= x < 32 {
      QuarterBand(x, 16, 4);
    } else if 32 <= x < 64 {
      QuarterBand(x, 32, 8);
    }
  }

  lemma LongLengthRoundTrip(x: nat)
    requires 64 <= x < 256
    ensures var sym := LenSym(x);
      && 257 <= sym <= 285 && LengthExtra(sym - 257) == LenExtra(x) <= 5
      && LengthBase(sym - 257) + x % Pow2(LenExtra(x)) == x + 3
  {
    Pow2Values();
    hide Pow2;
    PowerZero();
    if 64 <= x < 128 {
      QuarterBand(x, 64, 16);
    } else if 128 <= x < 255 {
      QuarterBand(x, 128, 32);
    }
  }

  /** Base plus extra bits gives back every length. */
  lemma LengthRoundTrip(len: nat)
    requires MIN_MATCH_LEN <= len <= MAX_MATCH_LEN
    ensures var x := len - MIN_MATCH_LEN; var sym := LenSym(x);
      && 257 <= sym <= 285 && LengthExtra(sym - 257) == LenExtra(x) <= 5
      && LengthBase(sym - 257) + x % Pow2(LenExtra(x)) == len
  {
    if len < 67 {
      ShortLengthRoundTrip(len - MIN_MATCH_LEN);
    } else {
      LongLengthRoundTrip(len - MIN_MATCH_LEN);
    }
  }

  lemma NearDist(d: nat)
    requires d < 64
    ensures var sym := SmallDistSym(d);
      && sym < 18 && DistanceExtra(sym) == SmallDistExtra(d) <= 7
      && DistanceBase(sym) + d % Pow2(SmallDistExtra(d)) == d + 1
  {
    Pow2Values();
    hide Pow2;
    PowerZero();
    if 4 <= d < 8 {
      HalfBand(d, 4, 2);
    } else if 8 <= d < 16 {
      HalfBand(d, 8, 4);
    } else if 16 <= d < 32 {
      HalfBand(d, 16, 8);
    } else if 32 <= d {
      HalfBand(d, 32, 16);
    }
  }

  lemma PowerZero()
    ensures Pow2(0) == 1
  {
  }

  lemma SmallDistRoundTrip(d: nat)
    requires d < 512
    ensures var sym := SmallDistSym(d);
      && sym < 18 && DistanceExtra(sym) == SmallDistExtra(d) <= 7
      && DistanceBase(sym) + d % Pow2(SmallDistExtra(d)) == d + 1
  {
    Pow2Values();
    hide Pow2;
    PowerZero();
    if d < 64 {
      NearDist(d);
    } else if 64 <= d < 128 {
      HalfBand(d, 64, 32);
    } else if 128 <= d < 256 {
      HalfBand(d, 128, 64);
    } else if 256 <= d {
      HalfBand(d, 256, 128);
    }
  }

  lemma Pow2Large()
    ensures Pow2(8) == 256 && Pow2(9) == 512 && Pow2(10) == 1024 && Pow2(11) == 2048 && Pow2(12) == 4096 && Pow2(13) == 8192
  {
    Pow2Values();
  }

  lemma LargeDistRoundTrip(d: nat)
    requires 512 <= d < DICT_SIZE
    ensures var sym := LargeDistSym(d / 256);
      && 18 <= sym < 30 && DistanceExtra(sym) == LargeDistExtra(d / 256) <= 13
      && DistanceBase(sym) + d % Pow2(LargeDistExtra(d / 256)) == d + 1
  {
    Pow2Large();
    hide Pow2;
    if d < 4096 {
      MidDist(d);
    } else {
      FarDist(d);
    }
  }

  /** A band of large distances, looked up by their high byte. */
  lemma LargeBand(d: nat, m: nat)
    requires m > 0 && 512 * m <= d < 1024 * m
    ensures 2 * m <= d / 256 < 4 * m
    ensures var k := (d / 256 - 2 * m) / m;
      0 <= k < 2 && d % (256 * m) == d - 512 * m - (if k == 0 then 0 else 256 * m)
  {
    HalfBand(d, 512 * m, 256 * m);
    assert d / 256 - 2 * m == (d - 512 * m) / 256;
    DivDiv(d - 512 * m, 256, m);
  }

  lemma MidDist(d: nat)
    requires 512 <= d < 4096
    ensures var k := d / 256; var sym := LargeDistSym(k);
      && 18 <= sym < 24 && LargeDistExtra(k) == 8 + (if k < 4 then 0 else if k < 8 then 1 else 2) == DistanceExtra(sym)
      && DistanceBase(sym) + d % (if k < 4 then 256 else if k < 8 then 512 else 1024) == d + 1
  {
    if 2048 <= d {
      LargeBand(d, 4);
    } else if 1024 <= d {
      LargeBand(d, 2);
    } else {
      LargeBand(d, 1);
    }
  }

  lemma FarDist(d: nat)
    requires 4096 <= d < DICT_SIZE
    ensures var k := d / 256; var sym := LargeDistSym(k);
      && 24 <= sym < 30 && LargeDistExtra(k) == 11 + (if k < 32 then 0 else if k < 64 then 1 else 2) == DistanceExtra(sym)
      && DistanceBase(sym) + d % (if k < 32 then 2048 else if k < 64 then 4096 else 8192) == d + 1
  {
    if d < 8192 {
      LargeBand(d, 8);
    } else if d < 16384 {
      LargeBand(d, 16);
    } else {
      LargeBand(d, 32);
    }
  }

  /** Base plus extra bits gives back every distance. */
  lemma DistRoundTrip(dist: nat)
    requires 1 <= dist <= DICT_SIZE
    ensures var d := dist - 1; var sym := DistSym(d);
      && sym < 30 && DistanceExtra(sym) == DistExtra(d) <= 13
      && DistanceBase(sym) + d % Pow2(DistExtra(d)) == dist
  {
    if dist - 1 < 512 {
      SmallDistRoundTrip(dist - 1);
    } else {
      LargeDistRoundTrip(dist - 1);
    }
  }

  // ---------------------------------------------------------------- the token buffer's layout

  function TokenBytes(t: Token): (r: seq<u8>)
    requires t.Ok()
    ensures |r| == if t.Lit? then 1 else 3
  {
    match t
    case Lit(b) => [b]
    case Match(len, dist) => [len - MIN_MATCH_LEN, (dist - 1) % 256, (dist - 1) / 256]
  }

  ghost predicate AllOk(ts: seq<Token>)
  {
    forall k :: 0 <= k < |ts| ==> ts[k].Ok()
  }

  function Flat(ts: seq<Token>): seq<u8>
    requires AllOk(ts)
  {
    if ts == [] then [] else TokenBytes(ts[0]) + Flat(ts[1..])
  }

  function Flags(ts: seq<Token>): (r: seq<bool>)
    ensures |r| == |ts|
  {
    seq(|ts|, i requires 0 <= i < |ts| => ts[i].Match?)
  }

  /** A flag byte (bit k set for a match) and the bytes of up to eight tokens. */
  function Group(ts: seq<Token>): seq<nat>
    requires AllOk(ts)
  {
    [FromBits(Flags(ts))] + Flat(ts)
  }

  function Encoded(ts: seq<Token>): seq<nat>
    requires AllOk(ts)
  {
    if ts == [] then []
    else if |ts| <= 8 then Group(ts)
    else Group(ts[..8]) + Encoded(ts[8..])
  }

  lemma {:induction false} FlatConcat(a: seq<Token>, b: seq<Token>)
    requires AllOk(a) && AllOk(b)
    ensures AllOk(a + b) && Flat(a + b) == Flat(a) + Flat(b)
  {
    if a == [] {
      assert a + b == b;
    } else {
      assert (a + b)[1..] == a[1..] + b;
      FlatConcat(a[1..], b);
    }
  }

  lemma {:induction false} EncodedConcat(a: seq<Token>, b: seq<Token>)
    requires AllOk(a) && AllOk(b) && |a| % 8 == 0
    ensures AllOk(a + b) && Encoded(a + b) == Encoded(a) + Encoded(b)
    decreases |a|
  {
    if a == [] {
      assert a + b == b;
    } else if b == [] {
      assert a + b == a;
    } else {
      assert (a + b)[..8] == a[..8] && (a + b)[8..] == a[8..] + b;
      EncodedConcat(a[8..], b);
      if |a| == 8 {
        assert a[..8] == a && a[8..] == [];
      }
    }
  }

  lemma {:induction false} FlatLength(ts: seq<Token>)
    requires AllOk(ts)
    ensures |Flat(ts)| >= |ts|
  {
    if ts != [] {
      FlatLength(ts[1..]);
    }
  }

  function Matches(ts: seq<Token>): (m: nat)
    ensures m <= |ts|
  {
    if ts == [] then 0 else (if ts[0].Match? then 1 else 0) + Matches(ts[1..])
  }

  lemma {:induction false} MatchesConcat(a: seq<Token>, b: seq<Token>)
    ensures Matches(a + b) == Matches(a) + Matches(b)
  {
    if a == [] {
      assert a + b == b;
    } else {
      assert (a + b)[1..] == a[1..] + b;
      MatchesConcat(a[1..], b);
    }
  }

  lemma {:induction false} FlatSize(ts: seq<Token>)
    requires AllOk(ts)
    ensures |Flat(ts)| == |ts| + 2 * Matches(ts)
  {
    if ts != [] {
      FlatSize(ts[1..]);
    }
  }

  /** A literal occupies 9 and a match 25 bits of the buffer. */
  lemma {:induction false} EncodedSize(ts: seq<Token>)
    requires AllOk(ts)
    ensures 8 * |Encoded(ts)| >= 9 * |ts| + 16 * Matches(ts)
    decreases |ts|
  {
    if ts == [] {
    } else if |ts| <= 8 {
      FlatSize(ts);
    } else {
      FlatSize(ts[..8]);
      EncodedSize(ts[8..]);
      assert ts == ts[..8] + ts[8..];
      MatchesConcat(ts[..8], ts[8..]);
    }
  }
}
