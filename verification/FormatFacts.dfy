/**
 The numbers of RFC 1951 written out, and what the tables and codes of the model come to in them: the order
 of the code-length lengths, the bands of lengths and distances, the fixed code, the numbering of the codes,
 the runs of code lengths.
 */
module FormatFacts {
  import opened Bits
  import opened Canonical
  import opened LzTokens
  import opened CodeLengthRle
  import opened InflateSpec
  import D = DeflateBits

  // ---------------------------------------------------------------- section 3.2.7

  /** Where the code length of symbol `x` is sent: 16, 17, 18, 0 first, then from 8 outwards, the greater first. */
  function Place(x: nat): nat
    requires x < 19
  {
    if x >= 16 then x - 16
    else if x == 0 then 3
    else if x >= 8 then 4 + 2 * (x - 8)
    else 4 + 2 * (8 - x) - 1
  }

  lemma ZigPlaces(x: nat, i: nat)
    requires x < 19 && i < 19
    ensures Zig(i) == x <==> i == Place(x)
  {
    if i < 10 {
      assert Zig(i) == x <==> i == Place(x);
    } else {
      assert Zig(i) == x <==> i == Place(x);
    }
  }

  /** 0 to 15 are lengths; 16 repeats the last one 3 to 6 times, 17 and 18 stand for 3 to 10 and 11 to 138 zeros. */
  lemma RunsOfLengths(done: seq<nat>, sym: nat, extra: nat)
    requires sym <= 18 && extra < Pow2(ExtraBits(sym))
    ensures var r := ItemLens(done, Item(sym, extra));
      && (sym < 16 ==> ExtraBits(sym) == 0 && r == [sym])
      && (sym == 16 ==> ExtraBits(sym) == 2 && |r| == 3 + extra <= 6 && (done != [] ==> forall k :: 0 <= k < |r| ==> r[k] == done[|done| - 1]))
      && (sym == 17 ==> ExtraBits(sym) == 3 && |r| == 3 + extra <= 10 && forall k :: 0 <= k < |r| ==> r[k] == 0)
      && (sym == 18 ==> ExtraBits(sym) == 7 && |r| == 11 + extra <= 138 && forall k :: 0 <= k < |r| ==> r[k] == 0)
  {
    Pow2Values();
    hide Pow2;
  }

  /** HLIT, HDIST and HCLEN: 257, 1 and 4 more than fields of 5, 5 and 4 bits. */
  lemma TableSizesAre()
    ensures TableSizeBits(0) == 5 && TableSizeBits(1) == 5 && TableSizeBits(2) == 4
    ensures MinTableSize(0) == 257 && MinTableSize(1) == 1 && MinTableSize(2) == 4
  {
  }

  // ---------------------------------------------------------------- section 3.2.5

  /** The bands of match lengths: without extra bits up to 10, then four of each width; 258 for itself. */
  lemma LengthBands(i: nat)
    requires i < 29
    ensures LengthExtra(i) == if i < 8 || i == 28 then 0 else i / 4 - 1
    ensures LengthBase(0) == 3 && LengthBase(28) == 258
    ensures i < 27 ==> LengthBase(i + 1) == LengthBase(i) + Pow2(LengthExtra(i))
    ensures i == 27 ==> LengthBase(i) + Pow2(LengthExtra(i)) == 259
  {
    Pow2Values();
    PowerZero();
    hide Pow2;
  }

  /** The bands of distances: four of one distance each, then two of each width, up to 32768. */
  lemma DistanceBands(i: nat)
    requires i < 30
    ensures DistanceExtra(i) == if i < 4 then 0 else i / 2 - 1
    ensures DistanceBase(0) == 1
    ensures i < 29 ==> DistanceBase(i + 1) == DistanceBase(i) + Pow2(DistanceExtra(i))
    ensures i == 29 ==> DistanceBase(i) + Pow2(DistanceExtra(i)) == 32769
  {
    if i < 16 {
      NearBands(i);
    } else {
      FarBands(i);
    }
  }

  lemma NearBands(i: nat)
    requires i < 16
    ensures DistanceExtra(i) == (if i < 4 then 0 else i / 2 - 1) && DistanceBase(0) == 1
    ensures DistanceBase(i + 1) == DistanceBase(i) + Pow2(DistanceExtra(i))
  {
    Pow2Values();
    PowerZero();
    hide Pow2;
  }

  lemma FarBands(i: nat)
    requires 16 <= i < 30
    ensures DistanceExtra(i) == i / 2 - 1 && DistanceBase(0) == 1
    ensures if i < 29 then DistanceBase(i + 1) == DistanceBase(i) + Pow2(DistanceExtra(i)) else DistanceBase(i) + Pow2(DistanceExtra(i)) == 32769
  {
    Pow2Values();
    Pow2Large();
    hide Pow2;
  }

  /** The symbols that never occur in a sound stream. */
  lemma UnusedSymbols()
    ensures LengthBase(29) == LengthBase(30) == 0 && LengthExtra(29) == LengthExtra(30) == 0
    ensures DistanceBase(30) == DistanceBase(31) == 0 && DistanceExtra(30) == DistanceExtra(31) == 0
  {
  }

  lemma ModBelow(x: nat, m: nat)
    requires m > 0
    ensures 0 <= x % m < m
  {
  }

  /** The length symbol is that of the band the length lies in, and 285 for 258 alone. */
  lemma LengthSymbol(len: nat)
    requires 3 <= len <= 258
    ensures var i := LenSym(len - 3) - 257;
      && 0 <= i < 29 && LengthBase(i) <= len < LengthBase(i) + Pow2(LengthExtra(i)) && (i == 28 <==> len == 258)
  {
    InBand(len);
    LastLength(len);
    hide *;
  }

  lemma InBand(len: nat)
    requires 3 <= len <= 258
    ensures var sym := LenSym(len - 3);
      257 <= sym <= 285 && LengthBase(sym - 257) <= len < LengthBase(sym - 257) + Pow2(LengthExtra(sym - 257))
  {
    hide LenSym, LenExtra, LengthBase, LengthExtra, Pow2;
    LengthRoundTrip(len);
    ModBelow(len - 3, Pow2(LenExtra(len - 3)));
  }

  lemma LastLength(len: nat)
    requires 3 <= len <= 258
    ensures LenSym(len - 3) == 285 <==> len == 258
  {
  }

  lemma DistanceSymbol(dist: nat)
    requires 1 <= dist <= 32768
    ensures var i := DistSym(dist - 1); i < 30 && DistanceBase(i) <= dist < DistanceBase(i) + Pow2(DistanceExtra(i))
  {
    hide DistSym, DistExtra, DistanceBase, DistanceExtra, Pow2;
    DistRoundTrip(dist);
    ModBelow(dist - 1, Pow2(DistExtra(dist - 1)));
  }

  // ---------------------------------------------------------------- section 3.2.2

  /** The first code of each length, as the algorithm of the standard numbers them. */
  lemma FirstOfLength(s: seq<nat>, l: nat)
    requires l >= 1
    ensures First(s, 1) == 0 && First(s, l + 1) == 2 * (First(s, l) + Count(s, l))
  {
  }

  /** Codes of one length follow one another in the order of their symbols. */
  lemma NextOfLength(s: seq<nat>, i: nat, j: nat)
    requires i < j < |s| && s[i] == s[j] > 0 && forall k :: i < k < j ==> s[k] != s[i]
    ensures CodeOf(s, j) == CodeOf(s, i) + 1
  {
    var l := s[i];
    assert s[..j] == s[..i] + ([l] + s[i + 1..j]);
    CountConcat(s[..i], [l] + s[i + 1..j], l);
    CountConcat([l], s[i + 1..j], l);
    CountAbsent(s[i + 1..j], l);
    assert [l][..0] == [] && Count([l], l) == 1;
  }

  lemma LeastOfLength(s: seq<nat>, i: nat)
    requires i < |s| && s[i] > 0 && forall k :: 0 <= k < i ==> s[k] != s[i]
    ensures CodeOf(s, i) == First(s, s[i])
  {
    CountAbsent(s[..i], s[i]);
  }

  // ---------------------------------------------------------------- section 3.2.6

  lemma FixedFirsts()
    ensures First(FixedLit(), 7) == 0 && First(FixedLit(), 8) == 48 && First(FixedLit(), 9) == 400 && First(FixedDist(), 5) == 0
  {
    hide FixedLit, FixedDist;
    forall l
      ensures Count(FixedLit(), l) == (if l == 7 then 24 else if l == 8 then 152 else if l == 9 then 112 else 0)
      ensures Count(FixedDist(), l) == if l == 5 then 32 else 0
    {
      D.FixedLitCounts(l);
      FixedDistCount(l);
    }
    D.UsedEmpty(FixedLit(), 6);
    D.UsedEmpty(FixedDist(), 4);
    hide Count;
    assert Used(FixedLit(), 7) == 24;
    assert Used(FixedLit(), 8) == 200;
  }

  lemma FixedDistCount(l: nat)
    ensures Count(FixedDist(), l) == if l == 5 then 32 else 0
  {
    D.CountRun(5, 32, l);
  }

  /** The table of the fixed literal code: lengths and codes. */
  lemma FixedLitCodes(x: nat)
    requires x < 288
    ensures |FixedLit()| == 288
    ensures x < 144 ==> FixedLit()[x] == 8 && CodeOf(FixedLit(), x) == 48 + x
    ensures 144 <= x < 256 ==> FixedLit()[x] == 9 && CodeOf(FixedLit(), x) == 400 + (x - 144)
    ensures 256 <= x < 280 ==> FixedLit()[x] == 7 && CodeOf(FixedLit(), x) == x - 256
    ensures 280 <= x ==> FixedLit()[x] == 8 && CodeOf(FixedLit(), x) == 192 + (x - 280)
  {
    FixedFirsts();
    FixedPrefix(x);
    hide First, Count;
  }

  lemma FixedPrefix(x: nat)
    requires x < 288
    ensures |FixedLit()| == 288
    ensures x < 144 ==> Count(FixedLit()[..x], 8) == x
    ensures 144 <= x < 256 ==> Count(FixedLit()[..x], 9) == x - 144
    ensures 256 <= x < 280 ==> Count(FixedLit()[..x], 7) == x - 256
    ensures 280 <= x ==> Count(FixedLit()[..x], 8) == 144 + (x - 280)
  {
    var s, l := FixedLit(), if x < 144 then 8 else if x < 256 then 9 else if x < 280 then 7 else 8;
    var a, b, c := seq(144, _ => 8), seq(112, _ => 9), seq(24, _ => 7);
    hide Count;
    if x < 144 {
      assert s[..x] == seq(x, _ => 8);
      D.CountRun(8, x, 8);
    } else if x < 256 {
      assert s[..x] == a + seq(x - 144, _ => 9);
      CountConcat(a, seq(x - 144, _ => 9), 9);
      D.CountRun(8, 144, 9);
      D.CountRun(9, x - 144, 9);
    } else if x < 280 {
      assert s[..x] == a + b + seq(x - 256, _ => 7);
      CountConcat(a + b, seq(x - 256, _ => 7), 7);
      CountConcat(a, b, 7);
      D.CountRun(8, 144, 7);
      D.CountRun(9, 112, 7);
      D.CountRun(7, x - 256, 7);
    } else {
      assert s[..x] == a + b + c + seq(x - 280, _ => 8);
      CountConcat(a + b + c, seq(x - 280, _ => 8), 8);
      CountConcat(a + b, c, 8);
      CountConcat(a, b, 8);
      D.CountRun(8, 144, 8);
      D.CountRun(9, 112, 8);
      D.CountRun(7, 24, 8);
      D.CountRun(8, x - 280, 8);
    }
  }

  /** Distance codes are the numbers themselves, in five bits. */
  lemma FixedDistCodes(x: nat)
    requires x < 32
    ensures |FixedDist()| == 32 && FixedDist()[x] == 5 && CodeOf(FixedDist(), x) == x
  {
    FixedFirsts();
    assert FixedDist()[..x] == seq(x, _ => 5);
    D.CountRun(5, x, 5);
    hide First, Count;
  }

  // ---------------------------------------------------------------- section 2.2 of RFC 1950

  /** Which zlib headers are refused: a wrong check, a preset dictionary, a method other than 8, a window over 32768. */
  lemma ZlibHeaders(cfg: Config, h0: u8, h1: u8)
    requires cfg.wraps ==> cfg.window == 32768
    ensures !ZlibHeaderBad(cfg, h0, h1) <==>
      (256 * h0 + h1) % 31 == 0 && h1 / 32 % 2 == 0 && h0 % 16 == 8 && (cfg.wraps ==> h0 / 16 <= 7)
  {
    var n := h0 / 16;
    Pow2Values();
    if n <= 7 {
      Pow2Mono(8 + n, 15);
    } else {
      Pow2Mono(16, 8 + n);
    }
  }
}
