/**
 Writing the body of a block (miniz.c, `tdefl_compress_lz_codes`): the token buffer is read back and
 every token is sent with the current Huffman tables.
 */
module BlockWriter {
  import opened Bits
  import opened BitSinks
  import opened Canonical
  import opened LzTokens
  import opened TokenBuffers
  import opened HuffTables
  import opened DeflateBits

  /** A table ready for sending: every length at most 15 with its canonical code. */
  ghost predicate Ready(t: HuffTable)
    reads t.sizes, t.codes
  {
    t.Valid() && LensUpTo(t.sizes[..], 15) && CodesAssigned(t.sizes[..], t.codes[..])
  }

  lemma ReadyCode(t: HuffTable, sym: nat)
    requires Ready(t) && HasCode(t.sizes[..], sym)
    ensures sym < t.sizes.Length && sym < t.codes.Length && t.sizes[sym] <= 15
    ensures t.codes[sym] < Pow2(t.sizes[sym]) && ToBits(t.codes[sym], t.sizes[sym]) == HuffBits(t.sizes[..], sym)
  {
    assert CodeAssigned(t.sizes[..], t.codes[..][sym], sym);
  }

  method PutCode(sink: BitSink, t: HuffTable, sym: nat)
    requires sink.Valid() && Ready(t) && HasCode(t.sizes[..], sym)
    modifies sink, sink.out
    ensures sink.Valid() && Grew(old(sink.Snapshot()), sink.Snapshot(), HuffBits(t.sizes[..], sym))
  {
    hide Ready, Grew, HuffBits, ToBits, HasCode;
    ReadyCode(t, sym);
    sink.PutBits(t.codes[sym], t.sizes[sym]);
  }

  /** `TDEFL_PUT_BITS(x & mz_bitmasks[n], n)` */
  method PutExtra(sink: BitSink, x: nat, n: nat)
    requires sink.Valid() && n <= 13
    modifies sink, sink.out
    ensures sink.Valid() && Grew(old(sink.Snapshot()), sink.Snapshot(), ExtraLow(x, n))
  {
    sink.PutBits(x % Pow2(n), n);
  }

  method PutLength(sink: BitSink, lit: HuffTable, x: nat)
    requires sink.Valid() && Ready(lit) && x <= 255 && HasCode(lit.sizes[..], LenSym(x))
    modifies sink, sink.out
    ensures sink.Valid() && Grew(old(sink.Snapshot()), sink.Snapshot(), LengthCodeBits(lit.sizes[..], x))
  {
    hide Ready, Grew, HuffBits, ExtraLow, LenSym, LenExtra, LengthBase, LengthExtra;
    LengthRoundTrip(x + MIN_MATCH_LEN);
    ghost var s, a := lit.sizes[..], sink.Snapshot();
    PutCode(sink, lit, LenSym(x));
    ghost var b := sink.Snapshot();
    PutExtra(sink, x, LenExtra(x));
    assert lit.sizes[..] == s;
    GrewTrans(a, b, sink.Snapshot(), HuffBits(s, LenSym(x)), ExtraLow(x, LenExtra(x)));
  }

  method PutDistance(sink: BitSink, dist: HuffTable, d: nat)
    requires sink.Valid() && Ready(dist) && d < DICT_SIZE && HasCode(dist.sizes[..], DistSym(d))
    modifies sink, sink.out
    ensures sink.Valid() && Grew(old(sink.Snapshot()), sink.Snapshot(), DistanceBits(dist.sizes[..], d))
  {
    var sym, numExtraBits;
    if d < 512 {
      sym, numExtraBits := SmallDistSym(d), SmallDistExtra(d);
    } else {
      sym, numExtraBits := LargeDistSym(d / 256), LargeDistExtra(d / 256);
    }
    assert sym == DistSym(d) && numExtraBits == DistExtra(d);
    hide *;
    PutDistanceSym(sink, dist, d, sym, numExtraBits);
  }

  method PutDistanceSym(sink: BitSink, dist: HuffTable, d: nat, sym: nat, n: nat)
    requires sink.Valid() && Ready(dist) && d < DICT_SIZE && HasCode(dist.sizes[..], DistSym(d))
    requires sym == DistSym(d) && n == DistExtra(d)
    modifies sink, sink.out
    ensures sink.Valid() && Grew(old(sink.Snapshot()), sink.Snapshot(), DistanceBits(dist.sizes[..], d))
  {
    hide Ready, Grew, HuffBits, ExtraLow, DistSym, DistExtra, DistanceBase, DistanceExtra;
    DistRoundTrip(d + 1);
    ghost var s, a := dist.sizes[..], sink.Snapshot();
    PutCode(sink, dist, sym);
    ghost var b := sink.Snapshot();
    PutExtra(sink, d, n);
    assert dist.sizes[..] == s;
    GrewTrans(a, b, sink.Snapshot(), HuffBits(s, sym), ExtraLow(d, n));
  }

  lemma {:induction false} TokensBitsSnoc(lit: seq<nat>, dist: seq<nat>, ts: seq<Token>, t: Token)
    requires AllCodable(lit, dist, ts) && Codable(lit, dist, t)
    ensures AllCodable(lit, dist, ts + [t])
    ensures TokensBits(lit, dist, ts + [t]) == TokensBits(lit, dist, ts) + TokenBits(lit, dist, t)
  {
    hide TokenBits, Codable;
    if ts == [] {
      assert ts + [t] == [t] && [t][1..] == [];
      assert TokenBits(lit, dist, t) + [] == [] + TokenBits(lit, dist, t);
    } else {
      assert (ts + [t])[1..] == ts[1..] + [t];
      TokensBitsSnoc(lit, dist, ts[1..], t);
      assert TokenBits(lit, dist, ts[0]) + (TokensBits(lit, dist, ts[1..]) + TokenBits(lit, dist, t))
          == TokenBits(lit, dist, ts[0]) + TokensBits(lit, dist, ts[1..]) + TokenBits(lit, dist, t);
    }
  }

  method PutToken(sink: BitSink, lit: HuffTable, dist: HuffTable, isMatch: bool, b0: nat, b1: nat, b2: nat, ghost t: Token)
    requires sink.Valid() && Ready(lit) && Ready(dist) && t.Ok() && Codable(lit.sizes[..], dist.sizes[..], t)
    requires isMatch == t.Match? && TokenBytes(t) == if isMatch then [b0, b1, b2] else [b0]
    modifies sink, sink.out
    ensures sink.Valid() && Grew(old(sink.Snapshot()), sink.Snapshot(), TokenBits(lit.sizes[..], dist.sizes[..], t))
  {
    hide Ready, Grew, HuffBits, LengthCodeBits, DistanceBits, LenSym, DistSym;
    if isMatch {
      var matchLen, matchDist := b0, b1 + 256 * b2;
      assert t == Match(matchLen + MIN_MATCH_LEN, matchDist + 1);
      ghost var a := sink.Snapshot();
      PutLength(sink, lit, matchLen);
      ghost var b := sink.Snapshot();
      PutDistance(sink, dist, matchDist);
      GrewTrans(a, b, sink.Snapshot(), LengthCodeBits(lit.sizes[..], matchLen), DistanceBits(dist.sizes[..], matchDist));
    } else {
      PutCode(sink, lit, b0);
    }
  }

  /** One turn of the loop: a flag byte if the group is used up, then one token. */
  method SendToken(sink: BitSink, buf: array<u8>, p0: nat, end: nat, flags0: nat, lit: HuffTable, dist: HuffTable,
                   ghost cur0: seq<Token>, ghost later0: seq<Token>, ghost slots0: nat)
    returns (p: nat, flags: nat, ghost t: Token, ghost cur: seq<Token>, ghost later: seq<Token>, ghost slots: nat)
    requires sink.Valid() && buf != sink.out && Ready(lit) && Ready(dist)
    requires Reading(buf[..], p0, end, flags0, cur0, later0, slots0) && p0 < end
    requires AllCodable(lit.sizes[..], dist.sizes[..], cur0 + later0)
    modifies sink, sink.out
    ensures p0 < p && cur0 + later0 == [t] + (cur + later)
    ensures Reading(buf[..], p, end, flags, cur, later, slots)
    ensures Codable(lit.sizes[..], dist.sizes[..], t)
    ensures sink.Valid() && Grew(old(sink.Snapshot()), sink.Snapshot(), TokenBits(lit.sizes[..], dist.sizes[..], t))
  {
    hide Reading, Ready, Grew, Codable, TokenBits;
    ghost var cur1, later1 := ReadFlags(buf[..], p0, end, flags0, cur0, later0, slots0);
    p, flags, cur, later, slots := p0, flags0, cur0, later0, slots0;
    ReadingBounds(buf[..], p, end, flags, cur, later, slots);
    if flags == 1 {
      flags := (buf[p] as nat) + 0x100;
      p := p + 1;
      cur, later, slots := cur1, later1, 8;
    }
    assert cur + later == cur0 + later0;
    t := cur[0];
    assert cur + later == [t] + (cur[1..] + later) && (cur0 + later0)[0] == t;
    ReadToken(buf[..], p, end, flags, cur, later, slots);
    TokenBytesRead(buf[..], p, t);
    if flags % 2 == 1 {
      PutToken(sink, lit, dist, true, buf[p], buf[p + 1], buf[p + 2], t);
      p := p + 3;
    } else {
      PutToken(sink, lit, dist, false, buf[p], 0, 0, t);
      p := p + 1;
    }
    flags := flags / 2;
    cur, slots := cur[1..], slots - 1;
  }

  lemma ReadingBounds(b: seq<u8>, p: nat, end: nat, flags: nat, cur: seq<Token>, later: seq<Token>, slots: nat)
    requires Reading(b, p, end, flags, cur, later, slots)
    ensures p <= end <= |b|
  {
  }

  lemma TokenBytesRead(b: seq<u8>, p: nat, t: Token)
    requires t.Ok() && p + |TokenBytes(t)| <= |b| && b[p..p + |TokenBytes(t)|] == TokenBytes(t)
    ensures TokenBytes(t) == if t.Match? then [b[p], b[p + 1], b[p + 2]] else [b[p]]
  {
    var x := b[p..p + |TokenBytes(t)|];
    assert x[0] == b[p];
    if t.Match? {
      assert x[1] == b[p + 1] && x[2] == b[p + 2];
    }
  }

  /** Sends every token of the buffer and the end-of-block symbol; true means no byte was dropped. */
  method CompressLzCodes(sink: BitSink, buf: array<u8>, end: nat, lit: HuffTable, dist: HuffTable, ghost ts: seq<Token>)
    returns (fits: bool)
    requires sink.Valid() && buf != sink.out && Ready(lit) && Ready(dist)
    requires end <= buf.Length && AllOk(ts) && buf[..end] == Encoded(ts)
    requires AllCodable(lit.sizes[..], dist.sizes[..], ts) && HasCode(lit.sizes[..], 256)
    modifies sink, sink.out
    ensures sink.Valid() && Grew(old(sink.Snapshot()), sink.Snapshot(), BodyBits(lit.sizes[..], dist.sizes[..], ts))
    ensures fits <==> sink.Snapshot().fits
  {
    hide Reading, Ready, Grew, Codable, TokenBits, Encoded, TokensBits, HuffBits;
    ghost var b, ls, ds, a := buf[..], lit.sizes[..], dist.sizes[..], sink.Snapshot();
    ghost var done: seq<Token>, cur: seq<Token>, later, slots := [], [], ts, 0;
    var p, flags := 0, 1;
    assert b[..end] == buf[..end];
    ReadStart(b, end, ts);
    GrewNone(a);
    TokensBitsNone(ls, ds);
    assert done + (cur + later) == ts;
    while p < end
      invariant buf[..] == b && lit.sizes[..] == ls && dist.sizes[..] == ds && sink.Valid() && Ready(lit) && Ready(dist)
      invariant p <= end && Reading(b, p, end, flags, cur, later, slots)
      invariant done + (cur + later) == ts && AllCodable(ls, ds, done)
      invariant Grew(a, sink.Snapshot(), TokensBits(ls, ds, done))
    {
      ghost var s1, rest := sink.Snapshot(), cur + later;
      ghost var t: Token;
      CodableTail(ls, ds, done, rest);
      p, flags, t, cur, later, slots := SendToken(sink, buf, p, end, flags, lit, dist, cur, later, slots);
      ReadingBounds(b, p, end, flags, cur, later, slots);
      TokensBitsSnoc(ls, ds, done, t);
      GrewTrans(a, s1, sink.Snapshot(), TokensBits(ls, ds, done), TokenBits(ls, ds, t));
      assert done + ([t] + (cur + later)) == (done + [t]) + (cur + later);
      done := done + [t];
    }
    ReadEnd(b, end, flags, cur, later, slots);
    assert done == ts;
    ghost var s1 := sink.Snapshot();
    PutCode(sink, lit, 256);
    GrewTrans(a, s1, sink.Snapshot(), TokensBits(ls, ds, ts), HuffBits(ls, 256));
    return sink.pos < sink.end;
  }

  lemma TokensBitsNone(lit: seq<nat>, dist: seq<nat>)
    ensures TokensBits(lit, dist, []) == []
  {
  }

  lemma CodableTail(lit: seq<nat>, dist: seq<nat>, done: seq<Token>, rest: seq<Token>)
    requires AllCodable(lit, dist, done + rest)
    ensures AllCodable(lit, dist, rest)
  {
    forall k | 0 <= k < |rest|
      ensures Codable(lit, dist, rest[k])
    {
      assert (done + rest)[|done| + k] == rest[k];
    }
  }
}
