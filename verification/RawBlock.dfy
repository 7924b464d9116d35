/**
 Stored blocks, padding and the other byte-level pieces of `tdefl_flush_block` (miniz.c).
 */
module RawBlocks {
  import opened Bits
  import opened BitSinks
  import opened InflateSpec
  import opened BlockSpec
  import opened Streams
  import opened Windows

  /** `if (d->m_bits_in) TDEFL_PUT_BITS(0, 8 - d->m_bits_in)` */
  method Pad(sink: BitSink)
    requires sink.Valid()
    modifies sink, sink.out
    ensures sink.Valid() && Grew(old(sink.Snapshot()), sink.Snapshot(), ToBits(0, ToByteBoundary(old(sink.total))))
  {
    hide Grew, ToBits;
    if sink.bitsIn > 0 {
      sink.PutBits(0, 8 - sink.bitsIn);
    } else {
      GrewNone(sink.Snapshot());
      NoBits();
    }
  }

  lemma NoBits()
    ensures ToBits(0, 0) == []
  {
  }

  method PutByte(sink: BitSink, b: u8)
    requires sink.Valid()
    modifies sink, sink.out
    ensures sink.Valid() && Grew(old(sink.Snapshot()), sink.Snapshot(), ToBits(b, 8))
  {
    hide Grew, ToBits, Pow2;
    Pow2Values();
    sink.PutBits(b, 8);
  }

  method PutWord(sink: BitSink, v: u16)
    requires sink.Valid()
    modifies sink, sink.out
    ensures sink.Valid() && Grew(old(sink.Snapshot()), sink.Snapshot(), ToBits(v, 16))
  {
    hide Grew, ToBits, Pow2;
    Pow2Values();
    sink.PutBits(v, 16);
  }

  /** A 16-bit field and its complement: the loop that flips `v` with `^= 0xFFFF` between its two turns. */
  method PutTwice(sink: BitSink, v0: u16) returns (v: u16)
    requires sink.Valid()
    modifies sink, sink.out
    ensures sink.Valid() && Grew(old(sink.Snapshot()), sink.Snapshot(), ToBits(v0, 16) + ToBits(65535 - v0, 16))
    ensures v == v0
  {
    hide Grew, ToBits;
    ghost var a := sink.Snapshot();
    v := v0;
    PutWord(sink, v);
    v := 65535 - v;
    ghost var b := sink.Snapshot();
    PutWord(sink, v);
    v := 65535 - v;
    GrewTrans(a, b, sink.Snapshot(), ToBits(v0, 16), ToBits(65535 - v0, 16));
  }

  /** The bytes of the block, taken from the dictionary. */
  method PutPast(sink: BitSink, window: Window, start: nat, total: nat)
    requires sink.Valid() && window.Valid() && sink.out != window.dict
    requires window.lookaheadPos - window.dictSize <= start && start + total <= window.lookaheadPos <= |window.input|
    modifies sink, sink.out
    ensures sink.Valid() && Grew(old(sink.Snapshot()), sink.Snapshot(), BytesToBits(window.input[start..start + total]))
  {
    hide *;
    ghost var a, data, input := sink.Snapshot(), window.input[start..start + total], window.input;
    GrewNone(a);
    NoBytes();
    assert data[..0] == [];
    for i := 0 to total
      invariant sink.Valid() && window.Valid() && Grew(a, sink.Snapshot(), BytesToBits(data[..i]))
    {
      ghost var b := sink.Snapshot();
      var x := window.Past(start + i);
      assert data[i] == x && data[..i + 1] == data[..i] + [x];
      PutByte(sink, x);
      BytesSnoc(data[..i], x);
      GrewTrans(a, b, sink.Snapshot(), BytesToBits(data[..i]), ToBits(x, 8));
    }
    assert data[..total] == data;
  }

  /** The stored block of `tdefl_flush_block`, from its type on. */
  method PutRaw(sink: BitSink, window: Window, start: nat, total: u16)
    requires sink.Valid() && window.Valid() && sink.out != window.dict
    requires window.lookaheadPos - window.dictSize <= start && start + total <= window.lookaheadPos <= |window.input|
    modifies sink, sink.out
    ensures sink.Valid()
    ensures Grew(old(sink.Snapshot()), sink.Snapshot(), BlockBits(Stored(window.input[start..start + total]), old(sink.total)))
  {
    hide *;
    ghost var a, data := sink.Snapshot(), window.input[start..start + total];
    SnapTotal(sink);
    PutType(sink, 0);
    ghost var b, p := sink.Snapshot(), sink.total;
    Pad(sink);
    ghost var c := sink.Snapshot();
    var total' := PutTwice(sink, total);
    ghost var d := sink.Snapshot();
    PutPast(sink, window, start, total');
    ghost var e := sink.Snapshot();
    GrewTotal(a, b, ToBits(0, 2));
    RawBits(a.total, data);
    GrewTrans(c, d, e, ToBits(total, 16) + ToBits(65535 - total, 16), BytesToBits(data));
    GrewTrans(b, c, e, ToBits(0, ToByteBoundary(p)), ToBits(total, 16) + ToBits(65535 - total, 16) + BytesToBits(data));
    GrewTrans(a, b, e, ToBits(0, 2), ToBits(0, ToByteBoundary(p)) + (ToBits(total, 16) + ToBits(65535 - total, 16) + BytesToBits(data)));
  }

  method PutType(sink: BitSink, kind: nat)
    requires sink.Valid() && kind < 4
    modifies sink, sink.out
    ensures sink.Valid() && Grew(old(sink.Snapshot()), sink.Snapshot(), ToBits(kind, 2)) && sink.total == sink.Snapshot().total
  {
    hide Grew, ToBits, Pow2;
    Pow2Values();
    sink.PutBits(kind, 2);
  }

  lemma SnapTotal(sink: BitSink)
    requires sink.Valid()
    ensures sink.Snapshot().total == sink.total
  {
  }

  lemma GrewTotal(a: Snap, b: Snap, bits: seq<bool>)
    requires Grew(a, b, bits)
    ensures b.total == a.total + |bits|
  {
  }

  lemma RawBits(pos: nat, data: seq<u8>)
    requires |data| < 0x1_0000
    ensures BlockOk(Stored(data))
    ensures BlockBits(Stored(data), pos) == ToBits(0, 2) + (ToBits(0, ToByteBoundary(pos + 2)) + (ToBits(|data|, 16) + ToBits(65535 - |data|, 16) + BytesToBits(data)))
  {
    hide ToBits, BytesToBits, ToByteBoundary;
    var x, y, z := ToBits(|data|, 16), ToBits(65535 - |data|, 16), BytesToBits(data);
    assert x + (y + z) == x + y + z;
  }

  // ---------------------------------------------------------------- before and after the block

  /** The two header bytes of a zlib stream. */
  method PutZlibHeader(sink: BitSink, level: nat)
    requires sink.Valid() && level < 4
    modifies sink, sink.out
    ensures sink.Valid() && Grew(old(sink.Snapshot()), sink.Snapshot(), ZlibBits(level))
  {
    hide Grew, ToBits;
    ghost var a := sink.Snapshot();
    var cmf, header := 0x78, 0x7800 + 64 * level;
    header := header + (31 - header % 31);
    PutByte(sink, cmf);
    ghost var b := sink.Snapshot();
    PutByte(sink, header % 256);
    GrewTrans(a, b, sink.Snapshot(), ToBits(0x78, 8), ToBits(ZlibFlags(level), 8));
  }

  /** `a <<= 8`, `i` times over, in 32 bits */
  function Shifted(adler: nat, i: nat): (a: nat)
    requires adler < 0x1_0000_0000
    ensures a < 0x1_0000_0000
  {
    if i == 0 then adler else Shifted(adler, i - 1) * 256 % 0x1_0000_0000
  }

  /** Dropping the top byte of `top * 2^24 + rest` and shifting the rest up. */
  lemma ShiftUp(top: nat, rest: nat)
    requires top < 256 && rest < 0x100_0000
    ensures (top * 0x100_0000 + rest) * 256 % 0x1_0000_0000 == rest * 256
  {
    assert (top * 0x100_0000 + rest) * 256 == top * 0x1_0000_0000 + rest * 256;
  }

  lemma Top(top: nat, rest: nat)
    requires top < 256 && rest < 0x100_0000
    ensures (top * 0x100_0000 + rest) / 0x100_0000 == top
  {
  }

  lemma TopByte(adler: nat, i: nat)
    requires adler < 0x1_0000_0000 && i < 4
    ensures Shifted(adler, i) / 0x100_0000 == (if i == 0 then adler / 0x100_0000 else if i == 1 then adler / 0x1_0000 % 256 else if i == 2 then adler / 256 % 256 else adler % 256)
  {
    Digits(adler);
    var b3, b2, b1, b0 := adler / 0x100_0000, adler / 0x1_0000 % 256, adler / 256 % 256, adler % 256;
    ShiftUp(b3, b2 * 0x1_0000 + b1 * 256 + b0);
    ShiftUp(b2, b1 * 0x1_0000 + b0 * 256);
    ShiftUp(b1, b0 * 0x1_0000);
    assert Shifted(adler, 0) == adler;
    assert Shifted(adler, 1) == b2 * 0x100_0000 + (b1 * 0x1_0000 + b0 * 256);
    assert Shifted(adler, 2) == b1 * 0x100_0000 + b0 * 0x1_0000;
    assert Shifted(adler, 3) == b0 * 0x100_0000;
    Top(b2, b1 * 0x1_0000 + b0 * 256);
    Top(b1, b0 * 0x1_0000);
  }

  ghost function AdlerByte(adler: nat, i: nat): nat
    requires i < 4
  {
    if i == 0 then adler / 0x100_0000 else if i == 1 then adler / 0x1_0000 % 256 else if i == 2 then adler / 256 % 256 else adler % 256
  }

  ghost function AdlerBits(adler: nat, i: nat): seq<bool>
    requires i <= 4
  {
    if i == 0 then [] else AdlerBits(adler, i - 1) + ToBits(AdlerByte(adler, i - 1), 8)
  }

  lemma AdlerBitsWhole(adler: nat)
    requires adler < 0x1_0000_0000
    ensures AdlerBits(adler, 4) == BigEndian(adler, 4)
  {
    hide *;
    BigEndianAt(adler);
    AdlerBytesAre(adler);
    AdlerBitsAre(adler);
    FourParts(ToBits(AdlerByte(adler, 0), 8), ToBits(AdlerByte(adler, 1), 8), ToBits(AdlerByte(adler, 2), 8), ToBits(AdlerByte(adler, 3), 8));
  }

  lemma AdlerBitsAre(adler: nat)
    ensures AdlerBits(adler, 4) == [] + ToBits(AdlerByte(adler, 0), 8) + ToBits(AdlerByte(adler, 1), 8) + ToBits(AdlerByte(adler, 2), 8) + ToBits(AdlerByte(adler, 3), 8)
  {
    hide ToBits, AdlerByte;
    assert AdlerBits(adler, 1) == [] + ToBits(AdlerByte(adler, 0), 8);
    assert AdlerBits(adler, 2) == AdlerBits(adler, 1) + ToBits(AdlerByte(adler, 1), 8);
    assert AdlerBits(adler, 3) == AdlerBits(adler, 2) + ToBits(AdlerByte(adler, 2), 8);
  }

  lemma FourParts(a: seq<bool>, b: seq<bool>, c: seq<bool>, d: seq<bool>)
    ensures [] + a + b + c + d == a + (b + (c + d))
  {
  }

  lemma AdlerBytesAre(adler: nat)
    ensures AdlerByte(adler, 0) == adler / 0x100_0000 && AdlerByte(adler, 1) == adler / 0x1_0000 % 256
    ensures AdlerByte(adler, 2) == adler / 256 % 256 && AdlerByte(adler, 3) == adler % 256
  {
  }

  lemma AdlerBitsSnoc(adler: nat, i: nat)
    requires adler < 0x1_0000_0000 && i < 4
    ensures AdlerBits(adler, i + 1) == AdlerBits(adler, i) + ToBits(Shifted(adler, i) / 0x100_0000, 8)
    ensures Shifted(adler, i + 1) == Shifted(adler, i) * 256 % 0x1_0000_0000 && Shifted(adler, 0) == adler
    ensures AdlerBits(adler, 0) == []
  {
    hide ToBits;
    TopByte(adler, i);
  }

  /** The checksum, most significant byte first. */
  method PutAdler(sink: BitSink, adler: nat)
    requires sink.Valid() && adler < 0x1_0000_0000
    modifies sink, sink.out
    ensures sink.Valid() && Grew(old(sink.Snapshot()), sink.Snapshot(), BigEndian(adler, 4))
  {
    hide *;
    ghost var s0 := sink.Snapshot();
    var a := adler;
    GrewNone(s0);
    AdlerBitsSnoc(adler, 0);
    for i := 0 to 4
      invariant sink.Valid() && a == Shifted(adler, i) && Grew(s0, sink.Snapshot(), AdlerBits(adler, i))
    {
      ghost var b := sink.Snapshot();
      AdlerBitsSnoc(adler, i);
      PutByte(sink, a / 0x100_0000);
      GrewTrans(s0, b, sink.Snapshot(), AdlerBits(adler, i), ToBits(a / 0x100_0000, 8));
      a := a * 256 % 0x1_0000_0000;
    }
    AdlerBitsWhole(adler);
  }

  /** What `tdefl_flush_block` writes after the block. */
  method PutTail(sink: BitSink, flush: Flush, zlib: bool, adler: nat)
    requires sink.Valid() && adler < 0x1_0000_0000
    modifies sink, sink.out
    ensures sink.Valid() && Grew(old(sink.Snapshot()), sink.Snapshot(), TailBits(flush, zlib, old(sink.total), adler))
    ensures flush.NoFlush? ==> sink.Snapshot() == old(sink.Snapshot())
  {
    if flush.Finish? {
      PutEnd(sink, zlib, adler);
    } else if !flush.NoFlush? {
      PutSync(sink);
    } else {
      GrewNone(sink.Snapshot());
    }
  }

  method PutEnd(sink: BitSink, zlib: bool, adler: nat)
    requires sink.Valid() && adler < 0x1_0000_0000
    modifies sink, sink.out
    ensures sink.Valid() && Grew(old(sink.Snapshot()), sink.Snapshot(), EndBits(zlib, old(sink.total), adler))
  {
    hide Grew, ToBits, BigEndian, ToByteBoundary;
    ghost var a, z := sink.Snapshot(), ToByteBoundary(sink.total);
    Pad(sink);
    ghost var b := sink.Snapshot();
    if zlib {
      PutAdler(sink, adler);
    } else {
      GrewNone(b);
    }
    GrewTrans(a, b, sink.Snapshot(), ToBits(0, z), if zlib then BigEndian(adler, 4) else []);
  }

  /** An empty stored block, byte aligned. */
  method PutSync(sink: BitSink)
    requires sink.Valid()
    modifies sink, sink.out
    ensures sink.Valid() && Grew(old(sink.Snapshot()), sink.Snapshot(), ToBits(0, 1) + BlockBits(Stored([]), old(sink.total) + 1))
  {
    hide *;
    ghost var a := sink.Snapshot();
    SnapTotal(sink);
    PutThree(sink);
    ghost var b, p := sink.Snapshot(), sink.total;
    Pad(sink);
    ghost var c := sink.Snapshot();
    var z := PutTwice(sink, 0);
    GrewTotal(a, b, ToBits(0, 3));
    GrewTrans(b, c, sink.Snapshot(), ToBits(0, ToByteBoundary(p)), ToBits(0, 16) + ToBits(65535, 16));
    GrewTrans(a, b, sink.Snapshot(), ToBits(0, 3), ToBits(0, ToByteBoundary(p)) + (ToBits(0, 16) + ToBits(65535, 16)));
    SyncBits(a.total);
  }

  method PutThree(sink: BitSink)
    requires sink.Valid()
    modifies sink, sink.out
    ensures sink.Valid() && Grew(old(sink.Snapshot()), sink.Snapshot(), ToBits(0, 3)) && sink.total == sink.Snapshot().total
  {
    hide Grew, ToBits, Pow2;
    sink.PutBits(0, 3);
  }

  lemma SyncBits(pos: nat)
    ensures BlockOk(Stored([]))
    ensures ToBits(0, 1) + BlockBits(Stored([]), pos + 1)
         == ToBits(0, 3) + (ToBits(0, ToByteBoundary(pos + 3)) + (ToBits(0, 16) + ToBits(65535, 16)))
  {
    hide *;
    RawBits(pos + 1, []);
    NoBytes();
    ThreeZeros();
    Regroup(ToBits(0, 1), ToBits(0, 2), ToBits(0, 3), ToBits(0, ToByteBoundary(pos + 3)), ToBits(0, 16) + ToBits(65535, 16));
  }

  lemma Regroup(a: seq<bool>, b: seq<bool>, c: seq<bool>, pad: seq<bool>, w: seq<bool>)
    requires c == a + b
    ensures a + (b + (pad + (w + []))) == c + (pad + w)
  {
    assert w + [] == w;
    assert a + (b + (pad + w)) == a + b + (pad + w);
  }

  lemma ThreeZeros()
    ensures ToBits(0, 3) == ToBits(0, 1) + ToBits(0, 2)
  {
    ToBitsJoin(0, 1, 0, 2);
  }
}
