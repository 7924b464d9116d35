/**
 The compressor's bit writer (miniz.c, `TDEFL_PUT_BITS`): a bit buffer drained byte by byte into a
 bounded output buffer. Bytes beyond the end are dropped; `pos < end` afterwards shows none was.
 */
module BitSinks {
  import opened Bits

  /** What a caller can observe of a sink: bits put, bytes output, the bit stream, and whether it still fits. */
  datatype Snap = Snap(total: nat, bytes: seq<u8>, stream: seq<bool>, fits: bool)

  /** From `a` to `b` exactly `bits` were written; nothing was lost if the output is not full at the end. */
  ghost predicate Grew(a: Snap, b: Snap, bits: seq<bool>)
  {
    && b.total == a.total + |bits| && a.bytes <= b.bytes
    && (b.fits ==> a.fits && b.stream == a.stream + bits)
  }

  lemma GrewNone(a: Snap)
    ensures Grew(a, a, [])
  {
    assert a.stream + [] == a.stream;
  }

  lemma GrewTrans(a: Snap, b: Snap, c: Snap, x: seq<bool>, y: seq<bool>)
    requires Grew(a, b, x) && Grew(b, c, y)
    ensures Grew(a, c, x + y)
  {
    assert a.stream + x + y == a.stream + (x + y);
  }

  class BitSink {
    const out: array<u8>
    const end: nat
    var pos: nat
    var bitBuffer: nat
    var bitsIn: nat
    /** Bits put since the output position was last at zero, counting those then pending. */
    ghost var total: nat

    ghost predicate Valid()
      reads this
    {
      && end <= out.Length && pos <= end
      && bitsIn < 8 && bitBuffer < Pow2(bitsIn)
      && total % 8 == bitsIn && pos == if total / 8 < end then total / 8 else end
    }

    /** The bits written, including those still in the buffer. */
    ghost function Stream(): (s: seq<bool>)
      requires pos <= out.Length
      reads this, out
      ensures |s| == 8 * pos + bitsIn
    {
      BytesToBits(out[..pos]) + ToBits(bitBuffer, bitsIn)
    }

    ghost function Snapshot(): Snap
      requires Valid()
      reads this, out
    {
      Snap(total, out[..pos], Stream(), pos < end)
    }

    constructor (size: nat, end: nat)
      requires end <= size
      ensures Valid() && fresh(out) && this.end == end && out.Length == size
      ensures pos == 0 && bitsIn == 0 && total == 0
    {
      out := new u8[size](_ => 0);
      this.end := end;
      pos, bitBuffer, bitsIn, total := 0, 0, 0, 0;
    }

    /** One turn of the draining loop: the low byte leaves the bit buffer, and is lost if the output is full. */
    method DrainOne()
      requires pos <= end <= out.Length && bitsIn >= 8 && bitBuffer < Pow2(bitsIn)
      modifies this`pos, this`bitBuffer, this`bitsIn, out
      ensures bitsIn == old(bitsIn) - 8 && bitBuffer < Pow2(bitsIn)
      ensures pos == (if old(pos) < end then old(pos) + 1 else old(pos)) && out[..old(pos)] == old(out[..pos])
      ensures old(pos) < end ==> Stream() == old(Stream())
    {
      hide ToBits, BytesToBits, Pow2;
      ghost var before := out[..pos];
      DrainByte(before, bitBuffer, bitsIn);
      if pos < end {
        out[pos] := bitBuffer % 256;
        pos := pos + 1;
        assert out[..pos] == before + [(bitBuffer % 256) as u8];
      }
      bitBuffer := bitBuffer / 256;
      bitsIn := bitsIn - 8;
    }

    method Drain(ghost drained0: nat)
      requires pos <= end <= out.Length && bitBuffer < Pow2(bitsIn)
      requires bitsIn + 8 * drained0 == total && pos == (if drained0 < end then drained0 else end)
      modifies this`pos, this`bitBuffer, this`bitsIn, out
      ensures Valid() && pos >= old(pos) && out[..old(pos)] == old(out[..pos])
      ensures pos < end ==> Stream() == old(Stream())
    {
      hide ToBits, BytesToBits, Pow2;
      ghost var drained, stream, first := drained0, Stream(), out[..pos];
      while bitsIn >= 8
        invariant 0 <= bitsIn == total - 8 * drained && pos == (if drained < end then drained else end)
        invariant bitBuffer < Pow2(bitsIn)
        invariant |first| <= pos && out[..|first|] == first
        invariant pos < end ==> Stream() == stream
      {
        ghost var pos0, before := pos, out[..pos];
        DrainOne();
        PrefixKept(first, before, out[..], pos0);
        drained := drained + 1;
      }
    }

    /** The three variables a caller may save, seen against the state they were saved in. */
    ghost predicate IsMark(pos0: nat, bitBuffer0: nat, bitsIn0: nat, s: Snap)
    {
      && bitsIn0 < 8 && bitBuffer0 < Pow2(bitsIn0) && |s.bytes| == pos0 <= end && s.fits == (pos0 < end)
      && s.total % 8 == bitsIn0 && pos0 == (if s.total / 8 < end then s.total / 8 else end)
      && s.stream == BytesToBits(s.bytes) + ToBits(bitBuffer0, bitsIn0)
    }

    method Save() returns (pos0: nat, bitBuffer0: nat, bitsIn0: nat)
      requires Valid()
      ensures IsMark(pos0, bitBuffer0, bitsIn0, Snapshot()) && pos0 == pos
    {
      pos0, bitBuffer0, bitsIn0 := pos, bitBuffer, bitsIn;
    }

    /** Forgets what was written since the mark. */
    method Restore(pos0: nat, bitBuffer0: nat, bitsIn0: nat, ghost s: Snap)
      requires Valid() && IsMark(pos0, bitBuffer0, bitsIn0, s) && s.bytes <= Snapshot().bytes
      modifies this`pos, this`bitBuffer, this`bitsIn, this`total
      ensures Valid() && Snapshot() == s
    {
      hide ToBits, BytesToBits, Pow2;
      ghost var o := out[..pos];
      pos, bitBuffer, bitsIn, total := pos0, bitBuffer0, bitsIn0, s.total;
      assert out[..pos0] == o[..pos0] == s.bytes;
      assert Snapshot() == Snap(s.total, s.bytes, s.stream, s.fits);
    }

    /** The bytes written so far are taken away; bits still in the buffer stay. */
    method Drained() returns (bytes: seq<u8>)
      requires Valid()
      modifies this`pos, this`total
      ensures Valid() && pos == 0 && total == bitsIn && bytes == old(Snapshot().bytes)
      ensures old(Snapshot().fits) ==> old(Snapshot().stream) == BytesToBits(bytes) + Snapshot().stream
    {
      hide ToBits, Pow2;
      bytes := out[..pos];
      pos, total := 0, bitsIn;
      assert out[..0] == [] && [] + ToBits(bitBuffer, bitsIn) == ToBits(bitBuffer, bitsIn);
    }

    /** Writes the low `l` bits of `b`. The 32-bit buffer never overflows. */
    method PutBits(b: nat, l: nat)
      requires Valid() && b < Pow2(l) && l <= 24
      modifies this`pos, this`bitBuffer, this`bitsIn, this`total, out
      ensures Valid() && Grew(old(Snapshot()), Snapshot(), ToBits(b, l))
    {
      hide ToBits, BytesToBits, Pow2;
      ghost var a, first := Snapshot(), out[..pos];
      PutJoin(BytesToBits(first), bitBuffer, bitsIn, b, l);
      bitBuffer := bitBuffer + b * Pow2(bitsIn);
      bitsIn := bitsIn + l;
      total := total + l;
      assert Stream() == a.stream + ToBits(b, l);
      Drain((total - l) / 8);
      assert out[..pos][..|first|] == out[..|first|];
    }
  }

  lemma PrefixKept(first: seq<u8>, before: seq<u8>, now: seq<u8>, pos: nat)
    requires |first| <= pos == |before| <= |now| && before[..|first|] == first && now[..pos] == before
    ensures now[..|first|] == first
  {
    assert now[..pos][..|first|] == now[..|first|];
  }

  lemma PutJoin(bytes: seq<bool>, v: nat, n: nat, b: nat, l: nat)
    requires v < Pow2(n) && b < Pow2(l)
    ensures bytes + ToBits(v, n) + ToBits(b, l) == bytes + ToBits(v + b * Pow2(n), n + l)
    ensures v + b * Pow2(n) < Pow2(n + l)
  {
    ToBitsJoin(v, n, b, l);
    Pow2Add(l, n);
    MulMono(b + 1, Pow2(l), Pow2(n));
    Distrib(b, 1, Pow2(n));
    assert bytes + ToBits(v, n) + ToBits(b, l) == bytes + (ToBits(v, n) + ToBits(b, l));
  }

  lemma DrainByte(bytes: seq<u8>, v: nat, n: nat)
    requires n >= 8 && v < Pow2(n)
    ensures BytesToBits(bytes + [(v % 256) as u8]) + ToBits(v / 256, n - 8) == BytesToBits(bytes) + ToBits(v, n)
    ensures v / 256 < Pow2(n - 8)
  {
    hide ToBits, Pow2;
    Pow2Values();
    Pow2Add(8, n - 8);
    var q, r := DivMod(v, 256);
    MulCancel(q, Pow2(n - 8), 256);
    ToBitsJoin(r, 8, q, n - 8);
    var more := bytes + [r as u8];
    assert more[..|more| - 1] == bytes;
    assert BytesToBits(more) == BytesToBits(bytes) + ToBits(r, 8);
    hide BytesToBits;
    assert BytesToBits(bytes) + ToBits(r, 8) + ToBits(q, n - 8) == BytesToBits(bytes) + (ToBits(r, 8) + ToBits(q, n - 8));
  }
}
