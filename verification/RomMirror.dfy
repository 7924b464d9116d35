/**
 Mirroring a ROM image up to a power of two (initc.c, `rom_memcpy`, `mirror_rom`, `MirrorROM`). The
 largest power of two that fits stays; what is left over is mirrored in its turn and then repeated until
 it is as large. The buffer may end before the mirror does.
 */
module RomMirror {
  import opened Bits
  import opened Modulo

  const LIMIT := 0x100_0000

  // ---------------------------------------------------------------- powers of two

  ghost predicate IsPow2(n: nat)
  {
    exists e: nat :: n == Pow2(e)
  }

  /** The largest power of two not above `n`. */
  function Top(n: nat): (r: nat)
    requires n > 0
    ensures 0 < r <= n < 2 * r
  {
    if n == 1 then 1 else 2 * Top(n / 2)
  }

  /** The size of the mirrored image. */
  function Full(n: nat): (r: nat)
    requires n > 0
    ensures n <= r < 2 * n
  {
    if n == Top(n) then n else 2 * Top(n)
  }

  lemma {:induction false} TopIsPow2(n: nat)
    requires n > 0
    ensures IsPow2(Top(n))
  {
    if n == 1 {
      assert Pow2(0) == 1;
    } else {
      TopIsPow2(n / 2);
      var e: nat :| Top(n / 2) == Pow2(e);
      assert Pow2(e + 1) == Top(n);
    }
  }

  /** `Full(n)` is the least power of two that is not below `n`. */
  lemma FullIsLeast(n: nat, m: nat)
    requires n > 0
    ensures IsPow2(Full(n))
    ensures IsPow2(m) && n <= m ==> Full(n) <= m
  {
    TopIsPow2(n);
    var e: nat :| Top(n) == Pow2(e);
    assert Pow2(e + 1) == 2 * Top(n);
    if IsPow2(m) && n <= m {
      var f: nat :| m == Pow2(f);
      if Top(n) != n {
        if f <= e {
          Pow2Mono(f, e);
        } else {
          Pow2Mono(e + 1, f);
        }
      }
    }
  }

  /** Any power of two with `p <= n < 2p` is the largest that fits. */
  lemma TopUnique(n: nat, e: nat)
    requires Pow2(e) <= n < 2 * Pow2(e)
    ensures Top(n) == Pow2(e)
  {
    TopIsPow2(n);
    var f: nat :| Top(n) == Pow2(f);
    if e < f {
      Pow2Mono(e + 1, f);
    } else if f < e {
      Pow2Mono(f + 1, e);
    }
  }

  /** The mirror of the rest is no larger than the part before it. */
  lemma RestFits(n: nat)
    requires n > 0 && n != Top(n)
    ensures Full(n - Top(n)) <= Top(n)
  {
    TopIsPow2(n);
    FullIsLeast(n - Top(n), Top(n));
  }

  // ---------------------------------------------------------------- where a byte comes from

  /** The original byte that place `a` of the mirrored image repeats. */
  function Fold(a: nat, n: nat): (f: nat)
    requires n > 0
    ensures f < n
    decreases n
  {
    var m := Top(n);
    if n == m then a % m
    else if a < m then a
    else m + Fold((a - m) % Full(n - m), n - m)
  }

  /** The original bytes stay where they are. */
  lemma {:induction false} FoldInside(a: nat, n: nat)
    requires a < n
    ensures Fold(a, n) == a
    decreases n
  {
    var m := Top(n);
    if n == m {
      SmallMod(a, m);
    } else if a >= m {
      SmallMod(a - m, Full(n - m));
      FoldInside(a - m, n - m);
    }
  }

  lemma SmallMod(a: nat, m: nat)
    requires a < m
    ensures a % m == a
  {
  }

  /** Shifting by a multiple of the period. */
  lemma ModShift(b: nat, len: nat, t: nat)
    requires t > 0 && len % t == 0 && b >= len
    ensures (b - len) % t == b % t
  {
    ModMultiple(b, b - len, len / t, t);
  }

  lemma ModDouble(len: nat, t: nat)
    requires t > 0 && len % t == 0
    ensures (len + len) % t == 0
  {
    ModAdd(len, 0, len, t);
  }

  /** From `base` on, `len` bytes repeat the mirrored rest of `r` bytes with period `t`, as far as the buffer goes. */
  ghost predicate Repeats(d: seq<u8>, d0: seq<u8>, base: nat, len: nat, t: nat, r: nat, max: nat)
    requires r > 0 && t > 0
  {
    && |d| == |d0| >= max
    && (forall b: nat :: b < len && base + b < max ==> base + Fold(b % t, r) < max && d[base + b] == d0[base + Fold(b % t, r)])
    && (forall i :: 0 <= i < |d| && !(base <= i < base + len && i < max) ==> d[i] == d0[i])
  }

  /** The image is mirrored. */
  ghost predicate Mirrored(d: seq<u8>, d0: seq<u8>, start: nat, n: nat, max: nat)
    requires n > 0
  {
    && |d| == |d0| >= max
    && (forall b: nat :: b < Full(n) && start + b < max ==> start + Fold(b, n) < max && d[start + b] == d0[start + Fold(b, n)])
    && (forall i :: 0 <= i < |d| && !(start <= i < start + Full(n) && i < max) ==> d[i] == d0[i])
  }

  lemma RepeatsOnce(d: seq<u8>, d0: seq<u8>, base: nat, r: nat, max: nat)
    requires r > 0 && Mirrored(d, d0, base, r, max)
    ensures Repeats(d, d0, base, Full(r), Full(r), r, max)
  {
    forall b: nat | b < Full(r) && base + b < max
      ensures base + Fold(b % Full(r), r) < max && d[base + b] == d0[base + Fold(b % Full(r), r)]
    {
      SmallMod(b, Full(r));
    }
  }

  lemma RepeatsTwice(d: seq<u8>, e: seq<u8>, d0: seq<u8>, base: nat, len: nat, t: nat, r: nat, max: nat)
    requires r > 0 && t > 0 && len % t == 0 && Repeats(d, d0, base, len, t, r, max) && |e| == |d|
    requires forall i :: base + len <= i < base + len + len && i < max ==> e[i] == d[i - len]
    requires forall i :: 0 <= i < |d| && !(base + len <= i < base + len + len && i < max) ==> e[i] == d[i]
    ensures Repeats(e, d0, base, len + len, t, r, max)
  {
    forall b: nat | b < len + len && base + b < max
      ensures base + Fold(b % t, r) < max && e[base + b] == d0[base + Fold(b % t, r)]
    {
      if b >= len {
        ModShift(b, len, t);
        assert d[base + (b - len)] == d0[base + Fold((b - len) % t, r)];
      }
    }
  }

  lemma RepeatsFrame(d: seq<u8>, d0: seq<u8>, base: nat, len: nat, t: nat, r: nat, max: nat)
    requires r > 0 && t > 0 && Repeats(d, d0, base, len, t, r, max)
    ensures |d| == |d0| >= max
    ensures forall i :: 0 <= i < |d| && !(base <= i < base + len && i < max) ==> d[i] == d0[i]
  {
  }

  lemma RepeatsAt(d: seq<u8>, d0: seq<u8>, base: nat, len: nat, t: nat, r: nat, max: nat, b: nat)
    requires r > 0 && t > 0 && Repeats(d, d0, base, len, t, r, max) && b < len && base + b < max
    ensures base + Fold(b % t, r) < max <= |d| == |d0| && d[base + b] == d0[base + Fold(b % t, r)]
  {
  }

  /** Byte `b` of the whole: kept below the largest power of two, repeated above it. */
  lemma EitherHalf(d: seq<u8>, d0: seq<u8>, start: nat, n: nat, max: nat, b: nat)
    requires n > 0 && n != Top(n) && Repeats(d, d0, start + Top(n), Top(n), Full(n - Top(n)), n - Top(n), max)
    requires b < Full(n) && start + b < max
    ensures start + Fold(b, n) < max <= |d| == |d0| && d[start + b] == d0[start + Fold(b, n)]
  {
    hide *;
    FullIs(n);
    var m, r := Top(n), n - Top(n);
    RepeatsFrame(d, d0, start + m, m, Full(r), r, max);
    if b >= m {
      FoldHigh(b - m, n);
      RepeatsAt(d, d0, start + m, m, Full(r), r, max, b - m);
    } else {
      FoldInside(b, n);
    }
  }

  /** The kept part and the repeated rest together. */
  lemma BothHalves(d: seq<u8>, d0: seq<u8>, start: nat, n: nat, max: nat)
    requires n > 0 && n != Top(n) && Repeats(d, d0, start + Top(n), Top(n), Full(n - Top(n)), n - Top(n), max)
    ensures Mirrored(d, d0, start, n, max)
  {
    hide Fold, Top, Full, Repeats;
    FullIs(n);
    RepeatsFrame(d, d0, start + Top(n), Top(n), Full(n - Top(n)), n - Top(n), max);
    forall b: nat | b < Full(n) && start + b < max
      ensures start + Fold(b, n) < max && d[start + b] == d0[start + Fold(b, n)]
    {
      EitherHalf(d, d0, start, n, max, b);
    }
  }

  lemma NothingToDo(d: seq<u8>, start: nat, n: nat, max: nat)
    requires n > 0 && n == Top(n) && max <= |d|
    ensures Mirrored(d, d, start, n, max)
  {
    forall b: nat | b < n
      ensures Fold(b, n) == b
    {
      FoldInside(b, n);
    }
  }

  /** Doubling a smaller power of two does not pass a larger one. */
  lemma DoublingFits(len: nat, mask: nat)
    requires IsPow2(len) && IsPow2(mask) && len < mask
    ensures len + len <= mask && IsPow2(len + len) && len > 0
  {
    var e: nat :| len == Pow2(e);
    var f: nat :| mask == Pow2(f);
    if f <= e {
      Pow2Mono(f, e);
    }
    Pow2Mono(e + 1, f);
    assert len + len == Pow2(e + 1);
  }

  lemma FoldHigh(b: nat, n: nat)
    requires n > 0 && n != Top(n)
    ensures Fold(Top(n) + b, n) == Top(n) + Fold(b % Full(n - Top(n)), n - Top(n))
  {
  }

  // ---------------------------------------------------------------- copying

  class RomBuffer {
    const romData: array<u8>
    const maxRomSpace: nat
    var curRomSpace: nat
    var numBanks: nat

    ghost predicate Valid()
    {
      maxRomSpace <= romData.Length
    }

    constructor (romData: array<u8>, maxRomSpace: nat, curRomSpace: nat)
      requires maxRomSpace <= romData.Length
      ensures Valid() && this.romData == romData && this.maxRomSpace == maxRomSpace && this.curRomSpace == curRomSpace
    {
      this.romData, this.maxRomSpace, this.curRomSpace, numBanks := romData, maxRomSpace, curRomSpace, 0;
    }

    /**
       `rom_memcpy`: byte by byte up to the end of the buffer, so that a copy to a place further on that
       overlaps its source repeats it.
     */
    method RomMemcpy(dest0: nat, src0: nat, len0: nat)
      requires Valid()
      modifies romData
      ensures src0 < dest0 ==> forall i :: dest0 <= i < dest0 + len0 && i < maxRomSpace ==>
        romData[i] == if i - (dest0 - src0) < dest0 then old(romData[i - (dest0 - src0)]) else romData[i - (dest0 - src0)]
      ensures src0 >= dest0 ==> forall i :: dest0 <= i < dest0 + len0 && i + (src0 - dest0) < maxRomSpace ==>
        romData[i] == old(romData[i + (src0 - dest0)])
      ensures forall i :: 0 <= i < romData.Length && !(dest0 <= i < dest0 + len0 && i < maxRomSpace && i + src0 - dest0 < maxRomSpace) ==>
        romData[i] == old(romData[i])
    {
      var dest, src, len := dest0, src0, len0;
      while len > 0 && dest < maxRomSpace && src < maxRomSpace
        invariant dest - dest0 == src - src0 == len0 - len && 0 <= len <= len0
        invariant src0 < dest0 ==> forall i :: dest0 <= i < dest && i < maxRomSpace ==>
          romData[i] == if i - (dest0 - src0) < dest0 then old(romData[i - (dest0 - src0)]) else romData[i - (dest0 - src0)]
        invariant src0 >= dest0 ==> forall i :: dest0 <= i < dest && i + (src0 - dest0) < maxRomSpace ==>
          romData[i] == old(romData[i + (src0 - dest0)])
        invariant forall i :: 0 <= i < romData.Length && !(dest0 <= i < dest && i < maxRomSpace && i + src0 - dest0 < maxRomSpace) ==>
          romData[i] == old(romData[i])
        decreases len
      {
        romData[dest] := romData[src];
        dest, src, len := dest + 1, src + 1, len - 1;
      }
    }

    /** The bit mask for the highest bit of a length below 2^24. */
    method HighBit(length: nat) returns (mask: nat)
      requires 0 < length < LIMIT
      ensures mask == Top(length)
    {
      mask := 0x80_0000;
      ghost var e: nat := 23;
      HighestPower();
      while (length / mask) % 2 == 0
        invariant 0 < mask == Pow2(e) && length < 2 * mask
        decreases mask
      {
        LessThanMask(length, mask);
        e := e - 1;
        mask := mask / 2;
      }
      AtLeastMask(length, mask);
      TopUnique(length, e);
    }

    /** `mirror_rom` */
    method MirrorRom(start: nat, length0: nat) returns (total: nat)
      requires Valid() && 0 < length0 < LIMIT
      modifies romData
      ensures total == Full(length0) && Mirrored(romData[..], old(romData[..]), start, length0, maxRomSpace)
      decreases length0
    {
      hide *;
      Sized(this);
      var mask := HighBit(length0);
      var length: nat := length0 - mask;
      ghost var r, d0 := length, romData[..];
      if length > 0 {
        RestFits(length0);
        length := MirrorRom(start + mask, length);
        RepeatsOnce(romData[..], d0, start + mask, r, maxRomSpace);
        length := Double(start + mask, length, mask, d0, r);
        BothHalves(romData[..], d0, start, length0, maxRomSpace);
      } else {
        NothingToDo(d0, start, length0, maxRomSpace);
      }
      FullIs(length0);
      total := length + mask;
    }

    /** The loop that repeats the mirrored rest until it is as large as the part before it. */
    method Double(start: nat, length0: nat, mask: nat, ghost d0: seq<u8>, ghost r: nat) returns (length: nat)
      requires Valid() && 0 < length0 <= mask && r > 0 && length0 == Full(r) && (exists n: nat :: n > 0 && mask == Top(n))
      requires Repeats(romData[..], d0, start, length0, length0, r, maxRomSpace)
      modifies romData
      ensures length == mask && Repeats(romData[..], d0, start, mask, length0, r, maxRomSpace)
    {
      hide *;
      Sized(this);
      length := length0;
      ghost var n: nat :| n > 0 && mask == Top(n);
      TopIsPow2(n);
      FullIsLeast(r, 0);
      assert length0 % length0 == 0;
      while length != mask
        invariant 0 < length <= mask && IsPow2(length) && length % length0 == 0
        invariant Repeats(romData[..], d0, start, length, length0, r, maxRomSpace)
        decreases mask - length
      {
        DoublingFits(length, mask);
        ModDouble(length, length0);
        ghost var d := romData[..];
        RomMemcpy(start + length, start, length);
        assert forall i :: start + length <= i < start + length + length && i < maxRomSpace ==> romData[..][i] == d[i - length];
        RepeatsTwice(d, romData[..], d0, start, length, length0, r, maxRomSpace);
        length := length + length;
      }
    }

    /**
     `MirrorROM`, except for the SPC7110 cartridges: the image is mirrored to a power of two, cut to the
     buffer, and repeated until the buffer is full.
     */
    method MirrorAll()
      requires Valid() && 0 < curRomSpace < LIMIT
      modifies this`curRomSpace, this`numBanks, romData
      ensures curRomSpace == Smaller(Full(old(curRomSpace)), maxRomSpace) && numBanks == curRomSpace / 0x8000
      ensures forall i: nat :: i < maxRomSpace ==> Sourced(romData[..], old(romData[..]), i, Full(old(curRomSpace)), old(curRomSpace))
      ensures forall i :: maxRomSpace <= i < romData.Length ==> romData[i] == old(romData[i])
    {
      hide *;
      Sized(this);
      ghost var d0, n := romData[..], curRomSpace;
      var total := MirrorRom(0, curRomSpace);
      curRomSpace := Smaller(total, maxRomSpace);
      numBanks := curRomSpace / 0x8000;
      var romSize: nat, startMirror: nat := curRomSpace, 0;
      SourcedFirst(romData[..], d0, n, maxRomSpace);
      assert forall i :: maxRomSpace <= i < romData.Length ==> romData[..][i] == d0[i];
      while romSize < maxRomSpace
        invariant curRomSpace <= romSize && (romSize <= maxRomSpace || romSize == curRomSpace) && startMirror == romSize - curRomSpace
        invariant total == Full(n) > 0 && curRomSpace == Smaller(total, maxRomSpace) && numBanks == curRomSpace / 0x8000
        invariant forall i: nat :: i < romSize && i < maxRomSpace ==> Sourced(romData[..], d0, i, total, n)
        invariant forall i :: maxRomSpace <= i < romData.Length ==> romData[i] == d0[i]
        decreases maxRomSpace - romSize
      {
        ghost var d := romData[..];
        romData[romSize] := romData[startMirror];
        SourcedNext(d, romData[..], d0, romSize, total, n);
        romSize, startMirror := romSize + 1, startMirror + 1;
      }
    }
  }

  function Smaller(a: nat, b: nat): (m: nat)
    ensures m <= a && m <= b && (m == a || m == b)
  {
    if a > b then b else a
  }

  /** Byte `i` repeats an original byte: with period `total`, the one the mirror puts there. */
  ghost predicate Sourced(d: seq<u8>, d0: seq<u8>, i: nat, total: nat, n: nat)
  {
    n > 0 && total > 0 && i < |d| && Fold(i % total, n) < |d0| && d[i] == d0[Fold(i % total, n)]
  }

  lemma SourcedFirst(d: seq<u8>, d0: seq<u8>, n: nat, max: nat)
    requires n > 0 && Mirrored(d, d0, 0, n, max)
    ensures forall i: nat :: i < Full(n) && i < max ==> Sourced(d, d0, i, Full(n), n)
    ensures forall i :: max <= i < |d| ==> d[i] == d0[i]
    ensures Full(n) > 0
  {
    forall i: nat | i < Full(n) && i < max
      ensures Sourced(d, d0, i, Full(n), n)
    {
      SmallMod(i, Full(n));
      assert d[0 + i] == d0[0 + Fold(i, n)];
    }
  }

  lemma SourcedNext(d: seq<u8>, e: seq<u8>, d0: seq<u8>, at: nat, total: nat, n: nat)
    requires 0 < total <= at < |d| && e == d[at := d[at - total]]
    requires forall i: nat :: i < at ==> Sourced(d, d0, i, total, n)
    ensures forall i: nat :: i <= at ==> Sourced(e, d0, i, total, n)
  {
    assert Sourced(d, d0, at - total, total, n);
    ModMultiple(at, at - total, 1, total);
    forall i: nat | i <= at
      ensures Sourced(e, d0, i, total, n)
    {
      if i < at {
        assert Sourced(d, d0, i, total, n);
      }
    }
  }

  lemma Sized(b: RomBuffer)
    ensures b.Valid() <==> b.maxRomSpace <= b.romData.Length
  {
  }

  lemma FullIs(n: nat)
    requires n > 0
    ensures Full(n) == if n == Top(n) then n else 2 * Top(n)
  {
  }

  lemma HighestPower()
    ensures 0x80_0000 == Pow2(23)
  {
    Pow2Values();
    Pow2Add(15, 8);
  }

  lemma LessThanMask(length: nat, mask: nat)
    requires mask > 0 && length < 2 * mask && (length / mask) % 2 == 0
    ensures length < mask
  {
    assert length / mask == if length < mask then 0 else 1;
  }

  lemma AtLeastMask(length: nat, mask: nat)
    requires mask > 0 && (length / mask) % 2 != 0
    ensures length >= mask
  {
  }
}
