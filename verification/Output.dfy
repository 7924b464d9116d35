/**
 The inflater's output side (miniz.c, the output pointers of `tinfl_decompress` and its match copies):
 one flat buffer, or a circular window. Positions modulo the window size replace `& out_buf_size_mask`,
 the size being a power of two.
 */
module Outputs {
  import opened Bits
  import opened LzTokens
  import opened Modulo

  /** The window holds the last `|d|` bytes written, each at its position modulo the size. */
  ghost predicate Recent(d: seq<u8>, written: seq<u8>)
  {
    |d| > 0 && forall p :: 0 <= p < |written| && |written| - |d| <= p ==> d[p % |d|] == written[p]
  }

  lemma PutRecent(d: seq<u8>, written: seq<u8>, at: nat, b: u8)
    requires Recent(d, written) && at < |d| && at == |written| % |d|
    ensures Recent(d[at := b], written + [b])
  {
    var n, w := |d|, written + [b];
    forall p | 0 <= p < |w| && |w| - n <= p
      ensures d[at := b][p % n] == w[p]
    {
      if p < |written| {
        ModGapInt(p, |written|, n);
        assert d[p % n] == written[p];
      }
    }
  }

  /** `distFrom` stands for the current position; in a flat buffer the distance stays inside it. */
  ghost predicate From(wraps: bool, size: nat, pos: nat, distFrom: nat, dist: nat)
  {
    if wraps then size > 0 && distFrom % size == pos % size else distFrom == pos && 0 < dist <= pos
  }

  lemma FromNext(wraps: bool, size: nat, pos: nat, distFrom: nat, dist: nat)
    requires From(wraps, size, pos, distFrom, dist)
    ensures From(wraps, size, pos + 1, distFrom + 1, dist)
  {
    if wraps {
      ModAdd(distFrom, pos, 1, size);
    }
  }

  lemma NextPut(d: seq<u8>, before: seq<u8>, w: seq<u8>, next: nat, at: nat, b: u8)
    requires next <= at < |d| && w == before + d[next..at]
    ensures w + [b] == before + d[at := b][next..at + 1]
  {
    assert d[at := b][next..at + 1] == d[next..at] + [b];
  }

  lemma RecentAt(d: seq<u8>, written: seq<u8>, dist: nat)
    requires Recent(d, written) && 1 <= dist <= |written| && dist <= |d|
    ensures 0 <= (|written| - dist) % |d| < |d| && d[(|written| - dist) % |d|] == written[|written| - dist]
  {
  }

  class Output {
    const buf: array<u8>
    const wraps: bool
    var next: nat
    var cur: nat
    var end: nat
    /** Everything output since the stream began. */
    ghost var written: seq<u8>
    /** What had been output when this call began. */
    ghost var before: seq<u8>

    ghost predicate Shape()
    {
      wraps ==> buf.Length >= DICT_SIZE
    }

    ghost predicate Valid()
      reads this, buf
    {
      && Shape() && next <= cur <= end <= buf.Length
      && written == before + buf[next..cur]
      && (!wraps ==> cur == |written| && buf[..cur] == written)
      && (wraps ==> cur % buf.Length == |written| % buf.Length && Recent(buf[..], written))
    }

    constructor (buf: array<u8>, wraps: bool)
      requires wraps ==> buf.Length >= DICT_SIZE
      ensures Valid() && this.buf == buf && this.wraps == wraps && written == [] && next == cur == end == 0
    {
      this.buf, this.wraps := buf, wraps;
      next, cur, end, written, before := 0, 0, 0, [], [];
    }

    /** The output area of a new call: it goes on where the last one stopped. */
    method SetOutput(at: nat, size: nat)
      requires Valid() && at + size <= buf.Length && at == (if wraps then |written| % buf.Length else |written|)
      modifies this`next, this`cur, this`end, this`before
      ensures Valid() && next == cur == at && end == at + size && before == written
    {
      hide Recent;
      ghost var w := written;
      if wraps {
        ModMod(|w|, buf.Length);
      }
      next, cur, end, before := at, at, at + size, w;
      assert w == w + buf[at..at];
    }

    method Put(b: u8)
      requires Valid() && cur < end
      modifies this`cur, this`written, buf
      ensures Valid() && cur == old(cur) + 1 && written == old(written) + [b]
      ensures forall i :: 0 <= i < buf.Length && i != old(cur) ==> buf[i] == old(buf[i])
    {
      ghost var d, w, at := buf[..], written, cur;
      assert d[next..at] == buf[next..at];
      if wraps {
        ModUnique(|w|, at, buf.Length);
        PutRecent(d, w, at, b);
        ModAdd(at, |w|, 1, buf.Length);
      }
      buf[cur] := b;
      cur := cur + 1;
      written := w + [b];
      assert buf[..] == d[at := b];
      NextPut(d, before, w, next, at, b);
      assert buf[next..cur] == buf[..][next..cur];
      if !wraps {
        assert buf[..at + 1] == d[..at] + [b];
      }
    }

    /** The distance leads to a byte that has been written and is still there. */
    ghost predicate Reachable(dist: nat)
      reads this`written
    {
      1 <= dist <= |written| && (wraps ==> dist <= buf.Length)
    }

    /** `(dist_from_out_buf_start - dist) & out_buf_size_mask` */
    function SlotOf(distFrom: nat, dist: nat): (i: int)
      requires wraps ==> buf.Length > 0
    {
      if wraps then (distFrom - dist) % buf.Length else distFrom - dist
    }

    ghost predicate FromOk(distFrom: nat, dist: nat)
      reads this`written
    {
      From(wraps, buf.Length, |written|, distFrom, dist)
    }

    /** The slot holds the byte `dist` back, whenever there is one. */
    lemma SlotHolds(distFrom: nat, dist: nat)
      requires Valid() && FromOk(distFrom, dist)
      ensures 0 <= SlotOf(distFrom, dist) < buf.Length
      ensures Reachable(dist) ==> buf[SlotOf(distFrom, dist)] == written[|written| - dist]
    {
      ghost var d := buf[..];
      if wraps {
        ModAdd(distFrom, |written|, -(dist as int), buf.Length);
        if Reachable(dist) {
          RecentAt(d, written, dist);
        }
      } else {
        assert buf[..cur][|written| - dist] == buf[|written| - dist];
      }
    }

    /** One byte of a copy that may go round the window. */
    method CopyByte(distFrom: nat, dist: nat)
      requires Valid() && cur < end && FromOk(distFrom, dist) && dist <= DICT_SIZE
      modifies this`cur, this`written, buf
      ensures Valid() && cur == old(cur) + 1 && FromOk(distFrom + 1, dist) && LooseCopy(old(written), written, 1, dist)
    {
      hide *;
      ghost var w := written;
      OutputFacts(this, distFrom, dist);
      SlotHolds(distFrom, dist);
      var b := buf[SlotOf(distFrom, dist)];
      FromNext(wraps, buf.Length, |w|, distFrom, dist);
      OneLoose(this, distFrom, dist, b);
      Put(b);
      FromIs(this, distFrom + 1, dist);
    }

    /** Where a straight copy of `counter` bytes has got to. */
    ghost predicate Copying(w0: seq<u8>, done: nat, dist: nat, src: nat)
      reads this`written
    {
      && LooseCopy(w0, written, done, dist)
      && (wraps ==> buf.Length > 0 && src % buf.Length == (|written| - dist) % buf.Length)
      && (!wraps ==> src == |written| - dist)
    }

    /** One byte of a straight copy. */
    method CopyStraight(src: nat, ghost w0: seq<u8>, ghost done: nat, ghost dist: nat)
      requires Valid() && cur < end && src < buf.Length && dist <= DICT_SIZE && Copying(w0, done, dist, src)
      modifies this`cur, this`written, buf
      ensures Valid() && cur == old(cur) + 1 && Copying(w0, done + 1, dist, src + 1)
    {
      ghost var w := written;
      StraightHolds(this, src, w0, done, dist);
      var b := buf[src];
      hide Valid, Recent, Copy, LooseCopy;
      Put(b);
      StraightNext(this, w, src, w0, done, dist, b);
    }

    /** The copy loop that handles three bytes a turn; source and destination may overlap. */
    method CopyMatch(counter0: nat, src0: nat, ghost dist: nat)
      requires Valid() && cur + counter0 <= end && src0 + counter0 <= buf.Length && dist <= DICT_SIZE && Copying(written, 0, dist, src0)
      modifies this`cur, this`written, buf
      ensures Valid() && cur == old(cur) + counter0 && LooseCopy(old(written), written, counter0, dist)
    {
      hide *;
      ghost var w0, cur0 := written, cur;
      var counter: nat, src: nat := counter0, src0;
      while counter > 2
        invariant 0 <= counter <= counter0 && src == src0 + (counter0 - counter) && cur == cur0 + (counter0 - counter)
        invariant Valid() && Copying(w0, counter0 - counter, dist, src)
      {
        CopyStraight(src, w0, counter0 - counter, dist);
        CopyStraight(src + 1, w0, counter0 - counter + 1, dist);
        CopyStraight(src + 2, w0, counter0 - counter + 2, dist);
        src := src + 3;
        counter := counter - 3;
      }
      if counter > 0 {
        CopyStraight(src, w0, counter0 - counter, dist);
        if counter > 1 {
          CopyStraight(src + 1, w0, counter0 - counter + 1, dist);
        }
      }
      Copied(this, w0, counter0, dist, src0 + counter0);
    }
  }

  lemma OutputFacts(o: Output, distFrom: nat, dist: nat)
    requires o.Valid() && o.FromOk(distFrom, dist)
    ensures o.wraps ==> o.buf.Length >= DICT_SIZE && o.buf.Length > 0
    ensures From(o.wraps, o.buf.Length, |o.written|, distFrom, dist)
    ensures o.cur <= o.end <= o.buf.Length
  {
  }

  lemma OneLoose(o: Output, distFrom: nat, dist: nat, b: u8)
    requires o.Valid() && o.FromOk(distFrom, dist) && dist <= DICT_SIZE && 0 <= o.SlotOf(distFrom, dist) < o.buf.Length
    requires b == o.buf[o.SlotOf(distFrom, dist)]
    ensures LooseCopy(o.written, o.written + [b], 1, dist)
  {
    hide *;
    OutputFacts(o, distFrom, dist);
    ReachableIs(o, dist);
    o.SlotHolds(distFrom, dist);
    LooseNone(o.written, dist);
    LooseNext(o.written, o.written, 0, dist, b);
  }

  lemma FromIs(o: Output, distFrom: nat, dist: nat)
    ensures o.FromOk(distFrom, dist) <==> From(o.wraps, o.buf.Length, |o.written|, distFrom, dist)
  {
  }

  lemma ReachableIs(o: Output, dist: nat)
    ensures o.Reachable(dist) <==> 1 <= dist <= |o.written| && (o.wraps ==> dist <= o.buf.Length)
  {
  }

  lemma StraightHolds(o: Output, src: nat, w0: seq<u8>, done: nat, dist: nat)
    requires o.Valid() && src < o.buf.Length && o.Copying(w0, done, dist, src)
    ensures o.Reachable(dist) ==> o.buf[src] == o.written[|o.written| - dist]
    ensures dist <= DICT_SIZE && 1 <= dist <= |o.written| ==> o.Reachable(dist)
  {
    if o.Reachable(dist) {
      if o.wraps {
        ModUnique(|o.written| - dist, src, o.buf.Length);
      } else {
        assert o.buf[..o.cur][src] == o.buf[src];
      }
    }
  }

  lemma StraightNext(o: Output, w: seq<u8>, src: nat, w0: seq<u8>, done: nat, dist: nat, b: u8)
    requires o.written == w + [b] && LooseCopy(w0, w, done, dist) && (1 <= dist <= |w| ==> b == w[|w| - dist])
    requires o.wraps ==> o.buf.Length > 0 && src % o.buf.Length == (|w| - dist) % o.buf.Length
    requires !o.wraps ==> src == |w| - dist
    ensures o.Copying(w0, done + 1, dist, src + 1)
  {
    LooseNext(w0, w, done, dist, b);
    if o.wraps {
      ModAdd(src, |w| - dist, 1, o.buf.Length);
    }
  }

  lemma Copied(o: Output, w0: seq<u8>, n: nat, dist: nat, src: nat)
    requires o.Copying(w0, n, dist, src)
    ensures LooseCopy(w0, o.written, n, dist)
  {
  }
}
