/**
 The inflater's input side (miniz.c, `TINFL_GET_BYTE`, `TINFL_NEED_BITS`, `TINFL_GET_BITS`,
 `TINFL_SKIP_BITS` and the put-back loops): an input buffer and a 64-bit bit buffer. The bits in the
 bit buffer are always the last ones of the bytes taken, so eight of them can become a byte again.
 */
module BitSources {
  import opened Bits

  lemma FeedJoin(v: nat, n: nat, b: nat, l: nat)
    requires v < Pow2(n) && b < Pow2(l)
    ensures ToBits(v + b * Pow2(n), n + l) == ToBits(v, n) + ToBits(b, l)
    ensures v + b * Pow2(n) < Pow2(n + l)
  {
    ToBitsJoin(v, n, b, l);
    Pow2Add(l, n);
    MulMono(b + 1, Pow2(l), Pow2(n));
    Distrib(b, 1, Pow2(n));
  }

  /** `v >> n` */
  function Shr(v: nat, n: nat): (q: nat)
  {
    DivNonNegative(v, Pow2(n));
    v / Pow2(n)
  }

  /** `v & ((1 << n) - 1)` */
  function Low(v: nat, n: nat): (r: nat)
    ensures r < Pow2(n)
  {
    v % Pow2(n)
  }

  /** The low `n` bits and the rest. */
  lemma DropSplit(v: nat, m: nat, n: nat)
    requires v < Pow2(m) && n <= m
    ensures Shr(v, n) < Pow2(m - n) && ToBits(v, m) == ToBits(Low(v, n), n) + ToBits(Shr(v, n), m - n)
  {
    var q, r := DivMod(v, Pow2(n));
    Pow2Add(m - n, n);
    MulCancel(q, Pow2(m - n), Pow2(n));
    ToBitsJoin(r, n, q, m - n);
  }

  /** `bits` is the end of `all`. */
  ghost predicate EndOf(bits: seq<bool>, all: seq<bool>)
  {
    |bits| <= |all| && bits == all[|all| - |bits|..]
  }

  lemma EndNothing(bits: seq<bool>, all: seq<bool>)
    requires bits == []
    ensures EndOf(bits, all)
  {
  }

  lemma EndLonger(bits: seq<bool>, all: seq<bool>, more: seq<bool>)
    requires EndOf(bits, all)
    ensures EndOf(bits + more, all + more)
  {
    assert (all + more)[|all| - |bits|..] == all[|all| - |bits|..] + more;
  }

  lemma EndShorter(x: seq<bool>, y: seq<bool>, all: seq<bool>)
    requires EndOf(x + y, all)
    ensures EndOf(y, all)
  {
    assert y == (x + y)[|x|..] == all[|all| - |y|..];
  }

  /** The last byte's worth of pending bits is the last byte taken. */
  lemma LastByte(bits: seq<bool>, taken: seq<u8>)
    requires EndOf(bits, BytesToBits(taken)) && |bits| >= 8
    ensures taken != []
    ensures var init, b := taken[..|taken| - 1], taken[|taken| - 1];
      && bits == bits[..|bits| - 8] + ToBits(b, 8) && EndOf(bits[..|bits| - 8], BytesToBits(init))
  {
    var init, b := taken[..|taken| - 1], taken[|taken| - 1];
    var all, n := BytesToBits(taken), |bits| - 8;
    assert taken == init + [b];
    BytesSnoc(init, b);
    var front := BytesToBits(init);
    hide BytesToBits, ToBits;
    var k := |all| - |bits|;
    assert bits == (front + ToBits(b, 8))[k..] == front[k..] + ToBits(b, 8);
    assert bits[..n] == front[k..];
  }

  class BitSource {
    var inp: seq<u8>
    var cur: nat
    var bitBuf: nat
    var numBits: nat
    /** Every byte taken and not given back since the stream began. */
    ghost var taken: seq<u8>

    ghost predicate Valid()
      reads this
    {
      && cur <= |inp| && numBits < 64 && bitBuf < Pow2(numBits)
      && cur <= |taken| && taken[|taken| - cur..] == inp[..cur]
      && EndOf(Pending(), BytesToBits(taken))
    }

    ghost function Pending(): (p: seq<bool>)
      reads this`bitBuf, this`numBits
      ensures |p| == numBits
    {
      ToBits(bitBuf, numBits)
    }

    /** Bytes taken and still to be taken: fixed during a call. */
    ghost function Offered(): seq<u8>
      reads this`taken, this`inp, this`cur
    {
      taken + if cur <= |inp| then inp[cur..] else []
    }

    /** Bits available without further input. */
    ghost function Avail(): int
      reads this`numBits, this`inp, this`cur
    {
      numBits + 8 * (|inp| - cur)
    }

    constructor ()
      ensures Valid() && taken == [] && numBits == 0
    {
      inp, cur, bitBuf, numBits, taken := [], 0, 0, 0, [];
    }

    /** The input of a new call. */
    method SetInput(data: seq<u8>)
      requires Valid()
      modifies this`inp, this`cur
      ensures Valid() && inp == data && cur == 0 && Offered() == taken + data
    {
      inp, cur := data, 0;
    }

    /** One more byte in the bit buffer. */
    method Feed()
      requires Valid() && cur < |inp| && numBits < 56
      modifies this`cur, this`bitBuf, this`numBits, this`taken
      ensures Valid() && cur == old(cur) + 1 && numBits == old(numBits) + 8 && Offered() == old(Offered()) && Avail() == old(Avail()) && inp == old(inp)
      ensures taken == old(taken) + [inp[old(cur)]] && Pending() == old(Pending()) + ToBits(inp[old(cur)], 8)
    {
      hide ToBits, BytesToBits, Pow2;
      Pow2Values();
      var c := inp[cur];
      ghost var t, p := taken, Pending();
      FeedJoin(bitBuf, numBits, c, 8);
      BytesSnoc(t, c);
      EndLonger(p, BytesToBits(t), ToBits(c, 8));
      bitBuf := bitBuf + c * Pow2(numBits);
      numBits := numBits + 8;
      cur := cur + 1;
      taken := t + [c];
      TakenNext(t, inp, cur - 1);
      assert t + [c] + inp[cur..] == t + inp[cur - 1..];
    }

    /** Pulls bytes until `n` bits are there; false when the input runs out first. */
    method NeedBits(n: nat) returns (ok: bool, ghost more: seq<u8>)
      requires Valid() && n <= 48
      modifies this`cur, this`bitBuf, this`numBits, this`taken
      ensures Valid() && ok == (numBits >= n) && Offered() == old(Offered()) && inp == old(inp) && old(cur) <= cur
      ensures taken == old(taken) + more && Pending() == old(Pending()) + BytesToBits(more)
      ensures (!ok ==> cur == |inp|) && Avail() == old(Avail())
    {
      hide *;
      more := [];
      NoBytes();
      ghost var p, t, o := Pending(), taken, Offered();
      ValidBounds();
      assert p + [] == p && t + [] == t;
      while numBits < n
        invariant Valid() && cur <= |inp| && Offered() == o && inp == old(inp) && old(cur) <= cur && Avail() == old(Avail())
        invariant taken == t + more && Pending() == p + BytesToBits(more)
        decreases n - numBits
      {
        if cur >= |inp| {
          return false, more;
        }
        ghost var c := inp[cur];
        Feed();
        BytesSnoc(more, c);
        assert t + more + [c] == t + (more + [c]);
        assert p + BytesToBits(more) + ToBits(c, 8) == p + (BytesToBits(more) + ToBits(c, 8));
        more := more + [c];
        ValidBounds();
      }
      ok := true;
    }

    lemma ValidBounds()
      requires Valid()
      ensures cur <= |inp| && numBits < 64
    {
    }

    /** Uses up `n` bits. */
    method Drop(n: nat) returns (v: nat)
      requires Valid() && n <= numBits
      modifies this`bitBuf, this`numBits
      ensures Valid() && v < Pow2(n) && numBits == old(numBits) - n && old(Pending()) == ToBits(v, n) + Pending()
      ensures v == Low(old(bitBuf), n) && Avail() == old(Avail()) - n
    {
      hide ToBits, BytesToBits, Pow2, Shr, Low;
      ghost var p := Pending();
      DropSplit(bitBuf, numBits, n);
      v := Low(bitBuf, n);
      bitBuf := Shr(bitBuf, n);
      numBits := numBits - n;
      EndShorter(ToBits(v, n), Pending(), BytesToBits(taken));
    }

    /** `TINFL_GET_BITS` */
    method GetBits(n: nat) returns (ok: bool, v: nat, ghost more: seq<u8>)
      requires Valid() && n <= 48
      modifies this`cur, this`bitBuf, this`numBits, this`taken
      ensures Valid() && Offered() == old(Offered()) && inp == old(inp) && old(cur) <= cur
      ensures taken == old(taken) + more && v < Pow2(n) && (!ok ==> cur == |inp| && numBits < n)
      ensures old(Pending()) + BytesToBits(more) == if ok then ToBits(v, n) + Pending() else Pending()
      ensures Avail() == old(Avail()) - (if ok then n else 0)
    {
      hide *;
      ok, more := NeedBits(n);
      v := 0;
      ZeroFits(n);
      if ok {
        v := Drop(n);
      }
    }

    /** `TINFL_GET_BYTE` with an empty bit buffer: the byte goes straight to its user. */
    method TakeByte() returns (c: u8)
      requires Valid() && cur < |inp| && numBits == 0
      modifies this`cur, this`taken
      ensures Valid() && numBits == 0 && cur == old(cur) + 1 && Offered() == old(Offered()) && Avail() == old(Avail()) - 8
      ensures taken == old(taken) + [c] && c == inp[old(cur)] && Pending() == old(Pending()) == []
    {
      hide BytesToBits, ToBits, EndOf;
      c := inp[cur];
      ghost var t := taken;
      cur := cur + 1;
      taken := t + [c];
      TakenNext(t, inp, cur - 1);
      EndNothing(Pending(), BytesToBits(taken));
      assert t + [c] + inp[cur..] == t + inp[cur - 1..];
    }

    /** A whole byte, from the bit buffer if it holds any bits, else from the input. */
    method GetByte() returns (ok: bool, v: nat, ghost more: seq<u8>)
      requires Valid()
      modifies this`cur, this`bitBuf, this`numBits, this`taken
      ensures Valid() && Offered() == old(Offered()) && inp == old(inp) && old(cur) <= cur
      ensures taken == old(taken) + more && v < 256 && (!ok ==> cur == |inp| && numBits < 8)
      ensures old(Pending()) + BytesToBits(more) == if ok then ToBits(v, 8) + Pending() else Pending()
      ensures Avail() == old(Avail()) - (if ok then 8 else 0)
    {
      hide *;
      Pow2Values();
      ValidBounds();
      if numBits > 0 {
        ok, v, more := GetBits(8);
      } else if cur >= |inp| {
        ok, v, more := false, 0, [];
        NoBytes();
        assert taken + [] == taken && Pending() + [] == Pending();
      } else {
        v := TakeByte();
        ok, more := true, [v as u8];
        BytesSnoc([], v);
        NoBytes();
        assert [] + [v as u8] == [v as u8] && [] + ToBits(v, 8) == ToBits(v, 8) && ToBits(v, 8) + [] == ToBits(v, 8) && [] + (ToBits(v, 8)) == ToBits(v, 8);
      }
    }

    /** The put-back loops: whole bytes return to the input, as far as this call took them. */
    method PutBack() returns (ghost extra: seq<u8>)
      requires Valid()
      modifies this`cur, this`bitBuf, this`numBits, this`taken
      ensures Valid() && Offered() == old(Offered()) && inp == old(inp) && cur <= old(cur)
      ensures old(taken) == taken + extra && old(Pending()) == Pending() + BytesToBits(extra)
      ensures (cur == 0 || numBits < 8) && Avail() == old(Avail())
    {
      hide *;
      extra := [];
      NoBytes();
      ghost var p, t, o := Pending(), taken, Offered();
      assert p + [] == p && t + [] == t;
      while cur > 0 && numBits >= 8
        invariant Valid() && Offered() == o && inp == old(inp) && cur <= old(cur) && Avail() == old(Avail())
        invariant t == taken + extra && p == Pending() + BytesToBits(extra)
        decreases numBits
      {
        ghost var b := GiveOne();
        BytesCons(b, extra);
        assert taken + [b] + extra == taken + ([b] + extra);
        assert Pending() + ToBits(b, 8) + BytesToBits(extra) == Pending() + (ToBits(b, 8) + BytesToBits(extra));
        extra := [b] + extra;
      }
    }

    method GiveOne() returns (ghost b: u8)
      requires Valid() && cur > 0 && numBits >= 8
      modifies this`cur, this`bitBuf, this`numBits, this`taken
      ensures Valid() && Offered() == old(Offered()) && cur == old(cur) - 1 && numBits == old(numBits) - 8 && Avail() == old(Avail())
      ensures old(taken) == taken + [b] && old(Pending()) == Pending() + ToBits(b, 8)
    {
      hide ToBits, BytesToBits, Pow2, Low;
      ghost var p, t := Pending(), taken;
      LastByte(p, t);
      b := t[|t| - 1];
      LowPart(bitBuf, numBits, numBits - 8);
      cur := cur - 1;
      numBits := numBits - 8;
      bitBuf := Low(bitBuf, numBits);
      taken := t[..|t| - 1];
      TakenBack(t, inp, cur);
    }
  }

  lemma ZeroFits(n: nat)
    ensures 0 < Pow2(n)
  {
  }

  lemma TakenNext(t: seq<u8>, inp: seq<u8>, i: nat)
    requires i < |inp| && i <= |t| && t[|t| - i..] == inp[..i]
    ensures (t + [inp[i]])[|t| + 1 - (i + 1)..] == inp[..i + 1]
  {
    assert (t + [inp[i]])[|t| - i..] == t[|t| - i..] + [inp[i]];
  }

  lemma TakenBack(t: seq<u8>, inp: seq<u8>, i: nat)
    requires i < |inp| && i + 1 <= |t| && t[|t| - (i + 1)..] == inp[..i + 1]
    ensures var s := t[..|t| - 1]; s[|s| - i..] == inp[..i] && s + inp[i..] == t + inp[i + 1..] && t[|t| - 1] == inp[i]
  {
    var s, k := t[..|t| - 1], |t| - (i + 1);
    assert t[k..][i] == inp[..i + 1][i];
    assert s[k..] == t[k..][..i] == inp[..i + 1][..i];
    assert t == s + [inp[i]];
  }

  lemma BytesCons(b: u8, s: seq<u8>)
    ensures BytesToBits([b] + s) == ToBits(b, 8) + BytesToBits(s)
  {
    BytesSnoc([], b);
    NoBytes();
    assert [] + [b] == [b] && [] + ToBits(b, 8) == ToBits(b, 8);
    BytesToBitsConcat([b], s);
  }

  lemma LowPart(v: nat, m: nat, n: nat)
    requires v < Pow2(m) && n <= m
    ensures ToBits(Low(v, n), n) == ToBits(v, m)[..n]
  {
    hide ToBits, Pow2, Shr, Low;
    DropSplit(v, m, n);
  }
}
