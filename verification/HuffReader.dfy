/**
 Reading one Huffman code from the input (miniz.c, `TINFL_HUFF_BITBUF_FILL`, `TINFL_HUFF_DECODE`).
 */
module HuffReader {
  import opened Bits
  import opened BitSources
  import opened Canonical
  import opened DecodeTables
  import I = InflateSpec
  import T = DecodeTree
  import L = InflateSlips
  import D = DeflateBits

  lemma SettlesLonger(s: seq<nat>, a: seq<bool>, b: seq<bool>, sym: nat, len: nat)
    requires Settles(s, a, sym, len) && a <= b
    ensures Settles(s, b, sym, len)
  {
    forall c: seq<bool>, i: nat | b <= c && I.Begins(s, c, i)
      ensures sym == i && len == s[i]
    {
      assert a <= c;
    }
  }

  /** The fifteen low bits are those at hand. */
  lemma FifteenBits(v: nat, n: nat)
    requires n >= 15
    ensures ToBits(v, 15) <= ToBits(v, n)
  {
    LowBits(v, n, 15);
    assert ToBits(v, 15) == ToBits(v, n)[..15];
  }

  /** The bits at hand settle what the tables say. */
  ghost predicate Enough(table: DecodeTable, bitBuf: nat, numBits: nat)
    requires table.Shape()
    reads table, table.lookup, table.tree
  {
    table.Decoded(bitBuf).1 <= numBits && Settles(table.lens, ToBits(bitBuf, numBits), table.Decoded(bitBuf).0, table.Decoded(bitBuf).1)
  }

  /** Byte after byte until the next code is settled, and not one byte more. */
  method Fill(src: BitSource, table: DecodeTable, resuming: bool) returns (ok: bool, ghost more: seq<u8>)
    requires src.Valid() && table.Valid() && src.numBits < 15 && (resuming ==> !Settled(table.lens, src.Pending()))
    modifies src`cur, src`bitBuf, src`numBits, src`taken
    ensures src.Valid() && src.Offered() == old(src.Offered()) && src.inp == old(src.inp) && src.Avail() == old(src.Avail())
    ensures src.taken == old(src.taken) + more && src.Pending() == old(src.Pending()) + BytesToBits(more)
    ensures ok ==> src.numBits >= 15 || (table.Shape() && Enough(table, src.bitBuf, src.numBits))
    ensures !ok ==> src.cur == |src.inp| && src.numBits < 15 && !Settled(table.lens, src.Pending())
  {
    hide *;
    more := [];
    NoBytes();
    ghost var p, t, o := src.Pending(), src.taken, src.Offered();
    assert p + [] == p && t + [] == t;
    var check := !resuming;
    while true
      invariant src.Valid() && src.Offered() == o && src.inp == old(src.inp) && src.Avail() == old(src.Avail())
      invariant src.taken == t + more && src.Pending() == p + BytesToBits(more) && src.numBits < 15
      invariant !check ==> !Settled(table.lens, src.Pending())
      decreases 15 - src.numBits
    {
      SourceFacts(src);
      if check {
        ok := table.Resolved(src.bitBuf, src.numBits);
        BeEnough(table, src.bitBuf, src.numBits);
        if ok {
          return;
        }
      }
      if src.cur >= |src.inp| {
        return false, more;
      }
      ghost var c := src.inp[src.cur];
      src.Feed();
      BytesSnoc(more, c);
      assert t + more + [c] == t + (more + [c]);
      assert p + BytesToBits(more) + ToBits(c, 8) == p + (BytesToBits(more) + ToBits(c, 8));
      more := more + [c];
      check := true;
      if src.numBits >= 15 {
        return true, more;
      }
    }
  }

  lemma SourceFacts(src: BitSource)
    requires src.Valid()
    ensures src.cur <= |src.inp| && src.Pending() == ToBits(src.bitBuf, src.numBits) && T.MAX_LEN == 15
  {
  }

  lemma BeEnough(table: DecodeTable, bitBuf: nat, numBits: nat)
    requires table.Valid()
    ensures table.Shape()
    ensures table.Decoded(bitBuf).1 <= numBits && Settles(table.lens, ToBits(bitBuf, numBits), table.Decoded(bitBuf).0, table.Decoded(bitBuf).1)
        ==> Enough(table, bitBuf, numBits)
  {
    hide Settles;
  }

  lemma EnoughIs(table: DecodeTable, bitBuf: nat, numBits: nat, sym: nat, len: nat)
    requires table.Shape() && (sym, len) == table.Decoded(bitBuf)
    requires len <= 15 && Settles(table.lens, ToBits(bitBuf, 15), sym, len)
    requires numBits >= 15 || Enough(table, bitBuf, numBits)
    requires Lands(table.lens, ToBits(bitBuf, 15), sym, len)
    ensures len <= numBits && Settles(table.lens, ToBits(bitBuf, numBits), sym, len) && Lands(table.lens, ToBits(bitBuf, numBits), sym, len)
  {
    hide Settles, Lands, ToBits;
    if numBits >= 15 {
      FifteenBits(bitBuf, numBits);
      SettlesLonger(table.lens, ToBits(bitBuf, 15), ToBits(bitBuf, numBits), sym, len);
    } else {
      FifteenBits(bitBuf, 15);
      LowBits(bitBuf, 15, numBits);
      assert ToBits(bitBuf, numBits) == ToBits(bitBuf, 15)[..numBits];
    }
    LandsThere(table.lens, ToBits(bitBuf, 15), ToBits(bitBuf, numBits), sym, len);
  }

  lemma LandsThere(s: seq<nat>, a: seq<bool>, b: seq<bool>, sym: nat, len: nat)
    requires Lands(s, a, sym, len) && len <= |b| && (a <= b || b <= a)
    ensures Lands(s, b, sym, len)
  {
    hide HuffBits;
    if I.Begins(s, a, sym) && len == s[sym] {
      assert HuffBits(s, sym) == a[..len] == b[..len];
    }
  }

  /** At least 15 bits, or as many as the next code takes. */
  method Ready(src: BitSource, table: DecodeTable, resuming: bool) returns (ok: bool, ghost more: seq<u8>)
    requires src.Valid() && table.Valid() && (resuming ==> src.numBits < 15 && !Settled(table.lens, src.Pending()))
    modifies src`cur, src`bitBuf, src`numBits, src`taken
    ensures src.Valid() && src.Offered() == old(src.Offered()) && src.inp == old(src.inp) && src.Avail() == old(src.Avail())
    ensures src.taken == old(src.taken) + more && src.Pending() == old(src.Pending()) + BytesToBits(more)
    ensures ok ==> src.numBits >= 15 || (table.Shape() && Enough(table, src.bitBuf, src.numBits))
    ensures !ok ==> src.cur == |src.inp| && src.numBits < 15 && !Settled(table.lens, src.Pending())
  {
    hide *;
    more := [];
    NoBytes();
    assert src.Pending() + [] == src.Pending() && src.taken + [] == src.taken;
    ok := true;
    if src.numBits < 15 {
      SourceFacts(src);
      if resuming || |src.inp| - src.cur < 2 {
        ok, more := Fill(src, table, resuming);
      } else {
        more := src.inp[src.cur..src.cur + 2];
        ghost var p, t, i := src.Pending(), src.taken, src.cur;
        src.Feed();
        src.Feed();
        TwoBytes(src.inp, i, p, t);
      }
    }
  }

  lemma TwoBytes(inp: seq<u8>, i: nat, p: seq<bool>, t: seq<u8>)
    requires i + 2 <= |inp|
    ensures p + BytesToBits(inp[i..i + 2]) == p + ToBits(inp[i], 8) + ToBits(inp[i + 1], 8)
    ensures t + inp[i..i + 2] == t + [inp[i]] + [inp[i + 1]]
  {
    assert inp[i..i + 2] == [inp[i]] + [inp[i + 1]];
    BytesSnoc([inp[i]], inp[i + 1]);
    BytesSnoc([], inp[i]);
    NoBytes();
    assert [] + [inp[i]] == [inp[i]] && [] + ToBits(inp[i], 8) == ToBits(inp[i], 8);
  }

  /**
     A code has been read off the front of `p`, and any code there could only have been this one; if there
     was none, it counts as symbol 0.
   */
  ghost predicate ReadCode(lens: seq<nat>, p: seq<bool>, sym: nat, len: nat, rest: seq<bool>)
  {
    len <= |p| && rest == p[len..] && Settles(lens, p, sym, len) && Lands(lens, p, sym, len)
  }

  /** `TINFL_HUFF_DECODE` */
  method HuffDecode(src: BitSource, table: DecodeTable, resuming: bool) returns (ok: bool, sym: nat, ghost len: nat, ghost more: seq<u8>)
    requires src.Valid() && table.Valid() && (resuming ==> src.numBits < 15 && !Settled(table.lens, src.Pending()))
    modifies src`cur, src`bitBuf, src`numBits, src`taken
    ensures src.Valid() && src.Offered() == old(src.Offered()) && src.inp == old(src.inp)
    ensures src.taken == old(src.taken) + more && src.Avail() == old(src.Avail()) - (if ok then len else 0)
    ensures ok ==> (sym < |table.lens| || sym == 0) && (len == 0 ==> sym == 0)
    ensures ok ==> ReadCode(table.lens, old(src.Pending()) + BytesToBits(more), sym, len, src.Pending())
    ensures !ok ==> src.Pending() == old(src.Pending()) + BytesToBits(more) && src.cur == |src.inp| && src.numBits < 15 && !Settled(table.lens, src.Pending())
  {
    hide *;
    ghost var p0 := src.Pending();
    ok, more := Ready(src, table, resuming);
    sym, len := 0, 0;
    if ok {
      sym, len := DecodeReady(src, table);
    }
  }

  /** The part of `TINFL_HUFF_DECODE` after the bits are there. */
  method DecodeReady(src: BitSource, table: DecodeTable) returns (sym: nat, len: nat)
    requires src.Valid() && table.Valid()
    requires src.numBits >= 15 || (table.Shape() && Enough(table, src.bitBuf, src.numBits))
    modifies src`bitBuf, src`numBits
    ensures src.Valid() && src.Avail() == old(src.Avail()) - len && src.numBits == old(src.numBits) - len && len <= 15
    ensures (sym < |table.lens| || sym == 0) && (len == 0 ==> sym == 0)
    ensures ReadCode(table.lens, old(src.Pending()), sym, len, src.Pending())
  {
    hide *;
    ghost var p := src.Pending();
    SourceFacts(src);
    BeEnough(table, src.bitBuf, src.numBits);
    sym, len := table.Decode(src.bitBuf);
    EnoughIs(table, src.bitBuf, src.numBits, sym, len);
    var v := src.Drop(len);
    SourceFacts(src);
    CutCode(table.lens, p, sym, len, v, src.Pending());
  }

  lemma CutCode(lens: seq<nat>, p: seq<bool>, sym: nat, len: nat, v: nat, rest: seq<bool>)
    requires p == ToBits(v, len) + rest && Settles(lens, p, sym, len) && Lands(lens, p, sym, len)
    ensures ReadCode(lens, p, sym, len, rest)
  {
    hide Settles, Lands, ToBits;
    assert p[len..] == rest;
  }

  /** What a read code means: it is the machine's, or it misses the one code there may be. */
  lemma CodeRead(c: I.Core, lens: seq<nat>, p: seq<bool>, sym: nat, len: nat, rest: seq<bool>)
    requires I.Wants(c) == I.Code(lens) && I.TableOk(lens) && ReadCode(lens, p, sym, len, rest)
    ensures L.MayRead(c, p, sym, len)
    ensures L.NoSuchCode(c, p) || (I.Begins(lens, p, sym) && len == lens[sym])
  {
    hide Settles, I.Wants, I.TableOk, I.UsedSyms, L.SlipLength, L.Misses, HuffBits, Kraft;
    D.TableOkKraft(lens);
    if I.Begins(lens, p, sym) {
      SettlesAt(lens, p, p, sym, len, sym);
    } else {
      forall b, i: nat | p <= b
        ensures !I.Begins(lens, b, i)
      {
        if I.Begins(lens, b, i) {
          SettlesAt(lens, p, b, sym, len, i);
          BeginsShorter(lens, p, b, i);
        }
      }
      BeMissing(lens, p);
      FewCodes(lens, p);
    }
  }

  lemma BeMissing(lens: seq<nat>, p: seq<bool>)
    requires forall b, i: nat :: p <= b ==> !I.Begins(lens, b, i)
    ensures L.Misses(lens, p)
  {
    hide HuffBits;
    forall i: nat | i < |lens| && lens[i] > 0
      ensures !(HuffBits(lens, i) <= p) && !(p <= HuffBits(lens, i))
    {
      MissesOne(lens, p, i);
    }
  }

  lemma BeginsItself(lens: seq<nat>, i: nat)
    requires i < |lens| && lens[i] > 0
    ensures I.Begins(lens, HuffBits(lens, i), i)
  {
  }

  lemma MissesOne(lens: seq<nat>, p: seq<bool>, i: nat)
    requires i < |lens| && lens[i] > 0 && forall b :: p <= b ==> !I.Begins(lens, b, i)
    ensures !(HuffBits(lens, i) <= p) && !(p <= HuffBits(lens, i))
  {
    var h := HuffBits(lens, i);
    BeginsItself(lens, i);
    assert I.Begins(lens, p, i) == (h <= p);
    assert I.Begins(lens, h, i);
  }

  /** Only a table of at most one code can be missed. */
  lemma FewCodes(lens: seq<nat>, p: seq<bool>)
    requires I.TableOk(lens) && L.Misses(lens, p)
    ensures I.UsedSyms(lens) <= 1
  {
    hide I.UsedSyms, Used, L.Misses;
    if I.UsedSyms(lens) > 1 {
      L.FullMatches(lens, p);
    }
  }

  lemma BeginsShorter(lens: seq<nat>, p: seq<bool>, b: seq<bool>, i: nat)
    requires p <= b && I.Begins(lens, b, i) && lens[i] <= |p|
    ensures I.Begins(lens, p, i)
  {
  }

  lemma SettlesAt(lens: seq<nat>, p: seq<bool>, b: seq<bool>, sym: nat, len: nat, i: nat)
    requires Settles(lens, p, sym, len) && p <= b && I.Begins(lens, b, i)
    ensures sym == i && len == lens[i]
  {
  }
}
