/**
 The compressor's token buffer (miniz.c, `tdefl_record_literal`, `tdefl_record_match`): a flag byte
 announces each group of up to eight tokens; the symbol counts are kept alongside.
 */
module TokenBuffers {
  import opened Bits
  import opened LzTokens
  import H = HuffTables

  const LZ_CODE_BUF_SIZE := 65536

  /**
   Complete groups `full` below `flagsPos`, then a flag byte being filled from the top (its other
   bits are stale), then the tokens `cur` of the open group.
   */
  ghost predicate Layout(b: seq<u8>, codePos: nat, flagsPos: nat, left: nat, full: seq<Token>, cur: seq<Token>)
  {
    && 1 <= left <= 8 && |cur| == 8 - left && |full| % 8 == 0 && AllOk(full) && AllOk(cur)
    && flagsPos < codePos <= |b|
    && b[..flagsPos] == Encoded(full)
    && b[flagsPos + 1..codePos] == Flat(cur)
    && b[flagsPos] / Pow2(left) == FromBits(Flags(cur))
  }

  function TokenLen(t: Token): nat
  {
    if t.Lit? then 1 else t.len
  }

  function TokensLen(ts: seq<Token>): nat
  {
    if ts == [] then 0 else TokensLen(ts[..|ts| - 1]) + TokenLen(ts[|ts| - 1])
  }

  function LitSymOf(t: Token): nat
    requires t.Ok()
  {
    if t.Lit? then t.b else LenSym(t.len - MIN_MATCH_LEN)
  }

  function DistSymOf(t: Token): nat
    requires t.Ok() && t.Match?
  {
    DistSym(t.dist - 1)
  }

  function LitCount(ts: seq<Token>, s: nat): nat
    requires AllOk(ts)
  {
    if ts == [] then 0 else LitCount(ts[..|ts| - 1], s) + (if LitSymOf(ts[|ts| - 1]) == s then 1 else 0)
  }

  function DistCount(ts: seq<Token>, s: nat): nat
    requires AllOk(ts)
  {
    if ts == [] then 0
    else DistCount(ts[..|ts| - 1], s) + (if ts[|ts| - 1].Match? && DistSymOf(ts[|ts| - 1]) == s then 1 else 0)
  }

  lemma CountsSnoc(ts: seq<Token>, t: Token)
    requires AllOk(ts) && t.Ok()
    ensures AllOk(ts + [t]) && TokensLen(ts + [t]) == TokensLen(ts) + TokenLen(t)
    ensures forall s :: LitCount(ts + [t], s) == LitCount(ts, s) + (if LitSymOf(t) == s then 1 else 0)
    ensures forall s :: DistCount(ts + [t], s) == DistCount(ts, s) + (if t.Match? && DistSymOf(t) == s then 1 else 0)
  {
    assert (ts + [t])[..|ts + [t]| - 1] == ts;
  }

  // ---------------------------------------------------------------- flags

  /** Shifting a flag in from the top, seen below the bits still to come. */
  lemma FlagShift(f: nat, left: nat, m: nat)
    requires f < 256 && 1 <= left <= 8 && m <= 1
    ensures (f / 2 + 128 * m) / Pow2(left - 1) == f / Pow2(left) + Pow2(8 - left) * m
    ensures f / 2 + 128 * m < 256
  {
    var p, q := Pow2(left - 1), Pow2(8 - left);
    DivDiv(f, 2, p);
    Pow2Add(left - 1, 8 - left);
    Pow2Values();
    hide Pow2;
    AddTop(f / 2, p, q, m);
  }

  lemma AddTop(x: nat, p: nat, q: nat, m: nat)
    requires p > 0 && p * q == 128 && m <= 1
    ensures (x + 128 * m) / p == x / p + q * m
  {
    if m == 1 {
      var d, r := DivMod(x, p);
      Distrib(d, q, p);
      assert q * p == p * q;
      DivUnique(x + 128, p, d + q, r);
    }
  }

  lemma FlagsSnoc(ts: seq<Token>, t: Token)
    ensures FromBits(Flags(ts + [t])) == FromBits(Flags(ts)) + Pow2(|ts|) * BitValue(t.Match?)
  {
    assert Flags(ts + [t]) == Flags(ts) + [t.Match?];
    FromBitsOne(t.Match?);
    hide *;
    FromBitsConcat(Flags(ts), [t.Match?]);
  }

  lemma FromBitsOne(x: bool)
    ensures FromBits([x]) == BitValue(x)
  {
    assert [x][1..] == [];
  }

  /** A token's bytes and flag extend the open group. */
  lemma RecordInGroup(b: seq<u8>, codePos: nat, flagsPos: nat, left: nat, full: seq<Token>, cur: seq<Token>, t: Token, b': seq<u8>)
    requires Layout(b, codePos, flagsPos, left, full, cur) && t.Ok() && |b'| == |b|
    requires codePos + |TokenBytes(t)| <= |b|
    requires b'[..flagsPos] == b[..flagsPos] && b'[flagsPos + 1..codePos] == b[flagsPos + 1..codePos]
    requires b'[codePos..codePos + |TokenBytes(t)|] == TokenBytes(t)
    requires b'[flagsPos] == b[flagsPos] / 2 + 128 * BitValue(t.Match?)
    ensures AllOk(cur + [t])
    ensures b'[flagsPos + 1..codePos + |TokenBytes(t)|] == Flat(cur + [t])
    ensures b'[flagsPos] / Pow2(left - 1) == FromBits(Flags(cur + [t]))
  {
    FlatConcat(cur, [t]);
    assert [t][1..] == [] && Flat([t]) == TokenBytes(t) + [] == TokenBytes(t);
    assert b'[flagsPos + 1..codePos + |TokenBytes(t)|] == b'[flagsPos + 1..codePos] + b'[codePos..codePos + |TokenBytes(t)|];
    FlagShift(b[flagsPos], left, BitValue(t.Match?));
    FlagsSnoc(cur, t);
  }

  lemma RecordSameGroup(b: seq<u8>, codePos: nat, flagsPos: nat, left: nat, full: seq<Token>, cur: seq<Token>, t: Token, b': seq<u8>)
    requires Layout(b, codePos, flagsPos, left, full, cur) && t.Ok() && |b'| == |b| && left > 1
    requires codePos + |TokenBytes(t)| <= |b|
    requires b'[..flagsPos] == b[..flagsPos] && b'[flagsPos + 1..codePos] == b[flagsPos + 1..codePos]
    requires b'[codePos..codePos + |TokenBytes(t)|] == TokenBytes(t)
    requires b'[flagsPos] == b[flagsPos] / 2 + 128 * BitValue(t.Match?)
    ensures Layout(b', codePos + |TokenBytes(t)|, flagsPos, left - 1, full, cur + [t])
  {
    RecordInGroup(b, codePos, flagsPos, left, full, cur, t, b');
  }

  lemma RecordLastInGroup(b: seq<u8>, codePos: nat, flagsPos: nat, full: seq<Token>, cur: seq<Token>, t: Token, b': seq<u8>)
    requires Layout(b, codePos, flagsPos, 1, full, cur) && t.Ok() && |b'| == |b|
    requires codePos + |TokenBytes(t)| < |b|
    requires b'[..flagsPos] == b[..flagsPos] && b'[flagsPos + 1..codePos] == b[flagsPos + 1..codePos]
    requires b'[codePos..codePos + |TokenBytes(t)|] == TokenBytes(t)
    requires b'[flagsPos] == b[flagsPos] / 2 + 128 * BitValue(t.Match?)
    ensures Layout(b', codePos + |TokenBytes(t)| + 1, codePos + |TokenBytes(t)|, 8, full + (cur + [t]), [])
  {
    hide *;
    LastSlot(b, codePos, flagsPos, full, cur);
    RecordInGroup(b, codePos, flagsPos, 1, full, cur, t, b');
    var next, g := codePos + |TokenBytes(t)|, cur + [t];
    DivOne(b'[flagsPos]);
    GroupComplete(b', flagsPos, next, full, g);
    FreshGroup(b', next, full + g);
  }

  lemma DivOne(x: nat)
    ensures x / Pow2(0) == x
  {
  }

  lemma LastSlot(b: seq<u8>, codePos: nat, flagsPos: nat, full: seq<Token>, cur: seq<Token>)
    requires Layout(b, codePos, flagsPos, 1, full, cur)
    ensures flagsPos < codePos <= |b| && AllOk(full) && |full| % 8 == 0 && |cur| == 7
    ensures b[..flagsPos] == Encoded(full)
  {
  }

  lemma FreshGroup(b: seq<u8>, at: nat, full: seq<Token>)
    requires at < |b| && AllOk(full) && |full| % 8 == 0 && b[..at] == Encoded(full)
    ensures Layout(b, at + 1, at, 8, full, [])
  {
    hide Encoded;
    NewGroup(b, at);
  }

  lemma NewGroup(b: seq<u8>, at: nat)
    requires at < |b|
    ensures b[at] / Pow2(8) == FromBits(Flags([])) && b[at + 1..at + 1] == Flat([])
  {
    Pow2Values();
    assert Flags([]) == [];
  }

  lemma GroupComplete(b: seq<u8>, flagsPos: nat, next: nat, full: seq<Token>, g: seq<Token>)
    requires flagsPos < next <= |b| && AllOk(full) && AllOk(g) && |full| % 8 == 0 && |g| == 8
    requires b[..flagsPos] == Encoded(full) && b[flagsPos + 1..next] == Flat(g) && b[flagsPos] == FromBits(Flags(g))
    ensures AllOk(full + g) && b[..next] == Encoded(full + g)
  {
    hide *;
    EncodedConcat(full, g);
    EncodedGroup(g);
    SliceGlue(b, flagsPos, next);
  }

  lemma EncodedGroup(g: seq<Token>)
    requires AllOk(g) && 1 <= |g| <= 8
    ensures Encoded(g) == [FromBits(Flags(g))] + Flat(g)
  {
  }

  lemma SliceGlue<T>(b: seq<T>, i: nat, n: nat)
    requires i < n <= |b|
    ensures b[..n] == b[..i] + ([b[i]] + b[i + 1..n])
  {
  }

  /** `a` is `b` with the bytes of `t` written at `pos`. */
  ghost predicate Written(a: seq<u8>, b: seq<u8>, pos: nat, t: Token)
    requires t.Ok()
  {
    && |a| == |b| && pos + |TokenBytes(t)| < |b|
    && a[..pos] == b[..pos] && a[pos..pos + |TokenBytes(t)|] == TokenBytes(t)
  }

  lemma KeepAround(a: seq<u8>, b: seq<u8>, i: nat, pos: nat, end: nat, v: u8)
    requires i < pos <= end <= |a| == |b| && a[..pos] == b[..pos]
    ensures a[i] == b[i]
    ensures a[i := v][..i] == b[..i] && a[i := v][i + 1..pos] == b[i + 1..pos] && a[i := v][pos..end] == a[pos..end]
  {
    assert a[i] == a[..pos][i] && b[i] == b[..pos][i];
    assert forall k :: 0 <= k < pos ==> a[k] == a[..pos][k] && b[k] == b[..pos][k];
  }

  /** Writing a token and shifting its flag in keeps the layout; after eight tokens a new group opens. */
  lemma PushStep(a: seq<u8>, b: seq<u8>, pos: nat, flagsPos: nat, left: nat, full: seq<Token>, cur: seq<Token>, t: Token)
    requires Layout(b, pos, flagsPos, left, full, cur) && t.Ok() && Written(a, b, pos, t)
    ensures flagsPos < |a| && a[flagsPos] / 2 + 128 * BitValue(t.Match?) < 256
    ensures var a', next := a[flagsPos := a[flagsPos] / 2 + 128 * BitValue(t.Match?)], pos + |TokenBytes(t)|;
      && (left > 1 ==> Layout(a', next, flagsPos, left - 1, full, cur + [t]))
      && (left == 1 ==> Layout(a', next + 1, next, 8, full + (cur + [t]), []))
    ensures 1 <= left
  {
    var next := pos + |TokenBytes(t)|;
    var v := a[flagsPos] / 2 + 128 * BitValue(t.Match?);
    FlagShift(a[flagsPos], left, BitValue(t.Match?));
    KeepAround(a, b, flagsPos, pos, next, v);
    if left > 1 {
      RecordSameGroup(b, pos, flagsPos, left, full, cur, t, a[flagsPos := v]);
    } else {
      RecordLastInGroup(b, pos, flagsPos, full, cur, t, a[flagsPos := v]);
    }
  }

  /** Closing the open group: shift its flags into place, or drop the unused flag byte. */
  lemma CloseGroup(b: seq<u8>, codePos: nat, flagsPos: nat, left: nat, full: seq<Token>, cur: seq<Token>, b': seq<u8>)
    requires Layout(b, codePos, flagsPos, left, full, cur)
    requires b' == b[flagsPos := b[flagsPos] / Pow2(left)]
    ensures AllOk(full + cur) && b'[..if left == 8 then codePos - 1 else codePos] == Encoded(full + cur)
  {
    hide Encoded, Flags, Flat, FromBits, Pow2;
    EncodedConcat(full, cur);
    if left == 8 {
      assert cur == [] && full + cur == full;
      NothingFlat();
      assert |b[flagsPos + 1..codePos]| == 0;
      assert b'[..flagsPos] == b[..flagsPos];
    } else {
      assert b'[..codePos] == b'[..flagsPos] + ([b'[flagsPos]] + b'[flagsPos + 1..codePos]);
      assert b'[..flagsPos] == b[..flagsPos] && b'[flagsPos + 1..codePos] == b[flagsPos + 1..codePos];
      EncodedGroup(cur);
    }
  }

  lemma NothingFlat()
    ensures Flat([]) == []
  {
  }

  // ---------------------------------------------------------------- reading the buffer back

  /**
   The reading loop at offset `p`: `cur` is what is left of the open group, `later` the groups after
   it, and `flags` holds the remaining flag bits below a marker bit at position `slots`.
   */
  ghost predicate Reading(b: seq<u8>, p: nat, end: nat, flags: nat, cur: seq<Token>, later: seq<Token>, slots: nat)
  {
    && p <= end <= |b| && AllOk(cur) && AllOk(later) && |cur| <= slots <= 8
    && (|cur| < slots ==> later == [])
    && b[p..end] == Flat(cur) + Encoded(later)
    && flags == FromBits(Flags(cur)) + Pow2(slots)
  }

  lemma ReadStart(b: seq<u8>, end: nat, ts: seq<Token>)
    requires end <= |b| && AllOk(ts) && b[..end] == Encoded(ts)
    ensures Reading(b, 0, end, 1, [], ts, 0)
  {
    assert Flags([]) == [] && b[0..end] == b[..end] && [] + Encoded(ts) == Encoded(ts);
  }

  lemma ReadEnd(b: seq<u8>, end: nat, flags: nat, cur: seq<Token>, later: seq<Token>, slots: nat)
    requires Reading(b, end, end, flags, cur, later, slots)
    ensures cur == [] && later == []
  {
    assert |Flat(cur) + Encoded(later)| == 0;
    FlatLength(cur);
    EncodedSize(later);
  }

  /** A marker bit at position zero, and only there, calls for the next flag byte. */
  lemma ReadFlags(b: seq<u8>, p: nat, end: nat, flags: nat, cur: seq<Token>, later: seq<Token>, slots: nat)
    returns (cur': seq<Token>, later': seq<Token>)
    requires Reading(b, p, end, flags, cur, later, slots) && p < end
    ensures flags != 1 ==> slots > 0 && cur != []
    ensures flags == 1 ==> cur == [] && slots == 0 && cur' != [] && cur' + later' == later
    ensures flags == 1 ==> Reading(b, p + 1, end, (b[p] as nat) + 0x100, cur', later', 8)
  {
    hide Encoded, Flags, Flat, FromBits;
    cur', later' := [], [];
    NothingLeft();
    if slots == 0 {
      var n := if |later| <= 8 then |later| else 8;
      cur', later' := later[..n], later[n..];
      assert later != [] by {
        assert |b[p..end]| > 0;
      }
      EncodedSplit(later, n);
      assert b[p + 1..end] == b[p..end][1..];
      Pow2Values();
    } else {
      assert Pow2(slots) >= 2;
      assert |b[p..end]| > 0;
    }
  }

  lemma NothingLeft()
    ensures Flat([]) + Encoded([]) == [] && FromBits(Flags([])) == 0
  {
    assert Flags([]) == [];
  }

  lemma EncodedSplit(ts: seq<Token>, n: nat)
    requires AllOk(ts) && ts != [] && n == (if |ts| <= 8 then |ts| else 8)
    ensures ts == ts[..n] + ts[n..]
    ensures Encoded(ts) == [FromBits(Flags(ts[..n]))] + (Flat(ts[..n]) + Encoded(ts[n..]))
  {
    hide FromBits, Flags, Flat, Encoded;
    EncodedHead(ts);
    if |ts| <= 8 {
      assert ts[..n] == ts && ts[n..] == [];
      AppendNil(Flat(ts));
    } else {
      AppendAssoc([FromBits(Flags(ts[..8]))], Flat(ts[..8]), Encoded(ts[8..]));
    }
  }

  lemma EncodedHead(ts: seq<Token>)
    requires AllOk(ts) && ts != []
    ensures Encoded([]) == []
    ensures |ts| <= 8 ==> Encoded(ts) == [FromBits(Flags(ts))] + Flat(ts)
    ensures |ts| > 8 ==> Encoded(ts) == [FromBits(Flags(ts[..8]))] + Flat(ts[..8]) + Encoded(ts[8..])
  {
  }

  lemma AppendNil(a: seq<int>)
    ensures a + [] == a
  {
  }

  lemma AppendAssoc(a: seq<int>, b: seq<int>, c: seq<int>)
    ensures a + b + c == a + (b + c)
  {
  }

  /** Consuming one token. */
  lemma ReadToken(b: seq<u8>, p: nat, end: nat, flags: nat, cur: seq<Token>, later: seq<Token>, slots: nat)
    requires Reading(b, p, end, flags, cur, later, slots) && cur != []
    ensures cur[0].Ok() && flags % 2 == BitValue(cur[0].Match?)
    ensures var n := |TokenBytes(cur[0])|;
      && p + n <= end && b[p..p + n] == TokenBytes(cur[0])
      && Reading(b, p + n, end, flags / 2, cur[1..], later, slots - 1)
  {
    hide FromBits, Flags, Flat, TokenBytes, Encoded;
    FlagsHead(cur);
    FlatHead(cur);
    HalfFlags(BitValue(cur[0].Match?), FromBits(Flags(cur[1..])), slots);
    SliceSplit(b, p, end, TokenBytes(cur[0]), Flat(cur[1..]), Encoded(later));
  }

  lemma HalfFlags(bit: nat, rest: nat, slots: nat)
    requires slots > 0 && bit < 2
    ensures (bit + 2 * rest + Pow2(slots)) % 2 == bit && (bit + 2 * rest + Pow2(slots)) / 2 == rest + Pow2(slots - 1)
  {
  }

  lemma FlatHead(cur: seq<Token>)
    requires AllOk(cur) && cur != []
    ensures Flat(cur) == TokenBytes(cur[0]) + Flat(cur[1..])
  {
  }

  lemma FlagsHead(cur: seq<Token>)
    requires cur != []
    ensures FromBits(Flags(cur)) == BitValue(cur[0].Match?) + 2 * FromBits(Flags(cur[1..]))
  {
    assert Flags(cur)[1..] == Flags(cur[1..]);
  }

  lemma SliceSplit(b: seq<int>, p: nat, end: nat, x: seq<int>, y: seq<int>, z: seq<int>)
    requires p <= end <= |b| && b[p..end] == x + y + z
    ensures p + |x| <= end && b[p..p + |x|] == x && b[p + |x|..end] == y + z
  {
    var all := b[p..end];
    assert all == x + (y + z);
    assert all[..|x|] == x && all[|x|..] == y + z;
    assert b[p..p + |x|] == all[..|x|];
    assert b[p + |x|..end] == all[|x|..];
  }

  /** The token buffer with the two count tables it feeds. */
  class TokenBuffer {
    const buf: array<u8>
    const litCounts: array<nat>
    const distCounts: array<nat>
    var codePos: nat
    var flagsPos: nat
    var numFlagsLeft: nat
    var totalBytes: nat
    ghost var full: seq<Token>
    ghost var cur: seq<Token>

    ghost predicate Shape()
    {
      && buf.Length == LZ_CODE_BUF_SIZE
      && litCounts.Length == distCounts.Length == H.MAX_HUFF_SYMBOLS && litCounts != distCounts
    }

    ghost predicate Counted(ts: seq<Token>)
      requires Shape()
      reads litCounts, distCounts
    {
      && AllOk(ts)
      && (forall s :: 0 <= s < H.MAX_HUFF_SYMBOLS ==> litCounts[s] == LitCount(ts, s))
      && (forall s :: 0 <= s < H.MAX_HUFF_SYMBOLS ==> distCounts[s] == DistCount(ts, s))
    }

    ghost predicate Valid()
      reads this, buf, litCounts, distCounts
    {
      && Shape() && Layout(buf[..], codePos, flagsPos, numFlagsLeft, full, cur)
      && Counted(full + cur) && totalBytes == TokensLen(full + cur)
    }

    ghost function Tokens(): seq<Token>
      reads this
    {
      full + cur
    }

    constructor (litCounts: array<nat>, distCounts: array<nat>)
      requires litCounts.Length == distCounts.Length == H.MAX_HUFF_SYMBOLS && litCounts != distCounts
      requires forall s :: 0 <= s < H.MAX_HUFF_SYMBOLS ==> litCounts[s] == distCounts[s] == 0
      ensures Valid() && Tokens() == [] && fresh(buf) && codePos == 1
      ensures this.litCounts == litCounts && this.distCounts == distCounts
    {
      this.litCounts, this.distCounts := litCounts, distCounts;
      buf := new u8[LZ_CODE_BUF_SIZE](_ => 0);
      codePos, flagsPos, numFlagsLeft, totalBytes := 1, 0, 8, 0;
      full, cur := [], [];
      new;
      NewGroup(buf[..], 0);
    }

    /** The tail shared by both record functions: shift the flag in, open a new group when eight are full. */
    method PushFlag(ghost t: Token, isMatch: bool, ghost b: seq<u8>, ghost pos: nat)
      requires buf.Length == LZ_CODE_BUF_SIZE && t.Ok() && isMatch == t.Match?
      requires Layout(b, pos, flagsPos, numFlagsLeft, full, cur) && Written(buf[..], b, pos, t)
      requires codePos == pos + |TokenBytes(t)|
      modifies buf, this`codePos, this`flagsPos, this`numFlagsLeft, this`full, this`cur
      ensures Layout(buf[..], codePos, flagsPos, numFlagsLeft, full, cur)
      ensures full + cur == old(full + cur) + [t]
      ensures old(codePos) <= codePos <= old(codePos) + 1
    {
      hide *;
      PushStep(buf[..], b, pos, flagsPos, numFlagsLeft, full, cur, t);
      buf[flagsPos] := buf[flagsPos] / 2 + 128 * BitValue(isMatch);
      numFlagsLeft := numFlagsLeft - 1;
      if numFlagsLeft == 0 {
        numFlagsLeft := 8;
        flagsPos := codePos;
        codePos := codePos + 1;
        full, cur := full + (cur + [t]), [];
      } else {
        cur := cur + [t];
      }
    }

    /** `tdefl_record_literal` */
    method RecordLiteral(lit: u8)
      requires Valid() && codePos <= LZ_CODE_BUF_SIZE - 3
      modifies this, buf, litCounts
      ensures Valid() && Tokens() == old(Tokens()) + [Lit(lit)] && totalBytes == old(totalBytes) + 1
      ensures codePos <= old(codePos) + 2
    {
      ghost var b, t, pos, ts := buf[..], Lit(lit), codePos, full + cur;
      CountsSnoc(ts, t);
      totalBytes := totalBytes + 1;
      buf[codePos] := lit;
      codePos := codePos + 1;
      PushFlag(t, false, b, pos);
      litCounts[lit] := litCounts[lit] + 1;
    }

    method CountMatch(matchLen: nat, d: nat, ghost ts: seq<Token>)
      requires Shape() && Counted(ts) && Match(matchLen, d + 1).Ok()
      modifies litCounts, distCounts
      ensures Counted(ts + [Match(matchLen, d + 1)])
    {
      CountsSnoc(ts, Match(matchLen, d + 1));
      SymsInRange(matchLen, d + 1);
      var s := if d < 512 then SmallDistSym(d) else LargeDistSym(d / 256);
      assert s == DistSym(d);
      hide DistSym, LenSym, SmallDistSym, LargeDistSym, LitCount, DistCount;
      distCounts[s] := distCounts[s] + 1;
      litCounts[LenSym(matchLen - MIN_MATCH_LEN)] := litCounts[LenSym(matchLen - MIN_MATCH_LEN)] + 1;
    }

    /** `tdefl_record_match` */
    method RecordMatch(matchLen: nat, matchDist: nat)
      requires Valid() && codePos <= LZ_CODE_BUF_SIZE - 5 && Match(matchLen, matchDist).Ok()
      modifies this, buf, litCounts, distCounts
      ensures Valid() && Tokens() == old(Tokens()) + [Match(matchLen, matchDist)] && totalBytes == old(totalBytes) + matchLen
      ensures codePos <= old(codePos) + 4
    {
      ghost var b, t, pos, ts := buf[..], Match(matchLen, matchDist), codePos, full + cur;
      CountsSnoc(ts, t);
      var d := matchDist - 1;
      hide Layout, Counted, TokensLen;
      totalBytes := totalBytes + matchLen;
      buf[codePos] := matchLen - MIN_MATCH_LEN;
      buf[codePos + 1] := d % 256;
      buf[codePos + 2] := d / 256;
      codePos := codePos + 3;
      PushFlag(t, true, b, pos);
      CountMatch(matchLen, d, ts);
    }

    /** The two statements of `tdefl_flush_block` that close the buffer for reading. */
    method Close() returns (end: nat)
      requires Valid()
      modifies buf
      ensures end <= buf.Length && AllOk(Tokens()) && buf[..end] == Encoded(Tokens())
    {
      CloseGroup(buf[..], codePos, flagsPos, numFlagsLeft, full, cur, buf[..][flagsPos := buf[flagsPos] / Pow2(numFlagsLeft)]);
      DivNonNegative(buf[flagsPos], Pow2(numFlagsLeft));
      buf[flagsPos] := buf[flagsPos] / Pow2(numFlagsLeft);
      end := if numFlagsLeft == 8 then codePos - 1 else codePos;
    }

    /** The buffer and both count tables emptied after a block. */
    method Reset()
      requires Shape()
      modifies this, litCounts, distCounts
      ensures Valid() && Tokens() == [] && codePos == 1 && totalBytes == 0
    {
      for i := 0 to H.MAX_HUFF_SYMBOLS
        invariant forall k :: 0 <= k < i ==> litCounts[k] == distCounts[k] == 0
      {
        litCounts[i] := 0;
        distCounts[i] := 0;
      }
      codePos, flagsPos, numFlagsLeft, totalBytes := 1, 0, 8, 0;
      full, cur := [], [];
      NewGroup(buf[..], 0);
    }
  }

  lemma SymsInRange(len: nat, dist: nat)
    requires Match(len, dist).Ok()
    ensures 257 <= LenSym(len - MIN_MATCH_LEN) <= 285 && DistSym(dist - 1) < 30
  {
    LengthRoundTrip(len);
    DistRoundTrip(dist);
  }
}
