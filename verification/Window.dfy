/**
 The compressor's sliding dictionary and its match finder (miniz.c, `tdefl_find_match` and the first
 half of the loop in `tdefl_compress_normal`). That a match found is a match
 does not depend on the hash chains; that it is the longest does.
 */
module Windows {
  import opened Bits
  import opened LzTokens
  import opened HashChains

  const MIRROR := MAX_MATCH_LEN - 1

  /** The dictionary holds `input[from..]`, each byte at its position modulo the dictionary size. */
  ghost predicate Covers(d: seq<u8>, input: seq<u8>, from: nat)
  {
    |d| >= DICT_SIZE && forall p :: from <= p < |input| ==> d[p % DICT_SIZE] == input[p]
  }

  /** The start of the dictionary is repeated behind its end, so a match can be compared without wrapping. */
  ghost predicate Mirrored(d: seq<u8>)
  {
    |d| == DICT_SIZE + MIRROR && forall i :: 0 <= i < MIRROR ==> d[DICT_SIZE + i] == d[i]
  }

  function Min(a: nat, b: nat): nat { if a <= b then a else b }

  lemma MinIs(a: nat, b: nat)
    ensures Min(a, b) <= a && Min(a, b) <= b && (Min(a, b) == a || Min(a, b) == b)
  {
  }

  lemma PushByte(d: seq<u8>, input: seq<u8>, from: nat, c: u8, to: nat)
    requires Covers(d, input, from) && Mirrored(d) && from <= to <= |input| + 1 && |input| + 1 - to <= DICT_SIZE
    ensures var dst := |input| % DICT_SIZE;
      var e := d[dst := c];
      var f := if dst < MIRROR then e[DICT_SIZE + dst := c] else e;
      Covers(f, input + [c], to) && Mirrored(f)
  {
    var dst := |input| % DICT_SIZE;
    var e := d[dst := c];
    var f := if dst < MIRROR then e[DICT_SIZE + dst := c] else e;
    forall p | to <= p < |input| + 1
      ensures f[p % DICT_SIZE] == (input + [c])[p]
    {
      if p < |input| {
        assert p % DICT_SIZE != dst;
        assert d[p % DICT_SIZE] == input[p];
      }
    }
  }

  /** Reading `k` bytes past position `q`, through the mirror if need be. */
  lemma ReadAhead(d: seq<u8>, input: seq<u8>, from: nat, q: nat, k: nat)
    requires Covers(d, input, from) && Mirrored(d) && from <= q && q + k < |input| && k <= MIRROR
    ensures q % DICT_SIZE + k < |d| && d[q % DICT_SIZE + k] == input[q + k]
  {
    var i := q % DICT_SIZE + k;
    if i < DICT_SIZE {
      assert (q + k) % DICT_SIZE == i;
    } else {
      assert (q + k) % DICT_SIZE == i - DICT_SIZE;
    }
    assert d[(q + k) % DICT_SIZE] == input[q + k];
  }

  /** A chain entry stands for the position `dist` back, as seen modulo the dictionary size. */
  lemma ChainEntry(pos: nat, entry: u16, dist: nat)
    requires dist == (pos - entry) % 0x1_0000 && dist <= pos
    ensures entry % DICT_SIZE == (pos - dist) % DICT_SIZE
  {
    var q := (pos - entry) / 0x1_0000;
    assert pos - dist == entry + 2 * q * DICT_SIZE;
    SameRemainder(entry, pos - dist, 2 * q);
  }

  datatype Probe = Stop | Miss | Hit

  class Window {
    const dict: array<u8>
    const next: array<u16>
    const hash: array<u16>
    var lookaheadPos: nat
    var lookaheadSize: nat
    var dictSize: nat
    ghost var input: seq<u8>
    ghost var base: nat  // the first position since the last full flush
    ghost var tail: seq<u16>  // what the hash table held then

    ghost predicate Shape()
    {
      dict.Length == DICT_SIZE + MIRROR && next.Length == DICT_SIZE && hash.Length == DICT_SIZE && next != hash
    }

    /** The first input position still in the dictionary. */
    ghost function From(): (f: int)
      reads this
    {
      var oldest := lookaheadPos - dictSize;
      if |input| - DICT_SIZE > oldest then |input| - DICT_SIZE else oldest
    }

    ghost predicate Holds()
      reads this, dict
    {
      && Shape() && |input| == lookaheadPos + lookaheadSize
      && dictSize <= lookaheadPos && dictSize <= DICT_SIZE && lookaheadSize <= MAX_MATCH_LEN
      && Covers(dict[..], input, From()) && Mirrored(dict[..])
    }

    /** How far positions have been entered in the chains. */
    ghost function Entered(): nat
      reads this`input, this`base
    {
      if |input| >= base + 2 then |input| - 2 else base
    }

    /** The positions from `base` up to `end` are in the chains. */
    ghost predicate Chained(end: nat)
      reads this`input, this`base, this`tail, next, hash
    {
      Shape() && Chains(hash[..], next[..], tail, input, base, end)
    }

    /** Since the last full flush no byte has left the dictionary, or the dictionary is full. */
    ghost predicate Kept()
      reads this`lookaheadPos, this`lookaheadSize, this`dictSize, this`base
    {
      && base <= lookaheadPos && dictSize <= lookaheadPos - base
      && (dictSize < lookaheadPos - base ==> dictSize + lookaheadSize == DICT_SIZE)
    }

    ghost predicate Valid()
      reads this, dict, next, hash
    {
      Holds() && dictSize + lookaheadSize <= DICT_SIZE && Kept() && Chained(Entered())
    }

    /** The hash table is cleared unless the caller asked for it to stay as it was. */
    constructor (clear: bool)
      ensures clear ==> tail == Zeros()
      ensures Valid() && fresh(dict) && fresh(next) && fresh(hash)
      ensures input == [] && lookaheadPos == 0 && dictSize == 0
    {
      dict := new u8[DICT_SIZE + MIRROR](_ => 0);
      next := new u16[DICT_SIZE];
      hash := new u16[DICT_SIZE];
      lookaheadPos, lookaheadSize, dictSize, input, base := 0, 0, 0, [], 0;
      new;
      if clear {
        ClearHash();
      }
      tail := hash[..];
      NoChains(hash[..], next[..], input, base);
    }

    /** Stores one byte at the end of the lookahead. */
    method Store(c: u8, dstPos: nat)
      requires Holds() && lookaheadSize < MAX_MATCH_LEN && dstPos == |input| % DICT_SIZE
      modifies this`lookaheadSize, this`input, dict
      ensures Holds() && input == old(input) + [c] && lookaheadSize == old(lookaheadSize) + 1
    {
      ghost var d, s, f := dict[..], input, From();
      dict[dstPos] := c;
      if dstPos < MIRROR {
        dict[DICT_SIZE + dstPos] := c;
      }
      lookaheadSize := lookaheadSize + 1;
      input := input + [c];
      hide Covers, Mirrored;
      PushByte(d, s, f, c, From());
      assert dict[..] == var e := d[dstPos := c]; if dstPos < MIRROR then e[DICT_SIZE + dstPos := c] else e;
    }

    /** Puts position `insPos` at the head of its hash chain. */
    method Insert(h: nat, insPos: nat)
      requires Chained(insPos) && insPos + 2 < |input| && h == Key(input, insPos)
      modifies next, hash
      ensures Chained(insPos + 1)
    {
      ghost var hs, ns := hash[..], next[..];
      next[insPos % DICT_SIZE] := hash[h];
      hash[h] := insPos % 0x1_0000;
      hide *;
      Slots();
      ChainsInsert(hs, ns, tail, input, base, insPos);
      ghost var first: u16 := hs[h];
      assert hash[..] == hs[h := insPos % 0x1_0000] && next[..] == ns[insPos % DICT_SIZE := first];
      BeChained(insPos + 1);
    }

    lemma Slots()
      requires Shape()
      ensures next.Length == hash.Length == DICT_SIZE && next != hash
    {
    }

    lemma BeChained(end: nat)
      requires Shape() && Chains(hash[..], next[..], tail, input, base, end)
      ensures Chained(end)
    {
    }

    /** One more byte, and the three that it completes entered in the chains. */
    method FillOne(src: seq<u8>, ghost i: nat, j: nat, dstPos: nat, insPos: nat, h0: nat, ghost in0: seq<u8>) returns (h: nat)
      requires Holds() && lookaheadSize < MAX_MATCH_LEN && dstPos == |input| % DICT_SIZE
      requires i <= j < |src| && input == in0 + src[i..j]
      requires Chained(insPos) && insPos + 2 == |input| && Rolls(h0, input)
      modifies this`lookaheadSize, this`input, dict, next, hash
      ensures Holds() && input == in0 + src[i..j + 1] && lookaheadSize == old(lookaheadSize) + 1
      ensures |input| == lookaheadPos + lookaheadSize
      ensures Chained(insPos + 1) && insPos + 3 == |input| && Rolls(h, input)
    {
      hide *;
      ghost var before := input;
      StoreAt(src, i, j, dstPos, in0, insPos);
      h := StepHash(h0, src[j]);
      RollsOn(h0, before, src[j]);
      Insert(h, insPos);
    }

    /** The usual case: the hash of the last two bytes is known, each new byte completes a triple. */
    method FillFast(src: seq<u8>, i: nat) returns (j: nat)
      requires Valid() && i <= |src| && lookaheadSize + dictSize >= MIN_MATCH_LEN - 1
      modifies this`lookaheadSize, this`input, dict, next, hash
      ensures Holds() && j == i + Min(|src| - i, MAX_MATCH_LEN - old(lookaheadSize))
      ensures input == old(input) + src[i..j] && lookaheadSize == old(lookaheadSize) + (j - i)
      ensures Chained(Entered())
    {
      hide *;
      ValidParts();
      TwoBytes();
      Bounds();
      ghost var n0, in0 := lookaheadSize, input;
      var dstPos := (lookaheadPos + lookaheadSize) % DICT_SIZE;
      var insPos := lookaheadPos + lookaheadSize - 2;
      var h: nat := HashTwo(insPos);
      RollsStart(input, h);
      var end := i + Min(|src| - i, MAX_MATCH_LEN - lookaheadSize);
      MinIs(|src| - i, MAX_MATCH_LEN - lookaheadSize);
      j := FillUpTo(src, i, end, dstPos, insPos, h);
    }

    /** Where the fast path is taken two bytes are there, and all but the last two positions are entered. */
    lemma TwoBytes()
      requires Valid() && lookaheadSize + dictSize >= MIN_MATCH_LEN - 1
      ensures |input| >= 2 && Chained(|input| - 2) && From() <= |input| - 2 && base <= |input| - 2
    {
    }

    lemma NextSlot(n: nat, at: nat)
      ensures DICT_SIZE > 0 && (at == n % DICT_SIZE ==> (at + 1) % DICT_SIZE == (n + 1) % DICT_SIZE)
    {
    }

    /** The loop of the fast path. */
    method FillUpTo(src: seq<u8>, i: nat, end: nat, dstPos0: nat, insPos0: nat, h0: nat) returns (j: nat)
      requires Holds() && i <= end <= |src| && end - i <= MAX_MATCH_LEN - lookaheadSize
      requires insPos0 == lookaheadPos + lookaheadSize - 2 && Rolls(h0, input) && Chained(insPos0) && base <= insPos0
      requires |input| == lookaheadPos + lookaheadSize && dstPos0 == |input| % DICT_SIZE
      modifies this`lookaheadSize, this`input, dict, next, hash
      ensures Holds() && j == end && input == old(input) + src[i..j] && lookaheadSize == old(lookaheadSize) + (j - i)
      ensures Chained(Entered())
    {
      hide *;
      ghost var n0, in0 := lookaheadSize, input;
      var dstPos, insPos, h := dstPos0, insPos0, h0;
      Bounds();
      j := i;
      assert src[i..i] == [] && input + [] == input;
      while j != end
        invariant i <= j <= end && Holds() && insPos == lookaheadPos + lookaheadSize - 2 && base <= insPos
        invariant lookaheadSize == n0 + (j - i) && input == in0 + src[i..j]
        invariant |input| == lookaheadPos + lookaheadSize && dstPos == |input| % DICT_SIZE
        invariant Chained(insPos) && Rolls(h, input)
        decreases end - j
      {
        h := FillOne(src, i, j, dstPos, insPos, h, in0);
        NextSlot(|input| - 1, dstPos);
        j := j + 1;
        dstPos := (dstPos + 1) % DICT_SIZE;
        insPos := insPos + 1;
      }
      EnteredIs();
    }

    lemma EnteredIs()
      ensures Entered() == if |input| >= base + 2 then |input| - 2 else base
    {
    }

    lemma ValidHolds()
      requires Valid()
      ensures Holds()
    {
    }

    lemma ValidParts()
      requires Valid()
      ensures Holds() && Kept() && Chained(Entered())
    {
    }

    method HashTwo(p: nat) returns (h: nat)
      requires Holds() && From() <= p && p + 2 == |input|
      ensures h == Mix(input[p], input[p + 1], 15)
    {
      hide Mix, Covers, Mirrored;
      CoveredAt(dict[..], input, From(), p);
      CoveredAt(dict[..], input, From(), p + 1);
      h := Mix(dict[p % DICT_SIZE], dict[(p + 1) % DICT_SIZE], 15);
    }

    method StepHash(h0: nat, c: u8) returns (h: nat)
      ensures h == Mix(h0, c, 15)
    {
      h := Mix(h0, c, 15);
    }

    method StoreAt(src: seq<u8>, ghost i: nat, j: nat, dstPos: nat, ghost in0: seq<u8>, ghost end: nat)
      requires Holds() && lookaheadSize < MAX_MATCH_LEN && dstPos == |input| % DICT_SIZE
      requires i <= j < |src| && input == in0 + src[i..j] && Chained(end)
      modifies this`lookaheadSize, this`input, dict
      ensures Holds() && Shape() && input == in0 + src[i..j + 1] && lookaheadSize == old(lookaheadSize) + 1
      ensures |input| == lookaheadPos + lookaheadSize && input == old(input) + [src[j]] && Chained(end)
    {
      hide Covers, Mirrored, Chains;
      ghost var before := input;
      Store(src[j], dstPos);
      assert src[i..j + 1] == src[i..j] + [src[j]];
      ChainsMore(hash[..], next[..], tail, before, src[j], base, end);
    }

    lemma Bounds()
      requires Holds()
      ensures Shape() && |input| == lookaheadPos + lookaheadSize && dictSize <= lookaheadPos
      ensures dictSize <= DICT_SIZE && lookaheadSize <= MAX_MATCH_LEN && Pow2(15) == DICT_SIZE > 0 && MIN_MATCH_LEN == 3
      ensures MAX_MATCH_LEN == MIRROR + 1
    {
      Pow2Values();
    }

    /** The last three bytes enter the hash chains. */
    method InsertLast(c: u8)
      requires Holds() && input != [] && c == input[|input| - 1] && |input| == lookaheadPos + lookaheadSize >= 3 && From() <= |input| - 3 && Chained(|input| - 3)
      modifies next, hash
      ensures Holds() && Chained(|input| - 2)
    {
      hide *;
      Bounds();
      var insPos := lookaheadPos + (lookaheadSize - 1) - 2;
      var h := HashThree(insPos, c);
      Insert(h, insPos);
    }

    method HashThree(p: nat, c: u8) returns (h: nat)
      requires Holds() && From() <= p && p + 3 == |input| && c == input[p + 2]
      ensures h == Key(input, p)
    {
      hide Mix, Covers, Mirrored;
      CoveredAt(dict[..], input, From(), p);
      CoveredAt(dict[..], input, From(), p + 1);
      h := Mix(Mix(dict[p % DICT_SIZE], dict[(p + 1) % DICT_SIZE], 15), c, 15);
    }

    method SlowTurn(src: seq<u8>, ghost i: nat, j: nat, ghost in0: seq<u8>)
      requires Holds() && lookaheadSize < MAX_MATCH_LEN && i <= j < |src| && input == in0 + src[i..j]
      requires |input| == lookaheadPos + lookaheadSize && dictSize <= lookaheadPos && Kept() && Chained(Entered()) && dictSize < 2
      modifies this`lookaheadSize, this`input, dict, next, hash
      ensures Holds() && input == in0 + src[i..j + 1] && lookaheadSize == old(lookaheadSize) + 1 && |input| == lookaheadPos + lookaheadSize
      ensures Kept() && Chained(Entered())
    {
      hide *;
      Bounds();
      AllKept();
      EnteredIs();
      StoreAt(src, i, j, (lookaheadPos + lookaheadSize) % DICT_SIZE, in0, Entered());
      BeKept();
      EnteredIs();
      if lookaheadSize + dictSize >= MIN_MATCH_LEN {
        NotForgotten();
        InsertLast(src[j]);
      }
    }

    /** While the dictionary is nearly empty nothing has left it. */
    lemma AllKept()
      requires Holds() && Kept() && dictSize < 2
      ensures dictSize == lookaheadPos - base && base <= lookaheadPos
    {
    }

    lemma BeKept()
      requires base <= lookaheadPos && dictSize == lookaheadPos - base
      ensures Kept()
    {
    }

    lemma NotForgotten()
      requires Holds() && lookaheadSize + dictSize >= 3
      ensures From() <= |input| - 3
    {
    }

    /** The first bytes after a start or a full flush. */
    method FillSlow(src: seq<u8>, i: nat) returns (j: nat)
      requires Valid() && i <= |src| && lookaheadSize + dictSize < MIN_MATCH_LEN - 1
      modifies this`lookaheadSize, this`input, dict, next, hash
      ensures Holds() && j == i + Min(|src| - i, MAX_MATCH_LEN - old(lookaheadSize))
      ensures input == old(input) + src[i..j] && lookaheadSize == old(lookaheadSize) + (j - i)
      ensures Kept() && Chained(Entered())
    {
      hide *;
      ValidParts();
      Bounds();
      ghost var n0, in0 := lookaheadSize, input;
      MinIs(|src| - i, MAX_MATCH_LEN - lookaheadSize);
      j := i;
      assert src[i..i] == [] && input + [] == input;
      while j < |src| && lookaheadSize < MAX_MATCH_LEN
        invariant i <= j <= |src| && Holds() && lookaheadSize == n0 + (j - i) <= MAX_MATCH_LEN && input == in0 + src[i..j]
        invariant |input| == lookaheadPos + lookaheadSize && dictSize <= lookaheadPos
        invariant Kept() && Chained(Entered())
      {
        SlowTurn(src, i, j, in0);
        j := j + 1;
      }
    }

    /** Takes input until the lookahead is full or the source is used up. */
    method Fill(src: seq<u8>, i: nat) returns (j: nat)
      requires Valid() && i <= |src|
      modifies this, dict, next, hash
      ensures Valid() && j == i + Min(|src| - i, MAX_MATCH_LEN - old(lookaheadSize))
      ensures input == old(input) + src[i..j] && lookaheadPos == old(lookaheadPos)
      ensures lookaheadSize == old(lookaheadSize) + (j - i) && dictSize <= old(dictSize)
      ensures dictSize == Min(DICT_SIZE - lookaheadSize, old(dictSize))
    {
      if lookaheadSize + dictSize >= MIN_MATCH_LEN - 1 {
        j := FillFast(src, i);
      } else {
        j := FillSlow(src, i);
      }
      ghost var d, s, f := dict[..], input, From();
      dictSize := Min(DICT_SIZE - lookaheadSize, dictSize);
      CoversLess(d, s, f, From());
    }

    /** The bytes at the end of the match at hand, here or `dist` back. */
    lemma BytesBack(dist: nat, at: nat, matchLen: nat)
      requires Valid() && 1 <= matchLen < lookaheadSize && dist <= dictSize && at == (lookaheadPos - dist) % DICT_SIZE
      ensures matchLen <= MIRROR && lookaheadPos + matchLen < |input| && dictSize <= lookaheadPos && at + matchLen < dict.Length
      ensures dict[at + matchLen] == input[lookaheadPos + matchLen - dist] && dict[at + matchLen - 1] == input[lookaheadPos + matchLen - 1 - dist]
    {
      ghost var d := dict[..];
      hide Covers, Mirrored;
      ReadAhead(d, input, From(), lookaheadPos - dist, matchLen);
      ReadAhead(d, input, From(), lookaheadPos - dist, matchLen - 1);
      assert d[at + matchLen] == dict[at + matchLen] && d[at + matchLen - 1] == dict[at + matchLen - 1];
    }

    /** There is no candidate number `k`. */
    ghost predicate Ends(k: nat)
      requires Shape()
      reads this, next
    {
      ChainEnds(next[..], lookaheadPos, dictSize, k)
    }

    ghost predicate Seen(i: nat, k: nat, n: int)
      requires Shape()
      reads this, next
    {
      Searched(next[..], input, lookaheadPos, lookaheadSize, dictSize, i, k, n)
    }

    /** Candidate number `k` and those before are reached through the entry at `slot`. */
    ghost predicate Slot(k: nat, slot: nat)
      requires Shape()
      reads this, next
    {
      slot == ChainSlot(next[..], lookaheadPos, k)
    }

    /** The chain entry number `k`, as the code computes it. */
    lemma EntryIs(slot: nat, k: nat)
      requires Valid() && Shape() && Slot(k, slot)
      ensures slot < DICT_SIZE == next.Length && dictSize <= lookaheadPos
      ensures var dist := (lookaheadPos - next[slot]) % 0x1_0000;
        && (Ends(k) <==> next[slot] == 0 || dist > dictSize || dist == 0)
        && (dist <= dictSize ==> At(k, dist, next[slot] % DICT_SIZE) && Slot(k + 1, next[slot] % DICT_SIZE))
        && (dist <= dictSize ==> next[slot] % DICT_SIZE == (lookaheadPos - dist) % DICT_SIZE)
    {
      hide Covers, Mirrored;
      ghost var dist := ChainDist(next[..], lookaheadPos, k);
      if dist <= dictSize {
        ChainEntry(lookaheadPos, next[slot], dist);
      }
    }

    /** Candidate number `k`: its distance and its place in the dictionary. */
    ghost predicate At(k: nat, dist: nat, slot: nat)
      requires Shape()
      reads this, next
    {
      && dist == ChainDist(next[..], lookaheadPos, k) && dist <= dictSize && dictSize <= lookaheadPos
      && slot == ChainSlot(next[..], lookaheadPos, k + 1) == (lookaheadPos - dist) % DICT_SIZE
    }

    lemma AtIs(k: nat, dist: nat, slot: nat)
      requires Shape() && At(k, dist, slot)
      ensures dist == ChainDist(next[..], lookaheadPos, k) && dist <= dictSize <= lookaheadPos
      ensures slot == ChainSlot(next[..], lookaheadPos, k + 1) == (lookaheadPos - dist) % DICT_SIZE
    {
    }

    lemma Entries()
      requires Shape()
      ensures |next[..]| == next.Length == DICT_SIZE
    {
    }

    lemma MissIs(k: nat, dist: nat, slot: nat, matchLen: nat)
      requires Valid() && Shape() && At(k, dist, slot) && !Ends(k) && 1 <= matchLen && lookaheadPos + matchLen < |input|
      requires 1 <= dist && !Agrees(input, lookaheadPos, dist, matchLen)
      ensures Seen(k, k + 1, matchLen)
    {
      hide Agrees, Holds, MatchAt, NoLonger, ChainSlot;
      CannotGrow(input, lookaheadPos, lookaheadSize, dist, matchLen);
      TriedIs(next[..], input, lookaheadPos, lookaheadSize, dictSize, k, matchLen);
    }

    /** `TDEFL_PROBE`: the next chain entry, unless the chain ends or leaves the window. */
    method ProbeOnce(probePos0: nat, maxDist: nat, matchLen: nat, c0: u8, c1: u8, ghost k: nat) returns (p: Probe, probePos: nat, dist: nat)
      requires Valid() && Shape() && maxDist == dictSize && 1 <= matchLen < lookaheadSize && Slot(k, probePos0)
      requires lookaheadPos + matchLen < |input| && c0 == input[lookaheadPos + matchLen] && c1 == input[lookaheadPos + matchLen - 1]
      ensures p.Stop? ==> Ends(k)
      ensures !p.Stop? ==> At(k, dist, probePos) && Slot(k + 1, probePos)
      ensures p.Miss? ==> Seen(k, k + 1, matchLen)
      ensures p.Hit? ==> Agrees(input, lookaheadPos, dist, matchLen) && (Ends(k) <==> dist == 0)
    {
      EntryIs(probePos0, k);
      hide *;
      var nextProbePos := next[probePos0];
      probePos := probePos0;
      dist := (lookaheadPos - nextProbePos) % 0x1_0000;
      if nextProbePos == 0 || dist > maxDist {
        return Stop, probePos, dist;
      }
      probePos := nextProbePos % DICT_SIZE;
      BytesBack(dist, probePos, matchLen);
      AgreesIs(input, lookaheadPos, dist, matchLen);
      if dict[probePos + matchLen] == c0 && dict[probePos + matchLen - 1] == c1 {
        p := Hit;
      } else {
        p := Miss;
        MissIs(k, dist, probePos, matchLen);
      }
    }

    lemma SlotStart()
      requires Shape()
      ensures Slot(0, lookaheadPos % DICT_SIZE)
    {
    }

    lemma SeenNone(k: nat, n: int)
      requires Shape()
      ensures Seen(k, k, n)
    {
    }

    /** One candidate, which cannot give a longer match, passed over. */
    lemma Pass(k0: nat, k: nat, matchLen: nat)
      requires Shape() && Seen(k0, k, matchLen) && Seen(k, k + 1, matchLen) && k0 <= k
      ensures Seen(k0, k + 1, matchLen)
    {
      SearchedOn(next[..], input, lookaheadPos, lookaheadSize, dictSize, k0, k, k + 1, matchLen);
    }

    /** Walks the chain, three entries per decrement of the budget, to the next one worth comparing. */
    method NextCandidate(probePos0: nat, probes0: nat, maxDist: nat, matchLen: nat, c0: u8, c1: u8, ghost k0: nat)
      returns (found: bool, probePos: nat, dist: nat, probes: nat, ghost k: nat)
      requires Valid() && Shape() && maxDist == dictSize && 1 <= matchLen < lookaheadSize && probes0 >= 1 && Slot(k0, probePos0)
      requires lookaheadPos + matchLen < |input| && c0 == input[lookaheadPos + matchLen] && c1 == input[lookaheadPos + matchLen - 1]
      ensures k0 <= k && Seen(k0, k, matchLen)
      ensures found ==> 1 <= probes < probes0 && 3 * (probes0 - probes) - 2 <= k + 1 - k0 <= 3 * (probes0 - probes)
      ensures found ==> At(k, dist, probePos) && Slot(k + 1, probePos) && Agrees(input, lookaheadPos, dist, matchLen) && (Ends(k) <==> dist == 0)
      ensures !found ==> k - k0 <= 3 * (probes0 - 1) && (k - k0 == 3 * (probes0 - 1) || Ends(k))
    {
      hide *;
      found, probePos, dist, probes, k := false, probePos0, 0, probes0, k0;
      SeenNone(k0, matchLen);
      while true
        invariant 1 <= probes <= probes0 && k - k0 == 3 * (probes0 - probes)
        invariant Slot(k, probePos) && Seen(k0, k, matchLen)
        decreases probes
      {
        probes := probes - 1;
        if probes == 0 {
          return;
        }
        var p;
        p, probePos, dist := ProbeOnce(probePos, maxDist, matchLen, c0, c1, k);
        if p.Miss? {
          Pass(k0, k, matchLen);
          k := k + 1;
          p, probePos, dist := ProbeOnce(probePos, maxDist, matchLen, c0, c1, k);
        }
        if p.Miss? {
          Pass(k0, k, matchLen);
          k := k + 1;
          p, probePos, dist := ProbeOnce(probePos, maxDist, matchLen, c0, c1, k);
        }
        if !p.Miss? {
          found := p.Hit?;
          return;
        }
        Pass(k0, k, matchLen);
        k := k + 1;
      }
    }

    /** One byte of the comparison. */
    method SameByte(pos: nat, probePos: nat, ghost dist: nat, n: nat) returns (same: bool)
      requires Valid() && pos == lookaheadPos % DICT_SIZE && n < lookaheadSize
      requires 1 <= dist <= dictSize && probePos == (lookaheadPos - dist) % DICT_SIZE
      ensures lookaheadPos + n < |input| && dist <= lookaheadPos
      ensures same <==> input[lookaheadPos + n] == input[lookaheadPos + n - dist]
    {
      ghost var d := dict[..];
      ReadAhead(d, input, From(), lookaheadPos, n);
      ReadAhead(d, input, From(), lookaheadPos - dist, n);
      assert d[pos + n] == dict[pos + n] && d[probePos + n] == dict[probePos + n];
      same := dict[pos + n] == dict[probePos + n];
    }

    /** The byte-by-byte comparison: how long the candidate really matches. */
    method MatchLength(pos: nat, probePos: nat, ghost dist: nat, maxLen: nat) returns (n: nat)
      requires Valid() && pos == lookaheadPos % DICT_SIZE && maxLen == lookaheadSize
      requires 1 <= dist <= dictSize && probePos == (lookaheadPos - dist) % DICT_SIZE
      ensures n <= maxLen && MatchAt(input, lookaheadPos, n, dist)
      ensures n < maxLen ==> input[lookaheadPos + n] != input[lookaheadPos + n - dist]
    {
      hide Valid, Holds, Shape;
      ValidHolds();
      Bounds();
      n := 0;
      while n < maxLen
        invariant n <= maxLen
        invariant forall i :: lookaheadPos <= i < lookaheadPos + n ==> input[i] == input[i - dist]
      {
        var same := SameByte(pos, probePos, dist, n);
        if !same {
          return;
        }
        n := n + 1;
      }
    }

    /**
     Of the first `probed` candidates none matches in more than `len` bytes. If that is more than what
     was at hand before, `dist` is the distance of the first of them to match in so many; and those in
     `hits` agreed at a length at hand.
     */
    ghost predicate Found(dist0: nat, len0: nat, dist: nat, len: nat, probed: nat, best: nat, hits: set<nat>)
      requires Shape()
      reads this, next
    {
      && len >= len0 && (len == len0 ==> dist == dist0)
      && (len > len0 ==> len <= lookaheadSize && 1 <= dist <= dictSize && MatchAt(input, lookaheadPos, len, dist))
      && (len > len0 ==> best < probed && FirstBest(next[..], input, lookaheadPos, lookaheadSize, dictSize, best, dist, len))
      && Searched(next[..], input, lookaheadPos, lookaheadSize, dictSize, 0, probed, len)
      && Worth(next[..], input, lookaheadPos, len0, len, probed, hits)
    }

    /** Why the search ended: nothing to gain, the chain at its end, or `budget` used up, and no earlier. */
    ghost predicate Exhausted(budget: nat, len0: nat, len: nat, probed: nat, hits: set<nat>)
      requires Shape()
      reads this, next
    {
      && probed <= 3 * (budget - 1)
      && (lookaheadSize <= len0 || len == lookaheadSize || Ends(probed) || probed + 2 * |hits| >= 3 * (budget - 1))
    }

    lemma BeExhausted(budget: nat, len0: nat, len: nat, probed: nat, hits: set<nat>)
      requires Shape() && probed <= 3 * (budget - 1)
      requires lookaheadSize <= len0 || len == lookaheadSize || Ends(probed) || probed + 2 * |hits| >= 3 * (budget - 1)
      ensures Exhausted(budget, len0, len, probed, hits)
    {
      hide Ends;
    }

    lemma FoundNone(dist: nat, len: nat)
      requires Shape()
      ensures Found(dist, len, dist, len, 0, 0, {})
    {
    }

    lemma FoundOn(dist0: nat, len0: nat, dist: nat, len: nat, probed: nat, best: nat, hits: set<nat>, k: nat)
      requires Shape() && Found(dist0, len0, dist, len, probed, best, hits) && probed <= k && Seen(probed, k, len)
      ensures Found(dist0, len0, dist, len, k, best, hits)
    {
      hide Searched, MatchAt, FirstBest, Worth, ChainDist;
      SearchedOn(next[..], input, lookaheadPos, lookaheadSize, dictSize, 0, probed, k, len);
      WorthOn(next[..], input, lookaheadPos, len0, len, probed, hits, k);
    }

    /** A candidate compared to its end: what is found with it. */
    lemma Compared(dist0: nat, len0: nat, dist: nat, len: nat, k: nat, best: nat, hits: set<nat>, d: nat, n: nat, slot: nat)
      requires Valid() && Shape() && Found(dist0, len0, dist, len, k, best, hits)
      requires At(k, d, slot) && d > 0 && !Ends(k) && Agrees(input, lookaheadPos, d, len)
      requires n <= lookaheadSize && MatchAt(input, lookaheadPos, n, d)
      requires n < lookaheadSize ==> input[lookaheadPos + n] != input[lookaheadPos + n - d]
      ensures if n > len then Found(dist0, len0, d, n, k + 1, k, hits + {k}) else Found(dist0, len0, dist, len, k + 1, best, hits + {k})
      ensures |hits + {k}| == |hits| + 1
    {
      hide Searched, MatchAt, Worth, ChainDist, Agrees, Holds, NoLonger, ChainEnds, ChainSlot, Tried;
      var at, after, nx := lookaheadPos, if n > len then n else len, next[..];
      ValidHolds();
      Bounds();
      RunEnds(input, at, lookaheadSize, d, n);
      Longer(input, at, lookaheadSize, d, n, after);
      TriedIs(nx, input, at, lookaheadSize, dictSize, k, after);
      SearchedLonger(nx, input, at, lookaheadSize, dictSize, 0, k, len, after);
      SearchedMore(nx, input, at, lookaheadSize, dictSize, 0, k, after);
      WorthMore(nx, input, at, len0, len, k, hits, k, after);
      if n > len {
        SearchedLonger(nx, input, at, lookaheadSize, dictSize, 0, k, len, n - 1);
      }
    }

    /** The two bytes that a longer match must repeat. */
    method BytesAt(pos: nat, matchLen: nat) returns (c0: u8, c1: u8)
      requires Valid() && pos == lookaheadPos % DICT_SIZE && 1 <= matchLen <= MIRROR
      ensures matchLen < lookaheadSize ==> lookaheadPos + matchLen < |input| && c0 == input[lookaheadPos + matchLen] && c1 == input[lookaheadPos + matchLen - 1]
    {
      if matchLen < lookaheadSize {
        BytesBack(0, pos, matchLen);
      }
      c0, c1 := dict[pos + matchLen], dict[pos + matchLen - 1];
    }

    /**
     The match found is the longest, and of the longest the first, among the candidates of the chain that
     were looked at: `probed` of them, up to the end of the chain, a match of the whole lookahead, or the
     end of the budget. A candidate worth comparing (one of `hits`) uses up what is left of its three.
     */
    method FindMatch(maxProbes: nat, matchDist0: nat, matchLen0: nat)
      returns (matchDist: nat, matchLen: nat, ghost probed: nat, ghost best: nat, ghost hits: set<nat>)
      requires Valid() && Shape() && maxProbes >= 1 && 1 <= matchLen0 <= MIRROR
      ensures Found(matchDist0, matchLen0, matchDist, matchLen, probed, best, hits) && probed <= 3 * (maxProbes - 1)
      ensures lookaheadSize <= matchLen0 || matchLen == lookaheadSize || Ends(probed) || probed + 2 * |hits| >= 3 * (maxProbes - 1)
    {
      hide *;
      ValidHolds();
      Bounds();
      matchDist, matchLen := matchDist0, matchLen0;
      probed, best, hits := 0, 0, {};
      FoundNone(matchDist, matchLen);
      var pos := lookaheadPos % DICT_SIZE;
      var c0, c1 := BytesAt(pos, matchLen);
      if lookaheadSize <= matchLen {
        return;
      }
      SlotStart();
      var probePos: nat, probes: nat := pos, maxProbes;
      while true
        invariant 1 <= probes <= maxProbes && Slot(probed, probePos) && matchLen0 <= matchLen < lookaheadSize
        invariant lookaheadPos + matchLen < |input| && c0 == input[lookaheadPos + matchLen] && c1 == input[lookaheadPos + matchLen - 1]
        invariant Found(matchDist0, matchLen0, matchDist, matchLen, probed, best, hits)
        invariant probed <= 3 * (maxProbes - probes) <= probed + 2 * |hits|
        decreases probes
      {
        var found, dist;
        ghost var k;
        found, probePos, dist, probes, k := NextCandidate(probePos, probes, dictSize, matchLen, c0, c1, probed);
        FoundOn(matchDist0, matchLen0, matchDist, matchLen, probed, best, hits, k);
        probed := k;
        if !found || dist == 0 {
          return;
        }
        AtIs(k, dist, probePos);
        var probeLen := MatchLength(pos, probePos, dist, lookaheadSize);
        Compared(matchDist0, matchLen0, matchDist, matchLen, k, best, hits, dist, probeLen, probePos);
        hits, probed := hits + {k}, k + 1;
        if probeLen > matchLen {
          matchDist, matchLen, best := dist, probeLen, k;
          if matchLen == lookaheadSize {
            return;
          }
          c0, c1 := BytesAt(pos, matchLen);
        }
      }
    }

    /**
     If the search did not stop for want of probes, no match of three bytes or more in the whole dictionary
     is longer than the one found; and in any case none that has fewer than `probed` positions with its hash
     before it. (A position stored as 0 cuts its chain.)
     */
    lemma Longest(dist0: nat, len0: nat, dist: nat, len: nat, probed: nat, best: nat, hits: set<nat>, n: nat, d: nat)
      requires Valid() && Shape() && Found(dist0, len0, dist, len, probed, best, hits)
      requires MatchAt(input, lookaheadPos, n, d) && 3 <= n <= lookaheadSize && d <= dictSize
      requires Unbroken(input, lookaheadPos - d, lookaheadPos, Key(input, lookaheadPos))
      requires Ends(probed) || Same(input, lookaheadPos - d + 1, lookaheadPos, Key(input, lookaheadPos)) < probed
      ensures n <= len
    {
      AllEntered();
      FoundSeen(dist0, len0, dist, len, probed, best, hits);
      LongestSearched(hash[..], next[..], tail, input, base, Entered(), lookaheadPos, lookaheadSize, dictSize, probed, len, n, d);
    }

    lemma AllEntered()
      requires Valid() && lookaheadSize >= 3
      ensures Chains(hash[..], next[..], tail, input, base, Entered()) && lookaheadPos < Entered() <= lookaheadPos - dictSize + DICT_SIZE
      ensures base <= lookaheadPos - dictSize
    {
    }

    lemma FoundSeen(dist0: nat, len0: nat, dist: nat, len: nat, probed: nat, best: nat, hits: set<nat>)
      requires Shape() && Found(dist0, len0, dist, len, probed, best, hits)
      ensures Searched(next[..], input, lookaheadPos, lookaheadSize, dictSize, 0, probed, len)
    {
    }

    /** The next `n` bytes, and no more, repeat the byte before the lookahead. */
    ghost predicate Run(n: nat)
      reads this`input, this`lookaheadPos, this`lookaheadSize
    {
      && n <= lookaheadSize && MatchAt(input, lookaheadPos, n, 1)
      && (n < lookaheadSize ==> lookaheadPos + n < |input| && input[lookaheadPos + n] != input[lookaheadPos + n - 1])
    }

    /** The length of the run of the byte just before the lookahead. */
    method RunLength() returns (n: nat)
      requires Valid() && dictSize > 0
      ensures Run(n) && n <= lookaheadSize && MatchAt(input, lookaheadPos, n, 1)
    {
      hide *;
      ValidParts();
      Bounds();
      PreviousByte(lookaheadPos);
      var pos := lookaheadPos % DICT_SIZE;
      LastByte();
      var c := dict[(pos - 1) % DICT_SIZE];
      n := 0;
      while n < lookaheadSize
        invariant n <= lookaheadSize
        invariant forall i :: lookaheadPos <= i < lookaheadPos + n ==> input[i] == c
      {
        ByteAhead(n);
        if dict[pos + n] != c {
          break;
        }
        n := n + 1;
      }
      RunIs(n, c);
    }

    lemma LastByte()
      requires Valid() && dictSize > 0
      ensures lookaheadPos > 0 && (lookaheadPos - 1) % DICT_SIZE < dict.Length && lookaheadPos - 1 < |input|
      ensures dict[(lookaheadPos - 1) % DICT_SIZE] == input[lookaheadPos - 1]
    {
      hide Covers, Mirrored;
      CoveredAt(dict[..], input, From(), lookaheadPos - 1);
    }

    lemma ByteAhead(n: nat)
      requires Valid() && n < lookaheadSize
      ensures lookaheadPos % DICT_SIZE + n < dict.Length && lookaheadPos + n < |input| && dict[lookaheadPos % DICT_SIZE + n] == input[lookaheadPos + n]
    {
      hide Covers, Mirrored;
      ghost var d := dict[..];
      ReadAhead(d, input, From(), lookaheadPos, n);
      assert d[lookaheadPos % DICT_SIZE + n] == dict[lookaheadPos % DICT_SIZE + n];
    }

    lemma RunIs(n: nat, c: u8)
      requires 1 <= lookaheadPos && n <= lookaheadSize && lookaheadPos + lookaheadSize == |input| && input[lookaheadPos - 1] == c
      requires forall i :: lookaheadPos <= i < lookaheadPos + n ==> input[i] == c
      requires n < lookaheadSize ==> input[lookaheadPos + n] != c
      ensures Run(n) && MatchAt(input, lookaheadPos, n, 1)
    {
      forall i | lookaheadPos - 1 <= i < lookaheadPos + n
        ensures input[i] == c
      {
      }
    }

    /** The byte at the start of the lookahead. */
    method Current() returns (b: u8)
      requires Valid() && lookaheadSize > 0
      ensures b == input[lookaheadPos]
    {
      ghost var d := dict[..];
      ReadAhead(d, input, From(), lookaheadPos, 0);
      b := dict[lookaheadPos % DICT_SIZE];
    }

    /** A byte passed over but still in the dictionary. */
    method Past(p: nat) returns (b: u8)
      requires Valid() && lookaheadPos - dictSize <= p < lookaheadPos
      ensures b == input[p]
    {
      ghost var d := dict[..];
      b := dict[p % DICT_SIZE];
      assert d[p % DICT_SIZE] == input[p];
    }

    /** Moves the lookahead forward. */
    method Move(n: nat)
      requires Valid() && n <= lookaheadSize
      modifies this`lookaheadPos, this`lookaheadSize, this`dictSize
      ensures Valid() && lookaheadPos == old(lookaheadPos) + n && lookaheadSize == old(lookaheadSize) - n
      ensures dictSize == Min(old(dictSize) + n, DICT_SIZE)
    {
      lookaheadPos := lookaheadPos + n;
      lookaheadSize := lookaheadSize - n;
      dictSize := Min(dictSize + n, DICT_SIZE);
    }

    /** The reset after `TDEFL_FULL_FLUSH`. */
    method Forget()
      requires Valid() && lookaheadSize == 0
      modifies this`dictSize, this`base, this`tail, next, hash
      ensures Valid() && dictSize == 0 && base == |input| && tail == Zeros()
    {
      ValidHolds();
      ClearChains();
      hide *;
      Bounds();
      ghost var d, s, f := dict[..], input, From();
      base, tail := lookaheadPos, Zeros();
      dictSize := 0;
      Forgotten(d, f);
    }

    method ClearHash()
      requires Shape()
      modifies hash
      ensures hash[..] == Zeros()
    {
      hide *;
      Slots();
      for i := 0 to DICT_SIZE
        invariant forall h :: 0 <= h < i ==> hash[h] == 0
      {
        hash[i] := 0;
      }
      ZerosAre(hash[..]);
    }

    method ClearChains()
      requires Shape()
      modifies next, hash
      ensures hash[..] == Zeros()
    {
      hide *;
      Slots();
      ClearHash();
      for i := 0 to DICT_SIZE
        invariant hash[..] == Zeros()
      {
        next[i] := 0;
      }
    }

    lemma Forgotten(d: seq<u8>, from: nat)
      requires Shape() && d == dict[..] && Covers(d, input, from) && Mirrored(d)
      requires dictSize == 0 && lookaheadSize == 0 && base == lookaheadPos == |input| && from <= From()
      requires hash[..] == Zeros() == tail
      ensures Valid()
    {
      hide Chains, Covers, Mirrored;
      CoversLess(d, input, from, From());
      NoChains(hash[..], next[..], input, base);
    }
  }

  function Zeros(): (z: seq<u16>)
    ensures |z| == DICT_SIZE && forall h :: 0 <= h < DICT_SIZE ==> z[h] == 0
  {
    seq(DICT_SIZE, _ => 0)
  }

  lemma ZerosAre(s: seq<u16>)
    requires |s| == DICT_SIZE && forall h :: 0 <= h < DICT_SIZE ==> s[h] == 0
    ensures s == Zeros()
  {
  }

  lemma CoveredAt(d: seq<u8>, input: seq<u8>, from: nat, p: nat)
    requires Covers(d, input, from) && from <= p < |input|
    ensures |d| >= DICT_SIZE && d[p % DICT_SIZE] == input[p]
  {
  }

  lemma CoversLess(d: seq<u8>, input: seq<u8>, from: nat, to: nat)
    requires Covers(d, input, from) && from <= to
    ensures Covers(d, input, to)
  {
  }

  lemma PreviousByte(pos: nat)
    requires pos > 0
    ensures (pos % DICT_SIZE - 1) % DICT_SIZE == (pos - 1) % DICT_SIZE
  {
  }
}
