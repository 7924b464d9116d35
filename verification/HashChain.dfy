/**
 The compressor's hash chains (miniz.c, the dictionary update in `tdefl_compress_normal` and the walk in
 `tdefl_find_match`): every position is entered under a hash of its three bytes and leads to the nearest
 position before it with the same hash.
 */
module HashChains {
  import opened Bits
  import opened LzTokens

  /** `(hash << 5) ^ c`, kept to 15 bits */
  function Mix(hash: nat, c: nat, n: nat): (r: nat)
    ensures r < Pow2(n)
  {
    if n == 0 then 0
    else (if n > 10 then c % 2 else (hash + c) % 2) + 2 * Mix(if n > 10 then hash else hash / 2, c / 2, n - 1)
  }

  function Bit(x: nat, i: nat): (r: nat)
    ensures r < 2
  {
    if i == 0 then x % 2 else Bit(x / 2, i - 1)
  }

  /** The hash of the three bytes at `p`. */
  function Key(input: seq<u8>, p: nat): (h: nat)
    ensures h < DICT_SIZE
  {
    Pow2Values();
    if p + 2 < |input| then Mix(Mix(input[p], input[p + 1], 15), input[p + 2], 15) else 0
  }

  lemma MixParts(h: nat, c: nat, n: nat)
    requires n > 0
    ensures Mix(h, c, n) % 2 == if n > 10 then c % 2 else (h + c) % 2
    ensures Mix(h, c, n) / 2 == Mix(if n > 10 then h else h / 2, c / 2, n - 1)
  {
  }

  lemma BitIs(x: nat, i: nat)
    ensures Bit(x, i) == if i == 0 then x % 2 else Bit(x / 2, i - 1)
  {
  }

  lemma {:induction false} MixBit(h: nat, c: nat, n: nat, i: nat)
    requires i < n
    ensures Bit(Mix(h, c, n), i) == (Bit(c, i) + (if i + 10 < n then 0 else Bit(h, if n > 10 then i - (n - 10) else i))) % 2
    decreases n
  {
    hide *;
    MixParts(h, c, n);
    BitIs(Mix(h, c, n), i);
    BitIs(c, i);
    BitIs(h, i);
    if i > 0 {
      MixBit(if n > 10 then h else h / 2, c / 2, n - 1, i - 1);
    } else if n == 10 {
      BitIs(h, 0);
    }
  }

  lemma {:induction false} SameBits(x: nat, y: nat, n: nat)
    requires x < Pow2(n) && y < Pow2(n) && forall i: nat :: i < n ==> Bit(x, i) == Bit(y, i)
    ensures x == y
  {
    if n > 0 {
      assert Bit(x, 0) == Bit(y, 0);
      forall i: nat | i < n - 1
        ensures Bit(x / 2, i) == Bit(y / 2, i)
      {
        assert Bit(x, i + 1) == Bit(y, i + 1);
      }
      SameBits(x / 2, y / 2, n - 1);
    }
  }

  lemma {:induction false} NoBits(x: nat, n: nat, i: nat)
    requires x < Pow2(n) && n <= i
    ensures Bit(x, i) == 0
  {
    if n == 0 {
      if i > 0 {
        NoBits(0, 0, i - 1);
      }
    } else {
      NoBits(x / 2, n - 1, i - 1);
    }
  }

  /** The hash bit by bit: the first byte is shifted by ten places, the second by five, the third not at all. */
  lemma KeyBits(input: seq<u8>, p: nat, i: nat)
    requires p + 2 < |input| && i < 15
    ensures var first := if i < 10 then 0 else Bit(input[p], i - 10);
      var second := if i < 5 then 0 else Bit(input[p + 1], i - 5);
      Bit(Key(input, p), i) == (first + second + Bit(input[p + 2], i)) % 2
  {
    hide Mix, Bit;
    KeyIs(input, p);
    var two := Mix(input[p], input[p + 1], 15);
    MixBit(two, input[p + 2], 15, i);
    if 5 <= i {
      MixBit(input[p], input[p + 1], 15, i - 5);
    }
  }

  lemma KeyIs(input: seq<u8>, p: nat)
    requires p + 2 < |input|
    ensures Key(input, p) == Mix(Mix(input[p], input[p + 1], 15), input[p + 2], 15)
  {
  }

  lemma MixLowBit(h: nat, k: nat, c: nat, i: nat)
    requires i < 15 && (5 <= i ==> Bit(h, i - 5) == Bit(k, i - 5))
    ensures Bit(Mix(h, c, 15), i) == Bit(Mix(k, c, 15), i)
  {
    hide *;
    MixBit(h, c, 15, i);
    MixBit(k, c, 15, i);
  }

  lemma MixLow(h: nat, k: nat, c: nat)
    requires forall i: nat :: i < 10 ==> Bit(h, i) == Bit(k, i)
    ensures Mix(h, c, 15) == Mix(k, c, 15)
  {
    hide Mix, Bit;
    forall i: nat | i < 15
      ensures Bit(Mix(h, c, 15), i) == Bit(Mix(k, c, 15), i)
    {
      MixLowBit(h, k, c, i);
    }
    SameBits(Mix(h, c, 15), Mix(k, c, 15), 15);
  }

  /** The hash is rolling: of the bytes before the last two nothing is left. */
  lemma Rolling(a: nat, b: nat, c: nat, d: nat)
    ensures Mix(Mix(Mix(a, b, 15), c, 15), d, 15) == Mix(Mix(b, c, 15), d, 15)
  {
    hide Mix, Bit;
    var three, two := Mix(Mix(a, b, 15), c, 15), Mix(b, c, 15);
    forall i: nat | i < 10
      ensures Bit(three, i) == Bit(two, i)
    {
      MixBit(Mix(a, b, 15), c, 15, i);
      MixBit(b, c, 15, i);
      if 5 <= i {
        MixBit(a, b, 15, i - 5);
      }
    }
    MixLow(three, two, d);
  }

  lemma SameRemainder(a: nat, b: nat, k: int)
    requires b == a + k * DICT_SIZE
    ensures a % DICT_SIZE == b % DICT_SIZE
  {
    var q, r := DivMod(a, DICT_SIZE);
    assert b == (q + k) * DICT_SIZE + r;
  }

  /** `h` is ready to take the next byte: with it, it will be the hash of the last three. */
  ghost predicate Rolls(h: nat, input: seq<u8>)
  {
    |input| >= 2 && forall c: u8 :: Mix(h, c, 15) == Key(input + [c], |input| - 2)
  }

  lemma RollsStart(input: seq<u8>, h: nat)
    requires |input| >= 2 && h == Mix(input[|input| - 2], input[|input| - 1], 15)
    ensures Rolls(h, input)
  {
    hide Mix;
  }

  lemma RollsNow(h: nat, input: seq<u8>, c: u8)
    requires Rolls(h, input)
    ensures |input| >= 2 && Mix(h, c, 15) == Key(input + [c], |input| - 2)
  {
    hide Mix, Key;
  }

  lemma RollsLast(more: seq<u8>, h: nat, d: u8)
    requires |more| >= 3 && h == Key(more, |more| - 3)
    ensures Mix(h, d, 15) == Key(more + [d], |more| - 2)
  {
    hide Mix, Key;
    var n := |more|;
    KeyIs(more, n - 3);
    KeyIs(more + [d], n - 2);
    Rolling(more[n - 3], more[n - 2], more[n - 1], d);
  }

  lemma RollsOn(h: nat, input: seq<u8>, c: u8)
    requires Rolls(h, input)
    ensures Mix(h, c, 15) == Key(input + [c], |input| - 2) && Rolls(Mix(h, c, 15), input + [c])
  {
    hide Mix, Key;
    RollsNow(h, input, c);
    forall d: u8
      ensures Mix(Mix(h, c, 15), d, 15) == Key(input + [c] + [d], |input| - 1)
    {
      RollsLast(input + [c], Mix(h, c, 15), d);
    }
  }

  /** The nearest position before `end`, from `base` on, with hash `h`, as 16 bits; what the table held before if there is none. */
  function Newest(tail: seq<u16>, input: seq<u8>, base: nat, end: nat, h: nat): u16
  {
    if end <= base then if h < |tail| then tail[h] else 0
    else if Key(input, end - 1) == h then (end - 1) % 0x1_0000
    else Newest(tail, input, base, end - 1, h)
  }

  /** The positions from `base` up to `end` are in the chains. */
  ghost predicate Chains(hash: seq<u16>, next: seq<u16>, tail: seq<u16>, input: seq<u8>, base: nat, end: nat)
  {
    && |hash| == |next| == DICT_SIZE && base <= end && (end == base || end + 2 <= |input|)
    && (forall h :: 0 <= h < DICT_SIZE ==> hash[h] == Newest(tail, input, base, end, h))
    && (forall q {:trigger Key(input, q)} :: base <= q < end <= q + DICT_SIZE ==> next[q % DICT_SIZE] == Newest(tail, input, base, q, Key(input, q)))
  }

  lemma {:induction false} NewestMore(tail: seq<u16>, input: seq<u8>, c: u8, base: nat, end: nat, h: nat)
    requires end <= base || end + 2 <= |input|
    ensures Newest(tail, input + [c], base, end, h) == Newest(tail, input, base, end, h)
  {
    if end > base {
      NewestMore(tail, input, c, base, end - 1, h);
      hide Mix;
      assert Key(input + [c], end - 1) == Key(input, end - 1);
    }
  }

  /** More input changes nothing. */
  lemma ChainsMore(hash: seq<u16>, next: seq<u16>, tail: seq<u16>, input: seq<u8>, c: u8, base: nat, end: nat)
    requires Chains(hash, next, tail, input, base, end)
    ensures Chains(hash, next, tail, input + [c], base, end)
  {
    forall h | 0 <= h < DICT_SIZE
      ensures hash[h] == Newest(tail, input + [c], base, end, h)
    {
      NewestMore(tail, input, c, base, end, h);
    }
    forall q | base <= q < end <= q + DICT_SIZE
      ensures next[q % DICT_SIZE] == Newest(tail, input + [c], base, q, Key(input + [c], q))
    {
      assert Key(input + [c], q) == Key(input, q);
      NewestMore(tail, input, c, base, q, Key(input, q));
    }
  }

  /** A position put at the head of its chain. */
  lemma ChainsInsert(hash: seq<u16>, next: seq<u16>, tail: seq<u16>, input: seq<u8>, base: nat, p: nat)
    requires Chains(hash, next, tail, input, base, p) && p + 2 < |input|
    ensures var h := Key(input, p); Chains(hash[h := p % 0x1_0000], next[p % DICT_SIZE := hash[h]], tail, input, base, p + 1)
  {
    hide Key;
    var h := Key(input, p);
    var hash', next' := hash[h := p % 0x1_0000], next[p % DICT_SIZE := hash[h]];
    forall k | 0 <= k < DICT_SIZE
      ensures hash'[k] == Newest(tail, input, base, p + 1, k)
    {
    }
    forall q | base <= q < p + 1 <= q + DICT_SIZE
      ensures next'[q % DICT_SIZE] == Newest(tail, input, base, q, Key(input, q))
    {
      if q < p {
        OtherSlot(q, p);
      }
    }
  }

  lemma OtherSlot(q: nat, p: nat)
    requires q < p < q + DICT_SIZE
    ensures q % DICT_SIZE != p % DICT_SIZE
  {
  }

  lemma ChainsShape(hash: seq<u16>, next: seq<u16>, tail: seq<u16>, input: seq<u8>, base: nat, end: nat)
    requires Chains(hash, next, tail, input, base, end)
    ensures |hash| == |next| == DICT_SIZE && base <= end
  {
  }

  lemma NoChains(hash: seq<u16>, next: seq<u16>, input: seq<u8>, base: nat)
    requires |hash| == |next| == DICT_SIZE
    ensures Chains(hash, next, hash, input, base, base)
  {
  }

  // ---------------------------------------------------------------- the chain of candidates

  /** Where `k` steps along the chain that starts at `pos` lead in the dictionary. */
  function ChainSlot(next: seq<u16>, pos: nat, k: nat): (r: nat)
    requires |next| == DICT_SIZE
    ensures r < DICT_SIZE
  {
    if k == 0 then pos % DICT_SIZE else next[ChainSlot(next, pos, k - 1)] % DICT_SIZE
  }

  /** The distance of the chain's candidate number `k`. */
  function ChainDist(next: seq<u16>, pos: nat, k: nat): (r: nat)
    requires |next| == DICT_SIZE
  {
    (pos - next[ChainSlot(next, pos, k)]) % 0x1_0000
  }

  /** There is no candidate number `k`: the entry is empty, not in the dictionary, or the position itself. */
  predicate ChainEnds(next: seq<u16>, pos: nat, dictSize: nat, k: nat)
    requires |next| == DICT_SIZE
  {
    next[ChainSlot(next, pos, k)] == 0 || ChainDist(next, pos, k) > dictSize || ChainDist(next, pos, k) == 0
  }

  /** Of the next `most` bytes at most `n` repeat those `dist` back. */
  ghost predicate NoLonger(input: seq<u8>, pos: nat, most: nat, dist: nat, n: int)
  {
    forall m: nat :: m <= most && MatchAt(input, pos, m, dist) ==> m <= n
  }

  /** The byte `n` places on and the one before it equal those `dist` back. */
  ghost predicate Agrees(input: seq<u8>, pos: nat, dist: nat, n: nat)
  {
    && dist <= pos && 1 <= n && pos + n < |input|
    && input[pos + n] == input[pos + n - dist] && input[pos + n - 1] == input[pos + n - 1 - dist]
  }

  /** Candidate number `k` is in the dictionary and matches in at most `n` bytes. */
  ghost predicate Tried(next: seq<u16>, input: seq<u8>, pos: nat, most: nat, dictSize: nat, k: nat, n: int)
    requires |next| == DICT_SIZE
  {
    !ChainEnds(next, pos, dictSize, k) && NoLonger(input, pos, most, ChainDist(next, pos, k), n)
  }

  lemma TriedIs(next: seq<u16>, input: seq<u8>, pos: nat, most: nat, dictSize: nat, k: nat, n: int)
    requires |next| == DICT_SIZE && !ChainEnds(next, pos, dictSize, k) && NoLonger(input, pos, most, ChainDist(next, pos, k), n)
    ensures Tried(next, input, pos, most, dictSize, k, n)
  {
  }

  lemma AgreesIs(input: seq<u8>, pos: nat, dist: nat, n: nat)
    requires dist <= pos && 1 <= n && pos + n < |input|
    ensures Agrees(input, pos, dist, n) <==> input[pos + n] == input[pos + n - dist] && input[pos + n - 1] == input[pos + n - 1 - dist]
  {
  }

  /** So are and do all from `i` up to `k`. */
  ghost predicate Searched(next: seq<u16>, input: seq<u8>, pos: nat, most: nat, dictSize: nat, i: nat, k: nat, n: int)
    requires |next| == DICT_SIZE
  {
    forall j :: i <= j < k ==> Tried(next, input, pos, most, dictSize, j, n)
  }

  /** Candidate number `best` lies at the distance found and is the first to match in so many bytes. */
  ghost predicate FirstBest(next: seq<u16>, input: seq<u8>, pos: nat, most: nat, dictSize: nat, best: nat, dist: nat, len: nat)
    requires |next| == DICT_SIZE
  {
    dist == ChainDist(next, pos, best) && Searched(next, input, pos, most, dictSize, 0, best, len - 1)
  }

  /** Each of these candidates agreed at a length at hand and was compared. */
  ghost predicate Worth(next: seq<u16>, input: seq<u8>, pos: nat, least: nat, most: nat, probed: nat, hits: set<nat>)
    requires |next| == DICT_SIZE
  {
    forall k :: k in hits ==> k < probed && exists n :: least <= n <= most && Agrees(input, pos, ChainDist(next, pos, k), n)
  }

  lemma WorthMore(next: seq<u16>, input: seq<u8>, pos: nat, least: nat, most: nat, probed: nat, hits: set<nat>, k: nat, most2: nat)
    requires |next| == DICT_SIZE && Worth(next, input, pos, least, most, probed, hits) && probed <= k && least <= most <= most2
    requires Agrees(input, pos, ChainDist(next, pos, k), most)
    ensures Worth(next, input, pos, least, most2, k + 1, hits + {k}) && |hits + {k}| == |hits| + 1
  {
    hide Agrees, ChainDist;
  }

  lemma WorthNone(next: seq<u16>, input: seq<u8>, pos: nat, least: nat, most: nat)
    requires |next| == DICT_SIZE
    ensures Worth(next, input, pos, least, most, 0, {})
  {
  }

  lemma WorthOn(next: seq<u16>, input: seq<u8>, pos: nat, least: nat, most: nat, probed: nat, hits: set<nat>, k: nat)
    requires |next| == DICT_SIZE && Worth(next, input, pos, least, most, probed, hits) && probed <= k
    ensures Worth(next, input, pos, least, most, k, hits)
  {
    hide Agrees, ChainDist;
  }

  lemma FirstBestIs(next: seq<u16>, input: seq<u8>, pos: nat, most: nat, dictSize: nat, best: nat, dist: nat, len: nat)
    requires |next| == DICT_SIZE && dist == ChainDist(next, pos, best) && Searched(next, input, pos, most, dictSize, 0, best, len - 1)
    ensures FirstBest(next, input, pos, most, dictSize, best, dist, len)
  {
  }

  lemma SearchedNone(next: seq<u16>, input: seq<u8>, pos: nat, most: nat, dictSize: nat, i: nat, n: int)
    requires |next| == DICT_SIZE
    ensures Searched(next, input, pos, most, dictSize, i, i, n)
  {
  }

  lemma SearchedMore(next: seq<u16>, input: seq<u8>, pos: nat, most: nat, dictSize: nat, i: nat, k: nat, n: int)
    requires |next| == DICT_SIZE && Searched(next, input, pos, most, dictSize, i, k, n) && Tried(next, input, pos, most, dictSize, k, n)
    ensures Searched(next, input, pos, most, dictSize, i, k + 1, n)
  {
    hide Tried;
  }

  lemma SearchedOn(next: seq<u16>, input: seq<u8>, pos: nat, most: nat, dictSize: nat, i: nat, j: nat, k: nat, n: int)
    requires |next| == DICT_SIZE
    requires Searched(next, input, pos, most, dictSize, i, j, n) && Searched(next, input, pos, most, dictSize, j, k, n)
    ensures Searched(next, input, pos, most, dictSize, i, k, n)
  {
    hide Tried;
  }

  lemma TriedLonger(next: seq<u16>, input: seq<u8>, pos: nat, most: nat, dictSize: nat, k: nat, n: int, m: int)
    requires |next| == DICT_SIZE && Tried(next, input, pos, most, dictSize, k, n) && n <= m
    ensures Tried(next, input, pos, most, dictSize, k, m)
  {
    hide ChainEnds, ChainDist, MatchAt;
  }

  lemma SearchedLonger(next: seq<u16>, input: seq<u8>, pos: nat, most: nat, dictSize: nat, i: nat, k: nat, n: int, m: int)
    requires |next| == DICT_SIZE && Searched(next, input, pos, most, dictSize, i, k, n) && n <= m
    ensures Searched(next, input, pos, most, dictSize, i, k, m)
  {
    hide Tried;
    forall j | i <= j < k
      ensures Tried(next, input, pos, most, dictSize, j, m)
    {
      TriedLonger(next, input, pos, most, dictSize, j, n, m);
    }
  }

  lemma ChainStart(next: seq<u16>, pos: nat)
    requires |next| == DICT_SIZE
    ensures ChainSlot(next, pos, 0) == pos % DICT_SIZE
  {
  }

  /** A candidate that does not agree cannot match beyond the length at hand. */
  lemma CannotGrow(input: seq<u8>, pos: nat, most: nat, dist: nat, n: nat)
    requires 1 <= dist <= pos && 1 <= n && pos + n < |input| && !Agrees(input, pos, dist, n)
    ensures NoLonger(input, pos, most, dist, n)
  {
  }

  lemma Longer(input: seq<u8>, pos: nat, most: nat, dist: nat, n: int, m: int)
    requires NoLonger(input, pos, most, dist, n) && n <= m
    ensures NoLonger(input, pos, most, dist, m)
  {
  }

  /** The byte after a run decides how long the match is. */
  lemma RunEnds(input: seq<u8>, pos: nat, most: nat, dist: nat, n: nat)
    requires 1 <= dist <= pos && pos + most <= |input| && n <= most
    requires n < most ==> input[pos + n] != input[pos + n - dist]
    ensures NoLonger(input, pos, most, dist, n)
  {
  }

  // ---------------------------------------------------------------- where the chain of a position leads

  /** How many positions from `q` up to `p` have hash `h`. */
  function Same(input: seq<u8>, q: nat, p: nat, h: nat): nat
  {
    if p <= q then 0 else Same(input, q, p - 1, h) + if Key(input, p - 1) == h then 1 else 0
  }

  /** No position from `q` up to `p` with hash `h` is stored as 0, which would end the chain. */
  ghost predicate Unbroken(input: seq<u8>, q: nat, p: nat, h: nat)
  {
    forall r :: q <= r < p && Key(input, r) == h ==> r % 0x1_0000 != 0
  }

  lemma {:induction false} NewestIs(tail: seq<u16>, input: seq<u8>, base: nat, q: nat, end: nat, h: nat) returns (r: nat)
    requires base <= q < end && Key(input, q) == h
    ensures q <= r < end && Key(input, r) == h && Newest(tail, input, base, end, h) == r % 0x1_0000
    ensures Same(input, q + 1, end, h) == if r == q then 0 else 1 + Same(input, q + 1, r, h)
    decreases end
  {
    if Key(input, end - 1) == h {
      r := end - 1;
    } else {
      r := NewestIs(tail, input, base, q, end - 1, h);
    }
  }

  lemma NextOn(next: seq<u16>, pos: nat, k: nat, p: nat, r: nat)
    requires |next| == DICT_SIZE && ChainSlot(next, pos, k) == p % DICT_SIZE && next[p % DICT_SIZE] == r % 0x1_0000
    requires r < pos < r + 0x1_0000
    ensures ChainDist(next, pos, k) == pos - r && ChainSlot(next, pos, k + 1) == r % DICT_SIZE
  {
    var n := r / 0x1_0000;
    assert r == n * 0x1_0000 + r % 0x1_0000;
    SameRemainder(r % 0x1_0000, r, 2 * n);
    WordBack(pos, r);
  }

  lemma WordBack(pos: nat, r: nat)
    requires r < pos < r + 0x1_0000
    ensures (pos - r % 0x1_0000) % 0x1_0000 == pos - r
  {
  }

  /** From `p` on, candidate by candidate, to `q`. */
  lemma {:induction false} Reach(hash: seq<u16>, next: seq<u16>, tail: seq<u16>, input: seq<u8>, base: nat, end: nat, pos: nat, k: nat, p: nat, q: nat)
    requires Chains(hash, next, tail, input, base, end) && base <= q < p <= pos < end <= q + DICT_SIZE
    requires Key(input, q) == Key(input, p) == Key(input, pos) && Unbroken(input, q, p, Key(input, pos))
    requires ChainSlot(next, pos, k) == p % DICT_SIZE
    ensures ChainDist(next, pos, k + Same(input, q + 1, p, Key(input, pos))) == pos - q
    decreases p
  {
    var h := Key(input, pos);
    hide Key, ChainDist, ChainSlot, Same, Newest;
    var r := NewestIs(tail, input, base, q, p, h);
    assert next[p % DICT_SIZE] == r % 0x1_0000;
    NextOn(next, pos, k, p, r);
    if r > q {
      Reach(hash, next, tail, input, base, end, pos, k + 1, r, q);
    }
  }

  /**
   The candidate number `k` is the position that has `k` others with the hash of the current one between
   itself and the current one: nearest first, and none left out.
   */
  lemma ChainLeads(hash: seq<u16>, next: seq<u16>, tail: seq<u16>, input: seq<u8>, base: nat, end: nat, pos: nat, q: nat)
    requires Chains(hash, next, tail, input, base, end) && base <= q < pos < end <= q + DICT_SIZE
    requires Key(input, q) == Key(input, pos) && Unbroken(input, q, pos, Key(input, pos))
    ensures |next| == DICT_SIZE && ChainDist(next, pos, Same(input, q + 1, pos, Key(input, pos))) == pos - q
  {
    hide *;
    ChainsShape(hash, next, tail, input, base, end);
    ChainStart(next, pos);
    Reach(hash, next, tail, input, base, end, pos, 0, pos, q);
  }

  /** Up to there the chain does not end. */
  lemma {:induction false} GoesOn(hash: seq<u16>, next: seq<u16>, tail: seq<u16>, input: seq<u8>, base: nat, end: nat, pos: nat, k: nat, p: nat, q: nat, j: nat)
    requires Chains(hash, next, tail, input, base, end) && base <= q < p <= pos < end <= q + DICT_SIZE
    requires Key(input, q) == Key(input, p) == Key(input, pos) && Unbroken(input, q, p, Key(input, pos))
    requires ChainSlot(next, pos, k) == p % DICT_SIZE && k <= j <= k + Same(input, q + 1, p, Key(input, pos))
    ensures next[ChainSlot(next, pos, j)] != 0 && 1 <= ChainDist(next, pos, j) <= pos - q
    decreases p
  {
    var h := Key(input, pos);
    hide Key, ChainDist, ChainSlot, Same, Newest;
    var r := NewestIs(tail, input, base, q, p, h);
    assert next[p % DICT_SIZE] == r % 0x1_0000;
    NextOn(next, pos, k, p, r);
    if j > k {
      GoesOn(hash, next, tail, input, base, end, pos, k + 1, r, q, j);
    }
  }

  lemma ChainGoesOn(hash: seq<u16>, next: seq<u16>, tail: seq<u16>, input: seq<u8>, base: nat, end: nat, pos: nat, q: nat, j: nat, dictSize: nat)
    requires Chains(hash, next, tail, input, base, end) && base <= q < pos < end <= q + DICT_SIZE && pos - q <= dictSize
    requires Key(input, q) == Key(input, pos) && Unbroken(input, q, pos, Key(input, pos)) && j <= Same(input, q + 1, pos, Key(input, pos))
    ensures |next| == DICT_SIZE && !ChainEnds(next, pos, dictSize, j)
  {
    hide Chains, Key, Unbroken, Same, ChainSlot, ChainDist;
    ChainsShape(hash, next, tail, input, base, end);
    ChainStart(next, pos);
    GoesOn(hash, next, tail, input, base, end, pos, 0, pos, q, j);
  }

  lemma {:induction false} CutAt(hash: seq<u16>, next: seq<u16>, tail: seq<u16>, input: seq<u8>, base: nat, end: nat, pos: nat, k: nat, p: nat, r: nat)
    requires Chains(hash, next, tail, input, base, end) && base <= r < p <= pos < end <= r + DICT_SIZE && r % 0x1_0000 == 0
    requires Key(input, r) == Key(input, p) == Key(input, pos) && Unbroken(input, r + 1, p, Key(input, pos))
    requires ChainSlot(next, pos, k) == p % DICT_SIZE
    ensures next[ChainSlot(next, pos, k + Same(input, r + 1, p, Key(input, pos)))] == 0
    decreases p
  {
    var h := Key(input, pos);
    hide Key, ChainDist, ChainSlot, Same, Newest;
    var x := NewestIs(tail, input, base, r, p, h);
    assert next[p % DICT_SIZE] == x % 0x1_0000;
    if x > r {
      NextOn(next, pos, k, p, x);
      CutAt(hash, next, tail, input, base, end, pos, k + 1, x, r);
    }
  }

  /** At a position that is a multiple of 65536, stored as 0, the chain does end, and what lies behind it is not found. */
  lemma ChainCut(hash: seq<u16>, next: seq<u16>, tail: seq<u16>, input: seq<u8>, base: nat, end: nat, pos: nat, r: nat, dictSize: nat)
    requires Chains(hash, next, tail, input, base, end) && base <= r < pos < end <= r + DICT_SIZE && r % 0x1_0000 == 0
    requires Key(input, r) == Key(input, pos) && Unbroken(input, r + 1, pos, Key(input, pos))
    ensures |next| == DICT_SIZE && ChainEnds(next, pos, dictSize, Same(input, r + 1, pos, Key(input, pos)))
  {
    hide Chains, Key, Unbroken, Same, ChainSlot, ChainDist;
    ChainsShape(hash, next, tail, input, base, end);
    ChainStart(next, pos);
    CutAt(hash, next, tail, input, base, end, pos, 0, pos, r);
  }

  /** Bytes that match in three places or more have one hash. */
  lemma MatchHash(input: seq<u8>, pos: nat, n: nat, dist: nat)
    requires MatchAt(input, pos, n, dist) && n >= 3
    ensures Key(input, pos - dist) == Key(input, pos)
  {
    assert input[pos] == input[pos - dist] && input[pos + 1] == input[pos + 1 - dist] && input[pos + 2] == input[pos + 2 - dist];
  }

  lemma SearchedAt(next: seq<u16>, input: seq<u8>, pos: nat, most: nat, dictSize: nat, k: nat, j: nat, len: nat, n: nat, d: nat)
    requires |next| == DICT_SIZE && Searched(next, input, pos, most, dictSize, 0, k, len) && j < k && d == ChainDist(next, pos, j)
    requires n <= most && MatchAt(input, pos, n, d)
    ensures n <= len
  {
    hide MatchAt, ChainDist, ChainEnds;
    assert Tried(next, input, pos, most, dictSize, j, len);
  }

  /** A search along the whole chain, or past the place of a match, finds nothing shorter. */
  lemma LongestSearched(hash: seq<u16>, next: seq<u16>, tail: seq<u16>, input: seq<u8>, base: nat, end: nat, pos: nat, most: nat, dictSize: nat, k: nat, len: nat, n: nat, d: nat)
    requires Chains(hash, next, tail, input, base, end) && pos < end && end + dictSize <= pos + DICT_SIZE && base + dictSize <= pos
    requires |next| == DICT_SIZE && Searched(next, input, pos, most, dictSize, 0, k, len)
    requires MatchAt(input, pos, n, d) && 3 <= n <= most && 1 <= d <= dictSize
    requires Unbroken(input, pos - d, pos, Key(input, pos))
    requires ChainEnds(next, pos, dictSize, k) || Same(input, pos - d + 1, pos, Key(input, pos)) < k
    ensures n <= len
  {
    hide *;
    var j := Same(input, pos - d + 1, pos, Key(input, pos));
    MatchHash(input, pos, n, d);
    if k <= j {
      ChainGoesOn(hash, next, tail, input, base, end, pos, pos - d, k, dictSize);
    } else {
      ChainLeads(hash, next, tail, input, base, end, pos, pos - d);
      SearchedAt(next, input, pos, most, dictSize, k, j, len, n, d);
    }
  }
}
