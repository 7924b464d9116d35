/**
 Undoing bank interleaving (initc.c, `SwapData`, `swapBlocks`, `deintlv1`): banks of 8192 words are
 brought into order by swapping them in place along the cycles of a permutation.
 */
module BankOrder {
  import opened Bits

  const BANK_WORDS := 0x2000
  const MAX_BANKS := 0xC00000 / 0x8000

  /** The banks' places: each number below `n` once. */
  ghost predicate Permutes(p: seq<nat>, n: nat)
  {
    && |p| == n && (forall x :: 0 <= x < n ==> p[x] < n)
    && (forall x, y :: 0 <= x < y < n ==> p[x] != p[y])
    && (forall v :: 0 <= v < n ==> v in p)
  }

  /** Place of word `k` of bank `b`. */
  function At(b: nat, k: nat): (i: nat)
  {
    b * BANK_WORDS + k
  }

  /** The words of bank `b`. */
  ghost function Bank(d: seq<u32>, b: nat): (r: seq<u32>)
    requires At(b + 1, 0) <= |d|
    ensures |r| == BANK_WORDS
  {
    d[At(b, 0)..At(b + 1, 0)]
  }

  lemma BankFits(b: nat, n: nat)
    requires b < n
    ensures At(b + 1, 0) <= At(n, 0) && At(b, 0) + BANK_WORDS == At(b + 1, 0) && BANK_WORDS == 0x2000
  {
  }

  lemma BanksApart(a: nat, b: nat)
    requires a != b
    ensures At(a + 1, 0) <= At(b, 0) || At(b + 1, 0) <= At(a, 0)
  {
  }

  /** `SwapData` */
  method SwapData(data: array<u32>, loc1: nat, loc2: nat, amount: nat)
    requires loc1 + amount <= data.Length && loc2 + amount <= data.Length
    requires loc1 == loc2 || loc1 + amount <= loc2 || loc2 + amount <= loc1
    modifies data
    ensures data[loc1..loc1 + amount] == old(data[loc2..loc2 + amount]) && data[loc2..loc2 + amount] == old(data[loc1..loc1 + amount])
    ensures forall i :: 0 <= i < data.Length && !(loc1 <= i < loc1 + amount) && !(loc2 <= i < loc2 + amount) ==> data[i] == old(data[i])
  {
    ghost var d := data[..];
    for k := 0 to amount
      invariant SwappedUpTo(d, data[..], loc1, loc2, k)
    {
      SwapWord(data, loc1, loc2, k, d, amount);
    }
    RangesSwapped(d, data[..], loc1, loc2, amount);
    hide *;
    assert data[..][loc1..loc1 + amount] == data[loc1..loc1 + amount] && data[..][loc2..loc2 + amount] == data[loc2..loc2 + amount];
    assert forall i :: 0 <= i < data.Length ==> data[..][i] == data[i];
  }

  lemma RangesSwapped(d: seq<u32>, e: seq<u32>, loc1: nat, loc2: nat, n: nat)
    requires SwappedUpTo(d, e, loc1, loc2, n) && (loc1 == loc2 || loc1 + n <= loc2 || loc2 + n <= loc1)
    ensures |d| == |e| && loc1 + n <= |d| && loc2 + n <= |d|
    ensures e[loc1..loc1 + n] == d[loc2..loc2 + n] && e[loc2..loc2 + n] == d[loc1..loc1 + n]
    ensures forall i :: 0 <= i < |d| && !(loc1 <= i < loc1 + n) && !(loc2 <= i < loc2 + n) ==> e[i] == d[i]
  {
    assert forall i :: loc1 <= i < loc1 + n ==> e[i] == d[i - loc1 + loc2];
    assert forall i :: loc2 <= i < loc2 + n ==> e[i] == d[i - loc2 + loc1];
  }

  /** Where word `i` came from when `k` words at the two places have changed places. */
  function Partner(i: nat, loc1: nat, loc2: nat, k: nat): int
  {
    if loc1 <= i < loc1 + k then i - loc1 + loc2 else if loc2 <= i < loc2 + k then i - loc2 + loc1 else i
  }

  /** The first `k` words have changed places. */
  ghost predicate SwappedUpTo(d: seq<u32>, e: seq<u32>, loc1: nat, loc2: nat, k: nat)
  {
    && |d| == |e| && loc1 + k <= |d| && loc2 + k <= |d|
    && forall i :: 0 <= i < |d| ==> e[i] == d[Partner(i, loc1, loc2, k)]
  }

  method SwapWord(data: array<u32>, loc1: nat, loc2: nat, k: nat, ghost d: seq<u32>, ghost amount: nat)
    requires loc1 + amount <= data.Length && loc2 + amount <= data.Length && k < amount
    requires loc1 == loc2 || loc1 + amount <= loc2 || loc2 + amount <= loc1
    requires SwappedUpTo(d, data[..], loc1, loc2, k)
    modifies data
    ensures SwappedUpTo(d, data[..], loc1, loc2, k + 1)
  {
    ghost var e := data[..];
    var temp := data[loc1 + k];
    data[loc1 + k] := data[loc2 + k];
    data[loc2 + k] := temp;
    assert e[loc2 + k] == d[loc2 + k] && e[loc1 + k] == d[loc1 + k];
  }

  /** The place that `c` stands for once `a` and `b` have changed places. */
  function Other(c: nat, a: nat, b: nat): nat
  {
    if c == a then b else if c == b then a else c
  }

  ghost predicate Swaps(d: seq<u32>, d': seq<u32>, a: nat, b: nat, n: nat)
  {
    && At(n, 0) <= |d| == |d'|
    && forall c: nat :: c < n ==> BankIs(d', c, d, Other(c, a, b))
  }

  /** Two banks change places. */
  method SwapBanks(data: array<u32>, a: nat, b: nat, ghost n: nat)
    requires a < n && b < n && At(n, 0) <= data.Length
    modifies data
    ensures Swaps(old(data[..]), data[..], a, b, n)
    ensures data[At(n, 0)..] == old(data[At(n, 0)..])
  {
    hide *;
    BankFits(a, n);
    BankFits(b, n);
    if a != b {
      BanksApart(a, b);
    }
    ghost var d := data[..];
    SwapData(data, At(a, 0), At(b, 0), BANK_WORDS);
    ghost var e := data[..];
    assert e[At(a, 0)..At(a, 0) + BANK_WORDS] == data[At(a, 0)..At(a, 0) + BANK_WORDS];
    assert e[At(b, 0)..At(b, 0) + BANK_WORDS] == data[At(b, 0)..At(b, 0) + BANK_WORDS];
    BanksSwapped(d, e, a, b, n);
  }

  lemma BanksSwapped(d: seq<u32>, e: seq<u32>, a: nat, b: nat, n: nat)
    requires a < n && b < n && At(n, 0) <= |d| == |e| && At(a, 0) + BANK_WORDS <= |d| && At(b, 0) + BANK_WORDS <= |d|
    requires e[At(a, 0)..At(a, 0) + BANK_WORDS] == d[At(b, 0)..At(b, 0) + BANK_WORDS]
    requires e[At(b, 0)..At(b, 0) + BANK_WORDS] == d[At(a, 0)..At(a, 0) + BANK_WORDS]
    requires forall i :: 0 <= i < |d| && !(At(a, 0) <= i < At(a, 0) + BANK_WORDS) && !(At(b, 0) <= i < At(b, 0) + BANK_WORDS) ==> e[i] == d[i]
    ensures Swaps(d, e, a, b, n)
  {
    hide *;
    forall c: nat | c < n
      ensures BankIs(e, c, d, Other(c, a, b))
    {
      BankSwapped(d, e, a, b, n, c);
    }
    BeSwaps(d, e, a, b, n);
  }

  lemma BeSwaps(d: seq<u32>, e: seq<u32>, a: nat, b: nat, n: nat)
    requires At(n, 0) <= |d| == |e| && forall c: nat :: c < n ==> BankIs(e, c, d, Other(c, a, b))
    ensures Swaps(d, e, a, b, n)
  {
  }

  lemma BankSwapped(d: seq<u32>, e: seq<u32>, a: nat, b: nat, n: nat, c: nat)
    requires a < n && b < n && c < n && At(n, 0) <= |d| == |e| && At(a, 0) + BANK_WORDS <= |d| && At(b, 0) + BANK_WORDS <= |d|
    requires e[At(a, 0)..At(a, 0) + BANK_WORDS] == d[At(b, 0)..At(b, 0) + BANK_WORDS]
    requires e[At(b, 0)..At(b, 0) + BANK_WORDS] == d[At(a, 0)..At(a, 0) + BANK_WORDS]
    requires forall i :: 0 <= i < |d| && !(At(a, 0) <= i < At(a, 0) + BANK_WORDS) && !(At(b, 0) <= i < At(b, 0) + BANK_WORDS) ==> e[i] == d[i]
    ensures BankIs(e, c, d, Other(c, a, b))
  {
    hide At;
    BankFits(a, n);
    BankFits(b, n);
    BankFits(c, n);
    if c == a {
      assert Bank(e, a) == e[At(a, 0)..At(a, 0) + BANK_WORDS] && Bank(d, b) == d[At(b, 0)..At(b, 0) + BANK_WORDS];
    } else if c == b {
      assert Bank(e, b) == e[At(b, 0)..At(b, 0) + BANK_WORDS] && Bank(d, a) == d[At(a, 0)..At(a, 0) + BANK_WORDS];
    } else {
      BanksApart(a, c);
      BanksApart(b, c);
      assert Bank(e, c) == Bank(d, c);
    }
  }

  /** Final bank `x` is now in place `p[x]`. */
  ghost predicate Sits(d: seq<u32>, p: seq<nat>, d0: seq<u32>, p0: seq<nat>, n: nat)
  {
    && |p| == |p0| == n && |d| == |d0| && At(n, 0) <= |d|
    && forall x :: 0 <= x < n ==> p[x] < n && p0[x] < n && BankIs(d, p[x], d0, p0[x])
  }

  ghost predicate BankIs(d: seq<u32>, b: nat, d0: seq<u32>, b0: nat)
  {
    At(b + 1, 0) <= |d| && At(b0 + 1, 0) <= |d0| && Bank(d, b) == Bank(d0, b0)
  }

  lemma SitsNext(d: seq<u32>, d': seq<u32>, p: seq<nat>, d0: seq<u32>, p0: seq<nat>, n: nat, i: nat, j: nat)
    requires Sits(d, p, d0, p0, n) && Permutes(p, n) && i < n && j < n && p[j] == i && |d'| == |d|
    requires Swaps(d, d', p[i], p[j], n)
    ensures Sits(d', p[j := p[i]][i := p[j]], d0, p0, n)
  {
    hide Bank, At;
    PermutesLength(p, n);
    var q := p[j := p[i]][i := p[j]];
    forall x | 0 <= x < n
      ensures q[x] < n && p0[x] < n && BankIs(d', q[x], d0, p0[x])
    {
      assert BankIs(d, p[x], d0, p0[x]);
      assert Other(q[x], p[i], p[j]) == p[x];
      assert BankIs(d', q[x], d, p[x]);
    }
  }

  lemma StillPermutes(p: seq<nat>, n: nat, i: nat, j: nat)
    requires Permutes(p, n) && i < n && j < n
    ensures Permutes(p[j := p[i]][i := p[j]], n)
  {
    var q := p[j := p[i]][i := p[j]];
    forall v | 0 <= v < n
      ensures v in q
    {
      assert v in p;
      var k :| 0 <= k < |p| && p[k] == v;
      assert q[if k == i then j else if k == j then i else k] == v;
    }
  }

  lemma SitsAtFirst(d: seq<u32>, p: seq<nat>, n: nat)
    requires Permutes(p, n) && At(n, 0) <= |d|
    ensures Sits(d, p, d, p, n)
  {
    forall x | 0 <= x < n
      ensures BankIs(d, p[x], d, p[x])
    {
      BankFits(p[x], n);
    }
  }

  /** The first place that holds `i`. */
  method Find(blocks: array<nat>, i: nat, ghost n: nat) returns (j: nat)
    requires Permutes(blocks[..], n) && i < n
    ensures j < n && blocks[j] == i
  {
    j := 0;
    assert exists k :: 0 <= k < n && blocks[k] == i by { assert i in blocks[..]; }
    while blocks[j] != i
      invariant j < n && forall k :: 0 <= k < j ==> blocks[k] != i
      decreases n - j
    {
      j := j + 1;
    }
  }

  /** `swapBlocks`: every bank goes to its place. */
  method SwapBlocks(data: array<u32>, blocks: array<nat>, numBanks: nat)
    requires Permutes(blocks[..], numBanks) && At(numBanks, 0) <= data.Length
    modifies data, blocks
    ensures forall x :: 0 <= x < numBanks ==> BankIs(data[..], x, old(data[..]), old(blocks[..])[x])
    ensures data[At(numBanks, 0)..] == old(data[At(numBanks, 0)..])
  {
    hide *;
    ghost var d0, p0 := data[..], blocks[..];
    PermutesLength(p0, numBanks);
    SitsAtFirst(d0, p0, numBanks);
    for i := 0 to numBanks
      invariant blocks.Length == numBanks && Permutes(blocks[..], numBanks) && Sits(data[..], blocks[..], d0, p0, numBanks)
      invariant forall k :: 0 <= k < i ==> blocks[k] == k
      invariant data[At(numBanks, 0)..] == d0[At(numBanks, 0)..]
    {
      PlaceBank(data, blocks, numBanks, i, d0, p0);
    }
    AllInPlace(data[..], blocks[..], d0, p0, numBanks);
  }

  lemma PermutesLength(p: seq<nat>, n: nat)
    requires Permutes(p, n)
    ensures |p| == n && forall x :: 0 <= x < n ==> p[x] < n
    ensures forall x, y :: 0 <= x < n && 0 <= y < n && p[x] == p[y] ==> x == y
  {
  }

  lemma AllInPlace(d: seq<u32>, p: seq<nat>, d0: seq<u32>, p0: seq<nat>, n: nat)
    requires Sits(d, p, d0, p0, n) && forall k :: 0 <= k < n ==> p[k] == k
    ensures forall x :: 0 <= x < n ==> BankIs(d, x, d0, p0[x])
  {
    hide BankIs;
  }

  /** One turn of the outer loop: bank `i` comes to place `i`. */
  method PlaceBank(data: array<u32>, blocks: array<nat>, numBanks: nat, i: nat, ghost d0: seq<u32>, ghost p0: seq<nat>)
    requires i < numBanks == blocks.Length && Permutes(blocks[..], numBanks) && At(numBanks, 0) <= data.Length
    requires Sits(data[..], blocks[..], d0, p0, numBanks) && forall k :: 0 <= k < i ==> blocks[k] == k
    modifies data, blocks
    ensures Permutes(blocks[..], numBanks) && Sits(data[..], blocks[..], d0, p0, numBanks)
    ensures forall k :: 0 <= k <= i ==> blocks[k] == k
    ensures data[At(numBanks, 0)..] == old(data[At(numBanks, 0)..])
  {
    hide *;
    ghost var p, d := blocks[..], data[..];
    PermutesLength(p, numBanks);
    var j := Find(blocks, i, numBanks);
    SwapBanks(data, blocks[i], blocks[j], numBanks);
    SitsNext(d, data[..], p, d0, p0, numBanks, i, j);
    StillPermutes(p, numBanks, i, j);
    blocks[j], blocks[i] := blocks[i], blocks[j];
    assert blocks[..] == p[j := p[i]][i := p[j]];
  }

  /** Where the bank that belongs in place `x` starts out: halves dealt out alternately, an odd last bank kept. */
  function Source(x: nat, n: nat): (y: nat)
  {
    if x >= n / 2 * 2 then x else if x % 2 == 0 then x / 2 + n / 2 else x / 2
  }

  lemma SourceBound(x: nat, n: nat)
    requires x < n
    ensures Source(x, n) < n
  {
  }

  lemma SourcePermutes(p: seq<nat>, n: nat)
    requires |p| == n && forall x :: 0 <= x < n ==> p[x] == Source(x, n)
    ensures Permutes(p, n)
  {
    forall x: nat | x < n
      ensures p[x] < n
    {
      SourceBound(x, n);
    }
    hide Source;
    forall v: nat | v < n
      ensures v in p
    {
      var x := SourceOf(v, n);
      assert p[x] == v;
    }
    forall x, y | 0 <= x < y < n
      ensures p[x] != p[y]
    {
      SourceApart(x, y, n);
    }
  }

  lemma SourceOf(v: nat, n: nat) returns (x: nat)
    requires v < n
    ensures x < n && Source(x, n) == v
  {
    x := if v >= n / 2 * 2 then v else if v >= n / 2 then 2 * (v - n / 2) else 2 * v + 1;
  }

  lemma SourceApart(x: nat, y: nat, n: nat)
    requires x < y < n
    ensures Source(x, n) != Source(y, n)
  {
  }

  /** `deintlv1` */
  method Deinterleave(data: array<u32>, numBanks: nat)
    requires At(numBanks, 0) <= data.Length
    modifies data
    ensures numBanks > MAX_BANKS ==> data[..] == old(data[..])
    ensures numBanks <= MAX_BANKS ==> forall x: nat :: x < numBanks ==> BankIs(data[..], x, old(data[..]), Source(x, numBanks))
    ensures data[At(numBanks, 0)..] == old(data[At(numBanks, 0)..])
    ensures if numBanks <= 384 then Dealt(old(data[..]), data[..], numBanks) else data[..] == old(data[..])
  {
    if numBanks > MAX_BANKS {
      return;
    }
    hide Bank, At, BankIs, Permutes;
    var blocks := new nat[numBanks](i => i);
    var numBlocks := numBanks / 2;
    for i := 0 to numBlocks
      invariant forall x :: 0 <= x < 2 * i ==> blocks[x] == Source(x, numBanks)
      invariant forall x :: 2 * i <= x < numBanks ==> blocks[x] == x
      invariant data[..] == old(data[..])
    {
      blocks[i * 2] := i + numBlocks;
      blocks[i * 2 + 1] := i;
    }
    SourcePermutes(blocks[..], numBanks);
    SwapBlocks(data, blocks, numBanks);
    BanksDealt(old(data[..]), data[..], numBanks);
  }

  /** Where word `i` of the result comes from: of each pair of banks of 8192 words the even one from the upper half. */
  function Origin(i: nat, n: nat): (j: nat)
  {
    var b, k := i / 8192, i % 8192;
    if b >= 2 * (n / 2) then i else if b % 2 == 0 then 8192 * (b / 2 + n / 2) + k else 8192 * (b / 2) + k
  }

  ghost predicate Dealt(mixed: seq<u32>, plain: seq<u32>, n: nat)
  {
    |mixed| == |plain| && forall i: nat :: i < |plain| ==> Origin(i, n) < |mixed| && plain[i] == mixed[Origin(i, n)]
  }

  lemma BankWord(d: seq<u32>, b: nat, e: seq<u32>, c: nat, k: nat)
    requires BankIs(d, b, e, c) && k < 8192
    ensures 8192 * b + k < |d| && 8192 * c + k < |e| && d[8192 * b + k] == e[8192 * c + k]
  {
    assert Bank(d, b)[k] == d[8192 * b + k] && Bank(e, c)[k] == e[8192 * c + k];
  }

  lemma OriginIs(i: nat, n: nat)
    requires i < 8192 * n
    ensures var x, k := i / 8192, i % 8192; x < n && i == 8192 * x + k && k < 8192 && Origin(i, n) == 8192 * Source(x, n) + k
  {
  }

  lemma BanksDealt(mixed: seq<u32>, plain: seq<u32>, n: nat)
    requires |mixed| == |plain| && At(n, 0) <= |mixed| && plain[At(n, 0)..] == mixed[At(n, 0)..]
    requires forall x: nat :: x < n ==> BankIs(plain, x, mixed, Source(x, n))
    ensures Dealt(mixed, plain, n)
  {
    hide BankIs, Source;
    forall i: nat | i < |plain|
      ensures Origin(i, n) < |mixed| && plain[i] == mixed[Origin(i, n)]
    {
      if i < 8192 * n {
        OriginIs(i, n);
        BankWord(plain, i / 8192, mixed, Source(i / 8192, n), i % 8192);
      } else {
        assert plain[i] == plain[At(n, 0)..][i - At(n, 0)];
      }
    }
  }

  /** The interleaving that it undoes. */
  ghost predicate Interleaves(mixed: seq<u32>, plain: seq<u32>, n: nat)
  {
    forall i: nat :: i < n / 2 ==> BankIs(mixed, i + n / 2, plain, 2 * i) && BankIs(mixed, i, plain, 2 * i + 1)
  }

  /** If the even banks were stored in the upper half and the odd ones in the lower, all are in order again. */
  lemma Undone(mixed: seq<u32>, plain: seq<u32>, result: seq<u32>, n: nat)
    requires Interleaves(mixed, plain, n) && (n % 2 == 1 ==> BankIs(mixed, n - 1, plain, n - 1))
    requires forall x: nat :: x < n ==> BankIs(result, x, mixed, Source(x, n))
    ensures forall x: nat :: x < n ==> BankIs(result, x, plain, x)
  {
    forall x: nat | x < n
      ensures BankIs(result, x, plain, x)
    {
      assert BankIs(result, x, mixed, Source(x, n));
      if x < n / 2 * 2 {
        assert x / 2 < n / 2;
        assert BankIs(mixed, x / 2 + n / 2, plain, 2 * (x / 2)) && BankIs(mixed, x / 2, plain, 2 * (x / 2) + 1);
      }
    }
  }
}
