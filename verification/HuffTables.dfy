/**
 Building one Huffman table from symbol counts (miniz.c, `tdefl_optimize_huffman_table`):
 sort the used symbols, compute minimum-redundancy lengths, limit them, hand them out by
 frequency, and assign canonical codes bit-reversed for the least-significant-bit-first writer.
 */
module HuffTables {
  import opened Bits
  import opened RadixSort
  import opened Merging
  import opened MinRedundancy
  import opened Canonical
  import opened PrefixCost
  import opened LimitCost
  import L = LimitCodeSizes

  const MAX_HUFF_SYMBOLS := 288

  // ---------------------------------------------------------------- collecting the used symbols

  /** The used symbols of a count table, in symbol order. */
  ghost predicate Collected(s: seq<SymFreq>, counts: seq<nat>, len: nat)
    requires len <= |counts|
  {
    && (forall q :: 0 <= q < |s| ==> s[q].sym < len && s[q].key == counts[s[q].sym] > 0)
    && (forall q, r :: 0 <= q < r < |s| ==> s[q].sym != s[r].sym)
    && (forall i :: 0 <= i < len && counts[i] > 0 ==> Occurs(s, i))
  }

  ghost predicate Occurs(s: seq<SymFreq>, i: nat)
  {
    exists q :: 0 <= q < |s| && s[q].sym == i
  }

  lemma {:induction false} OnceAtMost(s: seq<SymFreq>, x: SymFreq)
    requires forall q, r :: 0 <= q < r < |s| ==> s[q].sym != s[r].sym
    ensures multiset(s)[x] <= 1
  {
    if s != [] {
      var t := s[..|s| - 1];
      assert s == t + [s[|s| - 1]];
      OnceAtMost(t, x);
      assert forall q :: 0 <= q < |t| ==> t[q].sym != s[|s| - 1].sym;
    }
  }

  lemma TwiceInMultiset(s: seq<SymFreq>, q: nat, r: nat)
    requires q < r < |s| && s[q] == s[r]
    ensures multiset(s)[s[q]] >= 2
  {
    assert s == s[..q] + [s[q]] + s[q + 1..r] + [s[r]] + s[r + 1..];
  }

  /** Sorting keeps the collection. */
  lemma CollectedPermutation(s: seq<SymFreq>, t: seq<SymFreq>, counts: seq<nat>, len: nat)
    requires len <= |counts| && Collected(s, counts, len) && multiset(s) == multiset(t)
    ensures Collected(t, counts, len)
  {
    forall q | 0 <= q < |t|
      ensures t[q].sym < len && t[q].key == counts[t[q].sym] > 0
    {
      assert t[q] in multiset(s);
    }
    forall q, r | 0 <= q < r < |t|
      ensures t[q].sym != t[r].sym
    {
      if t[q].sym == t[r].sym {
        assert t[q] in multiset(s) && t[r] in multiset(s);
        TwiceInMultiset(t, q, r);
        OnceAtMost(s, t[q]);
      }
    }
    forall i | 0 <= i < len && counts[i] > 0
      ensures Occurs(t, i)
    {
      assert Occurs(s, i);
      var q :| 0 <= q < |s| && s[q].sym == i;
      assert s[q] in multiset(t);
    }
  }

  function SumTo(counts: seq<nat>, n: nat): nat
    requires n <= |counts|
  {
    if n == 0 then 0 else SumTo(counts, n - 1) + counts[n - 1]
  }

  function NumUsed(counts: seq<nat>, n: nat): (r: nat)
    requires n <= |counts|
    ensures r <= n
  {
    if n == 0 then 0 else NumUsed(counts, n - 1) + (if counts[n - 1] > 0 then 1 else 0)
  }

  method Append(syms: array<SymFreq>, n: nat, x: SymFreq, ghost s: seq<SymFreq>) returns (ghost t: seq<SymFreq>)
    requires n < syms.Length && syms[..n] == s
    modifies syms
    ensures t == s + [x] && syms[..n + 1] == t
  {
    syms[n] := x;
    t := s + [x];
  }

  method CollectSyms(counts: array<nat>, len: nat, syms: array<SymFreq>) returns (n: nat)
    requires len <= counts.Length && len <= syms.Length && len <= 0x1_0000
    requires forall i :: 0 <= i < len ==> counts[i] < 0x1_0000
    modifies syms
    ensures n == NumUsed(counts[..], len) && n <= len
    ensures Collected(syms[..n], counts[..], len)
  {
    ghost var cs, s: seq<SymFreq> := counts[..], [];
    n := 0;
    CollectedNone(cs);
    hide *;
    for i := 0 to len
      invariant n == NumUsed(cs, i) <= i && counts[..] == cs && syms[..n] == s
      invariant Collected(s, cs, i)
    {
      CountStep(cs, i);
      n, s := CollectOne(counts[i], i, syms, n, s, cs);
    }
  }

  method CollectOne(count: nat, i: nat, syms: array<SymFreq>, n: nat, ghost s: seq<SymFreq>, ghost cs: seq<nat>)
    returns (n': nat, ghost s': seq<SymFreq>)
    requires i < |cs| && count == cs[i] < 0x1_0000 && i < 0x1_0000 && n < syms.Length && syms[..n] == s
    requires Collected(s, cs, i)
    modifies syms
    ensures n' == (if count > 0 then n + 1 else n) <= syms.Length && syms[..n'] == s' && Collected(s', cs, i + 1)
  {
    hide *;
    n', s' := n, s;
    if count != 0 {
      CollectedNext(s, cs, i);
      s' := Append(syms, n, SymFreq(count, i), s);
      n' := n + 1;
    } else {
      CollectedSkip(s, cs, i);
    }
  }

  lemma CollectedNone(counts: seq<nat>)
    ensures Collected([], counts, 0) && NumUsed(counts, 0) == 0
  {
  }

  lemma CountStep(counts: seq<nat>, i: nat)
    requires i < |counts|
    ensures NumUsed(counts, i + 1) == NumUsed(counts, i) + (if counts[i] > 0 then 1 else 0)
  {
  }

  lemma CollectedSkip(s: seq<SymFreq>, counts: seq<nat>, i: nat)
    requires i < |counts| && counts[i] == 0 && Collected(s, counts, i)
    ensures Collected(s, counts, i + 1)
  {
  }

  lemma CollectedNext(s: seq<SymFreq>, counts: seq<nat>, i: nat)
    requires i < |counts| && 0 < counts[i] < 0x1_0000 && i < 0x1_0000 && Collected(s, counts, i)
    ensures Collected(s + [SymFreq(counts[i], i)], counts, i + 1)
  {
    var t := s + [SymFreq(counts[i], i)];
    forall j | 0 <= j < i + 1 && counts[j] > 0
      ensures Occurs(t, j)
    {
      if j < i {
        assert Occurs(s, j);
        var q :| 0 <= q < |s| && s[q].sym == j;
        assert t[q].sym == j;
      } else {
        assert t[|s|].sym == i;
      }
    }
  }

  // ---------------------------------------------------------------- counting lengths

  lemma {:induction false} TotalMono(c: seq<int>, l: nat, m: nat)
    requires l <= m < |c| && L.NonNegative(c)
    ensures L.Total(c, l) <= L.Total(c, m)
  {
    if l < m {
      TotalMono(c, l, m - 1);
    }
  }

  /** `num_codes[len[i]]++` over a table of lengths. */
  method CountLengths(ghost s: seq<nat>, a: array<SymFreq>, n: nat) returns (num: array<int>)
    requires n <= a.Length && s == Keys(a[..n]) && LensUpTo(s, L.MAX_SUPPORTED_CODE_SIZE)
    ensures fresh(num) && num.Length == L.MAX_SUPPORTED_CODE_SIZE + 1
    ensures num[..] == L.Counts(s, L.MAX_SUPPORTED_CODE_SIZE)
  {
    num := new int[L.MAX_SUPPORTED_CODE_SIZE + 1](_ => 0);
    assert s[..0] == [];
    for i := 0 to n
      invariant forall l :: 0 <= l < num.Length ==> num[l] == Count(s[..i], l)
    {
      assert s[..i + 1][..i] == s[..i] && s[i] == a[i].key;
      num[a[i].key] := num[a[i].key] + 1;
    }
    assert s[..n] == s;
  }

  // ---------------------------------------------------------------- handing out lengths

  /** The symbols `srt[j..]` have received their lengths, at most `i`, the frequent ones first. */
  ghost predicate HandedOut(sizes: seq<nat>, srt: seq<SymFreq>, j: nat, i: nat)
    requires forall q :: 0 <= q < |srt| ==> srt[q].sym < |sizes|
  {
    && (forall q :: 0 <= q < j <= |srt| ==> sizes[srt[q].sym] == 0)
    && (forall q :: j <= q < |srt| ==> 1 <= sizes[srt[q].sym] <= i)
    && (forall q, r :: j <= q < r < |srt| ==> sizes[srt[q].sym] >= sizes[srt[r].sym])
    && (forall x :: 0 <= x < |sizes| && !Occurs(srt, x) ==> sizes[x] == 0)
  }

  ghost predicate CountsSoFar(sizes: seq<nat>, c: seq<int>, i: nat, left: int, limit: nat)
    requires limit < |c|
  {
    forall k :: 1 <= k <= limit ==> Count(sizes, k) == if k < i then c[k] else if k == i then c[k] - left else 0
  }

  ghost predicate DistinctSyms(srt: seq<SymFreq>, len: nat)
  {
    && (forall q :: 0 <= q < |srt| ==> srt[q].sym < len)
    && (forall q, r :: 0 <= q < r < |srt| ==> srt[q].sym != srt[r].sym)
  }

  lemma HandOne(sizes: seq<nat>, srt: seq<SymFreq>, j: nat, i: nat, c: seq<int>, left: int, limit: nat)
    requires 0 < j <= |srt| && 1 <= i <= limit < |c| && left > 0 && DistinctSyms(srt, |sizes|)
    requires HandedOut(sizes, srt, j, i) && CountsSoFar(sizes, c, i, left, limit)
    ensures HandedOut(sizes[srt[j - 1].sym := i], srt, j - 1, i)
    ensures CountsSoFar(sizes[srt[j - 1].sym := i], c, i, left - 1, limit)
  {
    var x := srt[j - 1].sym;
    assert Occurs(srt, x);
    var sizes' := sizes[x := i];
    forall k | 1 <= k <= limit
      ensures Count(sizes', k) == if k < i then c[k] else if k == i then c[k] - (left - 1) else 0
    {
      CountUpdate(sizes, x, i, k);
      assert Count(sizes, k) == if k < i then c[k] else if k == i then c[k] - left else 0;
    }
    assert CountsSoFar(sizes', c, i, left - 1, limit);
  }

  lemma HandNext(sizes: seq<nat>, srt: seq<SymFreq>, j: nat, i: nat, c: seq<int>, limit: nat)
    requires 1 <= i <= limit < |c| && DistinctSyms(srt, |sizes|)
    requires HandedOut(sizes, srt, j, i - 1) && CountsSoFar(sizes, c, i - 1, 0, limit)
    ensures HandedOut(sizes, srt, j, i)
    ensures CountsSoFar(sizes, c, i, c[i], limit)
  {
  }

  lemma HandNone(sizes: seq<nat>, srt: seq<SymFreq>, c: seq<int>, limit: nat)
    requires 1 <= limit < |c| && DistinctSyms(srt, |sizes|) && forall x :: 0 <= x < |sizes| ==> sizes[x] == 0
    ensures HandedOut(sizes, srt, |srt|, 0) && CountsSoFar(sizes, c, 0, 0, limit)
  {
    forall k | 1 <= k <= limit
      ensures Count(sizes, k) == 0
    {
      CountAbsent(sizes, k);
    }
  }

  lemma TotalStep(c: seq<int>, i: nat)
    requires 0 < i < |c|
    ensures L.Total(c, i) == L.Total(c, i - 1) + c[i] && L.Total(c, 0) == 0
  {
  }

  method SetSize(sizes: array<nat>, sym: nat, v: nat) returns (ghost z: seq<nat>)
    requires sym < sizes.Length
    modifies sizes
    ensures z == sizes[..] == old(sizes[..])[sym := v]
  {
    sizes[sym] := v;
    z := sizes[..];
  }

  /** The two nested loops over lengths and counts, walking the sorted symbols from the most frequent. */
  method HandOut(sizes: array<nat>, syms: array<SymFreq>, n: nat, num: array<int>, limit: nat, ghost srt: seq<SymFreq>) returns (ghost u: seq<nat>)
    requires n == |srt| <= syms.Length && num.Length == L.MAX_SUPPORTED_CODE_SIZE + 1
    requires 1 <= limit < num.Length && DistinctSyms(srt, sizes.Length)
    requires forall q :: 0 <= q < n ==> syms[q].sym == srt[q].sym
    requires L.NonNegative(num[..]) && L.Total(num[..], limit) == n
    requires forall x :: 0 <= x < sizes.Length ==> sizes[x] == 0
    modifies sizes
    ensures HandedOut(sizes[..], srt, 0, limit) && HandedAs(sizes[..], srt, 0, u)
    ensures forall k :: 1 <= k <= limit ==> Count(sizes[..], k) == num[k]
  {
    ghost var c := num[..];
    HandNone(sizes[..], srt, c, limit);
    HandedAsNone(sizes[..], srt);
    u := [];
    TotalStep(c, 1);
    var j, i := n, 1;
    ghost var z := sizes[..];
    while i <= limit
      invariant 1 <= i <= limit + 1 && num[..] == c && sizes[..] == z
      invariant j == n - L.Total(c, i - 1) && 0 <= j <= n
      invariant HandedOut(z, srt, j, i - 1) && CountsSoFar(z, c, i - 1, 0, limit) && HandedAs(z, srt, j, u)
    {
      hide *;
      HandNext(z, srt, j, i, c, limit);
      TotalStep(c, i);
      TotalMono(c, i, limit);
      NonNegativeAt(c, i);
      j, z, u := HandLevel(sizes, syms, num[i], i, j, srt, c, limit, z, u);
      i := i + 1;
    }
  }

  /** The inner loop: the symbols that get length `i`. */
  method HandLevel(sizes: array<nat>, syms: array<SymFreq>, num: nat, i: nat, j0: nat, ghost srt: seq<SymFreq>, ghost c: seq<int>, ghost limit: nat,
                   ghost z0: seq<nat>, ghost u0: seq<nat>) returns (j: nat, ghost z: seq<nat>, ghost u: seq<nat>)
    requires |srt| <= syms.Length && (forall q :: 0 <= q < |srt| ==> syms[q].sym == srt[q].sym)
    requires sizes[..] == z0 && DistinctSyms(srt, sizes.Length) && 1 <= i <= limit < |c| && num == c[i] && num <= j0 <= |srt|
    requires HandedOut(z0, srt, j0, i) && CountsSoFar(z0, c, i, num, limit) && HandedAs(z0, srt, j0, u0)
    modifies sizes
    ensures sizes[..] == z && j == j0 - num
    ensures HandedOut(z, srt, j, i) && CountsSoFar(z, c, i, 0, limit) && HandedAs(z, srt, j, u)
  {
    hide *;
    AllDistinctAt(srt, sizes.Length);
    j, z, u := j0, z0, u0;
    var l: nat := num;
    while l > 0
      invariant 0 <= l <= num && j == j0 - (num - l) && sizes[..] == z
      invariant HandedOut(z, srt, j, i) && CountsSoFar(z, c, i, l, limit) && HandedAs(z, srt, j, u)
    {
      HandMore(z, srt, j, i, c, l, limit, u);
      j, u := j - 1, [i] + u;
      z := SetSize(sizes, syms[j].sym, i);
      l := l - 1;
    }
  }

  lemma HandMore(z: seq<nat>, srt: seq<SymFreq>, j: nat, i: nat, c: seq<int>, l: int, limit: nat, u: seq<nat>)
    requires 0 < j <= |srt| && 1 <= i <= limit < |c| && l > 0 && DistinctSyms(srt, |z|)
    requires HandedOut(z, srt, j, i) && CountsSoFar(z, c, i, l, limit) && HandedAs(z, srt, j, u)
    ensures srt[j - 1].sym < |z|
    ensures var z' := z[srt[j - 1].sym := i];
      HandedOut(z', srt, j - 1, i) && CountsSoFar(z', c, i, l - 1, limit) && HandedAs(z', srt, j - 1, [i] + u)
  {
    hide *;
    DistinctAt(srt, |z|, j - 1);
    AllDistinctAt(srt, |z|);
    HandOne(z, srt, j, i, c, l, limit);
    StillZero(z, srt, j, i);
    HandedAsMore(z, srt, j, i, u);
  }

  lemma AllDistinctAt(srt: seq<SymFreq>, len: nat)
    requires DistinctSyms(srt, len)
    ensures forall q :: 0 <= q < |srt| ==> srt[q].sym < len
  {
  }

  lemma StillZero(sizes: seq<nat>, srt: seq<SymFreq>, j: nat, i: nat)
    requires (forall q :: 0 <= q < |srt| ==> srt[q].sym < |sizes|) && HandedOut(sizes, srt, j, i) && 0 < j <= |srt|
    ensures sizes[srt[j - 1].sym] == 0
  {
  }

  lemma HandedAsNone(sizes: seq<nat>, srt: seq<SymFreq>)
    requires forall x :: 0 <= x < |sizes| ==> sizes[x] == 0
    ensures HandedAs(sizes, srt, |srt|, [])
  {
    forall k | 1 <= k
      ensures Count(sizes, k) == Count([], k)
    {
      CountAbsent(sizes, k);
    }
  }

  lemma NonNegativeAt(c: seq<int>, i: nat)
    requires i < |c| && L.NonNegative(c)
    ensures c[i] >= 0
  {
  }

  lemma DistinctAt(srt: seq<SymFreq>, len: nat, q: nat)
    requires DistinctSyms(srt, len) && q < |srt|
    ensures srt[q].sym < len
  {
  }

  // ---------------------------------------------------------------- assigning codes

  /** The code of every used symbol is its canonical code, bit-reversed. */
  ghost predicate CodesAssigned(sizes: seq<nat>, codes: seq<nat>)
  {
    |sizes| == |codes| && forall i :: 0 <= i < |sizes| && sizes[i] > 0 ==> CodeAssigned(sizes, codes[i], i)
  }

  ghost predicate CodeAssigned(sizes: seq<nat>, code: nat, i: nat)
    requires i < |sizes| && sizes[i] > 0
  {
    code < Pow2(sizes[i]) && ToBits(code, sizes[i]) == HuffBits(sizes, i)
  }

  method ReverseBits(code0: nat, len: nat) returns (rev: nat)
    ensures rev < Pow2(len) && ToBits(rev, len) == CodeBits(code0, len)
  {
    rev := 0;
    var code, l := code0, len;
    while l > 0
      invariant 0 <= l <= len
      invariant rev == FromBits(CodeBits(code0, len - l)) && code == code0 / Pow2(len - l)
    {
      CodeBitsHead(code0, len - l + 1);
      assert CodeBits(code0, len - l + 1)[1..] == CodeBits(code0, len - l);
      DivDiv(code0, Pow2(len - l), 2);
      rev := rev * 2 + code % 2;
      code := code / 2;
      l := l - 1;
    }
    FromBitsBound(CodeBits(code0, len));
    ToFromBits(CodeBits(code0, len));
  }

  method FirstCodes(ghost s: seq<nat>, num: array<int>, limit: nat) returns (nextCode: array<int>)
    requires num.Length == L.MAX_SUPPORTED_CODE_SIZE + 1 && 1 <= limit < num.Length
    requires forall l :: 1 <= l <= limit ==> num[l] == Count(s, l)
    ensures fresh(nextCode) && nextCode.Length == num.Length
    ensures forall l :: 1 <= l <= limit ==> nextCode[l] == First(s, l)
  {
    nextCode := new int[L.MAX_SUPPORTED_CODE_SIZE + 1](_ => 0);
    var j, i := 0, 2;
    while i <= limit
      invariant 2 <= i <= limit + 1 || (limit == 1 && i == 2)
      invariant j == First(s, i - 1)
      invariant forall l :: 1 <= l < i ==> nextCode[l] == First(s, l)
    {
      j := (j + num[i - 1]) * 2;
      nextCode[i] := j;
      i := i + 1;
    }
  }

  method AssignCodes(sizes: array<nat>, codes: array<nat>, len: nat, limit: nat, num: array<int>)
    requires sizes.Length == codes.Length && sizes != codes && len <= sizes.Length
    requires num.Length == L.MAX_SUPPORTED_CODE_SIZE + 1 && 1 <= limit < num.Length
    requires LensUpTo(sizes[..], limit) && forall i :: len <= i < sizes.Length ==> sizes[i] == 0
    requires forall l :: 1 <= l <= limit ==> num[l] == Count(sizes[..], l)
    modifies codes
    ensures CodesAssigned(sizes[..], codes[..])
  {
    ghost var s := sizes[..];
    var nextCode := FirstCodes(s, num, limit);
    assert s[..0] == [];
    assert CodesUpTo(s, codes[..], 0) && NextCodes(s, nextCode[..], 0, limit) by {
      CountNone(s);
    }
    for i := 0 to len
      invariant sizes[..] == s
      invariant CodesUpTo(s, codes[..], i) && NextCodes(s, nextCode[..], i, limit)
    {
      hide *;
      var codeSize := sizes[i];
      if codeSize > 0 {
        AssignOne(s, codes, nextCode, i, limit, codeSize);
      } else {
        SkipOne(s, codes[..], nextCode[..], i, limit);
      }
    }
    assert forall k :: len <= k < |s| ==> s[k] == 0;
  }

  /** The codes of the symbols below `i` are in place. */
  ghost predicate CodesUpTo(s: seq<nat>, codes: seq<nat>, i: nat)
  {
    i <= |s| == |codes| && forall k :: 0 <= k < i && s[k] > 0 ==> CodeAssigned(s, codes[k], k)
  }

  /** For each length, the code of its next symbol. */
  ghost predicate NextCodes(s: seq<nat>, next: seq<int>, i: nat, limit: nat)
  {
    i <= |s| && limit < |next| && forall l :: 1 <= l <= limit ==> next[l] == First(s, l) + Count(s[..i], l)
  }

  lemma CountNone(s: seq<nat>)
    ensures s[..0] == [] && forall l :: Count(s[..0], l) == 0
  {
  }

  lemma SkipOne(s: seq<nat>, codes: seq<nat>, next: seq<int>, i: nat, limit: nat)
    requires i < |s| && s[i] == 0 && CodesUpTo(s, codes, i) && NextCodes(s, next, i, limit)
    ensures CodesUpTo(s, codes, i + 1) && NextCodes(s, next, i + 1, limit)
  {
    hide CodeAssigned, First;
    assert s[..i + 1][..i] == s[..i];
  }

  lemma StepOne(s: seq<nat>, codes: seq<nat>, next: seq<int>, i: nat, limit: nat, code: nat, rev: nat)
    requires i < |s| && 0 < s[i] <= limit && CodesUpTo(s, codes, i) && NextCodes(s, next, i, limit)
    requires code == next[s[i]] && rev < Pow2(s[i]) && ToBits(rev, s[i]) == CodeBits(code, s[i])
    ensures CodesUpTo(s, codes[i := rev], i + 1) && NextCodes(s, next[s[i] := code + 1], i + 1, limit)
  {
    assert s[..i + 1][..i] == s[..i];
    hide First, CodeBits, ToBits, Pow2;
    assert code == CodeOf(s, i);
    assert CodeAssigned(s, rev, i);
    hide CodeAssigned;
    forall l | 1 <= l <= limit
      ensures next[s[i] := code + 1][l] == First(s, l) + Count(s[..i + 1], l)
    {
      assert next[l] == First(s, l) + Count(s[..i], l);
    }
  }

  lemma NextCodeAt(s: seq<nat>, next: seq<int>, i: nat, limit: nat)
    requires i < |s| && 0 < s[i] <= limit && NextCodes(s, next, i, limit)
    ensures limit < |next| && next[s[i]] >= 0
  {
  }

  method AssignOne(ghost s: seq<nat>, codes: array<nat>, nextCode: array<int>, i: nat, limit: nat, codeSize: nat)
    requires i < |s| == codes.Length && 0 < codeSize == s[i] <= limit < nextCode.Length
    requires CodesUpTo(s, codes[..], i) && NextCodes(s, nextCode[..], i, limit)
    modifies codes, nextCode
    ensures CodesUpTo(s, codes[..], i + 1) && NextCodes(s, nextCode[..], i + 1, limit)
  {
    hide *;
    ghost var cs, ns := codes[..], nextCode[..];
    NextCodeAt(s, ns, i, limit);
    var code := nextCode[codeSize];
    nextCode[codeSize] := nextCode[codeSize] + 1;
    var rev := ReverseBits(code, codeSize);
    codes[i] := rev;
    StepOne(s, cs, ns, i, limit, code, rev);
    assert codes[..] == cs[i := rev] && nextCode[..] == ns[codeSize := code + 1];
  }

  // ---------------------------------------------------------------- the table

  /**
   What building a table promises: exactly the used symbols get a length, within the limit; a more
   frequent symbol never gets the longer one; two or more symbols make a complete code.
   */
  ghost predicate Optimized(counts: seq<nat>, sizes: seq<nat>, len: nat, limit: nat)
    requires len <= |counts| == |sizes|
  {
    && LensUpTo(sizes, limit) && Kraft(sizes, limit)
    && (forall i :: 0 <= i < len ==> (sizes[i] > 0 <==> counts[i] > 0))
    && (forall i :: len <= i < |sizes| ==> sizes[i] == 0)
    && (forall i, j :: 0 <= i < len && 0 <= j < len && counts[i] > counts[j] > 0 ==> sizes[i] <= sizes[j])
    && (NumUsed(counts, len) >= 2 ==> Complete(sizes, limit))
    && (NumUsed(counts, len) <= 1 ==> LensUpTo(sizes, 1))
  }

  lemma SortedCollection(s: seq<SymFreq>, srt: seq<SymFreq>, counts: seq<nat>, len: nat)
    requires len <= |counts| && Collected(s, counts, len) && StablePermutation(s, srt)
    ensures Collected(srt, counts, len) && |srt| == |s|
  {
    StableIsPermutation(s, srt);
    CollectedPermutation(s, srt, counts, len);
  }

  lemma CollectedDistinct(srt: seq<SymFreq>, counts: seq<nat>, len: nat, m: nat)
    requires len <= |counts| && len <= m && Collected(srt, counts, len)
    ensures DistinctSyms(srt, m) && forall q :: 0 <= q < |srt| ==> srt[q].key >= 1
  {
  }

  /** The counts handed to the limiter are those of a complete code, or of at most one symbol. */
  lemma LengthCounts(s: seq<nat>, limit: nat)
    requires 0 !in s && 1 <= limit <= L.MAX_SUPPORTED_CODE_SIZE
    requires if |s| >= 2 then Complete(s, 22) else LensUpTo(s, 1)
    ensures LensUpTo(s, L.MAX_SUPPORTED_CODE_SIZE)
    ensures var c := L.Counts(s, L.MAX_SUPPORTED_CODE_SIZE);
      && L.NonNegative(c) && L.Total(c, L.MAX_SUPPORTED_CODE_SIZE) == |s|
      && (|s| > 1 ==> L.KraftSum(c, L.MAX_SUPPORTED_CODE_SIZE) == Pow2(L.MAX_SUPPORTED_CODE_SIZE))
      && (|s| <= 1 ==> L.Total(c, limit) == |s|)
  {
    var m := L.MAX_SUPPORTED_CODE_SIZE;
    L.TotalCounts(s, m, m);
    L.KraftIsUsed(s, L.Counts(s, m), m);
    if |s| >= 2 {
      CompleteRaise(s, 22, m);
    } else {
      L.TotalCounts(s, m, limit);
    }
  }

  /** From handed-out lengths to the promise. */
  lemma HandedIsOptimized(counts: seq<nat>, sizes: seq<nat>, srt: seq<SymFreq>, c: seq<int>, len: nat, limit: nat)
    requires len <= |counts| == |sizes| && Collected(srt, counts, len) && SortedByKey(srt) && |srt| == NumUsed(counts, len)
    requires DistinctSyms(srt, |sizes|) && HandedOut(sizes, srt, 0, limit) && 1 <= limit < |c|
    requires L.Total(c, limit) == |srt| && (|srt| > 1 ==> L.KraftSum(c, limit) == Pow2(limit))
    requires forall k :: 1 <= k <= limit ==> Count(sizes, k) == c[k]
    requires |srt| <= 1 ==> LensUpTo(sizes, 1)
    ensures Optimized(counts, sizes, len, limit)
  {
    hide Used, Count, L.Total, L.KraftSum, NumUsed, Pow2;
    L.KraftIsUsed(sizes, c, limit);
    if |srt| <= 1 {
      FewFit(sizes, c, limit);
    }
    forall i | 0 <= i < |sizes|
      ensures i < len ==> (sizes[i] > 0 <==> counts[i] > 0)
      ensures i >= len ==> sizes[i] == 0
    {
      if Occurs(srt, i) {
        var q :| 0 <= q < |srt| && srt[q].sym == i;
      }
    }
    forall i, j | 0 <= i < len && 0 <= j < len && counts[i] > counts[j] > 0
      ensures sizes[i] <= sizes[j]
    {
      assert Occurs(srt, i) && Occurs(srt, j);
      var q :| 0 <= q < |srt| && srt[q].sym == i;
      var r :| 0 <= r < |srt| && srt[r].sym == j;
    }
  }

  lemma {:induction false} FewFit(sizes: seq<nat>, c: seq<int>, limit: nat)
    requires 1 <= limit < |c| && LensUpTo(sizes, 1) && L.Total(c, limit) <= 1
    requires forall k :: 1 <= k <= limit ==> Count(sizes, k) == c[k]
    ensures Used(sizes, limit) <= Pow2(limit)
  {
    TotalAtLeast(c, limit, 1);
    assert Used(sizes, 1) == 2 * Used(sizes, 0) + Count(sizes, 1) && Used(sizes, 0) == 0;
    UsedBeyond(sizes, 1, limit);
    Pow2Mono(limit - 1, limit);
    MulMono(Used(sizes, 1), 1, Pow2(limit - 1));
  }

  lemma {:induction false} TotalAtLeast(c: seq<int>, l: nat, k: nat)
    requires 1 <= k <= l < |c| && forall i :: 1 <= i <= l ==> c[i] >= 0
    ensures L.Total(c, l) >= c[k] && L.Total(c, l) >= 0
  {
    if l > k {
      TotalAtLeast(c, l - 1, k);
    } else {
      TotalPositive(c, l - 1);
    }
  }

  lemma {:induction false} TotalPositive(c: seq<int>, l: nat)
    requires l < |c| && forall i :: 1 <= i <= l ==> c[i] >= 0
    ensures L.Total(c, l) >= 0
  {
    if l > 0 {
      TotalPositive(c, l - 1);
    }
  }

  lemma FewCounted(sizes: seq<nat>, s: seq<nat>, limit: nat)
    requires LensUpTo(s, 1) && LensUpTo(sizes, limit)
    requires forall k :: 1 <= k <= limit ==> Count(sizes, k) == Count(s, k)
    ensures LensUpTo(sizes, 1)
  {
    forall i | 0 <= i < |sizes|
      ensures sizes[i] <= 1
    {
      CountPrefix(sizes, i, sizes[i]);
      if sizes[i] > 1 {
        CountAbsent(s, sizes[i]);
      }
    }
  }

  ghost predicate CountsOfFew(c: seq<int>, m: nat)
  {
    exists s :: LensUpTo(s, 1) && c == L.Counts(s, m)
  }

  lemma OptimizedFrom(counts: seq<nat>, sizes: seq<nat>, srt: seq<SymFreq>, c: seq<int>, len: nat, limit: nat)
    requires len <= |counts| == |sizes| && Collected(srt, counts, len) && SortedByKey(srt) && |srt| == NumUsed(counts, len)
    requires DistinctSyms(srt, |sizes|) && HandedOut(sizes, srt, 0, limit) && 1 <= limit < |c|
    requires L.Total(c, limit) == |srt| && (|srt| > 1 ==> L.KraftSum(c, limit) == Pow2(limit))
    requires forall k :: 1 <= k <= limit ==> Count(sizes, k) == c[k]
    requires |srt| <= 1 ==> CountsOfFew(c, |c| - 1)
    ensures Optimized(counts, sizes, len, limit)
  {
    if |srt| <= 1 {
      var s :| LensUpTo(s, 1) && c == L.Counts(s, |c| - 1);
      assert LensUpTo(sizes, limit) by {
        forall x | 0 <= x < |sizes|
          ensures sizes[x] <= limit
        {
          if Occurs(srt, x) {
            var q :| 0 <= q < |srt| && srt[q].sym == x;
          }
        }
      }
      FewCounted(sizes, s, limit);
    }
    HandedIsOptimized(counts, sizes, srt, c, len, limit);
  }

  lemma OptimizedLens(counts: seq<nat>, sizes: seq<nat>, len: nat, limit: nat)
    requires len <= |counts| == |sizes| && Optimized(counts, sizes, len, limit)
    ensures LensUpTo(sizes, limit) && forall i :: len <= i < |sizes| ==> sizes[i] == 0
  {
  }

  // ---------------------------------------------------------------- what the table costs

  /** No code within Kraft's inequality saves more than one bit a symbol. */
  ghost predicate Thrifty(w: seq<nat>, t: seq<nat>)
  {
    |t| == |w| && forall r: seq<nat>, m: nat :: |r| == |w| && Feasible(r, m) ==> Cost(w, t) <= Cost(w, r) + Sum(w)
  }

  /** The limited lengths, longest first, and their counts. */
  ghost predicate LimitedLens(c: seq<int>, t: seq<nat>, n: nat, limit: nat)
  {
    |t| == n && L.Tallies(c, t, limit) && Descending(t) && 0 !in t && LensUpTo(t, limit)
  }

  lemma BeLimitedLens(c: seq<int>, t: seq<nat>, n: nat, limit: nat)
    requires |t| == n && L.Tallies(c, t, limit) && Descending(t) && 0 !in t && LensUpTo(t, limit)
    ensures LimitedLens(c, t, n, limit)
  {
  }

  lemma KeysOf(a: array<SymFreq>, n: nat)
    requires n <= a.Length
    ensures |Keys(a[..n])| == n && forall k :: 0 <= k < n ==> Keys(a[..n])[k] == a[k].key
  {
  }

  lemma CountsAreLengths(s: seq<nat>)
    requires Descending(s) && 0 !in s && LensUpTo(s, L.MAX_SUPPORTED_CODE_SIZE)
    ensures L.Lengths(L.Counts(s, L.MAX_SUPPORTED_CODE_SIZE), s)
  {
  }

  lemma {:induction false} CostOnes(w: seq<nat>, s: seq<nat>)
    requires |w| == |s| && forall k :: 0 <= k < |s| ==> s[k] == 1
    ensures Cost(w, s) == Sum(w)
  {
    if w != [] {
      CostOnes(w[1..], s[1..]);
    }
  }

  lemma FewLens(s: seq<nat>, w: seq<nat>, c: seq<int>, limit: nat)
    requires |s| == |w| <= 1 && c == L.Counts(s, L.MAX_SUPPORTED_CODE_SIZE) && 1 <= limit <= L.MAX_SUPPORTED_CODE_SIZE
    requires |s| == 1 ==> s[0] == 1
    ensures LimitedLens(c, s, |s|, limit) && Thrifty(w, s) && CountsOfFew(c, L.MAX_SUPPORTED_CODE_SIZE)
  {
    hide Cost, Feasible, Sum;
    assert forall k :: 0 <= k < |s| ==> s[k] in s;
    CostOnes(w, s);
  }

  lemma LimitedThrifty(w: seq<nat>, s: seq<nat>, t: seq<nat>)
    requires Cheapest(w, s) && Light(w, s, Sum(w)) && Complete(s, 22) && |w| <= 288
    requires Descending(s) && 0 !in s && Limited(s, t, LIMIT)
    ensures Thrifty(w, t)
  {
    hide Cost, Feasible, Sum, Light, Limited, Shares, Used, Pow2, Descending;
    CompleteRaise(s, 22, LONGEST);
    UsedIsShares(s, LONGEST);
    LimitingCheap(w, s, t, Sum(w));
    LimitedLength(s, t);
  }

  lemma LimitedLength(s: seq<nat>, t: seq<nat>)
    requires Limited(s, t, LIMIT)
    ensures |t| == |s|
  {
  }

  /** The handed-out lengths, in the order of the sorted symbols. */
  ghost predicate HandedAs(sizes: seq<nat>, srt: seq<SymFreq>, j: nat, u: seq<nat>)
  {
    && j <= |srt| && |u| == |srt| - j
    && (forall q :: j <= q < |srt| ==> srt[q].sym < |sizes| && sizes[srt[q].sym] == u[q - j])
    && (forall k :: 1 <= k ==> Count(sizes, k) == Count(u, k))
  }

  lemma HandedAsMore(sizes: seq<nat>, srt: seq<SymFreq>, j: nat, i: nat, u: seq<nat>)
    requires 0 < j && HandedAs(sizes, srt, j, u) && DistinctSyms(srt, |sizes|) && sizes[srt[j - 1].sym] == 0 && i > 0
    ensures HandedAs(sizes[srt[j - 1].sym := i], srt, j - 1, [i] + u)
  {
    var x := srt[j - 1].sym;
    forall k | 1 <= k
      ensures Count(sizes[x := i], k) == Count([i] + u, k)
    {
      CountUpdate(sizes, x, i, k);
      CountConcat([i], u, k);
      assert [i][..0] == [];
    }
  }

  ghost predicate SameTallies(u: seq<nat>, t: seq<nat>)
  {
    forall k :: 1 <= k ==> Count(u, k) == Count(t, k)
  }

  lemma LastSame(u: seq<nat>, t: seq<nat>)
    requires Descending(u) && Descending(t) && |u| == |t| > 0 && SameTallies(u, t) && 0 !in u && 0 !in t
    ensures u[|u| - 1] == t[|t| - 1] && SameTallies(u[..|u| - 1], t[..|t| - 1])
  {
    var n := |u| - 1;
    var a, b := u[n], t[n];
    assert a in u && b in t;
    assert Count(u, a) == Count(t, a) && Count(u, b) == Count(t, b);
    L.CountedIsThere(u, a);
    L.CountedIsThere(t, a);
    L.CountedIsThere(t, b);
    L.CountedIsThere(u, b);
    assert a in t && b in u;
    forall k | 1 <= k
      ensures Count(u[..n], k) == Count(t[..n], k)
    {
      assert Count(u, k) == Count(t, k);
    }
  }

  /** Lengths in descending order are known by their counts. */
  lemma {:induction false} SameLengths(u: seq<nat>, t: seq<nat>)
    requires Descending(u) && Descending(t) && |u| == |t| && SameTallies(u, t) && 0 !in u && 0 !in t
    ensures u == t
  {
    if u != [] {
      hide Count, SameTallies;
      var n := |u| - 1;
      LastSame(u, t);
      assert u == u[..n] + [u[n]] && t == t[..n] + [t[n]];
      assert forall x :: x in u[..n] ==> x in u;
      assert forall x :: x in t[..n] ==> x in t;
      SameLengths(u[..n], t[..n]);
    }
  }

  /** Bits for all symbols below `n`. */
  ghost function SymCost(counts: seq<nat>, lens: seq<nat>, n: nat): nat
    requires n <= |counts| && n <= |lens|
  {
    if n == 0 then 0 else SymCost(counts, lens, n - 1) + counts[n - 1] * lens[n - 1]
  }

  /** Lengths in the order of the sorted symbols. */
  ghost function InOrder(srt: seq<SymFreq>, lens: seq<nat>): (r: seq<nat>)
    requires forall q :: 0 <= q < |srt| ==> srt[q].sym < |lens|
    ensures |r| == |srt| && forall q :: 0 <= q < |srt| ==> r[q] == lens[srt[q].sym]
  {
    seq(|srt|, q requires 0 <= q < |srt| => lens[srt[q].sym])
  }

  lemma CollectedLess(srt: seq<SymFreq>, counts: seq<nat>, len: nat, q: nat)
    requires 0 < len <= |counts| && Collected(srt, counts, len) && q < |srt| && srt[q].sym == len - 1
    ensures Collected(srt[..q] + srt[q + 1..], counts, len - 1)
  {
    var t := srt[..q] + srt[q + 1..];
    assert forall k :: 0 <= k < |t| ==> t[k] == srt[if k < q then k else k + 1];
    forall i | 0 <= i < len - 1 && counts[i] > 0
      ensures Occurs(t, i)
    {
      assert Occurs(srt, i);
      var r :| 0 <= r < |srt| && srt[r].sym == i;
      assert t[if r < q then r else r - 1].sym == i;
    }
  }

  lemma CollectedUnused(srt: seq<SymFreq>, counts: seq<nat>, len: nat)
    requires 0 < len <= |counts| && Collected(srt, counts, len) && forall q :: 0 <= q < |srt| ==> srt[q].sym != len - 1
    ensures counts[len - 1] == 0 && Collected(srt, counts, len - 1)
  {
    assert counts[len - 1] > 0 ==> Occurs(srt, len - 1);
  }

  /** Sorting does not change the cost, and unused symbols cost nothing. */
  lemma {:induction false} CostBySymbol(srt: seq<SymFreq>, counts: seq<nat>, lens: seq<nat>, len: nat, m: nat)
    requires len <= |counts| && len <= |lens| && Collected(srt, counts, len)
    ensures Cost(Keys(srt), InOrder(srt, lens)) == SymCost(counts, lens, len)
    ensures Shares(InOrder(srt, lens), m) <= Shares(lens[..len], m)
  {
    hide *;
    if len == 0 {
      NoneCollected(srt, counts, lens, m);
    } else {
      SymCostNext(counts, lens, len);
      SharesSnoc(lens, len - 1, m);
      if exists q :: 0 <= q < |srt| && srt[q].sym == len - 1 {
        var q: nat :| q < |srt| && srt[q].sym == len - 1;
        CollectedSyms(srt, counts, len);
        CollectedKey(srt, counts, len, q);
        CollectedLess(srt, counts, len, q);
        CostBySymbol(srt[..q] + srt[q + 1..], counts, lens, len - 1, m);
        RemoveOne(srt, lens, q, m);
      } else {
        CollectedUnused(srt, counts, len);
        CostBySymbol(srt, counts, lens, len - 1, m);
      }
    }
  }

  lemma NoneCollected(srt: seq<SymFreq>, counts: seq<nat>, lens: seq<nat>, m: nat)
    requires Collected(srt, counts, 0)
    ensures forall q :: 0 <= q < |srt| ==> srt[q].sym < |lens|
    ensures srt == [] && Cost(Keys(srt), InOrder(srt, lens)) == SymCost(counts, lens, 0) == 0
    ensures Shares(InOrder(srt, lens), m) == 0
  {
    assert srt != [] ==> srt[0].sym < 0;
    assert Keys(srt) == [] && InOrder(srt, lens) == [];
  }

  lemma CollectedKey(srt: seq<SymFreq>, counts: seq<nat>, len: nat, q: nat)
    requires len <= |counts| && Collected(srt, counts, len) && q < |srt|
    ensures srt[q].sym < len && srt[q].key == counts[srt[q].sym]
  {
  }

  lemma SymCostNext(counts: seq<nat>, lens: seq<nat>, n: nat)
    requires 0 < n <= |counts| && n <= |lens|
    ensures SymCost(counts, lens, n) == SymCost(counts, lens, n - 1) + counts[n - 1] * lens[n - 1]
    ensures counts[n - 1] == 0 ==> SymCost(counts, lens, n) == SymCost(counts, lens, n - 1)
  {
  }

  lemma RemoveOne(srt: seq<SymFreq>, lens: seq<nat>, q: nat, m: nat)
    requires q < |srt| && forall k :: 0 <= k < |srt| ==> srt[k].sym < |lens|
    ensures var t := srt[..q] + srt[q + 1..];
      && (forall k :: 0 <= k < |t| ==> t[k].sym < |lens|)
      && Cost(Keys(srt), InOrder(srt, lens)) == srt[q].key * lens[srt[q].sym] + Cost(Keys(t), InOrder(t, lens))
      && Shares(InOrder(srt, lens), m) == Share(lens[srt[q].sym], m) + Shares(InOrder(t, lens), m)
  {
    var t := srt[..q] + srt[q + 1..];
    assert forall k :: 0 <= k < |t| ==> t[k] == srt[if k < q then k else k + 1];
    assert Keys(t) == Remove(Keys(srt), q) && InOrder(t, lens) == Remove(InOrder(srt, lens), q);
    hide Cost, Shares, Share;
    CostRemove(Keys(srt), InOrder(srt, lens), q);
    SharesRemove(InOrder(srt, lens), m, q);
  }

  /**
   No code for all the symbols that Kraft's inequality allows saves more than one bit for each symbol
   counted.
   */
  ghost predicate Economical(counts: seq<nat>, sizes: seq<nat>, len: nat)
    requires len <= |counts| == |sizes|
  {
    forall r: seq<nat>, m: nat :: |r| == len && Feasible(r, m) ==> SymCost(counts, sizes, len) <= SymCost(counts, r, len) + SumTo(counts, len)
  }

  lemma SumBySymbol(srt: seq<SymFreq>, counts: seq<nat>, len: nat)
    requires len <= |counts| && Collected(srt, counts, len)
    ensures Sum(Keys(srt)) == SumTo(counts, len)
  {
    var ones: seq<nat> := seq(|counts|, _ => 1);
    CostBySymbol(srt, counts, ones, len, 0);
    CostOnes(Keys(srt), InOrder(srt, ones));
    SumOnes(counts, ones, len);
  }

  lemma {:induction false} SumOnes(counts: seq<nat>, ones: seq<nat>, n: nat)
    requires n <= |counts| == |ones| && forall k :: 0 <= k < |ones| ==> ones[k] == 1
    ensures SymCost(counts, ones, n) == SumTo(counts, n)
  {
    if n > 0 {
      SumOnes(counts, ones, n - 1);
    }
  }

  lemma InOrderFeasible(srt: seq<SymFreq>, counts: seq<nat>, r: seq<nat>, len: nat, m: nat)
    requires len <= |counts| && |r| == len && Collected(srt, counts, len) && Feasible(r, m)
    ensures Feasible(InOrder(srt, r), m) && Cost(Keys(srt), InOrder(srt, r)) == SymCost(counts, r, len)
  {
    CostBySymbol(srt, counts, r, len, m);
    assert r[..len] == r;
  }

  lemma ThriftyIsEconomical(counts: seq<nat>, sizes: seq<nat>, srt: seq<SymFreq>, t: seq<nat>, len: nat)
    requires len <= |counts| == |sizes| && Collected(srt, counts, len) && Thrifty(Keys(srt), t)
    requires forall q :: 0 <= q < |srt| ==> srt[q].sym < |sizes|
    requires t == InOrder(srt, sizes)
    ensures Economical(counts, sizes, len)
  {
    hide Cost, Feasible, Sum, SymCost, SumTo, Collected;
    CostBySymbol(srt, counts, sizes, len, 0);
    SumBySymbol(srt, counts, len);
    forall r: seq<nat>, m: nat | |r| == len && Feasible(r, m)
      ensures SymCost(counts, sizes, len) <= SymCost(counts, r, len) + SumTo(counts, len)
    {
      assert |sizes| >= len;
      CollectedSyms(srt, counts, len);
      InOrderFeasible(srt, counts, r, len, m);
    }
  }

  lemma CollectedSyms(srt: seq<SymFreq>, counts: seq<nat>, len: nat)
    requires len <= |counts| && Collected(srt, counts, len)
    ensures forall q :: 0 <= q < |srt| ==> srt[q].sym < len
  {
  }

  lemma HandedIsLimited(sizes: seq<nat>, srt: seq<SymFreq>, u: seq<nat>, c: seq<int>, t: seq<nat>, limit: nat)
    requires DistinctSyms(srt, |sizes|) && HandedOut(sizes, srt, 0, limit) && HandedAs(sizes, srt, 0, u)
    requires LimitedLens(c, t, |srt|, limit) && limit < |c| && forall k :: 1 <= k <= limit ==> Count(sizes, k) == c[k]
    ensures t == InOrder(srt, sizes)
  {
    HandedDescends(sizes, srt, u, limit);
    LimitedParts(c, t, |srt|, limit);
    forall k | 1 <= k
      ensures Count(u, k) == Count(t, k)
    {
      if k > limit {
        CountAbsent(t, k);
        CountAbsent(u, k);
      }
    }
    hide Count, HandedOut, HandedAs, LimitedLens, DistinctSyms;
    SameLengths(u, t);
  }

  lemma LimitedParts(c: seq<int>, t: seq<nat>, n: nat, limit: nat)
    requires LimitedLens(c, t, n, limit)
    ensures |t| == n && Descending(t) && 0 !in t && LensUpTo(t, limit) && limit < |c| && forall k :: 1 <= k <= limit ==> c[k] == Count(t, k)
  {
  }

  lemma HandedDescends(sizes: seq<nat>, srt: seq<SymFreq>, u: seq<nat>, limit: nat)
    requires (forall q :: 0 <= q < |srt| ==> srt[q].sym < |sizes|) && HandedOut(sizes, srt, 0, limit) && HandedAs(sizes, srt, 0, u)
    ensures |u| == |srt| && u == InOrder(srt, sizes) && Descending(u) && 0 !in u && LensUpTo(u, limit)
    ensures forall k :: 1 <= k ==> Count(sizes, k) == Count(u, k)
  {
    assert forall q :: 0 <= q < |srt| ==> u[q] == sizes[srt[q].sym];
  }

  lemma SizesGood(cs: seq<nat>, sizes: seq<nat>, srt: seq<SymFreq>, u: seq<nat>, c: seq<int>, t: seq<nat>, len: nat, limit: nat)
    requires len <= |cs| == |sizes| == MAX_HUFF_SYMBOLS && Collected(srt, cs, len) && SortedByKey(srt) && |srt| == NumUsed(cs, len)
    requires DistinctSyms(srt, |sizes|) && HandedOut(sizes, srt, 0, limit) && HandedAs(sizes, srt, 0, u) && 1 <= limit < |c|
    requires L.Total(c, limit) == |srt| && (|srt| > 1 ==> L.KraftSum(c, limit) == Pow2(limit))
    requires (forall k :: 1 <= k <= limit ==> Count(sizes, k) == c[k]) && (|srt| <= 1 ==> CountsOfFew(c, |c| - 1))
    requires LimitedLens(c, t, |srt|, limit) && (limit == LIMIT ==> Thrifty(Keys(srt), t))
    ensures Optimized(cs, sizes, len, limit) && (limit == LIMIT ==> Economical(cs, sizes, len))
  {
    hide *;
    OptimizedFrom(cs, sizes, srt, c, len, limit);
    HandedIsLimited(sizes, srt, u, c, t, limit);
    if limit == LIMIT {
      AllDistinctAt(srt, |sizes|);
      ThriftyIsEconomical(cs, sizes, srt, t, len);
    }
  }

  lemma TableLength(t: HuffTable)
    requires t.Valid()
    ensures t.counts.Length == t.sizes.Length == t.codes.Length == MAX_HUFF_SYMBOLS
  {
  }

  lemma SupportedLimit(limit: nat)
    requires limit <= 15
    ensures limit <= L.MAX_SUPPORTED_CODE_SIZE && MAX_HUFF_SYMBOLS == 288
  {
  }

  lemma SymsStay(a: seq<SymFreq>, srt: seq<SymFreq>, n: nat)
    requires |srt| == n <= |a| && exists b: seq<SymFreq> :: |b| == |a| && b[..n] == srt && SameSyms(a, b, n)
    ensures forall q :: 0 <= q < n ==> a[q].sym == srt[q].sym
  {
    var b: seq<SymFreq> :| |b| == |a| && b[..n] == srt && SameSyms(a, b, n);
    assert forall q :: 0 <= q < n ==> b[q] == srt[q];
  }

  /** One Huffman table of the compressor: counts in, code lengths and bit-reversed codes out. */
  class HuffTable {
    const counts: array<nat>
    const sizes: array<nat>
    const codes: array<nat>

    ghost predicate Valid()
    {
      && counts.Length == sizes.Length == codes.Length == MAX_HUFF_SYMBOLS
      && counts != sizes && counts != codes && sizes != codes
    }

    ghost function Arrays(): set<array<nat>>
    {
      {counts, sizes, codes}
    }

    constructor ()
      ensures Valid() && fresh(counts) && fresh(sizes) && fresh(codes)
      ensures forall i :: 0 <= i < MAX_HUFF_SYMBOLS ==> counts[i] == sizes[i] == 0
    {
      counts := new nat[MAX_HUFF_SYMBOLS](_ => 0);
      sizes := new nat[MAX_HUFF_SYMBOLS](_ => 0);
      codes := new nat[MAX_HUFF_SYMBOLS](_ => 0);
    }

    /** Sorted frequencies become lengths, limited and counted by length. */
    method LimitedCounts(syms: array<SymFreq>, n: nat, limit: nat) returns (num: array<int>, ghost t: seq<nat>)
      requires n <= syms.Length && n < 0x1_0000 && 1 <= limit <= L.MAX_SUPPORTED_CODE_SIZE && n <= Pow2(limit)
      requires SortedByKey(syms[..n]) && Sum(Keys(syms[..n])) < 0x1_0000
      requires forall k :: 0 <= k < n ==> syms[k].key >= 1
      modifies syms
      ensures SameSyms(syms[..], old(syms[..]), n)
      ensures fresh(num) && num.Length == L.MAX_SUPPORTED_CODE_SIZE + 1
      ensures L.NonNegative(num[..]) && L.Total(num[..], limit) == n
      ensures n > 1 ==> L.KraftSum(num[..], limit) == Pow2(limit)
      ensures n <= 1 ==> CountsOfFew(num[..], L.MAX_SUPPORTED_CODE_SIZE)
      ensures LimitedLens(num[..], t, n, limit) && (limit == LIMIT && n <= 288 ==> Thrifty(Keys(old(syms[..n])), t))
    {
      hide *;
      ghost var w := Keys(syms[..n]);
      CalculateMinimumRedundancy(syms, n);
      ghost var s := Keys(syms[..n]);
      KeysOf(syms, n);
      LengthCounts(s, limit);
      num := CountLengths(s, syms, n);
      CountsAreLengths(s);
      t := L.EnforceMaxCodeSize(num, n, limit, s);
      if n <= 1 {
        FewLens(s, w, num[..], limit);
      } else {
        BeLimitedLens(num[..], t, n, limit);
        if limit == LIMIT && n <= 288 {
          LimitedThrifty(w, s, t);
        }
      }
    }

    method Clear()
      requires Valid()
      modifies sizes, codes
      ensures forall i :: 0 <= i < MAX_HUFF_SYMBOLS ==> sizes[i] == 0
    {
      for i := 0 to MAX_HUFF_SYMBOLS
        invariant forall k :: 0 <= k < i ==> sizes[k] == 0
      {
        sizes[i] := 0;
        codes[i] := 0;
      }
    }

    method SortedSyms(len: nat) returns (syms: array<SymFreq>, n: nat)
      requires Valid() && len <= MAX_HUFF_SYMBOLS && SumTo(counts[..], len) < 0x1_0000
      ensures fresh(syms) && n == NumUsed(counts[..], len) <= syms.Length
      ensures Collected(syms[..n], counts[..], len) && SortedByKey(syms[..n])
      ensures Sum(Keys(syms[..n])) < 0x1_0000
    {
      var syms0 := new SymFreq[MAX_HUFF_SYMBOLS](_ => SymFreq(0, 0));
      var syms1 := new SymFreq[MAX_HUFF_SYMBOLS](_ => SymFreq(0, 0));
      SumToBounds(counts[..], len);
      n := CollectSyms(counts, len, syms0);
      ghost var s := syms0[..n];
      hide *;
      syms := RadixSortSyms(n, syms0, syms1);
      SortedCollection(s, syms[..n], counts[..], len);
      SumBySymbol(syms[..n], counts[..], len);
    }

    /** The sorted symbols get their lengths. */
    method LimitedSizes(syms: array<SymFreq>, n: nat, limit: nat, ghost srt: seq<SymFreq>, ghost cs: seq<nat>, ghost len: nat) returns (num: array<int>)
      requires Valid() && n <= syms.Length && n <= len <= MAX_HUFF_SYMBOLS == |cs| && 1 <= limit <= 15 && n <= Pow2(limit)
      requires srt == syms[..n] && Collected(srt, cs, len) && SortedByKey(srt) && Sum(Keys(srt)) < 0x1_0000 && n == NumUsed(cs, len)
      modifies syms, sizes, codes
      ensures fresh(num) && num.Length == L.MAX_SUPPORTED_CODE_SIZE + 1
      ensures Optimized(cs, sizes[..], len, limit) && (limit == LIMIT ==> Economical(cs, sizes[..], len))
      ensures forall l :: 1 <= l <= limit ==> num[l] == Count(sizes[..], l)
    {
      hide *;
      ghost var t, u;
      SupportedLimit(limit);
      TableLength(this);
      CollectedDistinct(srt, cs, len, MAX_HUFF_SYMBOLS);
      num, t := LimitedCounts(syms, n, limit);
      Clear();
      SymsStay(syms[..], srt, n);
      u := HandOut(sizes, syms, n, num, limit, srt);
      SizesGood(cs, sizes[..], srt, u, num[..], t, len, limit);
    }

    /** The dynamic case: new lengths from the counts. */
    method Optimize(len: nat, limit: nat)
      requires Valid() && 1 <= len <= MAX_HUFF_SYMBOLS && 1 <= limit <= 15 && len <= Pow2(limit)
      requires SumTo(counts[..], len) < 0x1_0000
      modifies sizes, codes
      ensures Optimized(counts[..], sizes[..], len, limit) && CodesAssigned(sizes[..], codes[..])
      ensures limit == LIMIT ==> Economical(counts[..], sizes[..], len)
    {
      ghost var cs := counts[..];
      var syms, n := SortedSyms(len);
      ghost var srt := syms[..n];
      CollectedDistinct(srt, cs, len, MAX_HUFF_SYMBOLS);
      hide *;
      var num := LimitedSizes(syms, n, limit, srt, cs, len);
      OptimizedLens(cs, sizes[..], len, limit);
      AssignCodes(sizes, codes, len, limit, num);
    }

    /** The static case: the lengths are given and only the codes are computed. */
    method AssignStatic(len: nat, limit: nat)
      requires Valid() && len <= MAX_HUFF_SYMBOLS && 1 <= limit <= L.MAX_SUPPORTED_CODE_SIZE
      requires LensUpTo(sizes[..], limit) && forall i :: len <= i < MAX_HUFF_SYMBOLS ==> sizes[i] == 0
      modifies codes
      ensures CodesAssigned(sizes[..], codes[..])
    {
      ghost var s := sizes[..];
      var num := new int[L.MAX_SUPPORTED_CODE_SIZE + 1](_ => 0);
      CountNone(s);
      for i := 0 to len
        invariant sizes[..] == s && forall l :: 0 <= l <= L.MAX_SUPPORTED_CODE_SIZE ==> num[l] == Count(s[..i], l)
      {
        assert s[..i + 1][..i] == s[..i] && s[..i + 1][i] == sizes[i] <= limit;
        num[sizes[i]] := num[sizes[i]] + 1;
      }
      CountTail(s, len);
      hide CodesAssigned, Count;
      AssignCodes(sizes, codes, len, limit, num);
    }
  }

  lemma CountTail(s: seq<nat>, len: nat)
    requires len <= |s| && forall i :: len <= i < |s| ==> s[i] == 0
    ensures forall l :: 1 <= l ==> Count(s, l) == Count(s[..len], l)
  {
    assert s == s[..len] + s[len..];
    forall l | 1 <= l
      ensures Count(s, l) == Count(s[..len], l)
    {
      CountConcat(s[..len], s[len..], l);
      CountAbsent(s[len..], l);
    }
  }

  lemma {:induction false} SumToBump(c: seq<nat>, i: nat, n: nat)
    requires i < |c| && n <= |c|
    ensures SumTo(c[i := c[i] + 1], n) == SumTo(c, n) + (if i < n then 1 else 0)
  {
    if n > 0 {
      SumToBump(c, i, n - 1);
    }
  }

  lemma {:induction false} SumToZero(c: seq<nat>, n: nat)
    requires n <= |c| && forall i :: 0 <= i < n ==> c[i] == 0
    ensures SumTo(c, n) == 0
  {
    if n > 0 {
      SumToZero(c, n - 1);
    }
  }

  lemma {:induction false} SumToBounds(counts: seq<nat>, n: nat)
    requires n <= |counts|
    ensures forall i :: 0 <= i < n ==> counts[i] <= SumTo(counts, n)
  {
    if n > 0 {
      SumToBounds(counts, n - 1);
    }
  }
}
