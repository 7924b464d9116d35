/**
 The two-pass radix sort that orders symbols by frequency (miniz.c, `tdefl_radix_sort_syms`).

 A pass distributes the records over 256 buckets by one byte of the key. The result is
 specified independently of buckets: sorted by key, and records of equal key keep their order.
 */
module RadixSort {
  import opened Bits

  datatype SymFreq = SymFreq(key: u16, sym: u16)

  ghost predicate SortedByKey(s: seq<SymFreq>)
  {
    forall i, j :: 0 <= i < j < |s| ==> s[i].key <= s[j].key
  }

  /** The records of one key, in order. */
  ghost function ByKey(s: seq<SymFreq>, k: int): seq<SymFreq>
  {
    if s == [] then []
    else ByKey(s[..|s| - 1], k) + (if s[|s| - 1].key == k then [s[|s| - 1]] else [])
  }

  /** `t` holds the records of `s`, those of equal key in the same order. */
  ghost predicate StablePermutation(s: seq<SymFreq>, t: seq<SymFreq>)
  {
    forall k :: ByKey(s, k) == ByKey(t, k)
  }

  function Digit(k: u16, pass: nat): (d: nat)
    ensures d < 256
  {
    if pass == 0 then k % 256 else k / 256
  }

  ghost function Bucket(s: seq<SymFreq>, pass: nat, d: nat): (r: seq<SymFreq>)
    ensures |r| <= |s|
  {
    if s == [] then []
    else Bucket(s[..|s| - 1], pass, d) + (if Digit(s[|s| - 1].key, pass) == d then [s[|s| - 1]] else [])
  }

  /** The first `n` buckets one after another; a whole pass is `n == 256`. */
  ghost function Pass(s: seq<SymFreq>, pass: nat, n: nat): seq<SymFreq>
  {
    if n == 0 then [] else Pass(s, pass, n - 1) + Bucket(s, pass, n - 1)
  }

  // ---------------------------------------------------------------- stability

  lemma {:induction false} ByKeyConcat(a: seq<SymFreq>, b: seq<SymFreq>, k: int)
    ensures ByKey(a + b, k) == ByKey(a, k) + ByKey(b, k)
  {
    if b == [] {
      assert a + b == a;
    } else {
      assert (a + b)[..|a + b| - 1] == a + b[..|b| - 1];
      ByKeyConcat(a, b[..|b| - 1], k);
    }
  }

  lemma {:induction false} ByKeyBucket(s: seq<SymFreq>, pass: nat, d: nat, k: u16)
    ensures ByKey(Bucket(s, pass, d), k) == if Digit(k, pass) == d then ByKey(s, k) else []
  {
    if s != [] {
      var s', x := s[..|s| - 1], s[|s| - 1];
      ByKeyBucket(s', pass, d, k);
      if Digit(x.key, pass) == d {
        var b := Bucket(s', pass, d);
        assert (b + [x])[..|b + [x]| - 1] == b;
      } else {
        assert Bucket(s, pass, d) == Bucket(s', pass, d);
      }
    }
  }

  lemma {:induction false} ByKeyPass(s: seq<SymFreq>, pass: nat, n: nat, k: u16)
    ensures ByKey(Pass(s, pass, n), k) == if Digit(k, pass) < n then ByKey(s, k) else []
  {
    hide *;
    PassUnfold(s, pass, n, k);
    if n > 0 {
      ByKeyPass(s, pass, n - 1, k);
      ByKeyConcat(Pass(s, pass, n - 1), Bucket(s, pass, n - 1), k);
      ByKeyBucket(s, pass, n - 1, k);
    }
  }

  lemma PassUnfold(s: seq<SymFreq>, pass: nat, n: nat, k: u16)
    ensures n == 0 ==> ByKey(Pass(s, pass, n), k) == []
    ensures n > 0 ==> Pass(s, pass, n) == Pass(s, pass, n - 1) + Bucket(s, pass, n - 1)
  {
  }

  lemma {:induction false} ByKeyNone(s: seq<SymFreq>, k: int)
    requires !(0 <= k < 0x1_0000)
    ensures ByKey(s, k) == []
  {
    if s != [] {
      ByKeyNone(s[..|s| - 1], k);
    }
  }

  lemma PassIsStable(s: seq<SymFreq>, pass: nat)
    ensures StablePermutation(s, Pass(s, pass, 256))
  {
    forall k
      ensures ByKey(s, k) == ByKey(Pass(s, pass, 256), k)
    {
      if 0 <= k < 0x1_0000 {
        ByKeyPass(s, pass, 256, k);
      } else {
        ByKeyNone(s, k);
        ByKeyNone(Pass(s, pass, 256), k);
      }
    }
  }

  // ---------------------------------------------------------------- permutation

  lemma {:induction false} ByKeyMultiset(s: seq<SymFreq>, x: SymFreq)
    ensures multiset(ByKey(s, x.key))[x] == multiset(s)[x]
  {
    if s != [] {
      ByKeyMultiset(s[..|s| - 1], x);
      assert s == s[..|s| - 1] + [s[|s| - 1]];
    }
  }

  lemma StableIsPermutation(s: seq<SymFreq>, t: seq<SymFreq>)
    requires StablePermutation(s, t)
    ensures multiset(s) == multiset(t) && |s| == |t|
  {
    forall x: SymFreq
      ensures multiset(s)[x] == multiset(t)[x]
    {
      ByKeyMultiset(s, x);
      ByKeyMultiset(t, x);
    }
    assert multiset(s) == multiset(t);
    assert |multiset(s)| == |multiset(t)|;
  }

  lemma {:induction false} BucketMultiset(s: seq<SymFreq>, pass: nat, d: nat, x: SymFreq)
    ensures multiset(Bucket(s, pass, d))[x] == if Digit(x.key, pass) == d then multiset(s)[x] else 0
  {
    if s != [] {
      BucketMultiset(s[..|s| - 1], pass, d, x);
      assert s == s[..|s| - 1] + [s[|s| - 1]];
    }
  }

  lemma BucketSize(s: seq<SymFreq>, t: seq<SymFreq>, pass: nat, d: nat)
    requires multiset(s) == multiset(t)
    ensures |Bucket(s, pass, d)| == |Bucket(t, pass, d)|
  {
    forall x: SymFreq
      ensures multiset(Bucket(s, pass, d))[x] == multiset(Bucket(t, pass, d))[x]
    {
      BucketMultiset(s, pass, d, x);
      BucketMultiset(t, pass, d, x);
    }
    assert multiset(Bucket(s, pass, d)) == multiset(Bucket(t, pass, d));
    assert |multiset(Bucket(s, pass, d))| == |multiset(Bucket(t, pass, d))|;
  }

  lemma PassSize(s: seq<SymFreq>, pass: nat)
    ensures |Pass(s, pass, 256)| == |s|
  {
    PassIsStable(s, pass);
    StableIsPermutation(s, Pass(s, pass, 256));
  }

  // ---------------------------------------------------------------- order

  ghost predicate SortedLow(s: seq<SymFreq>)
  {
    forall i, j :: 0 <= i < j < |s| ==> Digit(s[i].key, 0) <= Digit(s[j].key, 0)
  }

  lemma {:induction false} BucketKeepsLow(s: seq<SymFreq>, pass: nat, d: nat)
    ensures forall i {:trigger Bucket(s, pass, d)[i]} :: 0 <= i < |Bucket(s, pass, d)| ==> Digit(Bucket(s, pass, d)[i].key, pass) == d
    ensures forall i {:trigger Bucket(s, pass, d)[i]} :: 0 <= i < |Bucket(s, pass, d)| ==> Bucket(s, pass, d)[i] in s
    ensures SortedLow(s) ==> SortedLow(Bucket(s, pass, d))
  {
    if s != [] {
      BucketKeepsLow(s[..|s| - 1], pass, d);
    }
  }

  ghost predicate Before(x: SymFreq, y: SymFreq, pass: nat)
  {
    || Digit(x.key, pass) < Digit(y.key, pass)
    || (Digit(x.key, pass) == Digit(y.key, pass) && (pass == 0 || Digit(x.key, 0) <= Digit(y.key, 0)))
  }

  /** Buckets in ascending order: sorted by the digit, and inside a digit as before. */
  lemma {:induction false} PassOrder(s: seq<SymFreq>, pass: nat, n: nat)
    requires pass == 0 || SortedLow(s)
    ensures forall i :: 0 <= i < |Pass(s, pass, n)| ==> Digit(Pass(s, pass, n)[i].key, pass) < n
    ensures forall i, j :: 0 <= i < j < |Pass(s, pass, n)| ==> Before(Pass(s, pass, n)[i], Pass(s, pass, n)[j], pass)
  {
    if n > 0 {
      PassOrder(s, pass, n - 1);
      BucketKeepsLow(s, pass, n - 1);
      var p, b := Pass(s, pass, n - 1), Bucket(s, pass, n - 1);
      assert Pass(s, pass, n) == p + b;
      forall i, j | 0 <= i < j < |p + b|
        ensures Before((p + b)[i], (p + b)[j], pass)
      {
        if i < |p| <= j {
          assert Digit((p + b)[i].key, pass) < n - 1;
        }
      }
    }
  }

  lemma BeforeIsKeyOrder(x: SymFreq, y: SymFreq)
    requires Before(x, y, 1)
    ensures x.key <= y.key
  {
  }

  lemma PassesSort(s: seq<SymFreq>)
    requires SortedLow(s)
    ensures SortedByKey(Pass(s, 1, 256))
  {
    PassOrder(s, 1, 256);
    var p := Pass(s, 1, 256);
    forall i, j | 0 <= i < j < |p|
      ensures p[i].key <= p[j].key
    {
      assert Before(p[i], p[j], 1);
      BeforeIsKeyOrder(p[i], p[j]);
    }
  }

  lemma {:induction false} AllInBucket(s: seq<SymFreq>, pass: nat, d: nat)
    requires |Bucket(s, pass, d)| == |s|
    ensures forall i :: 0 <= i < |s| ==> Digit(s[i].key, pass) == d
  {
    if s != [] {
      AllInBucket(s[..|s| - 1], pass, d);
    }
  }

  // ---------------------------------------------------------------- the sort

  method Histogram(num: nat, syms: array<SymFreq>) returns (hist: array<nat>)
    requires num <= syms.Length
    ensures fresh(hist) && hist.Length == 512
    ensures forall d :: 0 <= d < 256 ==> hist[d] == |Bucket(syms[..num], 0, d)|
    ensures forall d :: 0 <= d < 256 ==> hist[256 + d] == |Bucket(syms[..num], 1, d)|
  {
    hist := new nat[512](_ => 0);
    var i := 0;
    while i < num
      invariant 0 <= i <= num
      invariant forall d :: 0 <= d < 256 ==> hist[d] == |Bucket(syms[..i], 0, d)|
      invariant forall d :: 0 <= d < 256 ==> hist[256 + d] == |Bucket(syms[..i], 1, d)|
    {
      var freq := syms[i].key;
      assert syms[..i + 1][..i] == syms[..i];
      hist[freq % 256] := hist[freq % 256] + 1;
      hist[256 + freq / 256] := hist[256 + freq / 256] + 1;
      i := i + 1;
    }
  }

  lemma {:induction false} PassMono(s: seq<SymFreq>, pass: nat, d: nat, e: nat)
    requires d <= e
    ensures |Pass(s, pass, d)| <= |Pass(s, pass, e)|
  {
    if d < e {
      PassMono(s, pass, d, e - 1);
    }
  }

  /** After `i` records bucket `d` of the target holds its share of them. */
  ghost predicate BucketFilled(s: seq<SymFreq>, i: nat, pass: nat, d: nat, offset: nat, dst: seq<SymFreq>)
    requires i <= |s|
  {
    var start := |Pass(s, pass, d)|;
    && offset == start + |Bucket(s[..i], pass, d)| <= |dst|
    && dst[start..offset] == Bucket(s[..i], pass, d)
  }

  ghost predicate Distributed(s: seq<SymFreq>, i: nat, pass: nat, offsets: seq<nat>, dst: seq<SymFreq>)
    requires i <= |s| && |offsets| == 256
  {
    forall d :: 0 <= d < 256 ==> BucketFilled(s, i, pass, d, offsets[d], dst)
  }

  lemma {:induction false} BucketPrefix(s: seq<SymFreq>, i: nat, pass: nat, d: nat)
    requires i <= |s|
    ensures |Bucket(s[..i], pass, d)| <= |Bucket(s, pass, d)|
    ensures i < |s| && Digit(s[i].key, pass) == d ==> |Bucket(s[..i], pass, d)| < |Bucket(s, pass, d)|
    decreases |s|
  {
    if i == |s| {
      assert s[..i] == s;
    } else {
      assert s[..|s| - 1][..i] == s[..i];
      if i < |s| - 1 {
        assert s[..|s| - 1][i] == s[i];
      }
      BucketPrefix(s[..|s| - 1], i, pass, d);
    }
  }

  lemma BucketRoom(s: seq<SymFreq>, i: nat, pass: nat, d: nat)
    requires i <= |s| && d < 256
    ensures |Pass(s, pass, d)| + |Bucket(s[..i], pass, d)| <= |Pass(s, pass, d + 1)| <= |s|
    ensures i < |s| && Digit(s[i].key, pass) == d ==> |Pass(s, pass, d)| + |Bucket(s[..i], pass, d)| < |Pass(s, pass, d + 1)|
  {
    BucketPrefix(s, i, pass, d);
    PassMono(s, pass, d + 1, 256);
    PassSize(s, pass);
  }

  lemma FillBucket(s: seq<SymFreq>, i: nat, pass: nat, d: nat, at: nat, dst: seq<SymFreq>)
    requires i < |s| <= |dst| && d < 256 && Digit(s[i].key, pass) == d && BucketFilled(s, i, pass, d, at, dst)
    ensures at < |s| && BucketFilled(s, i + 1, pass, d, at + 1, dst[at := s[i]])
  {
    BucketRoom(s, i, pass, d);
    assert s[..i + 1][..i] == s[..i];
    var start, dst' := |Pass(s, pass, d)|, dst[at := s[i]];
    assert dst'[start..at + 1] == dst[start..at] + [s[i]];
  }

  lemma KeepBucket(s: seq<SymFreq>, i: nat, pass: nat, d: nat, at: nat, e: nat, ofs: nat, dst: seq<SymFreq>)
    requires i < |s| <= |dst| && d < 256 && e < 256 && e != d && Digit(s[i].key, pass) == d
    requires BucketFilled(s, i, pass, d, at, dst) && BucketFilled(s, i, pass, e, ofs, dst)
    ensures at < |s| && BucketFilled(s, i + 1, pass, e, ofs, dst[at := s[i]])
  {
    hide Bucket, Pass;
    var start := |Pass(s, pass, e)|;
    assert at < |s| && (at < start || ofs <= at) by {
      BucketRoom(s, i, pass, d);
      BucketRoom(s, i, pass, e);
      if e < d {
        PassMono(s, pass, e + 1, d);
      } else {
        PassMono(s, pass, d + 1, e);
      }
    }
    BucketSkips(s, i, pass, e);
    SliceUntouched(dst, at, s[i], start, ofs);
  }

  lemma BucketSkips(s: seq<SymFreq>, i: nat, pass: nat, e: nat)
    requires i < |s| && Digit(s[i].key, pass) != e
    ensures Bucket(s[..i + 1], pass, e) == Bucket(s[..i], pass, e)
  {
    assert s[..i + 1][..i] == s[..i];
  }

  lemma SliceUntouched<T>(t: seq<T>, at: nat, x: T, lo: nat, hi: nat)
    requires at < |t| && lo <= hi <= |t| && (at < lo || hi <= at)
    ensures t[at := x][lo..hi] == t[lo..hi]
  {
  }

  /** One record goes to the next free place of its bucket and disturbs no other bucket. */
  lemma DistributeOne(s: seq<SymFreq>, i: nat, pass: nat, offsets: seq<nat>, dst: seq<SymFreq>)
    requires i < |s| <= |dst| && |offsets| == 256 && Distributed(s, i, pass, offsets, dst)
    ensures var d := Digit(s[i].key, pass);
      && offsets[d] < |s|
      && Distributed(s, i + 1, pass, offsets[d := offsets[d] + 1], dst[offsets[d] := s[i]])
  {
    var d := Digit(s[i].key, pass);
    FillBucket(s, i, pass, d, offsets[d], dst);
    var offsets' := offsets[d := offsets[d] + 1];
    forall e | 0 <= e < 256
      ensures BucketFilled(s, i + 1, pass, e, offsets'[e], dst[offsets[d] := s[i]])
    {
      if e != d {
        KeepBucket(s, i, pass, d, offsets[d], e, offsets[e], dst);
      }
    }
  }

  lemma {:induction false} DistributedAll(s: seq<SymFreq>, pass: nat, offsets: seq<nat>, dst: seq<SymFreq>, n: nat)
    requires |s| <= |dst| && |offsets| == 256 && Distributed(s, |s|, pass, offsets, dst) && n <= 256
    ensures |Pass(s, pass, n)| <= |s|
    ensures dst[..|Pass(s, pass, n)|] == Pass(s, pass, n)
  {
    if n > 0 {
      DistributedAll(s, pass, offsets, dst, n - 1);
      BucketRoom(s, |s|, pass, n - 1);
      assert BucketFilled(s, |s|, pass, n - 1, offsets[n - 1], dst);
      assert s[..|s|] == s;
      var a, b := |Pass(s, pass, n - 1)|, |Bucket(s, pass, n - 1)|;
      assert dst[..a + b] == dst[..a] + dst[a..a + b];
    }
  }

  lemma PassNone(s: seq<SymFreq>, pass: nat)
    ensures Pass(s, pass, 0) == []
  {
  }

  lemma PassNext(s: seq<SymFreq>, pass: nat, d: nat)
    ensures |Pass(s, pass, d + 1)| == |Pass(s, pass, d)| + |Bucket(s, pass, d)|
  {
    hide Bucket;
  }

  method BucketStarts(ghost s: seq<SymFreq>, hist: array<nat>, base: nat, pass: nat) returns (offsets: array<nat>)
    requires base + 256 <= hist.Length
    requires forall d :: 0 <= d < 256 ==> hist[base + d] == |Bucket(s, pass, d)|
    ensures fresh(offsets) && offsets.Length == 256
    ensures forall d :: 0 <= d < 256 ==> offsets[d] == |Pass(s, pass, d)|
  {
    hide Bucket, Pass;
    PassNone(s, pass);
    offsets := new nat[256](_ => 0);
    var curOfs := 0;
    for i := 0 to 256
      invariant curOfs == |Pass(s, pass, i)|
      invariant forall d :: 0 <= d < i ==> offsets[d] == |Pass(s, pass, d)|
    {
      PassNext(s, pass, i);
      offsets[i] := curOfs;
      curOfs := curOfs + hist[base + i];
    }
  }

  method Place(x: SymFreq, dst: array<SymFreq>, offsets: array<nat>, ghost s: seq<SymFreq>, ghost i: nat, pass: nat)
    returns (ghost o: seq<nat>, ghost t: seq<SymFreq>)
    requires i < |s| <= dst.Length && x == s[i] && offsets.Length == 256
    requires Distributed(s, i, pass, offsets[..], dst[..])
    modifies dst, offsets
    ensures o == offsets[..] && t == dst[..] && Distributed(s, i + 1, pass, o, t)
  {
    hide *;
    o, t := offsets[..], dst[..];
    DistributeOne(s, i, pass, o, t);
    var d := Digit(x.key, pass);
    dst[offsets[d]] := x;
    t := t[o[d] := s[i]];
    offsets[d] := offsets[d] + 1;
    o := o[d := o[d] + 1];
  }

  method CountingPass(num: nat, cur: array<SymFreq>, dst: array<SymFreq>, hist: array<nat>, base: nat, pass: nat)
    requires num <= cur.Length && num <= dst.Length && cur != dst && base + 256 <= hist.Length
    requires forall d :: 0 <= d < 256 ==> hist[base + d] == |Bucket(cur[..num], pass, d)|
    modifies dst
    ensures dst[..num] == Pass(cur[..num], pass, 256)
  {
    ghost var s := cur[..num];
    hide *;
    var offsets := BucketStarts(s, hist, base, pass);
    EmptyBuckets(s, pass, offsets[..], dst[..]);
    ghost var o, t := offsets[..], dst[..];
    for i := 0 to num
      invariant cur[..num] == s && offsets[..] == o && dst[..] == t
      invariant Distributed(s, i, pass, o, t)
    {
      assert s[i] == cur[i];
      o, t := Place(cur[i], dst, offsets, s, i, pass);
    }
    DistributedAll(s, pass, o, t, 256);
    PassSize(s, pass);
    assert dst[..num] == t[..num];
  }

  lemma EmptyBuckets(s: seq<SymFreq>, pass: nat, offsets: seq<nat>, dst: seq<SymFreq>)
    requires |s| <= |dst| && |offsets| == 256
    requires forall d :: 0 <= d < 256 ==> offsets[d] == |Pass(s, pass, d)|
    ensures Distributed(s, 0, pass, offsets, dst)
  {
    forall d | 0 <= d < 256
      ensures BucketFilled(s, 0, pass, d, offsets[d], dst)
    {
      BucketRoom(s, 0, pass, d);
    }
  }

  /** Skips the high-byte pass when every key is below 256; either way the result is a stable sort. */
  method RadixSortSyms(num: nat, syms0: array<SymFreq>, syms1: array<SymFreq>) returns (sorted: array<SymFreq>)
    requires num <= syms0.Length && num <= syms1.Length && syms0 != syms1
    modifies syms0, syms1
    ensures sorted == syms0 || sorted == syms1
    ensures SortedByKey(sorted[..num])
    ensures StablePermutation(old(syms0[..num]), sorted[..num])
  {
    ghost var s := syms0[..num];
    var hist := Histogram(num, syms0);
    assert syms0[..num] == s;
    assert hist[256 + 0] == |Bucket(s, 1, 0)|;
    var totalPasses := 2;
    if num == hist[256] {
      totalPasses := 1;
    }
    CountingPass(num, syms0, syms1, hist, 0, 0);
    ghost var s1 := syms1[..num];
    PassOrder(s, 0, 256);
    PassIsStable(s, 0);
    StableIsPermutation(s, s1);
    if totalPasses == 1 {
      BucketSize(s, s1, 1, 0);
      AllInBucket(s1, 1, 0);
      return syms1;
    }
    forall d | 0 <= d < 256
      ensures hist[256 + d] == |Bucket(s1, 1, d)|
    {
      BucketSize(s, s1, 1, d);
    }
    CountingPass(num, syms1, syms0, hist, 256, 1);
    PassesSort(s1);
    PassIsStable(s1, 1);
    return syms0;
  }
}
