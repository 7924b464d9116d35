/**
 Limiting code lengths (miniz.c, `tdefl_huffman_enforce_max_code_size`).

 The input counts codes by length; codes beyond the limit are folded onto it, which breaks
 Kraft's equality by some excess, and each round of the repair loop removes one unit of it.
 */
module LimitCodeSizes {
  import opened Bits
  import opened Canonical
  import opened PrefixCost
  import opened LimitCost

  const MAX_SUPPORTED_CODE_SIZE := 32

  /** Kraft sum of the counts up to length `l`, in units of 2^-l. */
  function KraftSum(c: seq<int>, l: nat): int
    requires l < |c|
  {
    if l == 0 then 0 else 2 * KraftSum(c, l - 1) + c[l]
  }

  function Total(c: seq<int>, l: nat): int
    requires l < |c|
  {
    if l == 0 then 0 else Total(c, l - 1) + c[l]
  }

  ghost predicate NonNegative(c: seq<int>)
  {
    forall i :: 0 <= i < |c| ==> c[i] >= 0
  }

  lemma {:induction false} KraftUpdate(c: seq<int>, i: nat, v: int, l: nat)
    requires 0 < i < |c| && l < |c|
    ensures i <= l ==> KraftSum(c[i := v], l) == KraftSum(c, l) + (v - c[i]) * Pow2(l - i)
    ensures i > l ==> KraftSum(c[i := v], l) == KraftSum(c, l)
  {
    if l > 0 {
      KraftUpdate(c, i, v, l - 1);
      if i < l {
        var d, p := v - c[i], Pow2(l - 1 - i);
        assert d * (2 * p) == 2 * (d * p);
      }
    }
  }

  lemma {:induction false} TotalUpdate(c: seq<int>, i: nat, v: int, l: nat)
    requires 0 < i < |c| && l < |c|
    ensures Total(c[i := v], l) == Total(c, l) + (if i <= l then v - c[i] else 0)
  {
    if l > 0 {
      TotalUpdate(c, i, v, l - 1);
    }
  }

  lemma {:induction false} KraftNonNegative(c: seq<int>, l: nat)
    requires l < |c| && NonNegative(c)
    ensures 0 <= Total(c, l) <= KraftSum(c, l)
  {
    if l > 0 {
      KraftNonNegative(c, l - 1);
    }
  }

  // ---------------------------------------------------------------- tallies of lengths

  ghost function Counts(s: seq<nat>, m: nat): (c: seq<int>)
    ensures |c| == m + 1
    ensures forall l :: 0 <= l <= m ==> c[l] == Count(s, l)
  {
    seq(m + 1, l requires 0 <= l <= m => Count(s, l))
  }

  lemma {:induction false} TotalCounts(s: seq<nat>, m: nat, l: nat)
    requires l <= m && 0 !in s && LensUpTo(s, l)
    ensures Total(Counts(s, m), l) == |s|
  {
    if s == [] {
      TotalZero(Counts(s, m), l);
    } else {
      var t, x := s[..|s| - 1], s[|s| - 1];
      assert 0 !in t && x > 0 by {
        assert forall y :: y in t ==> y in s;
        assert x in s;
      }
      TotalCounts(t, m, l);
      assert Counts(s, m) == Counts(t, m)[x := Counts(t, m)[x] + 1];
      TotalUpdate(Counts(t, m), x, Counts(t, m)[x] + 1, l);
    }
  }

  lemma {:induction false} TotalZero(c: seq<int>, l: nat)
    requires l < |c| && forall i :: 0 <= i < |c| ==> c[i] == 0
    ensures Total(c, l) == 0
  {
    if l > 0 {
      TotalZero(c, l - 1);
    }
  }

  lemma {:induction false} KraftIsUsed(s: seq<nat>, c: seq<int>, l: nat)
    requires l < |c| && forall i :: 1 <= i <= l ==> c[i] == Count(s, i)
    ensures KraftSum(c, l) == Used(s, l)
  {
    if l > 0 {
      KraftIsUsed(s, c, l - 1);
    }
  }

  /** The numbers of codes by length. */
  ghost predicate Tallies(c: seq<int>, s: seq<nat>, l: nat)
  {
    l < |c| && forall k :: 1 <= k <= l ==> c[k] == Count(s, k)
  }

  lemma {:induction false} TotalAgrees(c: seq<int>, d: seq<int>, l: nat)
    requires l < |c| && l < |d| && forall k :: 1 <= k <= l ==> c[k] == d[k]
    ensures Total(c, l) == Total(d, l)
  {
    if l > 0 {
      TotalAgrees(c, d, l - 1);
    }
  }

  lemma {:induction false} CountCut(s: seq<nat>, max: nat, k: nat)
    requires k < max
    ensures Count(Cut(s, max), k) == Count(s, k)
  {
    if s != [] {
      CountCut(s[..|s| - 1], max, k);
      assert Cut(s, max)[..|s| - 1] == Cut(s[..|s| - 1], max);
    }
  }

  /** Folding is cutting. */
  lemma FoldedTallies(c: seq<int>, d: seq<int>, s: seq<nat>, max: nat)
    requires 0 < max <= MAX_SUPPORTED_CODE_SIZE && |c| == |d| == MAX_SUPPORTED_CODE_SIZE + 1
    requires Tallies(c, s, MAX_SUPPORTED_CODE_SIZE) && 0 !in s && Total(d, max) == |s|
    requires forall i :: 0 <= i < |c| && i != max ==> d[i] == c[i]
    ensures Tallies(d, Cut(s, max), max)
  {
    var t := Cut(s, max);
    var e := Counts(t, max);
    assert 0 !in t by {
      forall k | 0 <= k < |t|
        ensures t[k] != 0
      {
        assert s[k] in s;
      }
    }
    TotalCounts(t, max, max);
    forall k | 1 <= k < max
      ensures d[k] == Count(t, k)
    {
      CountCut(s, max, k);
    }
    TotalAgrees(d, e, max - 1);
  }

  /** A value that is counted is there. */
  lemma CountedIsThere(t: seq<nat>, v: nat)
    ensures Count(t, v) > 0 <==> v in t
  {
    if Count(t, v) > 0 {
      var i := FindRank(t, v, 0);
    } else if v in t {
      var i :| 0 <= i < |t| && t[i] == v;
      CountPrefix(t, i, v);
    }
  }

  lemma {:induction false} FirstBelow(t: seq<nat>, max: nat) returns (k: nat)
    requires LensUpTo(t, max)
    ensures k <= |t| && (forall p :: 0 <= p < k ==> t[p] == max) && (k < |t| ==> t[k] < max)
  {
    if t == [] || t[0] < max {
      k := 0;
    } else {
      var j := FirstBelow(t[1..], max);
      k := j + 1;
    }
  }

  /** The code that a repair lengthens is the first below the limit. */
  lemma RepairPlace(c: seq<int>, t: seq<nat>, max: nat, i: nat) returns (k: nat)
    requires 0 < i < max && Tallies(c, t, max) && Descending(t) && LensUpTo(t, max)
    requires c[max] > 0 && c[i] > 0 && forall l :: i < l < max ==> c[l] == 0
    ensures 0 < k < |t| && t[k] == i && forall p :: 0 <= p < k ==> t[p] == max
  {
    k := FirstBelow(t, max);
    CountedIsThere(t, max);
    CountedIsThere(t, i);
    assert k < |t|;
    CountedIsThere(t, t[k]);
  }

  lemma RepairTallies(c: seq<int>, t: seq<nat>, max: nat, k: nat, i: nat)
    requires 0 < i < max && Tallies(c, t, max) && 0 < k < |t| && t[k] == i && t[k - 1] == max
    ensures Tallies(Repaired(c, max, i), Repair(t, k, i), max)
  {
    forall l | 1 <= l <= max
      ensures Repaired(c, max, i)[l] == Count(Repair(t, k, i), l)
    {
      CountUpdate(t, k - 1, i + 1, l);
      CountUpdate(t[k - 1 := i + 1], k, i + 1, l);
    }
  }

  // ---------------------------------------------------------------- folding

  /** Folding the codes between `max` and `m` onto length `max` cannot lower the Kraft sum. */
  lemma {:induction false} FoldExcess(c: seq<int>, max: nat, m: nat)
    requires 0 < max <= m < |c| && NonNegative(c)
    ensures KraftSum(c, max) >= 0 && Total(c, m) >= Total(c, max)
    ensures KraftSum(c, max) * Pow2(m - max) <= KraftSum(c, m) <= (KraftSum(c, max) + Total(c, m) - Total(c, max)) * Pow2(m - max)
  {
    KraftNonNegative(c, max);
    if max < m {
      FoldExcess(c, max, m - 1);
      FoldStep(KraftSum(c, max), Total(c, m - 1) - Total(c, max), c[m], Pow2(m - 1 - max), KraftSum(c, m - 1));
    }
  }

  lemma FoldStep(k: nat, t: nat, x: nat, p: nat, sum: int)
    requires p >= 1 && k * p <= sum <= (k + t) * p
    ensures k * (2 * p) <= 2 * sum + x <= (k + t + x) * (2 * p)
  {
    assert k * (2 * p) == 2 * (k * p);
    assert (k + t) * (2 * p) == 2 * ((k + t) * p);
    Distrib(k + t, x, 2 * p);
    MulMono(1, 2 * p, x);
  }

  /** If every code sits at the limit, the Kraft sum is their number. */
  lemma {:induction false} OnlyLimit(c: seq<int>, l: nat)
    requires l < |c| && forall i :: 0 < i < l ==> c[i] == 0
    ensures l > 0 ==> KraftSum(c, l) == c[l] == Total(c, l)
  {
    if l > 1 {
      OnlyLimit(c, l - 1);
    }
  }

  /** `pNum_codes[max] += pNum_codes[i]` for every longer length. */
  method FoldLong(num: array<int>, max: nat)
    requires num.Length == MAX_SUPPORTED_CODE_SIZE + 1 && 0 < max <= MAX_SUPPORTED_CODE_SIZE
    requires NonNegative(num[..])
    requires KraftSum(num[..], MAX_SUPPORTED_CODE_SIZE) == Pow2(MAX_SUPPORTED_CODE_SIZE)
    modifies num
    ensures NonNegative(num[..]) && Total(num[..], max) == Total(old(num[..]), MAX_SUPPORTED_CODE_SIZE)
    ensures Pow2(max) <= KraftSum(num[..], max) <= Pow2(max) + num[max]
    ensures forall i :: 0 <= i < num.Length && i != max ==> num[i] == old(num[i])
  {
    hide *;
    ghost var c := num[..];
    for i := max + 1 to MAX_SUPPORTED_CODE_SIZE + 1
      invariant num[..] == c[max := c[max] + Total(c, i - 1) - Total(c, max)]
    {
      AddOne(num, c, max, i);
    }
    FoldedOk(c, max);
    assert num[..] == c[max := num[max]];
  }

  method AddOne(num: array<int>, ghost c: seq<int>, max: nat, i: nat)
    requires max < i < num.Length == |c| && num[..] == c[max := c[max] + Total(c, i - 1) - Total(c, max)]
    modifies num
    ensures num[..] == c[max := c[max] + Total(c, i) - Total(c, max)]
  {
    hide *;
    TotalNext(c, i);
    assert num[i] == num[..][i] == c[i] && num[max] == num[..][max];
    num[max] := num[max] + num[i];
  }

  lemma TotalNext(c: seq<int>, i: nat)
    requires 0 < i < |c|
    ensures Total(c, i) == Total(c, i - 1) + c[i]
  {
  }

  lemma FoldedOk(c: seq<int>, max: nat)
    requires |c| == MAX_SUPPORTED_CODE_SIZE + 1 && 0 < max <= MAX_SUPPORTED_CODE_SIZE && NonNegative(c)
    requires KraftSum(c, MAX_SUPPORTED_CODE_SIZE) == Pow2(MAX_SUPPORTED_CODE_SIZE)
    ensures var m := MAX_SUPPORTED_CODE_SIZE; var d := c[max := c[max] + Total(c, m) - Total(c, max)];
      && NonNegative(d) && Total(d, max) == Total(c, m) && Pow2(max) <= KraftSum(d, max) <= Pow2(max) + d[max]
  {
    hide KraftSum, Total, Pow2;
    var m := MAX_SUPPORTED_CODE_SIZE;
    var t := Total(c, m) - Total(c, max);
    TotalUpdate(c, max, c[max] + t, max);
    KraftUpdate(c, max, c[max] + t, max);
    FoldExcess(c, max, m);
    Pow2Add(max, m - max);
    NoPower();
    FoldCancel(KraftSum(c, max), t, Pow2(max), Pow2(m - max));
  }

  lemma NoPower()
    ensures Pow2(0) == 1
  {
  }

  lemma FoldCancel(k: nat, t: nat, p: nat, q: nat)
    requires q > 0 && k * q <= p * q <= (k + t) * q
    ensures k <= p <= k + t
  {
    MulCancel(k, p, q);
    MulCancel(p, k + t, q);
  }

  /** `total += pNum_codes[i] << (max - i)` over all lengths. */
  method KraftTotal(num: array<int>, max: nat) returns (total: int)
    requires max < num.Length
    ensures total == KraftSum(num[..], max)
  {
    total := 0;
    var i := max;
    assert Pow2(0) == 1;
    while i > 0
      invariant 0 <= i <= max
      invariant total + KraftSum(num[..], i) * Pow2(max - i) == KraftSum(num[..], max)
    {
      KraftSplit(KraftSum(num[..], i - 1), num[i], Pow2(max - i));
      total := total + num[i] * Pow2(max - i);
      i := i - 1;
    }
  }

  lemma KraftSplit(k: int, x: int, p: nat)
    ensures (2 * k + x) * p == k * (2 * p) + x * p
  {
  }

  /** Too many codes at the limit: some shorter code exists, and lengthening it pays one unit. */
  lemma Repairable(c: seq<int>, max: nat)
    requires 0 < max < |c| && NonNegative(c)
    requires Total(c, max) <= Pow2(max) < KraftSum(c, max)
    ensures exists i :: 0 < i < max && c[i] > 0
  {
    if forall i :: 0 < i < max ==> c[i] == 0 {
      OnlyLimit(c, max);
    }
  }

  function Repaired(c: seq<int>, max: nat, i: nat): seq<int>
    requires 0 < i < max < |c|
  {
    var d := c[max := c[max] - 1];
    var e := d[i := d[i] - 1];
    e[i + 1 := e[i + 1] + 2]
  }

  /** One code leaves the limit, one of length `i` becomes two of length `i + 1`. */
  lemma RepairRound(c: seq<int>, max: nat, i: nat)
    requires 0 < i < max < |c|
    ensures KraftSum(Repaired(c, max, i), max) == KraftSum(c, max) - 1
    ensures Total(Repaired(c, max, i), max) == Total(c, max)
  {
    var d := c[max := c[max] - 1];
    var e := d[i := d[i] - 1];
    KraftUpdate(c, max, c[max] - 1, max);
    TotalUpdate(c, max, c[max] - 1, max);
    KraftUpdate(d, i, d[i] - 1, max);
    TotalUpdate(d, i, d[i] - 1, max);
    KraftUpdate(e, i + 1, e[i + 1] + 2, max);
    TotalUpdate(e, i + 1, e[i + 1] + 2, max);
    assert Pow2(max - i) == 2 * Pow2(max - i - 1);
  }

  method RepairOne(num: array<int>, max: nat) returns (ghost i: nat)
    requires 0 < max < num.Length && exists i :: 0 < i < max && num[i] > 0
    requires NonNegative(num[..])
    modifies num
    ensures 0 < i < max && old(num[i]) > 0 && num[..] == Repaired(old(num[..]), max, i)
    ensures forall l :: i < l < max ==> old(num[l]) == 0
  {
    ghost var some :| 0 < some < max && num[some] > 0;
    num[max] := num[max] - 1;
    var k := max - 1;
    while k > 0 && num[k] == 0
      invariant some <= k < max && forall l :: k < l < max ==> num[l] == 0
      invariant num[..] == old(num[..])[max := old(num[max]) - 1]
    {
      k := k - 1;
    }
    i := k;
    assert forall l :: k < l < max ==> num[l] == num[..][l] == old(num[l]);
    num[k] := num[k] - 1;
    num[k + 1] := num[k + 1] + 2;
  }

  /**
   From the counts of a complete code to those of a complete code within the limit. Every round
   finds a code to split, no count becomes negative, and the number of codes stays the same.
   */
  method EnforceMaxCodeSize(num: array<int>, listLen: nat, max: nat, ghost s: seq<nat>) returns (ghost t: seq<nat>)
    requires num.Length == MAX_SUPPORTED_CODE_SIZE + 1 && 0 < max <= MAX_SUPPORTED_CODE_SIZE
    requires NonNegative(num[..]) && Total(num[..], MAX_SUPPORTED_CODE_SIZE) == listLen <= Pow2(max)
    requires listLen > 1 ==> KraftSum(num[..], MAX_SUPPORTED_CODE_SIZE) == Pow2(MAX_SUPPORTED_CODE_SIZE)
    requires Lengths(num[..], s) && |s| == listLen
    modifies num
    ensures |t| == |s| && (listLen <= 1 ==> t == s) && (listLen > 1 ==> LensUpTo(t, max))
    ensures listLen > 1 ==> Limited(s, t, max) && Descending(t) && 0 !in t && Tallies(num[..], t, max)
    ensures listLen <= 1 ==> num[..] == old(num[..])
    ensures NonNegative(num[..])
    ensures listLen > 1 ==> Total(num[..], max) == listLen && KraftSum(num[..], max) == Pow2(max)
  {
    if listLen <= 1 {
      return s;
    }
    hide *;
    ghost var c := num[..];
    FoldLong(num, max);
    t := Cut(s, max);
    LengthsCut(c, num[..], s, max);
    ghost var q := 0;
    var total := KraftTotal(num, max);
    while total != Pow2(max)
      invariant NonNegative(num[..]) && Total(num[..], max) == listLen
      invariant Pow2(max) <= total == KraftSum(num[..], max) <= Pow2(max) + num[max]
      invariant Repairing(s, t, max, q) && Tallies(num[..], t, max)
      decreases total
    {
      t, q := Round(num, max, s, t, q);
      total := total - 1;
    }
    RepairingLimited(s, t, max, q);
    RepairingIs(s, t, max, q);
  }

  /** The counts are those of the lengths `s`, longest first. */
  ghost predicate Lengths(c: seq<int>, s: seq<nat>)
  {
    Tallies(c, s, MAX_SUPPORTED_CODE_SIZE) && Descending(s) && 0 !in s && LensUpTo(s, MAX_SUPPORTED_CODE_SIZE)
  }

  lemma LengthsCut(c: seq<int>, d: seq<int>, s: seq<nat>, max: nat)
    requires Lengths(c, s) && 0 < max <= MAX_SUPPORTED_CODE_SIZE && |c| == |d| == MAX_SUPPORTED_CODE_SIZE + 1 && Total(d, max) == |s|
    requires KraftSum(c, MAX_SUPPORTED_CODE_SIZE) == Pow2(MAX_SUPPORTED_CODE_SIZE)
    requires forall i :: 0 <= i < |c| && i != max ==> d[i] == c[i]
    ensures Repairing(s, Cut(s, max), max, 0) && Tallies(d, Cut(s, max), max)
    ensures LensUpTo(s, LONGEST) && Shares(s, LONGEST) == Pow2(LONGEST) && max <= LONGEST
  {
    hide Total, KraftSum, Pow2, Shares;
    FoldedTallies(c, d, s, max);
    RepairingCut(s, max);
    KraftIsUsed(s, c, MAX_SUPPORTED_CODE_SIZE);
    UsedIsShares(s, LONGEST);
  }

  lemma RepairingIs(s: seq<nat>, t: seq<nat>, max: nat, q: nat)
    requires max <= LONGEST && Repairing(s, t, max, q)
    ensures |t| == |s| && Descending(t) && LensUpTo(t, max) && 0 !in t
  {
  }

  /** One repair: the Kraft sum drops by exactly one unit, and nothing else changes. */
  method Round(num: array<int>, max: nat, ghost s: seq<nat>, ghost t0: seq<nat>, ghost q0: nat) returns (ghost t: seq<nat>, ghost q: nat)
    requires num.Length == MAX_SUPPORTED_CODE_SIZE + 1 && 0 < max <= LONGEST == MAX_SUPPORTED_CODE_SIZE
    requires NonNegative(num[..]) && Total(num[..], max) <= Pow2(max)
    requires Pow2(max) < KraftSum(num[..], max) <= Pow2(max) + num[max]
    requires Repairing(s, t0, max, q0) && Tallies(num[..], t0, max) && LensUpTo(s, LONGEST) && Shares(s, LONGEST) == Pow2(LONGEST)
    modifies num
    ensures NonNegative(num[..]) && Total(num[..], max) == Total(old(num[..]), max)
    ensures KraftSum(num[..], max) == KraftSum(old(num[..]), max) - 1 <= Pow2(max) + num[max]
    ensures Repairing(s, t, max, q) && Tallies(num[..], t, max)
  {
    hide *;
    ghost var c := num[..];
    Repairable(c, max);
    ghost var i := RepairOne(num, max);
    RepairRound(c, max, i);
    RepairedOk(c, max, i);
    RepairingIs(s, t0, max, q0);
    ghost var k := RepairPlace(c, t0, max, i);
    RepairTallies(c, t0, max, k, i);
    TalliesAre(c, t0, max);
    KraftIsUsed(t0, c, max);
    UsedIsShares(t0, max);
    q := RepairKeeps(s, t0, max, q0, k);
    t := Repair(t0, k, i);
  }

  lemma TalliesAre(c: seq<int>, t: seq<nat>, max: nat)
    requires Tallies(c, t, max)
    ensures max < |c| && forall i :: 1 <= i <= max ==> c[i] == Count(t, i)
  {
  }

  lemma RepairedOk(c: seq<int>, max: nat, i: nat)
    requires 0 < i < max < |c| && NonNegative(c) && c[i] > 0 && c[max] > 0
    ensures NonNegative(Repaired(c, max, i)) && Repaired(c, max, i)[max] >= c[max] - 1
  {
  }
}
