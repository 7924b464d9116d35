/**
 What limiting code lengths to 15 costs. The lengths are looked at in the order of the sorted symbols,
 longest first. A repair lengthens the first code that is not at the limit; that it had to is because
 the codes before it, were they all at the limit, would take more room than they had.
 */
module LimitCost {
  import opened Bits
  import opened Canonical
  import opened PrefixCost
  import opened Merging

  const LONGEST := 32
  const LIMIT := 15

  ghost predicate Descending(t: seq<nat>)
  {
    forall k, l :: 0 <= k < l < |t| ==> t[k] >= t[l]
  }

  /** The first `p` codes at length `max` would need more of the code space than they have. */
  ghost predicate Crowded(s: seq<nat>, p: nat, max: nat)
    requires p <= |s| && max <= LONGEST
  {
    Shares(s[..p], LONGEST) < p * Pow2(LONGEST - max)
  }

  /** No code is beyond the limit, and a code has been lengthened only where it is crowded. */
  ghost predicate Limited(s: seq<nat>, t: seq<nat>, max: nat)
    requires max <= LONGEST
  {
    |t| == |s| && LensUpTo(t, max) && forall p :: 0 <= p < |s| ==> t[p] <= s[p] || Crowded(s, p, max)
  }

  // ---------------------------------------------------------------- shares

  lemma {:induction false} SharesConcat(a: seq<nat>, b: seq<nat>, m: nat)
    ensures Shares(a + b, m) == Shares(a, m) + Shares(b, m)
  {
    if a == [] {
      assert a + b == b;
    } else {
      assert (a + b)[1..] == a[1..] + b;
      SharesConcat(a[1..], b, m);
    }
  }

  lemma SharesSplit(s: seq<nat>, k: nat, m: nat)
    requires k <= |s|
    ensures Shares(s, m) == Shares(s[..k], m) + Shares(s[k..], m)
  {
    assert s == s[..k] + s[k..];
    SharesConcat(s[..k], s[k..], m);
  }

  lemma SharesSnoc(s: seq<nat>, k: nat, m: nat)
    requires k < |s|
    ensures Shares(s[..k + 1], m) == Shares(s[..k], m) + Share(s[k], m)
  {
    assert s[..k + 1] == s[..k] + [s[k]];
    SharesConcat(s[..k], [s[k]], m);
    assert [s[k]][1..] == [];
  }

  lemma {:induction false} SharesScale(s: seq<nat>, max: nat, m: nat)
    requires max <= m && LensUpTo(s, max)
    ensures Shares(s, m) == Shares(s, max) * Pow2(m - max)
  {
    if s != [] {
      SharesScale(s[1..], max, m);
      Pow2Add(max - s[0], m - max);
      Distrib(Share(s[0], max), Shares(s[1..], max), Pow2(m - max));
    }
  }

  lemma {:induction false} SharesEven(s: seq<nat>, m: nat)
    requires forall k :: 0 <= k < |s| ==> s[k] == m
    ensures Shares(s, m) == |s|
  {
    if s != [] {
      SharesEven(s[1..], m);
      assert Pow2(0) == 1;
    }
  }

  lemma {:induction false} SharesPositive(s: seq<nat>, m: nat)
    requires LensUpTo(s, m)
    ensures Shares(s, m) >= |s|
  {
    if s != [] {
      SharesPositive(s[1..], m);
    }
  }

  lemma {:induction false} UsedSnoc(s: seq<nat>, x: nat, l: nat)
    requires x > 0
    ensures Used(s + [x], l) == Used(s, l) + Share(x, l)
  {
    if l > 0 {
      UsedSnoc(s, x, l - 1);
      assert (s + [x])[..|s|] == s;
      if x < l {
        assert Pow2(l - x) == 2 * Pow2(l - 1 - x);
      } else if x == l {
        assert Pow2(0) == 1;
      }
    }
  }

  /** The Kraft sum by Horner's rule is the sum of the shares. */
  lemma {:induction false} UsedIsShares(s: seq<nat>, m: nat)
    requires 0 !in s
    ensures Used(s, m) == Shares(s, m)
  {
    if s == [] {
      UsedNone(m);
    } else {
      var n := |s| - 1;
      assert s == s[..n] + [s[n]] && s[n] in s;
      UsedIsShares(s[..n], m);
      UsedSnoc(s[..n], s[n], m);
      SharesSnoc(s, n, m);
      assert s[..n + 1] == s;
    }
  }

  lemma {:induction false} UsedNone(m: nat)
    ensures Used([], m) == 0
  {
    if m > 0 {
      UsedNone(m - 1);
    }
  }

  // ---------------------------------------------------------------- one repair

  function Cut(s: seq<nat>, max: nat): (t: seq<nat>)
    ensures |t| == |s| && forall k :: 0 <= k < |s| ==> t[k] == if s[k] <= max then s[k] else max
  {
    seq(|s|, k requires 0 <= k < |s| => if s[k] <= max then s[k] else max)
  }

  /** After some repairs: from `q` on nothing has been touched but by cutting, before it only the crowded. */
  ghost predicate Repairing(s: seq<nat>, t: seq<nat>, max: nat, q: nat)
    requires max <= LONGEST
  {
    && |t| == |s| && q <= |s| && Descending(t) && LensUpTo(t, max) && 0 !in t
    && (forall p :: q <= p < |s| ==> t[p] == Cut(s, max)[p])
    && (forall p :: 0 <= p < q && s[p] < max ==> Crowded(s, p, max))
  }

  lemma RepairingCut(s: seq<nat>, max: nat)
    requires 0 < max <= LONGEST && Descending(s) && 0 !in s
    ensures Repairing(s, Cut(s, max), max, 0)
  {
  }

  lemma RepairingLimited(s: seq<nat>, t: seq<nat>, max: nat, q: nat)
    requires max <= LONGEST && Repairing(s, t, max, q)
    ensures Limited(s, t, max)
  {
  }

  /** While the code space is overfull, the first code not at the limit is crowded. */
  lemma FirstCrowded(s: seq<nat>, t: seq<nat>, max: nat, k: nat)
    requires 0 < max <= LONGEST && k < |s| == |t| && LensUpTo(s, LONGEST) && LensUpTo(t, max)
    requires Shares(s, LONGEST) == Pow2(LONGEST) && Shares(t, max) > Pow2(max)
    requires forall p :: 0 <= p < k ==> t[p] == max
    requires forall p :: k <= p < |s| ==> t[p] == s[p]
    ensures Crowded(s, k, max)
  {
    hide *;
    var f := Pow2(LONGEST - max);
    assert t[k..] == s[k..];
    TailUpTo(t, k, max);
    SharesSplit(s, k, LONGEST);
    SharesSplit(t, k, max);
    SharesEven(t[..k], max);
    SharesScale(t[k..], max, LONGEST);
    Pow2Add(max, LONGEST - max);
    Overfull(Pow2(max), k, Shares(t[k..], max), f, Shares(s[..k], LONGEST));
    BeCrowded(s, k, max);
  }

  lemma TailUpTo(t: seq<nat>, k: nat, max: nat)
    requires k <= |t| && LensUpTo(t, max)
    ensures LensUpTo(t[k..], max)
  {
  }

  lemma BeCrowded(s: seq<nat>, p: nat, max: nat)
    requires p <= |s| && max <= LONGEST && Shares(s[..p], LONGEST) < p * Pow2(LONGEST - max)
    ensures Crowded(s, p, max)
  {
  }

  lemma Overfull(m: nat, k: nat, rest: nat, f: nat, front: nat)
    requires k + rest > m && front + rest * f == m * f && f > 0
    ensures front < k * f
  {
    MulMono(m + 1, k + rest, f);
    Distrib(m, 1, f);
    Distrib(k, rest, f);
  }

  /** Code `k`, the first below the limit, goes from `i` to `i + 1`, and so does the one before it. */
  function Repair(t: seq<nat>, k: nat, i: nat): (r: seq<nat>)
    requires 0 < k < |t|
    ensures |r| == |t|
  {
    t[k - 1 := i + 1][k := i + 1]
  }

  lemma RepairKeeps(s: seq<nat>, t: seq<nat>, max: nat, q: nat, k: nat) returns (q': nat)
    requires 0 < max <= LONGEST && Repairing(s, t, max, q) && LensUpTo(s, LONGEST) && Shares(s, LONGEST) == Pow2(LONGEST)
    requires 0 < k < |t| && t[k] < max && (forall p :: 0 <= p < k ==> t[p] == max) && Shares(t, max) > Pow2(max)
    ensures Repairing(s, Repair(t, k, t[k]), max, q')
  {
    hide Shares, Pow2;
    q' := if k >= q then k + 1 else q;
    if k >= q {
      assert forall p :: k <= p < |s| ==> t[p] <= t[k];
      assert forall p :: k <= p < |s| ==> t[p] == s[p];
      FirstCrowded(s, t, max, k);
    }
    hide Crowded;
    var r := Repair(t, k, t[k]);
    assert Descending(r);
  }

  // ---------------------------------------------------------------- the loss

  /** What code `p` may have been lengthened by. */
  function Extra(x: nat): nat
  {
    if x < LIMIT then LIMIT - x else 0
  }

  function Units(x: nat): nat
  {
    if x < LIMIT then Pow2(LIMIT - x) - 1 else 0
  }

  ghost function Loss(w: seq<nat>, s: seq<nat>, k: nat): nat
    requires k <= |w| == |s|
  {
    if k == 0 then 0 else Loss(w, s, k - 1) + w[k - 1] * Extra(s[k - 1])
  }

  ghost function AllUnits(s: seq<nat>, k: nat): nat
    requires k <= |s|
  {
    if k == 0 then 0 else AllUnits(s, k - 1) + Units(s[k - 1])
  }

  lemma FibValues()
    ensures Fib(2) == 1 && Fib(3) == 2 && Fib(4) == 3 && Fib(5) == 5 && Fib(6) == 8 && Fib(7) == 13 && Fib(8) == 21 && Fib(9) == 34
    ensures Fib(10) == 55 && Fib(11) == 89 && Fib(12) == 144 && Fib(13) == 233 && Fib(14) == 377 && Fib(15) == 610
  {
    assert Fib(5) == 5 && Fib(6) == 8;
    assert Fib(10) == 55 && Fib(11) == 89;
  }

  lemma PowValues()
    ensures Pow2(11) == 2048 && Pow2(12) == 4096 && Pow2(13) == 8192 && Pow2(14) == 16384
  {
    Pow2Values();
    assert Pow2(11) == 2 * Pow2(10);
  }

  /** Per unit of code space won back, lengthening costs at most one part in 540 of the whole. */
  lemma Rate(x: nat)
    requires 0 < x
    ensures 540 * Extra(x) <= Fib(x + 1) * Units(x)
    ensures x >= 7 ==> 540 * Extra(x) <= 206 * Fib(x + 1)
  {
    Pow2Values();
    PowValues();
    FibValues();
  }

  lemma RateOf(w: nat, x: nat, total: nat)
    requires 0 < x && w * Fib(x + 1) <= total
    ensures 540 * (w * Extra(x)) <= total * Units(x)
    ensures x >= 7 ==> 540 * (w * Extra(x)) <= 206 * total
  {
    Rate(x);
    hide *;
    Scaled(w, Fib(x + 1), Extra(x), Units(x), total);
    if x >= 7 {
      Scaled(w, Fib(x + 1), Extra(x), 206, total);
    }
  }

  lemma Scaled(w: nat, f: nat, e: nat, u: nat, total: nat)
    requires 540 * e <= f * u && w * f <= total
    ensures 540 * (w * e) <= total * u
  {
    MulMono(540 * e, f * u, w);
    MulMono(w * f, total, u);
    Assoc(w, f, u);
    Assoc(540, w, e);
    Assoc(w, 540, e);
  }

  /** Long codes are for light symbols: at length `l` at most the total over a Fibonacci number. */
  ghost predicate Light(w: seq<nat>, s: seq<nat>, total: nat)
  {
    |s| == |w| && forall p :: 0 <= p < |w| ==> w[p] * Fib(s[p] + 1) <= total
  }

  lemma {:induction false} LossUnits(w: seq<nat>, s: seq<nat>, k: nat, total: nat)
    requires k <= |w| == |s| && 0 !in s && Light(w, s, total)
    ensures 540 * Loss(w, s, k) <= total * AllUnits(s, k)
  {
    if k > 0 {
      LossUnits(w, s, k - 1, total);
      assert s[k - 1] in s;
      RateOf(w[k - 1], s[k - 1], total);
      hide Fib, Extra, Units;
      AddUnits(total, AllUnits(s, k - 1), Units(s[k - 1]));
    }
  }

  lemma AddUnits(total: nat, a: nat, b: nat)
    ensures total * (a + b) == total * a + total * b
  {
  }

  lemma ShareUnits(x: nat)
    requires x <= LONGEST
    ensures Share(x, LONGEST) >= Units(x) * Pow2(LONGEST - LIMIT)
  {
    if x < LIMIT {
      Pow2Add(LIMIT - x, LONGEST - LIMIT);
      MulMono(Pow2(LIMIT - x) - 1, Pow2(LIMIT - x), Pow2(LONGEST - LIMIT));
    }
  }

  lemma {:induction false} UnitsShares(s: seq<nat>, k: nat)
    requires k <= |s| && LensUpTo(s, LONGEST)
    ensures AllUnits(s, k) * Pow2(LONGEST - LIMIT) <= Shares(s[..k], LONGEST)
  {
    if k > 0 {
      hide Shares, Share, Units, Pow2;
      UnitsShares(s, k - 1);
      SharesSnoc(s, k - 1, LONGEST);
      ShareUnits(s[k - 1]);
      Distrib(AllUnits(s, k - 1), Units(s[k - 1]), Pow2(LONGEST - LIMIT));
    }
  }

  /** Where it is crowded, fewer units come before than codes. */
  lemma UnitsFew(s: seq<nat>, a: nat)
    requires a < |s| && LensUpTo(s, LONGEST) && Crowded(s, a, LIMIT)
    ensures AllUnits(s, a) < a
  {
    hide AllUnits, Shares;
    UnitsShares(s, a);
    MulCancel(AllUnits(s, a), a, Pow2(LONGEST - LIMIT));
  }

  lemma EndUpTo(s: seq<nat>, a: nat)
    requires a < |s| && Descending(s)
    ensures LensUpTo(s[a..], s[a])
  {
  }

  lemma FrontUpTo(s: seq<nat>, a: nat, max: nat)
    requires a <= |s| && LensUpTo(s, max)
    ensures LensUpTo(s[..a], max)
  {
  }

  /** A crowded code is not too short: the codes before it fill at least as much room as it takes. */
  lemma CrowdedLong(s: seq<nat>, a: nat)
    requires a < |s| && LensUpTo(s, LONGEST) && Descending(s) && Shares(s, LONGEST) == Pow2(LONGEST) && Crowded(s, a, LIMIT) && s[a] <= LIMIT
    ensures Pow2(LIMIT - s[a]) < a
  {
    hide Shares, Pow2, Descending, LensUpTo;
    var x, f, g := s[a], Pow2(LONGEST - LIMIT), Pow2(LONGEST - s[a]);
    EndUpTo(s, a);
    var c := SharesMultiple(s[a..], LONGEST, x);
    SharesSplit(s, a, LONGEST);
    FrontUpTo(s, a, LONGEST);
    SharesPositive(s[..a], LONGEST);
    Pow2Add(x, LONGEST - x);
    Pow2Add(LIMIT - x, LONGEST - LIMIT);
    TakesRoom(Pow2(x), Shares(s[..a], LONGEST), c, g, Pow2(LIMIT - x), f, a);
  }

  lemma TakesRoom(m: nat, b: nat, c: nat, g: nat, h: nat, f: nat, a: nat)
    requires b + c * g == m * g && a <= b < a * f && g == h * f && g > 0 && f > 0
    ensures h < a
  {
    MulCancel(c, m, g);
    MulMono(c + 1, m, g);
    Distrib(c, 1, g);
    MulCancel(h, a, f);
  }

  lemma SevenUp(x: nat)
    requires x <= LIMIT && Pow2(LIMIT - x) < 288
    ensures x >= 7
  {
    Pow2Values();
    if x < 7 {
      Pow2Mono(9, LIMIT - x);
    }
  }

  /** The codes up to the last crowded one cost no more than one bit per symbol in all. */
  lemma LossSmall(w: seq<nat>, s: seq<nat>, a: nat, total: nat)
    requires a < |w| == |s| <= 288 && LensUpTo(s, LONGEST) && Descending(s) && 0 !in s && Shares(s, LONGEST) == Pow2(LONGEST)
    requires Crowded(s, a, LIMIT) && s[a] < LIMIT && Light(w, s, total)
    ensures Loss(w, s, a + 1) <= total
  {
    hide *;
    LightAt(w, s, total, a);
    assert s[a] in s;
    LossUnits(w, s, a, total);
    UnitsFew(s, a);
    LimitIs();
    CrowdedLong(s, a);
    SevenUp(s[a]);
    RateOf(w[a], s[a], total);
    LossNext(w, s, a);
    SumOfLosses(Loss(w, s, a), w[a] * Extra(s[a]), AllUnits(s, a), total);
  }

  lemma LightAt(w: seq<nat>, s: seq<nat>, total: nat, k: nat)
    requires Light(w, s, total) && k < |w|
    ensures |s| == |w| && w[k] * Fib(s[k] + 1) <= total
  {
  }

  lemma LimitIs()
    ensures LIMIT == 15
  {
  }

  lemma LossNext(w: seq<nat>, s: seq<nat>, k: nat)
    requires k < |w| == |s|
    ensures Loss(w, s, k + 1) == Loss(w, s, k) + w[k] * Extra(s[k])
  {
  }

  lemma SumOfLosses(x: nat, y: nat, units: nat, total: nat)
    requires 540 * x <= total * units && units <= 286 && 540 * y <= 206 * total
    ensures x + y <= total
  {
    MulMono(units, 286, total);
  }

  lemma {:induction false} LossCovers(w: seq<nat>, s: seq<nat>, t: seq<nat>, a: nat, k: nat)
    requires k <= |w| == |s| == |t| && a <= |s| && LensUpTo(t, LIMIT) && forall p :: a <= p < |s| ==> t[p] <= s[p]
    ensures Cost(w[..k], t[..k]) <= Cost(w[..k], s[..k]) + Loss(w, s, if k <= a then k else a)
  {
    if k > 0 {
      hide *;
      UpToAt(t, LIMIT, k - 1);
      LossCovers(w, s, t, a, k - 1);
      CostSnoc(w, s, k - 1);
      CostSnoc(w, t, k - 1);
      if k <= a {
        LossNext(w, s, k - 1);
        LongerBy(w[k - 1], t[k - 1], s[k - 1]);
      } else {
        NoLonger(w[k - 1], t[k - 1], s[k - 1]);
      }
    }
  }

  lemma UpToAt(t: seq<nat>, max: nat, k: nat)
    requires LensUpTo(t, max) && k < |t|
    ensures t[k] <= max
  {
  }

  lemma NoLonger(w: nat, t: nat, s: nat)
    requires t <= s
    ensures w * t <= w * s
  {
    MulMono(t, s, w);
  }

  lemma LongerBy(w: nat, t: nat, s: nat)
    requires t <= LIMIT
    ensures w * t <= w * s + w * Extra(s)
  {
    MulMono(t, s + Extra(s), w);
    Distrib(s, Extra(s), w);
    assert w * t == t * w && w * s == s * w && w * Extra(s) == Extra(s) * w;
  }

  lemma CostSnoc(w: seq<nat>, s: seq<nat>, k: nat)
    requires k < |w| == |s|
    ensures Cost(w[..k + 1], s[..k + 1]) == Cost(w[..k], s[..k]) + w[k] * s[k]
  {
    assert w[..k + 1] == w[..k] + [w[k]] && s[..k + 1] == s[..k] + [s[k]];
    CostConcat(w[..k], [w[k]], s[..k], [s[k]]);
    assert [w[k]][1..] == [] && [s[k]][1..] == [];
  }

  /** Limiting the lengths of a Huffman code to 15 costs at most one bit a symbol. */
  lemma LimitingCheap(w: seq<nat>, s: seq<nat>, t: seq<nat>, total: nat)
    requires |w| == |s| <= 288 && LensUpTo(s, LONGEST) && Descending(s) && 0 !in s && Shares(s, LONGEST) == Pow2(LONGEST)
    requires Limited(s, t, LIMIT) && Light(w, s, total)
    ensures Cost(w, t) <= Cost(w, s) + total
  {
    hide *;
    LimitedIs(s, t);
    var a := LastCrowded(s, t, |s|);
    LossCovers(w, s, t, a, |w|);
    assert w[..|w|] == w && s[..|s|] == s && t[..|t|] == t;
    if a > 0 {
      LossSmall(w, s, a - 1, total);
    } else {
      NoLoss(w, s);
    }
  }

  lemma NoLoss(w: seq<nat>, s: seq<nat>)
    requires |w| == |s|
    ensures Loss(w, s, 0) == 0
  {
  }

  lemma LimitedIs(s: seq<nat>, t: seq<nat>)
    requires Limited(s, t, LIMIT)
    ensures |t| == |s| && LensUpTo(t, LIMIT)
  {
  }

  lemma {:induction false} LastCrowded(s: seq<nat>, t: seq<nat>, k: nat) returns (a: nat)
    requires k <= |s| && Limited(s, t, LIMIT)
    ensures a <= k && (forall p :: a <= p < k ==> t[p] <= s[p])
    ensures a > 0 ==> s[a - 1] < LIMIT && Crowded(s, a - 1, LIMIT)
  {
    if k == 0 {
      a := 0;
    } else if t[k - 1] > s[k - 1] {
      a := k;
    } else {
      a := LastCrowded(s, t, k - 1);
    }
  }
}
