/**
 The cost of a prefix code, and the step on which the optimality of Huffman's algorithm rests: of the
 codes that Kraft's inequality allows, a cheapest one gives the two rarest symbols sibling codes.
 */
module PrefixCost {
  import opened Bits
  import opened Canonical

  /** Bits needed for symbols of frequencies `w` with code lengths `s`. */
  function Cost(w: seq<nat>, s: seq<nat>): nat
    requires |w| == |s|
  {
    if w == [] then 0 else w[0] * s[0] + Cost(w[1..], s[1..])
  }

  /** The share of the code space that a code of length `x` takes, in units of 2^-m. */
  function Share(x: nat, m: nat): nat
  {
    if x <= m then Pow2(m - x) else 0
  }

  function Shares(s: seq<nat>, m: nat): nat
  {
    if s == [] then 0 else Share(s[0], m) + Shares(s[1..], m)
  }

  ghost predicate Feasible(s: seq<nat>, m: nat)
  {
    LensUpTo(s, m) && Shares(s, m) <= Pow2(m)
  }

  function Remove(s: seq<nat>, i: nat): (r: seq<nat>)
    requires i < |s|
    ensures |r| == |s| - 1
  {
    s[..i] + s[i + 1..]
  }

  function Insert(s: seq<nat>, i: nat, x: nat): (r: seq<nat>)
    requires i <= |s|
    ensures |r| == |s| + 1
  {
    s[..i] + [x] + s[i..]
  }

  lemma RemoveInserted(s: seq<nat>, i: nat, x: nat)
    requires i <= |s|
    ensures Remove(Insert(s, i, x), i) == s && Insert(s, i, x)[i] == x
  {
  }

  lemma {:induction false} CostRemove(w: seq<nat>, s: seq<nat>, i: nat)
    requires i < |w| == |s|
    ensures Cost(w, s) == w[i] * s[i] + Cost(Remove(w, i), Remove(s, i))
  {
    if i == 0 {
      assert Remove(w, 0) == w[1..] && Remove(s, 0) == s[1..];
    } else {
      CostRemove(w[1..], s[1..], i - 1);
      assert Remove(w, i)[1..] == Remove(w[1..], i - 1) && Remove(s, i)[1..] == Remove(s[1..], i - 1);
    }
  }

  lemma {:induction false} SharesRemove(s: seq<nat>, m: nat, i: nat)
    requires i < |s|
    ensures Shares(s, m) == Share(s[i], m) + Shares(Remove(s, i), m)
  {
    if i == 0 {
      assert Remove(s, 0) == s[1..];
    } else {
      SharesRemove(s[1..], m, i - 1);
      assert Remove(s, i)[1..] == Remove(s[1..], i - 1);
    }
  }

  lemma {:induction false} CostConcat(v: seq<nat>, w: seq<nat>, s: seq<nat>, t: seq<nat>)
    requires |v| == |s| && |w| == |t|
    ensures Cost(v + w, s + t) == Cost(v, s) + Cost(w, t)
  {
    if v == [] {
      assert v + w == w && s + t == t;
    } else {
      CostConcat(v[1..], w, s[1..], t);
      assert (v + w)[1..] == v[1..] + w && (s + t)[1..] == s[1..] + t;
    }
  }

  lemma CostUpdate(w: seq<nat>, s: seq<nat>, i: nat, v: nat)
    requires i < |w| == |s|
    ensures Cost(w, s[i := v]) + w[i] * s[i] == Cost(w, s) + w[i] * v
  {
    CostRemove(w, s, i);
    CostRemove(w, s[i := v], i);
    assert Remove(s[i := v], i) == Remove(s, i);
  }

  lemma SharesUpdate(s: seq<nat>, m: nat, i: nat, v: nat)
    requires i < |s|
    ensures Shares(s[i := v], m) + Share(s[i], m) == Shares(s, m) + Share(v, m)
  {
    SharesRemove(s, m, i);
    SharesRemove(s[i := v], m, i);
    assert Remove(s[i := v], i) == Remove(s, i);
  }

  // ---------------------------------------------------------------- the exchange

  /** Giving the rarer symbol the longer code costs nothing. */
  lemma SwapCheaper(w: seq<nat>, s: seq<nat>, m: nat, i: nat, k: nat)
    requires i < |w| == |s| && k < |s| && i != k && w[i] <= w[k] && s[i] <= s[k] && Feasible(s, m)
    ensures var t := s[i := s[k]][k := s[i]]; Feasible(t, m) && Cost(w, t) <= Cost(w, s)
  {
    hide Cost, Share, Shares;
    var u := s[i := s[k]];
    CostUpdate(w, s, i, s[k]);
    CostUpdate(w, u, k, s[i]);
    SharesUpdate(s, m, i, s[k]);
    SharesUpdate(u, m, k, s[i]);
    Crosswise(w[i], w[k], s[i], s[k]);
  }

  lemma Crosswise(a: nat, b: nat, x: nat, y: nat)
    requires a <= b && x <= y
    ensures a * y + b * x <= a * x + b * y
  {
    assert (b - a) * (y - x) >= 0;
    assert (b - a) * (y - x) == b * y - b * x - a * y + a * x;
  }

  /** A longest code, leaving out symbol `skip`. */
  lemma {:induction false} Longest(s: seq<nat>, skip: int, first: nat) returns (k: nat)
    requires first < |s| && first != skip
    ensures k < |s| && k != skip && forall j :: 0 <= j < |s| && j != skip ==> s[j] <= s[k]
  {
    k := first;
    var n := 0;
    while n < |s|
      invariant n <= |s| && k < |s| && k != skip && forall j :: 0 <= j < n && j != skip ==> s[j] <= s[k]
    {
      if n != skip && s[n] > s[k] {
        k := n;
      }
      n := n + 1;
    }
  }

  lemma {:induction false} SharesMultiple(s: seq<nat>, m: nat, x: nat) returns (c: nat)
    requires x <= m && LensUpTo(s, x)
    ensures Shares(s, m) == c * Pow2(m - x)
  {
    if s == [] {
      c := 0;
    } else {
      var d := SharesMultiple(s[1..], m, x);
      c := d + Pow2(x - s[0]);
      Pow2Add(x - s[0], m - x);
      Distrib(d, Pow2(x - s[0]), Pow2(m - x));
    }
  }

  /** A longest code with no equal can be cut to the length of the next. */
  lemma Shorten(s: seq<nat>, m: nat, i: nat, x: nat)
    requires i < |s| && Feasible(s, m) && x <= s[i] && LensUpTo(Remove(s, i), x) && |s| >= 2
    ensures Feasible(s[i := x], m) && x >= 1
  {
    var c := SharesMultiple(Remove(s, i), m, x);
    SharesRemove(s, m, i);
    SharesUpdate(s, m, i, x);
    Pow2Add(x, m - x);
    assert Share(s[i], m) >= 1;
    var p := Pow2(m - x);
    assert c * p < Pow2(x) * p;
    if c >= Pow2(x) {
      MulMono(Pow2(x), c, p);
    }
    Distrib(c, 1, p);
    MulMono(c + 1, Pow2(x), p);
  }

  /** The two rarest symbols can have sibling codes, the longest of all. */
  lemma Balanced(w: seq<nat>, s: seq<nat>, m: nat, i: nat, j: nat) returns (t: seq<nat>)
    requires |w| == |s| && i < |s| && j < |s| && i != j && Feasible(s, m)
    requires forall k :: 0 <= k < |w| ==> w[i] <= w[k] && (k != i ==> w[j] <= w[k])
    ensures |t| == |w| && Feasible(t, m) && Cost(w, t) <= Cost(w, s) && t[i] == t[j] >= 1
  {
    hide Cost, Feasible;
    var s1 := MadeLongest(w, s, m, -1, i);
    var s2 := MadeLongest(w, s1, m, i, j);
    t := Evened(w, s2, m, i, j);
  }

  /** Swapping the longest code outside `skip` to `i`, a weight no greater than the others there. */
  lemma MadeLongest(w: seq<nat>, s: seq<nat>, m: nat, skip: int, i: nat) returns (t: seq<nat>)
    requires |w| == |s| && i < |s| && i != skip && Feasible(s, m)
    requires forall k :: 0 <= k < |w| && k != skip ==> w[i] <= w[k]
    requires 0 <= skip < |s| ==> forall l :: 0 <= l < |s| ==> s[l] <= s[skip]
    ensures |t| == |w| && Feasible(t, m) && Cost(w, t) <= Cost(w, s)
    ensures forall l :: 0 <= l < |s| && l != skip ==> t[l] <= t[i]
    ensures 0 <= skip < |s| ==> forall l :: 0 <= l < |s| ==> t[l] <= t[skip]
  {
    hide Cost, Feasible;
    var k := Longest(s, skip, i);
    t := s;
    if k != i {
      SwapCheaper(w, s, m, i, k);
      t := s[i := s[k]][k := s[i]];
    }
  }

  /** The longest code cut to the length of the second longest. */
  lemma Evened(w: seq<nat>, s: seq<nat>, m: nat, i: nat, j: nat) returns (t: seq<nat>)
    requires |w| == |s| && i < |s| && j < |s| && i != j && Feasible(s, m)
    requires s[j] <= s[i] && forall l :: 0 <= l < |s| && l != i ==> s[l] <= s[j]
    ensures |t| == |w| && Feasible(t, m) && Cost(w, t) <= Cost(w, s) && t[i] == t[j] >= 1
  {
    hide Cost, Feasible;
    assert LensUpTo(Remove(s, i), s[j]);
    Shorten(s, m, i, s[j]);
    t := s[i := s[j]];
    CostUpdate(w, s, i, s[j]);
    MulMono(s[j], s[i], w[i]);
    assert w[i] * s[j] <= w[i] * s[i];
  }

  /** What is left after the two rarest weights, in places `i` and then `j`, are merged into place `pos`. */
  function Merged(w: seq<nat>, i: nat, j: nat, pos: nat): (r: seq<nat>)
    requires |w| >= 2 && i < |w| && j < |w| - 1 && pos <= |w| - 2
  {
    Insert(Remove(Remove(w, i), j), pos, w[i] + Remove(w, i)[j])
  }

  /** Any code for the weights gives one for the merged weights that is cheaper by their sum. */
  lemma MergeCheaper(w: seq<nat>, s: seq<nat>, m: nat, i: nat, j: nat, pos: nat) returns (t: seq<nat>)
    requires |w| == |s| >= 2 && i < |w| && j < |w| - 1 && pos <= |w| - 2 && Feasible(s, m)
    requires forall k :: 0 <= k < |w| ==> w[i] <= w[k]
    requires forall k :: 0 <= k < |w| - 1 ==> Remove(w, i)[j] <= Remove(w, i)[k]
    ensures |t| == |w| - 1 == |Merged(w, i, j, pos)| && Feasible(t, m)
    ensures Cost(Merged(w, i, j, pos), t) + w[i] + Remove(w, i)[j] <= Cost(w, s)
  {
    var j0 := if j < i then j else j + 1;
    assert forall k :: 0 <= k < |w| && k != i ==> w[k] == Remove(w, i)[if k < i then k else k - 1];
    hide Cost, Shares;
    var u := Balanced(w, s, m, i, j0);
    assert Remove(w, i)[j] == w[j0] && Remove(u, i)[j] == u[j0];
    t := MergeSiblings(w, u, m, i, j, pos);
  }

  /** Sibling codes merge into one that is a bit shorter. */
  lemma MergeSiblings(w: seq<nat>, u: seq<nat>, m: nat, i: nat, j: nat, pos: nat) returns (t: seq<nat>)
    requires |w| == |u| >= 2 && i < |w| && j < |w| - 1 && pos <= |w| - 2 && Feasible(u, m)
    requires u[i] == Remove(u, i)[j] >= 1
    ensures |t| == |w| - 1 == |Merged(w, i, j, pos)| && Feasible(t, m)
    ensures Cost(Merged(w, i, j, pos), t) + w[i] + Remove(w, i)[j] == Cost(w, u)
  {
    t := Insert(Remove(Remove(u, i), j), pos, u[i] - 1);
    MergedFeasible(u, m, i, j, pos);
    MergedCost(w, u, i, j, pos);
  }

  lemma MergedFeasible(u: seq<nat>, m: nat, i: nat, j: nat, pos: nat)
    requires |u| >= 2 && i < |u| && j < |u| - 1 && pos <= |u| - 2 && Feasible(u, m) && u[i] == Remove(u, i)[j] >= 1
    ensures Feasible(Insert(Remove(Remove(u, i), j), pos, u[i] - 1), m)
  {
    var l, u1 := u[i], Remove(u, i);
    var u2 := Remove(u1, j);
    RemoveUpTo(u, i, m);
    RemoveUpTo(u1, j, m);
    InsertUpTo(u2, pos, l - 1, m);
    ShorterShare(l, m);
    RemoveInserted(u2, pos, l - 1);
    hide Shares, Share, Remove, Insert, LensUpTo;
    SharesRemove(u, m, i);
    SharesRemove(u1, m, j);
    SharesRemove(Insert(u2, pos, l - 1), m, pos);
  }

  lemma MergedCost(w: seq<nat>, u: seq<nat>, i: nat, j: nat, pos: nat)
    requires |w| == |u| >= 2 && i < |w| && j < |w| - 1 && pos <= |w| - 2 && u[i] == Remove(u, i)[j] >= 1
    ensures var t := Insert(Remove(Remove(u, i), j), pos, u[i] - 1);
      Cost(Merged(w, i, j, pos), t) + w[i] + Remove(w, i)[j] == Cost(w, u)
  {
    var x1, x2, l := w[i], Remove(w, i)[j], u[i];
    var w1, u1 := Remove(w, i), Remove(u, i);
    var w2, u2 := Remove(w1, j), Remove(u1, j);
    assert Merged(w, i, j, pos) == Insert(w2, pos, x1 + x2);
    RemoveInserted(w2, pos, x1 + x2);
    RemoveInserted(u2, pos, l - 1);
    hide *;
    CostRemove(w, u, i);
    CostRemove(w1, u1, j);
    CostRemove(Insert(w2, pos, x1 + x2), Insert(u2, pos, l - 1), pos);
    OneLess(x1, x2, l);
  }

  lemma OneLess(x: nat, y: nat, l: nat)
    requires l >= 1
    ensures (x + y) * (l - 1) + x + y == x * l + y * l
  {
  }

  lemma RemoveUpTo(s: seq<nat>, i: nat, m: nat)
    requires i < |s| && LensUpTo(s, m)
    ensures LensUpTo(Remove(s, i), m)
  {
  }

  lemma InsertUpTo(s: seq<nat>, i: nat, x: nat, m: nat)
    requires i <= |s| && LensUpTo(s, m) && x <= m
    ensures LensUpTo(Insert(s, i, x), m)
  {
  }

  lemma ShorterShare(l: nat, m: nat)
    requires 1 <= l <= m
    ensures Share(l - 1, m) == 2 * Share(l, m)
  {
  }
}
