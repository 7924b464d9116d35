/**
 Canonical Huffman codes (sections 3.1.1 and 3.2.2 of RFC 1951).

 A code is given by the code length of every symbol; length 0 means unused.
 `Used(s, l)` counts, at depth `l` of the binary tree, the nodes at or below a code of
 length at most `l`; it is the Kraft sum in units of 2^-l, evaluated by Horner's rule.
 */
module Canonical {
  import opened Bits

  function Count(s: seq<nat>, l: nat): nat
  {
    if s == [] then 0
    else Count(s[..|s| - 1], l) + (if s[|s| - 1] == l then 1 else 0)
  }

  function Used(s: seq<nat>, l: nat): nat
  {
    if l == 0 then 0 else 2 * Used(s, l - 1) + Count(s, l)
  }

  /** The smallest code of length `l`. */
  function First(s: seq<nat>, l: nat): nat
    requires l >= 1
  {
    2 * Used(s, l - 1)
  }

  function CodeOf(s: seq<nat>, i: nat): nat
    requires i < |s| && s[i] > 0
  {
    First(s, s[i]) + Count(s[..i], s[i])
  }

  function HuffBits(s: seq<nat>, i: nat): (r: seq<bool>)
    requires i < |s| && s[i] > 0
    ensures |r| == s[i]
  {
    CodeBits(CodeOf(s, i), s[i])
  }

  ghost predicate LensUpTo(s: seq<nat>, max: nat)
  {
    forall i :: 0 <= i < |s| ==> s[i] <= max
  }

  /** Kraft's inequality for lengths of at most `max`. */
  ghost predicate Kraft(s: seq<nat>, max: nat)
  {
    LensUpTo(s, max) && Used(s, max) <= Pow2(max)
  }

  /** Kraft's equality: every bit string begins with a code. */
  ghost predicate Complete(s: seq<nat>, max: nat)
  {
    LensUpTo(s, max) && Used(s, max) == Pow2(max)
  }

  // ---------------------------------------------------------------- counting

  lemma {:induction false} CountAbsent(s: seq<nat>, l: nat)
    requires forall i :: 0 <= i < |s| ==> s[i] != l
    ensures Count(s, l) == 0
  {
    if s != [] {
      CountAbsent(s[..|s| - 1], l);
    }
  }

  lemma {:induction false} CountPrefix(s: seq<nat>, i: nat, l: nat)
    requires i <= |s|
    ensures Count(s[..i], l) <= Count(s, l)
    ensures i < |s| && s[i] == l ==> Count(s[..i], l) < Count(s, l)
    decreases |s|
  {
    if i == |s| {
      assert s[..i] == s;
    } else {
      var s' := s[..|s| - 1];
      assert s[..i] == s'[..i];
      if i < |s'| {
        assert s'[i] == s[i];
      }
      CountPrefix(s', i, l);
    }
  }

  lemma CountStrict(s: seq<nat>, i: nat, j: nat, l: nat)
    requires i < j < |s| && s[i] == l
    ensures Count(s[..i], l) < Count(s[..j], l)
  {
    assert s[..j][..i] == s[..i];
    CountPrefix(s[..j], i, l);
  }

  lemma {:induction false} FindRank(s: seq<nat>, l: nat, r: nat) returns (i: nat)
    requires r < Count(s, l)
    ensures i < |s| && s[i] == l && Count(s[..i], l) == r
  {
    var n := |s| - 1;
    if s[n] == l && Count(s[..n], l) == r {
      i := n;
    } else {
      i := FindRank(s[..n], l, r);
      assert s[..n][..i] == s[..i];
    }
  }

  lemma {:induction false} CountUpdate(s: seq<nat>, i: nat, v: nat, l: nat)
    requires i < |s|
    ensures Count(s[i := v], l) + (if s[i] == l then 1 else 0) == Count(s, l) + (if v == l then 1 else 0)
  {
    var n := |s| - 1;
    if i == n {
      assert s[i := v][..n] == s[..n];
    } else {
      assert s[i := v][..n] == s[..n][i := v];
      CountUpdate(s[..n], i, v, l);
    }
  }

  lemma {:induction false} CountConcat(a: seq<nat>, b: seq<nat>, l: nat)
    ensures Count(a + b, l) == Count(a, l) + Count(b, l)
  {
    if b == [] {
      assert a + b == a;
    } else {
      assert (a + b)[..|a + b| - 1] == a + b[..|b| - 1];
      CountConcat(a, b[..|b| - 1], l);
    }
  }

  lemma {:induction false} UsedSame(s: seq<nat>, t: seq<nat>, l: nat)
    requires forall k :: 1 <= k <= l ==> Count(s, k) == Count(t, k)
    ensures Used(s, l) == Used(t, l)
  {
    if l > 0 {
      UsedSame(s, t, l - 1);
    }
  }

  // ---------------------------------------------------------------- the tree

  lemma ScaleStep(u: nat, u1: nat, p: nat)
    requires 2 * u <= u1
    ensures u * (2 * p) <= u1 * p
  {
    MulMono(2 * u, u1, p);
    assert u * (2 * p) == (2 * u) * p;
  }

  lemma {:induction false} UsedScale(s: seq<nat>, l: nat, m: nat)
    requires l <= m
    ensures Used(s, l) * Pow2(m - l) <= Used(s, m)
    decreases m - l
  {
    if l < m {
      UsedScale(s, l + 1, m);
      ScaleStep(Used(s, l), Used(s, l + 1), Pow2(m - l - 1));
    }
  }

  lemma {:induction false} UsedBeyond(s: seq<nat>, l: nat, m: nat)
    requires l <= m && LensUpTo(s, l)
    ensures Used(s, m) == Used(s, l) * Pow2(m - l)
    decreases m
  {
    if l < m {
      UsedBeyond(s, l, m - 1);
      CountAbsent(s, m);
      var p := Pow2(m - 1 - l);
      assert 2 * (Used(s, l) * p) == Used(s, l) * (2 * p);
    }
  }

  /** Raising the length limit keeps completeness. */
  lemma CompleteRaise(s: seq<nat>, l: nat, m: nat)
    requires l <= m && Complete(s, l)
    ensures Complete(s, m)
  {
    UsedBeyond(s, l, m);
    Pow2Add(l, m - l);
  }

  lemma UsedFits(s: seq<nat>, l: nat, max: nat)
    requires l <= max && Kraft(s, max)
    ensures Used(s, l) <= Pow2(l)
  {
    UsedScale(s, l, max);
    Pow2Add(l, max - l);
    MulCancel(Used(s, l), Pow2(l), Pow2(max - l));
  }

  /** A canonical code fits its length and lies in the band of codes of that length. */
  lemma CodeFits(s: seq<nat>, i: nat, max: nat)
    requires Kraft(s, max) && i < |s| && s[i] > 0
    ensures First(s, s[i]) <= CodeOf(s, i) < Used(s, s[i]) <= Pow2(s[i])
  {
    CountPrefix(s, i, s[i]);
    UsedFits(s, s[i], max);
  }

  lemma CodeOfInjective(s: seq<nat>, i: nat, j: nat)
    requires i < |s| && j < |s| && s[i] == s[j] > 0 && CodeOf(s, i) == CodeOf(s, j)
    ensures i == j
  {
    if i < j {
      CountStrict(s, i, j, s[i]);
    } else if j < i {
      CountStrict(s, j, i, s[i]);
    }
  }

  /** Reading a code off a bit string means dividing the string's value. */
  lemma PrefixValue(s: seq<nat>, i: nat, b: seq<bool>, max: nat)
    requires Kraft(s, max) && i < |s| && s[i] > 0
    ensures HuffBits(s, i) <= b <==> s[i] <= |b| && MsbValue(b) / Pow2(|b| - s[i]) == CodeOf(s, i)
  {
    CodeFits(s, i, max);
    hide Kraft, CodeOf, Pow2, MsbValue, CodeBits;
    var n := s[i];
    MsbValueCodeBits(CodeOf(s, i), n);
    if n <= |b| {
      MsbValuePrefix(b, n);
      CodeBitsMsbValue(b[..n]);
      assert HuffBits(s, i) <= b <==> HuffBits(s, i) == b[..n];
    }
  }

  /** No code is a prefix of another: a bit string begins with at most one code. */
  lemma PrefixFree(s: seq<nat>, i: nat, j: nat, b: seq<bool>, max: nat)
    requires Kraft(s, max)
    requires i < |s| && s[i] > 0 && HuffBits(s, i) <= b
    requires j < |s| && s[j] > 0 && HuffBits(s, j) <= b
    ensures i == j
  {
    PrefixValue(s, i, b, max);
    PrefixValue(s, j, b, max);
    if s[i] == s[j] {
      CodeOfInjective(s, i, j);
    } else if s[i] < s[j] {
      PrefixOrder(s, i, j, b, max);
    } else {
      PrefixOrder(s, j, i, b, max);
    }
  }

  lemma PrefixOrder(s: seq<nat>, i: nat, j: nat, b: seq<bool>, max: nat)
    requires Kraft(s, max)
    requires i < |s| && j < |s| && 0 < s[i] < s[j] <= |b|
    requires MsbValue(b) / Pow2(|b| - s[j]) == CodeOf(s, j)
    ensures MsbValue(b) / Pow2(|b| - s[i]) > CodeOf(s, i)
  {
    var d, c := s[j] - s[i], CodeOf(s, j);
    CodeFits(s, i, max);
    CodeFits(s, j, max);
    assert c / Pow2(d) == MsbValue(b) / Pow2(|b| - s[i]) by {
      DivDiv(MsbValue(b), Pow2(|b| - s[j]), Pow2(d));
      Pow2Add(|b| - s[j], d);
    }
    BandsOrdered(s, s[i], s[j]);
    // so c lies above every code of the shorter length
    BelowBand(c, Pow2(d), Used(s, s[i]));
  }

  lemma BandsOrdered(s: seq<nat>, l: nat, m: nat)
    requires 0 < l < m
    ensures Used(s, l) * Pow2(m - l) <= First(s, m)
  {
    UsedScale(s, l, m - 1);
    hide Used;
    Doubled(Used(s, l), Pow2(m - 1 - l), Pow2(m - l));
  }

  lemma Doubled(u: nat, p: nat, q: nat)
    requires q == 2 * p
    ensures u * q == 2 * (u * p)
  {
  }

  lemma BelowBand(c: nat, p: nat, u: nat)
    requires p > 0 && u * p <= c
    ensures u <= c / p
  {
    var q := c / p;
    assert c == q * p + c % p;
    Distrib(q, 1, p);
    MulCancel(u, q + 1, p);
  }

  // ---------------------------------------------------------------- completeness

  lemma {:induction false} FindBand(s: seq<nat>, v: nat, max: nat, l: nat) returns (m: nat)
    requires l <= max && v < Used(s, l) * Pow2(max - l)
    ensures 1 <= m <= l
    ensures First(s, m) <= v / Pow2(max - m) < Used(s, m)
  {
    if v < Used(s, l - 1) * Pow2(max - (l - 1)) {
      m := FindBand(s, v, max, l - 1);
    } else {
      m := l;
      InBand(v, Pow2(max - l), Used(s, l - 1), Used(s, l));
    }
  }

  lemma InBand(v: nat, p: nat, below: nat, used: nat)
    requires p > 0 && below * (2 * p) <= v < used * p
    ensures 2 * below <= v / p < used
  {
    assert below * (2 * p) == 2 * below * p;
    BelowBand(v, p, 2 * below);
    var q, r := DivMod(v, p);
    MulCancel(v / p, used, p);
  }

  /** With Kraft's equality every long enough bit string begins with a code. */
  lemma CompleteDecodes(s: seq<nat>, b: seq<bool>, max: nat) returns (i: nat)
    requires Complete(s, max) && |b| == max
    ensures i < |s| && 0 < s[i] && HuffBits(s, i) <= b
  {
    MsbValueBound(b);
    assert Used(s, max) * Pow2(0) == Used(s, max);
    var m := FindBand(s, MsbValue(b), max, max);
    i := FindRank(s, m, MsbValue(b) / Pow2(max - m) - First(s, m));
    PrefixValue(s, i, b, max);
  }

  // ---------------------------------------------------------------- unused tails

  lemma CountPadding(s: seq<nat>, n: nat, l: nat)
    requires n <= |s| && l > 0
    requires forall i :: n <= i < |s| ==> s[i] == 0
    ensures Count(s, l) == Count(s[..n], l)
  {
    assert s == s[..n] + s[n..];
    CountConcat(s[..n], s[n..], l);
    CountAbsent(s[n..], l);
  }

  /** Trailing unused symbols do not influence a canonical code. */
  lemma HuffBitsPadding(s: seq<nat>, n: nat, i: nat)
    requires i < n <= |s| && s[i] > 0
    requires forall k :: n <= k < |s| ==> s[k] == 0
    ensures HuffBits(s[..n], i) == HuffBits(s, i)
  {
    forall k | 1 <= k <= s[i] - 1
      ensures Count(s, k) == Count(s[..n], k)
    {
      CountPadding(s, n, k);
    }
    UsedSame(s, s[..n], s[i] - 1);
    assert s[..n][..i] == s[..i];
  }

  lemma CompletePadding(s: seq<nat>, n: nat, max: nat)
    requires n <= |s|
    requires forall k :: n <= k < |s| ==> s[k] == 0
    ensures Used(s[..n], max) == Used(s, max)
  {
    forall k | 1 <= k <= max
      ensures Count(s, k) == Count(s[..n], k)
    {
      CountPadding(s, n, k);
    }
    UsedSame(s, s[..n], max);
  }
}
