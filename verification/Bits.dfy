/**
 Fixed-width machine integers, powers of two and bit strings.

 A DEFLATE stream is a sequence of bits. Plain fields travel least significant bit
 first (`ToBits`), Huffman codes most significant bit first (`CodeBits`).
 */
module Bits {

  type u8 = x: int | 0 <= x < 0x100
  type u16 = x: int | 0 <= x < 0x1_0000
  type u32 = x: int | 0 <= x < 0x1_0000_0000

  function Pow2(n: nat): (r: nat)
    ensures r >= 1
  {
    if n == 0 then 1 else 2 * Pow2(n - 1)
  }

  lemma {:induction false} Pow2Add(a: nat, b: nat)
    ensures Pow2(a + b) == Pow2(a) * Pow2(b)
  {
    if b > 0 {
      Pow2Add(a, b - 1);
      assert Pow2(a) * (2 * Pow2(b - 1)) == 2 * (Pow2(a) * Pow2(b - 1));
    }
  }

  lemma Pow2Mono(a: nat, b: nat)
    requires a <= b
    ensures Pow2(a) <= Pow2(b)
  {
    if a < b {
      Pow2Mono(a, b - 1);
    }
  }

  lemma Pow2Values()
    ensures Pow2(1) == 2 && Pow2(2) == 4 && Pow2(3) == 8 && Pow2(4) == 16 && Pow2(5) == 32
    ensures Pow2(6) == 64 && Pow2(7) == 128 && Pow2(8) == 256 && Pow2(9) == 512 && Pow2(10) == 1024
    ensures Pow2(15) == 32768 && Pow2(16) == 65536
  {
    assert Pow2(5) == 32;
    assert Pow2(10) == 1024;
    assert Pow2(15) == 32768;
  }

  // ---------------------------------------------------------------- arithmetic helpers

  lemma MulMono(a: nat, b: nat, k: nat)
    requires a <= b
    ensures a * k <= b * k
  {
  }

  lemma MulCancel(a: nat, b: nat, k: nat)
    requires k > 0
    ensures a * k <= b * k ==> a <= b
    ensures a * k < b * k ==> a < b
  {
    if a >= b {
      MulMono(b, a, k);
    }
    if a > b {
      MulMono(b + 1, a, k);
      Distrib(b, 1, k);
    }
  }

  lemma Distrib(a: nat, b: nat, k: nat)
    ensures (a + b) * k == a * k + b * k
  {
  }

  lemma DivUnique(x: nat, d: nat, q: nat, r: nat)
    requires d > 0 && r < d && x == q * d + r
    ensures x / d == q && x % d == r
  {
    var q', r' := x / d, x % d;
    assert x == q' * d + r' && 0 <= r' < d;
    Distrib(q, 1, d);
    Distrib(q', 1, d);
    MulCancel(q, q' + 1, d);
    MulCancel(q', q + 1, d);
  }

  lemma DivMod(x: nat, d: nat) returns (q: nat, r: nat)
    requires d > 0
    ensures q == x / d && r == x % d && r < d && x == r + q * d
  {
    q, r := x / d, x % d;
  }

  lemma DivNonNegative(a: nat, p: nat)
    requires p > 0
    ensures 0 <= a / p <= a
  {
    var q, r := DivMod(a, p);
    MulMono(1, p, q);
  }

  lemma TwoDivisions(a: nat, b: nat, q: nat, r: nat, q2: nat, r2: nat)
    requires a > 0 && b > 0 && r < a && r2 < b && q == r2 + q2 * b
    ensures a * b > 0 && r2 * a + r < a * b && r + q * a == q2 * (a * b) + (r2 * a + r)
  {
    MulMono(r2 + 1, b, a);
    Distrib(r2, 1, a);
    Distrib(r2, q2 * b, a);
    Assoc(q2, b, a);
  }

  lemma Assoc(a: nat, b: nat, c: nat)
    ensures a * b * c == a * (b * c)
  {
  }

  /** `x / (a * b)` taken in two steps. */
  lemma DivDiv(x: nat, a: nat, b: nat)
    requires a > 0 && b > 0
    ensures a * b > 0
    ensures x / a / b == x / (a * b)
  {
    var q, r := DivMod(x, a);
    var q2, r2 := DivMod(q, b);
    TwoDivisions(a, b, q, r, q2, r2);
    DivUnique(x, a * b, q2, r2 * a + r);
  }

  // ---------------------------------------------------------------- least significant bit first

  function ToBits(v: nat, n: nat): (r: seq<bool>)
    ensures |r| == n
  {
    if n == 0 then [] else [v % 2 == 1] + ToBits(v / 2, n - 1)
  }

  function BitValue(b: bool): nat { if b then 1 else 0 }

  function FromBits(b: seq<bool>): nat
  {
    if b == [] then 0 else BitValue(b[0]) + 2 * FromBits(b[1..])
  }

  lemma {:induction false} FromBitsBound(b: seq<bool>)
    ensures FromBits(b) < Pow2(|b|)
  {
    if b != [] {
      FromBitsBound(b[1..]);
    }
  }

  lemma {:induction false} FromToBits(v: nat, n: nat)
    requires v < Pow2(n)
    ensures FromBits(ToBits(v, n)) == v
  {
    if n > 0 {
      FromToBits(v / 2, n - 1);
      assert ToBits(v, n)[1..] == ToBits(v / 2, n - 1);
    }
  }

  lemma {:induction false} ToFromBits(b: seq<bool>)
    ensures ToBits(FromBits(b), |b|) == b
  {
    if b != [] {
      ToFromBits(b[1..]);
      assert b == [b[0]] + b[1..];
    }
  }

  lemma {:induction false} FromBitsConcat(a: seq<bool>, b: seq<bool>)
    ensures FromBits(a + b) == FromBits(a) + Pow2(|a|) * FromBits(b)
  {
    if a == [] {
      assert a + b == b;
    } else {
      FromBitsConcat(a[1..], b);
      assert (a + b)[1..] == a[1..] + b;
      assert 2 * (Pow2(|a| - 1) * FromBits(b)) == (2 * Pow2(|a| - 1)) * FromBits(b);
    }
  }

  /** Appending `m` bits of value `b` above `n` bits of value `a` joins the two bit strings. */
  lemma JoinHalf(a: nat, b: nat, p: nat, q: nat)
    requires q == 2 * p
    ensures (a + b * q) % 2 == a % 2 && (a + b * q) / 2 == a / 2 + b * p
  {
    assert b * q == 2 * (b * p);
  }

  lemma {:induction false} ToBitsJoin(a: nat, n: nat, b: nat, m: nat)
    requires a < Pow2(n)
    ensures ToBits(a + b * Pow2(n), n + m) == ToBits(a, n) + ToBits(b, m)
  {
    if n == 0 {
      assert b * Pow2(0) == b;
    } else {
      JoinHalf(a, b, Pow2(n - 1), Pow2(n));
      ToBitsJoin(a / 2, n - 1, b, m);
    }
  }

  function BytesToBits(s: seq<u8>): (r: seq<bool>)
    ensures |r| == 8 * |s|
  {
    if s == [] then [] else BytesToBits(s[..|s| - 1]) + ToBits(s[|s| - 1], 8)
  }

  lemma BytesSnoc(s: seq<u8>, b: u8)
    ensures BytesToBits(s + [b]) == BytesToBits(s) + ToBits(b, 8)
  {
    assert (s + [b])[..|s + [b]| - 1] == s;
  }

  lemma NoBytes()
    ensures BytesToBits([]) == []
  {
  }

  lemma ConcatThree<T>(a: seq<T>, b: seq<T>, c: seq<T>)
    ensures a + b + c == a + (b + c)
  {
  }

  lemma {:induction false} BytesToBitsConcat(a: seq<u8>, b: seq<u8>)
    ensures BytesToBits(a + b) == BytesToBits(a) + BytesToBits(b)
  {
    if b == [] {
      assert a + b == a;
    } else {
      var b', last := b[..|b| - 1], b[|b| - 1];
      hide *;
      BytesToBitsConcat(a, b');
      BytesSnoc(a + b', last);
      BytesSnoc(b', last);
      assert b == b' + [last];
      ConcatThree(a, b', [last]);
      ConcatThree(BytesToBits(a), BytesToBits(b'), ToBits(last, 8));
    }
  }

  // ---------------------------------------------------------------- most significant bit first

  /** The low `n` bits of `c`, most significant first: the order in which a Huffman code is sent. */
  function CodeBits(c: nat, n: nat): (r: seq<bool>)
    ensures |r| == n
  {
    if n == 0 then [] else CodeBits(c / 2, n - 1) + [c % 2 == 1]
  }

  function MsbValue(b: seq<bool>): nat
  {
    if b == [] then 0 else 2 * MsbValue(b[..|b| - 1]) + BitValue(b[|b| - 1])
  }

  lemma {:induction false} MsbValueBound(b: seq<bool>)
    ensures MsbValue(b) < Pow2(|b|)
  {
    if b != [] {
      MsbValueBound(b[..|b| - 1]);
    }
  }

  lemma {:induction false} MsbValueCodeBits(c: nat, n: nat)
    requires c < Pow2(n)
    ensures MsbValue(CodeBits(c, n)) == c
  {
    if n > 0 {
      MsbValueCodeBits(c / 2, n - 1);
      LastCodeBit(c, n);
      hide CodeBits, Pow2;
      var b := CodeBits(c, n);
      assert b[..n - 1] == CodeBits(c / 2, n - 1) && BitValue(b[n - 1]) == c % 2;
    }
  }

  lemma LastCodeBit(c: nat, n: nat)
    requires n > 0
    ensures CodeBits(c, n) == CodeBits(c / 2, n - 1) + [c % 2 == 1]
  {
  }

  lemma {:induction false} CodeBitsMsbValue(b: seq<bool>)
    ensures CodeBits(MsbValue(b), |b|) == b
  {
    if b != [] {
      var init, last := b[..|b| - 1], b[|b| - 1];
      CodeBitsMsbValue(init);
      assert b == init + [last];
      assert MsbValue(b) == 2 * MsbValue(init) + (if last then 1 else 0);
      CodeBitsSnoc(MsbValue(init), last, |init|);
    }
  }

  lemma CodeBitsSnoc(v: nat, last: bool, n: nat)
    ensures CodeBits(2 * v + (if last then 1 else 0), n + 1) == CodeBits(v, n) + [last]
  {
  }

  /** Dropping trailing bits divides the value. */
  lemma {:induction false} MsbValuePrefix(b: seq<bool>, m: nat)
    requires m <= |b|
    ensures MsbValue(b[..m]) == MsbValue(b) / Pow2(|b| - m)
    decreases |b| - m
  {
    if m == |b| {
      assert b[..m] == b;
    } else {
      MsbValuePrefix(b, m + 1);
      var c := b[..m + 1];
      assert c[..|c| - 1] == b[..m];
      assert MsbValue(b[..m]) == MsbValue(c) / 2;
      DivDiv(MsbValue(b), Pow2(|b| - m - 1), 2);
    }
  }

  /** The same bits read from the top. */
  lemma {:induction false} CodeBitsHead(c: nat, n: nat)
    requires n > 0
    ensures CodeBits(c, n) == [(c / Pow2(n - 1)) % 2 == 1] + CodeBits(c, n - 1)
  {
    if n > 1 {
      CodeBitsHead(c / 2, n - 1);
      DivDiv(c, 2, Pow2(n - 2));
      assert CodeBits(c, n) == CodeBits(c / 2, n - 1) + [c % 2 == 1];
      assert CodeBits(c, n - 1) == CodeBits(c / 2, n - 2) + [c % 2 == 1];
    }
  }
}
