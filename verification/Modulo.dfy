/** Facts about remainders. */
module Modulo {
  lemma ModUnique(a: int, b: int, n: nat)
    requires n > 0 && a % n == b % n && 0 <= b < n
    ensures a % n == b
  {
  }

  lemma ModMod(x: nat, n: nat)
    requires n > 0
    ensures x % n % n == x % n
  {
    ModIs(x % n, n, 0, x % n);
  }

  lemma ModAdd(a: int, b: int, c: int, n: nat)
    requires n > 0 && a % n == b % n
    ensures (a + c) % n == (b + c) % n
  {
    var q, r := a / n, b / n;
    assert a == q * n + a % n && b == r * n + b % n;
    assert (a + c) - (b + c) == (q - r) * n;
    ModMultiple(a + c, b + c, q - r, n);
  }

  lemma ModMultiple(x: int, y: int, k: int, n: nat)
    requires n > 0 && x - y == k * n
    ensures x % n == y % n
  {
    var q, r := y / n, y % n;
    assert y == q * n + r;
    assert x == (q + k) * n + r by { DistribInt(q, k, n); }
    ModIs(x, n, q + k, r);
  }

  lemma DistribInt(a: int, b: int, n: nat)
    ensures (a + b) * n == a * n + b * n
  {
  }

  lemma ModIs(x: int, n: nat, q: int, r: nat)
    requires n > 0 && r < n && x == q * n + r
    ensures x % n == r
  {
    var q', r' := x / n, x % n;
    assert x == q' * n + r';
    if q' > q {
      MulGap(q, q', n);
    } else if q' < q {
      MulGap(q', q, n);
    }
  }

  lemma MulGap(a: int, b: int, n: nat)
    requires a < b
    ensures a * n + n <= b * n
  {
    var d := b - a - 1;
    assert b * n == a * n + n + d * n by { DistribInt(a + 1, d, n); DistribInt(a, 1, n); }
    assert d * n >= 0;
  }

  lemma ModGapInt(p: nat, q: nat, n: nat)
    requires n > 0 && p < q < p + n
    ensures p % n != q % n
  {
    if p % n == q % n {
      var k := q / n - p / n;
      assert q - p == k * n by {
        assert q == q / n * n + q % n && p == p / n * n + p % n;
        DistribInt(p / n, k, n);
      }
      if k <= 0 {
        if k < 0 {
          MulGap(k, 0, n);
        }
      } else if k > 1 {
        MulGap(1, k, n);
      }
    }
  }
}
