/**
 The Adler-32 checksum (section 2.2 of RFC 1950; miniz.c, `mz_adler32` and the copy of its loop at the
 end of `tinfl_decompress`): sums are reduced only once per block of 5552 bytes.
 */
module Adler {
  import opened Bits
  import opened Modulo

  const BASE := 65521
  const BLOCK := 5552

  /** The two running sums. */
  datatype Sums = Sums(a: nat, b: nat)

  // ---------------------------------------------------------------- the definition, a byte at a time

  function Step(s: Sums, x: u8): Sums
  {
    Sums((s.a + x) % BASE, (s.b + (s.a + x) % BASE) % BASE)
  }

  function Run(s: Sums, data: seq<u8>): Sums
  {
    if data == [] then s else Step(Run(s, data[..|data| - 1]), data[|data| - 1])
  }

  function Word(s: Sums): nat
  {
    s.b * 0x1_0000 + s.a
  }

  /** The checksum of a whole byte string. */
  function Checksum(data: seq<u8>): nat
  {
    Word(Run(Sums(1, 0), data))
  }

  function SumsOf(adler: u32): Sums
  {
    Sums(adler % 0x1_0000, adler / 0x1_0000)
  }

  function Reduced(s: Sums): Sums
  {
    Sums(s.a % BASE, s.b % BASE)
  }

  lemma {:induction false} RunConcat(s: Sums, x: seq<u8>, y: seq<u8>)
    ensures Run(s, x + y) == Run(Run(s, x), y)
  {
    if y == [] {
      assert x + y == x;
    } else {
      var y', b := y[..|y| - 1], y[|y| - 1];
      assert (x + y)[..|x + y| - 1] == x + y';
      RunConcat(s, x, y');
    }
  }

  lemma {:induction false} RunBound(s: Sums, data: seq<u8>)
    requires s.a < BASE && s.b < BASE
    ensures Run(s, data).a < BASE && Run(s, data).b < BASE && Word(Run(s, data)) < 0x1_0000_0000
  {
    if data != [] {
      RunBound(s, data[..|data| - 1]);
    }
  }

  lemma WordSums(s: Sums)
    requires s.a < 0x1_0000 && s.b < 0x1_0000
    ensures Word(s) < 0x1_0000_0000 && SumsOf(Word(s)) == s
  {
  }

  lemma ChecksumBound(data: seq<u8>)
    ensures Checksum(data) < 0x1_0000_0000 && SumsOf(Checksum(data)) == Run(Sums(1, 0), data)
  {
    RunBound(Sums(1, 0), data);
    WordSums(Run(Sums(1, 0), data));
  }

  // ---------------------------------------------------------------- sums left unreduced

  function RawStep(s: Sums, x: u8): Sums
  {
    Sums(s.a + x, s.b + s.a + x)
  }

  function Raw(s: Sums, data: seq<u8>): Sums
  {
    if data == [] then s else RawStep(Raw(s, data[..|data| - 1]), data[|data| - 1])
  }

  lemma Absorb(a: nat, b: nat)
    ensures (a % BASE + b) % BASE == (a + b) % BASE
  {
    ModMod(a, BASE);
    ModAdd(a % BASE, a, b, BASE);
  }

  lemma StepReduces(t: Sums, x: u8)
    ensures Reduced(RawStep(t, x)) == Step(Reduced(t), x)
  {
    Absorb(t.a, x);
    Absorb(t.b, (t.a + x) % BASE);
    Absorb(t.a + x, t.b);
  }

  lemma RunLast(s: Sums, data: seq<u8>)
    requires data != []
    ensures Run(s, data) == Step(Run(s, data[..|data| - 1]), data[|data| - 1])
  {
  }

  lemma RawLast(s: Sums, data: seq<u8>)
    requires data != []
    ensures Raw(s, data) == RawStep(Raw(s, data[..|data| - 1]), data[|data| - 1])
  {
  }

  /** Reducing late gives the same result. */
  lemma {:induction false} RawReduces(s: Sums, data: seq<u8>)
    ensures Reduced(Raw(s, data)) == Run(Reduced(s), data)
  {
    if data != [] {
      var init, x := data[..|data| - 1], data[|data| - 1];
      hide *;
      RawReduces(s, init);
      RunLast(Reduced(s), data);
      RawLast(s, data);
      StepReduces(Raw(s, init), x);
    }
  }

  function Triangle(k: nat): nat
  {
    if k == 0 then 0 else Triangle(k - 1) + k
  }

  lemma {:induction false} TriangleIs(k: nat)
    ensures 2 * Triangle(k) == k * k + k
  {
    if k > 0 {
      TriangleIs(k - 1);
    }
  }

  lemma {:induction false} RawBound(s: Sums, data: seq<u8>)
    requires s.a < 0x1_0000 && s.b < 0x1_0000
    ensures var k := |data|; Raw(s, data).a <= 65535 + 255 * k
    ensures var k := |data|; Raw(s, data).b <= 65535 + 65535 * k + 255 * Triangle(k)
  {
    if data != [] {
      RawBound(s, data[..|data| - 1]);
    }
  }

  lemma {:induction false} TriangleMono(j: nat, k: nat)
    requires j <= k
    ensures Triangle(j) <= Triangle(k)
  {
    if j < k {
      TriangleMono(j, k - 1);
    }
  }

  /** In one block the 32-bit sums cannot overflow, whatever they start from. */
  lemma NoOverflow(s: Sums, data: seq<u8>)
    requires s.a < 0x1_0000 && s.b < 0x1_0000 && |data| <= BLOCK
    ensures Raw(s, data).a < 0x1_0000_0000 && Raw(s, data).b < 0x1_0000_0000
  {
    RawBound(s, data);
    TriangleMono(|data|, BLOCK);
    TriangleIs(BLOCK);
  }

  lemma RawSnoc(s: Sums, data: seq<u8>, i: nat)
    requires i < |data|
    ensures Raw(s, data[..i + 1]) == RawStep(Raw(s, data[..i]), data[i])
  {
    assert data[..i + 1][..i] == data[..i];
  }

  // ---------------------------------------------------------------- the loops

  method AddByte(s1: u32, s2: u32, x: u8, ghost s: Sums, ghost data: seq<u8>, ghost i: nat) returns (t1: u32, t2: u32)
    requires s.a < 0x1_0000 && s.b < 0x1_0000 && i < |data| <= BLOCK && x == data[i]
    requires Sums(s1, s2) == Raw(s, data[..i])
    ensures Sums(t1, t2) == Raw(s, data[..i + 1])
  {
    hide Raw;
    RawSnoc(s, data, i);
    NoOverflow(s, data[..i + 1]);
    t1 := s1 + x;
    t2 := s2 + t1;
  }

  /** One block: eight bytes at a time, then the rest. */
  method AddBlock(s1: u32, s2: u32, data: seq<u8>, at: nat, blockLen: nat) returns (t1: u32, t2: u32)
    requires s1 < 0x1_0000 && s2 < 0x1_0000 && at + blockLen <= |data| && blockLen <= BLOCK
    ensures Sums(t1, t2) == Raw(Sums(s1, s2), data[at..at + blockLen])
  {
    ghost var s, d := Sums(s1, s2), data[at..at + blockLen];
    t1, t2 := s1, s2;
    assert d[..0] == [];
    var i := 0;
    hide Raw;
    assert Raw(s, []) == s by { RawNone(s); }
    while i + 7 < blockLen
      invariant 0 <= i <= blockLen && Sums(t1, t2) == Raw(s, d[..i])
    {
      t1, t2 := AddByte(t1, t2, data[at + i], s, d, i);
      t1, t2 := AddByte(t1, t2, data[at + i + 1], s, d, i + 1);
      t1, t2 := AddByte(t1, t2, data[at + i + 2], s, d, i + 2);
      t1, t2 := AddByte(t1, t2, data[at + i + 3], s, d, i + 3);
      t1, t2 := AddByte(t1, t2, data[at + i + 4], s, d, i + 4);
      t1, t2 := AddByte(t1, t2, data[at + i + 5], s, d, i + 5);
      t1, t2 := AddByte(t1, t2, data[at + i + 6], s, d, i + 6);
      t1, t2 := AddByte(t1, t2, data[at + i + 7], s, d, i + 7);
      i := i + 8;
    }
    while i < blockLen
      invariant 0 <= i <= blockLen && Sums(t1, t2) == Raw(s, d[..i])
    {
      t1, t2 := AddByte(t1, t2, data[at + i], s, d, i);
      i := i + 1;
    }
    assert d[..blockLen] == d;
  }

  lemma RawNone(s: Sums)
    ensures Raw(s, []) == s
  {
  }

  lemma RunNone(s: Sums)
    ensures Run(s, []) == s
  {
  }

  /** One turn of the outer loop: a block, then both sums reduced. */
  method Block(s1: u32, s2: u32, data: seq<u8>, at: nat, blockLen: nat, ghost s: Sums) returns (t1: u32, t2: u32)
    requires s1 < 0x1_0000 && s2 < 0x1_0000 && at + blockLen <= |data| && blockLen <= BLOCK
    requires Reduced(Sums(s1, s2)) == Run(Reduced(s), data[..at])
    ensures t1 < BASE && t2 < BASE
    ensures Sums(t1, t2) == Reduced(Sums(t1, t2)) == Run(Reduced(s), data[..at + blockLen])
  {
    hide *;
    ghost var d := data[at..at + blockLen];
    t1, t2 := AddBlock(s1, s2, data, at, blockLen);
    RawReduces(Sums(s1, s2), d);
    RunConcat(Reduced(s), data[..at], d);
    assert data[..at + blockLen] == data[..at] + d;
    t1, t2 := Reduce(t1, t2);
    ReducedAlready(Sums(t1, t2));
  }

  method Reduce(s1: u32, s2: u32) returns (t1: u32, t2: u32)
    ensures t1 < BASE && t2 < BASE && Sums(t1, t2) == Reduced(Sums(s1, s2))
  {
    t1, t2 := s1 % BASE, s2 % BASE;
  }

  // ---------------------------------------------------------------- the closed form of RFC 1950

  /** The sum of the bytes. */
  function ByteSum(data: seq<u8>): nat
  {
    if data == [] then 0 else data[0] + ByteSum(data[1..])
  }

  /** The first byte counted as often as there are bytes, the last once. */
  function WeightedSum(data: seq<u8>): nat
  {
    if data == [] then 0 else |data| * data[0] + WeightedSum(data[1..])
  }

  lemma {:induction false} SumsSnoc(data: seq<u8>, x: u8)
    ensures ByteSum(data + [x]) == ByteSum(data) + x
    ensures WeightedSum(data + [x]) == WeightedSum(data) + ByteSum(data) + x
  {
    if data == [] {
      assert [] + [x] == [x] && [x][1..] == [];
    } else {
      assert (data + [x])[1..] == data[1..] + [x];
      SumsSnoc(data[1..], x);
      MulOneMore(|data|, data[0]);
    }
  }

  lemma MulOneMore(n: nat, a: nat)
    ensures (n + 1) * a == n * a + a
  {
  }

  lemma AddReduced(x: nat, y: nat)
    ensures (x % 65521 + y) % 65521 == (x + y) % 65521
  {
    ModMod(x, 65521);
    ModAdd(x % 65521, x, y, 65521);
  }

  /** Section 2.2 of RFC 1950: both sums in one formula, modulo 65521. */
  lemma {:induction false} RunClosed(a: nat, b: nat, data: seq<u8>)
    requires data != [] || (a < 65521 && b < 65521)
    ensures Run(Sums(a, b), data) == Sums((a + ByteSum(data)) % 65521, (b + |data| * a + WeightedSum(data)) % 65521)
    decreases |data|
  {
    if data == [] {
      NoSums();
    } else {
      var d, x := data[..|data| - 1], data[|data| - 1];
      assert data == d + [x];
      hide *;
      RunLast(Sums(a, b), data);
      if d == [] {
        NoSums();
        SumsSnoc(d, x);
        OneStep(a, b, x);
      } else {
        RunClosed(a, b, d);
        LastByte(a, b, d, x);
      }
    }
  }

  lemma LastByte(a: nat, b: nat, d: seq<u8>, x: u8)
    ensures var s, w := ByteSum(d), WeightedSum(d);
      Step(Sums((a + s) % 65521, (b + |d| * a + w) % 65521), x)
      == Sums((a + ByteSum(d + [x])) % 65521, (b + |d + [x]| * a + WeightedSum(d + [x])) % 65521)
  {
    hide *;
    SumsSnoc(d, x);
    MulOneMore(|d|, a);
    NextStep(a + ByteSum(d), b + |d| * a + WeightedSum(d), x);
  }

  lemma NoSums()
    ensures ByteSum([]) == 0 && WeightedSum([]) == 0
    ensures forall s: Sums {:trigger Run(s, [])} :: Run(s, []) == s
  {
  }

  lemma OneStep(a: nat, b: nat, x: u8)
    ensures Run(Sums(a, b), [x]) == Sums((a + x) % 65521, (b + a + x) % 65521)
  {
    assert [x][..0] == [] && Run(Sums(a, b), []) == Sums(a, b);
    AddReduced(a + x, b);
  }

  lemma NextStep(a: nat, b: nat, x: u8)
    ensures Step(Sums(a % 65521, b % 65521), x) == Sums((a + x) % 65521, (b + a + x) % 65521)
  {
    AddReduced(a, x);
    AddReduced(b, (a + x) % 65521);
    AddReduced(a + x, b);
  }

  /** The checksum of a whole byte string. */
  lemma ChecksumClosed(data: seq<u8>)
    ensures Checksum(data) == (|data| + WeightedSum(data)) % 65521 * 65536 + (1 + ByteSum(data)) % 65521
  {
    RunClosed(1, 0, data);
  }

  /** The word that the formula gives from starting sums `a` and `b`. */
  function Formula(a: nat, b: nat, data: seq<u8>): nat
  {
    (b + |data| * a + WeightedSum(data)) % 65521 * 65536 + (a + ByteSum(data)) % 65521
  }

  lemma FormulaIs(a: nat, b: nat, data: seq<u8>)
    requires data != []
    ensures Formula(a, b, data) == Word(Run(Reduced(Sums(a, b)), data))
  {
    var a', b' := a % 65521, b % 65521;
    assert Reduced(Sums(a, b)) == Sums(a', b');
    hide *;
    RunClosed(a', b', data);
    FormulaReduced(a, b, data);
    WordIs(a', b', data);
  }

  lemma FormulaReduced(a: nat, b: nat, data: seq<u8>)
    ensures Formula(a, b, data) == Formula(a % 65521, b % 65521, data)
  {
    var n, s, w := |data|, ByteSum(data), WeightedSum(data);
    hide ByteSum, WeightedSum;
    AddReduced(a, s);
    TimesReduced(a, n, n * (a % 65521), n * a);
    BothReduced(b, n * (a % 65521), n * a, w);
  }

  lemma WordIs(a: nat, b: nat, data: seq<u8>)
    ensures Formula(a, b, data) == Word(Sums((a + ByteSum(data)) % 65521, (b + |data| * a + WeightedSum(data)) % 65521))
  {
    hide ByteSum, WeightedSum;
  }

  lemma TimesReduced(a: nat, n: nat, p: nat, q: nat)
    requires p == n * (a % 65521) && q == n * a
    ensures p % 65521 == q % 65521
  {
    var k, r := DivMod(a, 65521);
    Distrib(r, k * 65521, n);
    assert q - p == n * k * 65521;
    ModMultiple(q, p, n * k, 65521);
  }

  lemma BothReduced(b: nat, p: nat, q: nat, w: nat)
    requires p % 65521 == q % 65521
    ensures (b % 65521 + p + w) % 65521 == (b + q + w) % 65521
  {
    AddReduced(b, p + w);
    ModAdd(p, q, b + w, 65521);
  }

  /** The blocked computation is the byte-at-a-time definition, from any starting value. */
  method Adler32(adler: u32, data: seq<u8>) returns (r: u32)
    ensures data == [] ==> r == adler
    ensures data != [] ==> r == Word(Run(Reduced(SumsOf(adler)), data))
    ensures data != [] ==> r == Formula(adler % 65536, adler / 65536, data)
  {
    var s1: u32, s2: u32 := adler % 0x1_0000, adler / 0x1_0000;
    var bufLen, blockLen := |data|, |data| % BLOCK;
    ghost var s := Sums(s1, s2);
    WordSplit(adler);
    assert BLOCK == 5552 && BASE < 0x1_0000;
    hide *;
    if data == [] {
      return s2 * 0x1_0000 + s1;
    }
    RunNone(Reduced(s));
    assert data[..0] == [];
    ghost var first := true;
    while bufLen > 0
      invariant 0 <= bufLen <= |data| && s1 < 0x1_0000 && s2 < 0x1_0000
      invariant blockLen == (if first then bufLen % BLOCK else BLOCK) && (first || bufLen % BLOCK == 0)
      invariant first ==> bufLen == |data|
      invariant !first ==> Sums(s1, s2) == Run(Reduced(s), data[..|data| - bufLen])
      invariant Reduced(Sums(s1, s2)) == Run(Reduced(s), data[..|data| - bufLen])
      decreases bufLen, first
    {
      WholeBlocks(bufLen, blockLen);
      s1, s2 := Block(s1, s2, data, |data| - bufLen, blockLen, s);
      bufLen := bufLen - blockLen;
      blockLen := BLOCK;
      first := false;
    }
    assert data[..|data|] == data;
    r := s2 * 0x1_0000 + s1;
    WordOf(s1, s2);
    FormulaIs(adler % 65536, adler / 65536, data);
  }

  /** Behind the first block, which takes what does not fill one, there are only whole blocks. */
  lemma WholeBlocks(n: nat, k: nat)
    requires n > 0 && (k == n % BLOCK || (k == BLOCK && n % BLOCK == 0))
    ensures k <= n && k <= BLOCK && (n - k) % BLOCK == 0
  {
  }

  lemma WordSplit(adler: u32)
    ensures SumsOf(adler) == Sums(adler % 65536, adler / 65536) && adler / 65536 * 65536 + adler % 65536 == adler
  {
  }

  lemma WordOf(a: nat, b: nat)
    ensures Word(Sums(a, b)) == b * 0x1_0000 + a
  {
  }

  lemma ReducedAlready(s: Sums)
    requires s.a < BASE && s.b < BASE
    ensures Reduced(s) == s
  {
  }

  /** Checksums of consecutive pieces compose: the value so far is all the state there is. */
  lemma ChecksumConcat(x: seq<u8>, y: seq<u8>)
    ensures Word(Run(Reduced(SumsOf(Checksum(x))), y)) == Checksum(x + y)
  {
    hide Run, SumsOf, Word;
    ChecksumBound(x);
    RunBound(Sums(1, 0), x);
    RunConcat(Sums(1, 0), x, y);
    ReducedAlready(Run(Sums(1, 0), x));
  }
}
