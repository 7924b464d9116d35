/**
 What the inflater does where a DEFLATE stream has no meaning. Two things are not caught by
 `tinfl_decompress`: bits that match no code of a table with at most one, which count as symbol 0, and in
 a window a distance that leads to no byte written. The machine of `InflateSpec` stops there; here it
 drifts on as the code does.
 */
module InflateSlips {
  import opened Bits
  import opened Canonical
  import opened InflateSpec
  import opened InflateRun
  import opened LzTokens
  import opened Options
  import S = Streams
  import T = DecodeTree

  // ---------------------------------------------------------------- the guards

  /** However they go on, the bits begin with no code of the table. */
  ghost predicate Misses(lens: seq<nat>, p: seq<bool>)
  {
    forall i: nat :: i < |lens| && lens[i] > 0 ==> !(HuffBits(lens, i) <= p) && !(p <= HuffBits(lens, i))
  }

  /** The distance leads to a byte written. */
  predicate Near(out: seq<u8>, from: nat)
  {
    1 <= from <= |out|
  }

  /** A table of at most one code is read where the bits do not match it. */
  ghost predicate NoSuchCode(c: Core, p: seq<bool>)
  {
    Wants(c).Code? && UsedSyms(Wants(c).lens) <= 1 && Misses(Wants(c).lens, p)
  }

  /** A distance without extra bits is 0 or beyond the output so far. */
  ghost predicate FarSymbol(c: Core, p: seq<bool>, v: nat)
  {
    c.loc.DistSymbol? && v < 32 && Begins(c.loc.dist, p, v) && DistanceExtra(v) == 0 && !Near(c.out, DistanceBase(v))
  }

  /** The same for one with extra bits. */
  ghost predicate FarBits(c: Core, p: seq<bool>)
  {
    c.loc.DistBits? && c.loc.extra <= |p| && !Near(c.out, c.loc.base + FromBits(p[..c.loc.extra]))
  }

  ghost predicate Astray(cfg: Config, c: Core, p: seq<bool>)
  {
    NoSuchCode(c, p) || (cfg.wraps && (FarBits(c, p) || exists v: nat :: FarSymbol(c, p, v)))
  }

  /** On these bits the machine comes to a place where one of the guards fails. */
  ghost predicate Strays(cfg: Config, bits: seq<bool>)
  {
    exists c, p :: Sound(cfg, bits, c, p) && Astray(cfg, c, p)
  }

  lemma BeStray(cfg: Config, bits: seq<bool>, c: Core, p: seq<bool>)
    requires Sound(cfg, bits, c, p) && Astray(cfg, c, p)
    ensures Strays(cfg, bits)
  {
  }

  lemma MissesMore(lens: seq<nat>, p: seq<bool>, more: seq<bool>, i: nat)
    requires Misses(lens, p)
    ensures !Begins(lens, p + more, i)
  {
    hide HuffBits;
  }

  lemma StuckCode(cfg: Config, c: Core, rest: seq<bool>)
    requires Wants(c).Code? && forall i :: !Begins(Wants(c).lens, rest, i)
    ensures Step(cfg, State(c, rest)) == None
  {
    hide Begins, Next;
  }

  lemma StuckRead(cfg: Config, c: Core, rest: seq<bool>, v: nat)
    requires Wants(c).Code? && Begins(Wants(c).lens, rest, v) && Next(cfg, c.(pos := c.pos + Wants(c).lens[v]), v) == None
    ensures Step(cfg, State(c, rest)) == None
  {
    hide Next, HuffBits, Kraft;
    var lens := Wants(c).lens;
    if Kraft(lens, 15) {
      DecodeUnique(lens, rest, v);
    }
  }

  lemma StuckBits(cfg: Config, c: Core, rest: seq<bool>)
    requires Wants(c).Bits? && Wants(c).n <= |rest| && Next(cfg, c.(pos := c.pos + Wants(c).n), FromBits(rest[..Wants(c).n])) == None
    ensures Step(cfg, State(c, rest)) == None
  {
    hide Next;
  }

  lemma FarUndefined(cfg: Config, c: Core, v: nat)
    requires cfg.wraps && (c.loc.DistBits? || (c.loc.DistSymbol? && v < 32 && DistanceExtra(v) == 0))
    requires !Near(c.out, if c.loc.DistBits? then c.loc.base + v else DistanceBase(v))
    ensures Next(cfg, c, v) == None
  {
    hide DistanceBase, DistanceExtra;
  }

  lemma WantsWhere(c: Core)
    ensures c.loc.DistSymbol? ==> Wants(c) == Code(c.loc.dist)
    ensures c.loc.DistBits? ==> Wants(c) == Bits(c.loc.extra)
    ensures c.loc.Done? || c.loc.Failed? ==> Wants(c) == Halt
  {
  }

  /** The machine is stuck there, whatever follows. */
  lemma AstrayStuck(cfg: Config, c: Core, p: seq<bool>, more: seq<bool>)
    requires Astray(cfg, c, p)
    ensures Step(cfg, State(c, p + more)) == None && !c.loc.Done? && !c.loc.Failed?
  {
    hide Wants, Next, Step, Misses, HuffBits, DistanceBase, DistanceExtra;
    WantsWhere(c);
    if NoSuchCode(c, p) {
      forall i: nat
        ensures !Begins(Wants(c).lens, p + more, i)
      {
        MissesMore(Wants(c).lens, p, more, i);
      }
      StuckCode(cfg, c, p + more);
    } else if FarBits(c, p) {
      assert (p + more)[..c.loc.extra] == p[..c.loc.extra];
      FarUndefined(cfg, c.(pos := c.pos + c.loc.extra), FromBits(p[..c.loc.extra]));
      StuckBits(cfg, c, p + more);
    } else {
      var v: nat :| FarSymbol(c, p, v);
      assert Begins(c.loc.dist, p + more, v);
      FarUndefined(cfg, c.(pos := c.pos + c.loc.dist[v]), v);
      StuckRead(cfg, c, p + more, v);
    }
  }

  /** A stream that strays has no outcome. */
  lemma StraysDead(cfg: Config, bits: seq<bool>)
    requires Strays(cfg, bits)
    ensures Dead(cfg, bits)
  {
    hide Sound, Astray, Dead, Step;
    var c, p :| Sound(cfg, bits, c, p) && Astray(cfg, c, p);
    forall more
      ensures Step(cfg, State(c, p + more)) == None
    {
      AstrayStuck(cfg, c, p, more);
    }
    AstrayStuck(cfg, c, p, []);
    StuckIsDead(cfg, bits, c, p);
  }

  lemma AstrayLonger(cfg: Config, c: Core, p: seq<bool>, more: seq<bool>)
    requires Astray(cfg, c, p)
    ensures Astray(cfg, c, p + more)
  {
    hide HuffBits, DistanceBase, DistanceExtra;
    if NoSuchCode(c, p) {
      var lens := Wants(c).lens;
      forall i: nat | i < |lens| && lens[i] > 0
        ensures !(HuffBits(lens, i) <= p + more) && !(p + more <= HuffBits(lens, i))
      {
        MissesMore(lens, p, more, i);
      }
    } else if FarBits(c, p) {
      assert (p + more)[..c.loc.extra] == p[..c.loc.extra];
    } else {
      var v: nat :| FarSymbol(c, p, v);
      assert FarSymbol(c, p + more, v);
    }
  }

  lemma StraysLonger(cfg: Config, bits: seq<bool>, more: seq<bool>)
    requires Strays(cfg, bits)
    ensures Strays(cfg, bits + more)
  {
    hide Sound, Astray;
    var c, p :| Sound(cfg, bits, c, p) && Astray(cfg, c, p);
    TakeMore(cfg, bits, c, p, more);
    AstrayLonger(cfg, c, p, more);
  }

  // ---------------------------------------------------------------- streams that cannot stray

  /** Every table the stream is read with has Kraft sum exactly 1. */
  ghost predicate FullTables(cfg: Config, bits: seq<bool>)
  {
    forall c, p :: Sound(cfg, bits, c, p) && Wants(c).Code? ==> Complete(Wants(c).lens, 15)
  }

  lemma FullMatches(lens: seq<nat>, p: seq<bool>)
    requires Complete(lens, 15)
    ensures !Misses(lens, p)
  {
    hide Complete, HuffBits, Misses;
    var zeros := seq(15, _ => false);
    var b := (p + zeros)[..15];
    var i := CompleteDecodes(lens, b, 15);
    assert HuffBits(lens, i) == b[..lens[i]] == (p + zeros)[..lens[i]];
    if Misses(lens, p) {
      MissesMore(lens, p, zeros, i);
    }
  }

  /** With full tables and a flat buffer no stream strays. */
  lemma FullNeverStrays(cfg: Config, bits: seq<bool>)
    requires !cfg.wraps && FullTables(cfg, bits)
    ensures !Strays(cfg, bits)
  {
    hide Sound, Misses, Complete, UsedSyms;
    if Strays(cfg, bits) {
      var c, p :| Sound(cfg, bits, c, p) && Astray(cfg, c, p);
      FullMatches(Wants(c).lens, p);
    }
  }

  // ---------------------------------------------------------------- drifting on

  /** How many bits go with an unmatched code: none, or those walked in the tree. */
  ghost predicate SlipLength(lens: seq<nat>, k: nat)
  {
    k == 0 || (k > T.FAST_BITS && exists i :: 0 <= i < |lens| && lens[i] >= k)
  }

  /** The value the code reads at `c`, and the bits it takes for it. */
  ghost predicate MayRead(c: Core, rest: seq<bool>, v: nat, k: nat)
  {
    k <= |rest| && match Wants(c)
      case Halt => false
      case Nothing => v == 0 && k == 0
      case Bits(n) => k == n && v == FromBits(rest[..n])
      case Code(lens) => (Kraft(lens, 15) && Begins(lens, rest, v) && k == lens[v]) || (UsedSyms(lens) <= 1 && v == 0 && SlipLength(lens, k))
  }

  /** A distance in a window is not checked. */
  ghost predicate FarCopy(cfg: Config, c: Core, v: nat, d: Core)
  {
    && cfg.wraps && (c.loc.DistBits? || (c.loc.DistSymbol? && v < 32 && DistanceExtra(v) == 0))
    && var from := if c.loc.DistBits? then c.loc.base + v else DistanceBase(v);
      !Near(c.out, from) && d == c.(loc := Copying(c.loc.lit, c.loc.dist, c.loc.len, from))
  }

  /** Where no byte was written there is some byte. */
  ghost predicate AnyByte(c: Core, d: Core)
  {
    && c.loc.Copying? && c.loc.len > 0 && !Near(c.out, c.loc.from) && |d.out| == |c.out| + 1 && c.out <= d.out
    && d == c.(loc := Copying(c.loc.lit, c.loc.dist, c.loc.len - 1, c.loc.from), out := d.out)
  }

  ghost predicate Onward(cfg: Config, c: Core, v: nat, d: Core)
  {
    Next(cfg, c, v) == Some(d) || FarCopy(cfg, c, v, d) || AnyByte(c, d)
  }

  /** A step of the code: the machine's, or one past a guard. */
  ghost predicate Drift(cfg: Config, s: State, t: State)
  {
    |t.rest| <= |s.rest| && var k := |s.rest| - |t.rest|;
      t.rest == s.rest[k..] && exists v: nat :: MayRead(s.core, s.rest, v, k) && Onward(cfg, s.core.(pos := s.core.pos + k), v, t.core)
  }

  ghost predicate DriftsIn(cfg: Config, s: State, t: State, n: nat)
    decreases n
  {
    if n == 0 then s == t else exists u :: Drift(cfg, s, u) && DriftsIn(cfg, u, t, n - 1)
  }

  ghost predicate Drifts(cfg: Config, s: State, t: State)
  {
    exists n: nat :: DriftsIn(cfg, s, t, n)
  }

  lemma DriftBy(cfg: Config, c: Core, rest: seq<bool>, v: nat, k: nat, d: Core)
    requires MayRead(c, rest, v, k) && Onward(cfg, c.(pos := c.pos + k), v, d)
    ensures Drift(cfg, State(c, rest), State(d, rest[k..]))
  {
    hide MayRead, Onward;
    assert MayRead(c, rest, v, k) ==> k <= |rest| by { ReadInside(c, rest, v, k); }
  }

  lemma ReadInside(c: Core, rest: seq<bool>, v: nat, k: nat)
    requires MayRead(c, rest, v, k)
    ensures k <= |rest|
  {
  }

  lemma StepDrifts(cfg: Config, s: State)
    requires Step(cfg, s).Some?
    ensures Drift(cfg, s, Step(cfg, s).value)
  {
    hide Next, HuffBits, Kraft;
    match Wants(s.core)
    case Halt =>
    case Nothing => DriftBy(cfg, s.core, s.rest, 0, 0, Step(cfg, s).value.core);
    case Bits(n) => DriftBy(cfg, s.core, s.rest, FromBits(s.rest[..n]), n, Step(cfg, s).value.core);
    case Code(lens) =>
      var i := Decode(lens, s.rest).value;
      DriftBy(cfg, s.core, s.rest, i, lens[i], Step(cfg, s).value.core);
  }

  /** Bits beyond those taken do not matter. */
  lemma DriftReplaced(cfg: Config, s: State, t: State, y: seq<bool>)
    requires Drift(cfg, s, t) && s.rest[..|s.rest| - |t.rest|] <= y
    ensures Drift(cfg, s.(rest := y), t.(rest := y[|s.rest| - |t.rest|..]))
  {
    hide Onward, MayRead;
    var k := |s.rest| - |t.rest|;
    var v: nat :| MayRead(s.core, s.rest, v, k) && Onward(cfg, s.core.(pos := s.core.pos + k), v, t.core);
    ReadReplaced(s.core, s.rest, v, k, y);
    DriftBy(cfg, s.core, y, v, k, t.core);
  }

  lemma ReadReplaced(c: Core, x: seq<bool>, v: nat, k: nat, y: seq<bool>)
    requires MayRead(c, x, v, k) && k <= |x| && x[..k] <= y
    ensures MayRead(c, y, v, k)
  {
    hide HuffBits, Kraft, UsedSyms, SlipLength;
    assert y[..k] == x[..k];
    match Wants(c)
    case Code(lens) =>
      if Begins(lens, x, v) && k == lens[v] {
        assert HuffBits(lens, v) == x[..k];
      }
    case _ =>
  }

  /** At the end there is nothing more to do. */
  lemma NoDrift(cfg: Config, s: State, t: State)
    requires s.core.loc.Done? || s.core.loc.Failed?
    ensures !Drift(cfg, s, t)
  {
    hide Onward, Wants;
    WantsWhere(s.core);
  }

  lemma DriftsNone(cfg: Config, s: State)
    ensures Drifts(cfg, s, s)
  {
    assert DriftsIn(cfg, s, s, 0);
  }

  lemma {:induction false} DriftsInTrans(cfg: Config, s: State, t: State, u: State, m: nat, n: nat)
    requires DriftsIn(cfg, s, t, m) && DriftsIn(cfg, t, u, n)
    ensures DriftsIn(cfg, s, u, m + n)
    decreases m
  {
    hide Drift;
    if m > 0 {
      var s1 :| Drift(cfg, s, s1) && DriftsIn(cfg, s1, t, m - 1);
      DriftsInTrans(cfg, s1, t, u, m - 1, n);
    }
  }

  lemma DriftsTrans(cfg: Config, s: State, t: State, u: State)
    requires Drifts(cfg, s, t) && Drifts(cfg, t, u)
    ensures Drifts(cfg, s, u)
  {
    hide DriftsIn;
    var m: nat :| DriftsIn(cfg, s, t, m);
    var n: nat :| DriftsIn(cfg, t, u, n);
    DriftsInTrans(cfg, s, t, u, m, n);
  }

  lemma DriftsOne(cfg: Config, s: State, t: State)
    requires Drift(cfg, s, t)
    ensures Drifts(cfg, s, t)
  {
    hide Drift;
    assert DriftsIn(cfg, t, t, 0);
    assert DriftsIn(cfg, s, t, 1);
  }

  /** The machine's runs are runs of the code. */
  lemma {:induction false} ReachesDriftsIn(cfg: Config, s: State, t: State, n: nat)
    requires ReachesIn(cfg, s, t, n)
    ensures DriftsIn(cfg, s, t, n)
    decreases n
  {
    hide Step, Drift;
    if n > 0 {
      StepDrifts(cfg, s);
      ReachesDriftsIn(cfg, Step(cfg, s).value, t, n - 1);
    }
  }

  lemma ReachesDrifts(cfg: Config, s: State, t: State)
    requires Reaches(cfg, s, t)
    ensures Drifts(cfg, s, t)
  {
    hide ReachesIn, DriftsIn;
    var n: nat :| ReachesIn(cfg, s, t, n);
    ReachesDriftsIn(cfg, s, t, n);
  }

  lemma DriftTakes(cfg: Config, s: State, t: State)
    requires Drift(cfg, s, t)
    ensures |t.rest| <= |s.rest| && t.rest == s.rest[|s.rest| - |t.rest|..]
  {
    hide MayRead, Onward;
  }

  lemma {:induction false} DriftsShrink(cfg: Config, s: State, t: State, n: nat)
    requires DriftsIn(cfg, s, t, n)
    ensures |t.rest| <= |s.rest|
    decreases n
  {
    hide Drift;
    if n > 0 {
      var u :| Drift(cfg, s, u) && DriftsIn(cfg, u, t, n - 1);
      DriftTakes(cfg, s, u);
      DriftsShrink(cfg, u, t, n - 1);
    }
  }

  /** Bits a run never took can be replaced by others. */
  lemma {:induction false} DriftsReplaced(cfg: Config, s: State, t: State, n: nat, x: seq<bool>, z: seq<bool>, y: seq<bool>, y': seq<bool>)
    requires DriftsIn(cfg, s, t, n) && s.rest == x + y && t.rest == z + y
    ensures DriftsIn(cfg, s.(rest := x + y'), t.(rest := z + y'), n)
    decreases n
  {
    hide Drift;
    if n == 0 {
      SamePrefix(x, z, y);
    } else {
      var u :| Drift(cfg, s, u) && DriftsIn(cfg, u, t, n - 1);
      DriftsShrink(cfg, u, t, n - 1);
      var k := |s.rest| - |u.rest|;
      DriftTakes(cfg, s, u);
      Cut(x, y, y', k);
      DriftReplaced(cfg, s, u, x + y');
      DriftsReplaced(cfg, u, t, n - 1, x[k..], z, y, y');
    }
  }

  // ---------------------------------------------------------------- from the start of a stream

  /** Having taken `bits`, the code may be at `c` with `pending` still unread. */
  ghost predicate Ran(cfg: Config, bits: seq<bool>, c: Core, pending: seq<bool>)
  {
    Drifts(cfg, State(S.Start(cfg.zlib), bits), State(c, pending))
  }

  lemma StartRan(cfg: Config)
    ensures Ran(cfg, [], S.Start(cfg.zlib), [])
  {
    hide Drifts;
    DriftsNone(cfg, State(S.Start(cfg.zlib), []));
  }

  lemma RanMore(cfg: Config, bits: seq<bool>, c: Core, pending: seq<bool>, more: seq<bool>)
    requires Ran(cfg, bits, c, pending)
    ensures Ran(cfg, bits + more, c, pending + more)
  {
    hide DriftsIn;
    var s, t := State(S.Start(cfg.zlib), bits), State(c, pending);
    var n: nat :| DriftsIn(cfg, s, t, n);
    assert bits + [] == bits && pending + [] == pending;
    DriftsReplaced(cfg, s, t, n, bits, pending, [], more);
  }

  lemma RanBack(cfg: Config, bits: seq<bool>, c: Core, pending: seq<bool>, extra: seq<bool>)
    requires Ran(cfg, bits + extra, c, pending + extra)
    ensures Ran(cfg, bits, c, pending)
  {
    hide DriftsIn;
    var s, t := State(S.Start(cfg.zlib), bits + extra), State(c, pending + extra);
    var n: nat :| DriftsIn(cfg, s, t, n);
    DriftsReplaced(cfg, s, t, n, bits, pending, extra, []);
    assert bits + [] == bits && pending + [] == pending;
  }

  lemma RanOn(cfg: Config, bits: seq<bool>, c: Core, pending: seq<bool>, d: Core, rest: seq<bool>)
    requires Ran(cfg, bits, c, pending) && Drifts(cfg, State(c, pending), State(d, rest))
    ensures Ran(cfg, bits, d, rest)
  {
    hide Drifts;
    DriftsTrans(cfg, State(S.Start(cfg.zlib), bits), State(c, pending), State(d, rest));
  }

  /** One read, whether the machine has a step for it or not. */
  lemma RanRead(cfg: Config, bits: seq<bool>, c: Core, pending: seq<bool>, v: nat, k: nat, d: Core)
    requires Ran(cfg, bits, c, pending) && MayRead(c, pending, v, k) && Onward(cfg, c.(pos := c.pos + k), v, d)
    ensures k <= |pending| && Ran(cfg, bits, d, pending[k..])
  {
    hide *;
    ReadInside(c, pending, v, k);
    DriftBy(cfg, c, pending, v, k, d);
    DriftsOne(cfg, State(c, pending), State(d, pending[k..]));
    RanOn(cfg, bits, c, pending, d, pending[k..]);
  }

  lemma BitsRead(c: Core, n: nat, v: nat, rest: seq<bool>)
    requires Wants(c) == Bits(n) && v < Pow2(n)
    ensures var p := ToBits(v, n) + rest; MayRead(c, p, v, n) && p[n..] == rest && p[..n] == ToBits(v, n) && FromBits(p[..n]) == v
  {
    hide Wants, ToBits, FromBits;
    FromToBits(v, n);
    assert (ToBits(v, n) + rest)[..n] == ToBits(v, n);
  }

  lemma RanBits(cfg: Config, bits: seq<bool>, c: Core, d: Core, n: nat, v: nat, rest: seq<bool>)
    requires Ran(cfg, bits, c, ToBits(v, n) + rest) && Wants(c) == Bits(n) && v < Pow2(n)
    requires Next(cfg, c.(pos := c.pos + n), v) == Some(d)
    ensures Ran(cfg, bits, d, rest)
  {
    hide Wants, Next, Ran, MayRead, ToBits;
    BitsRead(c, n, v, rest);
    RanRead(cfg, bits, c, ToBits(v, n) + rest, v, n, d);
  }

  lemma RanFreely(cfg: Config, bits: seq<bool>, c: Core, d: Core, pending: seq<bool>)
    requires Ran(cfg, bits, c, pending) && Wants(c) == Nothing && Next(cfg, c, 0) == Some(d)
    ensures Ran(cfg, bits, d, pending)
  {
    hide Wants, Next, Ran;
    assert c.(pos := c.pos + 0) == c && pending[0..] == pending;
    RanRead(cfg, bits, c, pending, 0, 0, d);
  }

  /** One byte of a copy, from a byte written or not. */
  lemma CopyOneDrifts(cfg: Config, c: Core, lit: seq<nat>, dist: seq<nat>, len: nat, from: nat, rest: seq<bool>, w: seq<u8>)
    requires c.loc == Copying(lit, dist, len, from) && len > 0 && LooseCopy(c.out, w, 1, from)
    ensures Drift(cfg, State(c, rest), State(c.(loc := Copying(lit, dist, len - 1, from), out := w), rest))
  {
    var d := c.(loc := Copying(lit, dist, len - 1, from), out := w);
    assert c.(pos := c.pos + 0) == c && rest[0..] == rest;
    assert w == c.out + [w[|c.out|]];
    DriftBy(cfg, c, rest, 0, 0, d);
  }

  /** A whole copy. */
  lemma {:induction false} CopyDrifts(cfg: Config, c: Core, lit: seq<nat>, dist: seq<nat>, len: nat, from: nat, rest: seq<bool>, w: seq<u8>)
    requires c.loc == Copying(lit, dist, len, from) && LooseCopy(c.out, w, len, from)
    ensures Drifts(cfg, State(c, rest), State(c.(loc := Symbol(lit, dist), out := w), rest))
    decreases len
  {
    hide Drifts, Drift;
    var t := State(c.(loc := Symbol(lit, dist), out := w), rest);
    if len == 0 {
      assert w == c.out;
      assert c.(pos := c.pos + 0) == c && rest[0..] == rest;
      DriftBy(cfg, c, rest, 0, 0, t.core);
      DriftsOne(cfg, State(c, rest), t);
    } else {
      var w1 := w[..|c.out| + 1];
      var d := c.(loc := Copying(lit, dist, len - 1, from), out := w1);
      CopyOneDrifts(cfg, c, lit, dist, len, from, rest, w1);
      DriftsOne(cfg, State(c, rest), State(d, rest));
      CopyDrifts(cfg, d, lit, dist, len - 1, from, rest, w);
      DriftsTrans(cfg, State(c, rest), State(d, rest), t);
    }
  }
}
