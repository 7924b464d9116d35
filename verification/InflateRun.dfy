/**
 Facts about runs of the inflating machine that a decoder working on a stream in pieces needs: bits
 taken too early can be given back, and bits at which the machine is stuck are not part of any stream.
 */
module InflateRun {
  import opened Bits
  import opened Canonical
  import opened InflateSpec
  import opened Options
  import S = Streams

  /** Having taken `bits`, the machine is at `c` with `pending` still unread. */
  ghost predicate Sound(cfg: Config, bits: seq<bool>, c: Core, pending: seq<bool>)
  {
    Reaches(cfg, State(S.Start(cfg.zlib), bits), State(c, pending))
  }

  /** No stream beginning with `bits` has an outcome. */
  ghost predicate Dead(cfg: Config, bits: seq<bool>)
  {
    forall more, t :: Halted(t) ==> !Reaches(cfg, State(S.Start(cfg.zlib), bits + more), t)
  }

  lemma StartSound(cfg: Config)
    ensures Sound(cfg, [], S.Start(cfg.zlib), [])
  {
    ReachesRefl(cfg, State(S.Start(cfg.zlib), []));
  }

  lemma TakeMore(cfg: Config, bits: seq<bool>, c: Core, pending: seq<bool>, more: seq<bool>)
    requires Sound(cfg, bits, c, pending)
    ensures Sound(cfg, bits + more, c, pending + more)
  {
    ReachesExtends(cfg, State(S.Start(cfg.zlib), bits), State(c, pending), more);
  }

  lemma Further(cfg: Config, bits: seq<bool>, c: Core, pending: seq<bool>, d: Core, rest: seq<bool>)
    requires Sound(cfg, bits, c, pending) && Reaches(cfg, State(c, pending), State(d, rest))
    ensures Sound(cfg, bits, d, rest)
  {
    ReachesTrans(cfg, State(S.Start(cfg.zlib), bits), State(c, pending), State(d, rest));
  }

  // ---------------------------------------------------------------- giving bits back

  /** A step takes a prefix of the bits and does not look past it. */
  lemma StepTakes(cfg: Config, s: State) returns (k: nat)
    requires Step(cfg, s).Some?
    ensures k <= |s.rest| && Step(cfg, s).value.rest == s.rest[k..]
    ensures forall y :: s.rest[..k] <= y ==> Step(cfg, s.(rest := y)) == Some(State(Step(cfg, s).value.core, y[k..]))
  {
    hide Next, HuffBits;
    match Wants(s.core)
    case Halt => k := 0;
    case Nothing => k := 0;
    case Bits(n) =>
      k := n;
      forall y | s.rest[..n] <= y
        ensures Step(cfg, s.(rest := y)) == Some(State(Step(cfg, s).value.core, y[n..]))
      {
        assert y[..n] == s.rest[..n];
      }
    case Code(lens) =>
      var i := Decode(lens, s.rest).value;
      k := lens[i];
      forall y | s.rest[..k] <= y
        ensures Step(cfg, s.(rest := y)) == Some(State(Step(cfg, s).value.core, y[k..]))
      {
        assert HuffBits(lens, i) == s.rest[..k] by { assert HuffBits(lens, i) == s.rest[..|HuffBits(lens, i)|]; }
        assert Begins(lens, y, i);
        DecodeUnique(lens, y, i);
      }
  }

  /** Bits a run never read can be replaced by others. */
  lemma {:induction false} UnreadReplaced(cfg: Config, s: State, t: State, n: nat, x: seq<bool>, z: seq<bool>, y: seq<bool>, y': seq<bool>)
    requires ReachesIn(cfg, s, t, n) && s.rest == x + y && t.rest == z + y
    ensures ReachesIn(cfg, s.(rest := x + y'), t.(rest := z + y'), n)
    decreases n
  {
    hide *;
    Unfold(cfg, s, t, n);
    if n == 0 {
      assert x == z by { SamePrefix(x, z, y); }
      ReachesNone(cfg, s.(rest := x + y'), t.(rest := z + y'));
    } else {
      var k := StepTakes(cfg, s);
      var s1 := Step(cfg, s).value;
      ReachesShrinks(cfg, s1, t, n - 1);
      Cut(x, y, y', k);
      UnreadReplaced(cfg, s1, t, n - 1, x[k..], z, y, y');
      StepReaches(cfg, s.(rest := x + y'), s1.(rest := x[k..] + y'), t.(rest := z + y'), n - 1);
    }
  }

  lemma SamePrefix(x: seq<bool>, z: seq<bool>, y: seq<bool>)
    requires x + y == z + y
    ensures x == z
  {
    assert |x| == |z|;
    assert x == (x + y)[..|x|] && z == (z + y)[..|z|];
  }

  lemma ReachesNone(cfg: Config, s: State, t: State)
    requires s == t
    ensures ReachesIn(cfg, s, t, 0)
  {
  }

  lemma StepReaches(cfg: Config, s: State, s1: State, t: State, n: nat)
    requires Step(cfg, s) == Some(s1) && ReachesIn(cfg, s1, t, n)
    ensures ReachesIn(cfg, s, t, n + 1)
  {
  }

  lemma Cut(x: seq<bool>, y: seq<bool>, y': seq<bool>, k: nat)
    requires k <= |x|
    ensures (x + y)[k..] == x[k..] + y && (x + y')[k..] == x[k..] + y' && (x + y)[..k] <= x + y'
  {
    assert (x + y)[..k] == x[..k] && (x + y')[..k] == x[..k];
  }

  lemma {:induction false} ReachesShrinks(cfg: Config, s: State, t: State, n: nat)
    requires ReachesIn(cfg, s, t, n)
    ensures |t.rest| <= |s.rest|
    decreases n
  {
    hide *;
    Unfold(cfg, s, t, n);
    if n > 0 {
      var k := StepTakes(cfg, s);
      ReachesShrinks(cfg, Step(cfg, s).value, t, n - 1);
    }
  }

  /** Bits at the end that have not been read might as well not have been taken. */
  lemma GiveBack(cfg: Config, bits: seq<bool>, c: Core, pending: seq<bool>, extra: seq<bool>)
    requires Sound(cfg, bits + extra, c, pending + extra)
    ensures Sound(cfg, bits, c, pending)
  {
    hide Step;
    var n: nat :| ReachesIn(cfg, State(S.Start(cfg.zlib), bits + extra), State(c, pending + extra), n);
    UnreadReplaced(cfg, State(S.Start(cfg.zlib), bits + extra), State(c, pending + extra), n, bits, pending, extra, []);
    assert bits + [] == bits && pending + [] == pending;
  }

  // ---------------------------------------------------------------- being stuck

  lemma {:induction false} StopsSame(cfg: Config, s: State, t: State, u: State, m: nat, n: nat)
    requires ReachesIn(cfg, s, t, m) && ReachesIn(cfg, s, u, n) && Step(cfg, t) == None && Step(cfg, u) == None
    ensures t == u
    decreases m
  {
    hide *;
    Unfold(cfg, s, t, m);
    Unfold(cfg, s, u, n);
    if m > 0 && n > 0 {
      StopsSame(cfg, Step(cfg, s).value, t, u, m - 1, n - 1);
    }
  }

  /** If the machine cannot go on whatever comes next, there is no outcome. */
  lemma StuckIsDead(cfg: Config, bits: seq<bool>, c: Core, pending: seq<bool>)
    requires Sound(cfg, bits, c, pending) && !c.loc.Done? && !c.loc.Failed?
    requires forall more :: Step(cfg, State(c, pending + more)) == None
    ensures Dead(cfg, bits)
  {
    hide Step;
    forall more, t | Halted(t)
      ensures !Reaches(cfg, State(S.Start(cfg.zlib), bits + more), t)
    {
      var s, u := State(S.Start(cfg.zlib), bits + more), State(c, pending + more);
      TakeMore(cfg, bits, c, pending, more);
      HaltedStops(cfg, t);
      if Reaches(cfg, s, t) {
        var m: nat :| ReachesIn(cfg, s, t, m);
        var n: nat :| ReachesIn(cfg, s, u, n);
        StopsSame(cfg, s, t, u, m, n);
      }
    }
  }

  // ---------------------------------------------------------------- single steps on sound states

  lemma SoundNothing(cfg: Config, bits: seq<bool>, c: Core, d: Core, pending: seq<bool>)
    requires Sound(cfg, bits, c, pending) && Wants(c) == Nothing && Next(cfg, c, 0) == Some(d)
    ensures Sound(cfg, bits, d, pending)
  {
    hide *;
    StepNothing(cfg, c, d, pending);
    Further(cfg, bits, c, pending, d, pending);
  }

  lemma SoundBits(cfg: Config, bits: seq<bool>, c: Core, d: Core, n: nat, v: nat, rest: seq<bool>)
    requires Sound(cfg, bits, c, ToBits(v, n) + rest) && Wants(c) == Bits(n) && v < Pow2(n)
    requires Next(cfg, c.(pos := c.pos + n), v) == Some(d)
    ensures Sound(cfg, bits, d, rest)
  {
    hide *;
    StepBits(cfg, c, d, n, v, rest);
    Further(cfg, bits, c, ToBits(v, n) + rest, d, rest);
  }

  lemma SoundCode(cfg: Config, bits: seq<bool>, c: Core, d: Core, lens: seq<nat>, i: nat, pending: seq<bool>)
    requires Sound(cfg, bits, c, pending) && Wants(c) == Code(lens) && Kraft(lens, 15) && Begins(lens, pending, i)
    requires Next(cfg, c.(pos := c.pos + lens[i]), i) == Some(d)
    ensures Sound(cfg, bits, d, pending[lens[i]..])
  {
    BeginsSplit(lens, pending, i);
    hide *;
    StepCode(cfg, c, d, lens, i, pending[lens[i]..]);
    Further(cfg, bits, c, pending, d, pending[lens[i]..]);
  }

  lemma BeginsSplit(lens: seq<nat>, pending: seq<bool>, i: nat)
    requires Begins(lens, pending, i)
    ensures i < |lens| && lens[i] > 0 && lens[i] <= |pending| && pending == HuffBits(lens, i) + pending[lens[i]..]
  {
    hide HuffBits;
    assert HuffBits(lens, i) == pending[..lens[i]];
  }
}
