/**
 The packed form of byte arrays in a configuration file (the C routines that parsegen.py emits:
 `encode_string`, `decode_string`, `find_next_match`, `base94_encode`, `base94_decode`, `get_token`,
 `char_array_pack`, `char_array_unpack`). Runs of nonzero bytes are quoted and escaped, runs of zeros are
 counted in base 94, and backslashes stand between them.
 */
module ArrayCodec {
  import opened Bits
  import opened Options

  const LINE_LENGTH := 262144
  const QUOTE: u8 := 34
  const SINGLE: u8 := 39
  const BACKSLASH: u8 := 92
  const ZERO: u8 := 48

  // ---------------------------------------------------------------- strings

  predicate Escaped(c: u8)
  {
    c == BACKSLASH || c == QUOTE || c == SINGLE || c == 10 || c == 9
  }

  function EscapeOne(c: u8): (r: seq<u8>)
    ensures 1 <= |r| <= 2
  {
    if Escaped(c) then [BACKSLASH, c] else [c]
  }

  function Escape(s: seq<u8>): (r: seq<u8>)
    ensures |s| <= |r| <= 2 * |s|
  {
    if s == [] then [] else EscapeOne(s[0]) + Escape(s[1..])
  }

  function Quote(s: seq<u8>): (r: seq<u8>)
    ensures |r| >= |s| + 2
  {
    [QUOTE] + Escape(s) + [QUOTE]
  }

  /** A backslash stands for the character after it; one at the very end is malformed. */
  function Unescape(s: seq<u8>): Option<seq<u8>>
    decreases |s|
  {
    if s == [] then Some([])
    else if s[0] == BACKSLASH then
      if |s| == 1 then None
      else match Unescape(s[2..]) case None => None case Some(r) => Some([s[1]] + r)
    else match Unescape(s[1..]) case None => None case Some(r) => Some([s[0]] + r)
  }

  predicate Quoted(t: seq<u8>)
  {
    |t| > 1 && t[0] == QUOTE && t[|t| - 1] == QUOTE
  }

  /** What `decode_string` makes of a token: nothing at all if it is not in quotes. */
  function Unquote(t: seq<u8>): Option<seq<u8>>
  {
    if Quoted(t) then Unescape(t[1..|t| - 1]) else Some([])
  }

  lemma {:induction false} UnescapeEscaped(s: seq<u8>)
    ensures Unescape(Escape(s)) == Some(s)
  {
    if s != [] {
      UnescapeEscaped(s[1..]);
      var e := Escape(s);
      if Escaped(s[0]) {
        assert e[2..] == Escape(s[1..]);
      } else {
        assert e[1..] == Escape(s[1..]);
      }
      assert s == [s[0]] + s[1..];
    }
  }

  /** Double quote, single quote, backslash, newline or tab. */
  predicate Special(c: u8)
  {
    c == 34 || c == 39 || c == 92 || c == 10 || c == 9
  }

  /** None of the five stands without a backslash before it, and no backslash stands before anything else. */
  predicate Guarded(t: seq<u8>)
    decreases |t|
  {
    t != [] ==>
      if t[0] == 92 then |t| >= 2 && Special(t[1]) && Guarded(t[2..])
      else !Special(t[0]) && Guarded(t[1..])
  }

  lemma {:induction false} EscapeGuarded(s: seq<u8>)
    ensures Guarded(Escape(s))
  {
    if s != [] {
      EscapeGuarded(s[1..]);
      var e := Escape(s);
      if Special(s[0]) {
        assert e[2..] == Escape(s[1..]);
      } else {
        assert e[1..] == Escape(s[1..]);
      }
    }
  }

  lemma UnquoteQuoted(s: seq<u8>)
    ensures Unquote(Quote(s)) == Some(s)
  {
    UnescapeEscaped(s);
    var q := Quote(s);
    assert q[1..|q| - 1] == Escape(s);
  }

  // ---------------------------------------------------------------- run lengths

  /** Five digits in base 94, the lowest first, as characters from the blank on. */
  function Digits(n: nat, k: nat): (r: seq<u8>)
    ensures |r| == k && forall i :: 0 <= i < k ==> 32 <= r[i] < 126
  {
    if k == 0 then [] else [32 + n % 94] + Digits(n / 94, k - 1)
  }

  function Number(s: seq<u8>): nat
    requires forall i :: 0 <= i < |s| ==> s[i] >= 32
  {
    if s == [] then 0 else (s[0] - 32) + 94 * Number(s[1..])
  }

  function Pow94(k: nat): (p: nat)
    ensures p > 0
  {
    if k == 0 then 1 else 94 * Pow94(k - 1)
  }

  lemma {:induction false} NumberDigits(n: nat, k: nat)
    requires n < Pow94(k)
    ensures Number(Digits(n, k)) == n
  {
    if k > 0 {
      NumberDigits(n / 94, k - 1);
      assert Digits(n, k)[1..] == Digits(n / 94, k - 1);
    }
  }

  /** The weights of five digits in base 94 written out, the blank standing for 0. */
  function Value(d: seq<u8>): int
    requires |d| == 5
  {
    var d0: int, d1: int, d2: int, d3: int, d4: int := d[0], d[1], d[2], d[3], d[4];
    (d0 - 32) + 94 * (d1 - 32) + 8836 * (d2 - 32) + 830584 * (d3 - 32) + 78074896 * (d4 - 32)
  }

  lemma NumberStep(s: seq<u8>)
    requires s != [] && forall i :: 0 <= i < |s| ==> s[i] >= 32
    ensures Number(s) == (s[0] - 32) + 94 * Number(s[1..])
  {
  }

  lemma NumberIs(d: seq<u8>)
    requires |d| == 5 && forall i :: 0 <= i < 5 ==> d[i] >= 32
    ensures Number(d) == Value(d)
  {
    hide Number;
    assert d[1..][1..] == d[2..] && d[2..][1..] == d[3..] && d[3..][1..] == d[4..] && d[4..][1..] == [];
    NumberStep(d);
    NumberStep(d[1..]);
    NumberStep(d[2..]);
    NumberStep(d[3..]);
    NumberStep(d[4..]);
    NoNumber();
  }

  lemma NoNumber()
    ensures Number([]) == 0
  {
  }

  lemma FiveDigits(n: nat)
    ensures n < 7339040224 ==> Value(Digits(n, 5)) == n
  {
    assert Pow94(5) == 7339040224;
    hide Pow94, Digits, Number;
    if n < 7339040224 {
      NumberDigits(n, 5);
      NumberIs(Digits(n, 5));
    }
  }

  // ---------------------------------------------------------------- packing

  /** Where the run that begins at `k` ends. */
  function RunEnd(a: seq<u8>, k: nat, zeros: bool): (e: nat)
    requires k <= |a|
    ensures k <= e <= |a|
    ensures forall i :: k <= i < e ==> (a[i] == 0) == zeros
    ensures e < |a| ==> (a[e] == 0) != zeros
    decreases |a| - k
  {
    if k < |a| && (a[k] == 0) == zeros then RunEnd(a, k + 1, zeros) else k
  }

  function Segment(run: seq<u8>): (r: seq<u8>)
    requires run != []
    ensures |r| >= 2
  {
    if run[0] == 0 then [ZERO] + Quote(Digits(|run|, 5)) else Quote(run)
  }

  /** All runs from `k` on, each followed by a backslash. */
  function Segments(a: seq<u8>, k: nat): (r: seq<u8>)
    requires k <= |a|
    ensures k < |a| ==> |r| >= 3
    decreases |a| - k
  {
    if k == |a| then []
    else
      var e := RunEnd(a, k + 1, a[k] == 0);
      Segment(a[k..e]) + [BACKSLASH] + Segments(a, e)
  }

  /** The packed form: the last backslash is dropped. */
  function Packed(a: seq<u8>): seq<u8>
    requires a != []
  {
    var s := Segments(a, 0);
    s[..|s| - 1]
  }

  // ---------------------------------------------------------------- tokens

  /** Offset of the next `c` that is not after a backslash, or -1. */
  function FindMatch(t: seq<u8>, c: u8): (i: int)
    ensures -1 <= i < |t| && (i >= 0 ==> t[i] == c)
    decreases |t|
  {
    if t == [] then -1
    else if t[0] == c then 0
    else if t[0] == BACKSLASH then
      if |t| == 1 then -1 else var r := FindMatch(t[2..], c); if r < 0 then -1 else r + 2
    else var r := FindMatch(t[1..], c); if r < 0 then -1 else r + 1
  }

  predicate QuoteMark(c: u8)
  {
    c == QUOTE || c == SINGLE
  }

  /** Length of the token at the front: up to a backslash that is not in quotes. */
  function TokenLen(t: seq<u8>): (n: nat)
    ensures n <= |t| && (t != [] && t[0] != BACKSLASH ==> n > 0) && (n < |t| ==> t[n] == BACKSLASH)
    decreases |t|
  {
    if t == [] || t[0] == BACKSLASH then 0
    else
      var m := if QuoteMark(t[0]) then FindMatch(t[1..], t[0]) else -1;
      if m >= 0 then m + 2 + TokenLen(t[m + 2..]) else 1 + TokenLen(t[1..])
  }

  function SkipLen(t: seq<u8>): (n: nat)
    ensures n <= |t| && (n < |t| ==> t[n] != BACKSLASH)
  {
    if t != [] && t[0] == BACKSLASH then 1 + SkipLen(t[1..]) else 0
  }

  function Zeros(n: nat): (r: seq<u8>)
    ensures |r| == n && forall i :: 0 <= i < n ==> r[i] == 0
  {
    seq(n, _ => 0)
  }

  /** What a token stands for; a run length needs five characters. */
  function Piece(tok: seq<u8>): Option<seq<u8>>
    requires tok != []
  {
    if tok[0] == ZERO then
      match Unquote(tok[1..])
      case None => None
      case Some(d) => if |d| >= 5 && (forall i :: 0 <= i < 5 ==> 32 <= d[i] < 128) then Some(Zeros(Number(d[..5]))) else None
    else Unquote(tok)
  }

  /** What follows the token of length `n` and its delimiter. */
  function After(u: seq<u8>, n: nat): (r: seq<u8>)
    requires n <= |u|
  {
    if n < |u| then u[n + 1..] else []
  }

  /** The array a packed form stands for. */
  function Unpacked(t: seq<u8>): Option<seq<u8>>
    decreases |t|
  {
    var u := t[SkipLen(t)..];
    if u == [] then Some([])
    else
      var n := TokenLen(u);
      match Piece(u[..n])
      case None => None
      case Some(p) => match Unpacked(After(u, n)) case None => None case Some(r) => Some(p + r)
  }

  // ---------------------------------------------------------------- the round trip

  lemma EscapeFirst(s: seq<u8>, rest: seq<u8>)
    requires s != []
    ensures var t, u := Escape(s) + [QUOTE] + rest, Escape(s[1..]) + [QUOTE] + rest;
      if Escaped(s[0]) then |t| > 2 && t[0] == BACKSLASH && t[2..] == u && |Escape(s)| == 2 + |Escape(s[1..])|
      else |t| > 1 && t[0] == s[0] && t[1..] == u && |Escape(s)| == 1 + |Escape(s[1..])|
  {
    var e, x := EscapeOne(s[0]), Escape(s[1..]);
    assert Escape(s) == e + x;
    hide Escape;
    JoinTail(e, x, [QUOTE], rest);
  }

  lemma JoinTail(e: seq<u8>, x: seq<u8>, y: seq<u8>, z: seq<u8>)
    ensures (e + x + y + z)[|e|..] == x + y + z && |e + x| == |e| + |x|
    ensures forall k :: 0 <= k < |e| ==> (e + x + y + z)[k] == e[k]
  {
    assert e + x + y + z == e + (x + y + z);
  }

  /** Escaping never hides the closing quote, nor shows one before it. */
  lemma {:induction false} FindQuote(s: seq<u8>, rest: seq<u8>)
    ensures FindMatch(Escape(s) + [QUOTE] + rest, QUOTE) == |Escape(s)|
    decreases |s|
  {
    var t := Escape(s) + [QUOTE] + rest;
    if s != [] {
      FindQuote(s[1..], rest);
      EscapeFirst(s, rest);
      hide Escape;
    }
  }

  lemma QuoteParts(s: seq<u8>, rest: seq<u8>)
    ensures var t := Quote(s) + rest; t != [] && t[0] == QUOTE && |Quote(s)| == |Escape(s)| + 2
    ensures var t := Quote(s) + rest; t[1..] == Escape(s) + [QUOTE] + rest && t[|Quote(s)|..] == rest
  {
    hide Escape;
    assert Quote(s) == [QUOTE] + (Escape(s) + [QUOTE]);
  }

  lemma TokenQuoted(t: seq<u8>)
    requires t != [] && t[0] == QUOTE && FindMatch(t[1..], QUOTE) >= 0
    ensures TokenLen(t) == FindMatch(t[1..], QUOTE) + 2 + TokenLen(t[FindMatch(t[1..], QUOTE) + 2..])
  {
    hide FindMatch;
  }

  lemma TokenOver(t: seq<u8>)
    requires t == [] || t[0] == BACKSLASH
    ensures TokenLen(t) == 0
  {
  }

  lemma QuoteToken(s: seq<u8>, rest: seq<u8>)
    requires rest == [] || rest[0] == BACKSLASH
    ensures TokenLen(Quote(s) + rest) == |Quote(s)|
  {
    TokenOver(rest);
    hide *;
    QuoteParts(s, rest);
    FindQuote(s, rest);
    TokenQuoted(Quote(s) + rest);
  }

  lemma SkipNone(t: seq<u8>)
    ensures t != [] && t[0] != BACKSLASH ==> SkipLen(t) == 0
  {
  }

  lemma AfterZero(t: seq<u8>)
    ensures TokenLen([ZERO] + t) == 1 + TokenLen(t)
  {
    assert ([ZERO] + t)[1..] == t;
  }

  lemma SegmentToken(run: seq<u8>, rest: seq<u8>)
    requires run != [] && (rest == [] || rest[0] == BACKSLASH)
    ensures TokenLen(Segment(run) + rest) == |Segment(run)| && SkipLen(Segment(run) + rest) == 0
  {
    hide *;
    SegmentIs(run);
    SkipNone(Segment(run) + rest);
    if run[0] == 0 {
      var q := Quote(Digits(|run|, 5));
      QuoteToken(Digits(|run|, 5), rest);
      AfterZero(q + rest);
      assert Segment(run) + rest == [ZERO] + (q + rest);
    } else {
      QuoteToken(run, rest);
    }
  }

  lemma SegmentIs(run: seq<u8>)
    requires run != []
    ensures Segment(run) == if run[0] == 0 then [ZERO] + Quote(Digits(|run|, 5)) else Quote(run)
    ensures Segment(run)[0] != BACKSLASH && (run[0] != 0 ==> Segment(run)[0] != ZERO)
  {
  }

  lemma SegmentPiece(run: seq<u8>)
    requires run != [] && |run| < Pow94(5) && forall i :: 0 <= i < |run| ==> (run[i] == 0) == (run[0] == 0)
    ensures Piece(Segment(run)) == Some(run)
  {
    hide *;
    SegmentIs(run);
    if run[0] == 0 {
      var d := Digits(|run|, 5);
      UnquoteQuoted(d);
      NumberDigits(|run|, 5);
      assert ([ZERO] + Quote(d))[1..] == Quote(d) && d[..5] == d;
      assert Zeros(|run|) == run;
      ZerosPiece(Segment(run), d);
    } else {
      UnquoteQuoted(run);
      OtherPiece(Segment(run));
    }
  }

  lemma ZerosPiece(tok: seq<u8>, d: seq<u8>)
    requires tok != [] && tok[0] == ZERO && Unquote(tok[1..]) == Some(d) && |d| >= 5 && forall i :: 0 <= i < 5 ==> 32 <= d[i] < 128
    ensures Piece(tok) == Some(Zeros(Number(d[..5])))
  {
  }

  lemma OtherPiece(tok: seq<u8>)
    requires tok != [] && tok[0] != ZERO
    ensures Piece(tok) == Unquote(tok)
  {
  }

  /** A token, and what comes after it. */
  lemma UnpackOne(s: seq<u8>, run: seq<u8>, tail: seq<u8>, more: seq<u8>)
    requires SkipLen(s + tail) == 0 && TokenLen(s + tail) == |s| > 0 && Piece(s) == Some(run)
    requires Unpacked(After(s + tail, |s|)) == Some(more)
    ensures Unpacked(s + tail) == Some(run + more)
  {
    var t := s + tail;
    assert t[0..] == t && t[..|s|] == s;
    hide SkipLen, TokenLen, Piece, After;
  }

  lemma NothingPacked()
    ensures Unpacked([]) == Some([])
  {
  }

  lemma SegmentsAt(a: seq<u8>, k: nat)
    requires k < |a|
    ensures var e := RunEnd(a, k + 1, a[k] == 0);
      Segments(a, k) == Segment(a[k..e]) + [BACKSLASH] + Segments(a, e)
  {
  }

  /** From any run on, without the last backslash. */
  lemma {:induction false} UnpackedSegments(a: seq<u8>, k: nat)
    requires k < |a| < Pow94(5)
    ensures Unpacked(Segments(a, k)[..|Segments(a, k)| - 1]) == Some(a[k..])
    decreases |a| - k
  {
    hide Segments, Segment, TokenLen, SkipLen, Piece, Unpacked, Pow94, RunEnd;
    var e := RunEnd(a, k + 1, a[k] == 0);
    var run, rest, seg := a[k..e], Segments(a, e), Segment(a[k..e]);
    SegmentsAt(a, k);
    var tail := if e == |a| then [] else [BACKSLASH] + rest[..|rest| - 1];
    SegmentToken(run, tail);
    SegmentPiece(run);
    if e == |a| {
      assert rest == [] by { NoSegments(a); }
      assert After(seg + tail, |seg|) == [];
      NothingPacked();
      UnpackOne(seg, run, tail, []);
      assert a[k..] == run + [];
      assert Segments(a, k)[..|Segments(a, k)| - 1] == seg + tail;
    } else {
      UnpackedSegments(a, e);
      assert After(seg + tail, |seg|) == rest[..|rest| - 1];
      UnpackOne(seg, run, tail, a[e..]);
      assert a[k..] == run + a[e..];
      assert Segments(a, k)[..|Segments(a, k)| - 1] == seg + tail;
    }
  }

  lemma NoSegments(a: seq<u8>)
    ensures Segments(a, |a|) == []
  {
  }

  /** Unpacking undoes packing. */
  lemma UnpackPacked(a: seq<u8>)
    requires a != [] && |a| < Pow94(5)
    ensures Unpacked(Packed(a)) == Some(a)
  {
    hide *;
    UnpackedSegments(a, 0);
    PackedIs(a);
    assert a[0..] == a;
  }

  lemma PackedIs(a: seq<u8>)
    requires a != []
    ensures Packed(a) == Segments(a, 0)[..|Segments(a, 0)| - 1]
  {
  }

  // ---------------------------------------------------------------- strings in buffers

  /** A zero-terminated string at `at`. */
  ghost predicate Holds(d: seq<u8>, at: nat, s: seq<u8>)
  {
    at + |s| < |d| && d[at..at + |s|] == s && d[at + |s|] == 0 && 0 !in s
  }

  lemma HoldsAt(d: seq<u8>, at: nat, s: seq<u8>)
    requires Holds(d, at, s)
    ensures at + |s| < |d| && d[at + |s|] == 0 && forall i :: 0 <= i < |s| ==> d[at + i] == s[i] != 0
  {
    forall i | 0 <= i < |s|
      ensures d[at + i] == s[i] != 0
    {
      assert d[at..at + |s|][i] == s[i];
      assert s[i] in s;
    }
  }

  lemma EndAt(d: seq<u8>, at: nat, s: seq<u8>, k: nat)
    requires Holds(d, at, s) && k <= |s| && d[at + k] == 0
    ensures k == |s|
  {
    HoldsAt(d, at, s);
  }

  lemma BeHeld(d: seq<u8>, at: nat, s: seq<u8>)
    requires at + |s| < |d| && d[at + |s|] == 0 && forall i :: 0 <= i < |s| ==> d[at + i] == s[i] != 0
    ensures Holds(d, at, s)
  {
  }

  lemma HoldsTail(d: seq<u8>, at: nat, s: seq<u8>, k: nat)
    requires Holds(d, at, s) && k <= |s|
    ensures Holds(d, at + k, s[k..])
  {
    HoldsAt(d, at, s);
    BeHeld(d, at + k, s[k..]);
  }

  lemma EscapeHead(s: seq<u8>)
    ensures s == [] ==> Escape(s) == []
    ensures s != [] ==> Escape(s) == EscapeOne(s[0]) + Escape(s[1..])
  {
  }

  lemma {:induction false} EscapeSnoc(s: seq<u8>, c: u8)
    ensures Escape(s + [c]) == Escape(s) + EscapeOne(c)
  {
    hide *;
    EscapeHead(s);
    EscapeHead(s + [c]);
    if s == [] {
      assert ([] + [c])[1..] == [] && s + [c] == [c];
      EscapeHead([]);
      assert EscapeOne(c) + [] == [] + EscapeOne(c);
    } else {
      EscapeSnoc(s[1..], c);
      assert (s + [c])[1..] == s[1..] + [c];
      ConcatThree(EscapeOne(s[0]), Escape(s[1..]), EscapeOne(c));
    }
  }

  lemma {:induction false} EscapeSplit(s: seq<u8>, k: nat)
    requires k <= |s|
    ensures Escape(s) == Escape(s[..k]) + Escape(s[k..])
  {
    hide *;
    if k == 0 {
      assert s[..0] == [] && s[0..] == s;
      EscapeHead(s[..0]);
      assert [] + Escape(s) == Escape(s);
    } else {
      var c := s[k - 1];
      EscapeSplit(s, k - 1);
      assert s[..k] == s[..k - 1] + [c] && s[k - 1..][0] == c && s[k - 1..][1..] == s[k..];
      EscapeSnoc(s[..k - 1], c);
      EscapeHead(s[k - 1..]);
      ConcatThree(Escape(s[..k - 1]), EscapeOne(c), Escape(s[k..]));
    }
  }

  lemma EscapeNext(s: seq<u8>, k: nat)
    requires k < |s|
    ensures Escape(s[..k + 1]) == Escape(s[..k]) + EscapeOne(s[k])
    ensures |Escape(s[..k + 1])| <= |Escape(s)|
  {
    assert s[..k + 1] == s[..k] + [s[k]];
    EscapeSnoc(s[..k], s[k]);
    EscapeSplit(s, k + 1);
  }

  lemma {:induction false} EscapeNonzero(s: seq<u8>)
    requires 0 !in s
    ensures 0 !in Escape(s) && 0 !in Quote(s)
  {
    if s != [] {
      assert s[0] in s && forall c :: c in s[1..] ==> c in s;
      EscapeNonzero(s[1..]);
    }
  }

  lemma {:induction false} UnescapeNonzero(s: seq<u8>)
    requires 0 !in s
    ensures Unescape(s).Some? ==> 0 !in Unescape(s).value && |Unescape(s).value| <= |s|
    decreases |s|
  {
    if s != [] {
      assert s[0] in s && forall c :: c in s[1..] ==> c in s;
      if s[0] != BACKSLASH {
        UnescapeNonzero(s[1..]);
      } else if |s| > 1 {
        assert s[1] in s && forall c :: c in s[2..] ==> c in s;
        UnescapeNonzero(s[2..]);
      }
    }
  }

  lemma UnquoteNonzero(t: seq<u8>)
    requires 0 !in t
    ensures Unquote(t).Some? ==> 0 !in Unquote(t).value && |Unquote(t).value| <= |t|
  {
    if Quoted(t) {
      assert forall c :: c in t[1..|t| - 1] ==> c in t;
      UnescapeNonzero(t[1..|t| - 1]);
    }
  }

  // ---------------------------------------------------------------- the routines

  /** `encode_string`, into the shared line. */
  method EncodeString(line: array<u8>, str: seq<u8>) returns (n: nat)
    requires |Quote(str)| < line.Length && 0 !in str
    modifies line
    ensures n == |Quote(str)| && Holds(line[..], 0, Quote(str))
    ensures 2 <= n < line.Length && line[0] == line[n - 1] == 34 && line[n] == 0 && Guarded(line[1..n - 1])
  {
    hide Escape, EscapeOne, Guarded;
    var i := 1;
    line[0] := QUOTE;
    EscapeSplit(str, 0);
    assert str[..0] == [] && Escape([]) == [] by { NothingEscaped(); }
    for k := 0 to |str|
      invariant i == 1 + |Escape(str[..k])| <= 1 + |Escape(str)| && line[..i] == [QUOTE] + Escape(str[..k])
    {
      EscapeNext(str, k);
      EscapeOneIs(str[k]);
      ghost var w := line[..i];
      if Escaped(str[k]) {
        line[i] := BACKSLASH;
        i := i + 1;
      }
      line[i] := str[k];
      i := i + 1;
      assert line[..i] == w + EscapeOne(str[k]);
    }
    assert str[..|str|] == str;
    ghost var w := line[..i];
    line[i] := QUOTE;
    i := i + 1;
    line[i] := 0;
    n := i;
    assert line[..n] == w + [QUOTE];
    EscapeGuarded(str);
    assert line[1..n - 1] == Escape(str);
    EscapeNonzero(str);
    assert line[..][0..0 + n] == line[..n] == Quote(str);
  }

  lemma NothingEscaped()
    ensures Escape([]) == []
  {
  }

  lemma EscapeOneIs(c: u8)
    ensures EscapeOne(c) == if Escaped(c) then [BACKSLASH, c] else [c]
  {
  }

  /** `find_next_match`: the offset from `at`, or -1. */
  method FindNextMatch(str: array<u8>, at: nat, c: u8, ghost s: seq<u8>) returns (r: int)
    requires Holds(str[..], at, s) && c != 0
    ensures r == FindMatch(s, c)
  {
    hide *;
    HoldsAt(str[..], at, s);
    var k: nat := 0;
    ghost var d := str[..];
    assert s[0..] == s;
    MatchShift(s, s, c, 0);
    while str[at + k] != 0
      invariant 0 <= k <= |s| && FindMatch(s, c) == Shifted(FindMatch(s[k..], c), k)
      decreases |s| - k
    {
      assert k < |s| && d[at + k] == s[k];
      MatchStep(s[k..], c);
      Suffixes(s, k);
      ShiftedIs(FindMatch(s[k..], c), k);
      if str[at + k] == c {
        return k;
      }
      if str[at + k] == BACKSLASH {
        assert k + 1 < |s| ==> d[at + (k + 1)] == s[k + 1];
        if str[at + k + 1] != 0 {
          ShiftTwice(FindMatch(s[k + 2..], c), 2, k);
          k := k + 1;
        } else {
          return -1;
        }
      } else {
        ShiftTwice(FindMatch(s[k + 1..], c), 1, k);
      }
      k := k + 1;
    }
    EndAt(d, at, s, k);
    NoMatch(s[k..], c);
    ShiftedIs(-1, k);
    r := -1;
  }

  function Shifted(m: int, k: nat): int
  {
    if m < 0 then -1 else m + k
  }

  lemma ShiftedIs(m: int, k: nat)
    ensures Shifted(m, k) == if m < 0 then -1 else m + k
  {
  }

  lemma ShiftTwice(m: int, j: nat, k: nat)
    ensures Shifted(Shifted(m, j), k) == Shifted(m, k + j)
  {
  }

  lemma MatchShift(s: seq<u8>, t: seq<u8>, c: u8, k: nat)
    requires s == t && k == 0
    ensures FindMatch(s, c) == Shifted(FindMatch(t, c), k)
  {
  }

  lemma MatchStep(t: seq<u8>, c: u8)
    requires t != []
    ensures FindMatch(t, c) == if t[0] == c then 0
      else if t[0] == BACKSLASH then (if |t| == 1 then -1 else Shifted(FindMatch(t[2..], c), 2))
      else Shifted(FindMatch(t[1..], c), 1)
  {
  }

  lemma NoMatch(t: seq<u8>, c: u8)
    requires t == []
    ensures FindMatch(t, c) == -1
  {
  }

  lemma DigitsStep(n: nat, k: nat)
    ensures Digits(n, k + 1) == [32 + n % 94] + Digits(n / 94, k) && Digits(n, 0) == []
  {
  }

  /** `base94_encode` */
  method Base94Encode(size0: nat) returns (b: seq<u8>)
    ensures b == Digits(size0, 5)
    ensures size0 < 7339040224 ==> Value(b) == size0
  {
    hide Digits;
    var buffer := new u8[6](_ => 0);
    var size := size0;
    for i := 0 to 5
      invariant buffer[..i] + Digits(size, 5 - i) == Digits(size0, 5)
    {
      ghost var w, c, rest := buffer[..i], 32 + size % 94, Digits(size / 94, 4 - i);
      DigitsStep(size, 4 - i);
      buffer[i] := 32 + size % 94;
      size := size / 94;
      assert buffer[..i + 1] == w + [c];
      ConcatThree(w, [c], rest);
    }
    b := buffer[..5];
    DigitsStep(size, 0);
    assert b + [] == b;
    FiveDigits(size0);
  }

  /** `base94_decode` */
  method Base94Decode(str: array<u8>, at: nat) returns (size: nat)
    requires at + 5 <= str.Length && forall i :: at <= i < at + 5 ==> str[i] >= 32
    ensures size == Number(str[at..at + 5]) == Value(str[at..at + 5])
  {
    size := 0;
    var i: int := 4;
    while i >= 0
      invariant -1 <= i <= 4 && size == Number(str[at + i + 1..at + 5])
      decreases i
    {
      assert str[at + i..at + 5][1..] == str[at + i + 1..at + 5];
      size := size * 94 + (str[at + i] - 32);
      i := i - 1;
    }
    NumberIs(str[at..at + 5]);
  }

  /** `decode_string`, in place. */
  method DecodeString(str: array<u8>, at: nat, ghost tok: seq<u8>) returns (d: nat)
    requires Holds(str[..], at, tok) && Unquote(tok).Some?
    modifies str
    ensures d == |Unquote(tok).value| <= |tok| && Holds(str[..], at, Unquote(tok).value)
    ensures forall i :: 0 <= i < str.Length && !(at <= i < at + |tok|) ==> str[i] == old(str[i])
  {
    HoldsAt(str[..], at, tok);
    UnquoteNonzero(tok);
    hide Holds;
    var n := StrLen(str, at, tok);
    d := 0;
    if n > 1 && str[at] == QUOTE && str[at + n - 1] == QUOTE {
      assert Quoted(tok);
      d := DecodeQuoted(str, at, n, tok);
    } else {
      assert !Quoted(tok);
      str[at] := 0;
      BeHeld(str[..], at, []);
    }
  }

  method StrLen(str: array<u8>, at: nat, ghost s: seq<u8>) returns (n: nat)
    requires Holds(str[..], at, s)
    ensures n == |s|
  {
    HoldsAt(str[..], at, s);
    n := 0;
    while str[at + n] != 0
      invariant n <= |s|
      decreases |s| - n
    {
      assert str[..][at + n] == str[at + n];
      n := n + 1;
    }
  }

  lemma UnescapeStep(s: seq<u8>)
    requires s != [] && Unescape(s).Some?
    ensures s[0] == BACKSLASH ==> |s| > 1 && Unescape(s[2..]).Some? && Unescape(s) == Some([s[1]] + Unescape(s[2..]).value)
    ensures s[0] != BACKSLASH ==> Unescape(s[1..]).Some? && Unescape(s) == Some([s[0]] + Unescape(s[1..]).value)
  {
  }

  lemma UnescapeNone()
    ensures Unescape([]) == Some([])
  {
  }

  /** The quotes go: the characters between them move down by one. */
  method ShiftDown(str: array<u8>, at: nat, n: nat, ghost tok: seq<u8>)
    requires n == |tok| > 1 && at + n < str.Length && forall k :: 0 <= k < n ==> str[at + k] == tok[k] != 0
    modifies str
    ensures Holds(str[..], at, tok[1..n - 1])
    ensures forall k :: 0 <= k < str.Length && !(at <= k < at + n) ==> str[k] == old(str[k])
  {
    ghost var body := tok[1..n - 1];
    for k := 0 to n - 2
      invariant forall j :: 0 <= j < k ==> str[at + j] == body[j]
      invariant forall j :: k <= j < n ==> str[at + j] == tok[j]
      invariant forall j :: 0 <= j < str.Length && !(at <= j < at + n) ==> str[j] == old(str[j])
    {
      str[at + k] := str[at + k + 1];
    }
    str[at + n - 2] := 0;
    BeHeld(str[..], at, body);
  }

  /** `done` has been written, `body[s..]` is still to be read. */
  ghost predicate Unescaping(d: seq<u8>, d0: seq<u8>, at: nat, body: seq<u8>, s: nat, done: seq<u8>)
  {
    && |d| == |d0| && at + |body| < |d| && Unescape(body).Some?
    && |done| <= s <= |body| && Unescape(body[s..]).Some? && done + Unescape(body[s..]).value == Unescape(body).value
    && (forall j :: 0 <= j < |done| ==> d[at + j] == done[j])
    && (forall j :: s <= j < |body| ==> d[at + j] == body[j] != 0) && d[at + |body|] == 0
    && (forall j :: 0 <= j < |d| && !(at <= j < at + |body|) ==> d[j] == d0[j])
  }

  lemma UnescapingFirst(d: seq<u8>, at: nat, body: seq<u8>)
    requires Holds(d, at, body) && Unescape(body).Some?
    ensures Unescaping(d, d, at, body, 0, [])
  {
    HoldsAt(d, at, body);
    assert body[0..] == body && [] + Unescape(body).value == Unescape(body).value;
  }

  lemma UnescapingIs(d: seq<u8>, d0: seq<u8>, at: nat, body: seq<u8>, s: nat, done: seq<u8>)
    requires Unescaping(d, d0, at, body, s, done)
    ensures |done| <= s <= |body| && at + |body| < |d| == |d0| && (d[at + s] == 0 <==> s == |body|)
    ensures s < |body| ==> d[at + s] == body[s] && (body[s] == BACKSLASH ==> s + 1 < |body| && d[at + s + 1] == body[s + 1])
  {
    if s < |body| {
      UnescapeStep(body[s..]);
      Suffixes(body, s);
    }
  }

  lemma UnescapingNext(d: seq<u8>, d0: seq<u8>, at: nat, body: seq<u8>, s: nat, done: seq<u8>)
    requires Unescaping(d, d0, at, body, s, done) && s < |body|
    ensures var t := if body[s] == BACKSLASH then s + 1 else s;
      t < |body| && Unescaping(d[at + |done| := body[t]], d0, at, body, t + 1, done + [body[t]])
  {
    UnescapeStep(body[s..]);
    Suffixes(body, s);
    hide Unescape;
    var t := if body[s] == BACKSLASH then s + 1 else s;
    ConcatThree(done, [body[t]], Unescape(body[t + 1..]).value);
  }

  lemma UnescapingLast(d: seq<u8>, d0: seq<u8>, at: nat, body: seq<u8>, done: seq<u8>)
    requires Unescaping(d, d0, at, body, |body|, done) && 0 !in body
    ensures done == Unescape(body).value && Holds(d[at + |done| := 0], at, done)
  {
    UnescapeNonzero(body);
    UnescapeNone();
    assert body[|body|..] == [] && done + [] == done;
    assert forall j :: 0 <= j < |done| ==> done[j] in done;
    BeHeld(d[at + |done| := 0], at, done);
  }

  /** The loop over the characters: the reading place stays ahead of the writing place. */
  method UnescapeInPlace(str: array<u8>, at: nat, ghost body: seq<u8>) returns (i: nat)
    requires Holds(str[..], at, body) && Unescape(body).Some?
    modifies str
    ensures i == |Unescape(body).value| && i <= |body| && Holds(str[..], at, Unescape(body).value)
    ensures forall k :: 0 <= k < str.Length && !(at <= k <= at + |body|) ==> str[k] == old(str[k])
  {
    hide *;
    ghost var d0, done: seq<u8> := str[..], [];
    UnescapingFirst(d0, at, body);
    var s: nat := 0;
    i := 0;
    UnescapingIs(str[..], d0, at, body, s, done);
    while str[at + s] != 0
      invariant i == |done| <= s <= |body| && at + |body| < str.Length && (str[at + s] == 0 <==> s == |body|)
      invariant Unescaping(str[..], d0, at, body, s, done)
      decreases |body| - s
    {
      UnescapingIs(str[..], d0, at, body, s, done);
      UnescapingNext(str[..], d0, at, body, s, done);
      ghost var d := str[..];
      if str[at + s] == BACKSLASH {
        s := s + 1;
      }
      str[at + i] := str[at + s];
      assert str[..] == d[at + i := body[s]];
      i, s, done := i + 1, s + 1, done + [body[s]];
      UnescapingIs(str[..], d0, at, body, s, done);
    }
    HeldNonzero(d0, at, body);
    UnescapingLast(str[..], d0, at, body, done);
    UnescapingFrame(str[..], d0, at, body, s, done);
    ghost var d := str[..];
    str[at + i] := 0;
    assert str[..] == d[at + i := 0];
  }

  lemma HeldNonzero(d: seq<u8>, at: nat, s: seq<u8>)
    requires Holds(d, at, s)
    ensures 0 !in s
  {
  }

  lemma UnescapingFrame(d: seq<u8>, d0: seq<u8>, at: nat, body: seq<u8>, s: nat, done: seq<u8>)
    requires Unescaping(d, d0, at, body, s, done)
    ensures |d| == |d0| && forall j :: 0 <= j < |d| && !(at <= j < at + |body|) ==> d[j] == d0[j]
  {
  }

  lemma Suffixes(body: seq<u8>, s: nat)
    requires s < |body|
    ensures body[s..] != [] && body[s..][0] == body[s] && body[s..][1..] == body[s + 1..]
    ensures s + 1 < |body| ==> body[s..][1] == body[s + 1] && body[s..][2..] == body[s + 2..]
  {
  }

  method DecodeQuoted(str: array<u8>, at: nat, n: nat, ghost tok: seq<u8>) returns (i: nat)
    requires n == |tok| > 1 && at + n < str.Length && Unescape(tok[1..n - 1]).Some?
    requires forall k :: 0 <= k < n ==> str[at + k] == tok[k] != 0
    modifies str
    ensures i == |Unescape(tok[1..n - 1]).value| && Holds(str[..], at, Unescape(tok[1..n - 1]).value)
    ensures forall k :: 0 <= k < str.Length && !(at <= k < at + n) ==> str[k] == old(str[k])
  {
    hide *;
    ShiftDown(str, at, n, tok);
    i := UnescapeInPlace(str, at, tok[1..n - 1]);
  }

  lemma TokenStep(t: seq<u8>)
    requires t != [] && t[0] != BACKSLASH
    ensures var m := if QuoteMark(t[0]) then FindMatch(t[1..], t[0]) else -1;
      -1 <= m < |t| - 1 && TokenLen(t) == (if m >= 0 then m + 2 + TokenLen(t[m + 2..]) else 1 + TokenLen(t[1..]))
  {
    hide FindMatch;
  }

  lemma TokenStops(t: seq<u8>)
    requires t == [] || t[0] == BACKSLASH
    ensures TokenLen(t) == 0
  {
  }

  lemma TailOfTail(t: seq<u8>, k: nat, u: seq<u8>)
    requires k <= |t| && u == t[k..] && u != []
    ensures k + 1 <= |t| && u[1..] == t[k + 1..]
  {
  }

  lemma SkipStep(t: seq<u8>)
    ensures t != [] && t[0] == BACKSLASH ==> SkipLen(t) == 1 + SkipLen(t[1..])
    ensures t == [] || t[0] != BACKSLASH ==> SkipLen(t) == 0
  {
  }

  lemma HeldSplit(d: seq<u8>, at: nat, u: seq<u8>, n: nat)
    requires Holds(d, at, u) && n <= |u|
    ensures at + n < |d| && Holds(d[at + n := 0], at, u[..n])
    ensures n < |u| ==> Holds(d[at + n := 0], at + n + 1, u[n + 1..])
    ensures n == |u| ==> d[at + n := 0] == d && Holds(d, at + n, [])
  {
    HoldsAt(d, at, u);
    var e := d[at + n := 0];
    BeHeld(e, at, u[..n]);
    if n < |u| {
      BeHeld(e, at + n + 1, u[n + 1..]);
    } else {
      BeHeld(d, at + n, []);
    }
  }

  /** What a buffer of `LINE_LENGTH` bytes, zero to begin with, holds of a byte string. */
  function Fit(v: seq<u8>): (r: seq<u8>)
    ensures |r| == LINE_LENGTH
  {
    if |v| >= LINE_LENGTH then v[..LINE_LENGTH] else v + Zeros(LINE_LENGTH - |v|)
  }

  lemma FitAt(v: seq<u8>, i: nat)
    requires i < LINE_LENGTH
    ensures Fit(v)[i] == if i < |v| then v[i] else 0
  {
  }

  lemma FitPrefix(v: seq<u8>, w: seq<u8>)
    requires v <= w && |v| >= LINE_LENGTH
    ensures Fit(v) == Fit(w)
  {
  }

  /** Each byte in its place, zeros after them. */
  lemma BeFit(d: seq<u8>, v: seq<u8>)
    requires |d| == LINE_LENGTH && forall i :: 0 <= i < LINE_LENGTH ==> d[i] == if i < |v| then v[i] else 0
    ensures d == Fit(v)
  {
  }

  method CopyBytes(dst: array<u8>, at: nat, src: array<u8>, from: nat, n: nat)
    requires at + n <= dst.Length && from + n <= src.Length && dst != src
    modifies dst
    ensures forall i :: 0 <= i < dst.Length ==> dst[i] == if at <= i < at + n then src[i - at + from] else old(dst[i])
  {
    for k := 0 to n
      invariant forall i :: 0 <= i < dst.Length ==> dst[i] == if at <= i < at + k then src[i - at + from] else old(dst[i])
    {
      dst[at + k] := src[from + k];
    }
  }

  lemma UnpackedStep(t: seq<u8>)
    ensures var u := t[SkipLen(t)..];
      && (u == [] ==> Unpacked(t) == Some([]))
      && (u != [] ==> var n := TokenLen(u); n > 0 && (Unpacked(t).Some? ==>
            Piece(u[..n]).Some? && Unpacked(After(u, n)).Some? && Unpacked(t) == Some(Piece(u[..n]).value + Unpacked(After(u, n)).value)))
  {
  }

  lemma PieceIs(tok: seq<u8>)
    requires tok != [] && Piece(tok).Some?
    ensures tok[0] != ZERO ==> Unquote(tok) == Piece(tok)
    ensures tok[0] == ZERO ==> Unquote(tok[1..]).Some? && |Unquote(tok[1..]).value| >= 5
    ensures tok[0] == ZERO ==> var d := Unquote(tok[1..]).value; (forall i :: 0 <= i < 5 ==> 32 <= d[i] < 128) && Piece(tok) == Some(Zeros(Number(d[..5])))
  {
  }

  class Codec {
    const line: array<u8>
    /** The place where the tokenizer goes on. */
    var pos: nat

    constructor ()
      ensures line.Length == LINE_LENGTH == 262144 && fresh(line)
    {
      line := new u8[LINE_LENGTH](_ => 0);
      pos := 0;
    }

    /** `get_token` with the one delimiter: the next token is ended by a zero in place. */
    method GetToken(str: array<u8>, first: bool, ghost t: seq<u8>) returns (found: bool, tok: nat, ghost u: seq<u8>, ghost n: nat)
      requires Holds(str[..], if first then 0 else pos, t)
      modifies str, this`pos
      ensures u == t[SkipLen(t)..] && found == (u != []) && n == TokenLen(u)
      ensures found ==> Holds(str[..], tok, u[..n]) && Holds(str[..], pos, After(u, n)) && pos >= tok + n && (pos == tok + n ==> n == |u|)
    {
      hide *;
      if first {
        pos := 0;
      }
      ghost var at := pos;
      u := SkipDelimiters(str, t);
      tok := pos;
      n := TokenLen(u);
      HoldsAt(str[..], pos, u);
      assert u == [] ==> str[..][pos] == 0;
      assert u != [] ==> str[..][pos] == u[0];
      found := str[pos] != 0;
      if found {
        SkipToEnd(str, u);
        HeldSplit(str[..], tok, u, n);
        HoldsAt(str[..], tok, u);
        ghost var d := str[..];
        assert n < |u| ==> d[tok + n] == u[n];
        if str[pos] != 0 {
          str[pos] := 0;
          pos := pos + 1;
        }
        assert str[..] == d[tok + n := 0];
        AfterIs(u, n);
      }
    }

    method SkipDelimiters(str: array<u8>, ghost t: seq<u8>) returns (ghost u: seq<u8>)
      requires Holds(str[..], pos, t)
      modifies this`pos
      ensures u == t[SkipLen(t)..] && Holds(str[..], pos, u)
    {
      hide *;
      u := t;
      ghost var k: nat := 0;
      assert t[0..] == t;
      HoldsAt(str[..], pos, u);
      while str[pos] != 0 && str[pos] == BACKSLASH
        invariant k <= |t| && u == t[k..] && k + SkipLen(u) == SkipLen(t) && Holds(str[..], pos, u)
        invariant pos + |u| < str.Length && (u == [] ==> str[pos] == 0) && (u != [] ==> str[pos] == u[0] != 0)
        decreases |u|
      {
        SkipStep(u);
        HoldsTail(str[..], pos, u, 1);
        TailOfTail(t, k, u);
        pos, k, u := pos + 1, k + 1, u[1..];
        HoldsAt(str[..], pos, u);
      }
      SkipStep(u);
    }

    /** One character of a token, or a whole quotation. */
    method PassOne(str: array<u8>, ghost r: seq<u8>) returns (ghost l: nat)
      requires Holds(str[..], pos, r) && r != [] && r[0] != BACKSLASH
      modifies this`pos
      ensures 0 < l <= |r| && pos == old(pos) + l && TokenLen(r) == l + TokenLen(r[l..]) && Holds(str[..], pos, r[l..])
    {
      hide *;
      TokenStep(r);
      HoldsAt(str[..], pos, r);
      assert str[..][pos] == r[0];
      QuoteMarkIs(r[0]);
      HoldsTail(str[..], pos, r, 1);
      l := 1;
      if str[pos] == QUOTE || str[pos] == SINGLE {
        var match_ := FindNextMatch(str, pos + 1, str[pos], r[1..]);
        if match_ >= 0 {
          l := match_ + 2;
          pos := pos + 1 + match_;
        }
      }
      HoldsTail(str[..], old(pos), r, l);
      pos := pos + 1;
    }

    /** On to the end of the token, past what is in quotes. */
    method SkipToEnd(str: array<u8>, ghost u: seq<u8>)
      requires Holds(str[..], pos, u)
      modifies this`pos
      ensures pos == old(pos) + TokenLen(u)
    {
      hide *;
      ghost var k: nat, r := 0, u;
      assert u[0..] == u;
      HoldsAt(str[..], pos, r);
      while str[pos] != 0 && str[pos] != BACKSLASH
        invariant k <= |u| && r == u[k..] && pos == old(pos) + k && k + TokenLen(r) == TokenLen(u) && Holds(str[..], pos, r)
        invariant pos + |r| < str.Length && (r == [] ==> str[pos] == 0) && (r != [] ==> str[pos] == r[0] != 0)
        decreases |r|
      {
        ghost var l := PassOne(str, r);
        assert r[l..] == u[k + l..];
        k, r := k + l, r[l..];
        HoldsAt(str[..], pos, r);
      }
      TokenStops(r);
    }

    /** `char_array_pack` */
    method Pack(a: seq<u8>)
      requires a != [] && a[|a| - 1] == 0 && line.Length == LINE_LENGTH && |Packed(a)| < LINE_LENGTH
      modifies line
      ensures Holds(line[..], 0, Packed(a))
    {
      PackedSize(a);
      hide *;
      var packed := new u8[LINE_LENGTH](_ => 0);
      var p: nat, str: nat := 0, 0;
      assert packed[..0] + Segments(a, 0) == Segments(a, 0);
      while str < |a|
        invariant str <= |a| && p + |Segments(a, str)| == |Segments(a, 0)| && packed[..p] + Segments(a, str) == Segments(a, 0)
        invariant (str > 0 ==> p > 0) && line.Length == packed.Length == LINE_LENGTH && packed != line && fresh(packed)
        decreases |a| - str
      {
        p, str := PackRun(a, str, packed, p, line);
      }
      NoSegments(a);
      assert packed[..p] == Segments(a, 0);
      CloseLine(packed, p, line, a);
    }

    /**
     `char_array_unpack`: the line holds the array the packed form stands for, zeros after it, cut at
     the end of the buffer. The packed form may be in the line itself.
     */
    method Unpack(str: array<u8>, ghost t: seq<u8>)
      requires Holds(str[..], 0, t) && Unpacked(t).Some? && line.Length == LINE_LENGTH
      modifies str, line, this`pos
      ensures line[..] == Fit(Unpacked(t).value)
    {
      hide *;
      ghost var v := Unpacked(t).value;
      var packed := new u8[LINE_LENGTH](_ => 0);
      var p: nat := 0;
      ghost var done: seq<u8> := [];
      BeFitNone(packed[..]);
      var found: bool, tok: nat;
      ghost var u, n;
      UnpackedStep(t);
      found, tok, u, n := GetToken(str, true, t);
      assert done + v == v;
      if found {
        BeGoing(str[..], u, n, tok, pos, done, v, t);
      }
      while found
        invariant fresh(packed) && packed.Length == LINE_LENGTH && packed[..] == Fit(done) && p == |done| <= LINE_LENGTH
        invariant found == (u != []) && n == TokenLen(u) && n <= |u| && (found ==> Going(str[..], u, n, tok, pos, done, v))
        invariant !found ==> done == v
        decreases |u|
      {
        GoingIs(str[..], u, n, tok, pos, done, v);
        ghost var r := After(u, n);
        AfterIs(u, n);
        var full;
        ghost var d := str[..];
        p, full := UnpackToken(str, packed, p, tok, u[..n], done);
        done := done + Piece(u[..n]).value;
        HeldStays(d, str[..], pos, r, tok + n);
        if full {
          FitPrefix(done, v);
          break;
        }
        UnpackedStep(r);
        ghost var u0 := u;
        found, tok, u, n := GetToken(str, false, r);
        if found {
          BeGoing(str[..], u, n, tok, pos, done, v, r);
        } else {
          assert done + [] == done;
        }
      }
      CopyBytes(line, 0, packed, 0, LINE_LENGTH);
      assert line[..] == packed[..];
    }

    /** What one token adds to the array, cut at the end of the buffer. */
    method UnpackToken(str: array<u8>, packed: array<u8>, p0: nat, tok: nat, ghost token: seq<u8>, ghost done: seq<u8>) returns (p: nat, full: bool)
      requires Holds(str[..], tok, token) && token != [] && Piece(token).Some? && str != packed && packed.Length == LINE_LENGTH
      requires p0 == |done| <= LINE_LENGTH && packed[..] == Fit(done)
      modifies str, packed
      ensures p == p0 + |Piece(token).value| && full == (p > LINE_LENGTH) && packed[..] == Fit(done + Piece(token).value)
      ensures forall i :: 0 <= i < str.Length && !(tok <= i < tok + |token|) ==> str[i] == old(str[i])
    {
      hide *;
      PieceIs(token);
      HoldsAt(str[..], tok, token);
      ghost var piece := Piece(token).value;
      assert str[..][tok] == token[0];
      if str[tok] == ZERO {
        HoldsTail(str[..], tok, token, 1);
        var d := DecodeString(str, tok + 1, token[1..]);
        var i := RunLength(str, tok + 1, Unquote(token[1..]).value);
        p := p0 + i;
        full := p > LINE_LENGTH;
        FitZeros(done, i);
        if !full {
          ClearBytes(packed, p0, i, done);
        }
      } else {
        var d := DecodeString(str, tok, token);
        p := p0 + d;
        full := p > LINE_LENGTH;
        HoldsAt(str[..], tok, piece);
        AppendBytes(packed, p0, str, tok, d, done, piece);
      }
    }
  }

  lemma BeFitNone(d: seq<u8>)
    requires |d| == LINE_LENGTH && forall i :: 0 <= i < |d| ==> d[i] == 0
    ensures d == Fit([])
  {
    BeFit(d, []);
  }

  /** A token is at hand; it and what comes after it make up the rest of the array. */
  ghost predicate Going(d: seq<u8>, u: seq<u8>, n: nat, tok: nat, pos: nat, done: seq<u8>, v: seq<u8>)
    requires n <= |u|
  {
    && 0 < n && Holds(d, tok, u[..n]) && Holds(d, pos, After(u, n)) && pos >= tok + n && (pos == tok + n ==> n == |u|)
    && Piece(u[..n]).Some? && Unpacked(After(u, n)).Some? && done + (Piece(u[..n]).value + Unpacked(After(u, n)).value) == v
  }

  lemma GoingIs(d: seq<u8>, u: seq<u8>, n: nat, tok: nat, pos: nat, done: seq<u8>, v: seq<u8>)
    requires n <= |u| && Going(d, u, n, tok, pos, done, v)
    ensures 0 < n && Holds(d, tok, u[..n]) && Holds(d, pos, After(u, n)) && pos >= tok + n && u[..n] != [] && |After(u, n)| < |u|
    ensures Piece(u[..n]).Some? && Unpacked(After(u, n)).Some?
    ensures done + Piece(u[..n]).value <= v && done + Piece(u[..n]).value + Unpacked(After(u, n)).value == v
  {
    hide Holds, Piece, Unpacked;
    ConcatThree(done, Piece(u[..n]).value, Unpacked(After(u, n)).value);
  }

  lemma BeGoing(d: seq<u8>, u: seq<u8>, n: nat, tok: nat, pos: nat, done: seq<u8>, v: seq<u8>, r: seq<u8>)
    requires n <= |u| && u == r[SkipLen(r)..] && u != [] && n == TokenLen(u) && Unpacked(r).Some? && done + Unpacked(r).value == v
    requires Holds(d, tok, u[..n]) && Holds(d, pos, After(u, n)) && pos >= tok + n && (pos == tok + n ==> n == |u|)
    ensures Going(d, u, n, tok, pos, done, v)
  {
    hide Holds, Piece, Unpacked, TokenLen;
    UnpackedStep(r);
  }

  lemma HeldStays(d: seq<u8>, e: seq<u8>, at: nat, s: seq<u8>, from: nat)
    requires Holds(d, at, s) && |e| == |d| && at >= from && forall i :: from <= i < |d| ==> e[i] == d[i]
    ensures Holds(e, at, s)
  {
    HoldsAt(d, at, s);
    BeHeld(e, at, s);
  }

  lemma PackedSize(a: seq<u8>)
    requires a != []
    ensures |Packed(a)| == |Segments(a, 0)| - 1
  {
  }

  // ---------------------------------------------------------------- the loops

  lemma SegmentsBound(a: seq<u8>, k: nat)
    requires k < |a|
    ensures var e := RunEnd(a, k + 1, a[k] == 0);
      && Segments(a, k) == Segment(a[k..e]) + [BACKSLASH] + Segments(a, e)
      && RunEnd(a, k, a[k] == 0) == e && k < e <= |a| && (forall i :: k <= i < e ==> (a[i] == 0) == (a[k] == 0))
  {
  }

  /** `strlen`, or the loop that counts zeros. */
  method CountRun(a: seq<u8>, k: nat, zeros: bool) returns (e: nat)
    requires k < |a| && (zeros || a[|a| - 1] == 0)
    ensures e == RunEnd(a, k, zeros)
  {
    e := k;
    while (if zeros then e < |a| && a[e] == 0 else a[e] != 0)
      invariant k <= e <= |a| && (zeros || e < |a|) && RunEnd(a, e, zeros) == RunEnd(a, k, zeros)
      decreases |a| - e
    {
      e := e + 1;
    }
  }

  /** The encoded string in `line` goes to the end of what is packed. */
  method AppendLine(packed: array<u8>, p: nat, line: array<u8>, n: nat, ghost s: seq<u8>, ghost w: seq<u8>)
    requires packed != line && n == |s| && Holds(line[..], 0, s) && p + n < packed.Length && packed[..p] == w
    modifies packed
    ensures packed[..p + n] == w + s
  {
    HoldsAt(line[..], 0, s);
    hide Holds;
    CopyBytes(packed, p, line, 0, n + 1);
    assert forall i :: 0 <= i < n ==> line[..][0 + i] == s[i];
    assert forall i :: p <= i < p + n ==> packed[i] == s[i - p];
    assert forall i :: 0 <= i < p ==> packed[i] == w[i];
  }

  /** A run of zeros as their number, any other run as it is. */
  method EncodeRun(a: seq<u8>, k: nat, e: nat, packed: array<u8>, p: nat, line: array<u8>) returns (q: nat)
    requires k < e <= |a| && (forall i :: k <= i < e ==> (a[i] == 0) == (a[k] == 0)) && packed != line
    requires p + |Segment(a[k..e])| < packed.Length && |Segment(a[k..e])| < line.Length
    modifies packed, line
    ensures q == p + |Segment(a[k..e])| && packed[..q] == old(packed[..p]) + Segment(a[k..e])
  {
    hide *;
    SegmentIs(a[k..e]);
    ghost var w := packed[..p];
    if a[k] != 0 {
      RunNonzero(a, k, e);
      var n := EncodeString(line, a[k..e]);
      AppendLine(packed, p, line, n, Quote(a[k..e]), w);
      q := p + n;
    } else {
      var digits := Base94Encode(e - k);
      DigitsNonzero(e - k);
      var n := EncodeString(line, digits);
      packed[p] := ZERO;
      assert packed[..p + 1] == w + [ZERO];
      AppendLine(packed, p + 1, line, n, Quote(digits), w + [ZERO]);
      q := p + 1 + n;
      ConcatThree(w, [ZERO], Quote(digits));
    }
  }

  /** The last backslash becomes the end of the string, and the line is copied. */
  method CloseLine(packed: array<u8>, p: nat, line: array<u8>, ghost a: seq<u8>)
    requires a != [] && 0 < p <= packed.Length && p <= line.Length && packed != line && packed[..p] == Segments(a, 0)
    modifies packed, line
    ensures Holds(line[..], 0, Packed(a))
  {
    hide *;
    ghost var s := Segments(a, 0);
    PackedIs(a);
    SegmentsNonzero(a, 0);
    AllNonzero(s);
    assert forall i :: 0 <= i < p ==> packed[i] == s[i];
    packed[p - 1] := 0;
    CopyBytes(line, 0, packed, 0, p);
    ghost var d, v := line[..], s[..p - 1];
    assert forall i :: 0 <= i < p - 1 ==> d[0 + i] == v[i] != 0;
    BeHeld(d, 0, v);
  }

  lemma AllNonzero(s: seq<u8>)
    requires 0 !in s
    ensures forall i :: 0 <= i < |s| ==> s[i] != 0
  {
    forall i | 0 <= i < |s|
      ensures s[i] != 0
    {
      assert s[i] in s;
    }
  }

  /** One run: its segment and a backslash. */
  method PackRun(a: seq<u8>, k: nat, packed: array<u8>, p: nat, line: array<u8>) returns (q: nat, e: nat)
    requires k < |a| && a[|a| - 1] == 0 && packed != line && line.Length == packed.Length == LINE_LENGTH
    requires p + |Segments(a, k)| <= LINE_LENGTH
    modifies packed, line
    ensures k < e <= |a| && p < q && q + |Segments(a, e)| == p + |Segments(a, k)|
    ensures packed[..q] + Segments(a, e) == old(packed[..p]) + Segments(a, k)
  {
    hide *;
    SegmentsBound(a, k);
    ghost var w := packed[..p];
    e := CountRun(a, k, a[k] == 0);
    ghost var seg, rest := Segment(a[k..e]), Segments(a, e);
    q := EncodeRun(a, k, e, packed, p, line);
    packed[q] := BACKSLASH;
    q := q + 1;
    assert packed[..q] == w + seg + [BACKSLASH];
    Regroup(w, seg, [BACKSLASH], rest);
  }

  lemma Regroup(w: seq<u8>, s: seq<u8>, b: seq<u8>, r: seq<u8>)
    ensures w + s + b + r == w + (s + b + r)
  {
  }

  lemma RunNonzero(a: seq<u8>, k: nat, e: nat)
    requires k < e <= |a| && forall i :: k <= i < e ==> a[i] != 0
    ensures 0 !in a[k..e]
  {
  }

  lemma DigitsNonzero(n: nat)
    ensures 0 !in Digits(n, 5) && |Digits(n, 5)| == 5
  {
  }

  lemma {:induction false} SegmentsNonzero(a: seq<u8>, k: nat)
    requires k <= |a|
    ensures 0 !in Segments(a, k)
    decreases |a| - k
  {
    hide *;
    if k < |a| {
      SegmentsBound(a, k);
      var e := RunEnd(a, k + 1, a[k] == 0);
      SegmentsNonzero(a, e);
      SegmentNonzero(a[k..e]);
      NoZeros(Segment(a[k..e]), [BACKSLASH], Segments(a, e));
    } else {
      NoSegments(a);
    }
  }

  lemma SegmentNonzero(run: seq<u8>)
    requires run != [] && forall i :: 0 <= i < |run| ==> (run[i] == 0) == (run[0] == 0)
    ensures 0 !in Segment(run)
  {
    hide Escape, Digits;
    if run[0] == 0 {
      DigitsNonzero(|run|);
      EscapeNonzero(Digits(|run|, 5));
    } else {
      EscapeNonzero(run);
    }
  }

  lemma NoZeros(s: seq<u8>, b: seq<u8>, r: seq<u8>)
    requires 0 !in s && 0 !in r && b == [BACKSLASH]
    ensures 0 !in s + b + r
  {
  }

  lemma QuoteMarkIs(c: u8)
    ensures QuoteMark(c) <==> c == QUOTE || c == SINGLE
    ensures QUOTE == 34 && SINGLE == 39
  {
  }

  lemma AfterIs(u: seq<u8>, n: nat)
    requires n <= |u|
    ensures After(u, n) == if n < |u| then u[n + 1..] else []
  {
  }

  lemma FitZeros(done: seq<u8>, i: nat)
    requires |done| <= LINE_LENGTH
    ensures Fit(done + Zeros(i)) == Fit(done)
  {
  }

  /** `memset(p, 0, i)`, where there are zeros already. */
  method ClearBytes(packed: array<u8>, p: nat, n: nat, ghost done: seq<u8>)
    requires packed.Length == LINE_LENGTH && p == |done| && p + n <= LINE_LENGTH && packed[..] == Fit(done)
    modifies packed
    ensures packed[..] == Fit(done)
  {
    assert forall i :: p <= i < LINE_LENGTH ==> Fit(done)[i] == 0;
    for k := 0 to n
      invariant packed[..] == Fit(done)
    {
      packed[p + k] := 0;
    }
  }

  method RunLength(str: array<u8>, at: nat, ghost d: seq<u8>) returns (i: nat)
    requires Holds(str[..], at, d) && |d| >= 5 && forall i :: 0 <= i < 5 ==> 32 <= d[i] < 128
    ensures i == Number(d[..5])
  {
    HoldsAt(str[..], at, d);
    hide Holds, Number;
    assert forall k :: at <= k < at + 5 ==> str[k] == str[..][at + (k - at)] == d[k - at];
    i := Base94Decode(str, at);
    assert str[at..at + 5] == d[..5];
  }

  /** `memcpy`, of as much as there is room for. */
  method AppendBytes(packed: array<u8>, p: nat, str: array<u8>, at: nat, n: nat, ghost done: seq<u8>, ghost piece: seq<u8>)
    requires packed.Length == LINE_LENGTH && p == |done| <= LINE_LENGTH && packed[..] == Fit(done) && packed != str
    requires n == |piece| && at + n < str.Length && forall i :: 0 <= i < n ==> str[..][at + i] == piece[i]
    modifies packed
    ensures packed[..] == Fit(done + piece)
  {
    ghost var d := packed[..];
    var m := if p + n > LINE_LENGTH then LINE_LENGTH - p else n;
    CopyBytes(packed, p, str, at, m);
    hide Fit;
    forall i | 0 <= i < LINE_LENGTH
      ensures packed[..][i] == if i < |done + piece| then (done + piece)[i] else 0
    {
      FitAt(done, i);
      assert packed[i] == if p <= i < p + m then str[i - p + at] else d[i];
      if p <= i < p + m {
        assert str[..][at + (i - p)] == piece[i - p];
      }
    }
    BeFit(packed[..], done + piece);
  }

  lemma ShortRuns()
    ensures LINE_LENGTH < Pow94(5)
  {
    assert Pow94(1) == 94 && Pow94(2) == 8836;
  }

  /** Packing and unpacking in the one line gives the array back, zeros after it. */
  method PackThenUnpack(a: seq<u8>) returns (codec: Codec)
    requires a != [] && a[|a| - 1] == 0 && |a| <= 262144 && |Packed(a)| < 262144
    ensures codec.line.Length == 262144 && codec.line[..|a|] == a && forall i :: |a| <= i < 262144 ==> codec.line[i] == 0
  {
    assert LINE_LENGTH == 262144;
    hide *;
    codec := new Codec();
    codec.Pack(a);
    ShortRuns();
    UnpackPacked(a);
    codec.Unpack(codec.line, Packed(a));
    FitHolds(a);
    assert forall i :: 0 <= i < LINE_LENGTH ==> codec.line[i] == Fit(a)[i];
  }

  lemma FitHolds(a: seq<u8>)
    requires |a| <= LINE_LENGTH
    ensures Fit(a)[..|a|] == a && forall i :: |a| <= i < LINE_LENGTH ==> Fit(a)[i] == 0
  {
  }

  // ---------------------------------------------------------------- an array and its text

  lemma {:induction false} EscapePlain(s: seq<u8>)
    requires forall i :: 0 <= i < |s| ==> !Special(s[i])
    ensures Escape(s) == s
  {
    if s != [] {
      EscapePlain(s[1..]);
      assert s == [s[0]] + s[1..];
    }
  }

  lemma ThreeZeros()
    ensures Segment([0, 0, 0]) == [48, 34, 35, 32, 32, 32, 32, 34]
  {
    hide Digits, Escape;
    DigitsOfThree();
    EscapePlain([35, 32, 32, 32, 32]);
  }

  lemma DigitsOfThree()
    ensures Digits(3, 5) == [35, 32, 32, 32, 32]
  {
    hide Digits;
    DigitsStep(3, 4);
    DigitsStep(0, 3);
    DigitsStep(0, 2);
    DigitsStep(0, 1);
    DigitsStep(0, 0);
  }

  lemma OneQuote()
    ensures Segment([97, 39]) == [34, 97, 92, 39, 34]
  {
    hide Escape;
    EscapeHead([97, 39]);
    EscapeHead([39]);
    EscapeHead([]);
    assert [97, 39][1..] == [39] && [39][1..] == [];
  }

  /** The bytes `a'` and three zeros become the text `"a\'"\0"#    "`. */
  lemma PackedText()
    ensures Packed([97, 39, 0, 0, 0]) == [34, 97, 92, 39, 34, 92, 48, 34, 35, 32, 32, 32, 32, 34]
  {
    var a: seq<u8> := [97, 39, 0, 0, 0];
    hide *;
    TwoRuns(a);
    OneQuote();
    ThreeZeros();
    BothRuns(a);
    PackedIs(a);
    Joined();
  }

  lemma BothRuns(a: seq<u8>)
    requires a == [97, 39, 0, 0, 0]
    ensures a[0..2] == [97, 39] && a[2..5] == [0, 0, 0]
  {
  }

  lemma Joined()
    ensures var s: seq<u8> := [34, 97, 92, 39, 34] + [92] + ([48, 34, 35, 32, 32, 32, 32, 34] + [92] + []);
      |s| == 15 && s[..14] == [34, 97, 92, 39, 34, 92, 48, 34, 35, 32, 32, 32, 32, 34]
  {
  }

  lemma TwoRuns(a: seq<u8>)
    requires a == [97, 39, 0, 0, 0]
    ensures Segments(a, 0) == Segment(a[0..2]) + [92] + (Segment(a[2..5]) + [92] + [])
  {
    hide Segment;
    assert RunEnd(a, 2, false) == 2 && RunEnd(a, 1, false) == 2;
    assert RunEnd(a, 5, true) == 5 && RunEnd(a, 4, true) == 5 && RunEnd(a, 3, true) == 5;
    assert Segments(a, 5) == [];
  }
}
