/**
 One stream worked out bit by bit: what the definitions of this model make of sixteen bytes that any zlib
 decoder reads as "hello hello hello hello" (literals, a match with extra bits, the checksum 0x680308b1).
 */
module KnownStream {
  import opened Bits
  import opened Options
  import opened Canonical
  import opened LzTokens
  import opened InflateSpec
  import opened BlockSpec
  import opened Streams
  import opened FormatFacts
  import A = Adler
  import D = DeflateBits
  import M = MemToMem
  import R = RawBlocks

  const HELLO: seq<u8> := [120, 218, 203, 72, 205, 201, 201, 87, 200, 64, 39, 1, 104, 3, 8, 177]

  /** "hello hello hello hello" */
  const TEXT: seq<u8> := [104, 101, 108, 108, 111, 32, 104, 101, 108, 108, 111, 32, 104, 101, 108, 108, 111, 32, 104, 101, 108, 108, 111]

  // ---------------------------------------------------------------- bits and bytes

  /** Bits on hand, then whole bytes. */
  ghost function Left(v: nat, n: nat, s: seq<u8>): seq<bool>
  {
    ToBits(v, n) + BytesToBits(s)
  }

  lemma BytesCons(b: u8, s: seq<u8>)
    ensures BytesToBits([b] + s) == ToBits(b, 8) + BytesToBits(s)
  {
    hide ToBits;
    BytesSnoc([], b);
    assert [] + [b] == [b] && BytesToBits([]) + ToBits(b, 8) == ToBits(b, 8);
    BytesToBitsConcat([b], s);
  }

  /** One more byte is taken, and `m` of the bits on hand come to `w`. */
  lemma TakeByte(v: nat, n: nat, b: u8, s: seq<u8>, w: nat, m: nat, u: nat)
    requires v < Pow2(n) && w < Pow2(m) && m <= n + 8 && v + b * Pow2(n) == w + u * Pow2(m) && u < Pow2(n + 8 - m)
    ensures Left(v, n, [b] + s) == ToBits(w, m) + Left(u, n + 8 - m, s)
  {
    hide ToBits, BytesToBits, Pow2;
    BytesCons(b, s);
    ToBitsJoin(v, n, b, 8);
    ToBitsJoin(w, m, u, n + 8 - m);
    assert ToBits(v, n) + (ToBits(b, 8) + BytesToBits(s)) == ToBits(v, n) + ToBits(b, 8) + BytesToBits(s);
    assert ToBits(w, m) + (ToBits(u, n + 8 - m) + BytesToBits(s)) == ToBits(w, m) + ToBits(u, n + 8 - m) + BytesToBits(s);
  }

  /** A code travels from its highest bit on. */
  lemma OneCode(c: nat, n: nat, v: nat)
    requires n > 0 && CodeBits(c / 2, n - 1) == ToBits(v, n - 1)
    ensures CodeBits(c, n) == ToBits(v, n - 1) + ToBits(c % 2, 1)
  {
    assert ToBits(c % 2, 1) == [c % 2 == 1];
  }

  /** So a code of one bit more is sent as a number with one bit more on top. */
  lemma NextCode(c: nat, n: nat, v: nat)
    requires n > 0 && CodeBits(c / 2, n - 1) == ToBits(v, n - 1) && v < Pow2(n - 1)
    ensures CodeBits(c, n) == ToBits(v + c % 2 * Pow2(n - 1), n)
  {
    hide CodeBits, ToBits, Pow2;
    OneCode(c, n, v);
    Pow2Values();
    ToBitsJoin(v, n - 1, c % 2, 1);
  }

  /** The bits of `c` in the opposite order. */
  function Reversed(c: nat, n: nat): (v: nat)
    ensures v < Pow2(n)
  {
    if n == 0 then 0 else Reversed(c / 2, n - 1) + c % 2 * Pow2(n - 1)
  }

  lemma {:induction false} CodeReversed(c: nat, n: nat)
    ensures CodeBits(c, n) == ToBits(Reversed(c, n), n)
  {
    if n > 0 {
      CodeReversed(c / 2, n - 1);
      NextCode(c, n, Reversed(c / 2, n - 1));
    }
  }

  /** `m` of the bits on hand come to `w`. */
  lemma TakeBits(v: nat, n: nat, s: seq<u8>, w: nat, m: nat, u: nat)
    requires v < Pow2(n) && w < Pow2(m) && m <= n && v == w + u * Pow2(m) && u < Pow2(n - m)
    ensures Left(v, n, s) == ToBits(w, m) + Left(u, n - m, s)
  {
    hide ToBits, BytesToBits, Pow2;
    ToBitsJoin(w, m, u, n - m);
    assert ToBits(w, m) + (ToBits(u, n - m) + BytesToBits(s)) == ToBits(w, m) + ToBits(u, n - m) + BytesToBits(s);
  }

  /** With five bits on hand, the next eight and five left over. */
  lemma NextEight(k: nat, v: nat, w: nat, u: nat)
    requires k < 16 && v < 32 && w < 256 && u < 32 && v + 32 * (HELLO[k] as int) == w + 256 * u
    ensures Left(v, 5, HELLO[k..]) == ToBits(w, 8) + Left(u, 5, HELLO[k + 1..])
  {
    Pow2Values();
    hide ToBits, Left, Pow2;
    assert HELLO[k..] == [HELLO[k]] + HELLO[k + 1..];
    TakeByte(v, 5, HELLO[k], HELLO[k + 1..], w, 8, u);
  }

  // ---------------------------------------------------------------- the codes that occur

  /** `x` is sent as the `n` bits of `v`, lowest first. */
  ghost predicate SentAs(lens: seq<nat>, x: nat, v: nat, n: nat)
  {
    x < |lens| && lens[x] == n > 0 && HuffBits(lens, x) == ToBits(v, n)
  }

  lemma Letter(x: nat, v: nat)
    requires x < 144 && Reversed(48 + x, 8) == v
    ensures SentAs(FixedLit(), x, v, 8)
  {
    hide FixedLit, CodeBits, ToBits, CodeOf, Reversed;
    FixedLitCodes(x);
    CodeReversed(48 + x, 8);
  }

  lemma OneTurn(c: nat, n: nat)
    requires n > 0
    ensures Reversed(c, n) == Reversed(c / 2, n - 1) + c % 2 * Pow2(n - 1)
  {
  }

  lemma FiveTurns(c: nat)
    ensures var d, e, f, g := c / 2, c / 2 / 2, c / 2 / 2 / 2, c / 2 / 2 / 2 / 2;
      Reversed(c, 5) == 16 * (c % 2) + 8 * (d % 2) + 4 * (e % 2) + 2 * (f % 2) + g % 2
  {
    Pow2Values();
    PowerZero();
    hide Reversed, Pow2;
    var d, e, f, g := c / 2, c / 2 / 2, c / 2 / 2 / 2, c / 2 / 2 / 2 / 2;
    OneTurn(c, 5);
    OneTurn(d, 4);
    OneTurn(e, 3);
    OneTurn(f, 2);
    OneTurn(g, 1);
    NoTurn(g / 2);
  }

  lemma NoTurn(c: nat)
    ensures Reversed(c, 0) == 0
  {
  }

  lemma EightTurns(c: nat, v: nat)
    requires v == 128 * (c % 2) + 64 * (c / 2 % 2) + 32 * (c / 2 / 2 % 2) + Reversed(c / 2 / 2 / 2, 5)
    ensures Reversed(c, 8) == v
  {
    Pow2Values();
    hide Reversed, Pow2;
    OneTurn(c, 8);
    OneTurn(c / 2, 7);
    OneTurn(c / 2 / 2, 6);
  }

  lemma Turned()
    ensures Reversed(152, 8) == 25 && Reversed(149, 8) == 169 && Reversed(156, 8) == 57 && Reversed(159, 8) == 249 && Reversed(80, 8) == 10
  {
    hide Reversed, Pow2;
    FiveTurns(19);
    FiveTurns(18);
    FiveTurns(10);
    EightTurns(152, 25);
    EightTurns(149, 169);
    EightTurns(156, 57);
    EightTurns(159, 249);
    EightTurns(80, 10);
  }

  lemma TurnedShort()
    ensures Reversed(11, 7) == 104 && Reversed(0, 7) == 0 && Reversed(4, 5) == 4
  {
    hide Reversed, Pow2;
    FiveTurns(4);
    SevenTurns(11, 104);
    SevenTurns(0, 0);
  }

  lemma SevenTurns(c: nat, v: nat)
    requires c < 32 && v == 64 * (c % 2) + 32 * (c / 2 % 2) + 16 * (c / 2 / 2 % 2) + 8 * (c / 2 / 2 / 2 % 2) + 4 * (c / 2 / 2 / 2 / 2 % 2)
    ensures Reversed(c, 7) == v
  {
    Pow2Values();
    hide Reversed, Pow2;
    FiveTurns(c / 2 / 2);
    OneTurn(c, 7);
    OneTurn(c / 2, 6);
  }

  lemma Letters()
    ensures SentAs(FixedLit(), 104, 25, 8) && SentAs(FixedLit(), 101, 169, 8) && SentAs(FixedLit(), 108, 57, 8)
    ensures SentAs(FixedLit(), 111, 249, 8) && SentAs(FixedLit(), 32, 10, 8)
  {
    hide Reversed, SentAs;
    Turned();
    Letter(104, 25);
    Letter(101, 169);
    Letter(108, 57);
    Letter(111, 249);
    Letter(32, 10);
  }

  lemma Others()
    ensures SentAs(FixedLit(), 267, 104, 7) && SentAs(FixedLit(), 256, 0, 7) && SentAs(FixedDist(), 4, 4, 5)
  {
    hide FixedLit, FixedDist, CodeBits, ToBits, CodeOf, Reversed;
    TurnedShort();
    FixedLitCodes(267);
    FixedLitCodes(256);
    FixedDistCodes(4);
    CodeReversed(11, 7);
    CodeReversed(0, 7);
    CodeReversed(4, 5);
  }

  /** Length 16 is symbol 267 with one extra bit, distance 6 symbol 4 with one extra bit; both bits are 1. */
  lemma TheMatch()
    ensures LenSym(13) == 267 && LenExtra(13) == 1 && DistSym(5) == 4 && DistExtra(5) == 1 && Pow2(1) == 2
  {
  }

  // ---------------------------------------------------------------- the block

  function Hello(): seq<Token>
  {
    [Lit(104), Lit(101), Lit(108), Lit(108), Lit(111), Lit(32), Lit(104), Match(16, 6)]
  }

  lemma EndCode()
    ensures |FixedLit()| == 288 && FixedLit()[256] == 7 && |FixedDist()| == 32 && FixedDist()[4] == 5 && FixedLit()[267] == 7
    ensures HuffBits(FixedLit(), 256) == ToBits(0, 7) && HuffBits(FixedLit(), 267) == ToBits(104, 7) && HuffBits(FixedDist(), 4) == ToBits(4, 5)
  {
    Others();
    FixedLitCodes(256);
    FixedDistCodes(4);
  }

  ghost predicate Sent(ts: seq<Token>, more: seq<bool>, bits: seq<bool>)
  {
    D.AllCodable(FixedLit(), FixedDist(), ts) && bits == D.TokensBits(FixedLit(), FixedDist(), ts) + more
  }

  lemma SentNone(more: seq<bool>)
    ensures Sent([], more, more)
  {
    hide FixedLit, FixedDist;
    assert [] + more == more;
  }

  lemma SentLetter(x: u8, v: nat, ts: seq<Token>, more: seq<bool>, bits: seq<bool>)
    requires Sent(ts, more, bits) && SentAs(FixedLit(), x, v, 8)
    ensures Sent([Lit(x)] + ts, more, ToBits(v, 8) + bits)
  {
    hide FixedLit, FixedDist, ToBits, HuffBits;
    var us, b, c := [Lit(x)] + ts, ToBits(v, 8), D.TokensBits(FixedLit(), FixedDist(), ts);
    assert us[0] == Lit(x) && us[1..] == ts;
    FixedCodable([Lit(x)]);
    assert D.Codable(FixedLit(), FixedDist(), [Lit(x)][0]);
    assert b + (c + more) == b + c + more;
  }

  lemma SentMatch(ts: seq<Token>, more: seq<bool>, bits: seq<bool>)
    requires Sent(ts, more, bits)
    ensures Sent([Match(16, 6)] + ts, more, ToBits(104, 7) + (ToBits(1, 1) + (ToBits(4, 5) + (ToBits(1, 1) + bits))))
  {
    hide FixedLit, FixedDist, ToBits, HuffBits, LenSym, LenExtra, DistSym, DistExtra, Pow2;
    var t, us, c := Match(16, 6), [Match(16, 6)] + ts, D.TokensBits(FixedLit(), FixedDist(), ts);
    assert us[0] == t && us[1..] == ts;
    FixedCodable([t]);
    assert D.Codable(FixedLit(), FixedDist(), [t][0]);
    EndCode();
    TheMatch();
    var a, b, d, e := ToBits(104, 7), ToBits(1, 1), ToBits(4, 5), ToBits(1, 1);
    assert D.TokenBits(FixedLit(), FixedDist(), t) == (a + b) + (d + e);
    FourParts(a, b, d, e, c, more);
  }

  lemma FourParts(a: seq<bool>, b: seq<bool>, d: seq<bool>, e: seq<bool>, c: seq<bool>, more: seq<bool>)
    ensures (a + b) + (d + e) + c + more == a + (b + (d + (e + (c + more))))
  {
  }

  ghost function Rest(): seq<bool>
  {
    ToBits(0, 7) + BytesToBits(HELLO[12..])
  }

  /** The match and the end of the block in the last two bytes of it. */
  lemma MatchBits()
    ensures Left(8, 5, HELLO[10..]) == ToBits(104, 7) + (ToBits(1, 1) + (ToBits(4, 5) + (ToBits(1, 1) + Rest())))
  {
    Pow2Values();
    PowerZero();
    hide ToBits, Left, Pow2;
    assert HELLO[10..] == [39] + HELLO[11..] && HELLO[11..] == [1] + HELLO[12..];
    TakeByte(8, 5, 39, HELLO[11..], 104, 7, 9);
    TakeBits(9, 6, HELLO[11..], 1, 1, 4);
    TakeBits(4, 5, HELLO[11..], 4, 5, 0);
    TakeByte(0, 0, 1, HELLO[12..], 1, 1, 0);
    RestIs();
  }

  lemma RestIs()
    ensures Left(0, 7, HELLO[12..]) == Rest()
  {
  }

  lemma BodySent()
    ensures Sent(Hello(), Rest(), Left(25, 5, HELLO[3..]))
  {
    hide Sent, SentAs, Rest, Left, ToBits;
    MatchBits();
    SentNone(Rest());
    SentMatch([], Rest(), Rest());
    SentLetters();
  }

  /** The seven letters before the match. */
  lemma SentLetters()
    requires Sent([Match(16, 6)] + [], Rest(), Left(8, 5, HELLO[10..]))
    ensures Sent(Hello(), Rest(), Left(25, 5, HELLO[3..]))
  {
    hide Sent, SentAs, Rest, Left, ToBits;
    Letters();
    LastLetters();
    var t4 := LastFour();
    var t3, t2 := [Lit(108)] + t4, [Lit(108)] + ([Lit(108)] + t4);
    NextEight(6, 25, 57, 25);
    SentLetter(108, 57, t4, Rest(), Left(25, 5, HELLO[7..]));
    NextEight(5, 25, 57, 25);
    SentLetter(108, 57, t3, Rest(), Left(25, 5, HELLO[6..]));
    NextEight(4, 9, 169, 25);
    SentLetter(101, 169, t2, Rest(), Left(25, 5, HELLO[5..]));
    NextEight(3, 25, 25, 9);
    SentLetter(104, 25, [Lit(101)] + t2, Rest(), Left(9, 5, HELLO[4..]));
    assert [Lit(104)] + ([Lit(101)] + t2) == Hello();
  }

  function LastFour(): seq<Token>
  {
    [Lit(111), Lit(32), Lit(104), Match(16, 6)]
  }

  lemma LastLetters()
    requires Sent([Match(16, 6)] + [], Rest(), Left(8, 5, HELLO[10..]))
    ensures Sent(LastFour(), Rest(), Left(25, 5, HELLO[7..]))
  {
    hide Sent, SentAs, Rest, Left, ToBits;
    Letters();
    var t7 := [Match(16, 6)] + [];
    var t6, t5 := [Lit(104)] + t7, [Lit(32)] + ([Lit(104)] + t7);
    NextEight(9, 25, 25, 8);
    SentLetter(104, 25, t7, Rest(), Left(8, 5, HELLO[10..]));
    NextEight(8, 10, 10, 25);
    SentLetter(32, 10, t6, Rest(), Left(25, 5, HELLO[9..]));
    NextEight(7, 25, 249, 10);
    SentLetter(111, 249, t5, Rest(), Left(10, 5, HELLO[8..]));
    assert [Lit(111)] + t5 == LastFour();
  }

  // ---------------------------------------------------------------- the whole stream

  const CHECK := 0x680308b1

  lemma BodyIs(c: seq<bool>)
    requires D.AllCodable(FixedLit(), FixedDist(), Hello()) && c == D.TokensBits(FixedLit(), FixedDist(), Hello())
    ensures BlockOk(Fixed(Hello())) && BlockBits(Fixed(Hello()), 17) == ToBits(1, 2) + (c + ToBits(0, 7))
  {
    hide FixedLit, FixedDist, ToBits, D.TokensBits, HuffBits, D.AllCodable;
    EndCode();
  }

  lemma SentIs(more: seq<bool>, bits: seq<bool>) returns (c: seq<bool>)
    requires Sent(Hello(), more, bits)
    ensures D.AllCodable(FixedLit(), FixedDist(), Hello()) && c == D.TokensBits(FixedLit(), FixedDist(), Hello()) && bits == c + more
  {
    c := D.TokensBits(FixedLit(), FixedDist(), Hello());
  }

  lemma Sizes()
    ensures |HELLO| == 16 && |Left(25, 5, HELLO[3..])| == 109 && |Rest()| == 39 && Rest() == ToBits(0, 7) + BytesToBits(HELLO[12..])
  {
    hide ToBits, BytesToBits;
  }

  lemma BlockBitsAre()
    ensures BlockOk(Fixed(Hello())) && |BlockBits(Fixed(Hello()), 17)| == 79
    ensures BlockBits(Fixed(Hello()), 17) + BytesToBits(HELLO[12..]) == ToBits(1, 2) + Left(25, 5, HELLO[3..])
  {
    hide *;
    Sizes();
    BodySent();
    var c := SentIs(Rest(), Left(25, 5, HELLO[3..]));
    BodyIs(c);
    Regrouped(ToBits(1, 2), c, ToBits(0, 7), BytesToBits(HELLO[12..]));
  }

  lemma Regrouped(a: seq<bool>, b: seq<bool>, c: seq<bool>, d: seq<bool>)
    ensures a + (b + c) + d == a + (b + (c + d)) && |a + (b + c)| == |a| + |b + (c + d)| - |d|
  {
  }

  lemma HeadBits()
    ensures ZlibBits(3) == ToBits(120, 8) + ToBits(218, 8)
    ensures BytesToBits(HELLO) == ToBits(120, 8) + (ToBits(218, 8) + (ToBits(1, 1) + (ToBits(1, 2) + Left(25, 5, HELLO[3..]))))
  {
    TwoBytes();
    FirstThree();
    hide *;
    FirstByte();
    BytesCons(120, HELLO[1..]);
    BytesCons(218, HELLO[2..]);
  }

  lemma TwoBytes()
    ensures ZlibBits(3) == ToBits(120, 8) + ToBits(218, 8)
  {
    hide ToBits;
    assert ZlibFlags(3) == 218;
  }

  lemma HeadOff(s: seq<u8>, k: nat)
    requires k < |s|
    ensures s[k..] == [s[k]] + s[k + 1..] && s[0..] == s
  {
  }

  lemma FirstThree()
    ensures HELLO == [120] + HELLO[1..] && HELLO[1..] == [218] + HELLO[2..] && HELLO[2..] == [203] + HELLO[3..]
  {
    HeadOff(HELLO, 0);
    HeadOff(HELLO, 1);
    HeadOff(HELLO, 2);
  }

  lemma FirstByte()
    ensures BytesToBits(HELLO[2..]) == ToBits(1, 1) + (ToBits(1, 2) + Left(25, 5, HELLO[3..]))
  {
    Pow2Values();
    PowerZero();
    hide ToBits, Left, Pow2, BytesToBits;
    FirstThree();
    TakeByte(0, 0, 203, HELLO[3..], 1, 1, 101);
    TakeBits(101, 7, HELLO[3..], 1, 2, 25);
    LeftNone(HELLO[2..]);
  }

  lemma LeftNone(s: seq<u8>)
    ensures Left(0, 0, s) == BytesToBits(s)
  {
    assert ToBits(0, 0) == [];
  }

  lemma TailBitsAre()
    ensures TailBits(Finish, true, 96, CHECK) == BytesToBits(HELLO[12..])
  {
    TailIs();
    CheckBytes();
    assert HELLO[12..] == [104, 3, 8, 177];
  }

  lemma TailIs()
    ensures TailBits(Finish, true, 96, CHECK) == BigEndian(CHECK, 4)
  {
    hide ToBits, BigEndian;
    NoneLeft();
    assert ToByteBoundary(96) == 0;
    assert [] + BigEndian(CHECK, 4) == BigEndian(CHECK, 4);
  }

  lemma CheckBytes()
    ensures BigEndian(CHECK, 4) == BytesToBits([104, 3, 8, 177])
  {
    CheckDigits();
    hide *;
    BigEndianAt(CHECK);
    BytesCons(104, [3, 8, 177]);
    BytesCons(3, [8, 177]);
    BytesCons(8, [177]);
    BytesCons(177, []);
    assert [104] + [3, 8, 177] == [104, 3, 8, 177] && [3] + [8, 177] == [3, 8, 177] && [8] + [177] == [8, 177] && [177] + [] == [177];
    NoBytes();
    assert ToBits(177, 8) + [] == ToBits(177, 8);
  }

  lemma CheckDigits()
    ensures CHECK < 0x1_0000_0000
    ensures CHECK / 0x100_0000 == 104 && CHECK / 0x1_0000 % 256 == 3 && CHECK / 256 % 256 == 8 && CHECK % 256 == 177
  {
  }

  lemma NoneLeft()
    ensures ToBits(0, 0) == []
  {
  }

  lemma HelloBits()
    ensures BlockOk(Fixed(Hello())) && BytesToBits(HELLO) == FlushBits(true, true, 3, Finish, Fixed(Hello()), 0, CHECK)
  {
    hide ToBits, BytesToBits, Left, BlockBits, BlockOk, TailBits, ZlibBits;
    BlockBitsAre();
    HeadBits();
    TailBitsAre();
    var a, b, f, k, t := ToBits(120, 8), ToBits(218, 8), ToBits(1, 1), BlockBits(Fixed(Hello()), 17), BytesToBits(HELLO[12..]);
    assert a + (b + (f + (k + t))) == (a + b) + ((f + k) + t);
  }

  lemma OneLetter(k: nat, ts: seq<Token>)
    requires k < |TEXT| && Expands(TEXT[..k + 1], ts, TEXT)
    ensures Expands(TEXT[..k], [Lit(TEXT[k])] + ts, TEXT)
  {
    var us := [Lit(TEXT[k])] + ts;
    assert us[0] == Lit(TEXT[k]) && us[1..] == ts && TEXT[..k] + [TEXT[k]] == TEXT[..k + 1];
    ExpandsCons(TEXT[..k], us, TEXT);
  }

  lemma LastMatch()
    ensures Expands(TEXT[..7], [Match(16, 6)], TEXT)
  {
    var us := [Match(16, 6)];
    assert MatchAt(TEXT, 7, 16, 6);
    CopyMatch(TEXT, 7, 16, 6);
    assert TEXT[..7 + 16] == TEXT && us[1..] == [];
    hide Copy;
    assert Expands(TEXT, [], TEXT);
    ExpandsCons(TEXT[..7], us, TEXT);
  }

  lemma HelloProduces()
    ensures Expands([], Hello(), TEXT)
  {
    LastMatch();
    hide Expands;
    var t7 := [Match(16, 6)];
    var t6 := [Lit(104)] + t7;
    var t5, t4 := [Lit(32)] + t6, [Lit(111)] + ([Lit(32)] + t6);
    var t3, t2 := [Lit(108)] + t4, [Lit(108)] + ([Lit(108)] + t4);
    OneLetter(6, t7);
    OneLetter(5, t6);
    OneLetter(4, t5);
    OneLetter(3, t4);
    OneLetter(2, t3);
    OneLetter(1, t2);
    OneLetter(0, [Lit(101)] + t2);
    assert TEXT[..0] == [] && [Lit(104)] + ([Lit(101)] + t2) == Hello();
  }

  /** The sums of the bytes from each place on, plain and weighted. */
  const SUMS: seq<nat> := [2224, 2120, 2019, 1911, 1803, 1692, 1660, 1556, 1455, 1347, 1239, 1128, 1096, 992, 891, 783, 675, 564, 532, 428, 327, 219, 111, 0]
  const WEIGHTED: seq<nat> := [26604, 24212, 21990, 19722, 17562, 15453, 14877, 13109, 11493, 9873, 8361, 6918, 6534, 5390, 4380, 3408, 2544, 1767, 1575, 1055, 651, 327, 111, 0]

  lemma SumsNext(k: nat)
    requires k < 23
    ensures SUMS[k] == TEXT[k] + SUMS[k + 1] && WEIGHTED[k] == (23 - k) * TEXT[k] + WEIGHTED[k + 1]
  {
    if k < 12 {
      EarlySums(k);
    } else {
      LateSums(k);
    }
  }

  lemma EarlySums(k: nat)
    requires k < 12
    ensures SUMS[k] == TEXT[k] + SUMS[k + 1] && WEIGHTED[k] == (23 - k) * TEXT[k] + WEIGHTED[k + 1]
  {
  }

  lemma LateSums(k: nat)
    requires 12 <= k < 23
    ensures SUMS[k] == TEXT[k] + SUMS[k + 1] && WEIGHTED[k] == (23 - k) * TEXT[k] + WEIGHTED[k + 1]
  {
  }

  lemma {:induction false} SumsFrom(k: nat)
    requires k <= 23
    ensures A.ByteSum(TEXT[k..]) == SUMS[k] && A.WeightedSum(TEXT[k..]) == WEIGHTED[k]
    decreases 23 - k
  {
    if k < 23 {
      SumsFrom(k + 1);
      SumsNext(k);
      assert TEXT[k..][0] == TEXT[k] && TEXT[k..][1..] == TEXT[k + 1..] && |TEXT[k..]| == 23 - k;
    }
  }

  lemma HelloCheck()
    ensures A.Checksum(TEXT) == CHECK
  {
    hide *;
    A.ChecksumClosed(TEXT);
    assert TEXT[0..] == TEXT;
    SumsFrom(0);
    FirstSums();
  }

  lemma FirstSums()
    ensures |TEXT| == 23 && SUMS[0] == 2224 && WEIGHTED[0] == 26604
    ensures (|TEXT| + WEIGHTED[0]) % 65521 * 65536 + (1 + SUMS[0]) % 65521 == CHECK
  {
  }

  /** The sixteen bytes say the text, to a decoder with any suitable buffer. */
  lemma HelloSays(cfg: Config)
    requires Suits(cfg, true)
    ensures M.Says(cfg, HELLO, TEXT)
  {
    HelloEnds();
    HelloBits();
    HelloProduces();
    HelloCheck();
    NothingDrives(true);
    hide *;
    FlushDrives([], true, true, 3, Finish, Fixed(Hello()), 0, CHECK, [], TEXT);
    assert [] + BytesToBits(HELLO) == BytesToBits(HELLO);
    M.CompressedSays(cfg, true, HELLO, TEXT);
  }

  lemma HelloEnds()
    ensures CHECK < 0x1_0000_0000 && Between(true, true, 0, []) == Start(true) && |HELLO| == 16
    ensures Expands([], Hello(), TEXT) ==> Produces(Fixed(Hello()), [], TEXT)
    ensures AfterFlush(Finish, true, 128, TEXT, CHECK) == Core(Done(CHECK), 128, TEXT, true)
  {
    hide Expands;
  }

  /** And the inflater gives it back. */
  method ReadHello(buf: array<u8>) returns (r: Option<nat>)
    requires buf.Length >= 23
    modifies buf
    ensures r == Some(23) && buf[..23] == TEXT
  {
    TextSize();
    hide *;
    M.FlatSuits(true);
    HelloSays(M.FlatBuffer(true));
    r := M.Decompress(true, HELLO, buf);
  }

  lemma TextSize()
    ensures |TEXT| == 23
  {
  }

  // ---------------------------------------------------------------- a stored block

  const ABC: seq<u8> := [1, 3, 0, 252, 255, 97, 98, 99]

  /** Length and complement, least significant byte first. */
  lemma TwoByteFields(s: seq<u8>)
    ensures BytesToBits([3, 0, 252, 255] + s) == ToBits(3, 16) + ToBits(65532, 16) + BytesToBits(s)
  {
    Pow2Values();
    hide ToBits, BytesToBits, Pow2;
    assert [3, 0, 252, 255] + s == [3] + ([0] + ([252] + ([255] + s)));
    BytesCons(255, s);
    BytesCons(252, [255] + s);
    BytesCons(0, [252] + ([255] + s));
    BytesCons(3, [0] + ([252] + ([255] + s)));
    ToBitsJoin(3, 8, 0, 8);
    ToBitsJoin(252, 8, 255, 8);
    Fours(ToBits(3, 8), ToBits(0, 8), ToBits(252, 8), ToBits(255, 8), BytesToBits(s));
  }

  lemma Fours(a: seq<bool>, b: seq<bool>, c: seq<bool>, d: seq<bool>, e: seq<bool>)
    ensures a + (b + (c + (d + e))) == (a + b) + (c + d) + e
  {
  }

  lemma StoredBitsAre()
    ensures BlockOk(Stored([97, 98, 99]))
    ensures BytesToBits(ABC) == FlushBits(true, false, 0, Finish, Stored([97, 98, 99]), 0, 1)
  {
    Opening();
    hide ToBits, BytesToBits, BlockBits, TailBits;
    R.RawBits(1, [97, 98, 99]);
    TwoByteFields([97, 98, 99]);
    assert ABC == [1] + ([3, 0, 252, 255] + [97, 98, 99]);
    BytesCons(1, [3, 0, 252, 255] + [97, 98, 99]);
    var f, k, z, d := ToBits(1, 1), ToBits(0, 2), ToBits(0, 5), BytesToBits([3, 0, 252, 255] + [97, 98, 99]);
    assert ToByteBoundary(3) == 5;
    assert BlockBits(Stored([97, 98, 99]), 1) == k + (z + d);
    NoTail();
    assert [] + ((f + (k + (z + d))) + []) == f + k + z + d;
  }

  lemma Opening()
    ensures ToBits(1, 8) == ToBits(1, 1) + ToBits(0, 2) + ToBits(0, 5)
  {
    Pow2Values();
    hide ToBits, Pow2;
    ToBitsJoin(1, 1, 0, 2);
    ToBitsJoin(1, 3, 0, 5);
  }

  lemma NoTail()
    ensures TailBits(Finish, false, 64, 1) == []
  {
    assert ToByteBoundary(64) == 0 && ToBits(0, 0) == [];
  }

  /** The eight bytes say "abc". */
  lemma AbcSays(cfg: Config)
    requires Suits(cfg, false)
    ensures M.Says(cfg, ABC, [97, 98, 99])
  {
    StoredBitsAre();
    AbcEnds();
    NothingDrives(false);
    hide *;
    FlushDrives([], true, false, 0, Finish, Stored([97, 98, 99]), 0, 1, [], [97, 98, 99]);
    assert [] + BytesToBits(ABC) == BytesToBits(ABC);
    M.CompressedSays(cfg, false, ABC, [97, 98, 99]);
  }

  lemma AbcEnds()
    ensures Between(true, false, 0, []) == Start(false) && |ABC| == 8
    ensures Produces(Stored([97, 98, 99]), [], [97, 98, 99])
    ensures AfterFlush(Finish, false, 64, [97, 98, 99], 1) == Core(Done(1), 64, [97, 98, 99], true)
  {
  }
}
