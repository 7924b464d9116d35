/**
 Why the static fallback always fits (miniz.h, `TDEFL_OUT_BUF_SIZE`): with the fixed codes no token
 costs more than 31 bits for its 25 bits in the token buffer, and the output buffer is 13/10 of the
 token buffer.
 */
module StaticCost {
  import opened Canonical
  import opened LzTokens
  import opened InflateSpec
  import opened DeflateBits
  import opened BlockSpec
  import T = TokenBuffers

  const OUT_BUF_SIZE := T.LZ_CODE_BUF_SIZE * 13 / 10

  lemma FixedLengths(s: nat)
    requires s < 288
    ensures |FixedLit()| == 288 && 1 <= FixedLit()[s] <= 9 && (257 <= s ==> FixedLit()[s] <= 8)
    ensures |FixedDist()| == 32 && (s < 32 ==> FixedDist()[s] == 5)
  {
  }

  lemma ExtraBounds(len: nat, dist: nat)
    requires Match(len, dist).Ok()
    ensures LenExtra(len - MIN_MATCH_LEN) <= 5 && DistExtra(dist - 1) <= 13
  {
  }

  lemma TokenCost(t: Token)
    requires Codable(FixedLit(), FixedDist(), t)
    ensures |TokenBits(FixedLit(), FixedDist(), t)| <= if t.Match? then 31 else 9
  {
    hide FixedLit, FixedDist, LenExtra, DistExtra, LenSym, DistSym, HuffBits;
    match t
    case Lit(b) =>
      HuffBitsLength(FixedLit(), b);
      FixedLengths(b);
    case Match(len, d) =>
      T.SymsInRange(len, d);
      ExtraBounds(len, d);
      HuffBitsLength(FixedLit(), LenSym(len - MIN_MATCH_LEN));
      HuffBitsLength(FixedDist(), DistSym(d - 1));
      FixedLengths(LenSym(len - MIN_MATCH_LEN));
      FixedLengths(DistSym(d - 1));
  }

  lemma HuffBitsLength(lens: seq<nat>, i: nat)
    requires HasCode(lens, i)
    ensures |HuffBits(lens, i)| == lens[i]
  {
  }

  lemma {:induction false} TokensCost(ts: seq<Token>)
    requires AllCodable(FixedLit(), FixedDist(), ts)
    ensures |TokensBits(FixedLit(), FixedDist(), ts)| <= 9 * |ts| + 22 * Matches(ts)
  {
    hide FixedLit, FixedDist, TokenBits, Codable;
    if ts != [] {
      TokensCost(ts[1..]);
      TokenCost(ts[0]);
      assert ts == [ts[0]] + ts[1..];
      MatchesConcat([ts[0]], ts[1..]);
      OneMatch(ts[0]);
    }
  }

  lemma OneMatch(t: Token)
    ensures Matches([t]) == if t.Match? then 1 else 0
  {
  }

  /** A static block takes at most 31/25 of the bits its tokens take in the buffer, whatever the tokens. */
  lemma StaticFits(ts: seq<Token>)
    requires AllOk(ts) && |Encoded(ts)| <= T.LZ_CODE_BUF_SIZE
    ensures BlockOk(Fixed(ts)) && 25 * |BlockBits(Fixed(ts), 0)| <= 31 * 8 * |Encoded(ts)| + 275
    ensures |BlockBits(Fixed(ts), 0)| < 8 * 81300
    ensures |ts| < 58255
  {
    hide FixedLit, FixedDist, TokensBits, HuffBits, Encoded;
    FixedCodable(ts);
    TokensCost(ts);
    EncodedSize(ts);
    HuffBitsLength(FixedLit(), 256);
    FixedLengths(256);
  }
}
