/**
 The three kinds of DEFLATE block (section 3.2.3 of RFC 1951): the bits of a block and the bytes it
 stands for, and the theorem that the inflating machine turns the one into the other.
 */
module BlockSpec {
  import opened Bits
  import opened Canonical
  import opened LzTokens
  import opened CodeLengthRle
  import opened InflateSpec
  import opened DeflateBits
  import T = TokenBuffers

  datatype Block =
    | Stored(data: seq<u8>)
    | Fixed(tokens: seq<Token>)
    | Dynamic(n0: nat, n1: nat, n2: nat, cl: seq<nat>, items: seq<Item>, tokens: seq<Token>)

  function Kind(b: Block): nat
  {
    match b
    case Stored(_) => 0
    case Fixed(_) => 1
    case Dynamic(_, _, _, _, _, _) => 2
  }

  ghost predicate BlockOk(b: Block)
  {
    match b
    case Stored(data) => |data| < 0x1_0000
    case Fixed(ts) => AllCodable(FixedLit(), FixedDist(), ts) && HasCode(FixedLit(), 256)
    case Dynamic(n0, n1, n2, cl, items, ts) =>
      && DynamicHeaderOk(n0, n1, n2, cl, items)
      && AllCodable(Expand(items)[..n0], Expand(items)[n0..], ts) && HasCode(Expand(items)[..n0], 256)
  }

  /** What follows the block type; `pos` is the bit position there. */
  ghost function ContentBits(b: Block, pos: nat): seq<bool>
    requires BlockOk(b)
  {
    match b
    case Stored(data) => StoredBits(pos, data)
    case Fixed(ts) => BodyBits(FixedLit(), FixedDist(), ts)
    case Dynamic(n0, n1, n2, cl, items, ts) =>
      DynamicBits(n0, n1, n2, cl, items) + BodyBits(Expand(items)[..n0], Expand(items)[n0..], ts)
  }

  /** A block without its final bit; `pos` is the bit position of the block type. */
  ghost function BlockBits(b: Block, pos: nat): seq<bool>
    requires BlockOk(b)
  {
    ToBits(Kind(b), 2) + ContentBits(b, pos + 2)
  }

  /** The bits of a compressed block before its tokens. */
  ghost function OpeningBits(b: Block): seq<bool>
    requires BlockOk(b) && !b.Stored?
  {
    match b
    case Fixed(_) => ToBits(1, 2)
    case Dynamic(n0, n1, n2, cl, items, _) => ToBits(2, 2) + DynamicBits(n0, n1, n2, cl, items)
  }

  /** The block takes the output from `from` to `to`. */
  ghost predicate Produces(b: Block, from: seq<u8>, to: seq<u8>)
  {
    match b
    case Stored(data) => to == from + data
    case Fixed(ts) => Expands(from, ts, to)
    case Dynamic(_, _, _, _, _, ts) => Expands(from, ts, to)
  }

  function AfterKind(b: Block): Loc
  {
    match b
    case Stored(_) => RawAlign
    case Fixed(_) => Symbol(FixedLit(), FixedDist())
    case Dynamic(_, _, _, _, _, _) => TableSizes([])
  }

  lemma ContentDecodes(cfg: Config, c: Core, b: Block, to: seq<u8>, rest: seq<bool>)
    requires BlockOk(b) && Produces(b, c.out, to) && c.loc == AfterKind(b)
    ensures var bits := ContentBits(b, c.pos);
      Reaches(cfg, State(c, bits + rest), State(AfterBlock(c).(out := to, pos := c.pos + |bits|), rest))
  {
    hide Reaches, BodyBits, DynamicBits, StoredBits, FixedLit, FixedDist, DynamicHeaderOk, Expands, AllCodable, HasCode, Expand, Kraft, TableOk;
    match b
    case Stored(data) => StoredDecodes(cfg, c, data, rest);
    case Fixed(ts) =>
      FixedKraft();
      BodyDecodes(cfg, c, FixedLit(), FixedDist(), ts, to, rest);
    case Dynamic(n0, n1, n2, cl, items, ts) =>
      DynamicTables(n0, n1, n2, cl, items);
      HeaderBounds(n0, n1, n2, cl, items);
      var h, lens := DynamicBits(n0, n1, n2, cl, items), Expand(items);
      var d := BodyBits(lens[..n0], lens[n0..], ts);
      var c1 := At(c, Symbol(lens[..n0], lens[n0..]), |h|);
      DynamicDecodes(cfg, c, n0, n1, n2, cl, items, d + rest);
      BodyDecodes(cfg, c1, lens[..n0], lens[n0..], ts, to, rest);
      assert h + d + rest == h + (d + rest);
      ReachesTrans(cfg, State(c, h + (d + rest)), State(c1, d + rest), State(AfterBlock(c).(out := to, pos := c.pos + |h + d|), rest));
  }

  lemma FixedKraft()
    ensures Kraft(FixedLit(), 15) && Kraft(FixedDist(), 15)
  {
    hide FixedLit, FixedDist;
    FixedComplete();
  }

  lemma DynamicTables(n0: nat, n1: nat, n2: nat, cl: seq<nat>, items: seq<Item>)
    requires DynamicHeaderOk(n0, n1, n2, cl, items)
    ensures n0 <= |Expand(items)| && Kraft(Expand(items)[..n0], 15) && Kraft(Expand(items)[n0..], 15)
  {
    TableOkKraft(Expand(items)[..n0]);
    TableOkKraft(Expand(items)[n0..]);
  }

  /** A block of any kind, read from its final bit on, appends exactly what it stands for. */
  lemma BlockDecodes(cfg: Config, c: Core, final: bool, b: Block, to: seq<u8>, rest: seq<bool>)
    requires c.loc == Header && BlockOk(b) && Produces(b, c.out, to)
    ensures var bits := ToBits(BitValue(final), 1) + BlockBits(b, c.pos + 1);
      Reaches(cfg, State(c, bits + rest), State(AfterBlock(c.(final := final)).(out := to, pos := c.pos + |bits|), rest))
  {
    hide Reaches, ContentBits, FixedLit, FixedDist, Produces, BlockOk, ToBits, Step;
    var f, k, d := ToBits(BitValue(final), 1), ToBits(Kind(b), 2), ContentBits(b, c.pos + 3);
    var c1 := c.(final := final, pos := c.pos + 3, loc := AfterKind(b));
    assert HeaderBits(final, Kind(b)) == f + k;
    HeaderDecodes(cfg, c, final, Kind(b), d + rest);
    ContentDecodes(cfg, c1, b, to, rest);
    assert f + (k + d) + rest == f + k + (d + rest);
    ReachesTrans(cfg, State(c, f + k + (d + rest)), State(c1, d + rest),
                 State(AfterBlock(c.(final := final)).(out := to, pos := c.pos + |f + (k + d)|), rest));
  }

  /** The fixed tables have a code for every token. */
  lemma FixedCodable(ts: seq<Token>)
    requires AllOk(ts)
    ensures AllCodable(FixedLit(), FixedDist(), ts) && HasCode(FixedLit(), 256)
  {
    forall k | 0 <= k < |ts|
      ensures Codable(FixedLit(), FixedDist(), ts[k])
    {
      if ts[k].Match? {
        T.SymsInRange(ts[k].len, ts[k].dist);
      }
    }
  }
}
