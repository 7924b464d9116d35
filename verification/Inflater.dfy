/**
 The inflater (miniz.c, `tinfl_decompress`): a coroutine that can stop at every point where it needs
 input or output room. Each control point is a method that makes the machine's step there; what lies
 between two stops is the loop that dispatches on the point.
 */
module Inflaters {
  import opened Bits
  import opened Canonical
  import opened BitSources
  import opened Outputs
  import opened Modulo
  import opened HuffReader
  import opened DecodeTables
  import opened InflateRun
  import opened InflateSlips
  import opened InflateSteps
  import opened InflateSpec
  import opened LzTokens
  import opened CodeLengthRle
  import D = DeflateBits
  import DecodeTree
  import A = Adler

  datatype Point =
    | PZHeader0 | PZHeader1 | PHeader
    | PRawAlign | PRawHeader | PRawCopy | PRawByte
    | PTableSizes | PClLens | PLenCodes | PLenRun
    | PSymbol | PEmit | PLengthBits | PDistSymbol | PDistBits | PCopying
    | PEndAlign | PTrailer | PDone | PFailed

  /** The status of a call: `TINFL_STATUS_DONE` and so on. */
  datatype Status = Finished | BadChecksum | Rejected | NeedsMoreInput | CannotProgress | HasMoreOutput

  /** How a step ends. */
  datatype Outcome = Go | NeedInput | NeedRoom | Stop

  class Inflater {
    const cfg: Config
    const src: BitSource
    const dst: Output
    const litTable: DecodeTable
    const distTable: DecodeTable
    const clTable: DecodeTable
    const litSizes: array<nat>
    const distSizes: array<nat>
    const clSizes: array<nat>
    const lenCodes: array<nat>
    const tableSizes: array<nat>
    const rawHeader: array<nat>
    var point: Point
    var counter: nat
    var dist: nat
    var numExtra: nat
    var distFrom: nat
    var zhdr0: nat
    var zAdler: nat
    var final: bool
    /** Stopped inside `TINFL_HUFF_BITBUF_FILL`, about to take a byte. */
    var filling: bool
    var checkAdler: u32
    /** The output the checksum covers: that of the calls that did not end with an error status. */
    ghost var summed: seq<u8>
    /** The machine's control point, and whether the code has gone on where the machine has no step. */
    ghost var loc: Loc
    ghost var broken: bool

    ghost predicate Shape()
    {
      && dst.wraps == cfg.wraps && (cfg.wraps ==> cfg.window == dst.buf.Length)
      && litTable.Shape() && distTable.Shape() && clTable.Shape()
      && litTable.tree.Length == 576 && distTable.tree.Length == 64 && clTable.tree.Length == 38
      && litSizes.Length == 288 && distSizes.Length == 32 && clSizes.Length == 19
      && lenCodes.Length == 457 && tableSizes.Length == 3 && rawHeader.Length == 4
      && litTable != distTable && litTable != clTable && distTable != clTable
      && litTable.lookup != distTable.lookup && litTable.lookup != clTable.lookup && distTable.lookup != clTable.lookup
    }

    constructor (cfg: Config, src: BitSource, dst: Output, litTable: DecodeTable, distTable: DecodeTable, clTable: DecodeTable)
      requires dst.wraps == cfg.wraps && (cfg.wraps ==> cfg.window == dst.buf.Length)
      requires litTable.Shape() && distTable.Shape() && clTable.Shape()
      requires litTable.tree.Length == 576 && distTable.tree.Length == 64 && clTable.tree.Length == 38
      requires litTable != distTable && litTable != clTable && distTable != clTable
      requires litTable.lookup != distTable.lookup && litTable.lookup != clTable.lookup && distTable.lookup != clTable.lookup
      ensures Shape() && this.cfg == cfg && this.src == src && this.dst == dst
      ensures fresh(litSizes) && fresh(distSizes) && fresh(clSizes) && fresh(lenCodes) && fresh(tableSizes) && fresh(rawHeader)
      ensures this.litTable == litTable && this.distTable == distTable && this.clTable == clTable
      ensures point == (if cfg.zlib then PZHeader0 else PHeader) && loc == (if cfg.zlib then ZHeader0 else Header)
      ensures zAdler == 1 && !final && !filling && !broken && checkAdler == 1 && summed == []
    {
      this.cfg, this.src, this.dst := cfg, src, dst;
      this.litTable, this.distTable, this.clTable := litTable, distTable, clTable;
      litSizes := new nat[288](_ => 0);
      distSizes := new nat[32](_ => 0);
      clSizes := new nat[19](_ => 0);
      lenCodes := new nat[457](_ => 0);
      tableSizes := new nat[3](_ => 0);
      rawHeader := new nat[4](_ => 0);
      point, loc := if cfg.zlib then PZHeader0 else PHeader, if cfg.zlib then ZHeader0 else Header;
      counter, dist, numExtra, distFrom, zhdr0, zAdler := 0, 0, 0, 0, 0, 1;
      final, filling, broken := false, false, false;
      checkAdler, summed := 1, [];
    }

    // -------------------------------------------------------------- the run so far

    /** What has been taken drives the machine to this control point, with `pending` still to be read. */
    ghost predicate RunWith(pending: seq<bool>)
      reads this`loc, this`final, this`broken, src`taken, dst`written
    {
      RunsTo(cfg, broken, src.taken, loc, dst.written, final, pending)
    }

    /** Bits read, the step not yet made. */
    method Bits(n: nat) returns (ok: bool, v: nat)
      requires src.Valid() && RunWith(src.Pending()) && n <= 48
      modifies src`cur, src`bitBuf, src`numBits, src`taken
      ensures src.Valid() && src.Offered() == old(src.Offered()) && src.inp == old(src.inp) && v < Pow2(n)
      ensures src.Avail() == old(src.Avail()) - (if ok then n else 0)
      ensures RunWith(if ok then ToBits(v, n) + src.Pending() else src.Pending())
      ensures !ok ==> src.cur == |src.inp|
      ensures !ok ==> (Wants(CoreBefore(this, 0)) == Want.Bits(n) ==> Starved(this))
      ensures old(src.numBits) >= n ==> ok
    {
      hide *;
      ghost var p, t := src.Pending(), src.taken;
      ghost var more;
      IsRunWith(this, p);
      ok, v, more := src.GetBits(n);
      TookMore(cfg, broken, t, more, loc, dst.written, final, p);
      IsRunWith(this, if ok then ToBits(v, n) + src.Pending() else src.Pending());
      StarvesBits(this, n);
    }

    /** A whole byte read, as `Bits(8)`. */
    method Byte() returns (ok: bool, v: nat)
      requires src.Valid() && RunWith(src.Pending())
      modifies src`cur, src`bitBuf, src`numBits, src`taken
      ensures src.Valid() && src.Offered() == old(src.Offered()) && src.inp == old(src.inp) && v < 256
      ensures src.Avail() == old(src.Avail()) - (if ok then 8 else 0)
      ensures RunWith(if ok then ToBits(v, 8) + src.Pending() else src.Pending())
      ensures !ok ==> src.cur == |src.inp|
      ensures !ok ==> (Wants(CoreBefore(this, 0)) == Want.Bits(8) ==> Starved(this))
    {
      hide *;
      ghost var p, t := src.Pending(), src.taken;
      ghost var more;
      IsRunWith(this, p);
      ok, v, more := src.GetByte();
      TookMore(cfg, broken, t, more, loc, dst.written, final, p);
      IsRunWith(this, if ok then ToBits(v, 8) + src.Pending() else src.Pending());
      StarvesBits(this, 8);
    }

    // -------------------------------------------------------------- the invariant

    /** Both symbol tables are built, and the machine stands at `l`. */
    ghost predicate Tables(l: Loc)
      reads this`loc, litTable, litTable.lookup, litTable.tree, distTable, distTable.lookup, distTable.tree
    {
      litTable.Valid() && distTable.Valid() && |litTable.lens| <= 288 && |distTable.lens| <= 32 && loc == l
    }

    ghost predicate SizesOk()
      requires Shape()
      reads tableSizes
    {
      257 <= tableSizes[0] <= 288 && 1 <= tableSizes[1] <= 32 && 4 <= tableSizes[2] <= 19
    }

    ghost predicate LenTable()
      requires Shape()
      reads this`counter, clTable, clTable.lookup, clTable.tree, tableSizes, lenCodes
    {
      && SizesOk() && clTable.Valid() && |clTable.lens| == 19 && counter < tableSizes[0] + tableSizes[1]
      && forall k :: 0 <= k < counter ==> lenCodes[k] <= 15
    }

    ghost predicate InTableSizes()
      requires Shape()
      reads this`counter, this`loc, tableSizes
    {
      && counter < 3 && loc == TableSizes(tableSizes[..counter])
      && (counter > 0 ==> 257 <= tableSizes[0] <= 288) && (counter > 1 ==> 1 <= tableSizes[1] <= 32)
    }

    ghost predicate InClLens()
      requires Shape()
      reads this`counter, this`loc, tableSizes, clSizes
    {
      && SizesOk() && counter < tableSizes[2] && (forall k :: 0 <= k < 19 ==> clSizes[k] < 8)
      && loc == ClLens(tableSizes[0], tableSizes[1], tableSizes[2], clSizes[..], counter)
    }

    ghost predicate InLenCodes()
      requires Shape()
      reads this`counter, this`loc, clTable, clTable.lookup, clTable.tree, tableSizes, lenCodes
    {
      LenTable() && loc == LenCodes(tableSizes[0], tableSizes[1], clTable.lens, lenCodes[..counter])
    }

    ghost predicate InLenRun()
      requires Shape()
      reads this`counter, this`dist, this`numExtra, this`loc, clTable, clTable.lookup, clTable.tree, tableSizes, lenCodes
    {
      && LenTable() && 16 <= dist <= 18 && (dist == 16 ==> counter > 0) && numExtra == ExtraBits(dist)
      && loc == LenRun(tableSizes[0], tableSizes[1], clTable.lens, lenCodes[..counter], dist)
    }

    ghost predicate InCopying()
      reads this`counter, this`dist, this`distFrom, this`loc, this`broken, dst`written
      reads litTable, litTable.lookup, litTable.tree, distTable, distTable.lookup, distTable.tree
    {
      && dist <= DICT_SIZE && dst.FromOk(distFrom, dist) && (broken || 1 <= dist <= |dst.written|)
      && Tables(Copying(litTable.lens, distTable.lens, counter, dist))
    }

    /** The control point and the fields that matter there say where the machine is. */
    ghost predicate Tie()
      requires Shape()
      reads this, litTable, litTable.lookup, litTable.tree, distTable, distTable.lookup, distTable.tree
      reads clTable, clTable.lookup, clTable.tree, clSizes, lenCodes, tableSizes, rawHeader, dst`written
    {
      && zAdler < 0x1_0000_0000 && (zAdler == 1 || point.PTrailer? || point.PDone? || point.PFailed?)
      && match point
         case PZHeader0 => loc == ZHeader0
         case PZHeader1 => loc == ZHeader1(zhdr0)
         case PHeader => loc == Header
         case PRawAlign => loc == RawAlign
         case PRawHeader => counter < 4 && loc == RawHeader(rawHeader[..counter])
         case PRawCopy => loc == RawCopy(counter)
         case PRawByte => counter > 0 && dist < 256 && loc == RawByte(counter, dist)
         case PTableSizes => InTableSizes()
         case PClLens => InClLens()
         case PLenCodes => InLenCodes()
         case PLenRun => InLenRun()
         case PSymbol => Tables(Symbol(litTable.lens, distTable.lens))
         case PEmit => counter < 256 && Tables(Emit(litTable.lens, distTable.lens, counter))
         case PLengthBits => numExtra <= 5 && Tables(LengthBits(litTable.lens, distTable.lens, counter, numExtra))
         case PDistSymbol => Tables(DistSymbol(litTable.lens, distTable.lens, counter))
         case PDistBits => numExtra <= 13 && dist + Pow2(numExtra) <= DICT_SIZE + 1
                           && Tables(DistBits(litTable.lens, distTable.lens, counter, dist, numExtra))
         case PCopying => InCopying()
         case PEndAlign => loc == EndAlign
         case PTrailer => counter < 4 && cfg.zlib && loc == Trailer(counter, zAdler)
         case PDone => (cfg.zlib || zAdler == 1) && loc == Done(zAdler)
         case PFailed => loc == Failed
    }

    /** A code of these lengths is being waited for: what is pending does not begin with one. */
    ghost predicate Waits(lens: seq<nat>)
      reads this`filling, src`bitBuf, src`numBits
    {
      filling ==> src.numBits < 15 && !Settled(lens, src.Pending())
    }

    ghost predicate FillsOk()
      reads this`filling, this`point, src`bitBuf, src`numBits, clTable`lens, litTable`lens, distTable`lens
    {
      filling ==> match point
        case PLenCodes => Waits(clTable.lens)
        case PSymbol => Waits(litTable.lens)
        case PDistSymbol => Waits(distTable.lens)
        case _ => false
    }

    ghost predicate Valid()
      reads this, src, dst, dst.buf, litTable, litTable.lookup, litTable.tree, distTable, distTable.lookup, distTable.tree
      reads clTable, clTable.lookup, clTable.tree, clSizes, lenCodes, tableSizes, rawHeader
    {
      && Shape() && src.Valid() && dst.Valid() && RunWith(src.Pending()) && Tie()
      && FillsOk()
    }

    /** On what has been offered one of the guards fails that the code does not have. */
    ghost predicate Doomed()
      reads src`taken, src`inp, src`cur
    {
      Strays(cfg, BytesToBits(src.Offered()))
    }

    // -------------------------------------------------------------- wrapper and block headers

    method StepZHeader0() returns (o: Outcome)
      requires Valid() && point.PZHeader0?
      modifies this`point, this`zhdr0, this`loc, src`cur, src`bitBuf, src`numBits, src`taken
      ensures Valid() && src.Offered() == old(src.Offered()) && src.inp == old(src.inp)
      ensures if o.Go? then src.Avail() < old(src.Avail()) else o.NeedInput? && src.Avail() == old(src.Avail()) && src.cur == |src.inp|
      ensures !o.Go? ==> point == old(point)
      ensures o.NeedInput? ==> Starved(this)
    {
      hide *;
      Pow2Values();
      Enter(this);
      var ok, v := Byte();
      WantsAt(CoreBefore(this, 0));
      o := NeedInput;
      if ok {
        AtZHeader0(cfg, CoreBefore(this, 8), v);
        RunsBits(this, 8, v, ZHeader1(v), final);
        zhdr0, point, loc := v, PZHeader1, ZHeader1(v);
        o := Go;
      }
      BeTied(this);
      IsRunWith(this, src.Pending());
      Leave(this);
    }

    /** The checks on the two header bytes; the window size matters only when the output wraps. */
    method BadHeader(zhdr1: nat) returns (bad: bool)
      requires Shape()
      ensures bad == ZlibHeaderBad(cfg, zhdr0, zhdr1)
    {
      bad := (zhdr0 * 256 + zhdr1) % 31 != 0 || zhdr1 / 32 % 2 == 1 || zhdr0 % 16 != 8;
      if cfg.wraps {
        bad := bad || Pow2(8 + zhdr0 / 16) > 32768 || dst.buf.Length < Pow2(8 + zhdr0 / 16);
      }
    }

    /** The second header byte and the verdict on both. */
    method ReadZHeader1() returns (ok: bool, bad: bool)
      requires Shape() && src.Valid() && RunWith(src.Pending()) && loc == ZHeader1(zhdr0)
      modifies this`loc, src`cur, src`bitBuf, src`numBits, src`taken
      ensures src.Valid() && RunWith(src.Pending()) && src.Offered() == old(src.Offered()) && src.inp == old(src.inp)
      ensures loc == if !ok then old(loc) else if bad then Failed else Header
      ensures if ok then src.Avail() < old(src.Avail()) else src.Avail() == old(src.Avail()) && src.cur == |src.inp|
      ensures !ok ==> Starved(this)
    {
      hide *;
      Pow2Values();
      var zhdr1;
      bad := false;
      ok, zhdr1 := Byte();
      WantsAt(CoreBefore(this, 0));
      if ok {
        bad := BadHeader(zhdr1);
        AtZHeader1(cfg, CoreBefore(this, 8), zhdr0, zhdr1);
        RunsBits(this, 8, zhdr1, if bad then Failed else Header, final);
        loc := if bad then Failed else Header;
        IsRunWith(this, src.Pending());
      }
    }

    method StepZHeader1() returns (o: Outcome)
      requires Valid() && point.PZHeader1?
      modifies this`point, this`loc, src`cur, src`bitBuf, src`numBits, src`taken
      ensures Valid() && src.Offered() == old(src.Offered()) && src.inp == old(src.inp)
      ensures if o.Go? then src.Avail() < old(src.Avail()) else o.NeedInput? && src.Avail() == old(src.Avail()) && src.cur == |src.inp|
      ensures !o.Go? ==> point == old(point)
      ensures o.NeedInput? ==> Starved(this)
    {
      hide *;
      Enter(this);
      var ok, bad := ReadZHeader1();
      o := NeedInput;
      if ok {
        point, o := if bad then PFailed else PHeader, Go;
      }
      BeTied(this);
      Leave(this);
    }

    /** Both symbol tables from their lengths, the distances first. */
    method BuildTables(n0: nat, n1: nat) returns (ok: bool)
      requires Shape() && n0 <= 288 && n1 <= 32 && LensUpTo(litSizes[..n0], 15) && LensUpTo(distSizes[..n1], 15)
      modifies litTable, litTable.lookup, litTable.tree, distTable, distTable.lookup, distTable.tree
      ensures ok <==> TableOk(litSizes[..n0]) && TableOk(distSizes[..n1])
      ensures ok ==> litTable.Valid() && litTable.lens == litSizes[..n0] && distTable.Valid() && distTable.lens == distSizes[..n1]
    {
      hide *;
      ShapeIs(this);
      ok := distTable.Build(distSizes, n1);
      if ok {
        ok := litTable.Build(litSizes, n0);
      }
    }

    /** The fixed tables. */
    method BuildFixed()
      requires Shape()
      modifies litSizes, distSizes, litTable, litTable.lookup, litTable.tree, distTable, distTable.lookup, distTable.tree
      ensures litTable.Valid() && litTable.lens == FixedLit() && distTable.Valid() && distTable.lens == FixedDist()
    {
      hide *;
      ShapeIs(this);
      FillFixed(litSizes, distSizes);
      FixedTablesOk();
      assert litSizes[..288] == litSizes[..] && distSizes[..32] == distSizes[..];
      var ok := BuildTables(288, 32);
    }

    /** The final bit and the block type. */
    method ReadHeader() returns (ok: bool, type_: nat)
      requires src.Valid() && RunWith(src.Pending()) && loc == Header
      modifies this`loc, this`final, src`cur, src`bitBuf, src`numBits, src`taken
      ensures src.Valid() && RunWith(src.Pending()) && src.Offered() == old(src.Offered()) && src.inp == old(src.inp) && type_ < 4
      ensures loc == if !ok then Header else AfterType(type_)
      ensures if ok then src.Avail() < old(src.Avail()) else src.Avail() == old(src.Avail()) && src.cur == |src.inp|
      ensures !ok ==> Starved(this)
    {
      hide *;
      Pow2Values();
      var v;
      ok, v := Bits(3);
      WantsAt(CoreBefore(this, 0));
      type_ := v / 2;
      if ok {
        AtHeader(cfg, CoreBefore(this, 3), v);
        AfterTypeIs(type_);
        RunsBits(this, 3, v, AfterType(type_), v % 2 == 1);
        final, loc := v % 2 == 1, AfterType(type_);
        IsRunWith(this, src.Pending());
      }
    }

    method StepHeader() returns (o: Outcome)
      requires Valid() && point.PHeader?
      modifies this`point, this`loc, this`final, this`counter, src`cur, src`bitBuf, src`numBits, src`taken
      modifies litSizes, distSizes, litTable, litTable.lookup, litTable.tree, distTable, distTable.lookup, distTable.tree
      ensures Valid() && src.Offered() == old(src.Offered()) && src.inp == old(src.inp)
      ensures if o.Go? then src.Avail() < old(src.Avail()) else o.NeedInput? && src.Avail() == old(src.Avail()) && src.cur == |src.inp|
      ensures !o.Go? ==> point == old(point)
      ensures o.NeedInput? ==> Starved(this)
    {
      hide *;
      Enter(this);
      var ok, type_ := ReadHeader();
      o := NeedInput;
      if ok {
        StartBlock(type_);
        o := Go;
      } else {
        BeTied(this);
      }
      Leave(this);
    }

    /** What the block type sets up. */
    method StartBlock(type_: nat)
      requires Shape() && type_ < 4 && zAdler == 1
      requires loc == AfterType(type_)
      modifies this`point, this`counter, litSizes, distSizes, litTable, litTable.lookup, litTable.tree, distTable, distTable.lookup, distTable.tree
      ensures Tie() && !point.PLenCodes? && !point.PDistSymbol?
    {
      hide *;
      AfterTypeIs(type_);
      if type_ == 0 {
        point := PRawAlign;
      } else if type_ == 3 {
        point := PFailed;
      } else if type_ == 1 {
        BuildFixed();
        FixedTables(this);
        point := PSymbol;
      } else {
        counter := 0;
        point := PTableSizes;
        NoSizesYet(this);
      }
      BeTied(this);
    }

    // -------------------------------------------------------------- stored blocks

    /** `TINFL_SKIP_BITS(state, num_bits & 7)`: on to the byte boundary. */
    method SkipToByte() returns (ghost n: nat, ghost v: nat)
      requires src.Valid() && RunWith(src.Pending())
      modifies src`cur, src`bitBuf, src`numBits, src`taken
      ensures src.Valid() && src.Offered() == old(src.Offered()) && src.inp == old(src.inp) && v < Pow2(n)
      ensures RunWith(ToBits(v, n) + src.Pending())
      ensures ToByteBoundary(CoreBefore(this, n).pos) == n && src.Avail() <= old(src.Avail())
    {
      hide *;
      var skip := src.numBits % 8;
      ghost var avail := src.Avail();
      AvailIs(src);
      var ok, x := Bits(skip);
      n, v := skip, x;
      RunLength(this, ToBits(v, n) + src.Pending());
      AlignedAfter(this, n, avail);
    }

    /** Alignment before a stored block. */
    method ReadRawAlign()
      requires src.Valid() && RunWith(src.Pending()) && loc == RawAlign
      modifies this`loc, src`cur, src`bitBuf, src`numBits, src`taken
      ensures src.Valid() && RunWith(src.Pending()) && src.Offered() == old(src.Offered()) && src.inp == old(src.inp)
      ensures loc == RawHeader([]) && src.Avail() <= old(src.Avail())
    {
      hide *;
      ghost var n, v := SkipToByte();
      AtRawAlign(cfg, CoreBefore(this, n), v);
      RunsBits(this, n, v, RawHeader([]), final);
      loc := RawHeader([]);
      IsRunWith(this, src.Pending());
    }

    method StepRawAlign() returns (o: Outcome)
      requires Valid() && point.PRawAlign?
      modifies this`point, this`counter, this`loc, src`cur, src`bitBuf, src`numBits, src`taken
      ensures Valid() && src.Offered() == old(src.Offered()) && src.inp == old(src.inp)
      ensures o.Go? && src.Avail() <= old(src.Avail()) && point.PRawHeader?
    {
      hide *;
      Enter(this);
      ShapeIs(this);
      ReadRawAlign();
      counter, point, o := 0, PRawHeader, Go;
      NoRaw(rawHeader);
      BeTied(this);
      Leave(this);
    }

    method StepRawHeader() returns (o: Outcome)
      requires Valid() && point.PRawHeader?
      modifies this`point, this`counter, this`loc, rawHeader, src`cur, src`bitBuf, src`numBits, src`taken
      ensures Valid() && src.Offered() == old(src.Offered()) && src.inp == old(src.inp)
      ensures if o.Go? then src.Avail() < old(src.Avail()) else o.NeedInput? && src.Avail() == old(src.Avail()) && src.cur == |src.inp|
      ensures !o.Go? ==> point == old(point)
      ensures o.NeedInput? ==> Starved(this)
    {
      hide *;
      Enter(this);
      ShapeIs(this);
      ghost var bytes := rawHeader[..counter];
      var ok, v := ReadRawByte();
      o := NeedInput;
      if ok {
        StoreRaw(bytes, v);
        o := Go;
      } else {
        BeTied(this);
      }
      Leave(this);
    }

    /** The byte goes into the header; after the fourth the length is checked against its complement. */
    method StoreRaw(ghost bytes: seq<nat>, v: nat)
      requires Shape() && point.PRawHeader? && zAdler == 1 && counter < 4 && rawHeader[..counter] == bytes
      requires loc == if |bytes| < 3 then RawHeader(bytes + [v])
                      else if bytes[0] + 256 * bytes[1] != 65535 - (bytes[2] + 256 * v) then Failed else RawCopy(bytes[0] + 256 * bytes[1])
      modifies this`point, this`counter, rawHeader
      ensures Tie() && (point.PRawHeader? || point.PFailed? || point.PRawCopy?)
    {
      hide *;
      ShapeIs(this);
      rawHeader[counter] := v;
      counter := counter + 1;
      assert rawHeader[..counter] == bytes + [v];
      if counter == 4 {
        AllFour(rawHeader, bytes, v);
        counter := rawHeader[0] + 256 * rawHeader[1];
        var check: int := rawHeader[2] + 256 * rawHeader[3];
        point := if counter != 65535 - check then PFailed else PRawCopy;
      }
      BeTied(this);
    }

    /** A byte of the stored block's header. */
    method ReadRawByte() returns (ok: bool, v: nat)
      requires src.Valid() && RunWith(src.Pending()) && loc.RawHeader? && |loc.bytes| < 4
      modifies this`loc, src`cur, src`bitBuf, src`numBits, src`taken
      ensures src.Valid() && RunWith(src.Pending()) && src.Offered() == old(src.Offered()) && src.inp == old(src.inp)
      ensures var bytes := old(loc).bytes;
        loc == if !ok then old(loc) else if |bytes| < 3 then RawHeader(bytes + [v])
               else if bytes[0] + 256 * bytes[1] != 65535 - (bytes[2] + 256 * v) then Failed else RawCopy(bytes[0] + 256 * bytes[1])
      ensures if ok then src.Avail() < old(src.Avail()) else src.Avail() == old(src.Avail()) && src.cur == |src.inp|
      ensures !ok ==> Starved(this)
    {
      hide *;
      Pow2Values();
      ok, v := Byte();
      WantsAt(CoreBefore(this, 0));
      if ok {
        ghost var bytes := loc.bytes;
        ghost var next := if |bytes| < 3 then RawHeader(bytes + [v])
               else if bytes[0] + 256 * bytes[1] != 65535 - (bytes[2] + 256 * v) then Failed else RawCopy(bytes[0] + 256 * bytes[1]);
        AtRawHeader(cfg, CoreBefore(this, 8), bytes, v);
        RunsBits(this, 8, v, next, final);
        loc := next;
        IsRunWith(this, src.Pending());
      }
    }

    /** The end of a block: the next one, or the end of the stream. */
    method EndBlock()
      requires RunWith(src.Pending())
      requires RunsTo(cfg, broken, src.taken, if final then EndAlign else Header, dst.written, final, src.Pending())
      modifies this`point, this`loc
      ensures RunWith(src.Pending()) && (if final then point.PEndAlign? && loc == EndAlign else point.PHeader? && loc == Header)
    {
      hide *;
      point, loc := if final then PEndAlign else PHeader, if final then EndAlign else Header;
      IsRunWith(this, src.Pending());
    }

    method StepRawCopy() returns (o: Outcome)
      requires Valid() && point.PRawCopy?
      modifies this`point, this`counter, this`dist, this`loc, src`cur, src`bitBuf, src`numBits, src`taken, dst`cur, dst`written, dst.buf
      ensures Valid() && src.Offered() == old(src.Offered()) && src.inp == old(src.inp)
      ensures o.Go? ==> Left() < old(Left()) || (Left() == old(Left()) && (point.PHeader? || point.PEndAlign?))
      ensures !o.Go? ==> Left() == old(Left()) && ((o.NeedInput? && src.cur == |src.inp|) || (o.NeedRoom? && dst.cur == dst.end))
      ensures !o.Go? ==> point == old(point)
      ensures o.NeedInput? ==> Starved(this)
      ensures o.NeedRoom? ==> Pressed(loc)
    {
      hide *;
      Enter(this);
      LeftIs(this);
      OutIs(dst);
      SrcIs(src);
      ghost var left := Left();
      if counter == 0 {
        AtRawCopy(cfg, CoreBefore(this, 0), counter, 0);
        AfterBlockIs(CoreBefore(this, 0));
        RunsFreely(this, if final then EndAlign else Header, dst.written);
        EndBlock();
        o := Go;
      } else if src.numBits > 0 {
        o := RawFromBits();
      } else if dst.cur >= dst.end {
        PressedIs(loc);
        o := NeedRoom;
      } else if src.cur >= |src.inp| {
        WantsAt(CoreBefore(this, 0));
        StarvesBits(this, 8);
        o := NeedInput;
      } else {
        CopyRaw();
        o := Go;
      }
      BeTied(this);
      Leave(this);
      LeftIs(this);
    }

    /** A byte of the stored data out of the bit buffer. */
    method RawFromBits() returns (o: Outcome)
      requires src.Valid() && RunWith(src.Pending()) && loc == RawCopy(counter) && counter > 0 && point.PRawCopy?
      modifies this`point, this`dist, this`loc, src`cur, src`bitBuf, src`numBits, src`taken
      ensures src.Valid() && RunWith(src.Pending()) && src.Offered() == old(src.Offered()) && src.inp == old(src.inp)
      ensures if o.Go? then dist < 256 && loc == RawByte(counter, dist) && point.PRawByte? && src.Avail() < old(src.Avail())
              else o.NeedInput? && loc == RawCopy(counter) && point.PRawCopy? && src.Avail() == old(src.Avail()) && src.cur == |src.inp|
      ensures o.NeedInput? ==> Starved(this)
    {
      hide *;
      Pow2Values();
      var ok, v := Bits(8);
      WantsAt(CoreBefore(this, 0));
      o := NeedInput;
      if ok {
        AtRawCopy(cfg, CoreBefore(this, 8), counter, v);
        RunsBits(this, 8, v, RawByte(counter, v), final);
        dist, point, loc := v, PRawByte, RawByte(counter, v);
        IsRunWith(this, src.Pending());
        o := Go;
      }
    }

    /** Stored bytes straight from the input, as many as both buffers allow. */
    method CopyRaw()
      requires src.Valid() && dst.Valid() && RunWith(src.Pending()) && loc == RawCopy(counter) && counter > 0
      requires src.numBits == 0 && src.cur < |src.inp| && dst.cur < dst.end
      modifies this`counter, this`loc, src`cur, src`taken, dst`cur, dst`written, dst.buf
      ensures src.Valid() && dst.Valid() && RunWith(src.Pending()) && src.Offered() == old(src.Offered()) && src.inp == old(src.inp)
      ensures loc == RawCopy(counter) && counter < old(counter) && src.numBits == 0 && dst.end == old(dst.end)
      ensures src.Avail() < old(src.Avail()) && dst.cur > old(dst.cur)
    {
      hide *;
      OutIs(dst);
      var n := Least(Least(dst.end - dst.cur, |src.inp| - src.cur), counter);
      ghost var c0, i0, o0, a0 := counter, src.cur, dst.cur, src.Avail();
      for k := 0 to n
        invariant src.Valid() && dst.Valid() && RunWith(src.Pending()) && src.Offered() == old(src.Offered()) && src.inp == old(src.inp)
        invariant loc == RawCopy(counter) && counter == c0 - k && src.numBits == 0 && dst.end == old(dst.end)
        invariant src.cur == i0 + k && dst.cur == o0 + k && src.Avail() == a0 - 8 * k
      {
        CopyRawByte();
      }
    }

    method CopyRawByte()
      requires src.Valid() && dst.Valid() && RunWith(src.Pending()) && loc == RawCopy(counter) && counter > 0
      requires src.numBits == 0 && src.cur < |src.inp| && dst.cur < dst.end
      modifies this`counter, this`loc, src`cur, src`taken, dst`cur, dst`written, dst.buf
      ensures src.Valid() && dst.Valid() && RunWith(src.Pending()) && src.Offered() == old(src.Offered())
      ensures loc == RawCopy(counter) && counter == old(counter) - 1 && src.numBits == 0
      ensures src.cur == old(src.cur) + 1 && dst.cur == old(dst.cur) + 1 && src.Avail() == old(src.Avail()) - 8
    {
      hide *;
      Pow2Values();
      ghost var t, p := src.taken, src.Pending();
      IsRunWith(this, p);
      var b := src.TakeByte();
      TookMore(cfg, broken, t, [b], loc, dst.written, final, p);
      ByteAlone(b, src.Pending());
      IsRunWith(this, ToBits(b, 8) + src.Pending());
      AtRawCopy(cfg, CoreBefore(this, 8), counter, b);
      RunsBits(this, 8, b, RawByte(counter, b), final);
      loc := RawByte(counter, b);
      IsRunWith(this, src.Pending());
      PutRaw(b);
    }

    /** The byte in hand is output. */
    method PutRaw(b: u8)
      requires dst.Valid() && dst.cur < dst.end && src.Valid() && RunWith(src.Pending()) && loc == RawByte(counter, b) && counter > 0
      modifies this`counter, this`loc, dst`cur, dst`written, dst.buf
      ensures dst.Valid() && dst.cur == old(dst.cur) + 1 && RunWith(src.Pending())
      ensures counter == old(counter) - 1 && loc == RawCopy(counter)
    {
      hide *;
      AtRawByte(cfg, CoreBefore(this, 0), counter, b);
      RunsFreely(this, RawCopy(counter - 1), dst.written + [b]);
      dst.Put(b);
      counter, loc := counter - 1, RawCopy(counter - 1);
      IsRunWith(this, src.Pending());
    }

    method StepRawByte() returns (o: Outcome)
      requires Valid() && point.PRawByte?
      modifies this`point, this`counter, this`loc, dst`cur, dst`written, dst.buf
      ensures Valid()
      ensures if o.Go? then Left() < old(Left()) else o.NeedRoom? && Left() == old(Left()) && dst.cur == dst.end
      ensures !o.Go? ==> point == old(point)
      ensures o.NeedRoom? ==> Pressed(loc)
    {
      hide *;
      Enter(this);
      LeftIs(this);
      OutIs(dst);
      PressedIs(loc);
      o := NeedRoom;
      if dst.cur < dst.end {
        PutRaw(dist);
        point := PRawCopy;
        o := Go;
      }
      BeTied(this);
      Leave(this);
      LeftIs(this);
    }

    // -------------------------------------------------------------- dynamic headers

    /** One of the three counts of the header. */
    method ReadTableSize(n: nat) returns (ok: bool, v: nat)
      requires src.Valid() && RunWith(src.Pending()) && loc.TableSizes? && |loc.sizes| <= 2 && n == TableSizeBits(|loc.sizes|)
      modifies this`loc, src`cur, src`bitBuf, src`numBits, src`taken
      ensures src.Valid() && RunWith(src.Pending()) && src.Offered() == old(src.Offered()) && src.inp == old(src.inp)
      ensures loc == if ok then AfterTableSize(old(loc.sizes), v) else old(loc)
      ensures v < if n == 5 then 32 else 16
      ensures if ok then src.Avail() < old(src.Avail()) else src.Avail() == old(src.Avail()) && src.cur == |src.inp|
      ensures !ok ==> Starved(this)
    {
      hide *;
      Pow2Values();
      FiveOrFour(|loc.sizes|);
      ok, v := Bits(n);
      WantsAt(CoreBefore(this, 0));
      if ok {
        ghost var sizes := loc.sizes;
        AtTableSizes(cfg, CoreBefore(this, n), sizes, v);
        AfterTableSizeIs(sizes, v);
        RunsBits(this, n, v, AfterTableSize(sizes, v), final);
        loc := AfterTableSize(sizes, v);
        IsRunWith(this, src.Pending());
      }
    }

    method StepTableSizes() returns (o: Outcome)
      requires Valid() && point.PTableSizes?
      modifies this`point, this`counter, this`loc, tableSizes, clSizes, src`cur, src`bitBuf, src`numBits, src`taken
      ensures Valid() && src.Offered() == old(src.Offered()) && src.inp == old(src.inp)
      ensures if o.Go? then src.Avail() < old(src.Avail()) else o.NeedInput? && src.Avail() == old(src.Avail()) && src.cur == |src.inp|
      ensures !o.Go? ==> point == old(point)
      ensures o.NeedInput? ==> Starved(this)
    {
      hide *;
      Enter(this);
      TableSizesIs(this);
      ghost var sizes := loc.sizes;
      var ok, v := ReadTableSize(if counter < 2 then 5 else 4);
      o := NeedInput;
      if ok {
        StoreTableSize(sizes, v);
        o := Go;
      } else {
        TiedByTables(this);
      }
      Leave(this);
    }

    method StoreTableSize(ghost sizes: seq<nat>, v: nat)
      requires Shape() && point.PTableSizes? && zAdler == 1 && counter < 3 && tableSizes[..counter] == sizes
      requires (counter > 0 ==> 257 <= tableSizes[0] <= 288) && (counter > 1 ==> 1 <= tableSizes[1] <= 32)
      requires loc == AfterTableSize(sizes, v) && v < (if counter < 2 then 32 else 16)
      modifies this`point, this`counter, tableSizes, clSizes
      ensures Tie() && (point.PTableSizes? || point.PClLens?)
    {
      hide *;
      ShapeIs(this);
      AfterTableSizeIs(sizes, v);
      var base := if counter == 0 then 257 else if counter == 1 then 1 else 4;
      MinIs(counter, base);
      tableSizes[counter] := v + base;
      counter := counter + 1;
      assert tableSizes[..counter] == sizes + [v + base];
      if counter == 3 {
        ThreeSizes(tableSizes, sizes, v + base);
        ClearSizes(clSizes);
        counter, point := 0, PClLens;
        StartClLens(this);
      } else {
        NextTableSize(this, sizes, v + base);
      }
      TiedByTables(this);
    }

    /** One length of the code-length code. */
    method ReadClLen() returns (ok: bool, v: nat)
      requires src.Valid() && RunWith(src.Pending()) && loc.ClLens? && loc.k < 19 && |loc.cl| == 19
      modifies this`loc, src`cur, src`bitBuf, src`numBits, src`taken
      ensures src.Valid() && RunWith(src.Pending()) && src.Offered() == old(src.Offered()) && src.inp == old(src.inp) && v < 8
      ensures loc == if ok then AfterClLen(old(loc), v) else old(loc)
      ensures if ok then src.Avail() < old(src.Avail()) else src.Avail() == old(src.Avail()) && src.cur == |src.inp|
      ensures !ok ==> Starved(this)
    {
      hide *;
      Pow2Values();
      ok, v := Bits(3);
      WantsAt(CoreBefore(this, 0));
      if ok {
        AtClLens(cfg, CoreBefore(this, 3), loc.n0, loc.n1, loc.n2, loc.cl, loc.k, v);
        AfterClLenIs(loc, v);
        RunsBits(this, 3, v, AfterClLen(loc, v), final);
        loc := AfterClLen(loc, v);
        IsRunWith(this, src.Pending());
      }
    }

    method StepClLens() returns (o: Outcome)
      requires Valid() && point.PClLens?
      modifies this`point, this`counter, this`loc, tableSizes, clSizes, clTable, clTable.lookup, clTable.tree
      modifies src`cur, src`bitBuf, src`numBits, src`taken
      ensures Valid() && src.Offered() == old(src.Offered()) && src.inp == old(src.inp)
      ensures if o.Go? then src.Avail() < old(src.Avail()) else o.NeedInput? && src.Avail() == old(src.Avail()) && src.cur == |src.inp|
      ensures !o.Go? ==> point == old(point)
      ensures o.NeedInput? ==> Starved(this)
    {
      hide *;
      Enter(this);
      ClLensIs(this);
      ghost var before := loc;
      var ok, v := ReadClLen();
      o := NeedInput;
      if ok {
        StoreClLen(before, v);
        o := Go;
      } else {
        TiedByTables(this);
      }
      Leave(this);
    }

    method PutClLen(v: nat)
      requires Shape() && counter < 19 && v < 8 && (forall k :: 0 <= k < 19 ==> clSizes[k] < 8)
      modifies this`counter, clSizes
      ensures counter == old(counter) + 1 && clSizes[..] == old(clSizes[..])[Zig(old(counter)) := v]
      ensures forall k :: 0 <= k < 19 ==> clSizes[k] < 8
    {
      hide *;
      ShapeIs(this);
      clSizes[Zig(counter)] := v;
      counter := counter + 1;
    }

    method StoreClLen(ghost before: Loc, v: nat)
      requires Shape() && point.PClLens? && zAdler == 1 && v < 8 && SizesOk() && counter < tableSizes[2]
      requires (forall k :: 0 <= k < 19 ==> clSizes[k] < 8)
      requires before == ClLens(tableSizes[0], tableSizes[1], tableSizes[2], clSizes[..], counter) && loc == AfterClLen(before, v)
      modifies this`point, this`counter, tableSizes, clSizes, clTable, clTable.lookup, clTable.tree
      ensures Tie() && (point.PClLens? || point.PLenCodes? || point.PFailed?)
    {
      hide *;
      ShapeIs(this);
      SizesAre(this);
      AfterClLenIs(before, v);
      PutClLen(v);
      if counter < tableSizes[2] {
        NextClLen(this);
        TiedByTables(this);
      } else {
        FinishClLens();
        TiedByTables(this);
      }
    }

    /** The code-length code is complete: its table is built. */
    method FinishClLens()
      requires Shape() && SizesOk() && forall k :: 0 <= k < 19 ==> clSizes[k] < 8
      requires loc == if TableOk(clSizes[..]) then LenCodes(tableSizes[0], tableSizes[1], clSizes[..], []) else Failed
      modifies this`point, this`counter, tableSizes, clTable, clTable.lookup, clTable.tree
      ensures if point.PLenCodes? then InLenCodes() else point.PFailed? && loc == Failed
    {
      hide *;
      ShapeIs(this);
      ClLensUp(clSizes);
      assert clSizes[..19] == clSizes[..];
      SizesAre(this);
      tableSizes[2] := 19;
      var ok := clTable.Build(clSizes, 19);
      if ok {
        counter, point := 0, PLenCodes;
        StartLenCodes(this);
      } else {
        point := PFailed;
      }
    }

    // -------------------------------------------------------------- Huffman codes

    /** A code read, the step not yet made. */
    method Code(table: DecodeTable) returns (ok: bool, sym: nat, ghost len: nat, ghost p: seq<bool>)
      requires src.Valid() && RunWith(src.Pending()) && table.Valid() && Waits(table.lens)
      modifies this`filling, src`cur, src`bitBuf, src`numBits, src`taken
      ensures src.Valid() && src.Offered() == old(src.Offered()) && src.inp == old(src.inp)
      ensures src.Avail() == old(src.Avail()) - (if ok then len else 0) && filling == !ok
      ensures ok ==> (sym < |table.lens| || sym == 0) && (len == 0 ==> sym == 0)
      ensures ok ==> RunWith(p) && ReadCode(table.lens, p, sym, len, src.Pending())
      ensures !ok ==> RunWith(src.Pending()) && src.cur == |src.inp| && Waits(table.lens) && !Settled(table.lens, src.Pending()) && src.numBits < 15
    {
      hide *;
      WaitsIs(this, table.lens);
      ghost var p0, t := src.Pending(), src.taken;
      ghost var more;
      IsRunWith(this, p0);
      ok, sym, len, more := HuffDecode(src, table, filling);
      filling := !ok;
      p := p0 + BytesToBits(more);
      TookMore(cfg, broken, t, more, loc, dst.written, final, p0);
      IsRunWith(this, p);
      WaitsIs(this, table.lens);
    }

    /** The machine's step on a code, or that of the code where there is none. */
    ghost method TakeCode(lens: seq<nat>, p: seq<bool>, sym: nat, len: nat, next: Loc)
      requires src.Valid() && RunWith(p) && ReadCode(lens, p, sym, len, src.Pending()) && TableOk(lens)
      requires ByCode(cfg, CoreBefore(this, len), lens, len, sym, To(CoreBefore(this, len), next, len))
      modifies this`loc, this`broken
      ensures loc == next && RunWith(src.Pending()) && (broken ==> old(broken) || Doomed()) && (old(broken) ==> broken)
    {
      hide *;
      RunsCode(this, lens, p, sym, len, next);
      StrayDooms(this);
      broken := broken || Strays(cfg, BytesToBits(src.taken));
      loc := next;
      EitherRuns(cfg, broken, src.taken, loc, dst.written, final, src.Pending());
      IsRunWith(this, src.Pending());
    }

    /** One code length, or the start of a run of them. */
    method ReadLenCode() returns (ok: bool, sym: nat)
      requires src.Valid() && RunWith(src.Pending()) && clTable.Valid() && Waits(clTable.lens)
      requires loc.LenCodes? && loc.cl == clTable.lens
      modifies this`filling, this`loc, this`broken, src`cur, src`bitBuf, src`numBits, src`taken
      ensures src.Valid() && RunWith(src.Pending()) && src.Offered() == old(src.Offered()) && src.inp == old(src.inp)
      ensures filling == !ok && (broken ==> old(broken) || Doomed()) && (old(broken) ==> broken)
      ensures loc == if ok then AfterLenCode(old(loc), sym) else old(loc)
      ensures ok ==> (sym < |clTable.lens| || sym == 0) && (src.Avail() < old(src.Avail()) || (src.Avail() == old(src.Avail()) && sym == 0))
      ensures !ok ==> src.Avail() == old(src.Avail()) && src.cur == |src.inp| && Waits(clTable.lens) && Starved(this)
    {
      hide *;
      ghost var len, p;
      ok, sym, len, p := Code(clTable);
      WantsAt(CoreBefore(this, 0));
      if ok {
        AtLenCodes(cfg, CoreBefore(this, len), loc.n0, loc.n1, loc.cl, loc.lens, len, sym);
        AfterLenCodeIs(loc, sym);
        TableGood(clTable);
        TakeCode(clTable.lens, p, sym, len, AfterLenCode(loc, sym));
      } else {
        StarvesCode(this, clTable.lens);
      }
    }

    method StepLenCodes() returns (o: Outcome)
      requires Valid() && point.PLenCodes?
      modifies this`point, this`counter, this`dist, this`numExtra, this`loc, this`broken, this`filling, lenCodes, litSizes, distSizes
      modifies litTable, litTable.lookup, litTable.tree, distTable, distTable.lookup, distTable.tree
      modifies src`cur, src`bitBuf, src`numBits, src`taken
      ensures Valid() && src.Offered() == old(src.Offered()) && src.inp == old(src.inp) && (broken ==> old(broken) || Doomed())
      ensures o.Go? ==> src.Avail() < old(src.Avail()) || (src.Avail() == old(src.Avail()) && (point.PSymbol? || point.PFailed? || (point.PLenCodes? && counter == old(counter) + 1)))
      ensures !o.Go? ==> o.NeedInput? && src.Avail() == old(src.Avail()) && src.cur == |src.inp|
      ensures !o.Go? ==> point == old(point)
      ensures old(counter) < 320
      ensures o.NeedInput? ==> Starved(this)
    {
      hide *;
      EnterLenCodes(this);
      ghost var before := loc;
      var ok, sym := ReadLenCode();
      o := NeedInput;
      if ok {
        StoreLenCode(before, sym);
        o := Go;
      }
      LeaveLenCodes(this);
    }

    method StoreLenCode(ghost before: Loc, sym: nat)
      requires Shape() && point.PLenCodes? && zAdler == 1 && LenTable() && sym <= 18
      requires before == LenCodes(tableSizes[0], tableSizes[1], clTable.lens, lenCodes[..counter]) && loc == AfterLenCode(before, sym)
      modifies this`point, this`counter, this`dist, this`numExtra, lenCodes, litSizes, distSizes
      modifies litTable, litTable.lookup, litTable.tree, distTable, distTable.lookup, distTable.tree
      ensures Tie() && (sym == 0 ==> point.PSymbol? || point.PFailed? || (point.PLenCodes? && counter == old(counter) + 1))
      ensures point.PSymbol? || point.PFailed? || point.PLenCodes? || point.PLenRun?
    {
      hide *;
      ShapeIs(this);
      LenTableIs(this);
      AfterLenCodeIs(before, sym);
      if sym < 16 {
        StoreShort(lenCodes[..counter], sym);
      } else if sym == 16 && counter == 0 {
        NoneBefore(this);
        point := PFailed;
      } else {
        dist := sym;
        numExtra := if sym == 16 then 2 else if sym == 17 then 3 else 7;
        point := PLenRun;
        StartLenRun(this);
      }
      TiedByTables(this);
    }

    /** A length that stands for itself. */
    method StoreShort(ghost lens: seq<nat>, sym: nat)
      requires Shape() && SizesOk() && clTable.Valid() && |clTable.lens| == 19 && counter < 320 && sym < 16 && lens == lenCodes[..counter]
      requires forall k :: 0 <= k < counter ==> lenCodes[k] <= 15
      requires loc == MoreLens(tableSizes[0], tableSizes[1], clTable.lens, lens + [sym])
      modifies this`point, this`counter, lenCodes, litSizes, distSizes
      modifies litTable, litTable.lookup, litTable.tree, distTable, distTable.lookup, distTable.tree
      ensures (point.PLenCodes? && InLenCodes()) || (point.PSymbol? && Tables(Symbol(litTable.lens, distTable.lens))) || (point.PFailed? && loc == Failed)
      ensures counter == old(counter) + 1
    {
      hide *;
      ShapeIs(this);
      lenCodes[counter] := sym;
      counter := counter + 1;
      assert lenCodes[..counter] == lens + [sym];
      SmallLens(this);
      MoreLengths();
    }

    /** After one or more lengths: go on, or finish the header. */
    method MoreLengths()
      requires Shape() && SizesOk() && clTable.Valid() && |clTable.lens| == 19 && counter <= 457
      requires forall k :: 0 <= k < counter ==> lenCodes[k] <= 15
      requires loc == MoreLens(tableSizes[0], tableSizes[1], clTable.lens, lenCodes[..counter])
      modifies this`point, litSizes, distSizes, litTable, litTable.lookup, litTable.tree, distTable, distTable.lookup, distTable.tree
      ensures (point.PLenCodes? && InLenCodes()) || (point.PSymbol? && Tables(Symbol(litTable.lens, distTable.lens))) || (point.PFailed? && loc == Failed)
    {
      hide *;
      ShapeIs(this);
      MoreLensIs(this);
      if counter < tableSizes[0] + tableSizes[1] {
        point := PLenCodes;
        StillLengths(this);
      } else if counter != tableSizes[0] + tableSizes[1] {
        point := PFailed;
      } else {
        SizesAre(this);
        FinishLengths();
      }
    }

    /** All lengths are there: both tables are built. */
    method FinishLengths()
      requires Shape() && SizesOk() && counter == tableSizes[0] + tableSizes[1] && forall k :: 0 <= k < counter ==> lenCodes[k] <= 15
      requires var n0, lens := tableSizes[0], lenCodes[..counter];
        loc == if !TableOk(lens[n0..]) || !TableOk(lens[..n0]) then Failed else Symbol(lens[..n0], lens[n0..])
      modifies this`point, litSizes, distSizes, litTable, litTable.lookup, litTable.tree, distTable, distTable.lookup, distTable.tree
      ensures (point.PSymbol? && Tables(Symbol(litTable.lens, distTable.lens))) || (point.PFailed? && loc == Failed)
    {
      hide *;
      ShapeIs(this);
      SizesAre(this);
      ghost var lens := lenCodes[..counter];
      CopyLengths(litSizes, lenCodes, 0, tableSizes[0]);
      CopyLengths(distSizes, lenCodes, tableSizes[0], tableSizes[1]);
      SplitLengths(lenCodes, counter, tableSizes[0]);
      assert lenCodes[..counter] == lens;
      var ok := BuildTables(tableSizes[0], tableSizes[1]);
      point := if ok then PSymbol else PFailed;
      if ok {
        BuiltTables(this);
      }
    }

    /** The length of a run of code lengths. */
    method ReadLenRun() returns (ok: bool, s: nat)
      requires src.Valid() && RunWith(src.Pending()) && loc.LenRun? && 16 <= loc.sym <= 18 && numExtra == ExtraBits(loc.sym)
      modifies this`loc, src`cur, src`bitBuf, src`numBits, src`taken
      ensures src.Valid() && RunWith(src.Pending()) && src.Offered() == old(src.Offered()) && src.inp == old(src.inp)
      ensures loc == if ok then AfterLenRun(old(loc), s) else old(loc)
      ensures s < Pow2(numExtra) <= 128
      ensures if ok then src.Avail() < old(src.Avail()) else src.Avail() == old(src.Avail()) && src.cur == |src.inp|
      ensures !ok ==> Starved(this)
    {
      hide *;
      RunExtra(loc.sym);
      ok, s := Bits(numExtra);
      WantsAt(CoreBefore(this, 0));
      if ok {
        AtLenRun(cfg, CoreBefore(this, numExtra), loc.n0, loc.n1, loc.cl, loc.lens, loc.sym, s);
        AfterLenRunIs(loc, s);
        RunsBits(this, numExtra, s, AfterLenRun(loc, s), final);
        loc := AfterLenRun(loc, s);
        IsRunWith(this, src.Pending());
      }
    }

    method StepLenRun() returns (o: Outcome)
      requires Valid() && point.PLenRun?
      modifies this`point, this`counter, this`loc, lenCodes, litSizes, distSizes
      modifies litTable, litTable.lookup, litTable.tree, distTable, distTable.lookup, distTable.tree
      modifies src`cur, src`bitBuf, src`numBits, src`taken
      ensures Valid() && src.Offered() == old(src.Offered()) && src.inp == old(src.inp)
      ensures if o.Go? then src.Avail() < old(src.Avail()) else o.NeedInput? && src.Avail() == old(src.Avail()) && src.cur == |src.inp|
      ensures !o.Go? ==> point == old(point)
      ensures o.NeedInput? ==> Starved(this)
    {
      hide *;
      EnterLenRun(this);
      ghost var before := loc;
      var ok, s := ReadLenRun();
      o := NeedInput;
      if ok {
        StoreRun(before, s);
        o := Go;
      }
      LeaveLenRun(this, ok);
    }

    /** The run is filled in: at most 138 lengths from at most place 319, so 457 places are enough. */
    method StoreRun(ghost before: Loc, s: nat)
      requires Shape() && point.PLenRun? && zAdler == 1 && LenTable() && 16 <= dist <= 18 && (dist == 16 ==> counter > 0)
      requires s < Pow2(numExtra) <= 128 && numExtra == ExtraBits(dist)
      requires before == LenRun(tableSizes[0], tableSizes[1], clTable.lens, lenCodes[..counter], dist) && loc == AfterLenRun(before, s)
      modifies this`point, this`counter, lenCodes, litSizes, distSizes
      modifies litTable, litTable.lookup, litTable.tree, distTable, distTable.lookup, distTable.tree
      ensures Tie() && (point.PSymbol? || point.PFailed? || point.PLenCodes?)
    {
      hide *;
      ShapeIs(this);
      LenTableIs(this);
      AfterLenRunIs(before, s);
      RunExtra(dist);
      ghost var lens := lenCodes[..counter];
      var n := s + (if dist == 18 then 11 else 3);
      var v := if dist == 16 then lenCodes[counter - 1] else 0;
      RunIs(lens, dist, s, n, v);
      PutRun(lens, n, v);
      TiedByTables(this);
    }

    method PutRun(ghost lens: seq<nat>, n: nat, v: nat)
      requires Shape() && SizesOk() && clTable.Valid() && |clTable.lens| == 19 && counter < 320 && n <= 138 && v <= 15 && lens == lenCodes[..counter]
      requires forall k :: 0 <= k < counter ==> lenCodes[k] <= 15
      requires loc == MoreLens(tableSizes[0], tableSizes[1], clTable.lens, lens + Rep(v, n))
      modifies this`point, this`counter, lenCodes, litSizes, distSizes
      modifies litTable, litTable.lookup, litTable.tree, distTable, distTable.lookup, distTable.tree
      ensures (point.PLenCodes? && InLenCodes()) || (point.PSymbol? && Tables(Symbol(litTable.lens, distTable.lens))) || (point.PFailed? && loc == Failed)
    {
      hide *;
      ShapeIs(this);
      FillRun(lenCodes, counter, n, v);
      ghost var c := counter;
      counter := counter + n;
      assert lenCodes[..counter] == lens + Rep(v, n);
      RunSmall(lenCodes, lens, c, n, v);
      MoreLengths();
    }

    // -------------------------------------------------------------- literals and lengths

    /** One literal or length symbol, on the careful path. */
    method ReadSymbol() returns (ok: bool, sym: nat)
      requires src.Valid() && RunWith(src.Pending()) && Waits(litTable.lens) && Tables(loc) && loc.Symbol? && loc.lit == litTable.lens
      modifies this`filling, this`loc, this`broken, src`cur, src`bitBuf, src`numBits, src`taken
      ensures src.Valid() && RunWith(src.Pending()) && src.Offered() == old(src.Offered()) && src.inp == old(src.inp)
      ensures filling == !ok && (broken ==> old(broken) || Doomed()) && (old(broken) ==> broken)
      ensures ok ==> sym < 288 && loc == AfterSymbol(old(loc), final, sym)
      ensures ok ==> src.Avail() < old(src.Avail()) || (src.Avail() == old(src.Avail()) && sym == 0)
      ensures !ok ==> loc == old(loc) && src.Avail() == old(src.Avail()) && src.cur == |src.inp| && Waits(litTable.lens) && Starved(this)
    {
      hide *;
      TablesAre(this, loc);
      ghost var len, p;
      ok, sym, len, p := Code(litTable);
      WantsAt(CoreBefore(this, 0));
      if ok {
        UseCode(p, sym, len);
      } else {
        StarvesCode(this, litTable.lens);
      }
    }

    /** The machine's step on a literal or length symbol. */
    ghost method UseCode(p: seq<bool>, sym: nat, len: nat)
      requires src.Valid() && Tables(loc) && loc.Symbol? && loc.lit == litTable.lens && sym < 288
      requires RunWith(p) && ReadCode(litTable.lens, p, sym, len, src.Pending())
      modifies this`loc, this`broken
      ensures loc == AfterSymbol(old(loc), final, sym) && RunWith(src.Pending())
      ensures (broken ==> old(broken) || Doomed()) && (old(broken) ==> broken)
    {
      hide *;
      TablesAre(this, loc);
      TableGood(litTable);
      SymbolStep(cfg, CoreBefore(this, len), len, sym);
      TakeCode(litTable.lens, p, sym, len, AfterSymbol(loc, final, sym));
    }

    /** Where a symbol leads: a literal, the end of the block, or a length. */
    method UseSymbol(sym: nat, ghost before: Loc)
      requires Shape() && zAdler == 1 && sym < 288 && Tables(loc) && before == Symbol(litTable.lens, distTable.lens) && loc == AfterSymbol(before, final, sym)
      modifies this`point, this`counter, this`numExtra
      ensures Tie() && !point.PLenCodes? && (sym == 0 ==> point.PEmit?)
    {
      hide *;
      AfterSymbolIs(before, final, sym);
      if sym < 256 {
        counter, point := sym, PEmit;
      } else if sym == 256 {
        point := if final then PEndAlign else PHeader;
      } else {
        LengthLimit(sym - 257);
        numExtra, counter := LengthExtra(sym - 257), LengthBase(sym - 257);
        point := if numExtra > 0 then PLengthBits else PDistSymbol;
      }
      BeTied(this);
    }

    method StepSymbol() returns (o: Outcome)
      requires Valid() && point.PSymbol?
      modifies this`point, this`counter, this`numExtra, this`loc, this`broken, this`filling
      modifies src`cur, src`bitBuf, src`numBits, src`taken, dst`cur, dst`written, dst.buf
      ensures Valid() && src.Offered() == old(src.Offered()) && src.inp == old(src.inp) && (broken ==> old(broken) || Doomed())
      ensures o.Go? ==> Left() < old(Left()) || (Left() == old(Left()) && point.PEmit?)
      ensures !o.Go? ==> o.NeedInput? && Left() == old(Left()) && src.cur == |src.inp|
      ensures !o.Go? ==> point == old(point)
      ensures o.NeedInput? ==> Starved(this)
    {
      hide *;
      Enter(this);
      WaitsIs(this, litTable.lens);
      TablesAre(this, Symbol(litTable.lens, distTable.lens));
      TablesAre(this, loc);
      LeftIs(this);
      if filling || |src.inp| - src.cur < 4 || dst.end - dst.cur < 2 {
        o := SlowSymbol();
      } else {
        FastSymbols();
        o := Go;
      }
      Leave(this);
      LeftIs(this);
    }

    method SlowSymbol() returns (o: Outcome)
      requires Shape() && src.Valid() && RunWith(src.Pending()) && Waits(litTable.lens) && zAdler == 1
      requires point.PSymbol? && Tables(loc) && loc == Symbol(litTable.lens, distTable.lens)
      modifies this`point, this`counter, this`numExtra, this`loc, this`broken, this`filling, src`cur, src`bitBuf, src`numBits, src`taken
      ensures src.Valid() && RunWith(src.Pending()) && Tie() && (filling ==> point.PSymbol? && Waits(litTable.lens))
      ensures src.Offered() == old(src.Offered()) && src.inp == old(src.inp) && (broken ==> old(broken) || Doomed())
      ensures o.Go? ==> src.Avail() < old(src.Avail()) || (src.Avail() == old(src.Avail()) && point.PEmit?)
      ensures !o.Go? ==> o.NeedInput? && src.Avail() == old(src.Avail()) && src.cur == |src.inp|
      ensures !o.Go? ==> point == old(point)
      ensures o.NeedInput? ==> Starved(this)
    {
      hide *;
      TablesAre(this, loc);
      ghost var before := loc;
      var ok, sym := ReadSymbol();
      TablesAre(this, loc);
      o := NeedInput;
      if ok {
        UseSymbol(sym, before);
        o := Go;
      } else {
        BeTied(this);
      }
    }

    /** Four bytes at once when fewer than 30 bits are left. */
    method Refill()
      requires src.Valid() && RunWith(src.Pending()) && |src.inp| - src.cur >= 4
      modifies src`cur, src`bitBuf, src`numBits, src`taken
      ensures src.Valid() && RunWith(src.Pending()) && src.Offered() == old(src.Offered()) && src.inp == old(src.inp)
      ensures src.numBits >= 30 && src.Avail() == old(src.Avail())
    {
      hide *;
      if src.numBits < 30 {
        FeedOne();
        FeedOne();
        FeedOne();
        FeedOne();
      }
    }

    method FeedOne()
      requires src.Valid() && RunWith(src.Pending()) && src.cur < |src.inp| && src.numBits < 56
      modifies src`cur, src`bitBuf, src`numBits, src`taken
      ensures src.Valid() && RunWith(src.Pending()) && src.Offered() == old(src.Offered()) && src.inp == old(src.inp)
      ensures src.numBits == old(src.numBits) + 8 && src.Avail() == old(src.Avail()) && src.cur == old(src.cur) + 1
    {
      hide *;
      ghost var p, t, c := src.Pending(), src.taken, src.inp[src.cur];
      IsRunWith(this, p);
      src.Feed();
      BytesSnoc([], c);
      NoBytes();
      assert [] + [c] == [c] && [] + ToBits(c, 8) == ToBits(c, 8);
      TookMore(cfg, broken, t, [c], loc, dst.written, final, p);
      IsRunWith(this, src.Pending());
    }

    /** A literal goes out while the bits read after it are already off the buffer. */
    method EmitBefore(b: u8, ghost back: nat, ghost p: seq<bool>)
      requires dst.Valid() && dst.cur < dst.end && RunWith(p) && |p| == src.numBits + back
      requires loc.Emit? && loc.b == b && src.Valid()
      modifies this`loc, dst`cur, dst`written, dst.buf
      ensures dst.Valid() && dst.cur == old(dst.cur) + 1 && RunWith(p) && loc == Symbol(old(loc).lit, old(loc).dist)
    {
      hide *;
      AtEmit(cfg, CoreBefore(this, back), loc.lit, loc.dist, b);
      RunsFreelyBefore(this, back, p, Symbol(loc.lit, loc.dist), dst.written + [b]);
      dst.Put(b);
      loc := Symbol(loc.lit, loc.dist);
      IsRunWith(this, p);
    }

    /**
     The fast path: two symbols from one refill, the first literal stored only after the second
     symbol is known. It makes the same steps of the machine as two turns of the careful path.
     */
    method FastSymbols()
      requires Shape() && src.Valid() && dst.Valid() && RunWith(src.Pending()) && !filling && zAdler == 1
      requires point.PSymbol? && Tables(loc) && loc == Symbol(litTable.lens, distTable.lens)
      requires |src.inp| - src.cur >= 4 && dst.end - dst.cur >= 2
      modifies this`point, this`counter, this`numExtra, this`loc, this`broken, src`cur, src`bitBuf, src`numBits, src`taken, dst`cur, dst`written, dst.buf
      ensures src.Valid() && dst.Valid() && RunWith(src.Pending()) && Tie() && !point.PLenCodes?
      ensures src.Offered() == old(src.Offered()) && src.inp == old(src.inp) && (broken ==> old(broken) || Doomed()) && dst.end == old(dst.end)
      ensures src.Avail() + (dst.end - dst.cur) < old(src.Avail() + (dst.end - dst.cur))
    {
      hide *;
      TablesAre(this, loc);
      ghost var before := loc;
      Refill();
      ghost var p := src.Pending();
      var sym, len := DecodeReady(src, litTable);
      UseCode(p, sym, len);
      TablesAre(this, loc);
      AfterSymbolIs(before, final, sym);
      if sym >= 256 {
        UseSymbol(sym, before);
      } else {
        SecondSymbol(sym, before);
      }
    }

    method SecondSymbol(sym: nat, ghost before: Loc)
      requires Shape() && src.Valid() && dst.Valid() && RunWith(src.Pending()) && zAdler == 1
      requires point.PSymbol? && Tables(loc) && before == Symbol(litTable.lens, distTable.lens) && sym < 256 && loc == Emit(litTable.lens, distTable.lens, sym)
      requires src.numBits >= 15 && dst.end - dst.cur >= 2
      modifies this`point, this`counter, this`numExtra, this`loc, this`broken, src`bitBuf, src`numBits, dst`cur, dst`written, dst.buf
      ensures src.Valid() && dst.Valid() && RunWith(src.Pending()) && Tie() && !point.PLenCodes?
      ensures (broken ==> old(broken) || Doomed()) && src.Avail() <= old(src.Avail()) && dst.cur > old(dst.cur)
    {
      hide *;
      TablesAre(this, loc);
      ghost var p := src.Pending();
      var sym2, len2 := DecodeReady(src, litTable);
      CodeLength(litTable.lens, p, sym2, len2, src);
      EmitBefore(sym, len2, p);
      TablesAre(this, loc);
      UseCode(p, sym2, len2);
      AfterSymbolIs(before, final, sym2);
      TablesAre(this, loc);
      if sym2 >= 256 {
        UseSymbol(sym2, before);
      } else {
        EmitBefore(sym2, 0, src.Pending());
        TablesAre(this, loc);
        TiedByTables(this);
      }
    }

    method StepEmit() returns (o: Outcome)
      requires Valid() && point.PEmit?
      modifies this`point, this`loc, dst`cur, dst`written, dst.buf
      ensures Valid()
      ensures if o.Go? then Left() < old(Left()) else o.NeedRoom? && Left() == old(Left()) && dst.cur == dst.end
      ensures !o.Go? ==> point == old(point)
      ensures o.NeedRoom? ==> Pressed(loc)
    {
      hide *;
      Enter(this);
      LeftIs(this);
      OutIs(dst);
      TablesAre(this, Emit(litTable.lens, distTable.lens, counter));
      TablesAre(this, loc);
      PressedIs(loc);
      o := NeedRoom;
      if dst.cur < dst.end {
        EmitBefore(counter, 0, src.Pending());
        TablesAre(this, loc);
        point := PSymbol;
        o := Go;
      }
      BeTied(this);
      Leave(this);
      LeftIs(this);
    }

    // -------------------------------------------------------------- distances and copies

    /** The rest of a match length. */
    method ReadLengthBits() returns (ok: bool, v: nat)
      requires src.Valid() && RunWith(src.Pending()) && loc.LengthBits? && loc.extra == numExtra <= 5
      modifies this`loc, src`cur, src`bitBuf, src`numBits, src`taken
      ensures src.Valid() && RunWith(src.Pending()) && src.Offered() == old(src.Offered()) && src.inp == old(src.inp)
      ensures loc == if ok then DistSymbol(old(loc).lit, old(loc).dist, old(loc).base + v) else old(loc)
      ensures if ok then src.Avail() <= old(src.Avail()) else src.Avail() == old(src.Avail()) && src.cur == |src.inp|
      ensures !ok ==> Starved(this)
    {
      hide *;
      ok, v := Bits(numExtra);
      WantsAt(CoreBefore(this, 0));
      if ok {
        AtLengthBits(cfg, CoreBefore(this, numExtra), loc.lit, loc.dist, loc.base, numExtra, v);
        RunsBits(this, numExtra, v, DistSymbol(loc.lit, loc.dist, loc.base + v), final);
        loc := DistSymbol(loc.lit, loc.dist, loc.base + v);
        IsRunWith(this, src.Pending());
      }
    }

    method StepLengthBits() returns (o: Outcome)
      requires Valid() && point.PLengthBits?
      modifies this`point, this`counter, this`loc, src`cur, src`bitBuf, src`numBits, src`taken
      ensures Valid() && src.Offered() == old(src.Offered()) && src.inp == old(src.inp)
      ensures if o.Go? then src.Avail() <= old(src.Avail()) && point.PDistSymbol? else o.NeedInput? && src.Avail() == old(src.Avail()) && src.cur == |src.inp|
      ensures !o.Go? ==> point == old(point)
      ensures o.NeedInput? ==> Starved(this)
    {
      hide *;
      Enter(this);
      TablesAre(this, LengthBits(litTable.lens, distTable.lens, counter, numExtra));
      var ok, v := ReadLengthBits();
      o := NeedInput;
      if ok {
        counter, point := counter + v, PDistSymbol;
        o := Go;
      }
      TablesAre(this, loc);
      BeTied(this);
      Leave(this);
    }

    /** A distance that leads nowhere, and is not checked. */
    ghost method LoseCode(p: seq<bool>, sym: nat, len: nat, next: Loc)
      requires src.Valid() && RunWith(p) && loc.DistSymbol? && ReadCode(loc.dist, p, sym, len, src.Pending()) && TableOk(loc.dist)
      requires sym < 32 && FarCopy(cfg, CoreBefore(this, 0), sym, CoreBefore(this, 0).(loc := next))
      modifies this`loc, this`broken
      ensures loc == next && RunWith(src.Pending()) && broken && (old(broken) || Doomed())
    {
      hide *;
      LosesCode(this, p, sym, len, next);
      StrayDooms(this);
      broken := true;
      loc := next;
      EitherRuns(cfg, broken, src.taken, loc, dst.written, final, src.Pending());
      IsRunWith(this, src.Pending());
    }

    /** The machine's step on a distance symbol. */
    ghost method UseDistCode(p: seq<bool>, sym: nat, len: nat)
      requires src.Valid() && Tables(loc) && loc.DistSymbol? && loc.dist == distTable.lens && sym < 32
      requires RunWith(p) && ReadCode(distTable.lens, p, sym, len, src.Pending())
      modifies this`loc, this`broken
      ensures loc == AfterDistSymbol(cfg, old(loc), |dst.written|, sym) && RunWith(src.Pending())
      ensures (broken ==> old(broken) || Doomed()) && (old(broken) ==> broken)
      ensures loc.Copying? ==> broken || 1 <= loc.from <= |dst.written|
    {
      hide *;
      TablesAre(this, loc);
      TableGood(distTable);
      DistSymbolStep(cfg, CoreBefore(this, len), len, sym);
      ghost var next := AfterDistSymbol(cfg, loc, |dst.written|, sym);
      if Undefined(cfg, |dst.written|, next) {
        FarSymbolStep(cfg, CoreBefore(this, 0), sym);
        LoseCode(p, sym, len, next);
      } else {
        UndefinedIs(cfg, |dst.written|, next);
        TakeCode(distTable.lens, p, sym, len, next);
      }
    }

    method ReadDistSymbol() returns (ok: bool, sym: nat)
      requires src.Valid() && RunWith(src.Pending()) && Waits(distTable.lens) && Tables(loc) && loc.DistSymbol? && loc.dist == distTable.lens
      modifies this`filling, this`loc, this`broken, src`cur, src`bitBuf, src`numBits, src`taken
      ensures src.Valid() && RunWith(src.Pending()) && src.Offered() == old(src.Offered()) && src.inp == old(src.inp)
      ensures filling == !ok && (broken ==> old(broken) || Doomed()) && (old(broken) ==> broken)
      ensures ok ==> sym < 32 && loc == AfterDistSymbol(cfg, old(loc), |dst.written|, sym)
      ensures loc.Copying? ==> broken || 1 <= loc.from <= |dst.written|
      ensures ok ==> src.Avail() <= old(src.Avail())
      ensures !ok ==> loc == old(loc) && src.Avail() == old(src.Avail()) && src.cur == |src.inp| && Waits(distTable.lens) && Starved(this)
    {
      hide *;
      TablesAre(this, loc);
      ghost var len, p;
      ok, sym, len, p := Code(distTable);
      WantsAt(CoreBefore(this, 0));
      if ok {
        UseDistCode(p, sym, len);
      } else {
        StarvesCode(this, distTable.lens);
      }
    }

    /** The rest of a distance. */
    method ReadDistBits() returns (ok: bool, v: nat)
      requires src.Valid() && RunWith(src.Pending()) && loc.DistBits? && loc.extra == numExtra <= 13
      modifies this`loc, this`broken, src`cur, src`bitBuf, src`numBits, src`taken
      ensures src.Valid() && RunWith(src.Pending()) && src.Offered() == old(src.Offered()) && src.inp == old(src.inp)
      ensures (broken ==> old(broken) || Doomed()) && (old(broken) ==> broken) && v < Pow2(numExtra)
      ensures loc == if ok then AfterDistance(cfg, old(loc), |dst.written|, old(loc).base + v) else old(loc)
      ensures loc.Copying? ==> broken || 1 <= loc.from <= |dst.written|
      ensures if ok then src.Avail() <= old(src.Avail()) else src.Avail() == old(src.Avail()) && src.cur == |src.inp|
      ensures !ok ==> Starved(this)
    {
      hide *;
      ok, v := Bits(numExtra);
      WantsAt(CoreBefore(this, 0));
      if ok {
        DistBitsStep(cfg, CoreBefore(this, numExtra), v);
        ghost var next := AfterDistance(cfg, loc, |dst.written|, loc.base + v);
        UndefinedIs(cfg, |dst.written|, next);
        if Undefined(cfg, |dst.written|, next) {
          FarBitsStep(cfg, CoreBefore(this, 0), v);
          LosesBits(this, v, next);
          StrayDooms(this);
          broken := true;
          loc := next;
          EitherRuns(cfg, broken, src.taken, loc, dst.written, final, src.Pending());
        } else {
          RunsBits(this, numExtra, v, next, final);
          loc := next;
        }
        IsRunWith(this, src.Pending());
      }
    }

    /** The distance is known: fail, copy at once, or copy byte by byte. */
    method StartCopy(from: nat, ghost before: Loc)
      requires Shape() && dst.Valid() && src.Valid() && RunWith(src.Pending()) && zAdler == 1 && from <= DICT_SIZE && Tables(loc)
      requires (before.DistSymbol? || before.DistBits?) && before.lit == litTable.lens && before.dist == distTable.lens && before.len == counter
      requires loc == AfterDistance(cfg, before, |dst.written|, from) && (loc.Copying? ==> broken || 1 <= loc.from <= |dst.written|)
      modifies this`point, this`dist, this`distFrom, this`loc, dst`cur, dst`written, dst.buf
      ensures dst.Valid() && RunWith(src.Pending()) && Tie() && (point.PFailed? || point.PCopying? || point.PSymbol?)
      ensures dst.cur >= old(dst.cur)
    {
      hide *;
      ShapeIs(this);
      AfterDistanceIs(cfg, before, |dst.written|, from);
      NoteDistance(from);
      TablesAre(this, loc);
      if !dst.wraps && (dist == 0 || dist > distFrom) {
        GiveUp();
      } else {
        CopyOrWait();
        TiedByTables(this);
      }
    }

    method NoteDistance(from: nat)
      requires dst.Valid()
      modifies this`dist, this`distFrom
      ensures dist == from && distFrom == dst.cur && (!dst.wraps ==> dst.cur == |dst.written|)
      ensures dst.wraps || 1 <= dist <= dst.cur ==> dst.FromOk(distFrom, dist)
    {
      hide *;
      dist, distFrom := from, dst.cur;
      AtCurrent(dst, from);
    }

    method GiveUp()
      requires Shape() && zAdler == 1 && loc == Failed
      modifies this`point
      ensures Tie() && point.PFailed?
    {
      hide *;
      point := PFailed;
      TiedByTables(this);
    }

    method CopyOrWait()
      requires Shape() && dst.Valid() && src.Valid() && RunWith(src.Pending()) && dist <= DICT_SIZE && distFrom == dst.cur
      requires Tables(loc) && dst.FromOk(distFrom, dist)
      requires loc == Copying(litTable.lens, distTable.lens, counter, dist) && (broken || 1 <= dist <= |dst.written|)
      modifies this`point, this`loc, dst`cur, dst`written, dst.buf
      ensures dst.Valid() && RunWith(src.Pending()) && dst.cur >= old(dst.cur)
      ensures (point.PCopying? && InCopying()) || (point.PSymbol? && Tables(Symbol(litTable.lens, distTable.lens)))
    {
      hide *;
      ShapeIs(this);
      OutputFacts(dst, distFrom, dist);
      dst.SlotHolds(distFrom, dist);
      var slot := dst.SlotOf(distFrom, dist);
      if (if dst.cur >= slot then dst.cur else slot) + counter > dst.end {
        point := PCopying;
        CopyingIs(this);
      } else {
        CopyWhole(slot);
        point := PSymbol;
      }
    }

    /** A match that fits: the straight copy makes all the machine's steps of the byte-by-byte one. */
    method CopyWhole(slot: nat)
      requires Shape() && dst.Valid() && src.Valid() && RunWith(src.Pending()) && dist <= DICT_SIZE && distFrom == dst.cur
      requires Tables(loc) && dst.FromOk(distFrom, dist) && (dst.wraps ==> dst.buf.Length > 0)
      requires slot == dst.SlotOf(distFrom, dist) && slot < dst.buf.Length
      requires loc == Copying(litTable.lens, distTable.lens, counter, dist) && (broken || 1 <= dist <= |dst.written|)
      requires dst.cur + counter <= dst.end && slot + counter <= dst.end
      modifies this`loc, dst`cur, dst`written, dst.buf
      ensures dst.Valid() && RunWith(src.Pending()) && dst.cur >= old(dst.cur)
      ensures Tables(Symbol(litTable.lens, distTable.lens))
    {
      hide *;
      TablesAre(this, loc);
      OutputFacts(dst, distFrom, dist);
      StraightStart(dst, distFrom, dist);
      RunsCopy(this);
      ghost var w := dst.written;
      dst.CopyMatch(counter, slot, dist);
      loc := Symbol(litTable.lens, distTable.lens);
      CopyEnds(this, w, counter);
      TablesAre(this, loc);
    }

    method StepDistSymbol() returns (o: Outcome)
      requires Valid() && point.PDistSymbol?
      modifies this`point, this`dist, this`distFrom, this`numExtra, this`loc, this`broken, this`filling
      modifies src`cur, src`bitBuf, src`numBits, src`taken, dst`cur, dst`written, dst.buf
      ensures Valid() && src.Offered() == old(src.Offered()) && src.inp == old(src.inp) && (broken ==> old(broken) || Doomed())
      ensures o.Go? ==> Left() <= old(Left()) && (point.PDistBits? || point.PCopying? || point.PSymbol? || point.PFailed?)
      ensures !o.Go? ==> o.NeedInput? && Left() == old(Left()) && src.cur == |src.inp|
      ensures !o.Go? ==> point == old(point)
      ensures o.NeedInput? ==> Starved(this)
    {
      hide *;
      Enter(this);
      WaitsIs(this, distTable.lens);
      LeftIs(this);
      TablesAre(this, DistSymbol(litTable.lens, distTable.lens, counter));
      TablesAre(this, loc);
      ghost var before := loc;
      var ok, sym := ReadDistSymbol();
      TablesAre(this, loc);
      o := NeedInput;
      if ok {
        UseDistance(sym, before);
        o := Go;
      } else {
        BeTied(this);
      }
      Leave(this);
      LeftIs(this);
    }

    method UseDistance(sym: nat, ghost before: Loc)
      requires Shape() && dst.Valid() && src.Valid() && RunWith(src.Pending()) && zAdler == 1 && sym < 32 && Tables(loc)
      requires before == DistSymbol(litTable.lens, distTable.lens, counter)
      requires loc == AfterDistSymbol(cfg, before, |dst.written|, sym) && (loc.Copying? ==> broken || 1 <= loc.from <= |dst.written|)
      modifies this`point, this`dist, this`distFrom, this`numExtra, this`loc, dst`cur, dst`written, dst.buf
      ensures dst.Valid() && RunWith(src.Pending()) && Tie() && dst.cur >= old(dst.cur)
      ensures point.PDistBits? || point.PCopying? || point.PSymbol? || point.PFailed?
    {
      hide *;
      AfterDistSymbolIs(cfg, before, |dst.written|, sym);
      DistanceRange(sym);
      numExtra, dist := DistanceExtra(sym), DistanceBase(sym);
      if numExtra > 0 {
        point := PDistBits;
        TablesAre(this, loc);
        BeTied(this);
      } else {
        StartCopy(dist, before);
      }
    }

    method StepDistBits() returns (o: Outcome)
      requires Valid() && point.PDistBits?
      modifies this`point, this`dist, this`distFrom, this`loc, this`broken
      modifies src`cur, src`bitBuf, src`numBits, src`taken, dst`cur, dst`written, dst.buf
      ensures Valid() && src.Offered() == old(src.Offered()) && src.inp == old(src.inp) && (broken ==> old(broken) || Doomed())
      ensures o.Go? ==> Left() <= old(Left()) && (point.PCopying? || point.PSymbol? || point.PFailed?)
      ensures !o.Go? ==> o.NeedInput? && Left() == old(Left()) && src.cur == |src.inp|
      ensures !o.Go? ==> point == old(point)
      ensures o.NeedInput? ==> Starved(this)
    {
      hide *;
      Enter(this);
      LeftIs(this);
      TablesAre(this, DistBits(litTable.lens, distTable.lens, counter, dist, numExtra));
      TablesAre(this, loc);
      ghost var before := loc;
      var ok, v := ReadDistBits();
      TablesAre(this, loc);
      o := NeedInput;
      if ok {
        StartCopy(dist + v, before);
        o := Go;
      } else {
        BeTied(this);
      }
      Leave(this);
      LeftIs(this);
    }

    /** One byte of a copy that may have to stop, or go round the window. */
    method StepCopying() returns (o: Outcome)
      requires Valid() && point.PCopying?
      modifies this`point, this`counter, this`distFrom, this`loc, dst`cur, dst`written, dst.buf
      ensures Valid()
      ensures o.Go? ==> Left() < old(Left()) || (Left() == old(Left()) && point.PSymbol?)
      ensures !o.Go? ==> o.NeedRoom? && Left() == old(Left()) && dst.cur == dst.end
      ensures !o.Go? ==> point == old(point)
      ensures o.NeedRoom? ==> Pressed(loc)
    {
      hide *;
      Enter(this);
      LeftIs(this);
      OutIs(dst);
      CopyingIs(this);
      TablesAre(this, Copying(litTable.lens, distTable.lens, counter, dist));
      if counter == 0 {
        AtCopying(cfg, CoreBefore(this, 0), litTable.lens, distTable.lens, 0, dist);
        RunsFreely(this, Symbol(litTable.lens, distTable.lens), dst.written);
        point, loc := PSymbol, Symbol(litTable.lens, distTable.lens);
        IsRunWith(this, src.Pending());
        TablesAre(this, loc);
        o := Go;
      } else if dst.cur >= dst.end {
        PressedIs(loc);
        o := NeedRoom;
      } else {
        CopyOne();
        o := Go;
      }
      BeTied(this);
      Leave(this);
      LeftIs(this);
    }

    method CopyOne()
      requires Shape() && src.Valid() && dst.Valid() && RunWith(src.Pending()) && InCopying() && counter > 0 && dst.cur < dst.end
      modifies this`counter, this`distFrom, this`loc, dst`cur, dst`written, dst.buf
      ensures dst.Valid() && RunWith(src.Pending()) && InCopying() && dst.cur == old(dst.cur) + 1
    {
      hide *;
      CopyingIs(this);
      TablesAre(this, Copying(litTable.lens, distTable.lens, counter, dist));
      RunsCopyOne(this);
      ghost var w := dst.written;
      dst.CopyByte(distFrom, dist);
      counter, distFrom, loc := counter - 1, distFrom + 1, Copying(litTable.lens, distTable.lens, counter - 1, dist);
      CopyEnds(this, w, 1);
      StillCopying(this, w);
    }

    // -------------------------------------------------------------- the end of the stream

    /** Whole bytes taken too early go back to the input. */
    method GiveBytesBack()
      requires src.Valid() && RunWith(src.Pending())
      modifies src`cur, src`bitBuf, src`numBits, src`taken
      ensures src.Valid() && RunWith(src.Pending()) && src.Offered() == old(src.Offered()) && src.inp == old(src.inp)
      ensures src.Avail() == old(src.Avail()) && (src.cur == 0 || src.numBits < 8) && src.cur <= old(src.cur)
    {
      hide *;
      ghost var p, t := src.Pending(), src.taken;
      IsRunWith(this, p);
      ghost var extra := src.PutBack();
      GaveBack(cfg, broken, src.taken, extra, loc, dst.written, final, src.Pending());
      IsRunWith(this, src.Pending());
    }

    method ReadEndAlign()
      requires src.Valid() && RunWith(src.Pending()) && loc == EndAlign
      modifies this`loc, src`cur, src`bitBuf, src`numBits, src`taken
      ensures src.Valid() && RunWith(src.Pending()) && src.Offered() == old(src.Offered()) && src.inp == old(src.inp)
      ensures loc == if cfg.zlib then Trailer(0, 1) else Done(1)
      ensures src.Avail() <= old(src.Avail())
    {
      hide *;
      ghost var n, v := SkipToByte();
      AtEndAlign(cfg, CoreBefore(this, n), v);
      RunsBits(this, n, v, if cfg.zlib then Trailer(0, 1) else Done(1), final);
      loc := if cfg.zlib then Trailer(0, 1) else Done(1);
      IsRunWith(this, src.Pending());
    }

    method StepEndAlign() returns (o: Outcome)
      requires Valid() && point.PEndAlign?
      modifies this`point, this`counter, this`loc, src`cur, src`bitBuf, src`numBits, src`taken
      ensures Valid() && src.Offered() == old(src.Offered()) && src.inp == old(src.inp)
      ensures o.Go? && src.Avail() <= old(src.Avail()) && (point.PTrailer? || point.PDone?)
    {
      hide *;
      Enter(this);
      ReadEndAlign();
      GiveBytesBack();
      counter, point, o := 0, if cfg.zlib then PTrailer else PDone, Go;
      BeTied(this);
      Leave(this);
    }

    method ReadTrailer() returns (ok: bool, v: nat)
      requires src.Valid() && RunWith(src.Pending()) && loc.Trailer?
      modifies this`loc, src`cur, src`bitBuf, src`numBits, src`taken
      ensures src.Valid() && RunWith(src.Pending()) && src.Offered() == old(src.Offered()) && src.inp == old(src.inp)
      ensures var a := (old(loc).adler * 256 + v) % 0x1_0000_0000;
        loc == if !ok then old(loc) else if old(loc).k < 3 then Trailer(old(loc).k + 1, a) else Done(a)
      ensures if ok then src.Avail() < old(src.Avail()) else src.Avail() == old(src.Avail()) && src.cur == |src.inp|
      ensures !ok ==> Starved(this)
    {
      hide *;
      Pow2Values();
      ok, v := Byte();
      WantsAt(CoreBefore(this, 0));
      if ok {
        ghost var a := (loc.adler * 256 + v) % 0x1_0000_0000;
        ghost var next := if loc.k < 3 then Trailer(loc.k + 1, a) else Done(a);
        AtTrailer(cfg, CoreBefore(this, 8), loc.k, loc.adler, v);
        RunsBits(this, 8, v, next, final);
        loc := next;
        IsRunWith(this, src.Pending());
      }
    }

    method StepTrailer() returns (o: Outcome)
      requires Valid() && point.PTrailer?
      modifies this`point, this`counter, this`zAdler, this`loc, src`cur, src`bitBuf, src`numBits, src`taken
      ensures Valid() && src.Offered() == old(src.Offered()) && src.inp == old(src.inp)
      ensures if o.Go? then src.Avail() < old(src.Avail()) else o.NeedInput? && src.Avail() == old(src.Avail()) && src.cur == |src.inp|
      ensures !o.Go? ==> point == old(point)
      ensures o.NeedInput? ==> Starved(this)
    {
      hide *;
      Enter(this);
      var ok, v := ReadTrailer();
      o := NeedInput;
      if ok {
        zAdler := (zAdler * 256 + v) % 0x1_0000_0000;
        counter := counter + 1;
        point := if counter == 4 then PDone else PTrailer;
        o := Go;
      }
      BeTied(this);
      Leave(this);
    }

    // -------------------------------------------------------------- the loop

    /** One step. It uses input or room, or it moves on among the points that use none. */
    method Step() returns (o: Outcome)
      requires Valid() && !point.PDone? && !point.PFailed?
      modifies this`point, this`counter, this`dist, this`numExtra, this`distFrom, this`zhdr0, this`zAdler, this`final, this`filling, this`loc, this`broken
      modifies src`cur, src`bitBuf, src`numBits, src`taken, dst`cur, dst`written, dst.buf, litTable, litTable.lookup, litTable.tree
      modifies distTable, distTable.lookup, distTable.tree, clTable, clTable.lookup, clTable.tree
      modifies litSizes, distSizes, clSizes, lenCodes, tableSizes, rawHeader
      ensures Valid() && src.Offered() == old(src.Offered()) && src.inp == old(src.inp) && (broken ==> old(broken) || Doomed())
      ensures o.Go? ==> Left() < old(Left()) || (Left() == old(Left()) && Rank(point, counter) < old(Rank(point, counter)))
      ensures !o.Go? ==> point == old(point) && ((o.NeedInput? && src.cur == |src.inp|) || (o.NeedRoom? && dst.cur == dst.end))
      ensures o.NeedInput? ==> Starved(this)
      ensures o.NeedRoom? ==> Pressed(loc)
    {
      hide *;
      LeftIs(this);
      RankIs(point, counter);
      if point.PZHeader0? || point.PZHeader1? || point.PHeader? || point.PTableSizes? || point.PClLens? || point.PLenCodes? || point.PLenRun? {
        o := StepHeaders();
      } else if point.PRawAlign? || point.PRawHeader? || point.PRawCopy? || point.PRawByte? || point.PEndAlign? || point.PTrailer? {
        o := StepPlain();
      } else {
        o := StepCoded();
      }
    }

    method StepHeaders() returns (o: Outcome)
      requires Valid() && (point.PZHeader0? || point.PZHeader1? || point.PHeader? || point.PTableSizes? || point.PClLens? || point.PLenCodes? || point.PLenRun?)
      modifies this`point, this`counter, this`dist, this`numExtra, this`zhdr0, this`final, this`filling, this`loc, this`broken
      modifies src`cur, src`bitBuf, src`numBits, src`taken, litTable, litTable.lookup, litTable.tree
      modifies distTable, distTable.lookup, distTable.tree, clTable, clTable.lookup, clTable.tree
      modifies litSizes, distSizes, clSizes, lenCodes, tableSizes
      ensures Valid() && src.Offered() == old(src.Offered()) && src.inp == old(src.inp) && (broken ==> old(broken) || Doomed())
      ensures o.Go? ==> Left() < old(Left()) || (Left() == old(Left()) && Rank(point, counter) < old(Rank(point, counter)))
      ensures !o.Go? ==> point == old(point) && o.NeedInput? && src.cur == |src.inp|
      ensures o.NeedInput? ==> Starved(this)
    {
      hide *;
      LeftIs(this);
      RankIs(point, counter);
      match point {
        case PZHeader0 => o := StepZHeader0();
        case PZHeader1 => o := StepZHeader1();
        case PHeader => o := StepHeader();
        case PTableSizes => o := StepTableSizes();
        case PClLens => o := StepClLens();
        case PLenCodes => o := StepLenCodes();
        case PLenRun => o := StepLenRun();
      }
      LeftIs(this);
      RankIs(point, counter);
    }

    method StepPlain() returns (o: Outcome)
      requires Valid() && (point.PRawAlign? || point.PRawHeader? || point.PRawCopy? || point.PRawByte? || point.PEndAlign? || point.PTrailer?)
      modifies this`point, this`counter, this`dist, this`zAdler, this`loc, rawHeader
      modifies src`cur, src`bitBuf, src`numBits, src`taken, dst`cur, dst`written, dst.buf
      ensures Valid() && src.Offered() == old(src.Offered()) && src.inp == old(src.inp)
      ensures o.Go? ==> Left() < old(Left()) || (Left() == old(Left()) && Rank(point, counter) < old(Rank(point, counter)))
      ensures !o.Go? ==> point == old(point) && ((o.NeedInput? && src.cur == |src.inp|) || (o.NeedRoom? && dst.cur == dst.end))
      ensures o.NeedInput? ==> Starved(this)
      ensures o.NeedRoom? ==> Pressed(loc)
    {
      hide *;
      LeftIs(this);
      RankIs(point, counter);
      match point {
        case PRawAlign => o := StepRawAlign();
        case PRawHeader => o := StepRawHeader();
        case PRawCopy => o := StepRawCopy();
        case PRawByte => o := StepRawByte();
        case PEndAlign => o := StepEndAlign();
        case PTrailer => o := StepTrailer();
      }
      LeftIs(this);
      RankIs(point, counter);
    }

    method StepCoded() returns (o: Outcome)
      requires Valid() && (point.PSymbol? || point.PEmit? || point.PLengthBits? || point.PDistSymbol? || point.PDistBits? || point.PCopying?)
      modifies this`point, this`counter, this`dist, this`numExtra, this`distFrom, this`filling, this`loc, this`broken
      modifies src`cur, src`bitBuf, src`numBits, src`taken, dst`cur, dst`written, dst.buf
      ensures Valid() && src.Offered() == old(src.Offered()) && src.inp == old(src.inp) && (broken ==> old(broken) || Doomed())
      ensures o.Go? ==> Left() < old(Left()) || (Left() == old(Left()) && Rank(point, counter) < old(Rank(point, counter)))
      ensures !o.Go? ==> point == old(point) && ((o.NeedInput? && src.cur == |src.inp|) || (o.NeedRoom? && dst.cur == dst.end))
      ensures o.NeedInput? ==> Starved(this)
      ensures o.NeedRoom? ==> Pressed(loc)
    {
      hide *;
      LeftIs(this);
      RankIs(point, counter);
      match point {
        case PSymbol => o := StepSymbol();
        case PEmit => o := StepEmit();
        case PLengthBits => o := StepLengthBits();
        case PDistSymbol => o := StepDistSymbol();
        case PDistBits => o := StepDistBits();
        case PCopying => o := StepCopying();
      }
      LeftIs(this);
      RankIs(point, counter);
    }

    /** Steps until the stream ends, or input or room runs out. */
    method Run() returns (o: Outcome)
      requires Valid()
      modifies this`point, this`counter, this`dist, this`numExtra, this`distFrom, this`zhdr0, this`zAdler, this`final, this`filling, this`loc, this`broken
      modifies src`cur, src`bitBuf, src`numBits, src`taken, dst`cur, dst`written, dst.buf, litTable, litTable.lookup, litTable.tree
      modifies distTable, distTable.lookup, distTable.tree, clTable, clTable.lookup, clTable.tree
      modifies litSizes, distSizes, clSizes, lenCodes, tableSizes, rawHeader
      ensures Valid() && src.Offered() == old(src.Offered()) && src.inp == old(src.inp) && (broken ==> old(broken) || Doomed())
      ensures match o
        case Go => false
        case NeedInput => src.cur == |src.inp| && !point.PDone? && !point.PFailed?
        case NeedRoom => dst.cur == dst.end && !point.PDone? && !point.PFailed?
        case Stop => point.PDone? || point.PFailed?
      ensures o.NeedInput? ==> Starved(this)
      ensures o.NeedRoom? ==> Pressed(loc)
    {
      hide *;
      o := Go;
      ghost var offered, inp := src.Offered(), src.inp;
      LeftNat(this);
      while o.Go? && !point.PDone? && !point.PFailed?
        invariant Valid() && src.Offered() == offered && src.inp == inp && (broken ==> old(broken) || Doomed()) && Left() >= 0
        invariant o.NeedInput? ==> src.cur == |src.inp| && !point.PDone? && !point.PFailed? && Starved(this)
        invariant o.NeedRoom? ==> dst.cur == dst.end && !point.PDone? && !point.PFailed? && Pressed(loc)
        invariant !o.Stop?
        decreases if o.Go? then 1 else 0, Left(), Rank(point, counter)
      {
        DoomIs(this);
        o := Step();
        DoomIs(this);
        LeftNat(this);
      }
      if o.Go? {
        o := Stop;
      }
    }

    // -------------------------------------------------------------- a call

    /** The running checksum. */
    ghost predicate Summed()
      reads this`checkAdler, this`summed
    {
      cfg.zlib ==> checkAdler == A.Checksum(summed)
    }

    /** The output area lies where the last call stopped; a window is offered up to its end. */
    ghost predicate AreaOk(at: nat, size: nat)
      reads dst`written
    {
      && at + size <= dst.buf.Length && (cfg.wraps ==> at + size == dst.buf.Length)
      && at == if cfg.wraps then (if dst.buf.Length > 0 then |dst.written| % dst.buf.Length else 0) else |dst.written|
    }

    /** What the status of a call says about where the stream is. */
    ghost predicate Means(status: Status, hasMore: bool, allTaken: bool, full: bool)
      reads this`point, this`loc, this`final, src`taken, src`bitBuf, src`numBits, dst`written
    {
      match status
      case Finished => point.PDone?
      case BadChecksum => point.PDone? && cfg.zlib
      case Rejected => point.PFailed?
      case NeedsMoreInput => hasMore && allTaken && !point.PDone? && !point.PFailed? && Starved(this)
      case CannotProgress => !hasMore && allTaken && !point.PDone? && !point.PFailed? && Starved(this)
      case HasMoreOutput => full && !point.PDone? && !point.PFailed? && Pressed(loc)
    }

    /** The new buffers. */
    method Begin(data: seq<u8>, at: nat, size: nat)
      requires Valid() && AreaOk(at, size)
      modifies src`inp, src`cur, dst`next, dst`cur, dst`end, dst`before
      ensures Valid() && src.inp == data && src.Offered() == old(src.taken) + data
      ensures dst.next == dst.cur == at && dst.end == at + size && dst.before == dst.written
    {
      hide *;
      ValidIs(this);
      ShapeIs(this);
      AreaIs(this, at, size);
      src.SetInput(data);
      dst.SetOutput(at, size);
      ValidIs(this);
    }

    /** `tinfl_decompress` up to the checksum. */
    method Inflate(data: seq<u8>, at: nat, size: nat, hasMore: bool) returns (status: Status, consumed: nat, produced: nat)
      requires Valid() && AreaOk(at, size)
      modifies this`point, this`counter, this`dist, this`numExtra, this`distFrom, this`zhdr0, this`zAdler, this`final, this`filling, this`loc, this`broken
      modifies src, dst, dst.buf, litTable, litTable.lookup, litTable.tree
      modifies distTable, distTable.lookup, distTable.tree, clTable, clTable.lookup, clTable.tree
      modifies litSizes, distSizes, clSizes, lenCodes, tableSizes, rawHeader
      ensures Valid() && consumed <= |data| && produced <= size && at + size <= dst.buf.Length
      ensures src.taken == old(src.taken) + data[..consumed] && dst.written == old(dst.written) + dst.buf[at..at + produced]
      ensures broken ==> old(broken) || Strays(cfg, BytesToBits(old(src.taken) + data))
      ensures Means(status, hasMore, consumed == |data|, produced == size) && !status.BadChecksum?
      ensures status.NeedsMoreInput? || status.CannotProgress? || consumed == 0 || src.numBits < 8
    {
      hide *;
      ghost var t := src.taken;
      Begin(data, at, size);
      var o := Run();
      DoomIs(this);
      status := match o
        case NeedInput => if hasMore then NeedsMoreInput else CannotProgress
        case NeedRoom => HasMoreOutput
        case _ => if point.PFailed? then Rejected else Finished;
      if !status.NeedsMoreInput? && !status.CannotProgress? {
        ReturnBytes();
      }
      ValidIs(this);
      SourceFacts(src);
      WrittenIs(dst);
      consumed, produced := src.cur, dst.cur - at;
      TakenIs(src, t, data);
      MeansIs(this, status, hasMore, consumed == |data|, produced == size);
    }

    method ReturnBytes()
      requires Valid() && (point.PDone? || point.PFailed? || Pressed(loc))
      modifies src`cur, src`bitBuf, src`numBits, src`taken
      ensures Valid() && src.Offered() == old(src.Offered()) && src.inp == old(src.inp)
      ensures src.cur == 0 || src.numBits < 8
    {
      hide *;
      ValidIs(this);
      FillsIs(this);
      NotFilling(this);
      GiveBytesBack();
      Leave(this);
    }

    /** The inline Adler-32 over the bytes of this call, and the comparison at the end of the stream. */
    method Sum(status0: Status, at: nat, produced: nat) returns (status: Status)
      requires Shape() && Summed() && at + produced <= dst.buf.Length && !status0.BadChecksum?
      modifies this`checkAdler, this`summed
      ensures Summed() && summed == old(summed) + SummedPart(status0, dst.buf[at..at + produced])
      ensures status == if status0.Finished? && cfg.zlib && checkAdler != zAdler then BadChecksum else status0
    {
      hide *;
      SummedIs(this);
      ghost var y := dst.buf[at..at + produced];
      status := status0;
      PartIs(status0, y);
      if cfg.zlib && !status0.Rejected? && !status0.CannotProgress? {
        A.ChecksumConcat(summed, y);
        checkAdler := A.Adler32(checkAdler, dst.buf[at..at + produced]);
        if y == [] {
          assert summed + y == summed;
        }
        if status0.Finished? && checkAdler != zAdler {
          status := BadChecksum;
        }
      } else if status0.Rejected? || status0.CannotProgress? {
        assert summed + [] == summed;
      }
      summed := summed + SummedPart(status0, y);
      SummedIs(this);
    }

    /** The checksum leaves everything else as it was. */
    method Conclude(status0: Status, at: nat, produced: nat) returns (status: Status)
      requires Valid() && Summed() && at + produced <= dst.buf.Length && !status0.BadChecksum?
      modifies this`checkAdler, this`summed
      ensures Valid() && Summed() && summed == old(summed) + SummedPart(status0, dst.buf[at..at + produced])
      ensures status == if status0.Finished? && cfg.zlib && checkAdler != zAdler then BadChecksum else status0
    {
      hide *;
      Enter(this);
      status := Sum(status0, at, produced);
      BeTied(this);
      Leave(this);
    }

    /**
     `tinfl_decompress`: takes what it needs of the input, writes what there is room for, and tells by
     its status why it stopped. At the end of the stream the trailer is compared with the checksum of the
     output of those calls that did not end with an error status.
     */
    method Decompress(data: seq<u8>, at: nat, size: nat, hasMore: bool) returns (status: Status, consumed: nat, produced: nat)
      requires Valid() && Summed() && AreaOk(at, size)
      modifies this, src, dst, dst.buf, litTable, litTable.lookup, litTable.tree
      modifies distTable, distTable.lookup, distTable.tree, clTable, clTable.lookup, clTable.tree
      modifies litSizes, distSizes, clSizes, lenCodes, tableSizes, rawHeader
      ensures Valid() && Summed() && consumed <= |data| && produced <= size && at + size <= dst.buf.Length
      ensures src.taken == old(src.taken) + data[..consumed] && dst.written == old(dst.written) + dst.buf[at..at + produced]
      ensures broken ==> old(broken) || Strays(cfg, BytesToBits(old(src.taken) + data))
      ensures Means(status, hasMore, consumed == |data|, produced == size)
      ensures summed == old(summed) + if status.Rejected? || status.CannotProgress? then [] else dst.buf[at..at + produced]
      ensures old(summed == dst.written) && (produced == 0 || !(status.Rejected? || status.CannotProgress?)) ==> summed == dst.written
      ensures point.PDone? && cfg.zlib ==> (status.Finished? <==> zAdler == A.Checksum(summed))
      ensures status.NeedsMoreInput? || status.CannotProgress? || consumed == 0 || src.numBits < 8
    {
      hide *;
      var status0;
      status0, consumed, produced := Inflate(data, at, size, hasMore);
      ghost var piece := dst.buf[at..at + produced];
      MeansIs(this, status0, hasMore, consumed == |data|, produced == size);
      status := Conclude(status0, at, produced);
      PartIs(status0, piece);
      assert produced == 0 ==> piece == [];
      SummedIs(this);
      MeansIs(this, status, hasMore, consumed == |data|, produced == size);
    }

    /** Bits of input and bytes of room left in this call. */
    ghost function Left(): int
      reads src`numBits, src`inp, src`cur, dst`cur, dst`end
    {
      src.Avail() + (dst.end - dst.cur)
    }
  }

  ghost function AfterTableSize(sizes: seq<nat>, v: nat): Loc
    requires |sizes| <= 2
  {
    var s := sizes + [v + MinTableSize(|sizes|)];
    if |sizes| < 2 then TableSizes(s) else ClLens(s[0], s[1], s[2], NoLens(), 0)
  }

  lemma AfterTableSizeIs(sizes: seq<nat>, v: nat)
    requires |sizes| <= 2
    ensures var s := sizes + [v + MinTableSize(|sizes|)];
      AfterTableSize(sizes, v) == if |sizes| < 2 then TableSizes(s) else ClLens(s[0], s[1], s[2], NoLens(), 0)
  {
  }

  lemma FiveOrFour(k: nat)
    ensures TableSizeBits(k) == if k < 2 then 5 else 4
  {
  }

  lemma MinIs(k: nat, base: nat)
    requires k < 3 && base == if k == 0 then 257 else if k == 1 then 1 else 4
    ensures base == MinTableSize(k)
  {
  }

  lemma TableSizesIs(i: Inflater)
    requires i.Shape()
    ensures i.tableSizes.Length == 3
    ensures i.InTableSizes() ==>
      && i.counter < 3 && i.loc == TableSizes(i.tableSizes[..i.counter])
      && (i.counter > 0 ==> 257 <= i.tableSizes[0] <= 288) && (i.counter > 1 ==> 1 <= i.tableSizes[1] <= 32)
      && TableSizeBits(i.counter) == (if i.counter < 2 then 5 else 4)
  {
  }

  lemma ThreeSizes(a: array<nat>, sizes: seq<nat>, v: nat)
    requires a.Length == 3 && |sizes| == 2 && a[..3] == sizes + [v]
    ensures a[0] == sizes[0] == (sizes + [v])[0] && a[1] == sizes[1] == (sizes + [v])[1] && a[2] == v == (sizes + [v])[2]
  {
    var s := a[..3];
    assert s[0] == a[0] && s[1] == a[1] && s[2] == a[2];
  }

  lemma NextTableSize(i: Inflater, sizes: seq<nat>, v: nat)
    requires i.Shape() && 1 <= i.counter < 3 && i.tableSizes[..i.counter] == sizes + [v] && i.loc == TableSizes(sizes + [v])
    requires if i.counter == 1 then 257 <= i.tableSizes[0] <= 288 else 257 <= i.tableSizes[0] <= 288 && 1 <= i.tableSizes[1] <= 32
    ensures i.InTableSizes()
  {
  }

  method ClearSizes(a: array<nat>)
    modifies a
    ensures forall k :: 0 <= k < a.Length ==> a[k] == 0
  {
    for k := 0 to a.Length
      invariant forall j :: 0 <= j < k ==> a[j] == 0
    {
      a[k] := 0;
    }
  }

  lemma StartClLens(i: Inflater)
    requires i.Shape() && i.counter == 0 && forall k :: 0 <= k < 19 ==> i.clSizes[k] == 0
    requires 257 <= i.tableSizes[0] <= 288 && 1 <= i.tableSizes[1] <= 32 && 4 <= i.tableSizes[2] <= 19
    requires i.loc == ClLens(i.tableSizes[0], i.tableSizes[1], i.tableSizes[2], NoLens(), 0)
    ensures i.InClLens()
  {
    assert i.clSizes[..] == NoLens();
  }

  ghost function AfterClLen(l: Loc, v: nat): Loc
    requires l.ClLens? && l.k < 19 && |l.cl| == 19
  {
    var cl := l.cl[Zig(l.k) := v];
    if l.k + 1 < l.n2 then ClLens(l.n0, l.n1, l.n2, cl, l.k + 1) else if TableOk(cl) then LenCodes(l.n0, l.n1, cl, []) else Failed
  }

  lemma AfterClLenIs(l: Loc, v: nat)
    requires l.ClLens? && l.k < 19 && |l.cl| == 19
    ensures var cl := l.cl[Zig(l.k) := v];
      AfterClLen(l, v) == if l.k + 1 < l.n2 then ClLens(l.n0, l.n1, l.n2, cl, l.k + 1) else if TableOk(cl) then LenCodes(l.n0, l.n1, cl, []) else Failed
  {
  }

  lemma ClLensIs(i: Inflater)
    requires i.Shape()
    ensures i.tableSizes.Length == 3 && i.clSizes.Length == 19
    ensures i.InClLens() ==>
      && i.SizesOk() && i.counter < i.tableSizes[2] <= 19 && (forall k :: 0 <= k < 19 ==> i.clSizes[k] < 8)
      && i.loc == ClLens(i.tableSizes[0], i.tableSizes[1], i.tableSizes[2], i.clSizes[..], i.counter)
  {
  }

  lemma SizesAre(i: Inflater)
    requires i.Shape()
    ensures i.SizesOk() <==> 257 <= i.tableSizes[0] <= 288 && 1 <= i.tableSizes[1] <= 32 && 4 <= i.tableSizes[2] <= 19
  {
  }

  lemma NextClLen(i: Inflater)
    requires i.Shape() && i.SizesOk() && i.counter < i.tableSizes[2] && (forall k :: 0 <= k < 19 ==> i.clSizes[k] < 8)
    requires i.loc == ClLens(i.tableSizes[0], i.tableSizes[1], i.tableSizes[2], i.clSizes[..], i.counter)
    ensures i.InClLens()
  {
  }

  lemma ClLensUp(a: array<nat>)
    requires a.Length == 19 && forall k :: 0 <= k < 19 ==> a[k] < 8
    ensures LensUpTo(a[..19], 15) && LensUpTo(a[..], 15)
  {
  }

  lemma StartLenCodes(i: Inflater)
    requires i.Shape() && i.counter == 0 && i.clTable.Valid() && |i.clTable.lens| == 19
    requires 257 <= i.tableSizes[0] <= 288 && 1 <= i.tableSizes[1] <= 32 && i.tableSizes[2] == 19
    requires i.loc == LenCodes(i.tableSizes[0], i.tableSizes[1], i.clTable.lens, [])
    ensures i.InLenCodes()
  {
    hide DecodeTable.Valid;
    assert i.lenCodes[..0] == [];
  }

  /** A step on a code just read. */
  lemma RunsCode(i: Inflater, lens: seq<nat>, p: seq<bool>, sym: nat, len: nat, next: Loc)
    requires i.src.Valid() && i.RunWith(p) && ReadCode(lens, p, sym, len, i.src.Pending()) && TableOk(lens)
    requires ByCode(i.cfg, CoreBefore(i, len), lens, len, sym, To(CoreBefore(i, len), next, len))
    ensures RunsTo(i.cfg, true, i.src.taken, next, i.dst.written, i.final, i.src.Pending())
    ensures i.broken || Strays(i.cfg, BytesToBits(i.src.taken)) || RunsTo(i.cfg, false, i.src.taken, next, i.dst.written, i.final, i.src.Pending())
  {
    hide Sound, Ran, BytesToBits, ToBits, Pow2, Wants, Next, Kraft, TableOk, Begins, Strays, Settles, Lands, MayRead, NoSuchCode;
    var bits, c := BytesToBits(i.src.taken), CoreBefore(i, len);
    var d := To(c, next, len);
    CodeRead(c, lens, p, sym, len, i.src.Pending());
    RanRead(i.cfg, bits, c, p, sym, len, d);
    if !i.broken {
      if NoSuchCode(c, p) {
        StraysNoCode(i.cfg, bits, c, p);
      } else {
        BeginsLength(lens, p, sym);
        D.TableOkKraft(lens);
        SoundCode(i.cfg, bits, c, d, lens, sym, p);
      }
    }
  }

  lemma StraysNoCode(cfg: Config, bits: seq<bool>, c: Core, p: seq<bool>)
    requires Sound(cfg, bits, c, p) && NoSuchCode(c, p)
    ensures Strays(cfg, bits)
  {
    hide Sound, NoSuchCode;
    BeStray(cfg, bits, c, p);
  }

  lemma EitherRuns(cfg: Config, b: bool, taken: seq<u8>, loc: Loc, out: seq<u8>, final: bool, p: seq<bool>)
    requires RunsTo(cfg, true, taken, loc, out, final, p) && (b || RunsTo(cfg, false, taken, loc, out, final, p))
    ensures RunsTo(cfg, b, taken, loc, out, final, p)
  {
    hide Sound, Ran, BytesToBits;
  }

  lemma BeginsLength(lens: seq<nat>, p: seq<bool>, sym: nat)
    requires Begins(lens, p, sym)
    ensures sym < |lens| && lens[sym] > 0
  {
  }

  /** What strays does so with the rest of the input. */
  lemma StrayDooms(i: Inflater)
    requires i.src.Valid()
    ensures Strays(i.cfg, BytesToBits(i.src.taken)) ==> i.Doomed()
  {
    hide Strays, BytesToBits;
    var rest := i.src.inp[i.src.cur..];
    BytesToBitsConcat(i.src.taken, rest);
    if Strays(i.cfg, BytesToBits(i.src.taken)) {
      StraysLonger(i.cfg, BytesToBits(i.src.taken), BytesToBits(rest));
    }
  }

  lemma TableGood(t: DecodeTable)
    requires t.Valid()
    ensures TableOk(t.lens)
  {
  }

  ghost function AfterLenCode(l: Loc, v: nat): Loc
    requires l.LenCodes?
  {
    if v < 16 then MoreLens(l.n0, l.n1, l.cl, l.lens + [v]) else if v == 16 && l.lens == [] then Failed else LenRun(l.n0, l.n1, l.cl, l.lens, v)
  }

  lemma AfterLenCodeIs(l: Loc, v: nat)
    requires l.LenCodes?
    ensures AfterLenCode(l, v) == if v < 16 then MoreLens(l.n0, l.n1, l.cl, l.lens + [v])
                                  else if v == 16 && l.lens == [] then Failed else LenRun(l.n0, l.n1, l.cl, l.lens, v)
  {
  }

  lemma LenTableIs(i: Inflater)
    requires i.Shape()
    ensures i.LenTable() <==>
      && i.SizesOk() && i.clTable.Valid() && |i.clTable.lens| == 19 && i.counter < i.tableSizes[0] + i.tableSizes[1]
      && forall k :: 0 <= k < i.counter ==> i.lenCodes[k] <= 15
    ensures i.LenTable() ==> i.counter < 320
  {
    hide DecodeTable.Valid;
  }

  lemma LenCodesIs(i: Inflater)
    requires i.Shape()
    ensures i.InLenCodes() ==>
      && i.LenTable() && i.clTable.Valid() && |i.clTable.lens| == 19 && i.counter < 320
      && i.loc == LenCodes(i.tableSizes[0], i.tableSizes[1], i.clTable.lens, i.lenCodes[..i.counter])
  {
    hide DecodeTable.Valid;
  }

  lemma EnterLenCodes(i: Inflater)
    requires i.Valid() && i.point.PLenCodes?
    ensures i.Shape() && i.src.Valid() && i.dst.Valid() && i.RunWith(i.src.Pending()) && i.zAdler == 1
    ensures i.Waits(i.clTable.lens) && i.clTable.Valid() && |i.clTable.lens| == 19 && i.LenTable() && i.counter < 320
    ensures i.Shape() ==> i.loc == LenCodes(i.tableSizes[0], i.tableSizes[1], i.clTable.lens, i.lenCodes[..i.counter])
  {
    hide *;
    FillsIs(i);
    WaitsIs(i, i.clTable.lens);
    ValidIs(i);
    ShapeIs(i);
    TieIs(i);
    LenCodesIs(i);
  }

  lemma LeaveLenCodes(i: Inflater)
    requires i.Shape() && i.src.Valid() && i.dst.Valid() && i.RunWith(i.src.Pending())
    requires if i.filling then i.point.PLenCodes? && i.Waits(i.clTable.lens) && i.zAdler == 1 && i.LenTable() && i.counter < 320
                 && i.loc == LenCodes(i.tableSizes[0], i.tableSizes[1], i.clTable.lens, i.lenCodes[..i.counter])
             else i.Tie()
    ensures i.Valid()
  {
    hide *;
    ShapeIs(i);
    if i.filling {
      StillLenCodes(i);
      TieIs(i);
    }
    FillsIs(i);
    ValidIs(i);
  }

  lemma StillLenCodes(i: Inflater)
    requires i.Shape() && i.LenTable() && i.counter < 320
    requires i.loc == LenCodes(i.tableSizes[0], i.tableSizes[1], i.clTable.lens, i.lenCodes[..i.counter])
    ensures i.InLenCodes()
  {
  }

  lemma StillLengths(i: Inflater)
    requires i.Shape() && i.SizesOk() && i.clTable.Valid() && |i.clTable.lens| == 19 && i.counter < i.tableSizes[0] + i.tableSizes[1]
    requires i.counter <= 457 && i.loc == LenCodes(i.tableSizes[0], i.tableSizes[1], i.clTable.lens, i.lenCodes[..i.counter])
    requires forall k :: 0 <= k < i.counter ==> i.lenCodes[k] <= 15
    ensures i.InLenCodes()
  {
    hide DecodeTable.Valid;
  }

  lemma SmallLens(i: Inflater)
    requires i.Shape() && 0 < i.counter <= 457 && i.lenCodes[i.counter - 1] <= 15 && forall k :: 0 <= k < i.counter - 1 ==> i.lenCodes[k] <= 15
    ensures forall k :: 0 <= k < i.counter ==> i.lenCodes[k] <= 15
  {
  }

  lemma NoneBefore(i: Inflater)
    requires i.Shape() && i.counter == 0
    ensures i.lenCodes[..i.counter] == []
  {
  }

  lemma StartLenRun(i: Inflater)
    requires i.Shape() && i.LenTable() && i.counter < 320 && 16 <= i.dist <= 18 && (i.dist == 16 ==> i.counter > 0)
    requires i.numExtra == if i.dist == 16 then 2 else if i.dist == 17 then 3 else 7
    requires i.loc == if i.dist == 16 && i.lenCodes[..i.counter] == [] then Failed
                      else LenRun(i.tableSizes[0], i.tableSizes[1], i.clTable.lens, i.lenCodes[..i.counter], i.dist)
    ensures i.InLenRun()
  {
    hide Inflater.LenTable;
    LenTableIs(i);
  }

  lemma LenRunIs(i: Inflater)
    requires i.Shape()
    ensures i.InLenRun() ==>
      && i.LenTable() && 16 <= i.dist <= 18 && (i.dist == 16 ==> i.counter > 0) && i.numExtra == ExtraBits(i.dist) && i.counter < 320
      && i.loc == LenRun(i.tableSizes[0], i.tableSizes[1], i.clTable.lens, i.lenCodes[..i.counter], i.dist)
  {
    hide DecodeTable.Valid;
  }

  lemma EnterLenRun(i: Inflater)
    requires i.Valid() && i.point.PLenRun?
    ensures i.Shape() && i.src.Valid() && i.dst.Valid() && i.RunWith(i.src.Pending()) && i.zAdler == 1 && !i.filling
    ensures i.LenTable() && 16 <= i.dist <= 18 && (i.dist == 16 ==> i.counter > 0) && i.numExtra == ExtraBits(i.dist)
    ensures i.Shape() && i.loc == LenRun(i.tableSizes[0], i.tableSizes[1], i.clTable.lens, i.lenCodes[..i.counter], i.dist)
  {
    hide *;
    Enter(i);
    ShapeIs(i);
    LenRunIs(i);
  }

  lemma LeaveLenRun(i: Inflater, stored: bool)
    requires i.Shape() && i.src.Valid() && i.dst.Valid() && i.RunWith(i.src.Pending()) && !i.filling
    requires !stored ==> i.point.PLenRun? && i.zAdler == 1 && i.LenTable() && 16 <= i.dist <= 18 && (i.dist == 16 ==> i.counter > 0)
    requires !stored ==> i.numExtra == ExtraBits(i.dist) && i.loc == LenRun(i.tableSizes[0], i.tableSizes[1], i.clTable.lens, i.lenCodes[..i.counter], i.dist)
    requires stored ==> i.Tie()
    ensures i.Valid()
  {
    hide *;
    if !stored {
      StillLenRun(i);
      TiedByTables(i);
    }
    Leave(i);
  }

  lemma StillLenRun(i: Inflater)
    requires i.Shape() && i.LenTable() && 16 <= i.dist <= 18 && (i.dist == 16 ==> i.counter > 0) && i.numExtra == ExtraBits(i.dist)
    requires i.loc == LenRun(i.tableSizes[0], i.tableSizes[1], i.clTable.lens, i.lenCodes[..i.counter], i.dist)
    ensures i.InLenRun()
  {
    hide Inflater.LenTable;
  }

  lemma MoreLensIs(i: Inflater)
    requires i.Shape() && i.counter <= 457
    ensures var n0, n1, lens := i.tableSizes[0], i.tableSizes[1], i.lenCodes[..i.counter];
      MoreLens(n0, n1, i.clTable.lens, lens) == if i.counter < n0 + n1 then LenCodes(n0, n1, i.clTable.lens, lens)
        else if i.counter != n0 + n1 || !TableOk(lens[n0..]) || !TableOk(lens[..n0]) then Failed else Symbol(lens[..n0], lens[n0..])
  {
    hide TableOk;
  }

  method CopyLengths(a: array<nat>, b: array<nat>, at: nat, n: nat)
    requires n <= a.Length && at + n <= b.Length && a != b
    modifies a
    ensures a[..n] == b[at..at + n]
  {
    for k := 0 to n
      invariant forall j :: 0 <= j < k ==> a[j] == b[at + j]
    {
      a[k] := b[at + k];
    }
  }

  lemma SplitLengths(a: array<nat>, n: nat, n0: nat)
    requires n0 <= n <= a.Length && forall k :: 0 <= k < n ==> a[k] <= 15
    ensures a[..n][..n0] == a[0..n0] && a[..n][n0..] == a[n0..n] && LensUpTo(a[0..n0], 15) && LensUpTo(a[n0..n], 15)
  {
  }

  lemma BuiltTables(i: Inflater)
    requires i.Shape() && i.SizesOk() && i.litTable.Valid() && i.distTable.Valid() && i.tableSizes[0] <= 288 && i.tableSizes[1] <= 32
    requires |i.litTable.lens| == i.tableSizes[0] && |i.distTable.lens| == i.tableSizes[1] && i.loc == Symbol(i.litTable.lens, i.distTable.lens)
    ensures i.Tables(Symbol(i.litTable.lens, i.distTable.lens))
  {
    hide DecodeTable.Valid;
  }

  ghost function AfterLenRun(l: Loc, v: nat): Loc
    requires l.LenRun?
  {
    MoreLens(l.n0, l.n1, l.cl, l.lens + ItemLens(l.lens, Item(l.sym, v)))
  }

  lemma AfterLenRunIs(l: Loc, v: nat)
    requires l.LenRun?
    ensures AfterLenRun(l, v) == MoreLens(l.n0, l.n1, l.cl, l.lens + ItemLens(l.lens, Item(l.sym, v)))
  {
  }

  lemma RunExtra(sym: nat)
    requires 16 <= sym <= 18
    ensures 2 <= ExtraBits(sym) <= 7 && Pow2(ExtraBits(sym)) <= 128
    ensures sym == 16 ==> Pow2(ExtraBits(sym)) == 4
    ensures sym == 17 ==> Pow2(ExtraBits(sym)) == 8
  {
    Pow2Values();
  }

  lemma RunIs(lens: seq<nat>, sym: nat, s: nat, n: nat, v: nat)
    requires 16 <= sym <= 18 && n == s + (if sym == 18 then 11 else 3) && (sym == 16 ==> lens != [])
    requires v == if sym == 16 then lens[|lens| - 1] else 0
    ensures ItemLens(lens, Item(sym, s)) == Rep(v, n)
  {
  }

  /** `memset` over the next `n` lengths */
  method FillRun(a: array<nat>, at: nat, n: nat, v: nat)
    requires at + n <= a.Length
    modifies a
    ensures a[..at + n] == old(a[..at]) + Rep(v, n)
  {
    for k := 0 to n
      invariant forall j :: 0 <= j < at ==> a[j] == old(a[j])
      invariant forall j :: at <= j < at + k ==> a[j] == v
    {
      a[at + k] := v;
    }
  }

  lemma RunSmall(a: array<nat>, s: seq<nat>, at: nat, n: nat, v: nat)
    requires at + n <= a.Length && v <= 15 && |s| == at && a[..at + n] == s + Rep(v, n)
    requires forall k :: 0 <= k < at ==> s[k] <= 15
    ensures forall k :: 0 <= k < at + n ==> a[k] <= 15
  {
    forall k | 0 <= k < at + n
      ensures a[k] <= 15
    {
      assert a[k] == (s + Rep(v, n))[k];
    }
  }

  lemma TablesAre(i: Inflater, l: Loc)
    ensures i.Tables(l) <==> i.litTable.Valid() && i.distTable.Valid() && |i.litTable.lens| <= 288 && |i.distTable.lens| <= 32 && i.loc == l
  {
    hide DecodeTable.Valid;
  }

  ghost function AfterSymbol(l: Loc, final: bool, v: nat): Loc
    requires l.Symbol? && v < 288
  {
    if v < 256 then Emit(l.lit, l.dist, v)
    else if v == 256 then if final then EndAlign else Header
    else if LengthExtra(v - 257) == 0 then DistSymbol(l.lit, l.dist, LengthBase(v - 257))
    else LengthBits(l.lit, l.dist, LengthBase(v - 257), LengthExtra(v - 257))
  }

  lemma AfterSymbolIs(l: Loc, final: bool, v: nat)
    requires l.Symbol? && v < 288
    ensures AfterSymbol(l, final, v) ==
      if v < 256 then Emit(l.lit, l.dist, v)
      else if v == 256 then if final then EndAlign else Header
      else if LengthExtra(v - 257) == 0 then DistSymbol(l.lit, l.dist, LengthBase(v - 257))
      else LengthBits(l.lit, l.dist, LengthBase(v - 257), LengthExtra(v - 257))
  {
  }

  lemma SymbolStep(cfg: Config, c: Core, len: nat, v: nat)
    requires c.loc.Symbol? && v < 288
    ensures ByCode(cfg, c, c.loc.lit, len, v, To(c, AfterSymbol(c.loc, c.final, v), len))
  {
    hide *;
    AtSymbol(cfg, c, c.loc.lit, c.loc.dist, len, v);
    AfterSymbolIs(c.loc, c.final, v);
    AfterBlockIs(To(c, c.loc, len));
  }

  lemma CodeLength(lens: seq<nat>, p: seq<bool>, sym: nat, len: nat, src: BitSource)
    requires src.Valid() && ReadCode(lens, p, sym, len, src.Pending())
    ensures |p| == src.numBits + len
  {
    hide Settles;
  }

  function Least(a: nat, b: nat): (m: nat)
    ensures m <= a && m <= b && (m == a || m == b)
  {
    if a <= b then a else b
  }

  lemma LeftIs(i: Inflater)
    ensures i.Left() == i.src.Avail() + (i.dst.end - i.dst.cur)
  {
  }

  lemma OutIs(o: Output)
    requires o.Valid()
    ensures o.cur <= o.end <= o.buf.Length
  {
  }

  lemma SrcIs(s: BitSource)
    requires s.Valid()
    ensures s.cur <= |s.inp| && s.numBits < 64 && s.Avail() == s.numBits + 8 * (|s.inp| - s.cur)
  {
  }

  lemma AvailIs(s: BitSource)
    ensures s.Avail() == s.numBits + 8 * (|s.inp| - s.cur)
  {
  }

  lemma NoRaw(a: array<nat>)
    ensures a[..0] == []
  {
  }

  lemma AllFour(a: array<nat>, bytes: seq<nat>, v: nat)
    requires a.Length == 4 && |bytes| == 3 && a[..4] == bytes + [v]
    ensures a[0] == bytes[0] && a[1] == bytes[1] && a[2] == bytes[2] && a[3] == v
  {
    var s := a[..4];
    assert s[0] == a[0] && s[1] == a[1] && s[2] == a[2] && s[3] == a[3];
  }

  lemma ByteAlone(b: u8, p: seq<bool>)
    requires p == []
    ensures p + BytesToBits([b]) == ToBits(b, 8) + p
  {
    D.OneByte(b);
  }

  lemma RunLength(i: Inflater, pending: seq<bool>)
    requires i.RunWith(pending)
    ensures |pending| <= 8 * |i.src.taken|
  {
  }

  /** Skipping `num_bits & 7` bits reaches the byte boundary. */
  lemma AlignedAfter(i: Inflater, n: nat, avail: int)
    requires i.src.Valid() && n < 8 && i.src.Avail() == avail - n && n == avail % 8
    requires i.src.numBits + n <= 8 * |i.src.taken|
    ensures ToByteBoundary(CoreBefore(i, n).pos) == n
  {
    hide BitSource.Valid;
    AvailIs(i.src);
    Boundary(|i.src.taken|, i.src.numBits, n, |i.src.inp| - i.src.cur, avail);
  }

  lemma Boundary(bytes: nat, numBits: nat, n: nat, rest: int, avail: int)
    requires n < 8 && numBits + 8 * rest == avail - n && n == avail % 8 && numBits + n <= 8 * bytes
    ensures ToByteBoundary(8 * bytes - numBits - n) == n
  {
  }

  lemma AfterBlockIs(c: Core)
    ensures AfterBlock(c) == Core(if c.final then EndAlign else Header, c.pos, c.out, c.final)
  {
  }

  /** A step that reads nothing. */
  lemma RunsFreely(i: Inflater, loc: Loc, out: seq<u8>)
    requires i.RunWith(i.src.Pending())
    requires Freely(i.cfg, CoreBefore(i, 0), Core(loc, CoreBefore(i, 0).pos, out, i.final))
    ensures RunsTo(i.cfg, i.broken, i.src.taken, loc, out, i.final, i.src.Pending())
  {
    hide *;
    RunsFreelyBefore(i, 0, i.src.Pending(), loc, out);
  }

  lemma RunsFreelyBefore(i: Inflater, back: nat, p: seq<bool>, loc: Loc, out: seq<u8>)
    requires i.RunWith(p) && |p| == i.src.numBits + back
    requires Freely(i.cfg, CoreBefore(i, back), Core(loc, CoreBefore(i, back).pos, out, i.final))
    ensures RunsTo(i.cfg, i.broken, i.src.taken, loc, out, i.final, p)
  {
    hide Sound, Ran, BytesToBits, ToBits, Pow2, Wants, Next;
    RanFreely(i.cfg, BytesToBits(i.src.taken), CoreBefore(i, back), Core(loc, CoreBefore(i, back).pos, out, i.final), p);
    if !i.broken {
      SoundNothing(i.cfg, BytesToBits(i.src.taken), CoreBefore(i, back), Core(loc, CoreBefore(i, back).pos, out, i.final), p);
    }
  }

  lemma ShapeIs(i: Inflater)
    ensures i.Shape() ==>
      && i.dst.wraps == i.cfg.wraps && (i.cfg.wraps ==> i.cfg.window == i.dst.buf.Length)
      && i.litTable.Shape() && i.distTable.Shape() && i.clTable.Shape()
      && i.litTable.tree.Length == 576 && i.distTable.tree.Length == 64 && i.clTable.tree.Length == 38
      && i.litSizes.Length == 288 && i.distSizes.Length == 32 && i.clSizes.Length == 19
      && i.lenCodes.Length == 457 && i.tableSizes.Length == 3 && i.rawHeader.Length == 4
      && i.litTable != i.distTable && i.litTable != i.clTable && i.distTable != i.clTable
      && i.litTable.lookup != i.distTable.lookup && i.litTable.lookup != i.clTable.lookup && i.distTable.lookup != i.clTable.lookup
    ensures DecodeTree.MAX_LEN == 15
    ensures i.Shape() ==> i.litTable.lookup.Length == i.distTable.lookup.Length == i.clTable.lookup.Length == 1024
  {
  }

  /** The fixed code lengths of section 3.2.6 of RFC 1951. */
  method FillFixed(lit: array<nat>, dist: array<nat>)
    requires lit.Length == 288 && dist.Length == 32 && lit != dist
    modifies lit, dist
    ensures lit[..] == FixedLit() && dist[..] == FixedDist()
  {
    for i := 0 to 288
      invariant forall k :: 0 <= k < i ==> lit[k] == if k <= 143 then 8 else if k <= 255 then 9 else if k <= 279 then 7 else 8
    {
      lit[i] := if i <= 143 then 8 else if i <= 255 then 9 else if i <= 279 then 7 else 8;
    }
    for i := 0 to 32
      invariant forall k :: 0 <= k < i ==> dist[k] == 5
      invariant forall k :: 0 <= k < 288 ==> lit[k] == if k <= 143 then 8 else if k <= 255 then 9 else if k <= 279 then 7 else 8
    {
      dist[i] := 5;
    }
  }

  lemma FixedTablesOk()
    ensures TableOk(FixedLit()) && TableOk(FixedDist()) && LensUpTo(FixedLit(), 15) && LensUpTo(FixedDist(), 15)
    ensures |FixedLit()| == 288 && |FixedDist()| == 32
  {
    hide FixedLit, FixedDist, UsedSyms, Used;
    D.FixedComplete();
  }

  function AfterType(type_: nat): Loc
  {
    if type_ == 0 then RawAlign else if type_ == 1 then Symbol(FixedLit(), FixedDist()) else if type_ == 2 then TableSizes([]) else Failed
  }

  lemma AfterTypeIs(type_: nat)
    ensures AfterType(type_) == if type_ == 0 then RawAlign else if type_ == 1 then Symbol(FixedLit(), FixedDist()) else if type_ == 2 then TableSizes([]) else Failed
  {
  }

  lemma FixedTables(i: Inflater)
    requires i.loc == Symbol(FixedLit(), FixedDist()) && i.litTable.Valid() && i.litTable.lens == FixedLit()
    requires i.distTable.Valid() && i.distTable.lens == FixedDist()
    ensures i.Tables(Symbol(i.litTable.lens, i.distTable.lens))
  {
    hide FixedLit, FixedDist, DecodeTable.Valid;
    FixedTablesOk();
  }

  lemma NoSizesYet(i: Inflater)
    requires i.Shape() && i.counter == 0 && i.loc == TableSizes([])
    ensures i.InTableSizes()
  {
  }

  lemma ValidIs(i: Inflater)
    ensures i.Valid() <==>
      && i.Shape() && i.src.Valid() && i.dst.Valid() && i.RunWith(i.src.Pending()) && i.Tie()
      && i.FillsOk()
  {
  }

  lemma TieIs(i: Inflater)
    requires i.Shape()
    ensures i.Tie() <==>
      && i.zAdler < 0x1_0000_0000 && (i.zAdler == 1 || i.point.PTrailer? || i.point.PDone? || i.point.PFailed?)
      && match i.point
         case PZHeader0 => i.loc == ZHeader0
         case PZHeader1 => i.loc == ZHeader1(i.zhdr0)
         case PHeader => i.loc == Header
         case PRawAlign => i.loc == RawAlign
         case PRawHeader => i.counter < 4 && i.rawHeader.Length == 4 && i.loc == RawHeader(i.rawHeader[..i.counter])
         case PRawCopy => i.loc == RawCopy(i.counter)
         case PRawByte => i.counter > 0 && i.dist < 256 && i.loc == RawByte(i.counter, i.dist)
         case PTableSizes => i.InTableSizes()
         case PClLens => i.InClLens()
         case PLenCodes => i.InLenCodes()
         case PLenRun => i.InLenRun()
         case PSymbol => i.Tables(Symbol(i.litTable.lens, i.distTable.lens))
         case PEmit => i.counter < 256 && i.Tables(Emit(i.litTable.lens, i.distTable.lens, i.counter))
         case PLengthBits => i.numExtra <= 5 && i.Tables(LengthBits(i.litTable.lens, i.distTable.lens, i.counter, i.numExtra))
         case PDistSymbol => i.Tables(DistSymbol(i.litTable.lens, i.distTable.lens, i.counter))
         case PDistBits => i.numExtra <= 13 && i.dist + Pow2(i.numExtra) <= DICT_SIZE + 1
                           && i.Tables(DistBits(i.litTable.lens, i.distTable.lens, i.counter, i.dist, i.numExtra))
         case PCopying => i.InCopying()
         case PEndAlign => i.loc == EndAlign
         case PTrailer => i.counter < 4 && i.cfg.zlib && i.loc == Trailer(i.counter, i.zAdler)
         case PDone => (i.cfg.zlib || i.zAdler == 1) && i.loc == Done(i.zAdler)
         case PFailed => i.loc == Failed
  {
  }

  /** Where a valid inflater stands. */
  lemma Enter(i: Inflater)
    requires i.Valid()
    ensures i.Shape() && i.src.Valid() && i.dst.Valid() && i.RunWith(i.src.Pending())
    ensures i.filling ==>
      || (i.point.PLenCodes? && i.Waits(i.clTable.lens)) || (i.point.PSymbol? && i.Waits(i.litTable.lens)) || (i.point.PDistSymbol? && i.Waits(i.distTable.lens))
    ensures i.Shape() ==>
      && i.zAdler < 0x1_0000_0000 && (i.zAdler == 1 || i.point.PTrailer? || i.point.PDone? || i.point.PFailed?)
      && match i.point
         case PZHeader0 => i.loc == ZHeader0
         case PZHeader1 => i.loc == ZHeader1(i.zhdr0)
         case PHeader => i.loc == Header
         case PRawAlign => i.loc == RawAlign
         case PRawHeader => i.counter < 4 && i.rawHeader.Length == 4 && i.loc == RawHeader(i.rawHeader[..i.counter])
         case PRawCopy => i.loc == RawCopy(i.counter)
         case PRawByte => i.counter > 0 && i.dist < 256 && i.loc == RawByte(i.counter, i.dist)
         case PTableSizes => i.InTableSizes()
         case PClLens => i.InClLens()
         case PLenCodes => i.InLenCodes()
         case PLenRun => i.InLenRun()
         case PSymbol => i.Tables(Symbol(i.litTable.lens, i.distTable.lens))
         case PEmit => i.counter < 256 && i.Tables(Emit(i.litTable.lens, i.distTable.lens, i.counter))
         case PLengthBits => i.numExtra <= 5 && i.Tables(LengthBits(i.litTable.lens, i.distTable.lens, i.counter, i.numExtra))
         case PDistSymbol => i.Tables(DistSymbol(i.litTable.lens, i.distTable.lens, i.counter))
         case PDistBits => i.numExtra <= 13 && i.dist + Pow2(i.numExtra) <= DICT_SIZE + 1
                           && i.Tables(DistBits(i.litTable.lens, i.distTable.lens, i.counter, i.dist, i.numExtra))
         case PCopying => i.InCopying()
         case PEndAlign => i.loc == EndAlign
         case PTrailer => i.counter < 4 && i.cfg.zlib && i.loc == Trailer(i.counter, i.zAdler)
         case PDone => (i.cfg.zlib || i.zAdler == 1) && i.loc == Done(i.zAdler)
         case PFailed => i.loc == Failed
  {
    hide *;
    FillsIs(i);
    ValidIs(i);
    TieIs(i);
  }

  lemma BeTied(i: Inflater)
    requires i.Shape()
    requires
      && i.zAdler < 0x1_0000_0000 && (i.zAdler == 1 || i.point.PTrailer? || i.point.PDone? || i.point.PFailed?)
      && match i.point
         case PZHeader0 => i.loc == ZHeader0
         case PZHeader1 => i.loc == ZHeader1(i.zhdr0)
         case PHeader => i.loc == Header
         case PRawAlign => i.loc == RawAlign
         case PRawHeader => i.counter < 4 && i.rawHeader.Length == 4 && i.loc == RawHeader(i.rawHeader[..i.counter])
         case PRawCopy => i.loc == RawCopy(i.counter)
         case PRawByte => i.counter > 0 && i.dist < 256 && i.loc == RawByte(i.counter, i.dist)
         case PTableSizes => i.InTableSizes()
         case PClLens => i.InClLens()
         case PLenCodes => i.InLenCodes()
         case PLenRun => i.InLenRun()
         case PSymbol => i.Tables(Symbol(i.litTable.lens, i.distTable.lens))
         case PEmit => i.counter < 256 && i.Tables(Emit(i.litTable.lens, i.distTable.lens, i.counter))
         case PLengthBits => i.numExtra <= 5 && i.Tables(LengthBits(i.litTable.lens, i.distTable.lens, i.counter, i.numExtra))
         case PDistSymbol => i.Tables(DistSymbol(i.litTable.lens, i.distTable.lens, i.counter))
         case PDistBits => i.numExtra <= 13 && i.dist + Pow2(i.numExtra) <= DICT_SIZE + 1
                           && i.Tables(DistBits(i.litTable.lens, i.distTable.lens, i.counter, i.dist, i.numExtra))
         case PCopying => i.InCopying()
         case PEndAlign => i.loc == EndAlign
         case PTrailer => i.counter < 4 && i.cfg.zlib && i.loc == Trailer(i.counter, i.zAdler)
         case PDone => (i.cfg.zlib || i.zAdler == 1) && i.loc == Done(i.zAdler)
         case PFailed => i.loc == Failed
    ensures i.Tie()
  {
    hide *;
    TieIs(i);
  }

  /** At the points where tables are read or used. */
  lemma TiedByTables(i: Inflater)
    requires i.Shape() && i.zAdler == 1
    requires
      || (i.point.PFailed? && i.loc == Failed) || (i.point.PSymbol? && i.Tables(Symbol(i.litTable.lens, i.distTable.lens)))
      || (i.point.PCopying? && i.InCopying()) || (i.point.PTableSizes? && i.InTableSizes()) || (i.point.PClLens? && i.InClLens())
      || (i.point.PLenCodes? && i.InLenCodes()) || (i.point.PLenRun? && i.InLenRun())
    ensures i.Tie()
  {
    hide *;
    TieIs(i);
  }

  lemma Leave(i: Inflater)
    requires i.Shape() && i.src.Valid() && i.dst.Valid() && i.RunWith(i.src.Pending()) && i.Tie()
    requires i.filling ==>
      || (i.point.PLenCodes? && i.Waits(i.clTable.lens)) || (i.point.PSymbol? && i.Waits(i.litTable.lens)) || (i.point.PDistSymbol? && i.Waits(i.distTable.lens))
    ensures i.Valid()
  {
    hide *;
    FillsIs(i);
    ValidIs(i);
  }

  /** The machine before it read the last `n` bits. */
  ghost function CoreBefore(i: Inflater, n: nat): (c: Core)
    ensures c.loc == i.loc && c.out == i.dst.written && c.final == i.final
    reads i`loc, i`final, i.src`taken, i.src`bitBuf, i.src`numBits, i.dst`written
  {
    Core(i.loc, if 8 * |i.src.taken| >= i.src.numBits + n then 8 * |i.src.taken| - i.src.numBits - n else 0, i.dst.written, i.final)
  }

  /** A step on bits just read. */
  lemma RunsBits(i: Inflater, n: nat, v: nat, loc: Loc, final: bool)
    requires i.RunWith(ToBits(v, n) + i.src.Pending()) && v < Pow2(n)
    requires ByBits(i.cfg, CoreBefore(i, n), n, v, To(CoreBefore(i, n), loc, n).(final := final))
    ensures RunsTo(i.cfg, i.broken, i.src.taken, loc, i.dst.written, final, i.src.Pending())
  {
    hide Sound, Ran, BytesToBits, ToBits, Pow2, Wants, Next;
    RanBits(i.cfg, BytesToBits(i.src.taken), CoreBefore(i, n), To(CoreBefore(i, n), loc, n).(final := final), n, v, i.src.Pending());
    if !i.broken {
      SoundBits(i.cfg, BytesToBits(i.src.taken), CoreBefore(i, n), To(CoreBefore(i, n), loc, n).(final := final), n, v, i.src.Pending());
    }
  }

  lemma IsRunWith(i: Inflater, pending: seq<bool>)
    ensures i.RunWith(pending) <==> RunsTo(i.cfg, i.broken, i.src.taken, i.loc, i.dst.written, i.final, pending)
  {
  }

  /**
     The bytes taken lead the code here, with `pending` unread; unless it is `broken`, by steps of the
     machine alone.
   */
  ghost predicate RunsTo(cfg: Config, broken: bool, taken: seq<u8>, loc: Loc, out: seq<u8>, final: bool, pending: seq<bool>)
  {
    |pending| <= 8 * |taken| && var c := Core(loc, 8 * |taken| - |pending|, out, final);
      Ran(cfg, BytesToBits(taken), c, pending) && (broken || Sound(cfg, BytesToBits(taken), c, pending))
  }

  /** Bytes taken into the bit buffer do not move the machine. */
  lemma TookMore(cfg: Config, broken: bool, t: seq<u8>, more: seq<u8>, loc: Loc, out: seq<u8>, final: bool, p: seq<bool>)
    requires RunsTo(cfg, broken, t, loc, out, final, p)
    ensures RunsTo(cfg, broken, t + more, loc, out, final, p + BytesToBits(more))
  {
    hide Sound, Ran, BytesToBits;
    BytesToBitsConcat(t, more);
    RanMore(cfg, BytesToBits(t), Core(loc, 8 * |t| - |p|, out, final), p, BytesToBits(more));
    if !broken {
      TakeMore(cfg, BytesToBits(t), Core(loc, 8 * |t| - |p|, out, final), p, BytesToBits(more));
    }
  }

  /** Where a distance leads; in a window too great a distance is not caught. */
  ghost function AfterDistance(cfg: Config, l: Loc, written: nat, from: nat): Loc
    requires l.DistSymbol? || l.DistBits?
  {
    if !cfg.wraps && !(1 <= from <= written) then Failed else Copying(l.lit, l.dist, l.len, from)
  }

  lemma AfterDistanceIs(cfg: Config, l: Loc, written: nat, from: nat)
    requires l.DistSymbol? || l.DistBits?
    ensures AfterDistance(cfg, l, written, from) == if !cfg.wraps && !(1 <= from <= written) then Failed else Copying(l.lit, l.dist, l.len, from)
  {
  }

  ghost function AfterDistSymbol(cfg: Config, l: Loc, written: nat, v: nat): Loc
    requires l.DistSymbol? && v < 32
  {
    if DistanceExtra(v) > 0 then DistBits(l.lit, l.dist, l.len, DistanceBase(v), DistanceExtra(v))
    else AfterDistance(cfg, l, written, DistanceBase(v))
  }

  lemma AfterDistSymbolIs(cfg: Config, l: Loc, written: nat, v: nat)
    requires l.DistSymbol? && v < 32
    ensures AfterDistSymbol(cfg, l, written, v) ==
      if DistanceExtra(v) > 0 then DistBits(l.lit, l.dist, l.len, DistanceBase(v), DistanceExtra(v))
      else AfterDistance(cfg, l, written, DistanceBase(v))
  {
  }

  ghost predicate Undefined(cfg: Config, written: nat, l: Loc)
  {
    cfg.wraps && l.Copying? && !(1 <= l.from <= written)
  }

  lemma UndefinedIs(cfg: Config, written: nat, l: Loc)
    ensures Undefined(cfg, written, l) <==> cfg.wraps && l.Copying? && !(1 <= l.from <= written)
  {
  }

  lemma DistSymbolStep(cfg: Config, c: Core, bits: nat, v: nat)
    requires c.loc.DistSymbol? && v < 32
    ensures var d := AfterDistSymbol(cfg, c.loc, |c.out|, v);
      !Undefined(cfg, |c.out|, d) ==> ByCode(cfg, c, c.loc.dist, bits, v, To(c, d, bits)) && (d.Copying? ==> 1 <= d.from <= |c.out|)
  {
    hide Wants, Next, DistanceBase, DistanceExtra;
    AtDistSymbol(cfg, c, c.loc.lit, c.loc.dist, c.loc.len, bits, v);
  }

  lemma DistBitsStep(cfg: Config, c: Core, v: nat)
    requires c.loc.DistBits?
    ensures var d, extra := AfterDistance(cfg, c.loc, |c.out|, c.loc.base + v), c.loc.extra;
      !Undefined(cfg, |c.out|, d) ==> ByBits(cfg, c, extra, v, To(c, d, extra)) && (d.Copying? ==> 1 <= d.from <= |c.out|)
  {
    hide Wants, Next;
    AtDistBits(cfg, c, c.loc.lit, c.loc.dist, c.loc.len, c.loc.base, c.loc.extra, v);
  }

  /** Past the guard a far distance is copied from all the same. */
  lemma FarSymbolStep(cfg: Config, c: Core, v: nat)
    requires c.loc.DistSymbol? && v < 32 && Undefined(cfg, |c.out|, AfterDistSymbol(cfg, c.loc, |c.out|, v))
    ensures FarCopy(cfg, c, v, c.(loc := AfterDistSymbol(cfg, c.loc, |c.out|, v)))
  {
    hide DistanceBase, DistanceExtra;
  }

  lemma FarBitsStep(cfg: Config, c: Core, v: nat)
    requires c.loc.DistBits? && Undefined(cfg, |c.out|, AfterDistance(cfg, c.loc, |c.out|, c.loc.base + v))
    ensures FarCopy(cfg, c, v, c.(loc := AfterDistance(cfg, c.loc, |c.out|, c.loc.base + v)))
  {
  }

  lemma FarAnywhere(cfg: Config, c: Core, v: nat, next: Loc, pos: nat)
    requires FarCopy(cfg, c, v, c.(loc := next))
    ensures FarCopy(cfg, c.(pos := pos), v, c.(pos := pos, loc := next))
    ensures cfg.wraps && (c.loc.DistBits? ==> !Near(c.out, c.loc.base + v))
    ensures !c.loc.DistBits? ==> DistanceExtra(v) == 0 && !Near(c.out, DistanceBase(v))
  {
    hide DistanceBase, DistanceExtra;
  }

  lemma LosesCode(i: Inflater, p: seq<bool>, sym: nat, len: nat, next: Loc)
    requires i.src.Valid() && i.RunWith(p) && i.loc.DistSymbol? && ReadCode(i.loc.dist, p, sym, len, i.src.Pending()) && TableOk(i.loc.dist)
    requires sym < 32 && FarCopy(i.cfg, CoreBefore(i, 0), sym, CoreBefore(i, 0).(loc := next))
    ensures RunsTo(i.cfg, true, i.src.taken, next, i.dst.written, i.final, i.src.Pending())
    ensures i.broken || Strays(i.cfg, BytesToBits(i.src.taken))
  {
    hide Sound, Ran, BytesToBits, ToBits, Pow2, Wants, Next, TableOk, Begins, Strays, Settles, Lands, MayRead, NoSuchCode, FarCopy;
    var bits, c := BytesToBits(i.src.taken), CoreBefore(i, len);
    var d := To(c, next, len);
    WantsWhere(c);
    CodeRead(c, i.loc.dist, p, sym, len, i.src.Pending());
    FarAnywhere(i.cfg, CoreBefore(i, 0), sym, next, c.pos);
    FarAnywhere(i.cfg, CoreBefore(i, 0), sym, next, c.pos + len);
    RanRead(i.cfg, bits, c, p, sym, len, d);
    if !i.broken {
      if NoSuchCode(c, p) {
        StraysNoCode(i.cfg, bits, c, p);
      } else {
        StraysFarSymbol(i.cfg, bits, c, p, sym);
      }
    }
  }

  lemma StraysFarSymbol(cfg: Config, bits: seq<bool>, c: Core, p: seq<bool>, v: nat)
    requires cfg.wraps && Sound(cfg, bits, c, p) && c.loc.DistSymbol? && v < 32 && Begins(c.loc.dist, p, v)
    requires DistanceExtra(v) == 0 && !Near(c.out, DistanceBase(v))
    ensures Strays(cfg, bits)
  {
    hide Sound, Begins, DistanceBase, DistanceExtra;
    assert FarSymbol(c, p, v);
    BeStray(cfg, bits, c, p);
  }

  lemma LosesBits(i: Inflater, v: nat, next: Loc)
    requires i.src.Valid() && i.loc.DistBits? && i.RunWith(ToBits(v, i.loc.extra) + i.src.Pending()) && v < Pow2(i.loc.extra)
    requires FarCopy(i.cfg, CoreBefore(i, 0), v, CoreBefore(i, 0).(loc := next))
    ensures RunsTo(i.cfg, true, i.src.taken, next, i.dst.written, i.final, i.src.Pending())
    ensures i.broken || Strays(i.cfg, BytesToBits(i.src.taken))
  {
    hide Sound, Ran, BytesToBits, ToBits, Pow2, Wants, Next, Strays, MayRead, FarCopy;
    var n, bits, c := i.loc.extra, BytesToBits(i.src.taken), CoreBefore(i, i.loc.extra);
    var p := ToBits(v, n) + i.src.Pending();
    WantsWhere(c);
    BitsRead(c, n, v, i.src.Pending());
    FarAnywhere(i.cfg, CoreBefore(i, 0), v, next, c.pos);
    FarAnywhere(i.cfg, CoreBefore(i, 0), v, next, c.pos + n);
    RanRead(i.cfg, bits, c, p, v, n, To(c, next, n));
    if !i.broken {
      StraysFarBits(i.cfg, bits, c, p, v);
    }
  }

  lemma StraysFarBits(cfg: Config, bits: seq<bool>, c: Core, p: seq<bool>, v: nat)
    requires cfg.wraps && Sound(cfg, bits, c, p) && c.loc.DistBits? && c.loc.extra <= |p| && FromBits(p[..c.loc.extra]) == v
    requires !Near(c.out, c.loc.base + v)
    ensures Strays(cfg, bits)
  {
    hide Sound, FromBits;
    BeStray(cfg, bits, c, p);
  }

  lemma DistanceRange(v: nat)
    requires v < 32
    ensures DistanceExtra(v) <= 13 && DistanceBase(v) + Pow2(DistanceExtra(v)) <= DICT_SIZE + 1
    ensures DistanceBase(v) <= DICT_SIZE
  {
    hide DistanceBase, DistanceExtra, Pow2;
    PowPositive(DistanceExtra(v));
    DistanceLimit(v, Pow2(DistanceExtra(v)) - 1);
  }

  lemma PowPositive(n: nat)
    ensures Pow2(n) > 0
  {
  }

  /** A copy starts from the place where output goes next. */
  lemma AtCurrent(o: Output, dist: nat)
    requires o.Valid()
    ensures !o.wraps ==> o.cur == |o.written|
    ensures o.wraps || 1 <= dist <= o.cur ==> o.FromOk(o.cur, dist)
  {
    hide Recent;
  }

  lemma CopyingIs(i: Inflater)
    ensures i.InCopying() <==>
      && i.dist <= DICT_SIZE && i.dst.FromOk(i.distFrom, i.dist) && (i.broken || 1 <= i.dist <= |i.dst.written|)
      && i.Tables(Copying(i.litTable.lens, i.distTable.lens, i.counter, i.dist))
  {
  }

  /** Before the first byte of a straight copy. */
  lemma StraightStart(o: Output, distFrom: nat, dist: nat)
    requires o.Valid() && o.FromOk(distFrom, dist) && (o.wraps ==> o.buf.Length > 0) && o.SlotOf(distFrom, dist) >= 0
    ensures o.Copying(o.written, 0, dist, o.SlotOf(distFrom, dist))
  {
    hide Recent;
    if o.wraps {
      ModAdd(distFrom, |o.written|, -(dist as int), o.buf.Length);
      IntModMod(distFrom - dist, o.buf.Length);
    }
  }

  lemma IntModMod(x: int, n: nat)
    requires n > 0
    ensures x % n % n == x % n
  {
    ModMod(x % n, n);
  }

  /** A copy of `n` bytes after `w` takes the machine to `l`; one from nowhere takes the code there. */
  ghost predicate CopyRuns(i: Inflater, w: seq<u8>, n: nat, l: Loc)
    reads i`final, i`broken, i`dist, i.src`taken, i.src`bitBuf, i.src`numBits
  {
    && (forall w' :: LooseCopy(w, w', n, i.dist) ==> RunsTo(i.cfg, true, i.src.taken, l, w', i.final, i.src.Pending()))
    && (!i.broken && 1 <= i.dist <= |w| ==> RunsTo(i.cfg, i.broken, i.src.taken, l, Copy(w, n, i.dist), i.final, i.src.Pending()))
  }

  lemma RunsCopy(i: Inflater)
    requires i.RunWith(i.src.Pending()) && i.loc == Copying(i.litTable.lens, i.distTable.lens, i.counter, i.dist)
    ensures CopyRuns(i, i.dst.written, i.counter, Symbol(i.litTable.lens, i.distTable.lens))
  {
    hide BytesToBits, ToBits, Reaches, Ran, Drifts, Copy, LooseCopy, DecodeTable.Valid;
    var c := CoreBefore(i, 0);
    var l := Symbol(i.litTable.lens, i.distTable.lens);
    forall w' | LooseCopy(i.dst.written, w', i.counter, i.dist)
      ensures RunsTo(i.cfg, true, i.src.taken, l, w', i.final, i.src.Pending())
    {
      CopyDrifts(i.cfg, c, i.litTable.lens, i.distTable.lens, i.counter, i.dist, i.src.Pending(), w');
      RanOn(i.cfg, BytesToBits(i.src.taken), c, i.src.Pending(), c.(loc := l, out := w'), i.src.Pending());
    }
    if !i.broken && 1 <= i.dist <= |i.dst.written| {
      var d := c.(loc := l, out := Copy(c.out, i.counter, i.dist));
      D.CopyRun(i.cfg, c, i.litTable.lens, i.distTable.lens, i.counter, i.dist, i.src.Pending());
      Further(i.cfg, BytesToBits(i.src.taken), c, i.src.Pending(), d, i.src.Pending());
      ReachesDrifts(i.cfg, State(c, i.src.Pending()), State(d, i.src.Pending()));
      RanOn(i.cfg, BytesToBits(i.src.taken), c, i.src.Pending(), d, i.src.Pending());
    }
  }

  lemma RunsCopyOne(i: Inflater)
    requires i.RunWith(i.src.Pending()) && i.loc == Copying(i.litTable.lens, i.distTable.lens, i.counter, i.dist) && i.counter > 0
    ensures CopyRuns(i, i.dst.written, 1, Copying(i.litTable.lens, i.distTable.lens, i.counter - 1, i.dist))
  {
    hide BytesToBits, ToBits, Sound, Ran, Drifts, Drift, LooseCopy, Wants, Next, DecodeTable.Valid;
    var w, c := i.dst.written, CoreBefore(i, 0);
    var l := Copying(i.litTable.lens, i.distTable.lens, i.counter - 1, i.dist);
    forall w' | LooseCopy(w, w', 1, i.dist)
      ensures RunsTo(i.cfg, true, i.src.taken, l, w', i.final, i.src.Pending())
    {
      CopyOneDrifts(i.cfg, c, i.litTable.lens, i.distTable.lens, i.counter, i.dist, i.src.Pending(), w');
      DriftsOne(i.cfg, State(c, i.src.Pending()), State(c.(loc := l, out := w'), i.src.Pending()));
      RanOn(i.cfg, BytesToBits(i.src.taken), c, i.src.Pending(), c.(loc := l, out := w'), i.src.Pending());
    }
    if !i.broken && 1 <= i.dist <= |w| {
      CopyOnce(w, i.dist);
      AtCopying(i.cfg, c, i.litTable.lens, i.distTable.lens, i.counter, i.dist);
      RunsFreely(i, l, w + [w[|w| - i.dist]]);
    }
  }

  lemma StillCopying(i: Inflater, w: seq<u8>)
    requires i.dist <= DICT_SIZE && i.dst.FromOk(i.distFrom, i.dist) && (i.broken || 1 <= i.dist <= |w|) && LooseCopy(w, i.dst.written, 1, i.dist)
    requires i.litTable.Valid() && i.distTable.Valid() && |i.litTable.lens| <= 288 && |i.distTable.lens| <= 32
    requires i.loc == Copying(i.litTable.lens, i.distTable.lens, i.counter, i.dist)
    ensures i.InCopying()
  {
    hide *;
    LooseGrows(w, i.dst.written, 1, i.dist);
    TablesAre(i, i.loc);
    CopyingIs(i);
  }

  lemma CopyOnce(w: seq<u8>, dist: nat)
    requires 1 <= dist <= |w|
    ensures Copy(w, 1, dist) == w + [w[|w| - dist]]
  {
  }

  /** The bytes are copied. */
  lemma CopyEnds(i: Inflater, w: seq<u8>, n: nat)
    requires CopyRuns(i, w, n, i.loc) && (i.broken || 1 <= i.dist <= |w|)
    requires LooseCopy(w, i.dst.written, n, i.dist)
    ensures i.RunWith(i.src.Pending())
  {
    if 1 <= i.dist <= |w| {
      LooseIsCopy(w, i.dst.written, n, i.dist);
    }
    hide Sound, Ran, BytesToBits, ToBits, Copy, LooseCopy;
  }

  /** Bytes given back do not move the machine. */
  lemma GaveBack(cfg: Config, broken: bool, t: seq<u8>, extra: seq<u8>, loc: Loc, out: seq<u8>, final: bool, p: seq<bool>)
    requires RunsTo(cfg, broken, t + extra, loc, out, final, p + BytesToBits(extra))
    ensures RunsTo(cfg, broken, t, loc, out, final, p)
  {
    hide Sound, Ran, BytesToBits;
    BytesToBitsConcat(t, extra);
    RanBack(cfg, BytesToBits(t), Core(loc, 8 * |t| - |p|, out, final), p, BytesToBits(extra));
    if !broken {
      GiveBack(cfg, BytesToBits(t), Core(loc, 8 * |t| - |p|, out, final), p, BytesToBits(extra));
    }
  }

  /** Points that use no input, in the order in which they follow one another. */
  ghost function Rank(p: Point, counter: nat): nat
  {
    match p
    case PLenCodes => if counter < 1000 then 2000 - counter else 1000
    case PRawAlign => 500
    case PRawCopy => 400
    case PEndAlign => 300
    case PLengthBits => 260
    case PDistSymbol => 250
    case PDistBits => 240
    case PCopying => 200
    case PSymbol => 100
    case PEmit => 50
    case PTrailer => 10
    case PDone => 0
    case PFailed => 0
    case _ => 310
  }

  lemma RankIs(p: Point, counter: nat)
    ensures Rank(p, counter) ==
      match p
      case PLenCodes => if counter < 1000 then 2000 - counter else 1000
      case PRawAlign => 500
      case PRawCopy => 400
      case PEndAlign => 300
      case PLengthBits => 260
      case PDistSymbol => 250
      case PDistBits => 240
      case PCopying => 200
      case PSymbol => 100
      case PEmit => 50
      case PTrailer => 10
      case PDone => 0
      case PFailed => 0
      case _ => 310
  {
  }

  lemma DoomIs(i: Inflater)
    ensures i.Doomed() <==> Strays(i.cfg, BytesToBits(i.src.Offered()))
  {
  }

  lemma LeftNat(i: Inflater)
    requires i.Valid()
    ensures i.Left() >= 0
  {
    hide *;
    ValidIs(i);
    LeftIs(i);
    OutIs(i.dst);
    SrcIs(i.src);
  }

  /** The bits there are do not make up what is to be read next. */
  ghost predicate Starved(i: Inflater)
    reads i`loc, i`final, i.src`taken, i.src`bitBuf, i.src`numBits, i.dst`written
  {
    match Wants(CoreBefore(i, 0))
    case Bits(n) => |i.src.Pending()| < n
    case Code(lens) => !Settled(lens, i.src.Pending()) && |i.src.Pending()| < 15
    case _ => false
  }

  lemma StarvesBits(i: Inflater, n: nat)
    requires i.src.Valid()
    ensures Wants(CoreBefore(i, 0)) == Want.Bits(n) && i.src.numBits < n ==> Starved(i)
  {
    hide BitSource.Valid, Wants;
  }

  lemma StarvesCode(i: Inflater, lens: seq<nat>)
    requires i.src.Valid() && Wants(CoreBefore(i, 0)) == Want.Code(lens) && !Settled(lens, i.src.Pending()) && i.src.numBits < 15
    ensures Starved(i)
  {
    hide BitSource.Valid, Wants, Begins;
  }

  lemma WantsAt(c: Core)
    ensures c.loc.ZHeader0? || c.loc.ZHeader1? || c.loc.RawHeader? || c.loc.Trailer? || (c.loc.RawCopy? && c.loc.left > 0) ==> Wants(c) == Want.Bits(8)
    ensures c.loc.Header? || c.loc.ClLens? ==> Wants(c) == Want.Bits(3)
    ensures c.loc.TableSizes? ==> Wants(c) == Want.Bits(TableSizeBits(|c.loc.sizes|))
    ensures c.loc.LenRun? ==> Wants(c) == Want.Bits(ExtraBits(c.loc.sym))
    ensures c.loc.LengthBits? || c.loc.DistBits? ==> Wants(c) == Want.Bits(c.loc.extra)
    ensures c.loc.LenCodes? ==> Wants(c) == Want.Code(c.loc.cl)
    ensures c.loc.Symbol? ==> Wants(c) == Want.Code(c.loc.lit)
    ensures c.loc.DistSymbol? ==> Wants(c) == Want.Code(c.loc.dist)
  {
  }

  /** Another byte of output is about to follow. */
  ghost predicate Pressed(l: Loc)
  {
    l.Emit? || (l.RawByte? && l.left > 0) || (l.RawCopy? && l.left > 0) || (l.Copying? && l.len > 0)
  }

  lemma PressedIs(l: Loc)
    ensures Pressed(l) <==> l.Emit? || (l.RawByte? && l.left > 0) || (l.RawCopy? && l.left > 0) || (l.Copying? && l.len > 0)
  {
  }

  lemma FillsIs(i: Inflater)
    ensures i.FillsOk() <==> (i.filling ==>
      || (i.point.PLenCodes? && i.Waits(i.clTable.lens)) || (i.point.PSymbol? && i.Waits(i.litTable.lens)) || (i.point.PDistSymbol? && i.Waits(i.distTable.lens)))
  {
    hide Inflater.Waits;
  }

  lemma WaitsIs(i: Inflater, lens: seq<nat>)
    ensures i.Waits(lens) <==> (i.filling ==> i.src.numBits < 15 && !Settled(lens, i.src.Pending()))
  {
  }

  lemma AreaIs(i: Inflater, at: nat, size: nat)
    ensures i.AreaOk(at, size) <==>
      && at + size <= i.dst.buf.Length && (i.cfg.wraps ==> at + size == i.dst.buf.Length)
      && at == if i.cfg.wraps then (if i.dst.buf.Length > 0 then |i.dst.written| % i.dst.buf.Length else 0) else |i.dst.written|
    ensures i.Valid() && i.cfg.wraps ==> i.dst.buf.Length > 0
  {
    hide Inflater.Tie, Inflater.RunWith;
  }

  lemma SummedIs(i: Inflater)
    ensures i.Summed() <==> (i.cfg.zlib ==> i.checkAdler == A.Checksum(i.summed))
  {
    hide A.Checksum;
  }

  /** The output of a call that ends with an error status is not summed. */
  ghost function SummedPart(status: Status, piece: seq<u8>): seq<u8>
  {
    if status.Rejected? || status.CannotProgress? then [] else piece
  }

  lemma PartIs(status: Status, piece: seq<u8>)
    ensures SummedPart(status, piece) == if status.Rejected? || status.CannotProgress? then [] else piece
  {
  }

  lemma MeansIs(i: Inflater, status: Status, hasMore: bool, allTaken: bool, full: bool)
    ensures i.Means(status, hasMore, allTaken, full) <==>
      match status
      case Finished => i.point.PDone?
      case BadChecksum => i.point.PDone? && i.cfg.zlib
      case Rejected => i.point.PFailed?
      case NeedsMoreInput => hasMore && allTaken && !i.point.PDone? && !i.point.PFailed? && Starved(i)
      case CannotProgress => !hasMore && allTaken && !i.point.PDone? && !i.point.PFailed? && Starved(i)
      case HasMoreOutput => full && !i.point.PDone? && !i.point.PFailed? && Pressed(i.loc)
  {
    hide Starved, Pressed;
  }

  lemma NotFilling(i: Inflater)
    requires i.Valid() && (i.point.PDone? || i.point.PFailed? || Pressed(i.loc))
    ensures !i.filling
  {
    hide *;
    ValidIs(i);
    TieIs(i);
    FillsIs(i);
    PressedIs(i.loc);
    TablesAre(i, Symbol(i.litTable.lens, i.distTable.lens));
    TablesAre(i, DistSymbol(i.litTable.lens, i.distTable.lens, i.counter));
    if i.Shape() {
      LenCodesIs(i);
    }
  }

  /** What has been taken is what had been taken and the front of the new input. */
  lemma TakenIs(s: BitSource, t: seq<u8>, data: seq<u8>)
    requires s.Valid() && s.inp == data && s.Offered() == t + data
    ensures s.taken == t + data[..s.cur]
  {
    hide EndOf, BytesToBits, ToBits;
    assert data == data[..s.cur] + data[s.cur..];
    assert s.taken + data[s.cur..] == (t + data[..s.cur]) + data[s.cur..];
    assert |s.taken| == |t + data[..s.cur]|;
    assert s.taken == (s.taken + data[s.cur..])[..|s.taken|] == t + data[..s.cur];
  }

  lemma WrittenIs(o: Output)
    requires o.Valid()
    ensures o.next <= o.cur <= o.end <= o.buf.Length && o.written == o.before + o.buf[o.next..o.cur]
  {
    hide Recent;
  }
}
