/**
 The zlib-style interface to the inflater (miniz.c, `mz_inflate`): output goes through a 32768-byte
 window, from which each call hands on as much as its caller has room for.
 */
module InflateStreams {
  import opened Bits
  import opened LzTokens
  import opened InflateSpec
  import opened InflateRun
  import opened InflateSlips
  import opened InflateResults
  import opened Inflaters
  import opened MemToMem
  import opened Modulo
  import A = Adler
  import S = Streams

  datatype Flushing = NoFlush | SyncFlush | Finish

  /** `MZ_OK` and so on. */
  datatype Return = Fine | StreamEnd | StreamError | DataError | BufError

  predicate Negative(s: Status)
  {
    s.BadChecksum? || s.Rejected? || s.CannotProgress?
  }

  /** The window's bytes not yet handed on are the last ones written, and lie where the window says. */
  ghost predicate Holds(delivered: seq<u8>, dict: seq<u8>, ofs: nat, avail: nat, written: seq<u8>)
  {
    && |dict| == DICT_SIZE && ofs < DICT_SIZE && ofs + avail <= DICT_SIZE
    && delivered + dict[ofs..ofs + avail] == written && (ofs + avail) % DICT_SIZE == |written| % DICT_SIZE
  }

  lemma HoldsNothing(delivered: seq<u8>, dict: seq<u8>, ofs: nat, written: seq<u8>)
    requires Holds(delivered, dict, ofs, 0, written)
    ensures delivered == written && ofs == |written| % DICT_SIZE && ofs < DICT_SIZE
  {
  }

  lemma HoldsMore(delivered: seq<u8>, dict: seq<u8>, dict': seq<u8>, ofs: nat, avail: nat, written: seq<u8>, written': seq<u8>)
    requires Holds(delivered, dict, ofs, 0, written) && |dict'| == DICT_SIZE && ofs + avail <= DICT_SIZE
    requires written' == written + dict'[ofs..ofs + avail]
    ensures Holds(delivered, dict', ofs, avail, written')
  {
    ModAdd(ofs, |written|, avail, DICT_SIZE);
  }

  lemma HandOn(delivered: seq<u8>, dict: seq<u8>, ofs: nat, avail: nat, written: seq<u8>, n: nat)
    requires Holds(delivered, dict, ofs, avail, written) && n <= avail
    ensures Holds(delivered + dict[ofs..ofs + n], dict, (ofs + n) % DICT_SIZE, avail - n, written)
  {
    assert dict[ofs..ofs + avail] == dict[ofs..ofs + n] + dict[ofs + n..ofs + avail];
    NextOfs(ofs + n, avail - n);
    if ofs + n == DICT_SIZE {
      assert dict[ofs + n..ofs + avail] == [] == dict[0..0];
    }
  }

  lemma NextOfs(ofs: nat, avail: nat)
    requires ofs + avail <= DICT_SIZE
    ensures ofs < DICT_SIZE ==> ofs % DICT_SIZE == ofs
    ensures ofs == DICT_SIZE ==> ofs % DICT_SIZE == 0 && avail == 0 && (0 + avail) % DICT_SIZE == (ofs + avail) % DICT_SIZE
  {
  }

  /** Nothing has been handed on but the beginning of what a stream beginning with `given` says. */
  ghost predicate Faithful(cfg: Config, given: seq<u8>, delivered: seq<u8>)
  {
    forall stream, o :: given <= stream && Says(cfg, stream, o) ==> delivered <= o
  }

  /** The stream comes to an end with `out`, but one at which the machine fails or the checksum is another. */
  ghost predicate FailsWith(cfg: Config, stream: seq<u8>, out: seq<u8>)
  {
    exists t :: HasOutcome(cfg, stream, t) && t.core.out == out && !Ends(cfg, t, out)
  }

  /**
   If what was given and offered is a whole stream that fits, this is all it says and its end is reported;
   if it is a wrong one, that is reported, after all that comes before the error.
   */
  ghost predicate Whole(cfg: Config, stream: seq<u8>, delivered: seq<u8>, room: nat, r: Return, delivered': seq<u8>)
  {
    && (forall o :: Says(cfg, stream, o) && |o| <= |delivered| + room ==> r.StreamEnd? && delivered' == o)
    && (forall o :: FailsWith(cfg, stream, o) && |o| <= |delivered| + room ==> r.DataError? && delivered' == o)
  }

  /** With a whole stream or a wrong one at hand and any room, something is handed on or the end or the error is reported. */
  ghost predicate Moves(cfg: Config, stream: seq<u8>, room: nat, r: Return, out: seq<u8>)
  {
    && (room > 0 ==> forall o :: Says(cfg, stream, o) ==> r.StreamEnd? || out != [])
    && (room > 0 ==> forall o :: FailsWith(cfg, stream, o) ==> r.DataError? || out != [])
  }

  /** Whatever follows, more is to come than what has been handed on. */
  ghost predicate Unfinished(cfg: Config, given: seq<u8>, delivered: seq<u8>)
  {
    forall stream, t :: given <= stream && HasOutcome(cfg, stream, t) ==> |delivered| < |t.core.out|
  }

  /** The return code of a call that has run the inflater, by its status and what is left in the window. */
  predicate Answers(r: Return, status: Status, avail: nat, finish: bool, noInput: bool)
  {
    && (r.DataError? <==> status.BadChecksum? || status.Rejected? || status.CannotProgress?)
    && (r.StreamEnd? <==> status.Finished? && avail == 0)
    && (r.BufError? <==>
         || (status.NeedsMoreInput? && noInput)
         || (finish && (status.HasMoreOutput? || (status.Finished? && avail > 0))))
    && !r.StreamError?
  }

  /** No stream that says something is called wrong. */
  ghost predicate Just(cfg: Config, stream: seq<u8>, r: Return)
  {
    r.DataError? ==> forall o :: !Says(cfg, stream, o)
  }

  class InflateStream {
    const zlib: bool
    const inf: Inflater
    var dictOfs: nat
    var dictAvail: nat
    var lastStatus: Status
    var firstCall: bool
    var hasFlushed: bool
    /** All went straight to the caller in one call, without the window. */
    var flat: bool
    /** Everything consumed and everything handed to the caller since the stream began. */
    ghost var given: seq<u8>
    ghost var delivered: seq<u8>
    /** The stream has strayed past a guard. */
    ghost var lost: bool

    ghost function Cfg(): Config
      reads this`flat
    {
      if flat then FlatBuffer(zlib) else WindowBuffer(zlib)
    }

    ghost predicate InFlat()
      reads this`firstCall, this`hasFlushed, this`lastStatus, this`lost, this`given, this`delivered
    {
      && !firstCall && hasFlushed && (Negative(lastStatus) || lastStatus.Finished?)
      && (lost || Faithful(FlatBuffer(zlib), given, delivered))
      && (lastStatus.Finished? ==> Accepts(FlatBuffer(zlib), given, delivered) && (lost || Says(FlatBuffer(zlib), given, delivered)))
    }

    ghost predicate InWindow()
      reads this`dictOfs, this`dictAvail, this`lastStatus, this`firstCall, this`lost, this`given, this`delivered
      reads inf, inf.src, inf.dst, inf.dst.buf, inf.litTable, inf.litTable.lookup, inf.litTable.tree
      reads inf.distTable, inf.distTable.lookup, inf.distTable.tree, inf.clTable, inf.clTable.lookup, inf.clTable.tree
      reads inf.clSizes, inf.lenCodes, inf.tableSizes, inf.rawHeader
    {
      && inf.Valid() && inf.Summed() && inf.cfg == WindowBuffer(zlib) && (inf.broken ==> lost) && given == inf.src.taken
      && Holds(delivered, inf.dst.buf[..], dictOfs, dictAvail, inf.dst.written)
      && (Negative(lastStatus) || inf.summed == inf.dst.written) && (lastStatus.Finished? ==> Ended())
      && (firstCall ==> given == [] && delivered == [])
    }

    /** The window has all the stream's output, and its checksum agrees. */
    ghost predicate Ended()
      reads inf`point, inf`zAdler, inf.dst`written
    {
      inf.point.PDone? && (zlib ==> inf.zAdler == A.Checksum(inf.dst.written))
    }

    ghost predicate Valid()
      reads this, inf, inf.src, inf.dst, inf.dst.buf, inf.litTable, inf.litTable.lookup, inf.litTable.tree
      reads inf.distTable, inf.distTable.lookup, inf.distTable.tree, inf.clTable, inf.clTable.lookup, inf.clTable.tree
      reads inf.clSizes, inf.lenCodes, inf.tableSizes, inf.rawHeader
    {
      if flat then InFlat() else InWindow()
    }

    /** `mz_inflateInit2`; a positive window size means a zlib wrapper. */
    constructor (zlib: bool, inf: Inflater)
      requires inf.Valid() && inf.Summed() && !inf.broken && inf.summed == [] && inf.cfg == WindowBuffer(zlib)
      requires inf.src.taken == [] && inf.dst.written == [] && inf.dst.buf.Length == DICT_SIZE
      ensures Valid() && this.zlib == zlib && this.inf == inf && given == [] && delivered == [] && !lost && !flat && firstCall && dictAvail == 0
    {
      this.zlib, this.inf := zlib, inf;
      dictOfs, dictAvail, lastStatus, firstCall, hasFlushed, flat := 0, 0, NeedsMoreInput, true, false, false;
      given, delivered, lost := [], [], false;
      new;
      hide *;
      WindowIs(zlib);
      assert [] + inf.dst.buf[..][0..0] == [];
      HoldsAtFirst(inf.dst.buf[..]);
      InWindowIs(this);
      StreamIs(this);
    }

    /** Up to `room` bytes out of the window. */
    method Deliver(room: nat) returns (out: seq<u8>)
      requires InWindow() && !firstCall
      modifies this`dictOfs, this`dictAvail, this`delivered
      ensures InWindow() && |out| == Least(old(dictAvail), room) && dictAvail == old(dictAvail) - |out| && delivered == old(delivered) + out
    {
      hide *;
      InWindowIs(this);
      ghost var d, w := inf.dst.buf[..], inf.dst.written;
      HoldsRange(delivered, d, dictOfs, dictAvail, w);
      var n := Least(dictAvail, room);
      out := inf.dst.buf[dictOfs..dictOfs + n];
      assert out == d[dictOfs..dictOfs + n];
      HandOn(delivered, d, dictOfs, dictAvail, w, n);
      dictOfs, dictAvail := (dictOfs + n) % DICT_SIZE, dictAvail - n;
      delivered := delivered + out;
      InWindowIs(this);
    }

    /** `tinfl_decompress` into the rest of the window. */
    method Refill(inp: seq<u8>, used0: nat, hasMore: bool) returns (used: nat)
      requires InWindow() && !firstCall && !Negative(lastStatus) && dictAvail == 0 && used0 <= |inp|
      modifies this`dictAvail, this`lastStatus, this`given, this`lost
      modifies inf, inf.src, inf.dst, inf.dst.buf, inf.litTable, inf.litTable.lookup, inf.litTable.tree
      modifies inf.distTable, inf.distTable.lookup, inf.distTable.tree, inf.clTable, inf.clTable.lookup, inf.clTable.tree
      modifies inf.litSizes, inf.distSizes, inf.clSizes, inf.lenCodes, inf.tableSizes, inf.rawHeader
      ensures InWindow() && used0 <= used <= |inp| && given == old(given) + inp[used0..used]
      ensures lost ==> old(lost) || Strays(WindowBuffer(zlib), BytesToBits(old(given) + inp[used0..]))
      ensures lastStatus.HasMoreOutput? ==> dictAvail > 0
      ensures lastStatus.NeedsMoreInput? ==> hasMore && used == |inp|
      ensures !lost ==> Judges(WindowBuffer(zlib), old(given) + inp[used0..], lastStatus, inf.dst.written)
    {
      hide *;
      InWindowIs(this);
      WindowIs(zlib);
      ghost var g, d, w, rest := given, inf.dst.buf[..], inf.dst.written, inp[used0..];
      HoldsNothing(delivered, d, dictOfs, w);
      HoldsRange(delivered, d, dictOfs, 0, w);
      AreaIs(inf, dictOfs, DICT_SIZE - dictOfs);
      var status, consumed, produced := inf.Decompress(inp[used0..], dictOfs, DICT_SIZE - dictOfs, hasMore);
      used := used0 + consumed;
      assert rest[..consumed] == inp[used0..used];
      assert inf.dst.buf[dictOfs..dictOfs + produced] == inf.dst.buf[..][dictOfs..dictOfs + produced];
      HoldsMore(delivered, d, inf.dst.buf[..], dictOfs, produced, w, inf.dst.written);
      MeansIs(inf, status, hasMore, consumed == |rest|, produced == DICT_SIZE - dictOfs);
      OfferedAll(inf, g, rest, consumed, status, hasMore, produced == DICT_SIZE - dictOfs);
      EndedIs(this);
      NegativeIs(status);
      Settle(inp[used0..used], status, produced);
    }

    /** A call of the inflater is over; what it wrote waits in the window. */
    method Settle(ghost piece: seq<u8>, status: Status, produced: nat)
      requires inf.Valid() && inf.Summed() && inf.cfg == WindowBuffer(zlib) && given + piece == inf.src.taken && !firstCall
      requires Holds(delivered, inf.dst.buf[..], dictOfs, produced, inf.dst.written)
      requires (Negative(status) || inf.summed == inf.dst.written) && (status.Finished? ==> Ended())
      modifies this`given, this`dictAvail, this`lastStatus, this`lost
      ensures InWindow() && given == old(given) + piece && dictAvail == produced && lastStatus == status && lost == (old(lost) || inf.broken)
    {
      hide *;
      given, dictAvail, lastStatus, lost := given + piece, produced, status, lost || inf.broken;
      InWindowIs(this);
    }

    /** The window refilled, and the new bytes handed on. */
    method Fetch(inp: seq<u8>, used0: nat, room: nat, hasMore: bool) returns (used: nat, out: seq<u8>)
      requires InWindow() && !firstCall && !Negative(lastStatus) && dictAvail == 0 && used0 <= |inp|
      modifies this`dictOfs, this`dictAvail, this`lastStatus, this`given, this`delivered, this`lost
      modifies inf, inf.src, inf.dst, inf.dst.buf, inf.litTable, inf.litTable.lookup, inf.litTable.tree
      modifies inf.distTable, inf.distTable.lookup, inf.distTable.tree, inf.clTable, inf.clTable.lookup, inf.clTable.tree
      modifies inf.litSizes, inf.distSizes, inf.clSizes, inf.lenCodes, inf.tableSizes, inf.rawHeader
      ensures InWindow() && used0 <= used <= |inp| && given == old(given) + inp[used0..used] && delivered == old(delivered) + out && |out| <= room
      ensures lost ==> old(lost) || Strays(WindowBuffer(zlib), BytesToBits(old(given) + inp[used0..]))
      ensures dictAvail > 0 ==> |out| == room
      ensures lastStatus.HasMoreOutput? ==> (out != [] || room == 0)
      ensures lastStatus.NeedsMoreInput? ==> hasMore && used == |inp|
      ensures !lost ==> Judges(WindowBuffer(zlib), old(given) + inp[used0..], lastStatus, inf.dst.written)
    {
      hide *;
      used := Refill(inp, used0, hasMore);
      out := Deliver(room);
    }

    /** The loop of `mz_inflate`. */
    method Loop(inp: seq<u8>, room: nat, flush: Flushing) returns (r: Return, used: nat, out: seq<u8>)
      requires InWindow() && !firstCall && !Negative(lastStatus) && dictAvail == 0
      modifies this`dictOfs, this`dictAvail, this`lastStatus, this`given, this`delivered, this`lost
      modifies inf, inf.src, inf.dst, inf.dst.buf, inf.litTable, inf.litTable.lookup, inf.litTable.tree
      modifies inf.distTable, inf.distTable.lookup, inf.distTable.tree, inf.clTable, inf.clTable.lookup, inf.clTable.tree
      modifies inf.litSizes, inf.distSizes, inf.clSizes, inf.lenCodes, inf.tableSizes, inf.rawHeader
      ensures InWindow() && used <= |inp| && given == old(given) + inp[..used] && delivered == old(delivered) + out && |out| <= room
      ensures lost ==> old(lost) || Strays(WindowBuffer(zlib), BytesToBits(old(given) + inp))
      ensures r.StreamEnd? ==> Accepts(WindowBuffer(zlib), given, delivered) && (lost || Says(WindowBuffer(zlib), given, delivered))
      ensures flush.Finish? && !lost ==> Whole(WindowBuffer(zlib), old(given) + inp, old(delivered), room, r, delivered)
      ensures !lost ==> Moves(WindowBuffer(zlib), old(given) + inp, room, r, out) && Just(WindowBuffer(zlib), old(given) + inp, r)
      ensures r.Fine? ==> used == |inp| || |out| == room
      ensures Answers(r, lastStatus, dictAvail, flush.Finish?, inp == [])
      ensures r.BufError? ==> (inp == [] && !flush.Finish?) || |out| == room
    {
      hide *;
      ghost var g, d := given, delivered;
      used, out := 0, [];
      assert g + inp[..0] == g && d + [] == d;
      while true
        invariant InWindow() && !firstCall && !Negative(lastStatus) && dictAvail == 0 && used <= |inp| && |out| <= room
        invariant given == g + inp[..used] && delivered == d + out
        invariant lost ==> old(lost) || Strays(WindowBuffer(zlib), BytesToBits(g + inp))
        decreases room - |out|
      {
        var piece;
        used, piece := FetchMore(inp, used, room - |out|, flush, g);
        assert d + out + piece == d + (out + piece);
        out := out + piece;
        if Negative(lastStatus) {
          r := DataError;
        } else if lastStatus.NeedsMoreInput? && inp == [] {
          r := BufError;
        } else if flush.Finish? && lastStatus.Finished? {
          r := if dictAvail > 0 then BufError else StreamEnd;
        } else if flush.Finish? && |out| == room {
          r := BufError;
        } else if !flush.Finish? && (lastStatus.Finished? || used == |inp| || |out| == room || dictAvail > 0) {
          r := if lastStatus.Finished? && dictAvail == 0 then StreamEnd else Fine;
        } else {
          NegativeIs(lastStatus);
          continue;
        }
        NegativeIs(lastStatus);
        AnswersIs(r, lastStatus, dictAvail, flush.Finish?, inp == []);
        if r.StreamEnd? {
          AllSaid(this);
        }
        if !lost {
          BeMoving(WindowBuffer(zlib), g + inp, lastStatus, inf.dst.written, room, r, out);
        }
        if flush.Finish? && !lost {
          InWindowIs(this);
          HoldsRange(delivered, inf.dst.buf[..], dictOfs, dictAvail, inf.dst.written);
          WholeAt(WindowBuffer(zlib), g + inp, d, room, out, lastStatus, inf.dst.written, dictAvail, r);
        }
        return;
      }
    }

    method FetchMore(inp: seq<u8>, used0: nat, room: nat, flush: Flushing, ghost g: seq<u8>) returns (used: nat, out: seq<u8>)
      requires InWindow() && !firstCall && !Negative(lastStatus) && dictAvail == 0 && used0 <= |inp| && given == g + inp[..used0]
      modifies this`dictOfs, this`dictAvail, this`lastStatus, this`given, this`delivered, this`lost
      modifies inf, inf.src, inf.dst, inf.dst.buf, inf.litTable, inf.litTable.lookup, inf.litTable.tree
      modifies inf.distTable, inf.distTable.lookup, inf.distTable.tree, inf.clTable, inf.clTable.lookup, inf.clTable.tree
      modifies inf.litSizes, inf.distSizes, inf.clSizes, inf.lenCodes, inf.tableSizes, inf.rawHeader
      ensures InWindow() && used <= |inp| && given == g + inp[..used] && delivered == old(delivered) + out && |out| <= room
      ensures lost ==> old(lost) || Strays(WindowBuffer(zlib), BytesToBits(g + inp))
      ensures dictAvail > 0 ==> |out| == room
      ensures lastStatus.HasMoreOutput? ==> (out != [] || room == 0)
      ensures lastStatus.NeedsMoreInput? ==> !flush.Finish? && used == |inp|
      ensures !lost ==> Judges(WindowBuffer(zlib), g + inp, lastStatus, inf.dst.written)
    {
      hide *;
      used, out := Fetch(inp, used0, room, !flush.Finish?);
      assert g + inp[..used0] + inp[used0..] == g + inp;
      assert g + inp[..used0] + inp[used0..used] == g + inp[..used];
    }

    /** `MZ_FINISH` on the first call: straight into the caller's buffer, which must hold everything. */
    method FirstFinish(inp: seq<u8>, room: nat) returns (r: Return, used: nat, out: seq<u8>, ghost status: Status)
      requires given == [] && delivered == []
      modifies this`lastStatus, this`firstCall, this`hasFlushed, this`flat, this`given, this`delivered, this`lost
      ensures flat && InFlat() && used <= |inp| && given == inp[..used] && delivered == out && |out| <= room
      ensures lost ==> Strays(FlatBuffer(zlib), BytesToBits(inp))
      ensures r.StreamEnd? ==> Accepts(FlatBuffer(zlib), given, delivered) && (Says(FlatBuffer(zlib), given, delivered) <==> !lost)
      ensures !lost ==> Whole(FlatBuffer(zlib), inp, [], room, r, delivered) && Moves(FlatBuffer(zlib), inp, room, r, out) && Just(FlatBuffer(zlib), inp, r)
      ensures !r.Fine? && Answers(r, status, 0, true, inp == []) && lastStatus == (if r.BufError? then Rejected else status)
      ensures r.BufError? ==> |out| == room && (lost || Unfinished(FlatBuffer(zlib), given, delivered))
    {
      hide *;
      var last;
      ghost var broken;
      last, used, out, broken := RunFlat(zlib, inp, room);
      status := last;
      NegativeIs(last);
      NegativeIs(Rejected);
      r := if Negative(last) then DataError else if !last.Finished? then BufError else StreamEnd;
      lastStatus := if Negative(last) || last.Finished? then last else Rejected;
      firstCall, hasFlushed, flat := false, true, true;
      given, delivered, lost := inp[..used], out, broken;
      assert [] + inp == inp && [] + inp[..used] == inp[..used] && [] + out == out;
      if lost {
        LostSays(FlatBuffer(zlib), [], inp, used, out);
      }
      if !lost {
        WholeAt(FlatBuffer(zlib), inp, [], room, out, status, out, 0, r);
        BeMoving(FlatBuffer(zlib), inp, status, out, room, r, out);
      }
      AnswersIs(r, status, 0, true, inp == []);
      InFlatIs(this);
    }

    /** What the window still holds goes first; only when it is empty is more decoded. */
    method FromWindow(inp: seq<u8>, room: nat, flush: Flushing) returns (r: Return, used: nat, out: seq<u8>)
      requires InWindow() && !firstCall && !Negative(lastStatus)
      modifies this`dictOfs, this`dictAvail, this`lastStatus, this`given, this`delivered, this`lost
      modifies inf, inf.src, inf.dst, inf.dst.buf, inf.litTable, inf.litTable.lookup, inf.litTable.tree
      modifies inf.distTable, inf.distTable.lookup, inf.distTable.tree, inf.clTable, inf.clTable.lookup, inf.clTable.tree
      modifies inf.litSizes, inf.distSizes, inf.clSizes, inf.lenCodes, inf.tableSizes, inf.rawHeader
      ensures InWindow() && used <= |inp| && given == old(given) + inp[..used] && delivered == old(delivered) + out && |out| <= room
      ensures lost ==> old(lost) || Strays(WindowBuffer(zlib), BytesToBits(old(given) + inp))
      ensures r.StreamEnd? ==> Accepts(WindowBuffer(zlib), given, delivered) && (lost || Says(WindowBuffer(zlib), given, delivered))
      ensures r.StreamEnd? && !old(lost) ==> (Says(WindowBuffer(zlib), given, delivered) <==> !lost)
      ensures flush.Finish? && old(dictAvail) == 0 && !lost ==> Whole(WindowBuffer(zlib), old(given) + inp, old(delivered), room, r, delivered)
      ensures !lost ==> Moves(WindowBuffer(zlib), old(given) + inp, room, r, out) && Just(WindowBuffer(zlib), old(given) + inp, r)
      ensures r.Fine? && old(dictAvail) == 0 ==> used == |inp| || |out| == room
      ensures old(dictAvail) == 0 ==> Answers(r, lastStatus, dictAvail, flush.Finish?, inp == [])
      ensures old(dictAvail) > 0 ==> used == 0 && |out| == Least(old(dictAvail), room) && lastStatus == old(lastStatus)
      ensures old(dictAvail) > 0 ==> r == if lastStatus.Finished? && dictAvail == 0 then StreamEnd else Fine
      ensures r.BufError? ==> (inp == [] && !flush.Finish?) || |out| == room
    {
      hide *;
      if dictAvail > 0 {
        used := 0;
        assert given + inp[..0] == given;
        out := Deliver(room);
        r := if lastStatus.Finished? && dictAvail == 0 then StreamEnd else Fine;
        if r.StreamEnd? {
          AllSaid(this);
        }
        LeastSome(old(dictAvail), room);
        MovingIs(WindowBuffer(zlib), old(given) + inp, room, r, out);
      } else {
        r, used, out := Loop(inp, room, flush);
      }
      if lost && !old(lost) {
        LostSays(WindowBuffer(zlib), old(given), inp, used, delivered);
      }
    }

    /** A call that does not go straight to the caller's buffer. */
    method Serve(inp: seq<u8>, room: nat, flush: Flushing) returns (r: Return, used: nat, out: seq<u8>)
      requires InWindow() && !firstCall && !Negative(lastStatus)
      modifies this`hasFlushed, this`dictOfs, this`dictAvail, this`lastStatus, this`given, this`delivered, this`lost
      modifies inf, inf.src, inf.dst, inf.dst.buf, inf.litTable, inf.litTable.lookup, inf.litTable.tree
      modifies inf.distTable, inf.distTable.lookup, inf.distTable.tree, inf.clTable, inf.clTable.lookup, inf.clTable.tree
      modifies inf.litSizes, inf.distSizes, inf.clSizes, inf.lenCodes, inf.tableSizes, inf.rawHeader
      ensures InWindow() && used <= |inp| && given == old(given) + inp[..used] && delivered == old(delivered) + out && |out| <= room
      ensures lost ==> old(lost) || Strays(WindowBuffer(zlib), BytesToBits(old(given) + inp))
      ensures r.StreamEnd? ==> Accepts(WindowBuffer(zlib), given, delivered) && (lost || Says(WindowBuffer(zlib), given, delivered))
      ensures r.StreamEnd? && !old(lost) ==> (Says(WindowBuffer(zlib), given, delivered) <==> !lost)
      ensures flush.Finish? && old(dictAvail) == 0 && !lost ==> Whole(WindowBuffer(zlib), old(given) + inp, old(delivered), room, r, delivered)
      ensures !lost ==> Moves(WindowBuffer(zlib), old(given) + inp, room, r, out) && Just(WindowBuffer(zlib), old(given) + inp, r)
      ensures r.Fine? && old(dictAvail) == 0 ==> used == |inp| || |out| == room
      ensures old(dictAvail) == 0 ==> Answers(r, lastStatus, dictAvail, flush.Finish?, inp == [])
      ensures old(dictAvail) > 0 ==> used == 0 && |out| == Least(old(dictAvail), room) && lastStatus == old(lastStatus)
      ensures old(dictAvail) > 0 ==> r == if lastStatus.Finished? && dictAvail == 0 then StreamEnd else Fine
      ensures r.BufError? ==> (inp == [] && !flush.Finish?) || |out| == room
      ensures hasFlushed == (old(hasFlushed) || flush.Finish?)
    {
      hide *;
      InWindowIs(this);
      hasFlushed := hasFlushed || flush.Finish?;
      InWindowIs(this);
      r, used, out := FromWindow(inp, room, flush);
    }

    /**
     `mz_inflate`: what is handed on is always the next part of what the stream says, none lost and none
     twice; `MZ_STREAM_END` is returned only when that is all, and with `MZ_FINISH`, an empty window and
     the rest of a sound stream at hand it is returned whenever the room is enough.
     */
    method Inflate(inp: seq<u8>, room: nat, flush: Flushing) returns (r: Return, used: nat, out: seq<u8>, ghost status: Status)
      requires Valid()
      modifies this, inf, inf.src, inf.dst, inf.dst.buf, inf.litTable, inf.litTable.lookup, inf.litTable.tree
      modifies inf.distTable, inf.distTable.lookup, inf.distTable.tree, inf.clTable, inf.clTable.lookup, inf.clTable.tree
      modifies inf.litSizes, inf.distSizes, inf.clSizes, inf.lenCodes, inf.tableSizes, inf.rawHeader
      ensures Valid() && used <= |inp| && |out| <= room && given == old(given) + inp[..used] && delivered == old(delivered) + out
      ensures lost ==> old(lost) || Strays(Cfg(), BytesToBits(old(given) + inp))
      ensures r.StreamEnd? ==> Accepts(Cfg(), given, delivered) && (lost || Says(Cfg(), given, delivered))
      ensures r.StreamEnd? && !old(lost) ==> (Says(Cfg(), given, delivered) <==> !lost)
      ensures old(Negative(lastStatus)) ==> r.DataError? && out == [] && used == 0
      ensures flush.Finish? && !old(Negative(lastStatus)) && old(dictAvail) == 0 && !lost ==>
        Whole(Cfg(), old(given) + inp, old(delivered), room, r, delivered)
      ensures !old(Negative(lastStatus)) && !r.StreamError? && !lost ==> Moves(Cfg(), old(given) + inp, room, r, out) && Just(Cfg(), old(given) + inp, r)
      ensures r.StreamError? <==> !old(Negative(lastStatus)) && old(hasFlushed) && !flush.Finish?
      ensures r.StreamError? ==> used == 0 && out == [] && lastStatus == old(lastStatus)
      ensures !firstCall && hasFlushed == (old(hasFlushed) || (flush.Finish? && !old(Negative(lastStatus))))
      ensures !old(Negative(lastStatus)) && !r.StreamError? && (flat || old(dictAvail) == 0) ==>
        Answers(r, status, if flat then 0 else dictAvail, flush.Finish?, inp == [])
      ensures !old(Negative(lastStatus)) && !r.StreamError? && !flat && old(dictAvail) > 0 ==>
        used == 0 && |out| == Least(old(dictAvail), room) && r == if lastStatus.Finished? && dictAvail == 0 then StreamEnd else Fine
      ensures lastStatus == if flat && r.BufError? then Rejected else status
      ensures r.BufError? ==> (inp == [] && !flush.Finish?) || |out| == room
      ensures r.BufError? && flat && !lost ==> Unfinished(Cfg(), given, delivered)
      ensures r.Fine? && old(dictAvail) == 0 ==> used == |inp| || |out| == room
    {
      hide *;
      StreamIs(this);
      InFlatIs(this);
      InWindowIs(this);
      CfgIs(this);
      used, out := 0, [];
      assert given + inp[..0] == given && delivered + [] == delivered && (given == [] ==> given + inp == inp);
      assert forall n: nat :: given == [] && n <= |inp| ==> given + inp[..n] == inp[..n];
      var first := firstCall;
      firstCall := false;
      status := lastStatus;
      if Negative(lastStatus) {
        r := DataError;
      } else if hasFlushed && !flush.Finish? {
        r := StreamError;
      } else if flat {
        r := StreamEnd;
        NegativeIs(lastStatus);
        AnswersIs(r, lastStatus, 0, true, inp == []);
        if !lost {
          StaysWhole(FlatBuffer(zlib), given, inp, delivered, room);
          MovingIs(FlatBuffer(zlib), given + inp, room, r, out);
        }
      } else if flush.Finish? && first {
        r, used, out, status := FirstFinish(inp, room);
        AnswersIs(r, status, 0, true, inp == []);
      } else {
        InWindowIs(this);
        r, used, out := Serve(inp, room, flush);
        status := lastStatus;
        AnswersIs(r, status, dictAvail, flush.Finish?, inp == []);
      }
      CfgIs(this);
      InFlatIs(this);
      InWindowIs(this);
      StreamIs(this);
    }
  }

  /** A new inflater with a flat output buffer, called once. */
  method RunFlat(zlib: bool, inp: seq<u8>, room: nat) returns (status: Status, used: nat, out: seq<u8>, ghost broken: bool)
    ensures used <= |inp| && |out| <= room
    ensures broken ==> Strays(FlatBuffer(zlib), BytesToBits(inp))
    ensures !broken ==> Faithful(FlatBuffer(zlib), inp[..used], out)
    ensures status.Finished? ==> Accepts(FlatBuffer(zlib), inp[..used], out) && (broken || Says(FlatBuffer(zlib), inp[..used], out))
    ensures !broken ==> forall o :: Says(FlatBuffer(zlib), inp, o) && |o| <= room ==> status.Finished? && out == o
    ensures !broken ==> Judges(FlatBuffer(zlib), inp, status, out)
    ensures !status.NeedsMoreInput? && (status.HasMoreOutput? ==> |out| == room && (broken || Unfinished(FlatBuffer(zlib), inp[..used], out)))
  {
    hide *;
    FlatBufferIs(zlib);
    var buf := new u8[room];
    var i := NewInflater(zlib, buf, false);
    AreaIs(i, 0, room);
    var consumed, produced;
    status, consumed, produced := i.Decompress(inp, 0, room, false);
    assert [] + inp == inp && [] + inp[..consumed] == inp[..consumed] && [] + buf[0..0 + produced] == buf[..produced];
    MeansIs(i, status, false, consumed == |inp|, produced == room);
    FlatFacts(i, inp, status, consumed, produced);
    assert inp[..consumed] == [] + inp[..consumed] && [] + inp == inp;
    OfferedAll(i, [], inp, consumed, status, false, produced == room);
    used, out, broken := consumed, buf[..produced], i.broken;
    if status.HasMoreOutput? && !broken {
      MoreToCome(i);
    }
  }

  lemma MoreToCome(i: Inflater)
    requires i.Valid() && !i.broken && Pressed(i.loc)
    ensures Unfinished(i.cfg, i.src.taken, i.dst.written)
  {
    hide *;
    forall stream, t | i.src.taken <= stream && HasOutcome(i.cfg, stream, t)
      ensures |i.dst.written| < |t.core.out|
    {
      NeverWrong(i, stream, t);
    }
    UnfinishedIs(i.cfg, i.src.taken, i.dst.written);
  }

  lemma UnfinishedIs(cfg: Config, given: seq<u8>, delivered: seq<u8>)
    ensures Unfinished(cfg, given, delivered) <==> forall stream, t :: given <= stream && HasOutcome(cfg, stream, t) ==> |delivered| < |t.core.out|
  {
    hide HasOutcome;
  }

  lemma LeastSome(a: nat, b: nat)
    requires a > 0
    ensures Least(a, b) > 0 || b == 0
  {
  }

  lemma AnswersIs(r: Return, status: Status, avail: nat, finish: bool, noInput: bool)
    ensures Answers(r, status, avail, finish, noInput) <==>
      && (r.DataError? <==> status.BadChecksum? || status.Rejected? || status.CannotProgress?)
      && (r.StreamEnd? <==> status.Finished? && avail == 0)
      && (r.BufError? <==> (status.NeedsMoreInput? && noInput) || (finish && (status.HasMoreOutput? || (status.Finished? && avail > 0))))
      && !r.StreamError?
  {
  }

  lemma NegativeIs(s: Status)
    ensures Negative(s) <==> s.BadChecksum? || s.Rejected? || s.CannotProgress?
  {
  }

  lemma HoldsAtFirst(dict: seq<u8>)
    requires |dict| == DICT_SIZE
    ensures Holds([], dict, 0, 0, [])
  {
  }

  lemma HoldsRange(delivered: seq<u8>, dict: seq<u8>, ofs: nat, avail: nat, written: seq<u8>)
    requires Holds(delivered, dict, ofs, avail, written)
    ensures |dict| == DICT_SIZE && ofs < DICT_SIZE && ofs + avail <= DICT_SIZE
    ensures delivered <= written && |delivered| + avail == |written|
  {
  }

  lemma EndedIs(s: InflateStream)
    ensures s.Ended() <==> s.inf.point.PDone? && (s.zlib ==> s.inf.zAdler == A.Checksum(s.inf.dst.written))
  {
    hide A.Checksum;
  }

  lemma StreamIs(s: InflateStream)
    ensures s.Valid() <==> if s.flat then s.InFlat() else s.InWindow()
  {
    hide InflateStream.InFlat, InflateStream.InWindow;
  }

  lemma CfgIs(s: InflateStream)
    ensures s.Cfg() == if s.flat then FlatBuffer(s.zlib) else WindowBuffer(s.zlib)
  {
  }

  lemma InFlatIs(s: InflateStream)
    ensures s.InFlat() <==>
      && !s.firstCall && s.hasFlushed && (Negative(s.lastStatus) || s.lastStatus.Finished?)
      && (s.lost || Faithful(FlatBuffer(s.zlib), s.given, s.delivered))
      && (s.lastStatus.Finished? ==> Accepts(FlatBuffer(s.zlib), s.given, s.delivered) && (s.lost || Says(FlatBuffer(s.zlib), s.given, s.delivered)))
  {
    hide Faithful, Accepts, Says;
  }

  lemma InWindowIs(s: InflateStream)
    ensures s.InWindow() <==>
      && s.inf.Valid() && s.inf.Summed() && s.inf.cfg == WindowBuffer(s.zlib) && (s.inf.broken ==> s.lost) && s.given == s.inf.src.taken
      && Holds(s.delivered, s.inf.dst.buf[..], s.dictOfs, s.dictAvail, s.inf.dst.written)
      && (Negative(s.lastStatus) || s.inf.summed == s.inf.dst.written) && (s.lastStatus.Finished? ==> s.Ended())
      && (s.firstCall ==> s.given == [] && s.delivered == [])
  {
    hide Inflater.Valid, Inflater.Summed, Holds, InflateStream.Ended, Negative;
  }

  /** After a call that offered `rest`. */
  lemma OfferedAll(i: Inflater, given: seq<u8>, rest: seq<u8>, consumed: nat, status: Status, hasMore: bool, full: bool)
    requires i.Valid() && consumed <= |rest| && i.src.taken == given + rest[..consumed] && i.Means(status, hasMore, consumed == |rest|, full)
    requires i.point.PDone? && i.cfg.zlib ==> (status.Finished? <==> i.zAdler == A.Checksum(i.dst.written))
    ensures !i.broken ==> Judges(i.cfg, given + rest, status, i.dst.written)
  {
    hide *;
    assert given + rest[..consumed] <= given + rest by { assert rest == rest[..consumed] + rest[consumed..]; }
    assert consumed == |rest| ==> rest[..consumed] == rest;
    if !i.broken {
      forall o | Says(i.cfg, given + rest, o)
        ensures Heading(status, i.dst.written, o)
      {
        var t := SaidBy(i.cfg, given + rest, o);
        EndsIs(i.cfg, t, o);
        OutcomeTold(i, status, hasMore, consumed == |rest|, full, given + rest, t);
        HeadingIs(status, i.dst.written, o);
      }
      forall o | FailsWith(i.cfg, given + rest, o)
        ensures Failing(status, i.dst.written, o)
      {
        var t := FailedBy(i.cfg, given + rest, o);
        OutcomeTold(i, status, hasMore, consumed == |rest|, full, given + rest, t);
        FailingIs(status, i.dst.written, o);
      }
      JudgesIs(i.cfg, given + rest, status, i.dst.written);
    }
  }

  /** What the status of a call that offered the rest of a stream says about its outcome. */
  lemma OutcomeTold(i: Inflater, status: Status, hasMore: bool, allTaken: bool, full: bool, stream: seq<u8>, t: State)
    requires i.Valid() && !i.broken && i.src.taken <= stream && HasOutcome(i.cfg, stream, t)
    requires i.Means(status, hasMore, allTaken, full) && (allTaken ==> i.src.taken == stream)
    requires i.point.PDone? && i.cfg.zlib ==> (status.Finished? <==> i.zAdler == A.Checksum(i.dst.written))
    ensures (status.Finished? || status.BadChecksum? || status.Rejected? || status.HasMoreOutput?) && i.dst.written <= t.core.out
    ensures status.HasMoreOutput? ==> |i.dst.written| < |t.core.out|
    ensures !status.HasMoreOutput? ==> i.dst.written == t.core.out
    ensures Ends(i.cfg, t, t.core.out) ==> status.Finished? || status.HasMoreOutput?
    ensures status.Finished? ==> Ends(i.cfg, t, t.core.out)
  {
    hide *;
    MeansIs(i, status, hasMore, allTaken, full);
    CallOutcome(i, status, hasMore, allTaken, full, true, stream, t);
    EndsIs(i.cfg, t, t.core.out);
  }

  lemma FailedBy(cfg: Config, stream: seq<u8>, out: seq<u8>) returns (t: State)
    requires FailsWith(cfg, stream, out)
    ensures HasOutcome(cfg, stream, t) && t.core.out == out && !Ends(cfg, t, out)
  {
    t :| HasOutcome(cfg, stream, t) && t.core.out == out && !Ends(cfg, t, out);
  }

  lemma FailingIs(status: Status, written: seq<u8>, o: seq<u8>)
    ensures Failing(status, written, o) <==>
      && (status.BadChecksum? || status.Rejected? || status.HasMoreOutput?) && written <= o
      && (status.HasMoreOutput? ==> |written| < |o|) && (!status.HasMoreOutput? ==> written == o)
  {
  }

  lemma JudgesIs(cfg: Config, stream: seq<u8>, status: Status, written: seq<u8>)
    ensures Judges(cfg, stream, status, written) <==>
      && (forall o :: Says(cfg, stream, o) ==> Heading(status, written, o))
      && (forall o :: FailsWith(cfg, stream, o) ==> Failing(status, written, o))
  {
    hide Says, FailsWith, Heading, Failing;
  }

  lemma HeadingIs(status: Status, written: seq<u8>, o: seq<u8>)
    ensures Heading(status, written, o) <==>
      && (status.Finished? || status.HasMoreOutput?) && written <= o
      && (status.Finished? ==> written == o) && (status.HasMoreOutput? ==> |written| < |o|)
  {
  }

  /** When all is handed on. */
  lemma AllSaid(s: InflateStream)
    requires s.InWindow() && s.lastStatus.Finished? && s.dictAvail == 0
    ensures Accepts(WindowBuffer(s.zlib), s.given, s.delivered) && (s.lost || Says(WindowBuffer(s.zlib), s.given, s.delivered))
  {
    hide *;
    InWindowIs(s);
    WindowIs(s.zlib);
    EndedIs(s);
    HoldsNothing(s.delivered, s.inf.dst.buf[..], s.dictOfs, s.inf.dst.written);
    EndAccepts(s.inf, s.given);
    if !s.lost {
      var t := EndedThere(s.inf, s.given);
      EndsIs(s.inf.cfg, t, s.delivered);
      SaysIs(s.inf.cfg, s.given, t, s.delivered);
    }
  }

  /** What is lost in a call says nothing. */
  lemma LostSays(cfg: Config, given: seq<u8>, inp: seq<u8>, used: nat, o: seq<u8>)
    requires used <= |inp| && Strays(cfg, BytesToBits(given + inp))
    ensures !Says(cfg, given + inp[..used], o)
  {
    hide *;
    assert given + inp == given + inp[..used] + inp[used..];
    if Says(cfg, given + inp[..used], o) {
      LongerSays(cfg, given + inp[..used], inp[used..], o);
      SaysNoStray(cfg, given + inp, o);
    }
  }

  lemma WholeIs(cfg: Config, stream: seq<u8>, delivered: seq<u8>, room: nat, r: Return, delivered': seq<u8>)
    requires forall o :: Says(cfg, stream, o) && |o| <= |delivered| + room ==> r.StreamEnd? && delivered' == o
    requires forall o :: !FailsWith(cfg, stream, o)
    ensures Whole(cfg, stream, delivered, room, r, delivered')
  {
    hide Says, FailsWith;
  }

  /** With `MZ_FINISH` a call ends early only for want of room. */
  lemma WholeAt(cfg: Config, stream: seq<u8>, delivered: seq<u8>, room: nat, out: seq<u8>, status: Status, written: seq<u8>, avail: nat, r: Return)
    requires Judges(cfg, stream, status, written)
    requires delivered + out <= written && |delivered + out| + avail == |written|
    requires |out| <= room && (avail > 0 ==> |out| == room) && (status.HasMoreOutput? ==> |out| == room)
    requires status.Finished? ==> r.StreamEnd? == (avail == 0)
    requires Negative(status) ==> r.DataError?
    ensures Whole(cfg, stream, delivered, room, r, delivered + out)
  {
    hide Says, FailsWith;
  }

  lemma BeMoving(cfg: Config, stream: seq<u8>, status: Status, written: seq<u8>, room: nat, r: Return, out: seq<u8>)
    requires Judges(cfg, stream, status, written)
    requires (status.HasMoreOutput? ==> out != [] || room == 0) && (status.Finished? ==> r.StreamEnd? || |out| == room)
    requires Negative(status) <==> r.DataError?
    ensures Moves(cfg, stream, room, r, out) && Just(cfg, stream, r)
  {
    hide Says, FailsWith;
  }

  lemma MovingIs(cfg: Config, stream: seq<u8>, room: nat, r: Return, out: seq<u8>)
    requires out != [] || room == 0 || (r.StreamEnd? && forall o :: !FailsWith(cfg, stream, o))
    requires !r.DataError?
    ensures Moves(cfg, stream, room, r, out) && Just(cfg, stream, r)
  {
    hide Says, FailsWith;
  }

  lemma FlatFacts(i: Inflater, inp: seq<u8>, status: Status, consumed: nat, produced: nat)
    requires i.Valid() && i.cfg == FlatBuffer(i.cfg.zlib) && consumed <= |inp| && i.src.taken == inp[..consumed] && |i.dst.written| == produced
    requires i.Means(status, false, consumed == |inp|, produced == i.dst.buf.Length)
    requires i.point.PDone? && i.cfg.zlib ==> (status.Finished? <==> i.zAdler == A.Checksum(i.dst.written))
    requires i.broken ==> Strays(i.cfg, BytesToBits(inp))
    ensures !i.broken ==> Faithful(i.cfg, inp[..consumed], i.dst.written)
    ensures status.Finished? ==> Accepts(i.cfg, inp[..consumed], i.dst.written) && (i.broken || Says(i.cfg, inp[..consumed], i.dst.written))
    ensures !i.broken ==> forall o :: Says(i.cfg, inp, o) && |o| <= i.dst.buf.Length ==> status.Finished? && i.dst.written == o
  {
    hide *;
    OneCall(i, inp, status, consumed, produced);
    MeansIs(i, status, false, consumed == |inp|, produced == i.dst.buf.Length);
    if status.Finished? {
      EndAccepts(i, inp[..consumed]);
    }
    if !i.broken {
      BeFaithful(i);
      if status.Finished? {
        var t := EndedThere(i, inp[..consumed]);
        EndsIs(i.cfg, t, i.dst.written);
        SaysIs(i.cfg, inp[..consumed], t, i.dst.written);
      }
    }
  }

  lemma BeFaithful(i: Inflater)
    requires i.Valid() && !i.broken
    ensures Faithful(i.cfg, i.src.taken, i.dst.written)
  {
    hide *;
    forall stream, o | i.src.taken <= stream && Says(i.cfg, stream, o)
      ensures i.dst.written <= o
    {
      var t := SaidBy(i.cfg, stream, o);
      EndsIs(i.cfg, t, o);
      NeverWrong(i, stream, t);
    }
    FaithfulIs(i.cfg, i.src.taken, i.dst.written);
  }

  lemma FaithfulIs(cfg: Config, given: seq<u8>, delivered: seq<u8>)
    ensures Faithful(cfg, given, delivered) <==> forall stream, o :: given <= stream && Says(cfg, stream, o) ==> delivered <= o
  {
    hide Says;
  }

  /** At every point of every use: what has been handed on is the beginning of what the stream says. */
  lemma AlwaysFaithful(s: InflateStream)
    requires s.Valid() && !s.lost
    ensures Faithful(s.Cfg(), s.given, s.delivered)
  {
    hide *;
    StreamIs(s);
    CfgIs(s);
    InFlatIs(s);
    InWindowIs(s);
    if !s.flat {
      BeFaithful(s.inf);
      HoldsRange(s.delivered, s.inf.dst.buf[..], s.dictOfs, s.dictAvail, s.inf.dst.written);
      FaithfulIs(s.inf.cfg, s.given, s.inf.dst.written);
      FaithfulIs(s.inf.cfg, s.given, s.delivered);
    }
  }

  lemma LongerSays(cfg: Config, stream: seq<u8>, more: seq<u8>, o: seq<u8>)
    requires Says(cfg, stream, o)
    ensures Says(cfg, stream + more, o)
  {
    hide BytesToBits, Reaches, A.Checksum;
    var t :| HasOutcome(cfg, stream, t) && Ends(cfg, t, o);
    BytesToBitsConcat(stream, more);
    TakeMore(cfg, BytesToBits(stream), t.core, t.rest, BytesToBits(more));
    assert HasOutcome(cfg, stream + more, t.(rest := t.rest + BytesToBits(more)));
    assert Ends(cfg, t.(rest := t.rest + BytesToBits(more)), o);
  }

  /** A stream says one thing. */
  lemma SaysOne(cfg: Config, stream: seq<u8>, o: seq<u8>, p: seq<u8>)
    requires Says(cfg, stream, o) && Says(cfg, stream, p)
    ensures o == p
  {
    hide Reaches, BytesToBits, A.Checksum;
    var t :| HasOutcome(cfg, stream, t) && Ends(cfg, t, o);
    var u :| HasOutcome(cfg, stream, u) && Ends(cfg, u, p);
    OutcomeUnique(cfg, State(S.Start(cfg.zlib), BytesToBits(stream)), t, u);
  }

  /** A stream that says something is not a wrong one. */
  lemma SaysNoFailure(cfg: Config, stream: seq<u8>, o: seq<u8>, p: seq<u8>)
    requires Says(cfg, stream, o)
    ensures !FailsWith(cfg, stream, p)
  {
    hide Reaches, BytesToBits, A.Checksum;
    var t :| HasOutcome(cfg, stream, t) && Ends(cfg, t, o);
    if FailsWith(cfg, stream, p) {
      var u :| HasOutcome(cfg, stream, u) && u.core.out == p && !Ends(cfg, u, p);
      OutcomeUnique(cfg, State(S.Start(cfg.zlib), BytesToBits(stream)), t, u);
    }
  }

  lemma StaysWhole(cfg: Config, given: seq<u8>, inp: seq<u8>, delivered: seq<u8>, room: nat)
    requires Says(cfg, given, delivered)
    ensures Whole(cfg, given + inp, delivered, room, StreamEnd, delivered) && forall o :: !FailsWith(cfg, given + inp, o)
  {
    hide *;
    LongerSays(cfg, given, inp, delivered);
    forall o | Says(cfg, given + inp, o) && |o| <= |delivered| + room
      ensures delivered == o
    {
      SaysOne(cfg, given + inp, o, delivered);
    }
    forall o
      ensures !FailsWith(cfg, given + inp, o)
    {
      SaysNoFailure(cfg, given + inp, delivered, o);
    }
    WholeIs(cfg, given + inp, delivered, room, StreamEnd, delivered);
  }

  /** A stream that says `o`: what it has come to after a call that offered all of it. */
  ghost predicate Heading(status: Status, written: seq<u8>, o: seq<u8>)
  {
    && (status.Finished? || status.HasMoreOutput?) && written <= o
    && (status.Finished? ==> written == o) && (status.HasMoreOutput? ==> |written| < |o|)
  }

  /** A stream that fails with `o`: what it has come to after a call that offered all of it. */
  ghost predicate Failing(status: Status, written: seq<u8>, o: seq<u8>)
  {
    && (status.BadChecksum? || status.Rejected? || status.HasMoreOutput?) && written <= o
    && (status.HasMoreOutput? ==> |written| < |o|) && (!status.HasMoreOutput? ==> written == o)
  }

  ghost predicate Judges(cfg: Config, stream: seq<u8>, status: Status, written: seq<u8>)
  {
    && (forall o :: Says(cfg, stream, o) ==> Heading(status, written, o))
    && (forall o :: FailsWith(cfg, stream, o) ==> Failing(status, written, o))
  }
}
