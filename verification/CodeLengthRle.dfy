/**
 Run-length coding of code lengths (section 3.2.7 of RFC 1951; miniz.c, `TDEFL_RLE_PREV_CODE_SIZE`,
 `TDEFL_RLE_ZERO_CODE_SIZE` and the loop of `tdefl_start_dynamic_block`).
 */
module CodeLengthRle {
  import opened Bits

  /** A symbol 0..18 of the code-length alphabet with the value of its extra bits. */
  datatype Item = Item(sym: nat, extra: nat)
  {
    ghost predicate Valid()
    {
      && sym <= 18
      && extra < Pow2(ExtraBits(sym))
    }
  }

  /** "\02\03\07"[sym - 16] */
  function ExtraBits(sym: nat): nat
  {
    if sym == 16 then 2 else if sym == 17 then 3 else if sym == 18 then 7 else 0
  }

  /** "\03\03\013"[sym - 16] */
  function RunBase(sym: nat): nat
  {
    if sym == 18 then 11 else 3
  }

  function Rep(v: nat, n: nat): (r: seq<nat>)
    ensures |r| == n
    ensures forall i :: 0 <= i < n ==> r[i] == v
  {
    seq(n, _ => v)
  }

  function LastOr0(s: seq<nat>): nat
  {
    if s == [] then 0 else s[|s| - 1]
  }

  /** What one item appends to the lengths decoded so far. */
  function ItemLens(done: seq<nat>, it: Item): (r: seq<nat>)
  {
    if it.sym < 16 then [it.sym]
    else Rep(if it.sym == 16 then LastOr0(done) else 0, it.extra + RunBase(it.sym))
  }

  function Expand(items: seq<Item>): seq<nat>
  {
    if items == [] then []
    else
      var done := Expand(items[..|items| - 1]);
      done + ItemLens(done, items[|items| - 1])
  }

  /** A repeat item never comes first. */
  ghost predicate ValidItems(items: seq<Item>)
  {
    && (forall k :: 0 <= k < |items| ==> items[k].Valid())
    && (items != [] ==> items[0].sym != 16)
  }

  /** The byte array the compressor keeps: a symbol, then its extra value if it has one. */
  function Flatten(items: seq<Item>): seq<nat>
  {
    if items == [] then []
    else
      var it := items[|items| - 1];
      Flatten(items[..|items| - 1]) + (if it.sym < 16 then [it.sym] else [it.sym, it.extra])
  }

  function Occurrences(items: seq<Item>, sym: nat): nat
  {
    if items == [] then 0
    else Occurrences(items[..|items| - 1], sym) + (if items[|items| - 1].sym == sym then 1 else 0)
  }

  lemma Snoc(items: seq<Item>, it: Item)
    ensures Expand(items + [it]) == Expand(items) + ItemLens(Expand(items), it)
    ensures Flatten(items + [it]) == Flatten(items) + (if it.sym < 16 then [it.sym] else [it.sym, it.extra])
    ensures forall s :: Occurrences(items + [it], s) == Occurrences(items, s) + (if it.sym == s then 1 else 0)
    ensures ValidItems(items) && it.Valid() && (it.sym == 16 ==> items != []) ==> ValidItems(items + [it])
  {
    assert (items + [it])[..|items + [it]| - 1] == items;
  }

  /** There are never more packed entries than lengths. */
  lemma {:induction false} PackedNoLonger(items: seq<Item>)
    ensures |items| <= |Flatten(items)| <= |Expand(items)|
  {
    if items != [] {
      PackedNoLonger(items[..|items| - 1]);
    }
  }

  lemma {:induction false} FlattenPrefix(items: seq<Item>, k: nat)
    requires k <= |items|
    ensures Flatten(items[..k]) <= Flatten(items)
    ensures k < |items| ==> |Flatten(items[..k])| < |Flatten(items)| && Flatten(items)[|Flatten(items[..k])|] == items[k].sym
    ensures k < |items| && items[k].sym >= 16 ==>
      |Flatten(items[..k])| + 1 < |Flatten(items)| && Flatten(items)[|Flatten(items[..k])| + 1] == items[k].extra
    decreases |items|
  {
    if k == |items| {
      assert items[..k] == items;
    } else {
      var init := items[..|items| - 1];
      assert init[..k] == items[..k];
      FlattenPrefix(init, k);
    }
  }

  lemma RepSnoc(v: nat, n: nat)
    requires n > 0
    ensures Rep(v, n) == [v] + Rep(v, n - 1) == Rep(v, n - 1) + [v]
  {
  }

  // ---------------------------------------------------------------- pending runs

  /** The lengths `done` are those of `items` and a pending run: `zeros` zeros or `repeats` copies of `prev`. */
  ghost predicate Pending(items: seq<Item>, zeros: nat, repeats: nat, prev: nat, done: seq<nat>)
  {
    && zeros < 138 && repeats < 6 && (zeros == 0 || repeats == 0)
    && (repeats > 0 ==> 0 < prev <= 15)
    && (prev <= 15 ==> if prev == 0 then repeats == 0 else zeros == 0 && items != [] && LastOr0(Expand(items)) == prev)
    && done == Expand(items) + Rep(0, zeros) + Rep(prev, repeats)
  }

  ghost predicate Room(items: seq<Item>, it: Item)
  {
    |Flatten(items)| + (if it.sym < 16 then 1 else 2) <= 320
  }

  lemma ItemsFor(done: seq<nat>, v: nat, n: nat)
    requires 0 < n
    ensures v <= 15 ==> Item(v, 0).Valid() && ItemLens(done, Item(v, 0)) == Rep(v, 1)
    ensures 3 <= n <= 6 ==> Item(16, n - 3).Valid() && ItemLens(done, Item(16, n - 3)) == Rep(LastOr0(done), n)
  {
    Pow2Values();
    PowerNone();
    hide Pow2;
  }

  lemma PowerNone()
    ensures Pow2(0) == 1
  {
  }

  lemma RepSplit(v: nat, n: nat, k: nat)
    requires k <= n
    ensures Rep(v, n) == Rep(v, k) + Rep(v, n - k)
  {
  }

  /** An item standing for the first of the pending lengths leaves the rest pending. */
  lemma FlushOne(items: seq<Item>, repeats: nat, prev: nat, done: seq<nat>, it: Item, n: nat)
    requires Pending(items, 0, repeats, prev, done) && |done| <= 320 && 0 < n <= repeats
    requires (n == 1 && it == Item(prev, 0)) || (n >= 3 && it == Item(16, n - 3))
    ensures it.Valid() && Room(items, it) && items != []
    ensures Pending(items + [it], 0, repeats - n, prev, done)
  {
    PackedNoLonger(items);
    Snoc(items, it);
    ItemsFor(Expand(items), prev, n);
    RepSplit(prev, repeats, n);
    hide Expand, Flatten, Occurrences, ItemLens, Item.Valid;
    assert LastOr0(Rep(prev, n)) == prev;
    assert Expand(items) + Rep(0, 0) + Rep(prev, repeats) == Expand(items) + Rep(prev, n) + Rep(0, 0) + Rep(prev, repeats - n);
  }

  lemma FlushZero(items: seq<Item>, zeros: nat, prev: nat, done: seq<nat>, it: Item, n: nat)
    requires Pending(items, zeros, 0, prev, done) && |done| <= 320 && 0 < n <= zeros
    requires (n == 1 && it == Item(0, 0)) || (3 <= n <= 10 && it == Item(17, n - 3)) || (n > 10 && it == Item(18, n - 11))
    ensures it.Valid() && Room(items, it) && it.sym != 16
    ensures Pending(items + [it], zeros - n, 0, prev, done)
  {
    PackedNoLonger(items);
    Snoc(items, it);
    Pow2Values();
    assert Rep(0, zeros) == Rep(0, n) + Rep(0, zeros - n);
    assert ItemLens(Expand(items), it) == Rep(0, n);
  }

  lemma PutZero(items: seq<Item>, zeros: nat, prev: nat, done: seq<nat>)
    requires Pending(items, zeros, 0, prev, done) && |done| < 320
    ensures zeros + 1 < 138 ==> Pending(items, zeros + 1, 0, 0, done + [0])
    ensures zeros + 1 == 138 ==> Item(18, 127).Valid() && Room(items, Item(18, 127)) && Pending(items + [Item(18, 127)], 0, 0, 0, done + [0])
  {
    hide Expand, Flatten, Occurrences;
    RepSnoc(0, zeros + 1);
    PendingZeros(items, zeros, prev, done);
    if zeros + 1 == 138 {
      Longest(items);
      Snoc(items, Item(18, 127));
      PackedNoLonger(items);
    }
  }

  lemma PendingZeros(items: seq<Item>, zeros: nat, prev: nat, done: seq<nat>)
    requires Pending(items, zeros, 0, prev, done)
    ensures zeros < 138 && done == Expand(items) + Rep(0, zeros) && done + [0] == Expand(items) + (Rep(0, zeros) + [0])
  {
    hide Expand;
  }

  /** The longest run of zeros. */
  lemma Longest(items: seq<Item>)
    ensures Item(18, 127).Valid() && ItemLens(Expand(items), Item(18, 127)) == Rep(0, 138)
  {
    hide Expand;
    Pow2Values();
  }

  lemma PutNew(items: seq<Item>, prev: nat, done: seq<nat>, size: nat)
    requires Pending(items, 0, 0, prev, done) && |done| < 320 && 0 < size <= 15
    ensures Item(size, 0).Valid() && Room(items, Item(size, 0)) && Pending(items + [Item(size, 0)], 0, 0, size, done + [size])
  {
    PackedNoLonger(items);
    Snoc(items, Item(size, 0));
  }

  lemma PutSame(items: seq<Item>, repeats: nat, prev: nat, done: seq<nat>)
    requires Pending(items, 0, repeats, prev, done) && |done| < 320 && 0 < prev <= 15
    ensures repeats + 1 < 6 ==> Pending(items, 0, repeats + 1, prev, done + [prev])
    ensures repeats + 1 == 6 ==> Item(16, 3).Valid() && Room(items, Item(16, 3)) && items != [] && Pending(items + [Item(16, 3)], 0, 0, prev, done + [prev])
  {
    RepSnoc(prev, repeats + 1);
    PackedNoLonger(items);
    Snoc(items, Item(16, 3));
    ItemsFor(Expand(items), prev, 6);
    hide Expand, Flatten, Occurrences, ItemLens, Item.Valid;
    assert Expand(items) + Rep(0, 0) + Rep(prev, repeats) + [prev] == Expand(items) + Rep(0, 0) + (Rep(prev, repeats) + [prev]);
    if repeats + 1 == 6 {
      assert Expand(items) + Rep(0, 0) + Rep(prev, 6) == Expand(items) + Rep(prev, 6) + Rep(0, 0) + Rep(prev, 0);
    }
  }

  // ---------------------------------------------------------------- which items

  /** `k` times the same item. */
  function Times(it: Item, k: nat): (r: seq<Item>)
    ensures |r| == k
  {
    seq(k, _ => it)
  }

  lemma TimesMore(it: Item, k: nat)
    ensures Times(it, k + 1) == Times(it, k) + [it] && Times(it, 0) == []
  {
  }

  /** Fewer than 138 zeros. */
  function ZerosItems(n: nat): seq<Item>
  {
    if n < 3 then Times(Item(0, 0), n) else if n <= 10 then [Item(17, n - 3)] else [Item(18, n - 11)]
  }

  /** Fewer than six more of a length. */
  function RepeatItems(v: nat, n: nat): seq<Item>
  {
    if n < 3 then Times(Item(v, 0), n) else [Item(16, n - 3)]
  }

  /** A whole run: zeros in runs of 138, others once and then in runs of six, and what is left over. */
  function RunItems(v: nat, n: nat): seq<Item>
    requires n > 0
  {
    if v == 0 then Times(Item(18, 127), n / 138) + ZerosItems(n % 138)
    else [Item(v, 0)] + Times(Item(16, 3), (n - 1) / 6) + RepeatItems(v, (n - 1) % 6)
  }

  /** The length of the run at the end. */
  function RunLen(s: seq<nat>): (n: nat)
    ensures n <= |s| && (s != [] ==> n > 0)
  {
    if s == [] then 0
    else if |s| >= 2 && s[|s| - 2] == s[|s| - 1] then 1 + RunLen(s[..|s| - 1])
    else 1
  }

  /** Run after run. */
  function PackLens(s: seq<nat>): seq<Item>
  {
    if s == [] then [] else PackLens(s[..|s| - RunLen(s)]) + RunItems(s[|s| - 1], RunLen(s))
  }

  lemma RunSnoc(s: seq<nat>, x: nat)
    ensures var t := s + [x];
      if s != [] && s[|s| - 1] == x then RunLen(t) == RunLen(s) + 1 && t[..|t| - RunLen(t)] == s[..|s| - RunLen(s)]
      else RunLen(t) == 1 && t[..|t| - RunLen(t)] == s
  {
    var t := s + [x];
    assert t[..|t| - 1] == s && t[|t| - 1] == x && (s != [] ==> t[|t| - 2] == s[|s| - 1]);
    if s != [] && s[|s| - 1] == x {
      assert t[..|t| - (RunLen(s) + 1)] == s[..|s| - RunLen(s)];
    }
  }

  /** Of a run of `n` times `v` there are whole items after `before`, and what is pending. */
  ghost predicate RunSoFar(before: seq<Item>, items: seq<Item>, zeros: nat, repeats: nat, v: nat, n: nat)
  {
    n > 0 &&
    if v == 0 then repeats == 0 && zeros == n % 138 && items == before + Times(Item(18, 127), n / 138)
    else zeros == 0 && repeats == (n - 1) % 6 && items == before + ([Item(v, 0)] + Times(Item(16, 3), (n - 1) / 6))
  }

  /** All runs but the last are packed, and the last one is so far. */
  ghost predicate PackedSoFar(items: seq<Item>, zeros: nat, repeats: nat, prev: nat, done: seq<nat>)
  {
    if done == [] then items == [] && zeros == 0 && repeats == 0 && prev > 15
    else prev == done[|done| - 1] && RunSoFar(PackLens(done[..|done| - RunLen(done)]), items, zeros, repeats, prev, RunLen(done))
  }

  /** The items for what is pending. */
  function Rest(zeros: nat, repeats: nat, prev: nat): seq<Item>
  {
    if repeats > 0 then RepeatItems(prev, repeats) else ZerosItems(zeros)
  }

  lemma NoItems(v: nat)
    ensures ZerosItems(0) == [] && RepeatItems(v, 0) == []
  {
  }

  lemma RunWhole(before: seq<Item>, items: seq<Item>, zeros: nat, repeats: nat, v: nat, n: nat)
    requires RunSoFar(before, items, zeros, repeats, v, n)
    ensures before + RunItems(v, n) == items + Rest(zeros, repeats, v)
  {
    NoItems(v);
    hide Times, ZerosItems, RepeatItems;
    if v == 0 {
      assert before + Times(Item(18, 127), n / 138) + ZerosItems(zeros) == before + (Times(Item(18, 127), n / 138) + ZerosItems(zeros));
    } else {
      var whole, rest := [Item(v, 0)] + Times(Item(16, 3), (n - 1) / 6), RepeatItems(v, repeats);
      assert before + whole + rest == before + (whole + rest);
    }
  }

  lemma RunFirst(before: seq<Item>, x: nat)
    ensures if x == 0 then RunSoFar(before, before, 1, 0, 0, 1) else RunSoFar(before, before + [Item(x, 0)], 0, 0, x, 1)
  {
    TimesMore(Item(18, 127), 0);
    TimesMore(Item(16, 3), 0);
    assert before + [] == before && [Item(x, 0)] + [] == [Item(x, 0)];
  }

  lemma RunZero(before: seq<Item>, items: seq<Item>, zeros: nat, n: nat)
    requires RunSoFar(before, items, zeros, 0, 0, n)
    ensures zeros < 138
    ensures if zeros + 1 < 138 then RunSoFar(before, items, zeros + 1, 0, 0, n + 1) else RunSoFar(before, items + [Item(18, 127)], 0, 0, 0, n + 1)
  {
    TimesMore(Item(18, 127), n / 138);
    NextMod(n, 138);
    hide Times;
    assert before + Times(Item(18, 127), n / 138) + [Item(18, 127)] == before + (Times(Item(18, 127), n / 138) + [Item(18, 127)]);
  }

  lemma RunSame(before: seq<Item>, items: seq<Item>, repeats: nat, v: nat, n: nat)
    requires RunSoFar(before, items, 0, repeats, v, n) && v > 0
    ensures repeats < 6
    ensures if repeats + 1 < 6 then RunSoFar(before, items, 0, repeats + 1, v, n + 1) else RunSoFar(before, items + [Item(16, 3)], 0, 0, v, n + 1)
  {
    TimesMore(Item(16, 3), (n - 1) / 6);
    NextMod(n - 1, 6);
    hide Times;
    var one, six, k := [Item(v, 0)], Item(16, 3), (n - 1) / 6;
    assert before + (one + Times(six, k)) + [six] == before + (one + (Times(six, k) + [six]));
  }

  lemma NextMod(n: nat, m: nat)
    requires m > 0
    ensures n % m + 1 < m ==> (n + 1) % m == n % m + 1 && (n + 1) / m == n / m
    ensures n % m + 1 == m ==> (n + 1) % m == 0 && (n + 1) / m == n / m + 1
  {
    var q, r := DivMod(n, m);
    if r + 1 < m {
      DivUnique(n + 1, m, q, r + 1);
    } else {
      Distrib(q, 1, m);
      DivUnique(n + 1, m, q + 1, 0);
    }
  }

  lemma AllPacked(items: seq<Item>, zeros: nat, repeats: nat, prev: nat, done: seq<nat>)
    requires PackedSoFar(items, zeros, repeats, prev, done)
    ensures PackLens(done) == items + Rest(zeros, repeats, prev)
  {
    hide RunSoFar, RunLen, RunItems, Times;
    if done == [] {
      NoItems(prev);
    } else {
      RunWhole(PackLens(done[..|done| - RunLen(done)]), items, zeros, repeats, prev, RunLen(done));
    }
  }

  /** The next length begins a new run. */
  lemma PackedNew(items: seq<Item>, zeros: nat, repeats: nat, prev: nat, done: seq<nat>, x: nat)
    requires PackedSoFar(items, zeros, repeats, prev, done) && x != prev && x <= 15
    ensures var all := items + Rest(zeros, repeats, prev);
      if x == 0 then PackedSoFar(all, 1, 0, 0, done + [0]) else PackedSoFar(all + [Item(x, 0)], 0, 0, x, done + [x])
  {
    hide RunSoFar, RunLen, PackLens, Rest;
    AllPacked(items, zeros, repeats, prev, done);
    RunSnoc(done, x);
    RunFirst(PackLens(done), x);
  }

  /** The next length goes on with the run. */
  lemma PackedZero(items: seq<Item>, zeros: nat, done: seq<nat>)
    requires PackedSoFar(items, zeros, 0, 0, done)
    ensures zeros < 138
    ensures if zeros + 1 < 138 then PackedSoFar(items, zeros + 1, 0, 0, done + [0]) else PackedSoFar(items + [Item(18, 127)], 0, 0, 0, done + [0])
  {
    hide RunSoFar, RunLen, PackLens;
    RunSnoc(done, 0);
    RunZero(PackLens(done[..|done| - RunLen(done)]), items, zeros, RunLen(done));
  }

  lemma PackedSame(items: seq<Item>, repeats: nat, prev: nat, done: seq<nat>)
    requires PackedSoFar(items, 0, repeats, prev, done) && 0 < prev <= 15
    ensures repeats < 6
    ensures if repeats + 1 < 6 then PackedSoFar(items, 0, repeats + 1, prev, done + [prev]) else PackedSoFar(items + [Item(16, 3)], 0, 0, prev, done + [prev])
  {
    hide RunSoFar, RunLen, PackLens;
    RunSnoc(done, prev);
    RunSame(PackLens(done[..|done| - RunLen(done)]), items, repeats, prev, RunLen(done));
  }

  /** Of zeros and repeats only one is pending. */
  lemma OneKind(items: seq<Item>, zeros: nat, repeats: nat, prev: nat, done: seq<nat>)
    requires PackedSoFar(items, zeros, repeats, prev, done)
    ensures if prev == 0 then repeats == 0 else zeros == 0
  {
    hide RunLen, PackLens, Times;
  }

  /** What `PutZeroSize` comes to. */
  lemma NextZero(items: seq<Item>, zeros: nat, repeats: nat, prev: nat, done: seq<nat>)
    requires PackedSoFar(items, zeros, repeats, prev, done)
    ensures var all := items + RepeatItems(prev, repeats);
      if zeros + 1 == 138 then PackedSoFar(all + [Item(18, 127)], 0, 0, 0, done + [0]) else PackedSoFar(all, zeros + 1, 0, 0, done + [0])
  {
    OneKind(items, zeros, repeats, prev, done);
    NoItems(prev);
    hide PackedSoFar, RepeatItems, ZerosItems;
    assert items + [] == items;
    if prev == 0 {
      PackedZero(items, zeros, done);
    } else {
      PackedNew(items, zeros, repeats, prev, done, 0);
    }
  }

  /** What `PutCodeSize` comes to. */
  lemma NextCode(items: seq<Item>, zeros: nat, repeats: nat, prev: nat, done: seq<nat>, x: nat)
    requires PackedSoFar(items, zeros, repeats, prev, done) && 0 < x <= 15
    ensures var all := items + ZerosItems(zeros);
      if x != prev then PackedSoFar(all + RepeatItems(prev, repeats) + [Item(x, 0)], 0, 0, x, done + [x])
      else if repeats + 1 == 6 then PackedSoFar(all + [Item(16, 3)], 0, 0, x, done + [x])
      else PackedSoFar(all, 0, repeats + 1, x, done + [x])
  {
    OneKind(items, zeros, repeats, prev, done);
    NoItems(prev);
    hide PackedSoFar, RepeatItems, ZerosItems;
    assert items + [] == items && items + ZerosItems(zeros) + [] == items + ZerosItems(zeros);
    if x == prev {
      PackedSame(items, repeats, prev, done);
    } else {
      PackedNew(items, zeros, repeats, prev, done, x);
    }
  }

  /** The compressor's packing state between two code lengths. */
  class Packer {
    const packed: array<nat>
    const counts: array<nat>
    var num: nat
    var zeros: nat
    var repeats: nat
    var prev: nat
    ghost var items: seq<Item>

    ghost predicate Shape()
    {
      packed.Length == 320 && counts.Length == 288 && counts != packed
    }

    ghost predicate Recorded()
      requires Shape()
      reads this`num, this`items, packed, counts
    {
      && num <= packed.Length && packed[..num] == Flatten(items) && ValidItems(items)
      && (forall s :: 0 <= s < 19 ==> counts[s] == Occurrences(items, s))
    }

    ghost predicate Valid(done: seq<nat>)
      reads this, packed, counts
    {
      Shape() && Recorded() && Pending(items, zeros, repeats, prev, done)
    }

    /** The items are those of `PackLens` so far. */
    ghost predicate Greedy(done: seq<nat>)
      reads this`items, this`zeros, this`repeats, this`prev
    {
      PackedSoFar(items, zeros, repeats, prev, done)
    }

    constructor (counts: array<nat>)
      requires counts.Length == 288 && forall s :: 0 <= s < 19 ==> counts[s] == 0
      ensures Greedy([]) && Valid([]) && this.counts == counts && fresh(packed)
    {
      this.counts := counts;
      packed := new nat[320](_ => 0);
      num, zeros, repeats, prev := 0, 0, 0, 0xFF;
      items := [];
    }

    method Emit(it: Item)
      requires Shape() && Recorded() && it.Valid() && (it.sym == 16 ==> items != []) && Room(items, it)
      modifies this`num, this`items, packed, counts
      ensures Recorded() && items == old(items) + [it]
    {
      Snoc(items, it);
      ghost var f := Flatten(items);
      counts[it.sym] := counts[it.sym] + 1;
      packed[num] := it.sym;
      num := num + 1;
      if it.sym >= 16 {
        packed[num] := it.extra;
        num := num + 1;
      }
      items := items + [it];
      assert packed[..num] == f + (if it.sym < 16 then [it.sym] else [it.sym, it.extra]);
    }

    /** `TDEFL_RLE_PREV_CODE_SIZE` */
    method FlushRepeats(ghost done: seq<nat>)
      requires Valid(done) && |done| <= 320
      modifies this`num, this`items, this`repeats, packed, counts
      ensures Valid(done) && repeats == 0 && items == old(items) + RepeatItems(prev, old(repeats))
    {
      hide Recorded, Pending, Expand, Flatten, Room;
      assert 0 <= repeats;
      TimesMore(Item(prev, 0), 0);
      ghost var k: nat, before := 0, items;
      assert before + [] == before;
      if repeats > 0 {
        PendingBounds(items, zeros, repeats, prev, done);
        if repeats < 3 {
          while repeats > 0
            invariant Valid(done) && zeros == 0 && prev == old(prev)
            invariant k + repeats == old(repeats) && items == before + Times(Item(prev, 0), k)
          {
            FlushOne(items, repeats, prev, done, Item(prev, 0), 1);
            Emit(Item(prev, 0));
            repeats := repeats - 1;
            TimesMore(Item(prev, 0), k);
            k := k + 1;
          }
        } else {
          FlushOne(items, repeats, prev, done, Item(16, repeats - 3), repeats);
          Emit(Item(16, repeats - 3));
          repeats := 0;
        }
      }
    }

    /** `TDEFL_RLE_ZERO_CODE_SIZE` */
    method FlushZeros(ghost done: seq<nat>)
      requires Valid(done) && |done| <= 320
      modifies this`num, this`items, this`zeros, packed, counts
      ensures Valid(done) && zeros == 0 && items == old(items) + ZerosItems(old(zeros))
    {
      hide Recorded, Pending, Expand, Flatten, Room;
      TimesMore(Item(0, 0), 0);
      ghost var k: nat, before := 0, items;
      assert before + [] == before;
      if zeros > 0 {
        PendingBounds(items, zeros, repeats, prev, done);
        if zeros < 3 {
          while zeros > 0
            invariant Valid(done) && repeats == 0
            invariant k + zeros == old(zeros) && items == before + Times(Item(0, 0), k)
          {
            FlushZero(items, zeros, prev, done, Item(0, 0), 1);
            Emit(Item(0, 0));
            zeros := zeros - 1;
            TimesMore(Item(0, 0), k);
            k := k + 1;
          }
        } else if zeros <= 10 {
          FlushZero(items, zeros, prev, done, Item(17, zeros - 3), zeros);
          Emit(Item(17, zeros - 3));
          zeros := 0;
        } else {
          FlushZero(items, zeros, prev, done, Item(18, zeros - 11), zeros);
          Emit(Item(18, zeros - 11));
          zeros := 0;
        }
      }
    }

    method PutZeroSize(ghost done: seq<nat>)
      requires Valid(done) && |done| < 320
      modifies this, packed, counts
      ensures Valid(done + [0]) && (old(Greedy(done)) ==> Greedy(done + [0]))
    {
      hide *;
      GreedyIs(done);
      if Greedy(done) {
        NextZero(items, zeros, repeats, prev, done);
      }
      FlushRepeats(done);
      AddZero(done);
      GreedyIs(done + [0]);
    }

    lemma GreedyIs(done: seq<nat>)
      ensures Greedy(done) <==> PackedSoFar(items, zeros, repeats, prev, done)
    {
    }

    method AddZero(ghost done: seq<nat>)
      requires Valid(done) && |done| < 320 && repeats == 0
      modifies this, packed, counts
      ensures Valid(done + [0]) && prev == 0 && repeats == 0
      ensures if old(zeros) + 1 == 138 then items == old(items) + [Item(18, 127)] && zeros == 0 else items == old(items) && zeros == old(zeros) + 1
    {
      hide Recorded, Pending, Expand, Flatten, Room;
      PendingBounds(items, zeros, repeats, prev, done);
      PutZero(items, zeros, prev, done);
      zeros := zeros + 1;
      prev := 0;
      if zeros == 138 {
        Emit(Item(18, 127));
        zeros := 0;
      }
    }

    method PutCodeSize(codeSize: nat, ghost done: seq<nat>)
      requires Valid(done) && |done| < 320 && 0 < codeSize <= 15
      modifies this, packed, counts
      ensures Valid(done + [codeSize]) && (old(Greedy(done)) ==> Greedy(done + [codeSize]))
    {
      hide Recorded, Pending, Expand, Flatten, Room, PackedSoFar, RepeatItems, ZerosItems;
      if Greedy(done) {
        NextCode(items, zeros, repeats, prev, done, codeSize);
      }
      FlushZeros(done);
      if codeSize != prev {
        FlushRepeats(done);
        PutNew(items, prev, done, codeSize);
        Emit(Item(codeSize, 0));
        prev := codeSize;
      } else {
        PendingBounds(items, zeros, repeats, prev, done);
        PutSame(items, repeats, prev, done);
        repeats := repeats + 1;
        if repeats == 6 {
          Emit(Item(16, 3));
          repeats := 0;
        }
      }
    }

    /** One turn of the loop over the code lengths. */
    method Put(codeSize: nat, ghost done: seq<nat>)
      requires Valid(done) && |done| < 320 && codeSize <= 15
      modifies this, packed, counts
      ensures Valid(done + [codeSize]) && (old(Greedy(done)) ==> Greedy(done + [codeSize]))
    {
      hide *;
      if codeSize == 0 {
        PutZeroSize(done);
      } else {
        PutCodeSize(codeSize, done);
      }
    }

    /** The pending run after the last length. */
    method Finish(ghost done: seq<nat>)
      requires Valid(done) && |done| <= 320
      modifies this, packed, counts
      ensures Recorded() && Expand(items) == done && (old(Greedy(done)) ==> items == PackLens(done))
    {
      hide *;
      GreedyIs(done);
      OnePending(done);
      RestIs(zeros, repeats, prev);
      if Greedy(done) {
        AllPacked(items, zeros, repeats, prev, done);
      }
      if repeats > 0 {
        FlushRepeats(done);
      } else {
        FlushZeros(done);
      }
      NonePending(done);
    }

    lemma OnePending(done: seq<nat>)
      requires Valid(done)
      ensures zeros == 0 || repeats == 0
    {
    }

    lemma NonePending(done: seq<nat>)
      requires Valid(done) && zeros == 0 && repeats == 0
      ensures Recorded() && Expand(items) == done
    {
      hide Recorded, Expand;
      assert Rep(0, 0) == [] && Rep(prev, 0) == [];
    }
  }

  lemma RestIs(zeros: nat, repeats: nat, prev: nat)
    ensures Rest(zeros, repeats, prev) == if repeats > 0 then RepeatItems(prev, repeats) else ZerosItems(zeros)
  {
  }

  lemma PendingBounds(items: seq<Item>, zeros: nat, repeats: nat, prev: nat, done: seq<nat>)
    requires Pending(items, zeros, repeats, prev, done)
    ensures zeros == 0 || repeats == 0
    ensures zeros < 138 && repeats < 6
  {
  }
}
