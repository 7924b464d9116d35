/**
 The name index of a ZIP reader (miniz.c, `mz_zip_reader_filename_less`,
 `mz_zip_reader_sort_central_dir_offsets_by_filename`, `mz_zip_locate_file_binary_search` and
 `mz_zip_reader_locate_file_v2`): an index array heap-sorted by case-folded name, searched by bisection,
 and the scan of the whole directory that it stands in for.
 */
module ZipIndex {
  import opened Bits
  import opened Options

  const MAX_U16 := 65535

  /** A central directory entry; its lengths are 16-bit. */
  datatype Entry = Entry(name: seq<u8>, comment: seq<u8>)

  datatype Flags = Flags(ignorePath: bool, caseSensitive: bool)

  predicate EntryOk(e: Entry)
  {
    |e.name| <= MAX_U16 && |e.comment| <= MAX_U16
  }

  // ---------------------------------------------------------------- the order on names

  /** `MZ_TOLOWER` */
  function Lower(c: u8): u8
  {
    if 65 <= c <= 90 then c + 32 else c
  }

  function Fold(s: seq<u8>): (r: seq<u8>)
    ensures |r| == |s| && forall i :: 0 <= i < |s| ==> r[i] == Lower(s[i])
  {
    seq(|s|, i requires 0 <= i < |s| => Lower(s[i]))
  }

  /** The same byte, or one letter in its two cases: 'A' to 'Z' are 65 to 90, the small letters stand 32 higher. */
  predicate SameLetter(a: u8, b: u8)
  {
    a == b || (65 <= a <= 90 && b == a + 32) || (65 <= b <= 90 && a == b + 32)
  }

  /** Equal but for case. */
  predicate Alike(a: seq<u8>, b: seq<u8>)
  {
    |a| == |b| && forall i :: 0 <= i < |a| ==> SameLetter(a[i], b[i])
  }

  /** Which bytes `MZ_TOLOWER` takes for one another. */
  lemma LowerSame(a: u8, b: u8)
    ensures Lower(a) == Lower(b) <==> a == b || (65 <= a <= 90 && b == a + 32) || (65 <= b <= 90 && a == b + 32)
  {
  }

  lemma FoldAlike(a: seq<u8>, b: seq<u8>)
    ensures Fold(a) == Fold(b) <==> Alike(a, b)
  {
    if Fold(a) == Fold(b) {
      assert |Fold(a)| == |a| && |Fold(b)| == |b|;
      forall i | 0 <= i < |a|
        ensures SameLetter(a[i], b[i])
      {
        assert Fold(a)[i] == Fold(b)[i];
        LowerSame(a[i], b[i]);
      }
    }
    if Alike(a, b) {
      forall i | 0 <= i < |a|
        ensures Fold(a)[i] == Fold(b)[i]
      {
        LowerSame(a[i], b[i]);
      }
      assert Fold(a) == Fold(b);
    }
  }

  /** The order of a dictionary. */
  predicate Before(a: seq<u8>, b: seq<u8>)
  {
    if b == [] then false
    else if a == [] then true
    else a[0] < b[0] || (a[0] == b[0] && Before(a[1..], b[1..]))
  }

  lemma {:induction false} BeforeIrreflexive(a: seq<u8>)
    ensures !Before(a, a)
  {
    if a != [] {
      BeforeIrreflexive(a[1..]);
    }
  }

  lemma {:induction false} BeforeTransitive(a: seq<u8>, b: seq<u8>, c: seq<u8>)
    requires Before(a, b) && Before(b, c)
    ensures Before(a, c)
  {
    if a != [] && b[0] == a[0] && c[0] == b[0] {
      BeforeTransitive(a[1..], b[1..], c[1..]);
    }
  }

  lemma {:induction false} BeforeTotal(a: seq<u8>, b: seq<u8>)
    ensures Before(a, b) || Before(b, a) || a == b
  {
    if a != [] && b != [] && a[0] == b[0] {
      BeforeTotal(a[1..], b[1..]);
      assert a == [a[0]] + a[1..] && b == [b[0]] + b[1..];
    }
  }

  /** Where two names first differ decides. */
  lemma {:induction false} BeforeAt(a: seq<u8>, b: seq<u8>, k: nat)
    requires k <= |a| && k <= |b| && a[..k] == b[..k]
    ensures k < |a| && k < |b| && a[k] != b[k] ==> (Before(a, b) <==> a[k] < b[k])
    ensures k == |a| || k == |b| ==> (Before(a, b) <==> |a| < |b|)
  {
    if k > 0 {
      assert a[0] == a[..k][0] == b[..k][0] == b[0];
      assert a[1..][..k - 1] == a[..k][1..] == b[..k][1..] == b[1..][..k - 1];
      BeforeAt(a[1..], b[1..], k - 1);
    }
  }

  ghost predicate Less(names: seq<seq<u8>>, i: nat, j: nat)
  {
    i < |names| && j < |names| && Before(Fold(names[i]), Fold(names[j]))
  }

  /** Not after. */
  ghost predicate UpTo(names: seq<seq<u8>>, i: nat, j: nat)
  {
    !Less(names, j, i)
  }

  lemma UpToTransitive(names: seq<seq<u8>>, i: nat, j: nat, k: nat)
    requires i < |names| && j < |names| && k < |names| && UpTo(names, i, j) && UpTo(names, j, k)
    ensures UpTo(names, i, k)
  {
    var a, b, c := Fold(names[i]), Fold(names[j]), Fold(names[k]);
    BeforeTotal(a, b);
    BeforeTotal(b, c);
    if Before(c, a) {
      if Before(b, c) {
        BeforeTransitive(b, c, a);
      } else if Before(a, b) {
        BeforeTransitive(c, a, b);
      }
    }
  }

  lemma UpToTotal(names: seq<seq<u8>>, i: nat, j: nat)
    ensures UpTo(names, i, j) || UpTo(names, j, i)
  {
    if Less(names, i, j) && Less(names, j, i) {
      BeforeTransitive(Fold(names[i]), Fold(names[j]), Fold(names[i]));
      BeforeIrreflexive(Fold(names[i]));
    }
  }

  lemma UpToReflexive(names: seq<seq<u8>>, i: nat)
    ensures UpTo(names, i, i)
  {
    UpToTotal(names, i, i);
  }

  /** `mz_zip_reader_filename_less` */
  method FilenameLess(names: seq<seq<u8>>, l: nat, r: nat) returns (less: bool)
    requires l < |names| && r < |names|
    ensures less <==> Less(names, l, r)
  {
    var a, b := names[l], names[r];
    var e := if |a| <= |b| then |a| else |b|;
    var k := 0;
    while k < e && Lower(a[k]) == Lower(b[k])
      invariant k <= e && Fold(a)[..k] == Fold(b)[..k]
    {
      assert Fold(a)[..k + 1] == Fold(a)[..k] + [Fold(a)[k]];
      assert Fold(b)[..k + 1] == Fold(b)[..k] + [Fold(b)[k]];
      k := k + 1;
    }
    BeforeAt(Fold(a), Fold(b), k);
    less := if k == e then |a| < |b| else Lower(a[k]) < Lower(b[k]);
  }

  // ---------------------------------------------------------------- the heap

  predicate Child(i: nat, c: nat)
  {
    c == 2 * i + 1 || c == 2 * i + 2
  }

  /** Index array: a sequence of entry numbers. */
  ghost predicate Numbers(s: seq<nat>, names: seq<seq<u8>>)
  {
    forall i :: 0 <= i < |s| ==> s[i] < |names|
  }

  ghost predicate HeapAt(s: seq<nat>, names: seq<seq<u8>>, i: nat, c: nat)
    requires i < |s| && c < |s|
  {
    UpTo(names, s[c], s[i])
  }

  /** From `lo` on, no parent comes before its child, except perhaps at `hole`. */
  ghost predicate Heap(s: seq<nat>, names: seq<seq<u8>>, lo: nat, end: nat, hole: int)
    requires end <= |s|
  {
    forall i: nat, c: nat :: lo <= i && i != hole && Child(i, c) && c < end ==> HeapAt(s, names, i, c)
  }

  /** The children of the hole are not after its parent. */
  ghost predicate Bridged(s: seq<nat>, names: seq<seq<u8>>, lo: nat, end: nat, hole: nat)
    requires end <= |s|
  {
    forall p: nat, c: nat :: lo <= p && Child(p, hole) && Child(hole, c) && c < end ==> HeapAt(s, names, p, c)
  }

  function Swapped(s: seq<nat>, i: nat, j: nat): (r: seq<nat>)
    requires i < |s| && j < |s|
    ensures |r| == |s|
  {
    s[i := s[j]][j := s[i]]
  }

  lemma SwappedSame(s: seq<nat>, i: nat, j: nat)
    requires i < |s| && j < |s|
    ensures multiset(Swapped(s, i, j)) == multiset(s)
  {
  }

  /** One step down: the child that is not before the other takes the hole's place. */
  lemma SiftStep(s: seq<nat>, names: seq<seq<u8>>, lo: nat, end: nat, root: nat, child: nat)
    requires end <= |s| && Numbers(s, names) && Heap(s, names, lo, end, root) && Bridged(s, names, lo, end, root)
    requires lo <= root && Child(root, child) && child < end && Less(names, s[root], s[child])
    requires forall c: nat :: Child(root, c) && c < end ==> HeapAt(s, names, child, c)
    ensures var t := Swapped(s, root, child); Numbers(t, names) && Heap(t, names, lo, end, child) && Bridged(t, names, lo, end, child)
  {
    var t := Swapped(s, root, child);
    UpToTotal(names, s[root], s[child]);
    forall i: nat, c: nat | lo <= i && i != child && Child(i, c) && c < end
      ensures HeapAt(t, names, i, c)
    {
      if i == root {
        assert HeapAt(s, names, child, c);
      } else if c == root {
        assert HeapAt(s, names, i, child);
      } else {
        assert HeapAt(s, names, i, c);
      }
    }
    forall p: nat, c: nat | lo <= p && Child(p, child) && Child(child, c) && c < end
      ensures HeapAt(t, names, p, c)
    {
      assert p == root;
      assert HeapAt(s, names, child, c);
    }
  }

  /** Where the sinking stops. */
  lemma SiftDone(s: seq<nat>, names: seq<seq<u8>>, lo: nat, end: nat, root: nat)
    requires end <= |s| && Heap(s, names, lo, end, root)
    requires forall c: nat :: Child(root, c) && c < end ==> HeapAt(s, names, root, c)
    ensures Heap(s, names, lo, end, -1)
  {
  }

  /** In a whole heap the first number's name comes last. */
  lemma {:induction false} HeapTop(s: seq<nat>, names: seq<seq<u8>>, end: nat, k: nat)
    requires k < end <= |s| && Numbers(s, names) && Heap(s, names, 0, end, -1)
    ensures UpTo(names, s[k], s[0])
    decreases k
  {
    if k == 0 {
      UpToReflexive(names, s[0]);
    } else {
      var p := (k - 1) / 2;
      assert Child(p, k);
      assert HeapAt(s, names, p, k);
      HeapTop(s, names, end, p);
      UpToTransitive(names, s[k], s[p], s[0]);
    }
  }

  /** The greater of the children. */
  method GreaterChild(names: seq<seq<u8>>, a: array<nat>, root: nat, end: nat) returns (child: nat)
    requires end <= a.Length && Numbers(a[..], names) && 2 * root + 1 < end
    ensures Child(root, child) && child < end
    ensures forall c: nat :: Child(root, c) && c < end ==> HeapAt(a[..], names, child, c)
  {
    child := 2 * root + 1;
    UpToReflexive(names, a[child]);
    if child + 1 < end {
      UpToReflexive(names, a[child + 1]);
      UpToTotal(names, a[child], a[child + 1]);
      var less := FilenameLess(names, a[child], a[child + 1]);
      if less {
        child := child + 1;
      }
    }
  }

  /** The inner loop of both phases: the name at `start` sinks to its place. */
  method Sift(names: seq<seq<u8>>, a: array<nat>, start: nat, ghost lo: nat, end: nat)
    requires end <= a.Length && lo <= start && Numbers(a[..], names)
    requires Heap(a[..], names, lo, end, start) && Bridged(a[..], names, lo, end, start)
    modifies a
    ensures Numbers(a[..], names) && Heap(a[..], names, lo, end, -1) && multiset(a[..]) == multiset(old(a[..]))
    ensures forall i :: 0 <= i < a.Length && (i < lo || i >= end) ==> a[i] == old(a[i])
    ensures multiset(a[..end]) == multiset(old(a[..end]))
  {
    hide Heap, Bridged, HeapAt, UpTo;
    var root := start;
    while true
      invariant lo <= root && Numbers(a[..], names)
      invariant Heap(a[..], names, lo, end, root) && Bridged(a[..], names, lo, end, root)
      invariant multiset(a[..]) == multiset(old(a[..])) && multiset(a[..end]) == multiset(old(a[..end]))
      invariant forall i :: 0 <= i < a.Length && (i < lo || i >= end) ==> a[i] == old(a[i])
      decreases end - root
    {
      if 2 * root + 1 >= end {
        break;
      }
      var child := GreaterChild(names, a, root, end);
      var less := FilenameLess(names, a[root], a[child]);
      if !less {
        RootStays(a[..], names, root, child, end);
        break;
      }
      ghost var s := a[..];
      SiftStep(s, names, lo, end, root, child);
      SwappedSame(s, root, child);
      SwappedSame(s[..end], root, child);
      a[root], a[child] := a[child], a[root];
      assert a[..] == Swapped(s, root, child);
      assert a[..end] == Swapped(s[..end], root, child);
      root := child;
    }
    SiftDone(a[..], names, lo, end, root);
  }

  lemma RootStays(s: seq<nat>, names: seq<seq<u8>>, root: nat, child: nat, end: nat)
    requires end <= |s| && Numbers(s, names) && Child(root, child) && child < end && !Less(names, s[root], s[child])
    requires forall c: nat :: Child(root, c) && c < end ==> HeapAt(s, names, child, c)
    ensures forall c: nat :: Child(root, c) && c < end ==> HeapAt(s, names, root, c)
  {
    forall c: nat | Child(root, c) && c < end
      ensures HeapAt(s, names, root, c)
    {
      assert HeapAt(s, names, child, c);
      UpToTransitive(names, s[c], s[child], s[root]);
    }
  }

  // ---------------------------------------------------------------- the sort

  /** From place `k` on, everything is in order and nothing before comes after it. */
  ghost predicate SortedFrom(s: seq<nat>, names: seq<seq<u8>>, k: nat)
  {
    forall i, j :: 0 <= i < j < |s| && k <= j ==> UpTo(names, s[i], s[j])
  }

  ghost predicate AllUpTo(s: seq<nat>, names: seq<seq<u8>>, top: nat)
  {
    forall i :: 0 <= i < |s| ==> UpTo(names, s[i], top)
  }

  lemma AllUpToPermuted(s: seq<nat>, t: seq<nat>, names: seq<seq<u8>>, top: nat)
    requires multiset(s) == multiset(t) && AllUpTo(s, names, top)
    ensures AllUpTo(t, names, top)
  {
    hide UpTo;
    forall i | 0 <= i < |t|
      ensures UpTo(names, t[i], top)
    {
      assert t[i] in multiset(s);
    }
  }

  lemma HeapGrows(s: seq<nat>, names: seq<seq<u8>>, start: nat, end: nat)
    requires end <= |s| && Heap(s, names, start + 1, end, -1)
    ensures Heap(s, names, start, end, start) && Bridged(s, names, start, end, start)
  {
    hide HeapAt;
  }

  /** The top goes to the end of the heap, which shrinks by it. */
  lemma TopOut(s: seq<nat>, names: seq<seq<u8>>, end: nat)
    requires 0 < end < |s| && Numbers(s, names) && Heap(s, names, 0, end + 1, -1) && SortedFrom(s, names, end + 1)
    ensures var t := Swapped(s, end, 0);
      && Numbers(t, names) && Heap(t, names, 0, end, 0) && Bridged(t, names, 0, end, 0)
      && AllUpTo(t[..end], names, t[end]) && SortedFrom(t, names, end + 1)
  {
    var t := Swapped(s, end, 0);
    forall i: nat, c: nat | i != 0 && Child(i, c) && c < end
      ensures HeapAt(t, names, i, c)
    {
      assert HeapAt(s, names, i, c);
    }
    hide UpTo, Heap;
    forall i | 0 <= i < end
      ensures UpTo(names, t[i], t[end])
    {
      HeapTop(s, names, end + 1, if i == 0 then end else i);
    }
  }

  /** After the shrunken heap is put in order again. */
  lemma OneMore(t: seq<nat>, u: seq<nat>, names: seq<seq<u8>>, end: nat)
    requires 0 < end < |t| == |u| && AllUpTo(t[..end], names, t[end]) && SortedFrom(t, names, end + 1)
    requires multiset(t[..end]) == multiset(u[..end]) && forall i :: end <= i < |t| ==> u[i] == t[i]
    ensures SortedFrom(u, names, end)
  {
    hide UpTo;
    AllUpToPermuted(t[..end], u[..end], names, t[end]);
    forall i, j | 0 <= i < j < |u| && end <= j
      ensures UpTo(names, u[i], u[j])
    {
      if j == end {
        assert UpTo(names, u[..end][i], t[end]);
      } else if i < end {
        assert AllUpTo(t[..end], names, t[j]);
        AllUpToPermuted(t[..end], u[..end], names, t[j]);
        assert u[..end][i] == u[i];
      }
    }
  }

  lemma NoChildren(s: seq<nat>, names: seq<seq<u8>>, lo: nat)
    requires 2 * lo + 1 >= |s|
    ensures Heap(s, names, lo, |s|, -1)
  {
  }

  /** `mz_zip_reader_sort_central_dir_offsets_by_filename`: a heap sort in place. */
  method SortIndices(names: seq<seq<u8>>, a: array<nat>)
    requires Numbers(a[..], names)
    modifies a
    ensures Numbers(a[..], names) && SortedFrom(a[..], names, 0) && multiset(a[..]) == multiset(old(a[..]))
  {
    hide *;
    var size := a.Length;
    if size <= 1 {
      SortedShort(a[..], names);
      return;
    }
    var start: nat := (size - 2) / 2;
    NoChildren(a[..], names, start + 1);
    while true
      invariant Numbers(a[..], names) && Heap(a[..], names, start + 1, size, -1) && multiset(a[..]) == multiset(old(a[..]))
      decreases start
    {
      HeapGrows(a[..], names, start, size);
      Sift(names, a, start, start, size);
      if start == 0 {
        break;
      }
      start := start - 1;
    }
    var end: nat := size - 1;
    NothingYet(a[..], names);
    while end > 0
      invariant end < size && Numbers(a[..], names) && Heap(a[..], names, 0, end + 1, -1) && SortedFrom(a[..], names, end + 1)
      invariant multiset(a[..]) == multiset(old(a[..]))
    {
      TakeTop(names, a, end);
      end := end - 1;
    }
    FirstToo(a[..], names);
  }

  method TakeTop(names: seq<seq<u8>>, a: array<nat>, end: nat)
    requires 0 < end < a.Length && Numbers(a[..], names) && Heap(a[..], names, 0, end + 1, -1) && SortedFrom(a[..], names, end + 1)
    modifies a
    ensures Numbers(a[..], names) && Heap(a[..], names, 0, end, -1) && SortedFrom(a[..], names, end)
    ensures multiset(a[..]) == multiset(old(a[..]))
  {
    hide *;
    ghost var s := a[..];
    TopOut(s, names, end);
    SwappedSame(s, end, 0);
    SwappedIs(s, end, 0);
    a[end], a[0] := a[0], a[end];
    assert a[..] == Swapped(s, end, 0);
    ghost var t := a[..];
    assert a[..end] == t[..end];
    Sift(names, a, 0, 0, end);
    assert a[..end] == a[..][..end];
    OneMore(t, a[..], names, end);
  }

  lemma SwappedIs(s: seq<nat>, i: nat, j: nat)
    requires i < |s| && j < |s|
    ensures Swapped(s, i, j) == s[i := s[j]][j := s[i]]
  {
  }

  lemma SortedShort(s: seq<nat>, names: seq<seq<u8>>)
    requires |s| <= 1
    ensures SortedFrom(s, names, 0)
  {
  }

  lemma NothingYet(s: seq<nat>, names: seq<seq<u8>>)
    ensures SortedFrom(s, names, |s|)
  {
  }

  lemma FirstToo(s: seq<nat>, names: seq<seq<u8>>)
    requires SortedFrom(s, names, 1)
    ensures SortedFrom(s, names, 0)
  {
  }

  // ---------------------------------------------------------------- the search

  /** A 32-bit unsigned difference read as a signed number. */
  function Signed32(x: int): (r: int)
    ensures -0x8000_0000 <= r < 0x8000_0000 && (r - x) % 0x1_0000_0000 == 0
  {
    var u := x % 0x1_0000_0000;
    if u < 0x8000_0000 then u else u - 0x1_0000_0000
  }

  /** `mz_zip_filename_compare`: lengths are subtracted as 32-bit numbers. */
  method FilenameCompare(a: seq<u8>, b: seq<u8>) returns (comp: int)
    requires |a| <= MAX_U16 && |b| < 0x1_0000_0000
    ensures comp == 0 <==> Alike(a, b)
    ensures |b| < 0x8000_0000 ==> (comp < 0 <==> Before(Fold(a), Fold(b))) && (comp > 0 <==> Before(Fold(b), Fold(a)))
  {
    var e := if |a| <= |b| then |a| else |b|;
    var k := 0;
    while k < e && Lower(a[k]) == Lower(b[k])
      invariant k <= e && Fold(a)[..k] == Fold(b)[..k]
    {
      assert Fold(a)[..k + 1] == Fold(a)[..k] + [Fold(a)[k]];
      assert Fold(b)[..k + 1] == Fold(b)[..k] + [Fold(b)[k]];
      k := k + 1;
    }
    BeforeAt(Fold(a), Fold(b), k);
    BeforeAt(Fold(b), Fold(a), k);
    assert k == |a| == |b| ==> Fold(a) == Fold(a)[..k] == Fold(b)[..k] == Fold(b);
    FoldAlike(a, b);
    comp := if k == e then Signed32(|a| - |b|) else Lower(a[k]) - Lower(b[k]);
  }

  /** The entry bears the name, upper and lower case alike. */
  ghost predicate Bears(names: seq<seq<u8>>, i: nat, name: seq<u8>)
  {
    i < |names| && Alike(names[i], name)
  }

  /** Once a name in the middle is seen to be too early or too late, so is everything on its side. */
  lemma SideOut(s: seq<nat>, names: seq<seq<u8>>, m: nat, k: nat, name: seq<u8>)
    requires m < |s| && k < |s| && Numbers(s, names) && SortedFrom(s, names, 0)
    requires (k <= m && Before(Fold(names[s[m]]), Fold(name))) || (k >= m && Before(Fold(name), Fold(names[s[m]])))
    ensures !Bears(names, s[k], name)
  {
    var x, y, z := Fold(names[s[k]]), Fold(names[s[m]]), Fold(name);
    BeforeIrreflexive(z);
    FoldAlike(names[s[k]], name);
    if k < m {
      assert UpTo(names, s[k], s[m]);
    } else if k > m {
      assert UpTo(names, s[m], s[k]);
    }
  }

  /** `mz_zip_locate_file_binary_search`; the length of the wanted name is taken as a 32-bit number. */
  method BinarySearch(names: seq<seq<u8>>, a: array<nat>, wanted: seq<u8>) returns (r: Option<nat>)
    requires (forall i :: 0 <= i < |names| ==> |names[i]| <= MAX_U16) && Numbers(a[..], names) && SortedFrom(a[..], names, 0)
    ensures r.Some? ==> r.value in a[..] && Bears(names, r.value, Cut(wanted))
    ensures r.None? ==> forall k :: 0 <= k < a.Length ==> !Bears(names, a[k], Cut(wanted))
  {
    hide Fold, Before, SortedFrom;
    var name := Cut(wanted);
    var l: int, h: int := 0, a.Length - 1;
    while l <= h
      invariant 0 <= l <= h + 1 <= a.Length
      invariant |name| < 0x8000_0000 ==> forall k :: 0 <= k < l || h < k < a.Length ==> !Bears(names, a[k], name)
      decreases h - l
    {
      var m := l + (h - l) / 2;
      var fileIndex := a[m];
      var comp := FilenameCompare(names[fileIndex], name);
      if comp == 0 {
        return Some(fileIndex);
      }
      if |name| < 0x8000_0000 {
        AllOut(a[..], names, m, comp < 0, name);
      }
      if comp < 0 {
        l := m + 1;
      } else {
        h := m - 1;
      }
    }
    if |name| >= 0x8000_0000 {
      TooLong(names, name);
    }
    r := None;
  }

  lemma TooLong(names: seq<seq<u8>>, name: seq<u8>)
    requires |name| > MAX_U16 && forall i :: 0 <= i < |names| ==> |names[i]| <= MAX_U16
    ensures forall k: nat :: !Bears(names, k, name)
  {
  }

  lemma AllOut(s: seq<nat>, names: seq<seq<u8>>, m: nat, early: bool, name: seq<u8>)
    requires m < |s| && Numbers(s, names) && SortedFrom(s, names, 0)
    requires if early then Before(Fold(names[s[m]]), Fold(name)) else Before(Fold(name), Fold(names[s[m]]))
    ensures early ==> forall k :: 0 <= k <= m ==> !Bears(names, s[k], name)
    ensures !early ==> forall k :: m <= k < |s| ==> !Bears(names, s[k], name)
  {
    hide *;
    forall k: nat | k < |s| && (if early then k <= m else k >= m)
      ensures !Bears(names, s[k], name)
    {
      SideOut(s, names, m, k, name);
    }
  }

  // ---------------------------------------------------------------- the scan

  predicate Separator(c: u8)
  {
    c == 47 || c == 92 || c == 58
  }

  /** The part of a name after its last separator. */
  function BaseName(s: seq<u8>): (r: seq<u8>)
  {
    if s == [] || Separator(s[|s| - 1]) then [] else BaseName(s[..|s| - 1]) + [s[|s| - 1]]
  }

  /** `b` is what follows the last separator of `s`. */
  predicate LastPart(s: seq<u8>, b: seq<u8>)
  {
    && |b| <= |s| && s[|s| - |b|..] == b && (forall i :: 0 <= i < |b| ==> !Separator(b[i]))
    && (|b| < |s| ==> Separator(s[|s| - |b| - 1]))
  }

  lemma {:induction false} BaseNameIs(s: seq<u8>)
    ensures LastPart(s, BaseName(s)) && |BaseName(s)| <= |s|
  {
    hide *;
    BaseNameDef(s);
    if s == [] || Separator(s[|s| - 1]) {
      NoLastPart(s);
    } else {
      var init, last := s[..|s| - 1], s[|s| - 1];
      BaseNameIs(init);
      assert s == init + [last];
      LastPartSnoc(init, last, BaseName(init));
      LastPartShort(s, BaseName(s));
    }
  }

  lemma NoLastPart(s: seq<u8>)
    requires s == [] || Separator(s[|s| - 1])
    ensures LastPart(s, [])
  {
  }

  lemma LastPartShort(s: seq<u8>, b: seq<u8>)
    requires LastPart(s, b)
    ensures |b| <= |s|
  {
  }

  lemma BaseNameDef(s: seq<u8>)
    ensures BaseName(s) == if s == [] || Separator(s[|s| - 1]) then [] else BaseName(s[..|s| - 1]) + [s[|s| - 1]]
  {
  }

  lemma LastPartSnoc(init: seq<u8>, last: u8, b: seq<u8>)
    requires LastPart(init, b) && !Separator(last)
    ensures LastPart(init + [last], b + [last])
  {
  }

  lemma {:induction false} BaseNameAfter(s: seq<u8>, k: nat)
    requires k <= |s| && (k > 0 ==> Separator(s[k - 1])) && forall i :: k <= i < |s| ==> !Separator(s[i])
    ensures BaseName(s) == s[k..]
  {
    if k < |s| {
      BaseNameAfter(s[..|s| - 1], k);
      assert s[k..] == s[..|s| - 1][k..] + [s[|s| - 1]];
    }
  }

  /** Equal, or equal but for case. */
  ghost predicate Same(a: seq<u8>, b: seq<u8>, caseSensitive: bool)
  {
    if caseSensitive then a == b else Alike(a, b)
  }

  /** The entry is the one asked for. */
  ghost predicate Matches(e: Entry, name: seq<u8>, comment: seq<u8>, flags: Flags)
  {
    && Same(name, if flags.ignorePath then BaseName(e.name) else e.name, flags.caseSensitive)
    && (comment != [] ==> Same(comment, e.comment, flags.caseSensitive))
  }

  /** `mz_zip_string_equal` */
  method StringEqual(a: seq<u8>, b: seq<u8>, caseSensitive: bool) returns (same: bool)
    requires |a| == |b|
    ensures same <==> Same(a, b, caseSensitive)
  {
    if caseSensitive {
      return a == b;
    }
    for i := 0 to |a|
      invariant forall k :: 0 <= k < i ==> SameLetter(a[k], b[k])
    {
      LowerSame(a[i], b[i]);
      if Lower(a[i]) != Lower(b[i]) {
        return false;
      }
    }
    same := true;
  }

  /** The loop that strips the path. */
  method StripPath(s: seq<u8>) returns (r: seq<u8>)
    ensures r == BaseName(s) && |r| <= |s| && r == s[|s| - |r|..]
    ensures forall i :: 0 <= i < |r| ==> r[i] != '/' as int && r[i] != '\\' as int && r[i] != ':' as int
    ensures |r| < |s| ==> var c := s[|s| - |r| - 1]; c == '/' as int || c == '\\' as int || c == ':' as int
  {
    if s == [] {
      return [];
    }
    var ofs: int := |s| - 1;
    while ofs >= 0 && !Separator(s[ofs])
      invariant -1 <= ofs < |s| && forall i :: ofs < i < |s| ==> !Separator(s[i])
      decreases ofs
    {
      ofs := ofs - 1;
    }
    BaseNameAfter(s, ofs + 1);
    r := s[ofs + 1..];
  }

  lemma SameLength(a: seq<u8>, b: seq<u8>, caseSensitive: bool)
    requires Same(a, b, caseSensitive)
    ensures |a| == |b|
  {
  }

  /** The body of the scan. */
  method MatchEntry(e: Entry, name: seq<u8>, comment: seq<u8>, flags: Flags) returns (found: bool)
    requires EntryOk(e)
    ensures found <==> Matches(e, name, comment, flags)
  {
    hide Fold, BaseName;
    BaseNameIs(e.name);
    NoMatch(e, name, comment, flags);
    if |e.name| < |name| {
      return false;
    }
    if comment != [] {
      if |e.comment| != |comment| {
        return false;
      }
      var same := StringEqual(comment, e.comment, flags.caseSensitive);
      if !same {
        return false;
      }
    }
    var filename := e.name;
    if flags.ignorePath && filename != [] {
      filename := StripPath(filename);
    }
    EmptyBase();
    if |filename| != |name| {
      return false;
    }
    found := StringEqual(name, filename, flags.caseSensitive);
  }

  lemma EmptyBase()
    ensures BaseName([]) == []
  {
  }

  lemma NoMatch(e: Entry, name: seq<u8>, comment: seq<u8>, flags: Flags)
    ensures Matches(e, name, comment, flags) ==> |name| == |if flags.ignorePath then BaseName(e.name) else e.name| <= |e.name|
    ensures Matches(e, name, comment, flags) && comment != [] ==> |e.comment| == |comment|
  {
    hide Fold;
    BaseNameIs(e.name);
    if Matches(e, name, comment, flags) {
      SameLength(name, if flags.ignorePath then BaseName(e.name) else e.name, flags.caseSensitive);
      if comment != [] {
        SameLength(comment, e.comment, flags.caseSensitive);
      }
    }
  }

  datatype Found = Found(index: nat) | NotFound | InvalidParameter

  /** Each number from 0 to `n - 1` once. */
  ghost predicate EachOnce(s: seq<nat>, n: nat)
  {
    multiset(s) == multiset(Counting(n))
  }

  ghost function Counting(n: nat): (s: seq<nat>)
    ensures |s| == n && forall i :: 0 <= i < n ==> s[i] == i
  {
    seq(n, i => i)
  }

  lemma EachOnceHas(s: seq<nat>, n: nat, i: nat)
    requires EachOnce(s, n)
    ensures i in s <==> i < n
  {
    if i < n {
      assert Counting(n)[i] == i;
      assert i in multiset(Counting(n));
    }
    if i in s {
      assert i in multiset(Counting(n));
      assert i in Counting(n);
    }
  }

  lemma EachOnceLength(s: seq<nat>, n: nat)
    requires EachOnce(s, n)
    ensures |s| == n
  {
    assert |multiset(s)| == |s| && |multiset(Counting(n))| == n;
  }

  function Names(entries: seq<Entry>): (r: seq<seq<u8>>)
    ensures |r| == |entries| && forall i :: 0 <= i < |entries| ==> r[i] == entries[i].name
  {
    seq(|entries|, i requires 0 <= i < |entries| => entries[i].name)
  }

  class ZipReader {
    const entries: seq<Entry>
    /** The directory is sorted unless the caller asked for it not to be. */
    const sorted: bool
    const indices: array<nat>

    ghost predicate Valid()
      reads indices
    {
      && (forall i :: 0 <= i < |entries| ==> EntryOk(entries[i]))
      && (sorted ==> EachOnce(indices[..], |entries|) && Numbers(indices[..], Names(entries)) && SortedFrom(indices[..], Names(entries), 0))
    }

    constructor (entries: seq<Entry>, doNotSort: bool)
      requires forall i :: 0 <= i < |entries| ==> EntryOk(entries[i])
      ensures Valid() && this.entries == entries && sorted == !doNotSort
    {
      this.entries, sorted := entries, !doNotSort;
      var a := new nat[if doNotSort then 0 else |entries|](i => i);
      indices := a;
      new;
      if sorted {
        assert a[..] == Counting(|entries|);
        SortIndices(Names(entries), a);
      }
    }

    /** `mz_zip_reader_locate_file_v2`: by bisection when the index serves, else by scanning. */
    method Locate(name: seq<u8>, comment: Option<seq<u8>>, flags: Flags) returns (r: Found)
      requires Valid()
      ensures r.Found? ==> r.index < |entries|
      ensures Bisected(comment, flags) && r.Found? ==> Alike(entries[r.index].name, Cut(name))
      ensures Bisected(comment, flags) && !r.Found? ==> r.NotFound? && forall i :: 0 <= i < |entries| ==> !Alike(entries[i].name, Cut(name))
      ensures Bisected(comment, flags) <==> sorted && !flags.ignorePath && !flags.caseSensitive && comment.None? && |entries| > 0
      ensures !Bisected(comment, flags) ==> r == Scanned(entries, name, CommentOf(comment), flags)
      ensures !Bisected(comment, flags) ==> (r.InvalidParameter? <==> |name| > 65535 || |CommentOf(comment)| > 65535)
    {
      if sorted && !flags.ignorePath && !flags.caseSensitive && comment.None? && indices.Length > 0 {
        r := LocateByIndex(name);
      } else {
        r := Scan(entries, name, CommentOf(comment), flags);
        if sorted && indices.Length == 0 {
          EachOnceLength(indices[..], |entries|);
        }
      }
    }

    ghost predicate Bisected(comment: Option<seq<u8>>, flags: Flags)
    {
      sorted && !flags.ignorePath && !flags.caseSensitive && comment.None? && |entries| > 0
    }

    method LocateByIndex(name: seq<u8>) returns (r: Found)
      requires Valid() && sorted
      ensures r.Found? ==> r.index < |entries| && Alike(entries[r.index].name, Cut(name))
      ensures !r.Found? ==> r.NotFound? && forall i :: 0 <= i < |entries| ==> !Alike(entries[i].name, Cut(name))
    {
      hide SortedFrom, EachOnce;
      var at := BinarySearch(Names(entries), indices, name);
      match at
      case Some(i) =>
        EachOnceHas(indices[..], |entries|, i);
        r := Found(i);
      case None =>
        forall i: nat | i < |entries|
          ensures !Alike(entries[i].name, Cut(name))
        {
          EachOnceHas(indices[..], |entries|, i);
          var k :| 0 <= k < |indices[..]| && indices[..][k] == i;
          assert indices[k] == i;
          assert !Bears(Names(entries), i, Cut(name));
        }
        r := NotFound;
    }
  }

  function CommentOf(comment: Option<seq<u8>>): (c: seq<u8>)
  {
    if comment.Some? then comment.value else []
  }

  /** What the scan answers: the first entry that matches; names and comments too long for an entry are refused. */
  ghost function Scanned(entries: seq<Entry>, name: seq<u8>, comment: seq<u8>, flags: Flags): (r: Found)
    ensures r.Found? ==> r.index < |entries| && Matches(entries[r.index], name, comment, flags)
    ensures !r.InvalidParameter? ==> forall k :: 0 <= k < (if r.Found? then r.index else |entries|) ==> !Matches(entries[k], name, comment, flags)
  {
    if |name| > MAX_U16 || |comment| > MAX_U16 then InvalidParameter else FirstFrom(entries, name, comment, flags, 0)
  }

  ghost function FirstFrom(entries: seq<Entry>, name: seq<u8>, comment: seq<u8>, flags: Flags, i: nat): (r: Found)
    requires i <= |entries|
    ensures !r.InvalidParameter?
    ensures r.Found? ==> i <= r.index < |entries| && Matches(entries[r.index], name, comment, flags)
    ensures forall k :: i <= k < (if r.Found? then r.index else |entries|) ==> !Matches(entries[k], name, comment, flags)
    decreases |entries| - i
  {
    if i == |entries| then NotFound
    else if Matches(entries[i], name, comment, flags) then Found(i)
    else FirstFrom(entries, name, comment, flags, i + 1)
  }

  method Scan(entries: seq<Entry>, name: seq<u8>, comment: seq<u8>, flags: Flags) returns (r: Found)
    requires forall i :: 0 <= i < |entries| ==> EntryOk(entries[i])
    ensures r == Scanned(entries, name, comment, flags)
  {
    hide Matches;
    if |name| > MAX_U16 || |comment| > MAX_U16 {
      return InvalidParameter;
    }
    for i := 0 to |entries|
      invariant FirstFrom(entries, name, comment, flags, i) == FirstFrom(entries, name, comment, flags, 0)
    {
      var found := MatchEntry(entries[i], name, comment, flags);
      if found {
        return Found(i);
      }
    }
    r := NotFound;
  }

  /** Some entry bears the name. */
  ghost predicate InDirectory(entries: seq<Entry>, name: seq<u8>)
  {
    exists i: nat :: Bears(Names(entries), i, name)
  }

  /** The length as the search sees it. */
  function Cut(name: seq<u8>): (c: seq<u8>)
  {
    name[..|name| % 0x1_0000_0000]
  }

  ghost predicate AllOk(entries: seq<Entry>)
  {
    forall i :: 0 <= i < |entries| ==> EntryOk(entries[i])
  }

  /** The index finds the name exactly if the case-insensitive scan does. */
  ghost predicate Agrees(entries: seq<Entry>, name: seq<u8>)
  {
    InDirectory(entries, Cut(name)) <==> Scanned(entries, name, [], Flags(false, false)).Found?
  }

  lemma ShortAgrees(entries: seq<Entry>, name: seq<u8>)
    requires AllOk(entries) && |name| < 0x1_0000_0000
    ensures Cut(name) == name && Agrees(entries, name)
  {
    hide Fold;
    assert Cut(name) == name;
    forall i | 0 <= i < |entries|
      ensures Bears(Names(entries), i, name) <==> Matches(entries[i], name, [], Flags(false, false))
    {
    }
    if |name| > MAX_U16 {
      TooLong(Names(entries), name);
    }
  }

  lemma LongAgrees(entries: seq<Entry>, name: seq<u8>)
    requires AllOk(entries) && |name| % 0x1_0000_0000 > MAX_U16
    ensures Agrees(entries, name)
  {
    TooLong(Names(entries), Cut(name));
  }

  /** The directory that the search mistakes the name for. */
  lemma Mistaken(name: seq<u8>)
    requires |name| >= 0x1_0000_0000 && |name| % 0x1_0000_0000 <= MAX_U16
    ensures AllOk([Entry(Cut(name), [])]) && !Agrees([Entry(Cut(name), [])], name)
  {
    var entries := [Entry(Cut(name), [])];
    assert Bears(Names(entries), 0, Cut(name));
  }

  /**
     The index agrees with the scan on every directory exactly for the names whose length survives being
     cut to 32 bits, or does not fit an entry after it.
   */
  lemma IndexAgrees(name: seq<u8>)
    ensures (forall entries :: AllOk(entries) ==> Agrees(entries, name)) <==> |name| < 0x1_0000_0000 || |name| % 0x1_0000_0000 > MAX_U16
  {
    hide Agrees, AllOk, EntryOk;
    if |name| < 0x1_0000_0000 {
      forall entries | AllOk(entries)
        ensures Agrees(entries, name)
      {
        ShortAgrees(entries, name);
      }
    } else if |name| % 0x1_0000_0000 > MAX_U16 {
      forall entries | AllOk(entries)
        ensures Agrees(entries, name)
      {
        LongAgrees(entries, name);
      }
    } else {
      Mistaken(name);
    }
  }

  function LongName(): (name: seq<u8>)
    ensures |name| == 0x1_0000_0001 && forall i :: 0 <= i < |name| ==> name[i] == 97
  {
    seq(0x1_0000_0001, _ => 97)
  }

  /** A name of 2^32 + 1 letters `a`, and a directory with the one entry `a`: found by the index, refused by the scan. */
  lemma LongNameFound()
    ensures InDirectory([Entry([97], [])], Cut(LongName())) && Scanned([Entry([97], [])], LongName(), [], Flags(false, false)) == InvalidParameter
  {
    var entries := [Entry([97], [])];
    assert Cut(LongName()) == [97];
    assert Bears(Names(entries), 0, [97]);
  }
}
