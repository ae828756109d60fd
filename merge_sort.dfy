/** `ordenar_insumos`: top-down merge sort of a list of supply records by
    name, recursing on copies of the two halves and merging back into the
    list in place. The merge takes the left element only when its name is
    strictly smaller, so ties go to the right half and the sort is not stable. */
module MergeSort {
  import opened LexOrder
  import opened Items

  /** The merge loop as a function: repeatedly take the front of `l` when its
      name is strictly smaller, otherwise the front of `r`; then the leftovers. */
  ghost function Merge(l: seq<Item>, r: seq<Item>): (m: seq<Item>)
    ensures |m| == |l| + |r|
    decreases |l| + |r|
  {
    if l == [] then r
    else if r == [] then l
    else if Less(l[0].name, r[0].name) then [l[0]] + Merge(l[1..], r)
    else [r[0]] + Merge(l, r[1..])
  }

  /** What `ordenar_insumos` leaves in the list: lists of length 0 or 1 as they
      are, longer ones split at `len // 2`, each half sorted, then merged. */
  ghost function SortSeq(s: seq<Item>): (r: seq<Item>)
    ensures |r| == |s|
    decreases |s|
  {
    if |s| <= 1 then s
    else
      var mid := |s| / 2;
      Merge(SortSeq(s[..mid]), SortSeq(s[mid..]))
  }

  /** The merge neither loses nor invents records. */
  lemma {:induction false} MergePermutation(l: seq<Item>, r: seq<Item>)
    ensures multiset(Merge(l, r)) == multiset(l) + multiset(r)
    decreases |l| + |r|
  {
    if l != [] && r != [] {
      if Less(l[0].name, r[0].name) {
        MergePermutation(l[1..], r);
        ConsMultiset(l[0], Merge(l[1..], r));
        ConsMultiset(l[0], l[1..]);
        assert l == [l[0]] + l[1..];
      } else {
        MergePermutation(l, r[1..]);
        ConsMultiset(r[0], Merge(l, r[1..]));
        ConsMultiset(r[0], r[1..]);
        assert r == [r[0]] + r[1..];
      }
    }
  }

  lemma {:induction false} ConsMultiset(x: Item, t: seq<Item>)
    ensures multiset([x] + t) == multiset{x} + multiset(t)
  {
  }

  /** `ordenar_insumos` permutes: same records, same multiplicities. */
  lemma {:induction false} SortSeqPermutation(s: seq<Item>)
    ensures multiset(SortSeq(s)) == multiset(s)
    decreases |s|
  {
    if |s| > 1 {
      var mid := |s| / 2;
      var lo, hi := s[..mid], s[mid..];
      SortSeqPermutation(lo);
      SortSeqPermutation(hi);
      MergePermutation(SortSeq(lo), SortSeq(hi));
      assert SortSeq(s) == Merge(SortSeq(lo), SortSeq(hi));
      SplitMultiset(s, mid);
    }
  }

  /** Cutting a list in two splits its multiset in two. */
  lemma {:induction false} SplitMultiset(s: seq<Item>, mid: int)
    requires 0 <= mid <= |s|
    ensures multiset(s) == multiset(s[..mid]) + multiset(s[mid..])
  {
    assert s == s[..mid] + s[mid..];
  }

  /** Every name in `s` is at least `n`. */
  ghost predicate AllAtLeast(s: seq<Item>, n: string) {
    forall k :: 0 <= k < |s| ==> !Less(s[k].name, n)
  }

  lemma {:induction false} SortedCons(x: Item, t: seq<Item>)
    requires AllAtLeast(t, x.name) && SortedByName(t)
    ensures SortedByName([x] + t)
  {
    var s := [x] + t;
    assert forall k :: 0 < k < |s| ==> s[k] == t[k - 1];
  }

  lemma {:induction false} SortedAllAtLeast(s: seq<Item>, n: string)
    requires SortedByName(s) && (|s| > 0 ==> !Less(s[0].name, n))
    ensures AllAtLeast(s, n)
  {
    forall k | 0 <= k < |s|
      ensures !Less(s[k].name, n)
    {
      if k > 0 {
        AtMostTransitive(n, s[0].name, s[k].name);
      }
    }
  }

  lemma {:induction false} MergeAllAtLeast(l: seq<Item>, r: seq<Item>, n: string)
    requires AllAtLeast(l, n) && AllAtLeast(r, n)
    ensures AllAtLeast(Merge(l, r), n)
  {
    MergePermutation(l, r);
    forall k | 0 <= k < |Merge(l, r)|
      ensures !Less(Merge(l, r)[k].name, n)
    {
      var x := Merge(l, r)[k];
      assert x in multiset(Merge(l, r));
      assert x in multiset(l) || x in multiset(r);
    }
  }

  /** Merging two lists sorted by name gives a list sorted by name. */
  lemma {:induction false} MergeSorted(l: seq<Item>, r: seq<Item>)
    requires SortedByName(l) && SortedByName(r)
    ensures SortedByName(Merge(l, r))
    decreases |l| + |r|
  {
    if l != [] && r != [] {
      if Less(l[0].name, r[0].name) {
        MergeSorted(l[1..], r);
        SortedAllAtLeast(l[1..], l[0].name);
        LessAsymmetric(l[0].name, r[0].name);
        SortedAllAtLeast(r, l[0].name);
        MergeAllAtLeast(l[1..], r, l[0].name);
        SortedCons(l[0], Merge(l[1..], r));
      } else {
        MergeSorted(l, r[1..]);
        SortedAllAtLeast(r[1..], r[0].name);
        SortedAllAtLeast(l, r[0].name);
        MergeAllAtLeast(l, r[1..], r[0].name);
        SortedCons(r[0], Merge(l, r[1..]));
      }
    }
  }

  /** `ordenar_insumos` sorts: its result is ascending by name. */
  lemma {:induction false} SortSeqSorted(s: seq<Item>)
    ensures SortedByName(SortSeq(s))
    decreases |s|
  {
    if |s| > 1 {
      var mid := |s| / 2;
      SortSeqSorted(s[..mid]);
      SortSeqSorted(s[mid..]);
      MergeSorted(SortSeq(s[..mid]), SortSeq(s[mid..]));
    }
  }

  /** On a tie the right half's element comes first: two records with the same
      name and different locations come out swapped, so the sort is not stable. */
  lemma {:induction false} TieTakesRight(x: Item, y: Item)
    requires x.name == y.name
    ensures SortSeq([x, y]) == [y, x]
  {
    LessIrreflexive(x.name);
    assert [x, y][..1] == [x] && [x, y][1..] == [y];
    assert [y][1..] == [];
    assert Merge([x], [y]) == [y] + Merge([x], []);
  }

  /** A fresh array holding `s`, standing for Python's slice copy. */
  method CopyOf(s: seq<Item>) returns (b: array<Item>)
    ensures fresh(b) && b[..] == s
  {
    b := new Item[|s|];
    forall k | 0 <= k < |s| {
      b[k] := s[k];
    }
  }

  /** One step of the merge loop taking `ls[i]`. */
  lemma {:induction false} TakeLeft(done: seq<Item>, ls: seq<Item>, rs: seq<Item>, i: int, j: int, m: seq<Item>, written: seq<Item>)
    requires 0 <= i < |ls| && 0 <= j <= |rs|
    requires j == |rs| || Less(ls[i].name, rs[j].name)
    requires done + Merge(ls[i..], rs[j..]) == m && written == done + [ls[i]]
    ensures written + Merge(ls[i + 1..], rs[j..]) == m
  {
    assert ls[i..] == [ls[i]] + ls[i + 1..];
  }

  /** One step of the merge loop taking `rs[j]`. */
  lemma {:induction false} TakeRight(done: seq<Item>, ls: seq<Item>, rs: seq<Item>, i: int, j: int, m: seq<Item>, written: seq<Item>)
    requires 0 <= i <= |ls| && 0 <= j < |rs|
    requires i == |ls| || !Less(ls[i].name, rs[j].name)
    requires done + Merge(ls[i..], rs[j..]) == m && written == done + [rs[j]]
    ensures written + Merge(ls[i..], rs[j + 1..]) == m
  {
    assert rs[j..] == [rs[j]] + rs[j + 1..];
  }

  /** One step of a tail loop: copy the front of `src[p..]`. */
  lemma {:induction false} CopyStep(done: seq<Item>, src: seq<Item>, p: int, rest: seq<Item>, m: seq<Item>)
    requires 0 <= p < |src| && done + src[p..] + rest == m
    ensures (done + [src[p]]) + src[p + 1..] + rest == m
  {
    assert src[p..] == [src[p]] + src[p + 1..];
  }

  /** Once one side is empty the merge is the other side. */
  lemma {:induction false} MergeExhausted(done: seq<Item>, l: seq<Item>, r: seq<Item>, m: seq<Item>)
    requires (l == [] || r == []) && done + Merge(l, r) == m
    ensures done + l + r == m
  {
    if l == [] { assert done + l == done; } else { assert l + r == l; }
  }

  /** The first loop of the merge in `ordenar_insumos`: while both halves have
      elements, write the front with the strictly smaller name, or else the
      right one, into `a[k]`. It stops with one half used up. */
  method MergeFronts(a: array<Item>, left: array<Item>, right: array<Item>) returns (i: int, j: int, k: int)
    requires a != left && a != right && a.Length == left.Length + right.Length
    modifies a
    ensures 0 <= i <= left.Length && 0 <= j <= right.Length && k == i + j
    ensures i == left.Length || j == right.Length
    ensures a[..k] + Merge(left[i..], right[j..]) == Merge(left[..], right[..])
  {
    var ls, rs := left[..], right[..];
    ghost var merged := Merge(ls, rs);
    i, j, k := 0, 0, 0;
    assert ls[0..] == ls && rs[0..] == rs && a[..0] == [];
    while i < |ls| && j < |rs|
      invariant 0 <= i <= |ls| && 0 <= j <= |rs| && k == i + j
      invariant a[..k] + Merge(ls[i..], rs[j..]) == merged
    {
      i, j := TakeFront(a, ls, rs, i, j, merged);
      k := k + 1;
    }
  }

  /** One turn of that loop: `a[i + j]` gets the front with the strictly
      smaller name, or else the right one, and that side moves on. */
  method TakeFront(a: array<Item>, ls: seq<Item>, rs: seq<Item>, i: int, j: int, ghost merged: seq<Item>)
    returns (i': int, j': int)
    requires 0 <= i < |ls| && 0 <= j < |rs| && a.Length == |ls| + |rs|
    requires a[..i + j] + Merge(ls[i..], rs[j..]) == merged
    modifies a
    ensures (i', j') == if Less(ls[i].name, rs[j].name) then (i + 1, j) else (i, j + 1)
    ensures a[..i' + j'] + Merge(ls[i'..], rs[j'..]) == merged
  {
    ghost var done := a[..i + j];
    if Less(ls[i].name, rs[j].name) {
      a[i + j] := ls[i];
      assert a[..i + j + 1] == done + [ls[i]];
      TakeLeft(done, ls, rs, i, j, merged, a[..i + j + 1]);
      i', j' := i + 1, j;
    } else {
      a[i + j] := rs[j];
      assert a[..i + j + 1] == done + [rs[j]];
      TakeRight(done, ls, rs, i, j, merged, a[..i + j + 1]);
      i', j' := i, j + 1;
    }
  }

  /** The merge phase of `ordenar_insumos`: the loop over both halves, then the
      two loops that copy what is left of each half. */
  method MergeInto(a: array<Item>, left: array<Item>, right: array<Item>)
    requires a != left && a != right && a.Length == left.Length + right.Length
    modifies a
    ensures a[..] == Merge(left[..], right[..])
  {
    var i, j, k := MergeFronts(a, left, right);
    ghost var head := a[..k];
    MergeExhausted(head, left[i..], right[j..], Merge(left[..], right[..]));
    var m := k + (left.Length - i);
    CopyRest(a, k, left, i);
    ghost var copied := a[..];
    assert copied[..m] == copied[..k] + copied[k..m];
    assert copied[..m] == head + left[i..];
    CopyRest(a, m, right, j);
    assert a[..m] == copied[..m];
    assert a[..] == a[..m] + a[m..];
  }

  /** A tail loop of the merge: `while i < len(half): lista[k] = half[i]; ...`,
      copying `src[p..]` into `a` from position `k` on. */
  method CopyRest(a: array<Item>, k0: int, src: array<Item>, p0: int)
    requires a != src && 0 <= p0 <= src.Length && 0 <= k0 && k0 + (src.Length - p0) <= a.Length
    modifies a
    ensures a[..k0] == old(a[..k0]) && a[k0..k0 + (src.Length - p0)] == src[p0..]
    ensures a[k0 + (src.Length - p0)..] == old(a[k0 + (src.Length - p0)..])
  {
    var p, k := p0, k0;
    while p < src.Length
      invariant p0 <= p <= src.Length && k == k0 + (p - p0)
      invariant a[..k0] == old(a[..k0]) && a[k0..k] == src[p0..p]
      invariant a[k0 + (src.Length - p0)..] == old(a[k0 + (src.Length - p0)..])
    {
      a[k] := src[p];
      p := p + 1;
      k := k + 1;
    }
  }

  /** `ordenar_insumos(lista)`: sorts `a` in place, leaving exactly `SortSeq`
      of its old contents. */
  method SortInPlace(a: array<Item>)
    modifies a
    ensures a[..] == SortSeq(old(a[..]))
    ensures a.Length <= 1 ==> a[..] == old(a[..])
    decreases a.Length
  {
    if a.Length > 1 {
      var mid := a.Length / 2;
      var left := CopyOf(a[..mid]);
      var right := CopyOf(a[mid..]);
      SortInPlace(left);
      SortInPlace(right);
      MergeInto(a, left, right);
    }
  }
}
