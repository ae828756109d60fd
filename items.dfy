/** One supply record of the hospital stock and the ordering facts about
    lists of them that the store relies on. */
module Items {
  import opened LexOrder

  /** A supply record: `nome`, `local`, `quantidade_atual`, `quantidade_ideal`
      and `unidade`. Quantities are Python integers, unbounded and unchecked. */
  datatype Item = Item(name: string, location: string, current: int, target: int, unit: string)

  /** Ascending by name: no later item has a smaller name than an earlier one. */
  ghost predicate SortedByName(s: seq<Item>) {
    forall i, j :: 0 <= i < j < |s| ==> !Less(s[j].name, s[i].name)
  }

  /** No two positions hold items with the same name. */
  ghost predicate DistinctNames(s: seq<Item>) {
    forall i, j :: 0 <= i < |s| && 0 <= j < |s| && i != j ==> s[i].name != s[j].name
  }

  /** Some item of `s` is called `name`. */
  ghost predicate HasName(s: seq<Item>, name: string) {
    exists k :: 0 <= k < |s| && s[k].name == name
  }

  /** The store invariant: sorted by name with distinct names. */
  ghost predicate WellFormed(s: seq<Item>) {
    SortedByName(s) && DistinctNames(s)
  }

  /** A list sorted by name whose names are distinct is strictly ascending. */
  lemma {:induction false} WellFormedIsStrict(s: seq<Item>, i: int, j: int)
    requires WellFormed(s) && 0 <= i < j < |s|
    ensures Less(s[i].name, s[j].name)
  {
    LessTotal(s[i].name, s[j].name);
  }

  /** Deleting one position keeps a list sorted and its names distinct. */
  lemma {:induction false} DeleteKeepsWellFormed(s: seq<Item>, i: int)
    requires 0 <= i < |s|
    ensures SortedByName(s) ==> SortedByName(s[..i] + s[i + 1..])
    ensures DistinctNames(s) ==> DistinctNames(s[..i] + s[i + 1..])
  {
    var t := s[..i] + s[i + 1..];
    assert forall k :: 0 <= k < |t| ==> t[k] == s[if k < i then k else k + 1];
  }

  /** Deleting position `k` removes one occurrence of `t[k]` from the multiset. */
  lemma {:induction false} MultisetDelete(t: seq<Item>, k: int)
    requires 0 <= k < |t|
    ensures multiset(t[..k] + t[k + 1..]) == multiset(t) - multiset{t[k]}
  {
    assert t == t[..k] + [t[k]] + t[k + 1..];
  }

  /** If `t` without position `k` has distinct names none of which is `t[k]`'s, `t` has distinct names. */
  lemma {:induction false} UndeleteKeepsDistinct(t: seq<Item>, k: int)
    requires 0 <= k < |t| && DistinctNames(t[..k] + t[k + 1..])
    requires forall y :: y in t[..k] + t[k + 1..] ==> y.name != t[k].name
    ensures DistinctNames(t)
  {
    var rest := t[..k] + t[k + 1..];
    assert forall m :: 0 <= m < |t| && m != k ==> t[m] == rest[if m < k then m else m - 1];
  }

  /** Removing the same item from two permutations of each other leaves permutations. */
  lemma {:induction false} PermutationDelete(s: seq<Item>, t: seq<Item>, k: int)
    requires multiset(s) == multiset(t) && |s| > 0 && 0 <= k < |t| && t[k] == s[0]
    ensures multiset(s[1..]) == multiset(t[..k] + t[k + 1..])
  {
    MultisetDelete(t, k);
    var a := multiset(s[1..]);
    assert s == [s[0]] + s[1..];
    assert multiset(s) == multiset{s[0]} + a;
    AddRemove(a, s[0]);
  }

  lemma {:induction false} AddRemove(a: multiset<Item>, x: Item)
    ensures (multiset{x} + a) - multiset{x} == a
  {
  }

  /** An item after the head of a list with distinct names is named differently from the head. */
  lemma {:induction false} TailNameDiffers(s: seq<Item>, y: Item)
    requires DistinctNames(s) && |s| > 0 && y in s[1..]
    ensures y.name != s[0].name
  {
    var p :| 0 <= p < |s[1..]| && s[1..][p] == y;
    assert s[p + 1] == y;
  }

  /** Two lists that are permutations of each other agree on having distinct names. */
  lemma {:induction false} PermutationKeepsDistinct(s: seq<Item>, t: seq<Item>)
    requires multiset(s) == multiset(t) && DistinctNames(s)
    ensures DistinctNames(t)
    decreases |s|
  {
    if |s| > 0 {
      assert s[0] in multiset(t);
      var k :| 0 <= k < |t| && t[k] == s[0];
      DeleteHead(s, t, k);
      PermutationKeepsDistinct(s[1..], t[..k] + t[k + 1..]);
      Reinsert(s, t, k);
    } else {
      assert |t| == |multiset(t)|;
    }
  }

  /** The step down: drop the head of `s` and its copy at `t[k]`. */
  lemma {:induction false} DeleteHead(s: seq<Item>, t: seq<Item>, k: int)
    requires multiset(s) == multiset(t) && DistinctNames(s) && |s| > 0 && 0 <= k < |t| && t[k] == s[0]
    ensures multiset(s[1..]) == multiset(t[..k] + t[k + 1..]) && DistinctNames(s[1..])
  {
    PermutationDelete(s, t, k);
    DeleteKeepsWellFormed(s, 0);
    assert s[..0] + s[0 + 1..] == s[1..];
  }

  /** The step up: putting the head back at `t[k]` keeps the names distinct. */
  lemma {:induction false} Reinsert(s: seq<Item>, t: seq<Item>, k: int)
    requires DistinctNames(s) && |s| > 0 && 0 <= k < |t| && t[k] == s[0]
    requires multiset(s[1..]) == multiset(t[..k] + t[k + 1..]) && DistinctNames(t[..k] + t[k + 1..])
    ensures DistinctNames(t)
  {
    forall y | y in t[..k] + t[k + 1..]
      ensures y.name != t[k].name
    {
      assert y in multiset(s[1..]);
      TailNameDiffers(s, y);
    }
    UndeleteKeepsDistinct(t, k);
  }

  lemma {:induction false} FirstIsMember(b: seq<Item>)
    ensures |b| > 0 ==> b[0] in b
  {
  }

  /** Two well-formed lists with the same records start with the same record. */
  lemma {:induction false} SameHeadMembers(a: seq<Item>, b: seq<Item>)
    requires WellFormed(a) && WellFormed(b) && |a| > 0
    requires forall x :: x in a <==> x in b
    ensures |b| > 0 && a[0] == b[0]
  {
    assert a[0] in b;
    var p :| 0 <= p < |b| && b[p] == a[0];
    assert b[0] in a;
    var q :| 0 <= q < |a| && a[q] == b[0];
    LessTotal(a[0].name, b[0].name);
    assert a[0].name == b[0].name;
  }

  /** With distinct names and equally named heads, what follows the head of
      one list follows the head of the other. */
  lemma {:induction false} TailMember(a: seq<Item>, b: seq<Item>, x: Item)
    requires DistinctNames(a) && |a| > 0 && |b| > 0 && a[0].name == b[0].name
    requires x in a[1..] && forall y :: y in a <==> y in b
    ensures x in b[1..]
  {
    var i :| 0 <= i < |a[1..]| && a[1..][i] == x;
    assert a[i + 1] == x && x.name != b[0].name;
    assert x in b;
    var k :| 0 <= k < |b| && b[k] == x;
    assert k != 0 && b[1..][k - 1] == x;
  }

  /** The same holds knowing only which records occur: a well-formed list is
      fixed by its set of records. */
  lemma {:induction false} WellFormedSameMembers(a: seq<Item>, b: seq<Item>)
    requires WellFormed(a) && WellFormed(b)
    requires forall x :: x in a <==> x in b
    ensures a == b
    decreases |a|
  {
    if |a| > 0 {
      SameHeadMembers(a, b);
      forall x
        ensures x in a[1..] <==> x in b[1..]
      {
        if x in a[1..] { TailMember(a, b, x); }
        if x in b[1..] { TailMember(b, a, x); }
      }
      DeleteKeepsWellFormed(a, 0);
      DeleteKeepsWellFormed(b, 0);
      assert b[..0] + b[0 + 1..] == b[1..] && a[..0] + a[0 + 1..] == a[1..];
      WellFormedSameMembers(a[1..], b[1..]);
      assert a == [a[0]] + a[1..] && b == [b[0]] + b[1..];
    } else {
      FirstIsMember(b);
    }
  }
}
