/** The stock store (`estoque["insumos"]`) and the operations that change it:
    `adicionar_insumo`, `atualizar_quantidade`, `remover_insumo`, and the read
    `ler_insumo`. Each state change is specified by a function of the old list;
    the store's invariant is that the list is sorted by name with distinct names. */
module Inventory {
  import opened LexOrder
  import opened Items
  import opened MergeSort
  import opened BinarySearch

  /** How a mutation ended: done, or the error message the source prints. */
  datatype Status = Ok | DuplicateItem | ItemNotFound

  /** What `ler_insumo` shows: the whole list, one item, or "not found". */
  datatype ReadResult = All(items: seq<Item>) | One(item: Item) | Missing

  /** The list after `adicionar_insumo`: unchanged when the name is taken,
      otherwise the new record appended and the whole list re-sorted. */
  ghost function AddItem(s: seq<Item>, x: Item): (r: seq<Item>) {
    if HasName(s, x.name) then s else SortSeq(s + [x])
  }

  /** The list after `atualizar_quantidade`: the record called `name` gets
      current quantity `q`. */
  ghost function SetQuantity(s: seq<Item>, name: string, q: int): (r: seq<Item>) {
    seq(|s|, k requires 0 <= k < |s| => if s[k].name == name then s[k].(current := q) else s[k])
  }

  /** The list after `remover_insumo`: the record called `name` is gone. */
  ghost function RemoveName(s: seq<Item>, name: string): (r: seq<Item>)
    decreases |s|
  {
    if s == [] then []
    else (if s[0].name == name then [] else [s[0]]) + RemoveName(s[1..], name)
  }

  // ---------------------------------------------------------------- adding

  /** Adding keeps the store sorted with distinct names; a new name grows the
      list by exactly the new record, a taken name leaves it as it was. */
  lemma {:induction false} AddItemWellFormed(s: seq<Item>, x: Item)
    requires WellFormed(s)
    ensures WellFormed(AddItem(s, x))
    ensures HasName(s, x.name) ==> AddItem(s, x) == s
    ensures !HasName(s, x.name) ==>
      |AddItem(s, x)| == |s| + 1 && multiset(AddItem(s, x)) == multiset(s) + multiset{x}
  {
    if !HasName(s, x.name) {
      var t := s + [x];
      assert DistinctNames(t) by {
        assert forall k :: 0 <= k < |s| ==> t[k] == s[k];
      }
      SortSeqSorted(t);
      SortSeqPermutation(t);
      PermutationKeepsDistinct(t, SortSeq(t));
    }
  }

  /** After adding a new name, the store holds the new record under that name. */
  lemma {:induction false} AddItemContains(s: seq<Item>, x: Item)
    requires !HasName(s, x.name)
    ensures x in AddItem(s, x) && HasName(AddItem(s, x), x.name)
  {
    SortSeqPermutation(s + [x]);
    assert x in multiset(s + [x]);
    assert x in multiset(AddItem(s, x));
  }

  // ------------------------------------------------------- quantity update

  /** On distinct names, updating by name is the in-place write at the found
      index: only that record's current quantity changes. */
  lemma {:induction false} SetQuantityAt(s: seq<Item>, i: int, q: int)
    requires DistinctNames(s) && 0 <= i < |s|
    ensures SetQuantity(s, s[i].name, q) == s[i := s[i].(current := q)]
  {
  }

  /** An absent name leaves the store unchanged. */
  lemma {:induction false} SetQuantityAbsent(s: seq<Item>, name: string, q: int)
    requires !HasName(s, name)
    ensures SetQuantity(s, name, q) == s
  {
  }

  /** Names and their order are untouched, so the store stays well formed. */
  lemma {:induction false} SetQuantityWellFormed(s: seq<Item>, name: string, q: int)
    requires WellFormed(s)
    ensures WellFormed(SetQuantity(s, name, q))
  {
    var r := SetQuantity(s, name, q);
    assert forall k :: 0 <= k < |s| ==> r[k].name == s[k].name;
  }

  /** Setting the same quantity twice is the same as setting it once. */
  lemma {:induction false} SetQuantityIdempotent(s: seq<Item>, name: string, q: int)
    ensures SetQuantity(SetQuantity(s, name, q), name, q) == SetQuantity(s, name, q)
  {
  }

  // --------------------------------------------------------------- removal

  /** The names left after removing `name` are those of `s` other than `name`. */
  lemma {:induction false} RemoveNameMembers(s: seq<Item>, name: string)
    ensures forall y :: y in RemoveName(s, name) <==> y in s && y.name != name
    decreases |s|
  {
    if s != [] {
      RemoveNameMembers(s[1..], name);
      assert s == [s[0]] + s[1..];
    }
  }

  /** On distinct names, removing by name deletes exactly the position holding it. */
  lemma {:induction false} RemoveNameAt(s: seq<Item>, i: int)
    requires DistinctNames(s) && 0 <= i < |s|
    ensures RemoveName(s, s[i].name) == s[..i] + s[i + 1..]
    decreases |s|
  {
    var n := s[i].name;
    var tail := s[1..];
    assert forall k :: 0 <= k < |tail| ==> tail[k] == s[k + 1];
    if i == 0 {
      assert !HasName(tail, n);
      RemoveNameAbsent(tail, n);
    } else {
      assert DistinctNames(tail);
      assert s[0].name != n;
      RemoveNameAt(tail, i - 1);
      assert tail[..i - 1] == s[1..i] && tail[i..] == s[i + 1..];
      calc {
        RemoveName(s, n);
        [s[0]] + RemoveName(tail, n);
        [s[0]] + (s[1..i] + s[i + 1..]);
        { assert s[..i] == [s[0]] + s[1..i]; }
        s[..i] + s[i + 1..];
      }
    }
  }

  /** An absent name leaves the store unchanged. */
  lemma {:induction false} RemoveNameAbsent(s: seq<Item>, name: string)
    requires !HasName(s, name)
    ensures RemoveName(s, name) == s
    decreases |s|
  {
    if s != [] {
      assert !HasName(s[1..], name) by {
        assert forall k :: 0 <= k < |s| - 1 ==> s[1..][k] == s[k + 1];
      }
      RemoveNameAbsent(s[1..], name);
      assert s == [s[0]] + s[1..];
    }
  }

  /** Removing keeps the store sorted with distinct names, with no re-sort;
      a present name shrinks the list by one and is then gone. */
  lemma {:induction false} RemoveNameWellFormed(s: seq<Item>, name: string)
    requires WellFormed(s)
    ensures WellFormed(RemoveName(s, name))
    ensures !HasName(RemoveName(s, name), name)
    ensures |RemoveName(s, name)| == if HasName(s, name) then |s| - 1 else |s|
  {
    RemoveNameMembers(s, name);
    if HasName(s, name) {
      var i :| 0 <= i < |s| && s[i].name == name;
      RemoveNameAt(s, i);
      DeleteKeepsWellFormed(s, i);
    } else {
      RemoveNameAbsent(s, name);
    }
    var r := RemoveName(s, name);
    assert forall k :: 0 <= k < |r| ==> r[k] in r;
  }

  /** Adding a new record and then removing it by name gives back the store
      as it was: the same records in the same order. */
  lemma {:induction false} RemoveAfterAdd(s: seq<Item>, x: Item)
    requires WellFormed(s) && !HasName(s, x.name)
    ensures RemoveName(AddItem(s, x), x.name) == s
  {
    var t := AddItem(s, x);
    AddItemWellFormed(s, x);
    AddItemContains(s, x);
    var i :| 0 <= i < |t| && t[i] == x;
    RemoveNameAt(t, i);
    var u := t[..i] + t[i + 1..];
    MultisetDelete(t, i);
    assert multiset(u) == multiset(s);
    DeleteKeepsWellFormed(t, i);
    forall y
      ensures y in u <==> y in s
    {
      assert y in u <==> y in multiset(u);
    }
    WellFormedSameMembers(u, s);
  }

  // ---------------------------------------------------------------- reading

  /** ASCII lower-casing. No character outside ASCII lower-cases to one of the
      letters of "todos", so this decides `nome.lower() == "todos"` as Python does. */
  function AsciiLower(s: string): (r: string)
    ensures |r| == |s|
  {
    seq(|s|, k requires 0 <= k < |s| => if 'A' <= s[k] <= 'Z' then (s[k] as int + 32) as char else s[k])
  }

  /** The reserved request of `ler_insumo` meaning "list every item". */
  predicate IsAllRequest(request: string) {
    AsciiLower(request) == "todos"
  }

  lemma AllRequestSpellings()
    ensures IsAllRequest("todos") && IsAllRequest("Todos") && IsAllRequest("TODOS")
    ensures !IsAllRequest("Luvas") && !IsAllRequest("todo")
  {
    assert AsciiLower("Todos") == "todos";
    assert AsciiLower("TODOS") == "todos";
    assert AsciiLower("Luvas")[0] == 'l';
  }

  /** The reserved request is "todos" in any mix of upper and lower case, and nothing else. */
  lemma {:induction false} AllRequestIff(request: string)
    ensures IsAllRequest(request) <==>
      |request| == 5 && request[0] in "tT" && request[1] in "oO" && request[2] in "dD"
      && request[3] in "oO" && request[4] in "sS"
  {
    var l := AsciiLower(request);
    if |request| == 5 {
      assert l == "todos" <==> l[0] == 't' && l[1] == 'o' && l[2] == 'd' && l[3] == 'o' && l[4] == 's';
    }
  }

  // -------------------------------------------------------------- sequences

  /** One call on the store, as the demonstration script makes them. */
  datatype Op = AddOp(x: Item) | UpdateOp(name: string, q: int) | RemoveOp(name: string)

  ghost function Apply(s: seq<Item>, op: Op): (r: seq<Item>) {
    match op
    case AddOp(x) => AddItem(s, x)
    case UpdateOp(name, q) => SetQuantity(s, name, q)
    case RemoveOp(name) => RemoveName(s, name)
  }

  ghost function Run(s: seq<Item>, ops: seq<Op>): (r: seq<Item>)
    decreases |ops|
  {
    if ops == [] then s else Run(Apply(s, ops[0]), ops[1..])
  }

  /** After any sequence of additions, updates and removals the store is still
      sorted by name with distinct names. */
  lemma {:induction false} RunWellFormed(s: seq<Item>, ops: seq<Op>)
    requires WellFormed(s)
    ensures WellFormed(Run(s, ops))
    decreases |ops|
  {
    if ops != [] {
      match ops[0] {
        case AddOp(x) => AddItemWellFormed(s, x);
        case UpdateOp(name, q) => SetQuantityWellFormed(s, name, q);
        case RemoveOp(name) => RemoveNameWellFormed(s, name);
      }
      RunWellFormed(Apply(s, ops[0]), ops[1..]);
    }
  }

  // ------------------------------------------------------------------ store

  /** `estoque`: the owned, explicitly passed store. */
  class Stock {
    var items: seq<Item>

    ghost predicate Valid()
      reads this
    {
      WellFormed(items)
    }

    /** A store holding `seed`, sorted by `ordenar_insumos` before first use.
        Nothing checks the seed for repeated names; with distinct names the
        store invariant holds from the start. */
    constructor (seed: seq<Item>)
      ensures items == SortSeq(seed)
      ensures SortedByName(items) && multiset(items) == multiset(seed)
      ensures DistinctNames(seed) ==> Valid()
    {
      var a := CopyOf(seed);
      SortInPlace(a);
      SortSeqSorted(seed);
      SortSeqPermutation(seed);
      if DistinctNames(seed) {
        PermutationKeepsDistinct(seed, a[..]);
      }
      items := a[..];
    }

    /** `adicionar_insumo`. */
    method Add(name: string, location: string, current: int, target: int, unit: string) returns (r: Status)
      requires Valid()
      modifies this
      ensures Valid()
      ensures r == if HasName(old(items), name) then DuplicateItem else Ok
      ensures items == AddItem(old(items), Item(name, location, current, target, unit))
    {
      var existing := Find(items, name);
      if existing.Found? {
        return DuplicateItem;
      }
      var x := Item(name, location, current, target, unit);
      var a := CopyOf(items + [x]);
      SortInPlace(a);
      AddItemWellFormed(items, x);
      items := a[..];
      r := Ok;
    }

    /** `atualizar_quantidade`. */
    method UpdateQuantity(name: string, q: int) returns (r: Status)
      requires Valid()
      modifies this
      ensures Valid()
      ensures r == if HasName(old(items), name) then Ok else ItemNotFound
      ensures items == SetQuantity(old(items), name, q)
    {
      SetQuantityWellFormed(items, name, q);
      var found := Find(items, name);
      if found.Found? {
        SetQuantityAt(items, found.index, q);
        items := items[found.index := items[found.index].(current := q)];
        r := Ok;
      } else {
        SetQuantityAbsent(items, name, q);
        r := ItemNotFound;
      }
    }

    /** `remover_insumo`: `pop` at the found index, no re-sort. */
    method Remove(name: string) returns (r: Status)
      requires Valid()
      modifies this
      ensures Valid()
      ensures r == if HasName(old(items), name) then Ok else ItemNotFound
      ensures items == RemoveName(old(items), name)
    {
      RemoveNameWellFormed(items, name);
      var found := Find(items, name);
      if found.Found? {
        RemoveNameAt(items, found.index);
        items := items[..found.index] + items[found.index + 1..];
        r := Ok;
      } else {
        RemoveNameAbsent(items, name);
        r := ItemNotFound;
      }
    }

    /** `ler_insumo`: the whole list for the reserved request, otherwise the
      record with that name, or "not found". */
    method Read(request: string) returns (r: ReadResult)
      requires Valid()
      ensures r.All? <==> IsAllRequest(request)
      ensures r.All? ==> r.items == items
      ensures r.One? ==> r.item in items && r.item.name == request
      ensures !IsAllRequest(request) ==> (r.Missing? <==> !HasName(items, request))
    {
      if IsAllRequest(request) {
        return All(items);
      }
      var found := Find(items, request);
      if found.Found? {
        r := One(found.item);
      } else {
        r := Missing;
      }
    }
  }
}
