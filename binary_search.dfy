/** `buscar_insumo`: binary search by name over a list that the caller keeps
    sorted by name. On an unsorted list it may miss an item, but what it
    returns is always right. */
module BinarySearch {
  import opened LexOrder
  import opened Items

  /** The pair `(item, index)` or `(None, None)`. */
  datatype Lookup = Found(item: Item, index: nat) | Absent

  /** On a sorted list, every name up to position `mid` is below `name` when `mid`'s is. */
  lemma {:induction false} BelowUpTo(s: seq<Item>, mid: int, name: string)
    requires SortedByName(s) && 0 <= mid < |s| && Less(s[mid].name, name)
    ensures forall k :: 0 <= k <= mid ==> Less(s[k].name, name)
  {
    forall k | 0 <= k < mid
      ensures Less(s[k].name, name)
    {
      AtMostThenLess(s[k].name, s[mid].name, name);
    }
  }

  /** On a sorted list, every name from position `mid` on is above `name` when `mid`'s is. */
  lemma {:induction false} AboveFrom(s: seq<Item>, mid: int, name: string)
    requires SortedByName(s) && 0 <= mid < |s| && Less(name, s[mid].name)
    ensures forall k :: mid <= k < |s| ==> Less(name, s[k].name)
  {
    forall k | mid < k < |s|
      ensures Less(name, s[k].name)
    {
      LessThenAtMost(name, s[mid].name, s[k].name);
    }
  }

  /** `buscar_insumo(lista_ordenada, nome)`. Sound on any list; on a list sorted
      by name it finds the name exactly when the name is there. */
  method Find(s: seq<Item>, name: string) returns (r: Lookup)
    ensures r.Found? ==> r.index < |s| && s[r.index].name == name && r.item == s[r.index]
    ensures SortedByName(s) ==> (r.Found? <==> HasName(s, name))
  {
    var lo, hi := 0, |s| - 1;
    while lo <= hi
      invariant 0 <= lo <= hi + 1 <= |s|
      invariant SortedByName(s) ==> forall k :: 0 <= k < lo ==> Less(s[k].name, name)
      invariant SortedByName(s) ==> forall k :: hi < k < |s| ==> Less(name, s[k].name)
      decreases hi - lo
    {
      var mid := (lo + hi) / 2;
      var midName := s[mid].name;
      if midName == name {
        return Found(s[mid], mid);
      } else if Less(midName, name) {
        if SortedByName(s) {
          BelowUpTo(s, mid, name);
        }
        lo := mid + 1;
      } else {
        LessTotal(midName, name);
        if SortedByName(s) {
          AboveFrom(s, mid, name);
        }
        hi := mid - 1;
      }
    }
    r := Absent;
    LessIrreflexive(name);
  }
}
