/** `construir_grafo_por_local`: one node per supply record, carrying its
    attributes, and an undirected edge between every two records kept at the
    same location. An edge is the set of its two end names. */
module LocationGraph {
  import opened Items

  datatype Graph = Graph(nodes: seq<Item>, edges: set<set<string>>)

  /** Some record of `s` is kept at `loc`. */
  ghost predicate HasLocation(s: seq<Item>, loc: string) {
    exists k :: 0 <= k < |s| && s[k].location == loc
  }

  /** The names of the records kept at `loc`, in list order. */
  ghost function NamesAt(s: seq<Item>, loc: string): (names: seq<string>)
    decreases |s|
  {
    if s == [] then []
    else NamesAt(s[..|s| - 1], loc) + (if s[|s| - 1].location == loc then [s[|s| - 1].name] else [])
  }

  lemma {:induction false} NamesAtNone(s: seq<Item>, loc: string)
    requires !HasLocation(s, loc)
    ensures NamesAt(s, loc) == []
    decreases |s|
  {
    if s != [] {
      var init := s[..|s| - 1];
      assert !HasLocation(init, loc) by {
        assert forall k :: 0 <= k < |init| ==> init[k] == s[k];
      }
      NamesAtNone(init, loc);
    }
  }

  /** A location occurs in a non-empty list when it occurs before the last record or at it. */
  lemma {:induction false} HasLocationSnoc(s: seq<Item>)
    requires |s| > 0
    ensures forall loc :: HasLocation(s, loc) <==> HasLocation(s[..|s| - 1], loc) || s[|s| - 1].location == loc
  {
    var init := s[..|s| - 1];
    assert forall k :: 0 <= k < |init| ==> init[k] == s[k];
  }

  /** The `locais` dictionary: each location mapped to the names kept there,
      appended in list order. */
  function GroupByLocation(s: seq<Item>): (m: map<string, seq<string>>)
    ensures forall loc :: loc in m <==> HasLocation(s, loc)
    ensures forall loc :: loc in m ==> m[loc] == NamesAt(s, loc)
    decreases |s|
  {
    if s == [] then map[]
    else
      var init := s[..|s| - 1];
      var m := GroupByLocation(init);
      var x := s[|s| - 1];
      HasLocationSnoc(s);
      if x.location in m then m[x.location := m[x.location] + [x.name]]
      else NamesAtNone(init, x.location); m[x.location := [x.name]]
  }

  /** The pair loops: within each location group, an edge for every `i < j`. */
  function PairsWithin(m: map<string, seq<string>>): (edges: set<set<string>>) {
    set loc, i, j | loc in m && 0 <= i < j < |m[loc]| :: {m[loc][i], m[loc][j]}
  }

  /** `construir_grafo_por_local(insumos)`. */
  function BuildGraph(s: seq<Item>): (g: Graph)
    ensures g.nodes == s
    ensures s == [] ==> g.edges == {}
  {
    if s == [] then Graph([], {})
    else Graph(s, PairsWithin(GroupByLocation(s)))
  }

  /** The names in a group, by position: record `p` at `loc` is entry number
      "how many records at `loc` come before `p`". */
  lemma {:induction false} NamesAtIndex(s: seq<Item>, loc: string, p: int)
    requires 0 <= p < |s| && s[p].location == loc
    ensures |NamesAt(s[..p], loc)| < |NamesAt(s, loc)|
    ensures NamesAt(s, loc)[|NamesAt(s[..p], loc)|] == s[p].name
    decreases |s|
  {
    var init := s[..|s| - 1];
    if p < |s| - 1 {
      assert init[..p] == s[..p];
      NamesAtIndex(init, loc, p);
    } else {
      assert s[..p] == init;
    }
  }

  /** And each entry of a group comes from such a record. */
  lemma {:induction false} NamesAtSource(s: seq<Item>, loc: string, i: int)
    requires 0 <= i < |NamesAt(s, loc)|
    ensures exists p :: (0 <= p < |s| && s[p].location == loc && s[p].name == NamesAt(s, loc)[i]
                         && |NamesAt(s[..p], loc)| == i)
    decreases |s|
  {
    var init := s[..|s| - 1];
    if i < |NamesAt(init, loc)| {
      NamesAtSource(init, loc, i);
      var p :| 0 <= p < |init| && init[p].location == loc && init[p].name == NamesAt(init, loc)[i]
        && |NamesAt(init[..p], loc)| == i;
      assert init[..p] == s[..p];
    } else {
      var p := |s| - 1;
      assert s[..p] == init;
    }
  }

  /** Later records at the same location come later in the group. */
  lemma {:induction false} NamesAtGrows(s: seq<Item>, loc: string, p: int, q: int)
    requires 0 <= p < q <= |s| && s[p].location == loc
    ensures |NamesAt(s[..p], loc)| < |NamesAt(s[..q], loc)|
  {
    NamesAtIndex(s[..q], loc, p);
    assert s[..q][..p] == s[..p];
  }

  /** Two different records kept at the same location are joined by an edge. */
  lemma {:induction false} SameLocationEdge(s: seq<Item>, p: int, q: int)
    requires 0 <= p < |s| && 0 <= q < |s| && p != q && s[p].location == s[q].location
    ensures {s[p].name, s[q].name} in BuildGraph(s).edges
  {
    var loc := s[p].location;
    var lo, hi := if p < q then p else q, if p < q then q else p;
    var m := GroupByLocation(s);
    var i, j := |NamesAt(s[..lo], loc)|, |NamesAt(s[..hi], loc)|;
    NamesAtGrows(s, loc, lo, hi);
    NamesAtIndex(s, loc, lo);
    NamesAtIndex(s, loc, hi);
    assert loc in m;
    assert {m[loc][i], m[loc][j]} in PairsWithin(m);
    assert {m[loc][i], m[loc][j]} == {s[p].name, s[q].name};
  }

  /** Every edge joins two different records kept at the same location. */
  lemma {:induction false} EdgeWitness(s: seq<Item>, e: set<string>)
    requires e in BuildGraph(s).edges
    ensures exists p, q :: (0 <= p < |s| && 0 <= q < |s| && p != q
                            && s[p].location == s[q].location && e == {s[p].name, s[q].name})
  {
    var m := GroupByLocation(s);
    var loc, i, j :| loc in m && 0 <= i < j < |m[loc]| && e == {m[loc][i], m[loc][j]};
    NamesAtSource(s, loc, i);
    NamesAtSource(s, loc, j);
    var p :| 0 <= p < |s| && s[p].location == loc && s[p].name == NamesAt(s, loc)[i]
      && |NamesAt(s[..p], loc)| == i;
    var q :| 0 <= q < |s| && s[q].location == loc && s[q].name == NamesAt(s, loc)[j]
      && |NamesAt(s[..q], loc)| == j;
    assert p != q;
  }

  /** With distinct names (the store invariant), two different records are
      joined exactly when they share a location. */
  lemma {:induction false} EdgeIff(s: seq<Item>, p: int, q: int)
    requires DistinctNames(s) && 0 <= p < |s| && 0 <= q < |s| && p != q
    ensures {s[p].name, s[q].name} in BuildGraph(s).edges <==> s[p].location == s[q].location
  {
    if s[p].location == s[q].location {
      SameLocationEdge(s, p, q);
    }
    var e := {s[p].name, s[q].name};
    if e in BuildGraph(s).edges {
      EdgeWitness(s, e);
      var p', q' :| 0 <= p' < |s| && 0 <= q' < |s| && p' != q'
        && s[p'].location == s[q'].location && e == {s[p'].name, s[q'].name};
      assert s[p].name in {s[p'].name, s[q'].name};
      assert s[q].name in {s[p'].name, s[q'].name};
      assert (p == p' && q == q') || (p == q' && q == p');
    }
  }

  /** `grafo.neighbors(nome)`: the names joined to `name` by an edge. */
  function Neighbors(g: Graph, name: string): (ns: set<string>) {
    set e, n | e in g.edges && name in e && n in e && n != name :: n
  }

  /** If record `p` is one end of the edge between `p'` and `q'`, the other end is another record. */
  lemma {:induction false} OtherEnd(s: seq<Item>, p: int, p': int, q': int, n: string)
    requires DistinctNames(s) && 0 <= p < |s| && 0 <= p' < |s| && 0 <= q' < |s| && p' != q'
    requires s[p'].location == s[q'].location
    requires s[p].name in {s[p'].name, s[q'].name} && n in {s[p'].name, s[q'].name} && n != s[p].name
    ensures exists q :: 0 <= q < |s| && q != p && s[q].location == s[p].location && s[q].name == n
  {
    if s[p].name == s[p'].name {
      assert p == p' && n == s[q'].name;
    } else {
      assert p == q' && n == s[p'].name;
    }
  }

  /** The other end of an edge at record `p` is another record at its location. */
  lemma {:induction false} EdgeOtherEnd(s: seq<Item>, p: int, e: set<string>, n: string)
    requires DistinctNames(s) && 0 <= p < |s| && s[p].name in e && n in e && n != s[p].name
    requires exists p', q' :: (0 <= p' < |s| && 0 <= q' < |s| && p' != q'
                               && s[p'].location == s[q'].location && e == {s[p'].name, s[q'].name})
    ensures exists q :: 0 <= q < |s| && q != p && s[q].location == s[p].location && s[q].name == n
  {
    var p', q' :| 0 <= p' < |s| && 0 <= q' < |s| && p' != q'
      && s[p'].location == s[q'].location && e == {s[p'].name, s[q'].name};
    OtherEnd(s, p, p', q', n);
  }

  lemma {:induction false} NeighborEdge(g: Graph, name: string, n: string)
    requires n in Neighbors(g, name)
    ensures exists e :: e in g.edges && name in e && n in e && n != name
  {
  }

  /** A neighbour of record `p` is another record kept at its location. */
  lemma {:induction false} NeighborSource(s: seq<Item>, p: int, n: string)
    requires DistinctNames(s) && 0 <= p < |s| && n in Neighbors(BuildGraph(s), s[p].name)
    ensures exists q :: 0 <= q < |s| && q != p && s[q].location == s[p].location && s[q].name == n
  {
    var g := BuildGraph(s);
    NeighborEdge(g, s[p].name, n);
    var e :| e in g.edges && s[p].name in e && n in e && n != s[p].name;
    EdgeWitness(s, e);
    EdgeOtherEnd(s, p, e, n);
  }

  /** With distinct names, the neighbours of record `p` are exactly the other
      records kept at its location. */
  lemma {:induction false} NeighborsAreSameLocation(s: seq<Item>, p: int, n: string)
    requires DistinctNames(s) && 0 <= p < |s|
    ensures n in Neighbors(BuildGraph(s), s[p].name) <==>
      exists q :: 0 <= q < |s| && q != p && s[q].location == s[p].location && s[q].name == n
  {
    if n in Neighbors(BuildGraph(s), s[p].name) {
      NeighborSource(s, p, n);
    }
    if exists q :: 0 <= q < |s| && q != p && s[q].location == s[p].location && s[q].name == n {
      var q :| 0 <= q < |s| && q != p && s[q].location == s[p].location && s[q].name == n;
      SameLocationEdge(s, p, q);
      var e := {s[p].name, s[q].name};
      assert e in BuildGraph(s).edges && s[p].name in e && n in e && n != s[p].name;
    }
  }
}
