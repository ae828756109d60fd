/** `analisar_estoque_grafo`: walk the graph's nodes in order and sort each
    into "below target" or "above target"; nodes exactly at target go in
    neither list. */
module StockAnalysis {
  import opened Items
  import opened LocationGraph

  /** The triple `(nome, atual, ideal)` reported for a node. */
  datatype Report = Report(name: string, current: int, target: int)

  function ReportOf(x: Item): (r: Report) {
    Report(x.name, x.current, x.target)
  }

  /** The report of every node, in node order. */
  function Reports(s: seq<Item>): (r: seq<Report>) {
    seq(|s|, k requires 0 <= k < |s| => ReportOf(s[k]))
  }

  /** Reference definition: the reports of the nodes under target, in node order. */
  ghost function BelowTarget(s: seq<Item>): (r: seq<Report>)
    decreases |s|
  {
    if s == [] then []
    else BelowTarget(s[..|s| - 1]) + (if s[|s| - 1].current < s[|s| - 1].target then [ReportOf(s[|s| - 1])] else [])
  }

  /** Reference definition: the reports of the nodes over target, in node order. */
  ghost function AboveTarget(s: seq<Item>): (r: seq<Report>)
    decreases |s|
  {
    if s == [] then []
    else AboveTarget(s[..|s| - 1]) + (if s[|s| - 1].current > s[|s| - 1].target then [ReportOf(s[|s| - 1])] else [])
  }

  /** The nodes exactly at target. */
  ghost function AtTarget(s: seq<Item>): (r: seq<Item>)
    decreases |s|
  {
    if s == [] then []
    else AtTarget(s[..|s| - 1]) + (if s[|s| - 1].current == s[|s| - 1].target then [s[|s| - 1]] else [])
  }

  /** `analisar_estoque_grafo(grafo)`: one pass over the nodes, appending to
      the list each node belongs in. */
  method Analyze(g: Graph) returns (below: seq<Report>, above: seq<Report>)
    ensures below == BelowTarget(g.nodes) && above == AboveTarget(g.nodes)
  {
    var s := g.nodes;
    below, above := [], [];
    var i := 0;
    while i < |s|
      invariant 0 <= i <= |s|
      invariant below == BelowTarget(s[..i]) && above == AboveTarget(s[..i])
    {
      assert s[..i + 1][..i] == s[..i];
      var x := s[i];
      if x.current < x.target {
        below := below + [ReportOf(x)];
      } else if x.current > x.target {
        above := above + [ReportOf(x)];
      }
      i := i + 1;
    }
    assert s[..i] == s;
  }

  /** Both lists keep node order: classifying a concatenation classifies each part. */
  lemma {:induction false} ClassifyConcat(a: seq<Item>, b: seq<Item>)
    ensures BelowTarget(a + b) == BelowTarget(a) + BelowTarget(b)
    ensures AboveTarget(a + b) == AboveTarget(a) + AboveTarget(b)
    decreases |b|
  {
    if b == [] {
      assert a + b == a;
    } else {
      var init := b[..|b| - 1];
      assert (a + b)[..|a + b| - 1] == a + init;
      ClassifyConcat(a, init);
    }
  }

  /** A single node is reported exactly when it is off target. */
  lemma {:induction false} ClassifyOne(x: Item)
    ensures BelowTarget([x]) == if x.current < x.target then [ReportOf(x)] else []
    ensures AboveTarget([x]) == if x.current > x.target then [ReportOf(x)] else []
  {
    assert [x][..0] == [];
  }

  /** When every node is under target, every node is reported "below", in
      order, and nothing "above". */
  lemma {:induction false} AllUnderTarget(s: seq<Item>)
    requires forall k :: 0 <= k < |s| ==> s[k].current < s[k].target
    ensures BelowTarget(s) == Reports(s)
    ensures AboveTarget(s) == []
    decreases |s|
  {
    if s != [] {
      var init := s[..|s| - 1];
      AllUnderTarget(init);
    }
  }

  /** Nodes under target followed by one node over target. */
  lemma {:induction false} UnderThenOver(s: seq<Item>, x: Item)
    requires forall k :: 0 <= k < |s| ==> s[k].current < s[k].target
    requires x.current > x.target
    ensures BelowTarget(s + [x]) == Reports(s)
    ensures AboveTarget(s + [x]) == [ReportOf(x)]
  {
    var t := s + [x];
    assert t[..|t| - 1] == s && t[|t| - 1] == x;
    AllUnderTarget(s);
    assert AboveTarget(t) == AboveTarget(s) + [ReportOf(x)];
  }

  /** One node over target followed by nodes under target. */
  lemma {:induction false} OverThenUnder(x: Item, s: seq<Item>)
    requires forall k :: 0 <= k < |s| ==> s[k].current < s[k].target
    requires x.current > x.target
    ensures BelowTarget([x] + s) == Reports(s)
    ensures AboveTarget([x] + s) == [ReportOf(x)]
  {
    ClassifyConcat([x], s);
    ClassifyOne(x);
    AllUnderTarget(s);
  }

  /** "Below" holds exactly the reports of the nodes under target. */
  lemma {:induction false} BelowTargetMembers(s: seq<Item>, r: Report)
    ensures r in BelowTarget(s) <==> exists k :: 0 <= k < |s| && s[k].current < s[k].target && r == ReportOf(s[k])
    decreases |s|
  {
    if s != [] {
      var init := s[..|s| - 1];
      BelowTargetMembers(init, r);
      assert forall k :: 0 <= k < |init| ==> init[k] == s[k];
      if r in BelowTarget(s) && r !in BelowTarget(init) {
        assert r == ReportOf(s[|s| - 1]);
      }
    }
  }

  /** "Above" holds exactly the reports of the nodes over target. */
  lemma {:induction false} AboveTargetMembers(s: seq<Item>, r: Report)
    ensures r in AboveTarget(s) <==> exists k :: 0 <= k < |s| && s[k].current > s[k].target && r == ReportOf(s[k])
    decreases |s|
  {
    if s != [] {
      var init := s[..|s| - 1];
      AboveTargetMembers(init, r);
      assert forall k :: 0 <= k < |init| ==> init[k] == s[k];
      if r in AboveTarget(s) && r !in AboveTarget(init) {
        assert r == ReportOf(s[|s| - 1]);
      }
    }
  }

  /** The two lists share no entry, every entry is a node's own triple, and a
      node exactly at target is reported in neither. */
  lemma {:induction false} ClassifyDisjoint(s: seq<Item>, r: Report)
    ensures !(r in BelowTarget(s) && r in AboveTarget(s))
    ensures r in BelowTarget(s) ==> r.current < r.target
    ensures r in AboveTarget(s) ==> r.current > r.target
    ensures r.current == r.target ==> r !in BelowTarget(s) && r !in AboveTarget(s)
  {
    BelowTargetMembers(s, r);
    AboveTargetMembers(s, r);
  }

  /** Every node is counted exactly once: the "below" and "above" lengths and
      the number of nodes exactly at target add up to the number of nodes. */
  lemma {:induction false} ClassifyCount(s: seq<Item>)
    ensures |BelowTarget(s)| + |AboveTarget(s)| + |AtTarget(s)| == |s|
    decreases |s|
  {
    if s != [] {
      ClassifyCount(s[..|s| - 1]);
    }
  }
}
