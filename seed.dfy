/** The initial stock the module ships with, and the demonstration run over
    it: sort, look up, add, update, remove, then build the location graph and
    analyse it. */
module Seed {
  import opened LexOrder
  import opened Items
  import opened MergeSort
  import opened LocationGraph
  import opened StockAnalysis
  import opened Inventory

  const seringas := Item("Seringas", "Depósito A", 150, 200, "unidades")
  const luvas := Item("Luvas", "Depósito B", 300, 500, "pares")
  const mascaras := Item("Máscaras", "Depósito C", 100, 250, "unidades")
  const ataduras := Item("Ataduras", "Depósito D", 75, 100, "rolos")
  const alcool := Item("Álcool em gel", "Depósito A", 50, 120, "litros")
  const termometros := Item("Termômetros", "Depósito B", 20, 40, "unidades")
  const agulhas := Item("Agulhas", "Depósito C", 550, 500, "unidades")
  const gazes := Item("Gazes", "Depósito A", 50, 150, "pacotes")

  /** `estoque_hospitalar["insumos"]` as declared. */
  function SeedItems(): seq<Item> {
    [seringas, luvas, mascaras, ataduras, alcool, termometros, agulhas]
  }

  /** The same records in code-point order of their names; "Álcool em gel"
      starts with U+00C1, above every ASCII letter, so it comes last. */
  function SortedSeed(): seq<Item> {
    [agulhas, ataduras, luvas, mascaras, seringas, termometros, alcool]
  }

  /** In the seed, every record except Agulhas (550 against 500) is under
      target, and nothing is exactly at target. */
  lemma SeedAnalysis()
    ensures BelowTarget(SeedItems()) ==
      [Report("Seringas", 150, 200), Report("Luvas", 300, 500), Report("Máscaras", 100, 250),
       Report("Ataduras", 75, 100), Report("Álcool em gel", 50, 120), Report("Termômetros", 20, 40)]
    ensures AboveTarget(SeedItems()) == [Report("Agulhas", 550, 500)]
  {
    var s6 := [seringas, luvas, mascaras, ataduras, alcool, termometros];
    assert SeedItems() == s6 + [agulhas];
    UnderThenOver(s6, agulhas);
  }

  /** Two names that differ in one of their first two characters differ. */
  lemma {:induction false} NamesDiffer(x: Item, y: Item)
    requires |x.name| > 1 && |y.name| > 1 && (x.name[0] != y.name[0] || x.name[1] != y.name[1])
    ensures x.name != y.name
  {
  }

  lemma SeedDistinct()
    ensures DistinctNames(SeedItems())
  {
    var s := SeedItems();
    forall i, j | 0 <= i < |s| && 0 <= j < |s| && i != j
      ensures s[i].name != s[j].name
    {
      NamesDiffer(s[i], s[j]);
    }
  }

  /** A list whose neighbouring names are strictly ascending is well formed. */
  lemma {:induction false} ChainWellFormed(s: seq<Item>)
    requires forall k :: 0 <= k < |s| - 1 ==> Less(s[k].name, s[k + 1].name)
    ensures WellFormed(s)
  {
    forall i, j | 0 <= i < j < |s|
      ensures !Less(s[j].name, s[i].name) && s[i].name != s[j].name
    {
      ChainLess(s, i, j);
      LessAsymmetric(s[i].name, s[j].name);
      LessIrreflexive(s[i].name);
    }
  }

  /** Strict order along a list follows from strict order of neighbours. */
  lemma {:induction false} ChainLess(s: seq<Item>, i: int, j: int)
    requires forall k :: 0 <= k < |s| - 1 ==> Less(s[k].name, s[k + 1].name)
    requires 0 <= i < j < |s|
    ensures Less(s[i].name, s[j].name)
    decreases j - i
  {
    if j > i + 1 {
      ChainLess(s, i + 1, j);
      LessTransitive(s[i].name, s[i + 1].name, s[j].name);
    }
  }

  lemma SortedSeedWellFormed()
    ensures WellFormed(SortedSeed())
  {
    var s := SortedSeed();
    assert Less(s[0].name, s[1].name) && Less(s[1].name, s[2].name) && Less(s[2].name, s[3].name);
    assert Less(s[3].name, s[4].name) && Less(s[4].name, s[5].name) && Less(s[5].name, s[6].name);
    ChainWellFormed(s);
  }

  /** `ordenar_insumos` on the seed gives `SortedSeed`. */
  lemma SeedSorts()
    ensures SortSeq(SeedItems()) == SortedSeed()
  {
    var s := SeedItems();
    SortSeqSorted(s);
    SortSeqPermutation(s);
    SeedDistinct();
    PermutationKeepsDistinct(s, SortSeq(s));
    SortedSeedWellFormed();
    forall x
      ensures x in SortSeq(s) <==> x in SortedSeed()
    {
      assert x in SortSeq(s) <==> x in multiset(s);
    }
    WellFormedSameMembers(SortSeq(s), SortedSeed());
  }

  // ------------------------------------------------------ demonstration run

  /** The store after adding Gazes to the sorted seed. */
  function WithGazes(): seq<Item> {
    [agulhas, ataduras, gazes, luvas, mascaras, seringas, termometros, alcool]
  }

  lemma GazesIsNew()
    ensures !HasName(SortedSeed(), "Gazes")
  {
    var s := SortedSeed();
    forall k | 0 <= k < |s|
      ensures s[k].name != "Gazes"
    {
      assert s[k].name[0] != 'G';
    }
  }

  lemma WithGazesWellFormed()
    ensures WellFormed(WithGazes())
  {
    var w := WithGazes();
    assert Less(w[0].name, w[1].name) && Less(w[1].name, w[2].name) && Less(w[2].name, w[3].name);
    assert Less(w[3].name, w[4].name) && Less(w[4].name, w[5].name) && Less(w[5].name, w[6].name);
    assert Less(w[6].name, w[7].name);
    ChainWellFormed(w);
  }

  /** `adicionar_insumo` of Gazes re-sorts it into third place. */
  lemma AddGazes()
    ensures !HasName(SortedSeed(), gazes.name)
    ensures AddItem(SortedSeed(), gazes) == WithGazes()
  {
    GazesIsNew();
    SortedSeedWellFormed();
    AddItemWellFormed(SortedSeed(), gazes);
    WithGazesWellFormed();
    var t := AddItem(SortedSeed(), gazes);
    forall x
      ensures x in t <==> x in WithGazes()
    {
      assert x in t <==> x in multiset(SortedSeed()) + multiset{gazes};
    }
    WellFormedSameMembers(t, WithGazes());
  }

  /** The store at the end of the run: Seringas counted at 180, Termômetros gone. */
  function FinalStock(): seq<Item> {
    [agulhas, ataduras, gazes, luvas, mascaras, seringas.(current := 180), alcool]
  }

  /** The list after setting Seringas to 180. */
  function Updated(): seq<Item> {
    [agulhas, ataduras, gazes, luvas, mascaras, seringas.(current := 180), termometros, alcool]
  }

  /** `atualizar_quantidade` of Seringas rewrites its record in place. */
  lemma UpdateSeringas()
    ensures HasName(WithGazes(), "Seringas")
    ensures SetQuantity(WithGazes(), "Seringas", 180) == Updated()
    ensures WellFormed(Updated())
  {
    var w := WithGazes();
    WithGazesWellFormed();
    assert w[5].name == "Seringas";
    SetQuantityAt(w, 5, 180);
    SetQuantityWellFormed(w, "Seringas", 180);
  }

  /** `remover_insumo` of Termômetros pops it, leaving the rest in order. */
  lemma RemoveTermometros()
    requires WellFormed(Updated())
    ensures HasName(Updated(), "Termômetros")
    ensures RemoveName(Updated(), "Termômetros") == FinalStock()
    ensures WellFormed(FinalStock()) && !HasName(FinalStock(), "Termômetros")
  {
    var u := Updated();
    assert u[6].name == "Termômetros";
    RemoveNameAt(u, 6);
    DropSeventh(agulhas, ataduras, gazes, luvas, mascaras, seringas.(current := 180), termometros, alcool);
    RemoveNameWellFormed(u, "Termômetros");
  }

  lemma {:induction false} DropSeventh(a: Item, b: Item, c: Item, d: Item, e: Item, f: Item, g: Item, h: Item)
    ensures [a, b, c, d, e, f, g, h][..6] + [a, b, c, d, e, f, g, h][7..] == [a, b, c, d, e, f, h]
  {
  }

  /** In the final store, only Gazes and Seringas share Depósito A with Álcool em gel. */
  lemma {:induction false} DepositoA(s: seq<Item>, q: int)
    requires s == FinalStock() && 0 <= q < |s| && q != 6 && s[q].location == s[6].location
    ensures s[q].name == "Gazes" || s[q].name == "Seringas"
  {
    assert s[q].location[9] == 'A';
    assert q == 2 || q == 5;
  }

  /** Gazes and Seringas are kept at Depósito A with Álcool em gel. */
  lemma {:induction false} DepositoAHolds(s: seq<Item>)
    requires s == FinalStock()
    ensures s[2].location == s[6].location && s[2].name == "Gazes"
    ensures s[5].location == s[6].location && s[5].name == "Seringas"
  {
    assert s[2] == gazes && s[5].location == seringas.location && s[6] == alcool;
  }

  /** In the final graph, the neighbours of Álcool em gel are Gazes and Seringas. */
  lemma {:induction false} FinalNeighbors(s: seq<Item>, n: string)
    requires s == FinalStock() && DistinctNames(s)
    ensures n in Neighbors(BuildGraph(s), "Álcool em gel") <==> n == "Gazes" || n == "Seringas"
  {
    NeighborsAreSameLocation(s, 6, n);
    if n in Neighbors(BuildGraph(s), "Álcool em gel") {
      var q :| 0 <= q < |s| && q != 6 && s[q].location == s[6].location && s[q].name == n;
      DepositoA(s, q);
    }
    DepositoAHolds(s);
  }

  /** The final store's analysis: Agulhas over target, everything else under. */
  lemma FinalAnalysis()
    ensures BelowTarget(FinalStock()) ==
      [Report("Ataduras", 75, 100), Report("Gazes", 50, 150), Report("Luvas", 300, 500),
       Report("Máscaras", 100, 250), Report("Seringas", 180, 200), Report("Álcool em gel", 50, 120)]
    ensures AboveTarget(FinalStock()) == [Report("Agulhas", 550, 500)]
  {
    var rest := [ataduras, gazes, luvas, mascaras, seringas.(current := 180), alcool];
    assert FinalStock() == [agulhas] + rest;
    OverThenUnder(agulhas, rest);
  }

  lemma {:induction false} FinalNeighborSet(s: seq<Item>)
    requires s == FinalStock() && DistinctNames(s)
    ensures Neighbors(BuildGraph(s), "Álcool em gel") == {"Gazes", "Seringas"}
  {
    forall n
      ensures n in Neighbors(BuildGraph(s), "Álcool em gel") <==> n in {"Gazes", "Seringas"}
    {
      FinalNeighbors(s, n);
    }
  }

  /** The look-ups of the demonstration run on the sorted seed: list all,
      find Luvas, miss Gazes. */
  method DemoLookups(st: Stock) returns (all: ReadResult, gloves: ReadResult, missing: ReadResult)
    requires st.Valid() && st.items == SortedSeed()
    ensures all == All(SortedSeed())
    ensures gloves.One? && gloves.item == luvas
    ensures missing == Missing
  {
    AllRequestSpellings();
    all := st.Read("todos");
    gloves := st.Read("Luvas");
    assert st.items[2].name == "Luvas";
    SortedSeedWellFormed();
    LuvasOnce(st.items, gloves.item);
    GazesIsNew();
    missing := st.Read("Gazes");
  }

  /** Only one record of the sorted seed is called Luvas. */
  lemma {:induction false} LuvasOnce(s: seq<Item>, x: Item)
    requires s == SortedSeed() && WellFormed(s) && x in s && x.name == "Luvas"
    ensures x == luvas
  {
    var k :| 0 <= k < |s| && s[k] == x;
    assert s[2].name == "Luvas";
  }

  /** Only one record of the list with Gazes added is called Gazes. */
  lemma {:induction false} GazesOnce(s: seq<Item>, x: Item)
    requires s == WithGazes() && WellFormed(s) && x in s && x.name == "Gazes"
    ensures x == gazes
  {
    var k :| 0 <= k < |s| && s[k] == x;
    assert s[2].name == "Gazes";
  }

  /** Only one record of the updated list is called Seringas, and it counts 180. */
  lemma {:induction false} SeringasOnce(s: seq<Item>, x: Item)
    requires s == Updated() && WellFormed(s) && x in s && x.name == "Seringas"
    ensures x == seringas.(current := 180)
  {
    var k :| 0 <= k < |s| && s[k] == x;
    assert s[5].name == "Seringas";
  }

  /** The changes of the demonstration run: add Gazes and read it back, set
      Seringas to 180 and read it back, remove Termômetros, miss it, then list
      what is left. */
  method DemoChanges(st: Stock) returns (added: Status, gotGazes: ReadResult, updated: Status,
                                         gotSeringas: ReadResult, removed: Status, gone: ReadResult,
                                         listed: ReadResult)
    requires st.Valid() && st.items == SortedSeed()
    modifies st
    ensures st.Valid() && st.items == FinalStock()
    ensures added == Ok && gotGazes == One(gazes)
    ensures updated == Ok && gotSeringas == One(seringas.(current := 180))
    ensures removed == Ok && gone == Missing && listed == All(FinalStock())
  {
    AddGazes();
    added := st.Add("Gazes", "Depósito A", 50, 150, "pacotes");
    AllRequestSpellings();
    gotGazes := ReadGazes(st);
    UpdateSeringas();
    updated := st.UpdateQuantity("Seringas", 180);
    gotSeringas := ReadSeringas(st);
    RemoveTermometros();
    removed := st.Remove("Termômetros");
    gone := st.Read("Termômetros");
    listed := st.Read("todos");
  }

  /** `ler_insumo` of Gazes right after adding it finds the new record. */
  method ReadGazes(st: Stock) returns (r: ReadResult)
    requires st.Valid() && st.items == WithGazes()
    ensures r == One(gazes)
  {
    WithGazesWellFormed();
    assert st.items[2].name == "Gazes";
    AllRequestIff("Gazes");
    r := st.Read("Gazes");
    GazesOnce(st.items, r.item);
  }

  /** `ler_insumo` of Seringas after the update finds it counted at 180. */
  method ReadSeringas(st: Stock) returns (r: ReadResult)
    requires st.Valid() && st.items == Updated()
    ensures r == One(seringas.(current := 180))
  {
    UpdateSeringas();
    assert st.items[5].name == "Seringas";
    AllRequestIff("Seringas");
    r := st.Read("Seringas");
    SeringasOnce(st.items, r.item);
  }

  /** A second `adicionar_insumo` of Gazes is refused and leaves the store as it was. */
  method DemoDuplicate(st: Stock) returns (again: Status)
    requires st.Valid() && st.items == WithGazes()
    modifies st
    ensures again == DuplicateItem && st.items == WithGazes()
  {
    assert st.items[2].name == "Gazes";
    again := st.Add("Gazes", "Depósito A", 50, 150, "pacotes");
  }

  /** The store part of the demonstration run on the seed: sort it into a
      store, look up, then make the changes. */
  method DemoStore() returns (st: Stock)
    ensures fresh(st) && st.Valid() && st.items == FinalStock()
  {
    SeedDistinct();
    st := new Stock(SeedItems());
    SeedSorts();
    var all, gloves, missing := DemoLookups(st);
    var added, gotGazes, updated, gotSeringas, removed, gone, listed := DemoChanges(st);
  }

  /** The demonstration run: the store part, then the location graph of what
      is left and its analysis. */
  method DemoRun() returns (below: seq<Report>, above: seq<Report>, nearAlcool: set<string>)
    ensures below ==
      [Report("Ataduras", 75, 100), Report("Gazes", 50, 150), Report("Luvas", 300, 500),
       Report("Máscaras", 100, 250), Report("Seringas", 180, 200), Report("Álcool em gel", 50, 120)]
    ensures above == [Report("Agulhas", 550, 500)]
    ensures nearAlcool == {"Gazes", "Seringas"}
  {
    var st := DemoStore();
    var g := BuildGraph(st.items);
    below, above := Analyze(g);
    FinalAnalysis();
    nearAlcool := Neighbors(g, "Álcool em gel");
    FinalNeighborSet(st.items);
  }
}
