# Hospital stock manager, modelled in Dafny

A model of `estoque_hospitalar_aprimorado.py`, an in-memory store of hospital
supply records (`insumos`). Each record has a name (`nome`), a location
(`local`), a current quantity (`quantidade_atual`), a target quantity
(`quantidade_ideal`) and a unit (`unidade`). The store is a list kept sorted by
name, so that lookups can use binary search. The model covers the following:

- the in-place merge sort `ordenar_insumos`;
- the binary search `buscar_insumo`;
- the three mutations that keep the list sorted: `adicionar_insumo`,
  `atualizar_quantidade` and `remover_insumo`;
- the read `ler_insumo`, with its reserved request `"todos"`;
- the location graph `construir_grafo_por_local`;
- the below/above target report `analisar_estoque_grafo`;
- the seed data and the demonstration run, as a concrete scenario.

Modules, one concept each:

- `LexOrder` (`lex_order.dfy`): Python's `str <` is lexicographic by code
  point. This module defines it as `Less` and proves it a strict total order.
  Dafny's own `<` on strings is the proper-prefix relation.
- `Items` (`items.dfy`): the record datatype and the store invariant
  `WellFormed` (sorted by name, names distinct). It also proves permutation and
  membership facts about well-formed lists.
- `MergeSort` (`merge_sort.dfy`): `SortSeq` and `Merge` are the reference
  definitions. `SortInPlace` is the array method of `ordenar_insumos`: two fresh
  copies of the halves, recursion on them, then the three merge loops into the
  original array.
- `BinarySearch` (`binary_search.dfy`): `Find`, the loop of `buscar_insumo`.
- `Inventory` (`inventory.dfy`): three reference functions, `AddItem`,
  `SetQuantity` and `RemoveName`, with their lemmas, and the class `Stock`.
  `Stock` holds the list and has one method per operation. Each method's new
  state is stated as the reference function applied to the old state.
- `LocationGraph` (`location_graph.dfy`): the graph as a node sequence plus a set
  of unordered name pairs. The pairs are built from the `locais` dictionary
  exactly as the pair loops build them.
- `StockAnalysis` (`stock_analysis.dfy`): the analysis loop as a method, proved
  equal to the filter functions `BelowTarget` and `AboveTarget`, with their
  properties.
- `Seed` (`seed.dfy`): the seed data at lines 28-80 and the demonstration run at
  lines 330-382, with every intermediate state computed and checked.

The merge takes the left element only when its name is strictly smaller
(line 108), so on equal names the right half's element comes first and the sort
is not stable; `TieTakesRight` shows this on two records with the same name.

## Model

| member | source | states |
|---|---|---|
| LexOrder.LessTotal | estoque_hospitalar_aprimorado.py:108 | any two names are equal or one is below the other under Python's string order |
| LexOrder.LessTrichotomy | estoque_hospitalar_aprimorado.py:148-153 | exactly one of `<`, `==`, `>` holds between two names, so the search's three branches cover every case once |
| LexOrder.LessTransitive | estoque_hospitalar_aprimorado.py:150 | the name order is transitive |
| Items.WellFormedIsStrict | estoque_hospitalar_aprimorado.py:128-132 | in a store sorted by name with distinct names, names strictly increase along the list |
| Items.DeleteKeepsWellFormed | estoque_hospitalar_aprimorado.py:252-254 | deleting any one position keeps the list sorted and its names distinct |
| Items.PermutationKeepsDistinct | estoque_hospitalar_aprimorado.py:181-182 | re-ordering a list whose names are distinct keeps them distinct |
| Items.WellFormedSameMembers | estoque_hospitalar_aprimorado.py:182 | two sorted lists with distinct names and the same records are equal, so the sorted store is fixed by its contents |
| MergeSort.MergePermutation | estoque_hospitalar_aprimorado.py:106-124 | the merge output is exactly the records of both halves, none lost or added |
| MergeSort.MergeSorted | estoque_hospitalar_aprimorado.py:106-124 | merging two lists sorted by name gives a list sorted by name |
| MergeSort.SortSeqPermutation | estoque_hospitalar_aprimorado.py:96-124 | the sorted list is a permutation of the input |
| MergeSort.SortSeqSorted | estoque_hospitalar_aprimorado.py:96-124 | the sorted list is ascending by name |
| MergeSort.TieTakesRight | estoque_hospitalar_aprimorado.py:108-113 | two records with equal names come out in swapped order: ties take the right half, so the sort is not stable |
| MergeSort.CopyOf | estoque_hospitalar_aprimorado.py:98-99 | the slice copy is a fresh array holding exactly the slice |
| MergeSort.TakeFront | estoque_hospitalar_aprimorado.py:108-114 | one turn of the merge loop writes the strictly smaller front, or else the right one, and the output so far followed by the merge of what is left is still the whole merge |
| MergeSort.MergeFronts | estoque_hospitalar_aprimorado.py:106-114 | the first merge loop stops with one half used up, having written a prefix of the merge |
| MergeSort.CopyRest | estoque_hospitalar_aprimorado.py:116-124 | a tail loop copies what is left of one half into the next positions and changes nothing else |
| MergeSort.MergeInto | estoque_hospitalar_aprimorado.py:106-124 | the three merge loops leave exactly the merge of the two halves in the array |
| MergeSort.SortInPlace | estoque_hospitalar_aprimorado.py:84-124 | the array ends up holding the sort of its old contents (sorted, and a permutation, by the lemmas above); length 0 and 1 are left unchanged |
| BinarySearch.BelowUpTo | estoque_hospitalar_aprimorado.py:150-151 | on a sorted list, when the middle name is below the key, so is every name up to the middle, so moving `esquerda` past it loses nothing |
| BinarySearch.AboveFrom | estoque_hospitalar_aprimorado.py:152-153 | on a sorted list, when the middle name is above the key, so is every name from the middle on |
| BinarySearch.Find | estoque_hospitalar_aprimorado.py:143-154 | on any list a returned `(item, i)` has `i` in range, `item == lista[i]` and the name searched for; on a list sorted by name, not found happens exactly when no record has the name |
| Inventory.AddItemWellFormed | estoque_hospitalar_aprimorado.py:169-182 | adding keeps the store sorted with distinct names; a taken name leaves it unchanged; a new name gives the old records plus the new one, one longer |
| Inventory.AddItemContains | estoque_hospitalar_aprimorado.py:174-182 | after adding a new name the store holds the new record under that name |
| Inventory.RemoveAfterAdd | estoque_hospitalar_aprimorado.py:181-252 | adding a new record and then removing it by name restores the store exactly |
| Inventory.SetQuantityAt | estoque_hospitalar_aprimorado.py:233-235 | with distinct names, an update by name changes only `quantidade_atual` of the record at the found index |
| Inventory.SetQuantityAbsent | estoque_hospitalar_aprimorado.py:237-238 | an absent name leaves the store unchanged |
| Inventory.SetQuantityWellFormed | estoque_hospitalar_aprimorado.py:235 | an update keeps the store sorted with distinct names |
| Inventory.SetQuantityIdempotent | estoque_hospitalar_aprimorado.py:235 | the same update applied twice equals it applied once |
| Inventory.RemoveNameMembers | estoque_hospitalar_aprimorado.py:250-252 | after removal the records left are those of the old store not carrying the name |
| Inventory.RemoveNameAt | estoque_hospitalar_aprimorado.py:250-252 | with distinct names, removal by name deletes exactly the position the record is at |
| Inventory.RemoveNameAbsent | estoque_hospitalar_aprimorado.py:257-258 | an absent name leaves the store unchanged |
| Inventory.RemoveNameWellFormed | estoque_hospitalar_aprimorado.py:252-256 | removal keeps the store sorted with distinct names without re-sorting; the name is gone; the length drops by one exactly when it was there |
| Inventory.AllRequestIff | estoque_hospitalar_aprimorado.py:193 | the request lists everything exactly when it is "todos" in any mix of upper and lower case |
| Inventory.AllRequestSpellings | estoque_hospitalar_aprimorado.py:193 | "todos", "Todos" and "TODOS" list everything; "Luvas" and "todo" do not |
| Inventory.RunWellFormed | estoque_hospitalar_aprimorado.py:156-258 | any sequence of additions, updates and removals keeps the store sorted with distinct names |
| Inventory.Stock.constructor | estoque_hospitalar_aprimorado.py:330-332 | the initial store is the sorted seed, a permutation of it; with distinct seed names the store invariant holds |
| Inventory.Stock.Add | estoque_hospitalar_aprimorado.py:156-183 | refuses a taken name and leaves the store as it was; otherwise the store becomes `AddItem` of the old one, with the invariant kept |
| Inventory.Stock.UpdateQuantity | estoque_hospitalar_aprimorado.py:222-238 | reports not found exactly for an absent name; the store becomes `SetQuantity` of the old one |
| Inventory.Stock.Remove | estoque_hospitalar_aprimorado.py:240-258 | reports not found exactly for an absent name; the store becomes `RemoveName` of the old one |
| Inventory.Stock.Read | estoque_hospitalar_aprimorado.py:185-220 | the reserved request returns the whole list; any other request returns a record of the store with that name, or "not found" exactly when none has it |
| LocationGraph.GroupByLocation | estoque_hospitalar_aprimorado.py:287-292 | the `locais` dictionary has a key exactly for each location in use, and maps it to the names kept there, in list order |
| LocationGraph.BuildGraph | estoque_hospitalar_aprimorado.py:273-301 | the nodes are the records in list order, and an empty list gives an empty graph |
| LocationGraph.SameLocationEdge | estoque_hospitalar_aprimorado.py:294-299 | two different records kept at the same location are joined by an edge |
| LocationGraph.EdgeWitness | estoque_hospitalar_aprimorado.py:294-299 | every edge joins two different records kept at the same location; nothing else is an edge |
| LocationGraph.EdgeIff | estoque_hospitalar_aprimorado.py:286-299 | with distinct names, two different records are joined exactly when they share a location |
| LocationGraph.NeighborsAreSameLocation | estoque_hospitalar_aprimorado.py:379-381 | with distinct names, the neighbours of a record are exactly the other records kept at its location |
| StockAnalysis.Analyze | estoque_hospitalar_aprimorado.py:315-324 | the loop returns exactly `BelowTarget` and `AboveTarget` of the node list |
| StockAnalysis.ClassifyConcat | estoque_hospitalar_aprimorado.py:317-323 | the classification of a concatenation is the concatenation of the classifications, so both lists keep node order |
| StockAnalysis.BelowTargetMembers | estoque_hospitalar_aprimorado.py:320-321 | "below" holds exactly the `(nome, atual, ideal)` triples of the nodes under target |
| StockAnalysis.AboveTargetMembers | estoque_hospitalar_aprimorado.py:322-323 | "above" holds exactly the triples of the nodes over target |
| StockAnalysis.ClassifyDisjoint | estoque_hospitalar_aprimorado.py:320-323 | the two lists share no entry, and a node exactly at target is in neither |
| StockAnalysis.ClassifyCount | estoque_hospitalar_aprimorado.py:317-323 | the two list lengths plus the number of nodes at target add up to the number of nodes |
| StockAnalysis.AllUnderTarget | estoque_hospitalar_aprimorado.py:320-321 | when every node is under target, every node is reported "below", in order, and nothing "above" |
| Seed.SeedDistinct | estoque_hospitalar_aprimorado.py:28-80 | the seed's names are distinct |
| Seed.SeedAnalysis | estoque_hospitalar_aprimorado.py:28-80 | on the seed, every record except Agulhas (550 against 500) is below target, in seed order |
| Seed.SeedSorts | estoque_hospitalar_aprimorado.py:330-332 | sorting the seed gives Agulhas, Ataduras, Luvas, Máscaras, Seringas, Termômetros, Álcool em gel ("Á" sorts after every ASCII letter) |
| Seed.AddGazes | estoque_hospitalar_aprimorado.py:344 | Gazes is new and is sorted into third place |
| Seed.UpdateSeringas | estoque_hospitalar_aprimorado.py:349 | setting Seringas to 180 rewrites only that record |
| Seed.RemoveTermometros | estoque_hospitalar_aprimorado.py:354 | removing Termômetros leaves the rest in order, without it |
| Seed.FinalAnalysis | estoque_hospitalar_aprimorado.py:363 | on the final store Agulhas is above target and the six others below |
| Seed.FinalNeighborSet | estoque_hospitalar_aprimorado.py:379-382 | in the final graph the neighbours of Álcool em gel are Gazes and Seringas |
| Seed.DemoLookups | estoque_hospitalar_aprimorado.py:335-340 | listing all gives the sorted seed, Luvas is found, Gazes is not |
| Seed.DemoChanges | estoque_hospitalar_aprimorado.py:342-356 | Gazes is added and read back as the new record, Seringas is updated and read back counting 180, Termômetros is removed and then not found, and listing all gives the final store |
| Seed.GazesOnce | estoque_hospitalar_aprimorado.py:344-345 | after Gazes is added, the only record named Gazes is the one added |
| Seed.SeringasOnce | estoque_hospitalar_aprimorado.py:349-350 | after the update, the only record named Seringas counts 180 |
| Seed.ReadGazes | estoque_hospitalar_aprimorado.py:345 | reading Gazes after the add returns exactly the added record |
| Seed.ReadSeringas | estoque_hospitalar_aprimorado.py:350 | reading Seringas after the update returns its record with 180 in stock |
| Seed.DemoDuplicate | estoque_hospitalar_aprimorado.py:169-172 | adding Gazes a second time is refused as a duplicate and the store is unchanged |
| Seed.DemoStore | estoque_hospitalar_aprimorado.py:330-356 | the store part of the run ends in the expected final store |
| Seed.DemoRun | estoque_hospitalar_aprimorado.py:358-382 | the run reports the six items below target, Agulhas above, and Gazes and Seringas next to Álcool em gel |

## Left out

- `print` output and message text are not modelled. The listings and
  messages of `ler_insumo` and of the mutations become result values: `ReadResult`
  and `Status`.
- The NetworkX library is not modelled. The graph is a node sequence and a set
  of two-name edges. NetworkX merges nodes with the same name and keeps
  attribute dictionaries; those are foreign-library behaviour. The edge and
  neighbour lemmas assume distinct names, which the store invariant provides.
- The edge attribute `local=` on `add_edge` (line 299) is not carried on the
  edges.
- The skip at line 318, for nodes lacking quantity attributes, is not modelled.
  It cannot fire on graphs built by `BuildGraph`, whose nodes are full records.
- Stock.Read: `nome.lower()` is modelled by ASCII lower-casing (`AsciiLower`).
  Full Unicode case mapping is left out. No character outside ASCII lower-cases
  to a letter of "todos", so the reserved-request test decides the same way.
- Stock.Read: a record actually named "todos", in any case, can never be looked
  up singly, because the reserved request wins. The model keeps this behaviour.
- The generic sort key `chave` is not modelled. Every caller sorts by `nome`,
  so the sort is modelled on names only.
- The module-level global `estoque_hospitalar` becomes the explicitly passed
  `Stock` object built from `SeedItems()`.
- `main.py` is not part of this model. It is a superseded draft of the same
  program.
- Quantities are Python integers, which are unbounded, so they are Dafny `int`.
  Nothing checks their sign, and neither does the model.
- `ler_insumo` and the two analysis functions are modelled as read-only members
  (`Stock.Read`, `BuildGraph`, `Analyze`). `Analyze` keeps the source's loop and
  is proved equal to the filter functions `BelowTarget` and `AboveTarget`.
- The merge sort recurses on two fresh arrays, like the source's slice copies.
  The store keeps its list as a `seq` field, rebuilt from the sorted array after
  each addition; list aliasing by other references is not modelled.
