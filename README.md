# Hash tables, routes and viruses: a Dafny model

This project models the core of a small Python coursework repository about
viruses that hack computers along a route. It has two hash tables and four
smaller pieces of sequential logic:

- **`DoubleKeyTable`** (double_key_table.py): a two-level open-addressing table.
  - A top-level array holds `(key1, nested table)` pairs; each nested table holds `(key2, value)` pairs.
  - Both levels are probed linearly, from the code of the first character of `key1` and of the last character of `key2`.
  - `count` counts the taken top-level slots.
  - The table resizes along a size schedule once `count` reaches half the size, by setting every pair again.
- **`InfiniteHashTable`** (infinite_hash_table.py): a trie-like table.
  - Every node has 27 slots, and a key goes to slot `key[level] % 26`, or to slot 26 once the key is exhausted.
  - A clash between two keys nests a child table one level down.
  - A delete that leaves a child with a single pair lifts that pair back into the parent.
- **Routes** (route.py): an immutable algebra of series and splits.
- **Viruses** (virus.py): the branch choices that look at integers only, and the list of hacked computers.
- **`ComputerManager`** (computer_manager.py): a list of computers changed in place, with a filter and a grouping by hacking difficulty.
- **`Computer`** (computer.py): a record with its equality and its order.

## Layout

| file | module | what it holds |
|---|---|---|
| wrappers.dfy | `Wrappers` | `Option`, `Result` and the `KeyError` exception |
| string_order.dfy | `StringOrder` | Python's `<` on strings, proved a strict total order |
| sorting.dfy | `Sorting` | a sort proved to give a sorted permutation, standing in for the repository's `mergesort` |
| computer.dfy | `Computers` | the `Computer` record, `__eq__` and `__lt__` |
| route.dfy | `Routes` | `Route`, `RouteSplit`, `RouteSeries` as datatypes with their methods |
| virus.dfy | `Viruses` | the branch decisions and the `Virus` class |
| computer_manager.dfy | `ComputerManagers` | the `ComputerManager` class, the grouping loop and its proof |
| double_key_spec.dfy | `DoubleKeySpec` | the double key table as a value: probes, set with resize, get, delete, keys, values |
| double_key_props.dfy | `DoubleKeyProps` | what those operations promise: read-back, counter meaning, when probes loop, listings |
| double_key_table.dfy | `DoubleKeyTables` | the `DoubleKeyTable` class over an array; each method is proved equal to its `DoubleKeySpec` function |
| double_key_clean.dfy | `DoubleKeyClean` | clean tables, where every key sits where its probe stops: kept by insert, set and resize, and on them reads and resizes keep every pair |
| double_key_stale.dfy | `DoubleKeyStale` | a concrete run in which a set reads back an older value, and a resize loses a pair |
| infinite_hash_spec.dfy | `InfiniteHashSpec` | the infinite hash table as a tree value, with its well-formedness and its operations |
| infinite_hash_table.dfy | `InfiniteHashTables` | the `InfiniteHashTable` class: 27 cells written in place, child tables as objects |

The two tables follow one pattern. A pure module defines the table as a
value, and lemmas prove what the operations promise about that value. A
class with the source's fields then runs the source's algorithm. Each of its
methods ensures that the new state is the spec function applied to the old
state (`Abs()` for the double key table, the ghost `Tree` for the infinite
hash table).

Neither probe loop of `_linear_probe` is bounded: when every slot it visits
holds another key, it runs forever. In the value model such an operation
yields `Diverges`. The methods of the class require that their spec does not
diverge. For the top-level probe this always holds, because the table stays
below half load (`DoubleKeyProps.TopProbeStops`).

`__delitem__` frees a top-level slot once its nested table is empty, and
it leaves the rest of the probe cluster where it is. A later insert of a key
that sits past the freed slot can then stop at the freed slot and store a
second entry for that key. `DoubleKeyStale.StaleValueAfterResize` follows
such a run from a new table. Setting `("A","x")` to 3 triggers a resize.
The resize re-inserts the two copies in slot order, so the older value 2
wins, and the lookup afterwards returns 2. Even before that resize, right after the
delete, `("A","x")` raises KeyError although its triple is still stored
(`DoubleKeyStale.DeleteHidesPair`). The model keeps this behaviour as
written.

Call a table clean when every stored key sits exactly where its own probe
stops, at both levels (`DoubleKeyClean.Clean`). A new table is clean, and
insert, set and resize keep it clean. On a clean table every stored triple
reads back, a set reads back even when it resizes, and a resize keeps every
triple and `count` (`DoubleKeyClean.SetThenGetClean`,
`DoubleKeyClean.RehashClean`). A delete can break cleanness
(`DoubleKeyStale.NotCleanAfterDelete`). For any table, read-back is proved
for a set that does not resize (`DoubleKeyProps.SetThenGet`).

## Model

| member | source | states |
|---|---|---|
| Computers.Less | computer.py:13-20 | `<` compares difficulty first, so a computer below another is never the harder one |
| Computers.Equal | computer.py:22-30 | `==` compares name, difficulty, hacked value and risk factor |
| Computers.EqualIsSameRecord | computer.py:22-30 | `a == b` holds exactly when name, difficulty, hacked value and risk factor all agree, that is, when the records are identical |
| Computers.LessIrreflexive | computer.py:13-20 | no computer is `<` itself |
| Computers.LessIgnoresHackedValue | computer.py:13-30 | two computers differing only in hacked value are neither `<` in either direction nor `==` |
| Computers.LessTransitive | computer.py:13-20 | `<` is transitive |
| StringOrder.Less | computer.py:20 | Python's `<` on names: it only holds between different strings, and a proper prefix comes before the longer string |
| StringOrder.LessIrreflexive | computer.py:20 | no string is below itself in the name order |
| StringOrder.LessTransitive | computer.py:20 | the name order is transitive |
| StringOrder.LessTotal | computer.py:20 | of two different names, one is below the other |
| StringOrder.LessAsymmetric | computer.py:20 | a name below another is not also above it |
| Routes.RouteSplit.RemoveBranch | route.py:27-30 | the store left is exactly the split's following route |
| Routes.RouteSeries.RemoveComputer | route.py:46-52 | the store left is exactly the series' following route |
| Routes.RouteSeries.AddComputerBefore | route.py:56-69 | a series headed by the new computer whose following route is the old series; removing its computer gives the old series back |
| Routes.RouteSeries.AddComputerAfter | route.py:78-85 | a series keeping the old computer first, then the new computer, then the old following route |
| Routes.RouteSeries.AddEmptyBranchBefore | route.py:91-97 | a split with empty top and bottom whose following route is the old series; removing the branch gives the series back |
| Routes.RouteSeries.AddEmptyBranchAfter | route.py:100-113 | a series keeping the old computer first, then a split with empty top and bottom followed by the old following route |
| Routes.Route.AddComputerBefore | route.py:125-131 | a new route whose store is a series headed by the computer, followed by the original route |
| Routes.Route.AddEmptyBranchBefore | route.py:135-140 | a new route whose store is an empty split followed by the original route |
| Routes.AddBeforeThenRemove | route.py:46-69 | for every series, adding a computer before it and removing it again gives the series back |
| Routes.AddBranchThenRemove | route.py:91-97 | for every series, adding an empty branch before it and removing the branch gives the series back |
| Routes.AddComputerBeforeSpine | route.py:125-131 | the computers along the route gain the new one at their head, and the splits are unchanged |
| Routes.SeriesAddBeforeSpine | route.py:56-69 | adding before a series puts the new computer first along the route, the old ones after it |
| Routes.SeriesAddAfterSpine | route.py:78-85 | adding after a series' computer puts the new one second along the route, with no new split |
| Routes.AddEmptyBranchSpine | route.py:135-140 | an empty branch before a route keeps its computers and adds exactly one split |
| Routes.SeriesEmptyBranchSpine | route.py:91-113 | an empty branch before or after a series' computer keeps the route's computers and adds exactly one split |
| Viruses.LazySelect | virus.py:36-59 | with two series, TOP, BOTTOM or STOP exactly as the top computer is easier, harder or equally hard; with only the top a series, BOTTOM; with no top series, TOP |
| Viruses.LazySwapSymmetric | virus.py:45-54 | between two series, exchanging the branches exchanges TOP and BOTTOM and keeps STOP |
| Viruses.LazyNeverHarder | virus.py:45-54 | between two series, the lazy virus never steps onto the strictly harder computer |
| Viruses.Virus.SelectBranch | virus.py:24-59 | a top virus always answers TOP, a bottom virus always BOTTOM, a lazy virus as `LazySelect` |
| Viruses.Virus.AddComputer | virus.py:16-17 | the hacked list gains the computer at its end; earlier entries are unchanged |
| ComputerManagers.IndexOf | computer_manager.py:44 | `list.index`: the first position holding the computer |
| ComputerManagers.ComputerManager.AddComputer | computer_manager.py:16-25 | appends the computer exactly when no equal one is listed, and never creates a duplicate in a duplicate-free list |
| ComputerManagers.ComputerManager.RemoveComputer | computer_manager.py:27-34 | removes the first equal computer, so the length drops by one exactly when it was listed; otherwise nothing changes |
| ComputerManagers.ComputerManager.EditComputer | computer_manager.py:37-45 | replaces the first occurrence at the same index; length and all other positions unchanged; no-op when absent |
| ComputerManagers.ComputerManager.ComputersWithDifficulty | computer_manager.py:48-54 | returns only computers of that difficulty, and every listed computer of that difficulty |
| ComputerManagers.WithDifficulty | computer_manager.py:54 | the filter returns listed computers of that difficulty only, never more than the list holds |
| ComputerManagers.WithDifficultyCounts | computer_manager.py:54 | the filter keeps each computer of the difficulty as often as it is listed, and nothing else |
| ComputerManagers.WithDifficultyAppend | computer_manager.py:54 | the filter keeps list order: it distributes over concatenation |
| ComputerManagers.DifficultiesOccur | computer_manager.py:64-69 | a difficulty is a key of the grouping exactly when some listed computer has it |
| ComputerManagers.Bucket | computer_manager.py:64-69 | the loop's map has exactly the difficulties present as keys, each mapped to its computers in list order; its key order is duplicate-free and lists exactly the keys |
| ComputerManagers.BucketOne | computer_manager.py:65-69 | one iteration of that loop keeps that invariant for one more computer |
| ComputerManagers.BucketStep | computer_manager.py:65-69 | a new difficulty opens an empty group, then the computer joins its group, and the invariant holds again |
| ComputerManagers.SortedDifficulties | computer_manager.py:72 | sorting the duplicate-free keys gives the same keys in strictly ascending order |
| ComputerManagers.FirstOfDifficulty | computer_manager.py:64-69 | a difficulty that occurs has a non-empty group whose first computer has that difficulty |
| ComputerManagers.ConcatGroups | computer_manager.py:72-74 | concatenating the groups along duplicate-free difficulties gives, as a multiset, the computers of those difficulties |
| ComputerManagers.GroupsByDifficulty | computer_manager.py:56-74 | groups in ascending difficulty are non-empty, single-difficulty, in list order, and together a permutation of the list |
| ComputerManagers.ComputerManager.GroupByDifficulty | computer_manager.py:56-74 | the method's result: non-empty groups, each the filter of one difficulty, in strictly ascending difficulty, together a permutation of the list |
| Sorting.Sort | computer_manager.py:72 | the result is a permutation of the input |
| Sorting.SortIsSorted | computer_manager.py:72 | under a strict total order, the result is sorted |
| Sorting.SortDistinct | infinite_hash_table.py:197 | sorting distinct items gives the same items, each once, in strictly ascending order |
| InfiniteHashSpec.Hash | infinite_hash_table.py:30-33 | the slot is in [0, 26], and is 26 exactly when the key has no character at that level |
| InfiniteHashSpec.Get | infinite_hash_table.py:35-51 | `__getitem__` on the tree: the key's pair in its slot, a descent into a child, or KeyError (its meaning is `LeafIffGet`) |
| InfiniteHashSpec.Set | infinite_hash_table.py:54-78 | `__setitem__` on the tree: a free slot or the same key takes the pair, a clash nests a child, a child is set recursively (its meaning is `SetCorrect`) |
| InfiniteHashSpec.Delete | infinite_hash_table.py:81-119 | `__delitem__` on the tree, lifting a lone survivor into the parent (its meaning is `DeleteCorrect`) |
| InfiniteHashSpec.Len | infinite_hash_table.py:121-135 | `__len__`: the number of pairs held anywhere in the tree |
| InfiniteHashSpec.Location | infinite_hash_table.py:146-168 | `get_location`: the slot indices down to the key's pair, or KeyError (its meaning is `LocationCorrect`) |
| InfiniteHashSpec.SortKeys | infinite_hash_table.py:183-197 | `sort_keys`: the collected keys sorted in string order (its meaning is `SortKeysCorrect`) |
| InfiniteHashSpec.LeafIffGet | infinite_hash_table.py:35-51 | a lookup returns a value exactly when the tree holds that pair |
| InfiniteHashSpec.LeavesDistinct | infinite_hash_table.py:54-78 | no key is held twice in a well-formed tree |
| InfiniteHashSpec.InseparableIff | infinite_hash_table.py:30-33 | from a level both keys reach, `hash` never tells two keys apart exactly when they have the same length and agree modulo 26 at every position from there on |
| InfiniteHashSpec.SplitCorrect | infinite_hash_table.py:68-73 | the child built for a clash is well formed, holds exactly the two pairs, and answers each key with its value |
| InfiniteHashSpec.SplitIsTwoSets | infinite_hash_table.py:69-72 | that child is a fresh table given the resident pair and then the new one |
| InfiniteHashSpec.SetCorrect | infinite_hash_table.py:54-78 | after a set, the key reads back the value, every other key reads as before, the tree stays well formed, and the length grows by one exactly when the key was new |
| InfiniteHashSpec.SetCollision | infinite_hash_table.py:68-73 | a set landing on another key's pair turns that slot into a child one level down holding both pairs |
| InfiniteHashSpec.DeleteCorrect | infinite_hash_table.py:81-119 | a delete fails exactly when the key is absent; otherwise the key reads KeyError, every other key reads as before, the length drops by one, and the tree stays well formed, so no child is left with one pair |
| InfiniteHashSpec.DeleteAbsent | infinite_hash_table.py:87-96 | deleting an absent key raises KeyError |
| InfiniteHashSpec.DeleteFailsWithKeyError | infinite_hash_table.py:81-119 | the only error a delete raises is KeyError |
| InfiniteHashSpec.DeleteKeepsShape | infinite_hash_table.py:104-119 | after a delete with collapse, the tree is well formed at the same level |
| InfiniteHashSpec.LocationCorrect | infinite_hash_table.py:146-168 | the path exists exactly when the key is held; it is the key's hash at each level down, and it leads to the key's pair |
| InfiniteHashSpec.KeysFacts | infinite_hash_table.py:183-196 | the collected keys are as many as the pairs, distinct, and exactly the held keys |
| InfiniteHashSpec.SortKeysCorrect | infinite_hash_table.py:183-197 | `sort_keys` lists every held key once, in strictly ascending string order, and nothing else |
| InfiniteHashTables.InfiniteHashTable.constructor | infinite_hash_table.py:25-28 | a valid empty table at the given level with counter 0 |
| InfiniteHashTables.InfiniteHashTable.Get | infinite_hash_table.py:35-51 | the cell walk answers as the tree lookup |
| InfiniteHashTables.InfiniteHashTable.Contains | infinite_hash_table.py:170-181 | true exactly when the key is among the held keys |
| InfiniteHashTables.InfiniteHashTable.Len | infinite_hash_table.py:121-135 | the counting loop, descending into child tables, returns the number of pairs held |
| InfiniteHashTables.InfiniteHashTable.ActiveEntries | infinite_hash_table.py:104-113 | the loop collects the pairs cell by cell, child tables expanded in place |
| InfiniteHashTables.InfiniteHashTable.Traverse | infinite_hash_table.py:188-196 | the loop collects the key of every pair, cell by cell, child tables expanded |
| InfiniteHashTables.InfiniteHashTable.SortKeys | infinite_hash_table.py:183-197 | every held key once, in strictly ascending string order, and nothing else |
| InfiniteHashTables.InfiniteHashTable.SetItem | infinite_hash_table.py:54-78 | the table stays valid and stands for the tree set; the counter grows by one unless the key's own cell held that key |
| InfiniteHashTables.InfiniteHashTable.PutPair | infinite_hash_table.py:60-66 | writing the pair into a free cell or over the same key is the tree set, counter unchanged |
| InfiniteHashTables.InfiniteHashTable.NestCollision | infinite_hash_table.py:68-74 | replacing a clashing pair by a new child table holding both pairs is the tree set |
| InfiniteHashTables.InfiniteHashTable.MakeSplit | infinite_hash_table.py:69-72 | a fresh valid table given the two pairs in turn stands for the clash's child |
| InfiniteHashTables.InfiniteHashTable.InstallChild | infinite_hash_table.py:73 | putting a separate child table in a cell keeps the table valid, the tree updated at that slot |
| InfiniteHashTables.InfiniteHashTable.SetInChild | infinite_hash_table.py:76-78 | setting in the child table of the key's cell is the tree set; the other children stay valid |
| InfiniteHashTables.InfiniteHashTable.DelItem | infinite_hash_table.py:81-119 | KeyError with nothing changed when the key is absent; otherwise the tree delete; the counter drops by one exactly when the key's own cell held the pair or receives a lifted survivor |
| InfiniteHashTables.InfiniteHashTable.ClearPair | infinite_hash_table.py:92-94 | freeing the key's own cell is the tree delete, counter down by one |
| InfiniteHashTables.InfiniteHashTable.DelInChild | infinite_hash_table.py:97-119 | deleting in the child and lifting a single survivor is the tree delete |
| InfiniteHashTables.InfiniteHashTable.DelBelow | infinite_hash_table.py:98-102 | the child's delete fails exactly as the tree delete does; on success the slot holds the child's new tree |
| InfiniteHashTables.InfiniteHashTable.LiftPair | infinite_hash_table.py:117-119 | the single surviving pair takes the child table's cell, counter down by one |
| InfiniteHashTables.InfiniteHashTable.GetLocation | infinite_hash_table.py:146-168 | the descent loop returns exactly the location of the tree, or KeyError |
| DoubleKeySpec.Hash1 | double_key_table.py:46-53 | the start of the top-level probe is an index inside the top-level array |
| DoubleKeySpec.Hash2 | double_key_table.py:55-63 | the start of the nested probe is an index inside the nested array |
| DoubleKeySpec.Probe | double_key_table.py:80-82 | where a probe stops, the slot is free or holds the key |
| DoubleKeySpec.Init | double_key_table.py:31-43 | a well-shaped empty table at the first size, counter 0 |
| DoubleKeySpec.Put | double_key_table.py:211-222 | the insert keeps the shape and the counter invariant, adds at most one pair, and `count` rises by one exactly when the top-level probe found no slot of `key1` |
| DoubleKeySpec.Advance | double_key_table.py:256-265 | the next size index, the schedule extended by last size plus one when exhausted, an empty array of that size, counter 0 |
| DoubleKeySpec.Set | double_key_table.py:211-226 | `__setitem__` with its resize: the result is below half load, keeps shape and counter, adds at most one pair |
| DoubleKeySpec.SetItem | double_key_table.py:211-226 | the same from outside the table, with the pairs held and the new one as bound; read-back and the stored triples are stated by `DoubleKeyClean.SetItemThenGetClean` |
| DoubleKeySpec.Rehash | double_key_table.py:247-274 | a resize ends below half load at a later size, keeping shape and counter and not adding pairs |
| DoubleKeySpec.ReinsertAll | double_key_table.py:267-274 | setting the old pairs one by one keeps shape and counter, and adds at most one pair per set |
| DoubleKeySpec.CountBelowPairs | double_key_table.py:219-220 | under the counter invariant, `count` is at most the number of pairs |
| DoubleKeySpec.PutStops | double_key_table.py:80-110 | an insert returns exactly when both probes stop |
| DoubleKeySpec.Get | double_key_table.py:201-209 | `__getitem__`: both probes; KeyError where either stops at a free slot, otherwise the stored value (its meaning is `DoubleKeyProps.GetSound`, `GetAbsent` and `DoubleKeyClean.CleanGet`) |
| DoubleKeySpec.Delete | double_key_table.py:228-245 | `__delitem__`: KeyError as `__getitem__`, otherwise the nested slot freed and the top-level slot freed when its nested array is left empty (its meaning is `DoubleKeyProps.DeleteCorrect`) |
| DoubleKeySpec.Keys | double_key_table.py:120-174 | `keys()` and `keys(k)`: the first keys in slot order, or the second keys under `k`, KeyError when `k` is not held (its meaning is `DoubleKeyProps.KeysAll`, `KeysOf`) |
| DoubleKeySpec.Values | double_key_table.py:140-186 | `values()` and `values(k)`: the values in slot order, or those under `k` (its meaning is `DoubleKeyProps.ValuesAll`) |
| DoubleKeySpec.Contains | double_key_table.py:188-199 | true exactly when `__getitem__` returns rather than raising |
| DoubleKeyProps.ProbeLoops | double_key_table.py:80-82 | a probe runs forever exactly when every slot holds another key |
| DoubleKeyProps.ProbeStable | double_key_table.py:80-82 | changing slots other than where a probe stops, and keeping that one free or the key's, leaves the probe's answer alone |
| DoubleKeyProps.TopProbeStops | double_key_table.py:80-82 | below half load the top-level probe always stops |
| DoubleKeyProps.GetSound | double_key_table.py:201-209 | a lookup only returns a value held under both keys |
| DoubleKeyProps.GetAbsent | double_key_table.py:201-209 | a lookup of a pair not held raises KeyError |
| DoubleKeyProps.PutThenGet | double_key_table.py:211-222 | right after the insert, the pair reads back |
| DoubleKeyProps.SetThenGet | double_key_table.py:201-226 | a set that does not resize reads back |
| DoubleKeyProps.DeleteCorrect | double_key_table.py:228-245 | a delete raises KeyError exactly when a lookup does; otherwise the pair no longer reads back, one pair fewer, invariants kept, `count` drops exactly when `key1` is no longer held, the size schedule is unchanged, and exactly the triple the lookup read is removed: every other triple stays stored |
| DoubleKeyProps.PutFrame | double_key_table.py:211-222 | the insert stores the new triple in place of the one `__getitem__` read for the same two keys, if any; every other stored triple stays, as a multiset |
| DoubleKeyProps.DeleteFrame | double_key_table.py:228-245 | a delete that succeeds removes exactly the triple `__getitem__` read, and keeps every other stored triple, as a multiset |
| DoubleKeyProps.KeysAll | double_key_table.py:120-131 | `keys()` lists `count` first keys, exactly those held in some top-level slot |
| DoubleKeyProps.KeysOf | double_key_table.py:132-138 | `keys(k)` raises KeyError exactly when `k` is not held, and otherwise lists the second keys of its nested array |
| DoubleKeyProps.ValuesAll | double_key_table.py:140-154 | the values `values()` collects are the values of the pairs, one per pair, in the slot order in which a resize re-inserts them |
| DoubleKeyTables.FindSlot | double_key_table.py:80-82 | the probe loop stops where the probe function does |
| DoubleKeyTables.AllFree | double_key_table.py:242 | true exactly when every nested slot is free |
| DoubleKeyTables.DoubleKeyTable.constructor | double_key_table.py:31-43 | the table is the spec's empty table for the given or the default schedule, nested size from the first internal size |
| DoubleKeyTables.DoubleKeyTable.TableSize | double_key_table.py:276-281 | the array's length, the current size of the schedule |
| DoubleKeyTables.DoubleKeyTable.Len | double_key_table.py:283-287 | the counter, equal to the taken top-level slots and below half the size |
| DoubleKeyTables.DoubleKeyTable.ProbedPut | double_key_table.py:84-90 | where an insert probe stops is where the spec insert writes |
| DoubleKeyTables.DoubleKeyTable.LinearProbe | double_key_table.py:65-117 | an insert gives a free slot a new nested array, a lookup changes nothing; the answer is KeyError or the positions, as the spec probe says |
| DoubleKeyTables.DoubleKeyTable.GetItem | double_key_table.py:201-209 | returns what the spec lookup returns |
| DoubleKeyTables.DoubleKeyTable.Contains | double_key_table.py:188-199 | returns what the spec membership test returns |
| DoubleKeyTables.DoubleKeyTable.Write | double_key_table.py:216-222 | the probe, counter update and nested write are the spec insert |
| DoubleKeyTables.DoubleKeyTable.SetWithin | double_key_table.py:211-226 | the set with its resize check is the spec set |
| DoubleKeyTables.DoubleKeyTable.SetItem | double_key_table.py:211-226 | the same from outside the table |
| DoubleKeyTables.DoubleKeyTable.Rehash | double_key_table.py:247-274 | the resize is the spec resize |
| DoubleKeyTables.DoubleKeyTable.Grow | double_key_table.py:256-265 | the first half of the resize is `Advance`, and returns the old array |
| DoubleKeyTables.DoubleKeyTable.ReinsertCells | double_key_table.py:267-274 | the outer loop sets every old pair again, in top-level slot order |
| DoubleKeyTables.DoubleKeyTable.ReinsertNested | double_key_table.py:271-274 | the inner loop sets one nested array's pairs again, in slot order |
| DoubleKeyTables.DoubleKeyTable.ReinsertAt | double_key_table.py:272-274 | one taken nested slot is set again as the next old pair |
| DoubleKeyTables.DoubleKeyTable.DelItem | double_key_table.py:228-245 | KeyError with nothing changed when the pair is absent; otherwise the spec delete |
| DoubleKeyTables.DoubleKeyTable.Keys | double_key_table.py:120-173 | the listing loops return the spec `keys` |
| DoubleKeyTables.DoubleKeyTable.Values | double_key_table.py:140-186 | the listing loops return the spec `values` |
| DoubleKeyTables.SubValuesOf | double_key_table.py:152-154 | the values of one nested array, in slot order |
| DoubleKeyClean.ProbeMoreBlocked | double_key_table.py:80-82 | a probe that stopped at a slot still stops there when every slot it passed still holds another key and the slot itself is still free or the key's |
| DoubleKeyClean.InitClean | double_key_table.py:31-43 | a new table is clean: every stored key sits where its own probe stops, at both levels |
| DoubleKeyClean.SubPutClean | double_key_table.py:216-222 | writing a pair where the nested probe stopped keeps the nested array clean |
| DoubleKeyClean.PutClean | double_key_table.py:211-222 | the insert keeps a clean table clean |
| DoubleKeyClean.CleanGet | double_key_table.py:201-209 | on a clean table, every stored triple reads back through `__getitem__` |
| DoubleKeyClean.CleanDistinct | double_key_table.py:65-118 | a clean table holds each first key in one top-level slot and each second key once per nested array |
| DoubleKeyClean.FlattenUnique | double_key_table.py:65-118 | when first keys differ across top-level slots and second keys within each nested array, the stored triples never repeat a key pair |
| DoubleKeyClean.CountFirsts | double_key_table.py:219-220 | with each first key in one slot and no empty nested array, `count` is the number of distinct first keys held |
| DoubleKeyClean.SetClean | double_key_table.py:211-226 | a set on a clean table, resize included, leaves it clean, stores the new triple in place of the one `__getitem__` read, and keeps every other triple |
| DoubleKeyClean.RehashClean | double_key_table.py:247-274 | resizing a clean table gives a clean table with exactly the same triples and the same `count` |
| DoubleKeyClean.ReinsertClean | double_key_table.py:267-274 | setting triples with distinct key pairs one by one into the new empty array gives a clean table holding exactly those triples |
| DoubleKeyClean.SetThenGetClean | double_key_table.py:201-226 | on a clean table a set reads back even when it resizes, and the table stays clean with every other triple kept |
| DoubleKeyClean.SetItemThenGetClean | double_key_table.py:201-226 | the same for `t[key1, key2] = value` from outside the table: on a clean table it reads back, even through a resize, the table stays clean, and every other triple stays stored |
| DoubleKeyStale.StaleValueAfterResize | double_key_table.py:228-274 | from a new table: set `("F","x")=1`, set `("A","x")=2`, delete `("F","x")`, set `("C","x")=0`, set `("A","x")=3`; afterwards `("A","x")` reads 2 |
| DoubleKeyStale.ResizeLosesPair | double_key_table.py:247-274 | in that run the resize drops the pair `("A","x",3)` and takes `count` from 3 to 2 |
| DoubleKeyStale.DeleteHidesPair | double_key_table.py:228-245 | right after the delete, `("A","x")` raises KeyError although its triple is still stored |
| DoubleKeyStale.CleanBeforeDelete | double_key_table.py:211-226 | the table the two sets build is clean |
| DoubleKeyStale.NotCleanAfterDelete | double_key_table.py:228-245 | the delete frees slot 0 in front of `"A"`, so the table is no longer clean |

## Left out

- Nested tables are plain fixed-capacity slot arrays, kept as sequence values in the top-level array cells. The external `LinearProbeTable` (data_structures/hash_table.py is not part of this model) may resize itself; that is not modelled. Its emptiness test is "every slot free". This agrees with its own counter here, because a nested table left all free is discarded at once.
- The nested table's own `__setitem__` probes from the same hash as `_linear_probe`, so it writes where that probe stopped. The model writes there directly.
- `FullError` is never raised by the source. A probe that visits every slot without stopping runs forever, and the model says `Diverges`. The class methods require that their spec does not diverge.
- DoubleKeyProps.SetThenGet: only for a set that does not resize. On a clean table `DoubleKeyClean.SetThenGetClean` covers a set that resizes. After a delete the table need not be clean, and `DoubleKeyStale.StaleValueAfterResize` shows a set that resizes and reads back an older value.
- DoubleKeySpec.Rehash: its own contract does not promise to keep the pairs or `count`, because after a delete it can lose both (`DoubleKeyStale.ResizeLosesPair`). `DoubleKeyClean.RehashClean` proves both for a clean table.
- DoubleKeySpec.Set: takes a ghost bound on the pairs in play, which is used only to show that nested resizing stops. Which triples stay stored is proved for a clean table (`DoubleKeyClean.SetClean`), and for any table when the set does not resize (`DoubleKeyProps.PutFrame` with `DoubleKeyProps.SetThenGet`); it does not hold in general after a delete.
- DoubleKeySpec.SetItem: its own contract gives the shape and the load bound only. Read-back and which triples stay stored are proved for a clean table (`DoubleKeyClean.SetItemThenGetClean`); after a delete a set that resizes can read back an older value and lose a triple (`DoubleKeyStale.StaleValueAfterResize`, `DoubleKeyStale.ResizeLosesPair`).
- DoubleKeySpec.Put: which triples stay stored is stated by `DoubleKeyProps.PutFrame` rather than by its own contract.
- `_rehash` appends to the class-level `TABLE_SIZES` list, or to the caller's list, which `internal_sizes` may alias. The model keeps the schedule as a sequence owned by the table and does not model sharing between instances.
- The top-level positions `position1` computed and never used inside `_rehash`, and the redundant `% table_size` after `hash1`, change nothing and are not modelled separately.
- `iter_keys` and `iter_values` are generators, consumed whole by `keys` and `values`. The model builds the lists directly, so laziness is not modelled.
- Sizes in a schedule must be positive, as `ArrayR` requires. The constructor's precondition says so.
- Keys must be non-empty strings: both hashes index a character of the key.
- InfiniteHashTables.InfiniteHashTable.SetItem: requires that the set terminates (`SetTerminates`), and so excludes setting a key that clashes with a held key of the same length whose characters agree with it modulo 26 at every position (`InfiniteHashSpec.InseparableIff`). On that input the source's `__setitem__` nests one call per level until Python's recursion limit raises `RecursionError`; every write of the set comes after its recursive call, so the table is left unchanged.
- The infinite hash table's `count` field is modelled as the source updates it. It is not the number of pairs (an overwrite inside a child still adds one), so `Len` counts the pairs instead, as `__len__` does.
- The `isinstance` check at infinite_hash_table.py:99 can never fail in a valid table, and is not modelled.
- The `current` parameter of `sort_keys` is never used, and is not modelled.
- `RiskAverseVirus` and `FancyVirus` (virus.py:62-199) use floating-point arithmetic and `print`, and are not modelled.
- `Route.follow_path`, `Route.add_all_computers` and both tables' `__str__` are unimplemented in the source. The class-level `print` at double_key_table.py:295 is import-time output.
- `risk_factor` is a float that is only ever compared; it is a `real` here, and NaN is not modelled.
- `mergesort` (algorithms/mergesort.py is not part of this model) is replaced by an insertion sort with the same contract: a sorted permutation.
- double_key_table0.py and route0.py are earlier drafts superseded by the modelled files. computer_organiser.py wraps a binary search whose source is not part of this model.
