# k-nearest-neighbour face classifier, modelled in Dafny

This project models the classification engine of `KNNClassifier`, a small Java
class that labels an unknown face sample by majority vote among its `k`
nearest known samples. The model covers three parts:

- **k-nearest selection** (`findKClosest`). The working list is seeded with the
  first `k` samples. For each later sample the list is sorted by distance, and
  its last entry is replaced when the sample is strictly closer.
- **plurality vote** (`voteOnClassification`). Labels are tallied into a hash
  map, then the entries are scanned for a strictly larger count.
- **held-out swap** (`setUnknown`, `pickUnknown`), used to self-test the
  classifier. The model also covers `addSample`, `clearSamples`, the
  constructor and `classifyUnknownSample`.

Modelling choices:

- A `Face` is `Face(id, classification)`. Value equality stands for Java
  reference identity, so distinct objects carry distinct ids.
- The distance each sample stores for the current query is a function
  `Distance = Face -> real`. Only comparisons of distances appear in the code.
- `Collections.sort` is modelled as a stable insertion sort by distance. This
  assumes that `Face.compareTo` compares the stored distances.
- The object's fields are an immutable `Classifier` value. Each public method
  is a function from the old state to the new one. `null` is `None`.
- Exceptions are `Err` results. `IndexOutOfBounds` comes from `List.get`;
  `IllegalArgument` comes from `Random.nextInt(0)`.
- The hash map's enumeration order is a parameter `order`, a list holding
  every label. The random index of `pickUnknown` is a parameter `idx`.

Files: `faces.dfy` (vocabulary), `sorting.dfy`, `selection.dfy`, `voting.dfy`,
`classifier.dfy` (state and swap), `scenarios.dfy` (concrete instances).

Behaviour of the code worth knowing:

- A `setUnknown` miss leaves the old held-out sample both appended to the list
  and still in the slot, so it is held twice (`SetUnknown`).
- `clearSamples` empties only the list. The last selection stays in place.
- A `k` larger than the pool raises `IndexOutOfBounds`; selection never
  returns fewer than `k` samples. The selection it returns is not always
  sorted (`SelectionNotSorted`).
- On an empty pool, `k = 0` yields the label `""`, and any other `k` raises
  `IndexOutOfBounds`.
- A tie in the vote goes to whichever label the hash map yields first
  (`TieFollowsTableOrder`).
- A sample that only ties the farthest entry of the working list never
  replaces it, because the comparison is strict (`KClosestKeepsSeedOnTies`).

## Model

| member | source | states |
|---|---|---|
| `KnnClassifier.Init` | src/KNNClassifier.java:83-88 | the new object has the given `k`, holds no sample, and has no selection |
| `KnnClassifier.AddSample` | src/KNNClassifier.java:95-97 | the sample is appended at the end of the list; `k`, the held-out sample and the selection are unchanged; the held bag grows by exactly that sample |
| `KnnClassifier.ClearSamples` | src/KNNClassifier.java:103-105 | the list becomes empty; `k`, the held-out sample and the last selection are unchanged, so only the held-out sample is still held |
| `KnnClassifier.Pool` | src/KNNClassifier.java:62-63 | re-adding the held-out sample makes the list hold exactly the bag of everything the object held |
| `KnnClassifier.LastIndexOf` | src/KNNClassifier.java:66-70 | the search yields -1 exactly when the sample is absent; otherwise it yields a position holding the sample with no later copy |
| `KnnClassifier.ScanIndex` | src/KNNClassifier.java:67-70 | the loop without a break leaves the last matching index, given what the indices already scanned established |
| `KnnClassifier.RemoveAt` | src/KNNClassifier.java:73 | removal by index drops exactly that one element from the bag and shifts the later elements down by one |
| `KnnClassifier.SetUnknown` | src/KNNClassifier.java:57-76 | on a hit the target becomes held out, its last copy leaves the re-filled list, and the bag of held samples is preserved; on a miss the list is the re-filled one and the slot is unchanged, so an already held-out sample ends up held twice; the selection is discarded in both cases |
| `KnnClassifier.OnlyCopyHeldOut` | src/KNNClassifier.java:23 | when no sample is held twice, the held-out sample is not in the list |
| `KnnClassifier.SetUnknownHeldOutNotInList` | src/KNNClassifier.java:62-75 | when no sample is held twice, a hit leaves the held-out sample out of the list and keeps every sample held once |
| `KnnClassifier.PickUnknown` | src/KNNClassifier.java:183-197 | an empty pool fails with `IllegalArgument`, raised by `nextInt(0)`, and the pool is empty exactly then; otherwise the drawn element becomes held out, its position leaves the re-filled list, the held bag is preserved, and `k` and the selection are unchanged |
| `KnnClassifier.PickUnknownHeldOutNotInList` | src/KNNClassifier.java:188-196 | when no sample is held twice, the picked sample is not left in the list and every sample stays held once |
| `Sorting.Insert` | src/KNNClassifier.java:128 | inserting into a sorted list keeps it sorted and adds exactly the one sample |
| `Sorting.SortByDistance` | src/KNNClassifier.java:128 | the sort is a permutation of its input and ascending by distance |
| `Selection.Replace` | src/KNNClassifier.java:129-131 | a candidate no closer than the last entry of the sorted list leaves the list as it is; a strictly closer one takes the last place and the other entries stay in order |
| `Selection.ReplaceKeepsClosest` | src/KNNClassifier.java:129-132 | a replacement on a sorted list drops exactly one of the list plus the candidate; the dropped sample is no closer than anything kept, and earlier rejects stay no closer |
| `Selection.SortedStepInvariant` | src/KNNClassifier.java:127-133 | one iteration of the second loop keeps "kept plus rejected is the prefix scanned" and "no reject is closer than anything kept" |
| `Selection.ScanFrom` | src/KNNClassifier.java:127-133 | from any state satisfying the loop invariant, the loop ends with a list of the same size that is a sub-bag of the pool, and no left-out sample is closer than any chosen one |
| `Selection.ScanFromUnfold` | src/KNNClassifier.java:127-133 | the loop from index `i` is one sort-and-replace step followed by the loop from `i + 1` |
| `Selection.KClosest` | src/KNNClassifier.java:122-134 | for `1 <= k <= |samples|` the selection has exactly `k` elements, is a sub-bag of the samples, and no sample left out is strictly closer than any chosen one |
| `Selection.ScanFromKeepsTiedList` | src/KNNClassifier.java:127-133 | from any loop state, if no remaining sample is strictly closer than any entry of the working list, the loop ends with the same bag |
| `Selection.KClosestKeepsSeedOnTies` | src/KNNClassifier.java:124-133 | if no later sample is strictly closer than any of the first `k`, ties included, the selection is exactly the first `k` samples as a bag: the strict comparison never swaps in a tie |
| `Selection.FindKClosest` | src/KNNClassifier.java:122-134 | the selection succeeds exactly when `1 <= k <= |samples|` or when `k` is 0 and there are no samples; otherwise it raises `IndexOutOfBounds`; on success it has the properties of `KClosest` |
| `Selection.FindKClosestLoop` | src/KNNClassifier.java:122-134 | the two loops as written, with each exception raised where the Java `get` calls raise it, compute exactly the functional selection |
| `Selection.ReplaceLoop` | src/KNNClassifier.java:127-133 | the second loop, started on the first `k` samples, ends with the functional selection |
| `Voting.CountPositive` | src/KNNClassifier.java:148-153 | a label has a positive count exactly when it occurs in the set |
| `Voting.CountPairBound` | src/KNNClassifier.java:146-154 | the counts of two different labels sum to at most the size of the set |
| `Voting.Tally` | src/KNNClassifier.java:145-154 | the vote table's keys are exactly the labels occurring in the set, and each entry is that label's number of occurrences |
| `Voting.Scan` | src/KNNClassifier.java:156-163 | the scan ends on the running winner or on a table entry it visited, and no visited entry has a larger count; if the count never rises, the winner is unchanged |
| `Voting.ScanKeepsEarliest` | src/KNNClassifier.java:158-163 | because only a strictly larger count wins, every entry tied with the final winner comes no earlier than it in the table's order |
| `Voting.Vote` | src/KNNClassifier.java:144-166 | an empty set yields `""`; otherwise the result is a label that occurs in the set, its count is at least every label's count, and every label with the same count comes no earlier in the table's order |
| `Voting.MajorityWins` | src/KNNClassifier.java:144-166 | a label held by more than half the set is the result, whatever the table's order |
| `KnnClassifier.ClassifyUnknownSample` | src/KNNClassifier.java:176-181 | classification fails with `IndexOutOfBounds` exactly when selection does; on success the list, the held-out sample and `k` are unchanged, the stored selection has the selection properties, and the label is a maximal-count label of it |
| `Scenarios.SwapLastFor` | src/KNNClassifier.java:123-132 | with `k = 2`, for samples A, B, C where A is no farther than B and C is strictly closer than B, the selection is [A, C] |
| `Scenarios.SelectionNotSorted` | src/KNNClassifier.java:127-133 | with distances 5, 6 and 1 and `k = 2`, the selection is [5, 1]: the last replacement happens after the last sort, so the result is not sorted |
| `Scenarios.TieFollowsTableOrder` | src/KNNClassifier.java:156-163 | with one "cat" and one "dog" in the selection, the winner is whichever label the table yields first |
| `Scenarios.SetUnknownTakesLastCopy` | src/KNNClassifier.java:66-73 | with the same object listed at positions 0 and 2, `setUnknown` removes position 2 |

## Left out

- `main`: loading faces from the `faces` directory and printing to the console are I/O.
- `computeDistanceFromUnknownToSamples` and `Face.calculateDistance`: the `Face` class is not part of this model. The distances they store are the `dist` parameter.
- `Collections.sort`: modelled as a stable ascending sort by distance. This is an assumption about `Face.compareTo`, which is not part of this model.
- Floating-point distances: distances are `real`, so NaN and rounding are not modelled. The code only compares distances.
- `java.util.Random`: the drawn index is the parameter `idx`.
- `HashMap` enumeration order: the order is the parameter `order`, and the results hold for every order.
- Getters and setters (`getK`, `setK`, `getSamples`, `setSamples`, `getkClosestSet`, `setkClosestSet`, `getUnknown`): they read or assign one field. The aliasing that `setSamples` and `setkClosestSet` create is not modelled.
- `KnnClassifier.ClassifyUnknownSample`: when selection throws, the Java object keeps the partly built `kClosestSet`. The model returns only the error.
- `Sorting.SortByDistance`: stability is built into the insertion order but is not stated as a contract. Results depend on it: when two samples are equally far and tie for the last place of the working list, the stable order decides which one is compared and dropped (`SwapLastFor` with equal distances for A and B is an instance).
