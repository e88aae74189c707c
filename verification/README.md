# SearchSplit: exhaustive split selection, modelled in Dafny

This project models the split-selection search of the eSalsa-Tools load
balancer class `SearchSplit`, and proves properties of it. `SearchSplit`
splits a set of work into roughly rectangular subsets. To do so it tries
every ordering of the work targets and every one of four strip
orientations, and keeps the split with the least communication. A
two-level driver, `split`, splits the set once and then splits every
resulting subset again, collecting the leaves.

The project is organised in six modules:

- `Outcomes` (`outcomes.dfy`): `Option` and `Result`.
- `SeqFacts` (`seqfacts.dfy`): sums, factorials, duplicate-freedom and
  gathering by indices, with their lemmas.
- `Selection` (`selection.dfy`): the two arg-min loops as folds over the
  candidate costs. One is the strict-`<` scan of the four orientations. The
  other is the scan against the `Integer.MAX_VALUE` sentinel.
- `Permutations` (`permutations.dfy`): `swap`, `getPermutation` and
  `getIndexPermutations`. The working array is reassigned inside the loop,
  so swaps accumulate from one iteration to the next. `SwapLoop` carries
  that working array from iteration to iteration.
- `Search` (`search.dfy`):
  - the constructor guard;
  - `getCommunication`;
  - `findBestSplitFourWays`;
  - the reordering of the targets;
  - `findBestSplit`.
- `Splitting` (`split.dfy`): the `split` driver. It is written once
  against any search function (`SplitWith`), and `Split` runs it with
  `findBestSplit`.

The classes the search calls into are parameters, the fields of
`Search.Collaborators`:

- `Set.size()`;
- `Set.getCommunication(neighbours)`;
- `splitHorizontal`, `splitVertical` and both `splitWork` overloads of the
  parent class `RoughlyRectangularSplit`.

The set type is the type parameter `S`. Some properties need something of
these collaborators, and then say so with a ghost predicate as a
hypothesis:

- `SplittersKeepCount`: one set per target;
- `ApportionKeepsCount`: one target per requested slice;
- `SplittersConserveWork`: asked for non-negative targets that add up to
  the work of the set (`Apportions`), a splitter returns sets that hold
  exactly that work;
- `ApportionConservesWork`: both `splitWork` overloads hand out
  non-negative targets that add up to the work they are given, when asked
  for at least one target.

`Search.HypothesesSatisfiable` shows that a single set of collaborators
meets all four hypotheses with a set of non-zero size, so none of them
forces every set to be empty.

The Java exceptions become values:

- `IllegalArgumentException` from the constructor is a `Failure`.
- `findBestSplit` can return a `Solution` with `null` fields. It is
  `Option.None`, and the `NullPointerException` that `split` then raises
  is `Failed(NullSolution)`.
- An out-of-range `subSlices[permutation[i]]` is
  `Failed(IndexOutOfBounds)`.

`result.add` mutates the caller's collection, so leaves appended before an
exception stay there. `Split` therefore returns the collection's contents
together with the outcome.

The Javadoc of `split` says subset `i` is split into `subSlices[i]` parts.
The code uses `subSlices[solution.permutation[i]]`, and the model follows
the code.

## Model

| member | source | states |
|---|---|---|
| Permutations.Swap | src/nl/esciencecenter/esalsa/loadbalancer/SearchSplit.java:196-201 | the copy has the same length, and positions `i` and `j` hold each other's former entries |
| Permutations.SwapKeepsOthers | src/nl/esciencecenter/esalsa/loadbalancer/SearchSplit.java:196-201 | every position other than `i` and `j` is unchanged |
| Permutations.SwapKeepsMultiset | src/nl/esciencecenter/esalsa/loadbalancer/SearchSplit.java:196-201 | a swap keeps the multiset of entries |
| Permutations.SwapKeepsDistinct | src/nl/esciencecenter/esalsa/loadbalancer/SearchSplit.java:196-201 | a swap of a duplicate-free array is duplicate-free |
| Permutations.Permutations | src/nl/esciencecenter/esalsa/loadbalancer/SearchSplit.java:204-220 | `getPermutation` emits at least one array, and the first one is its input unchanged |
| Permutations.PermutationsShape | src/nl/esciencecenter/esalsa/loadbalancer/SearchSplit.java:204-220 | every emitted array keeps the first `start` entries and the multiset of the input, and is duplicate-free when the input is; at every depth the working array is a rearrangement of the original |
| Permutations.PermutationsCount | src/nl/esciencecenter/esalsa/loadbalancer/SearchSplit.java:204-220 | on duplicate-free input exactly `(len - start)!` arrays are emitted |
| Permutations.PermutationsNoDup | src/nl/esciencecenter/esalsa/loadbalancer/SearchSplit.java:204-220 | on duplicate-free input no array is emitted twice |
| Permutations.PermutationsComplete | src/nl/esciencecenter/esalsa/loadbalancer/SearchSplit.java:204-220 | on duplicate-free input, every rearrangement keeping the first `start` entries is emitted |
| Permutations.GuardHolds | src/nl/esciencecenter/esalsa/loadbalancer/SearchSplit.java:214-218 | on duplicate-free input the guard `input[start] != input[i]` holds for the working array of every iteration |
| Permutations.SwapRotated | src/nl/esciencecenter/esalsa/loadbalancer/SearchSplit.java:214-217 | each accumulated swap rotates one more entry of the working array to position `start` |
| Permutations.SwapLoopBlocks | src/nl/esciencecenter/esalsa/loadbalancer/SearchSplit.java:214-219 | on duplicate-free input the loop emits, in turn, the orderings of the input rotated by 1, 2, … at position `start` |
| Permutations.PermutationsOrder | src/nl/esciencecenter/esalsa/loadbalancer/SearchSplit.java:204-220 | generation order: the output is the blocks for `input[start]`, `input[start+1]`, … at position `start`, in that order |
| Permutations.IndexPermutations | src/nl/esciencecenter/esalsa/loadbalancer/SearchSplit.java:222-234 | `len!` arrays, the identity first, pairwise distinct; an array is emitted iff it is a permutation of `0..len-1` (for `len = 0`, only `[]`) |
| Selection.ScanMin | src/nl/esciencecenter/esalsa/loadbalancer/SearchSplit.java:95-114 | the strict-`<` scan returns the first position of a minimum cost |
| Selection.SentinelScan | src/nl/esciencecenter/esalsa/loadbalancer/SearchSplit.java:128-161 | the sentinel scan finds nothing iff no cost is below `Integer.MAX_VALUE`; otherwise it returns the first position of a minimum cost, and that cost is below the sentinel |
| Selection.FirstMinUnique | src/nl/esciencecenter/esalsa/loadbalancer/SearchSplit.java:110-113 | the first-minimum choice the strict `<` makes is unique |
| Search.NewSearchSplit | src/nl/esciencecenter/esalsa/loadbalancer/SearchSplit.java:62-71 | construction fails iff `set.size() < subsets`, the failure is `IllegalArgument`, and a success keeps the set and the part count |
| Search.GetCommunication | src/nl/esciencecenter/esalsa/loadbalancer/SearchSplit.java:73-82 | the loop returns the sum of the sets' own communication costs |
| Search.CommunicationNonNegative | src/nl/esciencecenter/esalsa/loadbalancer/SearchSplit.java:73-82 | the total is non-negative when each set's cost is |
| Search.FourWays | src/nl/esciencecenter/esalsa/loadbalancer/SearchSplit.java:84-121 | the result is one of the four candidates, its cost is at most each candidate's, and every candidate tried before it costs strictly more |
| Search.ReorderPreservesWork | src/nl/esciencecenter/esalsa/loadbalancer/SearchSplit.java:139-143 | the targets rearranged by a permutation keep their length, multiset and sum |
| Search.BestSplit | src/nl/esciencecenter/esalsa/loadbalancer/SearchSplit.java:124-167 | no solution iff every ordering's cost is at least `Integer.MAX_VALUE`; otherwise the solution is the four-way result of the first generated ordering of least cost, paired with that ordering |
| Search.BestSplitOptimal | src/nl/esciencecenter/esalsa/loadbalancer/SearchSplit.java:124-167 | the solution costs no more than any orientation of any ordering of the targets |
| Search.BestSplitPermutation | src/nl/esciencecenter/esalsa/loadbalancer/SearchSplit.java:124-167 | the solution's permutation is a permutation of `0..len-1` |
| Search.BestSplitKeepsCount | src/nl/esciencecenter/esalsa/loadbalancer/SearchSplit.java:124-167 | with count-keeping splitters the solution has one set per target |
| Search.BestSplitConservesWork | src/nl/esciencecenter/esalsa/loadbalancer/SearchSplit.java:124-167 | with work-conserving splitters, a solution for non-negative targets that add up to the set's work holds exactly that work: the reordering keeps the sum of the targets |
| Search.FourWaysKeepsCount | src/nl/esciencecenter/esalsa/loadbalancer/SearchSplit.java:84-121 | with count-keeping splitters the four-way choice has one set per target |
| Search.FourWaysConservesWork | src/nl/esciencecenter/esalsa/loadbalancer/SearchSplit.java:84-121 | with work-conserving splitters, the four-way choice for non-negative targets that add up to the set's work holds exactly that work |
| Splitting.SplitSubset | src/nl/esciencecenter/esalsa/loadbalancer/SearchSplit.java:263-269 | one subset: it succeeds iff its permutation entry indexes `subSlices` and its search finds a solution; then its leaves are appended in order, and otherwise nothing is appended and the error is reported |
| Splitting.SplitSubsets | src/nl/esciencecenter/esalsa/loadbalancer/SearchSplit.java:257-270 | the subsets are processed in order; the collection grows by exactly their leaves, subset by subset; it completes iff every subset succeeds, and otherwise stops at the first failing subset |
| Splitting.SplitWith | src/nl/esciencecenter/esalsa/loadbalancer/SearchSplit.java:243-271 | with the search as a parameter: no top-level solution means nothing is appended and the result is `NullSolution`; otherwise the collection is `result` followed by the leaves of the subsets processed, in order; on completion it grows by `sum(subSlices)` leaves and their work is the set's work, provided the search keeps the count and permutes the target indices (for the count), or conserves work and every `subSlices` entry is positive (for the work) |
| Splitting.Split | src/nl/esciencecenter/esalsa/loadbalancer/SearchSplit.java:243-271 | the same with `findBestSplit` as the search, the count and work facts following from the splitters' and `splitWork`'s own hypotheses |
| Splitting.FindBestSplitPermutes | src/nl/esciencecenter/esalsa/loadbalancer/SearchSplit.java:124-167 | every solution of `findBestSplit` carries a permutation of the target indices |
| Splitting.FindBestSplitKeepsCount | src/nl/esciencecenter/esalsa/loadbalancer/SearchSplit.java:124-167 | with count-keeping splitters `findBestSplit` returns one set per target, for every set and targets |
| Splitting.FindBestSplitConservesWork | src/nl/esciencecenter/esalsa/loadbalancer/SearchSplit.java:124-167 | with work-conserving splitters, `findBestSplit` asked for targets that apportion a set's work hands out exactly that work, for every set and targets |
| Splitting.SubsetLeafCount | src/nl/esciencecenter/esalsa/loadbalancer/SearchSplit.java:263-265 | subset `i` yields `subSlices[permutation[i]]` leaves |
| Splitting.SplitLeafCount | src/nl/esciencecenter/esalsa/loadbalancer/SearchSplit.java:257-270 | when every subset succeeds, the number of leaves appended is `sum(subSlices)` |
| Splitting.SplitConservesWork | src/nl/esciencecenter/esalsa/loadbalancer/SearchSplit.java:257-270 | when every subset succeeds and every `subSlices` entry is positive, each subset's work is apportioned over its leaves, and the leaves hold exactly the work of the top-level subsets |
| Permutations.SwapLoopShape | src/nl/esciencecenter/esalsa/loadbalancer/SearchSplit.java:214-219 | every array the loop emits from iteration `i` on rearranges the working array past `start` and holds at `start` an entry from position `i` or later |
| Permutations.SwapLoopCount | src/nl/esciencecenter/esalsa/loadbalancer/SearchSplit.java:214-219 | on duplicate-free input the loop from iteration `i` emits `(len - i)` blocks of `(len - start - 1)!` arrays |
| Permutations.SwapLoopNoDup | src/nl/esciencecenter/esalsa/loadbalancer/SearchSplit.java:214-219 | on duplicate-free input the loop emits no array twice |
| Permutations.SwapLoopComplete | src/nl/esciencecenter/esalsa/loadbalancer/SearchSplit.java:214-219 | on duplicate-free input the loop emits every rearrangement whose entry at `start` comes from position `i` or later |
| Search.PermutationCostsCover | src/nl/esciencecenter/esalsa/loadbalancer/SearchSplit.java:136-150 | one cost per generated ordering, `len!` in all; every ordering of the target indices is generated at exactly one position, and its cost there is that of the four-way choice for the reordered targets |
| Splitting.SubsetLeavesWork | src/nl/esciencecenter/esalsa/loadbalancer/SearchSplit.java:263-265 | subset `i`'s leaves, searched for a positive number of parts with work-conserving collaborators, hold exactly the subset's work |
| Splitting.ZeroSliceDropsWork | src/nl/esciencecenter/esalsa/loadbalancer/SearchSplit.java:257-270 | a zero `subSlices` entry, all others positive: the subset paired with it gets no leaves, and the leaves hold the top-level subsets' work less that subset's |

## Left out

- `DistributionViewer` (the Swing viewer, its command line and file I/O)
  is not part of this model.
- The logger calls and the debug `System.out.println` of every emitted
  permutation have no effect on the result, so they are not modelled.
- The commented-out greedy search after `findBestSplit` is dead code.
- Java `int` overflow is not modelled: costs and sums are unbounded
  integers. `Integer.MAX_VALUE` appears only as the explicit sentinel
  `Selection.IntMax`.
- The collaborators are parameters, not implementations, because their
  code is not part of this model:
  - `splitHorizontal`, `splitVertical` and both `splitWork` overloads of
    `RoughlyRectangularSplit`;
  - `Set.size`;
  - `Set.getCommunication` with `Neighbours`.

  Exceptions they might raise, for example on a negative count, are not
  modelled; the parameters are total functions.
- `parts` is a field of the parent class. Its constructor is not part of
  this model, so the model takes `parts` to be the `subsets` argument.
- Object identity and aliasing are not modelled. Arrays are values, so
  "`swap` does not modify its input" and the `clone` before `output.add`
  hold by construction.
- `Search.BestSplitKeepsCount`, `Search.BestSplitConservesWork`,
  `Splitting.SplitLeafCount`, `Splitting.SplitConservesWork`,
  `Splitting.ZeroSliceDropsWork` and the count and work clauses of `Splitting.SplitWith` and `Splitting.Split` hold only
  under the collaborator hypotheses they name. They are hypotheses because
  the collaborators' code is not available.
- `Splitting.SplitWith`, `Splitting.Split` and `Splitting.SplitConservesWork`:
  the work clause is not promised when `subSlices` is empty or has an
  entry of zero or less. Whether `split` keeps the work there depends on
  `splitWork` and `splitWorkFor`, whose code is not part of this model.
  Under `ApportionKeepsCount`, which takes `splitWork(total, 0)` to hand
  out no targets, and `SplittersKeepCount`, a zero entry loses the paired
  subset's work; `Splitting.ZeroSliceDropsWork` proves exactly how much.
  Under the same hypotheses an empty `subSlices` asks the top-level search
  for no targets, so no leaves are produced. An exception the parent's
  `splitWork` might raise on a non-positive count is not modelled, and
  what it does with a negative count is left open. The leaf count still
  holds for zero entries.
- Set sizes are taken to be non-negative counts: `Set.size()` returns a
  Java `int`, and `Collaborators.size` returns a `nat`.
- `result` is a caller-supplied `Collection<Set>`; the model takes it to
  be a list, so `add` appends at the end and keeps order and repeats. A
  set-like collection would drop repeats and need not keep order.
- Permutations.PermutationsCount: proved for duplicate-free input only.
  `getPermutation` is only ever called on the index array `0..len-1`,
  which is duplicate-free.
- Permutations.PermutationsNoDup: proved for duplicate-free input only,
  for the same reason.
- Permutations.PermutationsComplete: proved for duplicate-free input only,
  for the same reason.
- Permutations.PermutationsOrder: proved for duplicate-free input only,
  for the same reason.
