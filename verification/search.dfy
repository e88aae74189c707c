/** The split-selection search of `SearchSplit`: the constructor guard,
    cost aggregation, the four-way orientation choice and the search over
    target orderings. The two-level `split` driver is in module `Splitting`.

    The classes the search calls into but which are not part of this model
    (the `Set` class, its communication cost under a `Neighbours` function,
    and the strip splitters and work apportioning of the parent class
    `RoughlyRectangularSplit`) enter as the fields of `Collaborators`. The
    type parameter `S` stands for `Set`. Where a property needs something
    of them, it says so through the ghost predicates below, as a hypothesis. */
module Search {
  import opened Outcomes
  import opened SeqFacts
  import opened Permutations
  import opened Selection

  datatype Collaborators<!S> = Collaborators(
    /** `Set.size()`: the amount of work in a set. */
    size: S -> nat,
    /** `Set.getCommunication(neighbours)` for the configured neighbours. */
    communication: S -> int,
    /** `splitHorizontal(region, workPerSlice, reversed)`. */
    splitHorizontal: (S, seq<int>, bool) -> seq<S>,
    /** `splitVertical(region, workPerSlice, reversed)`. */
    splitVertical: (S, seq<int>, bool) -> seq<S>,
    /** `splitWork(size, subSlices, parts)`: work per top-level slice. */
    splitWorkFor: (nat, seq<int>, int) -> seq<int>,
    /** `splitWork(size, count)`: work per part of one top-level slice. */
    splitWork: (nat, int) -> seq<int>)

  /** A `SearchSplit` instance: the set to split and the `parts` count the
      parent constructor receives (the constructor's `subsets`). The
      neighbour function lives in `Collaborators.communication`. */
  datatype SearchSplit<S> = SearchSplit(region: S, parts: int)

  /** The private `Solution` class: the chosen sets and the ordering of the
      work targets that produced them. */
  datatype Solution<S> = Solution(sets: seq<S>, permutation: seq<int>)

  /** The exceptions the modelled code can raise: `IllegalArgumentException`
      from the constructor, a `NullPointerException` when a search found no
      solution, an `ArrayIndexOutOfBoundsException` when a permutation entry
      does not index `subSlices`. */
  datatype SplitError = IllegalArgument | NullSolution | IndexOutOfBounds

  datatype Outcome = Completed | Failed(error: SplitError)

  /** The strip splitters return one set per work target. */
  ghost predicate SplittersKeepCount<S(!new)>(c: Collaborators<S>) {
    && (forall s, w, rev :: |c.splitHorizontal(s, w, rev)| == |w|)
    && (forall s, w, rev :: |c.splitVertical(s, w, rev)| == |w|)
  }

  /** The work apportioning returns one target per requested slice. */
  ghost predicate ApportionKeepsCount<S(!new)>(c: Collaborators<S>) {
    && (forall total, counts, parts :: |c.splitWorkFor(total, counts, parts)| == |counts|)
    && (forall total, count :: count >= 0 ==> |c.splitWork(total, count)| == count)
  }

  /** The targets `w` share out exactly the work of `s`: none is negative
      and together they add up to its size. */
  predicate Apportions<S>(c: Collaborators<S>, s: S, w: seq<int>) {
    && (forall k :: 0 <= k < |w| ==> w[k] >= 0)
    && Sum(w) == c.size(s)
  }

  /** Given targets that share out the work of a set, the strip splitters
      hand out exactly that work. */
  ghost predicate SplittersConserveWork<S(!new)>(c: Collaborators<S>) {
    && (forall s, w, rev :: Apportions(c, s, w) ==> TotalSize(c, c.splitHorizontal(s, w, rev)) == c.size(s))
    && (forall s, w, rev :: Apportions(c, s, w) ==> TotalSize(c, c.splitVertical(s, w, rev)) == c.size(s))
  }

  /** The work apportioning shares out all of the given work, without
      negative targets, whenever at least one target is asked for. */
  ghost predicate ApportionConservesWork<S>(c: Collaborators<S>) {
    && (forall total, counts, parts :: |counts| > 0 ==>
          var w := c.splitWorkFor(total, counts, parts);
          (forall k :: 0 <= k < |w| ==> w[k] >= 0) && Sum(w) == total)
    && (forall total, count :: count > 0 ==>
          var w := c.splitWork(total, count);
          (forall k :: 0 <= k < |w| ==> w[k] >= 0) && Sum(w) == total)
  }

  /** All of `total` on the first of `n` targets, none on the others. */
  function FirstTakesAll(total: int, n: nat): (w: seq<int>)
    ensures |w| == n
    ensures total >= 0 ==> forall k :: 0 <= k < |w| ==> w[k] >= 0
    ensures n > 0 ==> Sum(w) == total
  {
    if n == 0 then []
    else
      SumZeros(n - 1);
      SumConcat([total], seq(n - 1, _ => 0));
      [total] + seq(n - 1, _ => 0)
  }

  lemma {:induction false} SumZeros(n: nat)
    ensures Sum(seq(n, _ => 0)) == 0
  {
    if n > 0 {
      assert seq(n, _ => 0) == [0] + seq(n - 1, _ => 0);
      SumZeros(n - 1);
    }
  }

  /** A sample instance of the collaborators over sets that are just their
      amount of work: each split hands out the targets themselves, and the
      apportioning puts all work on the first target. */
  function SampleCollaborators(): Collaborators<int> {
    Collaborators(
      (x: int) => if x >= 0 then x else 0,
      (x: int) => 0,
      (s: int, w: seq<int>, rev: bool) => w,
      (s: int, w: seq<int>, rev: bool) => w,
      (total: nat, counts: seq<int>, parts: int) => FirstTakesAll(total, |counts|),
      (total: nat, count: int) => if count <= 0 then [] else FirstTakesAll(total, count))
  }

  /** The collaborator hypotheses hold together of sets that carry work:
      the sample instance meets all four and has a set of size 5. */
  lemma HypothesesSatisfiable()
    ensures var c := SampleCollaborators();
      && SplittersKeepCount(c) && ApportionKeepsCount(c)
      && SplittersConserveWork(c) && ApportionConservesWork(c)
      && c.size(5) == 5
  {
    var c := SampleCollaborators();
    forall s, w, rev | Apportions(c, s, w)
      ensures TotalSize(c, c.splitHorizontal(s, w, rev)) == c.size(s)
      ensures TotalSize(c, c.splitVertical(s, w, rev)) == c.size(s)
    {
      assert Sizes(c, w) == w;
    }
  }

  function Sizes<S>(c: Collaborators<S>, sets: seq<S>): seq<int> {
    seq(|sets|, k requires 0 <= k < |sets| => c.size(sets[k]))
  }

  function TotalSize<S>(c: Collaborators<S>, sets: seq<S>): int {
    Sum(Sizes(c, sets))
  }

  /** The constructor: it refuses to split a set into more parts than it
      has work. */
  function NewSearchSplit<S>(c: Collaborators<S>, region: S, subsets: int): (r: Result<SearchSplit<S>, SplitError>)
    ensures r.Failure? <==> c.size(region) < subsets
    ensures r.Failure? ==> r.error == IllegalArgument
    ensures r.Success? ==> r.value.region == region && r.value.parts == subsets
  {
    if c.size(region) < subsets then Failure(IllegalArgument)
    else Success(SearchSplit(region, subsets))
  }

  /** The communication cost of each set, in order. */
  function Costs<S>(c: Collaborators<S>, sets: seq<S>): seq<int> {
    seq(|sets|, k requires 0 <= k < |sets| => c.communication(sets[k]))
  }

  /** The total communication of a split: the sum of its sets' own costs. */
  function Communication<S>(c: Collaborators<S>, sets: seq<S>): int {
    Sum(Costs(c, sets))
  }

  /** `getCommunication`: the loop adding up the sets' costs front to back. */
  method GetCommunication<S>(c: Collaborators<S>, sets: seq<S>) returns (communication: int)
    ensures communication == Sum(Costs(c, sets))
  {
    communication := 0;
    for i := 0 to |sets|
      invariant communication == Sum(Costs(c, sets)[..i])
    {
      assert Costs(c, sets)[..i + 1] == Costs(c, sets)[..i] + [c.communication(sets[i])];
      SumConcat(Costs(c, sets)[..i], [c.communication(sets[i])]);
      communication := communication + c.communication(sets[i]);
    }
    assert Costs(c, sets)[..|sets|] == Costs(c, sets);
  }

  lemma CommunicationNonNegative<S>(c: Collaborators<S>, sets: seq<S>)
    requires forall k :: 0 <= k < |sets| ==> c.communication(sets[k]) >= 0
    ensures Communication(c, sets) >= 0
  {
    SumNonNegative(Costs(c, sets));
  }

  /** The four candidate splits in the order they are tried: horizontal,
      horizontal reversed, vertical, vertical reversed. */
  function Candidates<S>(c: Collaborators<S>, region: S, w: seq<int>): seq<seq<S>> {
    [ c.splitHorizontal(region, w, false), c.splitHorizontal(region, w, true),
      c.splitVertical(region, w, false), c.splitVertical(region, w, true) ]
  }

  function CandidateCosts<S>(c: Collaborators<S>, region: S, w: seq<int>): seq<int> {
    var cands := Candidates(c, region, w);
    seq(4, k requires 0 <= k < 4 => Communication(c, cands[k]))
  }

  /** `findBestSplitFourWays`: a cheapest of the four candidates, the first
      one tried among equally cheap ones. */
  function FourWays<S>(c: Collaborators<S>, region: S, w: seq<int>): (r: seq<S>)
    ensures forall k :: 0 <= k < 4 ==> Communication(c, r) <= Communication(c, Candidates(c, region, w)[k])
    ensures exists k :: && 0 <= k < 4
                        && r == Candidates(c, region, w)[k]
                        && forall j :: 0 <= j < k ==> Communication(c, r) < Communication(c, Candidates(c, region, w)[j])
  {
    var cands, costs := Candidates(c, region, w), CandidateCosts(c, region, w);
    assert forall j :: 0 <= j < 4 ==> costs[j] == Communication(c, cands[j]);
    var k := ScanMin(costs, 1, 0);
    cands[k]
  }

  /** The work targets of `findBestSplit` rearranged by one permutation:
      position `j` receives target `perm[j]`, which is gathering the
      targets at the positions `perm` lists. */
  function Reorder(workPerSlice: seq<int>, perm: seq<int>): seq<int>
    requires |perm| == |workPerSlice| && ValidIndices(perm, |workPerSlice|)
  {
    Gather(workPerSlice, perm)
  }

  /** Rearranging the targets neither adds nor drops work. */
  lemma ReorderPreservesWork(w: seq<int>, perm: seq<int>)
    requires IsIndexPermutation(perm, |w|)
    ensures |Reorder(w, perm)| == |w|
    ensures multiset(Reorder(w, perm)) == multiset(w)
    ensures Sum(Reorder(w, perm)) == Sum(w)
  {
    GatherIdentity(w);
    GatherMultiset(w, perm, Identity(|w|));
    SumPermutation(Reorder(w, perm), w);
  }

  /** The cost `findBestSplit` records for one ordering of the targets. */
  function PermutationCost<S>(c: Collaborators<S>, region: S, w: seq<int>, perm: seq<int>): int
    requires IsIndexPermutation(perm, |w|)
  {
    Communication(c, FourWays(c, region, Reorder(w, perm)))
  }

  /** The recorded costs, in the order the orderings are generated. */
  function PermutationCosts<S>(c: Collaborators<S>, region: S, w: seq<int>): seq<int> {
    var perms := IndexPermutations(|w|);
    seq(|perms|, k requires 0 <= k < |perms| => PermutationCost(c, region, w, perms[k]))
  }

  /** Every ordering of the targets is costed exactly once: there are
      `len!` costs, and each ordering of `0..len-1` has its own position,
      where its cost is recorded. */
  lemma PermutationCostsCover<S>(c: Collaborators<S>, region: S, w: seq<int>, perm: seq<int>)
    requires IsIndexPermutation(perm, |w|)
    ensures |PermutationCosts(c, region, w)| == Fact(|w|)
    ensures exists k :: && 0 <= k < |IndexPermutations(|w|)|
                        && IndexPermutations(|w|)[k] == perm
                        && PermutationCosts(c, region, w)[k] == PermutationCost(c, region, w, perm)
                        && (forall j :: 0 <= j < |IndexPermutations(|w|)| && j != k ==> IndexPermutations(|w|)[j] != perm)
  {
    var perms := IndexPermutations(|w|);
    assert perm in perms;
    var k :| 0 <= k < |perms| && perms[k] == perm;
    assert PermutationCosts(c, region, w)[k] == PermutationCost(c, region, w, perm);
  }

  /** `findBestSplit`: over every ordering of the work targets, the
      four-way choice of least communication, the first ordering generated
      among equally cheap ones; `None` (Java: a `Solution` with `null`
      fields) when no cost is below `Integer.MAX_VALUE`. */
  function BestSplit<S>(c: Collaborators<S>, region: S, w: seq<int>): (r: Option<Solution<S>>)
    ensures var costs := PermutationCosts(c, region, w);
      r.None? <==> forall k :: 0 <= k < |costs| ==> costs[k] >= IntMax
    ensures r.Some? ==>
      var perms, costs := IndexPermutations(|w|), PermutationCosts(c, region, w);
      exists k :: && IsFirstMin(costs, k)
                  && costs[k] < IntMax
                  && r.value.permutation == perms[k]
                  && r.value.sets == FourWays(c, region, Reorder(w, perms[k]))
  {
    var perms := IndexPermutations(|w|);
    match SentinelScan(PermutationCosts(c, region, w), 0, None, IntMax)
    case None => None
    case Some(k) =>
      assert perms[k] in perms;
      Some(Solution(FourWays(c, region, Reorder(w, perms[k])), perms[k]))
  }

  /** The solution is optimal over the whole explored space: no ordering of
      `0..|w|-1` (generated or not) and none of the four orientations gives
      a split with less communication. */
  lemma BestSplitOptimal<S>(c: Collaborators<S>, region: S, w: seq<int>, perm: seq<int>, k: nat)
    requires IsIndexPermutation(perm, |w|)
    requires k < 4
    ensures BestSplit(c, region, w).Some? ==>
              Communication(c, BestSplit(c, region, w).value.sets)
              <= Communication(c, Candidates(c, region, Reorder(w, perm))[k])
  {
    var perms, costs := IndexPermutations(|w|), PermutationCosts(c, region, w);
    assert perm in perms;
    var j :| 0 <= j < |perms| && perms[j] == perm;
    assert costs[j] == PermutationCost(c, region, w, perm);
  }

  /** With count-keeping splitters, the four-way choice has one set per
      target. */
  lemma FourWaysKeepsCount<S(!new)>(c: Collaborators<S>, region: S, w: seq<int>)
    requires SplittersKeepCount(c)
    ensures |FourWays(c, region, w)| == |w|
  {
    var cands := Candidates(c, region, w);
    assert forall k :: 0 <= k < 4 ==> |cands[k]| == |w|;
  }

  /** With work-conserving splitters, the four-way choice hands out exactly
      the work of the region. */
  lemma FourWaysConservesWork<S(!new)>(c: Collaborators<S>, region: S, w: seq<int>)
    requires SplittersConserveWork(c)
    ensures Apportions(c, region, w) ==> TotalSize(c, FourWays(c, region, w)) == c.size(region)
  {
    if Apportions(c, region, w) {
      var cands := Candidates(c, region, w);
      assert forall k :: 0 <= k < 4 ==> TotalSize(c, cands[k]) == c.size(region);
    }
  }

  /** Every solution's permutation is an ordering of the target indices. */
  lemma BestSplitPermutation<S>(c: Collaborators<S>, region: S, w: seq<int>)
    ensures BestSplit(c, region, w).Some? ==> IsIndexPermutation(BestSplit(c, region, w).value.permutation, |w|)
  {
    if BestSplit(c, region, w).None? { return; }
    var sol := BestSplit(c, region, w).value;
    var perms, costs := IndexPermutations(|w|), PermutationCosts(c, region, w);
    var k :| IsFirstMin(costs, k) && costs[k] < IntMax && sol.permutation == perms[k]
             && sol.sets == FourWays(c, region, Reorder(w, perms[k]));
  }

  /** With count-keeping splitters, a solution has one set per target. */
  lemma BestSplitKeepsCount<S(!new)>(c: Collaborators<S>, region: S, w: seq<int>)
    requires SplittersKeepCount(c)
    ensures BestSplit(c, region, w).Some? ==> |BestSplit(c, region, w).value.sets| == |w|
  {
    if BestSplit(c, region, w).None? { return; }
    var sol := BestSplit(c, region, w).value;
    var perms, costs := IndexPermutations(|w|), PermutationCosts(c, region, w);
    var k :| IsFirstMin(costs, k) && costs[k] < IntMax && sol.permutation == perms[k]
             && sol.sets == FourWays(c, region, Reorder(w, perms[k]));
    FourWaysKeepsCount(c, region, Reorder(w, perms[k]));
  }

  /** With work-conserving splitters, a solution holds the region's work. */
  lemma BestSplitConservesWork<S(!new)>(c: Collaborators<S>, region: S, w: seq<int>)
    requires SplittersConserveWork(c)
    ensures BestSplit(c, region, w).Some? && Apportions(c, region, w)
            ==> TotalSize(c, BestSplit(c, region, w).value.sets) == c.size(region)
  {
    if BestSplit(c, region, w).None? || !Apportions(c, region, w) { return; }
    var sol := BestSplit(c, region, w).value;
    var perms, costs := IndexPermutations(|w|), PermutationCosts(c, region, w);
    var k :| IsFirstMin(costs, k) && costs[k] < IntMax && sol.permutation == perms[k]
             && sol.sets == FourWays(c, region, Reorder(w, perms[k]));
    ReorderPreservesWork(w, perms[k]);
    assert Apportions(c, region, Reorder(w, perms[k]));
    FourWaysConservesWork(c, region, Reorder(w, perms[k]));
  }


  /** The work of two runs of sets put together is the sum of their work. */
  lemma SizesConcat<S>(c: Collaborators<S>, xs: seq<S>, ys: seq<S>)
    ensures TotalSize(c, xs + ys) == TotalSize(c, xs) + TotalSize(c, ys)
  {
    assert Sizes(c, xs + ys) == Sizes(c, xs) + Sizes(c, ys);
    SumConcat(Sizes(c, xs), Sizes(c, ys));
  }
}
