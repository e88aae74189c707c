/** The two-level `split` driver of `SearchSplit`: the region is split once
    into one subset per entry of `subSlices`, then top-level subset `i` is
    split again into `subSlices[permutation[i]]` leaves, which are appended
    to the result collection in order.

    The per-subset part is written against any search of type `Searcher`;
    `Split` instantiates it with `findBestSplit`. What the leaf-count and
    work facts need of that search is stated by the predicates below and
    discharged for `findBestSplit` once. */
module Splitting {
  import opened Outcomes
  import opened SeqFacts
  import opened Permutations
  import opened Search

  /** A search for a split of a set into the given work targets. */
  type Searcher<!S> = (S, seq<int>) -> Option<Solution<S>>

  /** `findBestSplit` as a searcher. */
  function FindBestSplit<S>(c: Collaborators<S>): Searcher<S> {
    (region: S, w: seq<int>) => BestSplit(c, region, w)
  }

  /** The search returns one set per work target. */
  ghost predicate SearchKeepsCount<S(!new)>(search: Searcher<S>) {
    forall region, w :: search(region, w).Some? ==> |search(region, w).value.sets| == |w|
  }

  /** Asked to apportion exactly the work of the set it splits, the
      search hands out exactly that work. */
  ghost predicate SearchConservesWork<S(!new)>(c: Collaborators<S>, search: Searcher<S>) {
    forall region, w :: search(region, w).Some? && Apportions(c, region, w) ==>
      TotalSize(c, search(region, w).value.sets) == c.size(region)
  }

  /** The search's permutation orders the indices of the work targets. */
  ghost predicate SearchPermutes<S(!new)>(search: Searcher<S>) {
    forall region, w :: search(region, w).Some? ==>
      IsIndexPermutation(search(region, w).value.permutation, |w|)
  }

  /** `findBestSplit` returns a permutation of the target indices. */
  lemma FindBestSplitPermutes<S(!new)>(c: Collaborators<S>)
    ensures SearchPermutes(FindBestSplit(c))
  {
    forall region, w | FindBestSplit(c)(region, w).Some?
      ensures IsIndexPermutation(FindBestSplit(c)(region, w).value.permutation, |w|)
    {
      BestSplitPermutation(c, region, w);
    }
  }

  /** With count-keeping splitters, `findBestSplit` keeps the count. */
  lemma FindBestSplitKeepsCount<S(!new)>(c: Collaborators<S>)
    requires SplittersKeepCount(c)
    ensures SearchKeepsCount(FindBestSplit(c))
  {
    forall region, w | FindBestSplit(c)(region, w).Some?
      ensures |FindBestSplit(c)(region, w).value.sets| == |w|
    {
      BestSplitKeepsCount(c, region, w);
    }
  }

  /** With work-conserving splitters, `findBestSplit` conserves work. */
  lemma FindBestSplitConservesWork<S(!new)>(c: Collaborators<S>)
    requires SplittersConserveWork(c)
    ensures SearchConservesWork(c, FindBestSplit(c))
  {
    forall region, w | FindBestSplit(c)(region, w).Some? && Apportions(c, region, w)
      ensures TotalSize(c, FindBestSplit(c)(region, w).value.sets) == c.size(region)
    {
      BestSplitConservesWork(c, region, w);
    }
  }

  /** The leaves `split` collects for top-level subset `i`: the subset's
      work is apportioned over `subSlices[permutation[i]]` parts and the
      subset searched again. A permutation entry that does not index
      `subSlices` throws; a search without a solution makes the access to
      its sets throw. */
  function SubsetLeaves<S>(c: Collaborators<S>, search: Searcher<S>, top: Solution<S>, subSlices: seq<int>, i: nat)
    : Result<seq<S>, SplitError>
    requires i < |top.sets|
  {
    if i >= |top.permutation| || !(0 <= top.permutation[i] < |subSlices|) then
      Failure(IndexOutOfBounds)
    else
      var part := top.sets[i];
      var workPerPart := c.splitWork(c.size(part), subSlices[top.permutation[i]]);
      match search(part, workPerPart)
      case None => Failure(NullSolution)
      case Some(sol) => Success(sol.sets)
  }

  /** Every top-level subset below `k` yields its leaves. */
  predicate SubsetsSucceed<S>(c: Collaborators<S>, search: Searcher<S>, top: Solution<S>, subSlices: seq<int>, k: nat)
    requires k <= |top.sets|
  {
    forall i :: 0 <= i < k ==> SubsetLeaves(c, search, top, subSlices, i).Success?
  }

  /** The leaves of the top-level subsets `0..k-1`, subset by subset. */
  function LeavesUpTo<S>(c: Collaborators<S>, search: Searcher<S>, top: Solution<S>, subSlices: seq<int>, k: nat): seq<S>
    requires k <= |top.sets|
    requires SubsetsSucceed(c, search, top, subSlices, k)
  {
    if k == 0 then []
    else LeavesUpTo(c, search, top, subSlices, k - 1) + SubsetLeaves(c, search, top, subSlices, k - 1).value
  }

  /** One more successful subset extends the leaves by its own. */
  lemma LeavesStep<S>(c: Collaborators<S>, search: Searcher<S>, top: Solution<S>, subSlices: seq<int>, k: nat)
    requires k < |top.sets|
    requires SubsetsSucceed(c, search, top, subSlices, k)
    requires SubsetLeaves(c, search, top, subSlices, k).Success?
    ensures SubsetsSucceed(c, search, top, subSlices, k + 1)
    ensures LeavesUpTo(c, search, top, subSlices, k + 1)
         == LeavesUpTo(c, search, top, subSlices, k) + SubsetLeaves(c, search, top, subSlices, k).value
  {
  }

  /** One pass of `split`'s outer loop: subset `i` is searched again and
      its leaves appended to `out` one by one, in order. */
  method SplitSubset<S>(c: Collaborators<S>, search: Searcher<S>, top: Solution<S>, subSlices: seq<int>, i: nat, out: seq<S>)
    returns (next: seq<S>, outcome: Outcome)
    requires i < |top.sets|
    ensures outcome.Completed? <==> SubsetLeaves(c, search, top, subSlices, i).Success?
    ensures outcome.Completed? ==> next == out + SubsetLeaves(c, search, top, subSlices, i).value
    ensures outcome.Failed? ==> next == out && SubsetLeaves(c, search, top, subSlices, i) == Failure(outcome.error)
  {
    next := out;
    if i >= |top.permutation| || !(0 <= top.permutation[i] < |subSlices|) {
      return next, Failed(IndexOutOfBounds);
    }
    var workPerPart := c.splitWork(c.size(top.sets[i]), subSlices[top.permutation[i]]);
    var tmp := search(top.sets[i], workPerPart);
    if tmp.None? {
      return next, Failed(NullSolution);
    }
    var leaves := tmp.value.sets;
    for j := 0 to |leaves|
      invariant next == out + leaves[..j]
    {
      assert leaves[..j + 1] == leaves[..j] + [leaves[j]];
      next := next + [leaves[j]];
    }
    assert leaves[..|leaves|] == leaves;
    outcome := Completed;
  }

  /** `split`'s outer loop over the top-level subsets, in order; it stops at
      the first subset that throws, keeping what was appended before. */
  method SplitSubsets<S>(c: Collaborators<S>, search: Searcher<S>, top: Solution<S>, subSlices: seq<int>, result: seq<S>)
    returns (out: seq<S>, done: nat, outcome: Outcome)
    ensures done <= |top.sets|
    ensures SubsetsSucceed(c, search, top, subSlices, done)
    ensures out == result + LeavesUpTo(c, search, top, subSlices, done)
    ensures outcome.Completed? <==> done == |top.sets|
    ensures outcome.Failed? ==> SubsetLeaves(c, search, top, subSlices, done) == Failure(outcome.error)
  {
    out, done := result, 0;
    while done < |top.sets|
      invariant done <= |top.sets|
      invariant SubsetsSucceed(c, search, top, subSlices, done)
      invariant out == result + LeavesUpTo(c, search, top, subSlices, done)
    {
      var next, step := SplitSubset(c, search, top, subSlices, done, out);
      if step.Failed? {
        outcome := step;
        return;
      }
      LeavesStep(c, search, top, subSlices, done);
      out, done := next, done + 1;
    }
    outcome := Completed;
  }

  /** `split(subSlices, result)` with the search it calls at both levels
      as a parameter: `result` is the collection passed in, `out` its
      contents afterwards and `done` the number of top-level subsets whose
      leaves were appended. A top-level search without a solution throws
      before anything is appended; on a later exception the leaves appended
      before it stay in the collection. */
  method SplitWith<S(!new)>(c: Collaborators<S>, search: Searcher<S>, splitter: SearchSplit<S>,
                            subSlices: seq<int>, result: seq<S>)
    returns (out: seq<S>, done: nat, outcome: Outcome)
    ensures var top := search(splitter.region, c.splitWorkFor(c.size(splitter.region), subSlices, splitter.parts));
      && (top.None? ==> out == result && done == 0 && outcome == Failed(NullSolution))
      && (top.Some? ==>
            && done <= |top.value.sets|
            && SubsetsSucceed(c, search, top.value, subSlices, done)
            && out == result + LeavesUpTo(c, search, top.value, subSlices, done)
            && (outcome.Completed? <==> done == |top.value.sets|)
            && (outcome.Failed? ==> SubsetLeaves(c, search, top.value, subSlices, done) == Failure(outcome.error)))
    ensures outcome.Completed? && SearchKeepsCount(search) && SearchPermutes(search) && ApportionKeepsCount(c)
              && (forall i :: 0 <= i < |subSlices| ==> subSlices[i] >= 0)
            ==> |out| == |result| + Sum(subSlices)
    ensures outcome.Completed? && SearchConservesWork(c, search) && ApportionConservesWork(c)
              && |subSlices| > 0 && (forall i :: 0 <= i < |subSlices| ==> subSlices[i] > 0)
            ==> |result| <= |out| && TotalSize(c, out[|result|..]) == c.size(splitter.region)
  {
    var workPerSlice := c.splitWorkFor(c.size(splitter.region), subSlices, splitter.parts);
    var solution := search(splitter.region, workPerSlice);
    if solution.None? {
      return result, 0, Failed(NullSolution);
    }
    var top := solution.value;
    out, done, outcome := SplitSubsets(c, search, top, subSlices, result);
    if outcome.Completed? {
      assert out[|result|..] == LeavesUpTo(c, search, top, subSlices, done);
      if SearchKeepsCount(search) && SearchPermutes(search) && ApportionKeepsCount(c)
         && (forall i :: 0 <= i < |subSlices| ==> subSlices[i] >= 0) {
        SplitLeafCount(c, search, top, subSlices);
      }
      if SearchConservesWork(c, search) && ApportionConservesWork(c)
         && |subSlices| > 0 && (forall i :: 0 <= i < |subSlices| ==> subSlices[i] > 0) {
        assert Apportions(c, splitter.region, workPerSlice);
        SplitConservesWork(c, search, top, subSlices);
      }
    }
  }

  /** `split(subSlices, result)` as written: `SplitWith` searching with
      `findBestSplit`, so the count and work facts follow from the
      splitters' own. */
  method Split<S(!new)>(c: Collaborators<S>, splitter: SearchSplit<S>, subSlices: seq<int>, result: seq<S>)
    returns (out: seq<S>, done: nat, outcome: Outcome)
    ensures var top := BestSplit(c, splitter.region, c.splitWorkFor(c.size(splitter.region), subSlices, splitter.parts));
      && (top.None? ==> out == result && done == 0 && outcome == Failed(NullSolution))
      && (top.Some? ==>
            && done <= |top.value.sets|
            && SubsetsSucceed(c, FindBestSplit(c), top.value, subSlices, done)
            && out == result + LeavesUpTo(c, FindBestSplit(c), top.value, subSlices, done)
            && (outcome.Completed? <==> done == |top.value.sets|)
            && (outcome.Failed? ==>
                  SubsetLeaves(c, FindBestSplit(c), top.value, subSlices, done) == Failure(outcome.error)))
    ensures outcome.Completed? && SplittersKeepCount(c) && ApportionKeepsCount(c)
              && (forall i :: 0 <= i < |subSlices| ==> subSlices[i] >= 0)
            ==> |out| == |result| + Sum(subSlices)
    ensures outcome.Completed? && SplittersConserveWork(c) && ApportionConservesWork(c)
              && |subSlices| > 0 && (forall i :: 0 <= i < |subSlices| ==> subSlices[i] > 0)
            ==> |result| <= |out| && TotalSize(c, out[|result|..]) == c.size(splitter.region)
  {
    if SplittersKeepCount(c) {
      FindBestSplitKeepsCount(c);
    }
    FindBestSplitPermutes(c);
    if SplittersConserveWork(c) {
      FindBestSplitConservesWork(c);
    }
    out, done, outcome := SplitWith(c, FindBestSplit(c), splitter, subSlices, result);
  }

  /** A subset searched with `n` non-negative targets yields `n` leaves. */
  lemma SubsetLeafCount<S(!new)>(c: Collaborators<S>, search: Searcher<S>, top: Solution<S>, subSlices: seq<int>, i: nat)
    requires SearchKeepsCount(search) && ApportionKeepsCount(c)
    requires i < |top.sets|
    requires SubsetLeaves(c, search, top, subSlices, i).Success?
    ensures i < |top.permutation| && 0 <= top.permutation[i] < |subSlices|
    ensures subSlices[top.permutation[i]] >= 0
            ==> |SubsetLeaves(c, search, top, subSlices, i).value| == subSlices[top.permutation[i]]
  {
    var part := top.sets[i];
    var workPerPart := c.splitWork(c.size(part), subSlices[top.permutation[i]]);
    assert search(part, workPerPart).Some?;
  }

  lemma {:induction false} LeafCountPrefix<S>(c: Collaborators<S>, search: Searcher<S>, top: Solution<S>, subSlices: seq<int>, k: nat)
    requires IsIndexPermutation(top.permutation, |subSlices|)
    requires k <= |top.sets| == |subSlices|
    requires SubsetsSucceed(c, search, top, subSlices, |top.sets|)
    requires forall i :: 0 <= i < |top.sets| ==>
      |SubsetLeaves(c, search, top, subSlices, i).value| == subSlices[top.permutation[i]]
    ensures |LeavesUpTo(c, search, top, subSlices, k)| == Sum(Reorder(subSlices, top.permutation)[..k])
  {
    if k > 0 {
      LeafCountPrefix(c, search, top, subSlices, k - 1);
      SumPrefixStep(Reorder(subSlices, top.permutation), k);
    }
  }

  /** When every subset succeeds, `split` appends one leaf per requested
      sub-slice: top-level subset `i` contributes `subSlices[permutation[i]]`
      leaves, and the permutation visits every entry of `subSlices` once. */
  lemma SplitLeafCount<S(!new)>(c: Collaborators<S>, search: Searcher<S>, top: Solution<S>, subSlices: seq<int>)
    requires SearchKeepsCount(search) && ApportionKeepsCount(c)
    requires forall i :: 0 <= i < |subSlices| ==> subSlices[i] >= 0
    requires |top.sets| == |subSlices| && IsIndexPermutation(top.permutation, |subSlices|)
    requires SubsetsSucceed(c, search, top, subSlices, |top.sets|)
    ensures |LeavesUpTo(c, search, top, subSlices, |top.sets|)| == Sum(subSlices)
  {
    var perm := top.permutation;
    forall i | 0 <= i < |top.sets|
      ensures |SubsetLeaves(c, search, top, subSlices, i).value| == subSlices[perm[i]]
    {
      SubsetLeafCount(c, search, top, subSlices, i);
    }
    LeafCountPrefix(c, search, top, subSlices, |top.sets|);
    ReorderPreservesWork(subSlices, perm);
    assert Reorder(subSlices, perm)[..|top.sets|] == Reorder(subSlices, perm);
  }

  /** A subset split into a positive number of leaves: its work is
      apportioned over them, so the leaves hold the subset's work. */
  lemma SubsetLeavesWork<S(!new)>(c: Collaborators<S>, search: Searcher<S>, top: Solution<S>, subSlices: seq<int>, i: nat)
    requires SearchConservesWork(c, search) && ApportionConservesWork(c)
    requires i < |top.sets|
    requires SubsetLeaves(c, search, top, subSlices, i).Success?
    ensures i < |top.permutation| && 0 <= top.permutation[i] < |subSlices|
    ensures subSlices[top.permutation[i]] > 0
            ==> TotalSize(c, SubsetLeaves(c, search, top, subSlices, i).value) == c.size(top.sets[i])
  {
    var part := top.sets[i];
    var workPerPart := c.splitWork(c.size(part), subSlices[top.permutation[i]]);
    assert search(part, workPerPart).Some?;
    if subSlices[top.permutation[i]] > 0 {
      assert Apportions(c, part, workPerPart);
    }
  }

  /** The leaves of the first `k` subsets hold the work `r` records for
      those subsets, one entry per subset. */
  lemma {:induction false} WorkPrefix<S>(c: Collaborators<S>, search: Searcher<S>, top: Solution<S>, subSlices: seq<int>,
                                         r: seq<int>, k: nat)
    requires k <= |top.sets| == |r|
    requires SubsetsSucceed(c, search, top, subSlices, |top.sets|)
    requires forall i :: 0 <= i < |top.sets| ==>
      TotalSize(c, SubsetLeaves(c, search, top, subSlices, i).value) == r[i]
    ensures TotalSize(c, LeavesUpTo(c, search, top, subSlices, k)) == Sum(r[..k])
  {
    if k > 0 {
      WorkPrefix(c, search, top, subSlices, r, k - 1);
      var prev, g := LeavesUpTo(c, search, top, subSlices, k - 1), SubsetLeaves(c, search, top, subSlices, k - 1).value;
      assert LeavesUpTo(c, search, top, subSlices, k) == prev + g;
      SizesConcat(c, prev, g);
      assert TotalSize(c, g) == r[k - 1];
      SumPrefixStep(r, k);
    }
  }

  /** When every subset succeeds into a positive number of leaves and the
      search conserves work, the leaves hold exactly the work of the
      top-level subsets. */
  lemma SplitConservesWork<S(!new)>(c: Collaborators<S>, search: Searcher<S>, top: Solution<S>, subSlices: seq<int>)
    requires SearchConservesWork(c, search) && ApportionConservesWork(c)
    requires forall i :: 0 <= i < |subSlices| ==> subSlices[i] > 0
    requires SubsetsSucceed(c, search, top, subSlices, |top.sets|)
    ensures TotalSize(c, LeavesUpTo(c, search, top, subSlices, |top.sets|)) == TotalSize(c, top.sets)
  {
    forall i | 0 <= i < |top.sets|
      ensures TotalSize(c, SubsetLeaves(c, search, top, subSlices, i).value) == c.size(top.sets[i])
    {
      SubsetLeavesWork(c, search, top, subSlices, i);
    }
    WorkPrefix(c, search, top, subSlices, Sizes(c, top.sets), |top.sets|);
    assert Sizes(c, top.sets)[..|top.sets|] == Sizes(c, top.sets);
  }

  /** A zero entry in `subSlices` loses work: the subset it is paired with
      is split into no leaves, so the leaves hold the work of the top-level
      subsets less that subset's. */
  lemma ZeroSliceDropsWork<S(!new)>(c: Collaborators<S>, search: Searcher<S>, top: Solution<S>, subSlices: seq<int>, j: nat)
    requires SearchKeepsCount(search) && SearchConservesWork(c, search)
    requires ApportionKeepsCount(c) && ApportionConservesWork(c)
    requires |top.sets| == |subSlices| && IsIndexPermutation(top.permutation, |subSlices|)
    requires SubsetsSucceed(c, search, top, subSlices, |top.sets|)
    requires j < |top.sets| && subSlices[top.permutation[j]] == 0
    requires forall i :: 0 <= i < |subSlices| && i != top.permutation[j] ==> subSlices[i] > 0
    ensures SubsetLeaves(c, search, top, subSlices, j).value == []
    ensures TotalSize(c, LeavesUpTo(c, search, top, subSlices, |top.sets|)) == TotalSize(c, top.sets) - c.size(top.sets[j])
  {
    var perm, sizes := top.permutation, Sizes(c, top.sets);
    assert perm in IndexPermutations(|subSlices|);
    var r := sizes[j := 0];
    forall i | 0 <= i < |top.sets|
      ensures TotalSize(c, SubsetLeaves(c, search, top, subSlices, i).value) == r[i]
    {
      SubsetLeafCount(c, search, top, subSlices, i);
      if i != j {
        assert perm[i] != perm[j];
        SubsetLeavesWork(c, search, top, subSlices, i);
      }
    }
    WorkPrefix(c, search, top, subSlices, r, |top.sets|);
    assert r[..|top.sets|] == r;
    SumUpdate(sizes, j, 0);
  }
}
