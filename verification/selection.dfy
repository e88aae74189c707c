/** The two minimum searches of `SearchSplit`, as folds over the list of
    candidate costs in the order the candidates are tried. Both replace the
    current best only on a strictly smaller cost, so on a tie the candidate
    tried first is kept. */
module Selection {
  import opened Outcomes

  /** Java's `Integer.MAX_VALUE`, the initial "best" cost of `findBestSplit`. */
  const IntMax: int := 0x7fff_ffff

  /** `k` is the first position holding the smallest cost. */
  predicate IsFirstMin(costs: seq<int>, k: int) {
    && 0 <= k < |costs|
    && (forall j :: 0 <= j < |costs| ==> costs[k] <= costs[j])
    && (forall j :: 0 <= j < k ==> costs[k] < costs[j])
  }

  /** Only one position can be the first minimum. */
  lemma FirstMinUnique(costs: seq<int>, k1: int, k2: int)
    requires IsFirstMin(costs, k1) && IsFirstMin(costs, k2)
    ensures k1 == k2
  {
    assert costs[k1] == costs[k2];
  }

  /** The loop of `findBestSplitFourWays` from iteration `i` on, with `best`
      the candidate kept so far (the loop starts at `i = 1` with candidate
      0 kept). The requires is the loop's invariant. */
  function ScanMin(costs: seq<int>, i: nat, best: nat): (k: nat)
    requires best < i <= |costs|
    requires IsFirstMin(costs[..i], best)
    ensures IsFirstMin(costs, k)
    decreases |costs| - i
  {
    if i == |costs| then
      assert costs[..i] == costs;
      best
    else
      ScanMin(costs, i + 1, if costs[i] < costs[best] then i else best)
  }

  /** The loop of `findBestSplit` from candidate `i` on, with `best` the
      candidate kept so far (`None` while none has been kept) and `bestCost`
      the cost it is compared against, initially `Integer.MAX_VALUE`. The
      requires are the loop's invariant. */
  function SentinelScan(costs: seq<int>, i: nat, best: Option<nat>, bestCost: int): (r: Option<nat>)
    requires i <= |costs|
    requires best.None? ==> bestCost == IntMax && forall j :: 0 <= j < i ==> costs[j] >= IntMax
    requires best.Some? ==> IsFirstMin(costs[..i], best.value) && bestCost == costs[best.value] < IntMax
    ensures r.None? <==> forall j :: 0 <= j < |costs| ==> costs[j] >= IntMax
    ensures r.Some? ==> IsFirstMin(costs, r.value) && costs[r.value] < IntMax
    decreases |costs| - i
  {
    if i == |costs| then
      assert costs[..i] == costs;
      best
    else if costs[i] < bestCost then
      SentinelScan(costs, i + 1, Some(i), costs[i])
    else
      SentinelScan(costs, i + 1, best, bestCost)
  }
}
