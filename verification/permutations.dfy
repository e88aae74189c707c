/** The index-permutation generator of `SearchSplit`: `swap`,
    `getPermutation` and `getIndexPermutations`.

    `getPermutation(input, start, output)` appends arrays to a collection;
    here `Permutations(a, start)` is the sequence of arrays it appends, in
    order. Its `for` loop over `i` is `SwapLoop`, whose first argument is
    the loop's current working array: every iteration replaces it by a
    swapped copy, so the swaps of earlier iterations are still in place
    when later iterations swap again. */
module Permutations {
  import opened SeqFacts

  /** `p` is an ordering of `0..n-1`: `n` entries, each a valid index,
      together the same multiset as `0, 1, ..., n-1`. */
  predicate IsIndexPermutation(p: seq<int>, n: nat) {
    && |p| == n
    && ValidIndices(p, n)
    && multiset(p) == multiset(Identity(n))
  }

  /** A copy of `a` with positions `i` and `j` exchanged; `a` itself is a
      value and cannot change. */
  function Swap(a: seq<int>, i: nat, j: nat): (r: seq<int>)
    requires i < |a| && j < |a|
    ensures |r| == |a|
    ensures r[i] == a[j] && r[j] == a[i]
  {
    a[i := a[j]][j := a[i]]
  }

  /** Apart from positions `i` and `j`, the copy equals `a`. */
  lemma SwapKeepsOthers(a: seq<int>, i: nat, j: nat)
    requires i < |a| && j < |a|
    ensures forall k :: 0 <= k < |a| && k != i && k != j ==> Swap(a, i, j)[k] == a[k]
  {
  }

  lemma SwapKeepsMultiset(a: seq<int>, i: nat, j: nat)
    requires i < |a| && j < |a|
    ensures multiset(Swap(a, i, j)) == multiset(a)
  {
  }

  /** In a duplicate-free array the value at `i` does not occur after `i`. */
  lemma DistinctHeadNotInTail(a: seq<int>, i: nat)
    requires i < |a| && Distinct(a)
    ensures a[i] !in a[i + 1..]
  {
    forall j | i < j < |a|
      ensures a[j] != a[i]
    {
    }
  }

  lemma SwapKeepsDistinct(a: seq<int>, i: nat, j: nat)
    requires i < |a| && j < |a|
    requires Distinct(a)
    ensures Distinct(Swap(a, i, j))
  {
    var r := Swap(a, i, j);
    forall x, y | 0 <= x < y < |r|
      ensures r[x] != r[y]
    {
      var sx := if x == i then j else if x == j then i else x;
      var sy := if y == i then j else if y == j then i else y;
      assert r[x] == a[sx] && r[y] == a[sy];
      if sx < sy {
        assert a[sx] != a[sy];
      } else {
        assert a[sy] != a[sx];
      }
    }
  }

  /** The arrays `getPermutation(a, start, output)` appends to `output`. */
  function Permutations(a: seq<int>, start: nat): (r: seq<seq<int>>)
    requires start <= |a|
    ensures |r| > 0 && r[0] == a
    decreases |a| - start, 1, 0
  {
    if start == |a| then [a]
    else Permutations(a, start + 1) + SwapLoop(a, start, start + 1)
  }

  /** The iterations `i, i+1, ..., |a|-1` of the loop in `getPermutation`
      at depth `start`, with `a` the working array as it stands when
      iteration `i` begins. */
  function SwapLoop(a: seq<int>, start: nat, i: nat): seq<seq<int>>
    requires start < i <= |a|
    decreases |a| - start, 0, |a| - i
  {
    if i == |a| then []
    else if a[start] != a[i] then
      var b := Swap(a, start, i);
      Permutations(b, start + 1) + SwapLoop(b, start, i + 1)
    else SwapLoop(a, start, i + 1)
  }

  /** The arrays `getIndexPermutations(n, output)` appends to `output`. */
  function IndexPermutations(n: nat): (ps: seq<seq<int>>)
    ensures |ps| == Fact(n)
    ensures |ps| > 0 && ps[0] == Identity(n)
    ensures NoDup(ps)
    ensures forall p :: p in ps ==> Distinct(p)
    ensures forall p :: p in ps <==> IsIndexPermutation(p, n)
    ensures forall k :: 0 <= k < |ps| ==> IsIndexPermutation(ps[k], n)
  {
    IdentityPermutations(n);
    Permutations(Identity(n), 0)
  }

  /** `p` is a rearrangement of `a` that keeps the first `start` entries of
      `a` in place, and is duplicate-free when `a` is. */
  predicate Rearranges(a: seq<int>, start: nat, p: seq<int>) {
    && start <= |a| == |p|
    && p[..start] == a[..start]
    && multiset(p) == multiset(a)
    && (Distinct(a) ==> Distinct(p))
  }

  /** Rearranging a rearrangement of `a` that keeps one more entry in place
      gives a rearrangement of `a`. */
  lemma RearrangesTrans(a: seq<int>, b: seq<int>, start: nat, p: seq<int>)
    requires Rearranges(a, start, b) && start < |a|
    requires Rearranges(b, start + 1, p)
    ensures Rearranges(a, start, p)
    ensures p[start] == b[start]
  {
    assert p[..start] == p[..start + 1][..start];
    assert b[..start] == b[..start + 1][..start];
    assert p[start] == p[..start + 1][start];
  }

  lemma SwapRearranges(a: seq<int>, start: nat, i: nat)
    requires start < i < |a|
    ensures Rearranges(a, start, Swap(a, start, i))
  {
    var b := Swap(a, start, i);
    SwapKeepsMultiset(a, start, i);
    if Distinct(a) {
      SwapKeepsDistinct(a, start, i);
    }
    assert b[..start] == a[..start];
  }

  /** Every array produced at depth `start` is a rearrangement of `a` that
      keeps its first `start` entries. */
  lemma {:induction false} PermutationsShape(a: seq<int>, start: nat)
    requires start <= |a|
    ensures forall p :: p in Permutations(a, start) ==> Rearranges(a, start, p)
    decreases |a| - start, 1, 0
  {
    if start < |a| {
      PermutationsShape(a, start + 1);
      SwapLoopShape(a, start, start + 1);
      assert Rearranges(a, start, a);
      forall p | p in Permutations(a, start + 1)
        ensures Rearranges(a, start, p)
      {
        RearrangesTrans(a, a, start, p);
      }
    }
  }

  /** Besides being rearrangements, the arrays the loop produces from
      iteration `i` on hold at position `start` a value found at position
      `i` or later of the working array. */
  lemma {:induction false} SwapLoopShape(a: seq<int>, start: nat, i: nat)
    requires start < i <= |a|
    ensures forall p :: p in SwapLoop(a, start, i) ==>
      Rearranges(a, start, p) && p[start] in a[i..]
    decreases |a| - start, 0, |a| - i
  {
    if i < |a| {
      assert a[i..] == [a[i]] + a[i + 1..];
      if a[start] != a[i] {
        var b := Swap(a, start, i);
        SwapRearranges(a, start, i);
        PermutationsShape(b, start + 1);
        SwapLoopShape(b, start, i + 1);
        assert b[i + 1..] == a[i + 1..];
        LoopStepShape(a, b, start, i, Permutations(b, start + 1), SwapLoop(b, start, i + 1));
      } else {
        SwapLoopShape(a, start, i + 1);
      }
    }
  }

  /** One swapping iteration of the loop: the arrays of the recursive call
      on the swapped copy `b`, followed by those of the later iterations,
      are rearrangements of `a` holding at `start` a value from `a[i..]`. */
  lemma LoopStepShape(a: seq<int>, b: seq<int>, start: nat, i: nat,
                      xs: seq<seq<int>>, ys: seq<seq<int>>)
    requires start < i < |a|
    requires Rearranges(a, start, b) && b[start] == a[i] && b[i + 1..] == a[i + 1..]
    requires forall p :: p in xs ==> Rearranges(b, start + 1, p)
    requires forall p :: p in ys ==> Rearranges(b, start, p) && p[start] in b[i + 1..]
    ensures forall p :: p in xs + ys ==> Rearranges(a, start, p) && p[start] in a[i..]
  {
    assert a[i..] == [a[i]] + a[i + 1..];
    forall p | p in xs + ys
      ensures Rearranges(a, start, p) && p[start] in a[i..]
    {
      if p in xs {
        RearrangesTrans(a, b, start, p);
      } else {
        RearrangesTransSame(a, b, start, p);
      }
    }
  }

  /** A rearrangement keeping `start` entries of a rearrangement of `a` that
      keeps the same entries is a rearrangement of `a`. */
  lemma RearrangesTransSame(a: seq<int>, b: seq<int>, start: nat, p: seq<int>)
    requires Rearranges(a, start, b)
    requires Rearranges(b, start, p)
    ensures Rearranges(a, start, p)
  {
  }

  /** On duplicate-free input the guard `input[start] != input[i]` always
      holds, and `getPermutation` produces `(|a| - start)!` arrays. */
  lemma {:induction false} PermutationsCount(a: seq<int>, start: nat)
    requires start <= |a|
    requires Distinct(a)
    ensures |Permutations(a, start)| == Fact(|a| - start)
    decreases |a| - start, 1, 0
  {
    if start < |a| {
      PermutationsCount(a, start + 1);
      SwapLoopCount(a, start, start + 1);
      FactStep(|a| - start - 1);
    }
  }

  lemma {:induction false} SwapLoopCount(a: seq<int>, start: nat, i: nat)
    requires start < i <= |a|
    requires Distinct(a)
    ensures |SwapLoop(a, start, i)| == Repeat(|a| - i, Fact(|a| - start - 1))
    decreases |a| - start, 0, |a| - i
  {
    if i < |a| {
      assert a[start] != a[i];
      var b := Swap(a, start, i);
      SwapKeepsDistinct(a, start, i);
      PermutationsCount(b, start + 1);
      SwapLoopCount(b, start, i + 1);
    }
  }

  /** On duplicate-free input no array is produced twice. */
  lemma {:induction false} PermutationsNoDup(a: seq<int>, start: nat)
    requires start <= |a|
    requires Distinct(a)
    ensures NoDup(Permutations(a, start))
    decreases |a| - start, 1, 0
  {
    if start < |a| {
      PermutationsNoDup(a, start + 1);
      SwapLoopNoDup(a, start, start + 1);
      PermutationsShape(a, start + 1);
      SwapLoopShape(a, start, start + 1);
      DistinctHeadNotInTail(a, start);
      forall p | p in Permutations(a, start + 1)
        ensures start < |p| && p[start] == a[start]
      {
        assert p[start] == p[..start + 1][start];
      }
      NoDupConcat(Permutations(a, start + 1), SwapLoop(a, start, start + 1), start, a[start]);
    }
  }

  lemma {:induction false} SwapLoopNoDup(a: seq<int>, start: nat, i: nat)
    requires start < i <= |a|
    requires Distinct(a)
    ensures NoDup(SwapLoop(a, start, i))
    decreases |a| - start, 0, |a| - i
  {
    if i < |a| {
      assert a[start] != a[i];
      var b := Swap(a, start, i);
      SwapKeepsDistinct(a, start, i);
      PermutationsNoDup(b, start + 1);
      SwapLoopNoDup(b, start, i + 1);
      PermutationsShape(b, start + 1);
      SwapLoopShape(b, start, i + 1);
      assert b[i + 1..] == a[i + 1..];
      DistinctHeadNotInTail(a, i);
      forall p | p in Permutations(b, start + 1)
        ensures start < |p| && p[start] == a[i]
      {
        assert p[start] == p[..start + 1][start];
      }
      NoDupConcat(Permutations(b, start + 1), SwapLoop(b, start, i + 1), start, a[i]);
    }
  }

  /** On duplicate-free input every rearrangement of `a` that keeps its
      first `start` entries is produced. */
  lemma {:induction false} PermutationsComplete(a: seq<int>, start: nat, b: seq<int>)
    requires start <= |a|
    requires Distinct(a)
    requires |b| == |a| && b[..start] == a[..start]
    requires multiset(b) == multiset(a)
    ensures b in Permutations(a, start)
    decreases |a| - start, 1, 0
  {
    if start == |a| {
      assert b == b[..start] && a == a[..start];
    } else {
      SuffixMultiset(a, b, start);
      assert b[start] in multiset(b[start..]);
      assert b[start] in a[start..];
      assert a[start..] == [a[start]] + a[start + 1..];
      if b[start] == a[start] {
        assert b[..start + 1] == b[..start] + [b[start]];
        assert a[..start + 1] == a[..start] + [a[start]];
        PermutationsComplete(a, start + 1, b);
      } else {
        SwapLoopComplete(a, start, start + 1, b);
      }
    }
  }

  lemma {:induction false} SwapLoopComplete(a: seq<int>, start: nat, i: nat, b: seq<int>)
    requires start < i <= |a|
    requires Distinct(a)
    requires |b| == |a| && b[..start] == a[..start]
    requires multiset(b) == multiset(a)
    requires b[start] in a[i..]
    ensures b in SwapLoop(a, start, i)
    decreases |a| - start, 0, |a| - i
  {
    assert i < |a|;
    assert a[start] != a[i];
    var c := Swap(a, start, i);
    SwapKeepsDistinct(a, start, i);
    SwapKeepsMultiset(a, start, i);
    assert c[..start] == a[..start];
    assert a[i..] == [a[i]] + a[i + 1..];
    if b[start] == a[i] {
      assert b[..start + 1] == b[..start] + [b[start]];
      assert c[..start + 1] == c[..start] + [c[start]];
      PermutationsComplete(c, start + 1, b);
    } else {
      assert c[i + 1..] == a[i + 1..];
      SwapLoopComplete(c, start, i + 1, b);
    }
  }

  /** `getIndexPermutations(n)` produces exactly the `n!` orderings of
      `0..n-1`, each once, the identity first. */
  lemma IdentityPermutations(n: nat)
    ensures var ps := Permutations(Identity(n), 0);
      && |ps| == Fact(n)
      && NoDup(ps)
      && (forall p :: p in ps ==> Distinct(p))
      && (forall p :: p in ps <==> IsIndexPermutation(p, n))
  {
    var a := Identity(n);
    var ps := Permutations(a, 0);
    PermutationsShape(a, 0);
    PermutationsCount(a, 0);
    PermutationsNoDup(a, 0);
    forall p | p in ps
      ensures IsIndexPermutation(p, n)
    {
      forall k | 0 <= k < |p|
        ensures 0 <= p[k] < n
      {
        assert p[k] in multiset(a);
        assert p[k] in a;
      }
    }
    forall p | IsIndexPermutation(p, n)
      ensures p in ps
    {
      PermutationsComplete(a, 0, p);
    }
  }

  /** The working array of the loop at depth `s` when iteration `s + k + 1`
      begins, for duplicate-free input: the swaps so far have rotated
      `a[s..s+k]` one place to the right, bringing `a[s + k]` to the front. */
  function Rotated(a: seq<int>, s: nat, k: nat): (r: seq<int>)
    requires s + k < |a|
    ensures |r| == |a|
  {
    a[..s] + [a[s + k]] + a[s..s + k] + a[s + k + 1..]
  }

  /** The output of `getPermutation(a, s, ..)` read as blocks: for each
      `k = 0, 1, ..`, the orderings of the rotated array that keep its first
      `s + 1` entries. */
  function Blocks(a: seq<int>, s: nat, k: nat): seq<seq<int>>
    requires s + k <= |a|
    decreases |a| - s - k
  {
    if s + k == |a| then []
    else Permutations(Rotated(a, s, k), s + 1) + Blocks(a, s, k + 1)
  }

  /** Swapping position `s` of the rotated array with the next position
      extends the rotation by one. */
  lemma SwapRotated(a: seq<int>, s: nat, k: nat)
    requires s + k + 1 < |a|
    ensures Swap(Rotated(a, s, k), s, s + k + 1) == Rotated(a, s, k + 1)
  {
    var r, q := Swap(Rotated(a, s, k), s, s + k + 1), Rotated(a, s, k + 1);
    SwapKeepsOthers(Rotated(a, s, k), s, s + k + 1);
    forall x | 0 <= x < |a|
      ensures r[x] == q[x]
    {
      if s < x <= s + k + 1 {
        assert q[x] == a[x - 1];
      }
    }
  }

  /** On duplicate-free input the guard `input[start] != input[i]` holds at
      every iteration of the loop: the working array at iteration
      `s + k + 1` is `Rotated(a, s, k)`, whose entries at `s` and `s + k + 1`
      are the distinct `a[s + k]` and `a[s + k + 1]`. */
  lemma GuardHolds(a: seq<int>, s: nat, k: nat)
    requires Distinct(a)
    requires s + k + 1 < |a|
    ensures Rotated(a, s, k)[s] != Rotated(a, s, k)[s + k + 1]
  {
    var r := Rotated(a, s, k);
    assert r[s] == a[s + k];
    assert r[s + k + 1] == a[s + k + 1];
  }

  lemma {:induction false} SwapLoopBlocks(a: seq<int>, s: nat, k: nat)
    requires Distinct(a)
    requires s + k + 1 <= |a|
    ensures SwapLoop(Rotated(a, s, k), s, s + k + 1) == Blocks(a, s, k + 1)
    decreases |a| - s - k
  {
    if s + k + 1 < |a| {
      GuardHolds(a, s, k);
      SwapRotated(a, s, k);
      SwapLoopBlocks(a, s, k + 1);
    }
  }

  /** The order in which `getPermutation` emits the orderings of
      duplicate-free input: first those keeping `a[s]` at position `s`,
      then those with `a[s + 1]` there, and so on. Within block `k` every
      ordering has `a[s + k]` at position `s`, and `getIndexPermutations`
      therefore emits the orderings of `0..n-1` grouped by first entry,
      `0` first. */
  lemma PermutationsOrder(a: seq<int>, s: nat, k: nat)
    requires Distinct(a)
    requires s + k < |a|
    ensures Permutations(a, s) == Blocks(a, s, 0)
    ensures forall p :: p in Permutations(Rotated(a, s, k), s + 1) ==> |p| == |a| && p[s] == a[s + k]
  {
    assert Rotated(a, s, 0) == a;
    SwapLoopBlocks(a, s, 0);
    PermutationsShape(Rotated(a, s, k), s + 1);
    forall p | p in Permutations(Rotated(a, s, k), s + 1)
      ensures |p| == |a| && p[s] == a[s + k]
    {
      assert p[..s + 1][s] == Rotated(a, s, k)[..s + 1][s];
    }
  }
}
