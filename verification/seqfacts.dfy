/** Sequence vocabulary shared by the permutation generator and the search:
    sums, distinctness, factorials and index gathering, with the facts about
    them that the search relies on. */
module SeqFacts {

  /** The index array `0, 1, ..., n-1`. */
  function Identity(n: nat): seq<int> {
    seq(n, k => k)
  }

  function Fact(n: nat): nat {
    if n == 0 then 1 else n * Fact(n - 1)
  }

  /** `k` copies of `f` added up: `k * f` without a multiplication, which
      keeps the counting proofs linear. */
  function Repeat(k: nat, f: nat): nat {
    if k == 0 then 0 else f + Repeat(k - 1, f)
  }

  lemma {:induction false} RepeatIsProduct(k: nat, f: nat)
    ensures Repeat(k, f) == k * f
  {
    if k > 0 {
      RepeatIsProduct(k - 1, f);
    }
  }

  /** `(m + 1)! == m! + m * m!`, stated with `Repeat`. */
  lemma FactStep(m: nat)
    ensures Fact(m + 1) == Fact(m) + Repeat(m, Fact(m))
  {
    RepeatIsProduct(m + 1, Fact(m));
  }

  function Sum(xs: seq<int>): int {
    if |xs| == 0 then 0 else xs[0] + Sum(xs[1..])
  }

  /** No value occurs twice. */
  predicate Distinct(s: seq<int>) {
    forall i, j :: 0 <= i < j < |s| ==> s[i] != s[j]
  }

  /** No array occurs twice in a collection of arrays. */
  predicate NoDup(ss: seq<seq<int>>) {
    forall i, j :: 0 <= i < j < |ss| ==> ss[i] != ss[j]
  }

  /** Every entry of `idx` is a valid index into an array of length `n`. */
  predicate ValidIndices(idx: seq<int>, n: nat) {
    forall j :: 0 <= j < |idx| ==> 0 <= idx[j] < n
  }

  /** The values of `w` read at the positions listed in `idx`. */
  function Gather(w: seq<int>, idx: seq<int>): seq<int>
    requires ValidIndices(idx, |w|)
  {
    seq(|idx|, j requires 0 <= j < |idx| => w[idx[j]])
  }

  lemma {:induction false} SumConcat(xs: seq<int>, ys: seq<int>)
    ensures Sum(xs + ys) == Sum(xs) + Sum(ys)
    decreases |xs|
  {
    if |xs| == 0 {
      assert xs + ys == ys;
    } else {
      assert (xs + ys)[1..] == xs[1..] + ys;
      SumConcat(xs[1..], ys);
    }
  }

  /** Extending a prefix by one element adds that element to its sum. */
  lemma SumPrefixStep(xs: seq<int>, k: nat)
    requires 0 < k <= |xs|
    ensures Sum(xs[..k]) == Sum(xs[..k - 1]) + xs[k - 1]
  {
    assert xs[..k] == xs[..k - 1] + [xs[k - 1]];
    SumConcat(xs[..k - 1], [xs[k - 1]]);
  }

  /** Replacing one entry changes the sum by the difference. */
  lemma SumUpdate(xs: seq<int>, j: nat, v: int)
    requires j < |xs|
    ensures Sum(xs[j := v]) == Sum(xs) - xs[j] + v
  {
    assert xs == xs[..j] + [xs[j]] + xs[j + 1..];
    assert xs[j := v] == xs[..j] + [v] + xs[j + 1..];
    SumConcat(xs[..j] + [xs[j]], xs[j + 1..]);
    SumConcat(xs[..j], [xs[j]]);
    SumConcat(xs[..j] + [v], xs[j + 1..]);
    SumConcat(xs[..j], [v]);
  }

  lemma {:induction false} SumNonNegative(xs: seq<int>)
    requires forall k :: 0 <= k < |xs| ==> xs[k] >= 0
    ensures Sum(xs) >= 0
    decreases |xs|
  {
    if |xs| > 0 {
      SumNonNegative(xs[1..]);
    }
  }

  /** `s` with the element at position `j` removed. */
  function RemoveAt(s: seq<int>, j: nat): seq<int>
    requires j < |s|
  {
    s[..j] + s[j + 1..]
  }

  lemma MultisetCancel(a: multiset<int>, b: multiset<int>, x: int)
    requires a + multiset{x} == b + multiset{x}
    ensures a == b
  {
    forall v ensures a[v] == b[v] {
      assert (a + multiset{x})[v] == a[v] + multiset{x}[v];
      assert (b + multiset{x})[v] == b[v] + multiset{x}[v];
    }
  }

  /** Taking the first element off one array and the same value off another
      array with the same multiset leaves arrays with the same multiset. */
  lemma RemoveMatching(xs: seq<int>, ys: seq<int>, j: nat)
    requires |xs| > 0 && j < |ys| && ys[j] == xs[0]
    requires multiset(xs) == multiset(ys)
    ensures multiset(RemoveAt(ys, j)) == multiset(xs[1..])
  {
    var x := xs[0];
    assert ys == ys[..j] + [x] + ys[j + 1..];
    assert xs == [x] + xs[1..];
    assert multiset(ys) == multiset(RemoveAt(ys, j)) + multiset{x};
    assert multiset(xs) == multiset(xs[1..]) + multiset{x};
    MultisetCancel(multiset(RemoveAt(ys, j)), multiset(xs[1..]), x);
  }

  /** The sum does not depend on the order of the summands. */
  lemma {:induction false} SumPermutation(xs: seq<int>, ys: seq<int>)
    requires multiset(xs) == multiset(ys)
    ensures Sum(xs) == Sum(ys)
    decreases |xs|
  {
    if |xs| == 0 {
      assert |multiset(ys)| == 0;
    } else {
      var x := xs[0];
      assert x in multiset(xs);
      assert x in ys;
      var j :| 0 <= j < |ys| && ys[j] == x;
      RemoveMatching(xs, ys, j);
      SumPermutation(xs[1..], RemoveAt(ys, j));
      assert ys == ys[..j] + [x] + ys[j + 1..];
      SumConcat(ys[..j] + [x], ys[j + 1..]);
      SumConcat(ys[..j], [x]);
      SumConcat(ys[..j], ys[j + 1..]);
      assert Sum([x]) == x;
    }
  }

  lemma GatherConcat(w: seq<int>, p: seq<int>, q: seq<int>)
    requires ValidIndices(p, |w|) && ValidIndices(q, |w|)
    ensures ValidIndices(p + q, |w|)
    ensures Gather(w, p + q) == Gather(w, p) + Gather(w, q)
  {
    assert ValidIndices(p + q, |w|) by {
      forall j | 0 <= j < |p + q| ensures 0 <= (p + q)[j] < |w| {
        if j >= |p| { assert (p + q)[j] == q[j - |p|]; }
      }
    }
  }

  /** Reading `w` through two index lists with the same multiset of
      entries yields values with the same multiset. */
  lemma {:induction false} GatherMultiset(w: seq<int>, p: seq<int>, q: seq<int>)
    requires ValidIndices(p, |w|) && ValidIndices(q, |w|)
    requires multiset(p) == multiset(q)
    ensures multiset(Gather(w, p)) == multiset(Gather(w, q))
    decreases |p|
  {
    if |p| == 0 {
      assert |multiset(q)| == 0;
    } else {
      var x := p[0];
      assert x in multiset(p);
      assert x in q;
      var j :| 0 <= j < |q| && q[j] == x;
      RemoveMatching(p, q, j);
      GatherMultiset(w, p[1..], RemoveAt(q, j));
      assert p == [x] + p[1..];
      GatherConcat(w, [x], p[1..]);
      assert q == (q[..j] + [x]) + q[j + 1..];
      GatherConcat(w, q[..j], [x]);
      GatherConcat(w, q[..j] + [x], q[j + 1..]);
      GatherConcat(w, q[..j], q[j + 1..]);
    }
  }

  lemma GatherIdentity(w: seq<int>)
    ensures ValidIndices(Identity(|w|), |w|)
    ensures Gather(w, Identity(|w|)) == w
  {
  }

  /** Two arrays that agree on a prefix and hold the same multiset also
      hold the same multiset after that prefix. */
  lemma SuffixMultiset(a: seq<int>, b: seq<int>, s: nat)
    requires s <= |a| == |b|
    requires a[..s] == b[..s]
    requires multiset(a) == multiset(b)
    ensures multiset(a[s..]) == multiset(b[s..])
  {
    assert a == a[..s] + a[s..];
    assert b == b[..s] + b[s..];
    var pre := multiset(a[..s]);
    assert multiset(a) == pre + multiset(a[s..]);
    assert multiset(b) == pre + multiset(b[s..]);
    forall v ensures multiset(a[s..])[v] == multiset(b[s..])[v] {
      assert (pre + multiset(a[s..]))[v] == pre[v] + multiset(a[s..])[v];
      assert (pre + multiset(b[s..]))[v] == pre[v] + multiset(b[s..])[v];
    }
  }

  /** Two duplicate-free collections whose arrays differ at position `s`
      (all of the first hold `v` there, none of the second does) join into
      a duplicate-free collection. */
  lemma NoDupConcat(xs: seq<seq<int>>, ys: seq<seq<int>>, s: nat, v: int)
    requires NoDup(xs) && NoDup(ys)
    requires forall p :: p in xs ==> s < |p| && p[s] == v
    requires forall q :: q in ys ==> s < |q| && q[s] != v
    ensures NoDup(xs + ys)
  {
    var zs := xs + ys;
    forall i, j | 0 <= i < j < |zs|
      ensures zs[i] != zs[j]
    {
      if i < |xs| && j >= |xs| {
        assert zs[i] in xs;
        assert zs[j] in ys;
      }
    }
  }
}
