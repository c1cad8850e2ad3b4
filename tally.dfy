/** Counting over sequences: occurrence counts, integer sums, duplicate-freedom,
    and turning a set into a list.  Shared by the aggregation, the dense frame
    and the derived views. */
module Tally {

  /** Number of occurrences of `x` in `xs`. */
  function Occ<T(==)>(xs: seq<T>, x: T): (n: nat)
    ensures n <= |xs|
  {
    if xs == [] then 0
    else
      var init := xs[..|xs| - 1];
      assert xs == init + [xs[|xs| - 1]];
      Occ(init, x) + (if xs[|xs| - 1] == x then 1 else 0)
  }

  /** `x` is counted at least once exactly when it occurs. */
  lemma {:induction false} OccPositive<T>(xs: seq<T>, x: T)
    ensures Occ(xs, x) > 0 <==> x in xs
  {
    if xs != [] {
      var init := xs[..|xs| - 1];
      OccPositive(init, x);
      assert xs == init + [xs[|xs| - 1]];
    }
  }

  lemma {:induction false} OccSnoc<T>(xs: seq<T>, y: T, x: T)
    ensures Occ(xs + [y], x) == Occ(xs, x) + (if y == x then 1 else 0)
  {
    assert (xs + [y])[..|xs|] == xs;
  }

  /** Counting is additive over concatenation. */
  lemma {:induction false} OccAppend<T>(a: seq<T>, b: seq<T>, x: T)
    ensures Occ(a + b, x) == Occ(a, x) + Occ(b, x)
  {
    if b != [] {
      var init := b[..|b| - 1];
      OccAppend(a, init, x);
      assert a + b == (a + init) + [b[|b| - 1]];
      OccSnoc(a + init, b[|b| - 1], x);
      assert b == init + [b[|b| - 1]];
      OccSnoc(init, b[|b| - 1], x);
    } else {
      assert a + b == a;
    }
  }

  /** Sum of a sequence of integers. */
  function Sum(xs: seq<int>): int
  {
    if xs == [] then 0 else Sum(xs[..|xs| - 1]) + xs[|xs| - 1]
  }

  lemma {:induction false} SumAppend(a: seq<int>, b: seq<int>)
    ensures Sum(a + b) == Sum(a) + Sum(b)
  {
    if b != [] {
      var init := b[..|b| - 1];
      SumAppend(a, init);
      assert (a + b)[..|a + b| - 1] == a + init;
    } else {
      assert a + b == a;
    }
  }

  /** A sequence of zeros sums to zero. */
  lemma {:induction false} ZeroSum(s: seq<int>)
    requires forall i | 0 <= i < |s| :: s[i] == 0
    ensures Sum(s) == 0
  {
    if s != [] {
      ZeroSum(s[..|s| - 1]);
    }
  }

  /** Adding one to a single entry adds one to the sum. */
  lemma {:induction false} SumIncrement(s: seq<int>, k: nat)
    requires k < |s|
    ensures Sum(s[k := s[k] + 1]) == Sum(s) + 1
  {
    var t := s[k := s[k] + 1];
    if k == |s| - 1 {
      assert t[..|t| - 1] == s[..|s| - 1];
    } else {
      SumIncrement(s[..|s| - 1], k);
      assert t[..|t| - 1] == s[..|s| - 1][k := s[k] + 1];
    }
  }

  /** Growing a prefix by one element. */
  lemma {:induction false} TakeSnoc<T>(s: seq<T>, n: nat)
    requires n < |s|
    ensures s[..n + 1] == s[..n] + [s[n]]
  {
  }

  /** Growing a prefix of `b` by one element, after a fixed front `a`. */
  lemma {:induction false} PrefixSnoc<T>(a: seq<T>, b: seq<T>, i: nat)
    requires i < |b|
    ensures a + b[..i + 1] == (a + b[..i]) + [b[i]]
  {
    assert b[..i + 1] == b[..i] + [b[i]];
  }

  /** Taking the same element out of two equal multisets leaves equal multisets. */
  lemma {:induction false} MultisetCancel<T>(m: multiset<T>, m': multiset<T>, r: T)
    requires m + multiset{r} == m' + multiset{r}
    ensures m == m'
  {
    forall x
      ensures m[x] == m'[x]
    {
      assert (m + multiset{r})[x] == (m' + multiset{r})[x];
    }
  }

  /** Removing one copy of `r` from two reorderings of each other leaves
      reorderings of each other. */
  lemma {:induction false} MultisetRemove<T>(a: seq<T>, r: T, front: seq<T>, back: seq<T>)
    requires multiset(a + [r]) == multiset(front + [r] + back)
    ensures multiset(a) == multiset(front + back)
  {
    calc {
      multiset(a) + multiset{r};
      multiset(a + [r]);
      multiset(front + [r] + back);
      multiset(front + [r]) + multiset(back);
      multiset(front) + multiset{r} + multiset(back);
      multiset(front + back) + multiset{r};
    }
    MultisetCancel(multiset(a), multiset(front + back), r);
  }

  /** No element occurs twice. */
  predicate Distinct<T(==)>(xs: seq<T>)
  {
    forall i, j | 0 <= i < j < |xs| :: xs[i] != xs[j]
  }

  /** A list holding every element of `s` once, in an order the method
      chooses: Python's `list(s)` of a set, whose order is arbitrary, and also
      any particular order such as a dictionary's insertion order. */
  method ListOf<T>(s: set<T>) returns (xs: seq<T>)
    ensures Distinct(xs)
    ensures forall x :: x in xs <==> x in s
    ensures |xs| == |s|
  {
    xs := [];
    var rest := s;
    while rest != {}
      invariant rest <= s
      invariant Distinct(xs)
      invariant forall x :: x in xs <==> x in s && x !in rest
      invariant |xs| + |rest| == |s|
      decreases |rest|
    {
      var x :| x in rest;
      xs := xs + [x];
      rest := rest - {x};
    }
  }
}
