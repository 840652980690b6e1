/** Small facts about sequences shared by the other modules. */
module Sequences {

  predicate Distinct<T(==)>(s: seq<T>) {
    forall i, j :: 0 <= i < j < |s| ==> s[i] != s[j]
  }

  lemma DistinctConcat<T>(a: seq<T>, b: seq<T>)
    requires Distinct(a) && Distinct(b)
    requires forall x :: x in a ==> x !in b
    ensures Distinct(a + b)
  {
    forall i, j | 0 <= i < j < |a + b|
      ensures (a + b)[i] != (a + b)[j]
    {
      if j >= |a| && i < |a| {
        assert (a + b)[i] in a && (a + b)[j] in b;
      }
    }
  }

  /** An element listed at two positions occurs twice. */
  lemma TwoPositions<T>(s: seq<T>, i: nat, j: nat)
    requires i < j < |s| && s[i] == s[j]
    ensures multiset(s)[s[i]] >= 2
  {
    assert s == s[..j] + [s[j]] + s[j + 1..];
    assert s[i] in multiset(s[..j]) by {
      assert s[..j][i] == s[i];
    }
  }

  /** In a list without repeats every element occurs at most once. */
  lemma {:induction false} DistinctOnce<T>(s: seq<T>)
    requires Distinct(s)
    ensures forall x :: multiset(s)[x] <= 1
  {
    if s != [] {
      DistinctOnce(s[1..]);
      MultisetSplit(s);
      assert s[0] !in s[1..];
    }
  }

  /** Reordering keeps a list free of repeats. */
  lemma DistinctPerm<T>(a: seq<T>, b: seq<T>)
    requires Distinct(a) && multiset(a) == multiset(b)
    ensures Distinct(b)
  {
    DistinctOnce(a);
    forall i, j | 0 <= i < j < |b|
      ensures b[i] != b[j]
    {
      if b[i] == b[j] {
        TwoPositions(b, i, j);
      }
    }
  }

  lemma MultisetSplit<T>(s: seq<T>)
    requires s != []
    ensures multiset(s) == multiset{s[0]} + multiset(s[1..])
  {
    assert s == [s[0]] + s[1..];
  }

  /** Equal multisets with equal first elements have equal rests. */
  lemma MultisetTails<T>(a: seq<T>, b: seq<T>)
    requires a != [] && b != [] && a[0] == b[0]
    requires multiset(a) == multiset(b)
    ensures multiset(a[1..]) == multiset(b[1..])
  {
    MultisetSplit(a);
    MultisetSplit(b);
    assert multiset(a[1..]) == multiset(a) - multiset{a[0]};
  }

  /** Removing the element at `j` removes one occurrence of it. */
  lemma MultisetRemove<T>(b: seq<T>, j: nat)
    requires j < |b|
    ensures multiset(b[..j] + b[j + 1..]) + multiset{b[j]} == multiset(b)
  {
    assert b == b[..j] + [b[j]] + b[j + 1..];
    assert multiset(b) == multiset(b[..j]) + multiset{b[j]} + multiset(b[j + 1..]);
  }

  /** Taking the first element of `a` out of a permutation `b` of it
      leaves a permutation of the rest of `a`. */
  lemma PermTail<T>(a: seq<T>, b: seq<T>, j: nat)
    requires a != [] && j < |b| && b[j] == a[0]
    requires multiset(a) == multiset(b)
    ensures multiset(a[1..]) == multiset(b[..j] + b[j + 1..])
  {
    MultisetSplit(a);
    MultisetRemove(b, j);
    var l, r := multiset(a[1..]), multiset(b[..j] + b[j + 1..]);
    forall x ensures l[x] == r[x] {
      assert (l + multiset{a[0]})[x] == (r + multiset{a[0]})[x];
    }
  }

  /** Sum over `keys` of how often each occurs in `m`. */
  function SumCounts<K>(keys: seq<K>, m: multiset<K>): nat {
    if keys == [] then 0 else m[keys[0]] + SumCounts(keys[1..], m)
  }

  lemma {:induction false} SumCountsAdd<K>(keys: seq<K>, a: multiset<K>, b: multiset<K>)
    ensures SumCounts(keys, a + b) == SumCounts(keys, a) + SumCounts(keys, b)
  {
    if keys != [] {
      SumCountsAdd(keys[1..], a, b);
    }
  }

  lemma {:induction false} SumCountsSingle<K>(keys: seq<K>, p: K)
    requires Distinct(keys) && p in keys
    ensures SumCounts(keys, multiset{p}) == 1
  {
    if keys[0] == p {
      SumCountsAbsent(keys[1..], p);
    } else {
      SumCountsSingle(keys[1..], p);
    }
  }

  lemma {:induction false} SumCountsAbsent<K>(keys: seq<K>, p: K)
    requires p !in keys
    ensures SumCounts(keys, multiset{p}) == 0
  {
    if keys != [] {
      SumCountsAbsent(keys[1..], p);
    }
  }

  lemma {:induction false} SumCountsEmpty<K>(keys: seq<K>)
    ensures SumCounts(keys, multiset{}) == 0
  {
    if keys != [] {
      SumCountsEmpty(keys[1..]);
    }
  }

  /** Counting every element of `xs` under distinct keys that cover them
      all accounts for each element exactly once. */
  lemma {:induction false} SumCountsAll<K>(keys: seq<K>, xs: seq<K>)
    requires Distinct(keys)
    requires forall i :: 0 <= i < |xs| ==> xs[i] in keys
    ensures SumCounts(keys, multiset(xs)) == |xs|
  {
    if xs == [] {
      SumCountsEmpty(keys);
    } else {
      assert xs == [xs[0]] + xs[1..];
      assert multiset(xs) == multiset{xs[0]} + multiset(xs[1..]);
      SumCountsAdd(keys, multiset{xs[0]}, multiset(xs[1..]));
      SumCountsSingle(keys, xs[0]);
      SumCountsAll(keys, xs[1..]);
      assert SumCounts(keys, multiset(xs))
          == SumCounts(keys, multiset{xs[0]}) + SumCounts(keys, multiset(xs[1..]));
    }
  }
}
